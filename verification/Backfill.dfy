/**
  The incremental backfill of realised volatility: each run labels a suffix of
  the growing price series and fills the forecast rows that are still empty.
*/
module Backfill {
  import opened Reals
  import opened Features
  import opened FiniteSums
  import opened Labels

  const MINUTE: int := 60

  datatype Price = Price(time: int, close: real)

  /** realized is Undefined where the column is NULL. */
  datatype Forecast = Forecast(garch: Option<real>, xgb: Option<real>, realized: Cell)

  type Forecasts = map<Key, Forecast>

  /** The forward window, in prices and minutes, and the numeric functions. */
  datatype Config = Config(window: nat, ln: real -> real, sqrt: real -> real)

  ghost predicate InTimeOrder(series: seq<Price>) {
    forall i, j :: 0 <= i < j < |series| ==> series[i].time < series[j].time
  }

  function Closes(series: seq<Price>): (c: seq<real>)
    ensures |c| == |series|
  {
    seq(|series|, i requires 0 <= i < |series| => series[i].close)
  }

  /** The position of the price at time ts, or -1. */
  function Find(series: seq<Price>, ts: int): (i: int)
    ensures -1 <= i < |series|
    ensures i >= 0 ==> series[i].time == ts
    ensures i == -1 ==> forall j :: 0 <= j < |series| ==> series[j].time != ts
  {
    if |series| == 0 then -1
    else if series[0].time == ts then 0
    else var i := Find(series[1..], ts); if i == -1 then -1 else i + 1
  }

  /** The label of the price at time ts within a series, undefined if there is no such price. */
  function LabelFor(series: seq<Price>, ts: int, cfg: Config): Cell {
    var i := Find(series, ts);
    if i == -1 then Undefined else LabelAt(Closes(series), cfg.window, cfg.ln, cfg.sqrt, i)
  }

  // ---------------------------------------------------------------- the queries

  /** SELECT time, close ... WHERE time >= start ORDER BY time ASC, on a series in time order. */
  function Since(series: seq<Price>, start: int): seq<Price> {
    if |series| == 0 then []
    else if series[0].time >= start then [series[0]] + Since(series[1..], start)
    else Since(series[1..], start)
  }

  /** A forecast of the symbol that is still empty and at least the forward window old. */
  predicate IsDue(t: Forecasts, k: Key, symbol: string, now: int, window: nat)
    requires k in t
  {
    k.symbol == symbol && t[k].realized.Undefined? && k.time <= now - window * MINUTE
  }

  function DueTimes(t: Forecasts, symbol: string, now: int, window: nat): set<int> {
    set k | k in t && IsDue(t, k, symbol, now, window) :: k.time
  }

  lemma {:induction false} MinExists(s: set<int>, x: int)
    requires x in s
    ensures exists m :: m in s && forall u :: u in s ==> m <= u
    decreases |s|
  {
    if y :| y in s && y < x {
      assert x !in s - {x};
      MinExists(s - {x}, y);
      var m :| m in s - {x} && forall u :: u in s - {x} ==> m <= u;
      assert m <= y < x;
      assert forall u :: u in s ==> u == x || u in s - {x};
    } else {
      assert forall u :: u in s ==> x <= u;
    }
  }

  lemma LeastExists(s: set<int>)
    requires s != {}
    ensures exists m :: m in s && forall u :: u in s ==> m <= u
  {
    var x := SomeElement(s);
    MinExists(s, x);
  }

  function Least(s: set<int>): (m: int)
    requires s != {}
    ensures m in s && forall u :: u in s ==> m <= u
  {
    LeastExists(s);
    var x: int :| x in s && (forall u :: u in s ==> x <= u); x
  }

  /** ORDER BY time ASC */
  function Ascending(s: set<int>): (ts: seq<int>)
    ensures forall t :: t in ts <==> t in s
    ensures forall i :: 0 <= i < |ts| ==> ts[0] <= ts[i]
    decreases |s|
  {
    if s == {} then [] else
      var m := Least(s);
      [m] + Ascending(s - {m})
  }

  // ---------------------------------------------------------------- one run

  /** What a run does to the table: every due row whose label the series defines is filled. */
  function Backfilled(t: Forecasts, symbol: string, series: seq<Price>, now: int, cfg: Config): Forecasts {
    map k | k in t :: if IsDue(t, k, symbol, now, cfg.window)
                      then t[k].(realized := LabelFor(series, k.time, cfg)) else t[k]
  }

  lemma {:induction false} SinceIsSuffix(series: seq<Price>, start: int) returns (k: nat)
    requires InTimeOrder(series)
    ensures k <= |series| && Since(series, start) == series[k..]
    ensures forall i :: 0 <= i < k ==> series[i].time < start
  {
    if |series| == 0 || series[0].time >= start {
      k := 0;
      AllSince(series, start);
    } else {
      k := SinceIsSuffix(series[1..], start);
      k := k + 1;
      forall i | 0 <= i < k ensures series[i].time < start {
        if i > 0 { assert series[i] == series[1..][i - 1]; }
      }
    }
  }

  lemma {:induction false} AllSince(series: seq<Price>, start: int)
    requires forall i :: 0 <= i < |series| ==> series[i].time >= start
    ensures Since(series, start) == series
  {
    if |series| != 0 {
      AllSince(series[1..], start);
    }
  }

  lemma FindUnique(series: seq<Price>, i: nat)
    requires InTimeOrder(series) && i < |series|
    ensures Find(series, series[i].time) == i
  {
    var j := Find(series, series[i].time);
  }

  lemma FindInSuffix(series: seq<Price>, k: nat, ts: int)
    requires InTimeOrder(series) && k <= |series|
    requires forall i :: 0 <= i < k ==> series[i].time < ts
    ensures var i := Find(series, ts);
      Find(series[k..], ts) == (if i == -1 then -1 else i - k) && (i == -1 || i >= k)
  {
    var d, i := series[k..], Find(series, ts);
    assert forall j :: 0 <= j < |d| ==> d[j] == series[k + j];
    if i != -1 {
      assert d[i - k] == series[i];
      FindUnique(d, i - k);
    }
  }

  /** A label computed on the prices since a start no later than ts is the label on the whole series. */
  lemma LabelOnSuffix(series: seq<Price>, start: int, ts: int, cfg: Config)
    requires InTimeOrder(series) && start <= ts
    ensures LabelFor(Since(series, start), ts, cfg) == LabelFor(series, ts, cfg)
  {
    hide LabelAt, Find;
    var k := SinceIsSuffix(series, start);
    FindInSuffix(series, k, ts);
    var i := Find(series, ts);
    hide InTimeOrder, Since;
    assert Closes(series[k..]) == Closes(series)[k..];
    if i != -1 {
      LabelOfSuffix(Closes(series), k, cfg.window, cfg.ln, cfg.sqrt, i - k);
    }
  }

  /** The loop over the due times: look up each label and keep the defined ones. */
  method CollectUpdates(missing: seq<int>, prices: seq<Price>, cfg: Config) returns (updates: seq<(Cell, int)>)
    ensures forall u :: u in updates ==> u.1 in missing && LabelFor(prices, u.1, cfg) == u.0 && !u.0.Undefined?
    ensures forall ts :: ts in missing && !LabelFor(prices, ts, cfg).Undefined? ==>
      (LabelFor(prices, ts, cfg), ts) in updates
  {
    hide LabelAt, Find;
    var labels := ComputeForwardRealizedVol(Closes(prices), cfg.window, cfg.ln, cfg.sqrt);
    updates := [];
    for n := 0 to |missing|
      invariant forall u :: u in updates ==> u.1 in missing && LabelFor(prices, u.1, cfg) == u.0 && !u.0.Undefined?
      invariant forall j :: 0 <= j < n && !LabelFor(prices, missing[j], cfg).Undefined? ==>
        (LabelFor(prices, missing[j], cfg), missing[j]) in updates
    {
      var ts := missing[n];
      var i := Find(prices, ts);
      assert i != -1 ==> labels[..][i] == LabelFor(prices, ts, cfg);
      if i != -1 && !labels[i].Undefined? {
        updates := updates + [(labels[i], ts)];
      }
    }
  }

  /** The last of the first n updates at time ts, or -1. */
  function LastFor(updates: seq<(Cell, int)>, n: nat, ts: int): (i: int)
    requires n <= |updates|
    ensures -1 <= i < n
    ensures i >= 0 ==> updates[i].1 == ts
    ensures forall j :: i < j < n ==> updates[j].1 != ts
  {
    if n == 0 then -1 else if updates[n - 1].1 == ts then n - 1 else LastFor(updates, n - 1, ts)
  }

  /** The first n updates applied to a table: rows of the symbol take their last entry, others stay. */
  ghost predicate Applied(t: Forecasts, t': Forecasts, updates: seq<(Cell, int)>, n: nat, symbol: string)
    requires n <= |updates|
  {
    && t'.Keys == t.Keys
    && forall k :: k in t ==>
      var i := if k.symbol == symbol then LastFor(updates, n, k.time) else -1;
      t'[k] == if i == -1 then t[k] else t[k].(realized := updates[i].0)
  }

  lemma NothingApplied(t: Forecasts, updates: seq<(Cell, int)>, symbol: string)
    ensures Applied(t, t, updates, 0, symbol)
  {
  }

  lemma AppliedOneMore(t: Forecasts, before: Forecasts, after: Forecasts, updates: seq<(Cell, int)>, n: nat,
                       symbol: string)
    requires n < |updates| && Applied(t, before, updates, n, symbol)
    requires var key := Key(symbol, updates[n].1);
      after == if key in before then before[key := before[key].(realized := updates[n].0)] else before
    ensures Applied(t, after, updates, n + 1, symbol)
  {
  }

  /** Applying exactly the defined labels of the due rows is the backfill. */
  lemma AppliedIsBackfilled(t: Forecasts, t': Forecasts, updates: seq<(Cell, int)>, symbol: string,
                            series: seq<Price>, now: int, cfg: Config)
    requires Applied(t, t', updates, |updates|, symbol)
    requires forall i :: 0 <= i < |updates| ==>
      updates[i].1 in DueTimes(t, symbol, now, cfg.window) && LabelFor(series, updates[i].1, cfg) == updates[i].0
    requires forall ts :: ts in DueTimes(t, symbol, now, cfg.window) && !LabelFor(series, ts, cfg).Undefined? ==>
      exists i :: 0 <= i < |updates| && updates[i].1 == ts
    ensures t' == Backfilled(t, symbol, series, now, cfg)
  {
    hide LabelFor;
    var all := Backfilled(t, symbol, series, now, cfg);
    forall k | k in t ensures t'[k] == all[k] {
      var i := LastFor(updates, |updates|, k.time);
    }
  }

  class ForecastStore {
    var rows: Forecasts

    constructor ()
      ensures rows == map[]
    {
      rows := map[];
    }

    /** UPDATE ... WHERE time and symbol, entry by entry: the last entry of a row wins, one without a row changes nothing. */
    method UpdateRealizedVol(updates: seq<(Cell, int)>, symbol: string)
      modifies this
      ensures Applied(old(rows), rows, updates, |updates|, symbol)
    {
      hide Applied;
      NothingApplied(rows, updates, symbol);
      for n := 0 to |updates|
        invariant Applied(old(rows), rows, updates, n, symbol)
      {
        ghost var before := rows;
        var key := Key(symbol, updates[n].1);
        if key in rows {
          rows := rows[key := rows[key].(realized := updates[n].0)];
        }
        AppliedOneMore(old(rows), before, rows, updates, n, symbol);
      }
    }

    /** One run for a symbol, on the prices since a minute before the oldest due forecast. */
    method BackfillRealizedVol(symbol: string, series: seq<Price>, now: int, cfg: Config)
      requires InTimeOrder(series)
      modifies this
      ensures rows == Backfilled(old(rows), symbol, series, now, cfg)
    {
      hide LabelFor, Since, InTimeOrder;
      var missing := Ascending(DueTimes(rows, symbol, now, cfg.window));
      assert forall k :: k in rows && IsDue(rows, k, symbol, now, cfg.window) ==> k.time in missing;
      if |missing| == 0 {
        return;
      }
      var start := missing[0] - MINUTE;
      var prices := Since(series, start);
      forall ts | ts in missing ensures LabelFor(prices, ts, cfg) == LabelFor(series, ts, cfg) {
        LabelOnSuffix(series, start, ts, cfg);
      }
      if |prices| == 0 {
        NoPrices(cfg);
        return;
      }
      var updates := CollectUpdates(missing, prices, cfg);
      UpdateRealizedVol(updates, symbol);
      assert forall i :: 0 <= i < |updates| ==> updates[i] in updates;
      hide *;
      AppliedIsBackfilled(old(rows), rows, updates, symbol, series, now, cfg);
    }
  }

  lemma NoPrices(cfg: Config)
    ensures forall ts :: LabelFor([], ts, cfg) == Undefined
  {
  }
}
