/**
  Any interleaving of arriving prices, new forecasts and backfill runs. Prices
  may arrive late: historical candles are published while live ones come in, so
  a price takes its place in time order, and a price already there stays.
*/
module BackfillRuns {
  import opened Reals
  import opened Features
  import opened Labels
  import opened LatePrices
  import opened Backfill

  datatype Event =
    | PriceArrives(symbol: string, price: Price)
    | ForecastMade(key: Key, garch: Option<real>, xgb: Option<real>)
    | BackfillRun(symbol: string, now: int)

  datatype System = System(prices: map<string, seq<Price>>, rows: Forecasts)

  function Start(): System {
    System(map[], map[])
  }

  function SeriesOf(sys: System, symbol: string): seq<Price> {
    if symbol in sys.prices then sys.prices[symbol] else []
  }

  /** ON CONFLICT DO NOTHING, read back in time order. */
  function InsertPrice(series: seq<Price>, p: Price): seq<Price> {
    if |series| == 0 then [p]
    else if p.time < series[0].time then [p] + series
    else if p.time == series[0].time then series
    else [series[0]] + InsertPrice(series[1..], p)
  }

  /** Prices and forecasts are inserted once, forecasts with no realised volatility; runs backfill. */
  function Step(sys: System, e: Event, cfg: Config): System {
    match e
    case PriceArrives(s, p) => sys.(prices := sys.prices[s := InsertPrice(SeriesOf(sys, s), p)])
    case ForecastMade(k, g, x) =>
      if k in sys.rows then sys else sys.(rows := sys.rows[k := Forecast(g, x, Undefined)])
    case BackfillRun(s, now) => sys.(rows := Backfilled(sys.rows, s, SeriesOf(sys, s), now, cfg))
  }

  function Run(sys: System, events: seq<Event>, cfg: Config): System
    decreases |events|
  {
    if |events| == 0 then sys else Run(Step(sys, events[0], cfg), events[1..], cfg)
  }

  // ---------------------------------------------------------------- prices in their place

  /** How many prices are earlier than ts: where a price at ts belongs. */
  function Place(series: seq<Price>, ts: int): (k: nat)
    ensures k <= |series|
    ensures forall i :: 0 <= i < k ==> series[i].time < ts
    ensures k < |series| ==> series[k].time >= ts
  {
    if |series| == 0 || series[0].time >= ts then 0 else Place(series[1..], ts) + 1
  }

  lemma {:induction false} InsertNewPrice(series: seq<Price>, p: Price)
    requires forall i :: 0 <= i < |series| ==> series[i].time != p.time
    ensures InsertPrice(series, p) == series[..Place(series, p.time)] + [p] + series[Place(series, p.time)..]
  {
    if |series| != 0 && p.time > series[0].time {
      var rest := series[1..];
      InsertNewPrice(rest, p);
      var k := Place(rest, p.time);
      assert series[..k + 1] == [series[0]] + rest[..k] && series[k + 1..] == rest[k..];
    }
  }

  lemma {:induction false} InsertKnownPrice(series: seq<Price>, p: Price, i: nat)
    requires InTimeOrder(series) && i < |series| && series[i].time == p.time
    ensures InsertPrice(series, p) == series
  {
    if i > 0 {
      InsertKnownPrice(series[1..], p, i - 1);
    }
  }

  lemma InsertedInOrder(series: seq<Price>, k: nat, p: Price)
    requires InTimeOrder(series) && k <= |series|
    requires forall i :: 0 <= i < k ==> series[i].time < p.time
    requires forall i :: k <= i < |series| ==> series[i].time > p.time
    ensures InTimeOrder(series[..k] + [p] + series[k..])
  {
  }

  lemma InsertPriceIs(series: seq<Price>, p: Price)
    requires InTimeOrder(series)
    ensures InTimeOrder(InsertPrice(series, p))
    ensures InsertPrice(series, p) ==
      if Find(series, p.time) != -1 then series
      else series[..Place(series, p.time)] + [p] + series[Place(series, p.time)..]
  {
    var k, j := Place(series, p.time), Find(series, p.time);
    hide InsertPrice, Place, Find;
    if j != -1 {
      InsertKnownPrice(series, p, j);
    } else {
      InsertNewPrice(series, p);
      InsertedInOrder(series, k, p);
    }
  }

  /** Every price series is in time order, in whatever order prices arrive. */
  ghost predicate Ordered(sys: System) {
    forall s :: InTimeOrder(SeriesOf(sys, s))
  }

  lemma StepKeepsOrdered(sys: System, e: Event, cfg: Config)
    requires Ordered(sys)
    ensures Ordered(Step(sys, e, cfg))
  {
    hide InsertPrice, InTimeOrder;
    var sys' := Step(sys, e, cfg);
    forall s ensures InTimeOrder(SeriesOf(sys', s)) {
      assert InTimeOrder(SeriesOf(sys, s));
      if e.PriceArrives? {
        InsertPriceIs(SeriesOf(sys, s), e.price);
      }
    }
  }

  // ---------------------------------------------------------------- which arrivals change a label

  /**
    The arrival of p leaves the label at ts alone: the price is there already,
    or it falls at or before ts, or beyond the window, or inside it with the
    squares that enter equal to those that leave.
  */
  predicate Undisturbed(series: seq<Price>, p: Price, ts: int, cfg: Config) {
    var i, k := Find(series, ts), Place(series, p.time);
    || Find(series, p.time) != -1
    || k <= i
    || k > i + cfg.window
    || (0 <= i && i + cfg.window < |series| && SameSquares(Closes(series), k, p.close, cfg.window, cfg.ln, i))
  }

  lemma DefinedLabel(series: seq<Price>, ts: int, cfg: Config)
    requires !LabelFor(series, ts, cfg).Undefined?
    ensures var i := Find(series, ts); 0 <= i && i + cfg.window < |series|
    ensures LabelFor(series, ts, cfg) == LabelAt(Closes(series), cfg.window, cfg.ln, cfg.sqrt, Find(series, ts))
  {
  }

  lemma FindAfterInsertion(series: seq<Price>, p: Price, ts: int)
    requires InTimeOrder(series) && Find(series, ts) != -1 && Find(series, p.time) == -1
    ensures var i, k := Find(series, ts), Place(series, p.time);
      Find(InsertPrice(series, p), ts) == if k <= i then i + 1 else i
  {
    var i, k := Find(series, ts), Place(series, p.time);
    InsertPriceIs(series, p);
    var d := InsertPrice(series, p);
    hide InsertPrice, Place, Find, InTimeOrder;
    if k <= i {
      assert d[i + 1] == series[i];
      FindUnique(d, i + 1);
    } else {
      assert d[i] == series[i];
      FindUnique(d, i);
    }
  }

  lemma ClosesAfterInsertion(series: seq<Price>, p: Price)
    requires InTimeOrder(series) && Find(series, p.time) == -1
    ensures Closes(InsertPrice(series, p)) == InsertClose(Closes(series), Place(series, p.time), p.close)
  {
    InsertPriceIs(series, p);
    hide InsertPrice, Place, Find, InTimeOrder;
    ClosesOfSplit(series, Place(series, p.time), p);
  }

  lemma ClosesOfSplit(series: seq<Price>, k: nat, p: Price)
    requires k <= |series|
    ensures Closes(series[..k] + [p] + series[k..]) == InsertClose(Closes(series), k, p.close)
  {
  }

  /** The label at ts after the arrival of p is the one before it if and only if it is left alone. */
  lemma ArrivalKeepsLabelExactlyWhen(series: seq<Price>, p: Price, ts: int, cfg: Config)
    requires InTimeOrder(series) && IsSqrt(cfg.sqrt) && !LabelFor(series, ts, cfg).Undefined?
    ensures LabelFor(InsertPrice(series, p), ts, cfg) == LabelFor(series, ts, cfg)
       <==> Undisturbed(series, p, ts, cfg)
  {
    var i, k, close := Find(series, ts), Place(series, p.time), Closes(series);
    DefinedLabel(series, ts, cfg);
    if Find(series, p.time) != -1 {
      InsertPriceIs(series, p);
    } else {
      FindAfterInsertion(series, p, ts);
      ClosesAfterInsertion(series, p);
      hide Find, Place, InsertPrice, Closes, LabelAt, InsertClose, SameSquares, InTimeOrder, IsSqrt;
      if k <= i {
        InsertedBefore(close, k, p.close, cfg.window, cfg.ln, cfg.sqrt, i);
      } else if k > i + cfg.window {
        InsertedAfter(close, k, p.close, cfg.window, cfg.ln, cfg.sqrt, i);
      } else {
        InsertedInsideExactlyWhen(close, k, p.close, cfg.window, cfg.ln, cfg.sqrt, i);
      }
    }
  }

  // ---------------------------------------------------------------- whole runs

  predicate Written(sys: System, k: Key) {
    k in sys.rows && !sys.rows[k].realized.Undefined?
  }

  /** If the row has a realised volatility, it is the label on the prices so far. */
  ghost predicate SoundAt(sys: System, k: Key, cfg: Config) {
    Written(sys, k) ==> sys.rows[k].realized == LabelFor(SeriesOf(sys, k.symbol), k.time, cfg)
  }

  /** The event is no price that changes the label already written for k. */
  predicate Harmless(sys: System, e: Event, k: Key, cfg: Config) {
    e.PriceArrives? && e.symbol == k.symbol && Written(sys, k) ==>
      Undisturbed(SeriesOf(sys, k.symbol), e.price, k.time, cfg)
  }

  /** Written at most once: no event changes a realised volatility that is present, or removes its row. */
  lemma StepKeepsWritten(sys: System, e: Event, cfg: Config, k: Key)
    requires Written(sys, k)
    ensures Written(Step(sys, e, cfg), k) && Step(sys, e, cfg).rows[k] == sys.rows[k]
  {
    hide LabelFor;
  }

  lemma ArrivalStep(sys: System, s: string, p: Price, cfg: Config, k: Key)
    ensures var sys' := Step(sys, PriceArrives(s, p), cfg);
      && sys'.rows == sys.rows
      && SeriesOf(sys', k.symbol)
           == (if k.symbol == s then InsertPrice(SeriesOf(sys, k.symbol), p) else SeriesOf(sys, k.symbol))
  {
  }

  lemma OtherStep(sys: System, e: Event, cfg: Config, k: Key)
    requires !e.PriceArrives? && SoundAt(sys, k, cfg)
    ensures SoundAt(Step(sys, e, cfg), k, cfg)
  {
    hide LabelFor;
  }

  /** One event keeps the row sound if and only if it is harmless to it. */
  lemma StepKeepsSoundExactlyWhen(sys: System, e: Event, cfg: Config, k: Key)
    requires Ordered(sys) && SoundAt(sys, k, cfg) && IsSqrt(cfg.sqrt)
    ensures SoundAt(Step(sys, e, cfg), k, cfg) <==> Harmless(sys, e, k, cfg)
  {
    if e.PriceArrives? {
      var series := SeriesOf(sys, k.symbol);
      assert InTimeOrder(series);
      hide LabelFor, Undisturbed, InsertPrice, InTimeOrder, IsSqrt, Ordered;
      ArrivalStep(sys, e.symbol, e.price, cfg, k);
      hide SeriesOf, Step;
      if Written(sys, k) && e.symbol == k.symbol {
        ArrivalKeepsLabelExactlyWhen(series, e.price, k.time, cfg);
      }
    } else {
      OtherStep(sys, e, cfg, k);
    }
  }

  /** Sound after every event of the run. */
  ghost predicate AlwaysSound(sys: System, events: seq<Event>, k: Key, cfg: Config)
    decreases |events|
  {
    SoundAt(sys, k, cfg) && (|events| > 0 ==> AlwaysSound(Step(sys, events[0], cfg), events[1..], k, cfg))
  }

  /** No price of the run changes the label once it is written. */
  predicate NeverDisturbed(sys: System, events: seq<Event>, k: Key, cfg: Config)
    decreases |events|
  {
    |events| > 0 ==>
      Harmless(sys, events[0], k, cfg) && NeverDisturbed(Step(sys, events[0], cfg), events[1..], k, cfg)
  }

  /**
    Over any run, in whatever order prices arrive, a row agrees with the full
    series at every moment if and only if no price ever changes its label once
    it is written.
  */
  lemma {:induction false} AlwaysSoundExactlyWhen(sys: System, events: seq<Event>, k: Key, cfg: Config)
    requires Ordered(sys) && SoundAt(sys, k, cfg) && IsSqrt(cfg.sqrt)
    ensures AlwaysSound(sys, events, k, cfg) <==> NeverDisturbed(sys, events, k, cfg)
    decreases |events|
  {
    hide Step, Harmless, SoundAt, Ordered, IsSqrt;
    if |events| != 0 {
      var next := Step(sys, events[0], cfg);
      StepKeepsOrdered(sys, events[0], cfg);
      StepKeepsSoundExactlyWhen(sys, events[0], cfg, k);
      if SoundAt(next, k, cfg) {
        AlwaysSoundExactlyWhen(next, events[1..], k, cfg);
      }
    }
  }

  lemma {:induction false} RunKeepsWritten(sys: System, events: seq<Event>, k: Key, cfg: Config)
    requires Written(sys, k)
    ensures Written(Run(sys, events, cfg), k) && Run(sys, events, cfg).rows[k] == sys.rows[k]
    decreases |events|
  {
    hide Step;
    if |events| != 0 {
      StepKeepsWritten(sys, events[0], cfg, k);
      RunKeepsWritten(Step(sys, events[0], cfg), events[1..], k, cfg);
    }
  }

  lemma {:induction false} AlwaysSoundEnds(sys: System, events: seq<Event>, k: Key, cfg: Config)
    requires Ordered(sys) && AlwaysSound(sys, events, k, cfg)
    ensures Ordered(Run(sys, events, cfg)) && SoundAt(Run(sys, events, cfg), k, cfg)
    decreases |events|
  {
    hide Step, SoundAt, Ordered;
    if |events| != 0 {
      StepKeepsOrdered(sys, events[0], cfg);
      AlwaysSoundEnds(Step(sys, events[0], cfg), events[1..], k, cfg);
    }
  }

  /** The window later prices that the label at time ts needs are there. */
  ghost predicate WindowComplete(series: seq<Price>, ts: int, window: nat) {
    exists i :: 0 <= i && i + window < |series| && series[i].time == ts
  }

  lemma DefinedLabelNeedsWindow(series: seq<Price>, ts: int, cfg: Config)
    requires !LabelFor(series, ts, cfg).Undefined?
    ensures WindowComplete(series, ts, cfg.window)
  {
    DefinedLabel(series, ts, cfg);
    var i := Find(series, ts);
    assert series[i].time == ts;
  }

  /**
    Backfilled labels are final and equal full-history labels. Take any run and
    any continuation in which no price changes the label of this row once it is
    written: a realised volatility present after the run had all its forward
    prices by then, is unchanged after the continuation, and equals the label
    computed on the complete price series at the end. Late prices are allowed.
  */
  lemma BackfilledLabelsAreFinal(past: seq<Event>, future: seq<Event>, cfg: Config, k: Key)
    requires IsSqrt(cfg.sqrt) && Written(Run(Start(), past, cfg), k)
    requires NeverDisturbed(Start(), past, k, cfg) && NeverDisturbed(Run(Start(), past, cfg), future, k, cfg)
    ensures var then', end := Run(Start(), past, cfg), Run(Run(Start(), past, cfg), future, cfg);
      && WindowComplete(SeriesOf(then', k.symbol), k.time, cfg.window)
      && Written(end, k)
      && end.rows[k].realized == then'.rows[k].realized == LabelFor(SeriesOf(end, k.symbol), k.time, cfg)
  {
    hide LabelFor, Run, NeverDisturbed, AlwaysSound, IsSqrt;
    AlwaysSoundExactlyWhen(Start(), past, k, cfg);
    AlwaysSoundEnds(Start(), past, k, cfg);
    var then' := Run(Start(), past, cfg);
    DefinedLabelNeedsWindow(SeriesOf(then', k.symbol), k.time, cfg);
    AlwaysSoundExactlyWhen(then', future, k, cfg);
    AlwaysSoundEnds(then', future, k, cfg);
    RunKeepsWritten(then', future, k, cfg);
  }

  lemma {:induction false} RunAppend(sys: System, a: seq<Event>, b: seq<Event>, cfg: Config)
    ensures Run(sys, a + b, cfg) == Run(Run(sys, a, cfg), b, cfg)
    decreases |a|
  {
    if |a| == 0 {
      assert a + b == b;
    } else {
      assert (a + b)[0] == a[0] && (a + b)[1..] == a[1..] + b;
      RunAppend(Step(sys, a[0], cfg), a[1..], b, cfg);
    }
  }

  /** A run fills exactly the rows that were filled before or are due with a defined label. */
  lemma RunFillsExactly(sys: System, symbol: string, now: int, cfg: Config, k: Key)
    requires k in sys.rows
    ensures var sys' := Step(sys, BackfillRun(symbol, now), cfg);
      Written(sys', k) <==>
      || Written(sys, k)
      || (k.symbol == symbol && k.time <= now - cfg.window * MINUTE
          && !LabelFor(SeriesOf(sys, symbol), k.time, cfg).Undefined?)
  {
    hide LabelFor;
  }

  /**
    Nothing due is missed. In any history that contains a run for the symbol,
    every forecast that was there, at least the forward window old, with a label
    the prices of that moment define, has a realised volatility at the end.
  */
  lemma EverythingDueIsFilled(past: seq<Event>, symbol: string, now: int, future: seq<Event>, cfg: Config, k: Key)
    requires var then' := Run(Start(), past, cfg);
      && k in then'.rows && k.symbol == symbol && k.time <= now - cfg.window * MINUTE
      && !LabelFor(SeriesOf(then', symbol), k.time, cfg).Undefined?
    ensures Written(Run(Start(), past + [BackfillRun(symbol, now)] + future, cfg), k)
  {
    hide LabelFor, Written, Step;
    var then', run := Run(Start(), past, cfg), BackfillRun(symbol, now);
    RunAppend(Start(), past + [run], future, cfg);
    RunAppend(Start(), past, [run], cfg);
    assert Run(then', [run], cfg) == Run(Step(then', run, cfg), [], cfg) == Step(then', run, cfg);
    RunFillsExactly(then', symbol, now, cfg, k);
    RunKeepsWritten(Step(then', run, cfg), future, k, cfg);
  }

  // ---------------------------------------------------------------- prices in time order

  /** A price arrives later than every price of its symbol so far. */
  predicate Arrives(sys: System, e: Event) {
    e.PriceArrives? ==>
      forall i :: 0 <= i < |SeriesOf(sys, e.symbol)| ==> SeriesOf(sys, e.symbol)[i].time < e.price.time
  }

  predicate ArriveInOrder(sys: System, events: seq<Event>, cfg: Config)
    decreases |events|
  {
    |events| > 0 ==> Arrives(sys, events[0]) && ArriveInOrder(Step(sys, events[0], cfg), events[1..], cfg)
  }

  lemma InOrderIsHarmless(sys: System, e: Event, k: Key, cfg: Config)
    requires Arrives(sys, e) && SoundAt(sys, k, cfg)
    ensures Harmless(sys, e, k, cfg)
  {
    if e.PriceArrives? && e.symbol == k.symbol && Written(sys, k) {
      var series := SeriesOf(sys, k.symbol);
      DefinedLabel(series, k.time, cfg);
      hide LabelFor;
      var place := Place(series, e.price.time);
    }
  }

  /** In particular prices in time order never disturb a label: the whole window is in the past. */
  lemma {:induction false} InOrderNeverDisturbs(sys: System, events: seq<Event>, k: Key, cfg: Config)
    requires ArriveInOrder(sys, events, cfg) && Ordered(sys) && SoundAt(sys, k, cfg) && IsSqrt(cfg.sqrt)
    ensures NeverDisturbed(sys, events, k, cfg)
    decreases |events|
  {
    hide Step, Harmless, SoundAt, Ordered, IsSqrt, Arrives;
    if |events| != 0 {
      InOrderIsHarmless(sys, events[0], k, cfg);
      StepKeepsOrdered(sys, events[0], cfg);
      StepKeepsSoundExactlyWhen(sys, events[0], cfg, k);
      InOrderNeverDisturbs(Step(sys, events[0], cfg), events[1..], k, cfg);
    }
  }

  // ---------------------------------------------------------------- a run with a late price

  function Arrivals(symbol: string, series: seq<Price>): (events: seq<Event>)
    ensures |events| == |series|
  {
    seq(|series|, i requires 0 <= i < |series| => PriceArrives(symbol, series[i]))
  }

  lemma {:induction false} InsertLatest(series: seq<Price>, p: Price)
    requires forall i :: 0 <= i < |series| ==> series[i].time < p.time
    ensures InsertPrice(series, p) == series + [p]
  {
    if |series| != 0 {
      InsertLatest(series[1..], p);
    }
  }

  lemma {:induction false} ArrivalsInOrder(sys: System, symbol: string, done: seq<Price>, rest: seq<Price>, cfg: Config)
    requires InTimeOrder(done + rest) && SeriesOf(sys, symbol) == done
    ensures var sys' := Run(sys, Arrivals(symbol, rest), cfg);
      SeriesOf(sys', symbol) == done + rest && sys'.rows == sys.rows
    decreases |rest|
  {
    if |rest| == 0 {
      assert done + rest == done;
    } else {
      assert (done + rest)[|done|] == rest[0];
      assert forall i :: 0 <= i < |done| ==> (done + rest)[i] == done[i];
      InsertLatest(done, rest[0]);
      assert done + [rest[0]] + rest[1..] == done + rest;
      assert Arrivals(symbol, rest)[1..] == Arrivals(symbol, rest[1..]);
      ArrivalsInOrder(Step(sys, PriceArrives(symbol, rest[0]), cfg), symbol, done + [rest[0]], rest[1..], cfg);
    }
  }

  const BTC := "BTCUSDT"

  /** Minute 5 is missing, so the price of minute 6 completes the window of minute 0. */
  function OnTime(): seq<Price> {
    [Price(0, 1.0), Price(60, 1.0), Price(120, 1.0), Price(180, 1.0), Price(240, 1.0), Price(360, 2.0)]
  }

  /** The prices, a forecast for minute 0, a backfill that writes its label, and then the price of minute 5. */
  function LateRun(): seq<Event> {
    Arrivals(BTC, OnTime())
    + [ForecastMade(Key(BTC, 0), None, None), BackfillRun(BTC, 400), PriceArrives(BTC, Price(300, 1.0))]
  }

  lemma OnTimeSquares(cfg: Config, r: real)
    requires cfg.ln(1.0) == 0.0 && r == cfg.ln(2.0) * cfg.ln(2.0)
    ensures var s := Squared(Closes(OnTime()), cfg.ln);
      s[1..6] == [Finite(0.0), Finite(0.0), Finite(0.0), Finite(0.0), Finite(r)]
  {
    hide SquaredLog, Squared;
    var c := Closes(OnTime());
    assert c == [1.0, 1.0, 1.0, 1.0, 1.0, 2.0];
    hide *;
    UnitSquares(cfg.ln, r);
    SquaredAtIs(c, cfg.ln, 1);
    SquaredAtIs(c, cfg.ln, 2);
    SquaredAtIs(c, cfg.ln, 3);
    SquaredAtIs(c, cfg.ln, 4);
    SquaredAtIs(c, cfg.ln, 5);
    var s := Squared(c, cfg.ln);
    assert s[1..6] == [s[1], s[2], s[3], s[4], s[5]];
  }

  /** The label is there before the late price, and the late price disturbs it. */
  lemma LatePriceDisturbs(cfg: Config)
    requires cfg.window == 5 && IsLog(cfg.ln) && cfg.ln(2.0) > 0.0
    ensures !LabelFor(OnTime(), 0, cfg).Undefined? && InTimeOrder(OnTime())
    ensures !Undisturbed(OnTime(), Price(300, 1.0), 0, cfg)
  {
    var series, close := OnTime(), Closes(OnTime());
    hide IsLog;
    LogOfOne(cfg.ln);
    OnTimePlaces();
    var s, r := Squared(close, cfg.ln), cfg.ln(2.0) * cfg.ln(2.0);
    OnTimeSquares(cfg, r);
    PositiveProductIs(cfg.ln(2.0), cfg.ln(2.0), r);
    hide Find, Place, Squared, IsLog, InTimeOrder, LabelAt, SameSquares, OnTime;
    OnTimeLabel(cfg, close, s, r);
    LateSquares(cfg, close, s, r);
  }

  lemma OnTimePlaces()
    ensures InTimeOrder(OnTime()) && Find(OnTime(), 0) == 0 && Find(OnTime(), 300) == -1
    ensures Place(OnTime(), 300) == 5 && |OnTime()| == 6
  {
    var series := OnTime();
    assert forall i :: 0 <= i < |series| ==> series[i].time != 300;
    var k := Place(series, 300);
    assert k == 5;
  }

  lemma OnTimeLabel(cfg: Config, close: seq<real>, s: Column, r: real)
    requires close == Closes(OnTime()) && s == Squared(close, cfg.ln)
    requires s[1..6] == [Finite(0.0), Finite(0.0), Finite(0.0), Finite(0.0), Finite(r)]
    ensures LabelAt(close, 5, cfg.ln, cfg.sqrt, 0).Finite?
  {
    hide Squared, LabelAt, SumCells;
    assert |close| == 6;
    LabelIsRoot(close, 5, cfg.ln, cfg.sqrt, 0);
    SumOfFinite(s[1..6]);
    assert AllFinite(s[1..6]);
    assert ForwardSum(close, 5, cfg.ln, 0).Finite?;
    assert Root(ForwardSum(close, 5, cfg.ln, 0), cfg.sqrt).Finite?;
  }

  lemma LateSquares(cfg: Config, close: seq<real>, s: Column, r: real)
    requires cfg.ln(1.0) == 0.0 && r > 0.0 && r == cfg.ln(2.0) * cfg.ln(2.0)
    requires close == Closes(OnTime()) && s == Squared(close, cfg.ln)
    requires s[1..6] == [Finite(0.0), Finite(0.0), Finite(0.0), Finite(0.0), Finite(r)]
    ensures !SameSquares(close, 5, 1.0, 5, cfg.ln, 0)
  {
    hide SquaredLog, Squared, SumCells, Kept;
    assert close == [1.0, 1.0, 1.0, 1.0, 1.0, 2.0];
    UnitSquares(cfg.ln, r);
    LateKept(close, cfg.ln, s, r);
    hide OnTime;
    assert Gained(close, 5, 1.0, 5, cfg.ln, 0) == SquaredLog(1.0, 1.0, cfg.ln);
    assert Lost(close, 5, 5, cfg.ln, 0) == SquaredLog(2.0, 1.0, cfg.ln);
  }

  lemma LateKept(close: seq<real>, ln: real -> real, s: Column, r: real)
    requires |close| == 6 && s == Squared(close, ln)
    requires s[1..6] == [Finite(0.0), Finite(0.0), Finite(0.0), Finite(0.0), Finite(r)]
    ensures SumCells(Kept(close, 5, 5, ln, 0)).Finite?
  {
    hide Squared, SumCells;
    var kept := Kept(close, 5, 5, ln, 0);
    assert kept == s[1..5] + [] == s[1..6][..4];
    SumOfFinite(kept);
  }

  lemma UnitSquares(ln: real -> real, r: real)
    requires ln(1.0) == 0.0 && r == ln(2.0) * ln(2.0)
    ensures SquaredLog(1.0, 1.0, ln) == Finite(0.0)
    ensures SquaredLog(2.0, 1.0, ln) == Finite(r)
  {
    hide *;
    SquaredLogIs(1.0, 1.0, 1.0, ln(1.0), 0.0, ln);
    SquaredLogIs(2.0, 1.0, 2.0, ln(2.0), r, ln);
  }

  lemma SquaredLogIs(a: real, b: real, q: real, r: real, r2: real, ln: real -> real)
    requires b != 0.0 && a == q * b && q > 0.0 && r == ln(q) && r2 == r * r
    ensures SquaredLog(a, b, ln) == Finite(r2)
  {
    assert a / b == q;
  }

  /**
    A late price can make a written label wrong. With the code's window of 5
    minutes and any logarithm, this run ends with a row whose realised
    volatility is not the label of its price series.
  */
  lemma LateArrivalBreaksFinality(cfg: Config)
    requires cfg.window == 5 && IsLog(cfg.ln) && cfg.ln(2.0) > 0.0 && IsSqrt(cfg.sqrt)
    ensures var end := Run(Start(), LateRun(), cfg);
      Written(end, Key(BTC, 0)) && !SoundAt(end, Key(BTC, 0), cfg)
  {
    var s1 := LateRunStart(cfg);
    LatePriceDisturbs(cfg);
    hide *;
    var s3 := LateRunMiddle(s1, cfg);
    LateRunEnd(s3, cfg);
  }

  lemma LateRunStart(cfg: Config) returns (s1: System)
    ensures SeriesOf(s1, BTC) == OnTime() && s1.rows == map[]
    ensures Run(Start(), LateRun(), cfg) == Run(s1, LateRun()[6..], cfg)
  {
    OnTimePlaces();
    s1 := Run(Start(), Arrivals(BTC, OnTime()), cfg);
    hide Run, Find, Place, InTimeOrder;
    assert LateRun() == Arrivals(BTC, OnTime()) + LateRun()[6..];
    RunAppend(Start(), Arrivals(BTC, OnTime()), LateRun()[6..], cfg);
    hide OnTime, LateRun;
    assert [] + OnTime() == OnTime();
    ArrivalsInOrder(Start(), BTC, [], OnTime(), cfg);
  }

  lemma LateRunEnd(s3: System, cfg: Config)
    requires SeriesOf(s3, BTC) == OnTime() && Key(BTC, 0) in s3.rows && IsSqrt(cfg.sqrt)
    requires s3.rows[Key(BTC, 0)].realized == LabelFor(OnTime(), 0, cfg)
    requires !LabelFor(OnTime(), 0, cfg).Undefined? && InTimeOrder(OnTime())
    requires !Undisturbed(OnTime(), Price(300, 1.0), 0, cfg)
    ensures var end := Step(s3, PriceArrives(BTC, Price(300, 1.0)), cfg);
      Written(end, Key(BTC, 0)) && !SoundAt(end, Key(BTC, 0), cfg)
  {
    hide LabelFor, OnTime, IsSqrt, Undisturbed, InsertPrice, InTimeOrder;
    ArrivalStep(s3, BTC, Price(300, 1.0), cfg, Key(BTC, 0));
    hide Step, SeriesOf;
    ArrivalKeepsLabelExactlyWhen(OnTime(), Price(300, 1.0), 0, cfg);
  }

  /** The forecast and the backfill write the label of the prices on time. */
  lemma LateRunMiddle(s1: System, cfg: Config) returns (s3: System)
    requires SeriesOf(s1, BTC) == OnTime() && s1.rows == map[] && cfg.window == 5
    requires !LabelFor(OnTime(), 0, cfg).Undefined?
    ensures SeriesOf(s3, BTC) == OnTime() && Key(BTC, 0) in s3.rows
    ensures s3.rows[Key(BTC, 0)].realized == LabelFor(OnTime(), 0, cfg)
    ensures Run(s1, LateRun()[6..], cfg) == Step(s3, PriceArrives(BTC, Price(300, 1.0)), cfg)
  {
    var forecast, backfill, late := ForecastMade(Key(BTC, 0), None, None), BackfillRun(BTC, 400),
                                    PriceArrives(BTC, Price(300, 1.0));
    var events := LateRun()[6..];
    assert events == [forecast, backfill, late];
    hide LabelFor, OnTime, InsertPrice;
    var s2 := Step(s1, forecast, cfg);
    s3 := Step(s2, backfill, cfg);
    assert events[1..] == [backfill, late] && events[1..][1..] == [late] && [late][1..] == [];
    assert Run(s1, events, cfg) == Run(s2, [backfill, late], cfg) == Run(s3, [late], cfg)
        == Run(Step(s3, late, cfg), [], cfg);
  }
}
