/**
  The rebalance ledger: profit and loss over the union of symbol maps, the fee
  on the L1 turnover, the clamp at zero, and the upsert keyed by the minute.
*/
module Ledger {
  import opened Reals
  import opened FiniteSums

  type Weights = map<string, real>

  // ---------------------------------------------------------------- profit and loss

  /** dict.get(symbol, 0.0) */
  function Get(w: Weights, s: string): real {
    if s in w then w[s] else 0.0
  }

  datatype Pnl = Pnl(gross: real, net: real, turnover: real, fee: real,
                     equity: real, periodPnl: real, cumulativePnl: real)

  function Entry(w: Weights): string -> real {
    (s: string) => Get(w, s)
  }

  function Contribution(w: Weights, rets: Weights): string -> real {
    (s: string) => Get(w, s) * Get(rets, s)
  }

  function Change(w: Weights, w': Weights): string -> real {
    (s: string) => Abs(Get(w', s) - Get(w, s))
  }

  /** An empty map of new weights means: keep the previous ones. */
  function NewOrPrevious(prev: Weights, new': Weights): Weights {
    if |new'| == 0 then prev else new'
  }

  function Universe(prev: Weights, rets: Weights, new': Weights): set<string> {
    prev.Keys + rets.Keys + NewOrPrevious(prev, new').Keys
  }

  /** Everything after the two sums. */
  function Settle(gross: real, l1: real, prevEquity: real, feeRate: real, prevCumulative: real, half: bool): Pnl {
    var turnover := if half then 0.5 * l1 else l1;
    var fee := feeRate * turnover;
    var net := gross - fee;
    var equity := prevEquity * (1.0 + net);
    Pnl(gross, net, turnover, fee, equity, equity - prevEquity, prevCumulative + (equity - prevEquity))
  }

  ghost function Gross(prev: Weights, rets: Weights, new': Weights): real {
    SumOver(Contribution(prev, rets), Universe(prev, rets, new'))
  }

  ghost function L1Turnover(prev: Weights, rets: Weights, new': Weights): real {
    SumOver(Change(prev, NewOrPrevious(prev, new')), Universe(prev, rets, new'))
  }

  ghost function PnlOf(prev: Weights, rets: Weights, prevEquity: real, new': Weights, feeRate: real,
                       prevCumulative: real, half: bool): Pnl {
    Settle(Gross(prev, rets, new'), L1Turnover(prev, rets, new'), prevEquity, feeRate, prevCumulative, half)
  }

  /** The sums of the code, over the symbols in whatever order the set yields them. */
  method ComputePortfolioPnl(prev: Weights, rets: Weights, prevEquity: real, new': Weights, feeRate: real,
                             prevCumulative: real, half: bool)
    returns (p: Pnl)
    ensures p == PnlOf(prev, rets, prevEquity, new', feeRate, prevCumulative, half)
  {
    hide Contribution, Change, Settle, Universe;
    var next := NewOrPrevious(prev, new');
    var symbols := Universe(prev, rets, new');
    var gross, l1, rest := 0.0, 0.0, symbols;
    while rest != {}
      invariant rest <= symbols
      invariant gross + SumOver(Contribution(prev, rets), rest) == SumOver(Contribution(prev, rets), symbols)
      invariant l1 + SumOver(Change(prev, next), rest) == SumOver(Change(prev, next), symbols)
      decreases rest
    {
      var s :| s in rest;
      SumOverPick(Contribution(prev, rets), rest, s);
      SumOverPick(Change(prev, next), rest, s);
      gross := gross + Contribution(prev, rets)(s);
      l1 := l1 + Change(prev, next)(s);
      rest := rest - {s};
    }
    p := Settle(gross, l1, prevEquity, feeRate, prevCumulative, half);
  }

  /** The simple return of each symbol; 0 if a price is missing or the first is not positive. */
  function PeriodReturn(from: Weights, to: Weights, s: string): real {
    if s in from && s in to && from[s] > 0.0 then to[s] / from[s] - 1.0 else 0.0
  }

  /** Both prices are there and the first is positive. */
  predicate IsPriced(from: Weights, to: Weights, s: string) {
    s in from && s in to && from[s] > 0.0
  }

  /** The returns lead from the first prices to the second; a symbol without both has none. */
  ghost predicate LeadFromTo(rets: Weights, from: Weights, to: Weights) {
    forall s :: s in rets ==>
      if IsPriced(from, to, s) then from[s] * (1.0 + rets[s]) == to[s] else rets[s] == 0.0
  }

  lemma PricedReturn(from: Weights, to: Weights, s: string)
    ensures if IsPriced(from, to, s) then from[s] * (1.0 + PeriodReturn(from, to, s)) == to[s]
      else PeriodReturn(from, to, s) == 0.0
  {
    if IsPriced(from, to, s) {
      var q := Quotient(to[s], from[s]);
      assert PeriodReturn(from, to, s) == q - 1.0;
    }
  }

  lemma PeriodReturnsLead(rets: Weights, from: Weights, to: Weights)
    requires forall s :: s in rets ==> rets[s] == PeriodReturn(from, to, s)
    ensures LeadFromTo(rets, from, to)
  {
    hide PeriodReturn;
    forall s | s in rets
      ensures if IsPriced(from, to, s) then from[s] * (1.0 + rets[s]) == to[s] else rets[s] == 0.0
    {
      PricedReturn(from, to, s);
    }
  }

  method ComputePeriodAssetReturns(symbols: seq<string>, from: Weights, to: Weights) returns (rets: Weights)
    ensures rets.Keys == set s | s in symbols
    ensures forall s :: s in rets ==>
      if IsPriced(from, to, s) then from[s] * (1.0 + rets[s]) == to[s] else rets[s] == 0.0
    ensures forall s :: s in rets ==> rets[s] == PeriodReturn(from, to, s)
  {
    hide PeriodReturn;
    rets := map[];
    for i := 0 to |symbols|
      invariant rets.Keys == set s | s in symbols[..i]
      invariant forall s :: s in rets ==> rets[s] == PeriodReturn(from, to, s)
    {
      rets := rets[symbols[i] := PeriodReturn(from, to, symbols[i])];
      assert symbols[..i + 1] == symbols[..i] + [symbols[i]];
    }
    assert symbols[..|symbols|] == symbols;
    PeriodReturnsLead(rets, from, to);
  }

  // ---------------------------------------------------------------- the table

  datatype Row = Row(weights: Weights, vol: real, sharpe: real, equity: real, fee: real, turnover: real,
                     periodPnl: real, cumulativePnl: real)

  /** portfolio_state, keyed by time in minutes. */
  type Table = map<int, Row>

  lemma {:induction false} MaxExists(s: set<int>)
    requires s != {}
    ensures exists k :: k in s && forall u :: u in s ==> u <= k
    decreases |s|
  {
    var x := SomeElement(s);
    var rest := s - {x};
    if rest == {} {
      assert s == {x};
    } else {
      MaxExists(rest);
      var k :| k in rest && forall u :: u in rest ==> u <= k;
      var m := if x > k then x else k;
      assert m in s;
      forall u | u in s ensures u <= m {
        assert u == x || u in rest;
      }
    }
  }

  /** ORDER BY time DESC LIMIT 1 */
  function LatestTime(t: Table): (k: int)
    requires t != map[]
    ensures k in t && forall u :: u in t ==> u <= k
  {
    assert t.Keys != {};
    MaxExists(t.Keys);
    var k :| k in t.Keys && forall u :: u in t.Keys ==> u <= k;
    k
  }

  /** What a run of the engine decided before it touches the ledger. */
  datatype Rebalance = Rebalance(now: int, symbols: set<string>, weights: Weights, vol: real, sharpe: real,
                                 rets: Weights, feeRate: real)

  function EqualSplit(symbols: set<string>): Weights {
    map s | s in symbols :: 1.0 / |symbols| as real
  }

  function PrevWeights(t: Table, r: Rebalance): Weights {
    if t == map[] then EqualSplit(r.symbols) else t[LatestTime(t)].weights
  }

  function PrevEquity(t: Table): real {
    if t == map[] then 1.0 else t[LatestTime(t)].equity
  }

  function PrevCumulative(t: Table): real {
    if t == map[] then 0.0 else t[LatestTime(t)].cumulativePnl
  }

  ghost function RunPnl(t: Table, r: Rebalance): Pnl {
    PnlOf(PrevWeights(t, r), r.rets, PrevEquity(t), r.weights, r.feeRate, PrevCumulative(t), false)
  }

  ghost function NewRow(t: Table, r: Rebalance): Row {
    var pnl := RunPnl(t, r);
    var equity := Max(0.0, pnl.equity);
    Row(r.weights, r.vol, r.sharpe, equity, pnl.fee, pnl.turnover,
        equity - PrevEquity(t), PrevCumulative(t) + (equity - PrevEquity(t)))
  }

  /** INSERT ... ON CONFLICT (time) DO UPDATE */
  ghost function Rebalanced(t: Table, r: Rebalance): Table {
    t[r.now := NewRow(t, r)]
  }

  ghost function RunAll(t: Table, rs: seq<Rebalance>): Table
    decreases |rs|
  {
    if |rs| == 0 then t else RunAll(Rebalanced(t, rs[0]), rs[1..])
  }

  /** The ledger part of a rebalance, reading the latest row and upserting the new one. */
  class Engine {
    var rows: Table

    constructor ()
      ensures rows == map[]
    {
      rows := map[];
    }

    method RunRebalance(r: Rebalance)
      modifies this
      ensures rows == Rebalanced(old(rows), r)
    {
      hide PnlOf, Settle, EqualSplit, LatestTime;
      var prevWeights, prevEquity, prevCumulative := PrevWeights(rows, r), PrevEquity(rows), PrevCumulative(rows);
      var pnl := ComputePortfolioPnl(prevWeights, r.rets, prevEquity, r.weights, r.feeRate, prevCumulative, false);
      var equity := Max(0.0, pnl.equity);
      var periodPnl := equity - prevEquity;
      var cumulativePnl := prevCumulative + periodPnl;
      rows := rows[r.now := Row(r.weights, r.vol, r.sharpe, equity, pnl.fee, pnl.turnover, periodPnl, cumulativePnl)];
    }
  }
}
