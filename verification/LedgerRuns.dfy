/**
  What holds over whole runs of the rebalance engine, for any clock: also when
  a run repeats within a minute or the clock goes backwards.
*/
module LedgerRuns {
  import opened Reals
  import opened FiniteSums
  import opened Ledger

  // ---------------------------------------------------------------- every row, any clock

  /** Every row has non-negative equity and cumulative P&L equal to equity - 1. */
  ghost predicate LedgerInvariant(t: Table) {
    forall k :: k in t ==> t[k].equity >= 0.0 && t[k].cumulativePnl == t[k].equity - 1.0
  }

  lemma RebalanceKeepsInvariant(t: Table, r: Rebalance)
    requires LedgerInvariant(t)
    ensures LedgerInvariant(Rebalanced(t, r))
  {
    hide RunPnl;
    assert PrevCumulative(t) == PrevEquity(t) - 1.0;
  }

  /** The ledger invariant holds in every reachable table, whatever the run times. */
  lemma {:induction false} EveryReachableTableIsConsistent(t: Table, rs: seq<Rebalance>)
    requires LedgerInvariant(t)
    ensures LedgerInvariant(RunAll(t, rs))
    decreases |rs|
  {
    hide Rebalanced, LedgerInvariant;
    if |rs| != 0 {
      RebalanceKeepsInvariant(t, rs[0]);
      EveryReachableTableIsConsistent(Rebalanced(t, rs[0]), rs[1..]);
    }
  }

  // ---------------------------------------------------------------- period P&L against cumulative P&L

  ghost function PnlAt(t: Table): int -> real {
    k => if k in t then t[k].periodPnl else 0.0
  }

  ghost function SumPnl(t: Table): real {
    SumOver(PnlAt(t), t.Keys)
  }

  function OldPnl(t: Table, k: int): real {
    if k in t then t[k].periodPnl else 0.0
  }

  lemma UpsertSum(t: Table, k: int, row: Row)
    ensures SumPnl(t[k := row]) == SumPnl(t) - OldPnl(t, k) + row.periodPnl
  {
    var t' := t[k := row];
    var others := t.Keys - {k};
    assert t'.Keys - {k} == others;
    SumOverPick(PnlAt(t'), t'.Keys, k);
    SumOverCongruence(PnlAt(t'), PnlAt(t), others);
    if k in t {
      SumOverPick(PnlAt(t), t.Keys, k);
    } else {
      assert others == t.Keys;
    }
  }

  /** The stored period P&L values add up to the latest cumulative P&L. */
  ghost predicate Balanced(t: Table) {
    SumPnl(t) == PrevCumulative(t)
  }

  lemma LatestAfterUpsert(t: Table, k: int, row: Row)
    ensures var t' := t[k := row];
      k in t' && t' != map[] &&
      LatestTime(t') == if t == map[] || k >= LatestTime(t) then k else LatestTime(t)
  {
    var t' := t[k := row];
    assert k in t';
    if t != map[] {
      assert LatestTime(t) in t';
    }
  }

  /**
    One run keeps the balance if and only if it is the first, or it is later
    than every row, or it repeats the latest minute over a row with P&L 0, or
    it lands before the latest row and stores the very P&L it overwrites.
  */
  lemma BalanceKeptExactlyWhen(t: Table, r: Rebalance)
    requires Balanced(t)
    ensures Balanced(Rebalanced(t, r)) <==>
      || t == map[]
      || r.now > LatestTime(t)
      || (r.now == LatestTime(t) && OldPnl(t, r.now) == 0.0)
      || (r.now < LatestTime(t) && OldPnl(t, r.now) == NewRow(t, r).periodPnl)
  {
    hide SumPnl, NewRow;
    UpsertSum(t, r.now, NewRow(t, r));
    LatestAfterUpsert(t, r.now, NewRow(t, r));
    RowCumulative(t, r);
  }

  lemma RowCumulative(t: Table, r: Rebalance)
    ensures NewRow(t, r).cumulativePnl == PrevCumulative(t) + NewRow(t, r).periodPnl
  {
    hide RunPnl;
  }

  /** Run times that never go back, starting no earlier than the rows of t. */
  ghost predicate Forward(t: Table, rs: seq<Rebalance>) {
    && (forall i, j :: 0 <= i < j < |rs| ==> rs[i].now <= rs[j].now)
    && (forall k, i :: k in t && 0 <= i < |rs| ==> k <= rs[i].now)
  }

  ghost predicate StrictlyForward(t: Table, rs: seq<Rebalance>) {
    && (forall i, j :: 0 <= i < j < |rs| ==> rs[i].now < rs[j].now)
    && (forall k, i :: k in t && 0 <= i < |rs| ==> k < rs[i].now)
  }

  lemma ForwardTail(t: Table, rs: seq<Rebalance>)
    requires |rs| > 0
    ensures Forward(t, rs) ==> Forward(Rebalanced(t, rs[0]), rs[1..])
    ensures StrictlyForward(t, rs) ==> StrictlyForward(Rebalanced(t, rs[0]), rs[1..])
  {
    hide NewRow;
  }

  /** With strictly increasing run times the stored P&L values always add up. */
  lemma {:induction false} PeriodPnlSumsToCumulative(t: Table, rs: seq<Rebalance>)
    requires StrictlyForward(t, rs) && Balanced(t)
    ensures Balanced(RunAll(t, rs))
    decreases |rs|
  {
    hide Rebalanced, Balanced;
    if |rs| != 0 {
      BalanceKeptExactlyWhen(t, rs[0]);
      ForwardTail(t, rs);
      PeriodPnlSumsToCumulative(Rebalanced(t, rs[0]), rs[1..]);
    }
  }

  lemma EmptyTableIsBalanced()
    ensures LedgerInvariant(map[]) && Balanced(map[])
  {
  }

  /** A run at minute 0 that holds one symbol, whose price has doubled, without fee. */
  function DoublingRun(): Rebalance {
    Rebalance(0, {"BTCUSDT"}, map["BTCUSDT" := 1.0], 0.0, 0.0, map["BTCUSDT" := 1.0], 0.0)
  }

  lemma DoublingPnl(prev: Weights)
    requires prev == map["BTCUSDT" := 1.0]
    ensures var r := DoublingRun();
      Gross(prev, r.rets, r.weights) == 1.0 && L1Turnover(prev, r.rets, r.weights) == 0.0
  {
    var r := DoublingRun();
    var u := Universe(prev, r.rets, r.weights);
    assert u == {"BTCUSDT"};
    SumOverPick(Contribution(prev, r.rets), u, "BTCUSDT");
    SumOverPick(Change(prev, NewOrPrevious(prev, r.weights)), u, "BTCUSDT");
    assert u - {"BTCUSDT"} == {};
  }

  lemma DoublingRow()
    ensures NewRow(map[], DoublingRun()).periodPnl == 1.0
  {
    var r := DoublingRun();
    var prev := PrevWeights(map[], r);
    assert prev == map["BTCUSDT" := 1.0] by {
      assert EqualSplit({"BTCUSDT"})["BTCUSDT"] == 1.0 / 1 as real;
    }
    DoublingPnl(prev);
    hide Gross, L1Turnover, PrevWeights;
  }

  /**
    A concrete run of the engine whose period P&L stops adding up: two runs in
    the same minute. The first leaves a balanced table, the second overwrites
    its P&L of 1 but not its place in the cumulative P&L.
  */
  lemma RepeatedMinuteUnbalances()
    ensures var r := DoublingRun();
      Balanced(RunAll(map[], [r])) && !Balanced(RunAll(map[], [r, r]))
  {
    var r := DoublingRun();
    var t := Rebalanced(map[], r);
    DoublingRow();
    EmptyTableIsBalanced();
    LatestAfterUpsert(map[], r.now, NewRow(map[], r));
    hide NewRow, Balanced;
    assert t[r.now] == NewRow(map[], r);
    BalanceKeptExactlyWhen(map[], r);
    BalanceKeptExactlyWhen(t, r);
    assert [r][1..] == [] && [r, r][1..] == [r];
    assert RunAll(map[], [r]) == RunAll(t, []) == t;
    assert RunAll(map[], [r, r]) == RunAll(t, [r]) == RunAll(Rebalanced(t, r), []);
  }

  // ---------------------------------------------------------------- bounds on one period

  ghost predicate NonNegativeWeights(w: Weights) {
    forall s :: s in w ==> w[s] >= 0.0
  }

  ghost function Total(w: Weights): real {
    SumOver(Entry(w), w.Keys)
  }

  ghost predicate ReturnsAtLeast(rets: Weights, m: real) {
    forall s :: s in rets ==> rets[s] >= m
  }

  lemma ProductAtLeast(w: real, x: real, m: real)
    requires w >= 0.0 && x >= m
    ensures w * x >= m * w
  {
    ProductNonNegative(w, x - m);
    assert w * (x - m) == w * x - m * w;
  }

  lemma ContributionAtLeast(prev: Weights, rets: Weights, m: real, s: string)
    requires NonNegativeWeights(prev) && ReturnsAtLeast(rets, m) && m <= 0.0
    ensures Contribution(prev, rets)(s) >= m * Entry(prev)(s)
  {
    ProductAtLeast(Get(prev, s), Get(rets, s), m);
  }

  /** Symbols outside a weight map carry no weight. */
  lemma TotalOver(w: Weights, u: set<string>)
    requires w.Keys <= u
    ensures SumOver(Entry(w), u) == Total(w)
  {
    SumOverExtend(Entry(w), w.Keys, u);
  }

  /** Long-only weights lose at most the worst return on their total. */
  lemma GrossAtLeast(prev: Weights, rets: Weights, new': Weights, m: real)
    requires NonNegativeWeights(prev) && ReturnsAtLeast(rets, m) && m <= 0.0
    ensures Gross(prev, rets, new') >= m * Total(prev)
  {
    var u := Universe(prev, rets, new');
    hide Contribution, Entry, Total;
    TotalOver(prev, u);
    GrossOverAtLeast(prev, rets, m, u, Total(prev));
  }

  lemma GrossOverAtLeast(prev: Weights, rets: Weights, m: real, u: set<string>, total: real)
    requires NonNegativeWeights(prev) && ReturnsAtLeast(rets, m) && m <= 0.0
    requires SumOver(Entry(prev), u) == total
    ensures SumOver(Contribution(prev, rets), u) >= m * total
  {
    forall s | s in u ensures Contribution(prev, rets)(s) >= m * Entry(prev)(s) {
      ContributionAtLeast(prev, rets, m, s);
    }
    hide Contribution, Entry;
    SumOverAtLeast(Contribution(prev, rets), m, Entry(prev), u);
  }

  /** The turnover over the union of symbols is at most the two totals together. */
  lemma TurnoverAtMost(prev: Weights, rets: Weights, new': Weights)
    requires NonNegativeWeights(prev) && NonNegativeWeights(new')
    ensures 0.0 <= L1Turnover(prev, rets, new') <= Total(prev) + Total(NewOrPrevious(prev, new'))
  {
    var u, next := Universe(prev, rets, new'), NewOrPrevious(prev, new');
    TotalOver(prev, u);
    TotalOver(next, u);
    TurnoverOver(prev, next, u);
  }

  lemma TurnoverOver(prev: Weights, next: Weights, u: set<string>)
    requires NonNegativeWeights(prev) && NonNegativeWeights(next)
    ensures 0.0 <= SumOver(Change(prev, next), u) <= SumOver(Entry(prev), u) + SumOver(Entry(next), u)
  {
    forall s | s in u ensures 0.0 <= Change(prev, next)(s) <= Entry(prev)(s) + Entry(next)(s) {
      assert Get(prev, s) >= 0.0 && Get(next, s) >= 0.0;
    }
    hide Change, Entry;
    SumOverTriangle(Change(prev, next), Entry(prev), Entry(next), u);
  }

  /**
    worst   - no asset return is below this
    feeRate - the fee on turnover
    slack   - how far the total of the weights may be from 1
  */
  datatype Bounds = Bounds(worst: real, feeRate: real, slack: real)

  /** Long-only weights whose total is within slack of 1. */
  ghost predicate Invested(w: Weights, slack: real) {
    NonNegativeWeights(w) && Abs(Total(w) - 1.0) <= slack
  }

  /** A run with invested new weights and no return below the worst. */
  ghost predicate Orderly(r: Rebalance, b: Bounds) {
    Invested(r.weights, b.slack) && ReturnsAtLeast(r.rets, b.worst) && r.feeRate == b.feeRate
  }

  /** What one orderly period loses, at worst: the loss and both sides of the turnover, on a total of 1 + slack. */
  function WorstNet(b: Bounds): real {
    (1.0 + b.slack) * (b.worst - 2.0 * b.feeRate)
  }

  lemma NetScalars(b: Bounds, gross: real, l1: real, total: real, total': real, net: real)
    requires b.worst <= 0.0 && b.feeRate >= 0.0
    requires total <= 1.0 + b.slack && total' <= 1.0 + b.slack
    requires gross >= b.worst * total && l1 <= total + total' && net == gross - b.feeRate * l1
    ensures net >= WorstNet(b)
  {
    var s := 1.0 + b.slack;
    ProductNonNegative(-b.worst, s - total);
    assert (-b.worst) * (s - total) == b.worst * total - b.worst * s;
    ProductNonNegative(b.feeRate, 2.0 * s - l1);
    assert b.feeRate * (2.0 * s - l1) == 2.0 * (b.feeRate * s) - b.feeRate * l1;
    assert s * (b.worst - 2.0 * b.feeRate) == b.worst * s - 2.0 * (b.feeRate * s);
  }

  lemma NetAtLeast(t: Table, r: Rebalance, b: Bounds)
    requires Invested(PrevWeights(t, r), b.slack) && Orderly(r, b)
    requires b.worst <= 0.0 && b.feeRate >= 0.0
    ensures RunPnl(t, r).net >= WorstNet(b)
  {
    hide *;
    OrderlyTotals(PrevWeights(t, r), r, b);
    RunPnlIs(t, r, PrevWeights(t, r));
    NetOfParts(PrevWeights(t, r), r, b, RunPnl(t, r).net);
  }

  lemma NetOfParts(prev: Weights, r: Rebalance, b: Bounds, net: real)
    requires NonNegativeWeights(prev) && NonNegativeWeights(r.weights) && ReturnsAtLeast(r.rets, b.worst)
    requires Total(prev) <= 1.0 + b.slack && Total(NewOrPrevious(prev, r.weights)) <= 1.0 + b.slack
    requires b.worst <= 0.0 && b.feeRate >= 0.0
    requires net == Gross(prev, r.rets, r.weights) - b.feeRate * L1Turnover(prev, r.rets, r.weights)
    ensures net >= WorstNet(b)
  {
    hide *;
    GrossAtLeast(prev, r.rets, r.weights, b.worst);
    TurnoverAtMost(prev, r.rets, r.weights);
    NetScalars(b, Gross(prev, r.rets, r.weights), L1Turnover(prev, r.rets, r.weights), Total(prev),
               Total(NewOrPrevious(prev, r.weights)), net);
  }

  lemma RunPnlIs(t: Table, r: Rebalance, prev: Weights)
    requires prev == PrevWeights(t, r)
    ensures RunPnl(t, r).net == Gross(prev, r.rets, r.weights) - r.feeRate * L1Turnover(prev, r.rets, r.weights)
    ensures RunPnl(t, r).equity == PrevEquity(t) * (1.0 + RunPnl(t, r).net)
  {
    hide PrevWeights, PrevEquity, PrevCumulative, Gross, L1Turnover;
  }

  lemma OrderlyTotals(prev: Weights, r: Rebalance, b: Bounds)
    requires Invested(prev, b.slack) && Orderly(r, b)
    ensures NonNegativeWeights(prev) && NonNegativeWeights(r.weights) && ReturnsAtLeast(r.rets, b.worst)
    ensures r.feeRate == b.feeRate
    ensures Total(prev) <= 1.0 + b.slack && Total(NewOrPrevious(prev, r.weights)) <= 1.0 + b.slack
  {
    hide Total;
  }

  lemma EquityAtLeast(e: real, f: real, g: real, q: real)
    requires e >= 0.0 && f >= g && q == e * f
    ensures q >= e * g
  {
    ProductNonNegative(e, f - g);
    assert e * (f - g) == e * f - e * g;
  }

  /** The factor one orderly period leaves of the wealth, at worst. */
  function PeriodFloor(b: Bounds): real {
    1.0 + WorstNet(b)
  }

  /** One orderly period: the clamp is inactive and wealth shrinks at most by the period floor. */
  lemma OrderlyPeriod(t: Table, r: Rebalance, b: Bounds)
    requires Invested(PrevWeights(t, r), b.slack) && Orderly(r, b) && PrevEquity(t) >= 0.0
    requires b.worst <= 0.0 && b.feeRate >= 0.0 && PeriodFloor(b) > 0.0
    ensures NewRow(t, r).equity == PrevEquity(t) * (1.0 + RunPnl(t, r).net)
    ensures NewRow(t, r).equity >= PrevEquity(t) * PeriodFloor(b)
    ensures PrevEquity(t) > 0.0 ==> NewRow(t, r).equity > 0.0
  {
    hide *;
    NetAtLeast(t, r, b);
    RunPnlIs(t, r, PrevWeights(t, r));
    RowEquityIs(t, r);
    FloorIs(b);
    ClampInactive(PrevEquity(t), 1.0 + RunPnl(t, r).net, PeriodFloor(b), RunPnl(t, r).equity, NewRow(t, r).equity);
  }

  lemma FloorIs(b: Bounds)
    ensures PeriodFloor(b) == 1.0 + WorstNet(b)
  {
  }

  lemma RowEquityIs(t: Table, r: Rebalance)
    ensures NewRow(t, r).equity == Max(0.0, RunPnl(t, r).equity)
  {
    hide RunPnl;
  }

  lemma ClampInactive(e: real, f: real, g: real, q: real, e': real)
    requires e >= 0.0 && f >= g > 0.0 && q == e * f && e' == Max(0.0, q)
    ensures e' == q && e' >= e * g && (e > 0.0 ==> e' > 0.0)
  {
    EquityAtLeast(e, f, g, q);
    ProductNonNegative(e, g);
    PositiveIfBoth(e, g);
  }

  lemma PositiveIfBoth(e: real, g: real)
    requires g > 0.0
    ensures e > 0.0 ==> e * g > 0.0
  {
  }

  // ---------------------------------------------------------------- wealth over a run

  /** The product of 1 + net over the runs. */
  ghost function Growth(t: Table, rs: seq<Rebalance>): real
    decreases |rs|
  {
    if |rs| == 0 then 1.0 else (1.0 + RunPnl(t, rs[0]).net) * Growth(Rebalanced(t, rs[0]), rs[1..])
  }

  function Pow(g: real, k: nat): real {
    if k == 0 then 1.0 else g * Pow(g, k - 1)
  }

  lemma StateAfterForwardRun(t: Table, r: Rebalance)
    requires t != map[] ==> LatestTime(t) <= r.now
    ensures PrevEquity(Rebalanced(t, r)) == NewRow(t, r).equity
    ensures forall r': Rebalance :: PrevWeights(Rebalanced(t, r), r') == r.weights
  {
    hide NewRow;
    LatestAfterUpsert(t, r.now, NewRow(t, r));
    RowWeights(t, r);
  }

  lemma RowWeights(t: Table, r: Rebalance)
    ensures NewRow(t, r).weights == r.weights
  {
    hide RunPnl;
  }

  lemma MulAssoc(a: real, b: real, c: real)
    ensures (a * b) * c == a * (b * c)
  {
  }

  lemma ChainBound(e: real, e': real, g: real, p: real, final: real)
    requires e' >= e * g && p >= 0.0 && final >= e' * p
    ensures final >= e * (g * p)
  {
    ProductNonNegative(e' - e * g, p);
    assert (e' - e * g) * p == e' * p - (e * g) * p;
    MulAssoc(e, g, p);
  }

  lemma {:induction false} PowPositive(g: real, k: nat)
    requires g > 0.0
    ensures Pow(g, k) > 0.0
  {
    if k != 0 {
      PowPositive(g, k - 1);
      PositiveIfBoth(g, Pow(g, k - 1));
    }
  }

  /** Orderly runs from an invested start, with a floor on what one period can lose. */
  ghost predicate OrderlyRun(t: Table, rs: seq<Rebalance>, b: Bounds) {
    && Forward(t, rs) && PrevEquity(t) >= 0.0
    && (forall i :: 0 <= i < |rs| ==> Orderly(rs[i], b))
    && (|rs| > 0 ==> Invested(PrevWeights(t, rs[0]), b.slack))
    && b.worst <= 0.0 && b.feeRate >= 0.0 && PeriodFloor(b) > 0.0
  }

  lemma OrderlyRunStep(t: Table, rs: seq<Rebalance>, b: Bounds)
    requires OrderlyRun(t, rs, b) && |rs| > 0
    ensures var t' := Rebalanced(t, rs[0]);
      && OrderlyRun(t', rs[1..], b)
      && PrevEquity(t') == PrevEquity(t) * (1.0 + RunPnl(t, rs[0]).net)
      && PrevEquity(t') >= PrevEquity(t) * PeriodFloor(b)
  {
    hide Forward, PrevWeights, Invested, NewRow, RunPnl, Rebalanced, PrevEquity, Orderly;
    OrderlyPeriod(t, rs[0], b);
    ForwardLatest(t, rs);
    StateAfterForwardRun(t, rs[0]);
    ForwardTail(t, rs);
    OrderlyIsInvested(rs[0], b);
    FloorNonNegative(PrevEquity(t), PeriodFloor(b), NewRow(t, rs[0]).equity);
  }

  lemma ForwardLatest(t: Table, rs: seq<Rebalance>)
    requires Forward(t, rs) && |rs| > 0
    ensures t != map[] ==> LatestTime(t) <= rs[0].now
  {
  }

  lemma OrderlyIsInvested(r: Rebalance, b: Bounds)
    requires Orderly(r, b)
    ensures Invested(r.weights, b.slack)
  {
    hide Invested;
  }

  lemma FloorNonNegative(e: real, g: real, e': real)
    requires e >= 0.0 && g > 0.0 && e' >= e * g
    ensures e' >= 0.0
  {
    ProductNonNegative(e, g);
  }

  /**
    The wealth theorem, first half: over any orderly run - run times never go
    back, repeats within a minute included - equity is exactly the start times
    the product of the period factors.
  */
  lemma {:induction false} EquityIsProductOfGrowth(t: Table, rs: seq<Rebalance>, b: Bounds, growth: real)
    requires OrderlyRun(t, rs, b) && growth == Growth(t, rs)
    ensures PrevEquity(RunAll(t, rs)) == PrevEquity(t) * growth
    decreases |rs|
  {
    hide RunPnl, PrevEquity, Rebalanced, OrderlyRun;
    if |rs| != 0 {
      OrderlyRunStep(t, rs, b);
      var rest := Growth(Rebalanced(t, rs[0]), rs[1..]);
      EquityIsProductOfGrowth(Rebalanced(t, rs[0]), rs[1..], b, rest);
      GrowthStep(t, rs, growth, rest);
      GrowthScalars(PrevEquity(t), PrevEquity(Rebalanced(t, rs[0])), 1.0 + RunPnl(t, rs[0]).net, growth, rest,
                    PrevEquity(RunAll(t, rs)));
    }
  }

  lemma GrowthStep(t: Table, rs: seq<Rebalance>, growth: real, rest: real)
    requires |rs| > 0 && growth == Growth(t, rs) && rest == Growth(Rebalanced(t, rs[0]), rs[1..])
    ensures growth == (1.0 + RunPnl(t, rs[0]).net) * rest
  {
    hide RunPnl, Rebalanced;
  }

  lemma GrowthScalars(e: real, e': real, n: real, growth: real, rest: real, final: real)
    requires e' == e * n && growth == n * rest && final == e' * rest
    ensures final == e * growth
  {
    MulAssoc(e, n, rest);
  }

  /** Second half: equity never falls below the start times the period floor to the number of runs. */
  lemma {:induction false} EquityFloor(t: Table, rs: seq<Rebalance>, b: Bounds, pow: real)
    requires OrderlyRun(t, rs, b) && pow == Pow(PeriodFloor(b), |rs|)
    ensures PrevEquity(RunAll(t, rs)) >= PrevEquity(t) * pow
    decreases |rs|
  {
    hide RunPnl, PrevEquity, Rebalanced, OrderlyRun, PeriodFloor;
    if |rs| != 0 {
      PeriodFloorPositive(t, rs, b);
      var rest := Pow(PeriodFloor(b), |rs[1..]|);
      OrderlyRunStep(t, rs, b);
      EquityFloor(Rebalanced(t, rs[0]), rs[1..], b, rest);
      PowStep(PeriodFloor(b), |rs|, pow, rest);
      PowScalars(PrevEquity(t), PrevEquity(Rebalanced(t, rs[0])), PeriodFloor(b), pow, rest,
                 PrevEquity(RunAll(t, rs)));
    }
  }

  lemma PeriodFloorPositive(t: Table, rs: seq<Rebalance>, b: Bounds)
    requires OrderlyRun(t, rs, b)
    ensures PeriodFloor(b) > 0.0
  {
    hide Forward, Orderly, Invested, PrevEquity, PrevWeights;
  }

  lemma PowStep(g: real, k: nat, pow: real, rest: real)
    requires k > 0 && g > 0.0 && pow == Pow(g, k) && rest == Pow(g, k - 1)
    ensures pow == g * rest && rest > 0.0
  {
    PowPositive(g, k - 1);
  }

  lemma PowScalars(e: real, e': real, g: real, pow: real, rest: real, final: real)
    requires e' >= e * g && rest >= 0.0 && pow == g * rest && final >= e' * rest
    ensures final >= e * pow
  {
    ChainBound(e, e', g, rest, final);
  }

  /** From an empty ledger, with symbols to hold, the start is an equal split worth 1. */
  lemma FreshStartIsFullyInvested(r: Rebalance)
    requires r.symbols != {}
    ensures Invested(PrevWeights(map[], r), 0.0) && PrevEquity(map[]) == 1.0
    ensures PrevWeights(map[], r).Keys == r.symbols
    ensures forall s :: s in r.symbols ==> PrevWeights(map[], r)[s] * |r.symbols| as real == 1.0
  {
    var w := EqualSplit(r.symbols);
    var x := 1.0 / |r.symbols| as real;
    Reciprocal(|r.symbols| as real);
    assert w.Keys == r.symbols;
    SumOfEqual(Entry(w), r.symbols, x);
    MultipleIsProduct(|r.symbols|, x);
  }

  lemma {:induction false} SumOfEqual(f: string -> real, s: set<string>, x: real)
    requires forall y :: y in s ==> f(y) == x
    ensures SumOver(f, s) == Multiple(|s|, x)
    decreases |s|
  {
    if s != {} {
      var y := SomeElement(s);
      SumOverPick(f, s, y);
      SumOfEqual(f, s - {y}, x);
    }
  }

  /** A run on zero equity stores zero equity; one before the latest row leaves that row in place. */
  lemma ZeroStaysZero(t: Table, r: Rebalance)
    requires t != map[] && PrevEquity(t) == 0.0
    ensures Rebalanced(t, r) != map[] && PrevEquity(Rebalanced(t, r)) == 0.0
  {
    assert NewRow(t, r).equity == 0.0 by {
      hide Gross, L1Turnover;
      assert RunPnl(t, r).equity == 0.0 * (1.0 + RunPnl(t, r).net);
    }
    hide NewRow;
    LatestAfterUpsert(t, r.now, NewRow(t, r));
  }

  /** Zero equity is absorbing, whatever the weights, the returns and the clock. */
  lemma {:induction false} ZeroEquityIsAbsorbing(t: Table, rs: seq<Rebalance>)
    requires t != map[] && PrevEquity(t) == 0.0
    ensures PrevEquity(RunAll(t, rs)) == 0.0
    decreases |rs|
  {
    hide PrevEquity, Rebalanced;
    if |rs| != 0 {
      ZeroStaysZero(t, rs[0]);
      ZeroEquityIsAbsorbing(Rebalanced(t, rs[0]), rs[1..]);
    }
  }
}
