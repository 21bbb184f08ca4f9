/**
  What the allocator hands to the ledger, and what the gateway makes of it: the
  stored weights are invested, orderly runs keep equity positive, and then the
  gateway recovers every return from the stored table. EngineLifetime puts the
  parts together.
*/
module EngineRuns {
  import opened Reals
  import opened FiniteSums
  import opened Projection
  import opened Covariance
  import opened Optimizer
  import opened Allocation
  import opened Ledger
  import opened LedgerRuns
  import RiskMetrics
  import opened LedgerMetrics

  // ---------------------------------------------------------------- the stored weights

  ghost predicate Distinct(symbols: seq<string>) {
    forall i, j :: 0 <= i < j < |symbols| ==> symbols[i] != symbols[j]
  }

  /** {s: w for s, w in zip(symbols, weights)} */
  function WeightsDict(symbols: seq<string>, w: seq<real>): Weights
    requires |symbols| == |w|
  {
    if |w| == 0 then map[] else
      var n := |w| - 1;
      WeightsDict(symbols[..n], w[..n])[symbols[n] := w[n]]
  }

  lemma {:induction false} DictKeys(symbols: seq<string>, w: seq<real>)
    requires |symbols| == |w|
    ensures forall s :: s in WeightsDict(symbols, w) <==> s in symbols
  {
    if |w| != 0 {
      var n := |w| - 1;
      DictKeys(symbols[..n], w[..n]);
      assert symbols == symbols[..n] + [symbols[n]];
    }
  }

  lemma {:induction false} DictEntry(symbols: seq<string>, w: seq<real>, i: nat)
    requires i < |symbols| == |w| && Distinct(symbols)
    ensures symbols[i] in WeightsDict(symbols, w) && WeightsDict(symbols, w)[symbols[i]] == w[i]
  {
    var n := |w| - 1;
    if i < n {
      DictEntry(symbols[..n], w[..n], i);
    }
  }

  /** The total weight of the dictionary is the sum of the weights. */
  lemma {:induction false} DictTotal(symbols: seq<string>, w: seq<real>)
    requires |symbols| == |w| && Distinct(symbols)
    ensures Total(WeightsDict(symbols, w)) == Sum(w)
  {
    if |w| != 0 {
      var n := |w| - 1;
      var rest, all := WeightsDict(symbols[..n], w[..n]), WeightsDict(symbols, w);
      DictTotal(symbols[..n], w[..n]);
      DictKeys(symbols[..n], w[..n]);
      assert symbols[n] !in rest;
      TotalOfAdded(rest, symbols[n], w[n]);
      SumPushLast(w, n);
    }
  }

  lemma TotalOfAdded(rest: Weights, s: string, x: real)
    requires s !in rest
    ensures Total(rest[s := x]) == Total(rest) + x
  {
    var all := rest[s := x];
    SumOverPick(Entry(all), all.Keys, s);
    assert all.Keys - {s} == rest.Keys;
    SumOverCongruence(Entry(all), Entry(rest), rest.Keys);
  }

  lemma SumPushLast(w: seq<real>, n: nat)
    requires |w| == n + 1
    ensures Sum(w) == Sum(w[..n]) + w[n]
  {
    assert w == w[..n] + [w[n]];
    SumAppend(w[..n], [w[n]]);
  }

  lemma DictNonNegative(symbols: seq<string>, w: seq<real>)
    requires |symbols| == |w| && Distinct(symbols) && NonNegative(w)
    ensures NonNegativeWeights(WeightsDict(symbols, w))
  {
    DictKeys(symbols, w);
    var d := WeightsDict(symbols, w);
    forall s | s in d ensures d[s] >= 0.0 {
      var i :| 0 <= i < |w| && symbols[i] == s;
      DictEntry(symbols, w, i);
    }
  }

  /**
    With a forecast for every symbol, the weights a rebalance hands to the
    ledger are fully invested: non-negative with total exactly 1. Without one
    the total is 1 within the isclose tolerance.
  */
  lemma StoredWeightsAreFullyInvested(symbols: seq<string>, mu: seq<real>, cov: Matrix, vols: seq<real>, p: Params,
                                      projIter: nat, step: real, sqrt: real -> real, k: nat)
    requires p.Valid() && 0 < |mu| == |vols| == |symbols| && Distinct(symbols)
    requires IsSquare(cov, |mu|) && IsSqrt(sqrt)
    ensures var w := TargetWeights(Iterate(mu, cov, p, projIter, step, sqrt, k), vols, p, projIter);
      var d := WeightsDict(symbols, w);
      && Invested(d, p.close)
      && (!AnyNonPositive(vols) ==> Invested(d, 0.0))
  {
    hide TargetWeights, Iterate, WeightsDict, Total, Sum, IsSqrt;
    TargetIsLongOnlyFullyInvested(mu, cov, vols, p, projIter, step, sqrt, k);
    var w := TargetWeights(Iterate(mu, cov, p, projIter, step, sqrt, k), vols, p, projIter);
    DictTotal(symbols, w);
    DictNonNegative(symbols, w);
  }

  // ---------------------------------------------------------------- orderly runs, seen from the gateway

  /** Every row an orderly run writes has positive equity. */
  lemma {:induction false} OrderlyTraceIsPositive(t: Table, rs: seq<Rebalance>, b: Bounds, i: nat)
    requires OrderlyRun(t, rs, b) && PrevEquity(t) > 0.0 && i < |rs|
    ensures Trace(t, rs)[i].equity > 0.0
    decreases |rs|
  {
    FirstRowIsPositive(t, rs, b);
    hide OrderlyRun, PrevEquity;
    if i > 0 {
      OrderlyRunStepKept(t, rs, b);
      OrderlyTraceIsPositive(Rebalanced(t, rs[0]), rs[1..], b, i - 1);
      TraceTail(t, rs, i);
    }
  }

  lemma OrderlyRunStepKept(t: Table, rs: seq<Rebalance>, b: Bounds)
    requires OrderlyRun(t, rs, b) && PrevEquity(t) > 0.0 && |rs| > 0
    ensures OrderlyRun(Rebalanced(t, rs[0]), rs[1..], b) && PrevEquity(Rebalanced(t, rs[0])) > 0.0
  {
    hide *;
    PeriodFloorPositive(t, rs, b);
    OrderlyRunStep(t, rs, b);
    PositiveProductBelow(PrevEquity(t), PeriodFloor(b), PrevEquity(Rebalanced(t, rs[0])));
  }

  lemma PositiveProductBelow(e: real, g: real, e': real)
    requires e > 0.0 && g > 0.0 && e' >= e * g
    ensures e' > 0.0
  {
    PositiveIfBoth(e, g);
  }

  lemma FirstRowIsPositive(t: Table, rs: seq<Rebalance>, b: Bounds)
    requires OrderlyRun(t, rs, b) && PrevEquity(t) > 0.0 && |rs| > 0
    ensures Trace(t, rs)[0].equity > 0.0
  {
    hide Forward, Orderly, Invested, PrevWeights, PrevEquity, NewRow, Rebalanced;
    OrderlyPeriod(t, rs[0], b);
  }

  lemma OrderlyRunIsPositive(rs: seq<Rebalance>, b: Bounds)
    requires OrderlyRun(map[], rs, b)
    ensures RiskMetrics.AllPositive(TraceEquities(map[], rs))
  {
    forall i | 0 <= i < |rs| ensures TraceEquities(map[], rs)[i] > 0.0 {
      OrderlyTraceIsPositive(map[], rs, b, i);
    }
  }

  /**
    From an empty ledger, over runs at strictly increasing times that stay
    within the bounds: every stored equity is positive, so for every lookback
    the returns the gateway recomputes are the engine's net returns and compound
    to the ratio of the last to the first selected equity.
  */
  lemma GatewayRecoversOrderlyRun(rs: seq<Rebalance>, b: Bounds, times: seq<int>, lookback: nat)
    requires StrictlyForward(map[], rs) && OrderlyRun(map[], rs, b) && |rs| > 0 && lookback > 0
    requires IsTimeOrder(RunAll(map[], rs), times)
    ensures var es, nets := SelectedEquities(RunAll(map[], rs), times, lookback), Nets(map[], rs)[Skipped(|rs|, lookback)..];
      0 < |es| == |nets| && Recovers(es, nets)
  {
    hide RunAll, TraceEquities, Nets, Recovers, SelectedEquities, StrictlyForward, IsTimeOrder, OrderlyRun,
      RiskMetrics.AllPositive;
    OrderlyRunIsPositive(rs, b);
    GatewayRecoversEngineReturns(rs, times, lookback);
  }
}
