/**
  What a row of the engine records: its equity in terms of the prices of the
  period, its weights, and the risk of exactly those weights.
*/
module EngineRows {
  import opened Reals
  import opened Projection
  import opened Covariance
  import opened Optimizer
  import opened Allocation
  import opened Ledger
  import opened LedgerRuns
  import opened LedgerPeriods
  import opened EngineRuns
  import opened Scheduler
  import opened EngineLifetime

  /** What a rebalance reads off its inputs: prices, the variance of the weights it stores, and their mean return. */
  lemma RebalanceFacts(clock: int, input: Inputs, cfg: Settings)
    requires cfg.Valid() && input.Fits(cfg)
    ensures var r, w := RebalanceAt(clock, input, cfg), StoredWeights(input, cfg);
      && LeadFromTo(r.rets, input.fromPrices, input.toPrices)
      && r.rets.Keys == r.symbols == (set s | s in cfg.symbols)
      && r.weights == WeightsDict(cfg.symbols, w) && r.feeRate == cfg.feeRate
      && r.vol == PortfolioVolatility(w, Estimate(input.panel, |cfg.symbols|, cfg.shrinkage, cfg.ln), cfg.sqrt)
      && r.sharpe == SharpeProxy(w, input.mu, Estimate(input.panel, |cfg.symbols|, cfg.shrinkage, cfg.ln), cfg.sqrt)
  {
    hide StoredWeights, WeightsDict, PortfolioVolatility, SharpeProxy, Estimate, PeriodReturn, LeadFromTo;
    PeriodReturnsLead(PeriodReturns(cfg.symbols, input.fromPrices, input.toPrices), input.fromPrices, input.toPrices);
  }

  /**
    The row of any rebalance of the engine, on any table: its equity is the
    previous one marked to market at the prices of the period, less the fee.
  */
  lemma EngineMarksToMarket(t: Table, clock: int, input: Inputs, cfg: Settings)
    requires cfg.Valid() && input.Fits(cfg)
    ensures var r := RebalanceAt(clock, input, cfg);
      var row, w, e := NewRow(t, r), PrevWeights(t, r), PrevEquity(t);
      && IsClampedWorth(row.equity, e, Total(w),
                        HoldingsWorth(w, e, r.symbols, input.fromPrices, input.toPrices), row.fee)
      && row.turnover == L1Turnover(w, r.rets, row.weights)
      && row.fee == r.feeRate * row.turnover && r.feeRate == cfg.feeRate
  {
    hide *;
    var r := RebalanceAt(clock, input, cfg);
    RebalanceFacts(clock, input, cfg);
    RowWeights(t, r);
    MarkedToMarket(t, r, input.fromPrices, input.toPrices);
  }

  /** vol * vol is the variance, and sharpe * vol the mean return. */
  ghost predicate RisksAre(vol: real, sharpe: real, variance: real, mean: real) {
    vol > 0.0 && vol * vol == variance && sharpe * vol == mean
  }

  lemma RiskScalars(vol: real, sharpe: real, variance: real, mean: real)
    requires vol > 0.0 && vol * vol == variance && sharpe == mean / vol
    ensures RisksAre(vol, sharpe, variance, mean)
  {
  }

  /** The row holds the target weight of each symbol, and the risk of exactly those weights. */
  lemma EngineStoresItsTargets(t: Table, clock: int, input: Inputs, cfg: Settings, i: nat)
    requires cfg.Valid() && input.Fits(cfg) && i < |cfg.symbols| <= 9999
    ensures var row, w := NewRow(t, RebalanceAt(clock, input, cfg)), StoredWeights(input, cfg);
      var cov := Estimate(input.panel, |w|, cfg.shrinkage, cfg.ln);
      && row.weights.Keys == (set s | s in cfg.symbols) && row.weights[cfg.symbols[i]] == w[i]
      && RisksAre(row.vol, row.sharpe, Quad(cov, w), MeanReturn(input.mu, w))
  {
    hide WeightsDict, PortfolioVolatility, SharpeProxy, Estimate, Quad, MeanReturn, NewRow, RebalanceAt, Iterate,
      TargetWeights, LeadFromTo, RisksAre, Sum, PeriodReturns;
    var n, w := |cfg.symbols|, StoredWeights(input, cfg);
    RebalanceFacts(clock, input, cfg);
    RowRecords(t, RebalanceAt(clock, input, cfg));
    DictKeys(cfg.symbols, w);
    DictEntry(cfg.symbols, w, i);
    TargetIsLongOnlyFullyInvested(input.mu, Estimate(input.panel, n, cfg.shrinkage, cfg.ln), input.vols,
                                  CodeParams(cfg.cap), cfg.projIter, cfg.step, cfg.sqrt, cfg.maxIters);
    RisksOf(input, cfg, w, PortfolioVolatility(w, Estimate(input.panel, n, cfg.shrinkage, cfg.ln), cfg.sqrt));
  }

  lemma RisksOf(input: Inputs, cfg: Settings, w: seq<real>, vol: real)
    requires cfg.Valid() && input.Fits(cfg) && |w| == |cfg.symbols| <= 9999 && Abs(Sum(w) - 1.0) <= ISCLOSE
    requires vol == PortfolioVolatility(w, Estimate(input.panel, |w|, cfg.shrinkage, cfg.ln), cfg.sqrt)
    ensures var cov := Estimate(input.panel, |w|, cfg.shrinkage, cfg.ln);
      RisksAre(vol, SharpeProxy(w, input.mu, cov, cfg.sqrt), Quad(cov, w), MeanReturn(input.mu, w))
  {
    var cov := Estimate(input.panel, |w|, cfg.shrinkage, cfg.ln);
    assert IsSqrt(cfg.sqrt) && IsPanel(input.panel, |w|) && |input.mu| == |w| > 0;
    hide *;
    VolatilityIsExact(input.panel, cfg.shrinkage, cfg.ln, w, cfg.sqrt);
    SharpeIsRatio(input.panel, cfg.shrinkage, cfg.ln, w, input.mu, cfg.sqrt);
    RiskScalars(vol, SharpeProxy(w, input.mu, cov, cfg.sqrt), Quad(cov, w), MeanReturn(input.mu, w));
  }

  lemma RowRecords(t: Table, r: Rebalance)
    ensures NewRow(t, r).weights == r.weights && NewRow(t, r).vol == r.vol && NewRow(t, r).sharpe == r.sharpe
  {
    hide RunPnl;
  }

  // ---------------------------------------------------------------- nothing is left out of a life

  lemma {:induction false} AttemptsAppend(a: seq<Session>, b: seq<Session>, offset: int)
    ensures AllAttempts(a + b, offset) == AllAttempts(a, offset) + AllAttempts(b, offset)
    decreases |a|
  {
    hide AttemptsOf;
    if |a| == 0 {
      assert a + b == b;
    } else {
      AttemptsAppend(a[1..], b, offset);
      assert (a + b)[1..] == a[1..] + b;
    }
  }

  /** The attempts of every session are among those of a life, in their place. */
  lemma SessionsInPlace(before: seq<Session>, s: Session, after: seq<Session>, offset: int)
    ensures AllAttempts(before + [s] + after, offset) ==
      AllAttempts(before, offset) + Attempts(NextRebalanceFrom(s.start, offset), s.readings, offset)
      + AllAttempts(after, offset)
  {
    AttemptsAppend(before + [s], after, offset);
    AttemptsAppend(before, [s], offset);
    assert [s][1..] == [];
    assert AllAttempts([s], offset) == AttemptsOf(s, offset);
  }

  lemma {:induction false} RunsAppend(a: seq<Outcome>, b: seq<Outcome>, cfg: Settings)
    requires cfg.Valid() && AllFit(a, cfg) && AllFit(b, cfg)
    ensures AllFit(a + b, cfg) && Runs(a + b, cfg) == Runs(a, cfg) + Runs(b, cfg)
    decreases |a|
  {
    assert AllFit(a + b, cfg);
    hide RebalanceAt;
    if |a| == 0 {
      assert a + b == b;
    } else {
      FirstRun(a, cfg);
      FirstRun(a + b, cfg);
      assert (a + b)[1..] == a[1..] + b;
      RunsAppend(a[1..], b, cfg);
    }
  }

  /** Every attempt that stores a row reaches the ledger, in its place; a failed one does not. */
  lemma OutcomesInPlace(before: seq<Outcome>, o: Outcome, after: seq<Outcome>, cfg: Settings)
    requires cfg.Valid() && AllFit(before, cfg) && AllFit(after, cfg) && (o.Stored? ==> o.input.Fits(cfg))
    ensures AllFit(before + [o] + after, cfg)
    ensures Runs(before + [o] + after, cfg) ==
      Runs(before, cfg) + (if o.Stored? then [RebalanceAt(o.clock, o.input, cfg)] else []) + Runs(after, cfg)
  {
    hide RebalanceAt;
    assert AllFit([o], cfg);
    RunsAppend(before, [o], cfg);
    RunsAppend(before + [o], after, cfg);
    FirstRun([o], cfg);
    assert [o][1..] == [];
  }
}
