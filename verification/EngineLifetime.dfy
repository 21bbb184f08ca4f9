/**
  The whole engine: the scheduler decides when a rebalance is attempted, the
  allocator what it stores, the ledger what that is worth - over any number of
  restarts, failures and catch-ups, under any clock that never goes back.
*/
module EngineLifetime {
  import opened Reals
  import opened Projection
  import opened Covariance
  import opened Optimizer
  import opened Allocation
  import opened Ledger
  import opened LedgerRuns
  import opened LedgerMetrics
  import opened EngineRuns
  import opened Scheduler

  const MINUTE: int := 60 * SECOND

  // ---------------------------------------------------------------- restarts

  /** One life of the process: the reading it starts with and those of the turns of its loop. */
  datatype Session = Session(start: int, readings: seq<Reading>)

  function EndOf(s: Session): int {
    if |s.readings| == 0 then s.start else s.readings[|s.readings| - 1].after
  }

  /** The clock never goes back, within a session or from one to the next. */
  ghost predicate MonotoneSessions(from: int, sessions: seq<Session>)
    decreases |sessions|
  {
    |sessions| > 0 ==>
      from <= sessions[0].start && Monotone(sessions[0].start, sessions[0].readings)
      && MonotoneSessions(EndOf(sessions[0]), sessions[1..])
  }

  function AttemptsOf(s: Session, offset: int): seq<Attempt> {
    Attempts(NextRebalanceFrom(s.start, offset), s.readings, offset)
  }

  function AllAttempts(sessions: seq<Session>, offset: int): seq<Attempt>
    decreases |sessions|
  {
    if |sessions| == 0 then [] else AttemptsOf(sessions[0], offset) + AllAttempts(sessions[1..], offset)
  }

  /** Each attempt is for a later slot after from and not before it, and over before the slot of the next. */
  ghost predicate Separated(attempts: seq<Attempt>, from: int, offset: int) {
    && (forall i :: 0 <= i < |attempts| ==>
          IsSlot(attempts[i].slot, offset) && from < attempts[i].slot <= attempts[i].began <= attempts[i].ended)
    && (forall i, j :: 0 <= i < j < |attempts| ==> attempts[i].ended < attempts[j].slot)
  }

  /** Every attempt is over by end. */
  ghost predicate OverBy(attempts: seq<Attempt>, end: int) {
    forall i :: 0 <= i < |attempts| ==> attempts[i].ended <= end
  }

  lemma {:induction false} AttemptsEnd(next: int, readings: seq<Reading>, end: int, offset: int)
    requires forall i :: 0 <= i < |readings| ==> readings[i].after <= end
    ensures OverBy(Attempts(next, readings, offset), end)
    decreases |readings|
  {
    if |readings| != 0 {
      hide NextRebalanceFrom;
      AttemptsEnd(NextRebalanceFrom(readings[0].after, offset), readings[1..], end, offset);
      AttemptsEnd(next, readings[1..], end, offset);
    }
  }

  lemma ReadingsEnd(s: Session)
    requires Monotone(s.start, s.readings)
    ensures s.start <= EndOf(s) && forall i :: 0 <= i < |s.readings| ==> s.readings[i].after <= EndOf(s)
  {
  }

  lemma SessionIsSeparated(s: Session, offset: int)
    requires 0 <= offset < DAY && Monotone(s.start, s.readings)
    ensures Separated(AttemptsOf(s, offset), s.start, offset) && s.start <= EndOf(s)
    ensures OverBy(AttemptsOf(s, offset), EndOf(s))
  {
    EveryRunIsWellScheduled(s.start, s.readings, offset);
    ReadingsEnd(s);
    AttemptsEnd(NextRebalanceFrom(s.start, offset), s.readings, EndOf(s), offset);
    hide Attempts, NextRebalanceFrom, EndOf, IsSlot, OverBy;
  }

  lemma SeparatedAppend(a: seq<Attempt>, b: seq<Attempt>, from: int, start: int, end: int, offset: int)
    requires Separated(a, start, offset) && Separated(b, end, offset) && from <= start <= end
    requires OverBy(a, end)
    ensures Separated(a + b, from, offset)
  {
    hide IsSlot;
  }

  /** So over all sessions no slot is attempted twice, and attempts never overlap the next slot. */
  lemma {:induction false} AllAttemptsAreSeparated(from: int, sessions: seq<Session>, offset: int)
    requires 0 <= offset < DAY && MonotoneSessions(from, sessions)
    ensures Separated(AllAttempts(sessions, offset), from, offset)
    decreases |sessions|
  {
    if |sessions| != 0 {
      var s := sessions[0];
      hide Monotone, AttemptsOf, Separated, EndOf, OverBy;
      SessionIsSeparated(s, offset);
      AllAttemptsAreSeparated(EndOf(s), sessions[1..], offset);
      SeparatedAppend(AttemptsOf(s, offset), AllAttempts(sessions[1..], offset), from, s.start, EndOf(s), offset);
    }
  }

  // ---------------------------------------------------------------- what a rebalance stores

  /** The configuration of the engine. */
  datatype Settings = Settings(symbols: seq<string>, cap: real, shrinkage: real, projIter: nat, maxIters: nat,
                               step: real, feeRate: real, ln: real -> real, sqrt: real -> real)
  {
    ghost predicate Valid() {
      |symbols| > 0 && Distinct(symbols) && IsSqrt(sqrt) && feeRate >= 0.0
    }
  }

  /** What a rebalance reads: history, expected returns, forecasts, and the prices at both ends of the period. */
  datatype Inputs = Inputs(panel: Panel, mu: seq<real>, vols: seq<real>, fromPrices: Weights, toPrices: Weights)
  {
    ghost predicate Fits(cfg: Settings) {
      |mu| == |vols| == |cfg.symbols| && IsPanel(panel, |cfg.symbols|)
    }
  }

  function PeriodReturns(symbols: seq<string>, fromPrices: Weights, toPrices: Weights): Weights {
    map s | s in symbols :: PeriodReturn(fromPrices, toPrices, s)
  }

  ghost function OptimiserWeights(input: Inputs, cfg: Settings): (w: seq<real>)
    requires cfg.Valid() && input.Fits(cfg)
    ensures |w| == |cfg.symbols|
  {
    Iterate(input.mu, Estimate(input.panel, |cfg.symbols|, cfg.shrinkage, cfg.ln), CodeParams(cfg.cap), cfg.projIter,
            cfg.step, cfg.sqrt, cfg.maxIters)
  }

  ghost function StoredWeights(input: Inputs, cfg: Settings): (w: seq<real>)
    requires cfg.Valid() && input.Fits(cfg)
    ensures |w| == |cfg.symbols|
  {
    TargetWeights(OptimiserWeights(input, cfg), input.vols, CodeParams(cfg.cap), cfg.projIter)
  }

  /** The run of the engine at a clock reading: its time is the minute the reading falls in. */
  ghost function RebalanceAt(clock: int, input: Inputs, cfg: Settings): Rebalance
    requires cfg.Valid() && input.Fits(cfg)
  {
    var w, cov := StoredWeights(input, cfg), Estimate(input.panel, |cfg.symbols|, cfg.shrinkage, cfg.ln);
    Rebalance(clock / MINUTE, (set s | s in cfg.symbols), WeightsDict(cfg.symbols, w),
              PortfolioVolatility(w, cov, cfg.sqrt), SharpeProxy(w, input.mu, cov, cfg.sqrt),
              PeriodReturns(cfg.symbols, input.fromPrices, input.toPrices), cfg.feeRate)
  }

  /** An attempt fails before it stores a row, or it stores the one of a reading taken within it. */
  datatype Outcome = Failed | Stored(clock: int, input: Inputs)

  ghost predicate Timely(attempts: seq<Attempt>, outcomes: seq<Outcome>) {
    |attempts| == |outcomes| &&
    forall i :: 0 <= i < |attempts| && outcomes[i].Stored? ==>
      attempts[i].began <= outcomes[i].clock <= attempts[i].ended
  }

  ghost predicate AllFit(outcomes: seq<Outcome>, cfg: Settings) {
    forall i :: 0 <= i < |outcomes| && outcomes[i].Stored? ==> outcomes[i].input.Fits(cfg)
  }

  /** The runs that reach the ledger. */
  ghost function Runs(outcomes: seq<Outcome>, cfg: Settings): seq<Rebalance>
    requires cfg.Valid() && AllFit(outcomes, cfg)
  {
    if |outcomes| == 0 then [] else
      assert outcomes[0].Stored? ==> outcomes[0].input.Fits(cfg);
      (if outcomes[0].Stored? then [RebalanceAt(outcomes[0].clock, outcomes[0].input, cfg)] else [])
      + Runs(outcomes[1..], cfg)
  }

  // ---------------------------------------------------------------- the run times strictly increase

  /** A slot is a whole minute: what is before it is in an earlier minute. */
  lemma SlotIsWholeMinute(slot: int, x: int, clock: int, hour: nat, minute: nat)
    requires hour < 24 && minute < 60 && IsSlot(slot, Offset(hour, minute)) && x < slot <= clock
    ensures x / MINUTE < clock / MINUTE
  {
    SlotIsMultiple(slot, Offset(hour, minute));
    var days := (slot - Offset(hour, minute)) / DAY;
    var minutes := days * 1440 + hour * 60 + minute;
    assert slot == minutes * MINUTE;
    assert clock / MINUTE >= minutes;
  }

  lemma {:induction false} RunsAreLater(attempts: seq<Attempt>, outcomes: seq<Outcome>, cfg: Settings, x: int,
                                        hour: nat, minute: nat)
    requires hour < 24 && minute < 60 && cfg.Valid() && AllFit(outcomes, cfg) && Timely(attempts, outcomes)
    requires Separated(attempts, x, Offset(hour, minute))
    ensures forall i :: 0 <= i < |Runs(outcomes, cfg)| ==> Runs(outcomes, cfg)[i].now > x / MINUTE
    decreases |outcomes|
  {
    if |outcomes| != 0 {
      hide Offset, IsSlot;
      assert Separated(attempts[1..], x, Offset(hour, minute));
      RunsAreLater(attempts[1..], outcomes[1..], cfg, x, hour, minute);
      if outcomes[0].Stored? {
        SlotIsWholeMinute(attempts[0].slot, x, outcomes[0].clock, hour, minute);
        TimeOfRebalance(outcomes[0].clock, outcomes[0].input, cfg);
      }
      hide RebalanceAt, Timely, Separated, AllFit;
      FirstRun(outcomes, cfg);
    }
  }

  lemma FirstRun(outcomes: seq<Outcome>, cfg: Settings)
    requires cfg.Valid() && |outcomes| > 0 && AllFit(outcomes, cfg)
    ensures AllFit(outcomes[1..], cfg)
    ensures outcomes[0].Failed? ==> Runs(outcomes, cfg) == Runs(outcomes[1..], cfg)
    ensures outcomes[0].Stored? ==>
      outcomes[0].input.Fits(cfg) &&
      Runs(outcomes, cfg) == [RebalanceAt(outcomes[0].clock, outcomes[0].input, cfg)] + Runs(outcomes[1..], cfg)
  {
    hide RebalanceAt;
  }

  lemma TimeOfRebalance(clock: int, input: Inputs, cfg: Settings)
    requires cfg.Valid() && input.Fits(cfg)
    ensures RebalanceAt(clock, input, cfg).now == clock / MINUTE
  {
  }

  lemma TimelyRest(attempts: seq<Attempt>, outcomes: seq<Outcome>, x: int, offset: int)
    requires |attempts| > 0 && Timely(attempts, outcomes) && Separated(attempts, x, offset)
    ensures Timely(attempts[1..], outcomes[1..]) && Separated(attempts[1..], attempts[0].ended, offset)
    ensures outcomes[0].Stored? ==> x < attempts[0].slot <= outcomes[0].clock <= attempts[0].ended
  {
    hide IsSlot;
  }

  lemma MinuteMonotone(x: int, y: int)
    requires x <= y
    ensures x / MINUTE <= y / MINUTE
  {
  }

  ghost predicate InLaterMinutes(rs: seq<Rebalance>) {
    forall i, j :: 0 <= i < j < |rs| ==> rs[i].now < rs[j].now
  }

  lemma LaterPrepend(r: Rebalance, rs: seq<Rebalance>)
    requires InLaterMinutes(rs) && forall i :: 0 <= i < |rs| ==> r.now < rs[i].now
    ensures InLaterMinutes([r] + rs)
  {
  }

  /** Every run of the engine is in a later minute than the one before, restarts and failures included. */
  lemma {:induction false} RunsIncrease(attempts: seq<Attempt>, outcomes: seq<Outcome>, cfg: Settings, x: int,
                                        hour: nat, minute: nat)
    requires hour < 24 && minute < 60 && cfg.Valid() && AllFit(outcomes, cfg) && Timely(attempts, outcomes)
    requires Separated(attempts, x, Offset(hour, minute))
    ensures InLaterMinutes(Runs(outcomes, cfg))
    decreases |outcomes|
  {
    if |outcomes| != 0 {
      TimelyRest(attempts, outcomes, x, Offset(hour, minute));
      FirstRun(outcomes, cfg);
      hide Offset, RebalanceAt, Timely, Separated, AllFit, InLaterMinutes, Runs;
      RunsIncrease(attempts[1..], outcomes[1..], cfg, attempts[0].ended, hour, minute);
      RunsAreLater(attempts[1..], outcomes[1..], cfg, attempts[0].ended, hour, minute);
      if outcomes[0].Stored? {
        MinuteMonotone(outcomes[0].clock, attempts[0].ended);
        TimeOfRebalance(outcomes[0].clock, outcomes[0].input, cfg);
        LaterPrepend(RebalanceAt(outcomes[0].clock, outcomes[0].input, cfg), Runs(outcomes[1..], cfg));
      }
    }
  }

  // ---------------------------------------------------------------- every run is orderly

  /** The bounds the engine keeps: the total of its weights is within the isclose tolerance of 1. */
  function BoundsOf(cfg: Settings, worst: real): Bounds {
    Bounds(worst, cfg.feeRate, ISCLOSE)
  }

  /** No symbol returns less than worst over any period. */
  ghost predicate ReturnsBounded(outcomes: seq<Outcome>, cfg: Settings, worst: real) {
    forall i :: 0 <= i < |outcomes| && outcomes[i].Stored? ==>
      ReturnsAtLeast(PeriodReturns(cfg.symbols, outcomes[i].input.fromPrices, outcomes[i].input.toPrices), worst)
  }

  lemma RebalanceIsOrderly(clock: int, input: Inputs, cfg: Settings, worst: real)
    requires cfg.Valid() && input.Fits(cfg)
    requires ReturnsAtLeast(PeriodReturns(cfg.symbols, input.fromPrices, input.toPrices), worst)
    ensures Orderly(RebalanceAt(clock, input, cfg), BoundsOf(cfg, worst))
    ensures RebalanceAt(clock, input, cfg).symbols != {}
  {
    hide TargetWeights, Iterate, Estimate, Invested, ReturnsAtLeast, PortfolioVolatility, SharpeProxy, WeightsDict,
      PeriodReturns, IsSqrt, Distinct;
    StoredWeightsAreFullyInvested(cfg.symbols, input.mu, Estimate(input.panel, |cfg.symbols|, cfg.shrinkage, cfg.ln),
                                  input.vols, CodeParams(cfg.cap), cfg.projIter, cfg.step, cfg.sqrt, cfg.maxIters);
    assert cfg.symbols[0] in RebalanceAt(clock, input, cfg).symbols;
  }

  ghost predicate AllOrderly(rs: seq<Rebalance>, b: Bounds) {
    forall i :: 0 <= i < |rs| ==> Orderly(rs[i], b) && rs[i].symbols != {}
  }

  lemma {:induction false} RunsAreOrderly(outcomes: seq<Outcome>, cfg: Settings, worst: real)
    requires cfg.Valid() && AllFit(outcomes, cfg) && ReturnsBounded(outcomes, cfg, worst)
    ensures AllOrderly(Runs(outcomes, cfg), BoundsOf(cfg, worst))
  {
    if |outcomes| != 0 {
      assert AllFit(outcomes[1..], cfg);
      RunsAreOrderly(outcomes[1..], cfg, worst);
      if outcomes[0].Stored? {
        RebalanceIsOrderly(outcomes[0].clock, outcomes[0].input, cfg, worst);
      }
      hide RebalanceAt, Orderly, BoundsOf, ReturnsBounded;
    }
  }

  lemma OrderlyFromStart(rs: seq<Rebalance>, b: Bounds)
    requires AllOrderly(rs, b) && InLaterMinutes(rs) && b.slack >= 0.0
    requires b.worst <= 0.0 && b.feeRate >= 0.0 && PeriodFloor(b) > 0.0
    ensures StrictlyForward(map[], rs) && OrderlyRun(map[], rs, b)
  {
    hide Orderly, PeriodFloor, Total, PrevWeights;
    if |rs| > 0 {
      FreshStartIsFullyInvested(rs[0]);
    }
  }

  /**
    The engine over its whole life. From an empty ledger, over any sessions of
    the scheduler under a clock that never goes back, with any failures and any
    inputs whose returns are at least worst: run times strictly increase, the
    clamp never acts, the stored period P&L adds up to the cumulative P&L, and
    equity is at least the period floor to the number of rows.
  */
  lemma EngineOverItsLife(from: int, sessions: seq<Session>, outcomes: seq<Outcome>, cfg: Settings, worst: real,
                          hour: nat, minute: nat, pow: real)
    requires hour < 24 && minute < 60 && MonotoneSessions(from, sessions)
    requires cfg.Valid() && AllFit(outcomes, cfg) && Timely(AllAttempts(sessions, Offset(hour, minute)), outcomes)
    requires ReturnsBounded(outcomes, cfg, worst) && worst <= 0.0 && PeriodFloor(BoundsOf(cfg, worst)) > 0.0
    requires pow == Pow(PeriodFloor(BoundsOf(cfg, worst)), |Runs(outcomes, cfg)|)
    ensures var rs := Runs(outcomes, cfg);
      && StrictlyForward(map[], rs) && OrderlyRun(map[], rs, BoundsOf(cfg, worst))
      && LedgerInvariant(RunAll(map[], rs)) && Balanced(RunAll(map[], rs))
      && PrevEquity(RunAll(map[], rs)) == Growth(map[], rs)
      && PrevEquity(RunAll(map[], rs)) >= pow
  {
    assert BoundsOf(cfg, worst).slack >= 0.0 && BoundsOf(cfg, worst).feeRate >= 0.0;
    assert BoundsOf(cfg, worst).worst == worst && 0 <= Offset(hour, minute) < DAY;
    hide *;
    AllAttemptsAreSeparated(from, sessions, Offset(hour, minute));
    RunsIncrease(AllAttempts(sessions, Offset(hour, minute)), outcomes, cfg, from, hour, minute);
    RunsAreOrderly(outcomes, cfg, worst);
    OrderlyFromStart(Runs(outcomes, cfg), BoundsOf(cfg, worst));
    OrderlyLedger(Runs(outcomes, cfg), BoundsOf(cfg, worst), pow);
  }

  lemma OrderlyLedger(rs: seq<Rebalance>, b: Bounds, pow: real)
    requires StrictlyForward(map[], rs) && OrderlyRun(map[], rs, b) && pow == Pow(PeriodFloor(b), |rs|)
    ensures LedgerInvariant(RunAll(map[], rs)) && Balanced(RunAll(map[], rs))
    ensures PrevEquity(RunAll(map[], rs)) == Growth(map[], rs) && PrevEquity(RunAll(map[], rs)) >= pow
  {
    hide *;
    EmptyTableIsBalanced();
    EveryReachableTableIsConsistent(map[], rs);
    PeriodPnlSumsToCumulative(map[], rs);
    OrderlyEquity(rs, b, Growth(map[], rs), pow);
  }

  lemma OrderlyEquity(rs: seq<Rebalance>, b: Bounds, growth: real, pow: real)
    requires OrderlyRun(map[], rs, b) && pow == Pow(PeriodFloor(b), |rs|) && growth == Growth(map[], rs)
    ensures PrevEquity(RunAll(map[], rs)) == growth && PrevEquity(RunAll(map[], rs)) >= pow
  {
    hide PeriodFloor, OrderlyRun, RunAll;
    EquityIsGrowth(rs, b, growth, PrevEquity(RunAll(map[], rs)));
    EquityAboveFloor(rs, b, pow, PrevEquity(RunAll(map[], rs)));
  }

  lemma StartEquity()
    ensures PrevEquity(map[]) == 1.0
  {
  }

  lemma EquityIsGrowth(rs: seq<Rebalance>, b: Bounds, growth: real, equity: real)
    requires OrderlyRun(map[], rs, b) && growth == Growth(map[], rs) && equity == PrevEquity(RunAll(map[], rs))
    ensures equity == growth
  {
    hide *;
    EquityIsProductOfGrowth(map[], rs, b, growth);
    StartEquity();
    TimesOne(PrevEquity(map[]), growth, equity);
  }

  lemma EquityAboveFloor(rs: seq<Rebalance>, b: Bounds, pow: real, equity: real)
    requires OrderlyRun(map[], rs, b) && pow == Pow(PeriodFloor(b), |rs|) && equity == PrevEquity(RunAll(map[], rs))
    ensures equity >= pow
  {
    hide *;
    EquityFloor(map[], rs, b, pow);
    StartEquity();
    AtLeastOneTimes(PrevEquity(map[]), pow, equity);
  }

  lemma AtLeastOneTimes(e: real, x: real, y: real)
    requires e == 1.0 && y >= e * x
    ensures y >= x
  {
  }

  lemma TimesOne(e: real, x: real, y: real)
    requires e == 1.0 && y == e * x
    ensures y == x
  {
  }

  /** And for every lookback the gateway recovers the engine's returns from the rows it selects. */
  lemma GatewayOverItsLife(from: int, sessions: seq<Session>, outcomes: seq<Outcome>, cfg: Settings, worst: real,
                           hour: nat, minute: nat, times: seq<int>, lookback: nat)
    requires hour < 24 && minute < 60 && MonotoneSessions(from, sessions)
    requires cfg.Valid() && AllFit(outcomes, cfg) && Timely(AllAttempts(sessions, Offset(hour, minute)), outcomes)
    requires ReturnsBounded(outcomes, cfg, worst) && worst <= 0.0 && PeriodFloor(BoundsOf(cfg, worst)) > 0.0
    requires |Runs(outcomes, cfg)| > 0 && lookback > 0 && IsTimeOrder(RunAll(map[], Runs(outcomes, cfg)), times)
    ensures var rs := Runs(outcomes, cfg);
      var es, nets := SelectedEquities(RunAll(map[], rs), times, lookback), Nets(map[], rs)[Skipped(|rs|, lookback)..];
      0 < |es| == |nets| && Recovers(es, nets)
  {
    hide Offset, MonotoneSessions, Timely, Runs, AllAttempts, RunAll, StrictlyForward, OrderlyRun, Growth,
      PeriodFloor, ReturnsBounded, AllFit, IsTimeOrder, SelectedEquities, Nets, Recovers, Pow;
    EngineOverItsLife(from, sessions, outcomes, cfg, worst, hour, minute,
                      Pow(PeriodFloor(BoundsOf(cfg, worst)), |Runs(outcomes, cfg)|));
    GatewayRecoversOrderlyRun(Runs(outcomes, cfg), BoundsOf(cfg, worst), times, lookback);
  }
}
