# Portfolio platform: a verified model

A Dafny model of the parts of the portfolio platform whose correctness rests on
an argument rather than on a reading of one function:

- the **allocator** (`portfolio_engine/allocator.py`): the iterative weight
  projection, the shrunk covariance, inverse-volatility weights and the
  projected-gradient Sharpe optimiser;
- the **rebalance ledger** (`portfolio_engine/main.py`, `portfolio_engine/db.py`):
  profit and loss over symbol maps, fees on turnover, the clamp at zero, the
  upsert, and the daily scheduler;
- the **feature consumer** (`feature_engineering/`): a replayed log, ring
  buffers per symbol, first-write-wins tables, rolling-window features;
- the **forward-volatility labels** and their incremental backfill
  (`forecasting/`);
- the **gateway** (`api_gateway/main.go`): one-pass risk metrics and the client
  registry under a lock and an atomic counter.

Code that works in place is imperative here too: array methods for the
projection, the reversal, the covariance matrix and the labels, classes for the
engine, the consumer, the scheduler and the forecast store. Each method is
proved against a specification function, and the theorems are about those
functions, over all inputs, all runs or all interleavings.

Arithmetic is over exact reals. The tolerances of the projection (the `isclose`
band 1.001e-5, the loop tolerance 1e-10 and the freezing band 1e-12) are the
fields of `Projection.Params`; `CodeParams` holds the code's values and `Exact`
means all three are 0. `sqrt` and `ln` are function parameters: of `sqrt` only
`IsSqrt` is assumed (it squares back to its argument and is positive on positive
numbers), and `ln` is an uninterpreted function, with `ln(2) > 0` assumed where
the Parkinson scale divides by it and `IsLog` only where a theorem says so.

| file | content |
|---|---|
| Reals, Statistics, FiniteSums | vectors, means and variances, sums over finite sets |
| Projection, ProjectionTheorems, ProjectionCap | the weight projection: progress, optimality, cap, order |
| NearestPoint, ProjectionExact | when it is the nearest point of the capped simplex, over all inputs |
| ProjectionSlack, CapSlack, CapExceeded | the same at the code's own tolerances, and the cap |
| Covariance, CovarianceEntries, Optimizer, SharpeOptimality, Allocation | covariance, gradient steps, stationary points, target weights |
| Ledger, LedgerPeriods, LedgerRuns | profit and loss, one period in terms of prices, the table, whole runs |
| RiskMetrics, LedgerMetrics, EngineRuns | gateway metrics, and what they make of the ledger |
| Scheduler, EngineLifetime, EngineRows | the daily loop, the whole engine over restarts and failures, what its rows record |
| Features, FeatureValues, StreamTables, RingBuffer, StoredRows | feature columns and what they are, tables and buffers, whose features a row holds |
| Consumer, StreamTrimming | crash replay on a stream that is trimmed |
| Labels, LabelValues, LatePrices, Backfill, BackfillRuns | forward labels and what they are, late prices, the backfill |
| ClientRegistry | the websocket registry |

## Where the code is not what one would expect

- The repository's README promises "optional weight caps" (line 231). The cap is
  not unconditional: `(5, -1, -1)` with cap 0.6 becomes `(1, 0, 0)`
  (`CapIsNotUnconditional`). At tolerance 0 `CapKeptExactlyWhen` gives the exact
  condition, a test on the clipped input, and `CapBrokenValue` the result when it
  fails. At the code's freezing band one has to count coordinates above the band,
  not positive ones (`PositiveCountIsNotEnough`); there `CapWithinSlack`,
  `CapBrokenBeyondSlack` and `NothingLiftedExactlyWhen` bound it from both sides.
- `_project_weights` is not always the Euclidean projection, not even at tolerance
  0: a coordinate clipped at the wrong bound is never freed again.
  `ProjectIsNearestExactlyWhen` gives the exact condition over all inputs, a test
  on the weights before the call. A surplus breaks it - `(0.7, 0.6, 0.3)` with cap
  0.6 becomes `(0.5, 0.5, 0)` although `(0.5, 0.4, 0.1)` is nearer
  (`SurplusExample`) - and so do weights that are not positive. The optimiser's
  candidates can be of both kinds.
- For positive weights without surplus, which is what `inverse_vol_weights`
  passes, the condition always holds at tolerance 0. At the code's tolerances a
  weight at or below the freezing band 1e-12 is never raised: `(0.3, 0.3, 1e-13)`
  with cap 0.6 becomes about `(0.5, 0.5, 1e-13)` instead of
  `(0.433, 0.433, 0.133)` (`BandExample`). For such weights `NearExactlyWhen`
  shows that this is the only way to miss by more than 2 max(1e-10, n 1e-12), and
  `InverseVolNearExactlyWhen` says so for `inverse_vol_weights`, where forecasts
  twelve orders of magnitude apart even break the cap (`InverseVolBandExample`).
- The target weights of a rebalance can exceed the cap: `TargetCanExceedCap` is a
  mean vector and a covariance for which they are (1, 0), or (0.75, 0.25) after
  the blend, under a cap of 0.6.
- The stream keeps about 10,000 messages (`ingestion/main.go:121`,
  `ingestion/backfill.go:118`), so a restart does not replay everything. The
  price table recovers all the same, but a feature row can be lost for good
  (`TrimmedReplayLosesARow`). `AlwaysConsistentExactlyWhen` and
  `ServiceInsertsTheSameExactlyWhen` say exactly when: with increasing times 62 retained candles of a
  symbol are enough.
- A price that arrives late can make a written label wrong. Historical candles
  are published while live ones come in (`ingestion/main.go:82`), so this can
  happen. `ArrivalKeepsLabelExactlyWhen` says which late prices do harm - those
  inside the window of the label whose squared returns do not balance - and
  `LateArrivalBreaksFinality` is a run that ends with a wrong label.
- For the same reason a feature row can hold the features of a later candle than
  the one it is stored under (`LateRowIsOfLaterCandle`);
  `StoredRowIsOwnExactlyWhen` says exactly when.
- The stored period P&L values need not add up to the cumulative P&L once a run
  repeats within a minute (`RepeatedMinuteUnbalances`); `BalanceKeptExactlyWhen`
  says exactly when they do. The scheduler never makes such a run
  (`EngineOverItsLife`).
- The connection counter can pass through -1 (`CounterCanBeNegative`), although
  it is exact in every quiescent state.
- A curve that goes negative makes the one-pass drawdown differ from its
  definition (`NegativeEquityBreaksIt`); the engine's clamp excludes such curves.
- The repository's README gives `BUFFER_SIZE=100` (line 501), the code has 120
  (`feature_engineering/config.py:21`). The buffer theorems hold for every size
  of at least the largest window plus two; below that no feature row is ever
  written (`SmallBufferYieldsNothing`). The comment at `config.py:20` asks for
  the largest window plus one, which is one too few for `MIN_BUFFER`.

## Model

| member | source | states |
|---|---|---|
| Projection.ProjectWeights | portfolio_engine/allocator.py:7-31 | the loop over the array returns exactly the specified projection; no symbols means a division by zero |
| Projection.Redistribute | portfolio_engine/allocator.py:21-26 | one in-place update of the free coordinates and the second clip is one specified pass |
| Projection.MoveAllEffect | portfolio_engine/allocator.py:25-26 | clipping after a shift moves the sum in the direction of the shift, by no more than what was handed out, and loses weight only by freezing a coordinate |
| Projection.PassProgress | portfolio_engine/allocator.py:16-26 | the sign of the deficit never flips, no frozen coordinate moves or is freed, and each pass reaches sum 1 exactly or strictly shrinks the free set |
| Projection.PassesSaturate | portfolio_engine/allocator.py:16-26 | at most as many passes as there are free coordinates ever change the vector |
| Projection.PassesFinish | portfolio_engine/allocator.py:16-26 | with n iterations allowed the loop ends because the sum is right or nothing is free, never because of the limit |
| Projection.PassesKeep | portfolio_engine/allocator.py:16-26 | what any number of passes keeps: the box, the side of 1 the sum is on, the number of coordinates above the band when there is a deficit, and every frozen value |
| Projection.IterationLimitIrrelevant | portfolio_engine/allocator.py:7-31 | any two limits of at least n give the same result, so max_iter = 200 never shows for up to 200 symbols |
| ProjectionTheorems.ProjectIsLongOnlyFullyInvested | portfolio_engine/allocator.py:7-31 | for every input, cap and limit the result is non-negative and sums to 1, exactly unless the early return fired |
| NearestPoint.NearestExactlyWhen | portfolio_engine/allocator.py:7-31 | a feasible point is nearest to w if and only if no coordinate that could give weight has been raised more than one that could take it |
| NearestPoint.NoExchangeIsNearest | portfolio_engine/allocator.py:7-31 | and then it is strictly nearer than every other feasible point |
| ProjectionExact.ProjectIsNearestExactlyWhen | portfolio_engine/allocator.py:7-31 | at tolerance 0, for all weights and every cap that n weights can meet: the result is the nearest point of the capped simplex if and only if the clipped sum is 1, or it is less and no weight was clipped at 0 that should rise, or more and none was clipped at the cap that should fall, or the full weights rightly share everything |
| ProjectionExact.PassesLift | portfolio_engine/allocator.py:16-26 | below a sum of 1 every pass raises the positive weights by one level and leaves the others at 0 |
| ProjectionExact.PassesLower | portfolio_engine/allocator.py:16-26 | above it every pass lowers the weights below the cap by one level and leaves the others there |
| ProjectionExact.SurplusExample | portfolio_engine/allocator.py:7-31 | a concrete surplus, at tolerance 0 and at the code's, whose result is not the nearest point |
| ProjectionTheorems.ProjectIsEuclideanProjection | portfolio_engine/allocator.py:7-31 | at tolerance 0, for positive weights with a clipped sum of at most 1: the result is min(cap, w + theta) for one theta >= 0 and is the nearest point of the capped simplex, strictly nearer than any other |
| ProjectionSlack.ProjectNearLevel | portfolio_engine/allocator.py:7-31 | at any tolerances, every weight above the band and no surplus: the result is within max(1e-10, n 1e-12) of one common level whose sum is as near to 1 |
| ProjectionSlack.ProjectNearExact | portfolio_engine/allocator.py:7-31 | and within twice that of the exact Euclidean projection |
| ProjectionSlack.AcceptedNearExact | portfolio_engine/allocator.py:13-14 | an early return on positive weights without surplus is within the isclose tolerance of the exact projection, band or no band |
| ProjectionSlack.BandMisses | portfolio_engine/allocator.py:21-25 | at the code's values a positive weight in the band falls short of the exact projection by more than twice the slack |
| ProjectionSlack.NearExactlyWhen | portfolio_engine/allocator.py:7-31 | at the code's values, for up to 200 positive weights without surplus, not returned early, one of them above the band: near the exact projection if and only if every weight is above the band |
| CapSlack.BandExample | portfolio_engine/allocator.py:21-25 | a concrete input at the code's values that misses the projection by more than 0.06 |
| ProjectionTheorems.LevelIsNearest | portfolio_engine/allocator.py:7-31 | raising all weights by one theta up to the cap is nearest among all vectors under the cap with the same sum |
| ProjectionTheorems.PassesRaiseLevel | portfolio_engine/allocator.py:16-26 | loop invariant behind the optimality, at any tolerances: with nothing in the lower band every pass raises one common level, up to the band below the cap |
| ProjectionTheorems.ProjectWithInfeasibleCap | portfolio_engine/allocator.py:7-31 | at tolerance 0, when n * cap < 1 positive weights become equal weights |
| CapSlack.InfeasibleCapNearlyEqual | portfolio_engine/allocator.py:7-31 | at any tolerances they become equal up to the band or the loop tolerance over the final total, or up to the isclose tolerance on an early return |
| ProjectionTheorems.ProjectIdempotent | portfolio_engine/allocator.py:7-31 | a result that respects the cap is a fixed point, at any tolerances |
| ProjectionCap.CapKeptExactlyWhen | portfolio_engine/allocator.py:7-31 | at tolerance 0 the cap is kept if and only if the clipped sum reaches 1, or the positive coordinates can hold weight 1 under the cap, or none is positive and n * cap >= 1 |
| ProjectionCap.CapBrokenValue | portfolio_engine/allocator.py:28-31 | at tolerance 0, when the k positive coordinates cannot hold weight 1, each of them gets 1/k, above the cap, and the others 0 |
| ProjectionCap.CapKeptWithSurplus | portfolio_engine/allocator.py:11-31 | a clipped sum of at least 1 keeps the cap at any tolerances |
| ProjectionCap.CapWithinSlack | portfolio_engine/allocator.py:11-31 | at any tolerances every weight is at most cap / min(1 - 1e-10, k (cap - band)) for the k > 0 coordinates above the band |
| CapSlack.CapBrokenBeyondSlack | portfolio_engine/allocator.py:11-31 | the converse at any tolerances: when those coordinates at the cap and the others in the band hold less than 1 by the loop tolerance and a band's share, some weight exceeds the cap |
| CapSlack.NothingLiftedExactlyWhen | portfolio_engine/allocator.py:11-31 | the remaining case at any tolerances, nothing above the band: the cap is kept if and only if the clipped weights keep it relative to their total, or equal weights do when that is not positive |
| CapSlack.CapIsNotUnconditional | portfolio_engine/allocator.py:11-31 | (5, -1, -1) with cap 0.6 gives (1, 0, 0), at tolerance 0 and at the code's |
| ProjectionCap.PositiveCountIsNotEnough | portfolio_engine/allocator.py:21-31 | a concrete input where two positive coordinates and cap 0.6 still give a weight above 0.9 |
| ProjectionCap.ProjectKeepsOrder | portfolio_engine/allocator.py:7-31 | no two weights are inverted, up to the freezing band divided by the final total; at band 0 never |
| Covariance.EstimateCovariance | portfolio_engine/allocator.py:34-67 | the nested loops fill the matrix with the specified covariance in both branches, gaps and dropped columns included |
| Covariance.CovEntryIsGram | portfolio_engine/allocator.py:42-65 | every entry, dropped columns and their default 0 included, is the sample covariance of the columns filled with zero returns |
| Covariance.EstimateIsRidgedGram | portfolio_engine/allocator.py:54-67 | the estimate is 1/(T-1) times the Gram matrix of the centred returns plus the ridge |
| Covariance.RidgedGramQuad | portfolio_engine/allocator.py:54-67 | the variance of a portfolio is the scaled sum of its squared centred returns plus ridge times its squared length |
| Covariance.EstimateIsPositiveDefinite | portfolio_engine/allocator.py:54-67 | for every panel and every w, w'Cw >= max(shrinkage, 1e-12) times its squared length, in both branches |
| CovarianceEntries.EntryIsSampleCovariance | portfolio_engine/allocator.py:59-67 | with T >= 2 rows of returns, T (T - 1) times an entry without its ridge is T times the product sum of the two columns of returns, missing ones counted as 0, less the product of their sums: the unbiased sample covariance |
| CovarianceEntries.ShortEstimate | portfolio_engine/allocator.py:55-57 | with fewer rows the variance of any weights is max(shrinkage, 1e-6) times their squared length |
| CovarianceEntries.ColumnTelescopes | portfolio_engine/allocator.py:38-41 | without gaps no row is dropped, and the returns of a symbol add up to the log of its last over its first price |
| CovarianceEntries.ReturnThereExactlyWhen | portfolio_engine/allocator.py:40-41 | on prices that are not negative a return is there if and only if both its prices are and are positive |
| CovarianceEntries.DropsOnlyEmptyRows | portfolio_engine/allocator.py:40-41 | no row without a return is kept, and no return is lost |
| Optimizer.OptimizeSharpeProxy | portfolio_engine/allocator.py:77-101 | the loop returns the k-th iterate, equal weights for k = 0; no symbols gives the empty vector |
| Optimizer.IterateIsLongOnly | portfolio_engine/allocator.py:88-101 | long-only and summing to 1 within the isclose tolerance after any number of iterations, for any step, mean and matrix |
| Optimizer.VarianceAboveFloor | portfolio_engine/allocator.py:91-93 | weights summing to 1 within the tolerance over at most 9999 symbols have variance above the floor 1e-16 |
| Optimizer.IterateVarianceAboveFloor | portfolio_engine/allocator.py:90-94 | the variance floor is never active at any iterate |
| Optimizer.GradientIsTangent | portfolio_engine/allocator.py:91-97 | Euler's identity: the gradient is orthogonal to the weights while the floor is inactive |
| Optimizer.CandidateNorm | portfolio_engine/allocator.py:97-98 | a step lengthens the vector by exactly step^2 times the squared gradient |
| Optimizer.StepGoesUphill | portfolio_engine/allocator.py:91-98 | a step goes uphill: with mean return m and variance v of the weights, the candidate c has (mu . c) v - m (c . Cw) = step sigma^3 times the squared gradient |
| Optimizer.EveryStepIsTangent | portfolio_engine/allocator.py:90-98 | both identities hold at every iteration on the estimated covariance |
| Optimizer.VolatilityIsExact | portfolio_engine/allocator.py:104-106 | the clamp under the root never acts on such weights: the volatility squares to the variance and exceeds 1e-8 |
| Optimizer.SharpeIsRatio | portfolio_engine/allocator.py:109-113 | the zero branch never acts on such weights |
| Optimizer.SharpeScaleInvariantExactlyWhen | portfolio_engine/allocator.py:109-113 | scaling by k > 0 leaves the proxy unchanged if and only if the threshold is not crossed or the mean return is 0 |
| SharpeOptimality.CauchySchwarz | portfolio_engine/allocator.py:54-67 | (x'Cw)^2 <= (x'Cx)(w'Cw) for a symmetric positive matrix |
| SharpeOptimality.EstimateIsSymmetric | portfolio_engine/allocator.py:54-67 | the estimate is symmetric as a bilinear form, for every panel |
| SharpeOptimality.StationaryExactlyWhen | portfolio_engine/allocator.py:91-97 | the gradient vanishes if and only if the mean vector is proportional to C w in the ratio variance : mean return |
| SharpeOptimality.StationaryIsOptimal | portfolio_engine/allocator.py:91-97 | where the gradient vanishes no other vector has a larger squared Sharpe ratio |
| SharpeOptimality.ZeroGradientIsExtreme | portfolio_engine/allocator.py:91-113 | fully invested weights with zero gradient have the highest Sharpe proxy of all fully invested weights, or the lowest if their mean return is negative |
| Allocation.InverseVolWeights | portfolio_engine/allocator.py:70-74 | the projection of the normalised inverse volatilities; no symbols means a division by zero |
| Allocation.RawIsInverselyProportional | portfolio_engine/allocator.py:71-73 | the weights before the projection sum to 1 and are to each other as the reciprocals of the volatilities, a volatility of at most 1e-12 counting as 1e-12 |
| Allocation.InverseVolIsProjection | portfolio_engine/allocator.py:70-74 | at tolerance 0, for every input, cap and symbol count, the result is the Euclidean projection onto the capped simplex, or equal weights when that is empty |
| Allocation.InverseVolNearExactlyWhen | portfolio_engine/allocator.py:70-74 | at the code's values, for every input of at most 200 symbols and a cap they can meet: an early return is within the isclose tolerance of that projection, any other result is within 2 max(1e-10, n 1e-12) of it if and only if every normalised inverse volatility is above 1e-12 |
| Allocation.InverseVolBandExample | portfolio_engine/allocator.py:70-74 | forecasts (1e-12, 1, 1) with cap 0.6 give a weight above 0.99 |
| Allocation.LowerVolNeverSmallerWeight | portfolio_engine/allocator.py:70-74 | a lower forecast volatility never gets a smaller weight, up to the band divided by the final total |
| Allocation.ComputeTargetWeights | portfolio_engine/main.py:88-97 | optimiser, fallback, inverse-volatility weights and blend compute the specified target |
| Allocation.TargetIsBlend | portfolio_engine/main.py:91-97 | with a forecast missing the target is the optimiser's weights alone; otherwise each target weight times the sum of both totals is the sum of the two weights |
| Allocation.TargetIsLongOnlyFullyInvested | portfolio_engine/main.py:88-97 | the negative-weight fallback is never taken; the target is non-negative and sums to exactly 1 when every forecast is present |
| Allocation.TargetKeepsCapWithinSlack | portfolio_engine/main.py:88-97 | at any tolerances every target weight is at most cap / (g (1 - 1.001e-5)), g being what the projections of the optimiser's last candidate and of the inverse volatilities guarantee of a full weight |
| CapExceeded.TargetCanExceedCap | portfolio_engine/main.py:88-97 | without such a guarantee the cap can be broken: a mean vector and an estimated covariance with targets (1, 0) and (0.75, 0.25) under cap 0.6 |
| Allocation.BlendKeepsCap | portfolio_engine/main.py:96-97 | the blend of two points of the capped simplex is one, and normalising it changes nothing |
| Ledger.ComputePortfolioPnl | portfolio_engine/db.py:315-351 | the sums over the union of symbols in any order give the specified result |
| Ledger.ComputePeriodAssetReturns | portfolio_engine/db.py:300-312 | exactly the given symbols; with both prices there and the first positive, first price times 1 + return is the second, otherwise the return is 0 |
| Ledger.Engine.RunRebalance | portfolio_engine/main.py:99-144 | the whole new table: latest row read, clamped row upserted |
| LedgerPeriods.MarkedToMarket | portfolio_engine/db.py:329-341 | the new equity is the part that was not invested, plus the units each holding bought at the first price valued at the second, less equity times the fee on the turnover, clamped at 0 |
| LedgerPeriods.KeptWeights | portfolio_engine/db.py:327-341 | a run that keeps its weights has no turnover and no fee, and multiplies the equity by 1 + the sum of w (to - from) / from |
| LedgerPeriods.TurnoverIsBoughtAndSold | portfolio_engine/db.py:329-335 | the turnover is what is bought plus what is sold, over all symbols of either map, and the difference of the two is the change of the total |
| LedgerPeriods.HalfTurnoverIsBought | portfolio_engine/db.py:332-341 | between weights of the same total half the turnover is what is bought, and the fee is taken on that |
| LedgerRuns.EveryReachableTableIsConsistent | portfolio_engine/main.py:99-128 | after any runs at any times every row has equity >= 0 and cumulative P&L equal to equity - 1 |
| LedgerRuns.BalanceKeptExactlyWhen | portfolio_engine/db.py:262-285 | the exact condition under which one run keeps the sum of period P&L equal to the latest cumulative P&L |
| LedgerRuns.RepeatedMinuteUnbalances | portfolio_engine/db.py:262-285 | two concrete runs in one minute after which the sum is wrong |
| LedgerRuns.PeriodPnlSumsToCumulative | portfolio_engine/main.py:126-128 | with strictly increasing run times the stored P&L values always add up |
| LedgerRuns.GrossAtLeast | portfolio_engine/db.py:329-331 | long-only weights lose at most the worst return on their total |
| LedgerRuns.TurnoverAtMost | portfolio_engine/db.py:332-335 | turnover over the union of symbols is non-negative and at most the two totals together |
| LedgerRuns.OrderlyPeriod | portfolio_engine/main.py:114-126 | with totals within delta of 1, returns >= m and 1 + (1 + delta)(m - 2 fee) > 0 the clamp is inactive and equity keeps at least that factor |
| LedgerRuns.EquityIsProductOfGrowth | portfolio_engine/main.py:114-126 | over any such run equity is exactly the start times the product of 1 + net return |
| LedgerRuns.EquityFloor | portfolio_engine/main.py:114-126 | and never below the start times (1 + (1 + delta)(m - 2 fee))^runs |
| LedgerRuns.FreshStartIsFullyInvested | portfolio_engine/main.py:105-109 | the default weights of an empty table are equal, over exactly the symbols, with total exactly 1, and equity is 1 |
| LedgerRuns.ZeroEquityIsAbsorbing | portfolio_engine/main.py:114-126 | once zero, equity stays zero whatever the weights, the returns and the clock |
| LedgerMetrics.ReportedDrawdown | api_gateway/main.go:682-767 | for every table the engine can reach and every lookback the reported drawdown is the quadratic one and lies in [0, 1] |
| LedgerMetrics.QueryIsNewest | api_gateway/main.go:683-688 | the query returns as many rows as there are up to the lookback, latest first, and leaves out none that is later than one it returns |
| LedgerMetrics.ReportedLatest | api_gateway/main.go:757-766 | for every table and lookback the metrics are as of its latest row and report the volatility and Sharpe proxy of that row |
| LedgerMetrics.ReportedLastRun | api_gateway/main.go:757-766 | after runs at strictly increasing times these are those of the last run |
| LedgerMetrics.TableIsTrace | portfolio_engine/db.py:262-285 | with strictly increasing times the table holds exactly the row each run wrote |
| LedgerMetrics.TraceStep | portfolio_engine/main.py:115-126 | consecutive rows are related by the later run's net return and the clamp |
| LedgerMetrics.GatewayReturnIsNetExactlyWhen | api_gateway/main.go:743-745 | the recomputed return is the applied net return if and only if that is at least -1 |
| LedgerMetrics.GatewayRecoversEngineReturns | api_gateway/main.go:682-746 | for every lookback, the returns recomputed from the rows the query selects are the engine's net returns and compound to last / first |
| EngineRuns.DictTotal | portfolio_engine/main.py:112 | zipping symbols with weights keeps the total |
| EngineRuns.StoredWeightsAreFullyInvested | portfolio_engine/main.py:84-112 | the weights handed to the ledger are non-negative with total within the isclose tolerance of 1, exactly 1 when every forecast is present |
| EngineRuns.GatewayRecoversOrderlyRun | portfolio_engine/main.py:99-144 | orderly runs from an empty table store only positive equities, so for every lookback the gateway recovers every return |
| EngineLifetime.AllAttemptsAreSeparated | portfolio_engine/main.py:183-197 | over any sessions under a clock that never goes back, restarts included, no slot is attempted twice and each attempt is over before the slot of the next |
| EngineLifetime.RunsIncrease | portfolio_engine/main.py:78 | so the minutes the runs are stored under strictly increase, whatever fails |
| EngineLifetime.RunsAreOrderly | portfolio_engine/main.py:77-144 | every run, built from its inputs by covariance, optimiser, blend and price returns, is within the ledger's bounds |
| EngineLifetime.EngineOverItsLife | portfolio_engine/main.py:77-197 | from an empty ledger over any sessions, failures and inputs with returns >= m: the period P&L adds up, the clamp never acts and equity is the product of the factors and above its floor |
| EngineLifetime.GatewayOverItsLife | api_gateway/main.go:682-746 | and for every lookback the gateway recovers the engine's returns |
| EngineRows.EngineMarksToMarket | portfolio_engine/main.py:77-144 | the equity of any row of the engine, on any table, is the previous one marked to market at the prices of the period, less the fee |
| EngineRows.EngineStoresItsTargets | portfolio_engine/main.py:112-144 | the row holds the target weight of each symbol, a volatility that squares to the variance of exactly those weights, and a Sharpe proxy that times it is their mean return |
| EngineRows.SessionsInPlace | portfolio_engine/main.py:183-197 | the attempts of a life are those of each session, in order, none left out |
| EngineRows.OutcomesInPlace | portfolio_engine/main.py:189-192 | every attempt that stores a row reaches the ledger in its place, a failed one does not |
| RiskMetrics.Average | api_gateway/main.go:801-810 | the mean, 0 for no values |
| RiskMetrics.StdDev | api_gateway/main.go:812-827 | the root of the sample variance, without the guard against a negative one |
| Statistics.VarianceNonNegative | api_gateway/main.go:822-825 | that guard never fires |
| RiskMetrics.ReverseInPlace | api_gateway/main.go:719-721 | the swaps leave the reversed series |
| RiskMetrics.Accumulate | api_gateway/main.go:723-746 | the single loop computes returns, drawdown and both sums |
| RiskMetrics.ComputeRealizedSharpe | api_gateway/main.go:748-755 | mean over deviation, 0 at or below the threshold |
| RiskMetrics.ComputeRiskMetrics | api_gateway/main.go:682-767 | all metrics of the newest-first query result: time, volatility and Sharpe proxy are those of its first row, and it counts all rows |
| RiskMetrics.AveragesOfRows | api_gateway/main.go:739-764 | average turnover and fee drag times the number of rows are the sums over the rows, a fee share x of a row being given by x equity = fee, and 0 without positive equity |
| RiskMetrics.RealizedSharpeIs | api_gateway/main.go:748-755 | s^2 variance = mean^2 with the sign of the mean, and 0 for a variance of at most 1e-24 |
| RiskMetrics.DrawdownIsQuadratic | api_gateway/main.go:724-738 | for non-negative equities the one-pass value is the maximum over all i <= j of (e_i - e_j) / e_i, or 0, and at most 1 |
| RiskMetrics.MaxDrawdownUnique | api_gateway/main.go:724-738 | the quadratic definition determines the value |
| RiskMetrics.NegativeEquityBreaksIt | api_gateway/main.go:724-738 | non-negativity is needed: a concrete curve |
| RiskMetrics.DrawdownScaleInvariant | api_gateway/main.go:724-738 | rescaling all equities by c > 0 changes nothing |
| RiskMetrics.ReturnsTelescope | api_gateway/main.go:743-745 | returns over positive equities compound to last / first |
| RiskMetrics.ReturnsAre | api_gateway/main.go:743-745 | on any curve there is one return for each positive value but the last, in order, and value times 1 + return is the next value |
| Scheduler.NextIsLeastSlotAfter | portfolio_engine/main.py:54-58 | the least configured daily instant strictly after now, within 24 hours |
| Scheduler.SlotTimeOfDay | portfolio_engine/main.py:55 | the instants are hour:minute:00 of a day, and all of these |
| Scheduler.RebalanceLoop.Run | portfolio_engine/main.py:186-194 | the loop makes exactly the specified attempts for the clock readings it takes |
| Scheduler.EveryRunIsWellScheduled | portfolio_engine/main.py:183-194 | for every non-decreasing clock: attempts only for slots and never before them, slots strictly increasing, and a slot is skipped only if a rebalance was still running at it |
| Scheduler.OneAttemptPerPeriod | portfolio_engine/main.py:183-194 | no daily period sees two attempts |
| Scheduler.NoSlotIsMissed | portfolio_engine/main.py:183-194 | every attempt is made at the first turn that reaches its instant, and every instant the loop gets to see is attempted, or passed while the attempt for an earlier one was running |
| Scheduler.WakesInTime | portfolio_engine/main.py:196-197 | the sleep is positive and overshoots the awaited instant by less than a second plus the time since the reading it used |
| Scheduler.SleepIsLongest | portfolio_engine/main.py:196 | the sleep is the longest of whole seconds within the check interval and the time left, or one second if that is none |
| Features.ComputeFeatures | feature_engineering/features.py:27-55 | filling the columns window by window gives exactly the specified columns, NaN and infinite entries included |
| Features.LatestFeatureRow | feature_engineering/features.py:58-65 | the last entry of every column |
| Features.LastEntryOfSuffix | feature_engineering/features.py:9-53 | the last entry of a column with window w needs only the last w + 1 candles, two for the pointwise columns |
| Features.LatestRowOfSuffix | feature_engineering/features.py:58-65 | so the whole last row is the same on any suffix of the largest window plus two candles |
| Features.WindowIsDefined | feature_engineering/features.py:9-22 | with positive prices no return in the window of the last row is undefined, and its means and volatilities are present |
| Features.ReturnsTelescope | feature_engineering/features.py:9-11 | log returns add up to the log of the price ratio |
| Features.RetMeanIsLogRatio | feature_engineering/features.py:47 | the rolling mean is the log price ratio over the window, divided by its length |
| Statistics.VarianceDecomposition | feature_engineering/features.py:48 | (n - 1) variance + n mean^2 is the sum of squares |
| Features.RealizedVolDecomposition | feature_engineering/features.py:47-49 | realised volatility, standard deviation and mean of one row fit together: rv^2 = (w - 1) std^2 + w mean^2 |
| FeatureValues.PointwiseColumns | feature_engineering/features.py:40-44 | high-low range times close is high - low, 1 + volume change times the previous volume is the volume, and the squared return is the square of the return |
| FeatureValues.ReturnColumns | feature_engineering/features.py:47-52 | at positive prices mean, deviation and realised volatility of the last row satisfy their equations over the log returns of the last w candles, and skewness and kurtosis are those of the same returns |
| FeatureValues.ParkinsonColumn | feature_engineering/features.py:18-22 | at positive prices (4 ln 2) w pv^2 is the sum of the squared ln(high / low) of the last w candles |
| FeatureValues.VolumeColumn | feature_engineering/features.py:53 | the mean volume times w is the volume of the last w candles |
| FeatureValues.ColumnsPresent | feature_engineering/features.py:27-55 | the columns are the four pointwise ones and the seven rolling ones of each window, and no other |
| Consumer.FeatureService.Process | feature_engineering/main.py:69-92 | one message: cursor, price insert, bounded append, feature insert, as one step of the state |
| Consumer.FeatureService.Consume | feature_engineering/main.py:61-92 | the loop takes the state to what the messages from the cursor to the end of the log make of it |
| Consumer.FeatureService.Recover | feature_engineering/main.py:55-92 | a restart after a crash anywhere inside a message, on what is left of the stream: the prices of one uninterrupted pass, the buffers of what is left, and the features of that pass if what is left is enough |
| Consumer.FeatureService.Restart | feature_engineering/main.py:56-58 | the crash of the state machine: the tables stay, the buffers are lost, the cursor goes to the oldest message left |
| Consumer.StepKeepsConsistent | feature_engineering/main.py:60-92 | after every small step, arrival, trim, skip or crash the prices are those of a prefix of the uninterrupted pass and the buffers those of the messages seen |
| Consumer.StepKeepsFeaturesExactlyWhen | feature_engineering/main.py:88-92 | one event keeps the features on the uninterrupted pass if and only if a message handled for the first time inserts what that pass inserts |
| Consumer.AlwaysConsistentExactlyWhen | feature_engineering/main.py:55-92 | over any run they are on it at every moment if and only if every first insert is |
| Consumer.CrashReplayEquivalence | feature_engineering/main.py:55-92 | for every log, every sequence of crashes and every trimming of handled messages, whenever the consumer is at the end of the log: the prices equal those of one uninterrupted pass; the features do if at every first handling enough candles were left; the buffer of a symbol does if enough of its candles were read |
| Consumer.UntrimmedReplay | feature_engineering/main.py:55-92 | while nothing is trimmed both tables and all buffers do |
| StreamTables.RebuiltBufferExactlyWhen | feature_engineering/main.py:56-86 | a buffer rebuilt from part of the log equals the uninterrupted one if and only if min(size, count) candles of its symbol are left |
| StreamTrimming.ServiceInsertsTheSameExactlyWhen | feature_engineering/main.py:86-92 | with increasing times the service inserts the row of the uninterrupted pass if and only if the largest window plus two candles are left, or the whole log has fewer |
| StreamTrimming.TrimmedReplayLosesARow | ingestion/main.go:119-122 | a run of 61 candles, trim, crash and one more candle whose row is never written |
| Consumer.ThreeStepsAreProcess | feature_engineering/main.py:69-92 | the three small steps of the state machine are the method Process |
| Consumer.CatchesUp | feature_engineering/main.py:61-92 | three undisturbed steps for each unread message reach the end of the log and are the method Consume |
| Consumer.RecoveryIsWholePass | feature_engineering/main.py:55-92 | from any consistent state a crash and an undisturbed pass over what is left recover the prices, and the features if each message not yet handled finds enough |
| RingBuffer.SmallBufferYieldsNothing | feature_engineering/main.py:86-89 | a buffer below the minimum history never yields a feature row |
| StreamTables.BufferIsNewestHistory | feature_engineering/main.py:56-86 | each buffer is exactly the newest candles of its symbol, for any interleaving |
| StreamTables.PriceOfFirst | feature_engineering/db.py:112-121 | the price table holds the first candle of every key in the log, and nothing else |
| RingBuffer.TailsAgreeExactlyWhen | feature_engineering/main.py:37-42 | the last m rows of the sorted frame are those of the whole sorted history if and only if no dropped candle is later than the m-th newest kept one |
| RingBuffer.BoundedBufferAgreesWithHistory | feature_engineering/main.py:37-92 | for any log, repeated and out-of-order candles included, in which that holds at every message, the feature table equals the one computed from the whole history |
| RingBuffer.IncreasingIsAlwaysCovered | feature_engineering/main.py:56-86 | it holds when the times of each symbol increase |
| StoredRows.RowOfFirstFull | feature_engineering/db.py:137-147 | the table has a row under a key if and only if some message with it finds enough history, and it is the row of the first such buffer |
| StoredRows.StoredRowIsOwnExactlyWhen | feature_engineering/main.py:86-92 | the stored row is that of the newest candle of the sorted buffer of that message, its own if and only if no candle in the buffer is later |
| StoredRows.LateRowIsOfLaterCandle | feature_engineering/main.py:86-92 | after any 62 candles in time order and one from before them, the row of the late candle is the row of the last one |
| Labels.ComputeForwardRealizedVol | forecasting/labels.py:5-20 | the loop over the preallocated array computes the specified label of every price |
| Labels.LabelOfSuffix | forecasting/labels.py:10-20 | dropping earlier prices changes no label |
| Labels.LabelOfExtension | forecasting/labels.py:14-18 | appending later prices changes no label whose window is complete |
| Labels.LabelIsFutureRealizedVol | forecasting/labels.py:5-20 | the label of a price is the realised-volatility feature of the candle window rows later, except that an infinite label has an undefined feature |
| LabelValues.LabelCases | forecasting/labels.py:8-20 | on prices that are not negative: undefined exactly when the window is not complete or has two zeros in a row, a number exactly when all its prices are positive, plus infinity otherwise |
| LabelValues.LabelValue | forecasting/labels.py:8-20 | at positive prices the label is the non-negative root of the sum of the squared next log returns |
| Backfill.LabelOnSuffix | forecasting/inference.py:82-89 | labels computed on the prices since the start are those of the whole series |
| Backfill.CollectUpdates | forecasting/inference.py:87-96 | exactly the defined labels of the missing times |
| Backfill.ForecastStore.UpdateRealizedVol | forecasting/db.py:244-256 | each row of the symbol takes its last update, every other row stays |
| Backfill.ForecastStore.BackfillRealizedVol | forecasting/inference.py:77-98 | the whole new table: every due row gets its full-series label if defined, nothing else changes |
| LatePrices.InsertedBefore | forecasting/labels.py:10-20 | a price inserted at or before the labelled one changes no label |
| LatePrices.InsertedAfter | forecasting/labels.py:10-20 | nor does one inserted beyond the window |
| LatePrices.InsertedInsideExactlyWhen | forecasting/labels.py:10-20 | one inserted inside the window leaves a defined label unchanged if and only if the squared returns that enter the sum equal those that leave it |
| BackfillRuns.ArrivalKeepsLabelExactlyWhen | forecasting/db.py:228-241 | the label at a time survives the arrival of a price if and only if that is a repeat, outside the window, or leaves the sum of squares alone |
| BackfillRuns.StepKeepsSoundExactlyWhen | forecasting/inference.py:77-98 | one event keeps a written value equal to the label on the current series if and only if it is no such price |
| BackfillRuns.AlwaysSoundExactlyWhen | forecasting/inference.py:77-98 | over any run, in whatever order prices arrive, a row agrees with the full series at every moment if and only if no price ever changes its label once it is written |
| BackfillRuns.InOrderNeverDisturbs | forecasting/inference.py:77-98 | prices in time order never do |
| BackfillRuns.RunKeepsWritten | forecasting/db.py:211-225 | over any run a written value is never changed or removed |
| BackfillRuns.EverythingDueIsFilled | forecasting/inference.py:77-98 | in any history that contains a run for the symbol, a forecast due at that run with a label its prices define is filled at the end |
| BackfillRuns.BackfilledLabelsAreFinal | forecasting/inference.py:77-98 | over every history and continuation without such a price a written value had its whole window, never changes, and is the label of the complete series; late prices are allowed |
| BackfillRuns.LateArrivalBreaksFinality | forecasting/inference.py:77-98 | with the code's window of 5 and any logarithm, a run of arrivals, forecast, backfill and one late price ends with a written value that is not the label of its series |
| ClientRegistry.RunKeepsInv | api_gateway/main.go:589-620 | lock, history and counter invariants hold in every interleaving |
| ClientRegistry.CounterTracksClients | api_gateway/main.go:605-620 | the counter is the clients less registrations not yet counted plus at most one pending subtraction, hence exact when quiescent |
| ClientRegistry.SubtractedAtMostOnce | api_gateway/main.go:600-620 | each connection is subtracted at most once though broadcast and handler may both unregister it |
| ClientRegistry.ClientsHaveOwners | api_gateway/main.go:494-501 | in every interleaving each client belongs to a goroutine between inserting it and taking it out, so when all goroutines are done the map is empty and the counter is 0 |
| ClientRegistry.HandlerUnregisters | api_gateway/main.go:494-501 | in every interleaving, once the handler of a connection is over the connection has been in the map and is out of it, and until then the handler still has to take it out |
| ClientRegistry.BroadcastRemovesCollected | api_gateway/main.go:589-603 | in every interleaving, once a broadcast is over every connection whose write failed is out of the map, and until then the broadcast still has to take it out |
| ClientRegistry.MutualExclusion | api_gateway/main.go:589-620 | a holder of the write lock excludes every other writer and every collecting broadcast |
| ClientRegistry.CounterCanBeNegative | api_gateway/main.go:605-617 | an interleaving that takes the counter to -1 |

## Left out

- Floating-point rounding, overflow and the sign of zero. NaN and the infinities
  that a zero price or volume produces are modelled in the feature columns and
  the labels; elsewhere a missing value is an option type.
- `np.isnan` in the fallback test of the target weights (`portfolio_engine/main.py:89`):
  exact reals are never NaN.
- Redis, PostgreSQL and TimescaleDB, HTTP and websocket input and output: tables
  are maps with the stated conflict rule, streams are append-only sequences, and
  no database call fails. A failed insert ends the process; that is the crash event.
- Trimming of stream messages that were never handled to the end. Messages are read
  one at a time, not in batches of ten; a message may be read after it is trimmed
  (it was in the batch) or skipped.
- Messages that cannot be parsed, and two messages with the same stream id.
- The order in which `sort_index` leaves rows of one time, which pandas does not
  promise for its default sort: here they stay in order of arrival.
- `pivot` and `sort_index` over raw price rows (`portfolio_engine/allocator.py:38`):
  the panel is given as one row per time. A duplicate of time and symbol, which
  the table's key excludes, would raise there.
- `sort_values` in the backfill: the query already returns prices in time order.
- `estimate_mu`, `choose_target_vols`, `clampLimit`, `parseSymbols`, the retry and
  wait-for-ready loops: small case splits; the mean vector and the volatilities are
  arbitrary inputs of the theorems.
- GARCH and XGBoost fitting and prediction, training losses, rolling model metrics.
- Skewness and kurtosis: arbitrary functions of the window.
- Convergence of the optimiser: a fixed number of steps of a fixed size promises none.
- Ledger rows with NULL columns from before the migration, and a missing previous
  equity: the engine itself never writes one.
- `fetch_latest_prices`: the two price maps are inputs, with any content.
- Iteration limits below the number of symbols: the optimality, cap and limit
  theorems need `max_iter >= n`, that is up to 200 symbols. The long-only,
  fully-invested and order theorems hold for every limit.
- The `handleRiskMetrics` copy of the metrics loop (`api_gateway/main.go:372-427`):
  the same statements as `computeRiskMetrics`, and its clamp of the lookback.
- ProjectionExact.ProjectIsNearestExactlyWhen: at tolerance 0. At the code's
  tolerances ProjectionSlack.NearExactlyWhen has the condition for positive weights
  without surplus and at most 200 of them; with a surplus or with weights that are
  not positive the distance to the exact result is not bounded here.
- ProjectionCap.CapKeptExactlyWhen: at tolerance 0; at the code's tolerances the
  bounds from the two sides leave a gap of about n bands around a total of 1.
- How much a weight changes when it is inside the freezing band together with all
  others: then the loop does nothing, and the clipped weights are only divided by
  their total (CapSlack.NothingLiftedExactlyWhen).
- Fairness of the lock and of the scheduler of goroutines: the registry theorems
  are about safety.
