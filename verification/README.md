# Backtests, chart levels and stores, as a Dafny model

The project models the parts of a stock-research repository where a result depends on the
interplay of several steps: the backtest engine, the chart level and breakout scanner, the
ranking portfolio with its attribution, the replay store, the price files and a few numeric
loops. Every file under it is Dafny; `dafny verify dfyconfig.toml` checks all of it.

Loops of the source are methods with invariants, proved against a function; the results are
lemmas about that function or clauses of the method. Objects that change their fields are
classes (`MissedMoveStore`, `PlanStore`, `EventStore`, `PriceFile`).

| files | what they model |
|---|---|
| `Calendar` | `BDay` offsets and year offsets with the 29 February clamp, on day numbers and nanosecond timestamps |
| `IntervalGreedy`, `TradeSelection` | the non-overlapping trade selector, for any exit rule and for business-day exits |
| `TradeSimulation`, `RandomBaseline` | the model's own simulation and the random baseline that has to match its counts |
| `WalkForward`, `WalkForwardRun` | window generation, and training and predicting over the windows |
| `LevelClusters`, `BreakoutScan` | first-fit level clustering and the breakout scan with its early exit |
| `Books`, `PortfolioWeights`, `RankingPortfolio`, `RankingPeriods`, `RankingRun`, `RankingResults`, `HoldingPeriods`, `Attribution`, `RankingExamples` | weights, turnover, the ranking run as a state machine, its holding periods, attribution of its returns, and runs on which these surprise |
| `MissedMoves`, `MissedMoveBatches`, `PlanLog`, `EventLog` | the three tables of the replay store |
| `PriceRows`, `PriceBars`, `PriceStore` | the raw price file of a symbol: normalizing, merging, saving, appending |
| `Ranks`, `RankedPanel`, `RankBuckets`, `Drawdown`, `RelativeStrength` | numeric loops with an exact specification |
| `Numbers`, `Sequences` | minima, maxima and remainders; filtering, sorting, permutations and counting, used by the rest |

## Where the code does less than it says

Each of these is proved with the exact condition under which the code does meet the promise.

- The selector is meant to return the maximum non-overlapping set, and the random baseline is
  meant to be able to match the model's counts. For any stock of candidates, both hold of every
  choice from it exactly when clocks are in turn: where two candidates share an exit day (a Friday
  and the weekend after it) and the later one has the earlier time of day, no candidate of that exit
  day is stamped after the later one's time and up to the earlier one's. Daily bars at midnight, and
  weekday bars at any time, always meet this; Friday late, Saturday early, next Friday late do not.
- Walk-forward test windows are described as non-overlapping. They are exactly when `test_years` is
  1 or the data end before the second test span does; two test years on 2000 to 2003
  overlap, and a row is predicted once for each executed window that tests it. Test
  spans end at midnight of their last day: rows stamped later on that day are in no span.
- Portfolio periods are described as non-overlapping. For given panel dates no run overlaps exactly
  when a position opened on a rebalance date is closed by the next one; for weekday panels this means
  exactly that `hold_days` is no larger than `rebalance_days`. On weekend dates runs overlap even
  when both are equal.
- The short leg is stored with positive weights and compared with negated ones, so it pays half of
  all it held before and holds now, even if nothing changes: keeping both books is free exactly in
  long-only runs.
- Attribution ignores the position cap and halves each leg of a long/short run, a name on both sides
  counting as a short. Long-only it gives the portfolio's return, whatever the returns of the names,
  exactly when the cap does not bind; for two legs it gives half of it exactly when the cap does not
  bind and no name is on both sides. One eligible name is bought and sold at once, and attribution
  still charges it as a short.
- A cap of zero or less is ignored by the weights. A threshold of 0.0 counts as not set in
  `threshold_long`: a configured threshold decides the selection exactly if it is not zero.
- The existence checks of the replay store look symbols up in upper case, the statements store
  them as they are. For any other symbol `created` counts wrongly, and saving the same plan again
  fails instead of returning it. Only the upper-case symbols are safe.
- Saving plans A, B, A returns A, but B stays the latest plan.
- A missed move whose natural key belongs to one row and whose story key belongs to another aborts
  its whole batch. A new record whose id is taken is dropped and counted as updated. Over a set of
  records, every batch of them commits and stores its last record exactly when no record has the
  natural key of a second and the story key of a third that both differ from it in the other key, and
  ids repeat only with a key.
- The in-memory event store claims the semantics of the database store. Over a set of events it has
  them exactly when the plans of the events are known and two events have the same key in upper case
  exactly when they have the same id or the same key as it stands.
- Only three benchmark symbols are protected from losing stored dates to a save. A benchmark save
  that was accepted can be refused as truncated when it is repeated.
- On the same returns the drawdown of the backtest is smaller than that of the robustness study
  whenever the equity falls further below its start than from any of its own values, as on a single
  loss. The study's reported peak date can lie after the trough it is reported with: halving and then
  doubling the start does it.
- One pass over a curve finds the largest relative fall on all curves with values from a given set
  exactly when none of the values is negative or at most one is positive.

## Assumptions

- Prices, returns, weights and scores are exact reals; the comparisons against 1e-12 are kept as
  `EPS`. Rounding and NaN are not modelled; a missing field of a price row is `None`.
- `Timestamp + BDay(n)` moves the day as `Calendar.BDay` does and keeps the time of day; dates and
  timestamps are unbounded integers. A year offset keeps month and day, with 29 February becoming
  28 February in a year that has none.
- `rng.choice` returns any set of different positions of the requested size. The learner of a
  walk-forward run is any function of the training rows.
- Sorting is any sort where the source's tie order does not matter. "The last row of a date wins"
  needs a sort under which the last row of each date stays last, as it does under a stable sort, while
  the source sorts with the default kind: `PriceRows.KeepsLastRows` names that assumption, and results
  that do not need it only ask for `PriceRows.Sorts`.
- Symbols are numbers in alphabetical order in the backtest modules. Symbols passed to the price
  store are already stripped and in upper case. Upper-casing in the replay store is any function.

## Model

| member | source | states |
|---|---|---|
| Calendar.BDayStep | backtest/baselines.py:93-94 | one business day is the first weekday after the date, weekends included, and each further one is the next weekday after that |
| Calendar.BDayOrder | backtest/baselines.py:93-94 | business-day exits keep the order of entry days, come after the entry for positive offsets and never fall on a weekend |
| Calendar.BDayMergesOnlyWeekends | backtest/baselines.py:93-94 | two days share an exit day only if the later one is on a weekend |
| Calendar.BDaySkipsSaturdaysAndSundays | backtest/baselines.py:93-94 | counted from Saturday 1 January 2000: one business day leads to the first day after that is neither Saturday nor Sunday, further and backward offsets follow step by step, and none leaves a weekday as it is |
| Calendar.CivilRoundTrip | models/walk_forward.py:78-98 | civil dates and day numbers are in bijection |
| Calendar.DayNumberOrder | models/walk_forward.py:78-98 | day numbers order civil dates by year and position in the year |
| Calendar.AddYearsMonotone | models/walk_forward.py:82-97 | year offsets keep the order of days, and more years lead strictly further, in spite of the clamp |
| Calendar.OneYearCommutes | models/walk_forward.py:82-97 | adding n years and then one is adding one and then n, even from 29 February |
| Calendar.NextDay | models/walk_forward.py:83-89 | the calendar: what the day after a date is, by month end and the leap-year rule written out |
| Calendar.YearOffsetClamps | models/walk_forward.py:82-97 | a year offset keeps month and day, except that 29 February becomes 28 February in a year that has none |
| IntervalGreedy.SelectionIsSpacedAndCovers | backtest/baselines.py:124-144 | the selection is chronological and pairwise non-overlapping, and every candidate left out is blocked by one that was taken |
| IntervalGreedy.SelectionIsTheOnlySpacedCover | backtest/baselines.py:124-144 | no other list of candidates has that property |
| IntervalGreedy.SelectionIsLargest | backtest/baselines.py:124-144 | for exits in turn no set of candidates without overlaps is larger |
| IntervalGreedy.FewerCandidatesFewerTrades | backtest/metrics.py:248-276 | for exits in turn dropping candidates never gains a trade |
| IntervalGreedy.EarlierExitDefeatsGreedy | backtest/baselines.py:124-144 | a later candidate that exits sooner, with a third one entered between the two exits, makes the pass take one trade where two fit |
| IntervalGreedy.MaximumExactlyWhenExitsAreInTurn | backtest/baselines.py:124-144 | for any stock of candidates, one list for instance: the pass is a maximum for every choice from it, and monotone in the choice, if and only if a candidate after some trade's exit is after the exits of all trades entered before that one |
| IntervalGreedy.MaximumExactlyWhenExitsAreOrdered | backtest/baselines.py:124-144 | exits are in the order of entries if and only if the same holds of every choice from the stock and any one date that follows |
| TradeSelection.ExitsInTurnExactlyWhenClocksAre | backtest/baselines.py:93-108 | business-day exits are in turn exactly when no candidate of a shared exit day is stamped between two times of day that are out of order |
| TradeSelection.ExitsOrderedExactlyWhenClocksAre | backtest/baselines.py:93-108 | business-day exits are in the order of entries exactly when candidates sharing an exit day have ordered times of day |
| TradeSelection.DailyBarsHaveOrderedClocks | backtest/baselines.py:93-94 | midnight stamps on any day, and weekday stamps at any time, meet both conditions |
| TradeSelection.SelectionIsMaximumForClocksInTurn | backtest/baselines.py:124-144 | the selector returns a maximum set for all dates with clocks in turn, duplicates and weekends included, for any hold |
| TradeSelection.SelectorIsRightExactlyWhenClocksAreInTurn | backtest/baselines.py:111-144 | for any stock of dates: maximum for every choice, and monotone, if and only if the clocks are in turn |
| TradeSelection.SelectorIsRightExactlyWhenClocksAreOrdered | backtest/baselines.py:111-144 | clocks are ordered if and only if the selector is right for every choice from the stock and any one date that follows |
| TradeSelection.SaturdayMorningDefeatsSelector | backtest/baselines.py:124-144 | Friday late, Saturday early, next Friday late: one trade is taken, two fit |
| TradeSelection.SelectionTakesAllThatFit | backtest/baselines.py:124-144 | the selection is the one choice of dates in which each comes after the business-day exit of all before, and every other date lies in a holding period |
| TradeSelection.BuildMaxNonOverlappingTradeSet | backtest/baselines.py:124-144 | the method fails exactly for lists of different lengths, else returns the selection: entries after all earlier exits, every other candidate within a holding period, each with its own return |
| TradeSelection.CountMaxNonOverlappingTrades | backtest/baselines.py:111-121 | the count is the size of the selection, and of such a choice of dates |
| TradeSelection.RngChoice | backtest/baselines.py:170-172 | any set of that many different positions |
| TradeSelection.SelectRandomNonOverlappingTrades | backtest/baselines.py:147-173 | none for a count of zero or less, an error for more than the maximum, else exactly the requested number of candidates, each entered after the exits of those before |
| TradeSimulation.SymbolTradesAreGreedy | backtest/metrics.py:248-276 | the filtered pass with its `blocked_until` takes the greedy selection of the rows that pass the filter |
| TradeSimulation.BlocksHoldEachSelection | backtest/metrics.py:248-276 | every symbol's entries in the combined trades are its own selection |
| TradeSimulation.SimulateNonOverlappingTrades | backtest/metrics.py:225-281 | fails exactly when there is a threshold, a row predicted up and no probability column; else every trade has a row predicted up at or over the threshold, with its date, its return less bps / 10000 and an exit `hold` business days on; every such row is dated within a trade of its symbol; trades of a symbol do not overlap and are reported by entry and symbol |
| TradeSimulation.SimulatedRowByRow | backtest/metrics.py:248-281 | the same, said of the selections of all symbols, in the fields of rows and trades |
| RandomBaseline.SimulateRandomNonOverlappingTrades | backtest/baselines.py:176-219 | fails exactly when some symbol's count exceeds its maximum, else every symbol with rows has exactly the wanted number of trades, each on a row of its symbol with that row's return less the cost, without overlaps |
| RandomBaseline.TooManyRowByRow | backtest/baselines.py:200-210 | a count is too high exactly when fewer of the symbol's dates lie five business days apart and block all its other dates |
| RandomBaseline.ComputeRandomTradeBaseline | backtest/baselines.py:222-260 | fails exactly when a run is asked for and some symbol's dates hold fewer trades than the model made; else as many runs as asked for, with those counts |
| RandomBaseline.BacktestBaseline | backtest/baselines.py:303-351 | the model trades are the long signals as simulated; the baseline fails exactly when some symbol's dates hold fewer trades than the model made, which is exactly when the filter lets through more than all its days hold; else every run has trades on own rows, without overlaps, as many per symbol as the model |
| RandomBaseline.CountsTooHighExactlyWhenModelOutTrades | backtest/baselines.py:240-251 | the counts are too high exactly when the filtered selection is larger than the unfiltered one |
| RandomBaseline.ConfidenceOnlyRemovesTrades | backtest/metrics.py:210-222 | with clocks in turn the baseline can always be met and a higher threshold never adds a trade for any symbol |
| RandomBaseline.BaselineCanBeMetExactlyWhenClocksAreInTurn | backtest/baselines.py:147-173 | for any stock of dates: the baseline can be met for all predictions on them, and a higher threshold never adds a trade, if and only if the clocks are in turn |
| RandomBaseline.BaselineCanBeMetExactlyWhenClocksAreOrdered | backtest/baselines.py:147-173 | clocks are ordered if and only if that holds on the stock and any one date that follows |
| WalkForward.GenerateWalkForwardWindows | models/walk_forward.py:59-100 | fails exactly for years that are not positive; else windows numbered from zero, the first from the day of the start date or earliest date, each a year after the one before, with the training years, then the test years, to the day; all end by the end date or latest date, and one more would not |
| WalkForward.WindowsUpTo | models/walk_forward.py:78-100 | the unbounded loop ends with exactly these windows, for any year offset with the three laws |
| WalkForward.WindowsRollForward | models/walk_forward.py:78-100 | the same of the fields of the windows: numbers, starts, spans and where they stop |
| WalkForward.AddYearsObeysCalendarLaws | models/walk_forward.py:82-97 | the clamped year offset has the three laws the window results need |
| WalkForward.OneTestYearTiles | models/walk_forward.py:82-97 | training ends the day before testing starts; with one test year, test spans tile one interval without gap or overlap |
| WalkForward.TestSpansDisjointExactlyForOneTestYear | models/walk_forward.py:59-100 | test spans are disjoint if and only if there is one test year or the data end before the second test span, counted from the first training day |
| WalkForward.TwoTestYearsOverlap | models/walk_forward.py:59-100 | two test years and one training year on data from 2000 to 2003: two windows that overlap |
| WalkForward.EveryMidnightIsTestedOnce | models/walk_forward.py:238-244 | between the first test start and the last test end a timestamp lies in exactly one span, unless it is later than midnight on the last day of a span |
| WalkForwardRun.RunWalkForward | models/walk_forward.py:103-178 | the windows roll forward over the dates of the panel; window by window, enough training rows and enough test rows give one prediction for each row of the test span, by the model learned from the rows of the training span, and otherwise none |
| WalkForwardRun.AllPredictedByWindow | models/walk_forward.py:123-178 | that, of spans of rows picked by date, both ends included, in the order of the panel |
| WalkForwardRun.NoLookAhead | models/walk_forward.py:123-125 | every prediction comes from a model trained on a window's rows, all dated before the row predicted |
| WalkForwardRun.PredictedAsOftenAsPresent | models/walk_forward.py:123-178 | with disjoint spans a row is predicted as often as it occurs if an executed window tests it, else never |
| WalkForwardRun.PredictedOncePerSpan | models/walk_forward.py:123-178 | for any windows: a row is predicted once for each of its occurrences and each executed window that tests it |
| WalkForwardRun.PredictedTooOftenExactlyWhen | models/walk_forward.py:123-178 | for any windows: a row is predicted more often than it occurs if and only if it occurs and two executed windows test it |
| WalkForwardRun.TwoTestYearsPredictTwice | models/walk_forward.py:103-178 | two test years on 2000 to 2003: a row of 1 January 2002 is predicted twice |
| WalkForwardRun.OneTestYearPredictsOnce | models/walk_forward.py:103-178 | with one test year no row is predicted more often than it occurs, and only from earlier rows |
| WalkForwardRun.LaterDataOnlyAddsPredictions | models/walk_forward.py:103-178 | later rows leave every prediction already made as it was, and can only add some |
| LevelClusters.Place | analysis/pattern_intelligence/chart_analysis.py:526-535 | trying every cluster in turn only ever joins the last one or opens a new one |
| LevelClusters.LastFitMakesRuns | analysis/pattern_intelligence/chart_analysis.py:524-535 | clusters are runs of the sorted prices: members within tolerance of their anchor, later anchors out of it |
| LevelClusters.RunsAreCutWhereOutOfReach | analysis/pattern_intelligence/chart_analysis.py:636-644 | the same with the reach written out in prices |
| LevelClusters.ConfiguredToleranceGrows | analysis/pattern_intelligence/chart_analysis.py:636-644 | the configured tolerance is not negative and its reach grows with a positive anchor |
| LevelClusters.NoGroupingIsSmaller | analysis/pattern_intelligence/chart_analysis.py:524-535 | no grouping of positive prices under the same rule has fewer groups |
| LevelClusters.ClusterLevels | analysis/pattern_intelligence/chart_analysis.py:524-535 | the clusters are a permutation of the candidates in price order; each level is within the larger of its anchor's size times the percentage and the average true range times the band, each later anchor is beyond both, and there are as few as possible |
| BreakoutScan.DecisionsAreInOrder | analysis/pattern_intelligence/chart_analysis.py:1082-1113 | a later pierce is never decided on an earlier bar |
| BreakoutScan.SameBarSameOutcome | analysis/pattern_intelligence/chart_analysis.py:1082-1113 | pierces of a positive level decided on one bar are decided alike |
| BreakoutScan.EarlyExitIsSound | analysis/pattern_intelligence/chart_analysis.py:1082-1113 | the scan reports exactly when some pierce in the lookback was decided recently, and no pierce was decided on a later bar than the one it reports |
| BreakoutScan.SupportScanIsReflection | analysis/pattern_intelligence/chart_analysis.py:1115-1146 | the support scan is the resistance scan of the chart reflected in the level |
| BreakoutScan.ScanResistance | analysis/pattern_intelligence/chart_analysis.py:1082-1113 | finds the latest recent decision: a high over the level by 0.1% fails at the first later close below the level, else is confirmed if the last bar followed closes 0.2% over it; nothing if no such decision is recent |
| BreakoutScan.ScanSupport | analysis/pattern_intelligence/chart_analysis.py:1115-1146 | the same below a support: a low under it by 0.1%, a close above it, a close 0.2% under it |
| BreakoutScan.DecisionAbove | analysis/pattern_intelligence/chart_analysis.py:1084-1111 | what becomes of one pierce of a resistance, exactly, in highs and closes |
| BreakoutScan.DecisionBelow | analysis/pattern_intelligence/chart_analysis.py:1117-1144 | and of a support, in lows and closes |
| BreakoutScan.DetectBreakoutEvents | analysis/pattern_intelligence/chart_analysis.py:1054-1157 | nothing below 25 bars, else zone by zone for the first two resistances and then the first two supports: the latest recent decision at its upper or lower price, failed or confirmed as above, or nothing if there is none |
| BreakoutScan.EventsAreRecentDecisions | analysis/pattern_intelligence/chart_analysis.py:1148-1157 | a zone has an event if and only if some pierce of its level was decided recently, and the event is the latest decided one |
| PortfolioWeights.RefillRound | backtest/portfolio_weights.py:35-45 | the loop over the names makes one round and keeps the total of weights and remainder |
| PortfolioWeights.RoundWeightByWeight | backtest/portfolio_weights.py:35-45 | every adjustable weight rises by the increment or to the cap, no other moves, and the names clearly below the cap are left |
| PortfolioWeights.RoundMakesProgress | backtest/portfolio_weights.py:35-45 | a round hands out everything or fills some name up |
| PortfolioWeights.Refill | backtest/portfolio_weights.py:27-45 | from any weights below the cap: total plus remaining is conserved, weights only rise, none above the cap, at most one round per name, and it stops with nothing left or all names full |
| PortfolioWeights.Settle | backtest/portfolio_weights.py:47-53 | equal weights when nothing was assigned, scaled down to the gross exposure when more was assigned |
| PortfolioWeights.CappedEqualWeights | backtest/portfolio_weights.py:17-53 | from the equal start the refill loop does not run: every name gets the equal share, or the cap where that is positive and lower |
| PortfolioWeights.CappedBookTotals | backtest/portfolio_weights.py:17-53 | for different names: weights positive and within a positive cap, total the smaller of gross and n times cap; a cap of zero or less does nothing |
| PortfolioWeights.OrderOfNamesIsIrrelevant | backtest/portfolio_weights.py:17-53 | any permutation of the names gives the same weights |
| RankingPortfolio.ThresholdDecidesExactlyUnlessZero | backtest/ranking_portfolio.py:65-102 | a configured threshold decides the long selection of `threshold_long` for all rankings exactly if it is not 0.0 |
| RankingPortfolio.RankingsExist | backtest/ranking_portfolio.py:65-102 | the assumption on sorting by score can be met |
| RankingPortfolio.SelectionIsBest | backtest/ranking_portfolio.py:65-102 | for any way of breaking ties: no eligible row left out scores higher than one bought, or lower than one shorted; the fraction rounded up, at least one; `top_n` names; or exactly the rows at the threshold |
| RankingPortfolio.WeightedPortfolioReturn | backtest/portfolio_weights.py:56-71 | fails exactly when a held symbol has two rows on the date, else the weighted sum, missing symbols earning nothing |
| RankingPortfolio.ComputeTurnover | backtest/ranking_portfolio.py:119-129 | half the sum of weight changes over the union of both books' symbols |
| RankingPortfolio.TurnoverTriangle | backtest/ranking_portfolio.py:119-129 | trading through another book never turns over less |
| RankingPortfolio.TurnoverIsDistance | backtest/ranking_portfolio.py:119-129 | never negative, symmetric, zero exactly when no weight changes |
| RankingPortfolio.TurnoverBound | backtest/ranking_portfolio.py:119-129 | at most half of what two long books hold together |
| RankingPortfolio.ShortLegTurnover | backtest/ranking_portfolio.py:203-219 | the short leg's turnover is always half of everything held before and after |
| RankingRun.SimulateRankingPortfolio | backtest/ranking_portfolio.py:136-247 | fails exactly for days that are not positive, or on a name with two rows; else one period for every rebalance-th date of the panel with two rows and something to select, each with the best names bought and the worst shorted, the return of its legs, its turnover and its costs |
| RankingRun.Rebalance | backtest/ranking_portfolio.py:165-245 | one pass of the loop is a step of the run: skipped without a selection, else priced, traded against the previous books, charged and recorded |
| RankingRun.RunRowByRow | backtest/ranking_portfolio.py:136-247 | every run of a ranking by score consists of such periods, entered on such dates |
| RankingRun.TradedIsPeriod | backtest/ranking_portfolio.py:165-245 | a traded period in its fields: rows of its date, names by score, gross return, turnover, net return and exit |
| RankingRun.RunEntersRebalanceDates | backtest/ranking_portfolio.py:378-384 | one period, in order, for every n-th date of the panel on which something can be traded |
| RankingRun.FailsOnAmbiguousName | backtest/portfolio_weights.py:66-71 | a run fails only if a name that may be selected has two rows on a date |
| RankingPeriods.LegReturnOfBook | backtest/portfolio_weights.py:56-71 | the return of a leg is its weight times the sum of its names' returns |
| RankingPeriods.TurnoverOfEqualBooks | backtest/ranking_portfolio.py:119-129 | long turnover: half of the names sold at the old weight, those bought at the new one and those kept by the difference |
| RankingPeriods.TurnoverOfNegatedBooks | backtest/ranking_portfolio.py:215-219 | short turnover: half of everything held before and after |
| RankingResults.RunIsAccounted | backtest/ranking_portfolio.py:165-245 | every period of every run was traded from the books of the period before, and its costs, turnover and exit date follow from them |
| RankingResults.CostsAreTurnoverAtTheRate | backtest/ranking_portfolio.py:231-232 | gross minus net, summed over a run, is total turnover at the configured basis points |
| RankingResults.LongOnlyTurnoverBounds | backtest/ranking_portfolio.py:119-129 | in a long-only run every turnover is between 0 and 1, the first at most one half |
| RankingResults.TurnoverIsAtLeastDirect | backtest/ranking_portfolio.py:165-245 | turnover paid between two points of a long-only run is at least the direct turnover between their books |
| RankingResults.UnchangedBookIsFreeOnlyLongOnly | backtest/ranking_portfolio.py:203-231 | keeping both books is free exactly in long-only runs; otherwise it costs the whole short book |
| RankingExamples.UnchangedLegsTurnOver | backtest/ranking_portfolio.py:203-231 | a long/short run that keeps both books and still turns over one half |
| RankingResults.PanelDatesAreFurther | backtest/ranking_portfolio.py:378-384 | on weekday panels n panel dates are at least n business days |
| RankingResults.HoldingPeriodsDoNotOverlap | backtest/ranking_portfolio.py:165-182 | with weekday dates and holds within the rebalance interval, every period ends by the entry of any later one, skipped dates included |
| HoldingPeriods.PeriodsDoNotOverlapExactlyWhen | backtest/ranking_portfolio.py:165-182 | for any panel dates, weekends included: no run over panels with these dates has overlapping periods if and only if every position opened on a rebalance date is closed by the next one |
| HoldingPeriods.WeekdayPeriodsDoNotOverlapExactlyWhen | backtest/ranking_portfolio.py:165-182 | for a given configuration: no run over any weekday panel has overlapping periods if and only if holds are within the rebalance interval, or the configuration never trades |
| HoldingPeriods.LongHoldsOverlap | backtest/ranking_portfolio.py:378-384 | longer holds: a run over a panel of consecutive business days that overlaps |
| HoldingPeriods.WeekendDatesOverlap | backtest/ranking_portfolio.py:378-384 | holds equal to the interval: a run over a panel with weekend dates that overlaps |
| Attribution.AttributePortfolioPeriods | backtest/alpha_attribution.py:15-98 | every symbol's bucket counts its long and its short periods with a row and adds its returns at equal weight, halved with two legs, a name on both sides being short; all buckets add up to the total |
| Attribution.SymbolSumPeriodByPeriod | backtest/alpha_attribution.py:38-77 | the same of the fold over the periods, in names, first rows and returns |
| Attribution.PeriodsHeldAreLongOrShort | backtest/alpha_attribution.py:39-80 | long and short periods make up the periods held |
| Attribution.SharesSumToOne | backtest/alpha_attribution.py:82-98 | shares of a total other than zero add up to one |
| Attribution.LegsAreDisjointExactlyWhen | backtest/ranking_portfolio.py:65-102 | top and bottom k of n different names share none exactly when 2k is at most n |
| Attribution.FifthsAreDisjointFromTwoNames | backtest/ranking_portfolio.py:58-62 | at a fraction of one fifth that is from two names on |
| Attribution.TwoLegPeriodAttribution | backtest/alpha_attribution.py:39-80 | for any two legs of equal size: the portfolio earns twice what is invested times the attributed return plus the part of the names on both sides |
| Attribution.OneNameOnBothSides | backtest/alpha_attribution.py:39-80 | a period of a run with a single eligible name earns nothing and is attributed half its return as a short |
| RankingExamples.OneNameIsCharged | backtest/alpha_attribution.py:39-80 | a run with one eligible name that earns nothing and is charged one half |
| Attribution.CapIsIgnoredExactlyUnlessItBinds | backtest/alpha_attribution.py:51-52 | long-only: attribution gives the return of the capped portfolio for all returns of its names if and only if the cap does not bind |
| Attribution.LegsAreAttributedHalfExactlyWhen | backtest/alpha_attribution.py:44-50 | two legs of equal size: their return is twice the attribution for all returns of the names if and only if the cap does not bind and no name is on both sides |
| RankingExamples.BindingCapIsIgnored | backtest/alpha_attribution.py:39-93 | a run with a cap of one half that earns one half and is attributed one |
| Attribution.RunIsAttributedInProportion | backtest/alpha_attribution.py:39-80 | for every period of every run: gross return is its attribution, with the shared names put back, times what the cap leaves invested, twice that for long/short |
| Attribution.AttributionConservesReturn | backtest/alpha_attribution.py:39-93 | with a cap that does not bind: contributions add up to the gross returns of a long-only run; for long/short, contributions and the part of the shared names add up to exactly half of them, so contributions alone do if and only if that part is zero |
| Attribution.HalfIsAttributedWhenLegsFit | backtest/alpha_attribution.py:39-93 | if the legs fit on the dates that were traded, contributions add up to exactly half |
| MissedMoves.MissedMoveStore.SaveMissedMoves | app/adapters/trade_replay_oracle_store.py:389-514 | commits exactly if no record finds its move and its events on two rows; then, one after the other, each record replaces the row with its move or else its events, keeping id and creation time, or is inserted unless its id is taken; returns the created count; else the table is as before |
| MissedMoves.MergeOutcome | app/adapters/trade_replay_oracle_store.py:425-473 | when the merge succeeds, what it stores, what it leaves alone and how many rows it adds |
| MissedMoves.StoryUpdateOutcome | app/adapters/trade_replay_oracle_store.py:687-721 | the fallback update violates a constraint exactly when the keys belong to different rows; it stores the record if the story key is present and else changes nothing |
| MissedMoves.SaveOneOutcome | app/adapters/trade_replay_oracle_store.py:474-500 | one record aborts exactly on such a clash, else it is stored, or dropped if it is new and its id is taken; how the counters move |
| MissedMoves.SaveOnePuts | app/adapters/trade_replay_oracle_store.py:389-514 | what one record does to the table, field by field |
| MissedMoves.SaveOneCounts | app/adapters/trade_replay_oracle_store.py:470-490 | when it counts as created: no row with the move in upper case, and the merge went through |
| MissedMoves.BatchKeepsConstraintsAndCounts | app/adapters/trade_replay_oracle_store.py:474-500 | a committed batch keeps both unique keys and every row, created plus updated is its size, and for upper-case symbols created is the number of rows added |
| MissedMoves.CreatedCountsRowsExactlyForUpperCase | app/adapters/trade_replay_oracle_store.py:656-685 | the created count is right on every table exactly for a symbol that is its own upper case |
| MissedMoves.LatestWriteWins | app/adapters/trade_replay_oracle_store.py:425-500 | a saved record is in the table after the batch unless a later record used one of its keys or it was dropped |
| MissedMoveBatches.BatchesCommitExactlyWhen | app/adapters/trade_replay_oracle_store.py:474-500 | over records whose ids repeat only with a key: every batch of them commits if and only if no record has the natural key of a second and the story key of a third that differ from it in the other key |
| MissedMoveBatches.RecordsAreStoredExactlyWhen | app/adapters/trade_replay_oracle_store.py:474-500 | over any records: every batch of them commits and stores its last record if and only if there is no such clash and ids repeat only with a key |
| MissedMoveBatches.NoBatchOfRunAborts | app/adapters/trade_replay_oracle_store.py:389-514 | without such a clash no batch aborts after any sequence of saves |
| MissedMoveBatches.LatestRecordWins | app/adapters/trade_replay_oracle_store.py:425-500 | with both conditions the latest record of its keys is stored, without exception |
| MissedMoveBatches.ThreeRecordsAbort | app/adapters/trade_replay_oracle_store.py:495-497 | two records that commit, and a third with which the batch aborts |
| MissedMoveBatches.SecondRecordIsDropped | app/adapters/trade_replay_oracle_store.py:474-500 | two records with one id: the second is dropped and counted as updated |
| MissedMoves.ReachableTablesAreValid | app/adapters/trade_replay_oracle_store.py:109-114 | after any sequence of batches, aborted ones included, both keys are unique and no row is lost |
| PlanLog.PlanStore.SavePlanIfChanged | app/adapters/trade_replay_oracle_store.py:254-304 | the latest plan of the upper-case slot is returned if it has the signature; else a plan with new id and signature is added; else a stored plan with the signature is returned, or an integrity error; constraints are kept |
| PlanLog.SaveFieldByField | app/adapters/trade_replay_oracle_store.py:254-331 | that, field by field |
| PlanLog.SaveReturnsRequestedSignature | app/adapters/trade_replay_oracle_store.py:254-304 | a save returns the requested signature and reports a creation exactly when it added one row; a failure changes nothing |
| PlanLog.SaveFailsExactlyOnTakenId | app/adapters/trade_replay_oracle_store.py:268-304 | for an upper-case symbol it fails exactly when the id is taken and the signature is new |
| PlanLog.ResavingSucceedsExactlyForUpperCase | app/adapters/trade_replay_oracle_store.py:306-331 | saving again succeeds without a new row exactly for upper-case symbols |
| PlanLog.SavedIsLatestExactlyWhen | app/adapters/trade_replay_oracle_store.py:306-331 | the saved signature is the latest one exactly if it already was, or is new to the table and the plan is no older than the latest |
| PlanLog.SavingAgainDoesNotMakeLatest | app/adapters/trade_replay_oracle_store.py:254-304 | A, B, A returns A without a new row and leaves B the latest |
| PlanLog.ReachablePlanTablesAreValid | app/adapters/trade_replay_oracle_store.py:45 | any sequence of saves keeps the unique signature, the ids and every row |
| EventLog.EventStore.AppendEvents | app/adapters/trade_replay_oracle_store.py:333-360 | appends, in order, exactly the events that have a known plan or none and share neither id nor symbol, date, workflow, type and key with a row before; the count is the number of rows added |
| EventLog.AppendFieldByField | app/adapters/trade_replay_oracle_store.py:333-360 | the positions in the batch that are appended, and why the others are not |
| EventLog.MemoryAppendFieldByField | app/services/trade_replay_service.py:187-202 | the same for the in-memory store, which only compares fields, symbols in upper case |
| EventLog.AppendKeepsLog | app/adapters/trade_replay_oracle_store.py:72-74 | the log only grows, by events of the batch, and its keys stay unique |
| EventLog.SplittingBatchesChangesNothing | app/adapters/trade_replay_oracle_store.py:333-360 | one batch or two parts of it give the same table |
| EventLog.ReplayAddsNothing | app/adapters/trade_replay_oracle_store.py:333-360 | replaying any events of a batch, in any order, adds nothing |
| EventLog.FirstEventWins | app/adapters/trade_replay_oracle_store.py:333-360 | the first event with a key is stored as it came |
| EventLog.MemoryStoreAgrees | app/services/trade_replay_service.py:187-202 | on events with known plans and agreeing keys both stores give the same log |
| EventLog.MemoryStoreAgreesExactlyWhen | app/services/trade_replay_service.py:149-202 | over a set of events the stores agree on all tables and batches drawn from it if and only if plans are known and two events have the same upper-case key exactly when they have the same id or key; batches on an empty log suffice |
| EventLog.MixedCaseIsToldApart | app/services/trade_replay_service.py:190-202 | two events whose symbols differ in case: one is kept in memory, both in the database |
| PriceRows.NormalizeIsNormal | data/store.py:179-203 | a normalized file has strictly increasing dates and valid bars, and exactly the dates that have a valid row |
| PriceRows.NormalizeIsIdempotent | data/store.py:179-203 | normalizing a normal file changes nothing, whatever the sort does with ties |
| PriceRows.NormalizeKeepsLastValid | data/store.py:201-202 | with a sort that keeps last rows last, the last valid row of every date is kept |
| PriceRows.LastValidIsKeptExactlyWhen | data/store.py:201-202 | and for all rows only with such a sort |
| PriceRows.MergeOverrides | data/store.py:57-69 | merging keeps every date of both sides; with such a sort it is the old map overridden by the new rows |
| PriceRows.MoreDatesMoreRows | data/store.py:101 | a normal file with all dates of another has at least as many rows |
| PriceRows.StableSortersExist | data/store.py:201 | the assumption on the sort can be met |
| PriceBars.NormalizedRowsAreGood | data/store.py:179-203 | a normalized frame: rows that arrived, in the order of dates, with positive prices and a positive volume, zero allowed for `^VIX` and `VIX`; one for every date on which such a row arrived |
| PriceBars.NormalizedRowsAreLast | data/store.py:201-202 | with a stable sort it is the last such row of the date |
| PriceBars.MergedRowsHoldBoth | data/store.py:57-69 | a merged file: rows of either file, one for every date of both |
| PriceStore.PriceFile.SaveRaw | data/store.py:28-49 | missing columns and no good row are refused; the good rows are the new file, except for an existing file of `SPY`, `^VIX` or `VIX`: an earlier last day is refused, less than half its rows and no later day is refused, else old and new rows are both held and the new ones win; a refusal leaves the file as it was |
| PriceStore.PriceFile.AppendRaw | data/store.py:206-218 | refused exactly for missing columns, or with neither file nor good row; else the file holds a row for every date of both, the new ones winning; a refusal leaves it as it was |
| PriceStore.PriceFile.AtomicWrite | data/store.py:116-144 | the file is replaced exactly if what is written holds a good bar |
| PriceStore.PriceFile.LoadRaw | data/store.py:147-157 | fails exactly without a file; what is loaded are good rows, the last one for every date that has one, and the file itself if that is one |
| PriceStore.NormalRowsPass | data/store.py:116-157 | normal rows are written and read back unchanged |
| PriceStore.SaveOutcome | data/store.py:28-49 | when a save is refused, with which error, and what it writes, in terms of the valid rows |
| PriceStore.SavedBarByBar | data/store.py:28-113 | what a save refuses and stores, in bars, literals and dates |
| PriceStore.AppendedBarByBar | data/store.py:206-218 | and what an append does |
| PriceStore.ReplacementOutcome | data/store.py:81-113 | the guard refuses exactly older data, and data with less than half the rows that is no newer; else it merges |
| PriceStore.AppendOutcome | data/store.py:206-218 | an append to an existing file fails exactly for missing columns: the guard never stops it |
| PriceStore.AppendWritesMerged | data/store.py:206-218 | what gets past the guard is the merged file, merged once more for a benchmark |
| PriceStore.SavedContent | data/store.py:28-49 | an accepted save overrides for a benchmark and replaces for any other symbol |
| PriceStore.AppendedContent | data/store.py:206-218 | an accepted append overrides for every symbol |
| PriceStore.RunKeepsFile | data/store.py:28-218 | over any run of saves and appends, refused ones included, the file stays normal and not empty; with appends and benchmark saves only, no date is lost and the latest date never goes back |
| PriceStore.RunOverrides | data/store.py:28-218 | after such a run the file is the old one overridden by the valid rows of all accepted operations |
| PriceStore.ContentDeterminesRows | data/store.py:57-69 | normal files with equal contents are equal |
| PriceStore.AppendingInBatches | data/store.py:206-218 | appending rows in two batches or in one gives the same file |
| PriceStore.AppendingAgain | data/store.py:206-218 | appending the same rows again changes nothing |
| PriceStore.SavingAgain | data/store.py:94-106 | an accepted benchmark save can be repeated exactly if it holds at least half of the rows it left, and then changes nothing |
| PriceStore.FewNewerRowsAreSavedOnce | data/store.py:94-106 | newer rows, fewer than half of those stored: accepted once, refused as truncated when repeated |
| PriceStore.OneNewRowIsSavedOnce | data/store.py:94-106 | for instance one new row on top of four |
| PriceStore.SavesKeepDatesExactlyForBenchmarks | data/store.py:40-47 | saves keep all stored dates for every file and frame if and only if the symbol is a benchmark |
| Ranks.RanksAreNumbering | analysis/signal_diagnostics.py:301 | ranks by score, ties in order of appearance, are the numbers from 0 to n - 1, each once |
| Ranks.BucketsNeedNoClip | analysis/signal_diagnostics.py:302-303 | ids are in range before clipping, and a bucket holds the ranks of one interval |
| Ranks.BucketsFollowScores | analysis/signal_diagnostics.py:297-303 | a higher score never has a lower bucket |
| Ranks.BucketsAreBalanced | analysis/signal_diagnostics.py:297-303 | every bucket has n / B members, rounded down or up |
| RankBuckets.TopBucketIsLast | analysis/signal_diagnostics.py:323-330 | the bottom id is 0, the top id is B - 1 if and only if n is at least B, and from two buckets on they differ |
| RankBuckets.DecilePortfolio | analysis/signal_diagnostics.py:319-352 | by date and bucket, one row for every bucket that holds an observation of a date with at least two: its size and average return, buckets being the share of the date that ranks lower, times the number of buckets; one spread for each of these dates; the rows hold all observations and, weighted by size, all their return |
| RankedPanel.BucketsByPosition | analysis/signal_diagnostics.py:297-303 | the buckets assigned to the scores of a date are those of their positions in the panel, by score and order |
| RankBuckets.AllRowsByPosition | analysis/signal_diagnostics.py:340-350 | the bucket rows of all dates |
| RankBuckets.SpreadByPosition | analysis/signal_diagnostics.py:323-338 | the spread: average return of the highest bucket of the date less that of the lowest |
| RankBuckets.RowsConserveReturn | analysis/signal_diagnostics.py:340-350 | a date's rows hold all its symbols and, weighted by size, all its return |
| RankBuckets.RowsAreBalanced | analysis/signal_diagnostics.py:340-350 | the sizes reported for a date differ by at most one |
| RankBuckets.RowsOfDateCount | analysis/signal_diagnostics.py:340-350 | a date has a row for every bucket, or for every symbol if there are fewer |
| RankBuckets.SpreadIsLastLessFirst | analysis/signal_diagnostics.py:325-338 | the spread is the average of the date's last row less that of its first |
| Drawdown.MaxDrawdownPct | trade_planner/indicators.py:170-181 | the loop computes the largest relative fall from a positive running high, on any curve |
| Drawdown.OnePassIsDeepestDrop | trade_planner/indicators.py:170-181 | the one-pass form is that fall, or 0 if there is none |
| Drawdown.OnePassIsLargestFall | trade_planner/indicators.py:170-181 | on a positive curve it is the largest relative fall from any value to a later one, and below one |
| Drawdown.NegativeValuesDefeatOnePass | trade_planner/indicators.py:170-181 | with a value below zero it can be smaller |
| Drawdown.OnePassIsRightExactlyWhen | trade_planner/indicators.py:170-181 | over a set of values: the pass finds the largest fall from a positive value on every curve that has one, if and only if none of them is negative or at most one is positive |
| Drawdown.FormsAgree | backtest/metrics.py:315-320 | the form with a running maximum is its negation |
| Drawdown.CompoundedIsPositive | backtest/metrics.py:296-299 | returns above minus one compound to a positive curve |
| Drawdown.EquityCurve | scripts/run_momentum_robustness_study.py:141-148 | the study's curve is 1 on the first exit, or today, and grows by each trade's return on its exit, in order of exits |
| Drawdown.MaxDdFromTrades | scripts/run_momentum_robustness_study.py:151-155 | the drawdown from trades is the one-pass drawdown of that curve, 0 without trades |
| Drawdown.DrawdownInvestigation | scripts/run_momentum_robustness_study.py:290-348 | nothing without trades, else the drawdown, peak date and trough of the study's curve, and the longest run of trades that did not gain with its start |
| Drawdown.StartAddsFallFromOne | scripts/run_momentum_robustness_study.py:151-155 | starting at 1 adds the fall from 1 to the lowest value |
| Drawdown.DrawdownsAgreeExactlyWhen | scripts/run_momentum_robustness_study.py:151-155 | the backtest's drawdown is never larger than the study's, and equal exactly if some value falls to a later one as far as 1 falls to the lowest |
| Drawdown.FirstLossIsMissed | scripts/run_momentum_robustness_study.py:151-155 | on a single trade that loses half the two differ |
| Drawdown.TrackDrawdown | scripts/run_momentum_robustness_study.py:295-310 | the study's tracker has the same drawdown, the first highest value's date, and the first trough with its value and peak |
| Drawdown.TroughHasDrawdown | scripts/run_momentum_robustness_study.py:302-310 | the drawdown is the fall from the peak up to the reported trough to that trough |
| Drawdown.TroughIsFirstDeepest | scripts/run_momentum_robustness_study.py:302-310 | on any curve the reported trough is the first value furthest below the running high, relative to it |
| Drawdown.PeakIsBeforeTroughExactlyWhen | scripts/run_momentum_robustness_study.py:302-310 | the reported peak is not after the reported trough exactly if the curve starts at its high or some drop from its first high on is deeper than all drops before |
| Drawdown.PeakAfterTrough | scripts/run_momentum_robustness_study.py:302-310 | on 1, 0.5, 2 the reported peak is after the reported trough |
| Drawdown.LongestStreak | scripts/run_momentum_robustness_study.py:332-348 | the longest run of trades that did not gain, and the exit date of the first trade of the first such run |
| RelativeStrength.RelativeStrengthPercentile | trade_planner/indicators.py:126-157 | there is a result exactly with enough aligned bars and positive closes to start from: the share, in percent, of the last readings that are not above the last one, a reading being the change of the stock less that of the benchmark |
| RelativeStrength.LastReadings | trade_planner/indicators.py:118-157 | the readings themselves, from the closes of the last bars |
| RelativeStrength.OlderBarsDoNotMatter | trade_planner/indicators.py:126-157 | with lookback + window - 1 bars present, older bars change nothing, except that one of their closes not being positive makes the result missing |
| RelativeStrength.PercentileIsInRange | trade_planner/indicators.py:118-157 | there is a result exactly if the closes readings start from are positive, and it lies in [100 / window, 100] |

## Left out

- Calendar.AddYears: dates outside the range of pandas timestamps raise there and are ordinary days here.
- LevelClusters.ClusterLevels: a negative tolerance percentage is not covered, since a price would then not fit its own cluster; being as few as possible is for positive prices.
- BreakoutScan.DetectBreakoutEvents: a negative `follow_through_bars` is not covered, and the text and strength fields of an event are not modelled.
- TradeSelection.CountMaxNonOverlappingTrades: hold days are natural numbers.
- RandomBaseline.SimulateRandomNonOverlappingTrades: the distribution of the draw is not modelled, only that it is some set of the requested size.
- WalkForwardRun.NoLookAhead: it is about rows; the label of a training row looks five bars ahead (`models/labels.py:98`) and may use prices of the test span.
- WalkForwardRun.RunWalkForward: XGBoost, sanitizing of features, probability columns, class weights and the per-window metrics are a function argument or left out.
- RankingRun.SimulateRankingPortfolio: building the panel from predictions and the summary statistics are not modelled; missing scores are dropped before.
- Attribution.AttributePortfolioPeriods: names, sectors and sorting of the result rows are not modelled.
- MissedMoves.MissedMoveStore.SaveMissedMoves: connections, logging, retries of the driver and concurrent sessions are not modelled; a constraint violation is the only database error.
- PlanLog.PlanStore.SavePlanIfChanged: rows with equal generation and creation times are taken in insertion order, and the repeated look-up after a lost race with another session is modelled only as the look-up of the signature.
- PriceStore.PriceFile.AtomicWrite: temporary files, Parquet encoding and operating-system errors are not modelled; a stored file always has its columns.
- RankBuckets.DecilePortfolio: computing the scores is not modelled; the summary over dates (means, counts, Sharpe ratio of the spread) and rows without a score or return are not modelled; floor and rank are exact, a bucket count of at least one is assumed.
- Drawdown.FormsAgree: for positive curves only, where the running maximum is never zero; the form with a running maximum gives NaN or infinities otherwise.
- `attribute_drawdown_contribution`, `find_swing_points`, zone strength and zone ranking: they would only add easy members.
- The in-memory forms of the plan and missed-move tables; only the event log is compared with its in-memory form.
- The window of trades and the overlap counts of `drawdown_investigation`, after its drawdown and streak loops.
- Correlations, Sharpe and Sortino ratios, CAGR and other statistics with roots and powers.
- Schema migration on tables that already hold duplicates: the declared constraints are assumed to exist.
- FastAPI routes, authentication, LLM streaming, mail, scheduling and reports: plumbing without results of its own.
