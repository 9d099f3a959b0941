# Verified models of the trading platform's stateful cores

Dafny models of the parts of the repository whose correctness rests on state or arithmetic, and proofs of
what those parts promise. Database tables are maps or sequences, an object whose fields the program updates
is a class, a clock reading is a real number handed in by the caller, money is an exact rational with the
program's own rounding written out. `dafny verify dfyconfig.toml` checks everything.

- **Rate limiting** (`RollingWindow`, `KeyedWindow`, `RateLimit`, `RateGate`, `FmpCalls`). The pruned queues
  and the bounded, recency-ordered dictionary of the limiters, against the full log of admissions they
  throw away. The stamps of consecutive calls may be out of order by a stated skew, since the limiters read
  the clock before taking their lock; the pacing gate reads it inside. What is exact for one queue is carried
  over to every key of the bounded dictionary.
- **The exchange calendar** (`Calendar`, `CalendarLoader`, `CalendarYear`). Easter, observance, closures and
  early closes for every year of the proleptic Gregorian calendar (section 3.2.1 of ISO 8601:2004), and the
  day loop that writes the table.
- **Prices and identities** (`Splits`, `Adjustment`, `Archive`, `Valuation`, `Marking`, `MarkingRuns`,
  `MarkFigures`, `Peeling`, `Splice`, `GapAudit`, `AuditSplice`). One algebra of split ratios; the adjustment command over
  every reachable state of the bar table; append-only portfolio marks; recycled tickers cut into identities
  by threshold or from the audit.
- **Migrations** (`VersionOrder`, `Migrate`, `MigrateOutcome`, `MigrateRuns`, `MigrationTx`). Plans and their
  execution with a failure possible at any migration, and the transaction discipline against bodies that issue their own
  BEGIN, COMMIT, ROLLBACK and SAVEPOINT.
- **Orders** (`OrderEntry`, `OrderProtocol`, `Seeding`, `SharedSeeding`). Any number of seeding processes, their
  audit rows, a network that delays and loses, and the broker, as interleaved steps; the script's loop is
  shown to be a run of that protocol, alone and with everybody else's steps in between.
- **Key selection** (`KeyChoice`, `FairSpend`). Least-spend choice with benching and failover, and how even
  the recorded bill stays when calls overlap.
- **Model validation** (`WalkForward`, `CrossValidation`). The stepping loop against a per-sample definition,
  exactly which predictions see a later price, and exactly which folds have training labels that do.
- **Bar folding** (`BarFold`, `BarRows`, `BarOrder`). The accumulator with its minute mask against a declarative
  day bar, and exactly when the order of a file's rows shows in it.

Where the code and what is written about it part, the model follows the code, and a lemma names the case and,
where there is one, the exact condition:

- The documented cap over the full rolling window holds if and only if stamps are monotone or the budget is
  one; for stamps out of order by `skew` the safe window is `window - skew` and no longer
  (`RollingWindow.CapHoldsIff`), and the same for each key that is not displaced
  (`KeyedWindow.KeyCapHoldsIff`). A budget lowered between calls breaks the promised wait
  (`RollingWindow.LoweredBudgetBreaksRetry`, with `RollingWindow.RetryAdmittedIff`, for any queue, on when it
  does not).
- Factors are rounded to 12 decimals. Returns are point-in-time if and only if every product of recorded
  ratios has no more decimals (`Splits.PointInTimeIff`), which two 1-for-3 reverse splits already break
  (`Splits.ThirdsMove`); the gap audit, which multiplies unrounded ratios, agrees with the adjusted closes
  under the same condition (`Splits.AuditAgreesIff`). The error is bounded in every case
  (`Splits.ReturnError`).
- Recording a further split moves no cent-rounded mark of any book if and only if every stored factor across
  its day takes it without a rounding of its own (`MarkingRuns.MovesNoQuoteIff`), which is to say, where the
  products before it have no more than 12 decimals, if those after it have no more either
  (`Valuation.FittingScales`); `MarkingRuns.SplitMovesMark` is a book whose mark moves.
- A splice writes a delisting and a first sighting, and the securities table's CHECK
  (db/migrations/001_core_schema.up.sql:149) may forbid either: with bars from before the first sighting or
  from after the delisting (`Splice.TablesThatFail`), both of which the loaders can leave. Then the database
  error ends the whole command. By threshold that happens if and only if some row cannot be spliced at a gap
  its turn comes to (`Splice.SecurityMaster.SpliceByThreshold`, `Splice.CompletesIff`); from the audit, if and
  only if a hole whose turn comes is forbidden (`AuditSplice.SplicedIff`), and then every later security of the
  query stays as it is (`AuditSplice.SpliceQuery`). A hole that encloses an owned newer one has no turn: the newer
  splice takes its end away (`AuditSplice.NestedHoles`).
- `adjust` does not touch a split-free bar whose factor is already 1, so the split-free cohort verifies
  exactly when no such bar carries another `adj_close` (`Archive.AdjustMeetsVerify`).
- A session marked before the one before it could be priced keeps a null daily return after the hole is
  repaired (`MarkingRuns.RepairedHole`).
- Of the dispositions listed as terminal only three survive every later merge; `non_common_instrument` and
  `halt_consistent` do not (`GapAudit.AbsorbingIff`).
- A recorded hole into which bars have come since can still be spliced, by the same condition, and the older
  identity then holds bars after its delisting (`AuditSplice.DelistedAfterItsBars`).
- An untargeted `up` plans a version below an applied one if and only if the applied versions are no prefix
  (`MigrateRuns.GapIsFilledIff`), and then runs it on top (`MigrateRuns.GapOrderIff`).
- A 422 is taken as a refusal, and for an id already submitted without a row that is wrong
  (`OrderProtocol.BareThenRejected`). A lookup that finds nothing is final if and only if nothing is on its
  way and no process is about to send (`OrderProtocol.AbsenceIsFinal`).
- Walk-forward is causal by row but not by price in the first `forward_days` - 1 rows after a training
  (`WalkForward.SeesLaterPrice`). A step reports its own start as the training size, which is right if and
  only if the step is the first or retrained (`WalkForward.ReportedSizeIff`).
- The fold example in the docstring of `split` has test ranges longer than the code yields: for 100 samples,
  3 splits and a gap of 5 the first test range is 35 to 52, not 35 to 54
  (`CrossValidation.FirstFoldOfExample`).
- The first of several rows for a minute is folded and the others are skipped, and a price that reads as no
  number passes the guards: it stays for good as a symbol's first high or low and is passed over later. So the
  order of a file's rows is immaterial under an exact condition on them (`BarOrder.OrderFreeIff`); without
  duplicated minutes it is that the highs are all numbers or all not, and the lows likewise
  (`BarOrder.OrderFreeOnce`).
- `adjust` fails on a rounding to zero, which shows beforehand in the recorded ratios and the close
  (`Adjustment.FailsIff`).

## Model

| member | source | states |
|---|---|---|
| RollingWindow.CheckIs | backend/app/ratelimit.py:83-100 | one call in full: which grants go, when it is granted, what the queue is then, and the seconds told |
| RollingWindow.SecondsMean | backend/app/ratelimit.py:94-100 | 0 is returned exactly on admission; a refusal names the least whole number of seconds above what the oldest grant still has |
| RollingWindow.RefusalLeavesNoTrace | backend/app/ratelimit.py:83-100 | every later call answers as if the refused one had not been made |
| RollingWindow.RetryAdmittedIff | backend/app/ratelimit.py:94-100 | a refused caller who comes back is admitted if and only if every grant up to the one max_requests places from the end of the queue has left the window, whatever the order of the queue |
| RollingWindow.RetryAdmitted | backend/app/ratelimit.py:94-100 | under a fixed budget the told wait always suffices, at any later time and for any order of stamps |
| RollingWindow.LoweredBudgetBreaksRetry | backend/app/ratelimit.py:83-100 | a budget lowered between calls breaks that promise |
| RollingWindow.RunKeeps | backend/app/ratelimit.py:83-100 | after every run the queue is the newest part of the admission log, within budget, and all that was dropped had left the window of some call |
| RollingWindow.WindowNeverExceeded | backend/app/ratelimit.py:83-100 | no window shortened by the skew of the stamps ever holds more than the budget; monotone stamps give the documented cap |
| RollingWindow.AdmitsAsFullLog | backend/app/ratelimit.py:83-100 | with monotone stamps the pruned queue decides as the full log would |
| RollingWindow.CapHoldsIff | backend/app/ratelimit.py:83-100 | the window lengths over which the budget holds for all stamps out of order by at most skew are exactly those up to window - skew, or the full window when the budget is one |
| KeyedWindow.RecencyMeans | backend/app/ratelimit.py:140-165 | the keys after a key in recency order are the other keys admitted since it was |
| KeyedWindow.TouchNewest | backend/app/ratelimit.py:160-164 | touching and evicting keeps exactly the most recently admitted keys |
| KeyedWindow.KeyedRunKeeps | backend/app/ratelimit.py:140-165 | in every run the dictionary holds the max_keys most recently admitted keys in order of last admission, each with the pruned queue of its current streak |
| KeyedWindow.KeyBudgetHolds | backend/app/ratelimit.py:140-165 | no key exceeds its budget in any window unless max_keys or more distinct other keys were admitted between two of its admissions |
| KeyedWindow.KeyCapHoldsIff | backend/app/ratelimit.py:140-165 | the window lengths over which a key that is not displaced stays within its budget are exactly those of a limiter of its own, with room for one key or more |
| KeyedWindow.RefusalIsSticky | backend/app/ratelimit.py:155-159 | a refused key keeps its place and its budget, and no other bucket changes |
| RateLimit.CooldownIs | backend/app/ratelimit.py:41-56 | one call in full: granted without a stamp or an interval after it, and otherwise the least whole seconds above what is missing |
| RateLimit.CooldownRetry | backend/app/ratelimit.py:41-56 | a refusal leaves the stamp alone, names at least one second, and the caller is admitted after it |
| RateLimit.CooldownSpacing | backend/app/ratelimit.py:41-56 | in every run, whatever the order of the stamps, admissions are at least the interval apart |
| RateLimit.CooldownLimiter.CheckAndConsume | backend/app/ratelimit.py:41-56 | the stamp and the answer are those of the cooldown rule |
| RateLimit.WindowLimiter.CheckAndConsume | backend/app/ratelimit.py:83-100 | the popleft loop and append leave the queue and give the answer of the rolling-window rule |
| RateLimit.KeyedWindowLimiter.CheckAndConsume | backend/app/ratelimit.py:140-165 | the dictionary operations leave the contents and give the answer of the keyed rule |
| RateLimit.KeyedWindowLimiter.PopWhileOver | backend/app/ratelimit.py:163-164 | popping the front while over size leaves the newest max_keys keys |
| RateGate.PacedPerMinute | src/fmp.py:145-154 | no 60 seconds see more than the limit let through |
| RateGate.LoneCallerAdmitted | src/fmp.py:146-163 | a caller alone on the gate sleeps at most the window and is admitted by the section it wakes to |
| RateGate.MinuteRateGate.Section | src/fmp.py:145-154 | one critical section is one rolling-window check at a clock read under the lock, so its history is monotone |
| RateGate.MinuteRateGate.Acquire | src/fmp.py:141-163 | whatever other threads do, it terminates: acquired within the limit, or gave up because the next sleep would pass the deadline; it sleeps at most max_wait_s |
| FmpCalls.CallBudget.Take | src/fmp.py:107-115 | takes all of n or nothing, never past the limit; limit 0 is none |
| FmpCalls.FmpClient.Get | src/fmp.py:224-289 | at most three requests, each paced and each costing one unit; only transient failures are followed by another; the result is that of the last response, or a refusal by gate or budget before sending |
| CalendarYear.MonthLengths | db/load_reference_data.py:133-143 | months have the lengths of the Gregorian calendar |
| CalendarYear.DaysFollow | db/load_reference_data.py:133-143 | each day's number follows that of the day before, over the ends of months and years |
| Calendar.WeekdayRules | db/load_reference_data.py:133-143 | the n-th and the last weekday of a month fall on that weekday, in the n-th week and in the last seven days |
| Calendar.EasterIsSunday | db/load_reference_data.py:146-158 | for every year Easter is a valid date from 22 March to 25 April and a Sunday, so Good Friday is a Friday |
| Calendar.EasterFollowsPaschalMoon | db/load_reference_data.py:146-158 | the anonymous algorithm gives the Sunday strictly after the Paschal full moon of the Gregorian epact rule, at most a week after |
| Calendar.ObservedMeans | db/load_reference_data.py:161-184 | an observed holiday is a weekday at most one day off; New Year's Day moves only off a Sunday |
| Calendar.ClosuresInOrder | db/load_reference_data.py:189-209 | the ten closures are in strictly increasing order inside the year and on weekdays, save a Saturday New Year |
| Calendar.ClosuresOfYear | db/load_reference_data.py:189-209 | ten scheduled closures a year from 2022, nine before, and every closure, ad-hoc ones included, lies in its year |
| CalendarYear.ClosuresAre | db/load_reference_data.py:187-209 | a day is a closure if and only if it is one of the ten holidays, each named by month, day and weekday, or 9 January 2025 |
| CalendarYear.EarlyClosesAre | db/load_reference_data.py:212-225 | a day closes early if and only if it is the Friday after Thanksgiving, or 3 July or 24 December from Monday to Thursday |
| Calendar.EarlyClosesTrade | db/load_reference_data.py:212-225 | an early close is always a weekday of that year with no closure |
| Calendar.TradingDaysInYear | db/load_reference_data.py:189-225 | from 2022 a year has 250, 251 or 252 trading days, as leap year and 1 January decide, less the ad-hoc closure of 2025 |
| CalendarYear.SessionMeans | db/load_reference_data.py:251-264 | closed at weekends and on closures, to 13:00 on early closes, otherwise to 16:00 |
| CalendarLoader.UnionAnswersPerYear | db/load_reference_data.py:245-258 | the union of all years' closures answers each day as its own year does |
| CalendarLoader.MarketCalendar.Load | db/load_reference_data.py:239-283 | every day of the range gets the session of the per-date rule, other rows stay, the counts add up; a backwards range writes nothing |
| Splits.ProductSplits | db/migrations/007_point_in_time.up.sql:90-109 | the product over (a, c] is the product over (a, b] times the one over (b, c] |
| Splits.FactorMeans | db/migrations/007_point_in_time.up.sql:95-100 | the factor is the product rounded half up to 12 decimals |
| Splits.FactorIsProductIff | db/migrations/007_point_in_time.up.sql:95-100 | the factor is the product if and only if the product has no more than 12 decimals, and is never more than half a unit of the twelfth away |
| Splits.FewDecimalsFit | db/migrations/007_point_in_time.up.sql:95-100 | ratios whose decimals add up to 12 at most have such a product |
| Splits.PointInTimeIff | db/load_corporate_actions.py:43-51 | returns from close over stored factor depend on no as-of date if and only if every product of recorded ratios has no more than 12 decimals |
| Splits.ThirdsMove | db/load_corporate_actions.py:43-51 | a return across two 1-for-3 reverse splits recorded with 8 decimals does depend on one |
| Splits.LaterSplitsAreTheAsOf | db/load_corporate_actions.py:43-51 | forgetting the splits after t gives the return computed on day t |
| Splits.ReturnError | db/load_corporate_actions.py:43-51 | in every case the quotient of two factors is within half a unit of the twelfth decimal, for each end of the interval, of the product |
| Splits.LaterSplitsDoNotMatter | db/load_corporate_actions.py:43-51 | two point-in-time split histories that agree up to t give the same return up to t, at any as-of dates |
| Splits.AuditAgreesIff | db/load_delistings.py:223-226 | on all holes up to the as-of date the audit's cross-gap ratio is the ratio of the two adjusted closes if and only if the products up to that date have no more than 12 decimals |
| Splits.InsertedSplit | db/migrations/007_point_in_time.up.sql:100-108 | a further split multiplies exactly the products whose interval covers it |
| Adjustment.PriceStore.Adjust | db/load_corporate_actions.py:411-560 | the as-of date is the latest bar day; either a statement fails and no bar changes, or every bar ends as its cohort demands and none is without a factor |
| Adjustment.LevelsMean | db/load_corporate_actions.py:470-560 | what every bar holds in the end, from its close and the product of the later ratios: for a security with splits the factor rounded to 12 decimals and the close over it rounded to 10, or nothing above 10^12; otherwise factor 1 and the close, or what it held beside a factor of 1 |
| Adjustment.FailsIff | db/load_corporate_actions.py:470-500 | adjust fails if and only if for some bar of a security with splits the product of the later ratios is below half a unit of the twelfth decimal, or so large that the close over it is below half a unit of the tenth |
| Adjustment.PriceStore.FillPlain | db/load_corporate_actions.py:523-546 | the batches terminate, giving exactly the bars without factor theirs |
| Adjustment.PendingShrinks | db/load_corporate_actions.py:527-546 | a batch removes exactly its bars from the pending ones |
| Archive.AdjustMeetsVerify | db/load_corporate_actions.py:584-622 | the split cohort verifies; the split-free cohort verifies if and only if no bar came in with factor 1 beside another adj_close |
| Archive.AdjustSettlesAgain | db/load_corporate_actions.py:411-414 | a second adjust does not fail and changes nothing |
| Archive.CompletedRunSettles | db/load_corporate_actions.py:471-546 | the run whose batches all went through is the completed command |
| Archive.SpliceMeans | db/load_delistings.py:514-537 | a splice gives the bars from the resumption on and all splits to the successor, and no other bar changes hands |
| Archive.FactorOneIsHonest | db/load_corporate_actions.py:478-481 | at factor 1 the rounded level is the close |
| Archive.ApplyKeepsHonest | db/load_corporate_actions.py:471-546 | loads, fetches, deletions, splices and adjusts broken off anywhere keep "factor 1 implies adj_close = close" |
| Archive.ReachableAdjustVerifies | db/load_corporate_actions.py:584-622 | from every reachable state a completed adjust leaves both cohorts clean, no factor null, and a fixed point |
| Valuation.OneMoreLot | db/mark_portfolios.py:172-236 | what one lot contributes to equity, cash and pricing: shares times factor times raw close while open, its cost before, its proceeds after |
| Valuation.CashIsReplay | db/mark_portfolios.py:356 | cash walked back from the current balance differs from a forward replay of the ledger by the same amount on every day |
| Valuation.EachLotCountsOnce | db/mark_portfolios.py:172-236 | equity plus cash is a constant of the ledger plus, for each lot, exactly one of unspent cost, open equity or proceeds |
| Valuation.SplitMovesNoMark | db/mark_portfolios.py:172-236 | recording one more split, with later closes, exits and lots on the new basis, moves neither cash nor equity nor which days can be priced, for a book whose factors over its own intervals take the split |
| Valuation.FittingScales | db/migrations/007_point_in_time.up.sql:95-100 | where the product before has no more than 12 decimals they do if and only if the product after has no more |
| Valuation.MovesNothingIff | db/mark_portfolios.py:172-236 | neither cash nor equity nor the priced days of any book move if and only if every stored factor across the split's day takes it |
| Marking.MarkTable.MarkPortfolio | db/mark_portfolios.py:345-409 | refused whole on negative cash, else exactly the priced unmarked sessions gain a mark, stored ones stay, and holes, drift and counts are reported |
| Marking.Window | db/mark_portfolios.py:338-348 | the sessions between inception and closure are a contiguous stretch of the calendar, with the session before it |
| MarkFigures.QuoteMeans | db/mark_portfolios.py:354-366 | a session is refused on negative cash, a hole with an unpriced lot, and otherwise worth equity plus cash to the nearest cent, ties to even |
| MarkFigures.RunMeans | db/mark_portfolios.py:340-400 | which sessions gain a mark, its value, its daily return on the session just before and its cumulative return on the base value, to 8 decimals |
| MarkFigures.HistoryFigures | db/mark_portfolios.py:385-390 | after any history of runs every cumulative return is (value - base) / base to the nearest 8 decimals |
| MarkFigures.HolesMean | db/mark_portfolios.py:340-366 | the holes reported are the unmarked sessions that cannot be priced, in order |
| MarkFigures.DriftMeans | db/mark_portfolios.py:366-384 | the drift reported are the marked sessions recomputed more than a cent off, in order |
| MarkingRuns.MarkedOnce | db/mark_portfolios.py:353-409 | a run has one result |
| MarkingRuns.ContiguousRuns | db/mark_portfolios.py:331-335 | two runs over adjacent windows leave the table one run leaves |
| MarkingRuns.RerunWritesNothing | db/mark_portfolios.py:370-378 | marking a window again changes nothing |
| MarkingRuns.RerunReportsSame | db/mark_portfolios.py:370-383 | it reports the same holes and drift as the first time |
| MarkingRuns.RunKeepsChain | db/mark_portfolios.py:386-392 | one run keeps: every non-null daily return is the rounded ratio to the mark of the session just before |
| MarkingRuns.HistoryIsChained | db/mark_portfolios.py:386-392 | so does every sequence of runs over any windows and prices |
| MarkingRuns.RepairedHole | db/mark_portfolios.py:380-392 | from any table, two runs over windows that overlap or adjoin leave the sessions, values and cumulative returns of a single run if and only if the second covers the repaired holes, and it is told exactly which daily returns stay null |
| MarkingRuns.SplitMovesNoQuote | db/mark_portfolios.py:353-368 | such a split with prices and ledger restated changes no session's mark, hole or refusal |
| MarkingRuns.MovesNoQuoteIff | db/mark_portfolios.py:353-368 | no mark of any book, rounded to cents, moves under the same condition and no other: some position is large enough to show any error |
| MarkingRuns.SplitMovesMark | db/mark_portfolios.py:353-368 | a book of which a mark does move, by 11 cents |
| Peeling.PeelKeeps | db/load_delistings.py:481-536 | a splice at the latest gap keeps all bars in order, the actions and the delisting on the newest identity, and neighbours parted by an over-long gap |
| Peeling.PeelRemovesOne | db/load_delistings.py:456-478 | each splice removes exactly one over-long gap |
| Peeling.PeelableIff | db/migrations/001_core_schema.up.sql:149 | the first n splices of a row pass the CHECK if and only if at each of its n latest gaps it was first seen by the day after the gap's start and delisted, if at all, no earlier than its end |
| Peeling.RunsAreUnique | db/load_delistings.py:456-478 | there is only one way to cut bars into maximal runs |
| Peeling.FullyPeeled | db/load_delistings.py:648-696 | with no gap left the identities are exactly the maximal runs |
| Peeling.RangesDisjoint | db/load_delistings.py:501-519 | every bar of an older identity is before every bar of a newer one |
| Splice.SpliceKeeps | db/load_delistings.py:481-536 | one splice in the securities table keeps every original row's lineage |
| Splice.SplicedIntoRuns | db/load_delistings.py:648-696 | the descendants of a fully spliced row hold exactly the maximal runs of its bars; the newest alone keeps actions and delisting status |
| Splice.SecurityMaster.SpliceOne | db/load_delistings.py:481-536 | all of the transaction, or a refusal for scored history, or a failure exactly when one of the two rows would break the CHECK; the latter two change nothing; one live holder a symbol, every row legal |
| Splice.SecurityMaster.Pass | db/load_delistings.py:661-688 | a pass splices each unskipped row with a gap once, unless a failure ends the command, which shows that some row could not be spliced as often as its turn comes |
| Splice.SecurityMaster.SpliceByThreshold | db/load_delistings.py:648-696 | a database error ends it if and only if some row cannot be spliced as often as its turn comes; else the skipped symbols are those with a blocked gapped row and every other row ends gap-free, unless one had more than 19 gaps, which is exactly when the passes run out |
| Splice.CompletesIff | db/load_delistings.py:501-513 | the same condition in terms of the gaps, first sightings and delistings of the table at the start |
| Splice.TablesThatFail | db/migrations/001_core_schema.up.sql:149 | two legal tables of one row that end the command in a database error |
| GapAudit.AbsorbingStays | db/load_delistings.py:302-315 | three dispositions survive any sequence of merges |
| GapAudit.AbsorbingIff | db/load_delistings.py:152-162 | and only these: the other terminal ones are reopened by one ratio outside the band |
| GapAudit.ReauditedIs | db/load_delistings.py:281-302 | the disposition after any history of audits: a halt by a last ratio in the band, an earlier verdict as long as none was in it, else for review |
| GapAudit.ResolvedIffLastInBand | db/load_delistings.py:302-315 | any other hole is resolved after a history of audits exactly when the last ratio was inside the band |
| AuditSplice.AuditedSecurity.SpliceFromAudit | db/load_delistings.py:610-645 | which recorded holes become spliced and which stay, whether a database error ends it, the exit code, and that bars, actions and delisting are conserved over legal rows |
| AuditSplice.SpliceQuery | db/load_delistings.py:575-645 | over all securities of the query: those before the first with a forbidden hole are worked off, it keeps what was spliced until then, and all later ones are as they were |
| AuditSplice.SplicedIff | db/load_delistings.py:575-645 | in the query's order, for holes with different starts, a hole is spliced if and only if the security is not blocked, owned both boundary bars at the start, no owned hole before it lies inside it, and none up to it is forbidden; the command fails on the security if and only if one is |
| AuditSplice.ForbiddenByDates | db/load_delistings.py:503-512 | among holes that lie apart or nested, a hole is forbidden if and only if it is owned, encloses no owned hole before it, and the row's own dates conflict with it |
| AuditSplice.NoneIsLost | db/load_delistings.py:575-577 | among holes that lie apart every owned one is spliced, up to the first that the row's dates forbid |
| AuditSplice.NestedHoles | db/load_delistings.py:281-302 | a stale hole around a recorded one is not spliced, and does not fail the command where it alone would |
| AuditSplice.AuditsNest | db/load_delistings.py:281-302 | after any audits between which bars are only added, recorded holes own their boundary bars and lie apart or nested |
| AuditSplice.OldestFirstLosesRest | db/load_delistings.py:575-577 | oldest first would splice only the first |
| AuditSplice.DelistedAfterItsBars | db/load_delistings.py:501-519 | the older identity's bars lie before its delisting if and only if nothing was loaded into the hole |
| VersionOrder.EqualWidthOrder | db/migrate.py:292-300 | at equal width, string order is numeric order |
| VersionOrder.OrdersAgreeIff | db/migrate.py:292-300 | string order and numeric order agree on two widths if and only if they are the same width |
| Migrate.Runner.Run | db/migrate.py:609-698 | a command validates, plans and executes as specified, stopping at the first failure |
| MigrateOutcome.RefusedIff | db/migrate.py:606-690 | from the migrations, the recorded versions and the command: exactly when each refusal happens, and that nothing is changed then or by a dry run |
| MigrateOutcome.DoneMeans | db/migrate.py:630-700 | otherwise the unapplied migrations up to the target run oldest first, or the applied above it newest first, or the newest alone, until one fails |
| MigrateRuns.ExecuteKeepsPrefix | db/migrate.py:631-656 | one command from version k ends at a version between k and where it was asked to go: there on success, unchanged on refusal or dry run |
| MigrateRuns.AppliedStaysPrefix | db/migrate.py:631-698 | from a prefix, any sequence of commands failing anywhere keeps the applied versions a prefix, whatever the bodies do |
| MigrateRuns.HistoryKeepsPrefix | db/migrate.py:631-698 | if each down undoes its up, the schema is moreover always the one that prefix builds |
| MigrateRuns.DownRestores | db/migrate.py:671-698 | down to a target after any ups, complete or not, restores the schema at the target |
| MigrateRuns.GapIsFilledIff | db/migrate.py:631-633 | an untargeted up plans a version below an applied one if and only if the applied versions are no prefix |
| MigrateRuns.GapOrderIff | db/migrate.py:631-656 | the missing bodies run on top of the applied ones, so bodies that record their order end in version order if and only if the start was a prefix |
| MigrationTx.RunnersTransaction | db/migrate.py:506-541 | until a COMMIT or ROLLBACK has run the runner's transaction is open and nothing is durable; afterwards its id never returns |
| MigrationTx.CheckIsExact | db/migrate.py:528-541 | of the bodies that succeed, the status and id check passes exactly those without COMMIT and ROLLBACK |
| MigrationTx.TogetherOrNotAtAll | db/migrate.py:544-574 | recorded means no such statement, and its surviving effects become durable in the commit of its row; not recorded and none of them means nothing is durable; a hijacked body is never recorded |
| MigrationTx.SavepointMeans | db/migrate.py:506-560 | going back to a savepoint undoes exactly the work since, releasing it nothing |
| MigrationTx.WorkAfterCommit | db/migrate.py:506-560 | work after a body's own COMMIT becomes durable too, unrecorded |
| MigrationTx.StrayCommitIsDurable | db/migrate.py:522-526 | what a body's own COMMIT committed stays durable although the migration is not recorded |
| MigrationTx.Session.Apply | db/migrate.py:544-574 | the stepwise runner does that, and adds the version's row only when recorded |
| OrderEntry.SubmitOrder | src/alpaca_execution.py:57-185 | a request leaves the process exactly when it is well formed and the endpoint allowed; the outcome is the meaning of the exchange |
| OrderEntry.SendableMeans | src/alpaca_execution.py:76-103 | what is sent, kind by kind: sizes, prices and sides |
| OrderEntry.OpenIsUncertain | src/alpaca_execution.py:132-165 | an answer that leaves open whether an order was made is uncertain and never an exception; each outcome's replies are listed |
| OrderEntry.MeaningIsSound | src/alpaca_execution.py:146-179 | accepted means this request made the order, refused that it made none; uncertain means the order exists when it comes from a success that cannot be decoded, and otherwise that for an unused id both remain possible |
| OrderEntry.FetchOrder | src/alpaca_execution.py:188-235 | only a 404 reads as absent and only a decoded success as found, every failure as unknown; whatever an honest broker holds, neither answer is wrong |
| OrderProtocol.StepKeeps | bin/seed_paper_book.py:118-168 | every step of every process, of the network and of the broker keeps the per-id invariant |
| OrderProtocol.EveryRunIsSafe | bin/seed_paper_book.py:118-168 | over all runs with crashes, losses and late delivery: one submission an id, an accepted row has its order, every order has a row, a rejected row has none and none is on its way |
| OrderProtocol.AbsenceIsFinal | src/alpaca_execution.py:188-223 | a lookup finds nothing only when there is no such order, and there will be none if and only if nothing travels and no process is about to send |
| OrderProtocol.BareThenRejected | src/alpaca_execution.py:159-163 | for an id used without a row the duplicate's 422 leaves a rejected row beside a live order |
| Seeding.Seeder.Seed | bin/seed_paper_book.py:118-168 | rows, placed and failed after a basket, or up to the exception that ends it, which with auditing is the first insert if the table refuses the notional |
| Seeding.RowOfSymbol | bin/seed_paper_book.py:118-168 | a new symbol the loop gets to gets the row its own submission calls for, and the next is taken up unless that was an exception |
| Seeding.LostReply | bin/seed_paper_book.py:145-160 | a lost reply leaves its row uncertain and its symbol failed, and the loop goes on |
| Seeding.SeededMeans | bin/seed_paper_book.py:118-168 | earlier rows are untouched, each new symbol is reported once, as placed exactly when its row says accepted, and only a crash leaves a row at submitting |
| Seeding.RerunPlacesNothing | bin/seed_paper_book.py:127-141 | a second run under the tag submits nothing |
| Seeding.BareRerunPlacesAll | bin/seed_paper_book.py:113-125 | without auditing it submits everything again |
| Seeding.SeedIsARun | bin/seed_paper_book.py:118-168 | what an uninterrupted loop does to rows and orders some run of the protocol does |
| SharedSeeding.Process.One | bin/seed_paper_book.py:118-168 | one symbol's turn with any steps of others in between: skipped only with a row, reported as its row and the broker have it, or stopped, without a row if the table refuses it |
| SharedSeeding.Process.Seed | bin/seed_paper_book.py:118-168 | loops at once: every id stays safe, what is reported is true, each symbol taken up is reported once and was new, and each has its row unless the process stops |
| SharedSeeding.StepIsLater | bin/seed_paper_book.py:145-168 | no step of anybody takes back a settled row, an order or a submission |
| KeyChoice.Available | backend/app/llm/keys.py:65-81 | exactly the usable slots, in slot order, under their label or variable name |
| KeyChoice.SpendMeans | backend/app/llm/ledger.py:76-100 | an owner's spend is the sum of the owner's recorded costs |
| KeyChoice.Select | backend/app/llm/keys.py:84-100 | the one position nobody undercuts and that comes first of its equals |
| KeyChoice.Debate.Client | backend/app/debate/anthropic_client.py:28-70 | a benched owner is handed out only when all others are benched |
| KeyChoice.Debate.CreateWithFailover | backend/app/debate/anthropic_client.py:172-219 | at most one retry, only after a usage limit, on the first other owner not benched; the limited owner is benched for the hour |
| KeyChoice.Debate.Record | backend/app/llm/ledger.py:19-57 | a recorded call adds its cost to its owner's spend and to no other; a failed write adds nothing |
| KeyChoice.BenchedForAnHour | backend/app/debate/anthropic_client.py:88-96 | an owner is benched for 3600 seconds and free at their end; no other is |
| KeyChoice.BenchedIsAvoided | backend/app/debate/anthropic_client.py:88-96 | a benched owner is asked again within the hour only when every other key is benched |
| FairSpend.RunKeeps | backend/app/debate/anthropic_client.py:51 | every run keeps each owner, with its calls in flight at full price, within the bound |
| FairSpend.SpreadStaysBounded | backend/app/llm/keys.py:84-100 | recorded spends never differ by more than the initial difference or k full-price calls |
| FairSpend.GapCloses | backend/app/debate/anthropic_client.py:31-35 | for any number of owners, once new spend covers what was missing, they differ by at most k full-price calls |
| FairSpend.TwoOwners | backend/app/debate/anthropic_client.py:31-35 | for two owners new spend as large as the initial gap is enough |
| FairSpend.BoundIsReached | backend/app/debate/anthropic_client.py:158-169 | calls chosen before the first is recorded reach that bound exactly |
| WalkForward.PeriodIs | src/ml/validation.py:342-348 | retraining happens at the least multiple of the step that reaches retrain_every |
| WalkForward.TestWindow | src/ml/validation.py:308-320 | predictions and labels are dropped in pairs, counts add up |
| WalkForward.Walk | src/ml/validation.py:269-379 | the stepping loop never raises and reports, step by step, what the per-sample definition says, attempts being successes plus failures |
| WalkForward.RunWalkForward | src/ml/validation.py:226-379 | the same for the whole call; under 30 initial samples nothing is run and nothing is measured |
| WalkForward.EachSampleOnce | src/ml/validation.py:291-348 | each later sample is in exactly one step, predicted by a model trained on a prefix ending at or before the step's start, fewer than retrain_every + step_size samples back |
| WalkForward.RestsOn | src/ml/validation.py:286-320 | each prediction rests on a training with all rows and labels before a whole number of periods, and on one question for each row since, in order |
| WalkForward.PairedByOrigin | src/ml/validation.py:312-320 | kept predictions and labels come position by position from the same sample, in order, and from every sample that succeeded |
| WalkForward.CollectedIsKept | src/ml/validation.py:329-355 | what the metrics see is the kept prediction of every sample |
| WalkForward.RunAndRecord | lab/store.py:145-157 | whatever the model, the data and the failures, a run does not raise in its metrics and its flag, taken from the collected arrays, never disagrees with the counts |
| WalkForward.ReportedSizeIff | src/ml/validation.py:332-340 | the reported training size is what the model was trained on if and only if the step is the first or retrained |
| WalkForward.SeesOnlyEarlierRows | src/ml/validation.py:286-299 | a prediction is determined by features up to its row and labels before the last training |
| WalkForward.SeesOnlyEarlierPrices | lab/datasets.py:165-171 | from forward_days - 1 rows after a training on it depends on no later price |
| WalkForward.SeesLaterPrice | lab/datasets.py:165-171 | on every earlier row some model does depend on one |
| CrossValidation.Split | src/ml/validation.py:415-480 | n_splits folds or none, each the one the index arithmetic gives |
| CrossValidation.SizesMean | src/ml/validation.py:436-460 | the sizes of training prefix, fold and gap, by their bounds |
| CrossValidation.FoldsWhen | src/ml/validation.py:436-440 | there are folds exactly from 30 + n_splits samples on |
| CrossValidation.FoldsAre | src/ml/validation.py:451-468 | folds are nonempty and in bounds, train prefixes grow strictly, test ranges are disjoint and ordered, fewer than n_splits samples stay untested |
| CrossValidation.FirstFoldOfExample | src/ml/validation.py:422-425 | the first fold of the docstring's example as the code has it |
| CrossValidation.LeakFreeIff | src/ml/validation.py:442-449 | no training label depends on a price at or after the test start if and only if forward_days is at most the gap and the gap shorter than a fold |
| BarFold.SetBitSets | db/load_daily_bars.py:315-332 | setting a bit sets that bit and no other |
| BarFold.DayBar.Update | db/load_daily_bars.py:171-182 | the accumulator takes the extreme times, prices and the summed volume |
| BarFold.FoldSummarises | db/load_daily_bars.py:171-182 | folding lines in any order gives the bar that opens with the earliest, closes with the latest, has the extreme prices and exactly the lines' minutes; a price that is no number only as the first |
| BarFold.Aggregate | db/load_daily_bars.py:284-335 | one accumulator a symbol, each the fold of its kept lines; rows read and rows skipped |
| BarFold.CoveredMeans | db/load_daily_bars.py:322-332 | a minute is covered when some sound row claims it |
| BarFold.KeptAreFirst | db/load_daily_bars.py:315-333 | the folded lines are exactly the first sound row of each symbol and minute, in file order |
| BarRows.SoundMeans | db/load_daily_bars.py:304-317 | a row is sound unless its symbol or numbers are not, its volume negative, its low zero or less, or its high below its low, comparisons with no number being false |
| BarRows.HasBitMeans | db/load_daily_bars.py:320-331 | bit k is the k-th binary digit of the mask |
| BarRows.MaskMeans | db/load_daily_bars.py:284-335 | a symbol has a bar, and bit k of its mask is set, exactly if some sound row of it falls into minute k, told in nanoseconds |
| BarRows.FirstMeans | db/load_daily_bars.py:315-333 | a row is folded exactly if it is the first sound one of its symbol in its minute, told in nanoseconds |
| BarRows.SkippedAre | db/load_daily_bars.py:284-331 | the rows counted as skipped: unreadable, or in the session and not folded |
| BarFold.EveryRowAccounted | db/load_daily_bars.py:284-335 | every row is folded, skipped and counted, or outside the session |
| BarOrder.KeptPicks | db/load_daily_bars.py:322-332 | the folded lines are one of the sound rows for each minute that has any |
| BarOrder.OrderFreeIff | db/load_daily_bars.py:284-335 | every order of a file's rows gives a symbol the same numbers and mask if and only if highs are all numbers or all not and lows likewise, some minute has the highest high in each of its rows and some the lowest low, rows of a minute agree on volume, those of the first on time and open, and those of the last on time and close |
| BarOrder.OrderFreeOnce | db/load_daily_bars.py:172-182 | with one line a minute, if and only if the prices are unmixed |

## Left out

- Splits.FactorIsProductIff: the product before rounding is exact; the program takes exp of a sum of logarithms, as it does for the audit's ratio, of which it stores 8 decimals. Quotients of closes and factors are exact too.
- Archive.FactorOneIsHonest: closes are held in millionths and stay below 10^12, as their column does; NUMERIC overflow is not modelled.
- Adjustment.PriceStore.Adjust: no other writer runs beside the command; its log lines and counts are not modelled.
- MarkingRuns.HistoryIsChained: a single writer; the dry run, which only logs, and a concurrent insert are not modelled.
- KeyedWindow.KeyedRunKeeps: max_keys is not negative; a negative one makes the program raise.
- RateGate.MinuteRateGate.Acquire: the total of seconds waited is a result of the call and not a shared counter.
- FmpCalls.FmpClient.Get: other threads share the gate but not the budget during one call; the backoff sleeps are not modelled.
- AuditSplice.SpliceQuery: the rows of the query come grouped by security, as it orders them; the table around the securities is that of the threshold mode.
- Splice.SecurityMaster.SpliceByThreshold: only daily bars are moved; minute bars move by the same date rule.
- GapAudit.AbsorbingStays: the merge only; the provider pass rewrites any disposition it is told to by name.
- OrderEntry.SubmitOrder: sizes as given; the payload has 2 decimals of a notional and 6 of a quantity, so a positive size below half a unit of those is sent as zero.
- MarkingRuns.MovesNoQuoteIff: the size of a position is not bounded by its column.
- CrossValidation.LeakFreeIff: training labels only; cross_validate also hands each fold's test rows to the model's train as validation data.
- FairSpend.SpreadStaysBounded: no benching and no database outage, which send calls to a fixed key; spend is what the ledger records.
- Seeding.Seeder.Seed: any other database failure while the loop runs stops SharedSeeding.Process.Seed and not this loop.
- OrderProtocol.EveryRunIsSafe: the broker is assumed to make no second order under an id and none with a 4xx.
- WalkForward.Walk: every feature and label row of the data set is one price row, warm-up rows cut off; only the measured flag of the metrics is modelled, since accuracy, Sharpe ratio and correlation are floating-point statistics.
- BarOrder.OrderFreeIff: which of several equal prices' texts a bar carries is left aside.
- BarFold.Aggregate: decompression, CSV parsing and time zones come before the rows it is given; a corrupt file, which aborts the fold, is not modelled.
- MigrationTx.TogetherOrNotAtAll: COMMIT AND CHAIN and two-phase commit are not modelled.
- Floating-point numbers are reals throughout; dates outside the years 1 to 9999, which the program cannot form, are included.
- Migration discovery, locking and warnings about applied versions without a file.
- The provider pass of the gap audit, the enumeration of holes in SQL, delisting inference and its sources.
- Fetching of rates, filings, prices and corporate actions; password and token handling; the web application and its debate engine beyond the choice of keys.
