# Debt Collector: a verified model

This project models the server of a payment and debt ledger and proves what its code guarantees
across controllers, tables and whole runs of requests. It covers eight areas:

- **London time** (`Calendar`, `Periods`, `Weeks`, `Journal`, `Tribute`, `Rounding`): UTC instants and
  London days, contract periods, weekly payment buckets and their drill-down lists, journal streaks, tribute
  periods and the performance gauge.
- **Rate limiting** (`RateLimit`): the in-memory and the Redis fixed-window limiter.
- **Limit texts** (`Limits`): two fields packed into one string and split again on every edit.
- **The contract ledger** (`Ledger`, `Cron`, `Job`, `LatePenalty`, `Runs`, `Standings`): event replay, the daily job, the bulk
  late penalty, the surfaces that call a contract late, and whole runs of all of them with signatures and endings.
- **Accounts** (`Accounts`, `Tokens`, `Statuses`): refresh tokens, password reset, breach, preview and forgiveness.
- **Merit points and penalties** (`Merits`, `Penalty`): the idempotent points ledger, redemptions and
  punishments, the rule engine and its cooldowns.
- **Reviews** (`Review`, `ReviewRuns`, `Moves`, `ReviewQueue`): tasks, ritual occurrences, bulk review, the emergency
  stop, the nightly passes, the queue page.
- **Profile requests** (`Profile`, `ProfileMoves`): free approval, approval against a fee, rejection, and the declared payment of the fee.

Objects the source updates in place are classes whose methods are proved against specification functions on
the tables; the guarantees are lemmas about those functions, over every input and every run.

## What holds, and what does not

The following come out differently from what names, comments or documentation in the repository suggest.
Each is a lemma below, with the exact condition and an input where there is one.

- No payment event carries a period index (`server/controllers/payment/controller.py:372-381`), so the late
  list, the counter and the bulk penalty call a contract late however much was paid
  (`Runs.LatenessIgnoresPayments`). Only the daily job looks at payments.
- After a bulk penalty in one period the daily job fails on that contract in the next one for as long as the minimum
  stays unpaid (`Runs.BulkBlocksNextTick`, with the run `Runs.BulkBlocksSample`). Unless a payment lets a tick of that
  period through, the period after it is charged without a penalty (`Runs.RefusedIsForgotten`). If the session survives
  the failed insert, the rest of that sub's contracts are given up with it. Without a bulk penalty no tick is ever
  refused (`Runs.CronNeverRefused`).
- The daily job is safe to run again after a run without errors, whatever was written in between
  (`Cron.DailyRunAfterWrites`). After a run with an error it is when nothing was written (`Cron.DailyRunTwice`), but a
  payment in between can make the second run charge (`Cron.PaymentLiftsRefusal`).
- Changing the clauses of an active contract takes its signature back, and a new one restarts the period count
  (`server/controllers/debt/controller.py:523-560`, `402-424`). Periods already charged are not charged again
  (`Runs.ChargedOnce`), skipped ones are, late and out of order (`Runs.ResignedOutOfOrder`). The order is safe exactly
  when every period below a charged one is charged too or blocked by a penalty from before (`Runs.OrderKeptIff`), and a
  passed period is charged exactly when a new signature and a tick find the contract back in it and no such penalty
  blocks the charge (`Runs.LostUnlessSigned`; a run in which one does: `Runs.ResignedBlocked`).
- The start of a monthly contract's period counts thirty days a month, its number calendar months. So the contract can be
  late on the first day of a period, by five days after a year (`Periods.MonthlyPastStartIff`, `Periods.YearLater`); a
  weekly one only if it was signed in the summer hour before midnight UTC (`Periods.FirstDayIff`).
- Repeating the bulk penalty later in the same period can penalise more contracts (`LatePenalty.BulkAgainIff`,
  `LatePenalty.BulkAgainSample`).
- The weekly aggregate selects payments by UTC dates and groups them by London weeks. The oldest week loses an hour
  when it starts in summer time, and the current week loses its last second in winter time
  (`Weeks.OldestWeekReconcilesIff`, `Weeks.OldestWeekMissesAnHour`, `Weeks.CurrentWeekReconcilesIff`,
  `Weeks.CurrentWeekMissesASecond`).
- A streak can reach 92 days, not 90 (`Journal.StreakBound`, `Journal.StreakBoundIsTight`).
- The Redis limiter can advise a wait that is too short (`RateLimit.RedisRetryAfterSufficesIff`,
  `RateLimit.RedisAdviceTooShort`).
- A label that contains a blank line, or ends in a newline and has notes, does not survive an edit
  (`Limits.EditKeepsFieldsIff`, `Limits.TrailingNewlineMoves`).
- Forgiving a breach activates a sub that had not paid its entry tribute or was deleted
  (`Accounts.ForgiveUndoesBreachIff`).
- The daily job looks up the rolling-late rule without a lateness (`server/controllers/cron_controller.py:174-182`),
  so the thresholds of the rules play no part in the choice (`Penalty.ThresholdsInert`). It is the documented choice
  only under a condition on the newest rules (`Penalty.LatenessHonouredIff`, `Penalty.ThresholdsHonouredIff`,
  `Penalty.ThirtyDayRuleOnDayOne`).
- A points rule charges each source once ever, so a contract's later misses cost no points (`Penalty.LaterFiresPayNothing`).
- Called twice with a default charge for one source, the penalty engine reports it twice and books it once
  (`Penalty.DeltaIsBalanceChangeIff`, `Penalty.RepeatedDefault`). The review controllers never make that second
  call: a review is charged in full (`ReviewRuns.ReviewPays`), and so is every row of the missed pass (`ReviewRuns.MissedCharged`).
- The sub can change the amount of the payment declared for a profile fee as long as it is pending
  (`server/controllers/payment/controller.py:187-211`), and the approval that follows does not look at the amount: a
  fee of a hundred pounds is met by a penny (`Profile.FeeUndercut`). The linked payment is of the fee exactly when its
  last such edit since the acceptance, if any, set it to the fee (`Profile.LinkedAmountIff`).
- `on_fee_paid` (`server/controllers/profile_controller.py:164-182`) has no caller, although
  `server/routers/profile.py:100` promises that validating the payment applies the change. Without it no request
  with a fee is ever approved (`Profile.FeeNeedsFeePaid`). With it, a fee accepted twice can be paid by the second
  declaration only (`Profile.SupersededPaymentIgnored`).
- The emergency stop cancels tasks that are already in review, although `server/routers/panic.py:28-41` says that
  cancelling tasks is still to come (`Review.ReviewTables.CancelPendingTasksForSub`).
- The review queue sorts and pages occurrences by a completion time that waiting occurrences do not have. A page is
  the newest part of the queue exactly when no more occurrences wait than fit on it, and later pages hold no occurrence
  (`ReviewQueue.PageIsNewestIff`, `ReviewQueue.WaitingUnstamped`).

## How the model reads the code

- Requests are serial steps. A request that raises is rolled back, except inside the loops that catch errors
  themselves (the daily job and bulk review), which keep what was done.
- The London zone is any function from weeks to "summer or not"; a week begins on Sunday at 01:00 UTC, the only instant a
  change can happen. Instants are whole microseconds since the first day of year 1, except in the rate limiters, where they are reals.
- Tables are maps and sequences; a uniqueness constraint makes an insert fail. Identifiers and raw tokens of new rows are
  new. Where a query leaves the order of rows open, the order is a parameter or the order of a sequence.
- Redis takes INCR, TTL and EXPIRE as one step, reports a time to live rounded to the nearest second, and has a key no
  more at the very instant it expires; the agreement of the two limiters on every trace rests on that instant.
- A run is any sequence of the requests named in its `Op` type. Rows an administrator edits or deletes by hand
  (`server/routers/admin.py`) are not part of any run.
- A run of the contract ledger has the job's ticks one by one; the job is a sequence of them. The contracts it selects for a
  sub are that sub's, each once.
- Rows the daily job wrote before an insert fails are taken to stay: what a database session does after a failed flush
  inside the job's own savepoint is not modelled.
- Hashing is injective; credentials are the account they match.
- Money is in pence or ten-thousandths, as the columns store it; `Decimal.quantize` is rounding half to even.
- Where a run is said to be valid, new rows get new identifiers and, for the contract ledger, the clock does not go back.

## Model

| member | source | states |
|---|---|---|
| Calendar.SettledCut | server/controllers/goddess_views_controller.py:32-46 | A wall-clock reading outside the hour a change can skip or repeat splits all instants the same way in UTC and in London time. |
| Calendar.DayCut | server/controllers/goddess_views_controller.py:32-46 | An instant's London day is at least (at most) a given day exactly when the instant is not before that day's midnight (not after its last microsecond) converted to UTC, across both changes. |
| Calendar.DaySpan | server/controllers/tribute_minimum_controller.py:19-36 | A run of whole London days is one half-open stretch of UTC time between two converted midnights. |
| Calendar.FoldAtMidnight | server/controllers/tribute_minimum_controller.py:19-36 | Midnight is never a repeated reading: both folds convert to the same instant. |
| Calendar.LondonDayMonotone | server/utils/periods.py:9-12 | A later instant never has an earlier London day, though the wall clock can go back. |
| Calendar.CivilPosition | server/utils/periods.py:15-38 | Counting days one by one and adding up month lengths give the same Gregorian date. |
| Calendar.MonthCut | server/utils/periods.py:15-38 | A day is in or after a month exactly when it is not before the first day of that month. |
| Calendar.CivilOrder | server/utils/periods.py:15-38 | Comparing dates by month and day of month agrees with comparing day numbers. |
| Periods.PeriodIndexCounts | server/utils/periods.py:15-38 | The period index is at least k exactly when the k-th due date counted from the signature (weeks, fortnights, or the same day of later months) has been reached on the London calendar. |
| Periods.PeriodIndexMonotone | server/utils/periods.py:15-38 | The period index never falls as the clock advances, for every frequency and signature. |
| Periods.DaysInto | server/controllers/dashboard/helpers.py:23-36 | The days into a period are UTC days since the signature less seven, fourteen or thirty for each period counted on the London calendar. |
| Periods.FirstDayIff | server/controllers/dashboard/helpers.py:31-36 | On the first London day of its period a weekly or fortnightly contract is past the start exactly when it was signed in the summer hour before midnight UTC and it is not that hour now. |
| Periods.MonthlyPastStartIff | server/controllers/dashboard/helpers.py:23-36 | A monthly contract is past the start of its period exactly when more than thirty UTC days have passed for each calendar month counted. |
| Periods.YearLater | server/controllers/dashboard/helpers.py:23-36 | A monthly contract signed on the first of January is five days into its period on the day that period begins a year later. |
| Weeks.WeeksTile | server/controllers/goddess_views_controller.py:32-46 | Every microsecond lies in the bounds of exactly one Monday's week: that of its own London day. |
| Weeks.FillBuckets | server/daos/goddess_views_dao.py:62-78 | One pass over the rows leaves in every bucket the total and the number of exactly the window's rows of that London week. |
| Weeks.WeeklyPaymentBuckets | server/daos/goddess_views_dao.py:32-83 | Eight buckets, current week first, each with the total and count of its week's rows inside the query window. |
| Weeks.WeekListIs | server/daos/payment_dao.py:51-72 | A week lists each payment as often as the table holds it, if it is of the goddess, validated, and validated on a London day of that week; and no other. |
| Weeks.BucketIs | server/daos/goddess_views_dao.py:32-83 | A bucket counts the same payments as far as they were validated between the oldest Monday and 23:59:59 of the last Sunday, both read as UTC. |
| Weeks.OthersInvisible | server/daos/goddess_views_dao.py:50-60 | A payment that is not validated, or another goddess's, changes no list and no bucket. |
| Weeks.EightWeeks | server/daos/goddess_views_dao.py:22-25 | The buckets are the current London week, which holds now, and the seven Mondays before it. |
| Weeks.ReconcilesInsideWindow | server/controllers/goddess_views_controller.py:77-95 | Bucket and drill-down list agree for any week all of whose payments lie inside the aggregate's window. |
| Weeks.MiddleWeeksReconcile | server/daos/payment_dao.py:51-72 | For the six weeks strictly between the oldest and the current one, bucket total and count equal sum and length of the list, for every table and clock. |
| Weeks.OldestWeekReconcilesIff | server/daos/goddess_views_dao.py:41-58 | The oldest week reconciles for every payment table exactly when it starts in winter time. |
| Weeks.OldestWeekMissesAnHour | server/daos/goddess_views_dao.py:41-58 | A zone, a clock and a payment for which the oldest week's bucket and list differ. |
| Weeks.CurrentWeekReconcilesIff | server/daos/goddess_views_dao.py:41-58 | The current week reconciles, for every table with nothing later than now, exactly until a second before its end by UTC. |
| Weeks.CurrentWeekMissesASecond | server/daos/goddess_views_dao.py:46-58 | A zone, a clock and a payment just made for which the current week's bucket and list differ. |
| Journal.DistinctDays | server/daos/journal_dao.py:198-207 | The loop over descending time stamps yields strictly descending London days, exactly those with an entry. |
| Journal.CurrentStreakDays | server/daos/journal_dao.py:175-218 | The result is the largest n such that each of the n London days ending today has an entry in the window; 0 when today has none. |
| Journal.StreakBound | server/daos/journal_dao.py:175-218 | A window of 90 times 24 hours never yields a streak above 92. |
| Journal.StreakBoundIsTight | server/daos/journal_dao.py:175-218 | 92 is reached by a window that opens in winter time and closes just after a summer midnight. |
| Rounding.RoundCut | server/controllers/tribute_minimum_controller.py:119-121 | Half-even rounding reaches g exactly from half-way below g on, at the half only for even g. |
| Rounding.RoundMonotone | server/utils/ledger.py:22-35 | Rounding never reverses an order. |
| Rounding.RoundIsNearest | server/utils/ledger.py:22-35 | Rounding gives a nearest integer, and of two the even one. |
| Rounding.NearestIsOne | server/utils/ledger.py:22-35 | There is only one such integer. |
| Tribute.PeriodsPartitionTime | server/controllers/tribute_minimum_controller.py:19-36 | An instant lies in the period of now exactly when its own period is the same; now always lies in its period. |
| Tribute.PeriodsAbut | server/controllers/tribute_minimum_controller.py:19-36 | The end of a period is the start of the period there, over December and clock changes too. |
| Tribute.PeriodIs | server/controllers/tribute_minimum_controller.py:19-36 | The period of now is its London week from Monday on, or its London calendar month. |
| Tribute.ColorMonotone | server/controllers/tribute_minimum_controller.py:39-46 | The colour never worsens as the paid amount grows. |
| Tribute.GreenIff | server/controllers/tribute_minimum_controller.py:114-123 | The gauge is green exactly without a positive target or from 99.995 percent of it on, the tie included. |
| Tribute.RedIff | server/controllers/tribute_minimum_controller.py:114-123 | It is red exactly with a positive target and less than half a ten-thousandth below the grace ratio, or on that half with an odd grace. |
| RateLimit.MemoryRateLimiter.Check | server/core/rate_limit.py:51-62 | The method's effect on its key is the window step; every other key keeps its window. |
| RateLimit.RedisRateLimiter.Check | server/core/rate_limit.py:87-99 | The method's effect on its key is the counter step; every other key keeps its counter. |
| RateLimit.BurstBound | server/core/rate_limit.py:51-62 | Over any trace with a clock that does not go back, a half-open interval as long as the window holds at most 2*limit-1 allowed calls. |
| RateLimit.BurstBoundIsTight | server/core/rate_limit.py:51-62 | For every limit and window some trace reaches 2*limit-1. |
| RateLimit.BurstServed | server/core/rate_limit.py:51-62 | After a pause as long as the window, of the calls that follow within one window the first limit are allowed, the k-th told limit - k are left, and the others denied. |
| RateLimit.RetryAfterSuffices | server/core/rate_limit.py:51-62 | A call made retry-after seconds after a denial is allowed, and the advice exceeds the remaining wait by at most a second. |
| RateLimit.LimitersAgree | server/core/rate_limit.py:87-99 | On every trace, for every limit and window, both limiters give the same allowed and remaining, though they count differently. |
| RateLimit.RedisRetryAfterSufficesIff | server/core/rate_limit.py:87-99 | A client waiting as Redis advises is allowed unless more than a second is left and it ends in a nonzero fraction below one half. |
| RateLimit.RedisAdviceTooShort | server/core/rate_limit.py:87-99 | A trace in which a client waits the advised second and is turned away again. |
| Limits.FirstBreakIsFirst | server/controllers/limits_controller.py:97-98 | The split point is the first blank line of the text, and there is none exactly when no blank line occurs. |
| Limits.SplitUndoesComposeIff | server/controllers/limits_controller.py:25-28 | Splitting gives both fields back exactly when the label has no blank line and, if notes follow, does not end in a newline. |
| Limits.ComposeUndoesSplitIff | server/controllers/limits_controller.py:97-100 | Composing what a split gave restores the body unless nothing follows its first blank line. |
| Limits.LimitTable.Create | server/controllers/limits_controller.py:76-87 | A sub with a goddess gets a new row with the composed body, unacknowledged; a sub without one gets none; all other rows stay. |
| Limits.LimitTable.UpdateOwn | server/controllers/limits_controller.py:89-109 | Succeeds exactly for the owner's row, which becomes the edited row with its acknowledgement cleared; otherwise nothing changes. |
| Limits.LimitTable.Acknowledge | server/controllers/limits_controller.py:126-140 | Stamps the row exactly when the sub is under the caller's profile now and the row is hers; the error cases, in the code's order, leave all rows. |
| Limits.AcknowledgedIff | server/controllers/limits_controller.py:126-140 | It succeeds exactly for the goddess the sub is assigned to on her own row of that sub, keeps everything but the stamp, and keeps an earlier stamp. |
| Limits.AcknowledgedOnce | server/controllers/limits_controller.py:126-140 | A second acknowledgement returns the row as the first left it, and nobody but the same goddess can make it. |
| Limits.LimitTable.DeleteOwn | server/controllers/limits_controller.py:111-116 | Removes exactly the owner's row or nothing. |
| Limits.BodyIsTwoFields | server/controllers/limits_controller.py:89-109 | Under any sequence of edits with separable labels the stored body equals the body of two fields patched on their own, and no edited row stays acknowledged. |
| Limits.LastEditDecides | server/controllers/limits_controller.py:89-109 | After any sequence of edits kind and severity are those of the last edit that names them, else the original ones. |
| Limits.EditKeepsFieldsIff | server/controllers/limits_controller.py:89-109 | Every possible edit keeps the two fields independent exactly when the stored pair can be split again. |
| Limits.TrailingNewlineMoves | server/controllers/limits_controller.py:25-28 | A concrete label ending in a newline loses it to the notes. |
| Ledger.ReplayEvents | server/utils/ledger.py:22-35 | The loop computes the balance as the fold of the rounded event effects over the principal. |
| Ledger.EventEffect | server/utils/ledger.py:22-35 | One more event makes of any balance b: with interest or a late penalty of rate r the penny nearest to b times 1 + r, with a payment, adjustment or surprise penalty the penny nearest to b less or plus its amount, ties to even; with a buyout nothing. |
| Ledger.WholePenceEffect | server/utils/ledger.py:22-35 | Amounts in whole pence are added and taken off exactly. |
| Ledger.LedgerTable.Apply | server/utils/ledger.py:38-60 | An event is appended exactly when its (contract, period, type) key is free; only its contract's balance changes, by the event's effect, and every balance stays the replay of its log. |
| Ledger.ContractLogIs | server/utils/ledger.py:38-48 | A contract is replayed over its own events, each as often as the log holds it, and no other. |
| Ledger.KeyTakenIff | server/models/debt_event.py:21-26 | An insert fails exactly when an event of the same contract, type and period is there; an event without a period always goes in. |
| Ledger.PaymentSettles | server/utils/ledger.py:22-35 | Paying exactly the balance leaves zero. |
| Ledger.ReplayMonotone | server/utils/ledger.py:22-35 | A larger balance stays at least as large under the same later events, rounding included. |
| Ledger.PayingEarlyNeverCostsMore | server/utils/ledger.py:22-35 | Paying before interest or a penalty never leaves a higher balance than paying after it, whatever events follow. |
| Cron.TickContract | server/controllers/cron_controller.py:201-253 | A tick's effect on the ledger and its outcome (nothing, charged with or without a penalty, refused) follow the log alone. |
| Cron.PaidSinceIsSum | server/controllers/cron_controller.py:285-293 | The payments that count are the sum of the contract's payment events stamped at the charge or later. |
| Cron.TickIgnoresEarlier | server/controllers/cron_controller.py:271-293 | Two logs that differ only in payments of the contract from before the charge of the last period give its tick the same outcome. |
| Cron.TickRefusedIff | server/controllers/cron_controller.py:210-222 | A tick is refused exactly when it owes a penalty for the last period and one is already logged. |
| Cron.TickTwice | server/controllers/cron_controller.py:201-208 | A second tick in the same period writes nothing, and is refused again if the first was. |
| Cron.CronController.TickSub | server/controllers/cron_controller.py:187-199 | Ticks a sub's active contracts in order up to the first refusal, which gives up the rest; what was written before it is taken to stay. |
| Cron.CronController.RunDaily | server/controllers/cron_controller.py:56-113 | Dry run and apply report the same summary and errors from the same state; a dry run leaves ledger and balances as they were. |
| Cron.JobWritesOwn | server/controllers/cron_controller.py:74-91 | The job only appends, and only events of contracts selected for active subs. |
| Cron.JobCounts | server/controllers/cron_controller.py:102-106 | Its counts are the active subs and those of them with a rolling tribute of some amount that is not paused; each error names an active sub. |
| Job.TickIsLocal | server/controllers/cron_controller.py:201-253 | Two logs with the same events of a contract give it the same tick and the same events afterwards. |
| Job.ContractsAlone | server/controllers/cron_controller.py:187-199 | After a sub's contracts are ticked, each has what a tick of it alone writes, up to the first refused one; those behind it, and all others, are as they were; the count is that of the charged ones. |
| Job.JobIsEachAlone | server/controllers/cron_controller.py:81-96 | After the job each contract of an active sub has what a tick of it alone writes unless one before it among that sub's is refused, every other contract is as it was, and the errors are the subs with a refused contract. |
| Job.JobCharges | server/controllers/cron_controller.py:88-106 | The contracts counted are the charged ones of the subs without a refused contract. |
| Cron.DailyRunTwice | server/controllers/cron_controller.py:56-113 | A second run on the log the first one left, in the same periods, appends nothing and reports the same errors and no contract. |
| Cron.DailyRunAfterWrites | server/controllers/cron_controller.py:56-113 | After a run without errors a second one in the same periods appends nothing and reports no error, whatever was written to the log in between. |
| Cron.PaymentLiftsRefusal | server/controllers/cron_controller.py:210-222 | A log on which the first run reports an error and, after a payment, the second one charges. |
| LatePenalty.BulkApply | server/controllers/late_penalty_controller.py:73-165 | The loop's log, four counters and id list are those of judging every distinct id on the log as it was at the start. |
| LatePenalty.BulkAppendsOwn | server/controllers/late_penalty_controller.py:88-131 | The call appends exactly one penalty, with the contract's own percentage and period, for each id that names an active, signed contract of the caller's past its period start without a payment or penalty for the period; and nothing else. |
| LatePenalty.CountersMean | server/controllers/late_penalty_controller.py:81-165 | Each of the four counters is the number of distinct ids that are not found, not late, already penalised, or penalised now. |
| LatePenalty.CountersPartition | server/controllers/late_penalty_controller.py:81-165 | For any input the four counters sum to the number of distinct ids. |
| LatePenalty.VerdictAfterBulk | server/controllers/late_penalty_controller.py:103-131 | After a bulk penalty a penalised contract is already penalised within its period, and every other verdict is as without it. |
| LatePenalty.BulkAgainIff | server/controllers/late_penalty_controller.py:103-131 | A repeat within the same periods penalises exactly the contracts not late at the first call and late at the second. |
| LatePenalty.BulkAgainSample | server/controllers/late_penalty_controller.py:103-131 | A call on the first day of a period that penalises nothing and the same call a day later that does. |
| LatePenalty.BulkTwice | server/controllers/late_penalty_controller.py:81-165 | A repeat at the same instant applies nothing and leaves the log unchanged. |
| LatePenalty.PaidPeriodIndices | server/daos/debt_event_dao.py:40-57 | The dictionary holds, for exactly the given contracts with one, the period indices of their payment events. |
| LatePenalty.LateContracts | server/controllers/goddess_views_controller.py:135-195 | The list holds exactly the active subs' late contracts in table order, with days late capped at the period. |
| LatePenalty.LateListIs | server/controllers/goddess_views_controller.py:152-176 | A contract is listed as often as the table holds it if its sub is active and it is signed, past its period start and without a payment for the period; else never. |
| LatePenalty.ItemMeans | server/controllers/goddess_views_controller.py:163-190 | A listed contract is shown with its own sub and minimum, and with its UTC days into the period, at least one and at most 7, 14 or 30. |
| LatePenalty.CountLateContracts | server/controllers/dashboard_summary_controller.py:98-130 | The counter equals the length of the late list at the same instant. |
| LatePenalty.BulkAcceptsLateList | server/controllers/late_penalty_controller.py:93-114 | Called on the late list, the bulk penalty counts nothing as not late or not found. |
| Standings.StandingIff | server/controllers/debt/controller.py:402-560 | In any run a contract is active under a signature of time t exactly when a signature at t found it unsigned and nothing has revised, ended or bought it out since; it has ended exactly when an end or a buyout found it active. |
| Runs.CronLogAudits | server/controllers/cron_controller.py:201-253 | In every run without a bulk penalty on a contract, signed again or not, each penalty for k stands directly before the interest for k+1, and interest has one exactly when the period before was charged and its minimum missed. |
| Runs.CronNeverRefused | server/models/debt_event.py:21-26 | In such runs no tick ever meets the uniqueness key. |
| Runs.PenaltyIff | server/controllers/cron_controller.py:271-293 | In such runs a tick of an active contract charges its period p exactly when p is not charged yet, and penalises p-1 exactly when p-1 was charged and the payments since then sum to less than the minimum; so skipped periods are never penalised. |
| Runs.PenaltyBySum | server/controllers/cron_controller.py:210-293 | In such runs a tick that charges p appends the interest of p at the contract's rate, and before it the penalty of p-1 at its percentage exactly when interest for p-1 is in the log and the contract's payments stamped at its time or later add up to less than the minimum. |
| Runs.ChargedOnce | server/models/debt_event.py:21-26 | In every run, bulk penalties and new signatures included, no period of a contract is charged or penalised twice. |
| Runs.RisesUntilSigned | server/controllers/cron_controller.py:201-208 | In every run the interest charged since any point strictly rises in log order, up to the current period, as long as the contract is not signed again. |
| Runs.SignedOnceRises | server/controllers/debt/controller.py:402-424 | Over the whole life of a contract signed at most once its interest periods strictly rise. |
| Runs.OrderKeptIff | server/controllers/debt/controller.py:523-560 | For every log in rising order, whatever period a contract comes to be in, its next tick keeps the order exactly when every period below a charged one is charged, or is blocked because the penalty it owes for the period before is already logged. |
| Runs.ResignedOutOfOrder | server/controllers/debt/controller.py:556-559 | A run of signatures and ticks that charges week 3 before week 2. |
| Runs.LostUnlessSigned | server/controllers/cron_controller.py:201-222 | In every run a period the clock has passed uncharged is charged later exactly when the contract is signed again and a tick then finds it active in that period with nothing blocking the charge. |
| Runs.ResignedBlocked | server/controllers/cron_controller.py:213-222 | A run in which a contract signed again is back in a skipped period and the tick is refused. |
| Runs.PenaltyOrigin | server/controllers/late_penalty_controller.py:122-131 | In any run each penalty was written by a tick together with the interest of the next period right behind it, or by a bulk penalty that named the contract in that period, at that time. |
| Runs.RefusedOnlyAfterBulk | server/controllers/cron_controller.py:213-222 | In any run a tick is refused only if a bulk penalty named the contract while its index was one less, under this signature or an earlier one. |
| Runs.BulkBlocksNextTick | server/controllers/late_penalty_controller.py:122-131 | In any run, after a bulk penalty found the contract late in p, a tick of the active contract in p+1 is refused exactly as long as p+1 is uncharged and the payments since the charge of p miss the minimum, whatever happened in between. |
| Runs.BulkBlocksSample | server/controllers/cron_controller.py:210-222 | A run of a signature, a tick and a bulk penalty after which the tick of the next week is refused. |
| Runs.BulkOnlyOwn | server/controllers/late_penalty_controller.py:93-101 | In every run a bulk penalty writes only penalties, and only to active, signed contracts of the goddess who calls it among those she names. |
| Runs.NextPeriodUnpunished | server/controllers/cron_controller.py:210-222 | In any run the tick of a period whose predecessor is uncharged writes interest alone. |
| Runs.RefusedIsForgotten | server/controllers/cron_controller.py:210-222 | In any run, after a refused tick and unless a later tick of that period is let through, the next period is charged without a penalty, until the contract is signed again. |
| Runs.JobIsTicks | server/controllers/cron_controller.py:81-96 | The daily job on the active contracts of a run's state is a run of ticks with the same log, so all that holds in every run holds with the job in it. |
| Runs.PaymentsUnindexed | server/controllers/payment/controller.py:372-381 | In any run no payment event carries a period index. |
| Runs.LatenessIgnoresPayments | server/daos/debt_event_dao.py:28-57 | In any run a contract is late exactly when its period began on an earlier UTC date, whatever was paid. |
| Accounts.AccountTables.LoginAs | server/controllers/auth_controller.py:44-66 | Issues a token exactly for a matched account that is neither blacklisted nor deleted. |
| Accounts.AccountTables.RefreshToken | server/controllers/auth_controller.py:68-91 | An unrevoked token of an existing user that has not expired is revoked and replaced by one of the same user for thirty days; anything else changes nothing. |
| Accounts.AccountTables.LogoutToken | server/controllers/auth_controller.py:93-97 | Revokes the named token if there is one and touches no other. |
| Accounts.AccountTables.RevokeAllRefresh | server/daos/token_dao.py:77-87 | The loop revokes exactly the user's tokens. |
| Accounts.AccountTables.ConfirmPasswordReset | server/controllers/auth_controller.py:113-124 | A fresh reset token is used up and revokes all the user's refresh tokens; a used or expired one changes nothing. |
| Accounts.AccountTables.BreachSub | server/controllers/blacklist_controller.py:59-105 | A breach blacklists the sub, breaches its active contracts, records their total and revokes its tokens in one step, or changes nothing. |
| Accounts.AccountTables.ForgiveEntry | server/controllers/blacklist_controller.py:149-182 | Forgiving closes the entry once, by its own goddess, and activates the sub. |
| Accounts.BlacklistHolds | server/controllers/blacklist_controller.py:59-105 | In every reachable state a blacklisted user has no unrevoked refresh token and exactly one unforgiven entry, and everybody else has none. |
| Accounts.BlacklistedLockedOut | server/controllers/auth_controller.py:44-91 | In every reachable state a blacklisted user can neither log in nor refresh. |
| Accounts.TokensConserved | server/controllers/auth_controller.py:58-97 | A user's unrevoked tokens number the signup and logins less effective logouts since the last revoke-all; refreshes keep the number. |
| Accounts.AcceptedAtMostOnce | server/controllers/auth_controller.py:68-91 | In any run a raw token is accepted by refresh at most once. |
| Tokens.RefreshAcceptedIff | server/controllers/auth_controller.py:68-91 | In any run with a clock that does not go back, a refresh is accepted exactly when a signup, login or refresh of the run issued the token at most thirty days before and no step since exchanged it, logged it out, or revoked its user's tokens. |
| Tokens.ResetAcceptedIff | server/controllers/auth_controller.py:113-124 | In any such run a password reset is accepted exactly when an existing user requested it at most an hour before and it was not used since. |
| Tokens.TokenOrigin | server/daos/token_dao.py:20-45 | Every stored refresh token was issued by one step of the run, for thirty days, and is revoked exactly if a later step ended it. |
| Tokens.ResetOrigin | server/daos/token_dao.py:47-75 | Every stored reset token was requested by exactly one step, for an hour, and is used exactly if a later step used it. |
| Statuses.UserMovesIff | server/controllers/blacklist_controller.py:59-182 | A status changes exactly when an entry tribute that is owed is paid, when the linked goddess breaches a user not yet blacklisted, and when the goddess of an open entry closes it for a fee that is not negative; new users owe the entry tribute. |
| Statuses.EntryMovesIff | server/controllers/blacklist_controller.py:72-182 | An entry is new exactly for a breach, with the sum of the balances of the sub's active contracts, and changes only by its one forgiveness, which records the fee. |
| Statuses.ContractMovesIff | server/controllers/blacklist_controller.py:69-89 | A contract changes only when its sub is breached while it is active, and keeps its balance. |
| Statuses.LoginIff | server/controllers/auth_controller.py:44-66 | A login gets its token exactly for a known account that owes the entry tribute or is active. |
| Accounts.PreviewForetells | server/controllers/blacklist_controller.py:119-142 | The preview says whether the breach will succeed, the balance it freezes and how many contracts it breaches. |
| Accounts.ForgiveUndoesBreachIff | server/controllers/blacklist_controller.py:149-182 | Forgiving restores the sub's status exactly when it was active before the breach; tokens stay revoked and contracts breached. |
| Merits.FirstInsertWins | server/daos/merit_event_dao.py:16-29 | Over any run of inserts there is one event per source, the log only grows, and inserting a used source changes nothing. |
| Merits.MeritTables.InsertIdempotent | server/daos/merit_event_dao.py:16-29 | Appends the event and says so exactly when its source is free. |
| Merits.InsertedIff | server/models/merit_event.py:23-33 | An event is refused exactly when it names a source and one of the same kind and source is there. |
| Merits.MeritTables.BalanceForSub | server/daos/merit_event_dao.py:31-49 | The loop computes the sum of the sub's deltas under that goddess. |
| Merits.BalanceIsSum | server/daos/merit_event_dao.py:31-49 | A balance is the sum, event by event, of the deltas given to that sub under that goddess. |
| Merits.MeritTables.RedeemReward | server/controllers/merits_controller.py:184-225 | Row and debit are written together, or nothing is and the error says why. |
| Merits.MeritTables.InvokePunishment | server/controllers/merits_controller.py:231-269 | The punishment's row and event are written together, or nothing is. |
| Merits.LedgerHolds | server/models/merit_event.py:23-33 | In any run there is one event per source, and redemption and punishment rows match their events one to one, in order, with the price or points paid. |
| Merits.RedeemPays | server/controllers/merits_controller.py:184-225 | In any run a redeem succeeds exactly for an active, affordable tier of one's own goddess and leaves the balance less the price, which is not negative. |
| Merits.InvokePays | server/controllers/merits_controller.py:231-269 | In any run an invoke succeeds exactly for an active punishment of the caller's goddess and a sub of hers, and moves that sub's balance, and no other, by its points. |
| Penalty.MatchIsMostSpecific | server/daos/penalty_rule_dao.py:85-149 | The rule found is active and in scope, the sub's own before goddess-wide ones, with its threshold met and none ranked above it; none is found exactly when none is eligible. |
| Penalty.FoundRuleIs | server/daos/penalty_rule_dao.py:85-149 | A rule is found exactly when an active one of the goddess and trigger, for the sub or for all, is in reach of the lateness; the found one is the sub's own if it can be, and among those has the highest threshold, or without a lateness is the newest. |
| Penalty.JobPicksNewest | server/daos/penalty_rule_dao.py:148-149 | Without a lateness the rule found is a newest active rule of the scope: the sub's own rules if any, else the goddess-wide ones. |
| Penalty.LatenessHonouredIff | server/controllers/cron_controller.py:174-182 | For a sub d days late the job's choice is the documented one, however ties are broken, exactly when every newest active rule of the scope has its threshold met and no other met threshold is higher. |
| Penalty.ThresholdsHonouredIff | server/controllers/cron_controller.py:174-182 | It is so for every lateness exactly when every newest rule has the highest threshold of the scope and that is at most one day. |
| Penalty.ThresholdsInert | server/daos/penalty_rule_dao.py:133-149 | Without a lateness, changing every threshold changes nothing about which rule is chosen. |
| Penalty.ThirtyDayRuleOnDayOne | server/controllers/cron_controller.py:174-182 | A concrete thirty-day rule is applied by the job on the first day. |
| Penalty.PenaltyEngine.ApplyPenalty | server/services/penalty/engine.py:39-137 | Default, cooldown, points and log branches together change merit ledger and fire log as the specification says. |
| Penalty.CallEffect | server/services/penalty/engine.py:50-137 | What one call books and logs, field by field: the default where no rule is found; nothing while the rule's hours since a fire for the same sub and source last; else the fire, with the rule's points if it applies points and the source was not charged before. |
| Penalty.DeltaIsBalanceChangeIff | server/services/penalty/engine.py:50-84 | The returned delta is the change of the balance except when no rule matches and a default for a used source is reported. |
| Penalty.RepeatedDefault | server/services/penalty/engine.py:73-84 | A default charge repeated for one source is reported twice and booked once. |
| Penalty.SuppressedIff | server/services/penalty/engine.py:86-103 | After a call that was not suppressed, the next one for the same sub and source is suppressed exactly until the cooldown has passed since the first was logged. |
| Penalty.FiresAreSpaced | server/daos/penalty_rule_dao.py:151-181 | In any run two fires of a rule with a fixed cooldown for the same sub and source are more than the cooldown apart. |
| Penalty.FiresPerSpan | server/daos/penalty_rule_dao.py:151-181 | Any span T holds at most T/cooldown + 1 of them. |
| Penalty.LaterFiresPayNothing | server/services/penalty/engine.py:105-125 | In any run, after a points rule has fired for a source, every later fire for it is worth no points. |
| Review.ReviewTables.SubmitTask | server/controllers/task_controller.py:139-154 | The owner's open task goes to review; otherwise nothing changes. |
| Review.ReviewTables.UpdateTask | server/controllers/task_controller.py:68-78 | Points change only while the task is open. |
| Review.ReviewTables.CancelTask | server/controllers/task_controller.py:80-87 | Only an open task of the caller's is cancelled. |
| Review.ReviewTables.CancelPendingTasksForSub | server/services/panic/orchestrator.py:36-48 | The emergency stop cancels exactly the sub's open tasks and those in review, and counts them. |
| Review.ReviewTables.ApproveTask | server/controllers/task_controller.py:89-103 | A submitted task of the caller's is approved and credited in one step. |
| Review.ReviewTables.RejectTask | server/controllers/task_controller.py:105-128 | A submitted task of the caller's is declined and handed to the penalty engine in one step. |
| Review.ReviewTables.CompleteOccurrence | server/controllers/ritual_controller.py:176-197 | A pending occurrence with the proof its ritual requires is completed and credited in one step. |
| Review.ReviewTables.SubmitOccurrence | server/controllers/ritual_controller.py:199-217 | A pending occurrence with the required proof goes to review. |
| Review.ReviewTables.ReviewOccurrence | server/controllers/ritual_controller.py:123-159 | A submitted occurrence is completed and credited or rejected and charged. |
| Review.ReviewTables.BulkAction | server/controllers/review_queue_controller.py:93-119 | The loop runs each item on what its predecessors left and sorts the items into two lists. |
| Review.ReviewTables.MarkMissedForToday | server/services/cron/rituals.py:93-124 | Marks exactly the pending rows of the date as missed and consults the engine once for each. |
| Moves.TaskMovesIff | server/controllers/task_controller.py:68-154 | For every request and every task: the row afterwards. It goes to review only by its own sub while open, is approved or declined only by its own goddess while in review, alone or in a batch that names it, is edited or cancelled only by her while open, and is cancelled by its own sub's emergency stop; else it stays. |
| Moves.OccurrenceMovesIff | server/controllers/ritual_controller.py:123-217 | For every request and every occurrence: the row afterwards. It is completed or submitted only by its own sub while pending, with the proof its ritual requires, judged only by its own goddess while submitted, missed only by the pass of its date; it goes only with its ritual. |
| Moves.NewRowsAre | server/services/cron/rituals.py:55-90 | A new task is open with what it was given, a new occurrence pending for the sub and goddess of its scheduled ritual; no other request makes rows. |
| Moves.VerdictEvent | server/services/merits/credits.py:19-59 | A verdict appends exactly one event, for the item's own sub and goddess and with its own points, or for a declined task what the engine charges. |
| Moves.MissedWrites | server/services/cron/rituals.py:93-124 | The missed pass appends, for each pending row of the date in order, its own charge or none, by the rules and fires as they were before it. |
| ReviewRuns.DispatchDecides | server/controllers/review_queue_controller.py:134-153 | An item succeeds exactly when it waits for this caller's review; a failure changes nothing, a success settles this item and no other. |
| ReviewRuns.ReviewPays | server/services/merits/credits.py:19-59 | In every sound state a review moves the balance of the item's own sub, in full, by the item's points or by those of a matching rule that applies points and is not cooling down, and nobody else's. |
| ReviewRuns.CompletePays | server/controllers/ritual_controller.py:186-197 | Completing an occurrence credits its sub with the ritual's points, in full, and nobody else. |
| ReviewRuns.BulkSucceedsIff | server/controllers/review_queue_controller.py:93-119 | An item of a batch succeeds exactly when it waited at the start and is not a repeat; both lists keep the batch's order; no item of the batch waits afterwards. |
| ReviewRuns.BulkPartitions | server/controllers/review_queue_controller.py:93-119 | The succeeded and failed items together are the batch. |
| ReviewRuns.BulkSucceedsOnce | server/controllers/review_queue_controller.py:93-119 | No item succeeds twice in a batch. |
| ReviewRuns.MissedTwice | server/daos/ritual_occurrence_dao.py:142-158 | A second missed pass for a date updates nothing, charges nothing and returns 0. |
| ReviewRuns.MissedCharged | server/services/cron/rituals.py:104-117 | The missed pass charges a row it marks exactly when a matching rule applies points and is not cooling down or, where no rule matches, when its ritual costs points; it charges no other row. |
| ReviewRuns.SeedSound | server/daos/ritual_occurrence_dao.py:33-51 | Seeding keeps one row a ritual and day, adds a row for exactly the scheduled rituals that had none, and counts them. |
| ReviewRuns.SeedTwice | server/daos/ritual_occurrence_dao.py:33-51 | Seeding rituals that have their row inserts nothing. |
| ReviewRuns.RunSound | server/controllers/task_controller.py:80-154 | In any run, emergency stops included, each task and occurrence is credited exactly when approved or completed, a task with its own points, charged for a miss only when declined, rejected or missed, and never both. |
| ReviewRuns.EmptySound | server/controllers/task_controller.py:44-59 | The empty tables are sound, so runs may start from nothing. |
| ReviewRuns.OutcomeIsFinal | server/controllers/ritual_controller.py:30-33 | In any run the first outcome of a task or occurrence is its only one: the row never changes again, until its ritual is deleted. |
| ReviewQueue.WaitingUnstamped | server/daos/review_queue_dao.py:38-43 | In any run a waiting occurrence has no completion time, so a page with a cursor lists none. |
| ReviewQueue.ListedIffReviewable | server/daos/review_queue_dao.py:19-72 | Without a cursor the listings hold exactly the items on which a review by that goddess succeeds. |
| ReviewQueue.CutFirstIsEnough | server/controllers/review_queue_controller.py:43-91 | Cutting the task listing before the merge loses nothing from the page. |
| ReviewQueue.PageIsNewestIff | server/controllers/review_queue_controller.py:43-91 | For all submission times the page shows the newest waiting items exactly when at most limit occurrences wait. |
| Profile.ProfileTables.RequestChange | server/controllers/profile_controller.py:56-82 | A request is made exactly when at least one field is proposed. |
| Profile.ProfileTables.ApplyDiff | server/controllers/profile_controller.py:285-301 | The named user gets exactly the proposed fields; nobody else changes. |
| Profile.ProfileTables.ApproveFree | server/controllers/profile_controller.py:99-113 | The sub's goddess approves a pending request and its diff is applied in the same step. |
| Profile.ProfileTables.SetFee | server/controllers/profile_controller.py:115-125 | A pending request gets a fee and waits for it. |
| Profile.ProfileTables.AcceptFee | server/controllers/profile_controller.py:127-162 | The sub's acceptance declares a payment of the fee and links it, possibly again. |
| Profile.ProfileTables.OnFeePaid | server/controllers/profile_controller.py:164-182 | The one request linked to the payment is approved if it waits; otherwise nothing happens. |
| Profile.ProfileTables.EditPendingAsSub | server/controllers/payment/controller.py:187-211 | The owner changes amount and method of a pending declaration; the error cases, in the code's order, change nothing. |
| Profile.ProfileTables.Reject | server/controllers/profile_controller.py:184-202 | A pending or waiting request is rejected with its reason and time. |
| Profile.RunSound | server/daos/profile_change_request_dao.py:68-107 | In any run, edits and decisions on declared payments included, the applied diffs are those of the approved requests, once each; the resolution time is set exactly on resolved requests; a linked payment is a declaration by the request's sub and serves one request. |
| Profile.LinkedAmountIff | server/controllers/payment/controller.py:187-211 | In any run the linked payment is of the fee exactly when the last amount its sub gave it since the acceptance, if any, is the fee. |
| Profile.FeeUndercut | server/controllers/payment/controller.py:196-211 | A run in which the declared payment of a fee is edited down to a penny and paying it approves the request. |
| Profile.ResolvedIsFinal | server/controllers/profile_controller.py:190-194 | Approved and rejected are absorbing for every kind of step. |
| Profile.ApprovedOnlyBy | server/controllers/profile_controller.py:99-182 | A request becomes approved exactly by a free approval while pending or by the payment it is linked to at that moment while it waits. |
| Profile.NeverAmbiguous | server/controllers/profile_controller.py:166-173 | In any run the lookup by payment finds at most one request, and every linked request is found. |
| Profile.SupersededPaymentIgnored | server/controllers/profile_controller.py:127-182 | After the fee is accepted again, paying the first declaration changes nothing. |
| Profile.FeeNeedsFeePaid | server/controllers/profile_controller.py:164-182 | In any run without the fee-paid step no request with a fee is ever approved. |
| Profile.ApprovalShowsDiff | server/controllers/profile_controller.py:285-301 | A free approval makes the profile show the proposed fields and changes the users exactly when it did not show them already. |
| ProfileMoves.RequestMovesIff | server/controllers/profile_controller.py:99-202 | For every step and every request: the row afterwards. Only the goddess its sub is linked to now approves it or sets a fee while pending, or rejects it until resolved; only its own sub accepts the fee, by an enabled method of that goddess; only its linked payment approves it while it waits. |
| ProfileMoves.NewRequestIff | server/controllers/profile_controller.py:56-253 | A request is made exactly when a field is proposed that is not empty, or when a real name is to replace a different one; it begins pending without a fee. |
| ProfileMoves.DeclarationMovesIff | server/controllers/payment/controller.py:187-302 | For every step and every declared payment: the row afterwards. Only its own sub edits or withdraws it and only its own goddess decides it, all while it is open. |
| ProfileMoves.NewDeclarationIff | server/controllers/profile_controller.py:127-162 | A declaration is made exactly by an acceptance while the fee is awaited, of that fee, to the sub's goddess. |
| ProfileMoves.ApprovedShows | server/controllers/profile_controller.py:285-301 | Whatever step approves a request, the profile of its sub shows the proposed fields from then on, and no other profile changes. |
| ProfileMoves.ProfilesMoveOnlyBy | server/controllers/profile_controller.py:208-301 | Apart from approvals profiles change only when they are put and when a first real name is set. |

## Left out

- Notifications, logging, e-mail, push, sockets and HTTP wiring: they change none of the tables modelled.
- Password hashing, JWT and envelope encryption: foreign calls.
- Concurrent transactions and the state of a database session after a failed flush.
- The daily job's rolling tributes beyond the number it reports: days late restart every week, and the amount due is a product of its inputs.
- The calls from the daily job and the bulk penalty into the penalty engine: the engine is modelled on its own, for every caller.
- The late amount shown to a sub: it uses London dates where the other late surfaces use UTC dates.
- Interest rates held unrounded in the session before a reload, and the order of events with equal time stamps.
- The refusal of a payment category when a declaration is edited or validated, and its category, proof and note.
- The emergency stop's pause of rituals and change of ownership status: neither is read by a step modelled here.
- The negotiation of a contract before its first signature: the terms are given.
- The gauge's quotient is rounded once; the code first rounds it to 28 digits, which matters only within that distance of a tie.
- Limits that change between two calls for one key of a rate limiter.
- The placeholder text refused by limit schemas, and the trigger texts.
- Which rituals fire on a weekday: the rows to seed are a parameter.
- `mark_missed_bulk`, `record_task_miss` and `record_ritual_miss_for_cron`: nothing calls them.
- Display names, presigned links and the order of rows shown on a page: presentation.
- A proposed display name or note of a profile request is stored and never applied; the model stores it too.
- Cron.CronController.TickSub: the state of the session after a failed flush inside the job's savepoint is not modelled.
- Cron.CronController.RunDaily: the rolling phase does not fail, and an error is the sub it belongs to, without its text.
- LatePenalty.LateContracts: the list is given before it is sorted for display, without the time of the last payment.
- ReviewQueue.CutFirstIsEnough: a page is the set of items on it, not their order.
- ReviewQueue.PageIsNewestIff: a page is the set of items on it, not their order, and the listing method itself is not written out.
- Review.ReviewTables.MarkMissedForToday: one clock reading stands for the whole pass, where the code reads the clock for each row.
- Review.ReviewTables.UpdateTask: title, description and due date are not modelled, because no other step reads them.
- Merits.MeritTables.InvokePunishment: the created row's title, status and points for a miss are left to the task model.
- Plain CRUD (toys, kinks, consent, aftercare, photos, reference data, administration) and the PDF upload of contracts.
