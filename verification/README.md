# CapitalFlow: a verified model

CapitalFlow is a ledger-based finance tracker. This project models the parts of it whose correctness
depends on more than one function at a time, and proves what they promise:

- **Interest.** A rule accrues interest daily, monthly or at the end of its term, capitalizes it daily,
  monthly, at the end of the term or never, and counts days by one of three conventions. The same
  interest can be computed day by day or for a whole range at once. Both are modelled on the real
  Gregorian calendar and with the real rounding, from the calendar up to the tables, the account-locked
  lifecycle and the nightly job, and proved to agree with one schedule of payouts.
- **The ledger.** Creates, cancels, deletions, two-phase reversals, transfers, accruals and
  recalculations as atomic steps in any interleaving over one transaction table.
- **Account locks**, **idempotent requests**, **refresh tokens** and the **rate limiter** as state
  machines over all their runs.
- **Decimal strings** of the web client: reading, printing and exact arithmetic.

Layout. Every file holds one module (`Transactions.dfy` also holds the small `Options`).
`Calendar`, `Money`, `Transactions`, `InterestRules` and `RateLaws` are the vocabulary. `Schedule` says which
payouts a rule owes. `Incremental` (day by day) and `Batch` / `BatchProof` (whole range) are the two
ways, `Recalculation`, `Compounding` and `FlushNecessity` what follows for payout lists. `Engine` is the
imperative code over table rows, `Linked` and `Tables` connect rows to payouts, `Lifecycle` holds the store
and the table-level theorems, `InterestJob` the job. `Ledger`, `LedgerProof`, `LedgerTheorems`,
`LedgerEffects` and `LedgerStore` are the transaction table, `Isolation` keeps its users apart, and
`WholeUnits` joins it to the rounding of interest. `DecimalStrings`,
`Exponents` and `DecimalMoney` are the web client's amounts; the remaining files stand alone.

Conventions. Dates are day numbers, day 0 being 1 January of year 1. Server amounts are integers in
units of 10^-18. Fresh UUIDs are drawn from a counter. Each SQL statement, or each section between
`Begin` and `Commit`, is one atomic step. Clocks, exchange rates, infrastructure failures and map
iteration orders are parameters or arbitrary choices. Division and rounding of the decimal library are
assumed to round half away from zero, division to 16 fractional digits.

What does not hold unconditionally:

- A recalculation skips the flush of waiting payouts on a capitalization day that earns nothing
  (interest_rule_service.go:368-370). For daily accrual with monthly capitalization, principal is then
  late. `FlushesOnTime` is the exact condition: for principal to be on time on every day
  (`BatchCorrectness.OnTimeExactlyWhenFlushed`), for recalculations to make the scheduled payouts whatever
  moves on the day after (`FlushNecessity.FlushExactly`), and for them to split
  (`FlushNecessity.SplitExactly`). `Compounding.LateFlushChangesInterest` is an account on which day-by-day
  accrual and recalculation then differ, and `Compounding.LateFlushBreaksSplitting` the same account
  recalculated in two parts and in one. The condition holds for every rule of any other combination.
- The two roundings of a day's interest act as one exactly when the remainder of the division is not in
  the half step below half a minor unit (`Money.DoubleRoundingExactly`). `Money.DoubleRoundingCanHurt` is
  an amount at the full precision of storage that is. Balances of up to nine decimals never are
  (`Money.DoubleRoundingIsHarmless`), and no ledger comes to hold more than six (`WholeUnits.SixDecimals`),
  so no interest it posts is affected (`WholeUnits.EveryAccrualRoundsOnce`,
  `WholeUnits.EveryRecalculationRoundsOnce`).
- Creating a transaction validates its amount in the currency the account had before the lock was taken. Rows
  are whole minor units of their account as long as no currency so read is finer than the one the account
  then has (`WholeUnits.EveryRowIsWhole`, `WholeUnits.StaleReadExactly`); `WholeUnits.StaleCurrencySlipsIn`
  is a run in which it is.
- `normalizeMoney` replaces only the first comma, so it is idempotent exactly when no other is left
  (`DecimalMoney.NormalizingTwiceExactly`, `DecimalMoney.TwoCommas`). Its result is canonical exactly when
  the text is in the money pattern and not a zero with a minus sign (`DecimalMoney.NormalFormExactly`): text
  such as ".5" is read but kept as it stands (`DecimalMoney.BareFraction`).
- The rate limiter's scan for the oldest bucket uses the empty key for "none chosen". It drops an oldest
  bucket in every iteration order exactly when that key is absent, alone, or matched in age by another
  bucket (`RateLimiter.DropsOldestExactly`, `RateLimiter.EmptyKeyMisleads`). A client has the empty key only
  when the remote address of its request is empty (ratelimit.go:141-152).

## Model

| member | source | states |
|---|---|---|
| `Calendar.MonthIsUnique` | internal/services/interest_rule_service.go:802-809 | every day lies in exactly one calendar month of exactly one year |
| `Calendar.SameMonth` | internal/services/interest_rule_service.go:802-809 | all days of a month have that month's first and last day |
| `Calendar.NextMonth` | internal/services/interest_rule_service.go:735-747 | months tile the calendar: the day after a month's end starts a month |
| `Calendar.YearStartClosedForm` | internal/services/interest_rule_service.go:899-901 | the leap-year rule adds up to the Gregorian closed form |
| `Calendar.MonthLengths` | internal/services/interest_rule_service.go:802-809 | the months of a year have their 28 to 31 days, February 29 in leap years, and fill the year |
| `Calendar.MonthHasItsLength` | internal/services/interest_rule_service.go:802-809 | from the first to the last day of its month are that many days |
| `Money.RoundingIsNearest` | pkg/money/money.go:121-123 | of either sign, a number is the rounding if and only if it is the nearest integer, halves away from zero |
| `Money.DailyInterestMonotone` | internal/services/interest_rule_service.go:687-692 | through both roundings more balance never earns less |
| `Money.DailyInterestIsWhole` | internal/services/interest_rule_service.go:687-692 | a day's interest is a whole number of minor units |
| `Money.RoundTwiceExactly` | internal/services/interest_rule_service.go:687-692 | rounding in two steps is rounding once if and only if the remainder is not in the half step below one half |
| `Money.DoubleRoundingExactly` | internal/services/interest_rule_service.go:687-692 | dividing to 16 digits and then rounding a day's interest is one rounding of the exact rational if and only if the remainder is not carried over |
| `Money.DoubleRoundingIsHarmless` | internal/services/interest_rule_service.go:687-692 | it is, on every balance of up to nine decimals, for every currency scale |
| `Money.WholeUnitsRoundOnce` | internal/services/interest_rule_service.go:687-692 | on whole minor units the single rounding is that of minor units times rate over 10000 times the days of the year |
| `Money.DoubleRoundingCanHurt` | internal/services/interest_rule_service.go:687-692 | the condition is needed: a balance at full storage precision whose remainder is carried over, so that the two results differ |
| `Money.RoundingDrift` | internal/services/interest_rule_service.go:687-692 | n days of posted interest are within n/2 minor units of the exact sum |
| `Money.ScalesByCurrency` | pkg/money/money.go:85-119 | which currencies have no minor units, three, four or six digits, and that all others have two |
| `Money.LargestAmount` | internal/domain/transaction/transaction.go:43-45 | the bound on an amount is a trillion units |
| `Transactions.BalanceConcat` | internal/services/balance_service.go:29-63 | balances of parts of a ledger add up |
| `Transactions.BalanceIgnoresOrder` | internal/services/balance_service.go:29-63 | a balance does not depend on the order rows are listed in |
| `LedgerEffects.BalanceIsCreditsLessDebits` | internal/postgres/transactions.go:250-265 | a balance is the confirmed and reversed credits less the debits, kind by kind, as the transfer's own query sums it |
| `Transactions.CalculateBalance` | internal/services/balance_service.go:29-79 | the loop computes the fold of signed effects of confirmed and reversed rows of the account, and counts them |
| `Transactions.TransactionsUpToDate` | internal/services/interest_rule_service.go:618-627 | keeps exactly the rows dated by the day, in order |
| `InterestRules.CapitalizationDateIsDue` | internal/services/interest_rule_service.go:749-796 | an accrual capitalizes on an active capitalization day, never before its own date |
| `InterestRules.CapitalizesAtFirstChance` | internal/services/interest_rule_service.go:749-796 | the capitalization date is not after any active capitalization day, so it is the first one |
| `InterestRules.EveryActiveDayIsPaid` | internal/services/interest_rule_service.go:769-809 | an active day lies in the period of some payout day if and only if it is not of a term without an end |
| `InterestRules.RateChangesOnce` | internal/services/interest_rule_service.go:847-852 | the rate changes at most once, from promotional to regular at the promo's end |
| `InterestRules.ActualYearLength` | internal/services/interest_rule_service.go:833-845 | the actual convention divides by the calendar length of the day's year |
| `RateLaws.DayInClosedForm` | internal/services/interest_rule_service.go:687-692 | on whole minor units an active day earns minor units times the rate in force over 10000 times 365, 366 or the length of its year, rounded once; other days and balances earn nothing |
| `RateLaws.RecalculationAtOneRate` | internal/services/interest_rule_service.go:847-852 | a recalculation on one side of a promotion's end is that of a plain rule, at the promotional rate up to the end and at the annual rate after it |
| `RateLaws.ScheduleOnOneSide` | internal/services/interest_rule_service.go:847-852 | the same for scheduled payouts |
| `InterestRules.PeriodHoldsOnePayout` | internal/services/interest_rule_service.go:735-783 | an accrual period ends on its payout day and holds no other |
| `InterestRules.NextDayPeriod` | internal/services/interest_rule_service.go:735-783 | periods tile the active days |
| `InterestRules.PeriodOfNextPayout` | internal/services/interest_rule_service.go:735-783 | the first payout day at or after an active day closes that day's period |
| `InterestRules.PayoutSettled` | internal/services/interest_rule_service.go:526-532 | whether a monthly or term payout is principal is settled the day after it |
| `InterestSchedule.ScheduleDates` | internal/services/interest_rule_service.go:769-783 | scheduled payouts are positive, on payout days, strictly increasing and inside the range |
| `InterestSchedule.ScheduleAmounts` | internal/services/interest_rule_service.go:335-418 | each scheduled amount is the interest of the payout's whole period |
| `InterestSchedule.ScheduleSplit` | internal/services/interest_rule_service.go:335-418 | a schedule computed in two goes is the schedule of the whole range |
| `IncrementalAccrual.LatestStartIsDayAfterLast` | internal/services/interest_rule_service.go:702-719 | the next period starts on the later of the rule start and the day after the last earlier accrual |
| `IncrementalAccrual.NextPeriodStartIgnoresOrder` | internal/services/interest_rule_service.go:702-719 | the order of the accrual list does not matter |
| `IncrementalAccrual.AmountDueIsPeriod` | internal/services/interest_rule_service.go:243-249 | with nothing owed from before, the engine charges exactly the payout's own period |
| `IncrementalAccrual.DailyAttemptsFollowSchedule` | internal/services/interest_rule_service.go:211-286 | attempting an accrual on every day makes exactly the scheduled payouts |
| `BatchCorrectness.RunIsAccounted` | internal/services/interest_rule_service.go:320-418 | on every day, loop principal plus waiting payouts account for everything capitalized, from any history |
| `BatchCorrectness.OnTimeRunFollowsSchedule` | internal/services/interest_rule_service.go:335-418 | a loop whose principal is on time makes exactly the scheduled payouts |
| `BatchCorrectness.OnTimeExactlyWhenFlushed` | internal/services/interest_rule_service.go:357-411 | principal is on time on every day if and only if no capitalization day with something due is left without interest |
| `Recalculation.DependsOnEarlierOnly` | internal/services/interest_rule_service.go:320-333 | the result depends only on the rule's accruals strictly before the calculation start |
| `Recalculation.CalculationStartIsGood` | internal/services/interest_rule_service.go:721-733 | no payout day is dropped between the calculation start and the range, and the first payout gets its whole period |
| `Recalculation.RecalculationStaysInRange` | internal/services/interest_rule_service.go:335-418 | payouts strictly increase in date and all lie in the range although the loop may start before it |
| `Recalculation.RecalculationIsIdempotent` | internal/services/interest_rule_service.go:288-421 | recalculating and replacing again changes nothing |
| `Recalculation.RecalculationFollowsSchedule` | internal/services/interest_rule_service.go:288-421 | with a history of the same rule and the flush condition, a recalculation makes exactly the scheduled payouts |
| `Recalculation.RecalculationSplits` | internal/services/interest_rule_service.go:320-421 | replacing [a,m] and then [m+1,b] equals replacing [a,b], wherever m cuts a month or term |
| `Recalculation.IncrementalEqualsBatch` | internal/services/interest_rule_service.go:211-421 | day-by-day accrual and one recalculation agree payout by payout, for all frequencies and modes |
| `Compounding.RecalculationEarnsWholePeriods` | internal/services/interest_rule_service.go:335-418 | each recalculated amount is the loop's daily interest over its whole period, never a truncated one, whatever the history |
| `Compounding.CompoundingDominance` | internal/services/interest_rule_service.go:335-418 | total interest: daily capitalization at least monthly, monthly at least none, end of term equal to none |
| `Compounding.IncreasingRunsCharge` | internal/services/interest_rule_service.go:702-719 | on any increasing choice of days monthly and term rules charge consecutive stretches |
| `Compounding.EveryDayChargedOnce` | internal/services/interest_rule_service.go:243-246 | every day from the rule start to the last payout is charged by exactly one payout |
| `FlushNecessity.FlushExactly` | internal/services/interest_rule_service.go:357-411 | the flush condition holds if and only if recalculations up to any next day make the scheduled payouts whatever moves on that day |
| `FlushNecessity.SplitExactly` | internal/services/interest_rule_service.go:357-411 | it holds if and only if cutting off the last day of a recalculation changes nothing whatever moves on it |
| `Compounding.LateFlushChangesInterest` | internal/services/interest_rule_service.go:368-411 | an account without the flush condition on which the two ways differ |
| `Compounding.LateFlushBreaksSplitting` | internal/services/interest_rule_service.go:368-411 | the same account recalculated in two parts and in one go, with different payouts |
| `InterestEngine.PrincipalTransactionsForRuleAt` | internal/services/interest_rule_service.go:489-524 | drops exactly the rows of the rule's accruals that are not capitalized before the day |
| `InterestEngine.ExcludeAccrualTransactions` | internal/services/interest_rule_service.go:553-574 | drops exactly the rows of the rule's accruals dated in the range |
| `InterestEngine.PendingCapitalizationTransactionsBefore` | internal/services/interest_rule_service.go:576-616 | finds the rows of earlier accruals that capitalize inside the range |
| `InterestEngine.NextAccrualPeriodStart` | internal/services/interest_rule_service.go:702-719 | the loop computes the period start that the payout list determines |
| `InterestEngine.RecalculationStartDate` | internal/services/interest_rule_service.go:721-733 | the search for the first payout day yields the calculation start |
| `InterestEngine.HasInterestAccrual` | internal/services/interest_rule_service.go:864-874 | found exactly when the rule has an accrual on the date |
| `InterestEngine.CalculateAccrualAmount` | internal/services/interest_rule_service.go:629-685 | the day loop sums the daily interest on each day's balance; empty periods and balances are refused |
| `InterestEngine.Accrue` | internal/services/interest_rule_service.go:211-286 | one attempt with every refusal in the code's order |
| `InterestEngine.RefusalsInOrder` | internal/services/interest_rule_service.go:217-241 | each refusal happens exactly when its own check fails and all earlier ones pass; a skip exactly on a payout day that is already accrued |
| `InterestEngine.Route` | internal/services/interest_rule_service.go:405-415 | a posted row becomes principal, waits, or stays out, as its payout does |
| `InterestEngine.Recalculate` | internal/services/interest_rule_service.go:288-421 | the imperative day loop over rows refines the loop over payouts, including its error exits |
| `InterestEngine.ReportsWhatItWrites` | internal/services/interest_rule_service.go:372-403 | the reported total is that of the transactions, and transactions and accruals match one to one |
| `InterestEngine.SkippedOrEarning` | internal/services/interest_rule_service.go:343-366 | every day of the calculation has earned something or is counted as skipped |
| `LinkedTables.PrincipalBalance` | internal/services/interest_rule_service.go:489-532 | the balance of the filtered rows is base ledger plus capitalized payouts |
| `LinkedTables.AttemptPostsAmountDue` | internal/services/interest_lifecycle.go:90-130 | an attempt on rows posts the amount due on an unpaid payout day, and nothing otherwise |
| `LinkedTables.RangeLoopIsRecalculation` | internal/services/interest_rule_service.go:320-418 | on linked tables the row-level loop is the recalculation of the rule's payouts |
| `InterestTables.AccrueStepIsAccrueDay` | internal/services/interest_lifecycle.go:90-138 | an accrual on the tables adds the amount due, keeps the base ledger and the bijection of accruals and income rows |
| `InterestTables.RecalculateStepIsReplacement` | internal/postgres/interest_accruals.go:101-148 | a recalculation replaces exactly the rule's payouts of the range, or writes nothing if an amount is out of bounds |
| `InterestTables.ClearingKeepsConsistent` | internal/postgres/interest_accruals.go:101-148 | deleting a range keeps accruals and income rows in bijection |
| `InterestTables.PayoutKeepsConsistent` | internal/postgres/interest_accruals.go:244-252 | inserting a payout keeps the bijection and at most one accrual per account, rule and date |
| `InterestLifecycle.EveryDayEqualsRecalculation` | internal/services/interest_lifecycle.go:63-215 | on any consistent tables, accruing every day leaves the accruals of one recalculation |
| `InterestLifecycle.RecalculatingTwice` | internal/services/interest_lifecycle.go:140-215 | repeating a recalculation leaves the same accruals in the tables |
| `InterestLifecycle.RecalculatingInTwo` | internal/services/interest_lifecycle.go:140-215 | recalculating a range in two parts leaves the accruals of one go |
| `InterestLifecycle.RecalculationMovesBalance` | internal/postgres/interest_accruals.go:101-148 | the account balance moves by exactly the total posted minus the amounts deleted |
| `InterestLifecycle.SelectInterestRule` | internal/services/interest_lifecycle.go:257-291 | by id: the account's own rule, active if required, or the right refusal; without: a selectable rule of latest start, the first listed among equals, or none if there is none |
| `InterestLifecycle.InterestStore.ListTransactionsByAccount` | internal/postgres/interest_accruals.go:229-238 | the balance-affecting rows of the account |
| `InterestLifecycle.InterestStore.ListAccrualsByAccount` | internal/postgres/interest_accruals.go:240-242 | the accruals of the account |
| `InterestLifecycle.InterestStore.Accrue` | internal/services/interest_lifecycle.go:90-130 | the locked read, compute and write is one accrual step of the tables |
| `InterestLifecycle.InterestStore.ReplaceRange` | internal/postgres/interest_accruals.go:101-148 | deletes the rule's accruals of the range with their income rows, inserts the new ones, counts the deleted |
| `InterestLifecycle.InterestStore.Recalculate` | internal/services/interest_lifecycle.go:170-210 | the locked recalculation is one recalculation step of the tables |
| `InterestJob.RulePayableOn` | internal/jobs/interest.go:183-209 | the job's payable test agrees with the engine's |
| `InterestJob.BestOf` | internal/jobs/interest.go:143-160 | the choice for an account and owner is eligible and of latest start; none exactly when nothing is eligible |
| `InterestJob.SelectLatestRulesForAccounts` | internal/jobs/interest.go:143-167 | lists the choice of every account and owner exactly once, in any order |
| `InterestJob.SelectionsAgree` | internal/jobs/interest.go:143-167 | two selections hold the same targets whatever their order |
| `InterestJob.RunJob` | internal/jobs/interest.go:49-118 | a run handles one selection, with its counters, and changes the tables target by target |
| `InterestJob.CountsAddUp` | internal/jobs/interest.go:66-102 | scanned is posted plus skipped plus failed in every completed run |
| `InterestJob.PostedIsAdded` | internal/jobs/interest.go:82-102 | as posted a run reports exactly the accruals and transactions it has added |
| `InterestJob.RunSettles` | internal/jobs/interest.go:120-141 | after a run, a further attempt for any target that did not fail posts nothing |
| `InterestJob.RerunPostsNothing` | internal/jobs/interest.go:49-141 | re-running a failure-free run on its date posts nothing and changes nothing, whatever the order and later failures |
| `InterestJob.RunIsAccrueDay` | internal/jobs/interest.go:73-102 | a run gives each served rule exactly its one attempt, independently of the other accounts |
| `InterestJob.NightlyRunsEqualRecalculation` | internal/jobs/interest.go:49-141 | a rule served every night ends with the accruals of one recalculation of the whole range |
| `LedgerInvariants.StepKeeps` | internal/postgres/transactions.go:32-463 | every ledger step keeps the whole invariant |
| `LedgerInvariants.EveryRunKeeps` | internal/postgres/transactions.go:32-463 | in every reachable state accruals match income rows, reversed rows match opposite adjustments one to one, prepared reversals are still right, and transfer legs match their records |
| `Isolation.StrangersCannotTouch` | internal/postgres/transactions.go:65-91 | whatever a user does leaves every account of another user, its rows and its accruals as they were |
| `Isolation.AbsentUsersKeepAccounts` | internal/postgres/transactions.go:446-455 | over any run of steps of others, the accounts of a user stay as they were |
| `Isolation.InactiveAccountsAreFrozen` | internal/postgres/interest_accruals.go:163-178 | an account that is switched off gains and loses no row or accrual; rows can only still be retired |
| `LedgerEffects.CreateMovesBalance` | internal/postgres/transactions.go:32-63 | a committed create moves its account's balance from its date on by the amount, down for an expense and up otherwise, and no other balance |
| `LedgerEffects.CreateExactly` | internal/domain/transaction/transaction.go:28-66 | a create is committed if and only if its accounts are the user's, active and opened by then, its date is not in the future and its amount is valid for its kind and currency |
| `LedgerEffects.EveryRowIsSound` | internal/domain/transaction/transaction.go:28-66 | in every reachable ledger rows are non-zero and in bounds, only adjustments are negative, and only transfer legs have a transfer kind |
| `LedgerEffects.RetiringMarks` | internal/postgres/transactions.go:409-444 | a confirmed manual row of the owner is marked cancelled or deleted as asked, and every other row stays |
| `LedgerEffects.ReversalMovesBalance` | internal/services/transaction_service.go:187-224 | a reversal marks the row and takes its effect out of the balance from the day it is made |
| `LedgerEffects.TransferMovesBalances` | internal/postgres/transactions.go:152-248 | from its day on a transfer takes amount and fee from the source and credits the target, and moves nothing before |
| `LedgerEffects.TransferIsRecorded` | internal/services/transaction_service.go:144-158 | its record says who moved what and names the legs |
| `LedgerEffects.TransferExactly` | internal/postgres/transactions.go:161-217 | a transfer is made if and only if its form is right, both accounts are the user's, active and in the currencies read, and the source can pay amount and fee, if only just |
| `LedgerTheorems.RetiringMovesBalanceAlike` | internal/services/transaction_service.go:187-224 | cancel, deletion and reversal change every balance identically although the reversal's amount was read before the lock |
| `LedgerTheorems.RetiredAtMostOnce` | internal/postgres/transactions.go:354-463 | of all cancels, deletions and reversals of a row at most one ever succeeds |
| `LedgerTheorems.RetiredForGood` | internal/postgres/transactions.go:409-463 | a retired row stays as it is in all later states |
| `LedgerTheorems.TransferNeverOverdraws` | internal/postgres/transactions.go:208-217 | a committed transfer takes amount and fee, leaves the source at or above zero and no third account changed |
| `LedgerTheorems.SameCurrencyConserves` | internal/services/transfer_service.go:60-177 | a same-currency transfer lowers the two balances together by exactly the fee |
| `LedgerTheorems.CrossCurrencyCredit` | internal/services/transfer_service.go:104-114 | a cross-currency credit is whole minor units within half of one of amount times rate |
| `LedgerTheorems.LegsStayConfirmed` | internal/postgres/transactions.go:446-463 | the legs of a transfer match its record and stay confirmed in all later states |
| `LedgerTheorems.TransfersAreKept` | internal/postgres/transactions.go:152-248 | transfer records are never dropped or changed |
| `LedgerTheorems.InterestOutOfReach` | internal/postgres/transactions.go:446-463 | no manual step or transfer touches an income row of interest or an accrual |
| `WholeUnits.SixDecimals` | internal/domain/transaction/transaction.go:28-66 | in every run, whatever account currencies the steps have read, every row has at most six decimals |
| `WholeUnits.EveryRowIsWhole` | internal/postgres/accounts.go:115-155 | as long as no step reads, before it takes the lock, a currency of finer scale than the account then has, every row is whole minor units of its account |
| `WholeUnits.StaleReadExactly` | internal/services/transaction_service.go:226-248 | all amounts valid in the currency read are whole in the account's currency if and only if the one read is not finer |
| `WholeUnits.StaleCurrencySlipsIn` | internal/services/transaction_service.go:226-248 | a run in which a cent validated in dollars lands in an account changed to yen in between |
| `WholeUnits.EveryBalanceIsWhole` | internal/services/balance_service.go:29-79 | the same two precisions for every balance, over any selection of rows |
| `WholeUnits.EveryAccrualRoundsOnce` | internal/services/interest_rule_service.go:629-692 | in every reachable ledger, for any currency, an accrual's amount is the sum of daily interests each rounded once |
| `WholeUnits.EveryRecalculationRoundsOnce` | internal/services/interest_rule_service.go:335-366 | and so is every day of a recalculation, on the principal it has built up itself |
| `LedgerStore.TransactionStore.LockTransactionAccountsForUser` | internal/postgres/transactions.go:65-130 | passes exactly when all accounts are owned, active and opened; which refusal takes precedence |
| `LedgerStore.TransactionStore.LockTransferAccounts` | internal/postgres/transactions.go:161-200 | the same for transfers: the first account with a problem decides, inactive before opened later, and a missing one is reported last |
| `LedgerStore.TransactionStore.UpdateAccountForUser` | internal/postgres/accounts.go:115-155 | is the account step: the currency changes only while the account has no transactions |
| `LedgerStore.TransactionStore.LockManualLifecycleTransactionForUser` | internal/postgres/transactions.go:446-463 | yields exactly the confirmed manual row outside transfers of the user's account, or the right refusal |
| `LedgerStore.TransactionStore.CreateForUser` | internal/postgres/transactions.go:32-63 | inserts exactly when the request is valid; refused requests change nothing |
| `LedgerStore.TransactionStore.UpdateManualTransactionStatusForUser` | internal/postgres/transactions.go:409-444 | is the cancel or deletion step, successful exactly on a lockable row |
| `LedgerStore.TransactionStore.PrepareReversal` | internal/services/transaction_service.go:187-218 | the unlocked read fixes the opposite of the row's effect |
| `LedgerStore.TransactionStore.ReverseForUser` | internal/postgres/transactions.go:354-407 | is the commit step: mark and adjust, or nothing |
| `LedgerStore.TransactionStore.CreateTransfer` | internal/postgres/transactions.go:152-265 | is the transfer step; insufficient funds only when the balance is short of amount plus fee |
| `AccountLocks.EveryRunIsSound` | internal/postgres/transactions.go:65-91 | no account is locked twice and every session locks in ascending order, in every reachable state |
| `AccountLocks.WaitsAreAcyclic` | internal/postgres/transactions.go:161-169 | the wait-for graph never has a cycle, for any number of sessions |
| `AccountLocks.SomeoneCanProceed` | internal/postgres/interest_accruals.go:150-178 | while any session is open, some open session can take its next lock or finish |
| `AccountLocks.ReadyHoldsAll` | internal/postgres/transactions.go:65-91 | a session that can end holds exactly the user's accounts among those of its operation, both of a transfer and a related one too |
| `IdempotencyProtocol.EveryRunKeeps` | internal/http/middleware/idempotency.go:66-165 | in every interleaving with crashes and failures each scope is only seen to start, complete, replay and expire in that order, and the table shows that phase |
| `IdempotencyProtocol.OneExecutor` | internal/http/middleware/idempotency.go:112-150 | two requests never execute one scope at once |
| `IdempotencyProtocol.ExecutionsAreSeparated` | internal/postgres/idempotency.go:50-81 | between two executions of a scope lie the first one's recorded completion and its expiry; a pending record is never executed again |
| `IdempotencyProtocol.ReplaysAreExact` | internal/http/middleware/idempotency.go:117-142 | a replay returns exactly the recorded status and body of one earlier execution with the same request hash |
| `IdempotencyProtocol.TakenScopeIsAnswered` | internal/http/middleware/idempotency.go:117-142 | in every run a completed execution is replayed to the same request at any clock time and refused to another, and a running one is in progress until its lock is over and unknown after |
| `IdempotencyProtocol.FreeScopeIsExecuted` | internal/postgres/idempotency.go:50-81 | a request whose scope is free becomes its executor, locked for 30 seconds and retained for a day |
| `IdempotencyProtocol.CompletionIsRecorded` | internal/http/middleware/idempotency.go:145-163 | what the handler has written, unless a server error, is recorded and sent |
| `IdempotencyProtocol.ServerErrorStaysOpen` | internal/http/middleware/idempotency.go:147-150 | a server error is sent and records nothing, so the scope keeps running |
| `IdempotencyProtocol.FailedCompletion` | internal/http/middleware/idempotency.go:152-162 | what a caller is told when the completion fails or is lost, and what the scope then shows |
| `IdempotencyProtocol.FailuresRecordNothing` | internal/http/middleware/idempotency.go:112-126 | a failing statement or a crash ends the request and leaves the table as it is |
| `IdempotencyProtocol.PurgeFreesExpired` | internal/postgres/idempotency.go:68-70 | a purge frees exactly the completed scopes past retention |
| `IdempotencyProtocol.KeyTable.AnswerTaken` | internal/http/middleware/idempotency.go:117-142 | the answer to a taken scope, which replays only for the same hash and only the recorded response |
| `IdempotencyProtocol.KeyTable.DeleteExpired` | internal/postgres/idempotency.go:68-70 | removes exactly the completed rows past retention |
| `IdempotencyProtocol.KeyTable.CreatePending` | internal/postgres/idempotency.go:50-81 | inserts exactly when the scope is free after the purge |
| `IdempotencyProtocol.KeyTable.Complete` | internal/postgres/idempotency.go:83-96 | records the response on the request's own pending row only |
| `IdempotencyProtocol.OneMoreOutput` | internal/http/middleware/idempotency.go:203-216 | after any sequence of writes the first one has decided the status and bodies have been appended |
| `IdempotencyProtocol.CapturedResponse.WriteHeader` | internal/http/middleware/idempotency.go:203-208 | keeps the captured status and body those of all writes so far |
| `IdempotencyProtocol.CapturedResponse.Write` | internal/http/middleware/idempotency.go:210-216 | the same for a piece of the body |
| `IdempotencyProtocol.CapturedResponse.Recorded` | internal/http/middleware/idempotency.go:218-229 | what is recorded and sent is the response the whole sequence of writes amounts to, 200 by default |
| `RefreshTokens.RevocationIsPermanent` | internal/postgres/auth.go:327-394 | a revocation keeps its first time and reason on every run |
| `RefreshTokens.EveryLoginHasOneLive` | internal/postgres/auth.go:342-367 | each login lineage has at most one unrevoked token in every reachable state |
| `RefreshTokens.ReplayEndsAllSessions` | internal/services/auth_service.go:228-293 | after a committed rotation and any steps, presenting the old token starts the revocation of all its user holds, and once that commits every token of the user issued by then is dead in all later states: revoked, invalid as a session, unable to rotate or to start a rotation |
| `RefreshTokens.OneRotationCommits` | internal/postgres/auth.go:342-367 | of two refreshes of one token at most one commits |
| `RefreshTokens.PasswordChangeEndsAllSessions` | internal/postgres/auth.go:218-252 | after a password change every token of the user issued by then is dead for good |
| `RefreshTokens.LogoutEndsSession` | internal/services/auth_service.go:295-322 | after a committed logout its token is dead for good |
| `RefreshTokens.RevokingEndsSession` | internal/services/auth_service.go:439-467 | after revoking a session of one's own its token is dead for good |
| `RefreshTokens.ExpiryEndsSession` | internal/services/auth_service.go:425-437 | from its expiry on, which never moves, a token is no session and starts no rotation |
| `RefreshTokens.LoginOpensSession` | internal/services/auth_service.go:176-226 | a login opens a session of its user that is valid exactly for its lifetime |
| `RefreshTokens.RotationHandsOn` | internal/services/auth_service.go:228-293 | a rotation of a live token kills it and hands the session on for exactly the new lifetime |
| `RefreshTokens.PresentingStarts` | internal/services/auth_service.go:528-538 | what presenting a token starts, by whether it is live, expired, rotated away, revoked without a reason or for another one |
| `RefreshTokens.OtherUsersKeepTokens` | internal/postgres/auth.go:369-394 | no step touches a token of a user it does not act for |
| `RefreshTokens.TokenTable.RevokeToken` | internal/postgres/auth.go:327-340 | revokes an unrevoked token and reports whether it did |
| `RefreshTokens.TokenTable.Rotate` | internal/postgres/auth.go:342-367 | revokes the old token and inserts its successor, or neither |
| `RefreshTokens.TokenTable.RevokeAllOf` | internal/postgres/auth.go:384-394 | revokes every unrevoked token of the user and no other |
| `RateLimiter.Capacity` | internal/http/middleware/ratelimit.go:78-86 | room for eight times the limit, cut to the two bounds |
| `RateLimiter.NeverOverCapacity` | internal/http/middleware/ratelimit.go:39-106 | the bucket map never exceeds its capacity on any run |
| `RateLimiter.RunsAgree` | internal/http/middleware/ratelimit.go:39-76 | for every client whose own bucket is never dropped, with non-decreasing times, decisions equal those of an unbounded map |
| `RateLimiter.AtMostTwiceTheLimit` | internal/http/middleware/ratelimit.go:39-76 | any half-open interval one window long admits such a client at most twice the limit |
| `RateLimiter.BelowTheLimitIsAdmitted` | internal/http/middleware/ratelimit.go:39-76 | a request is admitted whenever fewer than the limit of its client's earlier requests lie in the window of time that ends with it |
| `RateLimiter.DropsOldestExactly` | internal/http/middleware/ratelimit.go:96-106 | the scan drops an oldest bucket in every iteration order if and only if the empty key is absent, alone, or matched in age by another bucket |
| `RateLimiter.EmptyKeyMisleads` | internal/http/middleware/ratelimit.go:96-106 | two buckets, the older under the empty key, of which the scan drops the younger |
| `RateLimiter.Limiter.RemoveExpired` | internal/http/middleware/ratelimit.go:88-94 | removes exactly the buckets whose window is over |
| `RateLimiter.Limiter.RemoveOldest` | internal/http/middleware/ratelimit.go:96-106 | drops the bucket a scan in some order ends on, an oldest one whenever the empty key is harmless |
| `RateLimiter.Limiter.Allow` | internal/http/middleware/ratelimit.go:39-76 | one request: makes room, counts and decides as specified; a limiter without limit or window admits all |
| `DecimalStrings.DigitsRoundTrip` | web/src/api/money.ts:320-328 | the digits of a number denote it |
| `DecimalStrings.PatternExactly` | web/src/api/money.ts:35-35 | the money pattern is exactly digits after an optional minus, with or without a point and more digits |
| `ExponentNotation.ExponentIsExact` | web/src/api/money.ts:258-281 | text with an exponent becomes plain text worth its coefficient times the power of ten |
| `ExponentNotation.NormalizingKeepsValue` | web/src/api/money.ts:247-256 | an amount read is that of the text as given, plain or with an exponent |
| `DecimalMoney.ExponentReads` | web/src/api/money.ts:258-281 | a plain coefficient, either mark and a written whole number read as the coefficient times that power of ten |
| `DecimalMoney.PaddingGoes` | web/src/api/money.ts:37-39 | blanks around a text, those of formatted amounts included, go |
| `DecimalMoney.SecondPointEnds` | web/src/api/money.ts:247-256 | what follows a second point is not read |
| `DecimalMoney.ReadingUndoesPrinting` | web/src/api/money.ts:320-328 | reading a printed value returns the same rational |
| `DecimalMoney.PrintingIsCanonical` | web/src/api/money.ts:320-328 | two decimals print alike if and only if they are the same rational |
| `DecimalMoney.NormalFormExactly` | web/src/api/money.ts:37-48 | of all readable text: the normal form is the canonical string if and only if the text is in the money pattern and not a signed zero |
| `DecimalMoney.BareFraction` | web/src/api/money.ts:37-48 | ".5" reads as one half and is kept, while one half prints as "0.5" |
| `DecimalMoney.NormalizingTwiceExactly` | web/src/api/money.ts:37-48 | of every string: normalizing is idempotent if and only if no comma is left after the first has become a point |
| `DecimalMoney.TwoCommas` | web/src/api/money.ts:37-48 | "1,2,3" normalizes to "1.2,3" and that to "1.2.3" |
| `DecimalMoney.AddIsExact` | web/src/api/money.ts:64-70 | sums are exact rationals |
| `DecimalMoney.AddCommutes` | web/src/api/money.ts:64-70 | addition commutes as strings |
| `DecimalMoney.AddAssociates` | web/src/api/money.ts:64-70 | addition associates as strings |
| `DecimalMoney.NegateIsExact` | web/src/api/money.ts:58-62 | negation is exact |
| `DecimalMoney.NegateTwice` | web/src/api/money.ts:58-62 | negating twice gives back the normal form, and zero of either sign negates to "0" |
| `DecimalMoney.SubtractUndoesAdd` | web/src/api/money.ts:72-74 | subtracting what was added gives back the canonical amount; an amount less itself is "0" |
| `DecimalMoney.CompareIsOrder` | web/src/api/money.ts:96-103 | comparison is the order of the rationals |
| `DecimalMoney.ClientRoundsLikeServer` | web/src/api/money.ts:304-317 | the client's quotient and remainder rounding is the server's rounding |
| `DecimalMoney.RoundUnitsIsNearest` | web/src/api/money.ts:304-317 | rounding to a currency moves an amount by at most half a minor unit, and not at all if it fits |
| `DecimalMoney.DivideIsNearest` | web/src/api/money.ts:76-94 | n times the n-th part is within n/2 minor units of the amount, and the part is whole minor units |
| `DecimalMoney.BadDivisor` | web/src/api/money.ts:76-81 | any number that is not a positive safe integer, infinite and NaN included, yields "0" whatever the text of the amount |

## Left out

- IncrementalEqualsBatch: for one given ledger late principal may by chance earn the same rounded interest, so the condition is exact over what may move on the day after and not ledger by ledger.
- CurrencyScale: takes a currency as accounts store it; trimming and upper-casing before the lookup are not modelled.
- LockTransferAccounts: compares days, where the code compares the instant of the transfer with the instant an account was opened.
- NextAccrualPeriodStart, CalculateAccrualAmount and the other engine methods do not model context cancellation, logging, or the default of today for a zero date.
- Accrual rows do not carry the recorded balance and rate, and transactions no category, description or metadata: they are copied and never read back by the modelled code.
- Rule: an unset capitalization frequency is merged with "none", which the code treats alike.
- ListTransactionsByAccount: the order of the SQL result is the insertion order; balances and period starts are proved independent of it.
- LedgerMachine.Create: rows of other sources (imports, automation and the like) have no creation step; of what a service reads before the lock, the currency is a parameter of the step and the opening date is read again under the lock.
- CreateTransfer: the branch for blank currencies, which the service never reaches with an account repository, is not modelled.
- RunJob: infrastructure failures roll an attempt back before it commits; a failure after commit and a cancelled context, which end the run early, are not modelled.
- IdempotencyProtocol: requests without a key or a user pass through and are not modelled; response headers are not recorded by the program and are left out; hashes are compared as values.
- RefreshTokens: token hashing, passwords, lockouts and audit events are left out; a presented token is named by its row.
- AccountLocks: only the explicit account row locks; foreign-key locks and statement snapshots inside PostgreSQL are left out.
- DecimalStrings: text with other characters than digits, points, a sign and an exponent is not readable in the model; the code hands it to `BigInt`, which rejects most of it. Exponents are unbounded integers. A currency's number of digits, which comes from locale data, is a parameter.
- Forecast: a thin wrapper over a recalculation whose projected balance may count accruals in the window twice, so it has no clean law.
- The command-line interest commands read their snapshot outside the lock and rely on a database constraint that is not part of this model.
- JSON, HTTP handlers, JWT, password hashing, WebAuthn, the exchange-rate client, dashboards, goals, limits, importers and backups would only add easy members or foreign code.
