/** The scheduled interest job: it picks one rule per account, attempts an accrual for each and counts
    what happened. */
module InterestJob {
  import opened Money
  import opened Options
  import opened Transactions
  import opened Calendar
  import opened InterestRules
  import opened InterestSchedule
  import opened IncrementalAccrual
  import opened BatchCorrectness
  import opened InterestEngine
  import opened LinkedTables
  import opened InterestTables
  import opened InterestLifecycle

  datatype Target = Target(rule: Rule, owner: Id, currency: string)

  datatype Key = Key(account: Id, owner: Id)

  function KeyOf(x: Target): Key {
    Key(x.rule.account, x.owner)
  }

  // ---- The payable test

  /** The job's own test whether a rule pays out on a date; it agrees with the engine's. */
  function RulePayableOn(rule: Rule, date: nat): (payable: bool)
    ensures payable <==> ShouldPost(rule, date)
  {
    if date < rule.startDate then false
    else if rule.endDate.Some? && date > rule.endDate.value then false
    else
      match rule.accrual
      case AccrueMonthly =>
        (if rule.endDate.Some? && rule.endDate.value < MonthEnd(date) then rule.endDate.value else MonthEnd(date)) ==
          date
      case AccrueEndOfTerm => rule.endDate.Some? && rule.endDate.value == date
      case AccrueDaily => true
  }

  // ---- Selection

  predicate Eligible(x: Target, date: nat, k: Key) {
    KeyOf(x) == k && x.rule.startDate <= date
  }

  /** The eligible target of latest start for a key; of equals the first listed. */
  function BestOf(targets: seq<Target>, date: nat, k: Key): (best: Option<Target>)
    ensures best.Some? ==> best.value in targets && Eligible(best.value, date, k)
    ensures best.None? <==> forall i :: 0 <= i < |targets| ==> !Eligible(targets[i], date, k)
    ensures forall i :: 0 <= i < |targets| && Eligible(targets[i], date, k) ==>
            targets[i].rule.startDate <= best.value.rule.startDate
  {
    if targets == [] then None
    else
      var n := |targets| - 1;
      var earlier := BestOf(targets[..n], date, k);
      if Eligible(targets[n], date, k) && (earlier.None? || targets[n].rule.startDate > earlier.value.rule.startDate)
      then Some(targets[n])
      else earlier
  }

  /** `order` lists the best target of every key exactly once. */
  ghost predicate IsSelection(targets: seq<Target>, date: nat, order: seq<Target>) {
    && (forall n :: 0 <= n < |order| ==> BestOf(targets, date, KeyOf(order[n])) == Some(order[n]))
    && (forall m, n :: 0 <= m < n < |order| ==> KeyOf(order[m]) != KeyOf(order[n]))
    && (forall k :: BestOf(targets, date, k).Some? ==> BestOf(targets, date, k).value in order)
  }

  predicate Tabulates(targets: seq<Target>, date: nat, best: map<Key, Target>, k: Key) {
    BestOf(targets, date, k) == if k in best then Some(best[k]) else None
  }

  lemma BestOfOneMore(targets: seq<Target>, x: Target, date: nat, k: Key)
    ensures var earlier := BestOf(targets, date, k);
            BestOf(targets + [x], date, k) ==
            if Eligible(x, date, k) && (earlier.None? || x.rule.startDate > earlier.value.rule.startDate) then Some(x)
              else earlier
  {
    assert (targets + [x])[..|targets|] == targets;
  }

  /** One target per (account, owner), one of latest start; the order among them is arbitrary. */
  method SelectLatestRulesForAccounts(targets: seq<Target>, date: nat) returns (order: seq<Target>)
    ensures IsSelection(targets, date, order)
  {
    hide BestOf;
    var best: map<Key, Target> := map[];
    for n := 0 to |targets|
      invariant forall k :: Tabulates(targets[..n], date, best, k)
    {
      var x := targets[n];
      ghost var earlier := best;
      var k := KeyOf(x);
      if x.rule.startDate <= date && (k !in best || x.rule.startDate > best[k].rule.startDate) {
        best := best[k := x];
      }
      ghost var seen := targets[..n] + [x];
      assert targets[..n + 1] == seen;
      forall q ensures Tabulates(seen, date, best, q) {
        assert Tabulates(targets[..n], date, earlier, q);
        BestOfOneMore(targets[..n], x, date, q);
      }
    }
    assert targets[..|targets|] == targets;
    order := ListBest(targets, date, best);
  }

  method ListBest(targets: seq<Target>, date: nat, best: map<Key, Target>) returns (order: seq<Target>)
    requires forall k :: Tabulates(targets, date, best, k)
    ensures IsSelection(targets, date, order)
  {
    hide BestOf;
    order := [];
    var left := best.Keys;
    while left != {}
      invariant left <= best.Keys
      invariant forall n :: 0 <= n < |order| ==> KeyOf(order[n]) !in left
      invariant forall n :: 0 <= n < |order| ==> BestOf(targets, date, KeyOf(order[n])) == Some(order[n])
      invariant forall m, n :: 0 <= m < n < |order| ==> KeyOf(order[m]) != KeyOf(order[n])
      invariant forall k :: k in best && k !in left ==> best[k] in order
      decreases |left|
    {
      var k :| k in left;
      assert Tabulates(targets, date, best, k);
      order := order + [best[k]];
      left := left - {k};
    }
    forall k | BestOf(targets, date, k).Some? ensures BestOf(targets, date, k).value in order {
      assert Tabulates(targets, date, best, k);
    }
  }

  /** Two selections from one list hold the same targets, whatever their order. */
  lemma SelectionsAgree(targets: seq<Target>, date: nat, xs: seq<Target>, ys: seq<Target>)
    requires IsSelection(targets, date, xs) && IsSelection(targets, date, ys)
    ensures forall x :: x in xs <==> x in ys
  {
    hide BestOf;
    assert forall x :: x in xs ==> BestOf(targets, date, KeyOf(x)) == Some(x);
    assert forall x :: x in ys ==> BestOf(targets, date, KeyOf(x)) == Some(x);
  }

  // ---- A run

  datatype RunResult = RunResult(tables: Tables, scanned: nat, posted: nat, skipped: nat, failed: nat)

  function Attempt(t: Tables, x: Target, date: nat): AccrueOutcome {
    AttemptOn(AccountRows(t.txs, x.rule.account), AccountAccruals(t.accruals, x.rule.account), x.rule, x.currency,
      date, t.nextId)
  }

  /** One target. A rejected attempt counts as skipped; `faults` holds the rules whose attempt ends in an
      infrastructure error and is rolled back. */
  function RunTarget(run: RunResult, x: Target, date: nat, faults: set<Id>): RunResult {
    if !RulePayableOn(x.rule, date) then run.(skipped := run.skipped + 1)
    else if x.rule.id in faults then run.(failed := run.failed + 1)
    else
      var t' := AccrueStep(run.tables, x.rule, x.currency, date);
      if Attempt(run.tables, x, date).Accrued? then run.(tables := t', posted := run.posted + 1)
      else run.(tables := t', skipped := run.skipped + 1)
  }

  function RunTargets(t: Tables, order: seq<Target>, scanned: nat, date: nat, faults: set<Id>): RunResult {
    if order == [] then RunResult(t, scanned, 0, 0, 0)
    else RunTarget(RunTargets(t, order[..|order| - 1], scanned, date, faults), order[|order| - 1], date, faults)
  }

  function JobRun(t: Tables, order: seq<Target>, date: nat, faults: set<Id>): RunResult {
    RunTargets(t, order, |order|, date, faults)
  }

  /** A completed run is a run over one selection of the targets. */
  method RunJob(store: InterestStore, targets: seq<Target>, date: nat, faults: set<Id>)
    returns (scanned: nat, posted: nat, skipped: nat, failed: nat, ghost order: seq<Target>)
    modifies store
    ensures IsSelection(targets, date, order)
    ensures RunResult(store.State(), scanned, posted, skipped, failed) ==
            JobRun(old(store.State()), order, date, faults)
  {
    hide IsSelection, AccrueStep, AccountRows, AccountAccruals;
    var chosen := SelectLatestRulesForAccounts(targets, date);
    order := chosen;
    scanned, posted, skipped, failed := |chosen|, 0, 0, 0;
    assert chosen[..0] == [];
    for n := 0 to |chosen|
      invariant scanned == |chosen|
      invariant RunResult(store.State(), scanned, posted, skipped, failed) ==
                RunTargets(old(store.State()), chosen[..n], |chosen|, date, faults)
    {
      var x := chosen[n];
      assert chosen[..n + 1][..n] == chosen[..n];
      if !RulePayableOn(x.rule, date) {
        skipped := skipped + 1;
        continue;
      }
      if x.rule.id in faults {
        failed := failed + 1;
        continue;
      }
      assert store.State().txs == store.transactions && store.State().accruals == store.accruals;
      var r := store.Accrue(x.rule, x.currency, date);
      if r.Accrued? {
        posted := posted + 1;
      } else {
        skipped := skipped + 1;
      }
    }
    assert chosen[..|chosen|] == chosen;
  }

  // ---- Whole runs

  /** Every scanned target is counted exactly once. */
  lemma {:induction false} CountsAddUp(t: Tables, order: seq<Target>, scanned: nat, date: nat, faults: set<Id>)
    ensures var run := RunTargets(t, order, scanned, date, faults);
            run.scanned == scanned && run.posted + run.skipped + run.failed == |order|
  {
    hide Attempt, AccrueStep, RulePayableOn;
    if order != [] {
      CountsAddUp(t, order[..|order| - 1], scanned, date, faults);
    }
  }

  /** The run reports as posted exactly the accruals it has added, each with its transaction. */
  lemma {:induction false} PostedIsAdded(t: Tables, order: seq<Target>, scanned: nat, date: nat, faults: set<Id>)
    ensures var run := RunTargets(t, order, scanned, date, faults);
            && |run.tables.accruals| == |t.accruals| + run.posted
            && |run.tables.txs| == |t.txs| + run.posted
  {
    hide AttemptOn, AccountRows, AccountAccruals, RulePayableOn;
    if order != [] {
      PostedIsAdded(t, order[..|order| - 1], scanned, date, faults);
    }
  }

  /** What the next attempt for an account depends on. */
  ghost predicate SameAccount(t: Tables, t': Tables, account: Id) {
    && AccountRows(t'.txs, account) == AccountRows(t.txs, account)
    && AccountAccruals(t'.accruals, account) == AccountAccruals(t.accruals, account)
  }

  /** A further attempt for the target would post nothing. */
  ghost predicate Settled(t: Tables, x: Target, date: nat) {
    !Attempt(t, x, date).Accrued?
  }

  lemma OtherAccountsUntouched(t: Tables, rule: Rule, currency: string, date: nat, account: Id)
    requires account != rule.account
    ensures SameAccount(t, AccrueStep(t, rule, currency, date), account)
  {
    hide AccountRows, AccountAccruals, PrincipalOn, UpToDate, Balance, ShouldPost, ActiveOn, AccrualAmount,
      CurrencyScale, HasAccrual, NextPeriodStart, AccrualPostings;
    var r := AttemptOn(AccountRows(t.txs, rule.account), AccountAccruals(t.accruals, rule.account), rule, currency,
      date, t.nextId);
    if r.Accrued? {
      AccountRowsSnoc(t.txs, r.transaction, account);
      AccountAccrualsSnoc(t.accruals, r.accrual, account);
    }
  }

  lemma SettledStays(t: Tables, t': Tables, x: Target, date: nat)
    requires SameAccount(t, t', x.rule.account) && Settled(t, x, date)
    ensures Settled(t', x, date)
  {
    hide AccountRows, AccountAccruals, PrincipalOn, UpToDate, Balance, ShouldPost, ActiveOn, AccrualAmount,
      CurrencyScale, HasAccrual, NextPeriodStart, AccrualPostings;
  }

  lemma AttemptSettles(t: Tables, x: Target, date: nat)
    ensures Settled(AccrueStep(t, x.rule, x.currency, date), x, date)
  {
    hide AccountRows, AccountAccruals, PrincipalOn, UpToDate, Balance, ShouldPost, ActiveOn, AccrualAmount,
      CurrencyScale, NextPeriodStart, AccrualPostings;
    var r := Attempt(t, x, date);
    if r.Accrued? {
      var existing := AccountAccruals(t.accruals, x.rule.account);
      AccountAccrualsSnoc(t.accruals, r.accrual, x.rule.account);
      assert Owns(x.rule, (existing + [r.accrual])[|existing|]);
    }
  }

  /** No two targets of a run share an account. */
  ghost predicate SeparateAccounts(order: seq<Target>) {
    forall m, n :: 0 <= m < n < |order| ==> order[m].rule.account != order[n].rule.account
  }

  /** An account has one owner, so a selection handles each account once. */
  lemma SelectionSeparates(targets: seq<Target>, date: nat, order: seq<Target>)
    requires IsSelection(targets, date, order)
    requires forall x, y :: x in targets && y in targets && x.rule.account == y.rule.account ==> x.owner == y.owner
    ensures SeparateAccounts(order)
  {
    hide BestOf;
  }

  /** A target is settled by any run that includes it and does not fail on it. */
  lemma {:induction false} RunSettles(t: Tables, order: seq<Target>, scanned: nat, date: nat, faults: set<Id>,
      x: Target)
    requires SeparateAccounts(order) && x in order && RulePayableOn(x.rule, date) && x.rule.id !in faults
    ensures Settled(RunTargets(t, order, scanned, date, faults).tables, x, date)
  {
    hide Attempt, AccrueStep, RulePayableOn, Settled, SameAccount;
    var n := |order| - 1;
    var before := RunTargets(t, order[..n], scanned, date, faults).tables;
    if order[n] == x {
      AttemptSettles(before, x, date);
    } else {
      var y := order[n];
      RunSettles(t, order[..n], scanned, date, faults, x);
      OtherAccountsUntouched(before, y.rule, y.currency, date, x.rule.account);
      SettledStays(before, AccrueStep(before, y.rule, y.currency, date), x, date);
    }
  }

  lemma SettledStep(t: Tables, x: Target, date: nat)
    requires Settled(t, x, date)
    ensures AccrueStep(t, x.rule, x.currency, date) == t
  {
  }

  lemma {:induction false} SettledRun(t: Tables, order: seq<Target>, scanned: nat, date: nat, faults: set<Id>)
    requires forall x :: x in order && RulePayableOn(x.rule, date) ==> Settled(t, x, date)
    ensures var run := RunTargets(t, order, scanned, date, faults); run.tables == t && run.posted == 0
  {
    hide Attempt, AccrueStep, RulePayableOn;
    if order != [] {
      SettledRun(t, order[..|order| - 1], scanned, date, faults);
      if RulePayableOn(order[|order| - 1].rule, date) {
        SettledStep(t, order[|order| - 1], date);
      }
    }
  }

  /** Failures are exactly the payable targets the faults hit. */
  lemma {:induction false} NoFailures(t: Tables, order: seq<Target>, scanned: nat, date: nat, faults: set<Id>)
    ensures RunTargets(t, order, scanned, date, faults).failed == 0 <==>
            forall x :: x in order && RulePayableOn(x.rule, date) ==> x.rule.id !in faults
  {
    hide Attempt, AccrueStep, RulePayableOn;
    if order != [] {
      var n := |order| - 1;
      NoFailures(t, order[..n], scanned, date, faults);
      assert order == order[..n] + [order[n]];
    }
  }

  /** Repeating a run that had no failure, on the same date and in any order, posts nothing and changes
      nothing, whatever faults hit the repetition. */
  lemma RerunPostsNothing(t: Tables, targets: seq<Target>, order: seq<Target>, again: seq<Target>, date: nat,
                          faults: set<Id>, laterFaults: set<Id>)
    requires IsSelection(targets, date, order) && IsSelection(targets, date, again)
    requires forall x, y :: x in targets && y in targets && x.rule.account == y.rule.account ==> x.owner == y.owner
    requires JobRun(t, order, date, faults).failed == 0
    ensures var run := JobRun(t, order, date, faults);
            var rerun := JobRun(run.tables, again, date, laterFaults);
            rerun.tables == run.tables && rerun.posted == 0
  {
    hide IsSelection, RunTargets, RulePayableOn, Settled, SeparateAccounts;
    var t' := JobRun(t, order, date, faults).tables;
    SelectionSeparates(targets, date, order);
    SelectionsAgree(targets, date, order, again);
    NoFailures(t, order, |order|, date, faults);
    forall x | x in again && RulePayableOn(x.rule, date) ensures Settled(t', x, date) {
      RunSettles(t, order, |order|, date, faults, x);
    }
    SettledRun(t', again, |again|, date, laterFaults);
  }

  // ---- Night after night

  ghost predicate StoredRules(order: seq<Target>) {
    forall x :: x in order ==> ValidRule(x.rule) && x.rule.isActive
  }

  lemma SameAccountSameBook(t: Tables, t': Tables, rule: Rule, scale: nat)
    requires SameAccount(t, t', rule.account)
    ensures TableBook(t', rule, scale) == TableBook(t, rule, scale) && Postings(t', rule) == Postings(t, rule)
  {
    hide AccountRows, AccountAccruals, AccrualPostings, BookOf;
    SnapshotPostings(t.accruals, rule);
    SnapshotPostings(t'.accruals, rule);
  }

  ghost predicate SameBook(t: Tables, t': Tables, x: Target) {
    TableBook(t', x.rule, CurrencyScale(x.currency)) == TableBook(t, x.rule, CurrencyScale(x.currency))
  }

  /** What a run has to do for a rule: one attempt if it handles the rule, nothing if it handles no rule
      of the account. */
  ghost predicate Served(order: seq<Target>, x: Target) {
    x in order || forall y :: y in order ==> y.rule.account != x.rule.account
  }

  lemma {:induction false} RunIsAccrueDay(t: Tables, order: seq<Target>, scanned: nat, date: nat, x: Target)
    requires Consistent(t) && SeparateAccounts(order) && StoredRules(order) && Served(order, x)
    ensures var t' := RunTargets(t, order, scanned, date, {}).tables;
            && Consistent(t') && SameBook(t, t', x)
            && Postings(t', x.rule) ==
               if x in order then AccrueDay(TableBook(t, x.rule, CurrencyScale(x.currency)), Postings(t, x.rule), date)
               else Postings(t, x.rule)
  {
    hide Attempt, AccrueStep, RulePayableOn, SameAccount, Consistent, TableBook, Postings, AccrueDay;
    if order != [] {
      var n := |order| - 1;
      var y := order[n];
      var before := RunTargets(t, order[..n], scanned, date, {}).tables;
      assert order == order[..n] + [y];
      RunIsAccrueDay(t, order[..n], scanned, date, x);
      OneAttempt(before, y, date);
      if y != x {
        OtherAccountsUntouched(before, y.rule, y.currency, date, x.rule.account);
        SameAccountSameBook(before, AccrueStep(before, y.rule, y.currency, date), x.rule, CurrencyScale(x.currency));
      }
    }
  }

  /** One target of a run: an attempt on the tables, also where the job skips a day that pays nothing. */
  lemma OneAttempt(t: Tables, x: Target, date: nat)
    requires Consistent(t) && ValidRule(x.rule) && x.rule.isActive
    ensures var t' := AccrueStep(t, x.rule, x.currency, date);
            && Consistent(t') && SameBook(t, t', x)
            && Postings(t', x.rule) == AccrueDay(TableBook(t, x.rule, CurrencyScale(x.currency)), Postings(t, x.rule),
              date)
    ensures !RulePayableOn(x.rule, date) ==>
              AccrueDay(TableBook(t, x.rule, CurrencyScale(x.currency)), Postings(t, x.rule), date) ==
                Postings(t, x.rule)
  {
    hide AccrueStep, Consistent, Postings, AmountDue, HasPosting, ShouldPost, AccountRows, AccountAccruals, BaseRows,
      Flows;
    AccrueStepIsAccrueDay(t, x.rule, x.currency, date);
  }

  /** The job run once a day from day `first`, with `orders[d]` handled on day `first + d`. */
  function Nights(t: Tables, orders: seq<seq<Target>>, first: nat): Tables {
    if orders == [] then t
    else
      var n := |orders| - 1;
      JobRun(Nights(t, orders[..n], first), orders[n], first + n, {}).tables
  }

  /** Every run handles the target while its rule is active, and no other rule of its account. */
  ghost predicate ServedEveryNight(orders: seq<seq<Target>>, first: nat, x: Target) {
    forall d :: 0 <= d < |orders| ==>
      && SeparateAccounts(orders[d]) && StoredRules(orders[d]) && Served(orders[d], x)
      && (ActiveOn(x.rule, first + d) ==> x in orders[d])
  }

  lemma {:induction false} NightsAreAccrueDays(t: Tables, orders: seq<seq<Target>>, first: nat, x: Target)
    requires Consistent(t) && ServedEveryNight(orders, first, x)
    ensures var t' := Nights(t, orders, first);
            && Consistent(t') && SameBook(t, t', x)
            && Postings(t', x.rule) ==
               AccrueDays(TableBook(t, x.rule, CurrencyScale(x.currency)), Postings(t, x.rule), first, first + |orders|)
  {
    hide RunTargets, Consistent, AccountRows, AccountAccruals, BaseRows, Flows, Postings, AccrueDay,
      SeparateAccounts, StoredRules, Served, ActiveOn;
    if orders != [] {
      var n := |orders| - 1;
      NightsAreAccrueDays(t, orders[..n], first, x);
      var before := Nights(t, orders[..n], first);
      RunIsAccrueDay(before, orders[n], |orders[n]|, first + n, x);
      InactiveDay(TableBook(t, x.rule, CurrencyScale(x.currency)), Postings(before, x.rule), first + n);
    }
  }

  lemma InactiveDay(book: Book, posts: seq<Posting>, day: nat)
    requires book.scale <= 6
    ensures !ActiveOn(book.rule, day) ==> AccrueDay(book, posts, day) == posts
  {
    hide AmountDue, HasPosting;
  }

  /** A rule the job serves every night from its start date ends up with exactly the accruals of one
      recalculation of the whole range, however many other accounts the same runs handle. */
  lemma NightlyRunsEqualRecalculation(t: Tables, orders: seq<seq<Target>>, x: Target, to: nat)
    requires Consistent(t) && ValidRule(x.rule) && x.rule.isActive && x.rule.startDate <= to
    requires |orders| == to + 1 - x.rule.startDate && ServedEveryNight(orders, x.rule.startDate, x)
    requires Postings(t, x.rule) == []
    requires var book := TableBook(t, x.rule, CurrencyScale(x.currency));
             && FlushesOnTime(book, [], x.rule.startDate, to)
             && AllWithin(Schedule(book, [], x.rule.startDate, to + 1), MAX_AMOUNT)
    ensures Postings(Nights(t, orders, x.rule.startDate), x.rule) ==
            Postings(RecalculateStep(t, x.rule, x.currency, x.rule.startDate, to), x.rule)
  {
    hide Consistent, RecalculateStep, AccrueEveryDay, FlushesOnTime, Schedule, AllWithin, AccrueDays, Postings,
      Nights, ServedEveryNight;
    NightsAreAccrueDays(t, orders, x.rule.startDate, x);
    EveryDayIsAccrueDays(t, x.rule, x.currency, x.rule.startDate, to + 1);
    EveryDayEqualsRecalculation(t, x.rule, x.currency, to);
  }
}
