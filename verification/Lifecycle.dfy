/** The interest lifecycle over whole runs, and the store it runs on. */
module InterestLifecycle {
  import opened Money
  import opened Options
  import opened Transactions
  import opened InterestRules
  import opened InterestSchedule
  import opened IncrementalAccrual
  import opened BatchRecalculation
  import opened BatchCorrectness
  import opened Recalculation
  import opened InterestEngine
  import opened LinkedTables
  import opened InterestTables

  /** An accrual attempt on every day from `from` up to but excluding `until`. */
  function AccrueEveryDay(t: Tables, rule: Rule, currency: string, from: nat, until: nat): Tables
    decreases until
  {
    if until <= from then t else AccrueStep(AccrueEveryDay(t, rule, currency, from, until - 1), rule, currency,
      until - 1)
  }

  lemma {:induction false} EveryDayIsAccrueDays(t: Tables, rule: Rule, currency: string, from: nat, until: nat)
    requires Consistent(t) && ValidRule(rule) && rule.isActive
    ensures var t', scale := AccrueEveryDay(t, rule, currency, from, until), CurrencyScale(currency);
            && Consistent(t')
            && TableBook(t', rule, scale) == TableBook(t, rule, scale)
            && Postings(t', rule) == AccrueDays(TableBook(t, rule, scale), Postings(t, rule), from, until)
    decreases until
  {
    hide Consistent, Postings, AccrueStep, AccrueDay, BaseRows, Flows, AccountRows, AccountAccruals;
    if from < until {
      EveryDayIsAccrueDays(t, rule, currency, from, until - 1);
      AccrueStepIsAccrueDay(AccrueEveryDay(t, rule, currency, from, until - 1), rule, currency, until - 1);
    }
  }

  lemma BoundsAgree(posts: seq<Posting>)
    ensures AllInBounds(posts) <==> AllWithin(posts, MAX_AMOUNT)
  {
  }

  /** On any consistent tables without payouts of the rule, attempting an accrual every day from the
      rule start leaves the same (date, amount) accruals as one recalculation of the whole range, for
      every accrual frequency, capitalization mode and day count. */
  lemma EveryDayEqualsRecalculation(t: Tables, rule: Rule, currency: string, to: nat)
    requires Consistent(t) && ValidRule(rule) && rule.isActive && rule.startDate <= to
    requires Postings(t, rule) == []
    requires var book := TableBook(t, rule, CurrencyScale(currency));
             && FlushesOnTime(book, [], rule.startDate, to)
             && AllWithin(Schedule(book, [], rule.startDate, to + 1), MAX_AMOUNT)
    ensures Postings(AccrueEveryDay(t, rule, currency, rule.startDate, to + 1), rule) ==
            Postings(RecalculateStep(t, rule, currency, rule.startDate, to), rule)
  {
    hide Consistent, RecalculateStep, AccrueEveryDay, FlushesOnTime, Schedule, AllWithin, AccrueDays, Recalculated,
      BaseRows, Flows, AllInBounds, AccrualPostings;
    var book := TableBook(t, rule, CurrencyScale(currency));
    EveryDayIsAccrueDays(t, rule, currency, rule.startDate, to + 1);
    IncrementalEqualsBatch(book, to);
    RecalculateStepIsReplacement(t, rule, currency, rule.startDate, to);
    assert Outside([], rule.startDate, to) == [];
    assert Earlier([], rule.startDate) == [];
    RecalculationFollowsSchedule(book, [], rule.startDate, to);
    BoundsAgree(Schedule(book, [], rule.startDate, to + 1));
  }

  /** Repeating a recalculation leaves the same accruals. */
  lemma RecalculatingTwice(t: Tables, rule: Rule, currency: string, from: nat, to: nat)
    requires Consistent(t) && rule.annualRateBps > 0 && from <= to
    ensures var once := RecalculateStep(t, rule, currency, from, to);
            Postings(RecalculateStep(once, rule, currency, from, to), rule) == Postings(once, rule)
  {
    hide Consistent, RecalculateStep, Recalculated, BaseRows, Flows, AllInBounds, AccrualPostings, Outside;
    var once := RecalculateStep(t, rule, currency, from, to);
    var book := TableBook(t, rule, CurrencyScale(currency));
    RecalculateStepIsReplacement(t, rule, currency, from, to);
    RecalculationIsIdempotent(book, Postings(t, rule), from, to);
    if once != t {
      RecalculateStepIsReplacement(once, rule, currency, from, to);
    }
  }

  /** Recalculating a range in two parts leaves the accruals of recalculating it in one go. */
  lemma RecalculatingInTwo(t: Tables, rule: Rule, currency: string, a: nat, m: nat, b: nat)
    requires Consistent(t) && rule.annualRateBps > 0 && a <= m < b
    requires OnSchedule(rule, Postings(t, rule))
    requires var book := TableBook(t, rule, CurrencyScale(currency));
             var earlier := Earlier(Postings(t, rule), a);
             && FlushesOnTime(book, earlier, a, b)
             && AllWithin(Schedule(book, earlier, a, b + 1), MAX_AMOUNT)
    ensures Postings(RecalculateStep(RecalculateStep(t, rule, currency, a, m), rule, currency, m + 1, b), rule) ==
            Postings(RecalculateStep(t, rule, currency, a, b), rule)
  {
    hide Consistent, RecalculateStep, Recalculated, BaseRows, Flows, AllInBounds, AccrualPostings, Outside, Earlier,
      FlushesOnTime, Schedule, AllWithin, OnSchedule, ShouldPost;
    var book, posts := TableBook(t, rule, CurrencyScale(currency)), Postings(t, rule);
    RecalculationSplits(book, posts, a, m, b);
    var t1 := RecalculateStep(t, rule, currency, a, m);
    RecalculateStepIsReplacement(t, rule, currency, a, m);
    RecalculateStepIsReplacement(t, rule, currency, a, b);
    PartsAreInBounds(book, posts, a, m, b);
    RecalculateStepIsReplacement(t1, rule, currency, m + 1, b);
  }

  lemma BoundsOfParts(xs: seq<Posting>, ys: seq<Posting>)
    requires AllInBounds(xs + ys)
    ensures AllInBounds(xs) && AllInBounds(ys)
  {
    assert forall i :: 0 <= i < |xs| ==> (xs + ys)[i] == xs[i];
    assert forall i :: 0 <= i < |ys| ==> (xs + ys)[|xs| + i] == ys[i];
  }

  lemma PartsAreInBounds(book: Book, posts: seq<Posting>, a: nat, m: nat, b: nat)
    requires book.scale <= 6 && OnSchedule(book.rule, posts) && a <= m < b
    requires FlushesOnTime(book, Earlier(posts, a), a, b)
    requires AllWithin(Schedule(book, Earlier(posts, a), a, b + 1), MAX_AMOUNT)
    ensures AllInBounds(Recalculated(book, Outside(posts, a, b), a, b).out)
    ensures AllInBounds(Recalculated(book, Outside(posts, a, m), a, m).out)
    ensures AllInBounds(Recalculated(book, Outside(Replaced(book, posts, a, m), m + 1, b), m + 1, b).out)
  {
    hide Recalculated, AllInBounds, Outside, Earlier, FlushesOnTime, Schedule, AllWithin, ShouldPost;
    var before := Earlier(posts, a);
    var first := Schedule(book, before, a, m + 1);
    BoundsAgree(Schedule(book, before, a, b + 1));
    ScheduleSplit(book, before, a, m + 1, b + 1);
    BoundsOfParts(first, Schedule(book, before + first, m + 1, b + 1));
    FlushSplits(book, before, a, m, b);
    RecalculationOutside(book, posts, a, b);
    RecalculationOutside(book, posts, a, m);
    OneReplacement(book, posts, a, m);
    ScheduleDates(book, before, a, m + 1);
    OutsideOnSchedule(book.rule, posts, a, m);
    EarlierAfterReplacement(posts, first, a, m);
    RecalculationOutside(book, Outside(posts, a, m) + first, m + 1, b);
  }

  lemma RecalculationOutside(book: Book, posts: seq<Posting>, from: nat, to: nat)
    requires book.scale <= 6 && OnSchedule(book.rule, posts) && from <= to
    requires FlushesOnTime(book, Earlier(posts, from), from, to)
    ensures Recalculated(book, Outside(posts, from, to), from, to).out ==
            Schedule(book, Earlier(posts, from), from, to + 1)
  {
    hide Recalculated, Outside, Earlier, FlushesOnTime, Schedule, OnSchedule;
    OutsideOnSchedule(book.rule, posts, from, to);
    EarlierOutside(posts, from, to, from);
    RecalculationFollowsSchedule(book, Outside(posts, from, to), from, to);
  }

  // ---- The account balance

  lemma {:induction false} ClearedBalance(txs: seq<Transaction>, accruals: seq<Accrual>, ids: set<Id>, rule: Rule,
      from: nat, to: nat)
    requires Paired(InterestRows(txs), accruals) && PicksRange(ids, accruals, rule, from, to)
    requires forall i :: 0 <= i < |txs| && txs[i].source != DepositInterest ==> txs[i].id !in ids
    ensures var posts := AccrualPostings(accruals, rule);
            Balance(rule.account, WithoutIds(txs, ids)) ==
            Balance(rule.account, txs) - Total(posts) + Total(Outside(posts, from, to))
  {
    hide Effect, Owns, Carries, Total, Outside, AccrualPostings, Balance;
    if txs == [] {
      NoPayoutsNoTotals(rule, from, to);
    } else {
      var n := |txs| - 1;
      var tx, rest := txs[n], txs[..n];
      assert txs == rest + [tx];
      BalanceSnoc(rule.account, rest, tx);
      BalanceSnoc(rule.account, WithoutIds(rest, ids), tx);
      if tx.source != DepositInterest {
        ClearedBalance(rest, accruals, ids, rule, from, to);
      } else {
        var m := |accruals| - 1;
        var a := accruals[m];
        assert InterestRows(txs)[m] == tx;
        CarriedRow(tx, a, rule);
        PairedPrefix(InterestRows(txs), accruals);
        assert InterestRows(txs)[..m] == InterestRows(rest);
        ClearedBalance(rest, accruals[..m], ids, rule, from, to);
        PostingsTotals(accruals[..m], a, rule, from, to);
        assert accruals == accruals[..m] + [a];
      }
    }
  }

  lemma NoPayoutsNoTotals(rule: Rule, from: nat, to: nat)
    ensures Total(AccrualPostings([], rule)) == 0 && Total(Outside(AccrualPostings([], rule), from, to)) == 0
  {
  }

  lemma CarriedRow(tx: Transaction, a: Accrual, rule: Rule)
    requires Carries(tx, a)
    ensures tx.id == a.transaction
    ensures Owns(rule, a) ==> Effect(rule.account, tx) == a.amount
  {
  }

  lemma PostingsTotals(accruals: seq<Accrual>, a: Accrual, rule: Rule, from: nat, to: nat)
    ensures var posts, posts' := AccrualPostings(accruals, rule), AccrualPostings(accruals + [a], rule);
            && Total(posts') == Total(posts) + (if Owns(rule, a) then a.amount else 0)
            && Total(Outside(posts', from, to)) ==
               Total(Outside(posts, from, to)) + (if Owns(rule, a) && !(from <= a.date <= to) then a.amount else 0)
  {
    hide Total, Outside, AccrualPostings;
    var posts, p := AccrualPostings(accruals, rule), Posting(a.date, a.amount);
    AccrualPostingsSnoc(accruals, a, rule);
    TotalSnoc(posts, p);
    OutsideSnoc(posts, p, from, to);
    TotalSnoc(Outside(posts, from, to), p);
  }

  lemma {:induction false} PayoutsBalance(t: Tables, rule: Rule, out: seq<Posting>)
    ensures Balance(rule.account, WithPayouts(t, rule, out).txs) == Balance(rule.account, t.txs) + Total(out)
  {
    if out != [] {
      var n := |out| - 1;
      PayoutsBalance(t, rule, out[..n]);
      var mid := WithPayouts(t, rule, out[..n]);
      BalanceSnoc(rule.account, mid.txs, InterestTransaction(rule, out[n], mid.nextId, mid.nextId + 1));
    }
  }

  lemma RangeRowsOnly(t: Tables, rule: Rule, from: nat, to: nat)
    requires Consistent(t)
    ensures forall i :: 0 <= i < |t.txs| && t.txs[i].source != DepositInterest ==>
              t.txs[i].id !in ReplacedIds(t.accruals, rule, from, to)
  {
    hide Carries, Owns;
    forall i | 0 <= i < |t.txs| && t.txs[i].source != DepositInterest
      ensures t.txs[i].id !in ReplacedIds(t.accruals, rule, from, to)
    {
      if j :| 0 <= j < |t.accruals| && t.accruals[j].transaction == t.txs[i].id {
        NamedRowIsInterest(t.txs, t.accruals, t.txs[i], j);
      }
    }
  }

  /** A recalculation moves the account balance by exactly what it posts minus what it deletes. */
  lemma RecalculationMovesBalance(t: Tables, rule: Rule, currency: string, from: nat, to: nat)
    requires Consistent(t) && rule.annualRateBps > 0 && from <= to
    ensures var t' := RecalculateStep(t, rule, currency, from, to);
            var posts := Postings(t, rule);
            var out := Recalculated(TableBook(t, rule, CurrencyScale(currency)), Outside(posts, from, to), from,
              to).out;
            var deleted := Total(posts) - Total(Outside(posts, from, to));
            AllInBounds(out) ==>
              Balance(rule.account, t'.txs) == Balance(rule.account, t.txs) + Total(out) - deleted
  {
    hide RecalculateStep, Recalculated, BaseRows, Flows, AllInBounds, Outside, Balance, Total, WithPayouts,
      AccrualPostings, WithoutInterest, WithoutIds, PicksRange;
    RecalculateStepIsReplacement(t, rule, currency, from, to);
    var ids := ReplacedIds(t.accruals, rule, from, to);
    ReplacedRowsAreInterest(t.txs, t.accruals, rule, from, to);
    ReplacedPickRange(t.txs, t.accruals, rule, from, to);
    RangeRowsOnly(t, rule, from, to);
    ClearedBalance(t.txs, t.accruals, ids, rule, from, to);
    PayoutsBalance(Cleared(t, rule, from, to), rule,
                   Recalculated(TableBook(t, rule, CurrencyScale(currency)), Outside(Postings(t, rule), from, to),
                     from, to).out);
  }

  // ---- Rule selection

  predicate Selectable(rule: Rule, date: nat) {
    rule.isActive && ActiveOn(rule, date)
  }

  datatype Selection = Selected(rule: Rule) | RuleNotFound | RuleNotActive

  ghost predicate DistinctRules(rules: seq<Rule>) {
    forall i, j :: 0 <= i < j < |rules| ==> rules[i].id != rules[j].id
  }

  /** Rule number k is the account's selectable one of latest start; of equals the first listed. */
  ghost predicate IsLatest(rules: seq<Rule>, account: Id, date: nat, k: nat) {
    && k < |rules| && rules[k].account == account && Selectable(rules[k], date)
    && (forall i :: 0 <= i < |rules| && rules[i].account == account && Selectable(rules[i], date) ==>
          rules[i].startDate <= rules[k].startDate)
    && (forall i :: 0 <= i < k && rules[i].account == account && Selectable(rules[i], date) ==>
          rules[i].startDate < rules[k].startDate)
  }

  predicate Refused(rule: Rule, account: Id, id: Id, date: nat) {
    rule.id == id && rule.account == account && !Selectable(rule, date)
  }

  /** With a rule id, that rule, which must be the account's and, if so required, selectable on the date;
      without one, the account's latest selectable rule. */
  method SelectInterestRule(rules: seq<Rule>, account: Id, ruleId: Option<Id>, date: nat, requireActive: bool)
    returns (selection: Selection)
    requires DistinctRules(rules)
    ensures ruleId.Some? && selection.Selected? ==>
              && selection.rule in rules && selection.rule.id == ruleId.value && selection.rule.account == account
              && (requireActive ==> Selectable(selection.rule, date))
    ensures selection.Selected? && (ruleId.None? || requireActive) ==>
              var rule := selection.rule;
              rule.isActive && rule.startDate <= date && (rule.endDate.Some? ==> date <= rule.endDate.value)
    ensures !selection.Selected? && ruleId.None? ==>
              forall i :: 0 <= i < |rules| && rules[i].account == account && rules[i].isActive
                          && rules[i].startDate <= date ==>
                            rules[i].endDate.Some? && rules[i].endDate.value < date
    ensures ruleId.Some? && selection.RuleNotFound? ==>
              forall i :: 0 <= i < |rules| && rules[i].id == ruleId.value ==> rules[i].account != account
    ensures ruleId.Some? && selection.RuleNotActive? ==>
              requireActive && exists i :: 0 <= i < |rules| && Refused(rules[i], account, ruleId.value, date)
    ensures ruleId.None? && selection.Selected? ==>
            exists k: nat :: IsLatest(rules, account, date, k) && rules[k] == selection.rule
    ensures ruleId.None? && !selection.Selected? ==>
              selection.RuleNotFound?
              && forall i :: 0 <= i < |rules| && rules[i].account == account ==> !Selectable(rules[i], date)
  {
    if ruleId.Some? {
      for i := 0 to |rules|
        invariant forall j :: 0 <= j < i ==> rules[j].id != ruleId.value
      {
        if rules[i].id == ruleId.value {
          if rules[i].account != account {
            return RuleNotFound;
          }
          return if requireActive && !Selectable(rules[i], date) then RuleNotActive else Selected(rules[i]);
        }
      }
      return RuleNotFound;
    }
    var k := SelectLatestRule(rules, account, date);
    return if k.Some? then Selected(rules[k.value]) else RuleNotFound;
  }

  method SelectLatestRule(rules: seq<Rule>, account: Id, date: nat) returns (selected: Option<nat>)
    ensures selected.Some? ==> IsLatest(rules, account, date, selected.value)
    ensures selected.None? ==> forall i :: 0 <= i < |rules| && rules[i].account == account ==>
            !Selectable(rules[i], date)
  {
    hide Selectable;
    selected := None;
    for i := 0 to |rules|
      invariant selected.Some? ==> selected.value < i && IsLatest(rules[..i], account, date, selected.value)
      invariant selected.None? ==> forall j :: 0 <= j < i && rules[j].account == account ==> !Selectable(rules[j], date)
    {
      if rules[i].account == account && Selectable(rules[i], date)
        && (selected.None? || rules[i].startDate > rules[selected.value].startDate)
      {
        selected := Some(i);
      }
    }
    assert rules[..|rules|] == rules;
  }

  // ---- The store

  /** The interest tables. Each public method runs under the account lock and is one atomic step. */
  class InterestStore {
    var transactions: seq<Transaction>
    var accruals: seq<Accrual>
    var nextId: Id

    constructor ()
      ensures State() == Tables([], [], 0)
    {
      transactions, accruals, nextId := [], [], 0;
    }

    ghost function State(): Tables
      reads this
    {
      Tables(transactions, accruals, nextId)
    }

    method ListTransactionsByAccount(account: Id) returns (rows: seq<Transaction>)
      ensures rows == AccountRows(transactions, account)
    {
      rows := [];
      for i := 0 to |transactions|
        invariant rows == AccountRows(transactions[..i], account)
      {
        assert transactions[..i + 1][..i] == transactions[..i];
        if transactions[i].account == account && transactions[i].status.AffectsBalance() {
          rows := rows + [transactions[i]];
        }
      }
      assert transactions[..|transactions|] == transactions;
    }

    method ListAccrualsByAccount(account: Id) returns (rows: seq<Accrual>)
      ensures rows == AccountAccruals(accruals, account)
    {
      rows := [];
      for i := 0 to |accruals|
        invariant rows == AccountAccruals(accruals[..i], account)
      {
        assert accruals[..i + 1][..i] == accruals[..i];
        if accruals[i].account == account {
          rows := rows + [accruals[i]];
        }
      }
      assert accruals[..|accruals|] == accruals;
    }

    /** Accrue the rule's interest for a date. */
    method Accrue(rule: Rule, currency: string, date: nat) returns (r: AccrueOutcome)
      modifies this
      ensures State() == AccrueStep(old(State()), rule, currency, date)
      ensures r == AttemptOn(AccountRows(old(transactions), rule.account),
              AccountAccruals(old(accruals), rule.account), rule, currency,
                             date, old(nextId))
    {
      hide AccountRows, AccountAccruals, AccrueOnce, PrincipalOn, UpToDate, Balance;
      var rows := ListTransactionsByAccount(rule.account);
      var existing := ListAccrualsByAccount(rule.account);
      var upTo := TransactionsUpToDate(rows, date);
      var principal := PrincipalTransactionsForRuleAt(upTo, existing, rule, date);
      var balance, _ := CalculateBalance(rule.account, principal);
      r := InterestEngine.Accrue(rule, currency, balance, date, principal, existing, nextId);
      if r.Accrued? {
        transactions := transactions + [r.transaction];
        accruals := accruals + [r.accrual];
        nextId := nextId + 2;
      }
    }

    /** Delete the rule's accruals of a range together with their income rows, then insert the new ones. */
    method ReplaceRange(rule: Rule, from: nat, to: nat, newRows: seq<Transaction>, newAccruals: seq<Accrual>)
      returns (deleted: nat)
      modifies this
      ensures State() == WithRows(Cleared(old(State()), rule, from, to), newRows, newAccruals)
      ensures deleted + |KeptAccruals(old(accruals), rule, from, to)| == |old(accruals)|
    {
      var kept: seq<Accrual> := [];
      var ids: set<Id> := {};
      deleted := 0;
      for i := 0 to |accruals|
        invariant unchanged(this)
        invariant kept == KeptAccruals(accruals[..i], rule, from, to)
        invariant ids == ReplacedIds(accruals[..i], rule, from, to)
        invariant deleted + |kept| == i
      {
        assert accruals[..i + 1] == accruals[..i] + [accruals[i]];
        assert accruals[..i + 1][..i] == accruals[..i];
        ReplacedIdsSnoc(accruals[..i], accruals[i], rule, from, to);
        if Owns(rule, accruals[i]) && from <= accruals[i].date <= to {
          ids := ids + {accruals[i].transaction};
          deleted := deleted + 1;
        } else {
          kept := kept + [accruals[i]];
        }
      }
      assert accruals[..|accruals|] == accruals;
      var rows: seq<Transaction> := [];
      for i := 0 to |transactions|
        invariant unchanged(this)
        invariant rows == WithoutInterest(transactions[..i], ids)
      {
        assert transactions[..i + 1][..i] == transactions[..i];
        if !(transactions[i].id in ids && transactions[i].kind == InterestIncome) {
          rows := rows + [transactions[i]];
        }
      }
      assert transactions[..|transactions|] == transactions;
      transactions := rows + newRows;
      accruals := kept + newAccruals;
      nextId := nextId + 2 * |newRows|;
    }

    /** Recalculate the rule's interest of a range and replace what was there. */
    method Recalculate(rule: Rule, currency: string, from: nat, to: nat) returns (r: RecalculateOutcome)
      modifies this
      ensures State() == RecalculateStep(old(State()), rule, currency, from, to)
      ensures r.RecalculateFailed? ==> unchanged(this)
    {
      hide AccountRows, AccountAccruals, RecalculateOnce, Cleared, WithRows;
      var rows := ListTransactionsByAccount(rule.account);
      var existing := ListAccrualsByAccount(rule.account);
      r := InterestEngine.Recalculate(rule, currency, rows, existing, from, to, nextId);
      if r.RecalculatedRange? {
        var _ := ReplaceRange(rule, from, to, r.transactions, r.accruals);
      }
    }
  }
}
