/** The two interest tables side by side: which transaction belongs to which accrual, and what the
    engine's row filters therefore compute in terms of payouts. */
module LinkedTables {
  import opened Money
  import opened Options
  import opened Transactions
  import opened InterestRules
  import opened InterestSchedule
  import opened IncrementalAccrual
  import opened BatchRecalculation
  import opened Recalculation
  import opened InterestEngine

  /** The deposit-interest rows of a transaction table, in order. */
  function InterestRows(txs: seq<Transaction>): seq<Transaction> {
    if txs == [] then []
    else
      var n := |txs| - 1;
      if txs[n].source == DepositInterest then InterestRows(txs[..n]) + [txs[n]] else InterestRows(txs[..n])
  }

  /** A transaction row that carries an accrual. */
  ghost predicate Carries(tx: Transaction, a: Accrual) {
    && tx.id == a.transaction && tx.account == a.account && tx.amount == a.amount && tx.occurredAt == a.date
    && tx.kind == InterestIncome && tx.status == Confirmed && tx.source == DepositInterest
    && tx.sourceRef == Some(a.id) && a.amount > 0
  }

  ghost predicate UniqueIds(txs: seq<Transaction>) {
    forall i, j :: 0 <= i < j < |txs| ==> txs[i].id != txs[j].id
  }

  /** Deposit-interest rows and accruals correspond one to one, in the same order. */
  ghost predicate Paired(rows: seq<Transaction>, accruals: seq<Accrual>) {
    |rows| == |accruals| && forall i :: 0 <= i < |rows| ==> Carries(rows[i], accruals[i])
  }

  ghost predicate Linked(txs: seq<Transaction>, accruals: seq<Accrual>) {
    UniqueIds(txs) && Paired(InterestRows(txs), accruals)
  }

  function OwnIds(accruals: seq<Accrual>, rule: Rule): set<Id> {
    set i | 0 <= i < |accruals| && Owns(rule, accruals[i]) :: accruals[i].transaction
  }

  lemma {:induction false} InterestRowsAreRows(txs: seq<Transaction>)
    ensures forall tx :: tx in InterestRows(txs) <==> tx in txs && tx.source == DepositInterest
  {
    if txs != [] {
      var n := |txs| - 1;
      InterestRowsAreRows(txs[..n]);
      assert txs == txs[..n] + [txs[n]];
    }
  }

  lemma {:induction false} InterestRowsUnique(txs: seq<Transaction>)
    requires UniqueIds(txs)
    ensures UniqueIds(InterestRows(txs))
  {
    if txs != [] {
      var n := |txs| - 1;
      InterestRowsUnique(txs[..n]);
      InterestRowsAreRows(txs[..n]);
      forall i | 0 <= i < |InterestRows(txs[..n])| ensures InterestRows(txs[..n])[i].id != txs[n].id {
        assert InterestRows(txs[..n])[i] in txs[..n];
      }
    }
  }

  /** No two accruals share a transaction. */
  lemma AccrualsAreDistinct(txs: seq<Transaction>, accruals: seq<Accrual>)
    requires Linked(txs, accruals)
    ensures forall i, j :: 0 <= i < j < |accruals| ==> accruals[i].transaction != accruals[j].transaction
  {
    InterestRowsUnique(txs);
    var rows := InterestRows(txs);
    assert forall i :: 0 <= i < |rows| ==> Carries(rows[i], accruals[i]);
  }

  /** A transaction named by an accrual is the deposit-interest row that carries it. */
  lemma NamedRowIsInterest(txs: seq<Transaction>, accruals: seq<Accrual>, tx: Transaction, i: nat)
    requires Linked(txs, accruals) && tx in txs && i < |accruals| && accruals[i].transaction == tx.id
    ensures tx == InterestRows(txs)[i] && tx.source == DepositInterest
  {
    InterestRowsAreRows(txs);
    var row := InterestRows(txs)[i];
    assert Carries(row, accruals[i]);
    assert row in InterestRows(txs);
    var j :| 0 <= j < |txs| && txs[j] == tx;
    var k :| 0 <= k < |txs| && txs[k] == row;
  }

  // ---- Balances of filtered rows

  /** What the induction over two aligned tables needs of the sets of dropped ids: `drop` holds the
      rule's payouts not capitalized by `asOf`, `own` all of them, and neither any other row. */
  ghost predicate Separates(rule: Rule, asOf: nat, txs: seq<Transaction>, accruals: seq<Accrual>, drop: set<Id>,
      own: set<Id>) {
    && (forall i :: 0 <= i < |txs| && txs[i].source != DepositInterest ==> txs[i].id !in drop && txs[i].id !in own)
    && (forall i :: 0 <= i < |accruals| ==>
          && (accruals[i].transaction in own <==> Owns(rule, accruals[i]))
          && (accruals[i].transaction in drop <==>
                Owns(rule, accruals[i]) && !CapitalizedBefore(rule, accruals[i].date, asOf)))
  }

  lemma {:induction false} FilteredBalance(
      rule: Rule, asOf: nat, txs: seq<Transaction>, accruals: seq<Accrual>, drop: set<Id>, own: set<Id>, day: nat)
    requires Paired(InterestRows(txs), accruals) && Separates(rule, asOf, txs, accruals, drop, own)
    ensures BalanceOn(rule.account, WithoutIds(txs, drop), day) ==
            BalanceOn(rule.account, WithoutIds(txs, own), day) +
            Principal(rule, AccrualPostings(accruals, rule), asOf, day)
  {
    hide BalanceOn, CapitalizedBefore;
    if txs == [] {
    } else {
      var n := |txs| - 1;
      var tx, rest := txs[n], txs[..n];
      BalanceOnSnoc(rule.account, WithoutIds(rest, drop), tx, day);
      BalanceOnSnoc(rule.account, WithoutIds(rest, own), tx, day);
      if tx.source != DepositInterest {
        FilteredBalance(rule, asOf, rest, accruals, drop, own, day);
      } else {
        var m := |accruals| - 1;
        var a := accruals[m];
        assert InterestRows(txs)[m] == tx;
        assert Carries(tx, a);
        PairedPrefix(InterestRows(txs), accruals);
        assert InterestRows(txs)[..m] == InterestRows(rest);
        FilteredBalance(rule, asOf, rest, accruals[..m], drop, own, day);
        PrincipalSnoc(rule, AccrualPostings(accruals[..m], rule), Posting(a.date, a.amount), asOf, day);
      }
    }
  }

  lemma PairedPrefix(rows: seq<Transaction>, accruals: seq<Accrual>)
    requires Paired(rows, accruals) && rows != []
    ensures Paired(rows[..|rows| - 1], accruals[..|accruals| - 1])
  {
  }

  lemma IdsSeparate(rule: Rule, asOf: nat, txs: seq<Transaction>, accruals: seq<Accrual>)
    requires Linked(txs, accruals)
    ensures var drop := UncapitalizedIds(accruals, rule, asOf) - CapitalizedIds(accruals, rule, asOf);
            Separates(rule, asOf, txs, accruals, drop, OwnIds(accruals, rule))
  {
    hide CapitalizedBefore, Carries;
    AccrualsAreDistinct(txs, accruals);
    var drop := UncapitalizedIds(accruals, rule, asOf) - CapitalizedIds(accruals, rule, asOf);
    forall i | 0 <= i < |txs| && txs[i].source != DepositInterest
      ensures txs[i].id !in drop && txs[i].id !in OwnIds(accruals, rule)
    {
      if j :| 0 <= j < |accruals| && accruals[j].transaction == txs[i].id {
        NamedRowIsInterest(txs, accruals, txs[i], j);
      }
    }
    forall i | 0 <= i < |accruals|
      ensures accruals[i].transaction in OwnIds(accruals, rule) <==> Owns(rule, accruals[i])
      ensures accruals[i].transaction in drop <==>
              Owns(rule, accruals[i]) && !CapitalizedBefore(rule, accruals[i].date, asOf)
    {
      SetsByIndex(accruals, rule, asOf, i);
    }
  }

  lemma SetsByIndex(accruals: seq<Accrual>, rule: Rule, asOf: nat, i: nat)
    requires i < |accruals|
    requires forall i, j :: 0 <= i < j < |accruals| ==> accruals[i].transaction != accruals[j].transaction
    ensures accruals[i].transaction in OwnIds(accruals, rule) <==> Owns(rule, accruals[i])
    ensures accruals[i].transaction in UncapitalizedIds(accruals, rule, asOf) <==>
            Owns(rule, accruals[i]) && !CapitalizedBefore(rule, accruals[i].date, asOf)
    ensures accruals[i].transaction in CapitalizedIds(accruals, rule, asOf) <==>
            Owns(rule, accruals[i]) && CapitalizedBefore(rule, accruals[i].date, asOf)
  {
    hide CapitalizedBefore, Owns;
  }

  /** The rows of an account other than the rule's own payouts. */
  function BaseRows(txs: seq<Transaction>, accruals: seq<Accrual>, rule: Rule): seq<Transaction> {
    WithoutIds(txs, OwnIds(accruals, rule))
  }

  function BookOf(txs: seq<Transaction>, accruals: seq<Accrual>, rule: Rule, scale: nat): Book {
    Book(rule, scale, Flows(rule.account, BaseRows(txs, accruals, rule)))
  }

  /** The principal filter keeps the base balance plus the payouts capitalized by the date. */
  lemma PrincipalBalance(rule: Rule, scale: nat, asOf: nat, txs: seq<Transaction>, accruals: seq<Accrual>, day: nat)
    requires Linked(txs, accruals)
    ensures BalanceOn(rule.account, PrincipalOn(txs, accruals, rule, asOf), day) ==
            BaseBalance(BookOf(txs, accruals, rule, scale).base, day) +
            Principal(rule, AccrualPostings(accruals, rule), asOf, day)
  {
    hide BalanceOn, Principal, WithoutIds, Separates;
    var drop := UncapitalizedIds(accruals, rule, asOf) - CapitalizedIds(accruals, rule, asOf);
    IdsSeparate(rule, asOf, txs, accruals);
    FilteredBalance(rule, asOf, txs, accruals, drop, OwnIds(accruals, rule), day);
    FlowsBalance(rule.account, BaseRows(txs, accruals, rule), day);
  }

  // ---- An accrual in terms of payouts

  lemma {:induction false} WithoutIdsTwice(txs: seq<Transaction>, ids: set<Id>, date: nat)
    ensures WithoutIds(WithoutIds(txs, ids), ids) == WithoutIds(txs, ids)
    ensures WithoutIds(UpToDate(txs, date), ids) == UpToDate(WithoutIds(txs, ids), date)
  {
    if txs != [] {
      var n := |txs| - 1;
      WithoutIdsTwice(txs[..n], ids, date);
      WithoutIdsSnoc(WithoutIds(txs[..n], ids), txs[n], ids);
      WithoutIdsSnoc(UpToDate(txs[..n], date), txs[n], ids);
      UpToDateSnoc(WithoutIds(txs[..n], ids), txs[n], date);
    }
  }

  lemma WithoutIdsSnoc(txs: seq<Transaction>, tx: Transaction, ids: set<Id>)
    ensures WithoutIds(txs + [tx], ids) == if tx.id in ids then WithoutIds(txs, ids) else WithoutIds(txs, ids) + [tx]
  {
    assert (txs + [tx])[..|txs|] == txs;
  }

  lemma {:induction false} UpToDateTwice(txs: seq<Transaction>, date: nat, day: nat)
    requires day <= date
    ensures UpToDate(UpToDate(txs, date), day) == UpToDate(txs, day)
  {
    if txs != [] {
      var n := |txs| - 1;
      UpToDateTwice(txs[..n], date, day);
      UpToDateSnoc(UpToDate(txs[..n], date), txs[n], day);
    }
  }

  /** The lifecycle hands the engine rows it has already filtered; filtering them again changes
      nothing, and neither filter touches the balance of a day up to the accrual date. */
  lemma FilteredRowsBalance(txs: seq<Transaction>, accruals: seq<Accrual>, rule: Rule, date: nat, day: nat)
    requires day <= date
    ensures var rows := PrincipalOn(UpToDate(txs, date), accruals, rule, date);
            && PrincipalOn(rows, accruals, rule, date) == rows
            && BalanceOn(rule.account, rows, day) ==
              BalanceOn(rule.account, PrincipalOn(txs, accruals, rule, date), day)
  {
    hide WithoutIds, UpToDate, Balance;
    var drop := UncapitalizedIds(accruals, rule, date) - CapitalizedIds(accruals, rule, date);
    WithoutIdsTwice(UpToDate(txs, date), drop, date);
    WithoutIdsTwice(txs, drop, date);
    UpToDateTwice(WithoutIds(txs, drop), date, day);
  }

  /** For a valid rule the engine's unchecked day amount is the day's interest. */
  lemma RawIsInterest(rule: Rule, scale: nat, balance: int, day: nat)
    requires ValidRule(rule) && scale <= 6
    ensures RawInterest(rule, scale, balance, day) == DailyInterest(rule, scale, balance, day)
  {
    hide DailyInterestAmount, ActiveOn, DaysInYear;
    if balance > 0 {
      DailyInterestMonotone(balance, balance, EffectiveRateBps(rule, day), DaysInYear(rule.dayCount, day), scale);
    }
  }

  lemma {:induction false} EarnedIsPeriodInterest(
      rule: Rule, scale: nat, txs: seq<Transaction>, accruals: seq<Accrual>, date: nat, from: nat, until: nat)
    requires Linked(txs, accruals) && ValidRule(rule) && scale <= 6 && until <= date + 1
    ensures EarnedOn(rule, scale, PrincipalOn(UpToDate(txs, date), accruals, rule, date), from, until) ==
            PeriodInterestAsOf(BookOf(txs, accruals, rule, scale), AccrualPostings(accruals, rule), date, from, until)
    decreases until
  {
    hide RawInterest, DailyInterest, BalanceOn, Principal, PrincipalOn, BaseBalance, Linked, BaseRows, AccrualPostings;
    if from < until {
      var day := until - 1;
      EarnedIsPeriodInterest(rule, scale, txs, accruals, date, from, day);
      FilteredRowsBalance(txs, accruals, rule, date, day);
      PrincipalBalance(rule, scale, date, txs, accruals, day);
      RawIsInterest(rule, scale, BalanceOn(rule.account, PrincipalOn(txs, accruals, rule, date), day), day);
    }
  }

  lemma {:induction false} NothingEarnedWithoutRows(rule: Rule, scale: nat, from: nat, until: nat)
    requires scale <= 6
    ensures EarnedOn(rule, scale, [], from, until) == 0
    decreases until
  {
    if from < until {
      NothingEarnedWithoutRows(rule, scale, from, until - 1);
      EmptyBalance(rule.account, until - 1);
    }
  }

  lemma PeriodNotEmpty(rule: Rule, posts: seq<Posting>, date: nat)
    requires ActiveOn(rule, date)
    ensures NextPeriodStart(rule, posts, date) <= date
  {
    LatestStartIsDayAfterLast(rule.startDate, posts, date);
  }

  lemma {:induction false} PostingsRecordDates(accruals: seq<Accrual>, rule: Rule, date: nat)
    ensures HasAccrual(accruals, rule, date) <==> HasPosting(AccrualPostings(accruals, rule), date)
  {
    if accruals != [] {
      var n := |accruals| - 1;
      PostingsRecordDates(accruals[..n], rule, date);
      var rest, all := AccrualPostings(accruals[..n], rule), AccrualPostings(accruals, rule);
      if HasAccrual(accruals, rule, date) {
        var i :| 0 <= i < |accruals| && Owns(rule, accruals[i]) && accruals[i].date == date;
        if i < n {
          assert accruals[..n][i] == accruals[i];
          var j :| 0 <= j < |rest| && rest[j].date == date;
          assert all[j] == rest[j];
        } else {
          assert all[|rest|].date == date;
        }
      }
      if HasPosting(all, date) {
        var j :| 0 <= j < |all| && all[j].date == date;
        if j < |rest| {
          assert rest[j] == all[j];
          var i :| 0 <= i < n && Owns(rule, accruals[..n][i]) && accruals[..n][i].date == date;
          assert accruals[i] == accruals[..n][i];
        } else {
          assert Owns(rule, accruals[n]) && accruals[n].date == date;
        }
      }
    }
  }

  /** One accrual attempt of the lifecycle on a consistent snapshot. */
  function AttemptOn(txs: seq<Transaction>, accruals: seq<Accrual>, rule: Rule, currency: string, date: nat,
      nextId: Id): AccrueOutcome {
    var rows := PrincipalOn(UpToDate(txs, date), accruals, rule, date);
    AccrueOnce(rule, currency, Balance(rule.account, rows), date, rows, accruals, nextId)
  }

  /** An attempt posts exactly what `AccrueDay` says: the amount due, on a payout day not yet paid,
      within bounds; everything else posts nothing. */
  lemma AttemptPostsAmountDue(txs: seq<Transaction>, accruals: seq<Accrual>, rule: Rule, currency: string, date: nat,
      nextId: Id)
    requires Linked(txs, accruals) && ValidRule(rule) && rule.isActive
    ensures var r := AttemptOn(txs, accruals, rule, currency, date, nextId);
            var posts := AccrualPostings(accruals, rule);
            var book := BookOf(txs, accruals, rule, CurrencyScale(currency));
            var p := Posting(date, AmountDue(book, posts, date));
            if r.Accrued? then
              && AccrueDay(book, posts, date) == posts + [p]
              && r == Accrued(InterestTransaction(rule, p, nextId, nextId + 1),
                InterestAccrual(rule, p, nextId + 1, nextId))
            else AccrueDay(book, posts, date) == posts
  {
    hide ShouldPost, PrincipalOn, EarnedOn, PeriodInterestAsOf, AccrualPostings, HasAccrual, HasPosting, Linked,
      NextPeriodStart, CurrencyScale, BaseRows, Flows, Balance;
    var scale := CurrencyScale(currency);
    var posts := AccrualPostings(accruals, rule);
    PostingsRecordDates(accruals, rule, date);
    if ActiveOn(rule, date) {
      var start := NextPeriodStart(rule, posts, date);
      PeriodNotEmpty(rule, posts, date);
      var rows := PrincipalOn(UpToDate(txs, date), accruals, rule, date);
      FilteredRowsBalance(txs, accruals, rule, date, date);
      EarnedIsPeriodInterest(rule, scale, txs, accruals, date, start, date + 1);
      if rows == [] {
        NothingEarnedWithoutRows(rule, scale, start, date + 1);
        NoRowsNoBalance(rule.account);
      }
    } else if ShouldPost(rule, date) {
      PayoutIsActive(rule, date);
    }
  }

  lemma NoRowsNoBalance(account: Id)
    ensures Balance(account, []) == 0
  {
  }

  // ---- A recalculation in terms of payouts

  /** A run may count payouts as base balance instead of as working rows. */
  lemma {:induction false} BaseShift(book: Book, shifted: Book, init: Loop, moved: seq<Posting>, start: nat, until: nat)
    requires book.scale <= 6 && shifted.rule == book.rule && shifted.scale == book.scale
    requires forall day: nat :: BaseBalance(shifted.base, day) == BaseBalance(book.base, day) + TotalUpTo(moved, day)
    ensures var st, st' := Run(book, init.(working := moved + init.working), start, until),
            Run(shifted, init, start, until);
            st == st'.(working := moved + st'.working)
    decreases until
  {
    hide Step, BaseBalance, TotalUpTo;
    if start < until {
      BaseShift(book, shifted, init, moved, start, until - 1);
      StepShift(book, shifted, Run(shifted, init, start, until - 1), moved, until - 1);
    }
  }

  lemma StepShift(book: Book, shifted: Book, st: Loop, moved: seq<Posting>, day: nat)
    requires book.scale <= 6 && shifted.rule == book.rule && shifted.scale == book.scale
    requires BaseBalance(shifted.base, day) == BaseBalance(book.base, day) + TotalUpTo(moved, day)
    ensures var next := Step(shifted, st, day);
            Step(book, st.(working := moved + st.working), day) == next.(working := moved + next.working)
  {
    hide DayInterest, BaseBalance, TotalUpTo, ShouldPost, ActiveOn, ShouldCapitalize;
    SameDayInterest(book, shifted, st, moved, day);
    var p := Posting(day, st.pending + DayInterest(shifted, st, day));
    assert (moved + st.working) + [p] == moved + (st.working + [p]);
    assert (moved + st.working) + (st.waiting + [p]) == moved + (st.working + (st.waiting + [p]));
  }

  lemma SameDayInterest(book: Book, shifted: Book, st: Loop, moved: seq<Posting>, day: nat)
    requires book.scale <= 6 && shifted.rule == book.rule && shifted.scale == book.scale
    requires BaseBalance(shifted.base, day) == BaseBalance(book.base, day) + TotalUpTo(moved, day)
    ensures DayInterest(book, st.(working := moved + st.working), day) == DayInterest(shifted, st, day)
  {
    hide DailyInterest, BaseBalance;
    TotalUpToConcat(moved, st.working, day);
  }

  lemma {:induction false} TotalUpToConcat(xs: seq<Posting>, ys: seq<Posting>, day: nat)
    ensures TotalUpTo(xs + ys, day) == TotalUpTo(xs, day) + TotalUpTo(ys, day)
  {
    if ys == [] {
      assert xs + ys == xs;
    } else {
      var n := |ys| - 1;
      TotalUpToConcat(xs, ys[..n], day);
      assert (xs + ys)[..|xs + ys| - 1] == xs + ys[..n];
    }
  }

  lemma {:induction false} CapitalizedPriorIsPrincipal(rule: Rule, posts: seq<Posting>, asOf: nat, day: nat)
    ensures TotalUpTo(CapitalizedPrior(rule, posts, asOf), day) == Principal(rule, posts, asOf, day)
  {
    hide CapitalizedBefore;
    if posts != [] {
      var n := |posts| - 1;
      CapitalizedPriorIsPrincipal(rule, posts[..n], asOf, day);
      var rest := CapitalizedPrior(rule, posts[..n], asOf);
      TotalUpToConcat(rest, [posts[n]], day);
      assert [posts[n]][..0] == [];
    }
  }

  lemma {:induction false} WithoutMoreIds(txs: seq<Transaction>, some: set<Id>, more: set<Id>)
    requires some <= more
    ensures WithoutIds(WithoutIds(txs, some), more) == WithoutIds(txs, more)
  {
    if txs != [] {
      var n := |txs| - 1;
      WithoutMoreIds(txs[..n], some, more);
      WithoutIdsSnoc(WithoutIds(txs[..n], some), txs[n], more);
    }
  }

  /** Rows of the range are never principal at the start of the calculation. */
  lemma ReplacedAreUncapitalized(txs: seq<Transaction>, accruals: seq<Accrual>, rule: Rule, start: nat, from: nat,
      to: nat)
    requires Linked(txs, accruals) && start <= from
    ensures ReplacedIds(accruals, rule, from, to) <=
            UncapitalizedIds(accruals, rule, start) - CapitalizedIds(accruals, rule, start)
  {
    hide CapitalizationDate, Carries;
    AccrualsAreDistinct(txs, accruals);
    forall id | id in ReplacedIds(accruals, rule, from, to)
      ensures id in UncapitalizedIds(accruals, rule, start) && id !in CapitalizedIds(accruals, rule, start)
    {
      var i :| 0 <= i < |accruals| && Owns(rule, accruals[i]) && from <= accruals[i].date <= to
        && accruals[i].transaction == id;
      if CapitalizedBefore(rule, accruals[i].date, start) {
        CapitalizationDateIsDue(rule, accruals[i].date);
      }
      SetsByIndex(accruals, rule, start, i);
    }
  }

  lemma WorkingRows(txs: seq<Transaction>, accruals: seq<Accrual>, rule: Rule, start: nat, from: nat, to: nat)
    requires Linked(txs, accruals) && start <= from
    ensures PrincipalOn(WithoutIds(txs, ReplacedIds(accruals, rule, from, to)), accruals, rule, start) ==
            PrincipalOn(txs, accruals, rule, start)
  {
    hide WithoutIds, Linked;
    ReplacedAreUncapitalized(txs, accruals, rule, start, from, to);
    WithoutMoreIds(txs, ReplacedIds(accruals, rule, from, to),
                   UncapitalizedIds(accruals, rule, start) - CapitalizedIds(accruals, rule, start));
  }

  lemma {:induction false} ByIdFinds(txs: seq<Transaction>, tx: Transaction)
    requires UniqueIds(txs) && tx in txs
    ensures tx.id in ById(txs) && ById(txs)[tx.id] == tx
  {
    var n := |txs| - 1;
    assert txs == txs[..n] + [txs[n]];
    if tx != txs[n] {
      ByIdFinds(txs[..n], tx);
      var i :| 0 <= i < n && txs[i] == tx;
    }
  }

  lemma {:induction false} WithoutIdsKeeps(txs: seq<Transaction>, ids: set<Id>)
    ensures forall tx :: tx in WithoutIds(txs, ids) <==> tx in txs && tx.id !in ids
    ensures UniqueIds(txs) ==> UniqueIds(WithoutIds(txs, ids))
  {
    if txs != [] {
      var n := |txs| - 1;
      WithoutIdsKeeps(txs[..n], ids);
      assert txs == txs[..n] + [txs[n]];
      if UniqueIds(txs) {
        forall i | 0 <= i < |WithoutIds(txs[..n], ids)| ensures WithoutIds(txs[..n], ids)[i].id != txs[n].id {
          assert WithoutIds(txs[..n], ids)[i] in txs[..n];
        }
      }
    }
  }

  /** What the pending list needs to know of a lookup table. */
  ghost predicate FindsWaiting(byId: map<Id, Transaction>, accruals: seq<Accrual>, rule: Rule, from: nat, to: nat) {
    forall i :: 0 <= i < |accruals| && AwaitsCapitalization(rule, accruals[i], from, to) ==>
      && accruals[i].transaction in byId
      && byId[accruals[i].transaction].occurredAt == accruals[i].date
      && Effect(rule.account, byId[accruals[i].transaction]) == accruals[i].amount
  }

  lemma {:induction false} PendingRowsAreWaiting(byId: map<Id, Transaction>, accruals: seq<Accrual>, rule: Rule,
      from: nat, to: nat)
    requires FindsWaiting(byId, accruals, rule, from, to) && rule.capitalization !in {NoCapitalization, CapitalizeDaily}
    ensures RowPostings(rule.account, PendingRows(byId, accruals, rule, from, to)) ==
            WaitingPrior(rule, AccrualPostings(accruals, rule), from, to)
  {
    hide CapitalizationDate, Effect;
    if accruals != [] {
      var n := |accruals| - 1;
      PendingRowsAreWaiting(byId, accruals[..n], rule, from, to);
      var a := accruals[n];
      RowPostingsSnoc(rule.account, PendingRows(byId, accruals[..n], rule, from, to),
                      if a.transaction in byId then byId[a.transaction]
                        else InterestTransaction(rule, Posting(a.date, a.amount), 0, 0));
      WaitingSnoc(rule, AccrualPostings(accruals[..n], rule), Posting(a.date, a.amount), from, to);
    }
  }

  lemma RowPostingsSnoc(account: Id, txs: seq<Transaction>, tx: Transaction)
    ensures RowPostings(account, txs + [tx]) ==
            RowPostings(account, txs) + [Posting(tx.occurredAt, Effect(account, tx))]
  {
    assert (txs + [tx])[..|txs|] == txs;
  }

  lemma WaitingSnoc(rule: Rule, posts: seq<Posting>, p: Posting, from: nat, to: nat)
    requires rule.capitalization !in {NoCapitalization, CapitalizeDaily}
    ensures WaitingPrior(rule, posts + [p], from, to) ==
            if IsWaiting(rule, p, from, to) then WaitingPrior(rule, posts, from, to) + [p]
              else WaitingPrior(rule, posts, from, to)
  {
    assert (posts + [p])[..|posts|] == posts;
  }

  lemma WaitingRows(txs: seq<Transaction>, accruals: seq<Accrual>, rule: Rule, start: nat, from: nat, to: nat)
    requires Linked(txs, accruals) && start <= from
    ensures RowPostings(rule.account,
                        PendingCapitalization(WithoutIds(txs, ReplacedIds(accruals, rule, from, to)), accruals, rule,
                          start, to))
         == WaitingPrior(rule, AccrualPostings(accruals, rule), start, to)
  {
    hide CapitalizationDate, WithoutIds, PendingRows, AccrualPostings;
    if rule.capitalization !in {NoCapitalization, CapitalizeDaily} {
      var base := WithoutIds(txs, ReplacedIds(accruals, rule, from, to));
      var byId := ById(base);
      AccrualsAreDistinct(txs, accruals);
      WithoutIdsKeeps(txs, ReplacedIds(accruals, rule, from, to));
      InterestRowsAreRows(txs);
      forall i | 0 <= i < |accruals| && AwaitsCapitalization(rule, accruals[i], start, to)
        ensures accruals[i].transaction in byId
        ensures byId[accruals[i].transaction].occurredAt == accruals[i].date
        ensures Effect(rule.account, byId[accruals[i].transaction]) == accruals[i].amount
      {
        var row := InterestRows(txs)[i];
        assert Carries(row, accruals[i]) && row in InterestRows(txs);
        assert row.id !in ReplacedIds(accruals, rule, from, to);
        ByIdFinds(base, row);
      }
      PendingRowsAreWaiting(byId, accruals, rule, start, to);
    }
  }

  /** The engine's loop over rows produces the payouts of the loop over the rule's payouts. */
  lemma RangeLoopIsRecalculation(txs: seq<Transaction>, accruals: seq<Accrual>, rule: Rule, scale: nat, from: nat,
      to: nat)
    requires Linked(txs, accruals) && scale <= 6
    ensures RangeLoop(rule, scale, txs, accruals, from, to).out ==
            Recalculated(BookOf(txs, accruals, rule, scale), AccrualPostings(accruals, rule), from, to).out
  {
    hide PrincipalOn, WithoutIds, PendingCapitalization, Run, StartOfCalculation, Linked, BaseRows, BaseBalance,
      TotalUpTo, CapitalizedPrior, WaitingPrior, AccrualPostings, Flows, Principal, BalanceOn, ShouldPost,
      RowPostings;
    var start := StartOfCalculation(rule, from, to);
    CalculationStartIsGood(rule, from, to);
    WorkingRows(txs, accruals, rule, start, from, to);
    WaitingRows(txs, accruals, rule, start, from, to);
    var posts := AccrualPostings(accruals, rule);
    var book := BookOf(txs, accruals, rule, scale);
    var working := PrincipalOn(txs, accruals, rule, start);
    var shifted := Book(rule, scale, Flows(rule.account, working));
    var moved := CapitalizedPrior(rule, posts, start);
    forall day: nat ensures BaseBalance(shifted.base, day) == BaseBalance(book.base, day) + TotalUpTo(moved, day) {
      FlowsBalance(rule.account, working, day);
      PrincipalBalance(rule, scale, start, txs, accruals, day);
      CapitalizedPriorIsPrincipal(rule, posts, start, day);
    }
    var init := Loop(0, [], WaitingPrior(rule, posts, start, to), [], 0);
    BaseShift(book, shifted, init, moved, start, to + 1);
    assert init.(working := moved + init.working) == Start(rule, posts, start, to);
  }

  /** Leaving the rows of the range in or out of the history makes no difference. */
  lemma HistoryOutsideRange(book: Book, posts: seq<Posting>, from: nat, to: nat)
    requires book.scale <= 6
    ensures Recalculated(book, posts, from, to) == Recalculated(book, Outside(posts, from, to), from, to)
  {
    hide Recalculated, StartOfCalculation, Earlier, Outside, ShouldPost;
    CalculationStartIsGood(book.rule, from, to);
    EarlierOutside(posts, from, to, StartOfCalculation(book.rule, from, to));
    DependsOnEarlierOnly(book, posts, Outside(posts, from, to), from, to);
  }
}
