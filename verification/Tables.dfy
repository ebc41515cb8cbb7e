/** The interest lifecycle as steps on the tables: an accrual attempt and a recalculation of a range,
    each atomic under the account lock, and what every such step keeps. */
module InterestTables {
  import opened Money
  import opened Transactions
  import opened InterestRules
  import opened InterestSchedule
  import opened IncrementalAccrual
  import opened BatchRecalculation
  import opened Recalculation
  import opened InterestEngine
  import opened LinkedTables

  datatype Tables = Tables(txs: seq<Transaction>, accruals: seq<Accrual>, nextId: Id)

  // ---- Snapshots

  /** The balance-affecting rows of an account, as the lifecycle reads them under the lock. */
  function AccountRows(txs: seq<Transaction>, account: Id): seq<Transaction> {
    if txs == [] then []
    else
      var n := |txs| - 1;
      if txs[n].account == account && txs[n].status.AffectsBalance() then AccountRows(txs[..n], account) + [txs[n]]
      else AccountRows(txs[..n], account)
  }

  function AccountAccruals(accruals: seq<Accrual>, account: Id): seq<Accrual> {
    if accruals == [] then []
    else
      var n := |accruals| - 1;
      if accruals[n].account == account then AccountAccruals(accruals[..n], account) + [accruals[n]]
      else AccountAccruals(accruals[..n], account)
  }

  lemma AccountRowsSnoc(txs: seq<Transaction>, tx: Transaction, account: Id)
    ensures AccountRows(txs + [tx], account) ==
            if tx.account == account && tx.status.AffectsBalance() then AccountRows(txs, account) + [tx]
            else AccountRows(txs, account)
  {
    assert (txs + [tx])[..|txs|] == txs;
  }

  lemma AccountAccrualsSnoc(accruals: seq<Accrual>, a: Accrual, account: Id)
    ensures AccountAccruals(accruals + [a], account) ==
            if a.account == account then AccountAccruals(accruals, account) + [a]
              else AccountAccruals(accruals, account)
  {
    assert (accruals + [a])[..|accruals|] == accruals;
  }

  lemma InterestRowsSnoc(txs: seq<Transaction>, tx: Transaction)
    ensures InterestRows(txs + [tx]) ==
            if tx.source == DepositInterest then InterestRows(txs) + [tx] else InterestRows(txs)
  {
    assert (txs + [tx])[..|txs|] == txs;
  }

  lemma {:induction false} AccountRowsAreRows(txs: seq<Transaction>, account: Id)
    ensures forall tx :: tx in AccountRows(txs, account) <==>
              tx in txs && tx.account == account && tx.status.AffectsBalance()
    ensures UniqueIds(txs) ==> UniqueIds(AccountRows(txs, account))
  {
    if txs != [] {
      var n := |txs| - 1;
      AccountRowsAreRows(txs[..n], account);
      assert txs == txs[..n] + [txs[n]];
      if UniqueIds(txs) {
        forall i | 0 <= i < |AccountRows(txs[..n], account)| ensures AccountRows(txs[..n], account)[i].id != txs[n].id {
          assert AccountRows(txs[..n], account)[i] in txs[..n];
        }
      }
    }
  }

  lemma {:induction false} InterestRowsOfAccount(txs: seq<Transaction>, account: Id)
    ensures InterestRows(AccountRows(txs, account)) == AccountRows(InterestRows(txs), account)
  {
    if txs != [] {
      var n := |txs| - 1;
      InterestRowsOfAccount(txs[..n], account);
      InterestRowsSnoc(AccountRows(txs[..n], account), txs[n]);
      AccountRowsSnoc(InterestRows(txs[..n]), txs[n], account);
    }
  }

  lemma {:induction false} PairedOfAccount(rows: seq<Transaction>, accruals: seq<Accrual>, account: Id)
    requires Paired(rows, accruals)
    ensures Paired(AccountRows(rows, account), AccountAccruals(accruals, account))
  {
    if rows != [] {
      var n := |rows| - 1;
      PairedPrefix(rows, accruals);
      PairedOfAccount(rows[..n], accruals[..n], account);
      assert Carries(rows[n], accruals[n]);
    }
  }

  /** A snapshot of linked tables is linked. */
  lemma SnapshotIsLinked(txs: seq<Transaction>, accruals: seq<Accrual>, account: Id)
    requires Linked(txs, accruals)
    ensures Linked(AccountRows(txs, account), AccountAccruals(accruals, account))
  {
    hide Paired, UniqueIds, AccountRows;
    AccountRowsAreRows(txs, account);
    InterestRowsOfAccount(txs, account);
    PairedOfAccount(InterestRows(txs), accruals, account);
  }

  lemma {:induction false} SnapshotPostings(accruals: seq<Accrual>, rule: Rule)
    ensures AccrualPostings(AccountAccruals(accruals, rule.account), rule) == AccrualPostings(accruals, rule)
  {
    if accruals != [] {
      var n := |accruals| - 1;
      SnapshotPostings(accruals[..n], rule);
      AccrualPostingsSnoc(AccountAccruals(accruals[..n], rule.account), accruals[n], rule);
    }
  }

  lemma AccrualPostingsSnoc(accruals: seq<Accrual>, a: Accrual, rule: Rule)
    ensures AccrualPostings(accruals + [a], rule) ==
            if Owns(rule, a) then AccrualPostings(accruals, rule) + [Posting(a.date, a.amount)]
              else AccrualPostings(accruals, rule)
  {
    assert (accruals + [a])[..|accruals|] == accruals;
  }

  // ---- The invariant

  ghost predicate OnePerDay(accruals: seq<Accrual>) {
    forall i, j :: 0 <= i < j < |accruals| ==>
      !(accruals[i].account == accruals[j].account && accruals[i].rule == accruals[j].rule
        && accruals[i].date == accruals[j].date)
  }

  ghost predicate BelowId(t: Tables) {
    && (forall i :: 0 <= i < |t.txs| ==> t.txs[i].id < t.nextId)
    && (forall i :: 0 <= i < |t.accruals| ==> t.accruals[i].id < t.nextId)
  }

  /** Accruals and deposit-interest transactions are in one-to-one correspondence, and a rule posts at
      most once per day. */
  ghost predicate Consistent(t: Tables) {
    Linked(t.txs, t.accruals) && OnePerDay(t.accruals) && BelowId(t)
  }

  /** The rule's recorded payouts and the base ledger they are computed from. */
  function Postings(t: Tables, rule: Rule): seq<Posting> {
    AccrualPostings(t.accruals, rule)
  }

  function TableBook(t: Tables, rule: Rule, scale: nat): Book {
    BookOf(AccountRows(t.txs, rule.account), AccountAccruals(t.accruals, rule.account), rule, scale)
  }

  // ---- Accrual

  function AccrueStep(t: Tables, rule: Rule, currency: string, date: nat): Tables {
    var r := AttemptOn(AccountRows(t.txs, rule.account), AccountAccruals(t.accruals, rule.account), rule, currency,
      date, t.nextId);
    if r.Accrued? then Tables(t.txs + [r.transaction], t.accruals + [r.accrual], t.nextId + 2) else t
  }

  function WithPayout(t: Tables, rule: Rule, p: Posting): Tables {
    Tables(t.txs + [InterestTransaction(rule, p, t.nextId, t.nextId + 1)],
           t.accruals + [InterestAccrual(rule, p, t.nextId + 1, t.nextId)], t.nextId + 2)
  }

  lemma PayoutKeepsConsistent(t: Tables, rule: Rule, p: Posting)
    requires Consistent(t) && p.amount > 0 && !HasPosting(Postings(t, rule), p.date)
    ensures Consistent(WithPayout(t, rule, p))
  {
    hide AccrualPostings, InterestRows;
    var t' := WithPayout(t, rule, p);
    var tx, a := t'.txs[|t.txs|], t'.accruals[|t.accruals|];
    InterestRowsSnoc(t.txs, tx);
    assert Carries(tx, a);
    PostingsRecordDates(t.accruals, rule, p.date);
    forall i | 0 <= i < |t.accruals|
      ensures !(t.accruals[i].account == a.account && t.accruals[i].rule == a.rule && t.accruals[i].date == a.date)
    {
      assert !(Owns(rule, t.accruals[i]) && t.accruals[i].date == p.date);
    }
  }

  lemma {:induction false} WithoutFreshId(txs: seq<Transaction>, ids: set<Id>, id: Id)
    requires forall i :: 0 <= i < |txs| ==> txs[i].id != id
    ensures WithoutIds(txs, ids + {id}) == WithoutIds(txs, ids)
  {
    if txs != [] {
      WithoutFreshId(txs[..|txs| - 1], ids, id);
    }
  }

  lemma OwnIdsSnoc(accruals: seq<Accrual>, a: Accrual, rule: Rule)
    ensures OwnIds(accruals + [a], rule) == OwnIds(accruals, rule) + if Owns(rule, a) then {a.transaction} else {}
  {
    hide Owns;
    var all := accruals + [a];
    assert all[|accruals|] == a && forall i :: 0 <= i < |accruals| ==> all[i] == accruals[i];
  }

  /** A payout does not change the base ledger it was computed from. */
  lemma PayoutKeepsBook(t: Tables, rule: Rule, p: Posting, scale: nat)
    requires BelowId(t)
    ensures TableBook(WithPayout(t, rule, p), rule, scale) == TableBook(t, rule, scale)
    ensures Postings(WithPayout(t, rule, p), rule) == Postings(t, rule) + [p]
  {
    hide AccrualPostings, AccountRows, AccountAccruals, WithoutIds;
    var tx, a := InterestTransaction(rule, p, t.nextId, t.nextId + 1), InterestAccrual(rule, p, t.nextId + 1, t.nextId);
    var rows, accs := AccountRows(t.txs, rule.account), AccountAccruals(t.accruals, rule.account);
    AccountRowsSnoc(t.txs, tx, rule.account);
    AccountAccrualsSnoc(t.accruals, a, rule.account);
    AccrualPostingsSnoc(t.accruals, a, rule);
    OwnIdsSnoc(accs, a, rule);
    WithoutIdsSnoc(rows, tx, OwnIds(accs, rule) + {tx.id});
    AccountRowsAreRows(t.txs, rule.account);
    forall i | 0 <= i < |rows| ensures rows[i].id != tx.id {
      assert rows[i] in t.txs;
    }
    WithoutFreshId(rows, OwnIds(accs, rule), tx.id);
  }

  /** An attempt on the tables is an attempt on the rule's payouts: it adds the amount due or nothing,
      keeps the base ledger, and keeps the tables consistent. */
  lemma AccrueStepIsAccrueDay(t: Tables, rule: Rule, currency: string, date: nat)
    requires Consistent(t) && ValidRule(rule) && rule.isActive
    ensures var t', scale := AccrueStep(t, rule, currency, date), CurrencyScale(currency);
            && Consistent(t')
            && TableBook(t', rule, scale) == TableBook(t, rule, scale)
            && Postings(t', rule) == AccrueDay(TableBook(t, rule, scale), Postings(t, rule), date)
  {
    hide Linked, AccrueDay, AttemptOn, AccountRows, AccountAccruals, AccrualPostings, AmountDue, BaseRows, Flows,
      OnePerDay, BelowId;
    var rows, accs := AccountRows(t.txs, rule.account), AccountAccruals(t.accruals, rule.account);
    var book := TableBook(t, rule, CurrencyScale(currency));
    SnapshotIsLinked(t.txs, t.accruals, rule.account);
    SnapshotPostings(t.accruals, rule);
    AttemptPostsAmountDue(rows, accs, rule, currency, date, t.nextId);
    if AttemptOn(rows, accs, rule, currency, date, t.nextId).Accrued? {
      var p := Posting(date, AmountDue(book, Postings(t, rule), date));
      PostedOnce(book, Postings(t, rule), date);
      PayoutKeepsConsistent(t, rule, p);
      PayoutKeepsBook(t, rule, p, CurrencyScale(currency));
    }
  }

  lemma PostedOnce(book: Book, posts: seq<Posting>, date: nat)
    requires book.scale <= 6 && AccrueDay(book, posts, date) == posts + [Posting(date, AmountDue(book, posts, date))]
    ensures !HasPosting(posts, date) && AmountDue(book, posts, date) > 0
  {
    hide ShouldPost, AmountDue, HasPosting;
    assert |AccrueDay(book, posts, date)| == |posts| + 1;
  }

  // ---- Recalculation

  function KeptAccruals(accruals: seq<Accrual>, rule: Rule, from: nat, to: nat): seq<Accrual> {
    if accruals == [] then []
    else
      var n := |accruals| - 1;
      if Owns(rule, accruals[n]) && from <= accruals[n].date <= to then KeptAccruals(accruals[..n], rule, from, to)
      else KeptAccruals(accruals[..n], rule, from, to) + [accruals[n]]
  }

  /** Deletion by id that only touches interest income rows. */
  function WithoutInterest(txs: seq<Transaction>, ids: set<Id>): seq<Transaction> {
    if txs == [] then []
    else
      var n := |txs| - 1;
      if txs[n].id in ids && txs[n].kind == InterestIncome then WithoutInterest(txs[..n], ids)
      else WithoutInterest(txs[..n], ids) + [txs[n]]
  }

  /** The tables with the rule's rows of a range deleted. */
  function Cleared(t: Tables, rule: Rule, from: nat, to: nat): Tables {
    Tables(WithoutInterest(t.txs, ReplacedIds(t.accruals, rule, from, to)), KeptAccruals(t.accruals, rule, from, to),
      t.nextId)
  }

  function WithRows(t: Tables, txs: seq<Transaction>, accruals: seq<Accrual>): Tables {
    Tables(t.txs + txs, t.accruals + accruals, t.nextId + 2 * |txs|)
  }

  function RecalculateStep(t: Tables, rule: Rule, currency: string, from: nat, to: nat): Tables {
    var r := RecalculateOnce(rule, currency, AccountRows(t.txs, rule.account),
      AccountAccruals(t.accruals, rule.account), from, to, t.nextId);
    if r.RecalculatedRange? then WithRows(Cleared(t, rule, from, to), r.transactions, r.accruals) else t
  }

  /** The rows a payout list is stored as, appended one payout at a time. */
  function WithPayouts(t: Tables, rule: Rule, out: seq<Posting>): Tables {
    if out == [] then t else WithPayout(WithPayouts(t, rule, out[..|out| - 1]), rule, out[|out| - 1])
  }

  lemma {:induction false} RowsOneByOne(t: Tables, rule: Rule, out: seq<Posting>)
    ensures WithRows(t, TransactionRows(rule, out, t.nextId), AccrualRows(rule, out, t.nextId)) ==
            WithPayouts(t, rule, out)
    ensures WithPayouts(t, rule, out).nextId == t.nextId + 2 * |out|
  {
    if out == [] {
      assert t.txs + [] == t.txs && t.accruals + [] == t.accruals;
    } else {
      RowsOneByOne(t, rule, out[..|out| - 1]);
    }
  }

  lemma {:induction false} PayoutsKeepConsistent(t: Tables, rule: Rule, out: seq<Posting>, scale: nat)
    requires Consistent(t) && Increasing(out)
    requires forall i :: 0 <= i < |out| ==> out[i].amount > 0 && !HasPosting(Postings(t, rule), out[i].date)
    ensures var t' := WithPayouts(t, rule, out);
            && Consistent(t')
            && TableBook(t', rule, scale) == TableBook(t, rule, scale)
            && Postings(t', rule) == Postings(t, rule) + out
  {
    hide Linked, OnePerDay, TableBook, AccrualPostings;
    if out == [] {
      assert Postings(t, rule) + out == Postings(t, rule);
    } else {
      var n := |out| - 1;
      PayoutsKeepConsistent(t, rule, out[..n], scale);
      var mid := WithPayouts(t, rule, out[..n]);
      NotPostedTwice(Postings(t, rule), out[..n], out[n].date);
      PayoutKeepsConsistent(mid, rule, out[n]);
      PayoutKeepsBook(mid, rule, out[n], scale);
      assert (Postings(t, rule) + out[..n]) + [out[n]] == Postings(t, rule) + out;
    }
  }

  lemma NotPostedTwice(posts: seq<Posting>, out: seq<Posting>, date: nat)
    requires !HasPosting(posts, date) && Before(out, date)
    ensures !HasPosting(posts + out, date)
  {
    if i :| 0 <= i < |posts + out| && (posts + out)[i].date == date {
      assert i < |posts| ==> posts[i].date == date;
      assert i >= |posts| ==> out[i - |posts|].date == date;
    }
  }

  lemma {:induction false} DeletesOnlyInterest(txs: seq<Transaction>, ids: set<Id>)
    requires forall i :: 0 <= i < |txs| && txs[i].id in ids ==> txs[i].kind == InterestIncome
    ensures WithoutInterest(txs, ids) == WithoutIds(txs, ids)
  {
    if txs != [] {
      DeletesOnlyInterest(txs[..|txs| - 1], ids);
    }
  }

  lemma ReplacedRowsAreInterest(txs: seq<Transaction>, accruals: seq<Accrual>, rule: Rule, from: nat, to: nat)
    requires Linked(txs, accruals)
    ensures WithoutInterest(txs, ReplacedIds(accruals, rule, from, to)) ==
            WithoutIds(txs, ReplacedIds(accruals, rule, from, to))
  {
    hide WithoutInterest, WithoutIds;
    var ids := ReplacedIds(accruals, rule, from, to);
    forall i | 0 <= i < |txs| && txs[i].id in ids ensures txs[i].kind == InterestIncome {
      var j :| 0 <= j < |accruals| && accruals[j].transaction == txs[i].id;
      NamedRowIsInterest(txs, accruals, txs[i], j);
      assert Carries(InterestRows(txs)[j], accruals[j]);
    }
    DeletesOnlyInterest(txs, ids);
  }

  lemma {:induction false} InterestRowsWithout(txs: seq<Transaction>, ids: set<Id>)
    ensures InterestRows(WithoutIds(txs, ids)) == WithoutIds(InterestRows(txs), ids)
  {
    if txs != [] {
      var n := |txs| - 1;
      InterestRowsWithout(txs[..n], ids);
      InterestRowsSnoc(WithoutIds(txs[..n], ids), txs[n]);
      WithoutIdsSnoc(InterestRows(txs[..n]), txs[n], ids);
    }
  }

  ghost predicate PicksRange(ids: set<Id>, accruals: seq<Accrual>, rule: Rule, from: nat, to: nat) {
    forall i :: 0 <= i < |accruals| ==>
      (accruals[i].transaction in ids <==> Owns(rule, accruals[i]) && from <= accruals[i].date <= to)
  }

  lemma ReplacedPickRange(txs: seq<Transaction>, accruals: seq<Accrual>, rule: Rule, from: nat, to: nat)
    requires Linked(txs, accruals)
    ensures PicksRange(ReplacedIds(accruals, rule, from, to), accruals, rule, from, to)
  {
    hide Carries, Owns;
    AccrualsAreDistinct(txs, accruals);
  }

  lemma {:induction false} PairedAfterClearing(rows: seq<Transaction>, accruals: seq<Accrual>, ids: set<Id>,
      rule: Rule, from: nat, to: nat)
    requires Paired(rows, accruals) && PicksRange(ids, accruals, rule, from, to)
    ensures Paired(WithoutIds(rows, ids), KeptAccruals(accruals, rule, from, to))
  {
    hide Owns;
    if rows != [] {
      var n := |rows| - 1;
      PairedPrefix(rows, accruals);
      PairedAfterClearing(rows[..n], accruals[..n], ids, rule, from, to);
      assert Carries(rows[n], accruals[n]);
    }
  }

  lemma {:induction false} KeptAreAccruals(accruals: seq<Accrual>, rule: Rule, from: nat, to: nat)
    ensures forall a :: a in KeptAccruals(accruals, rule, from, to) ==> a in accruals
  {
    hide Owns;
    if accruals != [] {
      var n := |accruals| - 1;
      KeptAreAccruals(accruals[..n], rule, from, to);
      assert accruals == accruals[..n] + [accruals[n]];
    }
  }

  lemma {:induction false} KeptOnePerDay(accruals: seq<Accrual>, rule: Rule, from: nat, to: nat)
    requires OnePerDay(accruals)
    ensures OnePerDay(KeptAccruals(accruals, rule, from, to))
  {
    hide Owns;
    if accruals != [] {
      var n := |accruals| - 1;
      var kept := KeptAccruals(accruals[..n], rule, from, to);
      KeptOnePerDay(accruals[..n], rule, from, to);
      KeptAreAccruals(accruals[..n], rule, from, to);
      forall i | 0 <= i < |kept|
        ensures !(kept[i].account == accruals[n].account && kept[i].rule == accruals[n].rule
                && kept[i].date == accruals[n].date)
      {
        assert kept[i] in accruals[..n];
        var j :| 0 <= j < n && accruals[j] == kept[i];
      }
    }
  }

  lemma {:induction false} KeptPostings(accruals: seq<Accrual>, rule: Rule, from: nat, to: nat)
    ensures AccrualPostings(KeptAccruals(accruals, rule, from, to), rule) ==
            Outside(AccrualPostings(accruals, rule), from, to)
  {
    if accruals != [] {
      var n := |accruals| - 1;
      KeptPostings(accruals[..n], rule, from, to);
      AccrualPostingsSnoc(KeptAccruals(accruals[..n], rule, from, to), accruals[n], rule);
      OutsideSnoc(AccrualPostings(accruals[..n], rule), Posting(accruals[n].date, accruals[n].amount), from, to);
    }
  }

  lemma OutsideSnoc(posts: seq<Posting>, p: Posting, from: nat, to: nat)
    ensures Outside(posts + [p], from, to) ==
            if from <= p.date <= to then Outside(posts, from, to) else Outside(posts, from, to) + [p]
  {
    assert (posts + [p])[..|posts|] == posts;
  }

  /** Deleting a range keeps the tables consistent and leaves the payouts outside it. */
  lemma ClearingKeepsConsistent(t: Tables, rule: Rule, from: nat, to: nat)
    requires Consistent(t)
    ensures Consistent(Cleared(t, rule, from, to))
    ensures Postings(Cleared(t, rule, from, to), rule) == Outside(Postings(t, rule), from, to)
  {
    hide Paired, OnePerDay, UniqueIds, Owns, KeptAccruals, WithoutIds, WithoutInterest, InterestRows,
      AccrualPostings, PicksRange;
    var ids := ReplacedIds(t.accruals, rule, from, to);
    ReplacedRowsAreInterest(t.txs, t.accruals, rule, from, to);
    ReplacedPickRange(t.txs, t.accruals, rule, from, to);
    InterestRowsWithout(t.txs, ids);
    PairedAfterClearing(InterestRows(t.txs), t.accruals, ids, rule, from, to);
    WithoutIdsKeeps(t.txs, ids);
    KeptAreAccruals(t.accruals, rule, from, to);
    KeptOnePerDay(t.accruals, rule, from, to);
    KeptPostings(t.accruals, rule, from, to);
    var t' := Cleared(t, rule, from, to);
    forall i | 0 <= i < |t'.txs| ensures t'.txs[i].id < t'.nextId {
      assert t'.txs[i] in t.txs;
    }
    forall i | 0 <= i < |t'.accruals| ensures t'.accruals[i].id < t'.nextId {
      assert t'.accruals[i] in t.accruals;
    }
  }

  lemma {:induction false} AccountRowsWithout(txs: seq<Transaction>, ids: set<Id>, account: Id)
    ensures AccountRows(WithoutIds(txs, ids), account) == WithoutIds(AccountRows(txs, account), ids)
  {
    if txs != [] {
      var n := |txs| - 1;
      AccountRowsWithout(txs[..n], ids, account);
      AccountRowsSnoc(WithoutIds(txs[..n], ids), txs[n], account);
      WithoutIdsSnoc(AccountRows(txs[..n], account), txs[n], ids);
    }
  }

  lemma {:induction false} WithoutSameIds(txs: seq<Transaction>, some: set<Id>, rest: set<Id>, all: set<Id>)
    requires all == some + rest
    ensures WithoutIds(WithoutIds(txs, some), rest) == WithoutIds(txs, all)
  {
    if txs != [] {
      var n := |txs| - 1;
      WithoutSameIds(txs[..n], some, rest, all);
      WithoutIdsSnoc(WithoutIds(txs[..n], some), txs[n], rest);
    }
  }

  lemma {:induction false} OwnIdsAfterClearing(accruals: seq<Accrual>, rule: Rule, from: nat, to: nat)
    ensures OwnIds(accruals, rule) ==
            ReplacedIds(accruals, rule, from, to) +
              OwnIds(AccountAccruals(KeptAccruals(accruals, rule, from, to), rule.account), rule)
  {
    if accruals != [] {
      var n := |accruals| - 1;
      var a, kept := accruals[n], KeptAccruals(accruals[..n], rule, from, to);
      OwnIdsAfterClearing(accruals[..n], rule, from, to);
      assert accruals == accruals[..n] + [a];
      OwnIdsSnoc(accruals[..n], a, rule);
      ReplacedIdsSnoc(accruals[..n], a, rule, from, to);
      AccountAccrualsSnoc(kept, a, rule.account);
      OwnIdsSnoc(AccountAccruals(kept, rule.account), a, rule);
    }
  }

  lemma ReplacedIdsSnoc(accruals: seq<Accrual>, a: Accrual, rule: Rule, from: nat, to: nat)
    ensures ReplacedIds(accruals + [a], rule, from, to) == ReplacedIds(accruals, rule, from, to) +
            if Owns(rule, a) && from <= a.date <= to then {a.transaction} else {}
  {
    hide Owns;
    var all := accruals + [a];
    assert all[|accruals|] == a && forall i :: 0 <= i < |accruals| ==> all[i] == accruals[i];
  }

  lemma {:induction false} OwnIdsOfAccount(accruals: seq<Accrual>, rule: Rule)
    ensures OwnIds(AccountAccruals(accruals, rule.account), rule) == OwnIds(accruals, rule)
  {
    if accruals != [] {
      var n := |accruals| - 1;
      OwnIdsOfAccount(accruals[..n], rule);
      assert accruals == accruals[..n] + [accruals[n]];
      OwnIdsSnoc(accruals[..n], accruals[n], rule);
      OwnIdsSnoc(AccountAccruals(accruals[..n], rule.account), accruals[n], rule);
    }
  }

  /** Deleting a range does not change the base ledger. */
  lemma ClearingKeepsBook(t: Tables, rule: Rule, from: nat, to: nat, scale: nat)
    requires Consistent(t)
    ensures TableBook(Cleared(t, rule, from, to), rule, scale) == TableBook(t, rule, scale)
  {
    hide WithoutIds, WithoutInterest, AccountRows, AccountAccruals, KeptAccruals, OwnIds, ReplacedIds, Linked;
    var ids := ReplacedIds(t.accruals, rule, from, to);
    var kept := AccountAccruals(KeptAccruals(t.accruals, rule, from, to), rule.account);
    ReplacedRowsAreInterest(t.txs, t.accruals, rule, from, to);
    AccountRowsWithout(t.txs, ids, rule.account);
    OwnIdsAfterClearing(t.accruals, rule, from, to);
    OwnIdsOfAccount(t.accruals, rule);
    WithoutSameIds(AccountRows(t.txs, rule.account), ids, OwnIds(kept, rule), OwnIds(t.accruals, rule));
  }

  /** A recalculation of the tables is a recalculation of the rule's payouts, unless an amount is out
      of bounds and nothing is written. */
  lemma RecalculateStepIsReplacement(t: Tables, rule: Rule, currency: string, from: nat, to: nat)
    requires Consistent(t) && rule.annualRateBps > 0 && from <= to
    ensures var t', scale := RecalculateStep(t, rule, currency, from, to), CurrencyScale(currency);
            var book := TableBook(t, rule, scale);
            var out := Recalculated(book, Outside(Postings(t, rule), from, to), from, to).out;
            if AllInBounds(out) then
              && t' == WithPayouts(Cleared(t, rule, from, to), rule, out)
              && Consistent(t')
              && TableBook(t', rule, scale) == book
              && Postings(t', rule) == Replaced(book, Postings(t, rule), from, to)
            else t' == t
  {
    hide Linked, OnePerDay, BelowId, RangeLoop, Recalculated, AccountRows, AccountAccruals, AccrualPostings, Outside,
      BaseRows, Flows, Cleared, WithPayouts, TransactionRows, AccrualRows, ShouldPost, AllInBounds;
    var scale := CurrencyScale(currency);
    var book, posts := TableBook(t, rule, scale), Postings(t, rule);
    var rows, accs := AccountRows(t.txs, rule.account), AccountAccruals(t.accruals, rule.account);
    SnapshotIsLinked(t.txs, t.accruals, rule.account);
    SnapshotPostings(t.accruals, rule);
    RangeLoopIsRecalculation(rows, accs, rule, scale, from, to);
    HistoryOutsideRange(book, posts, from, to);
    var kept := Outside(posts, from, to);
    var out := Recalculated(book, kept, from, to).out;
    RecalculationStaysInRange(book, kept, from, to);
    if AllInBounds(out) {
      var cleared := Cleared(t, rule, from, to);
      ClearingKeepsConsistent(t, rule, from, to);
      ClearingKeepsBook(t, rule, from, to, scale);
      SameNextId(t, rule, from, to);
      RowsOneByOne(cleared, rule, out);
      PayoutsAreNew(posts, out, from, to, book.rule);
      PayoutsKeepConsistent(cleared, rule, out, scale);
    }
  }

  /** A rule without a rate or a reversed range is refused and nothing is written. */
  lemma RefusedRecalculation(t: Tables, rule: Rule, currency: string, from: nat, to: nat)
    requires rule.annualRateBps <= 0 || to < from
    ensures RecalculateStep(t, rule, currency, from, to) == t
  {
    hide RangeLoop;
  }

  lemma SameNextId(t: Tables, rule: Rule, from: nat, to: nat)
    ensures Cleared(t, rule, from, to).nextId == t.nextId
  {
  }

  lemma PayoutsAreNew(posts: seq<Posting>, out: seq<Posting>, from: nat, to: nat, rule: Rule)
    requires Ordered(rule, out, from, to + 1)
    ensures Increasing(out)
    ensures forall i :: 0 <= i < |out| ==> out[i].amount > 0 && !HasPosting(Outside(posts, from, to), out[i].date)
  {
    hide Outside, ShouldPost;
    OutsideFacts(posts, from, to);
    forall i | 0 <= i < |out| ensures out[i].amount > 0 && !HasPosting(Outside(posts, from, to), out[i].date) {
      assert from <= out[i].date < to + 1;
    }
  }
}
