/** Users cannot touch each other's accounts: no step of another user changes an account, any of its rows or
    any of its accruals. */
module Isolation {
  import opened Options
  import opened Transactions
  import opened InterestRules
  import opened InterestSchedule
  import opened BatchRecalculation
  import opened Recalculation
  import opened Money
  import opened InterestEngine
  import opened LinkedTables
  import opened InterestTables
  import opened LedgerMachine
  import opened LedgerInvariants

  /** All rows of an account, in order. */
  function RowsOf(txs: seq<Transaction>, account: Id): seq<Transaction> {
    if txs == [] then []
    else
      var n := |txs| - 1;
      RowsOf(txs[..n], account) + if txs[n].account == account then [txs[n]] else []
  }

  /** The user a step is made by; opening an account and dropping a prepared reversal are nobody's. */
  function ActingUser(s: Ledger, e: Event): Option<Id> {
    match e
    case OpenAccount(_, _) => None
    case UpdateAccount(user, _, _) => Some(user)
    case Create(user, _, _, _, _, _, _, _) => Some(user)
    case Cancel(user, _) => Some(user)
    case SoftDelete(user, _) => Some(user)
    case ReadForReversal(user, _) => Some(user)
    case CommitReversal(i, _) => if i < |s.inFlight| then Some(s.inFlight[i].user) else None
    case AbandonReversal(_) => None
    case Transfer(user, _, _, _, _, _, _, _, _) => Some(user)
    case AccrueInterest(user, _, _, _) => Some(user)
    case RecalculateInterest(user, _, _, _, _) => Some(user)
  }

  /** The account, its rows and its accruals are as they were. */
  ghost predicate Untouched(s: Ledger, s': Ledger, account: Id) {
    && account in s.accounts && account in s'.accounts && s'.accounts[account] == s.accounts[account]
    && RowsOf(s'.tables.txs, account) == RowsOf(s.tables.txs, account)
    && AccountAccruals(s'.tables.accruals, account) == AccountAccruals(s.tables.accruals, account)
  }

  lemma RowsOfSnoc(txs: seq<Transaction>, tx: Transaction, account: Id)
    ensures RowsOf(txs + [tx], account) == RowsOf(txs, account) + if tx.account == account then [tx] else []
  {
    assert (txs + [tx])[..|txs|] == txs;
  }

  lemma {:induction false} StatusElsewhere(txs: seq<Transaction>, id: Id, status: Status, account: Id)
    requires forall i :: 0 <= i < |txs| && txs[i].id == id ==> txs[i].account != account
    ensures RowsOf(WithStatus(txs, id, status), account) == RowsOf(txs, account)
  {
    if txs != [] {
      var n := |txs| - 1;
      StatusElsewhere(txs[..n], id, status, account);
      var marked := WithStatus(txs, id, status);
      assert marked[..n] == WithStatus(txs[..n], id, status);
    }
  }

  lemma {:induction false} DeletedElsewhere(txs: seq<Transaction>, ids: set<Id>, account: Id)
    requires forall i :: 0 <= i < |txs| && txs[i].id in ids ==> txs[i].account != account
    ensures RowsOf(WithoutInterest(txs, ids), account) == RowsOf(txs, account)
  {
    if txs != [] {
      var n := |txs| - 1;
      DeletedElsewhere(txs[..n], ids, account);
      RowsOfSnoc(WithoutInterest(txs[..n], ids), txs[n], account);
    }
  }

  lemma {:induction false} KeptElsewhere(accruals: seq<Accrual>, rule: Rule, from: nat, to: nat, account: Id)
    requires rule.account != account
    ensures AccountAccruals(KeptAccruals(accruals, rule, from, to), account) == AccountAccruals(accruals, account)
  {
    if accruals != [] {
      var n := |accruals| - 1;
      KeptElsewhere(accruals[..n], rule, from, to, account);
      AccountAccrualsSnoc(KeptAccruals(accruals[..n], rule, from, to), accruals[n], account);
    }
  }

  lemma {:induction false} PaidElsewhere(t: Tables, rule: Rule, out: seq<Posting>, account: Id)
    requires rule.account != account
    ensures RowsOf(WithPayouts(t, rule, out).txs, account) == RowsOf(t.txs, account)
    ensures AccountAccruals(WithPayouts(t, rule, out).accruals, account) == AccountAccruals(t.accruals, account)
  {
    hide RowsOf, AccountAccruals;
    if out != [] {
      var n := |out| - 1;
      PaidElsewhere(t, rule, out[..n], account);
      var mid := WithPayouts(t, rule, out[..n]);
      RowsOfSnoc(mid.txs, InterestTransaction(rule, out[n], mid.nextId, mid.nextId + 1), account);
      AccountAccrualsSnoc(mid.accruals, InterestAccrual(rule, out[n], mid.nextId + 1, mid.nextId), account);
    }
  }

  /** Rows named by a rule's accruals are rows of the rule's account. */
  lemma NamedRowsAreOwn(t: Tables, rule: Rule, from: nat, to: nat, account: Id)
    requires Consistent(t) && rule.account != account
    ensures var ids := ReplacedIds(t.accruals, rule, from, to);
            forall i :: 0 <= i < |t.txs| && t.txs[i].id in ids ==> t.txs[i].account != account
  {
    hide OnePerDay, BelowId;
    var ids := ReplacedIds(t.accruals, rule, from, to);
    InterestRowsAreRows(t.txs);
    forall i | 0 <= i < |t.txs| && t.txs[i].id in ids ensures t.txs[i].account != account {
      var k :| 0 <= k < |t.accruals| && Owns(rule, t.accruals[k]) && t.accruals[k].transaction == t.txs[i].id;
      var row := InterestRows(t.txs)[k];
      assert Carries(row, t.accruals[k]);
      assert row in t.txs;
      SameRow(t.txs, t.txs[i], row);
    }
  }

  lemma AccrualElsewhere(t: Tables, rule: Rule, currency: string, date: nat, account: Id)
    requires rule.account != account
    ensures var t' := AccrueStep(t, rule, currency, date);
            && RowsOf(t'.txs, account) == RowsOf(t.txs, account)
            && AccountAccruals(t'.accruals, account) == AccountAccruals(t.accruals, account)
  {
    hide RowsOf, AccountRows, AccountAccruals, PrincipalOn, UpToDate, Balance, ShouldPost, ActiveOn, AccrualAmount,
      HasAccrual;
    var r := AttemptOn(AccountRows(t.txs, rule.account), AccountAccruals(t.accruals, rule.account), rule, currency,
                       date, t.nextId);
    if r.Accrued? {
      RowsOfSnoc(t.txs, r.transaction, account);
      AccountAccrualsSnoc(t.accruals, r.accrual, account);
    }
  }

  lemma RecalculationElsewhere(t: Tables, rule: Rule, currency: string, from: nat, to: nat, account: Id)
    requires Consistent(t) && rule.account != account
    ensures var t' := RecalculateStep(t, rule, currency, from, to);
            && RowsOf(t'.txs, account) == RowsOf(t.txs, account)
            && AccountAccruals(t'.accruals, account) == AccountAccruals(t.accruals, account)
  {
    hide Consistent, RecalculateStep, RowsOf, AccountAccruals, Recalculated, Outside, WithPayouts, WithoutInterest,
      KeptAccruals, AccrualPostings, AccountRows, BaseRows, Flows, AllInBounds, CurrencyScale;
    if rule.annualRateBps > 0 && from <= to {
      RecalculateStepIsReplacement(t, rule, currency, from, to);
      var book := TableBook(t, rule, CurrencyScale(currency));
      var out := Recalculated(book, Outside(Postings(t, rule), from, to), from, to).out;
      NamedRowsAreOwn(t, rule, from, to, account);
      DeletedElsewhere(t.txs, ReplacedIds(t.accruals, rule, from, to), account);
      KeptElsewhere(t.accruals, rule, from, to, account);
      PaidElsewhere(Cleared(t, rule, from, to), rule, out, account);
    } else {
      RefusedRecalculation(t, rule, currency, from, to);
    }
  }

  /** A row a user may lock lies in an account of that user, so marking it leaves all others alone. */
  lemma MarkingElsewhere(s: Ledger, user: Id, id: Id, status: Status, account: Id)
    requires Kept(s) && account in s.accounts && s.accounts[account].owner != user && Locked(s, user, id).Some?
    ensures RowsOf(WithStatus(s.tables.txs, id, status), account) == RowsOf(s.tables.txs, account)
    ensures Locked(s, user, id).value.account != account
  {
    hide CoreKept, OnePerDay, BelowId, Paired, InterestRows, RowsOf, WithStatus;
    LockedRow(s, user, id);
    var row := Locked(s, user, id).value;
    forall i | 0 <= i < |s.tables.txs| && s.tables.txs[i].id == id ensures s.tables.txs[i].account != account {
      SameRow(s.tables.txs, s.tables.txs[i], row);
    }
    StatusElsewhere(s.tables.txs, id, status, account);
  }

  lemma TransferElsewhere(s: Ledger, e: Event, account: Id)
    requires e.Transfer? && account != e.source && account != e.target
    ensures RowsOf(Transferred(s, e).tables.txs, account) == RowsOf(s.tables.txs, account)
  {
    hide RowsOf, Credited;
    var n, txs := s.tables.nextId, s.tables.txs;
    var o, i, f := OutLeg(e, n, n + 1), InLeg(e, n, n + 2), FeeLeg(e, n, n + 3);
    RowsOfSnoc(txs, o, account);
    RowsOfSnoc(txs + [o], i, account);
    RowsOfSnoc(txs + [o] + [i], f, account);
    assert RowsOf(txs, account) + [] == RowsOf(txs, account);
    if e.fee > 0 {
      assert Transferred(s, e).tables.txs == txs + [o] + [i] + [f];
    } else {
      assert Transferred(s, e).tables.txs == txs + [o] + [i];
    }
  }

  /** Whatever a user does leaves every account of another user untouched. */
  lemma StrangersCannotTouch(s: Ledger, e: Event, account: Id)
    requires Kept(s) && account in s.accounts && ActingUser(s, e) != Some(s.accounts[account].owner)
    ensures Untouched(s, Apply(s, e), account)
  {
    hide CoreKept, Consistent, RowsOf, AccountAccruals, Locked, WithStatus, ValidAmount, Credited, Balance, AccrueStep,
      RecalculateStep, Transferred;
    var txs := s.tables.txs;
    match e
    case Create(_, a, related, kind, amount, _, date, _) =>
      RowsOfSnoc(txs, Transaction(s.tables.nextId, a, related, None, Manual, None, kind, Confirmed, amount, date),
        account);
    case Cancel(user, id) => if Locked(s, user, id).Some? { MarkingElsewhere(s, user, id, Cancelled, account); }
    case SoftDelete(user, id) => if Locked(s, user, id).Some? { MarkingElsewhere(s, user, id, SoftDeleted, account); }
    case CommitReversal(i, date) => ReversalElsewhere(s, i, date, account);
    case Transfer(_, _, _, _, _, _, _, _, _) => TransferTouches(s, e, account);
    case AccrueInterest(_, rule, currency, date) =>
      if rule.account != account { AccrualElsewhere(s.tables, rule, currency, date, account); }
    case RecalculateInterest(_, rule, currency, from, to) =>
      if rule.account != account { RecalculationElsewhere(s.tables, rule, currency, from, to, account); }
    case _ =>
  }

  lemma TransferTouches(s: Ledger, e: Event, account: Id)
    requires e.Transfer? && account in s.accounts && s.accounts[account].owner != e.user
    ensures Untouched(s, Apply(s, e), account)
  {
    hide RowsOf, AccountAccruals, ValidAmount, Credited, Balance;
    if CanTransfer(s, e) {
      TransferElsewhere(s, e, account);
    }
  }

  lemma ReversalElsewhere(s: Ledger, i: nat, date: nat, account: Id)
    requires Kept(s) && account in s.accounts
    requires i < |s.inFlight| ==> s.inFlight[i].user != s.accounts[account].owner
    ensures Untouched(s, Apply(s, CommitReversal(i, date)), account)
  {
    hide CoreKept, Consistent, RowsOf, AccountAccruals, Locked, WithStatus;
    if i < |s.inFlight| && Locked(s, s.inFlight[i].user, s.inFlight[i].tx).Some? {
      var r := s.inFlight[i];
      MarkingElsewhere(s, r.user, r.tx, Status.Reversed, account);
      LockedRow(s, r.user, r.tx);
      var row := Locked(s, r.user, r.tx).value;
      RowsOfSnoc(WithStatus(s.tables.txs, row.id, Status.Reversed), Adjusting(row, s.tables.nextId, r.amount, date),
        account);
    }
  }

  /** Every step of the run is made by someone other than the user, or by nobody. */
  ghost predicate WithoutUser(s: Ledger, events: seq<Event>, user: Id) {
    forall n {:trigger events[n]} :: 0 <= n < |events| ==> ActingUser(Play(s, events[..n]), events[n]) != Some(user)
  }

  /** However long others go on, the accounts of a user who does nothing stay as they were. */
  lemma {:induction false} AbsentUsersKeepAccounts(s: Ledger, events: seq<Event>, account: Id)
    requires Kept(s) && account in s.accounts && WithoutUser(s, events, s.accounts[account].owner)
    ensures Kept(Play(s, events)) && Untouched(s, Play(s, events), account)
  {
    hide Kept, Apply, ActingUser, RowsOf, AccountAccruals;
    if events != [] {
      var n := |events| - 1;
      var before := events[..n];
      assert WithoutUser(s, before, s.accounts[account].owner) by {
        forall k | 0 <= k < |before| ensures ActingUser(Play(s, before[..k]),
          before[k]) != Some(s.accounts[account].owner) {
          assert before[..k] == events[..k] && before[k] == events[k];
        }
      }
      AbsentUsersKeepAccounts(s, before, account);
      assert ActingUser(Play(s, events[..n]), events[n]) != Some(s.accounts[account].owner);
      StepKeeps(Play(s, before), events[n]);
      StrangersCannotTouch(Play(s, before), events[n], account);
    }
  }

  // ---- Inactive accounts

  /** An account that is switched off gains no row and no accrual and loses none: its rows can only still be
      cancelled, deleted or reversed. */
  lemma InactiveAccountsAreFrozen(s: Ledger, e: Event, account: Id)
    requires Kept(s) && account in s.accounts && !s.accounts[account].isActive
    requires !e.Cancel? && !e.SoftDelete? && !e.CommitReversal?
    ensures RowsOf(Apply(s, e).tables.txs, account) == RowsOf(s.tables.txs, account)
    ensures AccountAccruals(Apply(s, e).tables.accruals, account) == AccountAccruals(s.tables.accruals, account)
  {
    hide CoreKept, Consistent, RowsOf, AccountAccruals, Locked, WithStatus, ValidAmount, Credited, Balance, AccrueStep,
      RecalculateStep, Transferred;
    match e
    case Create(_, a, related, kind, amount, _, date, _) =>
      RowsOfSnoc(s.tables.txs, Transaction(s.tables.nextId, a, related, None, Manual, None, kind, Confirmed, amount,
        date),
                 account);
    case Transfer(_, _, _, _, _, _, _, _, _) => if CanTransfer(s,
      e) { TransferElsewhere(s, e, account); AccrualsStay(s, e); }
    case AccrueInterest(_, rule, currency, date) =>
      if rule.account != account { AccrualElsewhere(s.tables, rule, currency, date, account); }
    case RecalculateInterest(_, rule, currency, from, to) =>
      if rule.account != account { RecalculationElsewhere(s.tables, rule, currency, from, to, account); }
    case _ =>
  }

  lemma AccrualsStay(s: Ledger, e: Event)
    requires e.Transfer?
    ensures Transferred(s, e).tables.accruals == s.tables.accruals
  {
    hide Credited;
  }
}
