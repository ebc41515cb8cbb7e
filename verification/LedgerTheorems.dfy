/** What the ledger's invariant means for its users: retiring a row happens once and moves balances
    one way, transfers conserve money, and interest rows are out of reach of manual steps. */
module LedgerTheorems {
  import opened Money
  import opened Options
  import opened Transactions
  import opened LinkedTables
  import opened InterestTables
  import opened LedgerMachine
  import opened LedgerInvariants

  // ---- Balances of single updates

  lemma {:induction false} StatusBalance(account: Id, txs: seq<Transaction>, row: Transaction, status: Status)
    requires UniqueIds(txs) && row in txs
    ensures Balance(account, WithStatus(txs, row.id, status)) ==
            Balance(account, txs) - Effect(account, row) + Effect(account, row.(status := status))
  {
    hide Effect;
    var n := |txs| - 1;
    var r := WithStatus(txs, row.id, status);
    assert r[..n] == WithStatus(txs[..n], row.id, status);
    if txs[n].id == row.id {
      SameRow(txs, txs[n], row);
      UntouchedBalance(account, txs[..n], row.id, status);
    } else {
      assert txs == txs[..n] + [txs[n]];
      StatusBalance(account, txs[..n], row, status);
    }
  }

  lemma {:induction false} UntouchedBalance(account: Id, txs: seq<Transaction>, id: Id, status: Status)
    requires forall i :: 0 <= i < |txs| ==> txs[i].id != id
    ensures Balance(account, WithStatus(txs, id, status)) == Balance(account, txs)
  {
    hide Effect;
    assert WithStatus(txs, id, status) == txs;
  }

  /** Cancelling, deleting and reversing a row all take exactly its effect out of the balance, on every
      account, although the reversal's amount was computed before the row was locked. */
  lemma RetiringMovesBalanceAlike(s: Ledger, i: nat, date: nat, account: Id)
    requires Kept(s) && i < |s.inFlight|
    requires Locked(s, s.inFlight[i].user, s.inFlight[i].tx).Some?
    ensures var r := s.inFlight[i];
            var row := Locked(s, r.user, r.tx).value;
            var expected := Balance(account, s.tables.txs) - Effect(account, row);
            && Balance(account, Apply(s, Cancel(r.user, r.tx)).tables.txs) == expected
            && Balance(account, Apply(s, SoftDelete(r.user, r.tx)).tables.txs) == expected
            && Balance(account, Apply(s, CommitReversal(i, date)).tables.txs) == expected
  {
    hide Core, Locked, OnePerDay, CoreKept, Paired, Balance, WithStatus, BelowId, InterestRows;
    var r := s.inFlight[i];
    LockedRow(s, r.user, r.tx);
    var row := Locked(s, r.user, r.tx).value;
    StatusBalance(account, s.tables.txs, row, Cancelled);
    StatusBalance(account, s.tables.txs, row, SoftDeleted);
    StatusBalance(account, s.tables.txs, row, Status.Reversed);
    AdjustmentReverses(s, r, row, date);
    BalanceSnoc(account, WithStatus(s.tables.txs, row.id, Status.Reversed),
      Adjusting(row, s.tables.nextId, r.amount, date));
  }

  // ---- One retirement per row

  /** A row that has left the confirmed state. */
  ghost predicate IsRetired(s: Ledger, row: Transaction) {
    row in Core(s.tables.txs) && row.status != Confirmed
  }

  lemma OtherRowStays(txs: seq<Transaction>, locked: Transaction, status: Status, row: Transaction)
    requires UniqueIds(txs) && locked in txs && locked.source != DepositInterest
    requires row in Core(txs) && row != locked
    ensures row in Core(WithStatus(txs, locked.id, status))
  {
    CoreUpdate(txs, locked, status);
  }

  lemma RetiredStaysRetired(s: Ledger, e: Event, row: Transaction)
    requires Kept(s) && IsRetired(s, row)
    ensures IsRetired(Apply(s, e), row)
  {
    hide Core, CoreKept, CanCreate, CanTransfer, CanUpdate, AccrueStep, RecalculateStep, Locked, WithStatus,
      OnePerDay, BelowId, Paired, InterestRows, Credited;
    var txs := s.tables.txs;
    match e
    case OpenAccount(_, _) =>
    case UpdateAccount(_, _, _) =>
    case Create(_, account, related, kind, amount, _, date, _) =>
      CoreSnoc(txs, Transaction(s.tables.nextId, account, related, None, Manual, None, kind, Confirmed, amount, date));
    case Cancel(user, id) => RetireOther(s, user, id, Cancelled, row);
    case SoftDelete(user, id) => RetireOther(s, user, id, SoftDeleted, row);
    case ReadForReversal(_, _) =>
    case CommitReversal(i, date) =>
      if i < |s.inFlight| && Locked(s, s.inFlight[i].user, s.inFlight[i].tx).Some? {
        var r := s.inFlight[i];
        RetireOther(s, r.user, r.tx, Status.Reversed, row);
        LockedRow(s, r.user, r.tx);
        var locked := Locked(s, r.user, r.tx).value;
        CoreSnoc(WithStatus(txs, locked.id, Status.Reversed), Adjusting(locked, s.tables.nextId, r.amount, date));
      }
    case AbandonReversal(_) =>
    case Transfer(_, _, _, _, _, _, _, _, _) => LegsAppend(s, e);
    case AccrueInterest(user, rule, currency, date) =>
      if OwnedBy(s, rule.account, user) { AccrueKeeps(s.tables, rule, currency, date); }
    case RecalculateInterest(user, rule, currency, from, to) =>
      if OwnedBy(s, rule.account, user) { RecalculateKeeps(s.tables, rule, currency, from,
        to); }
  }

  lemma RetireOther(s: Ledger, user: Id, id: Id, status: Status, row: Transaction)
    requires Kept(s) && IsRetired(s, row)
    ensures Locked(s, user, id).Some? ==> row in Core(WithStatus(s.tables.txs, id, status))
  {
    hide Core, CoreKept, Locked, WithStatus, OnePerDay, BelowId, Paired, InterestRows;
    if Locked(s, user, id).Some? {
      LockedRow(s, user, id);
      OtherRowStays(s.tables.txs, Locked(s, user, id).value, status, row);
    }
  }

  lemma LegsAppend(s: Ledger, e: Event)
    requires e.Transfer?
    ensures Core(s.tables.txs) <= Core(Transferred(s, e).tables.txs)
  {
    hide Credited;
  }

  lemma RetiredIsNotLocked(s: Ledger, row: Transaction, user: Id)
    requires Kept(s) && IsRetired(s, row)
    ensures Locked(s, user, row.id).None?
  {
    hide Consistent, ReversalsPaired, ReadsStillRight, TransfersMatch, OnlyManualRetired;
    if Locked(s, user, row.id).Some? {
      LockedRow(s, user, row.id);
    }
  }

  lemma {:induction false} RetiredForGood(s: Ledger, events: seq<Event>, row: Transaction)
    requires Kept(s) && IsRetired(s, row)
    ensures Kept(Play(s, events)) && IsRetired(Play(s, events), row)
  {
    hide Kept, IsRetired, Apply;
    if events != [] {
      var n := |events| - 1;
      RetiredForGood(s, events[..n], row);
      StepKeeps(Play(s, events[..n]), events[n]);
      RetiredStaysRetired(Play(s, events[..n]), events[n], row);
    }
  }

  /** A step that retires the row with the given id. */
  ghost predicate Retires(s: Ledger, e: Event, id: Id) {
    match e
    case Cancel(user, tx) => tx == id && Locked(s, user, id).Some?
    case SoftDelete(user, tx) => tx == id && Locked(s, user, id).Some?
    case CommitReversal(i, _) => i < |s.inFlight| && s.inFlight[i].tx == id && Locked(s, s.inFlight[i].user, id).Some?
    case _ => false
  }

  lemma RetiringRetires(s: Ledger, e: Event, id: Id) returns (row: Transaction)
    requires Kept(s) && Retires(s, e, id)
    ensures row.id == id && IsRetired(Apply(s, e), row)
  {
    hide Core, CoreKept, Locked, WithStatus, OnePerDay, BelowId, Paired, InterestRows;
    var user := if e.Cancel? || e.SoftDelete? then e.user else s.inFlight[e.index].user;
    var status := if e.Cancel? then Cancelled else if e.SoftDelete? then SoftDeleted else Status.Reversed;
    LockedRow(s, user, id);
    var before := Locked(s, user, id).value;
    row := before.(status := status);
    CoreUpdate(s.tables.txs, before, status);
    if e.CommitReversal? {
      CoreSnoc(WithStatus(s.tables.txs, id, status),
        Adjusting(before, s.tables.nextId, s.inFlight[e.index].amount, e.date));
    }
  }

  /** Of all cancels, deletions and reversals of a row, in any interleaving, at most one succeeds. */
  lemma RetiredAtMostOnce(s: Ledger, e: Event, events: seq<Event>, later: Event, id: Id)
    requires Kept(s) && Retires(s, e, id)
    ensures !Retires(Play(Apply(s, e), events), later, id)
  {
    hide Kept, Apply, Locked, IsRetired;
    var row := RetiringRetires(s, e, id);
    StepKeeps(s, e);
    RetiredForGood(Apply(s, e), events, row);
    var s' := Play(Apply(s, e), events);
    var user := if later.Cancel? || later.SoftDelete? then later.user
                else if later.CommitReversal? && later.index < |s'.inFlight| then s'.inFlight[later.index].user else 0;
    RetiredIsNotLocked(s', row, user);
  }

  // ---- Transfers

  lemma TransferBalances(s: Ledger, e: Event, account: Id)
    requires e.Transfer? && e.source != e.target && e.fee >= 0
    ensures Balance(account, Transferred(s, e).tables.txs) == Balance(account, s.tables.txs)
            + (if account == e.source then -e.amount - e.fee else 0)
            + (if account == e.target then Credited(e.amount, e.rate, e.fromCurrency, e.toCurrency) else 0)
  {
    hide Credited, Balance;
    var n, txs := s.tables.nextId, s.tables.txs;
    var o, i, f := OutLeg(e, n, n + 1), InLeg(e, n, n + 2), FeeLeg(e, n, n + 3);
    BalanceSnoc(account, txs, o);
    BalanceSnoc(account, txs + [o], i);
    BalanceSnoc(account, txs + [o] + [i], f);
    if e.fee > 0 {
      assert Transferred(s, e).tables.txs == txs + [o] + [i] + [f];
    } else {
      assert Transferred(s, e).tables.txs == txs + [o] + [i];
    }
  }

  /** A committed transfer leaves the source at or above zero, takes amount and fee from it, and touches
      no third account. */
  lemma TransferNeverOverdraws(s: Ledger, e: Event, other: Id)
    requires e.Transfer? && CanTransfer(s, e)
    ensures Balance(e.source, Apply(s, e).tables.txs) == Balance(e.source, s.tables.txs) - e.amount - e.fee >= 0
    ensures other !in {e.source, e.target} ==> Balance(other, Apply(s, e).tables.txs) == Balance(other, s.tables.txs)
  {
    hide Balance, Credited, Transferred, ValidAmount;
    TransferBalances(s, e, e.source);
    TransferBalances(s, e, other);
  }

  /** Between accounts of one currency a transfer lowers the two balances together by exactly the fee. */
  lemma SameCurrencyConserves(s: Ledger, e: Event)
    requires e.Transfer? && CanTransfer(s, e) && e.fromCurrency == e.toCurrency
    ensures var after := Apply(s, e).tables.txs;
            Balance(e.source, after) + Balance(e.target, after) ==
            Balance(e.source, s.tables.txs) + Balance(e.target, s.tables.txs) - e.fee
  {
    hide Balance, Transferred, ValidAmount;
    TransferBalances(s, e, e.source);
    TransferBalances(s, e, e.target);
  }

  /** Across currencies the credit is within half a minor unit of amount times rate. */
  lemma CrossCurrencyCredit(amount: int, rate: Rate, fromCurrency: string, toCurrency: string)
    requires fromCurrency != toCurrency
    ensures var unit := Pow10(18 - CurrencyScale(toCurrency));
            var credit := Credited(amount, rate, fromCurrency, toCurrency);
            && credit % unit == 0
            && -(Pow10(rate.digits) * unit) <= 2 * (credit * Pow10(rate.digits) - amount * rate.units) <=
              Pow10(rate.digits) * unit
  {
    hide RoundHalfAway, CurrencyScale, Pow10;
    var unit := Pow10(18 - CurrencyScale(toCurrency));
    var p := Pow10(rate.digits);
    ProductsPositive(p, unit);
    var r := RoundHalfAway(amount * rate.units, p * unit);
    RoundingError(amount * rate.units, p * unit);
    MultipleDivides(r, unit);
    assert r * (p * unit) == (r * unit) * p;
  }

  /** Transfer records are never dropped. */
  lemma {:induction false} TransfersAreKept(s: Ledger, events: seq<Event>)
    ensures s.transfers <= Play(s, events).transfers
  {
    hide Apply;
    if events != [] {
      TransfersAreKept(s, events[..|events| - 1]);
      StepKeepsTransfers(Play(s, events[..|events| - 1]), events[|events| - 1]);
    }
  }

  lemma StepKeepsTransfers(s: Ledger, e: Event)
    ensures s.transfers <= Apply(s, e).transfers
  {
    hide CanCreate, CanTransfer, CanUpdate, AccrueStep, RecalculateStep, Locked, Credited, WithStatus;
  }

  /** So the legs of a committed transfer match its record, confirmed, in all later states. */
  lemma LegsStayConfirmed(s: Ledger, events: seq<Event>, t: TransferRecord)
    requires Kept(s) && t in s.transfers
    ensures LegsMatch(Core(Play(s, events).tables.txs), t)
  {
    hide Consistent, Core, LegsMatch, Play, ReversalsPaired, ReadsStillRight, OnlyManualRetired, DistinctIds;
    TransfersAreKept(s, events);
    RunKeeps(s, events);
    assert t in Play(s, events).transfers;
  }

  lemma {:induction false} RunKeeps(s: Ledger, events: seq<Event>)
    requires Kept(s)
    ensures Kept(Play(s, events))
  {
    hide Kept, Apply;
    if events != [] {
      RunKeeps(s, events[..|events| - 1]);
      StepKeeps(Play(s, events[..|events| - 1]), events[|events| - 1]);
    }
  }

  // ---- Interest rows

  /** No step other than the interest ones touches a deposit-interest row or an accrual. */
  lemma InterestOutOfReach(s: Ledger, e: Event)
    requires Kept(s) && !e.AccrueInterest? && !e.RecalculateInterest?
    ensures InterestRows(Apply(s, e).tables.txs) == InterestRows(s.tables.txs)
    ensures Apply(s, e).tables.accruals == s.tables.accruals
  {
    hide Core, CoreKept, CanCreate, CanTransfer, CanUpdate, Locked, WithStatus, OnePerDay, BelowId, Paired,
      InterestRows, Credited;
    var txs := s.tables.txs;
    match e
    case OpenAccount(_, _) =>
    case UpdateAccount(_, _, _) =>
    case Create(_, account, related, kind, amount, _, date, _) =>
      InterestRowsSnoc(txs, Transaction(s.tables.nextId, account, related, None, Manual, None, kind, Confirmed,
        amount, date));
    case Cancel(user, id) => RetiringKeepsInterest(s, user, id, Cancelled);
    case SoftDelete(user, id) => RetiringKeepsInterest(s, user, id, SoftDeleted);
    case ReadForReversal(_, _) =>
    case CommitReversal(i, date) =>
      if i < |s.inFlight| && Locked(s, s.inFlight[i].user, s.inFlight[i].tx).Some? {
        var r := s.inFlight[i];
        RetiringKeepsInterest(s, r.user, r.tx, Status.Reversed);
        LockedRow(s, r.user, r.tx);
        InterestRowsSnoc(WithStatus(txs, r.tx, Status.Reversed),
                         Adjusting(Locked(s, r.user, r.tx).value, s.tables.nextId, r.amount, date));
      }
    case AbandonReversal(_) =>
    case Transfer(_, _, _, _, _, _, _, _, _) => LegsAreNotInterest(s, e);
  }

  lemma RetiringKeepsInterest(s: Ledger, user: Id, id: Id, status: Status)
    requires Kept(s)
    ensures Locked(s, user, id).Some? ==>
            InterestRows(WithStatus(s.tables.txs, id, status)) == InterestRows(s.tables.txs)
  {
    hide Core, CoreKept, Locked, WithStatus, OnePerDay, BelowId, Paired, InterestRows;
    if Locked(s, user, id).Some? {
      LockedRow(s, user, id);
      var row := Locked(s, user, id).value;
      forall i | 0 <= i < |s.tables.txs| && s.tables.txs[i].id == id ensures s.tables.txs[i].source != DepositInterest {
        SameRow(s.tables.txs, s.tables.txs[i], row);
      }
      UpdateKeepsInterestRows(s.tables.txs, id, status);
    }
  }

  lemma LegsAreNotInterest(s: Ledger, e: Event)
    requires e.Transfer?
    ensures InterestRows(Transferred(s, e).tables.txs) == InterestRows(s.tables.txs)
  {
    hide Credited, InterestRows;
    var n, txs := s.tables.nextId, s.tables.txs;
    var o, i, f := OutLeg(e, n, n + 1), InLeg(e, n, n + 2), FeeLeg(e, n, n + 3);
    InterestRowsSnoc(txs, o);
    InterestRowsSnoc(txs + [o], i);
    InterestRowsSnoc(txs + [o] + [i], f);
    if e.fee > 0 {
      assert Transferred(s, e).tables.txs == txs + [o] + [i] + [f];
    } else {
      assert Transferred(s, e).tables.txs == txs + [o] + [i];
    }
  }
}
