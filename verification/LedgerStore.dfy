/** The transaction store: each public method is one database transaction, and does to the tables what
    the corresponding ledger event says. */
module LedgerStore {
  import opened Options
  import opened Transactions
  import opened InterestEngine
  import opened InterestTables
  import opened LedgerMachine

  datatype StoreError =
    | InvalidRequest | NotFound | Conflict | InactiveAccount | TransactionBeforeOpen | InsufficientFunds

  class TransactionStore {
    var transactions: seq<Transaction>
    var accruals: seq<Accrual>
    var nextId: Id
    var accounts: map<Id, Account>
    var transfers: seq<TransferRecord>

    constructor ()
      ensures State([]) == EMPTY
    {
      transactions, accruals, nextId, accounts, transfers := [], [], 0, map[], [];
    }

    /** The ledger state, with the reversals that requests have read but not committed. */
    ghost function State(inFlight: seq<Reversal>): Ledger
      reads this
    {
      Ledger(Tables(transactions, accruals, nextId), accounts, transfers, inFlight)
    }

    // ---- Locks and lookups

    predicate Owned(account: Id, user: Id)
      reads this
    {
      account in accounts && accounts[account].owner == user
    }

    /** Locks the accounts of a transaction; the first problem found in this order is reported: a missing
        account, an inactive one, one opened later. */
    method LockTransactionAccountsForUser(user: Id, ids: seq<Id>, date: nat) returns (error: Option<StoreError>)
      ensures error == Some(NotFound) <==> ids == [] || exists k :: 0 <= k < |ids| && !Owned(ids[k], user)
      ensures error == Some(InactiveAccount) <==>
                && (forall k :: 0 <= k < |ids| ==> Owned(ids[k], user))
                && (exists k :: 0 <= k < |ids| && !accounts[ids[k]].isActive)
      ensures error.None? <==> ids != [] && forall k :: 0 <= k < |ids| ==> Usable(State([]), ids[k], user, date)
      ensures error.Some? ==> error.value in {NotFound, InactiveAccount, TransactionBeforeOpen}
    {
      if ids == [] {
        return Some(NotFound);
      }
      var locked, hasInactive, hasBeforeOpen := 0, false, false;
      for i := 0 to |ids|
        invariant locked <= i
        invariant locked == i <==> forall k :: 0 <= k < i ==> Owned(ids[k], user)
        invariant hasInactive <==> exists k :: 0 <= k < i && Owned(ids[k], user) && !accounts[ids[k]].isActive
        invariant hasBeforeOpen <==> exists k :: 0 <= k < i && Owned(ids[k], user) && date < accounts[ids[k]].openedAt
      {
        if Owned(ids[i], user) {
          locked := locked + 1;
          if !accounts[ids[i]].isActive {
            hasInactive := true;
          }
          if date < accounts[ids[i]].openedAt {
            hasBeforeOpen := true;
          }
        }
      }
      if locked != |ids| {
        return Some(NotFound);
      }
      if hasInactive {
        return Some(InactiveAccount);
      }
      return if hasBeforeOpen then Some(TransactionBeforeOpen) else None;
    }

    /** Account number k is the first of the user's with a problem. */
    ghost predicate FirstProblem(user: Id, ids: seq<Id>, date: nat, k: nat)
      reads this
    {
      && k < |ids| && Owned(ids[k], user) && !Usable(State([]), ids[k], user, date)
      && forall j :: 0 <= j < k && Owned(ids[j], user) ==> Usable(State([]), ids[j], user, date)
    }

    /** Locks the two accounts of a transfer: the first account with a problem decides what is reported,
        inactive before opened later, and a missing one only when the others are in order. */
    method LockTransferAccounts(user: Id, ids: seq<Id>, date: nat) returns (error: Option<StoreError>)
      ensures error.None? <==> forall k :: 0 <= k < |ids| ==> Usable(State([]), ids[k], user, date)
      ensures error == Some(NotFound) <==>
                && (exists k :: 0 <= k < |ids| && !Owned(ids[k], user))
                && (forall k :: 0 <= k < |ids| && Owned(ids[k], user) ==> Usable(State([]), ids[k], user, date))
      ensures error.Some? && error != Some(NotFound) ==>
                exists k: nat :: FirstProblem(user, ids, date, k)
                            && error == Some(if accounts[ids[k]].isActive then TransactionBeforeOpen
                              else InactiveAccount)
    {
      var locked := 0;
      for i := 0 to |ids|
        invariant locked <= i
        invariant locked == i <==> forall k :: 0 <= k < i ==> Owned(ids[k], user)
        invariant forall k :: 0 <= k < i && Owned(ids[k], user) ==> Usable(State([]), ids[k], user, date)
      {
        if Owned(ids[i], user) {
          if !accounts[ids[i]].isActive {
            assert FirstProblem(user, ids, date, i);
            return Some(InactiveAccount);
          }
          if date < accounts[ids[i]].openedAt {
            assert FirstProblem(user, ids, date, i);
            return Some(TransactionBeforeOpen);
          }
          locked := locked + 1;
        }
      }
      return if locked != |ids| then Some(NotFound) else None;
    }

    /** The row with an id, as the ledger finds it. */
    method FindRow(id: Id) returns (found: Option<Transaction>)
      ensures found == Find(transactions, id)
    {
      found := None;
      for i := 0 to |transactions|
        invariant found == Find(transactions[..i], id)
      {
        assert transactions[..i + 1][..i] == transactions[..i];
        if transactions[i].id == id {
          found := Some(transactions[i]);
        }
      }
      assert transactions[..|transactions|] == transactions;
    }

    /** Locks a row a user may still retire. */
    method LockManualLifecycleTransactionForUser(id: Id, user: Id) returns (row: Option<Transaction>, error: StoreError)
      ensures row == Locked(State([]), user, id)
      ensures row.None? ==>
                error == if Find(transactions, id).None? || !Owned(Find(transactions, id).value.account, user)
                  then NotFound else Conflict
    {
      var found := FindRow(id);
      if found.None? || !Owned(found.value.account, user) {
        return None, NotFound;
      }
      if found.value.source != Manual || found.value.transfer.Some? || found.value.status != Confirmed {
        return None, Conflict;
      }
      return found, NotFound;
    }

    method SetStatus(id: Id, status: Status)
      modifies this`transactions
      ensures transactions == WithStatus(old(transactions), id, status)
    {
      var rows: seq<Transaction> := [];
      for i := 0 to |transactions|
        invariant unchanged(this)
        invariant rows == WithStatus(transactions[..i], id, status)
      {
        assert transactions[..i + 1][..i] == transactions[..i];
        rows := rows + [if transactions[i].id == id then transactions[i].(status := status) else transactions[i]];
      }
      assert transactions[..|transactions|] == transactions;
      transactions := rows;
    }

    // ---- Accounts

    /** Changes an account; its currency only while it has no transactions. */
    method UpdateAccountForUser(user: Id, id: Id, updated: Account) returns (error: Option<StoreError>)
      modifies this
      ensures State([]) == Apply(old(State([])), UpdateAccount(user, id, updated))
      ensures error == Some(NotFound) <==> !old(Owned(id, user))
      ensures error.None? <==> old(CanUpdate(State([]), user, id, updated))
      ensures error.Some? ==> unchanged(this)
    {
      if !Owned(id, user) {
        return Some(NotFound);
      }
      if accounts[id].currency != updated.currency {
        var hasTransactions := false;
        for i := 0 to |transactions|
          invariant unchanged(this)
          invariant hasTransactions <==> HasRows(transactions[..i], id)
        {
          assert transactions[..i + 1] == transactions[..i] + [transactions[i]];
          if transactions[i].account == id {
            hasTransactions := true;
          }
        }
        assert transactions[..|transactions|] == transactions;
        if hasTransactions {
          return Some(Conflict);
        }
      }
      accounts := accounts[id := updated.(owner := user)];
      return None;
    }

    // ---- Manual transactions

    /** `currency` is the account's as it was read before the lock. */
    method CreateForUser(user: Id, account: Id, related: Option<Id>, kind: Kind, amount: int, currency: string,
                         date: nat, today: nat)
      returns (error: Option<StoreError>)
      modifies this
      ensures State([]) == Apply(old(State([])), Create(user, account, related, kind, amount, currency, date, today))
      ensures error.None? <==>
              old(CanCreate(State([]), Create(user, account, related, kind, amount, currency, date, today)))
      ensures error.Some? ==> unchanged(this)
    {
      hide ValidAmount;
      if IsTransferKind(kind) || !ValidAmount(kind, amount, currency) || today < date {
        return Some(InvalidRequest);
      }
      var ids := [account] + if related.Some? then [related.value] else [];
      error := LockTransactionAccountsForUser(user, ids, date);
      assert Usable(State([]), ids[0], user, date) && (related.Some? ==> Usable(State([]), ids[1], user, date)) <==>
        error.None?;
      if error.None? {
        transactions := transactions + [Transaction(nextId, account, related, None, Manual, None, kind, Confirmed,
          amount, date)];
        nextId := nextId + 1;
      }
    }

    /** Cancels or soft-deletes a row. */
    method UpdateManualTransactionStatusForUser(id: Id, user: Id, status: Status) returns (error: Option<StoreError>)
      requires status in {Cancelled, SoftDeleted}
      modifies this
      ensures State([]) == Apply(old(State([])), if status == Cancelled then Cancel(user, id) else SoftDelete(user, id))
      ensures error.None? <==> old(Locked(State([]), user, id)).Some?
      ensures error.Some? ==> unchanged(this)
    {
      hide Locked, WithStatus;
      var row, why := LockManualLifecycleTransactionForUser(id, user);
      if row.None? {
        return Some(why);
      }
      SetStatus(id, status);
      return None;
    }

    // ---- Reversals

    /** The unlocked read of a reversal: what the adjustment will be. */
    method PrepareReversal(user: Id, id: Id) returns (r: Option<Reversal>)
      ensures State(if r.Some? then [r.value] else []) == Apply(State([]), ReadForReversal(user, id))
    {
      hide Delta;
      var row := FindRow(id);
      if row.Some? && Owned(row.value.account, user) && Manageable(row.value) {
        return Some(Reversal(user, id, -Delta(row.value)));
      }
      return None;
    }

    /** The locked commit: the row is marked and the prepared adjustment inserted, or nothing happens. */
    method ReverseForUser(r: Reversal, date: nat) returns (error: Option<StoreError>)
      modifies this
      ensures State([]) == Apply(old(State([r])), CommitReversal(0, date))
      ensures error.None? <==> old(Locked(State([]), r.user, r.tx)).Some?
      ensures error.Some? ==> unchanged(this)
    {
      hide WithStatus;
      var row, why := LockManualLifecycleTransactionForUser(r.tx, r.user);
      if row.None? {
        return Some(why);
      }
      SetStatus(r.tx, Status.Reversed);
      transactions := transactions + [Adjusting(row.value, nextId, r.amount, date)];
      nextId := nextId + 1;
      return None;
    }

    // ---- Transfers

    method CreateTransfer(user: Id, source: Id, target: Id, fromCurrency: string, toCurrency: string,
                          amount: int, fee: int, rate: Rate, date: nat) returns (error: Option<StoreError>)
      modifies this
      ensures var e := Transfer(user, source, target, fromCurrency, toCurrency, amount, fee, rate, date);
              && State([]) == Apply(old(State([])), e)
              && (error.None? <==> CanTransfer(old(State([])), e))
              && (error == Some(InsufficientFunds) ==> Balance(source, old(transactions)) < amount + fee)
      ensures error.Some? ==> unchanged(this)
    {
      hide ValidAmount, Credited, Balance;
      ghost var e := Transfer(user, source, target, fromCurrency, toCurrency, amount, fee, rate, date);
      var credit := Credited(amount, rate, fromCurrency, toCurrency);
      if source == target || amount <= 0 || fee < 0 || rate.units <= 0
        || !ValidAmount(TransferOut, amount, fromCurrency)
        || !ValidAmount(TransferIn, credit, toCurrency) || (fee > 0 && !ValidAmount(Expense, fee, fromCurrency))
      {
        return Some(InvalidRequest);
      }
      var ids := if source < target then [source, target] else [target, source];
      error := LockTransferAccounts(user, ids, date);
      assert Usable(State([]), ids[0], user, date) && Usable(State([]), ids[1], user, date) <==> error.None?;
      if error.Some? {
        return;
      }
      if accounts[source].currency != fromCurrency || accounts[target].currency != toCurrency {
        return Some(Conflict);
      }
      var balance, _ := CalculateBalance(source, transactions);
      if balance < amount || (fee > 0 && balance < amount + fee) {
        return Some(InsufficientFunds);
      }
      var id := nextId;
      transfers := transfers + [TransferRecord(id, user, source, target, id + 1, id + 2, if fee > 0 then Some(id + 3)
        else None,
                                               amount, credit, fee)];
      var legs := [
        Transaction(id + 1, source, Some(target), Some(id), TransferFlow, Some(id), TransferOut, Confirmed, amount,
          date),
        Transaction(id + 2, target, Some(source), Some(id), TransferFlow, Some(id), TransferIn, Confirmed, credit,
          date)];
      if fee > 0 {
        legs := legs + [Transaction(id + 3, source, None, None, TransferFlow, Some(id), Expense, Confirmed, fee, date)];
      }
      transactions := transactions + legs;
      nextId := id + 4;
    }
  }
}
