/** What each ledger step does to balances, rows and dates, stated without the fold that defines them. */
module LedgerEffects {
  import opened Money
  import opened Options
  import opened Transactions
  import opened InterestRules
  import opened InterestSchedule
  import opened BatchRecalculation
  import opened Recalculation
  import opened InterestEngine
  import opened LinkedTables
  import opened InterestTables
  import opened LedgerMachine
  import opened LedgerInvariants
  import opened LedgerTheorems

  // ---- A balance is credits less debits

  function Sum(txs: seq<Transaction>, account: Id, kinds: set<Kind>): int {
    if txs == [] then 0
    else
      var tx := txs[|txs| - 1];
      Sum(txs[..|txs| - 1], account, kinds) +
      if tx.account == account && tx.status in {Confirmed, Status.Reversed} && tx.kind in kinds then tx.amount else 0
  }

  /** Confirmed and reversed rows count: opening balances, incomes, incoming transfers, interest and
      adjustments for the account; expenses and outgoing transfers against it. */
  lemma {:induction false} BalanceIsCreditsLessDebits(account: Id, txs: seq<Transaction>)
    ensures Balance(account, txs) ==
            Sum(txs, account, {InitialBalance, Income, TransferIn, InterestIncome, Adjustment})
            - Sum(txs, account, {Expense, TransferOut})
  {
    if txs != [] {
      BalanceIsCreditsLessDebits(account, txs[..|txs| - 1]);
    }
  }

  // ---- Creates

  function SignedAmount(kind: Kind, amount: int): int {
    if kind in {Expense, TransferOut} then -amount else amount
  }

  /** A committed create moves the balance of its own account, from its own date on, by the amount, down for
      an expense and up for anything else; and no other balance. */
  lemma CreateMovesBalance(s: Ledger, e: Event, account: Id, day: nat)
    requires e.Create? && CanCreate(s, e)
    ensures var moved := if account == e.account then SignedAmount(e.kind, e.amount) else 0;
            var before, after := s.tables.txs, Apply(s, e).tables.txs;
            && Balance(account, after) == Balance(account, before) + moved
            && BalanceOn(account, after, day) == BalanceOn(account, before, day) + if e.date <= day then moved else 0
  {
    hide Balance, BalanceOn, CanCreate;
    var n := s.tables.nextId;
    var tx := Transaction(n, e.account, e.related, None, Manual, None, e.kind, Confirmed, e.amount, e.date);
    BalanceSnoc(account, s.tables.txs, tx);
    BalanceOnSnoc(account, s.tables.txs, tx, day);
  }

  /** What a committed create has been checked for; everything else is refused and changes nothing. */
  lemma CreateExactly(s: Ledger, e: Event)
    requires e.Create?
    ensures var unit := Pow10(18 - CurrencyScale(e.currency));
            Apply(s, e) != s <==>
              && e.account in s.accounts && s.accounts[e.account].owner == e.user && s.accounts[e.account].isActive
              && s.accounts[e.account].openedAt <= e.date <= e.today
              && (e.related.Some? ==>
                    && e.related.value in s.accounts && s.accounts[e.related.value].owner == e.user
                    && s.accounts[e.related.value].isActive && s.accounts[e.related.value].openedAt <= e.date)
              && e.kind !in {TransferIn, TransferOut}
              && e.amount % unit == 0 && e.amount != 0 && -MAX_AMOUNT <= e.amount <= MAX_AMOUNT
              && (e.amount < 0 ==> e.kind == Adjustment)
  {
    hide Pow10, CurrencyScale;
    assert CanCreate(s, e) ==> |Apply(s, e).tables.txs| == |s.tables.txs| + 1;
  }

  // ---- Retiring

  /** A confirmed manual row outside transfers, asked for by the owner of its account, is marked as asked;
      every other row stays as it is. */
  lemma RetiringMarks(s: Ledger, user: Id, row: Transaction, i: nat)
    requires Kept(s) && row in s.tables.txs && i < |s.tables.txs|
    requires row.source == Manual && row.transfer.None? && row.status == Confirmed
    requires row.account in s.accounts && s.accounts[row.account].owner == user
    ensures var tx := s.tables.txs[i];
            var cancelled, deleted := Apply(s, Cancel(user, row.id)).tables.txs,
              Apply(s, SoftDelete(user, row.id)).tables.txs;
            && |cancelled| == |deleted| == |s.tables.txs|
            && cancelled[i] == (if tx == row then row.(status := Cancelled) else tx)
            && deleted[i] == if tx == row then row.(status := SoftDeleted) else tx
  {
    hide CoreKept, OnePerDay, BelowId, Paired, InterestRows;
    if s.tables.txs[i].id == row.id {
      SameRow(s.tables.txs, s.tables.txs[i], row);
    }
    FoundRow(s.tables.txs, row);
  }

  lemma FoundRow(txs: seq<Transaction>, row: Transaction)
    requires UniqueIds(txs) && row in txs
    ensures Find(txs, row.id) == Some(row)
  {
    hide UniqueIds;
    var found := Find(txs, row.id);
    assert found.Some?;
    SameRow(txs, found.value, row);
  }

  /** The same row read for reversal and then committed: it is marked, and one adjustment of the opposite
      effect, dated when the reversal was made, takes it out of the balance from that day on. */
  lemma ReversalMovesBalance(s: Ledger, user: Id, row: Transaction, date: nat, account: Id, day: nat)
    requires Kept(s) && row in s.tables.txs
    requires row.source == Manual && row.transfer.None? && row.status == Confirmed
    requires row.account in s.accounts && s.accounts[row.account].owner == user
    ensures var read := Apply(s, ReadForReversal(user, row.id));
            var after := Apply(read, CommitReversal(|s.inFlight|, date));
            && read.tables == s.tables && |read.inFlight| == |s.inFlight| + 1
            && row.(status := Status.Reversed) in after.tables.txs
            && BalanceOn(account, after.tables.txs, day) ==
               BalanceOn(account, s.tables.txs, day)
               - if account == row.account && date <= day then SignedAmount(row.kind, row.amount) else 0
  {
    hide CoreKept, OnePerDay, BelowId, Paired, InterestRows, BalanceOn, WithStatus;
    FoundRow(s.tables.txs, row);
    var read := Apply(s, ReadForReversal(user, row.id));
    var r := Reversal(user, row.id, -Delta(row));
    assert read.inFlight[|s.inFlight|] == r;
    var marked := WithStatus(s.tables.txs, row.id, Status.Reversed);
    MarkedRow(s.tables.txs, row, Status.Reversed);
    MarkedBalance(s.tables.txs, row, account, day);
    BalanceOnSnoc(account, marked, Adjusting(row, s.tables.nextId, r.amount, date), day);
  }

  lemma MarkedRow(txs: seq<Transaction>, row: Transaction, status: Status)
    requires row in txs
    ensures row.(status := status) in WithStatus(txs, row.id, status)
  {
    var i :| 0 <= i < |txs| && txs[i] == row;
    assert WithStatus(txs, row.id, status)[i] == row.(status := status);
  }

  /** Marking a confirmed row as reversed moves no balance. */
  lemma {:induction false} MarkedBalance(txs: seq<Transaction>, row: Transaction, account: Id, day: nat)
    requires forall i :: 0 <= i < |txs| && txs[i].id == row.id ==> txs[i].status == Confirmed
    ensures BalanceOn(account, WithStatus(txs, row.id, Status.Reversed), day) == BalanceOn(account, txs, day)
  {
    hide BalanceOn;
    var marked := WithStatus(txs, row.id, Status.Reversed);
    if txs == [] {
      assert marked == txs;
    } else {
      var n := |txs| - 1;
      MarkedBalance(txs[..n], row, account, day);
      assert txs == txs[..n] + [txs[n]];
      assert marked == WithStatus(txs[..n], row.id, Status.Reversed) + [marked[n]];
      BalanceOnSnoc(account, txs[..n], txs[n], day);
      BalanceOnSnoc(account, WithStatus(txs[..n], row.id, Status.Reversed), marked[n], day);
    }
  }

  // ---- Transfers

  /** From the day of a committed transfer on, the source is down by amount and fee and the target up by the
      credit; before that day no balance moves. */
  lemma TransferMovesBalances(s: Ledger, e: Event, account: Id, day: nat)
    requires e.Transfer? && CanTransfer(s, e)
    ensures var moved := (if account == e.source then -e.amount - e.fee else 0)
                         + (if account == e.target then Credited(e.amount, e.rate, e.fromCurrency, e.toCurrency)
                           else 0);
            BalanceOn(account, Apply(s, e).tables.txs, day) ==
            BalanceOn(account, s.tables.txs, day) + if e.date <= day then moved else 0
  {
    hide Credited, BalanceOn, ValidAmount, Usable;
    var n, txs := s.tables.nextId, s.tables.txs;
    var o, i, f := OutLeg(e, n, n + 1), InLeg(e, n, n + 2), FeeLeg(e, n, n + 3);
    BalanceOnSnoc(account, txs, o, day);
    BalanceOnSnoc(account, txs + [o], i, day);
    BalanceOnSnoc(account, txs + [o] + [i], f, day);
    if e.fee > 0 {
      assert Transferred(s, e).tables.txs == txs + [o] + [i] + [f];
    } else {
      assert Transferred(s, e).tables.txs == txs + [o] + [i];
    }
  }

  /** It leaves one record that says who moved what, and names the legs. */
  lemma TransferIsRecorded(s: Ledger, e: Event)
    requires e.Transfer? && CanTransfer(s, e)
    ensures var after := Apply(s, e);
            && |after.transfers| == |s.transfers| + 1 && after.transfers[..|s.transfers|] == s.transfers
            && var t, n := after.transfers[|s.transfers|], |s.tables.txs|;
               && t.user == e.user && t.fromAccount == e.source && t.toAccount == e.target
               && t.fromAmount == e.amount && t.fee == e.fee
               && t.toAmount == Credited(e.amount, e.rate, e.fromCurrency, e.toCurrency)
               && |after.tables.txs| == n + (if e.fee > 0 then 3 else 2)
               && after.tables.txs[n].id == t.outTx && after.tables.txs[n + 1].id == t.inTx
               && (if e.fee > 0 then t.feeTx == Some(after.tables.txs[n + 2].id) else t.feeTx == None)
  {
    hide Credited, Balance, ValidAmount, Usable;
  }

  /** A transfer is made exactly when its form is right, both accounts are the user's, in use and still in the
      currencies read, and the source can pay amount and fee, if only just. */
  lemma TransferExactly(s: Ledger, e: Event)
    requires e.Transfer?
    ensures var credit := Credited(e.amount, e.rate, e.fromCurrency, e.toCurrency);
            Apply(s, e) != s <==>
              && e.source != e.target && e.amount > 0 && e.fee >= 0 && e.rate.units > 0
              && OpenFor(s, e.source, e.user, e.fromCurrency, e.date)
                && OpenFor(s, e.target, e.user, e.toCurrency, e.date)
              && WholeAmount(e.amount, e.fromCurrency) && WholeAmount(credit, e.toCurrency) && credit > 0
              && WholeAmount(e.fee, e.fromCurrency)
              && e.amount + e.fee <= Balance(e.source, s.tables.txs)
  {
    hide Credited, Balance, CurrencyScale, Pow10;
    assert CanTransfer(s, e) ==> |Apply(s, e).transfers| == |s.transfers| + 1;
  }

  predicate OpenFor(s: Ledger, account: Id, user: Id, currency: string, date: nat) {
    && account in s.accounts && s.accounts[account].owner == user && s.accounts[account].isActive
    && s.accounts[account].currency == currency && s.accounts[account].openedAt <= date
  }

  predicate WholeAmount(amount: int, currency: string) {
    0 <= amount <= MAX_AMOUNT && amount % Pow10(18 - CurrencyScale(currency)) == 0
  }

  // ---- Every row is one that could be created

  predicate SoundRow(tx: Transaction) {
    && tx.amount != 0 && -MAX_AMOUNT <= tx.amount <= MAX_AMOUNT && (tx.amount < 0 ==> tx.kind == Adjustment)
    && (tx.transfer.Some? <==> tx.kind in {TransferIn, TransferOut})
  }

  ghost predicate SoundRows(txs: seq<Transaction>) {
    forall tx :: tx in txs ==> SoundRow(tx)
  }

  lemma StatusKeepsSound(txs: seq<Transaction>, id: Id, status: Status)
    requires SoundRows(txs)
    ensures SoundRows(WithStatus(txs, id, status))
  {
    var marked := WithStatus(txs, id, status);
    forall tx | tx in marked ensures SoundRow(tx) {
      var i :| 0 <= i < |marked| && marked[i] == tx;
      assert SoundRow(txs[i]);
    }
  }

  lemma AccrualKeepsSound(t: Tables, rule: Rule, currency: string, date: nat)
    requires SoundRows(t.txs)
    ensures SoundRows(AccrueStep(t, rule, currency, date).txs)
  {
    hide AccountRows, AccountAccruals, PrincipalOn, UpToDate, Balance, HasAccrual, ShouldPost, ActiveOn, AccrualAmount;
  }

  lemma {:induction false} PayoutsKeepSound(t: Tables, rule: Rule, out: seq<Posting>)
    requires SoundRows(t.txs) && forall i :: 0 <= i < |out| ==> 0 < out[i].amount <= MAX_AMOUNT
    ensures SoundRows(WithPayouts(t, rule, out).txs)
  {
    if out != [] {
      PayoutsKeepSound(t, rule, out[..|out| - 1]);
    }
  }

  lemma {:induction false} ClearingKeepsSound(txs: seq<Transaction>, ids: set<Id>)
    requires SoundRows(txs)
    ensures SoundRows(WithoutInterest(txs, ids))
  {
    if txs != [] {
      ClearingKeepsSound(txs[..|txs| - 1], ids);
    }
  }

  lemma RecalculationKeepsSound(t: Tables, rule: Rule, currency: string, from: nat, to: nat)
    requires Consistent(t) && SoundRows(t.txs)
    ensures SoundRows(RecalculateStep(t, rule, currency, from, to).txs)
  {
    hide Consistent, RecalculateStep, SoundRows, Recalculated, Outside, WithPayouts, WithoutInterest, AccrualPostings,
      AccountRows, AccountAccruals, BaseRows, Flows, CurrencyScale, ShouldPost;
    if rule.annualRateBps > 0 && from <= to {
      RecalculateStepIsReplacement(t, rule, currency, from, to);
      var book, prior := TableBook(t, rule, CurrencyScale(currency)), Outside(Postings(t, rule), from, to);
      RecalculationStaysInRange(book, prior, from, to);
      ClearingKeepsSound(t.txs, ReplacedIds(t.accruals, rule, from, to));
      if AllInBounds(Recalculated(book, prior, from, to).out) {
        PayoutsKeepSound(Cleared(t, rule, from, to), rule, Recalculated(book, prior, from, to).out);
      }
    } else {
      RefusedRecalculation(t, rule, currency, from, to);
    }
  }

  lemma ReversalKeepsSound(s: Ledger, i: nat, date: nat)
    requires Kept(s) && SoundRows(s.tables.txs)
    ensures SoundRows(Apply(s, CommitReversal(i, date)).tables.txs)
  {
    hide Core, CoreKept, Locked, Consistent, WithStatus;
    if i < |s.inFlight| && Locked(s, s.inFlight[i].user, s.inFlight[i].tx).Some? {
      var r := s.inFlight[i];
      LockedRow(s, r.user, r.tx);
      var row := Locked(s, r.user, r.tx).value;
      AdjustmentReverses(s, r, row, date);
      StatusKeepsSound(s.tables.txs, row.id, Status.Reversed);
      assert SoundRow(row);
    }
  }

  lemma StepKeepsSound(s: Ledger, e: Event)
    requires Kept(s) && SoundRows(s.tables.txs)
    ensures SoundRows(Apply(s, e).tables.txs)
  {
    hide CoreKept, Consistent, Locked, WithStatus, AccrueStep, RecalculateStep, CurrencyScale, Pow10, Credited, Balance,
      Usable, CanUpdate;
    match e
    case Cancel(user, tx) => StatusKeepsSound(s.tables.txs, tx, Cancelled);
    case SoftDelete(user, tx) => StatusKeepsSound(s.tables.txs, tx, SoftDeleted);
    case CommitReversal(i, date) => ReversalKeepsSound(s, i, date);
    case AccrueInterest(user, rule, currency, date) => AccrualKeepsSound(s.tables, rule, currency, date);
    case RecalculateInterest(user, rule, currency, from, to) =>
      RecalculationKeepsSound(s.tables, rule, currency, from, to);
    case _ =>
  }

  /** In every reachable ledger every row is non-zero and in bounds, only adjustments are negative, and only
      the two legs of a transfer have a transfer kind. */
  lemma {:induction false} EveryRowIsSound(events: seq<Event>)
    ensures SoundRows(Play(EMPTY, events).tables.txs)
  {
    hide SoundRows, Kept, Apply;
    if events == [] {
      NoRowsAreSound();
    } else {
      var n := |events| - 1;
      EveryRowIsSound(events[..n]);
      EveryRunKeeps(events[..n]);
      StepKeepsSound(Play(EMPTY, events[..n]), events[n]);
    }
  }

  lemma NoRowsAreSound()
    ensures SoundRows(EMPTY.tables.txs)
  {
  }
}
