/** The ledger as a state machine: manual transactions and their one-way lifecycle, two-phase
    reversals, transfers and the interest steps, interleaved in any order. */
module LedgerMachine {
  import opened Money
  import opened Options
  import opened Transactions
  import opened InterestRules
  import opened InterestTables

  datatype Account = Account(owner: Id, currency: string, isActive: bool, openedAt: nat)

  datatype TransferRecord = TransferRecord(
    id: Id, user: Id, fromAccount: Id, toAccount: Id, outTx: Id, inTx: Id, feeTx: Option<Id>,
    fromAmount: int, toAmount: int, fee: int)

  /** A reversal between its unlocked read and its locked commit. */
  datatype Reversal = Reversal(user: Id, tx: Id, amount: int)

  datatype Ledger = Ledger(
    tables: Tables, accounts: map<Id, Account>, transfers: seq<TransferRecord>, inFlight: seq<Reversal>)

  /** A rate as a decimal: `units` times ten to the minus `digits`. */
  datatype Rate = Rate(units: int, digits: nat)

  /** Creates and interest steps carry the account currency that was read before the lock was taken, which
      is checked again only by transfers. */
  datatype Event =
    | OpenAccount(id: Id, added: Account)
    | UpdateAccount(user: Id, id: Id, updated: Account)
    | Create(user: Id, account: Id, related: Option<Id>, kind: Kind, amount: int, currency: string, date: nat,
      today: nat)
    | Cancel(user: Id, tx: Id)
    | SoftDelete(user: Id, tx: Id)
    | ReadForReversal(user: Id, tx: Id)
    | CommitReversal(index: nat, date: nat)
    | AbandonReversal(index: nat)
    | Transfer(user: Id, source: Id, target: Id, fromCurrency: string, toCurrency: string,
               amount: int, fee: int, rate: Rate, date: nat)
    | AccrueInterest(user: Id, rule: Rule, currency: string, date: nat)
    | RecalculateInterest(user: Id, rule: Rule, currency: string, from: nat, to: nat)

  // ---- Reading and updating rows

  function Find(txs: seq<Transaction>, id: Id): (found: Option<Transaction>)
    ensures found.Some? ==> found.value in txs && found.value.id == id
    ensures found.None? ==> forall tx :: tx in txs ==> tx.id != id
  {
    if txs == [] then None
    else if txs[|txs| - 1].id == id then Some(txs[|txs| - 1])
    else Find(txs[..|txs| - 1], id)
  }

  function WithStatus(txs: seq<Transaction>, id: Id, status: Status): (r: seq<Transaction>)
    ensures |r| == |txs|
    ensures forall i :: 0 <= i < |txs| ==> r[i] == if txs[i].id == id then txs[i].(status := status) else txs[i]
  {
    if txs == [] then []
    else
      var n := |txs| - 1;
      WithStatus(txs[..n], id, status) + [if txs[n].id == id then txs[n].(status := status) else txs[n]]
  }

  predicate OwnedBy(s: Ledger, account: Id, user: Id) {
    account in s.accounts && s.accounts[account].owner == user
  }

  /** Rows a user may cancel, delete or reverse: manual, outside transfers, still confirmed. */
  predicate Manageable(tx: Transaction) {
    tx.source == Manual && tx.transfer.None? && tx.status == Confirmed
  }

  /** A row a user may still retire, locked by id. */
  function Locked(s: Ledger, user: Id, id: Id): Option<Transaction> {
    var found := Find(s.tables.txs, id);
    if found.Some? && OwnedBy(s, found.value.account, user) && Manageable(found.value) then found else None
  }

  function Insert(t: Tables, tx: Transaction): Tables {
    Tables(t.txs + [tx], t.accruals, t.nextId + 1)
  }

  // ---- Accounts

  predicate HasRows(txs: seq<Transaction>, account: Id) {
    exists i :: 0 <= i < |txs| && txs[i].account == account
  }

  /** The currency of an account is frozen by its first transaction. */
  predicate CanUpdate(s: Ledger, user: Id, id: Id, updated: Account) {
    OwnedBy(s, id, user) && (updated.currency == s.accounts[id].currency || !HasRows(s.tables.txs, id))
  }

  // ---- Creation

  predicate IsTransferKind(kind: Kind) {
    kind.TransferIn? || kind.TransferOut?
  }

  /** Amounts are whole minor units of the currency, non-zero and bounded; only adjustments may be
      negative. */
  predicate ValidAmount(kind: Kind, amount: int, currency: string) {
    && amount != 0 && -MAX_AMOUNT <= amount <= MAX_AMOUNT
    && amount % Pow10(18 - CurrencyScale(currency)) == 0
    && (kind != Adjustment ==> amount > 0)
  }

  predicate Usable(s: Ledger, account: Id, user: Id, date: nat) {
    OwnedBy(s, account, user) && s.accounts[account].isActive && s.accounts[account].openedAt <= date
  }

  predicate CanCreate(s: Ledger, e: Event)
    requires e.Create?
  {
    && Usable(s, e.account, e.user, e.date) && (e.related.Some? ==> Usable(s, e.related.value, e.user, e.date))
    && !IsTransferKind(e.kind) && ValidAmount(e.kind, e.amount, e.currency)
    && e.date <= e.today
  }

  // ---- Transfers

  function Credited(amount: int, rate: Rate, fromCurrency: string, toCurrency: string): int {
    if fromCurrency == toCurrency then amount
    else
      var unit := Pow10(18 - CurrencyScale(toCurrency));
      RoundHalfAway(amount * rate.units, Pow10(rate.digits) * unit) * unit
  }

  predicate CanTransfer(s: Ledger, e: Event)
    requires e.Transfer?
  {
    && e.source != e.target && e.amount > 0 && e.fee >= 0 && e.rate.units > 0
    && Usable(s, e.source, e.user, e.date) && Usable(s, e.target, e.user, e.date)
    && s.accounts[e.source].currency == e.fromCurrency && s.accounts[e.target].currency == e.toCurrency
    && ValidAmount(TransferOut, e.amount, e.fromCurrency)
    && ValidAmount(TransferIn, Credited(e.amount, e.rate, e.fromCurrency, e.toCurrency), e.toCurrency)
    && (e.fee > 0 ==> ValidAmount(Expense, e.fee, e.fromCurrency))
    && Balance(e.source, s.tables.txs) >= e.amount + e.fee
  }

  function OutLeg(e: Event, transfer: Id, id: Id): Transaction
    requires e.Transfer?
  {
    Transaction(id, e.source, Some(e.target), Some(transfer), TransferFlow, Some(transfer), TransferOut, Confirmed,
      e.amount, e.date)
  }

  function InLeg(e: Event, transfer: Id, id: Id): Transaction
    requires e.Transfer?
  {
    Transaction(id, e.target, Some(e.source), Some(transfer), TransferFlow, Some(transfer), TransferIn, Confirmed,
                Credited(e.amount, e.rate, e.fromCurrency, e.toCurrency), e.date)
  }

  function FeeLeg(e: Event, transfer: Id, id: Id): Transaction
    requires e.Transfer?
  {
    Transaction(id, e.source, None, None, TransferFlow, Some(transfer), Expense, Confirmed, e.fee, e.date)
  }

  /** Ids: the transfer record takes the first fresh id, its legs the next ones. */
  function Transferred(s: Ledger, e: Event): Ledger
    requires e.Transfer?
  {
    var n := s.tables.nextId;
    var legs := [OutLeg(e, n, n + 1), InLeg(e, n, n + 2)] + if e.fee > 0 then [FeeLeg(e, n, n + 3)] else [];
    var record := TransferRecord(n, e.user, e.source, e.target, n + 1, n + 2, if e.fee > 0 then Some(n + 3) else None,
                                 e.amount, Credited(e.amount, e.rate, e.fromCurrency, e.toCurrency), e.fee);
    s.(tables := Tables(s.tables.txs + legs, s.tables.accruals, n + 4), transfers := s.transfers + [record])
  }

  // ---- Reversals

  function Adjusting(before: Transaction, id: Id, amount: int, date: nat): Transaction {
    Transaction(id, before.account, before.related, None, ReconciliationAdjustment, Some(before.id), Adjustment,
      Confirmed, amount, date)
  }

  function MarkReversed(s: Ledger, r: Reversal, before: Transaction, date: nat): Ledger {
    var marked := WithStatus(s.tables.txs, before.id, Status.Reversed);
    s.(tables := Insert(s.tables.(txs := marked), Adjusting(before, s.tables.nextId, r.amount, date)))
  }

  function Retired(s: Ledger, id: Id, status: Status): Ledger {
    s.(tables := s.tables.(txs := WithStatus(s.tables.txs, id, status)))
  }

  /** One atomic step; a refused request changes nothing. */
  function Apply(s: Ledger, e: Event): Ledger {
    match e
    case OpenAccount(id, added) => if id in s.accounts then s else s.(accounts := s.accounts[id := added])
    case UpdateAccount(user, id, updated) =>
      if CanUpdate(s, user, id, updated) then s.(accounts := s.accounts[id := updated.(owner := user)]) else s
    case Create(user, account, related, kind, amount, _, date, _) =>
      if CanCreate(s, e)
      then s.(tables := Insert(s.tables, Transaction(s.tables.nextId, account, related, None, Manual, None, kind,
        Confirmed, amount, date)))
      else s
    case Cancel(user, tx) => if Locked(s, user, tx).Some? then Retired(s, tx, Cancelled) else s
    case SoftDelete(user, tx) => if Locked(s, user, tx).Some? then Retired(s, tx, SoftDeleted) else s
    case ReadForReversal(user, tx) =>
      var row := Locked(s, user, tx);
      if row.Some? then s.(inFlight := s.inFlight + [Reversal(user, tx, -Delta(row.value))]) else s
    case CommitReversal(i, date) =>
      if i < |s.inFlight| then
        var r := s.inFlight[i];
        var row := Locked(s, r.user, r.tx);
        var s' := s.(inFlight := s.inFlight[..i] + s.inFlight[i + 1..]);
        if row.Some? then MarkReversed(s', r, row.value, date) else s'
      else s
    case AbandonReversal(i) =>
      if i < |s.inFlight| then s.(inFlight := s.inFlight[..i] + s.inFlight[i + 1..]) else s
    case Transfer(_, _, _, _, _, _, _, _, _) => if CanTransfer(s, e) then Transferred(s, e) else s
    case AccrueInterest(user, rule, currency, date) =>
      if OwnedBy(s, rule.account, user) && s.accounts[rule.account].isActive
      then s.(tables := AccrueStep(s.tables, rule, currency, date)) else s
    case RecalculateInterest(user, rule, currency, from, to) =>
      if OwnedBy(s, rule.account, user) && s.accounts[rule.account].isActive
      then s.(tables := RecalculateStep(s.tables, rule, currency, from, to)) else s
  }

  const EMPTY := Ledger(Tables([], [], 0), map[], [], [])

  function Play(s: Ledger, events: seq<Event>): Ledger {
    if events == [] then s else Apply(Play(s, events[..|events| - 1]), events[|events| - 1])
  }
}
