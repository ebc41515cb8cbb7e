module Options {
  datatype Option<+T> = None | Some(value: T)
}

/** Rows of the ledger and the balance they add up to. */
module Transactions {
  import opened Options

  /** Row identifiers. Fresh UUIDs are drawn from a counter. */
  type Id = nat

  datatype Kind =
    | InitialBalance | Income | Expense | TransferIn | TransferOut | InterestIncome | Adjustment

  datatype Status = Pending | Confirmed | Cancelled | Reversed | SoftDeleted {
    predicate AffectsBalance() {
      Confirmed? || Reversed?
    }
  }

  datatype Source =
    | Manual | CsvImport | TransferFlow | DepositInterest | SavingsAllocation | Subscription
    | ReconciliationAdjustment | AutomationRule | LlmDraft | System

  datatype Transaction = Transaction(
    id: Id,
    account: Id,
    related: Option<Id>,
    transfer: Option<Id>,
    source: Source,
    sourceRef: Option<Id>,
    kind: Kind,
    status: Status,
    amount: int,
    occurredAt: nat)

  /** The signed effect of a transaction on its account. */
  function Delta(tx: Transaction): int {
    match tx.kind
    case InitialBalance | Income | TransferIn | InterestIncome | Adjustment => tx.amount
    case Expense | TransferOut => -tx.amount
  }

  /** What one row adds to an account. */
  function Effect(account: Id, tx: Transaction): int {
    if tx.account == account && tx.status.AffectsBalance() then Delta(tx) else 0
  }

  /** The balance of an account: the sum of the effects of all rows. */
  function Balance(account: Id, txs: seq<Transaction>): int {
    if txs == [] then 0 else Balance(account, txs[..|txs| - 1]) + Effect(account, txs[|txs| - 1])
  }

  lemma BalanceSnoc(account: Id, txs: seq<Transaction>, tx: Transaction)
    ensures Balance(account, txs + [tx]) == Balance(account, txs) + Effect(account, tx)
  {
    assert (txs + [tx])[..|txs|] == txs;
  }

  lemma {:induction false} BalanceConcat(account: Id, xs: seq<Transaction>, ys: seq<Transaction>)
    ensures Balance(account, xs + ys) == Balance(account, xs) + Balance(account, ys)
  {
    if ys == [] {
      assert xs + ys == xs;
    } else {
      var last := ys[|ys| - 1];
      BalanceConcat(account, xs, ys[..|ys| - 1]);
      assert xs + ys == (xs + ys[..|ys| - 1]) + [last];
      BalanceSnoc(account, xs + ys[..|ys| - 1], last);
    }
  }

  /** Balance does not depend on the order the rows are listed in. */
  lemma {:induction false} BalanceIgnoresOrder(account: Id, xs: seq<Transaction>, ys: seq<Transaction>)
    requires multiset(xs) == multiset(ys)
    ensures Balance(account, xs) == Balance(account, ys)
    decreases |xs|
  {
    if xs == [] {
      assert |ys| == |multiset(ys)| == 0;
    } else {
      var last := xs[|xs| - 1];
      assert last in multiset(xs);
      var i :| 0 <= i < |ys| && ys[i] == last;
      var rest := ys[..i] + ys[i + 1..];
      assert xs == xs[..|xs| - 1] + [last];
      assert ys == ys[..i] + [last] + ys[i + 1..];
      assert multiset(xs) == multiset(xs[..|xs| - 1]) + multiset{last};
      assert multiset(ys) == multiset(rest) + multiset{last};
      assert multiset(xs[..|xs| - 1]) == multiset(xs) - multiset{last};
      assert multiset(rest) == multiset(ys) - multiset{last};
      BalanceIgnoresOrder(account, xs[..|xs| - 1], rest);
      BalanceConcat(account, ys[..i] + [last], ys[i + 1..]);
      BalanceSnoc(account, ys[..i], last);
      BalanceConcat(account, ys[..i], ys[i + 1..]);
    }
  }

  /** The balance service's loop, with the number of rows it counted. */
  method CalculateBalance(account: Id, txs: seq<Transaction>) returns (balance: int, count: nat)
    ensures balance == Balance(account, txs)
    ensures count == |set i | 0 <= i < |txs| && txs[i].account == account && txs[i].status.AffectsBalance()|
  {
    hide Delta;
    balance, count := 0, 0;
    ghost var counted: set<int> := {};
    for i := 0 to |txs|
      invariant balance == Balance(account, txs[..i])
      invariant counted == set j | 0 <= j < i && txs[j].account == account && txs[j].status.AffectsBalance()
      invariant count == |counted|
    {
      assert txs[..i + 1] == txs[..i] + [txs[i]];
      BalanceSnoc(account, txs[..i], txs[i]);
      if txs[i].account == account && txs[i].status.AffectsBalance() {
        balance := balance + Delta(txs[i]);
        count := count + 1;
        counted := counted + {i};
      }
    }
    assert txs[..|txs|] == txs;
  }

  function UpToDate(txs: seq<Transaction>, date: nat): seq<Transaction> {
    if txs == [] then []
    else
      var rest := UpToDate(txs[..|txs| - 1], date);
      if txs[|txs| - 1].occurredAt <= date then rest + [txs[|txs| - 1]] else rest
  }

  lemma UpToDateSnoc(txs: seq<Transaction>, tx: Transaction, date: nat)
    ensures UpToDate(txs + [tx], date) ==
            if tx.occurredAt <= date then UpToDate(txs, date) + [tx] else UpToDate(txs, date)
  {
    assert (txs + [tx])[..|txs|] == txs;
  }

  method TransactionsUpToDate(txs: seq<Transaction>, date: nat) returns (filtered: seq<Transaction>)
    ensures filtered == UpToDate(txs, date)
  {
    filtered := [];
    for i := 0 to |txs|
      invariant filtered == UpToDate(txs[..i], date)
    {
      assert txs[..i + 1] == txs[..i] + [txs[i]];
      UpToDateSnoc(txs[..i], txs[i], date);
      if txs[i].occurredAt <= date {
        filtered := filtered + [txs[i]];
      }
    }
    assert txs[..|txs|] == txs;
  }

  /** The balance counting only rows dated on or before a day. */
  function BalanceOn(account: Id, txs: seq<Transaction>, day: nat): int {
    Balance(account, UpToDate(txs, day))
  }

  lemma BalanceOnSnoc(account: Id, txs: seq<Transaction>, tx: Transaction, day: nat)
    ensures BalanceOn(account, txs + [tx], day) ==
            BalanceOn(account, txs, day) + if tx.occurredAt <= day then Effect(account, tx) else 0
  {
    UpToDateSnoc(txs, tx, day);
    BalanceSnoc(account, UpToDate(txs, day), tx);
  }

  lemma {:induction false} BalanceOnConcat(account: Id, xs: seq<Transaction>, ys: seq<Transaction>, day: nat)
    ensures BalanceOn(account, xs + ys, day) == BalanceOn(account, xs, day) + BalanceOn(account, ys, day)
  {
    if ys == [] {
      assert xs + ys == xs;
    } else {
      var last := ys[|ys| - 1];
      BalanceOnConcat(account, xs, ys[..|ys| - 1], day);
      assert xs + ys == (xs + ys[..|ys| - 1]) + [last];
      BalanceOnSnoc(account, xs + ys[..|ys| - 1], last, day);
      assert ys == ys[..|ys| - 1] + [last];
      BalanceOnSnoc(account, ys[..|ys| - 1], last, day);
    }
  }
}
