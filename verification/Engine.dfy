/** The interest engine: how payouts are computed from transaction and accrual rows. */
module InterestEngine {
  import opened Money
  import opened Options
  import opened Transactions
  import opened InterestRules
  import opened InterestSchedule
  import opened IncrementalAccrual
  import opened BatchRecalculation

  /** An accrual row. Its recorded balance and rate are not modelled. */
  datatype Accrual = Accrual(id: Id, account: Id, rule: Id, transaction: Id, date: nat, amount: int)

  datatype EngineError =
    | RuleInactive | RateNotPositive | NotActiveOnDate | NotPayableOnDate | EmptyPeriodError
    | BalanceNotPositive | ZeroInterest | AmountOutOfBounds | RangeReversed

  predicate Owns(rule: Rule, accrual: Accrual) {
    accrual.account == rule.account && accrual.rule == rule.id
  }

  // ---- Filters over the two tables

  function WithoutIds(txs: seq<Transaction>, ids: set<Id>): seq<Transaction> {
    if txs == [] then []
    else
      var n := |txs| - 1;
      if txs[n].id in ids then WithoutIds(txs[..n], ids) else WithoutIds(txs[..n], ids) + [txs[n]]
  }

  function CapitalizedIds(accruals: seq<Accrual>, rule: Rule, asOf: nat): set<Id> {
    set i | 0 <= i < |accruals| && Owns(rule, accruals[i]) && CapitalizedBefore(rule, accruals[i].date, asOf)
      :: accruals[i].transaction
  }

  function UncapitalizedIds(accruals: seq<Accrual>, rule: Rule, asOf: nat): set<Id> {
    set i | 0 <= i < |accruals| && Owns(rule, accruals[i]) && !CapitalizedBefore(rule, accruals[i].date, asOf)
      :: accruals[i].transaction
  }

  function ReplacedIds(accruals: seq<Accrual>, rule: Rule, from: nat, to: nat): set<Id> {
    set i | 0 <= i < |accruals| && Owns(rule, accruals[i]) && from <= accruals[i].date <= to
      :: accruals[i].transaction
  }

  /** The transactions that count as principal of the rule on a date. */
  function PrincipalOn(txs: seq<Transaction>, accruals: seq<Accrual>, rule: Rule, asOf: nat): seq<Transaction> {
    WithoutIds(txs, UncapitalizedIds(accruals, rule, asOf) - CapitalizedIds(accruals, rule, asOf))
  }

  method PrincipalTransactionsForRuleAt(txs: seq<Transaction>, accruals: seq<Accrual>, rule: Rule, asOf: nat)
    returns (filtered: seq<Transaction>)
    ensures filtered == PrincipalOn(txs, accruals, rule, asOf)
  {
    hide CapitalizedBefore;
    var capitalized: set<Id>, uncapitalized: set<Id> := {}, {};
    for i := 0 to |accruals|
      invariant capitalized == CapitalizedIds(accruals[..i], rule, asOf)
      invariant uncapitalized == UncapitalizedIds(accruals[..i], rule, asOf)
    {
      assert accruals[..i + 1] == accruals[..i] + [accruals[i]];
      IdsSnoc(accruals[..i], accruals[i], rule, asOf);
      if Owns(rule, accruals[i]) {
        if CapitalizedBefore(rule, accruals[i].date, asOf) {
          capitalized := capitalized + {accruals[i].transaction};
        } else {
          uncapitalized := uncapitalized + {accruals[i].transaction};
        }
      }
    }
    assert accruals[..|accruals|] == accruals;
    filtered := [];
    for i := 0 to |txs|
      invariant filtered == WithoutIds(txs[..i], uncapitalized - capitalized)
    {
      assert txs[..i + 1][..i] == txs[..i];
      if txs[i].id in capitalized {
        filtered := filtered + [txs[i]];
      } else if txs[i].id !in uncapitalized {
        filtered := filtered + [txs[i]];
      }
    }
    assert txs[..|txs|] == txs;
  }

  lemma IdsSnoc(accruals: seq<Accrual>, a: Accrual, rule: Rule, asOf: nat)
    ensures CapitalizedIds(accruals + [a], rule, asOf) == CapitalizedIds(accruals, rule, asOf) +
            if Owns(rule, a) && CapitalizedBefore(rule, a.date, asOf) then {a.transaction} else {}
    ensures UncapitalizedIds(accruals + [a], rule, asOf) == UncapitalizedIds(accruals, rule, asOf) +
            if Owns(rule, a) && !CapitalizedBefore(rule, a.date, asOf) then {a.transaction} else {}
  {
    hide CapitalizedBefore;
    var all := accruals + [a];
    assert all[|accruals|] == a;
    assert forall i :: 0 <= i < |accruals| ==> all[i] == accruals[i];
  }

  method ExcludeAccrualTransactions(txs: seq<Transaction>, accruals: seq<Accrual>, rule: Rule, from: nat, to: nat)
    returns (filtered: seq<Transaction>)
    ensures filtered == WithoutIds(txs, ReplacedIds(accruals, rule, from, to))
  {
    var replaced: set<Id> := {};
    for i := 0 to |accruals|
      invariant replaced == ReplacedIds(accruals[..i], rule, from, to)
    {
      var before, after := accruals[..i], accruals[..i + 1];
      assert after[i] == accruals[i] && forall j :: 0 <= j < i ==> after[j] == before[j];
      if Owns(rule, accruals[i]) && from <= accruals[i].date <= to {
        replaced := replaced + {accruals[i].transaction};
      }
    }
    assert accruals[..|accruals|] == accruals;
    filtered := [];
    for i := 0 to |txs|
      invariant filtered == WithoutIds(txs[..i], replaced)
    {
      assert txs[..i + 1][..i] == txs[..i];
      if txs[i].id !in replaced {
        filtered := filtered + [txs[i]];
      }
    }
    assert txs[..|txs|] == txs;
  }

  function ById(txs: seq<Transaction>): map<Id, Transaction> {
    if txs == [] then map[] else ById(txs[..|txs| - 1])[txs[|txs| - 1].id := txs[|txs| - 1]]
  }

  predicate AwaitsCapitalization(rule: Rule, a: Accrual, from: nat, to: nat) {
    Owns(rule, a) && IsWaiting(rule, Posting(a.date, a.amount), from, to)
  }

  function PendingRows(byId: map<Id, Transaction>, accruals: seq<Accrual>, rule: Rule, from: nat,
      to: nat): seq<Transaction> {
    if accruals == [] then []
    else
      var n := |accruals| - 1;
      var rest := PendingRows(byId, accruals[..n], rule, from, to);
      if AwaitsCapitalization(rule, accruals[n], from, to) && accruals[n].transaction in byId
      then rest + [byId[accruals[n].transaction]] else rest
  }

  /** Earlier accrual transactions that capitalize inside the calculated range. */
  function PendingCapitalization(txs: seq<Transaction>, accruals: seq<Accrual>, rule: Rule, from: nat,
      to: nat): seq<Transaction> {
    if rule.capitalization in {NoCapitalization, CapitalizeDaily} then []
    else PendingRows(ById(txs), accruals, rule, from, to)
  }

  method PendingCapitalizationTransactionsBefore(
      txs: seq<Transaction>, accruals: seq<Accrual>, rule: Rule, from: nat, to: nat) returns (pending: seq<Transaction>)
    ensures pending == PendingCapitalization(txs, accruals, rule, from, to)
  {
    hide CapitalizationDate;
    pending := [];
    if rule.capitalization in {NoCapitalization, CapitalizeDaily} {
      return;
    }
    var byId: map<Id, Transaction> := map[];
    for i := 0 to |txs|
      invariant byId == ById(txs[..i])
    {
      assert txs[..i + 1][..i] == txs[..i];
      byId := byId[txs[i].id := txs[i]];
    }
    assert txs[..|txs|] == txs;
    for i := 0 to |accruals|
      invariant pending == PendingRows(byId, accruals[..i], rule, from, to)
    {
      var a := accruals[i];
      assert accruals[..i + 1][..i] == accruals[..i];
      if !Owns(rule, a) || from <= a.date {
        continue;
      }
      var c := CapitalizationDate(rule, a.date);
      if c.None? || c.value < from || to < c.value {
        continue;
      }
      if a.transaction in byId {
        pending := pending + [byId[a.transaction]];
      }
    }
    assert accruals[..|accruals|] == accruals;
  }

  // ---- Period starts

  /** The rule's payouts as its accrual rows record them. */
  function AccrualPostings(accruals: seq<Accrual>, rule: Rule): seq<Posting> {
    if accruals == [] then []
    else
      var n := |accruals| - 1;
      var rest := AccrualPostings(accruals[..n], rule);
      if Owns(rule, accruals[n]) then rest + [Posting(accruals[n].date, accruals[n].amount)] else rest
  }

  method NextAccrualPeriodStart(rule: Rule, accruals: seq<Accrual>, date: nat) returns (start: nat)
    ensures start == NextPeriodStart(rule, AccrualPostings(accruals, rule), date)
  {
    if rule.accrual == AccrueDaily {
      return date;
    }
    start := rule.startDate;
    for i := 0 to |accruals|
      invariant start == LatestStart(rule.startDate, AccrualPostings(accruals[..i], rule), date)
    {
      assert accruals[..i + 1][..i] == accruals[..i];
      var a := accruals[i];
      if !Owns(rule, a) {
        continue;
      }
      assert (AccrualPostings(accruals[..i], rule) +
        [Posting(a.date, a.amount)])[..|AccrualPostings(accruals[..i], rule)|]
          == AccrualPostings(accruals[..i], rule);
      if a.date < date && start <= a.date {
        start := a.date + 1;
      }
    }
    assert accruals[..|accruals|] == accruals;
  }

  method RecalculationStartDate(rule: Rule, from: nat, to: nat) returns (start: nat)
    ensures start == StartOfCalculation(rule, from, to)
  {
    hide ShouldPost, PeriodStart;
    if rule.accrual == AccrueDaily {
      return from;
    }
    var day := from;
    while day <= to
      invariant from <= day
      invariant FirstPayoutStart(rule, from, from, to) == FirstPayoutStart(rule, from, day, to)
      decreases 1 + to - day
    {
      if ShouldPost(rule, day) {
        return MinDate(from, PeriodStart(rule, day));
      }
      day := day + 1;
    }
    return from;
  }

  predicate HasAccrual(accruals: seq<Accrual>, rule: Rule, date: nat) {
    exists i :: 0 <= i < |accruals| && Owns(rule, accruals[i]) && accruals[i].date == date
  }

  method HasInterestAccrual(accruals: seq<Accrual>, rule: Rule, date: nat) returns (found: bool)
    ensures found == HasAccrual(accruals, rule, date)
  {
    for i := 0 to |accruals|
      invariant forall j :: 0 <= j < i ==> !(Owns(rule, accruals[j]) && accruals[j].date == date)
    {
      if Owns(rule, accruals[i]) && accruals[i].date == date {
        return true;
      }
    }
    return false;
  }

  // ---- One accrual

  /** A day's interest before any check of its sign. */
  function RawInterest(rule: Rule, scale: nat, balance: int, day: nat): int
    requires scale <= 6
  {
    if !ActiveOn(rule, day) || balance <= 0 then 0
    else DailyInterestAmount(balance, EffectiveRateBps(rule, day), DaysInYear(rule.dayCount, day), scale)
  }

  /** Interest of the days from `from` up to but excluding `until` on the balance of given rows. */
  function EarnedOn(rule: Rule, scale: nat, txs: seq<Transaction>, from: nat, until: nat): int
    requires scale <= 6
    decreases until
  {
    if until <= from then 0
    else EarnedOn(rule, scale, txs, from, until - 1) +
         RawInterest(rule, scale, BalanceOn(rule.account, txs, until - 1), until - 1)
  }

  /** The same on a balance that does not move. */
  function EarnedOnBalance(rule: Rule, scale: nat, balance: int, from: nat, until: nat): int
    requires scale <= 6
    decreases until
  {
    if until <= from then 0
    else EarnedOnBalance(rule, scale, balance, from, until - 1) + RawInterest(rule, scale, balance, until - 1)
  }

  datatype Amount = Computed(value: int) | Rejected(error: EngineError)

  function AccrualAmount(rule: Rule, scale: nat, txs: seq<Transaction>, balance: int, from: nat, to: nat): Amount
    requires scale <= 6
  {
    if to < from then Rejected(EmptyPeriodError)
    else if txs == [] then
      if balance <= 0 then Rejected(BalanceNotPositive)
      else Computed(EarnedOnBalance(rule, scale, balance, from, to + 1))
    else Computed(EarnedOn(rule, scale, txs, from, to + 1))
  }

  method CalculateAccrualAmount(rule: Rule, scale: nat, txs: seq<Transaction>, balance: int, from: nat, to: nat)
    returns (amount: Amount)
    requires scale <= 6
    ensures amount == AccrualAmount(rule, scale, txs, balance, from, to)
  {
    hide DailyInterestAmount, ActiveOn, EffectiveRateBps, DaysInYear, BalanceOn;
    if to < from {
      return Rejected(EmptyPeriodError);
    }
    var total := 0;
    if |txs| == 0 {
      if balance <= 0 {
        return Rejected(BalanceNotPositive);
      }
      for day := from to to + 1
        invariant total == EarnedOnBalance(rule, scale, balance, from, day)
      {
        if ActiveOn(rule, day) {
          total := total + DailyInterestAmount(balance, EffectiveRateBps(rule, day), DaysInYear(rule.dayCount, day),
            scale);
        }
      }
      return Computed(total);
    }
    for day := from to to + 1
      invariant total == EarnedOn(rule, scale, txs, from, day)
    {
      if !ActiveOn(rule, day) {
        continue;
      }
      var upTo := TransactionsUpToDate(txs, day);
      var dayBalance, _ := CalculateBalance(rule.account, upTo);
      assert dayBalance == BalanceOn(rule.account, txs, day) by { BalanceOnIsFold(rule.account, txs, day); }
      if dayBalance <= 0 {
        continue;
      }
      total := total + DailyInterestAmount(dayBalance, EffectiveRateBps(rule, day), DaysInYear(rule.dayCount, day),
        scale);
    }
    return Computed(total);
  }

  lemma BalanceOnIsFold(account: Id, txs: seq<Transaction>, day: nat)
    ensures BalanceOn(account, txs, day) == Balance(account, UpToDate(txs, day))
  {
  }

  datatype AccrueOutcome =
    | AccrueFailed(error: EngineError)
    | AccrueSkipped
    | Accrued(transaction: Transaction, accrual: Accrual)

  /** The income transaction of a payout. */
  function InterestTransaction(rule: Rule, p: Posting, id: Id, accrualId: Id): Transaction {
    Transaction(id, rule.account, None, None, DepositInterest, Some(accrualId), InterestIncome, Confirmed, p.amount,
      p.date)
  }

  function InterestAccrual(rule: Rule, p: Posting, id: Id, transactionId: Id): Accrual {
    Accrual(id, rule.account, rule.id, transactionId, p.date, p.amount)
  }

  /** One accrual attempt on the given rows, fresh ids starting at `nextId`. */
  function AccrueOnce(rule: Rule, currency: string, balance: int, date: nat,
                      txs: seq<Transaction>, accruals: seq<Accrual>, nextId: Id): AccrueOutcome {
    if !rule.isActive then AccrueFailed(RuleInactive)
    else if rule.annualRateBps <= 0 then AccrueFailed(RateNotPositive)
    else if !ActiveOn(rule, date) then AccrueFailed(NotActiveOnDate)
    else if !ShouldPost(rule, date) then AccrueFailed(NotPayableOnDate)
    else if HasAccrual(accruals, rule, date) then AccrueSkipped
    else
      var start := NextPeriodStart(rule, AccrualPostings(accruals, rule), date);
      var amount := AccrualAmount(rule, CurrencyScale(currency), PrincipalOn(txs, accruals, rule, date), balance,
        start, date);
      if amount.Rejected? then AccrueFailed(amount.error)
      else if amount.value <= 0 then AccrueFailed(ZeroInterest)
      else if amount.value > MAX_AMOUNT then AccrueFailed(AmountOutOfBounds)
      else
        var p := Posting(date, amount.value);
        Accrued(InterestTransaction(rule, p, nextId, nextId + 1), InterestAccrual(rule, p, nextId + 1, nextId))
  }

  /** Which refusal comes first: the rule itself, then the day, then an accrual that is already there, and
      only then anything about the money. */
  lemma RefusalsInOrder(rule: Rule, currency: string, balance: int, date: nat,
                        txs: seq<Transaction>, accruals: seq<Accrual>, nextId: Id)
    ensures var r := AccrueOnce(rule, currency, balance, date, txs, accruals, nextId);
            && (r == AccrueFailed(RuleInactive) <==> !rule.isActive)
            && (r == AccrueFailed(RateNotPositive) <==> rule.isActive && rule.annualRateBps <= 0)
            && (r == AccrueFailed(NotActiveOnDate) <==>
                  rule.isActive && rule.annualRateBps > 0
                  && (date < rule.startDate || (rule.endDate.Some? && rule.endDate.value < date)))
            && (r == AccrueFailed(NotPayableOnDate) <==>
                  rule.isActive && rule.annualRateBps > 0 && ActiveOn(rule, date) && !ShouldPost(rule, date))
            && (r.AccrueSkipped? <==>
                  rule.isActive && rule.annualRateBps > 0 && ShouldPost(rule, date)
                  && exists i :: 0 <= i < |accruals| && Owns(rule, accruals[i]) && accruals[i].date == date)
            && (r.Accrued? ==> 0 < r.accrual.amount <= MAX_AMOUNT)
  {
    hide EarnedOn, EarnedOnBalance, PrincipalOn, NextPeriodStart, LastActiveDayOfMonth, CurrencyScale;
  }

  method Accrue(rule: Rule, currency: string, balance: int, date: nat,
                txs: seq<Transaction>, accruals: seq<Accrual>, nextId: Id) returns (r: AccrueOutcome)
    ensures r == AccrueOnce(rule, currency, balance, date, txs, accruals, nextId)
  {
    hide CurrencyScale, ShouldPost, ActiveOn, HasAccrual, AccrualAmount, NextPeriodStart, PrincipalOn;
    if !rule.isActive {
      return AccrueFailed(RuleInactive);
    }
    if rule.annualRateBps <= 0 {
      return AccrueFailed(RateNotPositive);
    }
    if !ActiveOn(rule, date) {
      return AccrueFailed(NotActiveOnDate);
    }
    if !ShouldPost(rule, date) {
      return AccrueFailed(NotPayableOnDate);
    }
    var exists_ := HasInterestAccrual(accruals, rule, date);
    if exists_ {
      return AccrueSkipped;
    }
    var start := NextAccrualPeriodStart(rule, accruals, date);
    var principal := PrincipalTransactionsForRuleAt(txs, accruals, rule, date);
    var amount := CalculateAccrualAmount(rule, CurrencyScale(currency), principal, balance, start, date);
    if amount.Rejected? {
      return AccrueFailed(amount.error);
    }
    if amount.value <= 0 {
      return AccrueFailed(ZeroInterest);
    }
    if amount.value > MAX_AMOUNT {
      return AccrueFailed(AmountOutOfBounds);
    }
    var p := Posting(date, amount.value);
    return Accrued(InterestTransaction(rule, p, nextId, nextId + 1), InterestAccrual(rule, p, nextId + 1, nextId));
  }

  // ---- A range

  /** Rows as flows of one account. */
  function Flows(account: Id, txs: seq<Transaction>): seq<Flow> {
    if txs == [] then []
    else
      var n := |txs| - 1;
      Flows(account, txs[..n]) + [Flow(txs[n].occurredAt, Effect(account, txs[n]))]
  }

  lemma {:induction false} FlowsBalance(account: Id, txs: seq<Transaction>, day: nat)
    ensures BaseBalance(Flows(account, txs), day) == BalanceOn(account, txs, day)
  {
    hide Effect, BalanceOn;
    if txs == [] {
      EmptyBalance(account, day);
    } else {
      var n := |txs| - 1;
      FlowsBalance(account, txs[..n], day);
      assert txs == txs[..n] + [txs[n]];
      BalanceOnSnoc(account, txs[..n], txs[n], day);
      assert (Flows(account, txs))[..|Flows(account, txs)| - 1] == Flows(account, txs[..n]);
    }
  }

  lemma EmptyBalance(account: Id, day: nat)
    ensures BalanceOn(account, [], day) == 0
  {
  }

  /** Rows that move the account's balance as the payouts say. */
  ghost predicate Matches(account: Id, txs: seq<Transaction>, posts: seq<Posting>) {
    && |txs| == |posts|
    && forall i :: 0 <= i < |txs| ==>
         txs[i].occurredAt == posts[i].date && Effect(account, txs[i]) == posts[i].amount
  }

  lemma {:induction false} MatchesBalance(account: Id, txs: seq<Transaction>, posts: seq<Posting>, day: nat)
    requires Matches(account, txs, posts)
    ensures BalanceOn(account, txs, day) == TotalUpTo(posts, day)
  {
    hide Effect, BalanceOn;
    if txs == [] {
      EmptyBalance(account, day);
    } else {
      var n := |txs| - 1;
      MatchesBalance(account, txs[..n], posts[..n], day);
      assert txs == txs[..n] + [txs[n]];
      BalanceOnSnoc(account, txs[..n], txs[n], day);
    }
  }

  /** Rows seen as payouts. */
  function RowPostings(account: Id, txs: seq<Transaction>): (posts: seq<Posting>)
    ensures Matches(account, txs, posts)
  {
    if txs == [] then []
    else
      var n := |txs| - 1;
      RowPostings(account, txs[..n]) + [Posting(txs[n].occurredAt, Effect(account, txs[n]))]
  }

  function TransactionRows(rule: Rule, out: seq<Posting>, nextId: Id): (txs: seq<Transaction>)
    ensures |txs| == |out|
  {
    if out == [] then []
    else
      var n := |out| - 1;
      TransactionRows(rule, out[..n], nextId) + [InterestTransaction(rule, out[n], nextId + 2 * n, nextId + 2 * n + 1)]
  }

  function AccrualRows(rule: Rule, out: seq<Posting>, nextId: Id): (rows: seq<Accrual>)
    ensures |rows| == |out|
  {
    if out == [] then []
    else
      var n := |out| - 1;
      AccrualRows(rule, out[..n], nextId) + [InterestAccrual(rule, out[n], nextId + 2 * n + 1, nextId + 2 * n)]
  }

  datatype RecalculateOutcome =
    | RecalculateFailed(error: EngineError)
    | RecalculatedRange(skipped: nat, total: int, transactions: seq<Transaction>, accruals: seq<Accrual>)

  /** The loop of a recalculation started on given rows. */
  function RangeLoop(rule: Rule, scale: nat, txs: seq<Transaction>, accruals: seq<Accrual>, from: nat, to: nat): Loop
    requires scale <= 6
  {
    var start := StartOfCalculation(rule, from, to);
    var base := WithoutIds(txs, ReplacedIds(accruals, rule, from, to));
    var working := PrincipalOn(base, accruals, rule, start);
    var waiting := RowPostings(rule.account, PendingCapitalization(base, accruals, rule, start, to));
    Run(Book(rule, scale, Flows(rule.account, working)), Loop(0, [], waiting, [], 0), start, to + 1)
  }

  predicate AllInBounds(out: seq<Posting>) {
    forall i :: 0 <= i < |out| ==> out[i].amount <= MAX_AMOUNT
  }

  function RecalculateOnce(rule: Rule, currency: string, txs: seq<Transaction>, accruals: seq<Accrual>,
                           from: nat, to: nat, nextId: Id): RecalculateOutcome {
    if rule.annualRateBps <= 0 then RecalculateFailed(RateNotPositive)
    else if to < from then RecalculateFailed(RangeReversed)
    else
      var end := RangeLoop(rule, CurrencyScale(currency), txs, accruals, from, to);
      if !AllInBounds(end.out) then RecalculateFailed(AmountOutOfBounds)
      else RecalculatedRange(end.skipped, Total(end.out), TransactionRows(rule, end.out, nextId),
        AccrualRows(rule, end.out, nextId))
  }

  function EarningDays(book: Book, init: Loop, from: nat, until: nat): nat
    requires book.scale <= 6
    decreases until
  {
    if until <= from then 0
    else
      var day := until - 1;
      EarningDays(book, init, from, day) +
      if ActiveOn(book.rule, day) && DayInterest(book, Run(book, init, from, day), day) > 0 then 1 else 0
  }

  /** Every day of the calculation has earned something or is counted as skipped. */
  lemma {:induction false} SkippedOrEarning(book: Book, init: Loop, from: nat, until: nat)
    requires book.scale <= 6 && from <= until
    ensures Run(book, init, from, until).skipped + EarningDays(book, init, from, until) == init.skipped + until - from
    decreases until
  {
    hide DayInterest, ActiveOn, ShouldPost, Capitalize;
    if from < until {
      SkippedOrEarning(book, init, from, until - 1);
      CapitalizeKeepsSkipped(book, Run(book, init, from, until - 1), until - 1);
    }
  }

  lemma CapitalizeKeepsSkipped(book: Book, st: Loop, day: nat)
    requires book.scale <= 6
    ensures Step(book, st, day).skipped ==
            st.skipped + if ActiveOn(book.rule, day) && DayInterest(book, st, day) > 0 then 0 else 1
  {
    hide DayInterest, ActiveOn, ShouldPost;
  }

  function Amounts(txs: seq<Transaction>): int {
    if txs == [] then 0 else Amounts(txs[..|txs| - 1]) + txs[|txs| - 1].amount
  }

  /** What a recalculation reports is what it has written: one accrual for each transaction, of equal amount,
      date and account, and their total; and every other day of the calculation as skipped. */
  lemma ReportsWhatItWrites(rule: Rule, currency: string, txs: seq<Transaction>, accruals: seq<Accrual>,
                            from: nat, to: nat, nextId: Id)
    requires from <= to
    ensures var r := RecalculateOnce(rule, currency, txs, accruals, from, to, nextId);
            r.RecalculatedRange? ==>
              && r.total == Amounts(r.transactions) && |r.accruals| == |r.transactions|
              && forall i :: 0 <= i < |r.accruals| ==>
                   && r.accruals[i].transaction == r.transactions[i].id
                   && r.transactions[i].sourceRef == Some(r.accruals[i].id)
                   && r.accruals[i].amount == r.transactions[i].amount
                   && r.accruals[i].date == r.transactions[i].occurredAt
                   && r.accruals[i].account == r.transactions[i].account == rule.account
  {
    hide RangeLoop, CurrencyScale;
    RowsReport(rule, RangeLoop(rule, CurrencyScale(currency), txs, accruals, from, to).out, nextId);
  }

  lemma {:induction false} RowsReport(rule: Rule, out: seq<Posting>, nextId: Id)
    ensures var txs, accs := TransactionRows(rule, out, nextId), AccrualRows(rule, out, nextId);
            && Total(out) == Amounts(txs) && |accs| == |txs|
            && forall i :: 0 <= i < |accs| ==>
                 && accs[i].transaction == txs[i].id && txs[i].sourceRef == Some(accs[i].id)
                 && accs[i].amount == txs[i].amount && accs[i].date == txs[i].occurredAt
                 && accs[i].account == txs[i].account == rule.account
  {
    if out != [] {
      RowsReport(rule, out[..|out| - 1], nextId);
    }
  }

  /** Payouts are only ever added. */
  lemma {:induction false} OutGrows(book: Book, init: Loop, start: nat, day: nat, until: nat)
    requires book.scale <= 6 && start <= day <= until
    ensures Run(book, init, start, day).out <= Run(book, init, start, until).out
    decreases until
  {
    hide DayInterest, ShouldPost, ActiveOn, ShouldCapitalize;
    if day < until {
      OutGrows(book, init, start, day, until - 1);
    }
  }

  /** What the day loop's variables stand for. */
  ghost predicate Tracks(rule: Rule, nextId: Id, initial: seq<Transaction>, st: Loop,
                         pendingAmount: int, working: seq<Transaction>, pending: seq<Transaction>,
                         skipped: nat, total: int, transactions: seq<Transaction>, accruals: seq<Accrual>) {
    && pendingAmount == st.pending && skipped == st.skipped && total == Total(st.out)
    && initial <= working && Matches(rule.account, working[|initial|..], st.working)
    && Matches(rule.account, pending, st.waiting)
    && transactions == TransactionRows(rule, st.out, nextId)
    && accruals == AccrualRows(rule, st.out, nextId)
  }

  lemma MatchesConcat(account: Id, xs: seq<Transaction>, ps: seq<Posting>, ys: seq<Transaction>, qs: seq<Posting>)
    requires Matches(account, xs, ps) && Matches(account, ys, qs)
    ensures Matches(account, xs + ys, ps + qs)
  {
    hide Effect;
  }

  lemma MatchesPayout(rule: Rule, p: Posting, id: Id, accrualId: Id)
    ensures Matches(rule.account, [InterestTransaction(rule, p, id, accrualId)], [p])
  {
  }

  lemma WorkingBalance(rule: Rule, initial: seq<Transaction>, working: seq<Transaction>, posts: seq<Posting>, day: nat)
    requires initial <= working && Matches(rule.account, working[|initial|..], posts)
    ensures BalanceOn(rule.account, working, day) ==
            BaseBalance(Flows(rule.account, initial), day) + TotalUpTo(posts, day)
  {
    hide Matches, Flows, BaseBalance, BalanceOn, TotalUpTo;
    assert working == initial + working[|initial|..];
    BalanceOnConcat(rule.account, initial, working[|initial|..], day);
    FlowsBalance(rule.account, initial, day);
    MatchesBalance(rule.account, working[|initial|..], posts, day);
  }

  lemma RowsSnoc(rule: Rule, out: seq<Posting>, p: Posting, nextId: Id)
    ensures var n := |out|;
            && TransactionRows(rule, out + [p], nextId) ==
               TransactionRows(rule, out, nextId) + [InterestTransaction(rule, p, nextId + 2 * n, nextId + 2 * n + 1)]
            && AccrualRows(rule, out + [p], nextId) ==
               AccrualRows(rule, out, nextId) + [InterestAccrual(rule, p, nextId + 2 * n + 1, nextId + 2 * n)]
  {
    assert (out + [p])[..|out|] == out;
  }

  /** Where the payout just built goes: straight to principal, to principal with all that waited, to
      the waiting list, or nowhere. */
  method Route(rule: Rule, day: nat, tx: Transaction, working: seq<Transaction>, pending: seq<Transaction>,
               ghost initial: seq<Transaction>, ghost st: Loop, ghost p: Posting)
    returns (working': seq<Transaction>, pending': seq<Transaction>)
    requires initial <= working && Matches(rule.account, working[|initial|..], st.working)
    requires Matches(rule.account, pending, st.waiting) && Matches(rule.account, [tx], [p])
    ensures var st' := Capitalize(rule, st, p, day);
            && initial <= working' && Matches(rule.account, working'[|initial|..], st'.working)
            && Matches(rule.account, pending', st'.waiting)
  {
    hide Matches, ShouldCapitalize;
    working', pending' := working, pending;
    if rule.capitalization == CapitalizeDaily {
      working' := working + [tx];
      assert working'[|initial|..] == working[|initial|..] + [tx];
      MatchesConcat(rule.account, working[|initial|..], st.working, [tx], [p]);
    } else if ShouldCapitalize(rule, day) {
      MatchesConcat(rule.account, pending, st.waiting, [tx], [p]);
      MatchesConcat(rule.account, working[|initial|..], st.working, pending + [tx], st.waiting + [p]);
      working' := working + (pending + [tx]);
      assert working'[|initial|..] == working[|initial|..] + (pending + [tx]);
      pending' := [];
      MatchesNone(rule.account);
    } else if rule.capitalization != NoCapitalization {
      pending' := pending + [tx];
      MatchesConcat(rule.account, pending, st.waiting, [tx], [p]);
    }
  }

  lemma MatchesNone(account: Id)
    ensures Matches(account, [], [])
  {
  }

  method Recalculate(rule: Rule, currency: string, txs: seq<Transaction>, existing: seq<Accrual>,
                     from: nat, to: nat, nextId: Id) returns (r: RecalculateOutcome)
    ensures r == RecalculateOnce(rule, currency, txs, existing, from, to, nextId)
  {
    hide CurrencyScale, Flows, RowPostings, PrincipalOn, PendingCapitalization, StartOfCalculation,
      Matches, TransactionRows, AccrualRows, DailyInterest, BaseBalance, TotalUpTo, Total, ActiveOn, ShouldPost,
      Capitalize, BalanceOn, WithoutIds, ReplacedIds;
    if rule.annualRateBps <= 0 {
      return RecalculateFailed(RateNotPositive);
    }
    if to < from {
      return RecalculateFailed(RangeReversed);
    }
    var scale := CurrencyScale(currency);
    var start := RecalculationStartDate(rule, from, to);
    var base := ExcludeAccrualTransactions(txs, existing, rule, from, to);
    var working := PrincipalTransactionsForRuleAt(base, existing, rule, start);
    var pending := PendingCapitalizationTransactionsBefore(base, existing, rule, start, to);

    ghost var initial := working;
    ghost var book := Book(rule, scale, Flows(rule.account, initial));
    ghost var init := Loop(0, [], RowPostings(rule.account, pending), [], 0);
    ghost var end := RangeLoop(rule, scale, txs, existing, from, to);
    assert end == Run(book, init, start, to + 1);

    var pendingAmount, skipped, total := 0, 0, 0;
    var transactions: seq<Transaction>, accruals: seq<Accrual> := [], [];
    ghost var st := init;
    StartTracks(rule, nextId, initial, init, pending);
    var day := start;
    while day <= to
      invariant start <= day
      invariant day <= to + 1 || day == start
      invariant st == Run(book, init, start, day)
      invariant Tracks(rule, nextId, initial, st, pendingAmount, working, pending, skipped, total, transactions,
                accruals)
      invariant AllInBounds(st.out)
      decreases 1 + to - day
    {
      ghost var before := st;
      st := Step(book, before, day);
      if !ActiveOn(rule, day) {
        skipped := skipped + 1;
      } else {
        var amount := InterestOn(rule, scale, working, day, book, initial, before);
        if amount > 0 {
          pendingAmount := pendingAmount + amount;
        } else {
          skipped := skipped + 1;
        }
        if ShouldPost(rule, day) && pendingAmount > 0 {
          ghost var p := Posting(day, pendingAmount);
          if pendingAmount > MAX_AMOUNT {
            OversizeFails(book, init, start, day, to, p);
            return RecalculateFailed(AmountOutOfBounds);
          }
          var tx := InterestTransaction(rule, Posting(day, pendingAmount), nextId + 2 * |transactions|,
            nextId + 2 * |transactions| + 1);
          var accrual := InterestAccrual(rule, Posting(day, pendingAmount), nextId + 2 * |accruals| + 1,
            nextId + 2 * |accruals|);
          RowsSnoc(rule, before.out, p, nextId);
          TotalSnoc(before.out, p);
          transactions := transactions + [tx];
          accruals := accruals + [accrual];
          total := total + pendingAmount;
          MatchesPayout(rule, p, tx.id, accrual.id);
          ghost var mid := before.(pending := pendingAmount, skipped := skipped,
            out := before.out + [p]).(pending := 0);
          working, pending := Route(rule, day, tx, working, pending, initial, mid, p);
          RoutedIsStep(book, before, day, p, mid);
          pendingAmount := 0;
        }
      }
      day := day + 1;
    }
    EndOfRun(book, init, start, day, to);
    return RecalculatedRange(skipped, total, transactions, accruals);
  }

  /** The balance of the working rows up to a day, and its interest. */
  method InterestOn(rule: Rule, scale: nat, working: seq<Transaction>, day: nat,
                    ghost book: Book, ghost initial: seq<Transaction>, ghost st: Loop) returns (amount: nat)
    requires scale <= 6 && ActiveOn(rule, day) && book == Book(rule, scale, Flows(rule.account, initial))
    requires initial <= working && Matches(rule.account, working[|initial|..], st.working)
    ensures amount == DayInterest(book, st, day)
  {
    hide Matches, Flows, BaseBalance, BalanceOn, TotalUpTo, DailyInterestAmount, ActiveOn;
    var upTo := TransactionsUpToDate(working, day);
    var balance, _ := CalculateBalance(rule.account, upTo);
    BalanceOnIsFold(rule.account, working, day);
    WorkingBalance(rule, initial, working, st.working, day);
    amount := 0;
    if balance > 0 {
      var value := DailyInterestAmount(balance, EffectiveRateBps(rule, day), DaysInYear(rule.dayCount, day), scale);
      if value > 0 {
        amount := value;
      }
    }
  }

  lemma StartTracks(rule: Rule, nextId: Id, initial: seq<Transaction>, init: Loop, pending: seq<Transaction>)
    requires init == Loop(0, [], RowPostings(rule.account, pending), [], 0)
    ensures Tracks(rule, nextId, initial, init, 0, initial, pending, 0, 0, [], [])
  {
    assert initial[|initial|..] == [];
  }

  lemma EndOfRun(book: Book, init: Loop, start: nat, day: nat, to: nat)
    requires book.scale <= 6 && start <= day && to < day && (day <= to + 1 || day == start)
    ensures Run(book, init, start, day) == Run(book, init, start, to + 1)
  {
  }

  /** An amount over the limit fails the whole recalculation. */
  lemma OversizeFails(book: Book, init: Loop, start: nat, day: nat, to: nat, p: Posting)
    requires book.scale <= 6 && start <= day <= to && p.amount > MAX_AMOUNT
    requires var st := Run(book, init, start, day);
             ShouldPost(book.rule, day) && ActiveOn(book.rule, day)
               && p == Posting(day, st.pending + DayInterest(book, st, day))
    ensures !AllInBounds(Run(book, init, start, to + 1).out)
  {
    hide DayInterest, ShouldPost, ActiveOn, ShouldCapitalize;
    var st := Run(book, init, start, day);
    var next := Run(book, init, start, day + 1);
    assert next.out == st.out + [p];
    OutGrows(book, init, start, day + 1, to + 1);
    assert Run(book, init, start, to + 1).out[|st.out|] == p;
  }

  lemma RoutedIsStep(book: Book, st: Loop, day: nat, p: Posting, mid: Loop)
    requires book.scale <= 6 && ActiveOn(book.rule, day) && ShouldPost(book.rule, day)
    requires p == Posting(day, st.pending + DayInterest(book, st, day)) && p.amount > 0
    requires mid == Loop(0, st.working, st.waiting, st.out + [p], st.skipped + if DayInterest(book, st, day) > 0
            then 0 else 1)
    ensures Step(book, st, day) == Capitalize(book.rule, mid, p, day)
    ensures Step(book, st, day).out == st.out + [p]
    ensures Step(book, st, day).pending == 0 && Step(book, st, day).skipped == mid.skipped
  {
    hide DayInterest, ShouldPost, ActiveOn, ShouldCapitalize;
  }
}
