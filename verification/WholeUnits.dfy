/** What precision the amounts of a ledger have. Every row has at most six decimals in every run, so every
    day's interest is one exact rounding; and rows are whole minor units of their account's currency as long
    as no step reads a currency of finer scale before it takes the lock. */
module WholeUnits {
  import opened Money
  import opened Options
  import opened Transactions
  import opened InterestRules
  import opened InterestSchedule
  import opened IncrementalAccrual
  import opened BatchRecalculation
  import opened Recalculation
  import opened InterestEngine
  import opened LinkedTables
  import opened InterestTables
  import opened LedgerMachine
  import opened LedgerInvariants

  // ---- Multiples of a unit

  predicate IsWhole(amount: int, unit: int)
    requires unit > 0
  {
    amount % unit == 0
  }

  lemma WholeSum(a: int, b: int, unit: int)
    requires unit > 0 && IsWhole(a, unit) && IsWhole(b, unit)
    ensures IsWhole(a + b, unit) && IsWhole(-a, unit)
  {
    var x, y := a / unit, b / unit;
    assert a + b == (x + y) * unit;
    assert -a == (-x) * unit;
    MultipleDivides(x + y, unit);
    MultipleDivides(-x, unit);
  }

  lemma ZeroIsWhole(unit: int)
    requires unit > 0
    ensures IsWhole(0, unit)
  {
  }

  function UnitOf(scale: nat): (unit: int)
    requires scale <= 6
    ensures unit > 0
  {
    Pow10(18 - scale)
  }

  /** Whole units of a coarser scale are whole units of a finer one. */
  lemma FinerIsWhole(amount: int, scale: nat, finer: nat)
    requires scale <= finer <= 6 && IsWhole(amount, UnitOf(scale))
    ensures IsWhole(amount, UnitOf(finer))
  {
    hide Pow10;
    var k, p := amount / UnitOf(scale), Pow10(finer - scale);
    Pow10Add(18 - finer, finer - scale);
    QuotientBounds(amount, UnitOf(scale));
    assert amount == UnitOf(scale) * k == (k * p) * UnitOf(finer);
    MultipleDivides(k * p, UnitOf(finer));
  }

  // ---- Interest is whole, on any balance

  lemma RawIsWhole(rule: Rule, scale: nat, balance: int, day: nat)
    requires scale <= 6
    ensures IsWhole(RawInterest(rule, scale, balance, day), UnitOf(scale))
    ensures IsWhole(DailyInterest(rule, scale, balance, day), UnitOf(scale))
  {
    hide DailyInterestAmount, Pow10, ActiveOn;
    ZeroIsWhole(UnitOf(scale));
    DailyInterestIsWhole(balance, EffectiveRateBps(rule, day), DaysInYear(rule.dayCount, day), scale);
  }

  lemma {:induction false} EarnedIsWhole(rule: Rule, scale: nat, txs: seq<Transaction>, balance: int, from: nat,
      until: nat)
    requires scale <= 6
    ensures IsWhole(EarnedOn(rule, scale, txs, from, until), UnitOf(scale))
    ensures IsWhole(EarnedOnBalance(rule, scale, balance, from, until), UnitOf(scale))
    decreases until
  {
    hide RawInterest, BalanceOn, IsWhole, UnitOf;
    var unit := UnitOf(scale);
    ZeroIsWhole(unit);
    if from < until {
      var day := until - 1;
      EarnedIsWhole(rule, scale, txs, balance, from, day);
      RawIsWhole(rule, scale, BalanceOn(rule.account, txs, day), day);
      RawIsWhole(rule, scale, balance, day);
      WholeSum(EarnedOn(rule, scale, txs, from, day),
        RawInterest(rule, scale, BalanceOn(rule.account, txs, day), day), unit);
      WholeSum(EarnedOnBalance(rule, scale, balance, from, day), RawInterest(rule, scale, balance, day), unit);
    }
  }

  ghost predicate WholePosts(posts: seq<Posting>, unit: int)
    requires unit > 0
  {
    forall i :: 0 <= i < |posts| ==> IsWhole(posts[i].amount, unit)
  }

  ghost predicate WholeLoop(st: Loop, unit: int)
    requires unit > 0
  {
    IsWhole(st.pending, unit) && WholePosts(st.working, unit) && WholePosts(st.waiting, unit)
      && WholePosts(st.out, unit)
  }

  lemma StepIsWhole(book: Book, st: Loop, day: nat, finer: nat)
    requires book.scale <= finer <= 6 && WholeLoop(st, UnitOf(finer))
    ensures WholeLoop(Step(book, st, day), UnitOf(finer))
  {
    hide DailyInterest, IsWhole, UnitOf, ActiveOn, ShouldPost, ShouldCapitalize;
    var amount := DayInterest(book, st, day);
    RawIsWhole(book.rule, book.scale, BaseBalance(book.base, day) + TotalUpTo(st.working, day), day);
    FinerIsWhole(amount, book.scale, finer);
    WholeSum(st.pending, amount, UnitOf(finer));
    ZeroIsWhole(UnitOf(finer));
  }

  lemma {:induction false} RunIsWhole(book: Book, st: Loop, from: nat, until: nat, finer: nat)
    requires book.scale <= finer <= 6 && WholeLoop(st, UnitOf(finer))
    ensures WholeLoop(Run(book, st, from, until), UnitOf(finer))
    decreases until
  {
    hide Step, WholeLoop;
    if from < until {
      RunIsWhole(book, st, from, until - 1, finer);
      StepIsWhole(book, Run(book, st, from, until - 1), until - 1, finer);
    }
  }

  lemma {:induction false} StartIsWhole(rule: Rule, prior: seq<Posting>, start: nat, to: nat, unit: int)
    requires unit > 0 && WholePosts(prior, unit)
    ensures WholeLoop(Start(rule, prior, start, to), unit)
  {
    hide IsWhole, CapitalizedBefore, IsWaiting;
    ZeroIsWhole(unit);
    if prior != [] {
      StartIsWhole(rule, prior[..|prior| - 1], start, to, unit);
    }
  }

  /** The row of an accrual attempt is whole minor units, whatever the balance was. */
  lemma AttemptIsWhole(t: Tables, rule: Rule, currency: string, date: nat)
    ensures var r := AttemptOn(AccountRows(t.txs, rule.account), AccountAccruals(t.accruals, rule.account), rule,
            currency, date, t.nextId);
            r.Accrued? ==>
              r.transaction.account == rule.account && IsWhole(r.transaction.amount, UnitOf(CurrencyScale(currency)))
  {
    hide AccountRows, AccountAccruals, PrincipalOn, UpToDate, Balance, HasAccrual, ShouldPost, ActiveOn, EarnedOn,
      EarnedOnBalance, IsWhole, UnitOf, NextPeriodStart, AccrualPostings;
    var rows, accs := AccountRows(t.txs, rule.account), AccountAccruals(t.accruals, rule.account);
    var principal := PrincipalOn(UpToDate(rows, date), accs, rule, date);
    var start := NextPeriodStart(rule, AccrualPostings(accs, rule), date);
    EarnedIsWhole(rule, CurrencyScale(currency), PrincipalOn(principal, accs, rule, date),
      Balance(rule.account, principal), start, date + 1);
  }

  lemma {:induction false} PayoutRows(t: Tables, rule: Rule, out: seq<Posting>, unit: int)
    requires unit > 0 && WholePosts(out, unit)
    ensures forall tx :: tx in WithPayouts(t, rule, out).txs ==>
              tx in t.txs || (tx.account == rule.account && IsWhole(tx.amount, unit))
  {
    hide IsWhole;
    if out != [] {
      PayoutRows(t, rule, out[..|out| - 1], unit);
    }
  }

  lemma {:induction false} ClearedRows(txs: seq<Transaction>, ids: set<Id>)
    ensures forall tx :: tx in WithoutInterest(txs, ids) ==> tx in txs
  {
    if txs != [] {
      ClearedRows(txs[..|txs| - 1], ids);
    }
  }

  lemma {:induction false} OwnPostsAreWhole(accruals: seq<Accrual>, rule: Rule, unit: int)
    requires unit > 0 && forall i :: 0 <= i < |accruals| && Owns(rule, accruals[i]) ==>
            IsWhole(accruals[i].amount, unit)
    ensures WholePosts(AccrualPostings(accruals, rule), unit)
  {
    hide IsWhole;
    if accruals != [] {
      OwnPostsAreWhole(accruals[..|accruals| - 1], rule, unit);
    }
  }

  lemma {:induction false} OutsideIsWhole(posts: seq<Posting>, from: nat, to: nat, unit: int)
    requires unit > 0 && WholePosts(posts, unit)
    ensures WholePosts(Outside(posts, from, to), unit)
  {
    hide IsWhole;
    if posts != [] {
      OutsideIsWhole(posts[..|posts| - 1], from, to, unit);
    }
  }

  lemma RecalculatedIsWhole(book: Book, prior: seq<Posting>, from: nat, to: nat, finer: nat)
    requires book.scale <= finer <= 6 && WholePosts(prior, UnitOf(finer))
    ensures WholePosts(Recalculated(book, prior, from, to).out, UnitOf(finer))
  {
    hide StartOfCalculation, Run, Start, UnitOf, WholePosts;
    var start := StartOfCalculation(book.rule, from, to);
    StartIsWhole(book.rule, prior, start, to, UnitOf(finer));
    RunIsWhole(book, Start(book.rule, prior, start, to), start, to + 1, finer);
  }

  // ---- Rows of an account in a unit

  /** The rows of an account are whole in the unit of a scale. */
  ghost predicate WholeIn(txs: seq<Transaction>, account: Id, scale: nat)
    requires scale <= 6
  {
    forall tx :: tx in txs && tx.account == account ==> IsWhole(tx.amount, UnitOf(scale))
  }

  lemma RecordedIsWhole(t: Tables, rule: Rule, scale: nat)
    requires Consistent(t) && scale <= 6 && WholeIn(t.txs, rule.account, scale)
    ensures WholePosts(Postings(t, rule), UnitOf(scale))
  {
    hide IsWhole, UnitOf, OnePerDay, BelowId, UniqueIds;
    InterestRowsAreRows(t.txs);
    var rows, accs := InterestRows(t.txs), t.accruals;
    forall i | 0 <= i < |accs| && Owns(rule, accs[i]) ensures IsWhole(accs[i].amount, UnitOf(scale)) {
      assert Carries(rows[i], accs[i]);
      assert rows[i] in t.txs;
    }
    OwnPostsAreWhole(accs, rule, UnitOf(scale));
  }

  /** A row with the account and amount of an old one. */
  ghost predicate Stems(txs: seq<Transaction>, tx: Transaction) {
    exists i :: 0 <= i < |txs| && txs[i].account == tx.account && txs[i].amount == tx.amount
  }

  /** The new rows of an account are old ones, or whole. */
  ghost predicate AddsWhole(txs: seq<Transaction>, txs': seq<Transaction>, account: Id, scale: nat)
    requires scale <= 6
  {
    forall tx :: tx in txs' && tx.account == account ==> Stems(txs, tx) || IsWhole(tx.amount, UnitOf(scale))
  }

  lemma RowsStayWhole(txs: seq<Transaction>, txs': seq<Transaction>, account: Id, scale: nat)
    requires scale <= 6 && WholeIn(txs, account, scale) && AddsWhole(txs, txs', account, scale)
    ensures WholeIn(txs', account, scale)
  {
    hide IsWhole, UnitOf;
    forall tx | tx in txs' && tx.account == account && Stems(txs, tx) ensures IsWhole(tx.amount, UnitOf(scale)) {
      var i :| 0 <= i < |txs| && txs[i].account == tx.account && txs[i].amount == tx.amount;
      assert txs[i] in txs;
    }
  }

  lemma RowsStem(txs: seq<Transaction>)
    ensures forall tx :: tx in txs ==> Stems(txs, tx)
  {
  }

  /** The scale a step's amounts on an account are validated or rounded for, if it adds any. */
  ghost predicate StepFits(e: Event, account: Id, scale: nat) {
    match e
    case Create(_, a, _, _, _, currency, _, _) => a == account ==> CurrencyScale(currency) <= scale
    case AccrueInterest(_, rule, currency, _) => rule.account == account ==> CurrencyScale(currency) <= scale
    case RecalculateInterest(_, rule, currency, _, _) => rule.account == account ==> CurrencyScale(currency) <= scale
    case Transfer(_, source, target, fromCurrency, toCurrency, _, _, _, _) =>
      && (source == account ==> CurrencyScale(fromCurrency) <= scale)
      && (target == account ==> CurrencyScale(toCurrency) <= scale)
    case _ => true
  }

  lemma ValidIsWhole(kind: Kind, amount: int, currency: string, scale: nat)
    requires ValidAmount(kind, amount, currency) && CurrencyScale(currency) <= scale <= 6
    ensures IsWhole(amount, UnitOf(scale))
  {
    hide Pow10;
    FinerIsWhole(amount, CurrencyScale(currency), scale);
  }

  lemma CreateStaysWhole(s: Ledger, e: Event, account: Id, scale: nat)
    requires scale <= 6 && WholeIn(s.tables.txs, account, scale) && e.Create? && StepFits(e, account, scale)
    ensures WholeIn(Apply(s, e).tables.txs, account, scale)
  {
    hide IsWhole, UnitOf, CurrencyScale, Stems, ValidAmount, Usable;
    RowsStem(s.tables.txs);
    if CanCreate(s, e) {
      if e.account == account {
        ValidIsWhole(e.kind, e.amount, e.currency, scale);
      }
      RowsStayWhole(s.tables.txs, Apply(s, e).tables.txs, account, scale);
    }
  }

  lemma RetiredStaysWhole(s: Ledger, id: Id, status: Status, account: Id, scale: nat)
    requires scale <= 6 && WholeIn(s.tables.txs, account, scale)
    ensures WholeIn(Retired(s, id, status).tables.txs, account, scale)
  {
    hide IsWhole, UnitOf;
    RowsStayWhole(s.tables.txs, Retired(s, id, status).tables.txs, account, scale);
  }

  lemma ReversedStaysWhole(s: Ledger, i: nat, date: nat, account: Id, scale: nat)
    requires Kept(s) && scale <= 6 && WholeIn(s.tables.txs, account, scale)
    ensures WholeIn(Apply(s, CommitReversal(i, date)).tables.txs, account, scale)
  {
    hide Core, CoreKept, Locked, Consistent, WithStatus, IsWhole, UnitOf;
    if i < |s.inFlight| && Locked(s, s.inFlight[i].user, s.inFlight[i].tx).Some? {
      var r := s.inFlight[i];
      LockedRow(s, r.user, r.tx);
      var row := Locked(s, r.user, r.tx).value;
      AdjustmentReverses(s, r, row, date);
      RetiredStaysWhole(s, row.id, Status.Reversed, account, scale);
      if row.account == account {
        ZeroIsWhole(UnitOf(scale));
        WholeSum(row.amount, 0, UnitOf(scale));
      }
    }
  }

  lemma TransferStaysWhole(s: Ledger, e: Event, account: Id, scale: nat)
    requires scale <= 6 && WholeIn(s.tables.txs, account, scale) && e.Transfer? && CanTransfer(s, e)
    requires StepFits(e, account, scale)
    ensures WholeIn(Transferred(s, e).tables.txs, account, scale)
  {
    hide IsWhole, UnitOf, CurrencyScale, Stems, ValidAmount, Credited, Balance, Usable;
    RowsStem(s.tables.txs);
    if e.source == account {
      ValidIsWhole(TransferOut, e.amount, e.fromCurrency, scale);
      if e.fee > 0 {
        ValidIsWhole(Expense, e.fee, e.fromCurrency, scale);
      }
    }
    if e.target == account {
      ValidIsWhole(TransferIn, Credited(e.amount, e.rate, e.fromCurrency, e.toCurrency), e.toCurrency, scale);
    }
    RowsStayWhole(s.tables.txs, Transferred(s, e).tables.txs, account, scale);
  }

  lemma AccrualStaysWhole(t: Tables, rule: Rule, currency: string, date: nat, account: Id, scale: nat)
    requires scale <= 6 && WholeIn(t.txs, account, scale)
            && (rule.account == account ==> CurrencyScale(currency) <= scale)
    ensures WholeIn(AccrueStep(t, rule, currency, date).txs, account, scale)
  {
    hide AttemptOn, AccountRows, AccountAccruals, IsWhole, UnitOf, CurrencyScale, Stems;
    var r := AttemptOn(AccountRows(t.txs, rule.account), AccountAccruals(t.accruals, rule.account), rule, currency,
                       date, t.nextId);
    AttemptIsWhole(t, rule, currency, date);
    if r.Accrued? && rule.account == account {
      FinerIsWhole(r.transaction.amount, CurrencyScale(currency), scale);
    }
    RowsStem(t.txs);
    RowsStayWhole(t.txs, AccrueStep(t, rule, currency, date).txs, account, scale);
  }

  lemma RecalculationStaysWhole(t: Tables, rule: Rule, currency: string, from: nat, to: nat, account: Id, scale: nat)
    requires Consistent(t) && scale <= 6 && WholeIn(t.txs, account, scale)
    requires rule.account == account ==> CurrencyScale(currency) <= scale
    ensures WholeIn(RecalculateStep(t, rule, currency, from, to).txs, account, scale)
  {
    hide Consistent, RecalculateStep, IsWhole, UnitOf, CurrencyScale, Stems, Recalculated, Outside, WithPayouts,
      WithoutInterest, WholePosts, AccrualPostings, AccountRows, AccountAccruals, BaseRows, Flows, AllInBounds;
    var t' := RecalculateStep(t, rule, currency, from, to);
    if rule.annualRateBps > 0 && from <= to {
      var book, prior := TableBook(t, rule, CurrencyScale(currency)), Outside(Postings(t, rule), from, to);
      var out := Recalculated(book, prior, from, to).out;
      RecalculateStepIsReplacement(t, rule, currency, from, to);
      if rule.account == account {
        RecordedIsWhole(t, rule, scale);
        OutsideIsWhole(Postings(t, rule), from, to, UnitOf(scale));
        RecalculatedIsWhole(book, prior, from, to, scale);
        PayoutRows(Cleared(t, rule, from, to), rule, out, UnitOf(scale));
      } else {
        PayoutAccounts(Cleared(t, rule, from, to), rule, out);
      }
      ClearedRows(t.txs, ReplacedIds(t.accruals, rule, from, to));
      RowsStem(t.txs);
      RowsStayWhole(t.txs, t'.txs, account, scale);
    } else {
      RefusedRecalculation(t, rule, currency, from, to);
    }
  }

  lemma {:induction false} PayoutAccounts(t: Tables, rule: Rule, out: seq<Posting>)
    ensures forall tx :: tx in WithPayouts(t, rule, out).txs ==> tx in t.txs || tx.account == rule.account
  {
    if out != [] {
      PayoutAccounts(t, rule, out[..|out| - 1]);
    }
  }

  /** A step that fits the scale of an account keeps its rows whole. */
  lemma StepStaysWhole(s: Ledger, e: Event, account: Id, scale: nat)
    requires Kept(s) && scale <= 6 && WholeIn(s.tables.txs, account, scale) && StepFits(e, account, scale)
    ensures WholeIn(Apply(s, e).tables.txs, account, scale)
  {
    hide CoreKept, Consistent, WholeIn, Locked, CanTransfer, CanUpdate, Retired, MarkReversed, Transferred, AccrueStep,
      RecalculateStep, CurrencyScale;
    match e
    case OpenAccount(_, _) =>
    case UpdateAccount(_, _, _) =>
    case Create(_, _, _, _, _, _, _, _) => CreateStaysWhole(s, e, account, scale);
    case Cancel(user, tx) => RetiredStaysWhole(s, tx, Cancelled, account, scale);
    case SoftDelete(user, tx) => RetiredStaysWhole(s, tx, SoftDeleted, account, scale);
    case ReadForReversal(user, tx) =>
    case CommitReversal(i, date) => ReversedStaysWhole(s, i, date, account, scale);
    case AbandonReversal(i) =>
    case Transfer(_, _, _, _, _, _, _, _, _) => if CanTransfer(s, e) { TransferStaysWhole(s, e, account, scale); }
    case AccrueInterest(user, rule, currency, date) => AccrualStaysWhole(s.tables, rule, currency, date, account,
      scale);
    case RecalculateInterest(user, rule, currency, from, to) =>
      RecalculationStaysWhole(s.tables, rule, currency, from, to, account, scale);
  }

  // ---- Six decimals, always

  /** In every run, whatever currencies the steps have read, every row has at most six decimals. */
  lemma {:induction false} SixDecimals(events: seq<Event>, account: Id)
    ensures WholeIn(Play(EMPTY, events).tables.txs, account, 6)
  {
    hide WholeIn, Kept, Apply, StepFits;
    if events == [] {
      NoRowsAreWhole(account, 6);
    } else {
      var n := |events| - 1;
      SixDecimals(events[..n], account);
      EveryRunKeeps(events[..n]);
      SixAlwaysFit(events[n], account);
      StepStaysWhole(Play(EMPTY, events[..n]), events[n], account, 6);
    }
  }

  lemma SixAlwaysFit(e: Event, account: Id)
    ensures StepFits(e, account, 6)
  {
  }

  lemma NoRowsAreWhole(account: Id, scale: nat)
    requires scale <= 6
    ensures WholeIn(EMPTY.tables.txs, account, scale)
  {
  }

  // ---- Whole minor units, while the currencies read are not finer

  function AccountScale(s: Ledger, account: Id): (scale: nat)
    requires account in s.accounts
    ensures scale <= 6
  {
    CurrencyScale(s.accounts[account].currency)
  }

  /** Every row is whole minor units of its account's currency. */
  ghost predicate WholeRows(s: Ledger) {
    && (forall tx :: tx in s.tables.txs ==> tx.account in s.accounts)
    && forall a :: a in s.accounts ==> WholeIn(s.tables.txs, a, AccountScale(s, a))
  }

  /** No step reads a currency with more digits than the account has when the step takes the lock. */
  ghost predicate ReadsFit(s: Ledger, e: Event) {
    forall a :: a in s.accounts ==> StepFits(e, a, AccountScale(s, a)) || (e.Transfer? && !CanTransfer(s, e))
  }

  ghost predicate ReadsFitAlong(events: seq<Event>) {
    forall n {:trigger events[n]} :: 0 <= n < |events| ==> ReadsFit(Play(EMPTY, events[..n]), events[n])
  }

  lemma AccountsOfRows(s: Ledger, e: Event)
    requires Kept(s) && forall tx :: tx in s.tables.txs ==> tx.account in s.accounts
    ensures forall tx :: tx in Apply(s, e).tables.txs ==> tx.account in Apply(s, e).accounts
  {
    hide CoreKept, Consistent, Locked, ValidAmount, WithStatus, AccrueStep, RecalculateStep, Credited, Balance;
    match e
    case CommitReversal(i, date) =>
      if i < |s.inFlight| && Locked(s, s.inFlight[i].user, s.inFlight[i].tx).Some? {
        LockedRow(s, s.inFlight[i].user, s.inFlight[i].tx);
      }
    case AccrueInterest(user, rule, currency, date) => AccrualAccounts(s.tables, rule, currency, date);
    case RecalculateInterest(user, rule, currency, from, to) =>
      RecalculationAccounts(s.tables, rule, currency, from, to);
    case _ =>
  }

  lemma AccrualAccounts(t: Tables, rule: Rule, currency: string, date: nat)
    ensures forall tx :: tx in AccrueStep(t, rule, currency, date).txs ==> tx in t.txs || tx.account == rule.account
  {
    hide AttemptOn, AccountRows, AccountAccruals, IsWhole, UnitOf;
    AttemptIsWhole(t, rule, currency, date);
  }

  lemma RecalculationAccounts(t: Tables, rule: Rule, currency: string, from: nat, to: nat)
    requires Consistent(t)
    ensures forall tx :: tx in RecalculateStep(t, rule, currency, from, to).txs ==>
              tx in t.txs || tx.account == rule.account
  {
    hide Consistent, RecalculateStep, Recalculated, Outside, WithPayouts, WithoutInterest, AccrualPostings, AccountRows,
      AccountAccruals, BaseRows, Flows, AllInBounds;
    if rule.annualRateBps > 0 && from <= to {
      RecalculateStepIsReplacement(t, rule, currency, from, to);
      var book := TableBook(t, rule, CurrencyScale(currency));
      PayoutAccounts(Cleared(t, rule, from, to), rule,
                     Recalculated(book, Outside(Postings(t, rule), from, to), from, to).out);
      ClearedRows(t.txs, ReplacedIds(t.accruals, rule, from, to));
    } else {
      RefusedRecalculation(t, rule, currency, from, to);
    }
  }

  lemma StepKeepsWholeRows(s: Ledger, e: Event)
    requires Kept(s) && WholeRows(s) && ReadsFit(s, e)
    ensures WholeRows(Apply(s, e))
  {
    hide CoreKept, Consistent, StepFits, IsWhole, UnitOf, CurrencyScale, Apply;
    var s' := Apply(s, e);
    AccountsOfRows(s, e);
    forall a | a in s'.accounts ensures WholeIn(s'.tables.txs, a, AccountScale(s', a)) {
      AccountStaysWhole(s, e, a);
    }
  }

  lemma AccountStaysWhole(s: Ledger, e: Event, a: Id)
    requires Kept(s) && WholeRows(s) && ReadsFit(s, e) && a in Apply(s, e).accounts
    ensures WholeIn(Apply(s, e).tables.txs, a, AccountScale(Apply(s, e), a))
  {
    hide CoreKept, Consistent, StepFits, IsWhole, UnitOf, CurrencyScale, WithStatus, Locked, CanCreate, CanTransfer,
      Transferred, MarkReversed, Retired, AccrueStep, RecalculateStep;
    if e.OpenAccount? || e.UpdateAccount? {
      assert Apply(s, e).tables == s.tables;
      assert a in s.accounts && s.accounts[a].currency != Apply(s, e).accounts[a].currency ==>
        !HasRows(s.tables.txs, a);
      assert HasRows(s.tables.txs, a) || WholeIn(s.tables.txs, a, AccountScale(Apply(s, e), a));
    } else if !(e.Transfer? && !CanTransfer(s, e)) {
      AccountsStay(s, e);
      StepStaysWhole(s, e, a, AccountScale(s, a));
    }
  }

  lemma AccountsStay(s: Ledger, e: Event)
    requires !e.OpenAccount? && !e.UpdateAccount?
    ensures Apply(s, e).accounts == s.accounts
  {
    hide CanCreate, CanTransfer, Locked, WithStatus, AccrueStep, RecalculateStep, Credited;
  }

  /** As long as no step has read a finer currency, every row is whole minor units of its account. */
  lemma {:induction false} EveryRowIsWhole(events: seq<Event>)
    requires ReadsFitAlong(events)
    ensures WholeRows(Play(EMPTY, events))
  {
    hide WholeRows, Kept, Apply, ReadsFit;
    if events == [] {
      EmptyIsWhole();
    } else {
      var n := |events| - 1;
      var before := events[..n];
      assert ReadsFitAlong(before) by {
        forall k | 0 <= k < |before| ensures ReadsFit(Play(EMPTY, before[..k]), before[k]) {
          assert before[..k] == events[..k] && before[k] == events[k];
        }
      }
      EveryRowIsWhole(before);
      EveryRunKeeps(before);
      assert ReadsFit(Play(EMPTY, events[..n]), events[n]);
      StepKeepsWholeRows(Play(EMPTY, before), events[n]);
    }
  }

  lemma EmptyIsWhole()
    ensures WholeRows(EMPTY)
  {
  }

  /** Every amount valid in the currency read is whole in the account's exactly when the one read is not
      finer: otherwise the smallest unit of the one read already is not. */
  lemma StaleReadExactly(read: string, actual: string)
    ensures (forall kind, amount :: ValidAmount(kind, amount, read) ==> IsWhole(amount, UnitOf(CurrencyScale(actual))))
            <==> CurrencyScale(read) <= CurrencyScale(actual)
  {
    hide CurrencyScale, IsWhole;
    if CurrencyScale(read) <= CurrencyScale(actual) {
      forall kind, amount | ValidAmount(kind, amount, read) ensures IsWhole(amount, UnitOf(CurrencyScale(actual))) {
        ValidIsWhole(kind, amount, read, CurrencyScale(actual));
      }
    } else {
      SmallestUnit(read, actual);
      assert ValidAmount(Income, UnitOf(CurrencyScale(read)), read);
    }
  }

  lemma SmallestUnit(read: string, actual: string)
    requires CurrencyScale(actual) < CurrencyScale(read)
    ensures ValidAmount(Income, UnitOf(CurrencyScale(read)), read)
    ensures !IsWhole(UnitOf(CurrencyScale(read)), UnitOf(CurrencyScale(actual)))
  {
    hide CurrencyScale, Pow10;
    var a, r := CurrencyScale(actual), CurrencyScale(read);
    PowersGrow(18 - r, 18 - a);
    PowersGrow(18 - r, 18);
    Pow10Add(9, 9);
    PowersOfTen();
    MultipleDivides(1, UnitOf(r));
    QuotientUnique(UnitOf(r), UnitOf(a), 0);
  }

  lemma {:induction false} PowersGrow(j: nat, k: nat)
    requires j <= k
    ensures Pow10(j) <= Pow10(k) && (j < k ==> Pow10(j) < Pow10(k))
  {
    if j < k {
      PowersGrow(j, k - 1);
    }
  }

  const DOLLARS := Account(1, "USD", true, 0)
  const CENT: int := 10_000_000_000_000_000

  /** An income of one cent, validated while the account was in dollars, lands in an account that has been
      changed to yen in between: such a row is not whole. */
  lemma StaleCurrencySlipsIn()
    ensures var events := [OpenAccount(7, DOLLARS), UpdateAccount(1, 7, DOLLARS.(currency := "JPY")),
                           Create(1, 7, None, Income, CENT, "USD", 0, 0)];
            var s := Play(EMPTY, events);
            && |s.tables.txs| == 1 && s.tables.txs[0].account == 7 && s.tables.txs[0].amount == CENT
            && 7 in s.accounts && s.accounts[7].currency == "JPY" && !WholeRows(s)
  {
    hide CurrencyScale, UnitOf, IsWhole, Pow10, ValidAmount;
    var open, change := OpenAccount(7, DOLLARS), UpdateAccount(1, 7, DOLLARS.(currency := "JPY"));
    var create := Create(1, 7, None, Income, CENT, "USD", 0, 0);
    var events := [open, change, create];
    assert events[..2] == [open, change] && [open, change][..1] == [open] && [open][..0] == [];
    var s1 := Apply(EMPTY, open);
    var s2 := Apply(s1, change);
    assert Play(EMPTY, [open]) == s1 && Play(EMPTY, [open, change]) == s2;
    assert s2.accounts[7] == DOLLARS.(currency := "JPY") && s2.tables == EMPTY.tables;
    CentScales();
    var s := Apply(s2, create);
    assert CanCreate(s2, create);
    assert Play(EMPTY, events) == s;
    assert !IsWhole(CENT, UnitOf(AccountScale(s, 7)));
    assert s.tables.txs[0] in s.tables.txs;
  }

  lemma CentScales()
    ensures CurrencyScale("USD") == 2 && CurrencyScale("JPY") == 0
    ensures ValidAmount(Income, CENT, "USD") && !IsWhole(CENT, UnitOf(0))
  {
    hide CurrencyScale, Pow10;
    DollarScale();
    YenScale();
    CentUnits();
    QuotientUnique(CENT, 100 * CENT, 0);
  }

  lemma DollarScale()
    ensures CurrencyScale("USD") == 2
  {
  }

  lemma YenScale()
    ensures CurrencyScale("JPY") == 0
  {
  }

  lemma CentUnits()
    ensures Pow10(16) == CENT && Pow10(18) == 100 * CENT
  {
    hide Pow10;
    PowersOfTen();
    Pow10Add(9, 9);
    Pow10Add(2, 16);
  }

  // ---- Interest is rounded once, always

  /** A day's interest with one rounding of the exact rational. */
  function OnceRounded(rule: Rule, scale: nat, balance: int, day: nat): int
    requires scale <= 6
  {
    if !ActiveOn(rule, day) || balance <= 0 then 0
    else
      var amount := ExactDailyInterest(balance, EffectiveRateBps(rule, day), DaysInYear(rule.dayCount, day), scale);
      if amount <= 0 then 0 else amount
  }

  /** On balances of six decimals, for whatever currency scale the interest is computed. */
  lemma WholeBalanceRoundsOnce(rule: Rule, scale: nat, balance: int, day: nat)
    requires ValidRule(rule) && scale <= 6 && IsWhole(balance, UnitOf(6))
    ensures DailyInterest(rule, scale, balance, day) == OnceRounded(rule, scale, balance, day)
  {
    hide DailyInterestAmount, ExactDailyInterest, Pow10, ActiveOn;
    if balance > 0 {
      var unit := UnitOf(6);
      Pow10Add(9, 3);
      PowersOfTen();
      var micro, fine := balance / unit, Pow10(3);
      QuotientBounds(balance, unit);
      assert balance == unit * micro;
      assert micro >= 0 && micro * fine >= 0 by { ProductsNonNegative(micro, fine); }
      assert balance == (micro * fine) * BILLION;
      DoubleRoundingIsHarmless(micro * fine, EffectiveRateBps(rule, day), DaysInYear(rule.dayCount, day), scale);
    }
  }

  lemma {:induction false} UpToDateRows(txs: seq<Transaction>, day: nat)
    ensures forall tx :: tx in UpToDate(txs, day) ==> tx in txs
  {
    if txs != [] {
      UpToDateRows(txs[..|txs| - 1], day);
    }
  }

  lemma {:induction false} BalanceIsWhole(txs: seq<Transaction>, rows: seq<Transaction>, account: Id, scale: nat)
    requires scale <= 6 && WholeIn(txs, account, scale) && forall i :: 0 <= i < |rows| ==> rows[i] in txs
    ensures IsWhole(Balance(account, rows), UnitOf(scale))
  {
    hide IsWhole, UnitOf;
    ZeroIsWhole(UnitOf(scale));
    if rows != [] {
      var n := |rows| - 1;
      BalanceIsWhole(txs, rows[..n], account, scale);
      if rows[n].account == account {
        WholeSum(rows[n].amount, 0, UnitOf(scale));
      }
      WholeSum(Balance(account, rows[..n]), Effect(account, rows[n]), UnitOf(scale));
    }
  }

  /** Every balance over any selection of rows has at most six decimals, and is whole minor units of the
      account as long as no step has read a finer currency. */
  lemma EveryBalanceIsWhole(events: seq<Event>, rows: seq<Transaction>, account: Id)
    requires forall i :: 0 <= i < |rows| ==> rows[i] in Play(EMPTY, events).tables.txs
    ensures IsWhole(Balance(account, rows), UnitOf(6))
    ensures var s := Play(EMPTY, events);
            account in s.accounts && ReadsFitAlong(events) ==>
              IsWhole(Balance(account, rows), UnitOf(AccountScale(s, account)))
  {
    hide Play, WholeIn, IsWhole, AccountScale, UnitOf, Balance, ReadsFitAlong;
    var s := Play(EMPTY, events);
    SixDecimals(events, account);
    BalanceIsWhole(s.tables.txs, rows, account, 6);
    if account in s.accounts && ReadsFitAlong(events) {
      EveryRowIsWhole(events);
      BalanceIsWhole(s.tables.txs, rows, account, AccountScale(s, account));
    }
  }

  lemma BaseIsWhole(t: Tables, rule: Rule, scale: nat, day: nat)
    requires WholeIn(t.txs, rule.account, 6)
    ensures IsWhole(BaseBalance(TableBook(t, rule, scale).base, day), UnitOf(6))
  {
    hide IsWhole, UnitOf, WholeIn, AccountRows, AccountAccruals, WithoutIds, UpToDate, Flows, BaseBalance, Balance;
    var rows := AccountRows(t.txs, rule.account);
    var base := BaseRows(rows, AccountAccruals(t.accruals, rule.account), rule);
    AccountRowsAreRows(t.txs, rule.account);
    WithoutIdsKeeps(rows, OwnIds(AccountAccruals(t.accruals, rule.account), rule));
    UpToDateRows(base, day);
    FlowsBalance(rule.account, base, day);
    BalanceIsWhole(t.txs, UpToDate(base, day), rule.account, 6);
  }

  lemma {:induction false} PrincipalIsWhole(rule: Rule, posts: seq<Posting>, asOf: nat, day: nat, unit: int)
    requires unit > 0 && WholePosts(posts, unit)
    ensures IsWhole(Principal(rule, posts, asOf, day), unit) && IsWhole(TotalUpTo(posts, day), unit)
  {
    hide IsWhole, CapitalizedBefore;
    ZeroIsWhole(unit);
    if posts != [] {
      var n := |posts| - 1;
      PrincipalIsWhole(rule, posts[..n], asOf, day, unit);
      WholeSum(Principal(rule, posts[..n], asOf, day), posts[n].amount, unit);
      WholeSum(TotalUpTo(posts[..n], day), posts[n].amount, unit);
    }
  }

  /** Interest of a period, each day rounded once. */
  function PeriodOnce(book: Book, posts: seq<Posting>, asOf: nat, from: nat, until: nat): int
    requires book.scale <= 6
    decreases until
  {
    if until <= from then 0
    else
      var day := until - 1;
      PeriodOnce(book, posts, asOf, from, day) +
      OnceRounded(book.rule, book.scale, BaseBalance(book.base, day) + Principal(book.rule, posts, asOf, day), day)
  }

  lemma {:induction false} PeriodRoundsOnce(
      t: Tables, rule: Rule, scale: nat, posts: seq<Posting>, asOf: nat, from: nat, until: nat)
    requires WholeIn(t.txs, rule.account, 6) && ValidRule(rule) && scale <= 6 && WholePosts(posts, UnitOf(6))
    ensures var book := TableBook(t, rule, scale);
            PeriodInterestAsOf(book, posts, asOf, from, until) == PeriodOnce(book, posts, asOf, from, until)
    decreases until
  {
    hide WholeIn, WholePosts, IsWhole, UnitOf, BaseBalance, Principal, DailyInterest, OnceRounded, AccountRows,
      AccountAccruals, BaseRows, Flows;
    if from < until {
      var day, unit := until - 1, UnitOf(6);
      var book := TableBook(t, rule, scale);
      PeriodRoundsOnce(t, rule, scale, posts, asOf, from, day);
      BaseIsWhole(t, rule, scale, day);
      PrincipalIsWhole(rule, posts, asOf, day, unit);
      WholeSum(BaseBalance(book.base, day), Principal(rule, posts, asOf, day), unit);
      WholeBalanceRoundsOnce(rule, scale, BaseBalance(book.base, day) + Principal(rule, posts, asOf, day), day);
    }
  }

  /** In every reachable ledger, and whatever currency is used, the amount an accrual is due is the sum of
      daily interests that are each rounded once. */
  lemma EveryAccrualRoundsOnce(events: seq<Event>, rule: Rule, currency: string, date: nat)
    requires ValidRule(rule)
    ensures var t := Play(EMPTY, events).tables;
            var book, posts := TableBook(t, rule, CurrencyScale(currency)), Postings(t, rule);
            AmountDue(book, posts, date) == PeriodOnce(book, posts, date, NextPeriodStart(rule, posts, date), date + 1)
  {
    hide Play, WholeIn, WholePosts, Consistent, CoreKept, PeriodInterestAsOf, PeriodOnce, NextPeriodStart,
      AccrualPostings, AccountRows, AccountAccruals, BaseRows, Flows, UnitOf, CurrencyScale;
    var t := Play(EMPTY, events).tables;
    SixDecimals(events, rule.account);
    EveryRunKeeps(events);
    RecordedIsWhole(t, rule, 6);
    var posts := Postings(t, rule);
    PeriodRoundsOnce(t, rule, CurrencyScale(currency), posts, date, NextPeriodStart(rule, posts, date), date + 1);
  }

  /** And so is every day of a recalculation, on the principal it has built up itself. */
  lemma EveryRecalculationRoundsOnce(events: seq<Event>, rule: Rule, currency: string, from: nat, to: nat, day: nat)
    requires ValidRule(rule)
    ensures var t := Play(EMPTY, events).tables;
            var book, start := TableBook(t, rule, CurrencyScale(currency)), StartOfCalculation(rule, from, to);
            var st := Run(book, Start(rule, Outside(Postings(t, rule), from, to), start, to), start, day);
            DayInterest(book, st, day) ==
            OnceRounded(rule, book.scale, BaseBalance(book.base, day) + TotalUpTo(st.working, day), day)
  {
    hide Play, WholeIn, WholePosts, Consistent, CoreKept, IsWhole, UnitOf, Run, Start, StartOfCalculation, Outside,
      AccrualPostings, AccountRows, AccountAccruals, BaseRows, Flows, OnceRounded, DailyInterest, BaseBalance,
      TotalUpTo, CurrencyScale;
    var t, scale, unit := Play(EMPTY, events).tables, CurrencyScale(currency), UnitOf(6);
    SixDecimals(events, rule.account);
    EveryRunKeeps(events);
    RecordedIsWhole(t, rule, 6);
    var book, start := TableBook(t, rule, scale), StartOfCalculation(rule, from, to);
    var prior := Outside(Postings(t, rule), from, to);
    OutsideIsWhole(Postings(t, rule), from, to, unit);
    StartIsWhole(rule, prior, start, to, unit);
    RunIsWhole(book, Start(rule, prior, start, to), start, day, 6);
    var st := Run(book, Start(rule, prior, start, to), start, day);
    BaseIsWhole(t, rule, scale, day);
    PrincipalIsWhole(rule, st.working, day, day, unit);
    WholeSum(BaseBalance(book.base, day), TotalUpTo(st.working, day), unit);
    WholeBalanceRoundsOnce(rule, scale, BaseBalance(book.base, day) + TotalUpTo(st.working, day), day);
  }
}
