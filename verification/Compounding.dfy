/** Further consequences for whole runs: payouts cover their whole period, capitalizing more often
    never earns less, periods tile the active days, and what a late capitalization does. */
module Compounding {
  import opened Money
  import opened Options
  import opened InterestRules
  import opened InterestSchedule
  import opened IncrementalAccrual
  import opened BatchRecalculation
  import opened BatchCorrectness
  import opened Recalculation

  /** What the loop itself earns on the days from `from` up to but excluding `until`. */
  ghost function Earned(book: Book, init: Loop, start: nat, from: nat, until: nat): nat
    requires book.scale <= 6
    decreases until
  {
    if until <= from then 0
    else Earned(book, init, start, from, until - 1) + DayInterest(book, Run(book, init, start, until - 1), until - 1)
  }

  ghost predicate EarnsWholePeriods(book: Book, init: Loop, start: nat, out: seq<Posting>)
    requires book.scale <= 6
  {
    forall i :: 0 <= i < |out| ==>
      out[i].amount == Earned(book, init, start, PeriodStart(book.rule, out[i].date), out[i].date + 1)
  }

  lemma StepFacts(book: Book, st: Loop, day: nat)
    requires book.scale <= 6
    ensures var st', earned := Step(book, st, day), st.pending + DayInterest(book, st, day);
            && (!ActiveOn(book.rule, day) ==> st'.pending == st.pending && st'.out == st.out)
            && (ActiveOn(book.rule, day) && !ShouldPost(book.rule, day) ==> st'.pending == earned && st'.out == st.out)
            && (ShouldPost(book.rule, day) ==>
                  st'.pending == 0 && st'.out == if earned > 0 then st.out + [Posting(day, earned)] else st.out)
  {
    hide DayInterest, IsLastActiveDayOfMonth, IsEndOfTerm;
  }

  lemma {:induction false} RunEarnsWholePeriods(book: Book, init: Loop, start: nat, day: nat)
    requires book.scale <= 6 && start <= day && init.pending == 0 && init.out == []
    requires ActiveOn(book.rule, start) ==> PeriodStart(book.rule, start) == start
    ensures var st := Run(book, init, start, day);
            && EarnsWholePeriods(book, init, start, st.out)
            && (day <= book.rule.startDate ==> st.pending == 0)
            && (ActiveOn(book.rule, day) ==> st.pending == Earned(book, init, start, PeriodStart(book.rule, day), day))
    decreases day
  {
    hide Step, DayInterest, PeriodStart, ShouldPost;
    if start < day {
      RunEarnsWholePeriods(book, init, start, day - 1);
      StepFacts(book, Run(book, init, start, day - 1), day - 1);
      if ActiveOn(book.rule, day - 1) {
        PeriodStartIsActive(book.rule, day - 1);
        if ActiveOn(book.rule, day) { NextDayPeriod(book.rule, day - 1); }
      } else {
        if ShouldPost(book.rule, day - 1) { PayoutIsActive(book.rule, day - 1); }
        FirstDayPeriod(book.rule);
      }
    }
  }

  /** Each recalculated amount is the sum of the daily interest over its whole accrual period, never
      over a part of it, whatever the history and even when the range cuts the period. */
  lemma RecalculationEarnsWholePeriods(book: Book, prior: seq<Posting>, from: nat, to: nat)
    requires book.scale <= 6
    ensures var start := StartOfCalculation(book.rule, from, to);
            EarnsWholePeriods(book, Start(book.rule, prior, start, to), start, Recalculated(book, prior, from, to).out)
  {
    hide ShouldPost, StartOfCalculation, Run, Earned, PeriodStart;
    var start := StartOfCalculation(book.rule, from, to);
    var init := Start(book.rule, prior, start, to);
    CalculationStartIsGood(book.rule, from, to);
    if ActiveOn(book.rule, start) && PeriodStart(book.rule, start) != start {
      NoPayoutsInLoop(book, init, start, to + 1);
    } else if start <= to + 1 {
      RunEarnsWholePeriods(book, init, start, to + 1);
    } else {
      NoPayoutsInLoop(book, init, start, to + 1);
    }
  }

  // ---- Compounding dominance

  lemma RatesArePositive(rule: Rule, day: nat)
    requires ValidRule(rule)
    ensures EffectiveRateBps(rule, day) > 0
  {
  }

  /** More principal never earns less on a day. */
  lemma DailyInterestGrows(rule: Rule, scale: nat, balance: int, more: int, day: nat)
    requires ValidRule(rule) && scale <= 6 && balance <= more
    ensures DailyInterest(rule, scale, balance, day) <= DailyInterest(rule, scale, more, day)
  {
    hide DailyInterestAmount, ActiveOn, DaysInYear, EffectiveRateBps;
    if balance > 0 {
      RatesArePositive(rule, day);
      DailyInterestMonotone(balance, more, EffectiveRateBps(rule, day), DaysInYear(rule.dayCount, day), scale);
    }
  }

  function WithCapitalization(book: Book, frequency: CapitalizationFrequency): Book {
    book.(rule := book.rule.(capitalization := frequency))
  }

  /** The recalculation of a fresh account under a capitalization frequency. */
  function Fresh(book: Book, frequency: CapitalizationFrequency, from: nat, until: nat): Loop
    requires book.scale <= 6
  {
    Run(WithCapitalization(book, frequency), Loop(0, [], [], [], 0), from, until)
  }

  /** The capitalization frequency changes neither activity, payout days, rates nor periods. */
  lemma SameCalendar(book: Book, frequency: CapitalizationFrequency, balance: int, day: nat)
    requires book.scale <= 6
    ensures var rule := WithCapitalization(book, frequency).rule;
            && ActiveOn(rule, day) == ActiveOn(book.rule, day)
            && ShouldPost(rule, day) == ShouldPost(book.rule, day)
            && DailyInterest(rule, book.scale, balance, day) == DailyInterest(book.rule, book.scale, balance, day)
  {
    hide DailyInterestAmount, Calendar.MonthEnd, DaysInYear;
  }

  /** What a fresh run keeps: principal never exceeds what was paid out, equals it when it
      capitalizes daily, and is nothing while a term runs or without capitalization. */
  ghost predicate FreshState(rule: Rule, st: Loop, day: nat) {
    && Before(st.working, day) && Before(st.waiting, day)
    && 0 <= Total(st.waiting) && 0 <= Total(st.working)
    && Total(st.working) + Total(st.waiting) <= Total(st.out)
    && (rule.capitalization == CapitalizeDaily ==> Total(st.working) == Total(st.out))
    && (rule.capitalization == NoCapitalization ==> st.working == [])
    && (rule.capitalization == CapitalizeEndOfTerm && (rule.endDate.Some? ==> day <= rule.endDate.value) ==>
          st.working == [])
  }

  lemma FreshPayout(rule: Rule, st: Loop, amount: nat, day: nat)
    requires FreshState(rule, st, day) && ActiveOn(rule, day)
    ensures var p := Posting(day, amount);
            FreshState(rule, Capitalize(rule, st.(out := st.out + [p], pending := 0), p, day), day + 1)
  {
    hide Total, IsLastActiveDayOfMonth;
    var p := Posting(day, amount);
    TotalSnoc(st.out, p);
    TotalSnoc(st.working, p);
    TotalSnoc(st.waiting, p);
    TotalConcat(st.working, st.waiting + [p]);
    TotalOfNone();
  }

  lemma TotalOfNone()
    ensures Total([]) == 0
  {
  }

  lemma FreshStep(book: Book, st: Loop, day: nat)
    requires book.scale <= 6 && FreshState(book.rule, st, day)
    ensures FreshState(book.rule, Step(book, st, day), day + 1)
  {
    hide DayInterest, ShouldPost, Total, Capitalize;
    if ActiveOn(book.rule, day) {
      var amount := DayInterest(book, st, day);
      var st1 := if amount > 0 then st.(pending := st.pending + amount) else st.(skipped := st.skipped + 1);
      FreshPayout(book.rule, st1, st1.pending, day);
    }
  }

  /** When one frequency's principal can never be behind the other's. */
  predicate Leads(ahead: CapitalizationFrequency, behind: CapitalizationFrequency) {
    ahead == CapitalizeDaily || behind in {NoCapitalization, CapitalizeEndOfTerm}
  }

  ghost predicate Dominates(a: Loop, b: Loop) {
    && Total(b.out) <= Total(a.out)
    && Total(b.out) + b.pending <= Total(a.out) + a.pending
  }

  lemma PrincipalLeads(a: Book, b: Book, ahead: Loop, behind: Loop, day: nat)
    requires Leads(a.rule.capitalization, b.rule.capitalization) && ActiveOn(b.rule, day)
    requires FreshState(a.rule, ahead, day) && FreshState(b.rule, behind, day) && Total(behind.out) <= Total(ahead.out)
    ensures TotalUpTo(behind.working, day) <= TotalUpTo(ahead.working, day)
  {
    AllCounted(behind.working, day);
    AllCounted(ahead.working, day);
    TotalOfNone();
  }

  lemma DominanceStep(book: Book, f: CapitalizationFrequency, g: CapitalizationFrequency, a: Loop, b: Loop, day: nat)
    requires book.scale <= 6 && ValidRule(book.rule) && Leads(f, g) && Dominates(a, b)
    requires FreshState(WithCapitalization(book, f).rule, a, day)
            && FreshState(WithCapitalization(book, g).rule, b, day)
    ensures Dominates(Step(WithCapitalization(book, f), a, day), Step(WithCapitalization(book, g), b, day))
  {
    hide Step, Total, FreshState, TotalUpTo, DailyInterest, BaseBalance, ShouldPost, ActiveOn;
    var bf, bg := WithCapitalization(book, f), WithCapitalization(book, g);
    StepFacts(bf, a, day);
    StepFacts(bg, b, day);
    var x := BaseBalance(book.base, day) + TotalUpTo(a.working, day);
    var y := BaseBalance(book.base, day) + TotalUpTo(b.working, day);
    SameCalendar(book, f, x, day);
    SameCalendar(book, g, y, day);
    if ShouldPost(book.rule, day) { PayoutIsActive(book.rule, day); }
    if ActiveOn(book.rule, day) {
      PrincipalLeads(bf, bg, a, b, day);
      DailyInterestGrows(book.rule, book.scale, y, x, day);
      TotalSnoc(a.out, Posting(day, a.pending + DayInterest(bf, a, day)));
      TotalSnoc(b.out, Posting(day, b.pending + DayInterest(bg, b, day)));
    }
  }

  lemma FreshStart(rule: Rule, day: nat)
    ensures FreshState(rule, Loop(0, [], [], [], 0), day)
    ensures Dominates(Loop(0, [], [], [], 0), Loop(0, [], [], [], 0))
  {
    TotalOfNone();
  }

  lemma {:induction false} FreshRunsDominate(book: Book, f: CapitalizationFrequency, g: CapitalizationFrequency,
      from: nat, until: nat)
    requires book.scale <= 6 && ValidRule(book.rule) && Leads(f, g) && from <= until
    ensures Dominates(Fresh(book, f, from, until), Fresh(book, g, from, until))
    ensures FreshState(WithCapitalization(book, f).rule, Fresh(book, f, from, until), until)
    ensures FreshState(WithCapitalization(book, g).rule, Fresh(book, g, from, until), until)
    decreases until
  {
    hide FreshState, Dominates, Step;
    if until == from {
      FreshStart(WithCapitalization(book, f).rule, from);
      FreshStart(WithCapitalization(book, g).rule, from);
    } else {
      FreshRunsDominate(book, f, g, from, until - 1);
      FreshStep(WithCapitalization(book, f), Fresh(book, f, from, until - 1), until - 1);
      FreshStep(WithCapitalization(book, g), Fresh(book, g, from, until - 1), until - 1);
      DominanceStep(book, f, g, Fresh(book, f, from, until - 1), Fresh(book, g, from, until - 1), until - 1);
    }
  }

  lemma {:induction false} SameFirstDay(book: Book, f: CapitalizationFrequency, from: nat, day: nat, to: nat)
    requires book.scale <= 6
    ensures FirstPayoutStart(WithCapitalization(book, f).rule, from, day, to) ==
            FirstPayoutStart(book.rule, from, day, to)
    decreases 1 + to - day
  {
    hide ShouldPost;
    if day <= to {
      SameCalendar(book, f, 0, day);
      SameFirstDay(book, f, from, day + 1, to);
    }
  }

  /** Total interest of a recalculation without earlier accruals. */
  function FreshInterest(book: Book, f: CapitalizationFrequency, from: nat, to: nat): int
    requires book.scale <= 6
  {
    Total(Recalculated(WithCapitalization(book, f), [], from, to).out)
  }

  lemma FreshInterestIsRun(book: Book, f: CapitalizationFrequency, from: nat, to: nat)
    requires book.scale <= 6
    ensures FreshInterest(book, f, from, to) ==
            Total(Fresh(book, f, StartOfCalculation(book.rule, from, to), to + 1).out)
  {
    hide Run, Total;
    SameFirstDay(book, f, from, from, to);
  }

  /** For the same base ledger, range and accrual frequency, capitalizing daily earns at least as much
      as monthly, monthly at least as much as never, and at the end of the term exactly as never. */
  lemma CompoundingDominance(book: Book, from: nat, to: nat)
    requires book.scale <= 6 && ValidRule(book.rule) && from <= to
    ensures FreshInterest(book, CapitalizeDaily, from, to) >= FreshInterest(book, CapitalizeMonthly, from, to)
    ensures FreshInterest(book, CapitalizeMonthly, from, to) >= FreshInterest(book, NoCapitalization, from, to)
    ensures FreshInterest(book, CapitalizeEndOfTerm, from, to) == FreshInterest(book, NoCapitalization, from, to)
  {
    hide StartOfCalculation, FreshInterest, Fresh, ShouldPost;
    var start := StartOfCalculation(book.rule, from, to);
    CalculationStartIsGood(book.rule, from, to);
    FreshInterestIsRun(book, CapitalizeDaily, from, to);
    FreshInterestIsRun(book, CapitalizeMonthly, from, to);
    FreshInterestIsRun(book, CapitalizeEndOfTerm, from, to);
    FreshInterestIsRun(book, NoCapitalization, from, to);
    FreshRunsDominate(book, CapitalizeDaily, CapitalizeMonthly, start, to + 1);
    FreshRunsDominate(book, CapitalizeMonthly, NoCapitalization, start, to + 1);
    FreshRunsDominate(book, CapitalizeEndOfTerm, NoCapitalization, start, to + 1);
    FreshRunsDominate(book, NoCapitalization, CapitalizeEndOfTerm, start, to + 1);
  }

  // ---- Period tiling

  /** Accrual attempts on the given days, in that order. */
  ghost function AccrueOn(book: Book, days: seq<nat>): seq<Posting>
    requires book.scale <= 6
  {
    if days == [] then []
    else AccrueDay(book, AccrueOn(book, days[..|days| - 1]), days[|days| - 1])
  }

  ghost predicate IncreasingDays(days: seq<nat>) {
    forall i, j :: 0 <= i < j < |days| ==> days[i] < days[j]
  }

  /** The first day not charged by earlier payouts. */
  ghost function FirstUncharged(rule: Rule, posts: seq<Posting>): nat {
    if posts == [] then rule.startDate else posts[|posts| - 1].date + 1
  }

  /** A payout charges the days since the payout before it, or since the rule started. */
  ghost predicate ChargesSince(book: Book, posts: seq<Posting>, p: Posting)
    requires book.scale <= 6
  {
    && FirstUncharged(book.rule, posts) <= p.date
    && NextPeriodStart(book.rule, posts, p.date) == FirstUncharged(book.rule, posts)
    && p.amount == PeriodInterestAsOf(book, posts, p.date, FirstUncharged(book.rule, posts), p.date + 1)
  }

  ghost predicate ChargesSincePrevious(book: Book, posts: seq<Posting>)
    requires book.scale <= 6
  {
    forall i :: 0 <= i < |posts| ==> ChargesSince(book, posts[..i], posts[i])
  }

  lemma NextStartAfterLast(rule: Rule, posts: seq<Posting>, day: nat)
    requires rule.accrual != AccrueDaily && Increasing(posts) && Before(posts, day) && rule.startDate <= day
    requires forall i :: 0 <= i < |posts| ==> rule.startDate <= posts[i].date
    ensures NextPeriodStart(rule, posts, day) == FirstUncharged(rule, posts) <= day
  {
    LatestStartIsDayAfterLast(rule.startDate, posts, day);
    if posts != [] {
      assert posts[|posts| - 1].date < NextPeriodStart(rule, posts, day);
    }
  }

  lemma ChargesSnoc(book: Book, posts: seq<Posting>, p: Posting)
    requires book.scale <= 6 && ChargesSincePrevious(book, posts) && ChargesSince(book, posts, p)
    ensures ChargesSincePrevious(book, posts + [p])
  {
    hide ChargesSince;
    var next := posts + [p];
    assert next[..|posts|] == posts;
    forall i | 0 <= i < |next| ensures ChargesSince(book, next[..i], next[i]) {
      if i < |posts| { assert next[..i] == posts[..i]; }
    }
  }

  lemma AttemptCharges(book: Book, posts: seq<Posting>, day: nat)
    requires book.scale <= 6 && book.rule.accrual != AccrueDaily
    requires Increasing(posts) && Before(posts, day) && ChargesSincePrevious(book, posts)
    requires forall i :: 0 <= i < |posts| ==> book.rule.startDate <= posts[i].date
    ensures var next := AccrueDay(book, posts, day);
            && Increasing(next) && Before(next, day + 1) && ChargesSincePrevious(book, next)
            && forall i :: 0 <= i < |next| ==> book.rule.startDate <= next[i].date
  {
    hide ShouldPost, PeriodInterestAsOf, NextPeriodStart, ChargesSincePrevious;
    if AccrueDay(book, posts, day) != posts {
      PayoutIsActive(book.rule, day);
      NextStartAfterLast(book.rule, posts, day);
      ChargesSnoc(book, posts, Posting(day, AmountDue(book, posts, day)));
    }
  }

  /** On any increasing choice of days, monthly and term rules charge consecutive stretches. */
  lemma {:induction false} IncreasingRunsCharge(book: Book, days: seq<nat>)
    requires book.scale <= 6 && book.rule.accrual != AccrueDaily && IncreasingDays(days)
    ensures var posts := AccrueOn(book, days);
            && Increasing(posts) && ChargesSincePrevious(book, posts)
            && (forall i :: 0 <= i < |posts| ==> book.rule.startDate <= posts[i].date)
            && (days != [] ==> Before(posts, days[|days| - 1] + 1)) && (days == [] ==> posts == [])
  {
    hide AccrueDay, ChargesSincePrevious;
    if days == [] {
      NothingCharged(book);
    } else {
      var n := |days| - 1;
      IncreasingRunsCharge(book, days[..n]);
      assert Before(AccrueOn(book, days[..n]), days[n]);
      AttemptCharges(book, AccrueOn(book, days[..n]), days[n]);
    }
  }

  lemma NothingCharged(book: Book)
    requires book.scale <= 6
    ensures ChargesSincePrevious(book, [])
  {
  }

  /** Such stretches tile: every day from the rule start to the last payout is charged exactly once. */
  lemma EveryDayChargedOnce(book: Book, days: seq<nat>, day: nat) returns (k: nat)
    requires book.scale <= 6 && book.rule.accrual != AccrueDaily && IncreasingDays(days)
    requires var posts := AccrueOn(book, days);
             posts != [] && book.rule.startDate <= day <= posts[|posts| - 1].date
    ensures var posts := AccrueOn(book, days);
            k < |posts| && forall i :: 0 <= i < |posts| ==>
              (FirstUncharged(book.rule, posts[..i]) <= day <= posts[i].date <==> i == k)
  {
    hide AccrueOn, ChargesSincePrevious;
    IncreasingRunsCharge(book, days);
    var posts := AccrueOn(book, days);
    k := 0;
    while posts[k].date < day
      invariant k < |posts|
      invariant forall i :: 0 <= i < k ==> posts[i].date < day
      decreases |posts| - k
    {
      k := k + 1;
    }
    assert FirstUncharged(book.rule, posts[..k]) <= day;
    forall i | k < i < |posts| ensures day < FirstUncharged(book.rule, posts[..i]) {
      assert posts[k].date <= posts[i - 1].date;
    }
  }

  // ---- What a late capitalization does

  const LATE_RULE := Rule(1, 1, 3650, None, None, AccrueDaily, CapitalizeMonthly, Actual365, true, 29, None)

  /** One unit of a currency without minor units. */
  const UNIT: int := 1_000_000_000_000_000_000

  /** 100000 arrives on 30 January of year 1 and leaves on the 31st; 450 arrive on 1 February. */
  const LATE_BOOK := Book(LATE_RULE, 0, [Flow(29, 100_000 * UNIT), Flow(30, -100_000 * UNIT), Flow(31, 450 * UNIT)])

  lemma LateCalendar()
    ensures LastActiveDayOfMonth(LATE_RULE, 29) == 30
    ensures LastActiveDayOfMonth(LATE_RULE, 30) == 30
    ensures LastActiveDayOfMonth(LATE_RULE, 31) == 58
  {
    Calendar.MonthIsUnique(29, 1, 1);
    Calendar.MonthIsUnique(30, 1, 1);
    Calendar.MonthIsUnique(31, 1, 2);
  }

  lemma LateInterest()
    ensures DailyInterest(LATE_RULE, 0, 100_000 * UNIT, 29) == 100 * UNIT
    ensures DailyInterest(LATE_RULE, 0, 450 * UNIT, 31) == 0
    ensures DailyInterest(LATE_RULE, 0, 550 * UNIT, 31) == UNIT
  {
    assert Pow10(4) == 10_000;
    Pow10Add(4, 4);
    Pow10Add(8, 8);
    assert Pow10(16) == 10_000_000_000_000_000;
    PowersOfTen();
    Pow10Add(2, 16);
  }

  lemma LateBase()
    ensures BaseBalance(LATE_BOOK.base, 29) == 100_000 * UNIT
    ensures BaseBalance(LATE_BOOK.base, 30) == 0
    ensures BaseBalance(LATE_BOOK.base, 31) == 450 * UNIT
  {
    var a, b, c := Flow(29, 100_000 * UNIT), Flow(30, -100_000 * UNIT), Flow(31, 450 * UNIT);
    assert [a, b, c][..2] == [a, b] && [a, b][..1] == [a] && [a][..0] == [];
    forall day: nat
      ensures BaseBalance([a, b, c], day) ==
              (if 29 <= day then 100_000 * UNIT else 0) - (if 30 <= day then 100_000 * UNIT else 0)
              + (if 31 <= day then 450 * UNIT else 0)
    {
      assert BaseBalance([a], day) == BaseBalance([], day) + if 29 <= day then a.delta else 0;
      assert BaseBalance([a, b], day) == BaseBalance([a], day) + if 30 <= day then b.delta else 0;
    }
  }

  lemma LatePrincipal()
    ensures var p := Posting(29, 100 * UNIT);
            && Principal(LATE_RULE, [p], 30, 30) == 0
            && Principal(LATE_RULE, [p], 31, 31) == 100 * UNIT
  {
    LateCalendar();
    PrincipalSnoc(LATE_RULE, [], Posting(29, 100 * UNIT), 30, 30);
    PrincipalSnoc(LATE_RULE, [], Posting(29, 100 * UNIT), 31, 31);
    assert [] + [Posting(29, 100 * UNIT)] == [Posting(29, 100 * UNIT)];
  }

  lemma LateDays()
    ensures Interest(LATE_BOOK, [], 29) == 100 * UNIT
    ensures Interest(LATE_BOOK, [Posting(29, 100 * UNIT)], 30) == 0
    ensures Interest(LATE_BOOK, [Posting(29, 100 * UNIT)], 31) == UNIT
  {
    hide BaseBalance, Principal, DailyInterestAmount;
    LateBase();
    LatePrincipal();
    LateInterest();
    NoPrincipal(LATE_RULE, 29);
  }

  lemma DailyPayout(book: Book, posts: seq<Posting>, day: nat)
    requires book.scale <= 6 && book.rule.accrual == AccrueDaily && ActiveOn(book.rule, day)
    ensures Payout(book, posts, day) ==
            if Interest(book, posts, day) > 0 then [Posting(day, Interest(book, posts, day))] else []
  {
    hide Interest;
    EmptyPeriod(book, posts, day);
  }

  lemma LateSchedule()
    ensures Schedule(LATE_BOOK, [], 29, 30) == [Posting(29, 100 * UNIT)]
    ensures Schedule(LATE_BOOK, [], 29, 31) == [Posting(29, 100 * UNIT)]
    ensures Schedule(LATE_BOOK, [], 29, 32) == [Posting(29, 100 * UNIT), Posting(31, UNIT)]
  {
    hide Interest, Payout;
    LateDays();
    var p := Posting(29, 100 * UNIT);
    DailyPayout(LATE_BOOK, [], 29);
    DailyPayout(LATE_BOOK, [p], 30);
    DailyPayout(LATE_BOOK, [p], 31);
    assert Schedule(LATE_BOOK, [], 29, 29) == [] == [] + Schedule(LATE_BOOK, [], 29, 29);
    assert Schedule(LATE_BOOK, [], 29, 30) == [p] == [] + [p];
    assert Schedule(LATE_BOOK, [], 29, 31) == [p];
  }

  lemma LateLoopInterest(st: Loop)
    requires st.working == []
    ensures DayInterest(LATE_BOOK, st, 29) == 100 * UNIT
    ensures DayInterest(LATE_BOOK, st, 30) == 0
    ensures DayInterest(LATE_BOOK, st, 31) == 0
  {
    hide DailyInterest, BaseBalance;
    LateBase();
    LateInterest();
    EmptyAccount(LATE_RULE, 30);
  }

  lemma LateBatch()
    ensures Recalculated(LATE_BOOK, [], 29, 31).out == [Posting(29, 100 * UNIT)]
  {
    hide DayInterest, LastActiveDayOfMonth;
    LateCalendar();
    var p := Posting(29, 100 * UNIT);
    var st0 := Loop(0, [], [], [], 0);
    LateLoopInterest(st0);
    var st1 := Step(LATE_BOOK, st0, 29);
    assert st1 == Loop(0, [], [p], [p], 0);
    LateLoopInterest(st1);
    var st2 := Step(LATE_BOOK, st1, 30);
    assert st2 == Loop(0, [], [p], [p], 1);
    LateLoopInterest(st2);
    assert Step(LATE_BOOK, st2, 31).out == [p];
    ThreeSteps(LATE_BOOK, st0, 29);
  }

  lemma ThreeSteps(book: Book, st: Loop, day: nat)
    requires book.scale <= 6
    ensures Run(book, st, day, day + 3) == Step(book, Step(book, Step(book, st, day), day + 1), day + 2)
  {
    hide Step;
    assert Run(book, st, day, day) == st;
    assert Run(book, st, day, day + 1) == Step(book, st, day);
    assert Run(book, st, day, day + 2) == Step(book, Step(book, st, day), day + 1);
  }

  lemma EmptyAccount(rule: Rule, day: nat)
    ensures DailyInterest(rule, 0, 0, day) == 0
  {
  }

  /** Without the flush condition the two ways can differ: 31 January earns nothing, so the payout of
      the 30th is principal on 1 February day by day, and is not in the batch. */
  lemma LateFlushChangesInterest()
    ensures AccrueDays(LATE_BOOK, [], 29, 32) == [Posting(29, 100 * UNIT), Posting(31, UNIT)]
    ensures Recalculated(LATE_BOOK, [], 29, 31).out == [Posting(29, 100 * UNIT)]
    ensures !FlushesOnTime(LATE_BOOK, [], 29, 31)
  {
    hide Schedule, AccrueDays, Recalculated, FlushesOnTime;
    LateSchedule();
    LateBatch();
    DailyAttemptsFollowSchedule(LATE_BOOK, 32);
    LateNotFlushed();
  }

  /** Nor does splitting hold without it: recalculating up to 31 January first and 1 February after it
      starts the second calculation with the payout of the 30th as principal. */
  lemma LateFlushBreaksSplitting()
    ensures Replaced(LATE_BOOK, Replaced(LATE_BOOK, [], 29, 30), 31, 31) == [Posting(29, 100 * UNIT), Posting(31, UNIT)]
    ensures Replaced(LATE_BOOK, [], 29, 31) == [Posting(29, 100 * UNIT)]
    ensures !FlushesOnTime(LATE_BOOK, [], 29, 31)
  {
    hide Schedule, Recalculated, FlushesOnTime, OnSchedule, Replaced;
    var p := Posting(29, 100 * UNIT);
    LateSchedule();
    LateParts();
    LateLists();
    OneReplacement(LATE_BOOK, [], 29, 30);
    OneReplacement(LATE_BOOK, [p], 31, 31);
    ScheduleSplit(LATE_BOOK, [], 29, 31, 32);
    assert [] + [p] == [p];
    assert ([p] + Schedule(LATE_BOOK, [p], 31, 32))[1..] == Schedule(LATE_BOOK, [p], 31, 32);
    LateWhole();
    LateNotFlushed();
  }

  lemma LateLists()
    ensures forall from, to :: Outside([], from, to) == []
    ensures forall day :: Earlier([], day) == []
    ensures Outside([Posting(29, 100 * UNIT)], 31, 31) == Earlier([Posting(29, 100 * UNIT)], 31) ==
            [Posting(29, 100 * UNIT)]
  {
    var p := Posting(29, 100 * UNIT);
    OutsideFacts([p], 31, 31);
    EarlierFacts([p], 31);
  }

  /** Each part by itself capitalizes on time. */
  lemma LateParts()
    ensures FlushesOnTime(LATE_BOOK, [], 29, 30) && FlushesOnTime(LATE_BOOK, [Posting(29, 100 * UNIT)], 31, 31)
    ensures OnSchedule(LATE_RULE, []) && OnSchedule(LATE_RULE, [Posting(29, 100 * UNIT)])
  {
    hide Interest, CapitalizationDate;
    assert Schedule(LATE_BOOK, [], 29, 29) == [];
    assert [] + Schedule(LATE_BOOK, [], 29, 29) == [];
  }

  lemma LateWhole()
    ensures Replaced(LATE_BOOK, [], 29, 31) == [Posting(29, 100 * UNIT)]
  {
    hide Recalculated;
    LateBatch();
    LateLists();
    assert [] + [Posting(29, 100 * UNIT)] == [Posting(29, 100 * UNIT)];
  }

  lemma LateNotFlushed()
    ensures !FlushesOnTime(LATE_BOOK, [], 29, 31)
  {
    hide Schedule, Interest, CapitalizationDate;
    LateSchedule();
    LateDays();
    var posts := [] + Schedule(LATE_BOOK, [], 29, 30);
    assert posts == [Posting(29, 100 * UNIT)];
    LateDue();
    assert CapitalizationDate(LATE_RULE, posts[0].date) == Some(30);
  }

  lemma LateDue()
    ensures CapitalizationDate(LATE_RULE, 29) == Some(30)
  {
    LateCalendar();
  }
}
