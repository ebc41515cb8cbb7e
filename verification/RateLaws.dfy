/** What a day earns in closed form, and that a promotional rule is two plain rules, one on either side of
    the end of the promotion. */
module RateLaws {
  import opened Calendar
  import opened Money
  import opened Options
  import opened InterestRules
  import opened InterestSchedule
  import opened BatchRecalculation

  // ---- A day in closed form

  /** Days a year counts for: 365, 366, or as many as the calendar gives the year of the day. */
  function YearBasis(convention: DayCount, day: nat): int {
    match convention
    case Actual365 => 365
    case Actual366 => 366
    case ActualActual => YearStart(YearOf(day) + 1) - YearStart(YearOf(day))
  }

  /** The rate in force: the promotional one up to and including the last day of the promotion. */
  function RateInForce(rule: Rule, day: nat): int {
    match (rule.promoRateBps, rule.promoEndDate)
    case (Some(promo), Some(last)) => if last < day then rule.annualRateBps else promo
    case _ => rule.annualRateBps
  }

  /** On whole minor units an active day earns minor units times the rate in force over 10000 times the days
      of the year, rounded once; an inactive day or an overdrawn account earns nothing. */
  lemma DayInClosedForm(rule: Rule, scale: nat, minor: int, day: nat)
    requires ValidRule(rule) && scale <= 6
    ensures DailyInterest(rule, scale, minor * Pow10(18 - scale), day) ==
            if ActiveOn(rule, day) && minor > 0
            then RoundHalfAway(minor * RateInForce(rule, day),
              10_000 * YearBasis(rule.dayCount, day)) * Pow10(18 - scale)
            else 0
  {
    hide RoundHalfAway, Pow10, ActiveOn, DailyInterestAmount, YearStart, YearOf;
    var unit := Pow10(18 - scale);
    YearsCount(rule.dayCount, day);
    if minor > 0 {
      ProductsPositive(minor, unit);
      WholeUnitsRoundOnce(minor, RateInForce(rule, day), YearBasis(rule.dayCount, day), scale);
      var n, d := minor * RateInForce(rule, day), 10_000 * YearBasis(rule.dayCount, day);
      ProductsNonNegative(minor, RateInForce(rule, day));
      RoundingNonNegative(n, d);
      ProductsNonNegative(RoundHalfAway(n, d), unit);
    } else {
      ProductsNonNegative(-minor, unit);
      assert (-minor) * unit == -(minor * unit);
    }
  }

  lemma YearsCount(convention: DayCount, day: nat)
    ensures YearBasis(convention, day) == DaysInYear(convention, day)
  {
    ActualYearLength(day);
  }

  // ---- A promotional rule is two plain ones

  /** The rule with one rate for good. */
  function AtRate(rule: Rule, rateBps: int): Rule {
    rule.(annualRateBps := rateBps, promoRateBps := None, promoEndDate := None)
  }

  lemma PlainRate(rule: Rule, rateBps: int, day: nat)
    ensures RateInForce(AtRate(rule, rateBps), day) == rateBps
    ensures EffectiveRateBps(rule, day) == RateInForce(rule, day)
  {
  }

  /** Each day of a rule earns what a plain rule at the rate in force earns. */
  lemma DayAtOneRate(rule: Rule, scale: nat, balance: int, day: nat)
    requires scale <= 6
    ensures DailyInterest(rule, scale, balance, day) ==
            DailyInterest(AtRate(rule, RateInForce(rule, day)), scale, balance, day)
  {
    hide DailyInterestAmount;
    PlainRate(rule, RateInForce(rule, day), day);
    PlainRate(AtRate(rule, RateInForce(rule, day)), 0, day);
  }

  /** The rate in force is the same on all days of a stretch. */
  ghost predicate OneRate(rule: Rule, rateBps: int, from: nat, until: nat) {
    forall d: nat :: from <= d < until ==> RateInForce(rule, d) == rateBps
  }

  lemma {:induction false} PeriodAtOneRate(book: Book, posts: seq<Posting>, rateBps: int, from: nat, until: nat)
    requires book.scale <= 6 && OneRate(book.rule, rateBps, from, until)
    ensures PeriodInterest(book, posts, from, until) ==
            PeriodInterest(book.(rule := AtRate(book.rule, rateBps)), posts, from, until)
    decreases until
  {
    hide DailyInterest, BaseBalance, Principal;
    if from < until {
      var day := until - 1;
      PeriodAtOneRate(book, posts, rateBps, from, day);
      SamePrincipal(book.rule, posts, rateBps, day, day);
      DayAtOneRate(book.rule, book.scale, BaseBalance(book.base, day) + Principal(book.rule, posts, day, day), day);
    }
  }

  lemma {:induction false} SamePrincipal(rule: Rule, posts: seq<Posting>, rateBps: int, asOf: nat, day: nat)
    ensures Principal(AtRate(rule, rateBps), posts, asOf, day) == Principal(rule, posts, asOf, day)
  {
    if posts != [] {
      SamePrincipal(rule, posts[..|posts| - 1], rateBps, asOf, day);
    }
  }

  /** Payout periods from a day on, up to the last payout before `until`, lie in one stretch. */
  ghost predicate PaysAtOneRate(rule: Rule, rateBps: int, from: nat, until: nat) {
    forall d: nat :: from <= d < until && ShouldPost(rule, d) ==> OneRate(rule, rateBps, PeriodStart(rule, d), d + 1)
  }

  /** Wherever all payouts of a range are of one rate, the scheduled payouts are those of the plain rule. */
  lemma {:induction false} ScheduleAtOneRate(book: Book, prior: seq<Posting>, rateBps: int, from: nat, until: nat)
    requires book.scale <= 6 && PaysAtOneRate(book.rule, rateBps, from, until)
    ensures Schedule(book, prior, from, until) ==
            Schedule(book.(rule := AtRate(book.rule, rateBps)), prior, from, until)
    decreases until
  {
    hide PeriodInterest, OneRate, MonthStart, MonthEnd;
    if from < until {
      var day := until - 1;
      ScheduleAtOneRate(book, prior, rateBps, from, day);
      if ShouldPost(book.rule, day) {
        PeriodAtOneRate(book, prior + Schedule(book, prior, from, day), rateBps, PeriodStart(book.rule, day), until);
      }
    }
  }

  lemma StepAtOneRate(book: Book, st: Loop, rateBps: int, day: nat)
    requires book.scale <= 6 && RateInForce(book.rule, day) == rateBps
    ensures Step(book.(rule := AtRate(book.rule, rateBps)), st, day) == Step(book, st, day)
  {
    hide DailyInterest, BaseBalance, TotalUpTo;
    DayAtOneRate(book.rule, book.scale, BaseBalance(book.base, day) + TotalUpTo(st.working, day), day);
  }

  lemma {:induction false} RunAtOneRate(book: Book, st: Loop, rateBps: int, from: nat, until: nat)
    requires book.scale <= 6 && OneRate(book.rule, rateBps, from, until)
    ensures Run(book.(rule := AtRate(book.rule, rateBps)), st, from, until) == Run(book, st, from, until)
    decreases until
  {
    hide Step, RateInForce;
    if from < until {
      RunAtOneRate(book, st, rateBps, from, until - 1);
      StepAtOneRate(book, Run(book, st, from, until - 1), rateBps, until - 1);
    }
  }

  lemma {:induction false} SameStart(rule: Rule, prior: seq<Posting>, rateBps: int, start: nat, to: nat)
    ensures Start(AtRate(rule, rateBps), prior, start, to) == Start(rule, prior, start, to)
  {
    if prior != [] {
      SameStart(rule, prior[..|prior| - 1], rateBps, start, to);
    }
  }

  lemma {:induction false} SameFirstPayout(rule: Rule, rateBps: int, from: nat, day: nat, to: nat)
    ensures FirstPayoutStart(AtRate(rule, rateBps), from, day, to) == FirstPayoutStart(rule, from, day, to)
    decreases 1 + to - day
  {
    if day <= to {
      SameFirstPayout(rule, rateBps, from, day + 1, to);
    }
  }

  /** A recalculation that stays on one side of the end of a promotion is that of the plain rule, at the
      promotional rate up to the end and at the annual rate after it. */
  lemma RecalculationAtOneRate(book: Book, prior: seq<Posting>, from: nat, to: nat)
    requires book.scale <= 6 && book.rule.promoRateBps.Some? && book.rule.promoEndDate.Some?
    ensures var rule, start := book.rule, StartOfCalculation(book.rule, from, to);
            && (to <= rule.promoEndDate.value ==>
                  Recalculated(book, prior, from, to) ==
                  Recalculated(book.(rule := AtRate(rule, rule.promoRateBps.value)), prior, from, to))
            && (rule.promoEndDate.value < start ==>
                  Recalculated(book, prior, from, to) ==
                  Recalculated(book.(rule := AtRate(rule, rule.annualRateBps)), prior, from, to))
  {
    hide Run, Start, FirstPayoutStart;
    var rule, start := book.rule, StartOfCalculation(book.rule, from, to);
    var promo, annual := rule.promoRateBps.value, rule.annualRateBps;
    SameFirstPayout(rule, promo, from, from, to);
    SameFirstPayout(rule, annual, from, from, to);
    SameStart(rule, prior, promo, start, to);
    SameStart(rule, prior, annual, start, to);
    if to <= rule.promoEndDate.value {
      RunAtOneRate(book, Start(rule, prior, start, to), promo, start, to + 1);
    }
    if rule.promoEndDate.value < start {
      RunAtOneRate(book, Start(rule, prior, start, to), annual, start, to + 1);
    }
  }

  /** The same for the schedule, and so for day-by-day accrual. */
  lemma ScheduleOnOneSide(book: Book, prior: seq<Posting>, from: nat, until: nat)
    requires book.scale <= 6 && book.rule.promoRateBps.Some? && book.rule.promoEndDate.Some?
    ensures var rule := book.rule;
            until <= rule.promoEndDate.value + 1 ==>
              Schedule(book, prior, from, until) ==
              Schedule(book.(rule := AtRate(rule, rule.promoRateBps.value)), prior, from, until)
    ensures var rule := book.rule;
            (forall d: nat :: from <= d < until && ShouldPost(rule, d) ==>
              rule.promoEndDate.value < PeriodStart(rule, d)) ==>
              Schedule(book, prior, from, until) ==
              Schedule(book.(rule := AtRate(rule, rule.annualRateBps)), prior, from, until)
  {
    hide Schedule, ShouldPost, PeriodStart;
    var rule := book.rule;
    if until <= rule.promoEndDate.value + 1 {
      ScheduleAtOneRate(book, prior, rule.promoRateBps.value, from, until);
    }
    if forall d: nat :: from <= d < until && ShouldPost(rule, d) ==> rule.promoEndDate.value < PeriodStart(rule, d) {
      ScheduleAtOneRate(book, prior, rule.annualRateBps, from, until);
    }
  }
}
