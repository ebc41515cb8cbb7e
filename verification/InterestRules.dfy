/** An interest rule and what it says about a calendar day: whether it is active, pays out or
    capitalizes, at which rate, and which period a payout covers. */
module InterestRules {
  import opened Calendar
  import opened Options
  import opened Transactions

  datatype AccrualFrequency = AccrueDaily | AccrueMonthly | AccrueEndOfTerm

  /** An unset capitalization frequency behaves as `NoCapitalization` everywhere. */
  datatype CapitalizationFrequency =
    | CapitalizeDaily | CapitalizeMonthly | CapitalizeEndOfTerm | NoCapitalization

  datatype DayCount = Actual365 | Actual366 | ActualActual

  datatype Rule = Rule(
    id: Id,
    account: Id,
    annualRateBps: int,
    promoRateBps: Option<int>,
    promoEndDate: Option<nat>,
    accrual: AccrualFrequency,
    capitalization: CapitalizationFrequency,
    dayCount: DayCount,
    isActive: bool,
    startDate: nat,
    endDate: Option<nat>)

  /** The configuration check every stored rule has passed. */
  predicate ValidRule(rule: Rule) {
    && rule.annualRateBps > 0
    && (rule.promoRateBps.Some? ==> rule.promoRateBps.value > 0)
  }

  function MinDate(a: nat, b: nat): nat { if a < b then a else b }

  function MaxDate(a: nat, b: nat): nat { if a > b then a else b }

  predicate ActiveOn(rule: Rule, day: nat) {
    rule.startDate <= day && (rule.endDate.Some? ==> day <= rule.endDate.value)
  }

  function LastActiveDayOfMonth(rule: Rule, day: nat): nat {
    if rule.endDate.Some? then MinDate(MonthEnd(day), rule.endDate.value) else MonthEnd(day)
  }

  predicate IsLastActiveDayOfMonth(rule: Rule, day: nat) {
    LastActiveDayOfMonth(rule, day) == day
  }

  predicate IsEndOfTerm(rule: Rule, day: nat) {
    rule.endDate == Some(day)
  }

  predicate ShouldPost(rule: Rule, day: nat) {
    && ActiveOn(rule, day)
    && match rule.accrual
       case AccrueDaily => true
       case AccrueMonthly => IsLastActiveDayOfMonth(rule, day)
       case AccrueEndOfTerm => IsEndOfTerm(rule, day)
  }

  predicate ShouldCapitalize(rule: Rule, day: nat) {
    match rule.capitalization
    case CapitalizeDaily => true
    case CapitalizeMonthly => IsLastActiveDayOfMonth(rule, day)
    case CapitalizeEndOfTerm => IsEndOfTerm(rule, day)
    case NoCapitalization => false
  }

  /** The day an accrual dated `day` becomes principal, if it ever does. */
  function CapitalizationDate(rule: Rule, day: nat): Option<nat> {
    if !ActiveOn(rule, day) then None
    else match rule.capitalization
      case CapitalizeDaily => Some(day)
      case CapitalizeMonthly => Some(LastActiveDayOfMonth(rule, day))
      case CapitalizeEndOfTerm => rule.endDate
      case NoCapitalization => None
  }

  /** Whether an accrual dated `day` counts as principal on `asOf`. */
  predicate CapitalizedBefore(rule: Rule, day: nat, asOf: nat) {
    var c := CapitalizationDate(rule, day);
    c.Some? && c.value < asOf
  }

  /** First day of the accrual period that is paid out on `day`. */
  function PeriodStart(rule: Rule, day: nat): nat {
    match rule.accrual
    case AccrueDaily => day
    case AccrueMonthly => MaxDate(rule.startDate, MonthStart(day))
    case AccrueEndOfTerm => rule.startDate
  }

  function EffectiveRateBps(rule: Rule, day: nat): int {
    if rule.promoRateBps.Some? && rule.promoEndDate.Some? && day <= rule.promoEndDate.value
    then rule.promoRateBps.value
    else rule.annualRateBps
  }

  function DaysInYear(convention: DayCount, day: nat): (n: int)
    ensures n in {365, 366}
  {
    match convention
    case Actual365 => 365
    case Actual366 => 366
    case ActualActual => if IsLeapYear(YearOf(day)) then 366 else 365
  }

  /** An accrual capitalizes on an active capitalization day, never before its own date. */
  lemma CapitalizationDateIsDue(rule: Rule, day: nat)
    requires CapitalizationDate(rule, day).Some?
    ensures var c := CapitalizationDate(rule, day).value;
            day <= c && ActiveOn(rule, c) && ShouldCapitalize(rule, c)
  {
    hide MonthStart, MonthEnd;
    if rule.capitalization == CapitalizeMonthly {
      SameMonth(day, LastActiveDayOfMonth(rule, day));
    }
  }

  /** And on the first such day: no active capitalization day comes in between. */
  lemma CapitalizesAtFirstChance(rule: Rule, day: nat, chance: nat)
    requires ActiveOn(rule, day) && ActiveOn(rule, chance) && day <= chance && ShouldCapitalize(rule, chance)
    ensures CapitalizationDate(rule, day).Some? && CapitalizationDate(rule, day).value <= chance
  {
    hide MonthStart, MonthEnd;
    if rule.capitalization == CapitalizeMonthly {
      MonthsOrdered(day, chance);
    }
  }

  ghost predicate PaidOn(rule: Rule, day: nat, payout: nat) {
    ShouldPost(rule, payout) && PeriodStart(rule, payout) <= day <= payout
  }

  /** An active day's interest is paid out by a payout whose period holds the day, unless it belongs to a
      term without an end, and then never. */
  lemma EveryActiveDayIsPaid(rule: Rule, day: nat)
    requires ActiveOn(rule, day)
    ensures (exists payout :: PaidOn(rule, day, payout)) <==> !(rule.accrual == AccrueEndOfTerm && rule.endDate.None?)
  {
    hide MonthStart, MonthEnd;
    match rule.accrual
    case AccrueDaily => assert PaidOn(rule, day, day);
    case AccrueMonthly =>
      var payout := LastActiveDayOfMonth(rule, day);
      SameMonth(day, payout);
      assert PaidOn(rule, day, payout);
    case AccrueEndOfTerm => assert rule.endDate.Some? ==> PaidOn(rule, day, rule.endDate.value);
  }

  /** The yearly rate changes at most once, from the promotional to the regular one at the promo's end. */
  lemma RateChangesOnce(rule: Rule, day: nat, later: nat)
    requires day <= later && EffectiveRateBps(rule, day) != EffectiveRateBps(rule, later)
    ensures rule.promoEndDate.Some? && day <= rule.promoEndDate.value < later
    ensures rule.promoRateBps == Some(EffectiveRateBps(rule, day))
            && EffectiveRateBps(rule, later) == rule.annualRateBps
  {
  }

  /** The actual convention divides by the number of days the calendar gives the day's year. */
  lemma ActualYearLength(day: nat)
    ensures DaysInYear(ActualActual, day) == YearStart(YearOf(day) + 1) - YearStart(YearOf(day))
  {
  }

  lemma PayoutIsActive(rule: Rule, day: nat)
    requires ShouldPost(rule, day)
    ensures ActiveOn(rule, day)
  {
  }

  /** A payout period ends on its payout day and holds no other payout day. */
  lemma PeriodHoldsOnePayout(rule: Rule, day: nat, other: nat)
    requires ShouldPost(rule, day)
    ensures rule.startDate <= PeriodStart(rule, day) <= day
    ensures ShouldPost(rule, other) && PeriodStart(rule, day) <= other <= day ==> other == day
  {
    hide MonthStart, MonthEnd;
    if rule.accrual == AccrueMonthly && ShouldPost(rule, other) && PeriodStart(rule, day) <= other <= day {
      SameMonth(day, other);
    }
  }

  /** Periods tile the active days: the day after a day of a period is in the same period, or the
      day was its payout day and a new period starts. */
  lemma NextDayPeriod(rule: Rule, day: nat)
    requires ActiveOn(rule, day) && ActiveOn(rule, day + 1)
    ensures PeriodStart(rule, day + 1) == if ShouldPost(rule, day) then day + 1 else PeriodStart(rule, day)
  {
    hide MonthStart, MonthEnd;
    if rule.accrual == AccrueMonthly {
      if day == MonthEnd(day) {
        NextMonth(day);
      } else {
        SameMonth(day, day + 1);
      }
    }
  }

  /** Every active day belongs to a period that starts on an active day. */
  lemma PeriodStartIsActive(rule: Rule, day: nat)
    requires ActiveOn(rule, day)
    ensures PeriodStart(rule, day) <= day && ActiveOn(rule, PeriodStart(rule, day))
    ensures rule.accrual == AccrueDaily || PeriodStart(rule, PeriodStart(rule, day)) == PeriodStart(rule, day)
  {
    hide MonthStart, MonthEnd;
    if rule.accrual == AccrueMonthly {
      SameMonth(day, PeriodStart(rule, day));
    }
  }

  /** The first payout day at or after an active day closes that day's period. */
  lemma PeriodOfNextPayout(rule: Rule, day: nat, payout: nat)
    requires ActiveOn(rule, day) && ShouldPost(rule, payout) && day <= payout
    requires forall d :: day <= d < payout ==> !ShouldPost(rule, d)
    ensures PeriodStart(rule, payout) == PeriodStart(rule, day) || rule.accrual == AccrueDaily
    ensures PeriodStart(rule, payout) <= day
  {
    hide MonthStart, MonthEnd;
    if rule.accrual == AccrueMonthly {
      var last := LastActiveDayOfMonth(rule, day);
      SameMonth(day, last);
      assert ShouldPost(rule, last);
      assert payout <= last;
      SameMonth(day, payout);
    } else if rule.accrual == AccrueDaily {
      assert ShouldPost(rule, day);
    }
  }

  /** Payouts of one period or term never separate a monthly or term payout from its
      capitalization: whether an earlier payout is principal is settled by the day after it. */
  lemma PayoutSettled(rule: Rule, payout: nat, day: nat, later: nat)
    requires ShouldPost(rule, payout) && rule.accrual != AccrueDaily
    requires payout < day <= later && ActiveOn(rule, later)
    ensures CapitalizedBefore(rule, payout, day) == CapitalizedBefore(rule, payout, later)
  {
    hide MonthStart, MonthEnd;
  }
}
