/** The proleptic Gregorian calendar as day numbers: day 0 is 1 January of year 1.

    Only what the interest rules read off a date is defined here: its year (for the
    day count), and the first and the last day of its month. */
module Calendar {

  predicate IsLeapYear(year: int) {
    year % 4 == 0 && (year % 100 != 0 || year % 400 == 0)
  }

  function YearLength(year: int): int {
    if IsLeapYear(year) then 366 else 365
  }

  /** Days before 1 January of the given year. */
  function YearStart(year: nat): (d: nat)
    requires 1 <= year
    ensures d >= 365 * (year - 1)
  {
    if year == 1 then 0 else YearStart(year - 1) + YearLength(year - 1)
  }

  const DAYS_BEFORE_MONTH := [0, 31, 59, 90, 120, 151, 181, 212, 243, 273, 304, 334, 365]

  /** Days of the year before the first of the given month; month 13 is the whole year. */
  function MonthOffset(year: int, month: nat): nat
    requires 1 <= month <= 13
  {
    DAYS_BEFORE_MONTH[month - 1] + if IsLeapYear(year) && month > 2 then 1 else 0
  }

  /** First day of a month; month 13 is January of the next year, as Go normalises it. */
  function FirstOfMonth(year: nat, month: nat): nat
    requires 1 <= year && 1 <= month <= 13
  {
    YearStart(year) + MonthOffset(year, month)
  }

  function YearFrom(year: nat, day: nat): (y: nat)
    requires 1 <= year && YearStart(year) <= day
    ensures y >= year && YearStart(y) <= day < YearStart(y + 1)
    decreases day - YearStart(year)
  {
    if day < YearStart(year + 1) then year else YearFrom(year + 1, day)
  }

  /** The year a day belongs to. */
  function YearOf(day: nat): (y: nat)
    ensures 1 <= y && YearStart(y) <= day < YearStart(y + 1)
  {
    YearFrom(1, day)
  }

  function MonthFrom(year: nat, month: nat, day: nat): (m: nat)
    requires 1 <= year && 1 <= month <= 12
    requires FirstOfMonth(year, month) <= day < YearStart(year + 1)
    ensures month <= m <= 12
    ensures FirstOfMonth(year, m) <= day < FirstOfMonth(year, m + 1)
    decreases 12 - month
  {
    if day < FirstOfMonth(year, month + 1) then month else MonthFrom(year, month + 1, day)
  }

  /** The month, 1 to 12, a day belongs to. */
  function MonthOf(day: nat): (m: nat)
    ensures 1 <= m <= 12
    ensures FirstOfMonth(YearOf(day), m) <= day < FirstOfMonth(YearOf(day), m + 1)
  {
    MonthFrom(YearOf(day), 1, day)
  }

  function MonthStart(day: nat): (d: nat)
    ensures d <= day
  {
    FirstOfMonth(YearOf(day), MonthOf(day))
  }

  function MonthEnd(day: nat): (d: nat)
    ensures day <= d
  {
    FirstOfMonth(YearOf(day), MonthOf(day) + 1) - 1
  }

  /** February has 28 or 29 days; April, June, September and November have 30, and the others 31. */
  lemma MonthLengths(year: nat, month: nat)
    requires 1 <= year && 1 <= month <= 12
    ensures FirstOfMonth(year, 1) == YearStart(year) && FirstOfMonth(year, 13) == YearStart(year + 1)
    ensures FirstOfMonth(year, month + 1) - FirstOfMonth(year, month) ==
            if month == 2 then if IsLeapYear(year) then 29 else 28
            else if month in {4, 6, 9, 11} then 30
            else 31
  {
  }

  /** So a month runs from its first day to its last, that many days. */
  lemma MonthHasItsLength(day: nat)
    ensures var year, month := YearOf(day), MonthOf(day);
            MonthEnd(day) + 1 - MonthStart(day) ==
            if month == 2 then if IsLeapYear(year) then 29 else 28
            else if month in {4, 6, 9, 11} then 30
            else 31
  {
    hide YearOf, MonthOf, FirstOfMonth, IsLeapYear;
    MonthLengths(YearOf(day), MonthOf(day));
  }

  lemma YearStartMonotone(y: nat, z: nat)
    requires 1 <= y <= z
    ensures YearStart(y) <= YearStart(z)
    decreases z - y
  {
    if y < z { YearStartMonotone(y, z - 1); }
  }

  lemma FirstOfMonthMonotone(year: nat, m: nat, n: nat)
    requires 1 <= year && 1 <= m <= n <= 13
    ensures FirstOfMonth(year, m) <= FirstOfMonth(year, n)
    decreases n - m
  {
    if m < n { FirstOfMonthMonotone(year, m, n - 1); }
  }

  lemma YearIsUnique(day: nat, year: nat)
    requires 1 <= year && YearStart(year) <= day < YearStart(year + 1)
    ensures YearOf(day) == year
  {
    var y := YearOf(day);
    if y < year { YearStartMonotone(y + 1, year); }
    if year < y { YearStartMonotone(year + 1, y); }
  }

  /** A day lies in exactly one calendar month. */
  lemma MonthIsUnique(day: nat, year: nat, month: nat)
    requires 1 <= year && 1 <= month <= 12
    requires FirstOfMonth(year, month) <= day < FirstOfMonth(year, month + 1)
    ensures YearOf(day) == year && MonthOf(day) == month
  {
    assert YearStart(year) <= day < YearStart(year + 1) by {
      FirstOfMonthMonotone(year, 1, month);
      FirstOfMonthMonotone(year, month + 1, 13);
    }
    YearIsUnique(day, year);
    var m := MonthOf(day);
    if m < month { FirstOfMonthMonotone(year, m + 1, month); }
    if month < m { FirstOfMonthMonotone(year, month + 1, m); }
  }

  /** Every day of a month has that month's first and last day. */
  lemma SameMonth(day: nat, other: nat)
    requires MonthStart(day) <= other <= MonthEnd(day)
    ensures MonthStart(other) == MonthStart(day) && MonthEnd(other) == MonthEnd(day)
  {
    MonthIsUnique(other, YearOf(day), MonthOf(day));
  }

  lemma FirstOfMonthStartsIt(year: nat, month: nat)
    requires 1 <= year && 1 <= month <= 12
    ensures MonthStart(FirstOfMonth(year, month)) == FirstOfMonth(year, month)
  {
    assert FirstOfMonth(year, month) < FirstOfMonth(year, month + 1);
    MonthIsUnique(FirstOfMonth(year, month), year, month);
  }

  /** Months tile the calendar: the day after a month's end starts the next month. */
  lemma NextMonth(day: nat)
    ensures MonthStart(MonthEnd(day) + 1) == MonthEnd(day) + 1
  {
    hide YearOf, MonthOf, FirstOfMonth;
    FollowingMonth(YearOf(day), MonthOf(day));
  }

  lemma FollowingMonth(year: nat, month: nat)
    requires 1 <= year && 1 <= month <= 12
    ensures MonthStart(FirstOfMonth(year, month + 1)) == FirstOfMonth(year, month + 1)
  {
    hide MonthStart, FirstOfMonth;
    if month < 12 {
      FirstOfMonthStartsIt(year, month + 1);
    } else {
      FirstOfMonthStartsIt(year + 1, 1);
      YearsAdjoin(year);
    }
  }

  lemma YearsAdjoin(year: nat)
    requires 1 <= year
    ensures FirstOfMonth(year, 13) == FirstOfMonth(year + 1, 1)
  {
  }

  /** Two days are in one month, or the earlier month ends before the later one starts. */
  lemma MonthsOrdered(day: nat, later: nat)
    requires day <= later
    ensures || (MonthStart(day) == MonthStart(later) && MonthEnd(day) == MonthEnd(later))
            || MonthEnd(day) < MonthStart(later)
  {
    if later <= MonthEnd(day) {
      SameMonth(day, later);
    } else if MonthStart(later) <= MonthEnd(day) {
      SameMonth(later, MonthEnd(day));
      SameMonth(day, MonthEnd(day));
    }
  }

  /** The closed form of the year start: one leap day every 4 years, less centuries, plus every 4th. */
  lemma {:induction false} YearStartClosedForm(year: nat)
    requires 1 <= year
    ensures var n := year - 1; YearStart(year) == 365 * n + n / 4 - n / 100 + n / 400
  {
    if year > 1 {
      hide IsLeapYear;
      YearStartClosedForm(year - 1);
      LeapDaysStep(year - 1);
    }
  }

  lemma LeapDaysStep(n: nat)
    requires 1 <= n
    ensures n / 4 - n / 100 + n / 400 ==
            (n - 1) / 4 - (n - 1) / 100 + (n - 1) / 400 + if IsLeapYear(n) then 1 else 0
  {
    QuotientStep(n, 4);
    QuotientStep(n, 100);
    QuotientStep(n, 400);
    CenturiesAreMultiples(n);
  }

  lemma CenturiesAreMultiples(n: nat)
    ensures n % 400 == 0 ==> n % 100 == 0
    ensures n % 100 == 0 ==> n % 4 == 0
  {
    if n % 400 == 0 { assert n == 100 * (4 * (n / 400)); }
    if n % 100 == 0 { assert n == 4 * (25 * (n / 100)); }
  }

  lemma QuotientStep(n: nat, k: nat)
    requires 1 <= n && k in {4, 100, 400}
    ensures n / k == (n - 1) / k + if n % k == 0 then 1 else 0
  {
  }
}
