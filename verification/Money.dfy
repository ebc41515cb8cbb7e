/** Money as integers at the storage scale, and the rounding applied to a day's interest.

    An amount is a whole number of 10^-18 units, the scale of the NUMERIC(38,18)
    columns. The decimal library rounds half away from zero, `Div` to 16 fractional
    digits and `Round` to the given scale; that is taken as its meaning here. */
module Money {

  /** 10^12 in storage units: the largest amount a transaction may carry. */
  const MAX_AMOUNT: int := 1_000_000_000_000_000_000_000_000_000_000

  const CURRENCY_SCALES: map<string, nat> := map[
    "BHD" := 3, "BIF" := 0, "CLF" := 4, "CLP" := 0, "DJF" := 0, "GNF" := 0, "IQD" := 3,
    "ISK" := 0, "JOD" := 3, "JPY" := 0, "KMF" := 0, "KRW" := 0, "KWD" := 3, "LYD" := 3,
    "OMR" := 3, "PYG" := 0, "RWF" := 0, "TND" := 3, "UGX" := 0, "USDT" := 6, "UYI" := 0,
    "VND" := 0, "VUV" := 0, "XAF" := 0, "XOF" := 0, "XPF" := 0]

  function CurrencyScale(currency: string): (scale: nat)
    ensures scale <= 6
  {
    if currency in CURRENCY_SCALES then CURRENCY_SCALES[currency] else 2
  }

  /** Currencies without minor units, with three digits, and the two special ones; all others have two. */
  lemma ScalesByCurrency(currency: string)
    ensures CurrencyScale(currency) ==
            if currency in {"BIF", "CLP", "DJF", "GNF", "ISK", "JPY", "KMF", "KRW", "PYG", "RWF", "UGX", "UYI", "VND",
                            "VUV", "XAF", "XOF", "XPF"} then 0
            else if currency in {"BHD", "IQD", "JOD", "KWD", "LYD", "OMR", "TND"} then 3
            else if currency == "CLF" then 4
            else if currency == "USDT" then 6
            else 2
  {
  }

  function Pow10(k: nat): (p: nat)
    ensures p >= 1
  {
    if k == 0 then 1 else 10 * Pow10(k - 1)
  }

  lemma {:induction false} Pow10Add(j: nat, k: nat)
    ensures Pow10(j + k) == Pow10(j) * Pow10(k)
  {
    if j > 0 {
      Pow10Add(j - 1, k);
      assert j + k - 1 == (j - 1) + k;
      var a, b := Pow10(j - 1), Pow10(k);
      assert 10 * (a * b) == (10 * a) * b;
    }
  }

  /** n/d rounded to an integer, halves away from zero. */
  function RoundHalfAway(n: int, d: int): int
    requires d > 0
  {
    if n >= 0 then (2 * n + d) / (2 * d) else -((d - 2 * n) / (2 * d))
  }

  /** What identifies the rounding of a non-negative quotient. */
  predicate RoundsTo(n: int, d: int, r: int) {
    2 * (r * d) <= 2 * n + d < 2 * (r * d) + 2 * d
  }

  lemma QuotientBounds(x: int, m: int)
    requires m > 0
    ensures m * (x / m) <= x < m * (x / m) + m
  {
  }

  lemma ProductsOrdered(m: int, a: int, b: int)
    requires m > 0
    ensures a <= b <==> m * a <= m * b
  {
  }

  lemma QuotientUnique(x: int, m: int, r: int)
    requires m > 0 && m * r <= x < m * r + m
    ensures x / m == r
  {
    var q := x / m;
    QuotientBounds(x, m);
    ProductsOrdered(m, q + 1, r);
    ProductsOrdered(m, r + 1, q);
  }

  /** `RoundHalfAway` on non-negative input is the only integer with `RoundsTo`. */
  lemma RoundingIsExact(n: int, d: int, r: int)
    requires d > 0 && n >= 0
    ensures RoundsTo(n, d, RoundHalfAway(n, d))
    ensures RoundsTo(n, d, r) ==> r == RoundHalfAway(n, d)
  {
    var q := RoundHalfAway(n, d);
    QuotientBounds(2 * n + d, 2 * d);
    assert 2 * d * q == 2 * (q * d);
    if RoundsTo(n, d, r) {
      assert 2 * d * r == 2 * (r * d);
      QuotientUnique(2 * n + d, 2 * d, r);
    }
  }

  lemma RoundingIsOdd(n: int, d: int)
    requires d > 0
    ensures RoundHalfAway(-n, d) == -RoundHalfAway(n, d)
  {
    if n == 0 { RoundingIsExact(0, d, 0); }
  }

  /** r is nearest to n/d, and of two nearest ones the one further from zero. */
  predicate IsNearest(n: int, d: int, r: int) {
    && -d <= 2 * (r * d - n) <= d
    && (2 * (r * d - n) == d ==> n > 0)
    && (2 * (r * d - n) == -d ==> n < 0)
  }

  /** Of either sign, rounding yields the one nearest integer, halves away from zero. */
  lemma RoundingIsNearest(n: int, d: int, r: int)
    requires d > 0
    ensures r == RoundHalfAway(n, d) <==> IsNearest(n, d, r)
  {
    hide RoundHalfAway;
    if n >= 0 {
      NearestRounds(n, d, r);
      NearestRounds(n, d, RoundHalfAway(n, d));
      RoundingIsExact(n, d, r);
    } else {
      RoundingIsOdd(n, d);
      RoundingIsExact(-n, d, -r);
      NearestRounds(-n, d, -r);
      assert (-r) * d == -(r * d);
    }
  }

  lemma NearestRounds(n: int, d: int, r: int)
    requires d > 0 && n >= 0
    ensures IsNearest(n, d, r) <==> RoundsTo(n, d, r)
  {
    if n == 0 && 2 * (r * d - n) == d {
      ProductsOrdered(d, r, 0);
      ProductsOrdered(d, 1, r);
    }
  }

  /** Rounding is off by at most one half. */
  lemma RoundingError(n: int, d: int)
    requires d > 0
    ensures -d <= 2 * (RoundHalfAway(n, d) * d - n) <= d
  {
    if n >= 0 {
      RoundingIsExact(n, d, 0);
    } else {
      RoundingIsExact(-n, d, 0);
      RoundingIsOdd(n, d);
      var r := RoundHalfAway(-n, d);
      assert RoundHalfAway(n, d) * d == -(r * d);
    }
  }

  lemma RoundingNonNegative(n: int, d: int)
    requires d > 0 && n >= 0
    ensures RoundHalfAway(n, d) >= 0
  {
    QuotientBounds(2 * n + d, 2 * d);
  }

  lemma RoundingMonotone(n: int, m: int, d: int)
    requires d > 0 && 0 <= n <= m
    ensures RoundHalfAway(n, d) <= RoundHalfAway(m, d)
  {
    var p, q := RoundHalfAway(n, d), RoundHalfAway(m, d);
    RoundingIsExact(n, d, p);
    RoundingIsExact(m, d, q);
    ProductsOrdered(d, q + 1, p);
    assert d * (q + 1) == q * d + d && d * p == p * d;
  }

  /** A common factor of numerator and denominator does not change the rounding. */
  lemma RoundingCancels(n: int, d: int, k: int)
    requires d > 0 && k > 0 && n >= 0
    ensures n * k >= 0 && d * k > 0
    ensures RoundHalfAway(n * k, d * k) == RoundHalfAway(n, d)
  {
    var r := RoundHalfAway(n, d);
    RoundingIsExact(n, d, r);
    ScaleRounds(n, d, r, k);
    RoundingIsExact(n * k, d * k, r);
  }

  lemma ScaleRounds(n: int, d: int, r: int, k: int)
    requires k > 0 && d > 0 && n >= 0 && RoundsTo(n, d, r)
    ensures n * k >= 0 && d * k > 0 && RoundsTo(n * k, d * k, r)
  {
    var lo, mid, hi := 2 * (r * d), 2 * n + d, 2 * (r * d) + 2 * d;
    ProductsOrdered(k, lo, mid);
    ProductsOrdered(k, hi, mid);
    ProductsNonNegative(n, k);
    ProductsNonNegative(d - 1, k);
    assert (d - 1) * k == d * k - k;
    assert k * lo == 2 * (r * (d * k));
    assert k * mid == 2 * (n * k) + d * k;
    assert k * hi == 2 * (r * (d * k)) + 2 * (d * k);
  }

  lemma RoundingShifts(k: nat, x: nat, d: int)
    requires d > 0
    ensures RoundHalfAway(k * d + x, d) == k + RoundHalfAway(x, d)
  {
    var r := RoundHalfAway(x, d);
    RoundingIsExact(x, d, r);
    assert (k + r) * d == k * d + r * d;
    assert k * d >= 0;
    RoundingIsExact(k * d + x, d, k + r);
  }

  /** A value at or below a unit rounds up from one half on. */
  lemma RoundsUpFromHalf(x: nat, p: int)
    requires 0 <= x <= p && p > 0
    ensures RoundHalfAway(x, p) == if 2 * x >= p then 1 else 0
  {
    RoundingIsExact(x, p, if 2 * x >= p then 1 else 0);
  }

  /** The first rounding carries a value to one half of the second from half a step below it. */
  lemma CarriedToHalf(x: nat, d: int, p: int)
    requires d > 0 && p > 0 && p % 2 == 0 && x <= d * p
    ensures 0 <= RoundHalfAway(x, d) <= p
    ensures 2 * RoundHalfAway(x, d) >= p <==> 2 * x >= d * p - d
  {
    var q, h := RoundHalfAway(x, d), p / 2;
    RoundingIsExact(x, d, q);
    RoundingNonNegative(x, d);
    assert p == 2 * h;
    assert d * p == 2 * (h * d);
    ProductsOrdered(d, q, p);
    ProductsOrdered(d, h, q);
    ProductsOrdered(d, p + 1, q);
    assert d * (p + 1) == d * p + d && d * q == q * d && d * h == h * d;
    ProductsOrdered(d, q + 1, h);
    assert d * (q + 1) == q * d + d;
  }

  /** Rounding to steps of d and then to p of them is one rounding to d * p, exactly when the remainder is
      not in the half step below one half, which the first rounding carries over it. */
  lemma RoundTwiceExactly(n: nat, d: int, p: int, m: int)
    requires d > 0 && p > 0 && p % 2 == 0 && m == d * p && m > 0
    ensures RoundHalfAway(RoundHalfAway(n, d), p) == RoundHalfAway(n, m) <==> !(m - d <= 2 * (n % m) < m)
  {
    hide RoundHalfAway;
    var k, x := n / m, n % m;
    QuotientBounds(n, m);
    assert n == m * k + x;
    RoundTwiceShifted(k, x, d, p, m);
  }

  lemma RoundTwiceShifted(k: nat, x: nat, d: int, p: int, m: int)
    requires d > 0 && p > 0 && p % 2 == 0 && m == d * p && x < m
    ensures RoundHalfAway(RoundHalfAway(m * k + x, d), p) == k + if 2 * x >= m - d then 1 else 0
    ensures RoundHalfAway(m * k + x, m) == k + if 2 * x >= m then 1 else 0
  {
    hide RoundHalfAway;
    CarriedToHalf(x, d, p);
    var q := RoundHalfAway(x, d);
    ProductsNonNegative(k, p);
    assert m * k == (k * p) * d;
    RoundingShifts(k * p, x, d);
    RoundingShifts(k, q, p);
    RoundsUpFromHalf(q, p);
    RoundingShifts(k, x, m);
    RoundsUpFromHalf(x, m);
  }

  /** One day's interest: balance times the yearly rate, divided by the days of the year to 16
      fractional digits, rounded to the currency scale. All amounts are in storage units. */
  function DailyInterestAmount(balance: int, rateBps: int, basis: int, scale: nat): int
    requires basis > 0 && scale <= 16
  {
    var quotient := RoundHalfAway(balance * rateBps, 1_000_000 * basis);
    RoundHalfAway(quotient, Pow10(16 - scale)) * Pow10(18 - scale)
  }

  /** More balance never earns less. */
  lemma DailyInterestMonotone(balance: int, more: int, rateBps: int, basis: int, scale: nat)
    requires basis > 0 && scale <= 16 && rateBps >= 0 && 0 <= balance <= more
    ensures 0 <= DailyInterestAmount(balance, rateBps, basis, scale)
              <= DailyInterestAmount(more, rateBps, basis, scale)
  {
    hide RoundHalfAway, Pow10;
    var d, p, u := 1_000_000 * basis, Pow10(16 - scale), Pow10(18 - scale);
    var n, m := balance * rateBps, more * rateBps;
    ProductsNonNegative(balance, rateBps);
    ProductsNonNegative(more - balance, rateBps);
    assert (more - balance) * rateBps == m - n;
    RoundingNonNegative(n, d);
    RoundingMonotone(n, m, d);
    var q, q' := RoundHalfAway(n, d), RoundHalfAway(m, d);
    RoundingNonNegative(q, p);
    RoundingMonotone(q, q', p);
    var r, r' := RoundHalfAway(q, p), RoundHalfAway(q', p);
    ProductsNonNegative(r, u);
    ProductsNonNegative(r' - r, u);
    assert (r' - r) * u == r' * u - r * u;
  }

  lemma ProductsNonNegative(a: int, b: int)
    requires a >= 0 && b >= 0
    ensures a * b >= 0
  {
  }

  lemma ProductsPositive(a: int, b: int)
    requires a > 0 && b > 0
    ensures a * b > 0
  {
  }

  /** The interest is a whole number of minor units, so posting it keeps the currency scale. */
  lemma DailyInterestIsWhole(balance: int, rateBps: int, basis: int, scale: nat)
    requires basis > 0 && scale <= 16
    ensures DailyInterestAmount(balance, rateBps, basis, scale) % Pow10(18 - scale) == 0
  {
    var quotient := RoundHalfAway(balance * rateBps, 1_000_000 * basis);
    MultipleDivides(RoundHalfAway(quotient, Pow10(16 - scale)), Pow10(18 - scale));
  }

  lemma MultipleDivides(k: int, u: int)
    requires u > 0
    ensures (k * u) % u == 0
  {
    QuotientUnique(k * u, u, k);
  }

  /** A day's interest with a single rounding of the exact rational. */
  function ExactDailyInterest(balance: int, rateBps: int, basis: int, scale: nat): int
    requires basis > 0 && scale <= 16
  {
    RoundHalfAway(balance * rateBps, 1_000_000 * basis * Pow10(16 - scale)) * Pow10(18 - scale)
  }

  /** The remainders that the division's rounding carries to one half of a minor unit. */
  predicate CarriesOver(balance: nat, rateBps: nat, basis: int, scale: nat)
    requires basis > 0 && scale <= 16
  {
    var d := 1_000_000 * basis;
    var m := d * Pow10(16 - scale);
    m - d <= 2 * ((balance * rateBps) % m) < m
  }

  /** The two roundings of a day's interest act as one exactly when the remainder is not carried over. */
  lemma DoubleRoundingExactly(balance: nat, rateBps: nat, basis: int, scale: nat)
    requires basis > 0 && scale <= 15
    ensures DailyInterestAmount(balance, rateBps, basis, scale) == ExactDailyInterest(balance, rateBps, basis, scale)
            <==> !CarriesOver(balance, rateBps, basis, scale)
  {
    hide RoundHalfAway, Pow10;
    var n, d, p, u := balance * rateBps, 1_000_000 * basis, Pow10(16 - scale), Pow10(18 - scale);
    assert p % 2 == 0 by { Pow10IsEven(16 - scale); }
    RoundTwiceExactly(n, d, p, d * p);
    var twice, once := RoundHalfAway(RoundHalfAway(n, d), p), RoundHalfAway(n, d * p);
    assert twice * u == once * u ==> twice == once by { MultipliedEqual(twice, once, u); }
  }

  /** The largest amount is a trillion units, whatever the currency. */
  lemma LargestAmount()
    ensures MAX_AMOUNT == Pow10(12) * Pow10(18)
  {
    hide Pow10;
    PowersOfTen();
    Pow10Add(6, 6);
    Pow10Add(9, 9);
  }

  lemma Pow10IsEven(k: nat)
    requires k >= 1
    ensures Pow10(k) % 2 == 0
  {
    assert Pow10(k) == 2 * (5 * Pow10(k - 1));
  }

  lemma MultipliedEqual(a: int, b: int, u: int)
    requires u > 0
    ensures a * u == b * u ==> a == b
  {
    ProductsOrdered(u, a, b);
    ProductsOrdered(u, b, a);
  }

  const BILLION := 1_000_000_000

  /** No multiple of a billion has a remainder in the last billion below a multiple of a billion. */
  lemma NothingCarried(c: nat, m: int, d: int)
    requires m > 0 && m % BILLION == 0 && 0 < d < BILLION
    ensures !(m - d <= 2 * ((BILLION * c) % m) < m)
  {
    var n := BILLION * c;
    var x, e := n % m, m / BILLION;
    assert n == (n / m) * m + x;
    assert (n / m) * m == BILLION * ((n / m) * e);
    var y := c - (n / m) * e;
    assert x == BILLION * y;
    if 2 * x < m {
      ProductsOrdered(BILLION, 2 * y, e - 1);
    }
  }

  /** Balances of up to nine decimals never feel the second rounding, whatever the currency scale. */
  lemma DoubleRoundingIsHarmless(billionths: nat, rateBps: nat, basis: int, scale: nat)
    requires basis in {365, 366} && scale <= 6
    ensures DailyInterestAmount(billionths * BILLION, rateBps, basis, scale)
         == ExactDailyInterest(billionths * BILLION, rateBps, basis, scale)
  {
    hide RoundHalfAway, DailyInterestAmount, ExactDailyInterest, Pow10;
    var balance := billionths * BILLION;
    var d, p := 1_000_000 * basis, Pow10(16 - scale);
    DivisorInBillions(basis, scale);
    assert balance * rateBps == BILLION * (billionths * rateBps);
    NothingCarried(billionths * rateBps, d * p, d);
    DoubleRoundingExactly(balance, rateBps, basis, scale);
  }

  lemma DivisorInBillions(basis: int, scale: nat)
    requires basis > 0 && scale <= 6
    ensures 1_000_000 * basis * Pow10(16 - scale) > 0
    ensures (1_000_000 * basis * Pow10(16 - scale)) % BILLION == 0
  {
    hide Pow10;
    Pow10Add(10 - scale, 6);
    PowersOfTen();
    var k := 1_000 * basis * Pow10(10 - scale);
    assert 1_000_000 * basis * Pow10(16 - scale) == k * BILLION;
    MultipleDivides(k, BILLION);
  }

  lemma PowersOfTen()
    ensures Pow10(2) == 100 && Pow10(6) == 1_000_000 && Pow10(9) == BILLION
  {
    assert Pow10(2) == 100;
    assert Pow10(4) == 10_000;
    assert Pow10(6) == 1_000_000;
    assert Pow10(8) == 100_000_000;
  }

  /** In particular on whole minor units, where the exact rational is that of the minor units. */
  lemma WholeUnitsRoundOnce(minor: nat, rateBps: nat, basis: int, scale: nat)
    requires basis in {365, 366} && scale <= 6
    ensures DailyInterestAmount(minor * Pow10(18 - scale), rateBps, basis, scale)
         == RoundHalfAway(minor * rateBps, 10_000 * basis) * Pow10(18 - scale)
  {
    hide RoundHalfAway, DailyInterestAmount, Pow10;
    var u, p := Pow10(18 - scale), Pow10(16 - scale);
    Pow10Add(9, 9 - scale);
    Pow10Add(2, 16 - scale);
    PowersOfTen();
    assert minor * u == (minor * Pow10(9 - scale)) * BILLION;
    DoubleRoundingIsHarmless(minor * Pow10(9 - scale), rateBps, basis, scale);
    assert (minor * u) * rateBps == (minor * rateBps) * u;
    assert 1_000_000 * basis * p == (10_000 * basis) * u;
    RoundingCancels(minor * rateBps, 10_000 * basis, u);
  }

  /** The condition is needed: 182.499999999998905 at 1% for a day is under half a hundredth, is carried
      to exactly half by the division, and is then rounded up. */
  lemma DoubleRoundingCanHurt()
    ensures var balance := 182_499_999_999_998_905_000;
            && CarriesOver(balance, 100, 365, 2)
            && DailyInterestAmount(balance, 100, 365, 2) == Pow10(16)
            && ExactDailyInterest(balance, 100, 365, 2) == 0
  {
    assert Pow10(14) == 100_000_000_000_000 by { Pow10Add(8, 6); PowersOfTen(); assert Pow10(8) == 100_000_000; }
  }

  /** One day: the balance in minor units, the rate, and the length of the year. */
  datatype DayTerms = DayTerms(minor: nat, rateBps: nat, leap: bool) {
    function Numerator(): nat { minor * rateBps }
    function Denominator(): int { if leap then 3_660_000 else 3_650_000 }
  }

  /** What the engine posts over a number of days, in storage units. */
  function Posted(days: seq<DayTerms>, scale: nat): int
    requires scale <= 6
  {
    if days == [] then 0
    else
      var day := days[0];
      DailyInterestAmount(day.minor * Pow10(18 - scale), day.rateBps, if day.leap then 366 else 365, scale) +
        Posted(days[1..], scale)
  }

  ghost function ExactUnits(days: seq<DayTerms>): real {
    if days == [] then 0.0
    else Quotient(days[0].Numerator(), days[0].Denominator()) + ExactUnits(days[1..])
  }

  ghost function Quotient(n: int, d: int): real
    requires d > 0
  {
    n as real / d as real
  }

  /** n days of interest differ from the exact sum by at most n/2 minor units: the posted total is a
      whole number of them, that far from the exact one. */
  lemma {:induction false} RoundingDrift(days: seq<DayTerms>, scale: nat) returns (units: int)
    requires scale <= 6
    ensures Posted(days, scale) == units * Pow10(18 - scale)
    ensures -(|days| as real) <= 2.0 * (units as real - ExactUnits(days)) <= |days| as real
  {
    hide RoundHalfAway, DailyInterestAmount, Pow10, Quotient;
    if days == [] {
      units := 0;
    } else {
      var day := days[0];
      var rest := RoundingDrift(days[1..], scale);
      var r := RoundHalfAway(day.Numerator(), day.Denominator());
      WholeUnitsRoundOnce(day.minor, day.rateBps, if day.leap then 366 else 365, scale);
      OneDayDrift(day.Numerator(), day.Denominator());
      units := r + rest;
      assert units * Pow10(18 - scale) == r * Pow10(18 - scale) + rest * Pow10(18 - scale);
    }
  }

  lemma OneDayDrift(n: int, d: int)
    requires d > 0
    ensures -1.0 <= 2.0 * (RoundHalfAway(n, d) as real - Quotient(n, d)) <= 1.0
  {
    RoundingError(n, d);
    var r := RoundHalfAway(n, d);
    GapInHalves(r as real, n as real, d as real, r * d);
  }

  lemma GapInHalves(r: real, n: real, d: real, product: int)
    requires d > 0.0 && product as real == r * d
    requires -d <= 2.0 * (r * d - n) <= d
    ensures -1.0 <= 2.0 * (r - n / d) <= 1.0
  {
    var gap := 2.0 * (r - n / d);
    assert gap * d == 2.0 * (r * d - n);
    RealProductsOrdered(d, gap, 1.0);
    RealProductsOrdered(d, -1.0, gap);
  }

  lemma RealProductsOrdered(m: real, a: real, b: real)
    requires m > 0.0
    ensures a <= b <==> a * m <= b * m
  {
  }
}
