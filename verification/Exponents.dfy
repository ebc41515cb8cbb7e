/** Reading an amount, plain or with an exponent such as 1.5e-7, exactly. */
module ExponentNotation {
  import opened Money
  import opened Options
  import opened DecimalStrings

  predicate IsMark(c: char) {
    c == 'e' || c == 'E'
  }

  function BeforeMark(s: string): (r: string)
    ensures r <= s && forall i :: 0 <= i < |r| ==> !IsMark(r[i])
    ensures |r| < |s| ==> IsMark(s[|r|])
  {
    if s == "" || IsMark(s[0]) then "" else [s[0]] + BeforeMark(s[1..])
  }

  predicate HasMark(s: string) {
    |BeforeMark(s)| < |s|
  }

  /** The text between the first mark and the next one, if any. */
  function AfterMark(s: string): string {
    if HasMark(s) then BeforeMark(s[|BeforeMark(s)| + 1..]) else ""
  }

  /** An empty exponent counts as zero. */
  function ParseExponent(text: string): Option<int> {
    if text == "" then Some(0)
    else
      var signed := text[0] == '-' || text[0] == '+';
      var digits := if signed then text[1..] else text;
      if digits != "" && AllDigits(digits) then Some(Signed(text[0] == '-', DigitsValue(digits))) else None
  }

  /** The zeros a text ends in go, and with them a point right before them. */
  function DropZeros(s: string): string {
    var t := StripTrailingZeros(s);
    if |t| < |s| && t != "" && t[|t| - 1] == '.' then t[..|t| - 1] else t
  }

  function Sign(negative: bool): string {
    if negative then "-" else ""
  }

  /** Moves the decimal point as the exponent says; other text stays as it is. */
  function PlainDecimalString(s: string): string {
    var u := Unsigned(s);
    var exponent := ParseExponent(AfterMark(u));
    if !HasMark(u) || exponent.None? then s
    else
      MovePoint(Negative(s), BeforeDot(BeforeMark(u)), AfterDot(BeforeMark(u)), exponent.value)
  }

  function MovePoint(negative: bool, whole: string, fraction: string, exponent: int): string {
    var digits, point := whole + fraction, |whole| + exponent;
    if point <= 0 then DropZeros(Sign(negative) + "0" + "." + (Zeros(-point) + digits))
    else if point >= |digits| then Sign(negative) + (digits + Zeros(point - |digits|))
    else DropZeros(Sign(negative) + digits[..point] + "." + digits[point..])
  }

  // ---- What can be read

  predicate IsNumberChar(c: char) {
    IsDigit(c) || c == '.' || IsMark(c) || c == '+' || c == '-'
  }

  /** A plain coefficient, a mark and a whole exponent. */
  predicate Scientific(s: string) {
    var u := Unsigned(s);
    && HasMark(u) && Plain(Coefficient(s)) && !Negative(BeforeMark(u)) && ParseExponent(AfterMark(u)).Some?
    && forall i :: 0 <= i < |u| ==> IsNumberChar(u[i])
  }

  function Coefficient(s: string): string {
    Sign(Negative(s)) + BeforeMark(Unsigned(s))
  }

  function Exponent(s: string): int
    requires Scientific(s)
  {
    ParseExponent(AfterMark(Unsigned(s))).value
  }

  /** Text that can be read as an amount. */
  predicate Readable(value: string) {
    Plain(Cleaned(value)) || Scientific(Cleaned(value))
  }

  function DecimalParts(value: string): Decimal
    requires Readable(value)
  {
    NormalIsReadable(value);
    Read(PlainDecimalString(NormalizeMoney(value)))
  }

  /** The amount a readable string denotes. */
  function Amount(value: string): real
    requires Readable(value)
  {
    Value(DecimalParts(value))
  }

  // ---- Cleaning readable text

  lemma {:induction false} NoCommas(s: string)
    requires forall i :: 0 <= i < |s| ==> s[i] != ','
    ensures CommaToDot(s) == s
  {
    if s != "" {
      NoCommas(s[1..]);
    }
  }

  lemma PlainIsClean(s: string)
    requires Plain(s)
    ensures Cleaned(s) == s && Readable(s)
  {
    forall i | 0 <= i < |s| ensures s[i] != ',' && !IsSpace(s[i]) {
      assert i > 0 && Negative(s) ==> s[i] == Unsigned(s)[i - 1];
      assert !Negative(s) ==> s[i] == Unsigned(s)[i];
    }
    NoCommas(s);
  }

  lemma ScientificIsClean(s: string)
    requires Scientific(s)
    ensures Cleaned(s) == s && Readable(s)
  {
    hide MoneyPattern, Plain, Coefficient, AfterMark, ParseExponent, HasMark;
    forall i | 0 <= i < |s| ensures s[i] != ',' && !IsSpace(s[i]) {
      assert i > 0 && Negative(s) ==> s[i] == Unsigned(s)[i - 1];
      assert !Negative(s) ==> s[i] == Unsigned(s)[i];
    }
    NoCommas(s);
  }

  lemma PlainHasNoMark(s: string)
    requires Plain(s)
    ensures !HasMark(Unsigned(s)) && PlainDecimalString(s) == s
  {
    var u := Unsigned(s);
    assert |BeforeMark(u)| < |u| ==> IsMark(u[|BeforeMark(u)|]);
  }

  lemma ScientificStays(value: string)
    requires Scientific(Cleaned(value))
    ensures NormalizeMoney(value) == Cleaned(value)
  {
    hide Plain, Cleaned;
    var s := Cleaned(value);
    if MoneyPattern(s) {
      PatternIsPlain(s);
      PlainHasNoMark(s);
    }
  }

  // ---- Moving the point

  lemma {:induction false} StripAfterPoint(head: string, fraction: string)
    ensures StripTrailingZeros(head + "." + fraction) == head + "." + StripTrailingZeros(fraction)
  {
    var s := head + "." + fraction;
    if fraction == "" {
      assert s[|s| - 1] == '.';
    } else {
      var n := |fraction| - 1;
      assert s[|s| - 1] == fraction[n];
      if fraction[n] == '0' {
        assert s[..|s| - 1] == head + "." + fraction[..n];
        StripAfterPoint(head, fraction[..n]);
      }
    }
  }

  /** Text with a point, less the zeros it ends in, reads as the number around the point. */
  lemma PointReads(negative: bool, whole: string, fraction: string)
    requires AllDigits(whole) && AllDigits(fraction) && whole != ""
    ensures var text := DropZeros(Sign(negative) + whole + "." + fraction);
            && Plain(text)
            && Value(Read(text)) == Value(Decimal(Signed(negative, DigitsValue(whole + fraction)), |fraction|))
  {
    hide StripTrailingZeros, DigitsValue, Value, Plain, Read, Pow10, DropZeros, BeforeDot, AfterDot;
    DroppedParts(negative, whole, fraction);
    ReadIs(DropZeros(Sign(negative) + whole + "." + fraction));
    WholeAndFraction(negative, whole, fraction);
  }

  lemma DroppedParts(negative: bool, whole: string, fraction: string)
    requires AllDigits(whole) && AllDigits(fraction) && whole != ""
    ensures var text := DropZeros(Sign(negative) + whole + "." + fraction);
            && Plain(text) && Negative(text) == negative
            && BeforeDot(Unsigned(text)) == whole && AfterDot(Unsigned(text)) == StripTrailingZeros(fraction)
  {
    hide StripTrailingZeros, Plain, MoneyPattern, BeforeDot, AfterDot, DropZeros, Compose;
    DroppedText(negative, whole, fraction);
    if fraction == "" {
      BarePoint(negative, whole);
      assert StripTrailingZeros("") == "";
    } else {
      ComposeParts(negative, whole, StripTrailingZeros(fraction));
    }
  }

  lemma DroppedText(negative: bool, whole: string, fraction: string)
    requires AllDigits(fraction)
    ensures DropZeros(Sign(negative) + whole + "." + fraction) ==
            if fraction == "" then Sign(negative) + whole + "."
              else Compose(negative, whole, StripTrailingZeros(fraction))
  {
    hide StripTrailingZeros, DropZeros, Compose, Sign;
    var f := StripTrailingZeros(fraction);
    DropAfterPoint(Sign(negative) + whole, fraction);
    ComposeIs(negative, whole, f);
  }

  lemma ComposeIs(negative: bool, whole: string, f: string)
    ensures Compose(negative, whole, f) ==
            if f == "" then Sign(negative) + whole else Sign(negative) + whole + "." + f
  {
    var head := Sign(negative) + whole;
    assert head + "" == head;
    assert head + "." + f == head + ("." + f);
  }

  lemma DropAfterPoint(head: string, fraction: string)
    requires AllDigits(fraction)
    ensures var f := StripTrailingZeros(fraction);
            DropZeros(head + "." + fraction) == if f == "" && fraction != "" then head else head + "." + f
  {
    hide StripTrailingZeros;
    var f := StripTrailingZeros(fraction);
    StripAfterPoint(head, fraction);
    var point := head + ".";
    var t := point + f;
    assert f != "" ==> t[|t| - 1] == f[|f| - 1];
    assert f == "" ==> t == point && t[..|t| - 1] == head;
  }

  lemma BarePoint(negative: bool, whole: string)
    requires AllDigits(whole) && whole != ""
    ensures var text := Sign(negative) + whole + ".";
            Plain(text) && Negative(text) == negative && BeforeDot(Unsigned(text)) == whole
              && AfterDot(Unsigned(text)) == ""
  {
    var text := Sign(negative) + whole + ".";
    assert Unsigned(text) == whole + ".";
    DotAfterDigits(whole, ".");
    assert (whole + ".")[|whole| + 1..] == "";
  }

  lemma WholeAndFraction(negative: bool, whole: string, fraction: string)
    requires AllDigits(whole) && AllDigits(fraction)
    ensures var f := StripTrailingZeros(fraction);
            && AllDigits(whole + f)
            && Value(Decimal(Signed(negative, DigitsValue(whole + f)), |f|))
               == Value(Decimal(Signed(negative, DigitsValue(whole + fraction)), |fraction|))
  {
    hide StripTrailingZeros, DigitsValue, Value, Pow10;
    var f, raw, n := StripTrailingZeros(fraction), whole + fraction, |whole|;
    assert raw[..n] == whole && raw[n..] == fraction;
    StrippedValue(raw, n);
    var units, k := DigitsValue(whole + f), |fraction| - |f|;
    ScaledValue(Signed(negative, units), |f|, k);
    assert (-units) * Pow10(k) == -(units * Pow10(k));
  }

  // ---- Exponents are exact

  function TenTo(k: int): real {
    if k >= 0 then Pow10(k) as real else 1.0 / Pow10(-k) as real
  }

  /** A decimal times a power of ten, as a decimal. */
  lemma ShiftedValue(units: int, scale: nat, exponent: int)
    ensures exponent <= scale ==>
            Value(Decimal(units, scale - exponent)) == Value(Decimal(units, scale)) * TenTo(exponent)
    ensures exponent >= scale ==>
              Value(Decimal(units * Pow10(exponent - scale), 0)) == Value(Decimal(units, scale)) * TenTo(exponent)
  {
    hide Value, Pow10, TenTo;
    if exponent <= scale {
      ShiftedDown(units, scale, exponent);
    }
    if exponent >= scale {
      ShiftedUp(units, scale, exponent - scale);
    }
  }

  lemma ShiftedDown(units: int, scale: nat, exponent: int)
    requires exponent <= scale
    ensures Value(Decimal(units, scale - exponent)) == Value(Decimal(units, scale)) * TenTo(exponent)
  {
    hide Pow10;
    if exponent < 0 {
      Pow10Add(scale, -exponent);
      QuotientOfProduct(units, Pow10(scale - exponent), Pow10(scale), Pow10(-exponent));
    } else {
      Pow10Add(scale - exponent, exponent);
      QuotientOfFactor(units, Pow10(scale), Pow10(scale - exponent), Pow10(exponent));
    }
  }

  lemma QuotientOfProduct(u: int, p: int, a: int, b: int)
    requires a > 0 && b > 0 && p == a * b && p > 0
    ensures u as real / p as real == u as real / a as real * (1.0 / b as real)
  {
    ProductAsReal(a, b);
    DivideTwice(u as real, a as real, b as real);
  }

  lemma QuotientOfFactor(u: int, p: int, a: int, b: int)
    requires a > 0 && b > 0 && p == a * b && p > 0
    ensures u as real / a as real == u as real / p as real * b as real
  {
    ProductAsReal(a, b);
    DivideLess(u as real, a as real, b as real);
  }

  lemma ShiftedUp(units: int, scale: nat, k: nat)
    ensures Value(Decimal(units * Pow10(k), 0)) == Value(Decimal(units, scale)) * TenTo(scale + k)
  {
    UnitPower();
    hide Pow10;
    Pow10Add(scale, k);
    MultiplyBack(units, Pow10(scale), Pow10(k));
  }

  lemma ProductAsReal(a: int, b: int)
    ensures (a * b) as real == a as real * b as real
  {
  }

  lemma UnitPower()
    ensures Pow10(0) == 1
  {
  }

  lemma DivideTwice(u: real, a: real, b: real)
    requires a > 0.0 && b > 0.0
    ensures u / (a * b) == u / a * (1.0 / b)
  {
    var q := u / a * (1.0 / b);
    assert (u / a) * a == u && (1.0 / b) * b == 1.0;
    assert q * (a * b) == ((u / a) * a) * ((1.0 / b) * b);
  }

  lemma DivideLess(u: real, a: real, b: real)
    requires a > 0.0 && b > 0.0
    ensures u / a == u / (a * b) * b
  {
    var q := u / (a * b);
    assert q * (a * b) == u;
    assert (q * b) * a == u;
  }

  lemma MultiplyBack(u: int, a: int, k: int)
    requires a > 0 && k > 0
    ensures (u * k) as real / 1 as real == u as real / a as real * (a * k) as real
  {
    var x, y, z := u as real, a as real, k as real;
    assert (u * k) as real == x * z && (a * k) as real == y * z;
    assert (x / y) * y == x;
    assert (x / y) * (y * z) == ((x / y) * y) * z;
  }

  /** The digits of a coefficient around its point. */
  lemma CoefficientReads(s: string)
    requires Scientific(s)
    ensures var whole, fraction := BeforeDot(BeforeMark(Unsigned(s))), AfterDot(BeforeMark(Unsigned(s)));
            && AllDigits(whole) && AllDigits(fraction) && AllDigits(whole + fraction)
            && Read(Coefficient(s)) == Decimal(Signed(Negative(s), DigitsValue(whole + fraction)), |fraction|)
  {
    hide DigitsValue;
    var c := Coefficient(s);
    assert Unsigned(c) == BeforeMark(Unsigned(s)) && Negative(c) == Negative(s);
    PlainParts(c);
    var whole, fraction := BeforeDot(Unsigned(c)), AfterDot(Unsigned(c));
    if whole == "" {
      assert whole + fraction == fraction;
      assert "0" == Zeros(1);
      ZerosValue(1);
      DigitsValueConcat("0", fraction);
    }
  }

  /** Text with an exponent reads as its coefficient times that power of ten. */
  lemma ExponentIsExact(s: string)
    requires Scientific(s)
    ensures Plain(PlainDecimalString(s))
    ensures Value(Read(PlainDecimalString(s))) == Value(Read(Coefficient(s))) * TenTo(Exponent(s))
  {
    hide DigitsValue, Value, Read, Plain, BeforeDot, AfterDot, BeforeMark, TenTo, ParseExponent, MovePoint;
    CoefficientReads(s);
    MovedReads(Negative(s), BeforeDot(BeforeMark(Unsigned(s))), AfterDot(BeforeMark(Unsigned(s))), Exponent(s));
  }

  lemma MovedReads(negative: bool, whole: string, fraction: string, exponent: int)
    requires AllDigits(whole) && AllDigits(fraction) && AllDigits(whole + fraction)
    ensures var text := MovePoint(negative, whole, fraction, exponent);
            && Plain(text)
            && Value(Read(text)) ==
               Value(Decimal(Signed(negative, DigitsValue(whole + fraction)), |fraction|)) * TenTo(exponent)
  {
    hide DigitsValue, Value, Read, Plain, MovePoint, TenTo, Pow10, Signed;
    MovedLeft(negative, whole, fraction, exponent);
    MovedRight(negative, whole, fraction, exponent);
    ShiftedValue(Signed(negative, DigitsValue(whole + fraction)), |fraction|, exponent);
  }

  predicate MovesRight(whole: string, fraction: string, exponent: int) {
    0 < |whole| + exponent && |fraction| <= exponent
  }

  lemma MovedLeft(negative: bool, whole: string, fraction: string, exponent: int)
    requires AllDigits(whole) && AllDigits(fraction) && AllDigits(whole + fraction)
    ensures !MovesRight(whole, fraction, exponent) ==>
              var text := MovePoint(negative, whole, fraction, exponent);
              && Plain(text) && exponent <= |fraction|
              && Value(Read(text)) == Value(Decimal(Signed(negative, DigitsValue(whole + fraction)),
                |fraction| - exponent))
  {
    hide DigitsValue, Value, Read, Plain, DropZeros, Zeros, Pow10, Sign, Signed;
    var digits, point := whole + fraction, |whole| + exponent;
    if point <= 0 {
      PointReads(negative, "0", Zeros(-point) + digits);
      LeadingZerosDoNotCount(-point, digits);
    } else if point < |digits| {
      PointReads(negative, digits[..point], digits[point..]);
      assert digits[..point] + digits[point..] == digits;
    }
  }

  lemma MovedRight(negative: bool, whole: string, fraction: string, exponent: int)
    requires AllDigits(whole) && AllDigits(fraction) && AllDigits(whole + fraction)
    ensures MovesRight(whole, fraction, exponent) ==>
              var text := MovePoint(negative, whole, fraction, exponent);
              && Plain(text)
              && Read(text) == Decimal(Signed(negative, DigitsValue(whole + fraction)) * Pow10(exponent - |fraction|),
                0)
  {
    hide DigitsValue, Read, Plain, DropZeros, Zeros, Pow10, Sign, Signed;
    if MovesRight(whole, fraction, exponent) {
      WholeReads(negative, whole + fraction, exponent - |fraction|);
    }
  }

  lemma LeadingZerosDoNotCount(n: nat, digits: string)
    requires AllDigits(digits)
    ensures AllDigits("0" + (Zeros(n) + digits)) && DigitsValue("0" + (Zeros(n) + digits)) == DigitsValue(digits)
  {
    hide DigitsValue, Zeros, Pow10, AllDigits;
    var zeros := Zeros(n + 1);
    ZerosValue(n + 1);
    ZeroInFront(n);
    assert "0" + (Zeros(n) + digits) == ("0" + Zeros(n)) + digits;
    DigitsValueConcat(zeros, digits);
    assert 0 * Pow10(|digits|) == 0;
  }

  lemma ZeroInFront(n: nat)
    ensures "0" + Zeros(n) == Zeros(n + 1)
  {
    hide Zeros;
  }

  lemma WholeReads(negative: bool, digits: string, zeros: nat)
    requires AllDigits(digits) && digits + Zeros(zeros) != ""
    ensures var text := Sign(negative) + (digits + Zeros(zeros));
            Plain(text) && Read(text) == Decimal(Signed(negative, DigitsValue(digits)) * Pow10(zeros), 0)
  {
    hide DigitsValue, Plain, Read, Pow10, Zeros, BeforeDot, AfterDot, MoneyPattern;
    var whole := digits + Zeros(zeros);
    var text := Sign(negative) + whole;
    assert text == Compose(negative, whole, "");
    ComposeParts(negative, whole, "");
    ReadIs(text);
    assert whole + "" == whole;
    DigitsValueConcat(digits, Zeros(zeros));
    ZerosValue(zeros);
    var v: int, p: int := DigitsValue(digits), Pow10(zeros);
    assert (-v) * p == -(v * p);
  }

  // ---- Normalizing keeps amounts

  lemma NormalIsReadable(value: string)
    requires Readable(value)
    ensures Plain(PlainDecimalString(NormalizeMoney(value)))
  {
    hide Plain, Cleaned, NormalizeMoney, PlainDecimalString, Scientific;
    if Plain(Cleaned(value)) {
      NormalIsPlain(value);
      PlainHasNoMark(NormalizeMoney(value));
    } else {
      ScientificStays(value);
      ExponentIsExact(Cleaned(value));
    }
  }

  lemma PlainKeepsAmount(value: string)
    requires Plain(Cleaned(value))
    ensures Readable(value) && Amount(value) == Value(Read(Cleaned(value)))
  {
    hide Plain, Cleaned, NormalizeMoney, PlainDecimalString, Scientific, Value, Read;
    NormalIsReadable(value);
    NormalizingPlainText(value);
    PlainHasNoMark(NormalizeMoney(value));
  }

  lemma ScientificKeepsAmount(value: string)
    requires Scientific(Cleaned(value))
    ensures Readable(value)
    ensures var s := Cleaned(value); Amount(value) == Value(Read(Coefficient(s))) * TenTo(Exponent(s))
  {
    hide Plain, Cleaned, NormalizeMoney, PlainDecimalString, Value, Read, TenTo, BeforeMark, AfterMark, ParseExponent;
    NormalIsReadable(value);
    ScientificStays(value);
    ExponentIsExact(Cleaned(value));
  }

  /** Normalizing changes no amount: plain text keeps its value, and text with an exponent denotes its
      coefficient times the power of ten. */
  lemma NormalizingKeepsValue(value: string)
    requires Readable(value)
    ensures Plain(Cleaned(value)) ==> Amount(value) == Value(Read(Cleaned(value)))
    ensures Scientific(Cleaned(value)) ==>
              var s := Cleaned(value); Amount(value) == Value(Read(Coefficient(s))) * TenTo(Exponent(s))
  {
    hide Plain, Cleaned, Amount, Value, Read, TenTo, Coefficient, Exponent;
    if Plain(Cleaned(value)) {
      PlainKeepsAmount(value);
    }
    if Scientific(Cleaned(value)) {
      ScientificKeepsAmount(value);
    }
  }
}
