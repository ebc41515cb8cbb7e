/** Exact arithmetic on decimal strings: printing is canonical and undone by reading, sums are exact and
    comparison is the order of the rationals. */
module DecimalMoney {
  import opened Money
  import opened Options
  import opened DecimalStrings
  import opened ExponentNotation

  function Print(d: Decimal): string {
    UnitsToDecimal(d.units, d.scale)
  }

  // ---- Reading undoes printing

  function Abs(n: int): nat {
    if n < 0 then -n else n
  }

  /** The digits around the decimal point, before trailing zeros go. */
  function Raw(units: int, scale: nat): (raw: string)
    ensures AllDigits(raw) && |raw| > scale
  {
    PadStart(Digits(Abs(units)), scale + 1)
  }

  lemma RawValue(units: int, scale: nat)
    ensures DigitsValue(Raw(units, scale)) == Abs(units)
  {
    PadValue(Digits(Abs(units)), scale + 1);
    DigitsRoundTrip(Abs(units));
  }

  /** What a printed string reads as. */
  lemma PrintedParts(units: int, scale: nat)
    ensures Plain(UnitsToDecimal(units, scale)) && MoneyPattern(UnitsToDecimal(units, scale))
    ensures var raw := Raw(units, scale);
            var n := |raw| - scale;
            var f := StripTrailingZeros(raw[n..]);
            && AllDigits(raw[..n] + f)
            && Read(UnitsToDecimal(units, scale)) == Decimal(Signed(units < 0, DigitsValue(raw[..n] + f)), |f|)
  {
    hide StripTrailingZeros, DigitsValue, PadStart, Digits, Compose, Plain, MoneyPattern;
    var raw := Raw(units, scale);
    var n := |raw| - scale;
    var f := StripTrailingZeros(raw[n..]);
    assert UnitsToDecimal(units, scale) == Compose(units < 0, raw[..n], f) by {
      if scale == 0 {
        assert raw[n..] == "";
      }
    }
    ComposeParts(units < 0, raw[..n], f);
  }

  lemma PrintedValue(units: int, scale: nat)
    ensures Plain(UnitsToDecimal(units, scale))
    ensures Value(Read(UnitsToDecimal(units, scale))) == Value(Decimal(units, scale))
  {
    hide StripTrailingZeros, DigitsValue, PadStart, Digits, Plain, MoneyPattern, Read, UnitsToDecimal, Raw, Value,
      Pow10;
    var raw := Raw(units, scale);
    var n := |raw| - scale;
    var f := StripTrailingZeros(raw[n..]);
    PrintedParts(units, scale);
    RawValue(units, scale);
    StrippedValue(raw, n);
    var printed := DigitsValue(raw[..n] + f);
    var k := scale - |f|;
    ScaledValue(Signed(units < 0, printed), |f|, k);
    assert (-printed) * Pow10(k) == -(printed * Pow10(k));
  }

  /** Reading a printed value returns the same rational. */
  lemma ReadingUndoesPrinting(units: int, scale: nat)
    ensures var s := UnitsToDecimal(units, scale);
            Readable(s) && Amount(s) == Value(Decimal(units, scale))
  {
    hide Value, UnitsToDecimal, Read, Plain, Cleaned, DecimalParts;
    var s := UnitsToDecimal(units, scale);
    PrintedValue(units, scale);
    PlainIsClean(s);
    NormalizingKeepsValue(s);
  }

  /** Whatever follows a second point is not read. */
  lemma SecondPointEnds(negative: bool, whole: string, fraction: string, rest: string)
    requires AllDigits(whole) && AllDigits(fraction) && whole != "" && fraction != ""
    requires forall i :: 0 <= i < |rest| ==> IsDigit(rest[i]) || rest[i] == '.'
    ensures var s := Sign(negative) + whole + "." + fraction;
            Plain(s) && Plain(s + "." + rest) && Read(s + "." + rest) == Read(s)
  {
    hide DigitsValue, BeforeDot, AfterDot, Unsigned, Negative, Plain;
    var s := Sign(negative) + whole + "." + fraction;
    assert s + "" == s && s + ("." + rest) == s + "." + rest;
    PointedParts(negative, whole, fraction, "");
    PointedParts(negative, whole, fraction, "." + rest);
    PlainPointed(negative, whole, fraction, "");
    PlainPointed(negative, whole, fraction, "." + rest);
  }

  lemma PointedParts(negative: bool, whole: string, fraction: string, more: string)
    requires AllDigits(whole) && AllDigits(fraction) && whole != "" && (more == "" || more[0] == '.')
    ensures var s := Sign(negative) + whole + "." + fraction + more;
            && Negative(s) == negative && BeforeDot(Unsigned(s)) == whole && AfterDot(Unsigned(s)) == fraction
  {
    hide BeforeDot;
    var s, u := Sign(negative) + whole + "." + fraction + more, whole + ("." + fraction + more);
    assert Unsigned(s) == u;
    DotAfterDigits(whole, "." + fraction + more);
    DotAfterDigits(fraction, more);
    assert u[|whole| + 1..] == fraction + more;
  }

  lemma PlainPointed(negative: bool, whole: string, fraction: string, more: string)
    requires AllDigits(whole) && AllDigits(fraction) && whole != ""
    requires forall i :: 0 <= i < |more| ==> IsDigit(more[i]) || more[i] == '.'
    ensures Plain(Sign(negative) + whole + "." + fraction + more)
  {
    assert Unsigned(Sign(negative) + whole + "." + fraction + more) == whole + "." + fraction + more;
  }

  // ---- One string per rational

  lemma DigitsTenfold(n: nat, length: nat)
    requires length >= 1
    ensures PadStart(Digits(10 * n), length + 1) == PadStart(Digits(n), length) + "0"
  {
    if n == 0 {
      assert Digits(0) == "0";
      assert Zeros(length) == Zeros(length - 1) + "0";
    } else {
      assert Digits(10 * n) == Digits(n) + "0";
      PadSnoc(Digits(n), '0', length);
    }
  }

  lemma StripSnocZero(s: string)
    ensures StripTrailingZeros(s + "0") == StripTrailingZeros(s)
  {
    assert (s + "0")[..|s|] == s;
  }

  /** One more trailing zero is not printed. */
  lemma PrintTenfold(units: int, scale: nat)
    ensures UnitsToDecimal(10 * units, scale + 1) == UnitsToDecimal(units, scale)
  {
    hide StripTrailingZeros, PadStart, Digits;
    var raw := Raw(units, scale);
    var n := |raw| - scale;
    assert Abs(10 * units) == 10 * Abs(units);
    DigitsTenfold(Abs(units), scale + 1);
    assert Raw(10 * units, scale + 1) == raw + "0";
    assert (raw + "0")[..n] == raw[..n];
    assert (raw + "0")[n..] == raw[n..] + "0";
    StripSnocZero(raw[n..]);
    if scale == 0 {
      assert raw[n..] == "";
    }
  }

  lemma {:induction false} PrintScaled(units: int, scale: nat, k: nat)
    ensures UnitsToDecimal(units * Pow10(k), scale + k) == UnitsToDecimal(units, scale)
  {
    hide UnitsToDecimal;
    if k > 0 {
      PrintScaled(units, scale, k - 1);
      PrintTenfold(units * Pow10(k - 1), scale + k - 1);
      ShiftLeft(units, Pow10(k - 1));
    }
  }

  lemma EqualValuesScale(d: Decimal, e: Decimal)
    requires Value(d) == Value(e) && d.scale <= e.scale
    ensures e.units == d.units * Pow10(e.scale - d.scale)
  {
    hide Value, Pow10;
    ScaledValue(d.units, d.scale, e.scale - d.scale);
    SameScale(e.units, d.units * Pow10(e.scale - d.scale), e.scale);
  }

  lemma EqualValuesPrintAlike(d: Decimal, e: Decimal)
    requires Value(d) == Value(e) && d.scale <= e.scale
    ensures Print(d) == Print(e)
  {
    hide Value, UnitsToDecimal, Pow10;
    EqualValuesScale(d, e);
    PrintScaled(d.units, d.scale, e.scale - d.scale);
  }

  /** Two decimals print alike exactly when they are the same rational. */
  lemma PrintingIsCanonical(d: Decimal, e: Decimal)
    ensures Print(d) == Print(e) <==> Value(d) == Value(e)
  {
    hide Value, UnitsToDecimal, Amount;
    ReadingUndoesPrinting(d.units, d.scale);
    ReadingUndoesPrinting(e.units, e.scale);
    if Value(d) == Value(e) {
      if d.scale <= e.scale {
        EqualValuesPrintAlike(d, e);
      } else {
        EqualValuesPrintAlike(e, d);
      }
    }
  }

  // ---- The normal form

  predicate SignedZero(value: string)
    requires Readable(value)
  {
    Negative(Cleaned(value)) && DecimalParts(value).units == 0
  }

  /** Composed text without surplus zeros is what its own value prints as. */
  lemma ComposedPrints(negative: bool, w: string, f: string)
    requires AllDigits(w) && AllDigits(f) && w != "" && (|w| == 1 || w[0] != '0')
    requires StripTrailingZeros(f) == f && AllDigits(w + f)
    ensures var v := DigitsValue(w + f);
            UnitsToDecimal(Signed(negative, v), |f|) == Compose(negative && v != 0, w, f)
  {
    hide StripTrailingZeros, DigitsValue, PadStart, Digits;
    PadDigits(w + f, |f| + 1);
    assert (w + f)[..|w|] == w && (w + f)[|w|..] == f;
  }

  lemma {:induction false} StripTwice(s: string)
    ensures StripTrailingZeros(StripTrailingZeros(s)) == StripTrailingZeros(s)
  {
    if s != "" && s[|s| - 1] == '0' {
      StripTwice(s[..|s| - 1]);
    }
  }

  lemma ComposeSigns(w: string, f: string)
    requires w != "" && IsDigit(w[0])
    ensures Compose(true, w, f) != Compose(false, w, f)
  {
    assert Compose(true, w, f)[0] == '-';
    assert Compose(false, w, f)[0] == w[0];
  }

  /** On text in the money pattern `normalizeMoney` yields the canonical string of its amount, except for a
      zero with a minus sign, which keeps the sign. */
  lemma NormalFormIsCanonical(value: string)
    requires MoneyPattern(Cleaned(value))
    ensures Readable(value)
    ensures NormalizeMoney(value) == Print(DecimalParts(value)) <==> !SignedZero(value)
  {
    hide StripLeadingZeros, StripTrailingZeros, Cleaned, DigitsValue, Plain, Compose, UnitsToDecimal,
      PlainDecimalString;
    var s := Cleaned(value);
    PatternIsPlain(s);
    NormalIsPlain(value);
    PlainHasNoMark(NormalizeMoney(value));
    var u := Unsigned(s);
    var w, f := StripLeadingZeros(BeforeDot(u)), StripTrailingZeros(AfterDot(u));
    ComposeParts(Negative(s), w, f);
    StripTwice(AfterDot(u));
    DigitsValueConcat(w, f);
    ComposedPrints(Negative(s), w, f);
    ComposeSigns(w, f);
  }

  /** The law for all readable text: the normal form is canonical exactly when the text is in the money
      pattern and not a signed zero; other text is returned as it stands. */
  lemma NormalFormExactly(value: string)
    requires Readable(value)
    ensures NormalizeMoney(value) == Print(DecimalParts(value)) <==> MoneyPattern(Cleaned(value)) && !SignedZero(value)
  {
    hide StripLeadingZeros, StripTrailingZeros, Cleaned, DigitsValue, Plain, Compose, UnitsToDecimal,
      PlainDecimalString, MoneyPattern;
    if MoneyPattern(Cleaned(value)) {
      NormalFormIsCanonical(value);
    } else {
      var d := DecimalParts(value);
      PrintedParts(d.units, d.scale);
      assert NormalizeMoney(value) == Cleaned(value);
    }
  }

  /** ".5" is read as one half and kept as it is, while one half prints as "0.5". */
  lemma BareFraction()
    ensures Readable(".5") && !SignedZero(".5") && NormalizeMoney(".5") == ".5"
    ensures DecimalParts(".5") == Decimal(5, 1) && Print(DecimalParts(".5")) == "0.5"
  {
    HalfIsPlain();
    hide Trim, CommaToDot, MoneyPattern, PlainDecimalString, UnitsToDecimal, Read;
    PlainIsClean(".5");
    PlainHasNoMark(".5");
    HalfPrints();
  }

  lemma HalfIsPlain()
    ensures Plain(".5") && !MoneyPattern(".5") && Read(".5") == Decimal(5, 1)
  {
    assert BeforeDot(".5") == "" && ".5"[1..] == "5" && "5"[1..] == "" && BeforeDot("5") == "5";
    assert "0" + "5" == "05" && "05"[..1] == "0" && "0"[..0] == "";
    assert DigitsValue("0") == 0;
  }

  lemma HalfPrints()
    ensures UnitsToDecimal(5, 1) == "0.5"
  {
    assert Digits(5) == "5" && Zeros(1) == "0" && PadStart("5", 2) == "05";
    assert "05"[..1] == "0" && "05"[1..] == "5";
  }

  lemma {:induction false} TrimmedEnds(s: string)
    ensures var t := Trim(s); t != "" ==> !IsSpace(t[0]) && !IsSpace(t[|t| - 1])
    ensures s != "" && !IsSpace(s[0]) && !IsSpace(s[|s| - 1]) ==> Trim(s) == s
    decreases |s|
  {
    if s != "" && IsSpace(s[0]) {
      TrimmedEnds(s[1..]);
    } else if s != "" && IsSpace(s[|s| - 1]) {
      TrimmedEnds(s[..|s| - 1]);
    }
  }

  predicate IsBlank(s: string) {
    forall i :: 0 <= i < |s| ==> s[i] in {' ', '\t', '\n', '\r', '\U{00A0}', '\U{202F}', '\U{FEFF}'}
  }

  lemma BlankIsSpace(s: string, i: nat)
    requires IsBlank(s) && i < |s|
    ensures IsSpace(s[i])
  {
  }

  /** Blanks around a text go: spaces, tabs, line ends, and the spaces that amounts are formatted with. */
  lemma PaddingGoes(before: string, s: string, after: string)
    requires s != "" && !IsSpace(s[0]) && !IsSpace(s[|s| - 1]) && IsBlank(before) && IsBlank(after)
    ensures Trim(before + s + after) == s
  {
    hide Trim, IsSpace, IsBlank;
    assert before + s + after == before + (s + after);
    PaddingBefore(before, s + after);
    PaddingAfter(s, after);
  }

  lemma {:induction false} PaddingBefore(before: string, s: string)
    requires IsBlank(before)
    ensures Trim(before + s) == Trim(s)
  {
    hide IsSpace;
    if before == "" {
      assert before + s == s;
    } else {
      BlankIsSpace(before, 0);
      PaddingBefore(before[1..], s);
      assert (before + s)[1..] == before[1..] + s;
    }
  }

  lemma {:induction false} PaddingAfter(s: string, after: string)
    requires s != "" && !IsSpace(s[0]) && !IsSpace(s[|s| - 1]) && IsBlank(after)
    ensures Trim(s + after) == s
  {
    hide IsSpace;
    if after == "" {
      assert s + after == s;
    } else {
      var n := |after| - 1;
      BlankIsSpace(after, n);
      PaddingAfter(s, after[..n]);
      assert (s + after)[..|s| + n] == s + after[..n];
    }
  }

  /** At most one character changes, a comma into a point. */
  lemma {:induction false} CommaChanges(s: string)
    ensures var r := CommaToDot(s);
            && |r| == |s|
            && (forall i :: 0 <= i < |s| ==> r[i] == s[i] || (s[i] == ',' && r[i] == '.'))
            && (r == s <==> ',' !in s)
  {
    if s != "" {
      CommaChanges(s[1..]);
      assert s == [s[0]] + s[1..];
    }
  }

  /** Cleaning is over after one go but for further commas. */
  lemma CleanedTwice(value: string)
    ensures var s := Cleaned(value); Cleaned(s) == CommaToDot(s)
  {
    var t := Trim(value);
    TrimmedEnds(value);
    CommaChanges(t);
    TrimmedEnds(CommaToDot(t));
  }

  lemma PatternNormalizesOnce(value: string)
    requires MoneyPattern(Cleaned(value))
    ensures NormalizeMoney(NormalizeMoney(value)) == NormalizeMoney(value)
    ensures Plain(NormalizeMoney(value)) && ',' !in Cleaned(value)
  {
    hide StripLeadingZeros, StripTrailingZeros, Cleaned, Compose, Plain;
    var s := Cleaned(value);
    PatternIsPlain(s);
    NoCommaInPlain(s);
    NormalIsPlain(value);
    PlainIsClean(NormalizeMoney(value));
    var u := Unsigned(s);
    var w, f := StripLeadingZeros(BeforeDot(u)), StripTrailingZeros(AfterDot(u));
    ComposeParts(Negative(s), w, f);
    StripTwice(AfterDot(u));
    LeadingTwice(BeforeDot(u));
  }

  lemma NoCommaInPlain(s: string)
    requires Plain(s)
    ensures ',' !in s
  {
    forall i | 0 <= i < |s| ensures s[i] != ',' {
      assert i > 0 && Negative(s) ==> s[i] == Unsigned(s)[i - 1];
      assert !Negative(s) ==> s[i] == Unsigned(s)[i];
    }
  }

  lemma NoCommaInScientific(s: string)
    requires Scientific(s)
    ensures ',' !in s
  {
    hide Plain, Coefficient, AfterMark, ParseExponent, HasMark;
    forall i | 0 <= i < |s| ensures s[i] != ',' {
      assert i > 0 && Negative(s) ==> s[i] == Unsigned(s)[i - 1];
      assert !Negative(s) ==> s[i] == Unsigned(s)[i];
    }
  }

  /** Of every string whatsoever: normalizing is idempotent exactly when no comma is left after the first
      has become a point. */
  lemma NormalizingTwiceExactly(value: string)
    ensures NormalizeMoney(NormalizeMoney(value)) == NormalizeMoney(value) <==> ',' !in Cleaned(value)
  {
    hide Cleaned, MoneyPattern, Plain, CommaToDot;
    var s := Cleaned(value);
    if MoneyPattern(s) {
      PatternNormalizesOnce(value);
    } else {
      CleanedTwice(value);
      CommaChanges(s);
      if MoneyPattern(Cleaned(s)) {
        PatternNormalizesOnce(s);
        NoCommaInPlain(NormalizeMoney(s));
      }
    }
  }

  /** In particular on readable text. */
  lemma NormalizingTwice(value: string)
    requires Readable(value)
    ensures NormalizeMoney(NormalizeMoney(value)) == NormalizeMoney(value)
  {
    hide NormalizeMoney, Cleaned, Plain, Scientific;
    if Plain(Cleaned(value)) {
      NoCommaInPlain(Cleaned(value));
    } else {
      NoCommaInScientific(Cleaned(value));
    }
    NormalizingTwiceExactly(value);
  }

  /** Two commas are normalized one at a time. */
  lemma TwoCommas()
    ensures NormalizeMoney("1,2,3") == "1.2,3" && NormalizeMoney("1.2,3") == "1.2.3"
  {
    hide MoneyPattern, CommaToDot, Trim;
    TrimmedEnds("1,2,3");
    TrimmedEnds("1.2,3");
    FirstComma("1", "2,3");
    FirstComma("1.2", "3");
    assert "1" + "," + "2,3" == "1,2,3" && "1" + "." + "2,3" == "1.2,3";
    assert "1.2" + "," + "3" == "1.2,3" && "1.2" + "." + "3" == "1.2.3";
    assert "1." + "2,3" == "1.2,3" && "1." + "2.3" == "1.2.3";
    TwoPointsNoPattern("1.2,3", "2,3");
    TwoPointsNoPattern("1.2.3", "2.3");
  }

  lemma {:induction false} FirstComma(before: string, after: string)
    requires ',' !in before
    ensures CommaToDot(before + "," + after) == before + "." + after
  {
    var s := before + "," + after;
    if before == "" {
      assert s[1..] == after;
    } else {
      FirstComma(before[1..], after);
      assert s[1..] == before[1..] + "," + after;
    }
  }

  lemma TwoPointsNoPattern(s: string, rest: string)
    requires s == "1." + rest && |rest| == 3 && rest[0] == '2' && rest[1] in {',', '.'}
    ensures !MoneyPattern(s)
  {
    assert s[1..] == "." + rest && BeforeDot(s[1..]) == "";
    assert BeforeDot(s) == "1";
    assert s[2..] == rest;
    assert rest[1] == '.' ==> BeforeDot(rest[1..]) == "" && BeforeDot(rest) == "2";
    assert rest[1] == ',' ==> BeforeDot(rest) == [rest[0]] + ([rest[1]] + BeforeDot(rest[1..][1..]));
  }

  lemma {:induction false} LeadingTwice(s: string)
    ensures StripLeadingZeros(StripLeadingZeros(s)) == StripLeadingZeros(s)
  {
    if |s| >= 2 && s[0] == '0' && IsDigit(s[1]) {
      LeadingTwice(s[1..]);
    }
  }

  // ---- Sums and order

  function MaxScale(d: Decimal, e: Decimal): nat {
    if d.scale > e.scale then d.scale else e.scale
  }

  function ScaleUnits(d: Decimal, scale: nat): int
    requires d.scale <= scale
  {
    d.units * Pow10(scale - d.scale)
  }

  function AddMoney(a: string, b: string): string
    requires Readable(a) && Readable(b)
  {
    var left, right := DecimalParts(a), DecimalParts(b);
    var scale := MaxScale(left, right);
    UnitsToDecimal(ScaleUnits(left, scale) + ScaleUnits(right, scale), scale)
  }

  function CompareMoney(a: string, b: string): int
    requires Readable(a) && Readable(b)
  {
    var left, right := DecimalParts(a), DecimalParts(b);
    var scale := MaxScale(left, right);
    var x, y := ScaleUnits(left, scale), ScaleUnits(right, scale);
    if x == y then 0 else if x > y then 1 else -1
  }

  lemma ScaledUnitsValue(d: Decimal, scale: nat)
    requires d.scale <= scale
    ensures Value(Decimal(ScaleUnits(d, scale), scale)) == Value(d)
  {
    hide Value;
    ScaledValue(d.units, d.scale, scale - d.scale);
  }

  lemma ValueAdds(a: int, b: int, scale: nat)
    ensures Value(Decimal(a + b, scale)) == Value(Decimal(a, scale)) + Value(Decimal(b, scale))
  {
    hide Pow10;
    var x, y, p := a as real, b as real, Pow10(scale) as real;
    assert (x + y) / p == x / p + y / p;
  }

  lemma ValueOrders(a: int, b: int, scale: nat)
    ensures Value(Decimal(a, scale)) < Value(Decimal(b, scale)) <==> a < b
  {
    hide Pow10;
    var x, y, p := a as real, b as real, Pow10(scale) as real;
    assert (x / p) * p == x && (y / p) * p == y;
    RealProductsOrdered(p, y / p, x / p);
  }

  /** `addMoney` is exact. */
  lemma AddIsExact(a: string, b: string)
    requires Readable(a) && Readable(b)
    ensures Readable(AddMoney(a, b)) && Amount(AddMoney(a, b)) == Amount(a) + Amount(b)
  {
    hide Value, UnitsToDecimal, DecimalParts, ScaleUnits, Readable;
    var left, right := DecimalParts(a), DecimalParts(b);
    var scale := MaxScale(left, right);
    ScaledUnitsValue(left, scale);
    ScaledUnitsValue(right, scale);
    ValueAdds(ScaleUnits(left, scale), ScaleUnits(right, scale), scale);
    ReadingUndoesPrinting(ScaleUnits(left, scale) + ScaleUnits(right, scale), scale);
  }

  ghost predicate Printed(s: string) {
    exists d :: s == Print(d)
  }

  /** Printed strings are equal exactly when their amounts are. */
  lemma PrintedEqual(s: string, t: string)
    requires Printed(s) && Printed(t)
    ensures Readable(s) && Readable(t)
    ensures s == t <==> Amount(s) == Amount(t)
  {
    hide Value, UnitsToDecimal, Amount, Readable;
    var d, e :| s == Print(d) && t == Print(e);
    ReadingUndoesPrinting(d.units, d.scale);
    ReadingUndoesPrinting(e.units, e.scale);
    PrintingIsCanonical(d, e);
  }

  lemma SumIsPrinted(a: string, b: string)
    requires Readable(a) && Readable(b)
    ensures Printed(AddMoney(a, b))
  {
    hide UnitsToDecimal, DecimalParts, ScaleUnits, Readable;
    var left, right := DecimalParts(a), DecimalParts(b);
    var scale := MaxScale(left, right);
    assert AddMoney(a, b) == Print(Decimal(ScaleUnits(left, scale) + ScaleUnits(right, scale), scale));
  }

  /** Two sums are the same string exactly when they are the same number. */
  lemma SumsEqual(a: string, b: string, c: string, d: string)
    requires Readable(a) && Readable(b) && Readable(c) && Readable(d)
    ensures AddMoney(a, b) == AddMoney(c, d) <==> Amount(a) + Amount(b) == Amount(c) + Amount(d)
  {
    hide AddMoney, Amount, Readable, Printed;
    AddIsExact(a, b);
    AddIsExact(c, d);
    SumIsPrinted(a, b);
    SumIsPrinted(c, d);
    PrintedEqual(AddMoney(a, b), AddMoney(c, d));
  }

  lemma AddCommutes(a: string, b: string)
    requires Readable(a) && Readable(b)
    ensures AddMoney(a, b) == AddMoney(b, a)
  {
    hide AddMoney, Amount, Readable;
    SumsEqual(a, b, b, a);
  }

  lemma AddAssociates(a: string, b: string, c: string)
    requires Readable(a) && Readable(b) && Readable(c)
    ensures Readable(AddMoney(a, b)) && Readable(AddMoney(b, c))
    ensures AddMoney(AddMoney(a, b), c) == AddMoney(a, AddMoney(b, c))
  {
    hide AddMoney, Amount, Readable;
    AddIsExact(a, b);
    AddIsExact(b, c);
    SumsEqual(AddMoney(a, b), c, a, AddMoney(b, c));
  }

  /** `compareMoney` is the order of the amounts. */
  lemma CompareIsOrder(a: string, b: string)
    requires Readable(a) && Readable(b)
    ensures CompareMoney(a, b) == if Amount(a) == Amount(b) then 0 else if Amount(a) > Amount(b) then 1 else -1
  {
    hide Value, DecimalParts, ScaleUnits, Readable;
    var left, right := DecimalParts(a), DecimalParts(b);
    var scale := MaxScale(left, right);
    var x, y := ScaleUnits(left, scale), ScaleUnits(right, scale);
    ScaledUnitsValue(left, scale);
    ScaledUnitsValue(right, scale);
    ValueOrders(x, y, scale);
    ValueOrders(y, x, scale);
  }

  // ---- Negation

  predicate IsZeroMoney(value: string)
    requires Readable(value)
  {
    DecimalParts(value).units == 0
  }

  function NegateMoney(value: string): string
    requires Readable(value)
  {
    var s := NormalizeMoney(value);
    NormalReads(value);
    if IsZeroMoney(s) then "0" else Switched(s)
  }

  /** The normal form reads as the original does. */
  lemma NormalReads(value: string)
    requires Readable(value)
    ensures Readable(NormalizeMoney(value)) && DecimalParts(NormalizeMoney(value)) == DecimalParts(value)
  {
    hide NormalizeMoney, Cleaned, Plain, Read, PlainDecimalString, Scientific;
    NormalIsReadable(value);
    if Plain(Cleaned(value)) {
      NormalIsPlain(value);
      PlainIsClean(NormalizeMoney(value));
    } else {
      ScientificStays(value);
      ScientificIsClean(Cleaned(value));
    }
    NormalizingTwice(value);
  }

  lemma ZeroValue(d: Decimal)
    ensures d.units == 0 <==> Value(d) == 0.0
  {
    hide Pow10;
    var x, p := d.units as real, Pow10(d.scale) as real;
    assert (x / p) * p == x;
  }

  lemma ValueNegates(d: Decimal)
    ensures Value(Decimal(-d.units, d.scale)) == -Value(d)
  {
    hide Pow10;
    var x, p := d.units as real, Pow10(d.scale) as real;
    assert (-x) / p == -(x / p);
  }

  function Switched(s: string): string {
    if Negative(s) then s[1..] else "-" + s
  }

  /** Text with its sign switched reads as the opposite amount. */
  lemma SwitchedSign(s: string)
    requires Plain(s)
    ensures Plain(Switched(s)) && Read(Switched(s)) == Decimal(-Read(s).units, Read(s).scale)
  {
    hide DigitsValue, BeforeDot, AfterDot;
    OneSign(s);
    assert Unsigned(Switched(s)) == Unsigned(s);
  }

  lemma OneSign(s: string)
    requires Plain(s)
    ensures !(Negative(s) && Negative(s[1..]))
  {
    assert Negative(s) && |s| > 1 ==> Unsigned(s)[0] == s[1];
  }

  /** So does text with an exponent: its coefficient is switched and its exponent stays. */
  lemma SwitchedExponent(s: string)
    requires Scientific(s)
    ensures Scientific(Switched(s)) && Exponent(Switched(s)) == Exponent(s)
    ensures Coefficient(Switched(s)) == Switched(Coefficient(s))
  {
    hide Plain, ParseExponent, AfterMark, BeforeMark, HasMark, Switched, Negative, Unsigned, Sign, IsNumberChar;
    FirstIsCoefficient(Unsigned(s));
    SwitchedParts(s);
    SwitchedCoefficient(Negative(s), BeforeMark(Unsigned(s)));
    SwitchedSign(Coefficient(s));
  }

  lemma SwitchedParts(s: string)
    requires !Negative(Unsigned(s))
    ensures Unsigned(Switched(s)) == Unsigned(s) && Negative(Switched(s)) == !Negative(s)
  {
  }

  lemma SwitchedCoefficient(negative: bool, text: string)
    requires !Negative(text)
    ensures Switched(Sign(negative) + text) == Sign(!negative) + text
  {
  }

  lemma FirstIsCoefficient(u: string)
    ensures Negative(u) ==> Negative(BeforeMark(u))
  {
  }

  lemma SwitchedAmount(s: string)
    requires Plain(s) || Scientific(s)
    ensures Readable(s) && Readable(Switched(s)) && Amount(Switched(s)) == -Amount(s)
  {
    hide Value, Cleaned, Plain, Scientific, Read, Amount, TenTo, Switched;
    if Plain(s) {
      SwitchedSign(s);
      PlainIsClean(s);
      PlainIsClean(Switched(s));
      NormalizingKeepsValue(s);
      NormalizingKeepsValue(Switched(s));
      ValueNegates(Read(s));
    } else {
      SwitchedExponent(s);
      ScientificIsClean(s);
      ScientificIsClean(Switched(s));
      NormalizingKeepsValue(s);
      NormalizingKeepsValue(Switched(s));
      CoefficientIsPlain(s);
      SwitchedSign(Coefficient(s));
      var c := Read(Coefficient(s));
      ValueNegates(c);
      assert (-Value(c)) * TenTo(Exponent(s)) == -(Value(c) * TenTo(Exponent(s)));
    }
  }

  lemma CoefficientIsPlain(s: string)
    requires Scientific(s)
    ensures Plain(Coefficient(s))
  {
  }

  lemma NormalIsText(value: string)
    requires Readable(value)
    ensures Plain(NormalizeMoney(value)) || Scientific(NormalizeMoney(value))
  {
    hide Plain, Scientific, Cleaned, NormalizeMoney;
    if Plain(Cleaned(value)) {
      NormalIsPlain(value);
    } else {
      ScientificStays(value);
    }
  }

  /** `negateMoney` is exact. */
  lemma NegateIsExact(value: string)
    requires Readable(value)
    ensures Readable(NegateMoney(value)) && Amount(NegateMoney(value)) == -Amount(value)
  {
    hide Value, NormalizeMoney, Readable, DecimalParts, Plain, Scientific;
    var s := NormalizeMoney(value);
    NormalReads(value);
    ZeroValue(DecimalParts(value));
    if IsZeroMoney(s) {
      ZeroReads();
    } else {
      NormalIsText(value);
      SwitchedAmount(s);
    }
  }

  /** Negating twice gives back the normal form; zero, whatever its sign, negates to "0". */
  lemma NegateTwice(value: string)
    requires Readable(value)
    ensures Readable(NegateMoney(value))
    ensures IsZeroMoney(value) ==> NegateMoney(value) == "0"
    ensures !IsZeroMoney(value) ==> NegateMoney(NegateMoney(value)) == NormalizeMoney(value)
  {
    hide Value, NormalizeMoney, Readable, DecimalParts, Plain, Scientific;
    NormalReads(value);
    NegateIsExact(value);
    ZeroValue(DecimalParts(value));
    ZeroValue(DecimalParts(NegateMoney(value)));
    if !IsZeroMoney(value) {
      var s := NormalizeMoney(value);
      NormalIsText(value);
      NormalizingTwice(value);
      SwitchedText(s);
      SwitchedIsNormal(s);
      NormalReads(Switched(s));
    }
  }

  lemma SwitchedText(s: string)
    requires Plain(s) || Scientific(s)
    ensures Switched(Switched(s)) == s
  {
    hide DigitsValue, BeforeDot, AfterDot, ParseExponent, AfterMark;
    if Plain(s) {
      OneSign(s);
    } else {
      FirstIsCoefficient(Unsigned(s));
    }
  }

  /** Text that is its own normal form stays so with its sign switched. */
  lemma SwitchedIsNormal(s: string)
    requires (Plain(s) || Scientific(s)) && NormalizeMoney(s) == s
    ensures NormalizeMoney(Switched(s)) == Switched(s)
  {
    hide StripLeadingZeros, StripTrailingZeros, Cleaned, BeforeDot, AfterDot, Plain, Scientific, Compose, Unsigned,
      Negative, Switched, HasDot;
    if Plain(s) {
      SwitchedSign(s);
      PlainIsClean(s);
      PlainIsClean(Switched(s));
      OneSign(s);
      PlainSwitches(s);
      if MoneyPattern(s) {
        var u := Unsigned(s);
        var w, f := StripLeadingZeros(BeforeDot(u)), StripTrailingZeros(AfterDot(u));
        ComposeSwitches(Negative(s), w, f);
      }
    } else {
      SwitchedExponent(s);
      ScientificIsClean(Switched(s));
      ScientificStays(Switched(s));
    }
  }

  lemma PlainSwitches(s: string)
    requires !(Negative(s) && Negative(s[1..]))
    ensures Unsigned(Switched(s)) == Unsigned(s) && Negative(Switched(s)) == !Negative(s)
    ensures MoneyPattern(Switched(s)) == MoneyPattern(s)
  {
    hide BeforeDot, AfterDot, AllDigits;
    assert Unsigned(Switched(s)) == Unsigned(s);
  }

  lemma ComposeSwitches(negative: bool, w: string, f: string)
    requires w != "" && IsDigit(w[0])
    ensures Switched(Compose(negative, w, f)) == Compose(!negative, w, f)
  {
    var tail := if f == "" then "" else "." + f;
    assert Compose(true, w, f) == "-" + (w + tail) && Compose(false, w, f) == w + tail;
    assert (w + tail)[0] == w[0];
  }

  lemma ZeroReads()
    ensures Readable("0") && Amount("0") == 0.0
  {
    hide Value, Readable, Amount;
    assert UnitsToDecimal(0, 0) == "0" by {
      assert Digits(0) == "0";
    }
    ReadingUndoesPrinting(0, 0);
    ZeroValue(Decimal(0, 0));
  }

  function SubtractMoney(a: string, b: string): string
    requires Readable(a) && Readable(b)
  {
    NegateIsExact(b);
    AddMoney(a, NegateMoney(b))
  }

  /** Subtraction undoes addition up to the printed form, and an amount less itself is "0". */
  lemma SubtractUndoesAdd(a: string, b: string)
    requires Readable(a) && Readable(b)
    ensures Readable(AddMoney(a, b)) && SubtractMoney(AddMoney(a, b), b) == Print(DecimalParts(a))
    ensures SubtractMoney(a, a) == "0"
  {
    hide Value, AddMoney, Readable, NegateMoney, DecimalParts, UnitsToDecimal, Printed;
    AddIsExact(a, b);
    NegateIsExact(b);
    NegateIsExact(a);
    var sum := AddMoney(a, b);
    AddIsExact(sum, NegateMoney(b));
    AddIsExact(a, NegateMoney(a));
    SumIsPrinted(sum, NegateMoney(b));
    SumIsPrinted(a, NegateMoney(a));
    PrintsAsItself(a);
    ZeroReads();
    ZeroIsPrinted();
    PrintedEqual(SubtractMoney(sum, b), Print(DecimalParts(a)));
    PrintedEqual(SubtractMoney(a, a), "0");
  }

  lemma PrintsAsItself(a: string)
    requires Readable(a)
    ensures var s := Print(DecimalParts(a)); Printed(s) && Readable(s) && Amount(s) == Amount(a)
  {
    hide Value, UnitsToDecimal, DecimalParts, Readable;
    var d := DecimalParts(a);
    ReadingUndoesPrinting(d.units, d.scale);
  }

  lemma ZeroIsPrinted()
    ensures Printed("0")
  {
    assert Digits(0) == "0";
    assert Print(Decimal(0, 0)) == "0";
  }

  // ---- Exponents as they are written

  lemma {:induction false} MarkAfter(head: string, mark: char, tail: string)
    requires IsMark(mark) && forall i :: 0 <= i < |head| ==> !IsMark(head[i])
    ensures BeforeMark(head + [mark] + tail) == head
  {
    var s := head + [mark] + tail;
    if head == "" {
      assert s[0] == mark;
    } else {
      MarkAfter(head[1..], mark, tail);
      assert s[1..] == head[1..] + [mark] + tail;
    }
  }

  lemma {:induction false} NoMark(s: string)
    requires forall i :: 0 <= i < |s| ==> !IsMark(s[i])
    ensures BeforeMark(s) == s
  {
    if s != "" {
      NoMark(s[1..]);
    }
  }

  /** An exponent as a number is written, with a plus sign or without. */
  predicate WritesExponent(text: string, k: int) {
    text == Sign(k < 0) + Digits(Abs(k)) || (k >= 0 && text == "+" + Digits(k))
  }

  lemma WrittenExponent(text: string, k: int)
    requires WritesExponent(text, k)
    ensures ParseExponent(text) == Some(k)
    ensures forall i :: 0 <= i < |text| ==> !IsMark(text[i]) && IsNumberChar(text[i])
  {
    hide Digits, DigitsValue;
    var digits := Digits(Abs(k));
    DigitsRoundTrip(Abs(k));
    assert text == digits || text[1..] == digits;
    assert text == digits ==> !(text[0] == '-' || text[0] == '+');
  }

  lemma PlainHead(c: string, mark: char, text: string)
    requires Plain(c) && IsMark(mark)
    ensures var s := c + [mark] + text;
            && Negative(s) == Negative(c) && Unsigned(s) == Unsigned(c) + [mark] + text
            && Sign(Negative(c)) + Unsigned(c) == c
            && (forall i :: 0 <= i < |Unsigned(c)| ==> !IsMark(Unsigned(c)[i]) && IsNumberChar(Unsigned(c)[i]))
            && IsNumberChar(mark)
  {
  }

  /** A plain coefficient, a mark of either case and a written whole number read as the coefficient times
      that power of ten. */
  lemma ExponentReads(c: string, mark: char, text: string, k: int)
    requires Plain(c) && IsMark(mark) && WritesExponent(text, k)
    ensures var s := c + [mark] + text; Readable(s) && Amount(s) == Value(Read(c)) * TenTo(k)
  {
    hide Plain, Read, Value, TenTo, BeforeMark, ParseExponent, Amount, Cleaned, WritesExponent, Unsigned,
      IsNumberChar, Sign;
    var s, u := c + [mark] + text, Unsigned(c);
    PlainHead(c, mark, text);
    WrittenExponent(text, k);
    MarkAfter(u, mark, text);
    NoMark(text);
    assert (u + [mark] + text)[|u| + 1..] == text;
    OneSign(c);
    UnsignedIsUnsigned(c);
    assert Scientific(s);
    ScientificIsClean(s);
    NormalizingKeepsValue(s);
  }

  lemma UnsignedIsUnsigned(c: string)
    requires !(Negative(c) && Negative(c[1..]))
    ensures !Negative(Unsigned(c))
  {
  }

  // ---- Rounding

  /** Quotient and remainder of the magnitude, a half or more rounds up. */
  function DivideHalfUp(numerator: int, denominator: int): int
    requires denominator > 0
  {
    var magnitude := Abs(numerator);
    var quotient, remainder := magnitude / denominator, magnitude % denominator;
    var rounded := if 2 * remainder >= denominator then quotient + 1 else quotient;
    if numerator < 0 then -(rounded as int) else rounded
  }

  function RoundUnits(d: Decimal, scale: nat): int {
    if d.scale <= scale then ScaleUnits(d, scale) else DivideHalfUp(d.units, Pow10(d.scale - scale))
  }

  const MAX_SAFE_INTEGER := 9_007_199_254_740_991

  /** A number of the client: a real, or one of the values that are not finite. */
  datatype Number = Finite(value: real) | NotFinite {
    predicate IsSafeInteger() {
      Finite? && value == value.Floor as real && -MAX_SAFE_INTEGER <= value.Floor <= MAX_SAFE_INTEGER
    }

    predicate IsDivisor() {
      IsSafeInteger() && value > 0.0
    }
  }

  /** `scale` is the number of fraction digits of the currency. The amount is only read for a divisor that
      is a positive safe integer. */
  function DivideMoneyByInteger(amount: string, divisor: Number, scale: nat): string
    requires divisor.IsDivisor() ==> Readable(amount)
  {
    if !divisor.IsDivisor() then "0"
    else
      var d := DecimalParts(amount);
      ProductsPositive(divisor.value.Floor, Pow10(d.scale));
      UnitsToDecimal(DivideHalfUp(d.units * Pow10(scale), divisor.value.Floor * Pow10(d.scale)), scale)
  }

  /** The client rounds as the server does: to the nearest integer, halves away from zero. */
  lemma ClientRoundsLikeServer(n: int, d: int)
    requires d > 0
    ensures DivideHalfUp(n, d) == RoundHalfAway(n, d)
  {
    var m := Abs(n);
    var q, r := m / d, m % d;
    var rounded := if 2 * r >= d then q + 1 else q;
    assert m == q * d + r;
    assert (q + 1) * d == q * d + d;
    RoundingIsExact(m, d, rounded);
    RoundingIsOdd(m, d);
  }

  /** Rounding to a currency's digits moves an amount by at most half a minor unit. */
  lemma RoundUnitsIsNearest(d: Decimal, scale: nat)
    ensures -1.0 <= 2.0 * (RoundUnits(d, scale) as real - Value(d) * Pow10(scale) as real) <= 1.0
    ensures d.scale <= scale ==> RoundUnits(d, scale) as real == Value(d) * Pow10(scale) as real
  {
    hide Pow10, RoundHalfAway, DivideHalfUp, ScaleUnits, Value;
    if d.scale <= scale {
      ScaledUnitsValue(d, scale);
      ValueTimes(ScaleUnits(d, scale), scale);
      var exact := Value(d) * Pow10(scale) as real;
      assert exact == ScaleUnits(d, scale) as real == RoundUnits(d, scale) as real;
    } else {
      var p := Pow10(d.scale - scale);
      ClientRoundsLikeServer(d.units, p);
      OneDayDrift(d.units, p);
      CoarserUnits(d, scale);
    }
  }

  lemma ValueTimes(units: int, scale: nat)
    ensures Value(Decimal(units, scale)) * Pow10(scale) as real == units as real
  {
    hide Pow10;
    var x, p := units as real, Pow10(scale) as real;
    assert (x / p) * p == x;
  }

  lemma CoarserUnits(d: Decimal, scale: nat)
    requires scale < d.scale
    ensures Value(d) * Pow10(scale) as real == Quotient(d.units, Pow10(d.scale - scale))
  {
    hide Pow10;
    var k := d.scale - scale;
    Pow10Add(scale, k);
    var s, p := Pow10(scale), Pow10(k);
    assert Pow10(d.scale) as real == s as real * p as real;
    QuotientTimes(d.units as real, s as real, p as real);
  }

  lemma QuotientTimes(u: real, s: real, p: real)
    requires s > 0.0 && p > 0.0
    ensures u / (s * p) * s == u / p
  {
    var q := u / (s * p);
    assert q * (s * p) == u;
    assert (q * s) * p == u;
    assert (q * s) * p / p == q * s;
  }

  lemma DivisionGap(n: real, r: real, s: real, u: real, t: real)
    requires s > 0.0 && t > 0.0
    requires -(n * t) <= 2.0 * (r * (n * t) - u * s) <= n * t
    ensures -n <= 2.0 * (n * (r / s) - u / t) * s <= n
  {
    var gap := 2.0 * (n * (r / s) - u / t) * s;
    assert (r / s) * s == r && (u / t) * t == u;
    GapProduct(n, r / s, s, u / t, t);
    assert gap * t == 2.0 * (r * (n * t) - u * s);
    RealProductsOrdered(t, gap, n);
    RealProductsOrdered(t, -n, gap);
  }

  lemma GapProduct(n: real, a: real, s: real, b: real, t: real)
    ensures 2.0 * (n * a - b) * s * t == 2.0 * (a * s * (n * t) - b * t * s)
  {
    calc {
      (n * a - b) * s * t;
      (n * a) * s * t - b * s * t;
      a * s * (n * t) - b * t * s;
    }
  }

  /** n times the n-th part is within n/2 minor units of the amount, and the part is whole minor units. */
  lemma DivideIsNearest(amount: string, n: int, scale: nat)
    requires Readable(amount) && 0 < n < 9_007_199_254_740_992
    ensures var part := DivideMoneyByInteger(amount, Finite(n as real), scale);
            var minor := Pow10(scale) as real;
            && Readable(part)
            && -(n as real) <= 2.0 * (n as real * Amount(part) - Amount(amount)) * minor <= n as real
            && exists units :: Amount(part) == Value(Decimal(units, scale))
  {
    hide Pow10, RoundHalfAway, DivideHalfUp, UnitsToDecimal, Readable, DecimalParts;
    var d := DecimalParts(amount);
    var s, t := Pow10(scale), Pow10(d.scale);
    ProductsPositive(n, t);
    var r := DivideHalfUp(d.units * s, n * t);
    ClientRoundsLikeServer(d.units * s, n * t);
    RoundingError(d.units * s, n * t);
    ReadingUndoesPrinting(r, scale);
    assert (r * (n * t)) as real == r as real * (n as real * t as real);
    DivisionGap(n as real, r as real, s as real, d.units as real, t as real);
  }

  /** Any other divisor yields "0", which reads as zero, whatever the text of the amount. */
  lemma BadDivisor(amount: string, divisor: Number, scale: nat)
    requires divisor.Finite? ==> divisor.value != divisor.value.Floor as real
                                 || divisor.value <= 0.0 || divisor.value >= 9_007_199_254_740_992.0
    ensures var part := DivideMoneyByInteger(amount, divisor, scale);
            part == "0" && Readable(part) && Amount(part) == 0.0
  {
    hide Readable, DecimalParts, Value;
    ZeroReads();
  }
}
