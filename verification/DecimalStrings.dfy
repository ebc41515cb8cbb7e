/** Decimal strings of the web client: reading an amount, printing it, and its normal form. */
module DecimalStrings {
  import opened Money

  // ---- Digits

  predicate IsDigit(c: char) {
    '0' <= c <= '9'
  }

  predicate AllDigits(s: string) {
    forall i :: 0 <= i < |s| ==> IsDigit(s[i])
  }

  function DigitValue(c: char): (d: nat)
    requires IsDigit(c)
    ensures d < 10
  {
    c as int - '0' as int
  }

  function DigitChar(d: nat): (c: char)
    requires d < 10
    ensures IsDigit(c) && DigitValue(c) == d
  {
    ('0' as int + d) as char
  }

  /** The number a string of digits denotes. */
  function DigitsValue(s: string): nat
    requires AllDigits(s)
  {
    if s == "" then 0 else 10 * DigitsValue(s[..|s| - 1]) + DigitValue(s[|s| - 1])
  }

  /** The decimal digits of a number, without leading zeros. */
  function Digits(n: nat): (s: string)
    ensures |s| >= 1 && AllDigits(s)
  {
    if n < 10 then [DigitChar(n)] else Digits(n / 10) + [DigitChar(n % 10)]
  }

  function Zeros(n: nat): (s: string)
    ensures |s| == n && AllDigits(s) && forall i :: 0 <= i < n ==> s[i] == '0'
  {
    if n == 0 then "" else Zeros(n - 1) + "0"
  }

  /** Zeros in front up to the given length. */
  function PadStart(s: string, length: nat): (r: string)
    ensures |r| == (if length <= |s| then |s| else length)
    ensures AllDigits(s) ==> AllDigits(r)
  {
    if length <= |s| then s else Zeros(length - |s|) + s
  }

  lemma DigitsValueSnoc(s: string, c: char)
    requires AllDigits(s) && IsDigit(c)
    ensures AllDigits(s + [c]) && DigitsValue(s + [c]) == 10 * DigitsValue(s) + DigitValue(c)
  {
    assert (s + [c])[..|s|] == s;
  }

  lemma {:induction false} DigitsValueConcat(s: string, r: string)
    requires AllDigits(s) && AllDigits(r)
    ensures AllDigits(s + r) && DigitsValue(s + r) == DigitsValue(s) * Pow10(|r|) + DigitsValue(r)
    decreases |r|
  {
    if r == "" {
      assert s + r == s;
    } else {
      var n := |r| - 1;
      DigitsValueConcat(s, r[..n]);
      ConcatSnoc(s, r[..n], r[n]);
      assert r == r[..n] + [r[n]];
    }
  }

  lemma ConcatSnoc(s: string, r: string, c: char)
    requires AllDigits(s) && AllDigits(r) && IsDigit(c) && AllDigits(s + r)
    requires DigitsValue(s + r) == DigitsValue(s) * Pow10(|r|) + DigitsValue(r)
    ensures AllDigits(s + (r + [c])) && AllDigits(r + [c])
    ensures DigitsValue(s + (r + [c])) == DigitsValue(s) * Pow10(|r + [c]|) + DigitsValue(r + [c])
  {
    hide DigitsValue, Pow10;
    assert s + (r + [c]) == (s + r) + [c];
    DigitsValueSnoc(s + r, c);
    DigitsValueSnoc(r, c);
    ShiftLeft(DigitsValue(s), Pow10(|r|));
    TenthPower(|r|);
  }

  lemma TenthPower(n: nat)
    ensures Pow10(n + 1) == 10 * Pow10(n)
  {
  }

  lemma ShiftLeft(a: int, p: int)
    ensures 10 * (a * p) == a * (10 * p)
  {
  }

  lemma {:induction false} DigitsRoundTrip(n: nat)
    ensures DigitsValue(Digits(n)) == n
  {
    if n < 10 {
      assert Digits(n) == [DigitChar(n)];
      DigitsValueSnoc("", DigitChar(n));
      assert "" + [DigitChar(n)] == [DigitChar(n)];
    } else {
      DigitsRoundTrip(n / 10);
      DigitsValueSnoc(Digits(n / 10), DigitChar(n % 10));
    }
  }

  lemma {:induction false} ZerosValue(n: nat)
    ensures DigitsValue(Zeros(n)) == 0
  {
    if n > 0 {
      ZerosValue(n - 1);
      DigitsValueSnoc(Zeros(n - 1), '0');
    }
  }

  lemma PadValue(s: string, length: nat)
    requires AllDigits(s)
    ensures DigitsValue(PadStart(s, length)) == DigitsValue(s)
  {
    hide DigitsValue, Pow10, Zeros;
    if length > |s| {
      var k := length - |s|;
      ZerosValue(k);
      DigitsValueConcat(Zeros(k), s);
      assert 0 * Pow10(|s|) == 0;
    }
  }

  lemma {:induction false} ZeroDigits(s: string)
    requires AllDigits(s) && DigitsValue(s) == 0
    ensures s == Zeros(|s|)
  {
    if s != "" {
      var n := |s| - 1;
      assert s == s[..n] + [s[n]];
      DigitsValueSnoc(s[..n], s[n]);
      hide DigitsValue;
      ZeroDigits(s[..n]);
    }
  }

  lemma PadSnoc(s: string, c: char, length: nat)
    ensures PadStart(s + [c], length + 1) == PadStart(s, length) + [c]
  {
  }

  /** A digit string without surplus leading zeros is what its value prints as. */
  lemma {:induction false} PadDigits(s: string, length: nat)
    requires AllDigits(s) && 1 <= length <= |s| && (|s| == length || s[0] != '0')
    ensures PadStart(Digits(DigitsValue(s)), length) == s
  {
    var n := |s| - 1;
    var rest, c := s[..n], s[n];
    assert s == rest + [c];
    if DigitsValue(rest) == 0 {
      ZeroDigits(rest);
      assert n > 0 ==> s[0] == rest[0] == '0';
      OneDigit(c);
    } else {
      hide Zeros, PadStart, DigitsValue;
      MoreDigits(rest, c);
      PadDigits(rest, if length == 1 then 1 else length - 1);
      PadSnoc(Digits(DigitsValue(rest)), c, length - 1);
      Unpadded(Digits(DigitsValue(rest)), length);
    }
  }

  lemma OneDigit(c: char)
    requires IsDigit(c)
    ensures Digits(DigitValue(c)) == [c]
  {
  }

  lemma MoreDigits(s: string, c: char)
    requires AllDigits(s) && IsDigit(c) && DigitsValue(s) > 0
    ensures AllDigits(s + [c]) && Digits(DigitsValue(s + [c])) == Digits(DigitsValue(s)) + [c]
    ensures s != ""
  {
    DigitsValueSnoc(s, c);
  }

  lemma Unpadded(s: string, length: nat)
    requires s != ""
    ensures length <= 1 ==> PadStart(s, length) == s
    ensures PadStart(s, 0) == PadStart(s, 1) == s
  {
  }

  // ---- Zeros that do not matter

  function StripTrailingZeros(s: string): (r: string)
    ensures r <= s && (r == "" || r[|r| - 1] != '0')
    ensures AllDigits(s) ==> AllDigits(r)
  {
    if s != "" && s[|s| - 1] == '0' then StripTrailingZeros(s[..|s| - 1]) else s
  }

  /** Leading zeros go while another digit follows. */
  function StripLeadingZeros(s: string): (r: string)
    ensures |r| <= |s| && (AllDigits(s) ==> AllDigits(r))
    ensures s != "" ==> r != ""
    ensures |r| <= 1 || r[0] != '0' || !IsDigit(r[1])
  {
    if |s| >= 2 && s[0] == '0' && IsDigit(s[1]) then StripLeadingZeros(s[1..]) else s
  }

  lemma {:induction false} TrailingZerosValue(s: string)
    requires AllDigits(s)
    ensures var r := StripTrailingZeros(s); DigitsValue(s) == DigitsValue(r) * Pow10(|s| - |r|)
  {
    if s != "" && s[|s| - 1] == '0' {
      var n := |s| - 1;
      TrailingZerosValue(s[..n]);
      var r := StripTrailingZeros(s);
      var v, p := DigitsValue(r), Pow10(n - |r|);
      assert Pow10(|s| - |r|) == 10 * p;
      ShiftLeft(v, p);
    }
  }

  lemma {:induction false} LeadingZerosValue(s: string)
    requires AllDigits(s)
    ensures DigitsValue(StripLeadingZeros(s)) == DigitsValue(s)
  {
    if |s| >= 2 && s[0] == '0' {
      LeadingZerosValue(s[1..]);
      DigitsValueConcat(s[..1], s[1..]);
      assert s[..1] + s[1..] == s;
      assert s[..1] == Zeros(1);
      ZerosValue(1);
    }
  }

  // ---- The text of an amount

  predicate IsSpace(c: char) {
    || '\U{0009}' <= c <= '\U{000D}' || c == ' ' || c == '\U{00A0}' || c == '\U{1680}' || '\U{2000}' <= c <= '\U{200A}'
    || c == '\U{2028}' || c == '\U{2029}' || c == '\U{202F}' || c == '\U{205F}' || c == '\U{3000}' || c == '\U{FEFF}'
  }

  function Trim(s: string): string {
    if s != "" && IsSpace(s[0]) then Trim(s[1..])
    else if s != "" && IsSpace(s[|s| - 1]) then Trim(s[..|s| - 1])
    else s
  }

  /** Only the first comma becomes a decimal point. */
  function CommaToDot(s: string): string {
    if s == "" then "" else if s[0] == ',' then "." + s[1..] else [s[0]] + CommaToDot(s[1..])
  }

  function Cleaned(value: string): string {
    CommaToDot(Trim(value))
  }

  predicate Negative(s: string) {
    s != "" && s[0] == '-'
  }

  function Unsigned(s: string): string {
    if Negative(s) then s[1..] else s
  }

  function BeforeDot(s: string): (r: string)
    ensures r <= s
  {
    if s == "" || s[0] == '.' then "" else [s[0]] + BeforeDot(s[1..])
  }

  predicate HasDot(s: string) {
    |BeforeDot(s)| < |s|
  }

  /** The text between the first point and the next one, if any. */
  function AfterDot(s: string): string {
    if HasDot(s) then BeforeDot(s[|BeforeDot(s)| + 1..]) else ""
  }

  /** An optional minus, digits, and optionally a point with more digits. */
  predicate MoneyPattern(s: string) {
    var u := Unsigned(s);
    var whole, fraction := BeforeDot(u), AfterDot(u);
    && whole != "" && AllDigits(whole) && AllDigits(fraction)
    && (HasDot(u) ==> fraction != "" && |u| == |whole| + 1 + |fraction|)
  }

  function Compose(negative: bool, whole: string, fraction: string): string {
    (if negative then "-" else "") + whole + if fraction == "" then "" else "." + fraction
  }

  function NormalizeMoney(value: string): string {
    var s := Cleaned(value);
    if !MoneyPattern(s) then s
    else
      var u := Unsigned(s);
      Compose(Negative(s), StripLeadingZeros(BeforeDot(u)), StripTrailingZeros(AfterDot(u)))
  }

  /** Text of digits and points after an optional minus. */
  predicate Plain(s: string) {
    forall i :: 0 <= i < |Unsigned(s)| ==> IsDigit(Unsigned(s)[i]) || Unsigned(s)[i] == '.'
  }

  datatype Decimal = Decimal(units: int, scale: nat)

  function Signed(negative: bool, n: nat): int {
    if negative then -(n as int) else n as int
  }

  /** The rational a decimal stands for. */
  function Value(d: Decimal): real {
    d.units as real / Pow10(d.scale) as real
  }

  lemma {:induction false} DigitsBeforeDot(s: string)
    requires forall i :: 0 <= i < |s| ==> IsDigit(s[i]) || s[i] == '.'
    ensures AllDigits(BeforeDot(s))
  {
    if s != "" && s[0] != '.' {
      DigitsBeforeDot(s[1..]);
    }
  }

  lemma PlainParts(s: string)
    requires Plain(s)
    ensures AllDigits(BeforeDot(Unsigned(s))) && AllDigits(AfterDot(Unsigned(s)))
  {
    var u := Unsigned(s);
    DigitsBeforeDot(u);
    if HasDot(u) {
      DigitsBeforeDot(u[|BeforeDot(u)| + 1..]);
    }
  }

  /** Reading plain text as it stands. */
  function Read(s: string): Decimal
    requires Plain(s)
  {
    PlainParts(s);
    var u := Unsigned(s);
    var whole, fraction := BeforeDot(u), AfterDot(u);
    Decimal(Signed(Negative(s), DigitsValue((if whole == "" then "0" else whole) + fraction)), |fraction|)
  }

  function UnitsToDecimal(units: int, scale: nat): string {
    var raw := PadStart(Digits(if units < 0 then -units else units), scale + 1);
    var n := |raw| - scale;
    Compose(units < 0, raw[..n], if scale == 0 then "" else StripTrailingZeros(raw[n..]))
  }

  // ---- Composed text

  lemma {:induction false} DotAfterDigits(whole: string, tail: string)
    requires AllDigits(whole) && (tail == "" || tail[0] == '.')
    ensures BeforeDot(whole + tail) == whole
  {
    if whole == "" {
      assert whole + tail == tail;
    } else {
      DotAfterDigits(whole[1..], tail);
      assert (whole + tail)[1..] == whole[1..] + tail;
    }
  }

  /** Composed text falls apart into its parts. */
  lemma ComposeParts(negative: bool, whole: string, fraction: string)
    requires AllDigits(whole) && AllDigits(fraction) && whole != ""
    ensures var s := Compose(negative, whole, fraction);
            && Negative(s) == negative
            && BeforeDot(Unsigned(s)) == whole && AfterDot(Unsigned(s)) == fraction
            && Plain(s) && MoneyPattern(s)
  {
    var s := Compose(negative, whole, fraction);
    var tail := if fraction == "" then "" else "." + fraction;
    assert Unsigned(s) == whole + tail;
    DotAfterDigits(whole, tail);
    if fraction != "" {
      assert (whole + tail)[|whole| + 1..] == fraction + "";
      DotAfterDigits(fraction, "");
      assert fraction + "" == fraction;
    }
  }

  lemma PatternIsPlain(s: string)
    requires MoneyPattern(s)
    ensures Plain(s)
  {
    var u := Unsigned(s);
    var whole, fraction := BeforeDot(u), AfterDot(u);
    forall i | 0 <= i < |u| ensures IsDigit(u[i]) || u[i] == '.' {
      if i < |whole| {
        assert u[i] == whole[i];
      } else if i > |whole| {
        assert u[i] == u[|whole| + 1..][i - |whole| - 1] == fraction[i - |whole| - 1];
      } else {
        DotIsNext(u);
      }
    }
  }

  lemma {:induction false} DotIsNext(s: string)
    requires HasDot(s)
    ensures s[|BeforeDot(s)|] == '.'
  {
    if s[0] != '.' {
      DotIsNext(s[1..]);
    }
  }

  ghost predicate Composed(s: string, negative: bool, whole: string, fraction: string) {
    whole != "" && AllDigits(whole) && AllDigits(fraction) && s == Compose(negative, whole, fraction)
  }

  /** The money pattern is digits after an optional minus, with or without a point and more digits. */
  lemma PatternExactly(s: string)
    ensures MoneyPattern(s) <==> exists negative, whole, fraction :: Composed(s, negative, whole, fraction)
  {
    hide MoneyPattern, Compose, BeforeDot, AfterDot, AllDigits;
    if MoneyPattern(s) {
      PatternComposes(s);
      assert Composed(s, Negative(s), BeforeDot(Unsigned(s)), AfterDot(Unsigned(s)));
    }
    if negative, whole, fraction :| Composed(s, negative, whole, fraction) {
      ComposeParts(negative, whole, fraction);
    }
  }

  lemma PatternComposes(s: string)
    requires MoneyPattern(s)
    ensures Composed(s, Negative(s), BeforeDot(Unsigned(s)), AfterDot(Unsigned(s)))
  {
    hide AllDigits, BeforeDot, AfterDot, HasDot, Unsigned, Negative;
    var u := Unsigned(s);
    var whole, fraction := BeforeDot(u), AfterDot(u);
    UnsignedParts(u);
    SignedParts(s, whole, if fraction == "" then "" else "." + fraction);
  }

  lemma UnsignedParts(u: string)
    requires HasDot(u) ==> AfterDot(u) != "" && |u| == |BeforeDot(u)| + 1 + |AfterDot(u)|
    ensures u == BeforeDot(u) + if AfterDot(u) == "" then "" else "." + AfterDot(u)
  {
    hide BeforeDot;
    var whole := BeforeDot(u);
    if HasDot(u) {
      DotIsNext(u);
      WholeTail(u[|whole| + 1..], AfterDot(u));
    }
  }

  lemma SignedParts(s: string, whole: string, tail: string)
    requires Unsigned(s) == whole + tail
    ensures s == (if Negative(s) then "-" else "") + whole + tail
  {
    assert s == (if Negative(s) then "-" else "") + Unsigned(s);
  }

  lemma WholeTail(tail: string, fraction: string)
    requires fraction == BeforeDot(tail) && |tail| == |fraction|
    ensures tail == fraction
  {
  }

  lemma NormalIsPlain(value: string)
    requires Plain(Cleaned(value))
    ensures Plain(NormalizeMoney(value))
  {
    hide StripLeadingZeros, StripTrailingZeros, Cleaned, Compose, Plain;
    var s := Cleaned(value);
    if MoneyPattern(s) {
      var u := Unsigned(s);
      ComposeParts(Negative(s), StripLeadingZeros(BeforeDot(u)), StripTrailingZeros(AfterDot(u)));
    }
  }

  // ---- Values

  lemma RealQuotient(a: int, p: int, k: int)
    requires p > 0 && k > 0
    ensures (a * k) as real / (p * k) as real == a as real / p as real
  {
    var x, y, z := a as real, p as real, k as real;
    assert (a * k) as real == x * z && (p * k) as real == y * z;
    assert (x * z) / (y * z) == x / y;
  }

  /** Trailing zeros do not change the value. */
  lemma ScaledValue(units: int, scale: nat, k: nat)
    ensures Value(Decimal(units * Pow10(k), scale + k)) == Value(Decimal(units, scale))
  {
    hide Pow10;
    Pow10Add(scale, k);
    RealQuotient(units, Pow10(scale), Pow10(k));
  }

  lemma SameScale(a: int, b: int, scale: nat)
    requires Value(Decimal(a, scale)) == Value(Decimal(b, scale))
    ensures a == b
  {
    hide Pow10;
    var p := Pow10(scale) as real;
    assert a as real / p == b as real / p;
    assert (a as real / p) * p == a as real;
    assert (b as real / p) * p == b as real;
  }

  /** Reading sees through surplus zeros on either side. */
  lemma ReadParts(whole: string, fraction: string)
    requires AllDigits(whole) && AllDigits(fraction) && whole != ""
    ensures var w, f := StripLeadingZeros(whole), StripTrailingZeros(fraction);
            && AllDigits(w + f)
            && DigitsValue(whole + fraction) == DigitsValue(w + f) * Pow10(|fraction| - |f|)
  {
    hide StripLeadingZeros, StripTrailingZeros, DigitsValue, Pow10, AllDigits;
    var w, f := StripLeadingZeros(whole), StripTrailingZeros(fraction);
    var k := |fraction| - |f|;
    DigitsValueConcat(whole, fraction);
    DigitsValueConcat(w, f);
    LeadingZerosValue(whole);
    TrailingZerosValue(fraction);
    Pow10Add(|f|, k);
    var v, a, b, x := DigitsValue(whole), Pow10(|f|), Pow10(k), DigitsValue(f);
    assert v * (a * b) + x * b == (v * a + x) * b;
  }

  /** Normalizing plain text keeps its value. */
  lemma NormalizingPlainText(value: string)
    requires Plain(Cleaned(value))
    ensures Plain(NormalizeMoney(value)) && Value(Read(NormalizeMoney(value))) == Value(Read(Cleaned(value)))
  {
    hide StripLeadingZeros, StripTrailingZeros, Cleaned, Read, Value, Plain, Compose, BeforeDot, AfterDot;
    var s := Cleaned(value);
    NormalIsPlain(value);
    if MoneyPattern(s) {
      var u := Unsigned(s);
      var whole, fraction := BeforeDot(u), AfterDot(u);
      var w, f := StripLeadingZeros(whole), StripTrailingZeros(fraction);
      ComposeParts(Negative(s), w, f);
      ReadIs(s);
      ReadIs(NormalizeMoney(value));
      StrippingKeepsValue(Negative(s), whole, fraction);
    }
  }

  lemma ReadIs(s: string)
    requires Plain(s) && BeforeDot(Unsigned(s)) != ""
    ensures var whole, fraction := BeforeDot(Unsigned(s)), AfterDot(Unsigned(s));
            && AllDigits(whole + fraction)
            && Read(s) == Decimal(Signed(Negative(s), DigitsValue(whole + fraction)), |fraction|)
  {
    hide Plain, BeforeDot, AfterDot, DigitsValue;
    PlainParts(s);
  }

  lemma StrippingKeepsValue(negative: bool, whole: string, fraction: string)
    requires AllDigits(whole) && AllDigits(fraction) && whole != ""
    ensures var w, f := StripLeadingZeros(whole), StripTrailingZeros(fraction);
            && AllDigits(w + f)
            && Value(Decimal(Signed(negative, DigitsValue(w + f)), |f|))
               == Value(Decimal(Signed(negative, DigitsValue(whole + fraction)), |fraction|))
  {
    hide StripLeadingZeros, StripTrailingZeros, DigitsValue, Pow10, Value, AllDigits;
    var w, f := StripLeadingZeros(whole), StripTrailingZeros(fraction);
    ReadParts(whole, fraction);
    var units, k := DigitsValue(w + f), |fraction| - |f|;
    ScaledValue(Signed(negative, units), |f|, k);
    assert (-units) * Pow10(k) == -(units * Pow10(k));
  }

  lemma StrippedValue(raw: string, n: nat)
    requires AllDigits(raw) && n <= |raw|
    ensures var f := StripTrailingZeros(raw[n..]);
            && AllDigits(raw[..n] + f)
            && DigitsValue(raw) == DigitsValue(raw[..n] + f) * Pow10(|raw| - n - |f|)
  {
    hide StripTrailingZeros, DigitsValue, Pow10;
    var whole, fraction := raw[..n], raw[n..];
    var f := StripTrailingZeros(fraction);
    var k := |fraction| - |f|;
    assert raw == whole + fraction;
    DigitsValueConcat(whole, fraction);
    DigitsValueConcat(whole, f);
    TrailingZerosValue(fraction);
    Pow10Add(|f|, k);
    var v, a, b, x := DigitsValue(whole), Pow10(|f|), Pow10(k), DigitsValue(f);
    assert v * (a * b) + x * b == (v * a + x) * b;
  }
}
