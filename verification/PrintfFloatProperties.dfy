/** What fmtflt()'s output amounts to: its width, and the number it denotes. */
module PrintfFloatProperties {
  import opened PrintfText
  import opened PrintfDigits
  import opened PrintfOutput
  import opened PrintfIntegerProperties
  import opened PrintfDecimal
  import opened PrintfRounding
  import opened PrintfFloat

  // ---- Width

  /** The field of every finite value is exactly as wide as asked for, or as its
      content if that is wider. */
  lemma FloatWidth(value: real, width: nat, precision: int, flags: Flags)
    requires ValidPrecision(precision, flags) && FloatText(value, width, precision, flags).Text?
    ensures FloatText(value, 0, precision, flags).Text?
    ensures |FloatText(value, width, precision, flags).text|
            == Max(width, |FloatText(value, 0, precision, flags).text|)
  {
    hide RoundFloat, Digits, Grouped, RenderFloat, FractionText, ExponentText, PointText, StripCommas;
    var r := RoundFloat(value, precision, flags);
    var p := FloatPieces(value, r, flags);
    DigitsHaveNoComma(r.intpart, 10, false);
    GroupedCount(p.digits, flags.quote);
    RenderLength(p, FloatPad(p, width, flags), flags);
    RenderLength(p, FloatPad(p, 0, flags), flags);
  }

  lemma RenderLength(p: Pieces, pad: nat, flags: Flags)
    ensures |RenderFloat(p, pad, flags)|
            == |p.sign| + |Grouped(p.digits, flags.quote)| + |p.tail| + pad
  {
  }

  // ---- Reading back

  predicate Figure(ch: char) {
    ch == ',' || DigitValue(ch) < 10
  }

  predicate Mark(ch: char) {
    ch == 'e' || ch == 'E'
  }

  function FigureSpan(s: string): (n: nat)
    ensures n <= |s|
  {
    Span(s, ch => Figure(ch))
  }

  function AfterPoint(c: string): string {
    if c != [] && c[0] == '.' then c[1..FigureSpan(c[1..]) + 1] else ""
  }

  function AfterFraction(c: string): string {
    if c != [] && c[0] == '.' then c[FigureSpan(c[1..]) + 1..] else c
  }

  function ExponentRead(d: string): int {
    if d != [] && Mark(d[0]) then ReadInt(d[1..], 10) else 0
  }

  /** The number that integer and fraction digits denote. */
  function Decimal(digits: string, fraction: string): real {
    PowerPositive(10, |fraction|);
    (Value(digits, 10) * Power(10, |fraction|) + Value(fraction, 10)) as real / Power(10, |fraction|) as real
  }

  /** m times ten to the e. */
  function Shifted(m: real, e: int): real {
    m * MyPow10(e)
  }

  /** The number a text denotes to a reader who skips blanks, takes a sign, digits
      with commas, a fraction behind a point, and an exponent. */
  function ReadReal(s: string): real {
    var a := SkipBlanks(s);
    var b := SkipSign(a);
    var c := b[FigureSpan(b)..];
    var magnitude := Shifted(Decimal(StripCommas(b[..FigureSpan(b)]), AfterPoint(c)), ExponentRead(AfterFraction(c)));
    if a != [] && a[0] == '-' then -magnitude else magnitude
  }

  lemma FigureSpanExact(a: string, b: string)
    requires forall i :: 0 <= i < |a| ==> Figure(a[i])
    requires b == [] || !Figure(b[0])
    ensures FigureSpan(a + b) == |a| && (a + b)[..|a|] == a && (a + b)[|a|..] == b
  {
    SpanExact(a, b, ch => Figure(ch));
  }

  /** A tail made of point, fraction and exponent comes apart again. */
  lemma TailRead(point: string, fraction: string, rest: string)
    requires point == "." || (point == "" && fraction == "")
    requires forall i :: 0 <= i < |fraction| ==> Figure(fraction[i])
    requires rest == [] || (!Figure(rest[0]) && rest[0] != '.')
    ensures AfterPoint(point + fraction + rest) == fraction
    ensures AfterFraction(point + fraction + rest) == rest
  {
    var c := point + fraction + rest;
    if point == "." {
      FigureSpanExact(fraction, rest);
      assert c[1..] == fraction + rest;
      assert c[1..|fraction| + 1] == fraction;
      assert c[|fraction| + 1..] == rest;
    } else {
      assert c == rest;
    }
  }

  // ---- The exponent

  lemma TwoDigits(a: char, b: char)
    ensures Value([a, b], 10) == 10 * DigitValue(a) + DigitValue(b)
  {
    ValueSnoc([a], b, 10);
    ValueSnoc([], a, 10);
    assert [a] + [b] == [a, b] && [] + [a] == [a];
  }

  lemma LastTwo(magnitude: nat)
    ensures ExponentDigits(magnitude) == [DigitChar(magnitude / 10 % 10, false), DigitChar(magnitude % 10, false)]
  {
    ConvertedTail(magnitude, 10, false);
    if magnitude / 10 != 0 {
      ConvertedTail(magnitude / 10, 10, false);
    }
  }

  lemma LastTwoValue(m: nat)
    ensures 10 * (m / 10 % 10) + m % 10 == m % 100
  {
  }

  /** What two digits say. */
  lemma ExponentDigitsValue(magnitude: nat)
    ensures AllDigits(ExponentDigits(magnitude), 10) && |ExponentDigits(magnitude)| == 2
    ensures Value(ExponentDigits(magnitude), 10) == magnitude % 100
  {
    LastTwo(magnitude);
    DigitCharValue(magnitude / 10 % 10, false);
    DigitCharValue(magnitude % 10, false);
    TwoDigits(DigitChar(magnitude / 10 % 10, false), DigitChar(magnitude % 10, false));
    LastTwoValue(magnitude);
  }

  /** The exponent as two digits tell it. */
  function TwoDigitExponent(exponent: int): int {
    if exponent < 0 then -(-exponent % 100) else exponent % 100
  }

  lemma PlainGrouped(a: char, b: char)
    ensures Grouped([a, b], false) == [a, b]
  {
    assert [a, b][1..] == [b] && [b][1..] == [];
    assert Grouped([b], false) == [b];
  }

  /** A two-digit number with a sign, and blanks behind it. */
  lemma SignedRead(sign: string, digits: string, blanks: nat)
    requires sign in {"-", "+"} && |digits| == 2 && AllDigits(digits, 10)
    ensures ReadInt(sign + digits + Repeat(' ', blanks), 10)
            == if sign == "-" then -(Value(digits, 10) as int) else Value(digits, 10)
  {
    hide ReadInt, FiguresShown, Value, Grouped, AllDigits, Repeat;
    PlainGrouped(digits[0], digits[1]);
    assert digits == [digits[0], digits[1]];
    BodyReads(0, sign, "", 0, digits, false, blanks, 10);
    NoPadding(sign, digits, Repeat(' ', blanks));
  }

  lemma NoPadding(sign: string, digits: string, right: string)
    ensures Repeat(' ', 0) + (sign + ("" + (Repeat('0', 0) + digits + right))) == sign + digits + right
  {
    assert Repeat(' ', 0) == "" && Repeat('0', 0) == "";
  }

  lemma ExponentTextRead(r: Rounded, flags: Flags, blanks: nat)
    requires r.Rounded?
    ensures var rest := ExponentText(r, flags) + Repeat(' ', blanks);
      && ExponentRead(rest) == (if r.estyle then TwoDigitExponent(r.exponent) else 0)
      && (rest == [] || (!Figure(rest[0]) && rest[0] != '.'))
  {
    hide ReadInt, AllDigits, Value, ExponentDigits;
    if r.estyle {
      var sign := [if r.exponent < 0 then '-' else '+'];
      var digits := ExponentDigits(if r.exponent < 0 then -r.exponent else r.exponent);
      ExponentDigitsValue(if r.exponent < 0 then -r.exponent else r.exponent);
      SignedRead(sign, digits, blanks);
      var rest := ExponentText(r, flags) + Repeat(' ', blanks);
      assert rest[1..] == sign + digits + Repeat(' ', blanks);
    }
  }

  // ---- The fraction

  lemma ScaleBoth(v: nat, f: nat, p: nat)
    requires p >= 1
    ensures (v * p + f) as real / p as real == (v * (10 * p) + 10 * f) as real / (10 * p) as real
  {
    var n := v * p + f;
    assert v * (10 * p) + 10 * f == 10 * n;
    TenOverTen(n as real, p as real);
  }

  lemma TenOverTen(n: real, p: real)
    requires p > 0.0
    ensures n / p == (10.0 * n) / (10.0 * p)
  {
    assert (n / p) * (10.0 * p) == 10.0 * n;
  }

  lemma {:induction false} DropKeepsDecimal(digits: string, s: string)
    ensures Decimal(digits, DropZeros(s)) == Decimal(digits, s)
    decreases |s|
  {
    if s != [] && s[|s| - 1] == '0' {
      var t := s[..|s| - 1];
      DropKeepsDecimal(digits, t);
      PowerPositive(10, |t|);
      assert Value(s, 10) == 10 * Value(t, 10);
      ScaleBoth(Value(digits, 10), Value(t, 10), Power(10, |t|));
    }
  }

  /** The number the rounding means. */
  function Mantissa(r: Rounded): real
    requires r.Rounded?
  {
    PowerPositive(10, r.precision);
    (r.intpart * Power(10, r.precision) + r.fracpart) as real / Power(10, r.precision) as real
  }

  function Denoted(r: Rounded): real
    requires r.Rounded?
  {
    Shifted(Mantissa(r), if r.estyle then r.exponent else 0)
  }

  lemma FractionDigits(r: Rounded)
    requires Fits(r)
    ensures var full := FractionText(r, false);
      |full| == r.precision && AllDigits(full, 10) && Value(full, 10) == r.fracpart
  {
    hide Power, Value, AllDigits, FractionConverted;
    var digits := FractionConverted(r.fracpart);
    FractionLength(r);
    ConvertedValue(r.fracpart);
    ValueZeros(r.precision - |digits|, digits, 10);
    ZerosAndDigits(r.precision - |digits|, digits);
  }

  lemma ConvertedValue(fracpart: nat)
    ensures AllDigits(FractionConverted(fracpart), 10) && Value(FractionConverted(fracpart), 10) == fracpart
  {
    hide Digits;
    if fracpart != 0 {
      DigitsAreDigits(fracpart, 10, false);
      DigitsValue(fracpart, 10, false);
    }
  }

  lemma ZerosAndDigits(n: nat, digits: string)
    requires AllDigits(digits, 10)
    ensures AllDigits(Repeat('0', n) + digits, 10)
  {
    hide Repeat;
  }

  lemma FractionMeans(r: Rounded, digits: string)
    requires Fits(r) && Value(digits, 10) == r.intpart
    ensures Decimal(digits, FractionText(r, false)) == Mantissa(r)
  {
    hide FractionText, Value, Power;
    FractionDigits(r);
  }

  /** With or without its trailing zeros, the fraction has the value it should. */
  lemma FractionRead(r: Rounded, digits: string, omit: bool)
    requires Fits(r) && Value(digits, 10) == r.intpart
    ensures Decimal(digits, FractionText(r, omit)) == Mantissa(r)
    ensures forall i :: 0 <= i < |FractionText(r, omit)| ==> Figure(FractionText(r, omit)[i])
  {
    hide DropZeros, Value, Power, Decimal, Mantissa, FractionConverted, Repeat, DigitValue;
    FractionDigits(r);
    FractionMeans(r, digits);
    DropKeepsDecimal(digits, FractionText(r, false));
    assert FractionText(r, true) == DropZeros(FractionText(r, false));
  }

  // ---- The whole text

  /** Leading zeros and grouped digits, with something else behind them. */
  lemma IntegerRead(zeros: nat, digits: string, separate: bool, c: string)
    requires digits != [] && AllDigits(digits, 10)
    requires c == [] || !Figure(c[0])
    ensures
      var front := Repeat('0', zeros) + Grouped(digits, separate);
      var b := front + c;
      && FigureSpan(b) == |front| && b[FigureSpan(b)..] == c
      && StripCommas(b[..FigureSpan(b)]) == Repeat('0', zeros) + digits
      && b != [] && DigitValue(b[0]) < 10
  {
    var front := Repeat('0', zeros) + Grouped(digits, separate);
    GroupedFigures(digits, separate, 10);
    FigureSpanExact(front, c);
    StripAppend(Repeat('0', zeros), Grouped(digits, separate));
    StripZeros(zeros);
    GroupedCount(digits, separate);
  }

  lemma ZerosKeepDecimal(zeros: nat, digits: string, fraction: string)
    ensures Decimal(Repeat('0', zeros) + digits, fraction) == Decimal(digits, fraction)
  {
    ValueZeros(zeros, digits, 10);
  }

  lemma TextReads(blanks: nat, sign: string, zeros: nat, digits: string, separate: bool, c: string)
    requires sign in {"", "-", "+", " "} && digits != [] && AllDigits(digits, 10)
    requires c == [] || !Figure(c[0])
    ensures
      var magnitude := Shifted(Decimal(digits, AfterPoint(c)), ExponentRead(AfterFraction(c)));
      ReadReal(Repeat(' ', blanks) + (sign + (Repeat('0', zeros) + Grouped(digits, separate) + c)))
      == if sign == "-" then -magnitude else magnitude
  {
    hide Decimal, Shifted, ExponentRead, AfterPoint, AfterFraction;
    hide Grouped, StripCommas, SkipBlanks, SkipSign, FigureSpan;
    IntegerRead(zeros, digits, separate, c);
    HeadSkipped(blanks, sign, Repeat('0', zeros) + Grouped(digits, separate) + c);
    ZerosKeepDecimal(zeros, digits, AfterPoint(c));
  }

  lemma FloatTextParts(left: string, sign: string, zeros: string, grouped: string, tail: string, right: string)
    ensures left + sign + zeros + grouped + tail + right == left + (sign + (zeros + grouped + (tail + right)))
  {
  }

  lemma TailParts(point: string, fraction: string, exponent: string, blanks: string)
    ensures point + fraction + exponent + blanks == point + fraction + (exponent + blanks)
  {
  }

  /** The tail of the text starts with no figure and comes apart into the fraction and
      the exponent. */
  lemma TailReads(r: Rounded, flags: Flags, blanks: nat)
    requires Fits(r)
    ensures
      var c := PointText(r, Omits(flags), flags) + FractionText(r, Omits(flags)) + ExponentText(r, flags)
               + Repeat(' ', blanks);
      && (c == [] || !Figure(c[0]))
      && AfterPoint(c) == FractionText(r, Omits(flags))
      && ExponentRead(AfterFraction(c)) == (if r.estyle then TwoDigitExponent(r.exponent) else 0)
  {
    var point, fraction := PointText(r, Omits(flags), flags), FractionText(r, Omits(flags));
    var exponent, right := ExponentText(r, flags), Repeat(' ', blanks);
    FractionDigits(r);
    ExponentTextRead(r, flags, blanks);
    TailRead(point, fraction, exponent + right);
    TailParts(point, fraction, exponent, right);
    TailStart(point, fraction, exponent + right);
  }

  lemma TailStart(point: string, fraction: string, rest: string)
    requires point == "." || (point == "" && fraction == "")
    requires rest == [] || !Figure(rest[0])
    ensures var c := point + fraction + rest; c == [] || !Figure(c[0])
  {
  }

  function Signed(value: real, magnitude: real): real {
    if value < 0.0 then -magnitude else magnitude
  }

  /** What the text says, with the exponent as two digits tell it. */
  lemma FloatSays(value: real, width: int, precision: int, flags: Flags)
    requires ValidPrecision(precision, flags) && FloatText(value, width, precision, flags).Text?
    ensures var r := RoundFloat(value, precision, flags);
      ReadReal(FloatText(value, width, precision, flags).text)
      == Signed(value, Shifted(Mantissa(r), if r.estyle then TwoDigitExponent(r.exponent) else 0))
  {
    hide RoundFloat, ReadReal, RenderFloat, Mantissa, Shifted;
    hide Power, TwoDigitExponent, Digits, FractionText, ExponentText;
    var r := RoundFloat(value, precision, flags);
    RoundFloatFits(value, precision, flags);
    var p := FloatPieces(value, r, flags);
    RenderSays(value, r, FloatPad(p, width, flags), flags);
  }

  lemma RenderSays(value: real, r: Rounded, pad: nat, flags: Flags)
    requires Fits(r)
    ensures ReadReal(RenderFloat(FloatPieces(value, r, flags), pad, flags))
            == Signed(value, Shifted(Mantissa(r), if r.estyle then TwoDigitExponent(r.exponent) else 0))
  {
    hide ReadReal, Mantissa, Shifted, Power, TwoDigitExponent, Decimal, Grouped, Digits, Repeat;
    hide AfterPoint, AfterFraction, ExponentRead, ExponentText, FractionText, PointText, AllDigits, Figure;
    var p := FloatPieces(value, r, flags);
    var left, zeros, right := FillLeft(pad, flags), FillZeros(pad, flags), FillRight(pad, flags);
    DigitsAreDigits(r.intpart, 10, false);
    DigitsValue(r.intpart, 10, false);
    TailReads(r, flags, right);
    TextReads(left, p.sign, zeros, p.digits, flags.quote, p.tail + Repeat(' ', right));
    FractionRead(r, p.digits, Omits(flags));
    FloatTextParts(Repeat(' ', left), p.sign, Repeat('0', zeros), Grouped(p.digits, flags.quote), p.tail,
                   Repeat(' ', right));
  }

  /** The number that %f should denote: the rounded value. */
  function FixedValue(magnitude: real, mask: nat): real
    requires mask >= 1
  {
    Nearest(magnitude, mask) as real / mask as real
  }

  lemma FixedMeans(r: Rounded, magnitude: real, p: nat)
    requires IsFixed(r, magnitude, p)
    ensures Power(10, p) >= 1 && Shifted(Mantissa(r), 0) == FixedValue(magnitude, Power(10, p))
  {
    hide Power, Nearest;
    PowerPositive(10, p);
    ShiftedZero(Mantissa(r));
  }

  lemma ShiftedZero(m: real)
    ensures Shifted(m, 0) == m
  {
    assert MyPow10(0) == 1.0;
  }

  lemma FixedText(value: real, width: int, precision: int, flags: Flags, p: nat)
    requires ValidPrecision(precision, flags)
    requires IsFixed(RoundFloat(value, precision, flags), Abs(value), p)
    ensures FloatText(value, width, precision, flags).Text? && Power(10, p) >= 1
    ensures ReadReal(FloatText(value, width, precision, flags).text)
            == Signed(value, FixedValue(Abs(value), Power(10, p)))
  {
    hide RoundFloat, ReadReal, Power, Shifted, Mantissa, FixedValue, Nearest;
    FloatSays(value, width, precision, flags);
    FixedMeans(RoundFloat(value, precision, flags), Abs(value), p);
  }

  lemma TextOrOverflow(value: real, width: int, precision: int, flags: Flags)
    requires ValidPrecision(precision, flags)
    ensures FloatText(value, width, precision, flags).Overflow? <==> RoundFloat(value, precision, flags).TooLarge?
  {
    hide RoundFloat;
  }

  /** %f: the text of every finite value below 2^64 - 1 denotes the value rounded half
      up to p decimals, p being the precision or nineteen if that is less. */
  lemma FixedDenotes(value: real, width: int, precision: int, flags: Flags)
    requires ValidPrecision(precision, flags) && !flags.typeE && !flags.typeG
    ensures FloatText(value, width, precision, flags).Overflow? <==> Abs(value) >= UINTMAX_MAX as real
    ensures
      var p := Min(Effective(precision), MAX_PRECISION);
      Abs(value) < UINTMAX_MAX as real ==>
        && Power(10, p) >= 1
        && ReadReal(FloatText(value, width, precision, flags).text)
           == Signed(value, FixedValue(Abs(value), Power(10, p)))
  {
    hide RoundFloat, ReadReal, Power, FixedValue, IsFixed, FloatText;
    TextOrOverflow(value, width, precision, flags);
    FixedRounds(value, precision, flags);
    if Abs(value) < UINTMAX_MAX as real {
      FixedText(value, width, precision, flags, Min(Effective(precision), MAX_PRECISION));
    }
  }

  lemma BumpKeeps(mask: nat, e: int)
    requires mask >= 1
    ensures Shifted((1 * mask + 0) as real / mask as real, e + 1) == Shifted((10 * mask) as real / mask as real, e)
  {
    PowStep(e);
    OneAndTen(mask as real);
  }

  lemma OneAndTen(x: real)
    requires x > 0.0
    ensures x / x == 1.0 && (10.0 * x) / x == 10.0
  {
  }

  /** Whether the mantissa of a value rounds up to ten. */
  predicate Bumps(magnitude: real, e: int, mask: nat)
    requires magnitude >= 0.0
  {
    Nearest(Scalar(magnitude, e, true), mask) == 10 * mask
  }

  /** The number that %e should denote: the rounded mantissa times the power of ten. */
  function ScientificValue(magnitude: real, e: int, mask: nat): real
    requires magnitude >= 0.0 && mask >= 1
  {
    Shifted(Nearest(Scalar(magnitude, e, true), mask) as real / mask as real, e)
  }

  /** The rounding denotes it, with the step from ten to one or without. */
  lemma ScientificMeans(r: Rounded, magnitude: real, e: int, p: nat)
    requires magnitude >= 0.0 && IsScientific(r, magnitude, e, p)
    ensures Power(10, p) >= 1
    ensures Denoted(r) == ScientificValue(magnitude, e, Power(10, p))
    ensures r.exponent == if Bumps(magnitude, e, Power(10, p)) then e + 1 else e
  {
    hide Power, Shifted, Scalar;
    PowerPositive(10, p);
    BumpKeeps(Power(10, p), e);
  }

  /** Two digits are enough for an exponent if and only if it is below a hundred; a
      nonzero mantissa with exponent 100 is printed as if the exponent were 0. */
  lemma TwoDigitsTell(m: real, exponent: int)
    requires m > 0.0 && -99 <= exponent <= 100
    ensures Shifted(m, TwoDigitExponent(exponent)) == Shifted(m, exponent) <==> exponent <= 99
  {
    if exponent == 100 {
      PowGrows(100);
      assert m * (MyPow10(100) - 1.0) > 0.0;
    }
  }

  lemma {:induction false} PowGrows(n: nat)
    requires n >= 1
    ensures MyPow10(n) > 1.0
  {
    if n > 1 { PowGrows(n - 1); } else { assert MyPow10(0) == 1.0; }
  }

  lemma MantissaPositive(i: nat, f: nat, mask: nat)
    requires i >= 1 && mask >= 1
    ensures (i * mask + f) as real / mask as real > 0.0
  {
    ScaleUp(mask, i);
    assert i * mask + f > 0;
    QuotientPositive((i * mask + f) as real, mask as real);
  }

  lemma QuotientPositive(n: real, d: real)
    requires n > 0.0 && d > 0.0
    ensures n / d > 0.0
  {
  }

  /** From a scientific rounding to its text. */
  lemma ScientificText(value: real, width: int, precision: int, flags: Flags, e: int, p: nat)
    requires ValidPrecision(precision, flags) && -99 <= e <= 99
    requires IsScientific(RoundFloat(value, precision, flags), Abs(value), e, p)
    ensures FloatText(value, width, precision, flags).Text? && Power(10, p) >= 1
    ensures
      ReadReal(FloatText(value, width, precision, flags).text)
      == Signed(value, ScientificValue(Abs(value), e, Power(10, p)))
      <==> e < 99 || !Bumps(Abs(value), e, Power(10, p))
  {
    hide RoundFloat, ReadReal, Power, Shifted, Scalar, ScientificValue, TwoDigitExponent, Bumps;
    var r := RoundFloat(value, precision, flags);
    FloatSays(value, width, precision, flags);
    ScientificMeans(r, Abs(value), e, p);
    MantissaPositive(r.intpart, r.fracpart, Power(10, r.precision));
    TwoDigitsTell(Mantissa(r), r.exponent);
  }

  /** %e: from 1e-99 up to 1e100 the text denotes the mantissa, rounded half up to p
      decimals, times the power of ten; except that a value which rounds up to 1e100
      is printed with the exponent 00, since the exponent keeps only two digits. */
  lemma ScientificDenotes(value: real, width: int, precision: int, flags: Flags)
    requires ValidPrecision(precision, flags) && flags.typeE && !flags.typeG && InRange(value)
    ensures
      var e, p := Exponent(value), Min(Effective(precision), MAX_PRECISION);
      && MyPow10(e) <= Abs(value) < MyPow10(e + 1)
      && Power(10, p) >= 1
      && FloatText(value, width, precision, flags).Text?
      && (ReadReal(FloatText(value, width, precision, flags).text)
          == Signed(value, ScientificValue(Abs(value), e, Power(10, p)))
          <==> e < 99 || !Bumps(Abs(value), e, Power(10, p)))
  {
    ExponentFits(value);
    ScientificRounds(value, precision, flags);
    ScientificText(value, width, precision, flags, Exponent(value), Min(Effective(precision), MAX_PRECISION));
  }

  lemma {:induction false} PowOrdered(m: int, n: int)
    requires m <= n
    ensures MyPow10(m) <= MyPow10(n)
    decreases n - m
  {
    if m < n {
      PowOrdered(m, n - 1);
      PowStep(n - 1);
      PowPositive(n - 1);
    }
  }

  /** 9.6e99 with "%.0e" is such a value: it is printed as 1e+00. */
  lemma ScientificFails()
    ensures
      var value := 9.6 * MyPow10(99);
      var flags := NO_STYLE.(typeE := true);
      && InRange(value) && Exponent(value) == 99
      && FloatText(value, 0, 0, flags).Text?
      && ReadReal(FloatText(value, 0, 0, flags).text) != Signed(value, ScientificValue(Abs(value), 99, 1))
  {
    var value := 9.6 * MyPow10(99);
    PowPositive(99);
    PowStep(99);
    PowOrdered(-99, 99);
    assert InRange(value);
    ExponentFits(value);
    ExponentUnique(value, 99);
    Bumped(value);
    assert Power(10, 0) == 1;
    ScientificDenotes(value, 0, 0, NO_STYLE.(typeE := true));
  }

  const NO_STYLE := Flags(false, false, false, false, false, false, false, false, false, false)

  lemma ExponentUnique(value: real, e: int)
    requires value > 0.0 && MyPow10(Exponent(value)) <= value < MyPow10(Exponent(value) + 1)
    requires MyPow10(e) <= value < MyPow10(e + 1)
    ensures Exponent(value) == e
  {
    hide Exponent;
    if Exponent(value) < e {
      PowOrdered(Exponent(value) + 1, e);
    } else if Exponent(value) > e {
      PowOrdered(e + 1, Exponent(value));
    }
  }

  lemma Bumped(value: real)
    requires value == 9.6 * MyPow10(99) && value > 0.0
    ensures Bumps(value, 99, 1)
  {
    PowPositive(99);
    QuotientIs(value, 9.6, MyPow10(99));
  }

  lemma QuotientIs(v: real, m: real, p: real)
    requires p > 0.0 && v == m * p
    ensures v / p == m
  {
  }

  /** %g: with P significant digits and X the exponent of the conversion with style e,
      the text denotes what style f with precision P - (X + 1) would if P > X >= -4,
      and what style e with precision P - 1 would otherwise; with and without its
      trailing zeros. */
  lemma GeneralDenotes(value: real, width: int, precision: int, flags: Flags)
    requires ValidPrecision(precision, flags) && flags.typeG && InRange(value)
    ensures
      var digits := Min(Effective(precision), MAX_PRECISION + 1);
      var x := ShownExponent(value, digits);
      var text := FloatText(value, width, precision, flags);
      if digits > x >= -4 then
        var p := Min(digits - (x + 1), MAX_PRECISION);
        && (text.Overflow? <==> Abs(value) >= UINTMAX_MAX as real)
        && Power(10, p) >= 1
        && (text.Text? ==>
              ReadReal(text.text) == Signed(value, FixedValue(Abs(value), Power(10, p))))
      else
        var e, p := Exponent(value), digits - 1;
        && text.Text? && Power(10, p) >= 1
        && (ReadReal(text.text) == Signed(value, ScientificValue(Abs(value), e, Power(10, p)))
            <==> e < 99 || !Bumps(Abs(value), e, Power(10, p)))
  {
    hide RoundFloat, ReadReal, Power, FixedValue, ScientificValue, IsFixed, IsScientific;
    hide ShownExponent, Bumps, Exponent, MyPow10, FloatText;
    TextOrOverflow(value, width, precision, flags);
    var digits := Min(Effective(precision), MAX_PRECISION + 1);
    var x := ShownExponent(value, digits);
    ExponentFits(value);
    GeneralRounds(value, precision, flags);
    if digits > x >= -4 {
      PowerPositive(10, Min(digits - (x + 1), MAX_PRECISION));
      if FloatText(value, width, precision, flags).Text? {
        FixedText(value, width, precision, flags, Min(digits - (x + 1), MAX_PRECISION));
      }
    } else {
      ScientificText(value, width, precision, flags, Exponent(value), digits - 1);
    }
  }

  /** Zero reads as zero in every style. */
  lemma ZeroDenotes(width: int, precision: int, flags: Flags)
    requires ValidPrecision(precision, flags)
    ensures FloatText(0.0, width, precision, flags).Text?
    ensures ReadReal(FloatText(0.0, width, precision, flags).text) == 0.0
  {
    var scientific := flags.typeE || flags.typeG;
    assert Exponent(0.0) == 0;
    var p := Effective(precision) - if flags.typeG then 1 else 0;
    ZeroRounds(p, scientific);
    var r := RoundOnce(0.0, 0, p, scientific);
    if Fixes(r, flags) { ZeroRounds(r.precision - r.exponent, false); }
    ZeroText(width, precision, flags);
  }

  lemma ZeroText(width: int, precision: int, flags: Flags)
    requires ValidPrecision(precision, flags)
    requires var r := RoundFloat(0.0, precision, flags); r.Rounded? && r.intpart == 0 && r.fracpart == 0
    ensures FloatText(0.0, width, precision, flags).Text?
    ensures ReadReal(FloatText(0.0, width, precision, flags).text) == 0.0
  {
    hide RoundFloat, ReadReal, Power, MyPow10;
    FloatSays(0.0, width, precision, flags);
    PowerPositive(10, RoundFloat(0.0, precision, flags).precision);
  }

  lemma ZeroRounds(precision: nat, estyle: bool)
    ensures var r := RoundOnce(0.0, 0, precision, estyle);
      r.Rounded? && r.intpart == 0 && r.fracpart == 0 && r.exponent == 0
  {
    var p := Min(precision, MAX_PRECISION);
    MaskFits(p);
    assert Scalar(0.0, 0, estyle) == 0.0;
    assert Scaled(0.0, Power(10, p)) == 0.0;
  }
}
