/** %e for every finite value, within and outside the range of the exponent's search. */
module PrintfScientific {
  import opened PrintfText
  import opened PrintfDigits
  import opened PrintfOutput
  import opened PrintfDecimal
  import opened PrintfRounding
  import opened PrintfFloat
  import opened PrintfFloatProperties

  /** The mantissa that is rounded. */
  function MantissaOf(value: real): (u: real)
    ensures u >= 0.0
  {
    Scalar(Abs(value), Exponent(value), true)
  }

  /** Where the search for the exponent ends. */
  lemma ExponentAnywhere(value: real)
    ensures -99 <= Exponent(value) <= 99
    ensures value == 0.0 ==> Exponent(value) == 0
    ensures 0.0 < Abs(value) < MyPow10(-99) ==> Exponent(value) == -99
    ensures Abs(value) >= MyPow10(100) ==> Exponent(value) == 99
  {
    hide MyPow10;
    var m := Abs(value);
    UnitPower();
    PowOrdered(-99, 0);
    PowOrdered(0, 100);
    if m == 0.0 {
    } else if m < 1.0 {
      UpFits(m, 0, m);
      if m < MyPow10(-99) { TooSmall(ScaledUp(m, 0).1, m); }
    } else {
      DownFits(m, 0, m);
      if m >= MyPow10(100) { TooLarge(ScaledDown(m, 0).1, m); }
    }
  }

  lemma UnitPower()
    ensures MyPow10(0) == 1.0
  {
  }

  lemma TooSmall(e: int, m: real)
    requires -99 <= e && m < MyPow10(-99) && (e >= -98 ==> MyPow10(e) <= m)
    ensures e == -99
  {
    hide MyPow10;
    if e >= -98 { PowOrdered(-99, e); }
  }

  lemma TooLarge(e: int, m: real)
    requires 0 <= e <= 99 && m >= MyPow10(100) && (e <= 98 ==> m < MyPow10(e + 1))
    ensures e == 99
  {
    hide MyPow10;
    if e <= 98 { PowOrdered(e + 1, 100); }
  }

  /** What splitting makes of any mantissa that does not overflow. */
  lemma RoundsAnyMantissa(u: real, mask: nat, e: int, p: nat)
    requires 0.0 <= u < UINTMAX_MAX as real && 1 <= mask < UINTMAX_MAX
    ensures
      var r := RoundTo(u, mask, e, p, true);
      && r.Rounded? && r.estyle && r.precision == p && r.fracpart < mask
      && if u < 10.0 && Nearest(u, mask) == 10 * mask then r.intpart == 1 && r.fracpart == 0 && r.exponent == e + 1
         else r.intpart * mask + r.fracpart == Nearest(u, mask) && r.exponent == e
  {
    SplitRounds(u, mask);
    var (i, f) := Split(u, mask);
    TenIsTen(i, f, mask);
  }

  lemma TenIsTen(i: nat, f: nat, mask: nat)
    requires f < mask
    ensures i * mask + f == 10 * mask <==> i == 10 && f == 0
  {
    assert i < 10 ==> (10 - i - 1) * mask >= 0;
    assert i > 10 ==> (i - 10 - 1) * mask >= 0;
  }

  lemma StyleRounds(value: real, precision: int, flags: Flags)
    requires ValidPrecision(precision, flags) && flags.typeE && !flags.typeG
    ensures
      var p := Min(Effective(precision), MAX_PRECISION);
      && 1 <= Power(10, p) < UINTMAX_MAX
      && RoundFloat(value, precision, flags) == RoundTo(MantissaOf(value), Power(10, p), Exponent(value), p, true)
  {
    MaskFits(Min(Effective(precision), MAX_PRECISION));
  }

  /** Ten with the exponent one higher. */
  predicate StepsUp(value: real, mask: nat) {
    MantissaOf(value) < 10.0 && Nearest(MantissaOf(value), mask) == 10 * mask
  }

  lemma RoundingDenotes(value: real, r: Rounded, mask: nat, p: nat)
    requires mask == Power(10, p) && 1 <= mask < UINTMAX_MAX && MantissaOf(value) < UINTMAX_MAX as real
    requires r == RoundTo(MantissaOf(value), mask, Exponent(value), p, true)
    ensures r.Rounded? && r.estyle && r.precision == p
    ensures Denoted(r) == ScientificValue(Abs(value), Exponent(value), mask)
    ensures r.exponent == Exponent(value) + if StepsUp(value, mask) then 1 else 0
    ensures StepsUp(value, mask) ==> r.intpart == 1
  {
    hide Power, Exponent, Shifted, Scalar;
    RoundsAnyMantissa(MantissaOf(value), mask, Exponent(value), p);
    BumpKeeps(mask, Exponent(value));
  }

  /** A rounding of the mantissa overflows exactly if the mantissa does, and otherwise its
      text denotes it unless the exponent becomes 100. */
  lemma MantissaText(value: real, width: int, precision: int, flags: Flags, p: nat)
    requires ValidPrecision(precision, flags) && 1 <= Power(10, p) < UINTMAX_MAX
    requires RoundFloat(value, precision, flags) == RoundTo(MantissaOf(value), Power(10, p), Exponent(value), p, true)
    ensures FloatText(value, width, precision, flags).Overflow? <==> MantissaOf(value) >= UINTMAX_MAX as real
    ensures
      MantissaOf(value) < UINTMAX_MAX as real ==>
        (ReadReal(FloatText(value, width, precision, flags).text)
         == Signed(value, ScientificValue(Abs(value), Exponent(value), Power(10, p)))
         <==> !(Exponent(value) == 99 && StepsUp(value, Power(10, p))))
  {
    hide RoundFloat, ReadReal, Power, Shifted, ScientificValue, TwoDigitExponent, StepsUp, Exponent, MantissaOf;
    var r := RoundFloat(value, precision, flags);
    ExponentAnywhere(value);
    if MantissaOf(value) < UINTMAX_MAX as real {
      RoundingDenotes(value, r, Power(10, p), p);
      FloatSays(value, width, precision, flags);
      ExponentTold(r);
    }
  }

  /** %e of any finite value: it overflows exactly if the mantissa does, and otherwise the
      text denotes the mantissa rounded half up times the power of ten, unless the value
      rounds up to 1e100, which is printed as 1e+00. */
  lemma ScientificAnywhere(value: real, width: int, precision: int, flags: Flags)
    requires ValidPrecision(precision, flags) && flags.typeE && !flags.typeG
    ensures FloatText(value, width, precision, flags).Overflow? <==> MantissaOf(value) >= UINTMAX_MAX as real
    ensures
      var p := Min(Effective(precision), MAX_PRECISION);
      && Power(10, p) >= 1
      && (MantissaOf(value) < UINTMAX_MAX as real ==>
            (ReadReal(FloatText(value, width, precision, flags).text)
             == Signed(value, ScientificValue(Abs(value), Exponent(value), Power(10, p)))
             <==> !(Exponent(value) == 99 && StepsUp(value, Power(10, p)))))
  {
    hide FloatText, ReadReal, Power, ScientificValue, StepsUp, Exponent, MantissaOf, RoundTo, RoundFloat;
    StyleRounds(value, precision, flags);
    MantissaText(value, width, precision, flags, Min(Effective(precision), MAX_PRECISION));
  }

  /** %g of a value beyond the search: it stays in the style of %e. */
  lemma GeneralStyle(value: real, precision: int, flags: Flags)
    requires ValidPrecision(precision, flags) && flags.typeG
    requires 0.0 < Abs(value) < MyPow10(-99) || Abs(value) >= MyPow10(100)
    ensures
      var p := Min(Effective(precision) - 1, MAX_PRECISION);
      && 1 <= Power(10, p) < UINTMAX_MAX
      && RoundFloat(value, precision, flags) == RoundTo(MantissaOf(value), Power(10, p), Exponent(value), p, true)
  {
    hide Power, MyPow10, Exponent, RoundTo;
    var p := Min(Effective(precision) - 1, MAX_PRECISION);
    var u, mask := MantissaOf(value), Power(10, p);
    MaskFits(p);
    ExponentAnywhere(value);
    RoundToKeeps(u, mask, Exponent(value), p);
    if Abs(value) >= MyPow10(100) {
      LargeMantissa(Abs(value));
      if u < UINTMAX_MAX as real { LargeRounds(u, mask, p); }
    } else {
      SmallMantissa(Abs(value));
      SmallRounds(u, mask, p);
    }
  }

  lemma RoundToKeeps(u: real, mask: nat, e: int, p: nat)
    requires u >= 0.0 && mask >= 1
    ensures var r := RoundTo(u, mask, e, p, true);
      if u >= UINTMAX_MAX as real then r.TooLarge? else r.Rounded? && r.precision == p
  {
  }

  lemma GeneralOutside(value: real, width: int, precision: int, flags: Flags)
    requires ValidPrecision(precision, flags) && flags.typeG
    requires 0.0 < Abs(value) < MyPow10(-99) || Abs(value) >= MyPow10(100)
    ensures FloatText(value, width, precision, flags).Overflow? <==> MantissaOf(value) >= UINTMAX_MAX as real
    ensures
      var p := Min(Effective(precision) - 1, MAX_PRECISION);
      && Power(10, p) >= 1
      && (MantissaOf(value) < UINTMAX_MAX as real ==>
            ReadReal(FloatText(value, width, precision, flags).text)
            == Signed(value, ScientificValue(Abs(value), Exponent(value), Power(10, p))))
  {
    hide FloatText, ReadReal, Power, ScientificValue, Exponent, RoundTo, RoundFloat, MyPow10, Nearest;
    var p := Min(Effective(precision) - 1, MAX_PRECISION);
    GeneralStyle(value, precision, flags);
    MantissaText(value, width, precision, flags, p);
    ExponentAnywhere(value);
    if Abs(value) >= MyPow10(100) { LargeMantissa(Abs(value)); }
  }

  /** When %g of a value has an output: the style of %f needs a value, the style of %e a
      mantissa below 2^64 - 1. */
  predicate GeneralFits(value: real, precision: int, flags: Flags)
    requires ValidPrecision(precision, flags) && flags.typeG
  {
    if value == 0.0 then true
    else if InRange(value) then
      var digits := Min(Effective(precision), MAX_PRECISION + 1);
      digits > ShownExponent(value, digits) >= -4 ==> Abs(value) < UINTMAX_MAX as real
    else MantissaOf(value) < UINTMAX_MAX as real
  }

  /** What %g with P significant digits and the exponent X should denote: the rounding of
      %f with P - (X + 1) decimals if P > X >= -4, and otherwise that of %e with P - 1,
      unless the value rounds up to 1e100. */
  predicate GeneralReads(text: string, value: real, precision: int, flags: Flags)
    requires ValidPrecision(precision, flags) && flags.typeG
  {
    var digits := Min(Effective(precision), MAX_PRECISION + 1);
    var x := ShownExponent(value, digits);
    if value == 0.0 then ReadReal(text) == 0.0
    else if InRange(value) && digits > x >= -4 then
      var p := Min(digits - (x + 1), MAX_PRECISION);
      Power(10, p) >= 1 && ReadReal(text) == Signed(value, FixedValue(Abs(value), Power(10, p)))
    else
      var e, p := Exponent(value), digits - 1;
      && Power(10, p) >= 1
      && (ReadReal(text) == Signed(value, ScientificValue(Abs(value), e, Power(10, p)))
          <==> !(e == 99 && StepsUp(value, Power(10, p))))
  }

  lemma OneDigit(value: real)
    requires InRange(value)
    ensures MantissaOf(value) < 10.0
  {
    hide MyPow10, Exponent;
    ExponentFits(value);
    PowPositive(Exponent(value));
    PowStep(Exponent(value));
    AtLeast(Abs(value), MyPow10(Exponent(value)), 10.0);
  }

  lemma BumpsStepUp(value: real, mask: nat)
    requires MantissaOf(value) < 10.0
    ensures Bumps(Abs(value), Exponent(value), mask) <==> StepsUp(value, mask)
  {
    hide Exponent, Nearest, Scalar;
  }

  /** %g of any finite value: it overflows exactly if the style chosen does, and otherwise
      the text denotes what that style should. */
  lemma GeneralAnywhere(value: real, width: int, precision: int, flags: Flags)
    requires ValidPrecision(precision, flags) && flags.typeG
    ensures FloatText(value, width, precision, flags).Overflow? <==> !GeneralFits(value, precision, flags)
    ensures
      GeneralFits(value, precision, flags) ==>
        GeneralReads(FloatText(value, width, precision, flags).text, value, precision, flags)
  {
    hide FloatText, ReadReal, Power, ScientificValue, FixedValue, Exponent, ShownExponent, MyPow10, Bumps, StepsUp;
    hide MantissaOf;
    if value == 0.0 {
      ZeroDenotes(width, precision, flags);
    } else if InRange(value) {
      GeneralDenotes(value, width, precision, flags);
      ExponentAnywhere(value);
      OneDigit(value);
      BumpsStepUp(value, Power(10, Min(Effective(precision), MAX_PRECISION + 1) - 1));
    } else {
      GeneralOutside(value, width, precision, flags);
      NoStep(value, Power(10, Min(Effective(precision) - 1, MAX_PRECISION)));
    }
  }

  lemma NoStep(value: real, mask: nat)
    requires value != 0.0 && !InRange(value)
    ensures !(Exponent(value) == 99 && StepsUp(value, mask))
  {
    hide Exponent, Nearest, MyPow10;
    ExponentAnywhere(value);
    if Abs(value) >= MyPow10(100) { LargeMantissa(Abs(value)); }
  }

  /** Two digits tell every exponent but 100. */
  lemma ExponentTold(r: Rounded)
    requires r.Rounded? && r.estyle && -99 <= r.exponent <= 100 && (r.exponent == 100 ==> r.intpart >= 1)
    ensures Shifted(Mantissa(r), TwoDigitExponent(r.exponent)) == Denoted(r) <==> r.exponent <= 99
  {
    hide Shifted;
    if r.exponent == 100 {
      PowerPositive(10, r.precision);
      MantissaPositive(r.intpart, r.fracpart, Power(10, r.precision));
      TwoDigitsTell(Mantissa(r), 100);
    }
  }

  /** Outside the range of the search the mantissa is not brought to one digit. Nonzero
      values below 1e-99 are printed with the exponent -99 and a zero in front of the
      point, or a one if they round up to it; values from 1e100 on with the exponent 99
      and two or more integer digits, up to (2^64 - 1) * 1e99, where they overflow. */
  lemma OutOfRange(value: real, precision: int, flags: Flags)
    requires ValidPrecision(precision, flags) && flags.typeE && !flags.typeG
    ensures
      var r, mask := RoundFloat(value, precision, flags), Power(10, Min(Effective(precision), MAX_PRECISION));
      && (0.0 < Abs(value) < MyPow10(-99) ==>
            && r.Rounded? && r.exponent == -99 && MantissaOf(value) < 1.0
            && FloatPieces(value, r, flags).digits == if Nearest(MantissaOf(value), mask) == mask then "1" else "0")
      && (Abs(value) >= MyPow10(100) ==>
            && MantissaOf(value) >= 10.0
            && (r.TooLarge? <==> Abs(value) >= UINTMAX_MAX as real * MyPow10(99))
            && (r.Rounded? ==> r.exponent == 99 && |FloatPieces(value, r, flags).digits| >= 2))
  {
    hide RoundFloat, Power, MyPow10, Exponent, FractionText, ExponentText, RoundTo;
    var p := Min(Effective(precision), MAX_PRECISION);
    var u, mask := MantissaOf(value), Power(10, p);
    StyleRounds(value, precision, flags);
    ExponentAnywhere(value);
    if 0.0 < Abs(value) < MyPow10(-99) {
      SmallMantissa(Abs(value));
      SmallRounds(u, mask, p);
    } else if Abs(value) >= MyPow10(100) {
      LargeMantissa(Abs(value));
      if u < UINTMAX_MAX as real { LargeRounds(u, mask, p); } else { LargeOverflows(u, mask, p); }
    }
  }

  lemma LargeOverflows(u: real, mask: nat, p: nat)
    requires u >= UINTMAX_MAX as real && mask >= 1
    ensures RoundTo(u, mask, 99, p, true).TooLarge?
  {
  }

  lemma SmallMantissa(m: real)
    requires 0.0 < m < MyPow10(-99)
    ensures 0.0 <= Scalar(m, -99, true) < 1.0
  {
    hide MyPow10;
    PowPositive(-99);
    BelowOne(m, MyPow10(-99), Scalar(m, -99, true));
  }

  lemma BelowOne(m: real, p: real, q: real)
    requires p > 0.0 && q == m / p && m < p
    ensures q < 1.0
  {
    assert q * p == m;
    assert q >= 1.0 ==> (q - 1.0) * p >= 0.0;
  }

  lemma LargeMantissa(m: real)
    requires m >= MyPow10(100)
    ensures m >= 0.0 && Scalar(m, 99, true) >= 10.0
    ensures Scalar(m, 99, true) >= UINTMAX_MAX as real <==> m >= UINTMAX_MAX as real * MyPow10(99)
  {
    hide MyPow10;
    PowPositive(99);
    PowStep(99);
    AtLeast(m, MyPow10(99), 10.0);
    AtLeast(m, MyPow10(99), UINTMAX_MAX as real);
  }

  lemma AtLeast(m: real, p: real, k: real)
    requires p > 0.0
    ensures m / p >= k <==> m >= k * p
  {
    var q := m / p;
    assert q * p == m;
    assert q >= k ==> (q - k) * p >= 0.0;
    assert q < k ==> (k - q) * p > 0.0;
  }

  lemma SmallRounds(u: real, mask: nat, p: nat)
    requires 0.0 <= u < 1.0 && 1 <= mask < UINTMAX_MAX
    ensures
      var r := RoundTo(u, mask, -99, p, true);
      && r.Rounded? && r.exponent == -99
      && Digits(r.intpart, 10, false) == if Nearest(u, mask) == mask then "1" else "0"
  {
    hide Digits, Nearest;
    RoundsAnyMantissa(u, mask, -99, p);
    SplitRounds(u, mask);
    var (i, f) := Split(u, mask);
    OneIsOne(i, f, mask);
    DigitsStep(0, 10, false);
    DigitsStep(1, 10, false);
    assert Nearest(u, mask) == i * mask + f by { NearestIs(u, mask); }
  }

  lemma NearestIs(u: real, mask: nat)
    ensures Nearest(u, mask) == (u * mask as real + 0.5).Floor
  {
  }

  lemma OneIsOne(i: nat, f: nat, mask: nat)
    requires f < mask && (i == 0 || (i == 1 && f == 0))
    ensures i * mask + f == mask <==> i == 1
    ensures i * mask + f < 10 * mask
  {
  }

  lemma LargeRounds(u: real, mask: nat, p: nat)
    requires 10.0 <= u < UINTMAX_MAX as real && 1 <= mask < UINTMAX_MAX
    ensures
      var r := RoundTo(u, mask, 99, p, true);
      && r.Rounded? && r.exponent == 99 && |Digits(r.intpart, 10, false)| >= 2
  {
    hide Digits;
    RoundsAnyMantissa(u, mask, 99, p);
    SplitRounds(u, mask);
    var r := RoundTo(u, mask, 99, p, true);
    assert r.intpart >= 10;
    var q, d := LastDigit(r.intpart, 10, false);
  }
}
