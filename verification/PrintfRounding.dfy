/** The rounding part of fmtflt(): from a finite value and a precision to the integer
    and fractional digits, the exponent and the style, for %f, %e and %g. */
module PrintfRounding {
  import opened PrintfText
  import opened PrintfDigits
  import opened PrintfOutput
  import opened PrintfDecimal

  datatype Rounded =
    | TooLarge
    | Rounded(intpart: nat, fracpart: nat, exponent: int, precision: nat, estyle: bool)

  function Abs(value: real): (m: real)
    ensures m >= 0.0
  {
    if value >= 0.0 then value else -value
  }

  /** What is split: the magnitude, or the mantissa with one integer digit. */
  function Scalar(magnitude: real, exponent: int, estyle: bool): (u: real)
    requires magnitude >= 0.0
    ensures u >= 0.0
  {
    PowPositive(exponent);
    if estyle then magnitude / MyPow10(exponent) else magnitude
  }

  /** Splitting, and the step from ten back to one in scientific style. */
  function RoundTo(u: real, mask: nat, exponent: int, precision: nat, estyle: bool): Rounded
    requires u >= 0.0 && mask >= 1
  {
    if Cast(u) == UINTMAX_MAX then
      TooLarge
    else
      var (intpart, fracpart) := Split(u, mask);
      if intpart != Cast(u) && estyle && intpart == 10 then
        Rounded(1, 0, exponent + 1, precision, estyle)
      else
        Rounded(intpart, fracpart, exponent, precision, estyle)
  }

  /** One pass over the block at the label "again". */
  function RoundOnce(magnitude: real, exponent: int, precision: nat, estyle: bool): Rounded
    requires magnitude >= 0.0
  {
    var p := Min(precision, MAX_PRECISION);
    MaskFits(p);
    RoundTo(Scalar(magnitude, exponent, estyle), Power(10, p), exponent, p, estyle)
  }

  /** A precision was given, or is six. */
  function Effective(precision: int): int {
    if precision == -1 then 6 else precision
  }

  predicate ValidPrecision(precision: int, flags: Flags) {
    precision >= -1 && (flags.typeG ==> precision != 0)
  }

  /** After the first pass, %g turns to the fixed style for a moderate exponent. */
  predicate Fixes(r: Rounded, flags: Flags) {
    flags.typeG && r.Rounded? && r.estyle && r.precision + 1 > r.exponent >= -4
  }

  function RoundFloat(value: real, precision: int, flags: Flags): Rounded
    requires ValidPrecision(precision, flags)
  {
    var scientific := flags.typeE || flags.typeG;
    var p := Effective(precision) - if flags.typeG then 1 else 0;
    var r := RoundOnce(Abs(value), if scientific then Exponent(value) else 0, p, scientific);
    if Fixes(r, flags) then RoundOnce(Abs(value), r.exponent, r.precision - r.exponent, false) else r
  }

  /** The factor of ten for a precision, as an integer. */
  method ComputeMask(precision: nat) returns (mask: nat)
    requires precision <= MAX_PRECISION
    ensures mask == Power(10, precision) && 1 <= mask < UINTMAX_MAX
  {
    var power := ComputePow10(precision);
    PowIsPower(precision);
    MaskFits(precision);
    mask := power.Floor;
  }

  method ComputeScalar(value: real, exponent: int, estyle: bool) returns (ufvalue: real)
    ensures ufvalue == Scalar(Abs(value), exponent, estyle)
  {
    ufvalue := if value >= 0.0 then value else -value;
    if estyle {
      var power := ComputePow10(exponent);
      PowPositive(exponent);
      ufvalue := ufvalue / power;
    }
  }

  method ComputeScaled(ufvalue: real, mask: nat) returns (scaled: real)
    requires ufvalue >= 0.0
    ensures scaled == Scaled(ufvalue, mask)
  {
    hide Cast;
    scaled := mask as real * (ufvalue - Cast(ufvalue) as real);
  }

  method ComputeFraction(ufvalue: real, mask: nat) returns (fracpart: nat)
    requires 0.0 <= ufvalue < UINTMAX_MAX as real && mask >= 1
    ensures Split(ufvalue, mask) == if fracpart >= mask then (Cast(ufvalue) + 1, 0) else (Cast(ufvalue), fracpart)
  {
    hide Scaled, MyRound, Cast;
    var scaled := ComputeScaled(ufvalue, mask);
    fracpart := MyRound(scaled);
  }

  /** The block at the label "again", up to the choice of style. */
  method OnePass(value: real, exponent_: int, precision_: nat, estyle: bool) returns (r: Rounded)
    ensures r == RoundOnce(Abs(value), exponent_, precision_, estyle)
  {
    var exponent, precision := exponent_, precision_;
    if precision > 19 {
      precision := 19;
    }
    var ufvalue := ComputeScalar(value, exponent, estyle);
    var intpart := Cast(ufvalue);
    if intpart == UINTMAX_MAX {
      return TooLarge;
    }
    var mask := ComputeMask(precision);
    var fracpart := ComputeFraction(ufvalue, mask);
    if fracpart >= mask {
      intpart := intpart + 1;
      fracpart := 0;
      if estyle && intpart == 10 {
        intpart := 1;
        exponent := exponent + 1;
      }
    }
    r := Rounded(intpart, fracpart, exponent, precision, estyle);
  }

  /** The part of fmtflt() that rounds: at most two passes. */
  method ComputeRounding(value: real, precision_: int, flags: Flags) returns (r: Rounded)
    requires ValidPrecision(precision_, flags)
    ensures r == RoundFloat(value, precision_, flags)
  {
    var precision, exponent, estyle := precision_, 0, flags.typeE;
    if precision == -1 {
      precision := 6;
    }
    if flags.typeE || flags.typeG {
      if flags.typeG {
        precision := precision - 1;
      }
      exponent := GetExponent(value);
      estyle := true;
    }
    r := OnePass(value, exponent, precision, estyle);
    if r.Rounded? && flags.typeG && r.estyle && r.precision + 1 > r.exponent && r.exponent >= -4 {
      r := OnePass(value, r.exponent, r.precision - r.exponent, false);
    }
  }

  // ---- What the rounding amounts to

  /** u in units of 1/mask, rounded half up. */
  function Nearest(u: real, mask: nat): int {
    (u * mask as real + 0.5).Floor
  }

  /** Fixed style: u rounded to the precision whose power of ten is mask. */
  predicate IsFixedTo(r: Rounded, u: real, mask: nat, p: nat) {
    && r.Rounded? && !r.estyle && r.precision == p
    && r.fracpart < mask && r.intpart * mask + r.fracpart == Nearest(u, mask)
  }

  /** Scientific style: one nonzero integer digit, and u rounded, with the exponent e;
      or, if u rounds up to ten, one with the exponent e + 1. */
  predicate IsScientificTo(r: Rounded, u: real, mask: nat, e: int, p: nat) {
    && r.Rounded? && r.estyle && r.precision == p
    && 1 <= r.intpart <= 9 && r.fracpart < mask
    && var rounded := Nearest(u, mask);
       if rounded < 10 * mask then
         r.exponent == e && r.intpart * mask + r.fracpart == rounded
       else
         rounded == 10 * mask && r.exponent == e + 1 && r.intpart == 1 && r.fracpart == 0
  }

  /** The magnitude, rounded to p decimals. */
  predicate IsFixed(r: Rounded, magnitude: real, p: nat) {
    IsFixedTo(r, magnitude, Power(10, p), p)
  }

  /** The mantissa for the exponent e, rounded to p decimals. */
  predicate IsScientific(r: Rounded, magnitude: real, e: int, p: nat)
    requires magnitude >= 0.0
  {
    IsScientificTo(r, Scalar(magnitude, e, true), Power(10, p), e, p)
  }

  /** Whatever the value and style, the parts fit their types. */
  lemma RoundToFits(u: real, mask: nat, exponent: int, p: nat, estyle: bool)
    requires u >= 0.0 && 1 <= mask < UINTMAX_MAX
    ensures var r := RoundTo(u, mask, exponent, p, estyle);
      r.Rounded? ==> r.fracpart < mask && r.intpart <= UINTMAX_MAX && r.precision == p
  {
    if u < UINTMAX_MAX as real {
      SplitRounds(u, mask);
    }
  }

  lemma RoundOnceFits(magnitude: real, exponent: int, precision: nat, estyle: bool)
    requires magnitude >= 0.0
    ensures var r := RoundOnce(magnitude, exponent, precision, estyle);
      r.Rounded? ==> r.precision <= MAX_PRECISION && r.fracpart < Power(10, r.precision) && r.intpart <= UINTMAX_MAX
  {
    var p := Min(precision, MAX_PRECISION);
    MaskFits(p);
    RoundToFits(Scalar(magnitude, exponent, estyle), Power(10, p), exponent, p, estyle);
  }

  lemma RoundFloatFits(value: real, precision: int, flags: Flags)
    requires ValidPrecision(precision, flags)
    ensures var r := RoundFloat(value, precision, flags);
      r.Rounded? ==> r.precision <= MAX_PRECISION && r.fracpart < Power(10, r.precision) && r.intpart <= UINTMAX_MAX
  {
    hide RoundOnce, Exponent, Power;
    var scientific := flags.typeE || flags.typeG;
    var p := Effective(precision) - if flags.typeG then 1 else 0;
    var e := if scientific then Exponent(value) else 0;
    RoundOnceFits(Abs(value), e, p, scientific);
    var r := RoundOnce(Abs(value), e, p, scientific);
    if Fixes(r, flags) {
      RoundOnceFits(Abs(value), r.exponent, r.precision - r.exponent, false);
    }
  }

  lemma FixedTo(u: real, mask: nat, exponent: int, p: nat)
    requires u >= 0.0 && 1 <= mask < UINTMAX_MAX
    ensures var r := RoundTo(u, mask, exponent, p, false);
      && (r.TooLarge? <==> u >= UINTMAX_MAX as real)
      && (r.Rounded? ==> IsFixedTo(r, u, mask, p))
  {
    if u < UINTMAX_MAX as real {
      SplitRounds(u, mask);
    }
  }

  lemma FixedOnce(magnitude: real, exponent: int, precision: nat)
    requires magnitude >= 0.0
    ensures var r := RoundOnce(magnitude, exponent, precision, false);
      && (r.TooLarge? <==> magnitude >= UINTMAX_MAX as real)
      && (r.Rounded? ==> IsFixed(r, magnitude, Min(precision, MAX_PRECISION)))
  {
    var p := Min(precision, MAX_PRECISION);
    MaskFits(p);
    FixedTo(magnitude, Power(10, p), exponent, p);
  }

  lemma MantissaBounds(magnitude: real, e: int)
    requires MyPow10(e) <= magnitude < MyPow10(e + 1)
    ensures magnitude >= 0.0 && 1.0 <= Scalar(magnitude, e, true) < 10.0
  {
    PowPositive(e);
    PowStep(e);
    var p := MyPow10(e);
    QuotientBounds(magnitude, p, magnitude / p);
  }

  lemma QuotientBounds(m: real, p: real, q: real)
    requires p > 0.0 && q * p == m && p <= m < 10.0 * p
    ensures 1.0 <= q < 10.0
  {
    assert q < 1.0 ==> (1.0 - q) * p > 0.0;
    assert q >= 10.0 ==> (q - 10.0) * p >= 0.0;
  }

  lemma ScientificSplit(u: real, mask: nat)
    requires 1.0 <= u < 10.0 && 1 <= mask < UINTMAX_MAX
    ensures Cast(u) < UINTMAX_MAX
    ensures var (i, f) := Split(u, mask);
      var rounded := (u * mask as real + 0.5).Floor;
      && 1 <= i <= 10 && f < mask
      && (i <= 9 ==> i * mask + f == rounded < 10 * mask)
      && (i == 10 ==> rounded == 10 * mask && f == 0 && Cast(u) == 9)
  {
    SplitRounds(u, mask);
    var (i, f) := Split(u, mask);
    DigitAndFraction(i, f, mask);
  }

  lemma ScientificOnce(magnitude: real, e: int, precision: nat)
    requires MyPow10(e) <= magnitude < MyPow10(e + 1)
    ensures magnitude >= 0.0
    ensures IsScientific(RoundOnce(magnitude, e, precision, true), magnitude, e, Min(precision, MAX_PRECISION))
  {
    var p := Min(precision, MAX_PRECISION);
    MantissaBounds(magnitude, e);
    MaskFits(p);
    ScientificTo(Scalar(magnitude, e, true), Power(10, p), e, p);
  }

  lemma ScientificTo(u: real, mask: nat, e: int, p: nat)
    requires 1.0 <= u < 10.0 && 1 <= mask < UINTMAX_MAX
    ensures IsScientificTo(RoundTo(u, mask, e, p, true), u, mask, e, p)
  {
    ScientificSplit(u, mask);
  }

  lemma DigitAndFraction(i: int, f: int, mask: int)
    requires 0 <= f < mask
    ensures i <= 9 ==> i * mask + f < 10 * mask
    ensures i == 10 && f == 0 ==> i * mask + f == 10 * mask
  {
    if i <= 9 { assert (9 - i) * mask >= 0; }
  }

  /** %f: for every finite value and precision, the rounding to at most nineteen
      decimals, or the overflow mark exactly from 2^64 - 1 on. */
  lemma FixedRounds(value: real, precision: int, flags: Flags)
    requires ValidPrecision(precision, flags) && !flags.typeE && !flags.typeG
    ensures var r := RoundFloat(value, precision, flags);
      && (r.TooLarge? <==> Abs(value) >= UINTMAX_MAX as real)
      && (r.Rounded? ==> IsFixed(r, Abs(value), Min(Effective(precision), MAX_PRECISION)))
  {
    FixedOnce(Abs(value), 0, Effective(precision));
  }

  predicate InRange(value: real) {
    MyPow10(-99) <= Abs(value) < MyPow10(100)
  }

  /** %e: from 1e-99 up to 1e100, the mantissa of the true exponent is rounded. */
  lemma ScientificRounds(value: real, precision: int, flags: Flags)
    requires ValidPrecision(precision, flags) && flags.typeE && !flags.typeG && InRange(value)
    ensures var e := Exponent(value);
      && MyPow10(e) <= Abs(value) < MyPow10(e + 1)
      && IsScientific(RoundFloat(value, precision, flags), Abs(value), e, Min(Effective(precision), MAX_PRECISION))
  {
    ExponentFits(value);
    ScientificOnce(Abs(value), Exponent(value), Effective(precision));
  }

  /** The exponent a conversion in the style of %e would show for P digits. */
  function ShownExponent(value: real, digits: int): int
    requires digits >= 1
  {
    var r := RoundOnce(Abs(value), Exponent(value), digits - 1, true);
    if r.Rounded? then r.exponent else 0
  }

  /** %g: with P significant digits (at most twenty) and X the exponent of the
      conversion with style e, the style is f with precision P - (X + 1) if
      P > X >= -4, and e with precision P - 1 otherwise (section 7.19.6.1 of C99);
      the fixed style overflows from 2^64 - 1 on. */
  lemma GeneralRounds(value: real, precision: int, flags: Flags)
    requires ValidPrecision(precision, flags) && flags.typeG && InRange(value)
    ensures
      var digits := Min(Effective(precision), MAX_PRECISION + 1);
      var x := ShownExponent(value, digits);
      var r := RoundFloat(value, precision, flags);
      if digits > x >= -4 then
        && (r.TooLarge? <==> Abs(value) >= UINTMAX_MAX as real)
        && (r.Rounded? ==> IsFixed(r, Abs(value), Min(digits - (x + 1), MAX_PRECISION)))
      else
        IsScientific(r, Abs(value), Exponent(value), digits - 1)
  {
    hide RoundOnce, Exponent, MyPow10, IsFixed, Nearest, Scalar, Power;
    ExponentFits(value);
    ScientificOnce(Abs(value), Exponent(value), Effective(precision) - 1);
    var r := RoundOnce(Abs(value), Exponent(value), Effective(precision) - 1, true);
    ClampFirst(Abs(value), Exponent(value), Effective(precision) - 1);
    RoundOnceKeeps(Abs(value), Exponent(value), Effective(precision) - 1, true);
    if Fixes(r, flags) {
      FixedOnce(Abs(value), r.exponent, r.precision - r.exponent);
    }
  }

  lemma RoundOnceKeeps(magnitude: real, exponent: int, precision: nat, estyle: bool)
    requires magnitude >= 0.0
    ensures var r := RoundOnce(magnitude, exponent, precision, estyle);
      r.Rounded? ==> r.estyle == estyle && r.precision == Min(precision, MAX_PRECISION)
  {
  }

  lemma ClampFirst(magnitude: real, exponent: int, precision: nat)
    requires magnitude >= 0.0
    ensures RoundOnce(magnitude, exponent, precision, true)
            == RoundOnce(magnitude, exponent, Min(precision, MAX_PRECISION), true)
  {
  }
}
