/** What the fields of integers and floating point values look like, character by character,
    as section 7.19.6.1 of C99 lays them out. */
module PrintfShape {
  import opened PrintfText
  import opened PrintfDigits
  import opened PrintfOutput
  import opened PrintfInteger
  import opened PrintfIntegerProperties
  import opened PrintfDecimal
  import opened PrintfRounding
  import opened PrintfFloat
  import opened PrintfFloatProperties
  import opened PrintfScientific

  // ---- Digits and commas

  /** A digit of the base, in lower or upper case. */
  predicate DigitIn(ch: char, base: nat, upper: bool)
    requires base <= 16
  {
    ch in (if upper then "0123456789ABCDEF" else "0123456789abcdef")[..base]
  }

  /** The digits of a number without superfluous zeros, with a comma in front of every
      group of three, counted from the right, if they are to be separated. */
  predicate Shows(body: string, value: nat, base: nat, upper: bool, separate: bool)
    requires 2 <= base <= 16
  {
    && body != "" && (body[0] == '0' <==> value == 0) && Value(StripCommas(body), base) == value
    && (forall i :: 0 <= i < |body| ==> body[i] == ',' || DigitIn(body[i], base, upper))
    && (forall i :: 0 <= i < |body| ==> (body[i] == ',' <==> separate && (|body| - 1 - i) % 4 == 3))
  }

  lemma DigitCharIn(d: nat, base: nat, upper: bool)
    requires d < base <= 16
    ensures DigitIn(DigitChar(d, upper), base, upper)
  {
    var all := if upper then "0123456789ABCDEF" else "0123456789abcdef";
    assert all[..base][d] == DigitChar(d, upper);
  }

  lemma {:induction false} DigitsIn(value: nat, base: nat, upper: bool)
    requires 2 <= base <= 16
    ensures forall i :: 0 <= i < |Digits(value, base, upper)| ==> DigitIn(Digits(value, base, upper)[i], base, upper)
    decreases value
  {
    hide Digits, DigitChar, DigitIn;
    var q, r := LastDigit(value, base, upper);
    DigitCharIn(r, base, upper);
    if q != 0 { DigitsIn(q, base, upper); }
  }

  lemma {:induction false} GroupedChars(digits: string, separate: bool)
    ensures forall i :: 0 <= i < |Grouped(digits, separate)| ==>
              Grouped(digits, separate)[i] == ',' || Grouped(digits, separate)[i] in digits
    ensures digits != "" ==> Grouped(digits, separate) != "" && Grouped(digits, separate)[0] == digits[0]
    decreases |digits|
  {
    if digits != "" { GroupedChars(digits[1..], separate); }
  }

  lemma {:induction false} Ungrouped(digits: string)
    ensures Grouped(digits, false) == digits
    decreases |digits|
  {
    if digits != "" { Ungrouped(digits[1..]); }
  }

  lemma CommasStand(digits: string, separate: bool, i: nat)
    requires digits != "" && (forall j :: 0 <= j < |digits| ==> digits[j] != ',')
    requires i < |Grouped(digits, separate)|
    ensures var g := Grouped(digits, separate); g[i] == ',' <==> separate && (|g| - 1 - i) % 4 == 3
  {
    hide Grouped;
    if separate {
      GroupsOfThree(digits, |Grouped(digits, separate)| - 1 - i);
    } else {
      Ungrouped(digits);
    }
  }

  lemma GroupedShows(value: nat, base: nat, upper: bool, separate: bool)
    requires 2 <= base <= 16
    ensures Shows(Grouped(Digits(value, base, upper), separate), value, base, upper, separate)
  {
    hide Grouped, Digits, DigitIn, Value, StripCommas;
    var digits := Digits(value, base, upper);
    var body := Grouped(digits, separate);
    DigitsIn(value, base, upper);
    DigitsHaveNoComma(value, base, upper);
    DigitsCanonical(value, base, upper);
    DigitsValue(value, base, upper);
    GroupedCount(digits, separate);
    GroupedChars(digits, separate);
    forall i | 0 <= i < |body|
      ensures body[i] == ',' || DigitIn(body[i], base, upper)
      ensures body[i] == ',' <==> separate && (|body| - 1 - i) % 4 == 3
    {
      CommasStand(digits, separate, i);
      if body[i] != ',' {
        var j :| 0 <= j < |digits| && digits[j] == body[i];
      }
    }
  }

  /** The sign of a signed conversion. */
  predicate IsSign(sign: string, negative: bool, flags: Flags) {
    sign == if negative then "-" else if flags.plus then "+" else if flags.space then " " else ""
  }

  // ---- Integers

  /** Blanks, sign, prefix, zeros, digits, blanks. */
  datatype IntField = IntField(left: nat, sign: string, prefix: string, zeros: nat, body: string, right: nat) {
    function Text(): string {
      Repeat(' ', left) + sign + prefix + Repeat('0', zeros) + body + Repeat(' ', right)
    }
  }

  /** Sign, prefix and digits of a value, or of its magnitude. */
  predicate IntContent(f: IntField, value: int, base: nat, flags: Flags)
    requires 2 <= base <= 16
  {
    var magnitude: nat :=
      if flags.isUnsigned then value % 0x1_0000_0000_0000_0000 else if value < 0 then -value else value;
    && (if flags.isUnsigned then f.sign == "" else IsSign(f.sign, value < 0, flags))
    && f.prefix == (if flags.num && base == 16 && magnitude != 0 then (if flags.up then "0X" else "0x") else "")
    && Shows(f.body, magnitude, base, flags.up, flags.quote)
  }

  /** The zeros up to the precision, which counts the commas as digits; and the rest of the
      width: blanks on the right for a minus, zeros for a zero flag without precision, and
      blanks on the left otherwise. The rest is too short by the commas when there are
      zeros. */
  predicate IntPadding(f: IntField, base: nat, width: int, precision: int, flags: Flags) {
    var digits, commas := |StripCommas(f.body)|, |f.body| - |StripCommas(f.body)|;
    var least := if flags.num && base == 8 && f.body != "0" && precision <= digits then digits + 1 else precision;
    var zeros := Max(least - |f.body|, 0);
    var rest := Max(width - |f.sign| - |f.prefix| - Max(least, digits) - commas, 0);
    if flags.minus then f.left == 0 && f.zeros == zeros && f.right == rest
    else if flags.zero && precision == -1 then f.left == 0 && f.zeros == zeros + rest && f.right == 0
    else f.left == rest && f.zeros == zeros && f.right == 0
  }

  /** The text of every integer is laid out like this. */
  lemma IntShape(value: int, base: nat, width: int, precision: int, flags: Flags) returns (f: IntField)
    requires IsIntMax(value) && IsBase(base)
    ensures IntText(value, base, width, precision, flags) == f.Text()
    ensures IntContent(f, value, base, flags) && IntPadding(f, base, width, precision, flags)
  {
    hide Digits, Grouped, Shows, StripCommas, Repeat;
    var l := IntLayout(value, base, width, precision, flags);
    var magnitude := Magnitude(value, flags);
    f := IntField(LeftBlanks(l, precision == -1, flags), l.sign, l.prefix, LeadingZeros(l, precision == -1, flags),
                  Grouped(l.digits, flags.quote), RightBlanks(l, flags));
    GroupedShows(magnitude, base, flags.up, flags.quote);
    DigitsHaveNoComma(magnitude, base, flags.up);
    GroupedCount(l.digits, flags.quote);
    OnlyZero(magnitude, base, flags.up, flags.quote);
  }

  lemma OnlyZero(value: nat, base: nat, upper: bool, separate: bool)
    requires 2 <= base <= 16
    ensures Grouped(Digits(value, base, upper), separate) == "0" <==> value == 0
  {
    hide Digits;
    DigitsCanonical(value, base, upper);
    GroupedChars(Digits(value, base, upper), separate);
    if value == 0 {
      assert Digits(0, base, upper) == "0";
    }
  }

  // ---- Floating point values

  /** Blanks, sign, zeros, integer digits, point, decimals, exponent, blanks. */
  datatype FloatField = FloatField(
    left: nat, sign: string, zeros: nat, body: string, point: string, decimals: string, exponent: string, right: nat)
  {
    function Text(): string {
      Repeat(' ', left) + sign + Repeat('0', zeros) + body + point + decimals + exponent + Repeat(' ', right)
    }
  }

  /** The exponent that is shown of a mantissa rounded to p decimals. */
  function ShownWith(value: real, p: nat): int {
    Exponent(value) + if StepsUp(value, Power(10, p)) then 1 else 0
  }

  /** Which style a value is printed in, with which exponent, and to how many decimals it
      is rounded: at most nineteen in all. */
  predicate FloatStyle(value: real, precision: int, flags: Flags, scientific: bool, x: int, decimals: int) {
    var p := if precision == -1 then 6 else precision;
    if flags.typeG then
      var digits := Min(p, 20);
      && digits >= 1 && x == ShownWith(value, digits - 1)
      && scientific == !(digits > x >= -4)
      && decimals == if scientific then digits - 1 else Min(digits - 1 - x, 19)
    else
      && decimals == Min(p, 19) && decimals >= 0
      && scientific == flags.typeE && (scientific ==> x == ShownWith(value, decimals))
  }

  /** Sign, digits, point, decimals and exponent. The zeros at the end of the decimals are
      left out by %g without the alternative form. */
  predicate FloatContent(f: FloatField, value: real, flags: Flags, scientific: bool, x: int, decimals: int) {
    && IsSign(f.sign, value < 0.0, flags)
    && Shows(f.body, Value(StripCommas(f.body), 10), 10, false, flags.quote)
    && (forall i :: 0 <= i < |f.decimals| ==> '0' <= f.decimals[i] <= '9')
    && (if flags.typeG && !flags.num then
          |f.decimals| <= decimals && (f.decimals != "" ==> f.decimals[|f.decimals| - 1] != '0')
        else |f.decimals| == decimals)
    && f.point == (if f.decimals != "" || flags.num then "." else "")
    && f.exponent == if scientific then ExponentShown(x, flags.up) else ""
  }

  /** Letter, sign and two digits. */
  function ExponentShown(x: int, upper: bool): string {
    var m := if x < 0 then -x else x;
    [if upper then 'E' else 'e', if x < 0 then '-' else '+', "0123456789"[m / 10 % 10], "0123456789"[m % 10]]
  }

  /** The rest of the width: blanks on the right for a minus, zeros for a zero flag, and
      blanks on the left otherwise. */
  predicate FloatPadding(f: FloatField, width: int, flags: Flags) {
    var rest := Max(width - |f.sign| - |f.body| - |f.point| - |f.decimals| - |f.exponent|, 0);
    if flags.minus then f.left == 0 && f.zeros == 0 && f.right == rest
    else if flags.zero then f.left == 0 && f.zeros == rest && f.right == 0
    else f.left == rest && f.zeros == 0 && f.right == 0
  }

  lemma FirstPass(value: real, q: nat)
    ensures
      var p := Min(q, 19);
      var r := RoundOnce(Abs(value), Exponent(value), q, true);
      r.Rounded? ==> r.estyle && r.precision == p && r.exponent == ShownWith(value, p)
  {
    hide Exponent, Power, Split, Nearest, Scalar;
    var p := Min(q, 19);
    MaskFits(p);
    OnePassIs(value, q, p);
    CastOrFits(MantissaOf(value), Power(10, p), Exponent(value), p);
    if MantissaOf(value) < UINTMAX_MAX as real {
      RoundsAnyMantissa(MantissaOf(value), Power(10, p), Exponent(value), p);
    }
  }

  lemma OnePassIs(value: real, q: nat, p: nat)
    requires p == Min(q, 19) && 1 <= Power(10, p)
    ensures RoundOnce(Abs(value), Exponent(value), q, true)
            == RoundTo(MantissaOf(value), Power(10, p), Exponent(value), p, true)
  {
    hide Exponent, Power, Scalar, RoundTo;
  }

  lemma CastOrFits(u: real, mask: nat, e: int, p: nat)
    requires u >= 0.0 && mask >= 1
    ensures RoundTo(u, mask, e, p, true).Rounded? ==> u < UINTMAX_MAX as real
  {
  }

  /** The rounding has the style, the exponent and the decimals that it should. */
  lemma StyleShown(value: real, precision: int, flags: Flags) returns (x: int)
    requires ValidPrecision(precision, flags) && RoundFloat(value, precision, flags).Rounded?
    ensures var r := RoundFloat(value, precision, flags);
      && FloatStyle(value, precision, flags, r.estyle, x, r.precision)
      && (r.estyle ==> r.exponent == x)
  {
    hide RoundOnce, Exponent, StepsUp;
    var scientific := flags.typeE || flags.typeG;
    var p := Effective(precision) - if flags.typeG then 1 else 0;
    x := ShownWith(value, Min(p, 19));
    FirstPass(value, p);
    RoundOnceKeeps(Abs(value), 0, p, false);
    var r := RoundOnce(Abs(value), if scientific then Exponent(value) else 0, p, scientific);
    if Fixes(r, flags) { RoundOnceKeeps(Abs(value), r.exponent, r.precision - r.exponent, false); }
  }

  lemma {:induction false} DropZerosRest(s: string)
    ensures s == DropZeros(s) + Repeat('0', |s| - |DropZeros(s)|)
    decreases |s|
  {
    if s != "" && s[|s| - 1] == '0' {
      DropZerosRest(s[..|s| - 1]);
      RepeatSnoc('0', |s| - 1 - |DropZeros(s[..|s| - 1])|);
      assert s == s[..|s| - 1] + ['0'];
    }
  }

  lemma ExponentIs(r: Rounded, flags: Flags)
    requires r.Rounded? && r.estyle
    ensures ExponentText(r, flags) == ExponentShown(r.exponent, flags.up)
  {
    hide ExponentDigits;
    var m := if r.exponent < 0 then -r.exponent else r.exponent;
    LastTwo(m);
    DecimalChar(m / 10 % 10);
    DecimalChar(m % 10);
  }

  lemma DecimalChar(d: nat)
    requires d < 10
    ensures DigitChar(d, false) == "0123456789"[d]
  {
  }

  /** The fields of the output, taken from its pieces. */
  function FieldOf(value: real, r: Rounded, pad: nat, flags: Flags): FloatField
    requires r.Rounded?
  {
    FloatField(FillLeft(pad, flags), SignText(value < 0.0, flags), FillZeros(pad, flags),
               Grouped(Digits(r.intpart, 10, false), flags.quote), PointText(r, Omits(flags), flags),
               FractionText(r, Omits(flags)), ExponentText(r, flags), FillRight(pad, flags))
  }

  lemma FieldText(value: real, r: Rounded, pad: nat, flags: Flags)
    requires r.Rounded?
    ensures RenderFloat(FloatPieces(value, r, flags), pad, flags) == FieldOf(value, r, pad, flags).Text()
  {
    hide Repeat, Grouped, Digits, PointText, FractionText, ExponentText, SignText, FillLeft, FillZeros, FillRight;
    var f := FieldOf(value, r, pad, flags);
    TailJoins(Repeat(' ', f.left) + f.sign + Repeat('0', f.zeros) + f.body, f.point, f.decimals, f.exponent,
              Repeat(' ', f.right));
  }

  lemma TailJoins(head: string, point: string, decimals: string, exponent: string, right: string)
    ensures head + (point + decimals + exponent) + right == head + point + decimals + exponent + right
  {
  }

  lemma DecimalsShown(r: Rounded, flags: Flags)
    requires Fits(r)
    ensures var d := FractionText(r, Omits(flags));
      && (forall i :: 0 <= i < |d| ==> '0' <= d[i] <= '9')
      && (if flags.typeG && !flags.num then |d| <= r.precision && (d != "" ==> d[|d| - 1] != '0')
          else |d| == r.precision)
  {
    hide FractionConverted, DropZeros, Value;
    FractionDigits(r);
    forall ch: char | DigitValue(ch) < 10 ensures '0' <= ch <= '9' {
    }
  }

  lemma ContentShown(value: real, r: Rounded, pad: nat, flags: Flags)
    requires Fits(r)
    ensures FloatContent(FieldOf(value, r, pad, flags), value, flags, r.estyle, r.exponent, r.precision)
  {
    hide Grouped, Digits, FractionText, ExponentText, Shows, ExponentShown, StripCommas, Value, Omits;
    DecimalsShown(r, flags);
    GroupedShows(r.intpart, 10, false, flags.quote);
    StripsTo(r.intpart, flags.quote);
    if r.estyle { ExponentIs(r, flags); } else { NoExponent(r, flags); }
  }

  lemma NoExponent(r: Rounded, flags: Flags)
    requires r.Rounded? && !r.estyle
    ensures ExponentText(r, flags) == ""
  {
  }

  lemma StripsTo(value: nat, separate: bool)
    ensures Value(StripCommas(Grouped(Digits(value, 10, false), separate)), 10) == value
  {
    hide Grouped, Digits, Value, StripCommas;
    DigitsHaveNoComma(value, 10, false);
    GroupedCount(Digits(value, 10, false), separate);
    DigitsValue(value, 10, false);
  }

  lemma PaddingShown(value: real, r: Rounded, width: int, flags: Flags)
    requires r.Rounded?
    ensures FloatPadding(FieldOf(value, r, FloatPad(FloatPieces(value, r, flags), width, flags), flags), width, flags)
  {
    hide Grouped, Digits, PointText, FractionText, ExponentText, SignText, StripCommas;
    DigitsHaveNoComma(r.intpart, 10, false);
    GroupedCount(Digits(r.intpart, 10, false), flags.quote);
  }

  /** The text of every finite value that has one is laid out like this. */
  lemma FloatShape(value: real, width: int, precision: int, flags: Flags)
    returns (f: FloatField, scientific: bool, x: int, decimals: nat)
    requires ValidPrecision(precision, flags) && FloatText(value, width, precision, flags).Text?
    ensures FloatText(value, width, precision, flags).text == f.Text()
    ensures FloatStyle(value, precision, flags, scientific, x, decimals)
    ensures FloatContent(f, value, flags, scientific, x, decimals) && FloatPadding(f, width, flags)
  {
    hide RoundFloat, RenderFloat, FloatPad, FloatStyle, FloatContent, FloatPadding, FieldOf;
    hide Digits, PointText, FractionText, ExponentText, SignText;
    var r := RoundFloat(value, precision, flags);
    var pad := FloatPad(FloatPieces(value, r, flags), width, flags);
    RoundFloatFits(value, precision, flags);
    x := StyleShown(value, precision, flags);
    f, scientific, decimals := FieldOf(value, r, pad, flags), r.estyle, r.precision;
    FieldText(value, r, pad, flags);
    ContentShown(value, r, pad, flags);
    PaddingShown(value, r, width, flags);
    SameExponent(f, value, flags, scientific, r.exponent, x, decimals);
  }

  lemma SameExponent(f: FloatField, value: real, flags: Flags, scientific: bool, e: int, x: int, decimals: int)
    requires FloatContent(f, value, flags, scientific, e, decimals) && (scientific ==> e == x)
    ensures FloatContent(f, value, flags, scientific, x, decimals)
  {
    hide Shows, ExponentShown, StripCommas, Value;
  }

  /** What %g leaves out are zeros: with the alternative form they stand behind the same
      decimals. */
  lemma GeneralDropsZeros(value: real, precision: int, flags: Flags)
    returns (f: FloatField, g: FloatField)
    requires ValidPrecision(precision, flags) && flags.typeG && !flags.num
    requires FloatText(value, 0, precision, flags).Text?
    ensures FloatText(value, 0, precision, flags.(num := true)).Text?
    ensures FloatText(value, 0, precision, flags).text == f.Text() && FloatPadding(f, 0, flags)
    ensures FloatText(value, 0, precision, flags.(num := true)).text == g.Text() && FloatPadding(g, 0, flags)
    ensures f.sign == g.sign && f.body == g.body && f.exponent == g.exponent
    ensures |f.decimals| <= |g.decimals| && g.decimals == f.decimals + Repeat('0', |g.decimals| - |f.decimals|)
  {
    hide RoundFloat, Grouped, Digits, RenderFloat, FloatPad, FloatPadding, Repeat, FractionText;
    hide ExponentText, PointText, SignText;
    var r, alternative := RoundFloat(value, precision, flags), flags.(num := true);
    var padF, padG := FloatPad(FloatPieces(value, r, flags), 0, flags),
      FloatPad(FloatPieces(value, r, alternative), 0, alternative);
    f, g := FieldOf(value, r, padF, flags), FieldOf(value, r, padG, alternative);
    FieldText(value, r, padF, flags);
    FieldText(value, r, padG, alternative);
    PaddingShown(value, r, 0, flags);
    PaddingShown(value, r, 0, alternative);
    ZerosOmitted(r);
    OnlyZerosDiffer(value, r, precision, flags, g);
  }

  lemma ZerosOmitted(r: Rounded)
    requires r.Rounded?
    ensures var d, full := FractionText(r, true), FractionText(r, false);
      |d| <= |full| && full == d + Repeat('0', |full| - |d|)
  {
    hide Repeat, FractionConverted;
    DropZerosRest(FractionText(r, false));
  }

  lemma OnlyZerosDiffer(value: real, r: Rounded, precision: int, flags: Flags, g: FloatField)
    requires ValidPrecision(precision, flags) && r.Rounded?
    ensures RoundFloat(value, precision, flags.(num := true)) == RoundFloat(value, precision, flags)
    ensures FloatPadding(g, 0, flags.(num := true)) <==> FloatPadding(g, 0, flags)
    ensures SignText(value < 0.0, flags.(num := true)) == SignText(value < 0.0, flags)
    ensures ExponentText(r, flags.(num := true)) == ExponentText(r, flags)
  {
    hide RoundOnce, ExponentDigits;
  }
}
