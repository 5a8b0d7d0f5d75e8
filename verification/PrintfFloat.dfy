/** fmtflt(): the text of a finite floating point value. */
module PrintfFloat {
  import opened PrintfText
  import opened PrintfDigits
  import opened PrintfOutput
  import opened PrintfInteger
  import opened PrintfDecimal
  import opened PrintfRounding

  function DropZeros(s: string): (r: string)
    ensures |r| <= |s| && r == s[..|r|]
    ensures r != [] ==> r[|r| - 1] != '0'
  {
    if s != [] && s[|s| - 1] == '0' then DropZeros(s[..|s| - 1]) else s
  }

  /** The digits of a nonzero fraction; none for zero. */
  function FractionConverted(fracpart: nat): string {
    if fracpart != 0 then Digits(fracpart, 10, false) else ""
  }

  /** The fraction with its leading zeros, and without its trailing ones if they are
      to be omitted. */
  function FractionText(r: Rounded, omit: bool): string
    requires r.Rounded?
  {
    var digits := FractionConverted(r.fracpart);
    var full := Repeat('0', r.precision - |digits|) + digits;
    if omit then DropZeros(full) else full
  }

  /** At least two digits, and at most two: all that fits the buffer. */
  function ExponentDigits(magnitude: nat): string {
    var low := Converted(magnitude, 10, false);
    if |low| == 1 then ['0', low[0]] else [low[1], low[0]]
  }

  function ExponentText(r: Rounded, flags: Flags): string
    requires r.Rounded?
  {
    if !r.estyle then "" else
    [if flags.up then 'E' else 'e', if r.exponent < 0 then '-' else '+']
    + ExponentDigits(if r.exponent < 0 then -r.exponent else r.exponent)
  }

  function PointText(r: Rounded, omit: bool, flags: Flags): string
    requires r.Rounded?
  {
    if FractionText(r, omit) != [] || flags.num then "." else ""
  }

  predicate Omits(flags: Flags) {
    flags.typeG && !flags.num
  }

  /** What is printed between the padding, in order. */
  datatype Pieces = Pieces(sign: string, digits: string, tail: string)

  function FloatPieces(value: real, r: Rounded, flags: Flags): Pieces
    requires r.Rounded?
  {
    Pieces(SignText(value < 0.0, flags), Digits(r.intpart, 10, false),
           PointText(r, Omits(flags), flags) + FractionText(r, Omits(flags)) + ExponentText(r, flags))
  }

  function FloatPad(p: Pieces, width: int, flags: Flags): nat
    requires p.digits != []
  {
    Max(width - |p.sign| - |p.digits| - Separators(|p.digits|, flags) - |p.tail|, 0)
  }

  function FillZeros(pad: nat, flags: Flags): nat {
    if flags.zero && !flags.minus then pad else 0
  }

  function FillLeft(pad: nat, flags: Flags): nat {
    if flags.zero || flags.minus then 0 else pad
  }

  function FillRight(pad: nat, flags: Flags): nat {
    if flags.minus then pad else 0
  }

  function RenderFloat(p: Pieces, pad: nat, flags: Flags): string {
    Repeat(' ', FillLeft(pad, flags)) + p.sign + Repeat('0', FillZeros(pad, flags))
    + Grouped(p.digits, flags.quote) + p.tail + Repeat(' ', FillRight(pad, flags))
  }

  datatype FloatResult = Overflow | Text(text: string)

  function FloatText(value: real, width: int, precision: int, flags: Flags): FloatResult
    requires ValidPrecision(precision, flags)
  {
    var r := RoundFloat(value, precision, flags);
    if r.TooLarge? then Overflow
    else
      var p := FloatPieces(value, r, flags);
      Text(RenderFloat(p, FloatPad(p, width, flags), flags))
  }

  // ---- The method

  /** while (from > to) OUTCHAR(buf[--from]); */
  method EmitBackwards(out: Output, buf: array<char>, to: nat, from: nat)
    requires out.Valid() && to <= from <= buf.Length && buf != out.str
    modifies out`len, out`text, out.str
    ensures out.Valid() && out.text == old(out.text) + Reverse(old(buf[to..from]))
  {
    var pos := from;
    ghost var all := Reverse(buf[to..from]);
    while pos > to
      invariant to <= pos <= from && out.Valid()
      invariant out.text == old(out.text) + all[..from - pos]
    {
      pos := pos - 1;
      assert buf[pos] == all[from - pos - 1];
      assert all[..from - pos] == all[..from - pos - 1] + [all[from - pos - 1]];
      out.OutChar(buf[pos]);
    }
    assert all[..from - to] == all;
  }

  /** At least two digits: convert() yields one for a small exponent. */
  method ConvertExponent(magnitude: nat, econvert: array<char>) returns (epos: nat)
    requires econvert.Length == 4
    modifies econvert
    ensures epos == 2 && [econvert[1], econvert[0]] == ExponentDigits(magnitude)
  {
    epos := Convert(magnitude, econvert, 2, 10, false);
    assert forall i :: 0 <= i < epos ==> econvert[i] == econvert[..epos][i];
    if epos == 1 {
      econvert[epos] := '0';
      epos := epos + 1;
    }
  }

  /** The exponent, in reverse, as the buffer econvert holds it. */
  method PrepareExponent(r: Rounded, flags: Flags, econvert: array<char>) returns (epos: nat)
    requires r.Rounded? && econvert.Length == 4
    modifies econvert
    ensures epos <= 4 && Reverse(econvert[..epos]) == ExponentText(r, flags)
  {
    epos := 0;
    if r.estyle {
      var exponent, esign := r.exponent, '+';
      if exponent < 0 {
        exponent := -exponent;
        esign := '-';
      }
      epos := ConvertExponent(exponent, econvert);
      econvert[epos] := esign;
      epos := epos + 1;
      econvert[epos] := if flags.up then 'E' else 'e';
      epos := epos + 1;
      assert Reverse(econvert[..4]) == [econvert[3], econvert[2], econvert[1], econvert[0]];
    }
  }

  predicate Fits(r: Rounded) {
    r.Rounded? && r.precision <= MAX_PRECISION && r.fracpart < Power(10, r.precision)
    && r.intpart <= UINTMAX_MAX
  }

  lemma FractionLength(r: Rounded)
    requires Fits(r)
    ensures |FractionConverted(r.fracpart)| <= r.precision && r.fracpart < UINTMAX_MAX
  {
    MaskFits(r.precision);
    if r.fracpart != 0 {
      assert r.precision >= 1;
      DigitsLength(r.fracpart, 10, false, r.precision);
    }
  }

  lemma {:induction false} DropZerosIs(s: string, k: nat)
    requires k <= |s| && (forall i :: k <= i < |s| ==> s[i] == '0') && (k > 0 ==> s[k - 1] != '0')
    ensures DropZeros(s) == s[..k]
    decreases |s|
  {
    if k < |s| {
      var t := s[..|s| - 1];
      DropZerosIs(t, k);
      assert t[..k] == s[..k];
    }
  }

  /** What is left to print of a converted fraction after leaving out the lowest
      omitted digits. */
  function Kept(buf: seq<char>, omitcount: int): string {
    if 0 <= omitcount < |buf| then Reverse(buf[omitcount..]) else ""
  }

  lemma DropAfter(zeros: string, h: string, n: nat)
    requires 1 <= n <= |h| && h[n - 1] != '0' && forall i :: n <= i < |h| ==> h[i] == '0'
    ensures DropZeros(zeros + h) == zeros + h[..n]
  {
    var full, k := zeros + h, |zeros| + n;
    assert full[k - 1] == h[n - 1];
    forall i | k <= i < |full| ensures full[i] == '0' {
      assert full[i] == h[i - |zeros|];
    }
    DropZerosIs(full, k);
    assert full[..k] == zeros + h[..n];
  }

  lemma ReverseSuffix(low: string, k: nat)
    requires k <= |low|
    ensures Reverse(low[k..]) == Reverse(low)[..|low| - k]
  {
    hide Reverse;
    assert forall i :: 0 <= i < |low| - k ==> Reverse(low[k..])[i] == Reverse(low)[i];
  }

  lemma OmittedFraction(r: Rounded, low: string, omitcount: nat)
    requires r.Rounded? && r.fracpart != 0 && low == Converted(r.fracpart, 10, false)
    requires omitcount < |low| <= r.precision
    requires (forall i :: 0 <= i < omitcount ==> low[i] == '0') && low[omitcount] != '0'
    ensures FractionText(r, true) == Repeat('0', r.precision - |low|) + Kept(low, omitcount)
    ensures |FractionText(r, true)| == r.precision - omitcount
  {
    hide Converted, DropZeros, Power, Repeat;
    var zeros, h, n := Repeat('0', r.precision - |low|), Reverse(low), |low| - omitcount;
    assert h[n - 1] == low[omitcount];
    forall i | n <= i < |h| ensures h[i] == '0' {
      assert h[i] == low[|low| - 1 - i];
    }
    DropAfter(zeros, h, n);
    ReverseSuffix(low, omitcount);
    assert FractionConverted(r.fracpart) == h;
  }

  lemma ZeroFraction(r: Rounded)
    requires r.Rounded? && r.fracpart == 0
    ensures FractionText(r, true) == "" && FractionText(r, false) == Repeat('0', r.precision)
  {
    var full := Repeat('0', r.precision);
    assert full + "" == full;
    DropZerosIs(full, 0);
  }

  lemma SomeDigitNonzero(value: nat)
    requires value > 0
    ensures var low := Converted(value, 10, false); low[|low| - 1] != '0'
  {
    DigitsCanonical(value, 10, false);
    assert Digits(value, 10, false)[0] == Converted(value, 10, false)[|Converted(value, 10, false)| - 1];
  }

  method CountOmitted(fconvert: array<char>, fpos: nat, ghost low: string) returns (omitcount: nat)
    requires 1 <= fpos <= fconvert.Length && fconvert[..fpos] == low && low[fpos - 1] != '0'
    ensures omitcount < fpos && low[omitcount] != '0'
    ensures forall i :: 0 <= i < omitcount ==> low[i] == '0'
  {
    omitcount := 0;
    assert forall i :: 0 <= i < fpos ==> fconvert[i] == low[i];
    while omitcount < fpos && fconvert[omitcount] == '0'
      invariant omitcount < fpos && forall i :: 0 <= i < omitcount ==> low[i] == '0'
    {
      omitcount := omitcount + 1;
    }
  }

  /** convert() for the fraction, which is skipped when the fraction is zero. */
  method ConvertFraction(r: Rounded, fconvert: array<char>) returns (fpos: nat)
    requires Fits(r) && fconvert.Length == MAX_CONVERT_LENGTH
    modifies fconvert
    ensures fpos <= r.precision && fpos <= MAX_CONVERT_LENGTH && (fpos == 0 <==> r.fracpart == 0)
    ensures r.fracpart != 0 ==> fconvert[..fpos] == Converted(r.fracpart, 10, false)
  {
    fpos := 0;
    FractionLength(r);
    if r.fracpart != 0 {
      ConvertFits(r.fracpart, 10, false);
      fpos := Convert(r.fracpart, fconvert, MAX_CONVERT_LENGTH, 10, false);
    }
  }

  lemma WholeFraction(r: Rounded, low: string)
    requires r.Rounded? && r.fracpart != 0 && low == Converted(r.fracpart, 10, false) && |low| <= r.precision
    ensures FractionText(r, false) == Repeat('0', r.precision - |low|) + Kept(low, 0)
    ensures |FractionText(r, false)| == r.precision
  {
    assert low[0..] == low;
  }

  /** The fraction: how many zeros lead, how many digits follow, how many of the
      lowest are omitted, and how many characters that makes. */
  method PrepareFraction(r: Rounded, omitzeros: bool, fconvert: array<char>)
    returns (fpos: nat, omitcount: nat, leadfraczeros: int, precision: int)
    requires Fits(r) && fconvert.Length == MAX_CONVERT_LENGTH
    modifies fconvert
    ensures fpos <= fconvert.Length && leadfraczeros >= 0
    ensures Repeat('0', leadfraczeros) + Kept(fconvert[..fpos], omitcount) == FractionText(r, omitzeros)
    ensures precision == |FractionText(r, omitzeros)|
  {
    precision, omitcount := r.precision, 0;
    fpos := ConvertFraction(r, fconvert);
    leadfraczeros := precision - fpos;
    if omitzeros {
      if fpos > 0 {
        SomeDigitNonzero(r.fracpart);
        omitcount := CountOmitted(fconvert, fpos, fconvert[..fpos]);
        OmittedFraction(r, fconvert[..fpos], omitcount);
      } else {
        omitcount := precision;
        leadfraczeros := 0;
        ZeroFraction(r);
      }
      precision := precision - omitcount;
    } else if fpos > 0 {
      WholeFraction(r, fconvert[..fpos]);
    } else {
      ZeroFraction(r);
    }
  }

  /** The point, the fraction and the exponent. */
  method EmitTail(out: Output, emitpoint: bool, leadfraczeros: int, fconvert: array<char>, omitcount: nat, fpos: nat,
                  econvert: array<char>, epos: nat)
    requires out.Valid() && fpos <= fconvert.Length && epos <= econvert.Length
    requires fconvert != out.str && econvert != out.str
    modifies out`len, out`text, out.str
    ensures out.Valid()
    ensures out.text == old(out.text)
      + (old((if emitpoint then "." else "") + (Repeat('0', leadfraczeros) + Kept(fconvert[..fpos], omitcount)))
         + old(Reverse(econvert[..epos])))
  {
    hide Repeat, Reverse;
    ghost var point := if emitpoint then "." else "";
    ghost var kept, exp := Kept(fconvert[..fpos], omitcount), Reverse(econvert[..epos]);
    assert econvert[0..epos] == econvert[..epos];
    Join4(out.text, point, Repeat('0', leadfraczeros), kept, exp);
    assert point + Repeat('0', leadfraczeros) + kept + exp == point + (Repeat('0', leadfraczeros) + kept) + exp;
    out.OutOptional(if emitpoint then '.' else '\0');
    out.Pad('0', leadfraczeros);
    if fpos > omitcount {
      assert fconvert[..fpos][omitcount..] == fconvert[omitcount..fpos];
      EmitBackwards(out, fconvert, omitcount, fpos);
    }
    EmitBackwards(out, econvert, 0, epos);
  }

  /** Sign and padding in front of the digits: zeros go behind the sign. */
  method EmitFloatHead(out: Output, sign_: char, padlen_: int, flags: Flags) returns (padlen: int)
    requires out.Valid() && (flags.minus ==> padlen_ <= 0) && (!flags.minus ==> padlen_ >= 0)
    modifies out`len, out`text, out.str
    ensures out.Valid() && padlen == if flags.minus then padlen_ else 0
    ensures var pad := if flags.minus then -padlen_ else padlen_;
      out.text == old(out.text)
        + (Repeat(' ', FillLeft(pad, flags)) + Optional(sign_) + Repeat('0', FillZeros(pad, flags)))
  {
    var sign := sign_;
    padlen := padlen_;
    ghost var start := out.text;
    if !flags.minus && flags.zero && padlen > 0 {
      if sign != '\0' {
        out.OutChar(sign);
        sign := '\0';
      }
      assert out.text == start + Optional(sign_);
      out.Pad('0', padlen);
      padlen := 0;
      assert out.text == start + ("" + Optional(sign_) + Repeat('0', padlen_));
    }
    if padlen > 0 {
      out.Pad(' ', padlen);
      padlen := 0;
    }
    out.OutOptional(sign);
  }

  /** The pieces of a rounded value, with the buffers that hold them. */
  predicate Holds(p: Pieces, sign: char, intdigits: string, point: string, fraction: string, exponent: string) {
    p.sign == Optional(sign) && p.digits == intdigits && p.tail == point + fraction + exponent
  }

  method PadLength(width: int, ipos: nat, epos: nat, precision: int, separators: nat, emitpoint: bool, sign: char)
    returns (padlen: int)
    ensures padlen == Max(width - |Optional(sign)| - ipos - separators
                          - (|if emitpoint then "." else ""| + precision + epos), 0)
  {
    padlen := width - ipos - epos - precision - separators
              - (if emitpoint then 1 else 0) - (if sign != '\0' then 1 else 0);
    if padlen < 0 {
      padlen := 0;
    }
  }

  /** The output of fmtflt(), padlen being the width left to fill. */
  method EmitFloat(out: Output, ghost p: Pieces, sign: char, iconvert: array<char>, ipos: nat, separators: int,
                   emitpoint: bool, leadfraczeros: int, fconvert: array<char>, omitcount: nat, fpos: nat,
                   econvert: array<char>, epos: nat, padlen_: nat, flags: Flags)
    requires out.Valid() && 1 <= ipos <= iconvert.Length && fpos <= fconvert.Length && epos <= econvert.Length
    requires iconvert != out.str && fconvert != out.str && econvert != out.str
    requires Holds(p, sign, Reverse(iconvert[..ipos]), if emitpoint then "." else "",
                   Repeat('0', leadfraczeros) + Kept(fconvert[..fpos], omitcount), Reverse(econvert[..epos]))
    requires separators == Separators(ipos, flags)
    modifies out`len, out`text, out.str
    ensures out.Valid() && out.text == old(out.text) + RenderFloat(p, padlen_, flags)
  {
    hide Repeat, Reverse, Grouped, Kept;
    var padlen: int := padlen_;
    if flags.minus {
      padlen := -padlen;
    }
    ghost var head := Repeat(' ', FillLeft(padlen_, flags)) + Optional(sign) + Repeat('0', FillZeros(padlen_, flags));
    Join4(out.text, head, Grouped(p.digits, flags.quote), p.tail, Repeat(' ', FillRight(padlen_, flags)));
    if flags.quote && separators == 0 { ShortUngrouped(p.digits); }
    padlen := EmitFloatHead(out, sign, padlen, flags);
    EmitDigits(out, iconvert, ipos, separators, p.digits);
    EmitTail(out, emitpoint, leadfraczeros, fconvert, omitcount, fpos, econvert, epos);
    out.Pad(' ', -padlen);
  }

  method FloatSign(value: real, flags: Flags) returns (sign: char)
    ensures Optional(sign) == SignText(value < 0.0, flags)
  {
    sign := '\0';
    if value < 0.0 {
      sign := '-';
    } else if flags.plus {
      sign := '+';
    } else if flags.space {
      sign := ' ';
    }
  }

  /** fmtflt() for finite values; true if the value is too large to print. */
  method FmtFlt(out: Output, value: real, width: int, precision_: int, flags: Flags) returns (overflow: bool)
    requires out.Valid() && ValidPrecision(precision_, flags)
    modifies out`len, out`text, out.str
    ensures out.Valid()
    ensures match FloatText(value, width, precision_, flags)
      case Overflow => overflow && out.text == old(out.text)
      case Text(text) => !overflow && out.text == old(out.text) + text
  {
    var sign := FloatSign(value, flags);
    var r := ComputeRounding(value, precision_, flags);
    if r.TooLarge? {
      return true;
    }
    RoundFloatFits(value, precision_, flags);
    FmtRounded(out, value, r, sign, width, flags);
    overflow := false;
  }

  /** The digits and lengths that the output needs. */
  method PrepareFloat(value: real, r: Rounded, sign: char, width: int, flags: Flags,
                      iconvert: array<char>, fconvert: array<char>, econvert: array<char>)
    returns (ipos: nat, separators: int, emitpoint: bool, leadfraczeros: int, omitcount: nat, fpos: nat,
             epos: nat, padlen: int)
    requires Fits(r) && Optional(sign) == SignText(value < 0.0, flags)
    requires iconvert.Length == fconvert.Length == MAX_CONVERT_LENGTH && econvert.Length == 4
    requires iconvert != fconvert && iconvert != econvert && fconvert != econvert
    modifies iconvert, fconvert, econvert
    ensures 1 <= ipos <= iconvert.Length && fpos <= fconvert.Length && epos <= econvert.Length
    ensures separators == Separators(ipos, flags) && padlen == FloatPad(FloatPieces(value, r, flags), width, flags)
    ensures Holds(FloatPieces(value, r, flags), sign, Reverse(iconvert[..ipos]), if emitpoint then "." else "",
                  Repeat('0', leadfraczeros) + Kept(fconvert[..fpos], omitcount), Reverse(econvert[..epos]))
  {
    hide Digits, Converted, FractionText, ExponentText, Repeat, Reverse, Kept, Power;
    epos := PrepareExponent(r, flags, econvert);
    ConvertFits(r.intpart, 10, false);
    ipos := Convert(r.intpart, iconvert, MAX_CONVERT_LENGTH, 10, false);
    var precision;
    fpos, omitcount, leadfraczeros, precision := PrepareFraction(r, flags.typeG && !flags.num, fconvert);
    emitpoint := precision > 0 || flags.num;
    separators := 0;
    if flags.quote {
      separators := GetNumSep(ipos);
    }
    padlen := PadLength(width, ipos, epos, precision, separators, emitpoint, sign);
  }

  method FmtRounded(out: Output, value: real, r: Rounded, sign: char, width: int, flags: Flags)
    requires out.Valid() && Fits(r) && Optional(sign) == SignText(value < 0.0, flags)
    modifies out`len, out`text, out.str
    ensures out.Valid()
    ensures var p := FloatPieces(value, r, flags);
      out.text == old(out.text) + RenderFloat(p, FloatPad(p, width, flags), flags)
  {
    var iconvert, fconvert, econvert := new char[MAX_CONVERT_LENGTH], new char[MAX_CONVERT_LENGTH], new char[4];
    var ipos, separators, emitpoint, leadfraczeros, omitcount, fpos, epos, padlen :=
      PrepareFloat(value, r, sign, width, flags, iconvert, fconvert, econvert);
    EmitFloat(out, FloatPieces(value, r, flags), sign, iconvert, ipos, separators, emitpoint, leadfraczeros, fconvert,
              omitcount, fpos, econvert, epos, padlen, flags);
  }
}
