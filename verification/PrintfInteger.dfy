/** fmtint(): what it prints, how it prints it, and how to read it back. */
module PrintfInteger {
  import opened PrintfText
  import opened PrintfDigits
  import opened PrintfOutput

  const INTMAX_LIMIT := 0x8000_0000_0000_0000

  /** An intmax_t. */
  predicate IsIntMax(value: int) {
    -INTMAX_LIMIT <= value < INTMAX_LIMIT
  }

  predicate IsBase(base: nat) {
    base == 8 || base == 10 || base == 16
  }

  /** The conversion to uintmax_t, or the magnitude. */
  function Magnitude(value: int, flags: Flags): nat
    requires IsIntMax(value)
  {
    if flags.isUnsigned then value % 0x1_0000_0000_0000_0000
    else if value >= 0 then value else -value
  }

  function SignText(negative: bool, flags: Flags): string {
    if negative then "-" else if flags.plus then "+" else if flags.space then " " else ""
  }

  function IntSign(value: int, flags: Flags): string {
    if flags.isUnsigned then "" else SignText(value < 0, flags)
  }

  function HexPrefix(magnitude: nat, base: nat, flags: Flags): string {
    if flags.num && magnitude != 0 && base == 16 then (if flags.up then "0X" else "0x") else ""
  }

  /** The alternative form of octal raises the precision to fit a leading zero. */
  function IntPrecision(magnitude: nat, base: nat, precision: int, pos: nat, flags: Flags): int {
    if flags.num && magnitude != 0 && base == 8 && precision <= pos then pos + 1 else precision
  }

  function Separators(pos: nat, flags: Flags): nat
    requires pos >= 1
  {
    if flags.quote then GetNumSep(pos) else 0
  }

  /** The numbers of padding zeros and blanks, before the flags are looked at. */
  datatype Layout = Layout(sign: string, prefix: string, digits: string, precision: int, zpad: nat, spad: nat)

  function IntLayout(value: int, base: nat, width: int, precision: int, flags: Flags): Layout
    requires IsIntMax(value) && IsBase(base)
  {
    var magnitude := Magnitude(value, flags);
    var digits := Digits(magnitude, base, flags.up);
    var prec := IntPrecision(magnitude, base, precision, |digits|, flags);
    var sep := Separators(|digits|, flags);
    var sign, prefix := IntSign(value, flags), HexPrefix(magnitude, base, flags);
    Layout(sign, prefix, digits, prec,
           Max(prec - |digits| - sep, 0),
           Max(width - sep - Max(prec, |digits|) - |sign| - |prefix|, 0))
  }

  predicate ZeroFill(noprecision: bool, flags: Flags) {
    !flags.minus && flags.zero && noprecision
  }

  function LeftBlanks(l: Layout, noprecision: bool, flags: Flags): nat {
    if flags.minus || ZeroFill(noprecision, flags) then 0 else l.spad
  }

  function LeadingZeros(l: Layout, noprecision: bool, flags: Flags): nat {
    if ZeroFill(noprecision, flags) then l.zpad + l.spad else l.zpad
  }

  function RightBlanks(l: Layout, flags: Flags): nat {
    if flags.minus then l.spad else 0
  }

  /** Blanks, sign, prefix, zeros, digits, blanks. */
  function Render(l: Layout, noprecision: bool, flags: Flags): string {
    Repeat(' ', LeftBlanks(l, noprecision, flags)) + l.sign + l.prefix
    + Repeat('0', LeadingZeros(l, noprecision, flags))
    + Grouped(l.digits, flags.quote) + Repeat(' ', RightBlanks(l, flags))
  }

  function IntText(value: int, base: nat, width: int, precision: int, flags: Flags): string
    requires IsIntMax(value) && IsBase(base)
  {
    Render(IntLayout(value, base, width, precision, flags), precision == -1, flags)
  }

  /** printsep() without locale support. */
  method PrintSep(out: Output)
    requires out.Valid()
    modifies out`len, out`text, out.str
    ensures out.Valid() && out.text == old(out.text) + [',']
  {
    out.OutChar(',');
  }

  /** The loop that prints converted digits, shared by fmtint() and fmtflt(). */
  method EmitDigits(out: Output, buf: array<char>, count: nat, separators: int, ghost digits: string)
    requires out.Valid() && count <= buf.Length && buf != out.str
    requires digits == Reverse(buf[..count])
    modifies out`len, out`text, out.str
    ensures out.Valid() && out.text == old(out.text) + Grouped(digits, separators > 0)
  {
    hide Grouped, Reverse;
    var pos := count;
    ghost var done := "";
    ghost var start := out.text;
    assert digits[0..] == digits;
    GroupedNothing(separators > 0);
    while pos > 0
      invariant 0 <= pos <= count && out.Valid() && out.text == start + done
      invariant done + Grouped(digits[count - pos..], separators > 0) == Grouped(digits, separators > 0)
    {
      GroupedStep(digits, count - pos, separators > 0, done);
      pos := pos - 1;
      out.OutChar(buf[pos]);
      done := done + [buf[pos]];
      if separators > 0 && pos > 0 && pos % 3 == 0 {
        PrintSep(out);
        done := done + [','];
      }
    }
    assert digits[count - pos..] == "";
  }

  lemma GroupedNothing(separate: bool)
    ensures Grouped("", separate) == ""
  {
  }

  lemma GroupedStep(digits: string, k: nat, separate: bool, done: string)
    requires k < |digits|
    ensures
      var left := |digits| - k - 1;
      done + Grouped(digits[k..], separate)
      == done + [digits[k]] + (if separate && left > 0 && left % 3 == 0 then [','] else [])
         + Grouped(digits[k + 1..], separate)
  {
    assert digits[k..][1..] == digits[k + 1..];
  }

  lemma {:induction false} ShortUngrouped(digits: string)
    requires |digits| <= 3
    ensures Grouped(digits, true) == Grouped(digits, false)
    decreases |digits|
  {
    if digits != [] { ShortUngrouped(digits[1..]); }
  }

  method SplitSign(value: int, flags: Flags) returns (uvalue: nat, sign: char)
    requires IsIntMax(value)
    ensures uvalue == Magnitude(value, flags) <= UINTMAX_MAX && Optional(sign) == IntSign(value, flags)
  {
    sign := '\0';
    if flags.isUnsigned {
      uvalue := value % 0x1_0000_0000_0000_0000;
    } else {
      uvalue := if value >= 0 then value else -value;
      if value < 0 {
        sign := '-';
      } else if flags.plus {
        sign := '+';
      } else if flags.space {
        sign := ' ';
      }
    }
  }

  /** What the # flag does: a higher precision, or a prefix. */
  method Alternative(uvalue: nat, base: nat, precision_: int, pos: nat, flags: Flags)
    returns (precision: int, hexprefix: char)
    requires IsBase(base)
    ensures precision == IntPrecision(uvalue, base, precision_, pos, flags)
    ensures PrefixText(hexprefix) == HexPrefix(uvalue, base, flags)
  {
    precision, hexprefix := precision_, '\0';
    if flags.num && uvalue != 0 {
      if base == 8 {
        if precision <= pos {
          precision := pos + 1;
        }
      } else if base == 16 {
        hexprefix := if flags.up then 'X' else 'x';
      }
    }
  }

  function PrefixText(hexprefix: char): string {
    if hexprefix != '\0' then ['0', hexprefix] else []
  }

  /** The first half of fmtint(): the digits, and how much to pad. */
  method PrepareInt(value: int, base: nat, width: int, precision_: int, flags: Flags, iconvert: array<char>)
    returns (sign: char, hexprefix: char, pos: nat, separators: nat, spadlen: int, zpadlen: int)
    requires IsIntMax(value) && IsBase(base) && iconvert.Length == MAX_CONVERT_LENGTH
    modifies iconvert
    ensures 1 <= pos <= MAX_CONVERT_LENGTH && separators == Separators(pos, flags)
    ensures Prepared(IntLayout(value, base, width, precision_, flags), sign, hexprefix, spadlen, zpadlen)
    ensures Reverse(iconvert[..pos]) == IntLayout(value, base, width, precision_, flags).digits
  {
    var uvalue;
    uvalue, sign := SplitSign(value, flags);
    ConvertFits(uvalue, base, flags.up);
    pos := Convert(uvalue, iconvert, MAX_CONVERT_LENGTH, base, flags.up);
    var precision;
    precision, hexprefix := Alternative(uvalue, base, precision_, pos, flags);
    separators := 0;
    if flags.quote {
      separators := GetNumSep(pos);
    }
    zpadlen, spadlen := PadLengths(width, precision, pos, separators, sign, hexprefix);
    LayoutPads(IntLayout(value, base, width, precision_, flags), value, base, width, precision_, flags);
  }

  predicate Prepared(l: Layout, sign: char, hexprefix: char, spadlen: int, zpadlen: int) {
    l.sign == Optional(sign) && l.prefix == PrefixText(hexprefix) && l.spad == spadlen && l.zpad == zpadlen
  }

  /** fmtint() */
  method FmtInt(out: Output, value: int, base: nat, width: int, precision: int, flags: Flags)
    requires out.Valid() && IsIntMax(value) && IsBase(base)
    modifies out`len, out`text, out.str
    ensures out.Valid() && out.text == old(out.text) + IntText(value, base, width, precision, flags)
  {
    var iconvert := new char[MAX_CONVERT_LENGTH];
    var sign, hexprefix, pos, separators, spadlen, zpadlen :=
      PrepareInt(value, base, width, precision, flags, iconvert);
    EmitInt(out, sign, hexprefix, iconvert, pos, separators, spadlen, zpadlen, precision == -1, flags,
            IntLayout(value, base, width, precision, flags));
  }

  lemma LayoutPads(l: Layout, value: int, base: nat, width: int, precision: int, flags: Flags)
    requires IsIntMax(value) && IsBase(base) && l == IntLayout(value, base, width, precision, flags)
    ensures l.digits != []
    ensures var pos, sep := |l.digits|, Separators(|l.digits|, flags);
      var prec := IntPrecision(Magnitude(value, flags), base, precision, pos, flags);
      && l.zpad == Max(prec - pos - sep, 0)
      && l.spad == Max(width - sep - Max(prec, pos) - |l.sign| - |l.prefix|, 0)
  {
  }

  method PadLengths(width: int, precision: int, pos: nat, separators: nat, sign: char, hexprefix: char)
    returns (zpadlen: int, spadlen: int)
    ensures zpadlen == Max(precision - pos - separators, 0)
    ensures spadlen == Max(width - separators - Max(precision, pos) - |Optional(sign)| - |PrefixText(hexprefix)|, 0)
  {
    zpadlen := precision - pos - separators;
    spadlen := width - separators - Max(precision, pos)
               - (if sign != '\0' then 1 else 0) - (if hexprefix != '\0' then 2 else 0);
    if zpadlen < 0 {
      zpadlen := 0;
    }
    if spadlen < 0 {
      spadlen := 0;
    }
  }

  /** The second half of fmtint(): the output. */
  method EmitInt(out: Output, sign: char, hexprefix: char, iconvert: array<char>, pos: nat,
                 separators: nat, spadlen_: int, zpadlen_: int, noprecision: bool, flags: Flags, ghost l: Layout)
    requires out.Valid() && 1 <= pos <= iconvert.Length && iconvert != out.str
    requires Prepared(l, sign, hexprefix, spadlen_, zpadlen_)
    requires l.digits == Reverse(iconvert[..pos]) && separators == Separators(pos, flags)
    modifies out`len, out`text, out.str
    ensures out.Valid() && out.text == old(out.text) + Render(l, noprecision, flags)
  {
    hide Reverse, Grouped, GetNumSep;
    var spadlen, zpadlen := spadlen_, zpadlen_;
    if flags.minus {
      spadlen := -spadlen;
    } else if flags.zero && noprecision {
      zpadlen := zpadlen + spadlen;
      spadlen := 0;
    }
    ghost var head := Repeat(' ', spadlen) + l.sign + l.prefix + Repeat('0', zpadlen);
    Join3(out.text, head, Grouped(l.digits, flags.quote), Repeat(' ', -spadlen));
    EmitHead(out, spadlen, sign, hexprefix, zpadlen);
    if flags.quote && separators == 0 { ShortUngrouped(l.digits); }
    EmitDigits(out, iconvert, pos, separators, l.digits);
    out.Pad(' ', -spadlen);
  }

  method EmitHead(out: Output, spadlen: int, sign: char, hexprefix: char, zpadlen: int)
    requires out.Valid()
    modifies out`len, out`text, out.str
    ensures out.Valid()
    ensures out.text == old(out.text)
              + (Repeat(' ', spadlen) + Optional(sign) + PrefixText(hexprefix) + Repeat('0', zpadlen))
  {
    Join4(out.text, Repeat(' ', spadlen), Optional(sign), PrefixText(hexprefix), Repeat('0', zpadlen));
    out.Pad(' ', spadlen);
    out.OutOptional(sign);
    EmitPrefix(out, hexprefix);
    out.Pad('0', zpadlen);
  }

  method EmitPrefix(out: Output, hexprefix: char)
    requires out.Valid()
    modifies out`len, out`text, out.str
    ensures out.Valid() && out.text == old(out.text) + PrefixText(hexprefix)
  {
    if hexprefix != '\0' {
      out.OutChar('0');
      out.OutChar(hexprefix);
    }
  }
}
