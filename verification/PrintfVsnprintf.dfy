/** rpl_vsnprintf(): the scanner as a loop over states, refining the grammar. */
module PrintfVsnprintf {
  import opened PrintfText
  import opened PrintfDigits
  import opened PrintfOutput
  import opened PrintfInteger
  import opened PrintfFloat
  import opened PrintfFormat

  datatype State = InDefault | InFlags | InWidth | InDot | InPrecision | InMod | InConv

  /** The variables of the scanner, pos being the index of the character in ch. */
  datatype Locals = Locals(
    state: State, pos: nat, flags: Flags, width: nat, precision: int, cflags: Modifier, args: seq<Arg>)

  /** A C string: its only NUL is the last character. */
  predicate Terminated(format: seq<char>) {
    && format != [] && format[|format| - 1] == '\0'
    && forall i :: 0 <= i < |format| - 1 ==> format[i] != '\0'
  }

  predicate Good(format: seq<char>, v: Locals) {
    && v.pos < |format| && PlainFlags(v.flags) && v.precision >= -1
    && (v.state.InDefault? ==> v.flags == NO_FLAGS)
    && (v.state.InDefault? || v.state.InFlags? ==> v.width == 0)
    && (v.state.InWidth? ==> v.width <= INT_MAX)
    && (v.state.InPrecision? ==> v.precision <= INT_MAX)
    && (v.state in {InDefault, InFlags, InWidth, InDot} ==> v.precision == -1)
    && (!v.state.InConv? ==> v.cflags == NoMod)
  }

  function Rank(state: State): nat {
    match state
    case InDefault => 0
    case InFlags => 6
    case InWidth => 5
    case InDot => 4
    case InPrecision => 3
    case InMod => 2
    case InConv => 1
  }

  predicate Advances(v: Locals, r: Locals) {
    r.pos > v.pos || (r.pos == v.pos && Rank(r.state) < Rank(v.state))
  }

  function CountOf(precision: int): Count
    requires precision >= -1
  {
    if precision == -1 then Unset else Fixed(precision)
  }

  /** What is still to be parsed in the middle of a directive. */
  function PendingParse(f: string, v: Locals): Parse
    requires v.precision >= -1
  {
    match v.state
    case InDefault | InFlags => FlagsFrom(f, v.flags)
    case InWidth => WidthFrom(f, v.flags, v.width)
    case InDot => DotFrom(f, v.flags, Fixed(v.width))
    case InPrecision => PrecisionFrom(f, v.flags, Fixed(v.width), Max(v.precision, 0))
    case InMod => ModFrom(f, v.flags, Fixed(v.width), CountOf(v.precision))
    case InConv => ConvFrom(f, v.flags, Fixed(v.width), CountOf(v.precision), v.cflags)
  }

  lemma PendingPlain(f: string, v: Locals)
    requires v.precision >= -1 && PlainFlags(v.flags)
    ensures PlainParse(PendingParse(f, v))
  {
    hide FlagsFrom, WidthFrom, DotFrom, ModFrom, CountFrom, AfterCount, Exceeds;
    FlagsStayPlain(f, v.flags);
    WidthKeepsFlags(f, v.flags, v.width);
    DotKeepsFlags(f, v.flags, Fixed(v.width));
    ModKeepsFlags(AfterCount(f), v.flags, Fixed(v.width), CountFrom(f, Max(v.precision, 0)));
    ModKeepsFlags(f, v.flags, Fixed(v.width), CountOf(v.precision));
  }

  /** What the rest of the format prints. */
  function Pending(f: string, v: Locals): Result
    requires v.precision >= -1 && PlainFlags(v.flags)
  {
    if v.state.InDefault? then Formatted(f, v.args)
    else
      PendingPlain(f, v);
      Finish(PendingParse(f, v), v.args)
  }

  function Rest(format: seq<char>, pos: nat): string
    requires pos < |format|
  {
    format[pos..|format| - 1]
  }

  function Remaining(format: seq<char>, v: Locals): Result
    requires Good(format, v)
  {
    Pending(Rest(format, v.pos), v)
  }

  lemma RestStep(format: seq<char>, pos: nat)
    requires Terminated(format) && pos < |format|
    ensures format[pos] == '\0' <==> pos == |format| - 1
    ensures format[pos] == '\0' ==> Rest(format, pos) == ""
    ensures format[pos] != '\0' ==>
      && pos + 1 < |format|
      && Rest(format, pos) != ""
      && Rest(format, pos)[0] == format[pos] && Rest(format, pos)[1..] == Rest(format, pos + 1)
  {
  }

  // ---- Numbers, one digit at a time

  function DigitOf(ch: char): nat
    requires IsDecimal(ch)
  {
    ch as int - '0' as int
  }

  lemma {:induction false} NumberStep(n: nat, ch: char, digits: string)
    requires IsDecimal(ch)
    ensures NumberFrom(n, [ch] + digits) == NumberFrom(10 * n + DigitOf(ch), digits)
    ensures NumberFrom(n, "") == n
  {
    ValueAppend([ch], digits, 10);
    ValueSnoc("", ch, 10);
    assert "" + [ch] == [ch];
    assert Power(10, |digits| + 1) == 10 * Power(10, |digits|);
    Factored(n, DigitOf(ch), Power(10, |digits|), Value(digits, 10));
  }

  lemma Factored(n: int, d: int, p: int, v: int)
    ensures n * (10 * p) + (d * p + v) == (10 * n + d) * p + v
  {
  }

  lemma NumberGrows(n: nat, digits: string)
    ensures NumberFrom(n, digits) >= n
  {
    PowerPositive(10, |digits|);
    ScaleUp(n, Power(10, |digits|));
  }

  /** A digit moves from the rest of the format into the number, and the number is too
      large at once or later if the whole run is. */
  lemma CountDigit(f: string, n: nat)
    requires f != [] && IsDecimal(f[0])
    ensures CountFrom(f, n) == CountFrom(f[1..], 10 * n + DigitOf(f[0])) && AfterCount(f) == AfterCount(f[1..])
    ensures Exceeds(f, n) <==> Exceeds(f[1..], 10 * n + DigitOf(f[0]))
    ensures 10 * n + DigitOf(f[0]) > INT_MAX ==> Exceeds(f, n)
  {
    hide NumberFrom;
    RunStep(f);
    var k := DigitRun(f[1..]);
    assert f[..k + 1] == [f[0]] + f[1..][..k];
    NumberStep(n, f[0], f[1..][..k]);
    NumberGrows(10 * n + DigitOf(f[0]), f[1..][..k]);
  }

  lemma RunStep(f: string)
    ensures f != [] && IsDecimal(f[0]) ==> DigitRun(f) == 1 + DigitRun(f[1..])
    ensures f == [] || !IsDecimal(f[0]) ==> DigitRun(f) == 0
  {
  }

  lemma CountEnd(f: string, n: nat)
    requires n <= INT_MAX && (f == [] || !IsDecimal(f[0]))
    ensures !Exceeds(f, n)
    ensures f != [] && f[0] == '*' ==> CountFrom(f, n) == Star && AfterCount(f) == f[1..]
    ensures f == [] || f[0] != '*' ==> CountFrom(f, n) == Fixed(n) && AfterCount(f) == f
  {
    hide NumberFrom;
    RunStep(f);
    assert f[..0] == "";
    NumberNone(n);
  }

  lemma NumberNone(n: nat)
    ensures NumberFrom(n, "") == n
  {
  }

  lemma WidthDigit(f: string, flags: Flags, n: nat)
    requires f != [] && IsDecimal(f[0])
    ensures var m := 10 * n + DigitOf(f[0]);
      WidthFrom(f, flags, n) == if m > INT_MAX then TooLong(Unset) else WidthFrom(f[1..], flags, m)
  {
    hide DotFrom, CountFrom, AfterCount, Exceeds;
    CountDigit(f, n);
  }

  lemma WidthEnd(f: string, flags: Flags, n: nat)
    requires f != [] && !IsDecimal(f[0]) && n <= INT_MAX
    ensures WidthFrom(f, flags, n) == if f[0] == '*' then DotFrom(f[1..], flags, Star) else DotFrom(f, flags, Fixed(n))
  {
    hide DotFrom, CountFrom, AfterCount, Exceeds;
    CountEnd(f, n);
  }

  lemma PrecisionDigit(f: string, flags: Flags, width: Count, n: nat)
    requires f != [] && IsDecimal(f[0])
    ensures var m := 10 * n + DigitOf(f[0]);
      PrecisionFrom(f, flags, width, n)
      == if m > INT_MAX then TooLong(width) else PrecisionFrom(f[1..], flags, width, m)
  {
    hide ModFrom, CountFrom, AfterCount, Exceeds;
    CountDigit(f, n);
  }

  lemma PrecisionEnd(f: string, flags: Flags, width: Count, n: nat)
    requires f != [] && !IsDecimal(f[0]) && n <= INT_MAX
    ensures PrecisionFrom(f, flags, width, n)
            == if f[0] == '*' then ModFrom(f[1..], flags, width, Star) else ModFrom(f, flags, width, Fixed(n))
  {
    hide ModFrom, CountFrom, AfterCount, Exceeds;
    CountEnd(f, n);
  }

  // ---- Numbers from the arguments

  function WithHead(p: Parse, flags: Flags, width: Count): Parse {
    match p
    case TooLong(_) => TooLong(width)
    case Parsed(d, rest) => Parsed(d.(flags := flags, width := width), rest)
  }

  lemma ModEmbeds(f: string, flags: Flags, width: Count, precision: Count)
    ensures ModFrom(f, flags, width, precision) == WithHead(ModFrom(f, NO_FLAGS, Unset, precision), flags, width)
  {
    hide AfterModifier, ModifierOf;
  }

  lemma DotEmbeds(f: string, flags: Flags, width: Count)
    ensures DotFrom(f, flags, width) == WithHead(DotFrom(f, NO_FLAGS, Unset), flags, width)
  {
    hide ModFrom, CountFrom, AfterCount, Exceeds;
    ModEmbeds(f, flags, width, Unset);
    if f != [] {
      ModEmbeds(AfterCount(f[1..]), flags, width, CountFrom(f[1..], 0));
    }
  }

  lemma HeadTaken(p: Parse, flags: Flags, args: seq<Arg>)
    requires PlainFlags(flags)
    ensures !HasInt(args) ==> Finish(WithHead(p, flags, Star), args) == BadArgs
    ensures HasInt(args) ==>
      Finish(WithHead(p, flags, Star), args)
      == Finish(WithHead(p, WidthFlags(flags, Star, args), Fixed(WidthValue(Star, args))), args[1..])
  {
    hide ConversionPiece, Formatted;
  }

  /** A width taken from the arguments: the rest of the directive proceeds with its
      magnitude, and with a minus flag if it is negative. */
  lemma WidthTaken(f: string, flags: Flags, args: seq<Arg>)
    requires PlainFlags(flags)
    ensures PlainParse(DotFrom(f, flags, Star))
    ensures !HasInt(args) ==> Finish(DotFrom(f, flags, Star), args) == BadArgs
    ensures HasInt(args) ==>
      && PlainParse(DotFrom(f, WidthFlags(flags, Star, args), Fixed(WidthValue(Star, args))))
      && Finish(DotFrom(f, flags, Star), args)
         == Finish(DotFrom(f, WidthFlags(flags, Star, args), Fixed(WidthValue(Star, args))), args[1..])
  {
    hide DotFrom, Finish;
    DotEmbeds(f, flags, Star);
    HeadTaken(DotFrom(f, NO_FLAGS, Unset), flags, args);
    if HasInt(args) {
      DotEmbeds(f, WidthFlags(flags, Star, args), Fixed(WidthValue(Star, args)));
    }
  }

  /** A precision taken from the arguments, none if it is negative. */
  lemma PrecisionTaken(f: string, flags: Flags, width: nat, args: seq<Arg>)
    requires PlainFlags(flags)
    ensures PlainParse(ModFrom(f, flags, Fixed(width), Star))
    ensures !HasInt(args) ==> Finish(ModFrom(f, flags, Fixed(width), Star), args) == BadArgs
    ensures HasInt(args) ==>
      && PlainParse(ModFrom(f, flags, Fixed(width), CountOf(PrecisionValue(Star, args))))
      && Finish(ModFrom(f, flags, Fixed(width), Star), args)
         == Finish(ModFrom(f, flags, Fixed(width), CountOf(PrecisionValue(Star, args))), args[1..])
  {
    hide ConversionPiece, Formatted, AfterModifier, ModifierOf;
  }

  // ---- The states

  method FlagsState(format: seq<char>, v: Locals) returns (r: Locals)
    requires Terminated(format) && Good(format, v) && v.state.InFlags? && format[v.pos] != '\0'
    ensures Good(format, r) && Advances(v, r) && Remaining(format, r) == Remaining(format, v)
  {
    hide FlagsFrom, WidthFrom, Finish, PlainParse;
    RestStep(format, v.pos);
    FlagStep(Rest(format, v.pos), v.flags);
    var flags := v.flags;
    match format[v.pos] {
      case '-' => flags := flags.(minus := true);
      case '+' => flags := flags.(plus := true);
      case ' ' => flags := flags.(space := true);
      case '#' => flags := flags.(num := true);
      case '0' => flags := flags.(zero := true);
      case '\'' => flags := flags.(quote := true);
      case _ => return v.(state := InWidth);
    }
    r := v.(flags := flags, pos := v.pos + 1);
  }

  method WidthState(format: seq<char>, v: Locals) returns (r: Locals, overflow: bool)
    requires Terminated(format) && Good(format, v) && v.state.InWidth? && format[v.pos] != '\0'
    requires Remaining(format, v) != BadArgs
    ensures overflow ==> Remaining(format, v) == Overflowed("")
    ensures !overflow ==> Good(format, r) && Advances(v, r) && Remaining(format, r) == Remaining(format, v)
  {
    hide WidthFrom, DotFrom, Finish;
    RestStep(format, v.pos);
    r, overflow := v, false;
    var ch := format[v.pos];
    if IsDecimal(ch) {
      WidthDigit(Rest(format, v.pos), v.flags, v.width);
      var digit := DigitOf(ch);
      if v.width > (INT_MAX - digit) / 10 {
        overflow := true;
        FinishTooLong(Unset, v.args);
        return;
      }
      r := v.(width := 10 * v.width + digit, pos := v.pos + 1);
    } else {
      WidthEnd(Rest(format, v.pos), v.flags, v.width);
      if ch == '*' {
        WidthTaken(Rest(format, v.pos + 1), v.flags, v.args);
        var width, flags := StarWidth(v.args), v.flags;
        if width < 0 {
          flags := flags.(minus := true);
          width := -width;
        }
        r := v.(width := width, flags := flags, args := v.args[1..], pos := v.pos + 1, state := InDot);
      } else {
        r := v.(state := InDot);
      }
    }
  }

  lemma FinishTooLong(width: Count, args: seq<Arg>)
    requires !width.Star?
    ensures Finish(TooLong(width), args) == Overflowed("")
  {
  }

  method DotState(format: seq<char>, v: Locals) returns (r: Locals)
    requires Terminated(format) && Good(format, v) && v.state.InDot? && format[v.pos] != '\0'
    ensures Good(format, r) && Advances(v, r) && Remaining(format, r) == Remaining(format, v)
  {
    hide PrecisionFrom, ModFrom, Finish;
    RestStep(format, v.pos);
    if format[v.pos] == '.' {
      r := v.(state := InPrecision, pos := v.pos + 1);
    } else {
      r := v.(state := InMod);
    }
  }

  method PrecisionState(format: seq<char>, v: Locals) returns (r: Locals, overflow: bool)
    requires Terminated(format) && Good(format, v) && v.state.InPrecision? && format[v.pos] != '\0'
    requires Remaining(format, v) != BadArgs
    ensures overflow ==> Remaining(format, v) == Overflowed("")
    ensures !overflow ==> Good(format, r) && Advances(v, r) && Remaining(format, r) == Remaining(format, v)
  {
    hide PrecisionFrom, ModFrom, Finish;
    RestStep(format, v.pos);
    r, overflow := v, false;
    var ch, precision := format[v.pos], v.precision;
    if precision == -1 {
      precision := 0;
    }
    if IsDecimal(ch) {
      PrecisionDigit(Rest(format, v.pos), v.flags, Fixed(v.width), precision);
      var digit := DigitOf(ch);
      if precision > (INT_MAX - digit) / 10 {
        overflow := true;
        FinishTooLong(Fixed(v.width), v.args);
        return;
      }
      r := v.(precision := 10 * precision + digit, pos := v.pos + 1);
    } else {
      PrecisionEnd(Rest(format, v.pos), v.flags, Fixed(v.width), precision);
      if ch == '*' {
        PrecisionTaken(Rest(format, v.pos + 1), v.flags, v.width, v.args);
        precision := StarWidth(v.args);
        if precision < 0 {
          precision := -1;
        }
        r := v.(precision := precision, args := v.args[1..], pos := v.pos + 1, state := InMod);
      } else {
        r := v.(precision := precision, state := InMod);
      }
    }
  }

  /** The length modifier: one or two characters, or none. */
  method ModState(format: seq<char>, v: Locals) returns (r: Locals)
    requires Terminated(format) && Good(format, v) && v.state.InMod? && format[v.pos] != '\0'
    ensures Good(format, r) && Advances(v, r) && Remaining(format, r) == Remaining(format, v)
  {
    hide ConvFrom, Finish;
    RestStep(format, v.pos);
    RestStep(format, v.pos + 1);
    var ch, pos, cflags := format[v.pos], v.pos, v.cflags;
    match ch {
      case 'h' =>
        pos := pos + 1;
        ch := format[pos];
        if ch == 'h' {
          pos := pos + 1;
          cflags := Char;
        } else {
          cflags := Short;
        }
      case 'l' =>
        pos := pos + 1;
        ch := format[pos];
        if ch == 'l' {
          pos := pos + 1;
          cflags := LongLong;
        } else {
          cflags := Long;
        }
      case 'L' => cflags := LongDouble; pos := pos + 1;
      case 'j' => cflags := IntMax; pos := pos + 1;
      case 't' => cflags := PtrDiff; pos := pos + 1;
      case 'z' => cflags := Size; pos := pos + 1;
      case _ =>
    }
    ModRest(format, v.pos, pos, cflags);
    r := v.(cflags := cflags, pos := pos, state := InConv);
  }

  lemma ModRest(format: seq<char>, pos: nat, end: nat, mod: Modifier)
    requires Terminated(format) && pos <= end < |format| && format[pos] != '\0'
    requires mod == ModifierOf(Rest(format, pos))
    requires end == pos + (match mod case NoMod => 0 case Char | LongLong => 2 case _ => 1)
    ensures AfterModifier(Rest(format, pos)) == Rest(format, end)
  {
  }

  // ---- Conversions

  /** The cases X, x, o and u, which fall through to one another. */
  method EmitUnsigned(out: Output, conv: char, s: Spec, value: int)
    requires out.Valid() && ValidSpec(s) && conv in {'o', 'u', 'x', 'X'} && IsIntMax(value)
    modifies out`len, out`text, out.str
    ensures out.Valid()
    ensures out.text == old(out.text) + IntText(value, BaseOf(conv), s.width, s.precision, UnsignedFlags(conv, s.flags))
  {
    hide IntText;
    var base, flags := 0, s.flags;
    if conv == 'X' {
      flags := flags.(up := true);
    }
    if conv == 'X' || conv == 'x' {
      base := 16;
    } else if conv == 'o' {
      base := 8;
    } else {
      base := 10;
    }
    flags := flags.(isUnsigned := true);
    FmtInt(out, value, base, s.width, s.precision, flags);
  }

  lemma IntegerConversions(conv: char)
    requires conv in "diouxX"
    ensures if conv == 'd' || conv == 'i' then conv in "di" else conv !in "di" && conv in {'o', 'u', 'x', 'X'}
  {
  }

  method EmitInteger(out: Output, conv: char, s: Spec, args: seq<Arg>) returns (left: seq<Arg>)
    requires out.Valid() && ValidSpec(s) && conv in "diouxX" && IntPiece(conv, s, args).Emit?
    modifies out`len, out`text, out.str
    ensures out.Valid() && IntPiece(conv, s, args) == Emit(IntPiece(conv, s, args).text, left)
    ensures out.text == old(out.text) + IntPiece(conv, s, args).text
  {
    hide IntText;
    left := args[1..];
    IntegerConversions(conv);
    if conv == 'd' || conv == 'i' {
      FmtInt(out, SignedValue(s.mod, args[0].value), 10, s.width, s.precision, s.flags);
    } else {
      EmitUnsigned(out, conv, s, UnsignedValue(s.mod, args[0].value));
    }
  }

  method EmitFloating(out: Output, conv: char, s: Spec, args: seq<Arg>) returns (left: seq<Arg>, overflow: bool)
    requires out.Valid() && ValidSpec(s) && PlainFlags(s.flags)
    requires conv in "aAfFeEgG" && FloatPiece(conv, s, args) != Mismatch
    modifies out`len, out`text, out.str
    ensures out.Valid()
    ensures match FloatPiece(conv, s, args)
      case Emit(text, rest) => !overflow && rest == left && out.text == old(out.text) + text
      case TooBig => overflow && out.text == old(out.text)
      case Mismatch => false
  {
    hide FloatText;
    var flags, precision := s.flags, s.precision;
    if conv in "AFEG" {
      flags := flags.(up := true);
    }
    if conv in "eE" {
      flags := flags.(typeE := true);
    } else if conv in "gG" {
      flags := flags.(typeG := true);
      if precision == 0 {
        precision := 1;
      }
    }
    overflow := FmtFlt(out, args[0].number, s.width, precision, flags);
    left := args[1..];
  }

  method EmitPointer(out: Output, s: Spec, args: seq<Arg>) returns (left: seq<Arg>)
    requires out.Valid() && ValidSpec(s) && PointerPiece(s, args).Emit?
    modifies out`len, out`text, out.str
    ensures out.Valid() && PointerPiece(s, args) == Emit(PointerPiece(s, args).text, left)
    ensures out.text == old(out.text) + PointerPiece(s, args).text
  {
    hide IntText, StrText;
    left := args[1..];
    if args[0].address == 0 {
      FmtStr(out, Chars("(nil)"), s.width, -1, s.flags);
    } else {
      FmtInt(out, Wrapped(args[0].address, LONGS), 16, s.width, s.precision, s.flags.(num := true, isUnsigned := true));
    }
  }

  /** The switch over the conversion specifier. */
  method EmitConversion(out: Output, conv: char, s: Spec, args: seq<Arg>) returns (left: seq<Arg>, overflow: bool)
    requires out.Valid() && ValidSpec(s) && PlainFlags(s.flags) && ConversionPiece(conv, s, args) != Mismatch
    modifies out`len, out`text, out.str
    ensures out.Valid()
    ensures match ConversionPiece(conv, s, args)
      case Emit(text, rest) => !overflow && rest == left && out.text == old(out.text) + text
      case TooBig => overflow && out.text == old(out.text)
      case Mismatch => false
  {
    hide IntPiece, FloatPiece, PointerPiece, StrText;
    left, overflow := args, false;
    ghost var start := out.text;
    assert start + "" == start;
    if conv in "diouxX" {
      left := EmitInteger(out, conv, s, args);
    } else if conv in "aAfFeEgG" {
      left, overflow := EmitFloating(out, conv, s, args);
    } else if conv == 'c' {
      out.OutChar((args[0].value % CHARS) as char);
      left := args[1..];
    } else if conv == 's' {
      FmtStr(out, args[0].text, s.width, s.precision, s.flags);
      left := args[1..];
    } else if conv == 'p' {
      left := EmitPointer(out, s, args);
    } else if conv == 'n' {
      left := args[1..];
    } else if conv == '%' {
      out.OutChar(conv);
    }
  }

  /** Ordinary characters are printed, a percent sign starts a directive. */
  method DefaultState(out: Output, format: seq<char>, v: Locals) returns (r: Locals)
    requires out.Valid() && Terminated(format) && Good(format, v) && v.state.InDefault? && format[v.pos] != '\0'
    modifies out`len, out`text, out.str
    ensures out.Valid() && Good(format, r) && Advances(v, r)
    ensures Prefix(out.text, Remaining(format, r)) == Prefix(old(out.text), Remaining(format, v))
  {
    hide Finish, FlagsFrom;
    RestStep(format, v.pos);
    PrefixPrefix(out.text, [format[v.pos]], Formatted(Rest(format, v.pos + 1), v.args));
    if format[v.pos] == '%' {
      r := v.(state := InFlags, pos := v.pos + 1);
    } else {
      out.OutChar(format[v.pos]);
      r := v.(pos := v.pos + 1);
    }
  }

  lemma ConvMeans(f: string, v: Locals)
    requires f != [] && v.precision >= -1 && PlainFlags(v.flags) && v.state.InConv?
    ensures Pending(f, v)
            == Continued(ConversionPiece(f[0], Spec(v.flags, v.width, v.precision, v.cflags), v.args), f[1..])
  {
    hide ConversionPiece, Formatted;
  }

  method ConvState(out: Output, format: seq<char>, v: Locals) returns (r: Locals, overflow: bool)
    requires out.Valid() && Terminated(format) && Good(format, v) && v.state.InConv? && format[v.pos] != '\0'
    requires Remaining(format, v) != BadArgs
    modifies out`len, out`text, out.str
    ensures out.Valid()
    ensures overflow ==> Remaining(format, v) == Overflowed("") && out.text == old(out.text)
    ensures !overflow ==> && Good(format, r) && Advances(v, r)
                          && Prefix(out.text, Remaining(format, r)) == Prefix(old(out.text), Remaining(format, v))
  {
    hide ConversionPiece, Formatted;
    RestStep(format, v.pos);
    ConvMeans(Rest(format, v.pos), v);
    var s := Spec(v.flags, v.width, v.precision, v.cflags);
    ghost var piece := ConversionPiece(format[v.pos], s, v.args);
    var left;
    left, overflow := EmitConversion(out, format[v.pos], s, v.args);
    r := Locals(InDefault, v.pos + 1, NO_FLAGS, 0, -1, NoMod, left);
    if !overflow {
      PrefixPrefix(old(out.text), piece.text, Formatted(Rest(format, v.pos + 1), left));
    }
  }

  /** At the end of the format nothing remains, whatever the state. */
  lemma NothingRemains(v: Locals)
    requires v.precision >= -1 && PlainFlags(v.flags)
    requires v.state.InWidth? ==> v.width <= INT_MAX
    requires v.state.InPrecision? ==> v.precision <= INT_MAX
    ensures Pending("", v) == Done("", v.args)
  {
    hide PendingParse;
    PendingPlain("", v);
    NothingParsed(v);
    FinishNothing(PendingParse("", v), v.args);
  }

  predicate Unfinished(p: Parse) {
    p.Parsed? && p.d.conv == '\0' && p.rest == "" && !p.d.width.Star? && !p.d.precision.Star?
  }

  lemma FinishNothing(p: Parse, args: seq<Arg>)
    requires PlainParse(p) && Unfinished(p)
    ensures Finish(p, args) == Done("", args) == Formatted("", args)
  {
    hide IntPiece, FloatPiece, PointerPiece, CharPiece, TextPiece;
    assert "" + "" == "";
  }

  lemma NothingParsed(v: Locals)
    requires v.precision >= -1
    requires v.state.InWidth? ==> v.width <= INT_MAX
    requires v.state.InPrecision? ==> v.precision <= INT_MAX
    ensures Unfinished(PendingParse("", v))
  {
    hide Exceeds, CountFrom, AfterCount;
    CountEnd("", 0);
    CountEnd("", if v.state.InWidth? then v.width else 0);
    CountEnd("", if v.state.InPrecision? then Max(v.precision, 0) else 0);
  }

  // ---- The whole function

  /** The loop of the scanner. */
  method Scan(out: Output, format: seq<char>, args: seq<Arg>) returns (overflow: bool)
    requires out.Valid() && out.text == "" && Terminated(format)
    requires Formatted(Rest(format, 0), args) != BadArgs
    modifies out`len, out`text, out.str
    ensures out.Valid()
    ensures var r := Formatted(Rest(format, 0), args); out.text == r.text && (overflow <==> r.Overflowed?)
  {
    hide Formatted, Pending;
    var v := Locals(InDefault, 0, NO_FLAGS, 0, -1, NoMod, args);
    ghost var all := Formatted(Rest(format, 0), args);
    overflow := false;
    InitialPending(Rest(format, 0), v);
    PrefixPrefix("", "", Remaining(format, v));
    while format[v.pos] != '\0'
      invariant out.Valid() && Good(format, v)
      invariant Prefix(out.text, Remaining(format, v)) == all
      decreases |format| - v.pos, Rank(v.state)
    {
      RestStep(format, v.pos);
      PrefixPrefix(out.text, "", Overflowed(""));
      match v.state {
        case InDefault => v := DefaultState(out, format, v);
        case InFlags => v := FlagsState(format, v);
        case InWidth =>
          v, overflow := WidthState(format, v);
        case InDot => v := DotState(format, v);
        case InPrecision => v, overflow := PrecisionState(format, v);
        case InMod => v := ModState(format, v);
        case InConv => v, overflow := ConvState(out, format, v);
      }
      if overflow {
        return;
      }
    }
    RestStep(format, v.pos);
    NothingRemains(v);
  }

  lemma InitialPending(f: string, v: Locals)
    requires v.precision >= -1 && PlainFlags(v.flags) && v.state.InDefault?
    ensures Pending(f, v) == Formatted(f, v.args)
  {
  }

  /** rpl_vsnprintf(): whatever the size, the buffer holds the text up to there and a
      NUL, nothing else is written, and the result is the length of the whole text, or
      -1 if a number was too large or the length does not fit (section 7.19.6.5 of
      C99). A null buffer is taken as one of size zero. */
  method RplVsnprintf(str: array?<char>, size_: nat, format: seq<char>, args: seq<Arg>) returns (ret: int)
    requires Terminated(format) && (str != null ==> size_ <= str.Length)
    requires Formatted(Rest(format, 0), args) != BadArgs
    modifies str
    ensures var r := Formatted(Rest(format, 0), args);
      ret == if r.Overflowed? || |r.text| >= 0x7FFF_FFFF then -1 else |r.text|
    ensures str != null && size_ == 0 ==> str[..] == old(str[..])
    ensures str != null && size_ > 0 ==>
      var text := Formatted(Rest(format, 0), args).text;
      var n := Min(|text|, size_ - 1);
      str[..n] == text[..n] && str[n] == '\0' && str[n + 1..] == old(str[..])[n + 1..]
  {
    hide Formatted;
    var size := size_;
    if str == null && size != 0 {
      size := 0;
    }
    var out := new Output(str, size);
    var overflow := Scan(out, format, args);
    ghost var text := out.text;
    if out.len < size {
      str[out.len] := '\0';
    } else if size > 0 {
      str[size - 1] := '\0';
    }
    if overflow || out.len >= INT_MAX {
      ret := -1;
    } else {
      ret := out.len;
    }
  }
}
