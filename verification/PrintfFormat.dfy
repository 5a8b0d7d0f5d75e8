/** Formats: the grammar of conversion specifications, and what a format and its
    arguments print. */
module PrintfFormat {
  import opened PrintfText
  import opened PrintfOutput
  import opened PrintfInteger
  import opened PrintfFloat

  const INT_MAX := 0x7FFF_FFFF

  // ---- Directives

  datatype Modifier = NoMod | Char | Short | Long | LongLong | LongDouble | Size | PtrDiff | IntMax

  /** A field width or a precision: not given, a number, or taken from the arguments. */
  datatype Count = Unset | Fixed(n: nat) | Star

  datatype Directive = Directive(flags: Flags, width: Count, precision: Count, mod: Modifier, conv: char)

  /** A directive and what follows it, conv being NUL if the format ends inside the
      directive; or a number that does not fit an int, with the width in front of it. */
  datatype Parse = Parsed(d: Directive, rest: string) | TooLong(width: Count)

  const NO_FLAGS := Flags(false, false, false, false, false, false, false, false, false, false)

  predicate IsFlag(ch: char) {
    ch == '-' || ch == '+' || ch == ' ' || ch == '#' || ch == '0' || ch == '\''
  }

  function AddFlag(flags: Flags, ch: char): Flags {
    if ch == '-' then flags.(minus := true)
    else if ch == '+' then flags.(plus := true)
    else if ch == ' ' then flags.(space := true)
    else if ch == '#' then flags.(num := true)
    else if ch == '0' then flags.(zero := true)
    else if ch == '\'' then flags.(quote := true)
    else flags
  }

  function DigitRun(f: string): (k: nat)
    ensures k <= |f|
    ensures forall i :: 0 <= i < k ==> IsDecimal(f[i])
    ensures k < |f| ==> !IsDecimal(f[k])
  {
    Span(f, ch => IsDecimal(ch))
  }

  /** The number that a run of digits makes of the number read so far. */
  function NumberFrom(n: nat, digits: string): nat {
    n * Power(10, |digits|) + Value(digits, 10)
  }

  /** Digits, and a star that overrides them. */
  function CountFrom(f: string, n: nat): Count {
    var k := DigitRun(f);
    if k < |f| && f[k] == '*' then Star else Fixed(NumberFrom(n, f[..k]))
  }

  function AfterCount(f: string): (rest: string)
    ensures |rest| <= |f|
  {
    var k := DigitRun(f);
    if k < |f| && f[k] == '*' then f[k + 1..] else f[k..]
  }

  predicate Exceeds(f: string, n: nat) {
    NumberFrom(n, f[..DigitRun(f)]) > INT_MAX
  }

  function ModifierOf(f: string): Modifier {
    if f == [] then NoMod
    else if f[0] == 'h' then (if |f| > 1 && f[1] == 'h' then Char else Short)
    else if f[0] == 'l' then (if |f| > 1 && f[1] == 'l' then LongLong else Long)
    else if f[0] == 'L' then LongDouble
    else if f[0] == 'j' then IntMax
    else if f[0] == 't' then PtrDiff
    else if f[0] == 'z' then Size
    else NoMod
  }

  function AfterModifier(f: string): (rest: string)
    ensures |rest| <= |f|
  {
    match ModifierOf(f)
    case NoMod => f
    case Char | LongLong => f[2..]
    case _ => f[1..]
  }

  function ConvFrom(f: string, flags: Flags, width: Count, precision: Count, mod: Modifier): Parse {
    if f == [] then Parsed(Directive(flags, width, precision, mod, '\0'), "")
    else Parsed(Directive(flags, width, precision, mod, f[0]), f[1..])
  }

  function ModFrom(f: string, flags: Flags, width: Count, precision: Count): Parse {
    ConvFrom(AfterModifier(f), flags, width, precision, ModifierOf(f))
  }

  function PrecisionFrom(f: string, flags: Flags, width: Count, n: nat): Parse {
    if Exceeds(f, n) then TooLong(width) else ModFrom(AfterCount(f), flags, width, CountFrom(f, n))
  }

  function DotFrom(f: string, flags: Flags, width: Count): Parse {
    if f != [] && f[0] == '.' then PrecisionFrom(f[1..], flags, width, 0)
    else ModFrom(f, flags, width, Unset)
  }

  function WidthFrom(f: string, flags: Flags, n: nat): Parse {
    if Exceeds(f, n) then TooLong(Unset) else DotFrom(AfterCount(f), flags, CountFrom(f, n))
  }

  function FlagsFrom(f: string, flags: Flags): Parse
    decreases |f|
  {
    if f != [] && IsFlag(f[0]) then FlagsFrom(f[1..], AddFlag(flags, f[0])) else WidthFrom(f, flags, 0)
  }

  /** What follows a percent sign. */
  function ParseDirective(f: string): Parse {
    FlagsFrom(f, NO_FLAGS)
  }

  lemma FlagStep(f: string, flags: Flags)
    requires f != ""
    ensures FlagsFrom(f, flags) ==
            if IsFlag(f[0]) then FlagsFrom(f[1..], AddFlag(flags, f[0])) else WidthFrom(f, flags, 0)
  {
    hide WidthFrom;
  }

  lemma ModShrinks(f: string, flags: Flags, width: Count, precision: Count)
    ensures var p := ModFrom(f, flags, width, precision); p.Parsed? && |p.rest| <= |f|
  {
    hide AfterModifier, ModifierOf;
  }

  lemma DotShrinks(f: string, flags: Flags, width: Count)
    ensures var p := DotFrom(f, flags, width); p.Parsed? ==> |p.rest| <= |f|
  {
    hide ModFrom, Exceeds, CountFrom, AfterCount;
    ModShrinks(f, flags, width, Unset);
    if f != "" {
      ModShrinks(AfterCount(f[1..]), flags, width, CountFrom(f[1..], 0));
    }
  }

  /** What follows a directive is no longer than the text it was parsed from. */
  lemma {:induction false} ParseShrinks(f: string, flags: Flags)
    ensures var p := FlagsFrom(f, flags); p.Parsed? ==> |p.rest| <= |f|
    decreases |f|
  {
    hide DotFrom, Exceeds, CountFrom, AfterCount;
    DotShrinks(AfterCount(f), flags, CountFrom(f, 0));
    if f != "" && IsFlag(f[0]) {
      ParseShrinks(f[1..], AddFlag(flags, f[0]));
    }
  }

  // ---- Arguments

  datatype Arg = IntArg(value: int) | FloatArg(number: real) | TextArg(text: CString) | PointerArg(address: nat)

  predicate HasInt(args: seq<Arg>) {
    args != [] && args[0].IntArg?
  }

  /** The conversion to a signed type of that many values. */
  function Wrapped(value: int, range: nat): (r: int)
    requires range >= 2 && range % 2 == 0
    ensures -(range / 2) <= r < range / 2
    ensures -(range / 2) <= value < range / 2 ==> r == value
  {
    var m := value % range;
    if m >= range / 2 then m - range else m
  }

  const CHARS := 0x100
  const SHORTS := 0x1_0000
  const INTS := 0x1_0000_0000
  const LONGS := 0x1_0000_0000_0000_0000

  /** How many values the type of an integer argument has. */
  function RangeOf(mod: Modifier): (n: nat)
    ensures n >= 2 && n % 2 == 0 && n <= LONGS
  {
    match mod
    case Char => CHARS
    case Short => SHORTS
    case NoMod | LongDouble => INTS
    case _ => LONGS
  }

  function SignedValue(mod: Modifier, value: int): (r: int)
    ensures IsIntMax(r)
  {
    Wrapped(value, RangeOf(mod))
  }

  function UnsignedValue(mod: Modifier, value: int): (r: int)
    ensures IsIntMax(r)
  {
    Wrapped(value % RangeOf(mod), LONGS)
  }

  // ---- Conversions

  /** What one conversion prints, and the arguments it leaves; or that it is too large;
      or that the arguments are not the ones it needs. */
  datatype Piece = Emit(text: string, args: seq<Arg>) | TooBig | Mismatch

  /** The settings of a directive once its numbers are known. */
  datatype Spec = Spec(flags: Flags, width: nat, precision: int, mod: Modifier)

  predicate ValidSpec(s: Spec) {
    s.precision >= -1
  }

  function BaseOf(conv: char): (base: nat)
    ensures IsBase(base)
  {
    if conv == 'x' || conv == 'X' then 16 else if conv == 'o' then 8 else 10
  }

  function UnsignedFlags(conv: char, flags: Flags): Flags {
    flags.(up := flags.up || conv == 'X', isUnsigned := true)
  }

  function FloatFlags(conv: char, flags: Flags): Flags {
    flags.(up := flags.up || conv in "AFEG",
           typeE := flags.typeE || conv in "eE",
           typeG := flags.typeG || conv in "gG")
  }

  /** A precision of zero is treated as one by %g. */
  function FloatPrecision(conv: char, precision: int): int {
    if conv in "gG" && precision == 0 then 1 else precision
  }

  predicate PlainFlags(flags: Flags) {
    !flags.up && !flags.isUnsigned && !flags.typeE && !flags.typeG
  }

  function FloatPiece(conv: char, s: Spec, args: seq<Arg>): Piece
    requires ValidSpec(s) && PlainFlags(s.flags)
  {
    if args == [] || !args[0].FloatArg? then Mismatch
    else
      match FloatText(args[0].number, s.width, FloatPrecision(conv, s.precision), FloatFlags(conv, s.flags))
      case Overflow => TooBig
      case Text(text) => Emit(text, args[1..])
  }

  function PointerPiece(s: Spec, args: seq<Arg>): (r: Piece)
    requires ValidSpec(s)
    ensures !r.TooBig?
  {
    if args == [] || !args[0].PointerArg? then Mismatch
    else if args[0].address == 0 then Emit(StrText(Chars("(nil)"), s.width, -1, s.flags), args[1..])
    else Emit(IntText(Wrapped(args[0].address, LONGS), 16, s.width, s.precision,
                      s.flags.(num := true, isUnsigned := true)), args[1..])
  }

  function IntPiece(conv: char, s: Spec, args: seq<Arg>): (r: Piece)
    requires ValidSpec(s)
    ensures !r.TooBig?
  {
    if !HasInt(args) then Mismatch
    else if conv in "di" then
      Emit(IntText(SignedValue(s.mod, args[0].value), 10, s.width, s.precision, s.flags), args[1..])
    else
      Emit(IntText(UnsignedValue(s.mod, args[0].value), BaseOf(conv), s.width, s.precision,
                   UnsignedFlags(conv, s.flags)), args[1..])
  }

  function TextPiece(s: Spec, args: seq<Arg>): Piece {
    if args == [] || !args[0].TextArg? then Mismatch
    else Emit(StrText(args[0].text, s.width, s.precision, s.flags), args[1..])
  }

  function CharPiece(args: seq<Arg>): Piece {
    if !HasInt(args) then Mismatch else Emit([(args[0].value % CHARS) as char], args[1..])
  }

  /** One conversion. The argument of %n is consumed; other characters are skipped. */
  function ConversionPiece(conv: char, s: Spec, args: seq<Arg>): Piece
    requires ValidSpec(s) && PlainFlags(s.flags)
  {
    if conv in "diouxX" then IntPiece(conv, s, args)
    else if conv in "aAfFeEgG" then FloatPiece(conv, s, args)
    else if conv == 'c' then CharPiece(args)
    else if conv == 's' then TextPiece(s, args)
    else if conv == 'p' then PointerPiece(s, args)
    else if conv == 'n' then (if args == [] then Mismatch else Emit("", args[1..]))
    else if conv == '%' then Emit("%", args)
    else Emit("", args)
  }

  function StarWidth(args: seq<Arg>): int
    requires HasInt(args)
  {
    Wrapped(args[0].value, INTS)
  }

  /** A negative width is a minus flag and a positive width. */
  function WidthFlags(flags: Flags, width: Count, args: seq<Arg>): Flags
    requires width.Star? ==> HasInt(args)
  {
    if width.Star? && StarWidth(args) < 0 then flags.(minus := true) else flags
  }

  function WidthValue(width: Count, args: seq<Arg>): nat
    requires width.Star? ==> HasInt(args)
  {
    match width
    case Unset => 0
    case Fixed(n) => n
    case Star => if StarWidth(args) < 0 then -StarWidth(args) else StarWidth(args)
  }

  /** A negative precision is taken as if it were omitted. */
  function PrecisionValue(precision: Count, args: seq<Arg>): (p: int)
    requires precision.Star? ==> HasInt(args)
    ensures p >= -1
  {
    match precision
    case Unset => -1
    case Fixed(n) => n
    case Star => Max(StarWidth(args), -1)
  }

  function AfterStar(count: Count, args: seq<Arg>): seq<Arg>
    requires count.Star? ==> HasInt(args)
  {
    if count.Star? then args[1..] else args
  }

  function Perform(d: Directive, args: seq<Arg>): Piece
    requires PlainFlags(d.flags)
  {
    if d.width.Star? && !HasInt(args) then Mismatch
    else
      var args1 := AfterStar(d.width, args);
      if d.precision.Star? && !HasInt(args1) then Mismatch
      else
        ConversionPiece(d.conv,
                 Spec(WidthFlags(d.flags, d.width, args), WidthValue(d.width, args),
                      PrecisionValue(d.precision, args1), d.mod),
                 AfterStar(d.precision, args1))
  }

  // ---- Formats

  /** The output of a whole format and the arguments left over; or the output in front
      of the first directive that is too large; or that the arguments do not fit. */
  datatype Result = Done(text: string, args: seq<Arg>) | Overflowed(text: string) | BadArgs

  function Prefix(text: string, r: Result): Result {
    match r
    case Done(t, args) => Done(text + t, args)
    case Overflowed(t) => Overflowed(text + t)
    case BadArgs => BadArgs
  }

  lemma PrefixPrefix(a: string, b: string, r: Result)
    ensures Prefix(a, Prefix(b, r)) == Prefix(a + b, r) && Prefix("", r) == r
  {
    if !r.BadArgs? {
      assert a + (b + r.text) == a + b + r.text && "" + r.text == r.text;
    }
  }

  predicate PlainParse(p: Parse) {
    p.Parsed? ==> PlainFlags(p.d.flags)
  }

  lemma ModKeepsFlags(f: string, flags: Flags, width: Count, precision: Count)
    ensures var p := ModFrom(f, flags, width, precision); p.Parsed? && p.d.flags == flags
  {
  }

  lemma DotKeepsFlags(f: string, flags: Flags, width: Count)
    ensures var p := DotFrom(f, flags, width); p.Parsed? ==> p.d.flags == flags
  {
    hide ModFrom, CountFrom, AfterCount, Exceeds;
    ModKeepsFlags(f, flags, width, Unset);
    if f != [] {
      ModKeepsFlags(AfterCount(f[1..]), flags, width, CountFrom(f[1..], 0));
    }
  }

  lemma WidthKeepsFlags(f: string, flags: Flags, n: nat)
    ensures var p := WidthFrom(f, flags, n); p.Parsed? ==> p.d.flags == flags
  {
    hide DotFrom, CountFrom, AfterCount, Exceeds;
    DotKeepsFlags(AfterCount(f), flags, CountFrom(f, n));
  }

  lemma {:induction false} FlagsStayPlain(f: string, flags: Flags)
    requires PlainFlags(flags)
    ensures PlainParse(FlagsFrom(f, flags))
    decreases |f|
  {
    hide WidthFrom;
    WidthKeepsFlags(f, flags, 0);
    if f != [] && IsFlag(f[0]) {
      FlagsStayPlain(f[1..], AddFlag(flags, f[0]));
    }
  }

  function Finish(p: Parse, args: seq<Arg>): Result
    requires PlainParse(p)
    decreases if p.Parsed? then |p.rest| else 0, 2
  {
    match p
    case TooLong(width) => if width.Star? && !HasInt(args) then BadArgs else Overflowed("")
    case Parsed(d, rest) => Continued(Perform(d, args), rest)
  }

  /** What a directive has printed, in front of the rest of the format. */
  function Continued(p: Piece, rest: string): Result
    decreases |rest|, 1
  {
    match p
    case Emit(text, left) => Prefix(text, Formatted(rest, left))
    case TooBig => Overflowed("")
    case Mismatch => BadArgs
  }

  function Formatted(f: string, args: seq<Arg>): Result
    decreases |f|, 0
  {
    if f == [] then Done("", args)
    else if f[0] != '%' then Prefix([f[0]], Formatted(f[1..], args))
    else
      FlagsStayPlain(f[1..], NO_FLAGS);
      ParseShrinks(f[1..], NO_FLAGS);
      Finish(ParseDirective(f[1..]), args)
  }
}
