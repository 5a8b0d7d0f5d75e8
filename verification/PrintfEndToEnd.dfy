/** From the format to the number that can be read back: what single directives print. */
module PrintfEndToEnd {
  import AddressBits
  import opened PrintfText
  import opened PrintfDigits
  import opened PrintfOutput
  import opened PrintfInteger
  import opened PrintfIntegerProperties
  import opened PrintfDecimal
  import opened PrintfRounding
  import opened PrintfFloat
  import opened PrintfFloatProperties
  import opened PrintfScientific
  import opened PrintfShape
  import opened PrintfFormat
  import opened PrintfFormatProperties

  // ---- Directives and their settings

  /** A directive as the grammar yields it, with its numbers written out or as stars. */
  predicate Printable(d: Directive) {
    && PlainFlags(d.flags) && !d.width.Unset? && FitsInt(d.width) && FitsInt(d.precision) && IsConversion(d.conv)
  }

  function TextFor(d: Directive): string {
    "%" + DirectiveText(FlagChars(d.flags), d.width, d.precision, d.mod, d.conv)
  }

  /** A directive in front of the rest of a format prints its conversion. */
  lemma DirectivePrints(d: Directive, rest: string, args: seq<Arg>)
    requires Printable(d)
    ensures Formatted(TextFor(d) + rest, args) == Continued(Perform(d, args), rest)
  {
    hide Perform, DirectiveText, IsConversion, FlagsFrom, Formatted, FlagChars, Continued, FitsInt;
    var f := TextFor(d) + rest;
    EveryDirectiveReadsBack(d, rest);
    assert f[1..] == DirectiveText(FlagChars(d.flags), d.width, d.precision, d.mod, d.conv) + rest;
    assert f == "%" + f[1..];
    FormattedDirective(f[1..], args);
  }

  /** The arguments in front serve the stars. */
  predicate Supplied(d: Directive, args: seq<Arg>) {
    && (d.width.Star? ==> HasInt(args))
    && (d.precision.Star? ==> HasInt(AfterStar(d.width, args)))
  }

  /** The settings of a directive: the numbers written out, or those of its stars. */
  function SpecOf(d: Directive, args: seq<Arg>): (s: Spec)
    requires Supplied(d, args)
    ensures ValidSpec(s) && s.mod == d.mod && (PlainFlags(d.flags) ==> PlainFlags(s.flags))
  {
    Spec(WidthFlags(d.flags, d.width, args), WidthValue(d.width, args),
         PrecisionValue(d.precision, AfterStar(d.width, args)), d.mod)
  }

  /** The arguments behind those of the stars. */
  function Left(d: Directive, args: seq<Arg>): seq<Arg>
    requires Supplied(d, args)
  {
    AfterStar(d.precision, AfterStar(d.width, args))
  }

  lemma SuppliedPrints(d: Directive, rest: string, args: seq<Arg>)
    requires Printable(d) && Supplied(d, args)
    ensures
      Formatted(TextFor(d) + rest, args)
      == Continued(ConversionPiece(d.conv, SpecOf(d, args), Left(d, args)), rest)
  {
    hide ConversionPiece, Formatted, Continued, TextFor, IsConversion;
    hide WidthFlags, WidthValue, PrecisionValue, AfterStar;
    DirectivePrints(d, rest, args);
  }

  /** A directive that takes neither its width nor its precision from the arguments. */
  predicate Plain(d: Directive) {
    Printable(d) && d.width.Fixed? && !d.precision.Star?
  }

  function PrecisionOf(d: Directive): int {
    if d.precision.Fixed? then d.precision.n else -1
  }

  /** Such a directive depends on nothing but what is written. */
  lemma PlainPrints(d: Directive, rest: string, args: seq<Arg>)
    requires Plain(d)
    ensures
      Formatted(TextFor(d) + rest, args)
      == Continued(ConversionPiece(d.conv, Spec(d.flags, d.width.n, PrecisionOf(d), d.mod), args), rest)
  {
    hide ConversionPiece, Formatted, Continued, TextFor, IsConversion;
    SuppliedPrints(d, rest, args);
  }

  /** The directive with the numbers of its stars written out: a negative width as a minus
      flag and a positive width, a negative precision not at all. */
  function Written(d: Directive, args: seq<Arg>): Directive
    requires Supplied(d, args)
  {
    var s := SpecOf(d, args);
    Directive(s.flags, Fixed(s.width), if s.precision == -1 then Unset else Fixed(s.precision), d.mod, d.conv)
  }

  /** A star is as good as the number it stands for. The width -2^31, whose absolute value
      cannot be written, is left aside. */
  lemma StarsAreNumbers(d: Directive, rest: string, args: seq<Arg>)
    requires Printable(d) && Supplied(d, args) && SpecOf(d, args).width <= INT_MAX
    ensures Plain(Written(d, args))
    ensures Formatted(TextFor(d) + rest, args) == Formatted(TextFor(Written(d, args)) + rest, Left(d, args))
  {
    hide ConversionPiece, Formatted, Continued, TextFor, IsConversion;
    SuppliedPrints(d, rest, args);
    PlainPrints(Written(d, args), rest, Left(d, args));
  }

  /** Which piece a conversion is. */
  lemma PieceOf(conv: char, s: Spec, args: seq<Arg>)
    requires ValidSpec(s) && PlainFlags(s.flags)
    ensures conv in {'d', 'i', 'u', 'o', 'x', 'X'} ==> ConversionPiece(conv, s, args) == IntPiece(conv, s, args)
    ensures IsFloating(conv) ==> ConversionPiece(conv, s, args) == FloatPiece(conv, s, args)
    ensures conv == 's' ==> ConversionPiece(conv, s, args) == TextPiece(s, args)
    ensures conv == 'c' ==> ConversionPiece(conv, s, args) == CharPiece(args)
    ensures conv == 'p' ==> ConversionPiece(conv, s, args) == PointerPiece(s, args)
    ensures conv == 'n' && args != [] ==> ConversionPiece(conv, s, args) == Emit("", args[1..])
    ensures conv == '%' ==> ConversionPiece(conv, s, args) == Emit("%", args)
  {
    hide IntPiece, FloatPiece, TextPiece, CharPiece, PointerPiece;
  }

  predicate IsFloating(conv: char) {
    conv in {'a', 'A', 'f', 'F', 'e', 'E', 'g', 'G'}
  }

  /** The arguments of a directive: those of its stars, one to be printed, and more. */
  predicate Feeds(d: Directive, args: seq<Arg>, arg: Arg, more: seq<Arg>) {
    Supplied(d, args) && Left(d, args) == [arg] + more
  }

  lemma Fed(d: Directive, args: seq<Arg>, arg: Arg, more: seq<Arg>)
    requires Feeds(d, args, arg, more)
    ensures Left(d, args) != [] && Left(d, args)[0] == arg && Left(d, args)[1..] == more
  {
    hide Left;
  }

  // ---- Integers

  /** v is the value converted to the integer type that the modifier names: char, short,
      int or one of 64 bits. */
  predicate Converts(mod: Modifier, value: int, v: int, isSigned: bool) {
    var n := if mod.Char? then 0x100 else if mod.Short? then 0x1_0000
             else if mod.NoMod? || mod.LongDouble? then 0x1_0000_0000 else 0x1_0000_0000_0000_0000;
    (v - value) % n == 0 && if isSigned then -(n / 2) <= v < n / 2 else 0 <= v < n
  }

  lemma Congruent(value: int, n: int)
    requires n > 0
    ensures (value % n - value) % n == 0 && (value % n - n - value) % n == 0
  {
    var q := value / n;
    assert value % n - value == -q * n;
    AddressBits.MultipleRemainder(-q, n);
    AddressBits.MultipleRemainder(-q - 1, n);
  }

  lemma SignedConverts(mod: Modifier, value: int)
    ensures Converts(mod, value, SignedValue(mod, value), true)
  {
    Congruent(value, RangeOf(mod));
  }

  /** %d and %i with any flags, width, precision and modifier, written out or as stars: the
      field in front of the rest of the format shows the argument, converted to the type of
      the modifier, in decimal digits, with sign and padding as the flags say; it reads back
      as that value and is at least as wide as asked for, unless separators are. */
  lemma SignedDirective(d: Directive, value: int, rest: string, args: seq<Arg>, more: seq<Arg>)
    returns (v: int, f: IntField)
    requires Printable(d) && d.conv in {'d', 'i'} && Feeds(d, args, IntArg(value), more)
    ensures Formatted(TextFor(d) + rest, args) == Prefix(f.Text(), Formatted(rest, more))
    ensures Converts(d.mod, value, v, true) && ReadInt(f.Text(), 10) == v
    ensures var s := SpecOf(d, args);
      && IntContent(f, v, 10, s.flags) && IntPadding(f, 10, s.width, s.precision, s.flags)
      && (!s.flags.quote ==> |f.Text()| >= s.width)
  {
    hide ConversionPiece, Formatted, ReadInt, IntText, TextFor, SpecOf, Left, Supplied, IsConversion, FitsInt;
    hide IntContent, IntPadding, Converts;
    SuppliedPrints(d, rest, args);
    Fed(d, args, IntArg(value), more);
    var s := SpecOf(d, args);
    PieceOf(d.conv, s, Left(d, args));
    SignedConverts(d.mod, value);
    v := SignedValue(d.mod, value);
    f := IntShape(v, 10, s.width, s.precision, s.flags);
    IntReadsBack(v, 10, s.width, s.precision, s.flags);
    IntWidth(v, 10, s.width, s.precision, s.flags);
  }

  /** %*.*d: the width and the precision are the two ints in front of the argument. The
      field is as wide as the width without its sign, which puts the number at the left
      end; a negative precision is dropped. */
  lemma StarSignedDirective(d: Directive, w: int, p: int, value: int, rest: string, more: seq<Arg>)
    returns (v: int, f: IntField)
    requires Printable(d) && d.conv in {'d', 'i'} && d.width.Star? && d.precision.Star?
    requires -0x8000_0000 <= w < 0x8000_0000 && -0x8000_0000 <= p < 0x8000_0000
    ensures Formatted(TextFor(d) + rest, [IntArg(w), IntArg(p), IntArg(value)] + more)
            == Prefix(f.Text(), Formatted(rest, more))
    ensures Converts(d.mod, value, v, true) && ReadInt(f.Text(), 10) == v
    ensures var flags := if w < 0 then d.flags.(minus := true) else d.flags;
      && IntContent(f, v, 10, flags)
      && IntPadding(f, 10, if w < 0 then -w else w, if p < 0 then -1 else p, flags)
      && (!d.flags.quote ==> |f.Text()| >= w && |f.Text()| >= -w)
  {
    hide Formatted, ReadInt, TextFor, IsConversion, IntContent, IntPadding, Converts;
    var args := [IntArg(w), IntArg(p), IntArg(value)] + more;
    assert args[1..] == [IntArg(p), IntArg(value)] + more;
    assert args[1..][1..] == [IntArg(value)] + more;
    v, f := SignedDirective(d, value, rest, args, more);
  }

  lemma WrapBack(x: nat)
    requires x < LONGS
    ensures Wrapped(x, LONGS) % LONGS == x
  {
  }

  lemma UnsignedConverts(mod: Modifier, value: int)
    ensures Converts(mod, value, UnsignedValue(mod, value) % LONGS, false)
  {
    hide Wrapped;
    WrapBack(value % RangeOf(mod));
    Congruent(value, RangeOf(mod));
  }

  /** %u, %o, %x and %X likewise: the field shows the argument, converted to the unsigned
      type of the modifier, in the base ten, eight or sixteen; %X in upper case. */
  lemma UnsignedDirective(d: Directive, value: int, rest: string, args: seq<Arg>, more: seq<Arg>)
    returns (v: nat, f: IntField)
    requires Printable(d) && d.conv in {'u', 'o', 'x', 'X'} && Feeds(d, args, IntArg(value), more)
    ensures Formatted(TextFor(d) + rest, args) == Prefix(f.Text(), Formatted(rest, more))
    ensures
      var s, base := SpecOf(d, args), if d.conv == 'u' then 10 else if d.conv == 'o' then 8 else 16;
      var flags := s.flags.(isUnsigned := true, up := d.conv == 'X');
      && Converts(d.mod, value, v, false) && ReadInt(f.Text(), base) == v
      && IntContent(f, v, base, flags) && IntPadding(f, base, s.width, s.precision, flags)
      && (!s.flags.quote ==> |f.Text()| >= s.width)
  {
    hide ConversionPiece, Formatted, ReadInt, IntText, TextFor, UnsignedValue, Left, IsConversion, FitsInt;
    hide IntContent, IntPadding, Converts;
    SuppliedPrints(d, rest, args);
    Fed(d, args, IntArg(value), more);
    var s := SpecOf(d, args);
    PieceOf(d.conv, s, Left(d, args));
    UnsignedConverts(d.mod, value);
    var w, base, flags := UnsignedValue(d.mod, value), BaseOf(d.conv), UnsignedFlags(d.conv, s.flags);
    v := w % LONGS;
    f := IntShape(w, base, s.width, s.precision, flags);
    ContentOfUnsigned(f, w, base, flags);
    IntReadsBack(w, base, s.width, s.precision, flags);
    IntWidth(w, base, s.width, s.precision, flags);
  }

  lemma ContentOfUnsigned(f: IntField, value: int, base: nat, flags: Flags)
    requires 2 <= base <= 16 && flags.isUnsigned && IntContent(f, value, base, flags)
    ensures IntContent(f, value % LONGS, base, flags)
  {
    hide Shows;
  }

  /** %p of a pointer that is not null: its address in hexadecimal, with prefix. */
  lemma PointerDirective(d: Directive, address: nat, rest: string, args: seq<Arg>, more: seq<Arg>)
    returns (f: IntField)
    requires Printable(d) && d.conv == 'p' && Feeds(d, args, PointerArg(address), more)
    requires 0 < address < 0x1_0000_0000_0000_0000
    ensures Formatted(TextFor(d) + rest, args) == Prefix(f.Text(), Formatted(rest, more))
    ensures f.prefix == "0x" && ReadInt(f.Text(), 16) == address && Shows(f.body, address, 16, false, d.flags.quote)
    ensures var s := SpecOf(d, args);
      IntPadding(f, 16, s.width, s.precision, s.flags.(num := true, isUnsigned := true))
  {
    hide ConversionPiece, Formatted, ReadInt, IntText, TextFor, Left, IsConversion, FitsInt, Wrapped, Shows, IntPadding;
    SuppliedPrints(d, rest, args);
    Fed(d, args, PointerArg(address), more);
    var s := SpecOf(d, args);
    PieceOf(d.conv, s, Left(d, args));
    WrapBack(address);
    var flags := s.flags.(num := true, isUnsigned := true);
    f := IntShape(Wrapped(address, LONGS), 16, s.width, s.precision, flags);
    IntReadsBack(Wrapped(address, LONGS), 16, s.width, s.precision, flags);
  }

  // ---- Characters and strings

  /** %c: the argument as one unsigned char, whatever the width. */
  lemma CharDirective(d: Directive, value: int, rest: string, args: seq<Arg>, more: seq<Arg>) returns (ch: char)
    requires Printable(d) && d.conv == 'c' && Feeds(d, args, IntArg(value), more)
    ensures Formatted(TextFor(d) + rest, args) == Prefix([ch], Formatted(rest, more))
    ensures ch as int < 256 && (ch as int - value) % 256 == 0
  {
    hide ConversionPiece, Formatted, TextFor, Left, SpecOf, Supplied, IsConversion, FitsInt;
    SuppliedPrints(d, rest, args);
    Fed(d, args, IntArg(value), more);
    PieceOf(d.conv, SpecOf(d, args), Left(d, args));
    Congruent(value, 256);
    ch := (value % 256) as char;
  }

  /** %n prints nothing and takes its argument; %% prints a percent sign and takes none. */
  lemma SilentDirective(d: Directive, arg: Arg, rest: string, args: seq<Arg>, more: seq<Arg>)
    requires Printable(d) && Feeds(d, args, arg, more)
    ensures d.conv == 'n' ==> Formatted(TextFor(d) + rest, args) == Formatted(rest, more)
    ensures d.conv == '%' ==> Formatted(TextFor(d) + rest, args) == Prefix("%", Formatted(rest, [arg] + more))
  {
    hide ConversionPiece, Formatted, TextFor, Left, SpecOf, Supplied, IsConversion, FitsInt;
    SuppliedPrints(d, rest, args);
    Fed(d, args, arg, more);
    PieceOf(d.conv, SpecOf(d, args), Left(d, args));
    PrefixPrefix("", "", Formatted(rest, more));
  }

  lemma StringShape(value: CString, width: nat, precision: int, flags: Flags)
    requires precision >= -1
    ensures
      var text, s := StrText(value, width, precision, flags), if value.Null? then "(null)" else value.chars;
      var n := if precision == -1 then |s| else Min(|s|, precision);
      && |text| == Max(width, n)
      && text == if flags.minus then s[..n] + Repeat(' ', |text| - n) else Repeat(' ', |text| - n) + s[..n]
  {
    hide StrText;
    StrField(value, width, precision, flags);
    var text, n := StrText(value, width, precision, flags), Shown(Forgiven(value), precision);
    if flags.minus {
      assert text == text[..n] + text[n..];
    } else {
      assert text == text[..|text| - n] + text[|text| - n..];
    }
  }

  /** %s: at least as wide as asked for, with the string, cut to the precision, at one end
      and blanks in the rest. */
  lemma TextDirective(d: Directive, value: CString, rest: string, args: seq<Arg>, more: seq<Arg>)
    returns (text: string)
    requires Printable(d) && d.conv == 's' && Feeds(d, args, TextArg(value), more)
    ensures Formatted(TextFor(d) + rest, args) == Prefix(text, Formatted(rest, more))
    ensures
      var spec, s := SpecOf(d, args), if value.Null? then "(null)" else value.chars;
      var n := if spec.precision == -1 then |s| else Min(|s|, spec.precision);
      && |text| == Max(spec.width, n)
      && text == if spec.flags.minus then s[..n] + Repeat(' ', |text| - n) else Repeat(' ', |text| - n) + s[..n]
  {
    hide ConversionPiece, Formatted, StrText, TextFor, Repeat, Left, SpecOf, IsConversion, FitsInt;
    SuppliedPrints(d, rest, args);
    Fed(d, args, TextArg(value), more);
    var s := SpecOf(d, args);
    PieceOf(d.conv, s, Left(d, args));
    text := StrText(value, s.width, s.precision, s.flags);
    StringShape(value, s.width, s.precision, s.flags);
  }

  /** %p of a null pointer: "(nil)" in a field of the width, not cut by a precision. */
  lemma NullDirective(d: Directive, rest: string, args: seq<Arg>, more: seq<Arg>) returns (text: string)
    requires Printable(d) && d.conv == 'p' && Feeds(d, args, PointerArg(0), more)
    ensures Formatted(TextFor(d) + rest, args) == Prefix(text, Formatted(rest, more))
    ensures
      var s := SpecOf(d, args);
      && |text| == Max(s.width, 5)
      && text == if s.flags.minus then "(nil)" + Repeat(' ', |text| - 5) else Repeat(' ', |text| - 5) + "(nil)"
  {
    hide ConversionPiece, Formatted, StrText, TextFor, Repeat, Left, SpecOf, IsConversion, FitsInt;
    SuppliedPrints(d, rest, args);
    Fed(d, args, PointerArg(0), more);
    var s := SpecOf(d, args);
    PieceOf(d.conv, s, Left(d, args));
    text := StrText(Chars("(nil)"), s.width, -1, s.flags);
    StringShape(Chars("(nil)"), s.width, -1, s.flags);
    assert "(nil)"[..5] == "(nil)";
  }

  // ---- Floating point

  /** The flags of a floating point conversion: its style, and upper case for the capital
      letters. */
  function FlagsFor(conv: char, flags: Flags): Flags {
    flags.(up := conv in {'A', 'F', 'E', 'G'}, typeE := conv in {'e', 'E'}, typeG := conv in {'g', 'G'})
  }

  lemma FlagsAgree(conv: char, flags: Flags)
    requires IsFloating(conv) && PlainFlags(flags)
    ensures FloatFlags(conv, flags) == FlagsFor(conv, flags)
  {
  }

  /** The field of a value in a style, rounded to so many decimals, and with an exponent if
      it is scientific: as the letter, the flags, the width and the precision of the
      conversion say, a precision of zero counting as one for %g. */
  predicate FloatLaidOut(f: FloatField, value: real, conv: char, s: Spec, scientific: bool, x: int, decimals: int) {
    var flags := FlagsFor(conv, s.flags);
    && FloatStyle(value, if s.precision == 0 && flags.typeG then 1 else s.precision, flags, scientific, x, decimals)
    && FloatContent(f, value, flags, scientific, x, decimals) && FloatPadding(f, s.width, flags)
  }

  /** What every floating point conversion prints is such a field, at least as wide as asked
      for; or the format overflows. */
  lemma FloatPrints(d: Directive, value: real, rest: string, args: seq<Arg>, more: seq<Arg>)
    returns (r: FloatResult, f: FloatField, scientific: bool, x: int, decimals: int)
    requires Printable(d) && IsFloating(d.conv) && Feeds(d, args, FloatArg(value), more)
    ensures var s := SpecOf(d, args);
      r == FloatText(value, s.width, FloatPrecision(d.conv, s.precision), FloatFlags(d.conv, s.flags))
    ensures Formatted(TextFor(d) + rest, args)
            == if r.Text? then Prefix(r.text, Formatted(rest, more)) else Overflowed("")
    ensures r.Text? ==>
      && r.text == f.Text() && |f.Text()| >= SpecOf(d, args).width
      && FloatLaidOut(f, value, d.conv, SpecOf(d, args), scientific, x, decimals)
  {
    hide ConversionPiece, Formatted, FloatText, TextFor, SpecOf, Left, Supplied, IsConversion, FitsInt;
    hide FloatStyle, FloatContent, FloatPadding, FloatField.Text, FlagsFor;
    SuppliedPrints(d, rest, args);
    Fed(d, args, FloatArg(value), more);
    var s := SpecOf(d, args);
    PieceOf(d.conv, s, Left(d, args));
    FlagsAgree(d.conv, s.flags);
    r := FloatText(value, s.width, FloatPrecision(d.conv, s.precision), FloatFlags(d.conv, s.flags));
    f, scientific, x, decimals := FloatField(0, "", 0, "", "", "", "", 0), false, 0, 0;
    if r.Text? {
      FloatWidth(value, s.width, FloatPrecision(d.conv, s.precision), FloatFlags(d.conv, s.flags));
      f, scientific, x, decimals :=
        FloatShape(value, s.width, FloatPrecision(d.conv, s.precision), FloatFlags(d.conv, s.flags));
      PrecisionFor(d.conv, s);
    }
  }

  lemma PrecisionFor(conv: char, s: Spec)
    requires IsFloating(conv)
    ensures FloatPrecision(conv, s.precision)
            == if s.precision == 0 && FlagsFor(conv, s.flags).typeG then 1 else s.precision
  {
  }

  /** %f, and %F, %a and %A alike: the number printed is the argument, rounded half up, with
      exactly as many decimals as the precision asks for, or six, and at most nineteen; from
      2^64 - 1 on the format overflows. */
  lemma FixedDirective(d: Directive, value: real, rest: string, args: seq<Arg>, more: seq<Arg>)
    returns (f: FloatField)
    requires Printable(d) && d.conv in {'f', 'F', 'a', 'A'} && Feeds(d, args, FloatArg(value), more)
    ensures Formatted(TextFor(d) + rest, args)
            == if Abs(value) < UINTMAX_MAX as real then Prefix(f.Text(), Formatted(rest, more)) else Overflowed("")
    ensures
      var s := SpecOf(d, args);
      var p := Min(if s.precision == -1 then 6 else s.precision, 19);
      Abs(value) < UINTMAX_MAX as real ==>
        && Power(10, p) >= 1
        && ReadReal(f.Text()) == Signed(value, FixedValue(Abs(value), Power(10, p)))
        && |f.decimals| == p && f.exponent == "" && (f.point == if p > 0 || s.flags.num then "." else "")
        && FloatLaidOut(f, value, d.conv, s, false, 0, p) && |f.Text()| >= s.width
  {
    hide Formatted, ReadReal, FloatText, TextFor, FixedValue, Power, SpecOf, Left, Supplied, IsConversion, FitsInt;
    hide Shows, FloatField.Text, StripCommas;
    var r, scientific, x, decimals;
    r, f, scientific, x, decimals := FloatPrints(d, value, rest, args, more);
    var s := SpecOf(d, args);
    FixedDenotes(value, s.width, s.precision, FloatFlags(d.conv, s.flags));
  }

  /** %e and %E: the output denotes the mantissa rounded half up times the power of ten,
      unless the value rounds up to 1e100, with exactly as many decimals as the precision
      asks for, or six, and at most nineteen; the format overflows exactly if the mantissa
      does not fit. */
  lemma ScientificDirective(d: Directive, value: real, rest: string, args: seq<Arg>, more: seq<Arg>)
    returns (f: FloatField, x: int)
    requires Printable(d) && d.conv in {'e', 'E'} && Feeds(d, args, FloatArg(value), more)
    ensures Formatted(TextFor(d) + rest, args)
            == if MantissaOf(value) < UINTMAX_MAX as real then Prefix(f.Text(), Formatted(rest, more))
               else Overflowed("")
    ensures
      var s := SpecOf(d, args);
      var p := Min(if s.precision == -1 then 6 else s.precision, 19);
      MantissaOf(value) < UINTMAX_MAX as real ==>
        && Power(10, p) >= 1
        && (ReadReal(f.Text()) == Signed(value, ScientificValue(Abs(value), Exponent(value), Power(10, p)))
            <==> !(Exponent(value) == 99 && StepsUp(value, Power(10, p))))
        && |f.decimals| == p && x == ShownWith(value, p) && f.exponent == ExponentShown(x, d.conv == 'E')
        && FloatLaidOut(f, value, d.conv, s, true, x, p) && |f.Text()| >= s.width
  {
    hide Formatted, ReadReal, FloatText, TextFor, SpecOf, Left, Supplied, IsConversion, FitsInt;
    hide ScientificValue, Power, StepsUp, Exponent, MantissaOf, Shows, FloatField.Text, StripCommas, ExponentShown;
    var r, scientific, decimals;
    r, f, scientific, x, decimals := FloatPrints(d, value, rest, args, more);
    var s := SpecOf(d, args);
    ScientificAnywhere(value, s.width, s.precision, FloatFlags(d.conv, s.flags));
  }

  /** %g and %G: the output denotes what the style chosen for the value should, in that
      style, without zeros at the end of the decimals unless in the alternative form, and
      the format overflows exactly if that style does; a precision of zero counts as one. */
  lemma GeneralDirective(d: Directive, value: real, rest: string, args: seq<Arg>, more: seq<Arg>)
    returns (f: FloatField, scientific: bool, x: int, decimals: int)
    requires Printable(d) && d.conv in {'g', 'G'} && Feeds(d, args, FloatArg(value), more)
    ensures
      var s := SpecOf(d, args);
      var precision, flags := if s.precision == 0 then 1 else s.precision, FlagsFor(d.conv, s.flags);
      if GeneralFits(value, precision, flags) then
        && Formatted(TextFor(d) + rest, args) == Prefix(f.Text(), Formatted(rest, more))
        && GeneralReads(f.Text(), value, precision, flags)
        && (if s.flags.num then |f.decimals| == decimals
            else f.decimals != "" ==> f.decimals[|f.decimals| - 1] != '0')
        && FloatLaidOut(f, value, d.conv, s, scientific, x, decimals) && |f.Text()| >= s.width
      else Formatted(TextFor(d) + rest, args) == Overflowed("")
  {
    hide Formatted, FloatText, TextFor, SpecOf, Left, Supplied, IsConversion, FitsInt, GeneralFits, GeneralReads;
    hide Shows, FloatField.Text, StripCommas, ExponentShown, FloatStyle;
    var r;
    r, f, scientific, x, decimals := FloatPrints(d, value, rest, args, more);
    var s := SpecOf(d, args);
    FlagsAgree(d.conv, s.flags);
    GeneralAnywhere(value, s.width, if s.precision == 0 then 1 else s.precision, FloatFlags(d.conv, s.flags));
  }

  // ---- Whole formats

  /** A piece of a format: ordinary characters, or a directive. */
  datatype Item = Ordinary(text: string) | Conversion(d: Directive)

  predicate Proper(items: seq<Item>) {
    forall i :: 0 <= i < |items| ==>
      match items[i]
      case Ordinary(text) => '%' !in text
      case Conversion(d) => Printable(d)
  }

  function FormatOf(items: seq<Item>): string {
    if items == [] then ""
    else (match items[0] case Ordinary(text) => text case Conversion(d) => TextFor(d)) + FormatOf(items[1..])
  }

  /** Ordinary characters are copied; a directive prints its conversion and leaves the rest
      of the arguments to the rest of the format. */
  function OutputOf(items: seq<Item>, args: seq<Arg>): Result {
    if items == [] then Done("", args)
    else
      match items[0]
      case Ordinary(text) => Prefix(text, OutputOf(items[1..], args))
      case Conversion(d) =>
        if !Printable(d) then BadArgs
        else
          match Perform(d, args)
          case Emit(text, left) => Prefix(text, OutputOf(items[1..], left))
          case TooBig => Overflowed("")
          case Mismatch => BadArgs
  }

  /** Every format made of such pieces prints what they do, one after the other. */
  lemma {:induction false} WholeFormat(items: seq<Item>, args: seq<Arg>)
    requires Proper(items)
    ensures Formatted(FormatOf(items), args) == OutputOf(items, args)
    decreases |items|
  {
    hide Formatted, TextFor, Perform, Printable;
    if items == [] {
      NothingPrints(args);
    } else {
      match items[0]
      case Ordinary(text) =>
        OrdinaryThen(text, FormatOf(items[1..]), args);
        WholeFormat(items[1..], args);
      case Conversion(d) =>
        DirectivePrints(d, FormatOf(items[1..]), args);
        PlainDirective(d);
        var piece := Perform(d, args);
        if piece.Emit? { WholeFormat(items[1..], piece.args); }
    }
  }

  lemma NothingPrints(args: seq<Arg>)
    ensures Formatted("", args) == Done("", args)
  {
  }

  lemma PlainDirective(d: Directive)
    requires Printable(d)
    ensures PlainFlags(d.flags)
  {
  }

  /** The directive of one letter. */
  function Bare(conv: char): Directive {
    Directive(NO_FLAGS, Fixed(0), Unset, NoMod, conv)
  }

  lemma BareText(conv: char)
    ensures TextFor(Bare(conv)) == "%" + [conv]
    ensures IsConversion(conv) ==> Printable(Bare(conv))
  {
    hide IsConversion;
    assert "" + [conv] == [conv];
  }

  /** Two percent signs print one. */
  lemma PercentPrints(g: string, args: seq<Arg>)
    ensures Formatted("%%" + g, args) == Prefix("%", Formatted(g, args))
  {
    hide Formatted, ConversionPiece;
    BareText('%');
    assert "%" + ['%'] == "%%";
    PlainPrints(Bare('%'), g, args);
    PieceOf('%', Spec(NO_FLAGS, 0, -1, NoMod), args);
  }

  lemma SameResidue(v: int, n: int, m: int)
    requires m > 0 && 0 <= v < m && 0 <= n < m && (v - n) % m == 0
    ensures v == n
  {
    AddressBits.DivExact(v - n, m);
    AddressBits.MulCancel(-1, (v - n) / m, m);
    AddressBits.MulCancel((v - n) / m, 1, m);
  }

  /** Without flags, width and precision, the field of an unsigned number is its digits. */
  lemma OnlyDigits(f: IntField, value: nat, base: nat, upper: bool)
    requires 2 <= base <= 16
    requires IntContent(f, value, base, NO_FLAGS.(isUnsigned := true, up := upper))
    requires IntPadding(f, base, 0, -1, NO_FLAGS.(isUnsigned := true, up := upper))
    ensures f.Text() == f.body && Shows(f.body, value % LONGS, base, upper, false)
  {
    hide Shows;
    assert Repeat(' ', 0) == "" && Repeat('0', 0) == "";
    assert "" + f.body + "" == f.body;
  }

  lemma HexConverts()
    ensures IsConversion('x')
  {
    assert "diouxXaAeEfFgGcspn%"[4] == 'x';
  }

  lemma BareHex(size: int, more: seq<Arg>) returns (digits: string)
    requires 0 <= size < 0x1_0000_0000
    ensures Formatted("%x", [IntArg(size)] + more) == Done(digits, more) && Shows(digits, size, 16, false, false)
  {
    hide Formatted, Shows, TextFor, IsConversion, IntContent, IntPadding, ReadInt, IntField.Text;
    var args := [IntArg(size)] + more;
    assert args[0] == IntArg(size) && args[1..] == more;
    HexConverts();
    BareText('x');
    assert TextFor(Bare('x')) + "" == "%x";
    var v, f := UnsignedDirective(Bare('x'), size, "", args, more);
    SameResidue(v, size, 0x1_0000_0000);
    OnlyDigits(f, size, 16, false);
    NothingPrints(more);
    digits := f.body;
    assert digits + "" == digits;
  }

  /** "Size: 0x%x" of an int that is not negative: the text, and the hexadecimal digits. */
  lemma SizeLine(size: int, more: seq<Arg>) returns (digits: string)
    requires 0 <= size < 0x1_0000_0000
    ensures Formatted("Size: 0x%x", [IntArg(size)] + more) == Done("Size: 0x" + digits, more)
    ensures Shows(digits, size, 16, false, false)
  {
    hide Formatted, Shows;
    digits := BareHex(size, more);
    OrdinaryThen("Size: 0x", "%x", [IntArg(size)] + more);
    assert "Size: 0x" + "%x" == "Size: 0x%x";
  }
}
