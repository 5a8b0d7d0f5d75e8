/** Properties of the grammar: directives read back, numbers overflow exactly when they
    do not fit an int, and formats compose. */
module PrintfFormatProperties {
  import opened PrintfText
  import opened PrintfDigits
  import opened PrintfOutput
  import opened PrintfFormat

  // ---- Numbers

  predicate StartsOther(g: string) {
    g == "" || !IsDecimal(g[0])
  }

  lemma CountRead(ds: string, g: string)
    requires (forall i :: 0 <= i < |ds| ==> IsDecimal(ds[i])) && StartsOther(g)
    ensures Exceeds(ds + g, 0) <==> Value(ds, 10) > INT_MAX
    ensures CountFrom(ds + g, 0) == if g != "" && g[0] == '*' then Star else Fixed(Value(ds, 10))
    ensures AfterCount(ds + g) == if g != "" && g[0] == '*' then g[1..] else g
  {
    SpanExact(ds, g, ch => IsDecimal(ch));
    assert NumberFrom(0, ds) == Value(ds, 10);
    if g != "" {
      assert (ds + g)[|ds|] == g[0] && (ds + g)[|ds| + 1..] == g[1..];
    }
  }

  function AddFlags(flags: Flags, fs: string): Flags
    decreases |fs|
  {
    if fs == "" then flags else AddFlags(AddFlag(flags, fs[0]), fs[1..])
  }

  lemma {:induction false} FlagsRead(fs: string, g: string, flags: Flags)
    requires (forall i :: 0 <= i < |fs| ==> IsFlag(fs[i])) && (g == "" || !IsFlag(g[0]))
    ensures FlagsFrom(fs + g, flags) == WidthFrom(g, AddFlags(flags, fs), 0)
    decreases |fs|
  {
    hide WidthFrom, AddFlag;
    if fs == "" {
      assert fs + g == g;
    } else {
      assert (fs + g)[1..] == fs[1..] + g;
      FlagsRead(fs[1..], g, AddFlag(flags, fs[0]));
    }
  }

  /** A width of any number of digits overflows exactly when its value exceeds INT_MAX;
      otherwise it is the width, unless a star follows. */
  lemma WidthLimit(fs: string, ds: string, g: string)
    requires forall i :: 0 <= i < |fs| ==> IsFlag(fs[i])
    requires (forall i :: 0 <= i < |ds| ==> IsDecimal(ds[i])) && (ds != "" ==> ds[0] != '0')
    requires StartsOther(g) && (ds == "" && g != "" ==> !IsFlag(g[0]))
    ensures ParseDirective(fs + ds + g)
            == if Value(ds, 10) > 0x7FFF_FFFF then TooLong(Unset)
               else if g != "" && g[0] == '*' then DotFrom(g[1..], AddFlags(NO_FLAGS, fs), Star)
               else DotFrom(g, AddFlags(NO_FLAGS, fs), Fixed(Value(ds, 10)))
  {
    hide DotFrom, Exceeds, CountFrom, AfterCount, AddFlags, Value;
    assert ds != "" ==> (ds + g)[0] == ds[0];
    assert ds == "" ==> ds + g == g;
    assert fs + ds + g == fs + (ds + g);
    FlagsRead(fs, ds + g, NO_FLAGS);
    CountRead(ds, g);
  }

  /** Likewise for the precision, which is zero without digits. */
  lemma PrecisionLimit(ds: string, g: string, flags: Flags, width: Count)
    requires (forall i :: 0 <= i < |ds| ==> IsDecimal(ds[i])) && StartsOther(g)
    ensures DotFrom("." + ds + g, flags, width)
            == if Value(ds, 10) > 0x7FFF_FFFF then TooLong(width)
               else if g != "" && g[0] == '*' then ModFrom(g[1..], flags, width, Star)
               else ModFrom(g, flags, width, Fixed(Value(ds, 10)))
  {
    hide ModFrom, Exceeds, CountFrom, AfterCount, Value, IsDecimal;
    var f := "." + ds + g;
    assert f == "." + (ds + g);
    assert f[0] == '.' && f[1..] == ds + g;
    CountRead(ds, g);
  }

  // ---- Directives read back

  function WidthText(width: Count): string {
    match width
    case Unset => ""
    case Fixed(n) => if n == 0 then "" else Digits(n, 10, false)
    case Star => "*"
  }

  function PrecisionText(precision: Count): string {
    match precision
    case Unset => ""
    case Fixed(n) => "." + Digits(n, 10, false)
    case Star => ".*"
  }

  function ModText(mod: Modifier): string {
    match mod
    case NoMod => ""
    case Char => "hh"
    case Short => "h"
    case Long => "l"
    case LongLong => "ll"
    case LongDouble => "L"
    case Size => "z"
    case PtrDiff => "t"
    case IntMax => "j"
  }

  predicate IsConversion(conv: char) {
    conv in "diouxXaAeEfFgGcspn%"
  }

  predicate FitsInt(count: Count) {
    count.Fixed? ==> count.n <= INT_MAX
  }

  lemma ModRead(mod: Modifier, conv: char, rest: string, flags: Flags, width: Count, precision: Count)
    requires IsConversion(conv)
    ensures var f := ModText(mod) + [conv] + rest;
      && ModFrom(f, flags, width, precision) == Parsed(Directive(flags, width, precision, mod, conv), rest)
      && f != "" && !IsDecimal(f[0]) && !IsFlag(f[0]) && f[0] != '.' && f[0] != '*'
  {
    hide IsFlag;
    var f := ModText(mod) + [conv] + rest;
    ConversionIsPlain(conv);
    assert f[|ModText(mod)|] == conv && f[|ModText(mod)|..] == [conv] + rest;
    FlagsAreNot(f[0]);
  }

  lemma ConversionIsPlain(conv: char)
    requires IsConversion(conv)
    ensures !IsDecimal(conv) && !IsFlag(conv) && conv !in ".*hlLjtz"
  {
  }

  lemma FlagsAreNot(ch: char)
    ensures ch in {'h', 'l', 'L', 'j', 't', 'z'} ==> !IsFlag(ch)
  {
  }

  lemma DecimalDigits(n: nat)
    ensures forall i :: 0 <= i < |Digits(n, 10, false)| ==> IsDecimal(Digits(n, 10, false)[i])
    ensures Value(Digits(n, 10, false), 10) == n
    ensures n != 0 ==> Digits(n, 10, false)[0] != '0'
  {
    hide Digits;
    DigitsAreDigits(n, 10, false);
    DigitsValue(n, 10, false);
    DigitsCanonical(n, 10, false);
  }

  lemma FixedPrecisionRead(n: nat, g: string, flags: Flags, width: Count)
    requires n <= INT_MAX && StartsOther(g) && g != "" && g[0] != '*'
    ensures DotFrom("." + Digits(n, 10, false) + g, flags, width) == ModFrom(g, flags, width, Fixed(n))
  {
    hide ModFrom, Digits, Value, DotFrom;
    DecimalDigits(n);
    PrecisionLimit(Digits(n, 10, false), g, flags, width);
  }

  lemma StarPrecisionRead(g: string, flags: Flags, width: Count)
    ensures DotFrom(".*" + g, flags, width) == ModFrom(g, flags, width, Star)
  {
    hide ModFrom, Value, DotFrom;
    ValueNone();
    PrecisionLimit("", "*" + g, flags, width);
    assert "." + "" + ("*" + g) == ".*" + g;
    assert ("*" + g)[1..] == g;
  }

  lemma PrecisionRead(precision: Count, mod: Modifier, conv: char, rest: string, flags: Flags, width: Count)
    requires FitsInt(precision) && IsConversion(conv)
    ensures var f := PrecisionText(precision) + (ModText(mod) + [conv] + rest);
      && DotFrom(f, flags, width) == Parsed(Directive(flags, width, precision, mod, conv), rest)
      && f != "" && !IsDecimal(f[0]) && !IsFlag(f[0]) && f[0] != '*'
  {
    hide ModFrom, ModText, Digits, IsConversion, DotFrom;
    var g := ModText(mod) + [conv] + rest;
    ModRead(mod, conv, rest, flags, width, precision);
    if precision.Unset? {
      assert "" + g == g;
      DotAbsent(g, flags, width);
    } else if precision.Fixed? {
      FixedPrecisionRead(precision.n, g, flags, width);
    } else {
      StarPrecisionRead(g, flags, width);
    }
  }

  lemma DotAbsent(g: string, flags: Flags, width: Count)
    requires g == "" || g[0] != '.'
    ensures DotFrom(g, flags, width) == ModFrom(g, flags, width, Unset)
  {
  }

  lemma ValueNone()
    ensures Value("", 10) == 0
  {
  }

  /** The directive as text, behind the percent sign; its flags in any order and number. */
  function DirectiveText(fs: string, width: Count, precision: Count, mod: Modifier, conv: char): string {
    fs + WidthText(width) + (PrecisionText(precision) + (ModText(mod) + [conv]))
  }

  lemma HeadRead(fs: string, width: Count, g: string)
    requires (forall i :: 0 <= i < |fs| ==> IsFlag(fs[i])) && !width.Unset? && FitsInt(width)
    requires g != "" && !IsDecimal(g[0]) && !IsFlag(g[0]) && g[0] != '*'
    ensures ParseDirective(fs + WidthText(width) + g) == DotFrom(g, AddFlags(NO_FLAGS, fs), width)
  {
    hide DotFrom, Digits, AddFlags, Value, ParseDirective;
    ValueNone();
    if width.Fixed? {
      DecimalDigits(width.n);
      WidthLimit(fs, WidthText(width), g);
    } else {
      WidthLimit(fs, "", "*" + g);
      StarParts(fs, g);
    }
  }

  lemma StarParts(fs: string, g: string)
    ensures fs + "" + ("*" + g) == fs + "*" + g && ("*" + g)[1..] == g
  {
  }

  /** Every directive is recovered from its text: flags, width, precision, modifier and
      conversion, with exactly what followed it left over. */
  lemma DirectiveReadsBack(fs: string, width: Count, precision: Count, mod: Modifier, conv: char, rest: string)
    requires (forall i :: 0 <= i < |fs| ==> IsFlag(fs[i])) && IsConversion(conv)
    requires !width.Unset? && FitsInt(width) && FitsInt(precision)
    ensures ParseDirective(DirectiveText(fs, width, precision, mod, conv) + rest)
            == Parsed(Directive(AddFlags(NO_FLAGS, fs), width, precision, mod, conv), rest)
  {
    hide DotFrom, WidthText, AddFlags, PrecisionText, ModText, ParseDirective, IsConversion;
    PrecisionRead(precision, mod, conv, rest, AddFlags(NO_FLAGS, fs), width);
    TextAssociates(fs, WidthText(width), PrecisionText(precision), ModText(mod) + [conv], rest);
    HeadRead(fs, width, PrecisionText(precision) + (ModText(mod) + [conv] + rest));
  }

  lemma TextAssociates(fs: string, w: string, p: string, m: string, rest: string)
    ensures fs + w + (p + m) + rest == fs + w + (p + (m + rest))
  {
  }

  /** A text for every combination of flags. */
  function FlagChars(flags: Flags): string {
    (if flags.minus then "-" else "") + (if flags.plus then "+" else "") + (if flags.space then " " else "")
    + (if flags.num then "#" else "") + (if flags.zero then "0" else "") + (if flags.quote then "'" else "")
  }

  lemma FlagCharsAreFlags(flags: Flags)
    ensures forall ch: char :: ch in FlagChars(flags) ==> IsFlag(ch)
  {
  }

  lemma {:induction false} AddAll(flags: Flags, fs: string, gs: string)
    ensures AddFlags(flags, fs + gs) == AddFlags(AddFlags(flags, fs), gs)
    decreases |fs|
  {
    if fs == "" {
      assert fs + gs == gs;
    } else {
      assert (fs + gs)[1..] == fs[1..] + gs;
      AddAll(AddFlag(flags, fs[0]), fs[1..], gs);
    }
  }

  lemma AddOptional(flags: Flags, present: bool, ch: char)
    ensures AddFlags(flags, if present then [ch] else "") == if present then AddFlag(flags, ch) else flags
  {
    assert [ch][1..] == "";
  }

  lemma FlagCharsRead(flags: Flags)
    requires PlainFlags(flags)
    ensures AddFlags(NO_FLAGS, FlagChars(flags)) == flags
  {
    hide AddFlags;
    var a, b, c := if flags.minus then "-" else "", if flags.plus then "+" else "", if flags.space then " " else "";
    var d, e, f := if flags.num then "#" else "", if flags.zero then "0" else "", if flags.quote then "'" else "";
    AddAll(NO_FLAGS, a + b + c + d + e, f);
    AddAll(NO_FLAGS, a + b + c + d, e);
    AddAll(NO_FLAGS, a + b + c, d);
    AddAll(NO_FLAGS, a + b, c);
    AddAll(NO_FLAGS, a, b);
    AddOptional(NO_FLAGS, flags.minus, '-');
    var f1 := AddFlags(NO_FLAGS, a);
    AddOptional(f1, flags.plus, '+');
    var f2 := AddFlags(f1, b);
    AddOptional(f2, flags.space, ' ');
    var f3 := AddFlags(f2, c);
    AddOptional(f3, flags.num, '#');
    var f4 := AddFlags(f3, d);
    AddOptional(f4, flags.zero, '0');
    AddOptional(AddFlags(f4, e), flags.quote, '\'');
  }

  /** Hence every directive record has a text that it is recovered from. */
  lemma EveryDirectiveReadsBack(d: Directive, rest: string)
    requires PlainFlags(d.flags) && IsConversion(d.conv)
    requires !d.width.Unset? && FitsInt(d.width) && FitsInt(d.precision)
    ensures ParseDirective(DirectiveText(FlagChars(d.flags), d.width, d.precision, d.mod, d.conv) + rest)
            == Parsed(d, rest)
  {
    hide ParseDirective, DirectiveText, AddFlags, FlagChars, IsConversion;
    FlagCharsAreFlags(d.flags);
    assert forall i :: 0 <= i < |FlagChars(d.flags)| ==> FlagChars(d.flags)[i] in FlagChars(d.flags);
    DirectiveReadsBack(FlagChars(d.flags), d.width, d.precision, d.mod, d.conv, rest);
    FlagCharsRead(d.flags);
  }

  // ---- Formats compose

  lemma RunExtends(f: string, g: string)
    ensures DigitRun(f) < |f| ==> DigitRun(f + g) == DigitRun(f)
    ensures DigitRun(f) == |f| ==> DigitRun(f + g) >= |f|
  {
    var k := DigitRun(f);
    if k < |f| {
      SpanExact(f[..k], f[k..] + g, ch => IsDecimal(ch));
      assert f[..k] + (f[k..] + g) == f + g;
    } else {
      assert forall i :: 0 <= i < |f| ==> (f + g)[i] == f[i];
    }
  }

  lemma NumberExtends(n: nat, a: string, b: string)
    ensures NumberFrom(n, a + b) >= NumberFrom(n, a)
  {
    ValueAppend(a, b, 10);
    PowerAdd(10, |a|, |b|);
    PowerPositive(10, |b|);
    Extended(n, Power(10, |a|), Value(a, 10), Power(10, |b|), Value(b, 10));
  }

  lemma Extended(n: nat, p: nat, v: nat, q: nat, w: nat)
    requires q >= 1
    ensures n * (p * q) + (v * q + w) >= n * p + v
  {
    assert n * (p * q) == (n * p) * q;
    ScaleUp(n * p, q);
    ScaleUp(v, q);
  }

  lemma InsideExtends(f: string, g: string, n: nat)
    requires DigitRun(f) < |f|
    ensures CountFrom(f + g, n) == CountFrom(f, n) && AfterCount(f + g) == AfterCount(f) + g
    ensures Exceeds(f + g, n) <==> Exceeds(f, n)
  {
    hide NumberFrom, DigitRun;
    RunExtends(f, g);
    var k := DigitRun(f);
    assert (f + g)[..k] == f[..k] && (f + g)[k] == f[k];
    assert (f + g)[k..] == f[k..] + g && (f + g)[k + 1..] == f[k + 1..] + g;
  }

  lemma RunGoesOn(f: string, g: string, n: nat)
    requires DigitRun(f) == |f| && Exceeds(f, n)
    ensures Exceeds(f + g, n)
  {
    hide NumberFrom, DigitRun;
    RunExtends(f, g);
    var m := DigitRun(f + g);
    assert f[..|f|] == f && (f + g)[..m] == f + g[..m - |f|];
    NumberExtends(n, f, g[..m - |f|]);
  }

  lemma CountExtends(f: string, g: string, n: nat)
    ensures AfterCount(f) != "" ==>
      && CountFrom(f + g, n) == CountFrom(f, n) && AfterCount(f + g) == AfterCount(f) + g
      && (Exceeds(f + g, n) <==> Exceeds(f, n))
    ensures Exceeds(f, n) ==> Exceeds(f + g, n)
  {
    hide Exceeds, CountFrom, DigitRun;
    if DigitRun(f) < |f| {
      InsideExtends(f, g, n);
    } else if Exceeds(f, n) {
      RunGoesOn(f, g, n);
    }
  }

  lemma ModExtends(f: string, g: string, flags: Flags, width: Count, precision: Count)
    ensures var p := ModFrom(f, flags, width, precision);
      && p.Parsed?
      && (p.d.conv != '\0' ==> f != "" && ModFrom(f + g, flags, width, precision) == Parsed(p.d, p.rest + g))
  {
    hide AfterModifier, ModifierOf;
    var h := AfterModifier(f);
    if h != "" {
      ModifierExtends(f, g);
      assert (h + g)[0] == h[0] && (h + g)[1..] == h[1..] + g;
    }
  }

  lemma ModifierExtends(f: string, g: string)
    requires AfterModifier(f) != ""
    ensures f != "" && ModifierOf(f + g) == ModifierOf(f) && AfterModifier(f + g) == AfterModifier(f) + g
  {
    assert (f + g)[0] == f[0] && (|f| > 1 ==> (f + g)[1] == f[1]);
    assert |f| > 1 ==> (f + g)[2..] == f[2..] + g;
    assert (f + g)[1..] == f[1..] + g;
  }

  predicate Ends(p: Parse) {
    p.Parsed? ==> p.d.conv != '\0'
  }

  function Extends(p: Parse, g: string): Parse {
    match p
    case TooLong(width) => p
    case Parsed(d, rest) => Parsed(d, rest + g)
  }

  lemma PrecisionExtends(f: string, g: string, flags: Flags, width: Count, n: nat)
    ensures var p := PrecisionFrom(f, flags, width, n);
      Ends(p) ==> PrecisionFrom(f + g, flags, width, n) == Extends(p, g)
  {
    hide ModFrom, Exceeds, CountFrom, AfterCount;
    CountExtends(f, g, n);
    ModExtends(AfterCount(f), g, flags, width, CountFrom(f, n));
  }

  lemma DotExtends(f: string, g: string, flags: Flags, width: Count)
    ensures var p := DotFrom(f, flags, width);
      Ends(p) ==> f != "" && DotFrom(f + g, flags, width) == Extends(p, g)
  {
    hide ModFrom, PrecisionFrom;
    ModExtends(f, g, flags, width, Unset);
    if f != "" {
      assert (f + g)[0] == f[0] && (f + g)[1..] == f[1..] + g;
      PrecisionExtends(f[1..], g, flags, width, 0);
    }
  }

  lemma WidthExtends(f: string, g: string, flags: Flags, n: nat)
    ensures var p := WidthFrom(f, flags, n);
      Ends(p) ==> WidthFrom(f + g, flags, n) == Extends(p, g)
  {
    hide DotFrom, Exceeds, CountFrom, AfterCount;
    CountExtends(f, g, n);
    DotExtends(AfterCount(f), g, flags, CountFrom(f, n));
  }

  lemma {:induction false} FlagsExtend(f: string, g: string, flags: Flags)
    ensures var p := FlagsFrom(f, flags);
      Ends(p) ==> FlagsFrom(f + g, flags) == Extends(p, g)
    decreases |f|
  {
    hide WidthFrom, AddFlag;
    WidthExtends(f, g, flags, 0);
    if f != "" {
      assert (f + g)[0] == f[0] && (f + g)[1..] == f[1..] + g;
      FlagsExtend(f[1..], g, AddFlag(flags, f[0]));
    } else {
      NoDirective(flags);
    }
  }

  lemma NoDirective(flags: Flags)
    ensures !Ends(WidthFrom("", flags, 0))
  {
    CountRead("", "");
    ValueNone();
    assert "" + "" == "";
  }

  /** A format that ends between directives. */
  predicate Complete(f: string)
    decreases |f|
  {
    f == "" ||
    if f[0] != '%' then Complete(f[1..])
    else
      var p := ParseDirective(f[1..]);
      ParseShrinks(f[1..], NO_FLAGS);
      Ends(p) && (p.Parsed? ==> Complete(p.rest))
  }

  /** Formatting continues with the arguments left over. */
  function Then(r: Result, g: string): Result {
    match r
    case Done(text, args) => Prefix(text, Formatted(g, args))
    case _ => r
  }

  lemma PrefixThen(text: string, r: Result, g: string)
    ensures Then(Prefix(text, r), g) == Prefix(text, Then(r, g))
  {
    hide Formatted;
    if r.Done? {
      PrefixPrefix(text, r.text, Formatted(g, r.args));
    }
  }

  /** The output of a directive in front of the rest. */
  function Directed(p: Parse, args: seq<Arg>): Result
    requires PlainParse(p)
  {
    match p
    case TooLong(width) => if width.Star? && !HasInt(args) then BadArgs else Overflowed("")
    case Parsed(d, _) =>
      match Perform(d, args)
      case Emit(text, left) => Done(text, left)
      case TooBig => Overflowed("")
      case Mismatch => BadArgs
  }

  lemma FinishMeans(p: Parse, args: seq<Arg>)
    requires PlainParse(p)
    ensures Finish(p, args) == if p.Parsed? then Then(Directed(p, args), p.rest) else Directed(p, args)
  {
    hide Formatted, Perform;
  }

  lemma FinishExtends(p: Parse, args: seq<Arg>, g: string)
    requires PlainParse(p)
    requires p.Parsed? ==> forall left: seq<Arg> :: Formatted(p.rest + g, left) == Then(Formatted(p.rest, left), g)
    ensures PlainParse(Extends(p, g)) && Finish(Extends(p, g), args) == Then(Finish(p, args), g)
  {
    hide Formatted, Perform;
    FinishMeans(p, args);
    FinishMeans(Extends(p, g), args);
    if p.Parsed? && Directed(p, args).Done? {
      var r := Directed(p, args);
      PrefixThen(r.text, Formatted(p.rest, r.args), g);
    }
  }

  /** Formatting f + g is formatting f and then g with the arguments left over, when f
      ends between directives. */
  lemma {:induction false} FormatsCompose(f: string, g: string, args: seq<Arg>)
    requires Complete(f)
    ensures Formatted(f + g, args) == Then(Formatted(f, args), g)
    decreases |f|
  {
    hide Finish, FlagsFrom;
    if f == "" {
      assert f + g == g;
      PrefixPrefix("", "", Formatted(g, args));
    } else {
      assert (f + g)[0] == f[0] && (f + g)[1..] == f[1..] + g;
      if f[0] != '%' {
        FormatsCompose(f[1..], g, args);
        PrefixThen([f[0]], Formatted(f[1..], args), g);
      } else {
        var p := ParseDirective(f[1..]);
        FlagsStayPlain(f[1..], NO_FLAGS);
        ParseShrinks(f[1..], NO_FLAGS);
        FlagsExtend(f[1..], g, NO_FLAGS);
        if p.Parsed? {
          forall left: seq<Arg> ensures Formatted(p.rest + g, left) == Then(Formatted(p.rest, left), g) {
            FormatsCompose(p.rest, g, left);
          }
        }
        FinishExtends(p, args, g);
      }
    }
  }

  // ---- What ordinary characters print

  /** A format without directives is printed as it is. */
  lemma {:induction false} OrdinaryPrints(f: string, args: seq<Arg>)
    requires '%' !in f
    ensures Formatted(f, args) == Done(f, args)
    decreases |f|
  {
    hide Finish, FlagsFrom;
    if f != "" {
      OrdinaryPrints(f[1..], args);
      assert f == [f[0]] + f[1..];
    }
  }

  lemma {:induction false} OrdinaryComplete(f: string)
    requires '%' !in f
    ensures Complete(f)
    decreases |f|
  {
    hide FlagsFrom;
    if f != "" { OrdinaryComplete(f[1..]); }
  }

  /** In front of any rest of a format, too. */
  lemma OrdinaryThen(f: string, g: string, args: seq<Arg>)
    requires '%' !in f
    ensures Formatted(f + g, args) == Prefix(f, Formatted(g, args))
  {
    hide Formatted, Complete;
    OrdinaryComplete(f);
    OrdinaryPrints(f, args);
    FormatsCompose(f, g, args);
  }

  // ---- What the letters mean

  /** Each flag sets its own field, wherever it stands among the flags. */
  lemma FlagLetters(g: string, flags: Flags)
    ensures FlagsFrom("-" + g, flags) == FlagsFrom(g, flags.(minus := true))
    ensures FlagsFrom("+" + g, flags) == FlagsFrom(g, flags.(plus := true))
    ensures FlagsFrom(" " + g, flags) == FlagsFrom(g, flags.(space := true))
    ensures FlagsFrom("#" + g, flags) == FlagsFrom(g, flags.(num := true))
    ensures FlagsFrom("0" + g, flags) == FlagsFrom(g, flags.(zero := true))
    ensures FlagsFrom("'" + g, flags) == FlagsFrom(g, flags.(quote := true))
  {
    hide FlagsFrom;
    FlagRead('-', g, flags);
    FlagRead('+', g, flags);
    FlagRead(' ', g, flags);
    FlagRead('#', g, flags);
    FlagRead('0', g, flags);
    FlagRead('\'', g, flags);
  }

  lemma FlagRead(ch: char, g: string, flags: Flags)
    requires IsFlag(ch)
    ensures FlagsFrom([ch] + g, flags) == FlagsFrom(g, AddFlag(flags, ch))
  {
    hide FlagsFrom, AddFlag;
    FlagStep([ch] + g, flags);
    assert ([ch] + g)[1..] == g;
  }

  /** The letters in front of the conversion, which says what type the argument has. */
  lemma ModifierLetters(conv: char, rest: string, flags: Flags, width: Count, precision: Count)
    requires IsConversion(conv)
    ensures
      var parsed := (mod: Modifier) => Parsed(Directive(flags, width, precision, mod, conv), rest);
      && ModFrom("hh" + ([conv] + rest), flags, width, precision) == parsed(Char)
      && ModFrom("h" + ([conv] + rest), flags, width, precision) == parsed(Short)
      && ModFrom([conv] + rest, flags, width, precision) == parsed(NoMod)
      && ModFrom("l" + ([conv] + rest), flags, width, precision) == parsed(Long)
      && ModFrom("ll" + ([conv] + rest), flags, width, precision) == parsed(LongLong)
      && ModFrom("j" + ([conv] + rest), flags, width, precision) == parsed(IntMax)
      && ModFrom("z" + ([conv] + rest), flags, width, precision) == parsed(Size)
      && ModFrom("t" + ([conv] + rest), flags, width, precision) == parsed(PtrDiff)
      && ModFrom("L" + ([conv] + rest), flags, width, precision) == parsed(LongDouble)
  {
    hide ModFrom, IsConversion;
    var c := [conv] + rest;
    ModRead(Char, conv, rest, flags, width, precision);
    ModRead(Short, conv, rest, flags, width, precision);
    ModRead(NoMod, conv, rest, flags, width, precision);
    ModRead(Long, conv, rest, flags, width, precision);
    ModRead(LongLong, conv, rest, flags, width, precision);
    ModRead(IntMax, conv, rest, flags, width, precision);
    ModRead(Size, conv, rest, flags, width, precision);
    ModRead(PtrDiff, conv, rest, flags, width, precision);
    ModRead(LongDouble, conv, rest, flags, width, precision);
    forall m: string ensures m + [conv] + rest == m + c {
    }
    assert "" + c == c;
  }

  // ---- Directives that print nothing

  lemma FormattedDirective(f: string, args: seq<Arg>)
    ensures PlainParse(ParseDirective(f)) && Formatted("%" + f, args) == Finish(ParseDirective(f), args)
  {
    hide FlagsFrom, Finish;
    FlagsStayPlain(f, NO_FLAGS);
    assert ("%" + f)[0] == '%' && ("%" + f)[1..] == f;
  }

  /** A directive with an unknown conversion, or one that the format ends in, is skipped. */
  lemma UnknownSkipped(f: string, args: seq<Arg>)
    requires var p := ParseDirective(f);
      p.Parsed? && !IsConversion(p.d.conv) && !p.d.width.Star? && !p.d.precision.Star?
    ensures Formatted("%" + f, args) == Formatted(ParseDirective(f).rest, args)
  {
    hide FlagsFrom, Formatted, IsConversion, ConversionPiece;
    var p := ParseDirective(f);
    FormattedDirective(f, args);
    UnknownPrintsNothing(p.d, args);
    PrefixPrefix("", "", Formatted(p.rest, args));
  }

  lemma UnknownPrintsNothing(d: Directive, args: seq<Arg>)
    requires PlainFlags(d.flags) && !IsConversion(d.conv) && !d.width.Star? && !d.precision.Star?
    ensures Perform(d, args) == Emit("", args)
  {
    hide IntPiece, FloatPiece, TextPiece, PointerPiece, CharPiece;
    KnownConversions(d.conv);
  }

  lemma KnownConversions(conv: char)
    requires !IsConversion(conv)
    ensures conv !in "diouxX" && conv !in "aAfFeEgG" && conv !in {'c', 's', 'p', 'n', '%'}
  {
    var all := "diouxXaAeEfFgGcspn%";
    assert all[0] == 'd' && all[1] == 'i' && all[2] == 'o' && all[3] == 'u' && all[4] == 'x' && all[5] == 'X';
    assert all[6] == 'a' && all[7] == 'A' && all[8] == 'e' && all[9] == 'E' && all[10] == 'f' && all[11] == 'F';
    assert all[12] == 'g' && all[13] == 'G' && all[14] == 'c' && all[15] == 's' && all[16] == 'p' && all[17] == 'n';
    assert all[18] == '%';
  }

  /** A width or a precision that no int holds ends the output with an overflow. */
  lemma LongNumbersOverflow(fs: string, ws: string, ds: string, g: string, args: seq<Arg>)
    requires forall i :: 0 <= i < |fs| ==> IsFlag(fs[i])
    requires (forall i :: 0 <= i < |ws| ==> IsDecimal(ws[i])) && (ws != "" ==> ws[0] != '0')
    requires (forall i :: 0 <= i < |ds| ==> IsDecimal(ds[i])) && StartsOther(g)
    ensures Value(ws, 10) > 0x7FFF_FFFF && ws != "" ==> Formatted("%" + (fs + ws + g), args) == Overflowed("")
    ensures Value(ws, 10) <= 0x7FFF_FFFF < Value(ds, 10) ==>
              Formatted("%" + (fs + ws + ("." + ds + g)), args) == Overflowed("")
  {
    hide ParseDirective, Formatted, Value, AddFlags, DotFrom;
    if Value(ws, 10) > 0x7FFF_FFFF && ws != "" {
      WidthLimit(fs, ws, g);
      FormattedDirective(fs + ws + g, args);
    } else if Value(ws, 10) <= 0x7FFF_FFFF < Value(ds, 10) {
      var rest := "." + ds + g;
      assert rest[0] == '.';
      WidthLimit(fs, ws, rest);
      PrecisionLimit(ds, g, AddFlags(NO_FLAGS, fs), Fixed(Value(ws, 10)));
      FormattedDirective(fs + ws + rest, args);
    }
  }
}
