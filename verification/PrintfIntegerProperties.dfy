/** What fmtint()'s output amounts to: its width, and the number it denotes. */
module PrintfIntegerProperties {
  import opened PrintfText
  import opened PrintfDigits
  import opened PrintfOutput
  import opened PrintfInteger

  // ---- Width

  lemma DigitsHaveNoComma(value: nat, base: nat, caps: bool)
    requires 2 <= base <= 16
    ensures forall i :: 0 <= i < |Digits(value, base, caps)| ==> Digits(value, base, caps)[i] != ','
  {
    DigitsAreDigits(value, base, caps);
  }

  lemma IntLength(value: int, base: nat, width: int, precision: int, flags: Flags)
    requires IsIntMax(value) && IsBase(base)
    ensures var l := IntLayout(value, base, width, precision, flags);
      |IntText(value, base, width, precision, flags)|
      == |l.sign| + |l.prefix| + l.zpad + |l.digits| + Separators(|l.digits|, flags) + l.spad
  {
    var l := IntLayout(value, base, width, precision, flags);
    DigitsHaveNoComma(Magnitude(value, flags), base, flags.up);
    GroupedCount(l.digits, flags.quote);
  }

  /** The field is exactly as wide as asked for, or as its content if that is wider,
      if and only if no separators meet a precision beyond the digits, or the content
      fills the field anyway: fmtint() subtracts the separators from the zeros and
      once more from the blanks. */
  lemma IntWidth(value: int, base: nat, width: nat, precision: int, flags: Flags)
    requires IsIntMax(value) && IsBase(base)
    ensures
      var l := IntLayout(value, base, width, precision, flags);
      var natural := |IntText(value, base, 0, precision, flags)|;
      && natural == |l.sign| + |l.prefix| + Max(l.precision, |l.digits| + Separators(|l.digits|, flags))
      && (|IntText(value, base, width, precision, flags)| == Max(width, natural)
          <==> (|| Separators(|l.digits|, flags) == 0
                || l.precision <= |l.digits|
                || width <= natural))
  {
    IntLength(value, base, width, precision, flags);
    IntLength(value, base, 0, precision, flags);
  }

  /** "%'10.8d" of 12345 comes out as " 0012,345": nine characters. */
  lemma IntWidthFallsShort()
    ensures
      var flags := Flags(false, false, false, false, false, true, false, false, false, false);
      |IntText(12345, 10, 10, 8, flags)| == 9
  {
    var flags := Flags(false, false, false, false, false, true, false, false, false, false);
    IntLength(12345, 10, 10, 8, flags);
    FiveDigits();
  }

  // ---- Reading back

  function SkipBlanks(s: string): string {
    s[Span(s, ch => ch == ' ')..]
  }

  function SkipSign(s: string): string {
    if s != [] && (s[0] == '-' || s[0] == '+') then s[1..] else s
  }

  function SkipPrefix(s: string, base: nat): string {
    if base == 16 && |s| >= 2 && s[0] == '0' && (s[1] == 'x' || s[1] == 'X') then s[2..] else s
  }

  function Figures(s: string, base: nat): string {
    StripCommas(s[..Span(s, ch => ch == ',' || DigitValue(ch) < base)])
  }

  /** The digits a text shows to a reader who skips blanks, a sign and a hexadecimal
      prefix, ignores commas, and stops at the first other character. */
  function FiguresShown(s: string, base: nat): string {
    Figures(SkipPrefix(SkipSign(SkipBlanks(s)), base), base)
  }

  /** The number it denotes to that reader. */
  function ReadInt(s: string, base: nat): int {
    var a, value: int := SkipBlanks(s), Value(FiguresShown(s, base), base);
    if a != [] && a[0] == '-' then -value else value
  }

  lemma {:induction false} StripAppend(a: string, b: string)
    ensures StripCommas(a + b) == StripCommas(a) + StripCommas(b)
  {
    if a == [] {
      assert a + b == b;
    } else {
      assert a + b == [a[0]] + (a[1..] + b);
      StripCons(a[0], a[1..] + b);
      StripAppend(a[1..], b);
    }
  }

  lemma {:induction false} StripZeros(n: nat)
    ensures StripCommas(Repeat('0', n)) == Repeat('0', n)
  {
    if n > 0 {
      StripCons('0', Repeat('0', n - 1));
      StripZeros(n - 1);
    }
  }

  /** The characters of a grouped number are digits and commas. */
  lemma {:induction false} GroupedFigures(digits: string, separate: bool, base: nat)
    requires AllDigits(digits, base)
    ensures forall i :: 0 <= i < |Grouped(digits, separate)| ==>
              Grouped(digits, separate)[i] == ',' || DigitValue(Grouped(digits, separate)[i]) < base
    ensures digits != [] ==> Grouped(digits, separate) != [] && Grouped(digits, separate)[0] == digits[0]
    decreases |digits|
  {
    if digits != [] { GroupedFigures(digits[1..], separate, base); }
  }

  /** Zeros, grouped digits and trailing blanks show the zeros and the digits. */
  lemma FiguresValue(zeros: nat, digits: string, separate: bool, blanks: nat, base: nat)
    requires 2 <= base <= 16 && digits != [] && AllDigits(digits, base)
    ensures
      var body := Repeat('0', zeros) + Grouped(digits, separate) + Repeat(' ', blanks);
      && Figures(body, base) == Repeat('0', zeros) + digits
      && Value(Figures(body, base), base) == Value(digits, base)
  {
    var front := Repeat('0', zeros) + Grouped(digits, separate);
    var class_ := ch => ch == ',' || DigitValue(ch) < base;
    GroupedFigures(digits, separate, base);
    SpanExact(front, Repeat(' ', blanks), class_);
    StripAppend(Repeat('0', zeros), Grouped(digits, separate));
    StripZeros(zeros);
    GroupedCount(digits, separate);
    ValueZeros(zeros, digits, base);
  }

  /** The body that follows sign and prefix never looks like a prefix itself. */
  lemma BodyStart(zeros: nat, digits: string, separate: bool, blanks: nat, base: nat)
    requires 2 <= base <= 16 && digits != [] && AllDigits(digits, base)
    ensures
      var body := Repeat('0', zeros) + Grouped(digits, separate) + Repeat(' ', blanks);
      && body != [] && DigitValue(body[0]) < base
      && (|body| >= 2 ==> body[1] == ',' || body[1] == ' ' || DigitValue(body[1]) < base)
  {
    GroupedFigures(digits, separate, base);
  }

  lemma BlanksSkipped(n: nat, s: string)
    requires s == [] || s[0] != ' '
    ensures SkipBlanks(Repeat(' ', n) + s) == s
  {
    SpanExact(Repeat(' ', n), s, ch => ch == ' ');
  }

  lemma SignSkipped(sign: string, rest: string)
    requires sign in {"", "-", "+"} && rest != [] && DigitValue(rest[0]) < 16
    ensures SkipSign(sign + rest) == rest && (sign + rest)[0] != ' '
    ensures (sign + rest)[0] == '-' <==> sign == "-"
  {
    if sign == "" {
      assert sign + rest == rest;
    } else {
      assert (sign + rest)[1..] == rest;
    }
  }

  lemma PrefixSkipped(prefix: string, body: string, base: nat)
    requires prefix == "" || (base == 16 && prefix in {"0x", "0X"})
    requires body != [] && DigitValue(body[0]) < 16
    requires |body| >= 2 ==> body[1] == ',' || body[1] == ' ' || DigitValue(body[1]) < 16
    ensures SkipPrefix(prefix + body, base) == body
    ensures prefix + body != [] && DigitValue((prefix + body)[0]) < 16
  {
    if prefix == "" {
      assert prefix + body == body;
    } else {
      assert (prefix + body)[2..] == body;
    }
  }

  /** Blanks and sign in front of the rest are skipped, and the sign is noticed. */
  lemma HeadSkipped(blanks: nat, sign: string, rest: string)
    requires sign in {"", "-", "+", " "} && rest != [] && DigitValue(rest[0]) < 16
    ensures var a := SkipBlanks(Repeat(' ', blanks) + (sign + rest));
      SkipSign(a) == rest && a != [] && (a[0] == '-' <==> sign == "-")
  {
    if sign == " " {
      assert Repeat(' ', blanks) + (sign + rest) == Repeat(' ', blanks + 1) + rest by { RepeatSnoc(' ', blanks); }
      BlanksSkipped(blanks + 1, rest);
      SignSkipped("", rest);
    } else {
      SignSkipped(sign, rest);
      BlanksSkipped(blanks, sign + rest);
    }
  }

  lemma PartsRead(blanks: nat, sign: string, prefix: string, body: string, base: nat)
    requires sign in {"", "-", "+", " "}
    requires prefix == "" || (base == 16 && prefix in {"0x", "0X"})
    requires body != [] && DigitValue(body[0]) < 16
    requires |body| >= 2 ==> body[1] == ',' || body[1] == ' ' || DigitValue(body[1]) < 16
    ensures
      var text, value: int := Repeat(' ', blanks) + (sign + (prefix + body)), Value(Figures(body, base), base);
      && FiguresShown(text, base) == Figures(body, base)
      && ReadInt(text, base) == if sign == "-" then -value else value
  {
    PrefixSkipped(prefix, body, base);
    HeadSkipped(blanks, sign, prefix + body);
  }

  lemma TextParts(blanks: string, sign: string, prefix: string, zeros: string, grouped: string, right: string)
    ensures blanks + sign + prefix + zeros + grouped + right == blanks + (sign + (prefix + (zeros + grouped + right)))
  {
  }

  /** For every value, base, width, precision and combination of flags, the text
      reads back as the value, or as its unsigned conversion. */
  lemma IntReadsBack(value: int, base: nat, width: int, precision: int, flags: Flags)
    requires IsIntMax(value) && IsBase(base)
    ensures ReadInt(IntText(value, base, width, precision, flags), base)
            == if flags.isUnsigned then value % 0x1_0000_0000_0000_0000 else value
  {
    hide ReadInt, Digits, Render, Separators, IntPrecision, AllDigits, Value;
    var l := IntLayout(value, base, width, precision, flags);
    var magnitude := Magnitude(value, flags);
    LayoutShape(value, base, width, precision, flags);
    DigitsValue(magnitude, base, flags.up);
    RenderReads(l, base, precision == -1, flags);
  }

  lemma LayoutShape(value: int, base: nat, width: int, precision: int, flags: Flags)
    requires IsIntMax(value) && IsBase(base)
    ensures
      var l := IntLayout(value, base, width, precision, flags);
      && l.sign in {"", "-", "+", " "} && (l.sign == "-" <==> !flags.isUnsigned && value < 0)
      && (l.prefix == "" || (base == 16 && l.prefix in {"0x", "0X"}))
      && l.digits == Digits(Magnitude(value, flags), base, flags.up)
      && l.digits != [] && AllDigits(l.digits, base)
  {
    hide Digits, Separators, IntPrecision, AllDigits;
    DigitsAreDigits(Magnitude(value, flags), base, flags.up);
  }

  lemma RenderReads(l: Layout, base: nat, noprecision: bool, flags: Flags)
    requires l.sign in {"", "-", "+", " "} && 2 <= base <= 16
    requires l.prefix == "" || (base == 16 && l.prefix in {"0x", "0X"})
    requires l.digits != [] && AllDigits(l.digits, base)
    ensures
      var text, value: int := Render(l, noprecision, flags), Value(l.digits, base);
      && FiguresShown(text, base) == Repeat('0', LeadingZeros(l, noprecision, flags)) + l.digits
      && ReadInt(text, base) == if l.sign == "-" then -value else value
  {
    hide FiguresShown, ReadInt, Value, Grouped;
    var left, zeros, right :=
      LeftBlanks(l, noprecision, flags), LeadingZeros(l, noprecision, flags), RightBlanks(l, flags);
    BodyReads(left, l.sign, l.prefix, zeros, l.digits, flags.quote, right, base);
    TextParts(Repeat(' ', left), l.sign, l.prefix, Repeat('0', zeros), Grouped(l.digits, flags.quote),
              Repeat(' ', right));
  }

  lemma BodyReads(left: nat, sign: string, prefix: string, zeros: nat, digits: string, separate: bool, right: nat,
                  base: nat)
    requires sign in {"", "-", "+", " "} && 2 <= base <= 16
    requires prefix == "" || (base == 16 && prefix in {"0x", "0X"})
    requires digits != [] && AllDigits(digits, base)
    ensures
      var body := Repeat('0', zeros) + Grouped(digits, separate) + Repeat(' ', right);
      var text, value: int := Repeat(' ', left) + (sign + (prefix + body)), Value(digits, base);
      && FiguresShown(text, base) == Repeat('0', zeros) + digits
      && ReadInt(text, base) == if sign == "-" then -value else value
  {
    hide FiguresShown, ReadInt, Value, Grouped, Figures;
    var body := Repeat('0', zeros) + Grouped(digits, separate) + Repeat(' ', right);
    BodyStart(zeros, digits, separate, right, base);
    FiguresValue(zeros, digits, separate, right, base);
    PartsRead(left, sign, prefix, body, base);
  }

  // ---- How many digits are shown

  lemma IntFigures(value: int, base: nat, width: int, precision: int, flags: Flags)
    requires IsIntMax(value) && IsBase(base)
    ensures
      var l := IntLayout(value, base, width, precision, flags);
      FiguresShown(IntText(value, base, width, precision, flags), base)
      == Repeat('0', LeadingZeros(l, precision == -1, flags)) + l.digits
  {
    hide FiguresShown, ReadInt, Digits, Render, Separators, IntPrecision, AllDigits, Value, Repeat;
    LayoutShape(value, base, width, precision, flags);
    RenderReads(IntLayout(value, base, width, precision, flags), base, precision == -1, flags);
  }

  /** The precision is the least number of digits to appear (section 7.19.6.1 of C99). It
      is if and only if no separators meet a precision beyond the digits, or zeros fill a
      field wide enough to make up for them: fmtint() subtracts the separators from the
      leading zeros. */
  lemma IntDigits(value: int, base: nat, width: nat, precision: int, flags: Flags)
    requires IsIntMax(value) && IsBase(base)
    ensures
      var l := IntLayout(value, base, width, precision, flags);
      var sep := Separators(|l.digits|, flags);
      |FiguresShown(IntText(value, base, width, precision, flags), base)| >= l.precision
      <==> (|| sep == 0
            || l.precision <= |l.digits|
            || (flags.zero && !flags.minus && precision == -1 && width > sep + l.precision + |l.sign| + |l.prefix|))
  {
    hide FiguresShown, Digits, IntText, Separators, SignText;
    IntFigures(value, base, width, precision, flags);
  }

  /** In the alternative form a nonzero octal number leads with a zero, with the same
      exception. */
  lemma OctalZero(value: int, width: nat, precision: int, flags: Flags)
    requires IsIntMax(value) && flags.num && Magnitude(value, flags) != 0
    ensures
      var l := IntLayout(value, 8, width, precision, flags);
      var n, sep := |l.digits|, Separators(|l.digits|, flags);
      var shown := FiguresShown(IntText(value, 8, width, precision, flags), 8);
      && shown != ""
      && (shown[0] == '0'
          <==> (|| sep == 0
                || precision > n + sep
                || (flags.zero && !flags.minus && precision == -1 && width > sep + n + 1 + |l.sign|)))
  {
    hide FiguresShown, Digits, IntText, Separators, SignText;
    IntFigures(value, 8, width, precision, flags);
    DigitsAreDigits(Magnitude(value, flags), 8, flags.up);
    DigitsCanonical(Magnitude(value, flags), 8, flags.up);
  }

  /** "%'.8d" of 12345 shows seven digits, ... */
  lemma DecimalFallsShort(flags: Flags)
    requires flags.quote && !flags.isUnsigned && !flags.up
    ensures FiguresShown(IntText(12345, 10, 0, 8, flags), 10) == "0012345"
  {
    hide FiguresShown, IntText, Digits, LeadingZeros, IntSign;
    IntFigures(12345, 10, 0, 8, flags);
    FiveDigits();
    ZerosLeft(IntLayout(12345, 10, 0, 8, flags), flags);
    TwoZeros();
  }

  lemma ZerosLeft(l: Layout, flags: Flags)
    ensures LeadingZeros(l, false, flags) == l.zpad
  {
  }

  lemma TwoZeros()
    ensures Repeat('0', 2) + "12345" == "0012345"
  {
  }

  /** ... and "%'#o" of 5349, octal 12345, does not lead with a zero. */
  lemma OctalFallsShort(flags: Flags)
    requires flags.quote && flags.num && flags.isUnsigned && !flags.up
    ensures var shown := FiguresShown(IntText(5349, 8, 0, -1, flags), 8);
      shown != "" && shown[0] != '0'
  {
    hide FiguresShown, IntText, Digits, ZeroFill;
    FiveDigits();
    OctalZero(5349, 0, -1, flags);
  }

  lemma FiveDigits()
    ensures Digits(12345, 10, false) == "12345" == Digits(5349, 8, false)
  {
    hide Digits;
    DigitsStep(12345, 10, false);
    DigitsStep(1234, 10, false);
    DigitsStep(123, 10, false);
    DigitsStep(12, 10, false);
    DigitsStep(1, 10, false);
    DigitsStep(5349, 8, false);
    DigitsStep(668, 8, false);
    DigitsStep(83, 8, false);
    DigitsStep(10, 8, false);
    DigitsStep(1, 8, false);
  }
}
