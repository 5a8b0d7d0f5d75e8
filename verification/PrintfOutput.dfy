/** The output buffer behind the pointers str, len and size, the OUTCHAR macro, the
    loops that pad, and the conversion of strings. */
module PrintfOutput {
  import opened PrintfText

  datatype Flags = Flags(
    minus: bool, plus: bool, space: bool, num: bool, zero: bool, quote: bool,
    up: bool, isUnsigned: bool, typeG: bool, typeE: bool)

  /** A character, or nothing if it is NUL. */
  function Optional(ch: char): string {
    if ch != '\0' then [ch] else []
  }

  /** The caller's buffer, of which the first size bytes may be written, and the
      length so far, which counts every character whether it was stored or not. The
      ghost text is the output as it would be without any limit. */
  class Output {
    const str: array?<char>
    const size: nat
    var len: nat
    ghost var text: string
    ghost const before: string

    ghost predicate Valid()
      reads this, str
    {
      && len == |text|
      && (str == null ==> size == 0)
      && (str != null ==>
            && size <= str.Length && |before| == str.Length
            && forall i :: 0 <= i < str.Length ==>
                 str[i] == if i < len && i + 1 < size then text[i] else before[i])
    }

    constructor (str: array?<char>, size: nat)
      requires str == null ==> size == 0
      requires str != null ==> size <= str.Length
      ensures Valid() && text == [] && this.str == str && this.size == size
      ensures str != null ==> before == str[..]
    {
      this.str := str;
      this.size := size;
      len := 0;
      text := [];
      before := if str == null then [] else str[..];
    }

    method OutChar(ch: char)
      requires Valid()
      modifies this`len, this`text, str
      ensures Valid() && text == old(text) + [ch]
    {
      if len + 1 < size {
        str[len] := ch;
      }
      len := len + 1;
      text := text + [ch];
    }

    /** if (ch != 0) OUTCHAR(ch); */
    method OutOptional(ch: char)
      requires Valid()
      modifies this`len, this`text, str
      ensures Valid() && text == old(text) + Optional(ch)
    {
      if ch != '\0' {
        OutChar(ch);
      }
    }

    /** while (n > 0) { OUTCHAR(ch); n--; } */
    method Pad(ch: char, count: int)
      requires Valid()
      modifies this`len, this`text, str
      ensures Valid() && text == old(text) + Repeat(ch, count)
    {
      var n := count;
      while n > 0
        invariant Valid() && n <= Max(count, 0)
        invariant count >= 0 ==> n >= 0
        invariant count < 0 ==> n == count
        invariant text == old(text) + Repeat(ch, Max(count, 0) - Max(n, 0))
      {
        OutChar(ch);
        RepeatSnoc(ch, count - n);
        n := n - 1;
      }
    }
  }

  /** A char pointer: null, or the characters in front of the terminating NUL. */
  datatype CString = Null | Chars(chars: string)

  function Forgiven(value: CString): string {
    if value.Null? then "(null)" else value.chars
  }

  /** How many characters of a string are printed. */
  function Shown(value: string, precision: int): nat {
    if precision < 0 || |value| <= precision then |value| else precision
  }

  function StrText(value: CString, width: int, precision: int, flags: Flags): string {
    var body := Forgiven(value)[..Shown(Forgiven(value), precision)];
    var pad := Max(width - |body|, 0);
    Repeat(' ', if flags.minus then 0 else pad) + body + Repeat(' ', if flags.minus then pad else 0)
  }

  /** The field is as wide as asked for, or as its content if that is wider; the
      content stands at the left or right end, with blanks in the rest. */
  lemma StrField(value: CString, width: int, precision: int, flags: Flags)
    ensures
      var text, s := StrText(value, width, precision, flags), Forgiven(value);
      var n := Shown(s, precision);
      && |text| == Max(width, n)
      && n == (if precision < 0 then |s| else Min(|s|, precision))
      && (if flags.minus then text[..n] else text[|text| - n..]) == s[..n]
      && (if flags.minus then text[n..] else text[..|text| - n]) == Repeat(' ', |text| - n)
  {
    var text, s := StrText(value, width, precision, flags), Forgiven(value);
    var n := Shown(s, precision);
    if flags.minus {
      assert text[..n] == s[..n];
    } else {
      assert text[|text| - n..] == s[..n];
    }
  }

  method CountShown(value: string, precision: int) returns (strln: nat)
    requires precision >= -1
    ensures strln == Shown(value, precision)
  {
    var noprecision := precision == -1;
    strln := 0;
    while strln < |value| && (noprecision || strln < precision)
      invariant 0 <= strln <= |value|
      invariant noprecision || strln <= precision
    {
      strln := strln + 1;
    }
  }

  method EmitShown(out: Output, value: string, precision: int)
    requires out.Valid() && precision >= -1
    modifies out`len, out`text, out.str
    ensures out.Valid() && out.text == old(out.text) + value[..Shown(value, precision)]
  {
    var noprecision := precision == -1;
    var i, left := 0, precision;
    while i < |value| && (noprecision || left > 0)
      invariant 0 <= i <= Shown(value, precision) && out.Valid()
      invariant !noprecision ==> left == precision - i
      invariant out.text == old(out.text) + value[..i]
    {
      out.OutChar(value[i]);
      i, left := i + 1, left - 1;
    }
  }

  /** fmtstr() */
  method FmtStr(out: Output, value: CString, width: int, precision: int, flags: Flags)
    requires out.Valid() && precision >= -1
    modifies out`len, out`text, out.str
    ensures out.Valid() && out.text == old(out.text) + StrText(value, width, precision, flags)
  {
    var s := if value.Null? then "(null)" else value.chars;
    var strln := CountShown(s, precision);
    var padlen := width - strln;
    if padlen < 0 {
      padlen := 0;
    }
    if flags.minus {
      padlen := -padlen;
    }
    Join3(out.text, Repeat(' ', padlen), s[..strln], Repeat(' ', -padlen));
    out.Pad(' ', padlen);
    EmitShown(out, s, precision);
    out.Pad(' ', -padlen);
  }
}
