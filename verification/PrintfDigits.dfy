/** convert() and the grouping of digits. */
module PrintfDigits {
  import opened PrintfText

  /** The digits of a value, least significant first: what convert() leaves in a
      large enough buffer. */
  function Converted(value: nat, base: nat, caps: bool): (s: string)
    requires 2 <= base <= 16
    ensures s != []
    decreases value
  {
    var digit := [DigitChar(value % base, caps)];
    if value / base == 0 then digit else digit + Converted(value / base, base, caps)
  }

  /** The digits in reading order. */
  function Digits(value: nat, base: nat, caps: bool): (s: string)
    requires 2 <= base <= 16
    ensures |s| == |Converted(value, base, caps)| >= 1
  {
    Reverse(Converted(value, base, caps))
  }

  lemma DigitsStep(value: nat, base: nat, caps: bool)
    requires 2 <= base <= 16
    ensures Digits(value, base, caps) ==
            (if value / base == 0 then [] else Digits(value / base, base, caps)) + [DigitChar(value % base, caps)]
  {
  }

  lemma DivMod(value: nat, base: nat)
    requires base >= 2
    ensures (value / base) * base + value % base == value
    ensures value > 0 ==> value / base < value
    ensures value / base == 0 <==> value < base
  {
  }

  /** The last digit and what is in front of it. */
  lemma LastDigit(value: nat, base: nat, caps: bool) returns (q: nat, r: nat)
    requires 2 <= base <= 16
    ensures r < base && value == q * base + r && (q == 0 || q < value) && (q == 0 <==> value < base)
    ensures Digits(value, base, caps) == (if q == 0 then [] else Digits(q, base, caps)) + [DigitChar(r, caps)]
  {
    hide Digits, DigitChar;
    q, r := value / base, value % base;
    DigitsStep(value, base, caps);
    DivMod(value, base);
  }

  lemma {:induction false} DigitsAreDigits(value: nat, base: nat, caps: bool)
    requires 2 <= base <= 16
    ensures AllDigits(Digits(value, base, caps), base)
    decreases value
  {
    hide Digits, DigitChar, DigitValue;
    var q, r := LastDigit(value, base, caps);
    DigitCharValue(r, caps);
    if q != 0 { DigitsAreDigits(q, base, caps); }
  }

  /** Evaluating the digits gives the value back. */
  lemma {:induction false} DigitsValue(value: nat, base: nat, caps: bool)
    requires 2 <= base <= 16
    ensures Value(Digits(value, base, caps), base) == value
    decreases value
  {
    hide Digits, DigitChar, DigitValue;
    var q, r := LastDigit(value, base, caps);
    DigitCharValue(r, caps);
    if q == 0 {
      ValueSnoc([], DigitChar(r, caps), base);
    } else {
      DigitsValue(q, base, caps);
      ValueSnoc(Digits(q, base, caps), DigitChar(r, caps), base);
    }
  }

  lemma ValueSnoc(c: string, last: char, base: nat)
    ensures Value(c + [last], base) == Value(c, base) * base + DigitValue(last)
  {
    assert (c + [last])[..|c + [last]| - 1] == c;
  }

  /** No superfluous leading zero. */
  lemma {:induction false} DigitsCanonical(value: nat, base: nat, caps: bool)
    requires 2 <= base <= 16
    ensures Digits(value, base, caps)[0] == '0' <==> value == 0
    ensures value < base ==> |Digits(value, base, caps)| == 1
    decreases value
  {
    hide Digits, DigitChar, DigitValue;
    var q, r := LastDigit(value, base, caps);
    DigitCharValue(r, caps);
    if q != 0 { DigitsCanonical(q, base, caps); }
  }

  lemma QuotientBelow(q: nat, r: nat, base: nat, p: nat)
    requires q * base + r < base * p
    ensures q < p
  {
    assert q >= p ==> (q - p) * base >= 0;
  }

  lemma PowerStep(base: nat, n: nat)
    requires n >= 1
    ensures Power(base, n) == base * Power(base, n - 1) && Power(base, 0) == 1
  {
  }

  lemma {:induction false} DigitsLength(value: nat, base: nat, caps: bool, n: nat)
    requires 2 <= base <= 16 && n >= 1 && value < Power(base, n)
    ensures |Digits(value, base, caps)| <= n
    decreases n
  {
    hide Digits, DigitChar, Power;
    var q, r := LastDigit(value, base, caps);
    PowerStep(base, n);
    QuotientBelow(q, r, base, Power(base, n - 1));
    if q != 0 { DigitsLength(q, base, caps, n - 1); }
  }

  const UINTMAX_MAX := 0xFFFF_FFFF_FFFF_FFFF
  const MAX_CONVERT_LENGTH := 43

  /** A 64-bit value never reaches the end of the 43 byte buffers. */
  lemma ConvertFits(value: nat, base: nat, caps: bool)
    requires base == 8 || base == 10 || base == 16
    requires value <= UINTMAX_MAX
    ensures |Converted(value, base, caps)| <= (if base == 8 then 22 else if base == 10 then 20 else 16)
    ensures |Converted(value, base, caps)| < MAX_CONVERT_LENGTH
  {
    assert Power(8, 22) == 0x4_0000_0000_0000_0000 by { PowerSquares(8); }
    assert Power(10, 20) == 1_00000_00000_00000_00000 by { PowerSquares(10); }
    assert Power(16, 16) == 0x1_0000_0000_0000_0000 by { PowerSquares(16); }
    DigitsLength(value, base, caps, if base == 8 then 22 else if base == 10 then 20 else 16);
  }

  lemma PowerSquares(base: nat)
    ensures Power(base, 2) == base * base
    ensures Power(base, 4) == Power(base, 2) * Power(base, 2)
    ensures Power(base, 16) == Power(base, 8) * Power(base, 8)
    ensures Power(base, 8) == Power(base, 4) * Power(base, 4)
    ensures Power(base, 20) == Power(base, 16) * Power(base, 4)
    ensures Power(base, 22) == Power(base, 20) * Power(base, 2)
  {
    assert Power(base, 1) == base;
    PowerAdd(base, 2, 2);
    PowerAdd(base, 4, 4);
    PowerAdd(base, 8, 8);
    PowerAdd(base, 16, 4);
    PowerAdd(base, 20, 2);
  }

  lemma ConvertedTail(value: nat, base: nat, caps: bool)
    requires 2 <= base <= 16
    ensures value / base >= 0
    ensures var s := Converted(value, base, caps);
      && s[0] == DigitChar(value % base, caps)
      && s[1..] == if value / base == 0 then [] else Converted(value / base, base, caps)
  {
    hide DigitChar;
    var digit := [DigitChar(value % base, caps)];
    if value / base == 0 {
      assert Converted(value, base, caps) == digit;
    } else {
      HeadAndTail(digit[0], Converted(value / base, base, caps));
    }
  }

  lemma HeadAndTail(ch: char, tail: string)
    ensures ([ch] + tail)[0] == ch && ([ch] + tail)[1..] == tail
  {
  }

  /** The do-while loop of convert(): it stops at the end of the buffer. */
  method Convert(value: nat, buf: array<char>, size: nat, base: nat, caps: bool) returns (pos: nat)
    requires 2 <= base <= 16 && 1 <= size <= buf.Length
    modifies buf
    ensures var all := Converted(value, base, caps);
      && pos == Min(size, |all|)
      && buf[..pos] == all[..pos]
      && (|all| <= size ==> pos == |all| && Reverse(buf[..pos]) == Digits(value, base, caps))
      && forall i :: pos <= i < buf.Length ==> buf[i] == old(buf[i])
  {
    hide Converted, DigitChar, Reverse;
    ghost var all := Converted(value, base, caps);
    var v: nat := value;
    pos := 0;
    while true
      invariant 0 <= pos < size && pos < |all|
      invariant forall i :: 0 <= i < pos ==> buf[i] == all[i]
      invariant all[pos..] == Converted(v, base, caps)
      invariant forall i :: pos <= i < buf.Length ==> buf[i] == old(buf[i])
      decreases v
    {
      ConvertedTail(v, base, caps);
      assert all[pos] == all[pos..][0];
      assert all[pos + 1..] == all[pos..][1..];
      buf[pos] := DigitChar(v % base, caps);
      pos := pos + 1;
      DivMod(v, base);
      v := v / base;
      if !(v != 0 && pos < size) {
        break;
      }
    }
    assert buf[..pos] == all[..pos];
    assert pos == |all| ==> all[..pos] == all;
  }

  // ---- Separators

  /** getnumsep() */
  function GetNumSep(digits: nat): (n: nat)
    requires digits >= 1
    ensures 3 * n < digits <= 3 * n + 3
  {
    (digits - (if digits % 3 == 0 then 1 else 0)) / 3
  }

  /** Digits as the printing loops emit them: a comma wherever a multiple of three
      digits is still to come. */
  function Grouped(digits: string, separate: bool): string {
    if digits == [] then []
    else
      [digits[0]]
      + (if separate && |digits| > 1 && (|digits| - 1) % 3 == 0 then [','] else [])
      + Grouped(digits[1..], separate)
  }

  function StripCommas(s: string): string {
    if s == [] then [] else (if s[0] == ',' then [] else [s[0]]) + StripCommas(s[1..])
  }

  lemma {:induction false} GroupedStrips(digits: string, separate: bool)
    requires forall i :: 0 <= i < |digits| ==> digits[i] != ','
    ensures StripCommas(Grouped(digits, separate)) == digits
    decreases |digits|
  {
    hide StripCommas;
    if digits == [] {
      StripNothing();
    } else {
      var g := Grouped(digits[1..], separate);
      GroupedStrips(digits[1..], separate);
      StripCons(',', g);
      if separate && |digits| > 1 && (|digits| - 1) % 3 == 0 {
        assert Grouped(digits, separate) == [digits[0]] + ([','] + g);
        StripCons(digits[0], [','] + g);
      } else {
        assert Grouped(digits, separate) == [digits[0]] + g;
        StripCons(digits[0], g);
      }
    }
  }

  lemma StripNothing()
    ensures StripCommas("") == ""
  {
  }

  lemma SepStep(n: nat)
    requires n >= 1
    ensures GetNumSep(n + 1) == GetNumSep(n) + if n % 3 == 0 then 1 else 0
    ensures GetNumSep(1) == 0
  {
  }

  lemma {:induction false} GroupedLength(digits: string, separate: bool)
    requires digits != []
    ensures |Grouped(digits, separate)| == |digits| + (if separate then GetNumSep(|digits|) else 0)
    decreases |digits|
  {
    hide GetNumSep;
    if |digits| == 1 {
      SepStep(1);
      assert Grouped(digits[1..], separate) == [];
    } else {
      GroupedLength(digits[1..], separate);
      SepStep(|digits| - 1);
    }
  }

  /** Without commas it is the digits again, and the number of commas is what
      getnumsep() computed in advance. */
  lemma GroupedCount(digits: string, separate: bool)
    requires digits != [] && forall i :: 0 <= i < |digits| ==> digits[i] != ','
    ensures StripCommas(Grouped(digits, separate)) == digits
    ensures |Grouped(digits, separate)| == |digits| + (if separate then GetNumSep(|digits|) else 0)
  {
    GroupedStrips(digits, separate);
    GroupedLength(digits, separate);
  }

  lemma StripCons(ch: char, s: string)
    ensures StripCommas([ch] + s) == (if ch == ',' then [] else [ch]) + StripCommas(s)
  {
    assert ([ch] + s)[1..] == s;
  }

  predicate GroupEnd(m: nat) {
    m % 3 == 0
  }

  /** The places of the commas, counted from the right. */
  predicate Fourth(k: nat) {
    k % 4 == 3
  }

  /** Where a group of three ends, the grouped digits so far are 4n + 3 characters. */
  lemma GroupEnds(m: nat)
    requires m >= 1
    ensures Fourth(m + GetNumSep(m)) <==> GroupEnd(m)
    ensures Fourth(m + GetNumSep(m)) ==> !Fourth(m + GetNumSep(m) + 1)
  {
    var n := GetNumSep(m);
    assert m == 3 * n + 1 || m == 3 * n + 2 || m == 3 * n + 3;
    assert m + n == 4 * n + (m - 3 * n);
  }

  lemma GroupedCons(digits: string)
    requires digits != []
    ensures
      var rest := digits[1..];
      var comma := if rest != [] && GroupEnd(|rest|) then [','] else [];
      Grouped(digits, true) == [digits[0]] + comma + Grouped(rest, true)
  {
  }

  /** Counted from the right, the commas are exactly every fourth character: every
      group after the first has three digits. */
  lemma {:induction false} GroupsOfThree(digits: string, k: nat)
    requires digits != [] && forall i :: 0 <= i < |digits| ==> digits[i] != ','
    requires k < |Grouped(digits, true)|
    ensures var g := Grouped(digits, true);
      g[|g| - 1 - k] == ',' <==> Fourth(k)
    decreases |digits|
  {
    hide GetNumSep, Grouped, GroupEnd, Fourth;
    var rest := digits[1..];
    var g, h := Grouped(digits, true), Grouped(rest, true);
    GroupedCons(digits);
    if rest == [] {
      NoGroups();
    } else {
      GroupedLength(rest, true);
      GroupEnds(|rest|);
      if k < |h| {
        assert g[|g| - 1 - k] == h[|h| - 1 - k];
        GroupsOfThree(rest, k);
      }
    }
  }

  lemma NoGroups()
    ensures Grouped("", true) == "" && !Fourth(0)
  {
  }
}
