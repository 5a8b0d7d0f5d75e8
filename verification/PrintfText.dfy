/** Texts, digits and numbers: what the formatter's output is made of, and how it is
    read back. */
module PrintfText {

  function Max(a: int, b: int): int {
    if a >= b then a else b
  }

  function Min(a: int, b: int): int {
    if a <= b then a else b
  }

  function Repeat(ch: char, n: int): (s: string)
    ensures |s| == Max(n, 0) && forall i :: 0 <= i < |s| ==> s[i] == ch
    decreases n
  {
    if n <= 0 then [] else [ch] + Repeat(ch, n - 1)
  }

  lemma {:induction false} RepeatSnoc(ch: char, n: nat)
    ensures Repeat(ch, n + 1) == Repeat(ch, n) + [ch]
  {
  }

  function Reverse(s: string): (r: string)
    ensures |r| == |s| && forall i :: 0 <= i < |s| ==> r[i] == s[|s| - 1 - i]
  {
    if s == [] then [] else Reverse(s[1..]) + [s[0]]
  }

  lemma Join3(s: string, a: string, b: string, c: string)
    ensures s + a + b + c == s + (a + b + c)
  {
  }

  lemma Join4(s: string, a: string, b: string, c: string, d: string)
    ensures s + a + b + c + d == s + (a + b + c + d)
  {
  }

  // ---- Reading

  /** The longest prefix of characters from a class. */
  function Span(s: string, class_: char -> bool): (k: nat)
    ensures k <= |s| && (forall i :: 0 <= i < k ==> class_(s[i]))
    ensures k < |s| ==> !class_(s[k])
  {
    if s == [] || !class_(s[0]) then 0 else 1 + Span(s[1..], class_)
  }

  lemma SpanExact(a: string, b: string, class_: char -> bool)
    requires forall i :: 0 <= i < |a| ==> class_(a[i])
    requires b == [] || !class_(b[0])
    ensures Span(a + b, class_) == |a|
    ensures (a + b)[..|a|] == a && (a + b)[|a|..] == b
  {
    assert forall i :: 0 <= i < |a| ==> (a + b)[i] == a[i];
    assert b != [] ==> (a + b)[|a|] == b[0];
  }

  // ---- Digits

  predicate IsDecimal(ch: char) {
    '0' <= ch <= '9'
  }

  function DigitChar(d: nat, caps: bool): char
    requires d < 16
  {
    if caps then "0123456789ABCDEF"[d] else "0123456789abcdef"[d]
  }

  /** The value of a digit in any base up to sixteen; 16 for what is no digit. */
  function DigitValue(ch: char): nat {
    if '0' <= ch <= '9' then ch as int - '0' as int
    else if 'a' <= ch <= 'f' then ch as int - 'a' as int + 10
    else if 'A' <= ch <= 'F' then ch as int - 'A' as int + 10
    else 16
  }

  lemma DigitCharValue(d: nat, caps: bool)
    requires d < 16
    ensures DigitValue(DigitChar(d, caps)) == d
    ensures d < 10 ==> IsDecimal(DigitChar(d, caps))
    ensures DigitChar(d, caps) == '0' <==> d == 0
  {
  }

  predicate AllDigits(s: string, base: nat) {
    forall i :: 0 <= i < |s| ==> DigitValue(s[i]) < base
  }

  /** The number a string of digits denotes, most significant digit first. */
  function Value(s: string, base: nat): nat {
    if s == [] then 0 else Value(s[..|s| - 1], base) * base + DigitValue(s[|s| - 1])
  }

  function Power(base: nat, n: nat): nat {
    if n == 0 then 1 else base * Power(base, n - 1)
  }

  lemma Regroup(a: int, p: int, c: int, b: int)
    ensures (a * p + c) * b == a * (b * p) + c * b
  {
    assert (a * p) * b == a * (b * p);
  }

  lemma ScaleStep(a: nat, p: nat, b: nat, d: nat)
    requires a < p && d < b
    ensures a * b + d < b * p
  {
    assert (a + 1) * b <= p * b;
  }

  lemma ScaleUp(a: nat, b: nat)
    requires b >= 1
    ensures a <= a * b
  {
  }

  lemma {:induction false} ValueAppend(a: string, b: string, base: nat)
    ensures Value(a + b, base) == Value(a, base) * Power(base, |b|) + Value(b, base)
    decreases |b|
  {
    if b == [] {
      assert a + b == a;
    } else {
      var c := b[..|b| - 1];
      assert (a + b)[..|a + b| - 1] == a + c;
      ValueAppend(a, c, base);
      var va, p, vc, d := Value(a, base), Power(base, |c|), Value(c, base), DigitValue(b[|b| - 1]);
      assert Value(a + b, base) == (va * p + vc) * base + d;
      Regroup(va, p, vc, base);
    }
  }

  lemma {:induction false} ValueZeros(n: nat, s: string, base: nat)
    ensures Value(Repeat('0', n) + s, base) == Value(s, base)
  {
    ValueAppend(Repeat('0', n), s, base);
    ValueOfZeros(n, base);
  }

  lemma {:induction false} ValueOfZeros(n: nat, base: nat)
    ensures Value(Repeat('0', n), base) == 0
  {
    hide Repeat;
    if n > 0 {
      ValueOfZeros(n - 1, base);
      assert Repeat('0', n)[..n - 1] == Repeat('0', n - 1);
    }
  }

  lemma {:induction false} ValueBound(s: string, base: nat)
    requires base >= 1 && AllDigits(s, base)
    ensures Value(s, base) < Power(base, |s|)
  {
    if s != [] {
      var c := s[..|s| - 1];
      ValueBound(c, base);
      ScaleStep(Value(c, base), Power(base, |c|), base, DigitValue(s[|s| - 1]));
    }
  }

  lemma {:induction false} PowerPositive(base: nat, n: nat)
    requires base >= 1
    ensures Power(base, n) >= 1
  {
    if n > 0 { PowerPositive(base, n - 1); }
  }

  lemma {:induction false} PowerAdd(base: nat, m: nat, n: nat)
    ensures Power(base, m + n) == Power(base, m) * Power(base, n)
  {
    if m > 0 {
      PowerAdd(base, m - 1, n);
      Associates(base, Power(base, m - 1), Power(base, n));
    }
  }

  lemma Associates(a: nat, b: nat, c: nat)
    ensures a * (b * c) == (a * b) * c
  {
  }

  lemma {:induction false} PowerMonotone(base: nat, m: nat, n: nat)
    requires base >= 1 && m <= n
    ensures Power(base, m) <= Power(base, n)
  {
    PowerAdd(base, m, n - m);
    PowerPositive(base, n - m);
    ScaleUp(Power(base, m), Power(base, n - m));
  }
}
