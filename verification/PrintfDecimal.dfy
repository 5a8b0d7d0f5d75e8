/** The arithmetic behind fmtflt(), over exact reals: powers of ten, truncation,
    rounding, the decimal exponent, and the split into integer and fraction. */
module PrintfDecimal {
  import opened PrintfText
  import opened PrintfDigits

  // ---- mypow10

  function MyPow10(exponent: int): real
    decreases if exponent < 0 then -exponent else exponent
  {
    if exponent > 0 then 10.0 * MyPow10(exponent - 1)
    else if exponent < 0 then MyPow10(exponent + 1) / 10.0
    else 1.0
  }

  method ComputePow10(exponent_: int) returns (result: real)
    ensures result == MyPow10(exponent_)
  {
    var exponent := exponent_;
    result := 1.0;
    while exponent > 0
      invariant exponent_ >= 0 ==> 0 <= exponent <= exponent_
      invariant exponent_ < 0 ==> exponent == exponent_
      invariant result == MyPow10(if exponent_ >= 0 then exponent_ - exponent else 0)
    {
      result := result * 10.0;
      exponent := exponent - 1;
    }
    while exponent < 0
      invariant exponent_ < 0 ==> exponent_ <= exponent <= 0
      invariant exponent_ >= 0 ==> exponent == 0
      invariant result == MyPow10(if exponent_ < 0 then exponent_ - exponent else exponent_)
      decreases -exponent
    {
      result := result / 10.0;
      exponent := exponent + 1;
    }
  }

  lemma {:induction false} PowPositive(e: int)
    ensures MyPow10(e) > 0.0
    decreases if e < 0 then -e else e
  {
    if e > 0 { PowPositive(e - 1); } else if e < 0 { PowPositive(e + 1); }
  }

  /** One more factor of ten, whatever the sign of the exponent. */
  lemma PowStep(e: int)
    ensures MyPow10(e + 1) == 10.0 * MyPow10(e)
  {
  }

  /** On non-negative exponents it is the integer power. */
  lemma {:induction false} PowIsPower(n: nat)
    ensures MyPow10(n) == Power(10, n) as real
  {
    if n > 0 { PowIsPower(n - 1); }
  }

  // ---- cast and myround

  /** The largest integer not above a non-negative value, or the overflow mark. */
  function Cast(value: real): (r: nat)
    requires value >= 0.0
    ensures r <= UINTMAX_MAX
    ensures value < UINTMAX_MAX as real ==> r as real <= value < r as real + 1.0 && r < UINTMAX_MAX
    ensures value >= UINTMAX_MAX as real ==> r == UINTMAX_MAX
  {
    if value >= UINTMAX_MAX as real then UINTMAX_MAX else value.Floor
  }

  function MyRound(value: real): (r: nat)
    requires value >= 0.0
    ensures value < UINTMAX_MAX as real ==> r == (value + 0.5).Floor
  {
    var intpart := Cast(value);
    if value - intpart as real < 0.5 then intpart else intpart + 1
  }

  // ---- getexponent

  /** The first loop: scale up by tens while below one. */
  function ScaledUp(tmp: real, exponent: int): (r: (real, int))
    decreases exponent + 99
  {
    if 0.0 < tmp < 1.0 then
      if exponent - 1 > -99 then ScaledUp(tmp * 10.0, exponent - 1) else (tmp, exponent - 1)
    else (tmp, exponent)
  }

  /** The second loop: scale down by tens while at least ten. */
  function ScaledDown(tmp: real, exponent: int): (r: (real, int))
    decreases 99 - exponent
  {
    if tmp >= 10.0 then
      if exponent + 1 < 99 then ScaledDown(tmp / 10.0, exponent + 1) else (tmp, exponent + 1)
    else (tmp, exponent)
  }

  function Exponent(value: real): int {
    var (tmp, exponent) := ScaledUp(if value >= 0.0 then value else -value, 0);
    ScaledDown(tmp, exponent).1
  }

  method GetExponent(value: real) returns (exponent: int)
    ensures exponent == Exponent(value)
  {
    var tmp := if value >= 0.0 then value else -value;
    exponent := 0;
    ghost var up := ScaledUp(tmp, 0);
    while tmp < 1.0 && tmp > 0.0
      invariant ScaledUp(tmp, exponent) == up && -99 < exponent <= 0
      decreases exponent + 99
    {
      exponent := exponent - 1;
      if !(exponent > -99) {
        break;
      }
      tmp := tmp * 10.0;
    }
    assert up == (tmp, exponent);
    while tmp >= 10.0
      invariant ScaledDown(tmp, exponent) == ScaledDown(up.0, up.1) && exponent < 99
      decreases 99 - exponent
    {
      exponent := exponent + 1;
      if !(exponent < 99) {
        break;
      }
      tmp := tmp / 10.0;
    }
  }

  lemma TenfoldBounds(t: real, p: real, value: real)
    requires p > 0.0 && t * p == value
    ensures t >= 1.0 ==> value >= p
    ensures t < 1.0 ==> value < p
    ensures t < 10.0 ==> value < 10.0 * p
  {
    if t >= 1.0 { assert (t - 1.0) * p >= 0.0; }
    if t < 1.0 { assert (1.0 - t) * p > 0.0; }
    if t < 10.0 { assert (10.0 - t) * p > 0.0; }
  }

  lemma TenfoldShift(t: real, p: real)
    ensures (t * 10.0) * p == t * (10.0 * p)
    ensures (t / 10.0) * (10.0 * p) == t * p
  {
  }

  lemma {:induction false} UpFits(tmp: real, exponent: int, value: real)
    requires 0.0 < tmp < 10.0 && -98 <= exponent <= 0 && tmp * MyPow10(exponent) == value
    ensures var (t, e) := ScaledUp(tmp, exponent);
      && -99 <= e <= exponent && 0.0 < t < 10.0
      && (e >= -98 ==> MyPow10(e) <= value < MyPow10(e + 1))
      && (e == -99 ==> value < MyPow10(-98))
    decreases exponent + 99
  {
    PowPositive(exponent);
    PowStep(exponent);
    TenfoldBounds(tmp, MyPow10(exponent), value);
    if tmp < 1.0 {
      if exponent - 1 > -99 {
        PowStep(exponent - 1);
        TenfoldShift(tmp, MyPow10(exponent - 1));
        UpFits(tmp * 10.0, exponent - 1, value);
        assert ScaledUp(tmp, exponent) == ScaledUp(tmp * 10.0, exponent - 1);
      }
    } else {
      assert ScaledUp(tmp, exponent) == (tmp, exponent);
    }
  }

  lemma {:induction false} DownFits(tmp: real, exponent: int, value: real)
    requires tmp >= 1.0 && 0 <= exponent <= 98 && tmp * MyPow10(exponent) == value
    ensures var (t, e) := ScaledDown(tmp, exponent);
      && exponent <= e <= 99
      && MyPow10(e) <= value
      && (e <= 98 ==> value < MyPow10(e + 1))
    decreases 99 - exponent
  {
    PowPositive(exponent);
    PowPositive(exponent + 1);
    PowStep(exponent);
    TenfoldShift(tmp, MyPow10(exponent));
    if tmp >= 10.0 {
      TenfoldBounds(tmp / 10.0, MyPow10(exponent + 1), value);
      if exponent + 1 < 99 {
        DownFits(tmp / 10.0, exponent + 1, value);
        assert ScaledDown(tmp, exponent) == ScaledDown(tmp / 10.0, exponent + 1);
      }
    } else {
      TenfoldBounds(tmp, MyPow10(exponent), value);
      assert ScaledDown(tmp, exponent) == (tmp, exponent);
    }
  }

  /** The exponent is the true one for every magnitude from 1e-99 up to 1e100. */
  lemma ExponentFits(value: real)
    requires var m := if value >= 0.0 then value else -value;
      MyPow10(-99) <= m < MyPow10(100)
    ensures var m := if value >= 0.0 then value else -value;
      && -99 <= Exponent(value) <= 99
      && MyPow10(Exponent(value)) <= m < MyPow10(Exponent(value) + 1)
  {
    var m := if value >= 0.0 then value else -value;
    PowPositive(-99);
    if m < 1.0 {
      UpFits(m, 0, m);
    } else {
      DownFits(m, 0, m);
    }
  }

  // ---- The split into an integer and a fractional part

  const MAX_PRECISION := 19

  lemma FractionBounds(mask: real, f: real, x: real)
    requires x == mask * f
    ensures mask > 0.0 && 0.0 <= f < 1.0 ==> 0.0 <= x < mask
  {
    if mask > 0.0 && 0.0 <= f < 1.0 {
      assert mask * (1.0 - f) > 0.0;
    }
  }

  /** The fraction, in units of 1/mask. */
  function Scaled(u: real, mask: nat): (x: real)
    requires u >= 0.0
    ensures u < UINTMAX_MAX as real && mask >= 1 ==> 0.0 <= x < mask as real
  {
    var frac := u - Cast(u) as real;
    var x := mask as real * frac;
    FractionBounds(mask as real, frac, x);
    x
  }

  /** Both parts, with the carry when the fraction rounds up to one. */
  function Split(u: real, mask: nat): (nat, nat)
    requires 0.0 <= u < UINTMAX_MAX as real && mask >= 1
  {
    var fracpart := MyRound(Scaled(u, mask));
    if fracpart >= mask then (Cast(u) + 1, 0) else (Cast(u), fracpart)
  }

  lemma FloorShift(k: int, x: real)
    ensures (k as real + x).Floor == k + x.Floor
  {
  }

  lemma MaskFits(p: nat)
    requires p <= MAX_PRECISION
    ensures 1 <= Power(10, p) < UINTMAX_MAX
  {
    PowerPositive(10, p);
    PowerMonotone(10, p, 19);
    assert Power(10, 19) == 1_0000_00000_00000_00000 by {
      PowerSquares(10);
      PowerAdd(10, 16, 3);
      PowerAdd(10, 2, 1);
      assert Power(10, 1) == 10;
    }
  }

  /** Together the two parts are the value, rounded half up, in units of 1/mask. */
  lemma SplitRounds(u: real, mask: nat)
    requires 0.0 <= u < UINTMAX_MAX as real && 1 <= mask < UINTMAX_MAX
    ensures var (i, f) := Split(u, mask);
      && f < mask
      && i * mask + f == (u * mask as real + 0.5).Floor
      && (i == Cast(u) || (i == Cast(u) + 1 && f == 0))
  {
    var i, x := Cast(u), Scaled(u, mask);
    RoundedBelow(x, mask);
    Distribute(u, i, mask);
    RoundShift(u * mask as real, i * mask, x, (x + 0.5).Floor);
    SplitCarry(i, mask);
  }

  lemma RoundShift(um: real, im: int, x: real, f: int)
    requires um == im as real + x && f == (x + 0.5).Floor
    ensures (um + 0.5).Floor == im + f
  {
    assert um + 0.5 == im as real + (x + 0.5);
    FloorShift(im, x + 0.5);
  }

  lemma RoundedBelow(x: real, mask: nat)
    requires 0.0 <= x < mask as real && mask < UINTMAX_MAX
    ensures MyRound(x) == (x + 0.5).Floor <= mask
  {
  }

  lemma SplitCarry(i: int, mask: int)
    ensures (i + 1) * mask + 0 == i * mask + mask
  {
  }

  lemma Distribute(u: real, i: int, mask: int)
    ensures u * mask as real == (i * mask) as real + mask as real * (u - i as real)
  {
    assert (i * mask) as real == i as real * mask as real;
  }
}
