/**
 * The text that replaces a cubic-centimetre figure: `f"{int(g)/1000:.1f}L"`.
 *
 * Python divides the integer by 1000 into the nearest binary64 value (a
 * 53-bit mantissa, ties to even) and then prints that exact binary value
 * rounded to one decimal place, again with ties to even. Both roundings are
 * written out here on natural numbers, so that the tenth digit is the one
 * Python prints for every input, not only for multiples of 100.
 */
module Litres {
  import opened CharClass

  function Pow2(n: nat): (r: nat)
    ensures r >= 1
  {
    if n == 0 then 1 else 2 * Pow2(n - 1)
  }

  /** 1000 * 2^52: `n / 1000` has a 53-bit mantissa once `n * 2^s` reaches this. */
  const Limit: nat := 1000 * 0x10_0000_0000_0000

  /** `a / b` rounded to the nearest integer, ties to the even one. */
  function RoundHalfEven(a: nat, b: nat): nat
    requires b > 0
  {
    var q, r := a / b, a % b;
    if 2 * r < b then q
    else if 2 * r > b then q + 1
    else if q % 2 == 0 then q
    else q + 1
  }

  /** The rounded quotient is within half of `b` of `a`, measured in multiples of `b`. */
  lemma RoundHalfEvenIsNearest(a: nat, b: nat)
    requires b > 0
    ensures 2 * (b * RoundHalfEven(a, b)) <= 2 * a + b
    ensures 2 * a <= 2 * (b * RoundHalfEven(a, b)) + b
  {
    var q, r := a / b, a % b;
    assert a == b * q + r;
    assert b * (q + 1) == b * q + b;
  }

  /** An integer strictly closer than half of `b` is the rounded quotient. */
  lemma RoundHalfEvenUnique(a: nat, b: nat, q: nat)
    requires b > 0
    requires 2 * (b * q) < 2 * a + b && 2 * a < 2 * (b * q) + b
    ensures RoundHalfEven(a, b) == q
  {
    var p := RoundHalfEven(a, b);
    RoundHalfEvenIsNearest(a, b);
    if p > q {
      assert b * (q + 1) == b * q + b;
      MulMonotone(b, q + 1, p);
    } else if p < q {
      assert b * (p + 1) == b * p + b;
      MulMonotone(b, p + 1, q);
    }
  }

  lemma MulMonotone(b: nat, x: nat, y: nat)
    requires x <= y
    ensures b * x <= b * y
  {
  }

  /**
   * Tenths printed for `x / (1000 * 2^s)`: the value is doubled until its
   * quotient by 1000 has a 53-bit mantissa, rounded to that mantissa, and
   * the mantissa, divided by `2^s`, rounded to tenths.
   */
  function TenthsScaled(x: nat, s: nat): nat
    requires x >= 1
    decreases Limit - x
  {
    if x >= Limit then RoundHalfEven(10 * RoundHalfEven(x, 1000), Pow2(s))
    else TenthsScaled(2 * x, s + 1)
  }

  /** Tenths of the value Python prints for `n / 1000` with one decimal place. */
  function Tenths(n: nat): nat
  {
    if n == 0 then 0 else TenthsScaled(n, 0)
  }

  /** Once `100 * k` is scaled by `p` past `Limit`, both roundings give back `k` tenths. */
  lemma RoundedOfHundreds(k: nat, p: nat)
    requires 1 <= k < 100 && p >= 1 && 100 * k * p >= Limit
    ensures RoundHalfEven(10 * RoundHalfEven(100 * k * p, 1000), p) == k
  {
    var q := k * p;
    var x := 100 * q;
    assert 100 * k * p == x;
    // x <= 9900 * p, so p is far above the 1000 the roundings divide by
    MulMonotone(p, k, 99);
    assert q <= 99 * p;
    assert 9900 * p >= Limit;
    var mantissa := RoundHalfEven(x, 1000);
    RoundHalfEvenIsNearest(x, 1000);
    assert 2000 * mantissa <= 200 * q + 1000 && 200 * q <= 2000 * mantissa + 1000;
    assert 10 * mantissa <= q + 5 && q <= 10 * mantissa + 5;
    assert p * k == q;
    RoundHalfEvenUnique(10 * mantissa, p, k);
  }

  /** A multiple of 100 below 10000, however far it is scaled, prints exactly. */
  lemma {:induction false} TenthsScaledOfHundreds(k: nat, x: nat, s: nat)
    requires 1 <= k < 100 && x == 100 * k * Pow2(s)
    ensures TenthsScaled(x, s) == k
    decreases Limit - x
  {
    if x < Limit {
      assert 2 * x == 100 * k * Pow2(s + 1);
      TenthsScaledOfHundreds(k, 2 * x, s + 1);
    } else {
      RoundedOfHundreds(k, Pow2(s));
    }
  }

  /** For a multiple of 100 below 10000 the printed value is exact: 1600 gives 16 tenths. */
  lemma TenthsOfHundreds(k: nat)
    requires k < 100
    ensures Tenths(100 * k) == k
  {
    if k > 0 {
      TenthsScaledOfHundreds(k, 100 * k, 0);
    }
  }

  /** Once `n` is scaled by `p` past `Limit`, the two roundings land within half a tenth of `n / 100`. */
  lemma RoundedNearest(n: nat, p: nat)
    requires 1 <= n < 10000 && n * p >= Limit
    ensures var t := RoundHalfEven(10 * RoundHalfEven(n * p, 1000), p);
      100 * t <= n + 50 && n <= 100 * t + 50
  {
    ScaleIsLarge(n, p);
    var x := n * p;
    var m := RoundHalfEven(x, 1000);
    var t := RoundHalfEven(10 * m, p);
    RoundHalfEvenIsNearest(x, 1000);
    RoundHalfEvenIsNearest(10 * m, p);
    TwoRoundings(n, p, m, t);
  }

  /** The two rounding errors, added up, stay below half a tenth once `p` exceeds 1000. */
  lemma TwoRoundings(n: nat, p: nat, m: nat, t: nat)
    requires p > 1000
    requires 2000 * m <= 2 * (n * p) + 1000 && 2 * (n * p) <= 2000 * m + 1000
    requires 2 * (p * t) <= 20 * m + p && 20 * m <= 2 * (p * t) + p
    ensures 100 * t <= n + 50 && n <= 100 * t + 50
  {
    assert p * (200 * t - 2 * n - 100) == 200 * (p * t) - 2 * (n * p) - 100 * p;
    SmallMultiple(p, 200 * t - 2 * n - 100);
    assert p * (2 * n - 200 * t - 100) == 2 * (n * p) - 200 * (p * t) - 100 * p;
    SmallMultiple(p, 2 * n - 200 * t - 100);
  }

  /** `n * p` only reaches `Limit` for `n` below 10000 when `p` exceeds 1000. */
  lemma ScaleIsLarge(n: nat, p: nat)
    requires n < 10000 && n * p >= Limit
    ensures p > 1000
  {
    if p <= 1000 {
      MulMonotone(p, n, 10000);
    }
  }

  /** A multiple of `p` that is at most 1000, with `p` above 1000, is not positive. */
  lemma SmallMultiple(p: nat, k: int)
    requires p > 1000 && p * k <= 1000
    ensures k <= 0
  {
    if k >= 1 {
      MulMonotone(p, 1, k);
    }
  }

  /** The printed tenths of `n / 1000` are within half a tenth of it, at any scaling. */
  lemma {:induction false} TenthsScaledNearest(n: nat, x: nat, s: nat)
    requires 1 <= n < 10000 && x == n * Pow2(s)
    ensures 100 * TenthsScaled(x, s) <= n + 50 && n <= 100 * TenthsScaled(x, s) + 50
    decreases Limit - x
  {
    if x < Limit {
      assert 2 * x == n * Pow2(s + 1);
      TenthsScaledNearest(n, 2 * x, s + 1);
    } else {
      RoundedNearest(n, Pow2(s));
    }
  }

  /**
   * `f"{n/1000:.1f}"` for any `n` below 10000 prints `n / 1000` to the
   * nearest tenth; on a tie (1250, 1650) either neighbour can come out.
   */
  lemma TenthsNearest(n: nat)
    requires n < 10000
    ensures 100 * Tenths(n) <= n + 50 && n <= 100 * Tenths(n) + 50
  {
    if n > 0 {
      TenthsScaledNearest(n, n, 0);
    }
  }

  /** Python's `str(n)` for a natural number. */
  function DecimalText(n: nat): (r: string)
    ensures |r| >= 1
    ensures forall k :: 0 <= k < |r| ==> IsDigit(r[k])
    ensures DigitsValue(r) == n
    ensures r[0] == '0' ==> n == 0
  {
    if n < 10 then [Digit(n)]
    else
      var h := DecimalText(n / 10);
      assert (h + [Digit(n % 10)])[..|h|] == h;
      h + [Digit(n % 10)]
  }

  /** `int(d)` for a string of ASCII digits. */
  function DigitsValue(d: string): nat
    requires forall k :: 0 <= k < |d| ==> IsDigit(d[k])
  {
    if d == [] then 0
    else
      assert IsDigit(d[|d| - 1]);
      10 * DigitsValue(d[..|d| - 1]) + (d[|d| - 1] as int - '0' as int)
  }

  /** The ASCII digit for `d`. */
  function Digit(d: nat): (c: char)
    requires d < 10
    ensures '0' <= c <= '9'
  {
    (48 + d) as char
  }

  /** `f"{n/1000:.1f}L"`. */
  function LitresText(n: nat): (r: string)
    ensures |r| >= 4 && r[|r| - 1] == 'L' && r[|r| - 3] == '.'
    ensures forall c :: c in r ==> c == 'L' || c == '.' || '0' <= c <= '9'
  {
    var t := Tenths(n);
    DecimalText(t / 10) + "." + [Digit(t % 10)] + "L"
  }

  /** Multiples of 100 print as whole litres and tenths: 1600 gives "1.6L", 100 gives "0.1L". */
  lemma LitresOfHundreds(k: nat)
    requires k < 100
    ensures LitresText(100 * k) == DecimalText(k / 10) + "." + [Digit(k % 10)] + "L"
  {
    TenthsOfHundreds(k);
  }
}
