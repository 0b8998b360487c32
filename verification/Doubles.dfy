/**
 * Double-precision arithmetic as far as IMAGE_Resize uses it: a real is rounded to the nearest number with 53
 * significant bits, ties to even. Exponents are unbounded, since no operand here comes near the limits of a double.
 */
module Doubles {

  /** The integer nearest to x, ties to even. */
  function HalfEven(x: real): (n: int)
    ensures -0.5 <= n as real - x <= 0.5
    ensures n == x.Floor || n == x.Floor + 1
  {
    var n := x.Floor;
    var f := x - n as real;
    if f < 0.5 || (f == 0.5 && n % 2 == 0) then n else n + 1
  }

  function Distance(x: real): (d: nat)
    requires x > 0.0
  {
    if x >= 9007199254740992.0 then x.Floor
    else if x < 4503599627370496.0 then (4503599627370496.0 / x).Floor
    else 0
  }

  lemma HalvingCloser(x: real)
    requires x >= 9007199254740992.0
    ensures Distance(x / 2.0) < Distance(x)
  {
  }

  lemma DoublingCloser(x: real)
    requires 0.0 < x < 4503599627370496.0
    ensures Distance(2.0 * x) < Distance(x)
  {
    var r := 4503599627370496.0 / x;
    assert r * x == 4503599627370496.0;
    assert r > 1.0;
    assert 4503599627370496.0 / (2.0 * x) == r / 2.0;
  }

  /** Scales x to 53 integer bits, rounds there, and scales back. */
  function RoundPositive(x: real): (y: real)
    requires x > 0.0
    ensures y > 0.0
    decreases Distance(x)
  {
    if x >= 9007199254740992.0 then
      HalvingCloser(x);
      2.0 * RoundPositive(x / 2.0)
    else if x < 4503599627370496.0 then
      DoublingCloser(x);
      RoundPositive(2.0 * x) / 2.0
    else HalfEven(x) as real
  }

  function RoundDouble(x: real): (y: real)
    ensures x > 0.0 ==> y > 0.0
    ensures x < 0.0 ==> y < 0.0
    ensures x == 0.0 ==> y == 0.0
  {
    if x > 0.0 then RoundPositive(x) else if x < 0.0 then -RoundPositive(-x) else 0.0
  }

  /** y is x up to a relative error of 2^-53. */
  predicate Near(y: real, x: real) {
    -x <= (y - x) * 9007199254740992.0 <= x
  }

  lemma {:induction false} RoundIsNear(x: real)
    requires x > 0.0
    ensures Near(RoundPositive(x), x)
    decreases Distance(x)
  {
    if x >= 9007199254740992.0 {
      HalvingCloser(x);
      RoundIsNear(x / 2.0);
    } else if x < 4503599627370496.0 {
      DoublingCloser(x);
      RoundIsNear(2.0 * x);
    }
  }

  /** Integers of 53 bits are doubles. */
  lemma {:induction false} IntegersExact(n: nat)
    requires 0 < n <= 0x20_0000_0000_0000
    ensures RoundPositive(n as real) == n as real
    decreases Distance(n as real)
  {
    var x := n as real;
    if x >= 9007199254740992.0 {
      HalvingCloser(x);
      IntegersExact(n / 2);
    } else if x < 4503599627370496.0 {
      DoublingCloser(x);
      IntegersExact(2 * n);
    }
  }

  /** And so are their halves. */
  lemma HalvesExact(n: nat)
    requires 0 < n <= 0x10_0000_0000_0000
    ensures RoundPositive(n as real / 2.0) == n as real / 2.0
  {
    IntegersExact(n);
  }

  /** One step of the scaling. */
  lemma Doubled(x: real)
    requires 0.0 < x < 4503599627370496.0
    ensures RoundPositive(2.0 * x) == 2.0 * RoundPositive(x)
  {
  }

  /** Rounding never crosses an integer of 53 bits downwards. */
  lemma {:induction false} RoundAtLeast(x: real, n: nat, r: real)
    requires x > 0.0 && r == n as real && x >= r && r <= 9007199254740992.0
    ensures RoundPositive(x) >= r
    decreases Distance(x)
  {
    if x >= 9007199254740992.0 {
      HalvingCloser(x);
      RoundAtLeast(x / 2.0, 4503599627370496, 4503599627370496.0);
    } else if x < 4503599627370496.0 {
      Doubled(x);
      DoublingCloser(x);
      RoundAtLeast(2.0 * x, 2 * n, 2.0 * r);
    } else {
      assert x.Floor >= n;
    }
  }

  lemma {:induction false} RoundAtMost(x: real, n: nat, r: real)
    requires 0.0 < x <= r && r == n as real && r <= 9007199254740992.0
    ensures RoundPositive(x) <= r
    decreases Distance(x)
  {
    if x >= 9007199254740992.0 {
      IntegersExact(0x20_0000_0000_0000);
    } else if x < 4503599627370496.0 {
      Doubled(x);
      DoublingCloser(x);
      if n <= 4503599627370496 {
        RoundAtMost(2.0 * x, 2 * n, 2.0 * r);
      } else {
        RoundAtMost(2.0 * x, 9007199254740992, 9007199254740992.0);
      }
    } else {
      assert HalfEven(x) <= n;
    }
  }

  /** Rounding keeps the order. */
  lemma {:induction false} RoundMonotone(x: real, y: real)
    requires 0.0 < x <= y
    ensures RoundPositive(x) <= RoundPositive(y)
    decreases Distance(x)
  {
    if x >= 9007199254740992.0 {
      HalvingCloser(x);
      RoundMonotone(x / 2.0, y / 2.0);
    } else if y >= 9007199254740992.0 {
      RoundAtMost(x, 9007199254740992, 9007199254740992.0);
      RoundAtLeast(y, 9007199254740992, 9007199254740992.0);
    } else if y < 4503599627370496.0 {
      Doubled(x);
      Doubled(y);
      DoublingCloser(x);
      RoundMonotone(2.0 * x, 2.0 * y);
    } else if x < 4503599627370496.0 {
      RoundAtMost(x, 4503599627370496, 4503599627370496.0);
      RoundAtLeast(y, 4503599627370496, 4503599627370496.0);
    } else {
      HalfEvenMonotone(x, y);
    }
  }

  lemma HalfEvenMonotone(x: real, y: real)
    requires x <= y
    ensures HalfEven(x) <= HalfEven(y)
  {
    assert x.Floor <= y.Floor;
  }

  /** Rounding a double leaves it as it is. */
  lemma {:induction false} RoundIdempotent(x: real)
    requires x > 0.0
    ensures RoundPositive(RoundPositive(x)) == RoundPositive(x)
    decreases Distance(x)
  {
    if x >= 9007199254740992.0 {
      HalvingCloser(x);
      RoundIdempotent(x / 2.0);
      DoubledAlways(RoundPositive(x / 2.0));
    } else if x < 4503599627370496.0 {
      DoublingCloser(x);
      RoundIdempotent(2.0 * x);
      DoubledAlways(RoundPositive(x));
    } else {
      IntegersExact(HalfEven(x));
    }
  }

  lemma DoubledAlways(x: real)
    requires x > 0.0
    ensures RoundPositive(2.0 * x) == 2.0 * RoundPositive(x)
  {
    if x < 4503599627370496.0 { Doubled(x); }
  }

  lemma RoundDoubleMonotone(x: real, y: real)
    requires 0.0 <= x <= y
    ensures 0.0 <= RoundDouble(x) <= RoundDouble(y)
  {
    if x > 0.0 { RoundMonotone(x, y); }
  }

  /** x doubled k times. */
  function Scaled(x: real, k: nat): (y: real)
    requires x > 0.0
    ensures y >= x
    decreases k
  {
    if k == 0 then x else Scaled(2.0 * x, k - 1)
  }

  /** Doubling below 2^53 commutes with rounding. */
  lemma {:induction false} RoundScaled(x: real, k: nat)
    requires x > 0.0 && Scaled(x, k) < 9007199254740992.0
    ensures RoundPositive(Scaled(x, k)) == Scaled(RoundPositive(x), k)
    decreases k
  {
    if k > 0 {
      Doubled(x);
      RoundScaled(2.0 * x, k - 1);
    }
  }

  lemma ScaledByTen(x: real, k: nat)
    requires x > 0.0
    ensures Scaled(x, k + 10) == Scaled(1024.0 * x, k)
  {
    assert Scaled(x, k + 10) == Scaled(4.0 * x, k + 8) == Scaled(16.0 * x, k + 6);
    assert Scaled(16.0 * x, k + 6) == Scaled(64.0 * x, k + 4) == Scaled(256.0 * x, k + 2);
  }

  /** (int) of a double: the fraction is dropped, toward zero. */
  function Truncate(x: real): int {
    if x >= 0.0 then x.Floor else -((-x).Floor)
  }

  // Errors of a quotient of quotients, for positive integers i, s, d: i / (d / s) against i * s / d.

  lemma MulLe(a: real, b: real, m: real)
    requires a <= b && m >= 0.0
    ensures a * m <= b * m
  {
  }

  lemma NearScales(y: real, x: real, m: real)
    requires Near(y, x) && m >= 0.0
    ensures Near(y * m, x * m)
  {
    var e := (y - x) * 9007199254740992.0;
    MulLe(e, x, m);
    MulLe(-x, e, m);
    var u, v := y * m, x * m;
    assert (y - x) * m == u - v;
    assert e * m == (u - v) * 9007199254740992.0;
  }

  /** Two rounded divisions: the result times d is within three units of 2^-53 of i * s, relatively. */
  lemma QuotientError(i: real, s: real, d: real, D: real, q: real)
    requires i > 0.0 && s > 0.0 && d > 0.0 && D > 0.0
    requires Near(D, d / s) && Near(q, i / D)
    ensures -3.0 * (i * s) <= (q * d - i * s) * 9007199254740992.0 <= 3.0 * (i * s)
  {
    var x, Q := d / s, i / D;
    assert x * s == d && Q * D == i;
    var X, T, A := i * s, Q * d, D * s;
    NearScales(D, x, s);
    NearScales(A, d, Q);
    Rearrange(Q, D, s);
    assert A * Q == X && d * Q == T;
    NearScales(q, Q, d);
    var Z := q * d;
    assert Near(X, T) && Near(Z, T);
  }

  lemma Rearrange(a: real, b: real, c: real)
    ensures b * c * a == a * b * c
  {
  }

  lemma {:induction false} RealProduct(a: int, b: nat)
    ensures (a * b) as real == a as real * b as real
  {
    if b > 0 {
      RealProduct(a, b - 1);
      assert a * b == a * (b - 1) + a;
      assert a as real * b as real == a as real * (b - 1) as real + a as real;
    }
  }

  lemma RoundedTwice(i: real, s: real, d: real, q: real, x: real, y: real)
    requires i > 0.0 && s > 0.0 && d > 0.0 && q == RoundDouble(i / RoundDouble(d / s))
    requires x == i * s && y == q * d
    ensures q > 0.0 && -3.0 * x <= (y - x) * 9007199254740992.0 <= 3.0 * x
  {
    var D := RoundDouble(d / s);
    RoundIsNear(d / s);
    RoundIsNear(i / D);
    QuotientError(i, s, d, D, q);
  }

  lemma ThreeUnits(y: real, x: real)
    requires 0.0 <= x <= 281474976710656.0 && -3.0 * x <= (y - x) * 9007199254740992.0 <= 3.0 * x
    ensures x - 0.1 < y < x + 0.1
  {
  }

  lemma ProductPositive(a: real, b: real)
    requires a > 0.0 && b > 0.0
    ensures a * b > 0.0
  {
  }

  lemma QuotientAtLeast(a: real, b: real, k: real)
    requires b > 0.0 && a >= k * b
    ensures a / b >= k
  {
    var x := a / b;
    assert x * b == a;
    if x < k { ProductPositive(k - x, b); }
  }

  lemma QuotientIs(a: real, b: real, x: real)
    requires b > 0.0 && x * b == a
    ensures a / b == x
  {
  }

  lemma Twice(a: real, b: real)
    requires b >= 1.0 && a > 0.0
    ensures 2.0 * (a / b) == 2.0 * a / b
    ensures a / b <= a
  {
    var x := a / b;
    assert x * b == a;
    MulLe(1.0, b, x);
  }

  predicate PowerOfTwo(f: nat) {
    f == 1 || (f > 1 && f % 2 == 0 && PowerOfTwo(f / 2))
  }

  lemma {:induction false} PowersExact(f: nat, x: real)
    requires PowerOfTwo(f) && x > 0.0 && x * f as real == 1.0
    ensures RoundPositive(x) == x
  {
    if f == 1 {
      IntegersExact(1);
    } else {
      HalfDivisor(x, f, f / 2);
      PowersExact(f / 2, 2.0 * x);
      Doubled(x);
    }
  }

  lemma HalfDivisor(x: real, f: nat, h: nat)
    requires x > 0.0 && h >= 1 && f == 2 * h && x * f as real == 1.0
    ensures x <= 1.0 && 2.0 * x * h as real == 1.0
  {
    assert f as real == 2.0 * h as real;
    MulLe(1.0, f as real, x);
  }

  lemma PowersHaveReciprocals(f: nat)
    requires PowerOfTwo(f)
    ensures RoundDouble(1.0 / f as real) == 1.0 / f as real
  {
    var x := 1.0 / f as real;
    assert x * f as real == 1.0;
    PowersExact(f, x);
  }

  lemma HalfEvenIs(y: real, m: int, n: int)
    requires n as real - 0.5 < y < n as real + 0.5 && -0.5 <= m as real - y <= 0.5
    ensures m == n
  {
    assert -1.0 < (m - n) as real < 1.0;
  }

  lemma RoundsTo(y: real, n: int)
    requires 4503599627370496.0 <= y < 9007199254740992.0 && n as real - 0.5 < y < n as real + 0.5
    ensures RoundPositive(y) == n as real
  {
    HalfEvenIs(y, HalfEven(y), n);
  }

  lemma ScaledBy46(x: real)
    requires x > 0.0
    ensures Scaled(x, 46) == 70368744177664.0 * x
  {
    ScaledByTen(x, 36);
    ScaledByTen(1024.0 * x, 26);
    ScaledByTen(1048576.0 * x, 16);
    ScaledByTen(1073741824.0 * x, 6);
    var y := 1099511627776.0 * x;
    assert Scaled(y, 6) == Scaled(4.0 * y, 4) == Scaled(16.0 * y, 2);
  }

  lemma ScaledBy51(x: real)
    requires x > 0.0
    ensures Scaled(x, 51) == 2251799813685248.0 * x
  {
    ScaledByTen(x, 41);
    ScaledByTen(1024.0 * x, 31);
    ScaledByTen(1048576.0 * x, 21);
    ScaledByTen(1073741824.0 * x, 11);
    ScaledByTen(1099511627776.0 * x, 1);
  }

  lemma ScaledBy59(x: real)
    requires x > 0.0
    ensures Scaled(x, 59) == 576460752303423488.0 * x
  {
    ScaledByTen(x, 49);
    ScaledByTen(1024.0 * x, 39);
    ScaledByTen(1048576.0 * x, 29);
    ScaledByTen(1073741824.0 * x, 19);
    ScaledByTen(1099511627776.0 * x, 9);
    var y := 1125899906842624.0 * x;
    assert Scaled(y, 9) == Scaled(4.0 * y, 7) == Scaled(16.0 * y, 5) == Scaled(64.0 * y, 3) == Scaled(256.0 * y, 1);
  }

  lemma RoundsTo51(x: real, n: int)
    requires x > 0.0 && 4503599627370496.0 <= 2251799813685248.0 * x < 9007199254740992.0
    requires n as real - 0.5 < 2251799813685248.0 * x < n as real + 0.5
    ensures RoundPositive(x) * 2251799813685248.0 == n as real
  {
    ScaledBy51(x);
    RoundScaled(x, 51);
    RoundsTo(Scaled(x, 51), n);
    ScaledBy51(RoundPositive(x));
  }

  /** 1 / 93 is rounded up. */
  lemma ReciprocalOf93()
    ensures RoundPositive(1.0 / 93.0) * 576460752303423488.0 == 6198502712940038.0
  {
    var x := 1.0 / 93.0;
    ScaledBy59(x);
    RoundScaled(x, 59);
    ScaledBy59(RoundPositive(x));
    RoundsTo(Scaled(x, 59), 6198502712940038);
  }

  /** Dividing 1 by the result falls one unit in the last place short of 93. */
  lemma FallsShort(D: real)
    requires D * 576460752303423488.0 == 6198502712940038.0
    ensures D > 0.0 && 0.0 < RoundPositive(1.0 / D) < 93.0
  {
    var z := 1.0 / D;
    assert z * D == 1.0;
    assert z * 6198502712940038.0 == z * D * 576460752303423488.0;
    ScaledBy46(z);
    RoundScaled(z, 46);
    ScaledBy46(RoundPositive(z));
    RoundsTo(Scaled(z, 46), 6544293208522751);
  }

  /** 18 / 7 is rounded up, so 9 / (18 / 7) falls one unit in the last place short of three and a half. */
  lemma FallsShortOfHalf(D: real, q: real, r: real)
    requires D == RoundPositive(18.0 / 7.0) && q == RoundPositive(9.0 / D) && r == RoundPositive(q + 0.5)
    ensures 3.0 < r < 4.0
  {
    var x, z := 18.0 / 7.0, 9.0 / D;
    RoundsTo51(x, 5790342378047781);
    assert z * D == 9.0;
    assert z * 5790342378047781.0 == z * D * 2251799813685248.0;
    RoundsTo51(z, 7881299347898367);
    RoundsTo51(q + 0.5, 9007199254740991);
  }
}
