/** Which source row (or column) the rounded quotients of IMAGE_Resize pick, in whole numbers. */
module IndexRounding {
  import opened Bytes
  import opened Doubles
  import opened Layout
  import opened Resize

  /**
   * The index for position i is within half a source step of i * src / dst (three channels) or less than one below
   * (one channel). At an exact tie rounding may go either way, unless the size ratio is a whole number.
   */
  predicate Admissible(n: int, i: int, src: int, dst: int, c: int)
    requires src > 0 && dst > 0
  {
    && n >= 0
    && (c == 1 ==> n * dst <= i * src <= n * dst + dst)
    && (c == 3 ==> -dst <= 2 * (n * dst - i * src) <= dst)
    && (dst % src == 0 && c == 1 ==> i * src < n * dst + dst)
    && (dst % src == 0 && c == 3 ==> -dst < 2 * (n * dst - i * src))
  }

  /** The sizes for which three roundings cannot leave that range; both sides below 2^24 suffice. */
  predicate Precise(src: int, dst: int) {
    src > 0 && dst > 0 && src * dst <= 0x1_0000_0000_0000
  }

  lemma PositionBounds(i: int, src: int, dst: int)
    requires 0 < i < dst && src > 0
    ensures 0 <= i * src <= src * dst
  {
    MulMono(i, dst, src);
    MulMono(0, i, src);
  }

  /** The quotient of doubles, times dst, is i * src up to a tenth. */
  lemma QuotientClose(i: int, src: int, dst: int, q: real, x: int, y: real)
    requires 0 < i < dst && Precise(src, dst)
    requires q == RoundDouble(i as real / RoundDouble(dst as real / src as real))
    requires x == i * src && y == q * dst as real
    ensures q > 0.0 && 0 <= x <= 0x1_0000_0000_0000 && x as real - 0.1 < y < x as real + 0.1
  {
    PositionBounds(i, src, dst);
    RealProduct(i, src);
    RoundedTwice(i as real, src as real, dst as real, q, x as real, y);
    ThreeUnits(y, x as real);
  }

  /** x is a whole number of 1/dst steps, and the computed index n covers it up to less than one step. */
  lemma FloorClose(x: int, dst: int, q: real, n: int, y: real)
    requires x >= 0 && dst > 0 && q > 0.0 && y == q * dst as real
    requires x as real - 0.1 < y < x as real + 0.1
    requires n as real <= q < n as real + 1.0
    ensures n * dst <= x <= n * dst + dst
  {
    Steps(n, dst, q, y);
  }

  lemma Steps(n: int, dst: int, q: real, y: real)
    requires dst > 0 && y == q * dst as real && n as real <= q < n as real + 1.0 && q > 0.0
    ensures n >= 0 && (n * dst) as real <= y <= (n * dst) as real + dst as real
  {
    RealProduct(n, dst);
    MulLe(n as real, q, dst as real);
    MulLe(q, n as real + 1.0, dst as real);
  }

  lemma RoundClose(x: int, dst: int, q: real, r: real, n: int, y: real)
    requires 0 <= x <= 0x1_0000_0000_0000 && 0 < dst <= 0x1_0000_0000_0000 && q > 0.0 && r > 0.0
    requires y == q * dst as real && x as real - 0.1 < y < x as real + 0.1
    requires Near(r, q + 0.5) && n as real <= r < n as real + 1.0
    ensures -dst <= 2 * (n * dst - x) <= dst
  {
    var d := dst as real;
    var z := r * d;
    NearScales(r, q + 0.5, d);
    assert (q + 0.5) * d == y + d / 2.0;
    NearBy(z, y, d, x as real);
    Steps(n, dst, r, z);
    var p := n * dst;
    assert p as real - 0.4 < x as real + d / 2.0 < p as real + d + 0.4;
  }

  lemma NearBy(z: real, y: real, d: real, x: real)
    requires Near(z, y + d / 2.0) && 0.0 < d <= 281474976710656.0 && x - 0.1 < y < x + 0.1
    requires 0.0 <= x <= 281474976710656.0
    ensures x - 0.4 < z - d / 2.0 < x + 0.4
  {
  }

  // Whole-number size ratios: the first quotient is exact, and rounding never crosses a half downwards.

  lemma RatioIs(src: int, f: int)
    requires 0 < src && 0 < f <= 0x20_0000_0000_0000
    ensures RoundDouble((f * src) as real / src as real) == f as real
  {
    RealProduct(f, src);
    var x, s := (f * src) as real / src as real, src as real;
    assert x * s == f as real * s;
    assert (x - f as real) * s == 0.0;
    IntegersExact(f);
  }

  lemma WholeRatioFloor(i: int, f: int, n: int, q: real)
    requires i > 0 && f > 0 && q == RoundDouble(i as real / f as real) && n as real <= q < n as real + 1.0
    requires 0 <= n < 0x4_0000_0000_0000
    ensures i < n * f + f
  {
    if i >= n * f + f {
      RealProduct(n + 1, f);
      assert (n + 1) * f == n * f + f;
      QuotientAtLeast(i as real, f as real, (n + 1) as real);
      RoundAtLeast(i as real / f as real, n + 1, (n + 1) as real);
    }
  }

  lemma WholeRatioRound(i: int, f: int, n: int, q: real, r: real)
    requires i > 0 && f > 0 && q == RoundDouble(i as real / f as real) && r == RoundDouble(q + 0.5)
    requires n as real <= r < n as real + 1.0 && 0 <= n < 0x4_0000_0000_0000 && i < 0x1_0000_0000_0000
    ensures 2 * i < 2 * (n * f) + f
  {
    if 2 * i >= 2 * (n * f) + f {
      var x := i as real / f as real;
      RealProduct(2 * n + 1, f);
      assert (2 * n + 1) * f == 2 * (n * f) + f;
      QuotientAtLeast((2 * i) as real, f as real, (2 * n + 1) as real);
      Twice(i as real, f as real);
      assert 2.0 * x == (2 * i) as real / f as real;
      HalfStepUp(x, n, q);
      RoundAtLeast(q + 0.5, n + 1, (n + 1) as real);
    }
  }

  lemma HalfStepUp(x: real, n: int, q: real)
    requires 0.0 < x < 4503599627370496.0 && q == RoundDouble(x) && 2.0 * x >= (2 * n + 1) as real
    requires 0 <= n < 0x4_0000_0000_0000
    ensures q >= n as real + 0.5
  {
    Doubled(x);
    RoundAtLeast(2.0 * x, 2 * n + 1, (2 * n + 1) as real);
  }

  /** A whole ratio f: the index is exact at ties too. */
  lemma WholeRatio(i: int, src: int, f: int, c: int, n: int)
    requires src > 0 && f > 0 && 0 < i < f * src <= 0x1_0000_0000_0000 && Supported(c)
    requires n == IndexAt(i, src, f * src, c) && 0 <= n < 0x4_0000_0000_0000
    ensures if c == 1 then i < n * f + f else 2 * i < 2 * (n * f) + f
  {
    ProductBounds(f, src, f * src);
    ProductBounds(src, f, f * src);
    RatioIs(src, f);
    var q := RoundDouble(i as real / f as real);
    if c == 1 {
      WholeRatioFloor(i, f, n, q);
    } else {
      WholeRatioRound(i, f, n, q, RoundDouble(q + 0.5));
    }
  }

  lemma TimesSource(i: int, src: int, f: int, n: int)
    requires src > 0
    ensures i < n * f + f ==> i * src < n * (f * src) + f * src
    ensures 2 * i < 2 * (n * f) + f ==> 2 * (i * src) < 2 * (n * (f * src)) + f * src
  {
    var m := n * f;
    assert n * (f * src) == m * src;
    ProductLess(i, m + f, src);
    ProductLess(2 * i, 2 * m + f, src);
  }

  lemma ProductLess(a: int, b: int, m: int)
    requires m > 0
    ensures a < b ==> a * m < b * m
  {
  }

  lemma ProductBounds(a: int, b: int, p: int)
    requires a >= 0 && b > 0 && p == a * b
    ensures a <= p
  {
    MulMono(1, b, a);
  }

  lemma CloseIndex(i: int, src: int, dst: int, c: int, n: int)
    requires 0 < i < dst && Precise(src, dst) && Supported(c) && n == IndexAt(i, src, dst, c)
    ensures n >= 0 && (c == 1 ==> n * dst <= i * src <= n * dst + dst)
    ensures c == 3 ==> -dst <= 2 * (n * dst - i * src) <= dst
    ensures i * src <= 0x1_0000_0000_0000
  {
    var q := RoundDouble(i as real / RoundDouble(dst as real / src as real));
    var x, y := i * src, q * dst as real;
    QuotientClose(i, src, dst, q, x, y);
    ProductBounds(dst, src, src * dst);
    if c == 1 {
      FloorClose(x, dst, q, n, y);
    } else {
      RoundIsNear(q + 0.5);
      RoundClose(x, dst, q, RoundDouble(q + 0.5), n, y);
    }
  }

  lemma WholeRatioIndex(i: int, src: int, dst: int, c: int, n: int)
    requires 0 < i < dst && Precise(src, dst) && Supported(c) && n == IndexAt(i, src, dst, c) && dst % src == 0
    requires n >= 0 && n * dst <= 0x2_0000_0000_0000
    ensures c == 1 ==> i * src < n * dst + dst
    ensures c == 3 ==> 2 * (i * src) < 2 * (n * dst) + dst
  {
    var f := dst / src;
    ProductBounds(n, dst, n * dst);
    assert dst == f * src;
    if f <= 0 { MulMono(f, 0, src); }
    WholeRatio(i, src, f, c, n);
    TimesSource(i, src, f, n);
  }

  /** What the doubles pick is admissible. */
  lemma IndexAdmissible(i: int, src: int, dst: int, c: int)
    requires 0 <= i < dst && Precise(src, dst) && Supported(c)
    ensures Admissible(IndexAt(i, src, dst, c), i, src, dst, c)
  {
    var n := IndexAt(i, src, dst, c);
    if i == 0 {
      FirstIndex(src, dst, c);
    } else {
      CloseIndex(i, src, dst, c, n);
      ProductBounds(dst, src, src * dst);
      if dst % src == 0 {
        WholeRatioIndex(i, src, dst, c, n);
      }
    }
  }

  lemma FirstIndex(src: int, dst: int, c: int)
    requires src > 0 && dst > 0
    ensures IndexAt(0, src, dst, c) == 0
  {
    HalvesExact(1);
  }
}
