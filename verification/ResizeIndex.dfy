/** Laws of the index map of IMAGE_Resize. They hold for every admissible index, hence for the one the doubles pick. */
module ResizeIndex {
  import opened Bytes
  import opened Doubles
  import opened Layout
  import opened Resize
  import opened IndexRounding

  lemma NextStep(a: int, d: int)
    ensures (a + 1) * d == a * d + d
  {
  }

  /** Two admissible indices differ by at most one, and only at a tie that the size ratio does not make exact. */
  lemma OnlyTiesDiffer(n: int, m: int, i: int, src: int, dst: int, c: int)
    requires src > 0 && dst > 0 && Supported(c)
    requires Admissible(n, i, src, dst, c) && Admissible(m, i, src, dst, c) && n < m
    ensures m == n + 1 && dst % src != 0
    ensures if c == 1 then i * src == m * dst else 2 * (i * src) == 2 * (m * dst) - dst
  {
    assert (n + 1) * dst == n * dst + dst && (n + 2) * dst == n * dst + 2 * dst;
    if m > n + 1 { MulMono(n + 2, m, dst); }
  }

  /** The index is determined when the size ratio is a whole number. */
  lemma IndexIs(i: int, src: int, dst: int, c: int, n: int)
    requires 0 <= i < dst && Precise(src, dst) && Supported(c) && dst % src == 0 && Admissible(n, i, src, dst, c)
    ensures IndexAt(i, src, dst, c) == n
  {
    IndexAdmissible(i, src, dst, c);
    var m := IndexAt(i, src, dst, c);
    if m < n { OnlyTiesDiffer(m, n, i, src, dst, c); }
    if n < m { OnlyTiesDiffer(n, m, i, src, dst, c); }
  }

  /** The index map never goes backwards, for any sizes. */
  lemma IndexMonotone(i: int, i': int, src: int, dst: int, c: int)
    requires 0 <= i <= i' && src > 0 && dst > 0 && Supported(c)
    ensures 0 <= IndexAt(i, src, dst, c) <= IndexAt(i', src, dst, c)
  {
    var D := RoundDouble(dst as real / src as real);
    QuotientMonotone(i as real, i' as real, D);
    RoundDoubleMonotone(i as real / D, i' as real / D);
    if c == 3 {
      RoundDoubleMonotone(RoundDouble(i as real / D) + 0.5, RoundDouble(i' as real / D) + 0.5);
    }
  }

  lemma QuotientMonotone(a: real, b: real, d: real)
    requires 0.0 <= a <= b && d > 0.0
    ensures 0.0 <= a / d <= b / d
  {
    var x := a / d;
    assert x * d == a;
    QuotientAtLeast(a, d, 0.0);
    QuotientAtLeast(b, d, x);
  }

  /** Admissible indices of different positions are in order. */
  lemma Monotone(n: int, n': int, i: int, i': int, src: int, dst: int, c: int)
    requires src > 0 && dst > 0 && Supported(c) && i < i'
    requires Admissible(n, i, src, dst, c) && Admissible(n', i', src, dst, c)
    ensures n <= n'
  {
    MulMono(i + 1, i', src);
    NextStep(i, src);
    NextStep(n', dst);
    if n' < n { MulMono(n' + 1, n, dst); }
  }

  /** When the image does not grow, distinct destination rows sample distinct source rows. */
  lemma Injective(n: int, n': int, i: int, i': int, src: int, dst: int, c: int)
    requires 0 < dst <= src && Supported(c) && i < i'
    requires Admissible(n, i, src, dst, c) && Admissible(n', i', src, dst, c)
    ensures n < n'
  {
    MulMono(i + 1, i', src);
    NextStep(i, src);
    if src == dst { DivModUnique(dst, src, 1, 0); }
    if n' <= n { MulMono(n', n, dst); }
  }

  /** Flooring never leaves the source. */
  lemma FloorInRange(n: int, i: int, src: int, dst: int)
    requires 0 <= i < dst && src > 0 && Admissible(n, i, src, dst, 1)
    ensures 0 <= n < src
  {
    MulMono(i + 1, dst, src);
    NextStep(i, src);
    if n >= src { MulMono(src, n, dst); }
  }

  /** Rows of a three-channel image left unfilled form the suffix of the last dst / (2 * src) rows. */
  lemma UnfilledSuffix(n: int, i: int, src: int, dst: int)
    requires i >= 0 && src > 0 && dst > 0 && Admissible(n, i, src, dst, 3)
    ensures n >= src <==> i >= dst - dst / (2 * src)
  {
    var x, y := i * src, src * dst;
    SuffixStart(x, y, src, dst, i);
    if n >= src { MulMono(src, n, dst); } else { MulMono(n + 1, src, dst); }
    NextStep(n, dst);
    if 2 * x == 2 * y - dst {
      DivModUnique(dst, src, 2 * (dst - i), 0);  // a tie there makes the ratio whole, so it goes up
    }
  }

  lemma SuffixStart(x: int, y: int, src: int, dst: int, i: int)
    requires src > 0 && dst > 0 && x == i * src && y == src * dst
    ensures 2 * x >= 2 * y - dst <==> i >= dst - dst / (2 * src)
    ensures 2 * x == 2 * y - dst ==> dst == 2 * (dst - i) * src
  {
    DivAtLeast(dst, 2 * src, dst - i);
    assert (dst - i) * (2 * src) == 2 * y - 2 * x == 2 * (dst - i) * src;
  }

  // There and back along one axis.

  /** Index i of a side of length src, through a resize to dst and back. */
  predicate ReturnsTo(i: int, src: int, dst: int, c: int)
    requires src > 0 && dst > 0
  {
    var m := IndexAt(i, dst, src, c);
    0 <= m < dst && IndexAt(m, src, dst, c) == i
  }

  /** Going to a size and back returns every index of an axis to itself. */
  ghost predicate AxisInverts(src: int, dst: int, c: int)
    requires src > 0 && dst > 0
  {
    forall i :: 0 <= i < src ==> ReturnsTo(i, src, dst, c)
  }

  /** Rounded indices return through every admissible way out and back. */
  lemma RoundReturns(n: int, m: int, i: int, src: int, dst: int)
    requires 0 <= i < src <= dst && Admissible(m, i, dst, src, 3)
    ensures 0 <= m < dst
    ensures Admissible(n, m, src, dst, 3) ==> n == i
  {
    UnfilledSuffix(m, i, dst, src);
    DivBelow(src, 2 * dst, 1);
    if Admissible(n, m, src, dst, 3) {
      if src == dst {
        DivModUnique(dst, src, 1, 0);
        if m != i { Apart(m, i, dst); }
        if n != m { Apart(n, m, dst); }
      } else {
        if n != i { Apart(n, i, dst); }
      }
    }
  }

  /** Different multiples are at least one step apart. */
  lemma Apart(a: int, b: int, d: int)
    requires d > 0 && a != b
    ensures a * d <= b * d - d || b * d <= a * d - d
  {
    NextStep(a, d);
    NextStep(b, d);
    if a < b { MulMono(a + 1, b, d); } else { MulMono(b + 1, a, d); }
  }

  /** If every index returns then the way out is strictly increasing, so it needs dst >= src rows. */
  lemma {:induction false} OutgoingAtLeast(i: int, src: int, dst: int)
    requires 0 <= i < src && Precise(src, dst) && AxisInverts(src, dst, 3)
    ensures IndexAt(i, dst, src, 3) >= i
  {
    assert ReturnsTo(i, src, dst, 3);
    if i > 0 {
      assert ReturnsTo(i - 1, src, dst, 3);
      OutgoingAtLeast(i - 1, src, dst);
      IndexAdmissible(i - 1, dst, src, 3);
      IndexAdmissible(i, dst, src, 3);
      Monotone(IndexAt(i - 1, dst, src, 3), IndexAt(i, dst, src, 3), i - 1, i, dst, src, 3);
    }
  }

  /** Three channels: an axis inverts exactly when it does not shrink. */
  lemma RoundAxisInverts(src: int, dst: int)
    requires Precise(src, dst)
    ensures AxisInverts(src, dst, 3) <==> dst >= src
  {
    if dst >= src {
      forall i | 0 <= i < src
        ensures ReturnsTo(i, src, dst, 3)
      {
        IndexAdmissible(i, dst, src, 3);
        var m := IndexAt(i, dst, src, 3);
        RoundReturns(0, m, i, src, dst);
        IndexAdmissible(m, src, dst, 3);
        RoundReturns(IndexAt(m, src, dst, 3), m, i, src, dst);
      }
    }
    if AxisInverts(src, dst, 3) {
      OutgoingAtLeast(src - 1, src, dst);
      assert ReturnsTo(src - 1, src, dst, 3);
    }
  }

  // One channel.

  /** Enlarging by a whole factor f repeats every row f times. */
  lemma FloorByFactor(i: int, src: int, f: int)
    requires f > 0 && 0 <= i < f * src && Precise(src, f * src)
    ensures IndexAt(i, src, f * src, 1) == i / f
  {
    var n := i / f;
    DivAtLeast(i, f, n);
    DivAtLeast(i, f, 0);
    TimesSource(i, src, f, n);
    MulMono(n * f, i, src);
    MulAssociates(n, f, src);
    DivModUnique(f * src, src, f, 0);
    IndexIs(i, src, f * src, 1, n);
  }

  lemma MulAssociates(n: int, a: int, b: int)
    ensures n * a * b == n * (a * b)
  {
  }

  /** Going down by a whole factor lands on the first copy of row i, or just before it. */
  lemma WayOut(i: int, src: int, f: int)
    requires 0 <= i < src && f > 0 && Precise(src, f * src)
    ensures IndexAt(i, f * src, src, 1) == i * f || IndexAt(i, f * src, src, 1) == i * f - 1
    ensures 0 <= IndexAt(i, f * src, src, 1) <= i * f < f * src
  {
    var m := IndexAt(i, f * src, src, 1);
    IndexAdmissible(i, f * src, src, 1);
    MulAssociates(i, f, src);
    NextStep(m, src);
    if m > i * f { MulMono(i * f + 1, m, src); NextStep(i * f, src); }
    if m + 1 < i * f { MulMono(m + 2, i * f, src); NextStep(m + 1, src); }
    MulMono(i + 1, src, f);
    NextStep(i, f);
  }

  /** In doubles, i divided by (1 divided by f) reaches i * f. */
  predicate Reaches(i: int, f: int)
    requires f > 0
  {
    RoundDouble(i as real / RoundDouble(1.0 / f as real)) >= (i * f) as real
  }

  ghost predicate ReachesAll(f: int, src: int)
    requires f > 0
  {
    forall i :: 0 <= i < src ==> Reaches(i, f)
  }

  lemma WayOutIs(i: int, src: int, f: int)
    requires 0 <= i < src && f > 0 && Precise(src, f * src)
    ensures IndexAt(i, f * src, src, 1) == i * f <==> Reaches(i, f)
  {
    WayOut(i, src, f);
    SameQuotient(src, f);
  }

  lemma SameQuotient(src: int, f: int)
    requires src > 0 && f > 0
    ensures f * src > 0 && src as real / (f * src) as real == 1.0 / f as real
  {
    MulMono(1, f, src);
    RealProduct(f, src);
    var s, t := src as real, f as real;
    var x := 1.0 / t;
    assert x * t == 1.0;
    assert x * (t * s) == x * t * s;
    QuotientIs(s, t * s, x);
  }

  /** So a whole factor brings every index back to itself or to the one before. */
  lemma WholeFactorBack(i: int, src: int, f: int)
    requires 0 <= i < src && f > 0 && Precise(src, f * src)
    ensures Reaches(0, f)
    ensures 0 <= IndexAt(i, f * src, src, 1) < f * src
    ensures IndexAt(IndexAt(i, f * src, src, 1), src, f * src, 1) == if Reaches(i, f) then i else i - 1
  {
    var m := IndexAt(i, f * src, src, 1);
    WayOut(i, src, f);
    WayOutIs(i, src, f);
    FloorByFactor(m, src, f);
    if m == i * f {
      DivModUnique(m, f, i, 0);
    } else {
      NextStep(i - 1, f);
      DivModUnique(m, f, i - 1, f - 1);
    }
  }

  /** Unless src divides dst, index 1 comes back as 0. */
  lemma LosesOne(m: int, n: int, src: int, dst: int)
    requires src > 0 && dst > 0 && dst % src != 0
    requires Admissible(m, 1, dst, src, 1) && Admissible(n, m, src, dst, 1)
    ensures n == 0
  {
    if m * src == dst { DivModUnique(dst, src, m, 0); }
    if n > 0 { MulMono(1, n, dst); }
  }

  lemma FloorLosesOne(src: int, dst: int)
    requires Precise(src, dst) && dst % src != 0
    ensures src > 1 && !ReturnsTo(1, src, dst, 1)
  {
    if src > 1 {
      var m := IndexAt(1, dst, src, 1);
      IndexAdmissible(1, dst, src, 1);
      if 0 <= m < dst {
        IndexAdmissible(m, src, dst, 1);
        LosesOne(m, IndexAt(m, src, dst, 1), src, dst);
      }
    }
  }

  /** One channel: an axis inverts exactly when it grew by a whole factor whose quotients do not fall short. */
  lemma FloorAxisInverts(src: int, dst: int)
    requires Precise(src, dst)
    ensures AxisInverts(src, dst, 1) <==> dst % src == 0 && dst / src > 0 && ReachesAll(dst / src, src)
  {
    if dst % src == 0 {
      var f := dst / src;
      assert dst == f * src;
      if f <= 0 { MulMono(f, 0, src); }
      forall i | 0 <= i < src
        ensures ReturnsTo(i, src, dst, 1) <==> Reaches(i, f)
      {
        WholeFactorBack(i, src, f);
      }
    } else {
      FloorLosesOne(src, dst);
    }
  }

  /** A factor whose reciprocal is not rounded up falls short nowhere. */
  lemma ReciprocalNotRoundedUp(f: int, src: int)
    requires src > 0 && 0 < f && src * f <= 0x1_0000_0000_0000 && RoundDouble(1.0 / f as real) <= 1.0 / f as real
    ensures ReachesAll(f, src)
  {
    forall i | 0 <= i < src
      ensures Reaches(i, f)
    {
      if i > 0 {
        var D, n := RoundDouble(1.0 / f as real), i * f;
        MulMono(i, src, f);
        MulMono(1, i, f);
        RealProduct(i, f);
        Reciprocal(i as real, f as real, D, n as real);
        RoundAtLeast(i as real / D, n, n as real);
      }
    }
  }

  lemma Reciprocal(i: real, f: real, D: real, n: real)
    requires i > 0.0 && f > 0.0 && 0.0 < D <= 1.0 / f && n == i * f
    ensures i / D >= n
  {
    MulLe(D, 1.0 / f, n);
    var x := 1.0 / f;
    assert x * f == 1.0;
    assert x * n == i * (x * f);
    QuotientAtLeast(i, D, n);
  }

  lemma FallsShortAt93()
    ensures !Reaches(1, 93)
  {
    ReciprocalOf93();
    FallsShort(RoundPositive(1.0 / 93.0));
  }

  /** Three channels, 7 to 18: position 9 lies exactly between source 3 and 4, and 3 is taken. */
  lemma ColourTieGoesDown(i: int, src: int, dst: int)
    requires i == 9 && src == 7 && dst == 18
    ensures IndexAt(i, src, dst, 3) == 3
    ensures 2 * (i * src) == 2 * (3 * dst) + dst
  {
    var D := RoundDouble(dst as real / src as real);
    var q := RoundDouble(i as real / D);
    FallsShortOfHalf(D, q, RoundDouble(q + 0.5));
  }

  /** When the axis does not shrink every source index is sampled: the map is onto. */
  lemma IndexOnto(s: int, src: int, dst: int, c: int) returns (i: int)
    requires 0 <= s < src <= dst && Precise(src, dst) && Supported(c)
    ensures 0 <= i < dst && IndexAt(i, src, dst, c) == s
  {
    if c == 3 {
      RoundAxisInverts(src, dst);
      assert ReturnsTo(s, src, dst, 3);
      i := IndexAt(s, dst, src, 3);
    } else {
      i := FloorOnto(s, src, dst);
    }
  }

  lemma FloorOnto(s: int, src: int, dst: int) returns (i: int)
    requires 0 <= s < src <= dst && Precise(src, dst)
    ensures 0 <= i < dst && IndexAt(i, src, dst, 1) == s
  {
    i := LeastPosition(s, src, dst);
    IndexAdmissible(i, src, dst, 1);
    if IndexAt(i, src, dst, 1) != s {
      TieWentDown(IndexAt(i, src, dst, 1), s, src, dst, i);
      i := i + 1;
      IndexAdmissible(i, src, dst, 1);
      PastTie(IndexAt(i, src, dst, 1), s, src, dst, i);
    }
  }

  /** The least position at or past s source steps. */
  lemma LeastPosition(s: int, src: int, dst: int) returns (i: int)
    requires 0 <= s < src <= dst
    ensures 0 <= i < dst && s * dst <= i * src < s * dst + src
  {
    var x := s * dst;
    i := (x + src - 1) / src;
    MulMono(0, s, dst);
    DivAtLeast(x + src - 1, src, i);
    DivAtLeast(x + src - 1, src, i + 1);
    DivAtLeast(x + src - 1, src, 0);
    NextStep(i, src);
    MulMono(s + 1, src, dst);
    NextStep(s, dst);
    if i >= dst { MulMono(dst, i, src); }
  }

  lemma TieWentDown(n: int, s: int, src: int, dst: int, i: int)
    requires 0 <= s < src <= dst && 0 <= i < dst && s * dst <= i * src < s * dst + src
    requires Admissible(n, i, src, dst, 1) && n != s
    ensures (i + 1) * src == s * dst + src && i + 1 < dst && src < dst
  {
    Apart(n, s, dst);
    if src == dst { DivModUnique(dst, src, 1, 0); }
    NextStep(i, src);
    MulMono(s + 1, src, dst);
    NextStep(s, dst);
    if i + 1 >= dst { MulMono(dst, i + 1, src); }
  }

  lemma PastTie(n: int, s: int, src: int, dst: int, i: int)
    requires 0 <= s && 0 < src < dst && i * src == s * dst + src && Admissible(n, i, src, dst, 1)
    ensures n == s
  {
    if n != s { Apart(n, s, dst); }
  }

  lemma FactorSizes(src: int, a: int, b: int, mid: int, dst: int)
    requires src > 0 && a > 0 && b > 0 && mid == a * src && dst == b * mid && Precise(mid, dst)
    ensures Precise(src, mid) && Precise(src, dst) && a * b > 0 && dst == (a * b) * src
  {
    ProductBounds(src, a, mid);
    ProductBounds(mid, b, dst);
    MulMono(src, mid, dst);
    MulMono(mid, dst, src);
    MulMono(1, a, b);
    MulAssociates(b, a, src);
  }

  /** Two floored enlargements by whole factors sample what one enlargement by the product samples. */
  lemma FloorFactorsCompose(i: int, src: int, a: int, b: int, mid: int, dst: int)
    requires src > 0 && a > 0 && b > 0 && mid == a * src && dst == b * mid && Precise(mid, dst)
    requires 0 <= i < dst
    ensures 0 <= IndexAt(i, mid, dst, 1) < mid && Precise(src, dst)
    ensures IndexAt(IndexAt(i, mid, dst, 1), src, mid, 1) == IndexAt(i, src, dst, 1)
  {
    FactorSizes(src, a, b, mid, dst);
    FloorByFactor(i, mid, b);
    DivBelow(i, b, mid);
    FloorByFactor(i / b, src, a);
    FloorByFactor(i, src, a * b);
    DivDiv(i, b, a);
  }

  lemma DivDiv(x: int, b: int, a: int)
    requires x >= 0 && a > 0 && b > 0 && a * b > 0
    ensures x / b / a == x / (a * b)
  {
    var q := x / b;
    var n := q / a;
    assert x == q * b + x % b && q == n * a + q % a;
    var r := q % a * b + x % b;
    assert q * b == n * a * b + q % a * b;
    MulAssociates(n, a, b);
    MulMono(q % a + 1, a, b);
    NextStep(q % a, b);
    MulMono(0, q % a, b);
    DivModUnique(x, a * b, n, r);
  }
}
