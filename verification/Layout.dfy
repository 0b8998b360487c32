/** Row-major image layout: a byte position and its (row, column, channel) coordinates. */
module Layout {

  /** Position of channel k of pixel (i, j) in an image `w` pixels wide with `c` channels. */
  function At(i: int, j: int, k: int, w: int, c: int): int {
    (i * w + j) * c + k
  }

  function RowOf(p: int, w: int, c: int): int
    requires w > 0 && c > 0
  {
    p / c / w
  }

  function ColOf(p: int, w: int, c: int): int
    requires w > 0 && c > 0
  {
    p / c % w
  }

  function ChanOf(p: int, c: int): int
    requires c > 0
  {
    p % c
  }

  lemma MulMono(a: int, b: int, m: int)
    requires a <= b && 0 <= m
    ensures a * m <= b * m
  {
  }

  /** A quotient is at least k exactly when the dividend reaches k divisors. */
  lemma DivAtLeast(x: int, y: int, k: int)
    requires y > 0
    ensures x / y >= k <==> x >= k * y
  {
    if x / y >= k {
      MulMono(k, x / y, y);
    } else {
      MulMono(x / y + 1, k, y);
    }
  }

  lemma DivModUnique(a: int, b: int, q: int, r: int)
    requires b > 0 && 0 <= r < b && a == q * b + r
    ensures a / b == q && a % b == r
  {
    DivAtLeast(a, b, q);
    DivAtLeast(a, b, q + 1);
  }

  lemma DivBelow(x: int, y: int, k: int)
    requires y > 0 && 0 <= x < k * y
    ensures 0 <= x / y < k
  {
    DivAtLeast(x, y, k);
  }

  /** Coordinates to position and back. */
  lemma CoordsOfAt(i: int, j: int, k: int, w: int, c: int)
    requires 0 <= j < w && 0 <= k < c
    ensures RowOf(At(i, j, k, w, c), w, c) == i
    ensures ColOf(At(i, j, k, w, c), w, c) == j
    ensures ChanOf(At(i, j, k, w, c), c) == k
  {
    DivModUnique(At(i, j, k, w, c), c, i * w + j, k);
    DivModUnique(i * w + j, w, i, j);
  }

  /** The positions of a w by h image are exactly those whose coordinates are in range. */
  lemma AtInRange(i: int, j: int, k: int, w: int, h: int, c: int)
    requires 0 <= i < h && 0 <= j < w && 0 <= k < c
    ensures 0 <= At(i, j, k, w, c) < w * h * c
  {
    MulMono(i + 1, h, w);
    MulMono(i * w + j + 1, h * w, c);
    MulMono(0, i, w);
    MulMono(0, i * w + j, c);
  }

  lemma CoordsInRange(p: int, w: int, h: int, c: int)
    requires w > 0 && h > 0 && c > 0 && 0 <= p < w * h * c
    ensures 0 <= RowOf(p, w, c) < h && 0 <= ColOf(p, w, c) < w && 0 <= ChanOf(p, c) < c
    ensures At(RowOf(p, w, c), ColOf(p, w, c), ChanOf(p, c), w, c) == p
  {
    DivBelow(p, c, w * h);
    assert w * h == h * w;
    DivBelow(p / c, w, h);
  }

  function Concat<T>(rows: seq<seq<T>>): seq<T> {
    if rows == [] then [] else rows[0] + Concat(rows[1..])
  }

  /** Equally long rows lie at multiples of their length. */
  lemma {:induction false} ConcatAt<T>(rows: seq<seq<T>>, size: int, r: int)
    requires size >= 0 && forall t :: 0 <= t < |rows| ==> |rows[t]| == size
    requires 0 <= r < |rows|
    ensures |Concat(rows)| == |rows| * size
    ensures 0 <= r * size <= (r + 1) * size == r * size + size <= |rows| * size
    ensures Concat(rows)[r * size..(r + 1) * size] == rows[r]
  {
    MulMono(r + 1, |rows|, size);
    MulMono(r, r + 1, size);
    MulMono(0, r, size);
    var tail := Concat(rows[1..]);
    if |rows| == 1 {
      assert rows[1..] == [];
    } else {
      ConcatAt(rows[1..], size, if r > 0 then r - 1 else 0);
      assert |Concat(rows)| == size + (|rows| - 1) * size;
      if r > 0 {
        assert r * size == (r - 1) * size + size && (r + 1) * size == r * size + size;
        assert (rows[0] + tail)[r * size..(r + 1) * size] == tail[(r - 1) * size..r * size];
      }
    }
  }
}
