/** IMAGE_Resize: nearest-neighbour resampling of a 1- or 3-channel image, in place on flat arrays. */
module Resize {
  import opened Bytes
  import opened Doubles
  import opened Layout

  /** dx or dy: the ratio of the sizes as a double, or infinity when the image has no rows (or columns). */
  function Ratio(src: int, dst: int): (r: Option<real>)
    requires dst > 0
    ensures r.Some? ==> r.value != 0.0
  {
    if src == 0 then None else Some(RoundDouble(dst as real / src as real))
  }

  /** (int)(i / ratio + 0) for one channel, (int)(i / ratio + 0.5) for three, in doubles. */
  function IndexBy(i: int, ratio: Option<real>, c: int): int
    requires ratio.Some? ==> ratio.value != 0.0
  {
    var q := if ratio.Some? then RoundDouble(i as real / ratio.value) else 0.0;
    Truncate(if c == 3 then RoundDouble(q + 0.5) else q)
  }

  /** Source row (or column) sampled for destination row (or column) i. */
  function IndexAt(i: int, src: int, dst: int, c: int): int
    requires dst > 0
  {
    IndexBy(i, Ratio(src, dst), c)
  }

  predicate Supported(c: int) {
    c == 1 || c == 3
  }

  /** Number of destination bytes the resize writes. */
  function Extent(dw: int, dh: int, c: int): (n: nat)
  {
    if Supported(c) && dw > 0 && dh > 0 then (MulMono(0, dw, dh); MulMono(0, dw * dh, c); dw * dh * c) else 0
  }

  /** The source image is backed by memory. */
  predicate Backed(len: int, w: int, h: int, c: int) {
    w > 0 && h > 0 ==> w * h * c <= len
  }

  /** The byte written at destination position p: the nearest source pixel, or 0 if that falls outside. */
  function ResizedByte(src: seq<byte>, sw: int, sh: int, dw: int, dh: int, c: int, p: int): (b: byte)
    requires Supported(c) && dw > 0 && dh > 0
    requires Backed(|src|, sw, sh, c)
  {
    Sample(src, sw, sh, IndexAt(RowOf(p, dw, c), sh, dh, c), IndexAt(ColOf(p, dw, c), sw, dw, c), ChanOf(p, c), c)
  }

  /** Channel k of pixel (i, j), or 0 outside the image. */
  function Sample(src: seq<byte>, w: int, h: int, i: int, j: int, k: int, c: int): (b: byte)
    requires Supported(c) && 0 <= k < c
    requires Backed(|src|, w, h, c)
  {
    if 0 <= i < h && 0 <= j < w then
      AtInRange(i, j, k, w, h, c);
      src[At(i, j, k, w, c)]
    else 0
  }

  /** The whole image the resize writes. */
  function Resized(src: seq<byte>, sw: int, sh: int, dw: int, dh: int, c: int): (r: seq<byte>)
    requires Supported(c) ==> Backed(|src|, sw, sh, c)
    ensures |r| == Extent(dw, dh, c)
  {
    seq(Extent(dw, dh, c), p requires 0 <= p < Extent(dw, dh, c) => ResizedByte(src, sw, sh, dw, dh, c, p))
  }

  /** Rows of w pixels follow each other without a gap, and every one lies inside the image. */
  lemma RowSpan(i: int, w: int, h: int, c: int)
    requires 0 <= i < h && w > 0 && c > 0
    ensures 0 <= i * (c * w) && (i + 1) * (c * w) == i * (c * w) + c * w <= w * h * c
    ensures forall j, k :: At(i, j, k, w, c) == i * (c * w) + j * c + k
  {
    MulMono(i + 1, h, c * w);
    MulMono(0, i, c * w);
    assert h * (c * w) == w * h * c;
    forall j, k
      ensures At(i, j, k, w, c) == i * (c * w) + j * c + k
    {
      assert i * w * c == i * (c * w);
    }
  }

  /** Pixel (pi, pj) of the source lies at `from`, inside it. */
  lemma PixelPlace(w: int, h: int, c: int, pi: int, pj: int, from: int)
    requires c > 0 && 0 <= pi < h && 0 <= pj < w && from == pi * (c * w) + pj * c
    ensures 0 <= from && from + c <= w * h * c
    ensures forall k :: At(pi, pj, k, w, c) == from + k
  {
    RowSpan(pi, w, h, c);
    AtInRange(pi, pj, 0, w, h, c);
    AtInRange(pi, pj, c - 1, w, h, c);
    assert At(pi, pj, 0, w, c) == from && At(pi, pj, c - 1, w, c) == from + c - 1;
  }

  /** The c bytes of destination pixel (i, j): a source pixel read at its flat position, or zeros. */
  lemma PixelBytes(src: seq<byte>, sw: int, sh: int, dw: int, dh: int, c: int, i: int, j: int, to: int, from: int)
    requires Supported(c) && 0 <= i < dh && 0 <= j < dw && Backed(|src|, sw, sh, c)
    requires to == i * (c * dw) + j * c
    requires from == IndexAt(i, sh, dh, c) * (c * sw) + IndexAt(j, sw, dw, c) * c
    ensures if 0 <= IndexAt(i, sh, dh, c) < sh && 0 <= IndexAt(j, sw, dw, c) < sw then
              && 0 <= from && from + c <= |src|
              && forall p :: to <= p < to + c ==> ResizedByte(src, sw, sh, dw, dh, c, p) == src[from + (p - to)]
            else
              forall p :: to <= p < to + c ==> ResizedByte(src, sw, sh, dw, dh, c, p) == 0
  {
    var pi, pj := IndexAt(i, sh, dh, c), IndexAt(j, sw, dw, c);
    PixelPlace(dw, dh, c, i, j, to);
    if 0 <= pi < sh && 0 <= pj < sw {
      PixelPlace(sw, sh, c, pi, pj, from);
    }
    forall p | to <= p < to + c
      ensures ResizedByte(src, sw, sh, dw, dh, c, p) == Sample(src, sw, sh, pi, pj, p - to, c)
    {
      CoordsOfAt(i, j, p - to, dw, c);
      assert At(i, j, p - to, dw, c) == p;
    }
  }

  /** Zeroes one row of w pixels, from `row` up to `end`. */
  method ZeroRow(dst: array<byte>, row: int, w: int, c: int, ghost end: int)
    requires Supported(c) && w > 0 && 0 <= row && row + c * w == end <= dst.Length
    modifies dst
    ensures forall p :: row <= p < end ==> dst[p] == 0
    ensures forall p :: 0 <= p < dst.Length && !(row <= p < end) ==> dst[p] == old(dst[p])
  {
    var j := 0;
    while j < w
      invariant 0 <= j <= w
      invariant forall p :: row <= p < row + j * c ==> dst[p] == 0
      invariant forall p :: 0 <= p < dst.Length && !(row <= p < row + j * c) ==> dst[p] == old(dst[p])
    {
      var k := 0;
      while k < c
        invariant 0 <= k <= c
        invariant forall p :: row <= p < row + j * c + k ==> dst[p] == 0
        invariant forall p :: 0 <= p < dst.Length && !(row <= p < row + j * c + k) ==> dst[p] == old(dst[p])
      {
        dst[row + j * c + k] := 0;
        k := k + 1;
      }
      j := j + 1;
    }
  }

  lemma RowWithin(i: int, h: int, step: int)
    requires 0 <= i < h && step >= 0
    ensures 0 <= i * step && i * step + step == (i + 1) * step <= h * step
  {
    MulMono(i + 1, h, step);
    MulMono(0, i, step);
  }

  /** Zeroing pass: rows last to first. */
  method ZeroFill(dst: array<byte>, dw: int, dh: int, c: int)
    requires Supported(c) && dw > 0 && dh > 0 && dw * dh * c <= dst.Length
    modifies dst
    ensures forall p :: 0 <= p < dw * dh * c ==> dst[p] == 0
    ensures forall p :: dw * dh * c <= p < dst.Length ==> dst[p] == old(dst[p])
  {
    assert dh * (c * dw) == dw * dh * c;
    ZeroRows(dst, dw, dh, c, c * dw, dw * dh * c);
  }

  method ZeroRows(dst: array<byte>, dw: int, dh: int, c: int, step: int, ghost n: int)
    requires Supported(c) && dw > 0 && dh > 0 && step == c * dw && n == dh * step && n <= dst.Length
    modifies dst
    ensures forall p :: 0 <= p < n ==> dst[p] == 0
    ensures forall p :: n <= p < dst.Length ==> dst[p] == old(dst[p])
  {
    var i := 0;
    var row := dh * step;     // start of the rows zeroed so far
    while i < dh
      invariant 0 <= i <= dh && row == (dh - i) * step
      invariant forall p :: 0 <= p < n && row <= p ==> dst[p] == 0
      invariant forall p :: n <= p < dst.Length ==> dst[p] == old(dst[p])
    {
      RowWithin(dh - 1 - i, dh, step);
      row := (dh - 1 - i) * step;
      ZeroRow(dst, row, dw, c, row + step);
      i := i + 1;
    }
  }

  method CopyPixel(src: array<byte>, from: int, dst: array<byte>, to: int, c: int)
    requires src != dst && 0 <= from && from + c <= src.Length && 0 <= to && to + c <= dst.Length && c >= 0
    modifies dst
    ensures forall p :: to <= p < to + c ==> dst[p] == src[from + (p - to)]
    ensures forall p :: 0 <= p < dst.Length && !(to <= p < to + c) ==> dst[p] == old(dst[p])
  {
    var k := 0;
    while k < c
      invariant 0 <= k <= c
      invariant forall p :: to <= p < to + k ==> dst[p] == src[from + (p - to)]
      invariant forall p :: 0 <= p < dst.Length && !(to <= p < to + k) ==> dst[p] == old(dst[p])
    {
      dst[to + k] := src[from + k];
      k := k + 1;
    }
  }

  /** Samples destination pixel (i, j), which lies at `to` and holds zeros. */
  method SamplePixel(src: array<byte>, sw: int, sh: int, dst: array<byte>, dw: int, dh: int, c: int,
        dx: Option<real>, dy: Option<real>, i: int, j: int, to: int)
    requires src != dst && Supported(c) && 0 <= i < dh && 0 <= j < dw && dx == Ratio(sw, dw) && dy == Ratio(sh, dh)
    requires Backed(src.Length, sw, sh, c)
    requires 0 <= to == i * (c * dw) + j * c && to + c <= dst.Length
    requires forall p :: to <= p < to + c ==> dst[p] == 0
    modifies dst
    ensures forall p :: to <= p < to + c ==> dst[p] == ResizedByte(src[..], sw, sh, dw, dh, c, p)
    ensures forall p :: 0 <= p < dst.Length && !(to <= p < to + c) ==> dst[p] == old(dst[p])
  {
    var pi := IndexBy(i, dy, c);
    var pj := IndexBy(j, dx, c);
    var from := pi * (c * sw) + pj * c;
    PixelBytes(src[..], sw, sh, dw, dh, c, i, j, to, from);
    if 0 <= pi < sh && 0 <= pj < sw {
      CopyPixel(src, from, dst, to, c);
    }
  }

  /** Samples destination row i, which holds zeros. */
  method SampleRow(src: array<byte>, sw: int, sh: int, dst: array<byte>, dw: int, dh: int, c: int,
        dx: Option<real>, dy: Option<real>, i: int, row: int)
    requires src != dst && Supported(c) && dw > 0 && 0 <= i < dh && dx == Ratio(sw, dw) && dy == Ratio(sh, dh)
    requires Backed(src.Length, sw, sh, c)
    requires 0 <= row == i * (c * dw) && row + c * dw <= dst.Length
    requires forall p :: row <= p < row + c * dw ==> dst[p] == 0
    modifies dst
    ensures forall p :: row <= p < row + c * dw ==> dst[p] == ResizedByte(src[..], sw, sh, dw, dh, c, p)
    ensures forall p :: 0 <= p < dst.Length && !(row <= p < row + c * dw) ==> dst[p] == old(dst[p])
  {
    ghost var s, n := src[..], c * dw;
    assert if c == 1 then n == dw else n == 3 * dw;
    var j, to := 0, row;
    while j < dw
      invariant 0 <= j <= dw && (if c == 1 then to == row + j else to == row + 3 * j)
      invariant forall p :: row <= p < to ==> dst[p] == ResizedByte(s, sw, sh, dw, dh, c, p)
      invariant forall p :: 0 <= p < dst.Length && !(row <= p < to) ==> dst[p] == old(dst[p])
    {
      SamplePixel(src, sw, sh, dst, dw, dh, c, dx, dy, i, j, to);
      j, to := j + 1, to + c;
    }
  }

  /** Sampling pass over a zeroed destination. */
  method SamplePass(src: array<byte>, sw: int, sh: int, dst: array<byte>, dw: int, dh: int, c: int)
    requires src != dst && Supported(c) && dw > 0 && dh > 0
    requires Backed(src.Length, sw, sh, c) && dw * dh * c <= dst.Length
    requires forall p :: 0 <= p < dw * dh * c ==> dst[p] == 0
    modifies dst
    ensures forall p :: 0 <= p < dw * dh * c ==> dst[p] == ResizedByte(src[..], sw, sh, dw, dh, c, p)
    ensures forall p :: dw * dh * c <= p < dst.Length ==> dst[p] == old(dst[p])
  {
    ghost var n := dw * dh * c;
    ghost var s := src[..];
    var dx, dy := Ratio(sw, dw), Ratio(sh, dh);
    var step := c * dw;
    assert dh * step == n;
    var i, row := 0, 0;
    while i < dh
      invariant 0 <= i <= dh && 0 <= row == i * step
      invariant forall p :: 0 <= p < n && p < row ==> dst[p] == ResizedByte(s, sw, sh, dw, dh, c, p)
      invariant forall p :: 0 <= p < n && row <= p ==> dst[p] == 0
      invariant forall p :: n <= p < dst.Length ==> dst[p] == old(dst[p])
    {
      RowWithin(i, dh, step);
      SampleRow(src, sw, sh, dst, dw, dh, c, dx, dy, i, row);
      i, row := i + 1, row + step;
    }
  }

  method ImageResize(src: array<byte>, sw: int, sh: int, dst: array<byte>, dw: int, dh: int, c: int)
    requires src != dst
    requires Supported(c) ==> Backed(src.Length, sw, sh, c)
    requires Extent(dw, dh, c) <= dst.Length
    modifies dst
    ensures dst[..Extent(dw, dh, c)] == Resized(src[..], sw, sh, dw, dh, c)
    ensures dst[Extent(dw, dh, c)..] == old(dst[Extent(dw, dh, c)..])
  {
    if Supported(c) && dw > 0 && dh > 0 {  // otherwise every loop is empty
      ZeroFill(dst, dw, dh, c);
      SamplePass(src, sw, sh, dst, dw, dh, c);
    }
  }
}
