/** What IMAGE_Resize does to whole images: coverage, enlarging and shrinking back, repeated enlargement. */
module ResizeLaws {
  import opened Bytes
  import opened Doubles
  import opened Layout
  import opened Resize
  import opened IndexRounding
  import opened ResizeIndex

  predicate Sizes(sw: int, sh: int, dw: int, dh: int) {
    Precise(sw, dw) && Precise(sh, dh)
  }

  /** Every pixel of the result is the source pixel at the computed indices. */
  lemma ResizedAt(src: seq<byte>, sw: int, sh: int, dw: int, dh: int, c: int, i: int, j: int, k: int)
    requires Supported(c) && Backed(|src|, sw, sh, c)
    requires 0 <= i < dh && 0 <= j < dw && 0 <= k < c
    ensures 0 <= At(i, j, k, dw, c) < Extent(dw, dh, c)
    ensures Resized(src, sw, sh, dw, dh, c)[At(i, j, k, dw, c)]
            == Sample(src, sw, sh, IndexAt(i, sh, dh, c), IndexAt(j, sw, dw, c), k, c)
  {
    AtInRange(i, j, k, dw, dh, c);
    CoordsOfAt(i, j, k, dw, c);
  }

  /** Two images that agree pixel by pixel are equal. */
  lemma EqualByPixels(a: seq<byte>, b: seq<byte>, w: int, h: int, c: int)
    requires w > 0 && h > 0 && Supported(c) && |a| == |b| == w * h * c
    requires forall i, j, k :: 0 <= i < h && 0 <= j < w && 0 <= k < c ==>
                                 Sample(a, w, h, i, j, k, c) == Sample(b, w, h, i, j, k, c)
    ensures a == b
  {
    forall p | 0 <= p < |a|
      ensures a[p] == b[p]
    {
      CoordsInRange(p, w, h, c);
      assert Sample(a, w, h, RowOf(p, w, c), ColOf(p, w, c), ChanOf(p, c), c)
          == Sample(b, w, h, RowOf(p, w, c), ColOf(p, w, c), ChanOf(p, c), c);
    }
  }

  /** Which destination pixels get a source pixel, at a distance that rounds to none, and which stay zero. */
  lemma Coverage(src: seq<byte>, sw: int, sh: int, dw: int, dh: int, c: int, i: int, j: int, k: int)
    requires Sizes(sw, sh, dw, dh) && Supported(c) && sw * sh * c <= |src|
    requires 0 <= i < dh && 0 <= j < dw && 0 <= k < c
    ensures 0 <= At(i, j, k, dw, c) < Extent(dw, dh, c)
    ensures var pi, pj := IndexAt(i, sh, dh, c), IndexAt(j, sw, dw, c);
            var b := Resized(src, sw, sh, dw, dh, c)[At(i, j, k, dw, c)];
            Admissible(pi, i, sh, dh, c) && Admissible(pj, j, sw, dw, c) &&
            if c == 3 && (i >= dh - dh / (2 * sh) || j >= dw - dw / (2 * sw)) then
              b == 0
            else
              0 <= pi < sh && 0 <= pj < sw && 0 <= At(pi, pj, k, sw, c) < |src| && b == src[At(pi, pj, k, sw, c)]
  {
    ResizedAt(src, sw, sh, dw, dh, c, i, j, k);
    IndexAdmissible(i, sh, dh, c);
    IndexAdmissible(j, sw, dw, c);
    var pi, pj := IndexAt(i, sh, dh, c), IndexAt(j, sw, dw, c);
    if c == 3 {
      UnfilledSuffix(pi, i, sh, dh);
      UnfilledSuffix(pj, j, sw, dw);
    } else {
      FloorInRange(pi, i, sh, dh);
      FloorInRange(pj, j, sw, dw);
    }
    if pi < sh && pj < sw {
      AtInRange(pi, pj, k, sw, sh, c);
    }
  }

  /** Resize to dw by dh and back to sw by sh. */
  function ThereAndBack(img: seq<byte>, sw: int, sh: int, dw: int, dh: int, c: int): (r: seq<byte>)
    requires Sizes(sw, sh, dw, dh) && Supported(c) && |img| == sw * sh * c
    ensures |r| == |img|
  {
    Resized(Resized(img, sw, sh, dw, dh, c), dw, dh, sw, sh, c)
  }

  lemma ThereAndBackAt(img: seq<byte>, sw: int, sh: int, dw: int, dh: int, c: int, i: int, j: int, k: int)
    requires Sizes(sw, sh, dw, dh) && Supported(c) && |img| == sw * sh * c
    requires 0 <= i < sh && 0 <= j < sw && 0 <= k < c
    ensures var mi, mj := IndexAt(i, dh, sh, c), IndexAt(j, dw, sw, c);
            Sample(ThereAndBack(img, sw, sh, dw, dh, c), sw, sh, i, j, k, c)
            == if 0 <= mi < dh && 0 <= mj < dw then
                 Sample(img, sw, sh, IndexAt(mi, sh, dh, c), IndexAt(mj, sw, dw, c), k, c)
               else 0
  {
    var mid := Resized(img, sw, sh, dw, dh, c);
    ResizedAt(mid, dw, dh, sw, sh, c, i, j, k);
    var mi, mj := IndexAt(i, dh, sh, c), IndexAt(j, dw, sw, c);
    if 0 <= mi < dh && 0 <= mj < dw {
      ResizedAt(img, sw, sh, dw, dh, c, mi, mj, k);
    }
  }

  /** No image of this size loses anything on the way to dw by dh and back. */
  ghost predicate Lossless(sw: int, sh: int, dw: int, dh: int, c: int)
    requires Sizes(sw, sh, dw, dh) && Supported(c)
  {
    forall img: seq<byte> :: |img| == sw * sh * c ==> ThereAndBack(img, sw, sh, dw, dh, c) == img
  }

  /** A single lit pixel. */
  function Dot(w: int, h: int, c: int, i: int, j: int): (img: seq<byte>)
    requires w > 0 && h > 0 && Supported(c)
    ensures |img| == w * h * c
  {
    MulMono(0, w, h);
    MulMono(0, w * h, c);
    seq(w * h * c, p requires 0 <= p < w * h * c => if RowOf(p, w, c) == i && ColOf(p, w, c) == j then 1 else 0)
  }

  lemma DotAt(w: int, h: int, c: int, i: int, j: int, i': int, j': int)
    requires w > 0 && h > 0 && Supported(c)
    ensures Sample(Dot(w, h, c, i, j), w, h, i', j', 0, c)
            == if 0 <= i' < h && 0 <= j' < w && i' == i && j' == j then 1 else 0
  {
    if 0 <= i' < h && 0 <= j' < w {
      AtInRange(i', j', 0, w, h, c);
      CoordsOfAt(i', j', 0, w, c);
    }
  }

  lemma InvertingAxesRestore(img: seq<byte>, sw: int, sh: int, dw: int, dh: int, c: int)
    requires Sizes(sw, sh, dw, dh) && Supported(c) && |img| == sw * sh * c
    requires AxisInverts(sh, dh, c) && AxisInverts(sw, dw, c)
    ensures ThereAndBack(img, sw, sh, dw, dh, c) == img
  {
    var back := ThereAndBack(img, sw, sh, dw, dh, c);
    forall i, j, k | 0 <= i < sh && 0 <= j < sw && 0 <= k < c
      ensures Sample(back, sw, sh, i, j, k, c) == Sample(img, sw, sh, i, j, k, c)
    {
      ThereAndBackAt(img, sw, sh, dw, dh, c, i, j, k);
      assert ReturnsTo(i, sh, dh, c) && ReturnsTo(j, sw, dw, c);
    }
    EqualByPixels(back, img, sw, sh, c);
  }

  /** A restored dot shows that its own row and column return to themselves. */
  lemma RestoredDotReturns(sw: int, sh: int, dw: int, dh: int, c: int, i: int, j: int)
    requires Sizes(sw, sh, dw, dh) && Supported(c) && 0 <= i < sh && 0 <= j < sw
    requires ThereAndBack(Dot(sw, sh, c, i, j), sw, sh, dw, dh, c) == Dot(sw, sh, c, i, j)
    ensures ReturnsTo(i, sh, dh, c) && ReturnsTo(j, sw, dw, c)
  {
    ThereAndBackAt(Dot(sw, sh, c, i, j), sw, sh, dw, dh, c, i, j, 0);
    DotAt(sw, sh, c, i, j, i, j);
    DotAt(sw, sh, c, i, j, IndexAt(IndexAt(i, dh, sh, c), sh, dh, c), IndexAt(IndexAt(j, dw, sw, c), sw, dw, c));
  }

  lemma LosslessIffAxesInvert(sw: int, sh: int, dw: int, dh: int, c: int)
    requires Sizes(sw, sh, dw, dh) && Supported(c)
    ensures Lossless(sw, sh, dw, dh, c) <==> AxisInverts(sh, dh, c) && AxisInverts(sw, dw, c)
  {
    if AxisInverts(sh, dh, c) && AxisInverts(sw, dw, c) {
      forall img: seq<byte> | |img| == sw * sh * c
        ensures ThereAndBack(img, sw, sh, dw, dh, c) == img
      {
        InvertingAxesRestore(img, sw, sh, dw, dh, c);
      }
    }
    if Lossless(sw, sh, dw, dh, c) {
      forall i | 0 <= i < sh
        ensures ReturnsTo(i, sh, dh, c)
      {
        RestoredDotReturns(sw, sh, dw, dh, c, i, 0);
      }
      forall j | 0 <= j < sw
        ensures ReturnsTo(j, sw, dw, c)
      {
        RestoredDotReturns(sw, sh, dw, dh, c, 0, j);
      }
    }
  }

  /** Three channels: the way back restores every image exactly when neither side shrank. */
  lemma ColourLosslessIff(sw: int, sh: int, dw: int, dh: int)
    requires Sizes(sw, sh, dw, dh)
    ensures Lossless(sw, sh, dw, dh, 3) <==> dw >= sw && dh >= sh
  {
    LosslessIffAxesInvert(sw, sh, dw, dh, 3);
    RoundAxisInverts(sw, dw);
    RoundAxisInverts(sh, dh);
  }

  /** A side that grew by a whole factor f, for which i / (1 / f), in doubles, reaches i * f for every i. */
  ghost predicate GrewExactly(src: int, dst: int)
    requires src > 0
  {
    dst % src == 0 && dst / src > 0 && ReachesAll(dst / src, src)
  }

  /** One channel: the way back restores every image exactly when both sides grew so. */
  lemma GreyLosslessIff(sw: int, sh: int, dw: int, dh: int)
    requires Sizes(sw, sh, dw, dh)
    ensures Lossless(sw, sh, dw, dh, 1) <==> GrewExactly(sw, dw) && GrewExactly(sh, dh)
  {
    LosslessIffAxesInvert(sw, sh, dw, dh, 1);
    FloorAxisInverts(sw, dw);
    FloorAxisInverts(sh, dh);
  }

  /** Powers of two always qualify. */
  lemma GreyPowersOfTwoLossless(sw: int, sh: int, a: nat, b: nat)
    requires PowerOfTwo(a) && PowerOfTwo(b) && Sizes(sw, sh, a * sw, b * sh)
    ensures Lossless(sw, sh, a * sw, b * sh, 1)
  {
    PowerGrowsExactly(sw, a);
    PowerGrowsExactly(sh, b);
    GreyLosslessIff(sw, sh, a * sw, b * sh);
  }

  lemma PowerGrowsExactly(src: int, f: nat)
    requires PowerOfTwo(f) && Precise(src, f * src)
    ensures GrewExactly(src, f * src)
  {
    DivModUnique(f * src, src, f, 0);
    MulMono(1, src, f * src);
    assert src * f == f * src;
    PowersHaveReciprocals(f);
    ReciprocalNotRoundedUp(f, src);
  }

  /** Whatever the whole factors, a pixel comes back as itself or as a neighbour before it, for each side alone. */
  lemma GreyWholeFactorsBack(img: seq<byte>, sw: int, sh: int, a: int, b: int, i: int, j: int)
    requires a > 0 && b > 0 && Sizes(sw, sh, a * sw, b * sh) && |img| == sw * sh
    requires 0 <= i < sh && 0 <= j < sw
    ensures var pi, pj := if Reaches(i, b) then i else i - 1, if Reaches(j, a) then j else j - 1;
            0 <= pi && 0 <= pj && Sample(ThereAndBack(img, sw, sh, a * sw, b * sh, 1), sw, sh, i, j, 0, 1)
                                  == Sample(img, sw, sh, pi, pj, 0, 1)
  {
    WholeFactorBack(i, sh, b);
    WholeFactorBack(j, sw, a);
    ThereAndBackAt(img, sw, sh, a * sw, b * sh, 1, i, j, 0);
  }

  /** A whole factor alone is not enough: enlarged 93 times and back, column 1 of any picture is column 0. */
  lemma GreyLossAt93(img: seq<byte>, sw: int, sh: int, i: int)
    requires sw > 1 && Sizes(sw, sh, 93 * sw, 1 * sh) && |img| == sw * sh && 0 <= i < sh
    ensures Sample(ThereAndBack(img, sw, sh, 93 * sw, 1 * sh, 1), sw, sh, i, 1, 0, 1) == Sample(img, sw, sh, i, 0, 0, 1)
  {
    FallsShortAt93();
    PowerGrowsExactly(sh, 1);
    DivModUnique(1 * sh, sh, 1, 0);
    assert Reaches(i, 1);
    GreyWholeFactorsBack(img, sw, sh, 93, 1, i, 1);
  }

  /** One channel: enlarging by whole factors (a, b), then (a', b'), is enlarging by the products. */
  lemma GreyFactorsCompose(img: seq<byte>, sw: int, sh: int, a: int, b: int, a': int, b': int)
    requires sw > 0 && sh > 0 && a > 0 && b > 0 && a' > 0 && b' > 0
    requires Sizes(a * sw, b * sh, a' * (a * sw), b' * (b * sh)) && |img| == sw * sh
    ensures var mw, mh := a * sw, b * sh;
            var dw, dh := a' * mw, b' * mh;
            |Resized(img, sw, sh, mw, mh, 1)| == mw * mh > 0 &&
            Resized(Resized(img, sw, sh, mw, mh, 1), mw, mh, dw, dh, 1) == Resized(img, sw, sh, dw, dh, 1)
  {
    GreyEnlargedTwice(img, sw, sh, a, b, a', b', a * sw, b * sh, a' * (a * sw), b' * (b * sh));
  }

  lemma GreyEnlargedTwice(img: seq<byte>, sw: int, sh: int, a: int, b: int, a': int, b': int,
        mw: int, mh: int, dw: int, dh: int)
    requires sw > 0 && sh > 0 && a > 0 && b > 0 && a' > 0 && b' > 0 && |img| == sw * sh
    requires mw == a * sw && mh == b * sh && dw == a' * mw && dh == b' * mh && Sizes(mw, mh, dw, dh)
    ensures |Resized(img, sw, sh, mw, mh, 1)| == mw * mh > 0
    ensures Resized(Resized(img, sw, sh, mw, mh, 1), mw, mh, dw, dh, 1) == Resized(img, sw, sh, dw, dh, 1)
  {
    MulMono(1, mw, mh);
    var mid := Resized(img, sw, sh, mw, mh, 1);
    var direct := Resized(img, sw, sh, dw, dh, 1);
    var twice := Resized(mid, mw, mh, dw, dh, 1);
    forall i, j, k | 0 <= i < dh && 0 <= j < dw && 0 <= k < 1
      ensures Sample(twice, dw, dh, i, j, k, 1) == Sample(direct, dw, dh, i, j, k, 1)
    {
      FloorFactorsCompose(i, sh, b, b', mh, dh);
      FloorFactorsCompose(j, sw, a, a', mw, dw);
      ResizedAt(mid, mw, mh, dw, dh, 1, i, j, k);
      ResizedAt(img, sw, sh, mw, mh, 1, IndexAt(i, mh, dh, 1), IndexAt(j, mw, dw, 1), k);
      ResizedAt(img, sw, sh, dw, dh, 1, i, j, k);
    }
    EqualByPixels(twice, direct, dw, dh, 1);
  }
}
