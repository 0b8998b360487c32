/** IMAGE_Decode: a padded, bottom-up BMP becomes a row-major scratch image, which is then resized. */
module BmpDecode {
  import opened Bytes
  import opened Layout
  import opened Resize

  const DECODE_BUFFER_SIZE := 1920 * 1080 * 3
  const HEADER_BYTES := 32   // the decoder looks no further than the field at offset 28

  /** The header fields the decoder uses; `pixels` is the offset of the pixel array. */
  datatype Header = Header(pixels: int, width: int, height: int, channels: int) {

    /** Bytes from one stored row to the next. */
    function RowSize(): int {
      TruncDiv(8 * channels * width + 31, 32) * 4
    }

    predicate HasPixels() {
      width > 0 && height > 0
    }

    predicate TooBig() {
      width * height * channels > DECODE_BUFFER_SIZE
    }

    /** The pixel loops run to the end. */
    predicate Decodable() {
      HasPixels() && Supported(channels) && !TooBig()
    }

    /** Every stored byte the pixel loops read is inside a file of this length. */
    predicate PixelsWithin(length: int) {
      Decodable() ==> 0 <= pixels && pixels + (height - 1) * RowSize() + width * channels <= length
    }

    /** C leaves these products undefined when they do not fit an int. */
    predicate FitsInt() {
      IsInt(width * height) && IsInt(width * height * channels) && IsInt(8 * channels * width + 31)
    }
  }

  predicate IsInt(n: int) {
    -0x8000_0000 <= n < 0x8000_0000
  }

  function I32At(s: seq<byte>, offset: nat): int
    requires offset + 4 <= |s|
  {
    Signed32(U32At(s, offset))
  }

  function ParseHeader(file: seq<byte>): Header
    requires |file| >= HEADER_BYTES
  {
    Header(I32At(file, 10), I32At(file, 18), I32At(file, 22), TruncDiv(I32At(file, 28), 8))
  }

  /** Rows are padded to the next multiple of four bytes. */
  lemma RowSizeIsPaddedWidth(h: Header)
    requires h.width > 0 && h.channels > 0
    ensures h.RowSize() % 4 == 0
    ensures h.channels * h.width <= h.RowSize() < h.channels * h.width + 4
  {
    MulMono(0, h.channels, h.width);
    var n := h.channels * h.width;
    assert 8 * h.channels * h.width == 8 * n;
    assert 8 * n + 31 == 32 * ((8 * n + 31) / 32) + (8 * n + 31) % 32;
  }

  /** Offset in the file of channel k of pixel (i, j): rows bottom-up, colours as BGR. */
  function StoredAt(h: Header, i: int, j: int, k: int): int {
    h.pixels + ((h.height - 1 - i) * h.RowSize()) + j * h.channels + (if h.channels == 3 then 2 - k else k)
  }

  lemma StoredWithin(h: Header, length: int, i: int)
    requires h.Decodable() && h.PixelsWithin(length) && 0 <= i < h.height
    ensures 0 <= h.pixels + (h.height - 1 - i) * h.RowSize()
    ensures h.pixels + (h.height - 1 - i) * h.RowSize() + h.width * h.channels <= length
  {
    RowSizeIsPaddedWidth(h);
    MulMono(0, h.height - 1 - i, h.RowSize());
    MulMono(h.height - 1 - i, h.height - 1, h.RowSize());
  }

  /** The scratch image, one byte per position. */
  function Decoded(file: seq<byte>, h: Header): (img: seq<byte>)
    requires h.PixelsWithin(|file|)
    ensures |img| == if h.Decodable() then h.width * h.height * h.channels else 0
  {
    if h.Decodable() then
      MulMono(0, h.width, h.height);
      MulMono(0, h.width * h.height, h.channels);
      seq(h.width * h.height * h.channels, p requires 0 <= p < h.width * h.height * h.channels =>
        DecodedByte(file, h, p))
    else []
  }

  function DecodedByte(file: seq<byte>, h: Header, p: int): byte
    requires h.Decodable() && h.PixelsWithin(|file|)
    requires 0 <= p < h.width * h.height * h.channels
  {
    CoordsInRange(p, h.width, h.height, h.channels);
    StoredWithin(h, |file|, RowOf(p, h.width, h.channels));
    file[StoredAt(h, RowOf(p, h.width, h.channels), ColOf(p, h.width, h.channels), ChanOf(p, h.channels))]
  }

  /** Pixel (i, j) of the scratch image is the one stored in row height - 1 - i, colours swapped. */
  lemma DecodedAt(file: seq<byte>, h: Header, i: int, j: int, k: int)
    requires h.Decodable() && h.PixelsWithin(|file|)
    requires 0 <= i < h.height && 0 <= j < h.width && 0 <= k < h.channels
    ensures 0 <= At(i, j, k, h.width, h.channels) < |Decoded(file, h)|
    ensures 0 <= StoredAt(h, i, j, k) < |file|
    ensures Decoded(file, h)[At(i, j, k, h.width, h.channels)] == file[StoredAt(h, i, j, k)]
  {
    AtInRange(i, j, k, h.width, h.height, h.channels);
    CoordsOfAt(i, j, k, h.width, h.channels);
    StoredWithin(h, |file|, i);
  }

  /** Offset, within a stored row, of the byte that ends up at offset d of the decoded row. */
  function Mirrored(d: int, c: int): (m: int)
    ensures c == 3 ==> d / 3 * 3 <= m < d / 3 * 3 + 3
    ensures c == 1 ==> m == d
  {
    if c == 3 then d / 3 * 3 + (2 - d % 3) else d
  }

  /** Bytes [to, to + n) of img are the stored row at offset `from` of the file, colours swapped. */
  predicate RowIs(file: seq<byte>, img: seq<byte>, c: int, n: int, to: int, from: int) {
    && 0 <= to && to + n <= |img|
    && 0 <= from && from + n <= |file|
    && forall p :: to <= p < to + n ==> ByteIs(file, img, c, to, from, p)
  }

  predicate ByteIs(file: seq<byte>, img: seq<byte>, c: int, to: int, from: int, p: int)
    requires 0 <= p < |img|
  {
    var m := from + Mirrored(p - to, c);
    0 <= m < |file| && img[p] == file[m]
  }

  lemma SameRow(file: seq<byte>, a: seq<byte>, b: seq<byte>, c: int, n: int, to: int, from: int)
    requires n >= 0 && RowIs(file, a, c, n, to, from) && RowIs(file, b, c, n, to, from)
    ensures a[to..to + n] == b[to..to + n]
  {
    forall p | to <= p < to + n
      ensures a[p] == b[p]
    {
      assert ByteIs(file, a, c, to, from, p) && ByteIs(file, b, c, to, from, p);
    }
  }

  /** A row grows by the pixel stored after it. */
  lemma ExtendRow(file: seq<byte>, before: seq<byte>, after: seq<byte>, c: int, n: int, to: int, from: int)
    requires Supported(c) && n >= 0 && (c == 3 ==> n % 3 == 0) && |before| == |after|
    requires RowIs(file, before, c, n, to, from) && RowIs(file, after, c, c, to + n, from + n)
    requires forall p :: 0 <= p < |after| && !(to + n <= p < to + n + c) ==> after[p] == before[p]
    ensures RowIs(file, after, c, n + c, to, from)
  {
    forall p | to <= p < to + n + c
      ensures ByteIs(file, after, c, to, from, p)
    {
      if p < to + n {
        assert ByteIs(file, before, c, to, from, p);
      } else {
        assert ByteIs(file, after, c, to + n, from + n, p);
      }
    }
  }

  lemma DecodedRow(file: seq<byte>, h: Header, i: int, to: int, from: int)
    requires h.Decodable() && h.PixelsWithin(|file|) && 0 <= i < h.height
    requires to == i * (h.channels * h.width) && from == h.pixels + (h.height - 1 - i) * h.RowSize()
    ensures RowIs(file, Decoded(file, h), h.channels, h.channels * h.width, to, from)
  {
    RowSpan(i, h.width, h.height, h.channels);
    StoredWithin(h, |file|, i);
    forall p | to <= p < to + h.channels * h.width
      ensures 0 <= p < |Decoded(file, h)| && ByteIs(file, Decoded(file, h), h.channels, to, from, p)
    {
      ByteOfRow(file, h, i, (p - to) / h.channels, (p - to) % h.channels, to, from, p);
    }
  }

  lemma MirroredSplit(j: int, k: int, c: int)
    requires Supported(c) && 0 <= k < c
    ensures Mirrored(j * c + k, c) == j * c + Mirrored(k, c)
  {
  }

  lemma ByteOfRow(file: seq<byte>, h: Header, i: int, j: int, k: int, to: int, from: int, p: int)
    requires h.Decodable() && h.PixelsWithin(|file|) && 0 <= i < h.height
    requires to == i * (h.channels * h.width) && from == h.pixels + (h.height - 1 - i) * h.RowSize()
    requires to <= p < to + h.channels * h.width
    requires j == (p - to) / h.channels && k == (p - to) % h.channels
    ensures 0 <= p < |Decoded(file, h)| && ByteIs(file, Decoded(file, h), h.channels, to, from, p)
  {
    var w, c := h.width, h.channels;
    DivBelow(p - to, c, w);
    assert p - to == j * c + k;
    MirroredSplit(j, k, c);
    MulMono(j + 1, w, c);
    MulMono(0, j, c);
    RowSpan(i, w, h.height, c);
    assert At(i, j, k, w, c) == p;
    DecodedAt(file, h, i, j, k);
  }

  /** The switch on the channel count, for one pixel. */
  method StorePixel(src: array<byte>, srcPos: int, buffer: array<byte>, dstPos: int, channels: int)
    requires src != buffer && Supported(channels)
    requires 0 <= srcPos <= src.Length - channels && 0 <= dstPos <= buffer.Length - channels
    modifies buffer
    ensures RowIs(src[..], buffer[..], channels, channels, dstPos, srcPos)
    ensures forall p :: 0 <= p < buffer.Length && !(dstPos <= p < dstPos + channels) ==> buffer[p] == old(buffer[p])
  {
    if channels == 1 {
      buffer[dstPos] := src[srcPos];
    } else {
      // BGR to RGB
      buffer[dstPos] := src[srcPos + 2];
      buffer[dstPos + 1] := src[srcPos + 1];
      buffer[dstPos + 2] := src[srcPos];
    }
  }

  /** The column loop. */
  method DecodeRow(src: array<byte>, from: int, buffer: array<byte>, to: int, width: int, channels: int)
    requires src != buffer && width > 0 && Supported(channels)
    requires 0 <= from && from + channels * width <= src.Length
    requires 0 <= to && to + channels * width <= buffer.Length
    modifies buffer
    ensures RowIs(src[..], buffer[..], channels, channels * width, to, from)
    ensures forall p :: 0 <= p < buffer.Length && !(to <= p < to + channels * width) ==> buffer[p] == old(buffer[p])
  {
    ghost var n := channels * width;
    assert if channels == 1 then n == width else n == 3 * width;
    var j, at := 0, 0;
    while j < width
      invariant 0 <= j <= width && 0 <= at <= n && (if channels == 1 then at == j else at == 3 * j)
      invariant RowIs(src[..], buffer[..], channels, at, to, from)
      invariant forall p :: 0 <= p < buffer.Length && !(to <= p < to + at) ==> buffer[p] == old(buffer[p])
    {
      ghost var before := buffer[..];
      StorePixel(src, from + at, buffer, to + at, channels);
      ExtendRow(src[..], before, buffer[..], channels, at, to, from);
      j, at := j + 1, at + channels;
    }
  }

  /** The row loop: stored row height - 1 - i becomes row i of the scratch image. */
  method DecodeRows(src: array<byte>, buffer: array<byte>, pixels: int, rowSize: int,
        width: int, height: int, channels: int, ghost img: seq<byte>)
    requires src != buffer && width > 0 && height > 0 && Supported(channels) && |img| <= buffer.Length
    requires height * (channels * width) == |img|
    requires forall i :: 0 <= i < height ==>
                           RowIs(src[..], img, channels, channels * width, i * (channels * width),
                               pixels + (height - 1 - i) * rowSize)
    modifies buffer
    ensures buffer[..|img|] == img
    ensures buffer[|img|..] == old(buffer[|img|..])
  {
    var step := channels * width;
    var i, to := 0, 0;
    while i < height
      invariant 0 <= i <= height && 0 <= to == i * step <= |img|
      invariant buffer[..to] == img[..to]
      invariant buffer[|img|..] == old(buffer[|img|..])
    {
      ghost var before := buffer[..];
      var from := pixels + (height - 1 - i) * rowSize;
      assert RowIs(src[..], img, channels, step, to, from);
      DecodeRow(src, from, buffer, to, width, channels);
      SameRow(src[..], buffer[..], img, channels, step, to, from);
      AppendRow(before, buffer[..], img, to, step);
      i, to := i + 1, to + step;
    }
  }

  lemma AppendRow(before: seq<byte>, after: seq<byte>, img: seq<byte>, to: int, n: int)
    requires 0 <= to && 0 <= n && to + n <= |img| <= |before| == |after|
    requires before[..to] == img[..to] && after[to..to + n] == img[to..to + n]
    requires forall p :: 0 <= p < |after| && !(to <= p < to + n) ==> after[p] == before[p]
    ensures after[..to + n] == img[..to + n] && after[|img|..] == before[|img|..]
  {
    forall p | 0 <= p < to + n
      ensures after[p] == img[p]
    {
      if p < to {
        assert before[..to][p] == img[..to][p];
      } else {
        assert after[to..to + n][p - to] == img[to..to + n][p - to];
      }
    }
  }

  /** The first pass: fills the scratch buffer. */
  method FillScratch(src: array<byte>, buffer: array<byte>, h: Header) returns (ok: bool)
    requires src != buffer && buffer.Length == DECODE_BUFFER_SIZE
    requires !h.TooBig() && h.PixelsWithin(src.Length)
    modifies buffer
    ensures ok <==> !h.HasPixels() || Supported(h.channels)
    ensures |Decoded(src[..], h)| <= buffer.Length
    ensures buffer[..|Decoded(src[..], h)|] == Decoded(src[..], h)
    ensures buffer[|Decoded(src[..], h)|..] == old(buffer[..])[|Decoded(src[..], h)|..]
  {
    if !h.HasPixels() {
      return true;    // no iteration of the loops
    }
    if !Supported(h.channels) {
      return false;   // the first pixel reaches the default of the switch, before any write
    }
    DecodedRows(src[..], h);
    DecodeRows(src, buffer, h.pixels, h.RowSize(), h.width, h.height, h.channels, Decoded(src[..], h));
    return true;
  }

  lemma RowsTotal(w: int, h: int, c: int)
    ensures h * (c * w) == w * h * c
  {
  }

  lemma DecodedRows(file: seq<byte>, h: Header)
    requires h.Decodable() && h.PixelsWithin(|file|)
    ensures h.height * (h.channels * h.width) == |Decoded(file, h)|
    ensures forall i :: 0 <= i < h.height ==>
                          RowIs(file, Decoded(file, h), h.channels, h.channels * h.width,
                                i * (h.channels * h.width), h.pixels + (h.height - 1 - i) * h.RowSize())
  {
    RowsTotal(h.width, h.height, h.channels);
    forall i | 0 <= i < h.height
      ensures RowIs(file, Decoded(file, h), h.channels, h.channels * h.width,
                    i * (h.channels * h.width), h.pixels + (h.height - 1 - i) * h.RowSize())
    {
      DecodedRow(file, h, i, i * (h.channels * h.width), h.pixels + (h.height - 1 - i) * h.RowSize());
    }
  }

  /** Rejected is the -1 return; AssertionFailed is the failing channel assertion, which does not return. */
  datatype Outcome = Rejected | AssertionFailed | Done

  function DecodeOutcome(h: Header, dstChannels: int): Outcome {
    if h.TooBig() || (h.HasPixels() && !Supported(h.channels)) then Rejected
    else if h.channels != dstChannels then AssertionFailed
    else Done
  }

  method ImageDecode(src: array<byte>, buffer: array<byte>, dst: array<byte>,
        dstWidth: int, dstHeight: int, dstChannels: int)
    returns (r: Outcome)
    requires src != buffer && src != dst && buffer != dst
    requires src.Length >= HEADER_BYTES && buffer.Length == DECODE_BUFFER_SIZE
    requires ParseHeader(src[..]).FitsInt() && ParseHeader(src[..]).PixelsWithin(src.Length)
    requires Extent(dstWidth, dstHeight, dstChannels) <= dst.Length
    modifies buffer, dst
    ensures var h := ParseHeader(src[..]);
            && r == DecodeOutcome(h, dstChannels)
            && (r == Rejected <==> || h.width * h.height * h.channels > 1920 * 1080 * 3
                                   || (h.width > 0 && h.height > 0 && h.channels != 1 && h.channels != 3))
            && (r == Done ==> h.channels == dstChannels) && (r == AssertionFailed ==> h.channels != dstChannels)
    ensures var img := Decoded(src[..], ParseHeader(src[..]));
            |img| <= buffer.Length && buffer[..|img|] == img && buffer[|img|..] == old(buffer[..])[|img|..]
    ensures r != Done ==> dst[..] == old(dst[..])
    ensures r == Done ==>
              var h, n := ParseHeader(src[..]), Extent(dstWidth, dstHeight, dstChannels);
              && dst[..n] == Resized(Decoded(src[..], h), h.width, h.height, dstWidth, dstHeight, h.channels)
              && dst[n..] == old(dst[n..])
  {
    var h := ParseHeader(src[..]);
    if h.width * h.height * h.channels > DECODE_BUFFER_SIZE {
      return Rejected;
    }
    var ok := FillScratch(src, buffer, h);
    if !ok {
      return Rejected;
    }
    if h.channels != dstChannels {
      return AssertionFailed;
    }
    ImageResize(buffer, h.width, h.height, dst, dstWidth, dstHeight, h.channels);
    ResizeIgnoresRest(Decoded(src[..], h), buffer[..], h, dstWidth, dstHeight);
    return Done;
  }

  /** The resize reads only the image, not what lies after it in the scratch buffer. */
  lemma ResizeIgnoresRest(img: seq<byte>, buffer: seq<byte>, h: Header, dw: int, dh: int)
    requires |img| == (if h.Decodable() then h.width * h.height * h.channels else 0)
    requires !h.TooBig() && |img| <= |buffer| && buffer[..|img|] == img
    requires h.HasPixels() ==> Supported(h.channels)
    ensures Supported(h.channels) ==> Backed(|img|, h.width, h.height, h.channels)
    ensures Resized(img, h.width, h.height, dw, dh, h.channels)
        == Resized(buffer, h.width, h.height, dw, dh, h.channels)
  {
    if Supported(h.channels) && h.HasPixels() {
      forall i, j, k | 0 <= i < h.height && 0 <= j < h.width && 0 <= k < h.channels
        ensures Sample(img, h.width, h.height, i, j, k, h.channels)
            == Sample(buffer, h.width, h.height, i, j, k, h.channels)
      {
        AtInRange(i, j, k, h.width, h.height, h.channels);
      }
    }
  }

  /** A negative height is not decoded top-down: no pixel is read and the whole result is zero. */
  lemma TopDownIsBlank(file: seq<byte>, h: Header, dw: int, dh: int, p: int)
    requires h.height < 0 && h.width > 0 && Supported(h.channels) && h.PixelsWithin(|file|)
    requires 0 <= p < Extent(dw, dh, h.channels)
    ensures DecodeOutcome(h, h.channels) == Done
    ensures Decoded(file, h) == [] && Resized([], h.width, h.height, dw, dh, h.channels)[p] == 0
  {
    MulMono(h.height, 0, h.width);
    MulMono(h.width * h.height, 0, h.channels);
  }
}
