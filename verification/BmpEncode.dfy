/** An independent BMP writer, and the proof that IMAGE_Decode inverts it. */
module BmpEncode {
  import opened Bytes
  import opened Layout
  import opened Resize
  import opened ResizeLaws
  import opened BmpDecode

  /** A row-major image of one or three channels that fits the scratch buffer. */
  datatype Image = Image(bytes: seq<byte>, width: int, height: int, channels: int) {
    predicate Valid() {
      && width > 0 && height > 0 && Supported(channels)
      && |bytes| == width * height * channels <= DECODE_BUFFER_SIZE
    }

    function RowLength(): int { channels * width }

    function PadLength(): int { (4 - RowLength() % 4) % 4 }

    /** Row i, left to right. */
    function Row(i: int): (r: seq<byte>)
      requires Valid() && 0 <= i < height
      ensures |r| == RowLength() > 0 && (channels == 3 ==> |r| % 3 == 0)
    {
      RowSpan(i, width, height, channels);
      bytes[i * RowLength()..i * RowLength() + RowLength()]
    }
  }

  /** Everything in a BMP file that is not the picture: `rest` makes the header any size. */
  datatype Envelope = Envelope(lead: seq<byte>, infoSize: seq<byte>, planes: seq<byte>, compression: int,
                               rest: seq<byte>, pads: seq<seq<byte>>)
  {
    predicate Fits(m: Image) {
      && |lead| == 10 && |infoSize| == 4 && |planes| == 2 && 0 <= compression < 0x1_0000_0000
      && |rest| + 34 < 0x8000_0000
      && |pads| == m.height
      && forall i :: 0 <= i < |pads| ==> |pads[i]| == m.PadLength()
    }
  }

  /** Each pixel's bytes in reverse order: RGB to BGR. */
  function SwapPixels(row: seq<byte>, c: int): (r: seq<byte>)
    requires Supported(c) && Whole(|row|, c)
    ensures |r| == |row|
  {
    if row == [] then [] else Reverse(row[..c]) + SwapPixels(row[c..], c)
  }

  predicate Whole(n: int, c: int) {
    c == 3 ==> n % 3 == 0
  }

  /** The rows as stored: the lowest first, each padded. */
  function StoredRows(m: Image, pads: seq<seq<byte>>): (rows: seq<seq<byte>>)
    requires m.Valid() && |pads| == m.height
  {
    seq(m.height, r requires 0 <= r < m.height => StoredRow(m, pads, m.height - 1 - r))
  }

  function StoredRow(m: Image, pads: seq<seq<byte>>, i: int): seq<byte>
    requires m.Valid() && |pads| == m.height && 0 <= i < m.height
  {
    SwapPixels(m.Row(i), m.channels) + pads[i]
  }

  function FileHeader(e: Envelope, m: Image): seq<byte>
    requires m.Valid() && e.Fits(m)
  {
    e.lead + ToLittle(34 + |e.rest|, 4)
  }

  function InfoHeader(e: Envelope, m: Image): seq<byte>
    requires m.Valid() && e.Fits(m)
  {
    e.infoSize + ToLittle(m.width, 4) + ToLittle(m.height, 4) + e.planes
  }

  function Depth(e: Envelope, m: Image): seq<byte>
    requires m.Valid() && e.Fits(m)
  {
    ToLittle(8 * m.channels, 2) + ToLittle(e.compression, 4)
  }

  function Encode(e: Envelope, m: Image): seq<byte>
    requires m.Valid() && e.Fits(m)
  {
    FileHeader(e, m) + InfoHeader(e, m) + Depth(e, m) + e.rest + Concat(StoredRows(m, e.pads))
  }

  lemma SidesFit(m: Image)
    requires m.Valid()
    ensures m.width <= DECODE_BUFFER_SIZE && m.height <= DECODE_BUFFER_SIZE
    ensures m.width * m.height <= DECODE_BUFFER_SIZE
  {
    MulMono(1, m.height, m.width);
    MulMono(1, m.width, m.height);
    MulMono(1, m.channels, m.width * m.height);
  }

  lemma FieldIs(pre: seq<byte>, n: nat, post: seq<byte>)
    requires n < 0x1_0000_0000
    ensures U32At(pre + ToLittle(n, 4) + post, |pre|) == n
  {
    assert Pow256(4) == 0x1_0000_0000;
    LittleRoundTrip(n, 4);
    assert (pre + ToLittle(n, 4) + post)[|pre|..|pre| + 4] == ToLittle(n, 4);
  }

  lemma FieldsRead(e: Envelope, m: Image)
    requires m.Valid() && e.Fits(m)
    ensures |Encode(e, m)| >= 34
    ensures var f := Encode(e, m);
            && U32At(f, 10) == 34 + |e.rest| && U32At(f, 18) == m.width && U32At(f, 22) == m.height
            && U32At(f, 28) == 8 * m.channels + 65536 * (e.compression % 65536)
  {
    var a, b, d := FileHeader(e, m), InfoHeader(e, m), Depth(e, m);
    var tail := e.rest + Concat(StoredRows(m, e.pads));
    InfoRead(e, m);
    DepthRead(m.channels, e.compression);
    assert e.lead + ToLittle(34 + |e.rest|, 4) + [] == a;
    FieldIs(e.lead, 34 + |e.rest|, []);
    FourParts(a, b, d, tail);
    assert Encode(e, m) == a + b + d + tail;
  }

  /** Fields of three 14-, 14- and 6-byte parts are fields of the whole. */
  lemma FourParts(a: seq<byte>, b: seq<byte>, d: seq<byte>, tail: seq<byte>)
    requires |a| == 14 && |b| == 14 && |d| == 6
    ensures var f := a + b + d + tail;
            && U32At(f, 10) == U32At(a, 10) && U32At(f, 18) == U32At(b, 4) && U32At(f, 22) == U32At(b, 8)
            && U32At(f, 28) == U32At(d, 0)
  {
    var f := a + b + d + tail;
    assert f[10..14] == a[10..14];
    assert f[18..22] == b[4..8];
    assert f[22..26] == b[8..12];
    assert f[28..32] == d[0..4];
  }

  lemma InfoRead(e: Envelope, m: Image)
    requires m.Valid() && e.Fits(m)
    ensures |InfoHeader(e, m)| == 14
    ensures U32At(InfoHeader(e, m), 4) == m.width && U32At(InfoHeader(e, m), 8) == m.height
  {
    SidesFit(m);
    var w, h := ToLittle(m.width, 4), ToLittle(m.height, 4);
    assert e.infoSize + w + (h + e.planes) == InfoHeader(e, m);
    FieldIs(e.infoSize, m.width, h + e.planes);
    assert (e.infoSize + w) + h + e.planes == InfoHeader(e, m);
    FieldIs(e.infoSize + w, m.height, e.planes);
  }

  lemma DepthRead(c: int, compression: int)
    requires Supported(c) && 0 <= compression < 0x1_0000_0000
    ensures U32At(ToLittle(8 * c, 2) + ToLittle(compression, 4), 0) == 8 * c + 65536 * (compression % 65536)
  {
    var bits, comp := ToLittle(8 * c, 2), ToLittle(compression, 4);
    LowBytes(8 * c, 2);
    LowBytes(compression, 4);
    var q := (bits + comp)[0..4];
    assert q == [bits[0], bits[1], comp[0], comp[1]];
    FourBytes(q);
    LowHalf(compression);
  }

  lemma LowHalf(n: nat)
    ensures n % 65536 == n % 256 + 256 * (n / 256 % 256)
  {
    DivModUnique(n, 65536, n / 256 / 256, n % 256 + 256 * (n / 256 % 256));
  }

  lemma LowBytes(n: nat, width: nat)
    requires width >= 2
    ensures ToLittle(n, width)[0] == n % 256 && ToLittle(n, width)[1] == n / 256 % 256
  {
    assert ToLittle(n, width)[1..] == ToLittle(n / 256, width - 1);
    assert ToLittle(n, width)[1] == ToLittle(n / 256, width - 1)[0];
  }

  lemma FourBytes(q: seq<byte>)
    requires |q| == 4
    ensures FromLittle(q) == q[0] as int + 256 * q[1] as int + 65536 * q[2] as int + 16777216 * q[3] as int
  {
    assert q[1..][1..] == q[2..] && q[2..][1..] == q[3..] && q[3..][1..] == [];
    assert FromLittle(q[3..]) == q[3];
    assert FromLittle(q[2..]) == q[2] as int + 256 * q[3] as int;
  }

  /** The depth is read as 32 bits, so it is right exactly when the low half of the compression field is zero. */
  lemma HeaderReadsBack(e: Envelope, m: Image)
    requires m.Valid() && e.Fits(m)
    ensures |Encode(e, m)| >= HEADER_BYTES
    ensures var h := ParseHeader(Encode(e, m));
            && h.pixels == 34 + |e.rest| && h.width == m.width && h.height == m.height
            && (h.channels == m.channels <==> e.compression % 65536 == 0)
            && (h.channels != m.channels ==> !Supported(h.channels))
  {
    FieldsRead(e, m);
    SidesFit(m);
    var s := Encode(e, m);
    var q := e.compression % 65536;
    var u := 8 * m.channels + 65536 * q;
    assert I32At(s, 28) == Signed32(u);
    if q < 32768 {
      assert TruncDiv(Signed32(u), 8) == m.channels + 8192 * q;
    } else {
      assert Signed32(u) < 0;
    }
  }

  lemma RowSizeOfImage(m: Image, h: Header)
    requires m.Valid() && h.width == m.width && h.channels == m.channels
    ensures h.RowSize() == m.RowLength() + m.PadLength()
  {
    RowSizeIsPaddedWidth(h);
  }

  lemma StoredRowsEqualLength(e: Envelope, m: Image, size: int)
    requires m.Valid() && e.Fits(m) && size == m.RowLength() + m.PadLength()
    ensures forall t :: 0 <= t < m.height ==> |StoredRows(m, e.pads)[t]| == size
  {
    forall t | 0 <= t < m.height
      ensures |StoredRows(m, e.pads)[t]| == size
    {
      var i := m.height - 1 - t;
      assert StoredRows(m, e.pads)[t] == StoredRow(m, e.pads, i);
      assert |e.pads[i]| == m.PadLength() && |SwapPixels(m.Row(i), m.channels)| == m.RowLength();
    }
  }

  /** Where stored row i sits in the file. */
  lemma StoredRowAt(e: Envelope, m: Image, i: int, size: int)
    requires m.Valid() && e.Fits(m) && 0 <= i < m.height && size == m.RowLength() + m.PadLength()
    ensures |Encode(e, m)| == 34 + |e.rest| + m.height * size
    ensures var at := 34 + |e.rest| + (m.height - 1 - i) * size;
            0 <= at && at + size <= |Encode(e, m)| && Encode(e, m)[at..at + size] == StoredRow(m, e.pads, i)
  {
    SidesFit(m);
    var rows := StoredRows(m, e.pads);
    var r := m.height - 1 - i;
    StoredRowsEqualLength(e, m, size);
    ConcatAt(rows, size, r);
    var head := FileHeader(e, m) + InfoHeader(e, m) + Depth(e, m) + e.rest;
    assert (r + 1) * size == r * size + size;
    assert Encode(e, m) == head + Concat(rows);
    assert (head + Concat(rows))[|head| + r * size..|head| + (r + 1) * size] == Concat(rows)[r * size..(r + 1) * size];
  }

  lemma {:induction false} SwapOne(row: seq<byte>)
    ensures SwapPixels(row, 1) == row
  {
    if row != [] {
      SwapOne(row[1..]);
      assert Reverse(row[..1]) == row[..1];
      assert row == row[..1] + row[1..];
    }
  }

  lemma {:induction false} SwapThreeAt(row: seq<byte>, d: int)
    requires |row| % 3 == 0 && 0 <= d < |row|
    ensures 0 <= Mirrored(d, 3) < |row|
    ensures SwapPixels(row, 3)[Mirrored(d, 3)] == row[d]
  {
    if d >= 3 {
      SwapThreeAt(row[3..], d - 3);
      assert Mirrored(d, 3) == 3 + Mirrored(d - 3, 3);
    } else {
      assert Mirrored(d, 3) == 2 - d;
    }
  }

  lemma SwapPixelsAt(row: seq<byte>, c: int, d: int)
    requires Supported(c) && Whole(|row|, c) && 0 <= d < |row|
    ensures 0 <= Mirrored(d, c) < |row|
    ensures SwapPixels(row, c)[Mirrored(d, c)] == row[d]
  {
    if c == 1 {
      SwapOne(row);
    } else {
      SwapThreeAt(row, d);
    }
  }

  lemma EncodingInBounds(e: Envelope, m: Image, h: Header)
    requires m.Valid() && e.Fits(m)
    requires h == Header(34 + |e.rest|, m.width, m.height, m.channels)
    ensures h.FitsInt() && h.PixelsWithin(|Encode(e, m)|) && h.Decodable()
  {
    SidesFit(m);
    assert 8 * h.channels * h.width == 8 * m.RowLength();
    RowTotals(m);
    RowSizeOfImage(m, h);
    StoredRowAt(e, m, 0, m.RowLength() + m.PadLength());
  }

  lemma RowTotals(m: Image)
    requires m.Valid()
    ensures 0 < m.RowLength() == m.width * m.channels <= DECODE_BUFFER_SIZE
  {
    RowSpan(0, m.width, m.height, m.channels);
    assert |m.Row(0)| > 0;
  }

  /** Decoding the encoding of an image gives the image back, whatever the header and the padding hold. */
  lemma DecodeInvertsEncode(e: Envelope, m: Image)
    requires m.Valid() && e.Fits(m) && e.compression % 65536 == 0
    ensures var file := Encode(e, m);
            && |file| >= HEADER_BYTES
            && ParseHeader(file).FitsInt() && ParseHeader(file).PixelsWithin(|file|) && ParseHeader(file).Decodable()
            && Decoded(file, ParseHeader(file)) == m.bytes
  {
    var file := Encode(e, m);
    HeaderReadsBack(e, m);
    var h := ParseHeader(file);
    EncodingInBounds(e, m, h);
    forall i, j, k | 0 <= i < m.height && 0 <= j < m.width && 0 <= k < m.channels
      ensures Sample(Decoded(file, h), m.width, m.height, i, j, k, m.channels)
              == Sample(m.bytes, m.width, m.height, i, j, k, m.channels)
    {
      StoredByte(e, m, h, i, j, k);
      DecodedAt(file, h, i, j, k);
    }
    EqualByPixels(Decoded(file, h), m.bytes, m.width, m.height, m.channels);
  }

  /** The file holds channel k of pixel (i, j) where the decoder looks for it. */
  lemma StoredByte(e: Envelope, m: Image, h: Header, i: int, j: int, k: int)
    requires m.Valid() && e.Fits(m)
    requires h == Header(34 + |e.rest|, m.width, m.height, m.channels)
    requires 0 <= i < m.height && 0 <= j < m.width && 0 <= k < m.channels
    ensures 0 <= StoredAt(h, i, j, k) < |Encode(e, m)|
    ensures 0 <= At(i, j, k, m.width, m.channels) < |m.bytes|
    ensures Encode(e, m)[StoredAt(h, i, j, k)] == m.bytes[At(i, j, k, m.width, m.channels)]
  {
    var size := m.RowLength() + m.PadLength();
    RowSizeOfImage(m, h);
    StoredRowAt(e, m, i, size);
    var d := j * m.channels + k;
    var r := j * m.channels + Mirrored(k, m.channels);
    RowByteStored(e, m, i, j, k, d, r);
    StoredAtIs(h, i, j, k, size);
    var at := 34 + |e.rest| + (m.height - 1 - i) * size;
    assert Encode(e, m)[at..at + size][r] == Encode(e, m)[at + r];
  }

  lemma StoredAtIs(h: Header, i: int, j: int, k: int, size: int)
    requires h.RowSize() == size && Supported(h.channels) && 0 <= k < h.channels
    ensures StoredAt(h, i, j, k) == h.pixels + (h.height - 1 - i) * size + (j * h.channels + Mirrored(k, h.channels))
  {
  }

  lemma RowByteStored(e: Envelope, m: Image, i: int, j: int, k: int, d: int, r: int)
    requires m.Valid() && e.Fits(m)
    requires 0 <= i < m.height && 0 <= j < m.width && 0 <= k < m.channels
    requires d == j * m.channels + k && r == j * m.channels + Mirrored(k, m.channels)
    ensures 0 <= At(i, j, k, m.width, m.channels) < |m.bytes| && 0 <= r < m.RowLength() <= |StoredRow(m, e.pads, i)|
    ensures StoredRow(m, e.pads, i)[r] == m.bytes[At(i, j, k, m.width, m.channels)]
  {
    RowSpan(i, m.width, m.height, m.channels);
    assert At(i, j, k, m.width, m.channels) == i * m.RowLength() + d;
    MulMono(j + 1, m.width, m.channels);
    MulMono(0, j, m.channels);
    assert m.Row(i)[d] == m.bytes[i * m.RowLength() + d];
    MirroredSplit(j, k, m.channels);
    SwapPixelsAt(m.Row(i), m.channels, d);
  }

  /** With anything in that half of the compression field the decoder rejects the file. */
  lemma EncodingAcceptedIff(e: Envelope, m: Image)
    requires m.Valid() && e.Fits(m)
    ensures |Encode(e, m)| >= HEADER_BYTES
    ensures DecodeOutcome(ParseHeader(Encode(e, m)), m.channels) == Done <==> e.compression % 65536 == 0
  {
    HeaderReadsBack(e, m);
  }
}
