/** getInputFromFile: decode, resize and re-bias a BMP file into an input tensor. */
module Tensor {
  import opened Bytes
  import opened Layout
  import opened Resize
  import opened IndexRounding
  import opened ResizeIndex
  import opened ResizeLaws
  import opened BmpDecode
  import opened BmpEncode

  /** Tensor element types; Unknown is any type the conversion does not handle. */
  datatype ElementType = UInt8 | Int8 | Unknown

  /** The int8 value stored in a byte. */
  function Signed8(b: byte): (v: int)
    ensures -128 <= v < 128 && (v == b || v == b - 256)
  {
    if b < 128 then b else b - 256
  }

  /** Storing an int in an int8 keeps its low eight bits. */
  function Stored8(n: int): (b: byte)
  {
    n % 256
  }

  function Rebias(b: byte): byte {
    Stored8(Signed8(b) - 127)
  }

  /** A pixel byte becomes the int8 value 127 below it, except that 255 wraps round to -128. */
  lemma RebiasValue(b: byte)
    ensures Signed8(Rebias(b)) == if b == 255 then -128 else b - 127
  {
  }

  /** So brightness order survives exactly when the brighter pixel is not 255, and no two pixels collide. */
  lemma RebiasOrder(a: byte, b: byte)
    requires a < b
    ensures Signed8(Rebias(a)) < Signed8(Rebias(b)) <==> b != 255
    ensures Rebias(a) != Rebias(b)
  {
    RebiasValue(a);
    RebiasValue(b);
  }

  function ConvertedByte(t: ElementType, b: byte): byte {
    if t == Int8 then Rebias(b) else b
  }

  function Converted(t: ElementType, s: seq<byte>): (r: seq<byte>)
    ensures |r| == |s|
  {
    seq(|s|, p requires 0 <= p < |s| => ConvertedByte(t, s[p]))
  }

  function ConvertCode(t: ElementType): int {
    if t == Unknown then -1 else 0
  }

  /** In place, last element first. */
  method ConvertInputData(t: ElementType, data: array<byte>, size: int) returns (code: int)
    requires 0 <= size <= data.Length
    modifies data
    ensures code == ConvertCode(t) && (code == if t == Unknown then -1 else 0)
    ensures data[..size] == Converted(t, old(data[..size]))
    ensures t == UInt8 || t == Unknown ==> data[..size] == old(data[..size])
    ensures t == Int8 ==>
              forall p :: 0 <= p < size ==>
                            Signed8(data[p]) == if old(data[p]) == 255 then -128 else old(data[p]) as int - 127
    ensures data[size..] == old(data[size..])
  {
    match t {
      case UInt8 =>
      case Int8 =>
        var i := size - 1;
        while i >= 0
          invariant -1 <= i < size
          invariant forall p :: i < p < size ==> data[p] == Rebias(old(data[p]))
          invariant forall p :: 0 <= p < data.Length && !(i < p < size) ==> data[p] == old(data[p])
        {
          data[i] := Stored8(Signed8(data[i]) - 127);
          i := i - 1;
        }
      case Unknown =>
        return -1;
    }
    return 0;
  }

  /** The local buffer after the read: the file, then whatever the stack held there. */
  function InBuffer(file: seq<byte>, stack: seq<byte>): (buffer: seq<byte>)
    requires |file| <= |stack|
    ensures |buffer| == |stack|
  {
    file + stack[|file|..]
  }

  /** The file fits the buffer, and the header found there neither overflows nor announces pixels outside it. */
  predicate Readable(file: seq<byte>, stack: seq<byte>) {
    && |file| <= |stack| == DECODE_BUFFER_SIZE
    && var h := ParseHeader(InBuffer(file, stack));
       h.FitsInt() && h.PixelsWithin(DECODE_BUFFER_SIZE)
  }

  /** The file holds its own header and pixels. */
  predicate Complete(file: seq<byte>) {
    && HEADER_BYTES <= |file| <= DECODE_BUFFER_SIZE
    && ParseHeader(file).FitsInt() && ParseHeader(file).PixelsWithin(|file|)
  }

  /** A tensor shape [_, a, b, c]; a is used as the width and b as the height. */
  predicate ShapeFits(shape: seq<nat>, length: int) {
    |shape| >= 4 && shape[1] * shape[2] * shape[3] <= length
  }

  /** Aborted: the channel assertion failed and the call never returns. */
  datatype Loaded = Returned(code: int) | Aborted

  /** The decoder returns -1, which is ignored: an image too large, or pixels of neither one nor three bytes. */
  predicate Refused(h: Header) {
    || h.width * h.height * h.channels > 1920 * 1080 * 3
    || (h.width > 0 && h.height > 0 && h.channels != 1 && h.channels != 3)
  }

  function LoadOutcome(t: ElementType, file: Option<seq<byte>>, readOk: bool, stack: seq<byte>, shape: seq<nat>): Loaded
    requires |shape| >= 4
    requires file.Some? && readOk ==> Readable(file.value, stack)
  {
    if file.None? || !readOk then Returned(-1)
    else if DecodeOutcome(ParseHeader(InBuffer(file.value, stack)), shape[3]) == AssertionFailed then Aborted
    else Returned(ConvertCode(t))
  }

  /** The tensor bytes before conversion: the decoder leaves them alone unless it finishes. */
  function PixelsLoaded(file: seq<byte>, stack: seq<byte>, shape: seq<nat>, before: seq<byte>): (s: seq<byte>)
    requires Readable(file, stack) && ShapeFits(shape, |before|)
    ensures |s| == |before|
  {
    var buffer := InBuffer(file, stack);
    var h := ParseHeader(buffer);
    var n := Extent(shape[1], shape[2], shape[3]);
    if DecodeOutcome(h, shape[3]) == Done then
      ExtentWithin(shape, |before|);
      Resized(Decoded(buffer, h), h.width, h.height, shape[1], shape[2], shape[3]) + before[n..]
    else before
  }

  lemma ExtentWithin(shape: seq<nat>, length: int)
    requires ShapeFits(shape, length)
    ensures Extent(shape[1], shape[2], shape[3]) <= shape[1] * shape[2] * shape[3] <= length
  {
    MulMono(0, shape[1], shape[2]);
    MulMono(0, shape[1] * shape[2], shape[3]);
  }

  /** A complete file is decoded from its own bytes, whatever the stack held. */
  lemma CompleteDecodesAlike(file: seq<byte>, stack: seq<byte>)
    requires Complete(file) && |stack| == DECODE_BUFFER_SIZE
    ensures Readable(file, stack)
    ensures ParseHeader(InBuffer(file, stack)) == ParseHeader(file)
    ensures Decoded(InBuffer(file, stack), ParseHeader(file)) == Decoded(file, ParseHeader(file))
  {
    var longer := InBuffer(file, stack);
    assert longer[10..14] == file[10..14] && longer[18..22] == file[18..22];
    assert longer[22..26] == file[22..26] && longer[28..32] == file[28..32];
    var h := ParseHeader(file);
    forall p | 0 <= p < |Decoded(file, h)|
      ensures Decoded(longer, h)[p] == Decoded(file, h)[p]
    {
      CoordsInRange(p, h.width, h.height, h.channels);
      var i, j, k := RowOf(p, h.width, h.channels), ColOf(p, h.width, h.channels), ChanOf(p, h.channels);
      DecodedAt(file, h, i, j, k);
      DecodedAt(longer, h, i, j, k);
    }
  }

  /** So the tensor and the return value depend on a complete file only. */
  lemma StackDoesNotMatter(t: ElementType, file: seq<byte>, stack: seq<byte>, other: seq<byte>, shape: seq<nat>,
        before: seq<byte>)
    requires Complete(file) && |stack| == |other| == DECODE_BUFFER_SIZE && ShapeFits(shape, |before|)
    ensures Readable(file, stack) && Readable(file, other)
    ensures PixelsLoaded(file, stack, shape, before) == PixelsLoaded(file, other, shape, before)
    ensures LoadOutcome(t, Some(file), true, stack, shape) == LoadOutcome(t, Some(file), true, other, shape)
  {
    CompleteDecodesAlike(file, stack);
    CompleteDecodesAlike(file, other);
  }

  /** Reads the file into a local buffer and decodes it. */
  method LoadPixels(file: seq<byte>, stack: seq<byte>, scratch: array<byte>, data: array<byte>, shape: seq<nat>)
    returns (status: Outcome)
    requires data != scratch && scratch.Length == DECODE_BUFFER_SIZE
    requires Readable(file, stack) && ShapeFits(shape, data.Length)
    modifies scratch, data
    ensures status == DecodeOutcome(ParseHeader(InBuffer(file, stack)), shape[3])
    ensures data[..] == PixelsLoaded(file, stack, shape, old(data[..]))
  {
    var local := new byte[DECODE_BUFFER_SIZE](i requires 0 <= i < |stack| => stack[i]);
    forall i | 0 <= i < |file| {
      local[i] := file[i];
    }
    assert local[..] == InBuffer(file, stack);
    ExtentWithin(shape, data.Length);
    status := ImageDecode(local, scratch, data, shape[1], shape[2], shape[3]);
    ghost var n := Extent(shape[1], shape[2], shape[3]);
    assert data[..] == data[..n] + data[n..];
  }

  method GetInputFromFile(t: ElementType, file: Option<seq<byte>>, readOk: bool, stack: seq<byte>,
        scratch: array<byte>, data: array<byte>, shape: seq<nat>)
    returns (r: Loaded)
    requires data != scratch && scratch.Length == DECODE_BUFFER_SIZE
    requires file.Some? ==> |file.value| <= |stack| == DECODE_BUFFER_SIZE
    requires file.Some? && readOk ==> Readable(file.value, stack)
    requires ShapeFits(shape, data.Length)
    modifies scratch, data
    ensures r == LoadOutcome(t, file, readOk, stack, shape)
    ensures file.None? || !readOk ==> r == Returned(-1)
    ensures file.Some? && readOk ==>
              var h := ParseHeader(InBuffer(file.value, stack));
              r == if Refused(h) || h.channels == shape[3] then Returned(if t == Unknown then -1 else 0) else Aborted
    ensures file.None? || !readOk || r == Aborted ==> data[..] == old(data[..])
    ensures file.Some? && readOk && r != Aborted ==>
              var n := shape[1] * shape[2] * shape[3];
              && 0 <= n
              && data[..n] == Converted(t, PixelsLoaded(file.value, stack, shape, old(data[..]))[..n])
              && data[n..] == old(data[n..])
  {
    if file.None? {
      return Returned(-1);
    }
    if !readOk {
      return Returned(-1);
    }
    var status := LoadPixels(file.value, stack, scratch, data, shape);
    if status == AssertionFailed {
      return Aborted;
    }
    var code := ConvertInputData(t, data, shape[1] * shape[2] * shape[3]);
    return Returned(code);
  }

  /** Before conversion, the tensor's pixels are the image's pixels at the computed indices. */
  lemma PixelsShowImage(e: Envelope, m: Image, stack: seq<byte>, shape: seq<nat>, before: seq<byte>,
        i: int, j: int, k: int)
    requires m.Valid() && e.Fits(m) && e.compression % 65536 == 0 && |Encode(e, m)| <= DECODE_BUFFER_SIZE == |stack|
    requires ShapeFits(shape, |before|) && shape[3] == m.channels
    requires 0 <= i < shape[2] && 0 <= j < shape[1] && 0 <= k < m.channels
    ensures Readable(Encode(e, m), stack)
    ensures DecodeOutcome(ParseHeader(InBuffer(Encode(e, m), stack)), shape[3]) == Done
    ensures var p := At(i, j, k, shape[1], m.channels);
            && 0 <= p < shape[1] * shape[2] * shape[3] <= |before|
            && PixelsLoaded(Encode(e, m), stack, shape, before)[p]
               == Sample(m.bytes, m.width, m.height, IndexAt(i, m.height, shape[2], m.channels),
                         IndexAt(j, m.width, shape[1], m.channels), k, m.channels)
  {
    HeaderReadsBack(e, m);
    DecodeInvertsEncode(e, m);
    CompleteDecodesAlike(Encode(e, m), stack);
    ExtentWithin(shape, |before|);
    ResizedAt(m.bytes, m.width, m.height, shape[1], shape[2], m.channels, i, j, k);
  }

  /**
   * End to end: whatever the header size, the padding, the stack and the former tensor contents, element (i, j, k) of
   * the tensor comes from the encoded image's pixel at the computed indices, which are the nearest ones up to exact
   * ties, or from a zero past its border: a uint8 element is that byte, an int8 element 127 below it, or -128 for 255.
   */
  lemma TensorShowsImage(t: ElementType, e: Envelope, m: Image, stack: seq<byte>, shape: seq<nat>, before: seq<byte>,
        i: int, j: int, k: int)
    requires m.Valid() && e.Fits(m) && e.compression % 65536 == 0 && |Encode(e, m)| <= DECODE_BUFFER_SIZE == |stack|
    requires ShapeFits(shape, |before|) && shape[3] == m.channels
    requires Sizes(m.width, m.height, shape[1], shape[2])
    requires 0 <= i < shape[2] && 0 <= j < shape[1] && 0 <= k < m.channels
    ensures Readable(Encode(e, m), stack)
    ensures LoadOutcome(t, Some(Encode(e, m)), true, stack, shape) == Returned(if t == Unknown then -1 else 0)
    ensures var p := At(i, j, k, shape[1], m.channels);
            var pi, pj := IndexAt(i, m.height, shape[2], m.channels), IndexAt(j, m.width, shape[1], m.channels);
            && Admissible(pi, i, m.height, shape[2], m.channels) && Admissible(pj, j, m.width, shape[1], m.channels)
            && 0 <= p < shape[1] * shape[2] * shape[3] <= |before|
            && var b, c := Sample(m.bytes, m.width, m.height, pi, pj, k, m.channels),
                           Converted(t, PixelsLoaded(Encode(e, m), stack, shape, before))[p];
            && (t == UInt8 ==> c == b)
            && (t == Int8 ==> Signed8(c) == if b == 255 then -128 else b - 127)
  {
    IndexAdmissible(i, m.height, shape[2], m.channels);
    IndexAdmissible(j, m.width, shape[1], m.channels);
    PixelsShowImage(e, m, stack, shape, before, i, j, k);
    RebiasValue(PixelsLoaded(Encode(e, m), stack, shape, before)[At(i, j, k, shape[1], m.channels)]);
  }

  /** A tensor of the image's own size holds the image itself, re-biased. */
  lemma SameSizeTensor(t: ElementType, e: Envelope, m: Image, stack: seq<byte>, shape: seq<nat>, before: seq<byte>)
    requires m.Valid() && e.Fits(m) && e.compression % 65536 == 0 && |Encode(e, m)| <= DECODE_BUFFER_SIZE == |stack|
    requires |shape| >= 4 && shape[1] == m.width && shape[2] == m.height && shape[3] == m.channels
    requires |before| == |m.bytes|
    ensures Readable(Encode(e, m), stack) && ShapeFits(shape, |before|)
    ensures Converted(t, PixelsLoaded(Encode(e, m), stack, shape, before)) == Converted(t, m.bytes)
  {
    HeaderReadsBack(e, m);
    DecodeInvertsEncode(e, m);
    CompleteDecodesAlike(Encode(e, m), stack);
    ResizeToSameSize(m);
  }

  lemma ResizeToSameSize(m: Image)
    requires m.Valid()
    ensures Resized(m.bytes, m.width, m.height, m.width, m.height, m.channels) == m.bytes
  {
    SidesFit(m);
    MulMono(m.width, DECODE_BUFFER_SIZE, m.width);
    MulMono(m.height, DECODE_BUFFER_SIZE, m.height);
    var r := Resized(m.bytes, m.width, m.height, m.width, m.height, m.channels);
    forall i, j, k | 0 <= i < m.height && 0 <= j < m.width && 0 <= k < m.channels
      ensures Sample(r, m.width, m.height, i, j, k, m.channels)
          == Sample(m.bytes, m.width, m.height, i, j, k, m.channels)
    {
      DivModUnique(m.height, m.height, 1, 0);
      DivModUnique(m.width, m.width, 1, 0);
      IndexIs(i, m.height, m.height, m.channels, i);
      IndexIs(j, m.width, m.width, m.channels, j);
      ResizedAt(m.bytes, m.width, m.height, m.width, m.height, m.channels, i, j, k);
    }
    EqualByPixels(r, m.bytes, m.width, m.height, m.channels);
  }
}
