/** DevMem and Log of ethosu_logd: bounded access to mapped memory, and the log read from it. */
module DevMem {
  import opened Bytes
  import opened Layout

  /** A window on physical memory, mapped from the start of the page its address lies in. */
  class DevMem {
    const memory: array<byte>    // physical memory, as /dev/mem shows it
    const mapped: nat            // physical address of the first mapped byte
    const pageOffset: nat
    const size: nat

    ghost predicate Valid() {
      mapped + pageOffset + size <= memory.Length
    }

    /** The bytes of the window. */
    ghost function Region(): (r: seq<byte>)
      reads memory
      requires Valid()
      ensures |r| == size
    {
      memory[mapped + pageOffset..mapped + pageOffset + size]
    }

    constructor (memory: array<byte>, pageSize: nat, address: nat, size: nat)
      requires pageSize > 0 && address + size <= memory.Length
      ensures Valid() && this.memory == memory && this.size == size
      ensures mapped % pageSize == 0 && Region() == memory[address..address + size]
    {
      this.memory := memory;
      pageOffset := address % pageSize;
      mapped := address - address % pageSize;
      this.size := size;
      new;
      DivModUnique(mapped, pageSize, address / pageSize, 0);
    }

    /** False is the thrown exception; nothing is copied then. */
    method Read(dst: array<byte>, length: nat, offset: nat) returns (ok: bool)
      requires Valid() && dst != memory && length <= dst.Length
      modifies dst
      ensures ok <==> offset + length <= size
      ensures ok ==> dst[..length] == Region()[offset..offset + length] && dst[length..] == old(dst[length..])
      ensures !ok ==> dst[..] == old(dst[..])
    {
      if offset + length > size {
        return false;
      }
      var i := 0;
      while i < length
        invariant 0 <= i <= length
        invariant forall k :: 0 <= k < i ==> dst[k] == Region()[offset + k]
        invariant forall k :: i <= k < dst.Length ==> dst[k] == old(dst[k])
      {
        dst[i] := memory[mapped + pageOffset + offset + i];
        i := i + 1;
      }
      return true;
    }

    method Write(src: array<byte>, length: nat, offset: nat) returns (ok: bool)
      requires Valid() && src != memory && length <= src.Length
      modifies memory
      ensures ok <==> offset + length <= size
      ensures ok ==> Region() == Patched(old(Region()), src[..length], offset)
      ensures forall p :: 0 <= p < memory.Length && !(ok && offset <= p - (mapped + pageOffset) < offset + length) ==>
                            memory[p] == old(memory[p])
    {
      if offset + length > size {
        return false;
      }
      ghost var start := mapped + pageOffset + offset;
      var i := 0;
      while i < length
        invariant 0 <= i <= length
        invariant forall p :: start <= p < start + i ==> memory[p] == src[p - start]
        invariant forall p :: 0 <= p < memory.Length && !(start <= p < start + i) ==> memory[p] == old(memory[p])
      {
        memory[mapped + pageOffset + offset + i] := src[i];
        i := i + 1;
      }
      return true;
    }
  }

  /** s with the bytes at `offset` replaced by t. */
  function Patched(s: seq<byte>, t: seq<byte>, offset: nat): (r: seq<byte>)
    requires offset + |t| <= |s|
    ensures |r| == |s|
  {
    s[..offset] + t + s[offset + |t|..]
  }

  // The shared structure: size, read, six words of padding, write, then the ring.
  const READ_AT := 4
  const WRITE_AT := 32
  const HEADER_SIZE := 36
  const LOG_SIZE_MIN := 1024
  const LOG_SIZE_MAX := 1024 * 1024

  datatype LogHeader = LogHeader(size: nat, read: nat, write: nat) {
    predicate SizeAllowed() {
      LOG_SIZE_MIN <= size <= LOG_SIZE_MAX
    }

    /** First position printed: read, or `size` behind write when that is later. */
    function Start(): nat {
      if read + size < write then write - size else read
    }
  }

  function HeaderOf(region: seq<byte>): (h: LogHeader)
    requires |region| >= HEADER_SIZE
    ensures 0 <= h.size < 0x1_0000_0000 && 0 <= h.read < 0x1_0000_0000 && 0 <= h.write < 0x1_0000_0000
  {
    LogHeader(U32At(region, 0), U32At(region, READ_AT), U32At(region, WRITE_AT))
  }

  /** Offset of the ring slot that holds stream position r. */
  function SlotOffset(r: nat, size: nat): nat
    requires size > 0
  {
    r % size + HEADER_SIZE
  }

  /** What print wrote to the console, and whether it then threw. */
  datatype Printed = Printed(output: seq<byte>, threw: bool)

  /** Prints positions r up to write, stopping at the first slot outside the window. */
  function PrintFrom(region: seq<byte>, r: nat, write: nat, size: nat): Printed
    requires size > 0
    decreases write - r
  {
    if r >= write then Printed([], false)
    else if SlotOffset(r, size) >= |region| then Printed([], true)
    else
      var rest := PrintFrom(region, r + 1, write, size);
      rest.(output := [region[SlotOffset(r, size)]] + rest.output)
  }

  function Before(output: seq<byte>, p: Printed): Printed {
    Printed(output + p.output, p.threw)
  }

  lemma PrintStep(region: seq<byte>, r: nat, write: nat, size: nat, output: seq<byte>)
    requires size > 0 && r < write && SlotOffset(r, size) < |region|
    ensures Before(output, PrintFrom(region, r, write, size))
            == Before(output + [region[SlotOffset(r, size)]], PrintFrom(region, r + 1, write, size))
  {
    var c, rest := region[SlotOffset(r, size)], PrintFrom(region, r + 1, write, size);
    assert output + ([c] + rest.output) == output + [c] + rest.output;
  }

  lemma PrintStop(region: seq<byte>, r: nat, write: nat, size: nat, output: seq<byte>)
    requires size > 0 && (r >= write || SlotOffset(r, size) >= |region|)
    ensures Before(output, PrintFrom(region, r, write, size)) == Printed(output, r < write)
  {
  }

  function PrintSpec(region: seq<byte>): Printed {
    if |region| < HEADER_SIZE || !HeaderOf(region).SizeAllowed() then Printed([], true)
    else var h := HeaderOf(region); PrintFrom(region, h.Start(), h.write, h.size)
  }

  /** The structure as the firmware lays it out: two words, six of padding, and the write counter. */
  function StructBytes(size: nat, read: nat, pad: seq<byte>, write: nat): (s: seq<byte>)
    requires |pad| == 24
    ensures |s| == 36
  {
    ToLittle(size, 4) + ToLittle(read, 4) + pad + ToLittle(write, 4)
  }

  /** The header is read from there, whatever the padding and the ring. */
  lemma StructReadsBack(size: nat, read: nat, pad: seq<byte>, write: nat, ring: seq<byte>)
    requires |pad| == 24 && size < 0x1_0000_0000 && read < 0x1_0000_0000 && write < 0x1_0000_0000
    ensures HeaderOf(StructBytes(size, read, pad, write) + ring) == LogHeader(size, read, write)
  {
    assert Pow256(4) == 0x1_0000_0000;
    LittleRoundTrip(size, 4);
    LittleRoundTrip(read, 4);
    LittleRoundTrip(write, 4);
    var s := StructBytes(size, read, pad, write) + ring;
    assert s[0..4] == ToLittle(size, 4) && s[4..8] == ToLittle(read, 4) && s[32..36] == ToLittle(write, 4);
  }

  /** The slot of position p lies outside a window of this length. */
  predicate SlotMissing(p: nat, size: nat, length: nat)
    requires size > 0
  {
    p % size + 36 >= length
  }

  lemma {:induction false} PrintFromThrowsIff(region: seq<byte>, r: nat, write: nat, size: nat)
    requires size > 0
    ensures PrintFrom(region, r, write, size).threw
            <==> exists p: nat :: r <= p < write && SlotMissing(p, size, |region|)
    decreases write - r
  {
    if r < write {
      assert SlotMissing(r, size, |region|) <==> SlotOffset(r, size) >= |region|;
      PrintFromThrowsIff(region, r + 1, write, size);
    }
  }

  /**
   * Print throws exactly for a window without a header, for a size outside 1024 to 1048576, and for a byte it has to
   * print outside the window.
   */
  lemma PrintThrowsIff(region: seq<byte>)
    ensures PrintSpec(region).threw <==>
            || |region| < 36
            || HeaderOf(region).size < 1024 || HeaderOf(region).size > 1048576
            || exists p: nat :: HeaderOf(region).Start() <= p < HeaderOf(region).write
                                && SlotMissing(p, HeaderOf(region).size, |region|)
  {
    if |region| >= HEADER_SIZE && HeaderOf(region).SizeAllowed() {
      var h := HeaderOf(region);
      PrintFromThrowsIff(region, h.Start(), h.write, h.size);
    }
  }

  /** Print looks at nothing past the ring that the header announces. */
  lemma PrintReadsHeaderAndRing(a: seq<byte>, b: seq<byte>)
    requires |a| >= HEADER_SIZE && HeaderOf(a).SizeAllowed()
    requires var n := HEADER_SIZE + HeaderOf(a).size; n <= |a| && n <= |b| && a[..n] == b[..n]
    ensures PrintSpec(a) == PrintSpec(b)
  {
    var h := HeaderOf(a);
    var n := HEADER_SIZE + h.size;
    assert a[..HEADER_SIZE] == a[..n][..HEADER_SIZE] && b[..HEADER_SIZE] == b[..n][..HEADER_SIZE];
    SameHeader(a, b);
    PrintFromReadsRing(a, b, h.Start(), h.write, h.size);
  }

  lemma {:induction false} PrintFromReadsRing(a: seq<byte>, b: seq<byte>, r: nat, write: nat, size: nat)
    requires size > 0 && HEADER_SIZE + size <= |a| && HEADER_SIZE + size <= |b|
    requires a[..HEADER_SIZE + size] == b[..HEADER_SIZE + size]
    ensures PrintFrom(a, r, write, size) == PrintFrom(b, r, write, size) && !PrintFrom(a, r, write, size).threw
    decreases write - r
  {
    if r < write {
      PrintFromReadsRing(a, b, r + 1, write, size);
      var at := SlotOffset(r, size);
      assert a[at] == a[..HEADER_SIZE + size][at] == b[at];
    }
  }

  /** What is written is read back, and no other byte differs. */
  lemma PatchedReadsBack(s: seq<byte>, t: seq<byte>, offset: nat, at: nat, length: nat)
    requires offset + |t| <= |s| && at + length <= |s|
    ensures Patched(s, t, offset)[offset..offset + |t|] == t
    ensures at + length <= offset || offset + |t| <= at ==> Patched(s, t, offset)[at..at + length] == s[at..at + length]
  {
    var p := Patched(s, t, offset);
    if at + length <= offset || offset + |t| <= at {
      assert forall k :: at <= k < at + length ==> p[k] == s[k];
    }
  }

  /** The region after clear. */
  function Cleared(region: seq<byte>): (r: seq<byte>)
    ensures |r| == |region|
  {
    if |region| < HEADER_SIZE then region
    else Patched(region, ToLittle(HeaderOf(region).write, 4), READ_AT)
  }

  /** Clear moves the read counter to the write counter and leaves size, write and ring alone. */
  lemma ClearedHeader(region: seq<byte>)
    requires |region| >= HEADER_SIZE
    ensures var h := HeaderOf(region); HeaderOf(Cleared(region)) == h.(read := h.write)
    ensures Cleared(region)[HEADER_SIZE..] == region[HEADER_SIZE..]
    ensures PrintSpec(Cleared(region)).output == []
  {
    var h, after := HeaderOf(region), Cleared(region);
    assert Pow256(4) == 0x1_0000_0000;
    LittleRoundTrip(h.write, 4);
    assert after[0..4] == region[0..4];
    assert after[READ_AT..READ_AT + 4] == ToLittle(h.write, 4);
    assert after[WRITE_AT..WRITE_AT + 4] == region[WRITE_AT..WRITE_AT + 4];
  }

  class Log {
    const dev: DevMem

    ghost predicate Valid() {
      dev.Valid()
    }

    constructor (dev: DevMem)
      ensures this.dev == dev
    {
      this.dev := dev;
    }

    method ReadHeader() returns (ok: bool, h: LogHeader)
      requires Valid()
      ensures ok <==> dev.size >= HEADER_SIZE
      ensures ok ==> h == HeaderOf(dev.Region())
    {
      var raw := new byte[HEADER_SIZE];
      ok := dev.Read(raw, HEADER_SIZE, 0);
      h := LogHeader(0, 0, 0);
      if ok {
        h := HeaderOf(raw[..]);
        SameHeader(raw[..], dev.Region());
      }
    }

    method ReadByte(offset: nat) returns (ok: bool, c: byte)
      requires Valid()
      ensures ok <==> offset < dev.size
      ensures ok ==> c == dev.Region()[offset]
    {
      var raw := new byte[1];
      ok := dev.Read(raw, 1, offset);
      c := raw[0];
      if ok {
        assert raw[..1][0] == dev.Region()[offset..offset + 1][0];
      }
    }

    method Clear() returns (ok: bool)
      requires Valid()
      modifies dev.memory
      ensures ok <==> dev.size >= HEADER_SIZE
      ensures dev.Region() == Cleared(old(dev.Region()))
      ensures var at := dev.mapped + dev.pageOffset + READ_AT;
              forall p :: 0 <= p < dev.memory.Length && !(at <= p < at + 4) ==> dev.memory[p] == old(dev.memory[p])
    {
      var h;
      ok, h := ReadHeader();
      if !ok {
        return false;
      }
      var rpos := new byte[4];
      var word := ToLittle(h.write, 4);
      rpos[0], rpos[1], rpos[2], rpos[3] := word[0], word[1], word[2], word[3];
      assert rpos[..4] == word;
      ok := dev.Write(rpos, 4, READ_AT);
    }

    method Print() returns (r: Printed)
      requires Valid()
      ensures r == PrintSpec(dev.Region())
    {
      var ok, h := ReadHeader();
      if !ok {
        return Printed([], true);
      }
      if h.size < LOG_SIZE_MIN || h.size > LOG_SIZE_MAX {
        return Printed([], true);
      }
      var rpos := h.read;
      // Skip forward if read is more than 'size' behind
      if rpos + h.size < h.write {
        rpos := h.write - h.size;
      }
      r := PrintUpTo(rpos, h.write, h.size);
    }

    /** The loop of print, from position `first` on. */
    method PrintUpTo(first: nat, write: nat, size: nat) returns (r: Printed)
      requires Valid() && size > 0
      ensures r == PrintFrom(dev.Region(), first, write, size)
    {
      ghost var region := dev.Region();
      var rpos := first;
      var output: seq<byte> := [];
      while rpos < write
        invariant PrintFrom(region, first, write, size) == Before(output, PrintFrom(region, rpos, write, size))
        decreases write - rpos
      {
        var ok, c := ReadByte(SlotOffset(rpos, size));
        if !ok {
          PrintStop(region, rpos, write, size, output);
          return Printed(output, true);
        }
        PrintStep(region, rpos, write, size, output);
        rpos := rpos + 1;
        output := output + [c];
      }
      PrintStop(region, rpos, write, size, output);
      return Printed(output, false);
    }

    /** The body of main: optional clear, print, optional clear; an exception ends it. */
    method Run(clearBefore: bool, clearAfter: bool) returns (r: Printed)
      requires Valid()
      modifies dev.memory
      ensures r == RunSpec(old(dev.Region()), clearBefore, clearAfter).0
      ensures dev.Region() == RunSpec(old(dev.Region()), clearBefore, clearAfter).1
    {
      if clearBefore {
        var ok := Clear();
        if !ok {
          return Printed([], true);
        }
      }
      r := Print();
      if r.threw {
        return;
      }
      if clearAfter {
        var ok := Clear();
        if !ok {
          return r.(threw := true);
        }
      }
    }
  }

  lemma SameHeader(a: seq<byte>, b: seq<byte>)
    requires HEADER_SIZE <= |a| && HEADER_SIZE <= |b| && a[..HEADER_SIZE] == b[..HEADER_SIZE]
    ensures HeaderOf(a) == HeaderOf(b)
  {
    assert a[0..4] == a[..HEADER_SIZE][0..4] && b[0..4] == b[..HEADER_SIZE][0..4];
    assert a[4..8] == a[..HEADER_SIZE][4..8] && b[4..8] == b[..HEADER_SIZE][4..8];
    assert a[32..36] == a[..HEADER_SIZE][32..36] && b[32..36] == b[..HEADER_SIZE][32..36];
  }

  function RunSpec(region: seq<byte>, clearBefore: bool, clearAfter: bool): (Printed, seq<byte>) {
    var ready := if clearBefore then Cleared(region) else region;
    if clearBefore && |region| < HEADER_SIZE then (Printed([], true), region)
    else
      var p := PrintSpec(ready);
      if p.threw then (p, ready) else (p, if clearAfter then Cleared(ready) else ready)
  }

  /** A run throws exactly when it finds no whole header, or its print throws, which after -C takes a forbidden size. */
  lemma RunThrowsIff(region: seq<byte>, clearBefore: bool, clearAfter: bool)
    ensures var (printed, after) := RunSpec(region, clearBefore, clearAfter);
            && (printed.threw <==>
                  || |region| < 36
                  || (if clearBefore then HeaderOf(region).size < 1024 || HeaderOf(region).size > 1048576
                      else PrintSpec(region).threw))
            && (printed.threw ==> after == if clearBefore then Cleared(region) else region)
  {
    if |region| >= HEADER_SIZE {
      ClearedHeader(region);
      PrintThrowsIff(Cleared(region));
    }
  }

  /** A run that clears first prints nothing. */
  lemma ClearFirstPrintsNothing(region: seq<byte>, clearAfter: bool)
    ensures RunSpec(region, true, clearAfter).0.output == []
  {
    if |region| >= HEADER_SIZE {
      ClearedHeader(region);
    }
  }

  /** Unless it threw, a run that clears afterwards leaves nothing for the next one to print. */
  lemma ReadAndClearLeavesNothing(region: seq<byte>, clearBefore: bool, clearAfter: bool)
    requires !RunSpec(region, clearBefore, true).0.threw
    ensures RunSpec(RunSpec(region, clearBefore, true).1, false, clearAfter).0 == Printed([], false)
  {
    var ready := if clearBefore then Cleared(region) else region;
    if clearBefore {
      ClearedHeader(region);
    }
    ClearedHeader(ready);
  }

  /** main learns the size only from the device tree: with a non-zero --address it stays 0. */
  function MappedSize(addressGiven: bool, treeSize: nat): nat {
    if addressGiven then 0 else treeSize
  }

  /** So a run prints anything or succeeds only without an explicit address. */
  lemma ExplicitAddressAlwaysFails(region: seq<byte>, addressGiven: bool, treeSize: nat, clearBefore: bool,
      clearAfter: bool)
    requires |region| == MappedSize(addressGiven, treeSize)
    requires var r := RunSpec(region, clearBefore, clearAfter).0; !r.threw || r.output != []
    ensures !addressGiven && treeSize >= HEADER_SIZE
  {
  }
}
