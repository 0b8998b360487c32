/** The device tree node reader of ethosu_logd: NUL-separated names, big-endian cells, lookup by name. */
module Dts {
  import opened Bytes
  import opened Layout

  type Name = seq<byte>

  /** OutOfBounds marks reads past the end of a property, which the program does not check and C++ leaves undefined. */
  datatype Error = NameNotFound | IllegalIntegerSize | OutOfBounds

  datatype Result<+T> = Success(value: T) | Failure(error: Error) {
    predicate IsFailure() {
      Failure?
    }

    function PropagateFailure<U>(): Result<U>
      requires Failure?
    {
      Failure(error)
    }

    function Extract(): T
      requires Success?
    {
      value
    }
  }

  /** Byte order of the processor the program runs on. */
  datatype Host = LittleEndian | BigEndian

  /** What the program computes: it masks the value, not its first byte in memory. */
  predicate IsBigEndian() {
    var d: bv32 := 0x12345678;
    d & 0xf == 1
  }

  lemma NeverBigEndian()
    ensures !IsBigEndian()
  {
  }

  /** The unsigned integer a host sees in these bytes of its memory. */
  function InMemory(d: seq<byte>, host: Host): int {
    if host == LittleEndian then FromLittle(d) else FromBig(d)
  }

  /** What toCpu returns. */
  function CpuValue(src: seq<byte>, host: Host): (v: int)
    ensures 0 <= v < Pow256(|src|)
  {
    if host == LittleEndian then FromBig(src) else FromLittle(src)
  }

  /** The bytes toCpu assembles: copied when the host is taken for big-endian, reversed otherwise. */
  method Assemble(src: seq<byte>, bigEndian: bool) returns (d: array<byte>)
    ensures fresh(d) && d[..] == (if bigEndian then src else Reverse(src))
  {
    var size := |src|;
    d := new byte[size];
    var i := 0;
    while i < size
      invariant 0 <= i <= size == d.Length
      invariant bigEndian ==> forall k :: 0 <= k < i ==> d[k] == src[k]
      invariant !bigEndian ==> forall k :: 0 <= k < i ==> d[k] == src[size - 1 - k]
    {
      if bigEndian {
        d[i] := src[i];
      } else {
        d[i] := src[size - 1 - i];
      }
      i := i + 1;
    }
  }

  method ToCpu(src: seq<byte>, host: Host) returns (v: int)
    ensures v == CpuValue(src, host)
  {
    var d := Assemble(src, IsBigEndian());
    ReverseSwapsOrder(src);
    ReverseSwapsOrder(Reverse(src));
    assert Reverse(Reverse(src)) == src;
    v := InMemory(d[..], host);
  }

  /** Every integer wider than a byte is read as big-endian data should be only on a little-endian host. */
  lemma ToCpuReadsBigEndianIff(host: Host, width: nat)
    ensures (forall src: seq<byte> :: |src| == width ==> CpuValue(src, host) == FromBig(src))
            <==> host == LittleEndian || width <= 1
  {
    if width <= 1 {
      forall src: seq<byte> | |src| == width
        ensures FromLittle(src) == FromBig(src)
      {
        if width == 1 {
          assert src[1..] == [] && src[..0] == [];
        }
      }
    } else if host == BigEndian {
      var src := ToLittle(1, width);
      assert 1 < Pow256(width) by { assert Pow256(width) == 256 * Pow256(width - 1); }
      LittleRoundTrip(1, width);
      assert src[width - 1] == 0 by { LittleOneTail(width, width - 1); }
      assert FromBig(src) == 256 * FromBig(src[..width - 1]) + src[width - 1];
      assert |src| == width && CpuValue(src, host) == 1;
    }
  }

  lemma {:induction false} LittleOneTail(width: nat, i: nat)
    requires 0 < i < width
    ensures ToLittle(1, width)[i] == 0
  {
    LittleZero(width - 1, i - 1);
    assert ToLittle(1, width)[1..] == ToLittle(0, width - 1);
  }

  lemma {:induction false} LittleZero(width: nat, i: nat)
    requires i < width
    ensures ToLittle(0, width)[i] == 0
  {
    if i > 0 {
      LittleZero(width - 1, i - 1);
      assert ToLittle(0, width)[1..] == ToLittle(0, width - 1);
    }
  }

  // Names

  predicate NulFree(s: seq<byte>) {
    forall i :: 0 <= i < |s| ==> s[i] != 0
  }

  /** Position of the first NUL, or the length. */
  function FindNul(s: seq<byte>): (z: nat)
    ensures z <= |s| && (z < |s| ==> s[z] == 0)
    ensures forall i :: 0 <= i < z ==> s[i] != 0
  {
    NulFrom(s, 0)
  }

  function NulFrom(s: seq<byte>, from: nat): (z: nat)
    requires from <= |s|
    ensures from <= z <= |s| && (z < |s| ==> s[z] == 0)
    ensures forall i :: from <= i < z ==> s[i] != 0
    decreases |s| - from
  {
    if from == |s| || s[from] == 0 then from else NulFrom(s, from + 1)
  }

  /** The NUL-terminated strings of s. */
  function Strings(s: seq<byte>): seq<Name>
    decreases |s|
  {
    var z := FindNul(s);
    if z == |s| then [] else [s[..z]] + Strings(s[z + 1..])
  }

  /** What follows the last NUL. */
  function Unterminated(s: seq<byte>): seq<byte>
    decreases |s|
  {
    var z := FindNul(s);
    if z == |s| then s else Unterminated(s[z + 1..])
  }

  function Join(names: seq<Name>): seq<byte> {
    if names == [] then [] else names[0] + [0] + Join(names[1..])
  }

  lemma JoinCons(name: Name, names: seq<Name>)
    ensures Join([name] + names) == name + [0] + Join(names)
  {
    assert ([name] + names)[1..] == names;
  }

  /** Splitting inverts joining, empty names included; an unterminated tail is dropped and nothing else. */
  lemma {:induction false} StringsOfJoin(names: seq<Name>, tail: seq<byte>)
    requires NulFree(tail) && forall i :: 0 <= i < |names| ==> NulFree(names[i])
    ensures Strings(Join(names) + tail) == names && Unterminated(Join(names) + tail) == tail
  {
    if names == [] {
      assert Join(names) + tail == tail;
    } else {
      var rest := Join(names[1..]) + tail;
      StringsOfJoin(names[1..], tail);
      Associate(names[0] + [0], Join(names[1..]), tail);
      assert Join(names) + tail == names[0] + [0] + rest;
      FirstNameFound(names[0], rest);
      StringsUnfold(names[0] + [0] + rest, |names[0]|);
      assert names == [names[0]] + names[1..];
    }
  }

  lemma FirstNameFound(name: Name, rest: seq<byte>)
    requires NulFree(name)
    ensures var s := name + [0] + rest;
            FindNul(s) == |name| && s[..|name|] == name && s[|name| + 1..] == rest
  {
    var s := name + [0] + rest;
    assert s[|name|] == 0 && forall i :: 0 <= i < |name| ==> s[i] == name[i];
  }

  lemma StringsUnfold(s: seq<byte>, z: nat)
    requires z == FindNul(s) < |s|
    ensures Strings(s) == [s[..z]] + Strings(s[z + 1..])
  {
  }

  lemma TailUnfold(s: seq<byte>, z: nat)
    requires z == FindNul(s) < |s|
    ensures Unterminated(s) == Unterminated(s[z + 1..])
  {
  }

  lemma SplitAround(s: seq<byte>, z: nat)
    requires z < |s| && s[z] == 0
    ensures s == s[..z] + [0] + s[z + 1..]
  {
  }

  /** Any property is the join of the names read from it and its unterminated tail. */
  lemma {:induction false} JoinOfStrings(s: seq<byte>)
    ensures Join(Strings(s)) + Unterminated(s) == s
    decreases |s|
  {
    var z := FindNul(s);
    if z == |s| {
      assert Join([]) + s == s;
    } else {
      var name, rest := s[..z], s[z + 1..];
      StringsUnfold(s, z);
      TailUnfold(s, z);
      SplitAround(s, z);
      JoinOfStrings(rest);
      JoinCons(name, Strings(rest));
      Associate(name + [0], Join(Strings(rest)), Unterminated(rest));
    }
  }

  /** Neither the names read nor the tail hold a NUL. */
  lemma {:induction false} StringsNulFree(s: seq<byte>)
    ensures NulFree(Unterminated(s)) && forall i :: 0 <= i < |Strings(s)| ==> NulFree(Strings(s)[i])
    decreases |s|
  {
    var z := FindNul(s);
    if z == |s| {
      assert s[..z] == s;
    } else {
      StringsUnfold(s, z);
      TailUnfold(s, z);
      StringsNulFree(s[z + 1..]);
    }
  }

  lemma Associate<T>(a: seq<T>, b: seq<T>, c: seq<T>)
    ensures a + b + c == a + (b + c)
  {
  }

  function FirstIndex(names: seq<Name>, name: Name): (i: nat)
    ensures i <= |names| && (i < |names| ==> names[i] == name)
    ensures forall k :: 0 <= k < i ==> names[k] != name
  {
    if names == [] || names[0] == name then 0 else 1 + FirstIndex(names[1..], name)
  }

  /** Property files of a node directory, by name. */
  type Node = map<string, seq<byte>>

  const ADDRESS_CELLS := "#address-cells"
  const SIZE_CELLS := "#size-cells"

  /** A missing file reads as empty. */
  function PropertyOf(node: Node, name: string): seq<byte> {
    if name in node then node[name] else []
  }

  function IntOf(node: Node, host: Host, name: string, offset: nat, size: nat): (r: Result<nat>)
  {
    if size !in {1, 2, 4, 8} then Failure(IllegalIntegerSize)
    else if offset + size > |PropertyOf(node, name)| then Failure(OutOfBounds)
    else Success(CpuValue(PropertyOf(node, name)[offset..offset + size], host))
  }

  /** Cells per field: two unless the node itself says otherwise. */
  function CellsOf(node: Node, host: Host, name: string): Result<nat> {
    if name in node then IntOf(node, host, name, 0, 4) else Success(2)
  }

  /** Offset of an entry of this many cells. */
  function RegOffset(index: nat, cells: nat): nat {
    MulMono(0, index, cells);
    index * cells * 4
  }

  function RegAt(node: Node, host: Host, index: nat): Result<(nat, nat)> {
    var a :- CellsOf(node, host, ADDRESS_CELLS);
    var s :- CellsOf(node, host, SIZE_CELLS);
    var offset := RegOffset(index, a + s);
    var address :- IntOf(node, host, "reg", offset, a * 4);
    var size :- IntOf(node, host, "reg", offset + a * 4, s * 4);
    Success((address, size))
  }

  function RegNamed(node: Node, host: Host, name: Name): Result<(nat, nat)> {
    var names := Strings(PropertyOf(node, "reg-names"));
    var i := FirstIndex(names, name);
    if i == |names| then Failure(NameNotFound) else RegAt(node, host, i)
  }

  lemma StringsStep(s: seq<byte>, it: nat, end: nat, names: seq<Name>)
    requires it <= end < |s| && end == it + FindNul(s[it..])
    ensures names + Strings(s[it..]) == names + [s[it..end]] + Strings(s[end + 1..])
  {
    var name, rest := s[it..end], s[end + 1..];
    DropTwice(s, it, end);
    StringsUnfold(s[it..], end - it);
    assert Strings(s[it..]) == [name] + Strings(rest);
    Associate(names, [name], Strings(rest));
  }

  lemma DropTwice(s: seq<byte>, it: nat, end: nat)
    requires it <= end < |s|
    ensures s[it..][..end - it] == s[it..end] && s[it..][end - it + 1..] == s[end + 1..]
  {
  }

  class DTS {
    const node: Node
    const host: Host

    constructor (node: Node, host: Host)
      ensures this.node == node && this.host == host
    {
      this.node := node;
      this.host := host;
    }

    method GetString(name: string) returns (names: seq<Name>)
      ensures names == Strings(PropertyOf(node, name))
    {
      var property := PropertyOf(node, name);
      names := [];
      var it := 0;
      var end := it + FindNul(property[it..]);
      while end != |property|
        invariant 0 <= it <= end <= |property| && end == it + FindNul(property[it..])
        invariant names + Strings(property[it..]) == Strings(property)
        decreases |property| - it
      {
        StringsStep(property, it, end, names);
        names := names + [property[it..end]];
        it := end + 1;
        end := it + FindNul(property[it..]);
      }
    }

    method GetInt(name: string, offset: nat, size: nat) returns (r: Result<nat>)
      ensures r == IntOf(node, host, name, offset, size)
      ensures var property := PropertyOf(node, name);
              r == if size !in {1, 2, 4, 8} then Failure(IllegalIntegerSize)
                   else if offset + size > |property| then Failure(OutOfBounds)
                   else if host == LittleEndian then Success(FromBig(property[offset..offset + size]))
                   else Success(FromLittle(property[offset..offset + size]))
    {
      var property := PropertyOf(node, name);
      if size != 1 && size != 2 && size != 4 && size != 8 {
        return Failure(IllegalIntegerSize);
      }
      if offset + size > |property| {
        return Failure(OutOfBounds);
      }
      var v := ToCpu(property[offset..offset + size], host);
      return Success(v);
    }

    method GetCells(name: string) returns (r: Result<nat>)
      ensures r == CellsOf(node, host, name)
    {
      if name !in node {
        return Success(2);
      }
      r := GetInt(name, 0, 4);
    }

    method GetRegByIndex(index: nat) returns (r: Result<(nat, nat)>)
      ensures r == RegAt(node, host, index)
    {
      var a :- GetCells(ADDRESS_CELLS);
      var s :- GetCells(SIZE_CELLS);
      var offset := RegOffset(index, a + s);
      var address :- GetInt("reg", offset, a * 4);
      var size :- GetInt("reg", offset + a * 4, s * 4);
      return Success((address, size));
    }

    method GetRegByName(name: Name) returns (r: Result<(nat, nat)>)
      ensures r == RegNamed(node, host, name)
    {
      var names := GetString("reg-names");
      var index := IndexOf(names, name);
      if index == |names| {
        return Failure(NameNotFound);
      }
      r := GetRegByIndex(index);
    }

    /** The search loop: it stops at the first name that is equal. */
    method IndexOf(names: seq<Name>, name: Name) returns (index: nat)
      ensures index == FirstIndex(names, name)
    {
      index := 0;
      while index < |names|
        invariant 0 <= index <= |names|
        invariant FirstIndex(names, name) >= index
      {
        if names[index] == name {
          return;
        }
        index := index + 1;
      }
    }
  }

  // Writing a node

  datatype Entry = Entry(name: Name, address: nat, size: nat)

  ghost predicate Encodable(entries: seq<Entry>, a: nat, s: nat) {
    && 1 <= a <= 2 && 1 <= s <= 2
    && forall i :: 0 <= i < |entries| ==>
         NulFree(entries[i].name) && entries[i].address < Pow256(4 * a) && entries[i].size < Pow256(4 * s)
  }

  function NamesOf(entries: seq<Entry>): (n: seq<Name>)
    ensures |n| == |entries| && forall i :: 0 <= i < |n| ==> n[i] == entries[i].name
  {
    seq(|entries|, i requires 0 <= i < |entries| => entries[i].name)
  }

  function Cells(e: Entry, a: nat, s: nat): seq<byte> {
    ToBig(e.address, 4 * a) + ToBig(e.size, 4 * s)
  }

  function EncodeReg(entries: seq<Entry>, a: nat, s: nat): seq<byte> {
    Concat(seq(|entries|, i requires 0 <= i < |entries| => Cells(entries[i], a, s)))
  }

  /** The node says this many cells, in a big-endian word or, for two, by saying nothing. */
  predicate Declares(node: Node, name: string, cells: nat) {
    if name in node then |node[name]| >= 4 && node[name][..4] == ToBig(cells, 4) else cells == 2
  }

  /** The node holds these entries; a tail may follow the last name. */
  ghost predicate Holds(node: Node, entries: seq<Entry>, a: nat, s: nat, tail: seq<byte>) {
    && Encodable(entries, a, s) && NulFree(tail)
    && PropertyOf(node, "reg-names") == Join(NamesOf(entries)) + tail
    && PropertyOf(node, "reg") == EncodeReg(entries, a, s)
    && Declares(node, ADDRESS_CELLS, a) && Declares(node, SIZE_CELLS, s)
  }

  lemma CellsRead(node: Node, name: string, cells: nat)
    requires Declares(node, name, cells) && cells <= 2
    ensures CellsOf(node, LittleEndian, name) == Success(cells)
  {
    if name in node {
      assert Pow256(4) == 0x1_0000_0000;
      BigRoundTrip(cells, 4);
      assert node[name][0..4] == node[name][..4];
    }
  }

  lemma TwoParts(s: seq<byte>, at: nat, x: seq<byte>, y: seq<byte>)
    requires at + |x| + |y| <= |s| && s[at..at + (|x| + |y|)] == x + y
    ensures s[at..at + |x|] == x && s[at + |x|..at + |x| + |y|] == y
  {
    var t := s[at..at + (|x| + |y|)];
    assert s[at..at + |x|] == t[..|x|];
    assert s[at + |x|..at + |x| + |y|] == t[|x|..];
  }

  lemma RegSlice(entries: seq<Entry>, a: nat, s: nat, i: nat, at: nat)
    requires i < |entries| && at == i * (4 * a + 4 * s)
    ensures var reg := EncodeReg(entries, a, s);
            && at + 4 * a + 4 * s <= |reg|
            && reg[at..at + 4 * a] == ToBig(entries[i].address, 4 * a)
            && reg[at + 4 * a..at + 4 * a + 4 * s] == ToBig(entries[i].size, 4 * s)
  {
    var rows := seq(|entries|, k requires 0 <= k < |entries| => Cells(entries[k], a, s));
    ConcatAt(rows, 4 * a + 4 * s, i);
    TwoParts(Concat(rows), at, ToBig(entries[i].address, 4 * a), ToBig(entries[i].size, 4 * s));
  }

  lemma IntRead(node: Node, name: string, n: nat, offset: nat, width: nat)
    requires width in {4, 8} && n < Pow256(width)
    requires offset + width <= |PropertyOf(node, name)|
        && PropertyOf(node, name)[offset..offset + width] == ToBig(n, width)
    ensures IntOf(node, LittleEndian, name, offset, width) == Success(n)
  {
    BigRoundTrip(n, width);
  }

  lemma RegAtIs(node: Node, host: Host, index: nat, a: nat, s: nat, offset: nat, address: nat, size: nat)
    requires CellsOf(node, host, ADDRESS_CELLS) == Success(a) && CellsOf(node, host, SIZE_CELLS) == Success(s)
    requires offset == index * (a + s) * 4
    requires IntOf(node, host, "reg", offset, a * 4) == Success(address)
    requires IntOf(node, host, "reg", offset + a * 4, s * 4) == Success(size)
    ensures RegAt(node, host, index) == Success((address, size))
  {
  }

  lemma RegRead(node: Node, entries: seq<Entry>, a: nat, s: nat, tail: seq<byte>, i: nat)
    requires Holds(node, entries, a, s, tail) && i < |entries|
    ensures RegAt(node, LittleEndian, i) == Success((entries[i].address, entries[i].size))
  {
    MulMono(0, i, a + s);
    var at := i * (a + s) * 4;
    RegIntsRead(node, entries, a, s, tail, i, at);
    CellsRead(node, ADDRESS_CELLS, a);
    CellsRead(node, SIZE_CELLS, s);
    RegAtIs(node, LittleEndian, i, a, s, at, entries[i].address, entries[i].size);
  }

  lemma RegIntsRead(node: Node, entries: seq<Entry>, a: nat, s: nat, tail: seq<byte>, i: nat, at: nat)
    requires Holds(node, entries, a, s, tail) && i < |entries| && at == i * (a + s) * 4
    ensures IntOf(node, LittleEndian, "reg", at, a * 4) == Success(entries[i].address)
    ensures IntOf(node, LittleEndian, "reg", at + a * 4, s * 4) == Success(entries[i].size)
  {
    RowOffset(i, a, s);
    RegSlice(entries, a, s, i, at);
    var e := entries[i];
    assert e.address < Pow256(4 * a) && e.size < Pow256(4 * s);
    IntRead(node, "reg", e.address, at, 4 * a);
    IntRead(node, "reg", e.size, at + 4 * a, 4 * s);
  }

  lemma RowOffset(i: nat, a: nat, s: nat)
    ensures i * (a + s) * 4 == i * (4 * a + 4 * s)
  {
  }

  /** The first entry that has this name, or the exception. */
  function Sought(entries: seq<Entry>, name: Name): Result<(nat, nat)> {
    var i := FirstIndex(NamesOf(entries), name);
    if i < |entries| then Success((entries[i].address, entries[i].size)) else Failure(NameNotFound)
  }

  /** On a little-endian host, looking a name up gives the first entry that has it, and fails exactly when none has. */
  lemma LookupFindsFirst(node: Node, entries: seq<Entry>, a: nat, s: nat, tail: seq<byte>, name: Name)
    requires Holds(node, entries, a, s, tail)
    ensures RegNamed(node, LittleEndian, name) == Sought(entries, name)
  {
    StringsOfJoin(NamesOf(entries), tail);
    var i := FirstIndex(NamesOf(entries), name);
    if i < |entries| {
      RegRead(node, entries, a, s, tail, i);
    }
  }

  ghost predicate LooksUp(node: Node, host: Host, entries: seq<Entry>, a: nat, s: nat, tail: seq<byte>, name: Name) {
    Holds(node, entries, a, s, tail) ==> RegNamed(node, host, name) == Sought(entries, name)
  }

  /** Lookups are right for every node exactly on a little-endian host. */
  lemma LookupRightIff(host: Host)
    ensures (forall node, entries, a, s, tail, name {:trigger LooksUp(node, host, entries, a, s, tail, name)} ::
               LooksUp(node, host, entries, a, s, tail, name))
            <==> host == LittleEndian
  {
    if host == LittleEndian {
      forall node, entries, a, s, tail, name
        ensures LooksUp(node, host, entries, a, s, tail, name)
      {
        if Holds(node, entries, a, s, tail) {
          LookupFindsFirst(node, entries, a, s, tail, name);
        }
      }
    } else {
      var node := BigEndianMisreads();
      assert !LooksUp(node, host, [Entry([], 1, 1)], 2, 2, [], []);
    }
  }

  /** One nameless register at address 1, in two cells each, which the node need not say. */
  lemma BigEndianMisreads() returns (node: Node)
    ensures Holds(node, [Entry([], 1, 1)], 2, 2, [])
    ensures RegNamed(node, BigEndian, []) != Sought([Entry([], 1, 1)], [])
  {
    var e := Entry([], 1, 1);
    var reg := EncodeReg([e], 2, 2);
    node := map["reg-names" := [0], "reg" := reg];
    assert Pow256(8) == 256 * Pow256(7) && Pow256(7) > 0;
    JoinOne();
    assert Holds(node, [e], 2, 2, []);
    LookupNameless(node);
    RegSlice([e], 2, 2, 0, 0);
    BigOneHead(8);
    assert RegAt(node, BigEndian, 0).Success? ==> RegAt(node, BigEndian, 0).value.0 == FromLittle(reg[0..8]);
  }

  lemma JoinOne()
    ensures Join(NamesOf([Entry([], 1, 1)])) + [] == [0]
  {
    assert NamesOf([Entry([], 1, 1)]) == [[]];
    JoinCons([], []);
  }

  lemma LookupNameless(node: Node)
    requires PropertyOf(node, "reg-names") == [0]
    ensures RegNamed(node, BigEndian, []) == RegAt(node, BigEndian, 0)
  {
    StringsOfJoin([[]], []);
    JoinCons([], []);
    assert Join([[]]) + [] == [0];
  }

  lemma {:induction false} BigZero(width: nat, i: nat)
    requires i < width
    ensures ToBig(0, width)[i] == 0
  {
    if i < width - 1 { BigZero(width - 1, i); }
  }

  /** The first byte of a big-endian 1 is 0, so it is no little-endian 1. */
  lemma BigOneHead(width: nat)
    requires width > 1
    ensures FromLittle(ToBig(1, width)) != 1
  {
    BigZero(width - 1, 0);
  }
}
