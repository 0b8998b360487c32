/** Bytes, the values shared by every component, and fixed-width integers in memory. */
module Bytes {
  type byte = b: int | 0 <= b < 256

  datatype Option<+T> = None | Some(value: T)

  /** 256 to the power `width`: the number of values `width` bytes can hold. */
  function Pow256(width: nat): (r: int)
    ensures r > 0
  {
    if width == 0 then 1 else 256 * Pow256(width - 1)
  }

  /** Value of a byte string whose first byte is the least significant. */
  function FromLittle(s: seq<byte>): (r: int)
    ensures 0 <= r < Pow256(|s|)
  {
    if s == [] then 0 else s[0] + 256 * FromLittle(s[1..])
  }

  /** Value of a byte string whose first byte is the most significant. */
  function FromBig(s: seq<byte>): (r: int)
    ensures 0 <= r < Pow256(|s|)
  {
    if s == [] then 0 else 256 * FromBig(s[..|s| - 1]) + s[|s| - 1]
  }

  function ToLittle(n: nat, width: nat): (s: seq<byte>)
    ensures |s| == width
  {
    if width == 0 then [] else [n % 256] + ToLittle(n / 256, width - 1)
  }

  function ToBig(n: nat, width: nat): (s: seq<byte>)
    ensures |s| == width
  {
    if width == 0 then [] else ToBig(n / 256, width - 1) + [n % 256]
  }

  function Reverse(s: seq<byte>): (r: seq<byte>)
    ensures |r| == |s|
    ensures forall i :: 0 <= i < |s| ==> r[i] == s[|s| - 1 - i]
  {
    seq(|s|, i requires 0 <= i < |s| => s[|s| - 1 - i])
  }

  lemma {:induction false} LittleRoundTrip(n: nat, width: nat)
    requires n < Pow256(width)
    ensures FromLittle(ToLittle(n, width)) == n
  {
    if width > 0 {
      LittleRoundTrip(n / 256, width - 1);
      assert ToLittle(n, width)[1..] == ToLittle(n / 256, width - 1);
    }
  }

  lemma {:induction false} BigRoundTrip(n: nat, width: nat)
    requires n < Pow256(width)
    ensures FromBig(ToBig(n, width)) == n
  {
    if width > 0 {
      BigRoundTrip(n / 256, width - 1);
      assert ToBig(n, width)[..width - 1] == ToBig(n / 256, width - 1);
    }
  }

  /** Reading a byte string backwards exchanges the two byte orders. */
  lemma {:induction false} ReverseSwapsOrder(s: seq<byte>)
    ensures FromLittle(Reverse(s)) == FromBig(s)
  {
    if s != [] {
      ReverseSwapsOrder(s[..|s| - 1]);
      assert Reverse(s)[1..] == Reverse(s[..|s| - 1]);
    }
  }

  /** Two's complement reading of an unsigned 32-bit value. */
  function Signed32(u: int): (r: int)
    requires 0 <= u < 0x1_0000_0000
    ensures -0x8000_0000 <= r < 0x8000_0000
  {
    if u < 0x8000_0000 then u else u - 0x1_0000_0000
  }

  /** The four bytes at `offset`, as a 32-bit value stored low byte first. */
  function U32At(s: seq<byte>, offset: nat): (r: int)
    requires offset + 4 <= |s|
    ensures 0 <= r < 0x1_0000_0000
  {
    assert Pow256(4) == 0x1_0000_0000;
    FromLittle(s[offset..offset + 4])
  }

  /** C's integer division: the quotient is rounded toward zero. */
  function TruncDiv(a: int, b: int): int
    requires b > 0
  {
    if a >= 0 then a / b else -((-a) / b)
  }
}
