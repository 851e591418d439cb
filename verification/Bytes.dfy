/** Bytes and fixed-width integers, laid out as `QDataStream` (big-endian) and
    `int.to_bytes(…, "little")` lay them out. */
module Bytes {

  type byte = x: int | 0 <= x < 0x100
  type Data = seq<byte>

  const U32 := 0x1_0000_0000
  const U64 := 0x1_0000_0000_0000_0000

  type uint32 = x: int | 0 <= x < 0x1_0000_0000
  type uint64 = x: int | 0 <= x < 0x1_0000_0000_0000_0000
  type int32 = x: int | -0x8000_0000 <= x < 0x8000_0000
  type int64 = x: int | -0x8000_0000_0000_0000 <= x < 0x8000_0000_0000_0000

  function BE32(v: uint32): (b: Data)
    ensures |b| == 4
  {
    var (b0, b1, b2, b3) := Split32(v);
    [b3, b2, b1, b0]
  }

  function FromBE32(b: Data): uint32
    requires |b| == 4
  {
    Join32(b[3], b[2], b[1], b[0])
  }

  function LE32(v: uint32): (b: Data)
    ensures |b| == 4
  {
    var (b0, b1, b2, b3) := Split32(v);
    [b0, b1, b2, b3]
  }

  function FromLE32(b: Data): uint32
    requires |b| == 4
  {
    Join32(b[0], b[1], b[2], b[3])
  }

  /** The four bytes of a word, least significant first, and the word they make. */
  function Split32(v: uint32): (byte, byte, byte, byte) {
    var q1: int := v / 0x100;
    var q2: int := q1 / 0x100;
    (v % 0x100, q1 % 0x100, q2 % 0x100, q2 / 0x100)
  }

  function Join32(b0: byte, b1: byte, b2: byte, b3: byte): uint32 {
    var i0: int, i1: int, i2: int, i3: int := b0, b1, b2, b3;
    i0 + i1 * 0x100 + i2 * 0x1_0000 + i3 * 0x100_0000
  }

  lemma JoinSplit32(v: uint32)
    ensures var (b0, b1, b2, b3) := Split32(v); Join32(b0, b1, b2, b3) == v
  {
    var q1: int := v / 0x100;
    var q2: int := q1 / 0x100;
    assert v == v % 0x100 + q1 * 0x100;
    assert q1 == q1 % 0x100 + q2 * 0x100;
    assert q2 == q2 % 0x100 + q2 / 0x100 * 0x100;
  }

  lemma SplitJoin32(b0: byte, b1: byte, b2: byte, b3: byte)
    ensures Split32(Join32(b0, b1, b2, b3)) == (b0, b1, b2, b3)
  {
    var i0: int, i1: int, i2: int, i3: int := b0, b1, b2, b3;
    var q2 := i2 + i3 * 0x100;
    var q1 := i1 + q2 * 0x100;
    assert Join32(b0, b1, b2, b3) == i0 + q1 * 0x100;
    assert q1 / 0x100 == q2 && q1 % 0x100 == i1;
    assert q2 / 0x100 == i3 && q2 % 0x100 == i2;
  }

  function BE64(v: uint64): (b: Data)
    ensures |b| == 8
  {
    BE32(v / U32) + BE32(v % U32)
  }

  function FromBE64(b: Data): uint64
    requires |b| == 8
  {
    var hi: int := FromBE32(b[..4]);
    hi * U32 + FromBE32(b[4..])
  }

  /** Two's complement: the unsigned word that stores a signed value, and back. */
  function Unsigned32(v: int32): uint32 { if v < 0 then v + U32 else v }

  function Signed32(u: uint32): int32 { if u < 0x8000_0000 then u else u - U32 }

  function Unsigned64(v: int64): uint64 { if v < 0 then v + U64 else v }

  lemma BE32RoundTrip(v: uint32)
    ensures FromBE32(BE32(v)) == v
  {
    JoinSplit32(v);
  }

  lemma LE32RoundTrip(v: uint32)
    ensures FromLE32(LE32(v)) == v
  {
    JoinSplit32(v);
  }

  lemma LE32Surjective(b: Data)
    requires |b| == 4
    ensures LE32(FromLE32(b)) == b
  {
    SplitJoin32(b[0], b[1], b[2], b[3]);
  }

  lemma BE64RoundTrip(v: uint64)
    ensures FromBE64(BE64(v)) == v
  {
    BE32RoundTrip(v / U32);
    BE32RoundTrip(v % U32);
    var b := BE64(v);
    assert b[..4] == BE32(v / U32) && b[4..] == BE32(v % U32);
  }
}
