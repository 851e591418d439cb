/** `QDataStream` over a `QBuffer`: a specification on the bytes still to be read, and the
    class that advances a position through a buffer. */
module DataStream {
  import opened Bytes

  /** What a reader can see: the bytes from its position to the end of the device, and
      whether every read so far succeeded (`QDataStream.Status.Ok`). */
  datatype Cursor = Cursor(rest: Data, ok: bool)

  /** `readRawData`: a short device yields what is left and records ReadPastEnd. */
  function ReadRaw(c: Cursor, n: nat): (r: (Data, Cursor))
    ensures |r.1.rest| <= |c.rest|
  {
    if n <= |c.rest| then (c.rest[..n], Cursor(c.rest[n..], c.ok)) else (c.rest, Cursor([], false))
  }

  function ReadU32(c: Cursor): (r: (uint32, Cursor))
    ensures |r.1.rest| <= |c.rest|
  {
    var (b, c') := ReadRaw(c, 4);
    (if |b| == 4 then FromBE32(b) else 0, c')
  }

  function ReadI32(c: Cursor): (r: (int32, Cursor))
    ensures |r.1.rest| <= |c.rest|
  {
    var (u, c') := ReadU32(c);
    (Signed32(u), c')
  }

  function ReadU64(c: Cursor): (r: (uint64, Cursor))
    ensures |r.1.rest| <= |c.rest|
  {
    var (b, c') := ReadRaw(c, 8);
    (if |b| == 8 then FromBE64(b) else 0, c')
  }

  /** A byte array as Qt holds one: the null array is not the empty array on the wire. */
  datatype QByteArray = Null | Array(bytes: Data) {
    function Contents(): Data { if Null? then [] else bytes }

    /** `size()` is a C++ int. */
    predicate Fits() { |Contents()| < 0x8000_0000 }

    function LengthWord(): uint32
      requires Fits()
    {
      if Null? then 0xFFFF_FFFF else |bytes|
    }

    /** What `stream << array` appends. */
    function Encoded(): Data
      requires Fits()
    {
      BE32(LengthWord()) + Contents()
    }
  }

  /** `stream >> array`, as the bytes of the array read; a truncated array is cleared. */
  function ReadArray(c: Cursor): (r: (Data, Cursor))
    ensures |r.1.rest| <= |c.rest|
  {
    var (len, c1) := ReadU32(c);
    if len == 0xFFFF_FFFF then ([], c1)
    else
      var (b, c2) := ReadRaw(c1, len);
      (if len <= |c1.rest| then b else [], c2)
  }

  lemma ReadU32Written(v: uint32, rest: Data, ok: bool)
    ensures ReadU32(Cursor(BE32(v) + rest, ok)) == (v, Cursor(rest, ok))
  {
    BE32RoundTrip(v);
    assert (BE32(v) + rest)[..4] == BE32(v) && (BE32(v) + rest)[4..] == rest;
  }

  lemma ReadI32Written(v: int32, rest: Data, ok: bool)
    ensures ReadI32(Cursor(BE32(Unsigned32(v)) + rest, ok)) == (v, Cursor(rest, ok))
  {
    ReadU32Written(Unsigned32(v), rest, ok);
  }

  lemma ReadU64Written(v: uint64, rest: Data, ok: bool)
    ensures ReadU64(Cursor(BE64(v) + rest, ok)) == (v, Cursor(rest, ok))
  {
    BE64RoundTrip(v);
    assert (BE64(v) + rest)[..8] == BE64(v) && (BE64(v) + rest)[8..] == rest;
  }

  lemma ReadRawWritten(b: Data, rest: Data, ok: bool)
    ensures ReadRaw(Cursor(b + rest, ok), |b|) == (b, Cursor(rest, ok))
  {
    assert (b + rest)[..|b|] == b && (b + rest)[|b|..] == rest;
  }

  /** Reading undoes writing for every array, the null one included. */
  lemma ReadArrayWritten(a: QByteArray, rest: Data, ok: bool)
    requires a.Fits()
    ensures ReadArray(Cursor(a.Encoded() + rest, ok)) == (a.Contents(), Cursor(rest, ok))
  {
    assert a.Encoded() + rest == BE32(a.LengthWord()) + (a.Contents() + rest);
    ReadU32Written(a.LengthWord(), a.Contents() + rest, ok);
    if a.Null? {
      assert a.Contents() + rest == rest;
    } else {
      ReadRawWritten(a.bytes, rest, ok);
    }
  }

  lemma ConcatThree(a: Data, b: Data, c: Data)
    ensures a + b + c == a + (b + c) && c + [] == c
  {
  }

  lemma ReadArrayAt(a: QByteArray, rest: Data, whole: Data)
    requires a.Fits() && whole == a.Encoded() + rest
    ensures ReadArray(Cursor(whole, true)) == (a.Contents(), Cursor(rest, true))
  {
    ReadArrayWritten(a, rest, true);
  }

  /** Three arrays in a row, as the map and key files hold them. */
  lemma ReadThreeWritten(a1: QByteArray, a2: QByteArray, a3: QByteArray)
    requires a1.Fits() && a2.Fits() && a3.Fits()
    ensures ReadArray(Cursor(a1.Encoded() + a2.Encoded() + a3.Encoded(), true))
            == (a1.Contents(), Cursor(a2.Encoded() + a3.Encoded(), true))
    ensures ReadArray(Cursor(a2.Encoded() + a3.Encoded(), true)) == (a2.Contents(), Cursor(a3.Encoded(), true))
    ensures ReadArray(Cursor(a3.Encoded(), true)) == (a3.Contents(), Cursor([], true))
  {
    ConcatThree(a1.Encoded(), a2.Encoded(), a3.Encoded());
    ReadArrayAt(a1, a2.Encoded() + a3.Encoded(), a1.Encoded() + a2.Encoded() + a3.Encoded());
    ReadArrayAt(a2, a3.Encoded(), a2.Encoded() + a3.Encoded());
    ReadArrayAt(a3, [], a3.Encoded());
  }

  /** The stream object: a buffer, a position in it and a sticky status. */
  class Stream {
    var data: Data
    var pos: nat
    var ok: bool

    predicate Valid()
      reads this
    {
      pos <= |data|
    }

    function Cur(): Cursor
      requires Valid()
      reads this
    {
      Cursor(data[pos..], ok)
    }

    constructor (data: Data, pos: nat)
      requires pos <= |data|
      ensures Valid() && this.data == data && this.pos == pos && ok
    {
      this.data, this.pos, this.ok := data, pos, true;
    }

    predicate AtEnd()
      requires Valid()
      reads this
    {
      pos == |data|
    }

    method ReadRawData(n: nat) returns (b: Data)
      requires Valid()
      modifies this
      ensures Valid() && data == old(data)
      ensures (b, Cur()) == ReadRaw(old(Cur()), n)
    {
      if pos + n <= |data| {
        b := data[pos..pos + n];
        assert data[pos..][..n] == b && data[pos..][n..] == data[pos + n..];
        pos := pos + n;
      } else {
        b := data[pos..];
        pos, ok := |data|, false;
        assert data[pos..] == [];
      }
    }

    method ReadUInt32() returns (v: uint32)
      requires Valid()
      modifies this
      ensures Valid() && data == old(data)
      ensures (v, Cur()) == ReadU32(old(Cur()))
    {
      var b := ReadRawData(4);
      v := if |b| == 4 then FromBE32(b) else 0;
    }

    method ReadInt32() returns (v: int32)
      requires Valid()
      modifies this
      ensures Valid() && data == old(data)
      ensures (v, Cur()) == ReadI32(old(Cur()))
    {
      var u := ReadUInt32();
      v := Signed32(u);
    }

    method ReadUInt64() returns (v: uint64)
      requires Valid()
      modifies this
      ensures Valid() && data == old(data)
      ensures (v, Cur()) == ReadU64(old(Cur()))
    {
      var b := ReadRawData(8);
      v := if |b| == 8 then FromBE64(b) else 0;
    }

    method ReadByteArray() returns (b: Data)
      requires Valid()
      modifies this
      ensures Valid() && data == old(data)
      ensures (b, Cur()) == ReadArray(old(Cur()))
    {
      var len := ReadUInt32();
      if len == 0xFFFF_FFFF {
        b := [];
      } else {
        var left := |data| - pos;
        b := ReadRawData(len);
        if left < len {
          b := [];
        }
      }
    }

    method WriteRawData(b: Data)
      requires Valid() && AtEnd()
      modifies this
      ensures Valid() && AtEnd() && data == old(data) + b && ok == old(ok)
    {
      data := data + b;
      pos := |data|;
    }

    method WriteUInt32(v: uint32)
      requires Valid() && AtEnd()
      modifies this
      ensures Valid() && AtEnd() && data == old(data) + BE32(v) && ok == old(ok)
    {
      WriteRawData(BE32(v));
    }

    method WriteInt32(v: int32)
      requires Valid() && AtEnd()
      modifies this
      ensures Valid() && AtEnd() && data == old(data) + BE32(Unsigned32(v)) && ok == old(ok)
    {
      WriteRawData(BE32(Unsigned32(v)));
    }

    method WriteUInt64(v: uint64)
      requires Valid() && AtEnd()
      modifies this
      ensures Valid() && AtEnd() && data == old(data) + BE64(v) && ok == old(ok)
    {
      WriteRawData(BE64(v));
    }

    method WriteByteArray(a: QByteArray)
      requires Valid() && AtEnd() && a.Fits()
      modifies this
      ensures Valid() && AtEnd() && data == old(data) + a.Encoded() && ok == old(ok)
    {
      WriteUInt32(a.LengthWord());
      WriteRawData(a.Contents());
    }
  }
}
