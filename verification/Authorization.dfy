/** The MTP authorization record of an account: user id, main data center and the two
    lists of authorization keys. */
module Authorization {
  import opened Bytes
  import opened DataStream
  import opened Options
  import opened Storage

  datatype AuthKey = AuthKey(key: Data, dcId: int32)

  datatype MtpAuthorization = MtpAuthorization(userId: int, mainDcId: int32, keys: seq<AuthKey>,
      keysToDestroy: seq<AuthKey>)

  const KEY_SIZE := 256

  predicate WellFormedKeys(keys: seq<AuthKey>) {
    |keys| < 0x8000_0000 && forall i :: 0 <= i < |keys| ==> |keys[i].key| == KEY_SIZE
  }

  // ---------- Python's integer operators ----------

  /** `a | b` on unbounded two's complement integers, bit by bit. */
  function Or(a: int, b: int): int
    decreases (if a < 0 then -a else a) + (if b < 0 then -b else b)
  {
    if a in {0, -1} && b in {0, -1} then (if a == -1 || b == -1 then -1 else 0)
    else 2 * Or(a / 2, b / 2) + (if a % 2 == 1 || b % 2 == 1 then 1 else 0)
  }

  /** `a << k`. */
  function Shl(a: int, k: nat): int { if k == 0 then a else 2 * Shl(a, k - 1) }

  function Pow2(k: nat): (p: int)
    ensures p > 0
  {
    if k == 0 then 1 else 2 * Pow2(k - 1)
  }

  lemma Pow2PlusEight(k: nat)
    ensures Pow2(k + 8) == 0x100 * Pow2(k)
  {
    assert Pow2(k + 2) == 4 * Pow2(k);
    assert Pow2(k + 4) == 4 * Pow2(k + 2);
    assert Pow2(k + 6) == 4 * Pow2(k + 4);
    assert Pow2(k + 8) == 4 * Pow2(k + 6);
  }

  lemma Pow2Of31()
    ensures Pow2(31) == 0x8000_0000
  {
    var k: nat := 0;
    Pow2PlusEight(k);
    Pow2PlusEight(k + 8);
    Pow2PlusEight(k + 16);
    Pow2PlusEight(k + 24);
    assert Pow2(32) == 2 * Pow2(31);
  }

  predicate LowBitsSet(b: int, k: nat)
    decreases k
  {
    k == 0 || (b % 2 == 1 && LowBitsSet(b / 2, k - 1))
  }

  lemma {:induction false} OrOfMinusOne(a: int)
    ensures Or(a, -1) == -1
    decreases if a < 0 then -a else a
  {
    if a !in {0, -1} {
      OrOfMinusOne(a / 2);
    }
  }

  lemma {:induction false} AllOnesNeedsLowBits(a: int, b: int, k: nat)
    requires Or(Shl(a, k), b) == -1
    ensures LowBitsSet(b, k)
    decreases k
  {
    if k > 0 {
      var s := Shl(a, k);
      assert s == 2 * Shl(a, k - 1);
      AllOnesNeedsLowBits(a, b / 2, k - 1);
    }
  }

  lemma {:induction false} LowBitsOfNarrow(b: int, k: nat)
    requires k >= 1 && LowBitsSet(b, k) && -Pow2(k - 1) <= b < Pow2(k - 1)
    ensures b == -1
    decreases k
  {
    if k > 1 {
      LowBitsOfNarrow(b / 2, k - 1);
    }
  }

  // ---------- The record ----------

  /** The test that tells a record with 64-bit user ids from a legacy one. */
  predicate IsWide(user: int32, dc: int32) { Or(Shl(user, 32), dc) == -1 }

  /** It looks only at the second word, so no record with a real data center passes it. */
  lemma WideExactlyOnMinusOne(user: int32, dc: int32)
    ensures IsWide(user, dc) <==> dc == -1
  {
    OrOfMinusOne(Shl(user, 32));
    if IsWide(user, dc) {
      AllOnesNeedsLowBits(user, dc, 32);
      Pow2Of31();
      LowBitsOfNarrow(dc, 32);
    }
  }

  function EncodeKeys(keys: seq<AuthKey>): Data {
    if keys == [] then []
    else BE32(Unsigned32(keys[0].dcId)) + keys[0].key + EncodeKeys(keys[1..])
  }

  function KeysRecord(keys: seq<AuthKey>): Data
    requires |keys| < 0x8000_0000
  {
    BE32(|keys|) + EncodeKeys(keys)
  }

  function Serialize(a: MtpAuthorization): Data
    requires -0x8000_0000_0000_0000 <= a.userId < 0x8000_0000_0000_0000
    requires |a.keys| < 0x8000_0000 && |a.keysToDestroy| < 0x8000_0000
  {
    BE64(Unsigned64(-1)) + BE64(Unsigned64(a.userId)) + BE32(Unsigned32(a.mainDcId))
    + KeysRecord(a.keys) + KeysRecord(a.keysToDestroy)
  }

  /** The record older clients wrote. */
  function LegacyRecord(user: int32, dc: int32, keys: seq<AuthKey>, keysToDestroy: seq<AuthKey>): Data
    requires |keys| < 0x8000_0000 && |keysToDestroy| < 0x8000_0000
  {
    BE32(Unsigned32(user)) + BE32(Unsigned32(dc)) + KeysRecord(keys) + KeysRecord(keysToDestroy)
  }

  function ReadKeyList(c: Cursor, n: nat): (seq<AuthKey>, Cursor)
    decreases n
  {
    if n == 0 then ([], c)
    else
      var (dc, c1) := ReadI32(c);
      var (key, c2) := ReadRaw(c1, KEY_SIZE);
      var (more, c3) := ReadKeyList(c2, n - 1);
      ([AuthKey(key, dc)] + more, c3)
  }

  function ReadKeys(c: Cursor): Result<(seq<AuthKey>, Cursor)> {
    var (count, c1) := ReadI32(c);
    if !c1.ok then Err(StreamFailed) else Ok(ReadKeyList(c1, if count < 0 then 0 else count))
  }

  /** User id and main data center, in whichever width the record has. */
  function ReadIds(c: Cursor): (int, int32, Cursor) {
    var (user, c1) := ReadI32(c);
    var (dc, c2) := ReadI32(c1);
    if IsWide(user, dc) then
      var (wideUser, c3) := ReadU64(c2);
      var (wideDc, c4) := ReadI32(c3);
      (wideUser, wideDc, c4)
    else (user, dc, c2)
  }

  function ParseAuthorization(data: Data): Result<MtpAuthorization> { ParseFrom(Cursor(data, true)) }

  function ParseFrom(c0: Cursor): Result<MtpAuthorization> {
    var (user, dc, c) := ReadIds(c0);
    if !c.ok then Err(StreamFailed)
    else
      match ReadKeys(c)
      case Err(e) => Err(e)
      case Ok((keys, c1)) =>
        match ReadKeys(c1)
        case Err(e) => Err(e)
        case Ok((keysToDestroy, _)) => Ok(MtpAuthorization(user, dc, keys, keysToDestroy))
  }

  /** The first key of the data center, if any. */
  function MainKey(keys: seq<AuthKey>, dc: int32): (r: Option<AuthKey>)
    ensures r.None? <==> forall i :: 0 <= i < |keys| ==> keys[i].dcId != dc
    ensures r.Some? ==> exists i :: 0 <= i < |keys| && keys[i] == r.value && r.value.dcId == dc
                                    && forall j :: 0 <= j < i ==> keys[j].dcId != dc
  {
    if keys == [] then None
    else if keys[0].dcId == dc then Some(keys[0])
    else
      var r := MainKey(keys[1..], dc);
      assert forall i :: 1 <= i < |keys| ==> keys[i] == keys[1..][i - 1];
      assert r.Some? ==> forall i :: 0 <= i < |keys| - 1 ==> keys[1..][i] == keys[i + 1];
      r
  }

  // ---------- The account object ----------

  class Account {
    const index: nat
    var userId: int
    var mainDcId: int32
    var mtpKeys: seq<AuthKey>
    var mtpKeysToDestroy: seq<AuthKey>
    var authKey: Option<AuthKey>
    var isLoaded: bool

    constructor (index: nat)
      ensures this.index == index && authKey == None && !isLoaded && Value() == MtpAuthorization(0, 0, [], [])
    {
      this.index := index;
      userId, mainDcId, mtpKeys, mtpKeysToDestroy := 0, 0, [], [];
      authKey, isLoaded := None, false;
    }

    function Value(): MtpAuthorization
      reads this
    {
      MtpAuthorization(userId, mainDcId, mtpKeys, mtpKeysToDestroy)
    }

    method WriteKeys(stream: Stream, keys: seq<AuthKey>)
      requires stream.Valid() && stream.AtEnd() && |keys| < 0x8000_0000
      modifies stream
      ensures stream.Valid() && stream.AtEnd() && stream.data == old(stream.data) + KeysRecord(keys)
    {
      hide BE32;
      stream.WriteInt32(|keys|);
      var i := 0;
      while i < |keys|
        invariant 0 <= i <= |keys| && stream.Valid() && stream.AtEnd()
        invariant stream.data + EncodeKeys(keys[i..]) == old(stream.data) + KeysRecord(keys)
      {
        ghost var before := stream.data;
        stream.WriteInt32(keys[i].dcId);
        stream.WriteRawData(keys[i].key);
        assert keys[i..][1..] == keys[i + 1..];
        assert before + EncodeKeys(keys[i..]) == stream.data + EncodeKeys(keys[i + 1..]);
        i := i + 1;
      }
      assert stream.data + [] == stream.data;
    }

    method SerializeMtpAuthorization() returns (result: Result<Data>)
      requires -0x8000_0000_0000_0000 <= userId < 0x8000_0000_0000_0000
      requires |mtpKeys| < 0x8000_0000 && |mtpKeysToDestroy| < 0x8000_0000
      ensures isLoaded ==> result == Ok(Serialize(Value()))
      ensures !isLoaded ==> result.Err?
    {
      if !isLoaded {
        return Err(AuthKeyNotFound);
      }
      var stream := new Stream([], 0);
      stream.WriteUInt64(Unsigned64(-1));
      stream.WriteUInt64(Unsigned64(userId));
      stream.WriteInt32(mainDcId);
      assert stream.data == BE64(Unsigned64(-1)) + BE64(Unsigned64(userId)) + BE32(Unsigned32(mainDcId));
      WriteKeys(stream, mtpKeys);
      WriteKeys(stream, mtpKeysToDestroy);
      result := Ok(stream.data);
    }

    method ReadKeysLoop(stream: Stream) returns (keys: Result<seq<AuthKey>>)
      requires stream.Valid()
      modifies stream
      ensures stream.Valid()
      ensures keys.Ok? ==> ReadKeys(old(stream.Cur())) == Ok((keys.value, stream.Cur()))
      ensures keys.Err? ==> ReadKeys(old(stream.Cur())) == Err(keys.error)
    {
      var count := stream.ReadInt32();
      if !stream.ok {
        return Err(StreamFailed);
      }
      ghost var start, n := stream.Cur(), if count < 0 then 0 else count;
      var list: seq<AuthKey>, i := [], 0;
      ghost var all := ReadKeyList(start, n);
      assert [] + all.0 == all.0;
      while i < count
        invariant 0 <= i <= n && stream.Valid()
        invariant all.0 == list + ReadKeyList(stream.Cur(), n - i).0
        invariant all.1 == ReadKeyList(stream.Cur(), n - i).1
      {
        var dc := stream.ReadInt32();
        var key := stream.ReadRawData(KEY_SIZE);
        ghost var more := ReadKeyList(stream.Cur(), n - i - 1).0;
        assert list + ([AuthKey(key, dc)] + more) == (list + [AuthKey(key, dc)]) + more;
        list := list + [AuthKey(key, dc)];
        i := i + 1;
      }
      assert list + [] == list;
      keys := Ok(list);
    }

    /** User id and main data center, in whichever width the record has. */
    method ReadMainFields(stream: Stream)
      requires stream.Valid()
      modifies this`userId, this`mainDcId, stream
      ensures stream.Valid() && (userId, mainDcId, stream.Cur()) == ReadIds(old(stream.Cur()))
    {
      var user := stream.ReadInt32();
      userId := user;
      mainDcId := stream.ReadInt32();
      if IsWide(user, mainDcId) {
        userId := stream.ReadUInt64();
        mainDcId := stream.ReadInt32();
      }
    }

    method FindMainKey()
      modifies this`authKey
      ensures authKey == if MainKey(mtpKeys, mainDcId).Some? then MainKey(mtpKeys, mainDcId) else old(authKey)
    {
      var i := 0;
      while i < |mtpKeys|
        invariant 0 <= i <= |mtpKeys| && forall j :: 0 <= j < i ==> mtpKeys[j].dcId != mainDcId
        invariant authKey == old(authKey)
      {
        if mtpKeys[i].dcId == mainDcId {
          FirstMatchIsMain(mtpKeys, mainDcId, i);
          authKey := Some(mtpKeys[i]);
          return;
        }
        i := i + 1;
      }
    }

    /** Fills the fields from the record. A failure may leave some of them changed, but
        not the main key or the loaded flag. */
    method ReadRecord(stream: Stream) returns (r: Result<()>)
      requires stream.Valid()
      modifies this`userId, this`mainDcId, this`mtpKeys, this`mtpKeysToDestroy, stream
      ensures r.Ok? ==> ParseFrom(old(stream.Cur())) == Ok(Value())
      ensures r.Err? ==> ParseFrom(old(stream.Cur())) == Err(r.error)
    {
      ReadMainFields(stream);
      if !stream.ok {
        return Err(StreamFailed);
      }
      mtpKeys, mtpKeysToDestroy := [], [];
      var keys := ReadKeysLoop(stream);
      if keys.Err? {
        return Err(keys.error);
      }
      mtpKeys := keys.value;
      keys := ReadKeysLoop(stream);
      if keys.Err? {
        return Err(keys.error);
      }
      mtpKeysToDestroy := keys.value;
      r := Ok(());
    }

    /** Fills the fields of an account that was logged in elsewhere. */
    method SetMtpAuthorizationCustom(dcId: int32, userId: int, keys: seq<AuthKey>) returns (r: Result<()>)
      modifies this
      ensures Value() == MtpAuthorization(userId, dcId, keys, old(mtpKeysToDestroy))
      ensures authKey == if MainKey(keys, dcId).Some? then MainKey(keys, dcId) else old(authKey)
      ensures r == if authKey.Some? then Ok(()) else Err(AuthKeyNotFound)
      ensures isLoaded == (authKey.Some? || old(isLoaded))
    {
      hide MainKey;
      mainDcId, this.userId, mtpKeys := dcId, userId, keys;
      FindMainKey();
      if authKey.None? {
        return Err(AuthKeyNotFound);
      }
      isLoaded := true;
      r := Ok(());
    }

    /** Loads the record into this account. A main key found earlier survives a record
        that has none, which is why only an account without one can fail on that. */
    method SetMtpAuthorization(serialized: Data) returns (r: Result<()>)
      modifies this
      ensures ParseAuthorization(serialized).Err? ==>
        r == Err(ParseAuthorization(serialized).error) && isLoaded == old(isLoaded) && authKey == old(authKey)
      ensures ParseAuthorization(serialized).Ok? ==>
        && Value() == ParseAuthorization(serialized).value
        && authKey == (if MainKey(mtpKeys, mainDcId).Some? then MainKey(mtpKeys, mainDcId) else old(authKey))
        && r == (if authKey.Some? then Ok(()) else Err(AuthKeyNotFound))
        && isLoaded == (authKey.Some? || old(isLoaded))
    {
      hide ParseFrom, MainKey;
      var stream := new Stream(serialized, 0);
      assert serialized[0..] == serialized;
      var read := ReadRecord(stream);
      if read.Err? {
        return Err(read.error);
      }
      FindMainKey();
      if authKey.None? {
        return Err(AuthKeyNotFound);
      }
      isLoaded := true;
      r := Ok(());
    }
  }

  lemma FirstMatchIsMain(keys: seq<AuthKey>, dc: int32, i: nat)
    requires i < |keys| && keys[i].dcId == dc && forall j :: 0 <= j < i ==> keys[j].dcId != dc
    ensures MainKey(keys, dc) == Some(keys[i])
  {
  }

  // ---------- Round trips ----------

  lemma {:induction false} KeyListRoundTrip(keys: seq<AuthKey>, rest: Data)
    requires forall i :: 0 <= i < |keys| ==> |keys[i].key| == KEY_SIZE
    ensures ReadKeyList(Cursor(EncodeKeys(keys) + rest, true), |keys|) == (keys, Cursor(rest, true))
  {
    hide BE32, ReadI32, ReadRaw;
    if keys == [] {
      assert EncodeKeys(keys) + rest == rest;
    } else {
      var k, tail := keys[0], EncodeKeys(keys[1..]) + rest;
      assert EncodeKeys(keys) + rest == BE32(Unsigned32(k.dcId)) + (k.key + tail);
      ReadI32Written(k.dcId, k.key + tail, true);
      ReadRawWritten(k.key, tail, true);
      KeyListRoundTrip(keys[1..], rest);
      assert [AuthKey(k.key, k.dcId)] + keys[1..] == keys;
    }
  }

  lemma KeysRoundTrip(keys: seq<AuthKey>, rest: Data)
    requires WellFormedKeys(keys)
    ensures ReadKeys(Cursor(KeysRecord(keys) + rest, true)) == Ok((keys, Cursor(rest, true)))
  {
    assert KeysRecord(keys) + rest == BE32(|keys|) + (EncodeKeys(keys) + rest);
    ReadI32Written(|keys|, EncodeKeys(keys) + rest, true);
    KeyListRoundTrip(keys, rest);
  }

  /** The two key lists at the end of a record of either kind. */
  lemma KeyListsRoundTrip(keys: seq<AuthKey>, keysToDestroy: seq<AuthKey>)
    requires WellFormedKeys(keys) && WellFormedKeys(keysToDestroy)
    ensures ReadKeys(Cursor(KeysRecord(keys) + KeysRecord(keysToDestroy), true))
            == Ok((keys, Cursor(KeysRecord(keysToDestroy), true)))
    ensures ReadKeys(Cursor(KeysRecord(keysToDestroy), true)) == Ok((keysToDestroy, Cursor([], true)))
  {
    KeysRoundTrip(keys, KeysRecord(keysToDestroy));
    assert KeysRecord(keysToDestroy) + [] == KeysRecord(keysToDestroy);
    KeysRoundTrip(keysToDestroy, []);
  }

  lemma ParseFromIds(c: Cursor, user: int, dc: int32, keys: seq<AuthKey>, keysToDestroy: seq<AuthKey>)
    requires WellFormedKeys(keys) && WellFormedKeys(keysToDestroy)
    requires ReadIds(c) == (user, dc, Cursor(KeysRecord(keys) + KeysRecord(keysToDestroy), true))
    ensures ParseFrom(c) == Ok(MtpAuthorization(user, dc, keys, keysToDestroy))
  {
    KeyListsRoundTrip(keys, keysToDestroy);
  }

  lemma WideIdsRoundTrip(userId: int64, dc: int32, tail: Data)
    ensures ReadIds(Cursor(BE64(Unsigned64(-1)) + BE64(Unsigned64(userId)) + BE32(Unsigned32(dc)) + tail, true))
            == (Unsigned64(userId), dc, Cursor(tail, true))
  {
    var afterUser := BE32(Unsigned32(dc)) + tail;
    var afterTag := BE64(Unsigned64(userId)) + afterUser;
    assert BE64(Unsigned64(-1)) == BE32(Unsigned32(-1)) + BE32(Unsigned32(-1));
    assert BE64(Unsigned64(-1)) + BE64(Unsigned64(userId)) + BE32(Unsigned32(dc)) + tail
        == BE32(Unsigned32(-1)) + (BE32(Unsigned32(-1)) + afterTag);
    ReadI32Written(-1, BE32(Unsigned32(-1)) + afterTag, true);
    ReadI32Written(-1, afterTag, true);
    WideExactlyOnMinusOne(-1, -1);
    ReadU64Written(Unsigned64(userId), afterUser, true);
    ReadI32Written(dc, tail, true);
  }

  /** What loading a saved record gives, over every authorization: the record itself, with
      the user id read back unsigned. */
  lemma AuthorizationRoundTrip(a: MtpAuthorization)
    requires -0x8000_0000_0000_0000 <= a.userId < 0x8000_0000_0000_0000
    requires WellFormedKeys(a.keys) && WellFormedKeys(a.keysToDestroy)
    ensures ParseAuthorization(Serialize(a)) == Ok(a.(userId := Unsigned64(a.userId)))
    ensures ParseAuthorization(Serialize(a)) == Ok(a) <==> a.userId >= 0
  {
    var tail := KeysRecord(a.keys) + KeysRecord(a.keysToDestroy);
    assert Serialize(a) == BE64(Unsigned64(-1)) + BE64(Unsigned64(a.userId)) + BE32(Unsigned32(a.mainDcId)) + tail;
    WideIdsRoundTrip(a.userId, a.mainDcId, tail);
    ParseFromIds(Cursor(Serialize(a), true), Unsigned64(a.userId), a.mainDcId, a.keys, a.keysToDestroy);
  }

  lemma {:induction false} KeyListOk(c: Cursor, n: nat)
    requires ReadKeyList(c, n).1.ok
    ensures c.ok && |ReadKeyList(c, n).0| == n && |c.rest| == |ReadKeyList(c, n).1.rest| + (4 + KEY_SIZE) * n
    ensures forall i :: 0 <= i < n ==> |ReadKeyList(c, n).0[i].key| == KEY_SIZE
    decreases n
  {
    if n > 0 {
      var c2 := ReadRaw(ReadI32(c).1, KEY_SIZE).1;
      var all, more := ReadKeyList(c, n).0, ReadKeyList(c2, n - 1).0;
      KeyListOk(c2, n - 1);
      assert forall i :: 1 <= i < n ==> all[i] == more[i - 1];
    }
  }

  /** A record that is refused ends too early; one that is accepted holds its ids, its first list
      of keys in full and the number of keys of the second. */
  lemma ParseOutcome(data: Data)
    ensures ParseAuthorization(data).Err? ==> ParseAuthorization(data) == Err(StreamFailed)
    ensures ParseAuthorization(data).Ok? ==>
      var a := ParseAuthorization(data).value;
      && |data| >= 16 + 260 * |a.keys| && forall i :: 0 <= i < |a.keys| ==> |a.keys[i].key| == 256
  {
    if ParseAuthorization(data).Ok? {
      var (user, dc, c) := ReadIds(Cursor(data, true));
      var (count, c1) := ReadI32(c);
      var (keys, c2) := ReadKeys(c).value;
      assert ReadI32(c2).1.ok;
      KeyListOk(c1, if count < 0 then 0 else count);
    }
  }

  lemma LegacyIdsRoundTrip(user: int32, dc: int32, tail: Data)
    requires dc != -1
    ensures ReadIds(Cursor(BE32(Unsigned32(user)) + BE32(Unsigned32(dc)) + tail, true))
            == (user, dc, Cursor(tail, true))
  {
    assert BE32(Unsigned32(user)) + BE32(Unsigned32(dc)) + tail
      == BE32(Unsigned32(user)) + (BE32(Unsigned32(dc)) + tail);
    ReadI32Written(user, BE32(Unsigned32(dc)) + tail, true);
    ReadI32Written(dc, tail, true);
    WideExactlyOnMinusOne(user, dc);
  }

  /** A list whose keys all came back in full took its full number of bytes. */
  lemma {:induction false} KeyListTakes(c: Cursor, n: nat)
    requires forall i :: 0 <= i < |ReadKeyList(c, n).0| ==> |ReadKeyList(c, n).0[i].key| == KEY_SIZE
    ensures |ReadKeyList(c, n).0| == n && |ReadKeyList(c, n).1.rest| + (4 + KEY_SIZE) * n == |c.rest|
    decreases n
  {
    if n > 0 {
      var c2 := ReadRaw(ReadI32(c).1, KEY_SIZE).1;
      var all, more := ReadKeyList(c, n).0, ReadKeyList(c2, n - 1).0;
      assert |all[0].key| == KEY_SIZE;
      assert forall i :: 0 <= i < |more| ==> more[i] == all[i + 1];
      KeyListTakes(c2, n - 1);
    }
  }

  lemma KeysTake(c: Cursor, keys: seq<AuthKey>, after: Cursor)
    requires ReadKeys(c) == Ok((keys, after)) && WellFormedKeys(keys)
    ensures |after.rest| + 4 + (4 + KEY_SIZE) * |keys| == |c.rest|
  {
    var (count, c1) := ReadI32(c);
    KeyListTakes(c1, if count < 0 then 0 else count);
  }

  lemma {:induction false} KeysSize(keys: seq<AuthKey>)
    requires WellFormedKeys(keys)
    ensures |KeysRecord(keys)| == 4 + (4 + KEY_SIZE) * |keys|
    decreases |keys|
  {
    if keys != [] {
      KeysSize(keys[1..]);
    }
  }

  /** A record taken for a wide one has no room for the same lists. */
  lemma WideTakesMore(record: Data, a: MtpAuthorization)
    requires WellFormedKeys(a.keys) && WellFormedKeys(a.keysToDestroy)
    requires |record| == 16 + (4 + KEY_SIZE) * (|a.keys| + |a.keysToDestroy|)
    requires IsWide(ReadI32(Cursor(record, true)).0, ReadI32(ReadI32(Cursor(record, true)).1).0)
    ensures ParseAuthorization(record) != Ok(a)
  {
    var (_, _, c) := ReadIds(Cursor(record, true));
    if ParseAuthorization(record) == Ok(a) {
      var (keys, c1) := ReadKeys(c).value;
      var (keysToDestroy, c2) := ReadKeys(c1).value;
      KeysTake(c, keys, c1);
      KeysTake(c1, keysToDestroy, c2);
      assert false;
    }
  }

  /** A legacy record keeps its meaning exactly if its data center is not -1. */
  lemma LegacyRoundTrip(user: int32, dc: int32, keys: seq<AuthKey>, keysToDestroy: seq<AuthKey>)
    requires WellFormedKeys(keys) && WellFormedKeys(keysToDestroy)
    ensures ParseAuthorization(LegacyRecord(user, dc, keys, keysToDestroy))
            == Ok(MtpAuthorization(user, dc, keys, keysToDestroy))
            <==> dc != -1
  {
    var tail := KeysRecord(keys) + KeysRecord(keysToDestroy);
    var record := LegacyRecord(user, dc, keys, keysToDestroy);
    assert record == BE32(Unsigned32(user)) + BE32(Unsigned32(dc)) + tail;
    if dc != -1 {
      LegacyIdsRoundTrip(user, dc, tail);
      ParseFromIds(Cursor(record, true), user, dc, keys, keysToDestroy);
    } else {
      KeysSize(keys);
      KeysSize(keysToDestroy);
      assert record == BE32(Unsigned32(user)) + (BE32(Unsigned32(dc)) + tail);
      ReadI32Written(user, BE32(Unsigned32(dc)) + tail, true);
      ReadI32Written(dc, tail, true);
      WideExactlyOnMinusOne(user, dc);
      WideTakesMore(record, MtpAuthorization(user, dc, keys, keysToDestroy));
    }
  }
}
