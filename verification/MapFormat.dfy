/** The records of an account map as bytes: which tag stands for which field, what the reader
    passes over, what ends it, and what it refuses. */
module MapFormat {
  import opened Bytes
  import opened DataStream
  import opened Storage
  import opened LocalEncryption
  import opened MapRecords

  /** Reading these bytes first makes the one state of the other, whatever follows them. */
  ghost predicate Becomes(bytes: Data, m: MapState, after: MapState) {
    forall rest: Data :: ReadRecords(Cursor(bytes + rest, true), m) == ReadRecords(Cursor(rest, true), after)
  }

  lemma RecordBecomes(r: Record, m: MapState)
    requires Encodable(r) && r.tag != WEBVIEW_TOKENS
    ensures Becomes(Encode(r), m, Apply(m, r))
  {
    hide ReadRecord, Encode, Apply, Encodable;
    EncodedIsSome(r);
    forall rest: Data
      ensures ReadRecords(Cursor(Encode(r) + rest, true), m) == ReadRecords(Cursor(rest, true), Apply(m, r))
    {
      ReadRecordWritten(r, rest, m);
    }
  }

  lemma EncodedIsSome(r: Record)
    requires Encodable(r)
    ensures |Encode(r)| >= 4 && Encode(r)[..4] == BE32(r.tag)
  {
    hide BE32;
  }

  lemma SmallWord(v: uint32)
    requires v < 0x100
    ensures BE32(v) == [0, 0, 0, v]
  {
  }

  lemma OneKey(tag: uint32, v: FileKey, m: MapState)
    requires Arity(tag) == 1 && tag < 0x100
    ensures Becomes([0, 0, 0, tag] + BE64(v), m, m.(keys := Assign(m.keys, tag, [v])))
  {
    hide BE64, Becomes;
    RecordBecomes(Keys(tag, [v]), m);
    SmallWord(tag);
    assert EncodeValues([v]) == BE64(v) + EncodeValues([v][1..]);
    assert EncodeValues([v]) == BE64(v);
  }

  /** The fields behind one key. Three obsolete keys are dropped. */
  lemma KeyTable(m: MapState, v: FileKey)
    ensures Becomes([0, 0, 0, 0x04] + BE64(v), m, m.(keys := m.keys.(locations := v)))
    ensures Becomes([0, 0, 0, 0x07] + BE64(v), m, m.(keys := m.keys.(recentStickersOld := v)))
    ensures Becomes([0, 0, 0, 0x09] + BE64(v), m, m.(keys := m.keys.(settings := v)))
    ensures Becomes([0, 0, 0, 0x0A] + BE64(v), m, m.(keys := m.keys.(recentHashtags := v)))
    ensures Becomes([0, 0, 0, 0x0B] + BE64(v), m, m.(keys := m.keys.(installedStickers := v)))
    ensures Becomes([0, 0, 0, 0x0C] + BE64(v), m, m)
    ensures Becomes([0, 0, 0, 0x0D] + BE64(v), m, m)
    ensures Becomes([0, 0, 0, 0x0E] + BE64(v), m, m)
    ensures Becomes([0, 0, 0, 0x0F] + BE64(v), m, m.(keys := m.keys.(savedGifs := v)))
    ensures Becomes([0, 0, 0, 0x11] + BE64(v), m, m.(keys := m.keys.(trustedBots := v)))
    ensures Becomes([0, 0, 0, 0x12] + BE64(v), m, m.(keys := m.keys.(favedStickers := v)))
    ensures Becomes([0, 0, 0, 0x13] + BE64(v), m, m.(keys := m.keys.(exportSettings := v)))
    ensures Becomes([0, 0, 0, 0x18] + BE64(v), m, m.(keys := m.keys.(searchSuggestions := v)))
  {
    hide BE64, Becomes;
    OneKey(0x04, v, m);
    OneKey(0x07, v, m);
    OneKey(0x09, v, m);
    OneKey(0x0A, v, m);
    OneKey(0x0B, v, m);
    OneKey(0x0C, v, m);
    OneKey(0x0D, v, m);
    OneKey(0x0E, v, m);
    OneKey(0x0F, v, m);
    OneKey(0x11, v, m);
    OneKey(0x12, v, m);
    OneKey(0x13, v, m);
    OneKey(0x18, v, m);
  }

  lemma ValuesAre(a: FileKey, b: FileKey, c: FileKey, d: FileKey)
    ensures EncodeValues([a, b]) == BE64(a) + BE64(b)
    ensures EncodeValues([a, b, c]) == BE64(a) + BE64(b) + BE64(c)
    ensures EncodeValues([a, b, c, d]) == BE64(a) + BE64(b) + BE64(c) + BE64(d)
  {
    hide BE64;
    assert [d][1..] == [] && [c, d][1..] == [d] && [b, c, d][1..] == [c, d] && [a, b, c, d][1..] == [b, c, d];
    assert [c][1..] == [] && [b, c][1..] == [c] && [a, b, c][1..] == [b, c];
    assert [b][1..] == [] && [a, b][1..] == [b];
    assert EncodeValues([b]) == BE64(b) + [] && EncodeValues([c]) == BE64(c) + [] && EncodeValues([d]) == BE64(d) + [];
    assert EncodeValues([b, c]) == BE64(b) + BE64(c) && EncodeValues([c, d]) == BE64(c) + BE64(d);
    assert EncodeValues([b, c, d]) == BE64(b) + (BE64(c) + BE64(d));
  }

  /** The fields behind several keys. */
  lemma GroupTable(m: MapState, a: FileKey, b: FileKey, c: FileKey, d: FileKey)
    ensures Becomes([0, 0, 0, 0x10] + (BE64(a) + BE64(b) + BE64(c) + BE64(d)), m,
                    m.(keys := m.keys.(installedStickers := a, featuredStickers := b, recentStickers := c,
                                       archivedStickers := d)))
    ensures Becomes([0, 0, 0, 0x14] + (BE64(a) + BE64(b)), m,
                    m.(keys := m.keys.(backgroundDay := a, backgroundNight := b)))
    ensures Becomes([0, 0, 0, 0x16] + (BE64(a) + BE64(b) + BE64(c)), m,
                    m.(keys := m.keys.(installedMasks := a, recentMasks := b, archivedMasks := c)))
    ensures Becomes([0, 0, 0, 0x17] + (BE64(a) + BE64(b) + BE64(c)), m,
                    m.(keys := m.keys.(installedEmoji := a, featuredEmoji := b, archivedEmoji := c)))
  {
    hide BE64, Becomes, EncodeValues;
    ValuesAre(a, b, c, d);
    SmallWord(0x10);
    SmallWord(0x14);
    SmallWord(0x16);
    SmallWord(0x17);
    RecordBecomes(Keys(0x10, [a, b, c, d]), m);
    RecordBecomes(Keys(0x14, [a, b]), m);
    RecordBecomes(Keys(0x16, [a, b, c]), m);
    RecordBecomes(Keys(0x17, [a, b, c]), m);
  }

  lemma OneEntry(peer: PeerId, key: FileKey)
    requires !Reserved(peer)
    ensures EncodeEntries([(peer, key)]) == BE64(key) + BE64(peer + RESERVED)
  {
    hide BE64;
    var entries: Dict<FileKey> := [(peer, key)];
    assert entries[1..] == [];
    assert EncodeEntries(entries) == BE64(key) + BE64(SerializePeer(peer)) + [];
  }

  lemma OnePut(d: Dict<FileKey>, peer: PeerId, key: FileKey)
    ensures PutAll(d, [(peer, key)]) == Put(d, peer, key)
  {
    var entries: Dict<FileKey> := [(peer, key)];
    assert PutAll(d, entries) == PutAll(Put(d, peer, key), entries[1..]);
  }

  /** One row of the draft tables: the key, then the peer with the reserved bit set. A draft
      counts as not read. */
  lemma PeerTable(m: MapState, peer: PeerId, key: FileKey)
    requires peer / 0x80_0000_0000_0000 % 2 == 0
    ensures Becomes([0, 0, 0, 1] + ([0, 0, 0, 1] + (BE64(key) + BE64(peer + 0x80_0000_0000_0000))), m,
                    m.(drafts := Put(m.drafts, peer, key), notRead := MarkNotRead(Put(m.drafts, peer, key))))
    ensures forall i :: 0 <= i < |m.drafts| ==> MarkNotRead(m.drafts)[i] == (m.drafts[i].0, true)
    ensures Becomes([0, 0, 0, 2] + ([0, 0, 0, 1] + (BE64(key) + BE64(peer + 0x80_0000_0000_0000))), m,
                    m.(cursors := Put(m.cursors, peer, key)))
  {
    assert forall i :: 0 <= i < |m.drafts| ==> MarkNotRead(m.drafts)[i] == (m.drafts[i].0, true);
    hide BE64, Becomes, MarkNotRead, EncodeEntries, PutAll, Put;
    OneEntry(peer, key);
    OnePut(m.drafts, peer, key);
    OnePut(m.cursors, peer, key);
    SmallWord(1);
    SmallWord(2);
    RecordBecomes(Peers(1, [(peer, key)]), m);
    RecordBecomes(Peers(2, [(peer, key)]), m);
  }

  /** A key that is there keeps its place and gets the value; a new one comes last. */
  lemma {:induction false} PutMeaning(d: Dict<FileKey>, k: PeerId, v: FileKey, i: nat)
    requires Distinct(d) && i < |d|
    ensures d[i].0 == k ==> Put(d, k, v) == d[i := (k, v)]
    ensures (forall j :: 0 <= j < |d| ==> d[j].0 != k) ==> Put(d, k, v) == d + [(k, v)]
  {
    if d[0].0 != k {
      if i > 0 {
        PutMeaning(d[1..], k, v, i - 1);
      }
      if forall j :: 0 <= j < |d| ==> d[j].0 != k {
        PutFresh(d, k, v);
      }
    }
  }

  lemma LegacyBecomes(tag: uint32, rows: seq<LegacyRow>, m: MapState)
    requires IsLegacyTable(tag) && |rows| < U32
    ensures Becomes([0, 0, 0, tag] + (BE32(|rows|) + EncodeRows(rows)), m, m)
  {
    hide Becomes, EncodeRows;
    SmallWord(tag);
    RecordBecomes(LegacyTable(tag, rows), m);
  }

  /** What the reader passes over: the self-serialized array, the rows of the three legacy
      tables, and tags that it does not know. */
  lemma SkippedTable(m: MapState, array_: QByteArray, rows: seq<LegacyRow>, tag: uint32)
    requires array_.Fits() && |rows| < U32
    ensures Becomes([0, 0, 0, 0x15] + array_.Encoded(), m, m)
    ensures Becomes([0, 0, 0, 0x03] + (BE32(|rows|) + EncodeRows(rows)), m, m)
    ensures Becomes([0, 0, 0, 0x05] + (BE32(|rows|) + EncodeRows(rows)), m, m)
    ensures Becomes([0, 0, 0, 0x06] + (BE32(|rows|) + EncodeRows(rows)), m, m)
    ensures tag == 0 || tag > 0x19 ==> Becomes(BE32(tag), m, m)
  {
    hide Becomes, EncodeRows, QByteArray.Encoded, BE32;
    SmallWord(0x15);
    RecordBecomes(SelfArray(0x15, array_), m);
    LegacyBecomes(0x03, rows, m);
    LegacyBecomes(0x05, rows, m);
    LegacyBecomes(0x06, rows, m);
    if tag == 0 || tag > 0x19 {
      RecordBecomes(Unknown(tag), m);
    }
  }

  /** The map file: two arrays that are not looked at, and the frame of the records. A file that
      cannot be read and a frame that does not open fail alike; only an exception that is not
      of the library stays what it is. */
  lemma OpenMapOutcome(c: Crypto, files: Files, dir: Path, key: Data, a1: QByteArray, a2: QByteArray, frame: QByteArray)
    requires c.Lawful() && a1.Fits() && a2.Fits() && frame.Fits()
    ensures OpenMap(c, files, dir, key) == Err(PythonError) <==> ReadFile(c, files, dir, "map") == Err(PythonError)
    ensures ReadFile(c, files, dir, "map").Err? ==>
      OpenMap(c, files, dir, key) == Err(PythonError) || OpenMap(c, files, dir, key) == Err(MapReadFailed)
    ensures ReadFile(c, files, dir, "map").Ok?
            && ReadFile(c, files, dir, "map").value.data == a1.Encoded() + a2.Encoded() + frame.Encoded() ==>
      OpenMap(c, files, dir, key)
      == if DecryptLocal(c, frame.Contents(), key).Err? then Err(MapReadFailed)
         else DecryptLocal(c, frame.Contents(), key)
  {
    hide ReadFile, QByteArray.Encoded, ReadArray, DecryptLocal;
    ReadThreeWritten(a1, a2, frame);
  }

  /** The web view tokens end the reading with the state so far, whatever follows; the oldest
      background record raises an exception that is not of the library. */
  lemma StopTable(m: MapState, rest: Data)
    ensures ReadRecords(Cursor([0, 0, 0, 0x19] + rest, true), m) == Ok(m)
    ensures ReadRecords(Cursor([0, 0, 0, 0x08] + rest, true), m) == Err(PythonError)
    ensures ReadRecords(Cursor([], true), m) == Ok(m)
  {
    SmallWord(0x19);
    SmallWord(0x08);
    hide BE32;
    ReadU32Written(0x19, rest, true);
    ReadU32Written(0x08, rest, true);
  }

  /** Peers of the format before the reserved bit: users, basic groups and channels keep their
      number under a new type, and an unknown type gives peer 0. */
  lemma LegacyPeers(id: uint32, kind: nat)
    requires kind < 16
    ensures FromSerialized(id + 0x1_0000_0000 * kind)
            == if kind == 0 then id
               else if kind == 1 then id + 0x1_0000_0000_0000
               else if kind == 2 then id + 0x2_0000_0000_0000
               else if kind == 15 then id + 0x7F_0000_0000_0000
               else 0
  {
    var s: int := id + U32 * kind;
    assert s / U32 == kind && s % U32 == id;
  }

  // ---------- Truncated lists ----------

  /** A read that leaves the status alone took its full number of bytes. */
  lemma RawTakes(c: Cursor, n: nat)
    requires ReadRaw(c, n).1.ok
    ensures c.ok && |c.rest| == n + |ReadRaw(c, n).1.rest|
  {
  }

  lemma {:induction false} ValuesTake(c: Cursor, n: nat)
    requires ReadValues(c, n).1.ok
    ensures c.ok && |c.rest| == 8 * n + |ReadValues(c, n).1.rest|
    decreases n
  {
    if n > 0 {
      ValuesTake(ReadU64(c).1, n - 1);
      RawTakes(c, 8);
    }
  }

  lemma {:induction false} EntriesTake(c: Cursor, n: nat, d: Dict<FileKey>)
    requires ReadEntries(c, n, d).1.ok
    ensures c.ok && |c.rest| == 16 * n + |ReadEntries(c, n, d).1.rest|
    decreases n
  {
    if n > 0 {
      var (key, c1) := ReadU64(c);
      var (peer, c2) := ReadU64(c1);
      EntriesTake(c2, n - 1, Put(d, FromSerialized(peer), key));
      RawTakes(c1, 8);
      RawTakes(c, 8);
    }
  }

  lemma {:induction false} RowsTake(c: Cursor, n: nat)
    requires SkipRows(c, n).ok
    ensures c.ok && |c.rest| == 28 * n + |SkipRows(c, n).rest|
    decreases n
  {
    if n > 0 {
      var c1 := ReadValues(c, 3).1;
      RowsTake(ReadI32(c1).1, n - 1);
      RawTakes(c1, 4);
      ValuesTake(c, 3);
    }
  }

  lemma ArrayTakes(c: Cursor)
    requires ReadArray(c).1.ok
    ensures var len := ReadU32(c).0;
            c.ok && |c.rest| == 4 + (if len == 0xFFFF_FFFF then 0 else len) + |ReadArray(c).1.rest|
  {
    RawTakes(c, 4);
    if ReadU32(c).0 != 0xFFFF_FFFF {
      RawTakes(ReadU32(c).1, ReadU32(c).0);
    }
  }

  /** What a record's reading takes from the stream, if it leaves the status alone. */
  function Taken(c: Cursor): nat {
    var tag, word := ReadU32(c).0, ReadU32(ReadU32(c).1).0;
    if tag == DRAFT || tag == DRAFT_POSITION then 8 + 16 * word
    else if tag == SELF_SERIALIZED then 8 + (if word == 0xFFFF_FFFF then 0 else word)
    else if IsLegacyTable(tag) then 8 + 28 * word
    else 4 + 8 * Arity(tag)
  }

  lemma RecordTakes(c: Cursor, m: MapState)
    requires c.rest != [] && ReadRecord(c, m).Ok? && ReadRecord(c, m).value.cursor.ok
    ensures |c.rest| == Taken(c) + |ReadRecord(c, m).value.cursor.rest|
  {
    hide ReadEntries, SkipRows, ReadValues, Assign, FromBE32;
    var (tag, c1) := ReadU32(c);
    var (count, c2) := ReadU32(c1);
    if tag == DRAFT {
      EntriesTake(c2, count, m.drafts);
      RawTakes(c1, 4);
    } else if tag == DRAFT_POSITION {
      EntriesTake(c2, count, m.cursors);
      RawTakes(c1, 4);
    } else if tag == SELF_SERIALIZED {
      ArrayTakes(c1);
    } else if IsLegacyTable(tag) {
      RowsTake(c2, count);
      RawTakes(c1, 4);
    } else if tag != BACKGROUND_OLD_OLD && tag != WEBVIEW_TOKENS {
      ValuesTake(c1, Arity(tag));
    }
    RawTakes(c, 4);
  }

  /** A cursor over a prefix reads the same words as over the whole. */
  lemma SameWords(bytes: Data, n: nat)
    requires 4 <= n <= |bytes|
    ensures ReadU32(Cursor(bytes[..n], true)).0 == ReadU32(Cursor(bytes, true)).0
    ensures n >= 8 ==> ReadU32(ReadU32(Cursor(bytes[..n], true)).1).0 == ReadU32(ReadU32(Cursor(bytes, true)).1).0
    ensures n < 8 ==> !ReadU32(ReadU32(Cursor(bytes[..n], true)).1).1.ok
  {
    hide FromBE32;
    assert bytes[..n][..4] == bytes[..4];
    if n >= 8 {
      assert bytes[..n][4..][..4] == bytes[4..][..4];
    }
  }

  /** The full size of an encoded record, from its first two words. */
  lemma EncodedTakes(r: Record)
    requires Encodable(r) && r.tag != WEBVIEW_TOKENS
    ensures |Encode(r)| == Taken(Cursor(Encode(r), true))
  {
    hide ReadRecord;
    var m := EMPTY;
    assert Encode(r) + [] == Encode(r);
    EncodedIsSome(r);
    ReadRecordWritten(r, [], m);
    RecordTakes(Cursor(Encode(r), true), m);
  }

  /** A list that ends inside a record is refused, wherever it is cut. */
  lemma TruncatedIsRefused(r: Record, n: nat, m: MapState)
    requires Encodable(r) && 0 < n < |Encode(r)| && r.tag != WEBVIEW_TOKENS
    ensures ReadRecords(Cursor(Encode(r)[..n], true), m) == Err(StreamFailed)
  {
    hide Encode, Encodable, ReadEntries, SkipRows, ReadValues, Assign, FromBE32;
    var cut := Cursor(Encode(r)[..n], true);
    EncodedTakes(r);
    EncodedIsSome(r);
    if n >= 4 {
      SameWords(Encode(r), n);
      TagIsRead(r);
    }
    if ReadRecord(cut, m).Ok? && ReadRecord(cut, m).value.cursor.ok {
      RecordTakes(cut, m);
    }
  }

  lemma TagIsRead(r: Record)
    requires Encodable(r)
    ensures ReadU32(Cursor(Encode(r), true)).0 == r.tag && r.tag != BACKGROUND_OLD_OLD
  {
    EncodedIsSome(r);
    BE32RoundTrip(r.tag);
  }
}
