/** The `MapData` object: `prepareToWrite` announces a size and streams the records,
    `read` fills the fields from a file. */
module MapObject {
  import opened Bytes
  import opened DataStream
  import opened Storage
  import opened LocalEncryption
  import opened MapRecords
  import opened AccountMap

  const HEADER: Data := [0, 0, 0, 0]

  /** The stream holds the header and exactly these records. */
  ghost predicate Holds(stream: Stream, rs: seq<Record>)
    reads stream
  {
    stream.Valid() && stream.AtEnd() && AllEncodable(rs) && stream.data == HEADER + EncodeAll(rs)
  }

  lemma HoldsOneMore(rs: seq<Record>, r: Record)
    requires AllEncodable(rs) && Encodable(r)
    ensures AllEncodable(rs + [r]) && HEADER + EncodeAll(rs) + Encode(r) == HEADER + EncodeAll(rs + [r])
  {
    EncodeAllConcat(rs, [r]);
    assert [r][1..] == [];
    assert EncodeAll([r]) == Encode(r) + [];
  }

  lemma {:induction false} EncodeEntriesOneMore(entries: Dict<FileKey>, e: (PeerId, FileKey))
    requires !Reserved(e.0) && forall i :: 0 <= i < |entries| ==> !Reserved(entries[i].0)
    ensures EncodeEntries(entries + [e]) == EncodeEntries(entries) + BE64(e.1) + BE64(SerializePeer(e.0))
  {
    if entries == [] {
      assert ([] + [e])[1..] == [];
      assert EncodeEntries([] + [e]) == BE64(e.1) + BE64(SerializePeer(e.0)) + [];
    } else {
      assert (entries + [e])[1..] == entries[1..] + [e];
      EncodeEntriesOneMore(entries[1..], e);
    }
  }

  lemma Regroup(a: Data, b: Data, c: Data, d: Data)
    ensures a + b + c + d == a + (b + (c + d)) && a + b + c == a + (b + c)
  {
  }

  class MapData {
    var drafts: Dict<FileKey>
    var cursors: Dict<FileKey>
    var notRead: Dict<bool>
    var keys: FileKeys

    constructor ()
      ensures State() == EMPTY.(keys := NO_KEYS.(settings := 1851671142505648812))
    {
      drafts, cursors, notRead := [], [], [];
      keys := NO_KEYS.(settings := 1851671142505648812);
    }

    function State(): MapState
      reads this
    {
      MapState(drafts, cursors, notRead, keys)
    }

    /** Dict keys are distinct and a table has fewer than 2^32 entries. */
    predicate Valid()
      reads this
    {
      Distinct(drafts) && Distinct(cursors) && |drafts| < U32 && |cursors| < U32
    }

    // ---------- Writing ----------

    method DictSizes() returns (mapSize: nat)
      ensures mapSize == DictSize(drafts) + DictSize(cursors)
    {
      mapSize := 0;
      if |drafts| > 0 { mapSize := mapSize + (4 * 2 + |drafts| * 8 * 2); }
      if |cursors| > 0 { mapSize := mapSize + (4 * 2 + |cursors| * 8 * 2); }
    }

    method KeySizes(mapSize0: nat) returns (mapSize: nat)
      ensures mapSize == mapSize0 + Group1Size(keys) + Group2Size(keys)
    {
      mapSize := mapSize0;
      if keys.locations != 0 { mapSize := mapSize + (4 + 8); }
      if keys.trustedBots != 0 { mapSize := mapSize + (4 + 8); }
      if keys.recentStickersOld != 0 { mapSize := mapSize + (4 + 8); }
      assert mapSize == mapSize0 + Group1Size(keys);
      if HasStickers(keys) { mapSize := mapSize + (4 + 4 * 8); }
      if keys.favedStickers != 0 { mapSize := mapSize + (4 + 8); }
      if keys.savedGifs != 0 { mapSize := mapSize + (4 + 8); }
    }

    method MoreKeySizes(mapSize0: nat) returns (mapSize: nat)
      ensures mapSize == mapSize0 + Group3Size(keys) + Group4Size(keys) + TokensSize(keys)
    {
      mapSize := mapSize0;
      if keys.settings != 0 { mapSize := mapSize + (4 + 8); }
      if keys.recentHashtags != 0 { mapSize := mapSize + (4 + 8); }
      if keys.exportSettings != 0 { mapSize := mapSize + (4 + 8); }
      assert mapSize == mapSize0 + Group3Size(keys);
      if HasMasks(keys) { mapSize := mapSize + (4 + 3 * 8); }
      if HasEmoji(keys) { mapSize := mapSize + (4 + 3 * 8); }
      if keys.searchSuggestions != 0 { mapSize := mapSize + (4 + 8); }
      assert mapSize == mapSize0 + Group3Size(keys) + Group4Size(keys);
      if HasTokens(keys) { mapSize := mapSize + (4 + 2 * 8); }
    }

    method ComputeSize() returns (mapSize: nat)
      ensures mapSize == MapSize(State())
    {
      mapSize := DictSizes();
      mapSize := KeySizes(mapSize);
      mapSize := MoreKeySizes(mapSize);
    }

    static method WriteValues(stream: Stream, values: seq<FileKey>)
      requires stream.Valid() && stream.AtEnd()
      modifies stream
      ensures stream.Valid() && stream.AtEnd() && stream.data == old(stream.data) + EncodeValues(values)
    {
      var i := 0;
      while i < |values|
        invariant 0 <= i <= |values| && stream.Valid() && stream.AtEnd()
        invariant stream.data + EncodeValues(values[i..]) == old(stream.data) + EncodeValues(values)
      {
        ghost var before := stream.data;
        stream.WriteUInt64(values[i]);
        assert values[i..][1..] == values[i + 1..];
        assert before + EncodeValues(values[i..]) == stream.data + EncodeValues(values[i + 1..]);
        i := i + 1;
      }
      assert stream.data + [] == stream.data;
    }

    static method WriteKeys(stream: Stream, tag: uint32, values: seq<FileKey>, ghost done: seq<Record>)
      requires Holds(stream, done) && Encodable(Keys(tag, values))
      modifies stream
      ensures Holds(stream, done + [Keys(tag, values)])
    {
      stream.WriteUInt32(tag);
      WriteValues(stream, values);
      Regroup(old(stream.data), BE32(tag), EncodeValues(values), []);
      HoldsOneMore(done, Keys(tag, values));
    }

    /** A peer that cannot be serialized raises in the middle of its table. */
    static method WriteEntries(stream: Stream, entries: Dict<FileKey>) returns (ok: bool)
      requires stream.Valid() && stream.AtEnd()
      modifies stream
      ensures stream.Valid() && stream.AtEnd()
      ensures ok <==> forall i :: 0 <= i < |entries| ==> !Reserved(entries[i].0)
      ensures ok ==> stream.data == old(stream.data) + EncodeEntries(entries)
    {
      hide BE64, SerializePeer;
      var i := 0;
      assert old(stream.data) == old(stream.data) + EncodeEntries(entries[..0]);
      while i < |entries|
        invariant 0 <= i <= |entries| && stream.Valid() && stream.AtEnd()
        invariant forall j :: 0 <= j < i ==> !Reserved(entries[j].0)
        invariant stream.data == old(stream.data) + EncodeEntries(entries[..i])
      {
        if Reserved(entries[i].0) {
          return false;
        }
        stream.WriteUInt64(entries[i].1);
        stream.WriteUInt64(SerializePeer(entries[i].0));
        EncodeEntriesOneMore(entries[..i], entries[i]);
        assert entries[..i + 1] == entries[..i] + [entries[i]];
        i := i + 1;
      }
      assert entries[..i] == entries;
      ok := true;
    }

    static method WritePeers(stream: Stream, tag: uint32, entries: Dict<FileKey>, ghost done: seq<Record>)
        returns (ok: bool)
      requires Holds(stream, done) && (tag == DRAFT || tag == DRAFT_POSITION)
      requires |entries| < U32 && Distinct(entries)
      modifies stream
      ensures ok <==> Serializable(entries)
      ensures ok ==> Holds(stream, done + [Peers(tag, entries)])
    {
      stream.WriteUInt32(tag);
      stream.WriteUInt32(|entries|);
      ok := WriteEntries(stream, entries);
      if ok {
        Regroup(old(stream.data), BE32(tag), BE32(|entries|), EncodeEntries(entries));
        HoldsOneMore(done, Peers(tag, entries));
      }
    }

    /** One optional record. */
    static method WriteOptional(stream: Stream, present: bool, tag: uint32, values: seq<FileKey>,
        ghost done: seq<Record>)
      requires Holds(stream, done) && Encodable(Keys(tag, values))
      modifies stream
      ensures Holds(stream, done + Opt(present, Keys(tag, values)))
    {
      hide Encodable, AllEncodable, EncodeAll;
      if present {
        WriteKeys(stream, tag, values, done);
      } else {
        assert done + [] == done;
      }
    }

    static lemma ThreeMore(done: seq<Record>, a: seq<Record>, b: seq<Record>, c: seq<Record>)
      ensures done + a + b + c == done + (a + b + c)
    {
    }

    method WriteGroup1(stream: Stream, ghost done: seq<Record>)
      requires Holds(stream, done)
      modifies stream
      ensures Holds(stream, done + Group1(keys))
    {
      hide Holds, AllEncodable, EncodeAll, Opt;
      ghost var a, b := One(LOCATIONS, keys.locations), One(TRUSTED_BOTS, keys.trustedBots);
      WriteOptional(stream, keys.locations != 0, LOCATIONS, [keys.locations], done);
      WriteOptional(stream, keys.trustedBots != 0, TRUSTED_BOTS, [keys.trustedBots], done + a);
      WriteOptional(stream, keys.recentStickersOld != 0, RECENT_STICKERS_OLD, [keys.recentStickersOld], done + a + b);
      ThreeMore(done, a, b, One(RECENT_STICKERS_OLD, keys.recentStickersOld));
    }

    method WriteGroup2(stream: Stream, ghost done: seq<Record>)
      requires Holds(stream, done)
      modifies stream
      ensures Holds(stream, done + Group2(keys))
    {
      hide Holds, AllEncodable, EncodeAll, Opt;
      ghost var a, b := Opt(HasStickers(keys), StickersRecord(keys)), One(FAVED_STICKERS, keys.favedStickers);
      WriteOptional(stream, HasStickers(keys), STICKERS_KEYS, StickersRecord(keys).values, done);
      WriteOptional(stream, keys.favedStickers != 0, FAVED_STICKERS, [keys.favedStickers], done + a);
      WriteOptional(stream, keys.savedGifs != 0, SAVED_GIFS, [keys.savedGifs], done + a + b);
      ThreeMore(done, a, b, One(SAVED_GIFS, keys.savedGifs));
    }

    method WriteGroup3(stream: Stream, ghost done: seq<Record>)
      requires Holds(stream, done)
      modifies stream
      ensures Holds(stream, done + Group3(keys))
    {
      hide Holds, AllEncodable, EncodeAll, Opt;
      ghost var a, b := One(USER_SETTINGS, keys.settings), One(RECENT_HASHTAGS, keys.recentHashtags);
      WriteOptional(stream, keys.settings != 0, USER_SETTINGS, [keys.settings], done);
      WriteOptional(stream, keys.recentHashtags != 0, RECENT_HASHTAGS, [keys.recentHashtags], done + a);
      WriteOptional(stream, keys.exportSettings != 0, EXPORT_SETTINGS, [keys.exportSettings], done + a + b);
      ThreeMore(done, a, b, One(EXPORT_SETTINGS, keys.exportSettings));
    }

    method WriteGroup4(stream: Stream, ghost done: seq<Record>)
      requires Holds(stream, done)
      modifies stream
      ensures Holds(stream, done + Group4(keys))
    {
      hide Holds, AllEncodable, EncodeAll, Opt;
      ghost var a, b := Opt(HasMasks(keys), MasksRecord(keys)), Opt(HasEmoji(keys), EmojiRecord(keys));
      WriteOptional(stream, HasMasks(keys), MASKS_KEYS, MasksRecord(keys).values, done);
      WriteOptional(stream, HasEmoji(keys), CUSTOM_EMOJI_KEYS, EmojiRecord(keys).values, done + a);
      WriteOptional(stream, keys.searchSuggestions != 0, SEARCH_SUGGESTIONS, [keys.searchSuggestions], done + a + b);
      ThreeMore(done, a, b, One(SEARCH_SUGGESTIONS, keys.searchSuggestions));
    }

    method WriteTokens(stream: Stream, ghost done: seq<Record>)
      requires Holds(stream, done)
      modifies stream
      ensures Holds(stream, done + TokenRecords(keys))
    {
      if HasTokens(keys) {
        WriteKeys(stream, WEBVIEW_TOKENS, [keys.webviewBots, keys.webviewOther], done);
        assert done + [TokensRecord(keys)] == done + TokenRecords(keys);
      } else {
        assert done + [] == done;
      }
    }

    /** A map with nothing to write announces size 0 and gets no stream. */
    method PrepareToWrite() returns (r: Result<EncryptedDescriptor>)
      requires Valid()
      ensures r.Ok? <==> Writable(State())
      ensures r.Ok? ==> r.value.Valid() && fresh(r.value) && (r.value.stream != null <==> MapSize(State()) > 0)
      ensures r.Ok? && r.value.stream != null ==> r.value.Written() == HEADER + RecordBytes(State())
    {
      var mapSize := ComputeSize();
      var mapData := new EncryptedDescriptor(mapSize);
      if mapSize == 0 {
        assert drafts == [] && cursors == [];
        return Ok(mapData);
      }
      var stream: Stream := mapData.stream;
      ghost var rs: seq<Record> := [];
      assert HEADER + EncodeAll(rs) == stream.data;
      if |drafts| > 0 {
        var ok := WritePeers(stream, DRAFT, drafts, rs);
        if !ok {
          return Err(StreamFailed);
        }
        rs := rs + [Peers(DRAFT, drafts)];
      }
      if |cursors| > 0 {
        var ok := WritePeers(stream, DRAFT_POSITION, cursors, rs);
        if !ok {
          return Err(StreamFailed);
        }
        rs := rs + [Peers(DRAFT_POSITION, cursors)];
      }
      assert rs == PeerRecords(State());
      WriteGroup1(stream, rs);
      WriteGroup2(stream, rs + Group1(keys));
      WriteGroup3(stream, rs + Group1(keys) + Group2(keys));
      WriteGroup4(stream, rs + Group1(keys) + Group2(keys) + Group3(keys));
      WriteTokens(stream, rs + Group1(keys) + Group2(keys) + Group3(keys) + Group4(keys));
      r := Ok(mapData);
    }

    // ---------- Reading ----------

    static method ReadValuesLoop(stream: Stream, n: nat) returns (values: seq<FileKey>)
      requires stream.Valid()
      modifies stream
      ensures stream.Valid() && (values, stream.Cur()) == ReadValues(old(stream.Cur()), n)
    {
      values := [];
      ghost var all := ReadValues(stream.Cur(), n);
      assert [] + all.0 == all.0;
      for i := 0 to n
        invariant stream.Valid()
        invariant all.0 == values + ReadValues(stream.Cur(), n - i).0 && all.1 == ReadValues(stream.Cur(), n - i).1
      {
        var v := stream.ReadUInt64();
        ghost var more := ReadValues(stream.Cur(), n - i - 1).0;
        assert values + ([v] + more) == (values + [v]) + more;
        values := values + [v];
      }
      assert values + [] == values;
    }

    static method ReadEntriesLoop(stream: Stream, count: nat, start: Dict<FileKey>) returns (d: Dict<FileKey>)
      requires stream.Valid()
      modifies stream
      ensures stream.Valid() && (d, stream.Cur()) == ReadEntries(old(stream.Cur()), count, start)
    {
      d := start;
      for i := 0 to count
        invariant stream.Valid() && ReadEntries(old(stream.Cur()), count, start)
                  == ReadEntries(stream.Cur(), count - i, d)
      {
        var key := stream.ReadUInt64();
        var peer := stream.ReadUInt64();
        d := Put(d, FromSerialized(peer), key);
      }
    }

    static method SkipRowsLoop(stream: Stream, count: nat)
      requires stream.Valid()
      modifies stream
      ensures stream.Valid() && stream.Cur() == SkipRows(old(stream.Cur()), count)
    {
      for i := 0 to count
        invariant stream.Valid() && SkipRows(old(stream.Cur()), count) == SkipRows(stream.Cur(), count - i)
      {
        var row := ReadValuesLoop(stream, 3);
        var size := stream.ReadInt32();
      }
    }

    /** One turn of the loop. */
    static method ReadOne(stream: Stream, m: MapState) returns (next: Result<MapState>, finished: bool)
      requires stream.Valid() && !stream.AtEnd()
      modifies stream
      ensures stream.Valid() && |stream.Cur().rest| < |old(stream.Cur()).rest|
      ensures next.Ok? ==> ReadRecord(old(stream.Cur()), m) == Ok(Progress(next.value, stream.Cur(), finished))
      ensures next.Err? ==> ReadRecord(old(stream.Cur()), m) == Err(next.error)
    {
      finished := false;
      next := Ok(m);
      var tag := stream.ReadUInt32();
      if tag == DRAFT {
        var count := stream.ReadUInt32();
        var drafts := ReadEntriesLoop(stream, count, m.drafts);
        next := Ok(m.(drafts := drafts, notRead := MarkNotRead(drafts)));
      } else if tag == DRAFT_POSITION {
        var count := stream.ReadUInt32();
        var cursors := ReadEntriesLoop(stream, count, m.cursors);
        next := Ok(m.(cursors := cursors));
      } else if tag == SELF_SERIALIZED {
        var selfSerialized := stream.ReadByteArray();
      } else if IsLegacyTable(tag) {
        var count := stream.ReadUInt32();
        SkipRowsLoop(stream, count);
      } else if tag == BACKGROUND_OLD_OLD {
        next := Err(PythonError);
      } else if tag == WEBVIEW_TOKENS {
        finished := true;
      } else {
        var values := ReadValuesLoop(stream, Arity(tag));
        next := Ok(m.(keys := Assign(m.keys, tag, values)));
      }
    }

    static method ReadLoop(stream: Stream) returns (r: Result<MapState>)
      requires stream.Valid()
      modifies stream
      ensures r == ReadRecords(old(stream.Cur()), EMPTY)
    {
      var m, finished := EMPTY, false;
      while !finished && !stream.AtEnd()
        invariant stream.Valid()
        invariant ReadRecords(old(stream.Cur()), EMPTY) == if finished then Ok(m) else ReadRecords(stream.Cur(), m)
        decreases |stream.Cur().rest|
      {
        var next;
        next, finished := ReadOne(stream, m);
        if next.Err? {
          return Err(next.error);
        }
        m := next.value;
        if !stream.ok {
          return Err(StreamFailed);
        }
      }
      r := Ok(m);
    }

    static method OpenMapFile(c: Crypto, fs: FileSystem, basePath: Path, localKey: Data) returns (r: Result<Stream>)
      requires c.Lawful()
      ensures r.Ok? ==>
              fresh(r.value) && r.value.Valid() && OpenMap(c, fs.files, basePath, localKey) == Ok(r.value.Cur())
      ensures r.Err? ==> OpenMap(c, fs.files, basePath, localKey) == Err(r.error)
    {
      var file := ReadFileLoop(c, fs, basePath, "map");
      if file.Err? {
        return Err(if file.error.PythonError? then file.error else MapReadFailed);
      }
      var mapData := new Stream(file.value.data, 0);
      assert file.value.data[0..] == file.value.data;
      var legacySalt := mapData.ReadByteArray();
      var legacyKeyEncrypted := mapData.ReadByteArray();
      var mapEncrypted := mapData.ReadByteArray();
      if !mapData.ok {
        return Err(StreamFailed);
      }
      r := DecryptLocalSteps(c, mapEncrypted, localKey);
      if r.Err? {
        return Err(MapReadFailed);
      }
    }

    method Read(c: Crypto, fs: FileSystem, basePath: Path, localKey: Data) returns (r: Result<()>)
      requires c.Lawful()
      modifies this
      ensures r.Ok? ==> ReadMap(c, fs.files, basePath, localKey) == Ok(State())
      ensures r.Err? ==> ReadMap(c, fs.files, basePath, localKey) == Err(r.error) && State() == old(State())
    {
      var stream := OpenMapFile(c, fs, basePath, localKey);
      if stream.Err? {
        return Err(stream.error);
      }
      var m := ReadLoop(stream.value);
      if m.Err? {
        return Err(m.error);
      }
      drafts, cursors, notRead, keys := m.value.drafts, m.value.cursors, m.value.notRead, m.value.keys;
      r := Ok(());
    }
  }
}
