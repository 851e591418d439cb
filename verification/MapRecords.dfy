/** The account map: draft tables and file keys, written as a list of tagged records. */
module MapRecords {
  import opened Bytes
  import opened DataStream
  import opened Storage
  import opened LocalEncryption

  // ---------- Peers ----------

  type PeerId = uint64
  type FileKey = uint64

  const RESERVED := 0x80_0000_0000_0000 // kReservedBit << 48

  predicate Reserved(v: uint64) { v / RESERVED % 2 == 1 }

  /** `Serialize` refuses a peer that already carries the reserved bit. */
  function SerializePeer(v: PeerId): uint64
    requires !Reserved(v)
  {
    v + RESERVED
  }

  function FromSerialized(s: uint64): PeerId {
    if Reserved(s) then s - RESERVED
    else
      var bare, kind := s % U32, s / U32 % 16;
      if kind == 0x0 then bare
      else if kind == 0x1 then bare + 0x1_0000_0000_0000
      else if kind == 0x2 then bare + 0x2_0000_0000_0000
      else if kind == 0xF then bare + 0x7F_0000_0000_0000
      else 0
  }

  /** Serialization is undone for every peer it accepts; the other way round only the
      values of the new format survive, a legacy value is converted. */
  lemma PeerRoundTrip(v: PeerId, s: uint64)
    ensures !Reserved(v) ==> Reserved(SerializePeer(v)) && FromSerialized(SerializePeer(v)) == v
    ensures !Reserved(FromSerialized(s))
    ensures SerializePeer(FromSerialized(s)) == s <==> Reserved(s)
  {
  }

  // ---------- State ----------

  /** A Python dict: insertion order is kept, keys are distinct. */
  type Dict<V> = seq<(PeerId, V)>

  predicate Distinct<V>(d: Dict<V>) {
    forall i, j :: 0 <= i < j < |d| ==> d[i].0 != d[j].0
  }

  /** `d[k] = v`: an existing key keeps its place. */
  function Put<V>(d: Dict<V>, k: PeerId, v: V): Dict<V> {
    if d == [] then [(k, v)]
    else if d[0].0 == k then [(k, v)] + d[1..]
    else [d[0]] + Put(d[1..], k, v)
  }

  lemma {:induction false} PutFresh<V>(d: Dict<V>, k: PeerId, v: V)
    requires forall i :: 0 <= i < |d| ==> d[i].0 != k
    ensures Put(d, k, v) == d + [(k, v)]
  {
    if d != [] {
      PutFresh(d[1..], k, v);
      assert [d[0]] + (d[1..] + [(k, v)]) == d + [(k, v)];
    }
  }

  datatype FileKeys = FileKeys(
    locations: FileKey, trustedBots: FileKey, recentStickersOld: FileKey,
    installedStickers: FileKey, featuredStickers: FileKey, recentStickers: FileKey, archivedStickers: FileKey,
    favedStickers: FileKey, savedGifs: FileKey, settings: FileKey, recentHashtags: FileKey, exportSettings: FileKey,
    installedMasks: FileKey, recentMasks: FileKey, archivedMasks: FileKey,
    installedEmoji: FileKey, featuredEmoji: FileKey, archivedEmoji: FileKey,
    searchSuggestions: FileKey,
    webviewBots: FileKey, webviewOther: FileKey,
    backgroundDay: FileKey, backgroundNight: FileKey)

  const NO_KEYS := FileKeys(0, 0, 0, 0, 0, 0, 0, 0, 0, 0, 0, 0, 0, 0, 0, 0, 0, 0, 0, 0, 0, 0, 0)

  datatype MapState = MapState(drafts: Dict<FileKey>, cursors: Dict<FileKey>, notRead: Dict<bool>, keys: FileKeys)

  const EMPTY := MapState([], [], [], NO_KEYS)

  // ---------- Records ----------

  const DRAFT: uint32 := 0x01
  const DRAFT_POSITION: uint32 := 0x02
  const LOCATIONS: uint32 := 0x04
  const RECENT_STICKERS_OLD: uint32 := 0x07
  const BACKGROUND_OLD_OLD: uint32 := 0x08
  const USER_SETTINGS: uint32 := 0x09
  const RECENT_HASHTAGS: uint32 := 0x0A
  const STICKERS_OLD: uint32 := 0x0B
  const SAVED_PEERS_OLD: uint32 := 0x0C
  const REPORT_SPAM_OLD: uint32 := 0x0D
  const SAVED_GIFS_OLD: uint32 := 0x0E
  const SAVED_GIFS: uint32 := 0x0F
  const STICKERS_KEYS: uint32 := 0x10
  const TRUSTED_BOTS: uint32 := 0x11
  const FAVED_STICKERS: uint32 := 0x12
  const EXPORT_SETTINGS: uint32 := 0x13
  const BACKGROUND_OLD: uint32 := 0x14
  const SELF_SERIALIZED: uint32 := 0x15
  const MASKS_KEYS: uint32 := 0x16
  const CUSTOM_EMOJI_KEYS: uint32 := 0x17
  const SEARCH_SUGGESTIONS: uint32 := 0x18
  const WEBVIEW_TOKENS: uint32 := 0x19

  /** lskLegacyImages, lskLegacyStickerImages and lskLegacyAudios: tables to skip. */
  predicate IsLegacyTable(tag: uint32) { tag == 0x03 || tag == 0x05 || tag == 0x06 }

  /** How many 64-bit keys the reader takes after a tag; 0 for tags of any other shape. */
  function Arity(tag: uint32): nat {
    if tag == STICKERS_KEYS then 4
    else if tag == MASKS_KEYS || tag == CUSTOM_EMOJI_KEYS then 3
    else if tag == BACKGROUND_OLD then 2
    else if tag in {LOCATIONS, RECENT_STICKERS_OLD, USER_SETTINGS, RECENT_HASHTAGS, STICKERS_OLD, SAVED_PEERS_OLD,
                    REPORT_SPAM_OLD, SAVED_GIFS_OLD, SAVED_GIFS, TRUSTED_BOTS, FAVED_STICKERS, EXPORT_SETTINGS,
                    SEARCH_SUGGESTIONS} then 1
    else 0
  }

  /** Where those keys go; three obsolete tags are read and dropped. */
  function Assign(k: FileKeys, tag: uint32, v: seq<FileKey>): FileKeys
    requires |v| == Arity(tag)
  {
    if tag == LOCATIONS then k.(locations := v[0])
    else if tag == TRUSTED_BOTS then k.(trustedBots := v[0])
    else if tag == RECENT_STICKERS_OLD then k.(recentStickersOld := v[0])
    else if tag == BACKGROUND_OLD then k.(backgroundDay := v[0], backgroundNight := v[1])
    else if tag == USER_SETTINGS then k.(settings := v[0])
    else if tag == RECENT_HASHTAGS then k.(recentHashtags := v[0])
    else if tag == STICKERS_OLD then k.(installedStickers := v[0])
    else if tag == STICKERS_KEYS then
      k.(installedStickers := v[0], featuredStickers := v[1], recentStickers := v[2], archivedStickers := v[3])
    else if tag == FAVED_STICKERS then k.(favedStickers := v[0])
    else if tag == SAVED_GIFS then k.(savedGifs := v[0])
    else if tag == EXPORT_SETTINGS then k.(exportSettings := v[0])
    else if tag == MASKS_KEYS then k.(installedMasks := v[0], recentMasks := v[1], archivedMasks := v[2])
    else if tag == CUSTOM_EMOJI_KEYS then k.(installedEmoji := v[0], featuredEmoji := v[1], archivedEmoji := v[2])
    else if tag == SEARCH_SUGGESTIONS then k.(searchSuggestions := v[0])
    else k
  }

  /** A row of a legacy table. */
  datatype LegacyRow = LegacyRow(key: uint64, first: uint64, second: uint64, size: int32)

  datatype Record =
    | Peers(tag: uint32, entries: Dict<FileKey>)
    | Keys(tag: uint32, values: seq<FileKey>)
    | SelfArray(tag: uint32, array_: QByteArray)
    | LegacyTable(tag: uint32, rows: seq<LegacyRow>)
    | Unknown(tag: uint32)

  /** The tags for which the reader has a branch of their own. */
  predicate IsKnown(tag: uint32) {
    || Arity(tag) > 0 || IsLegacyTable(tag)
    || tag in {DRAFT, DRAFT_POSITION, SELF_SERIALIZED, BACKGROUND_OLD_OLD, WEBVIEW_TOKENS}
  }

  function EncodeValues(values: seq<FileKey>): Data {
    if values == [] then [] else BE64(values[0]) + EncodeValues(values[1..])
  }

  predicate Serializable(entries: Dict<FileKey>) {
    |entries| < U32 && forall i :: 0 <= i < |entries| ==> !Reserved(entries[i].0)
  }

  /** Key first, then the peer. */
  function EncodeEntries(entries: Dict<FileKey>): Data
    requires forall i :: 0 <= i < |entries| ==> !Reserved(entries[i].0)
  {
    if entries == [] then []
    else BE64(entries[0].1) + BE64(SerializePeer(entries[0].0)) + EncodeEntries(entries[1..])
  }

  function EncodeRows(rows: seq<LegacyRow>): Data {
    if rows == [] then []
    else
      BE64(rows[0].key) + BE64(rows[0].first) + BE64(rows[0].second) + BE32(Unsigned32(rows[0].size))
      + EncodeRows(rows[1..])
  }

  predicate Encodable(r: Record) {
    match r
    case Peers(tag, entries) => (tag == DRAFT || tag == DRAFT_POSITION) && Serializable(entries) && Distinct(entries)
    case Keys(tag, values) => (Arity(tag) > 0 && |values| == Arity(tag)) || (tag == WEBVIEW_TOKENS && |values| == 2)
    case SelfArray(tag, array_) => tag == SELF_SERIALIZED && array_.Fits()
    case LegacyTable(tag, rows) => IsLegacyTable(tag) && |rows| < U32
    case Unknown(tag) => !IsKnown(tag)
  }

  function Encode(r: Record): Data
    requires Encodable(r)
  {
    match r
    case Peers(tag, entries) => BE32(tag) + (BE32(|entries|) + EncodeEntries(entries))
    case Keys(tag, values) => BE32(tag) + EncodeValues(values)
    case SelfArray(tag, array_) => BE32(tag) + array_.Encoded()
    case LegacyTable(tag, rows) => BE32(tag) + (BE32(|rows|) + EncodeRows(rows))
    case Unknown(tag) => BE32(tag)
  }

  predicate AllEncodable(rs: seq<Record>) { forall i :: 0 <= i < |rs| ==> Encodable(rs[i]) }

  function EncodeAll(rs: seq<Record>): Data
    requires AllEncodable(rs)
  {
    if rs == [] then [] else Encode(rs[0]) + EncodeAll(rs[1..])
  }

  lemma {:induction false} EncodeAllConcat(a: seq<Record>, b: seq<Record>)
    requires AllEncodable(a) && AllEncodable(b) && AllEncodable(a + b)
    ensures EncodeAll(a + b) == EncodeAll(a) + EncodeAll(b)
  {
    if a == [] {
      assert a + b == b;
    } else {
      assert (a + b)[1..] == a[1..] + b;
      EncodeAllConcat(a[1..], b);
    }
  }

  // ---------- Reading ----------

  function ReadValues(c: Cursor, n: nat): (r: (seq<FileKey>, Cursor))
    ensures |r.0| == n && |r.1.rest| <= |c.rest|
    decreases n
  {
    if n == 0 then ([], c)
    else
      var (v, c1) := ReadU64(c);
      var (more, c2) := ReadValues(c1, n - 1);
      ([v] + more, c2)
  }

  function ReadEntries(c: Cursor, n: nat, d: Dict<FileKey>): (r: (Dict<FileKey>, Cursor))
    ensures |r.1.rest| <= |c.rest|
    decreases n
  {
    if n == 0 then (d, c)
    else
      var (key, c1) := ReadU64(c);
      var (peer, c2) := ReadU64(c1);
      ReadEntries(c2, n - 1, Put(d, FromSerialized(peer), key))
  }

  function MarkNotRead(entries: Dict<FileKey>): Dict<bool> {
    seq(|entries|, i requires 0 <= i < |entries| => (entries[i].0, true))
  }

  /** Rows of three 64-bit words and one 32-bit word. */
  function SkipRows(c: Cursor, n: nat): (r: Cursor)
    ensures |r.rest| <= |c.rest|
    decreases n
  {
    if n == 0 then c else SkipRows(ReadI32(ReadValues(c, 3).1).1, n - 1)
  }

  datatype Progress = Progress(state: MapState, cursor: Cursor, finished: bool)

  /** One turn of the reading loop, without its status check. */
  function ReadRecord(c: Cursor, m: MapState): (r: Result<Progress>)
    requires c.rest != []
    ensures r.Ok? ==> |r.value.cursor.rest| < |c.rest|
  {
    var (tag, c1) := ReadU32(c);
    if tag == DRAFT then
      var (count, c2) := ReadU32(c1);
      var (drafts, c3) := ReadEntries(c2, count, m.drafts);
      Ok(Progress(m.(drafts := drafts, notRead := MarkNotRead(drafts)), c3, false))
    else if tag == DRAFT_POSITION then
      var (count, c2) := ReadU32(c1);
      var (cursors, c3) := ReadEntries(c2, count, m.cursors);
      Ok(Progress(m.(cursors := cursors), c3, false))
    else if tag == SELF_SERIALIZED then Ok(Progress(m, ReadArray(c1).1, false))
    else if IsLegacyTable(tag) then
      var (count, c2) := ReadU32(c1);
      Ok(Progress(m, SkipRows(c2, count), false))
    else if tag == BACKGROUND_OLD_OLD then Err(PythonError) // streams into an int
    else if tag == WEBVIEW_TOKENS then Ok(Progress(m, c1, true))
    else // a tag of no known shape is logged and passed over
      var (values, c2) := ReadValues(c1, Arity(tag));
      Ok(Progress(m.(keys := Assign(m.keys, tag, values)), c2, false))
  }

  function ReadRecords(c: Cursor, m: MapState): Result<MapState>
    decreases |c.rest|
  {
    if c.rest == [] then Ok(m)
    else
      match ReadRecord(c, m)
      case Err(e) => Err(e)
      case Ok(p) =>
        if !p.cursor.ok then Err(StreamFailed)
        else if p.finished then Ok(p.state)
        else ReadRecords(p.cursor, p.state)
  }

  /** The decrypted record stream of the map file: its third array. */
  function OpenMap(c: Crypto, files: Files, basePath: Path, localKey: Data): Result<Cursor>
    requires c.Lawful()
  {
    match ReadFile(c, files, basePath, "map")
    case Err(e) => if e.PythonError? then Err(e) else Err(MapReadFailed)
    case Ok(f) =>
      var c1 := ReadArray(Cursor(f.data, true)).1;
      var c2 := ReadArray(c1).1;
      var (mapEncrypted, c3) := ReadArray(c2);
      if !c3.ok then Err(StreamFailed)
      else if DecryptLocal(c, mapEncrypted, localKey).Err? then Err(MapReadFailed)
      else DecryptLocal(c, mapEncrypted, localKey)
  }

  /** `MapData.read`, for an account whose local key is known. */
  function ReadMap(c: Crypto, files: Files, basePath: Path, localKey: Data): Result<MapState>
    requires c.Lawful()
  {
    match OpenMap(c, files, basePath, localKey)
    case Err(e) => Err(e)
    case Ok(records) => ReadRecords(records, EMPTY)
  }

  // ---------- What records mean ----------

  /** The effect of one record on the state being read. */
  function Apply(m: MapState, r: Record): MapState
    requires Encodable(r)
  {
    match r
    case Peers(tag, entries) =>
      if tag == DRAFT then var d := PutAll(m.drafts, entries); m.(drafts := d, notRead := MarkNotRead(d))
      else m.(cursors := PutAll(m.cursors, entries))
    case Keys(tag, values) => if tag == WEBVIEW_TOKENS then m else m.(keys := Assign(m.keys, tag, values))
    case _ => m
  }

  function PutAll(d: Dict<FileKey>, entries: Dict<FileKey>): Dict<FileKey>
    decreases |entries|
  {
    if entries == [] then d else PutAll(Put(d, entries[0].0, entries[0].1), entries[1..])
  }

  /** The meaning of a whole file: every record up to the web view tokens, in order. */
  function ApplyAll(m: MapState, rs: seq<Record>): MapState
    requires AllEncodable(rs)
    decreases |rs|
  {
    if rs == [] || rs[0].tag == WEBVIEW_TOKENS then m else ApplyAll(Apply(m, rs[0]), rs[1..])
  }

  lemma {:induction false} PutAllFresh(d: Dict<FileKey>, entries: Dict<FileKey>)
    requires Distinct(d + entries)
    ensures PutAll(d, entries) == d + entries
    decreases |entries|
  {
    if entries == [] {
      assert d + entries == d;
    } else {
      assert forall i :: 0 <= i < |d| ==> (d + entries)[i] == d[i];
      assert (d + entries)[|d|] == entries[0];
      PutFresh(d, entries[0].0, entries[0].1);
      assert (d + [entries[0]]) + entries[1..] == d + entries;
      assert (entries[0].0, entries[0].1) == entries[0];
      PutAllFresh(d + [entries[0]], entries[1..]);
    }
  }

  lemma {:induction false} ReadValuesWritten(values: seq<FileKey>, rest: Data)
    ensures ReadValues(Cursor(EncodeValues(values) + rest, true), |values|) == (values, Cursor(rest, true))
  {
    if values == [] {
      assert EncodeValues(values) + rest == rest;
    } else {
      assert EncodeValues(values) + rest == BE64(values[0]) + (EncodeValues(values[1..]) + rest);
      ReadU64Written(values[0], EncodeValues(values[1..]) + rest, true);
      ReadValuesWritten(values[1..], rest);
      assert [values[0]] + values[1..] == values;
    }
  }

  lemma {:induction false} ReadEntriesWritten(entries: Dict<FileKey>, rest: Data, d: Dict<FileKey>)
    requires forall i :: 0 <= i < |entries| ==> !Reserved(entries[i].0)
    ensures ReadEntries(Cursor(EncodeEntries(entries) + rest, true), |entries|, d)
            == (PutAll(d, entries), Cursor(rest, true))
  {
    if entries == [] {
      assert EncodeEntries(entries) + rest == rest;
    } else {
      var (peer, key) := entries[0];
      var tail := EncodeEntries(entries[1..]) + rest;
      assert EncodeEntries(entries) + rest == BE64(key) + (BE64(SerializePeer(peer)) + tail);
      ReadU64Written(key, BE64(SerializePeer(peer)) + tail, true);
      ReadU64Written(SerializePeer(peer), tail, true);
      PeerRoundTrip(peer, 0);
      ReadEntriesWritten(entries[1..], rest, Put(d, peer, key));
    }
  }

  lemma {:induction false} SkipRowsWritten(rows: seq<LegacyRow>, rest: Data)
    ensures SkipRows(Cursor(EncodeRows(rows) + rest, true), |rows|) == Cursor(rest, true)
  {
    hide BE64, BE32, ReadU64, ReadI32;
    if rows == [] {
      assert EncodeRows(rows) + rest == rest;
    } else {
      var row, tail := rows[0], EncodeRows(rows[1..]) + rest;
      var size := BE32(Unsigned32(row.size)) + tail;
      assert EncodeRows(rows) + rest == BE64(row.key) + (BE64(row.first) + (BE64(row.second) + size));
      ThreeWordsWritten(row.key, row.first, row.second, size);
      ReadI32Written(row.size, tail, true);
      SkipRowsWritten(rows[1..], rest);
    }
  }

  lemma ThreeWordsWritten(a: uint64, b: uint64, c: uint64, rest: Data)
    ensures ReadValues(Cursor(BE64(a) + (BE64(b) + (BE64(c) + rest)), true), 3).1 == Cursor(rest, true)
  {
    hide BE64, ReadU64;
    ReadU64Written(a, BE64(b) + (BE64(c) + rest), true);
    ReadU64Written(b, BE64(c) + rest, true);
    ReadU64Written(c, rest, true);
    assert ReadValues(Cursor(rest, true), 0) == ([], Cursor(rest, true));
    assert ReadValues(Cursor(BE64(c) + rest, true), 1).1 == Cursor(rest, true);
    assert ReadValues(Cursor(BE64(b) + (BE64(c) + rest), true), 2).1 == Cursor(rest, true);
  }

  predicate ReadsAs(r: Record, rest: Data, m: MapState)
    requires Encodable(r)
  {
    var p := ReadRecord(Cursor(Encode(r) + rest, true), m);
    && p.Ok? && p.value.state == Apply(m, r) && p.value.cursor.ok
    && p.value.finished == (r.tag == WEBVIEW_TOKENS)
    && (!p.value.finished ==> p.value.cursor == Cursor(rest, true))
  }

  lemma ReadPeersWritten(tag: uint32, entries: Dict<FileKey>, rest: Data, m: MapState)
    requires Encodable(Peers(tag, entries))
    ensures ReadsAs(Peers(tag, entries), rest, m)
  {
    var tail := EncodeEntries(entries) + rest;
    assert Encode(Peers(tag, entries)) + rest == BE32(tag) + (BE32(|entries|) + tail);
    ReadU32Written(tag, BE32(|entries|) + tail, true);
    ReadU32Written(|entries|, tail, true);
    ReadEntriesWritten(entries, rest, if tag == DRAFT then m.drafts else m.cursors);
  }

  lemma ReadKeysWritten(tag: uint32, values: seq<FileKey>, rest: Data, m: MapState)
    requires Encodable(Keys(tag, values))
    ensures ReadsAs(Keys(tag, values), rest, m)
  {
    var start := Cursor(Encode(Keys(tag, values)) + rest, true);
    assert start.rest == BE32(tag) + (EncodeValues(values) + rest);
    ReadU32Written(tag, EncodeValues(values) + rest, true);
    if tag != WEBVIEW_TOKENS {
      ReadValuesWritten(values, rest);
      ReadKeysDispatch(start, m, tag);
    }
  }

  /** The reader passes over the array and is where it ends. */
  lemma ReadSelfWritten(array_: QByteArray, rest: Data, m: MapState)
    requires array_.Fits()
    ensures ReadsAs(SelfArray(SELF_SERIALIZED, array_), rest, m)
  {
    hide BE32, ReadU32, ReadArray, QByteArray.Encoded;
    var r := SelfArray(SELF_SERIALIZED, array_);
    assert Encode(r) + rest == BE32(SELF_SERIALIZED) + (array_.Encoded() + rest);
    ReadU32Written(SELF_SERIALIZED, array_.Encoded() + rest, true);
    ReadArrayWritten(array_, rest, true);
  }

  /** It passes over the rows of a legacy table. */
  lemma ReadLegacyWritten(tag: uint32, rows: seq<LegacyRow>, rest: Data, m: MapState)
    requires IsLegacyTable(tag) && |rows| < U32
    ensures ReadsAs(LegacyTable(tag, rows), rest, m)
  {
    hide BE32, ReadU32, SkipRows, EncodeRows;
    var tail := EncodeRows(rows) + rest;
    assert Encode(LegacyTable(tag, rows)) + rest == BE32(tag) + (BE32(|rows|) + tail);
    ReadU32Written(tag, BE32(|rows|) + tail, true);
    ReadU32Written(|rows|, tail, true);
    SkipRowsWritten(rows, rest);
  }

  /** It passes over a tag that it does not know. */
  lemma ReadUnknownWritten(tag: uint32, rest: Data, m: MapState)
    requires !IsKnown(tag)
    ensures ReadsAs(Unknown(tag), rest, m)
  {
    hide BE32, ReadU32;
    ReadU32Written(tag, rest, true);
  }

  /** A tag with keys takes the last branch of the reader. */
  lemma ReadKeysDispatch(c: Cursor, m: MapState, tag: uint32)
    requires c.rest != [] && ReadU32(c).0 == tag && Arity(tag) > 0
    ensures var (values, c2) := ReadValues(ReadU32(c).1, Arity(tag));
            ReadRecord(c, m) == Ok(Progress(m.(keys := Assign(m.keys, tag, values)), c2, false))
  {
  }

  /** One turn of the loop on one encoded record, whatever follows it. */
  lemma ReadRecordWritten(r: Record, rest: Data, m: MapState)
    requires Encodable(r)
    ensures ReadsAs(r, rest, m)
  {
    match r
    case Peers(tag, entries) => ReadPeersWritten(tag, entries, rest, m);
    case Keys(tag, values) => ReadKeysWritten(tag, values, rest, m);
    case SelfArray(_, array_) => ReadSelfWritten(array_, rest, m);
    case LegacyTable(tag, rows) => ReadLegacyWritten(tag, rows, rest, m);
    case Unknown(tag) => ReadUnknownWritten(tag, rest, m);
  }

  /** The reader understands every list of records, in any order and with repetitions, among
      them the self-serialized array, legacy tables and tags it does not know: it computes their
      meaning. */
  lemma {:induction false} ReadRecordsWritten(rs: seq<Record>, m: MapState)
    requires AllEncodable(rs)
    ensures ReadRecords(Cursor(EncodeAll(rs), true), m) == Ok(ApplyAll(m, rs))
    decreases |rs|
  {
    if rs != [] {
      ReadRecordWritten(rs[0], EncodeAll(rs[1..]), m);
      if rs[0].tag != WEBVIEW_TOKENS {
        ReadRecordsWritten(rs[1..], Apply(m, rs[0]));
      }
    }
  }
}
