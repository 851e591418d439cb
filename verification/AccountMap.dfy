/** The map object of an account: which records it writes, the size it announces for them,
    and the loop that reads them back. */
module AccountMap {
  import opened Bytes
  import opened DataStream
  import opened Storage
  import opened MapRecords

  function Opt(cond: bool, r: Record): seq<Record> { if cond then [r] else [] }

  predicate HasStickers(k: FileKeys) {
    k.installedStickers != 0 || k.featuredStickers != 0 || k.recentStickers != 0 || k.archivedStickers != 0
  }

  predicate HasMasks(k: FileKeys) { k.installedMasks != 0 || k.recentMasks != 0 || k.archivedMasks != 0 }

  predicate HasEmoji(k: FileKeys) { k.installedEmoji != 0 || k.featuredEmoji != 0 || k.archivedEmoji != 0 }

  predicate HasTokens(k: FileKeys) { k.webviewBots != 0 || k.webviewOther != 0 }

  function One(tag: uint32, key: FileKey): seq<Record> { Opt(key != 0, Keys(tag, [key])) }

  function PeerRecords(m: MapState): seq<Record> {
    Opt(m.drafts != [], Peers(DRAFT, m.drafts)) + Opt(m.cursors != [], Peers(DRAFT_POSITION, m.cursors))
  }

  function StickersRecord(k: FileKeys): Record {
    Keys(STICKERS_KEYS, [k.installedStickers, k.featuredStickers, k.recentStickers, k.archivedStickers])
  }

  function MasksRecord(k: FileKeys): Record { Keys(MASKS_KEYS, [k.installedMasks, k.recentMasks, k.archivedMasks]) }

  function EmojiRecord(k: FileKeys): Record {
    Keys(CUSTOM_EMOJI_KEYS, [k.installedEmoji, k.featuredEmoji, k.archivedEmoji])
  }

  function TokensRecord(k: FileKeys): Record { Keys(WEBVIEW_TOKENS, [k.webviewBots, k.webviewOther]) }

  /** The single keys and key groups, three at a time, in the order they are written. */
  function Group1(k: FileKeys): seq<Record> {
    One(LOCATIONS, k.locations) + One(TRUSTED_BOTS, k.trustedBots) + One(RECENT_STICKERS_OLD, k.recentStickersOld)
  }

  function Group2(k: FileKeys): seq<Record> {
    Opt(HasStickers(k), StickersRecord(k)) + One(FAVED_STICKERS, k.favedStickers) + One(SAVED_GIFS, k.savedGifs)
  }

  function Group3(k: FileKeys): seq<Record> {
    One(USER_SETTINGS, k.settings) + One(RECENT_HASHTAGS, k.recentHashtags) + One(EXPORT_SETTINGS, k.exportSettings)
  }

  function Group4(k: FileKeys): seq<Record> {
    Opt(HasMasks(k), MasksRecord(k)) + Opt(HasEmoji(k), EmojiRecord(k)) + One(SEARCH_SUGGESTIONS, k.searchSuggestions)
  }

  function TokenRecords(k: FileKeys): seq<Record> {
    Opt(HasTokens(k), TokensRecord(k))
  }

  /** The records `prepareToWrite` emits, in its order. */
  function Records(m: MapState): seq<Record> {
    PeerRecords(m) + Group1(m.keys) + Group2(m.keys) + Group3(m.keys) + Group4(m.keys) + TokenRecords(m.keys)
  }

  /** What a Python map object can hold and the stream can encode. */
  predicate Writable(m: MapState) {
    Distinct(m.drafts) && Distinct(m.cursors) && Serializable(m.drafts) && Serializable(m.cursors)
  }

  // ---------- Round trip ----------

  /** The file keys that come back: not the two tokens, whose record stops the reader, and
      not the two background keys, for which no record is written. */
  function Kept(k: FileKeys): FileKeys {
    k.(webviewBots := 0, webviewOther := 0, backgroundDay := 0, backgroundNight := 0)
  }

  function Restored(m: MapState): MapState {
    MapState(m.drafts, m.cursors, MarkNotRead(m.drafts), Kept(m.keys))
  }

  predicate NoTokens(rs: seq<Record>) { forall i :: 0 <= i < |rs| ==> rs[i].tag != WEBVIEW_TOKENS }

  lemma {:induction false} ApplyAllConcat(m: MapState, a: seq<Record>, b: seq<Record>)
    requires AllEncodable(a) && AllEncodable(b) && AllEncodable(a + b) && NoTokens(a)
    ensures ApplyAll(m, a + b) == ApplyAll(ApplyAll(m, a), b)
    decreases |a|
  {
    if a == [] {
      assert a + b == b;
    } else {
      assert (a + b)[1..] == a[1..] + b;
      ApplyAllConcat(Apply(m, a[0]), a[1..], b);
    }
  }

  /** An optional record left out because all its keys are zero changes nothing if the
      reader's fields are still zero. */
  lemma ApplyOpt(m: MapState, a: seq<Record>, cond: bool, r: Record)
    requires AllEncodable(a) && NoTokens(a) && Encodable(r) && r.tag != WEBVIEW_TOKENS
    requires !cond ==> Apply(ApplyAll(m, a), r) == ApplyAll(m, a)
    ensures AllEncodable(a + Opt(cond, r)) && NoTokens(a + Opt(cond, r))
    ensures ApplyAll(m, a + Opt(cond, r)) == Apply(ApplyAll(m, a), r)
  {
    ApplyAllConcat(m, a, Opt(cond, r));
    if cond {
      var after := ApplyAll(m, a);
      assert ApplyAll(after, [r]) == ApplyAll(Apply(after, r), [r][1..]);
    }
  }

  predicate PlainRecord(r: Record) { Encodable(r) && r.tag != WEBVIEW_TOKENS }

  predicate Plain(rs: seq<Record>) { AllEncodable(rs) && NoTokens(rs) }

  /** Three optional records in a row, applied one after the other. */
  lemma ApplyThree(m: MapState, c1: bool, r1: Record, c2: bool, r2: Record, c3: bool, r3: Record)
    requires PlainRecord(r1) && PlainRecord(r2) && PlainRecord(r3)
    requires var m1 := Apply(m, r1); var m2 := Apply(m1, r2);
             && (!c1 ==> m1 == m) && (!c2 ==> m2 == m1) && (!c3 ==> Apply(m2, r3) == m2)
    ensures var rs := Opt(c1, r1) + Opt(c2, r2) + Opt(c3, r3);
            Plain(rs) && ApplyAll(m, rs) == Apply(Apply(Apply(m, r1), r2), r3)
  {
    ApplyOpt(m, [], c1, r1);
    assert [] + Opt(c1, r1) == Opt(c1, r1);
    ApplyOpt(m, Opt(c1, r1), c2, r2);
    ApplyOpt(m, Opt(c1, r1) + Opt(c2, r2), c3, r3);
  }

  lemma Group1Restores(m: MapState, k: FileKeys)
    requires m.keys == NO_KEYS
    ensures Plain(Group1(k))
    ensures ApplyAll(m, Group1(k)) == m.(keys := NO_KEYS.(locations := k.locations, trustedBots := k.trustedBots,
                                                         recentStickersOld := k.recentStickersOld))
  {
    ApplyThree(m, k.locations != 0, Keys(LOCATIONS, [k.locations]), k.trustedBots != 0,
        Keys(TRUSTED_BOTS, [k.trustedBots]),
               k.recentStickersOld != 0, Keys(RECENT_STICKERS_OLD, [k.recentStickersOld]));
  }

  lemma Group2Restores(m: MapState, k: FileKeys)
    requires m.keys.installedStickers == m.keys.featuredStickers == m.keys.recentStickers == m.keys.archivedStickers
            == 0
    requires m.keys.favedStickers == m.keys.savedGifs == 0
    ensures Plain(Group2(k))
    ensures ApplyAll(m, Group2(k))
            == m.(keys := m.keys.(installedStickers := k.installedStickers, featuredStickers := k.featuredStickers,
                                  recentStickers := k.recentStickers, archivedStickers := k.archivedStickers,
                                  favedStickers := k.favedStickers, savedGifs := k.savedGifs))
  {
    ApplyThree(m, HasStickers(k), StickersRecord(k), k.favedStickers != 0, Keys(FAVED_STICKERS, [k.favedStickers]),
               k.savedGifs != 0, Keys(SAVED_GIFS, [k.savedGifs]));
  }

  lemma Group3Restores(m: MapState, k: FileKeys)
    requires m.keys.settings == m.keys.recentHashtags == m.keys.exportSettings == 0
    ensures Plain(Group3(k))
    ensures ApplyAll(m, Group3(k)) == m.(keys := m.keys.(settings := k.settings, recentHashtags := k.recentHashtags,
                                                         exportSettings := k.exportSettings))
  {
    ApplyThree(m, k.settings != 0, Keys(USER_SETTINGS, [k.settings]), k.recentHashtags != 0,
        Keys(RECENT_HASHTAGS, [k.recentHashtags]),
               k.exportSettings != 0, Keys(EXPORT_SETTINGS, [k.exportSettings]));
  }

  lemma Group4Restores(m: MapState, k: FileKeys)
    requires m.keys.installedMasks == m.keys.recentMasks == m.keys.archivedMasks == 0
    requires m.keys.installedEmoji == m.keys.featuredEmoji == m.keys.archivedEmoji == m.keys.searchSuggestions == 0
    ensures Plain(Group4(k))
    ensures ApplyAll(m, Group4(k))
            == m.(keys := m.keys.(installedMasks := k.installedMasks, recentMasks := k.recentMasks,
                                  archivedMasks := k.archivedMasks, installedEmoji := k.installedEmoji,
                                  featuredEmoji := k.featuredEmoji, archivedEmoji := k.archivedEmoji,
                                  searchSuggestions := k.searchSuggestions))
  {
    ApplyThree(m, HasMasks(k), MasksRecord(k), HasEmoji(k), EmojiRecord(k),
               k.searchSuggestions != 0, Keys(SEARCH_SUGGESTIONS, [k.searchSuggestions]));
  }

  lemma PeersRestore(m: MapState)
    requires Writable(m)
    ensures Plain(PeerRecords(m))
    ensures ApplyAll(EMPTY, PeerRecords(m)) == MapState(m.drafts, m.cursors, MarkNotRead(m.drafts), NO_KEYS)
  {
    assert [] + m.drafts == m.drafts && [] + m.cursors == m.cursors;
    PutAllFresh([], m.drafts);
    PutAllFresh([], m.cursors);
    ApplyOpt(EMPTY, [], m.drafts != [], Peers(DRAFT, m.drafts));
    assert [] + Opt(m.drafts != [], Peers(DRAFT, m.drafts)) == Opt(m.drafts != [], Peers(DRAFT, m.drafts));
    ApplyOpt(EMPTY, Opt(m.drafts != [], Peers(DRAFT, m.drafts)), m.cursors != [], Peers(DRAFT_POSITION, m.cursors));
  }

  lemma GroupsRestore(m: MapState, k: FileKeys)
    requires m.keys == NO_KEYS
    ensures Plain(Group1(k)) && Plain(Group2(k)) && Plain(Group3(k)) && Plain(Group4(k))
    ensures ApplyAll(ApplyAll(ApplyAll(ApplyAll(m, Group1(k)), Group2(k)), Group3(k)), Group4(k)) == m.(keys := Kept(k))
  {
    Group1Restores(m, k);
    var m1 := ApplyAll(m, Group1(k));
    Group2Restores(m1, k);
    var m2 := ApplyAll(m1, Group2(k));
    Group3Restores(m2, k);
    Group4Restores(ApplyAll(m2, Group3(k)), k);
  }

  lemma Chain(m: MapState, a: seq<Record>, b: seq<Record>)
    requires Plain(a) && AllEncodable(b)
    ensures AllEncodable(a + b) && (Plain(b) ==> Plain(a + b))
    ensures ApplyAll(m, a + b) == ApplyAll(ApplyAll(m, a), b)
  {
    ApplyAllConcat(m, a, b);
  }

  lemma ChainAll(m: MapState, p: seq<Record>, g1: seq<Record>, g2: seq<Record>, g3: seq<Record>, g4: seq<Record>,
      t: seq<Record>)
    requires Plain(p) && Plain(g1) && Plain(g2) && Plain(g3) && Plain(g4) && AllEncodable(t)
    ensures AllEncodable(p + g1 + g2 + g3 + g4 + t)
    ensures ApplyAll(m, p + g1 + g2 + g3 + g4 + t)
            == ApplyAll(ApplyAll(ApplyAll(ApplyAll(ApplyAll(ApplyAll(m, p), g1), g2), g3), g4), t)
  {
    Chain(m, p, g1);
    Chain(m, p + g1, g2);
    Chain(m, p + g1 + g2, g3);
    Chain(m, p + g1 + g2 + g3, g4);
    Chain(m, p + g1 + g2 + g3 + g4, t);
  }

  lemma TokensStop(m: MapState, k: FileKeys)
    ensures AllEncodable(TokenRecords(k)) && ApplyAll(m, TokenRecords(k)) == m
  {
  }

  /** The meaning of everything written, over every map. */
  lemma RecordsRestore(m: MapState)
    requires Writable(m)
    ensures AllEncodable(Records(m)) && ApplyAll(EMPTY, Records(m)) == Restored(m)
  {
    PeersRestore(m);
    var m0 := ApplyAll(EMPTY, PeerRecords(m));
    GroupsRestore(m0, m.keys);
    TokensStop(m0.(keys := Kept(m.keys)), m.keys);
    ChainAll(EMPTY, PeerRecords(m), Group1(m.keys), Group2(m.keys), Group3(m.keys), Group4(m.keys),
        TokenRecords(m.keys));
  }

  /** Reading back what was written: both draft tables and every key but four return. */
  lemma MapRoundTrip(m: MapState)
    requires Writable(m)
    ensures AllEncodable(Records(m))
    ensures ReadRecords(Cursor(EncodeAll(Records(m)), true), EMPTY) == Ok(Restored(m))
  {
    RecordsRestore(m);
    ReadRecordsWritten(Records(m), EMPTY);
  }

  lemma AllNotRead(drafts: Dict<FileKey>, notRead: Dict<bool>)
    ensures notRead == MarkNotRead(drafts)
            <==> |notRead| == |drafts| && forall i :: 0 <= i < |drafts| ==> notRead[i] == (drafts[i].0, true)
  {
  }

  /** When nothing at all is lost. */
  lemma MapRoundTripExact(m: MapState)
    requires Writable(m)
    ensures AllEncodable(Records(m))
    ensures ReadRecords(Cursor(EncodeAll(Records(m)), true), EMPTY) == Ok(m)
            <==> m.keys.webviewBots == m.keys.webviewOther == m.keys.backgroundDay == m.keys.backgroundNight == 0
                 && |m.notRead| == |m.drafts|
                 && forall i :: 0 <= i < |m.drafts| ==> m.notRead[i] == (m.drafts[i].0, true)
  {
    hide Records, EncodeAll, ReadRecords, MarkNotRead, Writable, AllEncodable;
    MapRoundTrip(m);
    AllNotRead(m.drafts, m.notRead);
  }

  // ---------- Size ----------

  function KeySize(key: FileKey): nat { if key != 0 then 4 + 8 else 0 }

  function StickersSize(k: FileKeys): nat { if HasStickers(k) then 4 + 4 * 8 else 0 }

  function MasksSize(k: FileKeys): nat { if HasMasks(k) then 4 + 3 * 8 else 0 }

  function EmojiSize(k: FileKeys): nat { if HasEmoji(k) then 4 + 3 * 8 else 0 }

  function TokensSize(k: FileKeys): nat { if HasTokens(k) then 4 + 2 * 8 else 0 }

  function DictSize(d: Dict<FileKey>): nat { if d == [] then 0 else 4 * 2 + |d| * 8 * 2 }

  function Group1Size(k: FileKeys): nat { KeySize(k.locations) + KeySize(k.trustedBots) + KeySize(k.recentStickersOld) }

  function Group2Size(k: FileKeys): nat { StickersSize(k) + KeySize(k.favedStickers) + KeySize(k.savedGifs) }

  function Group3Size(k: FileKeys): nat { KeySize(k.settings) + KeySize(k.recentHashtags) + KeySize(k.exportSettings) }

  function Group4Size(k: FileKeys): nat { MasksSize(k) + EmojiSize(k) + KeySize(k.searchSuggestions) }

  /** The size announced before anything is written. */
  function MapSize(m: MapState): nat {
    var k := m.keys;
    DictSize(m.drafts) + DictSize(m.cursors)
    + Group1Size(k) + Group2Size(k) + Group3Size(k) + Group4Size(k) + TokensSize(k)
  }

  lemma {:induction false} ValuesSize(values: seq<FileKey>)
    ensures |EncodeValues(values)| == 8 * |values|
  {
    if values != [] {
      ValuesSize(values[1..]);
    }
  }

  lemma {:induction false} EntriesSize(entries: Dict<FileKey>)
    requires forall i :: 0 <= i < |entries| ==> !Reserved(entries[i].0)
    ensures |EncodeEntries(entries)| == 16 * |entries|
  {
    if entries != [] {
      EntriesSize(entries[1..]);
    }
  }

  function RecordSize(r: Record): nat {
    match r
    case Peers(_, entries) => 4 * 2 + |entries| * 8 * 2
    case Keys(_, values) => 4 + |values| * 8
    case SelfArray(_, array_) => 4 * 2 + |array_.Contents()|
    case LegacyTable(_, rows) => 4 * 2 + |rows| * (3 * 8 + 4)
    case Unknown(_) => 4
  }

  lemma {:induction false} RowsSize(rows: seq<LegacyRow>)
    ensures |EncodeRows(rows)| == |rows| * (3 * 8 + 4)
  {
    if rows != [] {
      RowsSize(rows[1..]);
    }
  }

  lemma EncodedSize(r: Record)
    requires Encodable(r)
    ensures |Encode(r)| == RecordSize(r)
  {
    match r
    case Keys(_, values) => ValuesSize(values);
    case Peers(_, entries) => EntriesSize(entries);
    case LegacyTable(_, rows) => RowsSize(rows);
    case _ =>
  }

  lemma AppendOptSize(a: seq<Record>, cond: bool, r: Record)
    requires AllEncodable(a) && Encodable(r)
    ensures AllEncodable(a + Opt(cond, r))
    ensures |EncodeAll(a + Opt(cond, r))| == |EncodeAll(a)| + if cond then RecordSize(r) else 0
  {
    if cond {
      EncodedSize(r);
      EncodeAllConcat(a, [r]);
      assert EncodeAll([r]) == Encode(r) + EncodeAll([r][1..]);
    } else {
      assert a + [] == a;
    }
  }

  lemma ThreeSize(c1: bool, r1: Record, c2: bool, r2: Record, c3: bool, r3: Record)
    requires PlainRecord(r1) && PlainRecord(r2) && PlainRecord(r3)
    ensures var rs := Opt(c1, r1) + Opt(c2, r2) + Opt(c3, r3);
            && AllEncodable(rs)
            && |EncodeAll(rs)| == (if c1 then RecordSize(r1) else 0) + (if c2 then RecordSize(r2) else 0)
                                  + (if c3 then RecordSize(r3) else 0)
  {
    AppendOptSize([], c1, r1);
    assert [] + Opt(c1, r1) == Opt(c1, r1);
    AppendOptSize(Opt(c1, r1), c2, r2);
    AppendOptSize(Opt(c1, r1) + Opt(c2, r2), c3, r3);
  }

  lemma Group1Writes(k: FileKeys)
    ensures AllEncodable(Group1(k))
    ensures |EncodeAll(Group1(k))| == Group1Size(k)
  {
    ThreeSize(k.locations != 0, Keys(LOCATIONS, [k.locations]), k.trustedBots != 0, Keys(TRUSTED_BOTS, [k.trustedBots]),
              k.recentStickersOld != 0, Keys(RECENT_STICKERS_OLD, [k.recentStickersOld]));
  }

  lemma Group2Writes(k: FileKeys)
    ensures AllEncodable(Group2(k))
    ensures |EncodeAll(Group2(k))| == Group2Size(k)
  {
    ThreeSize(HasStickers(k), StickersRecord(k), k.favedStickers != 0, Keys(FAVED_STICKERS, [k.favedStickers]),
              k.savedGifs != 0, Keys(SAVED_GIFS, [k.savedGifs]));
  }

  lemma Group3Writes(k: FileKeys)
    ensures AllEncodable(Group3(k))
    ensures |EncodeAll(Group3(k))| == Group3Size(k)
  {
    ThreeSize(k.settings != 0, Keys(USER_SETTINGS, [k.settings]), k.recentHashtags != 0,
        Keys(RECENT_HASHTAGS, [k.recentHashtags]),
              k.exportSettings != 0, Keys(EXPORT_SETTINGS, [k.exportSettings]));
  }

  lemma Group4Writes(k: FileKeys)
    ensures AllEncodable(Group4(k))
    ensures |EncodeAll(Group4(k))| == Group4Size(k)
  {
    ThreeSize(HasMasks(k), MasksRecord(k), HasEmoji(k), EmojiRecord(k),
              k.searchSuggestions != 0, Keys(SEARCH_SUGGESTIONS, [k.searchSuggestions]));
  }

  lemma PeersAndTokensSize(m: MapState)
    requires Writable(m)
    ensures AllEncodable(PeerRecords(m)) && AllEncodable(TokenRecords(m.keys))
    ensures |EncodeAll(PeerRecords(m))| == DictSize(m.drafts) + DictSize(m.cursors)
    ensures |EncodeAll(TokenRecords(m.keys))| == TokensSize(m.keys)
  {
    AppendOptSize([], m.drafts != [], Peers(DRAFT, m.drafts));
    assert [] + Opt(m.drafts != [], Peers(DRAFT, m.drafts)) == Opt(m.drafts != [], Peers(DRAFT, m.drafts));
    AppendOptSize(Opt(m.drafts != [], Peers(DRAFT, m.drafts)), m.cursors != [], Peers(DRAFT_POSITION, m.cursors));
    AppendOptSize([], HasTokens(m.keys), TokensRecord(m.keys));
    assert [] + TokenRecords(m.keys) == TokenRecords(m.keys);
  }

  lemma EncodeSix(p: seq<Record>, g1: seq<Record>, g2: seq<Record>, g3: seq<Record>, g4: seq<Record>, t: seq<Record>)
    requires AllEncodable(p) && AllEncodable(g1) && AllEncodable(g2) && AllEncodable(g3) && AllEncodable(g4)
            && AllEncodable(t)
    ensures AllEncodable(p + g1 + g2 + g3 + g4 + t)
    ensures EncodeAll(p + g1 + g2 + g3 + g4 + t)
            == EncodeAll(p) + EncodeAll(g1) + EncodeAll(g2) + EncodeAll(g3) + EncodeAll(g4) + EncodeAll(t)
  {
    EncodeAllConcat(p, g1);
    EncodeAllConcat(p + g1, g2);
    EncodeAllConcat(p + g1 + g2, g3);
    EncodeAllConcat(p + g1 + g2 + g3, g4);
    EncodeAllConcat(p + g1 + g2 + g3 + g4, t);
  }

  function RecordBytes(m: MapState): Data
    requires Writable(m)
  {
    RecordsRestore(m);
    EncodeAll(Records(m))
  }

  /** The announced size is exactly what gets written, over every map. */
  lemma MapSizeIsExact(m: MapState)
    requires Writable(m)
    ensures |RecordBytes(m)| == MapSize(m)
  {
    var k := m.keys;
    PeersAndTokensSize(m);
    Group1Writes(k);
    Group2Writes(k);
    Group3Writes(k);
    Group4Writes(k);
    EncodeSix(PeerRecords(m), Group1(k), Group2(k), Group3(k), Group4(k), TokenRecords(k));
  }
}
