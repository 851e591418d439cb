/** The stored formats, byte by byte and field by field: what a reader other than this one would
    have to know. */
module Layout {
  import opened Bytes
  import opened DataStream
  import opened Storage
  import opened LocalEncryption
  import opened DataNames
  import opened Authorization
  import opened AccountMap
  import opened DesktopFiles

  // ---------- Words ----------

  /** Big-endian words on streams, little-endian ones in envelopes and frames. */
  lemma WordBytes(v: uint32)
    ensures var b, l := BE32(v), LE32(v);
            var b0: int, b1: int, b2: int, b3: int := b[0], b[1], b[2], b[3];
            && v == b3 + 0x100 * b2 + 0x1_0000 * b1 + 0x100_0000 * b0
            && l == [b[3], b[2], b[1], b[0]]
  {
    JoinSplit32(v);
  }

  lemma LongBytes(v: uint64)
    ensures BE64(v) == BE32(v / 0x1_0000_0000) + BE32(v % 0x1_0000_0000)
  {
  }

  /** Negative numbers are stored in two's complement. */
  lemma SignedWords(v: int32, w: int64)
    ensures Unsigned32(v) as int == if v < 0 then v + 0x1_0000_0000 else v
    ensures Unsigned64(w) as int == if w < 0 then w + 0x1_0000_0000_0000_0000 else w
  {
  }

  /** A byte array has its length in front; the null array has 0xFFFFFFFF and nothing else. */
  lemma ArrayBytes(bytes: Data)
    requires |bytes| < 0x8000_0000
    ensures Array(bytes).Encoded() == BE32(|bytes|) + bytes
    ensures Null.Encoded() == [0xFF, 0xFF, 0xFF, 0xFF]
  {
    assert Null.Encoded() == BE32(0xFFFF_FFFF) + [];
    assert BE32(0xFFFF_FFFF) == [0xFF, 0xFF, 0xFF, 0xFF];
  }

  /** A read that runs past the end: raw data are what is left, a word is 0, an array is empty,
      and the status says so from then on. */
  lemma ShortReads(rest: Data, ok: bool, n: nat, array_: Data)
    requires |array_| < 0x8000_0000
    ensures |rest| < n ==> ReadRaw(Cursor(rest, ok), n) == (rest, Cursor([], false))
    ensures |rest| < 4 ==> ReadU32(Cursor(rest, ok)) == (0, Cursor([], false))
    ensures |rest| < 4 ==> ReadI32(Cursor(rest, ok)) == (0, Cursor([], false))
    ensures |rest| < 8 ==> ReadU64(Cursor(rest, ok)) == (0, Cursor([], false))
    ensures |rest| < |array_| ==> ReadArray(Cursor(BE32(|array_|) + rest, ok)) == ([], Cursor([], false))
    ensures !ReadRaw(Cursor(rest, false), n).1.ok
  {
    ReadU32Written(|array_|, rest, ok);
  }

  // ---------- Names ----------

  /** The first account keeps the data name, the others get their number counted from one;
      the file name has the nibbles of the name's key, the least significant first. */
  lemma Names(dataName: string, val: nat)
    ensures ComposeDataString(dataName, 0) == dataName
    ensures ComposeDataString(dataName, 1) == dataName + "#2"
    ensures ComposeDataString(dataName, 2) == dataName + "#3"
    ensures |ToFilePart(val)| == 16
    ensures forall i: nat :: i < 16 ==> ToFilePart(val)[i] == "0123456789ABCDEF"[val / Pow16(i) % 16]
  {
    forall i: nat | i < 16 ensures ToFilePart(val)[i] == "0123456789ABCDEF"[val / Pow16(i) % 16] {
      NibbleAt(val, 16, i);
    }
  }

  lemma {:induction false} NibbleAt(val: nat, n: nat, i: nat)
    requires i < n
    ensures Nibbles(val, n)[i] == "0123456789ABCDEF"[val / Pow16(i) % 16]
    decreases n
  {
    if i == 0 {
      Digit(val % 16);
    } else {
      NibbleAt(val / 16, n - 1, i - 1);
      DivideTwice(val, Pow16(i - 1));
    }
  }

  lemma Digit(v: nat)
    requires v < 16
    ensures HexDigit(v) == "0123456789ABCDEF"[v]
  {
  }

  lemma DivideTwice(val: nat, p: nat)
    requires p > 0
    ensures val / 16 / p == val / (16 * p)
  {
    var q, r := val / 16, val % 16;
    var t, u := q / p, q % p;
    assert val == 16 * q + r && q == p * t + u;
    assert 16 * (p * t + u) == (16 * p) * t + 16 * u;
    QuotientUnique(val, 16 * p, t, 16 * u + r);
  }

  lemma QuotientUnique(a: nat, m: nat, t: nat, r: nat)
    requires a == m * t + r && r < m
    ensures a / m == t
  {
    RemainderUnique(a, m, t, r);
    assert a == m * (a / m) + a % m;
    assert m * (a / m) == m * t;
    SameFactor(m, a / m, t);
  }

  lemma SameFactor(m: nat, a: nat, b: nat)
    requires m > 0 && m * a == m * b
    ensures a == b
  {
    if a < b {
      assert m * b == m * a + m * (b - a);
      MultipleAtLeast(m, b - a);
    } else if b < a {
      assert m * a == m * b + m * (a - b);
      MultipleAtLeast(m, a - b);
    }
  }

  /** The directory and file name of the first account under the default key file, where the
      key of "data" is its MD5 digest as a little-endian number. */
  lemma DefaultName()
    ensures ToFilePart(0xDC26_6049_F720_5D81_C8FE_3D5D_387F_778D) == "D877F783D5D3EF8C"
  {
    hide ToFilePart;
    LowNibbles();
    ToFilePartInjective(0xDC26_6049_F720_5D81_C8FE_3D5D_387F_778D, 0xC8FE_3D5D_387F_778D);
  }

  lemma OneMoreNibble(v: nat, n: nat, digit: char, more: string, all: string)
    requires Nibbles(v / 16, n) == more && "0123456789ABCDEF"[v % 16] == digit && all == [digit] + more
    ensures Nibbles(v, n + 1) == all
  {
    Digit(v % 16);
  }

  lemma LowNibbles()
    ensures ToFilePart(0xC8FE_3D5D_387F_778D) == "D877F783D5D3EF8C"
  {
    hide Nibbles;
    Nibbles12();
    FourMore(0xC8FE_3D5D_387F, 12, 0x778D, "D877", "F783D5D3EF8C");
    assert "D877" + "F783D5D3EF8C" == "D877F783D5D3EF8C";
  }

  lemma Nibbles12()
    ensures Nibbles(0xC8FE_3D5D_387F, 12) == "F783D5D3EF8C"
  {
    hide Nibbles;
    NoNibbles(0);
    FourMore(0, 0, 0xC8FE, "EF8C", "");
    FourMore(0xC8FE, 4, 0x3D5D, "D5D3", "EF8C");
    FourMore(0xC8FE_3D5D, 8, 0x387F, "F783", "D5D3EF8C");
    assert "EF8C" + "" == "EF8C" && "D5D3" + "EF8C" == "D5D3EF8C" && "F783" + "D5D3EF8C" == "F783D5D3EF8C";
  }

  lemma FourMore(v: nat, n: nat, low: nat, digits: string, more: string)
    requires low < 0x1_0000 && Nibbles(v, n) == more && |digits| == 4
    requires digits[0] == "0123456789ABCDEF"[low % 16] && digits[1] == "0123456789ABCDEF"[low / 16 % 16]
    requires digits[2] == "0123456789ABCDEF"[low / 256 % 16] && digits[3] == "0123456789ABCDEF"[low / 4096]
    ensures Nibbles(v * 0x1_0000 + low, n + 4) == digits + more
  {
    hide Nibbles;
    Shifted(v, low);
    assert digits[3..] == [digits[3]] && digits[2..] == [digits[2]] + digits[3..];
    assert digits[1..] == [digits[1]] + digits[2..] && digits == [digits[0]] + digits[1..];
    OneMoreNibble(v * 16 + low / 4096, n, digits[3], more, digits[3..] + more);
    OneMoreNibble(v * 256 + low / 256, n + 1, digits[2], digits[3..] + more, digits[2..] + more);
    OneMoreNibble(v * 4096 + low / 16, n + 2, digits[1], digits[2..] + more, digits[1..] + more);
    OneMoreNibble(v * 0x1_0000 + low, n + 3, digits[0], digits[1..] + more, digits + more);
  }

  lemma Shifted(v: nat, low: nat)
    requires low < 0x1_0000
    ensures (v * 16 + low / 4096) / 16 == v && (v * 16 + low / 4096) % 16 == low / 4096
    ensures (v * 256 + low / 256) / 16 == v * 16 + low / 4096 && (v * 256 + low / 256) % 16 == low / 256 % 16
    ensures (v * 4096 + low / 16) / 16 == v * 256 + low / 256 && (v * 4096 + low / 16) % 16 == low / 16 % 16
    ensures (v * 0x1_0000 + low) / 16 == v * 4096 + low / 16 && (v * 0x1_0000 + low) % 16 == low % 16
  {
  }

  lemma NoNibbles(v: nat)
    ensures Nibbles(v, 0) == ""
  {
  }

  // ---------- Sealed records ----------

  /** Little-endian length of the length word and the payload, payload, padding; encrypted under
      the first 16 bytes of their hash, which come first. */
  lemma FrameBytes(c: Crypto, payload: Data, key: Data, fill: Data)
    requires c.Lawful() && |payload| + 4 < 0x7FFF_FFE0
    ensures var plain := LE32(4 + |payload|) + payload + fill;
            var messageKey := c.sha1(plain)[..16];
            Frame(c, payload, key, fill) == messageKey + c.encrypt(key, messageKey, plain)
  {
  }

  /** The wide tag, user id, main data center, and two lists of a data center and 256 bytes. */
  lemma AuthorizationBytes(a: MtpAuthorization, k: AuthKey, more: seq<AuthKey>)
    requires Serializable64(a) && |more| < 0x7FFF_FFFF
    ensures Serialize(a) == [0xFF, 0xFF, 0xFF, 0xFF, 0xFF, 0xFF, 0xFF, 0xFF] + BE64(Unsigned64(a.userId))
                            + BE32(Unsigned32(a.mainDcId)) + KeysRecord(a.keys) + KeysRecord(a.keysToDestroy)
    ensures KeysRecord(more) == BE32(|more|) + EncodeKeys(more)
    ensures EncodeKeys([]) == [] && EncodeKeys([k] + more) == BE32(Unsigned32(k.dcId)) + k.key + EncodeKeys(more)
  {
    WideTag();
    hide BE32, BE64;
    assert ([k] + more)[1..] == more;
  }

  lemma WideTag()
    ensures BE64(Unsigned64(-1)) == [0xFF, 0xFF, 0xFF, 0xFF, 0xFF, 0xFF, 0xFF, 0xFF]
  {
    assert BE32(0xFFFF_FFFF) == [0xFF, 0xFF, 0xFF, 0xFF];
    assert BE64(Unsigned64(-1)) == BE32(0xFFFF_FFFF) + BE32(0xFFFF_FFFF);
  }

  /** `dbiMtpAuthorization` and the record as a byte array. */
  lemma MtpBytes(auth: MtpAuthorization)
    requires Serializable64(auth) && Array(Serialize(auth)).Fits()
    ensures MtpPayload(auth) == [0, 0, 0, 0x4B] + Array(Serialize(auth)).Encoded()
  {
    assert BE32(0x4B) == [0, 0, 0, 0x4B];
  }

  /** The number of accounts, their indices, and the active index. */
  lemma InfoBytes(d: Desktop, i: int32, more: seq<int32>)
    requires AllStorable(d.accounts) && |d.accounts| <= MAX_ACCOUNTS
    ensures KeyInfo(d) == BE32(|d.accounts|) + EncodeInts(Indices(d.accounts)) + BE32(Unsigned32(d.activeIndex))
    ensures EncodeInts([]) == [] && EncodeInts([i] + more) == BE32(Unsigned32(i)) + EncodeInts(more)
  {
    assert ([i] + more)[1..] == more;
  }

  // ---------- Files ----------

  /** A file of version 3004000 with this stream. */
  ghost predicate HasFile(c: Crypto, files: Files, path: Path, stream: Data) {
    path in files && Sealed(c, files[path], 3004000, stream)
  }

  /** A byte array that holds a frame of the payload. */
  ghost predicate HoldsFrame(c: Crypto, array_: Data, payload: Data, key: Data)
    requires c.Lawful()
  {
    && |payload| + 4 < 0x7FFF_FFE0
    && exists fill :: |fill| == PadLength(4 + |payload|) && array_ == Array(Frame(c, payload, key, fill)).Encoded()
  }

  lemma EnvelopeIsSealed(c: Crypto, version: uint32, data: Data)
    requires |data| < U32
    ensures Sealed(c, Envelope(c, version, data), version, data)
  {
  }

  lemma SealedHolds(c: Crypto, payload: Data, key: Data, path: Path, g: Garbage)
    requires c.Lawful() && Filling(g) && Framable(payload)
    ensures HoldsFrame(c, SealedArray(c, payload, key, path, g).Encoded(), payload, key)
  {
    var fill := g(path, PadLength(4 + |payload|));
    assert SealedArray(c, payload, key, path, g).Encoded() == Array(Frame(c, payload, key, fill)).Encoded();
  }

  /** The key file of a saved desktop: salt, sealed local key, sealed account list. */
  lemma KeyFileLayout(c: Crypto, files: Files, base: Path, keyFile: string, d: Desktop, g: Garbage)
    returns (sealed: Data)
    requires c.Lawful() && Filling(g) && Savable(d)
    ensures HoldsFrame(c, sealed, KeyInfo(d), d.localKey)
    ensures HasFile(c, Save(c, files, base, keyFile, d, g), base + ["key_" + keyFile + "s"],
                    BE32(|d.salt|) + d.salt + (BE32(|d.keyEncrypted|) + d.keyEncrypted) + sealed)
  {
    hide Storable, KeyInfo, Frame, WriteAccounts, SealedArray, Sealed, Envelope, HoldsFrame;
    KeyInfoSize(d);
    var path := KeyPath(base, keyFile);
    SealedHolds(c, KeyInfo(d), d.localKey, path, g);
    sealed := SealedArray(c, KeyInfo(d), d.localKey, path, g).Encoded();
    ArrayBytes(d.salt);
    ArrayBytes(d.keyEncrypted);
    var stream := KeyStream(c, d.salt, d.keyEncrypted, KeyInfo(d), d.localKey, path, g);
    KeySize(c, d.salt, d.keyEncrypted, KeyInfo(d), d.localKey, path, g);
    EnvelopeIsSealed(c, APP_VERSION, stream);
  }

  lemma KeySize(c: Crypto, salt: Data, keyEncrypted: Data, info: Data, localKey: Data, path: Path, g: Garbage)
    requires c.Lawful() && Filling(g) && Framable(info) && |salt| + |keyEncrypted| < 0x7000_0000
    ensures |KeyStream(c, salt, keyEncrypted, info, localKey, path, g)| < U32
  {
  }

  /** The two files of an account of a saved desktop. The directory of the one and the name of
      the other come from the account's data name. The map file starts with two null arrays. */
  lemma AccountFilesLayout(c: Crypto, files: Files, base: Path, keyFile: string, d: Desktop, g: Garbage, i: nat)
    returns (map_: Data, mtp: Data)
    requires c.Lawful() && Filling(g) && Savable(d) && Apart(c, keyFile, ToBlobs(d.accounts)) && i < |d.accounts|
    ensures Storable(d.accounts[i])
    ensures HoldsFrame(c, map_, RecordBytes(d.accounts[i].map_), d.localKey)
            && HoldsFrame(c, mtp, MtpPayload(d.accounts[i].auth), d.localKey)
    ensures var saved := Save(c, files, base, keyFile, d, g);
            var part := ToFilePart(c.nameKey(ComposeDataString(keyFile, d.accounts[i].index)));
            && HasFile(c, saved, base + [part] + ["maps"],
                       [0xFF, 0xFF, 0xFF, 0xFF] + [0xFF, 0xFF, 0xFF, 0xFF] + map_)
            && HasFile(c, saved, base + [part + "s"], mtp)
  {
    assert Storable(d.accounts[i]);
    hide Storable, Frame, Apart, SealedArray, Sealed, Envelope, HoldsFrame, Save, SaveUnder, ComposeDataString,
      ToFilePart, HasFile, HasAccount, Crypto.Lawful, Filling;
    SavedFiles(c, files, base, keyFile, d, d.localKey, g);
    SaveIsSaveUnder(c, files, base, keyFile, d, g);
    var saved := Save(c, files, base, keyFile, d, g);
    map_, mtp := BlobLayout(c, saved, base, keyFile, ToBlob(d.accounts[i]), d.localKey, g);
  }

  lemma SaveIsSaveUnder(c: Crypto, files: Files, base: Path, keyFile: string, d: Desktop, g: Garbage)
    requires c.Lawful() && Filling(g) && Savable(d)
    ensures Save(c, files, base, keyFile, d, g) == SaveUnder(c, files, base, keyFile, d, d.localKey, g)
  {
    hide SaveUnder;
  }

  lemma BlobLayout(c: Crypto, files: Files, base: Path, keyFile: string, b: Blob, key: Data, g: Garbage)
    returns (map_: Data, mtp: Data)
    requires c.Lawful() && Filling(g) && BlobOk(b) && HasAccount(c, files, base, keyFile, b, key, g)
    ensures HoldsFrame(c, map_, b.mapRecords, key) && HoldsFrame(c, mtp, b.mtpRecord, key)
    ensures var part := ToFilePart(c.nameKey(ComposeDataString(keyFile, b.index)));
            && HasFile(c, files, base + [part] + ["maps"],
                       [0xFF, 0xFF, 0xFF, 0xFF] + [0xFF, 0xFF, 0xFF, 0xFF] + map_)
            && HasFile(c, files, base + [part + "s"], mtp)
  {
    hide Frame, SealedArray, Sealed, Envelope, HoldsFrame, ComposeDataString, ToFilePart, Crypto.Lawful, Filling,
      QByteArray.Encoded;
    var mapPath, mtpPath := MapPath(c, base, keyFile, b.index), MtpPath(c, base, keyFile, b.index);
    SealedHolds(c, b.mapRecords, key, mapPath, g);
    SealedHolds(c, b.mtpRecord, key, mtpPath, g);
    map_ := SealedArray(c, b.mapRecords, key, mapPath, g).Encoded();
    mtp := SealedArray(c, b.mtpRecord, key, mtpPath, g).Encoded();
    ArrayBytes([]);
    assert "map" + "s" == "maps";
    StreamSizes(c, b, key, mapPath, mtpPath, g);
    EnvelopeIsSealed(c, APP_VERSION, MapStream(c, b.mapRecords, key, mapPath, g));
    EnvelopeIsSealed(c, APP_VERSION, mtp);
  }

  lemma StreamSizes(c: Crypto, b: Blob, key: Data, mapPath: Path, mtpPath: Path, g: Garbage)
    requires c.Lawful() && Filling(g) && BlobOk(b)
    ensures |MapStream(c, b.mapRecords, key, mapPath, g)| < U32
    ensures |SealedArray(c, b.mtpRecord, key, mtpPath, g).Encoded()| < U32
  {
  }
}
