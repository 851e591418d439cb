/** What a saved desktop looks like on disk, what a reader makes of such files, and the
    proof that the second undoes the first. */
module DesktopFiles {
  import opened Bytes
  import opened DataStream
  import opened Storage
  import opened LocalEncryption
  import opened DataNames
  import opened Authorization
  import opened MapRecords
  import opened AccountMap

  const MTP_AUTHORIZATION: int32 := 0x4B
  const MAX_ACCOUNTS := 3

  datatype AccountValue = AccountValue(index: int, auth: MtpAuthorization, map_: MapState)

  datatype Desktop = Desktop(accounts: seq<AccountValue>, activeIndex: int32, localKey: Data, salt: Data,
      keyEncrypted: Data)

  /** Padding bytes found in grown buffers: anything, of the length asked for. */
  type Garbage = (Path, nat) -> Data

  ghost predicate Filling(g: Garbage) { forall p, n :: |g(p, n)| == n }

  // ---------- Saving ----------

  function SealedArray(c: Crypto, payload: Data, key: Data, path: Path, g: Garbage): (r: QByteArray)
    requires c.Lawful() && Filling(g) && Framable(payload)
    ensures r.Fits()
  {
    Array(Frame(c, payload, key, g(path, PadLength(4 + |payload|))))
  }

  function AccountDir(c: Crypto, base: Path, keyFile: string, index: int): Path
    requires 0 <= index < MAX_ACCOUNTS
  {
    base + [AccountFilePart(c, keyFile, index)]
  }

  function MapPath(c: Crypto, base: Path, keyFile: string, index: int): Path
    requires 0 <= index < MAX_ACCOUNTS
  {
    AccountDir(c, base, keyFile, index) + ["map" + "s"]
  }

  function MtpPath(c: Crypto, base: Path, keyFile: string, index: int): Path
    requires 0 <= index < MAX_ACCOUNTS
  {
    base + [AccountFilePart(c, keyFile, index) + "s"]
  }

  function KeyPath(base: Path, keyFile: string): Path { base + ["key_" + keyFile + "s"] }

  function MtpPayload(auth: MtpAuthorization): Data
    requires Serializable64(auth) && Array(Serialize(auth)).Fits()
  {
    BE32(Unsigned32(MTP_AUTHORIZATION)) + Array(Serialize(auth)).Encoded()
  }

  predicate Serializable64(auth: MtpAuthorization) {
    && -0x8000_0000_0000_0000 <= auth.userId < 0x8000_0000_0000_0000
    && WellFormedKeys(auth.keys) && WellFormedKeys(auth.keysToDestroy)
  }

  /** What Qt's 31-bit sizes, the stream and an account that finished loading allow. */
  predicate Storable(a: AccountValue) {
    && 0 <= a.index < MAX_ACCOUNTS
    && Serializable64(a.auth) && Array(Serialize(a.auth)).Fits() && Framable(MtpPayload(a.auth))
    && MainKey(a.auth.keys, a.auth.mainDcId).Some?
    && Writable(a.map_) && MapSize(a.map_) > 0 && Framable(RecordBytes(a.map_))
  }

  /** The two records of an account, ready to be sealed. */
  datatype Blob = Blob(index: int, mapRecords: Data, mtpRecord: Data)

  predicate BlobOk(b: Blob) { 0 <= b.index < MAX_ACCOUNTS && Framable(b.mapRecords) && Framable(b.mtpRecord) }

  function ToBlob(a: AccountValue): (b: Blob)
    requires Storable(a)
    ensures BlobOk(b) && b.index == a.index
  {
    Blob(a.index, RecordBytes(a.map_), MtpPayload(a.auth))
  }

  function MapStream(c: Crypto, records: Data, key: Data, path: Path, g: Garbage): Data
    requires c.Lawful() && Filling(g) && Framable(records)
  {
    Null.Encoded() + Null.Encoded() + SealedArray(c, records, key, path, g).Encoded()
  }

  function MapFile(c: Crypto, records: Data, key: Data, path: Path, g: Garbage): Data
    requires c.Lawful() && Filling(g) && Framable(records)
  {
    Envelope(c, APP_VERSION, MapStream(c, records, key, path, g))
  }

  function MtpFile(c: Crypto, record: Data, key: Data, path: Path, g: Garbage): Data
    requires c.Lawful() && Filling(g) && Framable(record)
  {
    Envelope(c, APP_VERSION, SealedArray(c, record, key, path, g).Encoded())
  }

  /** `Account._writeData` with the default key file: the map, then the MTP data. */
  function WriteAccount(c: Crypto, files: Files, base: Path, keyFile: string, b: Blob, key: Data, g: Garbage): Files
    requires c.Lawful() && Filling(g) && BlobOk(b)
  {
    var mapPath, mtpPath := MapPath(c, base, keyFile, b.index), MtpPath(c, base, keyFile, b.index);
    files[mapPath := MapFile(c, b.mapRecords, key, mapPath, g)][mtpPath := MtpFile(c, b.mtpRecord, key, mtpPath, g)]
  }

  predicate AllStorable(accounts: seq<AccountValue>) { forall i :: 0 <= i < |accounts| ==> Storable(accounts[i]) }

  predicate BlobsOk(blobs: seq<Blob>) { forall i :: 0 <= i < |blobs| ==> BlobOk(blobs[i]) }

  function ToBlobs(accounts: seq<AccountValue>): (blobs: seq<Blob>)
    requires AllStorable(accounts)
    ensures |blobs| == |accounts| && BlobsOk(blobs)
    ensures forall i :: 0 <= i < |accounts| ==> blobs[i] == ToBlob(accounts[i])
  {
    seq(|accounts|, i requires 0 <= i < |accounts| => ToBlob(accounts[i]))
  }

  function WriteAccounts(c: Crypto, files: Files, base: Path, keyFile: string, blobs: seq<Blob>, key: Data,
      g: Garbage): Files
    requires c.Lawful() && Filling(g) && BlobsOk(blobs)
  {
    if blobs == [] then files
    else
      var n := |blobs| - 1;
      WriteAccount(c, WriteAccounts(c, files, base, keyFile, blobs[..n], key, g), base, keyFile, blobs[n], key, g)
  }

  function Indices(accounts: seq<AccountValue>): (r: seq<int32>)
    requires AllStorable(accounts)
    ensures |r| == |accounts| && forall i :: 0 <= i < |r| ==> r[i] == accounts[i].index
  {
    seq(|accounts|, i requires 0 <= i < |accounts| => accounts[i].index)
  }

  function EncodeInts(ints: seq<int32>): Data {
    if ints == [] then [] else BE32(Unsigned32(ints[0])) + EncodeInts(ints[1..])
  }

  /** Account count, account indices, active index. */
  function KeyInfo(d: Desktop): Data
    requires AllStorable(d.accounts) && |d.accounts| <= MAX_ACCOUNTS
  {
    BE32(Unsigned32(|d.accounts|)) + EncodeInts(Indices(d.accounts)) + BE32(Unsigned32(d.activeIndex))
  }

  predicate Savable(d: Desktop) {
    && 1 <= |d.accounts| <= MAX_ACCOUNTS && AllStorable(d.accounts)
    && |d.salt| + |d.keyEncrypted| < 0x7000_0000
  }

  lemma {:induction false} IntsSize(ints: seq<int32>)
    ensures |EncodeInts(ints)| == 4 * |ints|
  {
    if ints != [] {
      IntsSize(ints[1..]);
    }
  }

  lemma KeyInfoSize(d: Desktop)
    requires Savable(d)
    ensures Framable(KeyInfo(d))
  {
    IntsSize(Indices(d.accounts));
  }

  function KeyStream(c: Crypto, salt: Data, keyEncrypted: Data, info: Data, localKey: Data, path: Path,
      g: Garbage): (s: Data)
    requires c.Lawful() && Filling(g) && Framable(info) && Array(salt).Fits() && Array(keyEncrypted).Fits()
  {
    Array(salt).Encoded() + Array(keyEncrypted).Encoded() + SealedArray(c, info, localKey, path, g).Encoded()
  }

  /** `__writeAccounts`: every account under the key that the account has, then the key file. */
  function SaveUnder(c: Crypto, files: Files, base: Path, keyFile: string, d: Desktop, accountKey: Data,
      g: Garbage): Files
    requires c.Lawful() && Filling(g) && Savable(d)
  {
    var path := KeyPath(base, keyFile);
    KeyInfoSize(d);
    WriteAccounts(c, files, base, keyFile, ToBlobs(d.accounts), accountKey, g)
      [path := Envelope(c, APP_VERSION, KeyStream(c, d.salt, d.keyEncrypted, KeyInfo(d), d.localKey, path, g))]
  }

  /** The files of a desktop whose accounts have its local key. */
  function Save(c: Crypto, files: Files, base: Path, keyFile: string, d: Desktop, g: Garbage): Files
    requires c.Lawful() && Filling(g) && Savable(d)
  {
    SaveUnder(c, files, base, keyFile, d, d.localKey, g)
  }

  // ---------- Loading ----------

  function ReadMtp(c: Crypto, files: Files, base: Path, part: string, key: Data): Result<MtpAuthorization>
    requires c.Lawful()
  {
    match ReadEncrypted(c, files, base, part, key)
    case Err(e) => Err(e)
    case Ok(cur) =>
      var (blockId, c1) := ReadI32(cur);
      if blockId != MTP_AUTHORIZATION then Err(UnsupportedVersion)
      else
        match ParseAuthorization(ReadArray(c1).0)
        case Err(e) => Err(e)
        case Ok(a) => if MainKey(a.keys, a.mainDcId).None? then Err(AuthKeyNotFound) else Ok(a)
  }

  /** A fresh account started from the files; any error leaves it unloaded. */
  function LoadAccount(c: Crypto, files: Files, base: Path, keyFile: string, index: int,
      key: Data): Result<AccountValue>
    requires c.Lawful() && 0 <= index < MAX_ACCOUNTS
  {
    match ReadMap(c, files, AccountDir(c, base, keyFile, index), key)
    case Err(e) => Err(e)
    case Ok(m) =>
      match ReadMtp(c, files, base, AccountFilePart(c, keyFile, index), key)
      case Err(e) => Err(e)
      case Ok(auth) => Ok(AccountValue(index, auth, m))
  }

  /** What the account loop makes of one index; those out of range name no account. */
  function LoadIndex(c: Crypto, files: Files, base: Path, keyFile: string, index: int, key: Data): Result<AccountValue>
    requires c.Lawful()
  {
    if 0 <= index < MAX_ACCOUNTS then LoadAccount(c, files, base, keyFile, index, key) else Err(NoAccounts)
  }

  /** `LoadIndex` as a function of the index alone. */
  function Loader(c: Crypto, files: Files, base: Path, keyFile: string, key: Data): int -> Result<AccountValue>
    requires c.Lawful()
  {
    index => LoadIndex(c, files, base, keyFile, index, key)
  }

  /** The account loop: an account that fails to load is skipped, but an exception that is
      not the library's own ends the load. */
  function LoadAccounts(load: int -> Result<AccountValue>, cur: Cursor, n: nat): Result<(seq<AccountValue>, Cursor)>
    decreases n
  {
    if n == 0 then Ok(([], cur))
    else
      var (index, c1) := ReadI32(cur);
      if load(index) == Err(PythonError) then Err(PythonError)
      else
        match LoadAccounts(load, c1, n - 1)
        case Err(e) => Err(e)
        case Ok((more, c2)) => Ok((if load(index).Ok? then [load(index).value] + more else more, c2))
  }

  /** The account whose index is the active one, else the first. */
  function MainPosition(accounts: seq<AccountValue>, active: int): (k: nat)
    ensures accounts != [] ==> k < |accounts|
    ensures (exists i :: 0 <= i < |accounts| && accounts[i].index == active) ==>
      accounts[k].index == active && forall j :: 0 <= j < k ==> accounts[j].index != active
    ensures (forall i :: 0 <= i < |accounts| ==> accounts[i].index != active) ==> k == 0
  {
    FirstActive(accounts, active, 0)
  }

  function FirstActive(accounts: seq<AccountValue>, active: int, from: nat): (k: nat)
    requires from <= |accounts| && forall i :: 0 <= i < from ==> accounts[i].index != active
    ensures accounts != [] ==> k < |accounts|
    ensures (exists i :: 0 <= i < |accounts| && accounts[i].index == active) ==>
      accounts[k].index == active && forall j :: 0 <= j < k ==> accounts[j].index != active
    ensures (forall i :: 0 <= i < |accounts| ==> accounts[i].index != active) ==> k == 0
    decreases |accounts| - from
  {
    if from == |accounts| then 0
    else if accounts[from].index == active then from
    else FirstActive(accounts, active, from + 1)
  }

  function LoadInfo(c: Crypto, files: Files, base: Path, keyFile: string, info: Cursor, d: Desktop): Result<Desktop>
    requires c.Lawful()
  {
    var (count, c1) := ReadI32(info);
    if count <= 0 then Err(NoAccounts)
    else
      match LoadAccounts(Loader(c, files, base, keyFile, d.localKey), c1, count)
      case Err(e) => Err(e)
      case Ok((accounts, c2)) =>
        if accounts == [] then Err(NoAccounts)
        else Ok(d.(accounts := accounts, activeIndex := if c2.rest == [] then 0 else ReadI32(c2).0))
  }

  /** Salt, sealed local key and sealed account list from the key file. */
  function KeyArrays(c: Crypto, files: Files, base: Path, keyFile: string): Result<(Data, Data, Data)> {
    match ReadFile(c, files, base, "key_" + keyFile)
    case Err(e) => Err(e)
    case Ok(f) =>
      var (salt, c1) := ReadArray(Cursor(f.data, true));
      var (keyEncrypted, c2) := ReadArray(c1);
      var (infoEncrypted, c3) := ReadArray(c2);
      if c3.ok then Ok((salt, keyEncrypted, infoEncrypted)) else Err(StreamFailed)
  }

  /** `__loadFromTData`. */
  function Load(c: Crypto, files: Files, base: Path, keyFile: string, passcode: Data): Result<Desktop>
    requires c.Lawful()
  {
    match KeyArrays(c, files, base, keyFile)
    case Err(e) => Err(e)
    case Ok((salt, keyEncrypted, infoEncrypted)) =>
      match DecryptLocal(c, keyEncrypted, c.kdf(salt, passcode))
      case Err(e) => Err(e)
      case Ok(inner) =>
        var localKey := ReadRaw(inner, KEY_SIZE).0;
        match DecryptLocal(c, infoEncrypted, localKey)
        case Err(e) => Err(e)
        case Ok(info) => LoadInfo(c, files, base, keyFile, info, Desktop([], 0, localKey, salt, keyEncrypted))
  }

  // ---------- Loading what was saved ----------

  /** The stored local key opens under the passcode: what generating a local key, and
      loading one, both establish. */
  ghost predicate KeyOpens(c: Crypto, d: Desktop, passcode: Data)
    requires c.Lawful()
  {
    var inner := DecryptLocal(c, d.keyEncrypted, c.kdf(d.salt, passcode));
    inner.Ok? && ReadRaw(inner.value, KEY_SIZE).0 == d.localKey
  }

  /** The key file can be read, and its sealed local key decrypts under the passcode. */
  ghost predicate KeyReads(c: Crypto, files: Files, base: Path, keyFile: string, passcode: Data)
    requires c.Lawful()
  {
    var arrays := KeyArrays(c, files, base, keyFile);
    arrays.Ok? && DecryptLocal(c, arrays.value.1, c.kdf(arrays.value.0, passcode)).Ok?
  }

  /** Data names whose hashes keep the accounts apart. */
  ghost predicate Apart(c: Crypto, keyFile: string, blobs: seq<Blob>)
    requires BlobsOk(blobs)
  {
    forall i, j :: 0 <= i < j < |blobs| ==>
      c.nameKey(ComposeDataString(keyFile, blobs[i].index)) % U64
      != c.nameKey(ComposeDataString(keyFile, blobs[j].index)) % U64
  }

  lemma PathsApart(c: Crypto, base: Path, keyFile: string, i: int, j: int)
    requires 0 <= i < MAX_ACCOUNTS && 0 <= j < MAX_ACCOUNTS
    ensures MapPath(c, base, keyFile, i) != MtpPath(c, base, keyFile, j)
    ensures KeyPath(base, keyFile) != MapPath(c, base, keyFile, i)
            && KeyPath(base, keyFile) != MtpPath(c, base, keyFile, i)
    ensures AccountFilePart(c, keyFile, i) != AccountFilePart(c, keyFile, j) ==>
              MapPath(c, base, keyFile, i) != MapPath(c, base, keyFile, j)
                  && MtpPath(c, base, keyFile, i) != MtpPath(c, base, keyFile, j)
  {
    var n := |base|;
    var pi, pj := AccountFilePart(c, keyFile, i), AccountFilePart(c, keyFile, j);
    assert |MapPath(c, base, keyFile, i)| == n + 2 && |MtpPath(c, base, keyFile, j)| == n + 1;
    FilePartIsHex(c.nameKey(ComposeDataString(keyFile, i)));
    assert MapPath(c, base, keyFile, i)[n] == pi && MapPath(c, base, keyFile, j)[n] == pj;
    assert MtpPath(c, base, keyFile, i)[n] == pi + "s" && MtpPath(c, base, keyFile, j)[n] == pj + "s";
    assert (pi + "s")[..16] == pi && (pi + "s")[0] == pi[0];
    assert (pj + "s")[..|pj|] == pj;
    assert KeyPath(base, keyFile)[n] == "key_" + keyFile + "s";
    assert ("key_" + keyFile + "s")[0] == 'k';
  }

  /** The two files of one account, as its writer left them. */
  ghost predicate HasAccount(c: Crypto, files: Files, base: Path, keyFile: string, b: Blob, key: Data, g: Garbage)
    requires c.Lawful() && Filling(g) && BlobOk(b)
  {
    var mapPath, mtpPath := MapPath(c, base, keyFile, b.index), MtpPath(c, base, keyFile, b.index);
    && mapPath in files && files[mapPath] == MapFile(c, b.mapRecords, key, mapPath, g)
    && mtpPath in files && files[mtpPath] == MtpFile(c, b.mtpRecord, key, mtpPath, g)
  }

  lemma OtherAccountKept(c: Crypto, files: Files, base: Path, keyFile: string, b: Blob, other: Blob, key: Data,
      g: Garbage)
    requires c.Lawful() && Filling(g) && BlobOk(b) && BlobOk(other)
    requires AccountFilePart(c, keyFile, b.index) != AccountFilePart(c, keyFile, other.index)
    requires HasAccount(c, files, base, keyFile, b, key, g)
    ensures HasAccount(c, WriteAccount(c, files, base, keyFile, other, key, g), base, keyFile, b, key, g)
  {
    PathsApart(c, base, keyFile, b.index, other.index);
    PathsApart(c, base, keyFile, other.index, b.index);
  }

  lemma OwnFilesWritten(c: Crypto, files: Files, base: Path, keyFile: string, b: Blob, key: Data, g: Garbage)
    requires c.Lawful() && Filling(g) && BlobOk(b)
    ensures HasAccount(c, WriteAccount(c, files, base, keyFile, b, key, g), base, keyFile, b, key, g)
  {
    PathsApart(c, base, keyFile, b.index, b.index);
  }

  lemma PartsApart(c: Crypto, keyFile: string, blobs: seq<Blob>, i: nat, j: nat)
    requires BlobsOk(blobs) && Apart(c, keyFile, blobs) && i < j < |blobs|
    ensures BlobsOk(blobs[..j]) && Apart(c, keyFile, blobs[..j])
    ensures AccountFilePart(c, keyFile, blobs[i].index) != AccountFilePart(c, keyFile, blobs[j].index)
  {
    ToFilePartInjective(c.nameKey(ComposeDataString(keyFile, blobs[i].index)),
        c.nameKey(ComposeDataString(keyFile, blobs[j].index)));
  }

  /** Later accounts do not overwrite earlier ones. */
  lemma {:induction false} AccountsWritten(c: Crypto, files: Files, base: Path, keyFile: string, blobs: seq<Blob>,
      key: Data, g: Garbage, i: nat)
    requires c.Lawful() && Filling(g) && BlobsOk(blobs) && Apart(c, keyFile, blobs) && i < |blobs|
    ensures HasAccount(c, WriteAccounts(c, files, base, keyFile, blobs, key, g), base, keyFile, blobs[i], key, g)
  {
    hide HasAccount, WriteAccount, Apart, Crypto.Lawful, BlobOk;
    var n := |blobs| - 1;
    var before := WriteAccounts(c, files, base, keyFile, blobs[..n], key, g);
    if i < n {
      PartsApart(c, keyFile, blobs, i, n);
      AccountsWritten(c, files, base, keyFile, blobs[..n], key, g, i);
      OtherAccountKept(c, before, base, keyFile, blobs[i], blobs[n], key, g);
    } else {
      OwnFilesWritten(c, before, base, keyFile, blobs[n], key, g);
    }
  }

  /** The map file opens to the sealed records. */
  lemma MapFileOpens(c: Crypto, files: Files, dir: Path, records: Data, key: Data, path: Path, g: Garbage)
    requires c.Lawful() && Filling(g) && Framable(records)
    requires path == dir + ["map" + "s"] && path in files && files[path] == MapFile(c, records, key, path, g)
    ensures OpenMap(c, files, dir, key) == Ok(Cursor(records, true))
  {
    var sealed := SealedArray(c, records, key, path, g);
    ReadFinished(c, files, dir, "map", MapStream(c, records, key, path, g));
    ReadThreeWritten(Null, Null, sealed);
    DecryptUndoesPrepare(c, records, key, g(path, PadLength(4 + |records|)));
  }

  lemma MtpRecordReads(c: Crypto, files: Files, base: Path, part: string, auth: MtpAuthorization, key: Data)
    requires c.Lawful() && Serializable64(auth) && Array(Serialize(auth)).Fits()
            && MainKey(auth.keys, auth.mainDcId).Some?
    requires ReadEncrypted(c, files, base, part, key) == Ok(Cursor(MtpPayload(auth), true))
    ensures ReadMtp(c, files, base, part, key) == Ok(auth.(userId := Unsigned64(auth.userId)))
  {
    var record := Array(Serialize(auth));
    ReadI32Written(MTP_AUTHORIZATION, record.Encoded(), true);
    assert record.Encoded() == record.Encoded() + [];
    ReadArrayWritten(record, [], true);
    AuthorizationRoundTrip(auth);
  }

  /** One account loads from its two files. */
  lemma AccountComesBack(c: Crypto, files: Files, base: Path, keyFile: string, a: AccountValue, key: Data, g: Garbage)
    requires c.Lawful() && Filling(g) && Storable(a) && HasAccount(c, files, base, keyFile, ToBlob(a), key, g)
    ensures LoadAccount(c, files, base, keyFile, a.index, key) == Ok(RestoredAccount(a))
  {
    var b := ToBlob(a);
    MapFileOpens(c, files, AccountDir(c, base, keyFile, a.index), b.mapRecords, key,
        MapPath(c, base, keyFile, a.index), g);
    MapRoundTrip(a.map_);
    EncryptedFileRoundTrip(c, files, base, AccountFilePart(c, keyFile, a.index), b.mtpRecord, key,
                           g(MtpPath(c, base, keyFile, a.index), PadLength(4 + |b.mtpRecord|)));
    MtpRecordReads(c, files, base, AccountFilePart(c, keyFile, a.index), a.auth, key);
  }

  function RestoredAccount(a: AccountValue): AccountValue
    requires Storable(a)
  {
    a.(auth := a.auth.(userId := Unsigned64(a.auth.userId)), map_ := Restored(a.map_))
  }

  function RestoredAccounts(accounts: seq<AccountValue>): seq<AccountValue>
    requires AllStorable(accounts)
  {
    seq(|accounts|, i requires 0 <= i < |accounts| => RestoredAccount(accounts[i]))
  }

  /** The account loop, when every index in the list loads. */
  lemma {:induction false} EveryIndexLoads(load: int -> Result<AccountValue>, indices: seq<int32>,
      loaded: seq<AccountValue>, rest: Data)
    requires |indices| == |loaded| && forall i :: 0 <= i < |indices| ==> load(indices[i]) == Ok(loaded[i])
    ensures LoadAccounts(load, Cursor(EncodeInts(indices) + rest, true), |indices|) == Ok((loaded, Cursor(rest, true)))
  {
    hide BE32, ReadI32;
    if indices == [] {
      assert EncodeInts(indices) + rest == rest;
    } else {
      var tail := EncodeInts(indices[1..]) + rest;
      assert EncodeInts(indices) + rest == BE32(Unsigned32(indices[0])) + tail;
      ReadI32Written(indices[0], tail, true);
      EveryIndexLoads(load, indices[1..], loaded[1..], rest);
      assert [loaded[0]] + loaded[1..] == loaded;
    }
  }

  lemma IndexComesBack(c: Crypto, files: Files, base: Path, keyFile: string, a: AccountValue, key: Data, g: Garbage)
    requires c.Lawful() && Filling(g) && Storable(a) && HasAccount(c, files, base, keyFile, ToBlob(a), key, g)
    ensures LoadIndex(c, files, base, keyFile, a.index, key) == Ok(RestoredAccount(a))
  {
    AccountComesBack(c, files, base, keyFile, a, key, g);
  }

  lemma AccountsComeBack(c: Crypto, files: Files, base: Path, keyFile: string, accounts: seq<AccountValue>,
      key: Data, g: Garbage, rest: Data)
    requires c.Lawful() && Filling(g) && AllStorable(accounts)
    requires forall i :: 0 <= i < |accounts| ==> HasAccount(c, files, base, keyFile, ToBlob(accounts[i]), key, g)
    ensures LoadAccounts(Loader(c, files, base, keyFile, key),
                         Cursor(EncodeInts(Indices(accounts)) + rest, true), |accounts|)
            == Ok((RestoredAccounts(accounts), Cursor(rest, true)))
  {
    var indices, loaded := Indices(accounts), RestoredAccounts(accounts);
    forall i | 0 <= i < |accounts|
      ensures LoadIndex(c, files, base, keyFile, indices[i], key) == Ok(loaded[i])
    {
      IndexComesBack(c, files, base, keyFile, accounts[i], key, g);
    }
    EveryIndexLoads(Loader(c, files, base, keyFile, key), indices, loaded, rest);
  }

  lemma InfoReads(c: Crypto, files: Files, base: Path, keyFile: string, d: Desktop, n: int32, ints: Data,
      loaded: seq<AccountValue>, active: int32)
    requires c.Lawful() && n > 0 && loaded != []
    requires LoadAccounts(Loader(c, files, base, keyFile, d.localKey),
                          Cursor(ints + BE32(Unsigned32(active)), true), n)
             == Ok((loaded, Cursor(BE32(Unsigned32(active)), true)))
    ensures LoadInfo(c, files, base, keyFile, Cursor(BE32(Unsigned32(n)) + ints + BE32(Unsigned32(active)), true), d)
            == Ok(d.(accounts := loaded, activeIndex := active))
  {
    var last := BE32(Unsigned32(active));
    assert BE32(Unsigned32(n)) + ints + last == BE32(Unsigned32(n)) + (ints + last);
    ReadI32Written(n, ints + last, true);
    assert last == last + [];
    ReadI32Written(active, [], true);
  }

  lemma InfoComesBack(c: Crypto, files: Files, base: Path, keyFile: string, d: Desktop, g: Garbage)
    requires c.Lawful() && Filling(g) && Savable(d)
    requires forall i ::
            0 <= i < |d.accounts| ==> HasAccount(c, files, base, keyFile, ToBlob(d.accounts[i]), d.localKey, g)
    ensures LoadInfo(c, files, base, keyFile, Cursor(KeyInfo(d), true),
            Desktop([], 0, d.localKey, d.salt, d.keyEncrypted))
            == Ok(d.(accounts := RestoredAccounts(d.accounts)))
  {
    AccountsComeBack(c, files, base, keyFile, d.accounts, d.localKey, g, BE32(Unsigned32(d.activeIndex)));
    InfoReads(c, files, base, keyFile, Desktop([], 0, d.localKey, d.salt, d.keyEncrypted), |d.accounts|,
              EncodeInts(Indices(d.accounts)), RestoredAccounts(d.accounts), d.activeIndex);
  }

  /** Writing the key file leaves an account's files alone. */
  lemma KeyFileApart(c: Crypto, files: Files, base: Path, keyFile: string, b: Blob, key: Data, g: Garbage,
      content: Data)
    requires c.Lawful() && Filling(g) && BlobOk(b) && HasAccount(c, files, base, keyFile, b, key, g)
    ensures HasAccount(c, files[KeyPath(base, keyFile) := content], base, keyFile, b, key, g)
  {
    PathsApart(c, base, keyFile, b.index, b.index);
  }

  lemma SavedFiles(c: Crypto, files: Files, base: Path, keyFile: string, d: Desktop, accountKey: Data, g: Garbage)
    requires c.Lawful() && Filling(g) && Savable(d) && Apart(c, keyFile, ToBlobs(d.accounts))
    ensures forall i :: 0 <= i < |d.accounts| ==>
              HasAccount(c, SaveUnder(c, files, base, keyFile, d, accountKey, g), base, keyFile, ToBlob(d.accounts[i]),
                         accountKey, g)
  {
    var blobs := ToBlobs(d.accounts);
    var path := KeyPath(base, keyFile);
    KeyInfoSize(d);
    var content := Envelope(c, APP_VERSION, KeyStream(c, d.salt, d.keyEncrypted, KeyInfo(d), d.localKey, path, g));
    var written := WriteAccounts(c, files, base, keyFile, blobs, accountKey, g);
    forall i | 0 <= i < |d.accounts|
      ensures HasAccount(c, written[path := content], base, keyFile, ToBlob(d.accounts[i]), accountKey, g)
    {
      AccountsWritten(c, files, base, keyFile, blobs, accountKey, g, i);
      KeyFileApart(c, written, base, keyFile, blobs[i], accountKey, g, content);
    }
  }

  /** The three arrays of a key file read back as they were written. */
  lemma KeyArraysRead(c: Crypto, files: Files, base: Path, keyFile: string, salt: Data, keyEncrypted: Data, info: Data,
                      localKey: Data, g: Garbage)
    requires c.Lawful() && Filling(g) && Framable(info) && |salt| + |keyEncrypted| < 0x7000_0000
    requires HasKeyFile(c, files, base, keyFile, salt, keyEncrypted, info, localKey, g)
    ensures KeyArrays(c, files, base, keyFile)
            == Ok((salt, keyEncrypted, SealedArray(c, info, localKey, KeyPath(base, keyFile), g).Contents()))
  {
    var path := KeyPath(base, keyFile);
    assert path == base + [("key_" + keyFile) + "s"];
    ReadFinished(c, files, base, "key_" + keyFile, KeyStream(c, salt, keyEncrypted, info, localKey, path, g));
    ReadThreeWritten(Array(salt), Array(keyEncrypted), SealedArray(c, info, localKey, path, g));
  }

  /** The key file as its writer left it. */
  ghost predicate HasKeyFile(c: Crypto, files: Files, base: Path, keyFile: string, salt: Data, keyEncrypted: Data,
                             info: Data, localKey: Data, g: Garbage)
    requires c.Lawful() && Filling(g) && Framable(info) && |salt| + |keyEncrypted| < 0x7000_0000
  {
    var path := KeyPath(base, keyFile);
    path in files && files[path] == Envelope(c, APP_VERSION, KeyStream(c, salt, keyEncrypted, info, localKey, path, g))
  }

  /** The key file leads the reader to the sealed account list. */
  lemma KeyFileOpens(c: Crypto, files: Files, base: Path, keyFile: string, salt: Data, keyEncrypted: Data, info: Data,
                     localKey: Data, passcode: Data, g: Garbage)
    requires c.Lawful() && Filling(g) && Framable(info) && |salt| + |keyEncrypted| < 0x7000_0000
    requires HasKeyFile(c, files, base, keyFile, salt, keyEncrypted, info, localKey, g)
    requires KeyOpens(c, Desktop([], 0, localKey, salt, keyEncrypted), passcode)
    ensures Load(c, files, base, keyFile, passcode)
            == LoadInfo(c, files, base, keyFile, Cursor(info, true), Desktop([], 0, localKey, salt, keyEncrypted))
  {
    var path := KeyPath(base, keyFile);
    KeyArraysRead(c, files, base, keyFile, salt, keyEncrypted, info, localKey, g);
    DecryptUndoesPrepare(c, info, localKey, g(path, PadLength(4 + |info|)));
  }

  /** What a load takes its local key from. */
  lemma LoadedKey(c: Crypto, files: Files, base: Path, keyFile: string, passcode: Data)
    requires c.Lawful() && KeyArrays(c, files, base, keyFile).Ok?
    ensures var (salt, keyEncrypted, _) := KeyArrays(c, files, base, keyFile).value;
            var inner := DecryptLocal(c, keyEncrypted, c.kdf(salt, passcode));
            var loaded := Load(c, files, base, keyFile, passcode);
            && (inner.Err? ==> loaded == Err(inner.error))
            && (loaded.Ok? ==> inner.Ok? && loaded.value.localKey == ReadRaw(inner.value, KEY_SIZE).0)
  {
    hide KeyArrays, DecryptLocal, LoadAccounts, Loader;
  }

  /** Saving and loading, over every desktop, file system and padding: the accounts come
      back in order with their keys, user ids and main data centers, and so do the active
      index, the local key and the stored passcode key. */
  lemma SaveLoadRoundTrip(c: Crypto, files: Files, base: Path, keyFile: string, d: Desktop, passcode: Data, g: Garbage)
    requires c.Lawful() && Filling(g) && Savable(d) && Apart(c, keyFile, ToBlobs(d.accounts))
            && KeyOpens(c, d, passcode)
    ensures Load(c, Save(c, files, base, keyFile, d, g), base, keyFile, passcode)
            == Ok(d.(accounts := RestoredAccounts(d.accounts)))
  {
    KeyInfoSize(d);
    var saved := Save(c, files, base, keyFile, d, g);
    assert HasKeyFile(c, saved, base, keyFile, d.salt, d.keyEncrypted, KeyInfo(d), d.localKey, g);
    KeyFileOpens(c, saved, base, keyFile, d.salt, d.keyEncrypted, KeyInfo(d), d.localKey, passcode, g);
    SavedFiles(c, files, base, keyFile, d, d.localKey, g);
    InfoComesBack(c, saved, base, keyFile, d, g);
  }

  lemma KeySaved(c: Crypto, files: Files, base: Path, keyFile: string, d: Desktop, accountKey: Data, g: Garbage)
    requires c.Lawful() && Filling(g) && Savable(d)
    ensures Framable(KeyInfo(d))
    ensures HasKeyFile(c, SaveUnder(c, files, base, keyFile, d, accountKey, g), base, keyFile, d.salt, d.keyEncrypted,
                       KeyInfo(d), d.localKey, g)
  {
    hide Storable, KeyInfo, KeyStream, Envelope, WriteAccounts;
    KeyInfoSize(d);
  }

  /** Without assuming that the stored key opens: the saved desktop loads under its own local
      key exactly if the stored key opens under the passcode, and then it is what was saved; a
      stored key that does not decrypt at all makes the load fail with that error. */
  lemma SaveLoadIff(c: Crypto, files: Files, base: Path, keyFile: string, d: Desktop, passcode: Data, g: Garbage)
    requires c.Lawful() && Filling(g) && Savable(d) && Apart(c, keyFile, ToBlobs(d.accounts))
    ensures var loaded := Load(c, Save(c, files, base, keyFile, d, g), base, keyFile, passcode);
            var inner := DecryptLocal(c, d.keyEncrypted, c.kdf(d.salt, passcode));
            && (loaded == Ok(d.(accounts := RestoredAccounts(d.accounts))) <==> KeyOpens(c, d, passcode))
            && (loaded.Ok? && loaded.value.localKey == d.localKey <==> KeyOpens(c, d, passcode))
            && (inner.Err? ==> loaded == Err(inner.error))
  {
    hide HasKeyFile, DecryptLocal, Load, SaveUnder, Storable, RestoredAccount, Apart, KeyInfo, SealedArray,
      Crypto.Lawful, Filling, KeyArrays, Framable;
    KeySaved(c, files, base, keyFile, d, d.localKey, g);
    var saved := Save(c, files, base, keyFile, d, g);
    KeyArraysRead(c, saved, base, keyFile, d.salt, d.keyEncrypted, KeyInfo(d), d.localKey, g);
    LoadedKey(c, saved, base, keyFile, passcode);
    if KeyOpens(c, d, passcode) {
      SaveLoadRoundTrip(c, files, base, keyFile, d, passcode, g);
    }
  }

  /** The key of a saved desktop, whatever its accounts. */
  lemma SavedKeyReads(c: Crypto, files: Files, base: Path, keyFile: string, d: Desktop, passcode: Data, g: Garbage)
    requires c.Lawful() && Filling(g) && Savable(d)
    ensures KeyReads(c, Save(c, files, base, keyFile, d, g), base, keyFile, passcode)
            <==> DecryptLocal(c, d.keyEncrypted, c.kdf(d.salt, passcode)).Ok?
  {
    hide HasKeyFile, DecryptLocal, SaveUnder, Storable, KeyInfo, SealedArray, Crypto.Lawful, Filling, KeyArrays,
      Framable;
    KeySaved(c, files, base, keyFile, d, d.localKey, g);
    KeyArraysRead(c, Save(c, files, base, keyFile, d, g), base, keyFile, d.salt, d.keyEncrypted, KeyInfo(d),
                  d.localKey, g);
  }

  // ---------- What stays storable ----------

  lemma RestoredGroups(k: FileKeys)
    ensures Group1Size(Kept(k)) == Group1Size(k) && Group2Size(Kept(k)) == Group2Size(k)
    ensures Group3Size(Kept(k)) == Group3Size(k) && Group4Size(Kept(k)) == Group4Size(k)
    ensures TokensSize(Kept(k)) == 0
  {
  }

  /** A restored map is smaller by its token record and nothing else. */
  lemma RestoredSize(m: MapState)
    requires Writable(m)
    ensures Writable(Restored(m)) && MapSize(Restored(m)) == MapSize(m) - TokensSize(m.keys)
    ensures |RecordBytes(Restored(m))| == MapSize(m) - TokensSize(m.keys) && |RecordBytes(m)| == MapSize(m)
  {
    RestoredGroups(m.keys);
    hide Group1Size, Group2Size, Group3Size, Group4Size, TokensSize, RecordBytes;
    MapSizeIsExact(Restored(m));
    MapSizeIsExact(m);
  }

  /** A loaded account can be saved again exactly if its user id is not negative and its map
      holds more than the web view tokens. */
  lemma StorableAgainIff(a: AccountValue)
    requires Storable(a)
    ensures Storable(RestoredAccount(a)) <==> a.auth.userId >= 0 && MapSize(a.map_) > TokensSize(a.map_.keys)
  {
    hide Serialize, RecordBytes, MapSize, TokensSize, Writable, Restored, MainKey, WellFormedKeys;
    RestoredSize(a.map_);
  }
}
