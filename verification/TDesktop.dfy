/** The `TDesktop` object and its accounts: generating a local key, saving and loading. */
module TDesktop {
  import opened Bytes
  import opened DataStream
  import opened Storage
  import opened LocalEncryption
  import opened DataNames
  import opened Options
  import opened Authorization
  import opened MapRecords
  import opened AccountMap
  import opened MapObject
  import opened DesktopFiles

  lemma HeaderDropped(payload: Data)
    ensures (HEADER + payload)[4..] == payload
  {
  }

  /** `finish` on a little-endian host. */
  method FinishFile(c: Crypto, fs: FileSystem, file: FileWriteDescriptor)
    requires file.Valid() && file.open && !file.bigEndianHost && |file.safeData| < U32
    modifies file, fs
    ensures var path := file.basePath + [file.fileName + "s"];
            fs.files == old(fs.files)[path := Envelope(c, APP_VERSION, old(file.safeData))]
  {
    FileContentIsEnvelope(c, file.items);
    file.Finish(c, fs);
  }

  /** Seals a finished record and appends it to a file. */
  method WriteEncrypted(c: Crypto, file: FileWriteDescriptor, data: EncryptedDescriptor, key: Data, g: Garbage)
      returns (sealed: QByteArray)
    requires c.Lawful() && Filling(g) && file.Valid() && file.open
    requires data.Valid() && data.stream != null && Framable(data.Written()[4..])
    modifies file
    ensures file.Valid() && file.open && file.items == old(file.items) + [sealed]
    ensures file.safeData == old(file.safeData) + sealed.Encoded()
    ensures sealed == SealedArray(c, data.Written()[4..], key, file.basePath + [file.fileName + "s"], g)
  {
    var frame := PrepareEncrypted(c, data, key, g(file.basePath + [file.fileName + "s"], PadLength(|data.Written()|)));
    sealed := Array(frame.value);
    file.WriteData(sealed);
  }

  lemma ThreeArraysFit(a1: QByteArray, a2: QByteArray, sealed: QByteArray, payload: Data)
    requires a1.Fits() && a2.Fits() && sealed.Fits() && Framable(payload)
    requires |a1.Contents()| + |a2.Contents()| < 0x7000_0000 && |sealed.Contents()| <= |payload| + 36
    ensures |a1.Encoded() + a2.Encoded() + sealed.Encoded()| < U32
  {
  }

  /** Two plain arrays and a sealed record: the layout of the map and key files. */
  method WriteThreeArrays(c: Crypto, file: FileWriteDescriptor, a1: QByteArray, a2: QByteArray,
                          data: EncryptedDescriptor, key: Data, g: Garbage)
    requires c.Lawful() && Filling(g) && file.Valid() && file.open && file.safeData == []
    requires a1.Fits() && a2.Fits() && |a1.Contents()| + |a2.Contents()| < 0x7000_0000
    requires data.Valid() && data.stream != null && Framable(data.Written()[4..])
    modifies file
    ensures file.Valid() && file.open && |file.safeData| < U32
    ensures file.safeData == a1.Encoded() + a2.Encoded()
              + SealedArray(c, data.Written()[4..], key, file.basePath + [file.fileName + "s"], g).Encoded()
  {
    hide QByteArray.Encoded, Crypto.Lawful, Filling;
    file.WriteData(a1);
    assert [] + a1.Encoded() == a1.Encoded();
    file.WriteData(a2);
    var sealed := WriteEncrypted(c, file, data, key, g);
    SealedSize(c, data.Written()[4..], key, file.basePath + [file.fileName + "s"], g);
    ThreeArraysFit(a1, a2, sealed, data.Written()[4..]);
  }

  lemma SealedSize(c: Crypto, payload: Data, key: Data, path: Path, g: Garbage)
    requires c.Lawful() && Filling(g) && Framable(payload)
    ensures |SealedArray(c, payload, key, path, g).Contents()| <= |payload| + 36
  {
  }

  /** An account with the map object its storage owns. */
  class StoredAccount {
    const index: int
    const account: Account
    const mapData: MapData
    var localKey: Data // empty for none

    constructor (index: int)
      ensures this.index == index && fresh(account) && fresh(mapData)
      ensures account.authKey.None? && !account.isLoaded
      ensures Value() == AccountValue(index, MtpAuthorization(0, 0, [], []), NEW_MAP)
    {
      this.index := index;
      account := new Account(if index < 0 then 0 else index);
      mapData := new MapData();
      localKey := [];
    }

    function Value(): AccountValue
      reads this, account, mapData
    {
      AccountValue(index, account.Value(), mapData.State())
    }

    /** The object stands for a loaded account with this value. */
    predicate Holds(v: AccountValue, key: Data)
      reads this, account, mapData
    {
      account.isLoaded && Value() == v && localKey == key
    }

    // ---------- Writing ----------

    static method WriteMapFile(c: Crypto, fs: FileSystem, dir: Path, data: EncryptedDescriptor, key: Data, g: Garbage)
      requires c.Lawful() && Filling(g)
      requires data.Valid() && data.stream != null && Framable(data.Written()[4..])
      modifies fs
      ensures var path := dir + ["map" + "s"];
              fs.files == old(fs.files)[path := MapFile(c, data.Written()[4..], key, path, g)]
    {
      hide Crypto.Lawful, Filling, Envelope, SealedArray, QByteArray.Encoded;
      var file := new FileWriteDescriptor("map", dir, false);
      WriteThreeArrays(c, file, Null, Null, data, key, g);
      FinishFile(c, fs, file);
    }

    static method WriteMtpFile(c: Crypto, fs: FileSystem, base: Path, part: string, data: EncryptedDescriptor,
        key: Data, g: Garbage)
      requires c.Lawful() && Filling(g)
      requires data.Valid() && data.stream != null && Framable(data.Written()[4..])
      modifies fs
      ensures var path := base + [part + "s"];
              fs.files == old(fs.files)[path := MtpFile(c, data.Written()[4..], key, path, g)]
    {
      var file := new FileWriteDescriptor(part, base, false);
      var sealed := WriteEncrypted(c, file, data, key, g);
      assert file.safeData == sealed.Encoded();
      FinishFile(c, fs, file);
    }

    /** `prepareToWrite` of a map that has something to write. */
    method MapDescriptor(ghost v: AccountValue) returns (data: EncryptedDescriptor)
      requires Holds(v, localKey) && Storable(v)
      ensures fresh(data) && data.Valid() && data.stream != null
      ensures |data.Written()| >= 4 && data.Written()[4..] == RecordBytes(v.map_)
    {
      var prepared := mapData.PrepareToWrite();
      data := prepared.value;
      HeaderDropped(RecordBytes(v.map_));
    }

    method MtpDescriptor(ghost v: AccountValue) returns (data: EncryptedDescriptor)
      requires Holds(v, localKey) && Storable(v)
      ensures fresh(data) && data.Valid() && data.stream != null
      ensures |data.Written()| >= 4 && data.Written()[4..] == MtpPayload(v.auth)
    {
      var serialized := account.SerializeMtpAuthorization();
      data := MtpRecord(serialized.value);
    }

    static method MtpRecord(serialized: Data) returns (data: EncryptedDescriptor)
      requires Array(serialized).Fits()
      ensures fresh(data) && data.Valid() && data.stream != null && |data.Written()| >= 4
      ensures data.Written()[4..] == BE32(Unsigned32(MTP_AUTHORIZATION)) + Array(serialized).Encoded()
    {
      data := new EncryptedDescriptor(4 + (4 + |serialized|));
      var stream: Stream := data.stream;
      stream.WriteInt32(MTP_AUTHORIZATION);
      stream.WriteByteArray(Array(serialized));
      Regroup(HEADER, BE32(Unsigned32(MTP_AUTHORIZATION)), Array(serialized).Encoded(), []);
      HeaderDropped(BE32(Unsigned32(MTP_AUTHORIZATION)) + Array(serialized).Encoded());
    }

    /** An account that has no local key writes nothing. */
    method WriteData(c: Crypto, fs: FileSystem, base: Path, keyFile: string, g: Garbage, ghost v: AccountValue)
      returns (r: Result<()>)
      requires c.Lawful() && Filling(g) && Holds(v, localKey) && Storable(v)
      modifies fs
      ensures r.Err? <==> localKey == []
      ensures r.Err? ==> r == Err(NoLocalKey)
      ensures fs.files == if r.Err? then old(fs.files)
                          else WriteAccount(c, old(fs.files), base, keyFile, ToBlob(v), localKey, g)
    {
      hide Crypto.Lawful, Filling, Envelope, MapFile, MtpFile, RecordBytes, Serialize, Writable, MapSize;
      if |localKey| == 0 {
        return Err(NoLocalKey);
      }
      var part := ToFilePartLoop(c.nameKey(ComposeDataString(keyFile, index)));
      var map_ := MapDescriptor(v);
      WriteMapFile(c, fs, base + [part], map_, localKey, g);
      var mtp := MtpDescriptor(v);
      WriteMtpFile(c, fs, base, part, mtp, localKey, g);
      r := Ok(());
    }

    // ---------- Reading ----------

    method ReadMtpData(c: Crypto, fs: FileSystem, base: Path, part: string) returns (r: Result<()>)
      requires c.Lawful() && account.authKey.None?
      modifies account
      ensures r.Ok? ==> ReadMtp(c, fs.files, base, part, localKey) == Ok(account.Value()) && account.isLoaded
      ensures r.Err? ==> ReadMtp(c, fs.files, base, part, localKey) == Err(r.error)
    {
      var mtp := ReadEncryptedFile(c, fs, base, part, localKey);
      if mtp.Err? {
        return Err(mtp.error);
      }
      var blockId := mtp.value.ReadInt32();
      if blockId != MTP_AUTHORIZATION {
        return Err(UnsupportedVersion);
      }
      var serialized := mtp.value.ReadByteArray();
      r := account.SetMtpAuthorization(serialized);
    }

    /** A map that cannot be read leaves the account unloaded without an exception; a
        failure in the MTP data raises. */
    method PrepareToStart(c: Crypto, fs: FileSystem, base: Path, keyFile: string, key: Data) returns (r: Result<()>)
      requires c.Lawful() && 0 <= index < MAX_ACCOUNTS && account.authKey.None? && !account.isLoaded
      modifies this, account, mapData
      ensures localKey == key
      ensures var part := AccountFilePart(c, keyFile, index);
              var map_, mtp := ReadMap(c, fs.files, base + [part], key), ReadMtp(c, fs.files, base, part, key);
              && (map_.Err? ==> r == if map_.error == PythonError then Err(PythonError) else Ok(()))
              && (map_.Ok? ==> if mtp.Err? then r == Err(mtp.error) else r.Ok?)
              && (r.Ok? ==> (account.isLoaded <==> map_.Ok?))
      ensures r.Ok? && account.isLoaded ==> LoadAccount(c, fs.files, base, keyFile, index, key) == Ok(Value())
      ensures !(r.Ok? && account.isLoaded) ==>
        && LoadAccount(c, fs.files, base, keyFile, index, key).Err?
        && (r == Err(PythonError) <==> LoadAccount(c, fs.files, base, keyFile, index, key) == Err(PythonError))
    {
      hide Crypto.Lawful, ReadMap, ReadMtp, ToFilePart, ComposeDataString, MapData.State, Account.Value;
      localKey := key;
      var part := ToFilePartLoop(c.nameKey(ComposeDataString(keyFile, index)));
      var map_ := mapData.Read(c, fs, base + [part], key);
      if map_.Err? {
        return if map_.error.PythonError? then Err(PythonError) else Ok(());
      }
      r := ReadMtpData(c, fs, base, part);
    }
  }

  predicate AccountsHold(accounts: seq<StoredAccount>, values: seq<AccountValue>, key: Data)
    reads accounts, set a | a in accounts :: a.account, set a | a in accounts :: a.mapData
  {
    |accounts| == |values| && forall i :: 0 <= i < |accounts| ==> accounts[i].Holds(values[i], key)
  }

  lemma IndicesHold(accounts: seq<StoredAccount>, values: seq<AccountValue>, key: Data)
    requires AccountsHold(accounts, values, key)
    ensures |accounts| == |values| && forall i :: 0 <= i < |accounts| ==> accounts[i].index == values[i].index
  {
    forall i | 0 <= i < |accounts| ensures accounts[i].index == values[i].index {
      assert accounts[i].Holds(values[i], key);
    }
  }

  /** The main account is where the active index puts it, and there is none without accounts. */
  predicate Agrees(accounts: seq<StoredAccount>, values: seq<AccountValue>, active: int, main: StoredAccount?)
    requires |accounts| == |values|
  {
    if accounts == [] then main == null else main == accounts[MainPosition(values, active)]
  }

  predicate ListsActive(accounts: seq<StoredAccount>, active: int) {
    exists i :: 0 <= i < |accounts| && accounts[i].index == active
  }

  predicate HasIndex(values: seq<AccountValue>, index: int) {
    exists i :: 0 <= i < |values| && values[i].index == index
  }

  predicate DistinctIndices(values: seq<AccountValue>) {
    forall i, j :: 0 <= i < j < |values| ==> values[i].index != values[j].index
  }

  lemma OneMoreDistinct(values: seq<AccountValue>, v: AccountValue)
    ensures DistinctIndices(values) ==> (DistinctIndices(values + [v]) <==> !HasIndex(values, v.index))
  {
    var more := values + [v];
    assert more[|values|] == v;
    if DistinctIndices(values) && HasIndex(values, v.index) {
      var i :| 0 <= i < |values| && values[i].index == v.index;
      assert more[i].index == more[|values|].index;
    }
  }

  lemma {:induction false} FirstActiveAppended(values: seq<AccountValue>, v: AccountValue, active: int, from: nat)
    requires from <= |values| && forall i :: 0 <= i < from ==> values[i].index != active
    ensures FirstActive(values + [v], active, from)
            == if HasIndex(values, active) then FirstActive(values, active, from)
               else if v.index == active then |values| else 0
    decreases |values| - from
  {
    if from < |values| && values[from].index != active {
      FirstActiveAppended(values, v, active, from + 1);
    } else if from == |values| {
      assert (values + [v])[from] == v;
    }
  }

  /** Adding an account moves the place of the main account exactly if it is the first one that
      has the active index. */
  lemma OneMoreAgrees(accounts: seq<StoredAccount>, values: seq<AccountValue>, a: StoredAccount, v: AccountValue,
                      active: int, main: StoredAccount?)
    requires |accounts| == |values| && forall i :: 0 <= i < |values| ==> accounts[i].index == values[i].index
    requires a.index == v.index && Agrees(accounts, values, active, main)
    ensures Agrees(accounts + [a], values + [v], active, if main == null then (accounts + [a])[0] else main)
            <==> accounts == [] || v.index != active || HasIndex(values, active)
  {
    FirstActiveAppended(values, v, active, 0);
    if !HasIndex(values, active) {
      NoneActive(values, active, 0);
    }
  }

  lemma {:induction false} NoneActive(values: seq<AccountValue>, active: int, from: nat)
    requires from <= |values| && !HasIndex(values, active)
    ensures FirstActive(values, active, from) == 0
    decreases |values| - from
  {
    if from < |values| {
      NoneActive(values, active, from + 1);
    }
  }

  lemma HoldOneMore(accounts: seq<StoredAccount>, values: seq<AccountValue>, a: StoredAccount, v: AccountValue,
      key: Data)
    requires AccountsHold(accounts, values, key) && a.Holds(v, key)
    ensures AccountsHold(accounts + [a], values + [v], key)
  {
  }

  /** What a new account holds: an empty map but for the settings key. */
  const NEW_MAP := EMPTY.(keys := NO_KEYS.(settings := 1851671142505648812))

  function NewAccount(index: int, dcId: int32, userId: int, key: Data): AccountValue {
    AccountValue(index, MtpAuthorization(userId, dcId, [AuthKey(key, dcId)], []), NEW_MAP)
  }

  /** `LocalEncryptSaltSize`. */
  const SALT_SIZE := 32

  /** The constants of performance mode, which is on where there are some. */
  datatype Preset = Preset(localKey: Data, salt: Data, keyEncrypted: Data)

  type Mode = Option<Preset>

  /** What Qt's sizes allow of the constants. */
  predicate Sized(mode: Mode) { mode.Some? ==> |mode.value.salt| + |mode.value.keyEncrypted| < 0x7000_0000 }

  /** The constants are a local key and its form sealed without a passcode. */
  ghost predicate Opens(c: Crypto, mode: Mode)
    requires c.Lawful()
  {
    mode.Some? ==>
      mode.value.localKey != []
      && KeyOpens(c, Desktop([], 0, mode.value.localKey, mode.value.salt, mode.value.keyEncrypted), [])
  }

  /** Three draws and a padding of the right sizes. */
  predicate Drawn(random: (Data, Data, Data, Data)) {
    |random.3| == PadLength(4 + KEY_SIZE) && |random.2| == SALT_SIZE
  }

  class TDesktop {
    const keyFile: string
    var accounts: seq<StoredAccount>
    var mainAccount: StoredAccount?
    var activeIndex: int32
    var passcode: Data
    var localKey: Data // empty for none
    var salt: Data
    var keyEncrypted: Data
    var isLoaded: bool

    constructor (keyFile: string, passcode: Data)
      ensures this.keyFile == keyFile && this.passcode == passcode && !isLoaded
      ensures accounts == [] && mainAccount == null && activeIndex == -1 && localKey == []
    {
      this.keyFile, this.passcode := keyFile, passcode;
      accounts, mainAccount, activeIndex := [], null, -1;
      localKey, salt, keyEncrypted, isLoaded := [], [], [], false;
    }

    /** The object stands for a loaded desktop with this value. */
    predicate Holds(d: Desktop)
      reads this, accounts, set a | a in accounts :: a.account, set a | a in accounts :: a.mapData
    {
      && isLoaded && (activeIndex, localKey, salt, keyEncrypted) == (d.activeIndex, d.localKey, d.salt, d.keyEncrypted)
      && AccountsHold(accounts, d.accounts, localKey)
    }

    /** The stored local key opens under the passcode of this object. */
    ghost predicate KeyStored(c: Crypto)
      requires c.Lawful()
      reads this
    {
      KeyOpens(c, Desktop([], 0, localKey, salt, keyEncrypted), passcode)
    }

    /** What Qt's sizes allow of the stored key. */
    predicate KeySized()
      reads this
    {
      |salt| + |keyEncrypted| < 0x7000_0000
    }

    /** Outside performance mode or with a passcode: a random local key, kept under a key derived
        from the passcode, which every account takes over. */
    method GenerateRandomKey(c: Crypto, pass: Data, innerSalt: Data, outerSalt: Data, fill: Data)
      requires c.Lawful() && !isLoaded && |fill| == PadLength(4 + KEY_SIZE)
      modifies this, accounts
      ensures isLoaded && accounts == old(accounts) && activeIndex == old(activeIndex) && passcode == old(passcode)
      ensures mainAccount == old(mainAccount)
      ensures forall a :: a in accounts ==> a.localKey == localKey
      ensures localKey == c.kdf(innerSalt, pass) && |localKey| == KEY_SIZE && |keyEncrypted| == 288 && salt == outerSalt
      ensures keyEncrypted == Frame(c, localKey, c.kdf(salt, passcode), fill)
      ensures KeyStored(c)
    {
      hide DecryptLocal, Frame, BE32, LE32;
      localKey := c.kdf(innerSalt, pass);
      salt := outerSalt;
      var passcodeKey := c.kdf(salt, passcode);
      var passKeyData := new EncryptedDescriptor(KEY_SIZE);
      var stream: Stream := passKeyData.stream;
      stream.WriteRawData(localKey);
      assert passKeyData.Written()[4..] == localKey;
      var sealed := PrepareEncrypted(c, passKeyData, passcodeKey, fill);
      keyEncrypted := sealed.value;
      FrameSize(c, localKey, passcodeKey, fill);
      FrameOpens(c, localKey, salt, passcode, fill);
      forall a | a in accounts {
        a.localKey := localKey;
      }
      isLoaded := true;
    }

    /** In performance mode and without a passcode: the constants. The accounts keep the key
        they have. */
    method TakePreset(preset: Preset)
      requires !isLoaded
      modifies this`localKey, this`salt, this`keyEncrypted, this`isLoaded
      ensures isLoaded && (localKey, salt, keyEncrypted) == (preset.localKey, preset.salt, preset.keyEncrypted)
    {
      localKey, salt, keyEncrypted := preset.localKey, preset.salt, preset.keyEncrypted;
      isLoaded := true;
    }

    /** `__generateLocalKey`; `random` stands for the three random draws and the padding of the
        passcode's frame. */
    method GenerateLocalKey(c: Crypto, mode: Mode, random: (Data, Data, Data, Data), ghost values: seq<AccountValue>)
      requires c.Lawful() && !isLoaded && Drawn(random)
      requires AccountsHold(accounts, values, localKey)
      modifies this, accounts
      ensures isLoaded && accounts == old(accounts) && activeIndex == old(activeIndex) && passcode == old(passcode)
      ensures mainAccount == old(mainAccount)
      ensures if mode.Some? && passcode == [] then
                && (localKey, salt, keyEncrypted)
                   == (mode.value.localKey, mode.value.salt, mode.value.keyEncrypted)
                && AccountsHold(accounts, values, old(localKey))
              else
                && localKey == c.kdf(random.1, random.0) && |localKey| == KEY_SIZE
                && salt == random.2 && |keyEncrypted| == 288
                && keyEncrypted == Frame(c, localKey, c.kdf(salt, passcode), random.3)
                && KeyStored(c) && AccountsHold(accounts, values, localKey)
    {
      hide Crypto.Lawful, KeyOpens, Frame;
      if mode.Some? && |passcode| == 0 {
        TakePreset(mode.value);
      } else {
        GenerateRandomKey(c, random.0, random.1, random.2, random.3);
      }
      ghost var key := if mode.Some? && passcode == [] then old(localKey) else localKey;
      forall k | 0 <= k < |accounts| ensures accounts[k].Holds(values[k], key) {
        assert old(accounts[k].Holds(values[k], localKey));
      }
    }

    /** A loaded account joins the desktop and its local key; where there is no main account,
        the first of the list becomes it. */
    method AddSingleAccount(account: StoredAccount, ghost values: seq<AccountValue>) returns (r: Result<()>)
      requires AccountsHold(accounts, values, localKey)
      modifies this`accounts, this`mainAccount, account
      ensures r.Ok? <==> account.account.isLoaded
      ensures r.Err? ==>
              accounts == old(accounts) && mainAccount == old(mainAccount)
              && account.localKey == old(account.localKey)
      ensures r.Ok? ==> accounts == old(accounts) + [account]
      ensures r.Ok? ==> mainAccount == if old(mainAccount) == null then accounts[0] else old(mainAccount)
      ensures r.Ok? ==> AccountsHold(accounts, values + [account.Value()], localKey)
      ensures r.Ok? && old(Agrees(accounts, values, activeIndex, mainAccount)) ==>
        (Agrees(accounts, values + [account.Value()], activeIndex, mainAccount)
         <==> values == [] || account.index != activeIndex || HasIndex(values, activeIndex))
    {
      hide Agrees, HasIndex;
      if !account.account.isLoaded {
        return Err(NoAccounts);
      }
      IndicesHold(accounts, values, localKey);
      if Agrees(accounts, values, activeIndex, mainAccount) {
        OneMoreAgrees(accounts, values, account, account.Value(), activeIndex, mainAccount);
      }
      account.localKey := localKey;
      forall k | 0 <= k < |accounts| ensures accounts[k].Holds(values[k], localKey) {
        assert old(accounts[k].Holds(values[k], localKey));
      }
      HoldOneMore(accounts, values, account, account.Value(), localKey);
      accounts := accounts + [account];
      if mainAccount == null {
        mainAccount := accounts[0];
      }
      r := Ok(());
    }

    /** `Account.FromTelethon` for this desktop: a new account takes the number of accounts as
        its index, which is not a free index if an account of the list has it. */
    method AddFromTelethon(dcId: int32, userId: int, key: Data, ghost values: seq<AccountValue>) returns (r: Result<()>)
      requires AccountsHold(accounts, values, localKey)
      modifies this`accounts, this`mainAccount
      ensures r.Err? <==> |old(accounts)| >= MAX_ACCOUNTS
      ensures r.Err? ==> accounts == old(accounts) && mainAccount == old(mainAccount)
      ensures r.Ok? ==>
        && |accounts| == |old(accounts)| + 1 && accounts[..|old(accounts)|] == old(accounts)
        && fresh(accounts[|old(accounts)|]) && fresh(accounts[|old(accounts)|].account)
            && fresh(accounts[|old(accounts)|].mapData)
        && mainAccount == (if old(mainAccount) == null then accounts[0] else old(mainAccount))
      ensures r.Ok? ==>
        var account := accounts[|old(accounts)|];
        && account.index == |old(accounts)| && account.localKey == localKey && account.mapData.State() == NEW_MAP
        && (account.account.userId, account.account.mainDcId) == (userId, dcId)
        && account.account.mtpKeys == [AuthKey(key, dcId)] && account.account.mtpKeysToDestroy == []
        && account.account.authKey == Some(AuthKey(key, dcId)) && account.account.isLoaded
      ensures r.Ok? ==> AccountsHold(accounts, values + [NewAccount(|values|, dcId, userId, key)], localKey)
      ensures r.Ok? && old(Agrees(accounts, values, activeIndex, mainAccount)) ==>
        (Agrees(accounts, values + [NewAccount(|values|, dcId, userId, key)], activeIndex, mainAccount)
         <==> values == [] || |values| != activeIndex || HasIndex(values, activeIndex))
      ensures r.Ok? && DistinctIndices(values) ==>
        (DistinctIndices(values + [NewAccount(|values|, dcId, userId, key)]) <==> !HasIndex(values, |values|))
    {
      hide Agrees, HasIndex, DistinctIndices;
      OneMoreDistinct(values, NewAccount(|values|, dcId, userId, key));
      if |accounts| >= MAX_ACCOUNTS {
        return Err(MaxAccounts);
      }
      var account := new StoredAccount(|accounts|);
      var set_ := account.account.SetMtpAuthorizationCustom(dcId, userId, [AuthKey(key, dcId)]);
      assert account.Value() == NewAccount(|values|, dcId, userId, key);
      r := AddSingleAccount(account, values);
    }

    // ---------- Saving ----------

    method WriteAccountFiles(c: Crypto, fs: FileSystem, base: Path, g: Garbage, ghost values: seq<AccountValue>,
        ghost key: Data)
      returns (r: Result<()>)
      requires c.Lawful() && Filling(g) && AllStorable(values) && AccountsHold(accounts, values, key)
      modifies fs
      ensures r.Err? <==> key == [] && accounts != []
      ensures r.Err? ==> r == Err(NoLocalKey)
      ensures fs.files == if r.Err? then old(fs.files)
                          else WriteAccounts(c, old(fs.files), base, keyFile, ToBlobs(values), key, g)
    {
      hide WriteAccount;
      hide ToBlob;
      hide Storable;
      ghost var blobs := ToBlobs(values);
      var i := 0;
      while i < |accounts|
        invariant 0 <= i <= |accounts| && AccountsHold(accounts, values, key)
        invariant i > 0 ==> key != []
        invariant fs.files == WriteAccounts(c, old(fs.files), base, keyFile, blobs[..i], key, g)
      {
        assert accounts[i].Holds(values[i], key);
        r := accounts[i].WriteData(c, fs, base, keyFile, g, values[i]);
        if r.Err? {
          return;
        }
        assert blobs[..i + 1][..i] == blobs[..i];
        i := i + 1;
      }
      assert blobs[..i] == blobs;
      r := Ok(());
    }

    method WriteIndices(stream: Stream, ghost ints: seq<int32>)
      requires stream.Valid() && stream.AtEnd()
      requires |ints| == |accounts| && forall i :: 0 <= i < |ints| ==> accounts[i].index == ints[i]
      modifies stream
      ensures stream.Valid() && stream.AtEnd() && stream.data == old(stream.data) + EncodeInts(ints)
    {
      var i := 0;
      assert old(stream.data) + EncodeInts(ints[..0]) == old(stream.data);
      while i < |accounts|
        invariant 0 <= i <= |accounts| && stream.Valid() && stream.AtEnd()
        invariant stream.data == old(stream.data) + EncodeInts(ints[..i])
      {
        assert accounts[i].index == ints[i];
        stream.WriteInt32(accounts[i].index);
        EncodeIntsOneMore(ints[..i], ints[i]);
        assert ints[..i + 1] == ints[..i] + [ints[i]];
        i := i + 1;
      }
      assert ints[..i] == ints;
    }

    /** The account list. The size announced for it leaves out the active index. */
    method KeyInfoDescriptor(ghost ints: seq<int32>) returns (data: EncryptedDescriptor)
      requires |ints| == |accounts| < 0x8000_0000 && forall i :: 0 <= i < |ints| ==> accounts[i].index == ints[i]
      ensures fresh(data) && data.Valid() && data.stream != null && |data.Written()| >= 4
      ensures data.Written()[4..] == BE32(Unsigned32(|ints|)) + EncodeInts(ints) + BE32(Unsigned32(activeIndex))
    {
      data := new EncryptedDescriptor(4 + 4 * |accounts|);
      var stream: Stream := data.stream;
      stream.WriteInt32(|accounts|);
      WriteIndices(stream, ints);
      stream.WriteInt32(activeIndex);
      Regroup(HEADER, BE32(Unsigned32(|ints|)), EncodeInts(ints), BE32(Unsigned32(activeIndex)));
      Regroup(BE32(Unsigned32(|ints|)), EncodeInts(ints), BE32(Unsigned32(activeIndex)), []);
      HeaderDropped(BE32(Unsigned32(|ints|)) + EncodeInts(ints) + BE32(Unsigned32(activeIndex)));
    }

    method WriteKeyFile(c: Crypto, fs: FileSystem, base: Path, g: Garbage, keyData: EncryptedDescriptor)
      requires c.Lawful() && Filling(g) && |salt| + |keyEncrypted| < 0x7000_0000
      requires keyData.Valid() && keyData.stream != null && Framable(keyData.Written()[4..])
      modifies fs
      ensures var path := KeyPath(base, keyFile);
              var stream := KeyStream(c, salt, keyEncrypted, keyData.Written()[4..], localKey, path, g);
              |stream| < U32 && fs.files == old(fs.files)[path := Envelope(c, APP_VERSION, stream)]
    {
      hide Crypto.Lawful, Filling, Envelope, SealedArray, QByteArray.Encoded;
      var file := new FileWriteDescriptor("key_" + keyFile, base, false);
      WriteThreeArrays(c, file, Array(salt), Array(keyEncrypted), keyData, localKey, g);
      FinishFile(c, fs, file);
    }

    /** `__writeAccounts`; every account has the same key. */
    method WriteTData(c: Crypto, fs: FileSystem, base: Path, g: Garbage, ghost d: Desktop, ghost key: Data)
      returns (r: Result<()>)
      requires c.Lawful() && Filling(g) && Savable(d) && AccountsHold(accounts, d.accounts, key)
      requires (activeIndex, localKey, salt, keyEncrypted) == (d.activeIndex, d.localKey, d.salt, d.keyEncrypted)
      modifies fs
      ensures r.Err? <==> key == []
      ensures r.Err? ==> r == Err(NoLocalKey)
      ensures fs.files == if r.Err? then old(fs.files) else SaveUnder(c, old(fs.files), base, keyFile, d, key, g)
    {
      hide Crypto.Lawful, Filling, Storable, Envelope, SealedArray, KeyStream, EncodeInts, WriteAccounts,
        StoredAccount.Value, AccountsHold;
      r := WriteAccountFiles(c, fs, base, g, d.accounts, key);
      if r.Err? {
        return;
      }
      IndicesHold(accounts, d.accounts, key);
      var keyData := KeyInfoDescriptor(Indices(d.accounts));
      KeyInfoSize(d);
      WriteKeyFile(c, fs, base, g, keyData);
    }

    /** The passcode that a save with this argument uses. */
    function Effective(newPasscode: Option<Data>): Data
      reads this
    {
      if newPasscode.Some? then newPasscode.value else passcode
    }

    /** A save with these arguments makes a new key. */
    predicate Renews(newPasscode: Option<Data>)
      reads this
    {
      !(isLoaded && passcode == Effective(newPasscode))
    }

    /** It takes the key from the constants of performance mode. */
    predicate TakesPreset(mode: Mode, newPasscode: Option<Data>)
      reads this
    {
      mode.Some? && Effective(newPasscode) == [] && Renews(newPasscode)
    }

    /** A new passcode, or a desktop never loaded, needs a new local key; every account follows,
        unless it is that of performance mode. Otherwise the stored key stays as it is, whether or
        not it opens under the passcode: a failed load may have changed the passcode before. */
    method RenewKey(c: Crypto, mode: Mode, newPasscode: Option<Data>, random: (Data, Data, Data, Data),
        ghost values: seq<AccountValue>)
      requires c.Lawful() && Drawn(random) && Sized(mode)
      requires AccountsHold(accounts, values, localKey)
      requires isLoaded ==> KeySized()
      modifies this, accounts
      ensures accounts == old(accounts) && activeIndex == old(activeIndex) && mainAccount == old(mainAccount)
      ensures passcode == old(Effective(newPasscode))
      ensures isLoaded && KeySized()
      ensures AccountsHold(accounts, values, if old(TakesPreset(mode, newPasscode)) then old(localKey) else localKey)
      ensures old(TakesPreset(mode, newPasscode)) ==>
        (localKey, salt, keyEncrypted) == (mode.value.localKey, mode.value.salt, mode.value.keyEncrypted)
      ensures !old(TakesPreset(mode, newPasscode)) ==>
        (KeyStored(c) <==> old(Renews(newPasscode)) || old(KeyStored(c)))
      ensures old(!Renews(newPasscode)) ==>
        (localKey, salt, keyEncrypted) == old((localKey, salt, keyEncrypted))
      ensures old(Renews(newPasscode) && !TakesPreset(mode, newPasscode)) ==>
        && localKey == c.kdf(random.1, random.0) && |localKey| == KEY_SIZE && salt == random.2
        && keyEncrypted == Frame(c, localKey, c.kdf(salt, passcode), random.3)
    {
      hide Crypto.Lawful, KeyOpens, Frame, AccountsHold;
      if newPasscode.Some? && passcode != newPasscode.value {
        passcode := newPasscode.value;
        isLoaded := false;
      }
      if !isLoaded {
        GenerateLocalKey(c, mode, random, values);
      }
    }

    /** `SaveTData`. */
    method SaveTData(c: Crypto, fs: FileSystem, base: Path, mode: Mode, newPasscode: Option<Data>,
        random: (Data, Data, Data, Data), g: Garbage, ghost values: seq<AccountValue>)
      returns (r: Result<()>)
      requires c.Lawful() && Filling(g) && Drawn(random) && Sized(mode)
      requires AllStorable(values) && |values| <= MAX_ACCOUNTS && AccountsHold(accounts, values, localKey)
      requires isLoaded ==> KeySized()
      modifies this, accounts, fs
      ensures accounts == old(accounts) && activeIndex == old(activeIndex) && mainAccount == old(mainAccount)
      ensures passcode == old(Effective(newPasscode)) && isLoaded && KeySized()
      ensures r.Err? <==>
        accounts == [] || (if old(TakesPreset(mode, newPasscode)) then old(localKey) else localKey) == []
      ensures r.Err? ==> fs.files == old(fs.files) && r == Err(if accounts == [] then NoAccounts else NoLocalKey)
      ensures AccountsHold(accounts, values, if old(TakesPreset(mode, newPasscode)) then old(localKey) else localKey)
      ensures r.Ok? ==> var d := Desktop(values, activeIndex, localKey, salt, keyEncrypted);
        && Savable(d)
        && fs.files == if old(TakesPreset(mode, newPasscode))
                       then SaveUnder(c, old(fs.files), base, keyFile, d, old(localKey), g)
                       else Save(c, old(fs.files), base, keyFile, d, g)
      ensures old(TakesPreset(mode, newPasscode)) ==>
        (localKey, salt, keyEncrypted) == (mode.value.localKey, mode.value.salt, mode.value.keyEncrypted)
      ensures !old(TakesPreset(mode, newPasscode)) ==>
        (KeyStored(c) <==> old(Renews(newPasscode)) || old(KeyStored(c)))
      ensures old(!Renews(newPasscode)) ==>
        (localKey, salt, keyEncrypted) == old((localKey, salt, keyEncrypted))
      ensures old(Renews(newPasscode) && !TakesPreset(mode, newPasscode)) ==>
        && localKey == c.kdf(random.1, random.0) && |localKey| == KEY_SIZE && salt == random.2
        && keyEncrypted == Frame(c, localKey, c.kdf(salt, passcode), random.3)
    {
      hide Crypto.Lawful, Filling, Storable, SaveUnder, KeyOpens, StoredAccount.Holds, Frame;
      RenewKey(c, mode, newPasscode, random, values);
      if |accounts| == 0 {
        return Err(NoAccounts);
      }
      r := WriteTData(c, fs, base, g, Desktop(values, activeIndex, localKey, salt, keyEncrypted),
                      if old(TakesPreset(mode, newPasscode)) then old(localKey) else localKey);
    }

    // ---------- Loading ----------

    /** Replaces the accounts by the ones listed; those that fail to load are left out. */
    method ReadAccounts(c: Crypto, fs: FileSystem, base: Path, info: Stream, count: int32)
      returns (r: Result<()>, ghost values: seq<AccountValue>)
      requires c.Lawful() && info.Valid() && count > 0
      modifies this`accounts, info
      ensures info.Valid()
      ensures AccountsHold(accounts, values, localKey)
      ensures forall a :: a in accounts ==> fresh(a) && fresh(a.account) && fresh(a.mapData)
      ensures var loaded := LoadAccounts(Loader(c, fs.files, base, keyFile, localKey), old(info.Cur()), count);
              && (r.Ok? ==> loaded == Ok((values, info.Cur())))
              && (r.Err? ==> loaded == Err(r.error) && r.error == PythonError)
    {
      hide Crypto.Lawful, LoadIndex, StoredAccount.Value, StoredAccount.Holds, LoadAccounts;
      accounts, values := [], [];
      ghost var load := Loader(c, fs.files, base, keyFile, localKey);
      ghost var total := LoadAccounts(load, info.Cur(), count);
      ghost var rest := total;
      PrependedNone(total);
      var i: nat := 0;
      while i < count
        invariant 0 <= i <= count && info.Valid()
        invariant forall a :: a in accounts ==> fresh(a) && fresh(a.account) && fresh(a.mapData)
        invariant AccountsHold(accounts, values, localKey)
        invariant rest == LoadAccounts(load, info.Cur(), count - i) && total == Prepended(values, rest)
      {
        ghost var cur := info.Cur();
        LoadAccountsStep(load, cur, count - i);
        var index := info.ReadInt32();
        var account := ReadAccount(c, fs, base, index);
        if account == Err(PythonError) {
          return Err(PythonError), values;
        }
        rest := LoadAccounts(load, info.Cur(), count - i - 1);
        if account.Ok? {
          ghost var v := account.value.Value();
          PrependedTwice(values, v, rest);
          HoldOneMore(accounts, values, account.value, v, localKey);
          accounts := accounts + [account.value];
          values := values + [v];
        }
        i := i + 1;
      }
      r := Ok(());
      LoadAccountsDone(load, info.Cur());
      assert values + [] == values;
    }

    /** One turn of the account loop. */
    method ReadAccount(c: Crypto, fs: FileSystem, base: Path, index: int) returns (r: Result<StoredAccount>)
      requires c.Lawful()
      ensures r.Ok? ==> fresh(r.value) && fresh(r.value.account) && fresh(r.value.mapData)
      ensures r.Ok? ==> r.value.Holds(r.value.Value(), localKey)
      ensures r.Ok? ==> LoadIndex(c, fs.files, base, keyFile, index, localKey) == Ok(r.value.Value())
      ensures r.Err? ==> LoadIndex(c, fs.files, base, keyFile, index, localKey).Err?
      ensures r == Err(PythonError) <==> LoadIndex(c, fs.files, base, keyFile, index, localKey) == Err(PythonError)
    {
      if !(0 <= index < MAX_ACCOUNTS) {
        return Err(NoAccounts);
      }
      var account := new StoredAccount(index);
      var started := account.PrepareToStart(c, fs, base, keyFile, localKey);
      if started.Ok? && account.account.isLoaded {
        r := Ok(account);
      } else {
        r := if started == Err(PythonError) then Err(PythonError) else Err(NoAccounts);
      }
    }

    /** The account with the active index becomes the main one; without such an account a
        main account from an earlier load stays, and only then the first one is taken. */
    method ChooseMain(ghost values: seq<AccountValue>)
      requires accounts != [] && AccountsHold(accounts, values, localKey)
      modifies this`mainAccount
      ensures mainAccount == Main(accounts, values, activeIndex, old(mainAccount))
    {
      var i := 0;
      while i < |accounts|
        invariant 0 <= i <= |accounts| && mainAccount == old(mainAccount)
        invariant forall j :: 0 <= j < i ==> values[j].index != activeIndex
        invariant MainPosition(values, activeIndex) == FirstActive(values, activeIndex, i)
      {
        assert accounts[i].index == values[i].index;
        if accounts[i].index == activeIndex {
          mainAccount := accounts[i];
          return;
        }
        i := i + 1;
      }
      if mainAccount == null {
        mainAccount := accounts[0];
      }
    }

    method ReadInfo(c: Crypto, fs: FileSystem, base: Path, info: Stream) returns (r: Result<()>)
      requires c.Lawful() && info.Valid() && accounts == []
      modifies this`accounts, this`mainAccount, this`activeIndex, this`isLoaded, info
      ensures forall a :: a in accounts ==> fresh(a) && fresh(a.account) && fresh(a.mapData)
      ensures r.Err? ==> (mainAccount, activeIndex, isLoaded) == old((mainAccount, activeIndex, isLoaded))
      ensures r.Err? && r.error != PythonError ==> accounts == []
      ensures r.Ok? ==>
        (mainAccount in accounts <==> old(mainAccount) == null || ListsActive(accounts, activeIndex))
      ensures var loaded := LoadInfo(c, fs.files, base, keyFile, old(info.Cur()),
              Desktop([], 0, localKey, salt, keyEncrypted));
              && (r.Err? ==> loaded == Err(r.error))
              && (r.Ok? ==> loaded.Ok? && Holds(loaded.value) && loaded.value.accounts != []
                            && mainAccount == Main(accounts, loaded.value.accounts, activeIndex, old(mainAccount)))
    {
      hide Crypto.Lawful, LoadAccounts, Loader, StoredAccount.Holds, Main, AccountsHold, ReadI32;
      var count := info.ReadInt32();
      if count <= 0 {
        return Err(NoAccounts);
      }
      ghost var values;
      r, values := ReadAccounts(c, fs, base, info, count);
      if r.Err? {
        return;
      }
      IndicesHold(accounts, values, localKey);
      if |accounts| == 0 {
        return Err(NoAccounts);
      }
      TakeActive(info, values);
      isLoaded := true;
    }

    /** The active index, 0 if the list ends before it, and the main account that it names. */
    method TakeActive(info: Stream, ghost values: seq<AccountValue>)
      requires info.Valid() && accounts != [] && AccountsHold(accounts, values, localKey) && mainAccount !in accounts
      modifies this`activeIndex, this`mainAccount, info
      ensures activeIndex == if old(info.Cur()).rest == [] then 0 else ReadI32(old(info.Cur())).0
      ensures |accounts| == |values| && mainAccount == Main(accounts, values, activeIndex, old(mainAccount))
      ensures mainAccount in accounts <==> old(mainAccount) == null || ListsActive(accounts, activeIndex)
    {
      activeIndex := 0;
      if !info.AtEnd() {
        activeIndex := info.ReadInt32();
      }
      ChooseMain(values);
      MainListed(accounts, values, localKey, activeIndex, old(mainAccount));
    }

    method ReadKeyFile(c: Crypto, fs: FileSystem, base: Path) returns (r: Result<(Data, Data, Data)>)
      ensures r == KeyArrays(c, fs.files, base, keyFile)
    {
      hide Storage.ReadFile;
      var file := ReadFileLoop(c, fs, base, "key_" + keyFile);
      if file.Err? {
        return Err(file.error);
      }
      var stream := new Stream(file.value.data, 0);
      assert file.value.data[0..] == file.value.data;
      var salt := stream.ReadByteArray();
      var keyEncrypted := stream.ReadByteArray();
      var infoEncrypted := stream.ReadByteArray();
      r := if stream.ok then Ok((salt, keyEncrypted, infoEncrypted)) else Err(StreamFailed);
    }

    /** `LoadTData`. A failure leaves the object loaded if it was, but without the accounts it
        had and with the new passcode; the key fields are those of the file exactly if its
        sealed local key decrypts. */
    method LoadTData(c: Crypto, fs: FileSystem, base: Path, newPasscode: Option<Data>) returns (r: Result<()>)
      requires c.Lawful()
      modifies this
      ensures passcode == if newPasscode.Some? then newPasscode.value else old(passcode)
      ensures forall a :: a in accounts ==> fresh(a) && fresh(a.account) && fresh(a.mapData)
      ensures r.Err? ==> (mainAccount, activeIndex, isLoaded) == old((mainAccount, activeIndex, isLoaded))
      ensures r.Err? && r.error != PythonError ==> accounts == []
      ensures if KeyReads(c, fs.files, base, keyFile, passcode) then
                KeyStored(c) && (salt, keyEncrypted) == FirstTwo(KeyArrays(c, fs.files, base, keyFile).value)
              else
                r.Err? && accounts == [] && (localKey, salt, keyEncrypted) == old((localKey, salt, keyEncrypted))
      ensures r.Ok? ==>
        (mainAccount in accounts <==> old(mainAccount) == null || ListsActive(accounts, activeIndex))
      ensures var loaded := Load(c, fs.files, base, keyFile, passcode);
              && (r.Err? ==> loaded == Err(r.error))
              && (r.Ok? ==> loaded.Ok? && Holds(loaded.value) && loaded.value.accounts != []
                            && mainAccount == Main(accounts, loaded.value.accounts, activeIndex, old(mainAccount)))
    {
      hide Crypto.Lawful, LoadInfo, DecryptLocal, KeyArrays, Holds, Main, AccountsHold;
      passcode := if newPasscode.Some? then newPasscode.value else passcode;
      accounts := [];
      var arrays := ReadKeyFile(c, fs, base);
      if arrays.Err? {
        return Err(arrays.error);
      }
      var (newSalt, newKeyEncrypted, infoEncrypted) := arrays.value;
      var inner := DecryptLocalSteps(c, newKeyEncrypted, c.kdf(newSalt, passcode));
      if inner.Err? {
        return Err(inner.error);
      }
      localKey := inner.value.ReadRawData(KEY_SIZE);
      keyEncrypted, salt := newKeyEncrypted, newSalt;
      var info := DecryptLocalSteps(c, infoEncrypted, localKey);
      if info.Err? {
        return Err(info.error);
      }
      r := ReadInfo(c, fs, base, info.value);
    }
  }

  function FirstTwo(arrays: (Data, Data, Data)): (Data, Data) { (arrays.0, arrays.1) }

  /** The frame of a local key opens to it. */
  lemma FrameOpens(c: Crypto, localKey: Data, salt: Data, passcode: Data, fill: Data)
    requires c.Lawful() && |localKey| == KEY_SIZE && |fill| == PadLength(4 + KEY_SIZE)
    ensures KeyOpens(c, Desktop([], 0, localKey, salt, Frame(c, localKey, c.kdf(salt, passcode), fill)), passcode)
  {
    hide DecryptLocal, Frame;
    DecryptUndoesPrepare(c, localKey, c.kdf(salt, passcode), fill);
  }

  function Main(accounts: seq<StoredAccount>, values: seq<AccountValue>, active: int,
      before: StoredAccount?): StoredAccount?
    requires |accounts| == |values| && accounts != []
  {
    if before != null && forall i :: 0 <= i < |values| ==> values[i].index != active then before
    else accounts[MainPosition(values, active)]
  }

  /** The main account is one of the list unless an earlier one stays. */
  lemma MainListed(accounts: seq<StoredAccount>, values: seq<AccountValue>, key: Data, active: int,
      before: StoredAccount?)
    requires AccountsHold(accounts, values, key) && accounts != []
    requires before == null || before !in accounts
    ensures Main(accounts, values, active, before) in accounts
            <==> before == null || ListsActive(accounts, active)
  {
    IndicesHold(accounts, values, key);
  }

  lemma {:induction false} SameFirstActive(accounts: seq<AccountValue>, others: seq<AccountValue>, active: int,
      from: nat)
    requires |accounts| == |others| && from <= |accounts|
    requires forall i :: 0 <= i < |accounts| ==> others[i].index == accounts[i].index
    requires forall i :: 0 <= i < from ==> accounts[i].index != active
    ensures FirstActive(others, active, from) == FirstActive(accounts, active, from)
    decreases |accounts| - from
  {
    if from < |accounts| && accounts[from].index != active {
      SameFirstActive(accounts, others, active, from + 1);
    }
  }

  function Prepended(values: seq<AccountValue>, r: Result<(seq<AccountValue>, Cursor)>)
    : Result<(seq<AccountValue>, Cursor)>
  {
    match r
    case Err(e) => r
    case Ok((more, cur)) => Ok((values + more, cur))
  }

  lemma LoadAccountsStep(load: int -> Result<AccountValue>, cur: Cursor, n: nat)
    requires n > 0
    ensures var (index, c1) := ReadI32(cur);
            var more := LoadAccounts(load, c1, n - 1);
            LoadAccounts(load, cur, n) == if load(index) == Err(PythonError) then Err(PythonError)
                                          else if load(index).Ok? then Prepended([load(index).value], more)
                                          else more
  {
  }

  lemma LoadAccountsDone(load: int -> Result<AccountValue>, cur: Cursor)
    ensures LoadAccounts(load, cur, 0) == Ok(([], cur))
  {
  }

  lemma PrependedNone(r: Result<(seq<AccountValue>, Cursor)>)
    ensures Prepended([], r) == r
  {
    if r.Ok? {
      assert [] + r.value.0 == r.value.0;
    }
  }

  lemma PrependedTwice(values: seq<AccountValue>, v: AccountValue, r: Result<(seq<AccountValue>, Cursor)>)
    ensures Prepended(values, Prepended([v], r)) == Prepended(values + [v], r)
  {
    if r.Ok? {
      assert values + ([v] + r.value.0) == values + [v] + r.value.0;
    }
  }

  lemma {:induction false} EncodeIntsOneMore(ints: seq<int32>, n: int32)
    ensures EncodeInts(ints + [n]) == EncodeInts(ints) + BE32(Unsigned32(n))
  {
    if ints == [] {
      assert ([] + [n])[1..] == [];
      assert EncodeInts([] + [n]) == BE32(Unsigned32(n)) + [];
    } else {
      assert (ints + [n])[1..] == ints[1..] + [n];
      EncodeIntsOneMore(ints[1..], n);
    }
  }
}
