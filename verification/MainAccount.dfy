/** What becomes of the main account when a desktop is saved and loaded into a fresh object,
    and when an object is loaded again. */
module MainAccount {
  import opened Bytes
  import opened Storage
  import opened LocalEncryption
  import opened DataNames
  import opened Options
  import opened Authorization
  import opened MapRecords
  import opened AccountMap
  import opened DamagedFiles
  import opened DesktopFiles
  import opened TDesktop

  /** Both main accounts are at one place of their lists. */
  predicate SamePlace(accounts: seq<StoredAccount>, main: StoredAccount?, others: seq<StoredAccount>,
                      otherMain: StoredAccount?)
  {
    exists k :: 0 <= k < |accounts| && k < |others| && main == accounts[k] && otherMain == others[k]
  }

  lemma IndicesApart(c: Crypto, keyFile: string, values: seq<AccountValue>, i: nat, j: nat)
    requires AllStorable(values) && Apart(c, keyFile, ToBlobs(values)) && i < j < |values|
    ensures values[i].index != values[j].index
  {
    hide Storable;
    var blobs := ToBlobs(values);
    assert blobs[i].index == values[i].index && blobs[j].index == values[j].index;
  }

  lemma RestoredIndices(values: seq<AccountValue>)
    requires AllStorable(values)
    ensures |RestoredAccounts(values)| == |values|
    ensures forall i :: 0 <= i < |values| ==> RestoredAccounts(values)[i].index == values[i].index
  {
    hide Storable;
    forall i | 0 <= i < |values| ensures RestoredAccounts(values)[i].index == values[i].index {
      assert Storable(values[i]);
    }
  }

  lemma SamePosition(values: seq<AccountValue>, others: seq<AccountValue>, active: int)
    requires |values| == |others| && forall i :: 0 <= i < |values| ==> others[i].index == values[i].index
    ensures MainPosition(others, active) == MainPosition(values, active)
  {
    SameFirstActive(values, others, active, 0);
  }

  lemma ApartDistinct(c: Crypto, keyFile: string, values: seq<AccountValue>)
    requires AllStorable(values) && Apart(c, keyFile, ToBlobs(values))
    ensures DistinctIndices(values)
  {
    hide Storable, Apart;
    forall i, j | 0 <= i < j < |values| ensures values[i].index != values[j].index {
      IndicesApart(c, keyFile, values, i, j);
    }
  }

  /** With distinct indices a place names one account. */
  lemma SamePlaceIff(values: seq<AccountValue>, accounts: seq<StoredAccount>, main: StoredAccount?,
                     others: seq<StoredAccount>, otherMain: StoredAccount?, active: int)
    requires DistinctIndices(values) && values != [] && |accounts| == |others| == |values|
    requires forall i :: 0 <= i < |values| ==> others[i].index == values[i].index
    requires otherMain == others[MainPosition(values, active)]
    ensures SamePlace(accounts, main, others, otherMain) <==> Agrees(accounts, values, active, main)
  {
    hide MainPosition;
    var p := MainPosition(values, active);
    forall k | 0 <= k < |values| && others[k] == others[p] ensures k == p {
      assert values[k].index == values[p].index;
    }
  }

  /** What a desktop with these accounts saves. */
  function Contents(desktop: TDesktop, values: seq<AccountValue>): Desktop
    reads desktop
  {
    Desktop(values, desktop.activeIndex, desktop.localKey, desktop.salt, desktop.keyEncrypted)
  }

  /** A fresh object that was loaded with this value. */
  ghost predicate ComesBack(c: Crypto, files: Files, base: Path, loaded: TDesktop, d: Desktop)
    requires c.Lawful()
    reads loaded, loaded.accounts, set a | a in loaded.accounts :: a.account,
      set a | a in loaded.accounts :: a.mapData
  {
    && Load(c, files, base, loaded.keyFile, loaded.passcode) == Ok(d)
    && loaded.Holds(d) && Agrees(loaded.accounts, d.accounts, d.activeIndex, loaded.mainAccount)
  }

  lemma LoadedComesBack(c: Crypto, files: Files, base: Path, loaded: TDesktop, d: Desktop)
    requires c.Lawful() && Savable(d)
    requires Load(c, files, base, loaded.keyFile, loaded.passcode) == Ok(d.(accounts := RestoredAccounts(d.accounts)))
    requires loaded.Holds(d.(accounts := RestoredAccounts(d.accounts)))
    requires loaded.mainAccount == Main(loaded.accounts, RestoredAccounts(d.accounts), d.activeIndex, null)
    ensures ComesBack(c, files, base, loaded, d.(accounts := RestoredAccounts(d.accounts)))
  {
    hide Crypto.Lawful, Storable, RestoredAccount, Load, StoredAccount.Holds;
  }

  lemma BackInPlace(c: Crypto, files: Files, base: Path, loaded: TDesktop, d: Desktop)
    requires c.Lawful() && ComesBack(c, files, base, loaded, d) && d.accounts != []
    ensures loaded.isLoaded && Load(c, files, base, loaded.keyFile, loaded.passcode) == Ok(d)
    ensures |loaded.accounts| == |d.accounts| && AccountsHold(loaded.accounts, d.accounts, d.localKey)
    ensures forall i :: 0 <= i < |d.accounts| ==> loaded.accounts[i].index == d.accounts[i].index
    ensures loaded.mainAccount == loaded.accounts[MainPosition(d.accounts, d.activeIndex)]
  {
    hide Crypto.Lawful, Load, StoredAccount.Holds, MainPosition;
    IndicesHold(loaded.accounts, d.accounts, d.localKey);
  }

  lemma BackInSamePlaceIff(c: Crypto, files: Files, base: Path, loaded: TDesktop, keyFile: string, d: Desktop,
                           accounts: seq<StoredAccount>, main: StoredAccount?)
    requires c.Lawful() && Savable(d) && Apart(c, keyFile, ToBlobs(d.accounts)) && |accounts| == |d.accounts|
    requires ComesBack(c, files, base, loaded, d.(accounts := RestoredAccounts(d.accounts)))
    ensures SamePlace(accounts, main, loaded.accounts, loaded.mainAccount)
            <==> Agrees(accounts, d.accounts, d.activeIndex, main)
  {
    hide Crypto.Lawful, Storable, Apart, Load, SamePlace, RestoredAccounts, Agrees, ComesBack, MainPosition,
      DistinctIndices;
    RestoredIndices(d.accounts);
    SamePosition(d.accounts, RestoredAccounts(d.accounts), d.activeIndex);
    BackInPlace(c, files, base, loaded, d.(accounts := RestoredAccounts(d.accounts)));
    ApartDistinct(c, keyFile, d.accounts);
    SamePlaceIff(d.accounts, accounts, main, loaded.accounts, loaded.mainAccount, d.activeIndex);
  }

  /** A fresh load of a saved desktop. */
  method LoadSaved(c: Crypto, fs: FileSystem, base: Path, keyFile: string, passcode: Data, g: Garbage,
                   ghost files: Files, ghost d: Desktop)
    returns (r: Result<()>, loaded: TDesktop)
    requires c.Lawful() && Filling(g) && Savable(d) && Apart(c, keyFile, ToBlobs(d.accounts))
    requires fs.files == Save(c, files, base, keyFile, d, g)
    ensures fresh(loaded) && loaded.keyFile == keyFile && loaded.passcode == passcode
    ensures r.Ok? && loaded.localKey == d.localKey <==> KeyOpens(c, d, passcode)
    ensures KeyOpens(c, d, passcode) ==>
      r.Ok? && ComesBack(c, fs.files, base, loaded, d.(accounts := RestoredAccounts(d.accounts)))
    ensures r.Ok? <==> Load(c, fs.files, base, keyFile, passcode).Ok?
    ensures KeyRefused(c, d, passcode) ==> r.Err?
  {
    hide Crypto.Lawful, Filling, Storable, Apart, Save, Load, KeyOpens, StoredAccount.Holds, RestoredAccount,
      DecryptLocal, KeyReads;
    loaded := new TDesktop(keyFile, passcode);
    SaveLoadIff(c, files, base, keyFile, d, passcode, g);
    r := loaded.LoadTData(c, fs, base, None);
    if KeyOpens(c, d, passcode) {
      LoadedComesBack(c, fs.files, base, loaded, d);
    }
  }

  /** The stored key does not decrypt at all under the passcode. */
  ghost predicate KeyRefused(c: Crypto, d: Desktop, passcode: Data)
    requires c.Lawful()
  {
    DecryptLocal(c, d.keyEncrypted, c.kdf(d.salt, passcode)).Err?
  }

  /** Saving one desktop and loading the files into a fresh one. That gives the accounts back
      under the local key of the first exactly if the key was renewed or its stored form opened
      before; and then the main account is at the place it had exactly if that was the place of
      the active index, or the first without an account of that index. */
  method SaveThenLoad(c: Crypto, fs: FileSystem, base: Path, desktop: TDesktop, mode: Mode, newPasscode: Option<Data>,
                      random: (Data, Data, Data, Data), g: Garbage, ghost values: seq<AccountValue>)
    returns (saved: Result<()>, r: Result<()>, loaded: TDesktop)
    requires c.Lawful() && Filling(g) && Drawn(random)
    requires AllStorable(values) && |values| <= MAX_ACCOUNTS && AccountsHold(desktop.accounts, values, desktop.localKey)
    requires desktop.isLoaded ==> desktop.KeySized()
    requires Sized(mode) && !desktop.TakesPreset(mode, newPasscode)
    requires Apart(c, desktop.keyFile, ToBlobs(values))
    modifies desktop, desktop.accounts, fs
    ensures fresh(loaded) && loaded.keyFile == desktop.keyFile && loaded.passcode == desktop.passcode
    ensures desktop.accounts == old(desktop.accounts) && desktop.mainAccount == old(desktop.mainAccount)
    ensures desktop.activeIndex == old(desktop.activeIndex) && desktop.passcode == old(desktop.Effective(newPasscode))
    ensures desktop.KeyStored(c) <==> old(desktop.Renews(newPasscode)) || old(desktop.KeyStored(c))
    ensures old(!desktop.Renews(newPasscode)) ==>
      (desktop.localKey, desktop.salt, desktop.keyEncrypted)
      == old((desktop.localKey, desktop.salt, desktop.keyEncrypted))
    ensures old(desktop.Renews(newPasscode)) ==> desktop.localKey != []
    ensures saved.Err? <==> desktop.accounts == [] || desktop.localKey == []
    ensures saved.Ok? ==> desktop.Holds(Contents(desktop, values))
    ensures saved.Ok? ==> Savable(Contents(desktop, values))
                          && fs.files == Save(c, old(fs.files), base, desktop.keyFile, Contents(desktop, values), g)
    ensures saved.Ok? ==> (r.Ok? && loaded.localKey == desktop.localKey <==> desktop.KeyStored(c))
    ensures saved.Ok? && desktop.KeyStored(c) ==>
      && r.Ok? && ComesBack(c, fs.files, base, loaded, Contents(desktop, RestoredAccounts(values)))
    ensures saved.Ok? && desktop.KeyStored(c) ==>
      (SamePlace(desktop.accounts, desktop.mainAccount, loaded.accounts, loaded.mainAccount)
       <==> old(Agrees(desktop.accounts, values, desktop.activeIndex, desktop.mainAccount)))
    ensures saved.Ok? ==> (r.Ok? <==> Load(c, fs.files, base, loaded.keyFile, loaded.passcode).Ok?)
    ensures saved.Ok? && KeyRefused(c, Contents(desktop, values), desktop.passcode) ==> r.Err?
  {
    hide Crypto.Lawful, Filling, Storable, Apart, Save, Load, KeyOpens, StoredAccount.Holds, SamePlace, RestoredAccount,
      Agrees, KeyRefused, ComesBack, RestoredAccounts, MainPosition, DistinctIndices;
    saved := desktop.SaveTData(c, fs, base, mode, newPasscode, random, g, values);
    if saved.Err? {
      loaded := new TDesktop(desktop.keyFile, desktop.passcode);
      return saved, saved, loaded;
    }
    ghost var d := Contents(desktop, values);
    KeyOpensAlike(c, Desktop([], 0, d.localKey, d.salt, d.keyEncrypted), d, desktop.passcode);
    r, loaded := LoadSaved(c, fs, base, desktop.keyFile, desktop.passcode, g, old(fs.files), d);
    if KeyOpens(c, d, desktop.passcode) {
      BackInSamePlaceIff(c, fs.files, base, loaded, desktop.keyFile, d, desktop.accounts, desktop.mainAccount);
    }
  }

  /** Whether the stored key opens is a matter of the key fields alone. */
  lemma KeyOpensAlike(c: Crypto, d: Desktop, e: Desktop, passcode: Data)
    requires c.Lawful() && (d.localKey, d.salt, d.keyEncrypted) == (e.localKey, e.salt, e.keyEncrypted)
    ensures KeyOpens(c, d, passcode) <==> KeyOpens(c, e, passcode)
  {
    hide DecryptLocal, Crypto.Lawful;
  }

  // ---------- Accounts made from a session ----------

  /** A session's user id and key. */
  predicate Usable(userId: int, key: Data) { 0 <= userId < 0x8000_0000_0000_0000 && |key| == KEY_SIZE }

  lemma NewAuthorization(dcId: int32, userId: int, key: Data)
    requires Usable(userId, key)
    ensures var auth := MtpAuthorization(userId, dcId, [AuthKey(key, dcId)], []);
            && Serializable64(auth) && |Serialize(auth)| == 288
            && MainKey(auth.keys, dcId) == Some(AuthKey(key, dcId))
  {
    KeysSize([AuthKey(key, dcId)]);
    KeysSize([]);
  }

  lemma OneKeySize(k: FileKeys)
    requires k == NO_KEYS.(settings := k.settings) && k.settings != 0
    ensures Group1Size(k) == 0 && Group2Size(k) == 0 && Group3Size(k) == 12 && Group4Size(k) == 0 && TokensSize(k) == 0
  {
  }

  lemma NoDrafts(drafts: Dict<FileKey>)
    requires drafts == []
    ensures MarkNotRead(drafts) == []
  {
    assert |MarkNotRead(drafts)| == 0;
  }

  lemma SettingsOnly(m: MapState)
    requires m.drafts == [] && m.cursors == [] && m.keys == NO_KEYS.(settings := m.keys.settings)
            && m.keys.settings != 0
    ensures MapSize(m) == 12
  {
    OneKeySize(m.keys);
    hide Group1Size, Group2Size, Group3Size, Group4Size, TokensSize;
  }

  /** The map a new account starts with: one record. */
  lemma NewMapSize()
    ensures Writable(NEW_MAP) && MapSize(NEW_MAP) == 12 && |RecordBytes(NEW_MAP)| == 12
  {
    hide MapSize, RecordBytes;
    var m := NEW_MAP;
    SettingsOnly(m);
    MapSizeIsExact(m);
  }

  lemma NewMapRestored()
    ensures Restored(NEW_MAP) == NEW_MAP
  {
    NoDrafts(NEW_MAP.drafts);
  }

  /** A new account can be saved, and comes back as it is. */
  lemma NewAccountIsStorable(index: int, dcId: int32, userId: int, key: Data)
    requires 0 <= index < MAX_ACCOUNTS && Usable(userId, key)
    ensures Storable(NewAccount(index, dcId, userId, key))
    ensures RestoredAccount(NewAccount(index, dcId, userId, key)) == NewAccount(index, dcId, userId, key)
  {
    hide Serialize, RecordBytes, MainKey, MapSize, Writable, Restored, WellFormedKeys;
    NewAuthorization(dcId, userId, key);
    NewMapSize();
    NewMapRestored();
  }

  // ---------- A reload that loses the main account ----------

  /** Loading into an object that has a main account: it is the loaded list's exactly if an
      account of that list has the active index, and else the earlier one. */
  method LoadAgain(c: Crypto, fs: FileSystem, base: Path, desktop: TDesktop, ghost d: Desktop)
    requires c.Lawful() && desktop.mainAccount != null
    requires Load(c, fs.files, base, desktop.keyFile, desktop.passcode) == Ok(d)
    modifies desktop
    ensures desktop.Holds(d)
    ensures desktop.mainAccount in desktop.accounts <==> HasIndex(d.accounts, d.activeIndex)
    ensures !HasIndex(d.accounts, d.activeIndex) ==> desktop.mainAccount == old(desktop.mainAccount)
  {
    hide Crypto.Lawful, Load, StoredAccount.Holds;
    var r := desktop.LoadTData(c, fs, base, None);
    IndicesHold(desktop.accounts, d.accounts, desktop.localKey);
  }

  lemma NoneHasActive(values: seq<AccountValue>)
    requires AllStorable(values)
    ensures !HasIndex(RestoredAccounts(values), -1)
  {
    RestoredIndices(values);
    forall i | 0 <= i < |values| ensures values[i].index >= 0 {
      assert Storable(values[i]);
    }
  }

  lemma OneName(c: Crypto, keyFile: string, values: seq<AccountValue>)
    requires AllStorable(values) && |values| == 1
    ensures Apart(c, keyFile, ToBlobs(values))
  {
    hide Storable;
  }

  /** `TDesktop.FromTelethon`. */
  method FromSession(c: Crypto, mode: Mode, dcId: int32, userId: int, key: Data, random: (Data, Data, Data, Data))
    returns (made: TDesktop)
    requires c.Lawful() && Drawn(random) && Usable(userId, key) && Sized(mode)
    ensures fresh(made) && made.keyFile == "data" && made.passcode == [] && made.activeIndex == -1
    ensures |made.accounts| == 1 && fresh(made.accounts[0]) && made.mainAccount == made.accounts[0]
    ensures AccountsHold(made.accounts, [NewAccount(0, dcId, userId, key)], made.localKey)
    ensures made.isLoaded && made.KeySized()
    ensures Opens(c, mode) ==> made.KeyStored(c) && made.localKey != []
  {
    hide Crypto.Lawful, KeyOpens, Frame, AccountsHold, HasIndex, DistinctIndices, Agrees, NewAccount;
    made := new TDesktop("data", []);
    NoneHeld(made.localKey);
    made.GenerateLocalKey(c, mode, random, []);
    NoneHeld(made.localKey);
    var r := made.AddFromTelethon(dcId, userId, key, []);
    assert [] + [NewAccount(0, dcId, userId, key)] == [NewAccount(0, dcId, userId, key)];
  }

  lemma NoneHeld(key: Data)
    ensures AccountsHold([], [], key)
  {
  }

  lemma HeldCount(desktop: TDesktop, d: Desktop)
    requires desktop.Holds(d)
    ensures desktop.isLoaded && |desktop.accounts| == |d.accounts|
  {
  }

  /** A desktop made from a session has no active index. Saved and loaded twice into one
      object, it leaves a main account that is not in the list: the one of the first load. */
  method ReloadLosesMain(c: Crypto, fs: FileSystem, base: Path, mode: Mode, dcId: int32, userId: int, key: Data,
                         random: (Data, Data, Data, Data), g: Garbage)
    returns (desktop: TDesktop)
    requires c.Lawful() && Filling(g) && Drawn(random)
    requires Usable(userId, key) && Sized(mode) && Opens(c, mode)
    modifies fs
    ensures desktop.isLoaded && |desktop.accounts| == 1 && desktop.mainAccount != null
    ensures desktop.mainAccount !in desktop.accounts
  {
    hide Crypto.Lawful, Filling, Storable, Save, Load, KeyOpens, StoredAccount.Holds, RestoredAccount, Agrees, Seal,
      DecryptLocal;
    hide SamePlace, HasIndex, ComesBack, MainPosition;
    var made := FromSession(c, mode, dcId, userId, key, random);
    ghost var values := [NewAccount(0, dcId, userId, key)];
    NewAccountIsStorable(0, dcId, userId, key);
    OneName(c, made.keyFile, values);
    assert made.accounts == [made.accounts[0]];
    var saved, r;
    saved, r, desktop := SaveThenLoad(c, fs, base, made, mode, None, random, g, values);
    NoneHasActive(values);
    ghost var d := Contents(made, RestoredAccounts(values));
    BackInPlace(c, fs.files, base, desktop, d);
    LoadAgain(c, fs, base, desktop, d);
    HeldCount(desktop, d);
  }

  // ---------- An added account that takes over ----------

  /** A desktop of the accounts 1 and 2 with 1 active, as saved. */
  ghost predicate TwoAccounts(c: Crypto, keyFile: string, d: Desktop, passcode: Data)
    requires c.Lawful()
  {
    && Savable(d) && Apart(c, keyFile, ToBlobs(d.accounts)) && KeyOpens(c, d, passcode)
    && |d.accounts| == 2 && d.accounts[0].index == 1 && d.accounts[1].index == 2 && d.activeIndex == 1
    && Storable(RestoredAccount(d.accounts[1])) && |d.localKey| == KEY_SIZE
  }

  lemma SecondRemains(accounts: seq<AccountValue>, index: int)
    requires AllStorable(accounts) && |accounts| == 2 && accounts[0].index == index != accounts[1].index
    ensures AllStorable(Remaining(accounts, {index}))
    ensures RestoredAccounts(Remaining(accounts, {index})) == [RestoredAccount(accounts[1])]
  {
    hide Storable, RestoredAccount;
    var rest := accounts[1..];
    assert rest[1..] == [] && Remaining(rest[1..], {index}) == [];
    assert Remaining(rest, {index}) == [accounts[1]] + [];
    assert Remaining(accounts, {index}) == [] + Remaining(rest, {index});
  }

  /** Two saved accounts without the map of the first. */
  lemma OnlyTheSecondLoads(c: Crypto, files: Files, base: Path, keyFile: string, d: Desktop, passcode: Data, g: Garbage)
    requires c.Lawful() && Filling(g) && Savable(d) && Apart(c, keyFile, ToBlobs(d.accounts))
    requires KeyOpens(c, d, passcode)
    requires |d.accounts| == 2 && 0 <= d.accounts[0].index < MAX_ACCOUNTS
    ensures Load(c, WithoutMaps(c, Save(c, files, base, keyFile, d, g), base, keyFile, {d.accounts[0].index}), base,
                 keyFile, passcode)
            == Ok(d.(accounts := [RestoredAccount(d.accounts[1])]))
  {
    hide Storable, RestoredAccount, Apart, Save, Load, KeyOpens, Remaining, WithoutMaps, Crypto.Lawful, Filling;
    var index := d.accounts[0].index;
    IndicesApart(c, keyFile, d.accounts, 0, 1);
    LoadsWithoutMaps(c, files, base, keyFile, d, passcode, g, {index});
    SecondRemains(d.accounts, index);
  }

  lemma TwoApart(c: Crypto, keyFile: string, blobs: seq<Blob>)
    requires BlobsOk(blobs) && |blobs| == 2
    ensures 0 <= blobs[0].index < MAX_ACCOUNTS && 0 <= blobs[1].index < MAX_ACCOUNTS
    ensures Apart(c, keyFile, blobs)
            <==> c.nameKey(ComposeDataString(keyFile, blobs[0].index)) % U64
                 != c.nameKey(ComposeDataString(keyFile, blobs[1].index)) % U64
  {
  }

  /** The accounts 2 and 1 keep their files apart as 1 and 2 do. */
  lemma SwappedApart(c: Crypto, keyFile: string, values: seq<AccountValue>, others: seq<AccountValue>)
    requires AllStorable(values) && AllStorable(others) && |values| == |others| == 2
    requires others[0].index == values[1].index && others[1].index == values[0].index
    requires Apart(c, keyFile, ToBlobs(values))
    ensures Apart(c, keyFile, ToBlobs(others))
  {
    hide Storable, ComposeDataString, BlobsOk, Apart;
    var a, b := ToBlobs(values), ToBlobs(others);
    assert a[0].index == b[1].index && a[1].index == b[0].index;
    TwoApart(c, keyFile, a);
    TwoApart(c, keyFile, b);
  }

  lemma TwoStorable(a: AccountValue, b: AccountValue)
    requires Storable(a) && Storable(b)
    ensures AllStorable([a, b])
  {
    hide Storable;
  }

  /** A fresh load of a desktop whose only account is not the active one. */
  method LoadOne(c: Crypto, fs: FileSystem, base: Path, keyFile: string, passcode: Data, ghost d: Desktop,
      ghost v: AccountValue)
    returns (desktop: TDesktop)
    requires c.Lawful() && Load(c, fs.files, base, keyFile, passcode) == Ok(d) && d.accounts == [v]
    ensures fresh(desktop) && desktop.keyFile == keyFile && desktop.passcode == passcode && desktop.isLoaded
    ensures |desktop.accounts| == 1 && AccountsHold(desktop.accounts, [v], desktop.localKey)
    ensures desktop.mainAccount == desktop.accounts[0] && desktop.accounts[0].index == v.index
    ensures fresh(desktop.accounts[0]) && fresh(desktop.accounts[0].account) && fresh(desktop.accounts[0].mapData)
    ensures desktop.activeIndex == d.activeIndex && desktop.localKey == d.localKey
    ensures desktop.salt == d.salt && desktop.keyEncrypted == d.keyEncrypted
  {
    hide Crypto.Lawful, Load, StoredAccount.Holds;
    desktop := new TDesktop(keyFile, passcode);
    var r := desktop.LoadTData(c, fs, base, None);
    IndicesHold(desktop.accounts, [v], desktop.localKey);
    assert desktop.accounts[0] in desktop.accounts;
  }

  /** An account added to a desktop of one other account, when its index 1 is the active one. */
  method AddActive(desktop: TDesktop, dcId: int32, userId: int, key: Data, ghost v: AccountValue)
    requires |desktop.accounts| == 1 && AccountsHold(desktop.accounts, [v], desktop.localKey)
    requires desktop.activeIndex == 1 && v.index != 1 && desktop.mainAccount == desktop.accounts[0]
    modifies desktop`accounts, desktop`mainAccount
    ensures |desktop.accounts| == 2 && desktop.accounts[0] == old(desktop.accounts[0])
    ensures desktop.mainAccount == desktop.accounts[0]
    ensures fresh(desktop.accounts[1])
    ensures AccountsHold(desktop.accounts, [v, NewAccount(1, dcId, userId, key)], desktop.localKey)
    ensures !Agrees(desktop.accounts, [v, NewAccount(1, dcId, userId, key)], desktop.activeIndex, desktop.mainAccount)
  {
    hide AccountsHold;
    ghost var values := [v] + [NewAccount(1, dcId, userId, key)];
    var r := desktop.AddFromTelethon(dcId, userId, key, [v]);
    assert values == [v, NewAccount(1, dcId, userId, key)];
    assert desktop.accounts[0] == desktop.accounts[..1][0];
  }

  /** Where the second of two accounts is the active one, it is the main one of a fresh load. */
  lemma SecondIsMain(values: seq<AccountValue>, active: int)
    requires |values| == 2 && values[0].index != active && values[1].index == active
    ensures MainPosition(values, active) == 1
  {
    assert FirstActive(values, active, 0) == FirstActive(values, active, 1);
  }

  /** What the second account and the added one need for being saved together. */
  ghost predicate Ready(c: Crypto, keyFile: string, v: AccountValue, w: AccountValue)
  {
    && v.index == 2 && w.index == 1 && AllStorable([v, w]) && Apart(c, keyFile, ToBlobs([v, w]))
  }

  lemma ReadyToSave(c: Crypto, keyFile: string, d: Desktop, passcode: Data, dcId: int32, userId: int, key: Data)
    requires c.Lawful() && Usable(userId, key) && TwoAccounts(c, keyFile, d, passcode)
    ensures Ready(c, keyFile, RestoredAccount(d.accounts[1]), NewAccount(1, dcId, userId, key))
    ensures |d.salt| + |d.keyEncrypted| < 0x7000_0000
            && KeyOpens(c, Desktop([], 0, d.localKey, d.salt, d.keyEncrypted), passcode)
  {
    hide Storable, RestoredAccount, Apart, KeyOpens;
    var values := [RestoredAccount(d.accounts[1]), NewAccount(1, dcId, userId, key)];
    RestoredIndex(d.accounts[1]);
    NewAccountIsStorable(1, dcId, userId, key);
    TwoStorable(values[0], values[1]);
    SwappedApart(c, keyFile, d.accounts, values);
    KeyOpensAlike(c, d, Desktop([], 0, d.localKey, d.salt, d.keyEncrypted), passcode);
  }

  /** The main account is account 2, the first of its list, in one object, and account 1, the
      second of its list, in the other. */
  predicate Moved(first: TDesktop, second: TDesktop)
    reads first, second
  {
    && |first.accounts| == |second.accounts| == 2
    && first.mainAccount == first.accounts[0] && first.accounts[0].index == 2
    && second.mainAccount == second.accounts[1] && second.accounts[1].index == 1
    && !SamePlace(first.accounts, first.mainAccount, second.accounts, second.mainAccount)
  }

  /** The accounts 2 and 1 saved, with 2 as main account and 1 active: in a fresh load the second
      of the list is the main one. */
  method SecondTakesOver(c: Crypto, fs: FileSystem, base: Path, first: TDesktop, mode: Mode,
                         random: (Data, Data, Data, Data), g: Garbage, ghost values: seq<AccountValue>)
    returns (second: TDesktop)
    requires c.Lawful() && Filling(g) && Drawn(random) && Sized(mode)
    requires |values| == 2 && Ready(c, first.keyFile, values[0], values[1])
    requires AccountsHold(first.accounts, values, first.localKey) && first.activeIndex == 1 && first.localKey != []
    requires |first.accounts| == 2 && first.isLoaded && first.KeySized() && first.KeyStored(c)
    requires !Agrees(first.accounts, values, 1, first.mainAccount)
    modifies first, first.accounts, fs
    ensures first.accounts == old(first.accounts) && first.mainAccount == old(first.mainAccount)
    ensures |second.accounts| == 2 && second.mainAccount == second.accounts[1] && second.accounts[1].index == 1
    ensures !SamePlace(first.accounts, first.mainAccount, second.accounts, second.mainAccount)
  {
    hide Crypto.Lawful, Filling, Storable, Save, Load, KeyOpens, AccountsHold, RestoredAccount, Apart, SamePlace,
      Agrees, MainPosition, ComesBack;
    var saved, r;
    assert values == [values[0], values[1]];
    saved, r, second := SaveThenLoad(c, fs, base, first, mode, None, random, g, values);
    RestoredIndices(values);
    SecondIsMain(RestoredAccounts(values), 1);
    BackInPlace(c, fs.files, base, second, Contents(first, RestoredAccounts(values)));
  }

  /** A fresh load of a desktop of one account, to which an account of the active index 1 is added. */
  method LoadAndAdd(c: Crypto, fs: FileSystem, base: Path, keyFile: string, passcode: Data, dcId: int32, userId: int,
                    key: Data, ghost d: Desktop, ghost v: AccountValue)
    returns (first: TDesktop)
    requires c.Lawful() && Load(c, fs.files, base, keyFile, passcode) == Ok(d) && d.accounts == [v]
    requires d.activeIndex == 1 && v.index == 2
    ensures fresh(first) && |first.accounts| == 2 && fresh(first.accounts[0]) && fresh(first.accounts[1])
    ensures first.keyFile == keyFile && first.passcode == passcode && first.isLoaded && first.activeIndex == 1
    ensures (first.localKey, first.salt, first.keyEncrypted) == (d.localKey, d.salt, d.keyEncrypted)
    ensures first.mainAccount == first.accounts[0] && first.accounts[0].index == 2
    ensures AccountsHold(first.accounts, [v, NewAccount(1, dcId, userId, key)], first.localKey)
    ensures !Agrees(first.accounts, [v, NewAccount(1, dcId, userId, key)], 1, first.mainAccount)
  {
    hide Crypto.Lawful, Load, AccountsHold, Agrees;
    first := LoadOne(c, fs, base, keyFile, passcode, d, v);
    AddActive(first, dcId, userId, key, v);
  }

  /** From files that load as one account that is not active: the account added from a session
      takes over in the next fresh load. */
  method AddedTakesOver(c: Crypto, fs: FileSystem, base: Path, keyFile: string, passcode: Data, mode: Mode,
                        dcId: int32, userId: int, key: Data, random: (Data, Data, Data, Data), g: Garbage,
                        ghost d: Desktop, ghost v: AccountValue)
    returns (first: TDesktop, second: TDesktop)
    requires c.Lawful() && Filling(g) && Drawn(random)
    requires Load(c, fs.files, base, keyFile, passcode) == Ok(d) && d.accounts == [v] && d.activeIndex == 1
    requires Ready(c, keyFile, v, NewAccount(1, dcId, userId, key))
    requires Sized(mode) && d.localKey != [] && |d.salt| + |d.keyEncrypted| < 0x7000_0000
            && KeyOpens(c, Desktop([], 0, d.localKey, d.salt, d.keyEncrypted), passcode)
    modifies fs
    ensures Moved(first, second)
  {
    hide Crypto.Lawful, Filling, Storable, Load, KeyOpens, AccountsHold, Apart, SamePlace, Agrees;
    first := LoadAndAdd(c, fs, base, keyFile, passcode, dcId, userId, key, d, v);
    assert first.accounts == [first.accounts[0], first.accounts[1]];
    second := SecondTakesOver(c, fs, base, first, mode, random, g, [v, NewAccount(1, dcId, userId, key)]);
  }

  /** The map file of the active account 1 is gone, so a fresh load lists account 2 alone, as
      the main account. An account added from a session gets index 1, the number of accounts,
      and the main account stays. After saving, a fresh load makes the added account the main
      one. */
  method MainMoves(c: Crypto, fs: FileSystem, base: Path, keyFile: string, passcode: Data, mode: Mode, dcId: int32,
                   userId: int, key: Data, random: (Data, Data, Data, Data), g: Garbage, ghost files: Files,
                   ghost d: Desktop)
    returns (first: TDesktop, second: TDesktop)
    requires c.Lawful() && Filling(g) && Drawn(random)
    requires Usable(userId, key) && Sized(mode) && TwoAccounts(c, keyFile, d, passcode)
    requires fs.files == WithoutMaps(c, Save(c, files, base, keyFile, d, g), base, keyFile, {1})
    modifies fs
    ensures Moved(first, second)
  {
    hide Crypto.Lawful, Filling, Storable, Save, Load, KeyOpens, RestoredAccount, Apart, WithoutMaps, SamePlace, Ready;
    OnlyTheSecondLoads(c, files, base, keyFile, d, passcode, g);
    ReadyToSave(c, keyFile, d, passcode, dcId, userId, key);
    ghost var v := RestoredAccount(d.accounts[1]);
    first, second := AddedTakesOver(c, fs, base, keyFile, passcode, mode, dcId, userId, key, random, g,
        d.(accounts := [v]), v);
  }

  lemma RestoredIndex(a: AccountValue)
    requires Storable(a)
    ensures RestoredAccount(a).index == a.index
  {
    hide Storable;
  }

  /** Such input exists for every passcode and all primitives that keep the two data names
      apart. */
  lemma MainMovesInput(c: Crypto, keyFile: string, passcode: Data, localKey: Data, salt: Data, fill: Data,
      userId: int, key: Data)
    returns (d: Desktop)
    requires c.Lawful() && |localKey| == KEY_SIZE && |salt| == SALT_SIZE && |fill| == PadLength(4 + KEY_SIZE)
            && Usable(userId, key)
    requires c.nameKey(ComposeDataString(keyFile, 1)) % U64 != c.nameKey(ComposeDataString(keyFile, 2)) % U64
    ensures TwoAccounts(c, keyFile, d, passcode)
  {
    hide Storable, Framable, RestoredAccount, Apart, ComposeDataString, DecryptLocal, Seal, NewAccount;
    var a, b := NewAccount(1, 2, userId, key), NewAccount(2, 2, userId, key);
    NewAccountIsStorable(1, 2, userId, key);
    NewAccountIsStorable(2, 2, userId, key);
    TwoStorable(a, b);
    NewIndex(1, 2, userId, key);
    NewIndex(2, 2, userId, key);
    d := SavedKey(c, [a, b], passcode, localKey, salt, fill);
    TwoApart(c, keyFile, ToBlobs([a, b]));
  }

  lemma NewIndex(index: int, dcId: int32, userId: int, key: Data)
    ensures NewAccount(index, dcId, userId, key).index == index
  {
  }

  /** A desktop whose local key is sealed as generating one does. */
  lemma SavedKey(c: Crypto, accounts: seq<AccountValue>, passcode: Data, localKey: Data, salt: Data, fill: Data)
      returns (d: Desktop)
    requires c.Lawful() && |localKey| == KEY_SIZE && |salt| == SALT_SIZE && |fill| == PadLength(4 + KEY_SIZE)
    requires AllStorable(accounts) && 1 <= |accounts| <= MAX_ACCOUNTS
    ensures d.accounts == accounts && d.activeIndex == 1 && d.localKey == localKey
    ensures Savable(d) && KeyOpens(c, d, passcode)
  {
    hide Storable, DecryptLocal, Seal;
    var passcodeKey := c.kdf(salt, passcode);
    d := Desktop(accounts, 1, localKey, salt, Frame(c, localKey, passcodeKey, fill));
    FrameSize(c, localKey, passcodeKey, fill);
    DecryptUndoesPrepare(c, localKey, passcodeKey, fill);
  }
}
