/** Accounts that share an index share their files: the last one written is what every one of
    them loads as. A new account takes the number of accounts as its index, so it can share that
    of an account that is already there. */
module SharedIndices {
  import opened Bytes
  import opened Storage
  import opened LocalEncryption
  import opened DataNames
  import opened Options
  import opened Authorization
  import opened DamagedFiles
  import opened DesktopFiles
  import opened TDesktop
  import opened MainAccount

  /** Different indices have different file names. */
  ghost predicate NamesApart(c: Crypto, keyFile: string, blobs: seq<Blob>)
    requires BlobsOk(blobs)
  {
    forall i, j :: 0 <= i < j < |blobs| && blobs[i].index != blobs[j].index ==>
      c.nameKey(ComposeDataString(keyFile, blobs[i].index)) % U64
      != c.nameKey(ComposeDataString(keyFile, blobs[j].index)) % U64
  }

  lemma ApartIff(c: Crypto, keyFile: string, values: seq<AccountValue>)
    requires AllStorable(values)
    ensures Apart(c, keyFile, ToBlobs(values)) <==> NamesApart(c, keyFile, ToBlobs(values)) && DistinctIndices(values)
  {
    hide Storable, ToBlob, ComposeDataString;
    var blobs := ToBlobs(values);
    forall i | 0 <= i < |values| ensures blobs[i].index == values[i].index {
      assert blobs[i] == ToBlob(values[i]);
    }
    if Apart(c, keyFile, blobs) {
      ApartDistinct(c, keyFile, values);
    }
  }

  /** The place of the last account with this index. */
  function LastPlace(values: seq<AccountValue>, index: int): (k: nat)
    requires HasIndex(values, index)
    ensures k < |values| && values[k].index == index
    ensures forall j :: k < j < |values| ==> values[j].index != index
  {
    var n := |values| - 1;
    if values[n].index == index then n
    else
      assert HasIndex(values[..n], index) by {
        var i :| 0 <= i < |values| && values[i].index == index;
        assert values[..n][i].index == index;
      }
      LastPlace(values[..n], index)
  }

  /** For every account the last one with its index. */
  function Survivors(values: seq<AccountValue>): (r: seq<AccountValue>)
    ensures |r| == |values|
    ensures forall i :: 0 <= i < |values| ==> r[i].index == values[i].index
    ensures forall i, j :: 0 <= i < j < |values| && values[i].index == values[j].index ==> r[i] == r[j]
    ensures forall i :: 0 <= i < |values| && (forall j :: i < j < |values| ==> values[j].index != values[i].index)
              ==> r[i] == values[i]
    ensures forall i :: 0 <= i < |values| ==> r[i] in values
  {
    seq(|values|, i requires 0 <= i < |values| => values[LastPlace(values, values[i].index)])
  }

  lemma SurvivorsStorable(values: seq<AccountValue>)
    requires AllStorable(values)
    ensures AllStorable(Survivors(values)) && Indices(Survivors(values)) == Indices(values)
  {
    hide Storable;
    forall i | 0 <= i < |values| ensures Storable(Survivors(values)[i]) {
      assert Survivors(values)[i] in values;
    }
  }

  /** Nothing is lost exactly with distinct indices, or where accounts of one index are equal. */
  lemma NoneLost(values: seq<AccountValue>)
    ensures DistinctIndices(values) ==> Survivors(values) == values
    ensures Survivors(values) == values
            <==> forall i, j :: 0 <= i < j < |values| && values[i].index == values[j].index ==> values[i] == values[j]
  {
    var r := Survivors(values);
    if forall i, j :: 0 <= i < j < |values| && values[i].index == values[j].index ==> values[i] == values[j] {
      forall i | 0 <= i < |values| ensures r[i] == values[i] {
        var k := LastPlace(values, values[i].index);
        assert r[i] == r[k] == values[k];
      }
    }
  }

  /** The files of an index are those of the last account that has it. */
  lemma {:induction false} LastWritten(c: Crypto, files: Files, base: Path, keyFile: string, blobs: seq<Blob>,
      key: Data, g: Garbage, k: nat)
    requires c.Lawful() && Filling(g) && BlobsOk(blobs) && NamesApart(c, keyFile, blobs) && k < |blobs|
    requires forall j :: k < j < |blobs| ==> blobs[j].index != blobs[k].index
    ensures HasAccount(c, WriteAccounts(c, files, base, keyFile, blobs, key, g), base, keyFile, blobs[k], key, g)
  {
    hide HasAccount, WriteAccount, Crypto.Lawful, Filling;
    var n := |blobs| - 1;
    var before := WriteAccounts(c, files, base, keyFile, blobs[..n], key, g);
    if k < n {
      ToFilePartInjective(c.nameKey(ComposeDataString(keyFile, blobs[k].index)),
          c.nameKey(ComposeDataString(keyFile, blobs[n].index)));
      LastWritten(c, files, base, keyFile, blobs[..n], key, g, k);
      OtherAccountKept(c, before, base, keyFile, blobs[k], blobs[n], key, g);
    } else {
      OwnFilesWritten(c, before, base, keyFile, blobs[n], key, g);
    }
  }

  lemma SavedKeeps(c: Crypto, files: Files, base: Path, keyFile: string, d: Desktop, g: Garbage, b: Blob)
    requires c.Lawful() && Filling(g) && Savable(d) && BlobOk(b)
    requires HasAccount(c, WriteAccounts(c, files, base, keyFile, ToBlobs(d.accounts), d.localKey, g), base, keyFile, b,
                        d.localKey, g)
    ensures HasAccount(c, Save(c, files, base, keyFile, d, g), base, keyFile, b, d.localKey, g)
  {
    KeyInfoSize(d);
    hide HasAccount, Storable, KeyStream, Envelope, KeyInfo, WriteAccounts;
    var path := KeyPath(base, keyFile);
    KeyFileApart(c, WriteAccounts(c, files, base, keyFile, ToBlobs(d.accounts), d.localKey, g), base, keyFile, b,
        d.localKey, g, Envelope(c, APP_VERSION, KeyStream(c, d.salt, d.keyEncrypted, KeyInfo(d), d.localKey, path, g)));
  }

  /** The files that the account at `i` shares are those of the one at `k`. */
  lemma SurvivorBlob(values: seq<AccountValue>, i: nat) returns (k: nat)
    requires AllStorable(values) && i < |values|
    ensures Storable(Survivors(values)[i]) && k < |values| && ToBlob(Survivors(values)[i]) == ToBlobs(values)[k]
    ensures forall j :: k < j < |values| ==> ToBlobs(values)[j].index != ToBlobs(values)[k].index
  {
    hide Storable;
    k := LastPlace(values, values[i].index);
    assert Survivors(values)[i] == values[k];
    var blobs := ToBlobs(values);
    forall j | 0 <= j < |values| ensures blobs[j].index == values[j].index {
      assert blobs[j] == ToBlob(values[j]);
    }
  }

  lemma SurvivorSaved(c: Crypto, files: Files, base: Path, keyFile: string, d: Desktop, g: Garbage, i: nat)
    requires c.Lawful() && Filling(g) && Savable(d) && NamesApart(c, keyFile, ToBlobs(d.accounts)) && i < |d.accounts|
    requires Storable(Survivors(d.accounts)[i])
    ensures HasAccount(c, Save(c, files, base, keyFile, d, g), base, keyFile, ToBlob(Survivors(d.accounts)[i]),
                       d.localKey, g)
  {
    hide HasAccount, Storable, NamesApart, Crypto.Lawful, Filling, WriteAccounts, Save, ToBlob, BlobOk, Survivors,
      ToBlobs;
    var k := SurvivorBlob(d.accounts, i);
    var blobs := ToBlobs(d.accounts);
    LastWritten(c, files, base, keyFile, blobs, d.localKey, g, k);
    SavedKeeps(c, files, base, keyFile, d, g, blobs[k]);
  }

  lemma SameKeyInfo(d: Desktop, e: Desktop)
    requires Savable(d) && AllStorable(e.accounts) && |e.accounts| == |d.accounts| && e.activeIndex == d.activeIndex
    requires Indices(e.accounts) == Indices(d.accounts)
    ensures KeyInfo(e) == KeyInfo(d)
  {
    hide Storable;
  }

  /** Saving and loading over every desktop whose different indices have different file names:
      each account comes back as the last one of its index. */
  lemma SaveLoadSurvivors(c: Crypto, files: Files, base: Path, keyFile: string, d: Desktop, passcode: Data, g: Garbage)
    requires c.Lawful() && Filling(g) && Savable(d) && NamesApart(c, keyFile, ToBlobs(d.accounts))
            && KeyOpens(c, d, passcode)
    ensures AllStorable(Survivors(d.accounts))
    ensures Load(c, Save(c, files, base, keyFile, d, g), base, keyFile, passcode)
            == Ok(d.(accounts := RestoredAccounts(Survivors(d.accounts))))
  {
    hide HasKeyFile, Storable, NamesApart, SaveUnder, KeyInfo, HasAccount, Load, LoadInfo, Crypto.Lawful, Filling,
      RestoredAccount, Survivors;
    SurvivorsStorable(d.accounts);
    var e := d.(accounts := Survivors(d.accounts));
    var saved := Save(c, files, base, keyFile, d, g);
    SameKeyInfo(d, e);
    KeySaved(c, files, base, keyFile, d, d.localKey, g);
    KeyFileOpens(c, saved, base, keyFile, d.salt, d.keyEncrypted, KeyInfo(d), d.localKey, passcode, g);
    forall i | 0 <= i < |e.accounts|
      ensures Storable(e.accounts[i]) && HasAccount(c, saved, base, keyFile, ToBlob(e.accounts[i]), e.localKey, g)
    {
      SurvivorSaved(c, files, base, keyFile, d, g, i);
    }
    InfoComesBack(c, saved, base, keyFile, e, g);
  }

  // ---------- An added account that overwrites another ----------

  /** The account at `k` and the last one share an index: both come back as the last one. */
  lemma LastOverwrites(values: seq<AccountValue>, w: AccountValue, k: nat)
    requires AllStorable(values + [w]) && k < |values| && values[k].index == w.index
    requires Storable(w) && RestoredAccount(w) == w
    ensures AllStorable(Survivors(values + [w]))
    ensures var back := RestoredAccounts(Survivors(values + [w]));
            |back| == |values| + 1 && back[k] == back[|values|] == w
  {
    hide Storable, RestoredAccount;
    var all := values + [w];
    SurvivorsStorable(all);
    assert all[k] == values[k] && all[|values|] == w;
    assert Survivors(all)[k] == Survivors(all)[|values|] == w;
  }

  method LoadSurvivors(c: Crypto, fs: FileSystem, base: Path, keyFile: string, passcode: Data, g: Garbage,
                       ghost files: Files, ghost d: Desktop)
    returns (again: TDesktop)
    requires c.Lawful() && Filling(g) && Savable(d) && NamesApart(c, keyFile, ToBlobs(d.accounts))
    requires fs.files == Save(c, files, base, keyFile, d, g) && KeyOpens(c, d, passcode)
    ensures AllStorable(Survivors(d.accounts))
    ensures AccountsHold(again.accounts, RestoredAccounts(Survivors(d.accounts)), again.localKey)
  {
    hide Crypto.Lawful, Filling, Storable, Save, Load, KeyOpens, RestoredAccounts, NamesApart, Survivors, KeyReads,
      AccountsHold;
    SaveLoadSurvivors(c, files, base, keyFile, d, passcode, g);
    again := new TDesktop(keyFile, passcode);
    var r := again.LoadTData(c, fs, base, None);
  }

  lemma HeldValue(accounts: seq<StoredAccount>, values: seq<AccountValue>, key: Data, k: nat)
    requires AccountsHold(accounts, values, key) && k < |values|
    ensures |accounts| == |values| && accounts[k].Value() == values[k]
  {
    hide StoredAccount.Value;
    assert accounts[k].Holds(values[k], key);
  }

  /** A loaded desktop has an account whose index is the number of accounts. An account added
      from a session gets that index too, and after saving, the files hold the added account in
      place of the earlier one: both load as the added one. */
  method AddedOverwrites(c: Crypto, fs: FileSystem, base: Path, desktop: TDesktop, mode: Mode, dcId: int32, userId: int,
                         key: Data, random: (Data, Data, Data, Data), g: Garbage, ghost values: seq<AccountValue>,
                         ghost k: nat)
    returns (again: TDesktop)
    requires c.Lawful() && Filling(g) && Drawn(random)
    requires Usable(userId, key) && desktop.isLoaded && desktop.KeySized() && desktop.KeyStored(c)
    requires Sized(mode) && desktop.localKey != []
    requires AccountsHold(desktop.accounts, values, desktop.localKey)
    requires |values| < MAX_ACCOUNTS && k < |values| && values[k].index == |values|
    requires Saveable(c, desktop.keyFile, values + [NewAccount(|values|, dcId, userId, key)])
    modifies desktop, desktop.accounts, fs
    ensures AccountsHold(desktop.accounts, values + [NewAccount(|values|, dcId, userId, key)], desktop.localKey)
    ensures !DistinctIndices(values + [NewAccount(|values|, dcId, userId, key)])
    ensures |again.accounts| == |values| + 1
    ensures again.accounts[k].Value() == again.accounts[|values|].Value() == NewAccount(|values|, dcId, userId, key)
  {
    hide Crypto.Lawful, Filling, Storable, Save, Load, KeyOpens, RestoredAccount, Agrees, NamesApart, Survivors,
      RestoredAccounts, NewAccount, DistinctIndices, AccountsHold, HasIndex, Savable;
    ghost var w := NewAccount(|values|, dcId, userId, key);
    SharesIndex(values, w, k, dcId, userId, key);
    AddThird(desktop, dcId, userId, key, values);
    SaveAll(c, fs, base, desktop, mode, random, g, values + [w]);
    ghost var d := Contents(desktop, values + [w]);
    again := LoadSurvivors(c, fs, base, desktop.keyFile, desktop.passcode, g, old(fs.files), d);
    HeldValue(again.accounts, RestoredAccounts(Survivors(values + [w])), again.localKey, k);
    HeldValue(again.accounts, RestoredAccounts(Survivors(values + [w])), again.localKey, |values|);
  }

  ghost predicate Saveable(c: Crypto, keyFile: string, values: seq<AccountValue>) {
    AllStorable(values) && NamesApart(c, keyFile, ToBlobs(values))
  }

  lemma SharesIndex(values: seq<AccountValue>, w: AccountValue, k: nat, dcId: int32, userId: int, key: Data)
    requires w == NewAccount(|values|, dcId, userId, key) && Usable(userId, key) && |values| < MAX_ACCOUNTS
    requires AllStorable(values + [w]) && k < |values| && values[k].index == |values|
    ensures !DistinctIndices(values + [w]) && AllStorable(Survivors(values + [w]))
    ensures var back := RestoredAccounts(Survivors(values + [w]));
            |back| == |values| + 1 && back[k] == back[|values|] == w
  {
    hide Storable, RestoredAccount, Survivors, RestoredAccounts, NewAccount;
    NewIndex(|values|, dcId, userId, key);
    NewAccountIsStorable(|values|, dcId, userId, key);
    LastOverwrites(values, w, k);
    assert (values + [w])[k] == values[k] && (values + [w])[|values|] == w;
  }

  /** Adds an account where there is room for it. */
  method AddThird(desktop: TDesktop, dcId: int32, userId: int, key: Data, ghost values: seq<AccountValue>)
    requires AccountsHold(desktop.accounts, values, desktop.localKey) && |values| < MAX_ACCOUNTS
    modifies desktop`accounts, desktop`mainAccount
    ensures |desktop.accounts| == |values| + 1 && |old(desktop.accounts)| == |values|
    ensures desktop.accounts[..|values|] == old(desktop.accounts) && fresh(desktop.accounts[|values|])
    ensures AccountsHold(desktop.accounts, values + [NewAccount(|values|, dcId, userId, key)], desktop.localKey)
  {
    hide Agrees, DistinctIndices, HasIndex, NewAccount, StoredAccount.Holds;
    var r := desktop.AddFromTelethon(dcId, userId, key, values);
  }

  /** Saves without a new passcode. */
  method SaveAll(c: Crypto, fs: FileSystem, base: Path, desktop: TDesktop, mode: Mode, random: (Data, Data, Data, Data),
                 g: Garbage, ghost values: seq<AccountValue>)
    requires c.Lawful() && Filling(g) && Drawn(random)
    requires Sized(mode) && desktop.localKey != []
    requires desktop.isLoaded && desktop.KeySized() && desktop.KeyStored(c) && 1 <= |values| <= MAX_ACCOUNTS
    requires AccountsHold(desktop.accounts, values, desktop.localKey) && AllStorable(values)
    modifies desktop, desktop.accounts, fs
    ensures desktop.accounts == old(desktop.accounts) && AccountsHold(desktop.accounts, values, desktop.localKey)
    ensures Savable(Contents(desktop, values)) && KeyOpens(c, Contents(desktop, values), desktop.passcode)
    ensures fs.files == Save(c, old(fs.files), base, desktop.keyFile, Contents(desktop, values), g)
  {
    hide Crypto.Lawful, Filling, Storable, Save, KeyOpens, StoredAccount.Holds;
    var r := desktop.SaveTData(c, fs, base, mode, None, random, g, values);
    ghost var d := Contents(desktop, values);
    KeyOpensAlike(c, Desktop([], 0, d.localKey, d.salt, d.keyEncrypted), d, desktop.passcode);
  }

  /** A saved desktop of the accounts 0 and 1. */
  ghost predicate ZeroAndOne(c: Crypto, keyFile: string, d: Desktop, passcode: Data)
    requires c.Lawful()
  {
    && Savable(d) && Apart(c, keyFile, ToBlobs(d.accounts)) && KeyOpens(c, d, passcode)
    && |d.accounts| == 2 && d.accounts[0].index == 0 && d.accounts[1].index == 1
    && Storable(RestoredAccount(d.accounts[1])) && |d.localKey| == KEY_SIZE
  }

  lemma OneIndex(c: Crypto, keyFile: string, blobs: seq<Blob>)
    requires BlobsOk(blobs) && |blobs| == 2 && blobs[0].index == blobs[1].index
    ensures NamesApart(c, keyFile, blobs)
  {
    hide ComposeDataString;
  }

  /** The two accounts share one index, so there are no names to keep apart. */
  lemma BothOne(c: Crypto, keyFile: string, v: AccountValue, w: AccountValue)
    requires Storable(v) && Storable(w) && v.index == w.index
    ensures Saveable(c, keyFile, [v, w])
  {
    hide Storable, NamesApart, ToBlob, BlobOk;
    TwoStorable(v, w);
    var blobs := ToBlobs([v, w]);
    assert blobs[0].index == v.index && blobs[1].index == w.index;
    OneIndex(c, keyFile, blobs);
  }

  /** The files of such a desktop after the map file of account 0 is gone. */
  ghost predicate ZeroLost(c: Crypto, now: Files, files: Files, base: Path, keyFile: string, d: Desktop, passcode: Data,
                           g: Garbage)
    requires c.Lawful() && Filling(g)
  {
    && ZeroAndOne(c, keyFile, d, passcode)
    && now == WithoutMaps(c, Save(c, files, base, keyFile, d, g), base, keyFile, {0})
  }

  lemma OneLoads(c: Crypto, now: Files, files: Files, base: Path, keyFile: string, d: Desktop, passcode: Data,
      g: Garbage)
    returns (v: AccountValue)
    requires c.Lawful() && Filling(g) && ZeroLost(c, now, files, base, keyFile, d, passcode, g)
    ensures Storable(d.accounts[1]) && v == RestoredAccount(d.accounts[1]) && v.index == 1 && Storable(v)
    ensures Load(c, now, base, keyFile, passcode) == Ok(d.(accounts := [v]))
    ensures d.localKey != [] && |d.salt| + |d.keyEncrypted| < 0x7000_0000
            && KeyOpens(c, Desktop([], 0, d.localKey, d.salt, d.keyEncrypted), passcode)
  {
    hide Crypto.Lawful, Filling, Storable, Save, Load, KeyOpens, RestoredAccount, Apart, WithoutMaps;
    assert Storable(d.accounts[1]);
    v := RestoredAccount(d.accounts[1]);
    RestoredIndex(d.accounts[1]);
    OnlyTheSecondLoads(c, files, base, keyFile, d, passcode, g);
    KeyOpensAlike(c, d, Desktop([], 0, d.localKey, d.salt, d.keyEncrypted), passcode);
  }

  /** A list of two accounts with the same value. */
  predicate BothAre(desktop: TDesktop, v: AccountValue)
    reads desktop, desktop.accounts, set a | a in desktop.accounts :: a.account,
      set a | a in desktop.accounts :: a.mapData
  {
    |desktop.accounts| == 2 && desktop.accounts[0].Value() == v && desktop.accounts[1].Value() == v
  }

  /** The map file of account 0 is gone, so a fresh load lists account 1 alone. The account
      added from a session is number 1 too; after saving, account 1 is gone as well, and both
      load as the added one. */
  method LostAccountOverwritten(c: Crypto, fs: FileSystem, base: Path, keyFile: string, passcode: Data, mode: Mode,
                                dcId: int32, userId: int, key: Data, random: (Data, Data, Data, Data), g: Garbage,
                                ghost files: Files, ghost d: Desktop)
    returns (first: TDesktop, again: TDesktop, ghost v: AccountValue)
    requires c.Lawful() && Filling(g) && Drawn(random)
    requires Usable(userId, key) && Sized(mode) && ZeroLost(c, fs.files, files, base, keyFile, d, passcode, g)
    modifies fs
    ensures Storable(d.accounts[1]) && v == RestoredAccount(d.accounts[1])
    ensures old(Load(c, fs.files, base, keyFile, passcode)) == Ok(d.(accounts := [v]))
    ensures AccountsHold(first.accounts, [v, NewAccount(1, dcId, userId, key)], first.localKey)
    ensures BothAre(again, NewAccount(1, dcId, userId, key))
  {
    hide Crypto.Lawful, Filling, Storable, Save, Load, KeyOpens, AccountsHold, RestoredAccount, ZeroLost, Saveable,
      NewAccount, DistinctIndices;
    v := OneLoads(c, fs.files, files, base, keyFile, d, passcode, g);
    ghost var w := NewAccount(1, dcId, userId, key);
    NewIndex(1, dcId, userId, key);
    NewAccountIsStorable(1, dcId, userId, key);
    BothOne(c, keyFile, v, w);
    first := LoadOne(c, fs, base, keyFile, passcode, d.(accounts := [v]), v);
    assert [v] + [w] == [v, w];
    again := AddedOverwrites(c, fs, base, first, mode, dcId, userId, key, random, g, [v], 0);
  }

  /** Such input exists for every passcode and all primitives that keep the two data names
      apart. */
  lemma LostAccountInput(c: Crypto, keyFile: string, passcode: Data, localKey: Data, salt: Data, fill: Data,
                         userId: int, key: Data)
    returns (d: Desktop)
    requires c.Lawful() && |localKey| == KEY_SIZE && |salt| == SALT_SIZE && |fill| == PadLength(4 + KEY_SIZE)
            && Usable(userId, key)
    requires c.nameKey(ComposeDataString(keyFile, 0)) % U64 != c.nameKey(ComposeDataString(keyFile, 1)) % U64
    ensures ZeroAndOne(c, keyFile, d, passcode)
  {
    hide Storable, RestoredAccount, Apart, ComposeDataString, KeyOpens, NewAccount;
    var a, b := NewAccount(0, 2, userId, key), NewAccount(1, 2, userId, key);
    NewAccountIsStorable(0, 2, userId, key);
    NewAccountIsStorable(1, 2, userId, key);
    TwoStorable(a, b);
    NewIndex(0, 2, userId, key);
    NewIndex(1, 2, userId, key);
    d := SavedKey(c, [a, b], passcode, localKey, salt, fill);
    TwoApart(c, keyFile, ToBlobs([a, b]));
  }
}
