/** Performance mode: without a passcode the local key is one of the library's constants. The
    accounts of the desktop do not take it over, so what is saved does not load again unless
    they had it before. */
module PerformanceMode {
  import opened Bytes
  import opened DataStream
  import opened Storage
  import opened LocalEncryption
  import opened Options
  import opened Authorization
  import opened MapRecords
  import opened DamagedFiles
  import opened DesktopFiles
  import opened FlipCipher
  import opened TDesktop
  import opened MainAccount

  lemma MapFileRefused(c: Crypto, files: Files, dir: Path, records: Data, key: Data, other: Data, path: Path,
      g: Garbage)
    requires c.Lawful() && Filling(g) && Framable(records) && Clash(c, key, other)
    requires path == dir + ["map" + "s"] && path in files && files[path] == MapFile(c, records, key, path, g)
    ensures OpenMap(c, files, dir, other) == Err(MapReadFailed)
  {
    hide Frame, DecryptLocal, Envelope;
    var sealed := SealedArray(c, records, key, path, g);
    ReadFinished(c, files, dir, "map", MapStream(c, records, key, path, g));
    ReadThreeWritten(Null, Null, sealed);
  }

  lemma AccountRefused(c: Crypto, files: Files, base: Path, keyFile: string, b: Blob, key: Data, other: Data,
      g: Garbage)
    requires c.Lawful() && Filling(g) && BlobOk(b) && Clash(c, key, other)
    requires HasAccount(c, files, base, keyFile, b, key, g)
    ensures LoadIndex(c, files, base, keyFile, b.index, other) == Err(MapReadFailed)
  {
    hide OpenMap, Clash, MapFile, MtpFile;
    MapFileRefused(c, files, AccountDir(c, base, keyFile, b.index), b.mapRecords, key, other,
                   MapPath(c, base, keyFile, b.index), g);
  }

  function AllIndices(accounts: seq<AccountValue>): set<int> { set i | 0 <= i < |accounts| :: accounts[i].index }

  lemma {:induction false} NoneRemain(accounts: seq<AccountValue>, gone: set<int>)
    requires forall i :: 0 <= i < |accounts| ==> accounts[i].index in gone
    ensures Remaining(accounts, gone) == []
  {
    if accounts != [] {
      NoneRemain(accounts[1..], gone);
    }
  }

  lemma AllGone(c: Crypto, files: Files, base: Path, keyFile: string, d: Desktop, accountKey: Data, g: Garbage)
    requires c.Lawful() && Filling(g) && Savable(d) && Apart(c, keyFile, ToBlobs(d.accounts))
    requires Clash(c, accountKey, d.localKey)
    ensures Damaged(c, SaveUnder(c, files, base, keyFile, d, accountKey, g), base, keyFile, d, g,
                    AllIndices(d.accounts))
  {
    hide Storable, Apart, Clash, SaveUnder, HasKeyFile, HasAccount, LoadIndex, ToBlob, KeyInfo, Crypto.Lawful, Filling;
    var saved := SaveUnder(c, files, base, keyFile, d, accountKey, g);
    KeySaved(c, files, base, keyFile, d, accountKey, g);
    SavedFiles(c, files, base, keyFile, d, accountKey, g);
    forall i | 0 <= i < |d.accounts|
      ensures LeftOrGone(c, saved, base, keyFile, d.accounts[i], d.localKey, g, AllIndices(d.accounts))
    {
      AccountRefused(c, saved, base, keyFile, ToBlob(d.accounts[i]), accountKey, d.localKey, g);
    }
  }

  /** Accounts saved under another key than the one in the key file: none of them loads. */
  lemma OtherKeyLoadsNone(c: Crypto, files: Files, base: Path, keyFile: string, d: Desktop, accountKey: Data,
                          passcode: Data, g: Garbage)
    requires c.Lawful() && Filling(g) && Savable(d) && Apart(c, keyFile, ToBlobs(d.accounts))
    requires KeyOpens(c, d, passcode) && Clash(c, accountKey, d.localKey)
    ensures Load(c, SaveUnder(c, files, base, keyFile, d, accountKey, g), base, keyFile, passcode) == Err(NoAccounts)
  {
    hide Storable, Apart, Clash, SaveUnder, Damaged, Load, KeyOpens, Crypto.Lawful, Filling;
    AllGone(c, files, base, keyFile, d, accountKey, g);
    NoneRemain(d.accounts, AllIndices(d.accounts));
    LoadsRemaining(c, SaveUnder(c, files, base, keyFile, d, accountKey, g), base, keyFile, d, passcode, g,
                   AllIndices(d.accounts));
  }

  /** What a preset makes the key of a desktop. */
  function WithPreset(desktop: TDesktop, preset: Preset, values: seq<AccountValue>): Desktop
    reads desktop
  {
    Desktop(values, desktop.activeIndex, preset.localKey, preset.salt, preset.keyEncrypted)
  }

  lemma PresetOpens(c: Crypto, desktop: TDesktop, preset: Preset, values: seq<AccountValue>)
    requires c.Lawful() && Opens(c, Some(preset))
    ensures KeyOpens(c, WithPreset(desktop, preset, values), [])
  {
    hide KeyOpens, Crypto.Lawful;
    KeyOpensAlike(c, Desktop([], 0, preset.localKey, preset.salt, preset.keyEncrypted),
                  WithPreset(desktop, preset, values), []);
  }

  /** A save that takes the key from the constants, and a fresh load. Without an earlier local
      key the accounts have none, and the save is refused before it writes anything. Else the
      accounts are written under their earlier key: they come back if that is the constant, and
      none of them does if it clashes with it. */
  method SaveWithPreset(c: Crypto, fs: FileSystem, base: Path, desktop: TDesktop, preset: Preset,
                        newPasscode: Option<Data>, random: (Data, Data, Data, Data), g: Garbage,
                        ghost values: seq<AccountValue>)
    returns (saved: Result<()>, r: Result<()>, again: TDesktop)
    requires c.Lawful() && Filling(g) && Drawn(random) && Sized(Some(preset)) && Opens(c, Some(preset))
    requires desktop.TakesPreset(Some(preset), newPasscode) && (desktop.isLoaded ==> desktop.KeySized())
    requires AllStorable(values) && |values| <= MAX_ACCOUNTS && AccountsHold(desktop.accounts, values, desktop.localKey)
    requires Apart(c, desktop.keyFile, ToBlobs(values))
    modifies desktop, desktop.accounts, fs
    ensures desktop.accounts == old(desktop.accounts) && desktop.isLoaded && desktop.passcode == []
    ensures AccountsHold(desktop.accounts, values, old(desktop.localKey)) && desktop.localKey == preset.localKey
    ensures saved.Err? <==> values == [] || old(desktop.localKey) == []
    ensures saved.Err? ==> fs.files == old(fs.files)
    ensures saved.Ok? && old(desktop.localKey) == preset.localKey ==>
      r.Ok? && ComesBack(c, fs.files, base, again, WithPreset(desktop, preset, RestoredAccounts(values)))
    ensures saved.Ok? && Clash(c, old(desktop.localKey), preset.localKey) ==> r == Err(NoAccounts)
  {
    hide Crypto.Lawful, Filling, Storable, Apart, Save, Load, KeyOpens, StoredAccount.Holds, RestoredAccount, Clash,
      ComesBack, KeyReads, SaveUnder, RestoredAccounts;
    saved := desktop.SaveTData(c, fs, base, Some(preset), newPasscode, random, g, values);
    if saved.Err? {
      again := new TDesktop(desktop.keyFile, desktop.passcode);
      return saved, saved, again;
    }
    ghost var d := WithPreset(desktop, preset, values);
    PresetOpens(c, desktop, preset, values);
    again := new TDesktop(desktop.keyFile, desktop.passcode);
    r := again.LoadTData(c, fs, base, None);
    if Clash(c, old(desktop.localKey), preset.localKey) {
      OtherKeyLoadsNone(c, old(fs.files), base, desktop.keyFile, d, old(desktop.localKey), [], g);
    }
    if old(desktop.localKey) == preset.localKey {
      SaveIsUnder(c, old(fs.files), base, desktop.keyFile, d, g);
      SaveLoadRoundTrip(c, old(fs.files), base, desktop.keyFile, d, [], g);
      LoadedComesBack(c, fs.files, base, again, d);
    }
  }

  lemma SaveIsUnder(c: Crypto, files: Files, base: Path, keyFile: string, d: Desktop, g: Garbage)
    requires c.Lawful() && Filling(g) && Savable(d)
    ensures Save(c, files, base, keyFile, d, g) == SaveUnder(c, files, base, keyFile, d, d.localKey, g)
  {
  }

  // ---------- Runs ----------

  /** A desktop made from a session is saved with a passcode and then without one. The second
      save raises nothing, and no account of it loads. */
  method PasscodeRemoved(c: Crypto, fs: FileSystem, base: Path, preset: Preset, passcode: Data, dcId: int32,
                         userId: int, key: Data, drawn: (Data, Data, Data, Data),
                         random: (Data, Data, Data, Data), g: Garbage)
    returns (saved: Result<()>, r: Result<()>, desktop: TDesktop)
    requires c.Lawful() && Filling(g) && Drawn(drawn) && Drawn(random) && Usable(userId, key) && passcode != []
    requires Sized(Some(preset)) && Opens(c, Some(preset)) && Clash(c, c.kdf(random.1, random.0), preset.localKey)
    modifies fs
    ensures desktop.passcode == [] && saved.Ok? && r == Err(NoAccounts)
    ensures AccountsHold(desktop.accounts, [NewAccount(0, dcId, userId, key)], c.kdf(random.1, random.0))
  {
    hide Crypto.Lawful, Filling, Storable, Apart, Save, KeyOpens, AccountsHold, Clash, Opens, ComesBack, NewAccount,
      Frame;
    desktop := FromSession(c, Some(preset), dcId, userId, key, drawn);
    ghost var w := NewAccount(0, dcId, userId, key);
    NewAccountIsStorable(0, dcId, userId, key);
    OneName(c, desktop.keyFile, [w]);
    assert desktop.accounts == [desktop.accounts[0]];
    saved := desktop.SaveTData(c, fs, base, Some(preset), Some(passcode), random, g, [w]);
    var again;
    saved, r, again := SaveWithPreset(c, fs, base, desktop, preset, Some([]), random, g, [w]);
  }

  /** An account made from a session without an owner, whose desktop never had a local key, and
      then saved: refused exactly in performance mode. */
  method OwnDesktop(c: Crypto, fs: FileSystem, base: Path, mode: Mode, dcId: int32, userId: int, key: Data,
                    random: (Data, Data, Data, Data), g: Garbage)
    returns (r: Result<()>)
    requires c.Lawful() && Filling(g) && Drawn(random) && Usable(userId, key) && Sized(mode)
    modifies fs
    ensures r.Err? <==> mode.Some?
    ensures r.Err? ==> r == Err(NoLocalKey) && fs.files == old(fs.files)
  {
    hide Crypto.Lawful, Filling, Storable, Save, KeyOpens, AccountsHold, HasIndex, DistinctIndices, Agrees, NewAccount,
      Frame;
    var desktop := new TDesktop("data", []);
    NoneHeld(desktop.localKey);
    r := desktop.AddFromTelethon(dcId, userId, key, []);
    ghost var w := NewAccount(0, dcId, userId, key);
    assert [] + [w] == [w];
    NewAccountIsStorable(0, dcId, userId, key);
    assert desktop.accounts == [desktop.accounts[0]];
    r := desktop.SaveTData(c, fs, base, mode, None, random, g, [w]);
  }

  // ---------- Such input exists ----------

  /** Primitives that meet the laws and constants that open without a passcode, while every
      generated key clashes with them. */
  lemma ClashExists(salt: Data, fill: Data) returns (c: Crypto, preset: Preset)
    requires |salt| == SALT_SIZE && |fill| == PadLength(4 + KEY_SIZE)
    ensures c.Lawful() && TellsNamesApart(c) && Sized(Some(preset)) && Opens(c, Some(preset))
    ensures forall s, p :: Clash(c, c.kdf(s, p), preset.localKey)
  {
    hide Clash, DecryptLocal, Frame;
    c := FlipsExists((s, p) => seq(256, _ => 0));
    var localKey: Data := seq(256, _ => 1);
    preset := Preset(localKey, salt, Frame(c, localKey, c.kdf(salt, []), fill));
    FrameSize(c, localKey, c.kdf(salt, []), fill);
    FrameOpens(c, localKey, salt, [], fill);
    forall s, p ensures Clash(c, c.kdf(s, p), preset.localKey) {
      FlipClashes(c, c.kdf(s, p), preset.localKey);
    }
  }
}
