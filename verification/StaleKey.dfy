/** A load with another passcode that fails leaves the object loaded, with that passcode and
    with the key it had. What it saves then is still sealed under the earlier passcode. */
module StaleKey {
  import opened Bytes
  import opened Storage
  import opened LocalEncryption
  import opened Options
  import opened DesktopFiles
  import opened FlipCipher
  import opened TDesktop
  import opened MainAccount

  lemma KeyRefusedAlike(c: Crypto, d: Desktop, e: Desktop, passcode: Data)
    requires c.Lawful() && (d.salt, d.keyEncrypted) == (e.salt, e.keyEncrypted)
    ensures KeyRefused(c, d, passcode) <==> KeyRefused(c, e, passcode)
  {
    hide DecryptLocal, Crypto.Lawful;
  }

  lemma RefusedIsNotStored(c: Crypto, desktop: TDesktop)
    requires c.Lawful() && KeyRefused(c, Contents(desktop, []), desktop.passcode)
    ensures !desktop.KeyStored(c)
  {
    hide DecryptLocal, Crypto.Lawful;
  }

  /** A load that fails, and an account added to what it leaves. */
  method FailThenAdd(c: Crypto, fs: FileSystem, base: Path, desktop: TDesktop, newPasscode: Data, dcId: int32,
                     userId: int, key: Data)
    returns (failed: Result<()>)
    requires c.Lawful() && !KeyReads(c, fs.files, base, desktop.keyFile, newPasscode)
    modifies desktop
    ensures failed.Err? && desktop.passcode == newPasscode && desktop.isLoaded == old(desktop.isLoaded)
    ensures Contents(desktop, []) == old(Contents(desktop, []))
    ensures |desktop.accounts| == 1 && fresh(desktop.accounts[0])
    ensures AccountsHold(desktop.accounts, [NewAccount(0, dcId, userId, key)], desktop.localKey)
  {
    hide Crypto.Lawful, Load, KeyOpens, KeyReads, AccountsHold, Agrees, HasIndex, DistinctIndices, NewAccount;
    failed := desktop.LoadTData(c, fs, base, Some(newPasscode));
    NoneHeld(desktop.localKey);
    var r := desktop.AddFromTelethon(dcId, userId, key, []);
    assert [] + [NewAccount(0, dcId, userId, key)] == [NewAccount(0, dcId, userId, key)];
  }

  /** A load fails, an account is added from a session, and the object is saved under the same
      passcode. A fresh load of the files under that passcode gives the saved account exactly
      if the object was not loaded before, so that a key is made, or its key opens under that
      passcode anyway. The passcode under which the key opened before opens the files. */
  method SaveAfterFailedLoad(c: Crypto, fs: FileSystem, base: Path, desktop: TDesktop, mode: Mode, newPasscode: Data,
                             dcId: int32, userId: int, key: Data, random: (Data, Data, Data, Data), g: Garbage)
    returns (failed: Result<()>, saved: Result<()>, r: Result<()>, again: TDesktop)
    requires c.Lawful() && Filling(g) && Drawn(random)
    requires Usable(userId, key) && (desktop.isLoaded ==> desktop.KeySized() && desktop.localKey != [])
    requires Sized(mode) && (desktop.isLoaded || newPasscode != [] || mode.None?)
    requires !KeyReads(c, fs.files, base, desktop.keyFile, newPasscode)
    modifies desktop, fs
    ensures failed.Err? && saved.Ok?
    ensures desktop.isLoaded && desktop.passcode == newPasscode
    ensures AccountsHold(desktop.accounts, [NewAccount(0, dcId, userId, key)], desktop.localKey)
    ensures again.keyFile == desktop.keyFile && again.passcode == newPasscode
    ensures r.Ok? <==> Load(c, fs.files, base, desktop.keyFile, newPasscode).Ok?
    ensures r.Ok? && again.localKey == desktop.localKey <==> desktop.KeyStored(c)
    ensures old(!desktop.isLoaded) ==> desktop.KeyStored(c)
    ensures old(desktop.isLoaded) ==>
      && Contents(desktop, []) == old(Contents(desktop, []))
      && (KeyRefused(c, old(Contents(desktop, [])), newPasscode) ==> r.Err? && !desktop.KeyStored(c))
      && forall p :: KeyOpens(c, old(Contents(desktop, [])), p) ==>
           Load(c, fs.files, base, desktop.keyFile, p)
           == Ok(Contents(desktop, [NewAccount(0, dcId, userId, key)]))
  {
    hide Crypto.Lawful, Filling, Storable, Save, Load, KeyOpens, AccountsHold, RestoredAccount, Apart, ComesBack,
      SamePlace, Agrees, KeyReads, KeyRefused, NewAccount;
    ghost var w := NewAccount(0, dcId, userId, key);
    ghost var files := fs.files;
    NewAccountIsStorable(0, dcId, userId, key);
    OneName(c, desktop.keyFile, [w]);
    failed := FailThenAdd(c, fs, base, desktop, newPasscode, dcId, userId, key);
    KeyRefusedAlike(c, Contents(desktop, []), Contents(desktop, [w]), newPasscode);
    if KeyRefused(c, Contents(desktop, []), newPasscode) {
      RefusedIsNotStored(c, desktop);
    }
    assert desktop.accounts == [desktop.accounts[0]];
    saved, r, again := SaveThenLoad(c, fs, base, desktop, mode, Some(newPasscode), random, g, [w]);
    OpensForOne(c, files, base, desktop.keyFile, Contents(desktop, [w]), g);
  }

  lemma OpensForOne(c: Crypto, files: Files, base: Path, keyFile: string, d: Desktop, g: Garbage)
    requires c.Lawful() && Filling(g) && Savable(d) && |d.accounts| == 1
    requires RestoredAccount(d.accounts[0]) == d.accounts[0]
    ensures forall p :: KeyOpens(c, d.(accounts := []), p) ==>
              Load(c, Save(c, files, base, keyFile, d, g), base, keyFile, p) == Ok(d)
  {
    hide Storable, Save, Load, RestoredAccount, Apart, KeyOpens, Crypto.Lawful, Filling, RestoredAccounts;
    OneName(c, keyFile, d.accounts);
    OneRestored(d.accounts);
    forall p | KeyOpens(c, d.(accounts := []), p)
      ensures Load(c, Save(c, files, base, keyFile, d, g), base, keyFile, p) == Ok(d)
    {
      KeyOpensAlike(c, d.(accounts := []), d, p);
      SaveLoadRoundTrip(c, files, base, keyFile, d, p, g);
    }
  }

  lemma OneRestored(accounts: seq<AccountValue>)
    requires AllStorable(accounts) && |accounts| == 1 && RestoredAccount(accounts[0]) == accounts[0]
    ensures RestoredAccounts(accounts) == accounts
  {
    hide Storable, RestoredAccount;
  }

  // ---------- A run from a session ----------

  /** What a new local key is sealed to. */
  function FirstKey(c: Crypto, passcode: Data, random: (Data, Data, Data, Data)): Desktop
    requires c.Lawful()
  {
    var localKey := c.kdf(random.1, random.0);
    Desktop([], -1, localKey, random.2, Frame(c, localKey, c.kdf(random.2, passcode), random.3))
  }

  /** A desktop made from a session is saved under one passcode and loaded again, into the same
      object, under another one that its key does not open under. After that an account is added
      and saved under the second passcode, without an error; that passcode does not open the
      files, and the first one does. */
  method WrongPasscodeLocksOut(c: Crypto, fs: FileSystem, base: Path, mode: Mode, passcode: Data, wrong: Data,
                               dcId: int32, userId: int, key: Data, drawn: (Data, Data, Data, Data),
                               random: (Data, Data, Data, Data), g: Garbage)
    returns (saved: Result<()>, r: Result<()>, desktop: TDesktop)
    requires c.Lawful() && Filling(g) && Drawn(random)
    requires Usable(userId, key) && Sized(mode) && Drawn(drawn) && passcode != []
    requires KeyRefused(c, FirstKey(c, passcode, random), wrong)
    modifies fs
    ensures desktop.passcode == wrong && saved.Ok? && r.Err?
    ensures Load(c, fs.files, base, desktop.keyFile, wrong).Err?
    ensures Load(c, fs.files, base, desktop.keyFile, passcode)
            == Ok(Contents(desktop, [NewAccount(0, dcId, userId, key)]))
  {
    hide Crypto.Lawful, Filling, Storable, Save, Load, KeyOpens, StoredAccount.Holds, RestoredAccount, Apart,
      KeyRefused, KeyReads, Frame, Agrees, HasIndex, DistinctIndices;
    desktop := FromSession(c, mode, dcId, userId, key, drawn);
    ghost var w := NewAccount(0, dcId, userId, key);
    NewAccountIsStorable(0, dcId, userId, key);
    assert desktop.accounts == [desktop.accounts[0]];
    saved := desktop.SaveTData(c, fs, base, mode, Some(passcode), random, g, [w]);
    ghost var d := Contents(desktop, [w]);
    KeyRefusedAlike(c, FirstKey(c, passcode, random), d, wrong);
    KeyRefusedAlike(c, d, d.(accounts := []), wrong);
    SavedKeyRefused(c, old(fs.files), base, desktop.keyFile, d, wrong, g);
    KeyOpensAlike(c, Desktop([], 0, d.localKey, d.salt, d.keyEncrypted), d.(accounts := []), passcode);
    var failed, again;
    failed, saved, r, again := SaveAfterFailedLoad(c, fs, base, desktop, mode, wrong, dcId, userId, key, random, g);
  }

  lemma SavedKeyRefused(c: Crypto, files: Files, base: Path, keyFile: string, d: Desktop, passcode: Data, g: Garbage)
    requires c.Lawful() && Filling(g) && Savable(d)
    ensures KeyReads(c, Save(c, files, base, keyFile, d, g), base, keyFile, passcode) <==> !KeyRefused(c, d, passcode)
  {
    SavedKeyReads(c, files, base, keyFile, d, passcode, g);
  }

  /** Such input exists for every two passcodes: primitives that meet the laws, under which the
      one refuses every key sealed under the other. */
  lemma WrongPasscodeExists(passcode: Data, wrong: Data) returns (c: Crypto)
    requires passcode != wrong
    ensures c.Lawful() && TellsNamesApart(c)
    ensures forall random: (Data, Data, Data, Data) :: Drawn(random) ==>
              KeyRefused(c, FirstKey(c, passcode, random), wrong)
  {
    hide DecryptLocal, Frame;
    c := FlipsExists((s, p) => seq(256, _ => if p == passcode then 0 else 1));
    forall random: (Data, Data, Data, Data) | Drawn(random)
      ensures KeyRefused(c, FirstKey(c, passcode, random), wrong)
    {
      FlipClashes(c, c.kdf(random.2, passcode), c.kdf(random.2, wrong));
    }
  }
}
