/** Loading a saved desktop of which some accounts have become unreadable: those are left out
    and everything else comes back. */
module DamagedFiles {
  import opened Bytes
  import opened DataStream
  import opened Storage
  import opened DataNames
  import opened DesktopFiles

  /** Every file the reader would try for the map of an account. */
  function MapCandidates(c: Crypto, base: Path, keyFile: string, index: int): set<Path>
    requires 0 <= index < MAX_ACCOUNTS
  {
    set i | 0 <= i < 3 :: AccountDir(c, base, keyFile, index) + ["map" + SUFFIXES[i]]
  }

  /** The files without the maps of the accounts with these indices. */
  function WithoutMaps(c: Crypto, files: Files, base: Path, keyFile: string, gone: set<int>): Files {
    files - set index, path |
              index in gone && 0 <= index < MAX_ACCOUNTS && path in MapCandidates(c, base, keyFile, index) :: path
  }

  /** Every one of these indices is that of an account. */
  predicate Listed(gone: set<int>, accounts: seq<AccountValue>) {
    forall index :: index in gone ==> exists m :: 0 <= m < |accounts| && accounts[m].index == index
  }

  lemma NoFileFound(c: Crypto, files: Files, basePath: Path, fileName: string)
    requires forall i :: 0 <= i < 3 ==> basePath + [fileName + SUFFIXES[i]] !in files
    ensures ReadFile(c, files, basePath, fileName) == Err(FileNotFound)
  {
    assert SUFFIXES[1..] == ["1", "0"] && SUFFIXES[1..][1..] == ["0"] && SUFFIXES[1..][1..][1..] == [];
    assert basePath + [fileName + SUFFIXES[0]] !in files && basePath + [fileName + SUFFIXES[1]] !in files;
    assert basePath + [fileName + SUFFIXES[2]] !in files;
    var e := FileNotFound;
    assert ReadFile(c, files, basePath, fileName) == ReadFrom(c, files, basePath, fileName, ["1", "0"], e);
    assert ReadFrom(c, files, basePath, fileName, ["1", "0"], e) == ReadFrom(c, files, basePath, fileName, ["0"], e);
  }

  lemma AccountFails(c: Crypto, files: Files, base: Path, keyFile: string, gone: set<int>, index: int, key: Data)
    requires c.Lawful() && index in gone && 0 <= index < MAX_ACCOUNTS
    ensures LoadIndex(c, WithoutMaps(c, files, base, keyFile, gone), base, keyFile, index, key) == Err(MapReadFailed)
  {
    var left, dir := WithoutMaps(c, files, base, keyFile, gone), AccountDir(c, base, keyFile, index);
    forall i | 0 <= i < 3 ensures dir + ["map" + SUFFIXES[i]] !in left {
      assert dir + ["map" + SUFFIXES[i]] in MapCandidates(c, base, keyFile, index);
    }
    NoFileFound(c, left, dir, "map");
  }

  /** The candidates are files of their account alone. */
  lemma CandidatesApart(c: Crypto, base: Path, keyFile: string, i: int, j: int)
    requires 0 <= i < MAX_ACCOUNTS && 0 <= j < MAX_ACCOUNTS
    requires AccountFilePart(c, keyFile, i) != AccountFilePart(c, keyFile, j)
    ensures MapPath(c, base, keyFile, i) !in MapCandidates(c, base, keyFile, j)
    ensures MtpPath(c, base, keyFile, i) !in MapCandidates(c, base, keyFile, j)
    ensures KeyPath(base, keyFile) !in MapCandidates(c, base, keyFile, j)
  {
    var n := |base|;
    assert MapPath(c, base, keyFile, i)[n] == AccountFilePart(c, keyFile, i);
    forall path | path in MapCandidates(c, base, keyFile, j)
      ensures |path| == n + 2 && path[n] == AccountFilePart(c, keyFile, j)
    {
      var k :| 0 <= k < 3 && path == AccountDir(c, base, keyFile, j) + ["map" + SUFFIXES[k]];
    }
  }

  lemma OthersLeft(c: Crypto, files: Files, base: Path, keyFile: string, b: Blob, gone: set<int>, key: Data, g: Garbage)
    requires c.Lawful() && Filling(g) && BlobOk(b) && HasAccount(c, files, base, keyFile, b, key, g)
    requires forall index :: index in gone && 0 <= index < MAX_ACCOUNTS ==>
               AccountFilePart(c, keyFile, b.index) != AccountFilePart(c, keyFile, index)
    ensures HasAccount(c, WithoutMaps(c, files, base, keyFile, gone), base, keyFile, b, key, g)
  {
    hide MapFile, MtpFile, MapCandidates;
    forall index | index in gone && 0 <= index < MAX_ACCOUNTS
      ensures MapPath(c, base, keyFile, b.index) !in MapCandidates(c, base, keyFile, index)
      ensures MtpPath(c, base, keyFile, b.index) !in MapCandidates(c, base, keyFile, index)
    {
      CandidatesApart(c, base, keyFile, b.index, index);
    }
  }

  // ---------- The account loop with failures ----------

  /** What the loop keeps of the results of loading each index. */
  function Loaded(results: seq<Result<AccountValue>>): seq<AccountValue> {
    if results == [] then []
    else (if results[0].Ok? then [results[0].value] else []) + Loaded(results[1..])
  }

  /** The account loop, when each index in the list loads or fails as the library expects. */
  lemma {:induction false} IndicesLoad(load: int -> Result<AccountValue>, indices: seq<int32>,
      results: seq<Result<AccountValue>>, rest: Data)
    requires |indices| == |results|
    requires forall i :: 0 <= i < |indices| ==> load(indices[i]) == results[i] && results[i] != Err(PythonError)
    ensures LoadAccounts(load, Cursor(EncodeInts(indices) + rest, true), |indices|)
            == Ok((Loaded(results), Cursor(rest, true)))
  {
    hide BE32, ReadI32;
    if indices == [] {
      assert EncodeInts(indices) + rest == rest;
    } else {
      var tail := EncodeInts(indices[1..]) + rest;
      assert EncodeInts(indices) + rest == BE32(Unsigned32(indices[0])) + tail;
      ReadI32Written(indices[0], tail, true);
      IndicesLoad(load, indices[1..], results[1..], rest);
      assert [] + Loaded(results[1..]) == Loaded(results[1..]);
    }
  }

  /** The accounts whose index is not among the ones that are gone. */
  function Remaining(accounts: seq<AccountValue>, gone: set<int>): (r: seq<AccountValue>)
    ensures forall a :: a in r <==> a in accounts && a.index !in gone
  {
    if accounts == [] then []
    else (if accounts[0].index in gone then [] else [accounts[0]]) + Remaining(accounts[1..], gone)
  }

  lemma StorableRemaining(accounts: seq<AccountValue>, gone: set<int>)
    requires AllStorable(accounts)
    ensures AllStorable(Remaining(accounts, gone))
  {
    hide Storable;
    var r := Remaining(accounts, gone);
    forall i | 0 <= i < |r| ensures Storable(r[i]) {
      assert r[i] in accounts;
    }
  }

  lemma {:induction false} LoadedRemaining(accounts: seq<AccountValue>, results: seq<Result<AccountValue>>,
      gone: set<int>)
    requires AllStorable(accounts) && |results| == |accounts|
    requires forall i :: 0 <= i < |accounts| ==>
               if accounts[i].index in gone then results[i].Err? else results[i] == Ok(RestoredAccount(accounts[i]))
    ensures AllStorable(Remaining(accounts, gone))
    ensures Loaded(results) == RestoredAccounts(Remaining(accounts, gone))
  {
    hide Storable, RestoredAccount;
    StorableRemaining(accounts, gone);
    if accounts != [] {
      LoadedRemaining(accounts[1..], results[1..], gone);
      var rest := Remaining(accounts[1..], gone);
      if accounts[0].index in gone {
        assert [] + rest == rest;
      } else {
        assert RestoredAccounts([accounts[0]] + rest) == [RestoredAccount(accounts[0])] + RestoredAccounts(rest);
      }
    }
  }

  // ---------- The whole load ----------

  /** An account that is gone fails to load with an error of the library; any other one has
      its files as saved. */
  ghost predicate LeftOrGone(c: Crypto, files: Files, base: Path, keyFile: string, a: AccountValue, key: Data,
                             g: Garbage, gone: set<int>)
    requires c.Lawful() && Filling(g) && Storable(a)
  {
    if a.index in gone then
      var failed := LoadIndex(c, files, base, keyFile, a.index, key);
      failed.Err? && failed != Err(PythonError)
    else HasAccount(c, files, base, keyFile, ToBlob(a), key, g)
  }

  ghost predicate KeyAsSaved(c: Crypto, files: Files, base: Path, keyFile: string, d: Desktop, g: Garbage)
    requires c.Lawful() && Filling(g) && Savable(d)
  {
    KeyInfoSize(d);
    HasKeyFile(c, files, base, keyFile, d.salt, d.keyEncrypted, KeyInfo(d), d.localKey, g)
  }

  /** Files in which the key file and the accounts that are not gone are as saved, while each
      account that is gone fails to load. */
  ghost predicate Damaged(c: Crypto, files: Files, base: Path, keyFile: string, d: Desktop, g: Garbage, gone: set<int>)
    requires c.Lawful() && Filling(g) && Savable(d)
  {
    && KeyAsSaved(c, files, base, keyFile, d, g)
    && forall i :: 0 <= i < |d.accounts| ==> LeftOrGone(c, files, base, keyFile, d.accounts[i], d.localKey, g, gone)
  }

  lemma InfoEmpty(c: Crypto, files: Files, base: Path, keyFile: string, d: Desktop, n: int32, ints: Data, active: int32)
    requires c.Lawful() && n > 0
    requires LoadAccounts(Loader(c, files, base, keyFile, d.localKey), Cursor(ints + BE32(Unsigned32(active)), true), n)
             == Ok(([], Cursor(BE32(Unsigned32(active)), true)))
    ensures LoadInfo(c, files, base, keyFile, Cursor(BE32(Unsigned32(n)) + ints + BE32(Unsigned32(active)), true), d)
            == Err(NoAccounts)
  {
    var last := BE32(Unsigned32(active));
    assert BE32(Unsigned32(n)) + ints + last == BE32(Unsigned32(n)) + (ints + last);
    ReadI32Written(n, ints + last, true);
  }

  lemma DamagedAccounts(c: Crypto, files: Files, base: Path, keyFile: string, d: Desktop, g: Garbage, gone: set<int>)
    requires c.Lawful() && Filling(g) && Savable(d) && Damaged(c, files, base, keyFile, d, g, gone)
    ensures AllStorable(Remaining(d.accounts, gone))
    ensures var last := BE32(Unsigned32(d.activeIndex));
            LoadAccounts(Loader(c, files, base, keyFile, d.localKey),
                         Cursor(EncodeInts(Indices(d.accounts)) + last, true), |d.accounts|)
            == Ok((RestoredAccounts(Remaining(d.accounts, gone)), Cursor(last, true)))
  {
    hide Storable, RestoredAccount, HasAccount, LoadIndex, ToBlob, LoadAccounts, HasKeyFile, KeyInfo;
    var load, indices := Loader(c, files, base, keyFile, d.localKey), Indices(d.accounts);
    var results := seq(|indices|, i requires 0 <= i < |indices| => load(indices[i]));
    forall i | 0 <= i < |d.accounts|
      ensures results[i] != Err(PythonError)
      ensures if d.accounts[i].index in gone then results[i].Err? else results[i] == Ok(RestoredAccount(d.accounts[i]))
    {
      assert Storable(d.accounts[i]) && LeftOrGone(c, files, base, keyFile, d.accounts[i], d.localKey, g, gone);
      assert results[i] == LoadIndex(c, files, base, keyFile, d.accounts[i].index, d.localKey);
      if d.accounts[i].index !in gone {
        IndexComesBack(c, files, base, keyFile, d.accounts[i], d.localKey, g);
      }
    }
    IndicesLoad(load, indices, results, BE32(Unsigned32(d.activeIndex)));
    LoadedRemaining(d.accounts, results, gone);
  }

  /** Loading damaged files: the accounts that are left, in order, and all the rest as saved;
      refused exactly if none is left. */
  lemma LoadsRemaining(c: Crypto, files: Files, base: Path, keyFile: string, d: Desktop, passcode: Data, g: Garbage,
                       gone: set<int>)
    requires c.Lawful() && Filling(g) && Savable(d) && KeyOpens(c, d, passcode)
    requires Damaged(c, files, base, keyFile, d, g, gone)
    ensures AllStorable(Remaining(d.accounts, gone))
    ensures Load(c, files, base, keyFile, passcode)
            == if Remaining(d.accounts, gone) == [] then Err(NoAccounts)
               else Ok(d.(accounts := RestoredAccounts(Remaining(d.accounts, gone))))
  {
    KeyInfoSize(d);
    DamagedAccounts(c, files, base, keyFile, d, g, gone);
    hide Storable, RestoredAccount, HasAccount, LoadIndex, ToBlob, LoadAccounts, HasKeyFile, LoadInfo, Load, Loader;
    KeyFileOpens(c, files, base, keyFile, d.salt, d.keyEncrypted, KeyInfo(d), d.localKey, passcode, g);
    var e, left := Desktop([], 0, d.localKey, d.salt, d.keyEncrypted), RestoredAccounts(Remaining(d.accounts, gone));
    if left == [] {
      InfoEmpty(c, files, base, keyFile, e, |d.accounts|, EncodeInts(Indices(d.accounts)), d.activeIndex);
    } else {
      InfoReads(c, files, base, keyFile, e, |d.accounts|, EncodeInts(Indices(d.accounts)), left, d.activeIndex);
    }
  }

  // ---------- Missing maps ----------

  lemma PartsDiffer(c: Crypto, keyFile: string, accounts: seq<AccountValue>, i: nat, m: nat)
    requires AllStorable(accounts) && Apart(c, keyFile, ToBlobs(accounts)) && i < |accounts| && m < |accounts| && i != m
    ensures 0 <= accounts[i].index < MAX_ACCOUNTS && 0 <= accounts[m].index < MAX_ACCOUNTS
    ensures AccountFilePart(c, keyFile, accounts[i].index) != AccountFilePart(c, keyFile, accounts[m].index)
  {
    hide Storable, Apart;
    var blobs := ToBlobs(accounts);
    assert blobs[i].index == accounts[i].index && blobs[m].index == accounts[m].index;
    if i < m {
      PartsApart(c, keyFile, blobs, i, m);
    } else {
      PartsApart(c, keyFile, blobs, m, i);
    }
  }

  lemma KeyStays(c: Crypto, files: Files, base: Path, keyFile: string, gone: set<int>)
    requires KeyPath(base, keyFile) in files
    ensures KeyPath(base, keyFile) in WithoutMaps(c, files, base, keyFile, gone)
    ensures WithoutMaps(c, files, base, keyFile, gone)[KeyPath(base, keyFile)] == files[KeyPath(base, keyFile)]
  {
    var n := |base|;
    forall index, path | 0 <= index < MAX_ACCOUNTS && path in MapCandidates(c, base, keyFile, index)
      ensures |path| == n + 2
    {
      var k :| 0 <= k < 3 && path == AccountDir(c, base, keyFile, index) + ["map" + SUFFIXES[k]];
    }
  }

  lemma OneLeft(c: Crypto, files: Files, base: Path, keyFile: string, accounts: seq<AccountValue>, i: nat,
                gone: set<int>, key: Data, g: Garbage)
    requires c.Lawful() && Filling(g) && AllStorable(accounts) && Apart(c, keyFile, ToBlobs(accounts)) && i < |accounts|
    requires Listed(gone, accounts)
    requires accounts[i].index !in gone && HasAccount(c, files, base, keyFile, ToBlob(accounts[i]), key, g)
    ensures HasAccount(c, WithoutMaps(c, files, base, keyFile, gone), base, keyFile, ToBlob(accounts[i]), key, g)
  {
    hide Storable, HasAccount, WithoutMaps, Apart;
    var blob := ToBlob(accounts[i]);
    forall index | index in gone && 0 <= index < MAX_ACCOUNTS
      ensures AccountFilePart(c, keyFile, blob.index) != AccountFilePart(c, keyFile, index)
    {
      var m :| 0 <= m < |accounts| && accounts[m].index == index;
      PartsDiffer(c, keyFile, accounts, i, m);
    }
    OthersLeft(c, files, base, keyFile, blob, gone, key, g);
  }

  lemma LeftOrGoneAfter(c: Crypto, saved: Files, base: Path, keyFile: string, accounts: seq<AccountValue>, i: nat,
                        gone: set<int>, key: Data, g: Garbage)
    requires c.Lawful() && Filling(g) && AllStorable(accounts) && Apart(c, keyFile, ToBlobs(accounts)) && i < |accounts|
    requires Listed(gone, accounts) && HasAccount(c, saved, base, keyFile, ToBlob(accounts[i]), key, g)
    ensures LeftOrGone(c, WithoutMaps(c, saved, base, keyFile, gone), base, keyFile, accounts[i], key, g, gone)
  {
    hide Storable, LoadIndex, WithoutMaps, Apart, HasAccount, Crypto.Lawful, Filling;
    if accounts[i].index in gone {
      assert ToBlob(accounts[i]).index == accounts[i].index;
      AccountFails(c, saved, base, keyFile, gone, accounts[i].index, key);
    } else {
      OneLeft(c, saved, base, keyFile, accounts, i, gone, key, g);
    }
  }

  lemma KeyAsSavedAfter(c: Crypto, files: Files, base: Path, keyFile: string, d: Desktop, g: Garbage, gone: set<int>)
    requires c.Lawful() && Filling(g) && Savable(d)
    ensures KeyAsSaved(c, WithoutMaps(c, Save(c, files, base, keyFile, d, g), base, keyFile, gone), base, keyFile, d, g)
  {
    hide Storable, WithoutMaps, KeyStream, Envelope, KeyInfo, WriteAccounts;
    KeyStays(c, Save(c, files, base, keyFile, d, g), base, keyFile, gone);
  }

  lemma MissingMapsDamage(c: Crypto, files: Files, base: Path, keyFile: string, d: Desktop, g: Garbage, gone: set<int>)
    requires c.Lawful() && Filling(g) && Savable(d) && Apart(c, keyFile, ToBlobs(d.accounts))
    requires Listed(gone, d.accounts)
    ensures Damaged(c, WithoutMaps(c, Save(c, files, base, keyFile, d, g), base, keyFile, gone), base, keyFile, d, g,
                    gone)
  {
    hide Storable, LeftOrGone, WithoutMaps, SaveUnder, Apart, HasAccount, KeyAsSaved, Crypto.Lawful, Filling;
    var saved := Save(c, files, base, keyFile, d, g);
    KeyAsSavedAfter(c, files, base, keyFile, d, g, gone);
    SavedFiles(c, files, base, keyFile, d, d.localKey, g);
    forall i | 0 <= i < |d.accounts|
      ensures LeftOrGone(c, WithoutMaps(c, saved, base, keyFile, gone), base, keyFile, d.accounts[i], d.localKey, g,
                         gone)
    {
      LeftOrGoneAfter(c, saved, base, keyFile, d.accounts, i, gone, d.localKey, g);
    }
  }

  /** A saved desktop after the map files of any of its accounts are gone. */
  lemma LoadsWithoutMaps(c: Crypto, files: Files, base: Path, keyFile: string, d: Desktop, passcode: Data, g: Garbage,
                         gone: set<int>)
    requires c.Lawful() && Filling(g) && Savable(d) && Apart(c, keyFile, ToBlobs(d.accounts))
    requires KeyOpens(c, d, passcode)
    requires Listed(gone, d.accounts)
    ensures AllStorable(Remaining(d.accounts, gone))
    ensures Load(c, WithoutMaps(c, Save(c, files, base, keyFile, d, g), base, keyFile, gone), base, keyFile, passcode)
            == if Remaining(d.accounts, gone) == [] then Err(NoAccounts)
               else Ok(d.(accounts := RestoredAccounts(Remaining(d.accounts, gone))))
  {
    var saved := Save(c, files, base, keyFile, d, g);
    MissingMapsDamage(c, files, base, keyFile, d, g, gone);
    hide Damaged, Load, Save, Storable, RestoredAccount, WithoutMaps;
    LoadsRemaining(c, WithoutMaps(c, saved, base, keyFile, gone), base, keyFile, d, passcode, g, gone);
  }
}
