/** What becomes of a load when the account list or the map of an account is not as it was saved:
    which damage is passed over, and which ends the load. */
module AccountList {
  import opened Bytes
  import opened DataStream
  import opened Storage
  import opened LocalEncryption
  import opened DataNames
  import opened Authorization
  import opened DamagedFiles
  import opened DesktopFiles

  // ---------- The list ----------

  /** One account that raises an exception that is not of the library ends the whole load. */
  lemma {:induction false} OneCrashEnds(load: int -> Result<AccountValue>, indices: seq<int32>, i: nat, rest: Data)
    requires i < |indices| && load(indices[i]) == Err(PythonError)
    ensures LoadAccounts(load, Cursor(EncodeInts(indices) + rest, true), |indices|) == Err(PythonError)
    decreases |indices|
  {
    hide BE32, ReadI32;
    var tail := EncodeInts(indices[1..]) + rest;
    assert EncodeInts(indices) + rest == BE32(Unsigned32(indices[0])) + tail;
    ReadI32Written(indices[0], tail, true);
    if load(indices[0]) != Err(PythonError) {
      OneCrashEnds(load, indices[1..], i - 1, rest);
    }
  }

  lemma StepSkips(load: int -> Result<AccountValue>, cur: Cursor, n: nat)
    requires load(ReadI32(cur).0).Err? && load(ReadI32(cur).0) != Err(PythonError)
    ensures LoadAccounts(load, cur, n + 1) == LoadAccounts(load, ReadI32(cur).1, n)
  {
    hide ReadI32;
  }

  lemma OneIndexMore(index: int32, more: seq<int32>)
    ensures EncodeInts([index] + more) == BE32(Unsigned32(index)) + EncodeInts(more)
  {
    hide BE32;
    assert ([index] + more)[1..] == more;
  }

  lemma FailureIsSkipped(load: int -> Result<AccountValue>, index: int32, more: seq<int32>, rest: Data)
    requires load(index).Err? && load(index) != Err(PythonError)
    ensures LoadAccounts(load, Cursor(EncodeInts([index] + more) + rest, true), |more| + 1)
            == LoadAccounts(load, Cursor(EncodeInts(more) + rest, true), |more|)
  {
    hide BE32, ReadI32, LoadAccounts, EncodeInts;
    var tail := EncodeInts(more) + rest;
    OneIndexMore(index, more);
    assert EncodeInts([index] + more) + rest == BE32(Unsigned32(index)) + tail;
    ReadI32Written(index, tail, true);
    StepSkips(load, Cursor(BE32(Unsigned32(index)) + tail, true), |more|);
  }

  /** An index that is not 0, 1 or 2 is passed over. */
  lemma OutOfRangeIsSkipped(c: Crypto, files: Files, base: Path, keyFile: string, key: Data, index: int32,
                            more: seq<int32>, rest: Data)
    requires c.Lawful() && !(0 <= index <= 2)
    ensures var load := Loader(c, files, base, keyFile, key);
            LoadAccounts(load, Cursor(EncodeInts([index] + more) + rest, true), |more| + 1)
            == LoadAccounts(load, Cursor(EncodeInts(more) + rest, true), |more|)
  {
    hide LoadAccounts, EncodeInts;
    FailureIsSkipped(Loader(c, files, base, keyFile, key), index, more, rest);
  }

  /** No accounts, or a negative number of them, are refused. */
  lemma NoneListed(c: Crypto, files: Files, base: Path, keyFile: string, n: int32, rest: Data, d: Desktop)
    requires c.Lawful() && n <= 0
    ensures LoadInfo(c, files, base, keyFile, Cursor(BE32(Unsigned32(n)) + rest, true), d) == Err(NoAccounts)
  {
    ReadI32Written(n, rest, true);
  }

  /** A list that ends without an active index stands for 0. */
  lemma NoActiveIsZero(c: Crypto, files: Files, base: Path, keyFile: string, n: int32, ints: Data, d: Desktop,
                       loaded: seq<AccountValue>)
    requires c.Lawful() && n > 0 && loaded != []
    requires LoadAccounts(Loader(c, files, base, keyFile, d.localKey), Cursor(ints, true), n)
             == Ok((loaded, Cursor([], true)))
    ensures LoadInfo(c, files, base, keyFile, Cursor(BE32(Unsigned32(n)) + ints, true), d)
            == Ok(d.(accounts := loaded, activeIndex := 0))
  {
    ReadI32Written(n, ints, true);
  }

  /** The MTP file holds one record: another block than 0x4B is refused, and so is an
      authorization without a key for its main data center. */
  lemma MtpOutcome(c: Crypto, files: Files, base: Path, part: string, key: Data, block: int32, record: QByteArray)
    requires c.Lawful() && record.Fits()
    requires ReadEncrypted(c, files, base, part, key) == Ok(Cursor(BE32(Unsigned32(block)) + record.Encoded(), true))
    ensures ReadMtp(c, files, base, part, key) ==
            if block != 0x4B then Err(UnsupportedVersion)
            else match ParseAuthorization(record.Contents())
                 case Err(e) => Err(e)
                 case Ok(a) => if forall i :: 0 <= i < |a.keys| ==> a.keys[i].dcId != a.mainDcId
                               then Err(AuthKeyNotFound) else Ok(a)
  {
    hide BE32, ReadI32, ParseAuthorization, QByteArray.Encoded, ReadArray;
    ReadI32Written(block, record.Encoded(), true);
    assert record.Encoded() + [] == record.Encoded();
    ReadArrayWritten(record, [], true);
  }

  /** The key file: salt, sealed local key and sealed list. What is behind them does not matter;
      a file that ends before is refused. */
  lemma KeyArraysOutcome(c: Crypto, files: Files, base: Path, keyFile: string, salt: QByteArray, sealed: QByteArray,
                         list: QByteArray, rest: Data)
    requires salt.Fits() && sealed.Fits() && list.Fits()
    ensures var file := ReadFile(c, files, base, "key_" + keyFile);
            && (file.Err? ==> KeyArrays(c, files, base, keyFile) == Err(file.error))
            && (file.Ok? && KeyArrays(c, files, base, keyFile).Err? ==>
                  KeyArrays(c, files, base, keyFile) == Err(StreamFailed))
            && (file.Ok? && file.value.data == salt.Encoded() + (sealed.Encoded() + (list.Encoded() + rest)) ==>
                  KeyArrays(c, files, base, keyFile) == Ok((salt.Contents(), sealed.Contents(), list.Contents())))
  {
    hide ReadFile, QByteArray.Encoded, ReadArray;
    ReadArrayWritten(salt, sealed.Encoded() + (list.Encoded() + rest), true);
    ReadArrayWritten(sealed, list.Encoded() + rest, true);
    ReadArrayWritten(list, rest, true);
  }

  // ---------- A map file that is not as saved ----------

  lemma CrashingMap(c: Crypto, files: Files, base: Path, keyFile: string, index: int, key: Data)
    requires c.Lawful() && 0 <= index < MAX_ACCOUNTS && Crashes(files, MapPath(c, base, keyFile, index))
    ensures LoadIndex(c, files, base, keyFile, index, key) == Err(PythonError)
  {
    hide Crashes, PassedOver, Gives, ReadFile;
    ReadFileReturns(c, files, AccountDir(c, base, keyFile, index), "map");
  }

  lemma PassedOverMap(c: Crypto, files: Files, base: Path, keyFile: string, index: int, key: Data)
    requires c.Lawful() && 0 <= index < MAX_ACCOUNTS && PassedOver(c, files, MapPath(c, base, keyFile, index))
    requires var dir := AccountDir(c, base, keyFile, index); dir + ["map1"] !in files && dir + ["map0"] !in files
    ensures LoadIndex(c, files, base, keyFile, index, key) == Err(MapReadFailed)
  {
    hide Gives, ReadFile, Reason, Crashes;
    var dir := AccountDir(c, base, keyFile, index);
    assert "map" + "1" == "map1" && "map" + "0" == "map0";
    ReadFileReturns(c, files, dir, "map");
    ReasonIsExpected(files, dir + ["map0"]);
  }

  /** A saved desktop in which the map file of one account holds something else. */
  function WithMap(c: Crypto, files: Files, base: Path, keyFile: string, index: int, content: Data): Files
    requires 0 <= index < MAX_ACCOUNTS
  {
    files[MapPath(c, base, keyFile, index) := content]
  }

  lemma OthersKept(c: Crypto, files: Files, base: Path, keyFile: string, b: Blob, index: int, content: Data, key: Data,
      g: Garbage)
    requires c.Lawful() && Filling(g) && BlobOk(b) && 0 <= index < MAX_ACCOUNTS
    requires AccountFilePart(c, keyFile, b.index) != AccountFilePart(c, keyFile, index)
    requires HasAccount(c, files, base, keyFile, b, key, g)
    ensures HasAccount(c, WithMap(c, files, base, keyFile, index, content), base, keyFile, b, key, g)
  {
    PathsApart(c, base, keyFile, b.index, index);
    PathsApart(c, base, keyFile, index, b.index);
  }

  lemma KeyKept(c: Crypto, files: Files, base: Path, keyFile: string, d: Desktop, g: Garbage, index: int, content: Data)
    requires c.Lawful() && Filling(g) && Savable(d) && 0 <= index < MAX_ACCOUNTS
    ensures KeyAsSaved(c, WithMap(c, Save(c, files, base, keyFile, d, g), base, keyFile, index, content), base, keyFile,
                       d, g)
  {
    hide Storable, KeyStream, Envelope, KeyInfo, WriteAccounts;
    PathsApart(c, base, keyFile, index, index);
  }

  /** A saved desktop in which the map file of account `m` holds this content. */
  function Broken(c: Crypto, files: Files, base: Path, keyFile: string, d: Desktop, g: Garbage, m: nat,
      content: Data): Files
    requires c.Lawful() && Filling(g) && Savable(d) && m < |d.accounts|
  {
    assert Storable(d.accounts[m]);
    WithMap(c, Save(c, files, base, keyFile, d, g), base, keyFile, d.accounts[m].index, content)
  }

  /** There are no copies of the map file under the other suffixes. */
  ghost predicate OnlyMap(c: Crypto, files: Files, base: Path, keyFile: string, index: int)
    requires 0 <= index < MAX_ACCOUNTS
  {
    var dir := AccountDir(c, base, keyFile, index);
    dir + ["map1"] !in files && dir + ["map0"] !in files
  }

  lemma InRange(d: Desktop, m: nat)
    requires Savable(d) && m < |d.accounts|
    ensures 0 <= d.accounts[m].index < MAX_ACCOUNTS
  {
    assert Storable(d.accounts[m]);
  }

  lemma BrokenIsDamage(c: Crypto, files: Files, base: Path, keyFile: string, d: Desktop, g: Garbage, m: nat,
      content: Data)
    requires c.Lawful() && Filling(g) && Savable(d) && Apart(c, keyFile, ToBlobs(d.accounts)) && m < |d.accounts|
    requires var failed := LoadIndex(c, Broken(c, files, base, keyFile, d, g, m, content), base, keyFile,
                                     d.accounts[m].index, d.localKey);
             failed.Err? && failed != Err(PythonError)
    ensures Damaged(c, Broken(c, files, base, keyFile, d, g, m, content), base, keyFile, d, g, {d.accounts[m].index})
  {
    hide Storable, Apart, SaveUnder, WithMap, HasAccount, LoadIndex, ToBlob, KeyAsSaved, Crypto.Lawful, Filling;
    InRange(d, m);
    var index := d.accounts[m].index;
    var saved := Save(c, files, base, keyFile, d, g);
    KeyKept(c, files, base, keyFile, d, g, index, content);
    SavedFiles(c, files, base, keyFile, d, d.localKey, g);
    forall i | 0 <= i < |d.accounts|
      ensures LeftOrGone(c, WithMap(c, saved, base, keyFile, index, content), base, keyFile, d.accounts[i], d.localKey,
                         g, {index})
    {
      assert Storable(d.accounts[i]);
      if i != m {
        PartsDiffer(c, keyFile, d.accounts, i, m);
        if d.accounts[i].index != index {
          assert ToBlob(d.accounts[i]).index == d.accounts[i].index;
          OthersKept(c, saved, base, keyFile, ToBlob(d.accounts[i]), index, content, d.localKey, g);
        }
      }
    }
  }

  lemma BrokenIsPassedOver(c: Crypto, files: Files, base: Path, keyFile: string, d: Desktop, g: Garbage, m: nat,
                           content: Data)
    requires c.Lawful() && Filling(g) && Savable(d) && m < |d.accounts| && 0 <= d.accounts[m].index < MAX_ACCOUNTS
    requires !SomeSealed(c, content) && (Magical(content) ==> SizeFits(content))
    requires OnlyMap(c, Save(c, files, base, keyFile, d, g), base, keyFile, d.accounts[m].index)
    ensures LoadIndex(c, Broken(c, files, base, keyFile, d, g, m, content), base, keyFile, d.accounts[m].index,
                      d.localKey) == Err(MapReadFailed)
  {
    hide Storable, Save, LoadIndex, SomeSealed, Magical, SizeFits, Crypto.Lawful, Filling;
    var index := d.accounts[m].index;
    var dir := AccountDir(c, base, keyFile, index);
    assert MapPath(c, base, keyFile, index) == dir + ["maps"] by {
      assert "map" + "s" == "maps";
    }
    assert (dir + ["maps"])[|dir|] == "maps" && (dir + ["map1"])[|dir|] == "map1" && (dir + ["map0"])[|dir|] == "map0";
    assert "maps"[3] == 's' && "map1"[3] == '1' && "map0"[3] == '0';
    PassedOverMap(c, Broken(c, files, base, keyFile, d, g, m, content), base, keyFile, index, d.localKey);
  }

  lemma BrokenCrashes(c: Crypto, files: Files, base: Path, keyFile: string, d: Desktop, passcode: Data, g: Garbage,
                      m: nat, content: Data)
    requires c.Lawful() && Filling(g) && Savable(d) && KeyOpens(c, d, passcode) && m < |d.accounts|
    requires Magical(content) && !SizeFits(content)
    ensures Load(c, Broken(c, files, base, keyFile, d, g, m, content), base, keyFile, passcode) == Err(PythonError)
  {
    hide Storable, Save, LoadIndex, KeyAsSaved, Load, KeyOpens, Crypto.Lawful, Filling, Magical, SizeFits;
    InRange(d, m);
    var broken := Broken(c, files, base, keyFile, d, g, m, content);
    CrashingMap(c, broken, base, keyFile, d.accounts[m].index, d.localKey);
    KeyKept(c, files, base, keyFile, d, g, d.accounts[m].index, content);
    CrashEndsLoad(c, broken, base, keyFile, d, passcode, g, m);
  }

  /** The map file of one account holds something that is no file of this format. If it lacks
      the magic, or has it and a size that fits but the wrong checksum, the load leaves this
      account out. If it has the magic and its size does not fit, the load fails for all. */
  lemma BrokenMap(c: Crypto, files: Files, base: Path, keyFile: string, d: Desktop, passcode: Data, g: Garbage, m: nat,
                  content: Data)
    requires c.Lawful() && Filling(g) && Savable(d) && Apart(c, keyFile, ToBlobs(d.accounts))
    requires KeyOpens(c, d, passcode)
    requires m < |d.accounts| && 0 <= d.accounts[m].index < MAX_ACCOUNTS && !SomeSealed(c, content)
    requires OnlyMap(c, Save(c, files, base, keyFile, d, g), base, keyFile, d.accounts[m].index)
    ensures AllStorable(Remaining(d.accounts, {d.accounts[m].index}))
    ensures var left := Remaining(d.accounts, {d.accounts[m].index});
            Load(c, Broken(c, files, base, keyFile, d, g, m, content), base, keyFile, passcode)
            == if Magical(content) && !SizeFits(content) then Err(PythonError)
               else if left == [] then Err(NoAccounts)
               else Ok(d.(accounts := RestoredAccounts(left)))
  {
    hide Storable, Apart, LoadIndex, Load, KeyOpens, Crypto.Lawful, Filling, Damaged, Remaining, SomeSealed, Broken,
      OnlyMap, Magical, SizeFits, RestoredAccounts;
    StorableRemaining(d.accounts, {d.accounts[m].index});
    if Magical(content) && !SizeFits(content) {
      BrokenCrashes(c, files, base, keyFile, d, passcode, g, m, content);
    } else {
      BrokenIsPassedOver(c, files, base, keyFile, d, g, m, content);
      BrokenIsDamage(c, files, base, keyFile, d, g, m, content);
      LoadsRemaining(c, Broken(c, files, base, keyFile, d, g, m, content), base, keyFile, d, passcode, g,
                     {d.accounts[m].index});
    }
  }

  lemma CrashEndsLoad(c: Crypto, files: Files, base: Path, keyFile: string, d: Desktop, passcode: Data, g: Garbage,
                      m: nat)
    requires c.Lawful() && Filling(g) && Savable(d) && KeyOpens(c, d, passcode) && m < |d.accounts|
    requires KeyAsSaved(c, files, base, keyFile, d, g)
    requires LoadIndex(c, files, base, keyFile, d.accounts[m].index, d.localKey) == Err(PythonError)
    ensures Load(c, files, base, keyFile, passcode) == Err(PythonError)
  {
    KeyInfoSize(d);
    hide Storable, LoadIndex, LoadAccounts, HasKeyFile, LoadInfo, Load, Crypto.Lawful, Filling;
    KeyFileOpens(c, files, base, keyFile, d.salt, d.keyEncrypted, KeyInfo(d), d.localKey, passcode, g);
    var last := BE32(Unsigned32(d.activeIndex));
    OneCrashEnds(Loader(c, files, base, keyFile, d.localKey), Indices(d.accounts), m, last);
    InfoCrashes(c, files, base, keyFile, Desktop([], 0, d.localKey, d.salt, d.keyEncrypted), |d.accounts|,
                EncodeInts(Indices(d.accounts)), d.activeIndex);
  }

  lemma InfoCrashes(c: Crypto, files: Files, base: Path, keyFile: string, d: Desktop, n: int32, ints: Data,
                    active: int32)
    requires c.Lawful() && n > 0
    requires LoadAccounts(Loader(c, files, base, keyFile, d.localKey), Cursor(ints + BE32(Unsigned32(active)), true), n)
             == Err(PythonError)
    ensures LoadInfo(c, files, base, keyFile, Cursor(BE32(Unsigned32(n)) + ints + BE32(Unsigned32(active)), true), d)
            == Err(PythonError)
  {
    var last := BE32(Unsigned32(active));
    assert BE32(Unsigned32(n)) + ints + last == BE32(Unsigned32(n)) + (ints + last);
    ReadI32Written(n, ints + last, true);
  }
}
