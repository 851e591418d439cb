# Verified model of the Telegram channel parser

A Dafny model of the parts of the parser that hold state and arithmetic, with proofs of what they
promise. Three subjects, in layers:

**The tdata codec** (`Bytes`, `DataStream`, `Storage`, `LocalEncryption`, `DataNames`, `Authorization`,
`MapRecords`, `MapFormat`, `AccountMap`, `MapObject`, `DesktopFiles`, `Layout`, `DamagedFiles`, `AccountList`,
`TDesktop`, `MainAccount`, `StaleKey`, `PerformanceMode`, `SharedIndices`, `FlipCipher`). Telegram Desktop's files: a list of accounts in a key file, and per
account a map file and an MTP file; in them big-endian Qt streams (version Qt 5.1); around each record a padded, hashed and encrypted frame; around that an envelope with an MD5
trailer. Streams, descriptors, map, account and desktop are classes whose methods follow the source;
each is proved against a specification on values, and the laws are proved of the specification. The main
result is `DesktopFiles.SaveLoadRoundTrip`: saving and loading undo each other; `MainAccount.SaveThenLoad`
states it of the objects, with the exact conditions for the key and for the main account. The file system is a map
from paths (lists of components) to bytes. MD5, SHA-1, key derivation, AES-IGE and the hash behind data
names are function values of a `Crypto` record; `Lawful` asks of them digest sizes and that decryption
and encryption undo each other on lengths divisible by 16, and `Storage.LawfulExists` shows that the
laws can be met.

**The account lease** (`Clock`, `Lease`, `SessionStorage`). Workers on many hosts share accounts through an
append-only usage log. `Lease` is a transition system over any number of workers and accounts: acquiring,
connecting, loop iterations, flood waits, bans, exits, crashes and the passing of time are steps.
`SessionStorage` ties the polling loop and the exit paths to these steps.

**Tasks and messages** (`Schedule`, `Claims`, `Scheduler`, `Buckets`, `AddTask`, `Messages`,
`MessageStore`, `Channels`). When a task is due and what is promised about it; claiming transactions whose
clock reading, locking select, inserts and commit interleave; the balance of the minute buckets; racing
insertions of one URL; folding messages into albums and albums into the message store; one task per
channel. Times are whole seconds of UTC, as the database's time stamps are.

Check everything with `dafny verify dfyconfig.toml`. Proofs use `hide` to keep definitions out of goals
that do not need them.

## What the proofs show against expectation

Each of these is proved, with the exact condition or a concrete run.

- The lease needs strictly less than thirty minutes for connecting, the last iteration and the exit: at
  exactly thirty minutes `account_lock_hours - 0.5` no longer suffices (`Lease.LeaseIsSafeIff`).
- The availability query orders by `created_at` alone. The column has second precision, and a release and
  the next acquisition within one second let a second holder in (`Lease.TiedRunBreaks`).
- A ban is lost if the holder dies between raising and committing it: the account is available again exactly
  from the end of the lease (`Lease.UncommittedBanIsLost`); otherwise it is never handed out
  (`Lease.BannedIsNeverHandedOut`).
- `calculate_next_run` is never too late but can be too early: for a task added or parsed within the hour
  before its minute, for a task claimed by `GetTasks`, and for `SKIP` tasks, which get a time and are never
  selected (`Schedule.NextRunIsExact`); `Schedule.ClaimPromiseIsExact` says which
  hour boundaries during a claim make its promise wrong.
- The map loses four file keys, not two: besides the web view tokens also the two legacy background keys,
  for which no record is ever written. Not-read flags come back as true for every draft
  (`AccountMap.MapRoundTripExact`).
- User ids are read unsigned (`Authorization.AuthorizationRoundTrip`), and the test for wide ids depends on
  the second word alone (`Authorization.WideExactlyOnMinusOne`).
- On a big-endian host the checksum covers the stream only if every length word is a byte palindrome
  (`Storage.ChecksumCoversStream`).
- The main account does not always come back from a save and a fresh load: it does exactly if it is the
  account that the active index puts there (`MainAccount.SaveThenLoad`). An added account that is the first
  with the active index breaks this (`TDesktop.OneMoreAgrees`, run in `MainAccount.MainMoves`).
- A reload that finds no account with the active index keeps the main account of the earlier load, an
  object that is not in the list of the new ones (`MainAccount.LoadAgain`, run in
  `MainAccount.ReloadLosesMain`).
- A load with a wrong passcode fails but leaves the object loaded, under that passcode and with an empty list. Saving
  under that passcode afterwards raises nothing and writes files that it does not open: the key is not renewed, since
  the passcode looks unchanged (`StaleKey.SaveAfterFailedLoad`, run in `StaleKey.WrongPasscodeLocksOut`).
- In performance mode, which is the default, a save without a passcode that renews the key leaves the accounts with
  the key they had. Removing the passcode of a desktop this way writes files of which no account loads
  (`PerformanceMode.SaveWithPreset`, run in `PerformanceMode.PasscodeRemoved`), and an account made without
  an owner cannot be saved at all (`PerformanceMode.OwnDesktop`).
- An added account takes the number of accounts as its index even if an account has it, which happens after a
  load that lost one. Both then have the same files, and saving overwrites the earlier account
  (`TDesktop.AddFromTelethon`, `SharedIndices.AddedOverwrites`, run in `SharedIndices.LostAccountOverwritten`).
- What was saved and loaded cannot always be saved again: a map of web view tokens alone comes back empty, and
  a negative user id comes back too large (`DesktopFiles.StorableAgainIff`).
- A map file that starts with the magic but is too short for a checksum raises an exception that is not of the
  library, and that ends the load of all accounts; any other damage to it costs one account
  (`Storage.ExamineCrashesIff`, `AccountList.BrokenMap`).
- Two workers between the duplicate check and the save leave two idle tasks for one channel
  (`Channels.InterleavedChecksBreak`); `Channels.SaveKeepsIff` says exactly when a save is safe.

## Model

| member | source | states |
|---|---|---|
| `DataStream.ReadArrayWritten` | components/parser/opentele/td/storage.py:163-168 | `>>` undoes `<<` for every byte array, the null one included, and leaves the stream exactly behind it |
| `DataStream.ReadThreeWritten` | components/parser/opentele/td/tdesktop.py:411 | three arrays written in a row are read back one by one |
| `DataStream.Stream.ReadByteArray` | components/parser/opentele/td/tdesktop.py:411 | reading an array from the stream object advances position and status as the cursor specification says; a truncated array comes back empty |
| `DataStream.Stream.WriteByteArray` | components/parser/opentele/td/storage.py:166 | writing at the end appends the length word and the contents |
| `Storage.SwappedLittleIsBig` | components/parser/opentele/td/storage.py:169-182 | the little-endian bytes of a length word after `qbswap` are its big-endian bytes, for every 32-bit word |
| `Storage.ChecksumCoversStream` | components/parser/opentele/td/storage.py:163-184 | after any sequence of `writeData` calls the checksum input equals the stream bytes if and only if the host is little-endian or no length word changes under byte reversal; their sizes always agree |
| `Storage.FileContentIsEnvelope` | components/parser/opentele/td/storage.py:189-202 | on a little-endian host `finish` writes magic, version, stream bytes and the MD5 of bytes, size, version and magic |
| `Storage.FileWriteDescriptor.WriteData` | components/parser/opentele/td/storage.py:163-184 | appends one array to the stream; keeps `fullSize` equal to the stream length and the checksum input equal to what the writes so far require |
| `Storage.FileWriteDescriptor.Finish` | components/parser/opentele/td/storage.py:189-202 | writes the file once under the name with suffix `s`; a second call changes nothing |
| `Storage.ReadFileLoop` | components/parser/opentele/td/storage.py:250-313 | tries the suffixes `s`, `1`, `0` in order and reports the last rejection |
| `Storage.ExamineAcceptsEnvelopes` | components/parser/opentele/td/storage.py:268-309 | a file is accepted with a version and data if and only if it is the envelope of exactly these |
| `Storage.ReadFileReturns` | components/parser/opentele/td/storage.py:250-313 | over every file system, with the suffixes `s`, `1`, `0`: a candidate that is missing, lacks the magic, or has it with a size that fits and the wrong checksum is passed over; the first other one decides, by its contents if it is magic, version, data and their MD5, and else by an exception that is not of the library; if all are passed over, the reason of the last is reported |
| `Storage.ExamineCrashesIff` | components/parser/opentele/td/storage.py:268-285 | an exception that is not of the library if and only if the content has the magic and its size is below 24 or does not fit four bytes without version and checksum |
| `Storage.WrittenFileReadsBack` | components/parser/opentele/td/storage.py:163-313 | every sequence of `writeData` calls and a `finish` reads back with its version and bytes, whatever other files exist |
| `LocalEncryption.PadLength` | components/parser/opentele/td/storage.py:213-217 | padding reaches the next multiple of 16 with fewer than 16 bytes |
| `LocalEncryption.PrepareEncrypted` | components/parser/opentele/td/storage.py:204-231 | produces the frame of the bytes written to the descriptor for any padding bytes; a descriptor of size 0 never opened its stream and the cipher refuses its 4 bytes |
| `LocalEncryption.DecryptLocalSteps` | components/parser/opentele/td/storage.py:496-534 | the reader in steps, with every size check, returns a stream positioned behind the 4-byte header |
| `LocalEncryption.DecryptUndoesPrepare` | components/parser/opentele/td/storage.py:204-534 | a frame opens under its key for payloads of any length and any padding bytes: no size check can fail |
| `LocalEncryption.OnlyFramesDecrypt` | components/parser/opentele/td/storage.py:496-534 | a message opens to a payload if and only if it is the frame of that payload under some padding of the length the writer uses |
| `LocalEncryption.DecryptOutcome` | components/parser/opentele/td/storage.py:496-534 | which message is refused for its size, which for its hash, which for its length word, and what is returned of every other one |
| `LocalEncryption.ReadEncryptedFile` | components/parser/opentele/td/storage.py:315-347 | reads a file and decrypts its first array |
| `LocalEncryption.EncryptedFileRoundTrip` | components/parser/opentele/td/storage.py:204-347 | a frame written as the only array of a file comes back from that file |
| `DataNames.ToFilePartLoop` | components/parser/opentele/td/storage.py:549-559 | the loop yields the 16 low nibbles, least significant first |
| `DataNames.ToFilePartInjective` | components/parser/opentele/td/storage.py:549-559 | two keys get the same file name if and only if they agree on their low 64 bits |
| `Authorization.WideExactlyOnMinusOne` | components/parser/opentele/td/account.py:856-861 | `(user << 32 \| dc) == ~0` on Python integers holds if and only if the second word is -1 |
| `Authorization.MainKey` | components/parser/opentele/td/account.py:888-891 | the main key is the first whose data center matches, and there is none exactly when no key matches |
| `Authorization.Account.SerializeMtpAuthorization` | components/parser/opentele/td/account.py:908-932 | serializes the fields of a loaded account and refuses an account that is not loaded |
| `Authorization.Account.SetMtpAuthorization` | components/parser/opentele/td/account.py:851-906 | fills the fields from a record, wide or legacy; an error leaves main key and loaded flag alone; without a matching key an earlier main key stays |
| `Authorization.AuthorizationRoundTrip` | components/parser/opentele/td/account.py:851-932 | over every authorization: the record reads back with the user id taken unsigned, hence unchanged if and only if the user id is not negative |
| `Authorization.LegacyRoundTrip` | components/parser/opentele/td/account.py:851-886 | a legacy record keeps its meaning if and only if its data center is not -1 |
| `Authorization.ParseOutcome` | components/parser/opentele/td/account.py:851-886 | a record is refused only for ending too early; an accepted one holds its ids, its first list of 256-byte keys in full and the length of the second |
| `MapRecords.PeerRoundTrip` | components/parser/opentele/td/configs.py:101-138 | `FromSerialized` undoes `Serialize` for every peer it accepts; the other way round exactly the values of the new format survive |
| `MapRecords.ReadRecordsWritten` | components/parser/opentele/td/account.py:133-241 | reading any list of records applies them in order up to the web view tokens: draft tables and keys change the state, while the self-serialized array, legacy tables and unknown tags leave it as it is and everything behind them is still read |
| `MapFormat.KeyTable` | components/parser/opentele/td/account.py:168-234 | the thirteen tags with one key: the field that each value lands in, whatever the state and whatever follows; three are dropped |
| `MapFormat.GroupTable` | components/parser/opentele/td/account.py:188-231 | the four tags with several keys, the old background record among them: where each value lands |
| `MapFormat.PeerTable` | components/parser/opentele/td/account.py:136-154 | a row of the draft tables is the key, then the peer with the reserved bit; a draft counts as not read |
| `MapFormat.PutMeaning` | components/parser/opentele/td/account.py:136-154 | a peer that is in a table keeps its place and gets the new key; a new one comes last |
| `MapFormat.SkippedTable` | components/parser/opentele/td/account.py:145-241 | the self-serialized array, legacy tables of any length and unknown tags change nothing and hide nothing behind them |
| `MapFormat.StopTable` | components/parser/opentele/td/account.py:181-237 | the web view tokens end the reading with the state so far; the oldest background record raises; an empty list reads as it is |
| `MapFormat.TruncatedIsRefused` | components/parser/opentele/td/account.py:133-241 | a list that ends inside a record is refused, wherever it is cut |
| `MapFormat.OpenMapOutcome` | components/parser/opentele/td/account.py:54-103 | the third array of the map file is decrypted; an unreadable file and a frame that does not open give one error, and only a foreign exception stays as it is |
| `MapFormat.LegacyPeers` | components/parser/opentele/td/configs.py:119-138 | peers of the older format keep their number under the new type of their kind; an unknown kind gives 0 |
| `AccountMap.MapRoundTrip` | components/parser/opentele/td/account.py:133-402 | over every map state: both draft tables and all file keys but four come back; the two token keys are lost because their record stops the reader, the two background keys because no record is written for them |
| `AccountMap.MapRoundTripExact` | components/parser/opentele/td/account.py:133-402 | nothing is lost if and only if those four keys are zero and every draft, and nothing else, is flagged as not read |
| `AccountMap.MapSizeIsExact` | components/parser/opentele/td/account.py:277-320 | the precomputed size is exactly the number of bytes written |
| `MapObject.MapData.ComputeSize` | components/parser/opentele/td/account.py:277-320 | the size accumulated branch by branch is that size |
| `MapObject.MapData.PrepareToWrite` | components/parser/opentele/td/account.py:274-402 | writes exactly the records of the state to the descriptor; a reserved peer raises; an empty map leaves the stream unopened |
| `MapObject.MapData.Read` | components/parser/opentele/td/account.py:54-241 | the loop over the decrypted stream ends in the state that the record specification gives, or in its error |
| `Layout.WordBytes` | components/parser/opentele/td/storage.py:163-202 | words are big-endian on streams and little-endian in envelopes and frames |
| `Layout.ArrayBytes` | components/parser/opentele/td/storage.py:166 | a byte array has its length in front; the null array is four bytes 0xFF |
| `Layout.ShortReads` | components/parser/opentele/td/account.py:121-237 | a read past the end gives what is left, 0 or an empty array, and the status says so from then on |
| `Layout.Names` | components/parser/opentele/td/storage.py:536-559 | the data names of the three accounts, and the sixteen hex digits of a file name, least significant nibble first |
| `Layout.DefaultName` | components/parser/opentele/td/storage.py:536-559 | the first account of the default key file is in `D877F783D5D3EF8C` |
| `Layout.FrameBytes` | components/parser/opentele/td/storage.py:204-231 | message key, then the encrypted length, payload and padding, the length counting itself and the payload |
| `Layout.AuthorizationBytes` | components/parser/opentele/td/account.py:908-932 | wide tag, user id, data center, and two lists of a data center and a key |
| `Layout.MtpBytes` | components/parser/opentele/td/account.py:589-601 | the MTP file holds block 0x4B and the authorization as an array |
| `Layout.InfoBytes` | components/parser/opentele/td/tdesktop.py:297-305 | the sealed list is the number of accounts, their indices and the active index |
| `Layout.KeyFileLayout` | components/parser/opentele/td/tdesktop.py:293-306 | the key file of every saved desktop: its path, and in it salt, sealed local key and sealed list |
| `Layout.AccountFilesLayout` | components/parser/opentele/td/account.py:561-627 | the map and MTP file of every account of a saved desktop: their paths from the data name, and what is in them |
| `DesktopFiles.AccountComesBack` | components/parser/opentele/td/account.py:535-627 | the two files of one account load back to its authorization and map |
| `DesktopFiles.AccountsWritten` | components/parser/opentele/td/tdesktop.py:290-291 | files of later accounts do not overwrite those of earlier ones, for data names that differ in their low 64 bits |
| `DesktopFiles.MainPosition` | components/parser/opentele/td/tdesktop.py:459-465 | the place of the first account with the active index, and the first place if no account has it |
| `DesktopFiles.KeyFileOpens` | components/parser/opentele/td/tdesktop.py:293-306 | the key file leads a reader with the passcode to the sealed account list |
| `DesktopFiles.SaveLoadRoundTrip` | components/parser/opentele/td/tdesktop.py:284-467 | over every desktop, file system and padding: loading a saved desktop with its passcode returns the same accounts in order with index, user id, main data center, both key lists and map, the same active index, local key and stored passcode key |
| `DesktopFiles.SaveLoadIff` | components/parser/opentele/td/tdesktop.py:220-467 | without assuming that the stored key opens: saved files load as what was saved if and only if it opens under the passcode, and under the saved local key in no other case; a stored key that does not decrypt makes the load fail with that error |
| `DesktopFiles.StorableAgainIff` | components/parser/opentele/td/account.py:133-402 | what a saved account loads as can be saved again if and only if its user id is not negative and its map holds more than web view tokens |
| `TDesktop.StoredAccount.WriteData` | components/parser/opentele/td/account.py:605-627 | writes the map file and the MTP file of one account and nothing else; refuses exactly an account without a local key |
| `TDesktop.StoredAccount.PrepareToStart` | components/parser/opentele/td/account.py:490-543 | loads one account; a map that cannot be read leaves it unloaded without an exception, an MTP failure raises |
| `TDesktop.TDesktop.AddSingleAccount` | components/parser/opentele/td/tdesktop.py:380-394 | a loaded account joins the list under the local key of the desktop; without a main account the first of the list becomes it, with the exact condition under which the main account stays where the active index puts it; an unloaded one is refused |
| `TDesktop.TDesktop.GenerateLocalKey` | components/parser/opentele/td/tdesktop.py:308-378 | in performance mode and without a passcode the constants, which the accounts do not take over; else a new local key, stored as its frame under a key of the passcode, so that it opens, and reaching every account |
| `TDesktop.TDesktop.RenewKey` | components/parser/opentele/td/tdesktop.py:261-269 | a new key exactly when the passcode changes or nothing was loaded; the accounts keep their values, and their key if that is a constant of performance mode; unless it is, the stored key afterwards opens under the passcode of the object if and only if it is new or did so before |
| `TDesktop.TDesktop.SaveTData` | components/parser/opentele/td/tdesktop.py:220-306 | refuses exactly an empty account list and accounts without a local key, without writing; else writes exactly the files of the desktop, with the accounts under the key they have; unless that is a constant of performance mode, their key opens under the effective passcode if and only if it was renewed or opened under that passcode before |
| `TDesktop.TDesktop.ReadAccounts` | components/parser/opentele/td/tdesktop.py:438-455 | the loop keeps the listed accounts that load, in order; an exception that is not of the library ends it |
| `TDesktop.TDesktop.LoadTData` | components/parser/opentele/td/tdesktop.py:149-467 | the object loaded from the files is exactly what the file specification gives, made of new account objects, including the main account, which is in the list if and only if there was none before or an account has the active index; each failure is the one specified: it leaves main account, active index and loaded flag alone, takes the passcode over and, unless an exception not of the library ended it, empties the list; the key fields are those of the file, opening under the passcode, if its sealed key decrypts, and else the earlier ones |
| `Authorization.Account.SetMtpAuthorizationCustom` | components/parser/opentele/td/account.py:824-849 | sets data center, user id and keys of an account and its main key; refuses keys without one for the data center |
| `TDesktop.OneMoreAgrees` | components/parser/opentele/td/tdesktop.py:380-394 | if the main account is where the active index puts it, adding an account keeps that true unless the list was not empty, none of its accounts has the active index and the added one does: exactly then it fails |
| `TDesktop.TDesktop.AddFromTelethon` | components/parser/opentele/td/account.py:1082-1101 | refuses a fourth account; else adds a new one whose index is the number of accounts: distinct indices stay distinct if and only if no account has that index; with the exact effect on the main account |
| `DamagedFiles.LoadsRemaining` | components/parser/opentele/td/tdesktop.py:396-467 | files in which any set of accounts fails to load with errors of the library: the other accounts in order, active index and keys as saved; refused if and only if no account is left |
| `DamagedFiles.LoadsWithoutMaps` | components/parser/opentele/td/tdesktop.py:434-467 | that holds of a saved desktop after the map files of any of its accounts are gone |
| `AccountList.BrokenMap` | components/parser/opentele/td/storage.py:250-313 | a saved desktop in which the map file of one account holds anything that is not of this format: without the magic, or with a size that fits, that account alone is left out; with the magic and a size that does not fit, the load of all accounts fails |
| `AccountList.OneCrashEnds` | components/parser/opentele/td/tdesktop.py:438-455 | an account that raises an exception not of the library, at any place of any list, ends the load with it |
| `AccountList.OutOfRangeIsSkipped` | components/parser/opentele/td/tdesktop.py:438-441 | an index other than 0, 1 and 2 is passed over |
| `AccountList.NoneListed` | components/parser/opentele/td/tdesktop.py:434-436 | a count of zero or less is refused |
| `AccountList.NoActiveIsZero` | components/parser/opentele/td/tdesktop.py:459-461 | a list without an active index stands for 0 |
| `AccountList.MtpOutcome` | components/parser/opentele/td/account.py:503-514 | another block than 0x4B and an authorization without a main key are refused |
| `AccountList.KeyArraysOutcome` | components/parser/opentele/td/tdesktop.py:403-416 | the key file holds salt, sealed key and sealed list, and one that ends before is refused |
| `MainAccount.SaveThenLoad` | components/parser/opentele/td/tdesktop.py:220-467 | saving an object, unless it takes the key from a constant, and loading into a fresh one: the save is refused exactly for an empty list or without a local key; else the load succeeds under the local key of the saved object if and only if that was renewed or its stored form opened under the passcode before; then the fresh object holds the restored accounts, active index and keys, and its main account is at the place of the saved object's main account if and only if that was, before the save, the place of the active index (the first, if no account has it) |
| `MainAccount.MainMoves` | components/parser/opentele/td/account.py:1082-1101 | a run in which the main account does not come back: the map of active account 1 is unreadable, account 2 is loaded as main, an account added from a session gets index 1 and is main after the next save and fresh load |
| `MainAccount.MainMovesInput` | components/parser/opentele/td/tdesktop.py:284-306 | such input exists for every passcode, under all primitives that keep the two data names apart |
| `MainAccount.LoadAgain` | components/parser/opentele/td/tdesktop.py:459-465 | loading into an object with a main account: the main account is in the new list if and only if an account of it has the active index, and else is the earlier one |
| `MainAccount.ReloadLosesMain` | components/parser/opentele/td/tdesktop.py:459-465 | a desktop made from a session, saved and loaded twice into one object, leaves a main account that is not in the list |
| `StaleKey.SaveAfterFailedLoad` | components/parser/opentele/td/tdesktop.py:197-269 | a load under a passcode that the key file does not open under fails; after adding an account and saving under that passcode, which succeeds (saves that take a constant of performance mode aside), a fresh load with it gives the account if and only if the object was not loaded or its earlier key opens under it too; the passcode of the earlier key opens the files |
| `StaleKey.WrongPasscodeLocksOut` | components/parser/opentele/td/tdesktop.py:197-269 | the run from a session: saved under one passcode, reloaded under a wrong one, saved under the wrong one; it does not open the files and the first one does |
| `StaleKey.WrongPasscodeExists` | components/parser/opentele/td/tdesktop.py:353-378 | such input exists for every two passcodes, under primitives that meet the laws |
| `MainAccount.FromSession` | components/parser/opentele/td/tdesktop.py:615-622 | a desktop made from a session: loaded, with one account that is the main one and no active index; its key opens without a passcode if the constants of performance mode do |
| `PerformanceMode.OtherKeyLoadsNone` | components/parser/opentele/td/tdesktop.py:284-467 | accounts saved under a key whose frames do not open under the local key of the desktop: the load finds no account |
| `PerformanceMode.SaveWithPreset` | components/parser/opentele/td/tdesktop.py:261-378 | the saves that `SaveThenLoad` leaves out: refused exactly for an empty list or if there was no local key before, without writing; else the accounts come back in a fresh load if their key is the constant, and none does if nothing sealed under it opens under the constant |
| `PerformanceMode.PasscodeRemoved` | components/parser/opentele/td/tdesktop.py:261-378 | the run to that: a desktop made from a session, saved with a passcode and then without one |
| `PerformanceMode.OwnDesktop` | components/parser/opentele/td/account.py:1103-1108 | an account made without an owner, and saved: refused if and only if performance mode is on |
| `PerformanceMode.ClashExists` | components/parser/opentele/td/tdesktop.py:313-351 | such constants exist, under primitives that meet the laws |
| `SharedIndices.SaveLoadSurvivors` | components/parser/opentele/td/tdesktop.py:284-467 | saving and loading over every desktop whose different indices have different file names: each account comes back as the last one with its index |
| `SharedIndices.NoneLost` | components/parser/opentele/td/tdesktop.py:290-291 | every account is the last one with its index if and only if accounts that share an index are equal, as with distinct indices |
| `SharedIndices.AddedOverwrites` | components/parser/opentele/td/account.py:1082-1101 | where an account has the number of accounts as its index, adding one from a session, saving and a fresh load give the added account in place of the earlier one |
| `SharedIndices.LostAccountOverwritten` | components/parser/opentele/td/account.py:1082-1101 | the run to that: of the accounts 0 and 1 the map of 0 is gone, 1 is loaded alone, the added account is number 1 too, and both load as the added one |
| `SharedIndices.LostAccountInput` | components/parser/opentele/td/tdesktop.py:284-306 | such input exists for every passcode, under all primitives that keep the two data names apart |
| `Lease.UnlockedByTop` | components/parser/persistence/models/telegram_client.py:106-118 | with distinct stamps the availability query decides by the last row inserted for the account |
| `Lease.HoldersAreAlone` | components/parser/telegram/session_storage.py:343-394 | in every run with any workers and accounts: no account has two holders, each holder's usage row is the newest of its account, and the clock is before its `locked_until` |
| `Lease.LeaseIsSafeIff` | bases/parser/worker/worker.py:76-83 | exclusive holding in all runs if and only if stamps are distinct and connecting, last iteration and exit together take strictly less than thirty minutes |
| `Lease.SlowRunBreaks` | bases/parser/worker/worker.py:76-83 | without that budget, at exactly thirty minutes already, a run gives one account to two workers |
| `Lease.TiedRunBreaks` | components/parser/persistence/models/telegram_client.py:106-112 | with equal `created_at` stamps a run gives one account to two workers |
| `Lease.BannedIsNeverHandedOut` | components/parser/telegram/core.py:250-271 | once a holder raises a ban no later step hands the account out, in every run in which the holder does not crash before committing it |
| `Lease.UncommittedBanIsLost` | components/parser/telegram/session_storage.py:396-400 | after any run, a holder that dies between raising a ban and committing it leaves an account that is available, as long as nobody takes it, exactly from the end of its lease on if it has a session |
| `Lease.FloodIsRespected` | components/parser/telegram/session_storage.py:402-425 | after a flood wait of s seconds committed at t nobody acquires the account before t + s + 10, in any interleaving |
| `Lease.ExitIsExact` | components/parser/telegram/session_storage.py:380-425 | as long as nobody takes it, whatever others do: after a normal exit the account is unlocked at once, after a flood wait of s seconds exactly from s + 10 seconds on; nobody holds it |
| `Lease.CrashIsExact` | components/parser/telegram/session_storage.py:347-359 | as long as nobody takes it, whatever others do, the account of a crashed holder is unlocked exactly from the end of its lease on and is not banned |
| `SessionStorage.MySQLSessionStorage.Acquire` | components/parser/telegram/session_storage.py:336-369 | the polling loop ends within the time limit with an account that was available at the last poll and this worker's usage row appended, or with a timeout when at no poll any account was available; what others do meanwhile is any run without this worker |
| `SessionStorage.MySQLSessionStorage.GetClient` | components/parser/telegram/core.py:149-168 | refuses exactly when every client is banned or has no session; else acquires an available account, or times out when at no poll there was one |
| `SessionStorage.MySQLSessionStorage.Exit` | components/parser/telegram/session_storage.py:371-427 | the rows and the ban written on each way out are those of the protocol step |
| `SessionStorage.SessionIsLeased` | components/parser/telegram/session_storage.py:343-369 | a session handed out after any correct history, where stamps are distinct and this second has no row of the account, has this worker as only holder under a newest row that keeps the account locked |
| `Schedule.NeverTooLate` | components/parser/scheduler/core.py:19-41 | no instant from now to the promised time satisfies the selection predicate; a task without a promise is never selected |
| `Schedule.NextRunIsExact` | components/parser/scheduler/core.py:31-41 | the promise (or now, if it passed) is the first moment the task is selected if and only if the task is idle and, when the promise falls into this hour, its reference time is before this hour and no claim of this hour exists |
| `Schedule.EligibleMeans` | components/parser/persistence/models/parsing_task.py:99-131 | the query in whole hours: idle, its minute of the hour has come, parsed (or, never parsed, created) in an earlier hour, not claimed in this one or later |
| `Schedule.PromiseIsFirstMinute` | components/parser/scheduler/core.py:19-41 | the promise of an idle or skipped task is the first moment of its minute, from this hour on, that is after it was parsed or, never parsed, created |
| `Schedule.NewTaskIsDue` | components/parser/persistence/models/parsing_task.py:99-131 | a task just created and never claimed is due from its minute on in every later hour and at no other time, so first at its minute of the next hour |
| `Schedule.ClaimPromise` | components/parser/scheduler/core.py:154-174 | within one hour, the time returned by a claim lies in the 60 minutes after the second clock reading and is the first moment from the first reading on at which the task is selected again |
| `Schedule.ClaimPromiseIsExact` | components/parser/scheduler/core.py:154-174 | with select, first clock reading, stamp and second clock reading at any times in this order: the time returned is the first moment of the next selection if and only if the first reading is at or after the task's minute in the hour of the second, or the stamp is before that hour |
| `Schedule.GetTasksPromisesThePast` | components/parser/scheduler/core.py:113-131 | for a task claimed by `GetTasks` the reported time is the task's minute in the hour of the clock reading: passed if the select was in that hour, right if and only if the stamp was before it |
| `Schedule.FreshTaskPromisedTooEarly` | components/parser/scheduler/core.py:36-41 | a task added within its hour is promised for its minute and not selected then |
| `Claims.OneClaimPerTaskAndHour` | components/parser/scheduler/core.py:110-176 | in every interleaving of claiming transactions, hour boundaries and task changes included, the claim log holds at most one row per task and clock hour |
| `Claims.WorkersApart` | components/parser/persistence/models/parsing_task.py:122-128 | two open transactions never have the same task selected |
| `Scheduler.SchedulerTables.ClaimTask` | components/parser/scheduler/core.py:145-176 | claims a task of the lowest bucket due at the select, sets `last_parsed_at` to the first clock reading, adds one history row stamped at the insert and reports the next run as of the second reading; nothing exactly when nothing is due |
| `Scheduler.SchedulerTables.GetTasks` | components/parser/scheduler/core.py:110-133 | returns the tasks due at the select that have the lowest buckets, in bucket order and each once, all of them if the limit allows, each with the next run as of its own clock reading; with `set_processing` one history row each, stamped at its insert; the tasks stay unchanged |
| `Scheduler.ClaimIsATransaction` | components/parser/scheduler/core.py:145-176 | a serial claim is a run of the transaction steps |
| `Scheduler.HourIsDrained` | components/parser/scheduler/core.py:154-176 | claiming within one hour until nothing is returned claims exactly the tasks due by then, each once and in bucket order, in as many calls as there are such tasks |
| `Scheduler.ClaimsAreDistinct` | components/parser/scheduler/core.py:154-176 | each claim within the hour takes exactly one task out of what is due |
| `Buckets.SelectBucket` | components/parser/scheduler/core.py:56-67 | always finds a bucket in 0..59 and it is a least loaded one; the lowest empty one if any is empty |
| `Buckets.SomeBucketIsMissing` | components/parser/scheduler/core.py:60-64 | fewer than 60 distinct rows leave a bucket out, so the scan finds one |
| `Buckets.LoadCounts` | components/parser/persistence/models/parsing_task.py:74-90 | a load counts exactly the idle and skipped tasks of its bucket |
| `Buckets.AddKeepsSpread` | components/parser/scheduler/core.py:56-67 | adding to a least loaded bucket keeps any spread between two loads if and only if the spread was not zero |
| `Buckets.AddsFromEmpty` | components/parser/scheduler/core.py:56-73 | a serial run of n adds from empty keeps the loads within one of each other and puts n/60 tasks, rounded down or up, into every bucket |
| `Buckets.SpreadIsBounded` | components/parser/persistence/models/parsing_task.py:74-90 | in any order of adds and tasks leaving, only the leaving ones widen the spread, each by at most one |
| `AddTask.CallsAgree` | components/parser/scheduler/core.py:48-87 | in every interleaving: one task per URL; every call that returns names the task of its URL, so two calls for one URL agree; a call that lost the insert never raises |
| `AddTask.ParsingTasks.AddTask` | components/parser/scheduler/core.py:48-87 | one call, with rivals committing between lookup and insert: the existing task, the new one in a least loaded bucket, or the rival's; the new one is created now, never parsed, and due from its minute of the next hour on |
| `Messages.CollectMessages` | bases/parser/worker/worker.py:680-724 | the loop over mutable records yields exactly the group-by of the dated messages before the first too old one: each is in one record, as often as received; two are in one record if and only if they have one album id that is present and not zero (or, without one, one id); and each record is described by its messages |
| `Messages.GroupMeaning` | bases/parser/worker/worker.py:697-719 | a group has the smallest id and the date of such a message, the first views that are not zero, text and HTML of one message, the first with text or else the first, and all its messages |
| `Messages.StandsAlone` | bases/parser/worker/worker.py:690-701 | a message without an album, whose id no other has as id or album, is a record of its own with its id, date, text, HTML and views |
| `Messages.GroupsPartition` | bases/parser/worker/worker.py:695-719 | every message is in exactly one group as often as received, and groups hold nothing else |
| `Messages.GroupIdsDistinct` | bases/parser/worker/worker.py:695-719 | messages with distinct ids make groups with distinct ids |
| `Messages.KeysInFirstSeenOrder` | bases/parser/worker/worker.py:721 | groups come in the order of their first message |
| `MessageStore.MessageTables.ProcessMessages` | bases/parser/worker/worker.py:752-857 | one run updates or creates a row per record and adds a statistic row each; an unknown channel changes nothing |
| `MessageStore.MediaOneMore` | bases/parser/worker/worker.py:784-848 | a photo is stored if its downloaded content is within the image limit, a document if its known size is within the document limit and it was downloaded; in the order of the messages |
| `MessageStore.StoreHistory` | bases/parser/worker/worker.py:752-857 | over any runs on a channel: one row per message id exactly if some run collected it; its statistic rows hold the views those runs collected, in order, one each; text of the latest such run; date and media of the first |
| `MessageStore.OtherChannelsStay` | bases/parser/worker/worker.py:752-776 | a run changes no message row of another channel |
| `MessageStore.CollectedIdsDistinct` | bases/parser/worker/worker.py:680-724 | what one run collects has distinct ids when the messages have |
| `Channels.TaskTable.ProcessTask` | bases/parser/worker/worker.py:193-268 | one claimed task, from the status check to the error handler: an idle one becomes EXISTS if and only if another idle task has the channel, else ERROR if and only if the processing failed, else stays idle; channel and time of parsing for each ending; no other task changes |
| `Channels.TaskTable.FindDuplicate` | bases/parser/worker/worker.py:249-268 | the scan finds a duplicate exactly when another idle task carries the channel |
| `Channels.StepKeeps` | bases/parser/worker/worker.py:193-268 | each step keeps one idle task per channel, leaves final tasks alone and marks a task as existing only next to an idle task of its channel |
| `Channels.ChannelsStayUnique` | bases/parser/worker/worker.py:140-268 | in every reachable state of serial processing one idle task per channel; EXISTS and ERROR are absorbing |
| `Channels.SaveKeepsIff` | bases/parser/worker/worker.py:411-423 | saving a channel keeps it unique if and only if the duplicate check would pass at that moment |
| `Channels.InterleavedChecksBreak` | bases/parser/worker/worker.py:249-268 | two checks before either save leave two idle tasks for one channel |

## Left out

- The internals of MD5, SHA-1, PBKDF2 and AES-IGE: function values with the laws named above.
- The values of the constants of performance mode (`tdesktop.py:315-351`), which are parameters (`Preset`), and the config file written outside it; `MTP.Config` and `DcOptions`.
- No local key (`None`) is the empty one; a stored local key of no bytes at all is not told apart from it.
- `SaveTData` with a different key file for accounts that have another: all accounts would share one data name.
- Legacy passcodes and the legacy map record `lskBackgroundOldOld`, which the model lets fail as streaming into an int does.
- Path joining and creation of directories: a path is a list of components; two spellings of one path are not modelled.
- Exceptions of PyQt inside a write: capacities are preconditions (`Framable`, `Savable`), as Qt's 31-bit sizes demand.
- LocalEncryption.PrepareEncrypted: the bytes left in the grown buffer are a parameter, so the result is stated for all of them and not for the bytes Qt happens to leave.
- Clock skew between hosts, the database and Python: one clock. Sub-second time: whole seconds, so a sleep shorter than a second counts as one that lets a second pass.
- InnoDB's lock and snapshot rules below READ COMMITTED with `SKIP LOCKED`: a locking select and the insert of a lease are one step each.
- Worker identities: two processes configured with one `worker_id` are two workers here.
- SessionStorage.MySQLSessionStorage.Acquire: the loop terminates because every sleep lets the clock advance; what others do in a sleep is a parameter constrained to be a run of the protocol.
- `Worker.start` as a loop with its tracing: its session bound and iterations are the steps `Connected` and `NextIteration` of the lease.
- `RabbitMQSessionStorage` and the message broker, which are not wired in.
- `AddTask.__call__`: cleaning and validating the URL; the call works on the cleaned URL. Nothing in the source deletes tasks, so no step does.
- Operating system errors while reading a file.
- `_get_channel`, channel and view statistics, logos, tracing, logging, S3 and the HTTP API.
- Messages.CollectMessages: `html.unparse` is a field of the message; the client delivers the messages as a list.
- MessageStore.MessageTables.ProcessMessages: media rows are their contents in order, without generated names and MIME types; an exception inside a run rolls everything back and is no step.
- Channels.ChannelsStayUnique: tasks are processed one at a time; the check and the save are different transactions in the source.
