/** The TDF file envelope with its MD5 trailer, and the primitives and the file system that
    the layers above it use. */
module Storage {
  import opened Bytes
  import opened DataStream

  const APP_VERSION: uint32 := 3004000
  const TDF_MAGIC: Data := [0x54, 0x44, 0x46, 0x24] // "TDF$"

  /** Exceptions: the library's own, which its callers catch, and everything else Python
      raises, which they do not. */
  datatype Error =
    | FileNotFound | InvalidMagic | InvalidCheckSum
    | BadEncryptedSize | BadDecryptKey | BadDecryptedSize
    | StreamFailed | MapReadFailed | UnsupportedVersion | AuthKeyNotFound | NoAccounts | NoLocalKey | MaxAccounts
    | PythonError

  datatype Result<+T> = Ok(value: T) | Err(error: Error)

  /** The primitives the library imports. `encrypt` and `decrypt` take a local key, the
      first 16 bytes of the message key, and the text: AES-IGE under the key and iv that
      `prepareAES_oldmtp` derives from the first two. */
  datatype Crypto = Crypto(
    md5: Data -> Data,
    sha1: Data -> Data,
    kdf: (Data, Data) -> Data,
    encrypt: (Data, Data, Data) -> Data,
    decrypt: (Data, Data, Data) -> Data,
    nameKey: string -> nat)
  {
    ghost predicate Lawful() {
      && (forall x :: |md5(x)| == 16)
      && (forall x :: |sha1(x)| == 20)
      && (forall s, p :: |kdf(s, p)| == 256)
      && (forall k, m, x :: |x| % 16 == 0 ==> |encrypt(k, m, x)| == |x| && decrypt(k, m, encrypt(k, m, x)) == x)
      && (forall k, m, x :: |x| % 16 == 0 ==> |decrypt(k, m, x)| == |x| && encrypt(k, m, decrypt(k, m, x)) == x)
    }
  }

  /** Keys of names that differ in the last character differ in the low 64 bits. */
  ghost predicate TellsNamesApart(c: Crypto) {
    forall s, x: char, y: char :: x != y ==> c.nameKey(s + [x]) % U64 != c.nameKey(s + [y]) % U64
  }

  function LastChar(s: string): nat { if s == "" then 0 else s[|s| - 1] as int }

  /** Primitives that meet the laws and tell names apart exist; these do not hide anything. */
  lemma LawfulExists() returns (c: Crypto)
    ensures c.Lawful() && TellsNamesApart(c)
  {
    c := Crypto(x => seq(16, _ => 0), x => seq(20, _ => 0), (s, p) => seq(256, _ => 0), (k, m, x) => x,
        (k, m, x) => x, LastChar);
    forall s, x: char, y: char | x != y ensures LastChar(s + [x]) % U64 != LastChar(s + [y]) % U64 {
      assert x as int < U64 && y as int < U64;
    }
  }

  // ---------- Files ----------

  /** Components below the root; joining appends one. */
  type Path = seq<string>

  type Files = map<Path, Data>

  class FileSystem {
    var files: Files

    method Write(path: Path, content: Data)
      modifies this
      ensures files == old(files)[path := content]
    {
      files := files[path := content];
    }
  }

  // ---------- Writing a file ----------

  /** Reverses the four bytes of a word, as the masks and shifts of `qbswap` do. */
  function QbSwap(source: uint32): uint32 {
    var (b0, b1, b2, b3) := Split32(source);
    Join32(b3, b2, b1, b0)
  }

  /** The four bytes `writeData` feeds to MD5 for a length word. */
  function ChecksumWord(len: uint32, bigEndianHost: bool): Data {
    LE32(if bigEndianHost then len else QbSwap(len))
  }

  lemma SwappedLittleIsBig(v: uint32)
    ensures LE32(QbSwap(v)) == BE32(v)
  {
    var (b0, b1, b2, b3) := Split32(v);
    SplitJoin32(b3, b2, b1, b0);
  }

  predicate AllFit(items: seq<QByteArray>) {
    forall i :: 0 <= i < |items| ==> items[i].Fits()
  }

  /** The bytes on the stream after writing `items` in order. */
  function StreamOf(items: seq<QByteArray>): Data
    requires AllFit(items)
  {
    if items == [] then [] else StreamOf(items[..|items| - 1]) + items[|items| - 1].Encoded()
  }

  /** The bytes accumulated for MD5 after the same writes. */
  function ChecksumOf(items: seq<QByteArray>, bigEndianHost: bool): Data
    requires AllFit(items)
  {
    if items == [] then []
    else
      var last := items[|items| - 1];
      ChecksumOf(items[..|items| - 1], bigEndianHost)
      + ChecksumWord(last.LengthWord(), bigEndianHost) + last.Contents()
  }

  /** On which hosts the checksum covers what the file holds: every little-endian one, and
      a big-endian one only when no length word changes under byte reversal. */
  lemma {:induction false} ChecksumCoversStream(items: seq<QByteArray>, bigEndianHost: bool)
    requires AllFit(items)
    ensures |ChecksumOf(items, bigEndianHost)| == |StreamOf(items)|
    ensures ChecksumOf(items, bigEndianHost) == StreamOf(items)
            <==> (bigEndianHost ==> AllPalindromes(items))
  {
    if items != [] {
      var front, last := items[..|items| - 1], items[|items| - 1];
      ChecksumCoversStream(front, bigEndianHost);
      OneWordCovered(ChecksumOf(front, bigEndianHost), StreamOf(front), last, bigEndianHost);
      assert items == front + [last];
      AllPalindromesStep(front, last);
    }
  }

  ghost predicate AllPalindromes(items: seq<QByteArray>)
    requires AllFit(items)
  {
    forall i :: 0 <= i < |items| ==> QbSwap(items[i].LengthWord()) == items[i].LengthWord()
  }

  lemma AllPalindromesStep(front: seq<QByteArray>, last: QByteArray)
    requires AllFit(front) && last.Fits() && AllFit(front + [last])
    ensures AllPalindromes(front + [last]) <==> AllPalindromes(front) && QbSwap(last.LengthWord()) == last.LengthWord()
  {
    var items := front + [last];
    assert items[|front|] == last;
    assert forall i :: 0 <= i < |front| ==> items[i] == front[i];
  }

  /** One more array keeps checksum and stream equal exactly when its length word agrees. */
  lemma OneWordCovered(sum: Data, str: Data, last: QByteArray, bigEndianHost: bool)
    requires last.Fits() && |sum| == |str|
    ensures sum + ChecksumWord(last.LengthWord(), bigEndianHost) + last.Contents() == str + last.Encoded()
            <==> sum == str && (!bigEndianHost || QbSwap(last.LengthWord()) == last.LengthWord())
  {
    var w := last.LengthWord();
    var word := ChecksumWord(w, bigEndianHost);
    SwappedLittleIsBig(w);
    LE32Injective(w, QbSwap(w));
    AppendedEqual(sum, str, word, BE32(w), last.Contents());
    assert sum + word + last.Contents() == sum + (word + last.Contents());
  }

  lemma AppendedEqual(a: Data, b: Data, x: Data, y: Data, tail: Data)
    requires |a| == |b| && |x| == |y|
    ensures a + (x + tail) == b + (y + tail) <==> a == b && x == y
  {
    if a + (x + tail) == b + (y + tail) {
      var l, r := a + (x + tail), b + (y + tail);
      assert a == l[..|a|] && b == r[..|b|];
      assert x == l[|a|..|a| + |x|] && y == r[|a|..|a| + |x|];
    }
  }

  lemma LE32Injective(v: uint32, w: uint32)
    ensures LE32(v) == LE32(w) <==> v == w
  {
    LE32RoundTrip(v);
    LE32RoundTrip(w);
  }

  /** What `finish` appends to the stream bytes before hashing, and the whole file. */
  function Trailer(size: uint32, version: uint32): Data { LE32(size) + LE32(version) + TDF_MAGIC }

  function Envelope(c: Crypto, version: uint32, data: Data): Data
    requires |data| < U32
  {
    TDF_MAGIC + LE32(version) + data + c.md5(data + Trailer(|data|, version))
  }

  /** The file `finish` writes after these arrays. */
  function FileContent(c: Crypto, items: seq<QByteArray>, bigEndianHost: bool): Data
    requires AllFit(items) && |StreamOf(items)| < U32
  {
    TDF_MAGIC + LE32(APP_VERSION) + StreamOf(items)
    + c.md5(ChecksumOf(items, bigEndianHost) + Trailer(|StreamOf(items)|, APP_VERSION))
  }

  /** On a little-endian host it is the envelope of the stream. */
  lemma FileContentIsEnvelope(c: Crypto, items: seq<QByteArray>)
    requires AllFit(items) && |StreamOf(items)| < U32
    ensures FileContent(c, items, false) == Envelope(c, APP_VERSION, StreamOf(items))
  {
    ChecksumCoversStream(items, false);
  }

  class FileWriteDescriptor {
    const fileName: string
    const basePath: Path
    const bigEndianHost: bool
    var safeData: Data // the bytes of the stream
    var md5: Data // input of the checksum; its digest once finished
    var fullSize: nat
    var open: bool
    ghost var items: seq<QByteArray> // every array written so far

    ghost predicate Valid()
      reads this
    {
      && AllFit(items)
      && safeData == StreamOf(items)
      && fullSize == |safeData|
      && (open ==> md5 == ChecksumOf(items, bigEndianHost))
    }

    constructor (fileName: string, basePath: Path, bigEndianHost: bool)
      ensures Valid() && open && items == []
      ensures this.fileName == fileName && this.basePath == basePath && this.bigEndianHost == bigEndianHost
    {
      this.fileName, this.basePath, this.bigEndianHost := fileName, basePath, bigEndianHost;
      safeData, md5, fullSize, open, items := [], [], 0, true, [];
    }

    method WriteData(data: QByteArray)
      requires Valid() && open && data.Fits()
      modifies this
      ensures Valid() && open && items == old(items) + [data]
      ensures safeData == old(safeData) + data.Encoded()
    {
      safeData := safeData + data.Encoded();
      var len := data.LengthWord();
      if !bigEndianHost {
        len := QbSwap(len);
      }
      md5 := md5 + LE32(len);
      md5 := md5 + data.Contents();
      fullSize := fullSize + (4 + |data.Contents()|);
      items := items + [data];
      assert items[..|items| - 1] == old(items);
    }

    /** Closes the stream and writes the file; a second call does nothing. */
    method Finish(c: Crypto, fs: FileSystem)
      requires Valid() && fullSize < U32
      modifies this, fs
      ensures Valid() && !open && items == old(items) && safeData == old(safeData)
      ensures !old(open) ==> fs.files == old(fs.files)
      ensures old(open) ==>
        fs.files == old(fs.files)[basePath + [fileName + "s"] := FileContent(c, items, bigEndianHost)]
    {
      if !open {
        return;
      }
      open := false;
      ghost var summed := md5;
      md5 := md5 + LE32(fullSize);
      md5 := md5 + LE32(APP_VERSION);
      md5 := md5 + TDF_MAGIC;
      assert md5 == summed + Trailer(fullSize, APP_VERSION);
      md5 := c.md5(md5);
      var finalData := safeData + md5;
      assert TDF_MAGIC + LE32(APP_VERSION) + finalData == TDF_MAGIC + LE32(APP_VERSION) + safeData + md5;
      fs.Write(basePath + [fileName + "s"], TDF_MAGIC + LE32(APP_VERSION) + finalData);
    }
  }

  // ---------- Reading a file ----------

  datatype TdfFile = TdfFile(version: uint32, data: Data)

  /** What one of the three candidate files turns out to be. */
  datatype Attempt = Accepted(file: TdfFile) | Rejected(error: Error) | Crashed

  function Examine(c: Crypto, content: Data): Attempt {
    if |content| < 4 || content[..4] != TDF_MAGIC then Rejected(InvalidMagic)
    else if |content| < 24 || |content| - 24 >= U32 then Crashed // the size does not fit `to_bytes(4)`
    else
      var version := FromLE32(content[4..8]);
      var body := content[8..];
      var dataSize := |body| - 16;
      if c.md5(body[..dataSize] + Trailer(dataSize, version)) != body[dataSize..] then Rejected(InvalidCheckSum)
      else Accepted(TdfFile(version, body[..dataSize]))
  }

  function TryFile(c: Crypto, files: Files, path: Path): Attempt {
    if path in files then Examine(c, files[path]) else Rejected(FileNotFound)
  }

  const SUFFIXES: seq<string> := ["s", "1", "0"]

  /** The first candidate that is not rejected decides; the last rejection is reported. */
  function ReadFrom(c: Crypto, files: Files, basePath: Path, fileName: string, tries: seq<string>,
      last: Error): Result<TdfFile> {
    if tries == [] then Err(last)
    else
      match TryFile(c, files, basePath + [fileName + tries[0]])
      case Accepted(f) => Ok(f)
      case Crashed => Err(PythonError)
      case Rejected(e) => ReadFrom(c, files, basePath, fileName, tries[1..], e)
  }

  function ReadFile(c: Crypto, files: Files, basePath: Path, fileName: string): Result<TdfFile> {
    ReadFrom(c, files, basePath, fileName, SUFFIXES, FileNotFound)
  }

  method ReadFileLoop(c: Crypto, fs: FileSystem, basePath: Path, fileName: string) returns (r: Result<TdfFile>)
    ensures r == ReadFile(c, fs.files, basePath, fileName)
  {
    var last := FileNotFound;
    var i := 0;
    while i < |SUFFIXES|
      invariant 0 <= i <= |SUFFIXES|
      invariant ReadFile(c, fs.files, basePath, fileName)
        == ReadFrom(c, fs.files, basePath, fileName, SUFFIXES[i..], last)
    {
      var path := basePath + [fileName + SUFFIXES[i]];
      var attempt := Rejected(FileNotFound);
      if path in fs.files {
        attempt := Examine(c, fs.files[path]);
      }
      match attempt {
        case Accepted(f) => return Ok(f);
        case Crashed => return Err(PythonError);
        case Rejected(e) => last := e;
      }
      i := i + 1;
    }
    r := Err(last);
  }

  /** The four parts of an envelope. */
  lemma EnvelopeParts(version: uint32, data: Data, sum: Data)
    requires |sum| == 16
    ensures var content := TDF_MAGIC + LE32(version) + data + sum;
            && |content| == 24 + |data| && content[..4] == TDF_MAGIC && content[4..8] == LE32(version)
            && content[8..][..|data|] == data && content[8..][|data|..] == sum
  {
    hide LE32;
    assert (TDF_MAGIC + LE32(version) + data + sum)[8..] == data + sum;
  }

  lemma PartsJoined(content: Data, n: nat)
    requires |content| == 24 + n
    ensures content == content[..4] + content[4..8] + content[8..][..n] + content[8..][n..]
  {
  }

  lemma EnvelopesAreAccepted(c: Crypto, f: TdfFile)
    requires c.Lawful() && |f.data| < U32
    ensures Examine(c, Envelope(c, f.version, f.data)) == Accepted(f)
  {
    hide FromLE32, LE32, Trailer;
    EnvelopeParts(f.version, f.data, c.md5(f.data + Trailer(|f.data|, f.version)));
    LE32RoundTrip(f.version);
  }

  lemma AcceptedIsEnvelope(c: Crypto, content: Data, f: TdfFile)
    requires c.Lawful() && Examine(c, content) == Accepted(f)
    ensures |f.data| < U32 && content == Envelope(c, f.version, f.data)
  {
    hide FromLE32, LE32, Trailer;
    LE32Surjective(content[4..8]);
    PartsJoined(content, |content| - 24);
  }

  /** The reader accepts exactly the files the writer can produce, and returns what was
      written: an envelope determines its version and data. */
  lemma ExamineAcceptsEnvelopes(c: Crypto, content: Data, f: TdfFile)
    requires c.Lawful()
    ensures Examine(c, content) == Accepted(f) <==> |f.data| < U32 && content == Envelope(c, f.version, f.data)
  {
    hide Examine, Envelope;
    if Examine(c, content) == Accepted(f) {
      AcceptedIsEnvelope(c, content, f);
    } else if |f.data| < U32 {
      EnvelopesAreAccepted(c, f);
    }
  }

  /** A content that starts with the magic, but is too short for a version and a checksum, or
      so long that its size does not fit four bytes, raises an exception that is not of the
      library. No other content does. */
  lemma ExamineCrashesIff(c: Crypto, content: Data)
    ensures Examine(c, content).Crashed?
            <==> Magical(content) && (|content| < 24 || |content| >= 24 + 0x1_0000_0000)
  {
  }

  /** It starts with "TDF$". */
  predicate Magical(content: Data) { |content| >= 4 && content[..4] == [0x54, 0x44, 0x46, 0x24] }

  /** The size has room for a version and a checksum and fits four bytes without them. */
  predicate SizeFits(content: Data) { 24 <= |content| < 24 + 0x1_0000_0000 }

  /** Magic, version, data and the MD5 of data, size, version and magic. */
  ghost predicate Sealed(c: Crypto, content: Data, version: uint32, data: Data) {
    && |data| < 0x1_0000_0000
    && content == [0x54, 0x44, 0x46, 0x24] + LE32(version) + data
                  + c.md5(data + (LE32(|data|) + LE32(version) + [0x54, 0x44, 0x46, 0x24]))
  }

  ghost predicate SomeSealed(c: Crypto, content: Data) { exists version, data :: Sealed(c, content, version, data) }

  /** The candidate is passed over: it is missing, lacks the magic, or has the magic and a size
      that fits but not the right checksum. */
  ghost predicate PassedOver(c: Crypto, files: Files, path: Path) {
    path in files ==> !Magical(files[path]) || (SizeFits(files[path]) && !SomeSealed(c, files[path]))
  }

  /** The candidate that passes the magic but not the size check. */
  predicate Crashes(files: Files, path: Path) {
    path in files && Magical(files[path]) && !SizeFits(files[path])
  }

  ghost predicate Gives(c: Crypto, files: Files, path: Path, f: TdfFile) {
    path in files && Sealed(c, files[path], f.version, f.data)
  }

  /** Why a candidate is passed over. */
  function Reason(files: Files, path: Path): Error {
    if path !in files then FileNotFound else if !Magical(files[path]) then InvalidMagic else InvalidCheckSum
  }

  /** The three outcomes of one candidate. */
  lemma TryFileIs(c: Crypto, files: Files, path: Path)
    requires c.Lawful()
    ensures TryFile(c, files, path).Rejected? <==> PassedOver(c, files, path)
    ensures TryFile(c, files, path).Crashed? <==> Crashes(files, path)
    ensures TryFile(c, files, path).Rejected? ==> TryFile(c, files, path).error == Reason(files, path)
    ensures forall f :: TryFile(c, files, path) == Accepted(f) <==> Gives(c, files, path, f)
  {
    if path in files {
      var content := files[path];
      ExamineCrashesIff(c, content);
      forall f ensures Examine(c, content) == Accepted(f) <==> Sealed(c, content, f.version, f.data) {
        ExamineAcceptsEnvelopes(c, content, f);
      }
      if SomeSealed(c, content) {
        var version, data :| Sealed(c, content, version, data);
        assert Examine(c, content) == Accepted(TdfFile(version, data));
      }
    }
  }

  /** What a read returns, over every file system: the candidates are tried with the suffixes
      "s", "1" and "0". The first that is not passed over decides: its contents, or an exception
      that is not of the library. If there is none, the reason of the last one is reported. */
  lemma ReadFileReturns(c: Crypto, files: Files, basePath: Path, fileName: string)
    requires c.Lawful()
    ensures var r := ReadFile(c, files, basePath, fileName);
            var s, one, zero := basePath + [fileName + "s"], basePath + [fileName + "1"], basePath + [fileName + "0"];
            && (forall f :: r == Ok(f) <==>
                  || Gives(c, files, s, f)
                  || (PassedOver(c, files, s) && Gives(c, files, one, f))
                  || (PassedOver(c, files, s) && PassedOver(c, files, one) && Gives(c, files, zero, f)))
            && (r == Err(PythonError) <==>
                  || Crashes(files, s)
                  || (PassedOver(c, files, s) && Crashes(files, one))
                  || (PassedOver(c, files, s) && PassedOver(c, files, one) && Crashes(files, zero)))
            && (PassedOver(c, files, s) && PassedOver(c, files, one) && PassedOver(c, files, zero) ==>
                  r == Err(Reason(files, zero)))
  {
    hide TryFile, PassedOver, Gives, Crashes, Reason;
    var s, one, zero := basePath + [fileName + "s"], basePath + [fileName + "1"], basePath + [fileName + "0"];
    TryFileIs(c, files, s);
    TryFileIs(c, files, one);
    TryFileIs(c, files, zero);
    ThreeTries(c, files, basePath, fileName);
    ReasonIsExpected(files, zero);
  }

  lemma ReasonIsExpected(files: Files, path: Path)
    ensures Reason(files, path) != PythonError
  {
  }

  lemma ThreeTries(c: Crypto, files: Files, basePath: Path, fileName: string)
    ensures var s, one, zero := basePath + [fileName + "s"], basePath + [fileName + "1"], basePath + [fileName + "0"];
            var a, b, d := TryFile(c, files, s), TryFile(c, files, one), TryFile(c, files, zero);
            var decides := if !a.Rejected? then a else if !b.Rejected? then b else d;
            ReadFile(c, files, basePath, fileName) ==
              match decides {
                case Accepted(f) => Ok(f)
                case Crashed => Err(PythonError)
                case Rejected(e) => Err(e)
              }
  {
    hide TryFile;
    assert SUFFIXES[1..] == ["1", "0"] && SUFFIXES[1..][1..] == ["0"] && SUFFIXES[1..][1..][1..] == [];
    var a := TryFile(c, files, basePath + [fileName + "s"]);
    var b := TryFile(c, files, basePath + [fileName + "1"]);
    var d := TryFile(c, files, basePath + [fileName + "0"]);
    if a.Rejected? {
      assert ReadFile(c, files, basePath, fileName) == ReadFrom(c, files, basePath, fileName, ["1", "0"], a.error);
      if b.Rejected? {
        assert ReadFile(c, files, basePath, fileName) == ReadFrom(c, files, basePath, fileName, ["0"], b.error);
        if d.Rejected? {
          assert ReadFile(c, files, basePath, fileName) == ReadFrom(c, files, basePath, fileName, [], d.error);
        }
      }
    }
  }

  /** Whatever older copies exist, a finished file reads back with its version and bytes. */
  lemma ReadFinished(c: Crypto, files: Files, basePath: Path, fileName: string, data: Data)
    requires c.Lawful() && |data| < U32
    requires basePath + [fileName + "s"] in files
    requires files[basePath + [fileName + "s"]] == Envelope(c, APP_VERSION, data)
    ensures ReadFile(c, files, basePath, fileName) == Ok(TdfFile(APP_VERSION, data))
  {
    ExamineAcceptsEnvelopes(c, files[basePath + [fileName + "s"]], TdfFile(APP_VERSION, data));
    assert TryFile(c, files, basePath + [fileName + SUFFIXES[0]]) == Accepted(TdfFile(APP_VERSION, data));
  }

  /** Every sequence of `writeData` calls and a `finish`, read back from its file. */
  lemma WrittenFileReadsBack(c: Crypto, files: Files, basePath: Path, fileName: string, items: seq<QByteArray>)
    requires c.Lawful() && AllFit(items) && |StreamOf(items)| < U32
    ensures var written := files[basePath + [fileName + "s"] := FileContent(c, items, false)];
            ReadFile(c, written, basePath, fileName) == Ok(TdfFile(APP_VERSION, StreamOf(items)))
  {
    FileContentIsEnvelope(c, items);
    ReadFinished(c, files[basePath + [fileName + "s"] := FileContent(c, items, false)], basePath, fileName,
        StreamOf(items));
  }
}
