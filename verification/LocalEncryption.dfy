/** The encrypted frame around every stored record: a length word, the payload and up to
    15 bytes of padding, encrypted under a message key that is the hash of all three. */
module LocalEncryption {
  import opened Bytes
  import opened DataStream
  import opened Storage

  function PadLength(size: nat): (n: nat)
    ensures n < 16 && (size + n) % 16 == 0
  {
    if size % 16 == 0 then 0 else 16 - size % 16
  }

  predicate Framable(payload: Data) { |payload| + 4 < 0x7FFF_FFE0 }

  /** The clear text of a frame: the length counts itself and the payload, not the padding. */
  function Plain(payload: Data, fill: Data): (p: Data)
    requires Framable(payload)
  {
    LE32(4 + |payload|) + payload + fill
  }

  function Seal(c: Crypto, plain: Data, key: Data): Data
    requires c.Lawful()
  {
    var messageKey := c.sha1(plain)[..16];
    messageKey + c.encrypt(key, messageKey, plain)
  }

  function Frame(c: Crypto, payload: Data, key: Data, fill: Data): Data
    requires c.Lawful() && Framable(payload)
  {
    Seal(c, Plain(payload, fill), key)
  }

  lemma FrameSize(c: Crypto, payload: Data, key: Data, fill: Data)
    requires c.Lawful() && Framable(payload) && |fill| == PadLength(4 + |payload|)
    ensures |Frame(c, payload, key, fill)| == 20 + |payload| + |fill|
  {
  }

  function DecryptLocal(c: Crypto, encrypted: Data, key: Data): Result<Cursor>
    requires c.Lawful()
  {
    if |encrypted| <= 16 || |encrypted| % 16 != 0 then Err(BadEncryptedSize)
    else
      var fullLen := |encrypted| - 16;
      var decrypted := c.decrypt(key, encrypted[..16], encrypted[16..]);
      if c.sha1(decrypted)[..16] != encrypted[..16] then Err(BadDecryptKey)
      else
        var dataLen := FromLE32(decrypted[..4]);
        if dataLen > |decrypted| || dataLen <= fullLen - 16 || dataLen < 4 then Err(BadDecryptedSize)
        else Ok(Cursor(decrypted[..dataLen][4..], true))
  }

  /** An encrypted record under construction: four bytes reserved for the length and a
      stream positioned after them. Size 0 opens no stream, so nothing can be written. */
  class EncryptedDescriptor {
    var stream: Stream?

    ghost predicate Valid()
      reads this, stream
    {
      stream != null ==> stream.Valid() && stream.AtEnd() && |stream.data| >= 4
    }

    function Written(): Data
      reads this, stream
    {
      if stream == null then [] else stream.data
    }

    constructor (size: nat)
      ensures Valid() && (stream == null <==> size == 0)
      ensures stream != null ==> fresh(stream) && stream.data == [0, 0, 0, 0]
    {
      stream := null;
      new;
      if size != 0 {
        stream := new Stream([0, 0, 0, 0], 4);
      }
    }
  }

  /** `fill` is whatever the grown buffer happens to hold. A descriptor that never opened
      its stream leaves four bytes to encrypt, which the cipher refuses. */
  method PrepareEncrypted(c: Crypto, data: EncryptedDescriptor, key: Data, fill: Data) returns (r: Result<Data>)
    requires c.Lawful() && data.Valid()
    requires |data.Written()| < 0x7FFF_FFE0 && |fill| == PadLength(|data.Written()|)
    ensures data.stream == null ==> r == Err(PythonError)
    ensures data.stream != null ==> r == Ok(Frame(c, data.Written()[4..], key, fill))
  {
    var toEncrypt := data.Written();
    var size := |toEncrypt|;
    var fullSize := size;
    if fullSize % 16 != 0 {
      fullSize := fullSize + (16 - fullSize % 16);
      toEncrypt := toEncrypt + fill;
    }
    toEncrypt := LE32(size) + (if |toEncrypt| >= 4 then toEncrypt[4..] else []);
    if data.stream != null {
      assert data.Written() == data.Written()[..4] + data.Written()[4..];
      assert toEncrypt == Plain(data.Written()[4..], fill);
    }
    if |toEncrypt| % 16 != 0 {
      return Err(PythonError);
    }
    r := Ok(Seal(c, toEncrypt, key));
  }

  /** The reader takes a frame apart in steps; every size check guards the next slice. */
  method DecryptLocalSteps(c: Crypto, encrypted: Data, key: Data) returns (r: Result<Stream>)
    requires c.Lawful()
    ensures r.Err? ==> DecryptLocal(c, encrypted, key) == Err(r.error)
    ensures r.Ok? ==> fresh(r.value) && r.value.Valid() && DecryptLocal(c, encrypted, key) == Ok(r.value.Cur())
  {
    var encryptedSize := |encrypted|;
    if encryptedSize <= 16 || encryptedSize % 16 != 0 {
      return Err(BadEncryptedSize);
    }
    var fullLen := encryptedSize - 16;
    var encryptedKey := encrypted[..16];
    var encryptedData := encrypted[16..];
    var decrypted := c.decrypt(key, encryptedKey, encryptedData);
    var checkHash := c.sha1(decrypted)[..16];
    if checkHash != encryptedKey {
      return Err(BadDecryptKey);
    }
    var dataLen := FromLE32(decrypted[..4]);
    if dataLen > |decrypted| || dataLen <= fullLen - 16 || dataLen < 4 {
      return Err(BadDecryptedSize);
    }
    decrypted := decrypted[..dataLen];
    var stream := new Stream(decrypted, 4); // skip the length
    r := Ok(stream);
  }

  /** Which message is refused for what, and what is returned of the others: the sizes come
      first, then the hash, then the length word, which must name a size between the last padding
      and the end. */
  lemma DecryptOutcome(c: Crypto, encrypted: Data, key: Data)
    requires c.Lawful()
    ensures DecryptLocal(c, encrypted, key) == Err(BadEncryptedSize) <==> |encrypted| <= 16 || |encrypted| % 16 != 0
    ensures |encrypted| > 16 && |encrypted| % 16 == 0 ==>
      var plain := c.decrypt(key, encrypted[..16], encrypted[16..]);
      && |plain| == |encrypted| - 16
      && (DecryptLocal(c, encrypted, key) == Err(BadDecryptKey) <==> c.sha1(plain)[..16] != encrypted[..16])
      && (c.sha1(plain)[..16] == encrypted[..16] ==>
            var b0: int, b1: int, b2: int, b3: int := plain[0], plain[1], plain[2], plain[3];
            var n := b0 + 0x100 * b1 + 0x1_0000 * b2 + 0x100_0000 * b3;
            DecryptLocal(c, encrypted, key)
            == if 4 <= n <= |plain| < n + 16 then Ok(Cursor(plain[4..n], true)) else Err(BadDecryptedSize))
  {
    if |encrypted| > 16 && |encrypted| % 16 == 0 {
      var plain := c.decrypt(key, encrypted[..16], encrypted[16..]);
      var n := FromLE32(plain[..4]);
      if 4 <= n <= |plain| {
        assert plain[..n][4..] == plain[4..n];
      }
    }
  }

  /** Every frame opens again, for payloads of any length and any padding bytes: the stored
      size lies in (fullLen - 16, fullLen], so no size check can fail. */
  lemma DecryptUndoesPrepare(c: Crypto, payload: Data, key: Data, fill: Data)
    requires c.Lawful() && Framable(payload) && |fill| == PadLength(4 + |payload|)
    ensures DecryptLocal(c, Frame(c, payload, key, fill), key) == Ok(Cursor(payload, true))
  {
    var plain := Plain(payload, fill);
    var frame := Frame(c, payload, key, fill);
    var messageKey := c.sha1(plain)[..16];
    assert frame[..16] == messageKey && frame[16..] == c.encrypt(key, messageKey, plain);
    LE32RoundTrip(4 + |payload|);
    assert plain[..4] == LE32(4 + |payload|);
    assert plain[..4 + |payload|][4..] == payload;
  }

  /** A clear text whose length word passes the checks is the payload between that word and
      the padding. */
  lemma ClearTextParts(plain: Data, dataLen: nat)
    requires |plain| % 16 == 0 && |plain| < 0x7FFF_FFE0 && 4 <= dataLen <= |plain| < dataLen + 16
    requires dataLen == FromLE32(plain[..4])
    ensures var payload, fill := plain[..dataLen][4..], plain[dataLen..];
            Framable(payload) && |fill| == PadLength(4 + |payload|) && plain == Plain(payload, fill)
  {
    hide FromLE32, LE32;
    LE32Surjective(plain[..4]);
    assert plain[..dataLen] == plain[..4] + plain[..dataLen][4..];
    assert plain == plain[..dataLen] + plain[dataLen..];
  }

  /** Encrypting again what a message decrypts to gives the message back. */
  lemma SealedAgain(c: Crypto, encrypted: Data, key: Data)
    requires c.Lawful() && |encrypted| > 16 && |encrypted| % 16 == 0
    requires c.sha1(c.decrypt(key, encrypted[..16], encrypted[16..]))[..16] == encrypted[..16]
    ensures encrypted == Seal(c, c.decrypt(key, encrypted[..16], encrypted[16..]), key)
  {
    assert encrypted == encrypted[..16] + encrypted[16..];
  }

  /** The padding an accepted message carries. */
  lemma AcceptedIsFrame(c: Crypto, encrypted: Data, key: Data) returns (fill: Data)
    requires c.Lawful() && DecryptLocal(c, encrypted, key).Ok? && |encrypted| < 0x7FFF_FFE0
    ensures var payload := DecryptLocal(c, encrypted, key).value.rest;
            Framable(payload) && |fill| == PadLength(4 + |payload|) && encrypted == Frame(c, payload, key, fill)
  {
    hide Plain, Seal, FromLE32, PadLength;
    var plain := c.decrypt(key, encrypted[..16], encrypted[16..]);
    var dataLen := FromLE32(plain[..4]);
    fill := plain[dataLen..];
    SealedAgain(c, encrypted, key);
    ClearTextParts(plain, dataLen);
  }

  /** And nothing else opens: an accepted message is the frame of the payload returned,
      under some padding of exactly the length the writer would have used. */
  lemma OnlyFramesDecrypt(c: Crypto, encrypted: Data, key: Data, payload: Data)
    requires c.Lawful() && Framable(payload) && |encrypted| < 0x7FFF_FFE0
    ensures DecryptLocal(c, encrypted, key) == Ok(Cursor(payload, true))
            <==> exists fill :: |fill| == PadLength(4 + |payload|) && encrypted == Frame(c, payload, key, fill)
  {
    if DecryptLocal(c, encrypted, key) == Ok(Cursor(payload, true)) {
      var fill := AcceptedIsFrame(c, encrypted, key);
      assert encrypted == Frame(c, payload, key, fill);
    } else {
      forall fill | |fill| == PadLength(4 + |payload|) && encrypted == Frame(c, payload, key, fill)
        ensures false
      {
        DecryptUndoesPrepare(c, payload, key, fill);
      }
    }
  }

  /** `ReadEncryptedFile`: the first array of the file, decrypted. */
  function ReadEncrypted(c: Crypto, files: Files, basePath: Path, fileName: string, key: Data): Result<Cursor>
    requires c.Lawful()
  {
    match ReadFile(c, files, basePath, fileName)
    case Err(e) => Err(e)
    case Ok(f) => DecryptLocal(c, ReadArray(Cursor(f.data, true)).0, key)
  }

  method ReadEncryptedFile(c: Crypto, fs: FileSystem, basePath: Path, fileName: string, key: Data)
      returns (r: Result<Stream>)
    requires c.Lawful()
    ensures r.Err? ==> ReadEncrypted(c, fs.files, basePath, fileName, key) == Err(r.error)
    ensures r.Ok? ==> fresh(r.value) && r.value.Valid()
    ensures r.Ok? ==> ReadEncrypted(c, fs.files, basePath, fileName, key) == Ok(r.value.Cur())
  {
    var file := ReadFileLoop(c, fs, basePath, fileName);
    if file.Err? {
      return Err(file.error);
    }
    var stream := new Stream(file.value.data, 0);
    var encrypted := stream.ReadByteArray();
    assert file.value.data[0..] == file.value.data;
    r := DecryptLocalSteps(c, encrypted, key);
  }

  /** A frame written as the only array of a file comes back from that file. */
  lemma EncryptedFileRoundTrip(c: Crypto, files: Files, basePath: Path, fileName: string, payload: Data, key: Data,
      fill: Data)
    requires c.Lawful() && Framable(payload) && |fill| == PadLength(4 + |payload|)
    requires var frame := Array(Frame(c, payload, key, fill));
             && frame.Fits()
             && basePath + [fileName + "s"] in files
             && files[basePath + [fileName + "s"]] == Envelope(c, APP_VERSION, frame.Encoded())
    ensures ReadEncrypted(c, files, basePath, fileName, key) == Ok(Cursor(payload, true))
  {
    var frame := Array(Frame(c, payload, key, fill));
    ReadFinished(c, files, basePath, fileName, frame.Encoded());
    ReadArrayWritten(frame, [], true);
    assert frame.Encoded() + [] == frame.Encoded();
    DecryptUndoesPrepare(c, payload, key, fill);
  }
}
