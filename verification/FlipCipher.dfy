/** Keys under which nothing opens that was sealed under another one, and primitives that have
    such keys: they show that hypotheses about wrong keys can be met. */
module FlipCipher {
  import opened Bytes
  import opened Storage
  import opened LocalEncryption

  /** Nothing sealed under the one key opens under the other. */
  ghost predicate Clash(c: Crypto, key: Data, other: Data)
    requires c.Lawful()
  {
    forall payload: Data, fill: Data :: Framable(payload) && |fill| == PadLength(4 + |payload|) ==>
      DecryptLocal(c, Frame(c, payload, key, fill), other).Err?
  }

  function Flipped(x: Data): Data { seq(|x|, i requires 0 <= i < |x| => 255 - x[i]) }

  lemma FlippedTwice(x: Data)
    ensures Flipped(Flipped(x)) == x
  {
  }

  /** A cipher that flips every bit under some keys. */
  function Flip(key: Data, messageKey: Data, x: Data): Data {
    if |key| > 0 && key[0] == 1 then Flipped(x) else x
  }

  /** A hash that starts with the first byte. */
  ghost predicate Flips(c: Crypto) {
    && (forall x :: |x| > 0 ==> |c.sha1(x)| == 20 && c.sha1(x)[0] == x[0])
    && forall k, m, x :: c.encrypt(k, m, x) == c.decrypt(k, m, x) == Flip(k, m, x)
  }

  lemma FlipsExists(kdf: (Data, Data) -> Data) returns (c: Crypto)
    requires forall s, p :: |kdf(s, p)| == 256
    ensures c.Lawful() && TellsNamesApart(c) && Flips(c) && c.kdf == kdf
  {
    var plain := LawfulExists();
    c := plain.(sha1 := (x: Data) => seq(20, _ => if |x| == 0 then 0 else x[0]), kdf := kdf, encrypt := Flip,
                decrypt := Flip);
    forall k: Data, m: Data, x ensures |Flip(k, m, x)| == |x| && Flip(k, m, Flip(k, m, x)) == x {
      FlippedTwice(x);
    }
  }

  /** A message whose clear text does not hash to its key is refused. */
  lemma HashDiffers(c: Crypto, plain: Data, key: Data, wrongKey: Data)
    requires c.Lawful() && |plain| > 0 && |plain| % 16 == 0
    requires var messageKey := c.sha1(plain)[..16];
             c.sha1(c.decrypt(wrongKey, messageKey, c.encrypt(key, messageKey, plain)))[0] != messageKey[0]
    ensures DecryptLocal(c, Seal(c, plain, key), wrongKey).Err?
  {
    var messageKey := c.sha1(plain)[..16];
    var sealed := Seal(c, plain, key);
    assert sealed[..16] == messageKey && sealed[16..] == c.encrypt(key, messageKey, plain);
    var decrypted := c.decrypt(wrongKey, messageKey, c.encrypt(key, messageKey, plain));
    assert c.sha1(decrypted)[..16][0] == c.sha1(decrypted)[0];
  }

  lemma PlainAligned(payload: Data, fill: Data)
    requires Framable(payload) && |fill| == PadLength(4 + |payload|)
    ensures |Plain(payload, fill)| > 0 && |Plain(payload, fill)| % 16 == 0
  {
  }

  lemma FlipRefused(c: Crypto, plain: Data, key: Data, other: Data)
    requires c.Lawful() && Flips(c) && |plain| > 0 && |plain| % 16 == 0
    requires |key| > 0 && |other| > 0 && key[0] != 1 && other[0] == 1
    ensures DecryptLocal(c, Seal(c, plain, key), other).Err?
  {
    hide DecryptLocal, Seal;
    var messageKey := c.sha1(plain)[..16];
    assert c.encrypt(key, messageKey, plain) == plain;
    assert c.decrypt(other, messageKey, plain) == Flipped(plain);
    HashDiffers(c, plain, key, other);
  }

  /** Keys that flip clash with those that do not: the first byte of the clear text changes, and
      with it the hash. */
  lemma FlipClashes(c: Crypto, key: Data, other: Data)
    requires c.Lawful() && Flips(c) && |key| > 0 && |other| > 0 && key[0] != 1 && other[0] == 1
    ensures Clash(c, key, other)
  {
    hide DecryptLocal, Seal, Plain, Flips, Crypto.Lawful;
    forall payload: Data, fill: Data | Framable(payload) && |fill| == PadLength(4 + |payload|)
      ensures DecryptLocal(c, Frame(c, payload, key, fill), other).Err?
    {
      PlainAligned(payload, fill);
      FlipRefused(c, Plain(payload, fill), key, other);
    }
  }
}
