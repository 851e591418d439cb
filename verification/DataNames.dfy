/** File names derived from data names: `ComposeDataString`, `ComputeDataNameKey` and
    `ToFilePart`. */
module DataNames {
  import opened Storage
  import opened Bytes

  function HexDigit(v: nat): char
    requires v < 16
  {
    if v < 10 then '0' + v as char else 'A' + (v - 10) as char
  }

  /** The low `n` nibbles of a number, least significant first. */
  function Nibbles(val: nat, n: nat): (s: string)
    ensures |s| == n
  {
    if n == 0 then "" else [HexDigit(val % 16)] + Nibbles(val / 16, n - 1)
  }

  function ToFilePart(val: nat): string { Nibbles(val, 16) }

  method NibblesLoop(val: nat, n: nat) returns (result: string)
    ensures result == Nibbles(val, n)
  {
    result := "";
    var rest := val;
    for i := 0 to n
      invariant result + Nibbles(rest, n - i) == Nibbles(val, n)
    {
      var v := rest % 16;
      assert Nibbles(rest, n - i) == [HexDigit(v)] + Nibbles(rest / 16, n - i - 1);
      result := result + [HexDigit(v)];
      rest := rest / 16;
    }
    assert result + Nibbles(rest, 0) == result;
  }

  method ToFilePartLoop(val: nat) returns (result: string)
    ensures result == ToFilePart(val)
  {
    result := NibblesLoop(val, 16);
  }

  function Pow16(n: nat): (p: nat)
    ensures p > 0
  {
    if n == 0 then 1 else 16 * Pow16(n - 1)
  }

  lemma MultipleAtLeast(m: nat, d: int)
    requires m > 0 && d >= 1
    ensures m * d >= m
  {
  }

  lemma RemainderUnique(a: nat, m: nat, t: nat, r: nat)
    requires a == m * t + r && r < m
    ensures a % m == r
  {
    var q: int, s: int := a / m, a % m;
    assert a == m * q + s;
    assert m * (t - q) == m * t - m * q == s - r;
    if t > q {
      MultipleAtLeast(m, t - q);
    } else if t < q {
      MultipleAtLeast(m, q - t);
    }
  }

  lemma LowNibble(a: nat, p: nat)
    requires p > 0
    ensures a % (16 * p) == a % 16 + 16 * (a / 16 % p)
  {
    var q, r := a / 16, a % 16;
    var t, u := q / p, q % p;
    assert q == p * t + u;
    assert a == 16 * (p * t + u) + r == (16 * p) * t + (16 * u + r);
    RemainderUnique(a, 16 * p, t, 16 * u + r);
  }

  lemma {:induction false} NibblesInjective(a: nat, b: nat, n: nat)
    ensures Nibbles(a, n) == Nibbles(b, n) <==> a % Pow16(n) == b % Pow16(n)
  {
    if n > 0 {
      NibblesInjective(a / 16, b / 16, n - 1);
      LowNibble(a, Pow16(n - 1));
      LowNibble(b, Pow16(n - 1));
      var na, nb := Nibbles(a, n), Nibbles(b, n);
      assert na[1..] == Nibbles(a / 16, n - 1) && nb[1..] == Nibbles(b / 16, n - 1);
      assert na == [na[0]] + na[1..] && nb == [nb[0]] + nb[1..];
    }
  }

  lemma Pow16PlusFour(k: nat)
    ensures Pow16(k + 4) == 0x1_0000 * Pow16(k)
  {
    assert Pow16(k + 2) == 0x100 * Pow16(k);
    assert Pow16(k + 4) == 0x100 * Pow16(k + 2);
  }

  /** Two keys name the same file exactly when they agree on their low 64 bits. */
  lemma ToFilePartInjective(a: nat, b: nat)
    ensures ToFilePart(a) == ToFilePart(b) <==> a % U64 == b % U64
  {
    NibblesInjective(a, b, 16);
    var k: nat := 0;
    Pow16PlusFour(k);
    Pow16PlusFour(k + 4);
    Pow16PlusFour(k + 8);
    Pow16PlusFour(k + 12);
  }

  /** No file part is mistaken for the key file: its first character is a hex digit. */
  lemma FilePartIsHex(val: nat)
    ensures |ToFilePart(val)| == 16 && ToFilePart(val)[0] != 'k'
  {
  }

  /** `index` counts from 0; the first account keeps the bare key file name. */
  function ComposeDataString(dataName: string, index: nat): string
    requires index < 9
  {
    if index > 0 then dataName + "#" + [HexDigit(index + 1)] else dataName
  }

  function AccountFilePart(c: Crypto, keyFile: string, index: nat): string
    requires index < 9
  {
    ToFilePart(c.nameKey(ComposeDataString(keyFile, index)))
  }
}
