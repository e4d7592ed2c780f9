/**
 The metadata envelope (vault/internal/crypto/metadata.go): base64 of a 16-byte
 IV followed by the plaintext in counter mode (section 6.5 of NIST SP 800-38A).
 The block cipher is any function from a key and a block to a block.
 */
module Metadata {
  import opened Wrappers
  import opened Base64

  const DEK_LEN: nat := 32
  const IV_LEN: nat := 16

  datatype CryptoError = InvalidKey | NoRandomness | NotBase64 | InvalidCiphertext | NoTeamSecret

  type Bytes = seq<byte>
  type BlockCipher = (Bytes, Bytes) -> Bytes

  /** Under a key of the right length the cipher maps blocks to blocks. */
  ghost predicate IsCipher(cipher: BlockCipher) {
    forall k: Bytes, b: Bytes :: |k| == DEK_LEN && |b| == IV_LEN ==> |cipher(k, b)| == IV_LEN
  }

  // ---- bytes -----------------------------------------------------------------

  function Pow2(n: nat): (r: nat)
    ensures r > 0
  {
    if n == 0 then 1 else 2 * Pow2(n - 1)
  }

  /** Exclusive or of the low n bits. */
  function XorBits(a: nat, b: nat, n: nat): (r: nat)
    ensures r < Pow2(n)
  {
    if n == 0 then 0 else 2 * XorBits(a / 2, b / 2, n - 1) + (a + b) % 2
  }

  lemma {:induction false} XorTwice(a: nat, b: nat, n: nat)
    requires a < Pow2(n)
    ensures XorBits(XorBits(a, b, n), b, n) == a
  {
    if n > 0 {
      XorTwice(a / 2, b / 2, n - 1);
      HalfAndBit(XorBits(a / 2, b / 2, n - 1), a, b);
    }
  }

  lemma HalfAndBit(half: nat, a: nat, b: nat)
    ensures var x := 2 * half + (a + b) % 2;
            x / 2 == half && 2 * (a / 2) + (x + b) % 2 == a
  {
  }

  function Xor(a: byte, b: byte): byte {
    assert Pow2(8) == 256 by { assert Pow2(4) == 16; }
    XorBits(a, b, 8)
  }

  lemma XorInvolutive(a: byte, b: byte)
    ensures Xor(Xor(a, b), b) == a
  {
    assert Pow2(8) == 256 by { assert Pow2(4) == 16; }
    XorTwice(a, b, 8);
  }

  /** Bit i, from the low end. */
  predicate Bit(x: nat, i: nat) {
    x / Pow2(i) % 2 == 1
  }

  lemma HalfFirst(x: nat, p: nat)
    requires p > 0
    ensures x / (2 * p) == x / 2 / p
  {
    var q, r := x / 2 / p, x / 2 % p;
    assert x / 2 == q * p + r;
    assert x == q * (2 * p) + (2 * r + x % 2);
    assert 0 <= 2 * r + x % 2 < 2 * p;
    QuotientIs(x, 2 * p, q, 2 * r + x % 2);
  }

  lemma QuotientIs(x: nat, d: nat, q: nat, r: nat)
    requires 0 <= r < d && x == q * d + r
    ensures x / d == q
  {
    var e := x / d - q;
    assert e * d == r - x % d;
    Multiples(e, d);
  }

  lemma Multiples(e: int, d: int)
    requires d > 0
    ensures e >= 1 ==> e * d >= d
    ensures e <= -1 ==> e * d <= -d
  {
  }

  lemma BitOfHalf(x: nat, i: nat)
    requires i > 0
    ensures Bit(x, i) == Bit(x / 2, i - 1)
  {
    HalfFirst(x, Pow2(i - 1));
  }

  lemma {:induction false} XorBitsBit(a: nat, b: nat, n: nat, i: nat)
    requires i < n
    ensures Bit(XorBits(a, b, n), i) <==> Bit(a, i) != Bit(b, i)
  {
    var x, half := XorBits(a, b, n), XorBits(a / 2, b / 2, n - 1);
    HalfAndBit(half, a, b);
    if i == 0 {
      LowBit(half, a, b);
    } else {
      XorBitsBit(a / 2, b / 2, n - 1, i - 1);
      BitOfHalf(a, i);
      BitOfHalf(b, i);
      BitOfHalf(x, i);
    }
  }

  lemma LowBit(half: nat, a: nat, b: nat)
    ensures Bit(2 * half + (a + b) % 2, 0) <==> Bit(a, 0) != Bit(b, 0)
  {
    assert Pow2(0) == 1;
  }

  /** Exclusive or, bit by bit: set exactly where one of the two is. */
  lemma XorIs(a: byte, b: byte, i: nat)
    requires i < 8
    ensures Bit(Xor(a, b), i) <==> Bit(a, i) != Bit(b, i)
  {
    XorBitsBit(a, b, 8, i);
  }

  // ---- the counter -------------------------------------------------------------

  /** Big-endian value of a counter block. */
  function ValueOf(c: Bytes): nat {
    if c == [] then 0 else ValueOf(c[..|c| - 1]) * 256 + c[|c| - 1]
  }

  /** The first bytes weigh most. */
  lemma {:induction false} ValueConcat(c: Bytes, d: Bytes)
    ensures ValueOf(c + d) == ValueOf(c) * Pow256(|d|) + ValueOf(d)
    ensures |c| == 1 ==> ValueOf(c) == c[0]
  {
    if |c| == 1 {
      assert c[..0] == [] && ValueOf([]) == 0;
    }
    if d == [] {
      assert c + d == c;
    } else {
      var n := |d| - 1;
      assert (c + d)[..|c + d| - 1] == c + d[..n];
      ValueConcat(c, d[..n]);
      Shift(ValueOf(c), Pow256(n), ValueOf(d[..n]), d[n]);
    }
  }

  lemma Shift(v: nat, p: nat, w: nat, x: nat)
    ensures (v * p + w) * 256 + x == v * (256 * p) + (w * 256 + x)
  {
  }

  /** Blocks of one length with one value are the same. */
  lemma {:induction false} ValueUnique(c: Bytes, d: Bytes)
    requires |c| == |d| && ValueOf(c) == ValueOf(d)
    ensures c == d
  {
    if c != [] {
      var n := |c| - 1;
      assert c[n] == ValueOf(c) % 256 && d[n] == ValueOf(d) % 256;
      ValueUnique(c[..n], d[..n]);
      assert c == c[..n] + [c[n]] && d == d[..n] + [d[n]];
    }
  }

  function Pow256(n: nat): (r: nat)
    ensures r > 0
  {
    if n == 0 then 1 else 256 * Pow256(n - 1)
  }

  /** Add one from the last byte up, dropping the carry out of the first. */
  function Increment(c: Bytes): (r: Bytes)
    ensures |r| == |c|
  {
    if c == [] then []
    else
      var n := |c| - 1;
      if c[n] == 255 then Increment(c[..n]) + [0] else c[..n] + [c[n] + 1]
  }

  lemma {:induction false} ValueBound(c: Bytes)
    ensures ValueOf(c) < Pow256(|c|)
  {
    if c != [] {
      ValueBound(c[..|c| - 1]);
    }
  }

  lemma {:induction false} IncrementValue(c: Bytes)
    ensures ValueOf(Increment(c)) == if ValueOf(c) + 1 == Pow256(|c|) then 0 else ValueOf(c) + 1
  {
    if c != [] {
      var n := |c| - 1;
      var front := c[..n];
      IncrementValue(front);
      ValueBound(front);
      if c[n] == 255 {
        assert Increment(c)[..n] == Increment(front);
      } else {
        assert Increment(c)[..n] == front;
      }
    }
  }

  /** The counter block of block number n. */
  function CounterBlock(iv: Bytes, n: nat): (r: Bytes)
    ensures |r| == |iv|
  {
    if n == 0 then iv else Increment(CounterBlock(iv, n - 1))
  }

  /** Block n is enciphered under the IV plus n, modulo 2^128 for a 16-byte IV, for the first 2^128 blocks. */
  lemma {:induction false} CounterValue(iv: Bytes, n: nat)
    requires n < Pow256(|iv|)
    ensures var sum := ValueOf(iv) + n;
            ValueOf(CounterBlock(iv, n)) == if sum < Pow256(|iv|) then sum else sum - Pow256(|iv|)
  {
    ValueBound(iv);
    if n > 0 {
      CounterValue(iv, n - 1);
      IncrementValue(CounterBlock(iv, n - 1));
    }
  }

  /** For any number of blocks the counter wraps. */
  lemma {:induction false} CounterModulo(iv: Bytes, n: nat)
    requires iv != []
    ensures Pow256(|iv|) > 1 && ValueOf(CounterBlock(iv, n)) == Modulo(ValueOf(iv) + n, Pow256(|iv|))
  {
    PowLarge(|iv|);
    if n == 0 {
      ValueBound(iv);
      SmallModulo(ValueOf(iv), Pow256(|iv|));
    } else {
      CounterModulo(iv, n - 1);
      IncrementValue(CounterBlock(iv, n - 1));
      NextModulo(ValueOf(iv) + n - 1, Pow256(|iv|));
    }
  }

  function Modulo(x: nat, m: nat): nat
    requires m > 0
  {
    x % m
  }

  lemma {:induction false} PowLarge(n: nat)
    ensures Pow256(n) >= 1 && (n > 0 ==> Pow256(n) > 1)
  {
    if n > 0 { PowLarge(n - 1); }
  }

  lemma SmallModulo(x: nat, m: nat)
    requires x < m
    ensures Modulo(x, m) == x
  {
  }

  lemma NextModulo(x: nat, m: nat)
    requires m > 1
    ensures Modulo(x + 1, m) == if Modulo(x, m) + 1 == m then 0 else Modulo(x, m) + 1
  {
    var q := x / m;
    assert x == q * m + x % m;
    if x % m + 1 == m {
      assert x + 1 == (q + 1) * m + 0;
      RemainderIs(x + 1, m, q + 1, 0);
    } else {
      RemainderIs(x + 1, m, q, x % m + 1);
    }
  }

  lemma RemainderIs(x: nat, d: nat, q: nat, r: nat)
    requires 0 <= r < d && x == q * d + r
    ensures x % d == r
  {
    QuotientIs(x, d, q, r);
  }

  /** No counter block is used twice among them. */
  lemma CountersDistinct(iv: Bytes, i: nat, j: nat)
    requires i < j < Pow256(|iv|)
    ensures CounterBlock(iv, i) != CounterBlock(iv, j)
  {
    CounterValue(iv, i);
    CounterValue(iv, j);
    ValueBound(iv);
  }

  // ---- counter mode --------------------------------------------------------------

  function KeyByte(cipher: BlockCipher, key: Bytes, iv: Bytes, i: nat): byte {
    var block := cipher(key, CounterBlock(iv, i / IV_LEN));
    if i % IV_LEN < |block| then block[i % IV_LEN] else 0
  }

  /** XORKeyStream from the start of the stream. */
  function Stream(cipher: BlockCipher, key: Bytes, iv: Bytes, data: Bytes): (r: Bytes)
    ensures |r| == |data|
  {
    seq(|data|, i requires 0 <= i < |data| => Xor(data[i], KeyByte(cipher, key, iv, i)))
  }

  /**
   Counter mode, bit by bit: byte i of the result differs from the data in the
   bits set in byte i % 16 of the cipher's output on the one counter block
   whose value is the IV's plus i / 16, modulo 2^128.
   */
  lemma StreamIs(cipher: BlockCipher, key: Bytes, iv: Bytes, data: Bytes, i: nat, block: Bytes, bit: nat)
    requires IsCipher(cipher) && |key| == DEK_LEN && |iv| == IV_LEN && i < |data| && bit < 8
    requires |block| == 16 && ValueOf(block) == Modulo(ValueOf(iv) + i / 16, Pow256(16))
    ensures |cipher(key, block)| == 16
    ensures Bit(Stream(cipher, key, iv, data)[i], bit) <==> Bit(data[i], bit) != Bit(cipher(key, block)[i % 16], bit)
  {
    KeyByteIs(cipher, key, iv, i, block);
    XorIs(data[i], KeyByte(cipher, key, iv, i), bit);
  }

  lemma KeyByteIs(cipher: BlockCipher, key: Bytes, iv: Bytes, i: nat, block: Bytes)
    requires IsCipher(cipher) && |key| == DEK_LEN && |iv| == IV_LEN
    requires |block| == 16 && ValueOf(block) == Modulo(ValueOf(iv) + i / 16, Pow256(16))
    ensures |cipher(key, block)| == 16 && KeyByte(cipher, key, iv, i) == cipher(key, block)[i % 16]
  {
    CounterModulo(iv, i / 16);
    ValueUnique(block, CounterBlock(iv, i / 16));
  }

  /** Applying the stream twice gives the data back. */
  lemma StreamInvolutive(cipher: BlockCipher, key: Bytes, iv: Bytes, data: Bytes)
    ensures Stream(cipher, key, iv, Stream(cipher, key, iv, data)) == data
  {
    forall i | 0 <= i < |data|
      ensures Stream(cipher, key, iv, Stream(cipher, key, iv, data))[i] == data[i]
    {
      XorInvolutive(data[i], KeyByte(cipher, key, iv, i));
    }
  }

  /** EncryptMetadata; `iv` is what the random source gave, if it worked. */
  function Encrypted(cipher: BlockCipher, plaintext: Bytes, key: Bytes, iv: Option<Bytes>): Result<string, CryptoError>
  {
    if |key| != DEK_LEN then Err(InvalidKey)
    else if iv.None? then Err(NoRandomness)
    else Ok(Encode(iv.value + Stream(cipher, key, iv.value, plaintext)))
  }

  function Decrypted(cipher: BlockCipher, text: string, key: Bytes): Result<Bytes, CryptoError> {
    if |key| != DEK_LEN then Err(InvalidKey)
    else
      var raw := Decode(text);
      if raw.None? then Err(NotBase64)
      else if |raw.value| < IV_LEN then Err(InvalidCiphertext)
      else Ok(Stream(cipher, key, raw.value[..IV_LEN], raw.value[IV_LEN..]))
  }

  /** The envelope is base64 of the IV followed by the stream; and when there is none. */
  lemma EnvelopeIs(cipher: BlockCipher, plaintext: Bytes, key: Bytes, iv: Option<Bytes>)
    requires iv.Some? ==> |iv.value| == IV_LEN
    ensures var r := Encrypted(cipher, plaintext, key, iv);
            && (r == Err(InvalidKey) <==> |key| != 32)
            && (r == Err(NoRandomness) <==> |key| == 32 && iv.None?)
            && (r.Ok? <==> |key| == 32 && iv.Some?)
            && (r.Ok? ==>
                  var raw := Decode(r.value);
                  raw.Some? && |raw.value| == 16 + |plaintext|
                  && raw.value[..16] == iv.value && raw.value[16..] == Stream(cipher, key, iv.value, plaintext))
  {
    if |key| == 32 && iv.Some? {
      Base64.RoundTrip(iv.value + Stream(cipher, key, iv.value, plaintext));
    }
  }

  /** Which texts open, and the error of each other. */
  lemma OpeningIs(cipher: BlockCipher, text: string, key: Bytes)
    ensures var r := Decrypted(cipher, text, key);
            var raw := Decode(text);
            && (r == Err(InvalidKey) <==> |key| != 32)
            && (r == Err(NotBase64) <==> |key| == 32 && raw.None?)
            && (r == Err(InvalidCiphertext) <==> |key| == 32 && raw.Some? && |raw.value| < 16)
            && (r.Ok? <==> |key| == 32 && raw.Some? && |raw.value| >= 16)
            && (r.Ok? ==> Stream(cipher, key, raw.value[..16], r.value) == raw.value[16..])
  {
    if |key| == 32 && Decode(text).Some? && |Decode(text).value| >= 16 {
      StreamInvolutive(cipher, key, Decode(text).value[..16], Decode(text).value[16..]);
    }
  }

  /** For every plaintext, key and IV, decrypting the envelope gives the plaintext. */
  lemma MetadataRoundTrip(cipher: BlockCipher, plaintext: Bytes, key: Bytes, iv: Bytes)
    requires |key| == DEK_LEN && |iv| == IV_LEN
    ensures Encrypted(cipher, plaintext, key, Some(iv)).Ok?
    ensures Decrypted(cipher, Encrypted(cipher, plaintext, key, Some(iv)).value, key) == Ok(plaintext)
  {
    var ct := Stream(cipher, key, iv, plaintext);
    Base64.RoundTrip(iv + ct);
    assert (iv + ct)[..IV_LEN] == iv && (iv + ct)[IV_LEN..] == ct;
    StreamInvolutive(cipher, key, iv, plaintext);
  }

  // ---- the code --------------------------------------------------------------------

  /** cipher.NewCTR(block, iv).XORKeyStream(dst, src), block by block. */
  method XorKeyStream(cipher: BlockCipher, key: Bytes, iv: Bytes, src: Bytes) returns (dst: array<byte>)
    requires IsCipher(cipher) && |key| == DEK_LEN && |iv| == IV_LEN
    ensures fresh(dst) && dst[..] == Stream(cipher, key, iv, src)
  {
    dst := new byte[|src|](_ => 0);
    var counter := iv;
    var block := cipher(key, counter);
    ghost var used := 0;
    var at := 0;
    for i := 0 to |src|
      invariant 0 <= at <= IV_LEN && |block| == IV_LEN
      invariant i == used * IV_LEN + at
      invariant counter == CounterBlock(iv, used) && block == cipher(key, counter)
      invariant forall k :: 0 <= k < i ==> dst[k] == Xor(src[k], KeyByte(cipher, key, iv, k))
    {
      if at == IV_LEN {
        counter := Increment(counter);
        block := cipher(key, counter);
        at := 0;
        used := used + 1;
      }
      assert i / IV_LEN == used && i % IV_LEN == at;
      dst[i] := Xor(src[i], block[at]);
      at := at + 1;
    }
  }

  method EncryptMetadata(cipher: BlockCipher, plaintext: Bytes, key: Bytes, iv: Option<Bytes>)
    returns (r: Result<string, CryptoError>)
    requires IsCipher(cipher)
    requires iv.Some? ==> |iv.value| == IV_LEN
    ensures r == Encrypted(cipher, plaintext, key, iv)
  {
    if |key| != DEK_LEN {
      return Err(InvalidKey);
    }
    if iv.None? {
      return Err(NoRandomness);
    }
    var ct := XorKeyStream(cipher, key, iv.value, plaintext);
    var out := iv.value;
    out := out + ct[..];
    return Ok(Encode(out));
  }

  method DecryptMetadata(cipher: BlockCipher, text: string, key: Bytes) returns (r: Result<Bytes, CryptoError>)
    requires IsCipher(cipher)
    ensures r == Decrypted(cipher, text, key)
  {
    if |key| != DEK_LEN {
      return Err(InvalidKey);
    }
    var raw := Decode(text);
    if raw.None? {
      return Err(NotBase64);
    }
    if |raw.value| < IV_LEN {
      return Err(InvalidCiphertext);
    }
    var pt := XorKeyStream(cipher, key, raw.value[..IV_LEN], raw.value[IV_LEN..]);
    return Ok(pt[..]);
  }
}
