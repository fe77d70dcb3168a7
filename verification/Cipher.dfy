/** The text encryption around the block cipher: key derivation, zero padding, and cutting the padding
    off again. The hash and the cipher themselves are given functions. */
module Cipher {
  import opened Framing
  import opened GameDefs

  const AES_BLOCK_SIZE := 16
  const SHA1_DATA_SIZE := 20

  type Bytes = seq<byte>

  /** The library: a 20-byte hash, and a block cipher in both directions from a key and an initial
      vector. */
  datatype Library = Library(sha1: Bytes -> Bytes, encrypt: (Bytes, Bytes, Bytes) -> Bytes, decrypt: (Bytes, Bytes, Bytes) -> Bytes)

  ghost predicate HashesFit(l: Library) {
    forall x :: |l.sha1(x)| == SHA1_DATA_SIZE
  }

  /** On whole blocks the cipher keeps the length and decryption undoes encryption. */
  ghost predicate Invertible(l: Library) {
    forall k, iv, x :: |x| % AES_BLOCK_SIZE == 0 ==>
      |l.encrypt(k, iv, x)| == |x| && l.decrypt(k, iv, l.encrypt(k, iv, x)) == x
  }

  // ---------------------------------------------------------------------------------------------
  // Padding.

  /** ADD_PADDING: 0 when the sum would not fit. */
  function AddPadding(x: nat): nat {
    if x <= UINT_MAX - 15 then (x + 15) / 16 * 16 else 0
  }

  /** The padded size is the least multiple of the block size that is no smaller; it fits 32 bits
      whenever it is not refused. */
  lemma PaddingIsLeastMultiple(x: nat)
    requires x <= UINT_MAX - 15
    ensures AddPadding(x) % AES_BLOCK_SIZE == 0 && x <= AddPadding(x) <= UINT_MAX
    ensures forall m: nat :: m % AES_BLOCK_SIZE == 0 && x <= m ==> AddPadding(x) <= m
    ensures AddPadding(x) == 0 <==> x == 0
  {
    var q := (x + 15) / 16;
    assert 16 * q <= x + 15 < 16 * q + 16;
    forall m: nat | m % 16 == 0 && x <= m
      ensures 16 * q <= m
    {
      assert m == 16 * (m / 16);
    }
  }

  function Zeros(n: nat): Bytes {
    seq(n, _ => 0)
  }

  /** The text up to its first zero byte. */
  function UpToNul(s: Bytes): (r: Bytes)
    ensures |r| <= |s| && r == s[..|r|] && (forall i :: 0 <= i < |r| ==> s[i] != 0) && (|r| < |s| ==> s[|r|] == 0)
  {
    if s == [] || s[0] == 0 then [] else [s[0]] + UpToNul(s[1..])
  }

  lemma {:induction false} PaddingVanishes(s: Bytes, n: nat)
    ensures UpToNul(s + Zeros(n)) == UpToNul(s)
  {
    if s == [] {
      assert s + Zeros(n) == Zeros(n);
    } else if s[0] != 0 {
      assert (s + Zeros(n))[1..] == s[1..] + Zeros(n);
      PaddingVanishes(s[1..], n);
    }
  }

  lemma {:induction false} NulFreeIsWhole(s: Bytes)
    ensures UpToNul(s) == s <==> 0 !in s
  {
    if s != [] && s[0] != 0 {
      NulFreeIsWhole(s[1..]);
      assert s == [s[0]] + s[1..];
    }
  }

  // ---------------------------------------------------------------------------------------------
  // Key derivation.

  /** Forty bytes from the key: two twice-hashed blocks, the second chained to the first. */
  function KeyBytes(l: Library, keyData: Bytes): Bytes {
    var keyBuf1 := l.sha1(l.sha1(keyData));
    keyBuf1 + l.sha1(l.sha1(keyBuf1 + keyData))
  }

  /** The key and the initial vector; what the two buffers held before stays in them when the key is so
      long that its size overflows. */
  function Derived(l: Library, keyData: Bytes, key0: Bytes, iv0: Bytes): (Bytes, Bytes)
    requires HashesFit(l)
  {
    if |keyData| > UINT_MAX - SHA1_DATA_SIZE then (key0, iv0)
    else (KeyBytes(l, keyData)[..AES_BLOCK_SIZE], KeyBytes(l, keyData)[AES_BLOCK_SIZE..2 * AES_BLOCK_SIZE])
  }

  /** The key is the first 16 bytes of the key data hashed twice; the initial vector is the other 4 bytes of it and
      the first 12 of that and the key data, hashed twice. */
  lemma KeyAndVector(l: Library, keyData: Bytes, key0: Bytes, iv0: Bytes)
    requires HashesFit(l) && |keyData| <= UINT_MAX - 20
    ensures var (key, iv), h := Derived(l, keyData, key0, iv0), l.sha1(l.sha1(keyData));
            var g := l.sha1(l.sha1(h + keyData));
            && |key| == |iv| == 16 && |h| == |g| == 20
            && (forall i :: 0 <= i < 16 ==> key[i] == h[i])
            && (forall i :: 0 <= i < 4 ==> iv[i] == h[16 + i])
            && forall i :: 0 <= i < 12 ==> iv[4 + i] == g[i]
  {
    var h := l.sha1(l.sha1(keyData));
    var g := l.sha1(l.sha1(h + keyData));
    assert KeyBytes(l, keyData) == h + g;
    assert |h| == 20 && |g| == 20;
    hide KeyBytes;
  }

  method MemCpy(dst: array<byte>, at: nat, src: Bytes)
    requires at + |src| <= dst.Length
    modifies dst
    ensures dst[..] == old(dst[..at]) + src + old(dst[at + |src|..])
  {
    forall i | 0 <= i < |src| {
      dst[at + i] := src[i];
    }
  }

  method BytesToKey(l: Library, keyData: Bytes, key: array<byte>, iv: array<byte>)
    requires HashesFit(l) && key.Length == iv.Length == AES_BLOCK_SIZE && key != iv
    modifies key, iv
    ensures (key[..], iv[..]) == Derived(l, keyData, old(key[..]), old(iv[..]))
  {
    var tmpBuf1 := l.sha1(keyData);
    var keyBuf1 := l.sha1(tmpBuf1);
    var keyBufSize := |keyBuf1|;
    if |keyData| > UINT_MAX - keyBufSize {
      return;
    }
    var tmpKeyData := new byte[|keyData| + keyBufSize];
    MemCpy(tmpKeyData, 0, keyBuf1);
    MemCpy(tmpKeyData, keyBufSize, keyData);
    assert tmpKeyData[..] == keyBuf1 + keyData;
    var tmpBuf2 := l.sha1(tmpKeyData[..]);
    var keyBuf2 := l.sha1(tmpBuf2);
    MemCpy(key, 0, keyBuf1[..AES_BLOCK_SIZE]);
    var tmpivBytes := |keyBuf1| - AES_BLOCK_SIZE;
    MemCpy(iv, 0, keyBuf1[AES_BLOCK_SIZE..]);
    MemCpy(iv, tmpivBytes, keyBuf2[..AES_BLOCK_SIZE - tmpivBytes]);
    assert key[..] == KeyBytes(l, keyData)[..AES_BLOCK_SIZE];
    assert iv[..] == KeyBytes(l, keyData)[AES_BLOCK_SIZE..2 * AES_BLOCK_SIZE];
  }

  // ---------------------------------------------------------------------------------------------
  // Encryption and decryption. The size of the text is cast to 32 bits, and the padded size to a
  // signed integer, which must not become negative.

  datatype Outcome = Refused | Thrown | Done(data: Bytes)

  function PlainSize(plain: Bytes): nat {
    |plain| % 0x1_0000_0000
  }

  function Padded(plain: Bytes): Bytes
    requires PlainSize(plain) <= UINT_MAX - 15
  {
    plain[..PlainSize(plain)] + Zeros(AddPadding(PlainSize(plain)) - PlainSize(plain))
  }

  function Encrypted(l: Library, keyData: Bytes, plain: Bytes, key0: Bytes, iv0: Bytes): Outcome
    requires HashesFit(l)
  {
    var n := PlainSize(plain);
    if |keyData| < AES_BLOCK_SIZE || n == 0 || n > UINT_MAX - 15 then Refused
    else if AddPadding(n) > INT_MAX then Thrown
    else
      var (key, iv) := Derived(l, keyData, key0, iv0);
      Done(l.encrypt(key, iv, Padded(plain)))
  }

  function Decrypted(l: Library, keyData: Bytes, cipher: Bytes, key0: Bytes, iv0: Bytes): Outcome
    requires HashesFit(l)
  {
    if |keyData| < AES_BLOCK_SIZE || cipher == [] || |cipher| % AES_BLOCK_SIZE != 0 then Refused
    else
      var (key, iv) := Derived(l, keyData, key0, iv0);
      Done(UpToNul(l.decrypt(key, iv, cipher)))
  }

  method AES128Encrypt(l: Library, keyData: Bytes, plainStr: Bytes, key: array<byte>, iv: array<byte>) returns (o: Outcome)
    requires HashesFit(l) && key.Length == iv.Length == AES_BLOCK_SIZE && key != iv
    modifies key, iv
    ensures o == Encrypted(l, keyData, plainStr, old(key[..]), old(iv[..]))
  {
    var plainSize := |plainStr| % 0x1_0000_0000;
    if |keyData| >= AES_BLOCK_SIZE && plainSize != 0 && plainSize <= UINT_MAX - 15 {
      BytesToKey(l, keyData, key, iv);
      var paddedPlainSize := AddPadding(plainSize);
      PaddingIsLeastMultiple(plainSize);
      var paddedPlainStr := new byte[paddedPlainSize](_ => 0);
      MemCpy(paddedPlainStr, 0, plainStr[..plainSize]);
      if paddedPlainSize > INT_MAX {
        return Thrown;
      }
      assert paddedPlainStr[..] == Padded(plainStr);
      return Done(l.encrypt(key[..], iv[..], paddedPlainStr[..]));
    }
    o := Refused;
  }

  /** Removing the padding: a search for the first zero byte. */
  method CutAtNul(outPlain: Bytes) returns (r: Bytes)
    ensures r == UpToNul(outPlain)
  {
    hide UpToNul;
    var pos := 0;
    while pos < |outPlain|
      invariant 0 <= pos <= |outPlain| && forall i :: 0 <= i < pos ==> outPlain[i] != 0
    {
      if outPlain[pos] == 0 {
        break;
      }
      pos := pos + 1;
    }
    r := outPlain[..pos];
  }

  method AES128Decrypt(l: Library, keyData: Bytes, cipher: Bytes, key: array<byte>, iv: array<byte>) returns (o: Outcome)
    requires HashesFit(l) && key.Length == iv.Length == AES_BLOCK_SIZE && key != iv
    modifies key, iv
    ensures o == Decrypted(l, keyData, cipher, old(key[..]), old(iv[..]))
  {
    if |keyData| >= AES_BLOCK_SIZE && cipher != [] && |cipher| % AES_BLOCK_SIZE == 0 {
      BytesToKey(l, keyData, key, iv);
      var outPlain := CutAtNul(l.decrypt(key[..], iv[..], cipher));
      return Done(outPlain);
    }
    o := Refused;
  }

  /** Encryption succeeds exactly for a long enough key and a text whose size, taken modulo 2^32, is not
      zero and leaves room for the padding below 2^31. */
  lemma EncryptionSucceedsIff(l: Library, keyData: Bytes, plain: Bytes, key0: Bytes, iv0: Bytes)
    requires HashesFit(l)
    ensures Encrypted(l, keyData, plain, key0, iv0).Done? <==>
            |keyData| >= AES_BLOCK_SIZE && 0 < PlainSize(plain) <= INT_MAX - 15
  {
    var n := PlainSize(plain);
    if n <= UINT_MAX - 15 {
      PaddingIsLeastMultiple(n);
      assert n <= INT_MAX - 15 ==> AddPadding(n) <= INT_MAX + 1 - 16;
    }
  }

  /** Whatever was encrypted decrypts, with the same key, to the text up to its first zero byte (of the
      first 2^32 bytes at most), whatever the key buffers held before; so it is the text itself if and
      only if it has no zero byte and is shorter than that. */
  lemma EncryptionRoundTrip(l: Library, keyData: Bytes, plain: Bytes, key0: Bytes, iv0: Bytes, key1: Bytes, iv1: Bytes)
    requires HashesFit(l) && Invertible(l) && |keyData| <= UINT_MAX - SHA1_DATA_SIZE
    requires Encrypted(l, keyData, plain, key0, iv0).Done?
    ensures var c := Encrypted(l, keyData, plain, key0, iv0).data;
            var o := Decrypted(l, keyData, c, key1, iv1);
            && |c| == AddPadding(PlainSize(plain))
            && o == Done(UpToNul(plain[..PlainSize(plain)]))
            && (o == Done(plain) <==> 0 !in plain && |plain| <= UINT_MAX)
  {
    var n := PlainSize(plain);
    PaddingIsLeastMultiple(n);
    var x := Padded(plain);
    assert |x| == AddPadding(n);
    var (key, iv) := Derived(l, keyData, key0, iv0);
    var c := l.encrypt(key, iv, x);
    assert |c| == |x| && l.decrypt(key, iv, c) == x;
    PaddingVanishes(plain[..n], AddPadding(n) - n);
    NulFreeIsWhole(plain[..n]);
    assert n == |plain| ==> plain[..n] == plain;
    assert n == |plain| <==> |plain| <= UINT_MAX;
  }
}
