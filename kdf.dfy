/** OpenSSL's `EVP_BytesToKey` with MD5, as `openssl_kdf` computes it: digest
    blocks D_1, D_2, ... where D_i is MD5 applied `count` times to
    D_(i-1) ++ password ++ salt (D_0 empty), concatenated until there are
    enough bytes for the key and the IV. MD5 itself is a parameter. */
module Kdf {
  import opened Common

  type Digest = s: Bytes | |s| == 16 witness [0, 0, 0, 0, 0, 0, 0, 0, 0, 0, 0, 0, 0, 0, 0, 0]

  /** The script's key and IV sizes for AES-256-CBC. */
  const KeySize: nat := 32
  const IvSize: nat := 16

  /** One MD5 round when there is no salt, 1000 rounds otherwise. */
  function IterationCount(salt: Bytes): (n: nat)
    ensures n >= 1
    ensures salt == [] <==> n == 1
    ensures salt != [] ==> n == 1000
  {
    if salt == [] then 1 else 1000
  }

  /** `x` digested `n` times. */
  function Iterate(md5: Bytes -> Digest, x: Bytes, n: nat): (r: Bytes)
    ensures n > 0 ==> |r| == 16
  {
    if n == 0 then x else md5(Iterate(md5, x, n - 1))
  }

  /** Digest block D_(i+1): the chain seeds each block with the previous one. */
  function DigestBlock(md5: Bytes -> Digest, password: Bytes, salt: Bytes, i: nat): (d: Digest)
  {
    var prev := if i == 0 then [] else DigestBlock(md5, password, salt, i - 1);
    Iterate(md5, prev + password + salt, IterationCount(salt))
  }

  /** The first `k` digest blocks, concatenated. */
  function KeyStream(md5: Bytes -> Digest, password: Bytes, salt: Bytes, k: nat): (r: Bytes)
    ensures |r| == 16 * k
  {
    if k == 0 then [] else KeyStream(md5, password, salt, k - 1) + DigestBlock(md5, password, salt, k - 1)
  }

  /** How many blocks the loop produces: the fewest that cover `n` bytes. */
  function BlocksFor(n: nat): (k: nat)
  {
    (n + 15) / 16
  }

  /** The key and the IV: the first `keySize` bytes of the stream and the
      `ivSize` bytes after them. */
  function DeriveKeyIv(md5: Bytes -> Digest, password: Bytes, salt: Bytes, keySize: nat, ivSize: nat)
    : (r: (Bytes, Bytes))
    ensures |r.0| == keySize && |r.1| == ivSize
  {
    var stream := KeyStream(md5, password, salt, BlocksFor(keySize + ivSize));
    (stream[..keySize], stream[keySize..keySize + ivSize])
  }

  /** `openssl_kdf`: the outer loop appends digest blocks while the result is
      shorter than `keySize + ivSize`; the inner loop applies MD5 `count`
      times. */
  method OpensslKdf(md5: Bytes -> Digest, password: Bytes, salt: Bytes, keySize: nat, ivSize: nat)
    returns (key: Bytes, iv: Bytes)
    ensures (key, iv) == DeriveKeyIv(md5, password, salt, keySize, ivSize)
  {
    var count := IterationCount(salt);
    var result: Bytes := [];
    var prev: Bytes := [];
    ghost var n: nat := 0;
    while |result| < keySize + ivSize
      invariant result == KeyStream(md5, password, salt, n)
      invariant prev == if n == 0 then [] else DigestBlock(md5, password, salt, n - 1)
      invariant n <= BlocksFor(keySize + ivSize)
      decreases keySize + ivSize - |result|
    {
      var temp := prev + password + salt;
      for j := 0 to count
        invariant temp == Iterate(md5, prev + password + salt, j)
      {
        temp := md5(temp);
      }
      prev := temp;
      result := result + temp;
      n := n + 1;
    }
    BlocksForReached(n, keySize + ivSize);
    key := result[..keySize];
    iv := result[keySize..keySize + ivSize];
  }

  /** The loop stops after exactly `BlocksFor` blocks: no fewer cover the
      request, and it never makes more. */
  lemma BlocksForReached(k: nat, total: nat)
    requires 16 * k >= total && k <= BlocksFor(total)
    ensures k == BlocksFor(total)
  {
    assert 16 * BlocksFor(total) <= total + 15;
  }

  // ---------------------------------------------------------------------
  // Properties
  // ---------------------------------------------------------------------

  /** Together the key and the IV are the first `keySize + ivSize` bytes of
      the block stream. */
  lemma {:induction false} DeriveKeyIvShape(md5: Bytes -> Digest, password: Bytes, salt: Bytes, keySize: nat, ivSize: nat)
    ensures var (key, iv) := DeriveKeyIv(md5, password, salt, keySize, ivSize);
            var stream := KeyStream(md5, password, salt, BlocksFor(keySize + ivSize));
            key + iv == stream[..keySize + ivSize]
  {
    var stream := KeyStream(md5, password, salt, BlocksFor(keySize + ivSize));
    assert stream[..keySize + ivSize] == stream[..keySize] + stream[keySize..keySize + ivSize];
  }

  /** A longer stream starts with a shorter one: asking for more bytes never
      changes the ones already produced. */
  lemma {:induction false} KeyStreamPrefix(md5: Bytes -> Digest, password: Bytes, salt: Bytes, j: nat, k: nat)
    requires j <= k
    ensures KeyStream(md5, password, salt, k)[..16 * j] == KeyStream(md5, password, salt, j)
    decreases k
  {
    if j < k {
      KeyStreamPrefix(md5, password, salt, j, k - 1);
      var s := KeyStream(md5, password, salt, k - 1);
      assert KeyStream(md5, password, salt, k)[..16 * j] == s[..16 * j];
    }
  }

  /** Block `i` sits at offset `16 * i` of any stream that contains it. */
  lemma {:induction false} DigestBlockInKeyStream(md5: Bytes -> Digest, password: Bytes, salt: Bytes, i: nat, k: nat)
    requires i < k
    ensures KeyStream(md5, password, salt, k)[16 * i..16 * i + 16] == DigestBlock(md5, password, salt, i)
  {
    KeyStreamPrefix(md5, password, salt, i + 1, k);
    var s := KeyStream(md5, password, salt, k);
    assert s[16 * i..16 * i + 16] == s[..16 * (i + 1)][16 * i..];
  }

  /** The key and the IV do not depend on the size requested beyond them:
      the same password and salt with a larger `ivSize` extend the IV. */
  lemma {:induction false} DeriveKeyIvExtends(md5: Bytes -> Digest, password: Bytes, salt: Bytes,
                                             keySize: nat, ivSize: nat, ivSize': nat)
    requires ivSize <= ivSize'
    ensures var (key, iv) := DeriveKeyIv(md5, password, salt, keySize, ivSize);
            var (key', iv') := DeriveKeyIv(md5, password, salt, keySize, ivSize');
            key' == key && iv'[..ivSize] == iv
  {
    var j := BlocksFor(keySize + ivSize);
    var k := BlocksFor(keySize + ivSize');
    BlocksForCovers(keySize + ivSize);
    BlocksForCovers(keySize + ivSize');
    KeyStreamPrefix(md5, password, salt, j, k);
    var short := KeyStream(md5, password, salt, j);
    var long := KeyStream(md5, password, salt, k);
    assert DeriveKeyIv(md5, password, salt, keySize, ivSize) == (short[..keySize], short[keySize..keySize + ivSize]);
    assert DeriveKeyIv(md5, password, salt, keySize, ivSize') == (long[..keySize], long[keySize..keySize + ivSize']);
    PrefixSlices(long, short, keySize, ivSize, ivSize');
  }

  /** Key and IV cut from a stream agree with those cut from a prefix of it. */
  lemma PrefixSlices(long: Bytes, short: Bytes, keySize: nat, ivSize: nat, ivSize': nat)
    requires |short| <= |long| && short == long[..|short|]
    requires ivSize <= ivSize' && keySize + ivSize <= |short| && keySize + ivSize' <= |long|
    ensures long[..keySize] == short[..keySize]
    ensures long[keySize..keySize + ivSize'][..ivSize] == short[keySize..keySize + ivSize]
  {
  }

  /** `BlocksFor(n)` blocks hold `n` bytes with less than one block to
      spare. */
  lemma BlocksForCovers(n: nat)
    ensures n <= 16 * BlocksFor(n) < n + 16
  {
  }

  /** With no salt each block is a single digest of the previous block and
      the password, as the chunk keys are derived. */
  lemma {:induction false} UnsaltedBlock(md5: Bytes -> Digest, password: Bytes, i: nat)
    ensures DigestBlock(md5, password, [], i)
            == md5((if i == 0 then [] else DigestBlock(md5, password, [], i - 1)) + password)
  {
    var prev := if i == 0 then [] else DigestBlock(md5, password, [], i - 1);
    assert prev + password + [] == prev + password;
    assert Iterate(md5, prev + password, 1) == md5(Iterate(md5, prev + password, 0));
  }
}
