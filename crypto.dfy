/** The library primitives the script calls, as parameters: MD5, the AES
    block decryption, base64 and LZ4 decoding. CBC-mode decryption (section
    6.2 of NIST SP 800-38A) is spelled out over the block decryption so that
    the lengths and the chaining are part of the model. */
module Crypto {
  import opened Common
  import opened Kdf

  type Block = s: Bytes | |s| == 16 witness [0, 0, 0, 0, 0, 0, 0, 0, 0, 0, 0, 0, 0, 0, 0, 0]

  datatype Primitives = Primitives(
    md5: Bytes -> Digest,                        // hashlib.md5(...).digest()
    aesDecryptBlock: (Bytes, Block) -> Block,   // AES inverse cipher under a key
    b64decode: Bytes -> Option<Bytes>,          // base64.b64decode; None on a decoding error
    lz4Decompress: Bytes -> Option<Bytes>)      // lz4.frame.decompress; None on a bad frame

  function Pow2(k: nat): (r: nat)
    ensures r > 0
  {
    if k == 0 then 1 else 2 * Pow2(k - 1)
  }

  /** Bitwise exclusive or of the low `k` bits of `a` and `b`. */
  function XorBits(a: nat, b: nat, k: nat): (r: nat)
    ensures r < Pow2(k)
  {
    if k == 0 then 0 else (a % 2 + b % 2) % 2 + 2 * XorBits(a / 2, b / 2, k - 1)
  }

  function XorByte(a: byte, b: byte): (r: byte)
  {
    XorBits(a, b, 8)
  }

  function XorBlock(a: Block, b: Block): (r: Block)
    ensures forall i :: 0 <= i < 16 ==> r[i] == XorByte(a[i], b[i])
  {
    seq(16, i requires 0 <= i < 16 => XorByte(a[i], b[i]))
  }

  /** CBC decryption of whole blocks, `prev` being the previous ciphertext
      block (the IV for the first one). */
  function CbcBlocks(decrypt: (Bytes, Block) -> Block, key: Bytes, prev: Block, c: Bytes): (p: Bytes)
    requires |c| % 16 == 0
    ensures |p| == |c|
    decreases |c|
  {
    if c == [] then []
    else XorBlock(decrypt(key, c[..16]), prev) + CbcBlocks(decrypt, key, c[..16], c[16..])
  }

  /** `AES.new(key, AES.MODE_CBC, iv).decrypt(c)`: refuses a ciphertext that is
      not a whole number of blocks. */
  function CbcDecrypt(prims: Primitives, key: Bytes, iv: Bytes, c: Bytes): (r: Result<Bytes>)
    requires |iv| == 16
    ensures r.Ok? <==> |c| % 16 == 0
    ensures r.Ok? ==> |r.value| == |c|
    ensures r.Err? ==> r.error == CipherUnaligned
  {
    if |c| % 16 != 0 then Err(CipherUnaligned)
    else Ok(CbcBlocks(prims.aesDecryptBlock, key, iv, c))
  }

  /** The CBC equation: plaintext block `i` is the decryption of ciphertext
      block `i` XORed with ciphertext block `i - 1`, or with the IV for the
      first block; and the plaintext is as long as the ciphertext. */
  lemma {:induction false} CbcDecryptBlock(prims: Primitives, key: Bytes, iv: Bytes, c: Bytes, i: nat)
    requires |iv| == 16 && |c| % 16 == 0 && 16 * i + 16 <= |c|
    ensures CbcDecrypt(prims, key, iv, c).Ok?
    ensures var p := CbcDecrypt(prims, key, iv, c).value;
            var prev: Block := if i == 0 then iv else c[16 * i - 16..16 * i];
            |p| == |c| && p[16 * i..16 * i + 16]
            == XorBlock(prims.aesDecryptBlock(key, c[16 * i..16 * i + 16]), prev)
  {
    BlocksAt(prims.aesDecryptBlock, key, iv, c, i);
  }

  lemma {:induction false} BlocksAt(decrypt: (Bytes, Block) -> Block, key: Bytes, prev: Block, c: Bytes, i: nat)
    requires |c| % 16 == 0 && 16 * i + 16 <= |c|
    ensures var p := CbcBlocks(decrypt, key, prev, c);
            var before: Block := if i == 0 then prev else c[16 * i - 16..16 * i];
            p[16 * i..16 * i + 16] == XorBlock(decrypt(key, c[16 * i..16 * i + 16]), before)
    decreases i
  {
    var p := CbcBlocks(decrypt, key, prev, c);
    var head := XorBlock(decrypt(key, c[..16]), prev);
    var tail := CbcBlocks(decrypt, key, c[..16], c[16..]);
    assert p == head + tail;
    if i == 0 {
      assert p[..16] == head;
    } else {
      BlocksAt(decrypt, key, c[..16], c[16..], i - 1);
      SliceAfter(head, tail, 16 * i, 16 * i + 16);
      ShiftBlock(c, i);
    }
  }

  /** Block `i` of `c`, and the block before it, seen from `c[16..]`. */
  lemma {:induction false} ShiftBlock(c: Bytes, i: nat)
    requires 1 <= i && 16 * i + 16 <= |c|
    ensures c[16 * i..16 * i + 16] == c[16..][16 * (i - 1)..16 * (i - 1) + 16]
    ensures i == 1 ==> c[16 * i - 16..16 * i] == c[..16]
    ensures i > 1 ==> c[16 * i - 16..16 * i] == c[16..][16 * (i - 1) - 16..16 * (i - 1)]
  {
    assert c == c[..16] + c[16..];
    SliceAfter(c[..16], c[16..], 16 * i, 16 * i + 16);
    if i > 1 {
      SliceAfter(c[..16], c[16..], 16 * i - 16, 16 * i);
    }
  }

  /** A slice past the first part of a concatenation is a slice of the second. */
  lemma {:induction false} SliceAfter(a: Bytes, b: Bytes, lo: nat, hi: nat)
    requires |a| <= lo <= hi <= |a| + |b|
    ensures (a + b)[lo..hi] == b[lo - |a|..hi - |a|]
  {
  }

  /** CBC encryption under a block cipher, the inverse the decryption is
      paired with (the script itself never encrypts). */
  function CbcEncryptBlocks(encrypt: Block -> Block, prev: Block, p: Bytes): (c: Bytes)
    requires |p| % 16 == 0
    ensures |c| == |p|
    decreases |p|
  {
    if p == [] then []
    else
      var block := encrypt(XorBlock(p[..16], prev));
      block + CbcEncryptBlocks(encrypt, block, p[16..])
  }

  lemma {:induction false} XorBlockTwice(a: Block, b: Block)
    ensures XorBlock(XorBlock(a, b), b) == a
  {
    forall i | 0 <= i < 16
      ensures XorBlock(XorBlock(a, b), b)[i] == a[i]
    {
      XorByteTwice(a[i], b[i]);
    }
  }

  lemma {:induction false} XorByteTwice(a: byte, b: byte)
    ensures XorByte(XorByte(a, b), b) == a
  {
    XorBitsTwice(a, b, 8);
  }

  lemma {:induction false} XorBitsTwice(a: nat, b: nat, k: nat)
    requires a < Pow2(k)
    ensures XorBits(XorBits(a, b, k), b, k) == a
  {
    if k > 0 {
      var bit := (a % 2 + b % 2) % 2;
      var rest := XorBits(a / 2, b / 2, k - 1);
      var x := bit + 2 * rest;
      assert XorBits(a, b, k) == x;
      HalfSplit(bit, rest);
      HalfBound(a, Pow2(k - 1));
      XorBitsTwice(a / 2, b / 2, k - 1);
      BitTwice(a % 2, b % 2);
      assert XorBits(x, b, k) == (bit + b % 2) % 2 + 2 * XorBits(rest, b / 2, k - 1);
    }
  }

  lemma {:induction false} HalfBound(a: nat, p: nat)
    requires a < 2 * p
    ensures a / 2 < p && a % 2 + 2 * (a / 2) == a
  {
  }

  lemma {:induction false} BitTwice(p: nat, q: nat)
    requires p < 2 && q < 2
    ensures ((p + q) % 2 + q) % 2 == p
  {
  }

  lemma {:induction false} HalfSplit(bit: nat, rest: nat)
    requires bit < 2
    ensures (bit + 2 * rest) % 2 == bit && (bit + 2 * rest) / 2 == rest
  {
  }

  /** Decrypting what CBC encryption produced, under a block cipher whose
      decryption inverts its encryption, gives the plaintext back. */
  lemma {:induction false} CbcRoundTrip(decrypt: (Bytes, Block) -> Block, encrypt: Block -> Block,
                                       key: Bytes, prev: Block, p: Bytes)
    requires |p| % 16 == 0
    requires forall b: Block :: decrypt(key, encrypt(b)) == b
    ensures CbcBlocks(decrypt, key, prev, CbcEncryptBlocks(encrypt, prev, p)) == p
    decreases |p|
  {
    if p != [] {
      var block := encrypt(XorBlock(p[..16], prev));
      var c := CbcEncryptBlocks(encrypt, prev, p);
      assert c[..16] == block && c[16..] == CbcEncryptBlocks(encrypt, block, p[16..]);
      CbcRoundTrip(decrypt, encrypt, key, block, p[16..]);
      XorBlockTwice(p[..16], prev);
      assert p == p[..16] + p[16..];
    }
  }
}
