/** Byte sequences, the error vocabulary of the decryption script, and the
    big-endian integer conversion that `int.from_bytes(..., "big")` performs. */
module Common {

  type byte = x: int | 0 <= x < 256
  type Bytes = seq<byte>

  datatype Option<+T> = None | Some(value: T)

  /** The fields whose type the metadata and data objects check. */
  datatype Field = EncKey1 | Salt | Compress | FileMd5 | DataChunk

  /** One constructor per exception the script raises (or lets a library raise). */
  datatype Error =
    | UnknownType(header: byte)       // ValueError: unknown TLV type byte
    | MissingIntLength                // IndexError: `f.read(1)[0]` at end of input
    | DictKey                         // TypeError: a dictionary used as a key
    | EmptyData                       // ValueError: nothing to unpad
    | Unaligned                       // ValueError: not 16-byte aligned
    | BadPadLength(padLen: byte)      // ValueError: last byte is 0 or above 16
    | BadPadding                      // ValueError: a padding byte differs
    | WrongType(field: Field)         // TypeError: a metadata or data field of the wrong type
    | CipherUnaligned                 // ValueError from AES-CBC on a ragged ciphertext
    | NotCloudSync                    // ValueError: magic prefix missing
    | MissingEncryptionMetadata       // ValueError: enc_key1 or salt missing
    | OddHexLength                    // ValueError from bytes.fromhex
    | BadBase64                       // binascii.Error from base64 decoding
    | BadLz4                          // error from the LZ4 frame decoder
    | Md5Mismatch                     // ValueError: digest of the output differs

  datatype Result<+T> = Ok(value: T) | Err(error: Error)

  /** What `read(n)` on a byte stream positioned at `pos` returns: at most `n`
      bytes, fewer when the stream ends first. */
  function Take(s: Bytes, pos: nat, n: nat): (r: Bytes)
    requires pos <= |s|
    ensures |r| == if pos + n <= |s| then n else |s| - pos
    ensures pos + |r| <= |s| && r == s[pos..pos + |r|]
  {
    if pos + n <= |s| then s[pos..pos + n] else s[pos..]
  }

  function Pow256(k: nat): (r: nat)
    ensures r > 0
  {
    if k == 0 then 1 else 256 * Pow256(k - 1)
  }

  /** `int.from_bytes(bs, "big")`: the empty sequence reads as 0. */
  function FromBigEndian(bs: Bytes): (n: nat)
    ensures n < Pow256(|bs|)
  {
    PrefixValue(bs, |bs|)
  }

  /** The value of the first `k` bytes of `bs`, most significant first. */
  function PrefixValue(bs: Bytes, k: nat): (n: nat)
    requires k <= |bs|
    ensures n < Pow256(k)
  {
    if k == 0 then 0
    else
      var high := PrefixValue(bs, k - 1);
      BoundStep(high, bs[k - 1], Pow256(k - 1));
      high * 256 + bs[k - 1]
  }

  /** Bytes after the first `k` do not change their value. */
  lemma {:induction false} PrefixValueAppend(a: Bytes, b: Bytes, k: nat)
    requires k <= |a|
    ensures PrefixValue(a + b, k) == PrefixValue(a, k)
  {
    if k > 0 {
      PrefixValueAppend(a, b, k - 1);
      assert (a + b)[k - 1] == a[k - 1];
    }
  }

  lemma {:induction false} BoundStep(high: nat, low: byte, p: nat)
    requires high < p
    ensures high * 256 + low < 256 * p
  {
    assert high * 256 <= (p - 1) * 256;
  }

  /** The last `len` bytes of the big-endian encoding of `n`; when `n` fits,
      they read back as `n`. */
  function ToBigEndian(n: nat, len: nat): (bs: Bytes)
    ensures |bs| == len
    ensures n < Pow256(len) ==> FromBigEndian(bs) == n
  {
    if len == 0 then []
    else
      var high := ToBigEndian(n / 256, len - 1);
      var bs := high + [n % 256];
      PrefixValueAppend(high, [n % 256], len - 1);
      if n < Pow256(len) then DivBound(n, Pow256(len - 1)); bs else bs
  }

  lemma {:induction false} DivBound(n: nat, p: nat)
    requires n < 256 * p
    ensures n / 256 < p
  {
  }

  /** The fewest bytes that hold `n` (zero bytes for 0). */
  function ByteLength(n: nat): (k: nat)
    ensures n < Pow256(k)
    ensures k > 0 ==> Pow256(k - 1) <= n
  {
    if n == 0 then 0
    else
      var k := ByteLength(n / 256) + 1;
      BoundStep(n / 256, n % 256, Pow256(k - 1));
      k
  }
}
