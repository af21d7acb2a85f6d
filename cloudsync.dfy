/** `decrypt_cloudsync` and the decryption stages it runs: the password
    decrypts `enc_key1` into the session key, the session key decrypts each
    data chunk, and the result is optionally LZ4-decompressed and checked
    against the recorded MD5 digest.

    The library calls are the parameters in `Primitives`; reading the input
    file and writing the output file are left to the caller: the model maps
    the file's bytes to the bytes that would be written, or to the error. */
module CloudSync {
  import opened Common
  import opened Tlv
  import opened Kdf
  import opened Crypto
  import opened Pkcs7
  import opened Hex
  import opened CloudSyncMetadata
  import opened CloudSyncStream

  /** `__CLOUDSYNC_ENC__`. */
  const Magic: Bytes := [0x5f, 0x5f, 0x43, 0x4c, 0x4f, 0x55, 0x44, 0x53, 0x59,
                         0x4e, 0x43, 0x5f, 0x45, 0x4e, 0x43, 0x5f, 0x5f]

  /** The magic string and the 32-character MD5 text after it. */
  const HeaderSize: nat := 49

  predicate StartsWith(data: Bytes, prefix: Bytes)
  {
    |prefix| <= |data| && data[..|prefix|] == prefix
  }

  /** `data[49:]`: empty when the data is shorter. */
  function Body(data: Bytes): (r: Bytes)
  {
    if |data| >= HeaderSize then data[HeaderSize..] else []
  }

  /** `decrypt_with_password`: the key and IV derived from the password and
      salt, AES-256-CBC decryption, then the padding check. */
  function DecryptWithPassword(prims: Primitives, ciphertext: Bytes, password: Bytes, salt: Bytes)
    : (r: Result<Bytes>)
    ensures |ciphertext| % 16 != 0 ==> r == Err(CipherUnaligned)
    ensures r.Ok? ==> |ciphertext| % 16 == 0 && |ciphertext| - 16 <= |r.value| < |ciphertext|
    ensures r.Err? ==> CipherError(r.error) && r.error != Unaligned
  {
    var (key, iv) := DeriveKeyIv(prims.md5, password, salt, KeySize, IvSize);
    match CbcDecrypt(prims, key, iv, ciphertext)
    case Err(e) => Err(e)
    case Ok(padded) => Unpad(padded)
  }

  /** `_decrypt_session_key`: base64-decodes `enc_key1`, decrypts it with the
      password and salt, and decodes the result when it is hex text. */
  function DecryptSessionKey(prims: Primitives, encKey1: Bytes, password: Bytes, salt: Bytes)
    : (r: Result<Bytes>)
    ensures r == Err(BadBase64) <==> prims.b64decode(encKey1).None?
    ensures r.Ok? ==> |r.value| < |prims.b64decode(encKey1).value|
  {
    match prims.b64decode(encKey1)
    case None => Err(BadBase64)
    case Some(encKey1Bytes) =>
      match DecryptWithPassword(prims, encKey1Bytes, password, salt)
      case Err(e) => Err(e)
      case Ok(sessionKey) => SessionKeyRule(sessionKey)
  }

  /** One chunk: the session key with an empty salt (one MD5 round) gives its
      key and IV. */
  function DecryptChunk(prims: Primitives, sessionKey: Bytes, chunk: Bytes): (r: Result<Bytes>)
  {
    DecryptWithPassword(prims, chunk, sessionKey, [])
  }

  /** `_decrypt_chunks`: the chunks' plaintexts concatenated in order; the
      first chunk that fails to decrypt ends it with its error. */
  function DecryptChunks(prims: Primitives, chunks: seq<Bytes>, sessionKey: Bytes): (r: Result<Bytes>)
    ensures r.Ok? ==> TotalLength(chunks) - 16 * |chunks| <= |r.value| <= TotalLength(chunks) - |chunks|
    decreases |chunks|
  {
    if chunks == [] then Ok([])
    else
      match DecryptChunks(prims, chunks[..|chunks| - 1], sessionKey)
      case Err(e) => Err(e)
      case Ok(done) =>
        match DecryptChunk(prims, sessionKey, chunks[|chunks| - 1])
        case Err(e) => Err(e)
        case Ok(plain) => Ok(done + plain)
  }

  /** `_decrypt_chunks` as the script runs it: a fresh key derivation, an
      AES-CBC decryption and a padding check per chunk. */
  method DecryptChunksLoop(prims: Primitives, chunks: seq<Bytes>, sessionKey: Bytes) returns (r: Result<Bytes>)
    ensures r == DecryptChunks(prims, chunks, sessionKey)
  {
    var decrypted: Bytes := [];
    for i := 0 to |chunks|
      invariant DecryptChunks(prims, chunks[..i], sessionKey) == Ok(decrypted)
    {
      var key, iv := OpensslKdf(prims.md5, sessionKey, [], KeySize, IvSize);
      var padded := CbcDecrypt(prims, key, iv, chunks[i]);
      var plain: Result<Bytes>;
      if padded.Err? {
        plain := Err(padded.error);
      } else {
        plain := StripPkcs7Padding(padded.value);
      }
      assert chunks[..i + 1][..i] == chunks[..i];
      if plain.Err? {
        FirstErrorWins(prims, chunks, i + 1, sessionKey);
        return Err(plain.error);
      }
      decrypted := decrypted + plain.value;
    }
    assert chunks[..|chunks|] == chunks;
    return Ok(decrypted);
  }

  /** Once a prefix of the chunks fails, the whole sequence fails the same
      way. */
  lemma {:induction false} FirstErrorWins(prims: Primitives, chunks: seq<Bytes>, i: nat, sessionKey: Bytes)
    requires i <= |chunks| && DecryptChunks(prims, chunks[..i], sessionKey).Err?
    ensures DecryptChunks(prims, chunks, sessionKey) == DecryptChunks(prims, chunks[..i], sessionKey)
    decreases |chunks|
  {
    if i < |chunks| {
      var init := chunks[..|chunks| - 1];
      assert init[..i] == chunks[..i];
      FirstErrorWins(prims, init, i, sessionKey);
    } else {
      assert chunks[..i] == chunks;
    }
  }

  /** `_verify_md5`: when a digest is recorded (a non-empty string), the
      lower-case hex MD5 of the output must equal it. */
  function VerifyMd5(prims: Primitives, data: Bytes, expected: Option<Bytes>): (err: Option<Error>)
    ensures err.Some? ==> err == Some(Md5Mismatch)
    ensures expected.None? || expected == Some([]) || expected == Some(ToHex(prims.md5(data))) ==> err.None?
    ensures expected.Some? && expected.value != [] && |expected.value| != 32 ==> err == Some(Md5Mismatch)
    ensures expected.Some? && (exists i :: 0 <= i < |expected.value| && 0x41 <= expected.value[i] <= 0x46)
            ==> err == Some(Md5Mismatch)
  {
    ToHexIsHex(prims.md5(data));
    if expected.Some? && expected.value != [] && ToHex(prims.md5(data)) != expected.value
    then Some(Md5Mismatch)
    else None
  }

  /** The stages after parsing, on the collected metadata. */
  function DecryptParsed(prims: Primitives, m: Metadata, password: Bytes): (r: Result<Bytes>)
    ensures r.Err? ==> r.error != NotCloudSync
  {
    if m.encKey1.None? || m.salt.None? then Err(MissingEncryptionMetadata)
    else
      SessionKeyErrors(prims, m.encKey1.value, password, m.salt.value);
      match DecryptSessionKey(prims, m.encKey1.value, password, m.salt.value)
      case Err(e) => Err(e)
      case Ok(sessionKey) =>
        ChunkErrors(prims, m.chunks, sessionKey);
        match DecryptChunks(prims, m.chunks, sessionKey)
        case Err(e) => Err(e)
        case Ok(decrypted) =>
          var output := if m.compress != 0 then prims.lz4Decompress(decrypted) else Some(decrypted);
          if output.None? then Err(BadLz4)
          else if VerifyMd5(prims, output.value, m.fileMd5).Some? then Err(Md5Mismatch)
          else Ok(output.value)
  }

  /** `decrypt_cloudsync` from the file's bytes to the bytes it writes. */
  function Decrypt(prims: Primitives, data: Bytes, password: Bytes): (r: Result<Bytes>)
    ensures r == Err(NotCloudSync) <==> !StartsWith(data, Magic)
  {
    if !StartsWith(data, Magic) then Err(NotCloudSync)
    else
      ParseStreamErrors(Body(data), 0, Initial);
      match ParseStream(Body(data), 0, Initial)
      case Err(e) => Err(e)
      case Ok(m) => DecryptParsed(prims, m, password)
  }

  /** `decrypt_cloudsync`, step by step over a stream and a metadata object. */
  method DecryptCloudsync(prims: Primitives, data: Bytes, password: Bytes) returns (r: Result<Bytes>)
    ensures r == Decrypt(prims, data, password)
  {
    if !StartsWith(data, Magic) {
      return Err(NotCloudSync);
    }
    var stream := new Reader(Body(data));
    var parsed := ParseCloudsyncStream(stream);
    if parsed.Err? {
      return Err(parsed.error);
    }
    var metadata := parsed.value;
    if metadata.encKey1.None? || metadata.salt.None? {
      return Err(MissingEncryptionMetadata);
    }
    var sessionKey := DecryptSessionKey(prims, metadata.encKey1.value, password, metadata.salt.value);
    if sessionKey.Err? {
      return Err(sessionKey.error);
    }
    var decrypted := DecryptChunksLoop(prims, metadata.encryptedChunks, sessionKey.value);
    if decrypted.Err? {
      return Err(decrypted.error);
    }
    var output := decrypted.value;
    if metadata.compress != 0 {
      var decompressed := prims.lz4Decompress(output);
      if decompressed.None? {
        return Err(BadLz4);
      }
      output := decompressed.value;
    }
    var mismatch := VerifyMd5(prims, output, metadata.fileMd5Hash);
    if mismatch.Some? {
      return Err(mismatch.value);
    }
    return Ok(output);
  }

  // ---------------------------------------------------------------------
  // Properties
  // ---------------------------------------------------------------------

  /** The sum of the chunk lengths. */
  function TotalLength(chunks: seq<Bytes>): (n: nat)
    decreases |chunks|
  {
    if chunks == [] then 0 else TotalLength(chunks[..|chunks| - 1]) + |chunks[|chunks| - 1]|
  }

  /** Every element of `init + [last]` satisfies `ok` exactly when every
      element of `init` does and `last` does too. */
  lemma AllLastStep(ok: Bytes -> bool, init: seq<Bytes>, last: Bytes)
    ensures (forall i :: 0 <= i < |init + [last]| ==> ok((init + [last])[i]))
            <==> (forall i :: 0 <= i < |init| ==> ok(init[i])) && ok(last)
  {
    var xs := init + [last];
    assert xs[|init|] == last;
    assert forall i :: 0 <= i < |init| ==> xs[i] == init[i];
  }

  /** The chunks decrypt exactly when each one does. */
  lemma {:induction false} DecryptChunksSpec(prims: Primitives, chunks: seq<Bytes>, sessionKey: Bytes)
    ensures DecryptChunks(prims, chunks, sessionKey).Ok?
            <==> forall i :: 0 <= i < |chunks| ==> DecryptChunk(prims, sessionKey, chunks[i]).Ok?
    decreases |chunks|
  {
    if chunks != [] {
      var init := chunks[..|chunks| - 1];
      DecryptChunksSpec(prims, init, sessionKey);
      assert DecryptChunks(prims, chunks, sessionKey).Ok?
             <==> DecryptChunks(prims, init, sessionKey).Ok? && DecryptChunk(prims, sessionKey, chunks[|chunks| - 1]).Ok?;
      assert chunks == init + [chunks[|chunks| - 1]];
      AllLastStep(c => DecryptChunk(prims, sessionKey, c).Ok?, init, chunks[|chunks| - 1]);
    }
  }

  /** Encrypting padded data the way the decryption expects (key and IV from
      the password and salt, CBC mode, PKCS#7 padding) and decrypting it with
      the same password and salt gives the data back, for any block cipher
      whose decryption inverts its encryption. */
  lemma {:induction false} DecryptWithPasswordRoundTrip(prims: Primitives, encrypt: (Bytes, Block) -> Block,
                                                       plain: Bytes, password: Bytes, salt: Bytes)
    requires forall k: Bytes, b: Block :: prims.aesDecryptBlock(k, encrypt(k, b)) == b
    ensures var (key, iv) := DeriveKeyIv(prims.md5, password, salt, KeySize, IvSize);
            DecryptWithPassword(prims, CbcEncryptBlocks(b => encrypt(key, b), iv, Pad(plain)), password, salt)
            == Ok(plain)
  {
    var (key, iv) := DeriveKeyIv(prims.md5, password, salt, KeySize, IvSize);
    var padded := Pad(plain);
    UnpadIsInverse(padded, plain);
    CbcRoundTrip(prims.aesDecryptBlock, b => encrypt(key, b), key, iv, padded);
  }

  /** The errors parsing can raise: decoding errors and field type errors. */
  predicate ParseError(e: Error)
  {
    e.UnknownType? || e == MissingIntLength || e == DictKey || e.WrongType?
  }

  /** The errors a password or chunk decryption can raise. */
  predicate CipherError(e: Error)
  {
    e == CipherUnaligned || e == EmptyData || e == Unaligned || e.BadPadLength? || e == BadPadding
  }

  lemma {:induction false} ParseObjectErrors(s: Bytes, pos: nat)
    requires pos <= |s|
    ensures ParseObject(s, pos).Err? ==> ParseError(ParseObject(s, pos).error)
    ensures ParseDict(s, pos, []).Err? ==> ParseError(ParseDict(s, pos, []).error)
    decreases |s| - pos, 1
  {
    if pos < |s| && s[pos] == DictStart {
      ParseDictErrors(s, pos + 1, []);
    }
    ParseDictErrors(s, pos, []);
  }

  lemma {:induction false} ParseDictErrors(s: Bytes, pos: nat, acc: seq<Entry>)
    requires pos <= |s|
    ensures ParseDict(s, pos, acc).Err? ==> ParseError(ParseDict(s, pos, acc).error)
    decreases |s| - pos, 0
  {
    var key := ParseObject(s, pos);
    if pos < |s| && s[pos] == DictStart {
      ParseDictErrors(s, pos + 1, []);
    }
    if key.Ok? && key.value.value != Null && !key.value.value.Dict? {
      var next := key.value.next;
      if next < |s| && s[next] == DictStart {
        ParseDictErrors(s, next + 1, []);
      }
      var val := ParseObject(s, next);
      if val.Ok? {
        ParseDictErrors(s, val.value.next, Put(acc, key.value.value, val.value.value));
      }
    }
  }

  lemma {:induction false} ParseStreamErrors(s: Bytes, pos: nat, m: Metadata)
    requires pos <= |s|
    ensures ParseStream(s, pos, m).Err? ==> ParseError(ParseStream(s, pos, m).error)
    decreases |s| - pos
  {
    ParseObjectErrors(s, pos);
    match ParseObject(s, pos)
    case Err(e) =>
    case Ok(p) =>
      if p.value != Null {
        var o := ApplyObject(m, p.value);
        if o.err.None? {
          ParseStreamErrors(s, p.next, o.meta);
        }
      }
  }

  lemma {:induction false} SessionKeyErrors(prims: Primitives, encKey1: Bytes, password: Bytes, salt: Bytes)
    ensures var r := DecryptSessionKey(prims, encKey1, password, salt);
            r.Err? ==> r.error == BadBase64 || r.error == OddHexLength || CipherError(r.error)
  {
  }

  lemma {:induction false} ChunkErrors(prims: Primitives, chunks: seq<Bytes>, sessionKey: Bytes)
    ensures var r := DecryptChunks(prims, chunks, sessionKey);
            r.Err? ==> CipherError(r.error)
    decreases |chunks|
  {
    if chunks != [] {
      ChunkErrors(prims, chunks[..|chunks| - 1], sessionKey);
    }
  }

  /** The 32 bytes after the magic string (the MD5 text of the header) are
      never read: two inputs that agree elsewhere decrypt alike. */
  lemma {:induction false} HeaderDigestIgnored(prims: Primitives, data: Bytes, data': Bytes, password: Bytes)
    requires |data| == |data'|
    requires forall i :: 0 <= i < |data| && (i < |Magic| || i >= HeaderSize) ==> data[i] == data'[i]
    ensures Decrypt(prims, data, password) == Decrypt(prims, data', password)
  {
    if |data| >= |Magic| {
      assert data[..|Magic|] == data'[..|Magic|];
    }
    if |data| >= HeaderSize {
      assert data[HeaderSize..] == data'[HeaderSize..];
    }
  }

  /** A file is the magic string, 32 header bytes and the stream: the stream
      is exactly what gets parsed. */
  lemma {:induction false} BodyAfterHeader(header: Bytes, stream: Bytes)
    requires |header| == HeaderSize - |Magic|
    ensures StartsWith(Magic + header + stream, Magic)
    ensures Body(Magic + header + stream) == stream
  {
    var data := Magic + header + stream;
    assert data[..|Magic|] == Magic;
    assert data[HeaderSize..] == stream;
  }

  /** Once the stream parses, decryption fails with the missing-metadata
      error exactly when `enc_key1` or `salt` was never set. */
  lemma {:induction false} MetadataRequired(prims: Primitives, data: Bytes, password: Bytes)
    requires StartsWith(data, Magic) && ParseStream(Body(data), 0, Initial).Ok?
    ensures var m := ParseStream(Body(data), 0, Initial).value;
            Decrypt(prims, data, password) == Err(MissingEncryptionMetadata)
            <==> m.encKey1.None? || m.salt.None?
  {
    var m := ParseStream(Body(data), 0, Initial).value;
    if m.encKey1.Some? && m.salt.Some? {
      match DecryptSessionKey(prims, m.encKey1.value, password, m.salt.value)
      case Err(e) => SessionKeyErrors(prims, m.encKey1.value, password, m.salt.value);
      case Ok(k) => ChunkErrors(prims, m.chunks, k);
    }
  }

  /** A successful decryption had the encryption metadata, and its output
      matches the recorded digest whenever one is recorded. */
  lemma {:induction false} DecryptOk(prims: Primitives, data: Bytes, password: Bytes)
    requires Decrypt(prims, data, password).Ok?
    ensures StartsWith(data, Magic) && ParseStream(Body(data), 0, Initial).Ok?
    ensures var m := ParseStream(Body(data), 0, Initial).value;
            var out := Decrypt(prims, data, password).value;
            m.encKey1.Some? && m.salt.Some?
            && (m.fileMd5.Some? && m.fileMd5.value != [] ==> ToHex(prims.md5(out)) == m.fileMd5.value)
  {
  }
}
