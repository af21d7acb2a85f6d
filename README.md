# Synology CloudSync decryption, modelled in Dafny

This project models the core of `synology-cloudsync-decrypt.py`. The script
decrypts files that a Synology NAS uploaded with Cloud Sync encryption.
Such a file is laid out like this:

- the magic string `__CLOUDSYNC_ENC__`;
- 32 bytes of header digest text, which the script skips;
- a stream of type-length-value (TLV) objects.

The TLV stream carries two kinds of object:

- "metadata" dictionaries with `enc_key1`, `salt`, `compress` and `file_md5`;
- "data" dictionaries, each holding one encrypted chunk.

The script runs in these stages:

1. The password and salt decrypt `enc_key1` into a session key. The key is
   derived by OpenSSL's `EVP_BytesToKey` with MD5 and used with AES-256-CBC
   and PKCS#7 padding.
2. If the session key is hex text, it is hex-decoded.
3. The session key decrypts each chunk in the same way, with an empty salt.
4. The result is LZ4-decompressed when `compress` is set.
5. The result is checked against `file_md5`.

Modules, following the script's structure:

- `Common`: bytes, the script's error vocabulary, `read(n)` with short reads,
  and `int.from_bytes(..., "big")`.
- `Tlv`: `read_object`/`read_dict`, in two forms.
  - `ParseObject`/`ParseDict` are functions of the bytes and a position.
  - `Reader` is a cursor over a byte stream whose methods run the script's
    loops and are proved to agree with those functions.
  - Dictionaries are insertion-ordered entry lists (`Get`, `Put`), like
    Python's `OrderedDict`.
- `TlvEncoding`, `TlvRoundTrip`: an encoder for well-formed values, and the
  proof that the decoder reads an encoding back exactly.
- `TlvProperties`: how the decoder treats each header byte, the end of input,
  dictionary keys and repeated keys.
- `Pkcs7`: `strip_pkcs7_padding`, following section 6.3 of RFC 5652 for
  16-byte blocks.
  - `Unpad` is the specification; `StripPkcs7Padding` is the script's loop.
  - `Pad` is the inverse that `Unpad` is proved against.
- `Kdf`: `openssl_kdf`.
  - The digest-block chain is defined as functions, with MD5 as a parameter.
  - `OpensslKdf` is the script's nested loops, proved equal to those functions.
- `Crypto`: the library primitives as parameters:
  - MD5;
  - the AES block decryption;
  - base64 decoding;
  - LZ4 decompression.

  CBC-mode decryption, as defined in section 6.2 of NIST SP 800-38A, is
  spelled out over the block decryption. CBC encryption is its proved
  inverse.
- `Hex`: the session-key rule from `_decrypt_session_key`, `bytes.fromhex`
  and `hexdigest`.
- `CloudSyncMetadata`: the `_ParsedMetadata` container as a class. It includes:
  - `_extract_salt`;
  - `_process_metadata_object` and `_process_data_object` as methods that
    update the container in place;
  - for each method, a function that specifies the update.
- `CloudSyncStream`: `_parse_cloudsync_stream` as a loop over a `Reader`,
  with a function specification for it.
- `CloudSync`: `decrypt_with_password`, `_decrypt_session_key`,
  `_decrypt_chunks` (loop and specification), `_verify_md5` and
  `decrypt_cloudsync`.
  - `Decrypt` maps the input file's bytes to the bytes that would be
    written, or to the error.
  - `DecryptCloudsync` is the step-by-step method, proved equal to `Decrypt`.

Behaviours of the script that the model keeps, because the code does them:

- A read past the end of the input returns the bytes that are left, with no
  error. So a string whose length field overshoots yields a short string,
  and a dictionary cut off by the end of input is accepted.
- An integer header as the very last byte fails, because it has no length
  byte (`f.read(1)[0]`).
- A repeated dictionary key keeps its first position and takes the last value.
- A metadata field of the wrong type raises only after the fields before it
  have been stored.
- The 32 header bytes after the magic string are never examined.

## Model

| member | source | states |
|---|---|---|
| Common.Take | roles/laptop/files/scripts/synology-cloudsync-decrypt.py:53-60 | `read(n)` returns the next `n` bytes at the cursor, or only the remaining ones when the stream ends first |
| Common.FromBigEndian | roles/laptop/files/scripts/synology-cloudsync-decrypt.py:53-60 | the big-endian value of `k` bytes is below 256^k |
| Common.ToBigEndian | roles/laptop/files/scripts/synology-cloudsync-decrypt.py:53-60 | the encoder's length and integer fields read back as the number they encode, when it fits |
| Tlv.Get | roles/laptop/files/scripts/synology-cloudsync-decrypt.py:165-166 | `d.get(k)` finds a value exactly when `k in d` |
| Tlv.Put | roles/laptop/files/scripts/synology-cloudsync-decrypt.py:77 | `d[k] = v` keeps the key order, appending `k` only when it is new |
| Tlv.GetPut | roles/laptop/files/scripts/synology-cloudsync-decrypt.py:77 | after `d[k] = v`, `k` reads as `v` and every other key as before |
| Tlv.ParseObject | roles/laptop/files/scripts/synology-cloudsync-decrypt.py:41-62 | a decoded object ends within the input, after its header unless it is `None` |
| Tlv.ParseAtom | roles/laptop/files/scripts/synology-cloudsync-decrypt.py:50-62 | a header other than the dictionary start never yields a dictionary and consumes at least its header byte |
| Tlv.ParseDict | roles/laptop/files/scripts/synology-cloudsync-decrypt.py:65-78 | `read_dict` yields a dictionary and stops within the input |
| Tlv.Reader.constructor | roles/laptop/files/scripts/synology-cloudsync-decrypt.py:264 | a stream over the given bytes, positioned at the start |
| Tlv.Reader.Read | roles/laptop/files/scripts/synology-cloudsync-decrypt.py:43-60 | `read(n)` returns `Take` of the stream and advances the cursor past exactly what it returned |
| Tlv.Reader.ReadObject | roles/laptop/files/scripts/synology-cloudsync-decrypt.py:41-62 | the cursor-based `read_object` returns the value or error of `ParseObject` and leaves the cursor at its end position |
| Tlv.Reader.ReadAtom | roles/laptop/files/scripts/synology-cloudsync-decrypt.py:50-62 | after a header byte that does not start a dictionary, the branches of `read_object` return the value or error of `ParseAtom` and leave the cursor at its end position |
| Tlv.Reader.ReadDict | roles/laptop/files/scripts/synology-cloudsync-decrypt.py:65-78 | the `while True` loop of `read_dict` returns the dictionary or error of `ParseDict` and leaves the cursor at its end position |
| TlvRoundTrip.DecodeEncode | roles/laptop/files/scripts/synology-cloudsync-decrypt.py:41-78 | decoding the encoding of a well-formed value, followed by any bytes, gives the value back and consumes exactly the encoding |
| TlvProperties.NullExactlyAtEnd | roles/laptop/files/scripts/synology-cloudsync-decrypt.py:43-51 | `None` comes back exactly at the end of input (nothing consumed) or at `0x40` (one byte consumed) |
| TlvProperties.HeaderErrors | roles/laptop/files/scripts/synology-cloudsync-decrypt.py:58-62 | a header byte outside the five tags raises exactly the unknown-type error naming that byte; an integer header at the end of input raises exactly the missing-length error |
| TlvProperties.TextReads | roles/laptop/files/scripts/synology-cloudsync-decrypt.py:52-57 | `0x10`/`0x11` read a two-byte big-endian length and then that many bytes, or the rest of the input when it is shorter; with fewer than two length bytes left the text is empty and the input is used up |
| TlvProperties.IntReads | roles/laptop/files/scripts/synology-cloudsync-decrypt.py:58-60 | `0x01` reads a one-byte length and then a big-endian unsigned integer of that many bytes, or fewer at the end of input |
| TlvProperties.DictStopsAtNull | roles/laptop/files/scripts/synology-cloudsync-decrypt.py:68-71 | `read_dict` ends at the first key that reads as `None`, with the entries read so far |
| TlvProperties.TruncatedDict | roles/laptop/files/scripts/synology-cloudsync-decrypt.py:68-71 | a dictionary cut off by the end of input is accepted with its entries so far |
| TlvProperties.DictKeyRefused | roles/laptop/files/scripts/synology-cloudsync-decrypt.py:72-75 | a dictionary in key position is refused with the dictionary-key error |
| TlvProperties.DictEntryStep | roles/laptop/files/scripts/synology-cloudsync-decrypt.py:69-77 | a decoded key and value are stored as `d[key] = value` and reading continues after them |
| TlvProperties.RepeatedKeyOverwrites | roles/laptop/files/scripts/synology-cloudsync-decrypt.py:76-77 | `{k: v1, k: v2}` decodes to `{k: v2}` |
| Pkcs7.StripPkcs7Padding | roles/laptop/files/scripts/synology-cloudsync-decrypt.py:105-125 | the loop over the padding bytes computes `Unpad` |
| Pkcs7.Unpad | roles/laptop/files/scripts/synology-cloudsync-decrypt.py:105-125 | on success the input was a whole number of blocks and the result is a prefix of it, 1 to 16 bytes shorter; failures are only the four padding errors |
| Pkcs7.UnpadRejects | roles/laptop/files/scripts/synology-cloudsync-decrypt.py:105-123 | each of these raises its own error, if and only if the earlier checks passed: empty input; a length that is not a multiple of 16; a last byte of 0 or above 16; a padding byte that differs |
| Pkcs7.UnpadOk | roles/laptop/files/scripts/synology-cloudsync-decrypt.py:114-125 | on success the input is the result followed by `pad_len` copies of `pad_len`, with `pad_len` in 1..16, and the result length lies in [len-16, len-1] |
| Pkcs7.UnpadAccepts | roles/laptop/files/scripts/synology-cloudsync-decrypt.py:114-125 | any aligned input ending in `pad_len` copies of a valid `pad_len` is accepted and stripped of exactly them |
| Pkcs7.UnpadPad | roles/laptop/files/scripts/synology-cloudsync-decrypt.py:105-125 | stripping PKCS#7-padded data gives the data back |
| Pkcs7.UnpadIsInverse | roles/laptop/files/scripts/synology-cloudsync-decrypt.py:105-125 | `strip_pkcs7_padding(data)` returns `r` if and only if `data` is `r` with PKCS#7 padding |
| Kdf.IterationCount | roles/laptop/files/scripts/synology-cloudsync-decrypt.py:91 | the count is 1 exactly when the salt is empty (1000 otherwise) |
| Kdf.Iterate | roles/laptop/files/scripts/synology-cloudsync-decrypt.py:97-98 | one or more MD5 rounds give 16 bytes |
| Kdf.KeyStream | roles/laptop/files/scripts/synology-cloudsync-decrypt.py:95-100 | `k` digest blocks make 16k bytes |
| Kdf.DeriveKeyIv | roles/laptop/files/scripts/synology-cloudsync-decrypt.py:102 | the key has exactly `key_size` bytes and the IV exactly `iv_size` bytes |
| Kdf.OpensslKdf | roles/laptop/files/scripts/synology-cloudsync-decrypt.py:81-102 | the nested loops terminate and return the key and IV of `DeriveKeyIv` |
| Kdf.DeriveKeyIvShape | roles/laptop/files/scripts/synology-cloudsync-decrypt.py:95-102 | key followed by IV is the first `key_size + iv_size` bytes of the digest-block stream |
| Kdf.KeyStreamPrefix | roles/laptop/files/scripts/synology-cloudsync-decrypt.py:95-100 | each further pass of the loop only appends: a shorter stream is a prefix of a longer one |
| Kdf.DigestBlockInKeyStream | roles/laptop/files/scripts/synology-cloudsync-decrypt.py:95-100 | block `i` (the count-fold MD5 of the previous block, the password and the salt) sits at offset 16i |
| Kdf.DeriveKeyIvExtends | roles/laptop/files/scripts/synology-cloudsync-decrypt.py:81-102 | asking for a longer IV does not change the key or the IV's first bytes |
| Kdf.UnsaltedBlock | roles/laptop/files/scripts/synology-cloudsync-decrypt.py:91-99 | `DigestBlock` with an empty salt, as for chunks: each digest block is one MD5 of the previous block and the password |
| Crypto.XorBlockTwice | roles/laptop/files/scripts/synology-cloudsync-decrypt.py:131-132 | XOR with the same block twice gives the block back, which is what lets CBC decryption undo the chaining of CBC encryption |
| Crypto.CbcBlocks | roles/laptop/files/scripts/synology-cloudsync-decrypt.py:131-132 | CBC decryption of whole blocks keeps the length |
| Crypto.CbcDecrypt | roles/laptop/files/scripts/synology-cloudsync-decrypt.py:131-132 | CBC decryption succeeds exactly on a whole number of 16-byte blocks, keeps the length, and otherwise fails with the cipher-alignment error |
| Crypto.CbcDecryptBlock | roles/laptop/files/scripts/synology-cloudsync-decrypt.py:131-132 | plaintext block `i` is the block decryption of ciphertext block `i` XOR ciphertext block `i-1`, or XOR the IV for the first block |
| Crypto.CbcRoundTrip | roles/laptop/files/scripts/synology-cloudsync-decrypt.py:131-132 | CBC decryption inverts CBC encryption under any block cipher whose decryption inverts its encryption |
| Hex.IsHexDigitMeansInAlphabet | roles/laptop/files/scripts/synology-cloudsync-decrypt.py:228 | the digit check is membership in `0123456789abcdefABCDEF` |
| Hex.ToHexIsHex | roles/laptop/files/scripts/synology-cloudsync-decrypt.py:248 | `hexdigest()` text consists of lower-case hex digits |
| Hex.FromHexToHex | roles/laptop/files/scripts/synology-cloudsync-decrypt.py:229 | `bytes.fromhex` of the hex text of some bytes gives those bytes |
| Hex.ToHexFromHex | roles/laptop/files/scripts/synology-cloudsync-decrypt.py:229 | decoded hex text, written as hex again, is the text in lower case |
| Hex.SessionKeyRuleCases | roles/laptop/files/scripts/synology-cloudsync-decrypt.py:228-231 | a key that is not all hex digits is kept; an all-hex key of odd length fails, and an even-length one becomes half as many bytes; hex text of raw bytes gives those bytes |
| Hex.SessionKeyRule | roles/laptop/files/scripts/synology-cloudsync-decrypt.py:228-231 | a key that is not all hex digits is used as it is; a decoded all-hex key, written as hex again, is the key in lower case; the only failure is the odd-length error |
| CloudSyncMetadata.ParsedMetadata.constructor | roles/laptop/files/scripts/synology-cloudsync-decrypt.py:141-146 | a new container has no `enc_key1`, no salt, `compress` 0, no MD5 and no chunks |
| CloudSyncMetadata.ProcessMetadataObject | roles/laptop/files/scripts/synology-cloudsync-decrypt.py:160-187 | the in-place update leaves the container in the state, and returns the error, that `ApplyMetadata` gives for the old state |
| CloudSyncMetadata.ProcessDataObject | roles/laptop/files/scripts/synology-cloudsync-decrypt.py:190-200 | the in-place update leaves the container in the state, and returns the error, that `ApplyData` gives for the old state |
| CloudSyncMetadata.ExtractSaltCases | roles/laptop/files/scripts/synology-cloudsync-decrypt.py:149-157 | the salt is taken exactly when it is a string or byte string, as its bytes; otherwise the salt type error |
| CloudSyncMetadata.ExtractSalt | roles/laptop/files/scripts/synology-cloudsync-decrypt.py:149-157 | a salt is only returned when the key is present; every failure is the salt type error |
| CloudSyncMetadata.ApplyMetadataErrors | roles/laptop/files/scripts/synology-cloudsync-decrypt.py:165-187 | a metadata dictionary is accepted if and only if every present field has its checked type; the first ill-typed field in script order names the error, and the fields before it have already been stored |
| CloudSyncMetadata.ApplyMetadataFields | roles/laptop/files/scripts/synology-cloudsync-decrypt.py:165-187 | only the fields whose keys are present change, and the chunks never do; on success each present field holds the dictionary's value |
| CloudSyncMetadata.ApplyMetadata | roles/laptop/files/scripts/synology-cloudsync-decrypt.py:160-187 | a metadata dictionary never changes the chunks, and its only errors are the type errors of its four fields |
| CloudSyncMetadata.ApplyDataCases | roles/laptop/files/scripts/synology-cloudsync-decrypt.py:195-200 | a non-empty byte-string `data` is appended; any other truthy value is a type error; nothing else changes |
| CloudSyncMetadata.ApplyData | roles/laptop/files/scripts/synology-cloudsync-decrypt.py:190-200 | a data dictionary either leaves the state alone or appends its byte-string `data` to the chunks and changes nothing else; on a type error the state is unchanged |
| CloudSyncMetadata.ApplyObject | roles/laptop/files/scripts/synology-cloudsync-decrypt.py:212-217 | an object that is not a dictionary is skipped; only a "metadata" or "data" dictionary can raise; the chunks grow by at most one and keep their earlier entries |
| CloudSyncStream.TopLevel | roles/laptop/files/scripts/synology-cloudsync-decrypt.py:207-210 | the objects the loop processes are never `None` |
| CloudSyncStream.ParseStream | roles/laptop/files/scripts/synology-cloudsync-decrypt.py:203-219 | parsing from a state keeps the chunks already collected as a prefix of the final chunks |
| CloudSyncStream.ParseCloudsyncStream | roles/laptop/files/scripts/synology-cloudsync-decrypt.py:203-219 | the loop over the stream returns a fresh container holding the state `ParseStream` computes, or the error it gives |
| CloudSyncStream.ParseStreamIsApplyAll | roles/laptop/files/scripts/synology-cloudsync-decrypt.py:203-219 | decoding the objects as they arrive, or all first and then applying them in order, gives the same result |
| CloudSyncStream.ApplyAllChunks | roles/laptop/files/scripts/synology-cloudsync-decrypt.py:194-219 | processing objects appends exactly their data chunks, in order |
| CloudSyncStream.ApplyObjectChunks | roles/laptop/files/scripts/synology-cloudsync-decrypt.py:212-217 | one object appends its data chunk, if it has one, and no other chunk |
| CloudSyncStream.ParsedChunks | roles/laptop/files/scripts/synology-cloudsync-decrypt.py:194-219 | the parsed chunks are the non-empty byte-string `data` values of the "data" dictionaries, in stream order |
| CloudSyncStream.SkippedObject | roles/laptop/files/scripts/synology-cloudsync-decrypt.py:212-217 | a non-dictionary object, or a dictionary of another type, can be dropped without changing the result |
| CloudSync.DecryptChunksLoop | roles/laptop/files/scripts/synology-cloudsync-decrypt.py:234-242 | the chunk loop, which derives a key for each chunk and then decrypts and unpads it, computes `DecryptChunks` |
| CloudSync.FirstErrorWins | roles/laptop/files/scripts/synology-cloudsync-decrypt.py:237-241 | the first chunk that fails decides the error of the whole loop |
| CloudSync.DecryptChunksSpec | roles/laptop/files/scripts/synology-cloudsync-decrypt.py:234-242 | the chunks decrypt if and only if each one does |
| CloudSync.DecryptWithPassword | roles/laptop/files/scripts/synology-cloudsync-decrypt.py:128-133 | a ciphertext that is not a whole number of blocks fails with the cipher-alignment error; a plaintext is 1 to 16 bytes shorter than its ciphertext; failures are only cipher and padding errors |
| CloudSync.DecryptSessionKey | roles/laptop/files/scripts/synology-cloudsync-decrypt.py:222-231 | the base64 error comes exactly when `enc_key1` is not valid base64; the session key is shorter than the decoded `enc_key1` |
| CloudSync.DecryptChunks | roles/laptop/files/scripts/synology-cloudsync-decrypt.py:234-242 | the decrypted chunks together are 1 to 16 bytes per chunk shorter than the chunks |
| CloudSync.DecryptWithPasswordRoundTrip | roles/laptop/files/scripts/synology-cloudsync-decrypt.py:128-133 | data padded and CBC-encrypted under the key and IV derived from the password and salt decrypts back to itself |
| CloudSync.SessionKeyErrors | roles/laptop/files/scripts/synology-cloudsync-decrypt.py:222-231 | the session-key stage fails only with a base64, cipher, padding or odd-hex error |
| CloudSync.ChunkErrors | roles/laptop/files/scripts/synology-cloudsync-decrypt.py:234-242 | the chunk stage fails only with a cipher or padding error |
| CloudSync.VerifyMd5 | roles/laptop/files/scripts/synology-cloudsync-decrypt.py:245-251 | the only error is the digest mismatch; no recorded digest, an empty one, or the output's own hex MD5 passes; a recorded digest that is not 32 characters long or holds an upper-case hex letter never matches |
| CloudSync.ParseObjectErrors | roles/laptop/files/scripts/synology-cloudsync-decrypt.py:41-78 | decoding fails only with an unknown-type, missing-length or dictionary-key error |
| CloudSync.ParseDictErrors | roles/laptop/files/scripts/synology-cloudsync-decrypt.py:65-78 | `read_dict` fails only with those decoding errors |
| CloudSync.ParseStreamErrors | roles/laptop/files/scripts/synology-cloudsync-decrypt.py:203-219 | parsing the stream fails only with a decoding error or a field type error |
| CloudSync.Decrypt | roles/laptop/files/scripts/synology-cloudsync-decrypt.py:258-261 | the not-CloudSync error comes exactly when the input lacks the magic prefix |
| CloudSync.DecryptParsed | roles/laptop/files/scripts/synology-cloudsync-decrypt.py:263-282 | past the magic check, no later stage reports the not-CloudSync error |
| CloudSync.BodyAfterHeader | roles/laptop/files/scripts/synology-cloudsync-decrypt.py:263-264 | for magic, 32 header bytes and a stream, the stream is exactly what gets parsed |
| CloudSync.HeaderDigestIgnored | roles/laptop/files/scripts/synology-cloudsync-decrypt.py:263-264 | inputs that differ only in bytes 17 to 48 decrypt alike |
| CloudSync.MetadataRequired | roles/laptop/files/scripts/synology-cloudsync-decrypt.py:267-269 | once the stream parses, the missing-metadata error comes exactly when `enc_key1` or the salt is unset |
| CloudSync.DecryptOk | roles/laptop/files/scripts/synology-cloudsync-decrypt.py:254-282 | a successful decryption had the magic prefix, a parsable stream, `enc_key1` and a salt, and its output's hex MD5 equals the recorded non-empty `file_md5` |
| CloudSync.DecryptCloudsync | roles/laptop/files/scripts/synology-cloudsync-decrypt.py:254-282 | the step-by-step run over a stream and a metadata object gives the output or error of `Decrypt` |

## Left out

- AES, MD5, base64 and LZ4 are library code (pycryptodome, hashlib, base64,
  lz4.frame). They are parameters of the model.
  - MD5 is any function to 16 bytes.
  - The AES block decryption is any function of a key and a 16-byte block.
  - base64 and LZ4 decoding are any partial functions.
  - Properties that need them are stated relative to those parameters: the
    MD5 check in `_verify_md5`, and the round trip through CBC encryption.
- pycryptodome's own checks on the key and IV lengths are not modelled. The
  script always passes 32 and 16 bytes, which `DeriveKeyIv` proves.
- UTF-8 decoding of TLV strings is not modelled; strings are kept as raw
  bytes. Invalid UTF-8, which the script would reject with
  `UnicodeDecodeError`, is accepted.
- Latin-1 encoding of a string salt is taken as the identity on its bytes.
  This is exact for ASCII salts but not for non-ASCII characters, which the
  script first decodes as UTF-8.
- Deeply nested dictionaries: `read_object` and `read_dict` call each other
  (lines 49, 69 and 76), so about 500 nested dictionaries exceed Python's
  recursion limit and raise `RecursionError`. The model decodes any depth;
  the decoding errors that `CloudSync.ParseObjectErrors` lists are those of
  the model's decoder, which has no such error.
- A string salt with a character above U+00FF makes
  `salt_value.encode("latin-1")` (line 153) raise `UnicodeEncodeError`. The
  model accepts such a salt as its bytes.
- `password.encode()` is not modelled: the password is given as bytes.
- `base64.b64decode` is applied to the bytes of `enc_key1` rather than to
  its text.
- File reading and writing, the success `print` and the command-line
  handling are I/O and are not modelled. `Decrypt` returns the bytes that
  would be written.
- Kdf.OpensslKdf: sizes are natural numbers. The negative `key_size` and
  `iv_size` that Python's slicing would accept are not modelled, and the
  script never passes them.
- The TLV encoder and CBC encryption exist only in the model. They are the
  inverses the decoder and CBC decryption are proved against; the script
  never encodes or encrypts.
- Hex.ToHexFromHex: `bytes.fromhex` also skips whitespace between digit
  pairs. The session-key rule only reaches it with text made entirely of hex
  digits, so whitespace cannot occur there, and the model leaves it out.
