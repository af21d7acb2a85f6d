/** What the stream parser collects: the encryption metadata (`enc_key1`,
    `salt`, `compress`, `file_md5`) and the encrypted chunks, and how one
    metadata or data dictionary updates them.

    `ApplyMetadata` and `ApplyData` specify the two updates as functions of
    the old state; `ProcessMetadataObject` and `ProcessDataObject` perform
    them on a `ParsedMetadata` object in place, as the script does. A wrongly
    typed field raises after the fields before it have been stored, so an
    update yields both the new state and the error, if any. */
module CloudSyncMetadata {
  import opened Common
  import opened Tlv

  // Dictionary keys and type names, as the ASCII bytes of the strings.
  const EncKey1Key: Value := Str([0x65, 0x6e, 0x63, 0x5f, 0x6b, 0x65, 0x79, 0x31])  // "enc_key1"
  const SaltKey: Value := Str([0x73, 0x61, 0x6c, 0x74])                              // "salt"
  const CompressKey: Value := Str([0x63, 0x6f, 0x6d, 0x70, 0x72, 0x65, 0x73, 0x73])  // "compress"
  const FileMd5Key: Value := Str([0x66, 0x69, 0x6c, 0x65, 0x5f, 0x6d, 0x64, 0x35])   // "file_md5"
  const TypeKey: Value := Str([0x74, 0x79, 0x70, 0x65])                              // "type"
  const DataKey: Value := Str([0x64, 0x61, 0x74, 0x61])                              // "data"
  const MetadataType: Value := Str([0x6d, 0x65, 0x74, 0x61, 0x64, 0x61, 0x74, 0x61]) // "metadata"
  const DataType: Value := Str([0x64, 0x61, 0x74, 0x61])                             // "data"

  /** A snapshot of `_ParsedMetadata`. */
  datatype Metadata = Metadata(
    encKey1: Option<Bytes>,
    salt: Option<Bytes>,
    compress: nat,
    fileMd5: Option<Bytes>,
    chunks: seq<Bytes>)

  /** The state a fresh `_ParsedMetadata` starts in. */
  const Initial: Metadata := Metadata(None, None, 0, None, [])

  /** The state after an update, and the error the update raised, if any. */
  datatype Outcome = Outcome(meta: Metadata, err: Option<Error>)

  /** Python truthiness of an optional object: missing, `None`, empty and zero
      are false. */
  predicate Truthy(v: Option<Value>)
  {
    match v
    case None => false
    case Some(Null) => false
    case Some(Dict(es)) => es != []
    case Some(Str(t)) => t != []
    case Some(Blob(b)) => b != []
    case Some(Int(n)) => n != 0
  }

  /** `_extract_salt`: a string salt is used as its bytes, a byte-string salt
      as itself; anything else, a missing salt included, is an error. */
  function ExtractSalt(obj: seq<Entry>): (r: Result<Bytes>)
    ensures r.Ok? ==> SaltKey in Keys(obj)
    ensures r.Err? ==> r.error == WrongType(Salt)
  {
    match Get(obj, SaltKey)
    case Some(Str(t)) => Ok(t)
    case Some(Blob(b)) => Ok(b)
    case _ => Err(WrongType(Salt))
  }

  // One function per field of `_process_metadata_object`: a missing key leaves
  // the state as it is; a present key of the right type is stored.

  function SetEncKey1(m: Metadata, obj: seq<Entry>): (r: Result<Metadata>)
  {
    if EncKey1Key !in Keys(obj) then Ok(m)
    else match Get(obj, EncKey1Key)
      case Some(Str(t)) => Ok(m.(encKey1 := Some(t)))
      case _ => Err(WrongType(EncKey1))
  }

  function SetSalt(m: Metadata, obj: seq<Entry>): (r: Result<Metadata>)
  {
    if SaltKey !in Keys(obj) then Ok(m)
    else match ExtractSalt(obj)
      case Ok(b) => Ok(m.(salt := Some(b)))
      case Err(e) => Err(e)
  }

  function SetCompress(m: Metadata, obj: seq<Entry>): (r: Result<Metadata>)
  {
    if CompressKey !in Keys(obj) then Ok(m)
    else match Get(obj, CompressKey)
      case Some(Int(n)) => Ok(m.(compress := n))
      case _ => Err(WrongType(Compress))
  }

  function SetFileMd5(m: Metadata, obj: seq<Entry>): (r: Result<Metadata>)
  {
    if FileMd5Key !in Keys(obj) then Ok(m)
    else match Get(obj, FileMd5Key)
      case Some(Str(t)) => Ok(m.(fileMd5 := Some(t)))
      case _ => Err(WrongType(FileMd5))
  }

  /** `_process_metadata_object`: the four fields in order, stopping at the
      first wrongly typed one with the earlier ones already stored. */
  function ApplyMetadata(m: Metadata, obj: seq<Entry>): (o: Outcome)
    ensures o.meta.chunks == m.chunks
    ensures o.err.Some? ==> o.err.value in {WrongType(EncKey1), WrongType(Salt), WrongType(Compress), WrongType(FileMd5)}
  {
    match SetEncKey1(m, obj)
    case Err(e) => Outcome(m, Some(e))
    case Ok(m1) =>
      match SetSalt(m1, obj)
      case Err(e) => Outcome(m1, Some(e))
      case Ok(m2) =>
        match SetCompress(m2, obj)
        case Err(e) => Outcome(m2, Some(e))
        case Ok(m3) =>
          match SetFileMd5(m3, obj)
          case Err(e) => Outcome(m3, Some(e))
          case Ok(m4) => Outcome(m4, None)
  }

  /** `_process_data_object`: a truthy `data` value must be a byte string and
      is appended to the chunks; a missing or empty one is ignored. */
  function ApplyData(m: Metadata, obj: seq<Entry>): (o: Outcome)
    ensures o.err.Some? ==> o == Outcome(m, Some(WrongType(DataChunk)))
    ensures o.meta == m
            || (DataKey in Keys(obj) && Get(obj, DataKey).value.Blob?
                && o.meta == m.(chunks := m.chunks + [Get(obj, DataKey).value.bytes]))
  {
    var chunk := Get(obj, DataKey);
    if !Truthy(chunk) then Outcome(m, None)
    else if !chunk.value.Blob? then Outcome(m, Some(WrongType(DataChunk)))
    else Outcome(m.(chunks := m.chunks + [chunk.value.bytes]), None)
  }

  /** The body of `_parse_cloudsync_stream`'s loop for one decoded object:
      dictionaries whose `type` is "metadata" or "data" are processed, every
      other object is skipped. */
  function ApplyObject(m: Metadata, v: Value): (o: Outcome)
    ensures !v.Dict? ==> o == Outcome(m, None)
    ensures o.err.Some? ==> v.Dict? && Get(v.entries, TypeKey) in {Some(MetadataType), Some(DataType)}
    ensures |m.chunks| <= |o.meta.chunks| <= |m.chunks| + 1 && o.meta.chunks[..|m.chunks|] == m.chunks
  {
    if !v.Dict? then Outcome(m, None)
    else
      var t := Get(v.entries, TypeKey);
      if t == Some(MetadataType) then ApplyMetadata(m, v.entries)
      else if t == Some(DataType) then ApplyData(m, v.entries)
      else Outcome(m, None)
  }

  // ---------------------------------------------------------------------
  // The mutable container and the two processing steps
  // ---------------------------------------------------------------------

  /** `_ParsedMetadata`. */
  class ParsedMetadata {
    var encKey1: Option<Bytes>
    var salt: Option<Bytes>
    var compress: nat
    var fileMd5Hash: Option<Bytes>
    var encryptedChunks: seq<Bytes>

    function Snapshot(): (m: Metadata)
      reads this
    {
      Metadata(encKey1, salt, compress, fileMd5Hash, encryptedChunks)
    }

    constructor ()
      ensures Snapshot() == Initial
    {
      encKey1 := None;
      salt := None;
      compress := 0;
      fileMd5Hash := None;
      encryptedChunks := [];
    }
  }

  /** `_process_metadata_object`. */
  method ProcessMetadataObject(obj: seq<Entry>, metadata: ParsedMetadata) returns (err: Option<Error>)
    modifies metadata
    ensures Outcome(metadata.Snapshot(), err) == ApplyMetadata(old(metadata.Snapshot()), obj)
  {
    if EncKey1Key in Keys(obj) {
      var value := Get(obj, EncKey1Key);
      if !value.value.Str? {
        return Some(WrongType(EncKey1));
      }
      metadata.encKey1 := Some(value.value.text);
    }
    if SaltKey in Keys(obj) {
      var salt := ExtractSalt(obj);
      if salt.Err? {
        return Some(salt.error);
      }
      metadata.salt := Some(salt.value);
    }
    if CompressKey in Keys(obj) {
      var value := Get(obj, CompressKey);
      if !value.value.Int? {
        return Some(WrongType(Compress));
      }
      metadata.compress := value.value.n;
    }
    if FileMd5Key in Keys(obj) {
      var value := Get(obj, FileMd5Key);
      if !value.value.Str? {
        return Some(WrongType(FileMd5));
      }
      metadata.fileMd5Hash := Some(value.value.text);
    }
    return None;
  }

  /** `_process_data_object`. */
  method ProcessDataObject(obj: seq<Entry>, metadata: ParsedMetadata) returns (err: Option<Error>)
    modifies metadata
    ensures Outcome(metadata.Snapshot(), err) == ApplyData(old(metadata.Snapshot()), obj)
  {
    var chunk := Get(obj, DataKey);
    if Truthy(chunk) {
      if !chunk.value.Blob? {
        return Some(WrongType(DataChunk));
      }
      metadata.encryptedChunks := metadata.encryptedChunks + [chunk.value.bytes];
    }
    return None;
  }

  // ---------------------------------------------------------------------
  // Properties
  // ---------------------------------------------------------------------

  /** The salt is found exactly when it is a string or a byte string, and is
      then its bytes. */
  lemma {:induction false} ExtractSaltCases(obj: seq<Entry>)
    ensures ExtractSalt(obj).Ok?
            <==> Get(obj, SaltKey).Some? && (Get(obj, SaltKey).value.Str? || Get(obj, SaltKey).value.Blob?)
    ensures ExtractSalt(obj).Ok? && Get(obj, SaltKey).value.Str? ==> ExtractSalt(obj).value == Get(obj, SaltKey).value.text
    ensures ExtractSalt(obj).Ok? && Get(obj, SaltKey).value.Blob? ==> ExtractSalt(obj).value == Get(obj, SaltKey).value.bytes
    ensures ExtractSalt(obj).Err? ==> ExtractSalt(obj).error == WrongType(Salt)
  {
  }

  /** Each field is well typed when its key is absent or holds the type the
      script checks for. */
  predicate EncKey1Ok(obj: seq<Entry>) { EncKey1Key in Keys(obj) ==> Get(obj, EncKey1Key).value.Str? }
  predicate SaltOk(obj: seq<Entry>) { SaltKey in Keys(obj) ==> Get(obj, SaltKey).value.Str? || Get(obj, SaltKey).value.Blob? }
  predicate CompressOk(obj: seq<Entry>) { CompressKey in Keys(obj) ==> Get(obj, CompressKey).value.Int? }
  predicate FileMd5Ok(obj: seq<Entry>) { FileMd5Key in Keys(obj) ==> Get(obj, FileMd5Key).value.Str? }

  /** A metadata dictionary is accepted exactly when all four fields are
      well typed; the first ill-typed field, in the script's order, names the
      error, and the fields before it have been stored. */
  lemma {:induction false} ApplyMetadataErrors(m: Metadata, obj: seq<Entry>)
    ensures ApplyMetadata(m, obj).err.None?
            <==> EncKey1Ok(obj) && SaltOk(obj) && CompressOk(obj) && FileMd5Ok(obj)
    ensures !EncKey1Ok(obj) ==> ApplyMetadata(m, obj) == Outcome(m, Some(WrongType(EncKey1)))
    ensures EncKey1Ok(obj) && !SaltOk(obj)
            ==> ApplyMetadata(m, obj) == Outcome(SetEncKey1(m, obj).value, Some(WrongType(Salt)))
    ensures EncKey1Ok(obj) && SaltOk(obj) && !CompressOk(obj)
            ==> ApplyMetadata(m, obj).err == Some(WrongType(Compress))
                && ApplyMetadata(m, obj).meta == SetSalt(SetEncKey1(m, obj).value, obj).value
    ensures EncKey1Ok(obj) && SaltOk(obj) && CompressOk(obj) && !FileMd5Ok(obj)
            ==> ApplyMetadata(m, obj).err == Some(WrongType(FileMd5))
                && ApplyMetadata(m, obj).meta == SetCompress(SetSalt(SetEncKey1(m, obj).value, obj).value, obj).value
  {
  }

  /** A metadata dictionary changes only the fields whose keys it holds, to
      the values it holds, and never the chunks. */
  lemma {:induction false} ApplyMetadataFields(m: Metadata, obj: seq<Entry>)
    ensures var m' := ApplyMetadata(m, obj).meta;
            m'.chunks == m.chunks
            && (EncKey1Key !in Keys(obj) ==> m'.encKey1 == m.encKey1)
            && (SaltKey !in Keys(obj) ==> m'.salt == m.salt)
            && (CompressKey !in Keys(obj) ==> m'.compress == m.compress)
            && (FileMd5Key !in Keys(obj) ==> m'.fileMd5 == m.fileMd5)
    ensures var o := ApplyMetadata(m, obj);
            o.err.None? ==>
              (EncKey1Key in Keys(obj) ==> o.meta.encKey1 == Some(Get(obj, EncKey1Key).value.text))
              && (SaltKey in Keys(obj) ==> o.meta.salt == Some(ExtractSalt(obj).value))
              && (CompressKey in Keys(obj) ==> o.meta.compress == Get(obj, CompressKey).value.n)
              && (FileMd5Key in Keys(obj) ==> o.meta.fileMd5 == Some(Get(obj, FileMd5Key).value.text))
  {
  }

  /** A data dictionary appends its chunk exactly when the chunk is a
      non-empty byte string, rejects any other truthy value, and changes
      nothing else. */
  lemma {:induction false} ApplyDataCases(m: Metadata, obj: seq<Entry>)
    ensures var o := ApplyData(m, obj);
            o.meta.encKey1 == m.encKey1 && o.meta.salt == m.salt
            && o.meta.compress == m.compress && o.meta.fileMd5 == m.fileMd5
    ensures var c := Get(obj, DataKey);
            ApplyData(m, obj).err.Some? <==> Truthy(c) && !c.value.Blob?
    ensures var c := Get(obj, DataKey);
            c.Some? && c.value.Blob? && c.value.bytes != []
            ==> ApplyData(m, obj) == Outcome(m.(chunks := m.chunks + [c.value.bytes]), None)
    ensures var c := Get(obj, DataKey);
            !(c.Some? && c.value.Blob? && c.value.bytes != []) ==> ApplyData(m, obj).meta == m
  {
  }
}
