/** `_parse_cloudsync_stream`: decodes top-level objects until the decoder
    returns `None` and applies each one to the metadata container.

    `ParseStream` is the loop as a function of the bytes; `TopLevel` and
    `ApplyAll` are an independent reading of it (first decode every object,
    then apply them in order), and `ParseCloudsyncStream` is the loop over a
    `Reader` and a `ParsedMetadata` object. */
module CloudSyncStream {
  import opened Common
  import opened Tlv
  import opened CloudSyncMetadata

  /** The loop, from position `pos` with state `m`: a decoding error or a
      processing error ends it with that error. */
  function ParseStream(s: Bytes, pos: nat, m: Metadata): (r: Result<Metadata>)
    requires pos <= |s|
    ensures r.Ok? ==> |m.chunks| <= |r.value.chunks| && r.value.chunks[..|m.chunks|] == m.chunks
    decreases |s| - pos
  {
    match ParseObject(s, pos)
    case Err(e) => Err(e)
    case Ok(p) =>
      if p.value == Null then Ok(m)
      else
        var o := ApplyObject(m, p.value);
        if o.err.Some? then Err(o.err.value) else ParseStream(s, p.next, o.meta)
  }

  /** The top-level objects from `pos` up to the first `None`. */
  function TopLevel(s: Bytes, pos: nat): (r: Result<seq<Value>>)
    requires pos <= |s|
    ensures r.Ok? ==> forall i :: 0 <= i < |r.value| ==> r.value[i] != Null
    decreases |s| - pos
  {
    match ParseObject(s, pos)
    case Err(e) => Err(e)
    case Ok(p) =>
      if p.value == Null then Ok([])
      else
        match TopLevel(s, p.next)
        case Err(e) => Err(e)
        case Ok(rest) => Ok([p.value] + rest)
  }

  /** Applies objects in order, stopping at the first error. */
  function ApplyAll(m: Metadata, vs: seq<Value>): (r: Result<Metadata>)
    decreases |vs|
  {
    if vs == [] then Ok(m)
    else
      var o := ApplyObject(m, vs[0]);
      if o.err.Some? then Err(o.err.value) else ApplyAll(o.meta, vs[1..])
  }

  /** The chunks a sequence of objects contributes: the non-empty byte
      strings under `data` in dictionaries of type "data", in order. */
  function DataChunks(vs: seq<Value>): (cs: seq<Bytes>)
    decreases |vs|
  {
    if vs == [] then []
    else
      var v := vs[0];
      var c := if v.Dict? && Get(v.entries, TypeKey) == Some(DataType) then Get(v.entries, DataKey) else None;
      var here := if c.Some? && c.value.Blob? && c.value.bytes != [] then [c.value.bytes] else [];
      here + DataChunks(vs[1..])
  }

  /** `_parse_cloudsync_stream` on a stream positioned at its first object. */
  method ParseCloudsyncStream(stream: Reader) returns (r: Result<ParsedMetadata>)
    requires stream.Valid()
    modifies stream
    ensures r.Ok? ==> fresh(r.value) && ParseStream(stream.data, old(stream.pos), Initial) == Ok(r.value.Snapshot())
    ensures r.Err? ==> ParseStream(stream.data, old(stream.pos), Initial) == Err(r.error)
  {
    var metadata := new ParsedMetadata();
    while true
      invariant stream.Valid()
      invariant ParseStream(stream.data, stream.pos, metadata.Snapshot())
                == ParseStream(stream.data, old(stream.pos), Initial)
      decreases |stream.data| - stream.pos
    {
      var obj := stream.ReadObject();
      if obj.Err? {
        return Err(obj.error);
      }
      if obj.value == Null {
        return Ok(metadata);
      }
      if obj.value.Dict? {
        var objType := Get(obj.value.entries, TypeKey);
        if objType == Some(MetadataType) {
          var err := ProcessMetadataObject(obj.value.entries, metadata);
          if err.Some? {
            return Err(err.value);
          }
        } else if objType == Some(DataType) {
          var err := ProcessDataObject(obj.value.entries, metadata);
          if err.Some? {
            return Err(err.value);
          }
        }
      }
    }
  }

  // ---------------------------------------------------------------------
  // Properties
  // ---------------------------------------------------------------------

  /** Decoding all objects first and applying them afterwards gives the same
      metadata as the interleaved loop, whenever the whole stream decodes;
      and a stream the loop accepts decodes as a whole. */
  lemma {:induction false} ParseStreamIsApplyAll(s: Bytes, pos: nat, m: Metadata)
    requires pos <= |s|
    ensures TopLevel(s, pos).Ok? ==> ParseStream(s, pos, m) == ApplyAll(m, TopLevel(s, pos).value)
    ensures ParseStream(s, pos, m).Ok? ==> TopLevel(s, pos).Ok?
    decreases |s| - pos
  {
    match ParseObject(s, pos)
    case Err(e) =>
    case Ok(p) =>
      if p.value != Null {
        var o := ApplyObject(m, p.value);
        if o.err.None? {
          ParseStreamIsApplyAll(s, p.next, o.meta);
        }
        if TopLevel(s, pos).Ok? {
          var vs := TopLevel(s, pos).value;
          assert vs[0] == p.value && vs[1..] == TopLevel(s, p.next).value;
        }
      }
  }

  /** Applying objects appends exactly their data chunks, in order. */
  lemma {:induction false} ApplyAllChunks(m: Metadata, vs: seq<Value>)
    requires ApplyAll(m, vs).Ok?
    ensures ApplyAll(m, vs).value.chunks == m.chunks + DataChunks(vs)
    decreases |vs|
  {
    if vs != [] {
      var o := ApplyObject(m, vs[0]);
      ApplyObjectChunks(m, vs[0]);
      ApplyAllChunks(o.meta, vs[1..]);
    }
  }

  /** One object appends its data chunk, if it has one, and nothing else. */
  lemma {:induction false} ApplyObjectChunks(m: Metadata, v: Value)
    requires ApplyObject(m, v).err.None?
    ensures ApplyObject(m, v).meta.chunks == m.chunks + DataChunks([v])
  {
    assert [v][0] == v && [v][1..] == [];
    if v.Dict? && Get(v.entries, TypeKey) == Some(MetadataType) {
      ApplyMetadataFields(m, v.entries);
    } else if v.Dict? && Get(v.entries, TypeKey) == Some(DataType) {
      ApplyDataCases(m, v.entries);
    }
  }

  /** The encrypted chunks of a parsed stream are the non-empty byte-string
      `data` values of its "data" dictionaries, in stream order. */
  lemma {:induction false} ParsedChunks(s: Bytes, pos: nat)
    requires pos <= |s| && ParseStream(s, pos, Initial).Ok?
    ensures TopLevel(s, pos).Ok?
    ensures ParseStream(s, pos, Initial).value.chunks == DataChunks(TopLevel(s, pos).value)
  {
    ParseStreamIsApplyAll(s, pos, Initial);
    ApplyAllChunks(Initial, TopLevel(s, pos).value);
  }

  /** Objects that are not dictionaries of type "metadata" or "data" leave
      the result unchanged: dropping one from the object list changes
      nothing. */
  lemma {:induction false} SkippedObject(m: Metadata, vs: seq<Value>, i: nat)
    requires i < |vs|
    requires !vs[i].Dict? || (Get(vs[i].entries, TypeKey) != Some(MetadataType)
                              && Get(vs[i].entries, TypeKey) != Some(DataType))
    ensures ApplyAll(m, vs) == ApplyAll(m, vs[..i] + vs[i + 1..])
    decreases i
  {
    if i == 0 {
      assert vs[..0] + vs[1..] == vs[1..];
    } else {
      var o := ApplyObject(m, vs[0]);
      if o.err.None? {
        SkippedObject(o.meta, vs[1..], i - 1);
        assert vs[1..][..i - 1] + vs[1..][i..] == (vs[..i] + vs[i + 1..])[1..];
      }
      assert (vs[..i] + vs[i + 1..])[0] == vs[0];
    }
  }
}
