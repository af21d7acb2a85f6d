/** Decoding an encoded value gives it back and consumes exactly its
    encoding, wherever it sits in the stream. */
module TlvRoundTrip {
  import opened Common
  import opened Tlv
  import opened TlvEncoding

  /** `read_object` at `pos` gives `v` and stops at `next`. */
  predicate Decodes(s: Bytes, pos: nat, v: Value, next: nat) {
    pos <= |s| && ParseObject(s, pos) == Ok(Parsed(v, next))
  }

  /** `read_dict` at `pos`, with `acc` read so far, gives `v` and stops at `next`. */
  predicate DictDecodes(s: Bytes, pos: nat, acc: seq<Entry>, v: Value, next: nat) {
    pos <= |s| && ParseDict(s, pos, acc) == Ok(Parsed(v, next))
  }

  /** The round trip: a well-formed value's encoding, followed by anything,
      decodes to the value and stops exactly at the end of the encoding. */
  lemma {:induction false} DecodeEncode(v: Value, rest: Bytes)
    requires WellFormed(v)
    ensures ParseObject(Encode(v) + rest, 0) == Ok(Parsed(v, |Encode(v)|))
  {
    var s := Encode(v) + rest;
    assert s[0..|Encode(v)|] == Encode(v);
    ParseEncoded(v, s, 0, |Encode(v)|);
  }

  lemma {:induction false} AtSplit(s: Bytes, pos: nat, a: Bytes, b: Bytes)
    requires At(s, pos, a + b)
    ensures At(s, pos, a) && At(s, pos + |a|, b)
  {
    assert s[pos..pos + |a|] == (a + b)[..|a|];
    assert s[pos + |a|..pos + |a| + |b|] == (a + b)[|a|..];
  }

  lemma {:induction false} AtSplit3(s: Bytes, pos: nat, a: Bytes, b: Bytes, c: Bytes)
    requires At(s, pos, a + (b + c))
    ensures At(s, pos, a) && At(s, pos + |a|, b) && At(s, pos + |a| + |b|, c)
  {
    AtSplit(s, pos, a, b + c);
    AtSplit(s, pos + |a|, b, c);
  }

  lemma {:induction false} TakeAt(s: Bytes, pos: nat, bs: Bytes)
    requires At(s, pos, bs)
    ensures Take(s, pos, |bs|) == bs
  {
  }

  /** Decoding a well-formed value's encoding, wherever it sits in the stream,
      gives the value back and stops exactly at the end of the encoding. */
  lemma {:induction false} ParseEncoded(v: Value, s: Bytes, pos: nat, next: nat)
    requires WellFormed(v) && At(s, pos, Encode(v)) && next == pos + |Encode(v)|
    ensures Decodes(s, pos, v, next)
    decreases Size(v), 2
  {
    if v.Dict? {
      ParseEncodedDict(v, s, pos, next);
    } else if v.Null? {
      assert s[pos] == Encode(v)[0];
    } else if v.Int? {
      ParseEncodedInt(v.n, s, pos, next);
    } else {
      ParseEncodedText(v, s, pos, next);
    }
  }

  lemma {:induction false} ParseEncodedDict(v: Value, s: Bytes, pos: nat, next: nat)
    requires v.Dict? && WellFormed(v) && At(s, pos, Encode(v)) && next == pos + |Encode(v)|
    ensures Decodes(s, pos, v, next)
    decreases Size(v), 1
  {
    DictLayout(v, s, pos);
    ParseEncodedEntries(v.entries, [], s, pos + 1, next);
    ParseDictAt(v, s, pos, next);
  }

  /** Where the parts of an encoded dictionary sit. */
  lemma {:induction false} DictLayout(v: Value, s: Bytes, pos: nat)
    requires v.Dict? && WellFormed(v) && At(s, pos, Encode(v))
    ensures At(s, pos, [DictStart]) && At(s, pos + 1, EncodeEntries(v.entries) + [DictEnd])
    ensures pos + |Encode(v)| == pos + 1 + |EncodeEntries(v.entries)| + 1
    ensures EntriesWellFormed(v.entries) && DistinctKeys(v.entries)
    ensures EntriesSize(v.entries) < Size(v) && Keys([]) == []
  {
    assert Encode(v) == [DictStart] + (EncodeEntries(v.entries) + [DictEnd]);
    AtSplit(s, pos, [DictStart], EncodeEntries(v.entries) + [DictEnd]);
  }

  lemma {:induction false} ParseDictAt(v: Value, s: Bytes, pos: nat, next: nat)
    requires v.Dict? && At(s, pos, [DictStart])
    requires DictDecodes(s, pos + 1, [], Dict([] + v.entries), next)
    ensures Decodes(s, pos, v, next)
  {
    assert s[pos] == DictStart;
    assert [] + v.entries == v.entries;
  }

  lemma {:induction false} ParseEncodedText(v: Value, s: Bytes, pos: nat, next: nat)
    requires v.Str? || v.Blob?
    requires WellFormed(v) && At(s, pos, Encode(v)) && next == pos + |Encode(v)|
    ensures Decodes(s, pos, v, next)
  {
    var t := if v.Str? then v.text else v.bytes;
    var tag := if v.Str? then StrTag else BytesTag;
    TextLayout(v, t, tag, s, pos);
    ParseTextAt(s, pos, tag, ToBigEndian(|t|, 2), t, next);
  }

  /** Where the parts of an encoded string or byte string sit. */
  lemma {:induction false} TextLayout(v: Value, t: Bytes, tag: byte, s: Bytes, pos: nat)
    requires v == Str(t) || v == Blob(t)
    requires tag == if v.Str? then StrTag else BytesTag
    requires WellFormed(v) && At(s, pos, Encode(v))
    ensures At(s, pos, [tag]) && At(s, pos + 1, ToBigEndian(|t|, 2)) && At(s, pos + 3, t)
    ensures |Encode(v)| == 3 + |t|
  {
    TextShape(v, t, tag);
    AtSplit3(s, pos, [tag], ToBigEndian(|t|, 2), t);
  }

  lemma {:induction false} TextShape(v: Value, t: Bytes, tag: byte)
    requires v == Str(t) || v == Blob(t)
    requires tag == if v.Str? then StrTag else BytesTag
    requires WellFormed(v)
    ensures Encode(v) == [tag] + (ToBigEndian(|t|, 2) + t)
  {
  }

  lemma {:induction false} ParseTextAt(s: Bytes, pos: nat, tag: byte, len: Bytes, t: Bytes, next: nat)
    requires tag == StrTag || tag == BytesTag
    requires At(s, pos, [tag]) && At(s, pos + 1, len) && At(s, pos + 3, t)
    requires |len| == 2 && FromBigEndian(len) == |t| && next == pos + 3 + |t|
    ensures Decodes(s, pos, if tag == StrTag then Str(t) else Blob(t), next)
  {
    assert s[pos] == tag;
    TakeAt(s, pos + 1, len);
    TakeAt(s, pos + 3, t);
  }

  lemma {:induction false} ParseEncodedInt(n: nat, s: Bytes, pos: nat, next: nat)
    requires WellFormed(Int(n)) && At(s, pos, Encode(Int(n))) && next == pos + |Encode(Int(n))|
    ensures Decodes(s, pos, Int(n), next)
  {
    IntLayout(n, s, pos);
    ParseIntAt(s, pos, ByteLength(n), ToBigEndian(n, ByteLength(n)), next);
  }

  /** Where the parts of an encoded integer sit. */
  lemma {:induction false} IntLayout(n: nat, s: Bytes, pos: nat)
    requires WellFormed(Int(n)) && At(s, pos, Encode(Int(n)))
    ensures At(s, pos, [IntTag]) && At(s, pos + 1, [ByteLength(n)])
    ensures At(s, pos + 2, ToBigEndian(n, ByteLength(n)))
    ensures |Encode(Int(n))| == 2 + ByteLength(n)
  {
    IntShape(n);
    AtSplit3(s, pos, [IntTag], [ByteLength(n)], ToBigEndian(n, ByteLength(n)));
  }

  lemma {:induction false} IntShape(n: nat)
    requires WellFormed(Int(n))
    ensures Encode(Int(n)) == [IntTag] + ([ByteLength(n) % 256] + ToBigEndian(n, ByteLength(n)))
  {
  }

  lemma {:induction false} ParseIntAt(s: Bytes, pos: nat, k: byte, body: Bytes, next: nat)
    requires At(s, pos, [IntTag]) && At(s, pos + 1, [k]) && At(s, pos + 2, body)
    requires |body| == k && next == pos + 2 + k
    ensures Decodes(s, pos, Int(FromBigEndian(body)), next)
  {
    assert s[pos] == IntTag && s[pos + 1] == k;
    TakeAt(s, pos + 2, body);
  }

  // ---------------------------------------------------------------------
  // Dictionaries
  // ---------------------------------------------------------------------

  /** Storing a key that is not there yet appends the entry. */
  lemma {:induction false} PutFresh(es: seq<Entry>, k: Value, v: Value)
    requires k !in Keys(es)
    ensures Put(es, k, v) == es + [Entry(k, v)]
  {
    if es != [] {
      assert Keys(es) == [es[0].key] + Keys(es[1..]);
      PutFresh(es[1..], k, v);
      assert Put(es, k, v) == [es[0]] + (es[1..] + [Entry(k, v)]);
      assert es == [es[0]] + es[1..];
    }
  }

  lemma {:induction false} Assoc(a: seq<Entry>, b: seq<Entry>, c: seq<Entry>)
    ensures (a + b) + c == a + (b + c)
  {
    assert forall i | 0 <= i < |a| + |b| + |c| :: ((a + b) + c)[i] == (a + (b + c))[i];
  }

  lemma {:induction false} KeysSnoc(acc: seq<Entry>, e: Entry)
    ensures Keys(acc + [e]) == Keys(acc) + [e.key]
  {
    if acc != [] {
      KeysSnoc(acc[1..], e);
      assert (acc + [e])[1..] == acc[1..] + [e];
    }
  }

  /** The entries of a dictionary followed by its end marker decode to the
      entries already read followed by these, in order. */
  lemma {:induction false} ParseEncodedEntries(es: seq<Entry>, acc: seq<Entry>, s: Bytes, pos: nat, next: nat)
    requires EntriesWellFormed(es) && DistinctKeys(es)
    requires forall k :: k in Keys(es) ==> k !in Keys(acc)
    requires At(s, pos, EncodeEntries(es) + [DictEnd]) && next == pos + |EncodeEntries(es)| + 1
    ensures DictDecodes(s, pos, acc, Dict(acc + es), next)
    decreases EntriesSize(es), 2
  {
    if es == [] {
      ParseNoEntries(es, acc, s, pos, next);
    } else {
      var e, rest := Uncons(es);
      ParseEncodedCons(es, e, rest, acc, s, pos, next);
    }
  }

  /** `ParseEncodedEntries` for a first entry `e` followed by `rest`. */
  lemma {:induction false} ParseEncodedCons(es: seq<Entry>, e: Entry, rest: seq<Entry>, acc: seq<Entry>,
                                             s: Bytes, pos: nat, next: nat)
    requires es == [e] + rest
    requires EntriesWellFormed(es) && DistinctKeys(es)
    requires forall k :: k in Keys(es) ==> k !in Keys(acc)
    requires At(s, pos, EncodeEntries(es) + [DictEnd]) && next == pos + |EncodeEntries(es)| + 1
    ensures DictDecodes(s, pos, acc, Dict(acc + es), next)
    decreases EntriesSize(es), 1
  {
    var p1 := pos + |Encode(e.key)|;
    var p2 := pos + |EncodeEntry(e)|;
    ConsFacts(es, e, rest, acc, s, pos, p2, next);
    ParseEncodedEntry(e, s, pos, p1, p2);
    ParseEncodedEntries(rest, acc + [e], s, p2, next);
    ParseEntryThenRest(s, pos, acc, es, e, p1, p2, rest, next);
  }

  /** What `ParseEncodedCons` needs to know about the first entry and the
      rest before it reads them. */
  lemma {:induction false} ConsFacts(es: seq<Entry>, e: Entry, rest: seq<Entry>, acc: seq<Entry>,
                                      s: Bytes, pos: nat, p2: nat, next: nat)
    requires es == [e] + rest
    requires EntriesWellFormed(es) && DistinctKeys(es)
    requires forall k :: k in Keys(es) ==> k !in Keys(acc)
    requires At(s, pos, EncodeEntries(es) + [DictEnd]) && next == pos + |EncodeEntries(es)| + 1
    requires p2 == pos + |EncodeEntry(e)|
    ensures EntryWellFormed(e) && IsKey(e.key) && EntriesWellFormed(rest) && DistinctKeys(rest)
    ensures e.key !in Keys(acc) && forall k :: k in Keys(rest) ==> k !in Keys(acc + [e])
    ensures At(s, pos, EncodeEntry(e)) && At(s, p2, EncodeEntries(rest) + [DictEnd])
    ensures next == p2 + |EncodeEntries(rest)| + 1
    ensures EntrySize(e) <= EntriesSize(es) && EntriesSize(rest) < EntriesSize(es)
  {
    ConsShape(es, e, rest);
    AccStep(es, e, rest, acc);
    AtSplit(s, pos, EncodeEntry(e), EncodeEntries(rest) + [DictEnd]);
  }

  lemma {:induction false} ParseNoEntries(es: seq<Entry>, acc: seq<Entry>, s: Bytes, pos: nat, next: nat)
    requires es == [] && At(s, pos, EncodeEntries(es) + [DictEnd]) && next == pos + 1
    ensures DictDecodes(s, pos, acc, Dict(acc + es), next)
  {
    assert EncodeEntries(es) + [DictEnd] == [DictEnd];
    assert s[pos] == DictEnd;
    assert acc + es == acc;
  }

  /** A non-empty entry list as its first entry and the rest. */
  lemma {:induction false} Uncons(es: seq<Entry>) returns (e: Entry, rest: seq<Entry>)
    requires es != []
    ensures es == [e] + rest
  {
    e, rest := es[0], es[1..];
  }

  /** How the encoder, the well-formedness predicates, the keys and the size
      of an entry list split over its first entry. */
  lemma {:induction false} ConsShape(es: seq<Entry>, e: Entry, rest: seq<Entry>)
    requires es == [e] + rest
    ensures EncodeEntries(es) + [DictEnd] == EncodeEntry(e) + (EncodeEntries(rest) + [DictEnd])
    ensures EncodeEntries(es) == EncodeEntry(e) + EncodeEntries(rest)
    ensures EntriesWellFormed(es) <==> EntryWellFormed(e) && EntriesWellFormed(rest)
    ensures DistinctKeys(es) <==> e.key !in Keys(rest) && DistinctKeys(rest)
    ensures Keys(es) == [e.key] + Keys(rest)
    ensures EntriesSize(es) == EntrySize(e) + EntriesSize(rest)
  {
    assert es[0] == e && es[1..] == rest;
  }

  /** After the first entry is read, the accumulated entries still share
      no key with the entries to come. */
  lemma {:induction false} AccStep(es: seq<Entry>, e: Entry, rest: seq<Entry>, acc: seq<Entry>)
    requires Keys(es) == [e.key] + Keys(rest)
    requires forall k :: k in Keys(es) ==> k !in Keys(acc)
    requires e.key !in Keys(rest)
    ensures e.key !in Keys(acc)
    ensures forall k :: k in Keys(rest) ==> k !in Keys(acc + [e])
  {
    KeysSnoc(acc, e);
  }

  /** An entry whose scalar key was not read before, then the rest of the
      dictionary: the decoder appends the entry and carries on. */
  lemma {:induction false} ParseEntryThenRest(s: Bytes, pos: nat, acc: seq<Entry>, es: seq<Entry>, e: Entry,
                                               p1: nat, p2: nat, rest: seq<Entry>, next: nat)
    requires es == [e] + rest
    requires IsKey(e.key) && e.key !in Keys(acc)
    requires Decodes(s, pos, e.key, p1) && Decodes(s, p1, e.value, p2)
    requires DictDecodes(s, p2, acc + [e], Dict(acc + [e] + rest), next)
    ensures DictDecodes(s, pos, acc, Dict(acc + es), next)
  {
    PutFresh(acc, e.key, e.value);
    Assoc(acc, [e], rest);
  }

  lemma {:induction false} ParseEncodedEntry(e: Entry, s: Bytes, pos: nat, p1: nat, p2: nat)
    requires EntryWellFormed(e) && At(s, pos, EncodeEntry(e))
    requires p1 == pos + |Encode(e.key)| && p2 == pos + |EncodeEntry(e)|
    ensures Decodes(s, pos, e.key, p1) && Decodes(s, p1, e.value, p2)
    decreases EntrySize(e), 0
  {
    EntryShape(e);
    AtSplit(s, pos, Encode(e.key), Encode(e.value));
    ParseEncoded(e.key, s, pos, p1);
    ParseEncoded(e.value, s, p1, p2);
  }

  lemma {:induction false} EntryShape(e: Entry)
    requires EntryWellFormed(e)
    ensures EncodeEntry(e) == Encode(e.key) + Encode(e.value)
    ensures Size(e.key) < EntrySize(e) && Size(e.value) < EntrySize(e)
  {
  }
}
