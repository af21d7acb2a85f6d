/** How the decoder treats the header bytes, the end of input, dictionary
    keys and repeated keys. */
module TlvProperties {
  import opened Common
  import opened Tlv
  import opened TlvEncoding
  import opened TlvRoundTrip

  /** `read_object` returns `None` exactly at the end of input (consuming
      nothing) and at an end marker (consuming it). */
  lemma {:induction false} NullExactlyAtEnd(s: Bytes, pos: nat)
    requires pos <= |s|
    ensures ParseObject(s, pos).Ok? && ParseObject(s, pos).value.value == Null
            <==> pos == |s| || s[pos] == DictEnd
    ensures pos == |s| ==> ParseObject(s, pos) == Ok(Parsed(Null, pos))
    ensures pos < |s| && s[pos] == DictEnd ==> ParseObject(s, pos) == Ok(Parsed(Null, pos + 1))
  {
  }

  /** Outside dictionaries, header bytes other than the five tags are
      refused with the byte, and an integer header at the very end has no
      length byte to read. */
  lemma {:induction false} HeaderErrors(s: Bytes, pos: nat)
    requires pos < |s| && s[pos] != DictStart
    ensures s[pos] !in [DictEnd, StrTag, BytesTag, IntTag]
            <==> ParseObject(s, pos) == Err(UnknownType(s[pos]))
    ensures s[pos] == IntTag && pos + 1 == |s| <==> ParseObject(s, pos) == Err(MissingIntLength)
  {
  }

  /** A string or byte string reads a two-byte big-endian length and then
      that many bytes; when the input ends first it gets the bytes that are
      left, without an error, and the input is used up. With fewer than two
      length bytes left the text is empty. */
  lemma {:induction false} TextReads(s: Bytes, pos: nat)
    requires pos < |s| && (s[pos] == StrTag || s[pos] == BytesTag)
    ensures pos + 3 <= |s| ==>
            var len := (s[pos + 1] as int) * 256 + (s[pos + 2] as int);
            var end := if pos + 3 + len <= |s| then pos + 3 + len else |s|;
            var body := s[pos + 3..end];
            ParseObject(s, pos) == Ok(Parsed(if s[pos] == StrTag then Str(body) else Blob(body), end))
    ensures pos + 3 > |s| ==>
            ParseObject(s, pos) == Ok(Parsed(if s[pos] == StrTag then Str([]) else Blob([]), |s|))
  {
    if pos + 3 <= |s| {
      var lenBytes := s[pos + 1..pos + 3];
      assert lenBytes == [s[pos + 1], s[pos + 2]];
      assert PrefixValue(lenBytes, 1) == s[pos + 1];
      assert FromBigEndian(lenBytes) == (s[pos + 1] as int) * 256 + (s[pos + 2] as int);
    } else {
      var len := Take(s, pos + 1, 2);
      assert pos + 1 + |len| == |s|;
    }
  }

  /** An integer reads a one-byte length and then that many big-endian bytes,
      fewer when the input ends first. */
  lemma {:induction false} IntReads(s: Bytes, pos: nat)
    requires pos + 2 <= |s| && s[pos] == IntTag
    ensures var end := if pos + 2 + s[pos + 1] <= |s| then pos + 2 + s[pos + 1] else |s|;
            ParseObject(s, pos) == Ok(Parsed(Int(FromBigEndian(s[pos + 2..end])), end))
  {
  }

  /** `read_dict` ends at the first key that reads as `None`, an end marker
      or the end of input, with the entries read so far. */
  lemma {:induction false} DictStopsAtNull(s: Bytes, pos: nat, acc: seq<Entry>, n: nat)
    requires pos <= |s| && ParseObject(s, pos) == Ok(Parsed(Null, n))
    ensures ParseDict(s, pos, acc) == Ok(Parsed(Dict(acc), n))
  {
  }

  /** In particular a dictionary cut off by the end of input is accepted. */
  lemma {:induction false} TruncatedDict(s: Bytes, acc: seq<Entry>)
    ensures ParseDict(s, |s|, acc) == Ok(Parsed(Dict(acc), |s|))
  {
    DictStopsAtNull(s, |s|, acc, |s|);
  }

  /** A dictionary used as a key is refused. */
  lemma {:induction false} DictKeyRefused(s: Bytes, pos: nat, acc: seq<Entry>)
    requires pos <= |s| && ParseObject(s, pos).Ok? && ParseObject(s, pos).value.value.Dict?
    ensures ParseDict(s, pos, acc) == Err(DictKey)
  {
  }

  /** One entry of a dictionary: a key and a value that decode in turn are
      stored as `d[key] = value`, and reading goes on after them. */
  lemma {:induction false} DictEntryStep(s: Bytes, pos: nat, acc: seq<Entry>, k: Value, v: Value, p1: nat, p2: nat)
    requires IsKey(k) && Decodes(s, pos, k, p1) && Decodes(s, p1, v, p2)
    ensures ParseDict(s, pos, acc) == ParseDict(s, p2, Put(acc, k, v))
  {
  }

  /** A key that occurs twice keeps the value read last, at the position of
      its first occurrence: `{k: v1, k: v2}` reads as `{k: v2}`. */
  lemma {:induction false} RepeatedKeyOverwrites(k: Value, v1: Value, v2: Value)
    requires IsKey(k) && WellFormed(k) && WellFormed(v1) && WellFormed(v2)
    ensures var s := [DictStart] + (EncodeEntry(Entry(k, v1)) + (EncodeEntry(Entry(k, v2)) + [DictEnd]));
            ParseObject(s, 0) == Ok(Parsed(Dict([Entry(k, v2)]), |s|))
  {
    var a := EncodeEntry(Entry(k, v1));
    var b := EncodeEntry(Entry(k, v2));
    var s := [DictStart] + (a + (b + [DictEnd]));
    Layout(s, a, b);
    RepeatedKeyAt(k, v1, v2, s, 1 + |Encode(k)|, 1 + |a|, 1 + |a| + |Encode(k)|, 1 + |a| + |b|);
  }

  /** Where the pieces of `{a b}` sit. */
  lemma {:induction false} Layout(s: Bytes, a: Bytes, b: Bytes)
    requires s == [DictStart] + (a + (b + [DictEnd]))
    ensures At(s, 0, [DictStart]) && At(s, 1, a) && At(s, 1 + |a|, b) && At(s, 1 + |a| + |b|, [DictEnd])
    ensures |s| == 1 + |a| + |b| + 1
  {
    assert At(s, 0, [DictStart] + (a + (b + [DictEnd])));
    AtSplit3(s, 0, [DictStart], a, b + [DictEnd]);
    AtSplit(s, 1 + |a|, b, [DictEnd]);
  }

  lemma {:induction false} RepeatedKeyAt(k: Value, v1: Value, v2: Value, s: Bytes, p1: nat, p2: nat, p3: nat, p4: nat)
    requires IsKey(k) && WellFormed(k) && WellFormed(v1) && WellFormed(v2)
    requires At(s, 0, [DictStart]) && At(s, 1, EncodeEntry(Entry(k, v1)))
    requires At(s, p2, EncodeEntry(Entry(k, v2))) && At(s, p4, [DictEnd])
    requires p1 == 1 + |Encode(k)| && p2 == 1 + |EncodeEntry(Entry(k, v1))|
    requires p3 == p2 + |Encode(k)| && p4 == p2 + |EncodeEntry(Entry(k, v2))|
    ensures Decodes(s, 0, Dict([Entry(k, v2)]), p4 + 1)
  {
    var e1 := Entry(k, v1);
    var d := Dict([Entry(k, v2)]);
    assert EntryWellFormed(e1) && EntryWellFormed(Entry(k, v2));
    ParseEncodedEntry(e1, s, 1, p1, p2);
    ParseEncodedEntry(Entry(k, v2), s, p2, p3, p4);
    AtByte(s, p4, DictEnd);
    SecondEntry(s, k, v1, v2, p2, p3, p4);
    FirstEntry(s, k, v1, d, p1, p2, p4 + 1);
    AtByte(s, 0, DictStart);
    DictAtStart(s, d, p4 + 1);
  }

  lemma {:induction false} DictAtStart(s: Bytes, d: Value, next: nat)
    requires 0 < |s| && s[0] == DictStart && DictDecodes(s, 1, [], d, next)
    ensures Decodes(s, 0, d, next)
  {
  }

  lemma {:induction false} AtByte(s: Bytes, pos: nat, b: byte)
    requires At(s, pos, [b])
    ensures pos < |s| && s[pos] == b
  {
    assert s[pos..pos + 1][0] == s[pos];
  }

  /** `{k: v1` already read, then `k: v2}`. */
  lemma {:induction false} SecondEntry(s: Bytes, k: Value, v1: Value, v2: Value, p2: nat, p3: nat, p4: nat)
    requires IsKey(k) && Decodes(s, p2, k, p3) && Decodes(s, p3, v2, p4)
    requires p4 < |s| && s[p4] == DictEnd
    ensures DictDecodes(s, p2, [Entry(k, v1)], Dict([Entry(k, v2)]), p4 + 1)
  {
    NullExactlyAtEnd(s, p4);
    DictStopsAtNull(s, p4, [Entry(k, v2)], p4 + 1);
    DictEntryStep(s, p2, [Entry(k, v1)], k, v2, p3, p4);
    assert Put([Entry(k, v1)], k, v2) == [Entry(k, v2)];
  }

  /** `{k: v1` read first, the rest reads as `d`. */
  lemma {:induction false} FirstEntry(s: Bytes, k: Value, v1: Value, d: Value, p1: nat, p2: nat, next: nat)
    requires IsKey(k) && Decodes(s, 1, k, p1) && Decodes(s, p1, v1, p2)
    requires DictDecodes(s, p2, [Entry(k, v1)], d, next)
    ensures DictDecodes(s, 1, [], d, next)
  {
    DictEntryStep(s, 1, [], k, v1, p1, p2);
    assert Put([], k, v1) == [Entry(k, v1)];
  }
}
