/** The CloudSync type-length-value format: a header byte, then (for strings,
    byte strings and integers) a big-endian length and that many bytes, or
    (for dictionaries) key/value objects up to an end marker.

    `ParseObject` and `ParseDict` are the specification of the decoder as
    functions from a byte sequence and a position to a value and the next
    position; `Reader` is the decoder as the script runs it, a cursor over a
    byte stream, proved to agree with them. */
module Tlv {
  import opened Common

  const DictStart: byte := 0x42
  const DictEnd: byte := 0x40
  const StrTag: byte := 0x10
  const BytesTag: byte := 0x11
  const IntTag: byte := 0x01

  /** A decoded object. `Null` is what the decoder returns for an end marker or
      at the end of input; a string keeps its raw (UTF-8) bytes. */
  datatype Value =
    | Null
    | Dict(entries: seq<Entry>)
    | Str(text: Bytes)
    | Blob(bytes: Bytes)
    | Int(n: nat)

  /** One entry of an insertion-ordered dictionary. */
  datatype Entry = Entry(key: Value, value: Value)

  /** A decoded value and the position just after its encoding. */
  datatype Parsed = Parsed(value: Value, next: nat)

  // ---------------------------------------------------------------------
  // Insertion-ordered dictionaries
  // ---------------------------------------------------------------------

  function Keys(es: seq<Entry>): (ks: seq<Value>)
    ensures |ks| == |es|
  {
    if es == [] then [] else [es[0].key] + Keys(es[1..])
  }

  /** `d.get(k)`: the value stored under `k`, if any. */
  function Get(es: seq<Entry>, k: Value): (r: Option<Value>)
    ensures r.Some? <==> k in Keys(es)
  {
    if es == [] then None
    else if es[0].key == k then Some(es[0].value)
    else Get(es[1..], k)
  }

  /** `d[k] = v` on an insertion-ordered dictionary: an existing key keeps its
      position and gets the new value, a new key goes at the end. */
  function Put(es: seq<Entry>, k: Value, v: Value): (r: seq<Entry>)
    ensures Keys(r) == if k in Keys(es) then Keys(es) else Keys(es) + [k]
  {
    if es == [] then [Entry(k, v)]
    else if es[0].key == k then [Entry(k, v)] + es[1..]
    else
      var r := [es[0]] + Put(es[1..], k, v);
      assert r[1..] == Put(es[1..], k, v);
      assert Keys(r) == [es[0].key] + Keys(Put(es[1..], k, v));
      r
  }

  /** After `d[k] = v`, `d.get(k)` is `v` and every other key reads as before. */
  lemma {:induction false} GetPut(es: seq<Entry>, k: Value, v: Value, k': Value)
    ensures Get(Put(es, k, v), k') == if k' == k then Some(v) else Get(es, k')
  {
    if es != [] && es[0].key != k {
      GetPut(es[1..], k, v, k');
      assert Put(es, k, v)[1..] == Put(es[1..], k, v);
    }
  }

  predicate IsKey(v: Value) {
    v.Str? || v.Blob? || v.Int?
  }

  /** Selects the payload of a Result<Parsed>, keeping the error. */
  function ValueOf(p: Result<Parsed>): (r: Result<Value>)
    ensures r.Ok? <==> p.Ok?
    ensures p.Ok? ==> r.value == p.value.value
    ensures p.Err? ==> r.error == p.error
  {
    match p
    case Ok(q) => Ok(q.value)
    case Err(e) => Err(e)
  }

  // ---------------------------------------------------------------------
  // Decoder specification
  // ---------------------------------------------------------------------

  /** `read_object`: decodes one object starting at `pos`. Reads that run past
      the end of `s` return what is left, as `read(n)` does. */
  function ParseObject(s: Bytes, pos: nat): (r: Result<Parsed>)
    requires pos <= |s|
    ensures r.Ok? ==> pos <= r.value.next <= |s|
    ensures r.Ok? && r.value.value != Null ==> pos < r.value.next
    decreases |s| - pos, 1
  {
    if pos == |s| then Ok(Parsed(Null, pos))
    else if s[pos] == DictStart then ParseDict(s, pos + 1, [])
    else ParseAtom(s, pos)
  }

  /** `read_object` for every header byte except the dictionary start. */
  function ParseAtom(s: Bytes, pos: nat): (r: Result<Parsed>)
    requires pos < |s| && s[pos] != DictStart
    ensures r.Ok? ==> pos < r.value.next <= |s| && !r.value.value.Dict?
  {
    var h := s[pos];
    if h == DictEnd then Ok(Parsed(Null, pos + 1))
    else if h == StrTag || h == BytesTag then
      var len := Take(s, pos + 1, 2);
      var start := pos + 1 + |len|;
      var body := Take(s, start, FromBigEndian(len));
      Ok(Parsed(if h == StrTag then Str(body) else Blob(body), start + |body|))
    else if h == IntTag then
      if pos + 1 == |s| then Err(MissingIntLength)
      else
        var body := Take(s, pos + 2, s[pos + 1]);
        Ok(Parsed(Int(FromBigEndian(body)), pos + 2 + |body|))
    else Err(UnknownType(h))
  }

  /** `read_dict` after its start byte, with the entries read so far in `acc`:
      reads keys and values until a key decodes to `Null`. */
  function ParseDict(s: Bytes, pos: nat, acc: seq<Entry>): (r: Result<Parsed>)
    requires pos <= |s|
    ensures r.Ok? ==> pos <= r.value.next <= |s| && r.value.value.Dict?
    decreases |s| - pos, 2
  {
    match ParseObject(s, pos)
    case Err(e) => Err(e)
    case Ok(key) =>
      if key.value == Null then Ok(Parsed(Dict(acc), key.next))
      else if key.value.Dict? then Err(DictKey)
      else
        match ParseObject(s, key.next)
        case Err(e) => Err(e)
        case Ok(val) => ParseDict(s, val.next, Put(acc, key.value, val.value))
  }

  // ---------------------------------------------------------------------
  // The decoder as the script runs it: a cursor over a byte stream
  // ---------------------------------------------------------------------

  /** An in-memory byte stream (`io.BytesIO`) with its read position. */
  class Reader {
    const data: Bytes
    var pos: nat

    ghost predicate Valid()
      reads this
    {
      pos <= |data|
    }

    constructor (bytes: Bytes)
      ensures Valid() && data == bytes && pos == 0
    {
      data := bytes;
      pos := 0;
    }

    /** `read(n)`: at most `n` bytes; the cursor moves past what was returned. */
    method Read(n: nat) returns (chunk: Bytes)
      requires Valid()
      modifies this
      ensures Valid()
      ensures chunk == Take(data, old(pos), n) && pos == old(pos) + |chunk|
    {
      chunk := Take(data, pos, n);
      pos := pos + |chunk|;
    }

    /** `read_object`. */
    method ReadObject() returns (r: Result<Value>)
      requires Valid()
      modifies this
      ensures Valid()
      ensures r == ValueOf(ParseObject(data, old(pos)))
      ensures r.Ok? ==> pos == ParseObject(data, old(pos)).value.next
      decreases |data| - pos, 1
    {
      var s := Read(1);
      if |s| == 0 {
        return Ok(Null);
      }
      var h := s[0];
      if h == DictStart {
        r := ReadDict();
        return;
      }
      r := ReadAtom(h);
    }

    /** The rest of `read_object` once the header byte `h`, which does not
        start a dictionary, has been read. */
    method ReadAtom(h: byte) returns (r: Result<Value>)
      requires Valid() && 0 < pos && data[pos - 1] == h && h != DictStart
      modifies this
      ensures Valid()
      ensures r == ValueOf(ParseAtom(data, old(pos) - 1))
      ensures r.Ok? ==> pos == ParseAtom(data, old(pos) - 1).value.next
    {
      if h == DictEnd {
        return Ok(Null);
      }
      if h == StrTag {
        var len := Read(2);
        var body := Read(FromBigEndian(len));
        return Ok(Str(body));
      }
      if h == BytesTag {
        var len := Read(2);
        var body := Read(FromBigEndian(len));
        return Ok(Blob(body));
      }
      if h == IntTag {
        var len := Read(1);
        if |len| == 0 {
          return Err(MissingIntLength);
        }
        var body := Read(len[0]);
        return Ok(Int(FromBigEndian(body)));
      }
      return Err(UnknownType(h));
    }

    /** `read_dict`, called after the start byte has been read. */
    method ReadDict() returns (r: Result<Value>)
      requires Valid()
      modifies this
      ensures Valid()
      ensures r == ValueOf(ParseDict(data, old(pos), []))
      ensures r.Ok? ==> pos == ParseDict(data, old(pos), []).value.next
      decreases |data| - pos, 2
    {
      var entries: seq<Entry> := [];
      while true
        invariant Valid() && old(pos) <= pos
        invariant ParseDict(data, pos, entries) == ParseDict(data, old(pos), [])
        decreases |data| - pos
      {
        var key := ReadObject();
        if key.Err? {
          return Err(key.error);
        }
        if key.value == Null {
          return Ok(Dict(entries));
        }
        if key.value.Dict? {
          return Err(DictKey);
        }
        var value := ReadObject();
        if value.Err? {
          return Err(value.error);
        }
        entries := Put(entries, key.value, value.value);
      }
    }
  }
}
