/** Hexadecimal text as the script meets it: the check that decides whether a
    decrypted session key is hex text, `bytes.fromhex`, and the lower-case
    `hexdigest()` form of a digest. Characters are their ASCII codes. */
module Hex {
  import opened Common

  /** The alphabet the session-key check compares against, in its own order. */
  const HexAlphabet: Bytes := [
    0x30, 0x31, 0x32, 0x33, 0x34, 0x35, 0x36, 0x37, 0x38, 0x39,  // 0-9
    0x61, 0x62, 0x63, 0x64, 0x65, 0x66,                          // a-f
    0x41, 0x42, 0x43, 0x44, 0x45, 0x46]                          // A-F

  predicate IsHexDigit(b: byte)
  {
    0x30 <= b <= 0x39 || 0x61 <= b <= 0x66 || 0x41 <= b <= 0x46
  }

  /** Every byte is a hex digit (true of the empty sequence, as `all` is). */
  predicate AllHex(s: Bytes)
  {
    forall i :: 0 <= i < |s| ==> IsHexDigit(s[i])
  }

  /** The value of one hex digit, either case. */
  function Nibble(b: byte): (n: nat)
    requires IsHexDigit(b)
    ensures n < 16
  {
    if b <= 0x39 then b - 0x30 else if b >= 0x61 then b - 0x61 + 10 else b - 0x41 + 10
  }

  /** The lower-case digit for a value below 16. */
  function Digit(n: nat): (b: byte)
    requires n < 16
    ensures IsHexDigit(b) && Nibble(b) == n && !(0x41 <= b <= 0x46)
  {
    if n < 10 then 0x30 + n else 0x61 + n - 10
  }

  /** Pairs of digits, high nibble first. */
  function Pairs(s: Bytes): (r: Bytes)
    requires AllHex(s) && |s| % 2 == 0
    ensures |r| == |s| / 2
  {
    if s == [] then []
    else [Nibble(s[0]) * 16 + Nibble(s[1])] + Pairs(s[2..])
  }

  /** `bytes.fromhex` on hex-digit text: an odd number of digits is an error. */
  function FromHex(s: Bytes): (r: Result<Bytes>)
    requires AllHex(s)
  {
    if |s| % 2 == 1 then Err(OddHexLength) else Ok(Pairs(s))
  }

  /** `hexdigest()`-style text: two lower-case digits per byte. */
  function ToHex(bs: Bytes): (s: Bytes)
    ensures |s| == 2 * |bs|
  {
    if bs == [] then [] else [Digit(bs[0] / 16), Digit(bs[0] % 16)] + ToHex(bs[1..])
  }

  /** `_decrypt_session_key`'s last step: a key made only of hex digits is
      hex text and is decoded; any other key is already raw bytes. */
  function SessionKeyRule(key: Bytes): (r: Result<Bytes>)
    ensures !AllHex(key) ==> r == Ok(key)
    ensures AllHex(key) && r.Ok? ==> ToHex(r.value) == Lower(key)
    ensures r.Err? ==> r.error == OddHexLength
  {
    if AllHex(key) then
      if FromHex(key).Ok? then ToHexFromHex(key); FromHex(key) else FromHex(key)
    else Ok(key)
  }

  // ---------------------------------------------------------------------
  // Properties
  // ---------------------------------------------------------------------

  /** The range check agrees with membership in the alphabet. */
  lemma {:induction false} IsHexDigitMeansInAlphabet(b: byte)
    ensures IsHexDigit(b) <==> b in HexAlphabet
  {
    if IsHexDigit(b) {
      var i := if b <= 0x39 then b - 0x30 else if b >= 0x61 then b - 0x61 + 10 else b - 0x41 + 16;
      assert HexAlphabet[i] == b;
    }
  }

  /** `ToHex` produces hex digits only, all lower case. */
  lemma {:induction false} ToHexIsHex(bs: Bytes)
    ensures AllHex(ToHex(bs))
    ensures forall i :: 0 <= i < |ToHex(bs)| ==> !(0x41 <= ToHex(bs)[i] <= 0x46)
  {
    if bs != [] {
      ToHexIsHex(bs[1..]);
      var s := ToHex(bs);
      assert s[2..] == ToHex(bs[1..]);
    }
  }

  /** Decoding the hex text of some bytes gives those bytes back. */
  lemma {:induction false} FromHexToHex(bs: Bytes)
    ensures AllHex(ToHex(bs)) && FromHex(ToHex(bs)) == Ok(bs)
  {
    ToHexIsHex(bs);
    PairsToHex(bs);
  }

  lemma {:induction false} PairsToHex(bs: Bytes)
    ensures AllHex(ToHex(bs)) && Pairs(ToHex(bs)) == bs
  {
    ToHexIsHex(bs);
    if bs != [] {
      var s := ToHex(bs);
      assert s[2..] == ToHex(bs[1..]);
      PairsToHex(bs[1..]);
      assert Nibble(s[0]) * 16 + Nibble(s[1]) == bs[0];
      assert bs == [bs[0]] + bs[1..];
    }
  }

  /** A hex digit in lower case. */
  function LowerDigit(b: byte): (r: byte)
  {
    if 0x41 <= b <= 0x46 then b + 0x20 else b
  }

  /** Hex text with its upper-case letters made lower case. */
  function Lower(s: Bytes): (r: Bytes)
    ensures |r| == |s|
  {
    if s == [] then [] else [LowerDigit(s[0])] + Lower(s[1..])
  }

  lemma {:induction false} DigitOfNibble(b: byte)
    requires IsHexDigit(b)
    ensures Digit(Nibble(b)) == LowerDigit(b)
  {
  }

  /** The other direction: successfully decoded hex text is the hex text of
      its result, up to the case of the letters. */
  lemma {:induction false} ToHexFromHex(s: Bytes)
    requires AllHex(s) && FromHex(s).Ok?
    ensures ToHex(FromHex(s).value) == Lower(s)
    decreases |s|
  {
    if s != [] {
      var rest := s[2..];
      AllHexDrop(s);
      ToHexFromHex(rest);
      var x := Nibble(s[0]) * 16 + Nibble(s[1]);
      assert FromHex(s).value == [x] + Pairs(rest);
      SplitByte(Nibble(s[0]), Nibble(s[1]));
      DigitOfNibble(s[0]);
      DigitOfNibble(s[1]);
      ToHexCons(x, Pairs(rest));
      LowerCons2(s);
    }
  }

  lemma {:induction false} SplitByte(high: nat, low: nat)
    requires high < 16 && low < 16
    ensures (high * 16 + low) / 16 == high && (high * 16 + low) % 16 == low
  {
  }

  lemma {:induction false} AllHexDrop(s: Bytes)
    requires AllHex(s) && |s| >= 2
    ensures AllHex(s[2..])
  {
    forall i | 0 <= i < |s| - 2 ensures IsHexDigit(s[2..][i]) {
      assert s[2..][i] == s[i + 2];
    }
  }

  lemma {:induction false} ToHexCons(x: byte, rest: Bytes)
    ensures ToHex([x] + rest) == [Digit(x / 16), Digit(x % 16)] + ToHex(rest)
  {
    assert ([x] + rest)[1..] == rest;
  }

  lemma {:induction false} LowerCons2(s: Bytes)
    requires |s| >= 2
    ensures Lower(s) == [LowerDigit(s[0]), LowerDigit(s[1])] + Lower(s[2..])
  {
    assert s[1..][1..] == s[2..];
  }

  /** The session-key rule: a key that is not all hex digits is kept as is; a
      hex key of odd length is an error; a hex key of even length decodes to
      half as many bytes; and the hex text of a key decodes to that key. */
  lemma {:induction false} SessionKeyRuleCases(key: Bytes, raw: Bytes)
    ensures !AllHex(key) ==> SessionKeyRule(key) == Ok(key)
    ensures AllHex(key) && |key| % 2 == 1 <==> SessionKeyRule(key) == Err(OddHexLength)
    ensures AllHex(key) && |key| % 2 == 0 ==> SessionKeyRule(key).Ok? && |SessionKeyRule(key).value| == |key| / 2
    ensures SessionKeyRule(ToHex(raw)) == Ok(raw)
  {
    FromHexToHex(raw);
  }
}
