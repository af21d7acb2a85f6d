/** PKCS#7 padding for 16-byte AES blocks (section 6.3 of RFC 5652):
    `StripPkcs7Padding` is the script's validator, `Unpad` its specification,
    and `Pad` the padding it undoes. */
module Pkcs7 {
  import opened Common

  const BlockSize: nat := 16

  /** `n` copies of `b`. */
  function Fill(b: byte, n: nat): (r: Bytes)
    ensures |r| == n && forall i :: 0 <= i < n ==> r[i] == b
  {
    seq(n, _ => b)
  }

  /** The last `n` bytes of `data` all equal `b`. */
  predicate EndsWith(data: Bytes, b: byte, n: nat)
    requires n <= |data|
  {
    forall k :: |data| - n <= k < |data| ==> data[k] == b
  }

  /** `strip_pkcs7_padding`, as a function of its input. */
  function Unpad(data: Bytes): (r: Result<Bytes>)
    ensures r.Ok? ==> |data| % BlockSize == 0 && 1 <= |data| - |r.value| <= BlockSize
                      && r.value == data[..|r.value|]
    ensures r.Err? ==> r.error in {EmptyData, Unaligned, BadPadding} || r.error.BadPadLength?
  {
    if |data| == 0 then Err(EmptyData)
    else if |data| % BlockSize != 0 then Err(Unaligned)
    else
      var padLen := data[|data| - 1];
      if padLen == 0 || padLen > BlockSize then Err(BadPadLength(padLen))
      else if !EndsWith(data, padLen, padLen) then Err(BadPadding)
      else Ok(data[..|data| - padLen])
  }

  /** The padding a PKCS#7 encoder adds: 1 to 16 copies of the pad length,
      so that the result fills whole blocks. */
  function Pad(data: Bytes): (r: Bytes)
  {
    var padLen := BlockSize - |data| % BlockSize;
    data + Fill(padLen, padLen)
  }

  /** The script's loop: checks the length, the pad length, then each padding
      byte from the last one backwards. */
  method StripPkcs7Padding(data: Bytes) returns (r: Result<Bytes>)
    ensures r == Unpad(data)
  {
    if |data| == 0 {
      return Err(EmptyData);
    }
    if |data| % BlockSize != 0 {
      return Err(Unaligned);
    }
    var padLen := data[|data| - 1];
    if padLen == 0 || padLen > BlockSize {
      return Err(BadPadLength(padLen));
    }
    for i := 1 to padLen + 1
      invariant forall k :: |data| - (i - 1) <= k < |data| ==> data[k] == padLen
    {
      if data[|data| - i] != padLen {
        return Err(BadPadding);
      }
    }
    return Ok(data[..|data| - padLen]);
  }

  // ---------------------------------------------------------------------
  // Properties
  // ---------------------------------------------------------------------

  /** The four checks, each with the error it raises. */
  lemma {:induction false} UnpadRejects(data: Bytes)
    ensures Unpad(data) == Err(EmptyData) <==> |data| == 0
    ensures Unpad(data) == Err(Unaligned) <==> |data| > 0 && |data| % 16 != 0
    ensures (Unpad(data).Err? && Unpad(data).error.BadPadLength?)
            <==> |data| > 0 && |data| % 16 == 0 && (data[|data| - 1] == 0 || data[|data| - 1] > 16)
    ensures Unpad(data).Err? && Unpad(data).error.BadPadLength?
            ==> Unpad(data).error.padLen == data[|data| - 1]
    ensures Unpad(data) == Err(BadPadding)
            <==> |data| > 0 && |data| % 16 == 0 && 1 <= data[|data| - 1] <= 16
                 && exists k :: |data| - data[|data| - 1] <= k < |data| && data[k] != data[|data| - 1]
  {
  }

  /** Success: the input is the result followed by `padLen` copies of
      `padLen`, where `padLen` is the last byte, between 1 and 16, so the
      result is 1 to 16 bytes shorter than the input. */
  lemma {:induction false} UnpadOk(data: Bytes, r: Bytes)
    requires Unpad(data) == Ok(r)
    ensures var padLen := data[|data| - 1];
            1 <= padLen <= 16 && data == r + Fill(padLen, padLen)
    ensures |data| - 16 <= |r| <= |data| - 1
  {
    var padLen := data[|data| - 1];
    assert data == data[..|data| - padLen] + data[|data| - padLen..];
    assert data[|data| - padLen..] == Fill(padLen, padLen);
  }

  /** Conversely, an aligned input ending in `padLen` copies of a valid pad
      length `padLen` is accepted. */
  lemma {:induction false} UnpadAccepts(r: Bytes, padLen: byte)
    requires 1 <= padLen <= 16 && (|r| + padLen) % 16 == 0
    ensures Unpad(r + Fill(padLen, padLen)) == Ok(r)
  {
    var data := r + Fill(padLen, padLen);
    assert data[|data| - 1] == padLen;
    assert EndsWith(data, padLen, padLen) by {
      forall k | |data| - padLen <= k < |data|
        ensures data[k] == padLen
      {
        assert data[k] == Fill(padLen, padLen)[k - |r|];
      }
    }
    assert data[..|data| - padLen] == r;
  }

  /** Padding then stripping gives the data back. */
  lemma {:induction false} UnpadPad(data: Bytes)
    ensures Unpad(Pad(data)) == Ok(data)
  {
    UnpadAccepts(data, BlockSize - |data| % BlockSize);
  }

  /** Stripping succeeds exactly on padded data: `Unpad` is the inverse of
      `Pad`. */
  lemma {:induction false} UnpadIsInverse(data: Bytes, r: Bytes)
    ensures Unpad(data) == Ok(r) <==> data == Pad(r)
  {
    if Unpad(data) == Ok(r) {
      UnpadOk(data, r);
      var padLen := data[|data| - 1];
      assert |r| % 16 == (16 - padLen) % 16;
    }
    if data == Pad(r) {
      UnpadPad(r);
    }
  }
}
