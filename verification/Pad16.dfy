/** PKCS#7 padding of gocrypt/nametransform/pad16.go (section 6.3 of RFC 5652). */
module Padding {
  import opened Base

  const BLOCK_SIZE := 16

  /** The bytes `b`, `n` times. */
  function Repeat(b: byte, n: nat): (r: Bytes)
    ensures |r| == n && forall i :: 0 <= i < n ==> r[i] == b
  {
    seq(n, _ => b)
  }

  /** The reference: append 1 to 16 bytes that all hold their own number. */
  function Padded(orig: Bytes): Bytes {
    var padLen := BLOCK_SIZE - |orig| % BLOCK_SIZE;
    orig + Repeat(padLen, padLen)
  }

  /** `unPad16`, check by check. */
  function Unpadded(padded: Bytes): Result<Bytes> {
    var oldLen := |padded|;
    if oldLen == 0 then Err(Error(0))
    else if oldLen % BLOCK_SIZE != 0 then Err(Error(1))
    else
      var padLen := padded[oldLen - 1];
      if padLen == 0 then Err(Error(2))
      else if padLen > BLOCK_SIZE then Err(Error(3))
      else if padLen >= oldLen then Err(Error(4))
      else if exists i :: oldLen - padLen <= i < oldLen && padded[i] != padLen then Err(Error(5))
      else Ok(padded[..oldLen - padLen])
  }

  /** `pad16`. The source panics on an empty input. */
  method Pad16(orig: Bytes) returns (padded: array<byte>)
    requires |orig| > 0
    ensures padded[..] == Padded(orig)
  {
    var oldLen := |orig|;
    var padLen := BLOCK_SIZE - oldLen % BLOCK_SIZE;
    var newLen := oldLen + padLen;
    padded := new byte[newLen](i => 0);
    for i := 0 to oldLen
      invariant padded[..i] == orig[..i]
    {
      padded[i] := orig[i];
    }
    for i := oldLen to newLen
      invariant padded[..oldLen] == orig
      invariant forall j :: oldLen <= j < i ==> padded[j] == padLen
    {
      padded[i] := padLen;
    }
    assert padded[..] == padded[..oldLen] + padded[oldLen..];
  }

  method UnPad16(padded: Bytes) returns (r: Result<Bytes>)
    ensures r == Unpadded(padded)
    ensures r.Ok? <==> exists orig :: orig != [] && Padded(orig) == padded
    ensures r.Ok? ==> r.value != [] && Padded(r.value) == padded
  {
    UnpadsExactlyPadded(padded);
    var oldLen := |padded|;
    if oldLen == 0 {
      return Err(Error(0));
    }
    if oldLen % BLOCK_SIZE != 0 {
      return Err(Error(1));
    }
    var padByte := padded[oldLen - 1];
    var padLen := padByte;
    if padLen == 0 {
      return Err(Error(2));
    }
    if padLen > BLOCK_SIZE {
      return Err(Error(3));
    }
    if padLen >= oldLen {
      return Err(Error(4));
    }
    for i := oldLen - padLen to oldLen
      invariant forall j :: oldLen - padLen <= j < i ==> padded[j] == padByte
    {
      if padded[i] != padByte {
        return Err(Error(5));
      }
    }
    return Ok(padded[..oldLen - padLen]);
  }

  /** Section 6.3 of RFC 5652, for blocks of 16 bytes: whole blocks, at least one byte added, and
      each added byte holds how many there are. */
  ghost predicate IsPkcs7(orig: Bytes, p: Bytes) {
    && orig <= p && |p| % 16 == 0 && 1 <= |p| - |orig| <= 16
    && forall i :: |orig| <= i < |p| ==> p[i] as int == |p| - |orig|
  }

  /** The padding is the only one that the standard allows. */
  lemma PaddedIsPkcs7(orig: Bytes, p: Bytes)
    ensures p == Padded(orig) <==> IsPkcs7(orig, p)
  {
    if IsPkcs7(orig, p) {
      var padLen := BLOCK_SIZE - |orig| % BLOCK_SIZE;
      assert |p| - |orig| == padLen;
      assert p == p[..|orig|] + p[|orig|..];
      assert p[|orig|..] == Repeat(padLen, padLen);
    }
  }

  lemma UnpadPad(orig: Bytes)
    requires orig != []
    ensures Unpadded(Padded(orig)) == Ok(orig)
    ensures |Padded(orig)| == BLOCK_SIZE * (|orig| / BLOCK_SIZE + 1)
  {
    var p := Padded(orig);
    var padLen := BLOCK_SIZE - |orig| % BLOCK_SIZE;
    assert |p| == BLOCK_SIZE * (|orig| / BLOCK_SIZE + 1);
    assert p[|p| - 1] == padLen;
    assert p[..|orig|] == orig;
  }

  lemma PadUnpad(padded: Bytes)
    requires Unpadded(padded).Ok?
    ensures Unpadded(padded).value != [] && Padded(Unpadded(padded).value) == padded
  {
    var n, padLen := |padded|, padded[|padded| - 1];
    var orig := Unpadded(padded).value;
    assert padLen as int == BLOCK_SIZE - |orig| % BLOCK_SIZE;
    assert padded == orig + padded[n - padLen..];
  }

  /** `unPad16` succeeds exactly on the images of `pad16`, and then inverts it. */
  lemma UnpadsExactlyPadded(padded: Bytes)
    ensures Unpadded(padded).Ok? <==> exists orig :: orig != [] && Padded(orig) == padded
    ensures forall orig :: orig != [] && Padded(orig) == padded ==> Unpadded(padded) == Ok(orig)
    ensures Unpadded(padded).Ok? ==> Unpadded(padded).value != [] && Padded(Unpadded(padded).value) == padded
  {
    if Unpadded(padded).Ok? { PadUnpad(padded); }
    forall orig | orig != [] && Padded(orig) == padded ensures Unpadded(padded) == Ok(orig) {
      UnpadPad(orig);
    }
  }
}
