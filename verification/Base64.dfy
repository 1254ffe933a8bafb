/** base64url (section 5 of RFC 4648), padded or raw, as Go's encoding/base64 decodes it:
    line breaks are skipped and unused trailing bits are ignored. */
module Base64Url {
  import opened Base

  const PAD: byte := 61

  function Digit(i: nat): byte
    requires i < 64
  {
    if i < 26 then 65 + i
    else if i < 52 then 97 + (i - 26)
    else if i < 62 then 48 + (i - 52)
    else if i == 62 then 45 else 95
  }

  /** The value of a digit, or 64 for any other byte. */
  function Value(b: byte): nat {
    if 65 <= b <= 90 then b - 65
    else if 97 <= b <= 122 then b - 97 + 26
    else if 48 <= b <= 57 then b - 48 + 52
    else if b == 45 then 62 else if b == 95 then 63 else 64
  }

  predicate IsDigit(b: byte) {
    Value(b) < 64
  }

  function Encode(raw: bool, s: Bytes): Bytes {
    if |s| == 0 then []
    else if |s| == 1 then
      [Digit(s[0] / 4), Digit(s[0] % 4 * 16)] + if raw then [] else [PAD, PAD]
    else if |s| == 2 then
      [Digit(s[0] / 4), Digit(s[0] % 4 * 16 + s[1] / 16), Digit(s[1] % 16 * 4)] + if raw then [] else [PAD]
    else
      [Digit(s[0] / 4), Digit(s[0] % 4 * 16 + s[1] / 16), Digit(s[1] % 16 * 4 + s[2] / 64), Digit(s[2] % 64)]
      + Encode(raw, s[3..])
  }

  predicate IsNewline(b: byte) {
    b == 10 || b == 13
  }

  function SkipNewlines(s: Bytes): Bytes {
    if s == [] then [] else (if IsNewline(s[0]) then [] else [s[0]]) + SkipNewlines(s[1..])
  }

  function Join2(a: byte, b: byte): Bytes
    requires IsDigit(a) && IsDigit(b)
  {
    [Value(a) * 4 + Value(b) / 16]
  }

  function Join3(a: byte, b: byte, c: byte): Bytes
    requires IsDigit(a) && IsDigit(b) && IsDigit(c)
  {
    Join2(a, b) + [Value(b) % 16 * 16 + Value(c) / 4]
  }

  function Join4(a: byte, b: byte, c: byte, d: byte): Bytes
    requires IsDigit(a) && IsDigit(b) && IsDigit(c) && IsDigit(d)
  {
    Join3(a, b, c) + [Value(c) % 4 * 64 + Value(d)]
  }

  function DecodeQuanta(raw: bool, s: Bytes): Result<Bytes> {
    if |s| == 0 then Ok([])
    else if |s| < 2 || !IsDigit(s[0]) || !IsDigit(s[1]) then Err(Error(0))
    else if |s| == 2 then if raw then Ok(Join2(s[0], s[1])) else Err(Error(0))
    else if |s| == 3 then
      if raw && IsDigit(s[2]) then Ok(Join3(s[0], s[1], s[2])) else Err(Error(0))
    else if IsDigit(s[2]) && IsDigit(s[3]) then
      var rest := DecodeQuanta(raw, s[4..]);
      if rest.Ok? then Ok(Join4(s[0], s[1], s[2], s[3]) + rest.value) else rest
    else if raw || |s| > 4 || s[3] != PAD then Err(Error(0))
    else if s[2] == PAD then Ok(Join2(s[0], s[1]))
    else if IsDigit(s[2]) then Ok(Join3(s[0], s[1], s[2]))
    else Err(Error(0))
  }

  function Decode(raw: bool, s: Bytes): Result<Bytes> {
    DecodeQuanta(raw, SkipNewlines(s))
  }

  lemma DigitValue(i: nat)
    requires i < 64
    ensures Value(Digit(i)) == i
  {
  }

  /** Encodings consist of digits and padding only, and have the usual length. */
  lemma {:induction false} EncodeShape(raw: bool, s: Bytes)
    ensures forall i :: 0 <= i < |Encode(raw, s)| ==> IsDigit(Encode(raw, s)[i]) || Encode(raw, s)[i] == PAD
    ensures |Encode(raw, s)| == if raw then (4 * |s| + 2) / 3 else 4 * ((|s| + 2) / 3)
  {
    if |s| >= 3 { EncodeShape(raw, s[3..]); }
  }

  lemma {:induction false} NoNewlines(s: Bytes)
    requires forall i :: 0 <= i < |s| ==> !IsNewline(s[i])
    ensures SkipNewlines(s) == s
  {
    if s != [] { NoNewlines(s[1..]); }
  }

  lemma Nibbles(v: nat, u: nat)
    requires u < 16
    ensures (v * 16 + u) / 16 == v && (v * 16 + u) % 16 == u
  {
  }

  lemma Pairs(v: nat, u: nat)
    requires u < 4
    ensures (v * 4 + u) / 4 == v && (v * 4 + u) % 4 == u
  {
  }

  /** The digits of a full quantum, or of a last one of two bytes or one, decode to the bytes
      they came from. */
  lemma QuantumOfThree(x: byte, y: byte, z: byte)
    ensures Join4(Digit(x / 4), Digit(x % 4 * 16 + y / 16), Digit(y % 16 * 4 + z / 64), Digit(z % 64)) == [x, y, z]
  {
    DigitValue(x / 4);
    DigitValue(x % 4 * 16 + y / 16);
    DigitValue(y % 16 * 4 + z / 64);
    DigitValue(z % 64);
    Nibbles(x % 4, y / 16);
    Pairs(y % 16, z / 64);
  }

  lemma QuantumOfTwo(x: byte, y: byte)
    ensures Join3(Digit(x / 4), Digit(x % 4 * 16 + y / 16), Digit(y % 16 * 4)) == [x, y]
  {
    DigitValue(x / 4);
    DigitValue(x % 4 * 16 + y / 16);
    DigitValue(y % 16 * 4);
    Nibbles(x % 4, y / 16);
    Pairs(y % 16, 0);
  }

  lemma QuantumOfOne(x: byte)
    ensures Join2(Digit(x / 4), Digit(x % 4 * 16)) == [x]
  {
    DigitValue(x / 4);
    DigitValue(x % 4 * 16);
    Nibbles(x % 4, 0);
  }

  lemma {:induction false} DecodeQuantaEncode(raw: bool, s: Bytes)
    ensures DecodeQuanta(raw, Encode(raw, s)) == Ok(s)
  {
    if |s| == 1 {
      assert s == [s[0]];
      FinalOne(raw, s[0]);
    } else if |s| == 2 {
      assert s == [s[0], s[1]];
      FinalTwo(raw, s[0], s[1]);
    } else if |s| >= 3 {
      DecodeQuantaEncode(raw, s[3..]);
      FullQuantum(raw, s[0], s[1], s[2], s[3..]);
      assert s == [s[0], s[1], s[2]] + s[3..];
    }
  }

  lemma FinalOne(raw: bool, x: byte)
    ensures DecodeQuanta(raw, Encode(raw, [x])) == Ok([x])
  {
    QuantumOfOne(x);
    DigitValue(x / 4);
    DigitValue(x % 4 * 16);
  }

  lemma FinalTwo(raw: bool, x: byte, y: byte)
    ensures DecodeQuanta(raw, Encode(raw, [x, y])) == Ok([x, y])
  {
    QuantumOfTwo(x, y);
    DigitValue(x / 4);
    DigitValue(x % 4 * 16 + y / 16);
    DigitValue(y % 16 * 4);
  }

  lemma FullQuantum(raw: bool, x: byte, y: byte, z: byte, rest: Bytes)
    requires DecodeQuanta(raw, Encode(raw, rest)) == Ok(rest)
    ensures DecodeQuanta(raw, Encode(raw, [x, y, z] + rest)) == Ok([x, y, z] + rest)
  {
    var a, b, c, d := Digit(x / 4), Digit(x % 4 * 16 + y / 16), Digit(y % 16 * 4 + z / 64), Digit(z % 64);
    DigitValue(x / 4);
    DigitValue(x % 4 * 16 + y / 16);
    DigitValue(y % 16 * 4 + z / 64);
    DigitValue(z % 64);
    assert Join4(a, b, c, d) == [x, y, z] by { QuantumOfThree(x, y, z); }
    EncodeThree(raw, x, y, z, rest);
    DecodeFour(raw, a, b, c, d, Encode(raw, rest));
  }

  lemma EncodeThree(raw: bool, x: byte, y: byte, z: byte, rest: Bytes)
    ensures Encode(raw, [x, y, z] + rest) ==
      [Digit(x / 4), Digit(x % 4 * 16 + y / 16), Digit(y % 16 * 4 + z / 64), Digit(z % 64)] + Encode(raw, rest)
  {
    assert ([x, y, z] + rest)[3..] == rest;
  }

  lemma DecodeFour(raw: bool, a: byte, b: byte, c: byte, d: byte, rest: Bytes)
    requires IsDigit(a) && IsDigit(b) && IsDigit(c) && IsDigit(d) && DecodeQuanta(raw, rest).Ok?
    ensures DecodeQuanta(raw, [a, b, c, d] + rest) == Ok(Join4(a, b, c, d) + DecodeQuanta(raw, rest).value)
  {
    assert ([a, b, c, d] + rest)[4..] == rest;
  }

  lemma DecodeEncode(raw: bool, s: Bytes)
    ensures Decode(raw, Encode(raw, s)) == Ok(s)
  {
    EncodeShape(raw, s);
    NoNewlines(Encode(raw, s));
    DecodeQuantaEncode(raw, s);
  }

  /** A name with a byte that is no digit, no padding and no line break does not decode. */
  lemma {:induction false} BadByteFails(raw: bool, s: Bytes, i: nat)
    requires i < |s| && !IsDigit(s[i]) && s[i] != PAD
    ensures DecodeQuanta(raw, s).Err?
  {
    if i >= 4 { BadByteFails(raw, s[4..], i - 4); }
  }

  lemma {:induction false} SkipKeeps(s: Bytes, i: nat) returns (j: nat)
    requires i < |s| && !IsNewline(s[i])
    ensures j < |SkipNewlines(s)| && SkipNewlines(s)[j] == s[i]
  {
    if i == 0 {
      j := 0;
    } else {
      j := SkipKeeps(s[1..], i - 1);
      j := j + if IsNewline(s[0]) then 0 else 1;
    }
  }

  lemma BadNameFails(raw: bool, s: Bytes, i: nat)
    requires i < |s| && !IsDigit(s[i]) && s[i] != PAD && !IsNewline(s[i])
    ensures Decode(raw, s).Err?
  {
    var j := SkipKeeps(s, i);
    BadByteFails(raw, SkipNewlines(s), j);
  }
}
