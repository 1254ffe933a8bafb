/** File name encryption of gocrypt/nametransform: padding, EME, base64url, and the switch
    to hashed long names. EME and SHA-256 are parameters. */
module NameCodec {
  import opened Base
  import opened Padding
  import opened Base64Url

  const NAME_MAX := 255
  const IV_LEN := 16
  const SLASH: byte := 47
  const DOT: byte := 46

  /** A wide-block cipher: `enc(iv, block)` and `dec(iv, block)`. */
  datatype Eme = Eme(enc: (Bytes, Bytes) -> Bytes, dec: (Bytes, Bytes) -> Bytes)

  /** What is assumed of EME: for every IV, mutually inverse length-preserving maps on
      non-empty multiples of the block size. */
  ghost predicate Lawful(e: Eme) {
    forall iv: Bytes, x: Bytes :: |iv| == IV_LEN && |x| > 0 && |x| % BLOCK_SIZE == 0 ==>
      && |e.enc(iv, x)| == |x| && e.dec(iv, e.enc(iv, x)) == x
      && |e.dec(iv, x)| == |x| && e.enc(iv, e.dec(iv, x)) == x
  }

  datatype NameTransform = NameTransform(eme: Eme, longNames: bool, raw64: bool, sha256: Bytes -> Bytes)

  predicate ValidName(name: Bytes) {
    name != [] && 0 !in name && SLASH !in name && name != [DOT] && name != [DOT, DOT]
  }

  /** `EncryptName`. The source panics on an empty name. */
  function EncryptName(n: NameTransform, plainName: Bytes, iv: Bytes): Bytes
    requires plainName != []
  {
    Encode(n.raw64, n.eme.enc(iv, Padded(plainName)))
  }

  function DecryptName(n: NameTransform, cipherName: Bytes, iv: Bytes): Result<Bytes> {
    var decoded := Decode(n.raw64, cipherName);
    if decoded.Err? then decoded
    else if |decoded.value| == 0 then Err(Error(1))
    else if |decoded.value| % BLOCK_SIZE != 0 then Err(Error(1))
    else
      var plain := Unpadded(n.eme.dec(iv, decoded.value));
      if plain.Err? then Err(Error(1))
      else if 0 in plain.value || SLASH in plain.value then Err(Error(1))
      else if plain.value == [DOT] || plain.value == [DOT, DOT] then Err(Error(1))
      else plain
  }

  /** Decrypting an encrypted name gives the name back exactly when it is a valid one. */
  lemma DecryptEncrypt(n: NameTransform, plainName: Bytes, iv: Bytes)
    requires Lawful(n.eme) && |iv| == IV_LEN && plainName != []
    ensures DecryptName(n, EncryptName(n, plainName, iv), iv) ==
      if ValidName(plainName) then Ok(plainName) else Err(Error(1))
  {
    var p := Padded(plainName);
    UnpadPad(plainName);
    DecodeEncode(n.raw64, n.eme.enc(iv, p));
    assert n.eme.dec(iv, n.eme.enc(iv, p)) == p;
  }

  /** Whatever decrypts is a valid name, and encrypting it gives the canonical spelling of
      the ciphertext name. */
  lemma EncryptDecrypt(n: NameTransform, cipherName: Bytes, iv: Bytes)
    requires Lawful(n.eme) && |iv| == IV_LEN && DecryptName(n, cipherName, iv).Ok?
    ensures var name := DecryptName(n, cipherName, iv).value;
      && ValidName(name)
      && Decode(n.raw64, cipherName).Ok?
      && EncryptName(n, name, iv) == Encode(n.raw64, Decode(n.raw64, cipherName).value)
  {
    var b := Decode(n.raw64, cipherName).value;
    UnpadsExactlyPadded(n.eme.dec(iv, b));
    assert n.eme.enc(iv, n.eme.dec(iv, b)) == b;
  }

  /** Names with a dot are not ciphertext names: service files and hashed long names. */
  lemma DottedFails(n: NameTransform, cipherName: Bytes, iv: Bytes)
    requires DOT in cipherName
    ensures DecryptName(n, cipherName, iv).Err?
  {
    var i :| 0 <= i < |cipherName| && cipherName[i] == DOT;
    BadNameFails(n.raw64, cipherName, i);
  }

  lemma EncryptInjective(n: NameTransform, a: Bytes, b: Bytes, iv: Bytes)
    requires Lawful(n.eme) && |iv| == IV_LEN && ValidName(a) && ValidName(b)
    requires EncryptName(n, a, iv) == EncryptName(n, b, iv)
    ensures a == b
  {
    DecryptEncrypt(n, a, iv);
    DecryptEncrypt(n, b, iv);
  }

  // ----------------------------------------------------------------- long names

  const LONG_NAME_PREFIX: Bytes := Ascii("gocryptfs.longname.")
  const LONG_NAME_SUFFIX: Bytes := Ascii(".name")

  datatype NameKind = LongNameContent | LongNameFilename | LongNameNone

  predicate HasSuffix(s: Bytes, suffix: Bytes) {
    |s| >= |suffix| && s[|s| - |suffix|..] == suffix
  }

  function NameType(cName: Bytes): NameKind {
    if !(LONG_NAME_PREFIX <= cName) then LongNameNone
    else if HasSuffix(cName, LONG_NAME_SUFFIX) then LongNameFilename
    else LongNameContent
  }

  function HashLongName(n: NameTransform, name: Bytes): Bytes {
    LONG_NAME_PREFIX + Encode(n.raw64, n.sha256(name))
  }

  function RemoveLongNameSuffix(cName: Bytes): Bytes
    requires |cName| >= |LONG_NAME_SUFFIX|
  {
    cName[..|cName| - |LONG_NAME_SUFFIX|]
  }

  function EncryptAndHashName(n: NameTransform, name: Bytes, iv: Bytes): Result<Bytes>
    requires name != []
  {
    if |name| > NAME_MAX then Err(Error(2))
    else
      var cName := EncryptName(n, name, iv);
      if n.longNames && |cName| > NAME_MAX then Ok(HashLongName(n, cName)) else Ok(cName)
  }

  lemma EncryptedLength(n: NameTransform, name: Bytes, iv: Bytes)
    requires Lawful(n.eme) && |iv| == IV_LEN && name != []
    ensures var blocks := BLOCK_SIZE * (|name| / BLOCK_SIZE + 1);
      |EncryptName(n, name, iv)| == if n.raw64 then (4 * blocks + 2) / 3 else 4 * ((blocks + 2) / 3)
  {
    UnpadPad(name);
    EncodeShape(n.raw64, n.eme.enc(iv, Padded(name)));
  }

  /** The encrypted name exceeds 255 bytes exactly when the plain one has at least 176. */
  lemma LengthThreshold(n: NameTransform, name: Bytes, iv: Bytes)
    requires Lawful(n.eme) && |iv| == IV_LEN && name != []
    ensures |EncryptName(n, name, iv)| > NAME_MAX <==> |name| >= 176
  {
    EncryptedLength(n, name, iv);
    var units := |name| / BLOCK_SIZE;
    assert units >= 11 <==> |name| >= 176;
  }

  /** Ciphertext names have no dots, so they are never mistaken for long-name files. */
  lemma EncryptedIsShort(n: NameTransform, name: Bytes, iv: Bytes)
    requires name != []
    ensures DOT !in EncryptName(n, name, iv) && SLASH !in EncryptName(n, name, iv)
    ensures NameType(EncryptName(n, name, iv)) == LongNameNone
  {
    var c := EncryptName(n, name, iv);
    EncodeShape(n.raw64, n.eme.enc(iv, Padded(name)));
    if |c| > 9 { assert c[9] != LONG_NAME_PREFIX[9]; }
  }

  lemma HashedIsLong(n: NameTransform, name: Bytes)
    requires |n.sha256(name)| == 32
    ensures NameType(HashLongName(n, name)) == LongNameContent && |HashLongName(n, name)| <= NAME_MAX
    ensures var file := HashLongName(n, name) + LONG_NAME_SUFFIX;
      NameType(file) == LongNameFilename && RemoveLongNameSuffix(file) == HashLongName(n, name)
  {
    var h := Encode(n.raw64, n.sha256(name));
    EncodeShape(n.raw64, n.sha256(name));
    var c := LONG_NAME_PREFIX + h;
    assert |h| >= 43 && c[|c| - 5] == h[|h| - 5];
    assert LONG_NAME_PREFIX <= c;
    assert LONG_NAME_PREFIX <= c + LONG_NAME_SUFFIX;
  }

  lemma EncodeInjective(raw: bool, a: Bytes, b: Bytes)
    requires Encode(raw, a) == Encode(raw, b)
    ensures a == b
  {
    DecodeEncode(raw, a);
    DecodeEncode(raw, b);
  }

  /** Two names of the same directory are stored under the same name only if they are the same,
      or both are long and SHA-256 does not tell their ciphertext names apart. */
  lemma StoredNamesDiffer(n: NameTransform, a: Bytes, b: Bytes, iv: Bytes)
    requires Lawful(n.eme) && |iv| == IV_LEN && ValidName(a) && ValidName(b)
    requires EncryptAndHashName(n, a, iv).Ok? && EncryptAndHashName(n, a, iv) == EncryptAndHashName(n, b, iv)
    ensures a == b || (n.longNames && |a| >= 176 && |b| >= 176
                       && n.sha256(EncryptName(n, a, iv)) == n.sha256(EncryptName(n, b, iv)))
  {
    LengthThreshold(n, a, iv);
    LengthThreshold(n, b, iv);
    EncryptedIsShort(n, a, iv);
    EncryptedIsShort(n, b, iv);
    HashedDotted(n, EncryptName(n, a, iv));
    HashedDotted(n, EncryptName(n, b, iv));
    var hashedA, hashedB := n.longNames && |a| >= 176, n.longNames && |b| >= 176;
    if hashedA && hashedB {
      SameHash(n, EncryptName(n, a, iv), EncryptName(n, b, iv));
    } else if !hashedA && !hashedB {
      EncryptInjective(n, a, b, iv);
    }
  }

  lemma HashedDotted(n: NameTransform, x: Bytes)
    ensures DOT in HashLongName(n, x)
  {
    assert HashLongName(n, x)[9] == DOT;
  }

  lemma SameHash(n: NameTransform, x: Bytes, y: Bytes)
    requires HashLongName(n, x) == HashLongName(n, y)
    ensures n.sha256(x) == n.sha256(y)
  {
    var h := HashLongName(n, x);
    assert h[|LONG_NAME_PREFIX|..] == Encode(n.raw64, n.sha256(x)) == Encode(n.raw64, n.sha256(y));
    EncodeInjective(n.raw64, n.sha256(x), n.sha256(y));
  }

  /** With long names on, every name of up to 255 bytes gets a ciphertext name of at most 255
      bytes, and a hashed one exactly when the plain name has 176 bytes or more. */
  lemma LongNameSwitch(n: NameTransform, name: Bytes, iv: Bytes)
    requires Lawful(n.eme) && |iv| == IV_LEN && name != [] && n.longNames
    requires forall x :: |n.sha256(x)| == 32
    ensures EncryptAndHashName(n, name, iv).Ok? <==> |name| <= NAME_MAX
    ensures |name| <= NAME_MAX ==>
      var c := EncryptAndHashName(n, name, iv).value;
      && |c| <= NAME_MAX
      && NameType(c) == if |name| >= 176 then LongNameContent else LongNameNone
  {
    LengthThreshold(n, name, iv);
    if |name| >= 176 {
      HashedIsLong(n, EncryptName(n, name, iv));
    } else {
      EncryptedIsShort(n, name, iv);
    }
  }
}
