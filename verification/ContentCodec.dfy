/** File headers and content blocks (gocrypt/contentenc/content.go and file_header.go,
    filetree/decrypt.go). The authenticated cipher is a parameter. */
module ContentCodec {
  import opened Base
  import opened ContentLayout

  const ID_LEN := 16
  const TAG_LEN := 16
  const VERSION := 2

  /** `seal(nonce, plaintext, ad)` and `open(nonce, ciphertext, ad)`. */
  datatype Aead = Aead(seal: (Bytes, Bytes, Bytes) -> Bytes, open: (Bytes, Bytes, Bytes) -> Option<Bytes>)

  /** What is assumed of the cipher: a fixed tag length, and `open` accepts exactly the
      sealed texts. */
  ghost predicate LawfulAead(a: Aead) {
    && (forall nonce: Bytes, p: Bytes, ad: Bytes ::
          |a.seal(nonce, p, ad)| == |p| + TAG_LEN && a.open(nonce, a.seal(nonce, p, ad), ad) == Some(p))
    && (forall nonce: Bytes, c: Bytes, ad: Bytes ::
          a.open(nonce, c, ad).Some? ==> c == a.seal(nonce, a.open(nonce, c, ad).value, ad))
  }

  datatype ContentEnc = ContentEnc(aead: Aead, ivLen: nat, plainBS: nat) {
    function Layout(): Layout { ContentLayout.Layout(plainBS, ivLen + TAG_LEN) }
    function CipherBS(): nat { plainBS + ivLen + TAG_LEN }
  }

  ghost predicate Lawful(e: ContentEnc) {
    e.plainBS >= 1 && e.ivLen >= 1 && LawfulAead(e.aead)
  }

  function Zeros(n: nat): (b: Bytes)
    ensures |b| == n && forall i :: 0 <= i < n ==> b[i] == 0
  {
    seq(n, _ => 0)
  }

  // ------------------------------------------------------------------------ headers

  datatype FileHeader = FileHeader(version: nat, id: Bytes)

  predicate Initialized(h: FileHeader) {
    |h.id| == ID_LEN && h.version == VERSION
  }

  function BigEndian(x: nat, n: nat): Bytes {
    if n == 0 then [] else BigEndian(x / 256, n - 1) + [x % 256]
  }

  lemma {:induction false} BigEndianLength(x: nat, n: nat)
    ensures |BigEndian(x, n)| == n
  {
    if n > 0 { BigEndianLength(x / 256, n - 1); }
  }

  function Pow256(n: nat): nat {
    if n == 0 then 1 else 256 * Pow256(n - 1)
  }

  function FromBigEndian(b: Bytes): nat {
    if b == [] then 0 else FromBigEndian(b[..|b| - 1]) * 256 + b[|b| - 1]
  }

  lemma {:induction false} BigEndianValue(x: nat, n: nat)
    requires x < Pow256(n)
    ensures FromBigEndian(BigEndian(x, n)) == x
    decreases n
  {
    if n > 0 {
      BigEndianLength(x / 256, n - 1);
      BigEndianValue(x / 256, n - 1);
      assert BigEndian(x, n)[..n - 1] == BigEndian(x / 256, n - 1);
    }
  }

  function Packed(h: FileHeader): Bytes {
    BigEndian(h.version, 2) + h.id
  }

  /** `Pack`. The source panics on a header that is not initialised. */
  method Pack(h: FileHeader) returns (buf: array<byte>)
    requires Initialized(h)
    ensures buf[..] == Packed(h) && buf.Length == HEADER_LEN
  {
    buf := new byte[HEADER_LEN](_ => 0);
    buf[0], buf[1] := h.version / 256, h.version % 256;
    for i := 0 to ID_LEN
      invariant buf[0] == 0 && buf[1] == 2
      invariant forall j :: 0 <= j < i ==> buf[2 + j] == h.id[j]
    {
      buf[2 + i] := h.id[i];
    }
    assert BigEndian(2, 2) == [0, 2];
    assert buf[2..] == h.id;
  }

  function ParseHeader(buf: Bytes): Result<FileHeader> {
    if |buf| != HEADER_LEN then Err(Error(1))
    else
      var version: nat := buf[0] as nat * 256 + buf[1];
      if version != VERSION then Err(Error(2))
      else if buf[2..] == Zeros(ID_LEN) then Err(Error(3))
      else Ok(FileHeader(version, buf[2..]))
  }

  /** Parsing a packed header gives it back, except for the reserved all-zero ID. */
  lemma ParsePack(h: FileHeader)
    requires Initialized(h)
    ensures |Packed(h)| == HEADER_LEN && Packed(h)[..2] == [0, 2] && Packed(h)[2..] == h.id
    ensures ParseHeader(Packed(h)) == if h.id == Zeros(ID_LEN) then Err(Error(3)) else Ok(h)
  {
    assert BigEndian(0, 1) == [0];
    assert BigEndian(2, 2) == [0, 2];
    assert Packed(h)[..2] == [0, 2] && Packed(h)[2..] == h.id;
  }

  /** Only packed headers parse. */
  lemma PackParse(buf: Bytes)
    requires ParseHeader(buf).Ok?
    ensures var h := ParseHeader(buf).value; Initialized(h) && h.id != Zeros(ID_LEN) && Packed(h) == buf
  {
    assert BigEndian(0, 1) == [0];
    assert BigEndian(2, 2) == [0, 2];
    assert buf == buf[..2] + buf[2..] && buf[..2] == [buf[0], buf[1]];
  }

  // ------------------------------------------------------------------------- blocks

  /** Block number, then file ID. The ID is empty or has `ID_LEN` bytes. */
  function ConcatAD(blockNo: nat, fileID: Bytes): Bytes {
    BigEndian(blockNo % UINT64, 8) + fileID
  }

  /** The block number is in front as 64 bits, most significant byte first. */
  lemma ConcatADLayout(blockNo: nat, fileID: Bytes)
    requires blockNo < UINT64
    ensures var ad := ConcatAD(blockNo, fileID);
      |ad| == 8 + |fileID| && FromBigEndian(ad[..8]) == blockNo && ad[8..] == fileID
  {
    assert blockNo % UINT64 == blockNo;
    Pow256Of8();
    PrefixLayout(blockNo, fileID, 8);
  }

  lemma PrefixLayout(x: nat, a: Bytes, n: nat)
    requires x < Pow256(n)
    ensures var ad := BigEndian(x, n) + a; |ad| == n + |a| && FromBigEndian(ad[..n]) == x && ad[n..] == a
  {
    BigEndianLength(x, n);
    BigEndianValue(x, n);
    assert (BigEndian(x, n) + a)[..n] == BigEndian(x, n);
  }

  /** The associated data determines block number and file. */
  lemma ConcatADInjective(i: nat, a: Bytes, j: nat, b: Bytes)
    requires i < UINT64 && j < UINT64 && ConcatAD(i, a) == ConcatAD(j, b)
    ensures i == j && a == b
  {
    ConcatADLayout(i, a);
    ConcatADLayout(j, b);
  }

  lemma Pow256Of8()
    ensures Pow256(8) == UINT64
  {
    assert Pow256(4) == 0x1_0000_0000;
    assert Pow256(8) == 0x1_0000_0000 * Pow256(4);
  }

  /** `doEncryptBlock`: nonce, ciphertext, tag; empty blocks stay empty. */
  function EncryptBlock(e: ContentEnc, plaintext: Bytes, blockNo: nat, fileID: Bytes, nonce: Bytes): Bytes {
    if plaintext == [] then [] else nonce + e.aead.seal(nonce, plaintext, ConcatAD(blockNo, fileID))
  }

  function DecryptBlock(e: ContentEnc, ciphertext: Bytes, blockNo: nat, fileID: Bytes): Result<Bytes> {
    if ciphertext == [] then Ok([])
    else if ciphertext == Zeros(e.CipherBS()) then Ok(Zeros(e.plainBS))
    else if |ciphertext| < e.ivLen then Err(Error(4))
    else if ciphertext[..e.ivLen] == Zeros(e.ivLen) then Err(Error(5))
    else
      var plaintext := e.aead.open(ciphertext[..e.ivLen], ciphertext[e.ivLen..], ConcatAD(blockNo, fileID));
      if plaintext.None? then Err(Error(6)) else Ok(plaintext.value)
  }

  predicate GoodNonce(e: ContentEnc, nonce: Bytes) {
    |nonce| == e.ivLen && nonce != Zeros(e.ivLen)
  }

  lemma BlockRoundTrip(e: ContentEnc, plaintext: Bytes, blockNo: nat, fileID: Bytes, nonce: Bytes)
    requires Lawful(e) && GoodNonce(e, nonce) && plaintext != []
    ensures var c := EncryptBlock(e, plaintext, blockNo, fileID, nonce);
      && |c| == |plaintext| + e.ivLen + TAG_LEN && c[..e.ivLen] == nonce
      && e.aead.open(nonce, c[e.ivLen..], ConcatAD(blockNo, fileID)) == Some(plaintext)
      && DecryptBlock(e, c, blockNo, fileID) == Ok(plaintext)
  {
    var sealed := e.aead.seal(nonce, plaintext, ConcatAD(blockNo, fileID));
    var c := EncryptBlock(e, plaintext, blockNo, fileID, nonce);
    assert |sealed| == |plaintext| + TAG_LEN;
    assert c[..e.ivLen] == nonce && c[e.ivLen..] == sealed;
    assert e.aead.open(nonce, sealed, ConcatAD(blockNo, fileID)) == Some(plaintext);
    assert c != Zeros(e.CipherBS()) by {
      assert Zeros(e.CipherBS())[..e.ivLen] == Zeros(e.ivLen);
    }
  }

  /** Zero bytes are a hole if they are a whole block, and start with the reserved nonce else. */
  lemma ZeroBlock(e: ContentEnc, c: Bytes)
    requires forall j :: 0 <= j < |c| ==> c[j] == 0
    ensures c == Zeros(e.CipherBS()) <==> |c| == e.CipherBS()
    ensures |c| >= e.ivLen ==> c[..e.ivLen] == Zeros(e.ivLen)
  {
  }

  /** A block that decrypts is empty, a hole, which stands for zero bytes, or the encryption of
      its plaintext under the nonce it carries; its length follows from the plaintext length. */
  lemma BlockDecrypted(e: ContentEnc, c: Bytes, blockNo: nat, fileID: Bytes)
    requires Lawful(e) && DecryptBlock(e, c, blockNo, fileID).Ok? && c != []
    ensures var p := DecryptBlock(e, c, blockNo, fileID).value;
      && |c| == |p| + e.ivLen + TAG_LEN
      && ((forall j :: 0 <= j < |c| ==> c[j] == 0) ==>
            |c| == e.CipherBS() && |p| == e.plainBS && forall j :: 0 <= j < |p| ==> p[j] == 0)
      && (c != Zeros(e.CipherBS()) && p != [] ==>
            GoodNonce(e, c[..e.ivLen]) && EncryptBlock(e, p, blockNo, fileID, c[..e.ivLen]) == c)
  {
    if forall j :: 0 <= j < |c| ==> c[j] == 0 {
      ZeroBlock(e, c);
    }
    if c != Zeros(e.CipherBS()) {
      var p := DecryptBlock(e, c, blockNo, fileID).value;
      assert c[e.ivLen..] == e.aead.seal(c[..e.ivLen], p, ConcatAD(blockNo, fileID));
      assert c == c[..e.ivLen] + c[e.ivLen..];
    }
  }

  /** Encrypting each block in turn; block number `i` gets nonce `nonces(i)`. */
  function EncryptBlocks(e: ContentEnc, blocks: seq<Bytes>, first: nat, fileID: Bytes, nonces: nat -> Bytes): Bytes {
    if blocks == [] then []
    else
      EncryptBlock(e, blocks[0], first, fileID, nonces(first))
      + EncryptBlocks(e, blocks[1..], first + 1, fileID, nonces)
  }

  /** The decryption loop over `unit`-sized blocks, for any per-block function: it stops at
      the first error. */
  function EachBlock(f: (Bytes, nat) -> Result<Bytes>, unit: nat, c: Bytes, first: nat): Result<Bytes>
    requires unit >= 1
    decreases |c|
  {
    if c == [] then Ok([])
    else
      var n := if |c| < unit then |c| else unit;
      var block := f(c[..n], first);
      if block.Err? then block
      else
        var rest := EachBlock(f, unit, c[n..], first + 1);
        if rest.Err? then rest else Ok(block.value + rest.value)
  }

  /** What the loop has written when it stops: the blocks before the first error. */
  function EachPrefix(f: (Bytes, nat) -> Result<Bytes>, unit: nat, c: Bytes, first: nat): Bytes
    requires unit >= 1
    decreases |c|
  {
    if c == [] then []
    else
      var n := if |c| < unit then |c| else unit;
      var block := f(c[..n], first);
      if block.Err? then [] else block.value + EachPrefix(f, unit, c[n..], first + 1)
  }

  /** Without an error that is everything. */
  lemma {:induction false} PrefixIsWhole(f: (Bytes, nat) -> Result<Bytes>, unit: nat, c: Bytes, first: nat)
    requires unit >= 1 && EachBlock(f, unit, c, first).Ok?
    ensures EachPrefix(f, unit, c, first) == EachBlock(f, unit, c, first).value
    decreases |c|
  {
    if c != [] {
      var n := if |c| < unit then |c| else unit;
      PrefixIsWhole(f, unit, c[n..], first + 1);
    }
  }

  function BlockDecryptor(e: ContentEnc, fileID: Bytes): (Bytes, nat) -> Result<Bytes> {
    (c: Bytes, blockNo: nat) => DecryptBlock(e, c, blockNo, fileID)
  }

  /** The outcome of `DecryptBlocks`, and the output that comes with it, also on an error. */
  function DecryptBlocks(e: ContentEnc, c: Bytes, first: nat, fileID: Bytes): Result<Bytes>
    requires e.plainBS >= 1
  {
    EachBlock(BlockDecryptor(e, fileID), e.CipherBS(), c, first)
  }

  function DecryptedPrefix(e: ContentEnc, c: Bytes, first: nat, fileID: Bytes): Bytes
    requires e.plainBS >= 1
  {
    EachPrefix(BlockDecryptor(e, fileID), e.CipherBS(), c, first)
  }

  function Flatten(blocks: seq<Bytes>): Bytes {
    if blocks == [] then [] else blocks[0] + Flatten(blocks[1..])
  }

  /** Full blocks, then a last one that may be shorter but not empty. */
  predicate WellCut(bs: nat, blocks: seq<Bytes>) {
    blocks == [] ||
    (if |blocks| == 1 then 1 <= |blocks[0]| <= bs else |blocks[0]| == bs && WellCut(bs, blocks[1..]))
  }

  function Cut(bs: nat, p: Bytes): seq<Bytes>
    requires bs >= 1
  {
    if p == [] then [] else if |p| <= bs then [p] else [p[..bs]] + Cut(bs, p[bs..])
  }

  lemma {:induction false} CutIsWell(bs: nat, p: Bytes)
    requires bs >= 1
    ensures WellCut(bs, Cut(bs, p)) && Flatten(Cut(bs, p)) == p
    decreases |p|
  {
    if |p| > bs {
      CutIsWell(bs, p[bs..]);
      var rest := Cut(bs, p[bs..]);
      assert Cut(bs, p) == [p[..bs]] + rest && rest != [];
      assert Cut(bs, p)[1..] == rest;
      assert p == p[..bs] + p[bs..];
    } else if p != [] {
      assert Cut(bs, p)[1..] == [];
    }
  }

  ghost predicate GoodNonces(e: ContentEnc, nonces: nat -> Bytes) {
    forall i :: GoodNonce(e, nonces(i))
  }

  /** Decryption undoes encryption of any sequence of blocks that is cut as files are. */
  lemma {:induction false} BlocksRoundTrip(e: ContentEnc, blocks: seq<Bytes>, first: nat, fileID: Bytes,
                                           nonces: nat -> Bytes)
    requires Lawful(e) && GoodNonces(e, nonces) && WellCut(e.plainBS, blocks)
    ensures DecryptBlocks(e, EncryptBlocks(e, blocks, first, fileID, nonces), first, fileID) == Ok(Flatten(blocks))
    decreases |blocks|
  {
    if blocks != [] {
      var b := EncryptBlock(e, blocks[0], first, fileID, nonces(first));
      var rest := EncryptBlocks(e, blocks[1..], first + 1, fileID, nonces);
      var c := EncryptBlocks(e, blocks, first, fileID, nonces);
      assert GoodNonce(e, nonces(first));
      BlockRoundTrip(e, blocks[0], first, fileID, nonces(first));
      BlocksRoundTrip(e, blocks[1..], first + 1, fileID, nonces);
      assert c == b + rest;
      assert |c| >= e.CipherBS() ==> |b| == e.CipherBS();
      assert c[..|b|] == b && c[|b|..] == rest;
    }
  }

  /** Ciphertext without holes and without blocks of mere overhead, whose block number `i`
      carries nonce `nonces(i)`. */
  ghost predicate Carries(e: ContentEnc, c: Bytes, first: nat, nonces: nat -> Bytes)
    requires e.plainBS >= 1
    decreases |c|
  {
    c == [] ||
    (var n := Min(|c|, e.CipherBS());
     && n > e.ivLen + TAG_LEN && c[..n] != Zeros(e.CipherBS()) && nonces(first) == c[..e.ivLen]
     && Carries(e, c[n..], first + 1, nonces))
  }

  /** Encryption undoes decryption, with the nonces that the blocks carry. */
  lemma {:induction false} BlocksReEncrypt(e: ContentEnc, c: Bytes, first: nat, fileID: Bytes, nonces: nat -> Bytes)
    requires Lawful(e) && Carries(e, c, first, nonces) && DecryptBlocks(e, c, first, fileID).Ok?
    ensures var p := DecryptBlocks(e, c, first, fileID).value;
      EncryptBlocks(e, Cut(e.plainBS, p), first, fileID, nonces) == c && (c != [] ==> p != [])
    decreases |c|
  {
    if c != [] {
      var n := Min(|c|, e.CipherBS());
      var b, rest := c[..n], c[n..];
      BlockDecrypted(e, b, first, fileID);
      BlocksReEncrypt(e, rest, first + 1, fileID, nonces);
      assert b[..e.ivLen] == c[..e.ivLen];
      var x, q := DecryptBlock(e, b, first, fileID).value, DecryptBlocks(e, rest, first + 1, fileID).value;
      CutCons(e.plainBS, x, q);
      assert Cut(e.plainBS, x + q)[1..] == Cut(e.plainBS, q);
      assert c == b + rest;
    }
  }

  lemma CutCons(bs: nat, x: Bytes, q: Bytes)
    requires bs >= 1 && 1 <= |x| <= bs && (q != [] ==> |x| == bs)
    ensures Cut(bs, x + q) == [x] + Cut(bs, q)
  {
    if q == [] {
      assert x + q == x;
    } else {
      assert (x + q)[..bs] == x && (x + q)[bs..] == q;
    }
  }

  lemma {:induction false} EncryptedSize(e: ContentEnc, blocks: seq<Bytes>, first: nat, fileID: Bytes,
                                         nonces: nat -> Bytes)
    requires Lawful(e) && GoodNonces(e, nonces) && WellCut(e.plainBS, blocks) && blocks != []
    ensures HEADER_LEN + |EncryptBlocks(e, blocks, first, fileID, nonces)|
      == PlainSizeToCipherSize(e.Layout(), |Flatten(blocks)|)
    decreases |blocks|
  {
    EncryptedSizeCons(e, blocks, first, fileID, nonces);
    var l, rest := e.Layout(), blocks[1..];
    if |blocks| == 1 {
      assert rest == [];
      PlainSizeParts(l, 0, |blocks[0]|);
    } else {
      EncryptedSize(e, rest, first + 1, fileID, nonces);
      WellCutNonEmpty(e.plainBS, rest);
      OneMoreBlock(l, |Flatten(rest)|);
    }
  }

  lemma EncryptedSizeCons(e: ContentEnc, blocks: seq<Bytes>, first: nat, fileID: Bytes, nonces: nat -> Bytes)
    requires Lawful(e) && GoodNonces(e, nonces) && blocks != [] && blocks[0] != []
    ensures |EncryptBlocks(e, blocks, first, fileID, nonces)| ==
      |blocks[0]| + e.Layout().overhead + |EncryptBlocks(e, blocks[1..], first + 1, fileID, nonces)|
    ensures |Flatten(blocks)| == |blocks[0]| + |Flatten(blocks[1..])|
  {
    assert GoodNonce(e, nonces(first));
    BlockRoundTrip(e, blocks[0], first, fileID, nonces(first));
  }

  lemma {:induction false} WellCutNonEmpty(bs: nat, blocks: seq<Bytes>)
    requires bs >= 1 && WellCut(bs, blocks) && blocks != []
    ensures Flatten(blocks) != []
  {
  }

  lemma OneMoreBlock(l: Layout, size: nat)
    requires Usable(l) && size >= 1
    ensures PlainSizeToCipherSize(l, l.plainBS + size) == l.CipherBS() + PlainSizeToCipherSize(l, size)
  {
    var k, r := Parts(size, l.plainBS);
    NextParts(k, l.plainBS);
    NextParts(k, l.CipherBS());
    PlainSizeParts(l, k, r);
    PlainSizeParts(l, k + 1, r);
  }

  // -------------------------------------------------------------------------- files

  /** A call returns, or it panics. */
  datatype Outcome = Returns(result: Result<Bytes>) | Panics

  function ReadFileID(file: Bytes): Result<Bytes> {
    if |file| <= HEADER_LEN then Err(Error(7))
    else
      var h := ParseHeader(file[..HEADER_LEN]);
      if h.Err? then Err(h.error) else Ok(h.value.id)
  }

  /** `decryptFile` on values: it indexes the first block of the plaintext range, so it
      panics when that range is empty. */
  function DecryptFile(e: ContentEnc, file: Bytes): Outcome
    requires e.plainBS >= 1
  {
    var id := ReadFileID(file);
    if id.Err? then Returns(id)
    else if CipherSizeToPlainSize(e.Layout(), |file|) == 0 then Panics
    else Returns(DecryptBlocks(e, file[HEADER_LEN..], 0, id.value))
  }

  function EncryptFile(e: ContentEnc, p: Bytes, fileID: Bytes, nonces: nat -> Bytes): Bytes
    requires e.plainBS >= 1
  {
    Packed(FileHeader(VERSION, fileID)) + EncryptBlocks(e, Cut(e.plainBS, p), 0, fileID, nonces)
  }

  predicate GoodID(id: Bytes) {
    |id| == ID_LEN && id != Zeros(ID_LEN)
  }

  /** The whole-file round trip, for any cut into blocks, and the size of the ciphertext. */
  lemma FileRoundTrip(e: ContentEnc, blocks: seq<Bytes>, fileID: Bytes, nonces: nat -> Bytes)
    requires Lawful(e) && GoodNonces(e, nonces) && GoodID(fileID) && WellCut(e.plainBS, blocks) && blocks != []
    ensures var file := Packed(FileHeader(VERSION, fileID)) + EncryptBlocks(e, blocks, 0, fileID, nonces);
      && |file| == PlainSizeToCipherSize(e.Layout(), |Flatten(blocks)|)
      && DecryptFile(e, file) == Returns(Ok(Flatten(blocks)))
  {
    var header := Packed(FileHeader(VERSION, fileID));
    var body := EncryptBlocks(e, blocks, 0, fileID, nonces);
    ParsePack(FileHeader(VERSION, fileID));
    EncryptedSize(e, blocks, 0, fileID, nonces);
    WellCutNonEmpty(e.plainBS, blocks);
    PlainCipherPlain(e.Layout(), |Flatten(blocks)|);
    BlocksRoundTrip(e, blocks, 0, fileID, nonces);
    assert (header + body)[..HEADER_LEN] == header && (header + body)[HEADER_LEN..] == body;
  }

  lemma DecryptEncryptFile(e: ContentEnc, p: Bytes, fileID: Bytes, nonces: nat -> Bytes)
    requires Lawful(e) && GoodNonces(e, nonces) && GoodID(fileID) && p != []
    ensures DecryptFile(e, EncryptFile(e, p, fileID, nonces)) == Returns(Ok(p))
    ensures |EncryptFile(e, p, fileID, nonces)| == PlainSizeToCipherSize(e.Layout(), |p|)
  {
    CutIsWell(e.plainBS, p);
    FileRoundTrip(e, Cut(e.plainBS, p), fileID, nonces);
  }

  /** An empty file becomes a bare header, which is not readable. */
  lemma EmptyFileUnreadable(e: ContentEnc, fileID: Bytes, nonces: nat -> Bytes)
    requires e.plainBS >= 1 && GoodID(fileID)
    ensures DecryptFile(e, EncryptFile(e, [], fileID, nonces)) == Returns(Err(Error(7)))
    ensures DecryptFile(e, []) == Returns(Err(Error(7)))
  {
    ParsePack(FileHeader(VERSION, fileID));
  }

  // ----------------------------------------------------------------- size agreement

  /** Number of blocks in `size >= 1` bytes of ciphertext. */
  function BlockCount(l: Layout, size: nat): nat
    requires Usable(l) && size >= 1
  {
    (size - 1) / l.CipherBS() + 1
  }

  /** Every non-empty block loses exactly `overhead` bytes. */
  ghost predicate Shrinks(f: (Bytes, nat) -> Result<Bytes>, overhead: nat) {
    forall b: Bytes, i: nat :: b != [] && f(b, i).Ok? ==> |b| == |f(b, i).value| + overhead
  }

  lemma DecryptorShrinks(e: ContentEnc, fileID: Bytes)
    requires Lawful(e)
    ensures Shrinks(BlockDecryptor(e, fileID), e.Layout().overhead)
  {
    forall b: Bytes, i: nat | b != [] && DecryptBlock(e, b, i, fileID).Ok?
      ensures |b| == |DecryptBlock(e, b, i, fileID).value| + e.Layout().overhead
    {
      BlockDecrypted(e, b, i, fileID);
    }
  }

  lemma {:induction false} EachLength(f: (Bytes, nat) -> Result<Bytes>, l: Layout, c: Bytes, first: nat)
    requires Usable(l) && Shrinks(f, l.overhead) && EachBlock(f, l.CipherBS(), c, first).Ok? && c != []
    ensures |EachBlock(f, l.CipherBS(), c, first).value| + Times(BlockCount(l, |c|), l.overhead) == |c|
    decreases |c|
  {
    var unit := l.CipherBS();
    if |c| <= unit {
      DivUnique(|c| - 1, unit, 0);
      assert BlockCount(l, |c|) == 1 && Times(1, l.overhead) == l.overhead + Times(0, l.overhead);
      assert c[..|c|] == c && c[|c|..] == [];
    } else {
      EachLength(f, l, c[unit..], first + 1);
      OneMoreCipherBlock(l, |c| - unit);
    }
  }

  lemma OneMoreCipherBlock(l: Layout, size: nat)
    requires Usable(l) && size >= 1
    ensures BlockCount(l, l.CipherBS() + size) == 1 + BlockCount(l, size)
  {
    var d, q := l.CipherBS(), (size - 1) / l.CipherBS();
    DivBounds(size - 1, d);
    Distribute(d, q, 1);
    DivUnique(d + size - 1, d, q + 1);
  }

  /** Every block that decrypts, hole or not, loses exactly the overhead. */
  lemma DecryptedLength(e: ContentEnc, c: Bytes, first: nat, fileID: Bytes)
    requires Lawful(e) && DecryptBlocks(e, c, first, fileID).Ok? && c != []
    ensures |DecryptBlocks(e, c, first, fileID).value| + e.Layout().overhead * BlockCount(e.Layout(), |c|) == |c|
  {
    var l := e.Layout();
    DecryptorShrinks(e, fileID);
    EachLength(BlockDecryptor(e, fileID), l, c, first);
    TimesIsProduct(BlockCount(l, |c|), l.overhead);
  }

  /** Whenever a file decrypts, the result has the length computed from the file's size. */
  lemma SizeAgreement(e: ContentEnc, file: Bytes)
    requires Lawful(e) && DecryptFile(e, file).Returns? && DecryptFile(e, file).result.Ok?
    ensures |DecryptFile(e, file).result.value| == CipherSizeToPlainSize(e.Layout(), |file|) >= 1
  {
    DecryptedLength(e, file[HEADER_LEN..], 0, ReadFileID(file).value);
  }

  /** The panic: exactly the files with a valid header whose blocks hold nothing but overhead;
      for blocks no smaller than the overhead, those with at most one block's overhead. */
  lemma PanicsExactly(e: ContentEnc, file: Bytes)
    requires Lawful(e)
    ensures var l := e.Layout();
      && (DecryptFile(e, file) == Panics <==>
            ReadFileID(file).Ok? && |file| - HEADER_LEN <= l.overhead * BlockCount(l, |file| - HEADER_LEN))
      && (l.plainBS >= l.overhead ==>
            (DecryptFile(e, file) == Panics <==>
               HEADER_LEN < |file| <= HEADER_LEN + l.overhead && ParseHeader(file[..HEADER_LEN]).Ok?))
  {
    if |file| > HEADER_LEN {
      var l, size := e.Layout(), |file| - HEADER_LEN;
      var k, r := Parts(size, l.CipherBS());
      CipherSizeParts(l, k, r);
      if k >= 1 {
        MulMono(1, k, l.plainBS);
        MulMono(1, k, l.CipherBS());
      }
    }
  }

  /** With the default sizes: 19 to 50 bytes. */
  lemma PanicsByDefault(e: ContentEnc, file: Bytes)
    requires Lawful(e) && e.plainBS == 4096 && e.ivLen == 16
    ensures DecryptFile(e, file) == Panics <==> 19 <= |file| <= 50 && ParseHeader(file[..18]).Ok?
  {
    PanicsExactly(e, file);
  }

  // ----------------------------------------------------------------------- sub-ranges

  /** Whole blocks give `m` bytes each. */
  ghost predicate Uniform(f: (Bytes, nat) -> Result<Bytes>, unit: nat, m: nat) {
    forall b: Bytes, i: nat :: |b| == unit && f(b, i).Ok? ==> |f(b, i).value| == m
  }

  lemma DecryptorUniform(e: ContentEnc, fileID: Bytes)
    requires Lawful(e)
    ensures Uniform(BlockDecryptor(e, fileID), e.CipherBS(), e.plainBS)
  {
    forall b: Bytes, i: nat | |b| == e.CipherBS() && DecryptBlock(e, b, i, fileID).Ok?
      ensures |DecryptBlock(e, b, i, fileID).value| == e.plainBS
    {
      BlockDecrypted(e, b, i, fileID);
    }
  }

  /** Skipping `k` whole input blocks skips `k` whole output blocks. */
  lemma {:induction false} EachDrop(f: (Bytes, nat) -> Result<Bytes>, unit: nat, m: nat, c: Bytes, first: nat, k: nat)
    requires unit >= 1 && Uniform(f, unit, m) && EachBlock(f, unit, c, first).Ok? && Times(k, unit) <= |c|
    ensures var p := EachBlock(f, unit, c, first).value;
      Times(k, m) <= |p| && EachBlock(f, unit, c[Times(k, unit)..], first + k) == Ok(p[Times(k, m)..])
    decreases k
  {
    if k > 0 {
      EachDrop(f, unit, m, c[unit..], first + 1, k - 1);
      DropTwice(c, unit, Times(k, unit));
      DropTwice(EachBlock(f, unit, c, first).value, m, Times(k, m));
    }
  }

  lemma DropTwice(s: Bytes, i: nat, j: nat)
    requires i <= j <= |s|
    ensures s[i..][j - i..] == s[j..]
  {
  }

  /** The first `k` whole input blocks give the first `k` output blocks. */
  lemma {:induction false} EachTake(f: (Bytes, nat) -> Result<Bytes>, unit: nat, m: nat, c: Bytes, first: nat, k: nat)
    requires unit >= 1 && Uniform(f, unit, m) && EachBlock(f, unit, c, first).Ok? && Times(k, unit) <= |c|
    ensures var p := EachBlock(f, unit, c, first).value;
      Times(k, m) <= |p| && EachBlock(f, unit, c[..Times(k, unit)], first) == Ok(p[..Times(k, m)])
    decreases k
  {
    if k > 0 {
      EachTake(f, unit, m, c[unit..], first + 1, k - 1);
      var p, cs := EachBlock(f, unit, c, first).value, Times(k, unit);
      assert c[..cs][..unit] == c[..unit] && c[..cs][unit..] == c[unit..][..cs - unit];
      assert p[..Times(k, m)] == p[..m] + p[m..][..Times(k, m) - m];
    }
  }
}
