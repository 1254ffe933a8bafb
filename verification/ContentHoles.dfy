/** Sparse files: blocks that were never written are stored as zero bytes, between encrypted ones,
    and read as zero bytes. */
module ContentHoles {
  import opened Base
  import opened ContentLayout
  import opened ContentCodec

  /** One stored block: encrypted text, or a hole. */
  datatype Stored = Text(text: Bytes) | Hole

  /** What a reader must see of a stored block. */
  function Plain(bs: nat, b: Stored): Bytes {
    match b
    case Text(text) => text
    case Hole => seq(bs, _ => 0)
  }

  function Plains(bs: nat, blocks: seq<Stored>): seq<Bytes> {
    seq(|blocks|, i requires 0 <= i < |blocks| => Plain(bs, blocks[i]))
  }

  /** What is on disk of a stored block. */
  function OnDisk(e: ContentEnc, b: Stored, blockNo: nat, fileID: Bytes, nonces: nat -> Bytes): Bytes {
    match b
    case Text(text) => EncryptBlock(e, text, blockNo, fileID, nonces(blockNo))
    case Hole => seq(e.CipherBS(), _ => 0)
  }

  function Body(e: ContentEnc, blocks: seq<Stored>, first: nat, fileID: Bytes, nonces: nat -> Bytes): Bytes {
    if blocks == [] then []
    else OnDisk(e, blocks[0], first, fileID, nonces) + Body(e, blocks[1..], first + 1, fileID, nonces)
  }

  /** What a reader must see of all of them. */
  function Content(bs: nat, blocks: seq<Stored>): Bytes {
    Flatten(Plains(bs, blocks))
  }

  function StoredFile(e: ContentEnc, blocks: seq<Stored>, fileID: Bytes, nonces: nat -> Bytes): Bytes {
    Packed(FileHeader(VERSION, fileID)) + Body(e, blocks, 0, fileID, nonces)
  }

  /** Every file content can be stored, without holes. */
  function Texts(blocks: seq<Bytes>): seq<Stored> {
    seq(|blocks|, i requires 0 <= i < |blocks| => Text(blocks[i]))
  }

  lemma TextsContent(bs: nat, p: Bytes)
    requires bs >= 1
    ensures WellCut(bs, Plains(bs, Texts(Cut(bs, p)))) && Content(bs, Texts(Cut(bs, p))) == p
  {
    CutIsWell(bs, p);
    assert Plains(bs, Texts(Cut(bs, p))) == Cut(bs, p);
  }

  lemma StoredBlock(e: ContentEnc, b: Stored, blockNo: nat, fileID: Bytes, nonces: nat -> Bytes)
    requires Lawful(e) && GoodNonces(e, nonces) && Plain(e.plainBS, b) != []
    ensures var c, p := OnDisk(e, b, blockNo, fileID, nonces), Plain(e.plainBS, b);
      |c| == |p| + e.Layout().overhead && DecryptBlock(e, c, blockNo, fileID) == Ok(p)
  {
    match b
    case Text(text) =>
      assert GoodNonce(e, nonces(blockNo));
      BlockRoundTrip(e, text, blockNo, fileID, nonces(blockNo));
    case Hole =>
      assert OnDisk(e, b, blockNo, fileID, nonces) == Zeros(e.CipherBS());
      assert Plain(e.plainBS, b) == Zeros(e.plainBS);
  }

  lemma FirstPlain(bs: nat, blocks: seq<Stored>)
    requires blocks != [] && bs >= 1 && WellCut(bs, Plains(bs, blocks))
    ensures var ps := Plains(bs, blocks);
      && ps[0] == Plain(bs, blocks[0]) && ps[1..] == Plains(bs, blocks[1..]) && WellCut(bs, ps[1..])
      && 1 <= |ps[0]| <= bs && (|blocks| > 1 ==> |ps[0]| == bs)
  {
  }

  /** Decryption of any stored blocks that are cut as files are. */
  lemma {:induction false} HolesDecrypt(e: ContentEnc, blocks: seq<Stored>, first: nat, fileID: Bytes,
                                        nonces: nat -> Bytes)
    requires Lawful(e) && GoodNonces(e, nonces) && WellCut(e.plainBS, Plains(e.plainBS, blocks))
    ensures DecryptBlocks(e, Body(e, blocks, first, fileID, nonces), first, fileID) == Ok(Content(e.plainBS, blocks))
    decreases |blocks|
  {
    if blocks != [] {
      var b, rest := OnDisk(e, blocks[0], first, fileID, nonces), Body(e, blocks[1..], first + 1, fileID, nonces);
      var c := Body(e, blocks, first, fileID, nonces);
      FirstPlain(e.plainBS, blocks);
      StoredBlock(e, blocks[0], first, fileID, nonces);
      HolesDecrypt(e, blocks[1..], first + 1, fileID, nonces);
      assert c == b + rest;
      if |blocks| == 1 { assert rest == []; }
      assert c[..|b|] == b && c[|b|..] == rest;
    }
  }

  lemma {:induction false} HolesSize(e: ContentEnc, blocks: seq<Stored>, first: nat, fileID: Bytes,
                                     nonces: nat -> Bytes)
    requires Lawful(e) && GoodNonces(e, nonces) && WellCut(e.plainBS, Plains(e.plainBS, blocks)) && blocks != []
    ensures HEADER_LEN + |Body(e, blocks, first, fileID, nonces)|
      == PlainSizeToCipherSize(e.Layout(), |Content(e.plainBS, blocks)|)
    decreases |blocks|
  {
    var l, ps := e.Layout(), Plains(e.plainBS, blocks);
    FirstPlain(e.plainBS, blocks);
    StoredBlock(e, blocks[0], first, fileID, nonces);
    var c0, rest := OnDisk(e, blocks[0], first, fileID, nonces), Body(e, blocks[1..], first + 1, fileID, nonces);
    assert |Body(e, blocks, first, fileID, nonces)| == |c0| + |rest|;
    assert |Flatten(ps)| == |ps[0]| + |Flatten(ps[1..])|;
    if |blocks| == 1 {
      assert ps[1..] == [] && blocks[1..] == [] && rest == [];
      PlainSizeParts(l, 0, |ps[0]|);
    } else {
      HolesSize(e, blocks[1..], first + 1, fileID, nonces);
      WellCutNonEmpty(e.plainBS, ps[1..]);
      OneMoreBlock(l, |Flatten(ps[1..])|);
    }
  }

  /** A whole file with holes anywhere: `decryptFile` returns the concatenation of the texts with
      exactly one block of zero bytes for each hole, and the file has the computed size. */
  lemma FileWithHoles(e: ContentEnc, blocks: seq<Stored>, fileID: Bytes, nonces: nat -> Bytes)
    requires Lawful(e) && GoodNonces(e, nonces) && GoodID(fileID)
    requires blocks != [] && WellCut(e.plainBS, Plains(e.plainBS, blocks))
    ensures var file, p := StoredFile(e, blocks, fileID, nonces), Content(e.plainBS, blocks);
      && DecryptFile(e, file) == Returns(Ok(p)) && |file| == PlainSizeToCipherSize(e.Layout(), |p|) && p != []
  {
    HolesSize(e, blocks, 0, fileID, nonces);
    HolesDecrypt(e, blocks, 0, fileID, nonces);
    WellCutNonEmpty(e.plainBS, Plains(e.plainBS, blocks));
    PlainCipherPlain(e.Layout(), |Content(e.plainBS, blocks)|);
    PackedFile(e, fileID, Body(e, blocks, 0, fileID, nonces));
  }

  /** A packed header in front of blocks. */
  lemma PackedFile(e: ContentEnc, fileID: Bytes, body: Bytes)
    requires e.plainBS >= 1 && GoodID(fileID) && CipherSizeToPlainSize(e.Layout(), HEADER_LEN + |body|) > 0
    ensures var file := Packed(FileHeader(VERSION, fileID)) + body;
      |file| == HEADER_LEN + |body| && DecryptFile(e, file) == Returns(DecryptBlocks(e, body, 0, fileID))
  {
    var header := Packed(FileHeader(VERSION, fileID));
    ParsePack(FileHeader(VERSION, fileID));
    assert (header + body)[..HEADER_LEN] == header && (header + body)[HEADER_LEN..] == body;
  }
}
