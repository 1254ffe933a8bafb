/** Reading a byte range: explode it into blocks, read their joint ciphertext range clipped to
    the end of the file, decrypt, and crop each block (gocrypt/contentenc/intrablock.go). */
module ContentReads {
  import opened Base
  import opened ContentLayout
  import opened ContentRanges
  import opened ContentCodec

  type BlockFn = (Bytes, nat) -> Result<Bytes>

  ghost predicate Regular(f: BlockFn, l: Layout) {
    Usable(l) && Uniform(f, l.CipherBS(), l.plainBS) && Shrinks(f, l.overhead)
  }

  lemma ShortInput(f: BlockFn, l: Layout, c: Bytes, first: nat)
    requires Regular(f, l) && EachBlock(f, l.CipherBS(), c, first).Ok?
    ensures |c| <= l.CipherBS() ==> |EachBlock(f, l.CipherBS(), c, first).value| <= l.plainBS
  {
    if 0 < |c| <= l.CipherBS() {
      assert c[..|c|] == c && c[|c|..] == [];
    }
  }

  /** Output beyond `k` blocks comes from input beyond `k` blocks. */
  lemma {:induction false} EachReach(f: BlockFn, l: Layout, c: Bytes, first: nat, k: nat)
    requires Regular(f, l) && EachBlock(f, l.CipherBS(), c, first).Ok?
    requires Times(k, l.plainBS) < |EachBlock(f, l.CipherBS(), c, first).value|
    ensures Times(k, l.CipherBS()) < |c|
    decreases k
  {
    var unit := l.CipherBS();
    if k > 0 {
      ShortInput(f, l, c, first);
      EachReach(f, l, c[unit..], first + 1, k - 1);
    }
  }

  /** Input clipped to `n` blocks gives the output clipped to `n` blocks. */
  lemma EachClip(f: BlockFn, l: Layout, c: Bytes, p: Bytes, first: nat, n: nat, cl: nat, pl: nat)
    requires Regular(f, l) && EachBlock(f, l.CipherBS(), c, first) == Ok(p)
    requires cl == Times(n, l.CipherBS()) && pl == Times(n, l.plainBS)
    ensures EachBlock(f, l.CipherBS(), c[..Min(cl, |c|)], first) == Ok(p[..Min(pl, |p|)])
  {
    if cl <= |c| {
      EachTake(f, l.CipherBS(), l.plainBS, c, first, n);
    } else {
      if pl < |p| { EachReach(f, l, c, first, n); }
      TakeAll(c);
      TakeAll(p);
    }
  }

  lemma TakeAll(s: Bytes)
    ensures s[..|s|] == s
  {
  }

  /** Blocks `k` to `k + n`, decrypted on their own, give that part of the output. */
  lemma EachWindow(f: BlockFn, l: Layout, c: Bytes, p: Bytes, k: nat, n: nat, cs: nat, cl: nat, ps: nat, pl: nat)
    requires Regular(f, l) && EachBlock(f, l.CipherBS(), c, 0) == Ok(p)
    requires cs == Times(k, l.CipherBS()) && cl == Times(n, l.CipherBS())
    requires ps == Times(k, l.plainBS) < |p| && pl == Times(n, l.plainBS)
    ensures cs <= |c|
    ensures EachBlock(f, l.CipherBS(), c[cs..][..Min(cl, |c| - cs)], k) == Ok(p[ps..][..Min(pl, |p| - ps)])
  {
    assert cs <= |c| by { EachReach(f, l, c, 0, k); }
    WindowStart(f, l, c, p, k, cs, ps);
    WindowClip(f, l, c[cs..], p[ps..], k, n, cl, pl, |c| - cs, |p| - ps);
  }

  lemma WindowStart(f: BlockFn, l: Layout, c: Bytes, p: Bytes, k: nat, cs: nat, ps: nat)
    requires Regular(f, l) && EachBlock(f, l.CipherBS(), c, 0) == Ok(p)
    requires cs == Times(k, l.CipherBS()) <= |c| && ps == Times(k, l.plainBS) < |p|
    ensures EachBlock(f, l.CipherBS(), c[cs..], k) == Ok(p[ps..])
  {
    EachDrop(f, l.CipherBS(), l.plainBS, c, 0, k);
  }

  lemma WindowClip(f: BlockFn, l: Layout, d: Bytes, q: Bytes, k: nat, n: nat, cl: nat, pl: nat, dl: nat, ql: nat)
    requires Regular(f, l) && EachBlock(f, l.CipherBS(), d, k) == Ok(q) && dl == |d| && ql == |q|
    requires cl == Times(n, l.CipherBS()) && pl == Times(n, l.plainBS)
    ensures EachBlock(f, l.CipherBS(), d[..Min(cl, dl)], k) == Ok(q[..Min(pl, ql)])
  {
    EachClip(f, l, d, q, k, n, cl, pl);
  }

  /** The decrypted blocks can be cropped: none is shorter than its skip. */
  predicate Croppable(bs: nat, blocks: seq<IntraBlock>, q: Bytes) {
    blocks == [] || (blocks[0].skip <= Min(bs, |q|) && Croppable(bs, blocks[1..], q[Min(bs, |q|)..]))
  }

  /** `q` block by block, each cropped. */
  function Crops(bs: nat, blocks: seq<IntraBlock>, q: Bytes): Bytes
    requires Croppable(bs, blocks, q)
  {
    if blocks == [] then []
    else CropBlock(blocks[0], q[..Min(bs, |q|)]) + Crops(bs, blocks[1..], q[Min(bs, |q|)..])
  }

  lemma TilesTail(bs: nat, blocks: seq<IntraBlock>, offset: nat, length: nat)
    requires bs >= 1 && Tiles(0, bs, blocks, offset, length) && |blocks| >= 2
    ensures blocks[0].length < length
    ensures Tiles(0, bs, blocks[1..], offset + blocks[0].length, length - blocks[0].length)
  {
    var rest, k, j := blocks[1..], blocks[0].blockNo, |blocks| - 1;
    assert blocks[1].blockNo == k + 1 && blocks[1].skip == 0;
    TimesMono(k + 1, blocks[j].blockNo, bs);
    assert forall i :: 0 <= i < |rest| ==> rest[i] == blocks[i + 1];
  }

  lemma {:induction false} TimesMono(a: nat, b: nat, d: nat)
    requires a <= b
    ensures Times(a, d) <= Times(b, d)
    decreases b
  {
    if a < b { TimesMono(a, b - 1, d); }
  }

  /** Pieces that follow one another: the first after `skip` bytes of its block, all but the
      last up to the end of their block. */
  ghost predicate Chain(bs: nat, blocks: seq<IntraBlock>, skip: nat, length: nat) {
    && blocks != [] && blocks[0].skip == skip && skip + blocks[0].length <= bs
    && if |blocks| == 1 then blocks[0].length == length
       else
         && skip + blocks[0].length == bs && blocks[0].length < length
         && Chain(bs, blocks[1..], 0, length - blocks[0].length)
  }

  lemma {:induction false} TilesChain(bs: nat, blocks: seq<IntraBlock>, offset: nat, length: nat)
    requires bs >= 1 && length > 0 && Tiles(0, bs, blocks, offset, length)
    ensures blocks[0].skip == offset - Times(blocks[0].blockNo, bs) && Chain(bs, blocks, blocks[0].skip, length)
    decreases |blocks|
  {
    if |blocks| > 1 {
      TilesTail(bs, blocks, offset, length);
      TilesChain(bs, blocks[1..], offset + blocks[0].length, length - blocks[0].length);
    }
  }

  /** The part of `q` from `i` on, up to `j` if it reaches that far. */
  function Upto(q: Bytes, i: nat, j: nat): Bytes
    requires i <= j && i <= |q|
  {
    q[i..Min(j, |q|)]
  }

  lemma {:induction false} CropsChain(bs: nat, blocks: seq<IntraBlock>, q: Bytes, skip: nat, length: nat)
    requires Chain(bs, blocks, skip, length) && skip <= |q|
    ensures Croppable(bs, blocks, q) && Crops(bs, blocks, q) == Upto(q, skip, skip + length)
    decreases |blocks|
  {
    if |blocks| == 1 {
      assert Croppable(bs, blocks, q) && Crops(bs, blocks, q) == Upto(q, skip, skip + length) by {
        assert blocks == [blocks[0]];
        CropsOne(bs, blocks[0], q);
      }
    } else {
      CropsChain(bs, blocks[1..], q[Min(bs, |q|)..], 0, length - blocks[0].length);
      CropsCons(bs, blocks, q, length);
    }
  }

  /** The first block, whole or cut short by the end of the data. */
  lemma CropsOne(bs: nat, b: IntraBlock, q: Bytes)
    requires b.skip + b.length <= bs && b.skip <= |q|
    ensures Croppable(bs, [b], q) && Crops(bs, [b], q) == Upto(q, b.skip, b.skip + b.length)
    ensures CropBlock(b, q[..Min(bs, |q|)]) == Upto(q, b.skip, b.skip + b.length)
  {
    assert [b][1..] == [];
    var d := q[..Min(bs, |q|)];
    assert d[b.skip..Min(b.skip + b.length, |d|)] == Upto(q, b.skip, b.skip + b.length);
  }

  lemma CropsCons(bs: nat, blocks: seq<IntraBlock>, q: Bytes, length: nat)
    requires blocks != [] && blocks[0].skip + blocks[0].length == bs && blocks[0].length <= length
    requires blocks[0].skip <= |q| && Croppable(bs, blocks[1..], q[Min(bs, |q|)..])
    requires Crops(bs, blocks[1..], q[Min(bs, |q|)..]) == Upto(q[Min(bs, |q|)..], 0, length - blocks[0].length)
    ensures Croppable(bs, blocks, q) && Crops(bs, blocks, q) == Upto(q, blocks[0].skip, blocks[0].skip + length)
  {
    var b, m := blocks[0], Min(bs, |q|);
    var head, tail := CropBlock(b, q[..m]), Crops(bs, blocks[1..], q[m..]);
    assert head == Upto(q, b.skip, bs) by { CropsOne(bs, b, q); }
    assert Croppable(bs, blocks, q) && Crops(bs, blocks, q) == head + tail by { CropsStep(bs, blocks, q); }
    assert head + tail == Upto(q, b.skip, b.skip + length) by { GlueUpto(q, b.skip, bs, length); }
  }

  lemma CropsStep(bs: nat, blocks: seq<IntraBlock>, q: Bytes)
    requires blocks != [] && blocks[0].skip <= Min(bs, |q|) && Croppable(bs, blocks[1..], q[Min(bs, |q|)..])
    ensures var m := Min(bs, |q|);
      Croppable(bs, blocks, q) && Crops(bs, blocks, q) == CropBlock(blocks[0], q[..m]) + Crops(bs, blocks[1..], q[m..])
  {
  }

  lemma GlueUpto(q: Bytes, i: nat, m: nat, length: nat)
    requires i <= m && i <= |q| && m - i <= length
    ensures Upto(q, i, m) + Upto(q[Min(m, |q|)..], 0, length - (m - i)) == Upto(q, i, i + length)
  {
    if m <= |q| { Glue(q, i, m, Min(i + length, |q|)); }
  }

  lemma Glue(q: Bytes, i: nat, m: nat, j: nat)
    requires i <= m <= j <= |q|
    ensures q[i..m] + q[m..][..j - m] == q[i..j]
  {
  }

  lemma SliceOfWindow(p: Bytes, ps: nat, m: nat, i: nat, j: nat)
    requires ps <= i <= j && i <= ps + m <= |p| && (ps + m == |p| || j <= ps + m)
    ensures Upto(p[ps..][..m], i - ps, j - ps) == Upto(p, i, j)
  {
  }

  /** A read at an offset, clipped to the end of the file. */
  function ReadAt(file: Bytes, offset: nat, length: int): Bytes {
    if offset > |file| || length < 0 then [] else file[offset..][..Min(length, |file| - offset)]
  }

  lemma ReadAtBody(file: Bytes, cs: nat, cl: nat)
    requires HEADER_LEN + cs <= |file|
    ensures var c := file[HEADER_LEN..]; ReadAt(file, HEADER_LEN + cs, cl) == c[cs..][..Min(cl, |c| - cs)]
  {
    DropTwice(file, HEADER_LEN, HEADER_LEN + cs);
  }

  lemma WindowRead(e: ContentEnc, file: Bytes, fileID: Bytes, p: Bytes, k: nat, n: nat, cs: nat, cl: nat, ps: nat,
                   pl: nat)
    requires Lawful(e) && |file| > HEADER_LEN && DecryptBlocks(e, file[HEADER_LEN..], 0, fileID) == Ok(p) && ps < |p|
    requires cs == Times(k, e.CipherBS()) && cl == Times(n, e.CipherBS()) && ps == Times(k, e.plainBS)
    requires pl == Times(n, e.plainBS)
    ensures DecryptBlocks(e, ReadAt(file, HEADER_LEN + cs, cl), k, fileID) == Ok(p[ps..][..Min(pl, |p| - ps)])
  {
    DecryptorUniform(e, fileID);
    DecryptorShrinks(e, fileID);
    EachWindow(BlockDecryptor(e, fileID), e.Layout(), file[HEADER_LEN..], p, k, n, cs, cl, ps, pl);
    ReadAtBody(file, cs, cl);
  }

  /** `JointRanges`, with multiples written as repeated addition. */
  lemma JointTimes(l: Layout, blocks: seq<IntraBlock>, offset: nat, length: nat)
    requires Usable(l) && length > 0 && Tiles(0, l.plainBS, blocks, offset, length)
    ensures var k, n := blocks[0].blockNo, |blocks|;
      && JointCiphertextRange(l, blocks) == (HEADER_LEN + Times(k, l.CipherBS()), Times(n, l.CipherBS()))
      && JointPlaintextRange(l, blocks) == (Times(k, l.plainBS), Times(n, l.plainBS))
      && Times(k, l.plainBS) <= offset && offset + length <= Times(k, l.plainBS) + Times(n, l.plainBS)
  {
    JointRanges(l, blocks, offset, length);
    TimesIsProduct(blocks[0].blockNo, l.CipherBS());
    TimesIsProduct(blocks[0].blockNo, l.plainBS);
    TimesIsProduct(|blocks|, l.CipherBS());
    TimesIsProduct(|blocks|, l.plainBS);
  }

  /** The part of a file that the joint ciphertext range of `blocks` covers. */
  function JointRead(l: Layout, file: Bytes, blocks: seq<IntraBlock>): Bytes
    requires blocks != []
  {
    var (offset, length) := JointCiphertextRange(l, blocks);
    ReadAt(file, offset, length)
  }

  /** The joint range of a tiling, and where the range lies in it. */
  lemma JointReadIs(l: Layout, file: Bytes, blocks: seq<IntraBlock>, offset: nat, length: nat)
    returns (cs: nat, cl: nat, pl: nat)
    requires Usable(l) && length > 0 && Tiles(0, l.plainBS, blocks, offset, length)
    ensures JointRead(l, file, blocks) == ReadAt(file, HEADER_LEN + cs, cl)
    ensures cs == Times(blocks[0].blockNo, l.CipherBS()) && cl == Times(|blocks|, l.CipherBS())
    ensures pl == Times(|blocks|, l.plainBS) && blocks[0].skip + length <= pl
  {
    cs, cl := Times(blocks[0].blockNo, l.CipherBS()), Times(|blocks|, l.CipherBS());
    pl := Times(|blocks|, l.plainBS);
    JointTimes(l, blocks, offset, length);
  }

  /** Decrypting the joint range gives the plaintext from the first block on, as far as the
      blocks and the plaintext reach. */
  lemma JointDecrypts(e: ContentEnc, file: Bytes, fileID: Bytes, p: Bytes, blocks: seq<IntraBlock>, offset: nat,
                      length: nat) returns (m: nat)
    requires Lawful(e) && |file| > HEADER_LEN && DecryptBlocks(e, file[HEADER_LEN..], 0, fileID) == Ok(p)
    requires length > 0 && offset < |p| && Tiles(0, e.plainBS, blocks, offset, length)
    ensures var ps := offset - blocks[0].skip;
      && 0 <= ps && blocks[0].skip <= m <= |p| - ps && (ps + m == |p| || blocks[0].skip + length <= m)
      && DecryptBlocks(e, JointRead(e.Layout(), file, blocks), blocks[0].blockNo, fileID) == Ok(p[ps..][..m])
  {
    var ps: nat := offset - blocks[0].skip;
    var cs, cl, pl := JointReadIs(e.Layout(), file, blocks, offset, length);
    m := Min(pl, |p| - ps);
    WindowRead(e, file, fileID, p, blocks[0].blockNo, |blocks|, cs, cl, ps, pl);
  }

  /** Cropping what was read of the window of `p` from `ps` on. */
  lemma CropRead(bs: nat, blocks: seq<IntraBlock>, p: Bytes, skip: nat, length: nat, ps: nat, m: nat,
                 read: Result<Bytes>)
    requires Chain(bs, blocks, skip, length) && skip <= m && ps + m <= |p| && (ps + m == |p| || skip + length <= m)
    requires read == Ok(p[ps..][..m])
    ensures Croppable(bs, blocks, read.value)
    ensures Crops(bs, blocks, read.value) == Upto(p, ps + skip, ps + skip + length)
  {
    CropsChain(bs, blocks, read.value, skip, length);
    SliceOfWindow(p, ps, m, ps + skip, ps + skip + length);
  }

  lemma CropTiles(bs: nat, blocks: seq<IntraBlock>, p: Bytes, offset: nat, length: nat, ps: nat, m: nat,
                  read: Result<Bytes>)
    requires bs >= 1 && length > 0 && Tiles(0, bs, blocks, offset, length) && ps + blocks[0].skip == offset
    requires blocks[0].skip <= m && ps + m <= |p| && (ps + m == |p| || blocks[0].skip + length <= m)
    requires read == Ok(p[ps..][..m])
    ensures Croppable(bs, blocks, read.value) && Crops(bs, blocks, read.value) == Upto(p, offset, offset + length)
  {
    TilesChain(bs, blocks, offset, length);
    CropRead(bs, blocks, p, blocks[0].skip, length, ps, m, read);
  }

  /** A read of any range that begins inside any file that decrypts, holes included: decrypting
      the joint ciphertext range, clipped to the end of the file, and cropping each block gives
      exactly that part of the plaintext, cut off where the plaintext ends. */
  lemma RangeRead(e: ContentEnc, file: Bytes, fileID: Bytes, p: Bytes, blocks: seq<IntraBlock>, offset: nat,
                  length: nat)
    requires Lawful(e) && ReadFileID(file) == Ok(fileID) && DecryptBlocks(e, file[HEADER_LEN..], 0, fileID) == Ok(p)
    requires length > 0 && offset < |p| && Tiles(0, e.plainBS, blocks, offset, length)
    ensures var read := DecryptBlocks(e, JointRead(e.Layout(), file, blocks), blocks[0].blockNo, fileID);
      && read.Ok?
      && Croppable(e.plainBS, blocks, read.value)
      && Crops(e.plainBS, blocks, read.value) == p[offset..Min(offset + length, |p|)]
  {
    var m := JointDecrypts(e, file, fileID, p, blocks, offset, length);
    CropTiles(e.plainBS, blocks, p, offset, length, offset - blocks[0].skip, m,
              DecryptBlocks(e, JointRead(e.Layout(), file, blocks), blocks[0].blockNo, fileID));
  }

  // ------------------------------------------------------------- what was accepted was written

  /** `c` is on disk as block `k` of plaintext `q`: a hole for zero bytes, or the encryption of `q`
      under the nonce in front of it, which is not the reserved one. */
  predicate WrittenAs(e: ContentEnc, c: Bytes, q: Bytes, k: nat, fileID: Bytes) {
    || (c == Zeros(e.CipherBS()) && q == Zeros(e.plainBS))
    || (|c| >= e.ivLen && GoodNonce(e, c[..e.ivLen]) && c == EncryptBlock(e, q, k, fileID, c[..e.ivLen]))
  }

  lemma OneBlock(e: ContentEnc, c: Bytes, k: nat, fileID: Bytes)
    requires Lawful(e) && 0 < |c| <= e.CipherBS() && DecryptBlocks(e, c, k, fileID).Ok?
    requires DecryptBlocks(e, c, k, fileID).value != []
    ensures WrittenAs(e, c, DecryptBlocks(e, c, k, fileID).value, k, fileID)
  {
    assert c[..|c|] == c && c[|c|..] == [];
    var f, block := BlockDecryptor(e, fileID), DecryptBlock(e, c, k, fileID);
    assert f(c[..|c|], k) == block;
    assert EachBlock(f, e.CipherBS(), c[|c|..], k + 1) == Ok([]);
    assert DecryptBlocks(e, c, k, fileID) == Ok(block.value + []);
    assert block.value + [] == block.value;
    BlockDecrypted(e, c, k, fileID);
  }

  /** Whatever `decryptFile` accepts has a packed header with a non-zero file ID. */
  lemma AcceptedHeader(e: ContentEnc, file: Bytes) returns (id: Bytes)
    requires Lawful(e) && DecryptFile(e, file).Returns? && DecryptFile(e, file).result.Ok?
    ensures |file| > HEADER_LEN && GoodID(id) && file[..HEADER_LEN] == Packed(FileHeader(VERSION, id))
    ensures DecryptFile(e, file).result == DecryptBlocks(e, file[HEADER_LEN..], 0, id)
  {
    PackParse(file[..HEADER_LEN]);
    id := ReadFileID(file).value;
  }

  /** And each block of the result is on disk behind the header, at its place and under its own
      number: nothing else is accepted. */
  lemma AcceptedBlock(e: ContentEnc, body: Bytes, id: Bytes, p: Bytes, k: nat, cs: nat, ps: nat)
    requires Lawful(e) && DecryptBlocks(e, body, 0, id) == Ok(p)
    requires cs == k * e.CipherBS() && ps == k * e.plainBS < |p|
    ensures cs < |body|
    ensures WrittenAs(e, body[cs..][..Min(e.CipherBS(), |body| - cs)], p[ps..][..Min(e.plainBS, |p| - ps)], k, id)
  {
    var l := e.Layout();
    TimesIsProduct(k, e.CipherBS());
    TimesIsProduct(k, e.plainBS);
    DecryptorUniform(e, id);
    DecryptorShrinks(e, id);
    EachReach(BlockDecryptor(e, id), l, body, 0, k);
    TimesOne(e.CipherBS());
    TimesOne(e.plainBS);
    EachWindow(BlockDecryptor(e, id), l, body, p, k, 1, cs, e.CipherBS(), ps, e.plainBS);
    OneBlock(e, body[cs..][..Min(e.CipherBS(), |body| - cs)], k, id);
  }

  lemma TimesOne(d: nat)
    ensures Times(1, d) == d
  {
    assert Times(0, d) == 0;
  }
}
