/** Splitting byte ranges into blocks (gocrypt/contentenc/offsets.go and intrablock.go). */
module ContentRanges {
  import opened Base
  import opened ContentLayout

  /** Part of block `blockNo`: `length` bytes after the first `skip`. */
  datatype IntraBlock = IntraBlock(blockNo: nat, skip: nat, length: nat)

  /** The piece of the range that lies in its first block; blocks of `unit` bytes start at
      `origin` (0 for plaintext, the header length for ciphertext). */
  function FirstPiece(origin: nat, unit: nat, offset: nat, length: nat): IntraBlock
    requires unit >= 1 && offset >= origin
  {
    var blockNo := (offset - origin) / unit;
    DivBounds(offset - origin, unit);
    var skip := offset - origin - blockNo * unit;
    IntraBlock(blockNo, skip, Min(length, unit - skip))
  }

  lemma FirstPieceBounds(origin: nat, unit: nat, offset: nat, length: nat)
    requires unit >= 1 && offset >= origin && length >= 1
    ensures var b := FirstPiece(origin, unit, offset, length);
      && Times(b.blockNo, unit) + b.skip == offset - origin && b.skip < unit
      && 1 <= b.length <= length && b.skip + b.length <= unit
      && (b.length < length ==> b.skip + b.length == unit)
  {
    DivBounds(offset - origin, unit);
    TimesIsProduct((offset - origin) / unit, unit);
  }

  /** Behind the end of block `last`, the next piece starts block `last + 1`. */
  lemma NextPiece(origin: nat, unit: nat, offset: nat, length: nat, last: nat)
    requires unit >= 1 && offset >= origin && length >= 1 && Times(last, unit) + unit == offset - origin
    ensures var b := FirstPiece(origin, unit, offset, length); b.blockNo == last + 1 && b.skip == 0
  {
    TimesIsProduct(last + 1, unit);
    DivUnique(offset - origin, unit, last + 1);
  }

  /** The pieces tile the range: consecutive blocks, a skip only in the first, all blocks
      but the last used up to their end, and the right start and end. */
  ghost predicate Tiles(origin: nat, unit: nat, blocks: seq<IntraBlock>, offset: nat, length: nat) {
    && (blocks == [] <==> length == 0)
    && (blocks != [] ==>
          && Times(blocks[0].blockNo, unit) + blocks[0].skip == offset - origin
          && var last := blocks[|blocks| - 1];
             Times(last.blockNo, unit) + last.skip + last.length == offset - origin + length)
    && (forall j :: 0 <= j < |blocks| ==> blocks[j].length >= 1 && blocks[j].skip + blocks[j].length <= unit)
    && (forall j :: 0 <= j < |blocks| ==> blocks[j].blockNo == blocks[0].blockNo + j)
    && (forall j :: 1 <= j < |blocks| ==> blocks[j].skip == 0)
    && (forall j :: 0 <= j < |blocks| - 1 ==> blocks[j].skip + blocks[j].length == unit)
  }

  /** The start and the end of a tiling, as products. */
  lemma TilesEnds(origin: nat, unit: nat, blocks: seq<IntraBlock>, offset: nat, length: nat)
    requires Tiles(origin, unit, blocks, offset, length) && blocks != []
    ensures blocks[0].blockNo * unit + blocks[0].skip == offset - origin
    ensures var last := blocks[|blocks| - 1]; last.blockNo * unit + last.skip + last.length == offset - origin + length
  {
    TimesIsProduct(blocks[0].blockNo, unit);
    TimesIsProduct(blocks[|blocks| - 1].blockNo, unit);
  }

  /** Appending the next piece to a tiling that ends at a block boundary. */
  lemma TilesSnoc(origin: nat, unit: nat, blocks: seq<IntraBlock>, offset: nat, done: nat, rest: nat)
    requires unit >= 1 && offset >= origin && rest >= 1 && Tiles(origin, unit, blocks, offset, done)
    requires AtBoundary(unit, blocks)
    ensures var b := FirstPiece(origin, unit, offset + done, rest);
      Tiles(origin, unit, blocks + [b], offset, done + b.length)
  {
    FirstPieceBounds(origin, unit, offset + done, rest);
    if blocks != [] {
      NextPiece(origin, unit, offset + done, rest, blocks[|blocks| - 1].blockNo);
    }
  }

  /** The number of the last block that starts below the 64-bit limit. */
  function MaxBlock(origin: nat, unit: nat): nat
    requires unit >= 1 && origin < UINT64
  {
    (UINT64 - 1 - origin) / unit
  }

  /** The range does not begin inside the header, and each of its blocks starts below the
      64-bit limit. */
  predicate InRange(origin: nat, unit: nat, start: nat, total: nat)
    requires unit >= 1 && origin < UINT64
  {
    total == 0 || (start >= origin && (start - origin + total - 1) / unit <= MaxBlock(origin, unit))
  }

  lemma DivMono(x: nat, y: nat, d: nat)
    requires d >= 1 && x <= y
    ensures x / d <= y / d
  {
    DivBounds(x, d);
    DivBounds(y, d);
    assert (x / d - y / d) * d == (x / d) * d - (y / d) * d < d;
    CancelStrict(x / d - y / d, d);
  }

  /** As long as something is left of a range in range, the offset does not wrap around. */
  lemma OffsetStaysLow(origin: nat, unit: nat, start: nat, total: nat, pos: nat, length: nat)
    requires unit >= 1 && origin <= start <= pos && origin < UINT64 && pos + length == start + total
    requires total > 0 && InRange(origin, unit, start, total)
    requires var b := FirstPiece(origin, unit, pos, length); 1 <= b.length < length
    ensures pos + FirstPiece(origin, unit, pos, length).length < UINT64
  {
    var b := FirstPiece(origin, unit, pos, length);
    FirstPieceBounds(origin, unit, pos, length);
    var next := pos + b.length - origin;
    assert next == (b.blockNo + 1) * unit by { TimesIsProduct(b.blockNo + 1, unit); }
    DivMono(next, start - origin + total - 1, unit);
    DivUnique(next, unit, b.blockNo + 1);
    MulMono(b.blockNo + 1, MaxBlock(origin, unit), unit);
    DivBounds(UINT64 - 1 - origin, unit);
  }

  /** Where the loop is: on an in-range range the 64-bit offset is the mathematical one, and
      what is done tiles the part up to it. */
  ghost predicate Progress(origin: nat, unit: nat, blocks: seq<IntraBlock>, start: nat, total: nat, offset: nat,
                           length: nat)
    requires unit >= 1 && origin < UINT64
  {
    InRange(origin, unit, start, total) ==>
      && length <= total && Tiles(origin, unit, blocks, start, total - length)
      && (length > 0 ==> start >= origin && offset == start + total - length && AtBoundary(unit, blocks))
  }

  lemma ProgressNext(origin: nat, unit: nat, blocks: seq<IntraBlock>, start: nat, total: nat, offset: nat, length: nat)
    requires unit >= 1 && origin <= offset < UINT64 && 1 <= length <= total
    requires Progress(origin, unit, blocks, start, total, offset, length)
    ensures var b := FirstPiece(origin, unit, offset, length);
      && 1 <= b.length <= length
      && Progress(origin, unit, blocks + [b], start, total, U64(offset + b.length), length - b.length)
  {
    FirstPieceBounds(origin, unit, offset, length);
    if InRange(origin, unit, start, total) {
      var b := FirstPiece(origin, unit, offset, length);
      TilesNext(origin, unit, blocks, start, offset, length);
      if b.length < length {
        OffsetStaysLow(origin, unit, start, total, offset, length);
        ContentLayout.Fits(offset + b.length);
      }
    }
  }

  ghost predicate LowBlocks(origin: nat, unit: nat, blocks: seq<IntraBlock>)
    requires unit >= 1 && origin < UINT64
  {
    forall j :: 0 <= j < |blocks| ==> blocks[j].blockNo <= MaxBlock(origin, unit)
  }

  /** Only a range in range can be tiled by blocks below the limit. */
  lemma LowTiling(origin: nat, unit: nat, blocks: seq<IntraBlock>, start: nat, total: nat)
    requires unit >= 1 && origin < UINT64 && (total > 0 ==> start >= origin) && LowBlocks(origin, unit, blocks)
    ensures Tiles(origin, unit, blocks, start, total) ==> InRange(origin, unit, start, total)
  {
    if total > 0 && Tiles(origin, unit, blocks, start, total) {
      LastBlockNo(origin, unit, blocks, start, total);
    }
  }

  /** One turn of the loop shared by both explosions. */
  method ExplodeOne(origin: nat, unit: nat, blocks: seq<IntraBlock>, ghost start: nat, ghost total: nat, offset: nat,
                    length: nat)
    returns (blocks': seq<IntraBlock>, offset': nat, length': nat)
    requires unit >= 1 && origin <= offset < UINT64 && 1 <= length <= total
    requires LowBlocks(origin, unit, blocks) && Progress(origin, unit, blocks, start, total, offset, length)
    ensures offset' < UINT64 && length' < length && LowBlocks(origin, unit, blocks')
    ensures Progress(origin, unit, blocks', start, total, offset', length')
  {
    var next := FirstPiece(origin, unit, offset, length);
    ProgressNext(origin, unit, blocks, start, total, offset, length);
    DivMono(offset - origin, UINT64 - 1 - origin, unit);
    Fits(offset + next.length);
    return blocks + [next], U64(offset + next.length), length - next.length;
  }

  /** The loop shared by both explosions, on unsigned 64-bit integers. It panics on an offset
      inside the header, and `offset` can wrap around. The result is the tiling of the range
      exactly if the range is in range. */
  method Explode(origin: nat, unit: nat, start: nat, total: nat) returns (panicked: bool, blocks: seq<IntraBlock>)
    requires unit >= 1 && origin < UINT64 && start < UINT64
    ensures !panicked && Tiles(origin, unit, blocks, start, total) <==> InRange(origin, unit, start, total)
    ensures origin == 0 ==> !panicked
  {
    var offset: nat, length: nat := start, total;
    blocks := [];
    while length > 0
      invariant offset < UINT64 && length <= total && (start < origin ==> length == total && offset == start)
      invariant LowBlocks(origin, unit, blocks)
      invariant Progress(origin, unit, blocks, start, total, offset, length)
      decreases length
    {
      if offset < origin {
        return true, blocks;
      }
      blocks, offset, length := ExplodeOne(origin, unit, blocks, start, total, offset, length);
    }
    LowTiling(origin, unit, blocks, start, total);
    panicked := false;
  }

  ghost predicate AtBoundary(unit: nat, blocks: seq<IntraBlock>) {
    blocks != [] ==> var last := blocks[|blocks| - 1]; last.skip + last.length == unit
  }

  /** One turn of the loop. */
  lemma TilesNext(origin: nat, unit: nat, blocks: seq<IntraBlock>, start: nat, offset: nat, length: nat)
    requires unit >= 1 && start >= origin && offset >= start && length >= 1
    requires Tiles(origin, unit, blocks, start, offset - start) && AtBoundary(unit, blocks)
    ensures var next := FirstPiece(origin, unit, offset, length);
      && 1 <= next.length <= length
      && Tiles(origin, unit, blocks + [next], start, offset + next.length - start)
      && (next.length < length ==> AtBoundary(unit, blocks + [next]))
  {
    FirstPieceBounds(origin, unit, offset, length);
    TilesSnoc(origin, unit, blocks, start, offset - start, length);
  }

  method ExplodePlainRange(l: Layout, offset: nat, length: nat) returns (blocks: seq<IntraBlock>)
    requires Usable(l) && offset < UINT64
    ensures Tiles(0, l.plainBS, blocks, offset, length) <==> InRange(0, l.plainBS, offset, length)
  {
    var panicked;
    panicked, blocks := Explode(0, l.plainBS, offset, length);
  }

  method ExplodeCipherRange(l: Layout, offset: nat, length: nat) returns (panicked: bool, blocks: seq<IntraBlock>)
    requires Usable(l) && offset < UINT64
    ensures !panicked && Tiles(HEADER_LEN, l.CipherBS(), blocks, offset, length)
      <==> InRange(HEADER_LEN, l.CipherBS(), offset, length)
  {
    panicked, blocks := Explode(HEADER_LEN, l.CipherBS(), offset, length);
  }

  /** Ranges that end below the 64-bit limit are in range. */
  lemma EndsLow(origin: nat, unit: nat, start: nat, total: nat)
    requires unit >= 1 && origin < UINT64 && (total > 0 ==> start >= origin) && start + total <= UINT64
    ensures InRange(origin, unit, start, total)
  {
    if total > 0 { DivMono(start - origin + total - 1, UINT64 - 1 - origin, unit); }
  }

  /** A tiling is determined by the range, so the loops compute the only possible answer. */
  lemma TilingUnique(origin: nat, unit: nat, a: seq<IntraBlock>, b: seq<IntraBlock>, offset: nat, length: nat)
    requires unit >= 1 && offset >= origin
    requires Tiles(origin, unit, a, offset, length) && Tiles(origin, unit, b, offset, length)
    ensures a == b
  {
    if length > 0 {
      var x := offset - origin;
      TilesEnds(origin, unit, a, offset, length);
      TilesEnds(origin, unit, b, offset, length);
      DivUnique(x, unit, a[0].blockNo);
      DivUnique(x, unit, b[0].blockNo);
      LastBlockNo(origin, unit, a, offset, length);
      LastBlockNo(origin, unit, b, offset, length);
      forall j | 0 <= j < |a| ensures a[j] == b[j] {
        assert a[j].blockNo == b[j].blockNo && a[j].skip == b[j].skip;
      }
    }
  }

  lemma LastBlockNo(origin: nat, unit: nat, blocks: seq<IntraBlock>, offset: nat, length: nat)
    requires unit >= 1 && offset >= origin && length > 0 && Tiles(origin, unit, blocks, offset, length)
    ensures blocks[|blocks| - 1].blockNo == (offset - origin + length - 1) / unit
  {
    var last := blocks[|blocks| - 1];
    TilesEnds(origin, unit, blocks, offset, length);
    DivUnique(offset - origin + length - 1, unit, last.blockNo);
  }

  predicate IsPartial(l: Layout, b: IntraBlock) {
    b.skip > 0 || b.length < l.plainBS
  }

  /** A piece is partial unless it is its whole block, and only the ends of a tiling can be. */
  lemma OnlyEndsPartial(l: Layout, blocks: seq<IntraBlock>, offset: nat, length: nat, j: nat)
    requires Usable(l) && Tiles(0, l.plainBS, blocks, offset, length) && j < |blocks|
    ensures !IsPartial(l, blocks[j]) <==> blocks[j].skip == 0 && blocks[j].length == l.plainBS
    ensures 0 < j < |blocks| - 1 ==> !IsPartial(l, blocks[j])
    ensures j == 0 && |blocks| > 1 ==> (IsPartial(l, blocks[0]) <==> offset % l.plainBS != 0)
  {
    if j == 0 {
      TilesEnds(0, l.plainBS, blocks, offset, length);
      ModUnique(offset, l.plainBS, blocks[0].blockNo, blocks[0].skip);
    }
  }

  /** `CropBlock`. Slicing panics when the block is shorter than the skip. */
  function CropBlock(b: IntraBlock, d: Bytes): Bytes
    requires b.skip <= |d|
  {
    if |d| < b.skip + b.length then d[b.skip..] else d[b.skip..b.skip + b.length]
  }

  function JointCiphertextRange(l: Layout, blocks: seq<IntraBlock>): (int, int)
    requires blocks != []
  {
    var offset := BlockNoToCipherOff(l, blocks[0].blockNo);
    var offsetLast := BlockNoToCipherOff(l, blocks[|blocks| - 1].blockNo);
    (offset, offsetLast + l.CipherBS() - offset)
  }

  function JointPlaintextRange(l: Layout, blocks: seq<IntraBlock>): (int, int)
    requires blocks != []
  {
    var offset := BlockNoToPlainOff(l, blocks[0].blockNo);
    (offset, BlockNoToPlainOff(l, blocks[|blocks| - 1].blockNo) + l.plainBS - offset)
  }

  /** The joint ranges of a tiling are its blocks, whole: they start at the first block,
      contain one unit per block, and the plaintext one covers the range. */
  lemma JointRanges(l: Layout, blocks: seq<IntraBlock>, offset: nat, length: nat)
    requires Usable(l) && length > 0 && Tiles(0, l.plainBS, blocks, offset, length)
    ensures var (po, pl) := JointPlaintextRange(l, blocks); var (co, cl) := JointCiphertextRange(l, blocks);
      && po == blocks[0].blockNo * l.plainBS && pl == |blocks| * l.plainBS
      && co == HEADER_LEN + blocks[0].blockNo * l.CipherBS() && cl == |blocks| * l.CipherBS()
      && po <= offset && offset + length <= po + pl
  {
    var k, n := blocks[0].blockNo, |blocks|;
    assert blocks[n - 1].blockNo == k + (n - 1);
    TilesEnds(0, l.plainBS, blocks, offset, length);
    LastUnit(l.plainBS, k, n);
    LastUnit(l.CipherBS(), k, n);
  }

  lemma LastUnit(unit: nat, k: nat, n: nat)
    requires n >= 1
    ensures (k + (n - 1)) * unit + unit == k * unit + n * unit
  {
  }
}
