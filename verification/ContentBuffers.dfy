/** Memory of the content decoder: buffer pools (gocrypt/contentenc/bpool.go), the decryption
    loop that uses them (content.go) and `decryptFile` (filetree/decrypt.go). */
module ContentBuffers {
  import opened Base
  import opened ContentLayout
  import opened ContentRanges
  import opened ContentCodec

  /** A pool of byte slices of one capacity. `free` holds the slices that are not in use, as
      often as they were put back. */
  class BPool {
    const sliceLen: nat
    var free: multiset<array<byte>>

    ghost predicate Valid()
      reads this
    {
      forall s :: s in free ==> s.Length == sliceLen
    }

    /** No slice was put back twice. */
    ghost predicate Distinct()
      reads this
    {
      forall s :: s in free ==> free[s] == 1
    }

    constructor (sliceLen: nat)
      ensures Valid() && Distinct() && this.sliceLen == sliceLen && free == multiset{}
    {
      this.sliceLen := sliceLen;
      free := multiset{};
    }

    /** Any free slice, or a new one. */
    method Get() returns (s: array<byte>)
      requires Valid()
      modifies this
      ensures Valid() && s.Length == sliceLen
      ensures free == old(free) - multiset{s} && (s in old(free) || fresh(s))
      ensures old(Distinct()) ==> Distinct() && s !in free
    {
      if free != multiset{} {
        s :| s in free;
        if * {
          free := free - multiset{s};
          return;
        }
      }
      s := new byte[sliceLen](_ => 0);
    }

    /** The source panics on a slice of another capacity. It does not notice a slice that is
        in the pool already. */
    method Put(s: array<byte>)
      requires Valid() && s.Length == sliceLen
      modifies this
      ensures Valid() && free == old(free) + multiset{s}
      ensures old(Distinct()) && s !in old(free) ==> Distinct()
    {
      free := free + multiset{s};
    }
  }

  /** Appending to `dst[:0]`, as `Seal` and `Open` do: in place if the capacity suffices. */
  method AppendTo(dst: array<byte>, text: Bytes) returns (out: array<byte>)
    modifies dst
    ensures |text| <= out.Length && out[..|text|] == text
    ensures if |text| <= dst.Length then out == dst else fresh(out) && out.Length == |text|
  {
    if |text| <= dst.Length {
      out := dst;
    } else {
      out := new byte[|text|](_ => 0);
    }
    for i := 0 to |text|
      invariant out[..i] == text[..i]
    {
      out[i] := text[i];
    }
    assert text[..|text|] == text;
  }

  /** `bytes.Buffer.Write`: the buffer moves to an array of more than twice the capacity when
      it is full. */
  method Write(data: array<byte>, len: nat, src: array<byte>, n: nat) returns (out: array<byte>)
    requires len <= data.Length && n <= src.Length && data != src
    modifies data
    ensures len + n <= out.Length && out[..len + n] == old(data[..len]) + old(src[..n])
    ensures if len + n <= data.Length then out == data else fresh(out) && out.Length >= 2 * data.Length + n
  {
    var before := data[..len];
    if len + n <= data.Length {
      out := data;
    } else {
      out := new byte[2 * data.Length + n](i => if 0 <= i < len then before[i] else 0);
    }
    assert out[..len] == before;
    for i := 0 to n
      invariant out[..len + i] == before + src[..i]
    {
      out[len + i] := src[i];
    }
  }

  /** The authenticated part of `DecryptBlock`: the plaintext goes into a slice from the pool if
      it fits. */
  method OpenTo(e: ContentEnc, pool: BPool, c: Bytes, ad: Bytes) returns (r: Option<array<byte>>, len: nat)
    requires pool.Valid() && pool.Distinct() && |c| >= e.ivLen
    modifies pool, pool.free
    ensures pool.Valid() && pool.Distinct() && pool.free <= old(pool.free)
    ensures var text := e.aead.open(c[..e.ivLen], c[e.ivLen..], ad);
      && (r.None? <==> text.None?)
      && (r.Some? ==>
            && len <= r.value.Length && r.value[..len] == text.value
            && r.value !in pool.free && (r.value in old(pool.free) || fresh(r.value))
            && (|text.value| <= pool.sliceLen ==> r.value.Length == pool.sliceLen))
  {
    var plaintext := pool.Get();
    var text := e.aead.open(c[..e.ivLen], c[e.ivLen..], ad);
    if text.None? {
      return None, 0;
    }
    var out := AppendTo(plaintext, text.value);
    return Some(out), |text.value|;
  }

  /** The source's `DecryptBlock`: on success the caller owns the slice with the plaintext. For
      a non-empty block of at most the block size it has exactly the pool's capacity. */
  method DecryptBlockTo(e: ContentEnc, pool: BPool, c: Bytes, blockNo: nat, fileID: Bytes)
    returns (r: Result<array<byte>>, len: nat)
    requires Lawful(e) && pool.Valid() && pool.Distinct() && pool.sliceLen == e.plainBS
    modifies pool, pool.free
    ensures pool.Valid() && pool.Distinct() && pool.free <= old(pool.free)
    ensures DecryptBlock(e, c, blockNo, fileID).Err? ==> r == Err(DecryptBlock(e, c, blockNo, fileID).error)
    ensures DecryptBlock(e, c, blockNo, fileID).Ok? ==>
      && r.Ok? && len <= r.value.Length && r.value[..len] == DecryptBlock(e, c, blockNo, fileID).value
      && r.value !in pool.free && (r.value in old(pool.free) || fresh(r.value))
      && (0 < |c| <= e.CipherBS() ==> r.value.Length == pool.sliceLen)
  {
    if c == [] {
      var empty := new byte[0];
      return Ok(empty), 0;
    }
    if c == Zeros(e.CipherBS()) {
      var zeros := new byte[e.plainBS](_ => 0);
      assert zeros[..e.plainBS] == Zeros(e.plainBS);
      return Ok(zeros), e.plainBS;
    }
    if |c| < e.ivLen {
      return Err(Error(4)), 0;
    }
    if c[..e.ivLen] == Zeros(e.ivLen) {
      return Err(Error(5)), 0;
    }
    var text, n := OpenTo(e, pool, c, ConcatAD(blockNo, fileID));
    if text.None? {
      return Err(Error(6)), 0;
    }
    BlockDecrypted(e, c, blockNo, fileID);
    return Ok(text.value), n;
  }

  /** The error of a result, if it is one. */
  function ErrorOf<T>(r: Result<T>): Option<Error> {
    if r.Ok? then None else Some(r.error)
  }

  /** What is left to decrypt determines the whole result. */
  ghost predicate Continues(e: ContentEnc, c: Bytes, first: nat, fileID: Bytes, decrypted: Bytes, rest: Bytes,
                            blockNo: nat)
    requires e.plainBS >= 1
  {
    && ErrorOf(DecryptBlocks(e, c, first, fileID)) == ErrorOf(DecryptBlocks(e, rest, blockNo, fileID))
    && DecryptedPrefix(e, c, first, fileID) == decrypted + DecryptedPrefix(e, rest, blockNo, fileID)
  }

  lemma ContinueStart(e: ContentEnc, c: Bytes, first: nat, fileID: Bytes)
    requires e.plainBS >= 1
    ensures Continues(e, c, first, fileID, [], c, first)
  {
    var p := DecryptedPrefix(e, c, first, fileID);
    assert [] + p == p;
  }

  lemma ContinueWith(e: ContentEnc, c: Bytes, first: nat, fileID: Bytes, decrypted: Bytes, rest: Bytes, blockNo: nat)
    requires e.plainBS >= 1 && rest != [] && Continues(e, c, first, fileID, decrypted, rest, blockNo)
    ensures var n := Min(|rest|, e.CipherBS()); var block := DecryptBlock(e, rest[..n], blockNo, fileID);
      if block.Err?
      then
        && ErrorOf(DecryptBlocks(e, c, first, fileID)) == Some(block.error)
        && DecryptedPrefix(e, c, first, fileID) == decrypted
      else Continues(e, c, first, fileID, decrypted + block.value, rest[n..], blockNo + 1)
  {
    var n := Min(|rest|, e.CipherBS());
    var block, left := DecryptBlock(e, rest[..n], blockNo, fileID), DecryptedPrefix(e, rest[n..], blockNo + 1, fileID);
    if block.Err? {
      assert decrypted + [] == decrypted;
    } else {
      assert decrypted + (block.value + left) == decrypted + block.value + left;
    }
  }

  /** One turn of the loop: decrypt a block, write it to the buffer, return its slice. */
  method AppendBlock(e: ContentEnc, pool: BPool, data: array<byte>, len: nat, c: Bytes, blockNo: nat, fileID: Bytes)
    returns (r: Result<array<byte>>, len': nat)
    requires Lawful(e) && pool.Valid() && pool.Distinct() && pool.sliceLen == e.plainBS && 0 < |c| <= e.CipherBS()
    requires len <= data.Length && data.Length > pool.sliceLen
    modifies pool, pool.free, data
    ensures pool.Valid() && pool.Distinct() && forall s :: s in pool.free ==> s in old(pool.free) || fresh(s)
    ensures DecryptBlock(e, c, blockNo, fileID).Err? ==>
      r == Err(DecryptBlock(e, c, blockNo, fileID).error) && data[..len] == old(data[..len])
    ensures DecryptBlock(e, c, blockNo, fileID).Ok? ==>
      && r.Ok? && len' <= r.value.Length
      && r.value[..len'] == old(data[..len]) + DecryptBlock(e, c, blockNo, fileID).value
      && (r.value == data || (fresh(r.value) && r.value.Length >= 2 * data.Length))
  {
    var block, m := DecryptBlockTo(e, pool, c, blockNo, fileID);
    if block.Err? {
      return block, 0;
    }
    var out := Write(data, len, block.value, m);
    pool.Put(block.value);
    return Ok(out), len + m;
  }

  /** The decryption loop, writing to the buffer `start`. It returns the first error, if there
      is one, and in either case what it has decrypted until then. */
  method DecryptLoop(e: ContentEnc, pool: BPool, start: array<byte>, c: Bytes, first: nat, fileID: Bytes)
    returns (err: Option<Error>, data: array<byte>, len: nat)
    requires Lawful(e) && pool.Valid() && pool.Distinct() && pool.sliceLen == e.plainBS < start.Length
    modifies pool, pool.free, start
    ensures pool.Valid() && pool.Distinct() && forall s :: s in pool.free ==> s in old(pool.free) || fresh(s)
    ensures err == ErrorOf(DecryptBlocks(e, c, first, fileID))
    ensures len <= data.Length && data[..len] == DecryptedPrefix(e, c, first, fileID)
    ensures data == start || (fresh(data) && data.Length >= 2 * start.Length)
  {
    data, err, len := start, None, 0;
    var rest, blockNo := c, first;
    ContinueStart(e, c, first, fileID);
    assert data[..0] == [];
    while |rest| > 0
      invariant pool.Valid() && pool.Distinct() && blockNo >= first
      invariant forall s :: s in pool.free ==> s in old(pool.free) || fresh(s)
      invariant data == start || (fresh(data) && data.Length >= 2 * start.Length)
      invariant len <= data.Length && Continues(e, c, first, fileID, data[..len], rest, blockNo)
      decreases |rest|
    {
      var n := Min(|rest|, e.CipherBS());
      ContinueWith(e, c, first, fileID, data[..len], rest, blockNo);
      var next, more := AppendBlock(e, pool, data, len, rest[..n], blockNo, fileID);
      if next.Err? {
        err := Some(next.error);
        return;
      }
      data, len := next.value, more;
      rest, blockNo := rest[n..], blockNo + 1;
    }
  }

  /** `DecryptBlocks`: the output is in a slice that no pool holds, one of the request pool's
      capacity if it fits, otherwise a new one of at least twice that. */
  method DecryptBlocksTo(e: ContentEnc, blockPool: BPool, reqPool: BPool, c: Bytes, first: nat, fileID: Bytes)
    returns (err: Option<Error>, data: array<byte>, len: nat)
    requires Lawful(e) && blockPool.Valid() && reqPool.Valid() && blockPool.Distinct() && reqPool.Distinct()
    requires blockPool.sliceLen == e.plainBS && reqPool.sliceLen == MAX_KERNEL_WRITE + e.plainBS
    modifies blockPool, blockPool.free, reqPool, reqPool.free
    ensures blockPool.Valid() && reqPool.Valid() && blockPool.Distinct() && reqPool.Distinct()
    ensures err == ErrorOf(DecryptBlocks(e, c, first, fileID))
    ensures len <= data.Length && data[..len] == DecryptedPrefix(e, c, first, fileID)
    ensures data !in blockPool.free && data !in reqPool.free
    ensures data.Length == reqPool.sliceLen || data.Length >= 2 * reqPool.sliceLen
    ensures fresh(data) || (data in old(reqPool.free) && data.Length == reqPool.sliceLen)
  {
    var start := reqPool.Get();
    err, data, len := DecryptLoop(e, blockPool, start, c, first, fileID);
  }

  datatype Status = Done | Failed(error: Error) | Panicked

  /** A plaintext range from 0 starts at the first block, right behind the header. */
  lemma RangeFromStart(l: Layout, blocks: seq<IntraBlock>, length: nat)
    requires Usable(l) && length > 0 && Tiles(0, l.plainBS, blocks, 0, length)
    ensures blocks[0].blockNo == 0 && JointCiphertextRange(l, blocks).0 == HEADER_LEN
  {
    TilesEnds(0, l.plainBS, blocks, 0, length);
    DivUnique(0, l.plainBS, blocks[0].blockNo);
  }

  /** Where the first block of the plaintext range from 0 is stored, and its number. Indexing
      the first block panics if there is none. */
  method FirstBlock(l: Layout, plainLength: nat) returns (panicked: bool, offset: nat, blockNo: nat)
    requires Usable(l) && plainLength <= UINT64
    ensures panicked <==> plainLength == 0
    ensures !panicked ==> offset == HEADER_LEN && blockNo == 0
  {
    offset, blockNo := 0, 0;
    EndsLow(0, l.plainBS, 0, plainLength);
    var blocks := ExplodePlainRange(l, 0, plainLength);
    panicked := |blocks| == 0;
    if !panicked {
      RangeFromStart(l, blocks, plainLength);
      offset, blockNo := JointCiphertextRange(l, blocks).0, blocks[0].blockNo;
    }
  }

  /** The two ways to return: a grown buffer as it is, one from the pool as a copy. */
  method HandOver(reqPool: BPool, plaintext: array<byte>, n: nat) returns (buf: array<byte>)
    requires reqPool.Valid() && reqPool.Distinct() && reqPool.sliceLen >= MAX_KERNEL_WRITE
    requires n <= plaintext.Length && plaintext !in reqPool.free
    requires plaintext.Length == reqPool.sliceLen || plaintext.Length >= 2 * reqPool.sliceLen
    modifies reqPool
    ensures reqPool.Valid() && reqPool.Distinct() && buf !in reqPool.free
    ensures n <= buf.Length && buf[..n] == plaintext[..n]
    ensures if plaintext.Length > MAX_KERNEL_WRITE + DEFAULT_BS
            then buf == plaintext && reqPool.free == old(reqPool.free)
            else fresh(buf) && reqPool.free == old(reqPool.free) + multiset{plaintext}
  {
    if plaintext.Length > MAX_KERNEL_WRITE + DEFAULT_BS {
      return plaintext;
    }
    var text := plaintext[..n];
    buf := new byte[n](i => if 0 <= i < |text| then text[i] else 0);
    reqPool.Put(plaintext);
  }

  /** `decryptFile`, for any block size. Both return branches give the specified bytes in memory
      that no pool holds any more; for blocks of up to the default size it is new memory. */
  method DecryptFileTo(e: ContentEnc, blockPool: BPool, reqPool: BPool, file: Bytes)
    returns (status: Status, buf: array<byte>, len: nat)
    requires Lawful(e) && |file| < UINT64
    requires blockPool.Valid() && reqPool.Valid() && blockPool.Distinct() && reqPool.Distinct()
    requires blockPool.sliceLen == e.plainBS && reqPool.sliceLen == MAX_KERNEL_WRITE + e.plainBS
    modifies blockPool, blockPool.free, reqPool, reqPool.free
    ensures blockPool.Valid() && reqPool.Valid() && blockPool.Distinct() && reqPool.Distinct()
    ensures status == Panicked <==> DecryptFile(e, file) == Panics
    ensures forall error :: status == Failed(error) <==> DecryptFile(e, file) == Returns(Err(error))
    ensures status == Done ==>
      && len <= buf.Length && DecryptFile(e, file) == Returns(Ok(buf[..len]))
      && len == CipherSizeToPlainSize(e.Layout(), |file|)
      && buf !in blockPool.free && buf !in reqPool.free
      && (fresh(buf) || (e.plainBS > DEFAULT_BS && buf in old(reqPool.free)))
  {
    buf, len := new byte[0], 0;
    FileOutcome(e, file);
    var plainLength := CipherSizeToPlainSize(e.Layout(), |file|);
    var fileID := ReadFileID(file);
    if fileID.Err? {
      status := Failed(fileID.error);
      return;
    }
    var panicked, offset, blockNo := FirstBlock(e.Layout(), plainLength);
    if panicked {
      status := Panicked;
      return;
    }
    var err, body := DecryptBody(e, blockPool, reqPool, file[offset..], blockNo, fileID.value, plainLength);
    if err.Some? {
      status := Failed(err.value);
      return;
    }
    status, buf, len := Done, body, plainLength;
  }

  lemma FileOutcome(e: ContentEnc, file: Bytes)
    requires Lawful(e)
    ensures var id := ReadFileID(file); var size := CipherSizeToPlainSize(e.Layout(), |file|);
      && size <= |file|
      && (id.Err? ==> DecryptFile(e, file) == Returns(id))
      && (id.Ok? && size == 0 ==> DecryptFile(e, file) == Panics)
      && (id.Ok? && size > 0 ==>
            var r := DecryptBlocks(e, file[HEADER_LEN..], 0, id.value);
            DecryptFile(e, file) == Returns(r) && (r.Ok? ==> |r.value| == size))
  {
    assert CipherSizeToPlainSize(e.Layout(), |file|) <= |file|;
    var id := ReadFileID(file);
    if id.Ok? && CipherSizeToPlainSize(e.Layout(), |file|) > 0 {
      var r := DecryptBlocks(e, file[HEADER_LEN..], 0, id.value);
      assert DecryptFile(e, file) == Returns(r);
      if r.Ok? { SizeAgreement(e, file); }
    }
  }

  /** Decrypt all blocks and hand the plaintext over. */
  method DecryptBody(e: ContentEnc, blockPool: BPool, reqPool: BPool, c: Bytes, first: nat, fileID: Bytes,
                     plainLength: nat)
    returns (err: Option<Error>, buf: array<byte>)
    requires Lawful(e) && blockPool.Valid() && reqPool.Valid() && blockPool.Distinct() && reqPool.Distinct()
    requires blockPool.sliceLen == e.plainBS && reqPool.sliceLen == MAX_KERNEL_WRITE + e.plainBS
    requires DecryptBlocks(e, c, first, fileID).Ok? ==> |DecryptBlocks(e, c, first, fileID).value| == plainLength
    modifies blockPool, blockPool.free, reqPool, reqPool.free
    ensures blockPool.Valid() && reqPool.Valid() && blockPool.Distinct() && reqPool.Distinct()
    ensures err == ErrorOf(DecryptBlocks(e, c, first, fileID))
    ensures err.None? ==>
      && plainLength <= buf.Length && buf[..plainLength] == DecryptBlocks(e, c, first, fileID).value
      && buf !in blockPool.free && buf !in reqPool.free
      && (fresh(buf) || (e.plainBS > DEFAULT_BS && buf in old(reqPool.free)))
  {
    var n;
    err, buf, n := DecryptBlocksTo(e, blockPool, reqPool, c, first, fileID);
    if err.None? {
      PrefixIsWhole(BlockDecryptor(e, fileID), e.CipherBS(), c, first);
      buf := HandOver(reqPool, buf, plainLength);
    }
  }
}
