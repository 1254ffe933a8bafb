/** Encryption of many blocks with its buffer pools (`EncryptBlocks`, `doEncryptBlocks` and
    `doEncryptBlock` of gocrypt/contentenc/content.go): goroutines take slices from a shared
    pool, and their results are concatenated and put back. */
module ContentSealing {
  import opened Base
  import opened ContentLayout
  import opened ContentCodec
  import opened ContentParallel
  import opened ContentBuffers

  /** A plaintext block of the caller: its bytes, and the memory behind its slice. */
  datatype Plain = Plain(data: Bytes, memory: array<byte>)

  /** An encrypted block: a slice of ours with `len` bytes in it, or, for an empty block, the
      caller's own slice. */
  datatype Cell = Missing | Mine(arr: array<byte>, len: nat) | Callers(arr: array<byte>)

  function Values(plain: seq<Plain>): (r: seq<Bytes>)
    ensures |r| == |plain|
  {
    seq(|plain|, x requires 0 <= x < |plain| => plain[x].data)
  }

  ghost predicate NonceLengths(e: ContentEnc, nonces: nat -> Bytes) {
    forall i :: |nonces(i)| == e.ivLen
  }

  /** The capacity of the slice that holds an encrypted block: the pool's, unless the block is
      longer than a block should be. */
  function SealedCap(e: ContentEnc, size: nat): nat {
    if size <= e.plainBS then e.CipherBS() else size + e.ivLen + TAG_LEN
  }

  /** Putting this block's slice into the pool panics. */
  predicate BadBlock(e: ContentEnc, p: Plain) {
    if p.data == [] then p.memory.Length != e.CipherBS() else |p.data| > e.plainBS
  }

  ghost predicate Holds(e: ContentEnc, cell: Cell, p: Plain, want: Bytes)
    reads if cell.Mine? then {cell.arr} else {}
  {
    match cell
    case Missing => false
    case Callers(arr) => p.data == [] && arr == p.memory && want == []
    case Mine(arr, len) =>
      p.data != [] && len <= arr.Length == SealedCap(e, |p.data|) && arr[..len] == want
  }

  /** `doEncryptBlock`: nonce and sealed text in a slice from the pool, or in a larger new one. */
  method SealTo(e: ContentEnc, pool: BPool, p: Plain, blockNo: nat, fileID: Bytes, nonce: Bytes) returns (cell: Cell)
    requires Lawful(e) && pool.Valid() && pool.Distinct() && pool.sliceLen == e.CipherBS() && |nonce| == e.ivLen
    modifies pool, pool.free
    ensures pool.Valid() && pool.Distinct() && pool.free <= old(pool.free)
    ensures Holds(e, cell, p, EncryptBlock(e, p.data, blockNo, fileID, nonce))
    ensures cell.Mine? ==> cell.arr !in pool.free && (cell.arr in old(pool.free) || fresh(cell.arr))
  {
    if p.data == [] {
      return Callers(p.memory);
    }
    var text := EncryptBlock(e, p.data, blockNo, fileID, nonce);
    var cBlock := pool.Get();
    var out := AppendTo(cBlock, text);
    return Mine(out, |text|);
  }

  // ------------------------------------------------------------------- the goroutines

  /** The arrays of our own cells. */
  ghost function Arrays(cells: seq<Cell>): set<array<byte>> {
    set x | 0 <= x < |cells| && cells[x].Mine? :: cells[x].arr
  }

  /** A cell is done: it holds what it should, in a slice that is in neither pool and not among
      the caller's. */
  ghost predicate DoneCell(e: ContentEnc, cell: Cell, p: Plain, want: Bytes, pool: BPool, reqPool: BPool,
                           callers: set<array<byte>>)
    reads if cell.Mine? then {cell.arr} else {}, pool, reqPool
  {
    && Holds(e, cell, p, want)
    && (cell.Mine? ==> cell.arr !in pool.free && cell.arr !in reqPool.free && cell.arr !in callers)
  }

  ghost predicate Unshared(cells: seq<Cell>) {
    forall x, y :: 0 <= x < y < |cells| && cells[x].Mine? && cells[y].Mine? ==> cells[x].arr != cells[y].arr
  }

  ghost predicate Filled(e: ContentEnc, cells: seq<Cell>, plain: seq<Plain>, want: seq<Bytes>, todo: set<nat>,
                         pool: BPool, reqPool: BPool, callers: set<array<byte>>)
    reads Arrays(cells), pool, reqPool
  {
    && |cells| == |plain| == |want| && Unshared(cells)
    && (forall x :: 0 <= x < |cells| ==>
          if x in todo then cells[x] == Missing else DoneCell(e, cells[x], plain[x], want[x], pool, reqPool, callers))
  }

  /** The pools are in order and have different slices. */
  ghost predicate Pools(e: ContentEnc, pool: BPool, reqPool: BPool)
    reads pool, reqPool
  {
    && pool.Valid() && pool.Distinct() && pool.sliceLen == e.CipherBS()
    && reqPool.Valid() && reqPool.Distinct() && reqPool.sliceLen > e.CipherBS()
  }

  /** None of the caller's slices is in the pool. */
  ghost predicate Apart(pool: BPool, callers: set<array<byte>>)
    reads pool
  {
    forall s :: s in callers ==> s !in pool.free
  }

  /** One block of a group, by the loop of `doEncryptBlocks` on the group's slices. */
  method Turn(e: ContentEnc, pool: BPool, reqPool: BPool, plain: seq<Plain>, first: nat, fileID: Bytes,
              nonces: nat -> Bytes, low: nat, j: nat, out: array<Cell>, ghost todo: set<nat>,
              ghost callers: set<array<byte>>)
    requires Lawful(e) && Pools(e, pool, reqPool) && Apart(pool, callers) && NonceLengths(e, nonces)
    requires low + j < |plain| && low + j in todo
    requires Filled(e, out[..], plain, Sealed(e, Values(plain), first, fileID, nonces), todo, pool, reqPool, callers)
    modifies out, pool, pool.free
    ensures Pools(e, pool, reqPool) && Apart(pool, callers) && pool.free <= old(pool.free)
    ensures Filled(e, out[..], plain, Sealed(e, Values(plain), first, fileID, nonces), todo - {low + j},
                   pool, reqPool, callers)
  {
    ghost var before, want := out[..], Sealed(e, Values(plain), first, fileID, nonces);
    var x := low + j;
    var cell := SealApart(e, pool, reqPool, plain, (first + low) + j, fileID, nonces(first + x), x,
                          before, want, todo, callers);
    FillCell(e, before, plain, want, todo, x, cell, pool, reqPool, callers);
    out[x] := cell;
    assert out[..] == before[x := cell];
  }

  /** Encrypting one more block leaves the finished cells alone, and uses none of their slices. */
  method SealApart(e: ContentEnc, pool: BPool, reqPool: BPool, plain: seq<Plain>, blockNo: nat, fileID: Bytes,
                   nonce: Bytes, x: nat, ghost cells: seq<Cell>, ghost want: seq<Bytes>, ghost todo: set<nat>,
                   ghost callers: set<array<byte>>)
    returns (cell: Cell)
    requires Lawful(e) && Pools(e, pool, reqPool) && Apart(pool, callers) && |nonce| == e.ivLen && x < |plain|
    requires Filled(e, cells, plain, want, todo, pool, reqPool, callers)
    requires want[x] == EncryptBlock(e, plain[x].data, blockNo, fileID, nonce)
    modifies pool, pool.free
    ensures Pools(e, pool, reqPool) && Apart(pool, callers) && pool.free <= old(pool.free)
    ensures Filled(e, cells, plain, want, todo, pool, reqPool, callers)
    ensures DoneCell(e, cell, plain[x], want[x], pool, reqPool, callers)
    ensures forall y :: 0 <= y < |cells| && cells[y].Mine? && cell.Mine? ==> cells[y].arr != cell.arr
  {
    cell := SealTo(e, pool, plain[x], blockNo, fileID, nonce);
    forall y | 0 <= y < |plain| && y !in todo
      ensures DoneCell(e, cells[y], plain[y], want[y], pool, reqPool, callers)
      ensures cells[y].Mine? && cell.Mine? ==> cells[y].arr != cell.arr
    {
      assert old(DoneCell(e, cells[y], plain[y], want[y], pool, reqPool, callers));
    }
  }

  /** One more cell is done, in a slice of its own. */
  lemma FillCell(e: ContentEnc, cells: seq<Cell>, plain: seq<Plain>, want: seq<Bytes>, todo: set<nat>, x: nat,
                 cell: Cell, pool: BPool, reqPool: BPool, callers: set<array<byte>>)
    requires Filled(e, cells, plain, want, todo, pool, reqPool, callers) && x < |cells| && x in todo
    requires DoneCell(e, cell, plain[x], want[x], pool, reqPool, callers)
    requires forall y :: 0 <= y < |cells| && cells[y].Mine? && cell.Mine? ==> cells[y].arr != cell.arr
    ensures Filled(e, cells[x := cell], plain, want, todo - {x}, pool, reqPool, callers)
  {
  }

  /** One turn of some unfinished group, if there is one. */
  method Round(e: ContentEnc, pool: BPool, reqPool: BPool, plain: seq<Plain>, first: nat, fileID: Bytes,
               nonces: nat -> Bytes, lows: seq<nat>, highs: seq<nat>, ghost owner: seq<nat>, pos: seq<nat>,
               ghost todo: set<nat>, out: array<Cell>, ghost callers: set<array<byte>>)
    returns (finished: bool, pos': seq<nat>, ghost todo': set<nat>)
    requires Lawful(e) && Pools(e, pool, reqPool) && Apart(pool, callers) && NonceLengths(e, nonces)
    requires Running(|plain|, lows, highs, owner, pos, todo)
    requires Filled(e, out[..], plain, Sealed(e, Values(plain), first, fileID, nonces), todo, pool, reqPool, callers)
    modifies out, pool, pool.free
    ensures Pools(e, pool, reqPool) && Apart(pool, callers) && pool.free <= old(pool.free)
    ensures Running(|plain|, lows, highs, owner, pos', todo') && (if finished then todo' == {} else todo' < todo)
    ensures Filled(e, out[..], plain, Sealed(e, Values(plain), first, fileID, nonces), todo', pool, reqPool, callers)
  {
    var i;
    finished, i := NextGroup(|plain|, lows, highs, owner, pos, todo);
    pos', todo' := pos, todo;
    if !finished {
      TurnDone(|plain|, lows, highs, owner, pos, todo, i);
      Turn(e, pool, reqPool, plain, first, fileID, nonces, lows[i], pos[i], out, todo, callers);
      todo' := todo - {lows[i] + pos[i]};
      pos' := pos[i := pos[i] + 1];
    }
  }

  /** The groups interleave in any order: each turn of the loop lets an arbitrary unfinished
      group encrypt its next block. The result does not depend on the order. */
  method EncryptGroups(e: ContentEnc, pool: BPool, reqPool: BPool, plain: seq<Plain>, first: nat, fileID: Bytes,
                       nonces: nat -> Bytes, lows: seq<nat>, highs: seq<nat>, ghost owner: seq<nat>,
                       ghost callers: set<array<byte>>)
    returns (out: array<Cell>)
    requires Lawful(e) && Pools(e, pool, reqPool) && Apart(pool, callers) && NonceLengths(e, nonces)
    requires Partition(|plain|, lows, highs, owner)
    modifies pool, pool.free
    ensures fresh(out) && Pools(e, pool, reqPool) && pool.free <= old(pool.free)
    ensures Filled(e, out[..], plain, Sealed(e, Values(plain), first, fileID, nonces), {}, pool, reqPool, callers)
  {
    out := new Cell[|plain|](_ => Missing);
    var pos: seq<nat> := seq(|lows|, _ => 0);
    ghost var todo := Start(|plain|, lows, highs, owner, pos);
    var finished := false;
    while !finished
      invariant fresh(out) && Pools(e, pool, reqPool) && Apart(pool, callers) && pool.free <= old(pool.free)
      invariant Running(|plain|, lows, highs, owner, pos, todo) && (finished ==> todo == {})
      invariant Filled(e, out[..], plain, Sealed(e, Values(plain), first, fileID, nonces), todo, pool, reqPool, callers)
      decreases !finished, todo
    {
      finished, pos, todo :=
        Round(e, pool, reqPool, plain, first, fileID, nonces, lows, highs, owner, pos, todo, out, callers);
    }
  }

  // ---------------------------------------------------------------- concatenating

  /** Write a block to the buffer and put its slice into the pool, whoever it belongs to. */
  method WriteAndPut(e: ContentEnc, pool: BPool, cell: Cell, ghost p: Plain, ghost want: Bytes, data: array<byte>,
                     len: nat)
    returns (panicked: bool, data': array<byte>, len': nat)
    requires pool.Valid() && pool.sliceLen == e.CipherBS() && len <= data.Length
    requires Holds(e, cell, p, want) && (cell.Mine? ==> cell.arr != data)
    modifies pool, data
    ensures panicked == BadBlock(e, p) && pool.Valid()
    ensures !panicked ==> len' <= data'.Length && data'[..len'] == old(data[..len]) + want
    ensures !panicked ==> pool.free == old(pool.free) + multiset{cell.arr}
    ensures data' == data || (fresh(data') && data'.Length > data.Length)
  {
    data', len' := data, len;
    if cell.Mine? {
      data' := Write(data, len, cell.arr, cell.len);
      len' := len + cell.len;
    }
    panicked := cell.arr.Length != pool.sliceLen;
    if !panicked {
      pool.Put(cell.arr);
    }
  }

  /** Every cell holds its block. */
  ghost predicate AllHold(e: ContentEnc, cells: seq<Cell>, plain: seq<Plain>, want: seq<Bytes>)
    reads Arrays(cells)
  {
    |cells| == |plain| == |want| && forall y :: 0 <= y < |cells| ==> Holds(e, cells[y], plain[y], want[y])
  }

  /** The slices of cells, as often as they occur. */
  ghost function Slices(cells: seq<Cell>): multiset<array<byte>> {
    if cells == [] then multiset{}
    else
      var init, last := Slices(cells[..|cells| - 1]), cells[|cells| - 1];
      if last.Missing? then init else init + multiset{last.arr}
  }

  lemma OneMoreSlice(cells: seq<Cell>, x: nat)
    requires x < |cells| && !cells[x].Missing?
    ensures Slices(cells[..x + 1]) == Slices(cells[..x]) + multiset{cells[x].arr}
  {
    assert cells[..x + 1][..x] == cells[..x];
  }

  lemma OneMoreFlat(want: seq<Bytes>, x: nat)
    requires x < |want|
    ensures Flatten(want[..x + 1]) == Flatten(want[..x]) + want[x]
  {
    FlattenSnoc(want[..x], want[x]);
    assert want[..x + 1] == want[..x] + [want[x]];
  }

  /** The first `x` blocks are in the buffer, and their slices in the pool. */
  ghost predicate Written(e: ContentEnc, pool: BPool, cells: seq<Cell>, plain: seq<Plain>, want: seq<Bytes>, x: nat,
                          data: array<byte>, len: nat, before: multiset<array<byte>>)
    reads pool, data, Arrays(cells)
  {
    && AllHold(e, cells, plain, want) && x <= |cells| && data !in Arrays(cells)
    && pool.Valid() && pool.sliceLen == e.CipherBS() && pool.free == before + Slices(cells[..x])
    && len <= data.Length && data[..len] == Flatten(want[..x])
    && (forall y :: 0 <= y < x ==> !BadBlock(e, plain[y]))
  }

  lemma WrittenNone(e: ContentEnc, pool: BPool, cells: seq<Cell>, plain: seq<Plain>, want: seq<Bytes>,
                    data: array<byte>)
    requires AllHold(e, cells, plain, want) && data !in Arrays(cells) && pool.Valid() && pool.sliceLen == e.CipherBS()
    ensures Written(e, pool, cells, plain, want, 0, data, 0, pool.free)
  {
    assert want[..0] == [] && data[..0] == [] && cells[..0] == [];
  }

  lemma WrittenAll(e: ContentEnc, pool: BPool, cells: seq<Cell>, plain: seq<Plain>, want: seq<Bytes>,
                   data: array<byte>, len: nat, before: multiset<array<byte>>)
    requires Written(e, pool, cells, plain, want, |cells|, data, len, before)
    ensures len <= data.Length && data[..len] == Flatten(want) && pool.free == before + Slices(cells)
    ensures forall y :: 0 <= y < |plain| ==> !BadBlock(e, plain[y])
  {
    assert want[..|cells|] == want && cells[..|cells|] == cells;
  }

  /** One turn of the loop. */
  method WriteNext(e: ContentEnc, pool: BPool, cells: seq<Cell>, ghost plain: seq<Plain>, ghost want: seq<Bytes>,
                   x: nat, data: array<byte>, len: nat, ghost before: multiset<array<byte>>)
    returns (panicked: bool, data': array<byte>, len': nat)
    requires x < |cells| && Written(e, pool, cells, plain, want, x, data, len, before)
    modifies pool, data
    ensures pool.Valid() && panicked == BadBlock(e, plain[x])
    ensures !panicked ==> Written(e, pool, cells, plain, want, x + 1, data', len', before)
    ensures data' == data || (fresh(data') && data'.Length > data.Length)
  {
    assert Holds(e, cells[x], plain[x], want[x]);
    OneMoreSlice(cells, x);
    OneMoreFlat(want, x);
    panicked, data', len' := WriteAndPut(e, pool, cells[x], plain[x], want[x], data, len);
  }

  /** The loop over the encrypted blocks: it panics at the first slice of a wrong capacity. */
  method WriteAll(e: ContentEnc, pool: BPool, cells: seq<Cell>, ghost plain: seq<Plain>, ghost want: seq<Bytes>,
                  start: array<byte>, ghost before: multiset<array<byte>>)
    returns (panicked: bool, data: array<byte>, len: nat)
    requires |cells| == |plain| && Written(e, pool, cells, plain, want, 0, start, 0, before)
    modifies pool, start
    ensures pool.Valid() && (panicked ==> exists x :: 0 <= x < |plain| && BadBlock(e, plain[x]))
    ensures !panicked ==> Written(e, pool, cells, plain, want, |cells|, data, len, before)
    ensures data == start || (fresh(data) && data.Length > start.Length)
  {
    data, len := start, 0;
    for x := 0 to |cells|
      invariant Written(e, pool, cells, plain, want, x, data, len, before)
      invariant data == start || (fresh(data) && data.Length > start.Length)
    {
      panicked, data, len := WriteNext(e, pool, cells, plain, want, x, data, len, before);
      if panicked {
        return;
      }
    }
    panicked := false;
  }

  /** Concatenate all blocks and put every slice into the pool. */
  method Concatenate(e: ContentEnc, pool: BPool, cells: seq<Cell>, ghost plain: seq<Plain>, ghost want: seq<Bytes>,
                     start: array<byte>)
    returns (panicked: bool, data: array<byte>, len: nat)
    requires pool.Valid() && pool.sliceLen == e.CipherBS()
    requires AllHold(e, cells, plain, want) && start !in Arrays(cells)
    modifies pool, start
    ensures pool.Valid()
    ensures panicked <==> exists x :: 0 <= x < |plain| && BadBlock(e, plain[x])
    ensures !panicked ==>
      len <= data.Length && data[..len] == Flatten(want) && pool.free == old(pool.free) + Slices(cells)
    ensures data == start || (fresh(data) && data.Length > start.Length)
  {
    WrittenNone(e, pool, cells, plain, want, start);
    panicked, data, len := WriteAll(e, pool, cells, plain, want, start, pool.free);
    if !panicked {
      WrittenAll(e, pool, cells, plain, want, data, len, old(pool.free));
    }
  }

  lemma {:induction false} FlattenSnoc(blocks: seq<Bytes>, b: Bytes)
    ensures Flatten(blocks + [b]) == Flatten(blocks) + b
    decreases |blocks|
  {
    if blocks == [] {
      assert ([] + [b])[1..] == [];
    } else {
      FlattenSnoc(blocks[1..], b);
      assert (blocks + [b])[1..] == blocks[1..] + [b];
    }
  }

  lemma {:induction false} FlattenSealed(e: ContentEnc, blocks: seq<Bytes>, first: nat, fileID: Bytes,
                                         nonces: nat -> Bytes)
    ensures Flatten(Sealed(e, blocks, first, fileID, nonces)) == EncryptBlocks(e, blocks, first, fileID, nonces)
    decreases |blocks|
  {
    if blocks != [] {
      FlattenSealed(e, blocks[1..], first + 1, fileID, nonces);
      assert Sealed(e, blocks, first, fileID, nonces)[1..] == Sealed(e, blocks[1..], first + 1, fileID, nonces);
    }
  }

  // ---------------------------------------------------------- what goes into the pool

  /** The caller's slices that `EncryptBlocks` puts into its pool: those of the empty blocks. */
  ghost function EmptySlices(plain: seq<Plain>): multiset<array<byte>> {
    if plain == [] then multiset{}
    else
      var init, last := EmptySlices(plain[..|plain| - 1]), plain[|plain| - 1];
      if last.data == [] then init + multiset{last.memory} else init
  }

  lemma {:induction false} EmptySlicesPut(e: ContentEnc, cells: seq<Cell>, plain: seq<Plain>, want: seq<Bytes>)
    requires AllHold(e, cells, plain, want)
    ensures EmptySlices(plain) <= Slices(cells)
    decreases |cells|
  {
    if cells != [] {
      var n := |cells| - 1;
      assert AllHold(e, cells[..n], plain[..n], want[..n]);
      EmptySlicesPut(e, cells[..n], plain[..n], want[..n]);
    }
  }

  /** No slice of an empty block is used twice or already in the pool. */
  ghost predicate OwnSlices(plain: seq<Plain>, pool: BPool)
    reads pool
  {
    && (forall x :: 0 <= x < |plain| && plain[x].data == [] ==> plain[x].memory !in pool.free)
    && (forall x, y :: 0 <= x < y < |plain| && plain[x].data == [] && plain[y].data == [] ==>
          plain[x].memory != plain[y].memory)
  }

  ghost function CallersOf(plain: seq<Plain>): set<array<byte>> {
    set x | 0 <= x < |plain| && plain[x].data == [] :: plain[x].memory
  }

  /** All cells are in different slices. */
  ghost predicate AllDifferent(cells: seq<Cell>) {
    forall x, y :: 0 <= x < y < |cells| ==> !cells[x].Missing? && !cells[y].Missing? && cells[x].arr != cells[y].arr
  }

  lemma {:induction false} SlicesOnce(cells: seq<Cell>, s: array<byte>)
    requires forall x :: 0 <= x < |cells| ==> !cells[x].Missing?
    ensures s in Slices(cells) <==> exists x :: 0 <= x < |cells| && cells[x].arr == s
    ensures AllDifferent(cells) ==> Slices(cells)[s] <= 1
    decreases |cells|
  {
    if cells != [] {
      var n := |cells| - 1;
      SlicesOnce(cells[..n], s);
      assert cells == cells[..n] + [cells[n]];
      if s in Slices(cells[..n]) {
        var x :| 0 <= x < n && cells[..n][x].arr == s;
        assert cells[x].arr == s;
      }
    }
  }

  /** Encrypt all blocks, in as many groups as processors up to the limit. */
  method SealAll(e: ContentEnc, pool: BPool, reqPool: BPool, plain: seq<Plain>, first: nat, fileID: Bytes,
                 nonces: nat -> Bytes, numCPU: nat, ghost callers: set<array<byte>>)
    returns (cells: seq<Cell>)
    requires Lawful(e) && Pools(e, pool, reqPool) && Apart(pool, callers) && NonceLengths(e, nonces) && numCPU >= 1
    modifies pool, pool.free
    ensures Pools(e, pool, reqPool) && pool.free <= old(pool.free)
    ensures Filled(e, cells, plain, Sealed(e, Values(plain), first, fileID, nonces), {}, pool, reqPool, callers)
  {
    var n, g := |plain|, 1;
    if n >= PARALLEL_THRESHOLD {
      g := Min(numCPU, ENCRYPT_MAX_SPLIT);
    }
    GroupsArePartition(n, g);
    var out := EncryptGroups(e, pool, reqPool, plain, first, fileID, nonces,
                             seq(g, i requires 0 <= i => Low(n, g, i)), seq(g, i requires 0 <= i => High(n, g, i)),
                             seq(n, x requires 0 <= x => GroupOf(n, g, x)), callers);
    cells := out[..];
  }

  /** Concatenate the encrypted blocks in a slice from the request pool. */
  method Collect(e: ContentEnc, pool: BPool, reqPool: BPool, cells: seq<Cell>, ghost plain: seq<Plain>,
                 ghost want: seq<Bytes>, ghost callers: set<array<byte>>)
    returns (panicked: bool, data: array<byte>, len: nat)
    requires Pools(e, pool, reqPool) && Filled(e, cells, plain, want, {}, pool, reqPool, callers)
    modifies pool, reqPool, reqPool.free
    ensures pool.Valid() && reqPool.Valid() && reqPool.Distinct()
    ensures panicked <==> exists x :: 0 <= x < |plain| && BadBlock(e, plain[x])
    ensures !panicked ==> len <= data.Length && data[..len] == Flatten(want)
    ensures !panicked ==> pool.free == old(pool.free) + Slices(cells)
    ensures data !in pool.free && data !in reqPool.free
  {
    assert forall x :: 0 <= x < |cells| ==> DoneCell(e, cells[x], plain[x], want[x], pool, reqPool, callers);
    var start := reqPool.Get();
    panicked, data, len := Concatenate(e, pool, cells, plain, want, start);
  }

  ghost predicate OnceEach(m: multiset<array<byte>>) {
    forall s :: s in m ==> m[s] == 1
  }

  /** With slices of their own, all cells are apart from each other and from the pool. */
  lemma PutOnce(e: ContentEnc, cells: seq<Cell>, plain: seq<Plain>, want: seq<Bytes>, pool: BPool, reqPool: BPool)
    requires pool.Distinct() && Filled(e, cells, plain, want, {}, pool, reqPool, CallersOf(plain))
    requires OwnSlices(plain, pool)
    ensures OnceEach(pool.free + Slices(cells))
  {
    forall x | 0 <= x < |cells| ensures DoneCell(e, cells[x], plain[x], want[x], pool, reqPool, CallersOf(plain)) {}
    assert AllDifferent(cells);
    forall s | s in pool.free + Slices(cells) ensures (pool.free + Slices(cells))[s] == 1 {
      SlicesOnce(cells, s);
    }
  }

  /** `EncryptBlocks`, for any interleaving of its goroutines. It panics if and only if some block
      is too long, or empty in a slice of the wrong capacity; otherwise the result is that of
      one sequential pass, in a slice that no pool holds. The slices of empty blocks, which the
      caller still has, are in the pool afterwards, each as often as it was passed. If they were
      the caller's own, and passed once, no slice is in the pool twice. */
  method EncryptBlocksTo(e: ContentEnc, pool: BPool, reqPool: BPool, plain: seq<Plain>, first: nat, fileID: Bytes,
                         nonces: nat -> Bytes, numCPU: nat)
    returns (panicked: bool, data: array<byte>, len: nat)
    requires Lawful(e) && Pools(e, pool, reqPool) && NonceLengths(e, nonces) && numCPU >= 1
    modifies pool, pool.free, reqPool, reqPool.free
    ensures pool.Valid() && reqPool.Valid() && reqPool.Distinct()
    ensures panicked <==> exists x :: 0 <= x < |plain| && BadBlock(e, plain[x])
    ensures !panicked ==>
      && len <= data.Length && data[..len] == EncryptBlocks(e, Values(plain), first, fileID, nonces)
      && data !in pool.free && data !in reqPool.free
      && EmptySlices(plain) <= pool.free
      && (old(OwnSlices(plain, pool)) ==> pool.Distinct())
  {
    ghost var want := Sealed(e, Values(plain), first, fileID, nonces);
    ghost var callers := if OwnSlices(plain, pool) then CallersOf(plain) else {};
    var cells := SealAll(e, pool, reqPool, plain, first, fileID, nonces, numCPU, callers);
    ghost var total := pool.free + Slices(cells);
    assert old(OwnSlices(plain, pool)) ==> OnceEach(total) by {
      if old(OwnSlices(plain, pool)) { PutOnce(e, cells, plain, want, pool, reqPool); }
    }
    assert EmptySlices(plain) <= total by {
      AllHeld(e, cells, plain, want, pool, reqPool, callers);
      EmptySlicesPut(e, cells, plain, want);
    }
    FlattenSealed(e, Values(plain), first, fileID, nonces);
    panicked, data, len := Collect(e, pool, reqPool, cells, plain, want, callers);
  }

  lemma AllHeld(e: ContentEnc, cells: seq<Cell>, plain: seq<Plain>, want: seq<Bytes>, pool: BPool, reqPool: BPool,
                callers: set<array<byte>>)
    requires Filled(e, cells, plain, want, {}, pool, reqPool, callers)
    ensures AllHold(e, cells, plain, want)
  {
    forall x | 0 <= x < |cells| ensures DoneCell(e, cells[x], plain[x], want[x], pool, reqPool, callers) {}
  }

  /** A slice passed for two empty blocks is in the pool twice afterwards. */
  lemma {:induction false} PassedTwice(plain: seq<Plain>, x: nat, y: nat)
    requires x < y < |plain| && plain[x].data == [] && plain[y].data == [] && plain[x].memory == plain[y].memory
    ensures EmptySlices(plain)[plain[x].memory] >= 2
    decreases |plain|
  {
    var n := |plain| - 1;
    if y < n {
      PassedTwice(plain[..n], x, y);
    } else {
      PassedOnce(plain[..n], x);
    }
  }

  lemma {:induction false} PassedOnce(plain: seq<Plain>, x: nat)
    requires x < |plain| && plain[x].data == []
    ensures EmptySlices(plain)[plain[x].memory] >= 1
    decreases |plain|
  {
    var n := |plain| - 1;
    if x < n { PassedOnce(plain[..n], x); }
  }
}
