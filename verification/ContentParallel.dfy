/** The groups of parallel encryption (`EncryptBlocks` of gocrypt/contentenc/content.go): how the
    blocks are split among goroutines, and what any interleaving of these does. */
module ContentParallel {
  import opened Base
  import opened ContentLayout
  import opened ContentCodec

  const ENCRYPT_MAX_SPLIT := 2
  const PARALLEL_THRESHOLD := 32

  /** Group `i` of `g` covers the blocks from `Low` up to `High`. */
  function Low(n: nat, g: nat, i: nat): nat
    requires g >= 1
  {
    i * (n / g)
  }

  function High(n: nat, g: nat, i: nat): nat
    requires g >= 1
  {
    if i == g - 1 then n else (i + 1) * (n / g)
  }

  function GroupOf(n: nat, g: nat, x: nat): nat
    requires g >= 1
  {
    if n / g == 0 || x / (n / g) >= g - 1 then g - 1 else x / (n / g)
  }

  lemma GroupBounds(n: nat, g: nat, i: nat)
    requires g >= 1 && i < g
    ensures Low(n, g, i) <= High(n, g, i) <= n
  {
    DivBounds(n, g);
    MulMono(i + 1, g, n / g);
    Distribute(n / g, i, 1);
  }

  /** The groups partition the blocks: each block is in exactly one of them. */
  lemma GroupsPartition(n: nat, g: nat, i: nat, x: nat)
    requires g >= 1 && i < g && x < n
    ensures GroupOf(n, g, x) < g
    ensures Low(n, g, i) <= x < High(n, g, i) <==> i == GroupOf(n, g, x)
  {
    var size := n / g;
    if size > 0 {
      DivBounds(x, size);
      var k := x / size;
      Distribute(size, i, 1);
      Distribute(size, k, 1);
      if i < k { MulMono(i + 1, k, size); }
      if k < i { MulMono(k + 1, i, size); }
    }
  }

  /** What each block becomes, wherever it is encrypted. */
  function Sealed(e: ContentEnc, blocks: seq<Bytes>, first: nat, fileID: Bytes, nonces: nat -> Bytes): (r: seq<Bytes>)
    ensures |r| == |blocks|
  {
    seq(|blocks|, x requires 0 <= x < |blocks| => EncryptBlock(e, blocks[x], first + x, fileID, nonces(first + x)))
  }

  /** Slices of `n` blocks that partition them; `owner[x]` is the slice of block `x`. */
  ghost predicate Partition(n: nat, lows: seq<nat>, highs: seq<nat>, owner: seq<nat>) {
    && |lows| == |highs| && |owner| == n
    && (forall i :: 0 <= i < |lows| ==> lows[i] <= highs[i] <= n)
    && (forall x :: 0 <= x < n ==> owner[x] < |lows|)
    && (forall x, i :: 0 <= x < n && 0 <= i < |lows| ==> (lows[i] <= x < highs[i] <==> owner[x] == i))
  }

  lemma GroupsArePartition(n: nat, g: nat)
    requires g >= 1
    ensures Partition(n, seq(g, i requires 0 <= i => Low(n, g, i)), seq(g, i requires 0 <= i => High(n, g, i)),
                      seq(n, x requires 0 <= x => GroupOf(n, g, x)))
  {
    forall i: nat | i < g ensures Low(n, g, i) <= High(n, g, i) <= n { GroupBounds(n, g, i); }
    forall x: nat, i: nat | x < n && i < g
      ensures GroupOf(n, g, x) < g && (Low(n, g, i) <= x < High(n, g, i) <==> GroupOf(n, g, x) == i)
    {
      GroupsPartition(n, g, i, x);
    }
  }

  /** How far each group is: the blocks still to encrypt. */
  ghost predicate Positions(lows: seq<nat>, highs: seq<nat>, pos: seq<nat>)
    requires |lows| == |highs|
  {
    |pos| == |lows| && forall i :: 0 <= i < |pos| ==> lows[i] + pos[i] <= highs[i]
  }

  ghost function Todo(n: nat, lows: seq<nat>, owner: seq<nat>, pos: seq<nat>): set<nat>
    requires |pos| == |lows| && |owner| == n && forall x :: 0 <= x < n ==> owner[x] < |lows|
  {
    set x: nat | x < n && x >= lows[owner[x]] + pos[owner[x]]
  }

  ghost predicate Running(n: nat, lows: seq<nat>, highs: seq<nat>, owner: seq<nat>, pos: seq<nat>, todo: set<nat>) {
    Partition(n, lows, highs, owner) && Positions(lows, highs, pos) && todo == Todo(n, lows, owner, pos)
  }

  lemma Start(n: nat, lows: seq<nat>, highs: seq<nat>, owner: seq<nat>, pos: seq<nat>) returns (todo: set<nat>)
    requires Partition(n, lows, highs, owner) && pos == seq(|lows|, _ => 0)
    ensures Running(n, lows, highs, owner, pos, todo) && forall x :: 0 <= x < n ==> x in todo
  {
    todo := Todo(n, lows, owner, pos);
    forall x: nat | x < n ensures x >= lows[owner[x]] + pos[owner[x]] {
      assert lows[owner[x]] <= x < highs[owner[x]];
    }
  }

  /** A turn of group `i` does one block, its own. */
  lemma TurnDone(n: nat, lows: seq<nat>, highs: seq<nat>, owner: seq<nat>, pos: seq<nat>, todo: set<nat>, i: nat)
    requires Running(n, lows, highs, owner, pos, todo) && i < |pos| && lows[i] + pos[i] < highs[i]
    ensures lows[i] + pos[i] < n && lows[i] + pos[i] in todo
    ensures Running(n, lows, highs, owner, pos[i := pos[i] + 1], todo - {lows[i] + pos[i]})
  {
    assert owner[lows[i] + pos[i]] == i;
  }

  /** The scheduler: any group that is not finished, if there is one. */
  method NextGroup(n: nat, lows: seq<nat>, highs: seq<nat>, ghost owner: seq<nat>, pos: seq<nat>, ghost todo: set<nat>)
    returns (finished: bool, i: nat)
    requires Running(n, lows, highs, owner, pos, todo)
    ensures finished ==> todo == {}
    ensures !finished ==> i < |pos| && lows[i] + pos[i] < highs[i]
  {
    finished := forall j :: 0 <= j < |pos| ==> lows[j] + pos[j] == highs[j];
    i := 0;
    if !finished {
      i :| 0 <= i < |pos| && lows[i] + pos[i] != highs[i];
    } else {
      forall x | 0 <= x < n ensures x < lows[owner[x]] + pos[owner[x]] {
        assert lows[owner[x]] <= x < highs[owner[x]];
      }
    }
  }
}
