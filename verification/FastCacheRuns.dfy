/** Runs of `FastCache`: what holds of the cache as a map after any operations, with or
    without the missing back link. */
module FastCacheRuns {
  import opened Base
  import opened FastCacheModel

  datatype Op = StoreOp(k: Bytes, v: Bytes) | FindOp(k: Bytes) | ClearOp

  function Step(m: Links, op: Op, repaired: bool): (r: Links)
    requires Inv(m) && m.cap >= 1
  {
    match op
    case StoreOp(k, v) => Store(m, k, v, repaired)
    case FindOp(k) => Find(m, k, repaired).0
    case ClearOp => Empty(m.cap)
  }

  lemma StepInv(m: Links, op: Op, repaired: bool)
    requires Inv(m) && m.cap >= 1
    ensures Inv(Step(m, op, repaired)) && Step(m, op, repaired).cap == m.cap
  {
    match op
    case StoreOp(k, v) => StoreContents(m, k, v, repaired);
    case FindOp(k) => FindKeepsContents(m, k, repaired);
    case ClearOp =>
  }

  /** The cache after `ops`, starting from a fresh one. */
  function Run(cap: nat, ops: seq<Op>, repaired: bool): (m: Links)
    requires cap >= 1
    ensures Inv(m) && m.cap == cap
  {
    if ops == [] then Empty(cap)
    else
      var prior := Run(cap, ops[..|ops| - 1], repaired);
      StepInv(prior, ops[|ops| - 1], repaired);
      Step(prior, ops[|ops| - 1], repaired)
  }

  // -------------------------------------------------- the code as written, as a map

  /** The latest value stored under each key since the last `Clear`. */
  function Latest(ops: seq<Op>): map<Bytes, Bytes> {
    if ops == [] then map[]
    else
      match ops[|ops| - 1]
      case StoreOp(k, v) => Latest(ops[..|ops| - 1])[k := v]
      case FindOp(_) => Latest(ops[..|ops| - 1])
      case ClearOp => map[]
  }

  /** The key of the last store or successful find since the last `Clear`. */
  ghost function Touched(cap: nat, ops: seq<Op>, repaired: bool): Option<Bytes>
    requires cap >= 1
  {
    if ops == [] then None
    else
      var prior := ops[..|ops| - 1];
      match ops[|ops| - 1]
      case StoreOp(k, _) => Some(k)
      case FindOp(k) => if k in Contents(Run(cap, prior, repaired)) then Some(k) else Touched(cap, prior, repaired)
      case ClearOp => None
  }

  lemma {:induction false} ContentsSize(nodes: seq<Node>)
    requires DistinctKeys(nodes)
    ensures |Keys(nodes)| == |nodes|
  {
    if nodes != [] {
      var init := nodes[..|nodes| - 1];
      ContentsSize(init);
      var k := nodes[|nodes| - 1].key;
      assert forall i :: 0 <= i < |init| ==> init[i].key == nodes[i].key != k;
      assert Keys(nodes) == Keys(init) + {k};
    }
  }

  ghost predicate Agrees(m: Links, latest: map<Bytes, Bytes>) {
    forall k :: k in Contents(m) ==> k in latest && Contents(m)[k] == latest[k]
  }

  lemma StoreAgrees(m: Links, k: Bytes, v: Bytes, repaired: bool, latest: map<Bytes, Bytes>)
    requires Inv(m) && m.cap >= 1 && Agrees(m, latest)
    ensures Agrees(Store(m, k, v, repaired), latest[k := v])
  {
    StoreContents(m, k, v, repaired);
  }

  lemma {:induction false} RunAgrees(cap: nat, ops: seq<Op>, repaired: bool)
    requires cap >= 1
    ensures Agrees(Run(cap, ops, repaired), Latest(ops))
  {
    if ops != [] {
      var prior := ops[..|ops| - 1];
      RunAgrees(cap, prior, repaired);
      var m0 := Run(cap, prior, repaired);
      match ops[|ops| - 1]
      case StoreOp(k, v) => StoreAgrees(m0, k, v, repaired, Latest(prior));
      case FindOp(k) => FindKeepsContents(m0, k, repaired);
      case ClearOp =>
    }
  }

  lemma {:induction false} LastIsTouched(cap: nat, ops: seq<Op>, repaired: bool)
    requires cap >= 1
    ensures var m := Run(cap, ops, repaired);
      Touched(cap, ops, repaired) == (if m.last == NIL then None else Some(m.nodes[m.last].key))
  {
    if ops != [] {
      var prior := ops[..|ops| - 1];
      LastIsTouched(cap, prior, repaired);
      var m0 := Run(cap, prior, repaired);
      match ops[|ops| - 1]
      case StoreOp(k, v) => StoreContents(m0, k, v, repaired);
      case FindOp(k) => FindKeepsContents(m0, k, repaired);
      case ClearOp =>
    }
  }

  /** After any run: every hit gives the latest value stored since `Clear`, the size is the
      node count and never exceeds the capacity, and `last` is the node touched last. */
  lemma MapRefinement(cap: nat, ops: seq<Op>, repaired: bool)
    requires cap >= 1
    ensures var m := Run(cap, ops, repaired);
      && (forall k :: k in Contents(m) ==> k in Latest(ops) && Contents(m)[k] == Latest(ops)[k])
      && |Contents(m)| == |m.nodes| <= cap
      && Touched(cap, ops, repaired) == (if m.last == NIL then None else Some(m.nodes[m.last].key))
  {
    var m := Run(cap, ops, repaired);
    RunAgrees(cap, ops, repaired);
    LastIsTouched(cap, ops, repaired);
    assert Contents(m).Keys == Keys(m.nodes);
    ContentsSize(m.nodes);
  }
}
