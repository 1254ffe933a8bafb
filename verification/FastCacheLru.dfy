/** `FastCache` against a least-recently-used queue: the code with the missing back link
    refines it for every capacity, the code as written only for capacity one. */
module FastCacheLru {
  import opened Base
  import opened FastCacheModel
  import opened FastCacheRuns

  // ---------------------------------------------------- least recently used, as a queue

  /** The reference: entries from least to most recently used. */
  type Queue = seq<(Bytes, Bytes)>

  function Position(q: Queue, k: Bytes): (p: int)
    ensures NIL <= p < |q|
    ensures p == NIL ==> forall j :: 0 <= j < |q| ==> q[j].0 != k
    ensures p != NIL ==> q[p].0 == k
  {
    if q == [] then NIL else if q[|q| - 1].0 == k then |q| - 1 else Position(q[..|q| - 1], k)
  }

  function LruStep(cap: nat, q: Queue, op: Op): Queue {
    match op
    case StoreOp(k, v) =>
      var p := Position(q, k);
      if p != NIL then q[..p] + q[p + 1..] + [(k, v)]
      else if |q| + 1 > cap && q != [] then q[1..] + [(k, v)]
      else q + [(k, v)]
    case FindOp(k) =>
      var p := Position(q, k);
      if p != NIL then q[..p] + q[p + 1..] + [q[p]] else q
    case ClearOp => []
  }

  function LruRun(cap: nat, ops: seq<Op>): Queue {
    if ops == [] then [] else LruStep(cap, LruRun(cap, ops[..|ops| - 1]), ops[|ops| - 1])
  }

  ghost predicate Permutes(ord: seq<int>, n: nat) {
    && |ord| == n
    && (forall j :: 0 <= j < |ord| ==> 0 <= ord[j] < n)
    && (forall i, j :: 0 <= i < j < |ord| ==> ord[i] != ord[j])
    && (forall i :: 0 <= i < n ==> i in ord)
  }

  /** The node at place `j` of `ord` links to its neighbours there. */
  ghost predicate LinkedAt(m: Links, ord: seq<int>, j: nat) {
    && j < |ord| && 0 <= ord[j] < |m.nodes|
    && m.nodes[ord[j]].next == (if j + 1 < |ord| then ord[j + 1] else NIL)
    && m.nodes[ord[j]].prev == (if j > 0 then ord[j - 1] else NIL)
  }

  /** `ord` lists the nodes from head to last, and all links agree with it. */
  ghost predicate Ordered(m: Links, ord: seq<int>) {
    && Permutes(ord, |m.nodes|)
    && (ord != [] ==> m.head == ord[0] && m.last == ord[|ord| - 1])
    && (forall j :: 0 <= j < |ord| ==> LinkedAt(m, ord, j))
  }

  ghost function Abs(m: Links, ord: seq<int>): Queue
    requires forall j :: 0 <= j < |ord| ==> 0 <= ord[j] < |m.nodes|
  {
    seq(|ord|, j requires 0 <= j < |ord| => (m.nodes[ord[j]].key, m.nodes[ord[j]].val))
  }

  function ToBack<T>(s: seq<T>, p: nat): seq<T>
    requires p < |s|
  {
    s[..p] + s[p + 1..] + [s[p]]
  }

  lemma ToBackPermutes(ord: seq<int>, p: nat)
    requires Permutes(ord, |ord|) && p < |ord|
    ensures Permutes(ToBack(ord, p), |ord|)
  {
    var b := ToBack(ord, p);
    forall i | 0 <= i < |ord| ensures i in b {
      assert i in ord;
      var j :| 0 <= j < |ord| && ord[j] == i;
      assert b[if j < p then j else if j == p then |ord| - 1 else j - 1] == i;
    }
  }

  /** `r` is `m` with node `d` unlinked from its neighbours and linked in after `last`. */
  ghost predicate Relinked(m: Links, r: Links, d: int) {
    && 0 <= d < |m.nodes| == |r.nodes|
    && var p, x := m.nodes[d].prev, m.nodes[d].next;
      && r.last == d && r.head == (if p != NIL then m.head else x)
      && (forall i :: 0 <= i < |m.nodes| ==>
            r.nodes[i].next == if i == d then NIL else if i == m.last then d else if i == p then x else m.nodes[i].next)
      && (forall i :: 0 <= i < |m.nodes| ==>
            r.nodes[i].prev == if i == d then m.last else if i == x then p else m.nodes[i].prev)
  }

  lemma RefreshRelinks(m: Links, d: int)
    requires Inv(m) && 0 <= d < |m.nodes| && m.nodes[d].next != NIL
    requires m.nodes[d].prev != d && m.nodes[d].next != d && m.nodes[d].prev != m.last
    ensures Relinked(m, Refresh(m, d, true), d)
  {
  }

  /** Where the element at place `j` of `ToBack(s, p)` comes from. */
  function From(n: nat, p: nat, j: nat): nat {
    if j < p then j else if j + 1 < n then j + 1 else p
  }

  lemma ToBackAt<T>(s: seq<T>, p: nat, j: nat)
    requires p < |s| && j < |s|
    ensures ToBack(s, p)[j] == s[From(|s|, p, j)]
  {
  }

  lemma MovedAt(m: Links, r: Links, ord: seq<int>, p: nat, j: nat)
    requires Ordered(m, ord) && p + 1 < |ord| && j < |ord| && Relinked(m, r, ord[p])
    ensures LinkedAt(r, ToBack(ord, p), j)
  {
    var n, b := |ord|, ToBack(ord, p);
    var at := From(n, p, j);
    assert LinkedAt(m, ord, p) && LinkedAt(m, ord, at);
    ToBackAt(ord, p, j);
    if j + 1 < n { ToBackAt(ord, p, j + 1); }
    if j > 0 { ToBackAt(ord, p, j - 1); }
  }

  /** With the back link repaired, refreshing a node moves it to the end of the order. */
  lemma RefreshOrdered(m: Links, ord: seq<int>, p: nat)
    requires Inv(m) && Ordered(m, ord) && p < |ord|
    ensures Ordered(Refresh(m, ord[p], true), ToBack(ord, p))
  {
    var n, r, b := |ord|, Refresh(m, ord[p], true), ToBack(ord, p);
    ToBackPermutes(ord, p);
    assert LinkedAt(m, ord, p);
    if p == n - 1 {
      assert b == ord;
    } else {
      RefreshRelinks(m, ord[p]);
      forall j | 0 <= j < n ensures LinkedAt(r, b, j) {
        MovedAt(m, r, ord, p, j);
      }
    }
  }

  // ------------------------------------------------------ the repaired code refines LRU

  lemma PositionIsIndex(m: Links, ord: seq<int>, k: Bytes)
    requires Inv(m) && Ordered(m, ord)
    ensures var p := Position(Abs(m, ord), k);
      IndexOf(m.nodes, k) == if p == NIL then NIL else ord[p]
  {
    var q, p := Abs(m, ord), Position(Abs(m, ord), k);
    if p != NIL {
      IndexUnique(m.nodes, ord[p]);
    } else {
      forall i | 0 <= i < |m.nodes| ensures m.nodes[i].key != k {
        assert i in ord;
        var j :| 0 <= j < |ord| && ord[j] == i;
        assert q[j].0 == m.nodes[i].key;
      }
    }
  }

  /** Links do not depend on keys and values. */
  lemma OverwriteOrdered(m: Links, ord: seq<int>, d: int, k: Bytes, v: Bytes)
    requires Ordered(m, ord) && 0 <= d < |m.nodes|
    ensures Ordered(m.(nodes := m.nodes[d := m.nodes[d].(key := k, val := v)]), ord)
  {
    var r := m.(nodes := m.nodes[d := m.nodes[d].(key := k, val := v)]);
    forall j | 0 <= j < |ord| ensures LinkedAt(r, ord, j) {
      assert LinkedAt(m, ord, j);
    }
  }

  lemma RefreshAbs(m: Links, ord: seq<int>, p: nat)
    requires Inv(m) && Ordered(m, ord) && p < |ord|
    ensures var r := Refresh(m, ord[p], true);
      Ordered(r, ToBack(ord, p)) && Abs(r, ToBack(ord, p)) == ToBack(Abs(m, ord), p)
  {
    var r := Refresh(m, ord[p], true);
    RefreshOrdered(m, ord, p);
    RefreshEntries(m, ord[p], true);
    forall j | 0 <= j < |ord| ensures Abs(r, ToBack(ord, p))[j] == ToBack(Abs(m, ord), p)[j] {
      ToBackAt(ord, p, j);
      ToBackAt(Abs(m, ord), p, j);
    }
  }

  lemma ReuseAbs(m: Links, ord: seq<int>, p: nat, k: Bytes, v: Bytes)
    requires Inv(m) && Ordered(m, ord) && p < |ord|
    ensures var r := Reuse(m, ord[p], k, v, true); var q := Abs(m, ord);
      Ordered(r, ToBack(ord, p)) && Abs(r, ToBack(ord, p)) == q[..p] + q[p + 1..] + [(k, v)]
  {
    var f, b, q := Refresh(m, ord[p], true), ToBack(ord, p), Abs(m, ord);
    RefreshAbs(m, ord, p);
    OverwriteOrdered(f, b, ord[p], k, v);
    var r := Reuse(m, ord[p], k, v, true);
    var want := q[..p] + q[p + 1..] + [(k, v)];
    assert b[|b| - 1] == ord[p];
    forall j | 0 <= j < |b| ensures Abs(r, b)[j] == want[j] {
      if j < |b| - 1 {
        assert b[j] != ord[p];
        assert Abs(r, b)[j] == Abs(f, b)[j] == ToBack(q, p)[j];
      }
    }
  }

  lemma AppendAbs(m: Links, ord: seq<int>, k: Bytes, v: Bytes)
    requires Inv(m) && Ordered(m, ord)
    ensures var r := Append(m, k, v); var b := ord + [|m.nodes|];
      Ordered(r, b) && Abs(r, b) == Abs(m, ord) + [(k, v)]
  {
    var r, b, n := Append(m, k, v), ord + [|m.nodes|], |m.nodes|;
    assert Permutes(b, n + 1) by {
      forall i | 0 <= i < n + 1 ensures i in b {
        if i == n { assert b[n] == n; } else { assert i in ord; }
      }
    }
    forall j | 0 <= j < |b| ensures LinkedAt(r, b, j) {
      if j < n { assert LinkedAt(m, ord, j); }
    }
  }

  lemma StoreRefinesLru(m: Links, ord: seq<int>, k: Bytes, v: Bytes) returns (ord': seq<int>)
    requires Inv(m) && m.cap >= 1 && Ordered(m, ord)
    ensures Ordered(Store(m, k, v, true), ord')
    ensures Abs(Store(m, k, v, true), ord') == LruStep(m.cap, Abs(m, ord), StoreOp(k, v))
  {
    PositionIsIndex(m, ord, k);
    var q := Abs(m, ord);
    var p := Position(q, k);
    if p != NIL {
      ord' := ToBack(ord, p);
      assert Store(m, k, v, true) == Reuse(m, ord[p], k, v, true);
      ReuseAbs(m, ord, p, k, v);
    } else {
      ord' := MissRefinesLru(m, ord, k, v);
    }
  }

  lemma MissRefinesLru(m: Links, ord: seq<int>, k: Bytes, v: Bytes) returns (ord': seq<int>)
    requires Inv(m) && m.cap >= 1 && Ordered(m, ord) && IndexOf(m.nodes, k) == NIL && Position(Abs(m, ord), k) == NIL
    ensures Ordered(Store(m, k, v, true), ord')
    ensures Abs(Store(m, k, v, true), ord') == LruStep(m.cap, Abs(m, ord), StoreOp(k, v))
  {
    var q := Abs(m, ord);
    if |m.nodes| + 1 > m.cap {
      ord' := ToBack(ord, 0);
      assert Store(m, k, v, true) == Reuse(m, ord[0], k, v, true);
      ReuseAbs(m, ord, 0, k, v);
      assert q[..0] + q[1..] + [(k, v)] == q[1..] + [(k, v)] == LruStep(m.cap, q, StoreOp(k, v));
    } else {
      ord' := ord + [|m.nodes|];
      assert Store(m, k, v, true) == Append(m, k, v);
      AppendAbs(m, ord, k, v);
    }
  }

  lemma FindRefinesLru(m: Links, ord: seq<int>, k: Bytes) returns (ord': seq<int>)
    requires Inv(m) && Ordered(m, ord)
    ensures Ordered(Find(m, k, true).0, ord')
    ensures Abs(Find(m, k, true).0, ord') == LruStep(m.cap, Abs(m, ord), FindOp(k))
    ensures Find(m, k, true).1 ==
      var p := Position(Abs(m, ord), k); if p == NIL then None else Some(Abs(m, ord)[p].1)
  {
    PositionIsIndex(m, ord, k);
    var p := Position(Abs(m, ord), k);
    if p == NIL {
      ord' := ord;
    } else {
      ord' := ToBack(ord, p);
      RefreshAbs(m, ord, p);
    }
  }

  /** With the missing back link, every run of the cache is a run of the LRU queue. */
  lemma {:induction false} RepairedRefinesLru(cap: nat, ops: seq<Op>) returns (ord: seq<int>)
    requires cap >= 1
    ensures Ordered(Run(cap, ops, true), ord) && Abs(Run(cap, ops, true), ord) == LruRun(cap, ops)
  {
    if ops == [] {
      ord := [];
    } else {
      var prior := RepairedRefinesLru(cap, ops[..|ops| - 1]);
      var m := Run(cap, ops[..|ops| - 1], true);
      match ops[|ops| - 1]
      case StoreOp(k, v) => ord := StoreRefinesLru(m, prior, k, v);
      case FindOp(k) => ord := FindRefinesLru(m, prior, k);
      case ClearOp => ord := [];
    }
  }

  // ------------------------------------------- the code as written is not an LRU cache

  function Stores(kvs: Queue): seq<Op> {
    if kvs == [] then [] else Stores(kvs[..|kvs| - 1]) + [StoreOp(kvs[|kvs| - 1].0, kvs[|kvs| - 1].1)]
  }

  /** No key is stored twice: each is absent from the ones before it. */
  ghost predicate DistinctQueue(kvs: Queue) {
    kvs == [] || (DistinctQueue(kvs[..|kvs| - 1]) && Absent(kvs[..|kvs| - 1], kvs[|kvs| - 1].0))
  }

  ghost predicate Absent(kvs: Queue, k: Bytes) {
    forall i :: 0 <= i < |kvs| ==> kvs[i].0 != k
  }

  lemma LastStore(cap: nat, kvs: Queue, repaired: bool)
    requires cap >= 1 && kvs != []
    ensures var n := |kvs| - 1;
      Run(cap, Stores(kvs), repaired) == Store(Run(cap, Stores(kvs[..n]), repaired), kvs[n].0, kvs[n].1, repaired)
  {
    assert Stores(kvs)[..|Stores(kvs)| - 1] == Stores(kvs[..|kvs| - 1]);
  }

  /** The cache after at most `cap` stores of distinct keys: a proper list. */
  ghost predicate Filled(m: Links, kvs: Queue) {
    && Inv(m) && |m.nodes| == |kvs|
    && (kvs != [] ==> m.head == 0 && m.last == |kvs| - 1 && m.nodes[0].prev == NIL)
    && (|kvs| > 1 ==> m.nodes[0].next == 1 && m.nodes[1].prev == 0)
    && (forall i :: 0 <= i < |kvs| ==> m.nodes[i].key == kvs[i].0)
  }

  /** One store more: the old head is reused as the last node, but the new head still has
      it as its predecessor. Node 0 now holds the key at place `cap`. */
  ghost predicate OneOver(m: Links, kvs: Queue) {
    && Inv(m) && |m.nodes| == m.cap && |kvs| == m.cap + 1 && m.cap >= 2
    && m.head == 1 && m.last == 0 && m.nodes[1].prev == 0
    && m.nodes[0].key == kvs[m.cap].0
    && (forall i :: 1 <= i < m.cap ==> m.nodes[i].key == kvs[i].0)
  }

  /** After that, head and last are both node 1, which holds the latest key; the other
      entries stay as they are. */
  ghost predicate Frozen(m: Links, kvs: Queue) {
    && Inv(m) && |m.nodes| == m.cap && |kvs| >= m.cap + 2 && m.cap >= 2
    && m.head == 1 && m.last == 1
    && m.nodes[0].key == kvs[m.cap].0 && m.nodes[1].key == kvs[|kvs| - 1].0
    && (forall i :: 2 <= i < m.cap ==> m.nodes[i].key == kvs[i].0)
  }

  ghost predicate Shape(m: Links, kvs: Queue) {
    && (|kvs| <= m.cap ==> Filled(m, kvs))
    && (|kvs| == m.cap + 1 ==> OneOver(m, kvs))
    && (|kvs| >= m.cap + 2 ==> Frozen(m, kvs))
  }

  lemma FillStep(m: Links, kvs: Queue, k: Bytes, v: Bytes)
    requires Filled(m, kvs) && |kvs| < m.cap && Absent(kvs, k)
    ensures Filled(Store(m, k, v, false), kvs + [(k, v)])
  {
    assert IndexOf(m.nodes, k) == NIL;
    AppendContents(m, k, v);
  }

  lemma OverStep(m: Links, kvs: Queue, k: Bytes, v: Bytes)
    requires Filled(m, kvs) && |kvs| == m.cap >= 2 && Absent(kvs, k)
    ensures OneOver(Store(m, k, v, false), kvs + [(k, v)])
  {
    assert IndexOf(m.nodes, k) == NIL;
    ReuseContents(m, 0, k, v, false);
    RefreshEntries(m, 0, false);
  }

  /** Storing a new key when the head is stuck leaves the head where it is, replaces its key
      and makes it the last node. */
  lemma StuckStore(m: Links, k: Bytes, v: Bytes)
    requires Inv(m) && |m.nodes| == m.cap >= 2 && m.head == 1 && IndexOf(m.nodes, k) == NIL
    requires m.last == 1 || (m.last == 0 && m.nodes[1].prev == 0)
    ensures var r := Store(m, k, v, false);
      && Inv(r) && r.cap == m.cap && |r.nodes| == |m.nodes| && r.head == 1 && r.last == 1 && r.nodes[1].key == k
      && forall i :: 0 <= i < |m.nodes| && i != 1 ==> r.nodes[i].key == m.nodes[i].key
  {
    ReuseContents(m, 1, k, v, false);
    RefreshEntries(m, 1, false);
  }

  lemma FrozenStep(m: Links, kvs: Queue, k: Bytes, v: Bytes)
    requires (OneOver(m, kvs) || Frozen(m, kvs)) && Absent(kvs, k)
    ensures Frozen(Store(m, k, v, false), kvs + [(k, v)])
  {
    assert IndexOf(m.nodes, k) == NIL;
    StuckStore(m, k, v);
  }

  lemma {:induction false} StoresShape(cap: nat, kvs: Queue)
    requires cap >= 2 && DistinctQueue(kvs)
    ensures Shape(Run(cap, Stores(kvs), false), kvs)
  {
    if kvs != [] {
      var n := |kvs| - 1;
      var init, k, v := kvs[..n], kvs[n].0, kvs[n].1;
      assert kvs == init + [(k, v)];
      StoresShape(cap, init);
      LastStore(cap, kvs, false);
      var m := Run(cap, Stores(init), false);
      if n < cap {
        FillStep(m, init, k, v);
      } else if n == cap {
        OverStep(m, init, k, v);
      } else {
        FrozenStep(m, init, k, v);
      }
    }
  }

  /** For every capacity of at least two: after `cap + 3` or more stores of distinct keys,
      the key stored just before the last one is gone. */
  lemma EvictsPreviousKey(cap: nat, kvs: Queue, k: Bytes, v: Bytes)
    requires cap >= 2 && |kvs| >= cap + 2 && DistinctQueue(kvs) && Absent(kvs, k)
    ensures kvs[|kvs| - 1].0 in Contents(Run(cap, Stores(kvs), false))
    ensures kvs[|kvs| - 1].0 !in Contents(Run(cap, Stores(kvs + [(k, v)]), false))
  {
    var last := kvs[|kvs| - 1].0;
    var m := Run(cap, Stores(kvs), false);
    StoresShape(cap, kvs);
    assert IndexOf(m.nodes, last) != NIL && IndexOf(m.nodes, k) == NIL;
    StoreContents(m, k, v, false);
    assert (kvs + [(k, v)])[..|kvs|] == kvs;
    LastStore(cap, kvs + [(k, v)], false);
  }

  /** The last `n` elements, or all of them. */
  function Suffix<T>(s: seq<T>, n: nat): seq<T> {
    if |s| <= n then s else s[|s| - n..]
  }

  lemma LruLastStore(cap: nat, kvs: Queue)
    requires kvs != []
    ensures var n := |kvs| - 1;
      LruRun(cap, Stores(kvs)) == LruStep(cap, LruRun(cap, Stores(kvs[..n])), StoreOp(kvs[n].0, kvs[n].1))
  {
    assert Stores(kvs)[..|Stores(kvs)| - 1] == Stores(kvs[..|kvs| - 1]);
  }

  lemma LruStoreRecent(cap: nat, kvs: Queue, k: Bytes, v: Bytes)
    requires cap >= 1 && Absent(kvs, k)
    ensures LruStep(cap, Suffix(kvs, cap), StoreOp(k, v)) == Suffix(kvs + [(k, v)], cap)
  {
    var q := Suffix(kvs, cap);
    assert Position(q, k) == NIL;
    if |kvs| >= cap {
      assert q[1..] + [(k, v)] == (kvs + [(k, v)])[|kvs| + 1 - cap..];
    }
  }

  lemma LruRecentStep(cap: nat, init: Queue, k: Bytes, v: Bytes)
    requires cap >= 1 && LruRun(cap, Stores(init)) == Suffix(init, cap) && Absent(init, k)
    ensures LruRun(cap, Stores(init + [(k, v)])) == Suffix(init + [(k, v)], cap)
  {
    var kvs := init + [(k, v)];
    assert kvs[..|kvs| - 1] == init;
    LruLastStore(cap, kvs);
    LruStoreRecent(cap, init, k, v);
  }

  lemma {:induction false} LruKeepsRecent(cap: nat, kvs: Queue)
    requires cap >= 1 && DistinctQueue(kvs)
    ensures LruRun(cap, Stores(kvs)) == Suffix(kvs, cap)
  {
    if kvs != [] {
      var init, last := kvs[..|kvs| - 1], kvs[|kvs| - 1];
      assert kvs == init + [(last.0, last.1)];
      LruKeepsRecent(cap, init);
      LruRecentStep(cap, init, last.0, last.1);
    }
  }

  ghost function QueueKeys(q: Queue): set<Bytes> {
    set j | 0 <= j < |q| :: q[j].0
  }

  lemma {:induction false} CapacityOneAgrees(ops: seq<Op>)
    ensures Run(1, ops, false) == Run(1, ops, true)
  {
    if ops != [] { CapacityOneAgrees(ops[..|ops| - 1]); }
  }

  /** Distinct keys: the key at place `i` is `i` zero bytes. */
  function SampleKeys(n: nat): (kvs: Queue)
    ensures |kvs| == n && DistinctQueue(kvs)
    ensures forall i :: 0 <= i < n ==> |kvs[i].0| == i
  {
    if n == 0 then []
    else
      var init := SampleKeys(n - 1);
      var kvs := init + [(seq(n - 1, _ => 0), [])];
      assert kvs[..n - 1] == init;
      kvs
  }

  lemma AbsKeys(m: Links, ord: seq<int>)
    requires Ordered(m, ord)
    ensures QueueKeys(Abs(m, ord)) == Keys(m.nodes)
  {
    var q := Abs(m, ord);
    forall k | k in Keys(m.nodes) ensures k in QueueKeys(q) {
      var i := IndexOf(m.nodes, k);
      assert i in ord;
      var j :| 0 <= j < |ord| && ord[j] == i;
      assert q[j].0 == k;
    }
  }

  /** The documented promise, "evict the least recently used item", holds of the code as
      written for capacity one and for no other. */
  lemma LruExactlyAtCapacityOne(cap: nat)
    requires cap >= 1
    ensures cap == 1 <==>
      forall ops: seq<Op> :: Contents(Run(cap, ops, false)).Keys == QueueKeys(LruRun(cap, ops))
  {
    if cap == 1 {
      forall ops: seq<Op> ensures Contents(Run(cap, ops, false)).Keys == QueueKeys(LruRun(cap, ops)) {
        CapacityOneAgrees(ops);
        var ord := RepairedRefinesLru(cap, ops);
        AbsKeys(Run(cap, ops, true), ord);
      }
    } else {
      var kvs := SampleKeys(cap + 3);
      var n := cap + 2;
      var init := kvs[..n];
      assert kvs == init + [(kvs[n].0, kvs[n].1)];
      EvictsPreviousKey(cap, init, kvs[n].0, kvs[n].1);
      LruKeepsRecent(cap, kvs);
      var q := LruRun(cap, Stores(kvs));
      assert q[cap - 2].0 == init[n - 1].0;
      assert Contents(Run(cap, Stores(kvs), false)).Keys != QueueKeys(q);
    }
  }
}
