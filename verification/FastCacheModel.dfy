/** The linked hash map of filetree/fastcache.go as values: nodes are numbered in the
    order they were allocated and links are node numbers, with NIL for a nil pointer.
    `repaired` selects between the code as written and the code with the missing
    assignment `d.next.prev = d.prev` in `refreshNode`. */
module FastCacheModel {
  import opened Base

  const NIL := -1

  datatype Node = Node(key: Bytes, val: Bytes, prev: int, next: int)

  datatype Links = Links(cap: nat, nodes: seq<Node>, head: int, last: int)

  function Empty(cap: nat): Links {
    Links(cap, [], NIL, NIL)
  }

  predicate IsLink(m: Links, x: int) {
    x == NIL || 0 <= x < |m.nodes|
  }

  /** What every reachable cache keeps, as written or repaired: distinct keys, no dangling
      link, and `last` the one node whose `next` is nil. */
  ghost predicate Inv(m: Links) {
    |m.nodes| <= m.cap && LinksInv(m) && DistinctKeys(m.nodes)
  }

  ghost predicate LinksInv(m: Links) {
    && (if m.nodes == [] then m.head == NIL && m.last == NIL
        else 0 <= m.head < |m.nodes| && 0 <= m.last < |m.nodes|)
    && (forall i :: 0 <= i < |m.nodes| ==> IsLink(m, m.nodes[i].prev) && IsLink(m, m.nodes[i].next))
    && (forall i :: 0 <= i < |m.nodes| ==> (m.nodes[i].next == NIL <==> i == m.last))
  }

  ghost predicate SameEntries(ns: seq<Node>, ns': seq<Node>) {
    |ns'| == |ns| && forall i :: 0 <= i < |ns| ==> ns'[i].key == ns[i].key && ns'[i].val == ns[i].val
  }

  ghost predicate DistinctKeys(nodes: seq<Node>) {
    forall i, j :: 0 <= i < j < |nodes| ==> nodes[i].key != nodes[j].key
  }

  /** The node the hash map holds for `k`, or NIL. */
  function IndexOf(nodes: seq<Node>, k: Bytes): (i: int)
    ensures NIL <= i < |nodes|
    ensures i == NIL ==> forall j :: 0 <= j < |nodes| ==> nodes[j].key != k
    ensures i != NIL ==> nodes[i].key == k
  {
    if nodes == [] then NIL
    else if nodes[|nodes| - 1].key == k then |nodes| - 1
    else IndexOf(nodes[..|nodes| - 1], k)
  }

  function SetNext(nodes: seq<Node>, i: int, next: int): seq<Node>
    requires 0 <= i < |nodes|
  {
    nodes[i := nodes[i].(next := next)]
  }

  function SetPrev(nodes: seq<Node>, i: int, prev: int): seq<Node>
    requires 0 <= i < |nodes|
  {
    nodes[i := nodes[i].(prev := prev)]
  }

  /** `refreshNode`: make node `d` the last one. */
  function Refresh(m: Links, d: int, repaired: bool): (r: Links)
    requires Inv(m) && 0 <= d < |m.nodes|
    ensures |r.nodes| == |m.nodes| && r.cap == m.cap
  {
    var p, x := m.nodes[d].prev, m.nodes[d].next;
    if x == NIL then m
    else
      var ns0 := if repaired then SetPrev(m.nodes, x, p) else m.nodes;
      var ns1 := if p != NIL then SetNext(ns0, p, x) else ns0;
      var ns2 := ns1[d := ns1[d].(prev := m.last, next := NIL)];
      Links(m.cap, SetNext(ns2, m.last, d), if p != NIL then m.head else x, d)
  }

  /** `Store` when the key is absent and there is room: append a new node. */
  function Append(m: Links, k: Bytes, v: Bytes): Links
    requires Inv(m)
  {
    var n := |m.nodes|;
    if m.head == NIL then Links(m.cap, [Node(k, v, NIL, NIL)], n, n)
    else Links(m.cap, SetNext(m.nodes, m.last, n) + [Node(k, v, m.last, NIL)], m.head, n)
  }

  /** Refresh node `d`, then let it hold `k` and `v`. */
  function Reuse(m: Links, d: int, k: Bytes, v: Bytes, repaired: bool): Links
    requires Inv(m) && 0 <= d < |m.nodes|
  {
    var r := Refresh(m, d, repaired);
    r.(nodes := r.nodes[d := r.nodes[d].(key := k, val := v)])
  }

  /** A hit overwrites the value of the node that already has key `k`; a miss in a full
      cache reuses the head; any other miss appends. */
  function Store(m: Links, k: Bytes, v: Bytes, repaired: bool): Links
    requires Inv(m) && m.cap >= 1
  {
    var d := IndexOf(m.nodes, k);
    if d != NIL then Reuse(m, d, k, v, repaired)
    else if |m.nodes| + 1 > m.cap then Reuse(m, m.head, k, v, repaired)
    else Append(m, k, v)
  }

  function Find(m: Links, k: Bytes, repaired: bool): (Links, Option<Bytes>)
    requires Inv(m)
  {
    var d := IndexOf(m.nodes, k);
    if d == NIL then (m, None) else (Refresh(m, d, repaired), Some(m.nodes[d].val))
  }

  /** What the cache holds: the hash map with nodes replaced by their values. */
  ghost function Contents(m: Links): map<Bytes, Bytes> {
    map k | k in Keys(m.nodes) :: m.nodes[IndexOf(m.nodes, k)].val
  }

  ghost function Keys(nodes: seq<Node>): (ks: set<Bytes>)
    ensures forall k :: k in ks <==> IndexOf(nodes, k) != NIL
  {
    var ks := set i | 0 <= i < |nodes| :: nodes[i].key;
    assert forall k :: IndexOf(nodes, k) != NIL ==> k == nodes[IndexOf(nodes, k)].key;
    ks
  }

  // ------------------------------------------------------------- one operation

  lemma IndexUnique(nodes: seq<Node>, i: int)
    requires DistinctKeys(nodes) && 0 <= i < |nodes|
    ensures IndexOf(nodes, nodes[i].key) == i
  {
  }

  lemma RefreshLinks(m: Links, d: int, repaired: bool)
    requires Inv(m) && 0 <= d < |m.nodes|
    ensures LinksInv(Refresh(m, d, repaired)) && Refresh(m, d, repaired).last == d
  {
  }

  lemma RefreshEntries(m: Links, d: int, repaired: bool)
    requires Inv(m) && 0 <= d < |m.nodes|
    ensures SameEntries(m.nodes, Refresh(m, d, repaired).nodes)
  {
  }

  /** The links after a refresh of a node that is not the last, as the code is written: the
      successor's `prev` stays what it was. */
  lemma StaleLinks(m: Links, d: int)
    requires Inv(m) && 0 <= d < |m.nodes| && m.nodes[d].next != NIL
    ensures var p, x, r := m.nodes[d].prev, m.nodes[d].next, Refresh(m, d, false);
      && r.last == d && r.head == (if p != NIL then m.head else x)
      && (forall i :: 0 <= i < |m.nodes| ==>
            r.nodes[i].next == if i == d then NIL else if i == m.last then d else if i == p then x else m.nodes[i].next)
      && (forall i :: 0 <= i < |m.nodes| ==> r.nodes[i].prev == if i == d then m.last else m.nodes[i].prev)
  {
  }

  lemma RefreshKeepsContents(m: Links, d: int, repaired: bool)
    requires Inv(m) && 0 <= d < |m.nodes|
    ensures var r := Refresh(m, d, repaired);
      Inv(r) && r.last == d && SameEntries(m.nodes, r.nodes) && Contents(r) == Contents(m)
  {
    RefreshLinks(m, d, repaired);
    RefreshEntries(m, d, repaired);
    SameEntriesSameContents(m, Refresh(m, d, repaired));
  }

  lemma SameEntriesSameIndex(ns: seq<Node>, ns': seq<Node>, k: Bytes)
    requires SameEntries(ns, ns') && DistinctKeys(ns)
    ensures IndexOf(ns', k) == IndexOf(ns, k)
  {
    var i := IndexOf(ns, k);
    if i != NIL { IndexUnique(ns', i); }
  }

  lemma SameEntriesSameContents(m: Links, r: Links)
    requires SameEntries(m.nodes, r.nodes) && DistinctKeys(m.nodes)
    ensures Contents(r) == Contents(m)
  {
    forall k ensures IndexOf(r.nodes, k) == IndexOf(m.nodes, k) {
      SameEntriesSameIndex(m.nodes, r.nodes, k);
    }
    assert Keys(r.nodes) == Keys(m.nodes);
  }

  lemma FindKeepsContents(m: Links, k: Bytes, repaired: bool)
    requires Inv(m)
    ensures var (r, hit) := Find(m, k, repaired);
      && Inv(r) && r.cap == m.cap && |r.nodes| == |m.nodes|
      && Contents(r) == Contents(m)
      && hit == (if k in Contents(m) then Some(Contents(m)[k]) else None)
      && (hit.Some? ==> 0 <= r.last < |r.nodes| && r.nodes[r.last].key == k)
  {
    var d := IndexOf(m.nodes, k);
    if d != NIL {
      RefreshKeepsContents(m, d, repaired);
    }
  }

  /** Where keys are found after node `d` is given key `k`. */
  lemma OverwriteIndex(ns: seq<Node>, d: int, k: Bytes, v: Bytes, x: Bytes)
    requires DistinctKeys(ns) && 0 <= d < |ns| && (IndexOf(ns, k) == NIL || IndexOf(ns, k) == d)
    ensures var ns' := ns[d := ns[d].(key := k, val := v)];
      && DistinctKeys(ns')
      && IndexOf(ns', x) == if x == k then d else if x == ns[d].key then NIL else IndexOf(ns, x)
  {
    var ns' := ns[d := ns[d].(key := k, val := v)];
    assert DistinctKeys(ns');
    var i := IndexOf(ns, x);
    if x == k {
      IndexUnique(ns', d);
    } else if i != NIL && i != d {
      IndexUnique(ns', i);
    } else {
      IndexUnique(ns, d);
    }
  }

  /** Putting key `k` with value `v` into node `d` replaces what that node held. */
  lemma OverwriteContents(m: Links, d: int, k: Bytes, v: Bytes)
    requires Inv(m) && 0 <= d < |m.nodes|
    requires IndexOf(m.nodes, k) == NIL || IndexOf(m.nodes, k) == d
    ensures var r := m.(nodes := m.nodes[d := m.nodes[d].(key := k, val := v)]);
      Inv(r) && Contents(r) == (Contents(m) - {m.nodes[d].key})[k := v]
  {
    var r := m.(nodes := m.nodes[d := m.nodes[d].(key := k, val := v)]);
    assert LinksInv(r);
    OverwriteIndex(m.nodes, d, k, v, k);
    OverwriteEntries(m, d, k, v);
  }

  lemma OverwriteEntries(m: Links, d: int, k: Bytes, v: Bytes)
    requires DistinctKeys(m.nodes) && 0 <= d < |m.nodes|
    requires IndexOf(m.nodes, k) == NIL || IndexOf(m.nodes, k) == d
    ensures Contents(m.(nodes := m.nodes[d := m.nodes[d].(key := k, val := v)]))
      == (Contents(m) - {m.nodes[d].key})[k := v]
  {
    var r := m.(nodes := m.nodes[d := m.nodes[d].(key := k, val := v)]);
    var want := (Contents(m) - {m.nodes[d].key})[k := v];
    forall x ensures (x in Contents(r) <==> x in want) && (x in want ==> Contents(r)[x] == want[x]) {
      OverwriteEntry(m, d, k, v, x);
    }
    assert Contents(r) == want;
  }

  lemma OverwriteEntry(m: Links, d: int, k: Bytes, v: Bytes, x: Bytes)
    requires DistinctKeys(m.nodes) && 0 <= d < |m.nodes|
    requires IndexOf(m.nodes, k) == NIL || IndexOf(m.nodes, k) == d
    ensures var r := Contents(m.(nodes := m.nodes[d := m.nodes[d].(key := k, val := v)]));
      var want := (Contents(m) - {m.nodes[d].key})[k := v];
      (x in r <==> x in want) && (x in want ==> r[x] == want[x])
  {
    IndexUnique(m.nodes, d);
    OverwriteIndex(m.nodes, d, k, v, x);
  }

  lemma AppendEntries(m: Links, k: Bytes, v: Bytes)
    requires Inv(m) && IndexOf(m.nodes, k) == NIL
    ensures var n, ns' := |m.nodes|, Append(m, k, v).nodes;
      && |ns'| == n + 1 && ns'[n].key == k && ns'[n].val == v
      && SameEntries(m.nodes, ns'[..n]) && DistinctKeys(ns')
      && forall i :: 0 <= i < n ==> ns'[i].key == m.nodes[i].key && ns'[i].val == m.nodes[i].val
  {
    AppendLinks(m, k, v);
  }

  lemma AppendIndex(m: Links, k: Bytes, v: Bytes, x: Bytes)
    requires Inv(m) && IndexOf(m.nodes, k) == NIL
    ensures var ns' := Append(m, k, v).nodes;
      && DistinctKeys(ns') && |ns'| == |m.nodes| + 1
      && SameEntries(m.nodes, ns'[..|m.nodes|])
      && IndexOf(ns', x) == if x == k then |m.nodes| else IndexOf(m.nodes, x)
  {
    var ns' := Append(m, k, v).nodes;
    AppendEntries(m, k, v);
    if x == k {
      IndexUnique(ns', |m.nodes|);
    } else {
      var i := IndexOf(m.nodes, x);
      if i != NIL { IndexUnique(ns', i); }
    }
  }

  lemma AppendLinks(m: Links, k: Bytes, v: Bytes)
    requires Inv(m)
    ensures var n, r := |m.nodes|, Append(m, k, v);
      && |r.nodes| == n + 1 && r.cap == m.cap
      && r.last == n && r.head == (if m.head == NIL then n else m.head) && r.nodes[n] == Node(k, v, m.last, NIL)
      && (forall i :: 0 <= i < n ==> r.nodes[i] == if i == m.last then m.nodes[i].(next := n) else m.nodes[i])
  {
  }

  lemma AppendContents(m: Links, k: Bytes, v: Bytes)
    requires Inv(m) && IndexOf(m.nodes, k) == NIL && |m.nodes| < m.cap
    ensures var r := Append(m, k, v); Inv(r) && Contents(r) == Contents(m)[k := v]
  {
    AppendInv(m, k, v);
    AppendMap(m, k, v);
  }

  lemma AppendInv(m: Links, k: Bytes, v: Bytes)
    requires Inv(m) && IndexOf(m.nodes, k) == NIL && |m.nodes| < m.cap
    ensures Inv(Append(m, k, v))
  {
    AppendLinks(m, k, v);
    assert DistinctKeys(Append(m, k, v).nodes) by { AppendEntries(m, k, v); }
  }

  lemma AppendMap(m: Links, k: Bytes, v: Bytes)
    requires Inv(m) && IndexOf(m.nodes, k) == NIL
    ensures Contents(Append(m, k, v)) == Contents(m)[k := v]
  {
    var r, want := Append(m, k, v), Contents(m)[k := v];
    AppendEntries(m, k, v);
    forall x ensures (x in Contents(r) <==> x in want) && (x in want ==> Contents(r)[x] == want[x]) {
      AppendIndex(m, k, v, x);
    }
  }

  /** `Store` keeps the structure, makes `k` the last node, and maps `k` to `v`; the only
      entry it can lose is the head's, and only when the key is new and the cache full. */
  lemma StoreContents(m: Links, k: Bytes, v: Bytes, repaired: bool)
    requires Inv(m) && m.cap >= 1
    ensures var r := Store(m, k, v, repaired);
      && Inv(r) && r.cap == m.cap
      && 0 <= r.last < |r.nodes| && r.nodes[r.last].key == k && r.nodes[r.last].val == v
      && Contents(r) == (if k !in Contents(m) && |m.nodes| == m.cap
                         then Contents(m) - {m.nodes[m.head].key} else Contents(m))[k := v]
  {
    if IndexOf(m.nodes, k) != NIL {
      HitContents(m, k, v, repaired);
    } else if |m.nodes| + 1 > m.cap {
      ReuseContents(m, m.head, k, v, repaired);
    } else {
      AppendContents(m, k, v);
    }
  }

  lemma HitContents(m: Links, k: Bytes, v: Bytes, repaired: bool)
    requires Inv(m) && IndexOf(m.nodes, k) != NIL
    ensures var d := IndexOf(m.nodes, k); var r := Reuse(m, d, k, v, repaired);
      && Inv(r) && r.cap == m.cap && r.last == d && |r.nodes| == |m.nodes| && r.nodes[d].key == k && r.nodes[d].val == v
      && k in Contents(m) && Contents(r) == Contents(m)[k := v]
  {
    ReuseContents(m, IndexOf(m.nodes, k), k, v, repaired);
    Overwritten(Contents(m), k, v);
  }

  lemma Overwritten(m: map<Bytes, Bytes>, k: Bytes, v: Bytes)
    ensures (m - {k})[k := v] == m[k := v]
  {
  }

  /** Refreshing node `d` and giving it key `k` and value `v`. */
  lemma ReuseContents(m: Links, d: int, k: Bytes, v: Bytes, repaired: bool)
    requires Inv(m) && 0 <= d < |m.nodes|
    requires IndexOf(m.nodes, k) == NIL || IndexOf(m.nodes, k) == d
    ensures var r := Reuse(m, d, k, v, repaired);
      && Inv(r) && r.cap == m.cap && |r.nodes| == |m.nodes|
      && r.last == d && r.nodes[d].key == k && r.nodes[d].val == v
      && Contents(r) == (Contents(m) - {m.nodes[d].key})[k := v]
  {
    var f := Refresh(m, d, repaired);
    RefreshKeepsContents(m, d, repaired);
    assert IndexOf(f.nodes, k) == IndexOf(m.nodes, k) by {
      assert k in Contents(m) <==> k in Contents(f);
      if IndexOf(m.nodes, k) == d { IndexUnique(f.nodes, d); }
    }
    OverwriteContents(f, d, k, v);
  }
}
