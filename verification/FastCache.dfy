/** The mutable `FastCache` of filetree/fastcache.go: nodes with `prev` and `next` pointers
    threaded through a hash map. Each method is proved against the value model. */
module FastCacheObject {
  import opened Base
  import opened FastCacheModel

  class DirMapping {
    var plaintextPath: Bytes
    var ciphertextPath: Bytes
    var prev: DirMapping?
    var next: DirMapping?

    constructor (plaintextPath: Bytes, ciphertextPath: Bytes)
      ensures this.plaintextPath == plaintextPath && this.ciphertextPath == ciphertextPath
      ensures prev == null && next == null
    {
      this.plaintextPath := plaintextPath;
      this.ciphertextPath := ciphertextPath;
      prev, next := null, null;
    }
  }

  /** The hash map sends key `k` to the node that holds it. */
  ghost predicate IndexedAt(storage: map<Bytes, DirMapping>, arena: seq<DirMapping>, nodes: seq<Node>, k: Bytes) {
    && |arena| == |nodes|
    && (k in storage <==> IndexOf(nodes, k) != NIL)
    && (k in storage ==> storage[k] == arena[IndexOf(nodes, k)])
  }

  ghost predicate Indexes(storage: map<Bytes, DirMapping>, arena: seq<DirMapping>, nodes: seq<Node>) {
    forall k :: IndexedAt(storage, arena, nodes, k)
  }

  /** The object a link stands for. */
  ghost function At(arena: seq<DirMapping>, x: int): DirMapping? {
    if 0 <= x < |arena| then arena[x] else null
  }

  ghost predicate Distinct(arena: seq<DirMapping>) {
    forall i, j :: 0 <= i < j < |arena| ==> arena[i] != arena[j]
  }

  /** The pointers of node `i` after node `at` has been refreshed. */
  lemma RefreshPointers(arena: seq<DirMapping>, m: Links, at: int, i: int)
    requires Inv(m) && Distinct(arena) && |arena| == |m.nodes| && 0 <= at < |arena| && 0 <= i < |arena|
    requires m.nodes[at].next != NIL
    ensures var n, r := m.nodes[at], Refresh(m, at, false);
      && At(arena, r.nodes[i].prev) == (if i == at then At(arena, m.last) else At(arena, m.nodes[i].prev))
      && At(arena, r.nodes[i].next) ==
         if i == at then null
         else if arena[i] == At(arena, m.last) then arena[at]
         else if arena[i] == At(arena, n.prev) then At(arena, n.next) else At(arena, m.nodes[i].next)
  {
    StaleLinks(m, at);
  }

  /** The pointers of node `i` after a new node `d` has been appended. */
  lemma AppendPointers(arena: seq<DirMapping>, m: Links, d: DirMapping, k: Bytes, v: Bytes, i: int)
    requires Inv(m) && Distinct(arena) && |arena| == |m.nodes| && 0 <= i < |arena|
    ensures var r := Append(m, k, v);
      && |r.nodes| == |m.nodes| + 1 && r.nodes[i].key == m.nodes[i].key && r.nodes[i].val == m.nodes[i].val
      && At(arena + [d], r.nodes[i].prev) == At(arena, m.nodes[i].prev)
      && At(arena + [d], r.nodes[i].next) == if arena[i] == At(arena, m.last) then d else At(arena, m.nodes[i].next)
  {
    AppendLinks(m, k, v);
    assert IsLink(m, m.nodes[i].prev) && IsLink(m, m.nodes[i].next);
  }

  lemma IndexesSame(storage: map<Bytes, DirMapping>, arena: seq<DirMapping>, ns: seq<Node>, ns': seq<Node>)
    requires Indexes(storage, arena, ns) && SameEntries(ns, ns') && DistinctKeys(ns)
    ensures Indexes(storage, arena, ns')
  {
    forall k ensures IndexedAt(storage, arena, ns', k) {
      assert IndexedAt(storage, arena, ns, k);
      SameEntriesSameIndex(ns, ns', k);
    }
  }

  lemma IndexesOverwrite(storage: map<Bytes, DirMapping>, arena: seq<DirMapping>, ns: seq<Node>, at: int, k: Bytes,
                         v: Bytes)
    requires Indexes(storage, arena, ns) && DistinctKeys(ns) && 0 <= at < |ns|
    requires IndexOf(ns, k) == NIL || IndexOf(ns, k) == at
    ensures 0 <= at < |arena|
    ensures Indexes((storage - {ns[at].key})[k := arena[at]], arena, ns[at := ns[at].(key := k, val := v)])
  {
    assert IndexedAt(storage, arena, ns, k);
    var storage', ns' := (storage - {ns[at].key})[k := arena[at]], ns[at := ns[at].(key := k, val := v)];
    forall x ensures IndexedAt(storage', arena, ns', x) {
      assert IndexedAt(storage, arena, ns, x);
      OverwriteIndex(ns, at, k, v, x);
    }
  }

  lemma IndexesAppend(storage: map<Bytes, DirMapping>, arena: seq<DirMapping>, m: Links, d: DirMapping, k: Bytes,
                      v: Bytes)
    requires Indexes(storage, arena, m.nodes) && Inv(m) && IndexOf(m.nodes, k) == NIL
    ensures Indexes(storage[k := d], arena + [d], Append(m, k, v).nodes)
  {
    var storage', arena', ns' := storage[k := d], arena + [d], Append(m, k, v).nodes;
    forall x ensures IndexedAt(storage', arena', ns', x) {
      assert IndexedAt(storage, arena, m.nodes, x);
      AppendIndex(m, k, v, x);
    }
  }

  class FastCache {
    var storage: map<Bytes, DirMapping>
    const cacheSize: nat
    var count: nat
    var head: DirMapping?
    var last: DirMapping?

    /** The live nodes in the order of their allocation, and the value they stand for. */
    ghost var arena: seq<DirMapping>
    ghost var model: Links

    ghost predicate NodeAt(i: int)
      reads `arena, `model, arena
    {
      && 0 <= i < |arena| && i < |model.nodes|
      && arena[i].plaintextPath == model.nodes[i].key
      && arena[i].ciphertextPath == model.nodes[i].val
      && arena[i].prev == At(arena, model.nodes[i].prev)
      && arena[i].next == At(arena, model.nodes[i].next)
    }

    ghost predicate Valid()
      reads this, arena
    {
      && Inv(model) && model.cap == cacheSize >= 1
      && count == |arena| && Linked() && Indexes(storage, arena, model.nodes)
    }

    /** The pointers of the live nodes are the links of the model. */
    ghost predicate Linked()
      reads `arena, `model, `head, `last, arena
    {
      && |arena| == |model.nodes| && Distinct(arena)
      && (forall i :: 0 <= i < |arena| ==> NodeAt(i))
      && head == At(arena, model.head) && last == At(arena, model.last)
    }

    /** The nodes are the old ones and new ones. */
    twostate predicate Grown()
      reads this
    {
      && |old(arena)| <= |arena|
      && forall i :: 0 <= i < |arena| ==> if i < |old(arena)| then arena[i] == old(arena[i]) else fresh(arena[i])
    }

    constructor (cacheSize: nat)
      requires cacheSize >= 1
      ensures Valid() && this.cacheSize == cacheSize && model == Empty(cacheSize) && arena == []
    {
      storage := map[];
      this.cacheSize := cacheSize;
      count := 0;
      head, last := null, null;
      arena, model := [], Empty(cacheSize);
    }

    /** The pointer assignments of `refreshNode` for a node that has a successor. */
    method Relink(d: DirMapping, ghost at: int)
      requires Valid() && 0 <= at < |arena| && arena[at] == d && d.next != null
      modifies this`head, this`last, arena
      ensures head == (if old(d.prev) != null then old(head) else old(d.next)) && last == d
      ensures forall i :: 0 <= i < |arena| ==>
        && arena[i].plaintextPath == old(arena[i].plaintextPath)
        && arena[i].ciphertextPath == old(arena[i].ciphertextPath)
        && arena[i].prev == (if i == at then old(last) else old(arena[i].prev))
        && arena[i].next == (if i == at then null
                             else if arena[i] == old(last) then d
                             else if arena[i] == old(d.prev) then old(d.next) else old(arena[i].next))
    {
      assert NodeAt(at) && NodeAt(model.last);
      if d.prev != null {
        d.prev.next := d.next;
      } else {
        head := d.next;
      }
      d.prev := last;
      d.next := null;
      last.next := d;
      last := d;
    }

    /** `refreshNode`, with the stale back link of the code as written. */
    method RefreshNode(d: DirMapping, ghost at: int)
      requires Valid() && 0 <= at < |arena| && arena[at] == d
      modifies this`head, this`last, this`model, arena
      ensures Valid() && model == Refresh(old(model), at, false)
    {
      assert NodeAt(at);
      if d.next != null {
        ghost var m := model;
        Relink(d, at);
        RefreshKeepsContents(m, at, false);
        StaleLinks(m, at);
        model := Refresh(m, at, false);
        forall i | 0 <= i < |arena| ensures NodeAt(i) {
          assert old(NodeAt(i));
          RefreshPointers(arena, m, at, i);
        }
        IndexesSame(storage, arena, m.nodes, model.nodes);
      }
    }

    /** `Find`: a hit returns the node's paths and makes it the last node. */
    method Find(pPath: Bytes) returns (cPath: Bytes, found: bool)
      requires Valid()
      modifies this, arena
      ensures Valid() && arena == old(arena)
      ensures model == FastCacheModel.Find(old(model), pPath, false).0
      ensures FastCacheModel.Find(old(model), pPath, false).1 == if found then Some(cPath) else None
    {
      assert IndexedAt(storage, arena, model.nodes, pPath);
      if pPath !in storage {
        return [], false;
      }
      var d := storage[pPath];
      ghost var at := IndexOf(model.nodes, pPath);
      assert NodeAt(at);
      RefreshNode(d, at);
      RefreshEntries(old(model), at, false);
      assert NodeAt(at);
      return d.ciphertextPath, true;
    }

    method Clear()
      requires Valid()
      modifies this
      ensures Valid() && model == Empty(cacheSize) && arena == []
    {
      head, last := null, null;
      storage := map[];
      count := 0;
      arena, model := [], Empty(cacheSize);
    }

    /** Node `d` gets new paths, and the hash map follows. */
    method Assign(d: DirMapping, ghost at: int, pPath: Bytes, cPath: Bytes)
      requires Valid() && 0 <= at < |arena| && arena[at] == d
      requires IndexOf(model.nodes, pPath) == NIL || IndexOf(model.nodes, pPath) == at
      modifies this`storage, this`model, d`plaintextPath, d`ciphertextPath
      ensures Valid()
      ensures model == old(model).(nodes := old(model).nodes[at := old(model).nodes[at].(key := pPath, val := cPath)])
    {
      ghost var m := model;
      assert NodeAt(at);
      var oldPath := d.plaintextPath;
      d.plaintextPath := pPath;
      d.ciphertextPath := cPath;
      storage := (storage - {oldPath})[pPath := d];
      model := m.(nodes := m.nodes[at := m.nodes[at].(key := pPath, val := cPath)]);
      forall i | 0 <= i < |arena| ensures NodeAt(i) {
        assert old(NodeAt(i));
      }
      OverwriteContents(m, at, pPath, cPath);
      IndexesOverwrite(old(storage), arena, m.nodes, at, pPath, cPath);
    }

    /** Refresh node `d`, then let it hold the new paths. */
    method Reassign(d: DirMapping, ghost at: int, pPath: Bytes, cPath: Bytes)
      requires Valid() && 0 <= at < |arena| && arena[at] == d
      requires IndexOf(model.nodes, pPath) == NIL || IndexOf(model.nodes, pPath) == at
      modifies `head, `last, `storage, `model, arena
      ensures Valid() && model == Reuse(old(model), at, pPath, cPath, false)
    {
      RefreshNode(d, at);
      assert IndexOf(model.nodes, pPath) == IndexOf(old(model).nodes, pPath) by {
        RefreshEntries(old(model), at, false);
        SameEntriesSameIndex(old(model).nodes, model.nodes, pPath);
      }
      Assign(d, at, pPath, cPath);
    }

    /** `Store`: overwrite a hit, reuse the head of a full cache, or append a new node. */
    method Store(pPath: Bytes, cPath: Bytes)
      requires Valid()
      modifies this, arena
      ensures Valid() && model == FastCacheModel.Store(old(model), pPath, cPath, false)
      ensures Grown()
    {
      assert IndexedAt(storage, arena, model.nodes, pPath);
      if pPath in storage {
        Reassign(storage[pPath], IndexOf(model.nodes, pPath), pPath, cPath);
      } else if count + 1 > cacheSize {
        Reassign(head, model.head, pPath, cPath);
      } else {
        AddNode(pPath, cPath);
      }
    }

    method AddNode(pPath: Bytes, cPath: Bytes)
      requires Valid() && IndexOf(model.nodes, pPath) == NIL && count < cacheSize
      modifies this, arena
      ensures Valid() && model == Append(old(model), pPath, cPath)
      ensures Grown()
    {
      ghost var m := model;
      var newNode := new DirMapping(pPath, cPath);
      LinkLast(newNode);
      count := count + 1;
      storage := storage[pPath := newNode];
      assert Inv(model) by { AppendContents(m, pPath, cPath); }
      IndexesAppend(old(storage), old(arena), m, newNode, pPath, cPath);
    }

    /** The pointer assignments of `Store` for a new node. */
    method LinkLast(d: DirMapping)
      requires Inv(model) && Linked() && d !in arena && d.prev == null && d.next == null
      modifies this`head, this`last, this`arena, this`model, d`prev, arena
      ensures Linked() && arena == old(arena) + [d]
      ensures model == Append(old(model), d.plaintextPath, d.ciphertextPath)
    {
      ghost var m := model;
      if head == null {
        head := d;
        last := d;
      } else {
        d.prev := last;
        last.next := d;
        last := d;
      }
      arena := arena + [d];
      model := Append(m, d.plaintextPath, d.ciphertextPath);
      AppendLinks(m, d.plaintextPath, d.ciphertextPath);
      forall i | 0 <= i < |m.nodes| ensures NodeAt(i) {
        assert old(NodeAt(i));
        AppendPointers(old(arena), m, d, d.plaintextPath, d.ciphertextPath, i);
      }
    }
  }
}
