/** The shared request cache of requester/synccache.go: its values, the effect of
    each operation as a function on maps, and the mutable object itself. */
module SyncCacheModel {
  import opened Base

  /** What a backend request can produce, one constructor per request type. */
  datatype Data =
    | FileData(bytes: Bytes)
    | DirData(infos: seq<FileInfo>)
    | NameData(name: Bytes)

  /** The `len` of what a request produced. */
  function Size(d: Data): nat {
    match d
    case FileData(b) => |b|
    case DirData(l) => |l|
    case NameData(n) => |n|
  }

  /** `genCacheEntry`: a locker number other than 0 marks work in flight. */
  datatype Entry = Entry(data: Option<Data>, err: Option<Error>, locker: nat)

  predicate Available(e: Entry) {
    e.data.Some? || e.err.Some?
  }

  function Lookup<K>(m: map<K, Entry>, k: K): Option<Entry> {
    if k in m then Some(m[k]) else None
  }

  function InsertIfAbsent<K>(m: map<K, Entry>, k: K, e: Entry): map<K, Entry> {
    if k in m then m else m[k := e]
  }

  function Overwrite<K>(m: map<K, Entry>, k: K, e: Entry): map<K, Entry> {
    m[k := e]
  }

  function Remove<K>(m: map<K, Entry>, keys: set<K>): map<K, Entry> {
    m - keys
  }

  function Elements<K>(keys: seq<K>): set<K> {
    set k | k in keys
  }

  lemma ElementsSnoc<K>(keys: seq<K>, k: K)
    ensures Elements(keys + [k]) == Elements(keys) + {k}
  {
  }

  /** The mutable cache. Every method is one critical section of the lock, except
      `ClearCache`, which the source splits into `CollectKeys` and `DeleteKeys`. */
  class SyncCache {
    var m: map<Bytes, Entry>

    constructor ()
      ensures m == map[]
    {
      m := map[];
    }

    method Get(key: Bytes) returns (entry: Entry, found: bool)
      ensures found == (key in m)
      ensures Lookup(m, key) == if found then Some(entry) else None
      ensures !found ==> entry == Entry(None, None, 0)
    {
      if key in m {
        return m[key], true;
      }
      return Entry(None, None, 0), false;
    }

    method GetOrInsert(key: Bytes, value: Entry) returns (entry: Entry, loaded: bool)
      modifies this
      ensures loaded == (key in old(m))
      ensures Lookup(old(m), key) == if loaded then Some(entry) else None
      ensures m == InsertIfAbsent(old(m), key, value)
      ensures key in m && m[key] == if loaded then entry else value
    {
      entry, loaded := Get(key);
      if !loaded {
        m := m[key := value];
      }
    }

    method Set(key: Bytes, value: Entry)
      modifies this
      ensures m == Overwrite(old(m), key, value)
      ensures Lookup(m, key) == Some(value) && forall k :: k != key ==> Lookup(m, k) == Lookup(old(m), k)
    {
      m := m[key := value];
    }

    method Delete(key: Bytes)
      modifies this
      ensures m == Remove(old(m), {key})
      ensures Lookup(m, key) == None && forall k :: k != key ==> Lookup(m, k) == Lookup(old(m), k)
    {
      m := m - {key};
    }

    /** The read-locked half of `ClearCache`: the keys present now, each once. */
    method CollectKeys() returns (keys: seq<Bytes>)
      ensures Elements(keys) == m.Keys
      ensures |keys| == |m|
    {
      keys := [];
      var rest := m.Keys;
      while rest != {}
        invariant rest <= m.Keys
        invariant Elements(keys) == m.Keys - rest
        invariant |keys| + |rest| == |m|
        decreases rest
      {
        var k :| k in rest;
        ElementsSnoc(keys, k);
        keys := keys + [k];
        rest := rest - {k};
      }
    }

    /** The write-locked half of `ClearCache`: removes exactly the collected keys,
        and leaves what was inserted after they were collected. */
    method DeleteKeys(keys: seq<Bytes>)
      modifies this
      ensures m == Remove(old(m), Elements(keys))
    {
      for i := 0 to |keys|
        invariant m == old(m) - Elements(keys[..i])
      {
        m := m - {keys[i]};
        assert keys[..i + 1] == keys[..i] + [keys[i]];
        ElementsSnoc(keys[..i], keys[i]);
      }
      assert keys[..|keys|] == keys;
    }
  }
}
