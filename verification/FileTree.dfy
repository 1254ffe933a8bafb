/** The file tree object of filetree/filetree.go: the same operations with the path cache and
    the buffer pools, proved equal to the walk without a cache. */
module FileTreeObject {
  import opened Base
  import opened Paths
  import opened TreeView
  import FastCacheModel
  import opened FastCacheObject
  import opened ContentBuffers
  import ContentLayout
  import ContentCodec

  /** The entries an iteration visits: up to and including the first that stops it. */
  function Until(entries: seq<Entry>, stop: Bytes -> bool): seq<Entry> {
    if entries == [] then []
    else
      var init, last := Until(entries[..|entries| - 1], stop), entries[|entries| - 1];
      if init != [] && stop(init[|init| - 1].name) then init else init + [last]
  }

  lemma {:induction false} UntilNever(entries: seq<Entry>, stop: Bytes -> bool)
    requires forall name :: !stop(name)
    ensures Until(entries, stop) == entries
  {
    if entries != [] {
      var init, last := entries[..|entries| - 1], entries[|entries| - 1];
      UntilNever(init, stop);
      if init != [] { assert !stop(init[|init| - 1].name); }
      assert entries == init + [last];
    }
  }

  /** Stopping at a name finds the first entry so called. */
  lemma {:induction false} UntilNamed(entries: seq<Entry>, stop: Bytes -> bool, name: Bytes)
    requires forall x :: stop(x) <==> x == name
    ensures var seen := Until(entries, stop);
      FirstNamed(entries, name) ==
        if seen != [] && seen[|seen| - 1].name == name then Some(seen[|seen| - 1].info) else None
  {
    if entries != [] { UntilNamed(entries[..|entries| - 1], stop, name); }
  }

  lemma VisitNext(v: View, infos: seq<FileInfo>, iv: Bytes, stop: Bytes -> bool, i: nat)
    requires i < |infos|
    ensures var seen := Until(Decrypted(v, infos[..i], iv), stop); var name := RequestName(v, infos[i].name, iv);
      Until(Decrypted(v, infos[..i + 1], iv), stop) ==
        if name.Err? || (seen != [] && stop(seen[|seen| - 1].name)) then seen else seen + [Entry(infos[i], name.value)]
  {
    assert infos[..i + 1][..i] == infos[..i];
    var name := RequestName(v, infos[i].name, iv);
    if name.Ok? {
      var e := Entry(infos[i], name.value);
      assert (Decrypted(v, infos[..i], iv) + [e])[..|Decrypted(v, infos[..i], iv)|] == Decrypted(v, infos[..i], iv);
    }
  }

  /** The cache only holds absolute paths, with the answers of the walk. */
  ghost predicate Coherent(v: View, m: FastCacheModel.Links) {
    forall k :: k in FastCacheModel.Contents(m) ==>
      IsRooted(k) && Walk(v, Parse(k).comps) == Ok(FastCacheModel.Contents(m)[k])
  }

  lemma CoherentFind(v: View, m: FastCacheModel.Links, path: Bytes)
    requires FastCacheModel.Inv(m) && Coherent(v, m)
    ensures var (r, hit) := FastCacheModel.Find(m, path, false);
      Coherent(v, r) && (hit.Some? ==> Walk(v, Parse(path).comps) == Ok(hit.value))
  {
    FastCacheModel.FindKeepsContents(m, path, false);
  }

  lemma CoherentStore(v: View, m: FastCacheModel.Links, path: Bytes, cPath: Bytes)
    requires FastCacheModel.Inv(m) && m.cap >= 1 && Coherent(v, m)
    requires IsRooted(path) && Walk(v, Parse(path).comps) == Ok(cPath)
    ensures Coherent(v, FastCacheModel.Store(m, path, cPath, false))
  {
    FastCacheModel.StoreContents(m, path, cPath, false);
  }

  /** From a relative path, `findPath` never ends: none of the paths it goes through is "/", and
      none of them is in any coherent cache. */
  lemma RelativeNeverEnds(v: View, m: FastCacheModel.Links, p: Bytes, n: nat)
    requires Coherent(v, m) && !IsRooted(p)
    ensures Ancestor(Clean(p), n) != [SLASH] && Ancestor(Clean(p), n) !in FastCacheModel.Contents(m)
  {
    ReachesRoot(p);
    CleanParse(p);
    AncestorKeepsRooted(Clean(p), n);
  }

  lemma RootOrNot(v: View, p: Bytes)
    requires IsRooted(p)
    ensures Parse(Clean(p)) == Parse(p)
    ensures Clean(p) == [SLASH] <==> Parse(p).comps == []
    ensures Clean(p) == [SLASH] ==> Walk(v, Parse(p).comps) == Ok(v.root)
  {
    CleanParse(p);
    CleanRoot(p);
  }

  lemma CleanRooted(p: Bytes)
    requires IsRooted(p)
    ensures IsRooted(Clean(p))
  {
  }

  lemma ParentAndName(p: Bytes)
    requires IsRooted(p) && Clean(p) != [SLASH]
    ensures var comps := Parse(p).comps;
      && comps != [] && IsRooted(Dir(Clean(p)))
      && Parse(Dir(Clean(p))).comps == comps[..|comps| - 1] && BaseName(Clean(p)) == comps[|comps| - 1]
  {
    CleanParse(p);
    CleanRoot(p);
    var comps := Parse(p).comps;
    var n := |comps| - 1;
    assert comps == comps[..n] + [comps[n]];
    DirBase(p, comps[..n], comps[n]);
  }

  /** The walk to a path is one step from the walk to its parent. */
  lemma WalkParent(v: View, p: Bytes)
    requires IsRooted(p) && Clean(p) != [SLASH]
    ensures IsRooted(Dir(Clean(p))) && |Parse(Dir(Clean(p))).comps| < |Parse(p).comps|
    ensures Walk(v, Parse(p).comps) == Descend(v, Walk(v, Parse(Dir(Clean(p))).comps), BaseName(Clean(p)))
  {
    ParentAndName(p);
  }

  /** A status and a buffer that stand for an outcome. */
  ghost predicate Delivers(outcome: ContentCodec.Outcome, status: Status, buf: array<byte>, len: nat)
    reads buf
  {
    match status
    case Panicked => outcome == ContentCodec.Panics
    case Failed(error) => outcome == ContentCodec.Returns(Err(error))
    case Done => len <= buf.Length && outcome == ContentCodec.Returns(Ok(buf[..len]))
  }

  /** File contents have lengths that fit into 64 bits. */
  ghost predicate Addressable(v: View) {
    forall path :: v.backend.readFile(path).Ok? ==> |v.backend.readFile(path).value| < ContentLayout.UINT64
  }

  lemma FetchedFits(v: View, plainPath: Bytes)
    requires Addressable(v)
    ensures var r := TreeView.FetchPath(v, plainPath); r.Ok? ==> |r.value| < ContentLayout.UINT64
  {
  }

  class FileTree {
    const view: View
    const cache: FastCache
    const blockPool: BPool
    const reqPool: BPool

    ghost predicate Valid()
      reads cache, cache.arena, blockPool, reqPool
    {
      && cache.Valid() && Coherent(view, cache.model)
      && ContentCodec.Lawful(view.content) && view.content.plainBS == ContentLayout.DEFAULT_BS
      && Addressable(view) && blockPool.Valid() && reqPool.Valid() && blockPool.Distinct() && reqPool.Distinct()
      && blockPool.sliceLen == view.content.plainBS
      && reqPool.sliceLen == ContentLayout.MAX_KERNEL_WRITE + view.content.plainBS
    }

    constructor (view: View, cacheSize: nat)
      requires cacheSize >= 1 && Addressable(view)
      requires ContentCodec.Lawful(view.content) && view.content.plainBS == ContentLayout.DEFAULT_BS
      ensures Valid() && this.view == view && fresh(cache) && fresh(blockPool) && fresh(reqPool)
    {
      this.view := view;
      cache := new FastCache(cacheSize);
      blockPool := new BPool(view.content.plainBS);
      reqPool := new BPool(ContentLayout.MAX_KERNEL_WRITE + view.content.plainBS);
    }

    /** `rangeInDir`: the entries that the callback sees. */
    method RangeInDir(cipherPath: Bytes, stop: Bytes -> bool) returns (r: Result<seq<Entry>>)
      ensures var all := ListDir(view, cipherPath);
        if all.Err? then r == Err(all.error) else r == Ok(Until(all.value, stop))
    {
      var iv := Answer(view.backend.readFile(Join(cipherPath, DIR_IV_NAME)));
      if iv.Err? {
        return Err(iv.error);
      }
      var infos := Answer(view.backend.readDir(cipherPath));
      if infos.Err? {
        return Err(infos.error);
      }
      var seen := Visit(infos.value, iv.value, stop);
      return Ok(seen);
    }

    /** The callback on one entry, unless an earlier one has ended the iteration. */
    method VisitOne(infos: seq<FileInfo>, iv: Bytes, stop: Bytes -> bool, i: nat, seen: seq<Entry>, exit: bool)
      returns (seen': seq<Entry>, exit': bool)
      requires i < |infos| && seen == Until(Decrypted(view, infos[..i], iv), stop)
      requires exit == (seen != [] && stop(seen[|seen| - 1].name))
      ensures seen' == Until(Decrypted(view, infos[..i + 1], iv), stop)
      ensures exit' == (seen' != [] && stop(seen'[|seen'| - 1].name))
    {
      VisitNext(view, infos, iv, stop, i);
      seen', exit' := seen, exit;
      if !exit {
        var name := RequestName(view, infos[i].name, iv);
        if name.Ok? {
          seen' := seen + [Entry(infos[i], name.value)];
          exit' := stop(name.value);
        }
      }
    }

    method Visit(infos: seq<FileInfo>, iv: Bytes, stop: Bytes -> bool) returns (seen: seq<Entry>)
      ensures seen == Until(Decrypted(view, infos, iv), stop)
    {
      var exit := false;
      seen := [];
      for i := 0 to |infos|
        invariant seen == Until(Decrypted(view, infos[..i], iv), stop)
        invariant exit == (seen != [] && stop(seen[|seen| - 1].name))
      {
        seen, exit := VisitOne(infos, iv, stop, i, seen, exit);
      }
      assert infos[..|infos|] == infos;
    }

    method FindInDir(cipherPath: Bytes, plainName: Bytes) returns (r: Result<FileInfo>)
      ensures r == TreeView.FindInDir(view, cipherPath, plainName)
    {
      var stop := name => name == plainName;
      var seen := RangeInDir(cipherPath, stop);
      if seen.Err? {
        return Err(seen.error);
      }
      UntilNamed(ListDir(view, cipherPath).value, stop, plainName);
      var n := |seen.value|;
      if n > 0 && seen.value[n - 1].name == plainName {
        return Ok(seen.value[n - 1].info);
      }
      return Err(Error(11));
    }

    /** The memoised walk gives exactly the answer of the walk without a cache, errors
        included, whatever the cache holds and evicts, and keeps the cache coherent. */
    method FindPath(plainPath: Bytes) returns (r: Result<Bytes>)
      requires Valid() && IsRooted(plainPath)
      modifies cache, cache.arena
      ensures Valid() && cache.Grown()
      ensures r == Walk(view, Parse(plainPath).comps)
      decreases |Parse(plainPath).comps|, 1
    {
      var cleanPath := Clean(plainPath);
      RootOrNot(view, plainPath);
      if cleanPath == [SLASH] {
        return Ok(view.root);
      }
      var hit, found := FindCached(cleanPath);
      if found {
        return Ok(hit);
      }
      WalkParent(view, plainPath);
      CleanRooted(plainPath);
      r := FindUncached(cleanPath, Dir(cleanPath), BaseName(cleanPath));
    }

    /** `findPath` after a miss. */
    method FindUncached(cleanPath: Bytes, dir: Bytes, name: Bytes) returns (r: Result<Bytes>)
      requires Valid() && IsRooted(cleanPath) && IsRooted(dir) && |Parse(dir).comps| < |Parse(cleanPath).comps|
      requires Walk(view, Parse(cleanPath).comps) == Descend(view, Walk(view, Parse(dir).comps), name)
      modifies cache, cache.arena
      ensures Valid() && cache.Grown()
      ensures r == Walk(view, Parse(cleanPath).comps)
      decreases |Parse(cleanPath).comps|, 0
    {
      var parent := FindPath(dir);
      if parent.Err? {
        return parent;
      }
      r := StepDown(parent.value, name);
      if r.Ok? {
        StoreCached(cleanPath, r.value);
      }
    }

    /** Look the name up in the directory at `parent`; it must be a directory. */
    method StepDown(parent: Bytes, name: Bytes) returns (r: Result<Bytes>)
      ensures r == Descend(view, Ok(parent), name)
    {
      var item := FindInDir(parent, name);
      if item.Err? {
        return Err(item.error);
      }
      var ciphertextPath := Join(parent, item.value.name);
      if !item.value.isDir {
        return Err(Error(12));
      }
      return Ok(ciphertextPath);
    }

    method FindCached(path: Bytes) returns (hit: Bytes, found: bool)
      requires Valid()
      modifies cache, cache.arena
      ensures Valid() && cache.arena == old(cache.arena)
      ensures found ==> Walk(view, Parse(path).comps) == Ok(hit)
    {
      CoherentFind(view, cache.model, path);
      hit, found := cache.Find(path);
    }

    method StoreCached(path: Bytes, cPath: Bytes)
      requires Valid() && IsRooted(path) && Walk(view, Parse(path).comps) == Ok(cPath)
      modifies cache, cache.arena
      ensures Valid() && cache.Grown()
    {
      CoherentStore(view, cache.model, path, cPath);
      cache.Store(path, cPath);
    }

    method ReadDir(plainPath: Bytes) returns (r: Result<seq<FileInfo>>)
      requires Valid() && IsRooted(plainPath)
      modifies cache, cache.arena
      ensures Valid() && cache.Grown()
      ensures r == TreeView.ReadDir(view, plainPath)
    {
      var cleanPath := Clean(plainPath);
      RootOrNot(view, plainPath);
      CleanRooted(plainPath);
      var dir := FindPath(cleanPath);
      if dir.Err? {
        return Err(dir.error);
      }
      r := ListPlain(dir.value);
    }

    method ListPlain(cipherPath: Bytes) returns (r: Result<seq<FileInfo>>)
      requires view.content.plainBS >= 1
      ensures var all := ListDir(view, cipherPath);
        r == if all.Err? then Err(all.error) else Ok(PlainInfos(view, all.value))
    {
      var stop := (name: Bytes) => false;
      var seen := RangeInDir(cipherPath, stop);
      if seen.Err? {
        return Err(seen.error);
      }
      UntilNever(ListDir(view, cipherPath).value, stop);
      return Ok(PlainInfos(view, seen.value));
    }

    /** `ReadFile`: the specified outcome, with the data in memory that no pool holds. */
    method ReadFile(plainPath: Bytes) returns (status: Status, buf: array<byte>, len: nat)
      requires Valid() && IsRooted(plainPath)
      modifies cache, cache.arena, blockPool, blockPool.free, reqPool, reqPool.free
      ensures Valid() && cache.Grown()
      ensures Delivers(TreeView.ReadFile(view, plainPath), status, buf, len)
      ensures status == Done ==> fresh(buf) && buf !in blockPool.free && buf !in reqPool.free
    {
      var bytes := FetchPath(plainPath);
      if bytes.Err? {
        buf, len, status := new byte[0], 0, Failed(bytes.error);
        return;
      }
      FetchedFits(view, plainPath);
      status, buf, len := Deliver(bytes.value);
    }

    /** Find the file and request its ciphertext. */
    method FetchPath(plainPath: Bytes) returns (r: Result<Bytes>)
      requires Valid() && IsRooted(plainPath)
      modifies cache, cache.arena
      ensures Valid() && cache.Grown()
      ensures r == TreeView.FetchPath(view, plainPath)
    {
      var cleanPath := Clean(plainPath);
      RootOrNot(view, plainPath);
      if cleanPath == [SLASH] {
        return Err(Error(13));
      }
      ParentAndName(plainPath);
      var dir := FindPath(Dir(cleanPath));
      if dir.Err? {
        return dir;
      }
      r := FetchFile(dir.value, BaseName(cleanPath));
    }

    /** Decrypt a file; the path cache is not involved. */
    method Deliver(bytes: Bytes) returns (status: Status, buf: array<byte>, len: nat)
      requires Valid() && |bytes| < ContentLayout.UINT64
      modifies blockPool, blockPool.free, reqPool, reqPool.free
      ensures Valid()
      ensures Delivers(ContentCodec.DecryptFile(view.content, bytes), status, buf, len)
      ensures status == Done ==> fresh(buf) && buf !in blockPool.free && buf !in reqPool.free
    {
      status, buf, len := DecryptFileTo(view.content, blockPool, reqPool, bytes);
    }

    /** The ciphertext of the file called `name` in the directory at `cipherPath`. */
    method FetchFile(cipherPath: Bytes, name: Bytes) returns (r: Result<Bytes>)
      ensures r == Fetch(view, cipherPath, name)
    {
      var item := FindInDir(cipherPath, name);
      if item.Err? {
        return Err(item.error);
      }
      if item.value.isDir {
        return Err(Error(14));
      }
      return Answer(view.backend.readFile(Join(cipherPath, item.value.name)));
    }
  }
}
