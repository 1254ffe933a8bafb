/** The end-to-end property of the running object: cache, pools and all. */
module EndToEndObject {
  import opened Base
  import opened Paths
  import opened EncryptedTree
  import opened EndToEnd
  import opened FileTreeObject
  import ContentBuffers

  /** The file tree serves the encrypted form of `t`. */
  ghost predicate Serves(f: FileTree, k: Keys, root: Bytes, t: Tree) {
    LawfulKeys(k) && WellFormed(k, t) && t.Folder? && f.view == EncryptedView(k, root, t)
  }

  /** Whatever was looked up before, `ReadDir` lists the plaintext folder. */
  method ReadDir(f: FileTree, plainPath: Bytes, ghost k: Keys, ghost root: Bytes, ghost t: Tree)
    returns (r: Result<seq<FileInfo>>)
    requires f.Valid() && Serves(f, k, root, t) && IsRooted(plainPath)
    modifies f.cache, f.cache.arena
    ensures f.Valid()
    ensures var node := PlainAt(k, t, Parse(plainPath).comps);
      if node.Some? && node.value.Folder? then r == Ok(PlainListing(k, node.value.items)) else r.Err?
  {
    ReadDirShows(k, root, t, plainPath);
    r := f.ReadDir(plainPath);
  }

  /** Whatever was read before, `ReadFile` delivers the plaintext of a non-empty file, in memory
      of the caller's own, and fails on everything else. */
  method ReadFile(f: FileTree, plainPath: Bytes, ghost k: Keys, ghost root: Bytes, ghost t: Tree)
    returns (status: ContentBuffers.Status, buf: array<byte>, len: nat)
    requires f.Valid() && Serves(f, k, root, t) && IsRooted(plainPath)
    modifies f.cache, f.cache.arena, f.blockPool, f.blockPool.free, f.reqPool, f.reqPool.free
    ensures f.Valid()
    ensures var node := PlainAt(k, t, Parse(plainPath).comps);
      if node.Some? && node.value.File? && FileData(k, node.value) != []
      then status == ContentBuffers.Done && len <= buf.Length && buf[..len] == FileData(k, node.value) && fresh(buf)
      else status.Failed?
  {
    ReadFileShows(k, root, t, plainPath);
    status, buf, len := f.ReadFile(plainPath);
  }
}
