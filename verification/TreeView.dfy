/** What filetree/filetree.go computes over a fixed backend, without any cache: listing and
    decrypting directories, and walking down a path one component at a time. */
module TreeView {
  import opened Base
  import opened Paths
  import ContentLayout
  import ContentCodec
  import NameCodec

  /** The backend at one moment. */
  datatype Snapshot = Snapshot(readFile: Bytes -> Result<Bytes>, readDir: Bytes -> Result<seq<FileInfo>>)

  datatype View = View(root: Bytes, backend: Snapshot, names: NameCodec.NameTransform, content: ContentCodec.ContentEnc)

  const DIR_IV_NAME: Bytes := Ascii("gocryptfs.diriv")

  /** The request layer turns an empty answer into an error. */
  function Answer<T(==)>(r: Result<seq<T>>): Result<seq<T>> {
    if r.Ok? && r.value == [] then Err(Error(10)) else r
  }

  function RequestName(v: View, cName: Bytes, iv: Bytes): Result<Bytes> {
    Answer(NameCodec.DecryptName(v.names, cName, iv))
  }

  /** A directory entry and its decrypted name. */
  datatype Entry = Entry(info: FileInfo, name: Bytes)

  /** The entries whose names decrypt, in listing order. */
  function Decrypted(v: View, infos: seq<FileInfo>, iv: Bytes): seq<Entry> {
    if infos == [] then []
    else
      var init, info := Decrypted(v, infos[..|infos| - 1], iv), infos[|infos| - 1];
      var name := RequestName(v, info.name, iv);
      if name.Err? then init else init + [Entry(info, name.value)]
  }

  function ListDir(v: View, cipherPath: Bytes): Result<seq<Entry>> {
    var iv := Answer(v.backend.readFile(Join(cipherPath, DIR_IV_NAME)));
    if iv.Err? then Err(iv.error)
    else
      var infos := Answer(v.backend.readDir(cipherPath));
      if infos.Err? then Err(infos.error) else Ok(Decrypted(v, infos.value, iv.value))
  }

  /** The first entry called `name`. */
  function FirstNamed(entries: seq<Entry>, name: Bytes): Option<FileInfo> {
    if entries == [] then None
    else
      var init, last := FirstNamed(entries[..|entries| - 1], name), entries[|entries| - 1];
      if init.Some? then init else if last.name == name then Some(last.info) else None
  }

  function FindInDir(v: View, cipherPath: Bytes, plainName: Bytes): Result<FileInfo> {
    var entries := ListDir(v, cipherPath);
    if entries.Err? then Err(entries.error)
    else
      var item := FirstNamed(entries.value, plainName);
      if item.None? then Err(Error(11)) else Ok(item.value)
  }

  /** One step down from the directory at a ciphertext path. */
  function Descend(v: View, parent: Result<Bytes>, name: Bytes): Result<Bytes> {
    if parent.Err? then parent
    else
      var item := FindInDir(v, parent.value, name);
      if item.Err? then Err(item.error)
      else if !item.value.isDir then Err(Error(12))
      else Ok(Join(parent.value, item.value.name))
  }

  /** The ciphertext path of the directory at `comps`: the walk without a cache. */
  function Walk(v: View, comps: seq<Bytes>): Result<Bytes> {
    if comps == [] then Ok(v.root) else Descend(v, Walk(v, comps[..|comps| - 1]), comps[|comps| - 1])
  }

  function PlainInfo(v: View, e: Entry): FileInfo
    requires v.content.plainBS >= 1
  {
    FileInfo(e.name, ContentLayout.CipherSizeToPlainSize(v.content.Layout(), e.info.size), e.info.isDir)
  }

  function PlainInfos(v: View, entries: seq<Entry>): seq<FileInfo>
    requires v.content.plainBS >= 1
  {
    seq(|entries|, i requires 0 <= i < |entries| => PlainInfo(v, entries[i]))
  }

  function ReadDir(v: View, plainPath: Bytes): Result<seq<FileInfo>>
    requires v.content.plainBS >= 1
  {
    var dir := Walk(v, Parse(plainPath).comps);
    if dir.Err? then Err(dir.error)
    else
      var entries := ListDir(v, dir.value);
      if entries.Err? then Err(entries.error) else Ok(PlainInfos(v, entries.value))
  }

  /** The ciphertext of the file called `name` in the directory at `cipherPath`. */
  function Fetch(v: View, cipherPath: Bytes, name: Bytes): Result<Bytes> {
    var item := FindInDir(v, cipherPath, name);
    if item.Err? then Err(item.error)
    else if item.value.isDir then Err(Error(14))
    else Answer(v.backend.readFile(Join(cipherPath, item.value.name)))
  }

  /** The ciphertext of the file at a plaintext path. */
  function FetchPath(v: View, plainPath: Bytes): Result<Bytes> {
    var comps := Parse(plainPath).comps;
    if comps == [] then Err(Error(13))
    else
      var dir := Walk(v, comps[..|comps| - 1]);
      if dir.Err? then dir else Fetch(v, dir.value, comps[|comps| - 1])
  }

  function ReadFile(v: View, plainPath: Bytes): ContentCodec.Outcome
    requires v.content.plainBS >= 1
  {
    var bytes := FetchPath(v, plainPath);
    if bytes.Err? then ContentCodec.Returns(bytes) else ContentCodec.DecryptFile(v.content, bytes.value)
  }
}
