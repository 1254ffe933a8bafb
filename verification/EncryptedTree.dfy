/** A plaintext tree, its encrypted form on the backend, and the view that the file tree gives
    of it: the listing and the contents of the original. */
module EncryptedTree {
  import opened Base
  import opened Paths
  import opened TreeView
  import NameCodec
  import ContentLayout
  import ContentCodec
  import ContentHoles

  /** A plaintext tree with the random values chosen when it was encrypted. A file is its blocks,
      some of which may be holes; `size` is what the
      backend reports for a directory; service files are the backend's own, such as the one
      that holds the directory IV. */
  datatype Tree =
    | File(blocks: seq<ContentHoles.Stored>, id: Bytes, nonces: nat -> Bytes)
    | Folder(iv: Bytes, size: nat, items: seq<Item>)

  datatype Item = Item(name: Bytes, tree: Tree) | Service(name: Bytes, size: nat)

  /** The cipher configuration. */
  datatype Keys = Keys(names: NameCodec.NameTransform, content: ContentCodec.ContentEnc)

  ghost predicate LawfulKeys(k: Keys) {
    NameCodec.Lawful(k.names.eme) && ContentCodec.Lawful(k.content)
  }

  ghost predicate Distinct(items: seq<Item>) {
    forall i, j :: 0 <= i < j < |items| && items[i].Item? && items[j].Item? ==> items[i].name != items[j].name
  }

  ghost predicate WellFormed(k: Keys, t: Tree) {
    match t
    case File(blocks, id, nonces) =>
      && ContentCodec.GoodID(id) && ContentCodec.GoodNonces(k.content, nonces)
      && ContentCodec.WellCut(k.content.plainBS, ContentHoles.Plains(k.content.plainBS, blocks))
    case Folder(iv, _, items) =>
      && |iv| == NameCodec.IV_LEN && Distinct(items)
      && (exists i :: 0 <= i < |items| && items[i].Service? && items[i].name == DIR_IV_NAME)
      && (forall i :: 0 <= i < |items| ==> GoodName(items[i]))
      && (forall i :: 0 <= i < |items| && items[i].Item? ==> WellFormed(k, items[i].tree))
  }

  predicate GoodName(item: Item) {
    match item
    case Item(name, _) => NameCodec.ValidName(name) && |name| <= NameCodec.NAME_MAX
    case Service(name, _) => DOT in name
  }

  // ------------------------------------------------------------------------ encryption

  /** With long names on, a name of 176 bytes or more is stored under a hash, which the file
      tree cannot decrypt. */
  predicate Visible(k: Keys, item: Item) {
    item.Item? && (!k.names.longNames || |item.name| < 176)
  }

  function CipherName(k: Keys, iv: Bytes, item: Item): Bytes {
    if item.Service? || item.name == [] then item.name
    else
      var c := NameCodec.EncryptAndHashName(k.names, item.name, iv);
      if c.Ok? then c.value else []
  }

  /** The plaintext of a file. */
  function FileData(k: Keys, file: Tree): Bytes
    requires file.File?
  {
    ContentHoles.Content(k.content.plainBS, file.blocks)
  }

  function Ciphertext(k: Keys, file: Tree): Bytes
    requires file.File? && k.content.plainBS >= 1
  {
    ContentHoles.StoredFile(k.content, file.blocks, file.id, file.nonces)
  }

  function Info(k: Keys, iv: Bytes, item: Item): FileInfo
    requires k.content.plainBS >= 1
  {
    match item
    case Service(name, size) => FileInfo(name, size, false)
    case Item(_, tree) =>
      if tree.File? then FileInfo(CipherName(k, iv, item), |Ciphertext(k, tree)|, false)
      else FileInfo(CipherName(k, iv, item), tree.size, true)
  }

  function Infos(k: Keys, iv: Bytes, items: seq<Item>): seq<FileInfo>
    requires k.content.plainBS >= 1
  {
    seq(|items|, i requires 0 <= i < |items| => Info(k, iv, items[i]))
  }

  /** The subtree stored under a ciphertext name. */
  function StoredChild(k: Keys, iv: Bytes, items: seq<Item>, c: Bytes): Option<Tree> {
    if items == [] then None
    else
      var last := items[|items| - 1];
      if last.Item? && CipherName(k, iv, last) == c then Some(last.tree)
      else StoredChild(k, iv, items[..|items| - 1], c)
  }

  /** The subtree stored at a ciphertext path below the root. */
  function StoredAt(k: Keys, t: Tree, comps: seq<Bytes>): Option<Tree> {
    if comps == [] then Some(t)
    else
      var parent := StoredAt(k, t, comps[..|comps| - 1]);
      if parent.Some? && parent.value.Folder?
      then StoredChild(k, parent.value.iv, parent.value.items, comps[|comps| - 1]) else None
  }

  predicate Under(root: Bytes, q: Path) {
    q.rooted == Parse(root).rooted && Parse(root).comps <= q.comps
  }

  function Relative(root: Bytes, q: Path): seq<Bytes>
    requires Under(root, q)
  {
    q.comps[|Parse(root).comps|..]
  }

  /** The backend's answers on the encrypted tree. */
  function StoredDir(k: Keys, root: Bytes, t: Tree, path: Bytes): Result<seq<FileInfo>>
    requires k.content.plainBS >= 1
  {
    var q := Parse(path);
    if !Under(root, q) then Err(Error(20))
    else
      var node := StoredAt(k, t, Relative(root, q));
      if node.Some? && node.value.Folder? then Ok(Infos(k, node.value.iv, node.value.items)) else Err(Error(20))
  }

  function StoredFile(k: Keys, root: Bytes, t: Tree, path: Bytes): Result<Bytes>
    requires k.content.plainBS >= 1
  {
    var q := Parse(path);
    if !Under(root, q) || Relative(root, q) == [] then Err(Error(21))
    else
      var comps := Relative(root, q);
      var parent := StoredAt(k, t, comps[..|comps| - 1]);
      if comps[|comps| - 1] == DIR_IV_NAME && parent.Some? && parent.value.Folder? then Ok(parent.value.iv)
      else
        var node := StoredAt(k, t, comps);
        if node.Some? && node.value.File? then Ok(Ciphertext(k, node.value)) else Err(Error(21))
  }

  function EncryptedView(k: Keys, root: Bytes, t: Tree): View
    requires k.content.plainBS >= 1
  {
    View(root, Snapshot(path => StoredFile(k, root, t, path), path => StoredDir(k, root, t, path)), k.names, k.content)
  }

  // -------------------------------------------------------------------- the plain tree

  function PlainChild(k: Keys, items: seq<Item>, name: Bytes): Option<Tree> {
    if items == [] then None
    else
      var last := items[|items| - 1];
      if Visible(k, last) && last.name == name then Some(last.tree) else PlainChild(k, items[..|items| - 1], name)
  }

  /** What the plaintext tree has at a path, as far as names are visible. */
  function PlainAt(k: Keys, t: Tree, comps: seq<Bytes>): Option<Tree> {
    if comps == [] then Some(t)
    else
      var parent := PlainAt(k, t, comps[..|comps| - 1]);
      if parent.Some? && parent.value.Folder? then PlainChild(k, parent.value.items, comps[|comps| - 1]) else None
  }

  /** The listing a user of the plaintext tree expects: visible names in order, file sizes. */
  function PlainListing(k: Keys, items: seq<Item>): seq<FileInfo>
    requires k.content.plainBS >= 1
  {
    if items == [] then []
    else
      var init, last := PlainListing(k, items[..|items| - 1]), items[|items| - 1];
      if !Visible(k, last) then init
      else if last.tree.File? then init + [FileInfo(last.name, |FileData(k, last.tree)|, false)]
      else init + [FileInfo(last.name, ContentLayout.CipherSizeToPlainSize(k.content.Layout(), last.tree.size), true)]
  }

  // -------------------------------------------------------------------------- names

  lemma CipherNameCases(k: Keys, iv: Bytes, item: Item)
    requires LawfulKeys(k) && |iv| == NameCodec.IV_LEN && GoodName(item)
    ensures Visible(k, item) ==> CipherName(k, iv, item) == NameCodec.EncryptName(k.names, item.name, iv)
    ensures !Visible(k, item) ==> DOT in CipherName(k, iv, item)
  {
    if item.Item? {
      NameCodec.LengthThreshold(k.names, item.name, iv);
      if !Visible(k, item) { assert CipherName(k, iv, item)[9] == DOT; }
    }
  }

  /** Exactly the visible names decrypt. */
  lemma NameDecrypts(k: Keys, v: View, iv: Bytes, item: Item)
    requires LawfulKeys(k) && v.names == k.names && |iv| == NameCodec.IV_LEN && GoodName(item)
    ensures var name := RequestName(v, CipherName(k, iv, item), iv);
      if Visible(k, item) then name == Ok(item.name) else name.Err?
  {
    CipherNameCases(k, iv, item);
    if Visible(k, item) {
      NameCodec.DecryptEncrypt(k.names, item.name, iv);
    } else {
      NameCodec.DottedFails(k.names, CipherName(k, iv, item), iv);
    }
  }

  /** A visible item's ciphertext name is a proper component and no other item's. */
  lemma CipherNameUnique(k: Keys, iv: Bytes, item: Item, other: Item)
    requires LawfulKeys(k) && |iv| == NameCodec.IV_LEN && GoodName(item) && GoodName(other)
    requires Visible(k, item) && other.Item? && item.name != other.name
    ensures CipherName(k, iv, item) != CipherName(k, iv, other)
  {
    CipherNameCases(k, iv, item);
    CipherNameCases(k, iv, other);
    if Visible(k, other) {
      if CipherName(k, iv, item) == CipherName(k, iv, other) {
        NameCodec.EncryptInjective(k.names, item.name, other.name, iv);
      }
    } else {
      NameCodec.EncryptedIsShort(k.names, item.name, iv);
    }
  }

  lemma CipherNameProper(k: Keys, iv: Bytes, item: Item)
    requires LawfulKeys(k) && |iv| == NameCodec.IV_LEN && GoodName(item) && Visible(k, item)
    ensures Proper(CipherName(k, iv, item)) && CipherName(k, iv, item) != DIR_IV_NAME
  {
    CipherNameCases(k, iv, item);
    NameCodec.EncryptedIsShort(k.names, item.name, iv);
    NameCodec.DecryptEncrypt(k.names, item.name, iv);
    assert DOT in DIR_IV_NAME by { assert DIR_IV_NAME[9] == DOT; }
  }
}
