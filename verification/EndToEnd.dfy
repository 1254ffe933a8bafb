/** The end-to-end property: over the encrypted form of a tree, `ReadDir` and `ReadFile` give
    the listing and the contents of the plaintext tree. */
module EndToEnd {
  import opened Base
  import opened Paths
  import opened TreeView
  import opened EncryptedTree
  import NameCodec
  import ContentLayout
  import ContentCodec
  import ContentHoles

  // ---------------------------------------------------------------- one directory

  ghost predicate GoodItems(iv: Bytes, items: seq<Item>) {
    |iv| == NameCodec.IV_LEN && Distinct(items) && forall i :: 0 <= i < |items| ==> GoodName(items[i])
  }

  lemma GoodInit(iv: Bytes, items: seq<Item>)
    requires GoodItems(iv, items) && items != []
    ensures GoodItems(iv, items[..|items| - 1]) && GoodName(items[|items| - 1])
  {
  }

  /** The entries of the visible items. */
  function Entries(k: Keys, iv: Bytes, items: seq<Item>): seq<Entry>
    requires k.content.plainBS >= 1
  {
    if items == [] then []
    else
      var init, last := Entries(k, iv, items[..|items| - 1]), items[|items| - 1];
      if Visible(k, last) then init + [Entry(Info(k, iv, last), last.name)] else init
  }

  lemma {:induction false} DecryptedEntries(k: Keys, v: View, iv: Bytes, items: seq<Item>)
    requires LawfulKeys(k) && v.names == k.names && GoodItems(iv, items)
    ensures Decrypted(v, Infos(k, iv, items), iv) == Entries(k, iv, items)
    decreases |items|
  {
    if items != [] {
      var init, last := items[..|items| - 1], items[|items| - 1];
      GoodInit(iv, items);
      DecryptedEntries(k, v, iv, init);
      var infos := Infos(k, iv, items);
      assert infos[..|infos| - 1] == Infos(k, iv, init);
      assert infos[|infos| - 1].name == CipherName(k, iv, last);
      NameDecrypts(k, v, iv, last);
    }
  }

  /** The position of the visible item called `name`, if there is one. */
  function Position(k: Keys, items: seq<Item>, name: Bytes): (r: Option<nat>)
    ensures r.Some? ==> r.value < |items| && Visible(k, items[r.value]) && items[r.value].name == name
    ensures r.None? ==> forall i :: 0 <= i < |items| && Visible(k, items[i]) ==> items[i].name != name
  {
    if items == [] then None
    else if Visible(k, items[|items| - 1]) && items[|items| - 1].name == name then Some(|items| - 1)
    else Position(k, items[..|items| - 1], name)
  }

  lemma {:induction false} FirstNamedEntry(k: Keys, iv: Bytes, items: seq<Item>, name: Bytes)
    requires k.content.plainBS >= 1 && Distinct(items)
    ensures FirstNamed(Entries(k, iv, items), name) ==
      match Position(k, items, name) case None => None case Some(i) => Some(Info(k, iv, items[i]))
    decreases |items|
  {
    if items != [] {
      var init, last := items[..|items| - 1], items[|items| - 1];
      FirstNamedEntry(k, iv, init, name);
      if Visible(k, last) {
        var e := Entry(Info(k, iv, last), last.name);
        assert (Entries(k, iv, init) + [e])[..|Entries(k, iv, init)|] == Entries(k, iv, init);
      }
    }
  }

  lemma {:induction false} PlainChildIs(k: Keys, items: seq<Item>, name: Bytes)
    ensures PlainChild(k, items, name) ==
      match Position(k, items, name) case None => None case Some(i) => Some(items[i].tree)
    decreases |items|
  {
    if items != [] { PlainChildIs(k, items[..|items| - 1], name); }
  }

  /** The backend finds a visible item under its ciphertext name. */
  lemma {:induction false} StoredChildIs(k: Keys, iv: Bytes, items: seq<Item>, i: nat)
    requires LawfulKeys(k) && GoodItems(iv, items) && i < |items| && Visible(k, items[i])
    ensures StoredChild(k, iv, items, CipherName(k, iv, items[i])) == Some(items[i].tree)
    decreases |items|
  {
    var n := |items| - 1;
    if i < n {
      GoodInit(iv, items);
      StoredChildIs(k, iv, items[..n], i);
      assert items[..n][i] == items[i];
      assert items[n].Item? ==> CipherName(k, iv, items[n]) != CipherName(k, iv, items[i]) by {
        if items[n].Item? { CipherNameUnique(k, iv, items[i], items[n]); }
      }
    }
  }

  // -------------------------------------------------------------------------- paths

  /** The ciphertext path `path` is where the backend stores `node`. */
  ghost predicate Locates(k: Keys, root: Bytes, t: Tree, path: Bytes, node: Tree) {
    Under(root, Parse(path)) && StoredAt(k, t, Relative(root, Parse(path))) == Some(node)
  }

  lemma LocateChild(k: Keys, root: Bytes, t: Tree, path: Bytes, node: Tree, c: Bytes)
    requires Locates(k, root, t, path, node) && Proper(c)
    ensures var q := Parse(Join(path, c));
      && Under(root, q) && Relative(root, q) == Relative(root, Parse(path)) + [c]
      && Relative(root, q)[..|Relative(root, q)| - 1] == Relative(root, Parse(path))
  {
    JoinParse(path, c);
  }

  lemma ProperDirIv()
    ensures Proper(DIR_IV_NAME)
  {
  }

  /** Listing a stored directory. */
  lemma ListStored(k: Keys, root: Bytes, t: Tree, path: Bytes, node: Tree)
    requires LawfulKeys(k) && Locates(k, root, t, path, node) && node.Folder? && WellFormed(k, node)
    ensures ListDir(EncryptedView(k, root, t), path) == Ok(Entries(k, node.iv, node.items))
  {
    var v := EncryptedView(k, root, t);
    StoredIv(k, root, t, path, node);
    StoredInfos(k, root, t, path, node);
    assert v.backend.readFile(Join(path, DIR_IV_NAME)) == StoredFile(k, root, t, Join(path, DIR_IV_NAME));
    assert v.backend.readDir(path) == StoredDir(k, root, t, path);
    DecryptedEntries(k, v, node.iv, node.items);
  }

  lemma StoredIv(k: Keys, root: Bytes, t: Tree, path: Bytes, node: Tree)
    requires k.content.plainBS >= 1 && Locates(k, root, t, path, node) && node.Folder?
    ensures StoredFile(k, root, t, Join(path, DIR_IV_NAME)) == Ok(node.iv)
  {
    ProperDirIv();
    LocateChild(k, root, t, path, node, DIR_IV_NAME);
  }

  lemma StoredInfos(k: Keys, root: Bytes, t: Tree, path: Bytes, node: Tree)
    requires k.content.plainBS >= 1 && Locates(k, root, t, path, node) && node.Folder? && WellFormed(k, node)
    ensures StoredDir(k, root, t, path) == Ok(Infos(k, node.iv, node.items)) && Infos(k, node.iv, node.items) != []
  {
  }

  lemma FindStored(k: Keys, root: Bytes, t: Tree, path: Bytes, node: Tree, name: Bytes)
    requires LawfulKeys(k) && Locates(k, root, t, path, node) && node.Folder? && WellFormed(k, node)
    ensures FindInDir(EncryptedView(k, root, t), path, name) ==
      match Position(k, node.items, name)
      case None => Err(Error(11))
      case Some(i) => Ok(Info(k, node.iv, node.items[i]))
  {
    ListStored(k, root, t, path, node);
    FirstNamedEntry(k, node.iv, node.items, name);
  }

  /** A visible item of a stored directory is stored below it. */
  lemma LocateItem(k: Keys, root: Bytes, t: Tree, path: Bytes, node: Tree, i: nat)
    requires LawfulKeys(k) && Locates(k, root, t, path, node) && node.Folder? && WellFormed(k, node)
    requires i < |node.items| && Visible(k, node.items[i])
    ensures Locates(k, root, t, Join(path, CipherName(k, node.iv, node.items[i])), node.items[i].tree)
    ensures StoredFile(k, root, t, Join(path, CipherName(k, node.iv, node.items[i]))) ==
      if node.items[i].tree.File? then Ok(Ciphertext(k, node.items[i].tree)) else Err(Error(21))
  {
    var c := CipherName(k, node.iv, node.items[i]);
    CipherNameProper(k, node.iv, node.items[i]);
    LocateChild(k, root, t, path, node, c);
    StoredChildIs(k, node.iv, node.items, i);
  }

  lemma LocateRoot(k: Keys, root: Bytes, t: Tree)
    ensures Locates(k, root, t, root, t)
  {
    var q := Parse(root);
    assert q.comps[|q.comps|..] == [];
  }

  /** The walk reaches exactly the folders of the plaintext tree. */
  lemma {:induction false} WalkReaches(k: Keys, root: Bytes, t: Tree, comps: seq<Bytes>)
    requires LawfulKeys(k) && WellFormed(k, t) && t.Folder?
    ensures var dir := Walk(EncryptedView(k, root, t), comps); var node := PlainAt(k, t, comps);
      && (dir.Ok? <==> node.Some? && node.value.Folder?)
      && (dir.Ok? ==> Locates(k, root, t, dir.value, node.value))
      && (node.Some? ==> WellFormed(k, node.value))
    decreases |comps|
  {
    if comps == [] {
      LocateRoot(k, root, t);
    } else {
      var init, name := comps[..|comps| - 1], comps[|comps| - 1];
      WalkReaches(k, root, t, init);
      var dir, node := Walk(EncryptedView(k, root, t), init), PlainAt(k, t, init);
      if dir.Ok? {
        WalkStep(k, root, t, dir.value, node.value, name);
      }
    }
  }

  lemma WalkStep(k: Keys, root: Bytes, t: Tree, path: Bytes, node: Tree, name: Bytes)
    requires LawfulKeys(k) && Locates(k, root, t, path, node) && node.Folder? && WellFormed(k, node)
    ensures var dir := Descend(EncryptedView(k, root, t), Ok(path), name); var child := PlainChild(k, node.items, name);
      && (dir.Ok? <==> child.Some? && child.value.Folder?)
      && (dir.Ok? ==> Locates(k, root, t, dir.value, child.value))
      && (child.Some? ==> WellFormed(k, child.value))
  {
    FindStored(k, root, t, path, node, name);
    PlainChildIs(k, node.items, name);
    var at := Position(k, node.items, name);
    if at.Some? {
      LocateItem(k, root, t, path, node, at.value);
    }
  }

  // ---------------------------------------------------------------------- main theorems

  /** The size a listing shows for a file is the size of its plaintext. */
  lemma ShownSize(k: Keys, file: Tree)
    requires LawfulKeys(k) && file.File? && WellFormed(k, file)
    ensures ContentLayout.CipherSizeToPlainSize(k.content.Layout(), |Ciphertext(k, file)|) == |FileData(k, file)|
  {
    if file.blocks == [] {
      ContentCodec.ParsePack(ContentCodec.FileHeader(ContentCodec.VERSION, file.id));
    } else {
      ContentHoles.FileWithHoles(k.content, file.blocks, file.id, file.nonces);
      ContentLayout.PlainCipherPlain(k.content.Layout(), |FileData(k, file)|);
    }
  }

  lemma {:induction false} ListingShown(k: Keys, v: View, iv: Bytes, items: seq<Item>)
    requires LawfulKeys(k) && v.content == k.content
    requires forall i :: 0 <= i < |items| && items[i].Item? ==> WellFormed(k, items[i].tree)
    ensures PlainInfos(v, Entries(k, iv, items)) == PlainListing(k, items)
    decreases |items|
  {
    if items != [] {
      var init, last := items[..|items| - 1], items[|items| - 1];
      ListingShown(k, v, iv, init);
      if Visible(k, last) {
        var e := Entry(Info(k, iv, last), last.name);
        assert PlainInfos(v, Entries(k, iv, init) + [e]) == PlainInfos(v, Entries(k, iv, init)) + [PlainInfo(v, e)];
        if last.tree.File? { ShownSize(k, last.tree); }
      }
    }
  }

  /** `ReadDir` of any path lists exactly what the plaintext tree has there, in order, with the
      plaintext file sizes; it fails exactly where the tree has no folder. */
  lemma ReadDirShows(k: Keys, root: Bytes, t: Tree, plainPath: Bytes)
    requires LawfulKeys(k) && WellFormed(k, t) && t.Folder?
    ensures var r := ReadDir(EncryptedView(k, root, t), plainPath); var node := PlainAt(k, t, Parse(plainPath).comps);
      if node.Some? && node.value.Folder? then r == Ok(PlainListing(k, node.value.items)) else r.Err?
  {
    var v, comps := EncryptedView(k, root, t), Parse(plainPath).comps;
    WalkReaches(k, root, t, comps);
    var dir, node := Walk(v, comps), PlainAt(k, t, comps);
    if dir.Ok? {
      ListStored(k, root, t, dir.value, node.value);
      ListingShown(k, v, node.value.iv, node.value.items);
    }
  }

  /** `ReadFile` returns the plaintext of every non-empty file and fails on everything else. */
  lemma ReadFileShows(k: Keys, root: Bytes, t: Tree, plainPath: Bytes)
    requires LawfulKeys(k) && WellFormed(k, t) && t.Folder?
    ensures var r := ReadFile(EncryptedView(k, root, t), plainPath); var node := PlainAt(k, t, Parse(plainPath).comps);
      if node.Some? && node.value.File? && FileData(k, node.value) != []
      then r == ContentCodec.Returns(Ok(FileData(k, node.value)))
      else r.Returns? && r.result.Err?
  {
    FetchShows(k, root, t, plainPath);
    var node := PlainAt(k, t, Parse(plainPath).comps);
    if node.Some? && node.value.File? {
      var f := node.value;
      if f.blocks != [] {
        ContentHoles.FileWithHoles(k.content, f.blocks, f.id, f.nonces);
      } else {
        ContentCodec.EmptyFileUnreadable(k.content, f.id, f.nonces);
      }
    }
  }

  lemma FetchShows(k: Keys, root: Bytes, t: Tree, plainPath: Bytes)
    requires LawfulKeys(k) && WellFormed(k, t) && t.Folder?
    ensures var r := FetchPath(EncryptedView(k, root, t), plainPath); var node := PlainAt(k, t, Parse(plainPath).comps);
      && (node.Some? ==> WellFormed(k, node.value))
      && if node.Some? && node.value.File? then r == Ok(Ciphertext(k, node.value)) else r.Err?
  {
    var v, comps := EncryptedView(k, root, t), Parse(plainPath).comps;
    WalkReaches(k, root, t, comps);
    if comps != [] {
      var init, name := comps[..|comps| - 1], comps[|comps| - 1];
      WalkReaches(k, root, t, init);
      var dir, node := Walk(v, init), PlainAt(k, t, init);
      if dir.Ok? {
        FetchStored(k, root, t, dir.value, node.value, name);
      }
    }
  }

  lemma FetchStored(k: Keys, root: Bytes, t: Tree, path: Bytes, node: Tree, name: Bytes)
    requires LawfulKeys(k) && Locates(k, root, t, path, node) && node.Folder? && WellFormed(k, node)
    ensures var r := Fetch(EncryptedView(k, root, t), path, name); var child := PlainChild(k, node.items, name);
      if child.Some? && child.value.File? then r == Ok(Ciphertext(k, child.value)) else r.Err?
  {
    FindStored(k, root, t, path, node, name);
    PlainChildIs(k, node.items, name);
    var at := Position(k, node.items, name);
    if at.Some? {
      var item := node.items[at.value];
      var info := Info(k, node.iv, item);
      assert info.name == CipherName(k, node.iv, item) && info.isDir == item.tree.Folder?;
      LocateItem(k, root, t, path, node, at.value);
      var child := Join(path, info.name);
      assert EncryptedView(k, root, t).backend.readFile(child) == StoredFile(k, root, t, child);
      CiphertextNonEmpty(k, node.items[at.value].tree);
    }
  }

  /** Even an empty file has a header. */
  lemma CiphertextNonEmpty(k: Keys, file: Tree)
    requires k.content.plainBS >= 1
    ensures file.File? && ContentCodec.GoodID(file.id) ==> Ciphertext(k, file) != []
  {
    if file.File? && ContentCodec.GoodID(file.id) {
      ContentCodec.ParsePack(ContentCodec.FileHeader(ContentCodec.VERSION, file.id));
    }
  }

  // ------------------------------------------------------- the assumptions are consistent

  /** Stand-ins for the ciphers: a tag of zeros, and no transformation at all. */
  function ZeroTagAead(): ContentCodec.Aead {
    ContentCodec.Aead(
      (nonce: Bytes, p: Bytes, ad: Bytes) => p + ContentCodec.Zeros(ContentCodec.TAG_LEN),
      (nonce: Bytes, c: Bytes, ad: Bytes) =>
        var n := |c| - ContentCodec.TAG_LEN;
        if n < 0 || c[n..] != ContentCodec.Zeros(ContentCodec.TAG_LEN) then None else Some(c[..n]))
  }

  function IdentityEme(): NameCodec.Eme {
    NameCodec.Eme((iv: Bytes, x: Bytes) => x, (iv: Bytes, x: Bytes) => x)
  }

  /** Some ciphers satisfy every law that the theorems assume. */
  lemma LawsSatisfiable(n: NameCodec.NameTransform, e: ContentCodec.ContentEnc)
    requires e.plainBS >= 1 && e.ivLen >= 1
    ensures LawfulKeys(Keys(n.(eme := IdentityEme()), e.(aead := ZeroTagAead())))
  {
    var a := ZeroTagAead();
    forall nonce: Bytes, p: Bytes, ad: Bytes
      ensures |a.seal(nonce, p, ad)| == |p| + ContentCodec.TAG_LEN && a.open(nonce, a.seal(nonce, p, ad), ad) == Some(p)
    {
      var c := a.seal(nonce, p, ad);
      assert c[..|p|] == p && c[|p|..] == ContentCodec.Zeros(ContentCodec.TAG_LEN);
    }
    forall nonce: Bytes, c: Bytes, ad: Bytes
      ensures a.open(nonce, c, ad).Some? ==> c == a.seal(nonce, a.open(nonce, c, ad).value, ad)
    {
      if a.open(nonce, c, ad).Some? {
        assert c == c[..|c| - ContentCodec.TAG_LEN] + c[|c| - ContentCodec.TAG_LEN..];
      }
    }
  }

  /** A folder with one file, whatever the file is called and holds, and however it is stored. */
  function SampleTree(k: Keys, name: Bytes, blocks: seq<ContentHoles.Stored>): Tree
    requires k.content.ivLen >= 1
  {
    var nonce: Bytes := [1] + ContentCodec.Zeros(k.content.ivLen - 1);
    var id: Bytes := [1] + ContentCodec.Zeros(ContentCodec.ID_LEN - 1);
    var items := [Service(DIR_IV_NAME, NameCodec.IV_LEN), Item(name, File(blocks, id, _ => nonce))];
    Folder(ContentCodec.Zeros(NameCodec.IV_LEN), 0, items)
  }

  lemma SampleIsWellFormed(k: Keys, name: Bytes, blocks: seq<ContentHoles.Stored>)
    requires k.content.ivLen >= 1 && NameCodec.ValidName(name) && |name| <= NameCodec.NAME_MAX
    requires ContentCodec.WellCut(k.content.plainBS, ContentHoles.Plains(k.content.plainBS, blocks))
    ensures WellFormed(k, SampleTree(k, name, blocks))
  {
    var t := SampleTree(k, name, blocks);
    assert t.items[0].name == DIR_IV_NAME && DIR_IV_NAME[9] == DOT;
    var file := t.items[1].tree;
    assert file.id[0] != 0 && file.nonces(0)[0] != 0;
    assert forall i :: file.nonces(i) == file.nonces(0);
    assert WellFormed(k, file);
  }
}
