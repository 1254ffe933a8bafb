/** What a lookup in the tree means, over any backend, damaged or not: exactly which directories are
    listed and which paths are found, entry by entry of the listings. */
module TreeLookup {
  import opened Base
  import opened Paths
  import opened TreeView
  import ContentLayout
  import NameCodec

  /** The backend has a directory here: its IV file and its listing can be read and are not empty. */
  predicate Readable(v: View, dir: Bytes, iv: Bytes, infos: seq<FileInfo>) {
    && v.backend.readFile(Join(dir, DIR_IV_NAME)) == Ok(iv) && iv != []
    && v.backend.readDir(dir) == Ok(infos) && infos != []
  }

  /** The entry's name decrypts to `name` under the directory's IV. */
  predicate Called(v: View, info: FileInfo, iv: Bytes, name: Bytes) {
    NameCodec.DecryptName(v.names, info.name, iv) == Ok(name)
  }

  predicate Nameless(v: View, info: FileInfo, iv: Bytes) {
    NameCodec.DecryptName(v.names, info.name, iv).Err?
  }

  /** Entry `j` is the first one called `name`. */
  ghost predicate FirstCalled(v: View, infos: seq<FileInfo>, iv: Bytes, name: Bytes, j: nat) {
    && j < |infos| && Called(v, infos[j], iv, name)
    && forall i :: 0 <= i < j ==> !Called(v, infos[i], iv, name)
  }

  /** Decrypted names are never empty. */
  lemma NameNonEmpty(v: View, info: FileInfo, iv: Bytes)
    ensures RequestName(v, info.name, iv) == NameCodec.DecryptName(v.names, info.name, iv)
      || (RequestName(v, info.name, iv).Err? && Nameless(v, info, iv))
  {
  }

  // ------------------------------------------------------------------------ listings

  /** `at` says from which entries of the listing the decrypted ones come: from all whose names
      decrypt, in order. */
  ghost predicate Selects(v: View, infos: seq<FileInfo>, iv: Bytes, entries: seq<Entry>, at: seq<nat>) {
    && |at| == |entries|
    && (forall t :: 0 <= t < |at| ==>
          at[t] < |infos| && entries[t].info == infos[at[t]] && Called(v, infos[at[t]], iv, entries[t].name))
    && (forall t, u :: 0 <= t < u < |at| ==> at[t] < at[u])
    && (forall j :: 0 <= j < |infos| ==> Nameless(v, infos[j], iv) || j in at)
  }

  lemma {:induction false} DecryptedSelects(v: View, infos: seq<FileInfo>, iv: Bytes) returns (at: seq<nat>)
    ensures Selects(v, infos, iv, Decrypted(v, infos, iv), at)
    decreases |infos|
  {
    if infos == [] {
      at := [];
    } else {
      var n := |infos| - 1;
      at := DecryptedSelects(v, infos[..n], iv);
      NameNonEmpty(v, infos[n], iv);
      if RequestName(v, infos[n].name, iv).Ok? {
        at := SelectsSnoc(v, infos, iv, Decrypted(v, infos[..n], iv), at);
      } else {
        SelectsSkip(v, infos, iv, Decrypted(v, infos[..n], iv), at);
      }
    }
  }

  lemma SelectsSkip(v: View, infos: seq<FileInfo>, iv: Bytes, entries: seq<Entry>, at: seq<nat>)
    requires infos != [] && Selects(v, infos[..|infos| - 1], iv, entries, at)
    requires Nameless(v, infos[|infos| - 1], iv)
    ensures Selects(v, infos, iv, entries, at)
  {
    var n := |infos| - 1;
    forall j | 0 <= j < |infos| ensures Nameless(v, infos[j], iv) || j in at {
      if j < n { assert Nameless(v, infos[..n][j], iv) || j in at; }
    }
    assert forall t :: 0 <= t < |at| ==> infos[..n][at[t]] == infos[at[t]];
  }

  lemma SelectsSnoc(v: View, infos: seq<FileInfo>, iv: Bytes, entries: seq<Entry>, at: seq<nat>) returns (at': seq<nat>)
    requires infos != [] && Selects(v, infos[..|infos| - 1], iv, entries, at)
    requires NameCodec.DecryptName(v.names, infos[|infos| - 1].name, iv).Ok?
    ensures var last := infos[|infos| - 1];
      var e := Entry(last, NameCodec.DecryptName(v.names, last.name, iv).value);
      Selects(v, infos, iv, entries + [e], at')
  {
    var n := |infos| - 1;
    at' := at + [n];
    assert forall t :: 0 <= t < |at| ==> infos[..n][at[t]] == infos[at[t]];
    forall j | 0 <= j < |infos| ensures Nameless(v, infos[j], iv) || j in at' {
      if j < n { assert Nameless(v, infos[..n][j], iv) || j in at; } else { assert at'[|at|] == n; }
    }
  }

  /** A directory is listed if and only if it is readable, and the listing is then its entries whose
      names decrypt, in order. */
  lemma ListsExactly(v: View, dir: Bytes) returns (at: seq<nat>)
    ensures ListDir(v, dir).Ok? <==> exists iv, infos: seq<FileInfo> :: Readable(v, dir, iv, infos)
    ensures forall iv, infos: seq<FileInfo> :: Readable(v, dir, iv, infos) ==>
      Selects(v, infos, iv, ListDir(v, dir).value, at)
  {
    at := [];
    if ListDir(v, dir).Ok? {
      var iv, infos := v.backend.readFile(Join(dir, DIR_IV_NAME)).value, v.backend.readDir(dir).value;
      assert Readable(v, dir, iv, infos);
      at := DecryptedSelects(v, infos, iv);
    }
  }

  // --------------------------------------------------------------------------- names

  lemma {:induction false} FirstNamedIs(entries: seq<Entry>, name: Bytes) returns (t: nat)
    ensures FirstNamed(entries, name).None? <==> forall u :: 0 <= u < |entries| ==> entries[u].name != name
    ensures FirstNamed(entries, name).Some? ==>
      && t < |entries| && entries[t].name == name && FirstNamed(entries, name).value == entries[t].info
      && forall u :: 0 <= u < t ==> entries[u].name != name
    decreases |entries|
  {
    t := 0;
    if entries != [] {
      var n := |entries| - 1;
      t := FirstNamedIs(entries[..n], name);
      if FirstNamed(entries[..n], name).None? {
        t := n;
      }
    }
  }

  /** The first selected entry with a name is the first with that name at all. */
  lemma SelectedFirst(v: View, infos: seq<FileInfo>, iv: Bytes, entries: seq<Entry>, at: seq<nat>, name: Bytes, t: nat)
    requires Selects(v, infos, iv, entries, at) && t < |entries| && entries[t].name == name
    requires forall u :: 0 <= u < t ==> entries[u].name != name
    ensures FirstCalled(v, infos, iv, name, at[t])
  {
    forall i | 0 <= i < at[t] ensures !Called(v, infos[i], iv, name) {
      assert Nameless(v, infos[i], iv) || i in at;
      if i in at {
        var u :| 0 <= u < |at| && at[u] == i;
        assert u < t;
        assert Called(v, infos[at[u]], iv, entries[u].name);
      }
    }
  }

  lemma FirstIsUnique(v: View, infos: seq<FileInfo>, iv: Bytes, name: Bytes, i: nat, j: nat)
    requires FirstCalled(v, infos, iv, name, i) && FirstCalled(v, infos, iv, name, j)
    ensures i == j
  {
  }

  /** A lookup finds the first entry called `name`, or nothing if there is none. */
  lemma FindsFirst(v: View, dir: Bytes, name: Bytes, iv: Bytes, infos: seq<FileInfo>, j: nat)
    requires Readable(v, dir, iv, infos) && FirstCalled(v, infos, iv, name, j)
    ensures FindInDir(v, dir, name) == Ok(infos[j])
  {
    var at := ListsExactly(v, dir);
    var entries := ListDir(v, dir).value;
    var t := FirstNamedIs(entries, name);
    assert Nameless(v, infos[j], iv) || j in at;
    var u :| 0 <= u < |at| && at[u] == j;
    assert entries[u].name == name;
    SelectedFirst(v, infos, iv, entries, at, name, t);
    FirstIsUnique(v, infos, iv, name, at[t], j);
  }

  lemma FindsOnlyFirst(v: View, dir: Bytes, name: Bytes) returns (iv: Bytes, infos: seq<FileInfo>, j: nat)
    requires FindInDir(v, dir, name).Ok?
    ensures Readable(v, dir, iv, infos) && FirstCalled(v, infos, iv, name, j) && FindInDir(v, dir, name) == Ok(infos[j])
  {
    var at := ListsExactly(v, dir);
    iv, infos :| Readable(v, dir, iv, infos);
    var entries := ListDir(v, dir).value;
    var t := FirstNamedIs(entries, name);
    SelectedFirst(v, infos, iv, entries, at, name, t);
    j := at[t];
  }

  /** Entry `j` of the readable directory at `dir` is the first called `name`. */
  ghost predicate Finds(v: View, dir: Bytes, name: Bytes, iv: Bytes, infos: seq<FileInfo>, j: nat) {
    Readable(v, dir, iv, infos) && FirstCalled(v, infos, iv, name, j)
  }

  /** `name` in the directory at `dir` is the directory at `child`. */
  ghost predicate StepsTo(v: View, dir: Bytes, name: Bytes, child: Bytes) {
    exists iv, infos: seq<FileInfo>, j: nat :: Finds(v, dir, name, iv, infos, j)
      && infos[j].isDir && child == Join(dir, infos[j].name)
  }

  lemma DescendsExactly(v: View, dir: Bytes, name: Bytes, child: Bytes)
    ensures Descend(v, Ok(dir), name) == Ok(child) <==> StepsTo(v, dir, name, child)
  {
    if StepsTo(v, dir, name, child) {
      var iv, infos: seq<FileInfo>, j: nat :| Finds(v, dir, name, iv, infos, j)
        && infos[j].isDir && child == Join(dir, infos[j].name);
      FindsFirst(v, dir, name, iv, infos, j);
    }
    if Descend(v, Ok(dir), name) == Ok(child) {
      var iv, infos, j := FindsOnlyFirst(v, dir, name);
      assert Finds(v, dir, name, iv, infos, j);
    }
  }

  // --------------------------------------------------------------------------- paths

  /** A way from the root to `child`, one directory per component. */
  ghost predicate Way(v: View, comps: seq<Bytes>, dirs: seq<Bytes>, child: Bytes) {
    && |dirs| == |comps| + 1 && dirs[0] == v.root && dirs[|comps|] == child
    && forall i :: 0 <= i < |comps| ==> StepsTo(v, dirs[i], comps[i], dirs[i + 1])
  }

  ghost predicate Leads(v: View, comps: seq<Bytes>, child: Bytes) {
    exists dirs :: Way(v, comps, dirs, child)
  }

  lemma {:induction false} WayIsWalked(v: View, comps: seq<Bytes>, dirs: seq<Bytes>, child: Bytes)
    requires Way(v, comps, dirs, child)
    ensures Walk(v, comps) == Ok(child)
    decreases |comps|
  {
    if comps != [] {
      var n := |comps| - 1;
      assert Way(v, comps[..n], dirs[..n + 1], dirs[n]);
      WayIsWalked(v, comps[..n], dirs[..n + 1], dirs[n]);
      assert StepsTo(v, dirs[n], comps[n], dirs[n + 1]);
      DescendsExactly(v, dirs[n], comps[n], child);
    }
  }

  lemma {:induction false} WalkedIsWay(v: View, comps: seq<Bytes>) returns (dirs: seq<Bytes>)
    requires Walk(v, comps).Ok?
    ensures Way(v, comps, dirs, Walk(v, comps).value)
    decreases |comps|
  {
    if comps == [] {
      dirs := [v.root];
    } else {
      var n := |comps| - 1;
      var init := WalkedIsWay(v, comps[..n]);
      var child := Walk(v, comps).value;
      DescendsExactly(v, init[n], comps[n], child);
      dirs := init + [child];
      forall i | 0 <= i < |comps| ensures StepsTo(v, dirs[i], comps[i], dirs[i + 1]) {
        if i < n { assert StepsTo(v, init[i], comps[..n][i], init[i + 1]); }
      }
    }
  }

  /** A path leads to a ciphertext directory if and only if there is a way to it: every directory on
      it readable, and every step to the first entry so called, which is a directory. */
  lemma WalksExactly(v: View, comps: seq<Bytes>, child: Bytes)
    ensures Walk(v, comps) == Ok(child) <==> Leads(v, comps, child)
  {
    if dirs :| Way(v, comps, dirs, child) {
      WayIsWalked(v, comps, dirs, child);
    }
    if Walk(v, comps) == Ok(child) {
      var dirs := WalkedIsWay(v, comps);
    }
  }

  /** The file called `name` in the directory at `dir` holds `bytes`. */
  ghost predicate Stores(v: View, dir: Bytes, name: Bytes, bytes: Bytes) {
    exists iv, infos: seq<FileInfo>, j: nat :: Finds(v, dir, name, iv, infos, j)
      && !infos[j].isDir && v.backend.readFile(Join(dir, infos[j].name)) == Ok(bytes) && bytes != []
  }

  /** There is a way to the parent of `comps`, where the last component is a file with `bytes`. */
  ghost predicate FileAt(v: View, comps: seq<Bytes>, bytes: Bytes)
    requires comps != []
  {
    var init, name := comps[..|comps| - 1], comps[|comps| - 1];
    exists dir :: Leads(v, init, dir) && Stores(v, dir, name, bytes)
  }

  lemma FetchStores(v: View, dir: Bytes, name: Bytes, bytes: Bytes)
    ensures Fetch(v, dir, name) == Ok(bytes) <==> Stores(v, dir, name, bytes)
  {
    if Stores(v, dir, name, bytes) {
      var iv, infos: seq<FileInfo>, j: nat :| Finds(v, dir, name, iv, infos, j)
        && !infos[j].isDir && v.backend.readFile(Join(dir, infos[j].name)) == Ok(bytes) && bytes != [];
      FindsFirst(v, dir, name, iv, infos, j);
    }
    if Fetch(v, dir, name) == Ok(bytes) {
      var iv, infos, j := FindsOnlyFirst(v, dir, name);
      assert Finds(v, dir, name, iv, infos, j);
    }
  }

  /** Ciphertext is fetched for a path if and only if there is a way to its parent, whose first entry
      so called is a file that the backend reads, and that is not empty. */
  lemma FetchesExactly(v: View, plainPath: Bytes, bytes: Bytes)
    ensures var comps := Parse(plainPath).comps;
      FetchPath(v, plainPath) == Ok(bytes) <==> comps != [] && FileAt(v, comps, bytes)
  {
    var comps := Parse(plainPath).comps;
    if comps != [] {
      var init, name := comps[..|comps| - 1], comps[|comps| - 1];
      if FileAt(v, comps, bytes) {
        var dir :| Leads(v, init, dir) && Stores(v, dir, name, bytes);
        WalksExactly(v, init, dir);
        FetchStores(v, dir, name, bytes);
      }
      if FetchPath(v, plainPath) == Ok(bytes) {
        var dir := Walk(v, init).value;
        WalksExactly(v, init, dir);
        FetchStores(v, dir, name, bytes);
      }
    }
  }

  /** What `ReadDir` shows of one entry. */
  predicate Shows(v: View, info: FileInfo, iv: Bytes, shown: FileInfo)
    requires v.content.plainBS >= 1
  {
    && Called(v, info, iv, shown.name) && shown.isDir == info.isDir
    && shown.size == ContentLayout.CipherSizeToPlainSize(v.content.Layout(), info.size)
  }

  /** The directory at `dir` is readable and shows as `shown`: its entries whose names decrypt. */
  ghost predicate ShownAs(v: View, dir: Bytes, iv: Bytes, infos: seq<FileInfo>, shown: seq<FileInfo>, at: seq<nat>)
    requires v.content.plainBS >= 1
  {
    && Readable(v, dir, iv, infos) && |at| == |shown|
    && (forall t :: 0 <= t < |at| ==> at[t] < |infos| && Shows(v, infos[at[t]], iv, shown[t]))
    && (forall t, u :: 0 <= t < u < |at| ==> at[t] < at[u])
    && (forall j :: 0 <= j < |infos| ==> Nameless(v, infos[j], iv) || j in at)
  }

  /** `ReadDir` succeeds if and only if there is a way to a readable directory. */
  lemma ReadDirSucceeds(v: View, plainPath: Bytes, dir: Bytes, iv: Bytes, infos: seq<FileInfo>)
    requires v.content.plainBS >= 1 && Leads(v, Parse(plainPath).comps, dir) && Readable(v, dir, iv, infos)
    ensures ReadDir(v, plainPath).Ok?
  {
    WalksExactly(v, Parse(plainPath).comps, dir);
    var at := ListsExactly(v, dir);
  }

  /** Then it shows exactly the entries whose names decrypt, in order. */
  lemma ReadDirExactly(v: View, plainPath: Bytes)
    returns (dir: Bytes, iv: Bytes, infos: seq<FileInfo>, at: seq<nat>)
    requires v.content.plainBS >= 1 && ReadDir(v, plainPath).Ok?
    ensures Leads(v, Parse(plainPath).comps, dir) && ShownAs(v, dir, iv, infos, ReadDir(v, plainPath).value, at)
  {
    dir := Walk(v, Parse(plainPath).comps).value;
    WalksExactly(v, Parse(plainPath).comps, dir);
    at := ListsExactly(v, dir);
    iv, infos :| Readable(v, dir, iv, infos);
  }
}
