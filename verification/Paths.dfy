/** Slash-separated paths, as filetree/filetree.go uses Go's path/filepath package: `Clean`,
    `Dir`, `Base` and `Join` on byte strings, and the list of components behind them. */
module Paths {
  import opened Base

  const SLASH: byte := 47
  const DOT: byte := 46

  /** A path taken apart. */
  datatype Path = Path(rooted: bool, comps: seq<Bytes>)

  /** The pieces between slashes, empty ones included. */
  function Split(p: Bytes): (r: seq<Bytes>)
    ensures r != []
  {
    if p == [] then [[]] else Extend(Split(p[..|p| - 1]), p[|p| - 1])
  }

  function Extend(pieces: seq<Bytes>, x: byte): (r: seq<Bytes>)
    requires pieces != []
    ensures r != []
  {
    if x == SLASH then pieces + [[]] else pieces[..|pieces| - 1] + [pieces[|pieces| - 1] + [x]]
  }

  /** One more piece: empty and "." pieces vanish, ".." takes back the piece before it. */
  function Push(rooted: bool, comps: seq<Bytes>, c: Bytes): seq<Bytes> {
    if c == [] || c == [DOT] then comps
    else if c != [DOT, DOT] then comps + [c]
    else if comps != [] && comps[|comps| - 1] != [DOT, DOT] then comps[..|comps| - 1]
    else if rooted then comps
    else comps + [c]
  }

  function Normalize(rooted: bool, pieces: seq<Bytes>): seq<Bytes> {
    if pieces == [] then [] else Push(rooted, Normalize(rooted, pieces[..|pieces| - 1]), pieces[|pieces| - 1])
  }

  predicate IsRooted(p: Bytes) {
    p != [] && p[0] == SLASH
  }

  function Parse(p: Bytes): Path {
    Path(IsRooted(p), Normalize(IsRooted(p), Split(p)))
  }

  function JoinSlash(comps: seq<Bytes>): Bytes {
    if comps == [] then []
    else if |comps| == 1 then comps[0]
    else JoinSlash(comps[..|comps| - 1]) + [SLASH] + comps[|comps| - 1]
  }

  function Render(q: Path): Bytes {
    if q.rooted then [SLASH] + JoinSlash(q.comps)
    else if q.comps == [] then [DOT]
    else JoinSlash(q.comps)
  }

  function Clean(p: Bytes): Bytes {
    Render(Parse(p))
  }

  /** Everything up to and including the last slash. */
  function DirPart(p: Bytes): Bytes {
    if p == [] || p[|p| - 1] == SLASH then p else DirPart(p[..|p| - 1])
  }

  function Dir(p: Bytes): Bytes {
    Clean(DirPart(p))
  }

  function TrimSlashes(p: Bytes): Bytes {
    if p == [] || p[|p| - 1] != SLASH then p else TrimSlashes(p[..|p| - 1])
  }

  /** Everything after the last slash. */
  function BasePart(p: Bytes): Bytes {
    if p == [] || p[|p| - 1] == SLASH then [] else BasePart(p[..|p| - 1]) + [p[|p| - 1]]
  }

  function BaseName(p: Bytes): Bytes {
    if p == [] then [DOT]
    else if TrimSlashes(p) == [] then [SLASH]
    else BasePart(TrimSlashes(p))
  }

  /** `filepath.Join` of two elements. */
  function Join(p: Bytes, name: Bytes): Bytes {
    if p != [] then Clean(p + [SLASH] + name) else if name != [] then Clean(name) else []
  }

  // ---------------------------------------------------------------------- splitting

  /** A name that is one component of a path: what a directory entry can be called. */
  predicate Proper(c: Bytes) {
    c != [] && SLASH !in c && c != [DOT] && c != [DOT, DOT]
  }

  lemma {:induction false} SplitPlain(c: Bytes)
    requires SLASH !in c
    ensures Split(c) == [c]
    decreases |c|
  {
    if c != [] {
      SplitPlain(c[..|c| - 1]);
      assert c == c[..|c| - 1] + [c[|c| - 1]];
    }
  }

  lemma ExtendAppend(a: seq<Bytes>, b: seq<Bytes>, x: byte)
    requires b != []
    ensures Extend(a + b, x) == a + Extend(b, x)
  {
    var n := |b| - 1;
    assert (a + b)[..|a| + n] == a + b[..n];
  }

  lemma SplitSnoc(p: Bytes, x: byte)
    ensures Split(p + [x]) == Extend(Split(p), x)
  {
    assert (p + [x])[..|p|] == p;
  }

  lemma SplitSlash(a: Bytes, b: Bytes)
    ensures Split(a + [SLASH] + b) == Split(a) + Split(b)
  {
    SplitSnoc(a, SLASH);
    SplitAfter(a + [SLASH], Split(a), b);
  }

  /** After a slash, the pieces of the rest follow. */
  lemma {:induction false} SplitAfter(w: Bytes, pieces: seq<Bytes>, b: Bytes)
    requires Split(w) == pieces + [[]]
    ensures Split(w + b) == pieces + Split(b)
    decreases |b|
  {
    if b == [] {
      assert w + b == w;
    } else {
      SplitAfter(w, pieces, b[..|b| - 1]);
      SplitAfterSnoc(w, pieces, b[..|b| - 1], b[|b| - 1]);
      assert b[..|b| - 1] + [b[|b| - 1]] == b;
    }
  }

  lemma SplitAfterSnoc(w: Bytes, pieces: seq<Bytes>, init: Bytes, x: byte)
    requires Split(w + init) == pieces + Split(init)
    ensures Split(w + (init + [x])) == pieces + Split(init + [x])
  {
    AppendLast(w, init, x);
    SplitSnoc(w + init, x);
    SplitSnoc(init, x);
    ExtendAppend(pieces, Split(init), x);
  }

  lemma AppendLast(a: Bytes, b: Bytes, x: byte)
    ensures a + (b + [x]) == (a + b) + [x]
  {
  }

  ghost predicate NoSlashes(comps: seq<Bytes>) {
    forall i :: 0 <= i < |comps| ==> SLASH !in comps[i]
  }

  lemma {:induction false} SplitJoin(comps: seq<Bytes>)
    requires comps != [] && NoSlashes(comps)
    ensures Split(JoinSlash(comps)) == comps
    decreases |comps|
  {
    var init, last := comps[..|comps| - 1], comps[|comps| - 1];
    assert comps == init + [last];
    if init == [] {
      SplitPlain(last);
    } else {
      assert NoSlashes(init);
      SplitJoin(init);
      SplitJoinSnoc(init, last);
    }
  }

  lemma SplitJoinSnoc(init: seq<Bytes>, c: Bytes)
    requires init != [] && Split(JoinSlash(init)) == init && SLASH !in c
    ensures Split(JoinSlash(init + [c])) == init + [c]
  {
    assert (init + [c])[..|init|] == init;
    SplitPlain(c);
    SplitSlash(JoinSlash(init), c);
  }

  lemma {:induction false} NormalizeAppend(rooted: bool, a: seq<Bytes>, c: Bytes)
    ensures Normalize(rooted, a + [c]) == Push(rooted, Normalize(rooted, a), c)
  {
    assert (a + [c])[..|a|] == a;
  }

  // -------------------------------------------------------------------- normal forms

  /** Component `i` is proper, or one of the leading ".." of a relative path. */
  predicate NormalAt(q: Path, i: int)
    requires 0 <= i < |q.comps|
  {
    Proper(q.comps[i]) || (!q.rooted && q.comps[i] == [DOT, DOT] && forall j :: 0 <= j < i ==> q.comps[j] == [DOT, DOT])
  }

  predicate Normal(q: Path) {
    forall i :: 0 <= i < |q.comps| ==> NormalAt(q, i)
  }

  lemma PushNormal(rooted: bool, comps: seq<Bytes>, c: Bytes)
    requires Normal(Path(rooted, comps)) && SLASH !in c
    ensures Normal(Path(rooted, Push(rooted, comps, c)))
  {
    var q, q' := Path(rooted, comps), Path(rooted, Push(rooted, comps, c));
    if comps != [] { assert NormalAt(q, |comps| - 1); }
    forall i | 0 <= i < |q'.comps| ensures NormalAt(q', i) {
      if i < |comps| { assert NormalAt(q, i); }
    }
  }

  lemma {:induction false} NormalizeNormal(rooted: bool, pieces: seq<Bytes>)
    requires forall c | c in pieces :: SLASH !in c
    ensures Normal(Path(rooted, Normalize(rooted, pieces)))
    decreases |pieces|
  {
    if pieces != [] {
      NormalizeNormal(rooted, pieces[..|pieces| - 1]);
      assert pieces[|pieces| - 1] in pieces;
      PushNormal(rooted, Normalize(rooted, pieces[..|pieces| - 1]), pieces[|pieces| - 1]);
    }
  }

  lemma {:induction false} SplitPieces(p: Bytes)
    ensures forall c | c in Split(p) :: SLASH !in c
    decreases |p|
  {
    if p != [] { SplitPieces(p[..|p| - 1]); }
  }

  lemma ParseNormal(p: Bytes)
    ensures Normal(Parse(p))
  {
    SplitPieces(p);
    NormalizeNormal(IsRooted(p), Split(p));
  }

  lemma NormalInit(q: Path)
    requires Normal(q) && q.comps != []
    ensures Normal(Path(q.rooted, q.comps[..|q.comps| - 1]))
  {
    var init := Path(q.rooted, q.comps[..|q.comps| - 1]);
    forall i | 0 <= i < |init.comps| ensures NormalAt(init, i) { assert NormalAt(q, i); }
  }

  /** A normal form is left alone. */
  lemma {:induction false} NormalizeFixed(q: Path)
    requires Normal(q)
    ensures Normalize(q.rooted, q.comps) == q.comps
    decreases |q.comps|
  {
    var n := |q.comps| - 1;
    if n >= 0 {
      NormalInit(q);
      NormalizeFixed(Path(q.rooted, q.comps[..n]));
      NormalizeAppend(q.rooted, q.comps[..n], q.comps[n]);
      assert q.comps == q.comps[..n] + [q.comps[n]];
      assert NormalAt(q, n);
      PushLast(q.rooted, q.comps[..n], q.comps[n]);
    }
  }

  lemma PushLast(rooted: bool, comps: seq<Bytes>, c: Bytes)
    requires NormalAt(Path(rooted, comps + [c]), |comps|)
    ensures Push(rooted, comps, c) == comps + [c]
  {
    var q := Path(rooted, comps + [c]);
    if comps != [] { assert q.comps[|comps| - 1] == comps[|comps| - 1]; }
  }

  lemma NormalPieces(q: Path)
    requires Normal(q)
    ensures forall i :: 0 <= i < |q.comps| ==> SLASH !in q.comps[i] && q.comps[i] != []
  {
    forall i | 0 <= i < |q.comps| ensures SLASH !in q.comps[i] && q.comps[i] != [] {
      assert NormalAt(q, i);
    }
  }

  lemma {:induction false} JoinSlashStart(comps: seq<Bytes>)
    requires comps != [] && comps[0] != []
    ensures JoinSlash(comps) != [] && JoinSlash(comps)[0] == comps[0][0]
    decreases |comps|
  {
    if |comps| > 1 { JoinSlashStart(comps[..|comps| - 1]); }
  }

  /** Printing a normal path and reading it back. */
  lemma ParseRender(q: Path)
    requires Normal(q)
    ensures Parse(Render(q)) == q
  {
    NormalPieces(q);
    NormalizeFixed(q);
    if q.rooted {
      SplitSlash([], JoinSlash(q.comps));
      assert [] + [SLASH] + JoinSlash(q.comps) == Render(q);
      if q.comps == [] {
        SkipEmpty(true, [[]]);
        SkipEmpty(true, []);
      } else {
        SplitJoin(q.comps);
        SkipEmpty(true, q.comps);
      }
    } else if q.comps == [] {
      SplitPlain([DOT]);
    } else {
      SplitJoin(q.comps);
      JoinSlashStart(q.comps);
    }
  }

  lemma {:induction false} SkipEmpty(rooted: bool, pieces: seq<Bytes>)
    ensures Normalize(rooted, [[]] + pieces) == Normalize(rooted, pieces)
    decreases |pieces|
  {
    var n := |pieces|;
    if n > 0 {
      SkipEmpty(rooted, pieces[..n - 1]);
      assert ([[]] + pieces)[..n] == [[]] + pieces[..n - 1];
    } else {
      assert [[]] + pieces == [[]];
    }
  }

  /** Cleaning does not change what a path denotes, and does nothing twice. */
  lemma CleanParse(p: Bytes)
    ensures Parse(Clean(p)) == Parse(p) && Clean(Clean(p)) == Clean(p)
  {
    ParseNormal(p);
    ParseRender(Parse(p));
  }

  /** Only the root cleans to "/". */
  lemma CleanRoot(p: Bytes)
    ensures Clean(p) == [SLASH] <==> Parse(p) == Path(true, [])
  {
    CleanParse(p);
    ParseRender(Path(true, []));
    assert Render(Path(true, [])) == [SLASH];
  }

  // ----------------------------------------------------------- components and strings

  lemma ParseExtend(p: Bytes, c: Bytes)
    requires p != [] && SLASH !in c
    ensures Parse(p + [SLASH] + c) == Path(IsRooted(p), Push(IsRooted(p), Parse(p).comps, c))
  {
    SplitSlash(p, c);
    SplitPlain(c);
    NormalizeAppend(IsRooted(p), Split(p), c);
  }

  /** Empty and "." pieces change nothing; ".." goes to the parent, and stays at the root. */
  lemma SpecialPieces(p: Bytes)
    requires p != []
    ensures Clean(p + [SLASH]) == Clean(p) && Clean(p + [SLASH, DOT]) == Clean(p)
    ensures IsRooted(p) ==>
      var comps := Parse(p).comps;
      Parse(p + [SLASH, DOT, DOT]) == Path(true, if comps == [] then [] else comps[..|comps| - 1])
  {
    assert p + [SLASH] + [] == p + [SLASH];
    assert p + [SLASH] + [DOT] == p + [SLASH, DOT];
    assert p + [SLASH] + [DOT, DOT] == p + [SLASH, DOT, DOT];
    ParseExtend(p, []);
    ParseExtend(p, [DOT]);
    ParseExtend(p, [DOT, DOT]);
    ParseNormal(p);
    var q := Parse(p);
    if q.comps != [] { assert NormalAt(q, |q.comps| - 1); }
  }

  /** Joining a proper name adds one component. */
  lemma JoinParse(p: Bytes, c: Bytes)
    requires Proper(c)
    ensures Parse(Join(p, c)) == Path(IsRooted(p), Parse(p).comps + [c])
  {
    if p != [] {
      ParseExtend(p, c);
      CleanParse(p + [SLASH] + c);
    } else {
      CleanParse(c);
      SplitPlain(c);
      SplitPlain([]);
      NormalizeAppend(false, [], c);
      assert [] + [c] == [c];
      assert Normalize(false, [[]]) == [];
    }
  }

  lemma {:induction false} DirPartOf(a: Bytes, c: Bytes)
    requires SLASH !in c
    ensures DirPart(a + [SLASH] + c) == a + [SLASH] && BasePart(a + [SLASH] + c) == c
    decreases |c|
  {
    var p := a + [SLASH] + c;
    if c == [] {
      assert p == a + [SLASH];
    } else {
      DirPartOf(a, c[..|c| - 1]);
      assert p[..|p| - 1] == a + [SLASH] + c[..|c| - 1];
    }
  }

  /** `Dir` and `Base` take the last component off a cleaned absolute path. */
  lemma DirBase(p: Bytes, comps: seq<Bytes>, c: Bytes)
    requires Parse(p) == Path(true, comps + [c])
    ensures Proper(c) && Parse(Dir(Clean(p))) == Path(true, comps) && BaseName(Clean(p)) == c
  {
    ParseNormal(p);
    var q := Parse(p);
    assert NormalAt(q, |comps|);
    assert (comps + [c])[..|comps|] == comps;
    var a := if comps == [] then [] else [SLASH] + JoinSlash(comps);
    assert Clean(p) == a + [SLASH] + c;
    DirPartOf(a, c);
    var x := Clean(p);
    assert x[|x| - 1] == c[|c| - 1] && c[|c| - 1] in c;
    assert TrimSlashes(x) == x;
    CleanParse(a + [SLASH]);
    assert Parse(a + [SLASH]) == Path(true, comps) by {
      var init := Path(true, comps);
      assert Normal(init) by {
        forall i | 0 <= i < |comps| ensures NormalAt(init, i) { assert NormalAt(q, i); }
      }
      ParseRender(init);
      if comps == [] {
        assert a + [SLASH] == Render(init);
      } else {
        assert a == Render(init);
        ParseExtend(a, []);
        assert a + [SLASH] + [] == a + [SLASH];
      }
    }
  }

  /** Relative paths stay relative under `Dir`, so taking parents never reaches the root. */
  lemma DirKeepsRooted(p: Bytes)
    ensures Parse(Dir(p)).rooted == IsRooted(p)
  {
    CleanParse(DirPart(p));
    DirPartRooted(p);
  }

  lemma {:induction false} DirPartRooted(p: Bytes)
    ensures IsRooted(DirPart(p)) == IsRooted(p)
    decreases |p|
  {
    if p != [] && p[|p| - 1] != SLASH { DirPartRooted(p[..|p| - 1]); }
  }

  /** The `n`-th parent. On misses, `findPath` goes through the parents of a clean path. */
  function Ancestor(q: Bytes, n: nat): Bytes
    decreases n
  {
    if n == 0 then q else Ancestor(Dir(q), n - 1)
  }

  lemma {:induction false} AncestorKeepsRooted(q: Bytes, n: nat)
    ensures IsRooted(Ancestor(q, n)) == IsRooted(q)
    decreases n
  {
    if n > 0 {
      DirKeepsRooted(q);
      AncestorKeepsRooted(Dir(q), n - 1);
    }
  }

  lemma DirOfClean(q: Bytes, comps: seq<Bytes>, c: Bytes)
    requires Parse(q) == Path(true, comps + [c]) && Clean(q) == q
    ensures Parse(Dir(q)) == Path(true, comps) && Clean(Dir(q)) == Dir(q)
  {
    DirBase(q, comps, c);
    CleanParse(DirPart(q));
  }

  lemma {:induction false} AncestorIsRoot(q: Bytes, comps: seq<Bytes>)
    requires Parse(q) == Path(true, comps) && Clean(q) == q
    ensures Ancestor(q, |comps|) == [SLASH]
    decreases |comps|
  {
    if comps == [] {
      CleanRoot(q);
    } else {
      var n := |comps| - 1;
      assert comps == comps[..n] + [comps[n]];
      DirOfClean(q, comps[..n], comps[n]);
      AncestorIsRoot(Dir(q), comps[..n]);
    }
  }

  /** Taking parents reaches "/" exactly from absolute paths, after one step per component. */
  lemma ReachesRoot(p: Bytes)
    ensures IsRooted(p) ==> Ancestor(Clean(p), |Parse(p).comps|) == [SLASH]
    ensures !IsRooted(p) ==> forall n: nat :: Ancestor(Clean(p), n) != [SLASH]
  {
    CleanParse(p);
    if IsRooted(p) {
      AncestorIsRoot(Clean(p), Parse(p).comps);
    } else {
      forall n: nat ensures Ancestor(Clean(p), n) != [SLASH] { AncestorKeepsRooted(Clean(p), n); }
    }
  }
}
