/**
 * Seeding the tree from the host and listing it back: paths create the directories they pass
 * through, a seeded tree stands for the host's folder, and a listing names each file once.
 */
module NinepSeed {
  import opened Bytes
  import opened NinepTree
  import opened NinepServer
  import opened NinepHost
  import opened NinepLazy

  /** Links stay in the table; all that seeding itself relies on. */
  predicate Ranged(t: seq<Inode>) {
    forall i, k :: 0 <= i < |t| && 0 <= k < |t[i].children| ==> t[i].children[k].ino < |t|
  }

  lemma TreeIsRanged(t: seq<Inode>)
    requires Tree(t)
    ensures Ranged(t)
  {
    forall i, k | 0 <= i < |t| && 0 <= k < |t[i].children|
      ensures t[i].children[k].ino < |t|
    {
      assert NodeOk(t, i);
    }
  }

  /** Enter the directory of that name, creating it unless a directory is already there. */
  function Enter(t: seq<Inode>, cur: nat, name: Name): (r: (seq<Inode>, nat))
    requires Ranged(t) && cur < |t|
    ensures Ranged(r.0) && r.1 < |r.0|
  {
    var found := Find(t[cur].children, name);
    if found.Some? && t[found.value].isDir then (t, found.value)
    else (Attach(t, cur, name, Directory(cur, true)), |t|)
  }

  function Descend(t: seq<Inode>, parts: Path): (r: (seq<Inode>, nat))
    requires Ranged(t) && |t| > 0
    ensures Ranged(r.0) && r.1 < |r.0|
    decreases |parts|
  {
    if parts == [] then (t, 0)
    else
      var (t', cur) := Descend(t, parts[..|parts| - 1]);
      Enter(t', cur, parts[|parts| - 1])
  }

  function MkdirP(t: seq<Inode>, path: seq<byte>): (t': seq<Inode>)
    requires Ranged(t) && |t| > 0
    ensures Ranged(t') && |t'| > 0
  {
    Descend(t, Split(path)).0
  }

  /** Create or overwrite the leaf; a directory of that name is left alone. */
  function PutLeaf(t: seq<Inode>, cur: nat, name: Name, data: seq<byte>): (t': seq<Inode>)
    requires Ranged(t) && cur < |t|
    ensures Ranged(t') && |t'| > 0
  {
    match Find(t[cur].children, name)
    case Some(i) => if t[i].isDir then t else t[i := t[i].(data := data)]
    case None => Attach(t, cur, name, File(cur, data))
  }

  function PutFile(t: seq<Inode>, path: seq<byte>, data: seq<byte>): (t': seq<Inode>)
    requires Ranged(t) && |t| > 0
    ensures Ranged(t') && |t'| > 0
  {
    var parts := Split(path);
    if parts == [] then t
    else
      var (t', cur) := Descend(t, parts[..|parts| - 1]);
      PutLeaf(t', cur, parts[|parts| - 1], data)
  }

  // ── Seeding keeps the invariant unless it passes through a file ───────────

  /** Some non-empty prefix of the path names a file. */
  predicate ThroughFile(t: seq<Inode>, parts: Path)
    requires Tree(t)
    decreases |parts|
  {
    && parts != []
    && (ThroughFile(t, parts[..|parts| - 1])
        || (Follow(t, 0, parts).Some? && !t[Follow(t, 0, parts).value].isDir))
  }

  predicate Duplicated(t: seq<Inode>) { exists i :: 0 <= i < |t| && !Distinct(t[i].children) }

  lemma AttachKeepsDuplicates(t: seq<Inode>, dir: nat, name: Name, node: Inode)
    requires dir < |t| && Duplicated(t)
    ensures Duplicated(Attach(t, dir, name, node))
  {
    var i :| 0 <= i < |t| && !Distinct(t[i].children);
    var t' := Attach(t, dir, name, node);
    var j, k :| 0 <= j < k < |t[i].children|
      && (t[i].children[j].name == t[i].children[k].name || t[i].children[j].ino == t[i].children[k].ino);
    assert t'[i].children[j] == t[i].children[j] && t'[i].children[k] == t[i].children[k];
  }

  lemma SecondOfAName(t: seq<Inode>, dir: nat, name: Name, node: Inode)
    requires dir < |t| && Find(t[dir].children, name).Some?
    ensures Duplicated(Attach(t, dir, name, node))
  {
    var k :| 0 <= k < |t[dir].children| && t[dir].children[k].name == name;
    var links := Attach(t, dir, name, node)[dir].children;
    assert links[k].name == links[|t[dir].children|].name;
  }

  /** What entering directories one by one leads to. */
  predicate Descended(t: seq<Inode>, parts: Path, t': seq<Inode>, cur: nat)
    requires Tree(t) && cur < |t'|
  {
    if ThroughFile(t, parts) then Duplicated(t')
    else
      && Tree(t') && t'[cur].isDir
      && (match Follow(t, 0, parts)
          case Some(d) => t' == t && cur == d
          case None => t'[cur].children == [])
  }

  lemma {:induction false} DescendLeadsThere(t: seq<Inode>, parts: Path)
    requires Tree(t)
    ensures Ranged(t) && Descended(t, parts, Descend(t, parts).0, Descend(t, parts).1)
    decreases |parts|
  {
    TreeIsRanged(t);
    if parts == [] {
    } else {
      var init, last := parts[..|parts| - 1], parts[|parts| - 1];
      DescendLeadsThere(t, init);
      var (t', cur) := Descend(t, init);
      hide NodeOk, LinksOk;
      if ThroughFile(t, init) {
        if Enter(t', cur, last).0 != t' {
          AttachKeepsDuplicates(t', cur, last, Directory(cur, true));
        }
      } else if Find(t'[cur].children, last).Some? {
        if Enter(t', cur, last).0 != t' {
          SecondOfAName(t', cur, last, Directory(cur, true));
        }
      } else {
        AttachKeepsTree(t', cur, last, Directory(cur, true));
      }
    }
  }

  lemma DuplicatedIsNoTree(t: seq<Inode>)
    requires Duplicated(t)
    ensures !Tree(t)
  {
    var i :| 0 <= i < |t| && !Distinct(t[i].children);
    assert !NodeOk(t, i);
  }

  /** Making directories keeps the invariant exactly when the path does not pass through a file. */
  lemma MkdirPKeepsTree(t: seq<Inode>, path: seq<byte>)
    requires Tree(t)
    ensures Ranged(t) && (Tree(MkdirP(t, path)) <==> !ThroughFile(t, Split(path)))
  {
    DescendLeadsThere(t, Split(path));
    if ThroughFile(t, Split(path)) {
      DuplicatedIsNoTree(MkdirP(t, path));
    }
  }

  lemma PutLeafKeepsTree(t: seq<Inode>, cur: nat, name: Name, data: seq<byte>)
    requires Ranged(t) && cur < |t|
    ensures Tree(t) && t[cur].isDir ==> Tree(PutLeaf(t, cur, name, data))
    ensures Duplicated(t) ==> Duplicated(PutLeaf(t, cur, name, data))
  {
    var t' := PutLeaf(t, cur, name, data);
    if Find(t[cur].children, name).None? {
      if Tree(t) && t[cur].isDir {
        AttachKeepsTree(t, cur, name, File(cur, data));
      }
      if Duplicated(t) {
        AttachKeepsDuplicates(t, cur, name, File(cur, data));
      }
    } else {
      assert SameShape(t, t');
      if Tree(t) {
        SameShapeKeepsTree(t, t');
      }
      if Duplicated(t) {
        var i :| 0 <= i < |t| && !Distinct(t[i].children);
        assert !Distinct(t'[i].children);
      }
    }
  }

  /** Putting a file keeps the invariant exactly when its directory part does not pass through one. */
  lemma PutFileKeepsTree(t: seq<Inode>, path: seq<byte>, data: seq<byte>)
    requires Tree(t)
    ensures Ranged(t)
    ensures Tree(PutFile(t, path, data))
       <==> (Split(path) == [] || !ThroughFile(t, Split(path)[..|Split(path)| - 1]))
  {
    hide NodeOk;
    TreeIsRanged(t);
    var parts := Split(path);
    if parts != [] {
      DescendLeadsThere(t, parts[..|parts| - 1]);
      var (t', cur) := Descend(t, parts[..|parts| - 1]);
      PutLeafKeepsTree(t', cur, parts[|parts| - 1], data);
      if ThroughFile(t, parts[..|parts| - 1]) {
        DuplicatedIsNoTree(PutFile(t, path, data));
      }
    }
  }

  // ── A seeded tree stands for the folder ───────────────────────────────────

  /** The host's walk over a directory from entry `k` on: a directory is made and then walked, a file
      is put with its bytes. */
  function Seed(t: seq<Inode>, dir: Path, node: HostNode, k: nat): (t': seq<Inode>)
    requires Ranged(t) && |t| > 0 && node.HostDir? && k <= |node.entries|
    ensures Ranged(t') && |t'| > 0
    decreases node, |node.entries| - k
  {
    if k == |node.entries| then t
    else
      var e := node.entries[k];
      var path := dir + [e.name];
      var t1 := if e.node.HostDir?
        then Seed(MkdirP(t, Join(path)), path, e.node, 0)
        else PutFile(t, Join(path), e.node.data);
      Seed(t1, dir, node, k + 1)
  }

  /** The inode the seed makes for an entry. */
  function Seeded(d: nat, e: HostEntry): Inode {
    if e.node.HostDir? then Directory(d, true) else File(d, e.node.data)
  }

  lemma {:induction false} GrowingPlace(t: seq<Inode>, loc: seq<Path>, host: HostNode, c: seq<nat>, i: nat)
    requires Growing(t, loc, host, c) && i < |t|
    ensures Tree(t) && PathOf(t, i) == loc[i] && Linked(t, i)
    decreases i
  {
    assert Hangs(t, loc, i);
    if i == 0 {
    } else {
      assert NodeOk(t, i);
      GrowingPlace(t, loc, host, c, t[i].parent);
    }
  }

  lemma {:induction false} NoFileAbove(t: seq<Inode>, parts: Path)
    requires Tree(t) && Follow(t, 0, parts).Some? && t[Follow(t, 0, parts).value].isDir
    ensures !ThroughFile(t, parts)
    decreases |parts|
  {
    if parts == [] {
    } else {
      var init := parts[..|parts| - 1];
      assert NodeOk(t, Follow(t, 0, init).value);
      NoFileAbove(t, init);
    }
  }

  /** Seeding one entry attaches it under the directory that is being walked. */
  lemma SeedOne(t: seq<Inode>, loc: seq<Path>, host: HostNode, c: seq<nat>, d: nat, e: HostEntry)
    requires Growing(t, loc, host, c) && HostOk(host) && d < |t| && NextEntry(loc, host, c, d) == Some(e)
    ensures Ranged(t) && |t| > 0
    ensures e.node.HostDir? ==> MkdirP(t, Join(loc[d] + [e.name])) == Attach(t, d, e.name, Seeded(d, e))
    ensures e.node.HostFile? ==> PutFile(t, Join(loc[d] + [e.name]), e.node.data) == Attach(t, d, e.name, Seeded(d, e))
  {
    GrowingPlace(t, loc, host, c, d);
    hide Lookup, NodeOk, Describes, Hangs, Growing;
    NextEntryIsNew(t, loc, host, c, d);
    TreeIsRanged(t);
    FollowPathOf(t, d);
    NoFileAbove(t, loc[d]);
    DescendLeadsThere(t, loc[d]);
    var parts := loc[d] + [e.name];
    assert parts[..|parts| - 1] == loc[d];
    LookupIsOk(host, parts);
    SplitJoin(parts);
  }

  /** The entries a directory has; none for a file. */
  function Full(host: HostNode, path: Path): nat {
    if IsDirAt(host, path) then |Lookup(host, path).value.entries| else 0
  }

  /** Everything from `n` on is loaded and complete. */
  predicate Complete(t: seq<Inode>, loc: seq<Path>, host: HostNode, c: seq<nat>, n: nat)
    requires |t| == |loc| == |c|
  {
    forall j :: n <= j < |t| ==> t[j].loaded && c[j] == Full(host, loc[j])
  }

  /** Walking the rest of a directory completes it and everything below, and leaves the rest alone. */
  lemma {:induction false} SeedCompletes(t: seq<Inode>, loc: seq<Path>, host: HostNode, c: seq<nat>, d: nat,
                                         node: HostNode, k: nat)
    returns (loc': seq<Path>, c': seq<nat>)
    requires Growing(t, loc, host, c) && HostOk(host) && d < |t| == |loc| == |c| && c[d] == k
    requires Lookup(host, loc[d]) == Some(node) && node.HostDir? && k <= |node.entries| && Ranged(t)
    ensures var t' := Seed(t, loc[d], node, k);
      && Growing(t', loc', host, c') && |t'| == |loc'| == |c'| && |t| <= |t'| && loc <= loc'
      && Complete(t', loc', host, c', |t|)
      && (forall j :: 0 <= j < |t| ==> t'[j].loaded == t[j].loaded && c'[j] == if j == d then |node.entries| else c[j])
    decreases node, |node.entries| - k
  {
    hide Lookup, Growing, Tree, HostOk, MkdirP, PutFile, Ranged;
    loc', c' := loc, c;
    if k >= |node.entries| {
    } else {
      var e := node.entries[k];
      SeedOne(t, loc, host, c, d, e);
      AttachGrows(t, loc, host, c, d, Seeded(d, e));
      var t1, loc1, c1 := Attach(t, d, e.name, Seeded(d, e)), loc + [loc[d] + [e.name]], c[d := k + 1] + [0];
      NewEntryIsThere(t, loc, host, c, d, e);
      AttachIsRanged(t, d, e.name, Seeded(d, e));
      var t2, loc2, c2 := t1, loc1, c1;
      if e.node.HostDir? {
        loc2, c2 := SeedCompletes(t1, loc1, host, c1, |t|, e.node, 0);
        t2 := Seed(t1, loc[d] + [e.name], e.node, 0);
      }
      assert Complete(t2, loc2, host, c2, |t|);
      loc', c' := SeedCompletes(t2, loc2, host, c2, d, node, k + 1);
      CompleteExtends(t2, loc2, c2, Seed(t2, loc[d], node, k + 1), loc', c', host, |t|, d, |node.entries|);
    }
  }

  lemma CompleteExtends(t: seq<Inode>, loc: seq<Path>, c: seq<nat>, t': seq<Inode>, loc': seq<Path>, c': seq<nat>,
                        host: HostNode, n: nat, d: nat, all: nat)
    requires |t| == |loc| == |c| && |t'| == |loc'| == |c'| && |t| <= |t'| && loc <= loc' && d < n <= |t|
    requires Complete(t, loc, host, c, n) && Complete(t', loc', host, c', |t|)
    requires forall j :: 0 <= j < |t| ==> t'[j].loaded == t[j].loaded && c'[j] == if j == d then all else c[j]
    ensures Complete(t', loc', host, c', n)
  {
    hide Full;
  }

  lemma AttachIsRanged(t: seq<Inode>, d: nat, name: Name, node: Inode)
    requires Ranged(t) && d < |t| && node.children == []
    ensures Ranged(Attach(t, d, name, node))
  {}

  lemma NewEntryIsThere(t: seq<Inode>, loc: seq<Path>, host: HostNode, c: seq<nat>, d: nat, e: HostEntry)
    requires Growing(t, loc, host, c) && HostOk(host) && d < |t| && NextEntry(loc, host, c, d) == Some(e)
    ensures Lookup(host, loc[d] + [e.name]) == Some(e.node)
    ensures e.node.HostFile? ==> Full(host, loc[d] + [e.name]) == 0
  {
    NextEntryIsNew(t, loc, host, c, d);
  }

  /** Seeding an empty tree from a folder gives a tree without stubs that stands for the folder. */
  lemma SeedRepresents(host: HostNode) returns (loc: seq<Path>)
    requires HostOk(host) && host.HostDir?
    ensures Ranged([Directory(0, true)])
    ensures var t := Seed([Directory(0, true)], [], host, 0);
      Represents(t, loc, host) && forall i :: 0 <= i < |t| ==> t[i].loaded
  {
    var t0: seq<Inode> := [Directory(0, true)];
    assert NodeOk(t0, 0) && Hangs(t0, [[]], 0) && Describes(t0, [[]], host, 0, 0);
    assert Growing(t0, [[]], host, [0]);
    var c;
    loc, c := SeedCompletes(t0, [[]], host, [0], 0, host, 0);
    CompleteRepresents(Seed(t0, [], host, 0), loc, host, c);
  }

  lemma CompleteRepresents(t: seq<Inode>, loc: seq<Path>, host: HostNode, c: seq<nat>)
    requires Growing(t, loc, host, c) && Complete(t, loc, host, c, 0)
    ensures Represents(t, loc, host)
  {
    hide Lookup, NodeOk;
    forall i | 0 <= i < |t|
      ensures Describes(t, loc, host, i, Shown(t, loc, host, i))
    {
      assert Describes(t, loc, host, i, c[i]);
    }
  }

  // ── Listing every file ────────────────────────────────────────────────────

  /** The path string one level down. */
  function Below(prefix: seq<byte>, name: Name): seq<byte> {
    if prefix == [] then name else prefix + [SLASH] + name
  }

  /** Files below `dir` from link `k` on, depth first, as path string and bytes. */
  function WalkFiles(t: seq<Inode>, dir: nat, k: nat, prefix: seq<byte>): seq<(seq<byte>, seq<byte>)>
    requires Tree(t) && dir < |t| && k <= |t[dir].children|
    decreases |t| - dir, |t[dir].children| - k
  {
    if k == |t[dir].children| then []
    else
      assert NodeOk(t, dir);
      var l := t[dir].children[k];
      var path := Below(prefix, l.name);
      (if t[l.ino].isDir then WalkFiles(t, l.ino, 0, path) else [(path, t[l.ino].data)])
      + WalkFiles(t, dir, k + 1, prefix)
  }

  lemma WalkFilesUnfolds(t: seq<Inode>, dir: nat, k: nat, prefix: seq<byte>)
    requires Tree(t) && dir < |t| && k < |t[dir].children|
    ensures var l := t[dir].children[k];
      && dir < l.ino < |t|
      && WalkFiles(t, dir, k, prefix)
         == (if t[l.ino].isDir then WalkFiles(t, l.ino, 0, Below(prefix, l.name))
           else [(Below(prefix, l.name), t[l.ino].data)])
            + WalkFiles(t, dir, k + 1, prefix)
  {
    assert NodeOk(t, dir);
  }

  /** The same walk, naming inodes and component paths. */
  function FilesBelow(t: seq<Inode>, dir: nat, k: nat, prefix: Path): (r: seq<(Path, nat)>)
    requires Tree(t) && dir < |t| && k <= |t[dir].children|
    ensures forall n :: 0 <= n < |r| ==> r[n].1 < |t|
    decreases |t| - dir, |t[dir].children| - k
  {
    if k == |t[dir].children| then []
    else
      assert NodeOk(t, dir);
      var l := t[dir].children[k];
      (if t[l.ino].isDir then FilesBelow(t, l.ino, 0, prefix + [l.name]) else [(prefix + [l.name], l.ino)])
      + FilesBelow(t, dir, k + 1, prefix)
  }

  /** What one link contributes. */
  function Branch(t: seq<Inode>, l: Link, prefix: Path): (r: seq<(Path, nat)>)
    requires Tree(t) && l.ino < |t|
    ensures forall n :: 0 <= n < |r| ==> r[n].1 < |t|
  {
    if t[l.ino].isDir then FilesBelow(t, l.ino, 0, prefix + [l.name]) else [(prefix + [l.name], l.ino)]
  }

  lemma FilesBelowUnfolds(t: seq<Inode>, dir: nat, k: nat, prefix: Path)
    requires Tree(t) && dir < |t| && k < |t[dir].children|
    ensures dir < t[dir].children[k].ino < |t|
    ensures FilesBelow(t, dir, k, prefix) == Branch(t, t[dir].children[k], prefix) + FilesBelow(t, dir, k + 1, prefix)
  {
    assert NodeOk(t, dir);
  }

  function Strings(t: seq<Inode>, files: seq<(Path, nat)>): seq<(seq<byte>, seq<byte>)>
    requires forall n :: 0 <= n < |files| ==> files[n].1 < |t|
  {
    seq(|files|, n requires 0 <= n < |files| => (Join(files[n].0), t[files[n].1].data))
  }

  lemma JoinBelow(prefix: Path, name: Name)
    requires PathOk(prefix)
    ensures Join(prefix + [name]) == Below(Join(prefix), name)
  {
    assert (prefix + [name])[..|prefix|] == prefix;
    if prefix != [] {
      SplitJoin(prefix);
      assert Split([]) == [];
    }
  }

  lemma {:induction false} WalkIsStrings(t: seq<Inode>, dir: nat, k: nat, prefix: Path)
    requires Tree(t) && NamesOk(t) && dir < |t| && k <= |t[dir].children| && PathOk(prefix)
    ensures WalkFiles(t, dir, k, Join(prefix)) == Strings(t, FilesBelow(t, dir, k, prefix))
    decreases |t| - dir, |t[dir].children| - k
  {
    if k >= |t[dir].children| {
    } else {
      FilesBelowUnfolds(t, dir, k, prefix);
      var l := t[dir].children[k];
      assert NameOk(l.name);
      JoinBelow(prefix, l.name);
      hide NodeOk, Join, NamesOk, FilesBelow, Tree;
      WalkIsStrings(t, dir, k + 1, prefix);
      if t[l.ino].isDir {
        WalkIsStrings(t, l.ino, 0, prefix + [l.name]);
      }
      StringsJoin(t, Branch(t, l, prefix), FilesBelow(t, dir, k + 1, prefix));
    }
  }

  lemma StringsJoin(t: seq<Inode>, a: seq<(Path, nat)>, b: seq<(Path, nat)>)
    requires forall n :: 0 <= n < |a| ==> a[n].1 < |t|
    requires forall n :: 0 <= n < |b| ==> b[n].1 < |t|
    ensures Strings(t, a + b) == Strings(t, a) + Strings(t, b)
  {}

  predicate IsFile(t: seq<Inode>, path: Path, i: nat)
    requires Tree(t)
  {
    i < |t| && !t[i].isDir && Linked(t, i) && PathOf(t, i) == path
  }

  /** Everything listed below a directory is a linked file under its own path. */
  lemma {:induction false} ListedIsFile(t: seq<Inode>, dir: nat, k: nat, n: nat)
    requires Tree(t) && dir < |t| && Linked(t, dir) && k <= |t[dir].children|
    requires n < |FilesBelow(t, dir, k, PathOf(t, dir))|
    ensures var f := FilesBelow(t, dir, k, PathOf(t, dir))[n]; IsFile(t, f.0, f.1)
    decreases |t| - dir, |t[dir].children| - k
  {
    assert k < |t[dir].children|;
    FilesBelowUnfolds(t, dir, k, PathOf(t, dir));
    var l := t[dir].children[k];
    ChildIsLinked(t, dir, k);
    hide NodeOk, PathOf, Linked, FilesBelow;
    var first := Branch(t, l, PathOf(t, dir));
    if n >= |first| {
      ListedIsFile(t, dir, k + 1, n - |first|);
    } else if t[l.ino].isDir {
      ListedIsFile(t, l.ino, 0, n);
    }
  }

  /** What is listed below a child is listed below its parent. */
  lemma {:induction false} ListedBelowParent(t: seq<Inode>, dir: nat, k: nat, j: nat, prefix: Path, f: (Path, nat))
    requires Tree(t) && dir < |t| && k <= j < |t[dir].children|
    requires t[dir].children[j].ino < |t| && f in Branch(t, t[dir].children[j], prefix)
    ensures f in FilesBelow(t, dir, k, prefix)
    decreases j - k
  {
    hide FilesBelow, Tree, Branch;
    FilesBelowUnfolds(t, dir, k, prefix);
    if k >= j {
    } else {
      ListedBelowParent(t, dir, k + 1, j, prefix, f);
    }
  }

  lemma {:induction false} ListedFromRoot(t: seq<Inode>, dir: nat, f: (Path, nat))
    requires Tree(t) && dir < |t| && Linked(t, dir) && t[dir].isDir && f in FilesBelow(t, dir, 0, PathOf(t, dir))
    ensures f in FilesBelow(t, 0, 0, [])
    decreases dir
  {
    if dir == 0 {
    } else {
      assert NodeOk(t, dir);
      var p := t[dir].parent;
      assert NodeOk(t, p);
      var j :| 0 <= j < |t[p].children| && t[p].children[j] == Link(NameOf(t[p].children, dir).value, dir);
      ListedBelowParent(t, p, 0, j, PathOf(t, p), f);
      ListedFromRoot(t, p, f);
    }
  }

  lemma FileIsListed(t: seq<Inode>, i: nat)
    requires Tree(t) && i < |t| && Linked(t, i) && !t[i].isDir
    ensures (PathOf(t, i), i) in FilesBelow(t, 0, 0, [])
  {
    assert NodeOk(t, i);
    var p := t[i].parent;
    assert NodeOk(t, p);
    var j :| 0 <= j < |t[p].children| && t[p].children[j] == Link(NameOf(t[p].children, i).value, i);
    ListedBelowParent(t, p, 0, j, PathOf(t, p), (PathOf(t, i), i));
    ListedFromRoot(t, p, (PathOf(t, i), i));
  }

  /** The paths listed from link `k` on go through the links from `k` on. */
  lemma {:induction false} ListedThrough(t: seq<Inode>, dir: nat, k: nat, prefix: Path, n: nat) returns (j: nat)
    requires Tree(t) && dir < |t| && k <= |t[dir].children| && n < |FilesBelow(t, dir, k, prefix)|
    ensures k <= j < |t[dir].children|
    ensures prefix + [t[dir].children[j].name] <= FilesBelow(t, dir, k, prefix)[n].0
    decreases |t| - dir, |t[dir].children| - k
  {
    assert k < |t[dir].children|;
    FilesBelowUnfolds(t, dir, k, prefix);
    hide FilesBelow, Tree;
    var l := t[dir].children[k];
    var first := Branch(t, l, prefix);
    if n >= |first| {
      j := ListedThrough(t, dir, k + 1, prefix, n - |first|);
    } else {
      j := k;
      if t[l.ino].isDir {
        var _ := ListedThrough(t, l.ino, 0, prefix + [l.name], n);
      }
    }
  }

  lemma {:induction false} ListedOnce(t: seq<Inode>, dir: nat, k: nat, prefix: Path, a: nat, b: nat)
    requires Tree(t) && dir < |t| && k <= |t[dir].children| && a < b < |FilesBelow(t, dir, k, prefix)|
    ensures FilesBelow(t, dir, k, prefix)[a].0 != FilesBelow(t, dir, k, prefix)[b].0
    decreases |t| - dir, |t[dir].children| - k
  {
    assert k < |t[dir].children|;
    FilesBelowUnfolds(t, dir, k, prefix);
    DistinctNames(t, dir);
    hide FilesBelow, Tree;
    var l := t[dir].children[k];
    var first := Branch(t, l, prefix);
    if a >= |first| {
      ListedOnce(t, dir, k + 1, prefix, a - |first|, b - |first|);
    } else if b >= |first| {
      var j := ListedThrough(t, dir, k + 1, prefix, b - |first|);
      if t[l.ino].isDir {
        var _ := ListedThrough(t, l.ino, 0, prefix + [l.name], a);
      }
      assert first[a].0[|prefix|] == l.name;
    } else {
      ListedOnce(t, l.ino, 0, prefix + [l.name], a, b);
    }
  }

  lemma DistinctNames(t: seq<Inode>, dir: nat)
    requires Tree(t) && dir < |t|
    ensures Distinct(t[dir].children)
  {
    assert NodeOk(t, dir);
  }

  /** Every file of the tree as path and bytes. */
  function ListFiles(t: seq<Inode>): seq<(seq<byte>, seq<byte>)>
    requires Tree(t)
  {
    WalkFiles(t, 0, 0, [])
  }

  /** The listing holds exactly the linked files, each once, under a path that resolves to it. */
  lemma ListFilesIsExact(t: seq<Inode>)
    requires Tree(t) && NamesOk(t)
    ensures forall n :: 0 <= n < |ListFiles(t)| ==>
      var at := Follow(t, 0, Split(ListFiles(t)[n].0));
      at.Some? && !t[at.value].isDir && ListFiles(t)[n].1 == t[at.value].data
    ensures forall i :: 0 <= i < |t| && Linked(t, i) && !t[i].isDir ==> (Join(PathOf(t, i)), t[i].data) in ListFiles(t)
    ensures forall a, b :: 0 <= a < b < |ListFiles(t)| ==> ListFiles(t)[a].0 != ListFiles(t)[b].0
  {
    hide NodeOk, WalkFiles, FilesBelow, NamesOk, Join, Split, PathOf, Linked, Follow;
    assert Join([]) == [] by { JoinOfNothing(); }
    WalkIsStrings(t, 0, 0, []);
    var files := FilesBelow(t, 0, 0, []);
    forall n | 0 <= n < |files|
      ensures Follow(t, 0, Split(Join(files[n].0))) == Some(files[n].1) && !t[files[n].1].isDir && PathOk(files[n].0)
    {
      RootIsLinked(t);
      ListedIsFile(t, 0, 0, n);
      ResolveJoinedPath(t, files[n].1);
      PathOfIsOk(t, files[n].1);
    }
    forall i | 0 <= i < |t| && Linked(t, i) && !t[i].isDir
      ensures (Join(PathOf(t, i)), t[i].data) in ListFiles(t)
    {
      FileIsListed(t, i);
      var n :| 0 <= n < |files| && files[n] == (PathOf(t, i), i);
      assert ListFiles(t)[n] == (Join(PathOf(t, i)), t[i].data);
    }
    forall a, b | 0 <= a < b < |files|
      ensures ListFiles(t)[a].0 != ListFiles(t)[b].0
    {
      ListedOnce(t, 0, 0, [], a, b);
      if Join(files[a].0) == Join(files[b].0) {
        JoinIsInjective(files[a].0, files[b].0);
      }
    }
  }

  lemma JoinOfNothing()
    ensures Join([]) == []
  {}
}
