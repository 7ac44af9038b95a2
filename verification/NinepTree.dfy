/**
 * The in-memory tree of the shared folder: a table of inodes that grows and is never compacted,
 * linked by name from parent to child and by index from child to parent.
 */
module NinepTree {
  import opened Bytes

  type Name = seq<byte>
  type Path = seq<Name>

  const SLASH: byte := 47

  datatype Link = Link(name: Name, ino: nat)

  datatype Inode = Inode(
    isDir: bool, data: seq<byte>, children: seq<Link>, parent: nat, perm: nat, loaded: bool, size: nat)

  function Directory(parent: nat, loaded: bool): Inode {
    Inode(true, [], [], parent, 0x1ED, loaded, 0)
  }

  function File(parent: nat, data: seq<byte>): Inode {
    Inode(false, data, [], parent, 0x1A4, true, 0)
  }

  function StubFile(parent: nat, size: nat): Inode {
    Inode(false, [], [], parent, 0x1A4, false, size)
  }

  // ── Links of one directory ────────────────────────────────────────────────

  function Find(links: seq<Link>, name: Name): (r: Option<nat>)
    ensures r.None? <==> forall k :: 0 <= k < |links| ==> links[k].name != name
    ensures r.Some? ==> exists k :: 0 <= k < |links| && links[k] == Link(name, r.value)
  {
    if links == [] then None
    else if links[0].name == name then assert links[0] == Link(name, links[0].ino); Some(links[0].ino)
    else
      var r := Find(links[1..], name);
      assert forall k :: 0 < k < |links| ==> links[k] == links[1..][k - 1];
      r
  }

  function NameOf(links: seq<Link>, ino: nat): (r: Option<Name>)
    ensures r.None? <==> forall k :: 0 <= k < |links| ==> links[k].ino != ino
    ensures r.Some? ==> exists k :: 0 <= k < |links| && links[k] == Link(r.value, ino)
  {
    if links == [] then None
    else if links[0].ino == ino then assert links[0] == Link(links[0].name, ino); Some(links[0].name)
    else
      var r := NameOf(links[1..], ino);
      assert forall k :: 0 < k < |links| ==> links[k] == links[1..][k - 1];
      r
  }

  /** No two links share a name or an inode. */
  predicate Distinct(links: seq<Link>) {
    forall j, k :: 0 <= j < k < |links| ==> links[j].name != links[k].name && links[j].ino != links[k].ino
  }

  lemma FindLink(links: seq<Link>, k: nat)
    requires Distinct(links) && k < |links|
    ensures Find(links, links[k].name) == Some(links[k].ino)
    ensures NameOf(links, links[k].ino) == Some(links[k].name)
  {
    var i :| 0 <= i < |links| && links[i] == Link(links[k].name, Find(links, links[k].name).value);
    var j :| 0 <= j < |links| && links[j] == Link(NameOf(links, links[k].ino).value, links[k].ino);
    assert i == k && j == k;
  }

  lemma FindAppended(links: seq<Link>, l: Link, name: Name)
    requires Distinct(links + [l])
    ensures Find(links + [l], name) == if name == l.name then Some(l.ino) else Find(links, name)
  {
    var all := links + [l];
    if Find(all, name).Some? {
      var k :| 0 <= k < |all| && all[k].name == name;
      FindLink(all, k);
      if k < |links| {
        assert Distinct(links) by { assert forall j :: 0 <= j < |links| ==> links[j] == all[j]; }
        FindLink(links, k);
      }
    } else {
      assert forall k :: 0 <= k < |links| ==> links[k] == all[k];
      assert all[|links|] == l;
    }
  }

  /** The links left after every one to `target` is dropped. */
  function Without(links: seq<Link>, target: nat): (r: seq<Link>)
    ensures forall l :: l in r <==> l in links && l.ino != target
  {
    if links == [] then []
    else if links[|links| - 1].ino == target then Without(links[..|links| - 1], target)
    else Without(links[..|links| - 1], target) + [links[|links| - 1]]
  }

  lemma {:induction false} WithoutIsDistinct(links: seq<Link>, target: nat)
    requires Distinct(links)
    ensures Distinct(Without(links, target))
  {
    if links == [] {
    } else {
      var init, last := links[..|links| - 1], links[|links| - 1];
      WithoutIsDistinct(init, target);
      if last.ino != target {
        var r := Without(links, target);
        forall j | 0 <= j < |r| - 1
          ensures r[j].name != last.name && r[j].ino != last.ino
        {
          assert r[j] in Without(init, target);
        }
      }
    }
  }

  lemma FindWithout(links: seq<Link>, target: nat, name: Name)
    requires Distinct(links)
    ensures Find(Without(links, target), name)
         == if Find(links, name) == Some(target) then None else Find(links, name)
  {
    var r := Without(links, target);
    WithoutIsDistinct(links, target);
    forall k | 0 <= k < |r| && r[k].name == name
      ensures Find(links, name) == Some(r[k].ino) && r[k].ino != target && Find(r, name) == Some(r[k].ino)
    {
      assert r[k] in links;
      var j :| 0 <= j < |links| && links[j] == r[k];
      FindLink(links, j);
      FindLink(r, k);
    }
    if Find(links, name).Some? && Find(links, name).value != target {
      var j :| 0 <= j < |links| && links[j] == Link(name, Find(links, name).value);
      assert links[j] in r;
    }
  }

  // ── The tree invariant ────────────────────────────────────────────────────

  /** Links of inode `i` go up in the table, and the child knows its parent. */
  predicate LinksOk(t: seq<Inode>, i: nat)
    requires i < |t|
  {
    forall k :: 0 <= k < |t[i].children| ==>
      var j := t[i].children[k].ino;
      i < j < |t| && t[j].parent == i
  }

  predicate NodeOk(t: seq<Inode>, i: nat)
    requires i < |t|
  {
    && LinksOk(t, i) && Distinct(t[i].children)
    && (t[i].isDir || t[i].children == [])
    && (if i == 0 then t[i].parent == 0 else t[i].parent < i && t[t[i].parent].isDir)
  }

  /** Indices in range, parents before children, sibling names unique, each inode linked at most
      once and only from its parent. */
  predicate Tree(t: seq<Inode>) {
    |t| > 0 && t[0].isDir && forall i :: 0 <= i < |t| ==> NodeOk(t, i)
  }

  function Attach(t: seq<Inode>, dir: nat, name: Name, node: Inode): seq<Inode>
    requires dir < |t|
  {
    t[dir := t[dir].(children := t[dir].children + [Link(name, |t|)])] + [node]
  }

  lemma AttachKeepsNode(t: seq<Inode>, dir: nat, name: Name, node: Inode, i: nat)
    requires Tree(t) && dir < |t| && t[dir].isDir && Find(t[dir].children, name).None?
    requires node.parent == dir && node.children == [] && i <= |t|
    ensures NodeOk(Attach(t, dir, name, node), i)
    ensures i == dir ==> Distinct(t[dir].children + [Link(name, |t|)])
  {
    assert NodeOk(t, dir);
    if i < |t| {
      assert NodeOk(t, i);
    }
    hide Tree, Find;
  }

  lemma AttachKeepsTree(t: seq<Inode>, dir: nat, name: Name, node: Inode)
    requires Tree(t) && dir < |t| && t[dir].isDir && Find(t[dir].children, name).None?
    requires node.parent == dir && node.children == []
    ensures Tree(Attach(t, dir, name, node))
    ensures Distinct(t[dir].children + [Link(name, |t|)])
  {
    hide NodeOk, Find, Distinct;
    var t' := Attach(t, dir, name, node);
    AttachKeepsNode(t, dir, name, node, dir);
    forall i | 0 <= i < |t'|
      ensures NodeOk(t', i)
    {
      AttachKeepsNode(t, dir, name, node, i);
    }
  }

  function Detach(t: seq<Inode>, dir: nat, target: nat): seq<Inode>
    requires dir < |t|
  {
    t[dir := t[dir].(children := Without(t[dir].children, target))]
  }

  lemma DetachKeepsTree(t: seq<Inode>, dir: nat, target: nat)
    requires Tree(t) && dir < |t|
    ensures Tree(Detach(t, dir, target))
  {
    var t' := Detach(t, dir, target);
    forall i | 0 <= i < |t'|
      ensures NodeOk(t', i)
    {
      assert NodeOk(t, i) && NodeOk(t, dir);
      WithoutIsDistinct(t[dir].children, target);
      forall k | 0 <= k < |t'[i].children|
        ensures i < t'[i].children[k].ino < |t'| && t'[t'[i].children[k].ino].parent == i
      {
        assert t'[i].children[k] in t[i].children;
      }
    }
  }

  /** The same links and kinds: only contents, permissions and load state may differ. */
  predicate SameShape(t: seq<Inode>, t': seq<Inode>) {
    && |t| == |t'|
    && forall i :: 0 <= i < |t| ==>
      t'[i].children == t[i].children && t'[i].parent == t[i].parent && t'[i].isDir == t[i].isDir
  }

  lemma SameShapeKeepsTree(t: seq<Inode>, t': seq<Inode>)
    requires Tree(t) && SameShape(t, t')
    ensures Tree(t')
  {
    forall i | 0 <= i < |t'|
      ensures NodeOk(t', i)
    {
      assert NodeOk(t, i);
    }
  }

  // ── Paths ─────────────────────────────────────────────────────────────────

  /** The inode a path leads to from `cur`. */
  function Follow(t: seq<Inode>, cur: nat, path: Path): (r: Option<nat>)
    requires Tree(t) && cur < |t|
    ensures r.Some? ==> r.value < |t|
    decreases |path|
  {
    if path == [] then Some(cur)
    else
      match Follow(t, cur, path[..|path| - 1])
      case None => None
      case Some(d) =>
        assert NodeOk(t, d);
        Find(t[d].children, path[|path| - 1])
  }

  /** The names up to the root; an inode its parent no longer lists contributes none. */
  function PathOf(t: seq<Inode>, i: nat): Path
    requires Tree(t) && i < |t|
    decreases i
  {
    if i == 0 then []
    else
      assert NodeOk(t, i);
      var up := PathOf(t, t[i].parent);
      match NameOf(t[t[i].parent].children, i)
      case None => up
      case Some(name) => up + [name]
  }

  /** Reachable from the root. */
  predicate Linked(t: seq<Inode>, i: nat)
    requires Tree(t) && i < |t|
    decreases i
  {
    i == 0 || (assert NodeOk(t, i); NameOf(t[t[i].parent].children, i).Some? && Linked(t, t[i].parent))
  }

  lemma ChildIsLinked(t: seq<Inode>, d: nat, k: nat)
    requires Tree(t) && d < |t| && Linked(t, d) && k < |t[d].children|
    ensures t[d].children[k].ino < |t| && Linked(t, t[d].children[k].ino)
    ensures PathOf(t, t[d].children[k].ino) == PathOf(t, d) + [t[d].children[k].name]
  {
    assert NodeOk(t, d);
    assert NodeOk(t, t[d].children[k].ino);
    FindLink(t[d].children, k);
  }

  lemma RootIsLinked(t: seq<Inode>)
    requires Tree(t)
    ensures Linked(t, 0) && PathOf(t, 0) == []
  {}

  /** A path that resolves is the path of the inode it resolves to. */
  lemma {:induction false} PathOfFollow(t: seq<Inode>, path: Path)
    requires Tree(t) && Follow(t, 0, path).Some?
    ensures Linked(t, Follow(t, 0, path).value) && PathOf(t, Follow(t, 0, path).value) == path
    decreases |path|
  {
    hide NodeOk, PathOf, Linked;
    RootIsLinked(t);
    if path == [] {
    } else {
      var init := path[..|path| - 1];
      PathOfFollow(t, init);
      var d := Follow(t, 0, init).value;
      var i := Follow(t, 0, path).value;
      var k :| 0 <= k < |t[d].children| && t[d].children[k] == Link(path[|path| - 1], i);
      ChildIsLinked(t, d, k);
    }
  }

  /** The path of a linked inode resolves to it. */
  lemma {:induction false} FollowPathOf(t: seq<Inode>, i: nat)
    requires Tree(t) && i < |t| && Linked(t, i)
    ensures Follow(t, 0, PathOf(t, i)) == Some(i)
    decreases i
  {
    if i == 0 {
    } else {
      assert NodeOk(t, i);
      var p := t[i].parent;
      assert NodeOk(t, p);
      FollowPathOf(t, p);
      var name := NameOf(t[p].children, i).value;
      var k :| 0 <= k < |t[p].children| && t[p].children[k] == Link(name, i);
      FindLink(t[p].children, k);
      assert PathOf(t, i)[..|PathOf(t, i)| - 1] == PathOf(t, p);
    }
  }

  lemma FindAttached(t: seq<Inode>, dir: nat, name: Name, node: Inode, d: nat, last: Name)
    requires Tree(t) && dir < |t| && t[dir].isDir && Find(t[dir].children, name).None? && d <= |t|
    requires node.parent == dir && node.children == []
    ensures Find(Attach(t, dir, name, node)[d].children, last)
         == if d == |t| then None else if d == dir && last == name then Some(|t|) else Find(t[d].children, last)
  {
    AttachKeepsTree(t, dir, name, node);
    hide Tree;
    if d == dir {
      FindAppended(t[dir].children, Link(name, |t|), last);
    }
  }

  /** Linking a new childless inode changes what exactly one path resolves to. */
  lemma {:induction false} FollowAttach(t: seq<Inode>, dir: nat, name: Name, node: Inode, path: Path)
    requires Tree(t) && dir < |t| && t[dir].isDir && Find(t[dir].children, name).None?
    requires Linked(t, dir) && node.parent == dir && node.children == []
    ensures Tree(Attach(t, dir, name, node))
    ensures Follow(Attach(t, dir, name, node), 0, path)
         == if path == PathOf(t, dir) + [name] then Some(|t|) else Follow(t, 0, path)
    decreases |path|
  {
    hide Tree, PathOf, Linked, Distinct, Find, Attach;
    AttachKeepsTree(t, dir, name, node);
    if path == [] {
    } else {
      var init, last := path[..|path| - 1], path[|path| - 1];
      assert path == init + [last];
      FollowAttach(t, dir, name, node, init);
      FollowPathOf(t, dir);
      if init == PathOf(t, dir) + [name] {
        assert init[..|init| - 1] == PathOf(t, dir);
        FindAttached(t, dir, name, node, |t|, last);
      } else if Follow(t, 0, init).Some? {
        PathOfFollow(t, init);
        FindAttached(t, dir, name, node, Follow(t, 0, init).value, last);
      }
    }
  }

  /** Unlinking a childless inode changes what exactly one path resolves to. */
  lemma {:induction false} FollowDetach(t: seq<Inode>, target: nat, path: Path)
    requires Tree(t) && 0 < target < |t| && Linked(t, target) && t[target].children == []
    ensures t[target].parent < |t| && Tree(Detach(t, t[target].parent, target))
    ensures Follow(Detach(t, t[target].parent, target), 0, path)
         == if path == PathOf(t, target) then None else Follow(t, 0, path)
    decreases |path|
  {
    assert NodeOk(t, target);
    var dir := t[target].parent;
    DetachKeepsTree(t, dir, target);
    var t' := Detach(t, dir, target);
    FollowPathOf(t, target);
    if path == [] {
    } else {
      var init, last := path[..|path| - 1], path[|path| - 1];
      FollowDetach(t, target, init);
      if init != PathOf(t, target) && Follow(t, 0, init).Some? {
        var d := Follow(t, 0, init).value;
        assert NodeOk(t, d);
        FindWithout(t[d].children, target, last);
        if Follow(t, 0, path) == Some(target) {
          PathOfFollow(t, path);
          var k :| 0 <= k < |t[d].children| && t[d].children[k] == Link(last, target);
          assert d == dir;
        }
      } else if init == PathOf(t, target) {
        assert path != PathOf(t, target);
      }
    }
  }

  lemma {:induction false} FollowSameShape(t: seq<Inode>, t': seq<Inode>, path: Path)
    requires Tree(t) && SameShape(t, t')
    ensures Tree(t') && Follow(t', 0, path) == Follow(t, 0, path)
    decreases |path|
  {
    SameShapeKeepsTree(t, t');
    if path == [] {
    } else {
      FollowSameShape(t, t', path[..|path| - 1]);
    }
  }

  lemma {:induction false} PathOfSameShape(t: seq<Inode>, t': seq<Inode>, i: nat)
    requires Tree(t) && SameShape(t, t') && i < |t|
    ensures Tree(t') && PathOf(t', i) == PathOf(t, i) && Linked(t', i) == Linked(t, i)
    decreases i
  {
    SameShapeKeepsTree(t, t');
    if i == 0 {
    } else {
      assert NodeOk(t, i);
      PathOfSameShape(t, t', t[i].parent);
    }
  }

  /** Paths see only what is linked: changes elsewhere change nothing they resolve to. */
  lemma {:induction false} FollowUntouched(t: seq<Inode>, t': seq<Inode>, path: Path)
    requires Tree(t) && Tree(t') && |t| <= |t'|
    requires forall i :: 0 <= i < |t| && Linked(t, i) ==> t'[i].children == t[i].children
    ensures Follow(t', 0, path) == Follow(t, 0, path)
    decreases |path|
  {
    if path == [] {
    } else {
      hide Tree, Linked, PathOf;
      var init := path[..|path| - 1];
      FollowUntouched(t, t', init);
      if Follow(t, 0, init).Some? {
        PathOfFollow(t, init);
      }
    }
  }

  /** A new link changes the path of no older inode. */
  lemma {:induction false} PathOfAttach(t: seq<Inode>, dir: nat, name: Name, node: Inode, i: nat)
    requires Tree(t) && dir < |t| && t[dir].isDir && Find(t[dir].children, name).None?
    requires node.parent == dir && node.children == [] && i < |t|
    ensures Tree(Attach(t, dir, name, node)) && PathOf(Attach(t, dir, name, node), i) == PathOf(t, i)
    decreases i
  {
    AttachKeepsTree(t, dir, name, node);
    if i == 0 {
    } else {
      var t' := Attach(t, dir, name, node);
      assert NodeOk(t, i) && t'[i].parent == t[i].parent;
      PathOfAttach(t, dir, name, node, t[i].parent);
      NameOfAppended(t[dir].children, Link(name, |t|), i);
    }
  }

  lemma {:induction false} NameOfAppended(links: seq<Link>, l: Link, ino: nat)
    requires l.ino != ino || forall k :: 0 <= k < |links| ==> links[k].ino != l.ino
    ensures NameOf(links + [l], ino) == if ino == l.ino then Some(l.name) else NameOf(links, ino)
    decreases |links|
  {
    if links == [] {
      assert links + [l] == [l] && [l][1..] == [];
    } else {
      assert (links + [l])[1..] == links[1..] + [l];
      NameOfAppended(links[1..], l, ino);
    }
  }

  // ── Slash-separated paths ─────────────────────────────────────────────────

  predicate NameOk(name: Name) { name != [] && SLASH !in name }

  predicate PathOk(path: Path) { forall k :: 0 <= k < |path| ==> NameOk(path[k]) }

  function Join(path: Path): seq<byte>
    decreases |path|
  {
    if |path| == 0 then []
    else if |path| == 1 then path[0]
    else Join(path[..|path| - 1]) + [SLASH] + path[|path| - 1]
  }

  /** Names are joined by slashes. */
  lemma JoinIsSpelled(path: Path, name: Name)
    requires path != []
    ensures Join(path + [name]) == Join(path) + Ascii("/") + name && Join([name]) == name && Join([]) == []
  {
    assert (path + [name])[..|path|] == path && Ascii("/") == [SLASH];
  }

  /** The closed segments of a string read left to right, and the segment still open. */
  function Cut(s: seq<byte>): (Path, Name)
    decreases |s|
  {
    if s == [] then ([], [])
    else
      var (closed, open) := Cut(s[..|s| - 1]);
      if s[|s| - 1] != SLASH then (closed, open + [s[|s| - 1]])
      else (Close(closed, open), [])
  }

  function Close(closed: Path, open: Name): Path {
    if open == [] then closed else closed + [open]
  }

  /** The non-empty segments between slashes. */
  function Split(s: seq<byte>): Path {
    var (closed, open) := Cut(s);
    Close(closed, open)
  }

  lemma {:induction false} CutAppend(s: seq<byte>, name: Name)
    requires SLASH !in name
    ensures Cut(s + name) == (Cut(s).0, Cut(s).1 + name)
    decreases |name|
  {
    if name == [] {
      assert s + name == s;
      assert Cut(s).1 + name == Cut(s).1;
    } else {
      var init := name[..|name| - 1];
      CutAppend(s, init);
      assert (s + name)[..|s + name| - 1] == s + init;
      assert Cut(s).1 + init + [name[|name| - 1]] == Cut(s).1 + name;
    }
  }

  /** Joining slash-free, non-empty names and splitting again gives the names back. */
  lemma {:induction false} SplitJoin(path: Path)
    requires PathOk(path)
    ensures Split(Join(path)) == path
    decreases |path|
  {
    if |path| == 1 {
      CutAppend([], path[0]);
      assert [] + path[0] == path[0] && NameOk(path[0]);
    } else if |path| > 1 {
      var init, last := path[..|path| - 1], path[|path| - 1];
      SplitJoin(init);
      var s := Join(init) + [SLASH];
      assert s[..|s| - 1] == Join(init);
      assert Cut(s) == (Split(Join(init)), []);
      assert NameOk(last);
      CutAppend(s, last);
      assert [] + last == last && init + [last] == path;
      assert Join(path) == s + last;
    }
  }

  lemma JoinIsInjective(p: Path, q: Path)
    requires PathOk(p) && PathOk(q) && Join(p) == Join(q)
    ensures p == q
  {
    SplitJoin(p);
    SplitJoin(q);
  }

  /** Every link carries a name a path can spell. */
  predicate NamesOk(t: seq<Inode>) {
    forall i, k :: 0 <= i < |t| && 0 <= k < |t[i].children| ==> NameOk(t[i].children[k].name)
  }

  lemma {:induction false} PathOfIsOk(t: seq<Inode>, i: nat)
    requires Tree(t) && NamesOk(t) && i < |t|
    ensures PathOk(PathOf(t, i))
    decreases i
  {
    if i == 0 {
    } else {
      assert NodeOk(t, i);
      PathOfIsOk(t, t[i].parent);
      var p := t[i].parent;
      if NameOf(t[p].children, i).Some? {
        var k :| 0 <= k < |t[p].children| && t[p].children[k] == Link(NameOf(t[p].children, i).value, i);
        assert NameOk(t[p].children[k].name);
      }
    }
  }

  /** The string the device gives an inode names that inode and no other. */
  lemma ResolveJoinedPath(t: seq<Inode>, i: nat)
    requires Tree(t) && NamesOk(t) && i < |t| && Linked(t, i)
    ensures Follow(t, 0, Split(Join(PathOf(t, i)))) == Some(i)
  {
    PathOfIsOk(t, i);
    SplitJoin(PathOf(t, i));
    FollowPathOf(t, i);
  }
}
