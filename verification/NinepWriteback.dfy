/**
 * Write-back: the guest's changes, collapsed to one operation for each path, replayed onto the
 * host's store. Whatever order they are replayed in, the store ends equal to the tree exactly when
 * no path turned from a file into a directory or back since the last drain.
 */
module NinepWriteback {
  import opened Bytes
  import opened NinepTree
  import opened NinepServer

  // ── The host's store ──────────────────────────────────────────────────────

  datatype Entry = FileEntry(data: seq<byte>) | DirEntry

  /** Paths to what is there; the root is a directory. */
  type Store = map<Path, Entry>

  function Stored(m: Store, p: Path): Option<Entry> { if p in m then Some(m[p]) else None }

  predicate StoreOk(m: Store) {
    && [] in m && m[[]].DirEntry?
    && forall p :: p in m ==> PathOk(p) && (p != [] ==> p[..|p| - 1] in m && m[p[..|p| - 1]].DirEntry?)
  }

  /** Create the directories along a path; stops at a file, keeping what it made. */
  function MakeDirs(m: Store, p: Path): (Store, bool)
    decreases |p|
  {
    if p == [] then (m, true)
    else
      var (m', ok) := MakeDirs(m, p[..|p| - 1]);
      if !ok then (m', false)
      else if p in m' then (m', m'[p].DirEntry?)
      else (m'[p := DirEntry], true)
  }

  datatype Change = Change(op: Op, path: seq<byte>, data: seq<byte>)

  /** Write a file, creating directories on the way; a directory of that name is left alone. */
  function WriteAt(m: Store, p: Path, data: seq<byte>): Store
    requires p != []
  {
    var (m', ok) := MakeDirs(m, p[..|p| - 1]);
    if !ok || (p in m' && m'[p].DirEntry?) then m' else m'[p := FileEntry(data)]
  }

  /** Remove an entry and everything below it. */
  function RemoveAt(m: Store, p: Path): Store { map q | q in m && !(p <= q) :: m[q] }

  function Apply(m: Store, c: Change): Store {
    var p := Split(c.path);
    if p == [] then m
    else
      match c.op
      case Written => WriteAt(m, p, c.data)
      case Deleted => RemoveAt(m, p)
      case Made => MakeDirs(m, p).0
  }

  function Replay(m: Store, cs: seq<Change>): Store
    decreases |cs|
  {
    if cs == [] then m else Replay(Apply(m, cs[0]), cs[1..])
  }

  // ── Draining ──────────────────────────────────────────────────────────────

  /** What a tree has at a path. */
  function View(t: seq<Inode>, p: Path): Option<Entry>
    requires Tree(t)
  {
    match Follow(t, 0, p)
    case None => None
    case Some(i) => Some(if t[i].isDir then DirEntry else FileEntry(t[i].data))
  }

  /** One recorded path as a change to replay; a write to what is no longer a file is dropped. */
  function DrainOne(s: Server, key: seq<byte>): seq<Change>
    requires Valid(s) && key in s.changes
  {
    if !s.changes[key].Written? then [Change(s.changes[key], key, [])]
    else
      match View(s.tree, Split(key))
      case Some(FileEntry(data)) => [Change(Written, key, data)]
      case _ => []
  }

  /** The recorded paths in the given order, as changes. */
  function Drain(s: Server, keys: seq<seq<byte>>): seq<Change>
    requires Valid(s) && forall k :: 0 <= k < |keys| ==> keys[k] in s.changes
    decreases |keys|
  {
    if keys == [] then [] else DrainOne(s, keys[0]) + Drain(s, keys[1..])
  }

  // ── What the record means ─────────────────────────────────────────────────

  /** Away from recorded paths the tree is the mirror; a recorded path has the kind its last
      operation left there. */
  predicate TrackedAt(s: Server, mirror: Store, p: Path)
    requires Tree(s.tree)
  {
    var v := View(s.tree, p);
    if p == [] || !PathOk(p) || Join(p) !in s.changes then v == Stored(mirror, p)
    else
      match s.changes[Join(p)]
      case Deleted => v == None
      case Made => v == Some(DirEntry)
      case Written => v.Some? && v.value.FileEntry?
  }

  predicate KeyOk(key: seq<byte>) { PathOk(Split(key)) && Split(key) != [] && Join(Split(key)) == key }

  ghost predicate Tracked(s: Server, mirror: Store) {
    && Valid(s) && NamesOk(s.tree) && StoreOk(mirror) && s.lazy
    && (forall key :: key in s.changes ==> KeyOk(key))
    && (forall p :: TrackedAt(s, mirror, p))
  }

  predicate Turned(a: Option<Entry>, b: Option<Entry>) {
    a.Some? && b.Some? && a.value.DirEntry? != b.value.DirEntry?
  }

  /** Some path is a file on one side and a directory on the other. */
  ghost predicate KindChanged(t: seq<Inode>, mirror: Store)
    requires Tree(t)
  {
    exists p :: Turned(View(t, p), Stored(mirror, p))
  }

  ghost predicate Matches(t: seq<Inode>, m: Store)
    requires Tree(t)
  {
    forall p :: View(t, p) == Stored(m, p)
  }

  // ── One replayed change ───────────────────────────────────────────────────

  /** A step that moves some paths to what the tree has and leaves the others. */
  ghost predicate Approaches(t: seq<Inode>, m: Store, m': Store)
    requires Tree(t)
  {
    StoreOk(m') && forall q :: Stored(m', q) == Stored(m, q) || Stored(m', q) == View(t, q)
  }

  /** Above something there are only directories. */
  lemma ParentIsDir(t: seq<Inode>, p: Path)
    requires Tree(t) && View(t, p).Some? && p != []
    ensures View(t, p[..|p| - 1]) == Some(DirEntry)
  {
    assert NodeOk(t, Follow(t, 0, p[..|p| - 1]).value);
  }

  lemma {:induction false} NothingBelowNothing(t: seq<Inode>, p: Path, q: Path)
    requires Tree(t) && View(t, p).None? && p <= q
    ensures View(t, q).None?
    decreases |q|
  {
    if |p| < |q| {
      NothingBelowNothing(t, p, q[..|q| - 1]);
    } else {
      assert p == q;
    }
  }

  lemma {:induction false} ViewedPathIsOk(t: seq<Inode>, p: Path)
    requires Tree(t) && NamesOk(t) && View(t, p).Some?
    ensures PathOk(p)
  {
    PathOfFollow(t, p);
    PathOfIsOk(t, Follow(t, 0, p).value);
  }

  /** An entry may be put under a directory where there is none yet, or a file. */
  lemma PutKeepsStore(m: Store, p: Path, e: Entry)
    requires StoreOk(m) && PathOk(p) && p != [] && Stored(m, p[..|p| - 1]) == Some(DirEntry)
    requires Stored(m, p) != Some(DirEntry)
    ensures StoreOk(m[p := e])
  {
    forall q | q in m && q != []
      ensures q[..|q| - 1] != p
    {
      assert m[q[..|q| - 1]].DirEntry?;
    }
  }

  lemma PutApproaches(t: seq<Inode>, m: Store, m1: Store, p: Path, e: Entry)
    requires Tree(t) && StoreOk(m) && Approaches(t, m, m1) && PathOk(p) && p != []
    requires Stored(m1, p[..|p| - 1]) == Some(DirEntry) && Stored(m1, p) != Some(DirEntry) && View(t, p) == Some(e)
    ensures Approaches(t, m, m1[p := e])
  {
    hide View, StoreOk;
    PutKeepsStore(m1, p, e);
    forall q
      ensures Stored(m1[p := e], q) == Stored(m, q) || Stored(m1[p := e], q) == View(t, q)
    {
      assert Stored(m1, q) == Stored(m, q) || Stored(m1, q) == View(t, q);
    }
  }

  lemma {:induction false} MakeDirsApproaches(t: seq<Inode>, m: Store, p: Path)
    requires Tree(t) && NamesOk(t) && StoreOk(m) && View(t, p) == Some(DirEntry)
    requires forall q :: !Turned(View(t, q), Stored(m, q))
    ensures MakeDirs(m, p).1 && Approaches(t, m, MakeDirs(m, p).0)
    ensures Stored(MakeDirs(m, p).0, p) == Some(DirEntry)
    decreases |p|
  {
    if p != [] {
      hide View, StoreOk, Approaches, NamesOk, Tree, PathOk;
      var init := p[..|p| - 1];
      ParentIsDir(t, p);
      MakeDirsApproaches(t, m, init);
      ViewedPathIsOk(t, p);
      var m1 := MakeDirs(m, init).0;
      NotTurned(t, m, m1, p);
      if p !in m1 {
        PutApproaches(t, m, m1, p, DirEntry);
      }
    } else {
      RootStays(t, m);
    }
  }

  lemma RootStays(t: seq<Inode>, m: Store)
    requires Tree(t) && StoreOk(m)
    ensures Approaches(t, m, m)
  {}

  lemma NotTurned(t: seq<Inode>, m: Store, m1: Store, p: Path)
    requires Tree(t) && Approaches(t, m, m1) && !Turned(View(t, p), Stored(m, p))
    ensures !Turned(View(t, p), Stored(m1, p))
  {
    assert Stored(m1, p) == Stored(m, p) || Stored(m1, p) == View(t, p);
  }

  lemma WriteApproaches(t: seq<Inode>, m: Store, p: Path, data: seq<byte>)
    requires Tree(t) && NamesOk(t) && StoreOk(m) && p != [] && View(t, p) == Some(FileEntry(data))
    requires forall q :: !Turned(View(t, q), Stored(m, q))
    ensures Approaches(t, m, WriteAt(m, p, data)) && Stored(WriteAt(m, p, data), p) == View(t, p)
  {
    hide View, StoreOk, Approaches, NamesOk, MakeDirs, Tree, PathOk;
    ParentIsDir(t, p);
    MakeDirsApproaches(t, m, p[..|p| - 1]);
    ViewedPathIsOk(t, p);
    var m1 := MakeDirs(m, p[..|p| - 1]).0;
    NotTurned(t, m, m1, p);
    PutApproaches(t, m, m1, p, FileEntry(data));
  }

  lemma RemoveApproaches(t: seq<Inode>, m: Store, p: Path)
    requires Tree(t) && StoreOk(m) && p != [] && View(t, p).None?
    ensures Approaches(t, m, RemoveAt(m, p)) && Stored(RemoveAt(m, p), p) == View(t, p)
  {
    var m' := RemoveAt(m, p);
    forall q
      ensures Stored(m', q) == Stored(m, q) || Stored(m', q) == View(t, q)
    {
      if p <= q {
        NothingBelowNothing(t, p, q);
      }
    }
    hide View, Tree;
    forall q | q in m' && q != []
      ensures q[..|q| - 1] in m'
    {
      assert q in m;
    }
    assert [] in m';
  }

  /** A recorded path has the kind its last operation left there. */
  lemma KindAtKey(s: Server, mirror: Store, key: seq<byte>)
    requires Tracked(s, mirror) && key in s.changes
    ensures Valid(s) && NamesOk(s.tree) && Split(key) != []
    ensures match s.changes[key]
      case Deleted => View(s.tree, Split(key)) == None
      case Made => View(s.tree, Split(key)) == Some(DirEntry)
      case Written => View(s.tree, Split(key)).Some? && View(s.tree, Split(key)).value.FileEntry?
  {
    assert KeyOk(key) && TrackedAt(s, mirror, Split(key));
  }

  /** Replaying a recorded path makes the store agree with the tree there, and nowhere disagree more. */
  lemma ApplyApproaches(s: Server, mirror: Store, m: Store, key: seq<byte>)
    requires Tracked(s, mirror) && StoreOk(m) && key in s.changes
    requires forall q :: !Turned(View(s.tree, q), Stored(m, q))
    ensures var cs := DrainOne(s, key);
      |cs| == 1 && Approaches(s.tree, m, Apply(m, cs[0]))
        && Stored(Apply(m, cs[0]), Split(key)) == View(s.tree, Split(key))
  {
    hide Tracked, NamesOk, View, StoreOk, Approaches, WriteAt, RemoveAt, MakeDirs, Tree, Split, PathOk;
    var p, t := Split(key), s.tree;
    KindAtKey(s, mirror, key);
    match s.changes[key]
    case Made => MakeDirsApproaches(t, m, p);
    case Written => WriteApproaches(t, m, p, View(t, p).value.data);
    case Deleted => RemoveApproaches(t, m, p);
  }

  lemma NamesAreOk(s: Server, mirror: Store)
    requires Tracked(s, mirror)
    ensures Valid(s) && Tree(s.tree) && NamesOk(s.tree) && s.lazy
  {}

  // ── Replaying every change ────────────────────────────────────────────────

  /** Any order that covers the record; the device uses the order of the path strings. */
  predicate Covers(keys: seq<seq<byte>>, changes: map<seq<byte>, Op>) {
    (forall k :: 0 <= k < |keys| ==> keys[k] in changes) && (forall key :: key in changes ==> key in keys)
  }

  lemma ApproachesMore(t: seq<Inode>, m: Store, m1: Store, m2: Store)
    requires Tree(t) && Approaches(t, m, m1) && Approaches(t, m1, m2)
    ensures Approaches(t, m, m2)
    ensures forall q :: Stored(m1, q) == View(t, q) ==> Stored(m2, q) == View(t, q)
  {
    hide View, StoreOk;
    forall q
      ensures Stored(m2, q) == Stored(m, q) || Stored(m2, q) == View(t, q)
    {
      assert Stored(m1, q) == Stored(m, q) || Stored(m1, q) == View(t, q);
      assert Stored(m2, q) == Stored(m1, q) || Stored(m2, q) == View(t, q);
    }
  }

  lemma {:induction false} ReplayApproaches(s: Server, mirror: Store, m: Store, keys: seq<seq<byte>>)
    requires Tracked(s, mirror) && StoreOk(m) && forall k :: 0 <= k < |keys| ==> keys[k] in s.changes
    requires forall q :: !Turned(View(s.tree, q), Stored(m, q))
    ensures var m' := Replay(m, Drain(s, keys));
      && Approaches(s.tree, m, m')
      && forall k :: 0 <= k < |keys| ==> Stored(m', Split(keys[k])) == View(s.tree, Split(keys[k]))
    decreases |keys|
  {
    hide View, Split, DrainOne, Apply, Approaches, Tracked, Stored;
    if keys == [] {
      assert Tree(s.tree) by { NamesAreOk(s, mirror); }
      RootStays(s.tree, m);
    } else {
      NamesAreOk(s, mirror);
      ApplyApproaches(s, mirror, m, keys[0]);
      var c := DrainOne(s, keys[0])[0];
      var m1 := Apply(m, c);
      StaysUnturned(s.tree, m, m1);
      ReplayApproaches(s, mirror, m1, keys[1..]);
      var rest := Drain(s, keys[1..]);
      assert DrainOne(s, keys[0]) + rest == [c] + rest && ([c] + rest)[1..] == rest;
      ApproachesMore(s.tree, m, m1, Replay(m1, rest));
      forall k | 0 <= k < |keys|
        ensures Stored(Replay(m1, rest), Split(keys[k])) == View(s.tree, Split(keys[k]))
      {
        if k > 0 {
          assert keys[k] == keys[1..][k - 1];
        }
      }
    }
  }

  lemma StaysUnturned(t: seq<Inode>, m: Store, m1: Store)
    requires Tree(t) && Approaches(t, m, m1) && forall q :: !Turned(View(t, q), Stored(m, q))
    ensures StoreOk(m1) && forall q :: !Turned(View(t, q), Stored(m1, q))
  {
    forall q
      ensures !Turned(View(t, q), Stored(m1, q))
    {
      NotTurned(t, m, m1, q);
    }
  }

  lemma {:induction false} MakeDirsKeeps(m: Store, q: Path, p: Path)
    requires Stored(m, p).Some?
    ensures Stored(MakeDirs(m, q).0, p) == Stored(m, p)
    decreases |q|
  {
    if q == [] {
    } else {
      MakeDirsKeeps(m, q[..|q| - 1], p);
    }
  }

  lemma WriteKeepsTurned(m: Store, q: Path, data: seq<byte>, p: Path, v: Option<Entry>)
    requires q != [] && Turned(v, Stored(m, p)) && (q == p ==> v.value.FileEntry?)
    ensures Turned(v, Stored(WriteAt(m, q, data), p))
  {
    hide MakeDirs;
    MakeDirsKeeps(m, q[..|q| - 1], p);
  }

  lemma RemoveKeepsTurned(m: Store, q: Path, p: Path, v: Option<Entry>)
    requires Turned(v, Stored(m, p)) && !(q <= p)
    ensures Turned(v, Stored(RemoveAt(m, q), p))
  {}

  lemma NothingAbove(t: seq<Inode>, q: Path, p: Path)
    requires Tree(t) && View(t, q).None? && View(t, p).Some?
    ensures !(q <= p)
  {
    if q <= p {
      NothingBelowNothing(t, q, p);
    }
  }

  /** No replayed change repairs a path whose kind changed. */
  lemma ApplyKeepsTurned(s: Server, mirror: Store, m: Store, key: seq<byte>, p: Path)
    requires Tracked(s, mirror) && key in s.changes && Turned(View(s.tree, p), Stored(m, p))
    ensures |DrainOne(s, key)| == 1 && Turned(View(s.tree, p), Stored(Apply(m, DrainOne(s, key)[0]), p))
  {
    hide Tracked, NamesOk, View, Tree, MakeDirs, WriteAt, RemoveAt, Split, Stored, PathOk;
    var q, t := Split(key), s.tree;
    KindAtKey(s, mirror, key);
    match s.changes[key]
    case Made => MakeDirsKeeps(m, q, p);
    case Written => WriteKeepsTurned(m, q, View(t, q).value.data, p, View(t, p));
    case Deleted =>
      NothingAbove(t, q, p);
      RemoveKeepsTurned(m, q, p, View(t, p));
  }

  lemma {:induction false} ReplayKeepsTurned(s: Server, mirror: Store, m: Store, keys: seq<seq<byte>>, p: Path)
    requires Tracked(s, mirror) && Turned(View(s.tree, p), Stored(m, p))
    requires forall k :: 0 <= k < |keys| ==> keys[k] in s.changes
    ensures Turned(View(s.tree, p), Stored(Replay(m, Drain(s, keys)), p))
    decreases |keys|
  {
    hide View, DrainOne, Apply, Tracked, Stored, Turned;
    if keys == [] {
    } else {
      NamesAreOk(s, mirror);
      ApplyKeepsTurned(s, mirror, m, keys[0], p);
      var c, rest := DrainOne(s, keys[0])[0], Drain(s, keys[1..]);
      assert DrainOne(s, keys[0]) + rest == [c] + rest && ([c] + rest)[1..] == rest;
      ReplayKeepsTurned(s, mirror, Apply(m, c), keys[1..], p);
    }
  }

  /** Draining and replaying, in any order, makes the mirror equal to the tree exactly when no path
      changed its kind since they were last equal. */
  lemma ReplayRestores(s: Server, mirror: Store, keys: seq<seq<byte>>)
    requires Tracked(s, mirror) && Covers(keys, s.changes)
    ensures Matches(s.tree, Replay(mirror, Drain(s, keys))) <==> !KindChanged(s.tree, mirror)
    ensures !KindChanged(s.tree, mirror) ==> Tracked(s.(changes := map[]), Replay(mirror, Drain(s, keys)))
  {
    hide View, Replay, Drain, NamesOk, Tree, Stored, Turned;
    var m' := Replay(mirror, Drain(s, keys));
    if KindChanged(s.tree, mirror) {
      var p :| Turned(View(s.tree, p), Stored(mirror, p));
      ReplayKeepsTurned(s, mirror, mirror, keys, p);
      assert View(s.tree, p) != Stored(m', p) by { TurnedDiffer(View(s.tree, p), Stored(m', p)); }
    } else {
      ReplayApproaches(s, mirror, mirror, keys);
      forall p
        ensures View(s.tree, p) == Stored(m', p)
      {
        RestoredAt(s, mirror, m', keys, p);
      }
    }
  }

  lemma TurnedDiffer(a: Option<Entry>, b: Option<Entry>)
    requires Turned(a, b)
    ensures a != b
  {}

  lemma RestoredAt(s: Server, mirror: Store, m': Store, keys: seq<seq<byte>>, p: Path)
    requires Tracked(s, mirror) && Covers(keys, s.changes) && Approaches(s.tree, mirror, m')
    requires forall k :: 0 <= k < |keys| ==> Stored(m', Split(keys[k])) == View(s.tree, Split(keys[k]))
    ensures View(s.tree, p) == Stored(m', p)
  {
    hide View, Tree;
    assert TrackedAt(s, mirror, p);
    assert Stored(m', p) == Stored(mirror, p) || Stored(m', p) == View(s.tree, p);
    if p != [] && PathOk(p) && Join(p) in s.changes {
      var k :| 0 <= k < |keys| && keys[k] == Join(p);
      SplitJoin(p);
    }
  }

  // ── Every message keeps the record truthful ───────────────────────────────

  /** The kind an operation leaves at its path. */
  predicate Leaves(op: Op, v: Option<Entry>) {
    match op
    case Deleted => v == None
    case Made => v == Some(DirEntry)
    case Written => v.Some? && v.value.FileEntry?
  }

  predicate Removable(node: Inode) { !node.isDir || node.children == [] }

  /** A write recorded for inode `ino` is true: nothing is recorded, or the path recorded is a file's. */
  predicate WriteIsTrue(t: seq<Inode>, ino: nat)
    requires Tree(t) && ino < |t|
  {
    PathOf(t, ino) == [] || Leaves(Written, View(t, PathOf(t, ino)))
  }

  /** A new entry of `dir` is recorded truly: it can be spelled, and it shows at the path recorded, or
      something of its kind does. */
  predicate CreationIsTrue(t: seq<Inode>, dir: nat, name: Name, op: Op)
    requires Tree(t) && dir < |t|
  {
    NameOk(name) && (Linked(t, dir) || Leaves(op, View(t, PathOf(t, dir) + [name])))
  }

  /** What a message records is true of the tree it leaves, told from the tree it finds. A message that
      is refused records nothing, and neither does one that changes nothing. */
  predicate RecordsTruly(s: Server, m: Msg)
    requires Valid(s)
  {
    match m
    case Lcreate(fid, name, _) =>
      fid in s.fids && s.tree[s.fids[fid]].isDir && Find(s.tree[s.fids[fid]].children, name).None? ==>
        CreationIsTrue(s.tree, s.fids[fid], name, Written)
    case Mkdir(fid, name) =>
      fid in s.fids && s.tree[s.fids[fid]].isDir && Find(s.tree[s.fids[fid]].children, name).None? ==>
        CreationIsTrue(s.tree, s.fids[fid], name, Made)
    case Write(fid, _, _) => fid in s.fids && !s.tree[s.fids[fid]].isDir ==> WriteIsTrue(s.tree, s.fids[fid])
    case Setattr(fid, valid, _, _) => fid in s.fids && valid / 8 % 2 == 1 ==> WriteIsTrue(s.tree, s.fids[fid])
    case Remove(fid) =>
      fid in s.fids && Removable(s.tree[s.fids[fid]]) ==>
        var (t, ino) := (s.tree, s.fids[fid]);
        Linked(t, ino) || PathOf(t, ino) == [] || View(t, PathOf(t, ino)).None?
    case Unlinkat(fid, name) =>
      fid in s.fids && Find(s.tree[s.fids[fid]].children, name).Some? ==>
        var (t, dir) := (s.tree, s.fids[fid]);
        ChildInTable(t, dir, name);
        Removable(t[Find(t[dir].children, name).value]) ==>
          Linked(t, dir) || View(t, PathOf(t, dir) + [name]).None?
    case _ => true
  }

  lemma ChildInTable(t: seq<Inode>, dir: nat, name: Name)
    requires Tree(t) && dir < |t| && Find(t[dir].children, name).Some?
    ensures var i := Find(t[dir].children, name).value;
      dir < i < |t| && t[i].parent == dir && NameOf(t[dir].children, i) == Some(name)
  {
    assert NodeOk(t, dir);
    var k :| 0 <= k < |t[dir].children| && t[dir].children[k] == Link(name, Find(t[dir].children, name).value);
    FindLink(t[dir].children, k);
  }

  lemma RecordedAt(s: Server, s': Server, mirror: Store, p: Path, op: Op, q: Path)
    requires Valid(s) && Valid(s') && TrackedAt(s, mirror, q) && p != [] && PathOk(p)
    requires s'.changes == s.changes[Join(p) := op] && Leaves(op, View(s'.tree, p))
    requires q != p ==> View(s'.tree, q) == View(s.tree, q)
    ensures TrackedAt(s', mirror, q)
  {
    hide View, Join, Tree, Stored;
    if q != p && PathOk(q) && Join(q) == Join(p) {
      JoinIsInjective(q, p);
    }
  }

  /** One path changed and was recorded. */
  lemma RecordedChange(s: Server, s': Server, mirror: Store, p: Path, op: Op)
    requires Tracked(s, mirror) && Valid(s') && NamesOk(s'.tree) && s'.lazy && p != [] && PathOk(p)
    requires s'.changes == s.changes[Join(p) := op] && Leaves(op, View(s'.tree, p))
    requires forall q :: q != p ==> View(s'.tree, q) == View(s.tree, q)
    ensures Tracked(s', mirror)
  {
    hide View, Join, Split, NamesOk, Tree, StoreOk, PathOk, TrackedAt, Leaves;
    SplitJoin(p);
    forall q
      ensures TrackedAt(s', mirror, q)
    {
      assert TrackedAt(s, mirror, q);
      RecordedAt(s, s', mirror, p, op, q);
    }
  }

  /** Nothing visible changed. */
  lemma UnrecordedChange(s: Server, s': Server, mirror: Store)
    requires Tracked(s, mirror) && Valid(s') && NamesOk(s'.tree) && s'.lazy && s'.changes == s.changes
    requires forall q :: View(s'.tree, q) == View(s.tree, q)
    ensures Tracked(s', mirror)
  {
    hide View, Join, Split, NamesOk, Tree, StoreOk;
    forall q
      ensures TrackedAt(s', mirror, q)
    {
      assert TrackedAt(s, mirror, q);
    }
  }

  lemma MarkRecords(s: Server, p: Path, op: Op)
    requires s.lazy && p != [] && PathOk(p)
    ensures Mark(s, p, op) == s.(changes := s.changes[Join(p) := op])
  {
    SplitJoin(p);
  }

  /** At most the recorded path changed: the record stays truthful exactly when what it says of that path
      is so, or there was nothing to record. */
  lemma MarkedExactly(s: Server, s1: Server, mirror: Store, p: Path, op: Op)
    requires Tracked(s, mirror) && Valid(s1) && NamesOk(s1.tree) && s1.lazy && s1.changes == s.changes && PathOk(p)
    requires forall q :: q != p || p == [] ==> View(s1.tree, q) == View(s.tree, q)
    ensures Tracked(Mark(s1, p, op), mirror) <==> p == [] || Leaves(op, View(s1.tree, p))
  {
    hide View, NamesOk, Tree, StoreOk, PathOk, Leaves;
    if p == [] {
      UnrecordedChange(s, s1, mirror);
    } else {
      MarkRecords(s1, p, op);
      hide Mark, Join, Split;
      var s' := Mark(s1, p, op);
      if Leaves(op, View(s1.tree, p)) {
        RecordedChange(s, s', mirror, p, op);
      } else {
        NotLeft(s', mirror, p, op);
      }
    }
  }

  /** A record that does not say what is there is not truthful. */
  lemma NotLeft(s: Server, mirror: Store, p: Path, op: Op)
    requires Valid(s) && p != [] && PathOk(p) && Join(p) in s.changes && s.changes[Join(p)] == op
    requires !Leaves(op, View(s.tree, p))
    ensures !Tracked(s, mirror)
  {
    hide View, Join, NamesOk;
    assert !TrackedAt(s, mirror, p);
  }

  lemma AttachKeepsNames(t: seq<Inode>, dir: nat, name: Name, node: Inode)
    requires NamesOk(t) && dir < |t| && NameOk(name) && node.children == []
    ensures NamesOk(Attach(t, dir, name, node))
  {}

  lemma {:induction false} ViewAttach(t: seq<Inode>, dir: nat, name: Name, node: Inode, q: Path)
    requires Tree(t) && dir < |t| && t[dir].isDir && Find(t[dir].children, name).None?
    requires Linked(t, dir) && node.parent == dir && node.children == []
    ensures Tree(Attach(t, dir, name, node))
    ensures View(Attach(t, dir, name, node), q)
         == if q == PathOf(t, dir) + [name] then Some(if node.isDir then DirEntry else FileEntry(node.data))
           else View(t, q)
  {
    hide NodeOk, Find, PathOf, Linked;
    FollowAttach(t, dir, name, node, q);
  }

  lemma NewPath(t: seq<Inode>, dir: nat, name: Name, node: Inode)
    requires Tree(t) && dir < |t| && t[dir].isDir && Find(t[dir].children, name).None? && NamesOk(t) && NameOk(name)
    requires Linked(t, dir) && node.parent == dir && node.children == []
    ensures var t' := Attach(t, dir, name, node);
      Tree(t') && NamesOk(t') && PathOf(t', |t|) == PathOf(t, dir) + [name] && PathOk(PathOf(t', |t|))
  {
    hide NodeOk, Find, PathOf, Linked;
    AttachKeepsNames(t, dir, name, node);
    var t', p := Attach(t, dir, name, node), PathOf(t, dir) + [name];
    FollowAttach(t, dir, name, node, p);
    PathOfFollow(t', p);
    PathOfIsOk(t', |t|);
  }

  lemma CreateKeepsTracked(s: Server, mirror: Store, dir: nat, name: Name, node: Inode, op: Op)
    requires Tracked(s, mirror) && dir < |s.tree| && s.tree[dir].isDir && Find(s.tree[dir].children, name).None?
    requires Linked(s.tree, dir) && NameOk(name) && node.parent == dir && node.children == []
    requires !op.Deleted? && op.Made? == node.isDir
    ensures Tracked(Create(s, dir, name, node, op), mirror)
  {
    hide Tracked, Tree, Find, View, PathOf, NamesOk, Linked, Mark, PathOk;
    NamesAreOk(s, mirror);
    var t, s' := Attach(s.tree, dir, name, node), Create(s, dir, name, node, op);
    var p := PathOf(s.tree, dir) + [name];
    NewPath(s.tree, dir, name, node);
    forall q
      ensures View(t, q) == if q == p then Some(if node.isDir then DirEntry else FileEntry(node.data))
        else View(s.tree, q)
    {
      ViewAttach(s.tree, dir, name, node, q);
    }
    MarkRecords(s.(tree := t), p, op);
    RecordedChange(s, s', mirror, p, op);
  }

  /** New contents show at the path of a linked inode and nowhere else; those of an unlinked one show
      nowhere. */
  lemma ReviseShows(t: seq<Inode>, ino: nat, node: Inode, q: Path)
    requires Tree(t) && ino < |t| && SameShape(t, t[ino := node])
    ensures Tree(t[ino := node]) && (q != PathOf(t, ino) ==> View(t[ino := node], q) == View(t, q))
    ensures var (v, v') := (View(t, q), View(t[ino := node], q));
      (v.Some? <==> v'.Some?) && (v.Some? ==> v.value.DirEntry? == v'.value.DirEntry?)
  {
    hide NodeOk, PathOf, Linked;
    FollowSameShape(t, t[ino := node], q);
    if Follow(t, 0, q) == Some(ino) {
      PathOfFollow(t, q);
    }
  }

  /** A recorded write to any inode, linked or not. */
  lemma ReviseExactly(s: Server, mirror: Store, ino: nat, node: Inode)
    requires Tracked(s, mirror) && ino < |s.tree|
    requires node.children == s.tree[ino].children && node.parent == s.tree[ino].parent
      && node.isDir == s.tree[ino].isDir
    ensures var s' := Revise(s, ino, node);
      Tracked(Mark(s', PathOf(s'.tree, ino), Written), mirror) <==> WriteIsTrue(s.tree, ino)
  {
    hide Tracked, NodeOk, View, PathOf, Linked, Mark, PathOk;
    NamesAreOk(s, mirror);
    var s' := Revise(s, ino, node);
    var p := PathOf(s.tree, ino);
    PathOfSameShape(s.tree, s'.tree, ino);
    PathOfIsOk(s.tree, ino);
    assert NamesOk(s'.tree);
    forall q
      ensures q != p || p == [] ==> View(s'.tree, q) == View(s.tree, q)
    {
      ReviseShows(s.tree, ino, node, q);
      if q == [] {
        RootView(s.tree);
        RootView(s'.tree);
      }
    }
    ReviseShows(s.tree, ino, node, p);
    MarkedExactly(s, s', mirror, p, Written);
  }

  lemma RootView(t: seq<Inode>)
    requires Tree(t)
    ensures View(t, []) == Some(DirEntry)
  {}

  lemma ChmodKeepsTracked(s: Server, mirror: Store, ino: nat, node: Inode)
    requires Tracked(s, mirror) && ino < |s.tree|
    requires node == s.tree[ino].(perm := node.perm)
    ensures Tracked(Revise(s, ino, node), mirror)
  {
    NamesAreOk(s, mirror);
    assert s.lazy;
    hide Tracked, NodeOk;
    var s' := Revise(s, ino, node);
    forall q
      ensures View(s'.tree, q) == View(s.tree, q)
    {
      FollowSameShape(s.tree, s'.tree, q);
    }
    assert NamesOk(s'.tree);
    UnrecordedChange(s, s', mirror);
  }

  lemma DetachKeepsNames(t: seq<Inode>, dir: nat, target: nat)
    requires NamesOk(t) && dir < |t|
    ensures NamesOk(Detach(t, dir, target))
  {
    var t' := Detach(t, dir, target);
    forall i, k | 0 <= i < |t'| && 0 <= k < |t'[i].children|
      ensures NameOk(t'[i].children[k].name)
    {
      assert t'[i].children[k] in t[i].children;
    }
  }

  lemma {:induction false} ViewDetach(t: seq<Inode>, target: nat, q: Path)
    requires Tree(t) && 0 < target < |t| && Linked(t, target) && t[target].children == []
    ensures t[target].parent < |t| && Tree(Detach(t, t[target].parent, target))
    ensures View(Detach(t, t[target].parent, target), q) == if q == PathOf(t, target) then None else View(t, q)
  {
    assert NodeOk(t, target);
    hide NodeOk, PathOf, Linked, Without;
    FollowDetach(t, target, q);
  }

  lemma LinkedPath(t: seq<Inode>, i: nat)
    requires Tree(t) && NamesOk(t) && 0 < i < |t| && Linked(t, i)
    ensures PathOf(t, i) != [] && PathOk(PathOf(t, i)) && t[i].parent < |t|
  {
    FollowPathOf(t, i);
    PathOfIsOk(t, i);
    assert NodeOk(t, i);
  }

  /** An unlinked inode disappears at its path and nowhere else. */
  lemma UnlinkKeepsTracked(s: Server, mirror: Store, target: nat)
    requires Tracked(s, mirror) && 0 < target < |s.tree| && Linked(s.tree, target) && s.tree[target].children == []
    ensures s.tree[target].parent < |s.tree|
    ensures var s' := s.(tree := Detach(s.tree, s.tree[target].parent, target));
      Tracked(Mark(s', PathOf(s.tree, target), Deleted), mirror)
  {
    hide Tracked, Tree, Without, View, PathOf, NamesOk, Linked, Mark, PathOk;
    NamesAreOk(s, mirror);
    LinkedPath(s.tree, target);
    var dir := s.tree[target].parent;
    var s' := s.(tree := Detach(s.tree, dir, target));
    var p := PathOf(s.tree, target);
    DetachKeepsTree(s.tree, dir, target);
    DetachKeepsNames(s.tree, dir, target);
    forall q
      ensures View(s'.tree, q) == if q == p then None else View(s.tree, q)
    {
      ViewDetach(s.tree, target, q);
    }
    MarkRecords(s', p, Deleted);
    RecordedChange(s, Mark(s', p, Deleted), mirror, p, Deleted);
  }

  lemma FidsDoNotMatter(s: Server, fids: map<nat, nat>, msize: nat, mirror: Store)
    requires Tracked(s, mirror) && forall f :: f in fids ==> fids[f] < |s.tree|
    ensures Tracked(s.(fids := fids, msize := msize), mirror)
  {
    hide View;
    UnrecordedChange(s, s.(fids := fids, msize := msize), mirror);
  }

  /** Links to an inode that is not linked lie only in directories that are not. */
  lemma DetachUnlinked(t: seq<Inode>, dir: nat, target: nat, q: Path)
    requires Tree(t) && dir < |t| && target < |t| && !Linked(t, target)
    ensures Tree(Detach(t, dir, target)) && View(Detach(t, dir, target), q) == View(t, q)
  {
    hide NodeOk, PathOf;
    DetachKeepsTree(t, dir, target);
    var t' := Detach(t, dir, target);
    forall i | 0 <= i < |t| && Linked(t, i)
      ensures t'[i].children == t[i].children
    {
      if NameOf(t[i].children, target).Some? {
        var k :| 0 <= k < |t[i].children| && t[i].children[k] == Link(NameOf(t[i].children, target).value, target);
        ChildIsLinked(t, i, k);
      }
      NothingToDrop(t[i].children, target);
    }
    hide Linked, Detach;
    FollowUntouched(t, t', q);
  }

  lemma RootRemoval(s: Server, mirror: Store)
    requires Tracked(s, mirror) && Removable(s.tree[0])
    ensures s.tree[0].parent == 0 && Detach(s.tree, 0, 0) == s.tree && PathOf(s.tree, 0) == []
    ensures Tracked(Mark(s.(tree := Detach(s.tree, 0, 0)), [], Deleted), mirror)
  {
    assert NodeOk(s.tree, 0);
    assert Without([], 0) == [];
    assert Mark(s, [], Deleted) == s;
  }

  /** A removal that is not refused, of any inode, recorded under any path of it. */
  lemma RemovalExactly(s: Server, mirror: Store, target: nat)
    requires Tracked(s, mirror) && target < |s.tree| && Removable(s.tree[target])
    ensures s.tree[target].parent < |s.tree|
    ensures var (r, p) := (Unlink(s, s.tree[target].parent, target), PathOf(s.tree, target));
      r.Some? && (Tracked(Mark(r.value, p, Deleted), mirror)
                  <==> Linked(s.tree, target) || p == [] || View(s.tree, p).None?)
  {
    NamesAreOk(s, mirror);
    assert NodeOk(s.tree, target);
    var dir, p := s.tree[target].parent, PathOf(s.tree, target);
    var s1 := s.(tree := Detach(s.tree, dir, target));
    DetachKeepsTree(s.tree, dir, target);
    if target == 0 {
      RootRemoval(s, mirror);
    } else if Linked(s.tree, target) {
      hide Tracked, Tree, View, Mark;
      UnlinkKeepsTracked(s, mirror, target);
    } else {
      hide Tracked, Tree, View, Mark, Detach, PathOf, Linked;
      DetachKeepsNames(s.tree, dir, target);
      PathOfIsOk(s.tree, target);
      forall q
        ensures View(s1.tree, q) == View(s.tree, q)
      {
        DetachUnlinked(s.tree, dir, target, q);
      }
      MarkedExactly(s, s1, mirror, p, Deleted);
    }
  }

  lemma RemoveExactly(s: Server, mirror: Store, fid: nat)
    requires Tracked(s, mirror) && fid in s.fids && Valid(s)
    ensures Tracked(DoRemove(s, fid).0, mirror) <==> RecordsTruly(s, Remove(fid))
  {
    hide Tracked, Tree, View, PathOf, Linked, Detach, Mark;
    NamesAreOk(s, mirror);
    var ino := s.fids[fid];
    if Removable(s.tree[ino]) {
      RemovalExactly(s, mirror, ino);
      var r := Unlink(s, s.tree[ino].parent, ino).value;
      var s' := Mark(r, PathOf(s.tree, ino), Deleted);
      MarkIgnoresFids(r, PathOf(s.tree, ino), Deleted, s.fids - {fid});
      MarkIgnoresFids(r, PathOf(s.tree, ino), Deleted, s.fids);
      FidsNeverMatter(s', s.fids - {fid}, mirror);
    }
  }

  /** Which fids there are has no part in whether the record is truthful. */
  lemma FidsNeverMatter(s: Server, fids: map<nat, nat>, mirror: Store)
    requires Valid(s) && forall f :: f in fids ==> fids[f] < |s.tree|
    ensures Tracked(s.(fids := fids), mirror) <==> Tracked(s, mirror)
  {
    var s' := s.(fids := fids);
    if Tracked(s, mirror) {
      FidsDoNotMatter(s, fids, s.msize, mirror);
    }
    if Tracked(s', mirror) {
      FidsDoNotMatter(s', s.fids, s.msize, mirror);
    }
  }

  lemma UnlinkatExactly(s: Server, mirror: Store, fid: nat, name: Name)
    requires Tracked(s, mirror) && fid in s.fids && Valid(s)
    ensures Tracked(DoUnlinkat(s, fid, name).0, mirror) <==> RecordsTruly(s, Unlinkat(fid, name))
  {
    hide Tracked, Tree, View, Detach, Mark, Find;
    NamesAreOk(s, mirror);
    var dir := s.fids[fid];
    if Find(s.tree[dir].children, name).Some? {
      ChildInTable(s.tree, dir, name);
      var target := Find(s.tree[dir].children, name).value;
      assert PathOf(s.tree, target) == PathOf(s.tree, dir) + [name];
      assert Linked(s.tree, target) == Linked(s.tree, dir);
      hide PathOf, Linked;
      if Removable(s.tree[target]) {
        RemovalExactly(s, mirror, target);
      }
    }
  }

  lemma MarkIgnoresFids(s: Server, p: Path, op: Op, fids: map<nat, nat>)
    ensures Mark(s.(fids := fids), p, op) == Mark(s, p, op).(fids := fids)
    ensures Mark(s, p, op).msize == s.msize && Mark(s, p, op).tree == s.tree
  {}

  lemma WriteExactly(s: Server, mirror: Store, fid: nat, offset: nat, data: seq<byte>)
    requires Tracked(s, mirror) && fid in s.fids && Valid(s)
    ensures Tracked(DoWrite(s, fid, offset, data).0, mirror) <==> RecordsTruly(s, Write(fid, offset, data))
  {
    hide Tracked, Tree, View, PathOf, Linked, Mark, Overwrite;
    NamesAreOk(s, mirror);
    var ino := s.fids[fid];
    var node := s.tree[ino];
    if !node.isDir {
      var bytes := Overwrite(node.data, offset, data);
      ReviseExactly(s, mirror, ino, node.(data := bytes, loaded := true, size := |bytes|));
    }
  }

  lemma SetattrExactly(s: Server, mirror: Store, fid: nat, valid: nat, mode: nat, size: nat)
    requires Tracked(s, mirror) && fid in s.fids && Valid(s)
    ensures Tracked(DoSetattr(s, fid, valid, mode, size).0, mirror)
         <==> RecordsTruly(s, Setattr(fid, valid, mode, size))
  {
    hide Tracked, Tree, View, PathOf, Linked, Mark, Resize;
    NamesAreOk(s, mirror);
    var ino := s.fids[fid];
    var node := s.tree[ino];
    var chmod := if valid % 2 == 1 then node.(perm := mode % 512) else node;
    if valid / 8 % 2 == 1 {
      ReviseExactly(s, mirror, ino, chmod.(data := Resize(node.data, size), size := size));
    } else {
      ChmodKeepsTracked(s, mirror, ino, chmod);
    }
  }

  /** What is linked under a directory that is not shows nowhere. */
  lemma AttachUnlinked(t: seq<Inode>, dir: nat, name: Name, node: Inode, q: Path)
    requires Tree(t) && dir < |t| && t[dir].isDir && Find(t[dir].children, name).None? && !Linked(t, dir)
    requires node.parent == dir && node.children == []
    ensures Tree(Attach(t, dir, name, node)) && View(Attach(t, dir, name, node), q) == View(t, q)
  {
    hide NodeOk, PathOf, Find, Distinct;
    AttachKeepsTree(t, dir, name, node);
    var t' := Attach(t, dir, name, node);
    assert forall i :: 0 <= i < |t| && Linked(t, i) ==> t'[i].children == t[i].children;
    FollowUntouched(t, t', q);
  }

  /** A name no path can spell is not truthful anywhere. */
  lemma Unspeakable(s: Server, mirror: Store, dir: nat, name: Name, node: Inode, op: Op)
    requires Valid(s) && dir < |s.tree| && s.tree[dir].isDir && Find(s.tree[dir].children, name).None?
    requires node.parent == dir && node.children == [] && !NameOk(name)
    ensures !Tracked(Create(s, dir, name, node, op), mirror)
  {
    hide Tree, Find, PathOf, Mark, View;
    var t := Create(s, dir, name, node, op).tree;
    assert t[dir].children[|t[dir].children| - 1].name == name;
  }

  lemma CreateExactly(s: Server, mirror: Store, dir: nat, name: Name, node: Inode, op: Op)
    requires Tracked(s, mirror) && dir < |s.tree| && s.tree[dir].isDir && Find(s.tree[dir].children, name).None?
    requires node.parent == dir && node.children == [] && !op.Deleted? && op.Made? == node.isDir
    ensures Valid(s) && (Tracked(Create(s, dir, name, node, op), mirror) <==> CreationIsTrue(s.tree, dir, name, op))
  {
    NamesAreOk(s, mirror);
    if !NameOk(name) {
      Unspeakable(s, mirror, dir, name, node, op);
    } else if Linked(s.tree, dir) {
      CreateKeepsTracked(s, mirror, dir, name, node, op);
    } else {
      UnlinkedCreation(s, mirror, dir, name, node, op);
    }
  }

  lemma UnlinkedCreation(s: Server, mirror: Store, dir: nat, name: Name, node: Inode, op: Op)
    requires Tracked(s, mirror) && dir < |s.tree| && s.tree[dir].isDir && Find(s.tree[dir].children, name).None?
    requires node.parent == dir && node.children == [] && NameOk(name) && !Linked(s.tree, dir)
    ensures Tracked(Create(s, dir, name, node, op), mirror) <==> Leaves(op, View(s.tree, PathOf(s.tree, dir) + [name]))
  {
    NamesAreOk(s, mirror);
    var t, p := Attach(s.tree, dir, name, node), PathOf(s.tree, dir) + [name];
    AttachedPath(s.tree, dir, name, node);
    AttachKeepsNames(s.tree, dir, name, node);
    PathOfIsOk(t, |s.tree|);
    hide Tracked, Tree, Find, View, PathOf, NamesOk, Linked, Mark, PathOk, Attach;
    forall q
      ensures View(t, q) == View(s.tree, q)
    {
      AttachUnlinked(s.tree, dir, name, node, q);
    }
    MarkedExactly(s, s.(tree := t), mirror, p, op);
  }

  lemma AttachedPath(t: seq<Inode>, dir: nat, name: Name, node: Inode)
    requires Tree(t) && dir < |t| && t[dir].isDir && Find(t[dir].children, name).None?
    requires node.parent == dir && node.children == []
    ensures var t' := Attach(t, dir, name, node); Tree(t') && PathOf(t', |t|) == PathOf(t, dir) + [name]
  {
    hide Find;
    PathOfAttach(t, dir, name, node, dir);
    var t' := Attach(t, dir, name, node);
    assert NodeOk(t', dir);
    FindLink(t'[dir].children, |t[dir].children|);
  }

  lemma CreationExactly(s: Server, mirror: Store, m: Msg)
    requires Tracked(s, mirror) && (m.Lcreate? || m.Mkdir?) && Valid(s) && m.fid in s.fids
    ensures Tracked(DoCreate(s, m).0, mirror) <==> RecordsTruly(s, m)
  {
    hide Tracked, Tree, View, PathOf, Linked, Mark, Create, Find, Attach;
    NamesAreOk(s, mirror);
    var dir := s.fids[m.fid];
    if s.tree[dir].isDir && Find(s.tree[dir].children, m.name).None? {
      if m.Mkdir? {
        CreateExactly(s, mirror, dir, m.name, Directory(dir, true), Made);
      } else {
        var node := File(dir, []).(perm := m.mode % 512);
        CreateExactly(s, mirror, dir, m.name, node, Written);
        var s' := Create(s, dir, m.name, node, Written);
        AttachedInRange(s.tree, dir, m.name, node);
        FidsNeverMatter(s', s'.fids[m.fid := |s.tree|], mirror);
      }
    }
  }

  lemma AttachedInRange(t: seq<Inode>, dir: nat, name: Name, node: Inode)
    requires dir < |t|
    ensures |Attach(t, dir, name, node)| == |t| + 1
  {}

  /** A message keeps the record truthful exactly when what it records is true. */
  lemma HandleKeepsTracked(s: Server, mirror: Store, m: Msg)
    requires Tracked(s, mirror)
    ensures Valid(s) && (Tracked(Handle(s, m).0, mirror) <==> RecordsTruly(s, m))
  {
    NamesAreOk(s, mirror);
    if Mutates(m) && m.fid in s.fids {
      hide Tracked, RecordsTruly, Linked, Inspect, WalkFrom, NodeOk, DoCreate, DoWrite, DoSetattr, DoRemove, DoUnlinkat;
      match m
      case Lcreate(_, _, _) => CreationExactly(s, mirror, m);
      case Mkdir(_, _) => CreationExactly(s, mirror, m);
      case Write(fid, offset, data) => WriteExactly(s, mirror, fid, offset, data);
      case Setattr(fid, valid, mode, size) => SetattrExactly(s, mirror, fid, valid, mode, size);
      case Remove(fid) => RemoveExactly(s, mirror, fid);
      case Unlinkat(fid, name) => UnlinkatExactly(s, mirror, fid, name);
    } else {
      assert RecordsTruly(s, m);
      hide Tracked, RecordsTruly, Linked, Inspect, WalkFrom, NodeOk, DoCreate, DoWrite, DoSetattr, DoRemove, DoUnlinkat;
      OnlyTheSessionMoves(s, m);
      FidsDoNotMatter(s, Handle(s, m).0.fids, Handle(s, m).0.msize, mirror);
    }
  }

  predicate Mutates(m: Msg) { m.Lcreate? || m.Mkdir? || m.Write? || m.Setattr? || m.Remove? || m.Unlinkat? }

  lemma OnlyTheSessionMoves(s: Server, m: Msg)
    requires Valid(s) && (Mutates(m) ==> m.fid !in s.fids)
    ensures var s' := Handle(s, m).0; s' == s.(fids := s'.fids, msize := s'.msize)
  {
    hide NodeOk, Inspect, WalkFrom;
  }

  // ── From one drain to the next ────────────────────────────────────────────

  function After(s: Server, ms: seq<Msg>): (s': Server)
    requires Valid(s)
    ensures Valid(s')
    decreases |ms|
  {
    if ms == [] then s else After(Handle(s, ms[0]).0, ms[1..])
  }

  predicate AllTrue(s: Server, ms: seq<Msg>)
    requires Valid(s)
    decreases |ms|
  {
    ms == [] || (RecordsTruly(s, ms[0]) && AllTrue(Handle(s, ms[0]).0, ms[1..]))
  }

  lemma {:induction false} RunKeepsTracked(s: Server, mirror: Store, ms: seq<Msg>)
    requires Tracked(s, mirror) && AllTrue(s, ms)
    ensures Tracked(After(s, ms), mirror)
    decreases |ms|
  {
    hide Tracked, Handle, RecordsTruly;
    if ms == [] {
    } else {
      NamesAreOk(s, mirror);
      HandleKeepsTracked(s, mirror, ms[0]);
      RunKeepsTracked(Handle(s, ms[0]).0, mirror, ms[1..]);
    }
  }

  /** A guest that changes things only through fids whose inode is still linked, creates names that a
      path can spell, and resizes only files and the root. */
  predicate Polite(s: Server, m: Msg)
    requires Valid(s)
  {
    && (Mutates(m) && m.fid in s.fids ==> Linked(s.tree, s.fids[m.fid]))
    && (m.Lcreate? || m.Mkdir? ==> NameOk(m.name))
    && (m.Setattr? && m.valid / 8 % 2 == 1 && m.fid in s.fids ==> s.fids[m.fid] == 0 || !s.tree[s.fids[m.fid]].isDir)
  }

  lemma {:induction false} LinkedWriteIsTrue(t: seq<Inode>, ino: nat)
    requires Tree(t) && ino < |t| && Linked(t, ino)
    ensures WriteIsTrue(t, ino) <==> ino == 0 || !t[ino].isDir
  {
    FollowPathOf(t, ino);
    RootView(t);
    if ino != 0 {
      assert NodeOk(t, ino) && PathOf(t, ino) != [];
    }
  }

  /** What such a guest does is always recorded truly. */
  lemma PoliteRecordsTruly(s: Server, m: Msg)
    requires Valid(s) && Polite(s, m)
    ensures RecordsTruly(s, m)
  {
    hide Tree, View, PathOf, WriteIsTrue, Linked, Find;
    if (m.Write? || m.Setattr?) && m.fid in s.fids {
      LinkedWriteIsTrue(s.tree, s.fids[m.fid]);
    }
  }

  /** Nothing recorded and nothing different: the state right after a drain. */
  ghost predicate InStep(s: Server, mirror: Store) {
    Valid(s) && NamesOk(s.tree) && StoreOk(mirror) && s.lazy && s.changes == map[] && Matches(s.tree, mirror)
  }

  /** Start in step, let the guest do anything that is recorded truly, drain, replay in any order: the mirror and the
      tree are in step again exactly when no path changed its kind meanwhile. */
  lemma WriteBackRoundTrip(s: Server, mirror: Store, ms: seq<Msg>, keys: seq<seq<byte>>)
    requires InStep(s, mirror) && AllTrue(s, ms) && Covers(keys, After(s, ms).changes)
    ensures var s' := After(s, ms);
      InStep(s'.(changes := map[]), Replay(mirror, Drain(s', keys))) <==> !KindChanged(s'.tree, mirror)
  {
    hide View, Handle, AllTrue, After, Drain, Replay, KindChanged, NamesOk, Tree, StoreOk;
    assert Tracked(s, mirror) by {
      forall p
        ensures TrackedAt(s, mirror, p)
      {
        assert View(s.tree, p) == Stored(mirror, p);
      }
    }
    RunKeepsTracked(s, mirror, ms);
    ReplayRestores(After(s, ms), mirror, keys);
  }

  // ── What a false record does to the mirror ────────────────────────────────

  lemma {:induction false} NothingToDrop(links: seq<Link>, target: nat)
    requires forall k :: 0 <= k < |links| ==> links[k].ino != target
    ensures Without(links, target) == links
  {
    if links == [] {
    } else {
      NothingToDrop(links[..|links| - 1], target);
      assert links == links[..|links| - 1] + [links[|links| - 1]];
    }
  }

  lemma NotAbove(p: Path, q: Path)
    requires p != [] && !(q <= p)
    ensures !(q <= p[..|p| - 1])
  {
    assert p[..|p| - 1] <= p;
  }

  lemma {:induction false} MakeDirsIsLocal(m: Store, p: Path, q: Path)
    requires !(q <= p)
    ensures Stored(MakeDirs(m, p).0, q) == Stored(m, q)
    decreases |p|
  {
    if p == [] {
    } else {
      NotAbove(p, q);
      MakeDirsIsLocal(m, p[..|p| - 1], q);
    }
  }

  /** A change creates only what its path passes through, and removes only what is below it. */
  lemma ApplyIsLocal(m: Store, c: Change, q: Path)
    requires !(q <= Split(c.path))
    ensures Stored(Apply(m, c), q)
         == if Split(c.path) != [] && c.op.Deleted? && Split(c.path) <= q then None else Stored(m, q)
  {
    hide Split, MakeDirs;
    var p := Split(c.path);
    MakeDirsIsLocal(m, p, q);
    if p != [] {
      NotAbove(p, q);
      MakeDirsIsLocal(m, p[..|p| - 1], q);
    }
  }

  /** No recorded path but `except` is at or below `q`. */
  predicate QuietBelow(changes: map<seq<byte>, Op>, except: seq<byte>, q: Path) {
    forall key :: key in changes && key != except ==> !(q <= Split(key))
  }

  /** The change drained for a key is at that key. */
  lemma DrainedAtKey(s: Server, key: seq<byte>)
    requires Valid(s) && key in s.changes
    ensures var cs := DrainOne(s, key); cs == [] || (|cs| == 1 && cs[0].path == key && cs[0].op == s.changes[key])
  {}

  lemma {:induction false} ReplayInParts(m: Store, a: seq<Change>, b: seq<Change>)
    ensures Replay(m, a + b) == Replay(Replay(m, a), b)
    decreases |a|
  {
    hide Apply;
    if a == [] {
      assert a + b == b;
    } else {
      assert (a + b)[0] == a[0] && (a + b)[1..] == a[1..] + b;
      ReplayInParts(Apply(m, a[0]), a[1..], b);
    }
  }

  /** A path stays away once it is, if nothing recorded passes through it; and the replayed deletion of
      something above it takes it away. */
  lemma {:induction false} DeletionStays(s: Server, m: Store, keys: seq<seq<byte>>, p: Path, q: Path)
    requires Valid(s) && forall k :: 0 <= k < |keys| ==> keys[k] in s.changes
    requires p != [] && PathOk(p) && p <= q && Join(p) in s.changes && s.changes[Join(p)].Deleted?
    requires QuietBelow(s.changes, Join(p), q)
    ensures Stored(m, q).None? || Join(p) in keys ==> Stored(Replay(m, Drain(s, keys)), q).None?
    decreases |keys|
  {
    hide View, DrainOne, Apply, Join, Split, Valid, PathOk, Stored;
    if keys == [] {
    } else {
      var key, rest := keys[0], keys[1..];
      var cs := DrainOne(s, key);
      ReplayInParts(m, cs, Drain(s, rest));
      var m1 := Replay(m, cs);
      OneKeyReplayed(s, m, key, p, q);
      DeletionStays(s, m1, rest, p, q);
    }
  }

  lemma OneKeyReplayed(s: Server, m: Store, key: seq<byte>, p: Path, q: Path)
    requires Valid(s) && key in s.changes
    requires p != [] && PathOk(p) && p <= q && Join(p) in s.changes && s.changes[Join(p)].Deleted?
    requires QuietBelow(s.changes, Join(p), q)
    ensures Stored(m, q).None? || key == Join(p) ==> Stored(Replay(m, DrainOne(s, key)), q).None?
  {
    DrainedAtKey(s, key);
    SplitJoin(p);
    var cs := DrainOne(s, key);
    if key == Join(p) {
      assert cs == [Change(Deleted, key, [])] && cs[1..] == [];
      assert Replay(m, cs) == RemoveAt(m, p);
    } else if cs != [] {
      hide Apply, Split, Join, Valid, DrainOne;
      assert cs[1..] == [] && Replay(m, cs) == Apply(m, cs[0]);
      ApplyIsLocal(m, cs[0], q);
    }
  }

  /** Replaying a deletion that is not true, in whatever order, loses the path and everything below it
      that no other record brings back. */
  lemma FalseDeletionLoses(s: Server, mirror: Store, keys: seq<seq<byte>>, p: Path, q: Path)
    requires Valid(s) && Covers(keys, s.changes)
    requires p != [] && PathOk(p) && p <= q && Join(p) in s.changes && s.changes[Join(p)].Deleted?
    requires View(s.tree, q).Some? && QuietBelow(s.changes, Join(p), q)
    ensures Stored(Replay(mirror, Drain(s, keys)), q).None? && !Matches(s.tree, Replay(mirror, Drain(s, keys)))
  {
    hide View, Drain, Replay, Join, Split, PathOk;
    DeletionStays(s, mirror, keys, p, q);
    var m' := Replay(mirror, Drain(s, keys));
    assert View(s.tree, q) != Stored(m', q);
  }

  /** A fid that outlived its file's link: removing it records the deletion of the directory the file
      was in, although that directory is still there, and the replay deletes the directory and all in it
      that no other record brings back. */
  lemma UnlinkedFidDeletesTheParent(s: Server, mirror: Store, fid: nat)
    requires Tracked(s, mirror) && fid in s.fids && s.fids[fid] < |s.tree| && s.tree[s.fids[fid]].children == []
    requires var dir := s.tree[s.fids[fid]].parent;
      0 < dir < |s.tree| && s.fids[fid] != 0 && Linked(s.tree, dir) && NameOf(s.tree[dir].children, s.fids[fid]).None?
    ensures var (s', gone) := (DoRemove(s, fid).0, PathOf(s.tree, s.tree[s.fids[fid]].parent));
      && Join(gone) in s'.changes && s'.changes[Join(gone)].Deleted?
      && s'.tree == s.tree && View(s.tree, gone) == Some(DirEntry) && !Tracked(s', mirror)
      && forall keys, q ::
           Covers(keys, s'.changes) && gone <= q && View(s.tree, q).Some? && QuietBelow(s'.changes, Join(gone), q) ==>
             Stored(Replay(mirror, Drain(s', keys)), q).None?
  {
    hide Linked, PathOf, Follow, NodeOk, Tracked, NamesOk, PathOk, Join, Without, Drain, Replay, QuietBelow;
    hide RecordsTruly;
    NamesAreOk(s, mirror);
    var ino := s.fids[fid];
    var dir := s.tree[ino].parent;
    UnlinkedHere(s.tree, ino);
    LinkedPath(s.tree, dir);
    FollowPathOf(s.tree, dir);
    var p := PathOf(s.tree, dir);
    MarkRecords(s.(fids := s.fids - {fid}), p, Deleted);
    hide Mark;
    var s' := DoRemove(s, fid).0;
    assert s' == s.(fids := s.fids - {fid}, changes := s.changes[Join(p) := Deleted]);
    NotLeft(s', mirror, p, Deleted);
    forall keys, q | Covers(keys, s'.changes) && p <= q && View(s.tree, q).Some? && QuietBelow(s'.changes, Join(p), q)
      ensures Stored(Replay(mirror, Drain(s', keys)), q).None?
    {
      FalseDeletionLoses(s', mirror, keys, p, q);
    }
  }

  lemma UnlinkedHere(t: seq<Inode>, i: nat)
    requires Tree(t) && 0 < i < |t| && t[i].parent < |t| && NameOf(t[t[i].parent].children, i).None?
    ensures Detach(t, t[i].parent, i) == t && PathOf(t, i) == PathOf(t, t[i].parent)
    ensures t[t[i].parent].isDir
  {
    assert NodeOk(t, i);
    NothingToDrop(t[t[i].parent].children, i);
    assert t[t[i].parent].(children := t[t[i].parent].children) == t[t[i].parent];
  }

  /** No recorded path but `except` is at, above or below `q`. */
  predicate QuietAround(changes: map<seq<byte>, Op>, except: seq<byte>, q: Path) {
    forall key :: key in changes && key != except ==> !(q <= Split(key)) && !(Split(key) <= q)
  }

  /** A record that drains to nothing leaves the mirror as it was there. */
  lemma {:induction false} ForgottenStays(s: Server, m: Store, keys: seq<seq<byte>>, p: Path)
    requires Valid(s) && forall k :: 0 <= k < |keys| ==> keys[k] in s.changes
    requires Join(p) in s.changes && DrainOne(s, Join(p)) == [] && QuietAround(s.changes, Join(p), p)
    ensures Stored(Replay(m, Drain(s, keys)), p) == Stored(m, p)
    decreases |keys|
  {
    hide View, DrainOne, Apply, Join, Split, Valid, Stored;
    if keys == [] {
    } else {
      var cs, rest := DrainOne(s, keys[0]), keys[1..];
      ReplayInParts(m, cs, Drain(s, rest));
      DrainedAtKey(s, keys[0]);
      if cs != [] {
        assert cs[1..] == [] && Replay(m, cs) == Apply(m, cs[0]);
        ApplyIsLocal(m, cs[0], p);
      }
      ForgottenStays(s, Replay(m, cs), rest, p);
    }
  }

  /** Changing the size of a linked inode, among whatever else, keeps the record truthful exactly for
      files and the root. */
  lemma ResizeKeepsTracked(s: Server, mirror: Store, fid: nat, valid: nat, mode: nat, size: nat)
    requires Tracked(s, mirror) && fid in s.fids && s.fids[fid] < |s.tree| && Linked(s.tree, s.fids[fid])
    requires valid / 8 % 2 == 1
    ensures Tracked(DoSetattr(s, fid, valid, mode, size).0, mirror) <==> s.fids[fid] == 0 || !s.tree[s.fids[fid]].isDir
  {
    hide Tracked, Tree, View, PathOf, Linked, Mark, Resize, WriteIsTrue, DoSetattr;
    NamesAreOk(s, mirror);
    SetattrExactly(s, mirror, fid, valid, mode, size);
    LinkedWriteIsTrue(s.tree, s.fids[fid]);
  }

  /** Resizing any other directory replaces its record by one that drains to nothing, so that the replay
      leaves the mirror there as it was: a directory made since the last drain is missing. */
  lemma ResizedDirectoryIsForgotten(s: Server, mirror: Store, fid: nat, valid: nat, mode: nat, size: nat)
    requires Tracked(s, mirror) && fid in s.fids && 0 < s.fids[fid] < |s.tree| && valid / 8 % 2 == 1
    requires Linked(s.tree, s.fids[fid]) && s.tree[s.fids[fid]].isDir
    ensures var (s', p) := (DoSetattr(s, fid, valid, mode, size).0, PathOf(s.tree, s.fids[fid]));
      && Join(p) in s'.changes && DrainOne(s', Join(p)) == [] && View(s'.tree, p) == Some(DirEntry)
      && !Tracked(s', mirror)
      && forall keys :: Covers(keys, s'.changes) && QuietAround(s'.changes, Join(p), p)
           ==> Stored(Replay(mirror, Drain(s', keys)), p) == Stored(mirror, p)
  {
    hide NodeOk, Resize, Linked, Join, Split, PathOf, Follow, Tracked, NamesOk, PathOk, Drain, Replay, QuietAround;
    NamesAreOk(s, mirror);
    var ino := s.fids[fid];
    var p, node := PathOf(s.tree, ino), s.tree[ino];
    LinkedPath(s.tree, ino);
    FollowPathOf(s.tree, ino);
    SplitJoin(p);
    var chmod := if valid % 2 == 1 then node.(perm := mode % 512) else node;
    var r := Revise(s, ino, chmod.(data := Resize(node.data, size), size := size));
    PathOfSameShape(s.tree, r.tree, ino);
    FollowSameShape(s.tree, r.tree, p);
    MarkRecords(r, p, Written);
    hide Mark;
    var s' := DoSetattr(s, fid, valid, mode, size).0;
    assert s' == r.(changes := r.changes[Join(p) := Written]);
    NotARecord(s', mirror, p);
    forall keys | Covers(keys, s'.changes) && QuietAround(s'.changes, Join(p), p)
      ensures Stored(Replay(mirror, Drain(s', keys)), p) == Stored(mirror, p)
    {
      ForgottenStays(s', mirror, keys, p);
    }
  }

  /** A directory whose record says it was written is not tracked, and drains to nothing. */
  lemma NotARecord(s: Server, mirror: Store, p: Path)
    requires Valid(s) && p != [] && PathOk(p) && View(s.tree, p) == Some(DirEntry)
    requires Join(p) in s.changes && s.changes[Join(p)].Written?
    ensures DrainOne(s, Join(p)) == [] && !Tracked(s, mirror)
  {
    hide View, Join, NamesOk;
    SplitJoin(p);
    NotLeft(s, mirror, p, Written);
  }
}
