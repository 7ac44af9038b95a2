/**
 * What the messages that change the shared folder do to it, told from paths and contents alone: each is
 * refused, or changes what is at one path; and what becomes of a file whose contents the host has not
 * delivered yet.
 */
module NinepEffects {
  import opened Bytes
  import opened NinepTree
  import opened NinepServer
  import opened NinepWriteback

  // ── Contents ──────────────────────────────────────────────────────────────

  /** A file after `bytes` were put at `offset`, with zeros in a gap. */
  function Patched(data: seq<byte>, offset: nat, bytes: seq<byte>): (r: seq<byte>)
    ensures |r| == if |data| < offset + |bytes| then offset + |bytes| else |data|
  {
    var n := if |data| < offset + |bytes| then offset + |bytes| else |data|;
    seq(n, k requires 0 <= k < n =>
      if offset <= k < offset + |bytes| then bytes[k - offset] else if k < |data| then data[k] else 0)
  }

  /** A file cut or filled up with zeros to `n` bytes. */
  function CutTo(data: seq<byte>, n: nat): (r: seq<byte>)
    ensures |r| == n
  {
    seq(n, k requires 0 <= k < n => if k < |data| then data[k] else 0)
  }

  lemma OverwriteIsPatched(data: seq<byte>, offset: nat, bytes: seq<byte>)
    ensures Overwrite(data, offset, bytes) == Patched(data, offset, bytes)
  {}

  lemma ResizeIsCutTo(data: seq<byte>, n: nat)
    ensures Resize(data, n) == CutTo(data, n)
  {}

  // ── Verdicts ──────────────────────────────────────────────────────────────

  /** A message is refused with a Linux error number, or leaves `entry` at `path`. */
  datatype Verdict = Refused(errno: nat) | Puts(path: Path, entry: Option<Entry>)

  ghost predicate HasEntries(t: seq<Inode>, p: Path)
    requires Tree(t)
  {
    exists name :: View(t, p + [name]).Some?
  }

  /** A new entry needs a directory that has no such name. */
  ghost function Creation(t: seq<Inode>, at: Path, name: Name, entry: Entry): Verdict
    requires Tree(t) && View(t, at).Some?
  {
    if !View(t, at).value.DirEntry? then Refused(20)
    else if View(t, at + [name]).Some? then Refused(17)
    else Puts(at + [name], Some(entry))
  }

  ghost function Writing(t: seq<Inode>, at: Path, offset: nat, bytes: seq<byte>): Verdict
    requires Tree(t) && View(t, at).Some?
  {
    match View(t, at).value
    case DirEntry => Refused(21)
    case FileEntry(data) => Puts(at, Some(FileEntry(Patched(data, offset, bytes))))
  }

  /** Bit 3 of `valid` asks for a size. */
  ghost function Resizing(t: seq<Inode>, at: Path, valid: nat, size: nat): Verdict
    requires Tree(t) && View(t, at).Some?
  {
    match View(t, at).value
    case DirEntry => Puts(at, Some(DirEntry))
    case FileEntry(data) => Puts(at, Some(FileEntry(if valid / 8 % 2 == 1 then CutTo(data, size) else data)))
  }

  /** What has entries stays, and so does the root. */
  ghost function Removal(t: seq<Inode>, p: Path): Verdict
    requires Tree(t)
  {
    if View(t, p).None? then Refused(2)
    else if HasEntries(t, p) then Refused(39)
    else Puts(p, if p == [] then Some(DirEntry) else None)
  }

  /** What a message through a fid at path `at` comes to. */
  ghost function Decide(t: seq<Inode>, at: Path, m: Msg): Verdict
    requires Tree(t) && Mutates(m) && View(t, at).Some?
  {
    match m
    case Lcreate(_, name, _) => Creation(t, at, name, FileEntry([]))
    case Mkdir(_, name) => Creation(t, at, name, DirEntry)
    case Write(_, offset, bytes) => Writing(t, at, offset, bytes)
    case Setattr(_, valid, _, size) => Resizing(t, at, valid, size)
    case Remove(_) => Removal(t, at)
    case Unlinkat(_, name) => Removal(t, at + [name])
  }

  /** `t'` has `entry` at `path`, and what `t` has everywhere else. */
  ghost predicate Becomes(t: seq<Inode>, t': seq<Inode>, path: Path, entry: Option<Entry>)
    requires Tree(t) && Tree(t')
  {
    forall q :: View(t', q) == if q == path then entry else View(t, q)
  }

  lemma ViewOfLinked(t: seq<Inode>, i: nat)
    requires Tree(t) && i < |t| && Linked(t, i)
    ensures View(t, PathOf(t, i)) == Some(if t[i].isDir then DirEntry else FileEntry(t[i].data))
  {
    FollowPathOf(t, i);
  }

  lemma ViewOfChild(t: seq<Inode>, i: nat, name: Name)
    requires Tree(t) && i < |t| && Linked(t, i)
    ensures View(t, PathOf(t, i) + [name]).Some? <==> Find(t[i].children, name).Some?
    ensures Find(t[i].children, name).Some? ==>
      var j := Find(t[i].children, name).value;
      j < |t| && Linked(t, j) && PathOf(t, j) == PathOf(t, i) + [name]
  {
    FollowPathOf(t, i);
    var p := PathOf(t, i) + [name];
    assert p[..|p| - 1] == PathOf(t, i);
    if Find(t[i].children, name).Some? {
      var k :| 0 <= k < |t[i].children| && t[i].children[k] == Link(name, Find(t[i].children, name).value);
      ChildIsLinked(t, i, k);
    }
  }

  lemma EntriesAreChildren(t: seq<Inode>, i: nat)
    requires Tree(t) && i < |t| && Linked(t, i)
    ensures HasEntries(t, PathOf(t, i)) <==> t[i].children != []
    ensures t[i].children != [] ==> t[i].isDir
  {
    hide View, PathOf, Linked;
    var p := PathOf(t, i);
    assert NodeOk(t, i);
    if t[i].children != [] {
      var name := t[i].children[0].name;
      ViewOfChild(t, i, name);
      assert View(t, p + [name]).Some?;
    }
    if HasEntries(t, p) {
      var name :| View(t, p + [name]).Some?;
      ViewOfChild(t, i, name);
    }
  }

  // ── Every change ──────────────────────────────────────────────────────────

  lemma CreationPuts(s: Server, m: Msg)
    requires Valid(s) && (m.Lcreate? || m.Mkdir?) && m.fid in s.fids && Linked(s.tree, s.fids[m.fid])
    requires s.tree[s.fids[m.fid]].isDir && Find(s.tree[s.fids[m.fid]].children, m.name).None?
    ensures var (s', _) := DoCreate(s, m);
      var p := PathOf(s.tree, s.fids[m.fid]) + [m.name];
      && Becomes(s.tree, s'.tree, p, Some(if m.Mkdir? then DirEntry else FileEntry([])))
      && Follow(s'.tree, 0, p) == Some(|s.tree|)
  {
    hide Tree, PathOf, Linked, View, Find;
    var dir := s.fids[m.fid];
    var node := if m.Mkdir? then Directory(dir, true) else File(dir, []).(perm := m.mode % 512);
    var t' := Attach(s.tree, dir, m.name, node);
    FollowAttach(s.tree, dir, m.name, node, PathOf(s.tree, dir) + [m.name]);
    forall q
      ensures View(t', q)
           == if q == PathOf(s.tree, dir) + [m.name] then Some(if m.Mkdir? then DirEntry else FileEntry([]))
              else View(s.tree, q)
    {
      ViewAttach(s.tree, dir, m.name, node, q);
    }
  }

  /** Replacing the contents of a linked inode shows at its path and nowhere else. */
  lemma RevisionPuts(s: Server, ino: nat, node: Inode)
    requires Valid(s) && ino < |s.tree| && Linked(s.tree, ino) && node.children == s.tree[ino].children
    requires node.parent == s.tree[ino].parent && node.isDir == s.tree[ino].isDir
    ensures Becomes(s.tree, Revise(s, ino, node).tree, PathOf(s.tree, ino),
                    Some(if node.isDir then DirEntry else FileEntry(node.data)))
  {
    hide Tree, View;
    var t' := Revise(s, ino, node).tree;
    PathOfSameShape(s.tree, t', ino);
    ViewOfLinked(t', ino);
    forall q
      ensures q != PathOf(s.tree, ino) ==> View(t', q) == View(s.tree, q)
    {
      ReviseShows(s.tree, ino, node, q);
    }
  }

  lemma {:induction false} DetachPuts(t: seq<Inode>, target: nat)
    requires Tree(t) && target < |t| && Linked(t, target) && t[target].children == []
    ensures t[target].parent < |t| && Tree(Detach(t, t[target].parent, target))
    ensures Becomes(t, Detach(t, t[target].parent, target), PathOf(t, target),
                    if target == 0 then Some(DirEntry) else None)
  {
    assert NodeOk(t, target);
    DetachKeepsTree(t, t[target].parent, target);
    if target == 0 {
      NothingToDrop(t[0].children, 0);
      assert Detach(t, 0, 0) == t;
      RootView(t);
    } else {
      hide Tree, View, PathOf;
      forall q
        ensures View(Detach(t, t[target].parent, target), q) == if q == PathOf(t, target) then None else View(t, q)
      {
        ViewDetach(t, target, q);
      }
    }
  }

  /** Only the root has the empty path. */
  lemma RootPath(t: seq<Inode>, i: nat)
    requires Tree(t) && i < |t| && Linked(t, i)
    ensures PathOf(t, i) == [] <==> i == 0
  {
    FollowPathOf(t, i);
  }

  /** What each message answers when it is not refused. */
  function Accepts(s: Server, m: Msg): Reply<nat>
    requires Mutates(m)
  {
    match m
    case Lcreate(_, _, _) => RLcreate(Qid(false, |s.tree|))
    case Mkdir(_, _) => RMkdir(Qid(true, |s.tree|))
    case Write(_, _, bytes) => RWrite(|bytes|)
    case _ => RDone
  }

  /** Where the fids are afterwards: a created file takes over the fid of its directory, a removed one gives
      its fid up. */
  function FidsAfter(s: Server, m: Msg): map<nat, nat>
    requires Mutates(m)
  {
    if m.Lcreate? then s.fids[m.fid := |s.tree|] else if m.Remove? then s.fids - {m.fid} else s.fids
  }

  /** A verdict carried out: refused and nothing moved, or exactly one path has something else. */
  ghost predicate Obeys(s: Server, m: Msg, v: Verdict, s': Server, r: Outcome)
    requires Tree(s.tree) && Tree(s'.tree) && Mutates(m)
  {
    match v
    case Refused(errno) => s' == s && r == Answer(RError(errno))
    case Puts(path, entry) =>
      && Becomes(s.tree, s'.tree, path, entry) && r == Answer(Accepts(s, m)) && s'.fids == FidsAfter(s, m)
      && (m.Lcreate? || m.Mkdir? ==> Follow(s'.tree, 0, path) == Some(|s.tree|))
  }

  lemma CreateDoes(s: Server, m: Msg)
    requires Valid(s) && (m.Lcreate? || m.Mkdir?) && m.fid in s.fids && Linked(s.tree, s.fids[m.fid])
    ensures var (ino, (s', r)) := (s.fids[m.fid], DoCreate(s, m));
      var p := PathOf(s.tree, ino) + [m.name];
      if !s.tree[ino].isDir then s' == s && r == Answer(RError(20))
      else if View(s.tree, p).Some? then s' == s && r == Answer(RError(17))
      else
        && Becomes(s.tree, s'.tree, p, Some(if m.Mkdir? then DirEntry else FileEntry([])))
        && r == Answer(Accepts(s, m)) && s'.fids == FidsAfter(s, m) && Follow(s'.tree, 0, p) == Some(|s.tree|)
  {
    hide Tree, View, PathOf, Linked, Becomes, Follow, Find;
    var (t, i) := (s.tree, s.fids[m.fid]);
    ViewOfChild(t, i, m.name);
    if t[i].isDir && Find(t[i].children, m.name).None? {
      CreationPuts(s, m);
    }
  }

  lemma WriteDoes(s: Server, m: Msg)
    requires Valid(s) && m.Write? && m.fid in s.fids && Linked(s.tree, s.fids[m.fid])
    ensures var (ino, (s', r)) := (s.fids[m.fid], DoWrite(s, m.fid, m.offset, m.data));
      if s.tree[ino].isDir then s' == s && r == Answer(RError(21))
      else
        && Becomes(s.tree, s'.tree, PathOf(s.tree, ino), Some(FileEntry(Patched(s.tree[ino].data, m.offset, m.data))))
        && r == Answer(RWrite(|m.data|)) && s'.fids == s.fids
  {
    hide Tree, View, PathOf, Linked, Becomes, Overwrite, Patched;
    var ino := s.fids[m.fid];
    var node := s.tree[ino];
    if !node.isDir {
      OverwriteIsPatched(node.data, m.offset, m.data);
      var bytes := Overwrite(node.data, m.offset, m.data);
      RevisionPuts(s, ino, node.(data := bytes, loaded := true, size := |bytes|));
    }
  }

  lemma SetattrDoes(s: Server, m: Msg)
    requires Valid(s) && m.Setattr? && m.fid in s.fids && Linked(s.tree, s.fids[m.fid])
    ensures var (ino, (s', r)) := (s.fids[m.fid], DoSetattr(s, m.fid, m.valid, m.mode, m.size));
      && Becomes(s.tree, s'.tree, PathOf(s.tree, ino),
                 Some(if s.tree[ino].isDir then DirEntry
                      else if m.valid / 8 % 2 == 1 then FileEntry(CutTo(s.tree[ino].data, m.size))
                      else FileEntry(s.tree[ino].data)))
      && r == Answer(RDone) && s'.fids == s.fids
  {
    hide Tree, View, PathOf, Linked, Becomes, Resize, CutTo;
    var ino := s.fids[m.fid];
    var node := s.tree[ino];
    var chmod := if m.valid % 2 == 1 then node.(perm := m.mode % 512) else node;
    ResizeIsCutTo(node.data, m.size);
    if m.valid / 8 % 2 == 1 {
      RevisionPuts(s, ino, chmod.(data := Resize(node.data, m.size), size := m.size));
    } else {
      RevisionPuts(s, ino, chmod);
    }
  }

  lemma RemoveDoes(s: Server, m: Msg)
    requires Valid(s) && m.Remove? && m.fid in s.fids && Linked(s.tree, s.fids[m.fid])
    ensures var (p, (s', r)) := (PathOf(s.tree, s.fids[m.fid]), DoRemove(s, m.fid));
      if HasEntries(s.tree, p) then s' == s && r == Answer(RError(39))
      else
        && Becomes(s.tree, s'.tree, p, if p == [] then Some(DirEntry) else None)
        && r == Answer(RDone) && s'.fids == FidsAfter(s, m)
  {
    hide Tree, View, PathOf, Becomes, HasEntries, Linked;
    var ino := s.fids[m.fid];
    EntriesAreChildren(s.tree, ino);
    RootPath(s.tree, ino);
    if s.tree[ino].children == [] {
      DetachPuts(s.tree, ino);
    }
  }

  lemma UnlinkatDoes(s: Server, m: Msg)
    requires Valid(s) && m.Unlinkat? && m.fid in s.fids && Linked(s.tree, s.fids[m.fid])
    ensures var (p, (s', r)) := (PathOf(s.tree, s.fids[m.fid]) + [m.name], DoUnlinkat(s, m.fid, m.name));
      if View(s.tree, p).None? then s' == s && r == Answer(RError(2))
      else if HasEntries(s.tree, p) then s' == s && r == Answer(RError(39))
      else Becomes(s.tree, s'.tree, p, None) && r == Answer(RDone) && s'.fids == s.fids
  {
    hide Tree, PathOf, Becomes, HasEntries, Linked, View, Find;
    var (t, dir) := (s.tree, s.fids[m.fid]);
    ViewOfChild(t, dir, m.name);
    if Find(t[dir].children, m.name).Some? {
      var target := Find(t[dir].children, m.name).value;
      ChildInTable(t, dir, m.name);
      EntriesAreChildren(t, target);
      if t[target].children == [] {
        DetachPuts(t, target);
      }
    }
  }

  lemma CreateObeys(s: Server, m: Msg)
    requires Valid(s) && (m.Lcreate? || m.Mkdir?) && m.fid in s.fids && Linked(s.tree, s.fids[m.fid])
    ensures View(s.tree, PathOf(s.tree, s.fids[m.fid])).Some?
    ensures var (s', r) := DoCreate(s, m);
      var e := if m.Mkdir? then DirEntry else FileEntry([]);
      Obeys(s, m, Creation(s.tree, PathOf(s.tree, s.fids[m.fid]), m.name, e), s', r)
  {
    hide Tree, View, PathOf, Linked, Becomes, HasEntries, Follow, Patched, CutTo, DoCreate;
    ViewOfLinked(s.tree, s.fids[m.fid]);
    CreateDoes(s, m);
  }

  lemma WriteObeys(s: Server, m: Msg)
    requires Valid(s) && m.Write? && m.fid in s.fids && Linked(s.tree, s.fids[m.fid])
    ensures View(s.tree, PathOf(s.tree, s.fids[m.fid])).Some?
    ensures var (s', r) := DoWrite(s, m.fid, m.offset, m.data);
      Obeys(s, m, Writing(s.tree, PathOf(s.tree, s.fids[m.fid]), m.offset, m.data), s', r)
  {
    hide Tree, View, PathOf, Linked, Becomes, HasEntries, Follow, Patched, CutTo, DoWrite;
    ViewOfLinked(s.tree, s.fids[m.fid]);
    WriteDoes(s, m);
  }

  lemma SetattrObeys(s: Server, m: Msg)
    requires Valid(s) && m.Setattr? && m.fid in s.fids && Linked(s.tree, s.fids[m.fid])
    ensures View(s.tree, PathOf(s.tree, s.fids[m.fid])).Some?
    ensures var (s', r) := DoSetattr(s, m.fid, m.valid, m.mode, m.size);
      Obeys(s, m, Resizing(s.tree, PathOf(s.tree, s.fids[m.fid]), m.valid, m.size), s', r)
  {
    hide Tree, View, PathOf, Linked, Becomes, HasEntries, Follow, Patched, CutTo, DoSetattr;
    ViewOfLinked(s.tree, s.fids[m.fid]);
    SetattrDoes(s, m);
  }

  lemma RemoveObeys(s: Server, m: Msg)
    requires Valid(s) && m.Remove? && m.fid in s.fids && Linked(s.tree, s.fids[m.fid])
    ensures View(s.tree, PathOf(s.tree, s.fids[m.fid])).Some?
    ensures var (s', r) := DoRemove(s, m.fid);
      Obeys(s, m, Removal(s.tree, PathOf(s.tree, s.fids[m.fid])), s', r)
  {
    hide Tree, View, PathOf, Linked, Becomes, HasEntries, Follow, Patched, CutTo, DoRemove;
    ViewOfLinked(s.tree, s.fids[m.fid]);
    RemoveDoes(s, m);
  }

  lemma UnlinkatObeys(s: Server, m: Msg)
    requires Valid(s) && m.Unlinkat? && m.fid in s.fids && Linked(s.tree, s.fids[m.fid])
    ensures View(s.tree, PathOf(s.tree, s.fids[m.fid])).Some?
    ensures var (s', r) := DoUnlinkat(s, m.fid, m.name);
      Obeys(s, m, Removal(s.tree, PathOf(s.tree, s.fids[m.fid]) + [m.name]), s', r)
  {
    hide Tree, View, PathOf, Linked, Becomes, HasEntries, Follow, Patched, CutTo, DoUnlinkat;
    ViewOfLinked(s.tree, s.fids[m.fid]);
    UnlinkatDoes(s, m);
  }

  /** What a message's function does, whichever it is. */
  function Do(s: Server, m: Msg): (r: (Server, Outcome))
    requires Valid(s) && Mutates(m)
    ensures Valid(r.0) && Handle(s, m) == r
  {
    match m
    case Lcreate(_, _, _) => DoCreate(s, m)
    case Mkdir(_, _) => DoCreate(s, m)
    case Write(fid, offset, data) => DoWrite(s, fid, offset, data)
    case Setattr(fid, valid, mode, size) => DoSetattr(s, fid, valid, mode, size)
    case Remove(fid) => DoRemove(s, fid)
    case Unlinkat(fid, name) => DoUnlinkat(s, fid, name)
  }

  /** A change through a linked fid does what its path, and what is there, decide. */
  lemma ChangeExactly(s: Server, m: Msg)
    requires Valid(s) && Mutates(m) && m.fid in s.fids && Linked(s.tree, s.fids[m.fid])
    ensures View(s.tree, PathOf(s.tree, s.fids[m.fid])).Some?
    ensures var (s', r) := Handle(s, m); Obeys(s, m, Decide(s.tree, PathOf(s.tree, s.fids[m.fid]), m), s', r)
  {
    hide Handle, Tree, View, PathOf, Linked, Obeys, Valid, Creation, Writing, Resizing, Removal;
    hide DoCreate, DoWrite, DoSetattr, DoRemove, DoUnlinkat;
    assert Handle(s, m) == Do(s, m);
    match m
    case Lcreate(_, _, _) => CreateObeys(s, m);
    case Mkdir(_, _) => CreateObeys(s, m);
    case Write(_, _, _) => WriteObeys(s, m);
    case Setattr(_, _, _, _) => SetattrObeys(s, m);
    case Remove(_) => RemoveObeys(s, m);
    case Unlinkat(_, _) => UnlinkatObeys(s, m);
  }

  /** A fid nobody handed out is refused, whatever is asked of it, and nothing moves. */
  lemma UnknownFidIsRefused(s: Server, m: Msg)
    requires Valid(s) && (Mutates(m) || m.Walk? || m.Getattr? || m.Lopen? || m.Read? || m.Readdir?) && m.fid !in s.fids
    ensures Handle(s, m) == (s, Answer(RError(9)))
  {}

  /** The other refusals: a name that is not there, a body cut short, a kind that does not fit, a message nobody
      implements. Nothing moves. */
  lemma OtherRefusals(s: Server, fid: nat, newfid: nat, name: Name, offset: nat, count: nat)
    requires Valid(s) && fid in s.fids
    ensures var (t, ino) := (s.tree, s.fids[fid]);
      && (name != [46] && name != [46, 46] && !(s.lazy && t[ino].isDir && !t[ino].loaded)
          && Find(t[ino].children, name).None? ==>
            Handle(s, Walk(fid, newfid, 1, [name])) == (s, Answer(RError(2))))
      && (count > 0 ==> Handle(s, Walk(fid, newfid, count, [])) == (s, Answer(RError(22))))
      && (t[ino].isDir ==> Handle(s, Read(fid, offset, count)) == (s, Answer(RError(21))))
      && (!t[ino].isDir ==> Handle(s, Readdir(fid, offset, count)) == (s, Answer(RError(20))))
      && Handle(s, Malformed) == (s, Answer(RError(22))) && Handle(s, Unsupported) == (s, Answer(RError(38)))
  {
    hide Tree, Dirents, Fitting;
  }

  /** Only 9P2000.L is spoken, in messages of at most 128 KiB, and a new version forgets every fid. */
  lemma VersionExactly(s: Server, msize: nat, dialect: seq<byte>)
    requires Valid(s)
    ensures Handle(s, Version(msize, dialect))
         == (s.(fids := map[], msize := if msize < 131072 then msize else 131072),
             Answer(RVersion(if msize < 131072 then msize else 131072, dialect == Ascii("9P2000.L"))))
  {
    assert DIALECT == Ascii("9P2000.L");
  }

  // ── Replies after changes ─────────────────────────────────────────────────

  /** The attributes after `Setattr`: the mode if bit 0 asks for it, the size if bit 3 does. */
  lemma AttributesReadBack(s: Server, fid: nat, valid: nat, mode: nat, size: nat)
    requires Valid(s) && fid in s.fids
    ensures var s' := Handle(s, Setattr(fid, valid, mode, size)).0;
      var (g, g') := (Handle(s, Getattr(fid)).1, Handle(s', Getattr(fid)).1);
      && g.Answer? && g.reply.RGetattr? && g'.Answer? && g'.reply.RGetattr?
      && g'.reply.qid == g.reply.qid && g'.reply.nlink == g.reply.nlink
      && g'.reply.mode == (if valid % 2 == 1 then (if g.reply.qid.isDir then 0x4000 else 0x8000) + mode % 512
                           else g.reply.mode)
      && g'.reply.size == (if valid / 8 % 2 == 1 then size else g.reply.size)
      && g'.reply.blocks == (g'.reply.size + 511) / 512
  {
    hide Tree, PathOf, Join;
  }

  /** Create, write, read through one fid: the file is there, holds what was written and nothing else, and
      has the size and the mode that were asked for. */
  lemma CreateWriteRead(s: Server, fid: nat, name: Name, mode: nat, bytes: seq<byte>)
    requires Valid(s) && fid in s.fids && s.tree[s.fids[fid]].isDir && Find(s.tree[s.fids[fid]].children, name).None?
    ensures var (s1, r1) := Handle(s, Lcreate(fid, name, mode));
      var (s2, r2) := Handle(s1, Write(fid, 0, bytes));
      && r1 == Answer(RLcreate(Qid(false, |s.tree|))) && r2 == Answer(RWrite(|bytes|))
      && (forall count: nat :: |bytes| <= count ==> Handle(s2, Read(fid, 0, count)).1 == Answer(RRead(bytes)))
      && Handle(s2, Getattr(fid)).1
         == Answer(RGetattr(Qid(false, |s.tree|), 0x8000 + mode % 512, 1, |bytes|, (|bytes| + 511) / 512))
      && Find(s2.tree[s.fids[fid]].children, name) == Some(|s.tree|)
  {
    hide Handle, Tree, Find, Overwrite;
    var n := |s.tree|;
    CreatedInode(s, fid, name, mode);
    var s1 := Handle(s, Lcreate(fid, name, mode)).0;
    WrittenInode(s1, fid, 0, bytes);
    OverwriteIsPatched([], 0, bytes);
    assert Patched([], 0, bytes) == bytes;
    var s2 := Handle(s1, Write(fid, 0, bytes)).0;
    FileReplies(s2, fid);
  }

  /** Mkdir, walk, list: the new directory is there, is its own and holds nothing, and nothing of it has to
      be asked of the host. */
  lemma MkdirWalkList(s: Server, fid: nat, newfid: nat, name: Name, count: nat)
    requires Valid(s) && fid in s.fids && s.tree[s.fids[fid]].isDir && Find(s.tree[s.fids[fid]].children, name).None?
    requires name != [46] && name != [46, 46] && (s.lazy ==> s.tree[s.fids[fid]].loaded) && 51 <= count
    ensures var (dir, made) := (s.fids[fid], |s.tree|);
      var (s1, r1) := Handle(s, Mkdir(fid, name));
      var (s2, r2) := Handle(s1, Walk(fid, newfid, 1, [name]));
      && r1 == Answer(RMkdir(Qid(true, made))) && r2 == Answer(RWalk([Qid(true, made)]))
      && Handle(s2, Readdir(newfid, 0, count)).1
         == Answer(RReaddir([Dirent(Qid(true, made), 1, true, [46]), Dirent(Qid(true, dir), 2, true, [46, 46])]))
  {
    hide Handle, Tree, Find;
    MadeInode(s, fid, name);
    var s1 := Handle(s, Mkdir(fid, name)).0;
    WalkToChild(s1, fid, newfid, name, |s.tree|);
    var s2 := Handle(s1, Walk(fid, newfid, 1, [name])).0;
    EmptyListing(s2, newfid, count);
  }

  lemma MadeInode(s: Server, fid: nat, name: Name)
    requires Valid(s) && fid in s.fids && s.tree[s.fids[fid]].isDir && Find(s.tree[s.fids[fid]].children, name).None?
    ensures var (dir, (s', r)) := (s.fids[fid], Handle(s, Mkdir(fid, name)));
      && r == Answer(RMkdir(Qid(true, |s.tree|))) && s'.fids == s.fids && s'.lazy == s.lazy
      && |s'.tree| == |s.tree| + 1 && s'.tree[|s.tree|] == Directory(dir, true)
      && s'.tree[dir].loaded == s.tree[dir].loaded && Find(s'.tree[dir].children, name) == Some(|s.tree|)
  {
    hide Tree, PathOf, Join, Find;
    var dir := s.fids[fid];
    FindAttached(s.tree, dir, name, Directory(dir, true), dir, name);
  }

  lemma WalkToChild(s: Server, fid: nat, newfid: nat, name: Name, i: nat)
    requires Valid(s) && fid in s.fids && Find(s.tree[s.fids[fid]].children, name) == Some(i) && i < |s.tree|
    requires name != [46] && name != [46, 46] && (s.lazy ==> s.tree[s.fids[fid]].loaded)
    ensures Handle(s, Walk(fid, newfid, 1, [name]))
         == (s.(fids := s.fids[newfid := i]), Answer(RWalk([Qid(s.tree[i].isDir, i)])))
  {
    hide Tree, Find;
    var dir, qids := s.fids[fid], [Qid(s.tree[i].isDir, i)];
    assert WalkFrom(s.tree, s.lazy, i, [], 0, qids) == Stopped(i, qids);
    assert [name][1..] == [] && [] + qids == qids;
    assert WalkFrom(s.tree, s.lazy, dir, [name], 1, []) == Stopped(i, qids);
  }

  lemma EmptyListing(s: Server, fid: nat, count: nat)
    requires Valid(s) && fid in s.fids && 51 <= count
    requires var node := s.tree[s.fids[fid]]; node.isDir && node.loaded && node.children == []
    ensures var (dir, up) := (s.fids[fid], s.tree[s.fids[fid]].parent);
      Handle(s, Readdir(fid, 0, count)).1
      == Answer(RReaddir([Dirent(Qid(true, dir), 1, true, [46]), Dirent(Qid(true, up), 2, true, [46, 46])]))
  {
    hide Tree;
    var dir := s.fids[fid];
    var up := s.tree[dir].parent;
    var own, upper := Dirent(Qid(true, dir), 1, true, DOT), Dirent(Qid(true, up), 2, true, DOTDOT);
    assert Dirents(s.tree, dir) == [own, upper];
    assert [own, upper][1..] == [upper] && [upper][1..] == [];
    assert Fitting([upper], 0, count - 25) == [upper];
    assert Fitting([own, upper], 0, count) == [own, upper];
  }

  lemma CreatedInode(s: Server, fid: nat, name: Name, mode: nat)
    requires Valid(s) && fid in s.fids && s.tree[s.fids[fid]].isDir && Find(s.tree[s.fids[fid]].children, name).None?
    ensures var (s', r) := Handle(s, Lcreate(fid, name, mode));
      && r == Answer(RLcreate(Qid(false, |s.tree|))) && s'.fids == s.fids[fid := |s.tree|]
      && |s'.tree| == |s.tree| + 1 && s'.tree[|s.tree|] == File(s.fids[fid], []).(perm := mode % 512)
      && Find(s'.tree[s.fids[fid]].children, name) == Some(|s.tree|)
  {
    hide Tree, PathOf, Join, Find;
    var dir := s.fids[fid];
    FindAttached(s.tree, dir, name, File(dir, []).(perm := mode % 512), dir, name);
  }

  lemma FileReplies(s: Server, fid: nat)
    requires Valid(s) && fid in s.fids && !s.tree[s.fids[fid]].isDir && s.tree[s.fids[fid]].loaded
    ensures var (ino, node) := (s.fids[fid], s.tree[s.fids[fid]]);
      && (forall count: nat :: |node.data| <= count ==> Handle(s, Read(fid, 0, count)).1 == Answer(RRead(node.data)))
      && Handle(s, Getattr(fid)).1
         == Answer(RGetattr(Qid(false, ino), 0x8000 + node.perm, 1, |node.data|, (|node.data| + 511) / 512))
  {
    hide Tree;
    var data := s.tree[s.fids[fid]].data;
    forall count: nat | |data| <= count
      ensures Handle(s, Read(fid, 0, count)).1 == Answer(RRead(data))
    {
      assert data[0..|data|] == data;
    }
  }

  lemma WrittenInode(s: Server, fid: nat, offset: nat, bytes: seq<byte>)
    requires Valid(s) && fid in s.fids && !s.tree[s.fids[fid]].isDir
    ensures var (s', r) := Handle(s, Write(fid, offset, bytes));
      var data := Overwrite(s.tree[s.fids[fid]].data, offset, bytes);
      && r == Answer(RWrite(|bytes|)) && s'.fids == s.fids && s'.lazy == s.lazy
      && s'.tree == s.tree[s.fids[fid] := s.tree[s.fids[fid]].(data := data, loaded := true, size := |data|)]
  {
    hide Tree, PathOf, Join;
  }

  // ── Files the host has not delivered ──────────────────────────────────────

  /** What a file holds for the guest: its bytes, or those the host has where it is only listed. */
  predicate Holds(node: Inode, contents: seq<byte>) {
    !node.isDir && if node.loaded then node.data == contents else node.data == [] && node.size == |contents|
  }

  /** A write keeps the rest of the file exactly when the bytes have been delivered, or there is nothing but
      zeros to keep: the listed file is taken for an empty one. */
  lemma WriteKeepsTheRest(s: Server, fid: nat, offset: nat, bytes: seq<byte>, contents: seq<byte>)
    requires Valid(s) && fid in s.fids && Holds(s.tree[s.fids[fid]], contents)
    ensures var (ino, s') := (s.fids[fid], Handle(s, Write(fid, offset, bytes)).0);
      && s'.tree[ino].loaded
      && (s'.tree[ino].data == Patched(contents, offset, bytes)
          <==> || s.tree[ino].loaded
               || (&& |contents| <= offset + |bytes|
                   && forall k :: 0 <= k < |contents| && k < offset ==> contents[k] == 0))
  {
    var ino := s.fids[fid];
    WrittenInode(s, fid, offset, bytes);
    OverwriteIsPatched(s.tree[ino].data, offset, bytes);
    var a, b := Patched([], offset, bytes), Patched(contents, offset, bytes);
    hide Handle, Tree;
    if !s.tree[ino].loaded && a == b {
      assert |contents| <= offset + |bytes|;
      forall k | 0 <= k < |contents| && k < offset
        ensures contents[k] == 0
      {
        assert a[k] == 0 && b[k] == contents[k];
      }
    }
  }

  /** So appending to a file that has not been read turns what it held into zeros. */
  lemma AppendToUnread(s: Server, fid: nat, bytes: seq<byte>, contents: seq<byte>)
    requires Valid(s) && fid in s.fids && Holds(s.tree[s.fids[fid]], contents) && !s.tree[s.fids[fid]].loaded
    ensures Handle(s, Write(fid, |contents|, bytes)).0.tree[s.fids[fid]].data == Zeros(|contents|) + bytes
  {
    WrittenInode(s, fid, |contents|, bytes);
    OverwriteIsPatched([], |contents|, bytes);
    hide Handle, Tree;
    assert Patched([], |contents|, bytes) == Zeros(|contents|) + bytes;
  }

  /** A new size is kept exactly when the bytes have been delivered or none are left to keep, and what the
      first read of the file fetches undoes it. */
  lemma ResizeKeepsTheRest(s: Server, fid: nat, size: nat, contents: seq<byte>)
    requires Valid(s) && fid in s.fids && Holds(s.tree[s.fids[fid]], contents)
    ensures var (ino, s') := (s.fids[fid], Handle(s, Setattr(fid, 8, 0, size)).0);
      && (s'.tree[ino].data == CutTo(contents, size)
          <==> s.tree[ino].loaded || forall k :: 0 <= k < |contents| && k < size ==> contents[k] == 0)
      && (s.lazy && !s.tree[ino].loaded ==>
            && Handle(s', Read(fid, 0, size)) == (s', Fetch(Contents, ino))
            && Deliver(s', Contents, ino, contents).tree[ino].data == contents)
  {
    hide Tree, PathOf, Join;
    var ino := s.fids[fid];
    ResizeIsCutTo(s.tree[ino].data, size);
    var a, b := CutTo([], size), CutTo(contents, size);
    if !s.tree[ino].loaded && a == b {
      forall k | 0 <= k < |contents| && k < size
        ensures contents[k] == 0
      {
        assert a[k] == 0 && b[k] == contents[k];
      }
    }
  }
}
