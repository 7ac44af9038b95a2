/**
 * The host's folder, a reference server that looks paths up in it, and when an inode table stands
 * for the folder: then every answered read-only message is answered as the reference answers it.
 */
module NinepHost {
  import opened Bytes
  import opened NinepTree
  import opened NinepServer

  // ── The host's folder ─────────────────────────────────────────────────────

  datatype HostEntry = HostEntry(name: Name, node: HostNode)

  datatype HostNode = HostFile(data: seq<byte>) | HostDir(entries: seq<HostEntry>)

  function FindEntry(es: seq<HostEntry>, name: Name): (r: Option<HostNode>)
    ensures r.None? <==> forall k :: 0 <= k < |es| ==> es[k].name != name
    ensures r.Some? ==> exists k :: 0 <= k < |es| && es[k] == HostEntry(name, r.value)
  {
    if es == [] then None
    else if es[0].name == name then assert es[0] == HostEntry(name, es[0].node); Some(es[0].node)
    else
      assert forall k :: 0 < k < |es| ==> es[k] == es[1..][k - 1];
      FindEntry(es[1..], name)
  }

  predicate EntryNameOk(name: Name) {
    NameOk(name) && name != DOT && name != DOTDOT && |name| < 0x1_0000 && IsUtf8(name)
  }

  predicate EntryNamesOk(es: seq<HostEntry>) {
    && (forall k :: 0 <= k < |es| ==> EntryNameOk(es[k].name))
    && (forall j, k :: 0 <= j < k < |es| ==> es[j].name != es[k].name)
  }

  /** What a file system guarantees of a folder: usable, distinct UTF-8 names and 64-bit sizes. */
  predicate HostOk(h: HostNode) {
    match h
    case HostFile(data) => |data| < 0x1_0000_0000_0000_0000
    case HostDir(es) => EntryNamesOk(es) && forall k :: 0 <= k < |es| ==> HostOk(es[k].node)
  }

  function Lookup(host: HostNode, path: Path): Option<HostNode>
    decreases |path|
  {
    if path == [] then Some(host)
    else
      match Lookup(host, path[..|path| - 1])
      case Some(HostDir(es)) => FindEntry(es, path[|path| - 1])
      case _ => None
  }

  lemma LookupChild(host: HostNode, path: Path, name: Name)
    ensures Lookup(host, path + [name])
         == match Lookup(host, path) { case Some(HostDir(es)) => FindEntry(es, name) case _ => None }
  {
    assert (path + [name])[..|path|] == path;
  }

  lemma {:induction false} LookupIsOk(host: HostNode, path: Path)
    requires HostOk(host) && Lookup(host, path).Some?
    ensures HostOk(Lookup(host, path).value) && PathOk(path)
    decreases |path|
  {
    if path == [] {
    } else {
      var init, last := path[..|path| - 1], path[|path| - 1];
      LookupIsOk(host, init);
      var es := Lookup(host, init).value.entries;
      var k :| 0 <= k < |es| && es[k] == HostEntry(last, Lookup(host, path).value);
      assert EntryNameOk(es[k].name) && HostOk(es[k].node);
    }
  }

  // ── The reference server ──────────────────────────────────────────────────

  /** What the reference remembers between messages: where each fid points. */
  datatype Session = Session(fids: map<nat, Path>, msize: nat)

  function Size64(h: HostNode): nat { if h.HostFile? then |h.data| else 0 }

  function HostNext(host: HostNode, cur: Path, name: Name): Option<Path> {
    if name == DOTDOT then Some(if cur == [] then [] else cur[..|cur| - 1])
    else if name == DOT then Some(cur)
    else if Lookup(host, cur + [name]).Some? then Some(cur + [name])
    else None
  }

  predicate IsDirAt(host: HostNode, path: Path) {
    Lookup(host, path).Some? && Lookup(host, path).value.HostDir?
  }

  datatype HostStop = HostStopped(cur: Path, qids: seq<Qid<Path>>) | HostTruncated

  function HostWalk(host: HostNode, cur: Path, names: seq<Name>, count: nat, qids: seq<Qid<Path>>): (r: HostStop)
    ensures Lookup(host, cur).Some? && r.HostStopped? ==> Lookup(host, r.cur).Some?
    decreases |names|
  {
    if count == 0 then HostStopped(cur, qids)
    else if names == [] then HostTruncated
    else
      match HostNext(host, cur, names[0])
      case None => HostStopped(cur, qids)
      case Some(p) => HostWalk(host, p, names[1..], count - 1, qids + [Qid(IsDirAt(host, p), p)])
  }

  function HostDirents(es: seq<HostEntry>, dir: Path, cookie: nat): seq<Dirent<Path>>
    decreases |es|
  {
    if es == [] then []
    else
      var d := es[0].node.HostDir?;
      [Dirent(Qid(d, dir + [es[0].name]), cookie, d, es[0].name)] + HostDirents(es[1..], dir, cookie + 1)
  }

  function HostParent(dir: Path): Path { if dir == [] then [] else dir[..|dir| - 1] }

  /** Messages that neither change the folder nor count inodes. */
  predicate ReadOnly(m: Msg) {
    !m.Lcreate? && !m.Mkdir? && !m.Write? && !m.Setattr? && !m.Remove? && !m.Unlinkat? && !m.Statfs?
  }

  function HostInspect(host: HostNode, path: Path, m: Msg): Reply<Path>
    requires m.Getattr? || m.Lopen? || m.Read? || m.Readdir?
    requires Lookup(host, path).Some?
  {
    var node := Lookup(host, path).value;
    match m
    case Lopen(_) => RLopen(Qid(node.HostDir?, path))
    case Getattr(_) =>
      if node.HostDir? then RGetattr(Qid(true, path), 0x41ED, 2, 0, 0)
      else RGetattr(Qid(false, path), 0x81A4, 1, |node.data|, (|node.data| + 511) / 512)
    case Read(_, offset, count) =>
      if node.HostDir? then RError(EISDIR) else RRead(Slice(node.data, offset, count))
    case Readdir(_, offset, count) =>
      if node.HostFile? then RError(ENOTDIR)
      else
        var all := [Dirent(Qid(true, path), 1, true, DOT), Dirent(Qid(true, HostParent(path)), 2, true, DOTDOT)]
                   + HostDirents(node.entries, path, 3);
        RReaddir(Fitting(all, offset, count))
  }

  /** Every fid of the session points at something in the folder. */
  predicate SessionOk(host: HostNode, ses: Session) {
    forall f :: f in ses.fids ==> Lookup(host, ses.fids[f]).Some?
  }

  function HostThrough(host: HostNode, ses: Session, fid: nat, m: Msg): Reply<Path>
    requires SessionOk(host, ses) && (m.Getattr? || m.Lopen? || m.Read? || m.Readdir?)
  {
    if fid !in ses.fids then RError(EBADF) else HostInspect(host, ses.fids[fid], m)
  }

  function HostHandle(host: HostNode, ses: Session, m: Msg): (r: (Session, Reply<Path>))
    requires ReadOnly(m) && host.HostDir? && SessionOk(host, ses)
    ensures SessionOk(host, r.0)
  {
    match m
    case Version(msize, dialect) =>
      var agreed := if msize < MSIZE_MAX then msize else MSIZE_MAX;
      (Session(map[], agreed), RVersion(agreed, dialect == DIALECT))
    case AttachRoot(fid) => (ses.(fids := ses.fids[fid := []]), RAttach(Qid(true, [])))
    case Walk(fid, newfid, count, names) =>
      if fid !in ses.fids then (ses, RError(EBADF))
      else (
        match HostWalk(host, ses.fids[fid], names, count, [])
        case HostTruncated => (ses, RError(EINVAL))
        case HostStopped(cur, qids) =>
          if |qids| == count then (ses.(fids := ses.fids[newfid := cur]), RWalk(qids))
          else if qids == [] then (ses, RError(ENOENT))
          else (ses, RWalk(qids)))
    case Clunk(fid) => (ses.(fids := ses.fids - {fid}), RDone)
    case Fsync => (ses, RDone)
    case Flush => (ses, RDone)
    case Xattrwalk => (ses, RXattrwalk)
    case Malformed => (ses, RError(EINVAL))
    case Unsupported => (ses, RError(ENOSYS))
    case Getattr(fid) => (ses, HostThrough(host, ses, fid, m))
    case Lopen(fid) => (ses, HostThrough(host, ses, fid, m))
    case Read(fid, _, _) => (ses, HostThrough(host, ses, fid, m))
    case Readdir(fid, _, _) => (ses, HostThrough(host, ses, fid, m))
  }

  // ── Renumbering ───────────────────────────────────────────────────────────

  /** The host path of an inode, given the host paths of the whole table. */
  function Place(loc: seq<Path>, i: nat): Path { if i < |loc| then loc[i] else [] }

  function QidOn(q: Qid<nat>, loc: seq<Path>): Qid<Path> { Qid(q.isDir, Place(loc, q.path)) }

  function QidsOn(qs: seq<Qid<nat>>, loc: seq<Path>): seq<Qid<Path>> {
    seq(|qs|, i requires 0 <= i < |qs| => QidOn(qs[i], loc))
  }

  function DirentOn(e: Dirent<nat>, loc: seq<Path>): Dirent<Path> {
    Dirent(QidOn(e.qid, loc), e.cookie, e.isDir, e.name)
  }

  function DirentsOn(es: seq<Dirent<nat>>, loc: seq<Path>): seq<Dirent<Path>> {
    seq(|es|, i requires 0 <= i < |es| => DirentOn(es[i], loc))
  }

  /** A reply with every inode number replaced by the host path it stands for. */
  function ReplyOn(r: Reply<nat>, loc: seq<Path>): Reply<Path> {
    match r
    case RVersion(msize, known) => RVersion(msize, known)
    case RAttach(q) => RAttach(QidOn(q, loc))
    case RWalk(qs) => RWalk(QidsOn(qs, loc))
    case RGetattr(q, mode, nlink, size, blocks) => RGetattr(QidOn(q, loc), mode, nlink, size, blocks)
    case RLopen(q) => RLopen(QidOn(q, loc))
    case RLcreate(q) => RLcreate(QidOn(q, loc))
    case RMkdir(q) => RMkdir(QidOn(q, loc))
    case RRead(data) => RRead(data)
    case RWrite(count) => RWrite(count)
    case RReaddir(es) => RReaddir(DirentsOn(es, loc))
    case RStatfs(files) => RStatfs(files)
    case RXattrwalk => RXattrwalk
    case RDone => RDone
    case RError(e) => RError(e)
  }

  function SessionOf(s: Server, loc: seq<Path>): Session {
    Session(map f | f in s.fids :: Place(loc, s.fids[f]), s.msize)
  }

  // ── When a tree stands for a folder ───────────────────────────────────────

  /** The first `k` entries of the host directory, in order, and nothing else. */
  predicate Shows(t: seq<Inode>, loc: seq<Path>, es: seq<HostEntry>, i: nat, k: nat)
    requires i < |t| == |loc|
  {
    && |t[i].children| == k <= |es|
    && forall j :: 0 <= j < k ==>
      var l := t[i].children[j];
      l.name == es[j].name && l.ino < |t| && loc[l.ino] == loc[i] + [l.name]
  }

  /** Inode `i` describes what the host has at `loc[i]`. */
  predicate Describes(t: seq<Inode>, loc: seq<Path>, host: HostNode, i: nat, k: nat)
    requires i < |t| == |loc|
  {
    match Lookup(host, loc[i])
    case None => false
    case Some(HostFile(data)) =>
      && !t[i].isDir && t[i].perm == 0x1A4 && t[i].children == []
      && (if t[i].loaded then t[i].data == data else t[i].size == |data|)
    case Some(HostDir(es)) => t[i].isDir && t[i].perm == 0x1ED && t[i].data == [] && Shows(t, loc, es, i, k)
  }

  /** Inode `i` hangs where its host path says. */
  predicate Hangs(t: seq<Inode>, loc: seq<Path>, i: nat)
    requires i < |t| == |loc|
  {
    if i == 0 then loc[i] == []
    else
      && loc[i] != [] && t[i].parent < |t| && loc[t[i].parent] == loc[i][..|loc[i]| - 1]
      && NameOf(t[t[i].parent].children, i) == Some(loc[i][|loc[i]| - 1])
  }

  /** How many entries a node shows: all of them once it is loaded. */
  function Shown(t: seq<Inode>, loc: seq<Path>, host: HostNode, i: nat): nat
    requires i < |t| == |loc|
  {
    if !t[i].loaded || !IsDirAt(host, loc[i]) then 0 else |Lookup(host, loc[i]).value.entries|
  }

  predicate Represents(t: seq<Inode>, loc: seq<Path>, host: HostNode) {
    && Tree(t) && |loc| == |t|
    && (forall i :: 0 <= i < |t| ==> Describes(t, loc, host, i, Shown(t, loc, host, i)))
    && (forall i :: 0 <= i < |t| ==> Hangs(t, loc, i))
  }

  /** A tree in lazy mode may hold stubs; a seeded one must not. */
  predicate Ready(s: Server) {
    s.lazy || forall i :: 0 <= i < |s.tree| ==> s.tree[i].loaded
  }

  lemma {:induction false} PlaceIsPath(t: seq<Inode>, loc: seq<Path>, host: HostNode, i: nat)
    requires Represents(t, loc, host) && i < |t|
    ensures PathOf(t, i) == loc[i] && Linked(t, i)
    decreases i
  {
    assert Hangs(t, loc, i);
    if i == 0 {
    } else {
      assert NodeOk(t, i);
      PlaceIsPath(t, loc, host, t[i].parent);
    }
  }

  /** Renumbering is one to one: distinct inodes stand for distinct host paths. */
  lemma PlacesAreDistinct(t: seq<Inode>, loc: seq<Path>, host: HostNode, i: nat, j: nat)
    requires Represents(t, loc, host) && i < |t| && j < |t| && loc[i] == loc[j]
    ensures i == j
  {
    PlaceIsPath(t, loc, host, i);
    PlaceIsPath(t, loc, host, j);
    FollowPathOf(t, i);
    FollowPathOf(t, j);
  }

  // ── Answers agree with the reference ──────────────────────────────────────

  lemma NextAgrees(t: seq<Inode>, loc: seq<Path>, host: HostNode, cur: nat, name: Name)
    requires Represents(t, loc, host) && HostOk(host) && cur < |t|
    requires t[cur].isDir ==> t[cur].loaded || name == DOT || name == DOTDOT
    ensures Next(t, cur, name).None? ==> HostNext(host, loc[cur], name).None?
    ensures Next(t, cur, name).Some? ==> HostNext(host, loc[cur], name) == Some(loc[Next(t, cur, name).value])
  {
    assert Hangs(t, loc, cur) && NodeOk(t, cur);
    assert Describes(t, loc, host, cur, Shown(t, loc, host, cur));
    LookupChild(host, loc[cur], name);
    if name != DOT && name != DOTDOT && t[cur].isDir {
      var es := Lookup(host, loc[cur]).value.entries;
      if FindEntry(es, name).Some? {
        var k :| 0 <= k < |es| && es[k].name == name;
        assert t[cur].children[k].name == name;
      }
      if Find(t[cur].children, name).Some? {
        var k :| 0 <= k < |t[cur].children| && t[cur].children[k] == Link(name, Find(t[cur].children, name).value);
        assert es[k].name == name;
      }
    }
  }

  lemma KindAgrees(t: seq<Inode>, loc: seq<Path>, host: HostNode, i: nat)
    requires Represents(t, loc, host) && i < |t|
    ensures Lookup(host, loc[i]).Some? && t[i].isDir == IsDirAt(host, loc[i])
  {
    assert Describes(t, loc, host, i, Shown(t, loc, host, i));
  }

  lemma {:induction false} WalkAgrees(s: Server, loc: seq<Path>, host: HostNode, cur: nat, names: seq<Name>,
                                      count: nat, qids: seq<Qid<nat>>)
    requires Represents(s.tree, loc, host) && HostOk(host) && Ready(s) && cur < |s.tree|
    requires !WalkFrom(s.tree, s.lazy, cur, names, count, qids).Unlisted?
    ensures HostWalk(host, loc[cur], names, count, QidsOn(qids, loc))
         == match WalkFrom(s.tree, s.lazy, cur, names, count, qids) {
              case Truncated => HostTruncated
              case Stopped(c, qs) => HostStopped(loc[c], QidsOn(qs, loc))
            }
    decreases |names|
  {
    hide Describes, Hangs, Lookup, HostNext, IsDirAt, NodeOk, Next;
    if count == 0 || names == [] {
    } else {
      NextAgrees(s.tree, loc, host, cur, names[0]);
      match Next(s.tree, cur, names[0])
      case None =>
      case Some(i) =>
        var q := Qid(s.tree[i].isDir, i);
        KindAgrees(s.tree, loc, host, i);
        assert QidsOn(qids + [q], loc) == QidsOn(qids, loc) + [QidOn(q, loc)];
        WalkAgrees(s, loc, host, i, names[1..], count - 1, qids + [q]);
    }
  }

  lemma FindEntryAt(es: seq<HostEntry>, j: nat)
    requires j < |es| && EntryNamesOk(es)
    ensures FindEntry(es, es[j].name) == Some(es[j].node)
  {
    var k :| 0 <= k < |es| && es[k] == HostEntry(es[j].name, FindEntry(es, es[j].name).value);
    assert k == j;
  }

  /** A shown entry leads to an inode of the kind the host has. */
  lemma ShownEntry(t: seq<Inode>, loc: seq<Path>, host: HostNode, dir: nat, j: nat)
    requires Represents(t, loc, host) && HostOk(host) && dir < |t| && t[dir].isDir && t[dir].loaded
    ensures IsDirAt(host, loc[dir]) && |t[dir].children| == |Lookup(host, loc[dir]).value.entries|
    ensures j < |t[dir].children| ==>
      var (l, e) := (t[dir].children[j], Lookup(host, loc[dir]).value.entries[j]);
      l.ino < |t| && l.name == e.name && loc[l.ino] == loc[dir] + [e.name] && t[l.ino].isDir == e.node.HostDir?
  {
    assert Describes(t, loc, host, dir, Shown(t, loc, host, dir));
    if j < |t[dir].children| {
      var l, es := t[dir].children[j], Lookup(host, loc[dir]).value.entries;
      assert Describes(t, loc, host, l.ino, Shown(t, loc, host, l.ino));
      LookupChild(host, loc[dir], l.name);
      LookupIsOk(host, loc[dir]);
      FindEntryAt(es, j);
    }
  }

  lemma {:induction false} ChildDirentsAgree(t: seq<Inode>, loc: seq<Path>, dir: Path, links: seq<Link>,
                                             es: seq<HostEntry>, cookie: nat)
    requires |links| == |es| && |loc| == |t|
    requires forall j :: 0 <= j < |links| ==> links[j].ino < |t| && links[j].name == es[j].name
    requires forall j :: 0 <= j < |links| ==> loc[links[j].ino] == dir + [es[j].name]
    requires forall j :: 0 <= j < |links| ==> t[links[j].ino].isDir == es[j].node.HostDir?
    ensures DirentsOn(ChildDirents(t, links, cookie), loc) == HostDirents(es, dir, cookie)
    decreases |links|
  {
    if links == [] {
    } else {
      ChildDirentsAgree(t, loc, dir, links[1..], es[1..], cookie + 1);
      var i := links[0].ino;
      var e := Dirent(Qid(t[i].isDir, i), cookie, t[i].isDir, links[0].name);
      var rest := ChildDirents(t, links[1..], cookie + 1);
      assert DirentsOn([e] + rest, loc) == [DirentOn(e, loc)] + DirentsOn(rest, loc);
    }
  }

  lemma {:induction false} FittingOn(es: seq<Dirent<nat>>, offset: nat, room: int, loc: seq<Path>)
    ensures Fitting(DirentsOn(es, loc), offset, room) == DirentsOn(Fitting(es, offset, room), loc)
  {
    if es == [] {
    } else {
      var all := DirentsOn(es, loc);
      assert all[1..] == DirentsOn(es[1..], loc);
      if es[0].cookie <= offset {
        FittingOn(es[1..], offset, room, loc);
      } else if 24 + |es[0].name| <= room {
        var less := room - 24 - |es[0].name|;
        FittingOn(es[1..], offset, less, loc);
        assert DirentsOn([es[0]] + Fitting(es[1..], offset, less), loc)
            == [DirentOn(es[0], loc)] + DirentsOn(Fitting(es[1..], offset, less), loc);
      }
    }
  }

  lemma DirentsAgree(t: seq<Inode>, loc: seq<Path>, host: HostNode, dir: nat)
    requires Represents(t, loc, host) && HostOk(host) && dir < |t| && t[dir].isDir && t[dir].loaded
    ensures IsDirAt(host, loc[dir])
    ensures DirentsOn(Dirents(t, dir), loc)
         == [Dirent(Qid(true, loc[dir]), 1, true, DOT), Dirent(Qid(true, HostParent(loc[dir])), 2, true, DOTDOT)]
            + HostDirents(Lookup(host, loc[dir]).value.entries, loc[dir], 3)
  {
    hide Describes, Lookup;
    var links := t[dir].children;
    assert NodeOk(t, dir) && Hangs(t, loc, dir);
    KindAgrees(t, loc, host, dir);
    var es := Lookup(host, loc[dir]).value.entries;
    ShownEntry(t, loc, host, dir, 0);
    forall j | 0 <= j < |links|
      ensures links[j].ino < |t| && links[j].name == es[j].name && loc[links[j].ino] == loc[dir] + [es[j].name]
      ensures t[links[j].ino].isDir == es[j].node.HostDir?
    {
      ShownEntry(t, loc, host, dir, j);
    }
    ChildDirentsAgree(t, loc, loc[dir], links, es, 3);
    var first := [Dirent(Qid(true, dir), 1, true, DOT), Dirent(Qid(true, t[dir].parent), 2, true, DOTDOT)];
    assert DirentsOn(first + ChildDirents(t, links, 3), loc)
        == DirentsOn(first, loc) + DirentsOn(ChildDirents(t, links, 3), loc);
  }

  lemma InspectAgrees(s: Server, loc: seq<Path>, host: HostNode, m: Msg)
    requires Valid(s) && Represents(s.tree, loc, host) && HostOk(host) && Ready(s)
    requires (m.Getattr? || m.Lopen? || m.Read? || m.Readdir?) && m.fid in s.fids
    requires Inspect(s, m).Answer?
    ensures Lookup(host, loc[s.fids[m.fid]]).Some?
    ensures HostInspect(host, loc[s.fids[m.fid]], m) == ReplyOn(Inspect(s, m).reply, loc)
  {
    hide Lookup, Dirents, HostDirents, Fitting;
    var i := s.fids[m.fid];
    var node := s.tree[i];
    assert Describes(s.tree, loc, host, i, Shown(s.tree, loc, host, i));
    if m.Readdir? && node.isDir {
      DirentsAgree(s.tree, loc, host, i);
      FittingOn(Dirents(s.tree, i), m.offset, m.count, loc);
    }
  }

  lemma ThroughAgrees(s: Server, loc: seq<Path>, host: HostNode, m: Msg)
    requires Valid(s) && Represents(s.tree, loc, host) && HostOk(host) && Ready(s)
    requires (m.Getattr? || m.Lopen? || m.Read? || m.Readdir?) && Inspect(s, m).Answer?
    requires SessionOk(host, SessionOf(s, loc))
    ensures HostThrough(host, SessionOf(s, loc), m.fid, m) == ReplyOn(Inspect(s, m).reply, loc)
  {
    if m.fid in s.fids {
      hide Inspect, HostInspect, Represents, Lookup;
      InspectAgrees(s, loc, host, m);
    }
  }

  lemma WalkMessageAgrees(s: Server, loc: seq<Path>, host: HostNode, fid: nat, newfid: nat, count: nat,
                          names: seq<Name>)
    requires Valid(s) && Represents(s.tree, loc, host) && HostOk(host) && Ready(s)
    requires DoWalk(s, fid, newfid, count, names).1.Answer?
    requires host.HostDir? && SessionOk(host, SessionOf(s, loc))
    ensures HostHandle(host, SessionOf(s, loc), Walk(fid, newfid, count, names))
         == (SessionOf(DoWalk(s, fid, newfid, count, names).0, loc),
           ReplyOn(DoWalk(s, fid, newfid, count, names).1.reply, loc))
    ensures DoWalk(s, fid, newfid, count, names).0.tree == s.tree
      && DoWalk(s, fid, newfid, count, names).0.lazy == s.lazy
  {
    hide Describes, Hangs, NodeOk, Lookup, HostWalk, WalkFrom, Tree;
    if fid in s.fids {
      WalkAgrees(s, loc, host, s.fids[fid], names, count, []);
      assert QidsOn([], loc) == [];
      match WalkFrom(s.tree, s.lazy, s.fids[fid], names, count, [])
      case Truncated =>
      case Stopped(cur, qids) =>
        assert (SessionOf(s, loc).fids)[newfid := loc[cur]] == SessionOf(s.(fids := s.fids[newfid := cur]), loc).fids;
    }
  }

  lemma SessionIsOk(s: Server, loc: seq<Path>, host: HostNode)
    requires Valid(s) && Represents(s.tree, loc, host)
    ensures SessionOk(host, SessionOf(s, loc)) && host.HostDir?
  {
    hide Describes, Hangs, NodeOk;
    KindAgrees(s.tree, loc, host, 0);
    assert loc[0] == [] by { assert Hangs(s.tree, loc, 0); RootIsHere(s.tree, loc); }
    forall f | f in s.fids
      ensures Lookup(host, loc[s.fids[f]]).Some?
    {
      KindAgrees(s.tree, loc, host, s.fids[f]);
    }
  }

  lemma RootIsHere(t: seq<Inode>, loc: seq<Path>)
    requires 0 < |t| == |loc| && Hangs(t, loc, 0)
    ensures loc[0] == []
  {}

  /** An answered read-only message is answered as the reference answers it, and moves the session
      as the reference moves it. */
  lemma HandleAgrees(s: Server, loc: seq<Path>, host: HostNode, m: Msg)
    requires Valid(s) && Represents(s.tree, loc, host) && HostOk(host) && Ready(s)
    requires ReadOnly(m) && Handle(s, m).1.Answer?
    ensures host.HostDir? && SessionOk(host, SessionOf(s, loc))
    ensures HostHandle(host, SessionOf(s, loc), m)
         == (SessionOf(Handle(s, m).0, loc), ReplyOn(Handle(s, m).1.reply, loc))
    ensures Handle(s, m).0.tree == s.tree && Handle(s, m).0.lazy == s.lazy
  {
    hide Describes, Hangs, NodeOk, Lookup, Inspect, HostInspect, HostWalk, DoWalk;
    SessionIsOk(s, loc, host);
    assert loc[0] == [] by { assert Hangs(s.tree, loc, 0); RootIsHere(s.tree, loc); }
    match m
    case Walk(fid, newfid, count, names) => WalkMessageAgrees(s, loc, host, fid, newfid, count, names);
    case Getattr(fid) => ThroughAgrees(s, loc, host, m);
    case Lopen(fid) => ThroughAgrees(s, loc, host, m);
    case Read(fid, _, _) => ThroughAgrees(s, loc, host, m);
    case Readdir(fid, _, _) => ThroughAgrees(s, loc, host, m);
    case Version(_, _) => assert SessionOf(Handle(s, m).0, loc).fids == map[];
    case AttachRoot(fid) => assert SessionOf(s, loc).fids[fid := []] == SessionOf(Handle(s, m).0, loc).fids;
    case Clunk(fid) => assert SessionOf(s, loc).fids - {fid} == SessionOf(Handle(s, m).0, loc).fids;
    case _ =>
  }

  // ── Numbers in replies ────────────────────────────────────────────────────

  /** Every inode number in a reply is below `n`. */
  predicate Within(r: Reply<nat>, n: nat) {
    match r
    case RAttach(q) => q.path < n
    case RWalk(qs) => QidsWithin(qs, n)
    case RGetattr(q, _, _, _, _) => q.path < n
    case RLopen(q) => q.path < n
    case RLcreate(q) => q.path < n
    case RMkdir(q) => q.path < n
    case RReaddir(es) => EntriesWithin(es, n)
    case _ => true
  }

  predicate QidsWithin(qs: seq<Qid<nat>>, n: nat) { forall i :: 0 <= i < |qs| ==> qs[i].path < n }

  predicate EntriesWithin(es: seq<Dirent<nat>>, n: nat) { forall i :: 0 <= i < |es| ==> es[i].qid.path < n }

  lemma {:induction false} WalkWithin(t: seq<Inode>, lazy: bool, cur: nat, names: seq<Name>, count: nat,
                                      qids: seq<Qid<nat>>)
    requires Tree(t) && cur < |t| && QidsWithin(qids, |t|)
    ensures var r := WalkFrom(t, lazy, cur, names, count, qids);
      r.Stopped? ==> QidsWithin(r.qids, |t|)
    decreases |names|
  {
    hide Tree, Next;
    if count == 0 || names == [] || Next(t, cur, names[0]).None? {
    } else {
      var i := Next(t, cur, names[0]).value;
      WalkWithin(t, lazy, i, names[1..], count - 1, qids + [Qid(t[i].isDir, i)]);
    }
  }

  lemma {:induction false} ChildrenWithin(t: seq<Inode>, links: seq<Link>, cookie: nat)
    requires forall k :: 0 <= k < |links| ==> links[k].ino < |t|
    ensures EntriesWithin(ChildDirents(t, links, cookie), |t|)
    decreases |links|
  {
    if links == [] {
    } else {
      ChildrenWithin(t, links[1..], cookie + 1);
    }
  }

  lemma {:induction false} FittingWithin(es: seq<Dirent<nat>>, offset: nat, room: int, n: nat)
    requires EntriesWithin(es, n)
    ensures EntriesWithin(Fitting(es, offset, room), n)
    decreases |es|
  {
    if es == [] {
    } else {
      FittingWithin(es[1..], offset, room, n);
      FittingWithin(es[1..], offset, room - 24 - |es[0].name|, n);
    }
  }

  lemma InspectWithin(s: Server, m: Msg)
    requires Valid(s) && (m.Getattr? || m.Lopen? || m.Read? || m.Readdir?) && Inspect(s, m).Answer?
    ensures Within(Inspect(s, m).reply, |s.tree|)
  {
    hide Fitting, ChildDirents;
    if m.Readdir? && m.fid in s.fids && s.tree[s.fids[m.fid]].isDir {
      var dir := s.fids[m.fid];
      assert NodeOk(s.tree, dir);
      ChildrenWithin(s.tree, s.tree[dir].children, 3);
      FittingWithin(Dirents(s.tree, dir), m.offset, m.count, |s.tree|);
    }
  }

  /** Every number an answered read-only message gives out names an inode. */
  lemma AnswersWithin(s: Server, m: Msg)
    requires Valid(s) && ReadOnly(m) && Handle(s, m).1.Answer?
    ensures Within(Handle(s, m).1.reply, |s.tree|)
  {
    hide Inspect, WalkFrom;
    match m
    case Walk(fid, newfid, count, names) =>
      if fid in s.fids {
        WalkWithin(s.tree, s.lazy, s.fids[fid], names, count, []);
      }
    case Getattr(_) => InspectWithin(s, m);
    case Lopen(_) => InspectWithin(s, m);
    case Read(_, _, _) => InspectWithin(s, m);
    case Readdir(_, _, _) => InspectWithin(s, m);
    case _ =>
  }

  /** A longer table of paths reads a reply the same way. */
  lemma NumberingGrows(r: Reply<nat>, loc: seq<Path>, loc': seq<Path>)
    requires loc <= loc' && Within(r, |loc|)
    ensures Within(r, |loc'|) && ReplyOn(r, loc) == ReplyOn(r, loc')
  {
    match r
    case RWalk(qs) => assert QidsOn(qs, loc) == QidsOn(qs, loc');
    case RReaddir(es) => assert DirentsOn(es, loc) == DirentsOn(es, loc');
    case _ =>
  }

  // ── Whole sessions ────────────────────────────────────────────────────────

  predicate AllReadOnly(ms: seq<Msg>) { forall i :: 0 <= i < |ms| ==> ReadOnly(ms[i]) }

  /** The reference's answers to a session. */
  function HostRun(host: HostNode, ses: Session, ms: seq<Msg>): (r: seq<Reply<Path>>)
    requires host.HostDir? && SessionOk(host, ses) && AllReadOnly(ms)
    ensures |r| == |ms|
    decreases |ms|
  {
    if ms == [] then []
    else
      var (ses', reply) := HostHandle(host, ses, ms[0]);
      [reply] + HostRun(host, ses', ms[1..])
  }
}
