/**
 * The 9P2000.L server on values: what each message does to the tree, the fids and the pending
 * changes, and when it cannot be answered before the host delivers a listing or a file.
 */
module NinepServer {
  import opened Bytes
  import opened NinepTree

  const DOT: Name := [46]
  const DOTDOT: Name := [46, 46]
  const DIALECT: seq<byte> := [57, 80, 50, 48, 48, 48, 46, 76] // 9P2000.L

  const ENOENT := 2
  const EBADF := 9
  const EEXIST := 17
  const ENOTDIR := 20
  const EISDIR := 21
  const EINVAL := 22
  const ENOSYS := 38
  const ENOTEMPTY := 39

  const MSIZE_MAX := 0x2_0000

  /** What a guest did to a path since the last drain. */
  datatype Op = Written | Deleted | Made

  datatype Server = Server(
    tree: seq<Inode>, fids: map<nat, nat>, msize: nat, lazy: bool, changes: map<seq<byte>, Op>)

  /** A request whose body was long enough for its fixed fields, or `Malformed`. A walk announces
      `count` names of which `names` could be read before the body ended. */
  datatype Msg =
    | Version(msize: nat, dialect: seq<byte>)
    | AttachRoot(fid: nat)
    | Walk(fid: nat, newfid: nat, count: nat, names: seq<Name>)
    | Getattr(fid: nat)
    | Lopen(fid: nat)
    | Lcreate(fid: nat, name: Name, mode: nat)
    | Mkdir(fid: nat, name: Name)
    | Read(fid: nat, offset: nat, count: nat)
    | Write(fid: nat, offset: nat, data: seq<byte>)
    | Readdir(fid: nat, offset: nat, count: nat)
    | Setattr(fid: nat, valid: nat, mode: nat, size: nat)
    | Clunk(fid: nat)
    | Remove(fid: nat)
    | Unlinkat(fid: nat, name: Name)
    | Statfs
    | Fsync | Flush | Xattrwalk
    | Malformed
    | Unsupported

  datatype Qid<P> = Qid(isDir: bool, path: P)

  datatype Dirent<P> = Dirent(qid: Qid<P>, cookie: nat, isDir: bool, name: Name)

  /** A reply, over whatever names inodes: table indices on the wire, host paths in the reference. */
  datatype Reply<P> =
    | RVersion(msize: nat, known: bool)
    | RAttach(qid: Qid<P>)
    | RWalk(qids: seq<Qid<P>>)
    | RGetattr(qid: Qid<P>, mode: nat, nlink: nat, size: nat, blocks: nat)
    | RLopen(qid: Qid<P>)
    | RLcreate(qid: Qid<P>)
    | RMkdir(qid: Qid<P>)
    | RRead(data: seq<byte>)
    | RWrite(count: nat)
    | RReaddir(entries: seq<Dirent<P>>)
    | RStatfs(files: nat)
    | RXattrwalk
    | RDone
    | RError(errno: nat)

  datatype Need = Contents | Listing

  datatype Outcome = Answer(reply: Reply<nat>) | Fetch(need: Need, target: nat)

  predicate Valid(s: Server) {
    Tree(s.tree) && forall f :: f in s.fids ==> s.fids[f] < |s.tree|
  }

  // ── Walk ──────────────────────────────────────────────────────────────────

  /** Where a walk ends: with an inode and one qid for each name it matched, at a directory the host
      has not listed yet, or at the end of a body that promised more names. */
  datatype Stop = Stopped(cur: nat, qids: seq<Qid<nat>>) | Unlisted(dir: nat, matched: nat) | Truncated

  predicate Unknown(t: seq<Inode>, lazy: bool, i: nat)
    requires i < |t|
  {
    lazy && t[i].isDir && !t[i].loaded
  }

  /** One name: up, nowhere, or to the child of that name. */
  function Next(t: seq<Inode>, cur: nat, name: Name): (r: Option<nat>)
    requires Tree(t) && cur < |t|
    ensures r.Some? ==> r.value < |t|
  {
    assert NodeOk(t, cur);
    if name == DOTDOT then Some(t[cur].parent)
    else if name == DOT then Some(cur)
    else Find(t[cur].children, name)
  }

  function WalkFrom(t: seq<Inode>, lazy: bool, cur: nat, names: seq<Name>, count: nat, qids: seq<Qid<nat>>): (r: Stop)
    requires Tree(t) && cur < |t|
    ensures r.Stopped? ==> r.cur < |t|
    ensures r.Unlisted? ==> r.dir < |t| && Unknown(t, lazy, r.dir) && |qids| <= r.matched < |qids| + |names|
    decreases |names|
  {
    if count == 0 then Stopped(cur, qids)
    else if names == [] then Truncated
    else if names[0] != DOTDOT && names[0] != DOT && Unknown(t, lazy, cur) then Unlisted(cur, |qids|)
    else
      match Next(t, cur, names[0])
      case None => Stopped(cur, qids)
      case Some(i) => WalkFrom(t, lazy, i, names[1..], count - 1, qids + [Qid(t[i].isDir, i)])
  }

  function DoWalk(s: Server, fid: nat, newfid: nat, count: nat, names: seq<Name>): (r: (Server, Outcome))
    requires Valid(s)
    ensures Valid(r.0)
  {
    if fid !in s.fids then (s, Answer(RError(EBADF)))
    else
      match WalkFrom(s.tree, s.lazy, s.fids[fid], names, count, [])
      case Unlisted(dir, _) => (s, Fetch(Listing, dir))
      case Truncated => (s, Answer(RError(EINVAL)))
      case Stopped(cur, qids) =>
        if |qids| == count then (s.(fids := s.fids[newfid := cur]), Answer(RWalk(qids)))
        else if qids == [] then (s, Answer(RError(ENOENT)))
        else (s, Answer(RWalk(qids)))
  }

  // ── Readdir ───────────────────────────────────────────────────────────────

  function ChildDirents(t: seq<Inode>, links: seq<Link>, cookie: nat): seq<Dirent<nat>>
    requires forall k :: 0 <= k < |links| ==> links[k].ino < |t|
    decreases |links|
  {
    if links == [] then []
    else
      var i := links[0].ino;
      [Dirent(Qid(t[i].isDir, i), cookie, t[i].isDir, links[0].name)] + ChildDirents(t, links[1..], cookie + 1)
  }

  /** The entries of a directory, with the two synthetic ones first. */
  function Dirents(t: seq<Inode>, dir: nat): seq<Dirent<nat>>
    requires Tree(t) && dir < |t| && t[dir].isDir
  {
    assert NodeOk(t, dir);
    [Dirent(Qid(true, dir), 1, true, DOT), Dirent(Qid(true, t[dir].parent), 2, true, DOTDOT)]
    + ChildDirents(t, t[dir].children, 3)
  }

  /** The entries past the cookie, as many as fit. */
  function Fitting<P>(entries: seq<Dirent<P>>, offset: nat, room: int): seq<Dirent<P>> {
    if entries == [] then []
    else if entries[0].cookie <= offset then Fitting(entries[1..], offset, room)
    else if 24 + |entries[0].name| > room then []
    else [entries[0]] + Fitting(entries[1..], offset, room - 24 - |entries[0].name|)
  }

  // ── File contents ─────────────────────────────────────────────────────────

  function Resize(data: seq<byte>, n: nat): (r: seq<byte>)
    ensures |r| == n
  {
    if n <= |data| then data[..n] else data + Zeros(n - |data|)
  }

  function Overwrite(data: seq<byte>, offset: nat, bytes: seq<byte>): (r: seq<byte>)
    ensures |r| == if offset + |bytes| > |data| then offset + |bytes| else |data|
  {
    var d := if offset + |bytes| > |data| then Resize(data, offset + |bytes|) else data;
    d[..offset] + bytes + d[offset + |bytes|..]
  }

  function Size(node: Inode): nat {
    if node.loaded || node.isDir then |node.data| else node.size
  }

  function Mode(node: Inode): nat { node.perm + (if node.isDir then 0x4000 else 0x8000) }

  /** Byte `k` of a file that reads as zeros where nothing was written. */
  function ByteOf(data: seq<byte>, k: nat): byte { if k < |data| then data[k] else 0 }

  /** A write changes exactly the bytes it covers; a gap before it reads as zeros. */
  lemma OverwrittenByte(data: seq<byte>, offset: nat, bytes: seq<byte>, k: nat)
    ensures ByteOf(Overwrite(data, offset, bytes), k)
         == if offset <= k < offset + |bytes| then bytes[k - offset] else ByteOf(data, k)
  {}

  /** Changing the size keeps every byte below the new size, and a gap reads as zeros. */
  lemma ResizedByte(data: seq<byte>, n: nat, k: nat)
    requires k < n
    ensures ByteOf(Resize(data, n), k) == ByteOf(data, k)
  {}

  // ── Changes to the tree ───────────────────────────────────────────────────

  /** Record a change for write-back; the root has no path to record. */
  function Mark(s: Server, path: Path, op: Op): (s': Server)
    ensures s'.tree == s.tree && s'.fids == s.fids && s'.lazy == s.lazy
  {
    if s.lazy && Join(path) != [] then s.(changes := s.changes[Join(path) := op]) else s
  }

  /** Link a new inode under `dir`; the caller's outcome says where it went. */
  function Create(s: Server, dir: nat, name: Name, node: Inode, op: Op): (s': Server)
    requires Valid(s) && dir < |s.tree| && s.tree[dir].isDir && Find(s.tree[dir].children, name).None?
    requires node.parent == dir && node.children == []
    ensures Valid(s') && s'.tree == Attach(s.tree, dir, name, node) && s'.fids == s.fids && s'.lazy == s.lazy
  {
    AttachKeepsTree(s.tree, dir, name, node);
    var t := Attach(s.tree, dir, name, node);
    Mark(s.(tree := t), PathOf(t, |s.tree|), op)
  }

  function DoCreate(s: Server, m: Msg): (r: (Server, Outcome))
    requires Valid(s) && (m.Lcreate? || m.Mkdir?)
    ensures Valid(r.0)
  {
    if m.fid !in s.fids then (s, Answer(RError(EBADF)))
    else
      var dir := s.fids[m.fid];
      if !s.tree[dir].isDir then (s, Answer(RError(ENOTDIR)))
      else if Find(s.tree[dir].children, m.name).Some? then (s, Answer(RError(EEXIST)))
      else if m.Mkdir? then
        (Create(s, dir, m.name, Directory(dir, true), Made), Answer(RMkdir(Qid(true, |s.tree|))))
      else
        var s' := Create(s, dir, m.name, File(dir, []).(perm := m.mode % 512), Written);
        (s'.(fids := s'.fids[m.fid := |s.tree|]), Answer(RLcreate(Qid(false, |s.tree|))))
  }

  /** Replace one inode by another of the same shape. */
  function Revise(s: Server, ino: nat, node: Inode): (s': Server)
    requires Valid(s) && ino < |s.tree|
    requires node.children == s.tree[ino].children && node.parent == s.tree[ino].parent
    requires node.isDir == s.tree[ino].isDir
    ensures Valid(s') && s'.tree == s.tree[ino := node] && SameShape(s.tree, s'.tree)
    ensures s' == s.(tree := s'.tree)
  {
    var t := s.tree[ino := node];
    SameShapeKeepsTree(s.tree, t);
    s.(tree := t)
  }

  function DoWrite(s: Server, fid: nat, offset: nat, data: seq<byte>): (r: (Server, Outcome))
    requires Valid(s)
    ensures Valid(r.0)
  {
    if fid !in s.fids then (s, Answer(RError(EBADF)))
    else
      var ino := s.fids[fid];
      var node := s.tree[ino];
      if node.isDir then (s, Answer(RError(EISDIR)))
      else
        var bytes := Overwrite(node.data, offset, data);
        var s' := Revise(s, ino, node.(data := bytes, loaded := true, size := |bytes|));
        (Mark(s', PathOf(s'.tree, ino), Written), Answer(RWrite(|data|)))
  }

  function DoSetattr(s: Server, fid: nat, valid: nat, mode: nat, size: nat): (r: (Server, Outcome))
    requires Valid(s)
    ensures Valid(r.0)
  {
    if fid !in s.fids then (s, Answer(RError(EBADF)))
    else
      var ino := s.fids[fid];
      var node := s.tree[ino];
      var chmod := if valid % 2 == 1 then node.(perm := mode % 512) else node;
      if valid / 8 % 2 == 1 then
        var s' := Revise(s, ino, chmod.(data := Resize(node.data, size), size := size));
        (Mark(s', PathOf(s'.tree, ino), Written), Answer(RDone))
      else (Revise(s, ino, chmod), Answer(RDone))
  }

  /** Drop every link from `dir` to `target`, unless `target` is a directory with entries. */
  function Unlink(s: Server, dir: nat, target: nat): (r: Option<Server>)
    requires Valid(s) && dir < |s.tree| && target < |s.tree|
    ensures r.Some? ==> Valid(r.value) && r.value == s.(tree := Detach(s.tree, dir, target))
  {
    if s.tree[target].isDir && s.tree[target].children != [] then None
    else
      DetachKeepsTree(s.tree, dir, target);
      Some(s.(tree := Detach(s.tree, dir, target)))
  }

  function DoRemove(s: Server, fid: nat): (r: (Server, Outcome))
    requires Valid(s)
    ensures Valid(r.0)
  {
    if fid !in s.fids then (s, Answer(RError(EBADF)))
    else
      var ino := s.fids[fid];
      assert NodeOk(s.tree, ino);
      match Unlink(s, s.tree[ino].parent, ino)
      case None => (s, Answer(RError(ENOTEMPTY)))
      case Some(s') => (Mark(s'.(fids := s'.fids - {fid}), PathOf(s.tree, ino), Deleted), Answer(RDone))
  }

  function DoUnlinkat(s: Server, fid: nat, name: Name): (r: (Server, Outcome))
    requires Valid(s)
    ensures Valid(r.0)
  {
    if fid !in s.fids then (s, Answer(RError(EBADF)))
    else
      var dir := s.fids[fid];
      match Find(s.tree[dir].children, name)
      case None => (s, Answer(RError(ENOENT)))
      case Some(target) =>
        assert NodeOk(s.tree, dir);
        match Unlink(s, dir, target)
        case None => (s, Answer(RError(ENOTEMPTY)))
        case Some(s') => (Mark(s', PathOf(s.tree, target), Deleted), Answer(RDone))
  }

  // ── Every message ─────────────────────────────────────────────────────────

  /** Messages that look at one inode through a fid. */
  function Inspect(s: Server, m: Msg): Outcome
    requires Valid(s) && (m.Getattr? || m.Lopen? || m.Read? || m.Readdir?)
  {
    if m.fid !in s.fids then Answer(RError(EBADF))
    else
      var ino := s.fids[m.fid];
      var node := s.tree[ino];
      match m
      case Lopen(_) => Answer(RLopen(Qid(node.isDir, ino)))
      case Getattr(_) =>
        Answer(RGetattr(Qid(node.isDir, ino), Mode(node), if node.isDir then 2 else 1, Size(node),
                        (Size(node) + 511) / 512))
      case Read(_, offset, count) =>
        if node.isDir then Answer(RError(EISDIR))
        else if s.lazy && !node.loaded then Fetch(Contents, ino)
        else Answer(RRead(Slice(node.data, offset, count)))
      case Readdir(_, offset, count) =>
        if !node.isDir then Answer(RError(ENOTDIR))
        else if s.lazy && !node.loaded then Fetch(Listing, ino)
        else Answer(RReaddir(Fitting(Dirents(s.tree, ino), offset, count)))
  }

  /** One message. Every message keeps the tree invariant and every fid in range. */
  function Handle(s: Server, m: Msg): (r: (Server, Outcome))
    requires Valid(s)
    ensures Valid(r.0)
  {
    match m
    case Version(msize, dialect) =>
      var agreed := if msize < MSIZE_MAX then msize else MSIZE_MAX;
      (s.(msize := agreed, fids := map[]), Answer(RVersion(agreed, dialect == DIALECT)))
    case AttachRoot(fid) => (s.(fids := s.fids[fid := 0]), Answer(RAttach(Qid(s.tree[0].isDir, 0))))
    case Walk(fid, newfid, count, names) => DoWalk(s, fid, newfid, count, names)
    case Getattr(_) => (s, Inspect(s, m))
    case Lopen(_) => (s, Inspect(s, m))
    case Lcreate(_, _, _) => DoCreate(s, m)
    case Mkdir(_, _) => DoCreate(s, m)
    case Read(_, _, _) => (s, Inspect(s, m))
    case Write(fid, offset, data) => DoWrite(s, fid, offset, data)
    case Readdir(_, _, _) => (s, Inspect(s, m))
    case Setattr(fid, valid, mode, size) => DoSetattr(s, fid, valid, mode, size)
    case Clunk(fid) => (s.(fids := s.fids - {fid}), Answer(RDone))
    case Remove(fid) => DoRemove(s, fid)
    case Unlinkat(fid, name) => DoUnlinkat(s, fid, name)
    case Statfs => (s, Answer(RStatfs(|s.tree|)))
    case Fsync => (s, Answer(RDone))
    case Flush => (s, Answer(RDone))
    case Xattrwalk => (s, Answer(RXattrwalk))
    case Malformed => (s, Answer(RError(EINVAL)))
    case Unsupported => (s, Answer(RError(ENOSYS)))
  }

  /** A message that has to wait for the host changes nothing, and waits only for what is missing. */
  lemma DeferringChangesNothing(s: Server, m: Msg)
    requires Valid(s) && Handle(s, m).1.Fetch?
    ensures Handle(s, m).0 == s && s.lazy && Handle(s, m).1.target < |s.tree|
    ensures !s.tree[Handle(s, m).1.target].loaded
    ensures s.tree[Handle(s, m).1.target].isDir <==> Handle(s, m).1.need.Listing?
  {}

  // ── Answers from the host ─────────────────────────────────────────────────

  /** One record of a host listing. */
  datatype Record = Record(name: Name, isDir: bool, size: nat)

  predicate RecordOk(r: Record) { |r.name| < 0x1_0000 && IsUtf8(r.name) && r.size < 0x1_0000_0000_0000_0000 }

  function RecordBytes(r: Record): seq<byte>
    requires RecordOk(r)
  {
    Le(|r.name|, 2) + r.name + [if r.isDir then 1 else 0] + Le(r.size, 8)
  }

  function ListingBytes(records: seq<Record>): seq<byte>
    requires forall k :: 0 <= k < |records| ==> RecordOk(records[k])
  {
    if records == [] then [] else RecordBytes(records[0]) + ListingBytes(records[1..])
  }

  /** The record at the front of a listing, and how long it is; none if it is cut off or its name is not
      UTF-8. */
  function ReadRecord(payload: seq<byte>): Option<(Record, nat)> {
    if |payload| < 2 then None
    else
      var n := FromLe(payload[..2]);
      if 2 + n + 9 > |payload| || !IsUtf8(payload[2..2 + n]) then None
      else Some((Record(payload[2..2 + n], payload[2 + n] % 2 == 1, FromLe(payload[2 + n + 1..2 + n + 9])), 2 + n + 9))
  }

  /** A read of what was just written gives it back, whatever the file held and wherever it was put. */
  lemma ReadAfterWrite(s: Server, fid: nat, offset: nat, data: seq<byte>)
    requires Valid(s) && fid in s.fids && !s.tree[s.fids[fid]].isDir
    ensures var s' := Handle(s, Write(fid, offset, data)).0;
      Handle(s', Read(fid, offset, |data|)) == (s', Answer(RRead(data)))
  {
    hide PathOf, Join, Tree;
    var node := s.tree[s.fids[fid]];
    var bytes := Overwrite(node.data, offset, data);
    assert Slice(bytes, offset, |data|) == data;
  }

  /** A listed name becomes an unloaded stub unless it is reserved or already there. */
  function AddStub(t: seq<Inode>, dir: nat, r: Record): (t': seq<Inode>)
    requires Tree(t) && dir < |t| && t[dir].isDir
    ensures Tree(t') && |t| <= |t'| && t'[dir].isDir
  {
    if r.name == [] || r.name == DOT || r.name == DOTDOT || Find(t[dir].children, r.name).Some? then t
    else
      var node := if r.isDir then Directory(dir, false) else StubFile(dir, r.size);
      AttachKeepsTree(t, dir, r.name, node);
      Attach(t, dir, r.name, node)
  }

  function AddStubs(t: seq<Inode>, dir: nat, records: seq<Record>): (t': seq<Inode>)
    requires Tree(t) && dir < |t| && t[dir].isDir
    ensures Tree(t') && |t| <= |t'| && t'[dir].isDir
    decreases |records|
  {
    if records == [] then t else AddStubs(AddStub(t, dir, records[0]), dir, records[1..])
  }

  function Records(payload: seq<byte>): seq<Record>
    decreases |payload|
  {
    match ReadRecord(payload)
    case None => []
    case Some((r, n)) => [r] + Records(payload[n..])
  }

  /** Put what the host delivered where the waiting message needs it. */
  function Deliver(s: Server, need: Need, target: nat, payload: seq<byte>): (s': Server)
    requires Valid(s) && target < |s.tree| && (need.Listing? ==> s.tree[target].isDir)
    ensures Valid(s') && |s.tree| <= |s'.tree| && s'.lazy == s.lazy
  {
    match need
    case Contents => Revise(s, target, s.tree[target].(data := payload, size := |payload|, loaded := true))
    case Listing =>
      var t := AddStubs(s.tree, target, Records(payload));
      var s' := s.(tree := t);
      Revise(s', target, t[target].(loaded := true))
  }
}
