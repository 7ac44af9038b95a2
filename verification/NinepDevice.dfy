/**
 * The virtio-9p device: the server's handlers as they run on the device's own tables.
 */
module NinepDevice {
  import opened Bytes
  import opened NinepTree
  import opened NinepServer
  import opened NinepHost
  import opened NinepSeed
  import opened NinepWriteback
  import opened NinepPark

  class Device {
    var tree: seq<Inode>
    var fids: map<nat, nat>
    var msize: nat
    var lazy: bool
    var changes: map<seq<byte>, Op>
    var held: seq<Held>
    var requests: seq<HostReq>
    var nextId: nat

    ghost function Value(): Server
      reads this
    {
      Server(tree, fids, msize, lazy, changes)
    }

    ghost function Parked(): Parking
      reads this
    {
      Parking(held, requests, nextId)
    }

    ghost predicate Ok()
      reads this
    {
      Valid(Value()) && HeldOk(tree, held)
    }

    /** An empty folder: complete when seeded, unlisted when lazy. */
    constructor (onDemand: bool)
      ensures Ok() && lazy == onDemand && held == [] && changes == map[] && fids == map[]
      ensures tree == [Directory(0, !onDemand)] && requests == [] && nextId == 1 && msize == 8192
    {
      tree, fids, msize, lazy, changes := [Directory(0, !onDemand)], map[], 8192, onDemand, map[];
      held, requests, nextId := [], [], 1;
    }

    method Child(dir: nat, name: Name) returns (r: Option<nat>)
      requires dir < |tree|
      ensures r == Find(tree[dir].children, name)
    {
      var links := tree[dir].children;
      for k := 0 to |links|
        invariant Find(links, name) == Find(links[k..], name)
      {
        assert links[k..][1..] == links[k + 1..];
        if links[k].name == name {
          return Some(links[k].ino);
        }
      }
      return None;
    }

    method NameIn(dir: nat, ino: nat) returns (r: Option<Name>)
      requires dir < |tree|
      ensures r == NameOf(tree[dir].children, ino)
    {
      var links := tree[dir].children;
      for k := 0 to |links|
        invariant NameOf(links, ino) == NameOf(links[k..], ino)
      {
        assert links[k..][1..] == links[k + 1..];
        if links[k].ino == ino {
          return Some(links[k].name);
        }
      }
      return None;
    }

    /** The slash-separated path of an inode, collected on the way up to the root. */
    method PathString(ino: nat) returns (s: seq<byte>)
      requires Tree(tree) && ino < |tree|
      ensures s == Join(PathOf(tree, ino))
    {
      var cur: nat, parts: Path := ino, [];
      while cur != 0
        invariant cur < |tree| && PathOf(tree, ino) == PathOf(tree, cur) + parts
        decreases cur
      {
        assert NodeOk(tree, cur);
        var name := NameIn(tree[cur].parent, cur);
        if name.Some? {
          parts := [name.value] + parts;
        }
        cur := tree[cur].parent;
      }
      assert PathOf(tree, 0) + parts == parts;
      s := Join(parts);
    }

    method Resolve(path: seq<byte>) returns (r: Option<nat>)
      requires Tree(tree)
      ensures r == Follow(tree, 0, Split(path))
    {
      hide Follow, Split, Tree;
      var parts := Split(path);
      var cur := 0;
      FollowNothing(tree);
      for k := 0 to |parts|
        invariant cur < |tree| && Follow(tree, 0, parts[..k]) == Some(cur)
      {
        FollowOn(tree, parts, k);
        var next := Child(cur, parts[k]);
        if next.None? {
          MissingPrefix(tree, parts, k + 1);
          return None;
        }
        cur := next.value;
      }
      assert parts[..|parts|] == parts;
      r := Some(cur);
    }

    method Note(path: seq<byte>, op: Op)
      modifies this`changes
      ensures changes == if lazy && path != [] then old(changes)[path := op] else old(changes)
    {
      if lazy && path != [] {
        changes := changes[path := op];
      }
    }

    method WalkNames(start: nat, names: seq<Name>, count: nat) returns (r: Stop)
      requires Tree(tree) && start < |tree|
      ensures r == WalkFrom(tree, lazy, start, names, count, [])
    {
      var cur: nat, qids: seq<Qid<nat>> := start, [];
      for i := 0 to count
        invariant cur < |tree| && i <= |names|
        invariant WalkFrom(tree, lazy, start, names, count, [])
             == WalkFrom(tree, lazy, cur, names[i..], count - i, qids)
      {
        if i == |names| {
          return Truncated;
        }
        var name := names[i];
        assert names[i..][0] == name && names[i..][1..] == names[i + 1..];
        assert NodeOk(tree, cur);
        var next: nat;
        if name == DOTDOT {
          next := tree[cur].parent;
        } else if name == DOT {
          next := cur;
        } else {
          if lazy && tree[cur].isDir && !tree[cur].loaded {
            return Unlisted(cur, |qids|);
          }
          var child := Child(cur, name);
          if child.None? {
            return Stopped(cur, qids);
          }
          next := child.value;
        }
        assert Next(tree, cur, name) == Some(next);
        qids := qids + [Qid(tree[next].isDir, next)];
        cur := next;
      }
      r := Stopped(cur, qids);
    }

    method ReadEntries(dir: nat, offset: nat, count: nat) returns (r: seq<Dirent<nat>>)
      requires Tree(tree) && dir < |tree| && tree[dir].isDir
      ensures r == Fitting(Dirents(tree, dir), offset, count)
    {
      assert NodeOk(tree, dir);
      var all := [Dirent(Qid(true, dir), 1, true, DOT), Dirent(Qid(true, tree[dir].parent), 2, true, DOTDOT)];
      var links := tree[dir].children;
      for k := 0 to |links|
        invariant |all| == k + 2 && Dirents(tree, dir) == all + ChildDirents(tree, links[k..], k + 3)
      {
        var i := links[k].ino;
        assert links[k..][0] == links[k] && links[k..][1..] == links[k + 1..];
        all := all + [Dirent(Qid(tree[i].isDir, i), k + 3, tree[i].isDir, links[k].name)];
      }
      assert Dirents(tree, dir) == all;
      r := Fit(all, offset, count);
    }

    static method Fit(all: seq<Dirent<nat>>, offset: nat, count: nat) returns (r: seq<Dirent<nat>>)
      ensures r == Fitting(all, offset, count)
    {
      r := [];
      var used := 0;
      for i := 0 to |all|
        invariant Fitting(all, offset, count) == r + Fitting(all[i..], offset, count - used)
      {
        assert all[i..][0] == all[i] && all[i..][1..] == all[i + 1..];
        if all[i].cookie > offset {
          if used + 24 + |all[i].name| > count {
            return;
          }
          used := used + 24 + |all[i].name|;
          r := r + [all[i]];
        }
      }
    }

    method CreateNode(m: Msg) returns (o: Outcome)
      requires Ok() && (m.Lcreate? || m.Mkdir?)
      modifies this`tree, this`fids, this`changes
      ensures Value() == DoCreate(old(Value()), m).0 && o == DoCreate(old(Value()), m).1
    {
      if m.fid !in fids {
        return Answer(RError(EBADF));
      }
      var dir := fids[m.fid];
      if !tree[dir].isDir {
        return Answer(RError(ENOTDIR));
      }
      var existing := Child(dir, m.name);
      if existing.Some? {
        return Answer(RError(EEXIST));
      }
      var n := |tree|;
      var node := if m.Mkdir? then Directory(dir, true) else File(dir, []).(perm := m.mode % 512);
      AttachKeepsTree(tree, dir, m.name, node);
      tree := tree + [node];
      tree := tree[dir := tree[dir].(children := tree[dir].children + [Link(m.name, n)])];
      assert tree == Attach(old(tree), dir, m.name, node);
      if m.Lcreate? {
        fids := fids[m.fid := n];
      }
      var path := PathString(n);
      Note(path, if m.Mkdir? then Made else Written);
      o := Answer(if m.Mkdir? then RMkdir(Qid(true, n)) else RLcreate(Qid(false, n)));
    }

    method WriteFile(fid: nat, offset: nat, data: seq<byte>) returns (o: Outcome)
      requires Ok()
      modifies this`tree, this`changes
      ensures Value() == DoWrite(old(Value()), fid, offset, data).0 && o == DoWrite(old(Value()), fid, offset, data).1
    {
      if fid !in fids {
        return Answer(RError(EBADF));
      }
      var ino := fids[fid];
      var node := tree[ino];
      if node.isDir {
        return Answer(RError(EISDIR));
      }
      var end := offset + |data|;
      var bytes := node.data;
      if end > |bytes| {
        bytes := Resize(bytes, end);
      }
      bytes := bytes[..offset] + data + bytes[end..];
      ghost var s := Revise(Value(), ino, node.(data := bytes, loaded := true, size := |bytes|));
      tree := tree[ino := node.(data := bytes, loaded := true, size := |bytes|)];
      var path := PathString(ino);
      Note(path, Written);
      o := Answer(RWrite(|data|));
    }

    method SetAttributes(fid: nat, valid: nat, mode: nat, size: nat) returns (o: Outcome)
      requires Ok()
      modifies this`tree, this`changes
      ensures Value() == DoSetattr(old(Value()), fid, valid, mode, size).0
      ensures o == DoSetattr(old(Value()), fid, valid, mode, size).1
    {
      if fid !in fids {
        return Answer(RError(EBADF));
      }
      var ino := fids[fid];
      var node := tree[ino];
      if valid % 2 == 1 {
        node := node.(perm := mode % 512);
      }
      if valid / 8 % 2 == 1 {
        node := node.(data := Resize(node.data, size), size := size);
      }
      ghost var s := Revise(Value(), ino, node);
      tree := tree[ino := node];
      if valid / 8 % 2 == 1 {
        var path := PathString(ino);
        Note(path, Written);
      }
      o := Answer(RDone);
    }

    /** Drop the links from `dir` to `target`, refusing a directory that still has entries. */
    method UnlinkChild(dir: nat, target: nat) returns (done: bool)
      requires Ok() && dir < |tree| && target < |tree|
      modifies this`tree
      ensures done == Unlink(old(Value()), dir, target).Some?
      ensures tree == if done then Detach(old(tree), dir, target) else old(tree)
    {
      if tree[target].isDir && tree[target].children != [] {
        return false;
      }
      hide Without, NodeOk;
      var kept := Retain(tree[dir].children, target);
      tree := tree[dir := tree[dir].(children := kept)];
      done := true;
    }

    static method Retain(links: seq<Link>, target: nat) returns (kept: seq<Link>)
      ensures kept == Without(links, target)
    {
      kept := [];
      for k := 0 to |links|
        invariant kept == Without(links[..k], target)
      {
        assert links[..k + 1][..k] == links[..k] && links[..k + 1][k] == links[k];
        if links[k].ino != target {
          kept := kept + [links[k]];
        }
      }
      assert links[..|links|] == links;
    }

    method RemoveFid(fid: nat) returns (o: Outcome)
      requires Ok()
      modifies this`tree, this`fids, this`changes
      ensures Value() == DoRemove(old(Value()), fid).0 && o == DoRemove(old(Value()), fid).1
    {
      if fid !in fids {
        return Answer(RError(EBADF));
      }
      var ino := fids[fid];
      assert NodeOk(tree, ino);
      hide NodeOk, PathOf, Without, Join;
      var path := PathString(ino);
      var done := UnlinkChild(tree[ino].parent, ino);
      if !done {
        return Answer(RError(ENOTEMPTY));
      }
      fids := fids - {fid};
      Note(path, Deleted);
      o := Answer(RDone);
    }

    method RemoveName(fid: nat, name: Name) returns (o: Outcome)
      requires Ok()
      modifies this`tree, this`changes
      ensures Value() == DoUnlinkat(old(Value()), fid, name).0 && o == DoUnlinkat(old(Value()), fid, name).1
    {
      if fid !in fids {
        return Answer(RError(EBADF));
      }
      var dir := fids[fid];
      var target := Child(dir, name);
      if target.None? {
        return Answer(RError(ENOENT));
      }
      ChildInRange(tree, dir, name);
      hide NodeOk, PathOf, Without, Join, Find, Tree, Detach, Unlink;
      var path := PathString(target.value);
      var done := UnlinkChild(dir, target.value);
      if !done {
        return Answer(RError(ENOTEMPTY));
      }
      Note(path, Deleted);
      o := Answer(RDone);
    }

    method WalkFid(fid: nat, newfid: nat, count: nat, names: seq<Name>) returns (o: Outcome)
      requires Ok()
      modifies this`fids
      ensures Value() == DoWalk(old(Value()), fid, newfid, count, names).0
      ensures o == DoWalk(old(Value()), fid, newfid, count, names).1
    {
      if fid !in fids {
        return Answer(RError(EBADF));
      }
      var stop := WalkNames(fids[fid], names, count);
      match stop
      case Unlisted(dir, _) => o := Fetch(Listing, dir);
      case Truncated => o := Answer(RError(EINVAL));
      case Stopped(cur, qids) =>
        if |qids| == count {
          fids := fids[newfid := cur];
        } else if qids == [] {
          return Answer(RError(ENOENT));
        }
        o := Answer(RWalk(qids));
    }

    method InspectFid(m: Msg) returns (o: Outcome)
      requires Ok() && (m.Getattr? || m.Lopen? || m.Read? || m.Readdir?)
      ensures o == Inspect(Value(), m)
    {
      if m.fid !in fids {
        return Answer(RError(EBADF));
      }
      var ino := fids[m.fid];
      var node := tree[ino];
      match m
      case Lopen(_) => o := Answer(RLopen(Qid(node.isDir, ino)));
      case Getattr(_) =>
        var size := Size(node);
        o := Answer(RGetattr(Qid(node.isDir, ino), Mode(node), if node.isDir then 2 else 1, size, (size + 511) / 512));
      case Read(_, offset, count) =>
        if node.isDir {
          o := Answer(RError(EISDIR));
        } else if lazy && !node.loaded {
          o := Fetch(Contents, ino);
        } else {
          o := Answer(RRead(Slice(node.data, offset, count)));
        }
      case Readdir(_, offset, count) =>
        if !node.isDir {
          o := Answer(RError(ENOTDIR));
        } else if lazy && !node.loaded {
          o := Fetch(Listing, ino);
        } else {
          var entries := ReadEntries(ino, offset, count);
          o := Answer(RReaddir(entries));
        }
    }

    /** One message against the tree. */
    method HandleMsg(m: Msg) returns (o: Outcome)
      requires Ok()
      modifies this`tree, this`fids, this`changes, this`msize
      ensures Value() == Handle(old(Value()), m).0 && o == Handle(old(Value()), m).1
    {
      hide Inspect, DoWalk, DoCreate, DoWrite, DoSetattr, DoRemove, DoUnlinkat, NodeOk;
      o := Answer(RDone);
      match m
      case Version(size, dialect) =>
        msize := if size < MSIZE_MAX then size else MSIZE_MAX;
        fids := map[];
        o := Answer(RVersion(msize, dialect == DIALECT));
      case AttachRoot(fid) =>
        fids := fids[fid := 0];
        o := Answer(RAttach(Qid(tree[0].isDir, 0)));
      case Walk(fid, newfid, count, names) => o := WalkFid(fid, newfid, count, names);
      case Getattr(_) => o := InspectFid(m);
      case Lopen(_) => o := InspectFid(m);
      case Lcreate(_, _, _) => o := CreateNode(m);
      case Mkdir(_, _) => o := CreateNode(m);
      case Read(_, _, _) => o := InspectFid(m);
      case Write(fid, offset, data) => o := WriteFile(fid, offset, data);
      case Readdir(_, _, _) => o := InspectFid(m);
      case Setattr(fid, valid, mode, size) => o := SetAttributes(fid, valid, mode, size);
      case Clunk(fid) => fids := fids - {fid};
      case Remove(fid) => o := RemoveFid(fid);
      case Unlinkat(fid, name) => o := RemoveName(fid, name);
      case Statfs => o := Answer(RStatfs(|tree|));
      case Fsync =>
      case Flush =>
      case Xattrwalk => o := Answer(RXattrwalk);
      case Malformed => o := Answer(RError(EINVAL));
      case Unsupported => o := Answer(RError(ENOSYS));
    }

    /** Turn the records of a host listing into stubs, stopping at the first that does not fit or whose
        name is not UTF-8. */
    method ApplyListing(dir: nat, payload: seq<byte>)
      requires Tree(tree) && dir < |tree| && tree[dir].isDir
      modifies this`tree
      ensures tree == AddStubs(old(tree), dir, Records(payload))
    {
      hide NodeOk, AddStub, AddStubs, Records, IsUtf8;
      var p := 0;
      while p + 2 <= |payload|
        invariant p <= |payload| && Tree(tree) && dir < |tree| && tree[dir].isDir
        invariant AddStubs(old(tree), dir, Records(payload)) == AddStubs(tree, dir, Records(payload[p..]))
      {
        var n := FromLe(payload[p..p + 2]);
        ghost var rest := payload[p..];
        assert rest[..2] == payload[p..p + 2];
        if p + 2 + n + 9 > |payload| {
          ListingEnds(tree, dir, rest);
          return;
        }
        var name, flags := payload[p + 2..p + 2 + n], payload[p + 2 + n];
        assert rest[2..2 + n] == name;
        if !IsUtf8(name) {
          ListingEnds(tree, dir, rest);
          return;
        }
        var size := FromLe(payload[p + 2 + n + 1..p + 2 + n + 9]);
        ghost var r := Record(name, flags % 2 == 1, size);
        RecordAt(payload, p, n);
        StubsUnfold(tree, dir, r, Records(payload[p + 2 + n + 9..]));
        AddEntry(dir, name, flags % 2 == 1, size);
        p := p + 2 + n + 9;
      }
      ListingEnds(tree, dir, payload[p..]);
    }

    /** The requests to hand to the host. */
    method TakeRequests() returns (r: seq<HostReq>)
      modifies this`requests
      ensures r == old(requests) && requests == []
    {
      r, requests := requests, [];
    }

    /** A message from the guest on chain `at`; no reply means it was parked. */
    method Receive(at: Ticket, m: Msg) returns (r: Option<Reply<nat>>)
      requires Ok()
      modifies this
      ensures Value() == Submit(old(Value()), old(Parked()), at, m).0
      ensures Parked() == Submit(old(Value()), old(Parked()), at, m).1
      ensures r == Submit(old(Value()), old(Parked()), at, m).2
    {
      hide Handle, Tree, PathOf;
      HandleGrows(Value(), m);
      var o := HandleMsg(m);
      match o
      case Answer(reply) => r := Some(reply);
      case Fetch(need, target) =>
        DeferringChangesNothing(old(Value()), m);
        var path := PathString(target);
        requests := requests + [HostReq(nextId, need, path)];
        held := held + [Held(nextId, at, m, need, target)];
        nextId := (nextId + 1) % 0x1_0000_0000;
        r := None;
    }

    method Locate(id: nat) returns (r: Option<nat>)
      ensures r == Position(held, id)
    {
      for k := 0 to |held|
        invariant Position(held, id) == match Position(held[k..], id) { case None => None case Some(j) => Some(k + j) }
      {
        assert held[k..][1..] == held[k + 1..];
        if held[k].id == id {
          return Some(k);
        }
      }
      return None;
    }

    /** Put what the host sent into the tree. */
    method Fill(need: Need, target: nat, payload: seq<byte>)
      requires Ok() && target < |tree| && (need.Listing? ==> tree[target].isDir)
      modifies this`tree
      ensures Value() == Deliver(old(Value()), need, target, payload)
    {
      hide AddStubs, Records, NodeOk;
      if need.Listing? {
        ApplyListing(target, payload);
        tree := tree[target := tree[target].(loaded := true)];
      } else {
        tree := tree[target := tree[target].(data := payload, size := |payload|, loaded := true)];
      }
    }

    /** The host's answer to request `id`; a result names the chain that completes. */
    method Accept(id: nat, payload: seq<byte>) returns (r: Option<(Ticket, Reply<nat>)>)
      requires Ok()
      modifies this
      ensures Value() == Supply(old(Value()), old(Parked()), id, payload).0
      ensures Parked() == Supply(old(Value()), old(Parked()), id, payload).1
      ensures r == Supply(old(Value()), old(Parked()), id, payload).2
    {
      hide Deliver, Tree, Submit;
      var at := Locate(id);
      if at.None? {
        return None;
      }
      var h := held[at.value];
      DeliverGrows(Value(), h.need, h.target, payload);
      held := held[..at.value] + held[at.value + 1..];
      Fill(h.need, h.target, payload);
      var reply := Receive(h.at, h.msg);
      r := match reply { case None => None case Some(a) => Some((h.at, a)) };
    }

    method EnterOne(cur: nat, name: Name) returns (next: nat)
      requires Ranged(tree) && cur < |tree|
      modifies this`tree
      ensures tree == Enter(old(tree), cur, name).0 && next == Enter(old(tree), cur, name).1
    {
      var found := Child(cur, name);
      if found.Some? && tree[found.value].isDir {
        return found.value;
      }
      next := |tree|;
      tree := tree + [Directory(cur, true)];
      tree := tree[cur := tree[cur].(children := tree[cur].children + [Link(name, next)])];
    }

    /** Make each directory of the list in turn, and say where the last one is. */
    method EnterAll(parts: Path) returns (cur: nat)
      requires Ranged(tree) && |tree| > 0
      modifies this`tree
      ensures Ranged(tree) && (tree, cur) == Descend(old(tree), parts)
    {
      hide Enter, Ranged;
      cur := 0;
      for k := 0 to |parts|
        invariant Ranged(tree) && cur < |tree| && (tree, cur) == Descend(old(tree), parts[..k])
      {
        assert parts[..k + 1][..k] == parts[..k] && parts[..k + 1][k] == parts[k];
        cur := EnterOne(cur, parts[k]);
      }
      assert parts[..|parts|] == parts;
    }

    method MakeDirs(path: seq<byte>)
      requires Ranged(tree) && |tree| > 0
      modifies this`tree
      ensures tree == MkdirP(old(tree), path)
    {
      var _ := EnterAll(Split(path));
    }

    method Put(path: seq<byte>, data: seq<byte>)
      requires Ranged(tree) && |tree| > 0
      modifies this`tree
      ensures tree == PutFile(old(tree), path, data)
    {
      var parts := Split(path);
      if parts == [] {
        return;
      }
      var cur := EnterAll(parts[..|parts| - 1]);
      var leaf := parts[|parts| - 1];
      var found := Child(cur, leaf);
      if found.None? {
        var n := |tree|;
        tree := tree + [File(cur, data)];
        tree := tree[cur := tree[cur].(children := tree[cur].children + [Link(leaf, n)])];
      } else if !tree[found.value].isDir {
        tree := tree[found.value := tree[found.value].(data := data)];
      }
    }

    /** Every file below a directory, depth first. */
    method WalkDirectory(dir: nat, prefix: seq<byte>) returns (out: seq<(seq<byte>, seq<byte>)>)
      requires Tree(tree) && dir < |tree|
      ensures out == WalkFiles(tree, dir, 0, prefix)
      decreases |tree| - dir
    {
      hide WalkFiles, NodeOk;
      out := [];
      var links := tree[dir].children;
      for k := 0 to |links|
        invariant WalkFiles(tree, dir, 0, prefix) == out + WalkFiles(tree, dir, k, prefix)
      {
        WalkFilesUnfolds(tree, dir, k, prefix);
        var path := Below(prefix, links[k].name);
        var node := tree[links[k].ino];
        if node.isDir {
          var inner := WalkDirectory(links[k].ino, path);
          out := out + inner;
        } else {
          out := out + [(path, node.data)];
        }
      }
      NoMoreFiles(tree, dir, prefix);
    }

    /** Copy a host directory in: make its directories, put its files. */
    method SeedFrom(dir: Path, node: HostNode)
      requires Ranged(tree) && |tree| > 0 && node.HostDir?
      modifies this`tree
      ensures tree == Seed(old(tree), dir, node, 0)
      decreases node
    {
      hide MkdirP, PutFile, Ranged;
      for k := 0 to |node.entries|
        invariant Ranged(tree) && |tree| > 0
        invariant Seed(old(tree), dir, node, 0) == Seed(tree, dir, node, k)
      {
        var e := node.entries[k];
        var path := dir + [e.name];
        if e.node.HostDir? {
          MakeDirs(Join(path));
          SeedFrom(path, e.node);
        } else {
          Put(Join(path), e.node.data);
        }
      }
    }

    method TakeChange(key: seq<byte>) returns (out: seq<Change>)
      requires Ok() && key in changes
      ensures out == DrainOne(Value(), key)
    {
      if !changes[key].Written? {
        return [Change(changes[key], key, [])];
      }
      var at := Resolve(key);
      if at.Some? && !tree[at.value].isDir {
        return [Change(Written, key, tree[at.value].data)];
      }
      return [];
    }

    /** Hand over the recorded changes, in the given order of their paths, and forget them. */
    method TakeChanges(keys: seq<seq<byte>>) returns (out: seq<Change>)
      requires Ok() && Covers(keys, changes)
      modifies this`changes
      ensures out == Drain(old(Value()), keys) && changes == map[]
    {
      hide DrainOne, Valid;
      out := [];
      for k := 0 to |keys|
        invariant unchanged(this) && Drain(Value(), keys) == out + Drain(Value(), keys[k..])
      {
        assert keys[k..][0] == keys[k] && keys[k..][1..] == keys[k + 1..];
        var change := TakeChange(keys[k]);
        out := out + change;
      }
      changes := map[];
    }

    method AddEntry(dir: nat, name: Name, isDir: bool, size: nat)
      requires Tree(tree) && dir < |tree| && tree[dir].isDir
      modifies this`tree
      ensures tree == AddStub(old(tree), dir, Record(name, isDir, size))
    {
      var existing := Child(dir, name);
      if name != [] && name != DOT && name != DOTDOT && existing.None? {
        var k := |tree|;
        tree := tree + [if isDir then Directory(dir, false) else StubFile(dir, size)];
        tree := tree[dir := tree[dir].(children := tree[dir].children + [Link(name, k)])];
      }
    }
  }

  lemma FollowNothing(t: seq<Inode>)
    requires Tree(t)
    ensures |t| > 0 && Follow(t, 0, []) == Some(0)
  {}

  lemma FollowOn(t: seq<Inode>, path: Path, k: nat)
    requires Tree(t) && k < |path| && Follow(t, 0, path[..k]).Some?
    ensures Follow(t, 0, path[..k + 1]) == Find(t[Follow(t, 0, path[..k]).value].children, path[k])
  {
    assert path[..k + 1][..k] == path[..k];
  }

  lemma NoMoreFiles(t: seq<Inode>, dir: nat, prefix: seq<byte>)
    requires Tree(t) && dir < |t|
    ensures WalkFiles(t, dir, |t[dir].children|, prefix) == []
  {}

  lemma ChildInRange(t: seq<Inode>, dir: nat, name: Name)
    requires Tree(t) && dir < |t|
    ensures Find(t[dir].children, name).Some? ==> Find(t[dir].children, name).value < |t|
  {
    assert NodeOk(t, dir);
  }

  lemma ListingEnds(t: seq<Inode>, dir: nat, rest: seq<byte>)
    requires Tree(t) && dir < |t| && t[dir].isDir && ReadRecord(rest).None?
    ensures AddStubs(t, dir, Records(rest)) == t
  {}

  lemma RecordAt(payload: seq<byte>, p: nat, n: nat)
    requires p + 2 + n + 9 <= |payload| && n == FromLe(payload[p..p + 2]) && IsUtf8(payload[p + 2..p + 2 + n])
    ensures Records(payload[p..])
         == [Record(payload[p + 2..p + 2 + n], payload[p + 2 + n] % 2 == 1,
                    FromLe(payload[p + 2 + n + 1..p + 2 + n + 9]))]
            + Records(payload[p + 2 + n + 9..])
  {
    hide IsUtf8, FromLe;
    var rest := payload[p..];
    assert rest[..2] == payload[p..p + 2];
    assert rest[2..2 + n] == payload[p + 2..p + 2 + n];
    assert rest[2 + n + 1..2 + n + 9] == payload[p + 2 + n + 1..p + 2 + n + 9];
    assert rest[2 + n + 9..] == payload[p + 2 + n + 9..];
  }

  lemma StubsUnfold(t: seq<Inode>, dir: nat, r: Record, rest: seq<Record>)
    requires Tree(t) && dir < |t| && t[dir].isDir
    ensures AddStubs(t, dir, [r] + rest) == AddStubs(AddStub(t, dir, r), dir, rest)
  {
    assert ([r] + rest)[1..] == rest;
  }

  lemma {:induction false} MissingPrefix(t: seq<Inode>, path: Path, k: nat)
    requires Tree(t) && k <= |path| && Follow(t, 0, path[..k]).None?
    ensures Follow(t, 0, path).None?
    decreases |path| - k
  {
    if k == |path| {
      assert path[..k] == path;
    } else {
      assert path[..k + 1][..k] == path[..k];
      MissingPrefix(t, path, k + 1);
    }
  }
}
