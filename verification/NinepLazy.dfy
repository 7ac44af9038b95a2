/**
 * Serving a folder on demand: what the host delivers, what a delivery does to the tree, and why
 * waiting for deliveries ends.
 */
module NinepLazy {
  import opened Bytes
  import opened NinepTree
  import opened NinepServer
  import opened NinepHost

  // ── The host's deliveries ─────────────────────────────────────────────────

  function RecordOf(e: HostEntry): Record { Record(e.name, e.node.HostDir?, Size64(e.node)) }

  function RecordsOf(es: seq<HostEntry>): seq<Record> {
    seq(|es|, k requires 0 <= k < |es| => RecordOf(es[k]))
  }

  /** What an honest host sends for a request: the listing or the bytes at the path it names. */
  function Payload(host: HostNode, need: Need, path: seq<byte>): seq<byte>
    requires HostOk(host)
  {
    match Lookup(host, Split(path))
    case Some(HostDir(es)) =>
      if need.Listing? then
        LookupIsOk(host, Split(path));
        EntriesAreRecords(es);
        ListingBytes(RecordsOf(es))
      else []
    case Some(HostFile(data)) => if need.Contents? then data else []
    case None => []
  }

  lemma EntriesAreRecords(es: seq<HostEntry>)
    requires HostOk(HostDir(es))
    ensures forall k :: 0 <= k < |RecordsOf(es)| ==> RecordOk(RecordsOf(es)[k])
  {
    forall k | 0 <= k < |es|
      ensures RecordOk(RecordOf(es[k]))
    {
      assert EntryNameOk(es[k].name) && HostOk(es[k].node);
    }
  }

  lemma ReadRecordBack(r: Record, rest: seq<byte>)
    requires RecordOk(r)
    ensures ReadRecord(RecordBytes(r) + rest) == Some((r, |RecordBytes(r)|))
  {
    var b := RecordBytes(r) + rest;
    var n := |r.name|;
    Pow256Values();
    LeRoundTrip(n, 2);
    LeRoundTrip(r.size, 8);
    assert b[..2] == Le(n, 2);
    assert b[2..2 + n] == r.name;
    assert b[2 + n] == if r.isDir then 1 else 0;
    assert b[2 + n + 1..2 + n + 9] == Le(r.size, 8);
  }

  /** A printed record, byte by byte. */
  lemma RecordIsSpelled(r: Record)
    requires RecordOk(r)
    ensures var (b, n) := (RecordBytes(r), |r.name|);
      && |b| == n + 11 && b[0] == n % 256 && b[1] == n / 256 && b[2..n + 2] == r.name
      && b[n + 2] == (if r.isDir then 1 else 0)
      && forall k :: 0 <= k < 8 ==> b[n + 3 + k] == r.size / Pow256(k) % 256
  {
    var b, n := RecordBytes(r), |r.name|;
    Pow256Values();
    LeDigit(n, 2, 0);
    LeDigit(n, 2, 1);
    assert b[..2] == Le(n, 2);
    hide Le, Pow256;
    forall k | 0 <= k < 8
      ensures b[n + 3 + k] == r.size / Pow256(k) % 256
    {
      LeDigit(r.size, 8, k);
      assert b[n + 3 + k] == Le(r.size, 8)[k];
    }
  }

  /** A printed listing parses to its records. */
  lemma {:induction false} ListingRoundTrip(records: seq<Record>)
    requires forall k :: 0 <= k < |records| ==> RecordOk(records[k])
    ensures Records(ListingBytes(records)) == records
  {
    if records == [] {
      assert ReadRecord([]).None?;
    } else {
      var rest := ListingBytes(records[1..]);
      ReadRecordBack(records[0], rest);
      assert (RecordBytes(records[0]) + rest)[|RecordBytes(records[0])|..] == rest;
      ListingRoundTrip(records[1..]);
    }
  }

  // ── Trees under construction ──────────────────────────────────────────────

  /** A tree whose inode `i` shows the first `c[i]` entries of the host directory it stands for. */
  predicate Growing(t: seq<Inode>, loc: seq<Path>, host: HostNode, c: seq<nat>) {
    && Tree(t) && |loc| == |t| == |c|
    && (forall i :: 0 <= i < |t| ==> Describes(t, loc, host, i, c[i]))
    && (forall i :: 0 <= i < |t| ==> Hangs(t, loc, i))
  }

  /** The entry of directory `d` that is not shown yet, if there is one. */
  function NextEntry(loc: seq<Path>, host: HostNode, c: seq<nat>, d: nat): (r: Option<HostEntry>)
    requires d < |loc| == |c|
  {
    if IsDirAt(host, loc[d]) && c[d] < |Lookup(host, loc[d]).value.entries|
    then Some(Lookup(host, loc[d]).value.entries[c[d]])
    else None
  }

  lemma NextEntryIsNew(t: seq<Inode>, loc: seq<Path>, host: HostNode, c: seq<nat>, d: nat)
    requires Growing(t, loc, host, c) && HostOk(host) && d < |t| && NextEntry(loc, host, c, d).Some?
    ensures t[d].isDir && EntryNameOk(NextEntry(loc, host, c, d).value.name)
    ensures Find(t[d].children, NextEntry(loc, host, c, d).value.name).None?
    ensures Lookup(host, loc[d] + [NextEntry(loc, host, c, d).value.name])
         == Some(NextEntry(loc, host, c, d).value.node)
  {
    assert Describes(t, loc, host, d, c[d]);
    var es := Lookup(host, loc[d]).value.entries;
    LookupIsOk(host, loc[d]);
    assert EntryNameOk(es[c[d]].name);
    LookupChild(host, loc[d], es[c[d]].name);
    FindEntryAt(es, c[d]);
  }

  /** A new inode that describes entry `e` without showing anything below it. */
  predicate Fits(node: Inode, d: nat, e: HostEntry) {
    && node.parent == d && node.children == [] && node.isDir == e.node.HostDir?
    && (node.isDir ==> node.perm == 0x1ED && node.data == [])
    && (!node.isDir ==> node.perm == 0x1A4 && if node.loaded then node.data == e.node.data
      else node.size == |e.node.data|)
  }

  lemma AttachedHangs(t: seq<Inode>, loc: seq<Path>, d: nat, name: Name, node: Inode, t': seq<Inode>, loc': seq<Path>)
    requires Tree(t) && |loc| == |t| && d < |t| && t[d].isDir && Find(t[d].children, name).None?
    requires forall i :: 0 <= i < |t| ==> Hangs(t, loc, i)
    requires node.parent == d && t' == Attach(t, d, name, node) && loc' == loc + [loc[d] + [name]]
    ensures forall i :: 0 <= i < |t'| ==> Hangs(t', loc', i)
  {
    assert NodeOk(t, d);
    forall i | 0 <= i < |t'|
      ensures Hangs(t', loc', i)
    {
      NameOfAppended(t[d].children, Link(name, |t|), i);
      if i < |t| {
        assert Hangs(t, loc, i) && NodeOk(t, i);
      }
    }
  }

  lemma AttachedDescribes(t: seq<Inode>, loc: seq<Path>, host: HostNode, c: seq<nat>, d: nat, e: HostEntry, node: Inode,
                          t': seq<Inode>, loc': seq<Path>, i: nat)
    requires Growing(t, loc, host, c) && d < |t| && i <= |t| && NextEntry(loc, host, c, d) == Some(e)
    requires Lookup(host, loc[d] + [e.name]) == Some(e.node) && Fits(node, d, e)
    requires t' == Attach(t, d, e.name, node) && loc' == loc + [loc[d] + [e.name]]
    ensures Describes(t', loc', host, i, (c[d := c[d] + 1] + [0])[i])
  {
    hide Lookup, Hangs, Tree;
    if i < |t| {
      assert Describes(t, loc, host, i, c[i]);
      assert loc'[i] == loc[i] && loc'[|t|] == loc[d] + [e.name];
    }
  }

  /** Attaching the next entry of a directory shows one entry more. */
  lemma AttachGrows(t: seq<Inode>, loc: seq<Path>, host: HostNode, c: seq<nat>, d: nat, node: Inode)
    requires Growing(t, loc, host, c) && HostOk(host) && d < |t| && NextEntry(loc, host, c, d).Some?
    requires Fits(node, d, NextEntry(loc, host, c, d).value)
    ensures var name := NextEntry(loc, host, c, d).value.name;
      Growing(Attach(t, d, name, node), loc + [loc[d] + [name]], host, c[d := c[d] + 1] + [0])
  {
    hide Lookup, Hangs, Describes, NodeOk, Find;
    var e := NextEntry(loc, host, c, d).value;
    NextEntryIsNew(t, loc, host, c, d);
    var t', loc', c' := Attach(t, d, e.name, node), loc + [loc[d] + [e.name]], c[d := c[d] + 1] + [0];
    AttachKeepsTree(t, d, e.name, node);
    AttachedHangs(t, loc, d, e.name, node, t', loc');
    forall i | 0 <= i < |t'|
      ensures Describes(t', loc', host, i, c'[i])
    {
      AttachedDescribes(t, loc, host, c, d, e, node, t', loc', i);
    }
    assert Growing(t', loc', host, c');
  }

  /** The host paths of the stubs a listing adds. */
  function EntryPaths(dir: Path, es: seq<HostEntry>): seq<Path> {
    seq(|es|, k requires 0 <= k < |es| => dir + [es[k].name])
  }

  function Naught(n: nat): seq<nat> { seq(n, _ => 0) }

  lemma ShowsAtMost(t: seq<Inode>, loc: seq<Path>, host: HostNode, c: seq<nat>, d: nat, es: seq<HostEntry>)
    requires Growing(t, loc, host, c) && d < |t| && Lookup(host, loc[d]) == Some(HostDir(es))
    ensures c[d] <= |es| && t[d].isDir && Tree(t)
  {
    assert Describes(t, loc, host, d, c[d]);
  }

  /** A listed entry becomes a stub that shows it. */
  lemma StubGrows(t: seq<Inode>, loc: seq<Path>, host: HostNode, c: seq<nat>, d: nat, es: seq<HostEntry>)
    requires Growing(t, loc, host, c) && HostOk(host) && d < |t| && Lookup(host, loc[d]) == Some(HostDir(es))
      && c[d] < |es|
    ensures Tree(t) && t[d].isDir
    ensures Growing(AddStub(t, d, RecordOf(es[c[d]])), loc + [loc[d] + [es[c[d]].name]], host, c[d := c[d] + 1] + [0])
    ensures |AddStub(t, d, RecordOf(es[c[d]]))| == |t| + 1
  {
    hide Lookup, Describes, Hangs, NodeOk, Find;
    var e := es[c[d]];
    var node := if e.node.HostDir? then Directory(d, false) else StubFile(d, Size64(e.node));
    assert NextEntry(loc, host, c, d) == Some(e);
    NextEntryIsNew(t, loc, host, c, d);
    AttachGrows(t, loc, host, c, d, node);
  }

  /** A listing read to its end shows every entry of the directory. */
  lemma {:induction false} ListingGrows(t: seq<Inode>, loc: seq<Path>, host: HostNode, c: seq<nat>, d: nat, k: nat,
                                        es: seq<HostEntry>)
    requires Growing(t, loc, host, c) && HostOk(host) && d < |t| == |loc| == |c|
    requires Lookup(host, loc[d]) == Some(HostDir(es)) && c[d] == k
    ensures Tree(t) && k <= |es| && t[d].isDir
    ensures Growing(
      AddStubs(t, d, RecordsOf(es)[k..]), loc + EntryPaths(loc[d], es)[k..], host, c[d := |es|] + Naught(|es| - k))
    decreases |es| - k
  {
    hide Growing, Tree, Lookup, HostOk, AddStub;
    ShowsAtMost(t, loc, host, c, d, es);
    var records, paths := RecordsOf(es), EntryPaths(loc[d], es);
    if k < |es| {
      StubGrows(t, loc, host, c, d, es);
      var t', loc', c' := AddStub(t, d, records[k]), loc + [paths[k]], c[d := k + 1] + [0];
      ListingGrows(t', loc', host, c', d, k + 1, es);
      assert records[k..][0] == records[k] && records[k..][1..] == records[k + 1..];
      assert loc + paths[k..] == loc' + paths[k + 1..];
      assert c'[d := |es|] + Naught(|es| - (k + 1)) == c[d := |es|] + Naught(|es| - k);
    } else {
      assert loc + paths[k..] == loc && c[d := |es|] + Naught(0) == c;
    }
  }

  /** The counts of a tree that stands for the folder. */
  function Counts(t: seq<Inode>, loc: seq<Path>, host: HostNode): seq<nat>
    requires |t| == |loc|
  {
    seq(|t|, i requires 0 <= i < |t| => Shown(t, loc, host, i))
  }

  lemma RepresentsGrowing(t: seq<Inode>, loc: seq<Path>, host: HostNode)
    requires Represents(t, loc, host)
    ensures Growing(t, loc, host, Counts(t, loc, host))
  {
    hide Describes, Hangs, Shown, NodeOk;
    var c := Counts(t, loc, host);
    forall i | 0 <= i < |t|
      ensures Describes(t, loc, host, i, c[i])
    {
      assert c[i] == Shown(t, loc, host, i);
    }
  }

  /** Once every count is what a loaded or unloaded inode shows, the tree stands for the folder. */
  lemma GrownRepresents(t: seq<Inode>, t': seq<Inode>, loc: seq<Path>, host: HostNode, c: seq<nat>, d: nat)
    requires Growing(t, loc, host, c) && d < |t| && t[d].isDir && t' == t[d := t[d].(loaded := true)]
    requires forall i :: 0 <= i < |t| ==> c[i] == Shown(t', loc, host, i)
    ensures Represents(t', loc, host)
  {
    hide Lookup;
    SameShapeKeepsTree(t, t');
    forall i | 0 <= i < |t'|
      ensures Describes(t', loc, host, i, Shown(t', loc, host, i)) && Hangs(t', loc, i)
    {
      assert Describes(t, loc, host, i, c[i]) && Hangs(t, loc, i);
    }
  }

  /** An honest listing turns a tree that stands for the folder into another that does, with the
      listed directory loaded and no older inode renumbered. */
  lemma ListingRepresents(s: Server, loc: seq<Path>, host: HostNode, d: nat) returns (loc': seq<Path>)
    requires Valid(s) && Represents(s.tree, loc, host) && HostOk(host)
    requires d < |s.tree| && s.tree[d].isDir && !s.tree[d].loaded
    ensures var s' := Deliver(s, Listing, d, Payload(host, Listing, Join(PathOf(s.tree, d))));
      Represents(s'.tree, loc', host) && loc <= loc' && s'.tree[d].loaded
  {
    hide Describes, Hangs, NodeOk, Lookup, AddStubs, Records;
    PlaceIsPath(s.tree, loc, host, d);
    KindAgrees(s.tree, loc, host, d);
    LookupIsOk(host, loc[d]);
    SplitJoin(loc[d]);
    var es := Lookup(host, loc[d]).value.entries;
    EntriesAreRecords(es);
    ListingRoundTrip(RecordsOf(es));
    RepresentsGrowing(s.tree, loc, host);
    var c := Counts(s.tree, loc, host);
    ListingGrows(s.tree, loc, host, c, d, 0, es);
    assert RecordsOf(es)[0..] == RecordsOf(es);
    loc' := loc + EntryPaths(loc[d], es)[0..];
    var t := AddStubs(s.tree, d, RecordsOf(es));
    var t', c' := t[d := t[d].(loaded := true)], c[d := |es|] + Naught(|es|);
    StubsShowNothing(s.tree, loc, t', loc', c', host, d, es);
    GrownRepresents(t, t', loc', host, c', d);
  }

  /** After a listing, old inodes show what they did, the listed one everything, the stubs nothing. */
  lemma StubsShowNothing(t: seq<Inode>, loc: seq<Path>, t': seq<Inode>, loc': seq<Path>, c': seq<nat>, host: HostNode,
                         d: nat, es: seq<HostEntry>)
    requires Tree(t) && |loc| == |t| && d < |t| && t[d].isDir && Lookup(host, loc[d]) == Some(HostDir(es))
      && loc <= loc'
    requires var u := AddStubs(t, d, RecordsOf(es)); |u| == |loc'| && t' == u[d := u[d].(loaded := true)]
    requires |t'| == |t| + |es| && c' == Counts(t, loc, host)[d := |es|] + Naught(|es|)
    ensures forall i :: 0 <= i < |t'| ==> c'[i] == Shown(t', loc', host, i)
  {
    hide Lookup, AddStubs, NodeOk;
    AddStubsKeepsOthers(t, d, RecordsOf(es));
  }

  /** Honest bytes turn a tree that stands for the folder into another that does. */
  lemma ContentsRepresent(s: Server, loc: seq<Path>, host: HostNode, i: nat)
    requires Valid(s) && Represents(s.tree, loc, host) && HostOk(host)
    requires i < |s.tree| && !s.tree[i].isDir && !s.tree[i].loaded
    ensures var s' := Deliver(s, Contents, i, Payload(host, Contents, Join(PathOf(s.tree, i))));
      Represents(s'.tree, loc, host) && s'.tree[i].loaded
  {
    hide Lookup;
    PlaceIsPath(s.tree, loc, host, i);
    KindAgrees(s.tree, loc, host, i);
    LookupIsOk(host, loc[i]);
    SplitJoin(loc[i]);
    var t' := Deliver(s, Contents, i, Payload(host, Contents, Join(PathOf(s.tree, i)))).tree;
    forall j | 0 <= j < |t'|
      ensures Describes(t', loc, host, j, Shown(t', loc, host, j)) && Hangs(t', loc, j)
    {
      assert Describes(s.tree, loc, host, j, Shown(s.tree, loc, host, j)) && Hangs(s.tree, loc, j);
    }
  }

  // ── Waiting for the host ends ─────────────────────────────────────────────

  /** How many names of a waiting walk were matched before it met an unlisted directory. */
  function Depth(s: Server, m: Msg): nat
    requires Valid(s) && Handle(s, m).1.Fetch?
  {
    if m.Walk? then WalkFrom(s.tree, s.lazy, s.fids[m.fid], m.names, m.count, []).matched else 0
  }

  /** The most deliveries a message can need: one for each name of a walk, one to read or list. */
  function Deliveries(m: Msg): nat {
    if m.Walk? then |m.names| else if m.Read? || m.Readdir? then 1 else 0
  }

  /** Listing the directory a walk stopped at lets it match at least one more name. */
  lemma {:induction false} WalkAdvances(t: seq<Inode>, t': seq<Inode>, lazy: bool, d: nat, cur: nat, names: seq<Name>,
                                        count: nat, qids: seq<Qid<nat>>)
    requires Tree(t) && Tree(t') && cur < |t| <= |t'| && d < |t|
    requires forall i :: 0 <= i < |t| && i != d ==> t'[i] == t[i]
    requires t'[d].loaded && t'[d].isDir == t[d].isDir && t'[d].parent == t[d].parent
    requires WalkFrom(t, lazy, cur, names, count, qids).Unlisted?
    requires WalkFrom(t, lazy, cur, names, count, qids).dir == d
    ensures var (r, r') := (WalkFrom(t, lazy, cur, names, count, qids), WalkFrom(t', lazy, cur, names, count, qids));
      r'.Unlisted? ==> r.matched < r'.matched
    decreases |names|
  {
    hide NodeOk;
    if names[0] != DOTDOT && names[0] != DOT && Unknown(t, lazy, cur) {
    } else {
      assert Next(t', cur, names[0]) == Next(t, cur, names[0]);
      var i := Next(t, cur, names[0]).value;
      WalkAdvances(t, t', lazy, d, i, names[1..], count - 1, qids + [Qid(t[i].isDir, i)]);
    }
  }

  lemma {:induction false} AddStubsKeepsOthers(t: seq<Inode>, dir: nat, records: seq<Record>)
    requires Tree(t) && dir < |t| && t[dir].isDir
    ensures var t' := AddStubs(t, dir, records);
      && |t| <= |t'| && (forall i :: 0 <= i < |t| && i != dir ==> t'[i] == t[i])
      && (forall i :: |t| <= i < |t'| ==> !t'[i].loaded)
      && t'[dir].isDir && t'[dir].parent == t[dir].parent
    decreases |records|
  {
    hide NodeOk, Find;
    if records == [] {
    } else {
      AddStubsKeepsOthers(AddStub(t, dir, records[0]), dir, records[1..]);
    }
  }

  lemma ListingAdvances(s: Server, m: Msg, payload: seq<byte>)
    requires Valid(s) && m.Walk? && Handle(s, m).1.Fetch?
    ensures Handle(s, m).1.target < |s.tree| && s.tree[Handle(s, m).1.target].isDir
    ensures var s' := Deliver(s, Listing, Handle(s, m).1.target, payload);
      Handle(s', m).1.Fetch? ==> Depth(s, m) < Depth(s', m) < Deliveries(m)
  {
    hide NodeOk, AddStubs, Records, Inspect;
    var d := Handle(s, m).1.target;
    var s' := Deliver(s, Listing, d, payload);
    AddStubsKeepsOthers(s.tree, d, Records(payload));
    WalkAdvances(s.tree, s'.tree, s.lazy, d, s.fids[m.fid], m.names, m.count, []);
  }

  lemma SessionIsStable(s: Server, s': Server, loc: seq<Path>, loc': seq<Path>)
    requires s'.fids == s.fids && s'.msize == s.msize && loc <= loc'
    requires forall f :: f in s.fids ==> s.fids[f] < |loc|
    ensures SessionOf(s', loc') == SessionOf(s, loc)
  {
    assert SessionOf(s', loc').fids == SessionOf(s, loc).fids;
  }

  /** What the server becomes when the host honestly answers the message that waits. */
  function Served(s: Server, host: HostNode, m: Msg): Server
    requires Valid(s) && HostOk(host) && Handle(s, m).1.Fetch?
  {
    DeferringChangesNothing(s, m);
    var f := Handle(s, m).1;
    Deliver(s, f.need, f.target, Payload(host, f.need, Join(PathOf(s.tree, f.target))))
  }

  lemma WaitingMessages(s: Server, m: Msg)
    requires Valid(s) && Handle(s, m).1.Fetch?
    ensures m.Walk? || m.Read? || m.Readdir?
  {}

  lemma DeliveryGoesDeeper(s: Server, host: HostNode, m: Msg)
    requires Valid(s) && HostOk(host) && Handle(s, m).1.Fetch?
    ensures Depth(s, m) < Deliveries(m)
    ensures Handle(Served(s, host, m), m).1.Fetch? ==> Depth(s, m) < Depth(Served(s, host, m), m)
  {
    WaitingMessages(s, m);
    DeferringChangesNothing(s, m);
    hide NodeOk, AddStubs, Records, Payload, PathOf, Join;
    if m.Walk? {
      var f := Handle(s, m).1;
      ListingAdvances(s, m, Payload(host, f.need, Join(PathOf(s.tree, f.target))));
    }
  }

  /** Each honest delivery keeps the tree standing for the folder, and leaves the session alone. */
  lemma DeliveryRepresents(s: Server, loc: seq<Path>, host: HostNode, m: Msg) returns (loc': seq<Path>)
    requires Valid(s) && Represents(s.tree, loc, host) && HostOk(host) && Handle(s, m).1.Fetch?
    ensures var s' := Served(s, host, m);
      Represents(s'.tree, loc', host) && loc <= loc' && s'.lazy && SessionOf(s', loc') == SessionOf(s, loc)
  {
    DeferringChangesNothing(s, m);
    hide NodeOk, Describes, Hangs, AddStubs, Records, Payload, PathOf, Join, Handle;
    var f := Handle(s, m).1;
    if f.need.Contents? {
      ContentsRepresent(s, loc, host, f.target);
      loc' := loc;
    } else {
      loc' := ListingRepresents(s, loc, host, f.target);
    }
    SessionIsStable(s, Served(s, host, m), loc, loc');
  }
}
