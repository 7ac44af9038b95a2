/**
 * Whole sessions with a client that waits for each reply: a folder served on demand is
 * indistinguishable from a seeded copy of it.
 */
module NinepSession {
  import opened Bytes
  import opened NinepTree
  import opened NinepServer
  import opened NinepHost
  import opened NinepLazy
  import opened NinepPark
  import opened NinepDevice
  import opened NinepSeed

  // ── A client that waits for each reply ────────────────────────────────────

  /** The device, idle and standing for the host's folder. */
  ghost predicate Idle(dev: Device, loc: seq<Path>, host: HostNode)
    reads dev
  {
    && dev.Ok() && dev.held == [] && dev.requests == []
    && Represents(dev.tree, loc, host) && Ready(dev.Value())
  }

  /** The only parked request is `m`, and the host has been asked for what it needs. */
  ghost predicate Waiting(dev: Device, at: Ticket, m: Msg)
    reads dev
  {
    && dev.Ok() && Handle(dev.Value(), m).1.Fetch?
    && var f := Handle(dev.Value(), m).1;
      && f.target < |dev.tree| && |dev.held| == 1 && |dev.requests| == 1
      && dev.held[0] == Held(dev.held[0].id, at, m, f.need, f.target)
      && dev.requests[0] == HostReq(dev.held[0].id, f.need, Join(PathOf(dev.tree, f.target)))
  }

  /** After `m` ran on server `s`: answered with nothing parked, or waiting with nothing changed. */
  ghost predicate Ran(dev: Device, s: Server, at: Ticket, m: Msg, r: Option<Reply<nat>>)
    reads dev
  {
    && Valid(s) && (r.None? <==> Handle(s, m).1.Fetch?)
    && (r.None? ==> dev.Value() == s && Waiting(dev, at, m))
    && (r.Some? ==> dev.Value() == Handle(s, m).0 && r.value == Handle(s, m).1.reply)
    && (r.Some? ==> dev.Ok() && dev.held == [] && dev.requests == [])
  }

  method Begin(dev: Device, at: Ticket, m: Msg) returns (r: Option<Reply<nat>>)
    requires dev.Ok() && dev.held == [] && dev.requests == []
    modifies dev
    ensures Ran(dev, old(dev.Value()), at, m, r)
  {
    hide Handle, Tree, PathOf, Join;
    r := dev.Receive(at, m);
    if r.None? {
      DeferringChangesNothing(old(dev.Value()), m);
    }
  }

  /** Fetch what the parked message needs and deliver it. */
  method Serve(dev: Device, host: HostNode, at: Ticket, m: Msg) returns (r: Option<Reply<nat>>)
    requires Waiting(dev, at, m) && HostOk(host)
    modifies dev
    ensures Ran(dev, Served(old(dev.Value()), host, m), at, m, r)
  {
    hide Handle, Tree, PathOf, Join, Deliver, Payload;
    ghost var s := dev.Value();
    var reqs := dev.TakeRequests();
    var payload := Payload(host, reqs[0].need, reqs[0].path);
    assert dev.held[..0] + dev.held[1..] == [];
    assert Position(dev.held, reqs[0].id) == Some(0);
    var done := dev.Accept(reqs[0].id, payload);
    r := match done { case None => None case Some((_, a)) => Some(a) };
    if r.None? {
      DeferringChangesNothing(Served(s, host, m), m);
    }
  }

  /** One message to completion, the host answering honestly whenever the device asks: the reply is
      the reference's reply, and the host is asked at most once for each name of a walk. */
  method Converse(dev: Device, host: HostNode, ghost loc: seq<Path>, at: Ticket, m: Msg)
    returns (reply: Reply<nat>, asked: nat, ghost loc': seq<Path>)
    requires Idle(dev, loc, host) && HostOk(host) && ReadOnly(m)
    modifies dev
    ensures Idle(dev, loc', host) && loc <= loc' && dev.lazy == old(dev.lazy)
    ensures host.HostDir? && SessionOk(host, SessionOf(old(dev.Value()), loc))
    ensures HostHandle(host, SessionOf(old(dev.Value()), loc), m)
         == (SessionOf(dev.Value(), loc'), ReplyOn(reply, loc'))
    ensures Within(reply, |loc'|) && asked <= Deliveries(m) && (!dev.lazy ==> asked == 0)
  {
    hide Handle, Represents, Valid, Tree, PathOf, HostHandle, ReplyOn, Served, Waiting, SessionOf;
    loc' := loc;
    asked := 0;
    ghost var first := dev.Value();
    ghost var s := first;
    var r := Begin(dev, at, m);
    while r.None?
      invariant Ran(dev, s, at, m, r) && Represents(s.tree, loc', host) && Ready(s) && loc <= loc'
      invariant SessionOf(s, loc') == SessionOf(first, loc) && s.lazy == first.lazy
      invariant asked <= if r.None? then Depth(s, m) else Deliveries(m)
      invariant !s.lazy ==> asked == 0
      decreases r.None?, if r.None? then Deliveries(m) - Depth(s, m) else 0
    {
      DeliveryGoesDeeper(s, host, m);
      DeferringChangesNothing(s, m);
      loc' := DeliveryRepresents(s, loc', host, m);
      r := Serve(dev, host, at, m);
      s := Served(s, host, m);
      asked := asked + 1;
    }
    reply := r.value;
    HandleAgrees(s, loc', host, m);
    AnswersWithin(s, m);
    Lengths(s.tree, loc', host);
  }

  /** No two inode numbers stand for the same host path. */
  ghost predicate Renumbering(loc: seq<Path>) {
    forall i, j :: 0 <= i < j < |loc| ==> loc[i] != loc[j]
  }

  lemma IdleRenumbers(dev: Device, loc: seq<Path>, host: HostNode)
    requires Idle(dev, loc, host)
    ensures Renumbering(loc)
  {
    hide Represents;
    forall i, j | 0 <= i < j < |loc|
      ensures loc[i] != loc[j]
    {
      if loc[i] == loc[j] {
        Lengths(dev.tree, loc, host);
        PlacesAreDistinct(dev.tree, loc, host, i, j);
      }
    }
  }

  lemma Lengths(t: seq<Inode>, loc: seq<Path>, host: HostNode)
    requires Represents(t, loc, host)
    ensures |loc| == |t|
  {}

  /** One renumbering of inodes turns every reply of a session into the reference's reply. */
  ghost predicate SpeaksUnder(replies: seq<Reply<nat>>, expected: seq<Reply<Path>>, places: seq<Path>) {
    && |replies| == |expected| && Renumbering(places)
    && forall i :: 0 <= i < |replies| ==> Within(replies[i], |places|) && ReplyOn(replies[i], places) == expected[i]
  }

  ghost predicate Speaks(replies: seq<Reply<nat>>, expected: seq<Reply<Path>>) {
    exists places :: SpeaksUnder(replies, expected, places)
  }

  lemma SpeaksLonger(replies: seq<Reply<nat>>, expected: seq<Reply<Path>>, places: seq<Path>, places': seq<Path>)
    requires SpeaksUnder(replies, expected, places) && places <= places' && Renumbering(places')
    ensures SpeaksUnder(replies, expected, places')
  {
    forall i | 0 <= i < |replies|
      ensures Within(replies[i], |places'|) && ReplyOn(replies[i], places') == expected[i]
    {
      NumberingGrows(replies[i], places, places');
    }
  }

  lemma SpeaksMore(replies: seq<Reply<nat>>, expected: seq<Reply<Path>>, places: seq<Path>, r: Reply<nat>,
                   e: Reply<Path>)
    requires SpeaksUnder(replies, expected, places) && Within(r, |places|) && ReplyOn(r, places) == e
    ensures SpeaksUnder(replies + [r], expected + [e], places)
  {
    hide Within, ReplyOn, Renumbering;
  }

  /** A whole read-only session: the replies are the reference's, under one renumbering of inodes. */
  method Run(dev: Device, host: HostNode, ghost loc: seq<Path>, ms: seq<Msg>) returns (replies: seq<Reply<nat>>)
    requires Idle(dev, loc, host) && HostOk(host) && AllReadOnly(ms)
    modifies dev
    ensures host.HostDir? && SessionOk(host, SessionOf(old(dev.Value()), loc))
    ensures Speaks(replies, HostRun(host, SessionOf(old(dev.Value()), loc), ms))
  {
    hide Represents, Valid, ReplyOn, HostHandle, SessionOf, Renumbering, Within, SpeaksUnder;
    ghost var ses := SessionOf(dev.Value(), loc);
    assert host.HostDir? && SessionOk(host, ses) by { SessionIsOk(dev.Value(), loc, host); }
    replies := [];
    ghost var all := HostRun(host, ses, ms);
    ghost var now := loc;
    assert SpeaksUnder(replies, all[..0], now) by { NothingSpoken(dev, loc, host); }
    for k := 0 to |ms|
      invariant Idle(dev, now, host) && SpeaksUnder(replies, all[..k], now)
      invariant SessionOk(host, SessionOf(dev.Value(), now))
      invariant all[k..] == HostRun(host, SessionOf(dev.Value(), now), ms[k..])
    {
      assert ms[k..][0] == ms[k] && ms[k..][1..] == ms[k + 1..];
      var reply, _, next := Converse(dev, host, now, Ticket(k, []), ms[k]);
      IdleRenumbers(dev, next, host);
      assert all[k] == all[k..][0] && all[k + 1..] == all[k..][1..] && all[..k + 1] == all[..k] + [all[k]];
      SpeaksLonger(replies, all[..k], now, next);
      SpeaksMore(replies, all[..k], next, reply, all[k]);
      replies, now := replies + [reply], next;
    }
    assert all[..|ms|] == all;
  }

  lemma NothingSpoken(dev: Device, loc: seq<Path>, host: HostNode)
    requires Idle(dev, loc, host)
    ensures SpeaksUnder([], [], loc)
  {
    hide Represents, Valid;
    IdleRenumbers(dev, loc, host);
  }

  /** The session of a client that has just connected. */
  const FRESH := Session(map[], 8192)

  /** A folder served on demand and a folder served from a copy give the replies of a server that reads
      the folder itself, each under one renumbering of its own. */
  method LazyEqualsSeeded(onDemand: Device, seeded: Device, host: HostNode, ghost locA: seq<Path>,
                          ghost locB: seq<Path>,
                          ms: seq<Msg>)
    returns (a: seq<Reply<nat>>, b: seq<Reply<nat>>)
    requires onDemand != seeded && onDemand.lazy && !seeded.lazy
    requires Idle(onDemand, locA, host) && Idle(seeded, locB, host) && HostOk(host) && AllReadOnly(ms)
    requires onDemand.fids == seeded.fids == map[] && onDemand.msize == seeded.msize == 8192
    modifies onDemand, seeded
    ensures host.HostDir? && SessionOk(host, FRESH)
    ensures Speaks(a, HostRun(host, FRESH, ms)) && Speaks(b, HostRun(host, FRESH, ms))
  {
    hide Represents, Valid, ReplyOn, HostRun, Speaks;
    assert SessionOf(onDemand.Value(), locA) == SessionOf(seeded.Value(), locB) == FRESH;
    a := Run(onDemand, host, locA, ms);
    b := Run(seeded, host, locB, ms);
  }

  /** An unlisted root stands for any folder. */
  lemma FreshLazyRepresents(host: HostNode)
    requires host.HostDir?
    ensures Represents([Directory(0, false)], [[]], host)
  {
    var t: seq<Inode> := [Directory(0, false)];
    assert NodeOk(t, 0);
  }

  /** From nothing: for every folder and every read-only session, a device that lists the folder on
      demand and one that was seeded with a copy give the replies of a server that reads the folder
      itself, each under one renumbering of its own. */
  method Compare(host: HostNode, ms: seq<Msg>) returns (a: seq<Reply<nat>>, b: seq<Reply<nat>>)
    requires HostOk(host) && host.HostDir? && AllReadOnly(ms)
    ensures SessionOk(host, FRESH)
    ensures Speaks(a, HostRun(host, FRESH, ms)) && Speaks(b, HostRun(host, FRESH, ms))
  {
    hide Represents, Seed, HostRun, Speaks;
    var onDemand := new Device(true);
    var seeded := new Device(false);
    seeded.SeedFrom([], host);
    FreshLazyRepresents(host);
    ghost var loc := SeedRepresents(host);
    RepresentsTree(seeded.tree, loc, host);
    a, b := LazyEqualsSeeded(onDemand, seeded, host, [[]], loc, ms);
  }

  lemma RepresentsTree(t: seq<Inode>, loc: seq<Path>, host: HostNode)
    requires Represents(t, loc, host)
    ensures Tree(t)
  {}
}
