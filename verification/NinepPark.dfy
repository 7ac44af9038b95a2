/**
 * Requests parked on the host: a message that cannot be answered yet waits under an id until the host
 * delivers what it needs, and is then run again.
 */
module NinepPark {
  import opened Bytes
  import opened NinepTree
  import opened NinepServer
  import opened GuestMemory

  /** Where an answer goes: the chain's head and its writable buffers. */
  datatype Ticket = Ticket(head: nat, writable: seq<Buf>)

  /** A parked request: the chain it came in on, the message to re-run, and what it waits for. */
  datatype Held = Held(id: nat, at: Ticket, msg: Msg, need: Need, target: nat)

  datatype HostReq = HostReq(id: nat, need: Need, path: seq<byte>)

  datatype Parking = Parking(held: seq<Held>, requests: seq<HostReq>, nextId: nat)

  /** Tables only grow, and an inode keeps its kind. */
  predicate Grows(t: seq<Inode>, t': seq<Inode>) {
    |t| <= |t'| && forall i :: 0 <= i < |t| ==> t'[i].isDir == t[i].isDir
  }

  predicate HeldOk(t: seq<Inode>, held: seq<Held>) {
    forall k :: 0 <= k < |held| ==>
      held[k].target < |t| && (held[k].need.Listing? ==> t[held[k].target].isDir)
  }

  lemma RemovalGrows(s: Server, m: Msg)
    requires Valid(s) && (m.Remove? || m.Unlinkat?)
    ensures Grows(s.tree, Handle(s, m).0.tree) && Handle(s, m).0.lazy == s.lazy
  {
    hide PathOf, Find, Mark, Without;
    if m.fid in s.fids {
      assert NodeOk(s.tree, s.fids[m.fid]);
    }
  }

  lemma CreationGrows(s: Server, m: Msg)
    requires Valid(s) && (m.Lcreate? || m.Mkdir?)
    ensures Grows(s.tree, Handle(s, m).0.tree) && Handle(s, m).0.lazy == s.lazy
  {
    hide NodeOk, PathOf, Find, Mark, Create;
  }

  lemma RevisionGrows(s: Server, m: Msg)
    requires Valid(s) && (m.Write? || m.Setattr?)
    ensures Grows(s.tree, Handle(s, m).0.tree) && Handle(s, m).0.lazy == s.lazy
  {
    hide NodeOk, PathOf, Mark, Overwrite, Resize;
  }

  lemma HandleGrows(s: Server, m: Msg)
    requires Valid(s)
    ensures Grows(s.tree, Handle(s, m).0.tree) && Handle(s, m).0.lazy == s.lazy
  {
    hide NodeOk, WalkFrom, Inspect;
    if m.Remove? || m.Unlinkat? {
      RemovalGrows(s, m);
    } else if m.Lcreate? || m.Mkdir? {
      CreationGrows(s, m);
    } else if m.Write? || m.Setattr? {
      RevisionGrows(s, m);
    }
  }

  lemma {:induction false} AddStubsGrows(t: seq<Inode>, dir: nat, records: seq<Record>)
    requires Tree(t) && dir < |t| && t[dir].isDir
    ensures Grows(t, AddStubs(t, dir, records))
    decreases |records|
  {
    hide NodeOk, Find;
    if records == [] {
    } else {
      AddStubsGrows(AddStub(t, dir, records[0]), dir, records[1..]);
    }
  }

  lemma DeliverGrows(s: Server, need: Need, target: nat, payload: seq<byte>)
    requires Valid(s) && target < |s.tree| && (need.Listing? ==> s.tree[target].isDir)
    ensures Grows(s.tree, Deliver(s, need, target, payload).tree)
  {
    hide NodeOk, AddStubs, Records;
    if need.Listing? {
      AddStubsGrows(s.tree, target, Records(payload));
    }
  }

  /** Park a message under a fresh id and ask the host for what it needs. */
  function Park(p: Parking, t: seq<Inode>, at: Ticket, m: Msg, need: Need, target: nat): Parking
    requires Tree(t) && target < |t|
  {
    Parking(
      p.held + [Held(p.nextId, at, m, need, target)],
      p.requests + [HostReq(p.nextId, need, Join(PathOf(t, target)))],
      (p.nextId + 1) % 0x1_0000_0000)
  }

  /** A message arriving on chain `at`: answered at once, or parked. */
  function Submit(s: Server, p: Parking, at: Ticket, m: Msg): (r: (Server, Parking, Option<Reply<nat>>))
    requires Valid(s) && HeldOk(s.tree, p.held)
    ensures Valid(r.0) && HeldOk(r.0.tree, r.1.held)
  {
    HandleGrows(s, m);
    match Handle(s, m)
    case (s', Answer(reply)) => (s', p, Some(reply))
    case (s', Fetch(need, target)) =>
      DeferringChangesNothing(s, m);
      (s', Park(p, s'.tree, at, m, need, target), None)
  }

  function Position(held: seq<Held>, id: nat): (r: Option<nat>)
    ensures r.Some? ==> r.value < |held| && held[r.value].id == id
    ensures r.None? <==> forall k :: 0 <= k < |held| ==> held[k].id != id
  {
    if held == [] then None
    else if held[0].id == id then Some(0)
    else
      assert forall k :: 0 < k < |held| ==> held[k] == held[1..][k - 1];
      match Position(held[1..], id) case None => None case Some(k) => Some(k + 1)
  }

  /** The host's answer to request `id`: unknown ids are ignored, the parked message is re-run, and
      either its chain completes or it is parked again. */
  function Supply(s: Server, p: Parking, id: nat,
                  payload: seq<byte>): (r: (Server, Parking, Option<(Ticket, Reply<nat>)>))
    requires Valid(s) && HeldOk(s.tree, p.held)
    ensures Valid(r.0) && HeldOk(r.0.tree, r.1.held)
  {
    match Position(p.held, id)
    case None => (s, p, None)
    case Some(k) =>
      var h := p.held[k];
      var s' := Deliver(s, h.need, h.target, payload);
      DeliverGrows(s, h.need, h.target, payload);
      match Submit(s', p.(held := p.held[..k] + p.held[k + 1..]), h.at, h.msg)
      case (s'', p', None) => (s'', p', None)
      case (s'', p', Some(reply)) => (s'', p', Some((h.at, reply)))
  }
}
