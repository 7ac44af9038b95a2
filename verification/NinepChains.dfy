/**
 * The 9p device behind its transport: every chain it takes is answered once, or held under an id of
 * its own until the host's answer lets it complete.
 */
module NinepChains {
  import opened Bytes
  import opened GuestMemory
  import opened NinepServer
  import opened NinepPark
  import V = Virtqueue
  import C = DeviceClock
  import T = Transport
  import U = UsedRing

  datatype Nine = Nine(server: Server, parking: Parking)

  predicate NineOk(d: Nine) { Valid(d.server) && HeldOk(d.server.tree, d.parking.held) }

  /** The byte layout of messages and replies; the results below hold for any. */
  datatype Wire = Wire(parse: seq<byte> -> Msg, frame: Reply<nat> -> seq<byte>)

  /** Put a reply into a chain's writable buffers, as far as it fits. */
  function Respond(m: Mem, writable: seq<Buf>, reply: seq<byte>): (Mem, nat) {
    var n := Min(|reply|, SgLen(writable));
    (SgWrite(m, writable, 0, reply[..n]), n)
  }

  /** A chain from the guest. */
  function TakeChain(w: Wire, d: Nine, ch: Chain, m: Mem): V.Service<Nine> {
    if !NineOk(d) || SgLen(ch.readable) < 7 then V.Service(d, m, 0, false)
    else
      var msg := w.parse(SgRead(m, ch.readable, 0, SgLen(ch.readable)));
      match Submit(d.server, d.parking, Ticket(ch.head, ch.writable), msg)
      case (s, p, None) => V.Service(Nine(s, p), m, 0, true)
      case (s, p, Some(reply)) =>
        var (m', n) := Respond(m, ch.writable, w.frame(reply));
        V.Service(Nine(s, p), m', n, false)
  }

  /** An answer from the host. */
  function TakeAnswer(w: Wire, d: Nine, id: nat, payload: seq<byte>, m: Mem): T.Accepted<Nine> {
    if !NineOk(d) then T.Accepted(d, m, None)
    else
      match Supply(d.server, d.parking, id, payload)
      case (s, p, None) => T.Accepted(Nine(s, p), m, None)
      case (s, p, Some((at, reply))) =>
        var (m', n) := Respond(m, at.writable, w.frame(reply));
        T.Accepted(Nine(s, p), m', Some((0, at.head, n)))
  }

  function OnChain(w: Wire): (Nine, Chain, Mem) -> V.Service<Nine> {
    (d: Nine, ch: Chain, m: Mem) => TakeChain(w, d, ch, m)
  }

  function OnAnswer(w: Wire): (Nine, nat, seq<byte>, Mem) -> T.Accepted<Nine> {
    (d: Nine, id: nat, payload: seq<byte>, m: Mem) => TakeAnswer(w, d, id, payload, m)
  }

  // ── What the device holds ─────────────────────────────────────────────────

  function HeldHeads(held: seq<Held>): seq<nat> {
    seq(|held|, k requires 0 <= k < |held| => held[k].at.head)
  }

  ghost function Kept(d: Nine): multiset<nat> { multiset(HeldHeads(d.parking.held)) }

  lemma KeptOneMore(held: seq<Held>, h: Held)
    ensures multiset(HeldHeads(held + [h])) == multiset(HeldHeads(held)) + multiset{h.at.head}
  {
    assert HeldHeads(held + [h]) == HeldHeads(held) + [h.at.head];
  }

  lemma KeptOneLess(held: seq<Held>, k: nat)
    requires k < |held|
    ensures multiset(HeldHeads(held)) == multiset(HeldHeads(held[..k] + held[k + 1..])) + multiset{held[k].at.head}
  {
    var all := HeldHeads(held);
    assert HeldHeads(held[..k] + held[k + 1..]) == all[..k] + all[k + 1..];
    assert all == all[..k] + [all[k]] + all[k + 1..];
  }

  lemma SubmitKeeps(s: Server, p: Parking, at: Ticket, m: Msg)
    requires Valid(s) && HeldOk(s.tree, p.held)
    ensures var (s', p', reply) := Submit(s, p, at, m);
      multiset(HeldHeads(p'.held)) == multiset(HeldHeads(p.held)) + if reply.None? then multiset{at.head}
        else multiset{}
  {
    hide Handle, Valid;
    var (s', p', reply) := Submit(s, p, at, m);
    if reply.None? {
      KeptOneMore(p.held, p'.held[|p.held|]);
    }
  }

  lemma SupplyKeeps(s: Server, p: Parking, id: nat, payload: seq<byte>)
    requires Valid(s) && HeldOk(s.tree, p.held)
    ensures var (s', p', done) := Supply(s, p, id, payload);
      multiset(HeldHeads(p.held)) == multiset(HeldHeads(p'.held)) + if done.Some? then multiset{done.value.0.head}
        else multiset{}
  {
    hide Submit, Deliver, Valid;
    match Position(p.held, id)
    case None =>
    case Some(k) =>
      var h := p.held[k];
      KeptOneLess(p.held, k);
      DeliverGrows(s, h.need, h.target, payload);
      SubmitKeeps(Deliver(s, h.need, h.target, payload), p.(held := p.held[..k] + p.held[k + 1..]), h.at, h.msg);
  }

  lemma ChainsAreKept(w: Wire)
    ensures T.KeepsDeferred(OnChain(w), Kept)
    ensures T.GivesUpDone(OnAnswer(w), Kept)
  {
    hide Submit, Supply, Valid, HeldHeads, Respond;
    forall d, ch, m
      ensures var r := TakeChain(w, d, ch, m);
        Kept(r.dev) == Kept(d) + if r.deferred then multiset{ch.head} else multiset{}
    {
      if NineOk(d) && SgLen(ch.readable) >= 7 {
        var msg := w.parse(SgRead(m, ch.readable, 0, SgLen(ch.readable)));
        SubmitKeeps(d.server, d.parking, Ticket(ch.head, ch.writable), msg);
      }
    }
    forall d, id, payload, m
      ensures var r := TakeAnswer(w, d, id, payload, m);
        Kept(d) == Kept(r.dev) + if r.done.Some? then multiset{r.done.value.1} else multiset{}
    {
      if NineOk(d) {
        SupplyKeeps(d.server, d.parking, id, payload);
      }
    }
  }

  /** Over any run of kicks, time, flushes and answers from an idle slot, each chain that walked is in
      exactly one of three places: reported, pending, or held by the device. */
  lemma NoChainIsLost(w: Wire, st: T.State<Nine>, es: seq<T.Event>)
    requires C.SlotOk(st.slot) && st.dev.parking.held == [] && st.slot.pending == []
    ensures var (st', walked, reported) := T.Run(OnChain(w), OnAnswer(w), st, es);
      multiset(walked) == multiset(reported) + multiset(T.HeadsOf(st'.slot.pending)) + Kept(st'.dev)
  {
    hide T.Run, T.KeepsDeferred, T.GivesUpDone, OnChain, OnAnswer;
    ChainsAreKept(w);
    T.RunConserves(OnChain(w), OnAnswer(w), Kept, st, es);
    assert T.HeadsOf(st.slot.pending) == [] && HeldHeads(st.dev.parking.held) == [];
    var (st', walked, reported) := T.Run(OnChain(w), OnAnswer(w), st, es);
    Settled(multiset(walked), multiset(reported), multiset(T.HeadsOf(st'.slot.pending)), Kept(st'.dev));
  }

  lemma Settled(w: multiset<nat>, r: multiset<nat>, p: multiset<nat>, k: multiset<nat>)
    ensures multiset{} + w == (k + p) + r ==> w == r + p + k
  {
    if multiset{} + w == (k + p) + r {
      assert w == multiset{} + w;
    }
  }

  // ── Ids ───────────────────────────────────────────────────────────────────

  predicate DistinctIds(held: seq<Held>) { forall j, k :: 0 <= j < k < |held| ==> held[j].id != held[k].id }

  /** Parking keeps the ids of parked requests distinct exactly when the next id is not in use. */
  lemma ParkKeepsIds(held: seq<Held>, h: Held)
    ensures DistinctIds(held + [h]) <==> DistinctIds(held) && forall k :: 0 <= k < |held| ==> held[k].id != h.id
  {
    var all := held + [h];
    assert forall k :: 0 <= k < |held| ==> all[k] == held[k];
    assert all[|held|] == h;
    if DistinctIds(all) {
      forall k | 0 <= k < |held|
        ensures held[k].id != h.id
      {
        assert all[k].id != all[|held|].id;
      }
    }
  }

  /** Ids handed out so far, before the 32-bit counter comes round. */
  predicate Numbered(p: Parking) {
    DistinctIds(p.held) && forall k :: 0 <= k < |p.held| ==> p.held[k].id < p.nextId
  }

  /** An answered message leaves the parked ones alone; one that waits joins them. */
  lemma SubmitParks(s: Server, p: Parking, at: Ticket, m: Msg)
    requires Valid(s) && HeldOk(s.tree, p.held)
    ensures var (s', p', reply) := Submit(s, p, at, m);
      if reply.Some? then p' == p
      else
        && |p'.held| == |p.held| + 1 && p'.held[..|p.held|] == p.held
        && p'.held[|p.held|].id == p.nextId && p'.held[|p.held|].at == at && p'.held[|p.held|].msg == m
  {
    hide Handle, Valid;
  }

  /** A message parks under a fresh id. */
  lemma SubmitNumbers(s: Server, p: Parking, at: Ticket, m: Msg)
    requires Valid(s) && HeldOk(s.tree, p.held) && Numbered(p) && p.nextId + 1 < 0x1_0000_0000
    ensures Numbered(Submit(s, p, at, m).1) && p.nextId <= Submit(s, p, at, m).1.nextId <= p.nextId + 1
  {
    hide Handle, Valid;
    var (s', p', reply) := Submit(s, p, at, m);
    if reply.None? {
      ParkKeepsIds(p.held, p'.held[|p.held|]);
    }
  }

  /** An answer for an id nobody waits under changes nothing; otherwise the same chain and message
      complete, or wait again under a fresh id. */
  lemma SupplyNumbers(s: Server, p: Parking, id: nat, payload: seq<byte>)
    requires Valid(s) && HeldOk(s.tree, p.held) && Numbered(p) && p.nextId + 1 < 0x1_0000_0000
    ensures var (s', p', done) := Supply(s, p, id, payload);
      && Numbered(p') && p'.nextId <= p.nextId + 1
      && match Position(p.held, id) {
           case None => (s', p', done) == (s, p, None)
           case Some(k) =>
             var (h, rest) := (p.held[k], p.held[..k] + p.held[k + 1..]);
             if done.Some? then p'.held == rest && done.value.0 == h.at
             else
               && |p'.held| == |rest| + 1 && p'.held[..|rest|] == rest
               && p'.held[|rest|].id == p.nextId && p'.held[|rest|].at == h.at && p'.held[|rest|].msg == h.msg
         }
  {
    hide Supply, Submit, Deliver, Valid, Numbered, HeldOk, Position;
    match Position(p.held, id)
    case None =>
      SupplyIgnores(s, p, id, payload);
    case Some(k) =>
      var h := p.held[k];
      var p1 := p.(held := p.held[..k] + p.held[k + 1..]);
      FewerIds(p, k);
      var s1 := SupplyReruns(s, p, id, payload, k);
      SubmitNumbers(s1, p1, h.at, h.msg);
      SubmitParks(s1, p1, h.at, h.msg);
  }

  lemma SupplyIgnores(s: Server, p: Parking, id: nat, payload: seq<byte>)
    requires Valid(s) && HeldOk(s.tree, p.held) && Position(p.held, id).None?
    ensures Supply(s, p, id, payload) == (s, p, None)
  {
    hide Submit, Deliver, Valid, Position;
  }

  /** An awaited answer runs the parked message again, on the tree with the answer in it. */
  lemma SupplyReruns(s: Server, p: Parking, id: nat, payload: seq<byte>, k: nat) returns (s1: Server)
    requires Valid(s) && HeldOk(s.tree, p.held) && Position(p.held, id) == Some(k)
    ensures Valid(s1) && HeldOk(s1.tree, p.held[..k] + p.held[k + 1..])
    ensures var (h, p1) := (p.held[k], p.(held := p.held[..k] + p.held[k + 1..]));
      var (s', p', reply) := Submit(s1, p1, h.at, h.msg);
      Supply(s, p, id, payload) == (s', p', match reply { case None => None case Some(r) => Some((h.at, r)) })
  {
    hide Submit, Deliver, Valid, Position;
    var h := p.held[k];
    s1 := Deliver(s, h.need, h.target, payload);
    DeliverGrows(s, h.need, h.target, payload);
  }

  lemma FewerIds(p: Parking, k: nat)
    requires Numbered(p) && k < |p.held|
    ensures Numbered(p.(held := p.held[..k] + p.held[k + 1..]))
  {
    var rest := p.held[..k] + p.held[k + 1..];
    forall i | 0 <= i < |rest|
      ensures rest[i] == p.held[if i < k then i else i + 1]
    {
    }
  }

  // ── Over a whole run ──────────────────────────────────────────────────────

  /** The device is sound, and while ids last they are distinct and below `n`. */
  predicate Sound(d: Nine, n: nat) {
    NineOk(d) && (n < 0x1_0000_0000 ==> Numbered(d.parking) && d.parking.nextId <= n)
  }

  lemma ChainKeepsSound(w: Wire, d: Nine, n: nat, ch: Chain, m: Mem)
    requires Sound(d, n)
    ensures Sound(TakeChain(w, d, ch, m).dev, n + 1)
  {
    hide Submit, Valid, Respond, Numbered;
    if SgLen(ch.readable) >= 7 {
      var msg := w.parse(SgRead(m, ch.readable, 0, SgLen(ch.readable)));
      var at := Ticket(ch.head, ch.writable);
      if n + 1 < 0x1_0000_0000 {
        SubmitNumbers(d.server, d.parking, at, msg);
      }
    }
  }

  lemma AnswerKeepsSound(w: Wire, d: Nine, n: nat, id: nat, payload: seq<byte>, m: Mem)
    requires Sound(d, n)
    ensures Sound(TakeAnswer(w, d, id, payload, m).dev, n + 1)
  {
    hide Supply, Valid, Respond, Numbered;
    if n + 1 < 0x1_0000_0000 {
      SupplyNumbers(d.server, d.parking, id, payload);
    }
  }

  lemma SoundSurvives(w: Wire)
    ensures T.Survives(OnChain(w), OnAnswer(w), Sound)
  {
    hide TakeChain, TakeAnswer, NineOk, Numbered;
    forall d: Nine, n: nat, ch: Chain, m: Mem | Sound(d, n)
      ensures Sound(OnChain(w)(d, ch, m).dev, n + 1)
    {
      ChainKeepsSound(w, d, n, ch, m);
    }
    forall d: Nine, n: nat, id: nat, payload: seq<byte>, m: Mem | Sound(d, n)
      ensures Sound(OnAnswer(w)(d, id, payload, m).dev, n + 1)
    {
      AnswerKeepsSound(w, d, n, id, payload, m);
    }
  }

  /** Over any run, the tree invariant holds and every held request points into the tree; and until
      2^32 ids have been handed out, no two held requests share an id. */
  lemma HeldIdsAreDistinct(w: Wire, st: T.State<Nine>, es: seq<T.Event>)
    requires C.SlotOk(st.slot) && NineOk(st.dev) && st.dev.parking.held == [] && st.dev.parking.nextId <= 1
    ensures var (st', walked, reported) := T.Run(OnChain(w), OnAnswer(w), st, es);
      && NineOk(st'.dev)
      && (1 + |walked| + |es| < 0x1_0000_0000 ==> DistinctIds(st'.dev.parking.held))
  {
    hide T.Run, T.Survives, OnChain, OnAnswer, NineOk;
    SoundSurvives(w);
    T.RunKeeps(OnChain(w), OnAnswer(w), Sound, 1, st, es);
  }

  /** Over any run from an idle slot: what walked is what is reported, pending or held, and at any point of
      the run what is reported there is what the used rings gain there. */
  lemma ReportsReachTheDriver(w: Wire, st: T.State<Nine>, es: seq<T.Event>, k: nat) returns (fired: seq<V.Completion>)
    requires C.SlotOk(st.slot) && st.dev.parking.held == [] && st.slot.pending == []
    requires k < |es| && U.Orderly(T.Run(OnChain(w), OnAnswer(w), st, es[..k]).0)
    ensures var (now, _, before) := T.Run(OnChain(w), OnAnswer(w), st, es[..k]);
      var (next, _, _) := T.Step(OnChain(w), OnAnswer(w), now, es[k]);
      var (end, walked, reported) := T.Run(OnChain(w), OnAnswer(w), st, es);
      && multiset(walked) == multiset(reported) + multiset(T.HeadsOf(end.slot.pending)) + Kept(end.dev)
      && reported == before + T.HeadsOf(fired) + T.Run(OnChain(w), OnAnswer(w), next, es[k + 1..]).2
      && if es[k].Time? || es[k].Flush? then U.Shown(now.mem, next.mem, now.slot.queues, fired) else fired == []
  {
    hide T.Run, T.Step, U.Orderly, U.Shown, OnChain, OnAnswer;
    NoChainIsLost(w, st, es);
    fired := U.ReportedIsShown(OnChain(w), OnAnswer(w), st, es, k);
  }
}
