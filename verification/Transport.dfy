/**
 * The virtio-mmio transport of one device: kicks, ticks, flushes and late answers, and the law that
 * no chain is lost or reported twice on the way from the available ring to the used ring.
 */
module Transport {
  import opened Bytes
  import opened GuestMemory
  import opened Virtqueue
  import opened DeviceClock

  /** What a device makes of an answer from the host: its new state, the memory it leaves, and the
      chain that completes, if one does. */
  datatype Accepted<D> = Accepted(dev: D, mem: Mem, done: Option<(nat, nat, nat)>)

  /** A device behind its transport. */
  datatype State<D> = State(dev: D, mem: Mem, slot: Slot)

  /** The queue exists and the driver has set it up. */
  predicate Usable(s: Slot, queue: nat) { queue < |s.queues| && s.queues[queue].ready && s.queues[queue].num > 0 }

  /** A kick: serve what the driver made available. Also the heads that walked. */
  function Notify<D>(handle: (D, Chain, Mem) -> Service<D>, st: State<D>, queue: nat): (State<D>, seq<nat>) {
    if !Usable(st.slot, queue) then (st, [])
    else
      var q := st.slot.queues[queue];
      var avail: u16 := Wrap16(LoadLe(st.mem, q.avail + 2, 2));
      var r := DrainFrom(handle, q, queue, st.slot.now, Port(st.dev, st.mem, st.slot.pending), q.lastAvail, avail,
        2 * q.num + 1);
      (State(r.port.dev, r.port.mem,
         st.slot.(pending := r.port.pending, queues := st.slot.queues[queue := q.(lastAvail := r.last)])),
       r.heads)
  }

  /** Time passes. Also the completions reported. */
  function Pass<D>(st: State<D>, amount: nat): (State<D>, seq<Completion>)
    requires SlotOk(st.slot)
  {
    var (slot, fired) := Elapse(st.slot, amount);
    (State(st.dev, Report(st.mem, st.slot.queues, fired), slot), fired)
  }

  /** The guest sleeps: report everything at once. */
  function FlushPending<D>(st: State<D>): (State<D>, seq<Completion>)
    requires SlotOk(st.slot)
  {
    if st.slot.pending == [] then (st, [])
    else
      (State(st.dev, Report(st.mem, st.slot.queues, st.slot.pending), st.slot.(pending := [], raised := true)),
       st.slot.pending)
  }

  /** The host answers request `id`. */
  function Answered<D>(accept: (D, nat, seq<byte>, Mem) -> Accepted<D>, st: State<D>, id: nat,
                       payload: seq<byte>): State<D> {
    var r := accept(st.dev, id, payload, st.mem);
    match r.done
    case None => State(r.dev, r.mem, st.slot)
    case Some((queue, head, len)) =>
      State(r.dev, r.mem, st.slot.(pending := st.slot.pending + [Completion(queue, head, len, st.slot.now)]))
  }

  // ── Conservation ──────────────────────────────────────────────────────────

  function HeadsOf(cs: seq<Completion>): (r: seq<nat>)
    ensures |r| == |cs|
    decreases |cs|
  {
    if cs == [] then [] else HeadsOf(cs[..|cs| - 1]) + [cs[|cs| - 1].head]
  }

  lemma {:induction false} HeadsOfSum(a: seq<Completion>, b: seq<Completion>)
    ensures HeadsOf(a + b) == HeadsOf(a) + HeadsOf(b)
    decreases |b|
  {
    if b == [] {
      assert a + b == a;
    } else {
      var init, last := b[..|b| - 1], b[|b| - 1];
      HeadsOfSum(a, init);
      assert (a + b)[..|a + b| - 1] == a + init;
    }
  }

  lemma BagOfSum(a: seq<Completion>, b: seq<Completion>)
    ensures multiset(HeadsOf(a + b)) == multiset(HeadsOf(a)) + multiset(HeadsOf(b))
  {
    HeadsOfSum(a, b);
  }

  lemma BagOfOne(c: Completion)
    ensures multiset(HeadsOf([c])) == multiset{c.head}
  {
    assert HeadsOf([c]) == [c.head];
  }

  /** Everything the transport and the device still owe the driver. */
  ghost function Owed<D>(kept: D -> multiset<nat>, dev: D, pending: seq<Completion>): multiset<nat> {
    kept(dev) + multiset(HeadsOf(pending))
  }

  /** A device that keeps exactly the chains it defers. */
  ghost predicate KeepsDeferred<D(!new)>(handle: (D, Chain, Mem) -> Service<D>, kept: D -> multiset<nat>) {
    forall d, ch, m ::
      var r := handle(d, ch, m);
      kept(r.dev) == kept(d) + if r.deferred then multiset{ch.head} else multiset{}
  }

  /** And gives up exactly the chain it completes. */
  ghost predicate GivesUpDone<D(!new)>(accept: (D, nat, seq<byte>, Mem) -> Accepted<D>, kept: D -> multiset<nat>) {
    forall d, id, payload, m ::
      var r := accept(d, id, payload, m);
      kept(d) == kept(r.dev) + if r.done.Some? then multiset{r.done.value.1} else multiset{}
  }

  lemma ServeOwes<D(!new)>(handle: (D, Chain, Mem) -> Service<D>, kept: D -> multiset<nat>, p: Port<D>, queue: nat,
                           ch: Chain, now: nat)
    requires KeepsDeferred(handle, kept)
    ensures var p' := Serve(handle, p, queue, ch, now);
      Owed(kept, p'.dev, p'.pending) == Owed(kept, p.dev, p.pending) + multiset{ch.head}
  {
    var r := handle(p.dev, ch, p.mem);
    assert kept(r.dev) == kept(p.dev) + if r.deferred then multiset{ch.head} else multiset{};
    if !r.deferred {
      var c := Completion(queue, ch.head, r.written, Wrap64(now + COMPLETION_LATENCY));
      hide HeadsOf;
      BagOfSum(p.pending, [c]);
      BagOfOne(c);
    }
  }

  /** Draining adds to what is owed exactly the heads that walked. */
  lemma {:induction false} DrainOwes<D(!new)>(handle: (D, Chain, Mem) -> Service<D>, kept: D -> multiset<nat>, q: Queue,
                                             queue: nat, now: nat, p: Port<D>, last: u16, avail: u16, budget: nat)
    requires q.num > 0 && KeepsDeferred(handle, kept)
    ensures var r := DrainFrom(handle, q, queue, now, p, last, avail, budget);
      Owed(kept, r.port.dev, r.port.pending) == Owed(kept, p.dev, p.pending) + multiset(r.heads)
    decreases budget
  {
    hide DrainFrom, Owed, KeepsDeferred, Wrap16;
    if last == avail || budget == 0 {
      DrainStops(handle, q, queue, now, p, last, avail, budget);
    } else {
      var p', first := FirstOwes(handle, kept, q, queue, now, p, last, avail, budget);
      DrainOwes(handle, kept, q, queue, now, p', Wrap16(last + 1), avail, budget - 1);
      var rest := DrainFrom(handle, q, queue, now, p', Wrap16(last + 1), avail, budget - 1);
      assert multiset(first + rest.heads) == multiset(first) + multiset(rest.heads);
    }
  }

  /** The first position: its head, if it walks, is owed from then on. */
  lemma FirstOwes<D(!new)>(handle: (D, Chain, Mem) -> Service<D>, kept: D -> multiset<nat>, q: Queue, queue: nat,
                           now: nat, p: Port<D>, last: u16, avail: u16, budget: nat)
    returns (p': Port<D>, first: seq<nat>)
    requires q.num > 0 && last != avail && budget > 0 && KeepsDeferred(handle, kept)
    ensures Owed(kept, p'.dev, p'.pending) == Owed(kept, p.dev, p.pending) + multiset(first)
    ensures var (r, rest) := (DrainFrom(handle, q, queue, now, p, last, avail, budget),
                              DrainFrom(handle, q, queue, now, p', Wrap16(last + 1), avail, budget - 1));
      r.port == rest.port && r.heads == first + rest.heads
  {
    hide Serve, HeadAt, Owed, KeepsDeferred, Wrap16, Walk;
    var head := HeadAt(p.mem, q, last % q.num);
    var walked := Walk(p.mem, q, head);
    p' := if walked.Some? then Serve(handle, p, queue, walked.value, now) else p;
    first := if walked.Some? then [head] else [];
    if walked.Some? {
      WalkKeepsHead(p.mem, q, head);
      ServeOwes(handle, kept, p, queue, walked.value, now);
      assert multiset([head]) == multiset{head};
    }
  }

  lemma WalkKeepsHead(m: Mem, q: Queue, head: nat)
    ensures Walk(m, q, head).Some? ==> Walk(m, q, head).value.head == head
  {
    hide Pieces;
  }

  /** What can happen to the transport; `Guest` is the guest rewriting its memory. */
  datatype Event = Kick(queue: nat) | Time(amount: nat) | Flush | Answer(id: nat, payload: seq<byte>) | Guest(mem: Mem)

  /** The state after an event, the heads that walked and the heads reported. */
  function Step<D>(handle: (D, Chain, Mem) -> Service<D>, accept: (D, nat, seq<byte>, Mem) -> Accepted<D>,
                   st: State<D>, e: Event): (r: (State<D>, seq<nat>, seq<nat>))
    requires SlotOk(st.slot)
    ensures SlotOk(r.0.slot)
  {
    match e
    case Kick(queue) => var (st', heads) := Notify(handle, st, queue); (st', heads, [])
    case Time(amount) => var (st', fired) := Pass(st, amount); (st', [], HeadsOf(fired))
    case Flush => var (st', fired) := FlushPending(st); (st', [], HeadsOf(fired))
    case Answer(id, payload) => (Answered(accept, st, id, payload), [], [])
    case Guest(mem) => (st.(mem := mem), [], [])
  }

  lemma KickConserves<D(!new)>(handle: (D, Chain, Mem) -> Service<D>, kept: D -> multiset<nat>, st: State<D>,
                               queue: nat)
    requires KeepsDeferred(handle, kept)
    ensures var (st', heads) := Notify(handle, st, queue);
      Owed(kept, st.dev, st.slot.pending) + multiset(heads) == Owed(kept, st'.dev, st'.slot.pending)
  {
    hide DrainFrom, KeepsDeferred, LoadLe, Owed;
    if Usable(st.slot, queue) {
      var q := st.slot.queues[queue];
      DrainOwes(handle, kept, q, queue, st.slot.now, Port(st.dev, st.mem, st.slot.pending), q.lastAvail,
        Wrap16(LoadLe(st.mem, q.avail + 2, 2)), 2 * q.num + 1);
    }
  }

  lemma TimeConserves<D>(kept: D -> multiset<nat>, st: State<D>, amount: nat)
    requires SlotOk(st.slot)
    ensures var (st', fired) := Pass(st, amount);
      Owed(kept, st.dev, st.slot.pending) == Owed(kept, st'.dev, st'.slot.pending) + multiset(HeadsOf(fired))
  {
    hide Report, HeadsOf, Due;
    var pending := st.slot.pending;
    var n := Due(pending, Wrap64(st.slot.now + amount));
    BagOfSum(pending[..n], pending[n..]);
    assert pending[..n] + pending[n..] == pending;
  }

  lemma AnswerConserves<D(!new)>(accept: (D, nat, seq<byte>, Mem) -> Accepted<D>, kept: D -> multiset<nat>,
                                 st: State<D>, id: nat, payload: seq<byte>)
    requires GivesUpDone(accept, kept)
    ensures var st' := Answered(accept, st, id, payload);
      Owed(kept, st.dev, st.slot.pending) == Owed(kept, st'.dev, st'.slot.pending)
  {
    hide HeadsOf;
    var r := accept(st.dev, id, payload, st.mem);
    assert kept(st.dev) == kept(r.dev) + if r.done.Some? then multiset{r.done.value.1} else multiset{};
    if r.done.Some? {
      var (queue, head, len) := r.done.value;
      var c := Completion(queue, head, len, st.slot.now);
      BagOfSum(st.slot.pending, [c]);
      BagOfOne(c);
    }
  }

  /** One event: what was owed plus what walked is what is owed plus what was reported. */
  lemma StepConserves<D(!new)>(handle: (D, Chain, Mem) -> Service<D>, accept: (D, nat, seq<byte>, Mem) -> Accepted<D>,
                               kept: D -> multiset<nat>, st: State<D>, e: Event)
    requires SlotOk(st.slot) && KeepsDeferred(handle, kept) && GivesUpDone(accept, kept)
    ensures var (st', walked, reported) := Step(handle, accept, st, e);
      Owed(kept, st.dev, st.slot.pending) + multiset(walked)
        == Owed(kept, st'.dev, st'.slot.pending) + multiset(reported)
  {
    match e
    case Kick(queue) =>
      hide Notify, Owed;
      KickConserves(handle, kept, st, queue);
    case Time(amount) =>
      hide Pass, Owed, HeadsOf;
      TimeConserves(kept, st, amount);
    case Flush =>
      hide Report, HeadsOf;
      assert HeadsOf([]) == [] by { NoHeads(); }
    case Answer(id, payload) =>
      hide Answered, Owed;
      AnswerConserves(accept, kept, st, id, payload);
    case Guest(mem) =>
  }

  lemma NoHeads()
    ensures HeadsOf([]) == []
  {}

  /** Every head that walked and every head reported, over a whole run. */
  function Run<D>(handle: (D, Chain, Mem) -> Service<D>, accept: (D, nat, seq<byte>, Mem) -> Accepted<D>,
                  st: State<D>, es: seq<Event>): (State<D>, seq<nat>, seq<nat>)
    requires SlotOk(st.slot)
    decreases |es|
  {
    if es == [] then (st, [], [])
    else
      var (st1, walked, reported) := Step(handle, accept, st, es[0]);
      var (st', walked', reported') := Run(handle, accept, st1, es[1..]);
      (st', walked + walked', reported + reported')
  }

  /** Chain conservation: over any run from an idle device, the chains that walked are, each exactly
      once, the chains reported, the chains pending and the chains the device holds. */
  lemma {:induction false} RunConserves<D(!new)>(handle: (D, Chain, Mem) -> Service<D>,
                                                accept: (D, nat, seq<byte>, Mem) -> Accepted<D>,
                                                kept: D -> multiset<nat>, st: State<D>, es: seq<Event>)
    requires SlotOk(st.slot) && KeepsDeferred(handle, kept) && GivesUpDone(accept, kept)
    ensures var (st', walked, reported) := Run(handle, accept, st, es);
      Owed(kept, st.dev, st.slot.pending) + multiset(walked)
        == Owed(kept, st'.dev, st'.slot.pending) + multiset(reported)
    decreases |es|
  {
    hide Step, Owed, KeepsDeferred, GivesUpDone;
    if es == [] {
    } else {
      StepConserves(handle, accept, kept, st, es[0]);
      var (st1, walked, reported) := Step(handle, accept, st, es[0]);
      RunConserves(handle, accept, kept, st1, es[1..]);
      var (st', walked', reported') := Run(handle, accept, st1, es[1..]);
      assert multiset(walked + walked') == multiset(walked) + multiset(walked');
      assert multiset(reported + reported') == multiset(reported) + multiset(reported');
      Balance(Owed(kept, st.dev, st.slot.pending), Owed(kept, st1.dev, st1.slot.pending),
        Owed(kept, st'.dev, st'.slot.pending),
        multiset(walked), multiset(reported), multiset(walked'), multiset(reported'));
    }
  }

  lemma Balance(a: multiset<nat>, b: multiset<nat>, c: multiset<nat>, w: multiset<nat>, r: multiset<nat>,
                w': multiset<nat>, r': multiset<nat>)
    requires a + w == b + r && b + w' == c + r'
    ensures a + (w + w') == c + (r + r')
  {
    calc {
      a + (w + w');
      (a + w) + w';
      (b + r) + w';
      (b + w') + r;
      (c + r') + r;
      c + (r + r');
    }
  }

  // ── What the device keeps over a run ──────────────────────────────────────

  /** A property that may weaken by one with each chain served and each answer accepted. */
  ghost predicate Survives<D(!new)>(handle: (D, Chain, Mem) -> Service<D>,
                                    accept: (D, nat, seq<byte>, Mem) -> Accepted<D>,
                                    ok: (D, nat) -> bool)
  {
    && (forall d, n: nat, ch, m :: ok(d, n) ==> ok(handle(d, ch, m).dev, n + 1))
    && (forall d, n: nat, id, payload, m :: ok(d, n) ==> ok(accept(d, id, payload, m).dev, n + 1))
    && (forall d, n: nat, n': nat :: ok(d, n) && n <= n' ==> ok(d, n'))
  }

  lemma {:induction false} DrainKeeps<D(!new)>(handle: (D, Chain, Mem) -> Service<D>,
                                              accept: (D, nat, seq<byte>, Mem) -> Accepted<D>, ok: (D, nat) -> bool,
                                              n: nat, q: Queue, queue: nat, now: nat, p: Port<D>, last: u16,
                                              avail: u16, budget: nat)
    requires q.num > 0 && Survives(handle, accept, ok) && ok(p.dev, n)
    ensures var r := DrainFrom(handle, q, queue, now, p, last, avail, budget);
      ok(r.port.dev, n + |r.heads|)
    decreases budget
  {
    hide DrainFrom, Wrap16, Survives;
    if last == avail || budget == 0 {
      DrainStops(handle, q, queue, now, p, last, avail, budget);
    } else {
      var p', first := FirstKeeps(handle, accept, ok, n, q, queue, now, p, last, avail, budget);
      DrainKeeps(handle, accept, ok, n + |first|, q, queue, now, p', Wrap16(last + 1), avail, budget - 1);
    }
  }

  lemma FirstKeeps<D(!new)>(handle: (D, Chain, Mem) -> Service<D>, accept: (D, nat, seq<byte>, Mem) -> Accepted<D>,
                            ok: (D, nat) -> bool, n: nat, q: Queue, queue: nat, now: nat, p: Port<D>, last: u16,
                            avail: u16, budget: nat) returns (p': Port<D>, first: seq<nat>)
    requires q.num > 0 && last != avail && budget > 0 && Survives(handle, accept, ok) && ok(p.dev, n)
    ensures ok(p'.dev, n + |first|)
    ensures var (r, rest) := (DrainFrom(handle, q, queue, now, p, last, avail, budget),
                              DrainFrom(handle, q, queue, now, p', Wrap16(last + 1), avail, budget - 1));
      r.port == rest.port && r.heads == first + rest.heads
  {
    hide HeadAt, Wrap16, Walk;
    var head := HeadAt(p.mem, q, last % q.num);
    var walked := Walk(p.mem, q, head);
    p' := if walked.Some? then Serve(handle, p, queue, walked.value, now) else p;
    first := if walked.Some? then [head] else [];
  }

  lemma StepKeeps<D(!new)>(handle: (D, Chain, Mem) -> Service<D>, accept: (D, nat, seq<byte>, Mem) -> Accepted<D>,
                           ok: (D, nat) -> bool, n: nat, st: State<D>, e: Event)
    requires SlotOk(st.slot) && Survives(handle, accept, ok) && ok(st.dev, n)
    ensures var (st', walked, reported) := Step(handle, accept, st, e);
      ok(st'.dev, n + |walked| + 1)
  {
    match e
    case Kick(queue) =>
      hide Notify, Survives;
      KickKeeps(handle, accept, ok, n, st, queue);
      Weaken(handle, accept, ok, Notify(handle, st, queue).0.dev, n + |Notify(handle, st, queue).1|, 1);
    case Time(_) =>
      hide Report, HeadsOf, Due, Survives;
      Weaken(handle, accept, ok, st.dev, n, 1);
    case Flush =>
      hide Report, HeadsOf, Due, Survives;
      Weaken(handle, accept, ok, st.dev, n, 1);
    case Answer(_, _) =>
    case Guest(_) =>
      hide Survives;
      Weaken(handle, accept, ok, st.dev, n, 1);
  }

  lemma KickKeeps<D(!new)>(handle: (D, Chain, Mem) -> Service<D>, accept: (D, nat, seq<byte>, Mem) -> Accepted<D>,
                           ok: (D, nat) -> bool, n: nat, st: State<D>, queue: nat)
    requires Survives(handle, accept, ok) && ok(st.dev, n)
    ensures var (st', walked) := Notify(handle, st, queue);
      ok(st'.dev, n + |walked|)
  {
    hide DrainFrom, LoadLe, Survives;
    if Usable(st.slot, queue) {
      var q := st.slot.queues[queue];
      DrainKeeps(handle, accept, ok, n, q, queue, st.slot.now, Port(st.dev, st.mem, st.slot.pending), q.lastAvail,
        Wrap16(LoadLe(st.mem, q.avail + 2, 2)), 2 * q.num + 1);
    }
  }

  lemma Weaken<D(!new)>(handle: (D, Chain, Mem) -> Service<D>, accept: (D, nat, seq<byte>, Mem) -> Accepted<D>,
                        ok: (D, nat) -> bool, d: D, n: nat, more: nat)
    requires Survives(handle, accept, ok) && ok(d, n)
    ensures ok(d, n + more)
  {}

  /** Over any run the property weakens by no more than the chains that walked and the events. */
  lemma {:induction false} RunKeeps<D(!new)>(handle: (D, Chain, Mem) -> Service<D>,
                                            accept: (D, nat, seq<byte>, Mem) -> Accepted<D>, ok: (D, nat) -> bool,
                                            n: nat, st: State<D>, es: seq<Event>)
    requires SlotOk(st.slot) && Survives(handle, accept, ok) && ok(st.dev, n)
    ensures var (st', walked, reported) := Run(handle, accept, st, es);
      ok(st'.dev, n + |walked| + |es|)
    decreases |es|
  {
    hide Step, Survives;
    if es == [] {
    } else {
      StepKeeps(handle, accept, ok, n, st, es[0]);
      var (st1, walked, reported) := Step(handle, accept, st, es[0]);
      RunKeeps(handle, accept, ok, n + |walked| + 1, st1, es[1..]);
    }
  }

  // ── The transport in place ────────────────────────────────────────────────

  lemma SideOfOneMore(ps: seq<Piece>, p: Piece, write: bool)
    ensures Side(ps + [p], write) == Side(ps, write) + if p.write == write then [p.buf] else []
  {
    assert (ps + [p])[..|ps|] == ps;
  }

  lemma NoSides()
    ensures Side([], false) == [] == Side([], true)
  {}

  lemma InnerUnfolds(m: Mem, table: nat, i: nat, left: nat)
    ensures left == 0 ==> Inner(m, table, i, left) == []
    ensures left > 0 ==>
      var d := ReadDesc(m, table + i * 16);
      Inner(m, table, i, left) == [PieceOf(d)] + if d.HasNext() then Inner(m, table, d.next, left - 1) else []
  {}

  /** Add the buffers of an indirect table to the two sides of a chain. */
  method AddTable(m: Mem, table: nat, count: nat, r0: seq<Buf>, w0: seq<Buf>)
    returns (readable: seq<Buf>, writable: seq<Buf>)
    ensures readable == r0 + Side(Inner(m, table, 0, count), false)
    ensures writable == w0 + Side(Inner(m, table, 0, count), true)
  {
    hide ReadDesc, Inner, Side;
    readable, writable := r0, w0;
    var i: nat, at: nat := 0, 0;
    ghost var ps: seq<Piece> := [];
    NoSides();
    while i < count
      invariant i <= count && Inner(m, table, 0, count) == ps + Inner(m, table, at, count - i)
      invariant readable == r0 + Side(ps, false) && writable == w0 + Side(ps, true)
    {
      var d := ReadDesc(m, table + at * 16);
      InnerUnfolds(m, table, at, count - i);
      SideOfOneMore(ps, PieceOf(d), false);
      SideOfOneMore(ps, PieceOf(d), true);
      assert forall rest :: ps + ([PieceOf(d)] + rest) == (ps + [PieceOf(d)]) + rest;
      ps := ps + [PieceOf(d)];
      if d.Writes() {
        writable := writable + [Buf(d.addr, d.len)];
      } else {
        readable := readable + [Buf(d.addr, d.len)];
      }
      if !d.HasNext() {
        assert ps + [] == ps;
        return;
      }
      at := d.next;
      i := i + 1;
    }
    InnerUnfolds(m, table, at, 0);
    assert ps + [] == ps;
  }

  lemma PiecesUnfold(m: Mem, q: Queue, idx: nat, budget: nat)
    requires budget > 0 && idx < q.num
    ensures var d := ReadDesc(m, q.desc + idx * 16);
      Pieces(m, q, idx, budget)
      == if !d.HasNext() then Some(PiecesOf(m, d))
         else
           match Pieces(m, q, d.next, budget - 1) { case None => None case Some(rest) => Some(PiecesOf(m, d) + rest) }
  {
    hide ReadDesc, PiecesOf;
  }

  /** What the buffers found so far and the rest of a walk come to. */
  function Onto(ps: seq<Piece>, rest: Option<seq<Piece>>): Option<seq<Piece>> {
    match rest case None => None case Some(more) => Some(ps + more)
  }

  lemma OntoNothing(rest: Option<seq<Piece>>)
    ensures Onto([], rest) == rest
  {
    if rest.Some? {
      assert [] + rest.value == rest.value;
    }
  }

  lemma OntoOnto(ps: seq<Piece>, more: seq<Piece>, rest: Option<seq<Piece>>)
    ensures Onto(ps, Onto(more, rest)) == Onto(ps + more, rest)
  {
    if rest.Some? {
      assert ps + (more + rest.value) == (ps + more) + rest.value;
    }
  }

  /** One descriptor's buffers, added to the two sides of a chain. */
  method AddDescriptor(m: Mem, d: Desc, r0: seq<Buf>, w0: seq<Buf>) returns (readable: seq<Buf>, writable: seq<Buf>)
    ensures readable == r0 + Side(PiecesOf(m, d), false)
    ensures writable == w0 + Side(PiecesOf(m, d), true)
  {
    hide Inner;
    if d.Indirect() {
      readable, writable := AddTable(m, d.addr, Min(d.len / 16, QUEUE_NUM_MAX), r0, w0);
    } else {
      SideOfOneMore([], PieceOf(d), false);
      SideOfOneMore([], PieceOf(d), true);
      assert [] + [PieceOf(d)] == [PieceOf(d)];
      if d.Writes() {
        readable, writable := r0, w0 + [Buf(d.addr, d.len)];
      } else {
        readable, writable := r0 + [Buf(d.addr, d.len)], w0;
      }
    }
  }

  /** Follow a chain from its head, splitting the buffers by direction. */
  method WalkChain(m: Mem, q: Queue, head: nat) returns (r: Option<Chain>)
    ensures r == Walk(m, q, head)
  {
    hide ReadDesc, PiecesOf, Side, Pieces;
    var readable: seq<Buf>, writable: seq<Buf> := [], [];
    var idx: nat, budget: nat := head, q.num + 1;
    ghost var ps: seq<Piece> := [];
    NoSides();
    OntoNothing(Pieces(m, q, head, q.num + 1));
    while budget > 0
      invariant readable == Side(ps, false) && writable == Side(ps, true)
      invariant Pieces(m, q, head, q.num + 1) == Onto(ps, Pieces(m, q, idx, budget))
    {
      if idx >= q.num {
        OutOfTable(m, q, idx, budget);
        return None;
      }
      PiecesUnfold(m, q, idx, budget);
      budget := budget - 1;
      var d := ReadDesc(m, q.desc + idx * 16);
      ghost var more := PiecesOf(m, d);
      SideOfSum(ps, more, false);
      SideOfSum(ps, more, true);
      readable, writable := AddDescriptor(m, d, readable, writable);
      OntoOnto(ps, more, Pieces(m, q, d.next, budget));
      ps := ps + more;
      if !d.HasNext() {
        return Some(Chain(head, readable, writable));
      }
      idx := d.next;
    }
    BudgetSpent(m, q, idx, ps);
    r := Some(Chain(head, readable, writable));
  }

  lemma OutOfTable(m: Mem, q: Queue, idx: nat, budget: nat)
    requires budget > 0 && idx >= q.num
    ensures Pieces(m, q, idx, budget) == None
  {}

  lemma BudgetSpent(m: Mem, q: Queue, idx: nat, ps: seq<Piece>)
    ensures Onto(ps, Pieces(m, q, idx, 0)) == Some(ps)
  {
    assert ps + [] == ps;
  }

  class VirtioMmio<D> {
    const handle: (D, Chain, Mem) -> Service<D>
    const accept: (D, nat, seq<byte>, Mem) -> Accepted<D>
    var dev: D
    var mem: Mem
    var queues: seq<Queue>
    var pending: seq<Completion>
    var now: nat
    var raised: bool

    constructor (handle: (D, Chain, Mem) -> Service<D>, accept: (D, nat, seq<byte>, Mem) -> Accepted<D>, dev: D,
                 mem: Mem,
                 queues: seq<Queue>)
      ensures this.handle == handle && this.accept == accept
      ensures Value() == State(dev, mem, Slot(queues, [], 0, false))
    {
      this.handle, this.accept, this.dev, this.mem := handle, accept, dev, mem;
      this.queues, this.pending, this.now, this.raised := queues, [], 0, false;
    }

    ghost function Value(): State<D>
      reads this
    {
      State(dev, mem, Slot(queues, pending, now, raised))
    }

    /** The driver kicks a queue: serve every chain it has made available. */
    method Kick(queue: nat) returns (serviced: bool)
      modifies this
      ensures Value() == Notify(handle, old(Value()), queue).0
      ensures serviced <==> Notify(handle, old(Value()), queue).1 != []
    {
      hide Walk, HeadAt, LoadLe, Wrap16;
      serviced := false;
      if queue >= |queues| || !queues[queue].ready || queues[queue].num == 0 {
        return;
      }
      var q := queues[queue];
      var avail := Wrap16(LoadLe(mem, q.avail + 2, 2));
      var last: u16, budget: nat := q.lastAvail, 2 * q.num + 1;
      ghost var whole := DrainFrom(handle, q, queue, now, Port(dev, mem, pending), last, avail, budget);
      while last != avail && budget > 0
        invariant queues == old(queues) && now == old(now) && raised == old(raised)
        invariant var rest := DrainFrom(handle, q, queue, now, Port(dev, mem, pending), last, avail, budget);
          && rest.port == whole.port && rest.last == whole.last
          && (whole.heads != [] <==> serviced || rest.heads != [])
        decreases budget
      {
        budget := budget - 1;
        var head := HeadAt(mem, q, last % q.num);
        var walked := WalkChain(mem, q, head);
        if walked.Some? {
          var r := handle(dev, walked.value, mem);
          dev, mem := r.dev, r.mem;
          if !r.deferred {
            pending := pending + [Completion(queue, walked.value.head, r.written, Wrap64(now + COMPLETION_LATENCY))];
          }
          serviced := true;
        }
        last := Wrap16(last + 1);
      }
      queues := queues[queue := q.(lastAvail := last)];
    }

    /** Time passes: report what has waited out its latency. */
    method Tick(amount: nat) returns (fired: bool)
      requires SlotOk(Value().slot)
      modifies this
      ensures Value() == Pass(old(Value()), amount).0
      ensures fired <==> Pass(old(Value()), amount).1 != []
    {
      hide PushUsed, Wrap64, Report, Due;
      now := Wrap64(now + amount);
      fired := false;
      ghost var m0, p0 := mem, pending;
      ghost var done: nat := 0;
      NothingToReport(mem, queues);
      while pending != [] && pending[0].due <= now
        invariant queues == old(queues) && done <= |p0| && pending == p0[done..]
        invariant Due(p0, now) == done + Due(pending, now)
        invariant mem == Report(m0, queues, p0[..done]) && fired == (done > 0)
        invariant now == Wrap64(old(now) + amount) && dev == old(dev) && raised == old(raised)
        decreases |pending|
      {
        var c := pending[0];
        assert p0[..done + 1] == p0[..done] + [c] && p0[done..][1..] == p0[done + 1..];
        NextIsDue(pending, now);
        ReportInParts(m0, queues, p0[..done], [c]);
        ReportOne(mem, queues, c);
        pending := pending[1..];
        if c.queue < |queues| {
          mem := PushUsed(mem, queues[c.queue], c.head, c.len);
        }
        fired := true;
        done := done + 1;
      }
      NoneIsDue(pending, now);
      if fired {
        raised := true;
      }
    }

    /** The guest went to sleep: report everything. */
    method Flush() returns (fired: bool)
      requires SlotOk(Value().slot)
      modifies this
      ensures Value() == FlushPending(old(Value())).0 && fired == (old(pending) != [])
    {
      hide PushUsed;
      if pending == [] {
        return false;
      }
      var cs := pending;
      pending := [];
      for k := 0 to |cs|
        invariant queues == old(queues)
        invariant Report(old(mem), queues, cs) == Report(mem, queues, cs[k..])
        invariant pending == [] && now == old(now) && dev == old(dev) && raised == old(raised)
      {
        var c := cs[k];
        assert cs[k..][0] == c && cs[k..][1..] == cs[k + 1..];
        if c.queue < |queues| {
          mem := PushUsed(mem, queues[c.queue], c.head, c.len);
        }
      }
      raised := true;
      fired := true;
    }

    /** The host answers: the chain the device was holding completes at once. */
    method Supply(id: nat, payload: seq<byte>) returns (done: bool)
      modifies this
      ensures Value() == Answered(accept, old(Value()), id, payload)
      ensures done == accept(old(dev), id, payload, old(mem)).done.Some?
    {
      var r := accept(dev, id, payload, mem);
      dev, mem := r.dev, r.mem;
      done := r.done.Some?;
      if done {
        var (queue, head, len) := r.done.value;
        pending := pending + [Completion(queue, head, len, now)];
      }
    }
  }

  lemma NextIsDue(pending: seq<Completion>, now: nat)
    requires pending != [] && pending[0].due <= now
    ensures Due(pending, now) == 1 + Due(pending[1..], now)
  {}

  lemma NoneIsDue(pending: seq<Completion>, now: nat)
    requires pending == [] || pending[0].due > now
    ensures Due(pending, now) == 0
  {}

  lemma ReportOne(m: Mem, qs: seq<Queue>, c: Completion)
    requires Programmed(qs)
    ensures Report(m, qs, [c]) == if c.queue < |qs| then PushUsed(m, qs[c.queue], c.head, c.len) else m
  {
    assert [c][1..] == [];
  }
}
