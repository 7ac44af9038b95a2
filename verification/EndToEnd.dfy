/**
 * A disk request from the driver's side, from the bytes it prints to the bytes it finds: descriptors, header
 * and available ring in, sectors, status and used ring out, after the device's latency.
 */
module EndToEnd {
  import opened Bytes
  import opened GuestMemory
  import V = Virtqueue
  import C = DeviceClock
  import T = Transport
  import U = UsedRing
  import R = DriverRing
  import B = Block
  import D = BlockDriver

  /** The disk behind its transport never keeps a chain for later. */
  function OnChain(): (B.Disk, Chain, Mem) -> V.Service<B.Disk> {
    (d: B.Disk, ch: Chain, m: Mem) =>
      var (d', m', w) := B.Handle(d, m, ch);
      V.Service(d', m', w, false)
  }

  // ── A kick ────────────────────────────────────────────────────────────────

  /** The driver has made one more chain available: `head` stands in the slot of the index, and the index is
      one further. */
  predicate Offers(m: Mem, q: V.Queue, head: u16) {
    q.num > 0 && R.AvailStands(m, q, (q.lastAvail + 1) % 0x1_0000, q.lastAvail % q.num, head)
  }

  /** One kick, one chain: the device sees it, and its completion falls due 2000 ticks on. */
  lemma KickServesOne<E>(handle: (E, Chain, Mem) -> V.Service<E>, st: T.State<E>, queue: nat, head: u16, ch: Chain)
    requires T.Usable(st.slot, queue) && Offers(st.mem, st.slot.queues[queue], head)
    requires V.Walk(st.mem, st.slot.queues[queue], head) == Some(ch)
    ensures var (r, q) := (handle(st.dev, ch, st.mem), st.slot.queues[queue]);
      T.Notify(handle, st, queue)
      == (T.State(r.dev, r.mem,
            st.slot.(pending := st.slot.pending + (if r.deferred then []
                       else [V.Completion(queue, ch.head, r.written, (st.slot.now + 2000) % 0x1_0000_0000_0000_0000)]),
                     queues := st.slot.queues[queue := q.(lastAvail := (q.lastAvail + 1) % 0x1_0000)])),
          [head])
  {
    hide V.Walk, LoadLe, V.HeadAt;
    var q := st.slot.queues[queue];
    var idx: u16 := (q.lastAvail + 1) % 0x1_0000;
    R.AvailReads(st.mem, q, idx, q.lastAvail % q.num, head);
    assert q.lastAvail != idx && V.Wrap16(idx) == idx;
    var p := V.Port(st.dev, st.mem, st.slot.pending);
    var p' := V.Serve(handle, p, queue, ch, st.slot.now);
    V.DrainStops(handle, q, queue, st.slot.now, p', idx, idx, 2 * q.num);
    var r := V.DrainFrom(handle, q, queue, st.slot.now, p, q.lastAvail, idx, 2 * q.num + 1);
    assert r.port == p' && r.last == idx && r.heads == [head] + [];
    assert st.slot.pending + [] == st.slot.pending;
    var n, h := T.Notify(handle, st, queue), handle(st.dev, ch, st.mem);
    assert n.0.slot == st.slot.(pending := p'.pending, queues := st.slot.queues[queue := q.(lastAvail := idx)]);
    assert n.0.dev == h.dev && n.0.mem == h.mem && n.1 == [head];
  }

  /** One kick, however many chains: with a queue size that divides 2^16, exactly the chains published since the
      last kick are served, each as the earlier ones left memory. */
  lemma KickServesPublished<E>(handle: (E, Chain, Mem) -> V.Service<E>, st: T.State<E>, queue: nat, served: nat,
                               published: nat)
    requires T.Usable(st.slot, queue) && 0x1_0000 % st.slot.queues[queue].num == 0
    requires st.slot.queues[queue].lastAvail == served % 0x1_0000
    requires served <= published <= served + st.slot.queues[queue].num && published - served < 0x1_0000
    requires R.Stands(st.mem, st.slot.queues[queue].avail + 2, Le(published % 0x1_0000, 2))
    ensures var q := st.slot.queues[queue];
      var r := V.DrainedBy(handle, q, queue, st.slot.now, V.Port(st.dev, st.mem, st.slot.pending), served, published,
                           published - served);
      var (st', heads) := T.Notify(handle, st, queue);
      && heads == r.heads && st'.dev == r.port.dev && st'.mem == r.port.mem
      && st'.slot == st.slot.(pending := r.port.pending,
                              queues := st.slot.queues[queue := q.(lastAvail := published % 0x1_0000)])
  {
    hide V.DrainFrom, Le, LoadLe;
    var q := st.slot.queues[queue];
    Pow256Values();
    R.NumberStands(st.mem, q.avail + 2, published % 0x1_0000, 2);
    AllDrained(handle, q, queue, st.slot.now, V.Port(st.dev, st.mem, st.slot.pending), served, published);
  }

  lemma AllDrained<E>(handle: (E, Chain, Mem) -> V.Service<E>, q: V.Queue, queue: nat, now: nat, p: V.Port<E>,
                      served: nat, published: nat)
    requires q.num > 0 && 0x1_0000 % q.num == 0
    requires served <= published <= served + q.num && published - served < 0x1_0000
    ensures var r := V.DrainFrom(handle, q, queue, now, p, served % 0x1_0000, published % 0x1_0000, 2 * q.num + 1);
      && r == V.DrainedBy(handle, q, queue, now, p, served, published, published - served)
      && r.last == published % 0x1_0000
  {
    hide V.DrainFrom, V.Offered;
    V.DrainFollowsTheCount(handle, q, queue, now, p, served, published);
  }

  // ── Time ──────────────────────────────────────────────────────────────────

  /** A single completion is reported when it is due and not before. */
  lemma ReportedWhenDue<E>(st: T.State<E>, c: V.Completion, n: nat)
    requires C.SlotOk(st.slot) && st.slot.pending == [c] && c.queue < |st.slot.queues|
    requires st.slot.now + n < 0x1_0000_0000_0000_0000
    ensures var (st', fired) := T.Pass(st, n);
      && st'.dev == st.dev && st'.slot.queues == st.slot.queues && st'.slot.now == st.slot.now + n
      && if st.slot.now + n < c.due then
           fired == [] && st'.mem == st.mem && st'.slot.pending == [c] && st'.slot.raised == st.slot.raised
         else
           && fired == [c] && st'.slot.pending == [] && st'.slot.raised
           && st'.mem == C.PushUsed(st.mem, st.slot.queues[c.queue], c.head, c.len)
  {
    hide C.PushUsed;
    C.Unwrapped(st.slot, n);
    assert [c][1..] == [];
    assert C.Due([], st.slot.now + n) == 0;
    assert [c][..1] == [c] && [c][0..] == [c] && [c][..0] == [];
    assert C.Report(C.PushUsed(st.mem, st.slot.queues[c.queue], c.head, c.len), st.slot.queues, [])
        == C.PushUsed(st.mem, st.slot.queues[c.queue], c.head, c.len);
  }

  // ── The used ring, byte for byte ──────────────────────────────────────────

  lemma StoredStands(m: Mem, at: nat, b: seq<byte>)
    requires Inside(m, at, |b|)
    ensures R.Stands(Store(m, at, b), at, b)
  {}

  lemma StandsElsewhere(m: Mem, at: nat, src: seq<byte>, b: nat, e: seq<byte>)
    requires R.Stands(m, b, e) && (at + |src| <= b || b + |e| <= at)
    ensures R.Stands(Store(m, at, src), b, e)
  {
    U.LoadElsewhere(m, at, src, b, |e|);
  }

  /** Section 2.7.8: le32 head and le32 length in the slot of the le16 index, which moves on by one. */
  lemma UsedBytes(m: Mem, q: V.Queue, idx: u16, head: nat, len: nat)
    requires U.RingInside(m, q) && R.Stands(m, q.used + 2, Le(idx, 2))
    ensures var (m', at) := (C.PushUsed(m, q, head, len), q.used + 4 + idx % q.num * 8);
      && R.Stands(m', at, Le(head, 4)) && R.Stands(m', at + 4, Le(len, 4))
      && R.Stands(m', q.used + 2, Le((idx + 1) % 0x1_0000, 2))
  {
    hide Le, Load, Store, LoadLe, FromLe;
    Pow256Values();
    R.NumberStands(m, q.used + 2, idx, 2);
    var slot := idx % q.num;
    U.SlotFits(slot, q.num);
    var at := q.used + 4 + slot * 8;
    var m1 := StoreLe(m, at, head, 4);
    var m2 := StoreLe(m1, at + 4, len, 4);
    StoredStands(m, at, Le(head, 4));
    StandsElsewhere(m1, at + 4, Le(len, 4), at, Le(head, 4));
    StoredStands(m1, at + 4, Le(len, 4));
    var next := Le((idx + 1) % 0x1_0000, 2);
    StandsElsewhere(m2, q.used + 2, next, at, Le(head, 4));
    StandsElsewhere(m2, q.used + 2, next, at + 4, Le(len, 4));
    StoredStands(m2, q.used + 2, next);
  }

  // ── A request ─────────────────────────────────────────────────────────────

  /** The used ring lies apart from buffers. */
  predicate RingApart(q: V.Queue, bufs: seq<Buf>) {
    forall k, a: nat :: 0 <= k < |bufs| && C.InRing(q, a) ==> !(bufs[k].addr <= a < bufs[k].addr + bufs[k].len)
  }

  lemma SameRing(q: V.Queue, q': V.Queue, bufs: seq<Buf>)
    requires q'.used == q.used && q'.num == q.num && RingApart(q, bufs)
    ensures RingApart(q', bufs)
  {
    forall k, a: nat | 0 <= k < |bufs| && C.InRing(q', a)
      ensures !(bufs[k].addr <= a < bufs[k].addr + bufs[k].len)
    {
      assert C.InRing(q, a);
    }
  }

  lemma PushKeepsGather(m: Mem, q: V.Queue, head: nat, len: nat, bufs: seq<Buf>)
    requires q.num > 0 && AllInside(m, bufs) && RingApart(q, bufs)
    ensures Gather(C.PushUsed(m, q, head, len), bufs) == Gather(m, bufs)
  {
    hide C.PushUsed, Gather, AllInside, SgLen;
    var m' := C.PushUsed(m, q, head, len);
    B.SameLength(m, m', bufs);
    forall k | 0 <= k < SgLen(bufs)
      ensures Gather(m', bufs)[k] == Gather(m, bufs)[k]
    {
      GatheredByte(m, bufs, k);
      GatheredByte(m', bufs, k);
      var j := AddrIsInBuf(bufs, k);
      var a := AddrOf(bufs, k);
      assert !C.InRing(q, a);
      C.PushStaysInRing(m, q, head, len, a);
    }
  }

  /** The disk writes into the buffers it may write and nowhere else. */
  lemma HandleOutside(d: B.Disk, m: Mem, ch: Chain, a: nat)
    requires forall j :: 0 <= j < |ch.writable| ==>
      !(ch.writable[j].addr <= a < ch.writable[j].addr + ch.writable[j].len)
    ensures SameExtent(m, B.Handle(d, m, ch).1) && ByteAt(B.Handle(d, m, ch).1, a) == ByteAt(m, a)
  {
    hide SgWrite, SgRead, SgLen, ByteAt, B.ReadAt, B.WriteAt;
    if B.Complete(m, ch) {
      var e, last := B.Outcome(d, m, ch), SgLen(ch.writable) - 1;
      SgWriteOutside(e.mem, ch.writable, last, [e.status], a);
      var want, kind, s := B.Whole(last), B.Kind(m, ch), B.SectorOf(m, ch);
      if kind == B.T_IN && B.ReadAt(d.data, s, want).Some? {
        SgWriteOutside(m, ch.writable, 0, B.ReadAt(d.data, s, want).value, a);
      }
      SgWriteOutside(m, ch.writable, 0, B.SERIAL[..Min(last, 20)], a);
    }
  }

  /** Everything a driver prints for one request on queue 0: the chain, its place in the available ring, and
      the header with its payload. The index of the used ring is `used`. */
  predicate RequestIsPrinted(m: Mem, q: V.Queue, path: seq<nat>, c: D.Command, used: u16) {
    && 0 < |path| && path[0] < 0x1_0000 && c.mem == m && c.chain.head == path[0] && D.Sent(c)
    && R.ChainStands(m, q.desc, path, c.chain.readable, c.chain.writable) && V.Distinct(path)
    && (forall j :: 0 <= j < |path| ==> path[j] < q.num)
    && Offers(m, q, path[0]) && U.RingInside(m, q) && RingApart(q, c.chain.writable)
    && R.Stands(m, q.used + 2, Le(used, 2))
  }

  /** The chain and the length stand in the used ring, whose index has moved on. */
  predicate UsedStands(m: Mem, q: V.Queue, used: u16, head: nat, len: nat) {
    && q.num > 0 && R.Stands(m, q.used + 4 + used % q.num * 8, Le(head, 4))
    && R.Stands(m, q.used + 4 + used % q.num * 8 + 4, Le(len, 4))
    && R.Stands(m, q.used + 2, Le((used + 1) % 0x1_0000, 2))
  }

  /** The kick serves the request, and owes the driver one completion. */
  lemma RequestIsServed(st: T.State<B.Disk>, path: seq<nat>, c: D.Command, used: u16)
    requires T.Usable(st.slot, 0) && RequestIsPrinted(st.mem, st.slot.queues[0], path, c, used)
    requires st.slot.now + 2000 < 0x1_0000_0000_0000_0000
    ensures var (d', m', len) := B.Handle(st.dev, st.mem, c.chain);
      var q := st.slot.queues[0];
      && T.Notify(OnChain(), st, 0).0
         == T.State(d', m', st.slot.(pending := st.slot.pending + [V.Completion(0, path[0], len, st.slot.now + 2000)],
                                     queues := st.slot.queues[0 := q.(lastAvail := (q.lastAvail + 1) % 0x1_0000)]))
      && AllInside(m', c.chain.writable) && U.RingInside(m', q) && R.Stands(m', q.used + 2, Le(used, 2))
  {
    hide R.ChainStands, Offers, Gather, AllInside, Disjoint, SgLen, V.Walk, B.Handle, T.Notify, D.HeaderBytes, Le, Load;
    hide ByteAt;
    var q, ch := st.slot.queues[0], c.chain;
    R.PrintedChainWalks(st.mem, q, path, ch.readable, ch.writable);
    KickServesOne(OnChain(), st, 0, path[0], ch);
    var m' := B.Handle(st.dev, st.mem, ch).1;
    HandleKeepsExtent(st.dev, st.mem, ch);
    B.SameLength(st.mem, m', ch.writable);
    forall a | q.used + 2 <= a < q.used + 4
      ensures ByteAt(st.mem, a) == ByteAt(m', a)
    {
      assert C.InRing(q, a);
      HandleOutside(st.dev, st.mem, ch, a);
    }
    LoadAgrees(st.mem, m', q.used + 2, 2);
  }

  lemma HandleKeepsExtent(d: B.Disk, m: Mem, ch: Chain)
    ensures SameExtent(m, B.Handle(d, m, ch).1)
  {
    hide B.Perform, SgWrite, SgRead, SgLen;
    if B.Complete(m, ch) {
      D.PerformKeepsExtent(d, m, ch, B.Kind(m, ch), B.SectorOf(m, ch), SgLen(ch.writable) - 1);
    }
  }

  /** The request acts on the disk and on the driver's buffers at the kick; 2000 ticks later, and not before,
      the chain and its length stand in the used ring and the line is raised. */
  lemma RequestEndToEnd(st: T.State<B.Disk>, path: seq<nat>, c: D.Command, used: u16, n: nat)
    requires C.SlotOk(st.slot) && st.slot.pending == [] && T.Usable(st.slot, 0)
    requires RequestIsPrinted(st.mem, st.slot.queues[0], path, c, used)
    requires st.slot.now + 2000 + n < 0x1_0000_0000_0000_0000
    ensures var (st1, _) := T.Notify(OnChain(), st, 0);
      C.SlotOk(st1.slot) &&
      var (st2, fired) := T.Pass(st1, n);
      var (d', m', len) := B.Handle(st.dev, st.mem, c.chain);
      && st2.dev == d' && Gather(st2.mem, c.chain.writable) == Gather(m', c.chain.writable)
      && if n < 2000 then fired == [] && st2.mem == m' && st2.slot.raised == st.slot.raised
         else
           && fired == [V.Completion(0, path[0], len, st.slot.now + 2000)] && st2.slot.raised
           && UsedStands(st2.mem, st.slot.queues[0], used, path[0], len)
  {
    hide RequestIsPrinted, Gather, AllInside, C.PushUsed, T.Pass, T.Notify, OnChain, B.Handle, U.RingInside, R.Stands;
    assert |path| > 0 && RingApart(st.slot.queues[0], c.chain.writable) by {
      PathIsPrinted(st.mem, st.slot.queues[0], path, c, used);
    }
    RequestIsServed(st, path, c, used);
    var (st1, _) := T.Notify(OnChain(), st, 0);
    var q, q' := st.slot.queues[0], st1.slot.queues[0];
    var last := V.Completion(0, path[0], B.Handle(st.dev, st.mem, c.chain).2, st.slot.now + 2000);
    assert st1.slot.pending == [] + [last] == [last];
    ReportedWhenDue(st1, last, n);
    SameRing(q, q', c.chain.writable);
    PushKeepsGather(st1.mem, q', last.head, last.len, c.chain.writable);
    SameRingInside(st1.mem, q, q');
    UsedBytes(st1.mem, q', used, last.head, last.len);
  }

  lemma SameRingInside(m: Mem, q: V.Queue, q': V.Queue)
    requires q'.used == q.used && q'.num == q.num && U.RingInside(m, q)
    ensures U.RingInside(m, q')
  {}

  lemma PathIsPrinted(m: Mem, q: V.Queue, path: seq<nat>, c: D.Command, used: u16)
    requires RequestIsPrinted(m, q, path, c, used)
    ensures |path| > 0 && RingApart(q, c.chain.writable) && D.Sent(c) && c.mem == m && SgLen(c.chain.writable) > 0
  {}

  // ── Reading and writing sectors ───────────────────────────────────────────

  /** A read: the driver finds the sectors it asked for at the front of its buffers, then what was there, then
      the status; or what was there and an error, if the disk has no such sectors. */
  lemma ReadEndToEnd(st: T.State<B.Disk>, path: seq<nat>, c: D.Command, used: u16)
    requires C.SlotOk(st.slot) && st.slot.pending == [] && T.Usable(st.slot, 0) && |st.dev.data| < W64
    requires RequestIsPrinted(st.mem, st.slot.queues[0], path, c, used) && c.kind == 0
    requires st.slot.now + 4000 < 0x1_0000_0000_0000_0000
    ensures var (st1, _) := T.Notify(OnChain(), st, 0);
      C.SlotOk(st1.slot) &&
      var (st2, _) := T.Pass(st1, 2000);
      var (ws, data) := (c.chain.writable, st.dev.data);
      var (before, last) := (Gather(st.mem, ws), SgLen(ws) - 1);
      var k := last / 512;
      && st2.dev == st.dev && |before| == last + 1
      && UsedStands(st2.mem, st.slot.queues[0], used, path[0], k * 512 % 0x1_0000_0000 + 1)
      && Gather(st2.mem, ws) == if k > 0 && c.s + k <= |data| / 512
                                then data[c.s * 512..(c.s + k) * 512] + before[k * 512..last] + [0]
                                else before[..last] + [1]
  {
    hide RequestIsPrinted, Gather, T.Pass, T.Notify, OnChain, B.Handle, UsedStands, SgLen;
    PathIsPrinted(st.mem, st.slot.queues[0], path, c, used);
    RequestEndToEnd(st, path, c, used, 2000);
    D.DriverReads(st.dev, st.mem, c.chain, c.reserved, c.s, c.payload);
  }

  /** A write: the whole sectors of the payload are on the disk, or none are and the status says so. */
  lemma WriteEndToEnd(st: T.State<B.Disk>, path: seq<nat>, c: D.Command, used: u16)
    requires C.SlotOk(st.slot) && st.slot.pending == [] && T.Usable(st.slot, 0) && |st.dev.data| < W64
    requires RequestIsPrinted(st.mem, st.slot.queues[0], path, c, used) && c.kind == 1
    requires st.slot.now + 4000 < 0x1_0000_0000_0000_0000
    ensures var (st1, _) := T.Notify(OnChain(), st, 0);
      C.SlotOk(st1.slot) &&
      var (st2, _) := T.Pass(st1, 2000);
      var (ws, d) := (c.chain.writable, st.dev);
      var (before, last, k, t) := (Gather(st.mem, ws), SgLen(ws) - 1, |c.payload| / 512, c.s % 0x80_0000_0000_0000);
      var ok := !d.readOnly && k > 0 && t + k <= |d.data| / 512;
      && |before| == last + 1 && UsedStands(st2.mem, st.slot.queues[0], used, path[0], 1)
      && Gather(st2.mem, ws) == before[..last] + [if ok then 0 else 1]
      && st2.dev == if ok then d.(data := d.data[..t * 512] + c.payload[..k * 512] + d.data[(t + k) * 512..]) else d
  {
    hide RequestIsPrinted, Gather, T.Pass, T.Notify, OnChain, B.Handle, UsedStands, SgLen;
    PathIsPrinted(st.mem, st.slot.queues[0], path, c, used);
    RequestEndToEnd(st, path, c, used, 2000);
    D.DriverWrites(st.dev, st.mem, c.chain, c.reserved, c.s, c.payload);
  }
}
