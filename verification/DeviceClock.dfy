/**
 * Device time: completions wait out their latency on a clock that runs only while work is pending,
 * and advancing the machine in one batch is the same as advancing it step by step.
 */
module DeviceClock {
  import opened Bytes
  import opened GuestMemory
  import opened Virtqueue

  const STEPS_PER_TICK := 10

  // ── The used ring ─────────────────────────────────────────────────────────

  /** Report one chain: an entry at the slot of the used index, then the index. */
  function PushUsed(m: Mem, q: Queue, head: nat, len: nat): (m': Mem)
    requires q.num > 0
    ensures m'.base == m.base && |m'.bytes| == |m.bytes|
  {
    var idx := LoadLe(m, q.used + 2, 2);
    var entry := q.used + 4 + idx % q.num * 8;
    var m1 := StoreLe(m, entry, head, 4);
    var m2 := StoreLe(m1, entry + 4, len, 4);
    StoreLe(m2, q.used + 2, Wrap16(idx + 1), 2)
  }

  /** Queues that can take a report. */
  predicate Programmed(qs: seq<Queue>) { forall k :: 0 <= k < |qs| ==> qs[k].num > 0 }

  /** Report completions in order. */
  function Report(m: Mem, qs: seq<Queue>, cs: seq<Completion>): (m': Mem)
    requires Programmed(qs)
    ensures m'.base == m.base && |m'.bytes| == |m.bytes|
    decreases |cs|
  {
    if cs == [] then m
    else
      var c := cs[0];
      Report(if c.queue < |qs| then PushUsed(m, qs[c.queue], c.head, c.len) else m, qs, cs[1..])
  }

  lemma {:induction false} ReportInParts(m: Mem, qs: seq<Queue>, a: seq<Completion>, b: seq<Completion>)
    requires Programmed(qs)
    ensures Report(m, qs, a + b) == Report(Report(m, qs, a), qs, b)
    decreases |a|
  {
    hide PushUsed;
    if a == [] {
      assert a + b == b;
    } else {
      assert (a + b)[0] == a[0] && (a + b)[1..] == a[1..] + b;
      var c := a[0];
      ReportInParts(if c.queue < |qs| then PushUsed(m, qs[c.queue], c.head, c.len) else m, qs, a[1..], b);
    }
  }

  // ── Falling due ───────────────────────────────────────────────────────────

  /** How many completions at the front are due; one that is not holds back those behind it. */
  function Due(pending: seq<Completion>, now: nat): (n: nat)
    ensures n <= |pending|
    decreases |pending|
  {
    if pending == [] || pending[0].due > now then 0 else 1 + Due(pending[1..], now)
  }

  /** Looking twice, the second time no earlier, retires what looking once at the later time does. */
  lemma {:induction false} DueTwice(pending: seq<Completion>, t: nat, t': nat)
    requires t <= t'
    ensures Due(pending, t) <= Due(pending, t')
    ensures Due(pending, t') == Due(pending, t) + Due(pending[Due(pending, t)..], t')
    decreases |pending|
  {
    if pending != [] && pending[0].due <= t {
      DueTwice(pending[1..], t, t');
      assert pending[1..][Due(pending[1..], t)..] == pending[Due(pending, t)..];
    } else {
      assert pending[0..] == pending;
    }
  }

  // ── One slot ──────────────────────────────────────────────────────────────

  /** A transport's part in this: the queues its driver has set up, which are all that a completion can
      name, the completions not reported yet, the device clock, and whether the line is raised. */
  datatype Slot = Slot(queues: seq<Queue>, pending: seq<Completion>, now: nat, raised: bool)

  predicate SlotOk(s: Slot) { Programmed(s.queues) }

  /** Advance a slot's clock and split off what falls due. */
  function Elapse(s: Slot, amount: nat): (Slot, seq<Completion>) {
    var now := Wrap64(s.now + amount);
    var n := Due(s.pending, now);
    (s.(pending := s.pending[n..], now := now, raised := s.raised || n > 0), s.pending[..n])
  }

  /** The bus does not touch a slot with nothing pending. */
  function Advance(s: Slot, amount: nat): (Slot, seq<Completion>) {
    if s.pending == [] then (s, []) else Elapse(s, amount)
  }

  /** Equal but for the clock of a slot that waits for nothing; a clock that matters is the same. */
  predicate SameSlot(a: Slot, b: Slot) {
    a.queues == b.queues && a.pending == b.pending && a.raised == b.raised && (a.pending != [] ==> a.now == b.now)
  }

  predicate NoWrap(s: Slot, n: nat) { s.now + n < 0x1_0000_0000_0000_0000 }

  lemma Unwrapped(s: Slot, n: nat)
    requires NoWrap(s, n)
    ensures Wrap64(s.now + n) == s.now + n
  {}

  /** Advancing by `n` and then by one reports what advancing by `n + 1` does, in the same order, and
      leaves the same latencies. */
  lemma AdvanceTwice(s: Slot, n: nat)
    requires NoWrap(s, n + 1)
    ensures var (s1, f1) := Advance(s, n);
      var (s2, f2) := Advance(s1, 1);
      var (s', f) := Advance(s, n + 1);
      f1 + f2 == f && SameSlot(s2, s')
  {
    hide Due, Wrap64;
    if s.pending != [] {
      var t, t' := s.now + n, s.now + n + 1;
      Unwrapped(s, n);
      Unwrapped(s, n + 1);
      DueTwice(s.pending, t, t');
      var k, k' := Due(s.pending, t), Due(s.pending, t');
      var rest := s.pending[k..];
      assert s.pending[..k] + rest[..k' - k] == s.pending[..k'];
      assert rest[k' - k..] == s.pending[k'..];
      if rest == [] {
        assert k' == k && s.pending[..k] + [] == s.pending[..k'];
      }
    }
  }

  lemma AdvanceRespects(a: Slot, b: Slot, n: nat)
    requires SameSlot(a, b)
    ensures Advance(a, n).1 == Advance(b, n).1 && SameSlot(Advance(a, n).0, Advance(b, n).0)
  {
    hide Due;
  }

  // ── Reports of different slots do not interfere ───────────────────────────

  /** The bytes of a used ring. */
  predicate InRing(q: Queue, a: nat) { q.used <= a < q.used + 4 + q.num * 8 }

  predicate InRings(qs: seq<Queue>, a: nat) { exists k :: 0 <= k < |qs| && InRing(qs[k], a) }

  ghost predicate AgreeOn(m: Mem, m': Mem, qs: seq<Queue>) {
    SameExtent(m, m') && forall a :: InRings(qs, a) ==> ByteAt(m, a) == ByteAt(m', a)
  }

  /** The three stores of a report, at one address. */
  lemma PushedByte(m: Mem, q: Queue, head: nat, len: nat, a: nat)
    requires q.num > 0
    ensures var idx := LoadLe(m, q.used + 2, 2);
      var entry := q.used + 4 + idx % q.num * 8;
      ByteAt(PushUsed(m, q, head, len), a)
      == if Inside(m, q.used + 2, 2) && q.used + 2 <= a < q.used + 4 then Le(Wrap16(idx + 1), 2)[a - (q.used + 2)]
         else if Inside(m, entry + 4, 4) && entry + 4 <= a < entry + 8 then Le(len, 4)[a - (entry + 4)]
         else if Inside(m, entry, 4) && entry <= a < entry + 4 then Le(head, 4)[a - entry]
         else ByteAt(m, a)
  {
    hide ByteAt, Store, Load;
    var idx := LoadLe(m, q.used + 2, 2);
    var entry := q.used + 4 + idx % q.num * 8;
    var m1 := StoreLe(m, entry, head, 4);
    var m2 := StoreLe(m1, entry + 4, len, 4);
    StoredByte(m, entry, Le(head, 4), a);
    StoredByte(m1, entry + 4, Le(len, 4), a);
    StoredByte(m2, q.used + 2, Le(Wrap16(idx + 1), 2), a);
  }

  lemma PushStaysInRing(m: Mem, q: Queue, head: nat, len: nat, a: nat)
    requires q.num > 0 && !InRing(q, a)
    ensures ByteAt(PushUsed(m, q, head, len), a) == ByteAt(m, a)
  {
    hide PushUsed, ByteAt, LoadLe;
    PushedByte(m, q, head, len, a);
    assert LoadLe(m, q.used + 2, 2) % q.num < q.num;
  }

  lemma PushIsLocal(m: Mem, m': Mem, q: Queue, head: nat, len: nat, a: nat)
    requires q.num > 0 && SameExtent(m, m') && (forall x :: InRing(q, x) ==> ByteAt(m, x) == ByteAt(m', x))
    requires InRing(q, a)
    ensures ByteAt(PushUsed(m, q, head, len), a) == ByteAt(PushUsed(m', q, head, len), a)
  {
    hide PushUsed, ByteAt, Load;
    LoadAgrees(m, m', q.used + 2, 2);
    PushedByte(m, q, head, len, a);
    PushedByte(m', q, head, len, a);
  }

  lemma {:induction false} ReportStaysInRings(m: Mem, qs: seq<Queue>, cs: seq<Completion>, a: nat)
    requires Programmed(qs) && !InRings(qs, a)
    ensures ByteAt(Report(m, qs, cs), a) == ByteAt(m, a)
    decreases |cs|
  {
    hide PushUsed, ByteAt, InRing;
    if cs == [] {
    } else {
      var c := cs[0];
      if c.queue < |qs| {
        PushStaysInRing(m, qs[c.queue], c.head, c.len, a);
      }
      ReportStaysInRings(if c.queue < |qs| then PushUsed(m, qs[c.queue], c.head, c.len) else m, qs, cs[1..], a);
    }
  }

  lemma PushAgrees(m: Mem, m': Mem, qs: seq<Queue>, k: nat, head: nat, len: nat)
    requires Programmed(qs) && k < |qs| && AgreeOn(m, m', qs)
    ensures AgreeOn(PushUsed(m, qs[k], head, len), PushUsed(m', qs[k], head, len), qs)
  {
    hide PushUsed, ByteAt, InRing;
    forall a | InRings(qs, a)
      ensures ByteAt(PushUsed(m, qs[k], head, len), a) == ByteAt(PushUsed(m', qs[k], head, len), a)
    {
      if InRing(qs[k], a) {
        forall x | InRing(qs[k], x)
          ensures ByteAt(m, x) == ByteAt(m', x)
        {
          assert InRings(qs, x);
        }
        PushIsLocal(m, m', qs[k], head, len, a);
      } else {
        PushStaysInRing(m, qs[k], head, len, a);
        PushStaysInRing(m', qs[k], head, len, a);
      }
    }
  }

  lemma {:induction false} ReportAgrees(m: Mem, m': Mem, qs: seq<Queue>, cs: seq<Completion>)
    requires Programmed(qs) && AgreeOn(m, m', qs)
    ensures AgreeOn(Report(m, qs, cs), Report(m', qs, cs), qs)
    decreases |cs|
  {
    hide PushUsed, AgreeOn;
    if cs == [] {
    } else {
      var c := cs[0];
      if c.queue < |qs| {
        PushAgrees(m, m', qs, c.queue, c.head, c.len);
        ReportAgrees(PushUsed(m, qs[c.queue], c.head, c.len), PushUsed(m', qs[c.queue], c.head, c.len), qs, cs[1..]);
      } else {
        ReportAgrees(m, m', qs, cs[1..]);
      }
    }
  }

  ghost predicate RingsApart(p: seq<Queue>, q: seq<Queue>) { forall a :: !(InRings(p, a) && InRings(q, a)) }

  /** Reports of slots whose used rings are apart commute. */
  lemma ReportsCommute(m: Mem, p: seq<Queue>, a: seq<Completion>, q: seq<Queue>, b: seq<Completion>)
    requires Programmed(p) && Programmed(q) && RingsApart(p, q)
    ensures Report(Report(m, p, a), q, b) == Report(Report(m, q, b), p, a)
  {
    hide Report, ByteAt, InRings;
    var ma, mb := Report(m, p, a), Report(m, q, b);
    assert AgreeOn(m, mb, p) by {
      forall x | InRings(p, x) ensures ByteAt(m, x) == ByteAt(mb, x) { ReportStaysInRings(m, q, b, x); }
    }
    assert AgreeOn(m, ma, q) by {
      forall x | InRings(q, x) ensures ByteAt(m, x) == ByteAt(ma, x) { ReportStaysInRings(m, p, a, x); }
    }
    ReportAgrees(m, mb, p, a);
    ReportAgrees(m, ma, q, b);
    var ab, ba := Report(ma, q, b), Report(mb, p, a);
    forall x
      ensures ByteAt(ab, x) == ByteAt(ba, x)
    {
      if !InRings(q, x) { ReportStaysInRings(ma, q, b, x); ReportStaysInRings(m, q, b, x); }
      if !InRings(p, x) { ReportStaysInRings(mb, p, a, x); ReportStaysInRings(m, p, a, x); }
    }
    SameBytes(ab, ba);
  }

  // ── All slots ─────────────────────────────────────────────────────────────

  /** Report each slot's completions, slot after slot. */
  function ReportAll(m: Mem, qss: seq<seq<Queue>>, fs: seq<seq<Completion>>): (m': Mem)
    requires |qss| == |fs| && forall k :: 0 <= k < |qss| ==> Programmed(qss[k])
    ensures SameExtent(m, m')
    decreases |qss|
  {
    if qss == [] then m else ReportAll(Report(m, qss[0], fs[0]), qss[1..], fs[1..])
  }

  /** No two slots share a byte of their used rings. */
  ghost predicate AllApart(qss: seq<seq<Queue>>) {
    forall j, k :: 0 <= j < k < |qss| ==> RingsApart(qss[j], qss[k])
  }

  function Zip(a: seq<seq<Completion>>, b: seq<seq<Completion>>): seq<seq<Completion>>
    requires |a| == |b|
  {
    seq(|a|, k requires 0 <= k < |a| => a[k] + b[k])
  }

  lemma {:induction false} ReportPastOthers(m: Mem, q: seq<Queue>, c: seq<Completion>, qss: seq<seq<Queue>>,
                                            fs: seq<seq<Completion>>)
    requires Programmed(q) && |qss| == |fs|
    requires forall k :: 0 <= k < |qss| ==> Programmed(qss[k]) && RingsApart(q, qss[k])
    ensures Report(ReportAll(m, qss, fs), q, c) == ReportAll(Report(m, q, c), qss, fs)
    decreases |qss|
  {
    hide Report, RingsApart, Programmed;
    if qss == [] {
    } else {
      ReportsCommute(m, q, c, qss[0], fs[0]);
      ReportPastOthers(Report(m, qss[0], fs[0]), q, c, qss[1..], fs[1..]);
    }
  }

  /** Reporting in two rounds is reporting each slot's two lists as one. */
  lemma {:induction false} ReportAllTwice(m: Mem, qss: seq<seq<Queue>>, a: seq<seq<Completion>>,
                                          b: seq<seq<Completion>>)
    requires |qss| == |a| == |b| && AllApart(qss) && forall k :: 0 <= k < |qss| ==> Programmed(qss[k])
    ensures ReportAll(ReportAll(m, qss, a), qss, b) == ReportAll(m, qss, Zip(a, b))
    decreases |qss|
  {
    hide Report, RingsApart, Programmed;
    if qss == [] {
    } else {
      var m1 := Report(m, qss[0], a[0]);
      forall k | 0 <= k < |qss[1..]|
        ensures RingsApart(qss[0], qss[1..][k])
      {
        assert RingsApart(qss[0], qss[k + 1]);
      }
      ReportPastOthers(m1, qss[0], b[0], qss[1..], a[1..]);
      ReportInParts(m, qss[0], a[0], b[0]);
      assert AllApart(qss[1..]) by {
        forall j, k | 0 <= j < k < |qss[1..]|
          ensures RingsApart(qss[1..][j], qss[1..][k])
        {
          assert RingsApart(qss[j + 1], qss[k + 1]);
        }
      }
      ReportAllTwice(Report(m1, qss[0], b[0]), qss[1..], a[1..], b[1..]);
      assert Zip(a, b)[0] == a[0] + b[0] && Zip(a, b)[1..] == Zip(a[1..], b[1..]);
    }
  }

  // ── The bus ───────────────────────────────────────────────────────────────

  datatype Bus = Bus(mem: Mem, slots: seq<Slot>, mtime: nat, accum: nat)

  function QueuesOf(slots: seq<Slot>): (r: seq<seq<Queue>>)
    ensures |r| == |slots|
  {
    seq(|slots|, k requires 0 <= k < |slots| => slots[k].queues)
  }

  function FiredOf(slots: seq<Slot>, n: nat): (r: seq<seq<Completion>>)
    ensures |r| == |slots|
  {
    seq(|slots|, k requires 0 <= k < |slots| => Advance(slots[k], n).1)
  }

  function AdvanceAll(slots: seq<Slot>, n: nat): (r: seq<Slot>)
    ensures |r| == |slots|
  {
    seq(|slots|, k requires 0 <= k < |slots| => Advance(slots[k], n).0)
  }

  predicate SlotsOk(slots: seq<Slot>) { forall k :: 0 <= k < |slots| ==> Programmed(slots[k].queues) }

  /** Every slot in turn: advance its clock, report what fell due. */
  function VirtioTick(m: Mem, slots: seq<Slot>, n: nat): (Mem, seq<Slot>)
    requires SlotsOk(slots)
    decreases |slots|
  {
    if slots == [] then (m, [])
    else
      var (s, fired) := Advance(slots[0], n);
      var (m', rest) := VirtioTick(Report(m, slots[0].queues, fired), slots[1..], n);
      (m', [s] + rest)
  }

  lemma {:induction false} VirtioTickAll(m: Mem, slots: seq<Slot>, n: nat)
    requires SlotsOk(slots)
    ensures VirtioTick(m, slots, n) == (ReportAll(m, QueuesOf(slots), FiredOf(slots, n)), AdvanceAll(slots, n))
    decreases |slots|
  {
    if slots == [] {
    } else {
      hide Report, Advance, Programmed;
      var (s, fired) := Advance(slots[0], n);
      VirtioTickAll(Report(m, slots[0].queues, fired), slots[1..], n);
      assert QueuesOf(slots)[1..] == QueuesOf(slots[1..]);
      assert FiredOf(slots, n)[1..] == FiredOf(slots[1..], n);
      assert AdvanceAll(slots, n) == [s] + AdvanceAll(slots[1..], n);
    }
  }

  /** One retired instruction. */
  function Tick(b: Bus): Bus
    requires SlotsOk(b.slots)
  {
    var (m, slots) := VirtioTick(b.mem, b.slots, 1);
    if b.accum + 1 >= STEPS_PER_TICK
    then Bus(m, slots, Wrap64(b.mtime + 1), 0)
    else Bus(m, slots, b.mtime, b.accum + 1)
  }

  /** `n` retired instructions at once. */
  function TickN(b: Bus, n: nat): Bus
    requires SlotsOk(b.slots)
  {
    if n == 0 then b
    else if n == 1 then Tick(b)
    else
      var (m, slots) := VirtioTick(b.mem, b.slots, n);
      Bus(m, slots, Wrap64(b.mtime + (b.accum + n) / STEPS_PER_TICK), (b.accum + n) % STEPS_PER_TICK)
  }

  lemma AdvanceKeepsQueues(slots: seq<Slot>, n: nat)
    ensures QueuesOf(AdvanceAll(slots, n)) == QueuesOf(slots)
    ensures SlotsOk(slots) ==> SlotsOk(AdvanceAll(slots, n))
  {
    hide Due, Programmed;
    forall k | 0 <= k < |slots|
      ensures AdvanceAll(slots, n)[k].queues == slots[k].queues
    {
    }
  }

  /** `n` single steps. */
  function Steps(b: Bus, n: nat): (b': Bus)
    requires SlotsOk(b.slots)
    ensures SlotsOk(b'.slots)
    decreases n
  {
    if n == 0 then b
    else
      var before := Steps(b, n - 1);
      VirtioTickAll(before.mem, before.slots, 1);
      AdvanceKeepsQueues(before.slots, 1);
      Tick(before)
  }

  /** The same machine but for clocks that nothing waits on. */
  predicate SameBus(a: Bus, b: Bus) {
    && a.mem == b.mem && a.mtime == b.mtime && a.accum == b.accum && |a.slots| == |b.slots|
    && forall k :: 0 <= k < |a.slots| ==> SameSlot(a.slots[k], b.slots[k])
  }

  ghost predicate BusOk(b: Bus, n: nat) {
    && b.accum < STEPS_PER_TICK && b.mtime < 0x1_0000_0000_0000_0000
    && SlotsOk(b.slots) && AllApart(QueuesOf(b.slots))
    && forall k :: 0 <= k < |b.slots| ==> NoWrap(b.slots[k], n)
  }

  /** The closed form of a batch, for every size. */
  lemma TickNForm(b: Bus, n: nat)
    requires BusOk(b, n)
    ensures var b' := TickN(b, n);
      && b'.mtime == Wrap64(b.mtime + (b.accum + n) / 10) && b'.accum == (b.accum + n) % 10
      && (n > 0 ==> b'.mem == ReportAll(b.mem, QueuesOf(b.slots), FiredOf(b.slots, n)))
      && (n > 0 ==> b'.slots == AdvanceAll(b.slots, n))
      && SlotsOk(b'.slots)
  {
    hide Report, Advance, Programmed, ReportAll, AllApart;
    VirtioTickAll(b.mem, b.slots, n);
    AdvanceKeepsQueues(b.slots, n);
  }

  /** A step respects what does not matter. */
  lemma TickRespects(a: Bus, b: Bus)
    requires SlotsOk(a.slots) && SlotsOk(b.slots) && SameBus(a, b)
    ensures SameBus(Tick(a), Tick(b))
  {
    hide Report, Advance, Programmed, ReportAll;
    VirtioTickAll(a.mem, a.slots, 1);
    VirtioTickAll(b.mem, b.slots, 1);
    forall k | 0 <= k < |a.slots|
      ensures Advance(a.slots[k], 1).1 == Advance(b.slots[k], 1).1
      ensures SameSlot(Advance(a.slots[k], 1).0, Advance(b.slots[k], 1).0)
    {
      AdvanceRespects(a.slots[k], b.slots[k], 1);
    }
    assert FiredOf(a.slots, 1) == FiredOf(b.slots, 1);
    assert QueuesOf(a.slots) == QueuesOf(b.slots) by {
      forall k | 0 <= k < |a.slots|
        ensures a.slots[k].queues == b.slots[k].queues
      {
        assert SameSlot(a.slots[k], b.slots[k]);
      }
    }
  }

  lemma TimerStep(mtime: nat, accum: nat, n: nat)
    requires accum < 10
    ensures var (t, c) := (Wrap64(mtime + (accum + n) / 10), (accum + n) % 10);
      && (c + 1 >= 10 ==> (accum + n + 1) % 10 == 0)
      && (c + 1 >= 10 ==> Wrap64(t + 1) == Wrap64(mtime + (accum + n + 1) / 10))
      && (c + 1 < 10 ==> (accum + n + 1) % 10 == c + 1 && (accum + n + 1) / 10 == (accum + n) / 10)
  {
    hide Wrap64;
    TenStep(accum + n);
    WrapStep64(mtime + (accum + n) / 10);
  }

  lemma TenStep(x: nat)
    ensures x % 10 == 9 ==> (x + 1) % 10 == 0 && (x + 1) / 10 == x / 10 + 1
    ensures x % 10 != 9 ==> (x + 1) % 10 == x % 10 + 1 && (x + 1) / 10 == x / 10
  {}

  lemma WrapStep64(x: nat)
    ensures Wrap64(Wrap64(x) + 1) == Wrap64(x + 1)
  {}

  lemma SlotsAfterBatchAndStep(slots: seq<Slot>, n: nat)
    requires forall k :: 0 <= k < |slots| ==> NoWrap(slots[k], n + 1)
    ensures Zip(FiredOf(slots, n), FiredOf(AdvanceAll(slots, n), 1)) == FiredOf(slots, n + 1)
    ensures forall k :: 0 <= k < |slots| ==>
      SameSlot(AdvanceAll(AdvanceAll(slots, n), 1)[k], AdvanceAll(slots, n + 1)[k])
  {
    hide Advance, SameSlot;
    forall k | 0 <= k < |slots|
      ensures Zip(FiredOf(slots, n), FiredOf(AdvanceAll(slots, n), 1))[k] == FiredOf(slots, n + 1)[k]
      ensures SameSlot(AdvanceAll(AdvanceAll(slots, n), 1)[k], AdvanceAll(slots, n + 1)[k])
    {
      AdvanceTwice(slots[k], n);
    }
  }

  /** A batch of `n` and a step is a batch of `n + 1`. */
  lemma BatchAndStep(b: Bus, n: nat)
    requires BusOk(b, n + 1) && n > 0
    ensures SlotsOk(TickN(b, n).slots) && SameBus(Tick(TickN(b, n)), TickN(b, n + 1))
  {
    hide Programmed, ReportAll, AllApart, TickN, FiredOf, AdvanceAll, QueuesOf, SameSlot, VirtioTick, Zip;
    assert BusOk(b, n);
    TickNForm(b, n);
    TickNForm(b, n + 1);
    TimerStep(b.mtime, b.accum, n);
    var b1 := TickN(b, n);
    AdvanceKeepsQueues(b.slots, n);
    VirtioTickAll(b1.mem, b1.slots, 1);
    SlotsAfterBatchAndStep(b.slots, n);
    AllProgrammed(b.slots);
    ReportAllTwice(b.mem, QueuesOf(b.slots), FiredOf(b.slots, n), FiredOf(b1.slots, 1));
  }

  lemma AllProgrammed(slots: seq<Slot>)
    requires SlotsOk(slots)
    ensures forall k :: 0 <= k < |slots| ==> Programmed(QueuesOf(slots)[k])
  {}

  /** Batched time equals single steps: the same memory, the same timer, the same interrupts raised and
      the same completions with the same time left. */
  lemma {:induction false} BatchEqualsSteps(b: Bus, n: nat)
    requires BusOk(b, n)
    ensures SameBus(Steps(b, n), TickN(b, n))
    decreases n
  {
    hide Tick, SlotsOk, AllApart, TickN, Steps;
    if n <= 1 {
      FewSteps(b);
    } else {
      assert BusOk(b, n - 1);
      BatchEqualsSteps(b, n - 1);
      BatchAndStep(b, n - 1);
      TickRespects(Steps(b, n - 1), TickN(b, n - 1));
      LastStep(b, n);
      SameBusTrans(Steps(b, n), Tick(TickN(b, n - 1)), TickN(b, n));
    }
  }

  lemma FewSteps(b: Bus)
    requires SlotsOk(b.slots)
    ensures SameBus(Steps(b, 0), TickN(b, 0)) && SameBus(Steps(b, 1), TickN(b, 1))
  {
    assert Steps(b, 0) == b;
  }

  lemma LastStep(b: Bus, n: nat)
    requires SlotsOk(b.slots) && n > 0
    ensures Steps(b, n) == Tick(Steps(b, n - 1))
  {}

  lemma SameBusTrans(a: Bus, b: Bus, c: Bus)
    requires SameBus(a, b) && SameBus(b, c)
    ensures SameBus(a, c)
  {
    forall k | 0 <= k < |a.slots|
      ensures SameSlot(a.slots[k], c.slots[k])
    {
      assert SameSlot(a.slots[k], b.slots[k]) && SameSlot(b.slots[k], c.slots[k]);
    }
  }

  // ── The bus in place ──────────────────────────────────────────────────────

  class DeviceBus {
    var mem: Mem
    var slots: seq<Slot>
    var mtime: nat
    var accum: nat

    ghost function Value(): Bus
      reads this
    {
      Bus(mem, slots, mtime, accum)
    }

    /** Advance every slot that has work, reporting into the shared memory as it goes. */
    method TickSlots(n: nat)
      requires SlotsOk(slots)
      modifies this`mem, this`slots
      ensures mem == VirtioTick(old(mem), old(slots), n).0 && slots == VirtioTick(old(mem), old(slots), n).1
    {
      hide Report, Elapse, Programmed, VirtioTick;
      ghost var whole := VirtioTick(mem, slots, n);
      assert slots[0..] == slots && slots[..0] + whole.1 == whole.1;
      for k := 0 to |slots|
        invariant |slots| == |old(slots)| && slots[k..] == old(slots)[k..] && SlotsOk(slots[k..])
        invariant whole.0 == VirtioTick(mem, slots[k..], n).0
        invariant whole.1 == slots[..k] + VirtioTick(mem, slots[k..], n).1
      {
        var s := slots[k];
        ghost var before := slots;
        assert slots[k..][0] == s && slots[k..][1..] == slots[k + 1..];
        TickUnfolds(mem, slots[k..], n);
        if s.pending != [] {
          var (s', fired) := Elapse(s, n);
          mem := Report(mem, s.queues, fired);
          slots := slots[k := s'];
        } else {
          NothingToReport(mem, s.queues);
        }
        assert slots[k + 1..] == before[k + 1..] && slots[..k + 1] == before[..k] + [slots[k]];
        ghost var rest := VirtioTick(mem, slots[k + 1..], n).1;
        assert before[..k] + ([slots[k]] + rest) == slots[..k + 1] + rest;
      }
      assert slots[|slots|..] == [] && slots[..|slots|] + [] == slots;
      NoSlots(mem, n);
    }

    /** One retired instruction. */
    method StepOnce()
      requires SlotsOk(slots)
      modifies this
      ensures Value() == Tick(old(Value()))
    {
      hide VirtioTick, Wrap64, SlotsOk;
      accum := accum + 1;
      if accum >= STEPS_PER_TICK {
        accum := 0;
        mtime := Wrap64(mtime + 1);
      }
      TickSlots(1);
    }

    /** A batch of retired instructions. */
    method StepMany(n: nat)
      requires SlotsOk(slots)
      modifies this
      ensures Value() == TickN(old(Value()), n)
    {
      hide VirtioTick, Wrap64, SlotsOk, Tick;
      if n == 0 {
        return;
      }
      if n == 1 {
        StepOnce();
        return;
      }
      accum := accum + n;
      var ticks := accum / STEPS_PER_TICK;
      accum := accum % STEPS_PER_TICK;
      mtime := Wrap64(mtime + ticks);
      TickSlots(n);
    }
  }

  lemma TickUnfolds(m: Mem, slots: seq<Slot>, n: nat)
    requires SlotsOk(slots) && slots != []
    ensures SlotsOk(slots[1..]) && Programmed(slots[0].queues)
    ensures var (s, fired) := Advance(slots[0], n);
      var rest := VirtioTick(Report(m, slots[0].queues, fired), slots[1..], n);
      VirtioTick(m, slots, n) == (rest.0, [s] + rest.1)
  {
    hide Report, Advance;
  }

  lemma NoSlots(m: Mem, n: nat)
    ensures VirtioTick(m, [], n) == (m, [])
  {}

  lemma NothingToReport(m: Mem, qs: seq<Queue>)
    requires Programmed(qs)
    ensures Report(m, qs, []) == m
  {}
}
