/** What the driver reads: the used rings show exactly the reported chains, in the order of the reports. */
module UsedRing {
  import opened Bytes
  import opened GuestMemory
  import opened Virtqueue
  import opened DeviceClock
  import T = Transport

  /** The driver's view of a used ring: how far it has got, and the entry in a slot. */
  function UsedIndex(m: Mem, q: Queue): nat { LoadLe(m, q.used + 2, 2) }

  function UsedEntry(m: Mem, q: Queue, slot: nat): (nat, nat) {
    (LoadLe(m, q.used + 4 + slot * 8, 4), LoadLe(m, q.used + 4 + slot * 8 + 4, 4))
  }

  predicate RingInside(m: Mem, q: Queue) { q.num > 0 && Inside(m, q.used, 4 + q.num * 8) }

  // ── Loads after stores ────────────────────────────────────────────────────

  lemma LoadElsewhere(m: Mem, at: nat, src: seq<byte>, b: nat, n: nat)
    requires at + |src| <= b || b + n <= at
    ensures Load(Store(m, at, src), b, n) == Load(m, b, n)
  {
    hide Load, ByteAt, Store;
    forall a | b <= a < b + n
      ensures ByteAt(Store(m, at, src), a) == ByteAt(m, a)
    {
      StoredByte(m, at, src, a);
    }
    LoadAgrees(m, Store(m, at, src), b, n);
  }

  lemma LoadLeStored(m: Mem, at: nat, v: nat, n: nat)
    requires Inside(m, at, n) && v < Pow256(n)
    ensures LoadLe(StoreLe(m, at, v, n), at, n) == v
  {
    hide Le, FromLe;
    LeRoundTrip(v, n);
    assert Load(Store(m, at, Le(v, n)), at, n) == Le(v, n);
  }

  // ── One report ────────────────────────────────────────────────────────────

  /** A report puts the chain and the length into the slot of the index and advances the index. */
  lemma PushShows(m: Mem, q: Queue, head: nat, len: nat)
    requires RingInside(m, q) && head < 0x1_0000_0000 && len < 0x1_0000_0000
    ensures var (m', idx) := (PushUsed(m, q, head, len), UsedIndex(m, q));
      UsedIndex(m', q) == Wrap16(idx + 1) && UsedEntry(m', q, idx % q.num) == (head, len)
  {
    hide Load, Store, FromLe, Le, Pow256;
    var idx := UsedIndex(m, q);
    var slot := idx % q.num;
    SlotFits(slot, q.num);
    var entry := q.used + 4 + slot * 8;
    var m1 := StoreLe(m, entry, head, 4);
    var m2 := StoreLe(m1, entry + 4, len, 4);
    Pow256Values();
    LoadLeStored(m, entry, head, 4);
    LoadElsewhere(m1, entry + 4, Le(len, 4), entry, 4);
    LoadElsewhere(m2, q.used + 2, Le(Wrap16(idx + 1), 2), entry, 4);
    LoadLeStored(m1, entry + 4, len, 4);
    LoadElsewhere(m2, q.used + 2, Le(Wrap16(idx + 1), 2), entry + 4, 4);
    LoadLeStored(m2, q.used + 2, Wrap16(idx + 1), 2);
  }

  lemma SlotFits(slot: nat, num: nat)
    requires slot < num
    ensures 0 <= slot * 8 && slot * 8 + 8 <= num * 8
  {}

  lemma SlotsApart(a: nat, b: nat)
    requires a != b
    ensures a * 8 + 8 <= b * 8 || b * 8 + 8 <= a * 8
  {}

  /** It leaves every other slot as it was. */
  lemma PushKeeps(m: Mem, q: Queue, head: nat, len: nat, slot: nat)
    requires q.num > 0 && slot != UsedIndex(m, q) % q.num
    ensures UsedEntry(PushUsed(m, q, head, len), q, slot) == UsedEntry(m, q, slot)
  {
    hide Load, Store, FromLe, Le;
    var idx := UsedIndex(m, q);
    var entry, other := q.used + 4 + idx % q.num * 8, q.used + 4 + slot * 8;
    SlotsApart(slot, idx % q.num);
    var m1 := StoreLe(m, entry, head, 4);
    var m2 := StoreLe(m1, entry + 4, len, 4);
    var last := Le(Wrap16(idx + 1), 2);
    LoadElsewhere(m, entry, Le(head, 4), other, 4);
    LoadElsewhere(m1, entry + 4, Le(len, 4), other, 4);
    LoadElsewhere(m2, q.used + 2, last, other, 4);
    LoadElsewhere(m, entry, Le(head, 4), other + 4, 4);
    LoadElsewhere(m1, entry + 4, Le(len, 4), other + 4, 4);
    LoadElsewhere(m2, q.used + 2, last, other + 4, 4);
  }

  /** A report into a ring that is apart changes nothing the driver reads in this one. */
  lemma PushApart(m: Mem, p: Queue, q: Queue, head: nat, len: nat, slot: nat)
    requires p.num > 0 && slot < q.num && forall a :: !(InRing(p, a) && InRing(q, a))
    ensures var m' := PushUsed(m, p, head, len);
      UsedIndex(m', q) == UsedIndex(m, q) && UsedEntry(m', q, slot) == UsedEntry(m, q, slot)
  {
    hide PushUsed, ByteAt, Load, FromLe;
    var m' := PushUsed(m, p, head, len);
    SlotFits(slot, q.num);
    forall a | InRing(q, a)
      ensures ByteAt(m', a) == ByteAt(m, a)
    {
      PushStaysInRing(m, p, head, len, a);
    }
    LoadAgrees(m, m', q.used + 2, 2);
    LoadAgrees(m, m', q.used + 4 + slot * 8, 4);
    LoadAgrees(m, m', q.used + 4 + slot * 8 + 4, 4);
  }

  // ── Many reports ──────────────────────────────────────────────────────────

  /** The completions for queue `j`, in order. */
  function For(cs: seq<Completion>, j: nat): seq<Completion> {
    if cs == [] then [] else (if cs[0].queue == j then [cs[0]] else []) + For(cs[1..], j)
  }

  /** No two of the rings overlap, and each lies in DRAM. */
  ghost predicate Laid(m: Mem, qs: seq<Queue>) {
    && (forall k :: 0 <= k < |qs| ==> RingInside(m, qs[k]))
    && (forall i, k, a :: 0 <= i < k < |qs| ==> !(InRing(qs[i], a) && InRing(qs[k], a)))
  }

  /** Chains and lengths fit the 32 bits they are reported in. */
  predicate Reportable(cs: seq<Completion>) {
    forall k :: 0 <= k < |cs| ==> cs[k].head < 0x1_0000_0000 && cs[k].len < 0x1_0000_0000
  }

  /** From memory `m` to `m'`, ring `q` has gained exactly the entries of `mine`, in order, and kept the rest. */
  ghost predicate Gained(m: Mem, m': Mem, q: Queue, mine: seq<Completion>)
    requires q.num > 0
  {
    var idx := UsedIndex(m, q);
    && UsedIndex(m', q) == Wrap16(idx + |mine|)
    && (forall k :: 0 <= k < |mine| ==> UsedEntry(m', q, SlotAfter(idx, k, q.num)) == (mine[k].head, mine[k].len))
    && (forall slot :: 0 <= slot < q.num && Untouched(slot, idx, |mine|, q.num) ==>
          UsedEntry(m', q, slot) == UsedEntry(m, q, slot))
  }

  /** The slot of the `k`th entry after index `idx`. */
  function SlotAfter(idx: nat, k: nat, num: nat): nat
    requires num > 0
  {
    Slot16(idx + k, num)
  }

  predicate Untouched(slot: nat, idx: nat, n: nat, num: nat)
    requires num > 0
  {
    forall k :: 0 <= k < n ==> SlotAfter(idx, k, num) != slot
  }

  lemma NothingGained(m: Mem, m': Mem, q: Queue)
    requires q.num > 0 && UsedIndex(m', q) == UsedIndex(m, q) < 0x1_0000
    requires forall slot :: 0 <= slot < q.num ==> UsedEntry(m', q, slot) == UsedEntry(m, q, slot)
    ensures Gained(m, m', q, [])
  {
    hide UsedEntry, UsedIndex;
  }

  lemma IndexFits(m: Mem, q: Queue)
    ensures UsedIndex(m, q) < 0x1_0000
  {
    Pow256Values();
  }

  /** The slots of fewer positions than the ring has are different. */
  lemma FirstSlotIsSpared(idx: u16, n: nat, num: nat)
    requires 0 < num && 0x1_0000 % num == 0 && n < num
    ensures SlotAfter(idx, 0, num) == idx % num && Untouched(idx % num, Wrap16(idx + 1), n, num)
  {
    var next := Wrap16(idx + 1);
    forall k | 0 <= k < n
      ensures SlotAfter(next, k, num) != idx % num
    {
      WrapShift(idx, k, num);
      WrapIsInvisible(idx + (k + 1), num);
      Shifted(idx, k + 1, num);
    }
  }

  lemma WrapShift(idx: u16, k: nat, num: nat)
    requires num > 0
    ensures SlotAfter(Wrap16(idx + 1), k, num) == SlotAfter(idx, k + 1, num)
  {}

  lemma Shifted(x: nat, d: nat, n: nat)
    requires 0 < d < n
    ensures (x + d) % n != x % n
  {
    var q := (x + d) / n - x / n;
    assert n * q == n * ((x + d) / n) - n * (x / n);
    Multiples(n, q);
  }

  /** One entry and then the others are the whole list. */
  lemma GainedFirst(m: Mem, m1: Mem, m': Mem, q: Queue, mine: seq<Completion>)
    requires 0 < q.num && 0x1_0000 % q.num == 0 && mine != [] && |mine| <= q.num && UsedIndex(m, q) < 0x1_0000
    requires Gained(m, m1, q, mine[..1]) && Gained(m1, m', q, mine[1..])
    ensures Gained(m, m', q, mine)
  {
    hide UsedEntry, UsedIndex, SlotAfter, Untouched, Wrap16;
    var idx, num := UsedIndex(m, q), q.num;
    var idx1 := Wrap16(idx + 1);
    assert UsedIndex(m1, q) == idx1;
    WrapStep(idx, |mine|);
    FirstSlotIsSpared(idx, |mine| - 1, num);
    forall k | 0 <= k < |mine|
      ensures UsedEntry(m', q, SlotAfter(idx, k, num)) == (mine[k].head, mine[k].len)
    {
      if k == 0 {
        assert UsedEntry(m1, q, SlotAfter(idx, 0, num)) == (mine[..1][0].head, mine[..1][0].len);
      } else {
        WrapShift(idx, k - 1, num);
        assert mine[1..][k - 1] == mine[k];
        assert UsedEntry(m', q, SlotAfter(idx1, k - 1, num)) == (mine[k].head, mine[k].len);
      }
    }
    forall slot | 0 <= slot < num && Untouched(slot, idx, |mine|, num)
      ensures UsedEntry(m', q, slot) == UsedEntry(m, q, slot)
    {
      UntouchedParts(slot, idx, |mine|, num);
    }
  }

  lemma UntouchedParts(slot: nat, idx: u16, n: nat, num: nat)
    requires num > 0 && n > 0 && Untouched(slot, idx, n, num)
    ensures Untouched(slot, idx, 1, num) && Untouched(slot, Wrap16(idx + 1), n - 1, num)
  {
    var next := Wrap16(idx + 1);
    forall k | 0 <= k < n - 1
      ensures SlotAfter(next, k, num) != slot
    {
      WrapShift(idx, k, num);
      var later := k + 1;
      assert SlotAfter(idx, later, num) != slot;
    }
  }

  lemma OneGained(m: Mem, q: Queue, c: Completion)
    requires RingInside(m, q) && c.head < 0x1_0000_0000 && c.len < 0x1_0000_0000
    ensures Gained(m, PushUsed(m, q, c.head, c.len), q, [c])
  {
    hide UsedEntry, UsedIndex, PushUsed;
    IndexFits(m, q);
    PushShows(m, q, c.head, c.len);
    var idx := UsedIndex(m, q);
    assert SlotAfter(idx, 0, q.num) == idx % q.num;
    forall slot | 0 <= slot < q.num && Untouched(slot, idx, 1, q.num)
      ensures UsedEntry(PushUsed(m, q, c.head, c.len), q, slot) == UsedEntry(m, q, slot)
    {
      assert SlotAfter(idx, 0, q.num) != slot;
      PushKeeps(m, q, c.head, c.len, slot);
    }
  }

  lemma OthersGainNothing(m: Mem, p: Queue, q: Queue, c: Completion)
    requires p.num > 0 && q.num > 0 && forall a :: !(InRing(p, a) && InRing(q, a))
    ensures Gained(m, PushUsed(m, p, c.head, c.len), q, [])
  {
    hide UsedEntry, UsedIndex, PushUsed, InRing;
    IndexFits(m, q);
    forall slot | 0 <= slot < q.num
      ensures UsedEntry(PushUsed(m, p, c.head, c.len), q, slot) == UsedEntry(m, q, slot)
    {
      PushApart(m, p, q, c.head, c.len, slot);
    }
    PushApart(m, p, q, c.head, c.len, 0);
    NothingGained(m, PushUsed(m, p, c.head, c.len), q);
  }

  lemma GainedNothingFirst(m: Mem, m1: Mem, m': Mem, q: Queue, mine: seq<Completion>)
    requires q.num > 0 && Gained(m, m1, q, []) && Gained(m1, m', q, mine) && UsedIndex(m, q) < 0x1_0000
    ensures Gained(m, m', q, mine)
  {
    hide UsedEntry, UsedIndex, SlotAfter;
    forall slot | 0 <= slot < q.num
      ensures UsedEntry(m1, q, slot) == UsedEntry(m, q, slot)
    {
      assert Untouched(slot, UsedIndex(m, q), 0, q.num);
    }
  }

  lemma LaidStays(m: Mem, m': Mem, qs: seq<Queue>)
    requires Laid(m, qs) && SameExtent(m, m')
    ensures Laid(m', qs)
  {}

  /** However the completions of a slot's queues are mixed: each queue's ring shows its own, in order, as
      long as it has room for them. */
  lemma {:induction false} RingsShowReports(m: Mem, qs: seq<Queue>, cs: seq<Completion>, j: nat)
    requires Programmed(qs) && Laid(m, qs) && Reportable(cs)
    requires j < |qs| && 0x1_0000 % qs[j].num == 0 && |For(cs, j)| <= qs[j].num
    ensures Gained(m, Report(m, qs, cs), qs[j], For(cs, j))
    decreases |cs|
  {
    hide Gained, PushUsed, Laid, InRing, UsedIndex;
    var q := qs[j];
    IndexFits(m, q);
    if cs == [] {
      GainsNothing(m, q);
    } else {
      var c := cs[0];
      var m1 := if c.queue < |qs| then PushUsed(m, qs[c.queue], c.head, c.len) else m;
      LaidStays(m, m1, qs);
      RingsShowReports(m1, qs, cs[1..], j);
      var m' := Report(m1, qs, cs[1..]);
      if c.queue == j {
        RingIsInside(m, qs, j);
        OneGained(m, q, c);
        assert For(cs, j)[..1] == [c] && For(cs, j)[1..] == For(cs[1..], j);
        GainedFirst(m, m1, m', q, For(cs, j));
      } else {
        if c.queue < |qs| {
          RingsAreApart(m, qs, c.queue, j);
          OthersGainNothing(m, qs[c.queue], q, c);
        } else {
          GainsNothing(m, q);
        }
        assert [] + For(cs[1..], j) == For(cs[1..], j);
        GainedNothingFirst(m, m1, m', q, For(cs, j));
      }
    }
  }

  lemma GainsNothing(m: Mem, q: Queue)
    requires q.num > 0
    ensures Gained(m, m, q, [])
  {
    IndexFits(m, q);
    NothingGained(m, m, q);
  }

  lemma RingIsInside(m: Mem, qs: seq<Queue>, j: nat)
    requires Laid(m, qs) && j < |qs|
    ensures RingInside(m, qs[j])
  {}

  lemma RingsAreApart(m: Mem, qs: seq<Queue>, i: nat, k: nat)
    requires Laid(m, qs) && i < |qs| && k < |qs| && i != k
    ensures forall a :: !(InRing(qs[i], a) && InRing(qs[k], a))
  {
    forall a
      ensures !(InRing(qs[i], a) && InRing(qs[k], a))
    {
      if i < k {
      } else {
      }
    }
  }

  // ── Over a whole run ──────────────────────────────────────────────────────

  /** Rings in place, sizes that divide 2^16, and no more pending for any queue than its ring has slots. */
  ghost predicate Orderly<D>(st: T.State<D>) {
    && SlotOk(st.slot) && Laid(st.mem, st.slot.queues) && Reportable(st.slot.pending)
    && (forall k :: 0 <= k < |st.slot.pending| ==> st.slot.pending[k].queue < |st.slot.queues|)
    && (forall j :: 0 <= j < |st.slot.queues| ==> HasRoom(st.slot.queues[j], st.slot.pending, j))
  }

  predicate HasRoom(q: Queue, pending: seq<Completion>, j: nat) {
    q.num > 0 && 0x1_0000 % q.num == 0 && |For(pending, j)| <= q.num
  }

  lemma {:induction false} ForPrefix(cs: seq<Completion>, n: nat, j: nat)
    requires n <= |cs|
    ensures |For(cs[..n], j)| <= |For(cs, j)|
    decreases n
  {
    if n == 0 {
      assert cs[..0] == [];
    } else {
      assert cs[..n][0] == cs[0] && cs[..n][1..] == cs[1..][..n - 1];
      ForPrefix(cs[1..], n - 1, j);
    }
  }

  lemma {:induction false} ForHasIt(cs: seq<Completion>, k: nat)
    requires k < |cs|
    ensures cs[k] in For(cs, cs[k].queue)
    decreases |cs|
  {
    if k == 0 {
      assert (For(cs, cs[0].queue))[0] == cs[0];
    } else {
      ForHasIt(cs[1..], k - 1);
      assert cs[1..][k - 1] == cs[k];
    }
  }

  /** Every completion has gone to the ring of its queue, and every ring has gained exactly its own. */
  ghost predicate Shown(m: Mem, m': Mem, qs: seq<Queue>, fired: seq<Completion>) {
    && (forall k :: 0 <= k < |fired| ==> fired[k].queue < |qs| && fired[k] in For(fired, fired[k].queue))
    && (forall j :: 0 <= j < |qs| ==> qs[j].num > 0 && Gained(m, m', qs[j], For(fired, j)))
  }

  lemma PrefixIsShown<D>(st: T.State<D>, n: nat)
    requires Orderly(st) && n <= |st.slot.pending|
    ensures Shown(st.mem, Report(st.mem, st.slot.queues, st.slot.pending[..n]), st.slot.queues, st.slot.pending[..n])
  {
    hide Gained, Laid, Report, For;
    var qs, fired := st.slot.queues, st.slot.pending[..n];
    forall k | 0 <= k < |fired|
      ensures fired[k].queue < |qs| && fired[k] in For(fired, fired[k].queue)
    {
      ForHasIt(fired, k);
    }
    forall j | 0 <= j < |qs|
      ensures qs[j].num > 0 && Gained(st.mem, Report(st.mem, qs, fired), qs[j], For(fired, j))
    {
      assert HasRoom(qs[j], st.slot.pending, j);
      ForPrefix(st.slot.pending, n, j);
      RingsShowReports(st.mem, qs, fired, j);
    }
  }

  /** What an event reports is what the used rings gain by it; other events than time and a flush report
      nothing. */
  lemma StepIsShown<D>(handle: (D, Chain, Mem) -> Service<D>, accept: (D, nat, seq<byte>, Mem) -> T.Accepted<D>,
                       st: T.State<D>, e: T.Event) returns (fired: seq<Completion>)
    requires Orderly(st)
    ensures var (st', _, reported) := T.Step(handle, accept, st, e);
      && reported == T.HeadsOf(fired)
      && if e.Time? || e.Flush? then Shown(st.mem, st'.mem, st.slot.queues, fired) else fired == []
  {
    assert SlotOk(st.slot);
    hide Orderly, Shown, T.Notify, T.Answered, Report;
    T.NoHeads();
    match e
    case Time(amount) =>
      fired := T.Pass(st, amount).1;
      PrefixIsShown(st, |fired|);
    case Flush =>
      fired := st.slot.pending;
      assert fired[..|fired|] == fired;
      PrefixIsShown(st, |fired|);
      if fired == [] {
        NoReport(st.mem, st.slot.queues);
      }
    case _ =>
      fired := [];
  }

  lemma NoReport(m: Mem, qs: seq<Queue>)
    requires Programmed(qs)
    ensures Report(m, qs, []) == m
  {}

  lemma {:induction false} RunInParts<D>(handle: (D, Chain, Mem) -> Service<D>,
                                         accept: (D, nat, seq<byte>, Mem) -> T.Accepted<D>,
                                         st: T.State<D>, a: seq<T.Event>, b: seq<T.Event>)
    requires SlotOk(st.slot)
    ensures var (st1, walked, reported) := T.Run(handle, accept, st, a);
      && SlotOk(st1.slot)
      && var (st', walked', reported') := T.Run(handle, accept, st1, b);
        T.Run(handle, accept, st, a + b) == (st', walked + walked', reported + reported')
    decreases |a|
  {
    hide T.Step;
    if a == [] {
      assert a + b == b;
      var (st', walked', reported') := T.Run(handle, accept, st, b);
      assert [] + walked' == walked' && [] + reported' == reported';
    } else {
      assert (a + b)[0] == a[0] && (a + b)[1..] == a[1..] + b;
      var (st1, walked, reported) := T.Step(handle, accept, st, a[0]);
      RunInParts(handle, accept, st1, a[1..], b);
      var (st2, walked2, reported2) := T.Run(handle, accept, st1, a[1..]);
      var (st', walked', reported') := T.Run(handle, accept, st2, b);
      assert (walked + walked2) + walked' == walked + (walked2 + walked');
      assert (reported + reported2) + reported' == reported + (reported2 + reported');
    }
  }

  /** At any point of any run: what the run reports is what it reported before, then what the used rings
      gain at that point, then what it reports later. */
  lemma ReportedIsShown<D>(handle: (D, Chain, Mem) -> Service<D>, accept: (D, nat, seq<byte>, Mem) -> T.Accepted<D>,
                           st: T.State<D>, es: seq<T.Event>, k: nat) returns (fired: seq<Completion>)
    requires SlotOk(st.slot) && k < |es| && Orderly(T.Run(handle, accept, st, es[..k]).0)
    ensures var (now, _, before) := T.Run(handle, accept, st, es[..k]);
      var (next, _, _) := T.Step(handle, accept, now, es[k]);
      && T.Run(handle, accept, st, es).2 == before + T.HeadsOf(fired) + T.Run(handle, accept, next, es[k + 1..]).2
      && if es[k].Time? || es[k].Flush? then Shown(now.mem, next.mem, now.slot.queues, fired) else fired == []
  {
    hide Orderly, Shown, T.Step;
    var (now, _, before) := T.Run(handle, accept, st, es[..k]);
    assert SlotOk(now.slot) by { RunInParts(handle, accept, st, es[..k], []); }
    fired := StepIsShown(handle, accept, now, es[k]);
    RunInParts(handle, accept, st, es[..k], es[k..]);
    assert es[..k] + es[k..] == es && es[k..][0] == es[k] && es[k..][1..] == es[k + 1..];
    var (next, _, reported) := T.Step(handle, accept, now, es[k]);
    var later := T.Run(handle, accept, next, es[k + 1..]).2;
    assert before + (reported + later) == before + reported + later;
  }
}
