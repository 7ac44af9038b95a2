/**
 * Machine snapshots: integers in a fixed order, length-prefixed blobs, DRAM as the list of its non-zero
 * pages, and devices re-created slot by slot.
 */
module Snapshot {
  import opened Bytes
  import P = Plic

  // ── The byte stream ───────────────────────────────────────────────────────

  /** Little-endian fields of given widths, in front of `rest`. */
  function SaveFields(vs: seq<nat>, ws: seq<nat>, rest: seq<byte>): seq<byte>
    requires |vs| == |ws|
    decreases |vs|
  {
    if vs == [] then rest else Le(vs[0], ws[0]) + SaveFields(vs[1..], ws[1..], rest)
  }

  function Take(s: seq<byte>, n: nat): Option<(seq<byte>, seq<byte>)> {
    if n <= |s| then Some((s[..n], s[n..])) else None
  }

  function LoadFields(s: seq<byte>, ws: seq<nat>): (r: Option<(seq<nat>, seq<byte>)>)
    ensures r.Some? ==> |r.value.0| == |ws|
    decreases |ws|
  {
    if ws == [] then Some(([], s))
    else
      var (b, s') :- Take(s, ws[0]);
      var (vs, s'') :- LoadFields(s', ws[1..]);
      Some(([FromLe(b)] + vs, s''))
  }

  predicate Fit(vs: seq<nat>, ws: seq<nat>) {
    |vs| == |ws| && forall k :: 0 <= k < |vs| ==> vs[k] < Pow256(ws[k])
  }

  lemma TakeBack(a: seq<byte>, rest: seq<byte>)
    ensures Take(a + rest, |a|) == Some((a, rest))
  {}

  /** Fields read back as written. */
  lemma {:induction false} FieldsRoundTrip(vs: seq<nat>, ws: seq<nat>, rest: seq<byte>)
    requires Fit(vs, ws)
    ensures LoadFields(SaveFields(vs, ws, rest), ws) == Some((vs, rest))
    decreases |vs|
  {
    if vs == [] {
    } else {
      TakeBack(Le(vs[0], ws[0]), SaveFields(vs[1..], ws[1..], rest));
      LeRoundTrip(vs[0], ws[0]);
      FieldsRoundTrip(vs[1..], ws[1..], rest);
      assert [vs[0]] + vs[1..] == vs;
    }
  }

  function SaveBlob(b: seq<byte>, rest: seq<byte>): seq<byte> { Le(|b|, 8) + (b + rest) }

  function LoadBlob(s: seq<byte>): Option<(seq<byte>, seq<byte>)> {
    var (n, s') :- Take(s, 8);
    Take(s', FromLe(n))
  }

  lemma BlobRoundTrip(b: seq<byte>, rest: seq<byte>)
    requires |b| < 0x1_0000_0000_0000_0000
    ensures LoadBlob(SaveBlob(b, rest)) == Some((b, rest))
  {
    Pow256Values();
    TakeBack(Le(|b|, 8), b + rest);
    LeRoundTrip(|b|, 8);
    TakeBack(b, rest);
  }

  function Bit(b: bool): nat { if b then 1 else 0 }

  function Bits(bs: seq<bool>): (r: seq<nat>)
    ensures |r| == |bs| && forall k :: 0 <= k < |bs| ==> r[k] == Bit(bs[k])
  {
    seq(|bs|, k requires 0 <= k < |bs| => Bit(bs[k]))
  }

  function Bools(vs: seq<nat>): (r: seq<bool>)
    ensures |r| == |vs| && forall k :: 0 <= k < |vs| ==> r[k] == (vs[k] != 0)
  {
    seq(|vs|, k requires 0 <= k < |vs| => vs[k] != 0)
  }

  lemma BoolsBack(bs: seq<bool>)
    ensures Bools(Bits(bs)) == bs
  {}

  function Widths(n: nat, w: nat): (r: seq<nat>)
    ensures |r| == n && forall k :: 0 <= k < n ==> r[k] == w
  {
    seq(n, _ => w)
  }

  // ── DRAM ──────────────────────────────────────────────────────────────────

  const PAGE := 4096

  predicate IsZero(s: seq<byte>) { forall k :: 0 <= k < |s| ==> s[k] == 0 }

  function PageAt(dram: seq<byte>, i: nat): (p: seq<byte>)
    requires (i + 1) * PAGE <= |dram|
    ensures |p| == PAGE
  {
    dram[i * PAGE..(i + 1) * PAGE]
  }

  /** Non-zero pages from page `i` on: how many, and each with its number in front of `rest`. */
  function UsedFrom(dram: seq<byte>, i: nat): nat
    requires i <= |dram| / PAGE
    decreases |dram| / PAGE - i
  {
    if i == |dram| / PAGE then 0 else (if IsZero(PageAt(dram, i)) then 0 else 1) + UsedFrom(dram, i + 1)
  }

  function SavePages(dram: seq<byte>, i: nat, rest: seq<byte>): seq<byte>
    requires i <= |dram| / PAGE
    decreases |dram| / PAGE - i
  {
    if i == |dram| / PAGE then rest
    else if IsZero(PageAt(dram, i)) then SavePages(dram, i + 1, rest)
    else Le(i, 8) + (PageAt(dram, i) + SavePages(dram, i + 1, rest))
  }

  /** Put a page into memory, if it lies inside. */
  function PutPage(dram: seq<byte>, i: nat, page: seq<byte>): (r: Option<seq<byte>>)
    requires |page| == PAGE
    ensures r.Some? ==> |r.value| == |dram|
  {
    if (i + 1) * PAGE <= |dram| then Some(dram[..i * PAGE] + page + dram[(i + 1) * PAGE..]) else None
  }

  function LoadPages(s: seq<byte>, count: nat, dram: seq<byte>): (r: Option<(seq<byte>, seq<byte>)>)
    ensures r.Some? ==> |r.value.0| == |dram|
    decreases count
  {
    if count == 0 then Some((dram, s))
    else
      var (n, s') :- Take(s, 8);
      var (page, s'') :- Take(s', PAGE);
      var dram' :- PutPage(dram, FromLe(n), page);
      LoadPages(s'', count - 1, dram')
  }

  /** Memory whose pages before `i` are those of `dram` and which is zero from there on. */
  function Loaded(dram: seq<byte>, i: nat): (r: seq<byte>)
    requires i * PAGE <= |dram|
    ensures |r| == |dram|
  {
    dram[..i * PAGE] + Zeros(|dram| - i * PAGE)
  }

  lemma SkipZeroPage(dram: seq<byte>, i: nat)
    requires (i + 1) * PAGE <= |dram| && IsZero(PageAt(dram, i))
    ensures Loaded(dram, i + 1) == Loaded(dram, i)
  {
    var a, b := Loaded(dram, i + 1), Loaded(dram, i);
    forall k | 0 <= k < |dram|
      ensures a[k] == b[k]
    {
      if i * PAGE <= k < (i + 1) * PAGE {
        assert dram[k] == PageAt(dram, i)[k - i * PAGE];
      }
    }
  }

  lemma LoadPage(dram: seq<byte>, i: nat)
    requires (i + 1) * PAGE <= |dram|
    ensures PutPage(Loaded(dram, i), i, PageAt(dram, i)) == Some(Loaded(dram, i + 1))
  {
    var a, b := Loaded(dram, i), Loaded(dram, i + 1);
    var c := a[..i * PAGE] + PageAt(dram, i) + a[(i + 1) * PAGE..];
    assert |c| == |b|;
    forall k | 0 <= k < |dram|
      ensures c[k] == b[k]
    {
      if k < i * PAGE {
        assert c[k] == a[k] == dram[k] == b[k];
      } else if k < (i + 1) * PAGE {
        assert c[k] == PageAt(dram, i)[k - i * PAGE] == dram[k] == b[k];
      } else {
        assert c[k] == a[k] == 0 == b[k];
      }
    }
    assert c == b;
  }

  /** One recorded page is put where it was. */
  lemma LoadOnePage(dram: seq<byte>, i: nat, tail: seq<byte>, count: nat)
    requires (i + 1) * PAGE <= |dram| < 0x1_0000_0000_0000_0000
    ensures LoadPages(Le(i, 8) + (PageAt(dram, i) + tail), count + 1, Loaded(dram, i))
         == LoadPages(tail, count, Loaded(dram, i + 1))
  {
    hide Loaded, PageAt, PutPage, Take, Le;
    Pow256Values();
    LeRoundTrip(i, 8);
    TakeBack(Le(i, 8), PageAt(dram, i) + tail);
    TakeBack(PageAt(dram, i), tail);
    LoadPage(dram, i);
  }

  /** The sparse page list restores every whole page. */
  lemma {:induction false} PagesRoundTrip(dram: seq<byte>, i: nat, rest: seq<byte>)
    requires i <= |dram| / PAGE && |dram| < 0x1_0000_0000_0000_0000
    ensures LoadPages(SavePages(dram, i, rest), UsedFrom(dram, i), Loaded(dram, i))
         == Some((Loaded(dram, |dram| / PAGE), rest))
    decreases |dram| / PAGE - i
  {
    hide IsZero, Loaded, PageAt, Le;
    if i >= |dram| / PAGE {
    } else {
      PagesRoundTrip(dram, i + 1, rest);
      hide LoadPages;
      if IsZero(PageAt(dram, i)) {
        SkipZeroPage(dram, i);
      } else {
        LoadOnePage(dram, i, SavePages(dram, i + 1, rest), UsedFrom(dram, i + 1));
      }
    }
  }

  /** Memory comes back exactly when nothing but zeros follows the last whole page. */
  lemma WholePagesAreAll(dram: seq<byte>)
    ensures |dram| / PAGE * PAGE <= |dram|
    ensures Loaded(dram, |dram| / PAGE) == dram <==> IsZero(dram[|dram| / PAGE * PAGE..])
  {
    var n := |dram| / PAGE * PAGE;
    var r := Loaded(dram, |dram| / PAGE);
    if r == dram {
      forall k | 0 <= k < |dram| - n
        ensures dram[n..][k] == 0
      {
        assert r[n + k] == 0;
      }
    }
    if IsZero(dram[n..]) {
      forall k | 0 <= k < |dram|
        ensures r[k] == dram[k]
      {
        if k >= n {
          assert dram[n..][k - n] == 0;
        }
      }
    }
  }

  // ── Registers ─────────────────────────────────────────────────────────────

  datatype Timer = Timer(mtime: u64, mtimecmp: u64, msoft: u32, accum: u64)

  function TimerFields(t: Timer): seq<nat> { [t.mtime, t.mtimecmp, t.msoft, t.accum] }

  const TIMER: seq<nat> := [8, 8, 4, 8]

  datatype Uart = Uart(regs: seq<byte>, rx: seq<byte>)

  datatype Queue = Queue(num: u16, ready: bool, desc: u64, avail: u64, used: u64, lastAvail: u16)

  function QueueFields(q: Queue): seq<nat> { [q.num, Bit(q.ready), q.desc, q.avail, q.used, q.lastAvail] }

  const QUEUE: seq<nat> := [2, 1, 8, 8, 8, 2]

  function QueueOf(vs: seq<nat>): Queue
    requires |vs| == 6
  {
    Queue(vs[0] % 0x1_0000, vs[1] != 0, vs[2] % W64, vs[3] % W64, vs[4] % W64, vs[5] % 0x1_0000)
  }

  datatype Completion = Completion(queue: u64, head: u16, len: u32, due: u64)

  function CompletionFields(c: Completion): seq<nat> { [c.queue, c.head, c.len, c.due] }

  const COMPLETION: seq<nat> := [8, 2, 4, 8]

  /** The negotiated state of one transport. */
  datatype Mmio = Mmio(
    featuresSel: u32, driverFeatures: u64, driverFeaturesSel: u32, status: u32, queueSel: u64, queues: seq<Queue>,
    interruptStatus: u32, configGeneration: u32, now: u64, pending: seq<Completion>)

  const MAX_QUEUES := 4

  predicate MmioOk(m: Mmio) { |m.queues| == MAX_QUEUES && |m.pending| < W64 }

  function SaveQueues(qs: seq<Queue>, rest: seq<byte>): seq<byte>
    decreases |qs|
  {
    if qs == [] then rest else SaveFields(QueueFields(qs[0]), QUEUE, SaveQueues(qs[1..], rest))
  }

  function LoadQueues(s: seq<byte>, n: nat): (r: Option<(seq<Queue>, seq<byte>)>)
    ensures r.Some? ==> |r.value.0| == n
    decreases n
  {
    if n == 0 then Some(([], s))
    else
      var (vs, s') :- LoadFields(s, QUEUE);
      var (qs, s'') :- LoadQueues(s', n - 1);
      Some(([QueueOf(vs)] + qs, s''))
  }

  lemma {:induction false} QueuesRoundTrip(qs: seq<Queue>, rest: seq<byte>)
    ensures LoadQueues(SaveQueues(qs, rest), |qs|) == Some((qs, rest))
    decreases |qs|
  {
    hide SaveFields, LoadFields;
    if qs == [] {
    } else {
      Pow256Values();
      FieldsRoundTrip(QueueFields(qs[0]), QUEUE, SaveQueues(qs[1..], rest));
      QueuesRoundTrip(qs[1..], rest);
      assert QueueOf(QueueFields(qs[0])) == qs[0];
      assert [qs[0]] + qs[1..] == qs;
    }
  }

  function SaveCompletions(cs: seq<Completion>, rest: seq<byte>): seq<byte>
    decreases |cs|
  {
    if cs == [] then rest else SaveFields(CompletionFields(cs[0]), COMPLETION, SaveCompletions(cs[1..], rest))
  }

  function CompletionOf(vs: seq<nat>): Completion
    requires |vs| == 4
  {
    Completion(vs[0] % W64, vs[1] % 0x1_0000, vs[2] % W32, vs[3] % W64)
  }

  function LoadCompletions(s: seq<byte>, n: nat): (r: Option<(seq<Completion>, seq<byte>)>)
    decreases n
  {
    if n == 0 then Some(([], s))
    else
      var (vs, s') :- LoadFields(s, COMPLETION);
      var (cs, s'') :- LoadCompletions(s', n - 1);
      Some(([CompletionOf(vs)] + cs, s''))
  }

  lemma {:induction false} CompletionsRoundTrip(cs: seq<Completion>, rest: seq<byte>)
    ensures LoadCompletions(SaveCompletions(cs, rest), |cs|) == Some((cs, rest))
    decreases |cs|
  {
    hide SaveFields, LoadFields;
    if cs == [] {
    } else {
      Pow256Values();
      FieldsRoundTrip(CompletionFields(cs[0]), COMPLETION, SaveCompletions(cs[1..], rest));
      CompletionsRoundTrip(cs[1..], rest);
      assert CompletionOf(CompletionFields(cs[0])) == cs[0];
      assert [cs[0]] + cs[1..] == cs;
    }
  }

  const MMIO_HEAD: seq<nat> := [4, 8, 4, 4, 8]
  const MMIO_TAIL: seq<nat> := [4, 4, 8, 8]

  function SaveMmio(m: Mmio, rest: seq<byte>): seq<byte> {
    SaveFields([m.featuresSel, m.driverFeatures, m.driverFeaturesSel, m.status, m.queueSel], MMIO_HEAD,
      SaveQueues(m.queues,
        SaveFields([m.interruptStatus, m.configGeneration, m.now, |m.pending|], MMIO_TAIL,
          SaveCompletions(m.pending, rest))))
  }

  function LoadMmio(s: seq<byte>): Option<(Mmio, seq<byte>)> {
    var (h, s1) :- LoadFields(s, MMIO_HEAD);
    var (qs, s2) :- LoadQueues(s1, MAX_QUEUES);
    var (t, s3) :- LoadFields(s2, MMIO_TAIL);
    var (cs, s4) :- LoadCompletions(s3, t[3]);
    var m := Mmio(h[0] % W32, h[1] % W64, h[2] % W32, h[3] % W32, h[4] % W64, qs,
                  t[0] % W32, t[1] % W32, t[2] % W64, cs);
    Some((m, s4))
  }

  /** A transport comes back as it was: features, status, rings and positions, clock and pending list. */
  lemma MmioRoundTrip(m: Mmio, rest: seq<byte>)
    requires MmioOk(m)
    ensures LoadMmio(SaveMmio(m, rest)) == Some((m, rest))
  {
    hide SaveFields, LoadFields, SaveQueues, LoadQueues, SaveCompletions, LoadCompletions;
    Pow256Values();
    var s3 := SaveCompletions(m.pending, rest);
    var tail := [m.interruptStatus, m.configGeneration, m.now, |m.pending|];
    var s2 := SaveFields(tail, MMIO_TAIL, s3);
    var s1 := SaveQueues(m.queues, s2);
    FieldsRoundTrip([m.featuresSel, m.driverFeatures, m.driverFeaturesSel, m.status, m.queueSel], MMIO_HEAD, s1);
    QueuesRoundTrip(m.queues, s2);
    FieldsRoundTrip(tail, MMIO_TAIL, s3);
    CompletionsRoundTrip(m.pending, rest);
  }

  // ── The interrupt controller ──────────────────────────────────────────────

  function WordNumbers(ws: seq<P.Word>): (r: seq<nat>)
    ensures |r| == |ws| && forall k :: 0 <= k < |ws| ==> r[k] == P.NumberOf(ws[k])
  {
    seq(|ws|, k requires 0 <= k < |ws| => P.NumberOf(ws[k]))
  }

  function NumberWords(vs: seq<nat>): (r: seq<P.Word>)
    ensures |r| == |vs| && forall k :: 0 <= k < |vs| ==> r[k] == P.WordOf(vs[k] % W32)
  {
    seq(|vs|, k requires 0 <= k < |vs| => P.WordOf(vs[k] % W32))
  }

  function Numbers32(vs: seq<nat>): (r: seq<u32>)
    ensures |r| == |vs| && forall k :: 0 <= k < |vs| ==> r[k] == vs[k] % W32
  {
    seq(|vs|, k requires 0 <= k < |vs| => vs[k] % W32)
  }

  lemma {:induction false} BitsOfNumber(w: seq<bool>)
    ensures P.NumberOf(w) < P.Pow2(|w|) && P.BitsOf(P.NumberOf(w), |w|) == w
    decreases |w|
  {
    if w == [] {
    } else {
      BitsOfNumber(w[1..]);
      assert w == [w[0]] + w[1..];
    }
  }

  lemma WordFits(w: P.Word)
    ensures P.NumberOf(w) < W32 && P.WordOf(P.NumberOf(w)) == w
  {
    BitsOfNumber(w);
    assert P.Pow2(4) == 16 && P.Pow2(8) == 256;
    assert P.Pow2(12) == 4096 && P.Pow2(16) == 65536;
    assert P.Pow2(20) == 0x10_0000 && P.Pow2(24) == 0x100_0000;
    assert P.Pow2(28) == 0x1000_0000 && P.Pow2(32) == W32;
  }

  function SavePlic(s: P.State, rest: seq<byte>): seq<byte>
    requires P.Shape(s)
  {
    SaveFields(s.priority, Widths(P.NSRC, 4),
      SaveFields(Bits(s.level), Widths(P.NSRC, 1),
        SaveFields(Bits(s.claimed), Widths(P.NSRC, 1),
          SaveFields(WordNumbers(s.enable), Widths(P.NCTX * P.WORDS, 4),
            SaveFields(s.threshold, Widths(P.NCTX, 4), rest)))))
  }

  function LoadPlic(s: seq<byte>): (r: Option<(P.State, seq<byte>)>)
    ensures r.Some? ==> P.Shape(r.value.0)
  {
    var (priority, s1) :- LoadFields(s, Widths(P.NSRC, 4));
    var (level, s2) :- LoadFields(s1, Widths(P.NSRC, 1));
    var (claimed, s3) :- LoadFields(s2, Widths(P.NSRC, 1));
    var (enable, s4) :- LoadFields(s3, Widths(P.NCTX * P.WORDS, 4));
    var (threshold, s5) :- LoadFields(s4, Widths(P.NCTX, 4));
    Some((P.State(Numbers32(priority), Bools(level), Bools(claimed), NumberWords(enable), Numbers32(threshold)), s5))
  }

  lemma Numbers32Back(vs: seq<u32>)
    ensures Numbers32(vs) == vs
  {}

  lemma {:induction false} WordsBack(ws: seq<P.Word>)
    ensures NumberWords(WordNumbers(ws)) == ws && forall k :: 0 <= k < |ws| ==> WordNumbers(ws)[k] < W32
  {
    hide P.WordOf, P.NumberOf;
    forall k | 0 <= k < |ws|
      ensures WordNumbers(ws)[k] < W32 && NumberWords(WordNumbers(ws))[k] == ws[k]
    {
      WordFits(ws[k]);
    }
  }

  lemma PlicRoundTrip(s: P.State, rest: seq<byte>)
    requires P.Shape(s)
    ensures LoadPlic(SavePlic(s, rest)) == Some((s, rest))
  {
    hide SaveFields, LoadFields, P.WordOf, P.NumberOf, Numbers32, NumberWords, WordNumbers, Bits, Bools;
    Pow256Values();
    WordsBack(s.enable);
    BoolsBack(s.level);
    BoolsBack(s.claimed);
    Numbers32Back(s.priority);
    Numbers32Back(s.threshold);
    var s4 := SaveFields(s.threshold, Widths(P.NCTX, 4), rest);
    var s3 := SaveFields(WordNumbers(s.enable), Widths(P.NCTX * P.WORDS, 4), s4);
    var s2 := SaveFields(Bits(s.claimed), Widths(P.NSRC, 1), s3);
    var s1 := SaveFields(Bits(s.level), Widths(P.NSRC, 1), s2);
    FieldsRoundTrip(s.priority, Widths(P.NSRC, 4), s1);
    FieldsRoundTrip(Bits(s.level), Widths(P.NSRC, 1), s2);
    FieldsRoundTrip(Bits(s.claimed), Widths(P.NSRC, 1), s3);
    FieldsRoundTrip(WordNumbers(s.enable), Widths(P.NCTX * P.WORDS, 4), s4);
    FieldsRoundTrip(s.threshold, Widths(P.NCTX, 4), rest);
  }

  // ── Devices and slots ─────────────────────────────────────────────────────

  /** What a snapshot keeps of a device: a network card's address and waiting frame, a disk's size, a
      share's tag. Other kinds cannot be saved. */
  datatype Device = Net(mac: seq<byte>, waiting: Option<seq<byte>>) | Disk(sectors: u64) | Share(tag: seq<byte>)
    | Other(id: u32)

  predicate Savable(d: Device) {
    match d
    case Net(mac, waiting) => |mac| == 6 && (waiting.Some? ==> |waiting.value| < 0x1_0000_0000)
    case Disk(_) => true
    case Share(tag) => |tag| < W64
    case Other(_) => false
  }

  function KindOf(d: Device): u32 {
    match d case Net(_, _) => 1 case Disk(_) => 2 case Share(_) => 9 case Other(id) => id
  }

  function BlobOf(d: Device): seq<byte>
    requires Savable(d)
  {
    match d
    case Net(mac, None) => SaveBlob(mac, [0])
    case Net(mac, Some(frame)) => SaveBlob(mac, [1] + SaveBlob(frame, []))
    case Disk(sectors) => Le(sectors, 8)
    case Share(tag) => tag
  }

  /** Re-create a device of a kind from its blob. */
  function DeviceFrom(kind: nat, blob: seq<byte>): Option<Device> {
    if kind == 1 then
      var (mac, s) :- LoadBlob(blob);
      var (six, _) :- Take(mac, 6);
      var (flag, s') :- Take(s, 1);
      if flag[0] == 0 then Some(Net(six, None))
      else
        var (frame, _) :- LoadBlob(s');
        Some(Net(six, Some(frame)))
    else if kind == 2 then
      var (b, _) :- Take(blob, 8);
      Some(Disk(FromLe(b) % W64))
    else if kind == 9 then Some(Share(blob))
    else None
  }

  lemma DeviceRoundTrip(d: Device)
    requires Savable(d)
    ensures DeviceFrom(KindOf(d), BlobOf(d)) == Some(d) && |BlobOf(d)| < W64
  {
    match d
    case Net(mac, None) =>
      BlobRoundTrip(mac, [0]);
      assert mac[..6] == mac && [0][..1] == [0];
    case Net(mac, Some(frame)) =>
      BlobRoundTrip(mac, [1] + SaveBlob(frame, []));
      BlobRoundTrip(frame, []);
      assert mac[..6] == mac;
      TakeBack([1], SaveBlob(frame, []));
    case Disk(sectors) =>
      Pow256Values();
      LeRoundTrip(sectors, 8);
      assert Le(sectors, 8)[..8] == Le(sectors, 8);
    case Share(_) =>
  }

  datatype Slot = Slot(irq: nat, dev: Device, mmio: Mmio)

  predicate SlotOk(s: Slot) { Savable(s.dev) && MmioOk(s.mmio) }

  const SLOTS := 8

  /** The first free slot. */
  function FirstFree(slots: seq<Option<Slot>>): (r: nat)
    ensures r <= |slots| && (forall k :: 0 <= k < r ==> slots[k].Some?) && (r < |slots| ==> slots[r].None?)
  {
    if slots == [] || slots[0].None? then 0 else 1 + FirstFree(slots[1..])
  }

  /** Attach a device to the first free slot; its interrupt is the slot's number plus one. */
  function Attach(slots: seq<Option<Slot>>, dev: Device, mmio: Mmio): (r: Option<seq<Option<Slot>>>)
    ensures r.Some? ==> |r.value| == |slots|
  {
    var at := FirstFree(slots);
    if at == |slots| then None else Some(slots[at := Some(Slot(at + 1, dev, mmio))])
  }

  predicate AllOk(slots: seq<Option<Slot>>) {
    forall k :: 0 <= k < |slots| && slots[k].Some? ==> SlotOk(slots[k].value)
  }

  function SaveSlots(slots: seq<Option<Slot>>, rest: seq<byte>): seq<byte>
    requires AllOk(slots)
    decreases |slots|
  {
    if slots == [] then rest
    else
      var tail := SaveSlots(slots[1..], rest);
      match slots[0]
      case None => [0] + tail
      case Some(s) => [1] + SaveFields([KindOf(s.dev)], [4], SaveBlob(BlobOf(s.dev), SaveMmio(s.mmio, tail)))
  }

  function LoadSlots(s: seq<byte>, n: nat, slots: seq<Option<Slot>>): Option<(seq<Option<Slot>>, seq<byte>)>
    decreases n
  {
    if n == 0 then Some((slots, s))
    else
      var (flag, s1) :- Take(s, 1);
      if flag[0] == 0 then LoadSlots(s1, n - 1, slots)
      else
        var (kind, s2) :- LoadFields(s1, [4]);
        var (blob, s3) :- LoadBlob(s2);
        var dev :- DeviceFrom(kind[0], blob);
        var (mmio, s4) :- LoadMmio(s3);
        var slots' :- Attach(slots, dev, mmio);
        LoadSlots(s4, n - 1, slots')
  }

  /** What restoring makes of a row of slots: the devices in order, each at the next free slot. */
  function Reattached(slots: seq<Option<Slot>>, onto: seq<Option<Slot>>): Option<seq<Option<Slot>>>
    decreases |slots|
  {
    if slots == [] then Some(onto)
    else if slots[0].None? then Reattached(slots[1..], onto)
    else
      var onto' :- Attach(onto, slots[0].value.dev, slots[0].value.mmio);
      Reattached(slots[1..], onto')
  }

  lemma SlotReadsBack(s: Slot, tail: seq<byte>)
    requires SlotOk(s)
    ensures var s1 := SaveFields([KindOf(s.dev)], [4], SaveBlob(BlobOf(s.dev), SaveMmio(s.mmio, tail)));
      && LoadFields(s1, [4]) == Some(([KindOf(s.dev)], SaveBlob(BlobOf(s.dev), SaveMmio(s.mmio, tail))))
      && LoadBlob(SaveBlob(BlobOf(s.dev), SaveMmio(s.mmio, tail))) == Some((BlobOf(s.dev), SaveMmio(s.mmio, tail)))
      && DeviceFrom(KindOf(s.dev), BlobOf(s.dev)) == Some(s.dev)
      && LoadMmio(SaveMmio(s.mmio, tail)) == Some((s.mmio, tail))
  {
    hide SaveFields, LoadFields, SaveBlob, LoadBlob, SaveMmio, LoadMmio, DeviceFrom, BlobOf, KindOf;
    Pow256Values();
    FieldsRoundTrip([KindOf(s.dev)], [4], SaveBlob(BlobOf(s.dev), SaveMmio(s.mmio, tail)));
    DeviceRoundTrip(s.dev);
    BlobRoundTrip(BlobOf(s.dev), SaveMmio(s.mmio, tail));
    MmioRoundTrip(s.mmio, tail);
  }

  lemma {:induction false} SlotsRoundTrip(slots: seq<Option<Slot>>, onto: seq<Option<Slot>>, rest: seq<byte>)
    requires AllOk(slots)
    ensures LoadSlots(SaveSlots(slots, rest), |slots|, onto)
         == match Reattached(slots, onto) { case None => None case Some(r) => Some((r, rest)) }
    decreases |slots|
  {
    hide SaveFields, LoadFields, SaveBlob, LoadBlob, SaveMmio, LoadMmio, DeviceFrom, BlobOf, KindOf, Attach, MmioOk;
    if slots == [] {
    } else {
      var tail := SaveSlots(slots[1..], rest);
      match slots[0]
      case None =>
        TakeBack([0], tail);
        SlotsRoundTrip(slots[1..], onto, rest);
      case Some(s) =>
        TakeBack([1], SaveFields([KindOf(s.dev)], [4], SaveBlob(BlobOf(s.dev), SaveMmio(s.mmio, tail))));
        SlotReadsBack(s, tail);
        var onto' := Attach(onto, s.dev, s.mmio);
        if onto'.Some? {
          SlotsRoundTrip(slots[1..], onto'.value, rest);
        }
    }
  }

  /** Occupied slots come first, and each has the interrupt of its place. */
  predicate Prefix(slots: seq<Option<Slot>>) {
    && (forall k :: 0 <= k < |slots| && slots[k].Some? ==> slots[k].value.irq == k + 1)
    && (forall j, k :: 0 <= j < k < |slots| && slots[k].Some? ==> slots[j].Some?)
  }

  function Empty(n: nat): (r: seq<Option<Slot>>)
    ensures |r| == n && forall k :: 0 <= k < n ==> r[k] == None
  {
    seq(n, _ => None)
  }

  /** Attaching is the only way slots fill, so they always fill from the front. */
  lemma AttachKeepsPrefix(slots: seq<Option<Slot>>, dev: Device, mmio: Mmio)
    requires Prefix(slots)
    ensures Attach(slots, dev, mmio).Some? ==> Prefix(Attach(slots, dev, mmio).value)
    ensures Prefix(Empty(SLOTS))
  {
    var at := FirstFree(slots);
    if at < |slots| {
      assert forall k :: at < k < |slots| ==> slots[k].None?;
    }
  }

  /** A row that fills from the front is re-attached place for place. */
  lemma {:induction false} PrefixReattaches(slots: seq<Option<Slot>>, k: nat)
    requires Prefix(slots) && k <= |slots| && (forall j :: 0 <= j < k ==> slots[j].Some?)
    ensures Reattached(slots[k..], slots[..k] + Empty(|slots| - k)) == Some(slots)
    decreases |slots| - k
  {
    var onto := slots[..k] + Empty(|slots| - k);
    if k == |slots| {
      assert onto == slots;
    } else if slots[k].Some? {
      assert slots[k..][0] == slots[k] && slots[k..][1..] == slots[k + 1..];
      FirstFreeIs(onto, k);
      assert onto[k := slots[k]] == slots[..k + 1] + Empty(|slots| - (k + 1));
      PrefixReattaches(slots, k + 1);
    } else {
      assert forall j :: k <= j < |slots| ==> slots[j].None?;
      NothingToReattach(slots[k..], onto);
      assert onto == slots;
    }
  }

  lemma {:induction false} NothingToReattach(slots: seq<Option<Slot>>, onto: seq<Option<Slot>>)
    requires forall j :: 0 <= j < |slots| ==> slots[j].None?
    ensures Reattached(slots, onto) == Some(onto)
    decreases |slots|
  {
    if slots == [] {
    } else {
      NothingToReattach(slots[1..], onto);
    }
  }

  lemma {:induction false} FirstFreeIs(slots: seq<Option<Slot>>, k: nat)
    requires k < |slots| && slots[k].None? && forall j :: 0 <= j < k ==> slots[j].Some?
    ensures FirstFree(slots) == k
  {
  }

  /** Whatever the row, re-attaching gives one that fills from the front. */
  lemma {:induction false} ReattachedIsPrefix(slots: seq<Option<Slot>>, onto: seq<Option<Slot>>)
    requires Prefix(onto)
    ensures Reattached(slots, onto).Some? ==> Prefix(Reattached(slots, onto).value)
    decreases |slots|
  {
    hide Attach, Prefix;
    if slots == [] {
    } else {
      if slots[0].None? {
        ReattachedIsPrefix(slots[1..], onto);
      } else {
        var onto' := Attach(onto, slots[0].value.dev, slots[0].value.mmio);
        AttachKeepsPrefix(onto, slots[0].value.dev, slots[0].value.mmio);
        if onto'.Some? {
          ReattachedIsPrefix(slots[1..], onto'.value);
        }
      }
    }
  }

  /** Every device comes back at its slot and interrupt exactly when the slots fill from the front. */
  lemma SlotsComeBack(slots: seq<Option<Slot>>)
    ensures Reattached(slots, Empty(|slots|)) == Some(slots) <==> Prefix(slots)
  {
    if Prefix(slots) {
      PrefixReattaches(slots, 0);
      assert slots[0..] == slots && slots[..0] + Empty(|slots|) == Empty(|slots|);
    }
    ReattachedIsPrefix(slots, Empty(|slots|));
  }

  // ── The machine ───────────────────────────────────────────────────────────

  datatype Machine = Machine(
    dram: seq<byte>, timer: Timer, uart: Uart, plic: P.State, slots: seq<Option<Slot>>, netPoll: u64)

  /** What every machine is: sizes a 64-bit field can hold, and eight slots. */
  predicate Built(m: Machine) {
    |m.dram| < W64 && |m.uart.regs| == 7 && |m.uart.rx| < W64 && P.Shape(m.plic) && |m.slots| == SLOTS
  }

  /** From the timer on. */
  function SaveDevices(m: Machine): seq<byte>
    requires Built(m) && AllOk(m.slots)
  {
    SaveFields(TimerFields(m.timer), TIMER,
      SaveFields(m.uart.regs, Widths(7, 1),
        SaveBlob(m.uart.rx, SavePlic(m.plic, SaveSlots(m.slots, SaveFields([m.netPoll], [8], []))))))
  }

  /** The snapshot; none if a device that cannot be saved is attached. */
  function Save(m: Machine): Option<seq<byte>>
    requires Built(m)
  {
    if !AllOk(m.slots) then None
    else Some(SaveFields([|m.dram|, UsedFrom(m.dram, 0)], [8, 8], SavePages(m.dram, 0, SaveDevices(m))))
  }

  function TimerOf(vs: seq<nat>): Timer
    requires |vs| == 4
  {
    Timer(vs[0] % W64, vs[1] % W64, vs[2] % W32, vs[3] % W64)
  }

  function BytesOf(vs: seq<nat>): (r: seq<byte>)
    ensures |r| == |vs|
  {
    seq(|vs|, k requires 0 <= k < |vs| => vs[k] % 256)
  }

  function LoadDevices(s: seq<byte>, dram: seq<byte>): Option<Machine> {
    var (t, s1) :- LoadFields(s, TIMER);
    var (regs, s2) :- LoadFields(s1, Widths(7, 1));
    var (rx, s3) :- LoadBlob(s2);
    var (plic, s4) :- LoadPlic(s3);
    var (slots, s5) :- LoadSlots(s4, SLOTS, Empty(SLOTS));
    var (poll, _) :- LoadFields(s5, [8]);
    Some(Machine(dram, TimerOf(t), Uart(BytesOf(regs), rx), plic, slots, poll[0] % W64))
  }

  function Load(s: seq<byte>): Option<Machine> {
    var (head, s1) :- LoadFields(s, [8, 8]);
    var (dram, s2) :- LoadPages(s1, head[1], Zeros(head[0]));
    LoadDevices(s2, dram)
  }

  lemma DevicesRoundTrip(m: Machine, dram: seq<byte>)
    requires Built(m) && AllOk(m.slots)
    ensures LoadDevices(SaveDevices(m), dram)
         == match Reattached(m.slots, Empty(SLOTS)) {
              case None => None
              case Some(r) => Some(m.(dram := dram, slots := r))
            }
  {
    hide SaveFields, LoadFields, SaveBlob, LoadBlob, SavePlic, LoadPlic, SaveSlots, LoadSlots, Reattached, AllOk;
    hide P.Shape, Empty;
    Pow256Values();
    var s5 := SaveFields([m.netPoll], [8], []);
    var s4 := SaveSlots(m.slots, s5);
    var s3 := SavePlic(m.plic, s4);
    var s2 := SaveBlob(m.uart.rx, s3);
    var s1 := SaveFields(m.uart.regs, Widths(7, 1), s2);
    FieldsRoundTrip(TimerFields(m.timer), TIMER, s1);
    FieldsRoundTrip(m.uart.regs, Widths(7, 1), s2);
    BlobRoundTrip(m.uart.rx, s3);
    PlicRoundTrip(m.plic, s4);
    SlotsRoundTrip(m.slots, Empty(SLOTS), s5);
    FieldsRoundTrip([m.netPoll], [8], []);
    BytesBack(m.uart.regs);
  }

  lemma BytesBack(bs: seq<byte>)
    ensures BytesOf(bs) == bs
  {}

  lemma {:induction false} UsedBound(dram: seq<byte>, i: nat)
    requires i <= |dram| / PAGE
    ensures UsedFrom(dram, i) <= |dram| / PAGE - i
    decreases |dram| / PAGE - i
  {
    if i >= |dram| / PAGE {
    } else {
      UsedBound(dram, i + 1);
    }
  }

  /** What comes out of a snapshot: everything but a partial last page, with the devices moved to the
      front of the slots. */
  lemma SnapshotForm(m: Machine)
    requires Built(m) && Save(m).Some?
    ensures |m.dram| / PAGE * PAGE <= |m.dram|
    ensures Load(Save(m).value)
         == match Reattached(m.slots, Empty(SLOTS)) {
              case None => None
              case Some(r) => Some(m.(dram := Loaded(m.dram, |m.dram| / PAGE), slots := r))
            }
  {
    hide SaveFields, LoadFields, SaveDevices, LoadDevices, SavePages, LoadPages, UsedFrom, Reattached, AllOk, P.Shape;
    Pow256Values();
    WholePagesAreAll(m.dram);
    UsedBound(m.dram, 0);
    var s1 := SavePages(m.dram, 0, SaveDevices(m));
    FieldsRoundTrip([|m.dram|, UsedFrom(m.dram, 0)], [8, 8], s1);
    PagesRoundTrip(m.dram, 0, SaveDevices(m));
    assert Loaded(m.dram, 0) == Zeros(|m.dram|);
    DevicesRoundTrip(m, Loaded(m.dram, |m.dram| / PAGE));
  }

  /** A snapshot restores the machine exactly when nothing but zeros follows the last whole page of
      DRAM and the occupied slots come first, each with the interrupt of its place. */
  lemma SnapshotRoundTrip(m: Machine)
    requires Built(m) && Save(m).Some?
    ensures |m.dram| / PAGE * PAGE <= |m.dram|
    ensures Load(Save(m).value) == Some(m) <==> IsZero(m.dram[|m.dram| / PAGE * PAGE..]) && Prefix(m.slots)
  {
    hide Save, Load, Reattached, Loaded, IsZero, Prefix;
    SnapshotForm(m);
    WholePagesAreAll(m.dram);
    SlotsComeBack(m.slots);
  }
}
