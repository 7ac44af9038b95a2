/** Where everything stands in a snapshot, part after part: what the byte stream of a machine is. */
module SnapshotLayout {
  import opened Bytes
  import opened Snapshot
  import P = Plic

  /** Numbers of one width in a row. */
  function EachLe(vs: seq<nat>, w: nat): seq<byte> { if vs == [] then [] else Le(vs[0], w) + EachLe(vs[1..], w) }

  /** A byte for each truth value. */
  function Flags(bs: seq<bool>): seq<byte> { seq(|bs|, k requires 0 <= k < |bs| => if bs[k] then 1 else 0) }

  /** A string with its length in front. */
  function Counted(b: seq<byte>): seq<byte> { Le(|b|, 8) + b }

  function PageList(dram: seq<byte>, i: nat): seq<byte>
    requires i <= |dram| / 4096
    decreases |dram| / 4096 - i
  {
    if i == |dram| / 4096 then []
    else
      var page := dram[i * 4096..i * 4096 + 4096];
      (if forall k :: 0 <= k < 4096 ==> page[k] == 0 then [] else Le(i, 8) + page) + PageList(dram, i + 1)
  }

  function QueueBytes(q: Queue): seq<byte> {
    Le(q.num, 2) + [if q.ready then 1 else 0] + Le(q.desc, 8) + Le(q.avail, 8) + Le(q.used, 8) + Le(q.lastAvail, 2)
  }

  function QueuesBytes(qs: seq<Queue>): seq<byte> { if qs == [] then [] else QueueBytes(qs[0]) + QueuesBytes(qs[1..]) }

  function PendingBytes(cs: seq<Completion>): seq<byte> {
    if cs == [] then []
    else Le(cs[0].queue, 8) + Le(cs[0].head, 2) + Le(cs[0].len, 4) + Le(cs[0].due, 8) + PendingBytes(cs[1..])
  }

  function MmioBytes(m: Mmio): seq<byte> {
    Le(m.featuresSel, 4) + Le(m.driverFeatures, 8) + Le(m.driverFeaturesSel, 4) + Le(m.status, 4) + Le(m.queueSel, 8)
    + QueuesBytes(m.queues)
    + Le(m.interruptStatus, 4) + Le(m.configGeneration, 4) + Le(m.now, 8) + Le(|m.pending|, 8) + PendingBytes(m.pending)
  }

  /** A network card's address and waiting frame, a disk's size in sectors, a share's tag. */
  function DeviceBytes(d: Device): seq<byte>
    requires Savable(d)
  {
    match d
    case Net(mac, None) => Counted(mac) + [0]
    case Net(mac, Some(frame)) => Counted(mac) + [1] + Counted(frame)
    case Disk(sectors) => Le(sectors, 8)
    case Share(tag) => tag
  }

  /** The kinds are the device numbers of section 5 of Virtio 1.2. */
  function SlotBytes(s: Option<Slot>): seq<byte>
    requires s.Some? ==> Savable(s.value.dev)
  {
    match s
    case None => [0]
    case Some(Slot(_, dev, mmio)) =>
      [1] + Le(match dev { case Net(_, _) => 1 case Disk(_) => 2 case Share(_) => 9 }, 4) + Counted(DeviceBytes(dev))
      + MmioBytes(mmio)
  }

  function SlotsBytes(ss: seq<Option<Slot>>): seq<byte>
    requires AllOk(ss)
  {
    if ss == [] then [] else SlotBytes(ss[0]) + SlotsBytes(ss[1..])
  }

  function PlicBytes(s: P.State): seq<byte> {
    EachLe(s.priority, 4) + Flags(s.level) + Flags(s.claimed) + EachLe(WordNumbers(s.enable), 4)
    + EachLe(s.threshold, 4)
  }

  // ── The writer's parts are these ──────────────────────────────────────────

  lemma {:induction false} FieldsAreEach(vs: seq<nat>, w: nat, rest: seq<byte>)
    ensures SaveFields(vs, Widths(|vs|, w), rest) == EachLe(vs, w) + rest
    decreases |vs|
  {
    if vs == [] {
    } else {
      assert Widths(|vs|, w)[1..] == Widths(|vs| - 1, w);
      FieldsAreEach(vs[1..], w, rest);
      Assoc(Le(vs[0], w), EachLe(vs[1..], w), rest);
    }
  }

  lemma {:induction false} BitsAreFlags(bs: seq<bool>, rest: seq<byte>)
    ensures SaveFields(Bits(bs), Widths(|bs|, 1), rest) == Flags(bs) + rest
    decreases |bs|
  {
    if bs == [] {
      assert Bits(bs) == [];
    } else {
      assert Widths(|bs|, 1)[1..] == Widths(|bs| - 1, 1) && Bits(bs)[1..] == Bits(bs[1..]);
      BitsAreFlags(bs[1..], rest);
      assert Le(Bit(bs[0]), 1) == [Bit(bs[0])] by { assert Le(Bit(bs[0]) / 256, 0) == []; }
      assert Flags(bs) == [if bs[0] then 1 else 0] + Flags(bs[1..]);
      Assoc([if bs[0] then 1 else 0], Flags(bs[1..]), rest);
    }
  }

  /** A row of fields by itself. */
  function Row(vs: seq<nat>, ws: seq<nat>): seq<byte>
    requires |vs| == |ws|
  {
    if vs == [] then [] else Le(vs[0], ws[0]) + Row(vs[1..], ws[1..])
  }

  lemma {:induction false} RowThenRest(vs: seq<nat>, ws: seq<nat>, rest: seq<byte>)
    requires |vs| == |ws|
    ensures SaveFields(vs, ws, rest) == Row(vs, ws) + rest
    decreases |vs|
  {
    if vs == [] {
    } else {
      RowThenRest(vs[1..], ws[1..], rest);
      Assoc(Le(vs[0], ws[0]), Row(vs[1..], ws[1..]), rest);
    }
  }

  lemma {:induction false} RowOfSum(vs: seq<nat>, ws: seq<nat>, v: nat, w: nat)
    requires |vs| == |ws|
    ensures Row(vs + [v], ws + [w]) == Row(vs, ws) + Le(v, w)
    decreases |vs|
  {
    if vs == [] {
      assert ([v] + [])[1..] == [] && vs + [v] == [v] && ws + [w] == [w];
      assert Row([v], [w]) == Le(v, w) + Row([], []);
    } else {
      assert (vs + [v])[1..] == vs[1..] + [v] && (ws + [w])[1..] == ws[1..] + [w];
      RowOfSum(vs[1..], ws[1..], v, w);
      Assoc(Le(vs[0], ws[0]), Row(vs[1..], ws[1..]), Le(v, w));
    }
  }

  lemma RowOf4(a: nat, b: nat, c: nat, d: nat, ws: seq<nat>)
    requires |ws| == 4
    ensures Row([a, b, c, d], ws) == Le(a, ws[0]) + Le(b, ws[1]) + Le(c, ws[2]) + Le(d, ws[3])
  {
    hide Le;
    RowOfSum([], [], a, ws[0]);
    RowOfSum([a], [ws[0]], b, ws[1]);
    RowOfSum([a, b], [ws[0], ws[1]], c, ws[2]);
    RowOfSum([a, b, c], [ws[0], ws[1], ws[2]], d, ws[3]);
    assert [] + [a] == [a] && [a] + [b] == [a, b] && [a, b] + [c] == [a, b, c] && [a, b, c] + [d] == [a, b, c, d];
    assert [] + [ws[0]] == [ws[0]] && [ws[0]] + [ws[1]] == [ws[0], ws[1]];
    assert [ws[0], ws[1]] + [ws[2]] == [ws[0], ws[1], ws[2]] && [ws[0], ws[1], ws[2]] + [ws[3]] == ws;
  }

  lemma RowOf6(a: nat, b: nat, c: nat, d: nat, e: nat, f: nat, ws: seq<nat>)
    requires |ws| == 6
    ensures Row([a, b, c, d, e], ws[..5])
         == Le(a, ws[0]) + Le(b, ws[1]) + Le(c, ws[2]) + Le(d, ws[3]) + Le(e, ws[4])
    ensures Row([a, b, c, d, e, f], ws)
         == Le(a, ws[0]) + Le(b, ws[1]) + Le(c, ws[2]) + Le(d, ws[3]) + Le(e, ws[4]) + Le(f, ws[5])
  {
    hide Le, Row;
    RowOf4(a, b, c, d, ws[..4]);
    RowOfSum([a, b, c, d], ws[..4], e, ws[4]);
    RowOfSum([a, b, c, d, e], ws[..5], f, ws[5]);
    assert [a, b, c, d] + [e] == [a, b, c, d, e] && [a, b, c, d, e] + [f] == [a, b, c, d, e, f];
    assert ws[..4] + [ws[4]] == ws[..5] && ws[..5] + [ws[5]] == ws;
  }

  lemma QueueIsRow(q: Queue)
    ensures Row(QueueFields(q), QUEUE) == QueueBytes(q)
  {
    RowOf6(q.num, Bit(q.ready), q.desc, q.avail, q.used, q.lastAvail, QUEUE);
    assert Le(Bit(q.ready), 1) == [if q.ready then 1 else 0] by { assert Le(Bit(q.ready) / 256, 0) == []; }
  }

  lemma {:induction false} QueuesAreBytes(qs: seq<Queue>, rest: seq<byte>)
    ensures SaveQueues(qs, rest) == QueuesBytes(qs) + rest
    decreases |qs|
  {
    hide QueueBytes, Row;
    if qs == [] {
    } else {
      QueuesAreBytes(qs[1..], rest);
      RowThenRest(QueueFields(qs[0]), QUEUE, SaveQueues(qs[1..], rest));
      QueueIsRow(qs[0]);
      Assoc(QueueBytes(qs[0]), QueuesBytes(qs[1..]), rest);
    }
  }

  lemma {:induction false} PendingAreBytes(cs: seq<Completion>, rest: seq<byte>)
    ensures SaveCompletions(cs, rest) == PendingBytes(cs) + rest
    decreases |cs|
  {
    hide Row, Le;
    if cs == [] {
    } else {
      var c := cs[0];
      PendingAreBytes(cs[1..], rest);
      RowThenRest(CompletionFields(c), COMPLETION, SaveCompletions(cs[1..], rest));
      RowOf4(c.queue, c.head, c.len, c.due, COMPLETION);
      Assoc(Row(CompletionFields(c), COMPLETION), PendingBytes(cs[1..]), rest);
    }
  }

  lemma MmioIsBytes(m: Mmio, rest: seq<byte>)
    ensures SaveMmio(m, rest) == MmioBytes(m) + rest
  {
    hide Row, Le, SaveFields, SaveQueues, SaveCompletions, QueuesBytes, PendingBytes;
    var s3 := SaveCompletions(m.pending, rest);
    var tail, head := [m.interruptStatus, m.configGeneration, m.now, |m.pending|],
      [m.featuresSel, m.driverFeatures, m.driverFeaturesSel, m.status, m.queueSel];
    var s2 := SaveFields(tail, MMIO_TAIL, s3);
    PendingAreBytes(m.pending, rest);
    RowThenRest(tail, MMIO_TAIL, s3);
    RowOf4(m.interruptStatus, m.configGeneration, m.now, |m.pending|, MMIO_TAIL);
    QueuesAreBytes(m.queues, s2);
    RowThenRest(head, MMIO_HEAD, SaveQueues(m.queues, s2));
    RowOf6(m.featuresSel, m.driverFeatures, m.driverFeaturesSel, m.status, m.queueSel, 0, MMIO_HEAD + [0]);
    assert (MMIO_HEAD + [0])[..5] == MMIO_HEAD;
    var h, q, t, c := Row(head, MMIO_HEAD), QueuesBytes(m.queues), Row(tail, MMIO_TAIL), PendingBytes(m.pending);
    assert SaveMmio(m, rest) == h + (q + (t + (c + rest)));
    FourParts(h, q, t, c, rest);
    MmioParts(m, h, t);
  }

  lemma FourParts(a: seq<byte>, b: seq<byte>, c: seq<byte>, d: seq<byte>, rest: seq<byte>)
    ensures a + (b + (c + (d + rest))) == (a + b + c + d) + rest
  {}

  lemma MmioParts(m: Mmio, h: seq<byte>, t: seq<byte>)
    requires h == Le(m.featuresSel, 4) + Le(m.driverFeatures, 8) + Le(m.driverFeaturesSel, 4) + Le(m.status, 4)
               + Le(m.queueSel, 8)
    requires t == Le(m.interruptStatus, 4) + Le(m.configGeneration, 4) + Le(m.now, 8) + Le(|m.pending|, 8)
    ensures MmioBytes(m) == h + QueuesBytes(m.queues) + t + PendingBytes(m.pending)
  {
    hide Le, QueuesBytes, PendingBytes;
    var hq := h + QueuesBytes(m.queues);
    assert hq + Le(m.interruptStatus, 4) + Le(m.configGeneration, 4) + Le(m.now, 8) + Le(|m.pending|, 8) == hq + t;
  }

  lemma DeviceIsBytes(d: Device)
    requires Savable(d)
    ensures BlobOf(d) == DeviceBytes(d)
  {
    hide Le;
    match d
    case Net(mac, None) => Assoc(Le(|mac|, 8), mac, [0]);
    case Net(mac, Some(frame)) =>
      assert SaveBlob(frame, []) == Counted(frame);
      assert Le(|mac|, 8) + (mac + ([1] + Counted(frame))) == Counted(mac) + [1] + Counted(frame);
    case Disk(_) =>
    case Share(_) =>
  }

  lemma {:induction false} SlotsAreBytes(ss: seq<Option<Slot>>, rest: seq<byte>)
    requires AllOk(ss)
    ensures SaveSlots(ss, rest) == SlotsBytes(ss) + rest
    decreases |ss|
  {
    if ss == [] {
    } else {
      hide Le, SaveMmio, MmioBytes, BlobOf, DeviceBytes;
      var tail := SaveSlots(ss[1..], rest);
      SlotsAreBytes(ss[1..], rest);
      match ss[0]
      case None => Assoc([0], SlotsBytes(ss[1..]), rest);
      case Some(s) =>
        SlotIsBytes(s, tail);
        Assoc(SlotBytes(ss[0]), SlotsBytes(ss[1..]), rest);
    }
  }

  lemma SlotIsBytes(s: Slot, tail: seq<byte>)
    requires SlotOk(s)
    ensures [1] + SaveFields([KindOf(s.dev)], [4], SaveBlob(BlobOf(s.dev), SaveMmio(s.mmio, tail)))
         == SlotBytes(Some(s)) + tail
  {
    hide Le, SaveMmio, MmioBytes, BlobOf, DeviceBytes, SaveFields, Row;
    DeviceIsBytes(s.dev);
    MmioIsBytes(s.mmio, tail);
    var blob, m := DeviceBytes(s.dev), MmioBytes(s.mmio);
    RowThenRest([KindOf(s.dev)], [4], SaveBlob(blob, m + tail));
    RowOfSum([], [], KindOf(s.dev), 4);
    assert Row([], []) == [] by { EmptyRow(); }
    var k := Le(KindOf(s.dev), 4);
    assert [] + [KindOf(s.dev)] == [KindOf(s.dev)] && [] + [4] == [4] && [] + k == k;
    assert [1] + (k + (Le(|blob|, 8) + (blob + (m + tail)))) == ([1] + k + (Le(|blob|, 8) + blob) + m) + tail;
  }

  lemma EmptyRow()
    ensures Row([], []) == []
  {}

  lemma PlicIsBytes(s: P.State, rest: seq<byte>)
    requires P.Shape(s)
    ensures SavePlic(s, rest) == PlicBytes(s) + rest
  {
    hide SaveFields, EachLe, Flags, WordNumbers;
    var s4 := SaveFields(s.threshold, Widths(P.NCTX, 4), rest);
    var s3 := SaveFields(WordNumbers(s.enable), Widths(P.NCTX * P.WORDS, 4), s4);
    var s2 := SaveFields(Bits(s.claimed), Widths(P.NSRC, 1), s3);
    var s1 := SaveFields(Bits(s.level), Widths(P.NSRC, 1), s2);
    FieldsAreEach(s.threshold, 4, rest);
    FieldsAreEach(WordNumbers(s.enable), 4, s4);
    BitsAreFlags(s.claimed, s3);
    BitsAreFlags(s.level, s2);
    FieldsAreEach(s.priority, 4, s1);
    var a, b, c, d, e := EachLe(s.priority, 4), Flags(s.level), Flags(s.claimed), EachLe(WordNumbers(s.enable), 4),
      EachLe(s.threshold, 4);
    assert a + (b + (c + (d + (e + rest)))) == (a + b + c + d + e) + rest;
  }

  lemma {:induction false} PagesAreBytes(dram: seq<byte>, i: nat, rest: seq<byte>)
    requires i <= |dram| / 4096
    ensures SavePages(dram, i, rest) == PageList(dram, i) + rest
    decreases |dram| / 4096 - i
  {
    if i == |dram| / 4096 {
    } else {
      PagesAreBytes(dram, i + 1, rest);
      hide Le, PageAt, IsZero;
      PageListUnfolds(dram, i);
      var page, tail := PageAt(dram, i), PageList(dram, i + 1);
      hide PageList;
      ThreeParts(Le(i, 8), page, tail, rest);
    }
  }

  lemma PageListUnfolds(dram: seq<byte>, i: nat)
    requires i < |dram| / 4096
    ensures PageList(dram, i)
         == (if IsZero(PageAt(dram, i)) then [] else Le(i, 8) + PageAt(dram, i)) + PageList(dram, i + 1)
  {
    hide Le;
    assert PageAt(dram, i) == dram[i * 4096..i * 4096 + 4096];
  }

  lemma ThreeParts(a: seq<byte>, b: seq<byte>, c: seq<byte>, rest: seq<byte>)
    ensures a + (b + (c + rest)) == (a + b) + c + rest && [] + c + rest == c + rest
  {}

  // ── The whole machine ─────────────────────────────────────────────────────

  /** Memory: its size, the number of pages that are not all zeros, and those with their numbers. Then the timer,
      the serial port, the interrupt controller, the eight slots, and the network poll counter. */
  function MachineBytes(m: Machine): seq<byte>
    requires Built(m) && AllOk(m.slots)
  {
    var t := m.timer;
    Le(|m.dram|, 8) + Le(UsedFrom(m.dram, 0), 8) + PageList(m.dram, 0)
    + (Le(t.mtime, 8) + Le(t.mtimecmp, 8) + Le(t.msoft, 4) + Le(t.accum, 8))
    + m.uart.regs + Counted(m.uart.rx) + PlicBytes(m.plic) + SlotsBytes(m.slots) + Le(m.netPoll, 8)
  }

  lemma {:induction false} ByteRow(bs: seq<byte>)
    ensures EachLe(bs, 1) == bs
    decreases |bs|
  {
    if bs == [] {
    } else {
      ByteRow(bs[1..]);
      assert Le(bs[0], 1) == [bs[0]] by { assert Le(bs[0] / 256, 0) == []; }
    }
  }

  lemma DevicesAreBytes(m: Machine)
    requires Built(m) && AllOk(m.slots)
    ensures var t := m.timer;
      SaveDevices(m)
      == (Le(t.mtime, 8) + Le(t.mtimecmp, 8) + Le(t.msoft, 4) + Le(t.accum, 8))
         + (m.uart.regs + (Counted(m.uart.rx) + (PlicBytes(m.plic) + (SlotsBytes(m.slots) + Le(m.netPoll, 8)))))
  {
    hide SaveFields, SavePlic, SaveSlots, PlicBytes, SlotsBytes, Row, Le, AllOk, P.Shape;
    var t := m.timer;
    var s5 := SaveFields([m.netPoll], [8], []);
    var s4 := SaveSlots(m.slots, s5);
    var s3 := SavePlic(m.plic, s4);
    var s2 := SaveBlob(m.uart.rx, s3);
    RowThenRest([m.netPoll], [8], []);
    RowOfSum([], [], m.netPoll, 8);
    EmptyRow();
    assert [] + [m.netPoll] == [m.netPoll] && [] + [8] == [8] && [] + Le(m.netPoll, 8) + [] == Le(m.netPoll, 8);
    SlotsAreBytes(m.slots, s5);
    PlicIsBytes(m.plic, s4);
    Assoc(Le(|m.uart.rx|, 8), m.uart.rx, s3);
    FieldsAreEach(m.uart.regs, 1, s2);
    ByteRow(m.uart.regs);
    RowThenRest(TimerFields(t), TIMER, m.uart.regs + s2);
    RowOf4(t.mtime, t.mtimecmp, t.msoft, t.accum, TIMER);
  }

  /** A snapshot is those bytes and no others. */
  lemma SnapshotIsLaidOut(m: Machine)
    requires Built(m) && AllOk(m.slots)
    ensures Save(m) == Some(MachineBytes(m))
  {
    hide SaveFields, SaveDevices, SavePages, UsedFrom, PageList, PlicBytes, SlotsBytes, Row, Le, AllOk;
    hide P.Shape, Counted;
    var rest := SaveDevices(m);
    var n, used := |m.dram|, UsedFrom(m.dram, 0);
    DevicesAreBytes(m);
    PagesAreBytes(m.dram, 0, rest);
    RowThenRest([n, used], [8, 8], SavePages(m.dram, 0, rest));
    RowOfSum([], [], n, 8);
    RowOfSum([n], [8], used, 8);
    EmptyRow();
    assert [] + [n] == [n] && [n] + [used] == [n, used] && [] + [8] == [8] && [8] + [8] == [8, 8];
    assert [] + Le(n, 8) == Le(n, 8);
    var t := m.timer;
    var time := Le(t.mtime, 8) + Le(t.mtimecmp, 8) + Le(t.msoft, 4) + Le(t.accum, 8);
    SevenParts(Le(n, 8) + Le(used, 8), PageList(m.dram, 0), time, m.uart.regs, Counted(m.uart.rx), PlicBytes(m.plic),
      SlotsBytes(m.slots), Le(m.netPoll, 8));
  }

  lemma SevenParts(a: seq<byte>, b: seq<byte>, c: seq<byte>, d: seq<byte>, e: seq<byte>, f: seq<byte>, g: seq<byte>,
                   h: seq<byte>)
    ensures a + (b + (c + (d + (e + (f + (g + h)))))) == a + b + c + d + e + f + g + h
  {}
}
