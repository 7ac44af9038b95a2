/** Snapshots as they are written and read: a buffer that grows, a position that advances. */
module SnapshotStream {
  import opened Bytes
  import opened Snapshot
  import P = Plic

  class Writer {
    var buf: seq<byte>

    constructor ()
      ensures buf == []
    {
      buf := [];
    }

    /** Each method appends; `rest` is whatever will be appended after it. */
    method Fields(vs: seq<nat>, ws: seq<nat>, ghost rest: seq<byte>)
      requires |vs| == |ws|
      modifies this
      ensures buf + rest == old(buf) + SaveFields(vs, ws, rest)
    {
      hide SaveFields, Le;
      assert vs[0..] == vs && ws[0..] == ws;
      for k := 0 to |vs|
        invariant buf + SaveFields(vs[k..], ws[k..], rest) == old(buf) + SaveFields(vs, ws, rest)
      {
        FieldsUnfold(vs, ws, k, rest);
        Assoc(buf, Le(vs[k], ws[k]), SaveFields(vs[k + 1..], ws[k + 1..], rest));
        buf := buf + Le(vs[k], ws[k]);
      }
      NoFields(rest);
      assert vs[|vs|..] == [] && ws[|vs|..] == [];
    }

    method Raw(b: seq<byte>, ghost rest: seq<byte>)
      modifies this
      ensures buf + rest == old(buf) + (b + rest)
    {
      Assoc(buf, b, rest);
      buf := buf + b;
    }

    method Blob(b: seq<byte>, ghost rest: seq<byte>)
      modifies this
      ensures buf + rest == old(buf) + SaveBlob(b, rest)
    {
      Raw(Le(|b|, 8), b + rest);
      Raw(b, rest);
    }

    /** The non-zero pages, each after its number. */
    method Pages(dram: seq<byte>, ghost rest: seq<byte>)
      modifies this
      ensures buf + rest == old(buf) + SavePages(dram, 0, rest)
    {
      hide SavePages, IsZero, PageAt, Le;
      var n := |dram| / PAGE;
      for i := 0 to n
        invariant buf + SavePages(dram, i, rest) == old(buf) + SavePages(dram, 0, rest)
      {
        PagesUnfold(dram, i, rest);
        var page := PageAt(dram, i);
        var zero := AllZero(page);
        if !zero {
          ghost var tail := SavePages(dram, i + 1, rest);
          Raw(Le(i, 8), page + tail);
          Raw(page, tail);
        }
      }
      NoPages(dram, rest);
    }

    method Mmio(m: Mmio, ghost rest: seq<byte>)
      modifies this
      ensures buf + rest == old(buf) + SaveMmio(m, rest)
    {
      hide SaveFields;
      ghost var s3 := SaveCompletions(m.pending, rest);
      ghost var s2 := SaveFields([m.interruptStatus, m.configGeneration, m.now, |m.pending|], MMIO_TAIL, s3);
      Fields([m.featuresSel, m.driverFeatures, m.driverFeaturesSel, m.status, m.queueSel], MMIO_HEAD,
        SaveQueues(m.queues, s2));
      for k := 0 to |m.queues|
        invariant buf + SaveQueues(m.queues[k..], s2) == old(buf) + SaveMmio(m, rest)
      {
        assert m.queues[k..][0] == m.queues[k] && m.queues[k..][1..] == m.queues[k + 1..];
        Fields(QueueFields(m.queues[k]), QUEUE, SaveQueues(m.queues[k + 1..], s2));
      }
      Fields([m.interruptStatus, m.configGeneration, m.now, |m.pending|], MMIO_TAIL, s3);
      for k := 0 to |m.pending|
        invariant buf + SaveCompletions(m.pending[k..], rest) == old(buf) + SaveMmio(m, rest)
      {
        assert m.pending[k..][0] == m.pending[k] && m.pending[k..][1..] == m.pending[k + 1..];
        Fields(CompletionFields(m.pending[k]), COMPLETION, SaveCompletions(m.pending[k + 1..], rest));
      }
    }

    method Slots(slots: seq<Option<Slot>>, ghost rest: seq<byte>)
      requires AllOk(slots)
      modifies this
      ensures buf + rest == old(buf) + SaveSlots(slots, rest)
    {
      hide SaveFields, SaveBlob, SaveMmio, BlobOf, MmioOk, SaveSlots;
      assert slots[0..] == slots;
      for k := 0 to |slots|
        invariant AllOk(slots[k..]) && buf + SaveSlots(slots[k..], rest) == old(buf) + SaveSlots(slots, rest)
      {
        assert slots[k..][0] == slots[k] && slots[k..][1..] == slots[k + 1..];
        SlotsUnfold(slots[k..], rest);
        ghost var tail := SaveSlots(slots[k + 1..], rest);
        match slots[k]
        case None => Raw([0], tail);
        case Some(s) =>
          ghost var after := SaveMmio(s.mmio, tail);
          Raw([1], SaveFields([KindOf(s.dev)], [4], SaveBlob(BlobOf(s.dev), after)));
          Fields([KindOf(s.dev)], [4], SaveBlob(BlobOf(s.dev), after));
          Blob(BlobOf(s.dev), after);
          Mmio(s.mmio, tail);
      }
      NoMoreSlots(slots[|slots|..], rest);
    }

    method Plic(s: P.State, ghost rest: seq<byte>)
      requires P.Shape(s)
      modifies this
      ensures buf + rest == old(buf) + SavePlic(s, rest)
    {
      hide SaveFields;
      ghost var s4 := SaveFields(s.threshold, Widths(P.NCTX, 4), rest);
      ghost var s3 := SaveFields(WordNumbers(s.enable), Widths(P.NCTX * P.WORDS, 4), s4);
      ghost var s2 := SaveFields(Bits(s.claimed), Widths(P.NSRC, 1), s3);
      ghost var s1 := SaveFields(Bits(s.level), Widths(P.NSRC, 1), s2);
      Fields(s.priority, Widths(P.NSRC, 4), s1);
      Fields(Bits(s.level), Widths(P.NSRC, 1), s2);
      Fields(Bits(s.claimed), Widths(P.NSRC, 1), s3);
      Fields(WordNumbers(s.enable), Widths(P.NCTX * P.WORDS, 4), s4);
      Fields(s.threshold, Widths(P.NCTX, 4), rest);
    }
  }

  /** The whole machine; refused if a device cannot be saved. */
  method SaveState(m: Machine) returns (r: Option<seq<byte>>)
    requires Built(m)
    ensures r == Save(m)
  {
    hide SaveFields, SavePages, SaveBlob, SavePlic, SaveSlots, UsedFrom, P.Shape, AllOk;
    if !AllOk(m.slots) {
      return None;
    }
    var w := new Writer();
    var used := CountUsed(m.dram);
    ghost var s5 := SaveFields([m.netPoll], [8], []);
    ghost var s4 := SaveSlots(m.slots, s5);
    ghost var s3 := SavePlic(m.plic, s4);
    ghost var s2 := SaveBlob(m.uart.rx, s3);
    ghost var s1 := SaveFields(m.uart.regs, Widths(7, 1), s2);
    ghost var whole := SaveFields([|m.dram|, used], [8, 8], SavePages(m.dram, 0, SaveDevices(m)));
    assert [] + whole == whole;
    w.Fields([|m.dram|, used], [8, 8], SavePages(m.dram, 0, SaveDevices(m)));
    w.Pages(m.dram, SaveDevices(m));
    w.Fields(TimerFields(m.timer), TIMER, s1);
    w.Fields(m.uart.regs, Widths(7, 1), s2);
    w.Blob(m.uart.rx, s3);
    w.Plic(m.plic, s4);
    w.Slots(m.slots, s5);
    w.Fields([m.netPoll], [8], []);
    assert w.buf + [] == w.buf;
    r := Some(w.buf);
  }

  method AllZero(s: seq<byte>) returns (zero: bool)
    ensures zero == IsZero(s)
  {
    for k := 0 to |s|
      invariant IsZero(s[..k])
    {
      if s[k] != 0 {
        return false;
      }
    }
    assert s[..|s|] == s;
    zero := true;
  }

  method CountUsed(dram: seq<byte>) returns (used: nat)
    ensures used == UsedFrom(dram, 0)
  {
    hide IsZero, PageAt;
    used := 0;
    for i := 0 to |dram| / PAGE
      invariant used + UsedFrom(dram, i) == UsedFrom(dram, 0)
    {
      var zero := AllZero(PageAt(dram, i));
      if !zero {
        used := used + 1;
      }
    }
  }

  lemma FieldsUnfold(vs: seq<nat>, ws: seq<nat>, k: nat, rest: seq<byte>)
    requires |vs| == |ws| && k < |vs|
    ensures SaveFields(vs[k..], ws[k..], rest) == Le(vs[k], ws[k]) + SaveFields(vs[k + 1..], ws[k + 1..], rest)
  {
    assert vs[k..][1..] == vs[k + 1..] && ws[k..][1..] == ws[k + 1..];
  }

  lemma NoFields(rest: seq<byte>)
    ensures SaveFields([], [], rest) == rest
  {}

  lemma PagesUnfold(dram: seq<byte>, i: nat, rest: seq<byte>)
    requires i < |dram| / PAGE
    ensures SavePages(dram, i, rest)
         == if IsZero(PageAt(dram, i)) then SavePages(dram, i + 1, rest)
            else Le(i, 8) + (PageAt(dram, i) + SavePages(dram, i + 1, rest))
  {}

  lemma NoPages(dram: seq<byte>, rest: seq<byte>)
    ensures SavePages(dram, |dram| / PAGE, rest) == rest
  {}

  lemma SlotsUnfold(slots: seq<Option<Slot>>, rest: seq<byte>)
    requires AllOk(slots) && slots != []
    ensures AllOk(slots[1..])
    ensures SaveSlots(slots, rest)
         == match slots[0]
            case None => [0] + SaveSlots(slots[1..], rest)
            case Some(s) =>
              [1] + SaveFields([KindOf(s.dev)], [4], SaveBlob(BlobOf(s.dev),
                SaveMmio(s.mmio, SaveSlots(slots[1..], rest))))
  {}

  lemma NoMoreSlots(slots: seq<Option<Slot>>, rest: seq<byte>)
    requires slots == []
    ensures AllOk(slots) && SaveSlots(slots, rest) == rest
  {}

  class Reader {
    const buf: seq<byte>
    var pos: nat

    constructor (buf: seq<byte>)
      ensures this.buf == buf && pos == 0
    {
      this.buf := buf;
      pos := 0;
    }

    ghost function Left(): seq<byte>
      requires pos <= |buf|
      reads this
    {
      buf[pos..]
    }

    /** The next `n` bytes; nothing moves if there are not so many. */
    method TakeBytes(n: nat) returns (r: Option<seq<byte>>)
      requires pos <= |buf|
      modifies this
      ensures pos <= |buf|
      ensures match Take(old(Left()), n)
        case None => r == None && pos == old(pos)
        case Some((b, rest)) => r == Some(b) && Left() == rest
    {
      if pos + n > |buf| {
        return None;
      }
      assert buf[pos..][..n] == buf[pos..pos + n] && buf[pos..][n..] == buf[pos + n..];
      r := Some(buf[pos..pos + n]);
      pos := pos + n;
    }

    method Fields(ws: seq<nat>) returns (r: Option<seq<nat>>)
      requires pos <= |buf|
      modifies this
      ensures pos <= |buf|
      ensures match LoadFields(old(Left()), ws)
        case None => r == None
        case Some((vs, rest)) => r == Some(vs) && Left() == rest
    {
      hide Take;
      var vs: seq<nat> := [];
      assert ws[0..] == ws && forall more: seq<nat> :: [] + more == more;
      for k := 0 to |ws|
        invariant pos <= |buf| && |vs| == k
        invariant match LoadFields(Left(), ws[k..])
          case None => LoadFields(old(Left()), ws) == None
          case Some((more, rest)) => LoadFields(old(Left()), ws) == Some((vs + more, rest))
      {
        assert ws[k..][0] == ws[k] && ws[k..][1..] == ws[k + 1..];
        var b := TakeBytes(ws[k]);
        if b.None? {
          return None;
        }
        ghost var before := vs;
        vs := vs + [FromLe(b.value)];
        assert forall more :: before + ([FromLe(b.value)] + more) == vs + more;
      }
      assert ws[|ws|..] == [] && vs + [] == vs;
      r := Some(vs);
    }

    method Blob() returns (r: Option<seq<byte>>)
      requires pos <= |buf|
      modifies this
      ensures pos <= |buf|
      ensures match LoadBlob(old(Left()))
        case None => r == None
        case Some((b, rest)) => r == Some(b) && Left() == rest
    {
      hide Take;
      var n := TakeBytes(8);
      if n.None? {
        return None;
      }
      r := TakeBytes(FromLe(n.value));
    }

    /** Put `count` recorded pages into memory. */
    method Pages(count: nat, dram: array<byte>) returns (ok: bool)
      requires pos <= |buf|
      modifies this, dram
      ensures pos <= |buf|
      ensures match LoadPages(old(Left()), count, old(dram[..]))
        case None => !ok
        case Some((after, rest)) => ok && dram[..] == after && Left() == rest
    {
      hide Take, Pow256;
      ghost var whole := LoadPages(Left(), count, dram[..]);
      for k := 0 to count
        invariant pos <= |buf| && whole == LoadPages(Left(), count - k, dram[..])
      {
        var n := TakeBytes(8);
        if n.None? {
          return false;
        }
        var page := TakeBytes(PAGE);
        if page.None? {
          return false;
        }
        var i := FromLe(n.value);
        if (i + 1) * PAGE > dram.Length {
          return false;
        }
        CopyPage(dram, i * PAGE, page.value);
      }
      ok := true;
    }

    method Queues(n: nat) returns (r: Option<seq<Queue>>)
      requires pos <= |buf|
      modifies this
      ensures pos <= |buf|
      ensures match LoadQueues(old(Left()), n)
        case None => r == None
        case Some((v, rest)) => r == Some(v) && Left() == rest
    {
      hide LoadFields, QueueOf;
      var qs: seq<Queue> := [];
      assert forall more: seq<Queue> :: [] + more == more;
      for k := 0 to n
        invariant pos <= |buf|
        invariant match LoadQueues(Left(), n - k)
          case None => LoadQueues(old(Left()), n) == None
          case Some((more, rest)) => LoadQueues(old(Left()), n) == Some((qs + more, rest))
      {
        var vs :- Fields(QUEUE);
        ghost var before := qs;
        qs := qs + [QueueOf(vs)];
        assert forall more :: before + ([QueueOf(vs)] + more) == qs + more;
      }
      assert qs + [] == qs;
      r := Some(qs);
    }

    method Completions(n: nat) returns (r: Option<seq<Completion>>)
      requires pos <= |buf|
      modifies this
      ensures pos <= |buf|
      ensures match LoadCompletions(old(Left()), n)
        case None => r == None
        case Some((v, rest)) => r == Some(v) && Left() == rest
    {
      hide LoadFields, CompletionOf;
      var cs: seq<Completion> := [];
      assert forall more: seq<Completion> :: [] + more == more;
      for k := 0 to n
        invariant pos <= |buf|
        invariant match LoadCompletions(Left(), n - k)
          case None => LoadCompletions(old(Left()), n) == None
          case Some((more, rest)) => LoadCompletions(old(Left()), n) == Some((cs + more, rest))
      {
        var vs :- Fields(COMPLETION);
        ghost var before := cs;
        cs := cs + [CompletionOf(vs)];
        assert forall more :: before + ([CompletionOf(vs)] + more) == cs + more;
      }
      assert cs + [] == cs;
      r := Some(cs);
    }

    method Mmio() returns (r: Option<Mmio>)
      requires pos <= |buf|
      modifies this
      ensures pos <= |buf|
      ensures match LoadMmio(old(Left()))
        case None => r == None
        case Some((v, rest)) => r == Some(v) && Left() == rest
    {
      hide LoadFields, LoadQueues, LoadCompletions;
      var h :- Fields(MMIO_HEAD);
      var qs :- Queues(MAX_QUEUES);
      var t :- Fields(MMIO_TAIL);
      var cs :- Completions(t[3]);
      r := Some(Snapshot.Mmio.Mmio(h[0] % W32, h[1] % W64, h[2] % W32, h[3] % W32, h[4] % W64, qs, t[0] % W32,
        t[1] % W32, t[2] % W64, cs));
    }

    /** Read `n` slot records, attaching each recorded device to the first free slot. */
    method Slots(n: nat) returns (r: Option<seq<Option<Slot>>>)
      requires pos <= |buf|
      modifies this
      ensures pos <= |buf|
      ensures match LoadSlots(old(Left()), n, Empty(SLOTS))
        case None => r == None
        case Some((v, rest)) => r == Some(v) && Left() == rest
    {
      hide LoadFields, LoadBlob, LoadMmio, DeviceFrom, Attach, Empty;
      var slots := Empty(SLOTS);
      ghost var whole := LoadSlots(Left(), n, slots);
      for k := 0 to n
        invariant pos <= |buf| && whole == LoadSlots(Left(), n - k, slots)
      {
        var flag :- TakeBytes(1);
        if flag[0] != 0 {
          var kind :- Fields([4]);
          var blob :- Blob();
          var dev :- DeviceFrom(kind[0], blob);
          var mmio :- Mmio();
          slots :- Attach(slots, dev, mmio);
        }
      }
      r := Some(slots);
    }

    method Plic() returns (r: Option<P.State>)
      requires pos <= |buf|
      modifies this
      ensures pos <= |buf|
      ensures match LoadPlic(old(Left()))
        case None => r == None
        case Some((v, rest)) => r == Some(v) && Left() == rest
    {
      hide LoadFields;
      var priority :- Fields(Widths(P.NSRC, 4));
      var level :- Fields(Widths(P.NSRC, 1));
      var claimed :- Fields(Widths(P.NSRC, 1));
      var enable :- Fields(Widths(P.NCTX * P.WORDS, 4));
      var threshold :- Fields(Widths(P.NCTX, 4));
      r := Some(P.State(Numbers32(priority), Bools(level), Bools(claimed), NumberWords(enable), Numbers32(threshold)));
    }

    method Devices(dram: seq<byte>) returns (r: Option<Machine>)
      requires pos <= |buf|
      modifies this
      ensures r == LoadDevices(old(Left()), dram)
    {
      hide LoadFields, LoadBlob, LoadPlic, LoadSlots;
      var t :- Fields(TIMER);
      var regs :- Fields(Widths(7, 1));
      var rx :- Blob();
      var plic :- Plic();
      var slots :- Slots(SLOTS);
      var poll :- Fields([8]);
      r := Some(Machine(dram, TimerOf(t), Uart(BytesOf(regs), rx), plic, slots, poll[0] % W64));
    }
  }

  /** The whole machine back; refused if the bytes run out or name a device that cannot be loaded. */
  method LoadState(s: seq<byte>) returns (r: Option<Machine>)
    ensures r == Load(s)
  {
    hide LoadFields, LoadPages, LoadDevices;
    var reader := new Reader(s);
    assert s[0..] == s;
    var head :- reader.Fields([8, 8]);
    var dram := new byte[head[0]](_ => 0);
    assert dram[..] == Zeros(head[0]);
    var ok := reader.Pages(head[1], dram);
    if !ok {
      return None;
    }
    r := reader.Devices(dram[..]);
  }

  method CopyPage(dram: array<byte>, at: nat, page: seq<byte>)
    requires at + |page| <= dram.Length
    modifies dram
    ensures dram[..] == old(dram[..at]) + page + old(dram[at + |page|..])
  {
    for k := 0 to |page|
      invariant dram[..] == old(dram[..at]) + page[..k] + old(dram[at + k..])
    {
      dram[at + k] := page[k];
    }
    assert page[..|page|] == page;
  }
}
