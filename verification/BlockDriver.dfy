/**
 * Block requests as a driver prints them (section 5.2.6 of Virtio 1.2): what the bytes of the header ask for
 * is what happens to the disk and to the driver's buffers.
 */
module BlockDriver {
  import opened Bytes
  import opened GuestMemory
  import opened Block

  /** le32 type, le32 reserved, le64 sector. */
  function HeaderBytes(kind: nat, reserved: nat, s: nat): (h: seq<byte>)
    ensures |h| == 16
  {
    Le(kind, 4) + Le(reserved, 4) + Le(s, 8)
  }

  /** The driver put a header and a payload into the buffers the device reads, and gave room for a status. */
  predicate Asks(m: Mem, ch: Chain, kind: u32, reserved: u32, s: u64, payload: seq<byte>) {
    && AllInside(m, ch.readable) && AllInside(m, ch.writable) && Disjoint(ch.writable) && SgLen(ch.writable) > 0
    && Gather(m, ch.readable) == HeaderBytes(kind, reserved, s) + payload
  }

  /** The device reads the header as it was printed. */
  lemma HeaderReads(m: Mem, ch: Chain, kind: u32, reserved: u32, s: u64, payload: seq<byte>)
    requires Asks(m, ch, kind, reserved, s, payload)
    ensures Sound(m, ch) && Kind(m, ch) == kind && SectorOf(m, ch) == s
    ensures SgLen(ch.readable) == 16 + |payload| && Payload(m, ch) == payload[..Whole(|payload|)]
  {
    hide AllInside, Disjoint, SgRead, SgLen, Gather, Le, FromLe;
    var h := HeaderBytes(kind, reserved, s);
    SgReadIsSlice(m, ch.readable, 0, 16);
    assert Slice(h + payload, 0, 16) == h;
    Pow256Values();
    assert h[0..4] == Le(kind, 4) && h[8..16] == Le(s, 8);
    LeRoundTrip(kind, 4);
    LeRoundTrip(s, 8);
    assert (h + payload)[16..16 + Whole(|payload|)] == payload[..Whole(|payload|)];
  }

  /** What the driver finds in the buffers the device writes, whatever the request: the memory the request
      left, with the status in the last byte. */
  lemma AnswerGathers(d: Disk, m: Mem, ch: Chain)
    requires Sound(m, ch)
    ensures var (e, last) := (Outcome(d, m, ch), SgLen(ch.writable) - 1);
      var (d', m', w) := Handle(d, m, ch);
      && d' == e.disk && w == Written(Kind(m, ch), last)
      && |Gather(e.mem, ch.writable)| == last + 1
      && Gather(m', ch.writable) == Gather(e.mem, ch.writable)[..last] + [e.status]
  {
    hide Kind, SectorOf, Gather, SgRead, SgLen, SgWrite, AllInside, Disjoint, Perform;
    var e, last := Outcome(d, m, ch), SgLen(ch.writable) - 1;
    assert SameExtent(m, e.mem) by { PerformKeepsExtent(d, m, ch, Kind(m, ch), SectorOf(m, ch), last); }
    SameLength(m, e.mem, ch.writable);
    SgWriteIsOver(e.mem, ch.writable, last, [e.status]);
    var before := Gather(e.mem, ch.writable);
    assert Over(before, last, [e.status]) == before[..last] + [e.status];
  }

  lemma PerformKeepsExtent(d: Disk, m: Mem, ch: Chain, kind: nat, sector: nat, cap: nat)
    ensures SameExtent(m, Perform(d, m, ch, kind, sector, cap).mem)
  {
    hide SgRead, SgWrite, WriteAt, ReadAt, SgLen;
  }

  /** Type 0 reads: as many whole sectors as there is room for, from sector `s`, come first in the driver's
      buffers, and nothing else there changes but the status. */
  lemma DriverReads(d: Disk, m: Mem, ch: Chain, reserved: u32, s: u64, payload: seq<byte>)
    requires Asks(m, ch, 0, reserved, s, payload) && |d.data| < W64
    ensures var (d', m', w) := Handle(d, m, ch);
      var (last, before, after) := (SgLen(ch.writable) - 1, Gather(m, ch.writable), Gather(m', ch.writable));
      var k := last / 512;
      && d' == d && w == k * 512 % 0x1_0000_0000 + 1 && |before| == last + 1
      && after == if k > 0 && s + k <= |d.data| / 512
                  then d.data[s * 512..(s + k) * 512] + before[k * 512..last] + [0]
                  else before[..last] + [1]
  {
    hide Kind, SectorOf, Gather, SgRead, SgLen, SgWrite, AllInside, Disjoint, HeaderBytes, PerformIn, Over, Asks;
    HeaderReads(m, ch, 0, reserved, s, payload);
    AnswerGathers(d, m, ch);
    var last, before := SgLen(ch.writable) - 1, Gather(m, ch.writable);
    var k := last / 512;
    assert Whole(last) == k * 512;
    assert Outcome(d, m, ch) == PerformIn(d, m, ch, s, last);
    hide Handle, Outcome;
    InOutcome(d, m, ch, s, last);
    if k > 0 && s + k <= |d.data| / 512 {
      var buf := d.data[s * 512..(s + k) * 512];
      assert |buf| == k * 512;
      SgWriteIsOver(m, ch.writable, 0, buf);
      OverIsFront(before, buf);
      assert (buf + before[k * 512..])[..last] == buf + before[k * 512..last];
    }
  }

  lemma OverIsFront(before: seq<byte>, buf: seq<byte>)
    requires |buf| <= |before|
    ensures Over(before, 0, buf) == buf + before[|buf|..]
  {}

  /** Type 1 writes: the whole sectors of the payload go to sector `s` modulo 2^55 if they all fit there, and
      the driver's buffers keep everything but the status. */
  lemma DriverWrites(d: Disk, m: Mem, ch: Chain, reserved: u32, s: u64, payload: seq<byte>)
    requires Asks(m, ch, 1, reserved, s, payload) && |d.data| < W64
    ensures var (d', m', w) := Handle(d, m, ch);
      var (last, before, after) := (SgLen(ch.writable) - 1, Gather(m, ch.writable), Gather(m', ch.writable));
      var (k, t) := (|payload| / 512, s % 0x80_0000_0000_0000);
      var ok := !d.readOnly && k > 0 && t + k <= |d.data| / 512;
      && w == 1 && |before| == last + 1 && after == before[..last] + [if ok then 0 else 1]
      && d' == if ok then d.(data := d.data[..t * 512] + payload[..k * 512] + d.data[(t + k) * 512..]) else d
  {
    hide Kind, SectorOf, Gather, SgLen, AllInside, Disjoint, HeaderBytes, PerformOut, Payload, Whole, Asks;
    HeaderReads(m, ch, 1, reserved, s, payload);
    AnswerGathers(d, m, ch);
    assert AllInside(m, ch.readable) by { AsksInside(m, ch, 1, reserved, s, payload); }
    OutOutcome(d, m, ch, s, payload);
    assert Outcome(d, m, ch) == PerformOut(d, m, ch, s);
    hide Handle, Outcome;
  }

  lemma AsksInside(m: Mem, ch: Chain, kind: u32, reserved: u32, s: u64, payload: seq<byte>)
    requires Asks(m, ch, kind, reserved, s, payload)
    ensures AllInside(m, ch.readable)
  {}

  lemma OutOutcome(d: Disk, m: Mem, ch: Chain, s: u64, payload: seq<byte>)
    requires |d.data| < W64 && AllInside(m, ch.readable)
    requires SgLen(ch.readable) == 16 + |payload| && Payload(m, ch) == payload[..Whole(|payload|)]
    ensures var (k, t) := (|payload| / 512, s % 0x80_0000_0000_0000);
      PerformOut(d, m, ch, s)
      == if !d.readOnly && k > 0 && t + k <= |d.data| / 512
         then Effect(d.(data := d.data[..t * 512] + payload[..k * 512] + d.data[(t + k) * 512..]), m, 0)
         else Effect(d, m, 1)
  {
    hide SgRead, SgLen, AllInside, WriteAt, Payload;
    var k, t := |payload| / 512, s % 0x80_0000_0000_0000;
    PayloadIsRead(m, ch);
    var buf := payload[..Whole(|payload|)];
    assert |buf| == k * 512 && buf + Zeros(0) == buf;
    OutWraps(d.data, s, buf);
    WritesAt(d.data, t, buf);
  }

  lemma WritesAt(data: seq<byte>, t: nat, buf: seq<byte>)
    requires t < WRAP && |buf| % 512 == 0 && |data| < W64
    ensures var k := |buf| / 512;
      WriteAt(data, t, buf)
      == if t + k <= |data| / 512 then Some(data[..t * 512] + buf + data[(t + k) * 512..]) else None
  {
    SmallOffset(t);
    FitsBySectors(|data|, t, |buf|);
  }

  /** Type 4 succeeds, type 8 names the disk in at most 20 bytes, and any other type is not supported. */
  lemma DriverAsksOtherwise(d: Disk, m: Mem, ch: Chain, kind: u32, reserved: u32, s: u64, payload: seq<byte>)
    requires Asks(m, ch, kind, reserved, s, payload) && kind != 0 && kind != 1
    ensures var (d', m', w) := Handle(d, m, ch);
      var (last, before, after) := (SgLen(ch.writable) - 1, Gather(m, ch.writable), Gather(m', ch.writable));
      var (name, n) := ([0x72, 0x69, 0x73, 0x63, 0x76, 0x2D, 0x76, 0x6D, 0x2D, 0x64, 0x69, 0x73, 0x6B] + Zeros(7),
                        if last < 20 then last else 20);
      && d' == d && |before| == last + 1
      && if kind == 8 then w == n + 1 && after == name[..n] + before[n..last] + [0]
         else w == 1 && after == before[..last] + [if kind == 4 then 0 else 2]
  {
    hide Kind, SectorOf, Gather, SgRead, SgLen, SgWrite, AllInside, Disjoint, HeaderBytes;
    HeaderReads(m, ch, kind, reserved, s, payload);
    AnswerGathers(d, m, ch);
    hide Handle;
    if kind == 8 {
      var last, before := SgLen(ch.writable) - 1, Gather(m, ch.writable);
      var buf := SERIAL[..Min(last, 20)];
      SgWriteIsOver(m, ch.writable, 0, buf);
      OverIsFront(before, buf);
      assert (buf + before[|buf|..])[..last] == buf + before[|buf|..last];
    }
  }

  // ── Runs ──────────────────────────────────────────────────────────────────

  /** A request a driver printed, with what it asks for. */
  datatype Command = Command(mem: Mem, chain: Chain, kind: u32, reserved: u32, s: u64, payload: seq<byte>)

  predicate Sent(c: Command) { Asks(c.mem, c.chain, c.kind, c.reserved, c.s, c.payload) }

  function Requests(cs: seq<Command>): (r: seq<Request>)
    ensures |r| == |cs|
  {
    seq(|cs|, k requires 0 <= k < |cs| => Request(cs[k].mem, cs[k].chain))
  }

  /** A write that the disk takes and that covers sector `j`. */
  predicate Covers(d: Disk, c: Command, j: nat) {
    var (k, t) := (|c.payload| / 512, c.s % 0x80_0000_0000_0000);
    c.kind == 1 && !d.readOnly && t <= j < t + k <= |d.data| / 512
  }

  /** The bytes of sector `j` after all commands: from the last write that covers it, or as it was. */
  function Contents(d: Disk, cs: seq<Command>, j: nat): seq<byte>
    requires j < |d.data| / 512
    decreases |cs|
  {
    if cs == [] then d.data[j * 512..(j + 1) * 512]
    else
      var c := cs[|cs| - 1];
      if Covers(d, c, j) then
        var at := j - c.s % 0x80_0000_0000_0000;
        c.payload[at * 512..(at + 1) * 512]
      else Contents(d, cs[..|cs| - 1], j)
  }

  lemma PutsIsCovers(d: Disk, c: Command, j: nat)
    requires Sent(c) && j < |d.data| / 512
    ensures var r := Request(c.mem, c.chain);
      var at := j - c.s % 0x80_0000_0000_0000;
      Puts(d, r, j) == if Covers(d, c, j) then Some(c.payload[at * 512..(at + 1) * 512]) else None
  {
    hide Kind, SectorOf, Payload, AllInside, Disjoint, Gather, SgLen, HeaderBytes;
    HeaderReads(c.mem, c.chain, c.kind, c.reserved, c.s, c.payload);
    var buf := c.payload[..Whole(|c.payload|)];
    ChopLength(buf);
    if Covers(d, c, j) {
      var at := j - c.s % 0x80_0000_0000_0000;
      assert Chop(buf)[at] == buf[at * 512..(at + 1) * 512] == c.payload[at * 512..(at + 1) * 512];
    }
  }

  lemma {:induction false} LatestIsContents(d: Disk, cs: seq<Command>, j: nat)
    requires j < |d.data| / 512 && forall k :: 0 <= k < |cs| ==> Sent(cs[k])
    ensures Latest(d, Requests(cs), j) == Contents(d, cs, j)
    decreases |cs|
  {
    hide Puts, Covers, Sent;
    if cs == [] {
      assert Chop(d.data)[j] == d.data[j * 512..(j + 1) * 512];
    } else {
      var init, c := cs[..|cs| - 1], cs[|cs| - 1];
      assert Requests(cs)[..|cs| - 1] == Requests(init);
      LatestIsContents(d, init, j);
      PutsIsCovers(d, c, j);
    }
  }

  /** Over any run of printed requests, every sector holds what the last write that covered it carried. */
  lemma SectorsHoldWhatWasSent(d: Disk, cs: seq<Command>, j: nat)
    requires |d.data| < W64 && j < |d.data| / 512 && forall k :: 0 <= k < |cs| ==> Sent(cs[k])
    ensures |Run(d, Requests(cs)).data| == |d.data|
    ensures Run(d, Requests(cs)).data[j * 512..(j + 1) * 512] == Contents(d, cs, j)
  {
    hide Contents, Latest;
    var rs := Requests(cs);
    forall k | 0 <= k < |rs|
      ensures Plain(rs[k])
    {
      assert Sent(cs[k]);
    }
    SectorsHoldTheLatest(d, rs, j);
    LatestIsContents(d, cs, j);
    assert Chop(Run(d, rs).data)[j] == Run(d, rs).data[j * 512..(j + 1) * 512];
  }
}
