/**
 * The virtio block device over an in-memory store: requests act on an array of 512-byte sectors.
 * Integers are those of a 64-bit release build, where products wrap.
 */
module Block {
  import opened Bytes
  import opened GuestMemory

  const SECTOR := 512
  /** Sector numbers from here on have a byte offset that does not fit a machine word. */
  const WRAP := 0x80_0000_0000_0000

  const T_IN := 0
  const T_OUT := 1
  const T_FLUSH := 4
  const T_GET_ID := 8

  const S_OK: byte := 0
  const S_IOERR: byte := 1
  const S_UNSUPP: byte := 2

  const SERIAL: seq<byte> := [114, 105, 115, 99, 118, 45, 118, 109, 45, 100, 105, 115, 107] + Zeros(7)

  datatype Disk = Disk(data: seq<byte>, readOnly: bool)

  /** A slice index that a machine word can hold and the store has. */
  predicate InStore(data: seq<byte>, sector: nat, n: nat) {
    var off := sector * SECTOR % W64;
    off + n < W64 && off + n <= |data|
  }

  function ReadAt(data: seq<byte>, sector: nat, n: nat): Option<seq<byte>> {
    var off := sector * SECTOR % W64;
    if InStore(data, sector, n) then Some(data[off..off + n]) else None
  }

  function WriteAt(data: seq<byte>, sector: nat, buf: seq<byte>): (r: Option<seq<byte>>)
    ensures r.Some? ==> |r.value| == |data|
  {
    var off := sector * SECTOR % W64;
    if InStore(data, sector, |buf|) then Some(data[..off] + buf + data[off + |buf|..]) else None
  }

  /** Whole sectors only. */
  function Whole(n: nat): (r: nat)
    ensures r <= n
  {
    n - n % SECTOR
  }

  /** What a request does before its status is stored. */
  datatype Effect = Effect(disk: Disk, mem: Mem, status: byte)

  function PerformIn(d: Disk, m: Mem, ch: Chain, sector: nat, cap: nat): Effect {
    var want := Whole(cap);
    if want == 0 || (sector + want / SECTOR) % W64 > |d.data| / SECTOR then Effect(d, m, S_IOERR)
    else
      match ReadAt(d.data, sector, want)
      case None => Effect(d, m, S_IOERR)
      case Some(buf) => Effect(d, SgWrite(m, ch.writable, 0, buf), S_OK)
  }

  function PerformOut(d: Disk, m: Mem, ch: Chain, sector: nat): Effect {
    var total := SgLen(ch.readable);
    var want := Whole(if total < 16 then 0 else total - 16);
    if d.readOnly || want == 0 then Effect(d, m, S_IOERR)
    else
      var got := SgRead(m, ch.readable, 16, want);
      var buf := got + Zeros(if |got| < want then want - |got| else 0);
      match WriteAt(d.data, sector, buf)
      case None => Effect(d, m, S_IOERR)
      case Some(data) => Effect(d.(data := data), m, S_OK)
  }

  function Perform(d: Disk, m: Mem, ch: Chain, kind: nat, sector: nat, cap: nat): Effect {
    if kind == T_IN then PerformIn(d, m, ch, sector, cap)
    else if kind == T_OUT then PerformOut(d, m, ch, sector)
    else if kind == T_FLUSH then Effect(d, m, S_OK)
    else if kind == T_GET_ID then Effect(d, SgWrite(m, ch.writable, 0, SERIAL[..Min(cap, 20)]), S_OK)
    else Effect(d, m, S_UNSUPP)
  }

  /** A header of 16 bytes, and room for a status. */
  predicate Complete(m: Mem, ch: Chain) { |SgRead(m, ch.readable, 0, 16)| == 16 && SgLen(ch.writable) > 0 }

  function Kind(m: Mem, ch: Chain): nat
    requires Complete(m, ch)
  {
    FromLe(SgRead(m, ch.readable, 0, 16)[0..4])
  }

  function SectorOf(m: Mem, ch: Chain): nat
    requires Complete(m, ch)
  {
    FromLe(SgRead(m, ch.readable, 0, 16)[8..16])
  }

  function Outcome(d: Disk, m: Mem, ch: Chain): Effect
    requires Complete(m, ch)
  {
    Perform(d, m, ch, Kind(m, ch), SectorOf(m, ch), SgLen(ch.writable) - 1)
  }

  function Written(kind: nat, cap: nat): nat {
    if kind == T_IN then Whole(cap) % 0x1_0000_0000 + 1
    else if kind == T_GET_ID then Min(cap, 20) + 1
    else 1
  }

  /** One request: the new disk, the new memory, and the length to report. */
  function Handle(d: Disk, m: Mem, ch: Chain): (Disk, Mem, nat) {
    if !Complete(m, ch) then (d, m, 0)
    else
      var e := Outcome(d, m, ch);
      var last := SgLen(ch.writable) - 1;
      (e.disk, SgWrite(e.mem, ch.writable, last, [e.status]), Written(Kind(m, ch), last))
  }

  // ── Sectors ───────────────────────────────────────────────────────────────

  type Sector = s: seq<byte> | |s| == 512 witness seq(512, _ => 0)

  /** The whole sectors of a string. */
  function Chop(data: seq<byte>): (r: seq<Sector>)
    ensures |r| == |data| / SECTOR
  {
    seq(|data| / SECTOR, i requires 0 <= i < |data| / SECTOR => data[i * SECTOR..(i + 1) * SECTOR])
  }

  lemma ChopSplice(data: seq<byte>, sector: nat, buf: seq<byte>)
    requires |buf| % SECTOR == 0 && sector * SECTOR + |buf| <= |data|
    ensures sector + |Chop(buf)| <= |Chop(data)|
    ensures Chop(Splice(data, sector * SECTOR, buf)) == Splice(Chop(data), sector, Chop(buf))
  {
    var off, k := sector * SECTOR, |buf| / SECTOR;
    var data' := Splice(data, off, buf);
    assert |buf| == k * SECTOR;
    forall i | 0 <= i < |data| / SECTOR
      ensures Chop(data')[i] == Splice(Chop(data), sector, Chop(buf))[i]
    {
      var lo, hi := i * SECTOR, (i + 1) * SECTOR;
      if i < sector {
        assert data'[lo..hi] == data[lo..hi];
      } else if i < sector + k {
        assert data'[lo..hi] == buf[lo - off..hi - off];
      } else {
        assert data'[lo..hi] == data[lo..hi];
      }
    }
  }

  lemma ChopSlice(data: seq<byte>, sector: nat, k: nat)
    requires sector + k <= |data| / SECTOR
    ensures (sector + k) * SECTOR <= |data|
    ensures Chop(data[sector * SECTOR..(sector + k) * SECTOR]) == Chop(data)[sector..sector + k]
  {
    var part := data[sector * SECTOR..(sector + k) * SECTOR];
    forall i | 0 <= i < k
      ensures Chop(part)[i] == Chop(data)[sector + i]
    {
      SliceOfSlice(data, sector * SECTOR, (sector + k) * SECTOR, i * SECTOR, (i + 1) * SECTOR);
    }
  }

  /** An array of sectors: what is stored, and what a write at a sector index does to it. */
  function ArrayWrite(a: seq<Sector>, sector: nat, part: seq<Sector>): Option<seq<Sector>> {
    if sector + |part| <= |a| then Some(Splice(a, sector, part)) else None
  }

  function ArrayRead(a: seq<Sector>, sector: nat, k: nat): Option<seq<Sector>> {
    if sector + k <= |a| then Some(a[sector..sector + k]) else None
  }

  /** The payload of a write: the whole sectors after the header. */
  function Payload(m: Mem, ch: Chain): seq<byte> {
    var all := Gather(m, ch.readable);
    if |all| < 16 then [] else all[16..16 + Whole(|all| - 16)]
  }

  /** A request in DRAM whose answer buffers do not overlap. */
  predicate Sound(m: Mem, ch: Chain) {
    Complete(m, ch) && AllInside(m, ch.readable) && AllInside(m, ch.writable) && Disjoint(ch.writable)
  }

  lemma PayloadIsRead(m: Mem, ch: Chain)
    requires AllInside(m, ch.readable) && SgLen(ch.readable) >= 16
    ensures SgRead(m, ch.readable, 16, Whole(SgLen(ch.readable) - 16)) == Payload(m, ch)
  {
    hide SgRead, Gather, SgLen, AllInside;
    SgReadIsSlice(m, ch.readable, 16, Whole(SgLen(ch.readable) - 16));
  }

  lemma {:induction false} SmallOffset(sector: nat)
    requires sector * SECTOR < W64
    ensures sector * SECTOR % W64 == sector * SECTOR
  {}

  /** From 2^55 on a sector number wraps: a write acts on the sector it is congruent to. */
  lemma OutWraps(data: seq<byte>, s: nat, buf: seq<byte>)
    ensures WriteAt(data, s, buf) == WriteAt(data, s % WRAP, buf)
  {
    var q, r := s / WRAP, s % WRAP;
    assert s * SECTOR == r * SECTOR + q * W64;
    assert s * SECTOR % W64 == r * SECTOR % W64;
  }

  /** A write is a write to the array of sectors at its sector number modulo 2^55, and reports so. */
  lemma OutIsArrayWrite(d: Disk, m: Mem, ch: Chain)
    requires Sound(m, ch) && Kind(m, ch) == T_OUT && |d.data| < W64
    ensures var (e, part, s) := (Outcome(d, m, ch), Chop(Payload(m, ch)), SectorOf(m, ch) % WRAP);
      if d.readOnly || part == [] || ArrayWrite(Chop(d.data), s, part).None? then e == Effect(d, m, S_IOERR)
      else
        && e.status == S_OK && e.mem == m && e.disk.readOnly == d.readOnly && |e.disk.data| == |d.data|
        && ArrayWrite(Chop(d.data), s, part) == Some(Chop(e.disk.data))
  {
    hide Kind, SectorOf, Chop, Gather, SgRead, SgLen, WriteAt;
    var s, total := SectorOf(m, ch) % WRAP, SgLen(ch.readable);
    var p := Payload(m, ch);
    ChopLength(p);
    if total >= 16 {
      PayloadIsRead(m, ch);
      OutWraps(d.data, SectorOf(m, ch), p);
      assert p + Zeros(0) == p;
      WriteIsArrayWrite(d.data, s, p);
    }
  }

  lemma WriteIsArrayWrite(data: seq<byte>, s: nat, buf: seq<byte>)
    requires s < WRAP && |buf| % SECTOR == 0 && |data| < W64
    ensures match WriteAt(data, s, buf)
      case None => ArrayWrite(Chop(data), s, Chop(buf)).None?
      case Some(data') => ArrayWrite(Chop(data), s, Chop(buf)) == Some(Chop(data'))
  {
    hide Chop;
    SmallOffset(s);
    ChopLength(data);
    ChopLength(buf);
    FitsBySectors(|data|, s, |buf|);
    if InStore(data, s, |buf|) {
      ChopSplice(data, s, buf);
      assert WriteAt(data, s, buf) == Some(Splice(data, s * SECTOR, buf));
    }
  }

  lemma ChopLength(data: seq<byte>)
    ensures |Chop(data)| == |data| / SECTOR
  {}

  lemma FitsBySectors(len: nat, s: nat, n: nat)
    requires n % SECTOR == 0
    ensures s * SECTOR + n <= len <==> s + n / SECTOR <= len / SECTOR
  {}

  /** The sector arithmetic of a read: the checks in wrapping arithmetic let through exactly the reads
      inside the array, for every 64-bit sector number. */
  lemma ReadChecks(data: seq<byte>, s: nat, k: nat)
    requires s < W64 && k > 0 && |data| < W64
    ensures (s + k) % W64 <= |data| / SECTOR && InStore(data, s, k * SECTOR) <==> s + k <= |data| / SECTOR
    ensures s + k <= |data| / SECTOR ==> s * SECTOR % W64 == s * SECTOR
  {
    if s + k >= W64 {
      var j := W64 - s;
      assert (s + k) % W64 == s + k - W64 || k >= W64;
      if j * SECTOR < W64 {
        assert s * SECTOR == (W64 - j * SECTOR) + W64 * 511;
        assert s * SECTOR % W64 == W64 - j * SECTOR;
      }
    }
  }

  /** What a read request makes of memory before the status: exactly the array's sectors. */
  lemma InOutcome(d: Disk, m: Mem, ch: Chain, s: nat, cap: nat)
    requires s < W64 && |d.data| < W64
    ensures var (e, k) := (PerformIn(d, m, ch, s, cap), cap / SECTOR);
      if k == 0 || s + k > |d.data| / SECTOR then e == Effect(d, m, S_IOERR)
      else
        && (s + k) * SECTOR <= |d.data|
        && e == Effect(d, SgWrite(m, ch.writable, 0, d.data[s * SECTOR..(s + k) * SECTOR]), S_OK)
  {
    hide SgWrite, InStore;
    var k := cap / SECTOR;
    assert Whole(cap) == k * SECTOR;
    if k > 0 {
      ReadChecks(d.data, s, k);
    }
  }

  /** A read is a read of the array of sectors: for any sector number, the bytes land in order at the
      front of the answer buffers, nothing else of them changes but the status, and the disk stays. */
  lemma InIsArrayRead(d: Disk, m: Mem, ch: Chain)
    requires Sound(m, ch) && Kind(m, ch) == T_IN && SectorOf(m, ch) < W64 && |d.data| < W64
    ensures var (d', m', w) := Handle(d, m, ch);
      var (last, s) := (SgLen(ch.writable) - 1, SectorOf(m, ch));
      var (k, before, after) := (last / SECTOR, Gather(m, ch.writable), Gather(m', ch.writable));
      && d' == d
      && if k == 0 || ArrayRead(Chop(d.data), s, k).None? then after == Over(before, last, [S_IOERR])
         else
           && w == k * SECTOR % 0x1_0000_0000 + 1
           && ArrayRead(Chop(d.data), s, k) == Some(Chop(after[..k * SECTOR]))
           && after == Over(Over(before, 0, after[..k * SECTOR]), last, [S_OK])
  {
    hide Kind, SectorOf, Chop, Gather, SgRead, SgLen, SgWrite, AllInside, Disjoint, Over, PerformIn;
    var last, s := SgLen(ch.writable) - 1, SectorOf(m, ch);
    var k := last / SECTOR;
    var e := PerformIn(d, m, ch, s, last);
    InOutcome(d, m, ch, s, last);
    assert Outcome(d, m, ch) == e;
    SameLength(m, e.mem, ch.writable);
    SgWriteIsOver(e.mem, ch.writable, last, [e.status]);
    ChopLength(d.data);
    if k > 0 && s + k <= |d.data| / SECTOR {
      ChopSlice(d.data, s, k);
      var buf := d.data[s * SECTOR..(s + k) * SECTOR];
      SgWriteIsOver(m, ch.writable, 0, buf);
      OverFront(Gather(m, ch.writable), buf, last, S_OK);
    }
  }

  lemma OverFront(before: seq<byte>, buf: seq<byte>, last: nat, status: byte)
    requires |buf| <= last < |before|
    ensures Over(Over(before, 0, buf), last, [status])[..|buf|] == buf
  {}

  lemma SameLength(m: Mem, m': Mem, bufs: seq<Buf>)
    requires m'.base == m.base && |m'.bytes| == |m.bytes| && AllInside(m, bufs)
    ensures AllInside(m', bufs)
  {}

  /** Whatever the request, the status is the last writable byte, and only a successful write that
      the device accepted changes the disk. */
  lemma StatusIsLast(d: Disk, m: Mem, ch: Chain)
    requires Sound(m, ch)
    ensures var (d', m', w) := Handle(d, m, ch);
      && Gather(m', ch.writable)[SgLen(ch.writable) - 1] == Outcome(d, m, ch).status
      && (d' != d ==> Kind(m, ch) == T_OUT && Outcome(d, m, ch).status == S_OK)
  {
    hide Kind, SectorOf, Gather, SgRead, SgLen, SgWrite, AllInside, Disjoint;
    var e := Outcome(d, m, ch);
    assert e.mem.base == m.base && |e.mem.bytes| == |m.bytes|;
    SameLength(m, e.mem, ch.writable);
    SgWriteIsOver(e.mem, ch.writable, SgLen(ch.writable) - 1, [e.status]);
  }

  /** So a write is the write to the array at its own sector number exactly when that number does not
      wrap, or wraps to one where the write does not fit. */
  lemma OutIsFaithfulBelowWrap(data: seq<byte>, s: nat, buf: seq<byte>)
    requires |buf| % SECTOR == 0 && buf != [] && |data| < W64
    ensures s < WRAP || s % WRAP + |buf| / SECTOR > |data| / SECTOR
       <==> match WriteAt(data, s, buf) {
              case None => ArrayWrite(Chop(data), s, Chop(buf)).None?
              case Some(data') => ArrayWrite(Chop(data), s, Chop(buf)) == Some(Chop(data'))
            }
  {
    hide Chop, WriteAt;
    ChopLength(data);
    ChopLength(buf);
    OutWraps(data, s, buf);
    WriteIsArrayWrite(data, s % WRAP, buf);
    if s < WRAP {
      assert s % WRAP == s;
    }
  }

  // ── Runs ──────────────────────────────────────────────────────────────────

  /** A request as the guest left memory when it was made. */
  datatype Request = Request(mem: Mem, chain: Chain)

  /** Buffers in DRAM, and answer buffers that do not overlap. */
  predicate Plain(r: Request) {
    AllInside(r.mem, r.chain.readable) && AllInside(r.mem, r.chain.writable) && Disjoint(r.chain.writable)
  }

  function Run(d: Disk, rs: seq<Request>): Disk
    decreases |rs|
  {
    if rs == [] then d
    else
      var d' := Run(d, rs[..|rs| - 1]);
      Handle(d', rs[|rs| - 1].mem, rs[|rs| - 1].chain).0
  }

  /** The successful write that covers sector `j`, and what it puts there. */
  function Puts(d: Disk, r: Request, j: nat): Option<Sector> {
    if !Complete(r.mem, r.chain) || Kind(r.mem, r.chain) != T_OUT || d.readOnly then None
    else
      var (s, part) := (SectorOf(r.mem, r.chain) % WRAP, Chop(Payload(r.mem, r.chain)));
      if s <= j < s + |part| <= |d.data| / SECTOR then Some(part[j - s]) else None
  }

  /** What the last successful write put into sector `j`; the original sector if there was none. */
  function Latest(d: Disk, rs: seq<Request>, j: nat): Sector
    requires j < |d.data| / SECTOR
    decreases |rs|
  {
    if rs == [] then Chop(d.data)[j]
    else
      match Puts(d, rs[|rs| - 1], j)
      case Some(sector) => sector
      case None => Latest(d, rs[..|rs| - 1], j)
  }

  lemma StepPuts(d: Disk, r: Request, j: nat)
    requires Plain(r) && |d.data| < W64 && j < |d.data| / SECTOR
    ensures var d' := Handle(d, r.mem, r.chain).0;
      && |d'.data| == |d.data| && d'.readOnly == d.readOnly
      && Chop(d'.data)[j] == match Puts(d, r, j) { case Some(sector) => sector case None => Chop(d.data)[j] }
  {
    hide Kind, SectorOf, Chop, Gather, SgRead, SgLen, SgWrite, Payload;
    ChopLength(d.data);
    if Complete(r.mem, r.chain) && Kind(r.mem, r.chain) == T_OUT {
      OutIsArrayWrite(d, r.mem, r.chain);
    }
  }

  /** Over any run, every sector holds what the last successful write to it put there. */
  lemma {:induction false} SectorsHoldTheLatest(d: Disk, rs: seq<Request>, j: nat)
    requires |d.data| < W64 && j < |d.data| / SECTOR && forall k :: 0 <= k < |rs| ==> Plain(rs[k])
    ensures |Run(d, rs).data| == |d.data| && Run(d, rs).readOnly == d.readOnly
    ensures Chop(Run(d, rs).data)[j] == Latest(d, rs, j)
    decreases |rs|
  {
    hide Handle, Puts, Plain, Chop;
    ChopLength(d.data);
    if rs == [] {
    } else {
      var before, last := rs[..|rs| - 1], rs[|rs| - 1];
      SectorsHoldTheLatest(d, before, j);
      var d' := Run(d, before);
      PutsSame(d, d', last, j);
      StepPuts(d', last, j);
    }
  }

  lemma PutsSame(d: Disk, d': Disk, r: Request, j: nat)
    requires |d'.data| == |d.data| && d'.readOnly == d.readOnly
    ensures Puts(d', r, j) == Puts(d, r, j)
  {}

  // ── The device in place ───────────────────────────────────────────────────

  class VirtioBlk {
    const data: array<byte>
    const readOnly: bool

    constructor (data: array<byte>, readOnly: bool)
      ensures this.data == data && this.readOnly == readOnly
    {
      this.data, this.readOnly := data, readOnly;
    }

    function Value(): Disk
      reads data
    {
      Disk(data[..], readOnly)
    }

    method ReadBackend(sector: nat, n: nat) returns (buf: Option<seq<byte>>)
      ensures buf == ReadAt(data[..], sector, n)
    {
      var off := sector * SECTOR % W64;
      if off + n >= W64 || off + n > data.Length {
        return None;
      }
      buf := Some(data[off..off + n]);
    }

    method WriteBackend(sector: nat, buf: seq<byte>) returns (ok: bool)
      modifies data
      ensures ok == WriteAt(old(data[..]), sector, buf).Some?
      ensures data[..] == if ok then WriteAt(old(data[..]), sector, buf).value else old(data[..])
    {
      var off := sector * SECTOR % W64;
      if off + |buf| >= W64 || off + |buf| > data.Length {
        return false;
      }
      for i := 0 to |buf|
        invariant data[..] == old(data[..off]) + buf[..i] + old(data[off + i..])
      {
        data[off + i] := buf[i];
      }
      assert buf[..|buf|] == buf;
      ok := true;
    }

    method ServeIn(mem: GuestMem, ch: Chain, sector: nat, cap: nat) returns (status: byte)
      requires mem.dram != data
      modifies mem.dram
      ensures Effect(Value(), mem.Value(), status) == PerformIn(old(Value()), old(mem.Value()), ch, sector, cap)
    {
      var want := Whole(cap);
      if want == 0 || (sector + want / SECTOR) % W64 > data.Length / SECTOR {
        return S_IOERR;
      }
      var buf := ReadBackend(sector, want);
      if buf.None? {
        return S_IOERR;
      }
      mem.Scatter(ch.writable, 0, buf.value);
      status := S_OK;
    }

    method ServeOut(mem: GuestMem, ch: Chain, sector: nat) returns (status: byte)
      requires mem.dram != data
      modifies data
      ensures Effect(Value(), mem.Value(), status) == PerformOut(old(Value()), old(mem.Value()), ch, sector)
    {
      hide SgRead, WriteAt, SgLen;
      var total := SgLen(ch.readable);
      var want := Whole(if total < 16 then 0 else total - 16);
      if readOnly || want == 0 {
        return S_IOERR;
      }
      var got := mem.Gather(ch.readable, 16, want);
      var buf := got + Zeros(if |got| < want then want - |got| else 0);
      var ok := WriteBackend(sector, buf);
      status := if ok then S_OK else S_IOERR;
    }

    /** One request, acting on the store and on guest memory. */
    method Serve(mem: GuestMem, ch: Chain) returns (written: nat)
      requires mem.dram != data
      modifies data, mem.dram
      ensures (Value(), mem.Value(), written) == Handle(old(Value()), old(mem.Value()), ch)
    {
      hide SgRead, SgWrite, SgLen, PerformIn, PerformOut;
      var hdr := mem.Gather(ch.readable, 0, 16);
      var total := SgLen(ch.writable);
      if |hdr| != 16 || total == 0 {
        return 0;
      }
      var kind, sector, cap := FromLe(hdr[0..4]), FromLe(hdr[8..16]), total - 1;
      var status := S_UNSUPP;
      if kind == T_IN {
        status := ServeIn(mem, ch, sector, cap);
      } else if kind == T_OUT {
        status := ServeOut(mem, ch, sector);
      } else if kind == T_FLUSH {
        status := S_OK;
      } else if kind == T_GET_ID {
        mem.Scatter(ch.writable, 0, SERIAL[..Min(cap, 20)]);
        status := S_OK;
      }
      mem.Scatter(ch.writable, cap, [status]);
      written := Written(kind, cap);
    }
  }
}
