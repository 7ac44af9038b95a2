/**
 * What a driver writes into its rings, byte for byte (section 2.7 of Virtio 1.2), and that the device reads
 * it so: descriptors, chains of them, indirect tables and the available ring.
 */
module DriverRing {
  import opened Bytes
  import opened GuestMemory
  import opened Virtqueue

  // ── Descriptors ───────────────────────────────────────────────────────────

  /** A descriptor as the driver prints it: le64 address, le32 length, le16 flags, le16 next. */
  function Printed(addr: nat, len: nat, flags: nat, next: nat): (b: seq<byte>)
    ensures |b| == 16
  {
    Le(addr, 8) + Le(len, 4) + Le(flags, 2) + Le(next, 2)
  }

  /** Such bytes stand in DRAM at `at`. */
  predicate Stands(m: Mem, at: nat, b: seq<byte>) { Inside(m, at, |b|) && Load(m, at, |b|) == b }

  lemma PartStands(m: Mem, at: nat, a: seq<byte>, b: seq<byte>)
    requires Stands(m, at, a + b)
    ensures Stands(m, at, a) && Stands(m, at + |a|, b)
  {
    LoadSlice(m, at, |a + b|, 0, |a|);
    LoadSlice(m, at, |a + b|, |a|, |b|);
    assert (a + b)[0..|a|] == a && (a + b)[|a|..|a| + |b|] == b;
  }

  lemma NumberStands(m: Mem, at: nat, v: nat, n: nat)
    requires Stands(m, at, Le(v, n)) && v < Pow256(n)
    ensures LoadLe(m, at, n) == v
  {
    LeRoundTrip(v, n);
  }

  /** A printed descriptor is read back field by field. */
  lemma DescriptorReads(m: Mem, at: nat, addr: u64, len: u32, flags: u16, next: u16)
    requires Stands(m, at, Printed(addr, len, flags, next))
    ensures ReadDesc(m, at) == Desc(addr, len, flags, next)
  {
    hide Load, Le, Inside, FromLe;
    Pow256Values();
    var a, l, f, n := Le(addr, 8), Le(len, 4), Le(flags, 2), Le(next, 2);
    PartStands(m, at, a + l + f, n);
    PartStands(m, at, a + l, f);
    PartStands(m, at, a, l);
    NumberStands(m, at, addr, 8);
    NumberStands(m, at + 8, len, 4);
    NumberStands(m, at + 12, flags, 2);
    NumberStands(m, at + 14, next, 2);
  }

  /** Flag 1 says another descriptor follows, flag 2 that the device writes. */
  function FlagsOf(last: bool, write: bool): u16 { (if last then 0 else 1) + (if write then 2 else 0) }

  predicate BufOk(b: Buf) { b.addr < 0x1_0000_0000_0000_0000 && b.len < 0x1_0000_0000 }

  // ── Chains ────────────────────────────────────────────────────────────────

  /** Entry `k` of a chain of buffers, of which the device reads the first `|rs|` and writes the others. */
  function BufAt(rs: seq<Buf>, ws: seq<Buf>, k: nat): Buf
    requires k < |rs| + |ws|
  {
    if k < |rs| then rs[k] else ws[k - |rs|]
  }

  /** The buffers stand in a table along the indices `path`, each descriptor naming the next. */
  predicate ChainStands(m: Mem, table: nat, path: seq<nat>, rs: seq<Buf>, ws: seq<Buf>) {
    && 0 < |path| == |rs| + |ws|
    && forall k :: 0 <= k < |path| ==>
      && path[k] < 0x1_0000 && BufOk(BufAt(rs, ws, k))
      && Stands(m, table + path[k] * 16, EntryBytes(path, rs, ws, k))
  }

  function EntryBytes(path: seq<nat>, rs: seq<Buf>, ws: seq<Buf>, k: nat): seq<byte>
    requires k < |path| == |rs| + |ws|
  {
    var (b, last) := (BufAt(rs, ws, k), k == |path| - 1);
    Printed(b.addr, b.len, FlagsOf(last, k >= |rs|), if last then 0 else path[k + 1])
  }

  lemma EntryReads(m: Mem, table: nat, path: seq<nat>, rs: seq<Buf>, ws: seq<Buf>, k: nat)
    requires ChainStands(m, table, path, rs, ws) && k < |path|
    ensures var d := ReadDesc(m, table + path[k] * 16);
      && PieceOf(d) == Piece(BufAt(rs, ws, k), k >= |rs|) && !d.Indirect()
      && (d.HasNext() <==> k < |path| - 1) && (k < |path| - 1 ==> d.next == path[k + 1])
  {
    hide ReadDesc, Stands, Printed;
    var (b, last) := (BufAt(rs, ws, k), k == |path| - 1);
    assert Stands(m, table + path[k] * 16, EntryBytes(path, rs, ws, k)) && BufOk(b);
    assert last || path[k + 1] < 0x1_0000;
    DescriptorReads(m, table + path[k] * 16, b.addr, b.len, FlagsOf(last, k >= |rs|), if last then 0 else path[k + 1]);
  }

  function PiecesFrom(rs: seq<Buf>, ws: seq<Buf>, k: nat): seq<Piece>
    requires k <= |rs| + |ws|
    decreases |rs| + |ws| - k
  {
    if k == |rs| + |ws| then [] else [Piece(BufAt(rs, ws, k), k >= |rs|)] + PiecesFrom(rs, ws, k + 1)
  }

  lemma SideOfOne(p: Piece, write: bool)
    ensures Side([p], write) == if p.write == write then [p.buf] else []
  {
    assert [p][..0] == [];
  }

  /** What the device reads, and what it writes, from entry `k` on. */
  function ReadFrom(rs: seq<Buf>, k: nat): seq<Buf> { if k < |rs| then rs[k..] else [] }

  function WrittenFrom(rs: seq<Buf>, ws: seq<Buf>, k: nat): seq<Buf>
    requires k <= |rs| + |ws|
  {
    if k < |rs| then ws else ws[k - |rs|..]
  }

  lemma OneFewer(rs: seq<Buf>, ws: seq<Buf>, k: nat)
    requires k < |rs| + |ws|
    ensures ReadFrom(rs, k) == (if k < |rs| then [BufAt(rs, ws, k)] else []) + ReadFrom(rs, k + 1)
    ensures WrittenFrom(rs, ws, k) == (if k < |rs| then [] else [BufAt(rs, ws, k)]) + WrittenFrom(rs, ws, k + 1)
  {}

  lemma {:induction false} SidesOfPieces(rs: seq<Buf>, ws: seq<Buf>, k: nat)
    requires k <= |rs| + |ws|
    ensures Side(PiecesFrom(rs, ws, k), false) == ReadFrom(rs, k)
    ensures Side(PiecesFrom(rs, ws, k), true) == WrittenFrom(rs, ws, k)
    decreases |rs| + |ws| - k
  {
    if k == |rs| + |ws| {
    } else {
      hide Side, ReadFrom, WrittenFrom, BufAt;
      SidesOfPieces(rs, ws, k + 1);
      var p, rest := Piece(BufAt(rs, ws, k), k >= |rs|), PiecesFrom(rs, ws, k + 1);
      OneFewer(rs, ws, k);
      SideOfSum([p], rest, false);
      SideOfSum([p], rest, true);
      SideOfOne(p, false);
      SideOfOne(p, true);
    }
  }

  lemma {:induction false} ChainPieces(
    m: Mem, q: Queue, path: seq<nat>, rs: seq<Buf>, ws: seq<Buf>, k: nat, budget: nat)
    requires ChainStands(m, q.desc, path, rs, ws) && k < |path| && |path| - k <= budget
    requires forall j :: 0 <= j < |path| ==> path[j] < q.num
    ensures Pieces(m, q, path[k], budget) == Some(PiecesFrom(rs, ws, k))
    decreases |path| - k
  {
    hide ReadDesc, ChainStands, BufAt;
    assert |path| == |rs| + |ws| by { Lengths(m, q.desc, path, rs, ws); }
    EntryReads(m, q.desc, path, rs, ws, k);
    var d := ReadDesc(m, q.desc + path[k] * 16);
    assert PiecesOf(m, d) == [Piece(BufAt(rs, ws, k), k >= |rs|)];
    if k == |path| - 1 {
      assert PiecesFrom(rs, ws, k + 1) == [] && PiecesFrom(rs, ws, k) == PiecesOf(m, d);
    } else {
      ChainPieces(m, q, path, rs, ws, k + 1, budget - 1);
    }
  }

  lemma Lengths(m: Mem, table: nat, path: seq<nat>, rs: seq<Buf>, ws: seq<Buf>)
    requires ChainStands(m, table, path, rs, ws)
    ensures 0 < |path| == |rs| + |ws|
  {}

  /** A chain a driver printed is walked: its head, what the device reads and what it writes, in order. */
  lemma PrintedChainWalks(m: Mem, q: Queue, path: seq<nat>, rs: seq<Buf>, ws: seq<Buf>)
    requires ChainStands(m, q.desc, path, rs, ws) && Distinct(path)
    requires forall j :: 0 <= j < |path| ==> path[j] < q.num
    ensures Walk(m, q, path[0]) == Some(Chain(path[0], rs, ws))
  {
    hide ChainStands, Pieces;
    Lengths(m, q.desc, path, rs, ws);
    Pigeonhole(path, q.num);
    ChainPieces(m, q, path, rs, ws, 0, q.num + 1);
    SidesOfPieces(rs, ws, 0);
    assert ReadFrom(rs, 0) == rs && WrittenFrom(rs, ws, 0) == ws;
  }

  // ── Indirect tables ───────────────────────────────────────────────────────

  lemma {:induction false} InnerPieces(
    m: Mem, table: nat, path: seq<nat>, rs: seq<Buf>, ws: seq<Buf>, k: nat, left: nat)
    requires ChainStands(m, table, path, rs, ws) && k < |path| && |path| - k <= left
    ensures Inner(m, table, path[k], left) == PiecesFrom(rs, ws, k)
    decreases |path| - k
  {
    hide ReadDesc, ChainStands, BufAt;
    assert |path| == |rs| + |ws| by { Lengths(m, table, path, rs, ws); }
    EntryReads(m, table, path, rs, ws, k);
    if k == |path| - 1 {
      assert PiecesFrom(rs, ws, k + 1) == [];
    } else {
      InnerPieces(m, table, path, rs, ws, k + 1, left - 1);
    }
  }

  /** The same chain in a table of its own, which one descriptor with flag 4 names: it is walked as if it
      stood in the queue, if the table is announced long enough and holds at most 256 entries. */
  lemma IndirectChainWalks(
    m: Mem, q: Queue, head: nat, table: u64, len: u32, path: seq<nat>, rs: seq<Buf>, ws: seq<Buf>)
    requires head < q.num && Stands(m, q.desc + head * 16, Printed(table, len, 4, 0))
    requires ChainStands(m, table, path, rs, ws) && path[0] == 0 && |path| <= len / 16 && |path| <= 256
    ensures Walk(m, q, head) == Some(Chain(head, rs, ws))
  {
    hide ChainStands, ReadDesc, Stands, Inner, PiecesFrom, Side;
    Lengths(m, table, path, rs, ws);
    DescriptorReads(m, q.desc + head * 16, table, len, 4, 0);
    InnerPieces(m, table, path, rs, ws, 0, Min(len / 16, QUEUE_NUM_MAX));
    SidesOfPieces(rs, ws, 0);
    assert ReadFrom(rs, 0) == rs && WrittenFrom(rs, ws, 0) == ws;
  }

  // ── The available ring ────────────────────────────────────────────────────

  /** Flags, the index, and one le16 for each slot (section 2.7.6). */
  predicate AvailStands(m: Mem, q: Queue, idx: u16, slot: nat, head: u16) {
    Stands(m, q.avail + 2, Le(idx, 2)) && Stands(m, q.avail + 4 + slot * 2, Le(head, 2))
  }

  lemma AvailReads(m: Mem, q: Queue, idx: u16, slot: nat, head: u16)
    requires AvailStands(m, q, idx, slot, head)
    ensures LoadLe(m, q.avail + 2, 2) == idx && HeadAt(m, q, slot) == head
  {
    hide Le, Load, Inside;
    Pow256Values();
    NumberStands(m, q.avail + 2, idx, 2);
    NumberStands(m, q.avail + 4 + slot * 2, head, 2);
  }
}
