/**
 * Split virtqueues: walking descriptor chains, draining the available ring across the wrap of its
 * index, and reporting completions in the used ring when they fall due.
 */
module Virtqueue {
  import opened Bytes
  import opened GuestMemory

  const QUEUE_NUM_MAX := 256
  const COMPLETION_LATENCY := 2000

  datatype Queue = Queue(num: u16, ready: bool, desc: nat, avail: nat, used: nat, lastAvail: u16)

  // ── Descriptor chains ─────────────────────────────────────────────────────

  datatype Desc = Desc(addr: nat, len: nat, flags: nat, next: nat) {
    predicate HasNext() { flags % 2 == 1 }
    predicate Writes() { flags / 2 % 2 == 1 }
    predicate Indirect() { flags / 4 % 2 == 1 }
  }

  function ReadDesc(m: Mem, at: nat): Desc {
    Desc(LoadLe(m, at, 8), LoadLe(m, at + 8, 4), LoadLe(m, at + 12, 2), LoadLe(m, at + 14, 2))
  }

  /** A buffer and its direction. */
  datatype Piece = Piece(buf: Buf, write: bool)

  function PieceOf(d: Desc): Piece { Piece(Buf(d.addr, d.len), d.Writes()) }

  /** The buffers of an indirect table from entry `i`, at most `left` of them. */
  function Inner(m: Mem, table: nat, i: nat, left: nat): seq<Piece>
    decreases left
  {
    if left == 0 then []
    else
      var d := ReadDesc(m, table + i * 16);
      [PieceOf(d)] + if d.HasNext() then Inner(m, table, d.next, left - 1) else []
  }

  /** The buffers one descriptor stands for. */
  function PiecesOf(m: Mem, d: Desc): seq<Piece> {
    if d.Indirect() then Inner(m, d.addr, 0, Min(d.len / 16, QUEUE_NUM_MAX)) else [PieceOf(d)]
  }

  /** The buffers of a chain, following at most `budget` descriptors; none if an index is out of range. */
  function Pieces(m: Mem, q: Queue, idx: nat, budget: nat): Option<seq<Piece>>
    decreases budget
  {
    if budget == 0 then Some([])
    else if idx >= q.num then None
    else
      var d := ReadDesc(m, q.desc + idx * 16);
      if !d.HasNext() then Some(PiecesOf(m, d))
      else
        match Pieces(m, q, d.next, budget - 1)
        case None => None
        case Some(rest) => Some(PiecesOf(m, d) + rest)
  }

  /** The buffers of one direction, in order. */
  function Side(ps: seq<Piece>, write: bool): seq<Buf>
    decreases |ps|
  {
    if ps == [] then []
    else if ps[|ps| - 1].write == write then Side(ps[..|ps| - 1], write) + [ps[|ps| - 1].buf]
    else Side(ps[..|ps| - 1], write)
  }

  function Walk(m: Mem, q: Queue, head: nat): Option<Chain> {
    match Pieces(m, q, head, q.num + 1)
    case None => None
    case Some(ps) => Some(Chain(head, Side(ps, false), Side(ps, true)))
  }

  lemma {:induction false} SideOfSum(a: seq<Piece>, b: seq<Piece>, write: bool)
    ensures Side(a + b, write) == Side(a, write) + Side(b, write)
    decreases |b|
  {
    if b == [] {
      assert a + b == a;
    } else {
      SideOfSum(a, b[..|b| - 1], write);
      assert (a + b)[..|a + b| - 1] == a + b[..|b| - 1];
    }
  }

  /** Descriptor `i` names descriptor `j` as its next. */
  predicate Names(m: Mem, q: Queue, i: nat, j: nat) {
    var d := ReadDesc(m, q.desc + i * 16);
    d.HasNext() && d.next == j
  }

  /** `path` lists the descriptors of a chain that ends: each names the next, the last names none. */
  predicate IsChain(m: Mem, q: Queue, path: seq<nat>) {
    && path != []
    && (forall k :: 0 <= k < |path| ==> path[k] < q.num)
    && (forall k :: 0 <= k < |path| - 1 ==> Names(m, q, path[k], path[k + 1]))
    && !ReadDesc(m, q.desc + path[|path| - 1] * 16).HasNext()
  }

  predicate Distinct(path: seq<nat>) { forall j, k :: 0 <= j < k < |path| ==> path[j] != path[k] }

  /** Distinct numbers below `n` are at most `n` many. */
  lemma {:induction false} Pigeonhole(path: seq<nat>, n: nat)
    requires Distinct(path) && forall k :: 0 <= k < |path| ==> path[k] < n
    ensures |path| <= n
    decreases n
  {
    if path == [] {
    } else {
      assert path[0] < n;
      if exists k :: 0 <= k < |path| && path[k] == n - 1 {
        var k :| 0 <= k < |path| && path[k] == n - 1;
        Pigeonhole(path[..k] + path[k + 1..], n - 1);
      } else {
        Pigeonhole(path, n - 1);
      }
    }
  }

  /** All buffers along a path of descriptors. */
  function PiecesAlong(m: Mem, q: Queue, path: seq<nat>): seq<Piece>
    decreases |path|
  {
    if path == [] then [] else PiecesOf(m, ReadDesc(m, q.desc + path[0] * 16)) + PiecesAlong(m, q, path[1..])
  }

  lemma {:induction false} ChainIsFollowed(m: Mem, q: Queue, path: seq<nat>, budget: nat)
    requires IsChain(m, q, path) && |path| <= budget
    ensures Pieces(m, q, path[0], budget) == Some(PiecesAlong(m, q, path))
    decreases |path|
  {
    hide ReadDesc, PiecesOf;
    if |path| == 1 {
      assert path[1..] == [];
      assert PiecesAlong(m, q, path) == PiecesOf(m, ReadDesc(m, q.desc + path[0] * 16));
    } else {
      var rest := path[1..];
      forall k | 0 <= k < |rest| - 1
        ensures Names(m, q, rest[k], rest[k + 1])
      {
        assert Names(m, q, path[k + 1], path[k + 2]);
      }
      assert Names(m, q, path[0], path[1]);
      ChainIsFollowed(m, q, rest, budget - 1);
    }
  }

  /** An acyclic chain is walked to its end: its buffers in order, split by direction. */
  lemma WalkFollowsChain(m: Mem, q: Queue, path: seq<nat>)
    requires IsChain(m, q, path) && Distinct(path)
    ensures var ps := PiecesAlong(m, q, path);
      Walk(m, q, path[0]) == Some(Chain(path[0], Side(ps, false), Side(ps, true)))
  {
    hide ReadDesc, PiecesOf;
    Pigeonhole(path, q.num);
    ChainIsFollowed(m, q, path, q.num + 1);
  }

  // ── Draining the available ring ───────────────────────────────────────────

  /** What a device makes of one chain: its new state, the memory it leaves, the length to report, or
      that it keeps the chain for later. */
  datatype Service<D> = Service(dev: D, mem: Mem, written: nat, deferred: bool)

  datatype Completion = Completion(queue: nat, head: nat, len: nat, due: nat)

  /** A device behind its queues, with completions not reported yet. */
  datatype Port<D> = Port(dev: D, mem: Mem, pending: seq<Completion>)

  /** What draining did: the port, where it stopped, the ring slots it looked at, the heads it served. */
  datatype Drained<D> = Drained(port: Port<D>, last: u16, slots: seq<nat>, heads: seq<nat>)

  /** Serve one chain: report it later, or leave it with the device. */
  function Serve<D>(handle: (D, Chain, Mem) -> Service<D>, p: Port<D>, queue: nat, ch: Chain, now: nat): Port<D> {
    var r := handle(p.dev, ch, p.mem);
    Port(r.dev, r.mem,
      if r.deferred then p.pending
      else p.pending + [Completion(queue, ch.head, r.written, Wrap64(now + COMPLETION_LATENCY))])
  }

  /** A 64-bit clock. */
  function Wrap64(x: nat): nat { x % 0x1_0000_0000_0000_0000 }

  function HeadAt(m: Mem, q: Queue, slot: nat): nat { LoadLe(m, q.avail + 4 + slot * 2, 2) }

  /** A 16-bit index. */
  function Wrap16(x: int): u16 { x % 0x1_0000 }

  /** Serve ring positions from `last` until the index the driver published, at most `budget`. */
  function DrainFrom<D>(handle: (D, Chain, Mem) -> Service<D>, q: Queue, queue: nat, now: nat,
                        p: Port<D>, last: u16, avail: u16, budget: nat): Drained<D>
    requires q.num > 0
    decreases budget
  {
    if last == avail || budget == 0 then Drained(p, last, [], [])
    else
      var slot := last % q.num;
      var head := HeadAt(p.mem, q, slot);
      var walked := Walk(p.mem, q, head);
      var p' := if walked.Some? then Serve(handle, p, queue, walked.value, now) else p;
      var rest := DrainFrom(handle, q, queue, now, p', Wrap16(last + 1), avail, budget - 1);
      rest.(slots := [slot] + rest.slots, heads := (if walked.Some? then [head] else []) + rest.heads)
  }

  /** How far the published index is ahead of the consumed one. */
  function Ahead(last: u16, avail: u16): nat { Wrap16(avail - last) }

  /** The ring slot of free-running position `x`, by way of a 16-bit index. */
  function Slot16(x: nat, num: nat): nat
    requires num > 0
  {
    Wrap16(x) % num
  }

  /** The slots of `n` positions from `last` on. */
  function Slots(last: u16, n: nat, num: nat): (r: seq<nat>)
    requires num > 0
    ensures |r| == n
    decreases n
  {
    if n == 0 then [] else [last % num] + Slots(Wrap16(last + 1), n - 1, num)
  }

  lemma {:induction false} SlotsAt(last: u16, n: nat, num: nat, k: nat)
    requires num > 0 && k < n
    ensures Slots(last, n, num)[k] == Slot16(last + k, num)
    decreases n
  {
    hide Wrap16;
    WrapStep(last, k);
    if k == 0 {
    } else {
      SlotsAt(Wrap16(last + 1), n - 1, num, k - 1);
    }
  }

  lemma WrapStep(last: u16, k: nat)
    ensures k > 0 ==> Wrap16(Wrap16(last + 1) + (k - 1)) == Wrap16(last + k)
    ensures Wrap16(last + 0) == last
  {}

  lemma AheadOfNext(last: u16, avail: u16, n: nat)
    requires last != avail
    ensures Ahead(last, avail) > 0 && Ahead(Wrap16(last + 1), avail) == Ahead(last, avail) - 1
    ensures n > 0 ==> Wrap16(Wrap16(last + 1) + (n - 1)) == Wrap16(last + n)
  {}

  lemma DrainUnfolds<D>(handle: (D, Chain, Mem) -> Service<D>, q: Queue, queue: nat, now: nat,
                        p: Port<D>, last: u16, avail: u16, budget: nat) returns (p': Port<D>, heads: seq<nat>)
    requires q.num > 0 && last != avail && budget > 0
    ensures var (r, rest) := (DrainFrom(handle, q, queue, now, p, last, avail, budget),
                              DrainFrom(handle, q, queue, now, p', Wrap16(last + 1), avail, budget - 1));
      r == Drained(rest.port, rest.last, [last % q.num] + rest.slots, heads + rest.heads)
  {
    hide Walk, Serve, HeadAt;
    var head := HeadAt(p.mem, q, last % q.num);
    var walked := Walk(p.mem, q, head);
    p' := if walked.Some? then Serve(handle, p, queue, walked.value, now) else p;
    heads := if walked.Some? then [head] else [];
  }

  lemma DrainStops<D>(handle: (D, Chain, Mem) -> Service<D>, q: Queue, queue: nat, now: nat,
                      p: Port<D>, last: u16, avail: u16, budget: nat)
    requires q.num > 0 && (last == avail || budget == 0)
    ensures DrainFrom(handle, q, queue, now, p, last, avail, budget) == Drained(p, last, [], [])
    ensures Min(Ahead(last, avail), budget) == 0 && Wrap16(last + 0) == last
  {}

  /** Draining visits the positions from `last` on, one after the other, up to the published index or
      the budget, and stops there. */
  lemma {:induction false} DrainVisits<D>(handle: (D, Chain, Mem) -> Service<D>, q: Queue, queue: nat, now: nat,
                                          p: Port<D>, last: u16, avail: u16, budget: nat)
    requires q.num > 0
    ensures var (r, n) := (DrainFrom(handle, q, queue, now, p, last, avail, budget), Min(Ahead(last, avail), budget));
      r.slots == Slots(last, n, q.num) && r.last == Wrap16(last + n)
    decreases budget
  {
    hide DrainFrom, Ahead, Wrap16;
    var n := Min(Ahead(last, avail), budget);
    if last == avail || budget == 0 {
      DrainStops(handle, q, queue, now, p, last, avail, budget);
    } else {
      var p', _ := DrainUnfolds(handle, q, queue, now, p, last, avail, budget);
      AheadOfNext(last, avail, n);
      DrainVisits(handle, q, queue, now, p', Wrap16(last + 1), avail, budget - 1);
    }
  }

  /** The head a position offers, if its chain can be walked. */
  function Offered(m: Mem, q: Queue, slot: nat): seq<nat> {
    if Walk(m, q, HeadAt(m, q, slot)).Some? then [HeadAt(m, q, slot)] else []
  }

  /** Draining one position further serves the head that the next slot then holds. */
  lemma {:induction false} DrainServesNext<D>(handle: (D, Chain, Mem) -> Service<D>, q: Queue, queue: nat, now: nat,
                                              p: Port<D>, last: u16, avail: u16, k: nat)
    requires q.num > 0 && k < Ahead(last, avail)
    ensures var (r, r') := (DrainFrom(handle, q, queue, now, p, last, avail, k),
                            DrainFrom(handle, q, queue, now, p, last, avail, k + 1));
      r'.heads == r.heads + Offered(r.port.mem, q, Slot16(last + k, q.num))
    decreases k
  {
    hide DrainFrom, Ahead, Wrap16, Offered;
    assert last != avail by { NothingAhead(last, avail); }
    var p', first := DrainTwice(handle, q, queue, now, p, last, avail, k);
    if k == 0 {
      DrainStops(handle, q, queue, now, p, last, avail, 0);
      DrainStops(handle, q, queue, now, p', Wrap16(last + 1), avail, 0);
      WrapStep(last, 0);
    } else {
      AheadOfNext(last, avail, k);
      DrainServesNext(handle, q, queue, now, p', Wrap16(last + 1), avail, k - 1);
    }
  }

  lemma NothingAhead(last: u16, avail: u16)
    ensures last == avail ==> Ahead(last, avail) == 0
  {}

  /** The first position, for two budgets. */
  lemma DrainTwice<D>(handle: (D, Chain, Mem) -> Service<D>, q: Queue, queue: nat, now: nat,
                      p: Port<D>, last: u16, avail: u16, k: nat) returns (p': Port<D>, first: seq<nat>)
    requires q.num > 0 && last != avail
    ensures first == Offered(p.mem, q, last % q.num)
    ensures var (r', rest') := (DrainFrom(handle, q, queue, now, p, last, avail, k + 1),
                                DrainFrom(handle, q, queue, now, p', Wrap16(last + 1), avail, k));
      r'.heads == first + rest'.heads && r'.port == rest'.port
    ensures k > 0 ==>
      var (r, rest) := (DrainFrom(handle, q, queue, now, p, last, avail, k),
                        DrainFrom(handle, q, queue, now, p', Wrap16(last + 1), avail, k - 1));
      r.heads == first + rest.heads && r.port == rest.port
  {
    hide Walk, Serve, HeadAt;
    var head := HeadAt(p.mem, q, last % q.num);
    var walked := Walk(p.mem, q, head);
    p' := if walked.Some? then Serve(handle, p, queue, walked.value, now) else p;
    first := if walked.Some? then [head] else [];
  }

  /** A budget beyond what is published makes no difference. */
  lemma {:induction false} BudgetToSpare<D>(handle: (D, Chain, Mem) -> Service<D>, q: Queue, queue: nat, now: nat,
                                            p: Port<D>, last: u16, avail: u16, budget: nat)
    requires q.num > 0 && Ahead(last, avail) <= budget
    ensures DrainFrom(handle, q, queue, now, p, last, avail, budget)
         == DrainFrom(handle, q, queue, now, p, last, avail, Ahead(last, avail))
    decreases budget
  {
    hide DrainFrom, Ahead, Wrap16;
    if last == avail {
      NothingAhead(last, avail);
      DrainStops(handle, q, queue, now, p, last, avail, budget);
      DrainStops(handle, q, queue, now, p, last, avail, Ahead(last, avail));
    } else {
      AheadOfNext(last, avail, 1);
      var n := Ahead(last, avail);
      var p' := DrainsAlike(handle, q, queue, now, p, last, avail, budget, n);
      BudgetToSpare(handle, q, queue, now, p', Wrap16(last + 1), avail, budget - 1);
    }
  }

  lemma DrainsAlike<D>(handle: (D, Chain, Mem) -> Service<D>, q: Queue, queue: nat, now: nat,
                       p: Port<D>, last: u16, avail: u16, a: nat, b: nat) returns (p': Port<D>)
    requires q.num > 0 && last != avail && a > 0 && b > 0
    ensures DrainFrom(handle, q, queue, now, p', Wrap16(last + 1), avail, a - 1)
         == DrainFrom(handle, q, queue, now, p', Wrap16(last + 1), avail, b - 1)
        ==> DrainFrom(handle, q, queue, now, p, last, avail, a) == DrainFrom(handle, q, queue, now, p, last, avail, b)
  {
    hide Walk, Serve, HeadAt;
    var walked := Walk(p.mem, q, HeadAt(p.mem, q, last % q.num));
    p' := if walked.Some? then Serve(handle, p, queue, walked.value, now) else p;
  }

  /** What a kick has done after `k` of the positions published since the last one. */
  function DrainedBy<D>(handle: (D, Chain, Mem) -> Service<D>, q: Queue, queue: nat, now: nat, p: Port<D>,
                        served: nat, published: nat, k: nat): Drained<D>
    requires q.num > 0
  {
    DrainFrom(handle, q, queue, now, p, Wrap16(served), Wrap16(published), k)
  }

  /** With a queue size that divides 2^16 and at most `2 * num + 1` chains outstanding, a driver that
      counts published chains freely sees each of its positions served once, in order, across the
      wrap of the 16-bit index: the head served at each is the one that stands in the slot of the count,
      in memory as serving the earlier ones left it. */
  lemma DrainFollowsTheCount<D>(handle: (D, Chain, Mem) -> Service<D>, q: Queue, queue: nat, now: nat, p: Port<D>,
                                served: nat, published: nat)
    requires q.num > 0 && 0x1_0000 % q.num == 0
    requires served <= published <= served + 2 * q.num + 1 && published - served < 0x1_0000
    ensures var r := DrainedBy(handle, q, queue, now, p, served, published, 2 * q.num + 1);
      && r.last == Wrap16(published) && |r.slots| == published - served
      && (forall k :: 0 <= k < published - served ==> r.slots[k] == (served + k) % q.num)
      && r == DrainedBy(handle, q, queue, now, p, served, published, published - served)
    ensures DrainedBy(handle, q, queue, now, p, served, published, 0).heads == []
    ensures forall k: nat, k': nat :: k < published - served && k' == k + 1 ==>
      var r := DrainedBy(handle, q, queue, now, p, served, published, k);
      DrainedBy(handle, q, queue, now, p, served, published, k').heads
      == r.heads + Offered(r.port.mem, q, (served + k) % q.num)
  {
    hide DrainFrom, Slots, Wrap16, Ahead, Offered;
    var n := published - served;
    WrappedCount(served, published);
    DrainVisits(handle, q, queue, now, p, Wrap16(served), Wrap16(published), 2 * q.num + 1);
    BudgetToSpare(handle, q, queue, now, p, Wrap16(served), Wrap16(published), 2 * q.num + 1);
    DrainStops(handle, q, queue, now, p, Wrap16(served), Wrap16(published), 0);
    forall k | 0 <= k < n
      ensures Slots(Wrap16(served), n, q.num)[k] == (served + k) % q.num
    {
      CountedSlot(served, n, q.num, k);
    }
    forall k: nat, k': nat | k < n && k' == k + 1
      ensures var r := DrainedBy(handle, q, queue, now, p, served, published, k);
        DrainedBy(handle, q, queue, now, p, served, published, k').heads
        == r.heads + Offered(r.port.mem, q, (served + k) % q.num)
    {
      DrainServesNext(handle, q, queue, now, p, Wrap16(served), Wrap16(published), k);
      CountedSlot(served, n, q.num, k);
      SlotsAt(Wrap16(served), n, q.num, k);
    }
  }

  lemma WrappedCount(served: nat, published: nat)
    requires served <= published < served + 0x1_0000
    ensures Ahead(Wrap16(served), Wrap16(published)) == published - served
    ensures Wrap16(Wrap16(served) + (published - served)) == Wrap16(published)
  {}

  lemma CountedSlot(served: nat, n: nat, num: nat, k: nat)
    requires num > 0 && 0x1_0000 % num == 0 && k < n
    ensures Slots(Wrap16(served), n, num)[k] == (served + k) % num
  {
    hide Slots;
    SlotsAt(Wrap16(served), n, num, k);
    assert Wrap16(Wrap16(served) + k) == Wrap16(served + k);
    WrapIsInvisible(served + k, num);
  }

  lemma WrapIsInvisible(x: nat, num: nat)
    requires num > 0 && 0x1_0000 % num == 0
    ensures Slot16(x, num) == x % num
  {
    var hi, lo, c := x / 0x1_0000, x % 0x1_0000, 0x1_0000 / num;
    var q, r := lo / num, lo % num;
    calc {
      x;
      0x1_0000 * hi + lo;
      { assert 0x1_0000 == num * c; assert lo == num * q + r; }
      num * c * hi + num * q + r;
      { assert num * c * hi == num * (c * hi); }
      num * (c * hi) + num * q + r;
      { assert num * (c * hi) + num * q == num * (c * hi + q); }
      num * (c * hi + q) + r;
    }
    ModIsUnique(x, num, c * hi + q, r);
  }

  /** The wrap of the index goes unnoticed exactly when the queue size divides 2^16. */
  lemma WrapCondition(num: nat)
    requires num > 0
    ensures (forall x: nat :: Slot16(x, num) == x % num) <==> 0x1_0000 % num == 0
  {
    if 0x1_0000 % num == 0 {
      forall x: nat
        ensures Slot16(x, num) == x % num
      {
        WrapIsInvisible(x, num);
      }
    } else {
      assert Slot16(0x1_0000, num) == 0;
    }
  }

  /** A kick looks at the slots of the driver's count, in order. */
  predicate FollowsCount<D>(handle: (D, Chain, Mem) -> Service<D>, q: Queue, queue: nat, now: nat, p: Port<D>,
                            served: nat, published: nat)
    requires q.num > 0
  {
    var slots := DrainedBy(handle, q, queue, now, p, served, published, 2 * q.num + 1).slots;
    served + |slots| == published && forall k :: 0 <= k < |slots| ==> slots[k] == (served + k) % q.num
  }

  /** Whatever the driver has counted to, a kick follows the count exactly when the queue size divides 2^16. */
  lemma DrainCondition<D>(handle: (D, Chain, Mem) -> Service<D>, q: Queue, queue: nat, now: nat, p: Port<D>)
    requires q.num > 0
    ensures (forall served: nat, published: nat ::
               served <= published <= served + 2 * q.num + 1 && published - served < 0x1_0000 ==>
                 FollowsCount(handle, q, queue, now, p, served, published))
       <==> 0x1_0000 % q.num == 0
  {
    hide DrainedBy, FollowsCount;
    if 0x1_0000 % q.num == 0 {
      forall served: nat, published: nat | served <= published <= served + 2 * q.num + 1
        && published - served < 0x1_0000
        ensures FollowsCount(handle, q, queue, now, p, served, published)
      {
        CountIsFollowed(handle, q, queue, now, p, served, published);
      }
    } else {
      LostAfterWrap(handle, q, queue, now, p);
    }
  }

  lemma CountIsFollowed<D>(handle: (D, Chain, Mem) -> Service<D>, q: Queue, queue: nat, now: nat, p: Port<D>,
                           served: nat, published: nat)
    requires q.num > 0 && 0x1_0000 % q.num == 0
    requires served <= published <= served + 2 * q.num + 1 && published - served < 0x1_0000
    ensures FollowsCount(handle, q, queue, now, p, served, published)
  {
    hide DrainedBy;
    DrainFollowsTheCount(handle, q, queue, now, p, served, published);
  }

  lemma LostAfterWrap<D>(handle: (D, Chain, Mem) -> Service<D>, q: Queue, queue: nat, now: nat, p: Port<D>)
    requires q.num > 0 && 0x1_0000 % q.num != 0
    ensures !FollowsCount(handle, q, queue, now, p, 0x1_0000, 0x1_0001)
  {
    hide DrainFrom;
    var last, avail := Wrap16(0x1_0000), Wrap16(0x1_0001);
    assert last == 0 && Ahead(last, avail) == 1;
    hide Wrap16, Ahead;
    DrainVisits(handle, q, queue, now, p, last, avail, 2 * q.num + 1);
    FirstSlot(q.num);
    var slots := DrainedBy(handle, q, queue, now, p, 0x1_0000, 0x1_0001, 2 * q.num + 1).slots;
    assert slots[0] == 0 && (0x1_0000 + 0) % q.num != 0;
  }

  lemma FirstSlot(num: nat)
    requires num > 0
    ensures Slots(0, 1, num) == [0]
  {}
}
