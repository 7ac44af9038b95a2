/** Sv39 address translation: the pure page-table walk, the permission and A/D
    rules, and the TLB-free translation that the cached one has to agree with.

    Memory is the word view of DRAM that the walker has: a map from addresses to
    64-bit words, each kept as the PTE it encodes (`PteLayout` is that encoding).
    Every address the walker uses is a multiple of 8 (`WalkTouchesAlignedWords`),
    so words never overlap. A word outside DRAM reads as zero and ignores writes. */
module Sv39 {
  import opened Bytes

  type u44 = x: int | 0 <= x < 0x1000_0000_0000

  datatype Access = Instruction | Load | Store
  datatype Privilege = User | Supervisor | Machine
  datatype Fault = InstructionPageFault | LoadPageFault | StorePageFault
  datatype Outcome = Ok(paddr: u64) | Err(fault: Fault)

  /** Page size: `K4` = 4 KiB, `M2` = 2 MiB, `G1` = 1 GiB, found at walk level 0, 1, 2. */
  datatype Size = K4 | M2 | G1

  /** The low PTE bits after V, which the TLB caches. */
  datatype Flags = Flags(r: bool, w: bool, x: bool, u: bool, g: bool, a: bool, d: bool)

  /** A page-table entry; `soft` is RSW and `high` is bits 54..63. */
  datatype Pte = Pte(v: bool, flags: Flags, soft: nat, ppn: u44, high: nat)

  const ZERO_PTE := Pte(false, Flags(false, false, false, false, false, false, false), 0, 0, 0)

  datatype Walked =
    | Leaf(paddr: u64, ppn: u44, size: Size, flags: Flags, pteAddr: u64)
    | NoLeaf

  type Words = map<u64, Pte>

  function Read(m: Words, a: u64): Pte {
    if a in m then m[a] else ZERO_PTE
  }

  function Write(m: Words, a: u64, p: Pte): Words {
    if a in m then m[a := p] else m
  }

  function PageFaultFor(access: Access): Fault {
    match access
    case Instruction => InstructionPageFault
    case Load => LoadPageFault
    case Store => StorePageFault
  }

  /** `vaddr` bits 63..38 are all equal. */
  predicate Canonical(vaddr: u64) {
    vaddr / 0x40_0000_0000 == 0 || vaddr / 0x40_0000_0000 == 0x3FFFFFF
  }

  function PageBytes(size: Size): int {
    match size
    case G1 => 0x4000_0000
    case M2 => 0x20_0000
    case K4 => 0x1000
  }

  /** The virtual page number at a page size. */
  function VpnAt(vaddr: u64, size: Size): u64 {
    vaddr / PageBytes(size)
  }

  function PteAddr(tablePpn: u44, vaddr: u64, size: Size): u64 {
    tablePpn * 4096 + VpnAt(vaddr, size) % 512 * 8
  }

  predicate PteUsable(p: Pte) { p.v && !(p.flags.w && !p.flags.r) }

  predicate PtePointer(p: Pte) { !p.flags.r && !p.flags.w && !p.flags.x }

  function Finer(size: Size): Size
    requires size != K4
  {
    if size == G1 then M2 else K4
  }

  /** A superpage leaf has to name a frame aligned to its size. */
  predicate AlignedFor(ppn: u44, size: Size) {
    match size
    case G1 => ppn % 0x40000 == 0
    case M2 => ppn % 0x200 == 0
    case K4 => true
  }

  function LeafAt(p: Pte, pteAddr: u64, vaddr: u64, size: Size): Walked {
    if !AlignedFor(p.ppn, size) then NoLeaf
    else Leaf(p.ppn * 4096 + vaddr % PageBytes(size), p.ppn, size, p.flags, pteAddr)
  }

  /** The walk from a table that translates pages of `size` or smaller. */
  function WalkFrom(m: Words, tablePpn: u44, size: Size, vaddr: u64): Walked
    decreases size == G1, size == M2
  {
    var at := PteAddr(tablePpn, vaddr, size);
    var p := Read(m, at);
    if !PteUsable(p) then NoLeaf
    else if !PtePointer(p) then LeafAt(p, at, vaddr, size)
    else if size == K4 then NoLeaf
    else WalkFrom(m, p.ppn, Finer(size), vaddr)
  }

  function Walk(m: Words, rootPpn: u44, vaddr: u64): Walked {
    WalkFrom(m, rootPpn, G1, vaddr)
  }

  /** The range the boot shim serves by identity when the tables do not map it. */
  predicate InIdentityRange(vaddr: u64) {
    0x8020_0000 <= vaddr < 0x8180_0000
  }

  datatype Satp = Satp(mode: nat, ppn: u44)
  datatype Request = Request(priv: Privilege, sum: bool, mxr: bool, access: Access, vaddr: u64)

  /** `apply_pte_flags`: the permission rule on the cached flag bits. */
  predicate Permitted(f: Flags, q: Request) {
    var guarded := q.priv == Supervisor && f.u;
    match q.access
    case Instruction => f.x && !guarded
    case Load => (f.r || (q.mxr && f.x)) && (!guarded || q.sum)
    case Store => f.w && (!guarded || q.sum)
  }

  predicate AdSatisfied(f: Flags, access: Access) {
    f.a && (access != Store || f.d)
  }

  /** A PTE after the hardware A/D update for one access. */
  function Touched(p: Pte, access: Access): Pte {
    p.(flags := p.flags.(a := true, d := p.flags.d || access == Store))
  }

  function UpdateAd(m: Words, w: Walked, access: Access): Words
    requires w.Leaf?
  {
    if AdSatisfied(w.flags, access) then m
    else Write(m, w.pteAddr, Touched(Read(m, w.pteAddr), access))
  }

  /** Translation with no TLB at all: walk, else the identity fallback, then the
      permission check, then the A/D update. */
  function TranslateSpec(m: Words, satp: Satp, q: Request): (Outcome, Words) {
    var fault := Err(PageFaultFor(q.access));
    if satp.mode == 0 then (Ok(q.vaddr), m)
    else if satp.mode != 8 || !Canonical(q.vaddr) then (fault, m)
    else
      var w := Walk(m, satp.ppn, q.vaddr);
      if w.NoLeaf? then (if InIdentityRange(q.vaddr) then Ok(q.vaddr) else fault, m)
      else if !Permitted(w.flags, q) then (fault, m)
      else (Ok(w.paddr), UpdateAd(m, w, q.access))
  }

  // ── Properties of the walk ────────────────────────────────────────────────

  /** Same R, W, X, U and G; every A/D bit of `f` is also in `g`. */
  predicate FlagsBelow(f: Flags, g: Flags) {
    g == f.(a := g.a, d := g.d) && (f.a ==> g.a) && (f.d ==> g.d)
  }

  /** `m'` is `m` with some A/D bits turned on, and nothing else changed. */
  ghost predicate AdGrown(m: Words, m': Words) {
    && m.Keys == m'.Keys
    && forall a :: a in m ==> m'[a] == m[a].(flags := m'[a].flags) && FlagsBelow(m[a].flags, m'[a].flags)
  }

  /** The same walk, except that the second one may report more A/D bits. */
  predicate SameWalk(w: Walked, w': Walked) {
    if w.NoLeaf? then w'.NoLeaf?
    else w'.Leaf? && FlagsBelow(w.flags, w'.flags) && w' == w.(flags := w'.flags)
  }

  /** Turning on A/D bits anywhere, even in words that other walks use as
      pointers, changes no walk except for the A/D bits it reports. */
  lemma {:induction false} WalkIgnoresAdBits(m: Words, m': Words, tablePpn: u44, size: Size, vaddr: u64)
    requires AdGrown(m, m')
    ensures SameWalk(WalkFrom(m, tablePpn, size, vaddr), WalkFrom(m', tablePpn, size, vaddr))
    decreases size == G1, size == M2
  {
    var p := Read(m, PteAddr(tablePpn, vaddr, size));
    if !PteUsable(p) || !PtePointer(p) || size == K4 {
    } else {
      WalkIgnoresAdBits(m, m', p.ppn, Finer(size), vaddr);
    }
  }

  /** What a walk reports is what memory holds at the leaf's address. */
  lemma {:induction false} WalkReportsItsLeaf(m: Words, tablePpn: u44, size: Size, vaddr: u64)
    requires WalkFrom(m, tablePpn, size, vaddr).Leaf?
    ensures
      var w := WalkFrom(m, tablePpn, size, vaddr);
      && w.pteAddr in m && w.flags == m[w.pteAddr].flags && w.ppn == m[w.pteAddr].ppn
      && w.paddr == w.ppn * 4096 + vaddr % PageBytes(w.size) && AlignedFor(w.ppn, w.size)
    decreases size == G1, size == M2
  {
    var p := Read(m, PteAddr(tablePpn, vaddr, size));
    if !PtePointer(p) {
    } else {
      WalkReportsItsLeaf(m, p.ppn, Finer(size), vaddr);
    }
  }

  /** The addresses of the entries a walk reads, in order. */
  function Visited(m: Words, tablePpn: u44, size: Size, vaddr: u64): seq<u64>
    decreases size == G1, size == M2
  {
    var at := PteAddr(tablePpn, vaddr, size);
    var p := Read(m, at);
    if PteUsable(p) && PtePointer(p) && size != K4 then [at] + Visited(m, p.ppn, Finer(size), vaddr) else [at]
  }

  /** The walker only touches words at multiples of 8, so words never overlap: at most one for each level,
      and the leaf is the last. */
  lemma {:induction false} WalkTouchesAlignedWords(m: Words, tablePpn: u44, size: Size, vaddr: u64)
    ensures
      var w, at := WalkFrom(m, tablePpn, size, vaddr), Visited(m, tablePpn, size, vaddr);
      && 0 < |at| <= (match size case G1 => 3 case M2 => 2 case K4 => 1)
      && (forall k :: 0 <= k < |at| ==> at[k] % 8 == 0) && (w.Leaf? ==> w.pteAddr == at[|at| - 1])
    decreases size == G1, size == M2
  {
    var p := Read(m, PteAddr(tablePpn, vaddr, size));
    if !PteUsable(p) || !PtePointer(p) || size == K4 {
    } else {
      WalkTouchesAlignedWords(m, p.ppn, Finer(size), vaddr);
    }
  }

  /** A walk depends on the words it touches and on no others. */
  lemma {:induction false} WalkReadsNothingElse(m: Words, m': Words, tablePpn: u44, size: Size, vaddr: u64)
    requires forall k :: 0 <= k < |Visited(m, tablePpn, size, vaddr)| ==>
      Read(m', Visited(m, tablePpn, size, vaddr)[k]) == Read(m, Visited(m, tablePpn, size, vaddr)[k])
    ensures WalkFrom(m', tablePpn, size, vaddr) == WalkFrom(m, tablePpn, size, vaddr)
    decreases size == G1, size == M2
  {
    var at := Visited(m, tablePpn, size, vaddr);
    var p := Read(m, at[0]);
    if !PteUsable(p) || !PtePointer(p) || size == K4 {
    } else {
      assert forall k :: 0 < k < |at| ==> at[k] == Visited(m, p.ppn, Finer(size), vaddr)[k - 1];
      forall k | 0 <= k < |Visited(m, p.ppn, Finer(size), vaddr)|
        ensures Read(m', Visited(m, p.ppn, Finer(size), vaddr)[k]) == Read(m, Visited(m, p.ppn, Finer(size), vaddr)[k])
      {
        assert at[k + 1] == Visited(m, p.ppn, Finer(size), vaddr)[k];
      }
      WalkReadsNothingElse(m, m', p.ppn, Finer(size), vaddr);
    }
  }

  predicate SamePage(v: u64, v': u64, size: Size) {
    VpnAt(v, size) == VpnAt(v', size)
  }

  lemma CoarserFollows(v: u64, v': u64)
    ensures SamePage(v, v', K4) ==> SamePage(v, v', M2)
    ensures SamePage(v, v', M2) ==> SamePage(v, v', G1)
  {
    assert VpnAt(v, M2) == VpnAt(v, K4) / 512 && VpnAt(v', M2) == VpnAt(v', K4) / 512;
    assert VpnAt(v, G1) == VpnAt(v, M2) / 512 && VpnAt(v', G1) == VpnAt(v', M2) / 512;
  }

  lemma {:induction false} WalkSizeAtMost(m: Words, tablePpn: u44, size: Size, v: u64)
    requires WalkFrom(m, tablePpn, size, v).Leaf?
    ensures
      var found := WalkFrom(m, tablePpn, size, v).size;
      (size == K4 ==> found == K4) && (size == M2 ==> found != G1)
    decreases size == G1, size == M2
  {
    var p := Read(m, PteAddr(tablePpn, v, size));
    if !PtePointer(p) {
    } else {
      WalkSizeAtMost(m, p.ppn, Finer(size), v);
    }
  }

  /** Two addresses in the page a walk ended at walk to the same leaf. */
  lemma {:induction false} WalkIsPerPage(m: Words, tablePpn: u44, size: Size, v: u64, v': u64)
    requires WalkFrom(m, tablePpn, size, v).Leaf?
    requires SamePage(v, v', WalkFrom(m, tablePpn, size, v).size)
    ensures
      var w, w' := WalkFrom(m, tablePpn, size, v), WalkFrom(m, tablePpn, size, v');
      w'.Leaf? && w'.paddr == w.ppn * 4096 + v' % PageBytes(w.size) && w' == w.(paddr := w'.paddr)
    decreases size == G1, size == M2
  {
    WalkSizeAtMost(m, tablePpn, size, v);
    CoarserFollows(v, v');
    var p := Read(m, PteAddr(tablePpn, v, size));
    if !PtePointer(p) {
    } else {
      WalkIsPerPage(m, p.ppn, Finer(size), v, v');
    }
  }

  /** A failing walk fails for the whole 4 KiB page. */
  lemma {:induction false} FailingWalkIsPerPage(m: Words, tablePpn: u44, size: Size, v: u64, v': u64)
    requires WalkFrom(m, tablePpn, size, v).NoLeaf? && SamePage(v, v', K4)
    ensures WalkFrom(m, tablePpn, size, v').NoLeaf?
    decreases size == G1, size == M2
  {
    CoarserFollows(v, v');
    var p := Read(m, PteAddr(tablePpn, v, size));
    if !PteUsable(p) || !PtePointer(p) || size == K4 {
    } else {
      FailingWalkIsPerPage(m, p.ppn, Finer(size), v, v');
    }
  }

  // ── The walk told from the indices of the address ─────────────────────────

  /** The low 39 bits of `vaddr` are three table indices and an offset. */
  predicate Spells(vaddr: u64, i2: nat, i1: nat, i0: nat, off: nat) {
    && i2 < 512 && i1 < 512 && i0 < 512 && off < 4096
    && vaddr % 0x80_0000_0000 == ((i2 * 512 + i1) * 512 + i0) * 4096 + off
  }

  lemma IndexAt(vaddr: u64, size: Size, above: nat, index: nat, below: nat)
    requires vaddr == PageBytes(size) * (above * 512 + index) + below && index < 512 && below < PageBytes(size)
    ensures vaddr % PageBytes(size) == below
    ensures forall table: u44 :: PteAddr(table, vaddr, size) == table * 4096 + index * 8
  {
    ModIsUnique(vaddr, PageBytes(size), above * 512 + index, below);
    assert (above * 512 + index) % 512 == index;
  }

  lemma IndicesOf(vaddr: u64, i2: nat, i1: nat, i0: nat, off: nat)
    requires Spells(vaddr, i2, i1, i0, off)
    ensures forall table: u44 :: PteAddr(table, vaddr, G1) == table * 4096 + i2 * 8
    ensures forall table: u44 :: PteAddr(table, vaddr, M2) == table * 4096 + i1 * 8
    ensures forall table: u44 :: PteAddr(table, vaddr, K4) == table * 4096 + i0 * 8
    ensures vaddr % PageBytes(G1) == (i1 * 512 + i0) * 4096 + off
    ensures vaddr % PageBytes(M2) == i0 * 4096 + off
    ensures vaddr % PageBytes(K4) == off
  {
    var top := vaddr / 0x80_0000_0000;
    IndexAt(vaddr, G1, top, i2, (i1 * 512 + i0) * 4096 + off);
    IndexAt(vaddr, M2, top * 512 + i2, i1, i0 * 4096 + off);
    IndexAt(vaddr, K4, (top * 512 + i2) * 512 + i1, i0, off);
  }

  /** An entry that ends a walk without a leaf, at any level: not valid, or writable but not readable. */
  predicate Refuses(p: Pte) { !p.v || (p.flags.w && !p.flags.r) }

  /** An entry that names the next table. */
  predicate Points(p: Pte, table: u44) {
    p.v && !p.flags.r && !p.flags.w && !p.flags.x && p.ppn == table
  }

  /** An entry that maps a page. */
  predicate Maps(p: Pte) { p.v && (p.flags.r || p.flags.x) && (p.flags.w ==> p.flags.r) }

  /** A 4 KiB mapping: the entries at the three indices lead to the frame, and the address is the frame's
      with the offset. */
  lemma SmallPage(m: Words, root: u44, vaddr: u64, i2: nat, i1: nat, i0: nat, off: nat, t1: u44, t0: u44)
    requires Spells(vaddr, i2, i1, i0, off)
    requires Points(Read(m, root * 4096 + i2 * 8), t1) && Points(Read(m, t1 * 4096 + i1 * 8), t0)
    ensures var p := Read(m, t0 * 4096 + i0 * 8);
      && (Maps(p) ==> Walk(m, root, vaddr) == Leaf(p.ppn * 4096 + off, p.ppn, K4, p.flags, t0 * 4096 + i0 * 8))
      && (!Maps(p) ==> Walk(m, root, vaddr) == NoLeaf)
  {
    hide PteAddr, Read;
    IndicesOf(vaddr, i2, i1, i0, off);
    assert Walk(m, root, vaddr) == WalkFrom(m, t1, M2, vaddr) == WalkFrom(m, t0, K4, vaddr);
  }

  /** A 2 MiB mapping ends at the second index, if its frame is aligned. */
  lemma LargePage(m: Words, root: u44, vaddr: u64, i2: nat, i1: nat, i0: nat, off: nat, t1: u44)
    requires Spells(vaddr, i2, i1, i0, off) && Points(Read(m, root * 4096 + i2 * 8), t1)
    ensures var p := Read(m, t1 * 4096 + i1 * 8);
      && (Maps(p) && p.ppn % 512 == 0 ==>
            Walk(m, root, vaddr)
            == Leaf(p.ppn * 4096 + i0 * 4096 + off, p.ppn, M2, p.flags, t1 * 4096 + i1 * 8))
      && (Refuses(p) || (Maps(p) && p.ppn % 512 != 0) ==> Walk(m, root, vaddr) == NoLeaf)
  {
    hide PteAddr, Read;
    IndicesOf(vaddr, i2, i1, i0, off);
    assert Walk(m, root, vaddr) == WalkFrom(m, t1, M2, vaddr);
  }

  /** A 1 GiB mapping ends at the first index, if its frame is aligned. */
  lemma HugePage(m: Words, root: u44, vaddr: u64, i2: nat, i1: nat, i0: nat, off: nat)
    requires Spells(vaddr, i2, i1, i0, off)
    ensures var p := Read(m, root * 4096 + i2 * 8);
      && (Maps(p) && p.ppn % 0x40000 == 0 ==>
            Walk(m, root, vaddr)
            == Leaf(p.ppn * 4096 + (i1 * 512 + i0) * 4096 + off, p.ppn, G1, p.flags, root * 4096 + i2 * 8))
      && (Refuses(p) || (Maps(p) && p.ppn % 0x40000 != 0) ==> Walk(m, root, vaddr) == NoLeaf)
  {
    hide PteAddr, Read;
    IndicesOf(vaddr, i2, i1, i0, off);
  }

  /** Bits 63 to 38 of the address agree. */
  lemma CanonicalIsSignExtended(vaddr: u64)
    ensures Canonical(vaddr) <==> vaddr < 0x40_0000_0000 || vaddr >= 0xFFFF_FFC0_0000_0000
  {}

  /** Where the tables have a leaf, the translation is its address, refused exactly to a store without W, a
      fetch without X, a load without R that may not read executable pages either, and a supervisor on a
      user page who fetches or has no SUM. Where they have none it is the identity in the boot range and a
      fault elsewhere. */
  lemma TranslationExactly(m: Words, satp: Satp, q: Request)
    requires satp.mode == 8
    ensures var (w, f) := (Walk(m, satp.ppn, q.vaddr), PageFaultFor(q.access));
      TranslateSpec(m, satp, q).0
      == if 0x40_0000_0000 <= q.vaddr < 0xFFFF_FFC0_0000_0000 then Err(f)
         else if w.NoLeaf? then
           if q.vaddr >= 0x8020_0000 && q.vaddr < 0x8180_0000 then Ok(q.vaddr) else Err(f)
         else if || (q.access == Store && !w.flags.w)
                 || (q.access == Instruction && !w.flags.x)
                 || (q.access == Load && !w.flags.r && !(q.mxr && w.flags.x))
                 || (q.priv == Supervisor && w.flags.u && (q.access == Instruction || !q.sum)) then Err(f)
         else Ok(w.paddr)
    ensures PageFaultFor(Instruction) == InstructionPageFault && PageFaultFor(Load) == LoadPageFault
      && PageFaultFor(Store) == StorePageFault
  {
    hide Walk;
    CanonicalIsSignExtended(q.vaddr);
  }

  // ── A/D discipline of the TLB-free translation ────────────────────────────

  lemma UpdateAdTouchesTheLeaf(m: Words, root: u44, vaddr: u64, access: Access)
    requires Walk(m, root, vaddr).Leaf?
    ensures
      var w := Walk(m, root, vaddr);
      var m' := UpdateAd(m, w, access);
      && w.pteAddr in m' && AdSatisfied(m'[w.pteAddr].flags, access)
      && m' == m[w.pteAddr := m'[w.pteAddr]]
      && AdGrown(m, m')
  {
    WalkReportsItsLeaf(m, root, G1, vaddr);
  }

  /** A fault leaves memory alone; a success through the tables leaves the leaf
      accessed (and dirty after a store) and changes no other word. */
  lemma AdDiscipline(m: Words, satp: Satp, q: Request)
    ensures
      var (r, m') := TranslateSpec(m, satp, q);
      && (r.Err? ==> m' == m)
      && (r.Ok? && satp.mode == 8 && Walk(m, satp.ppn, q.vaddr).Leaf? ==>
            var w := Walk(m, satp.ppn, q.vaddr);
            && w.pteAddr in m' && AdSatisfied(m'[w.pteAddr].flags, q.access)
            && m' == m[w.pteAddr := m'[w.pteAddr]])
      && AdGrown(m, m')
  {
    if Walk(m, satp.ppn, q.vaddr).Leaf? {
      UpdateAdTouchesTheLeaf(m, satp.ppn, q.vaddr, q.access);
    }
  }

  /** Whatever a translation writes, every walk of every address from every root
      keeps its level, physical address and permissions. */
  lemma WalksSurviveTranslation(m: Words, satp: Satp, q: Request, root: u44, other: u64)
    ensures SameWalk(Walk(m, root, other), Walk(TranslateSpec(m, satp, q).1, root, other))
  {
    AdDiscipline(m, satp, q);
    WalkIgnoresAdBits(m, TranslateSpec(m, satp, q).1, root, G1, other);
  }
}

/** How a 64-bit word in memory encodes a `Pte`: its low byte as bits, the rest as a number. */
module PteLayout {
  import opened Bytes
  import opened Sv39

  datatype Word = Word(low: bv8, rest: nat)

  predicate Encodable(p: Pte) { p.soft < 4 && p.high < 1024 }

  function WordOf(p: Pte): Word {
    var f := p.flags;
    Word((if p.v then 1 else 0) | (if f.r then 2 else 0) | (if f.w then 4 else 0) | (if f.x then 8 else 0)
         | (if f.u then 0x10 else 0) | (if f.g then 0x20 else 0) | (if f.a then 0x40 else 0)
           | (if f.d then 0x80 else 0),
         p.soft + 4 * (p.ppn + 0x1000_0000_0000 * p.high))
  }

  function FieldsOf(w: Word): Pte {
    Pte(w.low & 1 != 0,
        Flags(w.low & 2 != 0, w.low & 4 != 0, w.low & 8 != 0, w.low & 0x10 != 0, w.low & 0x20 != 0,
              w.low & 0x40 != 0, w.low & 0x80 != 0),
        w.rest % 4, w.rest / 4 % 0x1000_0000_0000, w.rest / 4 / 0x1000_0000_0000)
  }

  lemma WordRoundTrip(w: Word)
    ensures WordOf(FieldsOf(w)) == w
  {}

  lemma FieldsRoundTrip(p: Pte)
    requires Encodable(p)
    ensures FieldsOf(WordOf(p)) == p
  {
    var q := p.ppn + 0x1000_0000_0000 * p.high;
    assert (p.soft + 4 * q) / 4 == q && (p.soft + 4 * q) % 4 == p.soft;
    assert q % 0x1000_0000_0000 == p.ppn && q / 0x1000_0000_0000 == p.high;
  }

  /** The word as a 64-bit number. */
  function Number(w: Word): nat { w.low as nat + 256 * w.rest }

  function Bit(b: bool): nat { if b then 1 else 0 }

  /** Section 4.4.1 of the privileged architecture: V, R, W, X, U, G, A and D from bit 0 up, two bits for
      software, the frame from bit 10. */
  lemma WordIsLaidOut(p: Pte)
    ensures Number(WordOf(p))
         == Bit(p.v) + 2 * Bit(p.flags.r) + 4 * Bit(p.flags.w) + 8 * Bit(p.flags.x) + 0x10 * Bit(p.flags.u)
            + 0x20 * Bit(p.flags.g) + 0x40 * Bit(p.flags.a) + 0x80 * Bit(p.flags.d)
            + 0x100 * p.soft + 0x400 * p.ppn + 0x40_0000_0000_0000 * p.high
  {
  }

  /** What `set_ad` stores. */
  function Marked(w: Word, access: Access): Word {
    if access == Store then w.(low := w.low | 0x40 | 0x80) else w.(low := w.low | 0x40)
  }

  /** OR-ing 0x40, and 0x80 on a store, into the word sets exactly A and D. */
  lemma OrSetsAccessedAndDirty(w: Word, access: Access)
    ensures FieldsOf(Marked(w, access)) == Touched(FieldsOf(w), access)
  {}

  /** Memory as words, and the entries they encode. */
  type RawWords = map<u64, Word>

  function Decoded(r: RawWords): Words { map a | a in r :: FieldsOf(r[a]) }

  /** Every memory of encodable entries is what some words decode to. */
  lemma EveryMemoryIsDecoded(m: Words)
    requires forall a :: a in m ==> Encodable(m[a])
    ensures Decoded(map a | a in m :: WordOf(m[a])) == m
  {
    forall a | a in m
      ensures FieldsOf(WordOf(m[a])) == m[a]
    {
      FieldsRoundTrip(m[a]);
    }
  }

  /** The walk on words, with the bit tests and shifts of the source. */
  function RawWalk(r: RawWords, tablePpn: u44, size: Size, vaddr: u64): Walked
    decreases size == G1, size == M2
  {
    var at := PteAddr(tablePpn, vaddr, size);
    var pte := if at in r then r[at] else Word(0, 0);
    var ppn := pte.rest / 4 % 0x1000_0000_0000;
    if pte.low & 1 == 0 || (pte.low & 4 != 0 && pte.low & 2 == 0) then NoLeaf
    else if pte.low & 2 == 0 && pte.low & 4 == 0 && pte.low & 8 == 0 then
      if size == K4 then NoLeaf else RawWalk(r, ppn, Finer(size), vaddr)
    else if !AlignedFor(ppn, size) then NoLeaf
    else Leaf(ppn * 4096 + vaddr % PageBytes(size), ppn, size, FieldsOf(pte).flags, at)
  }

  /** Walking words is walking the entries they encode. */
  lemma {:induction false} RawWalkIsWalk(r: RawWords, tablePpn: u44, size: Size, vaddr: u64)
    ensures RawWalk(r, tablePpn, size, vaddr) == WalkFrom(Decoded(r), tablePpn, size, vaddr)
    decreases size == G1, size == M2
  {
    var at := PteAddr(tablePpn, vaddr, size);
    var pte := if at in r then r[at] else Word(0, 0);
    assert Read(Decoded(r), at) == FieldsOf(pte);
    if size == K4 {
    } else {
      RawWalkIsWalk(r, pte.rest / 4 % 0x1000_0000_0000, Finer(size), vaddr);
    }
  }

  /** Storing the marked word is marking the entry, so that the words stay the encoding of the entries. */
  lemma MarkingCommutes(r: RawWords, at: u64, access: Access)
    requires at in r
    ensures Decoded(r[at := Marked(r[at], access)]) == Decoded(r)[at := Touched(Decoded(r)[at], access)]
  {
    OrSetsAccessedAndDirty(r[at], access);
  }
}

/** The set-associative TLB in front of the walk, and the proof that it cannot be seen. */
module Mmu {
  import opened Bytes
  import opened Sv39

  datatype Entry = Entry(valid: bool, vaKey: u64, ppn: u64, flags: Flags, size: Size)

  /** The flag byte 0x67 of an identity entry: R, W, X, A and D. */
  const IDENTITY_FLAGS := Flags(true, true, true, false, false, true, true)

  function SetOf(vpn: u64): nat
    ensures SetOf(vpn) < 64
  {
    vpn % 64
  }

  function LevelSize(level: nat): Size {
    if level == 2 then G1 else if level == 1 then M2 else K4
  }

  function Rank(size: Size): nat {
    match size case K4 => 0 case M2 => 1 case G1 => 2
  }

  /** A probe for `vaddr` stops at way `i`: it lies in the set its own key hashes to. */
  predicate Hits(e: Entry, i: nat, vaddr: u64) {
    e.valid && e.vaKey == VpnAt(vaddr, e.size) && SetOf(e.vaKey) == i / 4
  }

  /** Among all hits for `vaddr`, way `i` is of the finest size, and lowest within it. */
  ghost predicate FirstHit(entries: seq<Entry>, i: nat, vaddr: u64)
    requires i < |entries|
  {
    && Hits(entries[i], i, vaddr)
    && forall j :: 0 <= j < |entries| && Hits(entries[j], j, vaddr) ==>
         Rank(entries[i].size) < Rank(entries[j].size) || (entries[i].size == entries[j].size && i <= j)
  }

  class Tlb {
    const sets: array<Entry>
    const lru: array<nat>

    ghost predicate Valid()
      reads this, lru
    {
      sets.Length == 256 && lru.Length == 64 && forall s :: 0 <= s < 64 ==> lru[s] < 4
    }

    constructor ()
      ensures Valid() && fresh(sets) && fresh(lru)
      ensures forall i :: 0 <= i < 256 ==> !sets[i].valid
    {
      sets := new Entry[256](_ => Entry(false, 0, 0, ZERO_PTE.flags, K4));
      lru := new nat[64](_ => 0);
    }

    method Flush()
      requires Valid()
      modifies sets, lru
      ensures Valid()
      ensures forall i :: 0 <= i < 256 ==> sets[i] == old(sets[i]).(valid := false)
      ensures forall s :: 0 <= s < 64 ==> lru[s] == 0
    {
      for i := 0 to 256
        invariant forall k :: 0 <= k < i ==> sets[k] == old(sets[k]).(valid := false)
        invariant forall k :: i <= k < 256 ==> sets[k] == old(sets[k])
        modifies sets
      {
        sets[i] := sets[i].(valid := false);
      }
      for s := 0 to 64
        invariant forall k :: 0 <= k < s ==> lru[k] == 0
        modifies lru
      {
        lru[s] := 0;
      }
    }

    /** Finest page size first, then lowest way; nothing only if nothing matches. */
    method Lookup(vaddr: u64) returns (r: Option<Entry>)
      requires Valid()
      ensures r.None? ==> forall i :: 0 <= i < 256 ==> !Hits(sets[i], i, vaddr)
      ensures r.Some? ==> exists i :: 0 <= i < 256 && FirstHit(sets[..], i, vaddr) && r.value == sets[i]
    {
      var sizes := [K4, M2, G1];
      for n := 0 to 3
        invariant forall j :: 0 <= j < 256 && Hits(sets[j], j, vaddr) ==> Rank(sets[j].size) >= n
      {
        var size := sizes[n];
        var vpn := VpnAt(vaddr, size);
        var start := SetOf(vpn) * 4;
        for i := 0 to 4
          invariant forall j :: start <= j < start + i ==> !(Hits(sets[j], j, vaddr) && sets[j].size == size)
        {
          var e := sets[start + i];
          if e.valid && e.size == size && e.vaKey == vpn {
            assert FirstHit(sets[..], start + i, vaddr);
            return Some(e);
          }
        }
      }
      return None;
    }

    method Insert(vaddr: u64, ppn: u64, size: Size, flags: Flags) returns (ghost slot: nat)
      requires Valid()
      modifies sets, lru
      ensures Valid() && slot < 256
      ensures sets[..] == old(sets[..])[slot := Entry(true, VpnAt(vaddr, size), ppn, flags, size)]
      ensures slot == SetOf(VpnAt(vaddr, size)) * 4 + old(lru[SetOf(VpnAt(vaddr, size))])
      ensures lru[..] == old(lru[..])[slot / 4 := (slot + 1) % 4]
      ensures forall other :: VpnAt(other, size) == VpnAt(vaddr, size) ==> Hits(sets[slot], slot, other)
    {
      var vpn := VpnAt(vaddr, size);
      var set_ := SetOf(vpn);
      var way := lru[set_] % 4;
      lru[set_] := (lru[set_] + 1) % 4;
      sets[set_ * 4 + way] := Entry(true, vpn, ppn, flags, size);
      slot := set_ * 4 + way;
    }
  }

  /** What a cached entry claims about one address it covers. */
  ghost predicate Serves(e: Entry, vaddr: u64, m: Words, root: u44) {
    var w := Walk(m, root, vaddr);
    if w.NoLeaf? then
      InIdentityRange(vaddr) && e.size == K4 && e.flags == IDENTITY_FLAGS && e.ppn == vaddr / 4096
    else
      e.ppn == w.ppn && e.size == w.size && FlagsBelow(e.flags, w.flags)
  }

  ghost predicate Truthful(e: Entry, m: Words, root: u44) {
    forall vaddr :: Canonical(vaddr) && VpnAt(vaddr, e.size) == e.vaKey ==> Serves(e, vaddr, m, root)
  }

  ghost predicate AllTruthful(entries: seq<Entry>, m: Words, root: u44) {
    forall i :: 0 <= i < |entries| && entries[i].valid ==> Truthful(entries[i], m, root)
  }

  lemma FlagsBelowTrans(f: Flags, g: Flags, h: Flags)
    requires FlagsBelow(f, g) && FlagsBelow(g, h)
    ensures FlagsBelow(f, h)
  {}

  /** Cached entries stay truthful, with stale A/D bits, as memory gains A/D bits. */
  lemma TruthfulSurvivesAdUpdate(e: Entry, m: Words, m': Words, root: u44)
    requires Truthful(e, m, root) && AdGrown(m, m')
    ensures Truthful(e, m', root)
  {
    forall vaddr | Canonical(vaddr) && VpnAt(vaddr, e.size) == e.vaKey
      ensures Serves(e, vaddr, m', root)
    {
      assert Serves(e, vaddr, m, root);
      WalkIgnoresAdBits(m, m', root, G1, vaddr);
      if Walk(m, root, vaddr).Leaf? {
        FlagsBelowTrans(e.flags, Walk(m, root, vaddr).flags, Walk(m', root, vaddr).flags);
      }
    }
  }

  lemma WalkedEntryIsTruthful(vaddr: u64, m: Words, root: u44)
    requires Walk(m, root, vaddr).Leaf?
    ensures
      var w := Walk(m, root, vaddr);
      Truthful(Entry(true, VpnAt(vaddr, w.size), w.ppn, w.flags, w.size), m, root)
  {
    var w := Walk(m, root, vaddr);
    var e := Entry(true, VpnAt(vaddr, w.size), w.ppn, w.flags, w.size);
    forall v | Canonical(v) && VpnAt(v, e.size) == e.vaKey
      ensures Serves(e, v, m, root)
    {
      WalkIsPerPage(m, root, G1, vaddr, v);
    }
  }

  lemma IdentityIsPageAligned(v: u64, v': u64)
    requires InIdentityRange(v) && v / 4096 == v' / 4096
    ensures InIdentityRange(v')
  {}

  lemma IdentityEntryIsTruthful(vaddr: u64, m: Words, root: u44)
    requires Walk(m, root, vaddr).NoLeaf? && InIdentityRange(vaddr)
    ensures Truthful(Entry(true, vaddr / 4096, vaddr / 4096, IDENTITY_FLAGS, K4), m, root)
  {
    var e := Entry(true, vaddr / 4096, vaddr / 4096, IDENTITY_FLAGS, K4);
    forall v | Canonical(v) && VpnAt(v, e.size) == e.vaKey
      ensures Serves(e, v, m, root)
    {
      FailingWalkIsPerPage(m, root, G1, vaddr, v);
      IdentityIsPageAligned(vaddr, v);
    }
  }

  lemma PermissionIgnoresAd(f: Flags, g: Flags, q: Request)
    requires FlagsBelow(f, g)
    ensures Permitted(f, q) == Permitted(g, q)
    ensures AdSatisfied(f, q.access) ==> AdSatisfied(g, q.access)
  {}

  lemma IdentityAlwaysPermitted(q: Request)
    ensures Permitted(IDENTITY_FLAGS, q) && AdSatisfied(IDENTITY_FLAGS, q.access)
  {}

  /** A TLB hit that may be served answers exactly what the walk would. */
  lemma HitAgreesWithWalk(e: Entry, m: Words, satp: Satp, q: Request)
    requires satp.mode == 8 && Canonical(q.vaddr) && VpnAt(q.vaddr, e.size) == e.vaKey
    requires Truthful(e, m, satp.ppn) && AdSatisfied(e.flags, q.access)
    ensures TranslateSpec(m, satp, q) ==
      (if Permitted(e.flags, q) then Ok(e.ppn * 4096 + q.vaddr % PageBytes(e.size)) else Err(PageFaultFor(q.access)), m)
  {
    assert Serves(e, q.vaddr, m, satp.ppn);
    IdentityAlwaysPermitted(q);
    var w := Walk(m, satp.ppn, q.vaddr);
    if w.Leaf? {
      PermissionIgnoresAd(e.flags, w.flags, q);
      WalkReportsItsLeaf(m, satp.ppn, G1, q.vaddr);
    }
  }

  class Bus {
    var words: Words

    constructor (words: Words)
      ensures this.words == words
    {
      this.words := words;
    }
  }

  class Mmu {
    const tlb: Tlb

    ghost predicate Valid()
      reads this, tlb, tlb.lru
    {
      tlb.Valid()
    }

    /** Every cached translation is one the tables under `root` give now, up to stale A/D bits. */
    ghost predicate Coherent(m: Words, root: u44)
      reads this, tlb, tlb.sets
    {
      AllTruthful(tlb.sets[..], m, root)
    }

    constructor ()
      ensures Valid() && fresh(tlb) && fresh(tlb.sets) && fresh(tlb.lru)
      ensures forall m, root :: Coherent(m, root)
    {
      tlb := new Tlb();
    }

    /** A flush makes the TLB coherent with any memory and any root. */
    method FlushTlb()
      requires Valid()
      modifies tlb.sets, tlb.lru
      ensures Valid()
      ensures forall m, root :: Coherent(m, root)
    {
      tlb.Flush();
    }

    method WalkSv39(bus: Bus, satp: Satp, vaddr: u64) returns (r: Walked)
      ensures r == Walk(bus.words, satp.ppn, vaddr)
    {
      var table := satp.ppn;
      var level := 2;
      while true
        invariant 0 <= level <= 2
        invariant Walk(bus.words, satp.ppn, vaddr) == WalkFrom(bus.words, table, LevelSize(level), vaddr)
        decreases level
      {
        var vpn := if level == 2 then vaddr / 0x4000_0000 % 512
                   else if level == 1 then vaddr / 0x20_0000 % 512 else vaddr / 4096 % 512;
        var pteAddr := table * 4096 + vpn * 8;
        var pte := Read(bus.words, pteAddr);
        if !pte.v {
          return NoLeaf;
        }
        var flags := pte.flags;
        if flags.w && !flags.r {
          return NoLeaf;
        }
        if !flags.r && !flags.w && !flags.x {
          if level == 0 {
            return NoLeaf;
          }
          table := pte.ppn;
          level := level - 1;
          continue;
        }
        var ppn := pte.ppn;
        if level == 2 {
          if ppn % 0x40000 != 0 {
            return NoLeaf;
          }
          return Leaf(ppn * 4096 + vaddr % 0x4000_0000, ppn, G1, flags, pteAddr);
        } else if level == 1 {
          if ppn % 512 != 0 {
            return NoLeaf;
          }
          return Leaf(ppn * 4096 + vaddr % 0x20_0000, ppn, M2, flags, pteAddr);
        } else {
          return Leaf(ppn * 4096 + vaddr % 4096, ppn, K4, flags, pteAddr);
        }
      }
    }

    method SetAd(bus: Bus, pteAddr: u64, flags: Flags, access: Access) returns (flags': Flags)
      requires pteAddr in bus.words && flags == bus.words[pteAddr].flags
      modifies bus
      ensures bus.words == if AdSatisfied(flags, access) then old(bus.words)
                           else old(bus.words)[pteAddr := Touched(old(bus.words)[pteAddr], access)]
      ensures flags' == bus.words[pteAddr].flags
    {
      if AdSatisfied(flags, access) {
        return flags;
      }
      var pte := Read(bus.words, pteAddr);
      pte := pte.(flags := pte.flags.(a := true));
      if access == Store {
        pte := pte.(flags := pte.flags.(d := true));
      }
      bus.words := Write(bus.words, pteAddr, pte);
      flags' := pte.flags;
    }

    /** The cached translation refines the TLB-free one: same outcome, same memory. */
    method Translate(bus: Bus, satp: Satp, q: Request) returns (r: Outcome)
      requires Valid() && Coherent(bus.words, satp.ppn)
      modifies bus, tlb.sets, tlb.lru
      ensures Valid() && Coherent(bus.words, satp.ppn)
      ensures (r, bus.words) == TranslateSpec(old(bus.words), satp, q)
    {
      if satp.mode == 0 {
        return Ok(q.vaddr);
      }
      if satp.mode != 8 {
        return Err(PageFaultFor(q.access));
      }
      var top := q.vaddr / 0x40_0000_0000;
      if top != 0 && top != 0x3FFFFFF {
        return Err(PageFaultFor(q.access));
      }
      var cached := tlb.Lookup(q.vaddr);
      if cached.Some? && AdSatisfied(cached.value.flags, q.access) {
        var e := cached.value;
        assert Truthful(e, bus.words, satp.ppn);
        HitAgreesWithWalk(e, bus.words, satp, q);
        if !Permitted(e.flags, q) {
          return Err(PageFaultFor(q.access));
        }
        return Ok(e.ppn * 4096 + q.vaddr % PageBytes(e.size));
      }
      var w := WalkSv39(bus, satp, q.vaddr);
      if w.NoLeaf? {
        if InIdentityRange(q.vaddr) {
          IdentityEntryIsTruthful(q.vaddr, bus.words, satp.ppn);
          var _ := tlb.Insert(q.vaddr, q.vaddr / 4096, K4, IDENTITY_FLAGS);
          return Ok(q.vaddr);
        }
        return Err(PageFaultFor(q.access));
      }
      if !Permitted(w.flags, q) {
        return Err(PageFaultFor(q.access));
      }
      Refill(bus, satp, q, w);
      return Ok(w.paddr);
    }

    /** The tail of a permitted miss: A/D update, then caching the leaf. */
    method Refill(bus: Bus, satp: Satp, q: Request, w: Walked)
      requires Valid() && Coherent(bus.words, satp.ppn)
      requires w == Walk(bus.words, satp.ppn, q.vaddr) && w.Leaf?
      modifies bus, tlb.sets, tlb.lru
      ensures Valid() && Coherent(bus.words, satp.ppn)
      ensures bus.words == UpdateAd(old(bus.words), w, q.access)
    {
      ghost var before := bus.words;
      WalkReportsItsLeaf(bus.words, satp.ppn, G1, q.vaddr);
      var flags := SetAd(bus, w.pteAddr, w.flags, q.access);
      AfterAdUpdate(tlb.sets[..], before, bus.words, satp.ppn, q.vaddr, q.access);
      var _ := tlb.Insert(q.vaddr, w.ppn, w.size, flags);
    }
  }

  lemma AfterAdUpdate(entries: seq<Entry>, m: Words, m': Words, root: u44, vaddr: u64, access: Access)
    requires AllTruthful(entries, m, root) && Walk(m, root, vaddr).Leaf?
    requires m' == UpdateAd(m, Walk(m, root, vaddr), access)
    ensures AllTruthful(entries, m', root)
    ensures
      var w := Walk(m, root, vaddr);
      && w.pteAddr in m'
      && Truthful(Entry(true, VpnAt(vaddr, w.size), w.ppn, m'[w.pteAddr].flags, w.size), m', root)
  {
    UpdateAdTouchesTheLeaf(m, root, vaddr, access);
    forall i | 0 <= i < |entries| && entries[i].valid ensures Truthful(entries[i], m', root) {
      TruthfulSurvivesAdUpdate(entries[i], m, m', root);
    }
    WalkIgnoresAdBits(m, m', root, G1, vaddr);
    WalkReportsItsLeaf(m', root, G1, vaddr);
    WalkedEntryIsTruthful(vaddr, m', root);
  }

  // ── Whole runs ────────────────────────────────────────────────────────────

  /** One step of a run: an access, or a remapping (new root, new page tables)
      that software follows with a flush. */
  datatype Event = Access(q: Request) | Remap(satp: Satp, words: Words)

  /** The outcomes and final memory of a run on a machine with no TLB. */
  ghost function RunSpec(m: Words, satp: Satp, events: seq<Event>): (seq<Outcome>, Words)
    decreases |events|
  {
    if events == [] then ([], m)
    else match events[0]
      case Access(q) =>
        var (r, m') := TranslateSpec(m, satp, q);
        var (rest, last) := RunSpec(m', satp, events[1..]);
        ([r] + rest, last)
      case Remap(satp', words) => RunSpec(words, satp', events[1..])
  }

  /** Over any run, whatever was cached or evicted, the TLB cannot be observed. */
  method Run(mmu: Mmu, bus: Bus, satp: Satp, events: seq<Event>) returns (outcomes: seq<Outcome>)
    requires mmu.Valid() && mmu.Coherent(bus.words, satp.ppn)
    modifies bus, mmu.tlb.sets, mmu.tlb.lru
    ensures outcomes == RunSpec(old(bus.words), satp, events).0
    ensures bus.words == RunSpec(old(bus.words), satp, events).1
  {
    outcomes := [];
    var current := satp;
    assert events[0..] == events;
    for i := 0 to |events|
      invariant mmu.Valid() && mmu.Coherent(bus.words, current.ppn)
      invariant RunSpec(old(bus.words), satp, events).0 == outcomes + RunSpec(bus.words, current, events[i..]).0
      invariant RunSpec(old(bus.words), satp, events).1 == RunSpec(bus.words, current, events[i..]).1
    {
      assert events[i..][0] == events[i] && events[i..][1..] == events[i + 1..];
      match events[i]
      case Access(q) =>
        ghost var rest := RunSpec(TranslateSpec(bus.words, current, q).1, current, events[i + 1..]).0;
        var r := mmu.Translate(bus, current, q);
        assert outcomes + ([r] + rest) == (outcomes + [r]) + rest;
        outcomes := outcomes + [r];
      case Remap(satp', words) =>
        bus.words := words;
        current := satp';
        mmu.FlushTlb();
    }
    assert events[|events|..] == [];
  }
}
