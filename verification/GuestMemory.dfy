/** Guest DRAM as devices see it: bounds-checked windows, and scatter lists over them. */
module GuestMemory {
  import opened Bytes

  datatype Mem = Mem(base: nat, bytes: seq<byte>)

  /** One descriptor's buffer. */
  datatype Buf = Buf(addr: nat, len: nat)

  /** A walked descriptor chain, split by direction. */
  datatype Chain = Chain(head: nat, readable: seq<Buf>, writable: seq<Buf>)

  predicate Inside(m: Mem, gpa: nat, n: nat) { m.base <= gpa && gpa - m.base + n <= |m.bytes| }

  /** Reading outside DRAM gives zeros. */
  function Load(m: Mem, gpa: nat, n: nat): (r: seq<byte>)
    ensures |r| == n
  {
    if Inside(m, gpa, n) then m.bytes[gpa - m.base..gpa - m.base + n] else Zeros(n)
  }

  /** Writing outside DRAM does nothing. */
  function Store(m: Mem, gpa: nat, src: seq<byte>): (m': Mem)
    ensures m'.base == m.base && |m'.bytes| == |m.bytes|
  {
    if Inside(m, gpa, |src|) then
      m.(bytes := m.bytes[..gpa - m.base] + src + m.bytes[gpa - m.base + |src|..])
    else m
  }

  function LoadLe(m: Mem, gpa: nat, n: nat): nat { FromLe(Load(m, gpa, n)) }

  function StoreLe(m: Mem, gpa: nat, v: nat, n: nat): Mem { Store(m, gpa, Le(v, n)) }

  /** The byte at a guest address. */
  function ByteAt(m: Mem, a: nat): byte {
    if m.base <= a < m.base + |m.bytes| then m.bytes[a - m.base] else 0
  }

  lemma StoredByte(m: Mem, gpa: nat, src: seq<byte>, a: nat)
    ensures ByteAt(Store(m, gpa, src), a)
         == if Inside(m, gpa, |src|) && gpa <= a < gpa + |src| then src[a - gpa] else ByteAt(m, a)
  {}

  lemma LoadedByte(m: Mem, gpa: nat, n: nat, k: nat)
    requires Inside(m, gpa, n) && k < n
    ensures Load(m, gpa, n)[k] == ByteAt(m, gpa + k)
  {}

  /** The same stretch of guest addresses. */
  predicate SameExtent(m: Mem, m': Mem) { m.base == m'.base && |m.bytes| == |m'.bytes| }

  lemma LoadAgrees(m: Mem, m': Mem, gpa: nat, n: nat)
    requires SameExtent(m, m') && forall a :: gpa <= a < gpa + n ==> ByteAt(m, a) == ByteAt(m', a)
    ensures Load(m, gpa, n) == Load(m', gpa, n)
  {
    if Inside(m, gpa, n) {
      forall k | 0 <= k < n
        ensures Load(m, gpa, n)[k] == Load(m', gpa, n)[k]
      {
        LoadedByte(m, gpa, n, k);
        LoadedByte(m', gpa, n, k);
        assert gpa <= gpa + k < gpa + n;
      }
    }
  }

  lemma SameBytes(m: Mem, m': Mem)
    requires m.base == m'.base && |m.bytes| == |m'.bytes|
    requires forall a :: ByteAt(m, a) == ByteAt(m', a)
    ensures m == m'
  {
    forall i | 0 <= i < |m.bytes|
      ensures m.bytes[i] == m'.bytes[i]
    {
      assert ByteAt(m, m.base + i) == ByteAt(m', m.base + i);
    }
  }

  // ── Scatter lists ─────────────────────────────────────────────────────────

  function SgLen(bufs: seq<Buf>): nat
    decreases |bufs|
  {
    if bufs == [] then 0 else bufs[0].len + SgLen(bufs[1..])
  }

  /** Up to `n` bytes of a scatter list from `skip` bytes in. */
  function SgRead(m: Mem, bufs: seq<Buf>, skip: nat, n: nat): seq<byte>
    decreases |bufs|
  {
    if bufs == [] then []
    else if skip >= bufs[0].len then SgRead(m, bufs[1..], skip - bufs[0].len, n)
    else
      var take := Min(bufs[0].len - skip, n);
      Load(m, bufs[0].addr + skip, take) + if take == n then [] else SgRead(m, bufs[1..], 0, n - take)
  }

  /** As much of `src` as fits into a scatter list from `skip` bytes in. */
  function SgWrite(m: Mem, bufs: seq<Buf>, skip: nat, src: seq<byte>): (m': Mem)
    ensures m'.base == m.base && |m'.bytes| == |m.bytes|
    decreases |bufs|
  {
    if bufs == [] then m
    else if skip >= bufs[0].len then SgWrite(m, bufs[1..], skip - bufs[0].len, src)
    else
      var take := Min(bufs[0].len - skip, |src|);
      var m' := Store(m, bufs[0].addr + skip, src[..take]);
      if take == |src| then m' else SgWrite(m', bufs[1..], 0, src[take..])
  }

  /** The whole list as one string. */
  function Gather(m: Mem, bufs: seq<Buf>): (r: seq<byte>)
    ensures |r| == SgLen(bufs)
    decreases |bufs|
  {
    if bufs == [] then [] else Load(m, bufs[0].addr, bufs[0].len) + Gather(m, bufs[1..])
  }

  predicate AllInside(m: Mem, bufs: seq<Buf>) {
    forall k :: 0 <= k < |bufs| ==> Inside(m, bufs[k].addr, bufs[k].len)
  }

  predicate Apart(a: Buf, b: Buf) { a.addr + a.len <= b.addr || b.addr + b.len <= a.addr }

  predicate Disjoint(bufs: seq<Buf>) {
    forall j, k :: 0 <= j < k < |bufs| ==> Apart(bufs[j], bufs[k])
  }

  lemma LoadSlice(m: Mem, addr: nat, len: nat, skip: nat, take: nat)
    requires Inside(m, addr, len) && skip + take <= len
    ensures Load(m, addr + skip, take) == Load(m, addr, len)[skip..skip + take]
  {
    var o := addr - m.base;
    assert m.bytes[o..o + len][skip..skip + take] == m.bytes[o + skip..o + skip + take];
  }

  lemma TailIsInside(m: Mem, m': Mem, bufs: seq<Buf>)
    requires bufs != [] && AllInside(m, bufs) && m'.base == m.base && |m'.bytes| == |m.bytes|
    ensures AllInside(m', bufs[1..]) && (Disjoint(bufs) ==> Disjoint(bufs[1..]))
  {
    forall k | 0 <= k < |bufs[1..]|
      ensures Inside(m', bufs[1..][k].addr, bufs[1..][k].len)
    {
      assert Inside(m, bufs[k + 1].addr, bufs[k + 1].len);
    }
    if Disjoint(bufs) {
      forall j, k | 0 <= j < k < |bufs[1..]|
        ensures Apart(bufs[1..][j], bufs[1..][k])
      {
        assert Apart(bufs[j + 1], bufs[k + 1]);
      }
    }
  }

  lemma SgReadUnfolds(m: Mem, bufs: seq<Buf>, skip: nat, n: nat)
    requires bufs != []
    ensures SgRead(m, bufs, skip, n)
         == if skip >= bufs[0].len then SgRead(m, bufs[1..], skip - bufs[0].len, n)
            else Load(m, bufs[0].addr + skip, Min(bufs[0].len - skip, n))
                 + if n <= bufs[0].len - skip then [] else SgRead(m, bufs[1..], 0, n - (bufs[0].len - skip))
  {}

  lemma SgWriteUnfolds(m: Mem, bufs: seq<Buf>, skip: nat, src: seq<byte>)
    requires bufs != []
    ensures SgWrite(m, bufs, skip, src)
         == if skip >= bufs[0].len then SgWrite(m, bufs[1..], skip - bufs[0].len, src)
            else
              var m' := Store(m, bufs[0].addr + skip, src[..Min(bufs[0].len - skip, |src|)]);
              if |src| <= bufs[0].len - skip then m' else SgWrite(m', bufs[1..], 0, src[bufs[0].len - skip..])
  {}

  lemma GatherUnfolds(m: Mem, bufs: seq<Buf>)
    requires bufs != []
    ensures Gather(m, bufs) == Load(m, bufs[0].addr, bufs[0].len) + Gather(m, bufs[1..])
  {}


  lemma SliceOfSum(a: seq<byte>, b: seq<byte>, skip: nat, n: nat)
    ensures |a| <= skip && skip + n <= |a + b| ==> (a + b)[skip..skip + n] == b[skip - |a|..skip - |a| + n]
    ensures skip + n <= |a| ==> (a + b)[skip..skip + n] == a[skip..skip + n]
    ensures skip <= |a| <= skip + n <= |a + b| ==> (a + b)[skip..skip + n] == a[skip..] + b[..skip + n - |a|]
  {}

  lemma PartOfSum(a: seq<byte>, b: seq<byte>, skip: nat, n: nat)
    ensures Slice(a + b, skip, n)
         == if skip >= |a| then Slice(b, skip - |a|, n)
            else a[skip..skip + Min(n, |a| - skip)] + if n <= |a| - skip then [] else Slice(b, 0, n - (|a| - skip))
  {
    if skip >= |a| {
      if skip < |a + b| {
        SliceOfSum(a, b, skip, Min(n, |a + b| - skip));
      }
    } else if n <= |a| - skip {
      SliceOfSum(a, b, skip, n);
    } else {
      SliceOfSum(a, b, skip, Min(n, |a + b| - skip));
    }
  }

  /** Reading a scatter list is slicing the string it spells. */
  lemma {:induction false} SgReadIsSlice(m: Mem, bufs: seq<Buf>, skip: nat, n: nat)
    requires AllInside(m, bufs)
    ensures SgRead(m, bufs, skip, n) == Slice(Gather(m, bufs), skip, n)
    decreases |bufs|
  {
    hide Slice, Load, SgRead, Gather, AllInside;
    if bufs == [] {
      NoBytes(m, skip, n);
    } else {
      var first, rest := bufs[0], bufs[1..];
      assert Inside(m, first.addr, first.len) by { FirstIsInside(m, bufs); }
      TailIsInside(m, m, bufs);
      SgReadUnfolds(m, bufs, skip, n);
      GatherUnfolds(m, bufs);
      PartOfSum(Load(m, first.addr, first.len), Gather(m, rest), skip, n);
      if skip >= first.len {
        SgReadIsSlice(m, rest, skip - first.len, n);
      } else {
        var take := Min(first.len - skip, n);
        LoadSlice(m, first.addr, first.len, skip, take);
        if take < n {
          SgReadIsSlice(m, rest, 0, n - take);
        }
      }
    }
  }

  lemma NoBytes(m: Mem, skip: nat, n: nat)
    ensures SgRead(m, [], skip, n) == [] == Slice(Gather(m, []), skip, n)
  {}

  lemma FirstIsInside(m: Mem, bufs: seq<Buf>)
    requires bufs != [] && AllInside(m, bufs)
    ensures Inside(m, bufs[0].addr, bufs[0].len)
  {}

  /** Which guest address byte `k` of a list is at. */
  function AddrOf(bufs: seq<Buf>, k: nat): nat
    requires k < SgLen(bufs)
    decreases |bufs|
  {
    if k < bufs[0].len then bufs[0].addr + k else AddrOf(bufs[1..], k - bufs[0].len)
  }

  /** Byte `k` lies in one of the buffers. */
  lemma {:induction false} AddrIsInBuf(bufs: seq<Buf>, k: nat) returns (j: nat)
    requires k < SgLen(bufs)
    ensures j < |bufs| && bufs[j].addr <= AddrOf(bufs, k) < bufs[j].addr + bufs[j].len
    decreases |bufs|
  {
    if k < bufs[0].len {
      j := 0;
    } else {
      var i := AddrIsInBuf(bufs[1..], k - bufs[0].len);
      j := i + 1;
    }
  }

  lemma {:induction false} GatheredByte(m: Mem, bufs: seq<Buf>, k: nat)
    requires AllInside(m, bufs) && k < SgLen(bufs)
    ensures Gather(m, bufs)[k] == ByteAt(m, AddrOf(bufs, k))
    decreases |bufs|
  {
    if k < bufs[0].len {
      LoadedByte(m, bufs[0].addr, bufs[0].len, k);
    } else {
      GatheredByte(m, bufs[1..], k - bufs[0].len);
    }
  }

  /** Bytes of the list that a write of `n` bytes from `skip` reaches. */
  predicate Reaches(bufs: seq<Buf>, skip: nat, n: nat, k: nat) { skip <= k < SgLen(bufs) && k < skip + n }

  /** None of those bytes is at address `a`. */
  ghost predicate Misses(bufs: seq<Buf>, skip: nat, n: nat, a: nat) {
    forall k: nat :: Reaches(bufs, skip, n, k) ==> AddrOf(bufs, k) != a
  }

  lemma AddrInRest(bufs: seq<Buf>, k: nat)
    requires bufs != [] && k < SgLen(bufs[1..])
    ensures bufs[0].len + k < SgLen(bufs) && AddrOf(bufs, bufs[0].len + k) == AddrOf(bufs[1..], k)
  {}

  lemma MissesRest(bufs: seq<Buf>, skip: nat, n: nat, a: nat)
    requires bufs != [] && Misses(bufs, skip, n, a) && skip + n >= bufs[0].len
    ensures var past := Min(skip, bufs[0].len); Misses(bufs[1..], skip - past, n - (bufs[0].len - past), a)
  {
    hide SgLen, AddrOf;
    var past := Min(skip, bufs[0].len);
    forall k: nat | Reaches(bufs[1..], skip - past, n - (bufs[0].len - past), k)
      ensures AddrOf(bufs[1..], k) != a
    {
      AddrInRest(bufs, k);
      assert Reaches(bufs, skip, n, bufs[0].len + k);
    }
  }

  lemma MissesFirst(bufs: seq<Buf>, skip: nat, n: nat, a: nat)
    requires bufs != [] && Misses(bufs, skip, n, a) && skip <= bufs[0].len
    ensures !(bufs[0].addr + skip <= a < bufs[0].addr + skip + Min(bufs[0].len - skip, n))
  {
    var k := a - bufs[0].addr;
    if skip <= k < skip + Min(bufs[0].len - skip, n) {
      assert Reaches(bufs, skip, n, k);
    }
  }

  lemma FirstStoreMisses(m: Mem, bufs: seq<Buf>, skip: nat, src: seq<byte>, a: nat)
    requires bufs != [] && Misses(bufs, skip, |src|, a) && skip <= bufs[0].len
    ensures ByteAt(Store(m, bufs[0].addr + skip, src[..Min(bufs[0].len - skip, |src|)]), a) == ByteAt(m, a)
  {
    hide ByteAt, Store, Misses;
    MissesFirst(bufs, skip, |src|, a);
    StoredByte(m, bufs[0].addr + skip, src[..Min(bufs[0].len - skip, |src|)], a);
  }

  /** A write leaves every address alone that is not one of the bytes it reaches. */
  lemma {:induction false} SgWriteFrame(m: Mem, bufs: seq<Buf>, skip: nat, src: seq<byte>, a: nat)
    requires Misses(bufs, skip, |src|, a)
    ensures ByteAt(SgWrite(m, bufs, skip, src), a) == ByteAt(m, a)
    decreases |bufs|
  {
    if bufs == [] {
    } else {
      SgWriteUnfolds(m, bufs, skip, src);
      hide SgWrite, ByteAt, Store, SgLen, Misses;
      var first, rest := bufs[0], bufs[1..];
      if skip >= first.len {
        MissesRest(bufs, skip, |src|, a);
        SgWriteFrame(m, rest, skip - first.len, src, a);
      } else {
        var take := Min(first.len - skip, |src|);
        var m' := Store(m, first.addr + skip, src[..take]);
        FirstStoreMisses(m, bufs, skip, src, a);
        if take < |src| {
          assert Misses(rest, 0, |src| - take, a) by { MissesRest(bufs, skip, |src|, a); }
          SgWriteFrame(m', rest, 0, src[take..], a);
        }
      }
    }
  }

  lemma {:induction false} RestIsApart(bufs: seq<Buf>, k: nat, a: nat)
    requires Disjoint(bufs) && bufs != [] && k < SgLen(bufs[1..]) && bufs[0].addr <= a < bufs[0].addr + bufs[0].len
    ensures AddrOf(bufs[1..], k) != a
  {
    var j := AddrIsInBuf(bufs[1..], k);
    assert Apart(bufs[0], bufs[j + 1]);
  }

  lemma FirstBufStays(m: Mem, bufs: seq<Buf>, src: seq<byte>, a: nat)
    requires Disjoint(bufs) && bufs != [] && bufs[0].addr <= a < bufs[0].addr + bufs[0].len
    ensures ByteAt(SgWrite(m, bufs[1..], 0, src), a) == ByteAt(m, a)
  {
    forall i: nat | Reaches(bufs[1..], 0, |src|, i)
      ensures AddrOf(bufs[1..], i) != a
    {
      RestIsApart(bufs, i, a);
    }
    SgWriteFrame(m, bufs[1..], 0, src, a);
  }

  /** A write puts each byte of the source where the list says. */
  lemma {:induction false} SgWriteHits(m: Mem, bufs: seq<Buf>, skip: nat, src: seq<byte>, k: nat)
    requires AllInside(m, bufs) && Disjoint(bufs) && Reaches(bufs, skip, |src|, k)
    ensures ByteAt(SgWrite(m, bufs, skip, src), AddrOf(bufs, k)) == src[k - skip]
    decreases |bufs|
  {
    hide ByteAt, Store, SgWrite, AllInside, Disjoint;
    var first, rest := bufs[0], bufs[1..];
    assert Inside(m, first.addr, first.len) by { FirstIsInside(m, bufs); }
    SgWriteUnfolds(m, bufs, skip, src);
    TailIsInside(m, m, bufs);
    if skip >= first.len {
      SgWriteHits(m, rest, skip - first.len, src, k - first.len);
    } else {
      var take := Min(first.len - skip, |src|);
      var m' := Store(m, first.addr + skip, src[..take]);
      if k < first.len {
        StoredByte(m, first.addr + skip, src[..take], first.addr + k);
        FirstBufStays(m', bufs, src[take..], first.addr + k);
      } else {
        TailIsInside(m, m', bufs);
        SgWriteHits(m', rest, 0, src[take..], k - first.len);
      }
    }
  }

  lemma {:induction false} AddrIsInjective(bufs: seq<Buf>, j: nat, k: nat)
    requires Disjoint(bufs) && j < k < SgLen(bufs)
    ensures AddrOf(bufs, j) != AddrOf(bufs, k)
    decreases |bufs|
  {
    if k < bufs[0].len {
    } else {
      if j < bufs[0].len {
        RestIsApart(bufs, k - bufs[0].len, bufs[0].addr + j);
      } else {
        AddrIsInjective(bufs[1..], j - bufs[0].len, k - bufs[0].len);
      }
    }
  }

  /** `s` with `src` written over it from `skip`, as far as it reaches. */
  function Over(s: seq<byte>, skip: nat, src: seq<byte>): (r: seq<byte>)
    ensures |r| == |s|
  {
    seq(|s|, k requires 0 <= k < |s| => if skip <= k < skip + |src| then src[k - skip] else s[k])
  }

  /** Writing a scatter list is writing over the string it spells. */
  lemma SgWriteIsOver(m: Mem, bufs: seq<Buf>, skip: nat, src: seq<byte>)
    requires AllInside(m, bufs) && Disjoint(bufs)
    ensures Gather(SgWrite(m, bufs, skip, src), bufs) == Over(Gather(m, bufs), skip, src)
  {
    hide SgWrite, Gather;
    var m' := SgWrite(m, bufs, skip, src);
    forall k | 0 <= k < SgLen(bufs)
      ensures Gather(m', bufs)[k] == Over(Gather(m, bufs), skip, src)[k]
    {
      GatheredByte(m, bufs, k);
      GatheredByte(m', bufs, k);
      if Reaches(bufs, skip, |src|, k) {
        SgWriteHits(m, bufs, skip, src, k);
      } else {
        forall i: nat | Reaches(bufs, skip, |src|, i)
          ensures AddrOf(bufs, i) != AddrOf(bufs, k)
        {
          if i < k { AddrIsInjective(bufs, i, k); } else { AddrIsInjective(bufs, k, i); }
        }
        SgWriteFrame(m, bufs, skip, src, AddrOf(bufs, k));
      }
    }
  }

  /** Memory outside a list's buffers is not touched by writing it. */
  lemma SgWriteOutside(m: Mem, bufs: seq<Buf>, skip: nat, src: seq<byte>, a: nat)
    requires forall j :: 0 <= j < |bufs| ==> !(bufs[j].addr <= a < bufs[j].addr + bufs[j].len)
    ensures ByteAt(SgWrite(m, bufs, skip, src), a) == ByteAt(m, a)
  {
    forall k: nat | Reaches(bufs, skip, |src|, k)
      ensures AddrOf(bufs, k) != a
    {
      var j := AddrIsInBuf(bufs, k);
    }
    SgWriteFrame(m, bufs, skip, src, a);
  }

  // ── DRAM in place ─────────────────────────────────────────────────────────

  class GuestMem {
    const base: nat
    const dram: array<byte>

    constructor (base: nat, dram: array<byte>)
      ensures this.base == base && this.dram == dram
    {
      this.base, this.dram := base, dram;
    }

    function Value(): Mem
      reads dram
    {
      Mem(base, dram[..])
    }

    method Read(gpa: nat, n: nat) returns (out: seq<byte>)
      ensures out == Load(Value(), gpa, n)
    {
      if gpa >= base && gpa - base + n <= dram.Length {
        out := dram[gpa - base..gpa - base + n];
      } else {
        out := Zeros(n);
      }
    }

    method Write(gpa: nat, src: seq<byte>)
      modifies dram
      ensures Value() == Store(old(Value()), gpa, src)
    {
      if gpa >= base && gpa - base + |src| <= dram.Length {
        var off := gpa - base;
        for i := 0 to |src|
          invariant dram[..] == old(dram[..off]) + src[..i] + old(dram[off + i..])
        {
          dram[off + i] := src[i];
        }
        assert src[..|src|] == src;
      }
    }

    /** Gather up to `n` bytes. */
    method Gather(bufs: seq<Buf>, skip: nat, n: nat) returns (out: seq<byte>)
      ensures out == SgRead(Value(), bufs, skip, n)
    {
      hide Load, SgRead;
      out := [];
      var left: nat, i := skip, 0;
      while i < |bufs|
        invariant i <= |bufs| && |out| <= n
        invariant SgRead(Value(), bufs, skip, n) == out + SgRead(Value(), bufs[i..], left, n - |out|)
      {
        var b := bufs[i];
        assert bufs[i..][0] == b && bufs[i..][1..] == bufs[i + 1..];
        SgReadUnfolds(Value(), bufs[i..], left, n - |out|);
        if left >= b.len {
          left := left - b.len;
        } else {
          var take := Min(b.len - left, n - |out|);
          var piece := Read(b.addr + left, take);
          out := out + piece;
          left := 0;
          if |out| == n {
            return;
          }
        }
        i := i + 1;
      }
      assert bufs[i..] == [];
      NoBytes(Value(), left, n - |out|);
    }

    /** Scatter as much of `src` as fits. */
    method Scatter(bufs: seq<Buf>, skip: nat, src: seq<byte>)
      modifies dram
      ensures Value() == SgWrite(old(Value()), bufs, skip, src)
    {
      hide Store;
      var left: nat, done: nat, i := skip, 0, 0;
      while i < |bufs|
        invariant i <= |bufs| && done <= |src|
        invariant SgWrite(old(Value()), bufs, skip, src) == SgWrite(Value(), bufs[i..], left, src[done..])
      {
        var b := bufs[i];
        assert bufs[i..][0] == b && bufs[i..][1..] == bufs[i + 1..];
        if left >= b.len {
          left := left - b.len;
        } else {
          var take := Min(b.len - left, |src| - done);
          assert src[done..][..take] == src[done..done + take] && src[done..][take..] == src[done + take..];
          Write(b.addr + left, src[done..done + take]);
          done := done + take;
          left := 0;
          if done == |src| {
            return;
          }
        }
        i := i + 1;
      }
    }
  }
}
