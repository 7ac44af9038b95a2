/** The platform-level interrupt controller: per-source priority and line, per-context
    enable bits and threshold, claim and complete, and a bitmap of claimable sources
    that is kept in step so that claims need not scan every source. */
module Plic {
  import opened Bytes

  const NSRC: nat := 96
  const NCTX: nat := 8
  const WORDS: nat := 3

  /** One 32-bit word of a bitmap, bit 0 first. */
  type Word = w: seq<bool> | |w| == 32 witness seq(32, _ => false)

  const ZERO: Word := seq(32, _ => false)

  /** The first set bit at or above `b`, or 32: `trailing_zeros` when `b` is 0. */
  function FirstBit(w: Word, b: nat): (r: nat)
    requires b <= 32
    ensures b <= r <= 32 && (r < 32 ==> w[r]) && forall c :: b <= c < r ==> !w[c]
    decreases 32 - b
  {
    if b == 32 || w[b] then b else FirstBit(w, b + 1)
  }

  /** `bits & (bits - 1)`: the word without its lowest set bit. */
  function ClearLowest(w: Word): Word {
    var b := FirstBit(w, 0);
    if b == 32 then w else w[b := false]
  }

  // ── The same on machine words ─────────────────────────────────────────────

  /** The low `n` bits of a machine word. */
  function BitsFrom(w: bv32, n: nat): (r: seq<bool>)
    ensures |r| == n
  {
    if n == 0 then [] else [w & 1 == 1] + BitsFrom(w >> 1, n - 1)
  }

  function BitsOfWord(w: bv32): Word { BitsFrom(w, 32) }

  function ClearFirst(bits: seq<bool>): (r: seq<bool>)
    ensures |r| == |bits|
  {
    if bits == [] then [] else if bits[0] then [false] + bits[1..] else [false] + ClearFirst(bits[1..])
  }

  lemma {:induction false} ClearFirstAt(bits: seq<bool>, b: nat)
    requires b < |bits| ==> bits[b]
    requires b <= |bits| && forall c :: 0 <= c < b ==> !bits[c]
    ensures ClearFirst(bits) == if b < |bits| then bits[b := false] else bits
    decreases |bits|
  {
    if bits == [] {
    } else if b == 0 {
      assert bits[0 := false] == [false] + bits[1..];
    } else {
      assert forall c :: 0 <= c < b - 1 ==> bits[1..][c] == bits[c + 1];
      ClearFirstAt(bits[1..], b - 1);
      assert bits == [false] + bits[1..];
    }
  }

  lemma OddLess(w: bv32)
    requires w & 1 == 1
    ensures w - 1 == w & 0xFFFF_FFFE
  {}

  lemma OddDrops(w: bv32)
    ensures (w & (w & 0xFFFF_FFFE)) & 1 == 0 && (w & (w & 0xFFFF_FFFE)) >> 1 == w >> 1
  {}

  lemma EvenIsTwice(w: bv32)
    requires w & 1 == 0
    ensures w == (w >> 1) << 1 && (w >> 1) & 0x8000_0000 == 0
  {}

  lemma TwiceLess(u: bv32)
    ensures (u << 1) - 1 == ((u - 1) << 1) | 1
  {}

  lemma EvenDrops(u: bv32, v: bv32)
    requires u & 0x8000_0000 == 0
    ensures ((u << 1) & ((v << 1) | 1)) & 1 == 0 && ((u << 1) & ((v << 1) | 1)) >> 1 == u & v
  {}

  /** `w & (w - 1)` one bit at a time. */
  lemma LowestOnWords(w: bv32)
    ensures w & (w - 1) & 1 == 0
    ensures (w & (w - 1)) >> 1 == if w & 1 == 1 then w >> 1 else (w >> 1) & ((w >> 1) - 1)
  {
    if w & 1 == 1 {
      OddLess(w);
      OddDrops(w);
    } else {
      assert w & 1 == 0;
      var u := w >> 1;
      EvenIsTwice(w);
      TwiceLess(u);
      EvenDrops(u, u - 1);
    }
  }

  lemma {:induction false} ClearLowestOnWords(w: bv32, n: nat)
    ensures BitsFrom(w & (w - 1), n) == ClearFirst(BitsFrom(w, n))
    decreases n
  {
    if n == 0 {
    } else {
      LowestOnWords(w);
      ClearLowestOnWords(w >> 1, n - 1);
    }
  }

  /** The step of the source's bit loop, on machine words, is the step of the loop on bits. */
  lemma ClearLowestIsTheWordStep(w: bv32)
    ensures BitsOfWord(w & (w - 1)) == ClearLowest(BitsOfWord(w))
  {
    hide BitsFrom, ClearFirst;
    ClearLowestOnWords(w, 32);
    ClearFirstAt(BitsOfWord(w), FirstBit(BitsOfWord(w), 0));
  }

  // ── The controller as a value ─────────────────────────────────────────────

  datatype State = State(priority: seq<u32>, level: seq<bool>, claimed: seq<bool>, enable: seq<Word>,
                         threshold: seq<u32>)

  predicate Shape(s: State) {
    && |s.priority| == |s.level| == |s.claimed| == NSRC
    && |s.enable| == NCTX * WORDS && |s.threshold| == NCTX
  }

  predicate Enabled(s: State, ctx: nat, irq: nat)
    requires Shape(s) && irq < NSRC
  {
    ctx < NCTX && s.enable[ctx * WORDS + irq / 32][irq % 32]
  }

  /** Asserted, not in service, enabled for the context and above its threshold. */
  predicate Eligible(s: State, ctx: nat, irq: nat)
    requires Shape(s) && ctx < NCTX
  {
    0 < irq < NSRC && s.level[irq] && !s.claimed[irq] && Enabled(s, ctx, irq) && s.priority[irq] > s.threshold[ctx]
  }

  /** The plain scan over all sources below `n`. */
  function BestBelow(s: State, ctx: nat, n: nat): (r: nat)
    requires Shape(s) && ctx < NCTX && n <= NSRC
    ensures r == 0 || (r < n && Eligible(s, ctx, r))
  {
    if n == 0 then 0
    else
      var r := BestBelow(s, ctx, n - 1);
      if Eligible(s, ctx, n - 1) && (r == 0 || s.priority[n - 1] > s.priority[r]) then n - 1 else r
  }

  function Best(s: State, ctx: nat): nat
    requires Shape(s) && ctx < NCTX
  {
    BestBelow(s, ctx, NSRC)
  }

  /** The scan yields the lowest-numbered source of maximal priority among the eligible
      ones, and 0 exactly if there is none. */
  lemma {:induction false} BestIsLowestOfMaximalPriority(s: State, ctx: nat, n: nat)
    requires Shape(s) && ctx < NCTX && n <= NSRC
    ensures
      var r := BestBelow(s, ctx, n);
      && (r == 0 <==> forall i :: 0 <= i < n ==> !Eligible(s, ctx, i))
      && (r != 0 ==> forall i :: 0 <= i < n && Eligible(s, ctx, i) ==>
            s.priority[i] < s.priority[r] || (s.priority[i] == s.priority[r] && r <= i))
  {
    if n == 0 {
    } else {
      BestIsLowestOfMaximalPriority(s, ctx, n - 1);
    }
  }

  ghost predicate AnyPending(s: State)
    requires Shape(s)
  {
    exists ctx, irq :: 0 <= ctx < NCTX && 0 <= irq < NSRC && Eligible(s, ctx, irq)
  }

  // ── The controller as it runs ─────────────────────────────────────────────

  class Controller {
    const priority: array<u32>
    const level: array<bool>
    const claimed: array<bool>
    const enable: array<Word>
    const threshold: array<u32>
    const claimable: array<Word>

    ghost predicate Sized()
      reads this
    {
      && priority.Length == level.Length == claimed.Length == NSRC
      && enable.Length == NCTX * WORDS && threshold.Length == NCTX && claimable.Length == WORDS
      && priority != threshold && level != claimed && enable != claimable
    }

    ghost function Repr(): set<object>
      reads this
    {
      {priority, level, claimed, enable, threshold, claimable}
    }

    ghost function Value(): (s: State)
      requires Sized()
      reads this, priority, level, claimed, enable, threshold
      ensures Shape(s)
    {
      State(priority[..], level[..], claimed[..], enable[..], threshold[..])
    }

    /** Bit `i` of the claimable bitmap is exactly "asserted and not in service". */
    ghost predicate Indexed(irq: nat)
      requires Sized() && irq < NSRC
      reads this, level, claimed, claimable
    {
      claimable[irq / 32][irq % 32] == (level[irq] && !claimed[irq])
    }

    ghost predicate Valid()
      reads this, level, claimed, claimable
    {
      Sized() && forall i :: 0 <= i < NSRC ==> Indexed(i)
    }

    constructor ()
      ensures Valid() && fresh(Repr())
      ensures forall i :: 0 <= i < NSRC ==> !level[i] && !claimed[i]
    {
      priority := new u32[NSRC](_ => 0);
      level := new bool[NSRC](_ => false);
      claimed := new bool[NSRC](_ => false);
      enable := new Word[NCTX * WORDS](_ => ZERO);
      threshold := new u32[NCTX](_ => 0);
      claimable := new Word[WORDS](_ => ZERO);
    }

    method RecalcClaimable(irq: nat)
      requires Sized() && irq < NSRC
      modifies claimable
      ensures forall i :: 0 <= i < NSRC ==> Indexed(i) == (i == irq || old(Indexed(i)))
    {
      if level[irq] && !claimed[irq] {
        claimable[irq / 32] := claimable[irq / 32][irq % 32 := true];
      } else {
        claimable[irq / 32] := claimable[irq / 32][irq % 32 := false];
      }
      forall i | 0 <= i < NSRC ensures Indexed(i) == (i == irq || old(Indexed(i))) {
        assert i != irq ==> i / 32 != irq / 32 || i % 32 != irq % 32;
      }
    }

    /** Take over a saved state; the bitmap is recomputed, not trusted. */
    method Restore(s: State)
      requires Sized() && Shape(s)
      modifies Repr()
      ensures Valid() && Value() == s
    {
      CopyIn(priority, s.priority);
      CopyIn(level, s.level);
      CopyIn(claimed, s.claimed);
      CopyIn(enable, s.enable);
      CopyIn(threshold, s.threshold);
      for i := 0 to NSRC
        invariant Value() == s && forall k :: 0 <= k < i ==> Indexed(k)
      {
        RecalcClaimable(i);
      }
    }

    static method CopyIn<T>(a: array<T>, s: seq<T>)
      requires a.Length == |s|
      modifies a
      ensures a[..] == s
    {
      for i := 0 to |s|
        invariant a[..i] == s[..i]
      {
        a[i] := s[i];
      }
    }

    method SetLevel(irq: nat, on: bool)
      requires Valid() && irq < NSRC
      modifies level, claimable
      ensures Valid() && Value() == old(Value()).(level := old(Value()).level[irq := on])
    {
      if level[irq] != on {
        level[irq] := on;
        assert forall i :: 0 <= i < NSRC && i != irq ==> old(Indexed(i)) ==> Indexed(i);
        RecalcClaimable(irq);
      }
    }

    /** The best source so far and its priority, 0 and 0 if there is none. */
    ghost predicate BestSoFar(ctx: nat, n: nat, best: nat, bestPriority: u32)
      requires Sized() && ctx < NCTX && n <= NSRC
      reads this, priority, level, claimed, enable, threshold
    {
      var s := Value();
      best == BestBelow(s, ctx, n) && bestPriority == if best == 0 then 0 else s.priority[best]
    }

    /** The bitmap walk finds what the plain scan over every source finds. */
    method FindBest(ctx: nat) returns (best: nat)
      requires Valid() && ctx < NCTX
      ensures best == Best(Value(), ctx)
    {
      best := 0;
      var bestPriority: u32 := 0;
      for w := 0 to WORDS
        invariant BestSoFar(ctx, w * 32, best, bestPriority)
      {
        best, bestPriority := ScanWord(ctx, w, best, bestPriority);
      }
    }

    method ScanWord(ctx: nat, w: nat, best0: nat, bestPriority0: u32) returns (best: nat, bestPriority: u32)
      requires Valid() && ctx < NCTX && w < WORDS && BestSoFar(ctx, w * 32, best0, bestPriority0)
      ensures BestSoFar(ctx, w * 32 + 32, best, bestPriority)
    {
      hide BestSoFar, Indexed, Value;
      best, bestPriority := best0, bestPriority0;
      var bits := claimable[w];
      ghost var done: nat := 0;
      while FirstBit(bits, 0) < 32
        invariant 0 <= done <= 32
        invariant forall b :: 0 <= b < done ==> !bits[b]
        invariant forall b :: done <= b < 32 ==> bits[b] == claimable[w][b]
        invariant BestSoFar(ctx, w * 32 + done, best, bestPriority)
        decreases 32 - done
      {
        var b := FirstBit(bits, 0);
        bits := ClearLowest(bits);
        var irq := w * 32 + b;
        SkipTo(ctx, w * 32 + done, irq, w, best, bestPriority);
        assert irq / 32 == w && irq % 32 == b;
        done := b + 1;
        best, bestPriority := Consider(ctx, irq, best, bestPriority);
      }
      SkipTo(ctx, w * 32 + done, w * 32 + 32, w, best, bestPriority);
    }

    /** One claimable source: kept if it is enabled, above the threshold and better. */
    method Consider(ctx: nat, irq: nat, best0: nat, bestPriority0: u32) returns (best: nat, bestPriority: u32)
      requires Valid() && ctx < NCTX && irq < NSRC && claimable[irq / 32][irq % 32]
      requires BestSoFar(ctx, irq, best0, bestPriority0)
      ensures BestSoFar(ctx, irq + 1, best, bestPriority)
    {
      assert Indexed(irq);
      best, bestPriority := best0, bestPriority0;
      if irq == 0 || !enable[ctx * WORDS + irq / 32][irq % 32] {
        return;
      }
      var p := priority[irq];
      if p > threshold[ctx] && p > bestPriority {
        bestPriority := p;
        best := irq;
      }
    }

    /** Sources that are not claimable do not change the outcome of the scan. */
    lemma {:induction false} SkipIdle(s: State, ctx: nat, lo: nat, hi: nat, w: nat)
      requires Valid() && s == Value() && ctx < NCTX && lo <= hi <= NSRC && w < WORDS
      requires w * 32 <= lo && hi <= w * 32 + 32
      requires forall b :: lo - w * 32 <= b < hi - w * 32 ==> !claimable[w][b]
      ensures BestBelow(s, ctx, hi) == BestBelow(s, ctx, lo)
      decreases hi
    {
      if lo < hi {
        SkipIdle(s, ctx, lo, hi - 1, w);
        var i := hi - 1;
        assert Indexed(i) && i / 32 == w && i % 32 == i - w * 32;
        assert !Eligible(s, ctx, i);
      }
    }

    lemma SkipTo(ctx: nat, lo: nat, hi: nat, w: nat, best: nat, bestPriority: u32)
      requires Valid() && ctx < NCTX && lo <= hi <= NSRC && w < WORDS && w * 32 <= lo && hi <= w * 32 + 32
      requires forall b :: lo - w * 32 <= b < hi - w * 32 ==> !claimable[w][b]
      requires BestSoFar(ctx, lo, best, bestPriority)
      ensures BestSoFar(ctx, hi, best, bestPriority)
    {
      SkipIdle(Value(), ctx, lo, hi, w);
    }

    method FindAnyPending() returns (pending: bool)
      requires Valid()
      ensures pending == AnyPending(Value())
    {
      ghost var s := Value();
      var allZero := true;
      for w := 0 to WORDS
        invariant allZero <==> forall v, b :: 0 <= v < w && 0 <= b < 32 ==> !claimable[v][b]
      {
        if FirstBit(claimable[w], 0) < 32 {
          allZero := false;
        }
      }
      if allZero {
        forall ctx, irq | 0 <= ctx < NCTX && 0 <= irq < NSRC ensures !Eligible(s, ctx, irq) {
          assert Indexed(irq);
        }
        return false;
      }
      for ctx := 0 to NCTX
        invariant forall c, i :: 0 <= c < ctx && 0 <= i < NSRC ==> !Eligible(s, c, i)
      {
        var best := FindBest(ctx);
        BestIsLowestOfMaximalPriority(s, ctx, NSRC);
        if best != 0 {
          return true;
        }
      }
      return false;
    }

    method Claim(ctx: nat) returns (irq: nat)
      requires Valid() && ctx < NCTX
      modifies claimed, claimable
      ensures Valid() && irq == Best(old(Value()), ctx)
      ensures Value() == Claimed(old(Value()), ctx)
    {
      irq := FindBest(ctx);
      if irq != 0 {
        claimed[irq] := true;
        assert forall i :: 0 <= i < NSRC && i != irq ==> old(Indexed(i)) ==> Indexed(i);
        RecalcClaimable(irq);
      }
    }

    method Complete(irq: nat)
      requires Valid()
      modifies claimed, claimable
      ensures Valid() && Value() == Completed(old(Value()), irq)
    {
      if irq < NSRC {
        claimed[irq] := false;
        assert forall i :: 0 <= i < NSRC && i != irq ==> old(Indexed(i)) ==> Indexed(i);
        RecalcClaimable(irq);
      }
    }

    /** A load from the controller's registers; loading the claim register claims. */
    method ReadRegister(off: nat) returns (v: nat)
      requires Valid()
      modifies claimed, claimable
      ensures Valid() && v == Loaded(old(Value()), off).0 && Value() == Loaded(old(Value()), off).1
    {
      v := 0;
      if off < 0x1000 {
        var irq := off / 4;
        if irq < NSRC {
          v := priority[irq];
        }
      } else if off < 0x2000 {
        var word := (off - 0x1000) / 4;
        if word < WORDS {
          var bits: Word := ZERO;
          for b := 0 to 32
            invariant forall c :: 0 <= c < 32 ==> bits[c] == (c < b && level[word * 32 + c] && !claimed[word * 32 + c])
          {
            if level[word * 32 + b] && !claimed[word * 32 + b] {
              bits := bits[b := true];
            }
          }
          assert bits == PendingWord(Value(), word);
          v := NumberOf(bits);
        }
      } else if off < 0x20_0000 {
        var ctx, word := (off - 0x2000) / 0x80, (off - 0x2000) % 0x80 / 4;
        if ctx < NCTX && word < WORDS {
          v := NumberOf(enable[ctx * WORDS + word]);
        }
      } else if off < 0x400_0000 {
        var ctx, reg := (off - 0x20_0000) / 0x1000, (off - 0x20_0000) % 0x1000;
        if ctx < NCTX && reg == 0 {
          v := threshold[ctx];
        } else if ctx < NCTX && reg == 4 {
          v := Claim(ctx);
        }
      }
    }

    /** A store to the controller's registers; storing to a claim register completes. */
    method WriteRegister(off: nat, val: u32)
      requires Valid()
      modifies Repr()
      ensures Valid() && Value() == Stored(old(Value()), off, val)
    {
      if off < 0x1000 {
        var irq := off / 4;
        if irq < NSRC {
          priority[irq] := val;
          assert forall i :: 0 <= i < NSRC ==> old(Indexed(i)) ==> Indexed(i);
        }
      } else if off < 0x2000 {
      } else if off < 0x20_0000 {
        var ctx, word := (off - 0x2000) / 0x80, (off - 0x2000) % 0x80 / 4;
        if ctx < NCTX && word < WORDS {
          enable[ctx * WORDS + word] := WordOf(val);
          assert forall i :: 0 <= i < NSRC ==> old(Indexed(i)) ==> Indexed(i);
        }
      } else if off < 0x400_0000 {
        var ctx, reg := (off - 0x20_0000) / 0x1000, (off - 0x20_0000) % 0x1000;
        if reg == 0 {
          if ctx < NCTX {
            threshold[ctx] := val;
            assert forall i :: 0 <= i < NSRC ==> old(Indexed(i)) ==> Indexed(i);
          }
        } else if reg == 4 {
          Complete(val);
        }
      }
    }
  }

  function Claimed(s: State, ctx: nat): (s': State)
    requires Shape(s) && ctx < NCTX
    ensures Shape(s')
  {
    var irq := Best(s, ctx);
    if irq == 0 then s else s.(claimed := s.claimed[irq := true])
  }

  function Completed(s: State, irq: nat): (s': State)
    requires Shape(s)
    ensures Shape(s')
  {
    if irq < NSRC then s.(claimed := s.claimed[irq := false]) else s
  }

  // ── Registers ─────────────────────────────────────────────────────────────

  function BitsOf(v: nat, n: nat): (w: seq<bool>)
    ensures |w| == n
  {
    if n == 0 then [] else [v % 2 == 1] + BitsOf(v / 2, n - 1)
  }

  function NumberOf(w: seq<bool>): nat {
    if w == [] then 0 else (if w[0] then 1 else 0) + 2 * NumberOf(w[1..])
  }

  function Pow2(n: nat): (p: nat)
    ensures p > 0
  {
    if n == 0 then 1 else 2 * Pow2(n - 1)
  }

  function WordOf(v: u32): Word { BitsOf(v, 32) }

  /** An enable word reads back as the number that was written to it. */
  lemma {:induction false} NumberOfBits(v: nat, n: nat)
    requires v < Pow2(n)
    ensures NumberOf(BitsOf(v, n)) == v
  {
    if n == 0 {
    } else {
      NumberOfBits(v / 2, n - 1);
      assert BitsOf(v, n)[1..] == BitsOf(v / 2, n - 1);
    }
  }

  function PendingWord(s: State, word: nat): Word
    requires Shape(s) && word < WORDS
  {
    seq(32, b requires 0 <= b < 32 => s.level[word * 32 + b] && !s.claimed[word * 32 + b])
  }

  /** The claim/complete register of a context sits at this offset. */
  predicate IsClaimRegister(off: nat) {
    0x20_0000 <= off < 0x400_0000 && (off - 0x20_0000) % 0x1000 == 4
  }

  function ContextOf(off: nat): nat
    requires off >= 0x20_0000
  {
    (off - 0x20_0000) / 0x1000
  }

  function Loaded(s: State, off: nat): (r: (nat, State))
    requires Shape(s)
    ensures Shape(r.1)
  {
    if off < 0x1000 then (if off / 4 < NSRC then s.priority[off / 4] else 0, s)
    else if off < 0x2000 then
      var word := (off - 0x1000) / 4;
      (if word < WORDS then NumberOf(PendingWord(s, word)) else 0, s)
    else if off < 0x20_0000 then
      var ctx, word := (off - 0x2000) / 0x80, (off - 0x2000) % 0x80 / 4;
      (if ctx < NCTX && word < WORDS then NumberOf(s.enable[ctx * WORDS + word]) else 0, s)
    else if off >= 0x400_0000 || ContextOf(off) >= NCTX then (0, s)
    else if IsClaimRegister(off) then (Best(s, ContextOf(off)), Claimed(s, ContextOf(off)))
    else if (off - 0x20_0000) % 0x1000 == 0 then (s.threshold[ContextOf(off)], s)
    else (0, s)
  }

  function Stored(s: State, off: nat, val: u32): (s': State)
    requires Shape(s)
    ensures Shape(s')
  {
    if off < 0x1000 then (if off / 4 < NSRC then s.(priority := s.priority[off / 4 := val]) else s)
    else if off < 0x2000 then s
    else if off < 0x20_0000 then
      var ctx, word := (off - 0x2000) / 0x80, (off - 0x2000) % 0x80 / 4;
      if ctx < NCTX && word < WORDS then s.(enable := s.enable[ctx * WORDS + word := WordOf(val)]) else s
    else if IsClaimRegister(off) then Completed(s, val)
    else if off < 0x400_0000 && (off - 0x20_0000) % 0x1000 == 0 && ContextOf(off) < NCTX then
      s.(threshold := s.threshold[ContextOf(off) := val])
    else s
  }

  /** The aligned offsets of the priorities, the enable words and the thresholds. */
  predicate IsSetting(off: nat) {
    off % 4 == 0 &&
    if off < 0x1000 then off / 4 < NSRC
    else if off < 0x20_0000 then off >= 0x2000 && (off - 0x2000) / 0x80 < NCTX && (off - 0x2000) % 0x80 / 4 < WORDS
    else (off - 0x20_0000) % 0x1000 == 0 && (off - 0x20_0000) / 0x1000 < NCTX
  }

  lemma EnableSlot(off: nat, off': nat)
    requires 0x2000 <= off < 0x20_0000 && 0x2000 <= off' < 0x20_0000 && IsSetting(off) && IsSetting(off')
    ensures var (a, b) := ((off - 0x2000) / 0x80 * WORDS + (off - 0x2000) % 0x80 / 4,
                           (off' - 0x2000) / 0x80 * WORDS + (off' - 0x2000) % 0x80 / 4);
      a == b ==> off == off'
  {}

  lemma WordReadsBack(v: u32)
    ensures NumberOf(WordOf(v)) == v
  {
    assert Pow2(8) == 256;
    assert Pow2(16) == 256 * Pow2(8) by { Pow2Sum(8, 8); }
    assert Pow2(32) == 65536 * Pow2(16) by { Pow2Sum(16, 16); }
    NumberOfBits(v, 32);
  }

  lemma {:induction false} Pow2Sum(a: nat, b: nat)
    ensures Pow2(a + b) == Pow2(a) * Pow2(b)
    decreases a
  {
    if a == 0 {
    } else {
      Pow2Sum(a - 1, b);
    }
  }

  /** Settings are storage: a store to one is what a later load of it gives, every other setting keeps its
      value, and neither touches a line or a claim. */
  lemma SettingsReadBack(s: State, off: nat, val: u32, off': nat)
    requires Shape(s) && IsSetting(off) && IsSetting(off')
    ensures Loaded(Stored(s, off, val), off') == (if off' == off then val else Loaded(s, off').0, Stored(s, off, val))
    ensures Stored(s, off, val).level == s.level && Stored(s, off, val).claimed == s.claimed
  {
    hide NumberOf, WordOf, Best, PendingWord;
    WordReadsBack(val);
    if 0x2000 <= off < 0x20_0000 && 0x2000 <= off' < 0x20_0000 {
      EnableSlot(off, off');
    }
  }

  // ── The claim register told from the other registers ──────────────────────

  /** Bit `b` of a register's value. */
  predicate Bit(v: nat, b: nat) { v / Pow2(b) % 2 == 1 }

  lemma {:induction false} BitOfNumber(w: seq<bool>, b: nat)
    requires b < |w|
    ensures Bit(NumberOf(w), b) == w[b]
    decreases b
  {
    var v, rest := NumberOf(w), NumberOf(w[1..]);
    assert v / 2 == rest && v % 2 == (if w[0] then 1 else 0);
    if b == 0 {
      assert Pow2(0) == 1;
    } else {
      BitOfNumber(w[1..], b - 1);
      DivideInSteps(v, 2, Pow2(b - 1));
    }
  }

  /** What a guest reads: priorities from offset 0, pending bits from 1000, enable bits from 2000 with 80 bytes
      for each context, thresholds from 200000 with 1000 bytes for each (all in hexadecimal). */
  function PriorityRead(s: State, irq: nat): nat
    requires Shape(s)
  {
    Loaded(s, 4 * irq).0
  }

  predicate PendingRead(s: State, irq: nat)
    requires Shape(s)
  {
    Bit(Loaded(s, 0x1000 + 4 * (irq / 32)).0, irq % 32)
  }

  predicate EnabledRead(s: State, ctx: nat, irq: nat)
    requires Shape(s)
  {
    Bit(Loaded(s, 0x2000 + 0x80 * ctx + 4 * (irq / 32)).0, irq % 32)
  }

  function ThresholdRead(s: State, ctx: nat): nat
    requires Shape(s)
  {
    Loaded(s, 0x20_0000 + 0x1000 * ctx).0
  }

  /** A source that its registers show ready for a context. */
  predicate ReadyRead(s: State, ctx: nat, irq: nat)
    requires Shape(s)
  {
    && 0 < irq < 96 && PendingRead(s, irq) && EnabledRead(s, ctx, irq)
    && PriorityRead(s, irq) > ThresholdRead(s, ctx)
  }

  lemma NumbersShow(s: State, ctx: nat, irq: nat)
    requires Shape(s) && ctx < 8 && irq < 96
    ensures PriorityRead(s, irq) == s.priority[irq] && ThresholdRead(s, ctx) == s.threshold[ctx]
  {
    hide NumberOf, Best;
    ModIsUnique(0x1000 * ctx, 0x1000, ctx, 0);
  }

  lemma PendingShows(s: State, irq: nat)
    requires Shape(s) && irq < 96
    ensures PendingRead(s, irq) == (s.level[irq] && !s.claimed[irq])
  {
    var word := irq / 32;
    assert Loaded(s, 0x1000 + 4 * word).0 == NumberOf(PendingWord(s, word));
    hide NumberOf, Bit, Loaded;
    BitOfNumber(PendingWord(s, word), irq % 32);
    assert word * 32 + irq % 32 == irq;
  }

  lemma EnableShows(s: State, ctx: nat, irq: nat)
    requires Shape(s) && ctx < 8 && irq < 96
    ensures EnabledRead(s, ctx, irq) == Enabled(s, ctx, irq)
  {
    var word := irq / 32;
    ModIsUnique(0x80 * ctx + 4 * word, 0x80, ctx, 4 * word);
    assert Loaded(s, 0x2000 + 0x80 * ctx + 4 * word).0 == NumberOf(s.enable[ctx * WORDS + word]);
    hide NumberOf, Bit, Loaded;
    BitOfNumber(s.enable[ctx * WORDS + word], irq % 32);
  }

  lemma RegistersShow(s: State, ctx: nat, irq: nat)
    requires Shape(s) && ctx < 8 && irq < 96
    ensures PriorityRead(s, irq) == s.priority[irq] && ThresholdRead(s, ctx) == s.threshold[ctx]
    ensures PendingRead(s, irq) == (s.level[irq] && !s.claimed[irq])
    ensures EnabledRead(s, ctx, irq) == Enabled(s, ctx, irq)
  {
    hide PriorityRead, ThresholdRead, PendingRead, EnabledRead, Enabled;
    NumbersShow(s, ctx, irq);
    PendingShows(s, irq);
    EnableShows(s, ctx, irq);
  }

  lemma ReadyIsEligible(s: State, ctx: nat, irq: nat)
    requires Shape(s) && ctx < 8 && irq < 96
    ensures ReadyRead(s, ctx, irq) == Eligible(s, ctx, irq)
  {
    hide PendingRead, EnabledRead, PriorityRead, ThresholdRead;
    RegistersShow(s, ctx, irq);
  }

  lemma ClaimLoads(s: State, ctx: nat)
    requires Shape(s) && ctx < 8
    ensures Loaded(s, 0x20_0004 + 0x1000 * ctx) == (Best(s, ctx), Claimed(s, ctx))
  {
    ModIsUnique(0x1000 * ctx + 4, 0x1000, ctx, 4);
  }

  /** Loading a context's claim register, at 200004 and 1000 bytes on for each, gives the lowest-numbered source
      of the highest priority among those the registers show ready, and 0 exactly if there is none. */
  lemma ClaimExactly(s: State, ctx: nat)
    requires Shape(s) && ctx < 8
    ensures var irq := Loaded(s, 0x20_0004 + 0x1000 * ctx).0;
      && (irq == 0 <==> forall i :: 0 <= i < 96 ==> !ReadyRead(s, ctx, i))
      && (irq != 0 ==> irq < 96 && ReadyRead(s, ctx, irq))
      && (irq != 0 ==> forall i :: 0 <= i < 96 && ReadyRead(s, ctx, i) ==>
            || PriorityRead(s, i) < PriorityRead(s, irq)
            || (PriorityRead(s, i) == PriorityRead(s, irq) && irq <= i))
  {
    hide Loaded, BestBelow, Eligible, ReadyRead, PriorityRead;
    ClaimLoads(s, ctx);
    BestIsLowestOfMaximalPriority(s, ctx, NSRC);
    forall i | 0 <= i < 96
      ensures ReadyRead(s, ctx, i) == Eligible(s, ctx, i) && PriorityRead(s, i) == s.priority[i]
    {
      ReadyIsEligible(s, ctx, i);
      RegistersShow(s, ctx, i);
    }
  }

  /** The source claimed is then no longer pending, and no other register changes. */
  lemma ClaimHides(s: State, ctx: nat)
    requires Shape(s) && ctx < 8
    ensures var (irq, s') := Loaded(s, 0x20_0004 + 0x1000 * ctx);
      && (forall i :: 0 < i < 96 ==> PendingRead(s', i) == (PendingRead(s, i) && i != irq))
      && forall off: nat :: IsSetting(off) ==> Loaded(s', off).0 == Loaded(s, off).0
  {
    hide Loaded, Best, PendingRead, IsSetting;
    ClaimLoads(s, ctx);
    var (irq, s') := Loaded(s, 0x20_0004 + 0x1000 * ctx);
    forall i | 0 < i < 96
      ensures PendingRead(s', i) == (PendingRead(s, i) && i != irq)
    {
      RegistersShow(s, ctx, i);
      RegistersShow(s', ctx, i);
    }
    forall off: nat | IsSetting(off)
      ensures Loaded(s', off).0 == Loaded(s, off).0
    {
      SettingsIgnoreClaims(s, s', off);
    }
  }

  lemma SettingsIgnoreClaims(s: State, s': State, off: nat)
    requires Shape(s) && Shape(s') && s' == s.(claimed := s'.claimed) && IsSetting(off)
    ensures Loaded(s', off).0 == Loaded(s, off).0
  {
    hide NumberOf, Best;
  }

  /** A source out of service is pending while its line is up; one in service is not, until a store of its number
      to a claim register, whatever the context. */
  lemma LinesShow(s: State, irq: nat, on: bool, ctx: nat)
    requires Shape(s) && irq < 96 && ctx < 8
    ensures PendingRead(After(s, Line(irq, on)), irq) == (on && !s.claimed[irq])
    ensures PendingRead(Stored(s, 0x20_0004 + 0x1000 * ctx, irq), irq) == s.level[irq]
  {
    var at := 0x20_0004 + 0x1000 * ctx;
    assert IsClaimRegister(at) && ContextOf(at) == ctx by {
      ModIsUnique(0x1000 * ctx + 4, 0x1000, ctx, 4);
    }
    var s1, s2 := After(s, Line(irq, on)), Stored(s, at, irq);
    hide PendingRead;
    RegistersShow(s1, ctx, irq);
    RegistersShow(s2, ctx, irq);
  }

  // ── Whole runs ────────────────────────────────────────────────────────────

  datatype Event = Line(irq: nat, on: bool) | Load(off: nat) | Store(off: nat, val: u32)

  function After(s: State, e: Event): (s': State)
    requires Shape(s)
    ensures Shape(s')
  {
    match e
    case Line(irq, on) => if irq < NSRC then s.(level := s.level[irq := on]) else s
    case Load(off) => Loaded(s, off).1
    case Store(off, val) => Stored(s, off, val)
  }

  /** The state before event `k` of a run. */
  function StateAt(s: State, run: seq<Event>, k: nat): (s': State)
    requires Shape(s) && k <= |run|
    ensures Shape(s')
  {
    if k == 0 then s else After(StateAt(s, run, k - 1), run[k - 1])
  }

  predicate ClaimsAt(s: State, run: seq<Event>, k: nat, irq: nat)
    requires Shape(s) && k < |run|
  {
    && run[k].Load? && IsClaimRegister(run[k].off) && ContextOf(run[k].off) < NCTX
    && irq != 0 && Loaded(StateAt(s, run, k), run[k].off).0 == irq
  }

  predicate Completes(e: Event, irq: nat) {
    e.Store? && IsClaimRegister(e.off) && e.val == irq
  }

  lemma {:induction false} StaysInService(s: State, run: seq<Event>, a: nat, b: nat, irq: nat)
    requires Shape(s) && a <= b <= |run| && 0 < irq < NSRC && StateAt(s, run, a).claimed[irq]
    requires forall c :: a <= c < b ==> !Completes(run[c], irq)
    ensures StateAt(s, run, b).claimed[irq]
    decreases b - a
  {
    if a >= b {
    } else {
      hide Best;
      assert StateAt(s, run, a + 1) == After(StateAt(s, run, a), run[a]);
      assert !Completes(run[a], irq);
      StaysInService(s, run, a + 1, b, irq);
    }
  }

  /** Between two claims of the same source, from whatever contexts, there is a store
      that completes it. */
  lemma {:induction false} NoReclaimBeforeCompletion(s: State, run: seq<Event>, a: nat, b: nat, irq: nat)
    requires Shape(s) && a < b < |run| && ClaimsAt(s, run, a, irq) && ClaimsAt(s, run, b, irq)
    ensures exists c :: a < c < b && Completes(run[c], irq)
  {
    var sa, sb := StateAt(s, run, a), StateAt(s, run, b);
    assert Eligible(sb, ContextOf(run[b].off), irq);
    assert StateAt(s, run, a + 1) == Claimed(sa, ContextOf(run[a].off));
    if forall c :: a < c < b ==> !Completes(run[c], irq) {
      StaysInService(s, run, a + 1, b, irq);
    }
  }
}
