/** Byte strings and the fixed-width integers the formats in this project use. */
module Bytes {

  type byte = x: int | 0 <= x < 256
  type u16 = x: int | 0 <= x < 0x1_0000
  type u32 = x: int | 0 <= x < 0x1_0000_0000
  type u64 = x: int | 0 <= x < 0x1_0000_0000_0000_0000

  datatype Option<+T> = None | Some(value: T) {
    predicate IsFailure() { None? }

    function PropagateFailure<U>(): Option<U>
      requires None?
    {
      None
    }

    function Extract(): T
      requires Some?
    {
      value
    }
  }

  /** `e` stands in `data` at `pos`. */
  predicate At(data: seq<byte>, pos: nat, e: seq<byte>) {
    pos + |e| <= |data| && data[pos..pos + |e|] == e
  }

  lemma AtSplit(data: seq<byte>, pos: nat, a: seq<byte>, b: seq<byte>)
    ensures At(data, pos, a + b) <==> At(data, pos, a) && At(data, pos + |a|, b)
  {
    if At(data, pos, a + b) {
      assert data[pos..pos + |a|] == (a + b)[..|a|] == a;
      assert data[pos + |a|..pos + |a| + |b|] == (a + b)[|a|..] == b;
    }
    if At(data, pos, a) && At(data, pos + |a|, b) {
      assert data[pos..pos + |a + b|] == data[pos..pos + |a|] + data[pos + |a|..pos + |a| + |b|];
    }
  }

  lemma AtIndex(data: seq<byte>, pos: nat, e: seq<byte>, i: nat)
    requires At(data, pos, e) && i < |e|
    ensures data[pos + i] == e[i]
  {
    assert data[pos..pos + |e|][i] == data[pos + i];
  }

  lemma PrefixAt(data: seq<byte>, data': seq<byte>, pos: nat, e: seq<byte>)
    requires data <= data' && At(data, pos, e)
    ensures At(data', pos, e)
  {
    assert data'[pos..pos + |e|] == data'[..|data|][pos..pos + |e|];
  }

  lemma Assoc(a: seq<byte>, b: seq<byte>, c: seq<byte>)
    ensures (a + b) + c == a + (b + c)
  {}

  lemma SliceOfSlice(s: seq<byte>, lo: nat, hi: nat, a: nat, b: nat)
    requires lo <= hi <= |s| && a <= b <= hi - lo
    ensures s[lo..hi][a..b] == s[lo + a..lo + b]
  {
    forall i | 0 <= i < b - a
      ensures s[lo..hi][a..b][i] == s[lo + a..lo + b][i]
    {
      assert s[lo..hi][a + i] == s[lo + (a + i)];
    }
  }

  /** A text as bytes. */
  function Ascii(s: string): (b: seq<byte>)
    ensures |b| == |s|
  {
    seq(|s|, i requires 0 <= i < |s| => s[i] as int % 256)
  }

  const W32: nat := 0x1_0000_0000
  const W64: nat := 0x1_0000_0000_0000_0000

  function Min(a: nat, b: nat): nat { if a < b then a else b }

  /** At most `n` bytes of a string from `skip` on. */
  function Slice(s: seq<byte>, skip: nat, n: nat): seq<byte> {
    if skip >= |s| then [] else s[skip..skip + Min(n, |s| - skip)]
  }

  /** `part` in the place of as many elements of `s` from `at` on. */
  function Splice<T>(s: seq<T>, at: nat, part: seq<T>): (r: seq<T>)
    requires at + |part| <= |s|
    ensures |r| == |s|
  {
    s[..at] + part + s[at + |part|..]
  }

  lemma ModIsUnique(x: int, n: int, q: int, r: int)
    requires n > 0 && x == n * q + r && 0 <= r < n
    ensures x % n == r && x / n == q
  {
    var d := x / n - q;
    assert n * d == n * (x / n) - n * q;
    Multiples(n, d);
  }

  lemma Multiples(n: int, d: int)
    requires n > 0
    ensures (d >= 1 ==> n * d >= n) && (d <= -1 ==> n * d <= -n)
  {}

  // ── UTF-8 ─────────────────────────────────────────────────────────────────

  predicate IsTail(b: byte) { 0x80 <= b < 0xC0 }

  /** The length of the UTF-8 sequence a string starts with (table 3-7 of the Unicode Standard), or 0. */
  function Utf8Length(s: seq<byte>): (n: nat)
    requires s != []
    ensures n <= |s|
  {
    if s[0] < 0x80 then 1
    else if 0xC2 <= s[0] < 0xE0 && |s| >= 2 && IsTail(s[1]) then 2
    else if |s| >= 3 && IsTail(s[1]) && IsTail(s[2])
      && ((s[0] == 0xE0 && s[1] >= 0xA0) || (s[0] == 0xED && s[1] < 0xA0) || (0xE1 <= s[0] < 0xF0 && s[0] != 0xED))
      then 3
    else if |s| >= 4 && IsTail(s[1]) && IsTail(s[2]) && IsTail(s[3])
      && ((s[0] == 0xF0 && s[1] >= 0x90) || (s[0] == 0xF4 && s[1] < 0x90) || 0xF1 <= s[0] < 0xF4)
      then 4
    else 0
  }

  predicate IsUtf8(s: seq<byte>)
    decreases |s|
  {
    s == [] || (Utf8Length(s) > 0 && IsUtf8(s[Utf8Length(s)..]))
  }

  // ── Fixed-width integers ──────────────────────────────────────────────────

  function Zeros(n: nat): (z: seq<byte>)
    ensures |z| == n && forall i :: 0 <= i < n ==> z[i] == 0
  {
    seq(n, _ => 0)
  }

  function Pow256(n: nat): (p: nat)
    ensures p > 0
  {
    if n == 0 then 1 else 256 * Pow256(n - 1)
  }

  lemma Pow256Values()
    ensures Pow256(1) == 0x100 && Pow256(2) == 0x1_0000 && Pow256(4) == 0x1_0000_0000
    ensures Pow256(8) == 0x1_0000_0000_0000_0000
  {
    assert Pow256(2) == 0x1_0000;
    assert Pow256(4) == 256 * (256 * Pow256(2));
    assert Pow256(6) == 256 * (256 * Pow256(4));
    assert Pow256(8) == 256 * (256 * Pow256(6));
  }

  // ── little endian ─────────────────────────────────────────────────────────

  /** The low `n` bytes of `v`, least significant first. */
  function Le(v: nat, n: nat): (b: seq<byte>)
    ensures |b| == n
  {
    if n == 0 then [] else [v % 256] + Le(v / 256, n - 1)
  }

  function FromLe(b: seq<byte>): (v: nat)
    ensures v < Pow256(|b|)
  {
    if b == [] then 0 else b[0] + 256 * FromLe(b[1..])
  }

  lemma {:induction false} LeRoundTrip(v: nat, n: nat)
    requires v < Pow256(n)
    ensures FromLe(Le(v, n)) == v
  {
    if n == 0 {
    } else {
      LeRoundTrip(v / 256, n - 1);
      assert Le(v, n)[1..] == Le(v / 256, n - 1);
    }
  }

  lemma Euclid(a: nat, b: nat)
    requires b > 0
    ensures a == b * (a / b) + a % b && a % b < b
  {}

  lemma StepsFit(a: nat, p: nat, r: nat, t: nat)
    requires r < p && t < a
    ensures a * r + t < a * p
  {
    Multiples(a, p - r);
    assert a * (p - r) == a * p - a * r;
  }

  lemma Regroup(a: nat, p: nat, q: nat, r: nat)
    ensures a * (p * q + r) == (a * p) * q + a * r
  {
    assert a * (p * q + r) == a * (p * q) + a * r;
    assert a * (p * q) == (a * p) * q;
  }

  lemma QuotientInSteps(a: nat, p: nat, q: nat, r: nat, t: nat)
    requires r < p && t < a
    ensures 0 < a * p && (a * (p * q + r) + t) / (a * p) == q
  {
    Regroup(a, p, q, r);
    StepsFit(a, p, r, t);
    ModIsUnique(a * (p * q + r) + t, a * p, q, a * r + t);
  }

  lemma DivideInSteps(v: nat, a: nat, p: nat)
    requires a > 0 && p > 0
    ensures a * p > 0 && v / (a * p) == v / a / p
  {
    var u := v / a;
    Euclid(v, a);
    Euclid(u, p);
    QuotientInSteps(a, p, u / p, u % p, v % a);
  }

  /** Byte `k` of the little-endian form is digit `k` in base 256. */
  lemma {:induction false} LeDigit(v: nat, n: nat, k: nat)
    requires k < n
    ensures Le(v, n)[k] == v / Pow256(k) % 256
    decreases k
  {
    if k == 0 {
    } else {
      LeDigit(v / 256, n - 1, k - 1);
      DivideInSteps(v, 256, Pow256(k - 1));
    }
  }

  // ── big endian ────────────────────────────────────────────────────────────

  /** The low `n` bytes of `v`, most significant first. */
  function Be(v: nat, n: nat): (b: seq<byte>)
    ensures |b| == n
  {
    if n == 0 then [] else Be(v / 256, n - 1) + [v % 256]
  }

  function FromBe(b: seq<byte>): (v: nat)
    ensures v < Pow256(|b|)
  {
    if b == [] then 0 else 256 * FromBe(b[..|b| - 1]) + b[|b| - 1]
  }

  lemma {:induction false} BeRoundTrip(v: nat, n: nat)
    requires v < Pow256(n)
    ensures FromBe(Be(v, n)) == v
  {
    if n == 0 {
    } else {
      BeRoundTrip(v / 256, n - 1);
      assert Be(v, n)[..n - 1] == Be(v / 256, n - 1);
    }
  }

  /** Byte `k` from the end of the big-endian form is digit `k` in base 256. */
  lemma {:induction false} BeDigit(v: nat, n: nat, k: nat)
    requires k < n
    ensures Be(v, n)[n - 1 - k] == v / Pow256(k) % 256
    decreases k
  {
    if k == 0 {
    } else {
      BeDigit(v / 256, n - 1, k - 1);
      DivideInSteps(v, 256, Pow256(k - 1));
    }
  }

  function Be32(v: nat): (b: seq<byte>)
    ensures |b| == 4
  {
    Be(v, 4)
  }

  function Be64(v: u64): (b: seq<byte>)
    ensures |b| == 8
  {
    Be(v, 8)
  }

  function ReadBe32(b: seq<byte>, o: nat): u32
    requires o + 4 <= |b|
  {
    (b[o] as int) * 0x100_0000 + (b[o + 1] as int) * 0x1_0000 + (b[o + 2] as int) * 0x100 + b[o + 3] as int
  }

  lemma Be32RoundTrip(data: seq<byte>, pos: nat, v: u32)
    requires At(data, pos, Be32(v))
    ensures ReadBe32(data, pos) == v
  {
    var b := Be32(v);
    assert Be(v / 0x100_0000, 1) == [v / 0x100_0000 % 256];
    assert Be(v / 0x1_0000, 2) == Be(v / 0x100_0000, 1) + [v / 0x1_0000 % 256];
    assert Be(v / 0x100, 3) == Be(v / 0x1_0000, 2) + [v / 0x100 % 256];
    assert b == Be(v / 0x100, 3) + [v % 256];
    assert forall i :: 0 <= i < 4 ==> data[pos + i] == b[i] by {
      forall i | 0 <= i < 4 ensures data[pos + i] == b[i] { AtIndex(data, pos, b, i); }
    }
    assert data[pos] == v / 0x100_0000 % 256 && data[pos + 1] == v / 0x1_0000 % 256;
    assert data[pos + 2] == v / 0x100 % 256 && data[pos + 3] == v % 256;
  }
}
