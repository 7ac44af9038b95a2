/** The multiply and divide instructions of RV64M, over registers as numbers below 2^64. */
module Multiply {
  import opened Bytes
  import opened Instructions

  /** A register as a two's complement number of `m` values. */
  function Signed(x: nat, m: nat): int
    requires m > 0 && m % 2 == 0 && x < m
  {
    if x >= m / 2 then x - m else x
  }

  /** Division that truncates towards zero, as the machine divides. */
  function Quotient(a: int, b: int): int
    requires b != 0
  {
    if a >= 0 then a / b else -((-a) / b)
  }

  function Remainder(a: int, b: int): int
    requires b != 0
  {
    a - b * Quotient(a, b)
  }

  // ── The instructions ──────────────────────────────────────────────────────

  function Low(a: u64, b: u64): u64 { a * b % 0x1_0000_0000_0000_0000 }

  function HighSigned(a: u64, b: u64): u64 {
    Signed(a, W64) * Signed(b, W64) / 0x1_0000_0000_0000_0000 % 0x1_0000_0000_0000_0000
  }

  /** The mixed product is taken modulo 2^128, where a negative operand has become a large one. */
  function HighMixed(a: u64, b: u64): u64 {
    (Signed(a, W64) % (W64 * W64)) * b % (W64 * W64) / 0x1_0000_0000_0000_0000 % 0x1_0000_0000_0000_0000
  }

  function HighUnsigned(a: u64, b: u64): u64 { a * b / 0x1_0000_0000_0000_0000 % 0x1_0000_0000_0000_0000 }

  /** The two register widths. */
  predicate IsWidth(m: nat) { m == W32 || m == W64 }

  /** Signed division of `m`-valued words: all ones by zero, the dividend on overflow. */
  function DivideIn(m: nat, a: nat, b: nat): (q: nat)
    requires IsWidth(m) && a < m && b < m
    ensures q < m
  {
    if b == 0 then m - 1
    else if a == m / 2 && b == m - 1 then a
    else Quotient(Signed(a, m), Signed(b, m)) % m
  }

  function ModuloIn(m: nat, a: nat, b: nat): (r: nat)
    requires IsWidth(m) && a < m && b < m
    ensures r < m
  {
    if b == 0 then a
    else if a == m / 2 && b == m - 1 then 0
    else Remainder(Signed(a, m), Signed(b, m)) % m
  }

  function DivideUnsignedIn(m: nat, a: nat, b: nat): (q: nat)
    requires a < m && b < m
    ensures q < m
  {
    if b == 0 then m - 1
    else
      UnsignedQuotientFits(a, b);
      a / b
  }

  function ModuloUnsignedIn(m: nat, a: nat, b: nat): (r: nat)
    requires a < m && b < m
    ensures r < m
  {
    if b == 0 then a else a % b
  }

  /** The low 32 bits of a register, and a 32-bit value sign-extended into one. */
  function Word(a: u64): u32 { a % 0x1_0000_0000 }

  function Extend(w: u32): u64 { if w >= 0x8000_0000 then w + 0xFFFF_FFFF_0000_0000 else w }

  function MulWord(a: u64, b: u64): u64 { Extend(Signed(Word(a), W32) * Signed(Word(b), W32) % 0x1_0000_0000) }

  function DivWord(a: u64, b: u64): u64 {
    var (x, y) := (Signed(Word(a), W32), Signed(Word(b), W32));
    if y == 0 then 0xFFFF_FFFF_FFFF_FFFF
    else if x == -0x8000_0000 && y == -1 then x % 0x1_0000_0000_0000_0000
    else Quotient(x, y) % 0x1_0000_0000_0000_0000
  }

  function DivuWord(a: u64, b: u64): u64 {
    if Word(b) == 0 then 0xFFFF_FFFF_FFFF_FFFF else Extend(Word(a) as int / Word(b) as int)
  }

  function RemWord(a: u64, b: u64): u64 {
    var (x, y) := (Signed(Word(a), W32), Signed(Word(b), W32));
    if y == 0 then x % 0x1_0000_0000_0000_0000
    else if x == -0x8000_0000 && y == -1 then 0
    else Remainder(x, y) % 0x1_0000_0000_0000_0000
  }

  function RemuWord(a: u64, b: u64): u64 {
    Extend(if Word(b) == 0 then Word(a) else Word(a) as int % Word(b) as int)
  }

  predicate IsM(op: ROp) {
    || op.Mul? || op.Mulh? || op.Mulhsu? || op.Mulhu? || op.Div? || op.Divu? || op.Rem? || op.Remu?
    || op.Mulw? || op.Divw? || op.Divuw? || op.Remw? || op.Remuw?
  }

  function Result(op: ROp, a: u64, b: u64): u64
    requires IsM(op)
  {
    match op
    case Mul => Low(a, b)
    case Mulh => HighSigned(a, b)
    case Mulhsu => HighMixed(a, b)
    case Mulhu => HighUnsigned(a, b)
    case Div => DivideIn(W64, a, b)
    case Divu => DivideUnsignedIn(W64, a, b)
    case Rem => ModuloIn(W64, a, b)
    case Remu => ModuloUnsignedIn(W64, a, b)
    case Mulw => MulWord(a, b)
    case Divw => DivWord(a, b)
    case Divuw => DivuWord(a, b)
    case Remw => RemWord(a, b)
    case Remuw => RemuWord(a, b)
  }

  /** The register file and the program counter. */
  class Cpu {
    const x: array<u64>
    var pc: u64

    constructor (start: u64)
      ensures x.Length == 32 && fresh(x) && pc == start && forall i :: 0 <= i < 32 ==> x[i] == 0
    {
      x := new u64[32](_ => 0);
      pc := start;
    }

    method WriteReg(i: nat, v: u64)
      requires x.Length == 32 && i < 32
      modifies x
      ensures x[..] == if i == 0 then old(x[..]) else old(x[..])[i := v]
    {
      if i != 0 {
        x[i] := v;
      }
    }

    /** One multiply or divide instruction of `width` bytes: the result goes to the destination unless
        that is register zero, and nothing else but the program counter changes. */
    method Execute(op: ROp, rd: nat, rs1: nat, rs2: nat, width: nat)
      requires x.Length == 32 && IsM(op) && rd < 32 && rs1 < 32 && rs2 < 32
      modifies this, x
      ensures x[..] == if rd == 0 then old(x[..]) else old(x[..])[rd := Result(op, old(x[rs1]), old(x[rs2]))]
      ensures pc == (old(pc) + width) % 0x1_0000_0000_0000_0000
    {
      WriteReg(rd, Result(op, x[rs1], x[rs2]));
      pc := (pc + width) % 0x1_0000_0000_0000_0000;
    }
  }

  // ── Products ──────────────────────────────────────────────────────────────

  /** Operands that differ by whole words have products that do. */
  lemma SameLowWord(x: int, y: int, j: int, k: int, m: int)
    requires m > 0
    ensures (x - m * j) * (y - m * k) % m == x * y % m
  {
    var p, q := (x - m * j) * (y - m * k), x * y;
    var c := m * j * k - x * k - j * y;
    assert p == q + m * c by {
      calc {
        (x - m * j) * (y - m * k);
        x * y - x * (m * k) - (m * j) * y + (m * j) * (m * k);
        {
          assert x * (m * k) == m * (x * k);
          assert (m * j) * y == m * (j * y);
          assert (m * j) * (m * k) == m * (m * j * k);
        }
        x * y - m * (x * k) - m * (j * y) + m * (m * j * k);
        { assert m * c == m * (m * j * k) - m * (x * k) - m * (j * y); }
        x * y + m * c;
      }
    }
    var d := q / m;
    assert p == m * (d + c) + q % m by { assert m * (d + c) == m * d + m * c; }
    ModIsUnique(p, m, d + c, q % m);
  }

  lemma SignedAs(x: u64)
    ensures Signed(x, W64) == x - W64 * (if x >= 0x8000_0000_0000_0000 then 1 else 0)
    ensures -0x8000_0000_0000_0000 <= Signed(x, W64) < 0x8000_0000_0000_0000
  {}

  /** The low word does not depend on how the operands are read. */
  lemma LowIsLow(a: u64, b: u64)
    ensures Low(a, b) == Signed(a, W64) * Signed(b, W64) % W64 == Signed(a, W64) * b % W64
  {
    var j, k := if a >= 0x8000_0000_0000_0000 then 1 else 0, if b >= 0x8000_0000_0000_0000 then 1 else 0;
    SignedAs(a);
    SignedAs(b);
    SameLowWord(a, b, j, k, W64);
    SameLowWord(a, b, j, 0, W64);
  }

  lemma Bounded(x: int, y: int, n: int)
    requires 0 <= n && -n <= x <= n && -n <= y <= n
    ensures -(n * n) <= x * y <= n * n
  {
    if x >= 0 && y >= 0 {
      MulUp(x, y, n);
    } else if x >= 0 {
      MulUp(x, -y, n);
      assert x * y == -(x * -y);
    } else if y >= 0 {
      MulUp(-x, y, n);
      assert x * y == -(-x * y);
    } else {
      MulUp(-x, -y, n);
      assert x * y == -x * -y;
    }
  }

  lemma MulUp(x: nat, y: nat, n: nat)
    requires x <= n && y <= n
    ensures 0 <= x * y <= n * n
  {
    MulBetween(x, y, n);
    MulBetween(n, x, n);
  }

  /** The two halves of a word-sized high part. */
  lemma SignedBack(h: int)
    requires -0x8000_0000_0000_0000 <= h < 0x8000_0000_0000_0000
    ensures Signed(h % W64, W64) == h
  {}

  /** Unsigned: the high and the low word are the exact product. */
  lemma UnsignedProductIsExact(a: u64, b: u64)
    ensures HighUnsigned(a, b) * W64 + Low(a, b) == a * b
  {
    var p := a * b;
    MulUp(a, b, 0xFFFF_FFFF_FFFF_FFFF);
    assert p / W64 < W64;
    assert p == W64 * (p / W64) + p % W64;
  }

  /** Signed: the high word, read as signed, and the low word are the exact product. */
  lemma SignedProductIsExact(a: u64, b: u64)
    ensures Signed(HighSigned(a, b), W64) * W64 + Low(a, b) == Signed(a, W64) * Signed(b, W64)
  {
    var x, y := Signed(a, W64), Signed(b, W64);
    SignedAs(a);
    SignedAs(b);
    LowIsLow(a, b);
    Bounded(x, y, 0x8000_0000_0000_0000);
    HighHalf(x * y);
  }

  lemma HighHalf(p: int)
    requires -0x4000_0000_0000_0000_0000_0000_0000_0000 <= p <= 0x4000_0000_0000_0000_0000_0000_0000_0000
    ensures p == W64 * (p / W64) + p % W64 && Signed(p / W64 % W64, W64) == p / W64
  {
    SignedBack(p / W64);
  }

  /** Mixed: although the product is taken modulo 2^128, the halves are exact. */
  lemma MixedProductIsExact(a: u64, b: u64)
    ensures Signed(HighMixed(a, b), W64) * W64 + Low(a, b) == Signed(a, W64) * b
  {
    var x := Signed(a, W64);
    SignedAs(a);
    LowIsLow(a, b);
    Bounded(x, b, 0xFFFF_FFFF_FFFF_FFFF);
    MixedBound(x, b);
    DoubleWordIsInvisible(x, b);
    SignedBack(x * b / W64);
  }

  /** The product the source forms for `mulhsu` exceeds 128 bits exactly for a negative first operand and
      a second one of two or more. */
  lemma MixedOverflows(a: u64, b: u64)
    ensures (Signed(a, W64) % (W64 * W64)) * b >= W64 * W64 <==> a >= 0x8000_0000_0000_0000 && b >= 2
  {
    var m := W64 * W64;
    if a >= 0x8000_0000_0000_0000 {
      var n: nat := W64 - a;
      assert Signed(a, W64) % m == m - n;
      if b >= 2 {
        MulBetween(m - n, 2, b);
      }
    } else {
      assert Signed(a, W64) % m == a;
      MulBetween(a, b, W64);
    }
  }

  lemma MixedBound(x: int, b: u64)
    requires -0x8000_0000_0000_0000 <= x < 0x8000_0000_0000_0000
    ensures -0x8000_0000_0000_0000 <= x * b / W64 < 0x8000_0000_0000_0000
  {
    if x >= 0 {
      MulBetween(x, b, W64);
      FloorBetween(x * b, 0, x);
    } else {
      MulBetween(-x, b, W64);
      assert x * b == -(-x * b) && W64 * x == -(W64 * -x);
      FloorBetween(x * b, x, 0);
    }
  }

  lemma MulBetween(x: nat, b: nat, n: nat)
    requires b <= n
    ensures 0 <= x * b <= n * x
  {
    assert x * (n - b) >= 0;
    assert n * x == x * b + x * (n - b);
  }

  lemma FloorBetween(p: int, lo: int, hi: int)
    requires W64 * lo <= p <= W64 * hi
    ensures lo <= p / W64 <= hi
  {}

  /** Taking the operand and the product modulo 2^128 leaves the second word as it was. */
  lemma DoubleWordIsInvisible(x: int, b: u64)
    ensures (x % (W64 * W64)) * b % (W64 * W64) / W64 % W64 == x * b / W64 % W64
  {
    var m := W64 * W64;
    var j := x / m;
    assert x % m == x - m * j;
    SameLowWord(x, b, j, 0, m);
    SecondWord(x * b);
  }

  lemma SecondWord(p: int)
    ensures p % (W64 * W64) / W64 % W64 == p / W64 % W64
  {
    var m := W64 * W64;
    var hi, lo := p / m, p % m;
    assert p == m * hi + lo;
    var q, r := lo / W64, lo % W64;
    assert p == W64 * (W64 * hi + q) + r;
    ModIsUnique(p, W64, W64 * hi + q, r);
    assert 0 <= q < W64;
    ModIsUnique(W64 * hi + q, W64, hi, q);
  }

  // ── Quotients ─────────────────────────────────────────────────────────────

  function Abs(x: int): int { if x >= 0 then x else -x }

  lemma TruncatedDivision(a: int, b: int)
    requires b != 0
    ensures a == b * Quotient(a, b) + Remainder(a, b)
    ensures (a >= 0 ==> 0 <= Remainder(a, b)) && (a <= 0 ==> Remainder(a, b) <= 0)
    ensures -Abs(b) < Remainder(a, b) < Abs(b)
  {}

  lemma QuotientFits(a: int, b: int, n: int)
    requires b != 0 && 0 < n && -n <= a < n && !(a == -n && b == -1)
    ensures -n <= Quotient(a, b) < n && -n <= Remainder(a, b) < n
  {
    if b == 1 || b == -1 {
      TruncatedDivision(a, b);
    } else {
      Smaller(a, b);
    }
  }

  /** Dividing by more than one at least halves. */
  lemma Smaller(a: int, b: int)
    requires b > 1 || b < -1
    ensures 2 * Abs(Quotient(a, b)) <= Abs(a) && Abs(Remainder(a, b)) <= Abs(a)
  {
    TruncatedDivision(a, b);
    var q, r := Quotient(a, b), Remainder(a, b);
    SignsAgree(a, b);
    assert Abs(a) == Abs(b * q) + Abs(r);
    assert Abs(b * q) >= 2 * Abs(q) by { AtLeastTwice(b, q); }
  }

  lemma SignsAgree(a: int, b: int)
    requires b != 0
    ensures a >= 0 ==> b * Quotient(a, b) >= 0
    ensures a <= 0 ==> b * Quotient(a, b) <= 0
  {
    TruncatedDivision(a, b);
    if a >= 0 {
      assert a % b <= a;
    }
  }

  lemma AtLeastTwice(b: int, q: int)
    requires b > 1 || b < -1
    ensures Abs(b * q) >= 2 * Abs(q)
  {
    AbsOfProduct(b, q);
    TwiceBound(Abs(b), Abs(q));
  }

  lemma AbsOfProduct(b: int, q: int)
    ensures Abs(b * q) == Abs(b) * Abs(q)
  {}

  lemma TwiceBound(b: nat, q: nat)
    requires b >= 2
    ensures b * q >= 2 * q
  {
    assert b * q == 2 * q + (b - 2) * q;
  }

  lemma SignedRange(x: nat, m: nat)
    requires IsWidth(m) && x < m
    ensures -(m as int / 2) <= Signed(x, m) < m / 2 && (Signed(x, m) == 0 <==> x == 0)
    ensures Signed(x, m) == x || Signed(x, m) == x - m
    ensures (Signed(x, m) == -1 <==> x == m - 1) && (Signed(x, m) == -(m as int / 2) <==> x == m / 2)
  {}

  lemma SignedOf(v: int, m: nat)
    requires IsWidth(m) && -(m as int / 2) <= v < m / 2
    ensures Signed(v % m, m) == v
  {}

  /** Signed division: exact with a truncated quotient and a remainder that follows the dividend, except
      by zero, which gives all ones and the dividend, and on overflow, which gives the dividend and zero;
      in every case dividend = divisor * quotient + remainder modulo the word size. */
  lemma DivisionIsExact(m: nat, a: nat, b: nat)
    requires IsWidth(m) && a < m && b < m
    ensures var (q, r, x, y) := (DivideIn(m, a, b), ModuloIn(m, a, b), Signed(a, m), Signed(b, m));
      && (b * q + r) % m == a
      && (b == 0 ==> q == m - 1 && r == a)
      && (a == m / 2 && b == m - 1 ==> q == a && r == 0)
      && (b != 0 && !(a == m / 2 && b == m - 1) ==>
            && Signed(q, m) == Quotient(x, y) && Signed(r, m) == Remainder(x, y)
            && x == y * Signed(q, m) + Signed(r, m) && Abs(Signed(r, m)) < Abs(y)
            && (x >= 0 ==> Signed(r, m) >= 0) && (x <= 0 ==> Signed(r, m) <= 0))
  {
    var q, r, x, y := DivideIn(m, a, b), ModuloIn(m, a, b), Signed(a, m), Signed(b, m);
    if b != 0 {
      SignedRange(a, m);
      SignedRange(b, m);
      if a == m / 2 && b == m - 1 {
        OverflowRecombines(m);
      } else {
        hide Signed, Quotient, Remainder;
        QuotientFits(x, y, m / 2);
        SignedOf(Quotient(x, y), m);
        SignedOf(Remainder(x, y), m);
        TruncatedDivision(x, y);
        Recombines(m, a, b, q, r);
      }
    }
  }

  lemma OverflowRecombines(m: nat)
    requires IsWidth(m)
    ensures ((m - 1) * (m / 2) + 0) % m == m / 2
  {
    assert (m - 1) * (m / 2) == m * (m / 2 - 1) + m / 2;
    ModIsUnique((m - 1) * (m / 2), m, m / 2 - 1, m / 2);
  }

  lemma Recombines(m: nat, a: nat, b: nat, q: nat, r: nat)
    requires IsWidth(m) && a < m && b < m && q < m && r < m
    requires Signed(a, m) == Signed(b, m) * Signed(q, m) + Signed(r, m)
    ensures (b * q + r) % m == a
  {
    SignedIsOffset(a, m);
    SignedIsOffset(b, m);
    SignedIsOffset(q, m);
    SignedIsOffset(r, m);
    hide Signed, Wraps;
    OffsetsCancel(m, a, b, q, r, Wraps(a, m), Wraps(b, m), Wraps(q, m), Wraps(r, m));
  }

  function Wraps(x: nat, m: nat): int { if x >= m / 2 then 1 else 0 }

  lemma SignedIsOffset(x: nat, m: nat)
    requires IsWidth(m) && x < m
    ensures Signed(x, m) == x - m * Wraps(x, m)
  {}

  lemma OffsetsCancel(m: nat, a: nat, b: int, q: int, r: int, l: int, i: int, j: int, k: int)
    requires 0 < m && a < m && a - m * l == (b - m * i) * (q - m * j) + (r - m * k)
    ensures (b * q + r) % m == a
  {
    SameLowWord(b, q, i, j, m);
    Spread(m, l, k, 0);
    ShiftedSum(b * q, (b - m * i) * (q - m * j), r, a, l - k, m);
  }

  /** Two products with one remainder modulo `m` give sums with one remainder. */
  lemma ShiftedSum(p: int, s: int, r: int, a: nat, c: int, m: nat)
    requires 0 < m && a < m && p % m == s % m && s + r == a - m * c
    ensures (p + r) % m == a
  {
    var d, e := p / m, s / m;
    assert p == m * d + p % m && s == m * e + s % m;
    assert p + r == m * d - m * e - m * c + a;
    Spread(m, d, e, c);
    ModIsUnique(p + r, m, d - e - c, a);
  }

  lemma Spread(m: int, d: int, e: int, c: int)
    ensures m * (d - e - c) == m * d - m * e - m * c
  {}

  lemma UnsignedDivisionIsExact(m: nat, a: nat, b: nat)
    requires IsWidth(m) && a < m && b < m
    ensures var (q, r) := (DivideUnsignedIn(m, a, b), ModuloUnsignedIn(m, a, b));
      && q < m && r < m && (b * q + r) % m == a
      && (if b == 0 then q == m - 1 && r == a else b * q + r == a && r < b)
  {
    if b != 0 {
      UnsignedQuotientFits(a, b);
      var q, r := a / b, a % b;
      assert b * q + r == a;
      Already(a, m);
    }
  }

  lemma UnsignedQuotientFits(a: nat, b: nat)
    requires b > 0
    ensures a / b <= a && a == b * (a / b) + a % b
  {
    Euclid(a, b);
    AtLeastOnce(b, a / b);
  }

  lemma AtLeastOnce(b: nat, q: nat)
    requires b >= 1
    ensures q <= b * q
  {
    MulBetween(q, 1, b);
  }

  lemma Already(a: nat, m: nat)
    requires a < m
    ensures a % m == a
  {}

  // ── Word forms ────────────────────────────────────────────────────────────

  lemma ExtendIsSigned(v: int)
    requires -0x8000_0000 <= v < 0x8000_0000
    ensures v % W64 == Extend(v % 0x1_0000_0000)
  {}

  /** Every word form is the 32-bit operation on the low halves, sign-extended. */
  lemma WordFormsExtend(a: u64, b: u64)
    ensures MulWord(a, b) == Extend(Word(a) * Word(b) % 0x1_0000_0000)
    ensures DivWord(a, b) == Extend(DivideIn(W32, Word(a), Word(b)))
      && RemWord(a, b) == Extend(ModuloIn(W32, Word(a), Word(b)))
    ensures DivuWord(a, b) == Extend(DivideUnsignedIn(W32, Word(a), Word(b)))
    ensures RemuWord(a, b) == Extend(ModuloUnsignedIn(W32, Word(a), Word(b)))
  {
    var x, y := Signed(Word(a), W32), Signed(Word(b), W32);
    SignedRange(Word(a), W32);
    SignedRange(Word(b), W32);
    ExtendIsSigned(x);
    if y != 0 && !(x == -0x8000_0000 && y == -1) {
      QuotientFits(x, y, 0x8000_0000);
      ExtendIsSigned(Quotient(x, y));
      ExtendIsSigned(Remainder(x, y));
    }
    SameLowWord(Word(a), Word(b), if x == Word(a) then 0 else 1, if y == Word(b) then 0 else 1, W32);
    SignedBackTo(Word(a));
  }

  lemma SignedBackTo(w: u32)
    ensures Signed(w, W32) % 0x1_0000_0000 == w
  {}

  // ── The instructions by name ──────────────────────────────────────────────

  /** A quotient truncated towards zero and a remainder with the sign of the dividend; all ones and the dividend
      by zero; the dividend and zero on overflow. */
  predicate Divides(m: nat, a: nat, b: nat, q: nat, r: nat) {
    && IsWidth(m) && a < m && b < m && q < m && r < m
    && if b == 0 then q == m - 1 && r == a
       else if a == m / 2 && b == m - 1 then q == a && r == 0
       else
         var (x, y, sq, sr) := (Signed(a, m), Signed(b, m), Signed(q, m), Signed(r, m));
         x == y * sq + sr && Abs(sr) < Abs(y) && (x >= 0 ==> sr >= 0) && (x <= 0 ==> sr <= 0)
  }

  predicate DividesUnsigned(m: nat, a: nat, b: nat, q: nat, r: nat) {
    q < m && r < m && if b == 0 then q == m - 1 && r == a else b * q + r == a && r < b
  }

  /** The upper half of a word result copies bit 31. */
  predicate SignExtended(v: u64) {
    v / 0x1_0000_0000 == if v % 0x1_0000_0000 >= 0x8000_0000 then 0xFFFF_FFFF else 0
  }

  /** MUL, MULH, MULHSU and MULHU are the halves of the exact products. */
  lemma ProductInstructions(a: u64, b: u64)
    ensures Result(Mulhu, a, b) * W64 + Result(Mul, a, b) == a * b
    ensures Signed(Result(Mulh, a, b), W64) * W64 + Result(Mul, a, b) == Signed(a, W64) * Signed(b, W64)
    ensures Signed(Result(Mulhsu, a, b), W64) * W64 + Result(Mul, a, b) == Signed(a, W64) * b
  {
    UnsignedProductIsExact(a, b);
    SignedProductIsExact(a, b);
    MixedProductIsExact(a, b);
    hide Low, HighSigned, HighMixed, HighUnsigned;
  }

  lemma DivisionDivides(m: nat, a: nat, b: nat)
    requires IsWidth(m) && a < m && b < m
    ensures Divides(m, a, b, DivideIn(m, a, b), ModuloIn(m, a, b))
    ensures DividesUnsigned(m, a, b, DivideUnsignedIn(m, a, b), ModuloUnsignedIn(m, a, b))
  {
    DivisionIsExact(m, a, b);
    UnsignedDivisionIsExact(m, a, b);
    hide DivideIn, ModuloIn, DivideUnsignedIn, ModuloUnsignedIn, Signed, Quotient, Remainder;
  }

  /** DIV and REM, DIVU and REMU divide. */
  lemma DivisionInstructions(a: u64, b: u64)
    ensures Divides(W64, a, b, Result(Div, a, b), Result(Rem, a, b))
    ensures DividesUnsigned(W64, a, b, Result(Divu, a, b), Result(Remu, a, b))
  {
    hide Divides, DividesUnsigned;
    DivisionDivides(W64, a, b);
  }

  lemma ExtendIsExtended(w: u32)
    ensures SignExtended(Extend(w)) && Extend(w) % 0x1_0000_0000 == w
  {}

  /** The word forms do the same on the low halves, and extend the sign. */
  lemma WordInstructions(a: u64, b: u64)
    ensures var (x, y) := (a % 0x1_0000_0000, b % 0x1_0000_0000);
      && Result(Mulw, a, b) % 0x1_0000_0000 == x * y % 0x1_0000_0000
      && Divides(W32, x, y, Result(Divw, a, b) % 0x1_0000_0000, Result(Remw, a, b) % 0x1_0000_0000)
      && DividesUnsigned(W32, x, y, Result(Divuw, a, b) % 0x1_0000_0000, Result(Remuw, a, b) % 0x1_0000_0000)
    ensures SignExtended(Result(Mulw, a, b)) && SignExtended(Result(Divw, a, b)) && SignExtended(Result(Remw, a, b))
    ensures SignExtended(Result(Divuw, a, b)) && SignExtended(Result(Remuw, a, b))
  {
    hide MulWord, DivWord, RemWord, DivuWord, RemuWord, Extend, DivideIn, ModuloIn, DivideUnsignedIn, ModuloUnsignedIn;
    hide SignExtended, Divides, DividesUnsigned;
    var x: nat, y: nat := Word(a), Word(b);
    WordFormsExtend(a, b);
    ExtendIsExtended(x * y % 0x1_0000_0000);
    ExtendIsExtended(DivideIn(W32, x, y));
    ExtendIsExtended(ModuloIn(W32, x, y));
    ExtendIsExtended(DivideUnsignedIn(W32, x, y));
    ExtendIsExtended(ModuloUnsignedIn(W32, x, y));
    DivisionDivides(W32, x, y);
  }
}
