/** The expansion of 16-bit instructions into 32-bit ones. */
module Compressed {
  import opened Bytes
  import opened Instructions
  import opened Codec

  /** The registers x8 to x15, as three bits name them; any register, as five bits do. */
  function Popular2(r: bv32): Reg { (((r >> 2) & 7) | 8) as Reg }

  function Popular7(r: bv32): Reg { (((r >> 7) & 7) | 8) as Reg }

  function Full2(r: bv32): Reg { ((r >> 2) & 0x1F) as Reg }

  function Full7(r: bv32): Reg { ((r >> 7) & 0x1F) as Reg }

  function Sext6(v: bv32): bv32 { if v & 0x20 != 0 then v | 0xFFFF_FFC0 else v & 0x3F }

  function Sext10(v: bv32): bv32 { if v & 0x200 != 0 then v | 0xFFFF_FC00 else v & 0x3FF }

  function Sext18(v: bv32): bv32 { if v & 0x2_0000 != 0 then v | 0xFFFC_0000 else v & 0x3_FFFF }

  /** Bits 12 and 6..2: the six-bit immediate most forms share. */
  function Imm6(r: bv32): bv32 { (((r >> 12) & 1) << 5) | ((r >> 2) & 0x1F) }

  function Shamt(r: bv32): bv6 { Imm6(r) as bv6 }

  function WordOffset(r: bv32): bv32 { (((r >> 6) & 1) << 2) | (((r >> 10) & 7) << 3) | (((r >> 5) & 1) << 6) }

  function DoubleOffset(r: bv32): bv32 { (((r >> 10) & 7) << 3) | (((r >> 5) & 3) << 6) }

  /** The eleven bits of a C.J offset above bit zero. */
  function JumpBits(r: bv32): bv32 {
    (((r >> 12) & 1) << 10) | (((r >> 8) & 1) << 9) | (((r >> 9) & 3) << 7) | (((r >> 6) & 1) << 6)
    | (((r >> 7) & 1) << 5) | (((r >> 2) & 1) << 4) | (((r >> 11) & 1) << 3) | ((r >> 3) & 7)
  }

  /** The jump offset of C.J. */
  function JumpOffset(r: bv32): bv32 {
    (if ((r >> 12) & 1) != 0 then JumpBits(r) | 0xFFFF_F800 else JumpBits(r)) << 1
  }

  /** The branch offset of C.BEQZ and C.BNEZ. */
  function BranchOffset(r: bv32): bv32 {
    var v := (((r >> 12) & 1) << 7) | (((r >> 5) & 3) << 5) | (((r >> 2) & 1) << 4) | (((r >> 10) & 3) << 2)
      | ((r >> 3) & 3);
    (if ((r >> 12) & 1) != 0 then v | 0xFFFF_FF00 else v) << 1
  }

  // ── The three quadrants ───────────────────────────────────────────────────

  function ByteOffset(r: bv32): bv32 { (((r >> 12) & 1) << 2) | (((r >> 6) & 1) << 1) | ((r >> 5) & 1) }

  function HalfOffset(r: bv32): bv32 { ((((r >> 12) & 1) << 1) | ((r >> 6) & 1)) << 1 }

  function Quadrant0(r: bv32): Option<Instr> {
    var f3, low, base := ((r >> 13) & 7), Popular2(r), Popular7(r);
    if f3 == 0 then
      var imm := (((r >> 6) & 1) << 2) | (((r >> 5) & 1) << 3) | (((r >> 11) & 3) << 4) | (((r >> 7) & 0xF) << 6);
      if imm == 0 then None else Some(I(Addi, low, 2, imm))
    else if f3 == 1 then Some(I(Fld, low, base, DoubleOffset(r)))
    else if f3 == 2 then Some(I(Lw, low, base, WordOffset(r)))
    else if f3 == 3 then Some(I(Ld, low, base, DoubleOffset(r)))
    else if f3 == 4 then
      var f2 := ((r >> 10) & 3);
      if f2 == 0 then Some(I(Lbu, low, base, ByteOffset(r)))
      else if f2 == 1 then Some(S(Sb, base, low, ByteOffset(r)))
      else if f2 == 2 then Some(I(Lhu, low, base, HalfOffset(r)))
      else Some(S(Sh, base, low, HalfOffset(r)))
    else if f3 == 5 then Some(S(Fsd, base, low, DoubleOffset(r)))
    else if f3 == 6 then Some(S(Sw, base, low, WordOffset(r)))
    else Some(S(Sd, base, low, DoubleOffset(r)))
  }

  function Arithmetic(r: bv32): Option<Instr> {
    var rd, rs2, f2, f6 := Popular7(r), Popular2(r), ((r >> 10) & 3), ((r >> 5) & 3);
    if f2 == 0 then Some(Shift(Srli, rd, rd, Shamt(r)))
    else if f2 == 1 then Some(Shift(Srai, rd, rd, Shamt(r)))
    else if f2 == 2 then Some(I(Andi, rd, rd, Sext6(Imm6(r))))
    else if ((r >> 12) & 1) == 0 then
      Some(R(if f6 == 0 then Sub else if f6 == 1 then Xor else if f6 == 2 then Or else And, rd, rd, rs2))
    else if f6 == 0 then Some(R(Subw, rd, rd, rs2))
    else if f6 == 1 then Some(R(Addw, rd, rd, rs2))
    else None
  }

  function Quadrant1(r: bv32): Option<Instr> {
    var f3, rd := ((r >> 13) & 7), Full7(r);
    if f3 == 0 then Some(I(Addi, rd, rd, Sext6(Imm6(r))))
    else if f3 == 1 then Some(I(Addiw, rd, rd, Sext6(Imm6(r))))
    else if f3 == 2 then Some(I(Addi, rd, 0, Sext6(Imm6(r))))
    else if f3 == 3 then
      if rd == 2 then
        Some(I(Addi, 2, 2, Sext10((((r >> 12) & 1) << 9) | (((r >> 3) & 3) << 7) | (((r >> 5) & 1) << 6)
                                  | (((r >> 2) & 1) << 5) | (((r >> 6) & 1) << 4))))
      else Some(U(Lui, rd, Sext18((((r >> 12) & 1) << 17) | (((r >> 2) & 0x1F) << 12))))
    else if f3 == 4 then Arithmetic(r)
    else if f3 == 5 then Some(Jal(0, JumpOffset(r)))
    else Some(B(if f3 == 6 then Beq else Bne, Popular7(r), 0, BranchOffset(r)))
  }

  function StackDouble(r: bv32): bv32 { (((r >> 12) & 1) << 5) | (((r >> 5) & 3) << 3) | (((r >> 2) & 7) << 6) }

  function JumpOrAdd(r: bv32): Option<Instr> {
    var rd, rs2 := Full7(r), Full2(r);
    if ((r >> 12) & 1) == 0 then
      if rs2 != 0 then Some(R(Add, rd, 0, rs2))
      else if rd == 0 then None
      else Some(I(Jalr, 0, rd, 0))
    else if rs2 != 0 then Some(R(Add, rd, rd, rs2))
    else if rd == 0 then Some(Sys(Ebreak))
    else Some(I(Jalr, 1, rd, 0))
  }

  function Quadrant2(r: bv32): Option<Instr> {
    var f3, rd, rs2 := ((r >> 13) & 7), Full7(r), Full2(r);
    if f3 == 0 then Some(Shift(Slli, rd, rd, Shamt(r)))
    else if f3 == 1 then Some(I(Fld, rd, 2, StackDouble(r)))
    else if f3 == 2 then
      if rd == 0 then None
      else Some(I(Lw, rd, 2, (((r >> 12) & 1) << 5) | (((r >> 4) & 7) << 2) | (((r >> 2) & 3) << 6)))
    else if f3 == 3 then if rd == 0 then None else Some(I(Ld, rd, 2, StackDouble(r)))
    else if f3 == 4 then JumpOrAdd(r)
    else if f3 == 5 then Some(S(Fsd, 2, rs2, (((r >> 10) & 7) << 3) | (((r >> 7) & 7) << 6)))
    else if f3 == 6 then Some(S(Sw, 2, rs2, (((r >> 9) & 0xF) << 2) | (((r >> 7) & 3) << 6)))
    else Some(S(Sd, 2, rs2, (((r >> 10) & 7) << 3) | (((r >> 7) & 7) << 6)))
  }

  /** The instruction a halfword stands for, if it stands for one. */
  function Decompress(raw: bv16): Option<Instr> {
    var r := raw as bv32;
    var q := r & 3;
    if q == 0 then Quadrant0(r) else if q == 1 then Quadrant1(r) else if q == 2 then Quadrant2(r) else None
  }

  // ── Expansions are well-formed ────────────────────────────────────────────

  lemma SmallOffsetsFit(r: bv32)
    requires r < 0x1_0000
    ensures Sext12(DoubleOffset(r)) == DoubleOffset(r) && Sext12(WordOffset(r)) == WordOffset(r)
    ensures Sext12(ByteOffset(r)) == ByteOffset(r) && Sext12(HalfOffset(r)) == HalfOffset(r)
    ensures Sext12(StackDouble(r)) == StackDouble(r)
  {}

  lemma Sext6Fits(v: bv32)
    ensures Sext12(Sext6(v)) == Sext6(v)
  {
    if v & 0x20 != 0 {
      assert (v | 0xFFFF_FFC0) & 0x800 != 0;
    } else {
      assert v & 0x3F & 0x800 == 0;
    }
  }

  lemma Sext10Fits(v: bv32)
    ensures Sext12(Sext10(v)) == Sext10(v)
  {
    if v & 0x200 != 0 {
      assert (v | 0xFFFF_FC00) & 0x800 != 0;
    } else {
      assert v & 0x3FF & 0x800 == 0;
    }
  }

  lemma JumpBitsShape(r: bv32)
    ensures JumpBits(r) & 0xFFFF_F800 == 0 && (JumpBits(r) & 0x400 != 0 <==> ((r >> 12) & 1) != 0)
  {}

  lemma ElevenBitsFit(v: bv32)
    requires v & 0xFFFF_F800 == 0
    ensures var o := (if v & 0x400 != 0 then v | 0xFFFF_F800 else v) << 1; Sext21(o) == o && o & 1 == 0
  {}

  lemma JumpFits(r: bv32)
    ensures Sext21(JumpOffset(r)) == JumpOffset(r) && JumpOffset(r) & 1 == 0
  {
    hide JumpBits, Sext21;
    JumpBitsShape(r);
    ElevenBitsFit(JumpBits(r));
  }

  lemma BranchFits(r: bv32)
    ensures Sext13(BranchOffset(r)) == BranchOffset(r) && BranchOffset(r) & 1 == 0
  {}

  predicate Fine(i: Option<Instr>) { i.Some? ==> WellFormed(i.value) && Encode(i.value).Some? }

  lemma FineI(op: IOp, rd: Reg, rs1: Reg, imm: bv32)
    requires !op.Flw? && Sext12(imm) == imm
    ensures Fine(Some(I(op, rd, rs1, imm)))
  {
    hide Sext12, ICode, IType;
  }

  lemma FineS(op: SOp, rs1: Reg, rs2: Reg, imm: bv32)
    requires !op.Fsw? && Sext12(imm) == imm
    ensures Fine(Some(S(op, rs1, rs2, imm)))
  {
    hide Sext12, SCode, SType;
  }

  lemma FineR(op: ROp, rd: Reg, rs1: Reg, rs2: Reg)
    ensures Fine(Some(R(op, rd, rs1, rs2)))
  {
    hide RCode, RType;
  }

  lemma FineShift(op: ShiftOp, rd: Reg, rs1: Reg, shamt: bv6)
    requires op.Slli? || op.Srli? || op.Srai?
    ensures Fine(Some(Shift(op, rd, rs1, shamt)))
  {
    hide ShiftCode, ShiftType;
  }

  lemma FineOther(rd: Reg, upper: bv32, jump: bv32, op: BOp, rs1: Reg, rs2: Reg, branch: bv32)
    requires upper & 0xFFF == 0 && Sext21(jump) == jump && jump & 1 == 0 && Sext13(branch) == branch && branch & 1 == 0
    ensures Fine(Some(U(Lui, rd, upper))) && Fine(Some(Jal(rd, jump))) && Fine(Some(B(op, rs1, rs2, branch)))
    ensures Fine(Some(Sys(Ebreak))) && Fine(None)
  {
    hide Sext13, Sext21, UType, JType, BType, BCode;
  }

  lemma AddiSpnFits(r: bv32)
    ensures var imm := (((r >> 6) & 1) << 2) | (((r >> 5) & 1) << 3) | (((r >> 11) & 3) << 4) | (((r >> 7) & 0xF) << 6);
      Sext12(imm) == imm
  {}

  lemma Quadrant0IsFine(r: bv32)
    requires r < 0x1_0000
    ensures Fine(Quadrant0(r))
  {
    hide DoubleOffset, WordOffset, ByteOffset, HalfOffset, Sext12, Popular2, Popular7, Fine;
    SmallOffsetsFit(r);
    AddiSpnFits(r);
    var low, base := Popular2(r), Popular7(r);
    NothingIsFine();
    FineI(Addi, low, 2, (((r >> 6) & 1) << 2) | (((r >> 5) & 1) << 3) | (((r >> 11) & 3) << 4)
      | (((r >> 7) & 0xF) << 6));
    FineI(Fld, low, base, DoubleOffset(r));
    FineI(Lw, low, base, WordOffset(r));
    FineI(Ld, low, base, DoubleOffset(r));
    FineI(Lbu, low, base, ByteOffset(r));
    FineS(Sb, base, low, ByteOffset(r));
    FineI(Lhu, low, base, HalfOffset(r));
    FineS(Sh, base, low, HalfOffset(r));
    FineS(Fsd, base, low, DoubleOffset(r));
    FineS(Sw, base, low, WordOffset(r));
    FineS(Sd, base, low, DoubleOffset(r));
  }

  lemma ArithmeticIsFine(r: bv32)
    ensures Fine(Arithmetic(r))
  {
    Sext6Fits(Imm6(r));
    hide Sext6, Sext12, Imm6, Popular2, Popular7, Shamt, Fine;
    var rd, rs2 := Popular7(r), Popular2(r);
    NothingIsFine();
    FineShift(Srli, rd, rd, Shamt(r));
    FineShift(Srai, rd, rd, Shamt(r));
    FineI(Andi, rd, rd, Sext6(Imm6(r)));
    FineR(Sub, rd, rd, rs2);
    FineR(Xor, rd, rd, rs2);
    FineR(Or, rd, rd, rs2);
    FineR(And, rd, rd, rs2);
    FineR(Subw, rd, rd, rs2);
    FineR(Addw, rd, rd, rs2);
  }

  lemma UpperImmediateFits(r: bv32)
    ensures Sext18((((r >> 12) & 1) << 17) | (((r >> 2) & 0x1F) << 12)) & 0xFFF == 0
  {}

  lemma Quadrant1IsFine(r: bv32)
    ensures Fine(Quadrant1(r))
  {
    hide Sext6, Sext10, Sext12, Sext13, Sext18, Sext21, Imm6, Popular2, Popular7, Full2, Full7, JumpOffset;
    hide BranchOffset, Arithmetic, Fine;
    var rd, rs1 := Full7(r), Popular7(r);
    var sp := (((r >> 12) & 1) << 9) | (((r >> 3) & 3) << 7) | (((r >> 5) & 1) << 6) | (((r >> 2) & 1) << 5)
      | (((r >> 6) & 1) << 4);
    var upper := Sext18((((r >> 12) & 1) << 17) | (((r >> 2) & 0x1F) << 12));
    Sext6Fits(Imm6(r));
    Sext10Fits(sp);
    UpperImmediateFits(r);
    JumpFits(r);
    BranchFits(r);
    ArithmeticIsFine(r);
    FineI(Addi, rd, rd, Sext6(Imm6(r)));
    FineI(Addiw, rd, rd, Sext6(Imm6(r)));
    FineI(Addi, rd, 0, Sext6(Imm6(r)));
    FineI(Addi, 2, 2, Sext10(sp));
    FineOther(rd, upper, JumpOffset(r), Beq, rs1, 0, BranchOffset(r));
    FineOther(0, upper, JumpOffset(r), Bne, rs1, 0, BranchOffset(r));
  }

  lemma StackOffsetsFit(r: bv32)
    ensures var a := (((r >> 12) & 1) << 5) | (((r >> 4) & 7) << 2) | (((r >> 2) & 3) << 6); Sext12(a) == a
    ensures var b := (((r >> 10) & 7) << 3) | (((r >> 7) & 7) << 6); Sext12(b) == b
    ensures var c := (((r >> 9) & 0xF) << 2) | (((r >> 7) & 3) << 6); Sext12(c) == c
    ensures Sext12(0) == 0
  {}

  lemma JumpOrAddIsFine(r: bv32)
    ensures Fine(JumpOrAdd(r))
  {
    StackOffsetsFit(r);
    assert Sext21(0) == 0 && Sext13(0) == 0;
    hide Sext12, Sext13, Sext21, Full2, Full7, Fine;
    var rd, rs2 := Full7(r), Full2(r);
    FineR(Add, rd, 0, rs2);
    FineR(Add, rd, rd, rs2);
    FineI(Jalr, 0, rd, 0);
    FineI(Jalr, 1, rd, 0);
    FineOther(0, 0, 0, Beq, 0, 0, 0);
  }

  lemma Quadrant2IsFine(r: bv32)
    requires r < 0x1_0000
    ensures Fine(Quadrant2(r))
  {
    hide StackDouble, Sext12, Full2, Full7, Shamt, Fine, JumpOrAdd;
    var rd, rs2 := Full7(r), Full2(r);
    SmallOffsetsFit(r);
    StackOffsetsFit(r);
    JumpOrAddIsFine(r);
    NothingIsFine();
    FineShift(Slli, rd, rd, Shamt(r));
    FineI(Fld, rd, 2, StackDouble(r));
    FineI(Lw, rd, 2, (((r >> 12) & 1) << 5) | (((r >> 4) & 7) << 2) | (((r >> 2) & 3) << 6));
    FineI(Ld, rd, 2, StackDouble(r));
    FineS(Fsd, 2, rs2, (((r >> 10) & 7) << 3) | (((r >> 7) & 7) << 6));
    FineS(Sw, 2, rs2, (((r >> 9) & 0xF) << 2) | (((r >> 7) & 3) << 6));
    FineS(Sd, 2, rs2, (((r >> 10) & 7) << 3) | (((r >> 7) & 7) << 6));
  }

  /** Every halfword that expands at all expands to a well-formed instruction that can be encoded. */
  lemma ExpansionIsWellFormed(raw: bv16)
    ensures Fine(Decompress(raw))
  {
    hide Quadrant0, Quadrant1, Quadrant2, Fine;
    assert Fine(None) by { NothingIsFine(); }
    Quadrant0IsFine(raw as bv32);
    Quadrant1IsFine(raw as bv32);
    Quadrant2IsFine(raw as bv32);
  }

  lemma NothingIsFine()
    ensures Fine(None)
  {}

  /** So a compressed instruction, expanded and encoded, decodes to its expansion; a double-precision
      store aside. */
  lemma ExpansionSurvivesEncoding(raw: bv16)
    requires Decompress(raw).Some?
    ensures var i := Decompress(raw).value;
      Encode(i).Some? && (!(i.S? && i.sop.Fsd?) ==> Decode(Encode(i).value) == i)
  {
    hide Decompress, Encode, Decode, WellFormed;
    ExpansionIsWellFormed(raw);
    var i := Decompress(raw).value;
    if !(i.S? && i.sop.Fsd?) {
      DecodeInvertsEncode(i);
    }
  }

  // ── The scrambled offsets ─────────────────────────────────────────────────

  predicate Has(x: bv32, mask: bv32) { x & mask != 0 }

  lemma JumpBitsLow(r: bv32)
    ensures var v := JumpBits(r);
      Has(v, 0x10) == Has(r, 0x4) && Has(v, 0x1) == Has(r, 0x8) && Has(v, 0x2) == Has(r, 0x10)
        && Has(v, 0x4) == Has(r, 0x20) && Has(v, 0x40) == Has(r, 0x40)
  {}

  lemma JumpBitsHigh(r: bv32)
    ensures var v := JumpBits(r);
      Has(v, 0x20) == Has(r, 0x80) && Has(v, 0x200) == Has(r, 0x100) && Has(v, 0x80) == Has(r, 0x200)
        && Has(v, 0x100) == Has(r, 0x400) && Has(v, 0x8) == Has(r, 0x800)
  {}

  function Doubled(v: bv32): bv32 { v << 1 }

  function Negative(v: bv32): bv32 { v | 0xFFFF_F800 }

  lemma TopBit(r: bv32)
    ensures ((r >> 12) & 1) != 0 <==> Has(r, 0x1000)
  {}

  lemma JumpOffsetCases(r: bv32)
    ensures JumpOffset(r) == Doubled(if Has(r, 0x1000) then Negative(JumpBits(r)) else JumpBits(r))
  {
    hide JumpBits;
    TopBit(r);
  }

  lemma UpByOneLow(v: bv32)
    ensures var o := Doubled(v);
      && !Has(o, 0x1) && Has(o, 0x2) == Has(v, 0x1) && Has(o, 0x4) == Has(v, 0x2) && Has(o, 0x8) == Has(v, 0x4)
      && Has(o, 0x10) == Has(v, 0x8) && Has(o, 0x20) == Has(v, 0x10)
  {}

  lemma UpByOneHigh(v: bv32)
    ensures var o := Doubled(v);
      && Has(o, 0x40) == Has(v, 0x20) && Has(o, 0x80) == Has(v, 0x40) && Has(o, 0x100) == Has(v, 0x80)
      && Has(o, 0x200) == Has(v, 0x100) && Has(o, 0x400) == Has(v, 0x200)
  {}

  lemma SignKeepsLow(v: bv32)
    ensures var w := Negative(v);
      && Has(w, 0x1) == Has(v, 0x1) && Has(w, 0x2) == Has(v, 0x2) && Has(w, 0x4) == Has(v, 0x4)
      && Has(w, 0x8) == Has(v, 0x8)
      && Has(w, 0x10) == Has(v, 0x10) && Has(w, 0x20) == Has(v, 0x20) && Has(w, 0x40) == Has(v, 0x40)
      && Has(w, 0x80) == Has(v, 0x80) && Has(w, 0x100) == Has(v, 0x100) && Has(w, 0x200) == Has(v, 0x200)
  {}

  lemma SignFills(v: bv32)
    requires v & 0xFFFF_F800 == 0
    ensures (v << 1) & 0xFFFF_F800 == if v & 0x400 != 0 then 0x800 else 0
    ensures v & 0x400 != 0 ==> ((v | 0xFFFF_F800) << 1) & 0xFFFF_F800 == 0xFFFF_F800
  {}

  /** C.J (chapter 16 of the unprivileged specification): bits 12..2 of the halfword are offset bits
      11, 4, 9:8, 10, 6, 7, 3:1 and 5, sign-extended from bit 11. */
  lemma JumpOffsetIsScrambled(r: bv32)
    ensures var o := JumpOffset(r);
      && !Has(o, 0x1) && Has(o, 0x20) == Has(r, 0x4) && Has(o, 0x2) == Has(r, 0x8) && Has(o, 0x4) == Has(r, 0x10)
      && Has(o, 0x8) == Has(r, 0x20)
      && Has(o, 0x80) == Has(r, 0x40) && Has(o, 0x40) == Has(r, 0x80) && Has(o, 0x400) == Has(r, 0x100)
      && Has(o, 0x100) == Has(r, 0x200)
      && Has(o, 0x200) == Has(r, 0x400) && Has(o, 0x10) == Has(r, 0x800)
      && o & 0xFFFF_F800 == if Has(r, 0x1000) then 0xFFFF_F800 else 0
  {
    hide JumpBits, Has, JumpOffset;
    JumpOffsetKeeps(r);
    JumpOffsetSign(r);
    JumpBitsLow(r);
    JumpBitsHigh(r);
  }

  lemma JumpOffsetKeeps(r: bv32)
    ensures var (o, v) := (JumpOffset(r), JumpBits(r));
      && !Has(o, 0x1) && Has(o, 0x2) == Has(v, 0x1) && Has(o, 0x4) == Has(v, 0x2) && Has(o, 0x8) == Has(v, 0x4)
      && Has(o, 0x10) == Has(v, 0x8) && Has(o, 0x20) == Has(v, 0x10) && Has(o, 0x40) == Has(v, 0x20)
      && Has(o, 0x80) == Has(v, 0x40) && Has(o, 0x100) == Has(v, 0x80) && Has(o, 0x200) == Has(v, 0x100)
      && Has(o, 0x400) == Has(v, 0x200)
  {
    hide JumpBits, Has, JumpOffset, Doubled, Negative;
    var v := JumpBits(r);
    JumpOffsetCases(r);
    SignKeepsLow(v);
    if Has(r, 0x1000) {
      UpByOneLow(Negative(v));
      UpByOneHigh(Negative(v));
    } else {
      UpByOneLow(v);
      UpByOneHigh(v);
    }
  }

  lemma JumpOffsetSign(r: bv32)
    ensures JumpOffset(r) & 0xFFFF_F800 == if Has(r, 0x1000) then 0xFFFF_F800 else 0
  {
    hide JumpBits, Has;
    JumpBitsShape(r);
    TopBit(r);
    SignFills(JumpBits(r));
  }

  /** C.BEQZ and C.BNEZ: bits 12..10 and 6..2 are offset bits 8, 4:3, 7:6, 2:1 and 5, sign-extended
      from bit 8. */
  lemma BranchOffsetIsScrambled(r: bv32)
    ensures var o := BranchOffset(r);
      && !Has(o, 0x1) && Has(o, 0x20) == Has(r, 0x4) && Has(o, 0x2) == Has(r, 0x8) && Has(o, 0x4) == Has(r, 0x10)
      && Has(o, 0x40) == Has(r, 0x20) && Has(o, 0x80) == Has(r, 0x40) && Has(o, 0x8) == Has(r, 0x400)
      && Has(o, 0x10) == Has(r, 0x800)
      && o & 0xFFFF_FF00 == if Has(r, 0x1000) then 0xFFFF_FF00 else 0
  {}
}
