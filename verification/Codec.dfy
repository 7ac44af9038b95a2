/** Encoding and decoding agree: what is encoded decodes to itself. */
module Codec {
  import opened Bytes
  import opened Instructions

  // ── Fields read back, format by format ────────────────────────────────────

  lemma ITypeFields(imm: bv32, rs1: Reg, f3: bv32, rd: Reg, opcode: bv32)
    requires f3 < 8 && opcode < 128 && imm == Sext12(imm)
    ensures var raw := IType(imm, RegWord(rs1), f3, RegWord(rd), opcode);
      raw & 0x7F == opcode && RdOf(raw) == rd && Funct3(raw) == f3 && Rs1Of(raw) == rs1 && IImm(raw) == imm
  {}

  lemma STypeFields(imm: bv32, rs2: Reg, rs1: Reg, f3: bv32)
    requires f3 < 8 && imm == Sext12(imm)
    ensures var raw := SType(imm, RegWord(rs2), RegWord(rs1), f3);
      raw & 0x7F == 0x23 && Funct3(raw) == f3 && Rs1Of(raw) == rs1 && Rs2Of(raw) == rs2 && SImm(raw) == imm
  {}

  lemma BTypeFields(imm: bv32, rs2: Reg, rs1: Reg, f3: bv32)
    requires f3 < 8 && imm == Sext13(imm) && imm & 1 == 0
    ensures var raw := BType(imm, RegWord(rs2), RegWord(rs1), f3);
      raw & 0x7F == 0x63 && Funct3(raw) == f3 && Rs1Of(raw) == rs1 && Rs2Of(raw) == rs2 && BImm(raw) == imm
  {}

  lemma JTypeBits(imm: bv32, rd: Reg)
    ensures var raw := JType(imm, RegWord(rd));
      && raw & 0x7F == 0x6F && RdOf(raw) == rd
      && (raw >> 31) & 1 == (imm >> 20) & 1 && (raw >> 12) & 0xFF == (imm >> 12) & 0xFF
      && (raw >> 20) & 1 == (imm >> 11) & 1 && (raw >> 21) & 0x3FF == (imm >> 1) & 0x3FF
  {}

  lemma JBitsTogether(imm: bv32)
    requires imm & 1 == 0
    ensures (((imm >> 20) & 1) << 20) | (((imm >> 12) & 0xFF) << 12) | (((imm >> 11) & 1) << 11)
      | (((imm >> 1) & 0x3FF) << 1)
         == imm & 0x1F_FFFF
  {}

  lemma Sext21OfLow(imm: bv32)
    ensures Sext21(imm & 0x1F_FFFF) == Sext21(imm)
  {}

  lemma JTypeFields(imm: bv32, rd: Reg)
    requires imm == Sext21(imm) && imm & 1 == 0
    ensures var raw := JType(imm, RegWord(rd)); raw & 0x7F == 0x6F && RdOf(raw) == rd && JImm(raw) == imm
  {
    hide JType, Sext21, RdOf;
    JTypeBits(imm, rd);
    JBitsTogether(imm);
    Sext21OfLow(imm);
  }

  lemma UTypeFields(imm: bv32, rd: Reg, opcode: bv32)
    requires opcode < 128 && imm & 0xFFF == 0
    ensures var raw := UType(imm, RegWord(rd), opcode);
      raw & 0x7F == opcode && RdOf(raw) == rd && raw & 0xFFFF_F000 == imm
  {}

  lemma RTypeFields(f7: bv32, rs2: Reg, rs1: Reg, f3: bv32, rd: Reg, opcode: bv32)
    requires f7 < 128 && f3 < 8 && opcode < 128
    ensures var raw := RType(f7, RegWord(rs2), RegWord(rs1), f3, RegWord(rd), opcode);
      && raw & 0x7F == opcode && RdOf(raw) == rd && Funct3(raw) == f3 && Rs1Of(raw) == rs1 && Rs2Of(raw) == rs2
      && Funct7(raw) == f7
  {}

  lemma ShiftTypeFields(hi: bv32, shamt: bv6, rs1: Reg, f3: bv32, rd: Reg, opcode: bv32)
    requires f3 < 8 && opcode < 128 && (hi == 0 || hi == 0x4000_0000)
    ensures var raw := ShiftType(hi, ShamtWord(shamt), RegWord(rs1), f3, RegWord(rd), opcode);
      raw & 0x7F == opcode && RdOf(raw) == rd && Funct3(raw) == f3 && Rs1Of(raw) == rs1
  {}

  lemma ShiftTypeAmount(hi: bv32, shamt: bv6, rs1: Reg, f3: bv32, rd: Reg, opcode: bv32)
    requires f3 < 8 && opcode < 128 && (hi == 0 || hi == 0x4000_0000)
    ensures var raw := ShiftType(hi, ShamtWord(shamt), RegWord(rs1), f3, RegWord(rd), opcode);
      && (raw >> 20) & 0x3F == ShamtWord(shamt) && Funct7(raw) >> 1 == hi >> 26
      && (shamt & 0x20 == 0 ==> (raw >> 20) & 0x1F == ShamtWord(shamt) && Funct7(raw) == hi >> 25)
  {}

  lemma ShamtBack(shamt: bv6)
    ensures ShamtWord(shamt) < 64 && ShamtWord(shamt) as bv6 == shamt
  {}

  // ── The round trip ────────────────────────────────────────────────────────

  /** The tables are inverse to each other. */
  lemma ITables(op: IOp)
    ensures ICode(op).1 < 8 && ICode(op).0 < 128
    ensures match op
      case Jalr => ICode(op).0 == 0x67
      case Addiw => ICode(op) == (0x1B, 0)
      case Fld => ICode(op).0 == 0x07 && FloatLoadOp(ICode(op).1) == Some(op)
      case Flw => ICode(op).0 == 0x07 && FloatLoadOp(ICode(op).1) == Some(op)
      case _ =>
        || (ICode(op).0 == 0x03 && LoadOp(ICode(op).1) == Some(op))
        || (ICode(op).0 == 0x13 && ImmediateOp(ICode(op).1) == Some(op) && ICode(op).1 != 1 && ICode(op).1 != 5)
  {}

  lemma RTables(op: ROp)
    ensures RCode(op).0 < 128 && RCode(op).1 < 8
    ensures (RCode(op).2 == 0x33 && RegisterOp(RCode(op).0, RCode(op).1) == Some(op))
         || (RCode(op).2 == 0x3B && WordOp(RCode(op).0, RCode(op).1) == Some(op))
  {}

  lemma ShiftTables(op: ShiftOp)
    ensures var (hi, f3, opcode) := ShiftCode(op);
      && (hi == 0 || hi == 0x4000_0000) && (f3 == 1 || f3 == 5)
      && (if op.Slli? || op.Srli? || op.Srai? then opcode == 0x13 && WideShiftOp(f3, hi >> 26) == Some(op)
          else opcode == 0x1B && WordShiftOp(f3, hi >> 25) == Some(op))
  {}

  lemma IRoundTrip(op: IOp, rd: Reg, rs1: Reg, imm: bv32)
    requires imm == Sext12(imm)
    ensures Decode(IType(imm, RegWord(rs1), ICode(op).1, RegWord(rd), ICode(op).0)) == I(op, rd, rs1, imm)
  {
    hide RegWord, ShamtWord, CsrWord, IType, RdOf, Rs1Of, Funct3, IImm, Sext12, ICode, LoadOp, FloatLoadOp, ImmediateOp;
    hide DecodeAmo, DecodeFence, DecodeSystem, RegisterOp, WordOp, BranchOp, StoreOp, FloatStoreOp;
    ITables(op);
    ITypeFields(imm, rs1, ICode(op).1, rd, ICode(op).0);
  }

  lemma ShiftRoundTrip(op: ShiftOp, rd: Reg, rs1: Reg, shamt: bv6)
    requires op.Slli? || op.Srli? || op.Srai? || shamt & 0x20 == 0
    ensures Decode(ShiftType(ShiftCode(op).0, ShamtWord(shamt), RegWord(rs1), ShiftCode(op).1, RegWord(rd),
      ShiftCode(op).2))
         == Shift(op, rd, rs1, shamt)
  {
    hide RegWord, ShamtWord, CsrWord, ShiftType, RdOf, Rs1Of, Funct3, Funct7, ShiftCode, WideShiftOp, WordShiftOp;
    hide IInstr;
    hide DecodeAmo, DecodeFence, DecodeSystem, RegisterOp, WordOp, BranchOp, StoreOp, FloatStoreOp;
    ShiftTables(op);
    ShiftTypeFields(ShiftCode(op).0, shamt, rs1, ShiftCode(op).1, rd, ShiftCode(op).2);
    ShiftTypeAmount(ShiftCode(op).0, shamt, rs1, ShiftCode(op).1, rd, ShiftCode(op).2);
    ShamtBack(shamt);
  }

  lemma BRoundTrip(op: BOp, rs1: Reg, rs2: Reg, imm: bv32)
    requires imm == Sext13(imm) && imm & 1 == 0
    ensures Decode(BType(imm, RegWord(rs2), RegWord(rs1), BCode(op))) == B(op, rs1, rs2, imm)
  {
    hide RegWord, ShamtWord, CsrWord, BType, Rs1Of, Rs2Of, Funct3, BImm, Sext13, IInstr, RInstr, SInstr;
    hide DecodeAmo, DecodeFence, DecodeSystem, DecodeOpImm, DecodeOpImm32;
    BTypeFields(imm, rs2, rs1, BCode(op));
  }

  lemma SRoundTrip(op: SOp, rs1: Reg, rs2: Reg, imm: bv32)
    requires !op.Fsw? && !op.Fsd? && imm == Sext12(imm)
    ensures Decode(SType(imm, RegWord(rs2), RegWord(rs1), SCode(op))) == S(op, rs1, rs2, imm)
  {
    hide RegWord, ShamtWord, CsrWord, SType, Rs1Of, Rs2Of, Funct3, SImm, Sext12, IInstr, RInstr, BInstr;
    hide DecodeAmo, DecodeFence, DecodeSystem, DecodeOpImm, DecodeOpImm32;
    STypeFields(imm, rs2, rs1, SCode(op));
  }

  lemma RRoundTrip(op: ROp, rd: Reg, rs1: Reg, rs2: Reg)
    ensures Decode(RType(RCode(op).0, RegWord(rs2), RegWord(rs1), RCode(op).1, RegWord(rd), RCode(op).2))
         == R(op, rd, rs1, rs2)
  {
    hide RegWord, ShamtWord, CsrWord, RType, RdOf, Rs1Of, Rs2Of, Funct3, Funct7, RCode, RegisterOp, WordOp, IInstr;
    hide SInstr, BInstr;
    hide DecodeAmo, DecodeFence, DecodeSystem, DecodeOpImm, DecodeOpImm32;
    RTables(op);
    RTypeFields(RCode(op).0, rs2, rs1, RCode(op).1, rd, RCode(op).2);
  }

  lemma CsrFields(csr: bv12, src: Reg, f3: bv32, rd: Reg)
    requires f3 < 8
    ensures var raw := CsrType(CsrWord(csr), RegWord(src), f3, RegWord(rd));
      raw & 0x7F == 0x73 && RdOf(raw) == rd && Rs1Of(raw) == src && Funct3(raw) == f3 && Funct12(raw) == csr
  {}

  lemma CsrRoundTrip(op: CsrOp, rd: Reg, src: Reg, csr: bv12)
    ensures Decode(CsrType(CsrWord(csr), RegWord(src), CsrCode(op), RegWord(rd))) == Csr(op, rd, src, csr)
  {
    hide RegWord, ShamtWord, CsrWord, CsrType, RdOf, Rs1Of, Funct3, Funct12, IInstr, SInstr, BInstr, RInstr, DecodeAmo;
    hide DecodeFence, DecodeOpImm, DecodeOpImm32;
    CsrFields(csr, src, CsrCode(op), rd);
  }

  lemma SysRoundTrip(op: SysOp)
    ensures Decode(SysCode(op)) == Sys(op)
  {
    hide IInstr, SInstr, BInstr, RInstr, DecodeAmo, DecodeFence, DecodeOpImm, DecodeOpImm32;
  }

  lemma FenceRoundTrip(pred: bv4, succ: bv4)
    ensures Decode(FenceType(SetWord(pred), SetWord(succ))) == Fence(pred, succ)
    ensures Decode(0x100F) == FenceI
  {
    hide IInstr, SInstr, BInstr, RInstr, DecodeAmo, DecodeSystem, DecodeOpImm, DecodeOpImm32;
  }

  lemma SfenceRoundTrip(rs1: Reg, rs2: Reg)
    ensures Decode(SfenceType(RegWord(rs1), RegWord(rs2))) == SfenceVma(rs1, rs2)
  {
    hide IInstr, SInstr, BInstr, RInstr, DecodeAmo, DecodeFence, DecodeOpImm, DecodeOpImm32;
    var raw := SfenceType(RegWord(rs1), RegWord(rs2));
    assert raw & 0x7F == 0x73 && Funct3(raw) == 0 && Funct7(raw) == 0x09 && Rs1Of(raw) == rs1 && Rs2Of(raw) == rs2;
  }

  lemma URoundTrip(op: UOp, rd: Reg, imm: bv32)
    requires imm & 0xFFF == 0
    ensures Decode(UType(imm, RegWord(rd), UCode(op))) == U(op, rd, imm)
  {
    hide RegWord, ShamtWord, CsrWord, UType, RdOf, IInstr, SInstr, BInstr, RInstr, DecodeAmo, DecodeFence, DecodeSystem;
    hide DecodeOpImm, DecodeOpImm32;
    UTypeFields(imm, rd, UCode(op));
  }

  lemma JRoundTrip(rd: Reg, imm: bv32)
    requires imm == Sext21(imm) && imm & 1 == 0
    ensures Decode(JType(imm, RegWord(rd))) == Jal(rd, imm)
  {
    hide RegWord, ShamtWord, CsrWord, JType, JImm, Sext21, RdOf, IInstr, SInstr, BInstr, RInstr, DecodeAmo, DecodeFence;
    hide DecodeSystem, DecodeOpImm, DecodeOpImm32;
    JTypeFields(imm, rd);
  }

  /** Every well-formed instruction that encodes, but a double-precision store, decodes to itself. */
  lemma DecodeInvertsEncode(i: Instr)
    requires WellFormed(i) && Encode(i).Some? && !(i.S? && i.sop.Fsd?)
    ensures Decode(Encode(i).value) == i
  {
    hide Decode, UType, JType, IType, ShiftType, BType, SType, RType, ICode, ShiftCode, BCode, SCode, RCode, SysCode;
    hide CsrCode;
    hide Sext12, Sext13, Sext21, RegWord, ShamtWord, SetWord, CsrWord, FenceType, CsrType, SfenceType, UCode;
    match i
    case U(op, rd, imm) => URoundTrip(op, rd, imm);
    case Jal(rd, imm) => JRoundTrip(rd, imm);
    case I(op, rd, rs1, imm) => IRoundTrip(op, rd, rs1, imm);
    case Shift(op, rd, rs1, shamt) => ShiftRoundTrip(op, rd, rs1, shamt);
    case B(op, rs1, rs2, imm) => BRoundTrip(op, rs1, rs2, imm);
    case S(op, rs1, rs2, imm) => SRoundTrip(op, rs1, rs2, imm);
    case R(op, rd, rs1, rs2) => RRoundTrip(op, rd, rs1, rs2);
    case Sys(op) => SysRoundTrip(op);
    case Fence(pred, succ) => FenceRoundTrip(pred, succ);
    case FenceI => FenceRoundTrip(0, 0);
    case Csr(op, rd, src, csr) => CsrRoundTrip(op, rd, src, csr);
    case SfenceVma(rs1, rs2) => SfenceRoundTrip(rs1, rs2);
  }

  /** A double-precision store is encoded as an integer store, and decodes as one. */
  lemma FsdDecodesAsSd(rs1: Reg, rs2: Reg, imm: bv32)
    requires imm == Sext12(imm)
    ensures Decode(Encode(S(Fsd, rs1, rs2, imm)).value) == S(Sd, rs1, rs2, imm)
  {
    hide Decode, SType, Sext12;
    SRoundTrip(Sd, rs1, rs2, imm);
  }

  // ── Whatever decodes is well-formed ───────────────────────────────────────

  lemma Sext12Twice(v: bv32)
    ensures Sext12(Sext12(v)) == Sext12(v)
  {
    if v & 0x800 != 0 {
      assert (v | 0xFFFF_F000) & 0x800 != 0;
    } else {
      assert v & 0xFFF & 0x800 == 0;
    }
  }

  lemma Sext13Twice(v: bv32)
    requires v & 1 == 0
    ensures Sext13(Sext13(v)) == Sext13(v) && Sext13(v) & 1 == 0
  {
    if v & 0x1000 != 0 {
      assert (v | 0xFFFF_E000) & 0x1000 != 0;
    } else {
      assert v & 0x1FFF & 0x1000 == 0;
    }
  }

  lemma Sext21Twice(v: bv32)
    requires v & 1 == 0
    ensures Sext21(Sext21(v)) == Sext21(v) && Sext21(v) & 1 == 0
  {
    if v & 0x10_0000 != 0 {
      assert (v | 0xFFE0_0000) & 0x10_0000 != 0;
    } else {
      assert v & 0x1F_FFFF & 0x10_0000 == 0;
    }
  }

  lemma IImmFits(raw: bv32)
    ensures IImm(raw) == Sext12(IImm(raw)) && SImm(raw) == Sext12(SImm(raw))
  {
    hide Sext12;
    Sext12Twice(raw >> 20);
    Sext12Twice((((raw >> 25) & 0x7F) << 5) | ((raw >> 7) & 0x1F));
  }

  lemma BImmFits(raw: bv32)
    ensures BImm(raw) == Sext13(BImm(raw)) && BImm(raw) & 1 == 0
  {
    hide Sext13;
    var b := (((raw >> 31) & 1) << 12) | (((raw >> 7) & 1) << 11) | (((raw >> 25) & 0x3F) << 5)
      | (((raw >> 8) & 0xF) << 1);
    assert b & 1 == 0;
    Sext13Twice(b);
  }

  lemma JImmFits(raw: bv32)
    ensures JImm(raw) == Sext21(JImm(raw)) && JImm(raw) & 1 == 0
  {
    hide Sext21;
    var j := (((raw >> 31) & 1) << 20) | (((raw >> 12) & 0xFF) << 12) | (((raw >> 20) & 1) << 11)
      | (((raw >> 21) & 0x3FF) << 1);
    assert j & 1 == 0;
    Sext21Twice(j);
  }

  lemma FormatsFit(raw: bv32, iop: Option<IOp>, sop: Option<SOp>, bop: Option<BOp>, rop: Option<ROp>)
    ensures WellFormed(IInstr(iop, raw)) && WellFormed(SInstr(sop, raw)) && WellFormed(BInstr(bop, raw))
    ensures WellFormed(RInstr(rop, raw))
  {
    hide IImm, SImm, BImm, Sext12, Sext13, RdOf, Rs1Of, Rs2Of;
    IImmFits(raw);
    BImmFits(raw);
  }

  lemma UpperFits(raw: bv32)
    ensures raw & 0xFFFF_F000 & 0xFFF == 0
  {}

  lemma WideShiftFits(raw: bv32, f3: bv32, f6: bv32)
    ensures WellFormed(ShiftInstr(WideShiftOp(f3, f6), raw, 0x3F))
  {
    hide RdOf, Rs1Of;
  }

  lemma WordShiftFits(raw: bv32, op: Option<ShiftOp>)
    ensures WellFormed(ShiftInstr(op, raw, 0x1F))
  {
    hide RdOf, Rs1Of;
    assert (((raw >> 20) & 0x1F) as bv6) & 0x20 == 0;
  }

  lemma OpImmFits(raw: bv32)
    ensures WellFormed(DecodeOpImm(raw)) && WellFormed(DecodeOpImm32(raw))
  {
    hide WellFormed, Funct3, Funct7, IInstr, ShiftInstr, WideShiftOp, WordShiftOp, ImmediateOp;
    WideShiftFits(raw, Funct3(raw), Funct7(raw) >> 1);
    WordShiftFits(raw, WordShiftOp(Funct3(raw), Funct7(raw)));
    FormatsFit(raw, ImmediateOp(Funct3(raw)), None, None, None);
    FormatsFit(raw, Some(Addiw), None, None, None);
  }

  lemma OthersFit(raw: bv32)
    ensures WellFormed(DecodeAmo(raw)) && WellFormed(DecodeSystem(raw)) && WellFormed(DecodeFence(raw))
  {
    hide RdOf, Rs1Of, Rs2Of, Funct3, Funct7, Funct12, AmoOf, CsrOpOf, SystemOp;
  }

  /** Everything that decodes is well-formed. */
  lemma DecodedIsWellFormed(raw: bv32)
    ensures WellFormed(Decode(raw))
  {
    hide JImm, Sext21, RdOf, Funct3, Funct7, IInstr, SInstr, BInstr, RInstr;
    hide LoadOp, FloatLoadOp, BranchOp, StoreOp, FloatStoreOp, RegisterOp, WordOp;
    hide DecodeAmo, DecodeSystem, DecodeFence, DecodeOpImm, DecodeOpImm32;
    var f3, f7 := Funct3(raw), Funct7(raw);
    FormatsFit(raw, LoadOp(f3), StoreOp(f3), BranchOp(f3), RegisterOp(f7, f3));
    FormatsFit(raw, FloatLoadOp(f3), FloatStoreOp(f3), None, WordOp(f7, f3));
    FormatsFit(raw, Some(Jalr), None, None, None);
    JImmFits(raw);
    UpperFits(raw);
    OpImmFits(raw);
    OthersFit(raw);
  }

  /** So encoding is undone by decoding for the well-formed instructions other than double-precision
      stores, and for no others. */
  lemma RoundTripExactly(i: Instr)
    requires Encode(i).Some?
    ensures Decode(Encode(i).value) == i <==> WellFormed(i) && !(i.S? && i.sop.Fsd?)
  {
    hide Decode, Encode;
    DecodedIsWellFormed(Encode(i).value);
    if WellFormed(i) {
      if i.S? && i.sop.Fsd? {
        FsdDecodesAsSd(i.rs1, i.rs2, i.imm);
      } else {
        DecodeInvertsEncode(i);
      }
    }
  }
}
