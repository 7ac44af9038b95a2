/**
 * The codec with operands as wide as the source declares them: eight-bit register numbers, shift amounts
 * and fence sets, sixteen-bit CSR numbers and 64-bit immediates. Nothing stops a caller from encoding
 * operands that do not fit; they then spill into other fields.
 */
module WideCodec {
  import opened Bytes
  import opened Instructions
  import opened Codec

  datatype Wide =
    | WideU(uop: UOp, rd: bv8, imm: Imm64)
    | WideJal(rd: bv8, imm: Imm64)
    | WideI(iop: IOp, rd: bv8, rs1: bv8, imm: Imm64)
    | WideShift(shop: ShiftOp, rd: bv8, rs1: bv8, shamt: bv8)
    | WideB(bop: BOp, rs1: bv8, rs2: bv8, imm: Imm64)
    | WideS(sop: SOp, rs1: bv8, rs2: bv8, imm: Imm64)
    | WideR(rop: ROp, rd: bv8, rs1: bv8, rs2: bv8)
    | WideFence(pred: bv8, succ: bv8)
    | WideCsr(cop: CsrOp, rd: bv8, src: bv8, csr: bv16)
    | WideSfence(rs1: bv8, rs2: bv8)
    | Plain(i: Instr)

  /** A 64-bit immediate as two halves; every field an encoder takes of it lies in the lower one. */
  datatype Imm64 = Imm64(high: bv32, low: bv32)

  /** An immediate as decoding extends it. */
  function Ext64(v: bv32): Imm64 { Imm64(if v & 0x8000_0000 != 0 then 0xFFFF_FFFF else 0, v) }

  // Operands widened and narrowed.

  function Reg8(r: Reg): bv8 { r as bv8 }

  function Reg5(b: bv8): Reg
    requires b < 32
  {
    b as Reg
  }

  function Shamt8(s: bv6): bv8 { s as bv8 }

  function Shamt6(b: bv8): bv6
    requires b < 64
  {
    b as bv6
  }

  function Set8(s: bv4): bv8 { s as bv8 }

  function Set4(b: bv8): bv4
    requires b < 16
  {
    b as bv4
  }

  function Csr16(c: bv12): bv16 { c as bv16 }

  function Csr12(b: bv16): bv12
    requires b < 4096
  {
    b as bv12
  }

  /** An instruction with its operands as the source holds them. */
  function Widen(i: Instr): Wide {
    match i
    case U(op, rd, imm) => WideU(op, Reg8(rd), Ext64(imm))
    case Jal(rd, imm) => WideJal(Reg8(rd), Ext64(imm))
    case I(op, rd, rs1, imm) => WideI(op, Reg8(rd), Reg8(rs1), Ext64(imm))
    case Shift(op, rd, rs1, shamt) => WideShift(op, Reg8(rd), Reg8(rs1), Shamt8(shamt))
    case B(op, rs1, rs2, imm) => WideB(op, Reg8(rs1), Reg8(rs2), Ext64(imm))
    case S(op, rs1, rs2, imm) => WideS(op, Reg8(rs1), Reg8(rs2), Ext64(imm))
    case R(op, rd, rs1, rs2) => WideR(op, Reg8(rd), Reg8(rs1), Reg8(rs2))
    case Fence(pred, succ) => WideFence(Set8(pred), Set8(succ))
    case Csr(op, rd, src, csr) => WideCsr(op, Reg8(rd), Reg8(src), Csr16(csr))
    case SfenceVma(rs1, rs2) => WideSfence(Reg8(rs1), Reg8(rs2))
    case _ => Plain(i)
  }

  /** The operands fit their fields, and immediates are extensions of 32 bits. */
  predicate InRange(w: Wide) {
    match w
    case WideU(_, rd, imm) => rd < 32 && imm == Ext64(imm.low)
    case WideJal(rd, imm) => rd < 32 && imm == Ext64(imm.low)
    case WideI(_, rd, rs1, imm) => rd < 32 && rs1 < 32 && imm == Ext64(imm.low)
    case WideShift(_, rd, rs1, shamt) => rd < 32 && rs1 < 32 && shamt < 64
    case WideB(_, rs1, rs2, imm) => rs1 < 32 && rs2 < 32 && imm == Ext64(imm.low)
    case WideS(_, rs1, rs2, imm) => rs1 < 32 && rs2 < 32 && imm == Ext64(imm.low)
    case WideR(_, rd, rs1, rs2) => rd < 32 && rs1 < 32 && rs2 < 32
    case WideFence(pred, succ) => pred < 16 && succ < 16
    case WideCsr(_, rd, src, csr) => rd < 32 && src < 32 && csr < 4096
    case WideSfence(rs1, rs2) => rs1 < 32 && rs2 < 32
    case Plain(i) => Widen(i) == w
  }

  function Narrow(w: Wide): Instr
    requires InRange(w)
  {
    match w
    case WideU(op, rd, imm) => U(op, Reg5(rd), imm.low)
    case WideJal(rd, imm) => Jal(Reg5(rd), imm.low)
    case WideI(op, rd, rs1, imm) => I(op, Reg5(rd), Reg5(rs1), imm.low)
    case WideShift(op, rd, rs1, shamt) => Shift(op, Reg5(rd), Reg5(rs1), Shamt6(shamt))
    case WideB(op, rs1, rs2, imm) => B(op, Reg5(rs1), Reg5(rs2), imm.low)
    case WideS(op, rs1, rs2, imm) => S(op, Reg5(rs1), Reg5(rs2), imm.low)
    case WideR(op, rd, rs1, rs2) => R(op, Reg5(rd), Reg5(rs1), Reg5(rs2))
    case WideFence(pred, succ) => Fence(Set4(pred), Set4(succ))
    case WideCsr(op, rd, src, csr) => Csr(op, Reg5(rd), Reg5(src), Csr12(csr))
    case WideSfence(rs1, rs2) => SfenceVma(Reg5(rs1), Reg5(rs2))
    case Plain(i) => i
  }

  // ── Encoding ──────────────────────────────────────────────────────────────

  function ByteWord(b: bv8): bv32 { b as bv32 }

  function HalfWord(b: bv16): bv32 { b as bv32 }

  /** The source's encoder, spills included. */
  function EncodeWide(w: Wide): Option<bv32> {
    match w
    case WideU(op, rd, imm) => Some(UType(imm.low, ByteWord(rd), UCode(op)))
    case WideJal(rd, imm) => Some(JType(imm.low, ByteWord(rd)))
    case WideI(op, rd, rs1, imm) =>
      if op.Flw? then None else Some(IType(imm.low, ByteWord(rs1), ICode(op).1, ByteWord(rd), ICode(op).0))
    case WideShift(op, rd, rs1, shamt) =>
      Some(ShiftType(ShiftCode(op).0, ByteWord(shamt), ByteWord(rs1), ShiftCode(op).1, ByteWord(rd), ShiftCode(op).2))
    case WideB(op, rs1, rs2, imm) => Some(BType(imm.low, ByteWord(rs2), ByteWord(rs1), BCode(op)))
    case WideS(op, rs1, rs2, imm) =>
      if op.Fsw? then None else Some(SType(imm.low, ByteWord(rs2), ByteWord(rs1), SCode(op)))
    case WideR(op, rd, rs1, rs2) =>
      Some(RType(RCode(op).0, ByteWord(rs2), ByteWord(rs1), RCode(op).1, ByteWord(rd), RCode(op).2))
    case WideFence(pred, succ) => Some(FenceType(ByteWord(pred), ByteWord(succ)))
    case WideCsr(op, rd, src, csr) => Some(CsrType(HalfWord(csr), ByteWord(src), CsrCode(op), ByteWord(rd)))
    case WideSfence(rs1, rs2) => Some(SfenceType(ByteWord(rs1), ByteWord(rs2)))
    case Plain(i) => if Widen(i) == w then Encode(i) else None
  }

  // ── In range the two encoders agree ───────────────────────────────────────

  lemma RegFits(r: Reg)
    ensures Reg8(r) < 32 && ByteWord(Reg8(r)) == RegWord(r) && Reg5(Reg8(r)) == r
  {}

  lemma ShamtFits(s: bv6)
    ensures Shamt8(s) < 64 && ByteWord(Shamt8(s)) == ShamtWord(s) && Shamt6(Shamt8(s)) == s
  {}

  lemma SetFits(s: bv4)
    ensures Set8(s) < 16 && ByteWord(Set8(s)) == SetWord(s) && Set4(Set8(s)) == s
  {}

  lemma CsrFits(c: bv12)
    ensures Csr16(c) < 4096 && HalfWord(Csr16(c)) == CsrWord(c) && Csr12(Csr16(c)) == c
  {}

  lemma LowOfExt(v: bv32)
    ensures Ext64(v).low == v
  {}

  /** Widened and narrowed again it is the same, and it encodes as it does when it cannot be otherwise. */
  predicate Agrees(i: Instr) {
    InRange(Widen(i)) && Narrow(Widen(i)) == i && EncodeWide(Widen(i)) == Encode(i)
  }

  lemma UAgrees(op: UOp, rd: Reg, imm: bv32)
    ensures Agrees(U(op, rd, imm))
  {
    hide Ext64, Reg8, Reg5, Shamt8, Shamt6, Set8, Set4, Csr16, Csr12;
    hide ByteWord, HalfWord, RegWord, ShamtWord, SetWord, CsrWord;
    hide UType, JType, IType, ShiftType, BType, SType, RType, FenceType, CsrType, SfenceType;
    hide UCode, ICode, ShiftCode, BCode, SCode, RCode, CsrCode, SysCode;
    RegFits(rd);
    LowOfExt(imm);
  }

  lemma JalAgrees(rd: Reg, imm: bv32)
    ensures Agrees(Jal(rd, imm))
  {
    hide Ext64, Reg8, Reg5, Shamt8, Shamt6, Set8, Set4, Csr16, Csr12;
    hide ByteWord, HalfWord, RegWord, ShamtWord, SetWord, CsrWord;
    hide UType, JType, IType, ShiftType, BType, SType, RType, FenceType, CsrType, SfenceType;
    hide UCode, ICode, ShiftCode, BCode, SCode, RCode, CsrCode, SysCode;
    RegFits(rd);
    LowOfExt(imm);
  }

  lemma IAgrees(op: IOp, rd: Reg, rs1: Reg, imm: bv32)
    ensures Agrees(I(op, rd, rs1, imm))
  {
    hide Ext64, Reg8, Reg5, Shamt8, Shamt6, Set8, Set4, Csr16, Csr12;
    hide ByteWord, HalfWord, RegWord, ShamtWord, SetWord, CsrWord;
    hide UType, JType, IType, ShiftType, BType, SType, RType, FenceType, CsrType, SfenceType;
    hide UCode, ICode, ShiftCode, BCode, SCode, RCode, CsrCode, SysCode;
    RegFits(rd);
    RegFits(rs1);
    LowOfExt(imm);
  }

  lemma ShiftAgrees(op: ShiftOp, rd: Reg, rs1: Reg, shamt: bv6)
    ensures Agrees(Shift(op, rd, rs1, shamt))
  {
    hide Ext64, Reg8, Reg5, Shamt8, Shamt6, Set8, Set4, Csr16, Csr12;
    hide ByteWord, HalfWord, RegWord, ShamtWord, SetWord, CsrWord;
    hide UType, JType, IType, ShiftType, BType, SType, RType, FenceType, CsrType, SfenceType;
    hide UCode, ICode, ShiftCode, BCode, SCode, RCode, CsrCode, SysCode;
    RegFits(rd);
    RegFits(rs1);
    ShamtFits(shamt);
  }

  lemma BAgrees(op: BOp, rs1: Reg, rs2: Reg, imm: bv32)
    ensures Agrees(B(op, rs1, rs2, imm))
  {
    hide Ext64, Reg8, Reg5, Shamt8, Shamt6, Set8, Set4, Csr16, Csr12;
    hide ByteWord, HalfWord, RegWord, ShamtWord, SetWord, CsrWord;
    hide UType, JType, IType, ShiftType, BType, SType, RType, FenceType, CsrType, SfenceType;
    hide UCode, ICode, ShiftCode, BCode, SCode, RCode, CsrCode, SysCode;
    RegFits(rs1);
    RegFits(rs2);
    LowOfExt(imm);
  }

  lemma SAgrees(op: SOp, rs1: Reg, rs2: Reg, imm: bv32)
    ensures Agrees(S(op, rs1, rs2, imm))
  {
    hide Ext64, Reg8, Reg5, Shamt8, Shamt6, Set8, Set4, Csr16, Csr12;
    hide ByteWord, HalfWord, RegWord, ShamtWord, SetWord, CsrWord;
    hide UType, JType, IType, ShiftType, BType, SType, RType, FenceType, CsrType, SfenceType;
    hide UCode, ICode, ShiftCode, BCode, SCode, RCode, CsrCode, SysCode;
    RegFits(rs1);
    RegFits(rs2);
    LowOfExt(imm);
  }

  lemma RAgrees(op: ROp, rd: Reg, rs1: Reg, rs2: Reg)
    ensures Agrees(R(op, rd, rs1, rs2))
  {
    hide Ext64, Reg8, Reg5, Shamt8, Shamt6, Set8, Set4, Csr16, Csr12;
    hide ByteWord, HalfWord, RegWord, ShamtWord, SetWord, CsrWord;
    hide UType, JType, IType, ShiftType, BType, SType, RType, FenceType, CsrType, SfenceType;
    hide UCode, ICode, ShiftCode, BCode, SCode, RCode, CsrCode, SysCode;
    RegFits(rd);
    RegFits(rs1);
    RegFits(rs2);
  }

  lemma FenceAgrees(pred: bv4, succ: bv4)
    ensures Agrees(Fence(pred, succ))
  {
    hide Ext64, Reg8, Reg5, Shamt8, Shamt6, Set8, Set4, Csr16, Csr12;
    hide ByteWord, HalfWord, RegWord, ShamtWord, SetWord, CsrWord;
    hide UType, JType, IType, ShiftType, BType, SType, RType, FenceType, CsrType, SfenceType;
    hide UCode, ICode, ShiftCode, BCode, SCode, RCode, CsrCode, SysCode;
    SetFits(pred);
    SetFits(succ);
  }

  lemma CsrAgrees(op: CsrOp, rd: Reg, src: Reg, csr: bv12)
    ensures Agrees(Csr(op, rd, src, csr))
  {
    hide Ext64, Reg8, Reg5, Shamt8, Shamt6, Set8, Set4, Csr16, Csr12;
    hide ByteWord, HalfWord, RegWord, ShamtWord, SetWord, CsrWord;
    hide UType, JType, IType, ShiftType, BType, SType, RType, FenceType, CsrType, SfenceType;
    hide UCode, ICode, ShiftCode, BCode, SCode, RCode, CsrCode, SysCode;
    RegFits(rd);
    RegFits(src);
    CsrFits(csr);
  }

  lemma SfenceVmaAgrees(rs1: Reg, rs2: Reg)
    ensures Agrees(SfenceVma(rs1, rs2))
  {
    hide Ext64, Reg8, Reg5, Shamt8, Shamt6, Set8, Set4, Csr16, Csr12;
    hide ByteWord, HalfWord, RegWord, ShamtWord, SetWord, CsrWord;
    hide UType, JType, IType, ShiftType, BType, SType, RType, FenceType, CsrType, SfenceType;
    hide UCode, ICode, ShiftCode, BCode, SCode, RCode, CsrCode, SysCode;
    RegFits(rs1);
    RegFits(rs2);
  }

  lemma PlainAgrees(i: Instr)
    requires i.Sys? || i.FenceI? || i.LoadReserved? || i.Amo? || i.Fp? || i.Unimp?
    ensures Agrees(i)
  {
    hide Encode;
  }

  lemma AllAgree(i: Instr)
    ensures Agrees(i)
  {
    hide Agrees;
    match i
    case U(op, rd, imm) => UAgrees(op, rd, imm);
    case Jal(rd, imm) => JalAgrees(rd, imm);
    case I(op, rd, rs1, imm) => IAgrees(op, rd, rs1, imm);
    case Shift(op, rd, rs1, shamt) => ShiftAgrees(op, rd, rs1, shamt);
    case B(op, rs1, rs2, imm) => BAgrees(op, rs1, rs2, imm);
    case S(op, rs1, rs2, imm) => SAgrees(op, rs1, rs2, imm);
    case R(op, rd, rs1, rs2) => RAgrees(op, rd, rs1, rs2);
    case Fence(pred, succ) => FenceAgrees(pred, succ);
    case Csr(op, rd, src, csr) => CsrAgrees(op, rd, src, csr);
    case SfenceVma(rs1, rs2) => SfenceVmaAgrees(rs1, rs2);
    case _ => PlainAgrees(i);
  }

  lemma FitsBack(b: bv8)
    ensures b < 32 ==> Reg8(Reg5(b)) == b
    ensures b < 64 ==> Shamt8(Shamt6(b)) == b
    ensures b < 16 ==> Set8(Set4(b)) == b
  {}

  lemma CsrFitsBack(c: bv16)
    ensures c < 4096 ==> Csr16(Csr12(c)) == c
  {}

  lemma WidenNarrow(w: Wide)
    requires InRange(w)
    ensures Widen(Narrow(w)) == w
  {
    hide Reg8, Reg5, Shamt8, Shamt6, Set8, Set4, Csr16, Csr12, ByteWord, HalfWord, RegWord, ShamtWord, SetWord, CsrWord;
    match w
    case WideU(_, rd, _) => FitsBack(rd);
    case WideJal(rd, _) => FitsBack(rd);
    case WideI(_, rd, rs1, _) => FitsBack(rd); FitsBack(rs1);
    case WideShift(_, rd, rs1, shamt) => FitsBack(rd); FitsBack(rs1); FitsBack(shamt);
    case WideB(_, rs1, rs2, _) => FitsBack(rs1); FitsBack(rs2);
    case WideS(_, rs1, rs2, _) => FitsBack(rs1); FitsBack(rs2);
    case WideR(_, rd, rs1, rs2) => FitsBack(rd); FitsBack(rs1); FitsBack(rs2);
    case WideFence(pred, succ) => FitsBack(pred); FitsBack(succ);
    case WideCsr(_, rd, src, csr) => FitsBack(rd); FitsBack(src); CsrFitsBack(csr);
    case WideSfence(rs1, rs2) => FitsBack(rs1); FitsBack(rs2);
    case Plain(_) =>
  }

  /** With operands as wide as they come: an encoded instruction decodes to itself exactly when its operands
      are in range, the instruction is well-formed, and it is not a double-precision store. */
  lemma WideRoundTripExactly(w: Wide)
    requires EncodeWide(w).Some?
    ensures Widen(Decode(EncodeWide(w).value)) == w
       <==> InRange(w) && WellFormed(Narrow(w)) && !(w.WideS? && w.sop.Fsd?)
  {
    hide Decode, Encode, EncodeWide, Widen, Narrow, InRange, WellFormed;
    var i := Decode(EncodeWide(w).value);
    if Widen(i) == w {
      AllAgree(i);
      RoundTripExactly(i);
      StoreStays(i);
    }
    if InRange(w) {
      WidenNarrow(w);
      var n := Narrow(w);
      AllAgree(n);
      RoundTripExactly(n);
      StoreStays(n);
    }
  }

  lemma StoreStays(i: Instr)
    ensures Widen(i).WideS? == i.S? && (i.S? ==> Widen(i).sop == i.sop)
  {}
}
