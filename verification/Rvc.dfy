/**
 * The compressed instructions as chapter 16 of the unprivileged specification tabulates them: each form with
 * its operands, where their bits go in the halfword, and the 32-bit instruction it stands for.
 */
module Rvc {
  import opened Bytes
  import opened Instructions
  import opened Compressed

  datatype Width = Float | Word | Double
  datatype Arith = CSub | CXor | COr | CAnd | CSubw | CAddw
  datatype Immediate = CAddi | CAddiw | CLi

  /** A three-bit register operand names x8 to x15; an immediate operand is the number it stands for. */
  datatype Form =
    | Addi4spn(rdp: bv3, imm: bv32)
    | LoadFrom(width: Width, rdp: bv3, rs1p: bv3, imm: bv32)
    | StoreTo(width: Width, rs1p: bv3, rs2p: bv3, imm: bv32)
    | AddImmediate(iop: Immediate, rd: Reg, imm: bv32)
    | Addi16sp(imm: bv32)
    | LoadUpper(rd: Reg, imm: bv32)
    | ShiftRight(arithmetic: bool, rdp: bv3, shamt: bv6)
    | AndImmediate(rdp: bv3, imm: bv32)
    | ArithOn(aop: Arith, rdp: bv3, rs2p: bv3)
    | JumpBy(imm: bv32)
    | BranchBy(unequal: bool, rs1p: bv3, imm: bv32)
    | ShiftLeft(rd: Reg, shamt: bv6)
    | LoadSp(width: Width, rd: Reg, imm: bv32)
    | StoreSp(width: Width, rs2: Reg, imm: bv32)
    | JumpTo(link: bool, rs1: Reg)
    | Move(rd: Reg, rs2: Reg)
    | AddOnto(rd: Reg, rs2: Reg)
    | Break

  /** A signed number of `n` bits: the bits above are copies of the sign. */
  predicate SignedIn(imm: bv32, high: bv32) { imm & high == 0 || imm & high == high }

  /** Operands a form can have. */
  predicate Legal(f: Form) {
    match f
    case Addi4spn(_, imm) => imm != 0 && imm & 0xFFFF_FC03 == 0
    case LoadFrom(w, _, _, imm) => imm & (if w.Word? then 0xFFFF_FF83 else 0xFFFF_FF07) == 0
    case StoreTo(w, _, _, imm) => imm & (if w.Word? then 0xFFFF_FF83 else 0xFFFF_FF07) == 0
    case AddImmediate(_, _, imm) => SignedIn(imm, 0xFFFF_FFE0)
    case Addi16sp(imm) => imm & 0xF == 0 && SignedIn(imm, 0xFFFF_FE00)
    case LoadUpper(rd, imm) => rd != 2 && imm & 0xFFF == 0 && SignedIn(imm, 0xFFFE_0000)
    case AndImmediate(_, imm) => SignedIn(imm, 0xFFFF_FFE0)
    case JumpBy(imm) => imm & 1 == 0 && SignedIn(imm, 0xFFFF_F800)
    case BranchBy(_, _, imm) => imm & 1 == 0 && SignedIn(imm, 0xFFFF_FF00)
    case LoadSp(w, rd, imm) =>
      (w.Float? || rd != 0) && imm & (if w.Word? then 0xFFFF_FF03 else 0xFFFF_FE07) == 0
    case StoreSp(w, _, imm) => imm & (if w.Word? then 0xFFFF_FF03 else 0xFFFF_FE07) == 0
    case JumpTo(_, rs1) => rs1 != 0
    case Move(_, rs2) => rs2 != 0
    case AddOnto(_, rs2) => rs2 != 0
    case _ => true
  }

  /** The register a three-bit operand names. */
  function X(r: bv3): Reg { (r as Reg) | 8 }

  function LoadOpOf(w: Width): IOp { match w case Float => Fld case Word => Lw case Double => Ld }

  function StoreOpOf(w: Width): SOp { match w case Float => Fsd case Word => Sw case Double => Sd }

  function RegisterOpOf(op: Arith): ROp {
    match op case CSub => Sub case CXor => Xor case COr => Or case CAnd => And case CSubw => Subw case CAddw => Addw
  }

  /** What a form stands for. */
  function Meaning(f: Form): Instr {
    match f
    case Addi4spn(rd, imm) => I(Addi, X(rd), 2, imm)
    case LoadFrom(w, rd, rs1, imm) => I(LoadOpOf(w), X(rd), X(rs1), imm)
    case StoreTo(w, rs1, rs2, imm) => S(StoreOpOf(w), X(rs1), X(rs2), imm)
    case AddImmediate(op, rd, imm) =>
      I(if op.CAddiw? then Addiw else Addi, rd, if op.CLi? then 0 else rd, imm)
    case Addi16sp(imm) => I(Addi, 2, 2, imm)
    case LoadUpper(rd, imm) => U(Lui, rd, imm)
    case ShiftRight(arithmetic, rd, shamt) => Shift(if arithmetic then Srai else Srli, X(rd), X(rd), shamt)
    case AndImmediate(rd, imm) => I(Andi, X(rd), X(rd), imm)
    case ArithOn(op, rd, rs2) => R(RegisterOpOf(op), X(rd), X(rd), X(rs2))
    case JumpBy(imm) => Jal(0, imm)
    case BranchBy(unequal, rs1, imm) => B(if unequal then Bne else Beq, X(rs1), 0, imm)
    case ShiftLeft(rd, shamt) => Shift(Slli, rd, rd, shamt)
    case LoadSp(w, rd, imm) => I(LoadOpOf(w), rd, 2, imm)
    case StoreSp(w, rs2, imm) => S(StoreOpOf(w), 2, rs2, imm)
    case JumpTo(link, rs1) => I(Jalr, if link then 1 else 0, rs1, 0)
    case Move(rd, rs2) => R(Add, rd, 0, rs2)
    case AddOnto(rd, rs2) => R(Add, rd, rd, rs2)
    case Break => Sys(Ebreak)
  }

  // ── Where the bits go ─────────────────────────────────────────────────────

  function AtRd(r: Reg): bv32 { (r as bv32) << 7 }

  function AtRs2(r: Reg): bv32 { (r as bv32) << 2 }

  function AtRs1p(r: bv3): bv32 { (r as bv32) << 7 }

  function AtRdp(r: bv3): bv32 { (r as bv32) << 2 }

  /** imm[5] in bit 12, imm[4:0] in bits 6:2. */
  function Six(imm: bv32): bv32 { (((imm >> 5) & 1) << 12) | ((imm & 0x1F) << 2) }

  /** imm[5:4|9:6|2|3] in bits 12:5. */
  function SpnBits(imm: bv32): bv32 {
    (((imm >> 4) & 3) << 11) | (((imm >> 6) & 0xF) << 7) | (((imm >> 2) & 1) << 6) | (((imm >> 3) & 1) << 5)
  }

  /** imm[5:3] in bits 12:10 and imm[2|6] in bits 6:5. */
  function WordBits(imm: bv32): bv32 {
    (((imm >> 3) & 7) << 10) | (((imm >> 2) & 1) << 6) | (((imm >> 6) & 1) << 5)
  }

  /** imm[5:3] in bits 12:10 and imm[7:6] in bits 6:5. */
  function DoubleBits(imm: bv32): bv32 { (((imm >> 3) & 7) << 10) | (((imm >> 6) & 3) << 5) }

  /** imm[9] in bit 12, imm[4|6|8:7|5] in bits 6:2. */
  function StackBits(imm: bv32): bv32 {
    (((imm >> 9) & 1) << 12) | (((imm >> 4) & 1) << 6) | (((imm >> 6) & 1) << 5) | (((imm >> 7) & 3) << 3)
    | (((imm >> 5) & 1) << 2)
  }

  /** imm[11|4|9:8|10|6|7|3:1|5] in bits 12:2. */
  function JumpBitsOf(imm: bv32): bv32 {
    (((imm >> 11) & 1) << 12) | (((imm >> 4) & 1) << 11) | (((imm >> 8) & 3) << 9) | (((imm >> 10) & 1) << 8)
    | (((imm >> 6) & 1) << 7) | (((imm >> 7) & 1) << 6) | (((imm >> 1) & 7) << 3) | (((imm >> 5) & 1) << 2)
  }

  /** imm[8|4:3] in bits 12:10, imm[7:6|2:1|5] in bits 6:2. */
  function BranchBits(imm: bv32): bv32 {
    (((imm >> 8) & 1) << 12) | (((imm >> 3) & 3) << 10) | (((imm >> 6) & 3) << 5) | (((imm >> 1) & 3) << 3)
    | (((imm >> 5) & 1) << 2)
  }

  /** imm[5] in bit 12; imm[4:2|7:6] in bits 6:2, or imm[4:3|8:6]. */
  function WordFromSp(imm: bv32): bv32 {
    (((imm >> 5) & 1) << 12) | (((imm >> 2) & 7) << 4) | (((imm >> 6) & 3) << 2)
  }

  function DoubleFromSp(imm: bv32): bv32 {
    (((imm >> 5) & 1) << 12) | (((imm >> 3) & 3) << 5) | (((imm >> 6) & 7) << 2)
  }

  /** imm[5:2|7:6] in bits 12:7, or imm[5:3|8:6]. */
  function WordToSp(imm: bv32): bv32 { (((imm >> 2) & 0xF) << 9) | (((imm >> 6) & 3) << 7) }

  function DoubleToSp(imm: bv32): bv32 { (((imm >> 3) & 7) << 10) | (((imm >> 6) & 7) << 7) }

  /** Bits 15:13 of a form. */
  function Top(f: Form): bv32 {
    match f
    case Addi4spn(_, _) => 0
    case LoadFrom(w, _, _, _) => Minor(w)
    case StoreTo(w, _, _, _) => StoreMinor(w)
    case AddImmediate(op, _, _) => if op.CAddi? then 0 else if op.CAddiw? then 1 else 2
    case Addi16sp(_) => 3
    case LoadUpper(_, _) => 3
    case ShiftRight(_, _, _) => 4
    case AndImmediate(_, _) => 4
    case ArithOn(_, _, _) => 4
    case JumpBy(_) => 5
    case BranchBy(unequal, _, _) => if unequal then 7 else 6
    case ShiftLeft(_, _) => 0
    case LoadSp(w, _, _) => Minor(w)
    case StoreSp(w, _, _) => StoreMinor(w)
    case JumpTo(_, _) => 4
    case Move(_, _) => 4
    case AddOnto(_, _) => 4
    case Break => 4
  }

  /** Loads and stores of a width. */
  function Minor(w: Width): bv32 { match w case Float => 1 case Word => 2 case Double => 3 }

  function StoreMinor(w: Width): bv32 { match w case Float => 5 case Word => 6 case Double => 7 }

  /** Bits 12, 11:10 and 6:5 of register arithmetic. */
  function ArithCode(op: Arith): bv32 {
    match op
    case CSub => 0x0C01
    case CXor => 0x0C21
    case COr => 0x0C41
    case CAnd => 0x0C61
    case CSubw => 0x1C01
    case CAddw => 0x1C21
  }

  function LowWord(r1: bv3, r2: bv3, imm: bv32): bv32 { WordBits(imm) | AtRs1p(r1) | AtRdp(r2) }

  function LowDouble(r1: bv3, r2: bv3, imm: bv32): bv32 { DoubleBits(imm) | AtRs1p(r1) | AtRdp(r2) }

  function LowSix(rd: Reg, imm: bv32): bv32 { 1 | Six(imm) | AtRd(rd) }

  function LowJump(imm: bv32): bv32 { 1 | JumpBitsOf(imm) }

  function LowBranch(r1: bv3, imm: bv32): bv32 { 1 | BranchBits(imm) | AtRs1p(r1) }

  function LowWordFromSp(rd: Reg, imm: bv32): bv32 { 2 | WordFromSp(imm) | AtRd(rd) }

  function LowDoubleFromSp(rd: Reg, imm: bv32): bv32 { 2 | DoubleFromSp(imm) | AtRd(rd) }

  function LowWordToSp(rs2: Reg, imm: bv32): bv32 { 2 | WordToSp(imm) | AtRs2(rs2) }

  function LowDoubleToSp(rs2: Reg, imm: bv32): bv32 { 2 | DoubleToSp(imm) | AtRs2(rs2) }

  function LowRight(code: bv32, rd: bv3, shamt: bv6): bv32 { code | Six(shamt as bv32) | AtRs1p(rd) }

  function LowAnd(rd: bv3, imm: bv32): bv32 { 0x801 | Six(imm) | AtRs1p(rd) }

  function LowLeft(rd: Reg, shamt: bv6): bv32 { 2 | Six(shamt as bv32) | AtRd(rd) }

  function LowStack(imm: bv32): bv32 { 0x101 | StackBits(imm) }

  function LowUpper(rd: Reg, imm: bv32): bv32 { 1 | Six(imm >> 12) | AtRd(rd) }

  /** Bits 12:0 of a form. */
  function Low(f: Form): bv32 {
    match f
    case Addi4spn(rd, imm) => SpnBits(imm) | AtRdp(rd)
    case LoadFrom(w, rd, rs1, imm) => if w.Word? then LowWord(rs1, rd, imm) else LowDouble(rs1, rd, imm)
    case StoreTo(w, rs1, rs2, imm) => if w.Word? then LowWord(rs1, rs2, imm) else LowDouble(rs1, rs2, imm)
    case AddImmediate(_, rd, imm) => LowSix(rd, imm)
    case Addi16sp(imm) => LowStack(imm)
    case LoadUpper(rd, imm) => LowUpper(rd, imm)
    case ShiftRight(arithmetic, rd, shamt) => LowRight(if arithmetic then 0x401 else 1, rd, shamt)
    case AndImmediate(rd, imm) => LowAnd(rd, imm)
    case ArithOn(op, rd, rs2) => ArithCode(op) | AtRs1p(rd) | AtRdp(rs2)
    case JumpBy(imm) => LowJump(imm)
    case BranchBy(_, rs1, imm) => LowBranch(rs1, imm)
    case ShiftLeft(rd, shamt) => LowLeft(rd, shamt)
    case LoadSp(w, rd, imm) => if w.Word? then LowWordFromSp(rd, imm) else LowDoubleFromSp(rd, imm)
    case StoreSp(w, rs2, imm) => if w.Word? then LowWordToSp(rs2, imm) else LowDoubleToSp(rs2, imm)
    case JumpTo(link, rs1) => (if link then 0x1002 else 2) | AtRd(rs1)
    case Move(rd, rs2) => 2 | AtRd(rd) | AtRs2(rs2)
    case AddOnto(rd, rs2) => 0x1002 | AtRd(rd) | AtRs2(rs2)
    case Break => 0x1002
  }

  /** A form as a halfword. */
  function Halfword(f: Form): bv32 { Joined(Top(f), Low(f)) }

  function Joined(top: bv32, low: bv32): bv32 { (top << 13) | low }

  function QuadrantOf(r: bv32): bv32 { r & 3 }

  function MinorOf(r: bv32): bv32 { (r >> 13) & 7 }

  // ── Fields ────────────────────────────────────────────────────────────────

  lemma TopBits(top: bv32, low: bv32)
    requires top < 8 && low < 0x2000
    ensures QuadrantOf(Joined(top, low)) == QuadrantOf(low) && MinorOf(Joined(top, low)) == top
    ensures Joined(top, low) < 0x1_0000
  {}

  /** The field functions of the expansion look below bit 13 only. */
  lemma WordFields(top: bv32, r1: bv3, r2: bv3, imm: bv32)
    requires top < 8
    ensures var low := LowWord(r1, r2, imm);
      low < 0x2000 && QuadrantOf(low) == 0 && WordOffset(Joined(top, low)) == imm & 0x7C
  {}

  lemma WordRegisters(top: bv32, r1: bv3, r2: bv3, imm: bv32)
    requires top < 8
    ensures var r := Joined(top, LowWord(r1, r2, imm));
      Popular7(r) == X(r1) && Popular2(r) == X(r2)
  {}

  lemma DoubleFields(top: bv32, r1: bv3, r2: bv3, imm: bv32)
    requires top < 8
    ensures var low := LowDouble(r1, r2, imm);
      low < 0x2000 && QuadrantOf(low) == 0 && DoubleOffset(Joined(top, low)) == imm & 0xF8
  {}

  lemma DoubleRegisters(top: bv32, r1: bv3, r2: bv3, imm: bv32)
    requires top < 8
    ensures var r := Joined(top, LowDouble(r1, r2, imm));
      Popular7(r) == X(r1) && Popular2(r) == X(r2)
  {}

  lemma SixFields(top: bv32, rd: Reg, imm: bv32)
    requires top < 8
    ensures var low := LowSix(rd, imm);
      low < 0x2000 && QuadrantOf(low) == 1 && Full7(Joined(top, low)) == rd && Imm6(Joined(top, low)) == imm & 0x3F
  {}

  lemma JumpFields(imm: bv32)
    ensures LowJump(imm) < 0x2000 && QuadrantOf(LowJump(imm)) == 1
    ensures imm & 0xFFFF_F801 == 0 ==> JumpOffset(Joined(5, LowJump(imm))) == imm
  {}

  lemma BackwardJump(imm: bv32)
    ensures imm & 0xFFFF_F801 == 0xFFFF_F800 ==> JumpOffset(Joined(5, LowJump(imm))) == imm
  {}

  lemma BranchFields(top: bv32, r1: bv3, imm: bv32)
    requires top < 8
    ensures var low := LowBranch(r1, imm);
      && low < 0x2000 && QuadrantOf(low) == 1
      && (imm & 0xFFFF_FF01 == 0 ==> BranchOffset(Joined(top, low)) == imm)
      && (imm & 0xFFFF_FF01 == 0xFFFF_FF00 ==> BranchOffset(Joined(top, low)) == imm)
  {}

  lemma BranchRegister(top: bv32, r1: bv3, imm: bv32)
    requires top < 8
    ensures Popular7(Joined(top, LowBranch(r1, imm))) == X(r1)
  {}

  /** The offset a word load or store through the stack pointer is given. */
  function WordSpLoad(r: bv32): bv32 { (((r >> 12) & 1) << 5) | (((r >> 4) & 7) << 2) | (((r >> 2) & 3) << 6) }

  function WordSpStore(r: bv32): bv32 { (((r >> 9) & 0xF) << 2) | (((r >> 7) & 3) << 6) }

  function DoubleSpStore(r: bv32): bv32 { (((r >> 10) & 7) << 3) | (((r >> 7) & 7) << 6) }

  lemma WordSpFields(top: bv32, rd: Reg, imm: bv32)
    requires top < 8
    ensures var low := LowWordFromSp(rd, imm);
      low < 0x2000 && QuadrantOf(low) == 2 && WordSpLoad(Joined(top, low)) == imm & 0xFC
    ensures var low := LowWordToSp(rd, imm);
      low < 0x2000 && QuadrantOf(low) == 2 && WordSpStore(Joined(top, low)) == imm & 0xFC
  {}

  lemma DoubleSpFields(top: bv32, rd: Reg, imm: bv32)
    requires top < 8
    ensures var low := LowDoubleFromSp(rd, imm);
      low < 0x2000 && QuadrantOf(low) == 2 && StackDouble(Joined(top, low)) == imm & 0x1F8
    ensures var low := LowDoubleToSp(rd, imm);
      low < 0x2000 && QuadrantOf(low) == 2 && DoubleSpStore(Joined(top, low)) == imm & 0x1F8
  {}

  lemma SpRegisters(top: bv32, rd: Reg, imm: bv32)
    requires top < 8
    ensures Full7(Joined(top, LowWordFromSp(rd, imm))) == rd
    ensures Full7(Joined(top, LowDoubleFromSp(rd, imm))) == rd
    ensures Full2(Joined(top, LowWordToSp(rd, imm))) == rd
    ensures Full2(Joined(top, LowDoubleToSp(rd, imm))) == rd
  {}

  // ── Immediates ────────────────────────────────────────────────────────────

  lemma Aligned(imm: bv32)
    ensures imm & 0xFFFF_FF83 == 0 ==> imm & 0x7C == imm
    ensures imm & 0xFFFF_FF07 == 0 ==> imm & 0xF8 == imm
    ensures imm & 0xFFFF_FF03 == 0 ==> imm & 0xFC == imm
    ensures imm & 0xFFFF_FE07 == 0 ==> imm & 0x1F8 == imm
  {}

  lemma SixBits(imm: bv32)
    requires SignedIn(imm, 0xFFFF_FFE0)
    ensures Sext6(imm & 0x3F) == imm
  {}

  lemma EvenJump(imm: bv32)
    requires imm & 1 == 0 && SignedIn(imm, 0xFFFF_F800)
    ensures imm & 0xFFFF_F801 == 0 || imm & 0xFFFF_F801 == 0xFFFF_F800
  {}

  lemma EvenBranch(imm: bv32)
    requires imm & 1 == 0 && SignedIn(imm, 0xFFFF_FF00)
    ensures imm & 0xFFFF_FF01 == 0 || imm & 0xFFFF_FF01 == 0xFFFF_FF00
  {}

  // ── The arms of the expansion ─────────────────────────────────────────────

  lemma Quadrants(raw: bv16)
    ensures QuadrantOf(raw as bv32) == 0 ==> Decompress(raw) == Quadrant0(raw as bv32)
    ensures QuadrantOf(raw as bv32) == 1 ==> Decompress(raw) == Quadrant1(raw as bv32)
    ensures QuadrantOf(raw as bv32) == 2 ==> Decompress(raw) == Quadrant2(raw as bv32)
    ensures QuadrantOf(raw as bv32) == 3 ==> Decompress(raw) == None
  {
    hide Quadrant0, Quadrant1, Quadrant2;
  }

  lemma MemoryArms(r: bv32, w: Width)
    ensures MinorOf(r) == Minor(w) ==>
      Quadrant0(r) == Some(I(LoadOpOf(w), Popular2(r), Popular7(r), if w.Word? then WordOffset(r) else DoubleOffset(r)))
    ensures MinorOf(r) == StoreMinor(w) ==>
      Quadrant0(r)
      == Some(S(StoreOpOf(w), Popular7(r), Popular2(r), if w.Word? then WordOffset(r) else DoubleOffset(r)))
  {
    hide WordOffset, DoubleOffset, ByteOffset, HalfOffset, Popular2, Popular7;
  }

  lemma Quadrant1Arms(r: bv32)
    ensures MinorOf(r) == 0 ==> Quadrant1(r) == Some(I(Addi, Full7(r), Full7(r), Sext6(Imm6(r))))
    ensures MinorOf(r) == 1 ==> Quadrant1(r) == Some(I(Addiw, Full7(r), Full7(r), Sext6(Imm6(r))))
    ensures MinorOf(r) == 2 ==> Quadrant1(r) == Some(I(Addi, Full7(r), 0, Sext6(Imm6(r))))
    ensures MinorOf(r) == 4 ==> Quadrant1(r) == Arithmetic(r)
    ensures MinorOf(r) == 5 ==> Quadrant1(r) == Some(Jal(0, JumpOffset(r)))
    ensures MinorOf(r) == 6 ==> Quadrant1(r) == Some(B(Beq, Popular7(r), 0, BranchOffset(r)))
    ensures MinorOf(r) == 7 ==> Quadrant1(r) == Some(B(Bne, Popular7(r), 0, BranchOffset(r)))
  {
    hide Sext6, Sext10, Sext18, Imm6, Popular2, Popular7, Full2, Full7, JumpOffset, BranchOffset, Arithmetic;
  }

  lemma SpArms(r: bv32, w: Width)
    ensures MinorOf(r) == Minor(w) && (w.Float? || Full7(r) != 0) ==>
      Quadrant2(r) == Some(I(LoadOpOf(w), Full7(r), 2, if w.Word? then WordSpLoad(r) else StackDouble(r)))
    ensures MinorOf(r) == StoreMinor(w) ==>
      Quadrant2(r) == Some(S(StoreOpOf(w), 2, Full2(r), if w.Word? then WordSpStore(r) else DoubleSpStore(r)))
  {
    hide StackDouble, Full2, Full7, JumpOrAdd, Shamt;
  }

  // ── Each form stands for what the table says ──────────────────────────────

  /** A halfword that is the form `f`. */
  predicate IsForm(raw: bv16, f: Form) { Legal(f) && raw as bv32 == Halfword(f) }

  lemma MemoryExpands(raw: bv16, f: Form)
    requires IsForm(raw, f) && (f.LoadFrom? || f.StoreTo?)
    ensures Decompress(raw) == Some(Meaning(f))
  {
    hide LowWord, LowDouble, WordOffset, DoubleOffset, Popular2, Popular7, X, Decompress, Quadrant0;
    hide Joined, QuadrantOf, MinorOf;
    var r1, r2 := f.rs1p, if f.LoadFrom? then f.rdp else f.rs2p;
    WordFields(Top(f), r1, r2, f.imm);
    WordRegisters(Top(f), r1, r2, f.imm);
    DoubleFields(Top(f), r1, r2, f.imm);
    DoubleRegisters(Top(f), r1, r2, f.imm);
    Aligned(f.imm);
    TopBits(Top(f), Low(f));
    Quadrants(raw);
    MemoryArms(raw as bv32, f.width);
  }

  lemma ImmediateExpands(raw: bv16, f: Form)
    requires IsForm(raw, f) && f.AddImmediate?
    ensures Decompress(raw) == Some(Meaning(f))
  {
    hide LowSix, Full7, Imm6, Sext6, SignedIn, Decompress, Quadrant1, Joined, QuadrantOf, MinorOf;
    hide JumpOffset, BranchOffset, Popular7, Arithmetic;
    SixFields(Top(f), f.rd, f.imm);
    SixBits(f.imm);
    TopBits(Top(f), Low(f));
    Quadrants(raw);
    Quadrant1Arms(raw as bv32);
  }

  lemma JumpDecodes(raw: bv16, imm: bv32)
    requires imm & 0xFFFF_F801 == 0 || imm & 0xFFFF_F801 == 0xFFFF_F800
    requires raw as bv32 == Joined(5, LowJump(imm))
    ensures Decompress(raw) == Some(Jal(0, imm))
  {
    hide LowJump, JumpOffset, BranchOffset, Decompress, Quadrant1, Joined, QuadrantOf, MinorOf;
    hide Sext6, Imm6, Full7, Popular7, Arithmetic;
    JumpFields(imm);
    BackwardJump(imm);
    TopBits(5, LowJump(imm));
    Quadrants(raw);
    Quadrant1Arms(raw as bv32);
  }

  lemma JumpExpands(raw: bv16, f: Form)
    requires IsForm(raw, f) && f.JumpBy?
    ensures Decompress(raw) == Some(Meaning(f))
  {
    hide LowJump, SignedIn, Decompress, Joined;
    EvenJump(f.imm);
    JumpDecodes(raw, f.imm);
  }

  lemma BranchDecodes(raw: bv16, unequal: bool, r1: bv3, imm: bv32)
    requires imm & 0xFFFF_FF01 == 0 || imm & 0xFFFF_FF01 == 0xFFFF_FF00
    requires raw as bv32 == Joined(if unequal then 7 else 6, LowBranch(r1, imm))
    ensures Decompress(raw) == Some(B(if unequal then Bne else Beq, X(r1), 0, imm))
  {
    hide LowBranch, JumpOffset, BranchOffset, Decompress, Quadrant1, Joined, QuadrantOf, MinorOf;
    hide Sext6, Imm6, Full7, Popular7, X, Arithmetic;
    var top: bv32 := if unequal then 7 else 6;
    BranchFields(top, r1, imm);
    BranchRegister(top, r1, imm);
    TopBits(top, LowBranch(r1, imm));
    Quadrants(raw);
    Quadrant1Arms(raw as bv32);
  }

  lemma BranchExpands(raw: bv16, f: Form)
    requires IsForm(raw, f) && f.BranchBy?
    ensures Decompress(raw) == Some(Meaning(f))
  {
    hide LowBranch, SignedIn, Decompress, Joined, X;
    EvenBranch(f.imm);
    if f.unequal {
      BranchDecodes(raw, true, f.rs1p, f.imm);
    } else {
      BranchDecodes(raw, false, f.rs1p, f.imm);
    }
  }

  lemma SpLoadExpands(raw: bv16, f: Form)
    requires IsForm(raw, f) && f.LoadSp?
    ensures Decompress(raw) == Some(Meaning(f))
  {
    hide LowWordFromSp, LowDoubleFromSp, LowWordToSp, LowDoubleToSp, Full7, Full2, StackDouble, WordSpLoad;
    hide WordSpStore, DoubleSpStore, Decompress, Quadrant2, Joined, QuadrantOf, MinorOf;
    WordSpFields(Top(f), f.rd, f.imm);
    DoubleSpFields(Top(f), f.rd, f.imm);
    SpRegisters(Top(f), f.rd, f.imm);
    Aligned(f.imm);
    TopBits(Top(f), Low(f));
    Quadrants(raw);
    SpArms(raw as bv32, f.width);
  }

  lemma SpStoreExpands(raw: bv16, f: Form)
    requires IsForm(raw, f) && f.StoreSp?
    ensures Decompress(raw) == Some(Meaning(f))
  {
    hide LowWordFromSp, LowDoubleFromSp, LowWordToSp, LowDoubleToSp, Full7, Full2, StackDouble, WordSpLoad;
    hide WordSpStore, DoubleSpStore, Decompress, Quadrant2, Joined, QuadrantOf, MinorOf;
    WordSpFields(Top(f), f.rs2, f.imm);
    DoubleSpFields(Top(f), f.rs2, f.imm);
    SpRegisters(Top(f), f.rs2, f.imm);
    Aligned(f.imm);
    TopBits(Top(f), Low(f));
    Quadrants(raw);
    SpArms(raw as bv32, f.width);
  }

  lemma Addi4spnExpands(raw: bv16, f: Form)
    requires IsForm(raw, f) && f.Addi4spn?
    ensures Decompress(raw) == Some(Meaning(f))
  {}

  lemma Addi16spExpands(raw: bv16, f: Form)
    requires IsForm(raw, f) && f.Addi16sp?
    ensures Decompress(raw) == Some(Meaning(f))
  {}

  lemma LoadUpperExpands(raw: bv16, f: Form)
    requires IsForm(raw, f) && f.LoadUpper?
    ensures Decompress(raw) == Some(Meaning(f))
  {}

  lemma ShiftRightExpands(raw: bv16, f: Form)
    requires IsForm(raw, f) && f.ShiftRight?
    ensures Decompress(raw) == Some(Meaning(f))
  {}

  lemma AndImmediateExpands(raw: bv16, f: Form)
    requires IsForm(raw, f) && f.AndImmediate?
    ensures Decompress(raw) == Some(Meaning(f))
  {}

  lemma ShiftLeftExpands(raw: bv16, f: Form)
    requires IsForm(raw, f) && f.ShiftLeft?
    ensures Decompress(raw) == Some(Meaning(f))
  {}

  lemma ArithExpands(raw: bv16, f: Form)
    requires IsForm(raw, f) && f.ArithOn?
    ensures Decompress(raw) == Some(Meaning(f))
  {}

  lemma JumpToExpands(raw: bv16, f: Form)
    requires IsForm(raw, f) && f.JumpTo?
    ensures Decompress(raw) == Some(Meaning(f))
  {}

  lemma MoveExpands(raw: bv16, f: Form)
    requires IsForm(raw, f) && f.Move?
    ensures Decompress(raw) == Some(Meaning(f))
  {}

  lemma AddOntoExpands(raw: bv16, f: Form)
    requires IsForm(raw, f) && f.AddOnto?
    ensures Decompress(raw) == Some(Meaning(f))
  {}

  lemma BreakExpands(raw: bv16, f: Form)
    requires IsForm(raw, f) && f.Break?
    ensures Decompress(raw) == Some(Meaning(f))
  {}

  /** The forms that name x8 to x15, and the others. */
  predicate Narrow(f: Form) {
    || f.Addi4spn? || f.LoadFrom? || f.StoreTo? || f.ShiftRight? || f.AndImmediate? || f.ArithOn? || f.BranchBy?
  }

  lemma NarrowExpand(raw: bv16, f: Form)
    requires IsForm(raw, f) && Narrow(f)
    ensures Decompress(raw) == Some(Meaning(f))
  {
    hide IsForm, Meaning, Decompress;
    if f.Addi4spn? { Addi4spnExpands(raw, f); }
    else if f.ShiftRight? { ShiftRightExpands(raw, f); }
    else if f.AndImmediate? { AndImmediateExpands(raw, f); }
    else if f.ArithOn? { ArithExpands(raw, f); }
    else if f.BranchBy? { BranchExpands(raw, f); }
    else { MemoryExpands(raw, f); }
  }

  lemma WideExpand(raw: bv16, f: Form)
    requires IsForm(raw, f) && !Narrow(f)
    ensures Decompress(raw) == Some(Meaning(f))
  {
    hide IsForm, Meaning, Decompress;
    if f.AddImmediate? { ImmediateExpands(raw, f); }
    else if f.Addi16sp? { Addi16spExpands(raw, f); }
    else if f.LoadUpper? { LoadUpperExpands(raw, f); }
    else if f.JumpBy? { JumpExpands(raw, f); }
    else if f.ShiftLeft? { ShiftLeftExpands(raw, f); }
    else if f.JumpTo? { JumpToExpands(raw, f); }
    else if f.Move? { MoveExpands(raw, f); }
    else if f.AddOnto? { AddOntoExpands(raw, f); }
    else if f.Break? { BreakExpands(raw, f); }
    else if f.LoadSp? { SpLoadExpands(raw, f); }
    else { SpStoreExpands(raw, f); }
  }

  /** Every form of the table, with every operand it can have, expands to the instruction it stands for. */
  lemma FormsExpand(raw: bv16, f: Form)
    requires IsForm(raw, f)
    ensures Decompress(raw) == Some(Meaning(f))
  {
    hide IsForm, Meaning, Decompress, Narrow;
    if Narrow(f) { NarrowExpand(raw, f); } else { WideExpand(raw, f); }
  }

  // ── The halfwords that are refused ────────────────────────────────────────

  lemma NoneInQuadrant0(r: bv32)
    requires r < 0x1_0000 && r & 3 == 0
    ensures Quadrant0(r).None? <==> r & 0xFFE3 == 0
  {
    hide WordOffset, DoubleOffset, ByteOffset, HalfOffset, Popular2, Popular7;
  }

  lemma NoneInQuadrant1(r: bv32)
    requires r < 0x1_0000 && r & 3 == 1
    ensures Quadrant1(r).None? <==> r & 0xFC43 == 0x9C41
  {
    hide Sext6, Sext10, Sext18, Imm6, Shamt, Popular2, Popular7, Full2, Full7, JumpOffset, BranchOffset;
  }

  lemma NoneInQuadrant2(r: bv32)
    requires r < 0x1_0000 && r & 3 == 2
    ensures Quadrant2(r).None? <==> r & 0xEF83 == 0x4002 || r & 0xEF83 == 0x6002 || r == 0x8002
  {
    hide StackDouble, Shamt;
  }

  /** Exactly these expand to nothing: the ones of 32-bit instructions, a stack address of no offset (all zeros
      among them), the two unused arithmetic codes, loads through the stack pointer into x0, and a jump to x0. */
  lemma RefusedExactly(raw: bv16)
    ensures var r := raw as bv32;
      Decompress(raw).None?
      <==> || r & 3 == 3 || r & 0xFFE3 == 0 || r & 0xFC43 == 0x9C41
           || r & 0xEF83 == 0x4002 || r & 0xEF83 == 0x6002 || r == 0x8002
  {
    var r := raw as bv32;
    assert r < 0x1_0000;
    assert r & 3 == 0 ==> r & 0xFC43 != 0x9C41 && r & 0xEF83 != 0x4002 && r & 0xEF83 != 0x6002 && r != 0x8002;
    assert r & 3 == 1 ==> r & 0xFFE3 != 0 && r & 0xEF83 != 0x4002 && r & 0xEF83 != 0x6002 && r != 0x8002;
    assert r & 3 == 2 ==> r & 0xFFE3 != 0 && r & 0xFC43 != 0x9C41;
    hide Quadrant0, Quadrant1, Quadrant2;
    if r & 3 == 0 {
      NoneInQuadrant0(r);
    } else if r & 3 == 1 {
      NoneInQuadrant1(r);
    } else if r & 3 == 2 {
      NoneInQuadrant2(r);
    }
  }

  // ── The table leaves nothing out ──────────────────────────────────────────

  lemma JoinedBack(r: bv32)
    requires r < 0x1_0000
    ensures Joined(MinorOf(r), r & 0x1FFF) == r
  {}

  function Narrow2(r: bv32): bv3 { ((r >> 2) & 7) as bv3 }

  function Narrow7(r: bv32): bv3 { ((r >> 7) & 7) as bv3 }

  function SpnOffset(r: bv32): bv32 {
    (((r >> 6) & 1) << 2) | (((r >> 5) & 1) << 3) | (((r >> 11) & 3) << 4) | (((r >> 7) & 0xF) << 6)
  }

  function StackOffset(r: bv32): bv32 {
    Sext10((((r >> 12) & 1) << 9) | (((r >> 3) & 3) << 7) | (((r >> 5) & 1) << 6) | (((r >> 2) & 1) << 5)
           | (((r >> 6) & 1) << 4))
  }

  function UpperOffset(r: bv32): bv32 { Sext18((((r >> 12) & 1) << 17) | (((r >> 2) & 0x1F) << 12)) }

  lemma SpnBack(r: bv32)
    requires r < 0x1_0000 && r & 3 == 0
    ensures SpnBits(SpnOffset(r)) | AtRdp(Narrow2(r)) == r & 0x1FFF && SpnOffset(r) & 0xFFFF_FC03 == 0
    ensures r & 0xFFE3 != 0 && MinorOf(r) == 0 ==> SpnOffset(r) != 0
  {}

  lemma WordBack(r: bv32)
    requires r & 3 == 0
    ensures LowWord(Narrow7(r), Narrow2(r), WordOffset(r)) == r & 0x1FFF && WordOffset(r) & 0xFFFF_FF83 == 0
  {}

  lemma DoubleBack(r: bv32)
    requires r & 3 == 0
    ensures LowDouble(Narrow7(r), Narrow2(r), DoubleOffset(r)) == r & 0x1FFF && DoubleOffset(r) & 0xFFFF_FF07 == 0
  {}

  lemma SixBack(r: bv32)
    requires r & 3 == 1
    ensures LowSix(Full7(r), Sext6(Imm6(r))) == r & 0x1FFF && SignedIn(Sext6(Imm6(r)), 0xFFFF_FFE0)
  {}

  lemma StackBack(r: bv32)
    requires r & 3 == 1 && Full7(r) == 2
    ensures LowStack(StackOffset(r)) == r & 0x1FFF
    ensures StackOffset(r) & 0xF == 0 && SignedIn(StackOffset(r), 0xFFFF_FE00)
  {}

  lemma UpperBack(r: bv32)
    requires r & 3 == 1
    ensures LowUpper(Full7(r), UpperOffset(r)) == r & 0x1FFF
    ensures UpperOffset(r) & 0xFFF == 0 && SignedIn(UpperOffset(r), 0xFFFE_0000)
  {}

  lemma ShiftBack(r: bv32)
    requires r & 3 == 1
    ensures LowRight(r & 0xC01, Narrow7(r), Shamt(r)) == r & 0x1FFF
  {}

  lemma AndBack(r: bv32)
    requires r & 3 == 1 && r & 0xC00 == 0x800
    ensures LowAnd(Narrow7(r), Sext6(Imm6(r))) == r & 0x1FFF
  {}

  lemma ArithBack(r: bv32)
    requires r & 3 == 1 && r & 0xC00 == 0xC00
    ensures (r & 0x1C63) | AtRs1p(Narrow7(r)) | AtRdp(Narrow2(r)) == r & 0x1FFF
  {}

  lemma JumpBack(r: bv32)
    requires r & 3 == 1
    ensures LowJump(JumpOffset(r)) == r & 0x1FFF
  {}

  lemma BranchBack(r: bv32)
    requires r & 3 == 1
    ensures LowBranch(Narrow7(r), BranchOffset(r)) == r & 0x1FFF
  {}

  lemma OffsetsAreSigned(r: bv32)
    ensures SignedIn(BranchOffset(r), 0xFFFF_FF00) && BranchOffset(r) & 1 == 0
  {}

  lemma JumpIsSigned(r: bv32)
    ensures SignedIn(JumpOffset(r), 0xFFFF_F800) && JumpOffset(r) & 1 == 0
  {
    JumpFits(r);
    JumpOffsetIsScrambled(r);
    hide JumpOffset, Sext21;
    assert Has(r, 0x1000) || !Has(r, 0x1000);
  }

  lemma LeftBack(r: bv32)
    requires r & 3 == 2
    ensures LowLeft(Full7(r), Shamt(r)) == r & 0x1FFF
  {}

  lemma FromSpBack(r: bv32)
    requires r & 3 == 2
    ensures LowWordFromSp(Full7(r), WordSpLoad(r)) == r & 0x1FFF && WordSpLoad(r) & 0xFFFF_FF03 == 0
    ensures LowDoubleFromSp(Full7(r), StackDouble(r)) == r & 0x1FFF && StackDouble(r) & 0xFFFF_FE07 == 0
  {}

  lemma ToSpBack(r: bv32)
    requires r & 3 == 2
    ensures LowWordToSp(Full2(r), WordSpStore(r)) == r & 0x1FFF && WordSpStore(r) & 0xFFFF_FF03 == 0
    ensures LowDoubleToSp(Full2(r), DoubleSpStore(r)) == r & 0x1FFF && DoubleSpStore(r) & 0xFFFF_FE07 == 0
  {}

  lemma RegistersBack(r: bv32)
    requires r & 3 == 2
    ensures (r & 0x1002) | AtRd(Full7(r)) | AtRs2(Full2(r)) == r & 0x1FFF
    ensures Full2(r) == 0 ==> (r & 0x1002) | AtRd(Full7(r)) == r & 0x1FFF
    ensures Full2(r) == 0 && Full7(r) == 0 ==> r & 0x1FFF == r & 0x1002
  {}

  lemma SpnForm(r: bv32) returns (f: Form)
    requires r < 0x1_0000 && r & 3 == 0 && r & 0xFFE3 != 0 && MinorOf(r) == 0
    ensures Legal(f) && Halfword(f) == r
  {
    hide SpnBits, AtRdp, SpnOffset, Narrow2, Joined, MinorOf;
    SpnBack(r);
    JoinedBack(r);
    f := Addi4spn(Narrow2(r), SpnOffset(r));
  }

  lemma MemoryForm(r: bv32, w: Width, store: bool) returns (f: Form)
    requires r < 0x1_0000 && r & 3 == 0 && MinorOf(r) == if store then StoreMinor(w) else Minor(w)
    ensures Legal(f) && Halfword(f) == r
  {
    hide LowWord, LowDouble, WordOffset, DoubleOffset, Narrow2, Narrow7, Joined, MinorOf;
    WordBack(r);
    DoubleBack(r);
    JoinedBack(r);
    var imm := if w.Word? then WordOffset(r) else DoubleOffset(r);
    f := if store then StoreTo(w, Narrow7(r), Narrow2(r), imm) else LoadFrom(w, Narrow2(r), Narrow7(r), imm);
  }

  lemma SixForm(r: bv32, op: Immediate) returns (f: Form)
    requires r < 0x1_0000 && r & 3 == 1 && MinorOf(r) == if op.CAddi? then 0 else if op.CAddiw? then 1 else 2
    ensures Legal(f) && Halfword(f) == r
  {
    hide LowSix, Sext6, Imm6, Full7, SignedIn, Joined, MinorOf;
    SixBack(r);
    JoinedBack(r);
    f := AddImmediate(op, Full7(r), Sext6(Imm6(r)));
  }

  lemma UpperForm(r: bv32) returns (f: Form)
    requires r < 0x1_0000 && r & 3 == 1 && MinorOf(r) == 3
    ensures Legal(f) && Halfword(f) == r
  {
    hide LowStack, LowUpper, StackOffset, UpperOffset, Full7, SignedIn, Joined, MinorOf;
    JoinedBack(r);
    if Full7(r) == 2 {
      StackBack(r);
      f := Addi16sp(StackOffset(r));
    } else {
      UpperBack(r);
      f := LoadUpper(Full7(r), UpperOffset(r));
    }
  }

  lemma JumpForm(r: bv32) returns (f: Form)
    requires r < 0x1_0000 && r & 3 == 1 && (MinorOf(r) == 5 || MinorOf(r) == 6 || MinorOf(r) == 7)
    ensures Legal(f) && Halfword(f) == r
  {
    hide LowJump, LowBranch, JumpOffset, BranchOffset, Narrow7, SignedIn, Joined, MinorOf;
    JoinedBack(r);
    if MinorOf(r) == 5 {
      JumpBack(r);
      JumpIsSigned(r);
      f := JumpBy(JumpOffset(r));
    } else {
      BranchBack(r);
      OffsetsAreSigned(r);
      f := BranchBy(MinorOf(r) == 7, Narrow7(r), BranchOffset(r));
    }
  }

  lemma ShiftForm(r: bv32) returns (f: Form)
    requires r < 0x1_0000 && r & 3 == 1 && MinorOf(r) == 4 && r & 0xC00 != 0xC00
    ensures Legal(f) && Halfword(f) == r
  {
    assert r & 0xC00 == 0 || r & 0xC00 == 0x400 || r & 0xC00 == 0x800;
    assert r & 0xC01 == (r & 0xC00) | 1;
    hide LowRight, LowAnd, Shamt, Sext6, Imm6, Narrow7, SignedIn, Joined, MinorOf;
    JoinedBack(r);
    if r & 0xC00 == 0x800 {
      AndBack(r);
      SixIsSigned(r);
      f := AndImmediate(Narrow7(r), Sext6(Imm6(r)));
    } else {
      ShiftBack(r);
      f := ShiftRight(r & 0xC00 == 0x400, Narrow7(r), Shamt(r));
    }
  }

  lemma SixIsSigned(r: bv32)
    ensures SignedIn(Sext6(Imm6(r)), 0xFFFF_FFE0)
  {}

  lemma ArithForm(r: bv32) returns (f: Form)
    requires r < 0x1_0000 && r & 3 == 1 && MinorOf(r) == 4 && r & 0xC00 == 0xC00 && r & 0xFC43 != 0x9C41
    ensures Legal(f) && Halfword(f) == r
  {
    var code := r & 0x1C63;
    assert || code == 0x0C01 || code == 0x0C21 || code == 0x0C41 || code == 0x0C61 || code == 0x1C01 || code == 0x1C21;
    hide AtRs1p, AtRdp, Narrow7, Narrow2, Joined, MinorOf;
    JoinedBack(r);
    ArithBack(r);
    var op := if code == 0x0C01 then CSub else if code == 0x0C21 then CXor else if code == 0x0C41 then COr
              else if code == 0x0C61 then CAnd else if code == 0x1C01 then CSubw else CAddw;
    f := ArithOn(op, Narrow7(r), Narrow2(r));
  }

  lemma SpForm(r: bv32, w: Width, store: bool) returns (f: Form)
    requires r < 0x1_0000 && r & 3 == 2 && MinorOf(r) == if store then StoreMinor(w) else Minor(w)
    requires store || w.Float? || Full7(r) != 0
    ensures Legal(f) && Halfword(f) == r
  {
    hide LowWordFromSp, LowDoubleFromSp, LowWordToSp, LowDoubleToSp, WordSpLoad, WordSpStore, StackDouble;
    hide DoubleSpStore, Full2, Full7, Joined, MinorOf;
    FromSpBack(r);
    ToSpBack(r);
    JoinedBack(r);
    f := if store then StoreSp(w, Full2(r), if w.Word? then WordSpStore(r) else DoubleSpStore(r))
         else LoadSp(w, Full7(r), if w.Word? then WordSpLoad(r) else StackDouble(r));
  }

  lemma RegisterForm(r: bv32) returns (f: Form)
    requires r < 0x1_0000 && r & 3 == 2 && MinorOf(r) == 4 && r != 0x8002
    ensures Legal(f) && Halfword(f) == r
  {
    var code := r & 0x1002;
    assert code == 2 || code == 0x1002;
    RegistersBack(r);
    JoinedBack(r);
    assert code == 2 && Full2(r) == 0 ==> Full7(r) != 0;
    hide AtRd, AtRs2, Full2, Full7, Joined, MinorOf;
    if Full2(r) != 0 {
      f := if code == 2 then Move(Full7(r), Full2(r)) else AddOnto(Full7(r), Full2(r));
    } else if Full7(r) != 0 {
      f := JumpTo(code == 0x1002, Full7(r));
    } else {
      f := Break;
    }
  }

  lemma LeftForm(r: bv32) returns (f: Form)
    requires r < 0x1_0000 && r & 3 == 2 && MinorOf(r) == 0
    ensures Legal(f) && Halfword(f) == r
  {
    hide LowLeft, Shamt, Full7, Joined, MinorOf;
    LeftBack(r);
    JoinedBack(r);
    f := ShiftLeft(Full7(r), Shamt(r));
  }

  lemma FormOfQuadrant0(r: bv32) returns (f: Form)
    requires r < 0x1_0000 && r & 3 == 0 && r & 0xFFE3 != 0 && MinorOf(r) != 4
    ensures Legal(f) && Halfword(f) == r
  {
    var f3 := MinorOf(r);
    assert f3 == 0 || f3 == 1 || f3 == 2 || f3 == 3 || f3 == 5 || f3 == 6 || f3 == 7;
    hide Legal, Halfword, MinorOf;
    if f3 == 0 { f := SpnForm(r); }
    else if f3 == 1 { f := MemoryForm(r, Float, false); }
    else if f3 == 2 { f := MemoryForm(r, Word, false); }
    else if f3 == 3 { f := MemoryForm(r, Double, false); }
    else if f3 == 5 { f := MemoryForm(r, Float, true); }
    else if f3 == 6 { f := MemoryForm(r, Word, true); }
    else { f := MemoryForm(r, Double, true); }
  }

  lemma FormOfQuadrant1(r: bv32) returns (f: Form)
    requires r < 0x1_0000 && r & 3 == 1 && r & 0xFC43 != 0x9C41
    ensures Legal(f) && Halfword(f) == r
  {
    var f3 := MinorOf(r);
    assert f3 == 0 || f3 == 1 || f3 == 2 || f3 == 3 || f3 == 4 || f3 == 5 || f3 == 6 || f3 == 7;
    hide Legal, Halfword, MinorOf;
    if f3 == 0 { f := SixForm(r, CAddi); }
    else if f3 == 1 { f := SixForm(r, CAddiw); }
    else if f3 == 2 { f := SixForm(r, CLi); }
    else if f3 == 3 { f := UpperForm(r); }
    else if f3 == 4 { if r & 0xC00 == 0xC00 { f := ArithForm(r); } else { f := ShiftForm(r); } }
    else { f := JumpForm(r); }
  }

  lemma FormOfQuadrant2(r: bv32) returns (f: Form)
    requires r < 0x1_0000 && r & 3 == 2 && r & 0xEF83 != 0x4002 && r & 0xEF83 != 0x6002 && r != 0x8002
    ensures Legal(f) && Halfword(f) == r
  {
    var f3 := MinorOf(r);
    assert f3 == 0 || f3 == 1 || f3 == 2 || f3 == 3 || f3 == 4 || f3 == 5 || f3 == 6 || f3 == 7;
    assert f3 == 2 || f3 == 3 ==> Full7(r) != 0;
    hide Legal, Halfword, MinorOf, Full7;
    if f3 == 0 { f := LeftForm(r); }
    else if f3 == 1 { f := SpForm(r, Float, false); }
    else if f3 == 2 { f := SpForm(r, Word, false); }
    else if f3 == 3 { f := SpForm(r, Double, false); }
    else if f3 == 4 { f := RegisterForm(r); }
    else if f3 == 5 { f := SpForm(r, Float, true); }
    else if f3 == 6 { f := SpForm(r, Word, true); }
    else { f := SpForm(r, Double, true); }
  }

  /** Whatever expands, bytes and halfwords aside, is a form of the table, and expands to what that stands for. */
  lemma EveryExpansionIsAForm(raw: bv16) returns (f: Form)
    requires Decompress(raw).Some? && raw as bv32 & 0xE003 != 0x8000
    ensures IsForm(raw, f) && Decompress(raw) == Some(Meaning(f))
  {
    RefusedExactly(raw);
    var r := raw as bv32;
    assert r < 0x1_0000 && (r & 3 == 0 || r & 3 == 1 || r & 3 == 2 || r & 3 == 3);
    assert r & 3 == 0 && r & 0xE003 != 0x8000 ==> MinorOf(r) != 4;
    hide Decompress, Legal, Halfword, Meaning, MinorOf;
    if r & 3 == 0 { f := FormOfQuadrant0(r); }
    else if r & 3 == 1 { f := FormOfQuadrant1(r); }
    else { f := FormOfQuadrant2(r); }
    FormsExpand(raw, f);
  }

  // ── Bytes and halfwords ───────────────────────────────────────────────────

  /** The 16-bit loads and stores of Zcb as its specification lays them out. */
  datatype ByteForm =
    | CLbu(rdp: bv3, rs1p: bv3, imm: bv32)
    | CLhu(rdp: bv3, rs1p: bv3, imm: bv32)
    | CLh(rdp: bv3, rs1p: bv3, imm: bv32)
    | CSb(rs1p: bv3, rs2p: bv3, imm: bv32)
    | CSh(rs1p: bv3, rs2p: bv3, imm: bv32)

  predicate ByteLegal(f: ByteForm) { if f.CLbu? || f.CSb? then f.imm < 4 else f.imm == 0 || f.imm == 2 }

  function ByteMeaning(f: ByteForm): Instr {
    match f
    case CLbu(rd, rs1, imm) => I(Lbu, X(rd), X(rs1), imm)
    case CLhu(rd, rs1, imm) => I(Lhu, X(rd), X(rs1), imm)
    case CLh(rd, rs1, imm) => I(Lh, X(rd), X(rs1), imm)
    case CSb(rs1, rs2, imm) => S(Sb, X(rs1), X(rs2), imm)
    case CSh(rs1, rs2, imm) => S(Sh, X(rs1), X(rs2), imm)
  }

  /** imm[0|1] in bits 6:5. */
  function ByteBits(imm: bv32): bv32 { ((imm & 1) << 6) | (((imm >> 1) & 1) << 5) }

  /** imm[1] in bit 5. */
  function HalfBits(imm: bv32): bv32 { ((imm >> 1) & 1) << 5 }

  function ByteHalfword(f: ByteForm): bv32 {
    match f
    case CLbu(rd, rs1, imm) => 0x8000 | ByteBits(imm) | AtRs1p(rs1) | AtRdp(rd)
    case CLhu(rd, rs1, imm) => 0x8400 | HalfBits(imm) | AtRs1p(rs1) | AtRdp(rd)
    case CLh(rd, rs1, imm) => 0x8440 | HalfBits(imm) | AtRs1p(rs1) | AtRdp(rd)
    case CSb(rs1, rs2, imm) => 0x8800 | ByteBits(imm) | AtRs1p(rs1) | AtRdp(rs2)
    case CSh(rs1, rs2, imm) => 0x8C00 | HalfBits(imm) | AtRs1p(rs1) | AtRdp(rs2)
  }

  /** The source lays them out differently: only a byte load at offset 0 or 3 and a halfword store at offset 0
      mean there what they mean in Zcb. */
  lemma ByteFormsExpandExactly(raw: bv16, f: ByteForm)
    requires ByteLegal(f) && raw as bv32 == ByteHalfword(f)
    ensures Decompress(raw) == Some(ByteMeaning(f))
       <==> (f.CLbu? && (f.imm == 0 || f.imm == 3)) || (f.CSh? && f.imm == 0)
  {
  }

  /** What the source takes them for: bits 11:10 tell a byte load, a byte store, a halfword load and a halfword
      store apart, and bits 12, 6 and 5 are the offset, of which a halfword has two. */
  lemma BytesAsTheSourceHasThem(raw: bv16)
    requires raw as bv32 & 0xE003 == 0x8000
    ensures var r := raw as bv32;
      var (low, base) := ((((r >> 2) & 7) | 8) as Reg, (((r >> 7) & 7) | 8) as Reg);
      var (four, two, one) := ((r >> 12) & 1, (r >> 6) & 1, (r >> 5) & 1);
      Decompress(raw)
      == Some(if r & 0xC00 == 0 then I(Lbu, low, base, four * 4 + two * 2 + one)
              else if r & 0xC00 == 0x400 then S(Sb, base, low, four * 4 + two * 2 + one)
              else if r & 0xC00 == 0x800 then I(Lhu, low, base, four * 4 + two * 2)
              else S(Sh, base, low, four * 4 + two * 2))
  {
  }
}
