/**
 * RV64 instructions, their 32-bit encodings and the expansion of 16-bit ones. Register numbers are
 * five-bit values; immediates are 32-bit two's complement, of which the 64-bit ones are the sign
 * extension.
 */
module Instructions {
  import opened Bytes

  type Reg = bv5

  datatype UOp = Lui | Auipc
  datatype IOp =
    | Jalr | Lb | Lh | Lw | Ld | Lbu | Lhu | Lwu | Flw | Fld
    | Addi | Slti | Sltiu | Xori | Ori | Andi | Addiw
  datatype ShiftOp = Slli | Srli | Srai | Slliw | Srliw | Sraiw
  datatype BOp = Beq | Bne | Blt | Bge | Bltu | Bgeu
  datatype SOp = Sb | Sh | Sw | Sd | Fsw | Fsd
  datatype ROp =
    | Add | Sub | Sll | Slt | Sltu | Xor | Srl | Sra | Or | And
    | Mul | Mulh | Mulhsu | Mulhu | Div | Divu | Rem | Remu
    | Addw | Subw | Sllw | Srlw | Sraw | Mulw | Divw | Divuw | Remw | Remuw
  datatype SysOp = Ecall | Ebreak | Mret | Sret | Uret | Wfi
  datatype CsrOp = Csrrw | Csrrs | Csrrc | Csrrwi | Csrrsi | Csrrci
  datatype AmoOp = Sc | Swap | AmoAdd | AmoXor | AmoAnd | AmoOr | Min | Max | Minu | Maxu

  /** Grouped by format; `src` of a CSR instruction is a register or a five-bit immediate. */
  datatype Instr =
    | U(uop: UOp, rd: Reg, imm: bv32)
    | Jal(rd: Reg, imm: bv32)
    | I(iop: IOp, rd: Reg, rs1: Reg, imm: bv32)
    | Shift(shop: ShiftOp, rd: Reg, rs1: Reg, shamt: bv6)
    | B(bop: BOp, rs1: Reg, rs2: Reg, imm: bv32)
    | S(sop: SOp, rs1: Reg, rs2: Reg, imm: bv32)
    | R(rop: ROp, rd: Reg, rs1: Reg, rs2: Reg)
    | Sys(sys: SysOp)
    | Fence(pred: bv4, succ: bv4)
    | FenceI
    | Csr(cop: CsrOp, rd: Reg, src: Reg, csr: bv12)
    | SfenceVma(rs1: Reg, rs2: Reg)
    | LoadReserved(double: bool, rd: Reg, rs1: Reg, aq: bool, rl: bool)
    | Amo(amo: AmoOp, double: bool, rd: Reg, rs1: Reg, rs2: Reg, aq: bool, rl: bool)
    | Fp(raw: bv32)
    | Unimp

  // ── Immediates ────────────────────────────────────────────────────────────

  /** The low `n` bits of `v`, sign-extended. */
  function Sext12(v: bv32): bv32 { if v & 0x800 != 0 then v | 0xFFFF_F000 else v & 0xFFF }

  function Sext13(v: bv32): bv32 { if v & 0x1000 != 0 then v | 0xFFFF_E000 else v & 0x1FFF }

  function Sext21(v: bv32): bv32 { if v & 0x10_0000 != 0 then v | 0xFFE0_0000 else v & 0x1F_FFFF }

  /** Immediates an encoding can hold, and shift amounts the word forms can. */
  predicate WellFormed(i: Instr) {
    match i
    case U(_, _, imm) => imm & 0xFFF == 0
    case Jal(_, imm) => imm == Sext21(imm) && imm & 1 == 0
    case I(_, _, _, imm) => imm == Sext12(imm)
    case Shift(op, _, _, shamt) => op.Slli? || op.Srli? || op.Srai? || shamt & 0x20 == 0
    case B(_, _, _, imm) => imm == Sext13(imm) && imm & 1 == 0
    case S(_, _, _, imm) => imm == Sext12(imm)
    case _ => true
  }

  // ── Encoding ──────────────────────────────────────────────────────────────

  /** Operands as the words that are shifted into place. */
  function RegWord(r: Reg): bv32 { r as bv32 }

  function ShamtWord(s: bv6): bv32 { s as bv32 }

  function SetWord(s: bv4): bv32 { s as bv32 }

  function CsrWord(c: bv12): bv32 { c as bv32 }

  function RType(funct7: bv32, rs2: bv32, rs1: bv32, funct3: bv32, rd: bv32, opcode: bv32): bv32 {
    (funct7 << 25) | (rs2 << 20) | (rs1 << 15) | (funct3 << 12) | (rd << 7) | opcode
  }

  function IType(imm: bv32, rs1: bv32, funct3: bv32, rd: bv32, opcode: bv32): bv32 {
    ((imm & 0xFFF) << 20) | (rs1 << 15) | (funct3 << 12) | (rd << 7) | opcode
  }

  function SType(imm: bv32, rs2: bv32, rs1: bv32, funct3: bv32): bv32 {
    var imm12 := imm & 0xFFF;
    (((imm12 >> 5) & 0x7F) << 25) | (rs2 << 20) | (rs1 << 15) | (funct3 << 12)
    | ((imm12 & 0x1F) << 7) | 0x23
  }

  function BType(imm: bv32, rs2: bv32, rs1: bv32, funct3: bv32): bv32 {
    (((imm >> 12) & 1) << 31) | (((imm >> 5) & 0x3F) << 25) | (((imm >> 11) & 1) << 7) | (((imm >> 1) & 0xF) << 8)
    | (rs2 << 20) | (rs1 << 15) | (funct3 << 12) | 0x63
  }

  function JType(imm: bv32, rd: bv32): bv32 {
    (((imm >> 20) & 1) << 31) | (((imm >> 12) & 0xFF) << 12) | (((imm >> 11) & 1) << 20) | (((imm >> 1) & 0x3FF) << 21)
    | (rd << 7) | 0x6F
  }

  function UType(imm: bv32, rd: bv32, opcode: bv32): bv32 {
    (((imm >> 12) & 0xF_FFFF) << 12) | (rd << 7) | opcode
  }

  function ShiftType(hi: bv32, shamt: bv32, rs1: bv32, funct3: bv32, rd: bv32, opcode: bv32): bv32 {
    hi | (shamt << 20) | (rs1 << 15) | (funct3 << 12) | (rd << 7) | opcode
  }

  function FenceType(pred: bv32, succ: bv32): bv32 { (pred << 20) | (succ << 24) | 0x0F }

  function CsrType(csr: bv32, src: bv32, funct3: bv32, rd: bv32): bv32 {
    (csr << 20) | (src << 15) | (funct3 << 12) | (rd << 7) | 0x73
  }

  function SfenceType(rs1: bv32, rs2: bv32): bv32 { (rs2 << 20) | (rs1 << 15) | (0x09 << 25) | 0x73 }

  /** The major opcode and the minor one of a format's operations. */
  function ICode(op: IOp): (bv32, bv32) {
    match op
    case Jalr => (0x67, 0)
    case Lb => (0x03, 0)
    case Lh => (0x03, 1)
    case Lw => (0x03, 2)
    case Ld => (0x03, 3)
    case Lbu => (0x03, 4)
    case Lhu => (0x03, 5)
    case Lwu => (0x03, 6)
    case Flw => (0x07, 2)
    case Fld => (0x07, 3)
    case Addi => (0x13, 0)
    case Slti => (0x13, 2)
    case Sltiu => (0x13, 3)
    case Xori => (0x13, 4)
    case Ori => (0x13, 6)
    case Andi => (0x13, 7)
    case Addiw => (0x1B, 0)
  }

  function UCode(op: UOp): bv32 { if op.Lui? then 0x37 else 0x17 }

  function BCode(op: BOp): bv32 {
    match op case Beq => 0 case Bne => 1 case Blt => 4 case Bge => 5 case Bltu => 6 case Bgeu => 7
  }

  function SCode(op: SOp): bv32 {
    match op case Sb => 0 case Sh => 1 case Sw => 2 case Sd => 3 case Fsw => 2 case Fsd => 3
  }

  function RCode(op: ROp): (bv32, bv32, bv32) {
    match op
    case Add => (0x00, 0, 0x33)
    case Sub => (0x20, 0, 0x33)
    case Sll => (0x00, 1, 0x33)
    case Slt => (0x00, 2, 0x33)
    case Sltu => (0x00, 3, 0x33)
    case Xor => (0x00, 4, 0x33)
    case Srl => (0x00, 5, 0x33)
    case Sra => (0x20, 5, 0x33)
    case Or => (0x00, 6, 0x33)
    case And => (0x00, 7, 0x33)
    case Mul => (0x01, 0, 0x33)
    case Mulh => (0x01, 1, 0x33)
    case Mulhsu => (0x01, 2, 0x33)
    case Mulhu => (0x01, 3, 0x33)
    case Div => (0x01, 4, 0x33)
    case Divu => (0x01, 5, 0x33)
    case Rem => (0x01, 6, 0x33)
    case Remu => (0x01, 7, 0x33)
    case Addw => (0x00, 0, 0x3B)
    case Subw => (0x20, 0, 0x3B)
    case Sllw => (0x00, 1, 0x3B)
    case Srlw => (0x00, 5, 0x3B)
    case Sraw => (0x20, 5, 0x3B)
    case Mulw => (0x01, 0, 0x3B)
    case Divw => (0x01, 4, 0x3B)
    case Divuw => (0x01, 5, 0x3B)
    case Remw => (0x01, 6, 0x3B)
    case Remuw => (0x01, 7, 0x3B)
  }

  function ShiftCode(op: ShiftOp): (bv32, bv32, bv32) {
    match op
    case Slli => (0, 1, 0x13)
    case Srli => (0, 5, 0x13)
    case Srai => (0x4000_0000, 5, 0x13)
    case Slliw => (0, 1, 0x1B)
    case Srliw => (0, 5, 0x1B)
    case Sraiw => (0x4000_0000, 5, 0x1B)
  }

  function SysCode(op: SysOp): bv32 {
    match op
    case Ecall => 0x0000_0073
    case Ebreak => 0x0010_0073
    case Mret => 0x3020_0073
    case Sret => 0x1020_0073
    case Uret => 0x0020_0073
    case Wfi => 0x1050_0073
  }

  function CsrCode(op: CsrOp): bv32 {
    match op case Csrrw => 1 case Csrrs => 2 case Csrrc => 3 case Csrrwi => 5 case Csrrsi => 6 case Csrrci => 7
  }

  /** The 32-bit form; none for single-precision loads and stores, atomics, floating point and `Unimp`. */
  function Encode(i: Instr): Option<bv32> {
    match i
    case U(op, rd, imm) => Some(UType(imm, RegWord(rd), UCode(op)))
    case Jal(rd, imm) => Some(JType(imm, RegWord(rd)))
    case I(op, rd, rs1, imm) =>
      if op.Flw? then None else Some(IType(imm, RegWord(rs1), ICode(op).1, RegWord(rd), ICode(op).0))
    case Shift(op, rd, rs1, shamt) =>
      Some(ShiftType(ShiftCode(op).0, ShamtWord(shamt), RegWord(rs1), ShiftCode(op).1, RegWord(rd), ShiftCode(op).2))
    case B(op, rs1, rs2, imm) => Some(BType(imm, RegWord(rs2), RegWord(rs1), BCode(op)))
    case S(op, rs1, rs2, imm) => if op.Fsw? then None else Some(SType(imm, RegWord(rs2), RegWord(rs1), SCode(op)))
    case R(op, rd, rs1, rs2) =>
      Some(RType(RCode(op).0, RegWord(rs2), RegWord(rs1), RCode(op).1, RegWord(rd), RCode(op).2))
    case Sys(op) => Some(SysCode(op))
    case Fence(pred, succ) => Some(FenceType(SetWord(pred), SetWord(succ)))
    case FenceI => Some(0x100F)
    case Csr(op, rd, src, csr) => Some(CsrType(CsrWord(csr), RegWord(src), CsrCode(op), RegWord(rd)))
    case SfenceVma(rs1, rs2) => Some(SfenceType(RegWord(rs1), RegWord(rs2)))
    case LoadReserved(_, _, _, _, _) => None
    case Amo(_, _, _, _, _, _, _) => None
    case Fp(_) => None
    case Unimp => None
  }

  // ── Decoding ──────────────────────────────────────────────────────────────

  function RdOf(raw: bv32): Reg { ((raw >> 7) & 0x1F) as Reg }

  function Rs1Of(raw: bv32): Reg { ((raw >> 15) & 0x1F) as Reg }

  function Rs2Of(raw: bv32): Reg { ((raw >> 20) & 0x1F) as Reg }

  function Funct3(raw: bv32): bv32 { (raw >> 12) & 7 }

  function Funct7(raw: bv32): bv32 { (raw >> 25) & 0x7F }

  function IImm(raw: bv32): bv32 { Sext12(raw >> 20) }

  function SImm(raw: bv32): bv32 { Sext12((((raw >> 25) & 0x7F) << 5) | ((raw >> 7) & 0x1F)) }

  function BImm(raw: bv32): bv32 {
    Sext13((((raw >> 31) & 1) << 12) | (((raw >> 7) & 1) << 11) | (((raw >> 25) & 0x3F) << 5)
      | (((raw >> 8) & 0xF) << 1))
  }

  function JImm(raw: bv32): bv32 {
    Sext21((((raw >> 31) & 1) << 20) | (((raw >> 12) & 0xFF) << 12) | (((raw >> 20) & 1) << 11)
      | (((raw >> 21) & 0x3FF) << 1))
  }

  /** An instruction of a format, if its minor opcode names an operation. */
  function IInstr(op: Option<IOp>, raw: bv32): Instr {
    match op case None => Unimp case Some(o) => I(o, RdOf(raw), Rs1Of(raw), IImm(raw))
  }

  function SInstr(op: Option<SOp>, raw: bv32): Instr {
    match op case None => Unimp case Some(o) => S(o, Rs1Of(raw), Rs2Of(raw), SImm(raw))
  }

  function BInstr(op: Option<BOp>, raw: bv32): Instr {
    match op case None => Unimp case Some(o) => B(o, Rs1Of(raw), Rs2Of(raw), BImm(raw))
  }

  function RInstr(op: Option<ROp>, raw: bv32): Instr {
    match op case None => Unimp case Some(o) => R(o, RdOf(raw), Rs1Of(raw), Rs2Of(raw))
  }

  function ShiftInstr(op: Option<ShiftOp>, raw: bv32, mask: bv32): Instr
    requires mask == 0x1F || mask == 0x3F
  {
    match op case None => Unimp case Some(o) => Shift(o, RdOf(raw), Rs1Of(raw), ((raw >> 20) & mask) as bv6)
  }

  function LoadOp(f3: bv32): Option<IOp> {
    if f3 == 0 then Some(Lb) else if f3 == 1 then Some(Lh) else if f3 == 2 then Some(Lw) else if f3 == 3 then Some(Ld)
    else if f3 == 4 then Some(Lbu) else if f3 == 5 then Some(Lhu) else if f3 == 6 then Some(Lwu) else None
  }

  function FloatLoadOp(f3: bv32): Option<IOp> {
    if f3 == 2 then Some(Flw) else if f3 == 3 then Some(Fld) else None
  }

  function ImmediateOp(f3: bv32): Option<IOp> {
    if f3 == 0 then Some(Addi) else if f3 == 2 then Some(Slti) else if f3 == 3 then Some(Sltiu)
    else if f3 == 4 then Some(Xori)
    else if f3 == 6 then Some(Ori) else if f3 == 7 then Some(Andi) else None
  }

  function BranchOp(f3: bv32): Option<BOp> {
    if f3 == 0 then Some(Beq) else if f3 == 1 then Some(Bne) else if f3 == 4 then Some(Blt)
    else if f3 == 5 then Some(Bge) else if f3 == 6 then Some(Bltu) else if f3 == 7 then Some(Bgeu) else None
  }

  function StoreOp(f3: bv32): Option<SOp> {
    if f3 == 0 then Some(Sb) else if f3 == 1 then Some(Sh) else if f3 == 2 then Some(Sw) else if f3 == 3 then Some(Sd)
      else None
  }

  function FloatStoreOp(f3: bv32): Option<SOp> {
    if f3 == 2 then Some(Fsw) else if f3 == 3 then Some(Fsd) else None
  }

  /** Shifts are keyed on the top six bits, or seven in the word forms. */
  function WideShiftOp(f3: bv32, f6: bv32): Option<ShiftOp> {
    if f3 == 1 then Some(Slli) else if f6 == 0 then Some(Srli) else if f6 == 0x10 then Some(Srai) else None
  }

  function WordShiftOp(f3: bv32, f7: bv32): Option<ShiftOp> {
    if f3 == 1 then Some(Slliw) else if f3 == 5 && f7 == 0 then Some(Srliw)
    else if f3 == 5 && f7 == 0x20 then Some(Sraiw)
    else None
  }

  function RegisterOp(f7: bv32, f3: bv32): Option<ROp> {
    if f7 == 1 then
      if f3 == 0 then Some(Mul) else if f3 == 1 then Some(Mulh) else if f3 == 2 then Some(Mulhsu)
      else if f3 == 3 then Some(Mulhu)
      else if f3 == 4 then Some(Div) else if f3 == 5 then Some(Divu) else if f3 == 6 then Some(Rem) else Some(Remu)
    else if f7 == 0 then
      if f3 == 0 then Some(Add) else if f3 == 1 then Some(Sll) else if f3 == 2 then Some(Slt)
      else if f3 == 3 then Some(Sltu)
      else if f3 == 4 then Some(Xor) else if f3 == 5 then Some(Srl) else if f3 == 6 then Some(Or) else Some(And)
    else if f7 == 0x20 then
      if f3 == 0 then Some(Sub) else if f3 == 5 then Some(Sra) else None
    else None
  }

  function WordOp(f7: bv32, f3: bv32): Option<ROp> {
    if f7 == 1 then
      if f3 == 0 then Some(Mulw) else if f3 == 4 then Some(Divw) else if f3 == 5 then Some(Divuw)
      else if f3 == 6 then Some(Remw) else if f3 == 7 then Some(Remuw) else None
    else if f7 == 0 then
      if f3 == 0 then Some(Addw) else if f3 == 1 then Some(Sllw) else if f3 == 5 then Some(Srlw) else None
    else if f7 == 0x20 then
      if f3 == 0 then Some(Subw) else if f3 == 5 then Some(Sraw) else None
    else None
  }

  function AmoOf(funct5: bv32): Option<AmoOp> {
    if funct5 == 0x03 then Some(Sc) else if funct5 == 0x01 then Some(Swap) else if funct5 == 0x00 then Some(AmoAdd)
    else if funct5 == 0x04 then Some(AmoXor) else if funct5 == 0x0C then Some(AmoAnd)
    else if funct5 == 0x08 then Some(AmoOr)
    else if funct5 == 0x10 then Some(Min) else if funct5 == 0x14 then Some(Max) else if funct5 == 0x18 then Some(Minu)
    else if funct5 == 0x1C then Some(Maxu) else None
  }

  function DecodeAmo(raw: bv32): Instr {
    var f3, f5 := Funct3(raw), (raw >> 27) & 0x1F;
    var aq, rl := (raw >> 26) & 1 != 0, (raw >> 25) & 1 != 0;
    if f3 != 2 && f3 != 3 then Unimp
    else if f5 == 0x02 then LoadReserved(f3 == 3, RdOf(raw), Rs1Of(raw), aq, rl)
    else
      match AmoOf(f5)
      case None => Unimp
      case Some(op) => Amo(op, f3 == 3, RdOf(raw), Rs1Of(raw), Rs2Of(raw), aq, rl)
  }

  function CsrOpOf(f3: bv32): Option<CsrOp> {
    if f3 == 1 then Some(Csrrw) else if f3 == 2 then Some(Csrrs) else if f3 == 3 then Some(Csrrc)
    else if f3 == 5 then Some(Csrrwi) else if f3 == 6 then Some(Csrrsi) else if f3 == 7 then Some(Csrrci) else None
  }

  function SystemOp(funct12: bv12): Option<SysOp> {
    if funct12 == 0x000 then Some(Ecall) else if funct12 == 0x001 then Some(Ebreak)
    else if funct12 == 0x002 then Some(Uret)
    else if funct12 == 0x102 then Some(Sret) else if funct12 == 0x105 then Some(Wfi)
    else if funct12 == 0x302 then Some(Mret)
    else None
  }

  function Funct12(raw: bv32): bv12 { ((raw >> 20) & 0xFFF) as bv12 }

  function DecodeSystem(raw: bv32): Instr {
    if Funct3(raw) != 0 then
      match CsrOpOf(Funct3(raw)) case None => Unimp case Some(op) => Csr(op, RdOf(raw), Rs1Of(raw), Funct12(raw))
    else if Funct7(raw) == 0x09 then SfenceVma(Rs1Of(raw), Rs2Of(raw))
    else
      match SystemOp(Funct12(raw)) case None => Unimp case Some(op) => Sys(op)
  }

  function DecodeOpImm(raw: bv32): Instr {
    if Funct3(raw) == 1 || Funct3(raw) == 5 then ShiftInstr(WideShiftOp(Funct3(raw), Funct7(raw) >> 1), raw, 0x3F)
    else IInstr(ImmediateOp(Funct3(raw)), raw)
  }

  function DecodeOpImm32(raw: bv32): Instr {
    if Funct3(raw) == 0 then IInstr(Some(Addiw), raw) else ShiftInstr(WordShiftOp(Funct3(raw), Funct7(raw)), raw, 0x1F)
  }

  function DecodeFence(raw: bv32): Instr {
    if Funct3(raw) == 0 then Fence(((raw >> 20) & 0xF) as bv4, ((raw >> 24) & 0xF) as bv4)
    else if Funct3(raw) == 1 then FenceI
    else Unimp
  }

  function Decode(raw: bv32): Instr {
    var opcode, f3 := raw & 0x7F, Funct3(raw);
    if opcode == 0x37 then U(Lui, RdOf(raw), raw & 0xFFFF_F000)
    else if opcode == 0x17 then U(Auipc, RdOf(raw), raw & 0xFFFF_F000)
    else if opcode == 0x6F then Jal(RdOf(raw), JImm(raw))
    else if opcode == 0x67 then IInstr(Some(Jalr), raw)
    else if opcode == 0x63 then BInstr(BranchOp(f3), raw)
    else if opcode == 0x03 then IInstr(LoadOp(f3), raw)
    else if opcode == 0x07 then IInstr(FloatLoadOp(f3), raw)
    else if opcode == 0x23 then SInstr(StoreOp(f3), raw)
    else if opcode == 0x27 then SInstr(FloatStoreOp(f3), raw)
    else if opcode == 0x13 then DecodeOpImm(raw)
    else if opcode == 0x33 then RInstr(RegisterOp(Funct7(raw), f3), raw)
    else if opcode == 0x2F then DecodeAmo(raw)
    else if opcode == 0x1B then DecodeOpImm32(raw)
    else if opcode == 0x3B then RInstr(WordOp(Funct7(raw), f3), raw)
    else if opcode == 0x0F then DecodeFence(raw)
    else if opcode == 0x73 then DecodeSystem(raw)
    else if opcode == 0x53 || opcode == 0x43 || opcode == 0x47 || opcode == 0x4B || opcode == 0x4F then Fp(raw)
    else Unimp
  }
}
