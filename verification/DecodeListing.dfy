/**
 * The 32-bit instructions as the listing of the unprivileged specification (chapter 24) has them: for each
 * the bits it fixes, told apart from where the operands are. A word decodes to an instruction exactly when it
 * has those bits; where the decoder looks at fewer bits than the listing fixes, the mask says so.
 */
module DecodeListing {
  import opened Bytes
  import opened Instructions

  /** Registers by their bits: rd is 11:7, rs1 19:15, rs2 24:20. */
  function Rd(raw: bv32): Reg { ((raw >> 7) & 0x1F) as Reg }

  function Rs1(raw: bv32): Reg { ((raw >> 15) & 0x1F) as Reg }

  function Rs2(raw: bv32): Reg { ((raw >> 20) & 0x1F) as Reg }

  lemma RegistersAreRead(raw: bv32)
    ensures RdOf(raw) == Rd(raw) && Rs1Of(raw) == Rs1(raw) && Rs2Of(raw) == Rs2(raw)
  {}

  function Opcode(raw: bv32): bv32 { raw & 0x7F }

  /** The minor opcodes and the major one, as one number. */
  function Fixed73(f7: bv32, f3: bv32, opcode: bv32): bv32 { (f7 << 25) | (f3 << 12) | opcode }

  function Fixed3(f3: bv32, opcode: bv32): bv32 { (f3 << 12) | opcode }

  function Masked73(raw: bv32): bv32 { raw & 0xFE00_707F }

  function Masked3(raw: bv32): bv32 { raw & 0x707F }

  /** What the masks leave. */
  lemma MasksLeave(raw: bv32)
    ensures Masked73(raw) == Fixed73(Funct7(raw), Funct3(raw), Opcode(raw))
    ensures Masked3(raw) == Fixed3(Funct3(raw), Opcode(raw))
    ensures Funct7(raw) < 0x80 && Funct3(raw) < 8 && Opcode(raw) < 0x80
  {}

  // ── Where each format is decoded ──────────────────────────────────────────

  lemma RegisterArms(raw: bv32)
    ensures Opcode(raw) == 0x33 ==> Decode(raw) == RInstr(RegisterOp(Funct7(raw), Funct3(raw)), raw)
    ensures Opcode(raw) == 0x3B ==> Decode(raw) == RInstr(WordOp(Funct7(raw), Funct3(raw)), raw)
    ensures Decode(raw).R? ==> Opcode(raw) == 0x33 || Opcode(raw) == 0x3B
  {
    hide RdOf, Rs1Of, Rs2Of, JImm, BImm, SImm, IImm, Funct3, Funct7, Funct12, BranchOp, LoadOp, FloatLoadOp, StoreOp;
    hide FloatStoreOp, ImmediateOp, RegisterOp, WordOp, AmoOf, CsrOpOf, SystemOp, WideShiftOp, WordShiftOp;
  }

  lemma MemoryArms(raw: bv32)
    ensures Opcode(raw) == 0x03 ==> Decode(raw) == IInstr(LoadOp(Funct3(raw)), raw)
    ensures Opcode(raw) == 0x07 ==> Decode(raw) == IInstr(FloatLoadOp(Funct3(raw)), raw)
    ensures Opcode(raw) == 0x67 ==> Decode(raw) == IInstr(Some(Jalr), raw)
    ensures Opcode(raw) == 0x13 ==> Decode(raw) == DecodeOpImm(raw)
    ensures Opcode(raw) == 0x1B ==> Decode(raw) == DecodeOpImm32(raw)
    ensures Decode(raw).I? ==>
      Opcode(raw) == 0x03 || Opcode(raw) == 0x07 || Opcode(raw) == 0x67 || Opcode(raw) == 0x13 || Opcode(raw) == 0x1B
    ensures Decode(raw).Shift? ==> Opcode(raw) == 0x13 || Opcode(raw) == 0x1B
  {
    hide RdOf, Rs1Of, Rs2Of, JImm, BImm, SImm, IImm, Funct3, Funct7, Funct12, BranchOp, LoadOp, FloatLoadOp, StoreOp;
    hide FloatStoreOp, ImmediateOp, RegisterOp, WordOp, AmoOf, CsrOpOf, SystemOp, WideShiftOp, WordShiftOp;
  }

  lemma StoreArms(raw: bv32)
    ensures Opcode(raw) == 0x63 ==> Decode(raw) == BInstr(BranchOp(Funct3(raw)), raw)
    ensures Opcode(raw) == 0x23 ==> Decode(raw) == SInstr(StoreOp(Funct3(raw)), raw)
    ensures Opcode(raw) == 0x27 ==> Decode(raw) == SInstr(FloatStoreOp(Funct3(raw)), raw)
    ensures Decode(raw).B? ==> Opcode(raw) == 0x63
    ensures Decode(raw).S? ==> Opcode(raw) == 0x23 || Opcode(raw) == 0x27
  {
    hide RdOf, Rs1Of, Rs2Of, JImm, BImm, SImm, IImm, Funct3, Funct7, Funct12, BranchOp, LoadOp, FloatLoadOp, StoreOp;
    hide FloatStoreOp, ImmediateOp, RegisterOp, WordOp, AmoOf, CsrOpOf, SystemOp, WideShiftOp, WordShiftOp;
  }

  lemma SystemArms(raw: bv32)
    ensures Opcode(raw) == 0x73 ==> Decode(raw) == DecodeSystem(raw)
    ensures Decode(raw).Sys? || Decode(raw).Csr? || Decode(raw).SfenceVma? ==> Opcode(raw) == 0x73
  {
    hide RdOf, Rs1Of, Rs2Of, JImm, BImm, SImm, IImm, Funct3, Funct7, Funct12, BranchOp, LoadOp, FloatLoadOp, StoreOp;
    hide FloatStoreOp, ImmediateOp, RegisterOp, WordOp, AmoOf, CsrOpOf, SystemOp, WideShiftOp, WordShiftOp;
  }

  lemma FenceArms(raw: bv32)
    ensures Opcode(raw) == 0x0F ==> Decode(raw) == DecodeFence(raw)
    ensures Decode(raw).Fence? || Decode(raw).FenceI? ==> Opcode(raw) == 0x0F
  {
    hide RdOf, Rs1Of, Rs2Of, JImm, BImm, SImm, IImm, Funct3, Funct7, Funct12, BranchOp, LoadOp, FloatLoadOp, StoreOp;
    hide FloatStoreOp, ImmediateOp, RegisterOp, WordOp, AmoOf, CsrOpOf, SystemOp, WideShiftOp, WordShiftOp;
  }

  lemma AtomicArms(raw: bv32)
    ensures Opcode(raw) == 0x2F ==> Decode(raw) == DecodeAmo(raw)
    ensures Decode(raw).LoadReserved? || Decode(raw).Amo? ==> Opcode(raw) == 0x2F
  {
    hide RdOf, Rs1Of, Rs2Of, JImm, BImm, SImm, IImm, Funct3, Funct7, Funct12, BranchOp, LoadOp, FloatLoadOp, StoreOp;
    hide FloatStoreOp, ImmediateOp, RegisterOp, WordOp, AmoOf, CsrOpOf, SystemOp, WideShiftOp, WordShiftOp;
  }

  // ── Register operations ───────────────────────────────────────────────────

  /** With mask FE00707F. */
  function RBits(op: ROp): bv32 {
    match op
    case Add => 0x0000_0033
    case Sub => 0x4000_0033
    case Sll => 0x0000_1033
    case Slt => 0x0000_2033
    case Sltu => 0x0000_3033
    case Xor => 0x0000_4033
    case Srl => 0x0000_5033
    case Sra => 0x4000_5033
    case Or => 0x0000_6033
    case And => 0x0000_7033
    case Mul => 0x0200_0033
    case Mulh => 0x0200_1033
    case Mulhsu => 0x0200_2033
    case Mulhu => 0x0200_3033
    case Div => 0x0200_4033
    case Divu => 0x0200_5033
    case Rem => 0x0200_6033
    case Remu => 0x0200_7033
    case Addw => 0x0000_003B
    case Subw => 0x4000_003B
    case Sllw => 0x0000_103B
    case Srlw => 0x0000_503B
    case Sraw => 0x4000_503B
    case Mulw => 0x0200_003B
    case Divw => 0x0200_403B
    case Divuw => 0x0200_503B
    case Remw => 0x0200_603B
    case Remuw => 0x0200_703B
  }

  lemma RegisterOpsListed(f7: bv32, f3: bv32, op: ROp)
    requires f7 < 0x80 && f3 < 8
    ensures RegisterOp(f7, f3) == Some(op) <==> RBits(op) == Fixed73(f7, f3, 0x33)
  {}

  lemma WordOpsListed(f7: bv32, f3: bv32, op: ROp)
    requires f7 < 0x80 && f3 < 8
    ensures WordOp(f7, f3) == Some(op) <==> RBits(op) == Fixed73(f7, f3, 0x3B)
  {}

  lemma ROpcodes(raw: bv32, op: ROp)
    requires Masked73(raw) == RBits(op)
    ensures Opcode(raw) == 0x33 || Opcode(raw) == 0x3B
  {}

  lemma RInstrIs(o: Option<ROp>, raw: bv32, op: ROp)
    ensures RInstr(o, raw) == R(op, RdOf(raw), Rs1Of(raw), Rs2Of(raw)) <==> o == Some(op)
  {}

  /** A register operation is decoded exactly from the words that have its bits. */
  lemma RListed(raw: bv32, op: ROp)
    ensures Decode(raw) == R(op, Rd(raw), Rs1(raw), Rs2(raw)) <==> raw & 0xFE00_707F == RBits(op)
  {
    assert Masked73(raw) == raw & 0xFE00_707F;
    hide *;
    RegistersAreRead(raw);
    RegisterArms(raw);
    MasksLeave(raw);
    var f7, f3 := Funct7(raw), Funct3(raw);
    if Opcode(raw) == 0x33 {
      RegisterOpsListed(f7, f3, op);
      RInstrIs(RegisterOp(f7, f3), raw, op);
    } else if Opcode(raw) == 0x3B {
      WordOpsListed(f7, f3, op);
      RInstrIs(WordOp(f7, f3), raw, op);
    } else if Masked73(raw) == RBits(op) {
      ROpcodes(raw, op);
    }
  }

  // ── Immediates ────────────────────────────────────────────────────────────

  /** Bit for bit: the sign is bit 31, and above the immediate's own bits there are copies of it. */
  function Copies(raw: bv32, mask: bv32): bv32 { if raw & 0x8000_0000 != 0 then mask else 0 }

  lemma IImmListed(raw: bv32)
    ensures IImm(raw) & 0xFFF == raw >> 20 && IImm(raw) & 0xFFFF_F000 == Copies(raw, 0xFFFF_F000)
  {}

  lemma SImmListed(raw: bv32)
    ensures SImm(raw) & 0x1F == (raw >> 7) & 0x1F && (SImm(raw) >> 5) & 0x7F == raw >> 25
    ensures SImm(raw) & 0xFFFF_F000 == Copies(raw, 0xFFFF_F000)
  {}

  lemma BImmListed(raw: bv32)
    ensures BImm(raw) & 1 == 0 && (BImm(raw) >> 1) & 0xF == (raw >> 8) & 0xF
    ensures (BImm(raw) >> 5) & 0x3F == (raw >> 25) & 0x3F && (BImm(raw) >> 11) & 1 == (raw >> 7) & 1
    ensures BImm(raw) & 0xFFFF_F000 == Copies(raw, 0xFFFF_F000)
  {}

  lemma JImmListed(raw: bv32)
    ensures JImm(raw) & 1 == 0 && (JImm(raw) >> 1) & 0x3FF == (raw >> 21) & 0x3FF
    ensures JImm(raw) & 0xFFF0_0000 == Copies(raw, 0xFFF0_0000)
  {}

  lemma JImmMiddleListed(raw: bv32)
    ensures (JImm(raw) >> 11) & 1 == (raw >> 20) & 1 && (JImm(raw) >> 12) & 0xFF == (raw >> 12) & 0xFF
  {}

  // ── Immediate operations, loads and jumps through a register ──────────────

  /** With mask 707F; the decoder asks for the opcode alone of JALR. */
  function IBits(op: IOp): bv32 {
    match op
    case Jalr => 0x67
    case Lb => 0x0003
    case Lh => 0x1003
    case Lw => 0x2003
    case Ld => 0x3003
    case Lbu => 0x4003
    case Lhu => 0x5003
    case Lwu => 0x6003
    case Flw => 0x2007
    case Fld => 0x3007
    case Addi => 0x0013
    case Slti => 0x2013
    case Sltiu => 0x3013
    case Xori => 0x4013
    case Ori => 0x6013
    case Andi => 0x7013
    case Addiw => 0x001B
  }

  lemma LoadOpsListed(f3: bv32, op: IOp)
    requires f3 < 8 && !op.Jalr?
    ensures LoadOp(f3) == Some(op) <==> IBits(op) == Fixed3(f3, 0x03)
    ensures FloatLoadOp(f3) == Some(op) <==> IBits(op) == Fixed3(f3, 0x07)
  {}

  lemma ImmediateOpsListed(f3: bv32, op: IOp)
    requires f3 < 8 && !op.Jalr?
    ensures f3 != 1 && f3 != 5 ==> (ImmediateOp(f3) == Some(op) <==> IBits(op) == Fixed3(f3, 0x13))
    ensures f3 == 1 || f3 == 5 ==> IBits(op) != Fixed3(f3, 0x13)
    ensures f3 == 0 && op == Addiw <==> IBits(op) == Fixed3(f3, 0x1B)
  {}

  lemma IOpcodes(raw: bv32, op: IOp)
    requires Masked3(raw) == IBits(op) && !op.Jalr?
    ensures Opcode(raw) == 0x03 || Opcode(raw) == 0x07 || Opcode(raw) == 0x13 || Opcode(raw) == 0x1B
  {}

  lemma IInstrIs(o: Option<IOp>, raw: bv32, op: IOp)
    ensures IInstr(o, raw) == I(op, RdOf(raw), Rs1Of(raw), IImm(raw)) <==> o == Some(op)
  {}

  lemma OpImmIs(raw: bv32, op: IOp)
    ensures DecodeOpImm(raw) == I(op, RdOf(raw), Rs1Of(raw), IImm(raw))
       <==> Funct3(raw) != 1 && Funct3(raw) != 5 && ImmediateOp(Funct3(raw)) == Some(op)
    ensures DecodeOpImm32(raw) == I(op, RdOf(raw), Rs1Of(raw), IImm(raw)) <==> Funct3(raw) == 0 && op == Addiw
  {
    hide Funct3, Funct7, RdOf, Rs1Of, IImm, ImmediateOp, WideShiftOp, WordShiftOp;
  }

  lemma IListed(raw: bv32, op: IOp)
    requires !op.Jalr?
    ensures Decode(raw) == I(op, Rd(raw), Rs1(raw), IImm(raw)) <==> raw & 0x707F == IBits(op)
  {
    assert Masked3(raw) == raw & 0x707F;
    hide *;
    RegistersAreRead(raw);
    MemoryArms(raw);
    MasksLeave(raw);
    var f3 := Funct3(raw);
    if Opcode(raw) == 0x03 {
      LoadOpsListed(f3, op);
      IInstrIs(LoadOp(f3), raw, op);
    } else if Opcode(raw) == 0x07 {
      LoadOpsListed(f3, op);
      IInstrIs(FloatLoadOp(f3), raw, op);
    } else if Opcode(raw) == 0x13 || Opcode(raw) == 0x1B {
      ImmediateOpsListed(f3, op);
      OpImmIs(raw, op);
    } else {
      IInstrIs(Some(Jalr), raw, op);
      if Masked3(raw) == IBits(op) {
        IOpcodes(raw, op);
      }
    }
  }

  lemma JalrListed(raw: bv32)
    ensures Decode(raw) == I(Jalr, Rd(raw), Rs1(raw), IImm(raw)) <==> raw & 0x7F == 0x67
  {
    assert Opcode(raw) == raw & 0x7F;
    hide *;
    RegistersAreRead(raw);
    MemoryArms(raw);
    var f3 := Funct3(raw);
    IInstrIs(LoadOp(f3), raw, Jalr);
    IInstrIs(FloatLoadOp(f3), raw, Jalr);
    IInstrIs(Some(Jalr), raw, Jalr);
    OpImmIs(raw, Jalr);
    NoSuchLoad(f3);
  }

  lemma NoSuchLoad(f3: bv32)
    ensures LoadOp(f3) != Some(Jalr) && FloatLoadOp(f3) != Some(Jalr) && ImmediateOp(f3) != Some(Jalr)
  {}

  // ── Shifts ────────────────────────────────────────────────────────────────

  /** The amount is in bits 25:20, or 24:20 in the word forms; the decoder asks for no bits above it in a left
      shift. */
  function ShiftMask(op: ShiftOp): bv32 {
    match op case Slli => 0x707F case Slliw => 0x707F case Srli => 0xFC00_707F case Srai => 0xFC00_707F
      case Srliw => 0xFE00_707F case Sraiw => 0xFE00_707F
  }

  function ShiftBits(op: ShiftOp): bv32 {
    match op case Slli => 0x1013 case Srli => 0x5013 case Srai => 0x4000_5013 case Slliw => 0x101B case Srliw => 0x501B
      case Sraiw => 0x4000_501B
  }

  function Amount(op: ShiftOp, raw: bv32): bv6 {
    if op.Slli? || op.Srli? || op.Srai? then ((raw >> 20) & 0x3F) as bv6 else ((raw >> 20) & 0x1F) as bv6
  }

  lemma ShiftListed(raw: bv32, op: ShiftOp)
    ensures Decode(raw) == Shift(op, Rd(raw), Rs1(raw), Amount(op, raw)) <==> raw & ShiftMask(op) == ShiftBits(op)
  {
    RegistersAreRead(raw);
    MemoryArms(raw);
    hide Decode, RdOf, Rs1Of, Rd, Rs1, IImm, ImmediateOp;
  }

  // ── Branches and stores ───────────────────────────────────────────────────

  /** With mask 707F. */
  function BBits(op: BOp): bv32 {
    match op case Beq => 0x0063 case Bne => 0x1063 case Blt => 0x4063 case Bge => 0x5063 case Bltu => 0x6063
      case Bgeu => 0x7063
  }

  function SBits(op: SOp): bv32 {
    match op
    case Sb => 0x0023 case Sh => 0x1023 case Sw => 0x2023 case Sd => 0x3023 case Fsw => 0x2027 case Fsd => 0x3027
  }

  lemma BListed(raw: bv32, op: BOp)
    ensures Decode(raw) == B(op, Rs1(raw), Rs2(raw), BImm(raw)) <==> raw & 0x707F == BBits(op)
  {
    RegistersAreRead(raw);
    StoreArms(raw);
    hide Decode, Rs1Of, Rs2Of, Rs1, Rs2, BImm, SImm;
  }

  lemma SListed(raw: bv32, op: SOp)
    ensures Decode(raw) == S(op, Rs1(raw), Rs2(raw), SImm(raw)) <==> raw & 0x707F == SBits(op)
  {
    RegistersAreRead(raw);
    StoreArms(raw);
    hide Decode, Rs1Of, Rs2Of, Rs1, Rs2, BImm, SImm;
  }

  // ── Upper immediates and jumps ────────────────────────────────────────────

  lemma UpperListed(raw: bv32)
    ensures Decode(raw) == U(Lui, Rd(raw), raw & 0xFFFF_F000) <==> raw & 0x7F == 0x37
    ensures Decode(raw) == U(Auipc, Rd(raw), raw & 0xFFFF_F000) <==> raw & 0x7F == 0x17
    ensures Decode(raw) == Jal(Rd(raw), JImm(raw)) <==> raw & 0x7F == 0x6F
  {
    RegistersAreRead(raw);
    hide RdOf, Rs1Of, Rs2Of, Rd, Rs1, Rs2, JImm, BImm, SImm, IImm, Funct3, Funct7, Funct12, BranchOp, LoadOp;
    hide FloatLoadOp, StoreOp, FloatStoreOp, ImmediateOp, RegisterOp, WordOp, AmoOf, CsrOpOf, SystemOp;
    hide WideShiftOp, WordShiftOp;
  }

  // ── System instructions ───────────────────────────────────────────────────

  /** With mask FFF0707F: the decoder does not look at rd and rs1. */
  function SysBits(op: SysOp): bv32 {
    match op case Ecall => 0x0000_0073 case Ebreak => 0x0010_0073 case Uret => 0x0020_0073 case Sret => 0x1020_0073
      case Wfi => 0x1050_0073 case Mret => 0x3020_0073
  }

  function CsrBits(op: CsrOp): bv32 {
    match op case Csrrw => 0x1073 case Csrrs => 0x2073 case Csrrc => 0x3073 case Csrrwi => 0x5073 case Csrrsi => 0x6073
      case Csrrci => 0x7073
  }

  lemma SysListed(raw: bv32, op: SysOp)
    ensures Decode(raw) == Sys(op) <==> raw & 0xFFF0_707F == SysBits(op)
  {
    SystemArms(raw);
    hide Decode, DecodeAmo, DecodeFence, RdOf, Rs1Of, Rs2Of;
  }

  lemma CsrListed(raw: bv32, op: CsrOp)
    ensures Decode(raw) == Csr(op, Rd(raw), Rs1(raw), (raw >> 20) as bv12) <==> raw & 0x707F == CsrBits(op)
  {
    RegistersAreRead(raw);
    SystemArms(raw);
    assert Funct12(raw) == (raw >> 20) as bv12;
    hide Decode, DecodeAmo, DecodeFence, RdOf, Rs1Of, Rs2Of, Rd, Rs1, Rs2, Funct12;
  }

  lemma FencesListed(raw: bv32)
    ensures Decode(raw) == SfenceVma(Rs1(raw), Rs2(raw)) <==> raw & 0xFE00_707F == 0x1200_0073
    ensures Decode(raw) == FenceI <==> raw & 0x707F == 0x100F
  {
    RegistersAreRead(raw);
    SystemArms(raw);
    FenceArms(raw);
    hide Decode, DecodeAmo, RdOf, Rs1Of, Rs2Of, Rd, Rs1, Rs2, Funct12;
  }

  /** The specification has the predecessor set in bits 27:24 and the successor set in 23:20; the source has them
      the other way round, in the decoder and in the encoder. */
  lemma FenceListed(raw: bv32)
    ensures Decode(raw) == Fence(((raw >> 20) & 0xF) as bv4, ((raw >> 24) & 0xF) as bv4)
       <==> raw & 0x707F == 0x000F
  {
    FenceArms(raw);
    hide Decode, DecodeAmo, DecodeSystem;
  }

  // ── Atomics ───────────────────────────────────────────────────────────────

  /** With mask F800707F: funct5, funct3 and the opcode; the double forms have bit 12 besides. */
  function AmoBits(op: AmoOp): bv32 {
    match op
    case AmoAdd => 0x0000_202F
    case Swap => 0x0800_202F
    case Sc => 0x1800_202F
    case AmoXor => 0x2000_202F
    case AmoOr => 0x4000_202F
    case AmoAnd => 0x6000_202F
    case Min => 0x8000_202F
    case Max => 0xA000_202F
    case Minu => 0xC000_202F
    case Maxu => 0xE000_202F
  }

  /** aq is bit 26 and rl bit 25. */
  predicate Aq(raw: bv32) { raw & 0x400_0000 != 0 }

  predicate Rl(raw: bv32) { raw & 0x200_0000 != 0 }

  lemma OrderingIsRead(raw: bv32)
    ensures ((raw >> 26) & 1 != 0) == Aq(raw) && ((raw >> 25) & 1 != 0) == Rl(raw)
  {}

  lemma AmoListed(raw: bv32, op: AmoOp, double: bool)
    ensures Decode(raw) == Amo(op, double, Rd(raw), Rs1(raw), Rs2(raw), Aq(raw), Rl(raw))
       <==> raw & 0xF800_707F == AmoBits(op) | (if double then 0x1000 else 0)
  {
    RegistersAreRead(raw);
    OrderingIsRead(raw);
    AtomicArms(raw);
    hide Decode, DecodeFence, DecodeSystem, RdOf, Rs1Of, Rs2Of, Rd, Rs1, Rs2, Aq, Rl;
  }

  lemma LoadReservedListed(raw: bv32, double: bool)
    ensures Decode(raw) == LoadReserved(double, Rd(raw), Rs1(raw), Aq(raw), Rl(raw))
       <==> raw & 0xF800_707F == 0x1000_202F | (if double then 0x1000 else 0)
  {
    RegistersAreRead(raw);
    OrderingIsRead(raw);
    AtomicArms(raw);
    hide Decode, DecodeFence, DecodeSystem, RdOf, Rs1Of, Rs2Of, Rd, Rs1, Rs2, Aq, Rl;
  }
}
