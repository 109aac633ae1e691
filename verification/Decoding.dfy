/** The instruction formats: decoding inverts an encoder that puts each field in
    its place. */
module Decoding {
  import opened Words
  import opened Memories
  import opened Mips

  /** The three formats of an instruction, and branches on a condition, whose
      `rt` field says which. */
  datatype Form =
    | Register(op: Op, rs: bv5, rt: bv5, rd: bv5, shamt: bv5)
    | Immediate(op: Op, rs: bv5, rt: bv5, imm: bv16)
    | Jump(op: Op, index: bv26)
    | Condition(op: Op, rs: bv5, imm: bv16)

  /** The operation code of an instruction in an immediate or jump format. */
  function Major(op: Op): bv6 {
    match op
    case J => 2
    case JAL => 3
    case BEQ => 4
    case BNE => 5
    case BLEZ => 6
    case BGTZ => 7
    case ADDI => 8
    case ADDIU => 9
    case SLTI => 10
    case SLTIU => 11
    case ANDI => 12
    case ORI => 13
    case XORI => 14
    case LUI => 15
    case LB => 32
    case LH => 33
    case LWL => 34
    case LW => 35
    case LBU => 36
    case LHU => 37
    case LWR => 38
    case SB => 40
    case SH => 41
    case SWL => 42
    case SW => 43
    case SWR => 46
    case _ => 0
  }

  /** The function code of an instruction in register format. */
  function Minor(op: Op): bv6 {
    match op
    case SRL => 2
    case SRA => 3
    case SLLV => 4
    case SRLV => 6
    case SRAV => 7
    case JR => 8
    case JALR => 9
    case SYSCALL => 12
    case MFHI => 16
    case MTHI => 17
    case MFLO => 18
    case MTLO => 19
    case MULT => 24
    case MULTU => 25
    case DIV => 26
    case DIVU => 27
    case ADD => 32
    case ADDU => 33
    case SUB => 34
    case SUBU => 35
    case AND => 36
    case OR => 37
    case XOR => 38
    case NOR => 39
    case SLT => 42
    case SLTU => 43
    case _ => 0
  }

  function ConditionCode(op: Op): bv5 {
    if op == BLTZ then 0 else if op == BGEZ then 1 else if op == BLTZAL then 16 else 17
  }

  predicate Fit(f: Form) {
    match f
    case Register(op, _, _, _, _) => op == SLL || Minor(op) != 0
    case Immediate(op, _, _, _) => Major(op) != 0 && op != J && op != JAL
    case Jump(op, _) => op == J || op == JAL
    case Condition(op, _, _) => op in {BLTZ, BGEZ, BLTZAL, BGEZAL}
  }

  function Pack(major: bv6, rs: bv5, rt: bv5, low: bv16): bv32 {
    ((major as bv32) << 26) | ((rs as bv32) << 21) | ((rt as bv32) << 16) | (low as bv32)
  }

  function PackLow(rd: bv5, shamt: bv5, minor: bv6): bv16 {
    ((rd as bv16) << 11) | ((shamt as bv16) << 6) | (minor as bv16)
  }

  function PackJump(major: bv6, index: bv26): bv32 {
    ((major as bv32) << 26) | (index as bv32)
  }

  function Encode(f: Form): bv32 {
    match f
    case Register(op, rs, rt, rd, shamt) => Pack(0, rs, rt, PackLow(rd, shamt, Minor(op)))
    case Immediate(op, rs, rt, imm) => Pack(Major(op), rs, rt, imm)
    case Jump(op, index) => PackJump(Major(op), index)
    case Condition(op, rs, imm) => Pack(1, rs, ConditionCode(op), imm)
  }

  lemma MajorOf(major: bv6, rs: bv5, rt: bv5, low: bv16)
    ensures OpField(Pack(major, rs, rt, low)) == major
  {
  }

  lemma RegistersOf(major: bv6, rs: bv5, rt: bv5, low: bv16)
    ensures Rs(Pack(major, rs, rt, low)) == rs && Rt(Pack(major, rs, rt, low)) == rt
  {
  }

  lemma LowOf(major: bv6, rs: bv5, rt: bv5, rd: bv5, shamt: bv5, minor: bv6)
    ensures var w := Pack(major, rs, rt, PackLow(rd, shamt, minor));
            Rd(w) == rd && Funct(w) == minor && Shamt(w) == shamt as bv32
  {
  }

  lemma ImmediateOf(major: bv6, rs: bv5, rt: bv5, low: bv16)
    ensures Pack(major, rs, rt, low) & 0x1f_0000 == (rt as bv32) << 16
  {
  }

  lemma JumpFields(major: bv6, index: bv26)
    ensures OpField(PackJump(major, index)) == major && Index(PackJump(major, index)) == index as bv32
  {
  }

  lemma LowMajorInverts(op: Op)
    requires op in {ADDI, ADDIU, SLTI, SLTIU, ANDI, ORI, XORI, LUI}
    ensures OpAt(Major(op)) == op
  {
  }

  lemma BranchMajorInverts(op: Op)
    requires op in {J, JAL, BEQ, BNE, BLEZ, BGTZ}
    ensures OpAt(Major(op)) == op
  {
  }

  lemma LoadMajorInverts(op: Op)
    requires op in {LB, LH, LWL, LW, LBU, LHU, LWR}
    ensures OpAt(Major(op)) == op
  {
  }

  lemma StoreMajorInverts(op: Op)
    requires op in {SB, SH, SWL, SW, SWR}
    ensures OpAt(Major(op)) == op
  {
  }

  lemma MajorInverts(op: Op)
    requires Major(op) != 0
    ensures OpAt(Major(op)) == op && op != SPECIAL && op != BCOND
  {
    hide OpAt;
    if op in {J, JAL, BEQ, BNE, BLEZ, BGTZ} {
      BranchMajorInverts(op);
    } else if op in {ADDI, ADDIU, SLTI, SLTIU, ANDI, ORI, XORI, LUI} {
      LowMajorInverts(op);
    } else if op in {LB, LH, LWL, LW, LBU, LHU, LWR} {
      LoadMajorInverts(op);
    } else {
      StoreMajorInverts(op);
    }
  }

  lemma MinorShifts(op: Op)
    requires op in {SLL, SRL, SRA, SLLV, SRLV, SRAV}
    ensures SpecialAt(Minor(op)) == op
  {
  }

  lemma MinorJumps(op: Op)
    requires op in {JR, JALR, SYSCALL}
    ensures SpecialAt(Minor(op)) == op
  {
  }

  lemma MinorLong(op: Op)
    requires op in {MFHI, MTHI, MFLO, MTLO, MULT, MULTU, DIV, DIVU}
    ensures SpecialAt(Minor(op)) == op
  {
  }

  lemma MinorArithmetic(op: Op)
    requires op in {ADD, ADDU, SUB, SUBU, SLT, SLTU}
    ensures SpecialAt(Minor(op)) == op
  {
  }

  lemma MinorLogic(op: Op)
    requires op in {AND, OR, XOR, NOR}
    ensures SpecialAt(Minor(op)) == op
  {
  }

  lemma MinorInverts(op: Op)
    requires op == SLL || Minor(op) != 0
    ensures SpecialAt(Minor(op)) == op
  {
    hide SpecialAt;
    if op in {SLL, SRL, SRA, SLLV, SRLV, SRAV} {
      MinorShifts(op);
    } else if op in {JR, JALR, SYSCALL} {
      MinorJumps(op);
    } else if op in {MFHI, MTHI, MFLO, MTLO, MULT, MULTU, DIV, DIVU} {
      MinorLong(op);
    } else if op in {ADD, ADDU, SUB, SUBU, SLT, SLTU} {
      MinorArithmetic(op);
    } else {
      MinorLogic(op);
    }
  }

  // ---- immediates ----

  function JoinHalves(h: bv16, l: bv16): bv32 { ((h as bv32) << 16) | (l as bv32) }

  function SignExtended16(imm: bv16): bv32 {
    if imm & 0x8000 != 0 then JoinHalves(0xffff, imm) else imm as bv32
  }

  lemma LowHalfOf(major: bv6, rs: bv5, rt: bv5, imm: bv16)
    ensures Low16(Pack(major, rs, rt, imm)) == imm as bv32
  {
  }

  lemma Extends(imm: bv16)
    ensures Extend16(imm as bv32) == SignExtended16(imm)
  {
  }

  lemma ExtraOf(major: bv6, rs: bv5, rt: bv5, imm: bv16, op: Op)
    requires op != SPECIAL && op != J && op != JAL
    ensures Extra(op, Pack(major, rs, rt, imm)) == SignExtended16(imm)
  {
    hide Pack, Low16, Extend16, SignExtended16;
    LowHalfOf(major, rs, rt, imm);
    Extends(imm);
  }

  lemma HalvesSplit(h: bv16, l: bv16)
    ensures Value(JoinHalves(h, l)) == 0x1_0000 * (h as int) + l as int && Value(l as bv32) == l as int
  {
  }

  function Top16(imm: bv16): bv1 { (imm >> 15) as bv1 }
  function Rest15(imm: bv16): bv15 { (imm & 0x7fff) as bv15 }
  function JoinTop16(c: bv1, r: bv15): bv16 { ((c as bv16) << 15) | (r as bv16) }

  lemma Parts16(imm: bv16)
    ensures JoinTop16((imm >> 15) as bv1, (imm & 0x7fff) as bv15) == imm
  {
  }

  lemma Parts16Are(imm: bv16)
    ensures Top16(imm) == (imm >> 15) as bv1 && Rest15(imm) == (imm & 0x7fff) as bv15 && (imm & 0x8000 != 0 <==> Top16(imm) == 1)
  {
  }

  lemma Top16Split(c: bv1, r: bv15)
    ensures JoinTop16(c, r) == ((c as bv16) << 15) | (r as bv16)
    ensures (((c as bv16) << 15) | (r as bv16)) as int == 0x8000 * (c as int) + r as int
  {
  }

  lemma Sign16(imm: bv16)
    ensures imm & 0x8000 != 0 <==> imm as int >= 0x8000
  {
    hide Top16, Rest15, JoinTop16;
    Parts16(imm);
    Parts16Are(imm);
    Top16Split(Top16(imm), Rest15(imm));
    OneBit(Top16(imm));
  }

  function SignedImmediate(imm: bv16): int {
    if imm as int >= 0x8000 then imm as int - 0x1_0000 else imm as int
  }

  lemma AllOnes()
    ensures (0xffff as bv16) as int == 0xffff
  {
  }

  lemma ImmediateIs(imm: bv16)
    ensures SignedValue(SignExtended16(imm)) == SignedImmediate(imm)
  {
    hide Value, JoinHalves;
    Sign16(imm);
    AllOnes();
    HalvesSplit(0xffff, imm);
  }

  // ---- the round trip ----

  /** The instruction has the fields of the form. */
  ghost predicate Has(i: Instr, f: Form) {
    && i.op == f.op
    && match f
       case Register(_, rs, rt, rd, shamt) => i.rs == rs as int && i.rt == rt as int && i.rd == rd as int && i.extra == shamt as bv32
       case Immediate(_, rs, rt, imm) => i.rs == rs as int && i.rt == rt as int && SignedValue(i.extra) == SignedImmediate(imm)
       case Jump(_, index) => i.extra == index as bv32
       case Condition(_, rs, imm) => i.rs == rs as int && SignedValue(i.extra) == SignedImmediate(imm)
  }

  lemma FixedOps()
    ensures OpAt(0) == SPECIAL && OpAt(1) == BCOND && OpAt(2) == J && OpAt(3) == JAL
  {
  }

  lemma DecodeRegister(op: Op, rs: bv5, rt: bv5, rd: bv5, shamt: bv5)
    requires op == SLL || Minor(op) != 0
    ensures Has(Decode(Encode(Register(op, rs, rt, rd, shamt))), Register(op, rs, rt, rd, shamt))
  {
    hide Pack, PackLow, OpAt, SpecialAt, OpField, Funct, Shamt, Rs, Rt, Rd, Minor, BranchOp;
    FixedOps();
    MinorInverts(op);
    MajorOf(0, rs, rt, PackLow(rd, shamt, Minor(op)));
    RegistersOf(0, rs, rt, PackLow(rd, shamt, Minor(op)));
    LowOf(0, rs, rt, rd, shamt, Minor(op));
  }

  lemma DecodeImmediate(op: Op, rs: bv5, rt: bv5, imm: bv16)
    requires Major(op) != 0 && op != J && op != JAL
    ensures Has(Decode(Encode(Immediate(op, rs, rt, imm))), Immediate(op, rs, rt, imm))
  {
    hide Major, Pack, OpAt, SpecialAt, OpField, Funct, Rs, Rt, Rd, BranchOp, Extra, SignExtended16, SignedImmediate, SignedValue;
    MajorInverts(op);
    MajorOf(Major(op), rs, rt, imm);
    RegistersOf(Major(op), rs, rt, imm);
    ExtraOf(Major(op), rs, rt, imm, op);
    ImmediateIs(imm);
  }

  lemma JumpExtra(op: Op, index: bv26)
    requires op == J || op == JAL
    ensures Extra(op, PackJump(Major(op), index)) == index as bv32
  {
    hide PackJump, Major, OpField, Index;
    JumpFields(Major(op), index);
  }

  lemma JumpMajor(op: Op)
    requires op == J || op == JAL
    ensures OpAt(Major(op)) == op
  {
    hide OpAt;
    MajorInverts(op);
  }

  lemma DecodeJump(op: Op, index: bv26)
    requires op == J || op == JAL
    ensures Has(Decode(Encode(Form.Jump(op, index))), Form.Jump(op, index))
  {
    hide Major, PackJump, OpAt, SpecialAt, OpField, Funct, Rs, Rt, Rd, BranchOp, Extra;
    JumpMajor(op);
    JumpFields(Major(op), index);
    JumpExtra(op, index);
  }

  lemma ConditionOf(rs: bv5, op: Op, imm: bv16)
    requires op in {BLTZ, BGEZ, BLTZAL, BGEZAL}
    ensures BranchOp(Pack(1, rs, ConditionCode(op), imm)) == op
  {
    hide Pack;
    ImmediateOf(1, rs, ConditionCode(op), imm);
  }

  lemma DecodeCondition(op: Op, rs: bv5, imm: bv16)
    requires op in {BLTZ, BGEZ, BLTZAL, BGEZAL}
    ensures Has(Decode(Encode(Condition(op, rs, imm))), Condition(op, rs, imm))
  {
    hide Pack, OpAt, SpecialAt, OpField, Funct, Rs, Rt, Rd, BranchOp, Extra, SignExtended16, SignedImmediate, SignedValue, ConditionCode;
    FixedOps();
    MajorOf(1, rs, ConditionCode(op), imm);
    RegistersOf(1, rs, ConditionCode(op), imm);
    ConditionOf(rs, op, imm);
    ExtraOf(1, rs, ConditionCode(op), imm, BCOND);
    ImmediateIs(imm);
  }

  /** Decoding an encoded instruction gives back its fields. */
  lemma DecodeInverts(f: Form)
    requires Fit(f)
    ensures Has(Decode(Encode(f)), f)
  {
    hide Has, Decode, Encode, Major, Minor;
    match f
    case Register(op, rs, rt, rd, shamt) => DecodeRegister(op, rs, rt, rd, shamt);
    case Immediate(op, rs, rt, imm) => DecodeImmediate(op, rs, rt, imm);
    case Jump(op, index) => DecodeJump(op, index);
    case Condition(op, rs, imm) => DecodeCondition(op, rs, imm);
  }

  // ---- no other codes ----

  predicate OwnMajor(op: Op, row: bv3, k: bv3) {
    op in {SPECIAL, BCOND, RES, UNIMP} || Major(op) == ((row as bv6) << 3) | (k as bv6)
  }

  predicate OwnMinor(op: Op, row: bv3, k: bv3) {
    op in {RES, UNIMP} || Minor(op) == ((row as bv6) << 3) | (k as bv6)
  }

  lemma LowMajors(row: bv3, k: bv3)
    requires row & 4 == 0
    ensures OwnMajor(OpRow(row)[k as int], row, k)
  {
  }

  lemma HighMajors(row: bv3, k: bv3)
    requires row & 4 != 0
    ensures OwnMajor(OpRow(row)[k as int], row, k)
  {
  }

  lemma LowMinors(row: bv3, k: bv3)
    requires row & 4 == 0
    ensures OwnMinor(SpecialRow(row)[k as int], row, k)
  {
  }

  lemma HighMinors(row: bv3, k: bv3)
    requires row & 4 != 0
    ensures OwnMinor(SpecialRow(row)[k as int], row, k)
  {
  }

  /** A code that stands for an instruction is that instruction's own; all the
      others are illegal. */
  lemma CodesOnly(row: bv3, k: bv3)
    ensures OwnMajor(OpRow(row)[k as int], row, k) && OwnMinor(SpecialRow(row)[k as int], row, k)
  {
    hide OwnMajor, OwnMinor, OpRow, SpecialRow;
    if row & 4 == 0 {
      LowMajors(row, k);
      LowMinors(row, k);
    } else {
      HighMajors(row, k);
      HighMinors(row, k);
    }
  }
}
