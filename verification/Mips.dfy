/** The simulated MIPS processor: decoding, one instruction at a time, and
    delayed loads. */
module Mips {
  import opened Common
  import opened Bytes
  import opened Memories
  import opened Multiplication
  import opened Words

  datatype Op =
    | ADD | ADDI | ADDIU | ADDU | AND | ANDI | BEQ | BGEZ | BGEZAL | BGTZ | BLEZ | BLTZ | BLTZAL | BNE
    | DIV | DIVU | J | JAL | JALR | JR | LB | LBU | LH | LHU | LUI | LW | LWL | LWR
    | MFHI | MFLO | MTHI | MTLO | MULT | MULTU | NOR | OR | ORI | SB | SH | SLL | SLLV | SLT | SLTI | SLTIU | SLTU
    | SRA | SRAV | SRL | SRLV | SUB | SUBU | SW | SWL | SWR | XOR | XORI | SYSCALL | UNIMP | RES
    | SPECIAL | BCOND

  type reg = r: int | 0 <= r < 32

  datatype Instr = Instr(op: Op, rs: reg, rt: reg, rd: reg, extra: bv32)

  // ---- decoding ----

  /** The operation codes, in rows of eight. */
  function OpRow(row: bv3): (r: seq<Op>)
    ensures |r| == 8
  {
    if row == 0 then [SPECIAL, BCOND, J, JAL, BEQ, BNE, BLEZ, BGTZ]
    else if row == 1 then [ADDI, ADDIU, SLTI, SLTIU, ANDI, ORI, XORI, LUI]
    else if row == 2 then [UNIMP, UNIMP, UNIMP, UNIMP, RES, RES, RES, RES]
    else if row == 3 then [RES, RES, RES, RES, RES, RES, RES, RES]
    else if row == 4 then [LB, LH, LWL, LW, LBU, LHU, LWR, RES]
    else if row == 5 then [SB, SH, SWL, SW, RES, RES, SWR, RES]
    else if row == 6 then [UNIMP, UNIMP, UNIMP, UNIMP, RES, RES, RES, RES]
    else [UNIMP, UNIMP, UNIMP, UNIMP, RES, RES, RES, RES]
  }

  /** The function codes of `SPECIAL` instructions. */
  function SpecialRow(row: bv3): (r: seq<Op>)
    ensures |r| == 8
  {
    if row == 0 then [SLL, RES, SRL, SRA, SLLV, RES, SRLV, SRAV]
    else if row == 1 then [JR, JALR, RES, RES, SYSCALL, UNIMP, RES, RES]
    else if row == 2 then [MFHI, MTHI, MFLO, MTLO, RES, RES, RES, RES]
    else if row == 3 then [MULT, MULTU, DIV, DIVU, RES, RES, RES, RES]
    else if row == 4 then [ADD, ADDU, SUB, SUBU, AND, OR, XOR, NOR]
    else if row == 5 then [RES, RES, SLT, SLTU, RES, RES, RES, RES]
    else if row == 6 then [RES, RES, RES, RES, RES, RES, RES, RES]
    else [RES, RES, RES, RES, RES, RES, RES, RES]
  }

  function OpAt(n: bv6): Op {
    OpRow((n >> 3) as bv3)[((n & 7) as bv3) as int]
  }

  function SpecialAt(n: bv6): Op {
    SpecialRow((n >> 3) as bv3)[((n & 7) as bv3) as int]
  }

  function BranchOp(value: bv32): Op {
    var i := value & 0x1f_0000;
    if i == 0 then BLTZ else if i == 0x1_0000 then BGEZ
    else if i == 0x10_0000 then BLTZAL else if i == 0x11_0000 then BGEZAL else UNIMP
  }

  function Extra(op: Op, value: bv32): bv32 {
    if op == SPECIAL then Shamt(value)
    else if op == J || op == JAL then Index(value)
    else Extend16(Low16(value))
  }

  function Extend16(low: bv32): bv32 {
    if low & 0x8000 != 0 then low | 0xffff_0000 else low
  }

  // The fields of an instruction.
  function OpField(value: bv32): bv6 { (value >> 26) as bv6 }
  function Funct(value: bv32): bv6 { (value & 0x3f) as bv6 }
  function Shamt(value: bv32): bv32 { (value >> 6) & 0x1f }
  function Index(value: bv32): bv32 { value & 0x3ff_ffff }
  function Rs(value: bv32): bv5 { ((value >> 21) & 0x1f) as bv5 }
  function Rt(value: bv32): bv5 { ((value >> 16) & 0x1f) as bv5 }
  function Rd(value: bv32): bv5 { ((value >> 11) & 0x1f) as bv5 }


  function Decode(value: bv32): Instr {
    var op := OpAt(OpField(value));
    var opCode := if op == SPECIAL then SpecialAt(Funct(value))
                  else if op == BCOND then BranchOp(value) else op;
    Instr(opCode, Rs(value) as int, Rt(value) as int, Rd(value) as int, Extra(op, value))
  }

  // ---- arithmetic ----

  predicate SignedLess(a: bv32, b: bv32) {
    SignedValue(a) < SignedValue(b)
  }

  function FromInt(x: int): bv32 {
    ToWord(x % 0x1_0000_0000)
  }

  function Divided(a: bv32, b: bv32): (bv32, bv32) {
    if SignedValue(b) == 0 then (0, 0) else
      var q := Quotient(SignedValue(a), SignedValue(b));
      (FromInt(SignedValue(a) - q * SignedValue(b)), FromInt(q))
  }

  function DividedUnsigned(a: bv32, b: bv32): (bv32, bv32) {
    if Value(b) == 0 then (0, 0) else (FromInt(Value(a) % Value(b)), FromInt(Value(a) / Value(b)))
  }

  function Multiplied(a: bv32, b: bv32, signedArith: bool): (bv32, bv32) {
    var p := Product64(SignedValue(a), SignedValue(b), signedArith);
    (FromInt(p / 0x1_0000_0000), FromInt(p))
  }

  // ---- the unaligned merges ----

  function MergeLeft0(x: bv32, v: bv32): bv32 { (x & 0xff_ffff) | (v << 24) }
  function MergeLeft1(x: bv32, v: bv32): bv32 { (x & 0xffff) | (v << 16) }
  function MergeLeft2(x: bv32, v: bv32): bv32 { (x & 0xff) | (v << 8) }
  function MergeLeft3(x: bv32, v: bv32): bv32 { v }

  /** `LWL`: the bytes of the word up to and including `byte` become the high bytes. */
  function MergeLeft(x: bv32, v: bv32, byte: nat): bv32
    requires byte < 4
  {
    if byte == 0 then MergeLeft0(x, v)
    else if byte == 1 then MergeLeft1(x, v)
    else if byte == 2 then MergeLeft2(x, v)
    else MergeLeft3(x, v)
  }

  function MergeRight0(x: bv32, v: bv32): bv32 { v }
  function MergeRight1(x: bv32, v: bv32): bv32 { (x & 0xff00_0000) | ((v >> 8) & 0xff_ffff) }
  function MergeRight2(x: bv32, v: bv32): bv32 { (x & 0xffff_0000) | ((v >> 16) & 0xffff) }
  function MergeRight3(x: bv32, v: bv32): bv32 { (x & 0xffff_ff00) | ((v >> 24) & 0xff) }

  /** `LWR`: the bytes of the word from `byte` on become the low bytes. */
  function MergeRight(x: bv32, v: bv32, byte: nat): bv32
    requires byte < 4
  {
    if byte == 0 then MergeRight0(x, v)
    else if byte == 1 then MergeRight1(x, v)
    else if byte == 2 then MergeRight2(x, v)
    else MergeRight3(x, v)
  }

  function StoreLeft0(v: bv32, r: bv32): bv32 { (v & 0xffff_ff00) | ((r >> 24) & 0xff) }
  function StoreLeft1(v: bv32, r: bv32): bv32 { (v & 0xffff_0000) | ((r >> 16) & 0xffff) }
  function StoreLeft2(v: bv32, r: bv32): bv32 { (v & 0xff00_0000) | ((r >> 8) & 0xff_ffff) }
  function StoreLeft3(v: bv32, r: bv32): bv32 { r }

  /** `SWL`: the word to be written back. */
  function StoreLeft(v: bv32, r: bv32, byte: nat): bv32
    requires byte < 4
  {
    if byte == 0 then StoreLeft0(v, r)
    else if byte == 1 then StoreLeft1(v, r)
    else if byte == 2 then StoreLeft2(v, r)
    else StoreLeft3(v, r)
  }

  function StoreRight0(v: bv32, r: bv32): bv32 { r }
  function StoreRight1(v: bv32, r: bv32): bv32 { (v & 0xff) | (r << 8) }
  function StoreRight2(v: bv32, r: bv32): bv32 { (v & 0xffff) | (r << 16) }
  function StoreRight3(v: bv32, r: bv32): bv32 { (v & 0xff_ffff) | (r << 24) }

  /** `SWR`: the word to be written back. */
  function StoreRight(v: bv32, r: bv32, byte: nat): bv32
    requires byte < 4
  {
    if byte == 0 then StoreRight0(v, r)
    else if byte == 1 then StoreRight1(v, r)
    else if byte == 2 then StoreRight2(v, r)
    else StoreRight3(v, r)
  }

  // ---- execution ----

  /** What an instruction reads and writes. */
  datatype Kind =
    | RegReg | RegImm | Shift | Upper | FromHi | FromLo | ToHi | ToLo | Long
    | Equality | Comparison | Linking | Jump | JumpLink | JumpReg | JumpRegLink
    | Load | Merge | Store | StoreMerge | Call | Illegal

  function KindOf(op: Op): Kind {
    match op
    case ADD | ADDU | SUB | SUBU | AND | NOR | OR | XOR | SLLV | SRAV | SRLV | SLT | SLTU => RegReg
    case ADDI | ADDIU | ANDI | ORI | XORI | SLTI | SLTIU => RegImm
    case SLL | SRA | SRL => Shift
    case LUI => Upper
    case MFHI => FromHi
    case MFLO => FromLo
    case MTHI => ToHi
    case MTLO => ToLo
    case DIV | DIVU | MULT | MULTU => Long
    case BEQ | BNE => Equality
    case BGEZ | BGTZ | BLEZ | BLTZ => Comparison
    case BGEZAL | BLTZAL => Linking
    case J => Jump
    case JAL => JumpLink
    case JR => JumpReg
    case JALR => JumpRegLink
    case LB | LBU | LH | LHU | LW => Load
    case LWL | LWR => Merge
    case SB | SH | SW => Store
    case SWL | SWR => StoreMerge
    case SYSCALL => Call
    case UNIMP | RES | SPECIAL | BCOND => Illegal
  }

  /** Two registers to one; nothing on overflow. */
  function Combine(op: Op, a: bv32, b: bv32): Option<bv32> {
    match op
    case ADD => if !Negative(Xor(a, b)) && Negative(Xor(a, Plus(a, b))) then None else Some(Plus(a, b))
    case SUB => if Negative(Xor(a, b)) && Negative(Xor(a, Minus(a, b))) then None else Some(Minus(a, b))
    case ADDU => Some(Plus(a, b))
    case SUBU => Some(Minus(a, b))
    case AND => Some(And(a, b))
    case NOR => Some(Not(Or(a, b)))
    case OR => Some(Or(a, b))
    case XOR => Some(Xor(a, b))
    case SLLV => Some(LeftBy(b, a))
    case SRAV | SRLV => Some(SignedRight(b, a))
    case SLT => Some(if SignedLess(a, b) then 1 else 0)
    case _ => Some(if Value(a) < Value(b) then 1 else 0)
  }

  /** A register and an immediate to one register. */
  function CombineImm(op: Op, a: bv32, x: bv32): Option<bv32> {
    match op
    case ADDI => if !Negative(Xor(a, x)) && Negative(Xor(x, Plus(a, x))) then None else Some(Plus(a, x))
    case ADDIU => Some(Plus(a, x))
    case ANDI => Some(And(a, Low16(x)))
    case ORI => Some(Or(a, Low16(x)))
    case XORI => Some(Xor(a, Low16(x)))
    case SLTI => Some(if SignedLess(a, x) then 1 else 0)
    case _ => Some(if Value(a) < Value(x) then 1 else 0)
  }

  /** The right shifts all keep the sign. */
  function Shifted(op: Op, b: bv32, x: bv32): bv32 {
    if op == SLL then LeftBy(b, x) else SignedRight(b, x)
  }

  /** The new `hi` and `lo`. */
  function LongResult(op: Op, a: bv32, b: bv32): (bv32, bv32) {
    match op
    case DIV => Divided(a, b)
    case DIVU => DividedUnsigned(a, b)
    case MULT => Multiplied(a, b, true)
    case _ => Multiplied(a, b, false)
  }

  predicate Compares(op: Op, a: bv32) {
    match op
    case BGEZ | BGEZAL => !Negative(a)
    case BLTZ | BLTZAL => Negative(a)
    case BGTZ => SignedLess(0, a)
    case _ => !SignedLess(0, a)
  }

  function Offset(base: bv32, x: bv32): bv32 {
    Plus(base, LeftBy(x, 2))
  }

  function Region(link: bv32, x: bv32): bv32 {
    Or(And(link, 0xf000_0000), LeftBy(x, 2))
  }

  function Plus4(pc: bv32): bv32 {
    Plus(pc, 4)
  }

  /** The processor. `gp` are the general registers; the others are the special
      ones, with the register and value of the pending load. */
  datatype Cpu = Cpu(
    gp: seq<bv32>, hi: bv32, lo: bv32, pc: bv32, nextPC: bv32, prevPC: bv32,
    loadReg: reg, loadValue: bv32, badVAddr: bv32)

  /** What an instruction does once its operands are known: trap, or give a value
      for its destination, new `hi` and `lo`, a load to be delayed, and the PC
      after the next. */
  datatype Effect =
    | Trap(which: Exception, bad: bv32)
    | Done(result: bv32, hi: bv32, lo: bv32, loadReg: reg, loadValue: bv32, pcAfter: bv32)

  datatype Operands = Operands(rs: bv32, rt: bv32, merge: bv32, hi: bv32, lo: bv32, nextPC: bv32)

  function Assign(o: Operands, r: Option<bv32>): Effect {
    if r.None? then Trap(OverflowException, 0) else Done(r.value, o.hi, o.lo, 0, 0, Plus4(o.nextPC))
  }

  function HiLo(o: Operands, hi: bv32, lo: bv32): Effect {
    Done(0, hi, lo, 0, 0, Plus4(o.nextPC))
  }

  function Goto(o: Operands, target: bv32): Effect {
    Done(Plus4(o.nextPC), o.hi, o.lo, 0, 0, target)
  }

  function Branch(o: Operands, i: Instr, taken: bool): Effect {
    Goto(o, if taken then Offset(o.nextPC, i.extra) else Plus4(o.nextPC))
  }

  function Loaded(o: Operands, rt: reg, value: bv32): Effect {
    Done(0, o.hi, o.lo, rt, value, Plus4(o.nextPC))
  }

  function Compute(i: Instr, o: Operands): Effect {
    match KindOf(i.op)
    case RegReg => Assign(o, Combine(i.op, o.rs, o.rt))
    case RegImm => Assign(o, CombineImm(i.op, o.rs, i.extra))
    case Shift => Assign(o, Some(Shifted(i.op, o.rt, i.extra)))
    case Upper => Assign(o, Some(LeftBy(i.extra, 16)))
    case FromHi => Assign(o, Some(o.hi))
    case FromLo => Assign(o, Some(o.lo))
    case ToHi => HiLo(o, o.rs, o.lo)
    case ToLo => HiLo(o, o.hi, o.rs)
    case Long => HiLo(o, LongResult(i.op, o.rs, o.rt).0, LongResult(i.op, o.rs, o.rt).1)
    case Call => Trap(SyscallException, 0)
    case _ => Trap(IllegalInstrException, 0)
  }

  predicate Transfers(kind: Kind) {
    match kind
    case Equality | Comparison | Linking | Jump | JumpLink | JumpReg | JumpRegLink => true
    case _ => false
  }

  /** A link register is written before the register is tested or jumped to. */
  function Transfer(i: Instr, o: Operands): Effect {
    var link := Plus4(o.nextPC);
    match KindOf(i.op)
    case Equality => Branch(o, i, (o.rs == o.rt) == (i.op == BEQ))
    case Comparison => Branch(o, i, Compares(i.op, o.rs))
    case Linking => Branch(o, i, Compares(i.op, if i.rs == 31 then link else o.rs))
    case JumpReg => Goto(o, o.rs)
    case JumpRegLink => Goto(o, if i.rd == i.rs then link else o.rs)
    case _ => Goto(o, Region(link, i.extra))
  }

  function SizeOf(op: Op): (n: nat)
    ensures n in {1, 2, 4}
  {
    if op in {LB, LBU, SB} then 1 else if op in {LH, LHU, SH} then 2 else 4
  }

  function Extended(op: Op, value: bv32): bv32 {
    match op
    case LB => if value & 0x80 != 0 then value | 0xffff_ff00 else value & 0xff
    case LBU => value & 0xff
    case LH => if value & 0x8000 != 0 then value | 0xffff_0000 else value & 0xffff
    case LHU => value & 0xffff
    case _ => value
  }

  function Address(base: bv32, x: bv32): nat {
    Value(Plus(base, x))
  }

  /** Loads and stores at the effective address; the unaligned ones access the
      aligned word around it. */
  function Access(i: Instr, o: Operands, m: Memory): (r: (Effect, Memory))
    requires Wf(m)
    ensures Wf(r.1)
  {
    var addr := Address(o.rs, i.extra);
    var byte := addr % 4;
    if KindOf(i.op) == StoreMerge then
      var (r, m') := ReadMem(m, addr - byte, 4);
      if r.Fault? then (Trap(r.which, FromInt(addr - byte)), m') else
        Written(o, m', addr - byte, 4, StoreValue(i.op, r.value, o.rt, byte))
    else if KindOf(i.op) == Store then
      Written(o, m, addr, SizeOf(i.op), o.rt)
    else
      var at := if KindOf(i.op) == Merge then addr - byte else addr;
      var (r, m') := ReadMem(m, at, SizeOf(i.op));
      (if r.Fault? then Trap(r.which, FromInt(at))
       else Loaded(o, i.rt, if KindOf(i.op) == Merge then Merged(i.op, o.merge, r.value, byte) else Extended(i.op, r.value)), m')
  }

  function Written(o: Operands, m: Memory, addr: nat, size: nat, value: bv32): (r: (Effect, Memory))
    requires Wf(m) && size in {1, 2, 4}
    ensures Wf(r.1)
  {
    var (r, m') := WriteMem(m, addr, size, value);
    (if r.Fault? then Trap(r.which, FromInt(addr)) else HiLo(o, o.hi, o.lo), m')
  }

  function Merged(op: Op, merge: bv32, value: bv32, byte: nat): bv32
    requires byte < 4
  {
    if op == LWL then MergeLeft(merge, value, byte) else MergeRight(merge, value, byte)
  }

  function StoreValue(op: Op, value: bv32, r: bv32, byte: nat): bv32
    requires byte < 4
  {
    if op == SWL then StoreLeft(value, r, byte) else StoreRight(value, r, byte)
  }

  predicate Accesses(kind: Kind) {
    kind.Load? || kind.Merge? || kind.Store? || kind.StoreMerge?
  }

  function Execute(i: Instr, o: Operands, m: Memory): (r: (Effect, Memory))
    requires Wf(m)
    ensures Wf(r.1)
  {
    if Accesses(KindOf(i.op)) then Access(i, o, m)
    else if Transfers(KindOf(i.op)) then (Transfer(i, o), m)
    else (Compute(i, o), m)
  }

  /** The general register that an instruction writes at once. */
  function Dest(i: Instr): Option<reg> {
    match KindOf(i.op)
    case RegReg | Shift | FromHi | FromLo | JumpRegLink => Some(i.rd)
    case RegImm | Upper => Some(i.rt)
    case Linking | JumpLink => Some(31)
    case _ => None
  }

  /** Apply the pending load, make a new one pending, and keep register 0 zero. */
  function DelayedLoad(c: Cpu, nextReg: reg, nextValue: bv32): (c': Cpu)
    requires |c.gp| == 32
    ensures |c'.gp| == 32 && c'.gp[0] == 0
  {
    c.(gp := c.gp[c.loadReg := c.loadValue][0 := 0], loadReg := nextReg, loadValue := nextValue)
  }

  function OperandsOf(c: Cpu, i: Instr): Operands
    requires |c.gp| == 32
  {
    Operands(c.gp[i.rs], c.gp[i.rt], if c.loadReg == i.rt then c.loadValue else c.gp[i.rt],
             c.hi, c.lo, c.nextPC)
  }

  /** Install what an instruction does. A trap finishes the pending load. */
  function Installed(c: Cpu, i: Instr, e: Effect): (c': Cpu)
    requires |c.gp| == 32
    ensures |c'.gp| == 32 && c'.gp[0] == 0
  {
    match e
    case Trap(_, bad) => DelayedLoad(c.(badVAddr := bad), 0, 0)
    case Done(result, hi, lo, loadReg, loadValue, pcAfter) =>
      var gp := if Dest(i).Some? then c.gp[Dest(i).value := result] else c.gp;
      DelayedLoad(c.(gp := gp, hi := hi, lo := lo), loadReg, loadValue).(prevPC := c.pc, pc := c.nextPC, nextPC := pcAfter)
  }

  function Step(c: Cpu, m: Memory, i: Instr): (r: (Cpu, Memory))
    requires |c.gp| == 32 && Wf(m)
    ensures |r.0.gp| == 32 && r.0.gp[0] == 0 && Wf(r.1)
  {
    var (e, m') := Execute(i, OperandsOf(c, i), m);
    (Installed(c, i, e), m')
  }

  function Fetch(pc: bv32, m: Memory): (r: (Result<Instr>, Memory))
    requires Wf(m)
    ensures Wf(r.1)
  {
    var (raw, m') := ReadMem(m, Value(pc), 4);
    (if raw.Fault? then Fault(raw.which) else Ok(Decode(raw.value)), m')
  }

  /** Fetch, decode and execute. */
  function OneInstruction(c: Cpu, m: Memory): (r: (Cpu, Memory))
    requires |c.gp| == 32 && Wf(m)
    ensures |r.0.gp| == 32 && r.0.gp[0] == 0 && Wf(r.1)
  {
    var (i, m') := Fetch(c.pc, m);
    if i.Fault? then (Installed(c, Instr(RES, 0, 0, 0, 0), Trap(i.which, c.pc)), m') else Step(c, m', i.value)
  }

  /** The fetch faults, or the instruction traps. */
  predicate Traps(c: Cpu, m: Memory)
    requires |c.gp| == 32 && Wf(m)
  {
    var (i, m') := Fetch(c.pc, m);
    i.Fault? || Execute(i.value, OperandsOf(c, i.value), m').0.Trap?
  }

  // ---- the machine as an object ----

  class Machine {
    const registers: array<bv32>
    var hi: bv32
    var lo: bv32
    var pc: bv32
    var nextPC: bv32
    var prevPC: bv32
    var loadReg: reg
    var loadValue: bv32
    var badVAddr: bv32
    var memory: Memory

    ghost function State(): Cpu
      reads this, registers
    {
      Cpu(registers[..], hi, lo, pc, nextPC, prevPC, loadReg, loadValue, badVAddr)
    }

    constructor (table: Table)
      ensures registers.Length == 32 && fresh(registers) && State().gp[0] == 0 && Wf(memory) && memory.table == table
    {
      registers := new bv32[32](_ => 0);
      hi, lo, pc, nextPC, prevPC, loadReg, loadValue, badVAddr := 0, 0, 0, 0, 0, 0, 0, 0;
      memory := Memory(seq(MEMORY_SIZE, _ => 0), table);
    }

    method ApplyDelayedLoad(nextReg: reg, nextValue: bv32)
      requires registers.Length == 32
      modifies this`loadReg, this`loadValue, registers
      ensures State() == DelayedLoad(old(State()), nextReg, nextValue)
    {
      registers[loadReg] := loadValue;
      loadReg := nextReg;
      loadValue := nextValue;
      registers[0] := 0;
    }

    /** The state in which the kernel's exception handler is called. */
    method RaiseException(i: Instr, which: Exception, bad: bv32)
      requires registers.Length == 32
      modifies this`badVAddr, this`loadReg, this`loadValue, registers
      ensures State() == Installed(old(State()), i, Trap(which, bad))
    {
      badVAddr := bad;
      ApplyDelayedLoad(0, 0);
    }

    /** Write the registers, do the delayed load, advance the program counters. */
    method Finish(i: Instr, e: Effect)
      requires registers.Length == 32 && e.Done?
      modifies this, registers
      ensures State() == Installed(old(State()), i, e) && memory == old(memory)
    {
      hide Dest;
      var d := Dest(i);
      if d.Some? {
        registers[d.value] := e.result;
      }
      hi, lo := e.hi, e.lo;
      ApplyDelayedLoad(e.loadReg, e.loadValue);
      prevPC := pc;
      pc := nextPC;
      nextPC := e.pcAfter;
    }

    method Perform(i: Instr) returns (trapped: bool)
      requires registers.Length == 32 && Wf(memory)
      modifies this, registers
      ensures (State(), memory) == Step(old(State()), old(memory), i) && Wf(memory)
      ensures trapped <==> Execute(i, OperandsOf(old(State()), i), old(memory)).0.Trap?
    {
      hide Execute, Installed, Wf;
      var merge := if loadReg == i.rt then loadValue else registers[i.rt];
      var o := Operands(registers[i.rs], registers[i.rt], merge, hi, lo, nextPC);
      assert o == OperandsOf(State(), i);
      var (e, m') := Execute(i, o, memory);
      memory := m';
      trapped := e.Trap?;
      if trapped {
        RaiseException(i, e.which, e.bad);
      } else {
        Finish(i, e);
      }
    }

    /** One turn of the machine's loop. */
    method Run() returns (trapped: bool)
      requires registers.Length == 32 && Wf(memory)
      modifies this, registers
      ensures (State(), memory) == OneInstruction(old(State()), old(memory)) && Wf(memory)
      ensures trapped <==> Traps(old(State()), old(memory))
    {
      hide Fetch, Step, Execute, Installed, Wf;
      var (fetched, m) := Fetch(pc, memory);
      memory := m;
      if fetched.Fault? {
        RaiseException(Instr(RES, 0, 0, 0, 0), fetched.which, pc);
        return true;
      }
      trapped := Perform(fetched.value);
    }
  }
}
