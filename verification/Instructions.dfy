/** What each instruction does, said in numbers: every instruction of the
    processor against integer arithmetic and the bytes of memory. */
module Instructions {
  import opened Common
  import opened Bytes
  import opened Words
  import opened Memories
  import opened Multiplication
  import opened Mips

  // ---- what a step changes ----

  /** The general registers: register 0 is zero, the pending load comes in, and one
      register may get a result. */
  ghost predicate Registers(c: Cpu, s: Cpu, d: Option<reg>, r: bv32)
    requires |c.gp| == 32 == |s.gp|
  {
    forall k: reg :: s.gp[k] == if k == 0 then 0 else if k == c.loadReg then c.loadValue else if d == Some(k) then r else c.gp[k]
  }

  /** The program counters, and what no instruction but a trap touches. */
  ghost predicate GoesOn(c: Cpu, s: Cpu, after: int) {
    s.prevPC == c.pc && s.pc == c.nextPC && Value(s.nextPC) == after && s.badVAddr == c.badVAddr
  }

  function After4(c: Cpu): int {
    (Value(c.nextPC) + 4) % 0x1_0000_0000
  }

  /** `d` gets `r`, the next instruction follows, and nothing else changes. */
  ghost predicate Assigns(c: Cpu, m: Memory, i: Instr, d: reg, r: bv32)
    requires |c.gp| == 32 && Wf(m)
  {
    var (s, m') := Step(c, m, i);
    Registers(c, s, Some(d), r) && GoesOn(c, s, After4(c)) && s.hi == c.hi && s.lo == c.lo && s.loadReg == 0 && m' == m
  }

  /** `hi` and `lo` are set. */
  ghost predicate SetsHiLo(c: Cpu, m: Memory, i: Instr, hi: bv32, lo: bv32)
    requires |c.gp| == 32 && Wf(m)
  {
    var (s, m') := Step(c, m, i);
    Registers(c, s, None, 0) && GoesOn(c, s, After4(c)) && s.hi == hi && s.lo == lo && s.loadReg == 0 && m' == m
  }

  /** An exception: the instruction is not finished, and memory is as it was. */
  ghost predicate Raises(c: Cpu, m: Memory, i: Instr, which: Exception, bad: bv32)
    requires |c.gp| == 32 && Wf(m)
  {
    var (s, m') := Step(c, m, i);
    && Execute(i, OperandsOf(c, i), m).0 == Trap(which, bad)
    && Registers(c, s, None, 0) && s == c.(gp := s.gp, loadReg := 0, loadValue := 0, badVAddr := bad) && m'.bytes == m.bytes
  }

  /** Control goes to `target` after the next instruction. */
  ghost predicate GoesTo(c: Cpu, m: Memory, i: Instr, target: int)
    requires |c.gp| == 32 && Wf(m)
  {
    var (s, m') := Step(c, m, i);
    Registers(c, s, None, 0) && GoesOn(c, s, target) && s.hi == c.hi && s.lo == c.lo && s.loadReg == 0 && m' == m
  }

  /** The same, and `d` gets the address of the instruction to return to. */
  ghost predicate CallsTo(c: Cpu, m: Memory, i: Instr, d: reg, target: int)
    requires |c.gp| == 32 && Wf(m)
  {
    var (s, m') := Step(c, m, i);
    && (exists link :: Value(link) == After4(c) && Registers(c, s, Some(d), link))
    && GoesOn(c, s, target) && s.hi == c.hi && s.lo == c.lo && s.loadReg == 0 && m' == m
  }

  lemma After4Is(pc: bv32)
    ensures Value(Plus4(pc)) == (Value(pc) + 4) % 0x1_0000_0000
  {
    hide Value, Plus, Plus4;
    Constants();
    SumWraps(pc, 4);
    Plus4Is(pc);
  }

  lemma LinkIs(c: Cpu)
    ensures Value(Plus4(c.nextPC)) == After4(c)
  {
    hide Value, Plus4;
    After4Is(c.nextPC);
  }

  lemma Plus4Is(pc: bv32)
    ensures Plus4(pc) == Plus(pc, 4)
  {
  }

  lemma Installs(c: Cpu, i: Instr, e: Effect)
    requires |c.gp| == 32
    ensures var s := Installed(c, i, e);
            && Registers(c, s, if e.Done? then Dest(i) else None, if e.Done? then e.result else 0)
            && (e.Trap? ==> s == c.(gp := s.gp, loadReg := 0, loadValue := 0, badVAddr := e.bad))
            && (e.Done? ==> s.hi == e.hi && s.lo == e.lo && s.loadReg == e.loadReg && s.loadValue == e.loadValue)
            && (e.Done? ==> GoesOn(c, s, Value(e.pcAfter)))
  {
    hide Dest, Value;
  }

  lemma Computes(i: Instr, o: Operands, m: Memory)
    requires Wf(m) && !Accesses(KindOf(i.op)) && !Transfers(KindOf(i.op))
    ensures Execute(i, o, m) == (Compute(i, o), m)
  {
    hide Compute, Transfer, Access, KindOf;
  }

  lemma AssignStep(c: Cpu, m: Memory, i: Instr, d: reg, r: bv32)
    requires |c.gp| == 32 && Wf(m) && Dest(i) == Some(d)
    requires Execute(i, OperandsOf(c, i), m) == (Assign(OperandsOf(c, i), Some(r)), m)
    ensures Assigns(c, m, i, d, r)
  {
    hide Execute, Installed, Dest, Value, Plus4, Registers;
    Installs(c, i, Assign(OperandsOf(c, i), Some(r)));
    After4Is(c.nextPC);
  }

  lemma HiLoStep(c: Cpu, m: Memory, i: Instr, hi: bv32, lo: bv32)
    requires |c.gp| == 32 && Wf(m) && Dest(i) == None
    requires Execute(i, OperandsOf(c, i), m) == (HiLo(OperandsOf(c, i), hi, lo), m)
    ensures SetsHiLo(c, m, i, hi, lo)
  {
    hide Execute, Installed, Dest, Value, Plus4;
    Installs(c, i, HiLo(OperandsOf(c, i), hi, lo));
    After4Is(c.nextPC);
  }

  lemma TrapStep(c: Cpu, m: Memory, i: Instr, which: Exception, bad: bv32, m': Memory)
    requires |c.gp| == 32 && Wf(m) && Execute(i, OperandsOf(c, i), m) == (Trap(which, bad), m') && m'.bytes == m.bytes
    ensures Raises(c, m, i, which, bad)
  {
    hide Execute, Installed, Dest, Value, Plus4, Registers;
    Installs(c, i, Trap(which, bad));
  }

  // ---- arithmetic ----

  /** `d` gets the word that stands for `v`. */
  ghost predicate Gives(c: Cpu, m: Memory, i: Instr, d: reg, v: int)
    requires |c.gp| == 32 && Wf(m)
  {
    exists r :: Value(r) == v && Assigns(c, m, i, d, r)
  }

  lemma Chooses(c: Cpu, m: Memory, i: Instr, d: reg, r: Option<bv32>)
    requires |c.gp| == 32 && Wf(m) && Dest(i) == Some(d)
    requires Execute(i, OperandsOf(c, i), m) == (Assign(OperandsOf(c, i), r), m)
    ensures if r.Some? then Assigns(c, m, i, d, r.value) && Gives(c, m, i, d, Value(r.value)) else Raises(c, m, i, OverflowException, 0)
  {
    hide Execute, Dest, Value, Assigns, Raises, OperandsOf;
    if r.Some? {
      AssignStep(c, m, i, d, r.value);
    } else {
      TrapStep(c, m, i, OverflowException, 0, m);
    }
  }

  lemma RegRegKind(op: Op)
    requires op in {ADD, ADDU, SUB, SUBU, AND, NOR, OR, XOR, SLLV, SRAV, SRLV, SLT, SLTU}
    ensures KindOf(op) == RegReg
  {
  }

  lemma RegImmKind(op: Op)
    requires op in {ADDI, ADDIU, ANDI, ORI, XORI, SLTI, SLTIU}
    ensures KindOf(op) == RegImm
  {
  }

  lemma RegRegStep(c: Cpu, m: Memory, i: Instr, r: Option<bv32>)
    requires |c.gp| == 32 && Wf(m) && KindOf(i.op) == RegReg && r == Combine(i.op, c.gp[i.rs], c.gp[i.rt])
    ensures if r.Some? then Assigns(c, m, i, i.rd, r.value) && Gives(c, m, i, i.rd, Value(r.value)) else Raises(c, m, i, OverflowException, 0)
  {
    hide Execute, KindOf, Combine, Value, Gives, Assigns, Raises, Assign;
    Computes(i, OperandsOf(c, i), m);
    Chooses(c, m, i, i.rd, r);
  }

  lemma RegImmStep(c: Cpu, m: Memory, i: Instr, r: Option<bv32>)
    requires |c.gp| == 32 && Wf(m) && KindOf(i.op) == RegImm && r == CombineImm(i.op, c.gp[i.rs], i.extra)
    ensures if r.Some? then Assigns(c, m, i, i.rt, r.value) && Gives(c, m, i, i.rt, Value(r.value)) else Raises(c, m, i, OverflowException, 0)
  {
    hide Execute, KindOf, CombineImm, Value, Gives, Assigns, Raises, Assign;
    Computes(i, OperandsOf(c, i), m);
    Chooses(c, m, i, i.rt, r);
  }

  lemma AddWords(a: bv32, b: bv32)
    ensures Combine(ADDU, a, b) == Some(Plus(a, b)) && Combine(SUBU, a, b) == Some(Minus(a, b))
  {
    hide Plus, Minus, And, Or, Xor, Not, LeftBy, SignedRight, Negative, Value, SignedValue, SignedLess;
  }

  lemma AddImmediates(a: bv32, x: bv32)
    ensures CombineImm(ADDIU, a, x) == Some(Plus(a, x))
  {
    hide Plus, And, Or, Xor, Negative, Low16, Value, SignedValue, SignedLess;
  }

  /** Sums and differences are modulo 2^32. */
  lemma WrappingSum(c: Cpu, m: Memory, i: Instr)
    requires |c.gp| == 32 && Wf(m) && i.op == ADDU
    ensures Gives(c, m, i, i.rd, (Value(c.gp[i.rs]) + Value(c.gp[i.rt])) % 0x1_0000_0000)
  {
    hide *;
    AddWords(c.gp[i.rs], c.gp[i.rt]);
    RegRegKind(i.op);
    SumWraps(c.gp[i.rs], c.gp[i.rt]);
    RegRegStep(c, m, i, Some(Plus(c.gp[i.rs], c.gp[i.rt])));
  }

  lemma WrappingDifference(c: Cpu, m: Memory, i: Instr)
    requires |c.gp| == 32 && Wf(m) && i.op == SUBU
    ensures Gives(c, m, i, i.rd, (Value(c.gp[i.rs]) - Value(c.gp[i.rt])) % 0x1_0000_0000)
  {
    hide *;
    AddWords(c.gp[i.rs], c.gp[i.rt]);
    RegRegKind(i.op);
    DifferenceWraps(c.gp[i.rs], c.gp[i.rt]);
    RegRegStep(c, m, i, Some(Minus(c.gp[i.rs], c.gp[i.rt])));
  }

  lemma WrappingImmediate(c: Cpu, m: Memory, i: Instr)
    requires |c.gp| == 32 && Wf(m) && i.op == ADDIU
    ensures Gives(c, m, i, i.rt, (Value(c.gp[i.rs]) + Value(i.extra)) % 0x1_0000_0000)
  {
    hide *;
    AddImmediates(c.gp[i.rs], i.extra);
    SumWraps(c.gp[i.rs], i.extra);
    RegImmKind(i.op);
    RegImmStep(c, m, i, Some(Plus(c.gp[i.rs], i.extra)));
  }

  /** The sum, or an overflow exception exactly when it does not fit. */
  ghost predicate GivesIfFits(c: Cpu, m: Memory, i: Instr, d: reg, n: int)
    requires |c.gp| == 32 && Wf(m)
  {
    if Fits(n) then Gives(c, m, i, d, n % 0x1_0000_0000) else Raises(c, m, i, OverflowException, 0)
  }

  lemma SignedWraps(x: bv32, y: bv32)
    ensures Value(Plus(x, y)) == (SignedValue(x) + SignedValue(y)) % 0x1_0000_0000
    ensures Value(Minus(x, y)) == (SignedValue(x) - SignedValue(y)) % 0x1_0000_0000
  {
    hide Value, Plus, Minus;
    SumWraps(x, y);
    DifferenceWraps(x, y);
    var s, t := if Value(x) >= 0x8000_0000 then 1 else 0, if Value(y) >= 0x8000_0000 then 1 else 0;
    Shifts(Value(x) + Value(y), s + t);
    Shifts(Value(x) - Value(y), s - t);
  }

  lemma Shifts(n: int, k: int)
    ensures (n - 0x1_0000_0000 * k) % 0x1_0000_0000 == n % 0x1_0000_0000
  {
    Remainder(n - 0x1_0000_0000 * k, n / 0x1_0000_0000 - k, n % 0x1_0000_0000);
  }

  lemma AddResult(a: bv32, b: bv32)
    ensures Combine(ADD, a, b) == CombineImm(ADDI, a, b) == if Fits(SignedValue(a) + SignedValue(b)) then Some(Plus(a, b)) else None
  {
    hide Plus, Minus, And, Or, Xor, Not, LeftBy, SignedRight, Low16, Negative, Value, SignedValue, SignedLess, Fits;
    SumOverflows(a, b);
  }

  lemma SubtractResult(a: bv32, b: bv32)
    ensures Combine(SUB, a, b) == if Fits(SignedValue(a) - SignedValue(b)) then Some(Minus(a, b)) else None
  {
    hide Plus, Minus, And, Or, Xor, Not, LeftBy, SignedRight, Negative, Value, SignedValue, Fits;
    DifferenceOverflows(a, b);
  }

  lemma TrappingSum(c: Cpu, m: Memory, i: Instr)
    requires |c.gp| == 32 && Wf(m) && i.op == ADD
    ensures GivesIfFits(c, m, i, i.rd, SignedValue(c.gp[i.rs]) + SignedValue(c.gp[i.rt]))
  {
    hide KindOf, Combine, CombineImm, Plus, Minus, Value, SignedValue, Gives, Assigns, Raises, Fits;
    SignedWraps(c.gp[i.rs], c.gp[i.rt]);
    AddResult(c.gp[i.rs], c.gp[i.rt]);
    RegRegKind(i.op);
    RegRegStep(c, m, i, Combine(ADD, c.gp[i.rs], c.gp[i.rt]));
  }

  lemma TrappingDifference(c: Cpu, m: Memory, i: Instr)
    requires |c.gp| == 32 && Wf(m) && i.op == SUB
    ensures GivesIfFits(c, m, i, i.rd, SignedValue(c.gp[i.rs]) - SignedValue(c.gp[i.rt]))
  {
    hide KindOf, Combine, CombineImm, Plus, Minus, Value, SignedValue, Gives, Assigns, Raises, Fits;
    SignedWraps(c.gp[i.rs], c.gp[i.rt]);
    SubtractResult(c.gp[i.rs], c.gp[i.rt]);
    RegRegKind(i.op);
    RegRegStep(c, m, i, Combine(SUB, c.gp[i.rs], c.gp[i.rt]));
  }

  lemma TrappingImmediate(c: Cpu, m: Memory, i: Instr)
    requires |c.gp| == 32 && Wf(m) && i.op == ADDI
    ensures GivesIfFits(c, m, i, i.rt, SignedValue(c.gp[i.rs]) + SignedValue(i.extra))
  {
    hide KindOf, Combine, CombineImm, Plus, Minus, Value, SignedValue, Gives, Assigns, Raises, Fits;
    SignedWraps(c.gp[i.rs], i.extra);
    AddResult(c.gp[i.rs], i.extra);
    RegImmKind(i.op);
    RegImmStep(c, m, i, CombineImm(ADDI, c.gp[i.rs], i.extra));
  }

  function Flag(b: bool): bv32 {
    if b then 1 else 0
  }

  lemma CompareWords(a: bv32, b: bv32)
    ensures Combine(SLT, a, b) == Some(Flag(SignedValue(a) < SignedValue(b)))
    ensures Combine(SLTU, a, b) == Some(Flag(Value(a) < Value(b)))
  {
    hide Plus, Minus, And, Or, Xor, Not, LeftBy, SignedRight, Negative, Value, SignedValue;
  }

  lemma CompareImmediates(a: bv32, b: bv32)
    ensures CombineImm(SLTI, a, b) == Some(Flag(SignedValue(a) < SignedValue(b)))
    ensures CombineImm(SLTIU, a, b) == Some(Flag(Value(a) < Value(b)))
  {
    hide Plus, And, Or, Xor, Negative, Low16, Value, SignedValue;
  }

  lemma FlagValue(b: bool)
    ensures Value(Flag(b)) == if b then 1 else 0
  {
  }

  /** One if less, and otherwise zero. */
  lemma Comparisons(c: Cpu, m: Memory, i: Instr)
    requires |c.gp| == 32 && Wf(m) && (i.op == SLT || i.op == SLTU)
    ensures var a, b := c.gp[i.rs], c.gp[i.rt];
            Gives(c, m, i, i.rd, if (if i.op == SLT then SignedValue(a) < SignedValue(b) else Value(a) < Value(b)) then 1 else 0)
  {
    hide *;
    var a, b := c.gp[i.rs], c.gp[i.rt];
    CompareWords(a, b);
    FlagValue(SignedValue(a) < SignedValue(b));
    FlagValue(Value(a) < Value(b));
    RegRegKind(i.op);
    RegRegStep(c, m, i, Combine(i.op, a, b));
  }

  lemma ComparisonsImmediate(c: Cpu, m: Memory, i: Instr)
    requires |c.gp| == 32 && Wf(m) && (i.op == SLTI || i.op == SLTIU)
    ensures var a, x := c.gp[i.rs], i.extra;
            Gives(c, m, i, i.rt, if (if i.op == SLTI then SignedValue(a) < SignedValue(x) else Value(a) < Value(x)) then 1 else 0)
  {
    hide *;
    var a, x := c.gp[i.rs], i.extra;
    CompareImmediates(a, x);
    FlagValue(SignedValue(a) < SignedValue(x));
    FlagValue(Value(a) < Value(x));
    RegImmKind(i.op);
    RegImmStep(c, m, i, CombineImm(i.op, a, x));
  }

  /** `d` gets a word whose bits are given. */
  ghost predicate GivesBits(c: Cpu, m: Memory, i: Instr, d: reg, bit: bv32 -> bool)
    requires |c.gp| == 32 && Wf(m)
  {
    exists r :: Assigns(c, m, i, d, r) && forall k :: Bit(r, k) <==> bit(k)
  }

  lemma BitsGiven(c: Cpu, m: Memory, i: Instr, d: reg, r: bv32, bit: bv32 -> bool)
    requires |c.gp| == 32 && Wf(m) && Assigns(c, m, i, d, r) && forall k :: Bit(r, k) <==> bit(k)
    ensures GivesBits(c, m, i, d, bit)
  {
  }

  lemma LogicWords(a: bv32, b: bv32)
    ensures Combine(AND, a, b) == Some(And(a, b)) && Combine(OR, a, b) == Some(Or(a, b))
    ensures Combine(XOR, a, b) == Some(Xor(a, b)) && Combine(NOR, a, b) == Some(Not(Or(a, b)))
  {
    hide Plus, Minus, And, Or, Xor, Not, LeftBy, SignedRight, Negative, Value, SignedValue, SignedLess;
  }

  lemma LogicImmediates(a: bv32, x: bv32)
    ensures CombineImm(ANDI, a, x) == Some(And(a, Low16(x))) && CombineImm(ORI, a, x) == Some(Or(a, Low16(x)))
    ensures CombineImm(XORI, a, x) == Some(Xor(a, Low16(x)))
  {
    hide Plus, And, Or, Xor, Negative, Low16, Value, SignedValue;
  }

  lemma LogicBits(a: bv32, b: bv32)
    ensures forall k :: Bit(And(a, b), k) <==> Bit(a, k) && Bit(b, k)
    ensures forall k :: Bit(Or(a, b), k) <==> Bit(a, k) || Bit(b, k)
    ensures forall k :: Bit(Xor(a, b), k) <==> Bit(a, k) != Bit(b, k)
    ensures forall k :: Bit(Not(Or(a, b)), k) <==> !Bit(a, k) && !Bit(b, k)
  {
    hide Bit, And, Or, Xor, Not;
    forall k ensures Bit(And(a, b), k) <==> Bit(a, k) && Bit(b, k) {
      AndBit(a, b, k);
    }
    forall k ensures Bit(Or(a, b), k) <==> Bit(a, k) || Bit(b, k) {
      OrBit(a, b, k);
    }
    forall k ensures Bit(Xor(a, b), k) <==> Bit(a, k) != Bit(b, k) {
      XorBit(a, b, k);
    }
    forall k ensures Bit(Not(Or(a, b)), k) <==> !Bit(a, k) && !Bit(b, k) {
      OrBit(a, b, k);
      NotBit(Or(a, b), k);
    }
  }

  lemma AndGives(c: Cpu, m: Memory, i: Instr, d: reg, a: bv32, b: bv32)
    requires |c.gp| == 32 && Wf(m) && Assigns(c, m, i, d, And(a, b))
    ensures GivesBits(c, m, i, d, k => Bit(a, k) && Bit(b, k))
  {
    hide Assigns, Bit, And, Or, Xor, Not;
    LogicBits(a, b);
    BitsGiven(c, m, i, d, And(a, b), k => Bit(a, k) && Bit(b, k));
  }

  lemma OrGives(c: Cpu, m: Memory, i: Instr, d: reg, a: bv32, b: bv32)
    requires |c.gp| == 32 && Wf(m) && Assigns(c, m, i, d, Or(a, b))
    ensures GivesBits(c, m, i, d, k => Bit(a, k) || Bit(b, k))
  {
    hide Assigns, Bit, And, Or, Xor, Not;
    LogicBits(a, b);
    BitsGiven(c, m, i, d, Or(a, b), k => Bit(a, k) || Bit(b, k));
  }

  lemma XorGives(c: Cpu, m: Memory, i: Instr, d: reg, a: bv32, b: bv32)
    requires |c.gp| == 32 && Wf(m) && Assigns(c, m, i, d, Xor(a, b))
    ensures GivesBits(c, m, i, d, k => Bit(a, k) != Bit(b, k))
  {
    hide Assigns, Bit, And, Or, Xor, Not;
    LogicBits(a, b);
    BitsGiven(c, m, i, d, Xor(a, b), k => Bit(a, k) != Bit(b, k));
  }

  lemma NorGives(c: Cpu, m: Memory, i: Instr, d: reg, a: bv32, b: bv32)
    requires |c.gp| == 32 && Wf(m) && Assigns(c, m, i, d, Not(Or(a, b)))
    ensures GivesBits(c, m, i, d, k => !Bit(a, k) && !Bit(b, k))
  {
    hide Assigns, Bit, And, Or, Xor, Not;
    LogicBits(a, b);
    BitsGiven(c, m, i, d, Not(Or(a, b)), k => !Bit(a, k) && !Bit(b, k));
  }

  /** Bit by bit. */
  lemma Logic(c: Cpu, m: Memory, i: Instr)
    requires |c.gp| == 32 && Wf(m) && i.op in {AND, OR, XOR, NOR}
    ensures var a, b := c.gp[i.rs], c.gp[i.rt];
            && (i.op == AND ==> GivesBits(c, m, i, i.rd, k => Bit(a, k) && Bit(b, k)))
            && (i.op == OR ==> GivesBits(c, m, i, i.rd, k => Bit(a, k) || Bit(b, k)))
            && (i.op == XOR ==> GivesBits(c, m, i, i.rd, k => Bit(a, k) != Bit(b, k)))
            && (i.op == NOR ==> GivesBits(c, m, i, i.rd, k => !Bit(a, k) && !Bit(b, k)))
  {
    hide *;
    var a, b := c.gp[i.rs], c.gp[i.rt];
    LogicWords(a, b);
    RegRegKind(i.op);
    RegRegStep(c, m, i, Combine(i.op, a, b));
    match i.op
    case AND => AndGives(c, m, i, i.rd, a, b);
    case OR => OrGives(c, m, i, i.rd, a, b);
    case XOR => XorGives(c, m, i, i.rd, a, b);
    case NOR => NorGives(c, m, i, i.rd, a, b);
  }

  /** With the low half of the immediate, whose other bits are zero. */
  lemma LogicImmediate(c: Cpu, m: Memory, i: Instr)
    requires |c.gp| == 32 && Wf(m) && i.op in {ANDI, ORI, XORI}
    ensures var a, x := c.gp[i.rs], Low16(i.extra);
            && (i.op == ANDI ==> GivesBits(c, m, i, i.rt, k => Bit(a, k) && Bit(x, k)))
            && (i.op == ORI ==> GivesBits(c, m, i, i.rt, k => Bit(a, k) || Bit(x, k)))
            && (i.op == XORI ==> GivesBits(c, m, i, i.rt, k => Bit(a, k) != Bit(x, k)))
            && forall k :: Bit(x, k) <==> Bit(i.extra, k) && k & 0x10 == 0
  {
    hide *;
    var a, x := c.gp[i.rs], Low16(i.extra);
    forall k ensures Bit(x, k) <==> Bit(i.extra, k) && k & 0x10 == 0 {
      Low16Bit(i.extra, k);
    }
    LogicImmediates(a, i.extra);
    RegImmKind(i.op);
    RegImmStep(c, m, i, CombineImm(i.op, a, i.extra));
    match i.op
    case ANDI => AndGives(c, m, i, i.rt, a, x);
    case ORI => OrGives(c, m, i, i.rt, a, x);
    case XORI => XorGives(c, m, i, i.rt, a, x);
  }

  // ---- shifts and moves ----

  lemma ShiftStep(c: Cpu, m: Memory, i: Instr, r: bv32)
    requires |c.gp| == 32 && Wf(m) && KindOf(i.op) == Shift && r == Shifted(i.op, c.gp[i.rt], i.extra)
    ensures Assigns(c, m, i, i.rd, r) && Gives(c, m, i, i.rd, Value(r))
  {
    hide Execute, KindOf, Shifted, Value, Gives, Assigns, Raises, Assign;
    Computes(i, OperandsOf(c, i), m);
    Chooses(c, m, i, i.rd, Some(r));
  }

  /** `d` gets the word that stands for `v` in two's complement. */
  ghost predicate GivesSigned(c: Cpu, m: Memory, i: Instr, d: reg, v: int)
    requires |c.gp| == 32 && Wf(m)
  {
    exists r :: SignedValue(r) == v && Assigns(c, m, i, d, r)
  }

  lemma VariableWords(b: bv32, n: bv32)
    ensures Combine(SLLV, n, b) == Some(LeftBy(b, n))
    ensures Combine(SRAV, n, b) == Some(SignedRight(b, n)) && Combine(SRLV, n, b) == Some(SignedRight(b, n))
  {
    hide Plus, Minus, And, Or, Xor, Not, LeftBy, SignedRight, Negative, Value, SignedValue, SignedLess;
  }

  lemma ShiftWords(b: bv32, n: bv32)
    ensures Shifted(SLL, b, n) == LeftBy(b, n)
    ensures Shifted(SRA, b, n) == SignedRight(b, n) && Shifted(SRL, b, n) == SignedRight(b, n)
  {
    hide LeftBy, SignedRight;
  }

  lemma ShiftKind(op: Op)
    requires op in {SLL, SRA, SRL}
    ensures KindOf(op) == Shift
  {
  }

  function LowFive(n: bv32): bv32 { n & 0x1f }

  lemma LowFiveIs(b: bv32, n: bv32)
    ensures Distance(LowFive(n)) && LeftBy(b, n) == LeftBy(b, LowFive(n)) && RightBy(b, n) == RightBy(b, LowFive(n))
  {
  }

  lemma SignedRightLow(b: bv32, n: bv32)
    ensures SignedRight(b, n) == SignedRight(b, LowFive(n))
  {
    hide LeftBy, RightBy, LowFive, Negative, Not, Distance;
    LowFiveIs(b, n);
    LowFiveIs(Not(b), n);
  }

  lemma LowFiveValue(n: bv32)
    ensures Value(LowFive(n)) == Value(n) % 32
  {
    hide Value, LowFive, JoinFive, HighRest, LowPart;
    FiveParts(n);
    FivePartsAre(n);
    var q := FiveSplit(HighRest(n), LowPart(n));
    Remainder32(Value(n), q, Value(LowPart(n) as bv32));
  }

  lemma Remainder32(v: int, q: int, r: int)
    requires v == 32 * q + r && 0 <= r < 32
    ensures v % 32 == r
  {
  }

  function HighRest(n: bv32): bv27 { (n >> 5) as bv27 }
  function LowPart(n: bv32): bv5 { (n & 0x1f) as bv5 }
  function JoinFive(h: bv27, l: bv5): bv32 { ((h as bv32) << 5) | (l as bv32) }

  lemma FiveParts(n: bv32)
    ensures JoinFive((n >> 5) as bv27, (n & 0x1f) as bv5) == n && ((n & 0x1f) as bv5) as bv32 == LowFive(n)
  {
  }

  lemma FivePartsAre(n: bv32)
    ensures HighRest(n) == (n >> 5) as bv27 && LowPart(n) == (n & 0x1f) as bv5
  {
  }

  lemma FiveSplit(h: bv27, l: bv5) returns (q: int)
    ensures Value(JoinFive(h, l)) == 32 * q + Value(l as bv32) && 0 <= Value(l as bv32) < 32
  {
    q := h as int;
    FiveJoined(h, l);
  }

  lemma FiveJoined(h: bv27, l: bv5)
    ensures Value(JoinFive(h, l)) == 32 * (h as int) + l as int && Value(l as bv32) == l as int && 0 <= l as int < 32
  {
  }

  /** By an immediate: to the left modulo 2^32, and to the right, whether it is
      called arithmetic or logical, dividing the signed number and rounding down. */
  lemma ShiftsImmediate(c: Cpu, m: Memory, i: Instr)
    requires |c.gp| == 32 && Wf(m) && (i.op == SLL || i.op == SRA || i.op == SRL)
    ensures var b, k := c.gp[i.rt], Value(i.extra) % 32;
            if i.op == SLL then Gives(c, m, i, i.rd, (Value(b) * Pow2(k)) % 0x1_0000_0000)
            else GivesSigned(c, m, i, i.rd, SignedValue(b) / Pow2(k))
  {
    hide *;
    var n, b := i.extra, c.gp[i.rt];
    ShiftWords(b, n);
    ShiftKind(i.op);
    ShiftStep(c, m, i, Shifted(i.op, b, n));
    ShiftValues(b, n);
    SignedGiven(c, m, i, i.rd, Shifted(i.op, b, n));
  }

  lemma SignedGiven(c: Cpu, m: Memory, i: Instr, d: reg, r: bv32)
    requires |c.gp| == 32 && Wf(m) && Assigns(c, m, i, d, r)
    ensures GivesSigned(c, m, i, d, SignedValue(r))
  {
  }

  /** Only the low five bits of a distance count. */
  lemma ShiftValues(b: bv32, n: bv32)
    ensures Value(LeftBy(b, n)) == (Value(b) * Pow2(Value(n) % 32)) % 0x1_0000_0000
    ensures SignedValue(SignedRight(b, n)) == SignedValue(b) / Pow2(Value(n) % 32)
  {
    hide LeftBy, RightBy, SignedRight, Distance, LowFive, Value, SignedValue, Pow2;
    LowFiveIs(b, n);
    SignedRightLow(b, n);
    LowFiveValue(n);
    LeftIs(b, LowFive(n), Value(n) % 32);
    SignedRightIs(b, LowFive(n), Value(n) % 32);
  }

  lemma ShiftsVariable(c: Cpu, m: Memory, i: Instr)
    requires |c.gp| == 32 && Wf(m) && (i.op == SLLV || i.op == SRAV || i.op == SRLV)
    ensures var b, k := c.gp[i.rt], Value(c.gp[i.rs]) % 32;
            if i.op == SLLV then Gives(c, m, i, i.rd, (Value(b) * Pow2(k)) % 0x1_0000_0000)
            else GivesSigned(c, m, i, i.rd, SignedValue(b) / Pow2(k))
  {
    hide *;
    var n, b := c.gp[i.rs], c.gp[i.rt];
    VariableWords(b, n);
    RegRegKind(i.op);
    RegRegStep(c, m, i, Combine(i.op, n, b));
    ShiftValues(b, n);
    SignedGiven(c, m, i, i.rd, Combine(i.op, n, b).value);
  }

  lemma MfhiExecutes(i: Instr, o: Operands, m: Memory)
    requires Wf(m) && i.op == MFHI
    ensures Execute(i, o, m) == (Assign(o, Some(o.hi)), m) && Dest(i) == Some(i.rd)
  {
    hide Assign, HiLo, Access, Transfer, Combine, CombineImm, Shifted, LongResult, LeftBy;
  }

  lemma MfloExecutes(i: Instr, o: Operands, m: Memory)
    requires Wf(m) && i.op == MFLO
    ensures Execute(i, o, m) == (Assign(o, Some(o.lo)), m) && Dest(i) == Some(i.rd)
  {
    hide Assign, HiLo, Access, Transfer, Combine, CombineImm, Shifted, LongResult, LeftBy;
  }

  lemma MthiExecutes(i: Instr, o: Operands, m: Memory)
    requires Wf(m) && i.op == MTHI
    ensures Execute(i, o, m) == (HiLo(o, o.rs, o.lo), m) && Dest(i) == None
  {
    hide Assign, HiLo, Access, Transfer, Combine, CombineImm, Shifted, LongResult, LeftBy;
  }

  lemma MtloExecutes(i: Instr, o: Operands, m: Memory)
    requires Wf(m) && i.op == MTLO
    ensures Execute(i, o, m) == (HiLo(o, o.hi, o.rs), m) && Dest(i) == None
  {
    hide Assign, HiLo, Access, Transfer, Combine, CombineImm, Shifted, LongResult, LeftBy;
  }

  lemma LuiExecutes(i: Instr, o: Operands, m: Memory)
    requires Wf(m) && i.op == LUI
    ensures Execute(i, o, m) == (Assign(o, Some(LeftBy(i.extra, 16))), m) && Dest(i) == Some(i.rt)
  {
    hide Assign, HiLo, Access, Transfer, Combine, CombineImm, Shifted, LongResult, LeftBy;
  }

  /** Moves from and to `hi` and `lo`. */
  lemma MovesFrom(c: Cpu, m: Memory, i: Instr)
    requires |c.gp| == 32 && Wf(m) && (i.op == MFHI || i.op == MFLO)
    ensures Assigns(c, m, i, i.rd, if i.op == MFHI then c.hi else c.lo)
  {
    hide Dest, Execute, Assign, Assigns, Raises, Gives, Value;
    if i.op == MFHI {
      MfhiExecutes(i, OperandsOf(c, i), m);
      Chooses(c, m, i, i.rd, Some(c.hi));
    } else {
      MfloExecutes(i, OperandsOf(c, i), m);
      Chooses(c, m, i, i.rd, Some(c.lo));
    }
  }

  lemma MovesTo(c: Cpu, m: Memory, i: Instr)
    requires |c.gp| == 32 && Wf(m) && (i.op == MTHI || i.op == MTLO)
    ensures if i.op == MTHI then SetsHiLo(c, m, i, c.gp[i.rs], c.lo) else SetsHiLo(c, m, i, c.hi, c.gp[i.rs])
  {
    hide Dest, Execute, HiLo, SetsHiLo;
    if i.op == MTHI {
      MthiExecutes(i, OperandsOf(c, i), m);
      HiLoStep(c, m, i, c.gp[i.rs], c.lo);
    } else {
      MtloExecutes(i, OperandsOf(c, i), m);
      HiLoStep(c, m, i, c.hi, c.gp[i.rs]);
    }
  }

  lemma Upper(c: Cpu, m: Memory, i: Instr)
    requires |c.gp| == 32 && Wf(m) && i.op == LUI
    ensures Gives(c, m, i, i.rt, (65536 * Value(i.extra)) % 0x1_0000_0000)
  {
    hide *;
    LuiExecutes(i, OperandsOf(c, i), m);
    Chooses(c, m, i, i.rt, Some(LeftBy(i.extra, 16)));
    UpperHalf(i.extra);
  }

  lemma UpperHalf(x: bv32)
    ensures Value(LeftBy(x, 16)) == (65536 * Value(x)) % 0x1_0000_0000
  {
    hide LeftBy, Value, Distance, Pow2;
    Sixteen();
    LeftIs(x, 16, 16);
  }

  lemma Sixteen()
    ensures Value(16) == 16 && Distance(16) && Pow2(16) == 65536
  {
    assert Pow2(8) == 256;
  }

  // ---- multiplication and division ----

  lemma LongStep(c: Cpu, m: Memory, i: Instr, r: (bv32, bv32))
    requires |c.gp| == 32 && Wf(m) && KindOf(i.op) == Long && r == LongResult(i.op, c.gp[i.rs], c.gp[i.rt])
    ensures SetsHiLo(c, m, i, r.0, r.1)
  {
    hide Execute, KindOf, LongResult, SetsHiLo, HiLo;
    Computes(i, OperandsOf(c, i), m);
    HiLoStep(c, m, i, r.0, r.1);
  }

  lemma FromIntIs(n: int)
    ensures Value(FromInt(n)) == n % 0x1_0000_0000
    ensures Fits(n) ==> SignedValue(FromInt(n)) == n
    ensures n == 0x8000_0000 ==> SignedValue(FromInt(n)) == -0x8000_0000
  {
    hide Value, ToWord;
    ToWordIs(n % 0x1_0000_0000);
  }

  lemma UnsignedIs(x: bv32)
    ensures Unsigned(SignedValue(x)) == Value(x)
  {
    hide Value;
  }

  lemma ProductBound(x: int32, y: int32)
    ensures -0x4000_0000_0000_0000 <= x * y <= 0x4000_0000_0000_0000
  {
    if x != 0 && y != 0 {
      Magnitudes(x, y);
    }
  }

  /** The double word of a product modulo 2^64. */
  lemma SignedHalves(n: int, hi: bv32, lo: bv32)
    requires -0x4000_0000_0000_0000 <= n <= 0x4000_0000_0000_0000
    requires var p := n % 0x1_0000_0000_0000_0000; Value(hi) == p / 0x1_0000_0000 && Value(lo) == p % 0x1_0000_0000
    ensures 0x1_0000_0000 * SignedValue(hi) + Value(lo) == n
  {
    hide Value;
  }

  lemma MultipliedIs(a: bv32, b: bv32, signedArith: bool)
    ensures var n := if signedArith then SignedValue(a) * SignedValue(b) else Value(a) * Value(b);
            var p, r := n % 0x1_0000_0000_0000_0000, Multiplied(a, b, signedArith);
            Value(r.0) == p / 0x1_0000_0000 && Value(r.1) == p % 0x1_0000_0000
  {
    hide Value, SignedValue, FromInt, Unsigned;
    UnsignedIs(a);
    UnsignedIs(b);
    var p := Product64(SignedValue(a), SignedValue(b), signedArith);
    FromIntIs(p / 0x1_0000_0000);
    FromIntIs(p);
  }

  lemma LongKind(op: Op)
    requires op in {MULT, MULTU, DIV, DIVU}
    ensures KindOf(op) == Long
  {
  }

  lemma SignedProduct(a: bv32, b: bv32)
    ensures var r := Multiplied(a, b, true); 0x1_0000_0000 * SignedValue(r.0) + Value(r.1) == SignedValue(a) * SignedValue(b)
  {
    hide Multiplied, Value, SignedValue;
    var r := Multiplied(a, b, true);
    MultipliedIs(a, b, true);
    ProductBound(SignedValue(a), SignedValue(b));
    SignedHalves(SignedValue(a) * SignedValue(b), r.0, r.1);
  }

  lemma UnsignedProduct(a: bv32, b: bv32)
    ensures var r := Multiplied(a, b, false); 0x1_0000_0000 * Value(r.0) + Value(r.1) == Value(a) * Value(b)
  {
    hide Multiplied, Value, SignedValue;
    MultipliedIs(a, b, false);
    ProductFits(Value(a), Value(b));
    UnsignedHalves(Value(a) * Value(b));
  }

  lemma UnsignedHalves(n: int)
    requires 0 <= n < 0x1_0000_0000_0000_0000
    ensures var p := n % 0x1_0000_0000_0000_0000; 0x1_0000_0000 * (p / 0x1_0000_0000) + p % 0x1_0000_0000 == n
  {
  }

  lemma LongWords(a: bv32, b: bv32)
    ensures LongResult(MULT, a, b) == Multiplied(a, b, true) && LongResult(MULTU, a, b) == Multiplied(a, b, false)
    ensures LongResult(DIV, a, b) == Divided(a, b) && LongResult(DIVU, a, b) == DividedUnsigned(a, b)
  {
    hide Multiplied, Divided, DividedUnsigned;
  }

  /** `hi` and `lo` are the halves of the exact product, signed or unsigned. */
  lemma Multiplications(c: Cpu, m: Memory, i: Instr) returns (hi: bv32, lo: bv32)
    requires |c.gp| == 32 && Wf(m) && (i.op == MULT || i.op == MULTU)
    ensures var a, b := c.gp[i.rs], c.gp[i.rt];
            && SetsHiLo(c, m, i, hi, lo)
            && (i.op == MULT ==> 0x1_0000_0000 * SignedValue(hi) + Value(lo) == SignedValue(a) * SignedValue(b))
            && (i.op == MULTU ==> 0x1_0000_0000 * Value(hi) + Value(lo) == Value(a) * Value(b))
  {
    hide KindOf, LongResult, Multiplied, SetsHiLo, Value, SignedValue;
    var a, b := c.gp[i.rs], c.gp[i.rt];
    LongKind(i.op);
    LongWords(a, b);
    var r := Multiplied(a, b, i.op == MULT);
    LongStep(c, m, i, r);
    hi, lo := r.0, r.1;
    if i.op == MULT {
      SignedProduct(a, b);
    } else {
      UnsignedProduct(a, b);
    }
  }

  /** Division as in C: the quotient is rounded towards zero, and the remainder has
      the sign of the dividend. */
  ghost predicate Divides(a: int, b: int, q: int, r: int) {
    a == q * b + r && Magnitude(r) < Magnitude(b) && (r == 0 || (r < 0 <==> a < 0))
  }

  lemma QuotientDivides(a: int, b: int)
    requires b != 0
    ensures Divides(a, b, Quotient(a, b), a - Quotient(a, b) * b)
    ensures Magnitude(Quotient(a, b)) <= Magnitude(a)
  {
    var x, y := Magnitude(a), Magnitude(b);
    var q := x / y;
    assert x == y * q + x % y;
    QuotientBound(x, y);
    assert Quotient(a, b) * b == if a < 0 then -(y * q) else y * q;
  }

  lemma SignedQuotient(a: bv32, b: bv32)
    requires SignedValue(b) != 0
    ensures var x, y, r := SignedValue(a), SignedValue(b), Divided(a, b);
            if x == -0x8000_0000 && y == -1 then SignedValue(r.1) == -0x8000_0000 && SignedValue(r.0) == 0
            else Divides(x, y, SignedValue(r.1), SignedValue(r.0))
  {
    hide Value, SignedValue, FromInt, Quotient, Divides;
    var x, y := SignedValue(a), SignedValue(b);
    var q := Quotient(x, y);
    QuotientDivides(x, y);
    FromIntIs(q);
    FromIntIs(x - q * y);
    QuotientFits(x, y, q);
  }

  lemma QuotientFits(x: int, y: int, q: int)
    requires Fits(x) && Fits(y) && y != 0 && Divides(x, y, q, x - q * y) && Magnitude(q) <= Magnitude(x)
    ensures Fits(x - q * y)
    ensures if x == -0x8000_0000 && y == -1 then q == 0x8000_0000 && x - q * y == 0 else Fits(q)
  {
    if q == 0x8000_0000 {
      assert x == -0x8000_0000;
    }
  }

  /** Zero for a zero divisor. The quotient of the least integer by -1 does not
      fit, and is the least integer. */
  lemma Divisions(c: Cpu, m: Memory, i: Instr) returns (hi: bv32, lo: bv32)
    requires |c.gp| == 32 && Wf(m) && (i.op == DIV || i.op == DIVU)
    ensures SetsHiLo(c, m, i, hi, lo)
    ensures var a, b := SignedValue(c.gp[i.rs]), SignedValue(c.gp[i.rt]);
            i.op == DIV ==>
              if b == 0 then SignedValue(hi) == 0 == SignedValue(lo)
              else if a == -0x8000_0000 && b == -1 then SignedValue(lo) == -0x8000_0000 && SignedValue(hi) == 0
              else Divides(a, b, SignedValue(lo), SignedValue(hi))
    ensures var a, b := Value(c.gp[i.rs]), Value(c.gp[i.rt]);
            i.op == DIVU ==>
              if b == 0 then Value(hi) == 0 == Value(lo) else a == Value(lo) * b + Value(hi) && Value(hi) < b
  {
    hide KindOf, LongResult, Divided, DividedUnsigned, SetsHiLo, Value, SignedValue, Divides;
    var a, b := c.gp[i.rs], c.gp[i.rt];
    LongKind(i.op);
    LongWords(a, b);
    var r := if i.op == DIV then Divided(a, b) else DividedUnsigned(a, b);
    LongStep(c, m, i, r);
    hi, lo := r.0, r.1;
    if i.op == DIVU {
      UnsignedQuotient(a, b);
    } else if SignedValue(b) == 0 {
      DivideZero(a, b);
    } else {
      SignedQuotient(a, b);
    }
  }

  lemma DivideZero(a: bv32, b: bv32)
    requires SignedValue(b) == 0
    ensures Divided(a, b) == (0, 0) && SignedValue(0) == 0
  {
  }

  lemma UnsignedQuotient(a: bv32, b: bv32)
    ensures var r := DividedUnsigned(a, b);
            if Value(b) == 0 then Value(r.0) == 0 == Value(r.1)
            else Value(a) == Value(r.1) * Value(b) + Value(r.0) && Value(r.0) < Value(b)
  {
    hide Value, FromInt;
    Constants();
    if Value(b) != 0 {
      WordQuotient(Value(a), Value(b));
      FromIntIs(Value(a) / Value(b));
      FromIntIs(Value(a) % Value(b));
    }
  }

  lemma WordQuotient(x: int, y: int)
    requires 0 <= x < 0x1_0000_0000 && 0 < y < 0x1_0000_0000
    ensures var q, r := x / y, x % y;
            x == q * y + r && 0 <= r < y && q % 0x1_0000_0000 == q && r % 0x1_0000_0000 == r
  {
    QuotientBound(x, y);
    InRange(x / y);
    InRange(x % y);
  }

  lemma InRange(n: int)
    requires 0 <= n < 0x1_0000_0000
    ensures n % 0x1_0000_0000 == n
  {
  }

  // ---- branches and jumps ----

  lemma TransferExecutes(i: Instr, o: Operands, m: Memory)
    requires Wf(m) && Transfers(KindOf(i.op)) && !Accesses(KindOf(i.op))
    ensures Execute(i, o, m) == (Transfer(i, o), m)
  {
    hide Compute, Transfer, Access, KindOf;
  }

  lemma GotoStep(c: Cpu, m: Memory, i: Instr, target: bv32)
    requires |c.gp| == 32 && Wf(m) && Execute(i, OperandsOf(c, i), m) == (Goto(OperandsOf(c, i), target), m)
    ensures Dest(i) == None ==> GoesTo(c, m, i, Value(target))
    ensures Dest(i).Some? ==> CallsTo(c, m, i, Dest(i).value, Value(target))
  {
    hide Execute, Installed, Dest, Value, Plus4, Registers;
    var e := Goto(OperandsOf(c, i), target);
    Installs(c, i, e);
    After4Is(c.nextPC);
    if Dest(i).Some? {
      assert Registers(c, Step(c, m, i).0, Some(Dest(i).value), Plus4(c.nextPC));
    } else {
      NoDest(c, Step(c, m, i).0, Plus4(c.nextPC));
    }
  }

  lemma NoDest(c: Cpu, s: Cpu, r: bv32)
    requires |c.gp| == 32 == |s.gp| && Registers(c, s, None, r)
    ensures Registers(c, s, None, 0)
  {
  }

  /** The target of a branch is relative to the next instruction, in words. */
  function Target(c: Cpu, x: bv32): int {
    (Value(c.nextPC) + 4 * SignedValue(x)) % 0x1_0000_0000
  }

  lemma WrapsTwice(p: int, v: int, w: int)
    requires w == v || w == v - 0x1_0000_0000
    ensures (p + (v * 4) % 0x1_0000_0000) % 0x1_0000_0000 == (p + 4 * w) % 0x1_0000_0000
  {
    var q, r := (v * 4) / 0x1_0000_0000, (v * 4) % 0x1_0000_0000;
    var q', r' := (p + r) / 0x1_0000_0000, (p + r) % 0x1_0000_0000;
    Remainder(p + 4 * w, q' + q + (if w == v then 0 else -4), r');
  }

  lemma Two()
    ensures Value(2) == 2 && Distance(2) && Pow2(2) == 4
  {
  }

  lemma OffsetIs(c: Cpu, x: bv32)
    ensures Value(Offset(c.nextPC, x)) == Target(c, x)
  {
    hide Value, LeftBy, Plus, Distance;
    Two();
    LeftIs(x, 2, 2);
    SumWraps(c.nextPC, LeftBy(x, 2));
    WrapsTwice(Value(c.nextPC), Value(x), SignedValue(x));
  }

  lemma BranchStep(c: Cpu, m: Memory, i: Instr, taken: bool)
    requires |c.gp| == 32 && Wf(m) && Execute(i, OperandsOf(c, i), m) == (Branch(OperandsOf(c, i), i, taken), m)
    ensures var target := if taken then Target(c, i.extra) else After4(c);
            (Dest(i) == None ==> GoesTo(c, m, i, target)) && (Dest(i).Some? ==> CallsTo(c, m, i, Dest(i).value, target))
  {
    hide Execute, Dest, Value, Plus4, Offset, GoesTo, CallsTo, Target;
    GotoStep(c, m, i, if taken then Offset(c.nextPC, i.extra) else Plus4(c.nextPC));
    OffsetIs(c, i.extra);
    After4Is(c.nextPC);
  }

  lemma TransferKind(op: Op)
    requires op in {BEQ, BNE, BGEZ, BLTZ, BGTZ, BLEZ, BGEZAL, BLTZAL, J, JAL, JR, JALR}
    ensures KindOf(op) == match op
                          case BEQ | BNE => Equality
                          case BGEZ | BLTZ | BGTZ | BLEZ => Kind.Comparison
                          case BGEZAL | BLTZAL => Linking
                          case J => Kind.Jump
                          case JAL => JumpLink
                          case JR => JumpReg
                          case _ => JumpRegLink
  {
  }

  lemma EqualWords(c: Cpu, m: Memory, i: Instr)
    requires |c.gp| == 32 && Wf(m) && (i.op == BEQ || i.op == BNE)
    ensures Dest(i) == None
    ensures Execute(i, OperandsOf(c, i), m) == (Branch(OperandsOf(c, i), i, (c.gp[i.rs] == c.gp[i.rt]) == (i.op == BEQ)), m)
  {
    hide KindOf, Execute, Branch;
    TransferKind(i.op);
    TransferExecutes(i, OperandsOf(c, i), m);
  }

  /** On equality. */
  lemma EqualityBranches(c: Cpu, m: Memory, i: Instr)
    requires |c.gp| == 32 && Wf(m) && (i.op == BEQ || i.op == BNE)
    ensures var equal := Value(c.gp[i.rs]) == Value(c.gp[i.rt]);
            GoesTo(c, m, i, if equal == (i.op == BEQ) then Target(c, i.extra) else After4(c))
  {
    hide *;
    var a, b := c.gp[i.rs], c.gp[i.rt];
    if Value(a) == Value(b) {
      Same(a, b);
    }
    EqualWords(c, m, i);
    BranchStep(c, m, i, (a == b) == (i.op == BEQ));
  }

  lemma ComparesIs(op: Op, a: bv32)
    requires op in {BGEZ, BGEZAL, BLTZ, BLTZAL, BGTZ, BLEZ}
    ensures Compares(op, a) <==> match op
                                 case BGEZ | BGEZAL => SignedValue(a) >= 0
                                 case BLTZ | BLTZAL => SignedValue(a) < 0
                                 case BGTZ => SignedValue(a) > 0
                                 case _ => SignedValue(a) <= 0
  {
    hide Value, Negative;
    Constants();
    NegativeIs(a);
  }

  lemma SignWords(c: Cpu, m: Memory, i: Instr)
    requires |c.gp| == 32 && Wf(m) && i.op in {BGEZ, BLTZ, BGTZ, BLEZ}
    ensures Dest(i) == None
    ensures Execute(i, OperandsOf(c, i), m) == (Branch(OperandsOf(c, i), i, Compares(i.op, c.gp[i.rs])), m)
  {
    hide KindOf, Execute, Branch, Compares;
    TransferKind(i.op);
    TransferExecutes(i, OperandsOf(c, i), m);
  }

  /** On the sign of a register. */
  lemma SignBranches(c: Cpu, m: Memory, i: Instr)
    requires |c.gp| == 32 && Wf(m) && i.op in {BGEZ, BLTZ, BGTZ, BLEZ}
    ensures var a := SignedValue(c.gp[i.rs]);
            var taken := if i.op == BGEZ then a >= 0 else if i.op == BLTZ then a < 0 else if i.op == BGTZ then a > 0 else a <= 0;
            GoesTo(c, m, i, if taken then Target(c, i.extra) else After4(c))
  {
    hide Execute, Dest, Value, SignedValue, Compares, GoesTo, CallsTo, Target;
    ComparesIs(i.op, c.gp[i.rs]);
    SignWords(c, m, i);
    BranchStep(c, m, i, Compares(i.op, c.gp[i.rs]));
  }

  lemma LinkWords(c: Cpu, m: Memory, i: Instr)
    requires |c.gp| == 32 && Wf(m) && (i.op == BGEZAL || i.op == BLTZAL)
    ensures Dest(i) == Some(31)
    ensures Execute(i, OperandsOf(c, i), m) ==
            (Branch(OperandsOf(c, i), i, Compares(i.op, if i.rs == 31 then Plus4(c.nextPC) else c.gp[i.rs])), m)
  {
    hide KindOf, Execute, Branch, Compares, Plus4;
    TransferKind(i.op);
    TransferExecutes(i, OperandsOf(c, i), m);
  }

  /** The same, leaving a return address in register 31 first. */
  lemma LinkBranches(c: Cpu, m: Memory, i: Instr)
    requires |c.gp| == 32 && Wf(m) && (i.op == BGEZAL || i.op == BLTZAL)
    ensures var a := if i.rs == 31 then (if After4(c) >= 0x8000_0000 then After4(c) - 0x1_0000_0000 else After4(c)) else SignedValue(c.gp[i.rs]);
            CallsTo(c, m, i, 31, if (a >= 0) == (i.op == BGEZAL) then Target(c, i.extra) else After4(c))
  {
    hide Execute, Dest, Value, Plus4, Compares, GoesTo, CallsTo, Target, After4, Branch;
    var w := if i.rs == 31 then Plus4(c.nextPC) else c.gp[i.rs];
    LinkIs(c);
    ComparesIs(i.op, w);
    LinkWords(c, m, i);
    BranchStep(c, m, i, Compares(i.op, w));
  }

  lemma RegisterJumpWords(c: Cpu, m: Memory, i: Instr)
    requires |c.gp| == 32 && Wf(m) && (i.op == JR || i.op == JALR)
    ensures Dest(i) == if i.op == JALR then Some(i.rd) else None
    ensures var o := OperandsOf(c, i);
            Execute(i, o, m) == (Goto(o, if i.op == JALR && i.rd == i.rs then Plus4(c.nextPC) else o.rs), m)
  {
    hide KindOf, Execute, Branch, Compares, Goto, Region, Plus4;
    TransferKind(i.op);
    TransferExecutes(i, OperandsOf(c, i), m);
  }

  lemma RegionJumpWords(c: Cpu, m: Memory, i: Instr)
    requires |c.gp| == 32 && Wf(m) && (i.op == J || i.op == JAL)
    ensures Dest(i) == if i.op == JAL then Some(31) else None
    ensures Execute(i, OperandsOf(c, i), m) == (Goto(OperandsOf(c, i), Region(Plus4(c.nextPC), i.extra)), m)
  {
    hide KindOf, Execute, Branch, Compares, Goto, Region, Plus4;
    TransferKind(i.op);
    TransferExecutes(i, OperandsOf(c, i), m);
  }

  /** To the address in a register; `JALR` leaves a return address in `rd` first. */
  lemma RegisterJumps(c: Cpu, m: Memory, i: Instr)
    requires |c.gp| == 32 && Wf(m) && (i.op == JR || i.op == JALR)
    ensures if i.op == JR then GoesTo(c, m, i, Value(c.gp[i.rs]))
            else CallsTo(c, m, i, i.rd, if i.rd == i.rs then After4(c) else Value(c.gp[i.rs]))
  {
    hide Execute, Dest, Value, Plus4, GoesTo, CallsTo, Region, Goto, After4;
    RegisterJumpWords(c, m, i);
    LinkIs(c);
    GotoStep(c, m, i, if i.op == JALR && i.rd == i.rs then Plus4(c.nextPC) else c.gp[i.rs]);
  }

  // A word as its top four bits and the rest, and a jump target as its parts.
  function TopFour(x: bv32): bv4 { (x >> 28) as bv4 }
  function Rest28(x: bv32): bv28 { (x & 0xfff_ffff) as bv28 }
  function JoinFour(t: bv4, r: bv28): bv32 { ((t as bv32) << 28) | (r as bv32) }
  function Index26(x: bv32): bv26 { (x & 0x3ff_ffff) as bv26 }
  function JoinRegion(t: bv4, x: bv26): bv32 { ((t as bv32) << 28) | ((x as bv32) << 2) }

  predicate IsIndex(x: bv32) { x & 0x3ff_ffff == x }

  lemma FourSplit(t: bv4, r: bv28)
    ensures Value(JoinFour(t, r)) == 0x1000_0000 * (t as int) + r as int
  {
  }

  lemma FourParts(x: bv32)
    ensures JoinFour((x >> 28) as bv4, (x & 0xfff_ffff) as bv28) == x
  {
  }

  lemma FourPartsAre(x: bv32)
    ensures TopFour(x) == (x >> 28) as bv4 && Rest28(x) == (x & 0xfff_ffff) as bv28
  {
  }

  lemma RegionSplit(t: bv4, x: bv26)
    ensures Value(JoinRegion(t, x)) == 0x1000_0000 * (t as int) + 4 * (x as int) && Value(x as bv32) == x as int
  {
  }

  lemma RegionParts(link: bv32, x: bv32)
    requires IsIndex(x)
    ensures Region(link, x) == JoinRegion(TopFour(link), Index26(x)) && Index26(x) as bv32 == x
  {
  }

  lemma TopFourIs(link: bv32)
    ensures Value(link) / 0x1000_0000 == TopFour(link) as int
  {
    hide Value, TopFour, Rest28, JoinFour;
    FourParts(link);
    FourPartsAre(link);
    FourSplit(TopFour(link), Rest28(link));
    TopOf(Value(link), TopFour(link) as int, Rest28(link) as int);
  }

  lemma TopOf(v: int, t: int, r: int)
    requires v == 0x1000_0000 * t + r && 0 <= r < 0x1000_0000
    ensures v / 0x1000_0000 == t
  {
  }

  lemma RegionIs(link: bv32, x: bv32)
    requires IsIndex(x)
    ensures Value(Region(link, x)) == Value(link) / 0x1000_0000 * 0x1000_0000 + 4 * Value(x)
  {
    hide Value, TopFour, Index26, JoinRegion, Region, IsIndex;
    TopFourIs(link);
    RegionParts(link, x);
    RegionSplit(TopFour(link), Index26(x));
  }

  /** To a word of the 256 megabytes around the instruction after the next. */
  lemma RegionJumps(c: Cpu, m: Memory, i: Instr)
    requires |c.gp| == 32 && Wf(m) && IsIndex(i.extra) && (i.op == J || i.op == JAL)
    ensures var target := After4(c) / 0x1000_0000 * 0x1000_0000 + 4 * Value(i.extra);
            if i.op == J then GoesTo(c, m, i, target) else CallsTo(c, m, i, 31, target)
  {
    hide *;
    RegionJumpWords(c, m, i);
    LinkIs(c);
    RegionIs(Plus4(c.nextPC), i.extra);
    GotoStep(c, m, i, Region(Plus4(c.nextPC), i.extra));
  }

  lemma SyscallExecutes(i: Instr, o: Operands, m: Memory)
    requires Wf(m) && i.op == SYSCALL
    ensures Execute(i, o, m) == (Trap(SyscallException, 0), m)
  {
    hide Assign, HiLo, Access, Transfer, Combine, CombineImm, Shifted, LongResult, LeftBy;
  }

  lemma ReservedExecutes(i: Instr, o: Operands, m: Memory)
    requires Wf(m) && i.op == RES
    ensures Execute(i, o, m) == (Trap(IllegalInstrException, 0), m)
  {
    hide Assign, HiLo, Access, Transfer, Combine, CombineImm, Shifted, LongResult, LeftBy;
  }

  lemma UnimplementedExecutes(i: Instr, o: Operands, m: Memory)
    requires Wf(m) && i.op == UNIMP
    ensures Execute(i, o, m) == (Trap(IllegalInstrException, 0), m)
  {
    hide Assign, HiLo, Access, Transfer, Combine, CombineImm, Shifted, LongResult, LeftBy;
  }

  /** System calls, and what is not an instruction. */
  lemma Exceptions(c: Cpu, m: Memory, i: Instr)
    requires |c.gp| == 32 && Wf(m) && (i.op == SYSCALL || i.op == RES || i.op == UNIMP)
    ensures Raises(c, m, i, if i.op == SYSCALL then SyscallException else IllegalInstrException, 0)
  {
    hide *;
    if i.op == SYSCALL {
      SyscallExecutes(i, OperandsOf(c, i), m);
      TrapStep(c, m, i, SyscallException, 0, m);
    } else if i.op == RES {
      ReservedExecutes(i, OperandsOf(c, i), m);
      TrapStep(c, m, i, IllegalInstrException, 0, m);
    } else {
      UnimplementedExecutes(i, OperandsOf(c, i), m);
      TrapStep(c, m, i, IllegalInstrException, 0, m);
    }
  }
}
