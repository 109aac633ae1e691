/** Flushing the pending load early, as an interrupt does, cannot be observed by
    code that respects the load delay. */
module DelayedLoads {
  import opened Common
  import opened Memories
  import opened Mips
  import opened Words

  predicate ReadsRs(kind: Kind) {
    match kind
    case Shift | Upper | FromHi | FromLo | Jump | JumpLink | Call | Illegal => false
    case _ => true
  }

  predicate ReadsRt(kind: Kind) {
    match kind
    case RegReg | Shift | Long | Equality | Store | StoreMerge => true
    case _ => false
  }

  /** An instruction that reads a register, or writes it other than by a load.
      Merging into it by `LWL` or `LWR` is neither. */
  predicate Touches(i: Instr, r: reg) {
    (ReadsRs(KindOf(i.op)) && i.rs == r) || (ReadsRt(KindOf(i.op)) && i.rt == r) || Dest(i) == Some(r)
  }

  predicate SameInputs(i: Instr, o: Operands, o': Operands) {
    && (ReadsRs(KindOf(i.op)) ==> o.rs == o'.rs) && (ReadsRt(KindOf(i.op)) ==> o.rt == o'.rt)
    && (KindOf(i.op).Merge? && i.rt != 0 ==> o.merge == o'.merge)
    && o.hi == o'.hi && o.lo == o'.lo && o.nextPC == o'.nextPC
  }

  /** The same, except for the value of a load into register 0. */
  predicate SameEffect(e: Effect, e': Effect) {
    e == e' || (e.Done? && e'.Done? && e.loadReg == 0 && e' == e.(loadValue := e'.loadValue))
  }

  lemma ComputeInputs(i: Instr, o: Operands, o': Operands)
    requires SameInputs(i, o, o') && !Accesses(KindOf(i.op)) && !Transfers(KindOf(i.op))
    ensures Compute(i, o) == Compute(i, o')
  {
    hide KindOf, Combine, CombineImm, Shifted, LongResult, Plus4;
  }

  lemma TransferInputs(i: Instr, o: Operands, o': Operands)
    requires SameInputs(i, o, o') && Transfers(KindOf(i.op))
    ensures Transfer(i, o) == Transfer(i, o')
  {
    hide KindOf, Compares, Offset, Region, Plus4;
  }

  lemma AccessInputs(i: Instr, o: Operands, o': Operands, m: Memory)
    requires SameInputs(i, o, o') && Accesses(KindOf(i.op)) && Wf(m)
    ensures SameEffect(Access(i, o, m).0, Access(i, o', m).0) && Access(i, o, m).1 == Access(i, o', m).1
  {
    hide KindOf, ReadMem, WriteMem, Address, Merged, Extended, StoreValue, FromInt, Plus4, SizeOf;
  }

  /** An instruction depends only on the registers it reads. */
  lemma ExecuteInputs(i: Instr, o: Operands, o': Operands, m: Memory)
    requires SameInputs(i, o, o') && Wf(m)
    ensures SameEffect(Execute(i, o, m).0, Execute(i, o', m).0) && Execute(i, o, m).1 == Execute(i, o', m).1
  {
    hide Compute, Transfer, Access, SameInputs, KindOf;
    if Accesses(KindOf(i.op)) {
      AccessInputs(i, o, o', m);
    } else if Transfers(KindOf(i.op)) {
      TransferInputs(i, o, o');
    } else {
      ComputeInputs(i, o, o');
    }
  }

  // ---- flushing ----

  /** What `CheckIfDue` does to the processor before it calls a handler. */
  function Flushed(c: Cpu): (c': Cpu)
    requires |c.gp| == 32
    ensures |c'.gp| == 32 && c'.gp[0] == 0
  {
    DelayedLoad(c, 0, 0)
  }

  /** All that a program can see: a value pending for register 0 is not. */
  predicate SameView(c: Cpu, c': Cpu) {
    c' == c || (c.loadReg == 0 && c' == c.(loadValue := c'.loadValue))
  }

  lemma FlushedInputs(c: Cpu, i: Instr)
    requires |c.gp| == 32 && c.gp[0] == 0 && (c.loadReg == 0 || !Touches(i, c.loadReg))
    ensures SameInputs(i, OperandsOf(c, i), OperandsOf(Flushed(c), i))
  {
    hide ReadsRs, ReadsRt, Dest;
  }

  /** Applying the load before or after the write of another register is the same. */
  lemma WritesCommute(gp: seq<bv32>, load: reg, value: bv32, dest: reg, result: bv32)
    requires |gp| == 32 && (load == 0 || load != dest)
    ensures gp[dest := result][load := value][0 := 0] == gp[load := value][0 := 0][dest := result][0 := 0][0 := 0]
  {
  }

  lemma FlushedDone(c: Cpu, i: Instr, e: Effect)
    requires |c.gp| == 32 && (c.loadReg == 0 || Dest(i) != Some(c.loadReg))
    ensures Installed(c, i, e) == Installed(Flushed(c), i, e)
  {
    hide Dest;
    if Dest(i).Some? && e.Done? {
      WritesCommute(c.gp, c.loadReg, c.loadValue, Dest(i).value, e.result);
    } else {
      assert c.gp[c.loadReg := c.loadValue][0 := 0] == c.gp[c.loadReg := c.loadValue][0 := 0][0 := 0][0 := 0];
    }
  }

  lemma SameEffectInstalled(c: Cpu, i: Instr, e: Effect, e': Effect)
    requires |c.gp| == 32 && SameEffect(e, e')
    ensures SameView(Installed(c, i, e), Installed(c, i, e'))
  {
    hide Dest;
  }

  lemma FlushedInstalled(c: Cpu, i: Instr, e: Effect, e': Effect)
    requires |c.gp| == 32 && SameEffect(e, e') && (c.loadReg == 0 || Dest(i) != Some(c.loadReg))
    ensures SameView(Installed(c, i, e), Installed(Flushed(c), i, e'))
  {
    hide Dest, Installed, SameEffect;
    FlushedDone(c, i, e);
    SameEffectInstalled(Flushed(c), i, e, e');
  }

  /** Executing an instruction from the flushed and from the unflushed state gives
      the same view and the same memory, trap or not. */
  lemma FlushInvisible(c: Cpu, m: Memory, i: Instr)
    requires |c.gp| == 32 && c.gp[0] == 0 && Wf(m) && (c.loadReg == 0 || !Touches(i, c.loadReg))
    ensures SameView(Step(c, m, i).0, Step(Flushed(c), m, i).0) && Step(c, m, i).1 == Step(Flushed(c), m, i).1
  {
    FlushedInputs(c, i);
    ExecuteInputs(i, OperandsOf(c, i), OperandsOf(Flushed(c), i), m);
    FlushedInstalled(c, i, Execute(i, OperandsOf(c, i), m).0, Execute(i, OperandsOf(Flushed(c), i), m).0);
    hide Execute, OperandsOf, Installed, Touches, SameInputs;
  }

  /** The same for a whole instruction cycle: the instruction fetched is one that
      the pending load does not concern. */
  lemma FlushInvisibleToCycle(c: Cpu, m: Memory)
    requires |c.gp| == 32 && c.gp[0] == 0 && Wf(m)
    requires c.loadReg == 0 || Fetch(c.pc, m).0.Fault? || !Touches(Fetch(c.pc, m).0.value, c.loadReg)
    ensures SameView(OneInstruction(c, m).0, OneInstruction(Flushed(c), m).0)
    ensures OneInstruction(c, m).1 == OneInstruction(Flushed(c), m).1
  {
    var (i, m') := Fetch(c.pc, m);
    assert Fetch(Flushed(c).pc, m) == (i, m');
    hide Fetch, Step, Touches;
    if i.Fault? {
      var trap := Trap(i.which, c.pc);
      FlushedInstalled(c, Instr(RES, 0, 0, 0, 0), trap, trap);
    } else {
      FlushInvisible(c, m', i.value);
    }
  }

  // ---- whole programs ----

  lemma SameViewInstalled(c: Cpu, d: Cpu, i: Instr, e: Effect, e': Effect)
    requires |c.gp| == 32 && |d.gp| == 32 && SameView(c, d) && SameEffect(e, e')
    ensures SameView(Installed(c, i, e), Installed(d, i, e'))
  {
    PendingZero(c, d, i, e);
    hide Installed, Dest, SameEffect;
    SameEffectInstalled(d, i, e, e');
  }

  lemma PendingZero(c: Cpu, d: Cpu, i: Instr, e: Effect)
    requires |c.gp| == 32 && |d.gp| == 32 && SameView(c, d)
    ensures Installed(c, i, e) == Installed(d, i, e)
  {
    hide Dest;
    var gp := if Dest(i).Some? && e.Done? then c.gp[Dest(i).value := e.result] else c.gp;
    assert c.loadReg == 0 ==> gp[0 := c.loadValue][0 := 0] == gp[0 := d.loadValue][0 := 0];
  }

  lemma SameViewInputs(c: Cpu, d: Cpu, i: Instr)
    requires |c.gp| == 32 && |d.gp| == 32 && SameView(c, d)
    ensures SameInputs(i, OperandsOf(c, i), OperandsOf(d, i))
  {
    hide ReadsRs, ReadsRt;
  }

  /** What cannot be seen stays so. */
  lemma SameViewCycle(c: Cpu, d: Cpu, m: Memory)
    requires |c.gp| == 32 && |d.gp| == 32 && SameView(c, d) && Wf(m)
    ensures SameView(OneInstruction(c, m).0, OneInstruction(d, m).0) && OneInstruction(c, m).1 == OneInstruction(d, m).1
  {
    var (i, m') := Fetch(c.pc, m);
    assert Fetch(d.pc, m) == (i, m');
    hide Fetch, Execute, Installed, SameInputs, SameEffect, OperandsOf;
    if i.Fault? {
      var trap := Trap(i.which, c.pc);
      SameTrap(trap);
      SameViewInstalled(c, d, Instr(RES, 0, 0, 0, 0), trap, trap);
    } else {
      SameViewInputs(c, d, i.value);
      ExecuteInputs(i.value, OperandsOf(c, i.value), OperandsOf(d, i.value), m');
      SameViewInstalled(c, d, i.value, Execute(i.value, OperandsOf(c, i.value), m').0, Execute(i.value, OperandsOf(d, i.value), m').0);
    }
  }

  lemma SameTrap(e: Effect)
    ensures SameEffect(e, e)
  {
  }

  /** A run of instructions, some of them preceded by an interrupt. */
  function Cycles(c: Cpu, m: Memory, interrupts: seq<bool>): (r: (Cpu, Memory))
    requires |c.gp| == 32 && Wf(m)
    ensures |r.0.gp| == 32 && Wf(r.1) && (c.gp[0] == 0 ==> r.0.gp[0] == 0)
  {
    if interrupts == [] then (c, m) else
      var n := |interrupts| - 1;
      var (d, m') := Cycles(c, m, interrupts[..n]);
      OneInstruction(if interrupts[n] then Flushed(d) else d, m')
  }

  /** No instruction touches a register whose load is pending. */
  predicate RespectsDelay(c: Cpu, m: Memory)
    requires Wf(m)
  {
    c.loadReg == 0 || Fetch(c.pc, m).0.Fault? || !Touches(Fetch(c.pc, m).0.value, c.loadReg)
  }

  ghost predicate Program(c: Cpu, m: Memory, n: nat)
    requires |c.gp| == 32 && Wf(m)
  {
    forall k :: 0 <= k < n ==> var s := Cycles(c, m, Never(k)); RespectsDelay(s.0, s.1)
  }

  function Never(n: nat): seq<bool> {
    seq(n, _ => false)
  }

  /** A program that respects the load delay when run without interrupts runs the
      same, to its own view and in memory, with interrupts anywhere. */
  lemma {:induction false} InterruptsInvisible(c: Cpu, m: Memory, interrupts: seq<bool>)
    requires |c.gp| == 32 && c.gp[0] == 0 && Wf(m) && Program(c, m, |interrupts|)
    ensures var s, t := Cycles(c, m, Never(|interrupts|)), Cycles(c, m, interrupts);
            SameView(s.0, t.0) && s.1 == t.1
  {
    hide OneInstruction, RespectsDelay, SameView;
    if interrupts == [] {
      assert Never(0) == [];
      SameViewReflexive(c);
    } else {
      var n := |interrupts| - 1;
      InterruptsInvisible(c, m, interrupts[..n]);
      assert Never(n + 1)[..n] == Never(n);
      var s, t := Cycles(c, m, Never(n)), Cycles(c, m, interrupts[..n]);
      assert RespectsDelay(s.0, s.1);
      OneMore(s.0, t.0, s.1, interrupts[n]);
    }
  }

  lemma SameViewReflexive(c: Cpu)
    ensures SameView(c, c)
  {
  }

  lemma OneMore(c: Cpu, d: Cpu, m: Memory, interrupted: bool)
    requires |c.gp| == 32 && |d.gp| == 32 && c.gp[0] == 0 && SameView(c, d) && Wf(m) && RespectsDelay(c, m)
    ensures var d' := if interrupted then Flushed(d) else d;
            SameView(OneInstruction(c, m).0, OneInstruction(d', m).0) && OneInstruction(c, m).1 == OneInstruction(d', m).1
  {
    SameViewCycle(c, d, m);
    if interrupted {
      assert Fetch(c.pc, m) == Fetch(d.pc, m);
      FlushInvisibleToCycle(d, m);
    }
    hide OneInstruction, Fetch, Touches;
  }

  // ---- the condition is needed ----

  lemma OrEffect(i: Instr, o: Operands, m: Memory)
    requires i.op == OR && Wf(m)
    ensures Dest(i) == Some(i.rd) && Execute(i, o, m).0 == Assign(o, Some(o.rs | o.rt))
  {
    hide Access, Transfer, Combine, CombineImm, Shifted, LongResult;
    OrCombines(o.rs, o.rt);
  }

  lemma OrCombines(a: bv32, b: bv32)
    ensures Combine(OR, a, b) == Some(a | b)
  {
    hide Negative, SignedLess, SignedRight;
  }

  lemma OrWrites(c: Cpu, m: Memory, i: Instr)
    requires |c.gp| == 32 && Wf(m) && i.op == OR && i.rd != 0 && i.rd != c.loadReg
    ensures Step(c, m, i).0.gp[i.rd] == c.gp[i.rs] | c.gp[i.rt]
  {
    hide Execute, Installed;
    OrEffect(i, OperandsOf(c, i), m);
    ResultInstalled(c, i, Execute(i, OperandsOf(c, i), m).0);
  }

  lemma ResultInstalled(c: Cpu, i: Instr, e: Effect)
    requires |c.gp| == 32 && e.Done? && Dest(i).Some? && Dest(i).value != 0 && Dest(i).value != c.loadReg
    ensures Installed(c, i, e).gp[Dest(i).value] == e.result
  {
    hide Dest;
  }

  /** Reading the register before the load is applied sees the old value. */
  lemma ReadIsVisible(c: Cpu, m: Memory, i: Instr)
    requires |c.gp| == 32 && c.gp[0] == 0 && Wf(m) && c.loadReg != 0 && c.loadValue != c.gp[c.loadReg]
    requires i.op == OR && i.rs == c.loadReg && i.rt == 0 && i.rd != 0 && i.rd != c.loadReg
    ensures !SameView(Step(c, m, i).0, Step(Flushed(c), m, i).0)
  {
    hide Step;
    OrWrites(c, m, i);
    OrWrites(Flushed(c), m, i);
  }

  lemma LoadWins(c: Cpu, m: Memory, i: Instr)
    requires |c.gp| == 32 && Wf(m) && c.loadReg != 0
    ensures Step(c, m, i).0.gp[c.loadReg] == c.loadValue
  {
    hide Execute, Installed;
    LoadInstalled(c, i, Execute(i, OperandsOf(c, i), m).0);
  }

  lemma LoadInstalled(c: Cpu, i: Instr, e: Effect)
    requires |c.gp| == 32 && c.loadReg != 0
    ensures Installed(c, i, e).gp[c.loadReg] == c.loadValue
  {
    hide Dest;
    if e.Trap? {
      LoadApplied(c.(badVAddr := e.bad), 0, 0);
    } else {
      var gp := if Dest(i).Some? then c.gp[Dest(i).value := e.result] else c.gp;
      LoadApplied(c.(gp := gp, hi := e.hi, lo := e.lo), e.loadReg, e.loadValue);
      hide DelayedLoad;
    }
  }

  lemma LoadApplied(c: Cpu, nextReg: reg, nextValue: bv32)
    requires |c.gp| == 32 && c.loadReg != 0
    ensures DelayedLoad(c, nextReg, nextValue).gp[c.loadReg] == c.loadValue
  {
  }

  lemma ResultStays(c: Cpu, m: Memory, i: Instr)
    requires |c.gp| == 32 && Wf(m) && c.loadReg == 0 && Execute(i, OperandsOf(c, i), m).0.Done?
    requires Dest(i).Some? && Dest(i).value != 0
    ensures Step(c, m, i).0.gp[Dest(i).value] == Execute(i, OperandsOf(c, i), m).0.result
  {
    hide Execute, Dest;
  }

  /** Whatever an instruction writes into the register at once is lost to the
      load that follows it, but kept if the load came before. */
  lemma WriteIsVisible(c: Cpu, m: Memory, i: Instr)
    requires |c.gp| == 32 && Wf(m) && c.loadReg != 0 && Dest(i) == Some(c.loadReg)
    requires var e := Execute(i, OperandsOf(Flushed(c), i), m).0; e.Done? && e.result != c.loadValue
    ensures !SameView(Step(c, m, i).0, Step(Flushed(c), m, i).0)
  {
    hide Execute, Dest, Step, OperandsOf;
    LoadWins(c, m, i);
    ResultStays(Flushed(c), m, i);
  }
}
