/** What the aligned loads and stores do, said in numbers: which bytes of memory
    they move, and what number a register then stands for. */
module LoadsAndStores {
  import opened Common
  import opened Words
  import opened Memories
  import opened Mips
  import opened Instructions
  import opened Unaligned

  // ---- bytes and words ----

  function ByteValue(b: bv8): (n: int)
    ensures 0 <= n < 256
  {
    b as int
  }

  lemma JoinIs(b0: bv8, b1: bv8, b2: bv8, b3: bv8)
    ensures Value(Join(b0, b1, b2, b3)) == ByteValue(b0) + 256 * ByteValue(b1) + 0x1_0000 * ByteValue(b2) + 0x100_0000 * ByteValue(b3)
  {
  }

  function HalfWord(b0: bv8, b1: bv8): bv32 { (b0 as bv32) | ((b1 as bv32) << 8) }

  lemma HalfWordIs(b0: bv8, b1: bv8)
    ensures Value(HalfWord(b0, b1)) == ByteValue(b0) + 256 * ByteValue(b1)
  {
  }

  function HighOnes8(b: bv8): bv32 { Plus(0xffff_ff00, b as bv32) }
  function HighOnes16(b0: bv8, b1: bv8): bv32 { Plus(0xffff_0000, HalfWord(b0, b1)) }

  lemma HighConstants()
    ensures Value(0xffff_ff00) == 0xffff_ff00 && Value(0xffff_0000) == 0xffff_0000
  {
  }

  lemma PlainByte(b: bv8)
    ensures Value(b as bv32) == ByteValue(b)
  {
  }

  lemma OnesIs(b0: bv8, b1: bv8)
    ensures Value(HighOnes8(b0)) == 0xffff_ff00 + ByteValue(b0)
    ensures Value(HighOnes16(b0, b1)) == 0xffff_0000 + ByteValue(b0) + 256 * ByteValue(b1)
  {
    hide Value, ByteValue, HalfWord, Plus;
    HighConstants();
    PlainByte(b0);
    HalfWordIs(b0, b1);
    SumWraps(0xffff_ff00, b0 as bv32);
    SumWraps(0xffff_0000, HalfWord(b0, b1));
  }

  lemma SignOfByte(b: bv8)
    ensures b & 0x80 != 0 <==> ByteValue(b) >= 128
  {
  }

  lemma ByteWords(b: bv8)
    ensures Extended(LB, SignExtended(b)) == if b & 0x80 != 0 then HighOnes8(b) else b as bv32
    ensures Extended(LBU, SignExtended(b)) == b as bv32
  {
  }

  lemma HalfWords(b0: bv8, b1: bv8)
    ensures Extended(LH, HalfWord(b0, b1)) == if b1 & 0x80 != 0 then HighOnes16(b0, b1) else HalfWord(b0, b1)
    ensures Extended(LHU, HalfWord(b0, b1)) == HalfWord(b0, b1)
  {
  }

  /** The byte of weight 256^j. */
  lemma ByteOfIs(w: bv32, j: nat)
    requires j < 4
    ensures ByteValue(ByteOf(w, j)) == (Value(w) / [1, 256, 0x1_0000, 0x100_0000][j]) % 256
  {
    hide Value, ByteValue, Join, Byte0, Byte1, Byte2, Byte3;
    JoinBytes(w);
    var b0, b1, b2, b3 := Byte0(w), Byte1(w), Byte2(w), Byte3(w);
    JoinIs(b0, b1, b2, b3);
    Digits(Value(w), ByteValue(b0), ByteValue(b1), ByteValue(b2), ByteValue(b3));
  }

  lemma Digits(v: int, d0: int, d1: int, d2: int, d3: int)
    requires 0 <= d0 < 256 && 0 <= d1 < 256 && 0 <= d2 < 256 && 0 <= d3 < 256
    requires v == d0 + 256 * d1 + 0x1_0000 * d2 + 0x100_0000 * d3
    ensures v % 256 == d0 && (v / 256) % 256 == d1 && (v / 0x1_0000) % 256 == d2 && (v / 0x100_0000) % 256 == d3
  {
    assert v / 256 == d1 + 256 * d2 + 0x1_0000 * d3;
    assert v / 0x1_0000 == d2 + 256 * d3;
  }

  /** The number in memory at `p`, lowest byte first. */
  function Number(bytes: seq<bv8>, p: nat, size: nat): int
    requires p + size <= |bytes|
    decreases size
  {
    if size == 0 then 0 else ByteValue(bytes[p]) + 256 * Number(bytes, p + 1, size - 1)
  }

  function AsSigned(n: int, size: nat): int {
    if size == 1 then (if n >= 128 then n - 256 else n) else (if n >= 32768 then n - 65536 else n)
  }

  lemma TwoBytes(bytes: seq<bv8>, p: nat)
    requires p + 2 <= |bytes|
    ensures Number(bytes, p, 2) == ByteValue(bytes[p]) + 256 * ByteValue(bytes[p + 1])
  {
    hide ByteValue;
    assert Number(bytes, p + 1, 1) == ByteValue(bytes[p + 1]) + 256 * Number(bytes, p + 2, 0);
  }

  // ---- what a load makes pending ----

  lemma LoadedByte(bytes: seq<bv8>, p: nat)
    requires p + 1 <= |bytes|
    ensures var n := Number(bytes, p, 1);
            && SignedValue(Extended(LB, LoadFrom(bytes, p, 1))) == AsSigned(n, 1)
            && Value(Extended(LBU, LoadFrom(bytes, p, 1))) == n
  {
    hide Extended, SignExtended, Value, ByteValue, HighOnes8, HighOnes16;
    var b := bytes[p];
    ByteWords(b);
    PlainByte(b);
    OnesIs(b, 0);
    SignOfByte(b);
  }

  lemma LoadedHalf(bytes: seq<bv8>, p: nat)
    requires p + 2 <= |bytes|
    ensures var n := Number(bytes, p, 2);
            && SignedValue(Extended(LH, LoadFrom(bytes, p, 2))) == AsSigned(n, 2)
            && Value(Extended(LHU, LoadFrom(bytes, p, 2))) == n
  {
    hide Extended, Value, ByteValue, HalfWord, HighOnes8, HighOnes16;
    var b0, b1 := bytes[p], bytes[p + 1];
    HalfIs(bytes, p);
    HalfWords(b0, b1);
    HalfWordIs(b0, b1);
    OnesIs(b0, b1);
    SignOfByte(b1);
    TwoBytes(bytes, p);
  }

  lemma HalfIs(bytes: seq<bv8>, p: nat)
    requires p + 2 <= |bytes|
    ensures LoadFrom(bytes, p, 2) == HalfWord(bytes[p], bytes[p + 1])
  {
  }

  lemma LoadedWord(bytes: seq<bv8>, p: nat)
    requires p + 4 <= |bytes|
    ensures Extended(LW, LoadFrom(bytes, p, 4)) == LoadFrom(bytes, p, 4) && Value(LoadFrom(bytes, p, 4)) == Number(bytes, p, 4)
  {
    hide Value, ByteValue, Join;
    JoinIs(bytes[p], bytes[p + 1], bytes[p + 2], bytes[p + 3]);
    assert Number(bytes, p, 4) == ByteValue(bytes[p]) + 256 * Number(bytes, p + 1, 3);
    assert Number(bytes, p + 1, 3) == ByteValue(bytes[p + 1]) + 256 * Number(bytes, p + 2, 2);
    TwoBytes(bytes, p + 2);
  }

  // ---- the instructions ----

  /** The effective address. */
  function At(c: Cpu, i: Instr): (a: nat)
    requires |c.gp| == 32
    ensures a < 0x1_0000_0000
  {
    (Value(c.gp[i.rs]) + Value(i.extra)) % 0x1_0000_0000
  }

  lemma AtIs(c: Cpu, i: Instr)
    requires |c.gp| == 32
    ensures Address(c.gp[i.rs], i.extra) == At(c, i) && Value(FromInt(At(c, i))) == At(c, i)
  {
    hide Value, Plus, FromInt;
    SumWraps(c.gp[i.rs], i.extra);
    FromIntIs(At(c, i));
  }

  lemma LoadExecutes(i: Instr, o: Operands, m: Memory, a: nat, size: nat)
    requires Wf(m) && KindOf(i.op) == Load && Address(o.rs, i.extra) == a && SizeOf(i.op) == size
    ensures var t, e := Translate(m.table, a, size, false), Execute(i, o, m);
            && (t.Fault? ==> e == (Trap(t.which, FromInt(a)), m))
            && (t.Ok? ==> e == (Loaded(o, i.rt, Extended(i.op, LoadFrom(m.bytes, t.value, size))), m.(table := Touched(m.table, a, false))))
  {
    hide KindOf, SizeOf, Address, Translate, Touched, LoadFrom, Extended, FromInt, Loaded, Merged;
  }

  lemma StoreExecutes(i: Instr, o: Operands, m: Memory, a: nat, size: nat)
    requires Wf(m) && KindOf(i.op) == Store && Address(o.rs, i.extra) == a && SizeOf(i.op) == size
    ensures var t, e := Translate(m.table, a, size, true), Execute(i, o, m);
            && (t.Fault? ==> e == (Trap(t.which, FromInt(a)), m))
            && (t.Ok? ==> e == (HiLo(o, o.hi, o.lo), Memory(StoreTo(m.bytes, t.value, size, o.rt), Touched(m.table, a, true))))
  {
    hide KindOf, SizeOf, Address, Translate, Touched, StoreTo, FromInt, HiLo;
  }

  /** A value is pending for a register, and memory is as it was. */
  ghost predicate Fetches(c: Cpu, m: Memory, i: Instr, r: reg, v: bv32)
    requires |c.gp| == 32 && Wf(m)
  {
    var (s, m') := Step(c, m, i);
    && Registers(c, s, None, 0) && GoesOn(c, s, After4(c)) && s.hi == c.hi && s.lo == c.lo
    && s.loadReg == r && s.loadValue == v && m'.bytes == m.bytes && SameMap(m.table, m'.table)
  }

  lemma LoadStep(c: Cpu, m: Memory, i: Instr, v: bv32, m': Memory)
    requires |c.gp| == 32 && Wf(m) && Dest(i) == None && Execute(i, OperandsOf(c, i), m) == (Loaded(OperandsOf(c, i), i.rt, v), m')
    requires m'.bytes == m.bytes && SameMap(m.table, m'.table)
    ensures Fetches(c, m, i, i.rt, v)
  {
    hide Execute, Installed, Dest, Value, Plus4, Registers, SameMap;
    var e := Loaded(OperandsOf(c, i), i.rt, v);
    Installs(c, i, e);
    After4Is(c.nextPC);
  }

  predicate Loads(op: Op) {
    op in {LB, LBU, LH, LHU, LW}
  }

  lemma LoadKind(op: Op)
    requires Loads(op)
    ensures KindOf(op) == Load && SizeOf(op) == if op == LW then 4 else if op == LB || op == LBU then 1 else 2
  {
  }

  lemma LoadDest(i: Instr)
    requires KindOf(i.op) == Load || KindOf(i.op) == Store
    ensures Dest(i) == None
  {
  }

  function Width(op: Op): (n: nat)
    ensures n in {1, 2, 4}
  {
    if op in {LB, LBU, SB} then 1 else if op in {LH, LHU, SH} then 2 else 4
  }

  /** The register is to stand for the number in memory at the physical address,
      in one, two or four bytes, with its sign or without. */
  ghost predicate LoadsNumber(op: Op, v: bv32, n: int) {
    match op
    case LB => SignedValue(v) == AsSigned(n, 1)
    case LH => SignedValue(v) == AsSigned(n, 2)
    case _ => Value(v) == n
  }

  lemma LoadedNumber(op: Op, bytes: seq<bv8>, p: nat)
    requires Loads(op) && p + Width(op) <= |bytes|
    ensures LoadsNumber(op, Extended(op, LoadFrom(bytes, p, Width(op))), Number(bytes, p, Width(op)))
  {
    hide Extended, LoadFrom, Number, Value, SignedValue;
    if op == LB || op == LBU {
      LoadedByte(bytes, p);
    } else if op == LH || op == LHU {
      LoadedHalf(bytes, p);
    } else {
      LoadedWord(bytes, p);
    }
  }

  /** A load brings in the number at its address, or raises the exception of the
      translation with that address. */
  lemma LoadInstructions(c: Cpu, m: Memory, i: Instr)
    requires |c.gp| == 32 && Wf(m) && Loads(i.op)
    ensures var t := Translate(m.table, At(c, i), Width(i.op), false);
            && (t.Fault? ==> exists bad :: Value(bad) == At(c, i) && Raises(c, m, i, t.which, bad))
            && (t.Ok? ==> exists v :: Fetches(c, m, i, i.rt, v) && LoadsNumber(i.op, v, Number(m.bytes, t.value, Width(i.op))))
  {
    hide KindOf, SizeOf, Execute, Address, Translate, Touched, SameMap, LoadFrom, Extended, Number, Value, FromInt, Raises, Fetches, LoadsNumber, Dest, At, Loaded;
    var a, size, o := At(c, i), Width(i.op), OperandsOf(c, i);
    AtIs(c, i);
    LoadKind(i.op);
    LoadDest(i);
    LoadExecutes(i, o, m, a, size);
    var t := Translate(m.table, a, size, false);
    if t.Fault? {
      TrapStep(c, m, i, t.which, FromInt(a), m);
    } else {
      var v := Extended(i.op, LoadFrom(m.bytes, t.value, size));
      TouchedSameMap(m.table, a, false);
      LoadStep(c, m, i, v, m.(table := Touched(m.table, a, false)));
      LoadedNumber(i.op, m.bytes, t.value);
    }
  }

  /** Exactly `size` bytes at `p` have become those of `w`, lowest first. */
  ghost predicate BytesStored(bytes: seq<bv8>, bytes': seq<bv8>, p: nat, size: nat, w: bv32)
    requires size in {1, 2, 4}
  {
    && |bytes'| == |bytes|
    && forall q :: 0 <= q < |bytes| ==>
         if p <= q < p + size
         then ByteValue(bytes'[q]) == (Value(w) / [1, 256, 0x1_0000, 0x100_0000][q - p]) % 256
         else bytes'[q] == bytes[q]
  }

  lemma StoreToIs(bytes: seq<bv8>, p: nat, size: nat, w: bv32)
    requires size in {1, 2, 4} && p + size <= |bytes|
    ensures BytesStored(bytes, StoreTo(bytes, p, size, w), p, size, w)
  {
    hide Value, ByteValue, ByteOf;
    var r := StoreTo(bytes, p, size, w);
    forall q | 0 <= q < |bytes|
      ensures if p <= q < p + size
              then ByteValue(r[q]) == (Value(w) / [1, 256, 0x1_0000, 0x100_0000][q - p]) % 256
              else r[q] == bytes[q]
    {
      if p <= q < p + size {
        ByteOfIs(w, q - p);
        assert r[q] == BytesOf(w)[q - p] == ByteOf(w, q - p);
      }
    }
  }

  ghost predicate Puts(c: Cpu, m: Memory, i: Instr, p: nat, size: nat, w: bv32)
    requires |c.gp| == 32 && Wf(m) && size in {1, 2, 4}
  {
    var (s, m') := Step(c, m, i);
    && Registers(c, s, None, 0) && GoesOn(c, s, After4(c)) && s.hi == c.hi && s.lo == c.lo && s.loadReg == 0
    && BytesStored(m.bytes, m'.bytes, p, size, w) && SameMap(m.table, m'.table)
  }

  lemma StoreStep(c: Cpu, m: Memory, i: Instr, p: nat, size: nat, m': Memory)
    requires |c.gp| == 32 && Wf(m) && Dest(i) == None && size in {1, 2, 4}
    requires Execute(i, OperandsOf(c, i), m) == (HiLo(OperandsOf(c, i), c.hi, c.lo), m')
    requires BytesStored(m.bytes, m'.bytes, p, size, c.gp[i.rt]) && SameMap(m.table, m'.table)
    ensures Puts(c, m, i, p, size, c.gp[i.rt])
  {
    hide Execute, Installed, Dest, Value, Plus4, SameMap, BytesStored;
    Installs(c, i, HiLo(OperandsOf(c, i), c.hi, c.lo));
    After4Is(c.nextPC);
  }

  lemma StoreKind(op: Op)
    requires op in {SB, SH, SW}
    ensures KindOf(op) == Store && SizeOf(op) == Width(op)
  {
  }

  /** A store writes the low bytes of its register to its address and no other
      byte, or raises the exception of the translation with that address. */
  lemma StoreInstructions(c: Cpu, m: Memory, i: Instr)
    requires |c.gp| == 32 && Wf(m) && i.op in {SB, SH, SW}
    ensures var t := Translate(m.table, At(c, i), Width(i.op), true);
            && (t.Fault? ==> exists bad :: Value(bad) == At(c, i) && Raises(c, m, i, t.which, bad))
            && (t.Ok? ==> Puts(c, m, i, t.value, Width(i.op), c.gp[i.rt]))
  {
    hide KindOf, SizeOf, Execute, Address, Translate, Touched, SameMap, StoreTo, Value, FromInt, Raises, Puts, BytesStored, Dest, At, HiLo;
    var a, size, o := At(c, i), Width(i.op), OperandsOf(c, i);
    AtIs(c, i);
    StoreKind(i.op);
    LoadDest(i);
    StoreExecutes(i, o, m, a, size);
    var t := Translate(m.table, a, size, true);
    if t.Fault? {
      TrapStep(c, m, i, t.which, FromInt(a), m);
    } else {
      var m' := Memory(StoreTo(m.bytes, t.value, size, o.rt), Touched(m.table, a, true));
      TouchedSameMap(m.table, a, true);
      StoreToIs(m.bytes, t.value, size, o.rt);
      StoreStep(c, m, i, t.value, size, m');
    }
  }

  /** The word at a physical address, and memory as it was. */
  ghost predicate Executes(m: Memory, p: nat, w: bv32, m': Memory) {
    p + 4 <= |m.bytes| && Value(w) == Number(m.bytes, p, 4) && Wf(m') && m'.bytes == m.bytes && SameMap(m.table, m'.table)
  }

  /** Each turn of the machine executes the word at the program counter, or raises
      the exception of fetching it. */
  lemma TurnFetches(c: Cpu, m: Memory)
    requires |c.gp| == 32 && Wf(m)
    ensures var t, r := Translate(m.table, Value(c.pc), 4, false), OneInstruction(c, m);
            && (t.Fault? ==> Mips.Traps(c, m) && r.1 == m && Registers(c, r.0, None, 0)
                             && r.0 == c.(gp := r.0.gp, loadReg := 0, loadValue := 0, badVAddr := c.pc))
            && (t.Ok? ==> exists w, m': Memory :: Executes(m, t.value, w, m') && r == Step(c, m', Decode(w)))
  {
    hide Translate, Touched, LoadFrom, Value, Number, SameMap, Step, Execute, Decode, Installed, Registers;
    var t := Translate(m.table, Value(c.pc), 4, false);
    if t.Fault? {
      Installs(c, Instr(RES, 0, 0, 0, 0), Trap(t.which, c.pc));
    } else {
      var w, m' := LoadFrom(m.bytes, t.value, 4), m.(table := Touched(m.table, Value(c.pc), false));
      LoadedWord(m.bytes, t.value);
      TouchedSameMap(m.table, Value(c.pc), false);
      assert Executes(m, t.value, w, m') && OneInstruction(c, m) == Step(c, m', Decode(w));
    }
  }
}
