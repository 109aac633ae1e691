/** Unaligned words: `SWR` with `SWL` store one and `LWR` with `LWL` load one, at
    any address. */
module Unaligned {
  import opened Common
  import opened Memories
  import opened Mips

  // ---- which bytes go where ----

  lemma StoreRight1Bytes(v: bv32, r: bv32)
    ensures var w := StoreRight1(v, r);
            Byte0(w) == Byte0(v) && Byte1(w) == Byte0(r) && Byte2(w) == Byte1(r) && Byte3(w) == Byte2(r)
  {
  }

  lemma StoreRight2Bytes(v: bv32, r: bv32)
    ensures var w := StoreRight2(v, r);
            Byte0(w) == Byte0(v) && Byte1(w) == Byte1(v) && Byte2(w) == Byte0(r) && Byte3(w) == Byte1(r)
  {
  }

  lemma StoreRight3Bytes(v: bv32, r: bv32)
    ensures var w := StoreRight3(v, r);
            Byte0(w) == Byte0(v) && Byte1(w) == Byte1(v) && Byte2(w) == Byte2(v) && Byte3(w) == Byte0(r)
  {
  }

  lemma StoreRightBytes(v: bv32, r: bv32, byte: nat, j: nat)
    requires byte < 4 && j < 4
    ensures ByteOf(StoreRight(v, r, byte), j) == if j >= byte then ByteOf(r, j - byte) else ByteOf(v, j)
  {
    hide StoreRight1, StoreRight2, StoreRight3, Byte0, Byte1, Byte2, Byte3;
    if byte == 1 {
      StoreRight1Bytes(v, r);
    } else if byte == 2 {
      StoreRight2Bytes(v, r);
    } else if byte == 3 {
      StoreRight3Bytes(v, r);
    }
  }

  lemma StoreLeft0Bytes(v: bv32, r: bv32)
    ensures var w := StoreLeft0(v, r);
            Byte0(w) == Byte3(r) && Byte1(w) == Byte1(v) && Byte2(w) == Byte2(v) && Byte3(w) == Byte3(v)
  {
  }

  lemma StoreLeft1Bytes(v: bv32, r: bv32)
    ensures var w := StoreLeft1(v, r);
            Byte0(w) == Byte2(r) && Byte1(w) == Byte3(r) && Byte2(w) == Byte2(v) && Byte3(w) == Byte3(v)
  {
  }

  lemma StoreLeft2Bytes(v: bv32, r: bv32)
    ensures var w := StoreLeft2(v, r);
            Byte0(w) == Byte1(r) && Byte1(w) == Byte2(r) && Byte2(w) == Byte3(r) && Byte3(w) == Byte3(v)
  {
  }

  lemma StoreLeftBytes(v: bv32, r: bv32, byte: nat, j: nat)
    requires byte < 4 && j < 4
    ensures ByteOf(StoreLeft(v, r, byte), j) == if j <= byte then ByteOf(r, 3 - byte + j) else ByteOf(v, j)
  {
    hide StoreLeft0, StoreLeft1, StoreLeft2, Byte0, Byte1, Byte2, Byte3;
    if byte == 0 {
      StoreLeft0Bytes(v, r);
    } else if byte == 1 {
      StoreLeft1Bytes(v, r);
    } else if byte == 2 {
      StoreLeft2Bytes(v, r);
    }
  }

  lemma MergeRight1Bytes(x: bv32, v: bv32)
    ensures var w := MergeRight1(x, v);
            Byte0(w) == Byte1(v) && Byte1(w) == Byte2(v) && Byte2(w) == Byte3(v) && Byte3(w) == Byte3(x)
  {
  }

  lemma MergeRight2Bytes(x: bv32, v: bv32)
    ensures var w := MergeRight2(x, v);
            Byte0(w) == Byte2(v) && Byte1(w) == Byte3(v) && Byte2(w) == Byte2(x) && Byte3(w) == Byte3(x)
  {
  }

  lemma MergeRight3Bytes(x: bv32, v: bv32)
    ensures var w := MergeRight3(x, v);
            Byte0(w) == Byte3(v) && Byte1(w) == Byte1(x) && Byte2(w) == Byte2(x) && Byte3(w) == Byte3(x)
  {
  }

  lemma MergeRightBytes(x: bv32, v: bv32, byte: nat, j: nat)
    requires byte < 4 && j < 4
    ensures ByteOf(MergeRight(x, v, byte), j) == if j <= 3 - byte then ByteOf(v, byte + j) else ByteOf(x, j)
  {
    hide MergeRight1, MergeRight2, MergeRight3, Byte0, Byte1, Byte2, Byte3;
    if byte == 1 {
      MergeRight1Bytes(x, v);
    } else if byte == 2 {
      MergeRight2Bytes(x, v);
    } else if byte == 3 {
      MergeRight3Bytes(x, v);
    }
  }

  lemma MergeLeft0Bytes(x: bv32, v: bv32)
    ensures var w := MergeLeft0(x, v);
            Byte0(w) == Byte0(x) && Byte1(w) == Byte1(x) && Byte2(w) == Byte2(x) && Byte3(w) == Byte0(v)
  {
  }

  lemma MergeLeft1Bytes(x: bv32, v: bv32)
    ensures var w := MergeLeft1(x, v);
            Byte0(w) == Byte0(x) && Byte1(w) == Byte1(x) && Byte2(w) == Byte0(v) && Byte3(w) == Byte1(v)
  {
  }

  lemma MergeLeft2Bytes(x: bv32, v: bv32)
    ensures var w := MergeLeft2(x, v);
            Byte0(w) == Byte0(x) && Byte1(w) == Byte0(v) && Byte2(w) == Byte1(v) && Byte3(w) == Byte2(v)
  {
  }

  lemma MergeLeftBytes(x: bv32, v: bv32, byte: nat, j: nat)
    requires byte < 4 && j < 4
    ensures ByteOf(MergeLeft(x, v, byte), j) == if j >= 3 - byte then ByteOf(v, j - (3 - byte)) else ByteOf(x, j)
  {
    hide MergeLeft0, MergeLeft1, MergeLeft2, Byte0, Byte1, Byte2, Byte3;
    if byte == 0 {
      MergeLeft0Bytes(x, v);
    } else if byte == 1 {
      MergeLeft1Bytes(x, v);
    } else if byte == 2 {
      MergeLeft2Bytes(x, v);
    }
  }

  lemma SameBytes(v: bv32, w: bv32)
    requires forall j :: 0 <= j < 4 ==> ByteOf(v, j) == ByteOf(w, j)
    ensures v == w
  {
    hide Join, Byte0, Byte1, Byte2, Byte3;
    JoinBytes(v);
    JoinBytes(w);
    assert ByteOf(v, 0) == ByteOf(w, 0) && ByteOf(v, 1) == ByteOf(w, 1) && ByteOf(v, 2) == ByteOf(w, 2) && ByteOf(v, 3) == ByteOf(w, 3);
  }

  // ---- one instruction ----

  /** The aligned word around an address, when it may be read and written. */
  function WordOf(addr: nat): nat {
    addr - addr % 4
  }

  predicate Mapped(table: Table, addr: nat, writing: bool) {
    Translate(table, WordOf(addr), 4, writing).Ok?
  }

  /** Where the byte at a virtual address is. */
  function Place(table: Table, addr: nat): (p: nat)
    requires Mapped(table, addr, false)
    ensures p < MEMORY_SIZE
  {
    Translate(table, WordOf(addr), 4, false).value + addr % 4
  }

  ghost predicate SameMap(t: Table, t': Table) {
    forall addr, size, w :: Translate(t', addr, size, w) == Translate(t, addr, size, w)
  }

  lemma TouchedSameMap(table: Table, addr: nat, writing: bool)
    ensures SameMap(table, Touched(table, addr, writing))
  {
    hide Translate, Touched;
    forall other, size, w ensures Translate(Touched(table, addr, writing), other, size, w) == Translate(table, other, size, w) {
      TouchedTranslates(table, addr, writing, other, size, w);
    }
  }

  lemma WritableIsReadable(table: Table, addr: nat)
    requires Translate(table, addr, 4, true).Ok?
    ensures Translate(table, addr, 4, false) == Translate(table, addr, 4, true)
  {
  }

  lemma StoreBytes(bytes: seq<bv8>, at: nat, value: bv32, p: nat)
    requires at + 4 <= |bytes| && p < |bytes|
    ensures StoreTo(bytes, at, 4, value)[p] == if at <= p < at + 4 then ByteOf(value, p - at) else bytes[p]
  {
    hide ByteOf;
  }

  lemma LoadBytes(bytes: seq<bv8>, at: nat, j: nat)
    requires at + 4 <= |bytes| && j < 4
    ensures ByteOf(LoadFrom(bytes, at, 4), j) == bytes[at + j]
  {
    ByteOfWord(bytes[at..at + 4], j);
  }

  lemma SameMapTrans(t: Table, u: Table, v: Table)
    requires SameMap(t, u) && SameMap(u, v)
    ensures SameMap(t, v)
  {
    hide Translate;
  }

  /** The pair of memory operations in `SWL` and `SWR`. */
  lemma ReadThenWrite(m: Memory, at: nat, value: bv32)
    requires Wf(m) && Translate(m.table, at, 4, true).Ok?
    ensures var p, r := Translate(m.table, at, 4, true).value, ReadMem(m, at, 4);
            var w := WriteMem(r.1, at, 4, value);
            && r.0 == Ok(LoadFrom(m.bytes, p, 4)) && w.0.Ok? && w.1.bytes == StoreTo(m.bytes, p, 4, value)
            && SameMap(m.table, w.1.table)
  {
    hide LoadFrom, StoreTo, Translate, Touched, SameMap;
    WritableIsReadable(m.table, at);
    var t := Touched(m.table, at, false);
    TouchedTranslates(m.table, at, false, at, 4, true);
    TouchedSameMap(m.table, at, false);
    TouchedSameMap(t, at, true);
    SameMapTrans(m.table, t, Touched(t, at, true));
  }

  /** `SWL` or `SWR` where the word may be written: no trap, and the word around
      the address is rewritten. */
  lemma StoreMerges(i: Instr, o: Operands, m: Memory)
    requires KindOf(i.op).StoreMerge? && Wf(m) && Mapped(m.table, Address(o.rs, i.extra), true)
    ensures var addr := Address(o.rs, i.extra);
            var p, r := Translate(m.table, WordOf(addr), 4, true).value, Access(i, o, m);
            && r.0.Done? && SameMap(m.table, r.1.table)
            && r.1.bytes == StoreTo(m.bytes, p, 4, StoreValue(i.op, LoadFrom(m.bytes, p, 4), o.rt, addr % 4))
  {
    hide ReadMem, WriteMem, Translate, StoreTo, LoadFrom, StoreValue, Address, KindOf, SameMap;
    var addr := Address(o.rs, i.extra);
    var p := Translate(m.table, WordOf(addr), 4, true).value;
    ReadThenWrite(m, WordOf(addr), StoreValue(i.op, LoadFrom(m.bytes, p, 4), o.rt, addr % 4));
  }

  lemma LoadMerges(i: Instr, o: Operands, m: Memory)
    requires KindOf(i.op).Merge? && SizeOf(i.op) == 4 && Wf(m) && Mapped(m.table, Address(o.rs, i.extra), false)
    ensures var addr := Address(o.rs, i.extra);
            var p, r := Translate(m.table, WordOf(addr), 4, false).value, Access(i, o, m);
            && r.0 == Loaded(o, i.rt, Merged(i.op, o.merge, LoadFrom(m.bytes, p, 4), addr % 4))
            && r.1.bytes == m.bytes && SameMap(m.table, r.1.table)
  {
    hide Translate, Touched, LoadFrom, Merged, Extended, StoreValue, FromInt, Written, Address, KindOf, SizeOf, SameMap;
    TouchedSameMap(m.table, WordOf(Address(o.rs, i.extra)), false);
  }

  // ---- the pair of stores ----

  /** The two words that hold the four bytes from `a` on. */
  predicate BothMapped(t: Table, a: nat, writing: bool) {
    Mapped(t, a, writing) && Mapped(t, a + 3, writing)
  }

  lemma Remainder(w: nat, k: nat)
    requires k < 4
    ensures (4 * w + k) % 4 == k && WordOf(4 * w + k) == 4 * w
  {
  }

  /** The word and the offset of each of the four bytes. */
  lemma FourWords(a: nat, j: nat)
    requires j < 4
    ensures WordOf(a + j) == if a % 4 + j < 4 then WordOf(a) else WordOf(a) + 4
    ensures (a + j) % 4 == if a % 4 + j < 4 then a % 4 + j else a % 4 + j - 4
  {
    var w, k := a / 4, a % 4;
    assert a == 4 * w + k;
    Remainder(w, k);
    if k + j < 4 {
      Remainder(w, k + j);
    } else {
      Remainder(w + 1, k + j - 4);
    }
  }

  lemma FourMapped(t: Table, a: nat, j: nat, writing: bool)
    requires BothMapped(t, a, writing) && j < 4
    ensures Mapped(t, a + j, writing)
  {
    hide Translate, WordOf;
    FourWords(a, j);
    FourWords(a, 3);
  }

  lemma WritableMapped(t: Table, addr: nat)
    requires Mapped(t, addr, true)
    ensures Mapped(t, addr, false) && Translate(t, WordOf(addr), 4, false) == Translate(t, WordOf(addr), 4, true)
  {
    WritableIsReadable(t, WordOf(addr));
  }

  /** Neighbouring words do not share a byte, whatever pages they are in. */
  lemma WordsApart(t: Table, at: nat, p: nat, q: nat)
    requires Translate(t, at, 4, false) == Ok(p) && Translate(t, at + 4, 4, false) == Ok(q)
    ensures p + 4 <= q || q + 4 <= p
  {
    assert p % 128 == at % 128 && q % 128 == (at + 4) % 128 && at % 4 == 0;
    hide Translate;
    AlignedApart(at / 4, p / 128, q / 128, at, p, q);
  }

  lemma AlignedApart(word: int, d: int, e: int, at: nat, p: nat, q: nat)
    requires at == 4 * word && p == 128 * d + at % 128 && q == 128 * e + (at + 4) % 128
    ensures p + 4 <= q || q + 4 <= p
  {
    SameResidue(at);
    SameResidue(at + 4);
    Apart(word, d - at / 128, e - (at + 4) / 128, p, q);
  }

  lemma SameResidue(x: int)
    ensures x % 128 == x - 128 * (x / 128)
  {
  }

  lemma Apart(word: int, d: int, e: int, p: int, q: int)
    requires p == 4 * word + 128 * d && q == 4 * word + 4 + 128 * e
    ensures p + 4 <= q || q + 4 <= p
  {
  }

  ghost predicate SwrDone(m: Memory, m': Memory, a: nat, r: bv32)
    requires Wf(m) && Wf(m') && Mapped(m.table, a, false)
  {
    var p, k := Translate(m.table, WordOf(a), 4, false).value, a % 4;
    && SameMap(m.table, m'.table)
    && forall q :: 0 <= q < MEMORY_SIZE ==>
         m'.bytes[q] == if p + k <= q < p + 4 then ByteOf(r, q - p - k) else m.bytes[q]
  }

  ghost predicate SwlDone(m: Memory, m': Memory, a: nat, r: bv32)
    requires Wf(m) && Wf(m') && Mapped(m.table, a, false)
  {
    var p, k := Translate(m.table, WordOf(a), 4, false).value, a % 4;
    && SameMap(m.table, m'.table)
    && forall q :: 0 <= q < MEMORY_SIZE ==>
         m'.bytes[q] == if p <= q <= p + k then ByteOf(r, 3 - k + q - p) else m.bytes[q]
  }

  lemma RightIsMerge()
    ensures KindOf(SWR) == StoreMerge == KindOf(SWL)
  {
  }

  lemma SwrByte(bytes: seq<bv8>, p: nat, k: nat, r: bv32, q: nat)
    requires p + 4 <= |bytes| && k < 4 && q < |bytes|
    ensures StoreTo(bytes, p, 4, StoreRight(LoadFrom(bytes, p, 4), r, k))[q] == if p + k <= q < p + 4 then ByteOf(r, q - p - k) else bytes[q]
  {
    hide StoreTo, LoadFrom, StoreRight, ByteOf;
    var word := LoadFrom(bytes, p, 4);
    StoreBytes(bytes, p, StoreRight(word, r, k), q);
    if p <= q < p + 4 {
      StoreRightBytes(word, r, k, q - p);
      LoadBytes(bytes, p, q - p);
    }
  }

  lemma SwrAll(m: Memory, m': Memory, a: nat, r: bv32, p: nat)
    requires Wf(m) && Wf(m') && Mapped(m.table, a, false) && Translate(m.table, WordOf(a), 4, false) == Ok(p)
    requires m'.bytes == StoreTo(m.bytes, p, 4, StoreRight(LoadFrom(m.bytes, p, 4), r, a % 4)) && SameMap(m.table, m'.table)
    ensures SwrDone(m, m', a, r)
  {
    hide Mapped, Translate, WordOf, StoreTo, LoadFrom, StoreRight, ByteOf, SameMap;
    var k := a % 4;
    forall q | 0 <= q < MEMORY_SIZE
      ensures m'.bytes[q] == if p + k <= q < p + 4 then ByteOf(r, q - p - k) else m.bytes[q]
    {
      SwrByte(m.bytes, p, k, r, q);
    }
  }

  lemma SwrOk(i: Instr, o: Operands, m: Memory)
    requires i.op == SWR && Wf(m) && Mapped(m.table, Address(o.rs, i.extra), true)
    ensures Mapped(m.table, Address(o.rs, i.extra), false) && Access(i, o, m).0.Done?
    ensures SwrDone(m, Access(i, o, m).1, Address(o.rs, i.extra), o.rt)
  {
    hide Access, Translate, Address, WordOf, StoreTo, LoadFrom, StoreRight, SameMap, KindOf, SwrDone;
    RightIsMerge();
    StoreMerges(i, o, m);
    var a := Address(o.rs, i.extra);
    WritableMapped(m.table, a);
    SwrAll(m, Access(i, o, m).1, a, o.rt, Translate(m.table, WordOf(a), 4, false).value);
  }

  lemma SwlByte(bytes: seq<bv8>, p: nat, k: nat, r: bv32, q: nat)
    requires p + 4 <= |bytes| && k < 4 && q < |bytes|
    ensures StoreTo(bytes, p, 4, StoreLeft(LoadFrom(bytes, p, 4), r, k))[q] == if p <= q <= p + k then ByteOf(r, 3 - k + q - p) else bytes[q]
  {
    hide StoreTo, LoadFrom, StoreLeft, ByteOf;
    var word := LoadFrom(bytes, p, 4);
    StoreBytes(bytes, p, StoreLeft(word, r, k), q);
    if p <= q < p + 4 {
      StoreLeftBytes(word, r, k, q - p);
      LoadBytes(bytes, p, q - p);
    }
  }

  lemma SwlAll(m: Memory, m': Memory, a: nat, r: bv32, p: nat)
    requires Wf(m) && Wf(m') && Mapped(m.table, a, false) && Translate(m.table, WordOf(a), 4, false) == Ok(p)
    requires m'.bytes == StoreTo(m.bytes, p, 4, StoreLeft(LoadFrom(m.bytes, p, 4), r, a % 4)) && SameMap(m.table, m'.table)
    ensures SwlDone(m, m', a, r)
  {
    hide Mapped, Translate, WordOf, StoreTo, LoadFrom, StoreLeft, ByteOf, SameMap;
    var k := a % 4;
    forall q | 0 <= q < MEMORY_SIZE
      ensures m'.bytes[q] == if p <= q <= p + k then ByteOf(r, 3 - k + q - p) else m.bytes[q]
    {
      SwlByte(m.bytes, p, k, r, q);
    }
  }

  lemma SwlOk(i: Instr, o: Operands, m: Memory)
    requires i.op == SWL && Wf(m) && Mapped(m.table, Address(o.rs, i.extra), true)
    ensures Mapped(m.table, Address(o.rs, i.extra), false) && Access(i, o, m).0.Done?
    ensures SwlDone(m, Access(i, o, m).1, Address(o.rs, i.extra), o.rt)
  {
    hide Access, Translate, Address, WordOf, StoreTo, LoadFrom, StoreLeft, SameMap, KindOf, SwlDone;
    RightIsMerge();
    StoreMerges(i, o, m);
    var a := Address(o.rs, i.extra);
    WritableMapped(m.table, a);
    SwlAll(m, Access(i, o, m).1, a, o.rt, Translate(m.table, WordOf(a), 4, false).value);
  }

  /** A physical address that holds one of the four bytes from `a` on. */
  ghost predicate Holds(t: Table, a: nat, j: nat, q: nat) {
    j < 4 && Mapped(t, a + j, false) && q == Place(t, a + j)
  }

  lemma HoldsAt(t: Table, a: nat, j: nat)
    requires BothMapped(t, a, false) && j < 4
    ensures var p, p' := Translate(t, WordOf(a), 4, false).value, Translate(t, WordOf(a + 3), 4, false).value;
            Holds(t, a, j, if a % 4 + j < 4 then p + a % 4 + j else p' + a % 4 + j - 4)
  {
    FourMapped(t, a, j, false);
    hide Translate, WordOf;
    FourWords(a, j);
    FourWords(a, 3);
  }

  /** `SWR` at `a` and then `SWL` at `a + 3` put the four bytes of the register at
      `a` to `a + 3` and change no other byte of memory. */
  lemma UnalignedStore(m: Memory, m1: Memory, m2: Memory, a: nat, r: bv32, q: nat)
    requires Wf(m) && Wf(m1) && Wf(m2) && BothMapped(m.table, a, false) && q < MEMORY_SIZE
    requires SwrDone(m, m1, a, r) && Mapped(m1.table, a + 3, false) && SwlDone(m1, m2, a + 3, r)
    ensures forall j :: 0 <= j < 4 && Holds(m.table, a, j, q) ==> m2.bytes[q] == ByteOf(r, j)
    ensures (forall j :: 0 <= j < 4 ==> !Holds(m.table, a, j, q)) ==> m2.bytes[q] == m.bytes[q]
  {
    hide Translate, ByteOf, WordOf, Holds;
    FourWords(a, 3);
    var k := a % 4;
    var p, p' := Translate(m.table, WordOf(a), 4, false).value, Translate(m.table, WordOf(a + 3), 4, false).value;
    assert Translate(m1.table, WordOf(a + 3), 4, false) == Translate(m.table, WordOf(a + 3), 4, false);
    hide SameMap;
    if k > 0 {
      WordsApart(m.table, WordOf(a), p, p');
    }
    forall j | 0 <= j < 4 && Holds(m.table, a, j, q) ensures m2.bytes[q] == ByteOf(r, j) {
      HoldsOnly(m.table, a, j, q);
    }
    if p + k <= q < p + 4 {
      HoldsAt(m.table, a, q - p - k);
    } else if p' <= q <= p' + (a + 3) % 4 {
      HoldsAt(m.table, a, 3 - (a + 3) % 4 + q - p');
    }
  }

  lemma HoldsOnly(t: Table, a: nat, j: nat, q: nat)
    requires BothMapped(t, a, false) && Holds(t, a, j, q)
    ensures var p, p' := Translate(t, WordOf(a), 4, false).value, Translate(t, WordOf(a + 3), 4, false).value;
            j < 4 && q == if a % 4 + j < 4 then p + a % 4 + j else p' + a % 4 + j - 4
  {
    HoldsAt(t, a, j);
    hide Translate, WordOf;
  }

  /** Exactly the bytes at `a` to `a + 3` have become those of `r`. */
  ghost predicate StoredAt(m: Memory, m': Memory, a: nat, r: bv32)
    requires Wf(m) && Wf(m')
  {
    forall q :: 0 <= q < MEMORY_SIZE ==>
      && (forall j :: 0 <= j < 4 && Holds(m.table, a, j, q) ==> m'.bytes[q] == ByteOf(r, j))
      && ((forall j :: 0 <= j < 4 ==> !Holds(m.table, a, j, q)) ==> m'.bytes[q] == m.bytes[q])
  }

  lemma StoredEverywhere(m: Memory, m1: Memory, m2: Memory, a: nat, r: bv32)
    requires Wf(m) && Wf(m1) && Wf(m2) && BothMapped(m.table, a, false)
    requires SwrDone(m, m1, a, r) && Mapped(m1.table, a + 3, false) && SwlDone(m1, m2, a + 3, r)
    ensures StoredAt(m, m2, a, r) && SameMap(m.table, m2.table)
  {
    hide Mapped, ByteOf, Holds, SwrDone, SwlDone, SameMap;
    forall q | 0 <= q < MEMORY_SIZE
      ensures forall j :: 0 <= j < 4 && Holds(m.table, a, j, q) ==> m2.bytes[q] == ByteOf(r, j)
      ensures (forall j :: 0 <= j < 4 ==> !Holds(m.table, a, j, q)) ==> m2.bytes[q] == m.bytes[q]
    {
      UnalignedStore(m, m1, m2, a, r, q);
    }
    MapsSame(m, m1, m2, a, r);
    SameMapTrans(m.table, m1.table, m2.table);
  }

  lemma SameWritable(m: Memory, m1: Memory, a: nat, r: bv32)
    requires Wf(m) && Wf(m1) && Mapped(m.table, a, false) && SwrDone(m, m1, a, r) && BothMapped(m.table, a, true)
    ensures Mapped(m1.table, a + 3, true) && BothMapped(m.table, a, false)
  {
    hide Translate, WordOf, ByteOf;
    WritableMapped(m.table, a);
    WritableMapped(m.table, a + 3);
  }

  // ---- the pair of loads ----

  function ByteAt(m: Memory, a: nat): bv8
    requires Wf(m)
  {
    if Mapped(m.table, a, false) then m.bytes[Place(m.table, a)] else 0
  }

  /** The four bytes in memory from `a` on. */
  ghost predicate IsWordAt(m: Memory, a: nat, w: bv32)
    requires Wf(m)
  {
    BothMapped(m.table, a, false) && forall j :: 0 <= j < 4 ==> ByteOf(w, j) == ByteAt(m, a + j)
  }

  /** What `LWR` at `a` and `LWL` at `a + 3` leave of a register. */
  function Right(m: Memory, a: nat, x: bv32): bv32
    requires Wf(m) && Mapped(m.table, a, false)
  {
    MergeRight(x, LoadFrom(m.bytes, Translate(m.table, WordOf(a), 4, false).value, 4), a % 4)
  }

  function Left(m: Memory, a: nat, x: bv32): bv32
    requires Wf(m) && Mapped(m.table, a, false)
  {
    MergeLeft(x, LoadFrom(m.bytes, Translate(m.table, WordOf(a), 4, false).value, 4), a % 4)
  }

  lemma RightBytes(m: Memory, a: nat, x: bv32, j: nat)
    requires Wf(m) && BothMapped(m.table, a, false) && j < 4
    ensures ByteOf(Right(m, a, x), j) == if a % 4 + j < 4 then ByteAt(m, a + j) else ByteOf(x, j)
  {
    hide Translate, WordOf, LoadFrom, MergeRight, ByteOf;
    FourMapped(m.table, a, j, false);
    FourWords(a, j);
    var p, k := Translate(m.table, WordOf(a), 4, false).value, a % 4;
    MergeRightBytes(x, LoadFrom(m.bytes, p, 4), k, j);
    if k + j < 4 {
      LoadBytes(m.bytes, p, k + j);
    }
  }

  lemma LeftBytes(m: Memory, a: nat, x: bv32, j: nat)
    requires Wf(m) && BothMapped(m.table, a, false) && j < 4
    ensures ByteOf(Left(m, a + 3, x), j) == if a % 4 + j >= 4 || a % 4 == 0 then ByteAt(m, a + j) else ByteOf(x, j)
  {
    hide Translate, WordOf, LoadFrom, MergeLeft, ByteOf;
    FourMapped(m.table, a, j, false);
    FourWords(a, j);
    FourWords(a, 3);
    var p, k := Translate(m.table, WordOf(a + 3), 4, false).value, (a + 3) % 4;
    MergeLeftBytes(x, LoadFrom(m.bytes, p, 4), k, j);
    if j >= 3 - k {
      LoadBytes(m.bytes, p, j - (3 - k));
    }
  }

  /** In either order the two merges give the word at `a`, whatever was in the
      register before. */
  lemma MergesGiveWord(m: Memory, a: nat, x: bv32)
    requires Wf(m) && BothMapped(m.table, a, false)
    ensures IsWordAt(m, a, Left(m, a + 3, Right(m, a, x))) && IsWordAt(m, a, Right(m, a, Left(m, a + 3, x)))
  {
    hide Translate, WordOf, Left, Right, ByteOf, ByteAt;
    var z, z' := Left(m, a + 3, Right(m, a, x)), Right(m, a, Left(m, a + 3, x));
    forall j | 0 <= j < 4 ensures ByteOf(z, j) == ByteAt(m, a + j) {
      RightBytes(m, a, x, j);
      LeftBytes(m, a, Right(m, a, x), j);
    }
    forall j | 0 <= j < 4 ensures ByteOf(z', j) == ByteAt(m, a + j) {
      LeftBytes(m, a, x, j);
      RightBytes(m, a, Left(m, a + 3, x), j);
    }
  }

  /** One of the loads, by the processor: the merged value becomes pending. */
  lemma MergeStep(c: Cpu, m: Memory, i: Instr)
    requires |c.gp| == 32 && Wf(m) && (i.op == LWL || i.op == LWR) && Mapped(m.table, Address(c.gp[i.rs], i.extra), false)
    ensures var a, x, r := Address(c.gp[i.rs], i.extra), OperandsOf(c, i).merge, Step(c, m, i);
            && r.0.loadReg == i.rt && r.0.loadValue == (if i.op == LWL then Left(m, a, x) else Right(m, a, x))
            && r.1.bytes == m.bytes && SameMap(m.table, r.1.table)
  {
    hide Access, Translate, Address, LoadFrom, MergeLeft, MergeRight, KindOf, SizeOf, SameMap, Execute, Dest;
    MergeKind(i.op);
    LoadMerges(i, OperandsOf(c, i), m);
    MergeExecutes(i, OperandsOf(c, i), m);
  }

  lemma MergeExecutes(i: Instr, o: Operands, m: Memory)
    requires Wf(m) && KindOf(i.op).Merge?
    ensures Execute(i, o, m) == Access(i, o, m)
  {
    hide Access, Compute, Transfer;
  }

  lemma MergeKind(op: Op)
    requires op == LWL || op == LWR
    ensures KindOf(op).Merge? && SizeOf(op) == 4
  {
  }

  lemma SameMapMerges(m: Memory, m': Memory, a: nat, x: bv32)
    requires Wf(m) && Wf(m') && m'.bytes == m.bytes && SameMap(m.table, m'.table) && Mapped(m.table, a, false)
    ensures Mapped(m'.table, a, false) && Left(m', a, x) == Left(m, a, x) && Right(m', a, x) == Right(m, a, x)
  {
    hide LoadFrom, MergeLeft, MergeRight, Translate;
  }

  function MergeOf(op: Op, m: Memory, a: nat, x: bv32): bv32
    requires Wf(m) && Mapped(m.table, a, false)
  {
    if op == LWL then Left(m, a, x) else Right(m, a, x)
  }

  /** The second load merges into the pending value of the first. */
  lemma TwoMerges(c: Cpu, m: Memory, i: Instr, i': Instr, a: nat, b: nat)
    requires |c.gp| == 32 && Wf(m) && i.rt == i'.rt && i.op in {LWL, LWR} && i'.op in {LWL, LWR}
    requires Mapped(m.table, a, false) && Address(c.gp[i.rs], i.extra) == a && Mapped(m.table, b, false)
    requires Address(Step(c, m, i).0.gp[i'.rs], i'.extra) == b
    ensures var s := Step(c, m, i);
            var t := Step(s.0, s.1, i');
            && t.0.loadReg == i.rt && t.1.bytes == m.bytes
            && t.0.loadValue == MergeOf(i'.op, m, b, MergeOf(i.op, m, a, OperandsOf(c, i).merge))
  {
    hide Step, Address, Translate, Left, Right, SameMap;
    var s := Step(c, m, i);
    MergeStep(c, m, i);
    SameMapMerges(m, s.1, b, s.0.loadValue);
    MergeStep(s.0, s.1, i');
  }

  /** Where each of the two loads goes to fetch the word at `a`. */
  function End(op: Op, a: nat): nat {
    if op == LWL then a + 3 else a
  }

  lemma MergesAre(m: Memory, a: nat, x: bv32, op: Op, op': Op)
    requires Wf(m) && BothMapped(m.table, a, false) && op != op' && op in {LWL, LWR} && op' in {LWL, LWR}
    ensures Mapped(m.table, End(op, a), false) && Mapped(m.table, End(op', a), false)
    ensures IsWordAt(m, a, MergeOf(op', m, End(op', a), MergeOf(op, m, End(op, a), x)))
  {
    hide Mapped, Left, Right, IsWordAt;
    MergesGiveWord(m, a, x);
  }

  /** `LWR` at `a` and `LWL` at `a + 3` into the same register, in either order:
      the word at `a` is then pending for it. */
  lemma LoadPair(c: Cpu, m: Memory, i: Instr, i': Instr, a: nat)
    requires |c.gp| == 32 && Wf(m) && i.rt == i'.rt && i.op != i'.op && i.op in {LWL, LWR} && i'.op in {LWL, LWR}
    requires BothMapped(m.table, a, false) && Address(c.gp[i.rs], i.extra) == End(i.op, a)
    requires Address(Step(c, m, i).0.gp[i'.rs], i'.extra) == End(i'.op, a)
    ensures var s := Step(c, m, i);
            var t := Step(s.0, s.1, i');
            t.0.loadReg == i.rt && IsWordAt(m, a, t.0.loadValue) && t.1.bytes == m.bytes
  {
    hide Step, Address, Mapped, MergeOf, IsWordAt, End;
    MergesAre(m, a, OperandsOf(c, i).merge, i.op, i'.op);
    TwoMerges(c, m, i, i', End(i.op, a), End(i'.op, a));
  }

  /** What was stored at `a` is the word at `a`. */
  lemma StoredIsWord(m: Memory, m': Memory, a: nat, r: bv32, w: bv32)
    requires Wf(m) && Wf(m') && BothMapped(m.table, a, false)
    requires StoredAt(m, m', a, r) && SameMap(m.table, m'.table) && IsWordAt(m', a, w)
    ensures w == r
  {
    hide Translate, WordOf, ByteOf, SameMap;
    forall j | 0 <= j < 4 ensures ByteOf(w, j) == ByteOf(r, j) {
      FourMapped(m.table, a, j, false);
      SamePlace(m.table, m'.table, a + j);
      var q := Place(m.table, a + j);
      assert Holds(m.table, a, j, q) && ByteOf(w, j) == ByteAt(m', a + j);
    }
    SameBytes(w, r);
  }

  // ---- four instructions ----

  /** A store or an unaligned load writes no register at once. */
  lemma OnlyThePendingLoad(c: Cpu, m: Memory, i: Instr)
    requires |c.gp| == 32 && Wf(m) && Dest(i) == None
    ensures Step(c, m, i).0.gp == c.gp[c.loadReg := c.loadValue][0 := 0]
  {
    hide Execute, Dest;
  }

  lemma RegisterKept(c: Cpu, m: Memory, i: Instr, r: reg)
    requires |c.gp| == 32 && c.gp[0] == 0 && Wf(m) && Dest(i) == None && (c.loadReg == 0 || c.loadReg != r)
    ensures Step(c, m, i).0.gp[r] == c.gp[r]
  {
    hide Step, Dest;
    OnlyThePendingLoad(c, m, i);
  }

  lemma UnalignedKinds(op: Op)
    requires op == SWL || op == SWR || op == LWL || op == LWR
    ensures forall i: Instr :: i.op == op ==> Dest(i) == None
    ensures op == SWL || op == SWR ==> KindOf(op) == StoreMerge
  {
  }

  lemma StoreLoadsNothing(i: Instr, o: Operands, m: Memory)
    requires KindOf(i.op) == StoreMerge && Wf(m)
    ensures var e := Access(i, o, m).0; e.Done? ==> e.loadReg == 0
  {
    hide ReadMem, WriteMem, StoreValue, Address, KindOf;
  }

  lemma StoreStep(c: Cpu, m: Memory, i: Instr)
    requires |c.gp| == 32 && Wf(m) && (i.op == SWL || i.op == SWR)
    ensures Step(c, m, i).1 == Access(i, OperandsOf(c, i), m).1 && Step(c, m, i).0.loadReg == 0
  {
    hide Access, Execute, Installed, KindOf, OperandsOf;
    UnalignedKinds(i.op);
    StoreExecutes(i, OperandsOf(c, i), m);
    StoreLoadsNothing(i, OperandsOf(c, i), m);
    NothingPending(c, i, Access(i, OperandsOf(c, i), m).0);
  }

  lemma NothingPending(c: Cpu, i: Instr, e: Effect)
    requires |c.gp| == 32 && (e.Done? ==> e.loadReg == 0)
    ensures Installed(c, i, e).loadReg == 0
  {
    hide Dest;
  }

  lemma StoreExecutes(i: Instr, o: Operands, m: Memory)
    requires Wf(m) && (i.op == SWL || i.op == SWR)
    ensures Execute(i, o, m) == Access(i, o, m)
  {
    hide Access, Compute, Transfer;
    UnalignedKinds(i.op);
  }

  lemma SwrStep(c: Cpu, m: Memory, i: Instr, a: nat)
    requires |c.gp| == 32 && Wf(m) && i.op == SWR && a == Address(c.gp[i.rs], i.extra) && Mapped(m.table, a, true)
    ensures Mapped(m.table, a, false) && SwrDone(m, Step(c, m, i).1, a, c.gp[i.rt]) && Step(c, m, i).0.loadReg == 0
  {
    hide Step, Access, Address, Mapped, SwrDone;
    StoreStep(c, m, i);
    SwrOk(i, OperandsOf(c, i), m);
  }

  lemma SwlStep(c: Cpu, m: Memory, i: Instr, a: nat)
    requires |c.gp| == 32 && Wf(m) && i.op == SWL && a == Address(c.gp[i.rs], i.extra) && Mapped(m.table, a, true)
    ensures Mapped(m.table, a, false) && SwlDone(m, Step(c, m, i).1, a, c.gp[i.rt]) && Step(c, m, i).0.loadReg == 0
  {
    hide Step, Access, Address, Mapped, SwlDone;
    StoreStep(c, m, i);
    SwlOk(i, OperandsOf(c, i), m);
  }

  /** Instructions executed one after the other, and the states between them. */
  ghost predicate Executed(program: seq<Instr>, states: seq<(Cpu, Memory)>) {
    |states| == |program| + 1 && forall k :: 0 <= k < |program| ==> StepAt(program, states, k)
  }

  ghost predicate StepAt(program: seq<Instr>, states: seq<(Cpu, Memory)>, k: nat)
    requires k < |program| == |states| - 1
  {
    && |states[k].0.gp| == 32 && states[k].0.gp[0] == 0 && Wf(states[k].1)
    && states[k + 1] == Step(states[k].0, states[k].1, program[k])
  }

  /** `SWR` and `SWL` of a register at `a` and `a + 3`, by a base register, with no
      load pending for either. */
  ghost predicate StoresAt(c: Cpu, i: Instr, i': Instr, a: nat) {
    && |c.gp| == 32 && i.op == SWR && i'.op == SWL && i.rs == i'.rs && i.rt == i'.rt
    && Address(c.gp[i.rs], i.extra) == a && Address(c.gp[i.rs], i'.extra) == a + 3
    && (c.loadReg == 0 || (c.loadReg != i.rs && c.loadReg != i.rt))
  }

  /** The two stores, executed, write the register to `a` to `a + 3` and change no
      other byte of memory. */
  lemma StorePair(program: seq<Instr>, states: seq<(Cpu, Memory)>, a: nat)
    requires |program| >= 2 && Executed(program, states) && StoresAt(states[0].0, program[0], program[1], a)
    requires BothMapped(states[0].1.table, a, true)
    ensures Wf(states[0].1) && Wf(states[2].1) && SameMap(states[0].1.table, states[2].1.table)
    ensures StoredAt(states[0].1, states[2].1, a, states[0].0.gp[program[0].rt])
    ensures states[2].0.loadReg == 0 && |states[2].0.gp| == 32 && states[2].0.gp[program[0].rs] == states[0].0.gp[program[0].rs]
  {
    hide Step, Address, Mapped, StoredAt, SameMap, Dest, SwrDone, SwlDone;
    assert StepAt(program, states, 0) && StepAt(program, states, 1);
    var (c, m) := states[0];
    var (c1, m1) := states[1];
    var i, i' := program[0], program[1];
    UnalignedKinds(i.op);
    UnalignedKinds(i'.op);
    RegisterKept(c, m, i, i.rs);
    RegisterKept(c, m, i, i.rt);
    SwrStep(c, m, i, a);
    SameWritable(m, m1, a, c.gp[i.rt]);
    RegisterKept(c1, m1, i', i.rs);
    SwlStep(c1, m1, i', a + 3);
    StoredEverywhere(m, m1, states[2].1, a, c.gp[i.rt]);
  }

  lemma ReadableAfter(m: Memory, m': Memory, a: nat)
    requires SameMap(m.table, m'.table) && BothMapped(m.table, a, true)
    ensures BothMapped(m.table, a, false) && BothMapped(m'.table, a, false)
  {
    WritableMapped(m.table, a);
    WritableMapped(m.table, a + 3);
    hide Translate, WordOf;
  }

  /** `LWR` and `LWL` of one register by the same base register and offsets. */
  predicate LoadsBack(i: Instr, i': Instr, j: Instr, j': Instr) {
    && j.op == LWR && j'.op == LWL && j.rt == j'.rt && j.rs == i.rs && j'.rs == i.rs
    && j.extra == i.extra && j'.extra == i'.extra
  }

  /** `SWR`, `SWL`, `LWR` and `LWL` executed one after the other, at any address
      whose words may be written: the value pending for the loaded register is
      the value that the stored one had. */
  lemma StoreThenLoad(program: seq<Instr>, states: seq<(Cpu, Memory)>, a: nat)
    requires |program| == 4 && Executed(program, states) && StoresAt(states[0].0, program[0], program[1], a)
    requires LoadsBack(program[0], program[1], program[2], program[3]) && BothMapped(states[0].1.table, a, true)
    ensures states[4].0.loadReg == program[2].rt && |states[0].0.gp| == 32
    ensures states[4].0.loadValue == states[0].0.gp[program[0].rt] && states[4].1.bytes == states[2].1.bytes
  {
    hide Step, Address, Mapped, StoredAt, IsWordAt, SameMap, Dest;
    StorePair(program, states, a);
    assert StepAt(program, states, 2) && StepAt(program, states, 3);
    var (c, m) := states[2];
    var j := program[2];
    ReadableAfter(states[0].1, m, a);
    UnalignedKinds(j.op);
    RegisterKept(c, m, j, j.rs);
    LoadPair(c, m, j, program[3], a);
    StoredIsWord(states[0].1, m, a, states[0].0.gp[program[0].rt], states[4].0.loadValue);
  }

  lemma MapsSame(m: Memory, m1: Memory, m2: Memory, a: nat, r: bv32)
    requires Wf(m) && Wf(m1) && Wf(m2) && Mapped(m.table, a, false) && Mapped(m1.table, a + 3, false)
    requires SwrDone(m, m1, a, r) && SwlDone(m1, m2, a + 3, r)
    ensures SameMap(m.table, m1.table) && SameMap(m1.table, m2.table)
  {
    hide Translate, ByteOf;
  }

  lemma SamePlace(t: Table, t': Table, a: nat)
    requires SameMap(t, t') && Mapped(t, a, false)
    ensures Mapped(t', a, false) && Place(t', a) == Place(t, a)
  {
    hide Translate;
  }
}
