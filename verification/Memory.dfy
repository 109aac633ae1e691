/** Simulated main memory behind a page table or a TLB. */
module Memories {

  const MEMORY_SIZE := 16384

  datatype Exception =
    | SyscallException | PageFaultException | ReadOnlyException | BusErrorException
    | AddressErrorException | OverflowException | IllegalInstrException

  datatype TranslationEntry = TranslationEntry(
    virtualPage: int, physicalPage: nat, valid: bool, readOnly: bool, use: bool, dirty: bool)

  /** A page table is indexed by page number; a TLB is searched. */
  datatype Table = PageTable(entries: seq<TranslationEntry>) | Tlb(entries: seq<TranslationEntry>)

  datatype Memory = Memory(bytes: seq<bv8>, table: Table)

  datatype Result<T> = Ok(value: T) | Fault(which: Exception)

  // ---- translation ----

  /** The first valid TLB entry for a page, or the length of the TLB. */
  function FindEntry(entries: seq<TranslationEntry>, vpn: int): (i: nat)
    ensures i <= |entries|
    ensures i < |entries| ==> entries[i].valid && entries[i].virtualPage == vpn
    ensures forall j :: 0 <= j < i ==> !(entries[j].valid && entries[j].virtualPage == vpn)
  {
    if entries == [] || (entries[0].valid && entries[0].virtualPage == vpn) then 0 else 1 + FindEntry(entries[1..], vpn)
  }

  function Slot(table: Table, vpn: nat): (r: Result<nat>)
    ensures r.Ok? ==> r.value < |table.entries|
  {
    match table
    case PageTable(entries) =>
      if vpn >= |entries| then Fault(AddressErrorException)
      else if !entries[vpn].valid then Fault(PageFaultException)
      else Ok(vpn)
    case Tlb(entries) =>
      var i := FindEntry(entries, vpn);
      if i == |entries| then Fault(PageFaultException) else Ok(i)
  }

  predicate Aligned(addr: nat, size: nat) {
    (size == 4 ==> addr % 4 == 0) && (size == 2 ==> addr % 2 == 0)
  }

  lemma Multiples(q: int, o: int, m: int, size: int)
    requires size == 2 || size == 4
    requires 128 * q + o == size * m && o < 128
    ensures o + size <= 128
  {
    if size == 4 {
      assert o == 4 * (m - 32 * q);
    } else {
      assert o == 2 * (m - 64 * q);
    }
  }

  lemma InPage(addr: nat, size: nat)
    requires Aligned(addr, size) && size in {1, 2, 4}
    ensures addr % 128 + size <= 128
  {
    if size != 1 {
      Multiples(addr / 128, addr % 128, addr / size, size);
    }
  }

  /** An aligned access does not cross the end of its page. */
  function Physical(page: nat, addr: nat, size: nat): (p: nat)
    requires page < 128 && Aligned(addr, size)
    ensures p % 128 == addr % 128
    ensures size in {1, 2, 4} ==> p + size <= MEMORY_SIZE
  {
    assert size in {1, 2, 4} ==> addr % 128 + size <= 128 by { if size in {1, 2, 4} { InPage(addr, size); } }
    page * 128 + addr % 128
  }

  /** The physical address of `size` bytes. */
  function Translate(table: Table, addr: nat, size: nat, writing: bool): (r: Result<nat>)
    ensures r.Ok? && size in {1, 2, 4} ==> r.value + size <= MEMORY_SIZE
    ensures r.Ok? ==> r.value % 128 == addr % 128 && Aligned(addr, size)
  {
    if !Aligned(addr, size) then Fault(AddressErrorException) else
      var slot := Slot(table, addr / 128);
      if slot.Fault? then Fault(slot.which) else Entered(table.entries[slot.value], addr, size, writing)
  }

  function Entered(entry: TranslationEntry, addr: nat, size: nat, writing: bool): (r: Result<nat>)
    requires Aligned(addr, size)
    ensures r.Ok? && size in {1, 2, 4} ==> r.value + size <= MEMORY_SIZE
    ensures r.Ok? ==> r.value % 128 == addr % 128
  {
    if entry.readOnly && writing then Fault(ReadOnlyException)
    else if entry.physicalPage >= 128 then Fault(BusErrorException)
    else Ok(Physical(entry.physicalPage, addr, size))
  }

  /** The entry for an address, if the table has a valid one. */
  ghost predicate HasEntry(table: Table, addr: nat, e: TranslationEntry) {
    match table
    case PageTable(entries) => addr / 128 < |entries| && e == entries[addr / 128] && e.valid
    case Tlb(entries) =>
      exists i :: 0 <= i < |entries| && e == entries[i] && e.valid && e.virtualPage == addr / 128
                  && forall j :: 0 <= j < i ==> !(entries[j].valid && entries[j].virtualPage == addr / 128)
  }

  /** Which exception a translation raises, in order: misalignment, no page, no
      valid entry, writing to a read-only page, a frame outside memory. */
  lemma TranslateFaults(table: Table, addr: nat, size: nat, writing: bool)
    ensures var r := Translate(table, addr, size, writing);
            && (r == Fault(AddressErrorException) <==>
                  !Aligned(addr, size) || (table.PageTable? && addr / 128 >= |table.entries|))
            && (r == Fault(PageFaultException) <==>
                  r != Fault(AddressErrorException) && forall e :: !HasEntry(table, addr, e))
            && (r == Fault(ReadOnlyException) <==>
                  Aligned(addr, size) && writing && exists e :: HasEntry(table, addr, e) && e.readOnly)
            && (r == Fault(BusErrorException) <==>
                  Aligned(addr, size) && exists e :: HasEntry(table, addr, e) && !(writing && e.readOnly) && e.physicalPage >= 128)
            && (r.Ok? ==> exists e :: HasEntry(table, addr, e) && r.value == 128 * e.physicalPage + addr % 128)
  {
    hide Aligned;
    var slot := Slot(table, addr / 128);
    if slot.Ok? {
      assert HasEntry(table, addr, table.entries[slot.value]);
    }
    assert forall e :: HasEntry(table, addr, e) ==> slot.Ok? && e == table.entries[slot.value];
  }

  /** A successful translation sets the entry's use and dirty bits. */
  function Touched(table: Table, addr: nat, writing: bool): Table {
    var slot := Slot(table, addr / 128);
    if slot.Fault? then table else
      var e := table.entries[slot.value];
      table.(entries := table.entries[slot.value := e.(use := true, dirty := e.dirty || writing)])
  }

  /** It does so in the entry that translates the address and in no other. */
  lemma TouchedBits(table: Table, addr: nat, writing: bool)
    ensures var t := Touched(table, addr, writing);
            && |t.entries| == |table.entries| && (t.PageTable? <==> table.PageTable?)
            && (forall e :: HasEntry(table, addr, e) ==>
                  exists k :: 0 <= k < |table.entries| && table.entries[k] == e
                              && t.entries == table.entries[k := e.(use := true, dirty := e.dirty || writing)])
            && ((forall e :: !HasEntry(table, addr, e)) ==> t == table)
  {
    var slot := Slot(table, addr / 128);
    if slot.Ok? {
      assert HasEntry(table, addr, table.entries[slot.value]);
    }
    assert forall e :: HasEntry(table, addr, e) ==> slot.Ok? && e == table.entries[slot.value];
  }

  lemma TouchedSlot(table: Table, addr: nat, writing: bool, vpn: nat)
    ensures Slot(Touched(table, addr, writing), vpn) == Slot(table, vpn)
    ensures var t := Touched(table, addr, writing);
            && |t.entries| == |table.entries|
            && forall i :: 0 <= i < |t.entries| ==>
                 t.entries[i].readOnly == table.entries[i].readOnly && t.entries[i].physicalPage == table.entries[i].physicalPage
  {
    var slot := Slot(table, addr / 128);
    if slot.Ok? && table.Tlb? {
      var e := table.entries[slot.value];
      SameSearch(table.entries, slot.value, e.(use := true, dirty := e.dirty || writing), vpn);
    }
  }

  /** The bits that translation sets are not ones it looks at. */
  lemma TouchedTranslates(table: Table, addr: nat, writing: bool, other: nat, size: nat, w: bool)
    ensures Translate(Touched(table, addr, writing), other, size, w) == Translate(table, other, size, w)
  {
    hide Aligned, Physical, Slot, Touched;
    TouchedSlot(table, addr, writing, other / 128);
  }

  lemma {:induction false} SameSearch(entries: seq<TranslationEntry>, i: nat, e: TranslationEntry, vpn: int)
    requires i < |entries| && e.valid == entries[i].valid && e.virtualPage == entries[i].virtualPage
    ensures FindEntry(entries[i := e], vpn) == FindEntry(entries, vpn)
  {
    if i > 0 {
      assert entries[i := e][1..] == entries[1..][i - 1 := e];
      SameSearch(entries[1..], i - 1, e, vpn);
    } else {
      assert entries[i := e][1..] == entries[1..];
    }
  }

  // ---- words ----

  function Join(b0: bv8, b1: bv8, b2: bv8, b3: bv8): bv32 {
    (b0 as bv32) | ((b1 as bv32) << 8) | ((b2 as bv32) << 16) | ((b3 as bv32) << 24)
  }

  function Word(b: seq<bv8>): bv32
    requires |b| == 4
  {
    Join(b[0], b[1], b[2], b[3])
  }

  function Half(b: seq<bv8>): bv32
    requires |b| == 2
  {
    (b[0] as bv32) | ((b[1] as bv32) << 8)
  }

  // The bytes of a word, lowest first.
  function Byte0(w: bv32): bv8 { (w & 0xff) as bv8 }
  function Byte1(w: bv32): bv8 { ((w >> 8) & 0xff) as bv8 }
  function Byte2(w: bv32): bv8 { ((w >> 16) & 0xff) as bv8 }
  function Byte3(w: bv32): bv8 { ((w >> 24) & 0xff) as bv8 }

  /** The byte of a word at an offset in memory. */
  function ByteOf(w: bv32, j: nat): bv8
    requires j < 4
  {
    if j == 0 then Byte0(w) else if j == 1 then Byte1(w) else if j == 2 then Byte2(w) else Byte3(w)
  }

  function BytesOf(w: bv32): (b: seq<bv8>)
    ensures |b| == 4
  {
    [ByteOf(w, 0), ByteOf(w, 1), ByteOf(w, 2), ByteOf(w, 3)]
  }

  lemma JoinBytes(w: bv32)
    ensures Join(Byte0(w), Byte1(w), Byte2(w), Byte3(w)) == w
  {
  }

  lemma BytesOfJoin(b0: bv8, b1: bv8, b2: bv8, b3: bv8)
    ensures Byte0(Join(b0, b1, b2, b3)) == b0 && Byte1(Join(b0, b1, b2, b3)) == b1
    ensures Byte2(Join(b0, b1, b2, b3)) == b2 && Byte3(Join(b0, b1, b2, b3)) == b3
  {
  }

  lemma WordRoundTrip(w: bv32)
    ensures Word(BytesOf(w)) == w
  {
    hide Join, Byte0, Byte1, Byte2, Byte3;
    JoinBytes(w);
  }

  lemma ByteOfWord(b: seq<bv8>, j: nat)
    requires |b| == 4 && j < 4
    ensures ByteOf(Word(b), j) == b[j]
  {
    hide Join, Byte0, Byte1, Byte2, Byte3;
    BytesOfJoin(b[0], b[1], b[2], b[3]);
  }

  // ---- access ----

  /** A `char` as an `int`. */
  function SignExtended(b: bv8): bv32 {
    if b & 0x80 != 0 then (b as bv32) | 0xffff_ff00 else b as bv32
  }

  function LoadFrom(bytes: seq<bv8>, at: nat, size: nat): bv32
    requires size in {1, 2, 4} && at + size <= |bytes|
  {
    if size == 1 then SignExtended(bytes[at]) else if size == 2 then Half(bytes[at..at + 2]) else Word(bytes[at..at + 4])
  }

  function StoreTo(bytes: seq<bv8>, at: nat, size: nat, value: bv32): (r: seq<bv8>)
    requires size in {1, 2, 4} && at + size <= |bytes|
    ensures |r| == |bytes|
  {
    bytes[..at] + BytesOf(value)[..size] + bytes[at + size..]
  }

  predicate Wf(m: Memory) {
    |m.bytes| == MEMORY_SIZE
  }

  function ReadMem(m: Memory, addr: nat, size: nat): (r: (Result<bv32>, Memory))
    requires Wf(m) && size in {1, 2, 4}
    ensures Wf(r.1) && r.1.bytes == m.bytes
  {
    var t := Translate(m.table, addr, size, false);
    if t.Fault? then (Fault(t.which), m) else
      (Ok(LoadFrom(m.bytes, t.value, size)), m.(table := Touched(m.table, addr, false)))
  }

  function WriteMem(m: Memory, addr: nat, size: nat, value: bv32): (r: (Result<()>, Memory))
    requires Wf(m) && size in {1, 2, 4}
    ensures Wf(r.1)
  {
    var t := Translate(m.table, addr, size, true);
    if t.Fault? then (Fault(t.which), m) else
      (Ok(()), Memory(StoreTo(m.bytes, t.value, size, value), Touched(m.table, addr, true)))
  }
}
