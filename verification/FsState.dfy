/** The file system as a disk image: its global invariant, the abstract map it
    stands for, and what each operation does to both. */
module FsState {
  import opened Bytes
  import opened Bitmaps
  import opened DiskLayout
  import opened OpenFiles
  import opened Volumes

  const FREE_MAP_SECTOR: nat := 0
  const DIRECTORY_SECTOR: nat := 1

  function HeaderAt(d: DiskImage, s: int): Header
    requires 0 <= s < NUM_SECTORS
  {
    DecodeHeader(d[s])
  }

  /** The sectors a free-map file marks as taken. */
  ghost function MapBits(c: seq<byte>): (r: set<int>)
    requires |c| == FREE_MAP_FILE_SIZE
    ensures forall s :: s in r ==> 0 <= s < NUM_SECTORS
  {
    Marked(DecodeWords(c, 32), 1024)
  }

  /** Both system files are where they belong and have their fixed sizes. */
  ghost predicate SystemOk(d: DiskImage) {
    && WfHeader(HeaderAt(d, FREE_MAP_SECTOR))
    && HeaderAt(d, FREE_MAP_SECTOR).numBytes == FREE_MAP_FILE_SIZE
    && WfHeader(HeaderAt(d, DIRECTORY_SECTOR))
    && HeaderAt(d, DIRECTORY_SECTOR).numBytes == DIRECTORY_FILE_SIZE
  }

  ghost function FreeMap(d: DiskImage): (r: set<int>)
    requires SystemOk(d)
    ensures forall s :: s in r ==> 0 <= s < NUM_SECTORS
  {
    MapBits(Contents(d, HeaderAt(d, FREE_MAP_SECTOR)))
  }

  ghost function TableOf(d: DiskImage): Table
    requires SystemOk(d)
  {
    DecodeTable(Contents(d, HeaderAt(d, DIRECTORY_SECTOR)))
  }

  // ---- the volume a disk image holds ----

  /** `s` holds a sound header that does not list itself among its blocks. */
  ghost predicate WfFile(d: DiskImage, s: int) {
    && 0 <= s < NUM_SECTORS
    && WfHeader(HeaderAt(d, s))
    && s !in Blocks(HeaderAt(d, s))
  }

  /** The header sector and data sectors of one file. */
  ghost function Footprint(d: DiskImage, s: int): set<int>
    requires WfFile(d, s)
  {
    {s} + Blocks(HeaderAt(d, s))
  }

  ghost function FileOf(d: DiskImage, e: DirectoryEntry): (f: File)
    requires e.inUse ==> WfFile(d, e.sector)
  {
    if e.inUse
    then File(Key(e.name), e.sector, Blocks(HeaderAt(d, e.sector)), Contents(d, HeaderAt(d, e.sector)))
    else NoFile
  }

  ghost predicate WfEntries(d: DiskImage, t: Table) {
    forall i :: 0 <= i < 10 && t[i].inUse ==> WfFile(d, t[i].sector)
  }

  ghost predicate Mounted(d: DiskImage) {
    && SystemOk(d)
    && WfFile(d, FREE_MAP_SECTOR) && WfFile(d, DIRECTORY_SECTOR)
    && WfEntries(d, TableOf(d))
  }

  ghost function FilesOf(d: DiskImage, t: Table): (fs: seq<File>)
    requires WfEntries(d, t)
    ensures |fs| == 10 && forall i :: 0 <= i < 10 ==> fs[i] == FileOf(d, t[i])
  {
    seq(10, i requires 0 <= i < 10 => FileOf(d, t[i]))
  }

  ghost function VolumeOf(d: DiskImage): (v: Volume)
    requires Mounted(d)
  {
    Volume(FreeMap(d), Footprint(d, FREE_MAP_SECTOR), Footprint(d, DIRECTORY_SECTOR), FilesOf(d, TableOf(d)))
  }

  /** The invariant of every reachable disk image. */
  ghost predicate Inv(d: DiskImage) {
    Mounted(d) && Consistent(VolumeOf(d))
  }

  /** What a user of the file system sees: the contents of each named file. */
  ghost function Files(d: DiskImage): map<seq<byte>, seq<byte>>
    requires Inv(d)
  {
    Catalog(VolumeOf(d))
  }

  // ---- what the operations do ----

  /** Only the two system files and the sectors `extra` may differ. */
  ghost predicate OnlyMetadata(d: DiskImage, d': DiskImage, extra: set<int>)
    requires Mounted(d)
  {
    && SystemOk(d')
    && HeaderAt(d', FREE_MAP_SECTOR) == HeaderAt(d, FREE_MAP_SECTOR)
    && HeaderAt(d', DIRECTORY_SECTOR) == HeaderAt(d, DIRECTORY_SECTOR)
    && var meta := extra + Footprint(d, FREE_MAP_SECTOR) + Footprint(d, DIRECTORY_SECTOR);
       (forall s :: 0 <= s < NUM_SECTORS && s !in meta ==> d'[s] == d[s])
  }

  /** A successful `Create`: entry `slot`, header `h` in sector `sec`. */
  ghost predicate CreateEffect(d: DiskImage, name: seq<byte>, size: nat, slot: nat, sec: int, h: Header, d': DiskImage)
    requires Mounted(d)
  {
    && slot < 10 && !TableOf(d)[slot].inUse
    && 0 <= sec < NUM_SECTORS && sec !in FreeMap(d)
    && WfHeader(h) && h.numBytes == size && sec !in Blocks(h) && Blocks(h) !! FreeMap(d)
    && OnlyMetadata(d, d', {sec})
    && HeaderAt(d', sec) == h
    && FreeMap(d') == FreeMap(d) + ({sec} + Blocks(h))
    && TableOf(d')[slot].inUse && TableOf(d')[slot].sector == sec && Key(TableOf(d')[slot].name) == Key(name)
    && (forall i :: 0 <= i < 10 && i != slot ==> TableOf(d')[i] == TableOf(d)[i])
  }

  /** A successful `Remove` of the file at entry `i`. */
  ghost predicate RemoveEffect(d: DiskImage, name: seq<byte>, i: nat, d': DiskImage)
    requires Mounted(d)
  {
    && i < 10 && TableOf(d)[i].inUse && Key(TableOf(d)[i].name) == Key(name)
    && OnlyMetadata(d, d', {})
    && FreeMap(d') == FreeMap(d) - Footprint(d, TableOf(d)[i].sector)
    && !TableOf(d')[i].inUse
    && (forall j :: 0 <= j < 10 && j != i ==> TableOf(d')[j] == TableOf(d)[j])
  }

  /** A file none of whose sectors change is the same file. */
  lemma FileKept(d: DiskImage, d': DiskImage, e: DirectoryEntry)
    requires e.inUse && WfFile(d, e.sector)
    requires forall x :: x in Footprint(d, e.sector) ==> d'[x] == d[x]
    ensures WfFile(d', e.sector) && FileOf(d', e) == FileOf(d, e)
    ensures HeaderAt(d', e.sector) == HeaderAt(d, e.sector)
  {
    hide DecodeHeader, WfHeader;
    assert e.sector in Footprint(d, e.sector);
    ContentsFrame(d, d', HeaderAt(d, e.sector));
  }

  /** Rewriting metadata leaves every user file alone. */
  lemma UserFileKept(d: DiskImage, d': DiskImage, extra: set<int>, i: nat)
    requires Inv(d) && i < 10 && TableOf(d)[i].inUse
    requires OnlyMetadata(d, d', extra) && extra !! Footprint(d, TableOf(d)[i].sector)
    ensures WfFile(d', TableOf(d)[i].sector)
    ensures FileOf(d', TableOf(d)[i]) == VolumeOf(d).files[i]
    ensures HeaderAt(d', TableOf(d)[i].sector) == HeaderAt(d, TableOf(d)[i].sector)
  {
    hide DecodeHeader, WfHeader, Contents, FreeMap, DecodeTable, Blocks;
    var v, e := VolumeOf(d), TableOf(d)[i];
    assert Owned(v.files[i]) == Footprint(d, e.sector);
    assert Owned(v.files[i]) !! System(v);
    FileKept(d, d', e);
  }

  /** `Create` on the disk is `Added` on the volume. */
  lemma CreateVolume(d: DiskImage, name: seq<byte>, size: nat, slot: nat, sec: int, h: Header, d': DiskImage)
    requires Inv(d) && CreateEffect(d, name, size, slot, sec, h, d')
    ensures Mounted(d')
    ensures VolumeOf(d') == Added(VolumeOf(d), slot, File(Key(name), sec, Blocks(h), Contents(d', h)))
    ensures forall i :: 0 <= i < 10 && TableOf(d)[i].inUse ==> HeaderAt(d', TableOf(d)[i].sector) == HeaderAt(d, TableOf(d)[i].sector)
  {
    hide DecodeHeader, WfHeader, Contents, FreeMap, DecodeTable, Blocks;
    var v, t, t' := VolumeOf(d), TableOf(d), TableOf(d');
    OwnedIsTaken(v);
    forall i: nat | i < 10 && t'[i].inUse && i != slot
      ensures WfFile(d', t'[i].sector) && FileOf(d', t'[i]) == v.files[i]
      ensures HeaderAt(d', t[i].sector) == HeaderAt(d, t[i].sector)
    {
      assert Owned(v.files[i]) == Footprint(d, t[i].sector);
      UserFileKept(d, d', {sec}, i);
    }
    var f := File(Key(name), sec, Blocks(h), Contents(d', h));
    assert FileOf(d', t'[slot]) == f;
    assert FilesOf(d', t') == v.files[slot := f];
  }

  /** `Create` keeps the invariant and adds exactly one entry to the map. */
  lemma CreateRefines(d: DiskImage, name: seq<byte>, size: nat, slot: nat, sec: int, h: Header, d': DiskImage)
    requires Inv(d) && CreateEffect(d, name, size, slot, sec, h, d') && Key(name) !in Files(d)
    ensures Inv(d')
    ensures |Contents(d', h)| == size && Files(d') == Files(d)[Key(name) := Contents(d', h)]
  {
    hide DecodeHeader, WfHeader, Contents, FreeMap, DecodeTable, Blocks;
    CreateVolume(d, name, size, slot, sec, h, d');
    AddedConsistent(VolumeOf(d), slot, File(Key(name), sec, Blocks(h), Contents(d', h)));
  }

  lemma RemoveVolume(d: DiskImage, name: seq<byte>, i: nat, d': DiskImage)
    requires Inv(d) && RemoveEffect(d, name, i, d')
    ensures i < 10 && Mounted(d') && VolumeOf(d') == Dropped(VolumeOf(d), i)
    ensures VolumeOf(d).files[i].File? && VolumeOf(d).files[i].key == Key(name)
    ensures forall j :: 0 <= j < 10 && j != i && TableOf(d)[j].inUse ==> HeaderAt(d', TableOf(d)[j].sector) == HeaderAt(d, TableOf(d)[j].sector)
  {
    hide DecodeHeader, WfHeader, Contents, FreeMap, DecodeTable, Blocks;
    var v, t, t' := VolumeOf(d), TableOf(d), TableOf(d');
    forall j: nat | j < 10 && t'[j].inUse
      ensures WfFile(d', t'[j].sector) && FileOf(d', t'[j]) == v.files[j]
      ensures HeaderAt(d', t[j].sector) == HeaderAt(d, t[j].sector)
    {
      UserFileKept(d, d', {}, j);
    }
    assert FilesOf(d', t') == v.files[i := NoFile];
  }

  /** `Remove` keeps the invariant and drops exactly one entry from the map. */
  lemma RemoveRefines(d: DiskImage, name: seq<byte>, i: nat, d': DiskImage)
    requires Inv(d) && RemoveEffect(d, name, i, d')
    ensures Inv(d') && Files(d') == Files(d) - {Key(name)}
  {
    hide DecodeHeader, WfHeader, Contents, FreeMap, DecodeTable, Blocks;
    RemoveVolume(d, name, i, d');
    DroppedConsistent(VolumeOf(d), i);
  }

  /** Data sectors of a user file hold no part of any other file. */
  lemma WriteVolume(d: DiskImage, i: nat, from: seq<byte>, position: nat, d': DiskImage)
    requires Inv(d) && i < 10 && TableOf(d)[i].inUse
    requires WriteEffect(d, HeaderAt(d, TableOf(d)[i].sector), from, position, d')
    ensures Mounted(d') && TableOf(d') == TableOf(d)
    ensures VolumeOf(d') == Rewritten(VolumeOf(d), i, Contents(d', HeaderAt(d, TableOf(d)[i].sector)))
    ensures forall j :: 0 <= j < 10 && TableOf(d)[j].inUse ==> HeaderAt(d', TableOf(d)[j].sector) == HeaderAt(d, TableOf(d)[j].sector)
  {
    hide DecodeHeader, WfHeader, DecodeTable, Blocks, MapBits;
    var v, t := VolumeOf(d), TableOf(d);
    var h := HeaderAt(d, t[i].sector);
    assert Owned(v.files[i]) == Footprint(d, t[i].sector);
    assert Owned(v.files[i]) !! System(v);
    ContentsFrame(d, d', HeaderAt(d, FREE_MAP_SECTOR));
    ContentsFrame(d, d', HeaderAt(d, DIRECTORY_SECTOR));
    assert TableOf(d') == t && FreeMap(d') == FreeMap(d);
    forall j: nat | j < 10 && t[j].inUse && j != i
      ensures WfFile(d', t[j].sector) && FileOf(d', t[j]) == v.files[j]
      ensures HeaderAt(d', t[j].sector) == HeaderAt(d, t[j].sector)
    {
      assert Owned(v.files[j]) == Footprint(d, t[j].sector);
      assert Owned(v.files[if i < j then i else j]) !! Owned(v.files[if i < j then j else i]);
      FileKept(d, d', t[j]);
    }
    assert FilesOf(d', t) == v.files[i := v.files[i].(data := Contents(d', h))];
  }

  /** A write through a handle on a listed file changes that file's bytes and nothing else. */
  lemma WriteRefines(d: DiskImage, i: nat, from: seq<byte>, position: nat, d': DiskImage)
    requires Inv(d) && i < 10 && TableOf(d)[i].inUse
    requires WriteEffect(d, HeaderAt(d, TableOf(d)[i].sector), from, position, d')
    ensures Inv(d') && TableOf(d') == TableOf(d) && FreeMap(d') == FreeMap(d)
    ensures var key := Key(TableOf(d)[i].name);
            && key in Files(d)
            && (from != [] ==> position + |from| <= |Files(d)[key]|)
            && Files(d') == Files(d)[key := if from == [] then Files(d)[key] else Splice(Files(d)[key], position, from)]
  {
    hide DecodeHeader, WfHeader, Contents, DecodeTable, Blocks, MapBits;
    WriteVolume(d, i, from, position, d');
    var v := VolumeOf(d);
    RewrittenConsistent(v, i, Contents(d', HeaderAt(d, TableOf(d)[i].sector)));
    CatalogAt(v, i, v.files[i].key);
  }

  /** No directory can fill the disk: at most 372 of the 1024 sectors are ever taken. */
  lemma RoomAlways(d: DiskImage)
    requires Inv(d)
    ensures |FreeMap(d)| <= 372
  {
    hide DecodeHeader, Contents, DecodeTable, MapBits;
    var v := VolumeOf(d);
    forall i | 0 <= i < 10 ensures |Owned(v.files[i])| <= 31 {
      if v.files[i].File? {
        BlockCount(HeaderAt(d, TableOf(d)[i].sector));
      }
    }
    BlockCount(HeaderAt(d, FREE_MAP_SECTOR));
    BlockCount(HeaderAt(d, DIRECTORY_SECTOR));
    TakenSize(v, 31);
  }

  lemma BlockCount(h: Header)
    requires WfHeader(h)
    ensures |Blocks(h)| == h.numSectors <= 30
  {
    ElementCount(h.dataSectors[..h.numSectors]);
  }
}
