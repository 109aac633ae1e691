/** The file system proper: format, create, open and remove. */
module FileSystems {
  import opened Bytes
  import opened Bitmaps
  import opened DiskLayout
  import opened OpenFiles
  import opened Volumes
  import opened FsState
  import opened Directories

  // ---- the persistent bitmap ----

  /** A bitmap initialised from its file. */
  method FetchMap(file: OpenFile) returns (m: Bitmap)
    requires file.Valid() && file.hdr.numBytes == FREE_MAP_FILE_SIZE
    ensures fresh(m) && fresh(m.words) && m.Valid() && m.numBits == NUM_SECTORS
    ensures m.Bits() == MapBits(Contents(file.disk.sectors, file.hdr.Value()))
  {
    hide FileByte, DecodeWords, Marked;
    m := new Bitmap(NUM_SECTORS);
    var raw := new byte[FREE_MAP_FILE_SIZE];
    var n := file.ReadAt(raw, 0, FREE_MAP_FILE_SIZE, 0);
    assert raw[..] == Contents(file.disk.sectors, file.hdr.Value());
    var ws := DecodeWords(raw[..], 32);
    LoadWords(m, ws);
  }

  method LoadWords(m: Bitmap, ws: seq<word>)
    requires m.Valid() && |ws| == m.words.Length
    modifies m.words
    ensures m.words[..] == ws
  {
    forall k | 0 <= k < m.words.Length {
      m.words[k] := ws[k];
    }
  }

  method WriteMap(m: Bitmap, file: OpenFile)
    requires m.Valid() && m.numBits == NUM_SECTORS
    requires file.Valid() && file.hdr.numBytes == FREE_MAP_FILE_SIZE
    modifies file.disk
    ensures MapBits(Contents(file.disk.sectors, file.hdr.Value())) == m.Bits()
    ensures forall s :: 0 <= s < NUM_SECTORS && s !in Blocks(file.hdr.Value()) ==>
              file.disk.sectors[s] == old(file.disk.sectors)[s]
  {
    hide FileByte, EncodeWords, DecodeWords, Marked;
    var raw := EncodeWords(m.words[..]);
    var n := file.WriteAt(raw, FREE_MAP_FILE_SIZE, 0);
    assert raw[..n] == raw;
    assert Contents(file.disk.sectors, file.hdr.Value()) == raw;
    WordsRoundTrip(m.words[..]);
  }

  // ---- chains of writes ----

  /** Two writes, to the blocks of one system file and then of the other, leave
      both headers and everything else alone. */
  lemma SystemWrites(d: DiskImage, d1: DiskImage, d2: DiskImage, first: int, second: int)
    requires WfFile(d, first) && WfFile(d, second) && Footprint(d, first) !! Footprint(d, second)
    requires forall s :: 0 <= s < NUM_SECTORS && s !in Blocks(HeaderAt(d, first)) ==> d1[s] == d[s]
    requires forall s :: 0 <= s < NUM_SECTORS && s !in Blocks(HeaderAt(d, second)) ==> d2[s] == d1[s]
    ensures HeaderAt(d2, first) == HeaderAt(d, first) && HeaderAt(d2, second) == HeaderAt(d, second)
    ensures Contents(d2, HeaderAt(d, first)) == Contents(d1, HeaderAt(d, first))
    ensures forall s :: 0 <= s < NUM_SECTORS && s !in Footprint(d, first) + Footprint(d, second) ==> d2[s] == d[s]
  {
    hide DecodeHeader, WfHeader;
    ContentsFrame(d1, d2, HeaderAt(d, first));
  }

  /** Writing a header into a sector no system file owns disturbs neither system file. */
  lemma HeaderWrite(d: DiskImage, d1: DiskImage, sec: int)
    requires Mounted(d) && 0 <= sec < NUM_SECTORS
    requires sec !in Footprint(d, FREE_MAP_SECTOR) && sec !in Footprint(d, DIRECTORY_SECTOR)
    requires forall s :: 0 <= s < NUM_SECTORS && s != sec ==> d1[s] == d[s]
    ensures SystemOk(d1) && HeaderAt(d1, FREE_MAP_SECTOR) == HeaderAt(d, FREE_MAP_SECTOR)
    ensures HeaderAt(d1, DIRECTORY_SECTOR) == HeaderAt(d, DIRECTORY_SECTOR)
    ensures FreeMap(d1) == FreeMap(d) && TableOf(d1) == TableOf(d)
  {
    hide DecodeHeader, WfHeader, MapBits, DecodeTable;
    ContentsFrame(d, d1, HeaderAt(d, FREE_MAP_SECTOR));
    ContentsFrame(d, d1, HeaderAt(d, DIRECTORY_SECTOR));
  }

  /** The three writes of `Create` together. */
  lemma CreateChain(d: DiskImage, d1: DiskImage, d2: DiskImage, d3: DiskImage,
                    name: seq<byte>, size: nat, slot: int, sec: int32, h: Header, t: Table, bits: set<int>)
    requires Inv(d) && 0 <= sec < NUM_SECTORS && sec !in FreeMap(d)
    requires WfHeader(h) && h.numBytes == size && sec !in Blocks(h) && Blocks(h) !! FreeMap(d)
    requires 0 <= slot < 10 && AddedAt(TableOf(d), t, slot, name, sec)
    requires bits == FreeMap(d) + ({sec as int} + Blocks(h))
    requires HeaderAt(d1, sec) == h && forall s :: 0 <= s < NUM_SECTORS && s != sec ==> d1[s] == d[s]
    requires DecodeTable(Contents(d2, HeaderAt(d, DIRECTORY_SECTOR))) == t
    requires forall s :: 0 <= s < NUM_SECTORS && s !in Blocks(HeaderAt(d, DIRECTORY_SECTOR)) ==> d2[s] == d1[s]
    requires MapBits(Contents(d3, HeaderAt(d, FREE_MAP_SECTOR))) == bits
    requires forall s :: 0 <= s < NUM_SECTORS && s !in Blocks(HeaderAt(d, FREE_MAP_SECTOR)) ==> d3[s] == d2[s]
    ensures CreateEffect(d, name, size, slot, sec, h, d3)
  {
    hide DecodeHeader, WfHeader, MapBits, DecodeTable, Contents, Key, Blocks;
    var v := VolumeOf(d);
    OwnedIsTaken(v);
    assert sec !in System(v);
    HeaderWrite(d, d1, sec);
    assert Footprint(d1, FREE_MAP_SECTOR) == Footprint(d, FREE_MAP_SECTOR);
    assert Footprint(d1, DIRECTORY_SECTOR) == Footprint(d, DIRECTORY_SECTOR);
    SystemWrites(d1, d2, d3, DIRECTORY_SECTOR, FREE_MAP_SECTOR);
    assert d3[sec] == d1[sec];
  }

  /** The two writes of `Remove` together. */
  lemma RemoveChain(d: DiskImage, d1: DiskImage, d2: DiskImage, name: seq<byte>, i: int, t: Table, bits: set<int>)
    requires Inv(d) && 0 <= i < 10 && RemovedAt(TableOf(d), t, i, name)
    requires bits == FreeMap(d) - Footprint(d, TableOf(d)[i].sector)
    requires MapBits(Contents(d1, HeaderAt(d, FREE_MAP_SECTOR))) == bits
    requires forall s :: 0 <= s < NUM_SECTORS && s !in Blocks(HeaderAt(d, FREE_MAP_SECTOR)) ==> d1[s] == d[s]
    requires DecodeTable(Contents(d2, HeaderAt(d, DIRECTORY_SECTOR))) == t
    requires forall s :: 0 <= s < NUM_SECTORS && s !in Blocks(HeaderAt(d, DIRECTORY_SECTOR)) ==> d2[s] == d1[s]
    ensures RemoveEffect(d, name, i, d2)
  {
    hide DecodeHeader, WfHeader, MapBits, DecodeTable, Contents, Key, Blocks;
    assert Disjoint(VolumeOf(d));
    SystemWrites(d, d1, d2, FREE_MAP_SECTOR, DIRECTORY_SECTOR);
  }

  /** The directory table and the map of files agree on which names exist. */
  lemma ListedIsFile(d: DiskImage, name: seq<byte>)
    requires Inv(d)
    ensures Listed(TableOf(d), name) <==> Key(name) in Files(d)
    ensures forall i :: ListedAt(TableOf(d), i, name) ==> Files(d)[Key(name)] == VolumeOf(d).files[i].data
    ensures forall i, j :: ListedAt(TableOf(d), i, name) && ListedAt(TableOf(d), j, name) ==> i == j
  {
    hide DecodeHeader, WfHeader, MapBits, DecodeTable, Contents, Key, Blocks, Catalog, Keys;
    var v, t := VolumeOf(d), TableOf(d);
    forall i | ListedAt(t, i, name) ensures Lists(v.files, i, Key(name)) && Key(name) in Files(d) && Files(d)[Key(name)] == v.files[i].data {
      CatalogAt(v, i, Key(name));
    }
    if Key(name) in Files(d) {
      assert ListedAt(t, IndexOf(v.files, Key(name)), name);
    }
  }

  /** A free table entry means fewer than ten files. */
  lemma FreeEntry(d: DiskImage)
    requires Inv(d)
    ensures |Files(d)| <= 10
    ensures HasFree(TableOf(d)) <==> |Files(d)| < 10
  {
    hide DecodeHeader, WfHeader, MapBits, DecodeTable, Contents, Key, Blocks, Catalog;
    var v, t := VolumeOf(d), TableOf(d);
    FreeSlot(v);
    assert forall k :: 0 <= k < 10 ==> (v.files[k].NoFile? <==> !t[k].inUse);
    if |Files(d)| < 10 {
      var k :| 0 <= k < |v.files| && v.files[k].NoFile?;
      assert !t[k].inUse;
    }
  }

  /** The two system files own their headers and their blocks, and nothing else is marked. */
  ghost predicate OwnSystem(hm: Header, hd: Header, bits: set<int>) {
    && WfHeader(hm) && hm.numBytes == FREE_MAP_FILE_SIZE
    && WfHeader(hd) && hd.numBytes == DIRECTORY_FILE_SIZE
    && {0, 1} !! Blocks(hm) !! Blocks(hd) && bits == {0, 1} + Blocks(hm) + Blocks(hd)
  }

  /** Marks the two header sectors and allocates the data blocks of the two system files. */
  method ClaimSystem(freeMap: Bitmap) returns (mapHdr: FileHeader, dirHdr: FileHeader)
    requires freeMap.Valid() && freeMap.numBits == NUM_SECTORS && freeMap.Bits() == {}
    modifies freeMap.words
    ensures fresh(mapHdr) && fresh(dirHdr) && mapHdr != dirHdr && mapHdr.Valid() && dirHdr.Valid()
    ensures fresh(mapHdr.dataSectors) && fresh(dirHdr.dataSectors)
    ensures OwnSystem(mapHdr.Value(), dirHdr.Value(), freeMap.Bits())
  {
    hide WfHeader, Blocks, Marked;
    freeMap.Mark(FREE_MAP_SECTOR);
    freeMap.Mark(DIRECTORY_SECTOR);
    assert freeMap.Bits() == {0, 1};
    mapHdr := NewSystemFile(freeMap, FREE_MAP_FILE_SIZE);
    dirHdr := NewSystemFile(freeMap, DIRECTORY_FILE_SIZE);
  }

  /** A header for a system file on a nearly empty disk: the allocation cannot fail. */
  method NewSystemFile(freeMap: Bitmap, size: nat) returns (hdr: FileHeader)
    requires freeMap.Valid() && freeMap.numBits == NUM_SECTORS && |freeMap.Bits()| <= 100 && size <= MAX_FILE_SIZE
    modifies freeMap.words
    ensures fresh(hdr) && hdr.Valid() && fresh(hdr.dataSectors)
    ensures WfHeader(hdr.Value()) && hdr.numBytes == size
    ensures Blocks(hdr.Value()) !! old(freeMap.Bits())
    ensures freeMap.Bits() == old(freeMap.Bits()) + Blocks(hdr.Value())
    ensures |freeMap.Bits()| <= |old(freeMap.Bits())| + 30
  {
    hide WfHeader, Blocks, Marked;
    hdr := new FileHeader();
    var ok := hdr.Allocate(freeMap, size);
    assert ok;
    BlockCount(hdr.Value());
    UnionSize(old(freeMap.Bits()), Blocks(hdr.Value()));
  }

  /** Formatting: the map and directory written over their fresh blocks make an empty volume. */
  lemma FormatChain(d: DiskImage, d1: DiskImage, d2: DiskImage, t: Table, bits: set<int>)
    requires OwnSystem(HeaderAt(d, FREE_MAP_SECTOR), HeaderAt(d, DIRECTORY_SECTOR), bits)
    requires forall i :: 0 <= i < 10 ==> !t[i].inUse
    requires MapBits(Contents(d1, HeaderAt(d, FREE_MAP_SECTOR))) == bits
    requires forall s :: 0 <= s < NUM_SECTORS && s !in Blocks(HeaderAt(d, FREE_MAP_SECTOR)) ==> d1[s] == d[s]
    requires DecodeTable(Contents(d2, HeaderAt(d, DIRECTORY_SECTOR))) == t
    requires forall s :: 0 <= s < NUM_SECTORS && s !in Blocks(HeaderAt(d, DIRECTORY_SECTOR)) ==> d2[s] == d1[s]
    ensures HeaderAt(d2, FREE_MAP_SECTOR) == HeaderAt(d, FREE_MAP_SECTOR)
    ensures HeaderAt(d2, DIRECTORY_SECTOR) == HeaderAt(d, DIRECTORY_SECTOR)
    ensures Inv(d2) && Files(d2) == map[]
  {
    hide DecodeHeader, WfHeader, MapBits, DecodeTable, Contents, Key, Blocks, Catalog;
    SystemWrites(d, d1, d2, FREE_MAP_SECTOR, DIRECTORY_SECTOR);
    var v := VolumeOf(d2);
    assert forall i :: 0 <= i < 10 ==> v.files[i] == NoFile;
    assert v.taken == v.mapFile + v.dirFile;
    assert Consistent(v);
    EmptyCatalog(v);
  }

  method WriteHeaders(disk: SynchDisk, mapHdr: FileHeader, dirHdr: FileHeader)
    requires mapHdr.Valid() && dirHdr.Valid()
    modifies disk
    ensures HeaderAt(disk.sectors, FREE_MAP_SECTOR) == mapHdr.Value()
    ensures HeaderAt(disk.sectors, DIRECTORY_SECTOR) == dirHdr.Value()
  {
    hide DecodeHeader, WfHeader;
    mapHdr.WriteBack(disk, FREE_MAP_SECTOR);
    dirHdr.WriteBack(disk, DIRECTORY_SECTOR);
  }

  /** The second half of formatting: the map and the empty directory go to their files. */
  method WriteContents(disk: SynchDisk, freeMap: Bitmap, directory: Directory, mapFile: OpenFile, dirFile: OpenFile)
    requires freeMap.Valid() && freeMap.numBits == NUM_SECTORS && directory.Valid()
    requires mapFile.disk == disk && mapFile.hdr.Valid() && mapFile.hdr.Value() == HeaderAt(disk.sectors, FREE_MAP_SECTOR)
    requires dirFile.disk == disk && dirFile.hdr.Valid() && dirFile.hdr.Value() == HeaderAt(disk.sectors, DIRECTORY_SECTOR)
    requires OwnSystem(mapFile.hdr.Value(), dirFile.hdr.Value(), freeMap.Bits())
    requires forall i :: 0 <= i < 10 ==> !directory.Entries()[i].inUse
    modifies disk
    ensures HeaderAt(disk.sectors, FREE_MAP_SECTOR) == mapFile.hdr.Value()
    ensures HeaderAt(disk.sectors, DIRECTORY_SECTOR) == dirFile.hdr.Value()
    ensures Inv(disk.sectors) && Files(disk.sectors) == map[]
  {
    hide DecodeHeader, WfHeader, MapBits, DecodeTable, Contents, Key, Blocks, Files, Inv;
    ghost var d, bits, t := disk.sectors, freeMap.Bits(), directory.Entries();
    WriteMap(freeMap, mapFile);
    ghost var d1 := disk.sectors;
    directory.WriteBack(dirFile);
    FormatChain(d, d1, disk.sectors, t, bits);
  }

  class FileSystem {
    const disk: SynchDisk
    const freeMapFile: OpenFile
    const directoryFile: OpenFile

    ghost predicate Opened()
      reads disk, freeMapFile, freeMapFile.hdr, freeMapFile.hdr.dataSectors
      reads directoryFile, directoryFile.hdr, directoryFile.hdr.dataSectors
    {
      && freeMapFile.disk == disk && directoryFile.disk == disk
      && freeMapFile.hdr.Valid() && freeMapFile.hdr.Value() == HeaderAt(disk.sectors, FREE_MAP_SECTOR)
      && directoryFile.hdr.Valid() && directoryFile.hdr.Value() == HeaderAt(disk.sectors, DIRECTORY_SECTOR)
    }

    ghost predicate Valid()
      reads disk, freeMapFile, freeMapFile.hdr, freeMapFile.hdr.dataSectors
      reads directoryFile, directoryFile.hdr, directoryFile.hdr.dataSectors
    {
      Opened() && Inv(disk.sectors)
    }

    /** `format == FALSE`: mount a disk that already holds a file system. */
    constructor Mount(disk: SynchDisk)
      requires Inv(disk.sectors)
      ensures this.disk == disk && Valid()
    {
      hide DecodeHeader, Inv;
      this.disk := disk;
      freeMapFile := new OpenFile(disk, FREE_MAP_SECTOR);
      directoryFile := new OpenFile(disk, DIRECTORY_SECTOR);
    }

    /** `format == TRUE`: whatever the disk held, it now holds an empty file system. */
    constructor Format(disk: SynchDisk)
      modifies disk
      ensures this.disk == disk && Valid() && Files(disk.sectors) == map[]
    {
      hide DecodeHeader, WfHeader, MapBits, DecodeTable, Contents, Key, Blocks, Files, Inv, Marked, OwnSystem;
      this.disk := disk;
      var freeMap := new Bitmap(NUM_SECTORS);
      var directory := new Directory();
      var mapHdr, dirHdr := ClaimSystem(freeMap);
      WriteHeaders(disk, mapHdr, dirHdr);
      var mapFile := new OpenFile(disk, FREE_MAP_SECTOR);
      var dirFile := new OpenFile(disk, DIRECTORY_SECTOR);
      freeMapFile, directoryFile := mapFile, dirFile;
      WriteContents(disk, freeMap, directory, mapFile, dirFile);
    }

    /** The in-memory part of `Create`: claim a header sector, a table entry and data blocks. */
    method Reserve(directory: Directory, freeMap: Bitmap, hdr: FileHeader, name: seq<byte>, size: nat)
      returns (ok: bool, sector: int)
      requires directory.Valid() && freeMap.Valid() && freeMap.numBits == NUM_SECTORS && hdr.Valid()
      requires !Listed(directory.Entries(), name) && size <= MAX_FILE_SIZE
      requires directory.table as object != freeMap.words
      requires hdr.dataSectors as object != freeMap.words && hdr.dataSectors as object != directory.table
      modifies directory.table, freeMap.words, hdr, hdr.dataSectors
      ensures ok <==> && |old(freeMap.Bits())| + 1 + SectorsFor(size) <= NUM_SECTORS
                      && HasFree(old(directory.Entries()))
      ensures ok ==> && 0 <= sector < NUM_SECTORS && sector !in old(freeMap.Bits())
                     && WfHeader(hdr.Value()) && hdr.numBytes == size
                     && sector !in Blocks(hdr.Value()) && Blocks(hdr.Value()) !! old(freeMap.Bits())
                     && freeMap.Bits() == old(freeMap.Bits()) + ({sector} + Blocks(hdr.Value()))
                     && EntryAdded(old(directory.Entries()), directory.Entries(), name, sector)
    {
      hide Blocks, WfHeader, Key, Marked, BitSet, EntryAdded, HasFree, Listed, FirstFit;
      sector := freeMap.FindAndSet();
      if sector == -1 {
        return false, sector;
      }
      ghost var bits := freeMap.Bits();
      var added := directory.Add(name, sector);
      assert freeMap.Bits() == bits;
      if !added {
        return false, sector;
      }
      ghost var entries := directory.Entries();
      ok := hdr.Allocate(freeMap, size);
      assert directory.Entries() == entries;
    }

    /** Succeeds exactly when the name is new and fewer than ten files exist; a
        failed call leaves the whole disk as it was. */
    method Create(name: seq<byte>, initialSize: int) returns (ok: bool)
      requires Valid() && 0 <= initialSize <= MAX_FILE_SIZE
      modifies disk
      ensures Valid()
      ensures ok <==> Key(name) !in old(Files(disk.sectors)) && |old(Files(disk.sectors))| < 10
      ensures !ok ==> disk.sectors == old(disk.sectors)
      ensures ok ==> exists slot, sec, h :: CreateEffect(old(disk.sectors), name, initialSize, slot, sec, h, disk.sectors)
      ensures ok ==> exists data :: |data| == initialSize &&
                       Files(disk.sectors) == old(Files(disk.sectors))[Key(name) := data]
    {
      hide DecodeHeader, WfHeader, MapBits, DecodeTable, Contents, Key, Blocks, Files, Consistent, Marked, CreateEffect;
      ghost var d := disk.sectors;
      var directory := new Directory();
      directory.FetchFrom(directoryFile);
      ListedIsFile(d, name);
      var found := directory.Find(name);
      if found != -1 {
        return false;
      }
      FreeEntry(d);
      RoomAlways(d);
      var freeMap := FetchMap(freeMapFile);
      var hdr := new FileHeader();
      var sector;
      ok, sector := Reserve(directory, freeMap, hdr, name, initialSize);
      if ok {
        StoreNew(directory, freeMap, hdr, name, initialSize, sector);
      }
    }

    /** The write-backs of a successful `Create`. */
    method StoreNew(directory: Directory, freeMap: Bitmap, hdr: FileHeader, name: seq<byte>, size: nat, sector: int32)
      requires Valid() && directory.Valid() && freeMap.Valid() && freeMap.numBits == NUM_SECTORS && hdr.Valid()
      requires 0 <= sector < NUM_SECTORS && sector !in FreeMap(disk.sectors)
      requires WfHeader(hdr.Value()) && hdr.numBytes == size
      requires sector !in Blocks(hdr.Value()) && Blocks(hdr.Value()) !! FreeMap(disk.sectors)
      requires freeMap.Bits() == FreeMap(disk.sectors) + ({sector as int} + Blocks(hdr.Value()))
      requires EntryAdded(TableOf(disk.sectors), directory.Entries(), name, sector)
      requires Key(name) !in Files(disk.sectors)
      modifies disk
      ensures Valid()
      ensures exists slot, sec, h :: CreateEffect(old(disk.sectors), name, size, slot, sec, h, disk.sectors)
      ensures exists data :: |data| == size && Files(disk.sectors) == old(Files(disk.sectors))[Key(name) := data]
    {
      hide DecodeHeader, WfHeader, MapBits, DecodeTable, Contents, Key, Blocks, Files, Consistent, Marked, CreateEffect, AddedAt;
      ghost var d := disk.sectors;
      ghost var t, h, bits := directory.Entries(), hdr.Value(), freeMap.Bits();
      ghost var slot :| 0 <= slot < 10 && AddedAt(TableOf(d), t, slot, name, sector);
      hdr.WriteBack(disk, sector);
      ghost var d1 := disk.sectors;
      directory.WriteBack(directoryFile);
      ghost var d2 := disk.sectors;
      WriteMap(freeMap, freeMapFile);
      CreateChain(d, d1, d2, disk.sectors, name, size, slot, sector, h, t, bits);
      CreateRefines(d, name, size, slot, sector, h, disk.sectors);
      KeepsSystemHeaders(d, name, size, slot, sector, h, disk.sectors);
    }

    /** An open file on the named file; none exactly when no such file exists. */
    method Open(name: seq<byte>) returns (file: OpenFile?)
      requires Valid()
      ensures file == null <==> Key(name) !in Files(disk.sectors)
      ensures file != null ==> fresh(file) && fresh(file.hdr) && file.disk == disk && file.seekPosition == 0
      ensures file != null ==> exists i :: ListedAt(TableOf(disk.sectors), i, name) && Handle(file, i)
    {
      hide DecodeHeader, WfHeader, MapBits, DecodeTable, Contents, Key, Blocks, Files, Consistent, Marked;
      var directory := new Directory();
      directory.FetchFrom(directoryFile);
      ListedIsFile(disk.sectors, name);
      var sector := directory.Find(name);
      file := null;
      if sector >= 0 {
        file := new OpenFile(disk, sector);
      }
    }

    /** `file` is open on the file listed at entry `i`. */
    ghost predicate Handle(file: OpenFile, i: int)
      requires Valid()
      reads disk, freeMapFile, freeMapFile.hdr, freeMapFile.hdr.dataSectors
      reads directoryFile, directoryFile.hdr, directoryFile.hdr.dataSectors, file, file.hdr, file.hdr.dataSectors
    {
      && file.disk == disk && 0 <= i < 10 && TableOf(disk.sectors)[i].inUse
      && file.hdr.Valid() && file.hdr.Value() == HeaderAt(disk.sectors, TableOf(disk.sectors)[i].sector)
    }

    /** Succeeds exactly when the file exists, and frees exactly its sectors. */
    method Remove(name: seq<byte>) returns (ok: bool)
      requires Valid()
      modifies disk
      ensures Valid()
      ensures ok <==> Key(name) in old(Files(disk.sectors))
      ensures !ok ==> disk.sectors == old(disk.sectors)
      ensures ok ==> exists i: nat :: RemoveEffect(old(disk.sectors), name, i, disk.sectors)
      ensures ok ==> Files(disk.sectors) == old(Files(disk.sectors)) - {Key(name)}
    {
      hide DecodeHeader, WfHeader, MapBits, DecodeTable, Contents, Key, Blocks, Files, Consistent, Marked, RemoveEffect;
      ghost var d := disk.sectors;
      var directory := new Directory();
      directory.FetchFrom(directoryFile);
      ListedIsFile(d, name);
      var sector := directory.Find(name);
      if sector == -1 {
        return false;
      }
      var fileHdr := new FileHeader();
      fileHdr.FetchFrom(disk, sector);
      var freeMap := FetchMap(freeMapFile);
      Discard(directory, freeMap, fileHdr, name, sector);
      return true;
    }

    /** Frees the blocks, the header sector and the entry, and writes both files back. */
    method Discard(directory: Directory, freeMap: Bitmap, fileHdr: FileHeader, name: seq<byte>, sector: int)
      requires Valid() && directory.Valid() && freeMap.Valid() && freeMap.numBits == NUM_SECTORS && fileHdr.Valid()
      requires directory.Entries() == TableOf(disk.sectors) && freeMap.Bits() == FreeMap(disk.sectors)
      requires exists i :: ListedAt(directory.Entries(), i, name) && sector == directory.Entries()[i].sector
      requires 0 <= sector < NUM_SECTORS && fileHdr.Value() == HeaderAt(disk.sectors, sector)
      requires directory.table as object != freeMap.words
      modifies disk, directory.table, freeMap.words
      ensures Valid()
      ensures exists i: nat :: RemoveEffect(old(disk.sectors), name, i, disk.sectors)
      ensures Files(disk.sectors) == old(Files(disk.sectors)) - {Key(name)}
    {
      hide DecodeHeader, WfHeader, MapBits, DecodeTable, Contents, Key, Blocks, Files, Consistent, Marked, RemoveEffect;
      ghost var d := disk.sectors;
      ghost var i :| ListedAt(TableOf(d), i, name) && sector == TableOf(d)[i].sector;
      OwnsItsSectors(d, i);
      ListedIsFile(d, name);
      FreeSectors(freeMap, fileHdr, sector);
      ghost var bits := freeMap.Bits();
      var removed := directory.Remove(name);
      ghost var t := directory.Entries();
      assert freeMap.Bits() == bits && RemovedAt(TableOf(d), t, i, name);
      WriteMap(freeMap, freeMapFile);
      ghost var d1 := disk.sectors;
      directory.WriteBack(directoryFile);
      RemoveChain(d, d1, disk.sectors, name, i, t, bits);
      RemoveRefines(d, name, i, disk.sectors);
      RemoveKeepsHeaders(d, name, i, disk.sectors);
    }

    method FreeSectors(freeMap: Bitmap, fileHdr: FileHeader, sector: int)
      requires freeMap.Valid() && freeMap.numBits == NUM_SECTORS && fileHdr.Valid() && 0 <= sector < NUM_SECTORS
      requires WfHeader(fileHdr.Value()) && Blocks(fileHdr.Value()) <= freeMap.Bits()
      modifies freeMap.words
      ensures freeMap.Bits() == old(freeMap.Bits()) - ({sector} + Blocks(fileHdr.Value()))
    {
      hide WfHeader, Blocks, Marked;
      fileHdr.Deallocate(freeMap);
      freeMap.Clear(sector);
    }
  }

  lemma KeepsSystemHeaders(d: DiskImage, name: seq<byte>, size: nat, slot: nat, sec: int, h: Header, d': DiskImage)
    requires Mounted(d) && CreateEffect(d, name, size, slot, sec, h, d')
    ensures HeaderAt(d', FREE_MAP_SECTOR) == HeaderAt(d, FREE_MAP_SECTOR)
    ensures HeaderAt(d', DIRECTORY_SECTOR) == HeaderAt(d, DIRECTORY_SECTOR)
  {
    hide DecodeHeader;
  }

  lemma RemoveKeepsHeaders(d: DiskImage, name: seq<byte>, i: nat, d': DiskImage)
    requires Mounted(d) && RemoveEffect(d, name, i, d')
    ensures HeaderAt(d', FREE_MAP_SECTOR) == HeaderAt(d, FREE_MAP_SECTOR)
    ensures HeaderAt(d', DIRECTORY_SECTOR) == HeaderAt(d, DIRECTORY_SECTOR)
  {
    hide DecodeHeader;
  }

  lemma OwnsItsSectors(d: DiskImage, i: nat)
    requires Inv(d) && i < 10 && TableOf(d)[i].inUse
    ensures Footprint(d, TableOf(d)[i].sector) <= FreeMap(d)
  {
    hide DecodeHeader, WfHeader, MapBits, DecodeTable, Contents, Key, Blocks;
    var v := VolumeOf(d);
    OwnedIsTaken(v);
    assert Owned(v.files[i]) == Footprint(d, TableOf(d)[i].sector);
  }
}
