/** The disk as the file system sees it, in-memory file headers, and open files. */
module OpenFiles {
  import opened Bytes
  import opened Bitmaps
  import opened DiskLayout

  /** The synchronous disk: one sector per request, complete on return. */
  class SynchDisk {
    var sectors: DiskImage

    constructor (image: DiskImage)
      ensures sectors == image
    {
      sectors := image;
    }

    method ReadSector(sectorNumber: int, data: array<byte>, at: nat)
      requires 0 <= sectorNumber < NUM_SECTORS && at + 128 <= data.Length
      modifies data
      ensures data[..] == Splice(old(data[..]), at, sectors[sectorNumber])
    {
      Copy(sectors[sectorNumber], data, at);
    }

    method WriteSector(sectorNumber: int, data: array<byte>, at: nat)
      requires 0 <= sectorNumber < NUM_SECTORS && at + 128 <= data.Length
      modifies this
      ensures sectors == old(sectors)[sectorNumber := data[at..at + 128]]
    {
      sectors := sectors[sectorNumber := data[at..at + 128]];
    }
  }

  /** Each sector of `s` is the lowest one in neither `taken` nor the sectors before it. */
  ghost predicate FirstFit(s: seq<int32>, taken: set<int>) {
    forall k, x: int32 :: 0 <= k < |s| && 0 <= x < s[k] ==> x in taken || x in s[..k]
  }

  /** `s` was claimed, lowest sector first, from a map that had `taken` marked and now has `bits`. */
  ghost predicate Claimed(s: seq<int32>, taken: set<int>, bits: set<int>) {
    && DistinctSectors(s)
    && Elements(s) !! taken
    && bits == taken + Elements(s)
    && FirstFit(s, taken)
  }

  lemma ClaimOne(s: seq<int32>, taken: set<int>, bits: set<int>, r: int32)
    requires Claimed(s, taken, bits) && 0 <= r < NUM_SECTORS && r !in bits
    requires forall x :: 0 <= x < r ==> x in bits
    ensures Claimed(s + [r], taken, bits + {r as int})
  {
    var t := s + [r];
    ElementsSnoc(s, r);
    forall k, x: int32 | 0 <= k < |t| && 0 <= x < t[k] ensures x in taken || x in t[..k] {
      assert t[..k] == s[..k];
      if k == |s| { assert x in bits; }
    }
  }

  class FileHeader {
    var numBytes: int32
    var numSectors: int32
    const dataSectors: array<int32>

    ghost predicate Valid() {
      dataSectors.Length == NUM_DIRECT
    }

    ghost function Value(): Header
      requires Valid()
      reads this, dataSectors
    {
      Header(numBytes, numSectors, dataSectors[..])
    }

    constructor ()
      ensures Valid() && fresh(dataSectors)
    {
      dataSectors := new int32[NUM_DIRECT];
    }

    /** First fit: block `k` is the lowest sector clear at that point. Fails,
        leaving the map alone, exactly when too few sectors are clear. */
    method Allocate(freeMap: Bitmap, fileSize: int) returns (ok: bool)
      requires Valid() && freeMap.Valid() && freeMap.numBits == NUM_SECTORS
      requires 0 <= fileSize <= MAX_FILE_SIZE
      modifies this, dataSectors, freeMap.words
      ensures ok <==> |old(freeMap.Bits())| + SectorsFor(fileSize) <= NUM_SECTORS
      ensures !ok ==> freeMap.Bits() == old(freeMap.Bits())
      ensures ok ==> WfHeader(Value()) && numBytes == fileSize
      ensures ok ==> Blocks(Value()) !! old(freeMap.Bits())
      ensures ok ==> freeMap.Bits() == old(freeMap.Bits()) + Blocks(Value())
      ensures ok ==> FirstFit(dataSectors[..numSectors], old(freeMap.Bits()))
    {
      numBytes := fileSize;
      numSectors := SectorsFor(fileSize);
      var clear := freeMap.NumClear();
      if clear < numSectors {
        return false;
      }
      ClaimBlocks(freeMap, numSectors);
      return true;
    }

    method SetSector(i: nat, r: int32)
      requires Valid() && i < NUM_DIRECT
      modifies dataSectors
      ensures dataSectors[..i + 1] == old(dataSectors[..i]) + [r]
    {
      dataSectors[i] := r;
    }

    method ClaimBlock(freeMap: Bitmap, i: nat, ghost was: set<int>)
      requires Valid() && freeMap.Valid() && freeMap.numBits == NUM_SECTORS && i < NUM_DIRECT
      requires |was| + i < NUM_SECTORS && Claimed(dataSectors[..i], was, freeMap.Bits())
      modifies dataSectors, freeMap.words
      ensures Claimed(dataSectors[..i + 1], was, freeMap.Bits())
    {
      ElementCount(dataSectors[..i]);
      ghost var before, bits := dataSectors[..i], freeMap.Bits();
      var r := freeMap.FindAndSet();
      assert r >= 0;
      ClaimOne(before, was, bits, r);
      assert dataSectors[..i] == before;
      SetSector(i, r);
    }

    method ClaimBlocks(freeMap: Bitmap, n: nat)
      requires Valid() && freeMap.Valid() && freeMap.numBits == NUM_SECTORS && n <= NUM_DIRECT
      requires |freeMap.Bits()| + n <= NUM_SECTORS
      modifies dataSectors, freeMap.words
      ensures Claimed(dataSectors[..n], old(freeMap.Bits()), freeMap.Bits())
    {
      ghost var was := freeMap.Bits();
      for i := 0 to n
        invariant Claimed(dataSectors[..i], was, freeMap.Bits())
      {
        ClaimBlock(freeMap, i, was);
      }
    }

    /** Gives back every data block; each one must be marked. */
    method Deallocate(freeMap: Bitmap)
      requires Valid() && freeMap.Valid() && freeMap.numBits == NUM_SECTORS
      requires WfHeader(Value()) && Blocks(Value()) <= freeMap.Bits()
      modifies freeMap.words
      ensures freeMap.Bits() == old(freeMap.Bits()) - Blocks(Value())
    {
      for i := 0 to numSectors
        invariant freeMap.Bits() == old(freeMap.Bits()) - Elements(dataSectors[..i])
      {
        assert dataSectors[i] == dataSectors[..numSectors][i];
        var marked := freeMap.Test(dataSectors[i]);
        assert marked;
        freeMap.Clear(dataSectors[i]);
        assert dataSectors[..i + 1] == dataSectors[..i] + [dataSectors[i]];
        ElementsSnoc(dataSectors[..i], dataSectors[i]);
      }
    }

    method FetchFrom(disk: SynchDisk, sector: int)
      requires Valid() && 0 <= sector < NUM_SECTORS
      modifies this, dataSectors
      ensures Value() == DecodeHeader(disk.sectors[sector])
    {
      var raw := new byte[128];
      disk.ReadSector(sector, raw, 0);
      assert raw[..] == disk.sectors[sector];
      var h := DecodeHeader(raw[..]);
      numBytes, numSectors := h.numBytes, h.numSectors;
      SetSectors(h.dataSectors);
    }

    method SetSectors(p: SectorNumbers)
      requires Valid()
      modifies dataSectors
      ensures dataSectors[..] == p
    {
      forall k | 0 <= k < NUM_DIRECT {
        dataSectors[k] := p[k];
      }
    }

    method WriteBack(disk: SynchDisk, sector: int)
      requires Valid() && 0 <= sector < NUM_SECTORS
      modifies disk
      ensures disk.sectors == old(disk.sectors)[sector := disk.sectors[sector]]
      ensures DecodeHeader(disk.sectors[sector]) == Value()
    {
      hide EncodeHeader, DecodeHeader;
      var raw := new byte[128];
      var h := Header(numBytes, numSectors, dataSectors[..]);
      var image := EncodeHeader(h);
      Copy(image, raw, 0);
      assert raw[0..128] == image;
      disk.WriteSector(sector, raw, 0);
      HeaderRoundTrip(h);
    }

    method ByteToSector(offset: int) returns (s: int)
      requires Valid() && WfHeader(Value()) && 0 <= offset < numSectors * 128
      ensures s == dataSectors[..numSectors][offset / 128] && s in Blocks(Value())
    {
      s := dataSectors[offset / 128];
      assert s == dataSectors[..numSectors][offset / 128];
    }
  }

  /** How many bytes a request moves once it is cut off at end of file. */
  function Transfer(numBytes: int, position: nat, length: nat): (n: nat)
    ensures n > 0 ==> position + n <= length
  {
    if numBytes <= 0 || position >= length then 0 else Min(numBytes, length - position)
  }

  /** What a write of `from` at `position` does to the disk: a splice of the one
      file, and nothing outside that file's data sectors. */
  ghost predicate WriteEffect(d: DiskImage, h: Header, from: seq<byte>, position: nat, d': DiskImage)
    requires WfHeader(h)
  {
    && (from == [] || position + |from| <= h.numBytes)
    && Contents(d', h) == (if from == [] then Contents(d, h) else Splice(Contents(d, h), position, from))
    && (forall s :: 0 <= s < NUM_SECTORS && s !in Blocks(h) ==> d'[s] == d[s])
  }

  /** The first `count` sector-sized pieces of `buf` are data sectors `first` on. */
  ghost predicate Loaded(buf: seq<byte>, d: DiskImage, h: Header, first: nat, count: nat)
    requires WfHeader(h) && first + count <= h.numSectors && 128 * count <= |buf|
  {
    forall c :: 0 <= c < count ==> buf[128 * c..128 * c + 128] == SectorOf(d, h, first + c)
  }

  ghost function SectorOf(d: DiskImage, h: Header, k: nat): Sector
    requires WfHeader(h) && k < h.numSectors
  {
    assert h.dataSectors[k] == h.dataSectors[..h.numSectors][k];
    d[h.dataSectors[k]]
  }

  lemma LoadOne(buf: seq<byte>, d: DiskImage, h: Header, first: nat, count: nat)
    requires WfHeader(h) && first + count < h.numSectors && 128 * (count + 1) <= |buf|
    requires Loaded(buf, d, h, first, count)
    ensures Loaded(Splice(buf, 128 * count, SectorOf(d, h, first + count)), d, h, first, count + 1)
  {
    var buf' := Splice(buf, 128 * count, SectorOf(d, h, first + count));
    forall c | 0 <= c < count + 1 ensures buf'[128 * c..128 * c + 128] == SectorOf(d, h, first + c) {
      if c < count {
        assert buf'[128 * c..128 * c + 128] == buf[128 * c..128 * c + 128];
      }
    }
  }

  /** Byte for byte, a loaded buffer is the file. */
  lemma LoadedByte(buf: seq<byte>, d: DiskImage, h: Header, first: nat, count: nat, b: nat)
    requires WfHeader(h) && first + count <= h.numSectors && 128 * count <= |buf|
    requires Loaded(buf, d, h, first, count)
    requires b < 128 * count && 128 * first + b < h.numBytes
    ensures buf[b] == FileByte(d, h, 128 * first + b)
  {
    var c, j := b / 128, b % 128;
    assert buf[128 * c..128 * c + 128][j] == SectorOf(d, h, first + c)[j];
    assert (128 * first + b) / 128 == first + c && (128 * first + b) % 128 == j;
  }

  lemma LoadedRange(buf: seq<byte>, d: DiskImage, h: Header, position: nat, n: nat)
    requires WfHeader(h) && 0 < n && position + n <= h.numBytes
    requires var first := position / 128; var count := 1 + (position + n - 1) / 128 - first;
             |buf| == 128 * count && Loaded(buf, d, h, first, count)
    ensures buf[position % 128..position % 128 + n] == Contents(d, h)[position..position + n]
  {
    var first := position / 128;
    var count := 1 + (position + n - 1) / 128 - first;
    var skip := position % 128;
    var part, piece := buf[skip..skip + n], Contents(d, h)[position..position + n];
    forall j | 0 <= j < n ensures part[j] == piece[j] {
      LoadedByte(buf, d, h, first, count, skip + j);
    }
  }

  /** `buf`, laid over the file from sector `first` on, agrees with `c` wherever both have bytes. */
  ghost predicate Agrees(buf: seq<byte>, c: seq<byte>, first: nat) {
    forall b :: 0 <= b < |buf| && 128 * first + b < |c| ==> buf[b] == c[128 * first + b]
  }

  /** A buffer after `ReadAt` of one sector of a file `c`, at file offset `start`. */
  ghost function ReadBack(buf: seq<byte>, at: nat, c: seq<byte>, start: nat): (r: seq<byte>)
    requires start < |c| && at + 128 <= |buf|
    ensures |r| == |buf|
    ensures forall b :: 0 <= b < |buf| ==>
              r[b] == if at <= b < at + 128 && start + (b - at) < |c| then c[start + (b - at)] else buf[b]
  {
    Splice(buf, at, c[start..start + Min(128, |c| - start)])
  }

  /** Outside the range being written, `buf` holds the file's own bytes. */
  ghost predicate Ragged(buf: seq<byte>, c: seq<byte>, position: nat, n: nat, first: nat) {
    forall b :: 0 <= b < |buf| && 128 * first + b < |c| && !(position <= 128 * first + b < position + n) ==>
      buf[b] == c[128 * first + b]
  }

  /** Reading only the first or last sectors that are partly written is enough. */
  lemma RaggedEnds(buf0: seq<byte>, buf1: seq<byte>, buf2: seq<byte>, c: seq<byte>, position: nat, n: nat,
                   first: nat, last: nat, firstAligned: bool, lastAligned: bool)
    requires 0 < n && position + n <= |c|
    requires 128 * first <= position < 128 * first + 128
    requires 128 * last < position + n <= 128 * last + 128 && first <= last
    requires |buf0| == 128 * (1 + last - first)
    requires firstAligned == (position == 128 * first) && lastAligned == (position + n == 128 * (last + 1))
    requires buf1 == if firstAligned then buf0 else ReadBack(buf0, 0, c, 128 * first)
    requires buf2 == if lastAligned || (first == last && !firstAligned) then buf1
                     else ReadBack(buf1, 128 * (last - first), c, 128 * last)
    ensures Ragged(buf2, c, position, n, first)
  {
    forall b | 0 <= b < |buf2| && 128 * first + b < |c| && !(position <= 128 * first + b < position + n)
      ensures buf2[b] == c[128 * first + b]
    {
      if 128 * first + b < position {
        assert buf1[b] == c[128 * first + b];
      } else if first == last && !firstAligned {
        assert buf1[b] == c[128 * first + b];
      } else {
        assert 128 * last + (b - 128 * (last - first)) == 128 * first + b;
      }
    }
  }

  lemma RaggedFilled(buf: seq<byte>, c: seq<byte>, from: seq<byte>, position: nat, first: nat, skip: nat)
    requires position == 128 * first + skip && skip + |from| <= |buf| && position + |from| <= |c|
    requires Ragged(buf, c, position, |from|, first)
    ensures Agrees(Splice(buf, skip, from), Splice(c, position, from), first)
  {
  }

  lemma StoreOne(buf: seq<byte>, d: DiskImage, h: Header, first: nat, count: nat, d': DiskImage)
    requires WfHeader(h) && first + count < h.numSectors && 128 * (count + 1) <= |buf|
    requires Loaded(buf, d, h, first, count)
    requires d' == d[h.dataSectors[..h.numSectors][first + count] := buf[128 * count..128 * count + 128]]
    ensures Loaded(buf, d', h, first, count + 1)
    ensures forall k :: 0 <= k < h.numSectors && k != first + count ==> SectorOf(d', h, k) == SectorOf(d, h, k)
  {
    var s := h.dataSectors[..h.numSectors];
    forall k | 0 <= k < h.numSectors && k != first + count ensures SectorOf(d', h, k) == SectorOf(d, h, k) {
      assert s[k] != s[first + count];
    }
  }

  /** Writing an agreeing buffer over data sectors `first..last` makes the file `c`. */
  lemma FlushedContents(d: DiskImage, d': DiskImage, h: Header, buf: seq<byte>, first: nat, count: nat, c: seq<byte>)
    requires WfHeader(h) && first + count <= h.numSectors && |buf| == 128 * count
    requires Loaded(buf, d', h, first, count) && Agrees(buf, c, first) && |c| == h.numBytes
    requires forall p: nat :: p < h.numBytes && !(128 * first <= p < 128 * (first + count)) ==> c[p] == Contents(d, h)[p]
    requires forall k :: 0 <= k < h.numSectors && !(first <= k < first + count) ==> SectorOf(d', h, k) == SectorOf(d, h, k)
    ensures Contents(d', h) == c
  {
    forall p: nat | p < h.numBytes ensures Contents(d', h)[p] == c[p] {
      if 128 * first <= p < 128 * (first + count) {
        LoadedByte(buf, d', h, first, count, p - 128 * first);
        assert p == 128 * first + (p - 128 * first);
      } else {
        assert FileByte(d', h, p) == SectorOf(d', h, p / 128)[p % 128];
        assert FileByte(d, h, p) == SectorOf(d, h, p / 128)[p % 128];
        assert c[p] == Contents(d, h)[p];
      }
    }
  }

  class OpenFile {
    const disk: SynchDisk
    const hdr: FileHeader
    var seekPosition: int

    ghost predicate Valid()
      reads this, hdr, hdr.dataSectors
    {
      hdr.Valid() && WfHeader(hdr.Value())
    }

    constructor (disk: SynchDisk, sector: int)
      requires 0 <= sector < NUM_SECTORS
      ensures this.disk == disk && fresh(hdr) && hdr.Valid() && fresh(hdr.dataSectors) && seekPosition == 0
      ensures hdr.Value() == DecodeHeader(disk.sectors[sector])
    {
      hide DecodeHeader;
      var h := new FileHeader();
      h.FetchFrom(disk, sector);
      this.disk := disk;
      hdr := h;
      seekPosition := 0;
    }

    method Seek(position: int)
      modifies this
      ensures seekPosition == position
    {
      seekPosition := position;
    }

    method ReadAt(into: array<byte>, at: nat, numBytes: int, position: int) returns (n: int)
      requires Valid() && 0 <= position && position + numBytes < 0x8000_0000
      requires at + Transfer(numBytes, position, hdr.numBytes) <= into.Length
      modifies into
      ensures n == Transfer(numBytes, position, hdr.numBytes)
      ensures n > 0 ==> into[..] == Splice(old(into[..]), at, Contents(disk.sectors, hdr.Value())[position..position + n])
      ensures n == 0 ==> into[..] == old(into[..])
    {
      hide FileByte, Agrees, Loaded, DistinctSectors, Blocks;
      var fileLength := hdr.numBytes;
      if numBytes <= 0 || position >= fileLength {
        return 0;
      }
      n := numBytes;
      if position + n > fileLength {
        n := fileLength - position;
      }
      ReadRange(into, at, n, position);
    }

    method ReadRange(into: array<byte>, at: nat, n: nat, position: nat)
      requires Valid() && 0 < n && position + n <= hdr.numBytes && at + n <= into.Length
      modifies into
      ensures into[..] == Splice(old(into[..]), at, Contents(disk.sectors, hdr.Value())[position..position + n])
    {
      var firstSector := position / 128;
      var lastSector := (position + n - 1) / 128;
      var count := 1 + lastSector - firstSector;
      var buf := LoadBuffer(firstSector, count);
      LoadedRange(buf[..], disk.sectors, hdr.Value(), position, n);
      var skip := position - firstSector * 128;
      Copy(buf[skip..skip + n], into, at);
    }

    method LoadBuffer(firstSector: nat, count: nat) returns (buf: array<byte>)
      requires Valid() && firstSector + count <= hdr.numSectors
      ensures fresh(buf) && buf.Length == 128 * count
      ensures Loaded(buf[..], disk.sectors, hdr.Value(), firstSector, count)
    {
      buf := new byte[count * 128];
      ghost var h := hdr.Value();
      for i := 0 to count
        invariant Loaded(buf[..], disk.sectors, h, firstSector, i)
      {
        LoadOne(buf[..], disk.sectors, h, firstSector, i);
        var s := hdr.ByteToSector((firstSector + i) * 128);
        assert disk.sectors[s] == SectorOf(disk.sectors, h, firstSector + i);
        disk.ReadSector(s, buf, i * 128);
      }
    }

    method WriteAt(from: seq<byte>, numBytes: int, position: int) returns (n: int)
      requires Valid() && 0 <= position && position + numBytes < 0x8000_0000
      requires numBytes <= |from|
      modifies disk
      ensures n == Transfer(numBytes, position, hdr.numBytes)
      ensures WriteEffect(old(disk.sectors), hdr.Value(), from[..n], position, disk.sectors)
      ensures n == 0 ==> disk.sectors == old(disk.sectors)
    {
      hide FileByte, Agrees, Loaded, DistinctSectors, Blocks;
      var fileLength := hdr.numBytes;
      if numBytes <= 0 || position >= fileLength {
        return 0;
      }
      n := numBytes;
      if position + n > fileLength {
        n := fileLength - position;
      }
      var firstSector := position / 128;
      var lastSector := (position + n - 1) / 128;
      var count := 1 + lastSector - firstSector;

      ghost var h, d := hdr.Value(), disk.sectors;
      ghost var c := Splice(Contents(d, h), position, from[..n]);
      var buf := FillBuffer(from, n, position, firstSector, lastSector);
      FlushBuffer(buf, firstSector, lastSector);
      FlushedContents(d, disk.sectors, h, buf[..], firstSector, count, c);
    }

    /** The sector buffer of a write: the file's own bytes at a ragged first or
        last sector, and the caller's bytes over the range written. Bytes past
        end of file are whatever the fresh buffer held. */
    method FillBuffer(from: seq<byte>, n: nat, position: nat, firstSector: nat, lastSector: nat) returns (buf: array<byte>)
      requires Valid() && 0 < n <= |from| && position + n <= hdr.numBytes
      requires firstSector == position / 128 && lastSector == (position + n - 1) / 128
      ensures fresh(buf) && buf.Length == (1 + lastSector - firstSector) * 128
      ensures Agrees(buf[..], Splice(Contents(disk.sectors, hdr.Value()), position, from[..n]), firstSector)
    {
      buf := ReadEnds(n, position, firstSector, lastSector);
      var skip := position - firstSector * 128;
      RaggedFilled(buf[..], Contents(disk.sectors, hdr.Value()), from[..n], position, firstSector, skip);
      Copy(from[..n], buf, skip);
    }

    method ReadEnds(n: nat, position: nat, firstSector: nat, lastSector: nat) returns (buf: array<byte>)
      requires Valid() && 0 < n && position + n <= hdr.numBytes
      requires firstSector == position / 128 && lastSector == (position + n - 1) / 128
      ensures fresh(buf) && buf.Length == (1 + lastSector - firstSector) * 128
      ensures Ragged(buf[..], Contents(disk.sectors, hdr.Value()), position, n, firstSector)
    {
      hide FileByte, Ragged, ReadBack, Contents;
      buf := new byte[(1 + lastSector - firstSector) * 128];
      var firstAligned := position == firstSector * 128;
      var lastAligned := position + n == (lastSector + 1) * 128;
      ghost var c, buf0 := Contents(disk.sectors, hdr.Value()), buf[..];
      if !firstAligned {
        ReadBlock(buf, 0, firstSector);
      }
      ghost var buf1 := buf[..];
      if !lastAligned && (firstSector != lastSector || firstAligned) {
        ReadBlock(buf, (lastSector - firstSector) * 128, lastSector);
      }
      RaggedEnds(buf0, buf1, buf[..], c, position, n, firstSector, lastSector, firstAligned, lastAligned);
    }

    method ReadBlock(buf: array<byte>, at: nat, k: nat)
      requires Valid() && 128 * k < hdr.numBytes && at + 128 <= buf.Length
      modifies buf
      ensures buf[..] == ReadBack(old(buf[..]), at, Contents(disk.sectors, hdr.Value()), 128 * k)
    {
      var _ := ReadAt(buf, at, 128, k * 128);
    }

    method FlushBuffer(buf: array<byte>, firstSector: nat, lastSector: nat)
      requires Valid() && firstSector <= lastSector < hdr.numSectors
      requires buf.Length == (1 + lastSector - firstSector) * 128
      modifies disk
      ensures Loaded(buf[..], disk.sectors, hdr.Value(), firstSector, 1 + lastSector - firstSector)
      ensures forall k :: 0 <= k < hdr.numSectors && !(firstSector <= k <= lastSector) ==>
                SectorOf(disk.sectors, hdr.Value(), k) == SectorOf(old(disk.sectors), hdr.Value(), k)
      ensures forall s :: 0 <= s < NUM_SECTORS && s !in Blocks(hdr.Value()) ==> disk.sectors[s] == old(disk.sectors)[s]
    {
      ghost var h := hdr.Value();
      for i := firstSector to lastSector + 1
        invariant Loaded(buf[..], disk.sectors, h, firstSector, i - firstSector)
        invariant forall k :: 0 <= k < h.numSectors && !(firstSector <= k < i) ==>
                    SectorOf(disk.sectors, h, k) == SectorOf(old(disk.sectors), h, k)
        invariant forall s :: 0 <= s < NUM_SECTORS && s !in Blocks(h) ==> disk.sectors[s] == old(disk.sectors)[s]
      {
        ghost var before := disk.sectors;
        var s := hdr.ByteToSector(i * 128);
        disk.WriteSector(s, buf, (i - firstSector) * 128);
        StoreOne(buf[..], before, h, firstSector, i - firstSector, disk.sectors);
      }
    }

    method Read(into: array<byte>, numBytes: int) returns (n: int)
      requires Valid() && 0 <= seekPosition && seekPosition + numBytes < 0x8000_0000
      requires Transfer(numBytes, seekPosition, hdr.numBytes) <= into.Length
      modifies this, into
      ensures n == Transfer(numBytes, old(seekPosition), hdr.numBytes)
      ensures seekPosition == old(seekPosition) + n
      ensures n > 0 ==> into[..n] == Contents(disk.sectors, hdr.Value())[old(seekPosition)..old(seekPosition) + n]
      ensures into[n..] == old(into[..])[n..]
    {
      n := ReadAt(into, 0, numBytes, seekPosition);
      seekPosition := seekPosition + n;
    }

    method Write(from: seq<byte>, numBytes: int) returns (n: int)
      requires Valid() && 0 <= seekPosition && seekPosition + numBytes < 0x8000_0000
      requires numBytes <= |from|
      modifies this, disk
      ensures n == Transfer(numBytes, old(seekPosition), hdr.numBytes)
      ensures seekPosition == old(seekPosition) + n
      ensures WriteEffect(old(disk.sectors), hdr.Value(), from[..n], old(seekPosition), disk.sectors)
    {
      n := WriteAt(from, numBytes, seekPosition);
      seekPosition := seekPosition + n;
    }
  }
}
