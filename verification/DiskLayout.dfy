/** What the bytes of a disk image mean: file headers, directory entries, file
    names, and the contents of a file scattered over its data sectors. */
module DiskLayout {
  import opened Bytes

  const NUM_SECTORS: nat := 1024
  /** `divRoundUp(n, SectorSize)` */
  function SectorsFor(n: nat): nat {
    n / 128 + (if n % 128 > 0 then 1 else 0)
  }

  const NUM_DIRECT: nat := 30
  const MAX_FILE_SIZE: nat := 3840
  const FILE_NAME_MAX_LEN: nat := 9
  const ENTRY_SIZE: nat := 20
  const NUM_DIR_ENTRIES: nat := 10
  const DIRECTORY_FILE_SIZE: nat := 200
  const FREE_MAP_FILE_SIZE: nat := 128

  type Sector = s: seq<byte> | |s| == 128 witness seq(128, i => 0)
  type DiskImage = d: seq<Sector> | |d| == 1024 witness BLANK_DISK
  const BLANK_SECTOR: Sector := seq(128, i => 0)
  const BLANK_DISK: seq<Sector> := seq(1024, k => BLANK_SECTOR)

  // ---- file headers ----

  type SectorNumbers = p: seq<int32> | |p| == 30 witness seq(30, i => 0)

  datatype Header = Header(numBytes: int32, numSectors: int32, dataSectors: SectorNumbers)

  /** The 32 integers of a header fill a sector exactly. */
  function EncodeHeader(h: Header): Sector {
    Pack([h.numBytes, h.numSectors] + h.dataSectors, 4, EncodeInt)
  }

  /** The length, the number of sectors, and the sectors, four bytes each. */
  lemma HeaderLayout(h: Header, k: nat)
    requires k < 32
    ensures EncodeHeader(h)[4 * k..4 * k + 4] == EncodeInt(if k == 0 then h.numBytes else if k == 1 then h.numSectors else h.dataSectors[k - 2])
  {
    PackAt([h.numBytes, h.numSectors] + h.dataSectors, 4, EncodeInt, k);
  }

  function DecodeHeader(s: Sector): Header {
    var xs := Unpack(s, 4, 32, DecodeInt);
    Header(xs[0], xs[1], xs[2..])
  }

  lemma HeaderRoundTrip(h: Header)
    ensures DecodeHeader(EncodeHeader(h)) == h
  {
    forall x: int32 ensures DecodeInt(EncodeInt(x)) == x { IntRoundTrip(x); }
    PackRoundTrip([h.numBytes, h.numSectors] + h.dataSectors, 4, EncodeInt, DecodeInt);
  }

  /** A header whose block numbers cover its length and are distinct sectors. */
  ghost predicate WfHeader(h: Header) {
    && 0 <= h.numBytes <= MAX_FILE_SIZE
    && h.numSectors == SectorsFor(h.numBytes)
    && DistinctSectors(h.dataSectors[..h.numSectors])
  }

  ghost predicate DistinctSectors(s: seq<int32>) {
    && (forall k :: 0 <= k < |s| ==> 0 <= s[k] < NUM_SECTORS)
    && (forall j, k :: 0 <= j < k < |s| ==> s[j] != s[k])
  }

  ghost function Elements(s: seq<int32>): (r: set<int>)
    ensures forall x: int32 :: x in r <==> x in s
    ensures forall x :: x in r ==> -0x8000_0000 <= x < 0x8000_0000
  {
    set x | x in s :: x as int
  }

  lemma ElementsSnoc(s: seq<int32>, x: int32)
    ensures Elements(s + [x]) == Elements(s) + {x as int}
  {
    assert forall y :: y in s + [x] <==> y in s || y == x;
  }

  lemma {:induction false} ElementCount(s: seq<int32>)
    requires DistinctSectors(s)
    ensures |Elements(s)| == |s|
  {
    if s != [] {
      var t := s[..|s| - 1];
      assert s == t + [s[|s| - 1]];
      ElementCount(t);
      ElementsSnoc(t, s[|s| - 1]);
    }
  }

  ghost function Blocks(h: Header): (r: set<int>)
    requires WfHeader(h)
    ensures forall s :: s in r ==> 0 <= s < NUM_SECTORS
  {
    Elements(h.dataSectors[..h.numSectors])
  }

  /** Byte `p` of the file described by `h`. */
  function FileByte(d: DiskImage, h: Header, p: nat): byte
    requires WfHeader(h) && p < h.numBytes
  {
    assert h.dataSectors[p / 128] == h.dataSectors[..h.numSectors][p / 128];
    d[h.dataSectors[p / 128]][p % 128]
  }

  function Contents(d: DiskImage, h: Header): (c: seq<byte>)
    requires WfHeader(h)
    ensures |c| == h.numBytes
  {
    seq(h.numBytes, p requires 0 <= p < h.numBytes => FileByte(d, h, p))
  }

  lemma ContentsFrame(d: DiskImage, d': DiskImage, h: Header)
    requires WfHeader(h)
    requires forall s :: s in Blocks(h) ==> d[s] == d'[s]
    ensures Contents(d', h) == Contents(d, h)
  {
    forall p: nat | p < h.numBytes ensures FileByte(d', h, p) == FileByte(d, h, p) {
      assert h.dataSectors[p / 128] in h.dataSectors[..h.numSectors];
    }
  }

  // ---- names ----

  /** A C string held in `s`: it ends at the first NUL, or at the end of `s`. */
  function CharAt(s: seq<byte>, i: nat): byte {
    if i < |s| then s[i] else 0
  }

  /** The bytes `strncmp(_, _, n)` looks at from index `i` on. */
  function KeyFrom(s: seq<byte>, i: nat, n: nat): (k: seq<byte>)
    requires i <= n
    decreases n - i
  {
    if i == n || CharAt(s, i) == 0 then [] else [CharAt(s, i)] + KeyFrom(s, i + 1, n)
  }

  /** What identifies a file: the first nine characters of its name. */
  function Key(s: seq<byte>): seq<byte> {
    KeyFrom(s, 0, FILE_NAME_MAX_LEN)
  }

  /** `strncmp(a, b, n) == 0`, comparing from index `i` on. */
  predicate StrnEqual(a: seq<byte>, b: seq<byte>, i: nat, n: nat)
    requires i <= n
    decreases n - i
  {
    i == n || (CharAt(a, i) == CharAt(b, i) && (CharAt(a, i) == 0 || StrnEqual(a, b, i + 1, n)))
  }

  lemma {:induction false} StrnEqualIsSameKey(a: seq<byte>, b: seq<byte>, i: nat, n: nat)
    requires i <= n
    ensures StrnEqual(a, b, i, n) <==> KeyFrom(a, i, n) == KeyFrom(b, i, n)
    decreases n - i
  {
    if i < n {
      StrnEqualIsSameKey(a, b, i + 1, n);
      var ka, kb := KeyFrom(a, i, n), KeyFrom(b, i, n);
      if CharAt(a, i) != 0 && CharAt(b, i) != 0 {
        assert ka[1..] == KeyFrom(a, i + 1, n) && kb[1..] == KeyFrom(b, i + 1, n);
      }
    }
  }

  /** `strncpy(dst, src, n)`: copies up to the NUL and pads with NULs; bytes of `dst` from `n` on stay. */
  function Strncpy(dst: seq<byte>, src: seq<byte>, n: nat): (r: seq<byte>)
    requires n <= |dst|
    ensures |r| == |dst| && r[n..] == dst[n..]
  {
    var k := KeyFrom(src, 0, n);
    KeyLength(src, 0, n);
    k + seq(n - |k|, i => 0) + dst[n..]
  }

  lemma {:induction false} KeyLength(s: seq<byte>, i: nat, n: nat)
    requires i <= n
    ensures |KeyFrom(s, i, n)| <= n - i
    ensures forall j :: 0 <= j < |KeyFrom(s, i, n)| ==> KeyFrom(s, i, n)[j] != 0
    decreases n - i
  {
    if i < n { KeyLength(s, i + 1, n); }
  }

  lemma {:induction false} KeyOfPadded(s: seq<byte>, k: seq<byte>, i: nat, n: nat)
    requires i <= |k| <= n
    requires forall j :: 0 <= j < |k| ==> k[j] != 0 && CharAt(s, j) == k[j]
    requires |k| < n ==> CharAt(s, |k|) == 0
    ensures KeyFrom(s, i, n) == k[i..]
    decreases n - i
  {
    if i < |k| { KeyOfPadded(s, k, i + 1, n); }
  }

  /** A name read back from the table names the same file as the name stored. */
  lemma KeyOfStrncpy(dst: seq<byte>, src: seq<byte>)
    requires |dst| == 10
    ensures Key(Strncpy(dst, src, FILE_NAME_MAX_LEN)) == Key(src)
  {
    KeyLength(src, 0, FILE_NAME_MAX_LEN);
    KeyOfPadded(Strncpy(dst, src, FILE_NAME_MAX_LEN), Key(src), 0, FILE_NAME_MAX_LEN);
  }

  lemma {:induction false} KeyFromIs(s: seq<byte>, i: nat, n: nat)
    requires i <= n
    ensures var k := KeyFrom(s, i, n);
            && |k| <= n - i && (forall j :: 0 <= j < |k| ==> k[j] == CharAt(s, i + j) && k[j] != 0)
            && (i + |k| == n || CharAt(s, i + |k|) == 0) && (k == [] || i + |k| <= |s|)
    decreases n - i
  {
    if i < n && CharAt(s, i) != 0 {
      KeyFromIs(s, i + 1, n);
      var k, rest := KeyFrom(s, i, n), KeyFrom(s, i + 1, n);
      forall j | 0 <= j < |k| ensures k[j] == CharAt(s, i + j) && k[j] != 0 {
        if j > 0 {
          assert k[j] == rest[j - 1];
        }
      }
    }
  }

  /** The key is the name itself, cut at its first NUL or after nine characters. */
  lemma KeyIs(s: seq<byte>)
    ensures Key(s) <= s && |Key(s)| <= 9 && 0 !in Key(s)
    ensures |Key(s)| == 9 || |Key(s)| == |s| || s[|Key(s)|] == 0
    ensures |s| <= 9 && 0 !in s ==> Key(s) == s
    ensures |s| >= 9 && 0 !in s[..9] ==> Key(s) == s[..9]
  {
    hide KeyFrom;
    KeyFromIs(s, 0, FILE_NAME_MAX_LEN);
    var k := Key(s);
    assert forall j :: 0 <= j < |k| ==> k[j] == CharAt(s, j) && k[j] != 0;
    assert k == s[..|k|];
    if |s| >= 9 && |k| < 9 && s[|k|] == 0 {
      assert s[|k|] in s[..9];
    }
  }

  /** A difference among the first nine characters, with no NUL before it. */
  ghost predicate DifferAt(a: seq<byte>, b: seq<byte>, i: int) {
    0 <= i < 9 && CharAt(a, i) != CharAt(b, i) && forall j :: 0 <= j < i ==> CharAt(a, j) != 0
  }

  /** Exactly such names are the names of different files. */
  lemma KeysDiffer(a: seq<byte>, b: seq<byte>)
    ensures Key(a) != Key(b) <==> exists i :: DifferAt(a, b, i)
  {
    hide Key;
    KeyIs(a);
    KeyIs(b);
    var k := Key(a);
    if k != Key(b) {
      FirstDifference(a, b);
    } else {
      assert forall j :: 0 <= j < |k| ==> CharAt(a, j) == k[j] == CharAt(b, j) && k[j] in k;
      assert |k| < 9 ==> CharAt(a, |k|) == 0 == CharAt(b, |k|);
    }
  }

  lemma FirstDifference(a: seq<byte>, b: seq<byte>)
    requires Key(a) != Key(b)
    ensures exists i :: DifferAt(a, b, i)
  {
    hide Key;
    KeyIs(a);
    KeyIs(b);
    var k, l := Key(a), Key(b);
    var i := CommonPrefix(k, l);
    assert forall j :: 0 <= j < |k| ==> CharAt(a, j) == k[j] && k[j] in k;
    assert forall j :: 0 <= j < |l| ==> CharAt(b, j) == l[j] && l[j] in l;
    assert DifferAt(a, b, i);
  }

  lemma {:induction false} CommonPrefix(k: seq<byte>, l: seq<byte>) returns (i: nat)
    requires k != l
    ensures i <= |k| && i <= |l| && (i < |k| || i < |l|) && (i < |k| && i < |l| ==> k[i] != l[i]) && k[..i] == l[..i]
  {
    if k == [] || l == [] || k[0] != l[0] {
      i := 0;
    } else {
      assert k == [k[0]] + k[1..] && l == [l[0]] + l[1..];
      var r := CommonPrefix(k[1..], l[1..]);
      i := r + 1;
      assert k[..i] == [k[0]] + k[1..][..r] && l[..i] == [l[0]] + l[1..][..r];
    }
  }

  // ---- directory entries ----

  /** One entry of the table. `pad` holds the five bytes the compiler leaves
      between and after the fields; they travel to disk and back with the rest. */
  datatype DirectoryEntry' = DirectoryEntry(inUse: bool, sector: int32, name: seq<byte>, pad: seq<byte>)
  type DirectoryEntry = e: DirectoryEntry' | |e.name| == 10 && |e.pad| == 5
    witness DirectoryEntry(false, 0, seq(10, i => 0), seq(5, i => 0))

  function EncodeEntry(e: DirectoryEntry): (b: seq<byte>)
    ensures |b| == ENTRY_SIZE
  {
    [if e.inUse then 1 else 0] + e.pad[..3] + EncodeInt(e.sector) + e.name + e.pad[3..]
  }

  function DecodeEntry(b: seq<byte>): DirectoryEntry
    requires |b| == ENTRY_SIZE
  {
    DirectoryEntry(b[0] != 0, DecodeInt(b[4..8]), b[8..18], b[1..4] + b[18..])
  }

  lemma EntryRoundTrip(e: DirectoryEntry)
    ensures DecodeEntry(EncodeEntry(e)) == e
  {
    var b := EncodeEntry(e);
    assert b[4..8] == EncodeInt(e.sector);
    assert b[8..18] == e.name;
    assert b[1..4] == e.pad[..3] && b[18..] == e.pad[3..];
    IntRoundTrip(e.sector);
  }

  type Table = t: seq<DirectoryEntry> | |t| == 10
    witness BLANK_TABLE
  const BLANK_ENTRY: DirectoryEntry := DirectoryEntry(false, 0, seq(10, i => 0), seq(5, i => 0))
  const BLANK_TABLE: seq<DirectoryEntry> := seq(10, k => BLANK_ENTRY)

  function EncodeTable(t: Table): (b: seq<byte>)
    ensures |b| == DIRECTORY_FILE_SIZE
  {
    Pack(t, ENTRY_SIZE, EncodeEntry)
  }

  lemma EntryLayout(e: DirectoryEntry)
    ensures var b := EncodeEntry(e); (b[0] != 0 <==> e.inUse) && b[4..8] == EncodeInt(e.sector) && b[8..18] == e.name
  {
    hide EncodeInt;
  }

  lemma Within(b: seq<byte>, at: nat, e: seq<byte>)
    requires at + 20 <= |b| && |e| == 20 && b[at..at + 20] == e
    ensures b[at] == e[0] && b[at + 4..at + 8] == e[4..8] && b[at + 8..at + 18] == e[8..18]
  {
    forall j | 0 <= j < 20 ensures b[at + j] == e[j] {
      assert b[at..at + 20][j] == b[at + j];
    }
  }

  /** Twenty bytes an entry: whether it is in use, the sector from the fourth byte
      on, and the name from the eighth. */
  lemma TableLayout(t: Table, k: nat)
    requires k < 10
    ensures var b := EncodeTable(t);
            && (b[20 * k] != 0 <==> t[k].inUse)
            && b[20 * k + 4..20 * k + 8] == EncodeInt(t[k].sector) && b[20 * k + 8..20 * k + 18] == t[k].name
  {
    hide EncodeEntry, EncodeInt, Pack;
    PackAt(t, ENTRY_SIZE, EncodeEntry, k);
    EntryLayout(t[k]);
    Within(EncodeTable(t), 20 * k, EncodeEntry(t[k]));
  }

  function DecodeTable(b: seq<byte>): Table
    requires |b| == DIRECTORY_FILE_SIZE
  {
    Unpack(b, ENTRY_SIZE, NUM_DIR_ENTRIES, DecodeEntry)
  }

  lemma TableRoundTrip(t: Table)
    ensures DecodeTable(EncodeTable(t)) == t
  {
    forall e: DirectoryEntry ensures DecodeEntry(EncodeEntry(e)) == e { EntryRoundTrip(e); }
    PackRoundTrip(t, ENTRY_SIZE, EncodeEntry, DecodeEntry);
  }
}
