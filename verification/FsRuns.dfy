/** Runs of the file system: any sequence of calls from a freshly formatted disk. */
module FsRuns {
  import opened Bytes
  import opened DiskLayout
  import opened OpenFiles
  import opened Volumes
  import opened FsState
  import opened Directories
  import opened FileSystems

  /** An open file: the name it was opened under and the header read then. */
  datatype Handle = Handle(key: seq<byte>, hdr: Header)

  datatype State = State(d: DiskImage, handles: map<nat, Handle>)

  datatype Call =
    | Create(name: seq<byte>, size: nat)
    | Open(name: seq<byte>, id: nat)
    | WriteAt(id: nat, from: seq<byte>, position: nat)
    | ReadAt(id: nat, position: nat, n: nat, got: seq<byte>)
    | Remove(name: seq<byte>)

  /** The header a handle kept in memory is still that of the file of its name. */
  ghost predicate Current(d: DiskImage, h: Handle)
    requires Inv(d)
  {
    exists i :: CurrentAt(d, h, i)
  }

  ghost predicate CurrentAt(d: DiskImage, h: Handle, i: int)
    requires Inv(d)
  {
    && 0 <= i < 10 && TableOf(d)[i].inUse && Key(TableOf(d)[i].name) == h.key
    && HeaderAt(d, TableOf(d)[i].sector) == h.hdr
  }

  ghost predicate Good(s: State) {
    Inv(s.d) && forall id :: id in s.handles ==> Current(s.d, s.handles[id])
  }

  ghost predicate Created(s: State, name: seq<byte>, size: nat, ok: bool, s': State)
    requires Inv(s.d)
  {
    && size <= 3840 && s'.handles == s.handles
    && (ok <==> Key(name) !in Files(s.d) && |Files(s.d)| < 10)
    && (ok ==> exists slot, sec, h :: CreateEffect(s.d, name, size, slot, sec, h, s'.d))
    && (!ok ==> s'.d == s.d)
  }

  ghost predicate Opened(s: State, name: seq<byte>, id: nat, ok: bool, s': State)
    requires Inv(s.d)
  {
    && s'.d == s.d
    && (ok <==> Key(name) in Files(s.d))
    && (ok ==> exists i :: OpenedAt(s, name, id, i, s'))
    && (!ok ==> s' == s)
  }

  ghost predicate Written(s: State, id: nat, from: seq<byte>, position: nat, s': State) {
    && id in s.handles && s'.handles == s.handles && WfHeader(s.handles[id].hdr)
    && var h := s.handles[id].hdr;
       WriteEffect(s.d, h, from[..Transfer(|from|, position, h.numBytes)], position, s'.d)
  }

  ghost predicate Fetched(s: State, id: nat, position: nat, n: nat, got: seq<byte>) {
    && id in s.handles && WfHeader(s.handles[id].hdr)
    && got == Range(DiskLayout.Contents(s.d, s.handles[id].hdr), position, n)
  }

  /** The bytes of `c` that a read of `n` at `position` returns. */
  ghost function Range(c: seq<byte>, position: nat, n: nat): seq<byte> {
    var k := Transfer(n, position, |c|);
    if k == 0 then [] else c[position..position + k]
  }

  ghost predicate Removed(s: State, name: seq<byte>, ok: bool, s': State)
    requires Inv(s.d)
  {
    && (ok <==> Key(name) in Files(s.d))
    && (ok ==> exists i: nat :: RemoveEffect(s.d, name, i, s'.d))
    && (!ok ==> s'.d == s.d)
    && s'.handles == map id | id in s.handles && (ok ==> s.handles[id].key != Key(name)) :: s.handles[id]
  }

  /** What one call does to the disk, as the contracts of `FileSystem` and
      `OpenFile` state it, and to the handles. A handle dies with its file. */
  ghost predicate Step(s: State, c: Call, ok: bool, s': State)
    requires Inv(s.d)
  {
    match c
    case Create(name, size) => Created(s, name, size, ok, s')
    case Open(name, id) => Opened(s, name, id, ok, s')
    case WriteAt(id, from, position) => Written(s, id, from, position, s')
    case ReadAt(id, position, n, got) => s' == s && Fetched(s, id, position, n, got)
    case Remove(name) => Removed(s, name, ok, s')
  }

  ghost predicate OpenedAt(s: State, name: seq<byte>, id: nat, i: int, s': State)
    requires Inv(s.d)
  {
    && ListedAt(TableOf(s.d), i, name)
    && s'.handles == s.handles[id := Handle(Key(name), HeaderAt(s.d, TableOf(s.d)[i].sector))]
  }

  type Catalogue = map<seq<byte>, seq<byte>>

  /** The simple thing: a map from names to fixed-length byte strings. */
  ghost predicate Spec(m: Catalogue, keys: map<nat, seq<byte>>, c: Call, ok: bool, m': Catalogue) {
    match c
    case Create(name, size) =>
      && (ok <==> Key(name) !in m && |m| < 10)
      && (if ok then exists data :: |data| == size && m' == m[Key(name) := data] else m' == m)
    case Open(name, id) =>
      m' == m && (ok <==> Key(name) in m)
    case WriteAt(id, from, position) =>
      && id in keys && keys[id] in m
      && var was := m[keys[id]];
         var k := Transfer(|from|, position, |was|);
         m' == m[keys[id] := if k == 0 then was else Splice(was, position, from[..k])]
    case ReadAt(id, position, n, got) =>
      m' == m && id in keys && keys[id] in m && got == Range(m[keys[id]], position, n)
    case Remove(name) =>
      (ok <==> Key(name) in m) && m' == m - {Key(name)}
  }

  ghost function HandleKeys(s: State): map<nat, seq<byte>> {
    map id | id in s.handles :: s.handles[id].key
  }

  lemma CurrentFile(d: DiskImage, h: Handle, i: int)
    requires Inv(d) && CurrentAt(d, h, i)
    ensures WfHeader(h.hdr) && h.key in Files(d) && Files(d)[h.key] == DiskLayout.Contents(d, h.hdr)
  {
    hide DecodeHeader, WfHeader, MapBits, DecodeTable, Contents, Key, Blocks, Catalog, Consistent;
    var v := VolumeOf(d);
    assert DistinctKeys(v) by { assert Consistent(v) by { assert Inv(d); } ConsistentKeys(v); }
    CatalogAt(v, i, h.key);
  }

  lemma ConsistentKeys(v: Volume)
    requires Consistent(v)
    ensures DistinctKeys(v)
  {
  }

  lemma CreateKeeps(d: DiskImage, name: seq<byte>, size: nat, slot: nat, sec: int, h: Header, d': DiskImage, f: Handle)
    requires Inv(d) && Inv(d') && CreateEffect(d, name, size, slot, sec, h, d') && Current(d, f)
    ensures Current(d', f)
  {
    hide DecodeHeader, WfHeader, MapBits, DecodeTable, Contents, Key, Blocks, Catalog, Consistent;
    var i :| CurrentAt(d, f, i);
    CreateVolume(d, name, size, slot, sec, h, d');
    assert CurrentAt(d', f, i);
  }

  lemma RemoveKeeps(d: DiskImage, name: seq<byte>, i: nat, d': DiskImage, f: Handle)
    requires Inv(d) && Inv(d') && RemoveEffect(d, name, i, d') && Current(d, f) && f.key != Key(name)
    ensures Current(d', f)
  {
    hide DecodeHeader, WfHeader, MapBits, DecodeTable, Contents, Key, Blocks, Catalog, Consistent;
    var j :| CurrentAt(d, f, j);
    RemoveVolume(d, name, i, d');
    assert CurrentAt(d', f, j);
  }

  lemma WriteKeeps(d: DiskImage, i: nat, from: seq<byte>, position: nat, d': DiskImage, f: Handle)
    requires Inv(d) && Inv(d') && i < 10 && TableOf(d)[i].inUse && Current(d, f)
    requires WriteEffect(d, HeaderAt(d, TableOf(d)[i].sector), from, position, d')
    ensures Current(d', f)
  {
    hide DecodeHeader, WfHeader, MapBits, DecodeTable, Contents, Key, Blocks, Catalog, Consistent;
    var j :| CurrentAt(d, f, j);
    WriteVolume(d, i, from, position, d');
    assert CurrentAt(d', f, j);
  }

  /** One call keeps the invariant and every handle, and is the call's meaning on the map. */
  lemma StepRefines(s: State, c: Call, ok: bool, s': State)
    requires Good(s) && Step(s, c, ok, s')
    ensures Good(s') && Spec(Files(s.d), HandleKeys(s), c, ok, Files(s'.d))
  {
    hide Inv, Files, CreateEffect, RemoveEffect, WriteEffect, TableOf, HeaderAt, Key, WfHeader, Contents, Current, CurrentAt, ListedAt;
    match c
    case Create(name, size) =>
      CreateCall(s, name, size, ok, s');
    case Open(name, id) =>
      OpenKeeps(s, name, id, ok, s');
    case WriteAt(id, from, position) =>
      WriteCall(s, id, from, position, s');
    case ReadAt(id, position, n, got) =>
      var _ := HandleFile(s, id);
    case Remove(name) =>
      RemoveCall(s, name, ok, s');
  }

  lemma CreateCall(s: State, name: seq<byte>, size: nat, ok: bool, s': State)
    requires Good(s) && Created(s, name, size, ok, s')
    ensures Good(s') && Spec(Files(s.d), HandleKeys(s), Create(name, size), ok, Files(s'.d))
  {
    hide DecodeHeader, WfHeader, MapBits, DecodeTable, Contents, Key, Blocks, Catalog, Consistent, FileOf, FilesOf, Files, CreateEffect, CurrentAt;
    if ok {
      var slot, sec, h :| CreateEffect(s.d, name, size, slot, sec, h, s'.d);
      CreateRefines(s.d, name, size, slot, sec, h, s'.d);
      forall id | id in s'.handles ensures Current(s'.d, s'.handles[id]) {
        CreateKeeps(s.d, name, size, slot, sec, h, s'.d, s.handles[id]);
      }
    }
  }

  lemma RemoveCall(s: State, name: seq<byte>, ok: bool, s': State)
    requires Good(s) && Removed(s, name, ok, s')
    ensures Good(s') && Files(s'.d) == Files(s.d) - {Key(name)}
  {
    hide DecodeHeader, WfHeader, MapBits, DecodeTable, Contents, Key, Blocks, Catalog, Consistent, FileOf, FilesOf, Files, RemoveEffect, CurrentAt;
    if ok {
      var i: nat :| RemoveEffect(s.d, name, i, s'.d);
      RemoveRefines(s.d, name, i, s'.d);
      forall id | id in s'.handles ensures Current(s'.d, s'.handles[id]) {
        RemoveKeeps(s.d, name, i, s'.d, s.handles[id]);
      }
    }
  }

  lemma OpenKeeps(s: State, name: seq<byte>, id: nat, ok: bool, s': State)
    requires Good(s) && Opened(s, name, id, ok, s')
    ensures Good(s')
  {
    hide DecodeHeader, WfHeader, MapBits, DecodeTable, Contents, Key, Blocks, Catalog, Consistent, FileOf, FilesOf;
    if ok {
      var i :| OpenedAt(s, name, id, i, s');
      assert CurrentAt(s'.d, s'.handles[id], i);
    }
  }

  lemma HandleFile(s: State, id: nat) returns (i: int)
    requires Good(s) && id in s.handles
    ensures CurrentAt(s.d, s.handles[id], i) && WfHeader(s.handles[id].hdr)
    ensures s.handles[id].key in Files(s.d) && Files(s.d)[s.handles[id].key] == DiskLayout.Contents(s.d, s.handles[id].hdr)
  {
    hide DecodeHeader, WfHeader, MapBits, DecodeTable, Contents, Key, Blocks, Catalog, Consistent, FileOf, FilesOf;
    i :| CurrentAt(s.d, s.handles[id], i);
    CurrentFile(s.d, s.handles[id], i);
  }

  lemma WriteCall(s: State, id: nat, from: seq<byte>, position: nat, s': State)
    requires Good(s) && Written(s, id, from, position, s')
    ensures Good(s') && Spec(Files(s.d), HandleKeys(s), WriteAt(id, from, position), true, Files(s'.d))
  {
    hide DecodeHeader, WfHeader, MapBits, DecodeTable, Contents, Key, Blocks, Catalog, Consistent, FileOf, FilesOf, WriteEffect, Files;
    var i := HandleFile(s, id);
    var h := s.handles[id];
    var part := from[..Transfer(|from|, position, h.hdr.numBytes)];
    WriteRefines(s.d, i, part, position, s'.d);
    forall k | k in s'.handles ensures Current(s'.d, s'.handles[k]) {
      WriteKeeps(s.d, i, part, position, s'.d, s.handles[k]);
    }
  }

  /** A run: states joined by calls, starting from a formatted disk with nothing open. */
  ghost predicate Run(states: seq<State>, calls: seq<Call>, oks: seq<bool>) {
    && |states| == |calls| + 1 && |oks| == |calls|
    && Good(states[0]) && states[0].handles == map[] && Files(states[0].d) == map[]
    && forall k :: 0 <= k < |calls| ==> Inv(states[k].d) ==> Step(states[k], calls[k], oks[k], states[k + 1])
  }

  /** Over every run the file system is the map: the invariant holds in every
      state, every handle stays current, and every call does what it does to the map. */
  lemma {:induction false} RunRefines(states: seq<State>, calls: seq<Call>, oks: seq<bool>, k: nat)
    requires Run(states, calls, oks) && k <= |calls|
    ensures Good(states[k])
    ensures k < |calls| ==> Good(states[k + 1])
    ensures k < |calls| ==> Spec(Files(states[k].d), HandleKeys(states[k]), calls[k], oks[k], Files(states[k + 1].d))
  {
    hide Inv, Files, Step, Spec, Current;
    if k > 0 {
      RunRefines(states, calls, oks, k - 1);
    }
    if k < |calls| {
      StepRefines(states[k], calls[k], oks[k], states[k + 1]);
    }
  }

  /** Names that differ among their first nine characters are different files:
      after both are created both are there, and neither call touched the other's
      file. */
  lemma TwoNames(s: State, a: seq<byte>, sizeA: nat, s1: State, b: seq<byte>, sizeB: nat, ok: bool, s2: State, i: int)
    requires Good(s) && Step(s, Create(a, sizeA), true, s1)
    requires Inv(s1.d) && Step(s1, Create(b, sizeB), ok, s2) && DifferAt(a, b, i)
    ensures Good(s1) && Good(s2) && (ok <==> Key(b) !in Files(s.d) && |Files(s.d)| < 9)
    ensures Key(a) in Files(s2.d) && |Files(s2.d)[Key(a)]| == sizeA && (ok ==> Key(b) in Files(s2.d) && |Files(s2.d)[Key(b)]| == sizeB)
    ensures ok && |a| <= 9 && 0 !in a && |b| <= 9 && 0 !in b ==> a in Files(s2.d) && b in Files(s2.d) && a != b
  {
    hide Inv, Files, Key, Step, Current, Spec;
    StepRefines(s, Create(a, sizeA), true, s1);
    StepRefines(s1, Create(b, sizeB), ok, s2);
    TwoEntries(Files(s.d), HandleKeys(s), a, sizeA, Files(s1.d), HandleKeys(s1), b, sizeB, ok, Files(s2.d), i);
  }

  lemma TwoEntries(m: Catalogue, keys: map<nat, seq<byte>>, a: seq<byte>, sizeA: nat, m1: Catalogue,
                   keys1: map<nat, seq<byte>>, b: seq<byte>, sizeB: nat, ok: bool, m2: Catalogue, i: int)
    requires Spec(m, keys, Create(a, sizeA), true, m1) && Spec(m1, keys1, Create(b, sizeB), ok, m2) && DifferAt(a, b, i)
    ensures ok <==> Key(b) !in m && |m| < 9
    ensures Key(a) in m2 && |m2[Key(a)]| == sizeA && (ok ==> Key(b) in m2 && |m2[Key(b)]| == sizeB)
    ensures ok && |a| <= 9 && 0 !in a && |b| <= 9 && 0 !in b ==> a in m2 && b in m2 && a != b
  {
    hide Key, Spec;
    KeysDiffer(a, b);
    KeyIs(a);
    KeyIs(b);
    CreateAdds(m, keys, a, sizeA, true, m1);
    CreateAdds(m1, keys1, b, sizeB, ok, m2);
  }

  lemma CreateAdds(m: Catalogue, keys: map<nat, seq<byte>>, name: seq<byte>, size: nat, ok: bool, m': Catalogue)
    requires Spec(m, keys, Create(name, size), ok, m')
    ensures ok <==> Key(name) !in m && |m| < 10
    ensures if ok then Key(name) in m' && |m'[Key(name)]| == size && m' == m[Key(name) := m'[Key(name)]] && |m'| == |m| + 1 else m' == m
  {
    hide Key;
    if ok {
      assert m' - {Key(name)} == m;
    }
  }

  /** What a read after a write returns, byte by byte: the bytes written where
      the two overlap within the file, and otherwise those there before. */
  lemma ReadAfterWrite(s: State, id: nat, from: seq<byte>, position: nat, s1: State, p: nat, n: nat, got: seq<byte>)
    requires Good(s) && Step(s, WriteAt(id, from, position), true, s1)
    requires Inv(s1.d) && Step(s1, ReadAt(id, p, n, got), true, s1)
    ensures id in s.handles && s.handles[id].key in Files(s.d)
    ensures var c := Files(s.d)[s.handles[id].key];
            && |got| == (if p >= |c| then 0 else if n <= |c| - p then n else |c| - p)
            && forall i :: 0 <= i < |got| ==> got[i] == if position <= p + i < position + |from| then from[p + i - position] else c[p + i]
  {
    hide Inv, Files, Step, Current;
    StepRefines(s, WriteAt(id, from, position), true, s1);
    StepRefines(s1, ReadAt(id, p, n, got), true, s1);
    SameHandles(s, id, from, position, s1);
    var c := Files(s.d)[s.handles[id].key];
    SpliceThenRange(c, from, position, p, n);
  }

  lemma SameHandles(s: State, id: nat, from: seq<byte>, position: nat, s1: State)
    requires Inv(s.d) && Step(s, WriteAt(id, from, position), true, s1)
    ensures id in s.handles && s1.handles == s.handles
  {
    hide Inv, WfHeader, WriteEffect;
  }

  lemma SpliceThenRange(c: seq<byte>, from: seq<byte>, position: nat, p: nat, n: nat)
    ensures var k := Transfer(|from|, position, |c|);
            var got := Range(if k == 0 then c else Splice(c, position, from[..k]), p, n);
            && |got| == (if p >= |c| then 0 else if n <= |c| - p then n else |c| - p)
            && forall i :: 0 <= i < |got| ==> got[i] == if position <= p + i < position + |from| then from[p + i - position] else c[p + i]
  {
  }

  /** The file listed at entry `i` owns sector `s`, as its header or as data. */
  ghost predicate Owns(d: DiskImage, i: int, s: int)
    requires Mounted(d)
  {
    0 <= i < 10 && TableOf(d)[i].inUse && s in Footprint(d, TableOf(d)[i].sector)
  }

  /** The map on the disk marks `s` exactly if it belongs to one of the system
      files or of the listed files, and then it belongs to only one of them. */
  ghost predicate Accounted(d: DiskImage, s: int)
    requires Mounted(d)
  {
    var inMap, inDirectory := s in Footprint(d, FREE_MAP_SECTOR), s in Footprint(d, DIRECTORY_SECTOR);
    && (s in FreeMap(d) <==> inMap || inDirectory || exists i :: Owns(d, i, s))
    && !(inMap && inDirectory)
    && (forall i :: Owns(d, i, s) ==> !inMap && !inDirectory)
    && (forall i, j :: Owns(d, i, s) && Owns(d, j, s) ==> i == j)
  }

  lemma ExactMap(d: DiskImage, s: int)
    requires Inv(d)
    ensures Accounted(d, s)
  {
    hide DecodeHeader, WfHeader, MapBits, DecodeTable, Contents, Key, Blocks;
    var v := VolumeOf(d);
    assert forall i :: 0 <= i < 10 ==> (s in Owned(v.files[i]) <==> Owns(d, i, s));
    assert s in v.taken <==> HasOwner(v, s);
    assert HasOwner(v, s) ==> s in System(v) || exists i :: Owns(d, i, s);
  }

  /** So it is in every state of every run. */
  lemma SectorsAccountedFor(states: seq<State>, calls: seq<Call>, oks: seq<bool>, k: nat, s: int)
    requires Run(states, calls, oks) && k <= |calls|
    ensures Inv(states[k].d) && Accounted(states[k].d, s)
  {
    hide Inv, Files, Step, Spec, Current, Accounted;
    RunRefines(states, calls, oks, k);
    ExactMap(states[k].d, s);
  }

  /** Creating a file and removing it again gives every sector back. */
  lemma CreateThenRemove(d: DiskImage, d1: DiskImage, d2: DiskImage, name: seq<byte>, size: nat, slot: nat, sec: int, h: Header, i: nat)
    requires Inv(d) && Key(name) !in Files(d) && CreateEffect(d, name, size, slot, sec, h, d1)
    requires Mounted(d1) && RemoveEffect(d1, name, i, d2)
    ensures Inv(d2) && FreeMap(d2) == FreeMap(d) && Files(d2) == Files(d)
  {
    hide DecodeHeader, WfHeader, MapBits, DecodeTable, Contents, Key, Blocks, Catalog, Consistent, FileOf, CreateEffect, RemoveEffect;
    CreateUnmarked(d, name, size, slot, sec, h, d1);
    CreateRefines(d, name, size, slot, sec, h, d1);
    CreateVolume(d, name, size, slot, sec, h, d1);
    RemoveRefines(d1, name, i, d2);
    RemoveVolume(d1, name, i, d2);
    var f := File(Key(name), sec, Blocks(h), DiskLayout.Contents(d1, h));
    AddThenDrop(VolumeOf(d), slot, f, i);
    assert VolumeOf(d2).taken == FreeMap(d2) && VolumeOf(d).taken == FreeMap(d);
    assert Files(d2) == Files(d);
  }

  lemma CreateUnmarked(d: DiskImage, name: seq<byte>, size: nat, slot: nat, sec: int, h: Header, d1: DiskImage)
    requires Mounted(d) && CreateEffect(d, name, size, slot, sec, h, d1)
    ensures slot < 10 && sec !in FreeMap(d) && WfHeader(h) && Blocks(h) !! FreeMap(d)
  {
    hide WfHeader, Blocks, FreeMap;
  }

  lemma AddThenDrop(v: Volume, slot: nat, f: File, i: nat)
    requires slot < |v.files| && i < |v.files| && f.File?
    requires Consistent(Added(v, slot, f)) && Added(v, slot, f).files[i].File? && Added(v, slot, f).files[i].key == f.key
    ensures i == slot
    ensures Owned(f) !! v.taken ==> Dropped(Added(v, slot, f), i).taken == v.taken
  {
    assert Added(v, slot, f).files[slot] == f;
  }

  // ---- the calls themselves ----

  /** Each method below makes one call and does a `Step`. */
  method CallCreate(fs: FileSystem, name: seq<byte>, size: nat, ghost handles: map<nat, Handle>) returns (ok: bool)
    requires fs.Valid() && size <= 3840
    modifies fs.disk
    ensures fs.Valid() && Step(State(old(fs.disk.sectors), handles), Create(name, size), ok, State(fs.disk.sectors, handles))
  {
    hide Inv, Files, CreateEffect;
    ok := fs.Create(name, size);
  }

  method CallRemove(fs: FileSystem, name: seq<byte>, ghost handles: map<nat, Handle>) returns (ok: bool, ghost left: map<nat, Handle>)
    requires fs.Valid()
    modifies fs.disk
    ensures fs.Valid() && Step(State(old(fs.disk.sectors), handles), Remove(name), ok, State(fs.disk.sectors, left))
  {
    hide Inv, Files, RemoveEffect, HeaderAt, Key;
    ghost var d := fs.disk.sectors;
    ok := fs.Remove(name);
    left := map id | id in handles && (ok ==> handles[id].key != Key(name)) :: handles[id];
    assert Removed(State(d, handles), name, ok, State(fs.disk.sectors, left));
  }

  method CallOpen(fs: FileSystem, name: seq<byte>, id: nat, ghost handles: map<nat, Handle>)
    returns (file: OpenFile?, ghost now: map<nat, Handle>)
    requires fs.Valid()
    ensures Step(State(fs.disk.sectors, handles), Open(name, id), file != null, State(fs.disk.sectors, now))
    ensures file != null ==> OpenOn(fs, file, id, now)
  {
    hide Files, HeaderAt, WfHeader, TableOf, Key, OpenedAt, ListedAt;
    file := fs.Open(name);
    now := handles;
    if file != null {
      ghost var i :| ListedAt(TableOf(fs.disk.sectors), i, name) && fs.Handle(file, i);
      now := handles[id := Handle(Key(name), file.hdr.Value())];
      OpensAt(State(fs.disk.sectors, handles), name, id, i, file.hdr.Value(), State(fs.disk.sectors, now));
    }
  }

  lemma OpensAt(s: State, name: seq<byte>, id: nat, i: int, h: Header, s': State)
    requires Inv(s.d) && ListedAt(TableOf(s.d), i, name) && 0 <= i < 10 && TableOf(s.d)[i].inUse
    requires h == HeaderAt(s.d, TableOf(s.d)[i].sector) && s'.handles == s.handles[id := Handle(Key(name), h)]
    ensures OpenedAt(s, name, id, i, s')
  {
    hide HeaderAt, WfHeader, TableOf, Key, ListedAt, Inv;
  }

  /** `file` is the open file that handle `id` stands for. */
  ghost predicate OpenOn(fs: FileSystem, file: OpenFile, id: nat, handles: map<nat, Handle>)
    reads file, file.hdr, file.hdr.dataSectors
  {
    && file.disk == fs.disk && file.hdr.Valid()
    && id in handles && handles[id].hdr == file.hdr.Value()
  }

  method CallWriteAt(fs: FileSystem, file: OpenFile, from: seq<byte>, position: nat, ghost id: nat, ghost handles: map<nat, Handle>)
    requires fs.Valid() && OpenOn(fs, file, id, handles) && Good(State(fs.disk.sectors, handles))
    requires position + |from| < 0x8000_0000
    modifies fs.disk
    ensures Step(State(old(fs.disk.sectors), handles), WriteAt(id, from, position), true, State(fs.disk.sectors, handles))
    ensures fs.Valid()
  {
    hide Inv, Good, WriteEffect, WfHeader, HeaderAt, Written, Step;
    ghost var s := State(fs.disk.sectors, handles);
    HandleSound(s, id);
    var n := file.WriteAt(from, |from|, position);
    ghost var s' := State(fs.disk.sectors, handles);
    WriteIsStep(s, id, from, position, s');
    WriteCall(s, id, from, position, s');
    SystemHeadersStay(s, id, from, position, s');
    GoodInv(s');
  }

  lemma HandleSound(s: State, id: nat)
    requires Good(s) && id in s.handles
    ensures WfHeader(s.handles[id].hdr)
  {
    hide Good, WfHeader;
    var i := HandleFile(s, id);
  }

  lemma WriteIsStep(s: State, id: nat, from: seq<byte>, position: nat, s': State)
    requires Inv(s.d) && id in s.handles && s'.handles == s.handles && WfHeader(s.handles[id].hdr)
    requires var h := s.handles[id].hdr; WriteEffect(s.d, h, from[..Transfer(|from|, position, h.numBytes)], position, s'.d)
    ensures Written(s, id, from, position, s') && Step(s, WriteAt(id, from, position), true, s')
  {
    hide Inv, WfHeader, WriteEffect;
  }

  lemma SpliceFront(base: seq<byte>, patch: seq<byte>)
    requires |patch| <= |base|
    ensures Splice(base, 0, patch)[..|patch|] == patch
  {
  }

  lemma ReadIsStep(s: State, id: nat, position: nat, n: nat, got: seq<byte>)
    requires Inv(s.d) && id in s.handles && WfHeader(s.handles[id].hdr)
    requires got == Range(DiskLayout.Contents(s.d, s.handles[id].hdr), position, n)
    ensures Step(s, ReadAt(id, position, n, got), true, s)
  {
    hide Inv, WfHeader, Contents;
  }

  lemma GoodInv(s: State)
    requires Good(s)
    ensures Inv(s.d)
  {
  }

  /** No user file's blocks include the header sectors of the system files. */
  lemma SystemHeadersStay(s: State, id: nat, from: seq<byte>, position: nat, s': State)
    requires Good(s) && Written(s, id, from, position, s')
    ensures HeaderAt(s'.d, FREE_MAP_SECTOR) == HeaderAt(s.d, FREE_MAP_SECTOR)
    ensures HeaderAt(s'.d, DIRECTORY_SECTOR) == HeaderAt(s.d, DIRECTORY_SECTOR)
  {
    hide DecodeHeader, WfHeader, MapBits, DecodeTable, Contents, Key, Blocks, Catalog, FilesOf;
    var i := HandleFile(s, id);
    var v := VolumeOf(s.d);
    assert Owned(v.files[i]) == Footprint(s.d, TableOf(s.d)[i].sector);
    assert FREE_MAP_SECTOR in System(v) && DIRECTORY_SECTOR in System(v);
  }

  method CallReadAt(fs: FileSystem, file: OpenFile, position: nat, n: nat, ghost id: nat, ghost handles: map<nat, Handle>)
    returns (got: seq<byte>)
    requires fs.Valid() && OpenOn(fs, file, id, handles) && Good(State(fs.disk.sectors, handles))
    requires position + n < 0x8000_0000
    ensures var s := State(fs.disk.sectors, handles);
            Step(s, ReadAt(id, position, n, got), true, s)
  {
    hide Inv, Good, WfHeader, HeaderAt, Step, Contents, Splice;
    ghost var s := State(fs.disk.sectors, handles);
    HandleSound(s, id);
    GoodInv(s);
    var into := new byte[n];
    ghost var was, c := into[..], DiskLayout.Contents(s.d, file.hdr.Value());
    var k := file.ReadAt(into, 0, n, position);
    got := into[..k];
    if k > 0 {
      SpliceFront(was, c[position..position + k]);
      assert got == into[..][..k];
    }
    ReadIsStep(s, id, position, n, got);
  }
}
