/** A volume: which sectors each file owns and what it contains, with the byte
    encodings of headers, table and free map abstracted away. */
module Volumes {
  import opened Bytes

  /** One slot of the directory. */
  datatype File = NoFile | File(key: seq<byte>, sector: int, blocks: set<int>, data: seq<byte>)

  ghost function Owned(f: File): set<int> {
    match f
    case NoFile => {}
    case File(_, sector, blocks, _) => {sector} + blocks
  }

  /** `taken` is the free map; `mapFile` and `dirFile` are the sectors of the two system files. */
  datatype Volume = Volume(taken: set<int>, mapFile: set<int>, dirFile: set<int>, files: seq<File>)

  ghost function System(v: Volume): set<int> {
    v.mapFile + v.dirFile
  }

  /** No sector has two owners. */
  ghost predicate Disjoint(v: Volume) {
    && v.mapFile !! v.dirFile
    && (forall i :: 0 <= i < |v.files| ==> Owned(v.files[i]) !! System(v))
    && (forall i, j :: 0 <= i < j < |v.files| ==> Owned(v.files[i]) !! Owned(v.files[j]))
    && (forall i :: 0 <= i < |v.files| && v.files[i].File? ==> v.files[i].sector !in v.files[i].blocks)
  }

  ghost predicate DistinctKeys(v: Volume) {
    forall i, j :: 0 <= i < j < |v.files| && v.files[i].File? && v.files[j].File? ==> v.files[i].key != v.files[j].key
  }

  ghost predicate HasOwner(v: Volume, s: int) {
    s in System(v) || exists i :: 0 <= i < |v.files| && s in Owned(v.files[i])
  }

  /** The invariant: the free map marks exactly the sectors that have an owner. */
  ghost predicate Consistent(v: Volume) {
    && Disjoint(v)
    && DistinctKeys(v)
    && (forall s :: s in v.taken <==> HasOwner(v, s))
  }

  /** Slot `i` lists `key`. */
  ghost predicate Lists(files: seq<File>, i: int, key: seq<byte>) {
    0 <= i < |files| && files[i].File? && files[i].key == key
  }

  ghost function Keys(files: seq<File>): (r: set<seq<byte>>)
    ensures forall k :: k in r <==> exists i :: Lists(files, i, k)
  {
    var r := set i | 0 <= i < |files| && files[i].File? :: files[i].key;
    assert forall k :: k in r ==> exists i :: Lists(files, i, k) by {
      forall k | k in r ensures exists i :: Lists(files, i, k) {
        var i :| 0 <= i < |files| && files[i].File? && files[i].key == k;
        assert Lists(files, i, k);
      }
    }
    r
  }

  ghost function IndexOf(files: seq<File>, key: seq<byte>): (i: int)
    requires key in Keys(files)
    ensures Lists(files, i, key)
  {
    var i :| Lists(files, i, key);
    i
  }

  /** What users see: the contents of each named file. */
  ghost function Catalog(v: Volume): (m: map<seq<byte>, seq<byte>>)
    ensures m.Keys == Keys(v.files)
  {
    map k | k in Keys(v.files) :: v.files[IndexOf(v.files, k)].data
  }

  lemma CatalogAt(v: Volume, i: int, key: seq<byte>)
    requires DistinctKeys(v) && Lists(v.files, i, key)
    ensures key in Catalog(v) && Catalog(v)[key] == v.files[i].data
  {
    assert key in Keys(v.files);
    assert IndexOf(v.files, key) == i;
  }

  lemma EmptyCatalog(v: Volume)
    requires forall i :: 0 <= i < |v.files| ==> v.files[i].NoFile?
    ensures Catalog(v) == map[]
  {
    assert Keys(v.files) == {};
  }

  /** Two volumes that differ in slot `i` only agree on every name the slot lists in neither. */
  lemma SameElsewhere(v: Volume, v': Volume, i: nat, k: seq<byte>)
    requires DistinctKeys(v) && DistinctKeys(v') && i < |v.files| == |v'.files|
    requires forall j :: 0 <= j < |v.files| && j != i ==> v'.files[j] == v.files[j]
    requires !Lists(v.files, i, k) && !Lists(v'.files, i, k)
    ensures k in Catalog(v') <==> k in Catalog(v)
    ensures k in Catalog(v) ==> Catalog(v')[k] == Catalog(v)[k]
  {
    if k in Catalog(v) {
      var j := IndexOf(v.files, k);
      assert Lists(v'.files, j, k);
      CatalogAt(v, j, k);
      CatalogAt(v', j, k);
    }
    if k in Catalog(v') {
      assert Lists(v.files, IndexOf(v'.files, k), k);
    }
  }

  /** The maps of two volumes that differ in slot `i` only, which lists `key` before, after or both. */
  lemma CatalogDiffers(v: Volume, v': Volume, i: nat, key: seq<byte>)
    requires DistinctKeys(v) && DistinctKeys(v') && i < |v.files| == |v'.files|
    requires forall j :: 0 <= j < |v.files| && j != i ==> v'.files[j] == v.files[j]
    requires v.files[i].File? ==> v.files[i].key == key
    requires v'.files[i].File? ==> v'.files[i].key == key
    requires v.files[i].NoFile? ==> key !in Catalog(v)
    ensures Catalog(v') == if v'.files[i].File? then Catalog(v)[key := v'.files[i].data] else Catalog(v) - {key}
  {
    hide Catalog, Keys, IndexOf;
    var m, m' := Catalog(v), Catalog(v');
    forall k | k != key ensures (k in m' <==> k in m) && (k in m ==> m'[k] == m[k]) {
      SameElsewhere(v, v', i, k);
    }
    if v'.files[i].File? {
      CatalogAt(v', i, key);
      assert m' == m[key := v'.files[i].data];
    } else {
      if key in m' {
        var j := IndexOf(v'.files, key);
        assert j != i && Lists(v.files, j, key);
        CatalogAt(v, j, key);
      }
      assert m' == m - {key};
    }
  }

  // ---- operations ----

  ghost function Added(v: Volume, slot: nat, f: File): Volume
    requires slot < |v.files|
  {
    v.(files := v.files[slot := f], taken := v.taken + Owned(f))
  }

  ghost function Dropped(v: Volume, i: nat): Volume
    requires i < |v.files|
  {
    v.(files := v.files[i := NoFile], taken := v.taken - Owned(v.files[i]))
  }

  ghost function Rewritten(v: Volume, i: nat, data: seq<byte>): Volume
    requires i < |v.files| && v.files[i].File?
  {
    v.(files := v.files[i := v.files[i].(data := data)])
  }

  lemma OwnedIsTaken(v: Volume)
    requires Consistent(v)
    ensures System(v) <= v.taken
    ensures forall i :: 0 <= i < |v.files| ==> Owned(v.files[i]) <= v.taken
  {
    forall s | s in System(v) ensures s in v.taken {
      assert HasOwner(v, s);
    }
    forall i, s | 0 <= i < |v.files| && s in Owned(v.files[i]) ensures s in v.taken {
      assert HasOwner(v, s);
    }
  }

  lemma AddedOwners(v: Volume, slot: nat, f: File)
    requires Consistent(v) && slot < |v.files| && v.files[slot].NoFile?
    requires f.File? && f.sector !in f.blocks && Owned(f) !! v.taken
    ensures Disjoint(Added(v, slot, f))
    ensures forall s :: s in Added(v, slot, f).taken <==> HasOwner(Added(v, slot, f), s)
  {
    var v' := Added(v, slot, f);
    OwnedIsTaken(v);
    forall s ensures s in v'.taken <==> HasOwner(v', s) {
      if s in v.taken && s !in System(v) {
        var i :| 0 <= i < |v.files| && s in Owned(v.files[i]);
        assert s in Owned(v'.files[i]);
      }
      if s in Owned(f) {
        assert s in Owned(v'.files[slot]);
      }
      if HasOwner(v', s) && s !in System(v') {
        var i :| 0 <= i < |v'.files| && s in Owned(v'.files[i]);
        assert i == slot || s in Owned(v.files[i]);
      }
    }
  }

  /** Adding a file made of unmarked sectors under a fresh name adds one entry. */
  lemma AddedConsistent(v: Volume, slot: nat, f: File)
    requires Consistent(v) && slot < |v.files| && v.files[slot].NoFile?
    requires f.File? && f.key !in Catalog(v)
    requires f.sector !in f.blocks && Owned(f) !! v.taken
    ensures Consistent(Added(v, slot, f))
    ensures Catalog(Added(v, slot, f)) == Catalog(v)[f.key := f.data]
  {
    var v' := Added(v, slot, f);
    AddedOwners(v, slot, f);
    forall i, j | 0 <= i < j < |v'.files| && v'.files[i].File? && v'.files[j].File?
      ensures v'.files[i].key != v'.files[j].key
    {
      assert i != slot ==> Lists(v.files, i, v.files[i].key);
      assert j != slot ==> Lists(v.files, j, v.files[j].key);
    }
    CatalogDiffers(v, v', slot, f.key);
  }

  lemma DroppedOwners(v: Volume, i: nat)
    requires Consistent(v) && i < |v.files| && v.files[i].File?
    ensures Disjoint(Dropped(v, i))
    ensures forall s :: s in Dropped(v, i).taken <==> HasOwner(Dropped(v, i), s)
  {
    var v' := Dropped(v, i);
    OwnedIsTaken(v);
    forall s ensures s in v'.taken <==> HasOwner(v', s) {
      if s in v'.taken && s !in System(v) {
        var j :| 0 <= j < |v.files| && s in Owned(v.files[j]);
        assert s in Owned(v'.files[j]);
      }
      if HasOwner(v', s) && s !in System(v) {
        var j :| 0 <= j < |v'.files| && s in Owned(v'.files[j]);
        assert s in Owned(v.files[j]);
        assert Owned(v.files[if i < j then i else j]) !! Owned(v.files[if i < j then j else i]);
      }
    }
  }

  /** Dropping a file frees its own sectors only and removes one entry. */
  lemma DroppedConsistent(v: Volume, i: nat)
    requires Consistent(v) && i < |v.files| && v.files[i].File?
    ensures Consistent(Dropped(v, i))
    ensures Catalog(Dropped(v, i)) == Catalog(v) - {v.files[i].key}
  {
    var v', key := Dropped(v, i), v.files[i].key;
    DroppedOwners(v, i);
    CatalogDiffers(v, v', i, key);
  }

  /** Rewriting one file changes that entry and no ownership. */
  lemma RewrittenConsistent(v: Volume, i: nat, data: seq<byte>)
    requires Consistent(v) && i < |v.files| && v.files[i].File?
    ensures Consistent(Rewritten(v, i, data))
    ensures Catalog(Rewritten(v, i, data)) == Catalog(v)[v.files[i].key := data]
  {
    var v', key := Rewritten(v, i, data), v.files[i].key;
    assert forall j :: 0 <= j < |v.files| ==> Owned(v'.files[j]) == Owned(v.files[j]);
    forall s ensures HasOwner(v', s) <==> HasOwner(v, s) {
      if HasOwner(v', s) && s !in System(v) {
        var j :| 0 <= j < |v'.files| && s in Owned(v'.files[j]);
        assert s in Owned(v.files[j]);
      }
      if HasOwner(v, s) && s !in System(v) {
        var j :| 0 <= j < |v.files| && s in Owned(v.files[j]);
        assert s in Owned(v'.files[j]);
      }
    }
    CatalogDiffers(v, v', i, key);
  }

  // ---- space ----

  /** A directory has a free slot exactly when it lists fewer names than it has slots. */
  lemma FreeSlot(v: Volume)
    requires DistinctKeys(v)
    ensures |Catalog(v)| <= |v.files|
    ensures |Catalog(v)| < |v.files| <==> exists i :: 0 <= i < |v.files| && v.files[i].NoFile?
  {
    KeyCount(v, |v.files|);
    assert v.files[..|v.files|] == v.files;
    assert |Catalog(v)| == |Catalog(v).Keys|;
  }

  lemma {:induction false} KeyCount(v: Volume, n: nat)
    requires DistinctKeys(v) && n <= |v.files|
    ensures |Keys(v.files[..n])| <= n
    ensures |Keys(v.files[..n])| < n <==> exists i :: 0 <= i < n && v.files[i].NoFile?
  {
    hide Keys;
    if n > 0 {
      KeyCount(v, n - 1);
      var f, before := v.files[n - 1], v.files[..n - 1];
      assert v.files[..n] == before + [f];
      KeysSnoc(before, f);
      if f.File? && f.key in Keys(before) {
        assert Lists(before, IndexOf(before, f.key), f.key);
      }
    } else {
      NoKeys();
      assert v.files[..0] == [];
    }
  }

  lemma NoKeys()
    ensures Keys([]) == {}
  {
  }

  lemma KeysSnoc(files: seq<File>, f: File)
    ensures Keys(files + [f]) == Keys(files) + (if f.File? then {f.key} else {})
  {
    hide Keys;
    var now := files + [f];
    forall k ensures k in Keys(now) <==> k in Keys(files) || (f.File? && k == f.key) {
      if k in Keys(now) {
        var i := IndexOf(now, k);
        assert i < |files| ==> Lists(files, i, k);
      }
      if k in Keys(files) {
        assert Lists(now, IndexOf(files, k), k);
      }
      if f.File? && k == f.key {
        assert Lists(now, |files|, k);
      }
    }
  }

  ghost function OwnedBelow(files: seq<File>, n: nat): set<int>
    requires n <= |files|
  {
    if n == 0 then {} else OwnedBelow(files, n - 1) + Owned(files[n - 1])
  }

  lemma {:induction false} OwnedBelowSize(files: seq<File>, n: nat, most: nat)
    requires n <= |files|
    requires forall i :: 0 <= i < n ==> |Owned(files[i])| <= most
    ensures |OwnedBelow(files, n)| <= n * most
    ensures forall i :: 0 <= i < n ==> Owned(files[i]) <= OwnedBelow(files, n)
  {
    if n > 0 {
      OwnedBelowSize(files, n - 1, most);
      UnionSize(OwnedBelow(files, n - 1), Owned(files[n - 1]));
      assert n * most == (n - 1) * most + most;
    }
  }

  lemma UnionSize<T>(a: set<T>, b: set<T>)
    ensures |a + b| <= |a| + |b|
  {
    assert a + b == a + (b - a);
  }

  lemma SubsetSize<T>(a: set<T>, b: set<T>)
    requires a <= b
    ensures |a| <= |b|
  {
    assert b == a + (b - a);
  }

  /** However the directory is filled, the free map marks no more sectors than
      the system files and the slots can own together. */
  lemma TakenSize(v: Volume, most: nat)
    requires Consistent(v)
    requires forall i :: 0 <= i < |v.files| ==> |Owned(v.files[i])| <= most
    ensures |v.taken| <= |v.mapFile| + |v.dirFile| + |v.files| * most
  {
    var n := |v.files|;
    OwnedBelowSize(v.files, n, most);
    UnionSize(v.mapFile, v.dirFile);
    UnionSize(System(v), OwnedBelow(v.files, n));
    forall s | s in v.taken ensures s in System(v) + OwnedBelow(v.files, n) {
      assert HasOwner(v, s);
    }
    SubsetSize(v.taken, System(v) + OwnedBelow(v.files, n));
  }
}
