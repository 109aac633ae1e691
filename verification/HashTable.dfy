/** A hash table that grows by rehashing, and its iterator. */
module HashTables {
  import opened Common
  import opened Lists

  type Key(==, !new)
  type Item(==, !new)

  /** The two functions that a table is made with: any functions at all. */
  datatype Functions = Functions(getKey: Item -> Key, hash: Key -> nat)

  type Buckets = seq<seq<Item>>

  function Slot(f: Functions, key: Key, numBuckets: int): (s: nat)
    requires numBuckets > 0
    ensures s < numBuckets
  {
    f.hash(key) % numBuckets
  }

  /** Every item is in the bucket of its key, and the map has it under that key. */
  ghost predicate Filed(f: Functions, b: Buckets, m: map<Key, Item>) {
    && |b| > 0
    && forall i, x :: 0 <= i < |b| && x in b[i] ==>
         Slot(f, f.getKey(x), |b|) == i && f.getKey(x) in m && m[f.getKey(x)] == x
  }

  /** Everything in the map can be found, once. */
  ghost predicate Findable(f: Functions, b: Buckets, m: map<Key, Item>) {
    && |b| > 0
    && (forall k :: k in m ==> f.getKey(m[k]) == k && m[k] in b[Slot(f, k, |b|)])
    && (forall i :: 0 <= i < |b| ==> NoDup(b[i]))
  }

  ghost predicate Represents(f: Functions, b: Buckets, m: map<Key, Item>) {
    |b| > 0 && Filed(f, b, m) && Findable(f, b, m)
  }

  lemma AddKeeps(f: Functions, b: Buckets, m: map<Key, Item>, x: Item)
    requires Represents(f, b, m) && f.getKey(x) !in m
    ensures var s := Slot(f, f.getKey(x), |b|);
            Represents(f, b[s := b[s] + [x]], m[f.getKey(x) := x])
  {
    var s := Slot(f, f.getKey(x), |b|);
    assert x !in b[s];
    SnocNoDup(b[s], x);
    hide Slot, NoDup;
  }

  lemma CutNoDup(s: seq<Item>, j: nat)
    requires j < |s| && NoDup(s)
    ensures NoDup(RemoveAt(s, j)) && forall x :: x in RemoveAt(s, j) <==> x in s && x != s[j]
  {
    RemoveAtIndices(s, j);
    forall x | x in s && x != s[j] ensures x in RemoveAt(s, j) {
      var i :| 0 <= i < |s| && s[i] == x;
      assert RemoveAt(s, j)[if i < j then i else i - 1] == x;
    }
  }

  lemma CutKeeps(f: Functions, b: Buckets, m: map<Key, Item>, i: nat, j: nat)
    requires Represents(f, b, m) && i < |b| && j < |b[i]|
    ensures f.getKey(b[i][j]) in m && Represents(f, b[i := RemoveAt(b[i], j)], m - {f.getKey(b[i][j])})
  {
    var x := b[i][j];
    assert x in b[i];
    CutNoDup(b[i], j);
    hide Slot, NoDup, RemoveAt;
    var b', m' := b[i := RemoveAt(b[i], j)], m - {f.getKey(x)};
    assert Filed(f, b', m');
    assert forall k :: k in m' ==> m'[k] != x;
  }

  lemma FiledUnder(f: Functions, b: Buckets, m: map<Key, Item>, i: nat, x: Item)
    requires Represents(f, b, m) && i < |b| && x in b[i]
    ensures f.getKey(x) in m && m[f.getKey(x)] == x
  {
  }

  /** A lookup in the right bucket is a lookup in the map. */
  lemma LookupIs(f: Functions, b: Buckets, m: map<Key, Item>, key: Key)
    requires Represents(f, b, m)
    ensures forall x :: x in b[Slot(f, key, |b|)] && f.getKey(x) == key <==> key in m && x == m[key]
  {
    hide NoDup;
  }

  lemma EmptyRepresents(f: Functions, b: Buckets)
    requires |b| > 0 && forall i :: 0 <= i < |b| ==> b[i] == []
    ensures Represents(f, b, map[])
  {
  }

  lemma EmptyHoldsNothing(f: Functions, b: Buckets, m: map<Key, Item>)
    requires Represents(f, b, m) && forall i :: 0 <= i < |b| ==> b[i] == []
    ensures m == map[]
  {
    hide Slot;
  }

  // ---- the table ----

  /** What is left to move and what has been moved. */
  ghost predicate Halves(m: map<Key, Item>, left: map<Key, Item>, done: map<Key, Item>) {
    left.Keys !! done.Keys && m == left + done
  }

  lemma NothingMoved(m: map<Key, Item>)
    ensures Halves(m, m, map[])
  {
  }

  lemma AllMoved(m: map<Key, Item>, left: map<Key, Item>, done: map<Key, Item>)
    requires Halves(m, left, done) && left == map[]
    ensures m == done
  {
  }

  /** Move the front item of a bucket to its bucket in the new table. */
  method Move(f: Functions, oldTable: Buckets, table: array<seq<Item>>, i: nat,
              ghost m: map<Key, Item>, ghost left: map<Key, Item>, ghost done: map<Key, Item>)
    returns (rest: Buckets, ghost left': map<Key, Item>, ghost done': map<Key, Item>)
    requires Represents(f, oldTable, left) && Represents(f, table[..], done) && Halves(m, left, done)
    requires table.Length > 0 && i < |oldTable| && oldTable[i] != []
    modifies table
    ensures Represents(f, rest, left') && Represents(f, table[..], done') && Halves(m, left', done')
    ensures rest == oldTable[i := oldTable[i][1..]]
  {
    hide Represents, Slot;
    CutKeeps(f, oldTable, left, i, 0);
    var item := oldTable[i][0];
    ghost var key := f.getKey(item);
    FiledUnder(f, oldTable, left, i, item);
    assert RemoveAt(oldTable[i], 0) == oldTable[i][1..];
    AddKeeps(f, table[..], done, item);
    rest := oldTable[i := oldTable[i][1..]];
    var s := Slot(f, f.getKey(item), table.Length);
    ghost var b := table[..];
    table[s] := table[s] + [item];
    assert table[..] == b[s := b[s] + [item]];
    left', done' := left - {key}, done[key := item];
  }

  method MoveBucket(f: Functions, oldTable: Buckets, table: array<seq<Item>>, i: nat,
                    ghost m: map<Key, Item>, ghost left: map<Key, Item>, ghost done: map<Key, Item>)
    returns (rest: Buckets, ghost left': map<Key, Item>, ghost done': map<Key, Item>)
    requires Represents(f, oldTable, left) && Represents(f, table[..], done) && Halves(m, left, done)
    requires table.Length > 0 && i < |oldTable|
    modifies table
    ensures Represents(f, rest, left') && Represents(f, table[..], done') && Halves(m, left', done')
    ensures rest == oldTable[i := []]
  {
    hide Represents, Halves;
    rest, left', done' := oldTable, left, done;
    while rest[i] != []
      invariant |rest| == |oldTable| && rest == oldTable[i := rest[i]]
      invariant Represents(f, rest, left') && Represents(f, table[..], done') && Halves(m, left', done')
      decreases |rest[i]|
    {
      rest, left', done' := Move(f, rest, table, i, m, left', done');
    }
  }

  lemma QuotientTest(n: int, b: int)
    requires n >= 0 && b > 0
    ensures n / b >= 3 <==> n >= 3 * b
  {
    assert n == b * (n / b) + n % b;
    if n / b >= 3 {
      Scaled(b, 3, n / b);
    } else {
      Scaled(b, n / b, 2);
    }
  }

  lemma Scaled(b: int, x: int, y: int)
    requires b > 0 && x <= y
    ensures b * x <= b * y
  {
  }

  class HashTable {
    const f: Functions
    var buckets: array<seq<Item>>
    var numItems: int
    ghost var contents: map<Key, Item>

    /** Never more than three items a bucket, on average. */
    ghost predicate Valid()
      reads this, buckets
    {
      && buckets.Length > 0 && Represents(f, buckets[..], contents)
      && numItems == |contents| && numItems <= 3 * buckets.Length
    }

    constructor (f: Functions)
      ensures Valid() && this.f == f && contents == map[] && fresh(buckets)
    {
      this.f := f;
      numItems := 0;
      contents := map[];
      buckets := new seq<Item>[4](_ => []);
      new;
      EmptyRepresents(f, buckets[..]);
    }

    function HashValue(key: Key): (s: nat)
      requires buckets.Length > 0
      reads this, buckets
      ensures s < buckets.Length
    {
      Slot(f, key, buckets.Length)
    }

    /** The item with a key, in the bucket where it would be. */
    method FindInBucket(bucket: nat, key: Key) returns (found: bool, at: nat)
      requires bucket < buckets.Length
      ensures found ==> at < |buckets[bucket]| && f.getKey(buckets[bucket][at]) == key
      ensures !found ==> forall x :: x in buckets[bucket] ==> f.getKey(x) != key
    {
      at := 0;
      while at < |buckets[bucket]|
        invariant at <= |buckets[bucket]|
        invariant forall j :: 0 <= j < at ==> f.getKey(buckets[bucket][j]) != key
      {
        if key == f.getKey(buckets[bucket][at]) {
          return true, at;
        }
        at := at + 1;
      }
      return false, at;
    }

    method Find(key: Key) returns (item: Option<Item>)
      requires Valid()
      ensures item == if key in contents then Some(contents[key]) else None
    {
      var bucket := HashValue(key);
      LookupIs(f, buckets[..], contents, key);
      var found, at := FindInBucket(bucket, key);
      hide Filed, Findable;
      if found {
        assert buckets[bucket][at] in buckets[..][bucket];
        item := Some(buckets[bucket][at]);
      } else {
        item := None;
      }
    }

    method Insert(item: Item)
      requires Valid() && f.getKey(item) !in contents
      modifies this, buckets
      ensures Valid() && contents == old(contents)[f.getKey(item) := item]
      ensures buckets == old(buckets) || fresh(buckets)
    {
      hide Represents;
      QuotientTest(numItems, buckets.Length);
      if numItems / buckets.Length >= 3 {
        ReHash();
      }
      Add(item);
    }

    /** Append to the right bucket; there is room. */
    method Add(item: Item)
      requires Represents(f, buckets[..], contents) && f.getKey(item) !in contents
      requires numItems == |contents| && numItems < 3 * buckets.Length
      modifies this`numItems, this`contents, buckets
      ensures Valid() && contents == old(contents)[f.getKey(item) := item]
    {
      hide Filed, Findable;
      AddKeeps(f, buckets[..], contents, item);
      var s := HashValue(f.getKey(item));
      ghost var b := buckets[..];
      buckets[s] := buckets[s] + [item];
      assert buckets[..] == b[s := b[s] + [item]];
      numItems := numItems + 1;
      contents := contents[f.getKey(item) := item];
    }

    /** Four times the buckets, and no lookup changes. */
    method ReHash()
      requires Valid()
      modifies this`buckets
      ensures Valid() && fresh(buckets) && buckets.Length == 4 * old(buckets.Length)
      ensures contents == old(contents) && numItems == old(numItems)
    {
      hide Represents, Halves;
      var oldTable := buckets[..];
      var table := new seq<Item>[buckets.Length * 4](_ => []);
      EmptyRepresents(f, table[..]);
      ghost var left, done := contents, map[];
      NothingMoved(contents);
      var i := 0;
      while i < |oldTable|
        invariant i <= |oldTable| == old(buckets.Length) && table.Length == 4 * old(buckets.Length) && fresh(table)
        invariant Represents(f, oldTable, left) && Represents(f, table[..], done)
        invariant Halves(contents, left, done)
        invariant forall j :: 0 <= j < i ==> oldTable[j] == []
      {
        oldTable, left, done := MoveBucket(f, oldTable, table, i, contents, left, done);
        i := i + 1;
      }
      EmptyHoldsNothing(f, oldTable, left);
      AllMoved(contents, left, done);
      buckets := table;
    }

    method Remove(key: Key) returns (item: Item)
      requires Valid() && key in contents
      modifies this`numItems, this`contents, buckets
      ensures Valid() && item == old(contents)[key] && contents == old(contents) - {key}
    {
      var bucket := HashValue(key);
      LookupIs(f, buckets[..], contents, key);
      var found, at := FindInBucket(bucket, key);
      hide Filed, Findable;
      assert contents[key] in buckets[..][bucket];
      item := buckets[bucket][at];
      assert item in buckets[..][bucket];
      Take(bucket, at);
    }

    method Take(bucket: nat, at: nat)
      requires Valid() && bucket < buckets.Length && at < |buckets[bucket]|
      modifies this`numItems, this`contents, buckets
      ensures Valid() && contents == old(contents) - {f.getKey(old(buckets[bucket][at]))}
    {
      hide Represents, RemoveAt;
      CutKeeps(f, buckets[..], contents, bucket, at);
      ghost var b, key := buckets[..], f.getKey(buckets[bucket][at]);
      buckets[bucket] := RemoveAt(buckets[bucket], at);
      assert buckets[..] == b[bucket := RemoveAt(b[bucket], at)];
      numItems := numItems - 1;
      contents := contents - {key};
    }

    method FindNextFullBucket(bucket: nat) returns (next: nat)
      requires bucket <= buckets.Length
      ensures bucket <= next <= buckets.Length && (next < buckets.Length ==> buckets[next] != [])
      ensures forall i :: bucket <= i < next ==> buckets[i] == []
    {
      next := bucket;
      while next < buckets.Length && buckets[next] == []
        invariant bucket <= next <= buckets.Length && forall i :: bucket <= i < next ==> buckets[i] == []
      {
        next := next + 1;
      }
    }
  }

  // ---- iteration ----

  /** All items, bucket by bucket. */
  function Flatten(b: Buckets): seq<Item> {
    if b == [] then [] else b[0] + Flatten(b[1..])
  }

  lemma {:induction false} FlattenMembers(b: Buckets, x: Item)
    ensures x in Flatten(b) <==> exists i :: 0 <= i < |b| && x in b[i]
  {
    if b != [] {
      FlattenMembers(b[1..], x);
      if x in Flatten(b[1..]) {
        var i :| 0 <= i < |b[1..]| && x in b[1..][i];
        assert x in b[i + 1];
      }
      if i :| 0 <= i < |b| && x in b[i] && i > 0 {
        assert x in b[1..][i - 1];
      }
    }
  }

  /** Items that are where their keys belong are all different. */
  lemma {:induction false} FlattenNoDup(b: Buckets)
    requires forall i :: 0 <= i < |b| ==> NoDup(b[i])
    requires forall i, j, x :: 0 <= i < j < |b| && x in b[i] ==> x !in b[j]
    ensures NoDup(Flatten(b))
  {
    if b != [] {
      FlattenNoDup(b[1..]);
      forall x | x in b[0] ensures x !in Flatten(b[1..]) {
        FlattenMembers(b[1..], x);
      }
      ConcatNoDup(b[0], Flatten(b[1..]));
    }
  }

  lemma ConcatNoDup(s: seq<Item>, t: seq<Item>)
    requires NoDup(s) && NoDup(t) && forall x :: x in s ==> x !in t
    ensures NoDup(s + t)
  {
    var r := s + t;
    forall i, j | 0 <= i < j < |r| ensures r[i] != r[j] {
      if i < |s| <= j {
        assert r[i] in s && r[j] in t;
      }
    }
  }

  /** The order of iteration holds every item of the table exactly once. */
  lemma EachItemOnce(f: Functions, b: Buckets, m: map<Key, Item>)
    requires Represents(f, b, m)
    ensures NoDup(Flatten(b)) && forall x :: x in Flatten(b) <==> f.getKey(x) in m && m[f.getKey(x)] == x
  {
    forall i, j, x | 0 <= i < j < |b| && x in b[i] ensures x !in b[j] {
      assert Slot(f, f.getKey(x), |b|) == i;
    }
    FlattenNoDup(b);
    forall x ensures x in Flatten(b) <==> f.getKey(x) in m && m[f.getKey(x)] == x {
      FlattenMembers(b, x);
    }
  }

  lemma {:induction false} FlattenSkips(b: Buckets, from: nat, to: nat)
    requires from <= to <= |b| && forall i :: from <= i < to ==> b[i] == []
    ensures Flatten(b[from..]) == Flatten(b[to..])
    decreases |b| - from
  {
    if from < to {
      assert b[from..][1..] == b[from + 1..];
      FlattenSkips(b, from + 1, to);
    }
  }

  class HashIterator {
    const table: HashTable
    var bucket: nat
    var position: nat

    /** The items still to come, the current one first. */
    ghost function Remaining(): seq<Item>
      requires Valid()
      reads this, table, table.buckets
    {
      if bucket == table.buckets.Length then []
      else table.buckets[bucket][position..] + Flatten(table.buckets[..][bucket + 1..])
    }

    ghost predicate Valid()
      reads this, table, table.buckets
    {
      && bucket <= table.buckets.Length
      && (bucket < table.buckets.Length ==> position < |table.buckets[bucket]|)
    }

    constructor (tbl: HashTable)
      ensures Valid() && table == tbl && Remaining() == Flatten(tbl.buckets[..])
    {
      table := tbl;
      var first := tbl.FindNextFullBucket(0);
      bucket := first;
      position := 0;
      new;
      AtBucket(table.buckets[..], 0, bucket);
    }

    predicate IsDone()
      reads this, table, table.buckets
      requires Valid()
      ensures IsDone() <==> Remaining() == []
    {
      bucket == table.buckets.Length
    }

    function Current(): (x: Item)
      requires Valid() && !IsDone()
      reads this, table, table.buckets
      ensures Remaining() != [] && x == Remaining()[0]
    {
      table.buckets[bucket][position]
    }

    method Next()
      requires Valid() && !IsDone()
      modifies this
      ensures Valid() && Remaining() == old(Remaining())[1..]
    {
      position := position + 1;
      if position == |table.buckets[bucket]| {
        ghost var b, from := table.buckets[..], bucket + 1;
        bucket := table.FindNextFullBucket(bucket + 1);
        position := 0;
        AtBucket(b, from, bucket);
      }
    }
  }

  lemma AtBucket(b: Buckets, from: nat, bucket: nat)
    requires from <= bucket <= |b| && forall i :: from <= i < bucket ==> b[i] == []
    ensures Flatten(b[from..]) == if bucket == |b| then [] else b[bucket] + Flatten(b[bucket + 1..])
    ensures b[0..] == b
  {
    FlattenSkips(b, from, bucket);
    if bucket < |b| {
      assert b[bucket..][1..] == b[bucket + 1..];
    }
  }

  /** One turn of the loop: the current item goes over to those visited. */
  method VisitOne(walk: HashIterator, visited: seq<Item>, ghost all: seq<Item>) returns (visited': seq<Item>)
    requires walk.Valid() && !walk.IsDone() && visited + walk.Remaining() == all
    modifies walk
    ensures walk.Valid() && visited' + walk.Remaining() == all && |walk.Remaining()| < |old(walk.Remaining())|
  {
    hide Flatten, HashIterator.Remaining;
    ghost var rest := walk.Remaining();
    visited' := visited + [walk.Current()];
    walk.Next();
    assert visited + rest == (visited + [rest[0]]) + rest[1..];
  }

  /** The items in the order of iteration. */
  method Collect(table: HashTable) returns (visited: seq<Item>)
    ensures visited == Flatten(table.buckets[..])
  {
    hide Flatten, HashIterator.Remaining;
    var walk := new HashIterator(table);
    ghost var all := walk.Remaining();
    visited := [];
    while !walk.IsDone()
      invariant walk.Valid() && visited + walk.Remaining() == all
      decreases |walk.Remaining()|
    {
      visited := VisitOne(walk, visited, all);
    }
  }

  /** The loop that the iterator is for visits every item of the table exactly
      once. */
  method VisitAll(table: HashTable) returns (visited: seq<Item>)
    requires table.Valid()
    ensures visited == Flatten(table.buckets[..])
    ensures NoDup(visited)
    ensures forall x :: x in visited <==> table.f.getKey(x) in table.contents && table.contents[table.f.getKey(x)] == x
  {
    hide Represents, Flatten, NoDup;
    visited := Collect(table);
    EachItemOnce(table.f, table.buckets[..], table.contents);
  }
}
