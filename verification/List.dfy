/** Singly linked lists and sorted lists, as the kernel keeps its queues. */
module Lists {
  import opened Common

  function InsertAt<T>(s: seq<T>, k: nat, x: T): seq<T>
    requires k <= |s|
  {
    s[..k] + [x] + s[k..]
  }

  function RemoveAt<T>(s: seq<T>, k: nat): seq<T>
    requires k < |s|
  {
    s[..k] + s[k + 1..]
  }

  lemma InsertAtIndices<T>(s: seq<T>, k: nat, x: T)
    requires k <= |s|
    ensures var r := InsertAt(s, k, x);
            && |r| == |s| + 1 && r[k] == x
            && (forall j :: 0 <= j < k ==> r[j] == s[j]) && (forall j :: k < j < |r| ==> r[j] == s[j - 1])
  {
  }

  lemma RemoveAtIndices<T>(s: seq<T>, k: nat)
    requires k < |s|
    ensures var r := RemoveAt(s, k);
            && |r| == |s| - 1
            && (forall j :: 0 <= j < k ==> r[j] == s[j]) && (forall j :: k <= j < |r| ==> r[j] == s[j + 1])
  {
  }

  lemma NoDupInserted<T>(s: seq<T>, k: nat, x: T)
    requires NoDup(s) && k <= |s| && x !in s
    ensures NoDup(InsertAt(s, k, x))
  {
  }

  lemma NoDupEnds<T>(s: seq<T>, x: T)
    requires NoDup(s) && x !in s
    ensures NoDup([x] + s) && NoDup(s + [x])
  {
  }

  lemma NoDupCut<T>(s: seq<T>, k: nat)
    requires NoDup(s) && k < |s|
    ensures NoDup(RemoveAt(s, k)) && s[k] !in RemoveAt(s, k)
  {
  }

  lemma NoDupOthers<T>(s: seq<T>, k: nat)
    requires NoDup(s) && k < |s|
    ensures forall j :: 0 <= j < |s| && j != k ==> s[j] != s[k]
  {
  }

  // ---- where a sorted list puts an item ----

  /** Before the first item that is strictly greater. */
  function Place<T>(s: seq<T>, x: T, compare: (T, T) -> int): (k: nat)
    ensures k <= |s|
  {
    if s == [] || compare(x, s[0]) < 0 then 0 else 1 + Place(s[1..], x, compare)
  }

  function Inserted<T>(s: seq<T>, x: T, compare: (T, T) -> int): seq<T> {
    InsertAt(s, Place(s, x, compare), x)
  }

  ghost predicate Comparison<T(!new)>(compare: (T, T) -> int) {
    && (forall x, y :: compare(x, y) < 0 <==> compare(y, x) > 0)
    && (forall x, y, z :: compare(x, y) <= 0 && compare(y, z) <= 0 ==> compare(x, z) <= 0)
  }

  ghost predicate Sorted<T>(s: seq<T>, compare: (T, T) -> int) {
    forall i, j :: 0 <= i < j < |s| ==> compare(s[i], s[j]) <= 0
  }

  lemma {:induction false} PlaceIs<T>(s: seq<T>, x: T, compare: (T, T) -> int, k: nat)
    requires k <= |s| && (k < |s| ==> compare(x, s[k]) < 0)
    requires forall j :: 0 <= j < k ==> compare(x, s[j]) >= 0
    ensures Place(s, x, compare) == k
  {
    if k > 0 {
      assert compare(x, s[0]) >= 0;
      forall j | 0 <= j < k - 1 ensures compare(x, s[1..][j]) >= 0 {
        assert s[1..][j] == s[j + 1];
      }
      PlaceIs(s[1..], x, compare, k - 1);
    }
  }

  lemma {:induction false} PlaceBetween<T>(s: seq<T>, x: T, compare: (T, T) -> int)
    ensures var k := Place(s, x, compare);
            && (forall j :: 0 <= j < k ==> compare(x, s[j]) >= 0)
            && (k < |s| ==> compare(x, s[k]) < 0)
  {
    if s != [] && compare(x, s[0]) >= 0 {
      PlaceBetween(s[1..], x, compare);
      var k := Place(s, x, compare);
      forall j | 0 <= j < k ensures compare(x, s[j]) >= 0 {
        if j > 0 { assert s[1..][j - 1] == s[j]; }
      }
    }
  }

  lemma Chain<T(!new)>(x: T, y: T, z: T, compare: (T, T) -> int)
    requires Comparison(compare) && compare(x, y) < 0 && (compare(y, z) <= 0 || y == z)
    ensures compare(x, z) < 0
  {
    assert compare(z, x) <= 0 && compare(y, z) <= 0 ==> compare(y, x) <= 0;
  }

  lemma Flip<T(!new)>(x: T, y: T, compare: (T, T) -> int)
    requires Comparison(compare) && compare(x, y) >= 0
    ensures compare(y, x) <= 0
  {
  }

  /** The item lands behind its equals: nothing before it is greater, and
      everything after it is. */
  lemma PlaceSplits<T(!new)>(s: seq<T>, x: T, compare: (T, T) -> int)
    requires Comparison(compare) && Sorted(s, compare)
    ensures var k := Place(s, x, compare);
            && (forall j :: 0 <= j < k ==> compare(s[j], x) <= 0)
            && (forall j :: k <= j < |s| ==> compare(x, s[j]) < 0)
  {
    hide Comparison, Place;
    var k := Place(s, x, compare);
    PlaceBetween(s, x, compare);
    forall j | 0 <= j < k ensures compare(s[j], x) <= 0 {
      Flip(x, s[j], compare);
    }
    forall j | k <= j < |s| ensures compare(x, s[j]) < 0 {
      Chain(x, s[k], s[j], compare);
    }
  }

  lemma InsertedSorted<T(!new)>(s: seq<T>, x: T, compare: (T, T) -> int)
    requires Comparison(compare) && Sorted(s, compare)
    ensures Sorted(Inserted(s, x, compare), compare)
  {
    hide Comparison, Place;
    PlaceSplits(s, x, compare);
    var k, r := Place(s, x, compare), Inserted(s, x, compare);
    forall i, j | 0 <= i < j < |r| ensures compare(r[i], r[j]) <= 0 {
      assert r[i] == if i < k then s[i] else if i == k then x else s[i - 1];
      assert r[j] == if j < k then s[j] else if j == k then x else s[j - 1];
    }
  }

  lemma InsertedOnce<T>(s: seq<T>, x: T, compare: (T, T) -> int)
    ensures multiset(Inserted(s, x, compare)) == multiset(s) + multiset{x}
  {
    hide Place;
    var k := Place(s, x, compare);
    assert s == s[..k] + s[k..];
  }

  // ---- the linked structure ----

  class ListElement<T> {
    var next: ListElement?<T>
    var item: T

    constructor (itm: T)
      ensures item == itm && next == null
    {
      item, next := itm, null;
    }
  }

  ghost function Nth<T>(spine: seq<ListElement<T>>, i: int): ListElement?<T> {
    if 0 <= i < |spine| then spine[i] else null
  }

  ghost predicate Chained<T>(spine: seq<ListElement<T>>, items: seq<T>)
    requires |spine| == |items|
    reads spine
  {
    forall i :: 0 <= i < |spine| ==> spine[i].item == items[i] && spine[i].next == Nth(spine, i + 1)
  }

  /** The links go through `element` behind position `i`. */
  ghost predicate Through<T>(was: seq<ListElement<T>>, had: seq<T>, i: nat, element: ListElement<T>)
    reads was, element
  {
    && i < |was| == |had| && (forall j :: 0 <= j < |was| ==> was[j].item == had[j])
    && (forall j :: 0 <= j < |was| && j != i ==> was[j].next == Nth(was, j + 1))
    && was[i].next == element && element.next == Nth(was, i + 1)
  }

  lemma ChainThrough<T>(was: seq<ListElement<T>>, had: seq<T>, i: nat, element: ListElement<T>)
    requires Through(was, had, i, element)
    ensures |InsertAt(was, i + 1, element)| == |InsertAt(had, i + 1, element.item)|
    ensures Chained(InsertAt(was, i + 1, element), InsertAt(had, i + 1, element.item))
  {
    InsertAtIndices(was, i + 1, element);
    InsertAtIndices(had, i + 1, element.item);
    hide InsertAt;
  }

  lemma ChainBack<T>(was: seq<ListElement<T>>, had: seq<T>, element: ListElement<T>)
    requires |was| == |had| && element.next == null && (was == [] || Through(was, had, |was| - 1, element))
    ensures Chained(was + [element], had + [element.item])
  {
  }

  lemma ChainFront<T>(element: ListElement<T>, was: seq<ListElement<T>>, had: seq<T>)
    requires |was| == |had| && Chained(was, had) && element.next == Nth(was, 0)
    ensures Chained([element] + was, [element.item] + had)
  {
  }

  /** The links go past the element at position `i`. */
  ghost predicate Past<T>(was: seq<ListElement<T>>, had: seq<T>, i: nat)
    reads was
  {
    && 0 < i < |was| == |had| && (forall j :: 0 <= j < |was| ==> was[j].item == had[j])
    && (forall j :: 0 <= j < |was| && j != i - 1 ==> was[j].next == Nth(was, j + 1))
    && was[i - 1].next == Nth(was, i + 1)
  }

  lemma ChainPast<T>(was: seq<ListElement<T>>, had: seq<T>, i: nat)
    requires Past(was, had, i)
    ensures |RemoveAt(was, i)| == |RemoveAt(had, i)| && Chained(RemoveAt(was, i), RemoveAt(had, i))
  {
    RemoveAtIndices(was, i);
    RemoveAtIndices(had, i);
    hide RemoveAt;
  }

  lemma CutEnds<T>(was: seq<ListElement<T>>, had: seq<T>, i: nat)
    requires 0 < i < |was| == |had| && NoDup(was) && NoDup(had)
    ensures NoDup(RemoveAt(had, i))
    ensures var now := RemoveAt(was, i);
            && NoDup(now) && |now| == |was| - 1 == |RemoveAt(had, i)|
            && Nth(now, 0) == Nth(was, 0) && Nth(now, |was| - 2) == if i + 1 < |was| then was[|was| - 1] else was[i - 1]
  {
    NoDupCut(was, i);
    NoDupCut(had, i);
  }

  lemma LinkedEnds<T>(was: seq<ListElement<T>>, had: seq<T>, i: nat, element: ListElement<T>)
    requires i < |was| == |had| && NoDup(was) && element !in was && NoDup(had) && element.item !in had
    ensures NoDup(InsertAt(had, i + 1, element.item))
    ensures var now := InsertAt(was, i + 1, element);
            && NoDup(now) && |now| == |was| + 1 == |InsertAt(had, i + 1, element.item)|
            && Nth(now, 0) == Nth(was, 0) && Nth(now, |was|) == if i + 1 < |was| then was[|was| - 1] else element
  {
    NoDupInserted(was, i + 1, element);
    NoDupInserted(had, i + 1, element.item);
  }

  class List<T(==)> {
    var first: ListElement?<T>
    var last: ListElement?<T>
    var numInList: int
    ghost var items: seq<T>
    ghost var spine: seq<ListElement<T>>

    /** The chain from `first` by `next` is `spine`, ends at `last`, and holds
        `items`; neither repeats anything. */
    ghost predicate Valid()
      reads this, spine
    {
      && numInList == |spine| == |items|
      && NoDup(spine) && NoDup(items)
      && first == Nth(spine, 0) && last == Nth(spine, |spine| - 1)
      && Chained(spine, items)
    }

    constructor ()
      ensures Valid() && items == [] && spine == []
    {
      first, last, numInList, items, spine := null, null, 0, [], [];
    }

    predicate IsEmpty()
      reads this
    {
      numInList == 0
    }

    lemma AtFirst()
      requires Valid()
      ensures items != [] ==> first != null && first.item == items[0]
    {
    }

    method IsInList(item: T) returns (found: bool)
      requires Valid()
      ensures found <==> item in items
    {
      hide NoDup;
      var ptr := first;
      ghost var i := 0;
      while ptr != null
        invariant 0 <= i <= |spine| && ptr == Nth(spine, i)
        invariant item !in items[..i]
        decreases |spine| - i
      {
        if item == ptr.item {
          return true;
        }
        ptr, i := ptr.next, i + 1;
      }
      return false;
    }

    /** Make the last link lead to `element`. */
    method LinkLast(element: ListElement<T>)
      requires Valid() && !IsEmpty() && element !in spine && element.next == null
      modifies this`last, spine
      ensures last == element && Through(spine, items, |spine| - 1, element)
    {
      hide NoDup;
      NoDupOthers(spine, |spine| - 1);
      last.next := element;
      last := element;
    }

    method Append(item: T)
      requires Valid() && item !in items
      modifies this, spine
      ensures Valid() && items == old(items) + [item]
      ensures forall e :: e in spine ==> e in old(spine) || fresh(e)
    {
      hide NoDup, Chained, Through;
      NoDupEnds(items, item);
      var element := new ListElement(item);
      NoDupEnds(spine, element);
      if IsEmpty() {
        first := element;
        last := element;
      } else {
        LinkLast(element);
      }
      ChainBack(spine, items, element);
      numInList := numInList + 1;
      items, spine := items + [item], spine + [element];
    }

    method Prepend(item: T)
      requires Valid() && item !in items
      modifies this
      ensures Valid() && items == [item] + old(items)
      ensures forall e :: e in spine ==> e in old(spine) || fresh(e)
    {
      hide NoDup, Chained;
      NoDupEnds(items, item);
      var element := new ListElement(item);
      NoDupEnds(spine, element);
      if IsEmpty() {
        first := element;
        last := element;
      } else {
        element.next := first;
        first := element;
      }
      ChainFront(element, spine, items);
      numInList := numInList + 1;
      items, spine := [item] + items, [element] + spine;
    }

    method RemoveFront() returns (thing: T)
      requires Valid() && !IsEmpty()
      modifies this
      ensures Valid() && [thing] + items == old(items)
      ensures spine == old(spine)[1..]
    {
      thing := first.item;
      if first == last {
        first := null;
        last := null;
      } else {
        first := first.next;
      }
      numInList := numInList - 1;
      items, spine := items[1..], spine[1..];
    }

    /** Make the links go past `ptr`. */
    method Bypass(prev: ListElement<T>, ptr: ListElement<T>, ghost i: nat)
      requires Valid() && 0 < i < |spine| && prev == spine[i - 1] && ptr == spine[i]
      modifies this`last, spine
      ensures Past(spine, items, i)
      ensures last == if i + 1 < |spine| then spine[|spine| - 1] else prev
    {
      hide NoDup;
      NoDupOthers(spine, i - 1);
      prev.next := ptr.next;
      if prev.next == null {
        last := prev;
      }
    }

    /** Take out the element after `prev`. */
    method Unlink(prev: ListElement<T>, ptr: ListElement<T>, ghost i: nat)
      requires Valid() && 0 < i < |spine| && prev == spine[i - 1] && ptr == spine[i]
      modifies this, spine
      ensures Valid() && items == RemoveAt(old(items), i) && spine == RemoveAt(old(spine), i)
    {
      hide Chained, NoDup, RemoveAt, Nth, Past;
      CutEnds(spine, items, i);
      Bypass(prev, ptr, i);
      ChainPast(spine, items, i);
      numInList := numInList - 1;
      items, spine := RemoveAt(items, i), RemoveAt(spine, i);
    }

    /** The first element holding `item`, which is not the front one, and its predecessor. */
    method FindAfterFirst(item: T) returns (prev: ListElement<T>, ptr: ListElement<T>, ghost i: nat)
      requires Valid() && item in items && item != items[0]
      ensures 0 < i < |spine| && prev == spine[i - 1] && ptr == spine[i]
      ensures items[i] == item && item !in items[..i]
    {
      hide NoDup;
      prev := first;
      var p := first.next;
      i := 1;
      while p != null && item != p.item
        invariant 1 <= i <= |spine| && prev == spine[i - 1] && p == Nth(spine, i)
        invariant item !in items[..i]
        decreases |spine| - i
      {
        prev, p, i := p, p.next, i + 1;
      }
      ptr := p;
    }

    /** Remove the first occurrence of an item, wherever it is. */
    method Remove(item: T)
      requires Valid() && item in items
      modifies this, spine
      ensures Valid() && item !in items
      ensures exists k :: 0 <= k < |old(items)| && old(items)[k] == item && item !in old(items)[..k]
                && items == RemoveAt(old(items), k)
    {
      if item == first.item {
        var removed := RemoveFront();
        assert items == RemoveAt(old(items), 0);
      } else {
        hide NoDup;
        var prev, ptr, i := FindAfterFirst(item);
        Unlink(prev, ptr, i);
      }
    }

    /** Make the links go through `element` after `ptr`. */
    method Splice(ptr: ListElement<T>, element: ListElement<T>, ghost i: nat)
      requires Valid() && i < |spine| && ptr == spine[i] && element !in spine && element.next == null
      modifies this`last, spine, element
      ensures Through(spine, items, i, element) && element.item == old(element.item)
      ensures last == if i + 1 < |spine| then spine[|spine| - 1] else element
    {
      hide NoDup;
      NoDupOthers(spine, i);
      if ptr.next != null {
        element.next := ptr.next;
        ptr.next := element;
      } else {
        last.next := element;
        last := element;
      }
    }

    /** Put an element after `ptr`. */
    method LinkAfter(ptr: ListElement<T>, element: ListElement<T>, ghost i: nat)
      requires Valid() && i < |spine| && ptr == spine[i] && element !in spine && element.next == null && element.item !in items
      modifies this, spine, element
      ensures Valid() && items == InsertAt(old(items), i + 1, old(element.item))
      ensures spine == InsertAt(old(spine), i + 1, element)
    {
      hide Chained, NoDup, InsertAt, Nth, Through;
      LinkedEnds(spine, items, i, element);
      Splice(ptr, element, i);
      ChainThrough(spine, items, i, element);
      numInList := numInList + 1;
      items, spine := InsertAt(items, i + 1, element.item), InsertAt(spine, i + 1, element);
    }

    /** The last element that is not greater than `item`. */
    method FindPlace(item: T, compare: (T, T) -> int) returns (ptr: ListElement<T>, ghost i: nat)
      requires Valid() && !IsEmpty() && compare(item, items[0]) >= 0
      ensures i < |spine| && ptr == spine[i] && Place(items, item, compare) == i + 1
    {
      hide NoDup;
      ptr, i := first, 0;
      while ptr.next != null && compare(item, ptr.next.item) >= 0
        invariant 0 <= i < |spine| && ptr == spine[i]
        invariant forall j :: 0 <= j <= i ==> compare(item, items[j]) >= 0
        decreases |spine| - i
      {
        ptr, i := ptr.next, i + 1;
      }
      PlaceIs(items, item, compare, i + 1);
    }

    /** `SortedList::Insert`, with the list's comparison. */
    method Insert(item: T, compare: (T, T) -> int)
      requires Valid() && item !in items
      modifies this, spine
      ensures Valid() && items == Inserted(old(items), item, compare)
      ensures forall e :: e in spine ==> e in old(spine) || fresh(e)
    {
      hide NoDup, Place, Chained, Nth;
      AtFirst();
      if IsEmpty() || compare(item, first.item) < 0 {
        PlaceIs(items, item, compare, 0);
        Prepend(item);
      } else {
        var ptr, i := FindPlace(item, compare);
        var element := new ListElement(item);
        LinkAfter(ptr, element, i);
      }
    }
  }
}
