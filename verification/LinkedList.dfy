/** lib/list.cc: singly linked lists with a pointer to the last element, and sorted lists. */
module LinkedLists {
  import opened Sequences

  class ListElement<T> {
    var item: T
    var next: ListElement?<T>

    constructor (itm: T)
      ensures item == itm && next == null
    {
      item := itm;
      next := null;
    }
  }

  /** The first position of an item that is there. */
  function IndexOf<T(==)>(s: seq<T>, x: T): (k: nat)
    requires x in s
    ensures k < |s| && s[k] == x && x !in s[..k]
  {
    if s[0] == x then 0 else 1 + IndexOf(s[1..], x)
  }

  lemma {:induction false} IndexUnique<T>(s: seq<T>, x: T, k: nat)
    requires k < |s| && s[k] == x && x !in s[..k]
    ensures IndexOf(s, x) == k
  {
    if k > 0 {
      assert s[..k][0] == s[0] && s[..k][1..] == s[1..][..k - 1];
      IndexUnique(s[1..], x, k - 1);
    }
  }

  // ---------------------------------------------------------------- sorted insertion

  /** The position of the first element that is bigger than `x`, or the end. */
  function Place<T>(s: seq<T>, x: T, compare: (T, T) -> int): (k: nat)
    ensures k <= |s|
    ensures forall i :: 0 <= i < k ==> compare(x, s[i]) >= 0
    ensures k < |s| ==> compare(x, s[k]) < 0
  {
    if s == [] || compare(x, s[0]) < 0 then 0 else 1 + Place(s[1..], x, compare)
  }

  function Inserted<T>(s: seq<T>, x: T, compare: (T, T) -> int): (r: seq<T>)
    ensures |r| == |s| + 1
  {
    var k := Place(s, x, compare);
    s[..k] + [x] + s[k..]
  }

  lemma PlaceUnique<T>(s: seq<T>, x: T, compare: (T, T) -> int, k: nat)
    requires k <= |s| && (forall i :: 0 <= i < k ==> compare(x, s[i]) >= 0) && (k < |s| ==> compare(x, s[k]) < 0)
    ensures Place(s, x, compare) == k
  {
  }

  /** A comparison function that orders its arguments, ties allowed. */
  ghost predicate Orders<T(!new)>(compare: (T, T) -> int) {
    && (forall x, y :: compare(x, y) < 0 <==> compare(y, x) > 0)
    && (forall x, y, z :: compare(x, y) <= 0 && compare(y, z) <= 0 ==> compare(x, z) <= 0)
  }

  ghost predicate Sorted<T>(s: seq<T>, compare: (T, T) -> int) {
    forall i, j :: 0 <= i < j < |s| ==> compare(s[i], s[j]) <= 0
  }

  lemma Flip<T(!new)>(compare: (T, T) -> int, x: T, y: T)
    requires Orders(compare)
    ensures compare(x, y) < 0 <==> compare(y, x) > 0
  {
  }

  lemma Chain<T(!new)>(compare: (T, T) -> int, x: T, y: T, z: T)
    requires Orders(compare) && compare(x, y) <= 0 && compare(y, z) <= 0
    ensures compare(x, z) <= 0
  {
  }

  /** Everything from the place on is bigger. */
  lemma BiggerBehind<T(!new)>(s: seq<T>, x: T, compare: (T, T) -> int, i: nat)
    requires Orders(compare) && Sorted(s, compare) && Place(s, x, compare) <= i < |s|
    ensures compare(x, s[i]) < 0
  {
    var k := Place(s, x, compare);
    var y, z := s[k], s[i];
    assert i > k ==> compare(y, z) <= 0;
    hide Orders;
    Flip(compare, x, y);
    Flip(compare, x, z);
    Flip(compare, z, x);
    if i > k && compare(z, x) <= 0 {
      Chain(compare, y, z, x);
    }
  }

  /** Insertion keeps the order, adds exactly the item, and puts it after all its equals. */
  lemma InsertedPair<T(!new)>(s: seq<T>, x: T, compare: (T, T) -> int, i: nat, j: nat)
    requires Orders(compare) && Sorted(s, compare) && i < j <= |s|
    ensures compare(Inserted(s, x, compare)[i], Inserted(s, x, compare)[j]) <= 0
  {
    hide Orders;
    var k := Place(s, x, compare);
    if i == k {
      BiggerBehind(s, x, compare, j - 1);
    } else if j == k {
      Flip(compare, x, s[i]);
    }
  }

  lemma InsertedItems<T>(s: seq<T>, x: T, compare: (T, T) -> int)
    ensures multiset(Inserted(s, x, compare)) == multiset(s) + multiset{x}
  {
    var k := Place(s, x, compare);
    assert s == s[..k] + s[k..];
  }

  lemma InsertedSorted<T(!new)>(s: seq<T>, x: T, compare: (T, T) -> int)
    requires Orders(compare) && Sorted(s, compare)
    ensures Sorted(Inserted(s, x, compare), compare)
    ensures multiset(Inserted(s, x, compare)) == multiset(s) + multiset{x}
    ensures forall i :: Place(s, x, compare) <= i < |s| ==> compare(x, s[i]) < 0
  {
    hide Orders;
    var k := Place(s, x, compare);
    var r := Inserted(s, x, compare);
    forall i | k <= i < |s|
      ensures compare(x, s[i]) < 0
    {
      BiggerBehind(s, x, compare, i);
    }
    forall i, j | 0 <= i < j < |r|
      ensures compare(r[i], r[j]) <= 0
    {
      InsertedPair(s, x, compare, i, j);
    }
    InsertedItems(s, x, compare);
  }

  /** Taking out one element, or putting in a new one, keeps elements distinct. */
  lemma DistinctInsert<T>(s: seq<T>, k: nat, x: T)
    requires Distinct(s) && k <= |s| && x !in s
    ensures Distinct(s[..k] + [x] + s[k..])
  {
    var r := s[..k] + [x] + s[k..];
    forall i, j | 0 <= i < j < |r|
      ensures r[i] != r[j]
    {
      assert i != k ==> r[i] == s[if i < k then i else i - 1];
      assert j != k ==> r[j] == s[if j < k then j else j - 1];
    }
  }

  lemma DistinctRemove<T>(s: seq<T>, k: nat)
    requires Distinct(s) && k < |s|
    ensures Distinct(s[..k] + s[k + 1..]) && s[k] !in s[..k] + s[k + 1..]
  {
    var r := s[..k] + s[k + 1..];
    assert forall i :: 0 <= i < |r| ==> r[i] == s[if i < k then i else i + 1];
  }

  // ---------------------------------------------------------------- lists

  class List<T(==)> {
    var first: ListElement?<T>
    var last: ListElement?<T>
    var numInList: int
    ghost var spine: seq<ListElement<T>>
    ghost var contents: seq<T>

    /** The elements are chained in order. No item is in the list twice: the ASSERTs of Append, Prepend and Insert
        see to that. */
    ghost predicate Valid()
      reads this, spine
    {
      && Distinct(spine) && Distinct(contents) && |contents| == |spine| == numInList
      && first == (if spine == [] then null else spine[0])
      && last == (if spine == [] then null else spine[|spine| - 1])
      && (forall i :: 0 <= i < |spine| - 1 ==> spine[i].next == spine[i + 1])
      && (spine != [] ==> spine[|spine| - 1].next == null)
      && (forall i :: 0 <= i < |spine| ==> spine[i].item == contents[i])
    }

    constructor ()
      ensures Valid() && contents == [] && spine == []
    {
      first, last, numInList := null, null, 0;
      spine, contents := [], [];
    }

    method IsInList(item: T) returns (found: bool)
      requires Valid()
      ensures found <==> item in contents
    {
      ghost var k := 0;
      var ptr := first;
      while ptr != null
        invariant k <= |spine| && ptr == (if k < |spine| then spine[k] else null)
        invariant item !in contents[..k]
        decreases |spine| - k
      {
        if item == ptr.item {
          return true;
        }
        ptr := ptr.next;
        k := k + 1;
      }
      return false;
    }

    method Append(item: T)
      requires Valid() && item !in contents
      modifies this, spine
      ensures Valid() && contents == old(contents) + [item]
      ensures fresh(set e | e in spine && e !in old(spine))
    {
      DistinctInsert(contents, |contents|, item);
      var element := new ListElement(item);
      if first == null {
        first := element;
        last := element;
      } else {
        last.next := element;
        last := element;
      }
      numInList := numInList + 1;
      spine, contents := spine + [element], contents[..|contents|] + [item] + contents[|contents|..];
    }

    method Prepend(item: T)
      requires Valid() && item !in contents
      modifies this
      ensures Valid() && contents == [item] + old(contents)
      ensures fresh(set e | e in spine && e !in old(spine))
    {
      var element := new ListElement(item);
      LinkFirst(element);
    }

    method RemoveFront() returns (thing: T)
      requires Valid() && contents != []
      modifies this
      ensures Valid() && old(contents) == [thing] + contents
      ensures spine == old(spine)[1..]
    {
      thing := first.item;
      if first == last {
        first := null;
        last := null;
      } else {
        first := first.next;
      }
      numInList := numInList - 1;
      spine, contents := spine[1..], contents[1..];
    }

    method Remove(item: T)
      requires Valid() && item in contents
      modifies this, spine
      ensures Valid() && item !in contents
      ensures var k := IndexOf(old(contents), item); contents == old(contents)[..k] + old(contents)[k + 1..]
      ensures forall e :: e in spine ==> e in old(spine)
    {
      DistinctRemove(contents, IndexOf(contents, item));
      if item == first.item {
        var removed := RemoveFront();
      } else {
        var prev, ptr := first, first.next;
        ghost var k := 1;
        while ptr != null && item != ptr.item
          invariant 1 <= k <= |spine| && prev == spine[k - 1] && ptr == (if k < |spine| then spine[k] else null)
          invariant item !in contents[..k]
          decreases |spine| - k
        {
          prev, ptr := ptr, ptr.next;
          k := k + 1;
        }
        IndexUnique(contents, item, k);
        Unlink(prev, ptr, k);
      }
    }

    method Unlink(prev: ListElement<T>, ptr: ListElement<T>, ghost k: nat)
      requires Valid() && 0 < k < |spine| && prev == spine[k - 1] && ptr == spine[k]
      modifies this, spine
      ensures Valid() && contents == old(contents)[..k] + old(contents)[k + 1..]
      ensures spine == old(spine)[..k] + old(spine)[k + 1..]
    {
      DistinctRemove(spine, k);
      DistinctRemove(contents, k);
      assert k < |spine| - 1 ==> ptr.next == spine[k + 1];
      assert forall i :: 0 <= i < |spine| && i != k - 1 ==> spine[i] != prev;
      hide Distinct;
      prev.next := ptr.next;
      if prev.next == null {
        last := prev;
      }
      numInList := numInList - 1;
      spine, contents := spine[..k] + spine[k + 1..], contents[..k] + contents[k + 1..];
      assert forall i :: 0 <= i < |spine| ==> spine[i] == old(spine)[if i < k then i else i + 1];
    }

    /** SortedList::Insert. */
    method Insert(item: T, compare: (T, T) -> int)
      requires Valid() && item !in contents
      modifies this, spine
      ensures Valid() && contents == Inserted(old(contents), item, compare)
      ensures fresh(set e | e in spine && e !in old(spine))
    {
      var element := new ListElement(item);
      if first == null || compare(item, first.item) < 0 {
        LinkFirst(element);
      } else {
        var ptr := first;
        ghost var k := 1;
        while ptr.next != null && compare(item, ptr.next.item) >= 0
          invariant 1 <= k <= |spine| && ptr == spine[k - 1]
          invariant forall i :: 0 <= i < k ==> compare(item, contents[i]) >= 0
          decreases |spine| - k
        {
          ptr := ptr.next;
          k := k + 1;
        }
        PlaceUnique(contents, item, compare, k);
        hide Distinct;
        LinkAfter(ptr, element, k);
      }
    }

    method LinkFirst(element: ListElement<T>)
      requires Valid() && element !in spine && element.item !in contents && element.next == null
      modifies this, element
      ensures Valid() && contents == [element.item] + old(contents)
      ensures spine == [element] + old(spine) && element.item == old(element.item)
    {
      DistinctInsert(spine, 0, element);
      DistinctInsert(contents, 0, element.item);
      if first == null {
        last := element;
      }
      element.next := first;
      first := element;
      numInList := numInList + 1;
      spine, contents := spine[..0] + [element] + spine[0..], contents[..0] + [element.item] + contents[0..];
    }

    method LinkAfter(ptr: ListElement<T>, element: ListElement<T>, ghost k: nat)
      requires Valid() && 0 < k <= |spine| && ptr == spine[k - 1]
      requires element !in spine && element.item !in contents && element.next == null
      modifies this, spine, element
      ensures Valid() && contents == old(contents)[..k] + [element.item] + old(contents)[k..]
      ensures spine == old(spine)[..k] + [element] + old(spine)[k..] && element.item == old(element.item)
    {
      DistinctInsert(spine, k, element);
      DistinctInsert(contents, k, element.item);
      assert k < |spine| ==> ptr.next == spine[k];
      assert spine[k - 1] != element;
      assert forall i :: 0 <= i < |spine| && i != k - 1 ==> spine[i] != ptr;
      hide Distinct;
      if ptr.next != null {
        element.next := ptr.next;
        ptr.next := element;
      } else {
        last.next := element;
        last := element;
      }
      numInList := numInList + 1;
      spine, contents := spine[..k] + [element] + spine[k..], contents[..k] + [element.item] + contents[k..];
      assert forall i :: 0 <= i < |spine| && i != k ==> spine[i] == old(spine)[if i < k then i else i - 1];
      assert forall i :: 0 <= i < |contents| && i != k ==> contents[i] == old(contents)[if i < k then i else i - 1];
    }
  }
}
