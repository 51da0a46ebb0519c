/** threads/list.cc: the singly linked list of keyed items that every queue of the kernel is built on. */
module Lists {
  datatype Keyed<T> = Keyed(key: int, item: T)

  /** Where SortedInsert puts a key: before the first larger one. */
  function Position<T>(xs: seq<Keyed<T>>, key: int): (p: nat)
    ensures p <= |xs|
    ensures forall i :: 0 <= i < p ==> xs[i].key <= key
    ensures p < |xs| ==> key < xs[p].key
  {
    if xs == [] || key < xs[0].key then 0 else 1 + Position(xs[1..], key)
  }

  lemma {:induction false} PositionUnique<T>(xs: seq<Keyed<T>>, key: int, p: nat)
    requires p <= |xs| && (forall i :: 0 <= i < p ==> xs[i].key <= key)
    requires p < |xs| ==> key < xs[p].key
    ensures Position(xs, key) == p
  {
    if p > 0 {
      PositionUnique(xs[1..], key, p - 1);
    }
  }

  function Inserted<T>(xs: seq<Keyed<T>>, e: Keyed<T>): seq<Keyed<T>> {
    xs[..Position(xs, e.key)] + [e] + xs[Position(xs, e.key)..]
  }

  predicate Holds<T(==)>(xs: seq<Keyed<T>>, item: T) {
    exists i :: 0 <= i < |xs| && xs[i].item == item
  }

  /** xs without its first occurrence of item. */
  function Without<T(==)>(xs: seq<Keyed<T>>, item: T): seq<Keyed<T>> {
    if xs == [] then []
    else if xs[0].item == item then xs[1..]
    else [xs[0]] + Without(xs[1..], item)
  }

  lemma {:induction false} WithoutFirst<T>(xs: seq<Keyed<T>>, item: T, i: nat)
    requires i < |xs| && xs[i].item == item && forall j :: 0 <= j < i ==> xs[j].item != item
    ensures Without(xs, item) == xs[..i] + xs[i + 1..]
  {
    if i > 0 {
      WithoutFirst(xs[1..], item, i - 1);
      assert xs[..i] == [xs[0]] + xs[1..][..i - 1];
      assert xs[i + 1..] == xs[1..][i..];
    }
  }

  predicate Sorted<T>(xs: seq<Keyed<T>>) {
    forall i, j :: 0 <= i < j < |xs| ==> xs[i].key <= xs[j].key
  }

  lemma InsertedAt<T>(xs: seq<Keyed<T>>, e: Keyed<T>, i: nat)
    requires i <= |xs|
    ensures |Inserted(xs, e)| == |xs| + 1
    ensures var p := Position(xs, e.key); Inserted(xs, e)[i] == if i < p then xs[i] else if i == p then e else xs[i - 1]
  {
  }

  /** SortedInsert keeps a list sorted, and puts the new element behind all elements with its key. */
  lemma InsertedSorted<T>(xs: seq<Keyed<T>>, e: Keyed<T>)
    requires Sorted(xs)
    ensures Sorted(Inserted(xs, e))
    ensures forall j :: 0 <= j < |xs| ==> (xs[j].key <= e.key <==> j < Position(xs, e.key))
  {
    var p := Position(xs, e.key);
    hide Position, Inserted;
    forall j | 0 <= j < |xs| ensures xs[j].key <= e.key <==> j < p {
      if p < j { assert xs[p].key <= xs[j].key; }
    }
    InsertedAt(xs, e, 0);
    forall i, j | 0 <= i < j <= |xs| ensures Inserted(xs, e)[i].key <= Inserted(xs, e)[j].key {
      InsertedAt(xs, e, i);
      InsertedAt(xs, e, j);
    }
  }

  lemma InsertedElements<T>(xs: seq<Keyed<T>>, e: Keyed<T>)
    ensures multiset(Inserted(xs, e)) == multiset(xs) + multiset{e}
  {
    var p := Position(xs, e.key);
    assert xs == xs[..p] + xs[p..];
  }

  class ListElement<T> {
    var next: ListElement?<T>
    const key: int
    const item: T

    constructor (item: T, sortKey: int)
      ensures this.item == item && key == sortKey && next == null
    {
      this.item, key, next := item, sortKey, null;
    }
  }

  ghost function Items<T>(spine: seq<ListElement<T>>): (xs: seq<Keyed<T>>)
    ensures |xs| == |spine|
  {
    seq(|spine|, i requires 0 <= i < |spine| => Keyed(spine[i].key, spine[i].item))
  }

  ghost function NextIn<T>(spine: seq<ListElement<T>>, i: nat): ListElement?<T> {
    if i + 1 < |spine| then spine[i + 1] else null
  }

  ghost predicate NoRepeat<T>(spine: seq<ListElement<T>>) {
    forall i, j :: 0 <= i < j < |spine| ==> spine[i] != spine[j]
  }

  ghost function Spliced<T>(spine: seq<ListElement<T>>, at: nat, e: ListElement<T>): seq<ListElement<T>>
    requires at <= |spine|
  {
    spine[..at] + [e] + spine[at..]
  }

  lemma SpliceIn<T>(spine: seq<ListElement<T>>, at: nat, e: ListElement<T>)
    requires NoRepeat(spine) && at <= |spine| && e !in spine
    ensures NoRepeat(spine[..at] + [e] + spine[at..])
    ensures Items(spine[..at] + [e] + spine[at..]) == Items(spine)[..at] + [Keyed(e.key, e.item)] + Items(spine)[at..]
  {
    var after := spine[..at] + [e] + spine[at..];
    assert forall i :: 0 <= i < |after| ==>
      after[i] == if i < at then spine[i] else if i == at then e else spine[i - 1];
    forall i, j | 0 <= i < j < |after| ensures after[i] != after[j] {
      if i != at && j != at { assert spine[if i < at then i else i - 1] != spine[if j < at then j else j - 1]; }
    }
  }

  lemma SplicedAt<T>(spine: seq<ListElement<T>>, at: nat, e: ListElement<T>, i: nat)
    requires NoRepeat(spine) && 1 <= at < |spine| && i <= |spine|
    ensures var after := Spliced(spine, at, e);
      && |after| == |spine| + 1
      && after[i] == (if i < at then spine[i] else if i == at then e else spine[i - 1])
      && (i != at && i != at - 1 ==> after[i] != spine[at - 1])
      && NextIn(after, i) == if i == at - 1 then e else if i < at then NextIn(spine, i) else NextIn(spine, i - 1)
  {
  }

  lemma SpliceOut<T>(spine: seq<ListElement<T>>, at: nat)
    requires NoRepeat(spine) && at < |spine|
    ensures NoRepeat(spine[..at] + spine[at + 1..])
    ensures Items(spine[..at] + spine[at + 1..]) == Items(spine)[..at] + Items(spine)[at + 1..]
  {
  }

  class List<T(==)> {
    var first: ListElement?<T>
    var last: ListElement?<T>
    var numInList: int
    ghost var spine: seq<ListElement<T>>

    ghost predicate Valid()
      reads this, spine
    {
      && numInList == |spine|
      && first == (if spine == [] then null else spine[0])
      && last == (if spine == [] then null else spine[|spine| - 1])
      && NoRepeat(spine)
      && (forall i :: 0 <= i < |spine| ==> spine[i].next == NextIn(spine, i))
    }

    ghost function Contents(): (xs: seq<Keyed<T>>)
      reads this
      ensures |xs| == |spine|
    {
      Items(spine)
    }

    constructor ()
      ensures Valid() && Contents() == [] && spine == []
    {
      first, last, numInList, spine := null, null, 0, [];
    }

    predicate IsEmpty()
      requires Valid()
      reads this, spine
      ensures IsEmpty() <==> Contents() == []
    {
      first == null
    }

    method Append(item: T)
      requires Valid()
      modifies this, last
      ensures Valid() && Contents() == old(Contents()) + [Keyed(0, item)]
      ensures |spine| == |old(spine)| + 1 && spine[..|old(spine)|] == old(spine) && fresh(spine[|old(spine)|])
    {
      var element := new ListElement(item, 0);
      if IsEmpty() {
        first := element;
        last := element;
        numInList := numInList + 1;
        spine := [element];
      } else {
        LinkLast(element);
      }
    }

    method Prepend(item: T)
      requires Valid()
      modifies this
      ensures Valid() && Contents() == [Keyed(0, item)] + old(Contents())
      ensures |spine| == |old(spine)| + 1 && spine[1..] == old(spine) && fresh(spine[0])
    {
      var element := new ListElement(item, 0);
      if IsEmpty() {
        first := element;
        last := element;
      } else {
        element.next := first;
        first := element;
      }
      numInList := numInList + 1;
      spine := [element] + spine;
    }

    method SortedInsert(item: T, sortKey: int) returns (ghost e: ListElement<T>)
      requires Valid()
      modifies this, spine
      ensures Valid() && Contents() == Inserted(old(Contents()), Keyed(sortKey, item))
      ensures fresh(e) && spine == Spliced(old(spine), Position(old(Contents()), sortKey), e)
    {
      var element := new ListElement(item, sortKey);
      e := element;
      ghost var xs, at := Contents(), 0;
      if IsEmpty() {
        first := element;
        last := element;
        numInList := numInList + 1;
        spine := [element];
      } else if sortKey < first.key {
        SpliceIn(spine, 0, element);
        element.next := first;
        first := element;
        numInList := numInList + 1;
        spine := [element] + spine;
      } else {
        var ptr;
        ptr, at := FindPlace(sortKey);
        if ptr.next != null {
          LinkAfter(ptr, at, element);
        } else {
          LinkLast(element);
        }
      }
      PositionUnique(xs, sortKey, at);
    }

    /** The last element before the place of sortKey, which is not the front. */
    method FindPlace(sortKey: int) returns (ptr: ListElement<T>, ghost at: nat)
      requires Valid() && spine != [] && spine[0].key <= sortKey
      ensures 1 <= at <= |spine| && ptr == spine[at - 1]
      ensures forall i :: 0 <= i < at ==> Contents()[i].key <= sortKey
      ensures at < |spine| ==> sortKey < Contents()[at].key
    {
      ptr, at := first, 1;
      while ptr.next != null && !(sortKey < ptr.next.key)
        invariant 1 <= at <= |spine| && ptr == spine[at - 1]
        invariant forall i :: 0 <= i < at ==> spine[i].key <= sortKey
        decreases |spine| - at
      {
        ptr := ptr.next;
        at := at + 1;
      }
    }

    method LinkAfter(ptr: ListElement<T>, ghost at: nat, element: ListElement<T>)
      requires Valid() && 1 <= at < |spine| && ptr == spine[at - 1]
      requires element !in spine
      modifies this, ptr, element
      ensures Valid() && spine == Spliced(old(spine), at, element)
      ensures Contents() == old(Contents())[..at] + [Keyed(element.key, element.item)] + old(Contents())[at..]
    {
      SpliceIn(spine, at, element);
      ghost var after := Spliced(spine, at, element);
      ghost var was := spine;
      hide NoRepeat, Spliced, Items, NextIn;
      element.next := ptr.next;
      ptr.next := element;
      numInList := numInList + 1;
      spine := after;
      forall i | 0 <= i < |after| ensures after[i].next == NextIn(after, i) {
        SplicedAt(was, at, element, i);
      }
      SplicedAt(was, at, element, 0);
      SplicedAt(was, at, element, |was|);
    }

    method LinkLast(element: ListElement<T>)
      requires Valid() && spine != []
      requires element !in spine && element.next == null
      modifies this, last
      ensures Valid() && spine == Spliced(old(spine), |old(spine)|, element)
      ensures Contents() == old(Contents()) + [Keyed(element.key, element.item)]
    {
      last.next := element;
      last := element;
      numInList := numInList + 1;
      spine := spine + [element];
    }

    /** The first element with its key, or null when the list is empty. */
    method SortedRemove() returns (thing: ListElement?<T>)
      requires Valid()
      modifies this
      ensures Valid()
      ensures thing == null <==> old(Contents()) == []
      ensures thing == null ==> spine == []
      ensures thing != null ==> Keyed(thing.key, thing.item) == old(Contents())[0] && Contents() == old(Contents())[1..]
      ensures thing != null ==> spine == old(spine)[1..]
    {
      thing := first;
      if IsEmpty() {
        return null;
      }
      if first == last {
        first := null;
        last := null;
      } else {
        first := first.next;
      }
      numInList := numInList - 1;
      spine := spine[1..];
    }

    /** Takes out the first occurrence of item. The result is false where the source stops because there is none. */
    method Remove(item: T) returns (found: bool)
      requires Valid() && Contents() != []
      modifies this, spine
      ensures Valid()
      ensures found <==> Holds(old(Contents()), item)
      ensures Contents() == Without(old(Contents()), item)
      ensures forall n :: n in spine ==> n in old(spine)
    {
      ghost var xs := Contents();
      if item == first.item {
        var _ := SortedRemove();
        assert xs[0].item == item;
        return true;
      }
      var prev: ListElement<T>, ptr := first, first.next;
      ghost var at := 1;
      while ptr != null && item != ptr.item
        invariant 1 <= at <= |spine| && prev == spine[at - 1]
        invariant ptr == if at < |spine| then spine[at] else null
        invariant forall i :: 0 <= i < at ==> xs[i].item != item
        decreases |spine| - at
      {
        prev := ptr;
        ptr := ptr.next;
        at := at + 1;
      }
      found := ptr != null;
      if found {
        assert xs[at].item == item;
        WithoutFirst(xs, item, at);
        Unlink(prev, ptr, at);
      } else {
        WithoutNothing(xs, item);
      }
    }

    method Unlink(prev: ListElement<T>, ptr: ListElement<T>, ghost at: nat)
      requires Valid() && 1 <= at < |spine| && prev == spine[at - 1] && ptr == spine[at]
      modifies this, prev
      ensures Valid() && spine == old(spine)[..at] + old(spine)[at + 1..]
      ensures Contents() == old(Contents())[..at] + old(Contents())[at + 1..]
    {
      SpliceOut(spine, at);
      hide NoRepeat;
      prev.next := ptr.next;
      if prev.next == null {
        last := prev;
      }
      numInList := numInList - 1;
      spine := spine[..at] + spine[at + 1..];
    }
  }

  lemma {:induction false} WithoutNothing<T>(xs: seq<Keyed<T>>, item: T)
    requires !Holds(xs, item)
    ensures Without(xs, item) == xs
  {
    if xs != [] {
      assert xs[0].item != item;
      forall i | 0 <= i < |xs[1..]| ensures xs[1..][i].item != item { assert xs[1..][i] == xs[i + 1]; }
      WithoutNothing(xs[1..], item);
    }
  }
}
