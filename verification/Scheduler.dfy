/** threads/scheduler.cc: the ready list. */
module Schedulers {
  import opened Lists
  import opened Semaphores

  /** stamps[i] says when entry i became ready. Lower keys go first, and earlier arrivals among equal keys. */
  ghost predicate Before(xs: seq<Keyed<Thread>>, stamps: seq<nat>, i: nat, j: nat)
    requires i < |xs| == |stamps| && j < |xs|
  {
    xs[i].key < xs[j].key || (xs[i].key == xs[j].key && stamps[i] < stamps[j])
  }

  ghost predicate Fair(xs: seq<Keyed<Thread>>, stamps: seq<nat>, clock: nat) {
    && |xs| == |stamps|
    && (forall i :: 0 <= i < |stamps| ==> stamps[i] < clock)
    && forall i, j {:trigger Before(xs, stamps, i, j)} :: 0 <= i < j < |xs| ==> Before(xs, stamps, i, j)
  }

  ghost function Stamped(xs: seq<Keyed<Thread>>, stamps: seq<nat>, key: int, clock: nat): seq<nat>
    requires |xs| == |stamps|
  {
    stamps[..Position(xs, key)] + [clock] + stamps[Position(xs, key)..]
  }

  lemma StampedAt(xs: seq<Keyed<Thread>>, stamps: seq<nat>, key: int, clock: nat, i: nat)
    requires |xs| == |stamps| && i <= |xs|
    ensures |Stamped(xs, stamps, key, clock)| == |xs| + 1
    ensures var p := Position(xs, key);
      Stamped(xs, stamps, key, clock)[i] == if i < p then stamps[i] else if i == p then clock else stamps[i - 1]
  {
  }

  lemma InsertBefore(xs: seq<Keyed<Thread>>, stamps: seq<nat>, clock: nat, e: Keyed<Thread>, i: nat, j: nat)
    requires Fair(xs, stamps, clock) && i < j <= |xs|
    ensures |Inserted(xs, e)| == |Stamped(xs, stamps, e.key, clock)| == |xs| + 1
    ensures Before(Inserted(xs, e), Stamped(xs, stamps, e.key, clock), i, j)
  {
    var p := Position(xs, e.key);
    hide Position, Inserted, Stamped;
    InsertedAt(xs, e, i);
    InsertedAt(xs, e, j);
    StampedAt(xs, stamps, e.key, clock, i);
    StampedAt(xs, stamps, e.key, clock, j);
    if i == p {
      assert p < j - 1 ==> Before(xs, stamps, p, j - 1);
    } else if j != p {
      assert Before(xs, stamps, if i < p then i else i - 1, if j < p then j else j - 1) || i == j - 1;
    }
  }

  /** Becoming ready keeps the order. */
  lemma FairInsert(xs: seq<Keyed<Thread>>, stamps: seq<nat>, clock: nat, e: Keyed<Thread>)
    requires Fair(xs, stamps, clock)
    ensures Fair(Inserted(xs, e), Stamped(xs, stamps, e.key, clock), clock + 1)
  {
    var ys, later := Inserted(xs, e), Stamped(xs, stamps, e.key, clock);
    hide Position, Inserted, Stamped, Before;
    InsertedAt(xs, e, 0);
    StampedAt(xs, stamps, e.key, clock, 0);
    forall i | 0 <= i < |later| ensures later[i] < clock + 1 {
      StampedAt(xs, stamps, e.key, clock, i);
    }
    forall i, j | 0 <= i < j < |ys| ensures Before(ys, later, i, j) {
      InsertBefore(xs, stamps, clock, e, i, j);
    }
  }

  /** Taking the head leaves the rest in order. */
  lemma FairTail(xs: seq<Keyed<Thread>>, stamps: seq<nat>, clock: nat)
    requires Fair(xs, stamps, clock) && xs != []
    ensures Fair(xs[1..], stamps[1..], clock)
    ensures forall j :: 0 < j < |xs| ==> Before(xs, stamps, 0, j)
  {
    forall i, j | 0 <= i < j < |xs[1..]| ensures Before(xs[1..], stamps[1..], i, j) {
      assert Before(xs, stamps, i + 1, j + 1);
    }
  }

  class Scheduler {
    const readyList: List<Thread>
    ghost var stamps: seq<nat>
    ghost var clock: nat

    ghost predicate Valid()
      reads this, readyList, readyList.spine
    {
      readyList.Valid() && Fair(readyList.Contents(), stamps, clock)
    }

    constructor ()
      ensures Valid() && fresh(readyList) && readyList.spine == []
    {
      readyList := new List();
      stamps, clock := [], 0;
    }

    method ReadyToRun(thread: Thread, priority: int)
      requires Valid()
      modifies this, readyList, readyList.spine
      ensures Valid() && clock == old(clock) + 1
      ensures readyList.Contents() == Inserted(old(readyList.Contents()), Keyed(priority, thread))
      ensures stamps == Stamped(old(readyList.Contents()), old(stamps), priority, old(clock))
    {
      FairInsert(readyList.Contents(), stamps, clock, Keyed(priority, thread));
      hide Fair;
      ghost var before := readyList.Contents();
      ghost var e := readyList.SortedInsert(thread, priority);
      stamps, clock := Stamped(before, stamps, priority, clock), clock + 1;
    }

    /** Takes the thread with the least key and, among equals, the one that became ready first. */
    method FindNextToRun() returns (next: ListElement?<Thread>)
      requires Valid()
      modifies this, readyList
      ensures Valid() && clock == old(clock)
      ensures next == null <==> old(readyList.Contents()) == []
      ensures next != null ==>
        && Keyed(next.key, next.item) == old(readyList.Contents())[0]
        && readyList.Contents() == old(readyList.Contents())[1..] && stamps == old(stamps)[1..]
        && forall j :: 0 < j < |old(readyList.Contents())| ==> Before(old(readyList.Contents()), old(stamps), 0, j)
    {
      if !readyList.IsEmpty() {
        FairTail(readyList.Contents(), stamps, clock);
      }
      hide Fair, Before;
      next := readyList.SortedRemove();
      if next != null {
        stamps := stamps[1..];
      }
    }
  }
}
