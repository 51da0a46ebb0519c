/** threads/synch.cc, Semaphore: one pass of P's loop and V, each with interrupts off. */
module Semaphores {
  import opened Collections
  import opened Lists

  type Thread = nat

  /** value and queue are the source's fields; woken holds the threads that V made ready and that have not yet
      looked at the value again. */
  datatype Sema = Sema(value: int, queue: seq<Thread>, woken: set<Thread>)

  /** No wake-up is lost: sleepers remain only while every unit of the value is spoken for by a woken thread. */
  ghost predicate SemaOk(s: Sema) {
    && s.value >= 0
    && NoDup(s.queue)
    && (forall t :: t in s.queue ==> t !in s.woken)
    && (s.queue != [] ==> s.value <= |s.woken|)
  }

  function NewSema(initialValue: nat): Sema {
    Sema(initialValue, [], {})
  }

  /** Whether the pass of P's loop that t makes now gets through. */
  predicate Passes(s: Sema) {
    s.value != 0
  }

  /** One pass of P's loop by t: take a unit, or join the queue. */
  function Attempt(s: Sema, t: Thread): Sema {
    if Passes(s) then Sema(s.value - 1, s.queue, s.woken - {t})
    else Sema(s.value, s.queue + [t], s.woken - {t})
  }

  function V(s: Sema): Sema {
    if s.queue == [] then Sema(s.value + 1, s.queue, s.woken)
    else Sema(s.value + 1, s.queue[1..], s.woken + {s.queue[0]})
  }

  lemma AttemptOk(s: Sema, t: Thread)
    requires SemaOk(s) && t !in s.queue
    ensures SemaOk(Attempt(s, t))
  {
    if t in s.woken {
      assert s.woken == (s.woken - {t}) + {t};
    } else {
      assert s.woken - {t} == s.woken;
    }
  }

  lemma VOk(s: Sema)
    requires SemaOk(s)
    ensures SemaOk(V(s))
  {
    if s.queue != [] {
      var head := s.queue[0];
      assert head in s.queue;
      forall t | t in s.queue[1..] ensures t != head && t in s.queue {
        var i :| 0 <= i < |s.queue[1..]| && s.queue[1..][i] == t;
        assert s.queue[i + 1] == t;
      }
    }
  }

  lemma PopHead(ts: seq<Thread>)
    requires NoDup(ts) && ts != []
    ensures NoDup(ts[1..]) && ts[0] in ts && ts[0] !in ts[1..]
    ensures forall t :: t in ts[1..] <==> t in ts && t != ts[0]
  {
    assert ts == [ts[0]] + ts[1..];
  }

  /** The threads inside P of a semaphore: in its queue, or woken from it. */
  ghost predicate WaitersOk(s: Sema, waiters: set<Thread>) {
    SemaOk(s) && forall t :: t in waiters <==> t in s.queue || t in s.woken
  }

  lemma WaitersAttempt(s: Sema, waiters: set<Thread>, t: Thread)
    requires WaitersOk(s, waiters) && (t in waiters ==> t in s.woken)
    ensures WaitersOk(Attempt(s, t), if Passes(s) then waiters - {t} else waiters + {t})
    ensures Passes(s) ==> s.value > 0
  {
    AttemptOk(s, t);
    hide SemaOk;
  }

  lemma WaitersUp(s: Sema, waiters: set<Thread>)
    requires WaitersOk(s, waiters)
    ensures WaitersOk(V(s), waiters)
  {
    VOk(s);
    assert s.queue != [] ==> s.queue == [s.queue[0]] + s.queue[1..];
    hide SemaOk;
  }

  /** A pass may come at any time and from any thread that is not in the queue; so may a V. */
  datatype SemaEvent = Pass(t: Thread) | Up

  predicate SemaRuns(s: Sema, es: seq<SemaEvent>)
    decreases es
  {
    es == [] ||
    match es[0]
    case Pass(t) => t !in s.queue && SemaRuns(Attempt(s, t), es[1..])
    case Up => SemaRuns(V(s), es[1..])
  }

  function SemaAfter(s: Sema, es: seq<SemaEvent>): Sema
    decreases es
  {
    if es == [] then s
    else SemaAfter(match es[0] case Pass(t) => Attempt(s, t) case Up => V(s), es[1..])
  }

  function Ups(es: seq<SemaEvent>): nat {
    if es == [] then 0 else (if es[0].Up? then 1 else 0) + Ups(es[1..])
  }

  /** How many passes got through. */
  function Taken(s: Sema, es: seq<SemaEvent>): nat
    decreases es
  {
    if es == [] then 0
    else match es[0]
      case Pass(t) => (if Passes(s) then 1 else 0) + Taken(Attempt(s, t), es[1..])
      case Up => Taken(V(s), es[1..])
  }

  /** In every interleaving the invariant holds and units are conserved. */
  lemma {:induction false} SemaphoreRuns(s: Sema, es: seq<SemaEvent>)
    requires SemaOk(s) && SemaRuns(s, es)
    ensures SemaOk(SemaAfter(s, es))
    ensures SemaAfter(s, es).value + Taken(s, es) == s.value + Ups(es)
    decreases es
  {
    hide SemaOk;
    if es != [] {
      match es[0]
      case Pass(t) => AttemptOk(s, t); SemaphoreRuns(Attempt(s, t), es[1..]);
      case Up => VOk(s); SemaphoreRuns(V(s), es[1..]);
    }
  }

  /** The threads that went to sleep, and those that a V woke, in order. */
  function Joined(s: Sema, es: seq<SemaEvent>): seq<Thread>
    decreases es
  {
    if es == [] then []
    else match es[0]
      case Pass(t) => (if s.value == 0 then [t] else []) + Joined(Attempt(s, t), es[1..])
      case Up => Joined(V(s), es[1..])
  }

  function WokenUp(s: Sema, es: seq<SemaEvent>): seq<Thread>
    decreases es
  {
    if es == [] then []
    else match es[0]
      case Pass(t) => WokenUp(Attempt(s, t), es[1..])
      case Up => (if s.queue == [] then [] else [s.queue[0]]) + WokenUp(V(s), es[1..])
  }

  /** In every interleaving sleepers are woken in the order in which they came: those woken and those still asleep are
      all who went to sleep. */
  lemma {:induction false} SemaphoresAreFair(s: Sema, es: seq<SemaEvent>)
    ensures s.queue + Joined(s, es) == WokenUp(s, es) + SemaAfter(s, es).queue
    decreases es
  {
    if es != [] {
      match es[0]
      case Pass(t) =>
        SemaphoresAreFair(Attempt(s, t), es[1..]);
        if s.value == 0 { assert (s.queue + [t]) + Joined(Attempt(s, t), es[1..]) == s.queue + Joined(s, es); }
      case Up =>
        SemaphoresAreFair(V(s), es[1..]);
        if s.queue != [] {
          assert s.queue + Joined(s, es) == [s.queue[0]] + (s.queue[1..] + Joined(V(s), es[1..]));
        }
    }
  }

  function Untag(xs: seq<Keyed<Thread>>): (ts: seq<Thread>)
    ensures |ts| == |xs|
  {
    seq(|xs|, i requires 0 <= i < |xs| => xs[i].item)
  }

  /** The object itself, on the kernel's linked list. */
  class Semaphore {
    var value: int
    const queue: List<Thread>
    ghost var woken: set<Thread>

    ghost function View(): Sema
      reads this, queue
    {
      Sema(value, Untag(queue.Contents()), woken)
    }

    ghost predicate Valid()
      reads this, queue, queue.spine
    {
      queue.Valid() && SemaOk(View())
    }

    constructor (initialValue: nat)
      ensures Valid() && fresh(queue) && View() == NewSema(initialValue) && queue.spine == []
    {
      value := initialValue;
      queue := new List();
      woken := {};
    }

    /** One pass of P's loop: true when P returns, false when the caller goes to sleep in the queue. */
    method PassP(currentThread: Thread) returns (through: bool)
      requires Valid() && currentThread !in View().queue
      modifies this, queue, queue.last
      ensures Valid() && View() == Attempt(old(View()), currentThread)
      ensures through <==> Passes(old(View()))
    {
      AttemptOk(View(), currentThread);
      ghost var before := View();
      through := value != 0;
      if !through {
        queue.Append(currentThread);
      } else {
        value := value - 1;
      }
      woken := woken - {currentThread};
      assert View().queue == Attempt(before, currentThread).queue;
    }

    /** The thread to make ready, if any. */
    method Vee() returns (thread: ListElement?<Thread>)
      requires Valid()
      modifies this, queue
      ensures Valid() && View() == V(old(View()))
      ensures thread == null <==> old(View()).queue == []
      ensures thread != null ==> thread.item == old(View()).queue[0]
    {
      VOk(View());
      ghost var before := View();
      thread := queue.SortedRemove();
      if thread != null {
        woken := woken + {thread.item};
      }
      value := value + 1;
      assert View().queue == V(before).queue;
    }
  }
}
