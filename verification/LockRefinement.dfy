/** The locks of the thread machine are the mutexes that the protocols are built on: every event either leaves a
    lock alone or is one Acquired or Released of it. */
module LockRefinement {
  import opened Collections
  import opened Lists
  import opened Semaphores
  import opened ThreadMachine
  import Mutexes

  /** The threads in P of a semaphore. */
  ghost function Waiters(x: Sema): set<Thread> {
    (set t | t in x.queue) + x.woken
  }

  ghost predicate HasLock(m: Machine, l: nat) {
    OfLock(l) in m.sems && l in m.owners
  }

  ghost function View(m: Machine, l: nat): Mutexes.Mutex
    requires HasLock(m, l)
  {
    Mutexes.Mutex(m.sems[OfLock(l)], m.owners[l], Waiters(m.sems[OfLock(l)]))
  }

  lemma LockExists(m: Machine, l: nat)
    requires Inv(m)
    ensures l in m.owners <==> OfLock(l) in m.sems
    ensures l in m.owners ==> l in m.holder && m.owners[l] == HeldBy(m.holder[l])
    ensures l in m.owners ==> m.sems[OfLock(l)].value + |m.owners[l]| == 1
  {
    hide TcbsOk, ReadyOk, SemsOk, CondsOk, TableOk;
  }

  // ---------------------------------------------------------------------------
  // Being inside Acquire

  /** Inside Acquire of l, or in Wait and going to call it. */
  predicate Inside(k: Kont, l: nat) {
    k == Recheck(OfLock(l)) || k == Reacquire(l)
  }

  /** No thread that has the lock is inside Acquire of it. */
  ghost predicate Apart(m: Machine, l: nat) {
    l in m.owners && forall t :: t in m.owners[l] && t in m.threads ==> !Inside(m.threads[t].kont, l)
  }

  /** Nothing happens to lock l, and no thread gets inside its Acquire. */
  ghost predicate Calm(m: Machine, r: Machine, l: nat) {
    && HasLock(m, l) && HasLock(r, l)
    && r.sems[OfLock(l)] == m.sems[OfLock(l)] && r.owners[l] == m.owners[l]
    && forall t :: t in r.threads && Inside(r.threads[t].kont, l) ==> t in m.threads && Inside(m.threads[t].kont, l)
  }

  lemma CalmTwice(a: Machine, b: Machine, c: Machine, l: nat)
    requires Calm(a, b, l) && Calm(b, c, l)
    ensures Calm(a, c, l)
  {
  }

  lemma CalmUpdate(m: Machine, r: Machine, t: Thread, k: Tcb, l: nat)
    requires HasLock(m, l) && HasLock(r, l)
    requires r.sems[OfLock(l)] == m.sems[OfLock(l)] && r.owners[l] == m.owners[l]
    requires r.threads == m.threads[t := k]
    requires Inside(k.kont, l) ==> t in m.threads && Inside(m.threads[t].kont, l)
    ensures Calm(m, r, l)
  {
  }

  lemma MadeReadyCalm(m: Machine, t: Thread, l: nat)
    requires HasLock(m, l) && t in m.threads
    ensures Calm(m, MakeReady(m, t), l)
  {
    hide Inserted;
    CalmUpdate(m, MakeReady(m, t), t, m.threads[t].(status := Ready, place := OnReady), l);
  }

  lemma SwitchedCalm(m: Machine, next: Thread, l: nat)
    requires HasLock(m, l) && next in m.threads && Buriable(m)
    ensures Calm(m, Switched(m, next), l)
  {
    var k := m.threads[next];
    var threads := m.threads[next := k.(status := Running, place := Nowhere)];
    var m' := m.(current := next, mode := Resumes, threads := threads);
    CalmUpdate(m, m', next, k.(status := Running, place := Nowhere), l);
    assert Calm(m', Buried(m'), l);
    CalmTwice(m, m', Buried(m'), l);
  }

  lemma YieldedCalm(m: Machine, l: nat)
    requires m.current in m.threads && m.ready != [] && m.ready[0].item in m.threads && Buriable(m) && HasLock(m, l)
    ensures Calm(m, Yielded(m), l)
  {
    hide Switched, Inserted, Calm;
    var k := m.threads[m.current];
    var m1 := m.(ready := m.ready[1..], threads := m.threads[m.current := k.(kont := Onward)]);
    CalmUpdate(m, m1, m.current, k.(kont := Onward), l);
    MadeReadyCalm(m1, m.current, l);
    var m2 := MakeReady(m1, m.current);
    CalmTwice(m, m1, m2, l);
    SwitchedCalm(m2, m.ready[0].item, l);
    CalmTwice(m, m2, Yielded(m), l);
  }

  lemma DispatchedCalm(m: Machine, l: nat)
    requires m.ready != [] && m.ready[0].item in m.threads && Buriable(m) && HasLock(m, l)
    ensures Calm(m, Dispatched(m), l)
  {
    hide Switched;
    var m' := m.(ready := m.ready[1..]);
    SwitchedCalm(m', m.ready[0].item, l);
    CalmTwice(m, m', Dispatched(m), l);
  }

  lemma UppedCalm(m: Machine, s: SemId, l: nat)
    requires HasLock(m, l) && s != OfLock(l)
    requires s in m.sems && (m.sems[s].queue != [] ==> m.sems[s].queue[0] in m.threads)
    ensures Calm(m, Upped(m, s), l)
  {
    var m' := m.(sems := m.sems[s := V(m.sems[s])]);
    if m.sems[s].queue != [] {
      MadeReadyCalm(m', m.sems[s].queue[0], l);
      CalmTwice(m, m', Upped(m, s), l);
    }
  }

  lemma PassedCalm(m: Machine, s: SemId, l: nat)
    requires Inv(m) && MayPass(m, s) && HasLock(m, l) && s != OfLock(l)
    ensures (s.OfLock? ==> s.l in m.owners) && Calm(m, Passed(m, s), l)
  {
    hide Inv;
    PassedKeeps(m, s);
    CalmUpdate(m, Passed(m, s), m.current, Passed(m, s).threads[m.current], l);
  }

  lemma ReleasedCalm(m: Machine, other: nat, l: nat)
    requires Inv(m) && HoldsLock(m, other) && HasLock(m, l) && other != l
    ensures OfLock(other) in m.sems
    ensures m.sems[OfLock(other)].queue != [] ==> m.sems[OfLock(other)].queue[0] in m.threads
    ensures Calm(m, Released(m, other), l)
  {
    hide Inv, Upped;
    ReleasedKeeps(m, other);
    var owners := m.owners[other := m.owners[other] - {m.current}];
    var m' := m.(holder := m.holder[other := None], owners := owners);
    UppedCalm(m', OfLock(other), l);
    CalmTwice(m, m', Released(m, other), l);
  }

  lemma WaitedCalm(m: Machine, c: nat, other: nat, l: nat)
    requires Inv(m) && HoldsLock(m, other) && c in m.conds && HasLock(m, l) && other != l
    ensures Calm(m, Next(m, Wait(c, other)), l)
  {
    hide Inv;
    ReleasedKeeps(m, other);
    ReleasedCalm(m, other, l);
    var m' := Released(m, other);
    assert m'.conds == m.conds;
    hide Released;
    WaitingKeeps(m', c, other);
    CalmUpdate(m', Waiting(m', c, other), m'.current, Waiting(m', c, other).threads[m'.current], l);
    CalmTwice(m, m', Waiting(m', c, other), l);
  }

  lemma SignalledCalm(m: Machine, c: nat, l: nat)
    requires HasLock(m, l) && c in m.conds && (m.conds[c] != [] ==> m.conds[c][0] in m.threads)
    ensures Calm(m, Signalled(m, c), l)
  {
    if m.conds[c] != [] {
      var m' := m.(conds := m.conds[c := m.conds[c][1..]]);
      MadeReadyCalm(m', m.conds[c][0], l);
      CalmTwice(m, m', Signalled(m, c), l);
    }
  }

  lemma {:induction false} EmptiedCalm(m: Machine, c: nat, l: nat)
    requires Inv(m) && c in m.conds && HasLock(m, l)
    ensures Calm(m, Emptied(m, c), l)
    decreases |m.conds[c]|
  {
    hide Inv;
    SignalledKeeps(m, c);
    if m.conds[c] != [] {
      SignalledCalm(m, c, l);
      EmptiedCalm(Signalled(m, c), c, l);
      CalmTwice(m, Signalled(m, c), Emptied(m, c), l);
    }
  }

  lemma ResumedCalm(m: Machine, l: nat)
    requires Inv(m) && m.mode == Resumes && HasLock(m, l)
    requires m.current in m.threads ==> !Inside(m.threads[m.current].kont, l)
    ensures Calm(m, Resumed(m), l)
  {
    hide Inv, Passed, Calm;
    ResumesWell(m);
    match m.threads[m.current].kont {
      case Recheck(s) => PassedCalm(m, s, l);
      case Reacquire(k) => PassedCalm(m, OfLock(k), l);
      case Fresh => CalmUpdate(m, Onwards(m), m.current, m.threads[m.current].(kont := Onward), l);
      case Onward => CalmUpdate(m, Onwards(m), m.current, m.threads[m.current].(kont := Onward), l);
    }
  }

  // ---------------------------------------------------------------------------
  // Acquire and Release

  /** e is a pass of the loop in Acquire's P, entered by Acquire, resumed in it, or reached from Wait. */
  ghost predicate Locks(m: Machine, e: Event, l: nat) {
    || e == Acquire(l)
    || (e == Resume && m.current in m.threads && Inside(m.threads[m.current].kont, l))
  }

  predicate Unlocks(e: Event, l: nat) {
    (e.Release? || e.Wait?) && e.l == l
  }

  lemma OtherCalm(m: Machine, e: Event, l: nat)
    requires Inv(m) && Enabled(m, e) && HasLock(m, l) && !Locks(m, e, l) && !Unlocks(e, l)
    ensures Calm(m, Next(m, e), l)
  {
    hide Inv, Passed, Upped, Released, Waiting, Signalled, Emptied, Resumed, MakeReady, FirstFree, Yielded,
      Dispatched;
    match e {
      case Create(t, priority) =>
        CalmUpdate(m, Created(m, t, priority), t, Tcb(JustCreated, priority, FirstFree(m.table), Fresh, Nowhere), l);
      case Fork(t) => MadeReadyCalm(m, t, l);
      case Yield => if m.ready != [] { YieldedKeeps(m); YieldedCalm(m, l); } else { assert Calm(m, m, l); }
      case Finish =>
        FinishedKeeps(m);
        CalmUpdate(m, Finished(m), m.current, Finished(m).threads[m.current], l);
      case P(n) => RunnerPasses(m, User(n)); PassedCalm(m, User(n), l);
      case Up(n) => UppedKeeps(m, n); UppedCalm(m, User(n), l);
      case Acquire(k) => RunnerPasses(m, OfLock(k)); PassedCalm(m, OfLock(k), l);
      case Release(k) => ReleasedCalm(m, k, l);
      case Wait(c, k) => WaitedCalm(m, c, k, l);
      case Signal(c, _) => SignalledKeeps(m, c); SignalledCalm(m, c, l);
      case Broadcast(c, _) => EmptiedCalm(m, c, l);
      case Dispatch => DispatchedKeeps(m); DispatchedCalm(m, l);
      case Resume => ResumedCalm(m, l);
    }
  }

  /** The current thread is not in the queue it is going to join. */
  lemma PasserNotQueued(m: Machine, s: SemId)
    requires Inv(m) && MayPass(m, s)
    ensures m.current !in m.sems[s].queue
    ensures m.current in m.sems[s].woken <==> m.threads[m.current].kont == Recheck(s)
  {
    hide ReadyOk, CondsOk, LocksOk, TableOk;
    TcbFact(m.current, m.mode, m.threads, m.current);
    assert SemLists(m.sems[s], s, m.threads);
  }

  lemma WaitersAfterPass(x: Sema, t: Thread)
    requires t !in x.queue
    ensures Waiters(Attempt(x, t)) == if Passes(x) then Waiters(x) - {t} else Waiters(x) + {t}
  {
  }

  lemma PassedApart(m: Machine, l: nat)
    requires HasLock(m, l) && m.current in m.threads
    ensures Apart(m, l) && m.current !in m.owners[l] ==> Apart(Passed(m, OfLock(l)), l)
    ensures var r := Passed(m, OfLock(l)); var x := m.sems[OfLock(l)];
      && HasLock(r, l) && r.sems[OfLock(l)] == Attempt(x, m.current)
      && r.owners[l] == if Passes(x) then m.owners[l] + {m.current} else m.owners[l]
  {
  }

  lemma PassedView(m: Machine, l: nat)
    requires Inv(m) && HasLock(m, l) && MayPass(m, OfLock(l))
    ensures HasLock(Passed(m, OfLock(l)), l)
    ensures View(Passed(m, OfLock(l)), l) == Mutexes.Acquired(View(m, l), m.current)
    ensures m.current in View(m, l).waiting ==> Mutexes.MayRetry(View(m, l), m.current)
    ensures Apart(m, l) && m.current !in m.owners[l] ==> Apart(Passed(m, OfLock(l)), l)
  {
    hide Inv, Apart, TcbsOk, ReadyOk, SemsOk, CondsOk, LocksOk, TableOk;
    PasserNotQueued(m, OfLock(l));
    var x, t := m.sems[OfLock(l)], m.current;
    WaitersAfterPass(x, t);
    PassedApart(m, l);
    hide Waiters, Attempt, Passed;
  }

  lemma WaitersAfterV(x: Sema)
    ensures Waiters(V(x)) == Waiters(x)
  {
    if x.queue != [] { assert x.queue == [x.queue[0]] + x.queue[1..]; }
  }

  lemma ReleasedView(m: Machine, l: nat)
    requires Inv(m) && HoldsLock(m, l) && HasLock(m, l)
    ensures m.sems[OfLock(l)].queue != [] ==> m.sems[OfLock(l)].queue[0] in m.threads
    ensures HasLock(Released(m, l), l) && m.current in m.owners[l]
    ensures View(Released(m, l), l) == Mutexes.Released(View(m, l), m.current)
    ensures Apart(m, l) ==> Apart(Released(m, l), l)
    ensures m.current !in Released(m, l).owners[l]
  {
    ReleasedKeeps(m, l);
    LockExists(m, l);
    hide Inv, Inserted;
    WaitersAfterV(m.sems[OfLock(l)]);
  }

  lemma WaitingApart(m: Machine, c: nat, l: nat)
    requires m.current in m.threads && c in m.conds && HasLock(m, l) && m.current !in m.owners[l]
    ensures Apart(m, l) ==> Apart(Waiting(m, c, l), l)
  {
  }

  lemma WaitedView(m: Machine, c: nat, l: nat)
    requires Inv(m) && HoldsLock(m, l) && c in m.conds && HasLock(m, l)
    ensures m.current in m.owners[l] && HasLock(Next(m, Wait(c, l)), l)
    ensures View(Next(m, Wait(c, l)), l) == Mutexes.Released(View(m, l), m.current)
    ensures Apart(m, l) ==> Apart(Next(m, Wait(c, l)), l)
  {
    hide Inv, Waiters, Apart, TcbsOk, ReadyOk, SemsOk, CondsOk, LocksOk, TableOk;
    ReleasedKeeps(m, l);
    ReleasedView(m, l);
    var m' := Released(m, l);
    assert m'.conds == m.conds;
    hide Released, Mutexes.Released;
    WaitingKeeps(m', c, l);
    WaitingApart(m', c, l);
  }

  /** One event of the machine, seen through one lock: Acquired, Released or nothing, and in the first two cases the
      thread is one that may do so. */
  lemma LockStep(m: Machine, e: Event, l: nat)
    requires Inv(m) && Enabled(m, e) && HasLock(m, l)
    ensures HasLock(Next(m, e), l)
    ensures
      var x := View(m, l);
      View(Next(m, e), l) == if Locks(m, e, l) then Mutexes.Acquired(x, m.current)
                             else if Unlocks(e, l) then Mutexes.Released(x, m.current)
                             else x
    ensures Locks(m, e, l) && m.current in View(m, l).waiting ==> Mutexes.MayRetry(View(m, l), m.current)
    ensures Unlocks(e, l) ==> m.current in View(m, l).holder
    ensures Apart(m, l) && (e == Acquire(l) ==> m.current !in m.owners[l]) ==> Apart(Next(m, e), l)
  {
    hide Inv, Passed, Released, Mutexes.Acquired, Mutexes.Released, MayPass;
    if Unlocks(e, l) {
      match e {
        case Release(_) => ReleasedView(m, l);
        case Wait(c, _) => WaitedView(m, c, l);
      }
    } else if e == Acquire(l) {
      RunnerPasses(m, OfLock(l));
      PassedView(m, l);
    } else if Locks(m, e, l) {
      ResumerPasses(m, l);
      PassedView(m, l);
    } else {
      OtherCalm(m, e, l);
    }
  }

  lemma ResumerPasses(m: Machine, l: nat)
    requires Inv(m) && m.mode == Resumes && HasLock(m, l)
    requires m.current in m.threads && Inside(m.threads[m.current].kont, l)
    ensures MayPass(m, OfLock(l)) && Resumed(m) == Passed(m, OfLock(l))
    ensures Apart(m, l) ==> m.current !in m.owners[l]
  {
    hide ReadyOk, SemsOk, CondsOk, TableOk;
    TcbFact(m.current, m.mode, m.threads, m.current);
  }

  // ---------------------------------------------------------------------------
  // Over runs

  /** No thread calls Acquire of l while it has l. */
  ghost predicate NeverTwice(m: Machine, es: seq<Event>, l: nat)
    requires Inv(m)
  {
    forall n :: 0 <= n < |es| && After(m, es[..n]).Some? && es[n] == Acquire(l) ==>
      l in After(m, es[..n]).value.owners && After(m, es[..n]).value.current !in After(m, es[..n]).value.owners[l]
  }

  lemma ApartIsMutex(m: Machine, l: nat)
    requires Inv(m) && HasLock(m, l) && Apart(m, l)
    ensures Mutexes.MutexOk(View(m, l))
  {
    LockExists(m, l);
    assert SemLists(m.sems[OfLock(l)], OfLock(l), m.threads);
    forall t | t in m.owners[l] ensures t !in Waiters(m.sems[OfLock(l)]) {
      TcbFact(m.current, m.mode, m.threads, t);
    }
  }

  lemma {:induction false} ApartOverRun(m: Machine, es: seq<Event>, l: nat)
    requires Inv(m) && HasLock(m, l) && Apart(m, l)
    requires After(m, es).Some? && NeverTwice(m, es, l)
    ensures HasLock(After(m, es).value, l) && Apart(After(m, es).value, l)
  {
    hide Inv, Next, Enabled, Apart, TcbsOk, ReadyOk, SemsOk, CondsOk, LocksOk, TableOk;
    if es != [] {
      var n := |es| - 1;
      var before := es[..n];
      forall k | 0 <= k < n ensures before[..k] == es[..k] && before[k] == es[k] {
      }
      ApartOverRun(m, before, l);
      LockStep(After(m, before).value, es[n], l);
    }
  }

  /** A thread that does acquire a lock it has waits for itself. */
  lemma AcquiredTwice(m: Machine, l: nat)
    requires Inv(m) && HoldsLock(m, l)
    ensures HasLock(m, l) && Enabled(m, Acquire(l))
    ensures
      var r := Next(m, Acquire(l));
      HasLock(r, l) && m.current in View(r, l).holder && m.current in View(r, l).waiting
      && !Mutexes.MutexOk(View(r, l))
  {
    hide Inv, Next, Waiters, Apart, TcbsOk, ReadyOk, SemsOk, CondsOk, LocksOk, TableOk;
    LockExists(m, l);
    LockStep(m, Acquire(l), l);
  }

  lemma {:induction false} PrefixRuns(m: Machine, es: seq<Event>, n: nat)
    requires Inv(m) && After(m, es).Some? && n <= |es|
    ensures After(m, es[..n]).Some?
  {
    hide Inv, Next, Enabled;
    if n < |es| {
      var before := es[..|es| - 1];
      PrefixRuns(m, before, n);
      assert before[..n] == es[..n];
    } else {
      assert es[..n] == es;
    }
  }

  lemma PrefixStep(m: Machine, es: seq<Event>, n: nat)
    requires Inv(m) && After(m, es).Some? && n < |es|
    ensures After(m, es[..n]).Some? && Enabled(After(m, es[..n]).value, es[n])
    ensures After(m, es[..n + 1]) == Some(Next(After(m, es[..n]).value, es[n]))
  {
    hide Inv, Next, Enabled;
    PrefixRuns(m, es, n + 1);
    assert es[..n + 1][..n] == es[..n];
  }

  /** The lock satisfies the invariant of Mutexes in every state of the run. */
  ghost predicate MutexThroughout(m: Machine, es: seq<Event>, l: nat)
    requires Inv(m)
  {
    forall n {:trigger es[..n]} :: 0 <= n <= |es| && After(m, es[..n]).Some? ==>
      HasLock(After(m, es[..n]).value, l) && Mutexes.MutexOk(View(After(m, es[..n]).value, l))
  }

  lemma MutexUntil(m: Machine, es: seq<Event>, l: nat, n: nat)
    requires Inv(m) && HasLock(m, l) && Apart(m, l)
    requires After(m, es).Some? && NeverTwice(m, es, l) && n <= |es|
    ensures After(m, es[..n]).Some?
    ensures HasLock(After(m, es[..n]).value, l) && Mutexes.MutexOk(View(After(m, es[..n]).value, l))
  {
    hide Inv, After, Apart, Mutexes.MutexOk, TcbsOk, ReadyOk, SemsOk, CondsOk, LocksOk, TableOk;
    PrefixRuns(m, es, n);
    var before := es[..n];
    forall k | 0 <= k < n ensures before[..k] == es[..k] && before[k] == es[k] {
    }
    ApartOverRun(m, before, l);
    ApartIsMutex(After(m, before).value, l);
  }

  lemma TwiceIsSeen(m: Machine, es: seq<Event>, l: nat, n: nat)
    requires Inv(m) && After(m, es).Some? && MutexThroughout(m, es, l) && n < |es| && es[n] == Acquire(l)
    ensures After(m, es[..n]).Some? && l in After(m, es[..n]).value.owners
    ensures After(m, es[..n]).value.current !in After(m, es[..n]).value.owners[l]
  {
    hide Inv, After, Mutexes.MutexOk, TcbsOk, ReadyOk, SemsOk, CondsOk, LocksOk, TableOk;
    PrefixStep(m, es, n);
    var before := After(m, es[..n]).value;
    LockExists(before, l);
    if before.current in before.owners[l] {
      AcquiredTwice(before, l);
    }
  }

  lemma MutexIffNeverTwice(m: Machine, es: seq<Event>, l: nat)
    requires Inv(m) && HasLock(m, l) && Apart(m, l) && After(m, es).Some?
    ensures MutexThroughout(m, es, l) <==> NeverTwice(m, es, l)
  {
    hide Inv, After, HasLock, Apart, Mutexes.MutexOk, TcbsOk, ReadyOk, SemsOk, CondsOk, LocksOk, TableOk;
    if NeverTwice(m, es, l) {
      forall n | 0 <= n <= |es|
        ensures After(m, es[..n]).Some? && HasLock(After(m, es[..n]).value, l)
        ensures Mutexes.MutexOk(View(After(m, es[..n]).value, l))
      {
        MutexUntil(m, es, l, n);
      }
    }
    if MutexThroughout(m, es, l) {
      forall n | 0 <= n < |es| && es[n] == Acquire(l)
        ensures After(m, es[..n]).Some? && l in After(m, es[..n]).value.owners
        ensures After(m, es[..n]).value.current !in After(m, es[..n]).value.owners[l]
      {
        TwiceIsSeen(m, es, l, n);
      }
    }
  }

  /** In a run from start-up a lock satisfies, in every state, the invariant that the protocols rely on if and only
      if no thread acquires it while it has it. */
  lemma LocksAreMutexes(values: map<nat, nat>, locks: set<nat>, conds: set<nat>, es: seq<Event>, l: nat)
    requires l in locks && Inv(Boot(values, locks, conds)) && After(Boot(values, locks, conds), es).Some?
    ensures MutexThroughout(Boot(values, locks, conds), es, l) <==> NeverTwice(Boot(values, locks, conds), es, l)
  {
    hide Inv, After, MutexThroughout, NeverTwice;
    MutexIffNeverTwice(Boot(values, locks, conds), es, l);
  }
}
