/** threads/synch.cc, Lock, as the protocols built on it see it: its semaphore, the threads past Acquire and not
    yet through Release, and the threads inside Acquire. */
module Mutexes {
  import opened Semaphores

  datatype Mutex = Mutex(sema: Sema, holder: set<Thread>, waiting: set<Thread>)

  predicate Free(x: Mutex) {
    Passes(x.sema)
  }

  /** A thread inside Acquire may look at the semaphore again once V has taken it off the queue. */
  predicate MayRetry(x: Mutex, t: Thread) {
    t in x.sema.woken
  }

  ghost predicate MutexOk(x: Mutex) {
    && SemaOk(x.sema)
    && (forall t :: t in x.waiting <==> t in x.sema.queue || t in x.sema.woken)
    && x.sema.value + |x.holder| == 1
    && x.holder !! x.waiting
  }

  const NEW_MUTEX := Mutex(NewSema(1), {}, {})

  /** A pass of the loop in Acquire's P. */
  function Acquired(x: Mutex, t: Thread): Mutex {
    if Free(x) then Mutex(Attempt(x.sema, t), x.holder + {t}, x.waiting - {t})
    else Mutex(Attempt(x.sema, t), x.holder, x.waiting + {t})
  }

  function Released(x: Mutex, t: Thread): Mutex {
    Mutex(V(x.sema), x.holder - {t}, x.waiting)
  }

  /** At most one thread is past Acquire, and the semaphore is 0 exactly while there is one. */
  lemma HolderAlone(x: Mutex, t: Thread)
    requires MutexOk(x)
    ensures Free(x) <==> x.holder == {}
    ensures t in x.holder ==> x.holder == {t}
  {
    if t in x.holder {
      assert |x.holder - {t}| == 0;
    }
  }

  lemma AcquiredOk(x: Mutex, t: Thread)
    requires MutexOk(x) && t !in x.holder && (t in x.waiting ==> MayRetry(x, t))
    ensures MutexOk(Acquired(x, t))
    ensures Free(x) ==> x.holder == {} && Acquired(x, t).holder == {t}
  {
    HolderAlone(x, t);
    if Free(x) { AcquiredFree(x, t); } else { AcquiredBusy(x, t); }
  }

  lemma AcquiredFree(x: Mutex, t: Thread)
    requires MutexOk(x) && x.holder == {} && Free(x) && (t in x.waiting ==> MayRetry(x, t))
    ensures MutexOk(Acquired(x, t)) && Acquired(x, t).holder == {t}
  {
    AttemptOk(x.sema, t);
    hide SemaOk;
  }

  lemma AcquiredBusy(x: Mutex, t: Thread)
    requires MutexOk(x) && t !in x.holder && !Free(x) && (t in x.waiting ==> MayRetry(x, t))
    ensures MutexOk(Acquired(x, t))
  {
    AttemptOk(x.sema, t);
    hide SemaOk;
  }

  lemma ReleasedOk(x: Mutex, t: Thread)
    requires MutexOk(x) && t in x.holder
    ensures MutexOk(Released(x, t)) && Released(x, t).holder == {}
  {
    HolderAlone(x, t);
    VOk(x.sema);
    var queue := x.sema.queue;
    assert queue != [] ==> queue == [queue[0]] + queue[1..];
    hide SemaOk;
  }
}
