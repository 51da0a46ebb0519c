/** threads/synch.cc, WriteReadLock, as a machine over any number of readers and writers. */
module WriteReadLocks {
  import opened Semaphores
  import opened Mutexes

  datatype Pc =
    | Outside
    | ReaderEnters     // ReaderAcquire, in mutex->Acquire
    | ReaderCounts     // holds the mutex, before readers++
    | ReaderBlocked    // the first reader, in lock->P with the mutex in hand
    | ReaderIn         // holds the mutex, before mutex->Release
    | Reading          // ReaderAcquire has returned
    | ReaderExits      // ReaderRelease, in mutex->Acquire
    | ReaderUncounts   // holds the mutex, before readers--
    | ReaderOut        // holds the mutex, before mutex->Release
    | WriterEnters     // WriterAcquire, in lock->P
    | Writing          // WriterAcquire has returned

  /** active are the readers counted in readers for which lock is held; blocked the first reader while it waits. */
  datatype State = State(
    pcs: map<Thread, Pc>, mutex: Mutex, lock: Sema, readers: int,
    active: set<Thread>, blocked: set<Thread>, writers: set<Thread>, queued: set<Thread>)

  function At(pcs: map<Thread, Pc>, t: Thread): Pc {
    if t in pcs then pcs[t] else Outside
  }

  function Move(s: State, t: Thread, pc: Pc): State {
    s.(pcs := s.pcs[t := pc])
  }

  /** A pass of mutex->Acquire. */
  function TakeMutex(s: State, t: Thread, queued: Pc, through: Pc): State {
    Move(s.(mutex := Acquired(s.mutex, t)), t, if Free(s.mutex) then through else queued)
  }

  function DropMutex(s: State, t: Thread, pc: Pc): State {
    Move(s.(mutex := Released(s.mutex, t)), t, pc)
  }

  /** A pass of lock->P by the first reader. */
  function FirstReader(s: State, t: Thread): State {
    var s' := s.(lock := Attempt(s.lock, t));
    if Passes(s.lock)
    then Move(s', t, ReaderIn).(active := s.active + {t}, blocked := s.blocked - {t}, queued := s.queued - {t})
    else Move(s', t, ReaderBlocked).(blocked := s.blocked + {t}, queued := s.queued + {t})
  }

  function Count(s: State, t: Thread): State {
    var s' := s.(readers := s.readers + 1);
    if s'.readers == 1 then FirstReader(s', t) else Move(s', t, ReaderIn).(active := s.active + {t})
  }

  function Uncount(s: State, t: Thread): State {
    var s' := Move(s, t, ReaderOut).(readers := s.readers - 1, active := s.active - {t});
    if s'.readers == 0 then s'.(lock := V(s.lock)) else s'
  }

  /** A pass of lock->P by a writer. */
  function EnterWriter(s: State, t: Thread): State {
    var s' := s.(lock := Attempt(s.lock, t));
    if Passes(s.lock) then Move(s', t, Writing).(writers := s.writers + {t}, queued := s.queued - {t})
    else Move(s', t, WriterEnters).(queued := s.queued + {t})
  }

  function LeaveWriter(s: State, t: Thread): State {
    Move(s, t, Outside).(lock := V(s.lock), writers := s.writers - {t})
  }

  datatype Event = Read(t: Thread) | Write(t: Thread) | Go(t: Thread)

  predicate Enabled(s: State, e: Event) {
    match e
    case Read(t) => At(s.pcs, t).Outside?
    case Write(t) => At(s.pcs, t).Outside?
    case Go(t) =>
      match At(s.pcs, t)
      case Outside => false
      case ReaderEnters => MayRetry(s.mutex, t)
      case ReaderExits => MayRetry(s.mutex, t)
      case ReaderBlocked => t in s.lock.woken
      case WriterEnters => t in s.lock.woken
      case _ => true
  }

  function Step(s: State, e: Event): State
    requires Enabled(s, e)
  {
    match e
    case Read(t) => TakeMutex(s, t, ReaderEnters, ReaderCounts)
    case Write(t) => EnterWriter(s, t)
    case Go(t) =>
      match At(s.pcs, t)
      case ReaderEnters => TakeMutex(s, t, ReaderEnters, ReaderCounts)
      case ReaderCounts => Count(s, t)
      case ReaderBlocked => FirstReader(s, t)
      case ReaderIn => DropMutex(s, t, Reading)
      case Reading => TakeMutex(s, t, ReaderExits, ReaderUncounts)
      case ReaderExits => TakeMutex(s, t, ReaderExits, ReaderUncounts)
      case ReaderUncounts => Uncount(s, t)
      case ReaderOut => DropMutex(s, t, Outside)
      case WriterEnters => EnterWriter(s, t)
      case Writing => LeaveWriter(s, t)
  }

  // ---------------------------------------------------------------------------

  predicate HasMutex(pc: Pc) {
    pc.ReaderCounts? || pc.ReaderBlocked? || pc.ReaderIn? || pc.ReaderUncounts? || pc.ReaderOut?
  }

  predicate Counted(pc: Pc) {
    pc.ReaderIn? || pc.Reading? || pc.ReaderExits? || pc.ReaderUncounts?
  }

  ghost predicate Linked(s: State, t: Thread) {
    var pc := At(s.pcs, t);
    && (t in s.mutex.waiting <==> pc.ReaderEnters? || pc.ReaderExits?)
    && (t in s.mutex.holder <==> HasMutex(pc))
    && (t in s.active <==> Counted(pc))
    && (t in s.blocked <==> pc.ReaderBlocked?)
    && (t in s.writers <==> pc.Writing?)
    && (t in s.queued <==> pc.ReaderBlocked? || pc.WriterEnters?)
  }

  ghost predicate AllLinked(s: State) {
    forall t :: Linked(s, t)
  }

  function Group(active: set<Thread>): nat {
    if active == {} then 0 else 1
  }

  /** The one unit of lock is there, or a writer has it, or the readers together have it. */
  ghost predicate Exclusive(s: State) {
    && s.lock.value + |s.writers| + Group(s.active) == 1
    && s.readers == |s.active| + |s.blocked|
    && (s.blocked != {} ==> s.active == {})
  }

  ghost predicate Inv(s: State) {
    MutexOk(s.mutex) && WaitersOk(s.lock, s.queued) && AllLinked(s) && Exclusive(s)
  }

  lemma OthersLinked(s: State, s': State, t: Thread)
    requires AllLinked(s) && Linked(s', t)
    requires forall u :: u != t ==> At(s'.pcs, u) == At(s.pcs, u)
    requires forall u :: u != t ==>
      (u in s'.mutex.waiting <==> u in s.mutex.waiting) && (u in s'.mutex.holder <==> u in s.mutex.holder)
    requires forall u :: u != t ==> (u in s'.active <==> u in s.active) && (u in s'.blocked <==> u in s.blocked)
    requires forall u :: u != t ==> (u in s'.writers <==> u in s.writers) && (u in s'.queued <==> u in s.queued)
    ensures AllLinked(s')
  {
    forall u ensures Linked(s', u) { assert Linked(s, u); }
  }

  lemma TakeMutexLinks(s: State, t: Thread, queued: Pc, through: Pc)
    requires AllLinked(s)
    requires (queued.ReaderEnters? && through.ReaderCounts? && (At(s.pcs, t).Outside? || At(s.pcs, t).ReaderEnters?))
          || (queued.ReaderExits? && through.ReaderUncounts? && (At(s.pcs, t).Reading? || At(s.pcs, t).ReaderExits?))
    ensures AllLinked(TakeMutex(s, t, queued, through))
  {
    assert Linked(s, t);
    hide Free, Attempt;
    assert Linked(TakeMutex(s, t, queued, through), t);
    hide Linked;
    OthersLinked(s, TakeMutex(s, t, queued, through), t);
  }

  lemma TakeMutexKeeps(s: State, t: Thread, queued: Pc, through: Pc)
    requires Inv(s)
    requires (queued.ReaderEnters? && through.ReaderCounts? && (At(s.pcs, t).Outside? || At(s.pcs, t).ReaderEnters?))
          || (queued.ReaderExits? && through.ReaderUncounts? && (At(s.pcs, t).Reading? || At(s.pcs, t).ReaderExits?))
    requires t in s.mutex.waiting ==> MayRetry(s.mutex, t)
    ensures Inv(TakeMutex(s, t, queued, through))
  {
    assert Linked(s, t);
    hide MutexOk, WaitersOk, AllLinked, Linked;
    AcquiredOk(s.mutex, t);
    TakeMutexLinks(s, t, queued, through);
  }

  lemma DropMutexKeeps(s: State, t: Thread, pc: Pc)
    requires Inv(s)
    requires (At(s.pcs, t).ReaderIn? && pc.Reading?) || (At(s.pcs, t).ReaderOut? && pc.Outside?)
    ensures Inv(DropMutex(s, t, pc))
  {
    assert Linked(s, t);
    hide MutexOk, WaitersOk;
    ReleasedOk(s.mutex, t);
    OthersLinked(s, DropMutex(s, t, pc), t);
  }

  /** The thread with the mutex is the only one that can be counting or waiting as the first reader. */
  lemma MutexAlone(s: State, t: Thread)
    requires Inv(s) && HasMutex(At(s.pcs, t))
    ensures At(s.pcs, t).ReaderBlocked? ==> s.blocked == {t}
    ensures !At(s.pcs, t).ReaderBlocked? ==> s.blocked == {}
  {
    assert Linked(s, t);
    HolderAlone(s.mutex, t);
    forall u | u in s.blocked ensures u == t { assert Linked(s, u); }
    assert At(s.pcs, t).ReaderBlocked? ==> t in s.blocked;
  }

  lemma FirstReaderKeeps(s: State, t: Thread)
    requires Inv(s) && At(s.pcs, t).ReaderBlocked? && t in s.lock.woken
    ensures Inv(FirstReader(s, t))
  {
    MutexAlone(s, t);
    assert Linked(s, t);
    assert t !in s.lock.queue;
    hide MutexOk, WaitersOk;
    WaitersAttempt(s.lock, s.queued, t);
    OthersLinked(s, FirstReader(s, t), t);
    if Passes(s.lock) {
      assert FirstReader(s, t).active == {t} && FirstReader(s, t).blocked == {};
    } else {
      assert FirstReader(s, t).blocked == {t};
    }
  }

  lemma CountLinks(s: State, t: Thread)
    requires AllLinked(s) && At(s.pcs, t).ReaderCounts?
    ensures AllLinked(Count(s, t))
  {
    assert Linked(s, t);
    assert Linked(Count(s, t), t);
    hide Linked;
    OthersLinked(s, Count(s, t), t);
  }

  lemma FirstCounts(s: State, t: Thread)
    requires Exclusive(s) && s.readers == 0 && s.active == {} && s.blocked == {} && SemaOk(s.lock)
    ensures Exclusive(Count(s, t))
  {
    if Passes(s.lock) {
      assert Count(s, t).active == {t} && Count(s, t).blocked == {};
    } else {
      assert Count(s, t).blocked == {t};
    }
  }

  lemma CountKeeps(s: State, t: Thread)
    requires Inv(s) && At(s.pcs, t).ReaderCounts?
    ensures Inv(Count(s, t))
  {
    assert Linked(s, t);
    assert SemaOk(s.lock);
    hide MutexOk, WaitersOk, AllLinked, Linked, Attempt, SemaOk;
    MutexAlone(s, t);
    NotQueued(s.lock, s.queued, t);
    WaitersAttempt(s.lock, s.queued, t);
    CountLinks(s, t);
    if s.readers == 0 {
      assert s.active == {};
      FirstCounts(s, t);
    } else {
      assert s.active != {} && t in Count(s, t).active;
    }
  }

  lemma UncountKeeps(s: State, t: Thread)
    requires Inv(s) && At(s.pcs, t).ReaderUncounts?
    ensures Inv(Uncount(s, t))
  {
    MutexAlone(s, t);
    assert Linked(s, t);
    hide MutexOk, WaitersOk;
    WaitersUp(s.lock, s.queued);
    OthersLinked(s, Uncount(s, t), t);
    assert t in s.active && |s.active - {t}| == |s.active| - 1;
    assert s.readers - 1 == 0 <==> s.active - {t} == {};
  }

  lemma EnterWriterLinks(s: State, t: Thread)
    requires AllLinked(s) && (At(s.pcs, t).Outside? || At(s.pcs, t).WriterEnters?)
    ensures AllLinked(EnterWriter(s, t)) && t !in s.writers
  {
    assert Linked(s, t);
    assert Linked(EnterWriter(s, t), t);
    hide Linked;
    OthersLinked(s, EnterWriter(s, t), t);
  }

  /** Only waiting threads that have not been woken are in the queue of lock. */
  lemma NotQueued(lock: Sema, queued: set<Thread>, t: Thread)
    requires WaitersOk(lock, queued) && (t in queued ==> t in lock.woken)
    ensures t !in lock.queue
  {
  }

  lemma EnterWriterExcludes(s: State, t: Thread)
    requires Exclusive(s) && SemaOk(s.lock) && t !in s.writers
    ensures Exclusive(EnterWriter(s, t))
  {
  }

  lemma EnterWriterKeeps(s: State, t: Thread)
    requires Inv(s) && (At(s.pcs, t).Outside? || (At(s.pcs, t).WriterEnters? && t in s.lock.woken))
    ensures Inv(EnterWriter(s, t))
  {
    assert Linked(s, t);
    assert SemaOk(s.lock);
    hide MutexOk, WaitersOk, AllLinked, Linked, SemaOk, Exclusive;
    NotQueued(s.lock, s.queued, t);
    WaitersAttempt(s.lock, s.queued, t);
    EnterWriterLinks(s, t);
    EnterWriterExcludes(s, t);
  }

  lemma LeaveWriterKeeps(s: State, t: Thread)
    requires Inv(s) && At(s.pcs, t).Writing?
    ensures Inv(LeaveWriter(s, t))
  {
    assert Linked(s, t);
    hide MutexOk, WaitersOk;
    WaitersUp(s.lock, s.queued);
    OthersLinked(s, LeaveWriter(s, t), t);
  }

  lemma StepKeeps(s: State, e: Event)
    requires Inv(s) && Enabled(s, e)
    ensures Inv(Step(s, e))
  {
    assert Linked(s, e.t);
    hide Inv, Linked, AllLinked, MutexOk, WaitersOk, Exclusive, TakeMutex, DropMutex, Count, Uncount, FirstReader,
      EnterWriter, LeaveWriter;
    match e
    case Read(t) => TakeMutexKeeps(s, t, ReaderEnters, ReaderCounts);
    case Write(t) => EnterWriterKeeps(s, t);
    case Go(t) =>
      match At(s.pcs, t)
      case ReaderEnters => TakeMutexKeeps(s, t, ReaderEnters, ReaderCounts);
      case ReaderCounts => CountKeeps(s, t);
      case ReaderBlocked => FirstReaderKeeps(s, t);
      case ReaderIn => DropMutexKeeps(s, t, Reading);
      case Reading => TakeMutexKeeps(s, t, ReaderExits, ReaderUncounts);
      case ReaderExits => TakeMutexKeeps(s, t, ReaderExits, ReaderUncounts);
      case ReaderUncounts => UncountKeeps(s, t);
      case ReaderOut => DropMutexKeeps(s, t, Outside);
      case WriterEnters => EnterWriterKeeps(s, t);
      case Writing => LeaveWriterKeeps(s, t);
  }

  // ---------------------------------------------------------------------------

  const NEW_LOCK := State(map[], NEW_MUTEX, NewSema(1), 0, {}, {}, {}, {})

  lemma NewInv()
    ensures Inv(NEW_LOCK)
  {
  }

  predicate CanHappen(s: State, es: seq<Event>)
    decreases es
  {
    es == [] || (Enabled(s, es[0]) && CanHappen(Step(s, es[0]), es[1..]))
  }

  function After(s: State, es: seq<Event>): State
    requires CanHappen(s, es)
    decreases es
  {
    if es == [] then s else After(Step(s, es[0]), es[1..])
  }

  lemma {:induction false} RunKeeps(s: State, es: seq<Event>)
    requires Inv(s) && CanHappen(s, es)
    ensures Inv(After(s, es))
    decreases es
  {
    hide Inv, Step;
    if es != [] {
      StepKeeps(s, es[0]);
      RunKeeps(Step(s, es[0]), es[1..]);
    }
  }

  ghost function Threads(s: State, pc: Pc): set<Thread> {
    set t | t in s.pcs && s.pcs[t] == pc
  }

  /** In every interleaving: at most one writer, never together with a reader; readers counts the active readers
      whenever the mutex is free; and while the first reader waits with the mutex in hand nobody reads. */
  lemma ReadersWriters(es: seq<Event>)
    requires CanHappen(NEW_LOCK, es)
    ensures var s := After(NEW_LOCK, es);
      && |Threads(s, Writing)| <= 1
      && (Threads(s, Writing) != {} ==> Threads(s, Reading) == {} && Threads(s, ReaderExits) == {})
      && (s.mutex.holder == {} ==> s.readers == |Threads(s, Reading) + Threads(s, ReaderExits)|)
      && (Threads(s, ReaderBlocked) != {} ==> Threads(s, Reading) == {} && Threads(s, ReaderExits) == {})
  {
    NewInv();
    RunKeeps(NEW_LOCK, es);
    var s := After(NEW_LOCK, es);
    hide After;
    ThreadsAre(s);
    assert |s.writers| <= 1 && (s.writers != {} ==> s.active == {}) by { hide Linked, MutexOk; }
    if s.mutex.holder == {} { Settled(s); }
  }

  lemma ThreadsAre(s: State)
    requires AllLinked(s)
    ensures Threads(s, Writing) == s.writers && Threads(s, ReaderBlocked) == s.blocked
    ensures Threads(s, Reading) + Threads(s, ReaderExits) <= s.active
  {
    forall t ensures t in Threads(s, Writing) <==> t in s.writers { assert Linked(s, t); }
    forall t ensures t in Threads(s, ReaderBlocked) <==> t in s.blocked { assert Linked(s, t); }
    forall t | t in Threads(s, Reading) + Threads(s, ReaderExits) ensures t in s.active { assert Linked(s, t); }
  }

  lemma Settled(s: State)
    requires AllLinked(s) && s.mutex.holder == {}
    ensures Threads(s, Reading) + Threads(s, ReaderExits) == s.active && s.blocked == {}
  {
    forall t ensures t in Threads(s, Reading) + Threads(s, ReaderExits) <==> t in s.active { assert Linked(s, t); }
    forall t ensures t !in s.blocked { assert Linked(s, t); }
  }
  // ---------------------------------------------------------------------------
  // Progress

  ghost predicate SomebodyMoves(s: State) {
    exists t :: Enabled(s, Go(t))
  }

  /** A semaphore with waiters has a woken one or is 0. */
  lemma WaiterOrZero(x: Sema, t: Thread)
    requires SemaOk(x) && (t in x.queue || t in x.woken)
    ensures x.woken != {} || x.value == 0
  {
  }

  /** Whoever waits for the mutex: the holder can move, unless it is the first reader waiting for lock. */
  lemma MutexMoves(s: State, t: Thread)
    requires Inv(s) && t in s.mutex.waiting
    ensures SomebodyMoves(s) || s.blocked != {}
  {
    HolderAlone(s.mutex, t);
    WaiterOrZero(s.mutex.sema, t);
    if u :| u in s.mutex.sema.woken {
      assert u in s.mutex.waiting && Linked(s, u);
      assert Enabled(s, Go(u));
    } else {
      assert s.mutex.holder != {};
      var u :| u in s.mutex.holder;
      assert Linked(s, u);
      assert u in s.blocked || Enabled(s, Go(u));
    }
  }

  /** Whoever waits for lock: a woken waiter can move, or the writer, or one of the readers. A reader that waits for
      the mutex to leave is not in the way, since no first reader waits while there are others. */
  lemma LockMoves(s: State, t: Thread)
    requires Inv(s) && t in s.queued
    ensures SomebodyMoves(s)
  {
    WaiterOrZero(s.lock, t);
    if u :| u in s.lock.woken {
      assert u in s.queued && Linked(s, u);
      assert Enabled(s, Go(u));
    } else if u :| u in s.writers {
      assert Linked(s, u);
      assert Enabled(s, Go(u));
    } else {
      assert s.writers == {} && s.active != {};
      var u :| u in s.active;
      assert Linked(s, u);
      if u in s.mutex.waiting { MutexMoves(s, u); } else { assert Enabled(s, Go(u)); }
    }
  }

  lemma WaiterMoves(s: State, t: Thread)
    requires Inv(s) && (t in s.mutex.waiting || t in s.queued)
    ensures SomebodyMoves(s)
  {
    if t in s.queued {
      LockMoves(s, t);
    } else {
      MutexMoves(s, t);
      if first :| first in s.blocked {
        assert Linked(s, first);
        LockMoves(s, first);
      }
    }
  }

  /** In every interleaving: as long as a thread is inside a call, or has the lock, some such thread can move. */
  lemma NeverStuck(es: seq<Event>)
    requires CanHappen(NEW_LOCK, es)
    ensures var s := After(NEW_LOCK, es);
      SomebodyMoves(s) <==> exists t :: !At(s.pcs, t).Outside?
  {
    NewInv();
    RunKeeps(NEW_LOCK, es);
    var s := After(NEW_LOCK, es);
    hide After, MutexOk, WaitersOk, Exclusive;
    if t :| !At(s.pcs, t).Outside? {
      assert Linked(s, t);
      if t in s.mutex.waiting || t in s.queued { WaiterMoves(s, t); } else { assert Enabled(s, Go(t)); }
    }
  }

  /** How far a thread is from having given the lock back. */
  function Left(pc: Pc): nat {
    match pc
    case Outside => 0
    case ReaderOut => 1
    case ReaderUncounts => 2
    case ReaderExits => 3
    case Reading => 4
    case ReaderIn => 5
    case ReaderBlocked => 6
    case ReaderCounts => 7
    case ReaderEnters => 8
    case Writing => 1
    case WriterEnters => 2
  }

  predicate Writer(pc: Pc) {
    pc.Writing? || pc.WriterEnters?
  }

  /** Where a stretch that begins at pc may end: nearer to having given the lock back, as the reader or writer that
      it is; or where it was, because the mutex is taken, or because a writer or readers have the lock. */
  predicate Gets(s: State, pc: Pc, pc': Pc) {
    && (pc'.Outside? || Writer(pc') == Writer(pc))
    && (
      || Left(pc') < Left(pc)
      || (pc' == pc && (pc.ReaderEnters? || pc.ReaderExits?) && s.mutex.holder != {})
      || (pc' == pc && (pc.ReaderBlocked? || pc.WriterEnters?) && (s.writers != {} || s.active != {})))
  }

  /** The lock's semaphore is up exactly while neither a writer nor readers have it. */
  lemma LockIsUp(s: State)
    requires SemaOk(s.lock) && Exclusive(s)
    ensures Passes(s.lock) <==> s.writers == {} && s.active == {}
  {
  }

  /** Every stretch advances its thread as far as it can, and moves no other thread. */
  lemma StretchAdvances(s: State, t: Thread)
    requires Inv(s) && Enabled(s, Go(t))
    ensures Gets(s, At(s.pcs, t), At(Step(s, Go(t)).pcs, t))
    ensures forall u :: u != t ==> At(Step(s, Go(t)).pcs, u) == At(s.pcs, u)
  {
    LockIsUp(s);
    HolderAlone(s.mutex, t);
    hide Inv, Free, Passes;
    GoLeads(s, t);
  }

  lemma GoLeads(s: State, t: Thread)
    requires Enabled(s, Go(t)) && (Free(s.mutex) <==> s.mutex.holder == {})
    requires Passes(s.lock) <==> s.writers == {} && s.active == {}
    ensures Gets(s, At(s.pcs, t), At(Step(s, Go(t)).pcs, t))
    ensures forall u :: u != t ==> At(Step(s, Go(t)).pcs, u) == At(s.pcs, u)
  {
    hide Acquired, Released, Free, Attempt, Passes, V;
  }

  /** A thread inside a call is held up exactly while it is in the queue of the mutex or of lock. */
  lemma HeldUpInQueues(s: State, t: Thread)
    requires Inv(s)
    ensures Enabled(s, Go(t)) <==> !At(s.pcs, t).Outside? && t !in s.mutex.sema.queue && t !in s.lock.queue
  {
    assert Linked(s, t);
    assert t in s.mutex.waiting <==> t in s.mutex.sema.queue || t in s.mutex.sema.woken;
    assert t in s.mutex.sema.queue ==> t !in s.mutex.sema.woken;
    assert t in s.lock.queue ==> t !in s.lock.woken;
    hide AllLinked, MutexOk, SemaOk, Exclusive;
  }

  /** A reader's call gets the mutex exactly when nobody has it; a writer's call gets the lock exactly when neither a
      writer nor readers have it. */
  lemma CallEnters(s: State, t: Thread)
    requires Inv(s) && At(s.pcs, t).Outside?
    ensures Enabled(s, Read(t)) && Enabled(s, Write(t))
    ensures At(Step(s, Read(t)).pcs, t) == if s.mutex.holder == {} then ReaderCounts else ReaderEnters
    ensures At(Step(s, Write(t)).pcs, t) == if s.writers == {} && s.active == {} then Writing else WriterEnters
  {
    LockIsUp(s);
    HolderAlone(s.mutex, t);
    hide AllLinked, MutexOk, WaitersOk, Exclusive, Attempt, Passes;
  }

  /** The first reader goes in at once exactly when no writer is in, and any other reader always; with the count one
      up. The last reader to leave, and only that one, raises the lock. */
  lemma CountingReaders(s: State, t: Thread)
    requires Inv(s)
    ensures At(s.pcs, t).ReaderCounts? ==>
      var s' := Step(s, Go(t));
      && s'.readers == s.readers + 1
      && (At(s'.pcs, t).ReaderIn? <==> s.readers > 0 || s.writers == {})
    ensures At(s.pcs, t).ReaderUncounts? ==>
      var s' := Step(s, Go(t));
      s'.readers == s.readers - 1 && s'.lock == if s'.readers == 0 then V(s.lock) else s.lock
  {
    LockIsUp(s);
    if HasMutex(At(s.pcs, t)) { MutexAlone(s, t); }
    hide AllLinked, MutexOk, WaitersOk, Attempt, Passes, V;
    assert s.readers == 0 ==> s.active == {} || s.blocked != {};
  }
}
