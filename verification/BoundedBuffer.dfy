/** threads/synch.cc, Buffer with condition variables, as a machine: any number of threads, each somewhere in
    putItemInBuffer or removeItemFromBuffer. A step is a stretch that runs with interrupts off, or one statement
    under the lock. */
module BoundedBuffer {
  import opened Collections
  import opened Semaphores
  import opened Mutexes
  import opened Buffers

  datatype Pc =
    | Outside
    | Entering(op: Op)     // in lock->Acquire
    | Testing(op: Op)      // holds the lock, at the head of the while loop
    | Sleeping(op: Op)     // in the condition's queue
    | Signalled(op: Op)    // taken off the condition's queue, has not tried the lock yet
    | Retaking(op: Op)     // signalled, and in the lock->Acquire at the end of Wait
    | Finishing(op: Op)    // holds the lock, has stored or taken an item
    | Leaving(op: Op)      // holds the lock, has signalled

  /** putters and getters are those who have been signalled and have not looked at count again. */
  datatype Monitor = Monitor(
    pcs: map<Thread, Pc>, lock: Mutex, empty: seq<Thread>, full: seq<Thread>,
    store: Store,
    putters: set<Thread>, getters: set<Thread>)

  function At(pcs: map<Thread, Pc>, t: Thread): Pc {
    if t in pcs then pcs[t] else Outside
  }

  // ---------------------------------------------------------------------------
  // Steps

  /** A pass of the loop inside lock->Acquire; queued is where the thread is when it does not get through. */
  function Acquire(m: Monitor, t: Thread, op: Op, queued: Pc): Monitor {
    var m' := m.(lock := Acquired(m.lock, t));
    if Free(m.lock) then m'.(pcs := m.pcs[t := Testing(op)], putters := m.putters - {t}, getters := m.getters - {t})
    else m'.(pcs := m.pcs[t := queued])
  }

  function Release(m: Monitor, t: Thread, pc: Pc): Monitor {
    m.(lock := Released(m.lock, t), pcs := m.pcs[t := pc])
  }

  predicate MustWait(store: Store, op: Op) {
    if op.Put? then store.count == BUFFER_SIZE else store.count == 0
  }

  /** Condition::Wait up to the sleep. */
  function Wait(m: Monitor, t: Thread, op: Op): Monitor {
    var m' := Release(m, t, Sleeping(op));
    if op.Put? then m'.(empty := m.empty + [t]) else m'.(full := m.full + [t])
  }

  function Change(m: Monitor, t: Thread, op: Op): Monitor
    requires Fits(m.store, op)
  {
    m.(pcs := m.pcs[t := Finishing(op)], store := Changed(m.store, op))
  }

  function Told(pc: Pc): Pc {
    if pc.Sleeping? then Signalled(pc.op) else pc
  }

  /** full->Signal(lock) after a store, empty->Signal(lock) after a removal. */
  function Notify(m: Monitor, t: Thread, op: Op): Monitor {
    var m' := m.(pcs := m.pcs[t := Leaving(op)]);
    if op.Put? && m.full != [] then
      var u := m.full[0];
      m'.(full := m.full[1..], pcs := m'.pcs[u := Told(At(m.pcs, u))], getters := m.getters + {u})
    else if op.Get? && m.empty != [] then
      var u := m.empty[0];
      m'.(empty := m.empty[1..], pcs := m'.pcs[u := Told(At(m.pcs, u))], putters := m.putters + {u})
    else m'
  }

  datatype Event = Call(t: Thread, op: Op) | Go(t: Thread)

  predicate Enabled(m: Monitor, e: Event) {
    match e
    case Call(t, _) => At(m.pcs, t).Outside?
    case Go(t) =>
      match At(m.pcs, t)
      case Outside => false
      case Sleeping(_) => false
      case Entering(_) => MayRetry(m.lock, t)
      case Retaking(_) => MayRetry(m.lock, t)
      case _ => true
  }

  function Step(m: Monitor, e: Event): Monitor
    requires Enabled(m, e) && StoreOk(m.store)
  {
    match e
    case Call(t, op) => Acquire(m, t, op, Entering(op))
    case Go(t) =>
      match At(m.pcs, t)
      case Entering(op) => Acquire(m, t, op, Entering(op))
      case Testing(op) => if MustWait(m.store, op) then Wait(m, t, op) else Change(m, t, op)
      case Signalled(op) => Acquire(m, t, op, Retaking(op))
      case Retaking(op) => Acquire(m, t, op, Retaking(op))
      case Finishing(op) => Notify(m, t, op)
      case Leaving(_) => Release(m, t, Outside)
  }

  // ---------------------------------------------------------------------------
  // The invariant

  predicate Holding(pc: Pc) {
    pc.Testing? || pc.Finishing? || pc.Leaving?
  }

  predicate InAcquire(pc: Pc) {
    pc.Entering? || pc.Retaking?
  }

  predicate Informed(pc: Pc, get: bool) {
    (pc.Signalled? || pc.Retaking?) && pc.op.Get? == get
  }

  predicate Asleep(pc: Pc, get: bool) {
    pc.Sleeping? && pc.op.Get? == get
  }

  /** A thread is on the lists and in the sets that go with where it is. */
  ghost predicate Linked(m: Monitor, t: Thread) {
    var pc := At(m.pcs, t);
    && (t in m.lock.waiting <==> InAcquire(pc))
    && (t in m.lock.holder <==> Holding(pc))
    && (t in m.full <==> Asleep(pc, true))
    && (t in m.empty <==> Asleep(pc, false))
    && (t in m.getters <==> Informed(pc, true))
    && (t in m.putters <==> Informed(pc, false))
  }

  /** The lock holder is about to take what sleeping getters (or putters) wait for, or to signal one of them. */
  predicate Owes(pc: Pc, get: bool) {
    match pc
    case Testing(op) => op.Get? == get
    case Finishing(op) => op.Put? == get
    case _ => false
  }

  ghost predicate Pending(pcs: map<Thread, Pc>, holder: set<Thread>, get: bool) {
    exists t :: t in holder && Owes(At(pcs, t), get)
  }

  ghost function Slack(pcs: map<Thread, Pc>, holder: set<Thread>, get: bool): nat {
    if Pending(pcs, holder, get) then 1 else 0
  }

  /** Nobody sleeps while there is more to have than others have been told about. */
  ghost predicate Served(asleep: seq<Thread>, informed: set<Thread>, available: int, slack: nat) {
    asleep != [] ==> available <= |informed| + slack
  }

  ghost predicate WakeOk(m: Monitor) {
    && Served(m.full, m.getters, m.store.count, Slack(m.pcs, m.lock.holder, true))
    && Served(m.empty, m.putters, BUFFER_SIZE - m.store.count, Slack(m.pcs, m.lock.holder, false))
  }

  ghost predicate AllLinked(m: Monitor) {
    forall t :: Linked(m, t)
  }

  ghost predicate Inv(m: Monitor) {
    && MutexOk(m.lock) && NoDup(m.empty) && NoDup(m.full)
    && AllLinked(m)
    && WakeOk(m)
    && StoreOk(m.store)
  }

  // ---------------------------------------------------------------------------
  // Every step keeps it

  /** The holder alone decides whether a wake-up is on its way. */
  lemma SlackOf(pcs: map<Thread, Pc>, t: Thread, get: bool)
    ensures Slack(pcs, {t}, get) == if Owes(At(pcs, t), get) then 1 else 0
    ensures Slack(pcs, {}, get) == 0
  {
    if Owes(At(pcs, t), get) { assert t in {t}; }
  }

  lemma SlackFrame(pcs: map<Thread, Pc>, holder: set<Thread>, t: Thread, pc: Pc, get: bool)
    requires t !in holder
    ensures Slack(pcs[t := pc], holder, get) == Slack(pcs, holder, get)
  {
    if Pending(pcs, holder, get) {
      var u :| u in holder && Owes(At(pcs, u), get);
      assert Owes(At(pcs[t := pc], u), get);
    }
  }

  /** Threads other than the one that moves keep their places. */
  lemma OthersLinked(m: Monitor, m': Monitor, t: Thread)
    requires AllLinked(m) && Linked(m', t)
    requires forall u :: u != t ==> At(m'.pcs, u) == At(m.pcs, u)
    requires forall u :: u != t ==>
      (u in m'.lock.waiting <==> u in m.lock.waiting) && (u in m'.lock.holder <==> u in m.lock.holder)
    requires forall u :: u != t ==> (u in m'.full <==> u in m.full) && (u in m'.empty <==> u in m.empty)
    requires forall u :: u != t ==> (u in m'.getters <==> u in m.getters) && (u in m'.putters <==> u in m.putters)
    ensures AllLinked(m')
  {
    forall u ensures Linked(m', u) { assert Linked(m, u); }
  }

  lemma AcquireLinks(m: Monitor, t: Thread, op: Op, queued: Pc)
    requires AllLinked(m) && InAcquire(queued) && queued.op == op
    requires var pc := At(m.pcs, t);
      && !Holding(pc) && !pc.Sleeping?
      && (Informed(pc, true) || Informed(pc, false) ==> queued == Retaking(op) && pc.op == op)
      && (!Informed(pc, true) && !Informed(pc, false) ==> queued == Entering(op))
    ensures AllLinked(Acquire(m, t, op, queued))
  {
    assert Linked(m, t);
    hide Free;
    OthersLinked(m, Acquire(m, t, op, queued), t);
  }

  lemma AcquireWakes(m: Monitor, t: Thread, op: Op, queued: Pc)
    requires MutexOk(m.lock) && WakeOk(m) && t !in m.lock.holder
    requires t in m.getters ==> op.Get?
    requires t in m.putters ==> op.Put?
    ensures WakeOk(Acquire(m, t, op, queued))
  {
    var m' := Acquire(m, t, op, queued);
    HolderAlone(m.lock, t);
    if Free(m.lock) {
      assert m'.lock.holder == {t};
      SlackOf(m.pcs, t, true);
      SlackOf(m.pcs, t, false);
      SlackOf(m'.pcs, t, true);
      SlackOf(m'.pcs, t, false);
      assert t !in m.getters ==> m'.getters == m.getters;
      assert t !in m.putters ==> m'.putters == m.putters;
    } else {
      SlackFrame(m.pcs, m.lock.holder, t, queued, true);
      SlackFrame(m.pcs, m.lock.holder, t, queued, false);
    }
  }

  lemma AcquireKeeps(m: Monitor, t: Thread, op: Op, queued: Pc)
    requires Inv(m) && InAcquire(queued) && queued.op == op
    requires var pc := At(m.pcs, t);
      && (pc.Outside? || (pc.Signalled? && pc.op == op) || (InAcquire(pc) && pc.op == op && MayRetry(m.lock, t)))
      && (pc.Signalled? || pc.Retaking? ==> queued == Retaking(op))
      && (!pc.Signalled? && !pc.Retaking? ==> queued == Entering(op))
    ensures Inv(Acquire(m, t, op, queued))
  {
    assert Linked(m, t);
    hide AllLinked, WakeOk, StoreOk, MutexOk, NoDup;
    AcquiredOk(m.lock, t);
    AcquireLinks(m, t, op, queued);
    AcquireWakes(m, t, op, queued);
  }

  lemma ReleaseLinks(m: Monitor, t: Thread)
    requires MutexOk(m.lock) && AllLinked(m) && At(m.pcs, t).Leaving?
    ensures AllLinked(Release(m, t, Outside))
  {
    assert Linked(m, t);
    OthersLinked(m, Release(m, t, Outside), t);
  }

  lemma LeaveKeeps(m: Monitor, t: Thread)
    requires Inv(m) && At(m.pcs, t).Leaving?
    ensures Inv(Release(m, t, Outside))
  {
    var m' := Release(m, t, Outside);
    assert Linked(m, t);
    hide AllLinked, StoreOk, MutexOk, NoDup;
    HolderAlone(m.lock, t);
    ReleasedOk(m.lock, t);
    ReleaseLinks(m, t);
    SlackOf(m.pcs, t, true);
    SlackOf(m.pcs, t, false);
    SlackOf(m'.pcs, t, true);
    SlackOf(m'.pcs, t, false);
  }

  lemma WaitLinks(m: Monitor, t: Thread, op: Op)
    requires MutexOk(m.lock) && AllLinked(m) && At(m.pcs, t) == Testing(op)
    ensures AllLinked(Wait(m, t, op))
  {
    assert Linked(m, t);
    OthersLinked(m, Wait(m, t, op), t);
  }

  lemma WaitKeeps(m: Monitor, t: Thread, op: Op)
    requires Inv(m) && At(m.pcs, t) == Testing(op) && MustWait(m.store, op)
    ensures Inv(Wait(m, t, op))
  {
    var m' := Wait(m, t, op);
    assert Linked(m, t);
    assert NoDup(m'.empty) && NoDup(m'.full);
    hide AllLinked, StoreOk, MutexOk, NoDup;
    HolderAlone(m.lock, t);
    ReleasedOk(m.lock, t);
    WaitLinks(m, t, op);
    SlackOf(m.pcs, t, true);
    SlackOf(m.pcs, t, false);
    SlackOf(m'.pcs, t, true);
    SlackOf(m'.pcs, t, false);
  }

  lemma ChangeLinks(m: Monitor, t: Thread, op: Op)
    requires AllLinked(m) && At(m.pcs, t) == Testing(op) && Fits(m.store, op)
    ensures AllLinked(Change(m, t, op))
  {
    assert Linked(m, t);
    OthersLinked(m, Change(m, t, op), t);
  }

  lemma ChangeKeeps(m: Monitor, t: Thread, op: Op)
    requires Inv(m) && At(m.pcs, t) == Testing(op) && !MustWait(m.store, op)
    ensures Inv(Change(m, t, op))
  {
    var m' := Change(m, t, op);
    assert Linked(m, t);
    hide AllLinked, MutexOk, NoDup;
    HolderAlone(m.lock, t);
    ChangeLinks(m, t, op);
    ChangedOk(m.store, op);
    SlackOf(m.pcs, t, true);
    SlackOf(m.pcs, t, false);
    SlackOf(m'.pcs, t, true);
    SlackOf(m'.pcs, t, false);
  }

  lemma NotifyLinks(m: Monitor, t: Thread, op: Op)
    requires AllLinked(m) && NoDup(m.full) && NoDup(m.empty) && At(m.pcs, t) == Finishing(op)
    ensures AllLinked(Notify(m, t, op))
  {
    assert Linked(m, t);
    var m1 := m.(pcs := m.pcs[t := Leaving(op)]);
    OthersLinked(m, m1, t);
    if op.Put? && m.full != [] {
      PopHead(m.full);
      assert Linked(m, m.full[0]);
      hide AllLinked;
      OthersLinked(m1, Notify(m, t, op), m.full[0]);
    } else if op.Get? && m.empty != [] {
      PopHead(m.empty);
      assert Linked(m, m.empty[0]);
      hide AllLinked;
      OthersLinked(m1, Notify(m, t, op), m.empty[0]);
    }
  }

  lemma NotifyKeeps(m: Monitor, t: Thread, op: Op)
    requires Inv(m) && At(m.pcs, t) == Finishing(op)
    ensures Inv(Notify(m, t, op))
  {
    var m' := Notify(m, t, op);
    assert Linked(m, t);
    if m.full != [] { PopHead(m.full); assert Linked(m, m.full[0]); }
    if m.empty != [] { PopHead(m.empty); assert Linked(m, m.empty[0]); }
    hide AllLinked, Linked, StoreOk, MutexOk, NoDup, WakeOk;
    HolderAlone(m.lock, t);
    NotifyLinks(m, t, op);
    NotifyWakes(m, t, op);
  }

  lemma NotifyWakes(m: Monitor, t: Thread, op: Op)
    requires WakeOk(m) && m.lock.holder == {t} && At(m.pcs, t) == Finishing(op) && t !in m.full && t !in m.empty
    requires m.full != [] ==> m.full[0] !in m.getters
    requires m.empty != [] ==> m.empty[0] !in m.putters
    ensures WakeOk(Notify(m, t, op))
  {
    var m' := Notify(m, t, op);
    assert At(m'.pcs, t) == Leaving(op);
    SlackOf(m.pcs, t, true);
    SlackOf(m.pcs, t, false);
    SlackOf(m'.pcs, t, true);
    SlackOf(m'.pcs, t, false);
    hide Slack;
  }

  lemma StepKeeps(m: Monitor, e: Event)
    requires Inv(m) && Enabled(m, e)
    ensures Inv(Step(m, e))
  {
    hide AllLinked, WakeOk, MutexOk, NoDup, Acquire, Release, Wait, Change, Notify;
    match e
    case Call(t, op) => AcquireKeeps(m, t, op, Entering(op));
    case Go(t) =>
      match At(m.pcs, t)
      case Entering(op) => AcquireKeeps(m, t, op, Entering(op));
      case Testing(op) => if MustWait(m.store, op) { WaitKeeps(m, t, op); } else { ChangeKeeps(m, t, op); }
      case Signalled(op) => AcquireKeeps(m, t, op, Retaking(op));
      case Retaking(op) => AcquireKeeps(m, t, op, Retaking(op));
      case Finishing(op) => NotifyKeeps(m, t, op);
      case Leaving(_) => LeaveKeeps(m, t);
  }

  // ---------------------------------------------------------------------------
  // Runs

  function New(slots: seq<int>): Monitor {
    Monitor(map[], NEW_MUTEX, [], [], NewStore(slots), {}, {})
  }

  lemma NewInv(slots: seq<int>)
    requires |slots| == BUFFER_SIZE
    ensures Inv(New(slots))
  {
  }

  ghost predicate CanHappen(m: Monitor, es: seq<Event>)
    requires Inv(m)
    decreases es
  {
    es == [] || (Enabled(m, es[0]) && (StepKeeps(m, es[0]); CanHappen(Step(m, es[0]), es[1..])))
  }

  ghost function After(m: Monitor, es: seq<Event>): (r: Monitor)
    requires Inv(m) && CanHappen(m, es)
    ensures Inv(r)
    decreases es
  {
    hide AllLinked, WakeOk, MutexOk, NoDup, Step, StoreOk;
    if es == [] then m
    else
      StepKeeps(m, es[0]);
      After(Step(m, es[0]), es[1..])
  }

  /** Threads that have been signalled and have not looked at count again. */
  ghost function InformedThreads(m: Monitor, get: bool): set<Thread> {
    set t | t in m.pcs && Informed(m.pcs[t], get)
  }

  /** In every interleaving of any number of threads: the count stays within bounds, what was stored is what was
      removed plus what is there, at most one thread is past Acquire, and while the lock is free nobody sleeps for
      lack of a signal. */
  lemma BufferSafe(slots: seq<int>, es: seq<Event>)
    requires |slots| == BUFFER_SIZE
    ensures Inv(New(slots))
    ensures CanHappen(New(slots), es) ==>
      var m := After(New(slots), es);
      && 0 <= m.store.count <= BUFFER_SIZE == |m.store.slots|
      && m.store.stored == m.store.removed + multiset(m.store.slots[..m.store.count])
      && |m.lock.holder| <= 1
      && (m.lock.holder == {} && m.full != [] ==> m.store.count <= |InformedThreads(m, true)|)
      && (m.lock.holder == {} && m.empty != [] ==> BUFFER_SIZE - m.store.count <= |InformedThreads(m, false)|)
  {
    NewInv(slots);
    if CanHappen(New(slots), es) {
      var m := After(New(slots), es);
      hide After, New;
      InformedAre(m);
      SlackOf(m.pcs, 0, true);
      SlackOf(m.pcs, 0, false);
    }
  }

  lemma InformedAre(m: Monitor)
    requires AllLinked(m)
    ensures InformedThreads(m, true) == m.getters && InformedThreads(m, false) == m.putters
  {
    forall t ensures t in InformedThreads(m, true) <==> t in m.getters { assert Linked(m, t); }
    forall t ensures t in InformedThreads(m, false) <==> t in m.putters { assert Linked(m, t); }
  }

  /** A lock that somebody wants is held, or somebody can try it. */
  lemma LockMoves(m: Monitor, t: Thread)
    requires MutexOk(m.lock) && AllLinked(m) && t in m.lock.waiting
    ensures exists u :: Enabled(m, Go(u))
  {
    assert Linked(m, t);
    HolderAlone(m.lock, t);
    if u :| u in m.lock.holder {
      assert Linked(m, u);
      assert Enabled(m, Go(u));
    } else if t in m.lock.sema.woken {
      assert Enabled(m, Go(t));
    } else {
      assert m.lock.sema.queue != [] && |m.lock.sema.woken| > 0;
      var u :| u in m.lock.sema.woken;
      assert u in m.lock.waiting && Linked(m, u);
      assert Enabled(m, Go(u));
    }
  }

  /** While somebody sleeps for want of an item or a slot that is there, some thread can move. */
  lemma NeverStuck(m: Monitor)
    requires Inv(m) && ((m.full != [] && m.store.count > 0) || (m.empty != [] && m.store.count < BUFFER_SIZE))
    ensures exists t :: Enabled(m, Go(t))
  {
    var get := m.full != [] && m.store.count > 0;
    if Pending(m.pcs, m.lock.holder, get) {
      var t :| t in m.lock.holder && Owes(At(m.pcs, t), get);
      assert Enabled(m, Go(t));
    } else {
      assert |if get then m.getters else m.putters| > 0;
      var t :| t in if get then m.getters else m.putters;
      assert Linked(m, t);
      if At(m.pcs, t).Signalled? {
        assert Enabled(m, Go(t));
      } else {
        LockMoves(m, t);
      }
    }
  }

  // ---------------------------------------------------------------------------
  // What a step does for the thread that makes it, and in which order sleepers are woken

  /** How far a thread is from the return of its call. */
  function Left(pc: Pc): nat {
    match pc
    case Outside => 0
    case Leaving(_) => 1
    case Finishing(_) => 2
    case Testing(_) => 3
    case Entering(_) => 4
    case Retaking(_) => 4
    case Signalled(_) => 5
    case Sleeping(_) => 6
  }

  /** Where a stretch that begins at pc may end: nearer to the return, in the same call; or where it was, because the
      lock is taken; or asleep, because the buffer is full or empty. */
  predicate Gets(m: Monitor, pc: Pc, pc': Pc) {
    && (!pc.Outside? && !pc'.Outside? ==> pc'.op == pc.op)
    && (
      || Left(pc') < Left(pc)
      || (pc' == pc && InAcquire(pc) && m.lock.holder != {})
      || (pc.Testing? && pc'.Sleeping? && m.store.count == if pc.op.Put? then BUFFER_SIZE else 0))
  }

  /** Every stretch advances its thread as far as it can, and moves no other thread but the one it wakes. */
  lemma StretchAdvances(m: Monitor, t: Thread)
    requires Inv(m) && Enabled(m, Go(t))
    ensures var m' := Step(m, Go(t));
      && Gets(m, At(m.pcs, t), At(m'.pcs, t))
      && forall u :: u != t && At(m'.pcs, u) != At(m.pcs, u) ==>
           At(m.pcs, t).Finishing? && At(m.pcs, u).Sleeping? && At(m'.pcs, u) == Signalled(At(m.pcs, u).op)
  {
    assert Linked(m, t);
    if m.full != [] { assert Linked(m, m.full[0]); }
    if m.empty != [] { assert Linked(m, m.empty[0]); }
    HolderAlone(m.lock, t);
    hide Inv, AllLinked, Linked, Free, StoreOk;
    StoreFits(m);
    GoLeads(m, t);
    hide Step, Gets;
  }

  lemma GoLeads(m: Monitor, t: Thread)
    requires Enabled(m, Go(t)) && StoreOk(m.store) && (Free(m.lock) <==> m.lock.holder == {})
    requires m.full != [] ==> At(m.pcs, m.full[0]).Sleeping?
    requires m.empty != [] ==> At(m.pcs, m.empty[0]).Sleeping?
    requires At(m.pcs, t).Finishing? ==> t !in m.full && t !in m.empty
    ensures var m' := Step(m, Go(t));
      && Gets(m, At(m.pcs, t), At(m'.pcs, t))
      && forall u :: u != t && At(m'.pcs, u) != At(m.pcs, u) ==>
           At(m.pcs, t).Finishing? && At(m.pcs, u).Sleeping? && At(m'.pcs, u) == Signalled(At(m.pcs, u).op)
  {
    if At(m.pcs, t).Finishing? { NotifyLeads(m, t, At(m.pcs, t).op); }
    assert Fits(m.store, At(m.pcs, t).op) || !At(m.pcs, t).Testing? || MustWait(m.store, At(m.pcs, t).op);
    hide Acquired, Released, Free, Changed, StoreOk, Fits, Notify;
  }

  lemma NotifyLeads(m: Monitor, t: Thread, op: Op)
    requires m.full != [] ==> At(m.pcs, m.full[0]).Sleeping?
    requires m.empty != [] ==> At(m.pcs, m.empty[0]).Sleeping?
    requires t !in m.full && t !in m.empty
    ensures var m' := Notify(m, t, op);
      && At(m'.pcs, t) == Leaving(op)
      && forall u :: u != t && At(m'.pcs, u) != At(m.pcs, u) ==>
           At(m.pcs, u).Sleeping? && At(m'.pcs, u) == Signalled(At(m.pcs, u).op)
  {
  }

  /** A thread inside a call is held up exactly while it is in the queue of a condition or of the lock. */
  lemma HeldUpInQueues(m: Monitor, t: Thread)
    requires Inv(m)
    ensures Enabled(m, Go(t)) <==>
      !At(m.pcs, t).Outside? && t !in m.full && t !in m.empty && t !in m.lock.sema.queue
  {
    assert Linked(m, t);
    assert t in m.lock.waiting <==> t in m.lock.sema.queue || t in m.lock.sema.woken;
    assert t in m.lock.sema.queue ==> t !in m.lock.sema.woken;
    hide AllLinked, WakeOk, MutexOk, NoDup, StoreOk;
  }

  /** A thread outside can always call, and goes on under the lock exactly when nobody has it. */
  lemma CallEnters(m: Monitor, t: Thread, op: Op)
    requires Inv(m) && At(m.pcs, t).Outside?
    ensures Enabled(m, Call(t, op))
    ensures At(Step(m, Call(t, op)).pcs, t) == if m.lock.holder == {} then Testing(op) else Entering(op)
  {
    HolderAlone(m.lock, t);
    hide AllLinked, WakeOk, MutexOk, NoDup, Acquired;
  }

  function Sleepers(m: Monitor, get: bool): seq<Thread> {
    if get then m.full else m.empty
  }

  /** The thread that goes to sleep in this step for an item, or for a slot. */
  function FallsAsleep(m: Monitor, e: Event, get: bool): seq<Thread> {
    if e.Go? && At(m.pcs, e.t).Testing? && At(m.pcs, e.t).op.Get? == get
       && m.store.count == (if get then 0 else BUFFER_SIZE)
    then [e.t] else []
  }

  /** The sleeper that is woken in this step: the one asleep longest. */
  function IsWoken(m: Monitor, e: Event, get: bool): seq<Thread> {
    if e.Go? && At(m.pcs, e.t).Finishing? && At(m.pcs, e.t).op.Put? == get && Sleepers(m, get) != []
    then [Sleepers(m, get)[0]] else []
  }

  ghost function AllAsleep(m: Monitor, es: seq<Event>, get: bool): seq<Thread>
    requires Inv(m) && CanHappen(m, es)
    decreases es
  {
    if es == [] then []
    else
      StepKeeps(m, es[0]);
      FallsAsleep(m, es[0], get) + AllAsleep(Step(m, es[0]), es[1..], get)
  }

  ghost function AllWoken(m: Monitor, es: seq<Event>, get: bool): seq<Thread>
    requires Inv(m) && CanHappen(m, es)
    decreases es
  {
    if es == [] then []
    else
      StepKeeps(m, es[0]);
      IsWoken(m, es[0], get) + AllWoken(Step(m, es[0]), es[1..], get)
  }

  lemma QueueStep(m: Monitor, e: Event, get: bool)
    requires StoreOk(m.store) && Enabled(m, e)
    ensures Sleepers(m, get) + FallsAsleep(m, e, get) == IsWoken(m, e, get) + Sleepers(Step(m, e), get)
  {
    hide Step, Sleepers, StoreOk;
    QueueAfter(m, e, get);
    var ts := Sleepers(m, get);
    assert ts != [] ==> ts == [ts[0]] + ts[1..];
  }

  lemma QueueAfter(m: Monitor, e: Event, get: bool)
    requires StoreOk(m.store) && Enabled(m, e)
    ensures FallsAsleep(m, e, get) == [] || IsWoken(m, e, get) == []
    ensures var ts, ts' := Sleepers(m, get), Sleepers(Step(m, e), get);
      if FallsAsleep(m, e, get) != [] then ts' == ts + [e.t]
      else if IsWoken(m, e, get) != [] then ts' == ts[1..]
      else ts' == ts
  {
    hide Acquired, Released, Changed, Told;
  }

  /** In every run each condition wakes its sleepers in the order in which they went to sleep, and forgets nobody. */
  lemma {:induction false} SleepersAreWokenInOrder(m: Monitor, es: seq<Event>, get: bool)
    requires Inv(m) && CanHappen(m, es)
    ensures Sleepers(m, get) + AllAsleep(m, es, get) == AllWoken(m, es, get) + Sleepers(After(m, es), get)
    decreases es
  {
    hide Inv, Step, FallsAsleep, IsWoken, Sleepers;
    if es != [] {
      StepKeeps(m, es[0]);
      assert StoreOk(m.store) by { StoreFits(m); }
      QueueStep(m, es[0], get);
      var m', rest := Step(m, es[0]), es[1..];
      SleepersAreWokenInOrder(m', rest, get);
      InThenOut(Sleepers(m, get), FallsAsleep(m, es[0], get), IsWoken(m, es[0], get), Sleepers(m', get),
        AllAsleep(m', rest, get), AllWoken(m', rest, get), Sleepers(After(m, es), get));
    }
  }

  lemma StoreFits(m: Monitor)
    requires Inv(m)
    ensures StoreOk(m.store)
  {
  }

  // ---------------------------------------------------------------------------
  // The pointer that removeItemFromBuffer returns

  /** The operation that an event performs on the array, if any. */
  function Performed(m: Monitor, e: Event): seq<Op> {
    if e.Go? && At(m.pcs, e.t).Testing? && !MustWait(m.store, At(m.pcs, e.t).op) then [At(m.pcs, e.t).op] else []
  }

  ghost function Changes(m: Monitor, es: seq<Event>): seq<Op>
    requires Inv(m) && CanHappen(m, es)
    decreases es
  {
    if es == [] then []
    else
      StepKeeps(m, es[0]);
      Performed(m, es[0]) + Changes(Step(m, es[0]), es[1..])
  }

  lemma StepStore(m: Monitor, e: Event)
    requires Inv(m) && Enabled(m, e)
    ensures Performed(m, e) == [] ==> Step(m, e).store == m.store
    ensures Performed(m, e) != [] ==>
      Fits(m.store, Performed(m, e)[0]) && Step(m, e).store == Changed(m.store, Performed(m, e)[0])
  {
    hide AllLinked, WakeOk, MutexOk, NoDup;
  }

  /** A run does to the array what the operations it performs do to it one after the other. */
  lemma {:induction false} StoreOverRun(m: Monitor, es: seq<Event>)
    requires Inv(m) && CanHappen(m, es)
    ensures AllFit(m.store, Changes(m, es)) && After(m, es).store == AllChanged(m.store, Changes(m, es))
    decreases es
  {
    if es != [] {
      StepKeeps(m, es[0]);
      StepStore(m, es[0]);
      hide Inv, Step, Performed;
      StoreOverRun(Step(m, es[0]), es[1..]);
      var rest := Changes(Step(m, es[0]), es[1..]);
      if Performed(m, es[0]) == [] {
        assert Changes(m, es) == rest;
      } else {
        assert Changes(m, es)[1..] == rest && Changes(m, es)[0] == Performed(m, es[0])[0];
      }
    }
  }

  /** In every continuation the pointer that a consumer gets reads the value removed if and only if no producer has
      stored into that slot since, or the last one that has stored the same value. */
  lemma PointerOverRuns(m: Monitor, t: Thread, es: seq<Event>)
    requires Inv(m) && At(m.pcs, t) == Testing(Get) && m.store.count > 0
    ensures Enabled(m, Go(t)) && Inv(Step(m, Go(t)))
    ensures CanHappen(Step(m, Go(t)), es) ==>
      PointerReads(m.store, Changes(Step(m, Go(t)), es), After(Step(m, Go(t)), es).store)
  {
    hide Inv, After, Changes, PointerReads, AllFit, CanHappen;
    Removal(m, t);
    hide Step;
    var m' := Step(m, Go(t));
    if CanHappen(m', es) {
      StoreOverRun(m', es);
      PointerReadsLast(m.store, Changes(m', es));
    }
  }

  lemma Removal(m: Monitor, t: Thread)
    requires Inv(m) && At(m.pcs, t) == Testing(Get) && m.store.count > 0
    ensures Enabled(m, Go(t)) && Inv(Step(m, Go(t)))
    ensures StoreOk(m.store) && Fits(m.store, Get) && Step(m, Go(t)).store == Changed(m.store, Get)
  {
    assert StoreOk(m.store);
    hide Inv, Step, StoreOk;
    StepKeeps(m, Go(t));
    StepStore(m, Go(t));
    assert Performed(m, Go(t)) == [Get];
  }

  /** Nobody is in a call. */
  ghost predicate Quiet(m: Monitor) {
    && (forall t :: At(m.pcs, t) == Outside)
    && m.lock == NEW_MUTEX && m.empty == [] && m.full == [] && m.putters == {} && m.getters == {}
  }

  lemma Cons(m: Monitor, e: Event, es: seq<Event>)
    requires Inv(m) && Enabled(m, e)
    ensures Inv(Step(m, e))
    ensures CanHappen(Step(m, e), es) ==> CanHappen(m, [e] + es) && After(m, [e] + es) == After(Step(m, e), es)
  {
    StepKeeps(m, e);
    hide Inv, Step, Enabled;
    assert ([e] + es)[1..] == es;
  }

  /** The state after a call that nobody disturbs. */
  function Called(m: Monitor, t: Thread, op: Op): Monitor
    requires Fits(m.store, op)
  {
    m.(pcs := m.pcs[t := Outside], store := Changed(m.store, op))
  }

  lemma QuietSteps(m: Monitor, t: Thread, op: Op)
    requires StoreOk(m.store) && Quiet(m) && Fits(m.store, op)
    ensures Enabled(m, Call(t, op))
    ensures var m1 := Step(m, Call(t, op));
      && Enabled(m1, Go(t)) && StoreOk(m1.store)
      && var m2 := Step(m1, Go(t));
      && Enabled(m2, Go(t)) && StoreOk(m2.store)
      && var m3 := Step(m2, Go(t));
      && Enabled(m3, Go(t)) && StoreOk(m3.store)
      && Step(m3, Go(t)) == Called(m, t, op)
  {
    ChangedOk(m.store, op);
    hide StoreOk;
    var held := Mutex(Sema(0, [], {}), {t}, {});
    var m1 := Step(m, Call(t, op));
    assert m1 == m.(pcs := m.pcs[t := Testing(op)], lock := held);
    var m2 := Step(m1, Go(t));
    assert m2 == m.(pcs := m.pcs[t := Finishing(op)], lock := held, store := Changed(m.store, op));
    var m3 := Step(m2, Go(t));
    assert m3 == m.(pcs := m.pcs[t := Leaving(op)], lock := held, store := Changed(m.store, op));
  }

  lemma StillQuiet(m: Monitor, t: Thread, op: Op)
    requires Quiet(m) && Fits(m.store, op)
    ensures Quiet(Called(m, t, op))
  {
    forall u ensures At(Called(m, t, op).pcs, u) == Outside { assert At(m.pcs, u) == Outside; }
  }

  /** The events of a whole call in one go: enter, change, notify, leave; and then es. */
  function WholeCall(t: Thread, op: Op, es: seq<Event>): seq<Event> {
    [Call(t, op)] + ([Go(t)] + ([Go(t)] + ([Go(t)] + es)))
  }

  lemma QuietCall(m: Monitor, t: Thread, op: Op, es: seq<Event>)
    requires Inv(m) && Quiet(m) && Fits(m.store, op)
    ensures Inv(Called(m, t, op)) && Quiet(Called(m, t, op))
    ensures CanHappen(Called(m, t, op), es) ==>
      CanHappen(m, WholeCall(t, op, es)) && After(m, WholeCall(t, op, es)) == After(Called(m, t, op), es)
  {
    QuietSteps(m, t, op);
    StillQuiet(m, t, op);
    hide Inv, Step, Enabled, CanHappen, After, StoreOk, Quiet, Called, Fits;
    var m1 := Step(m, Call(t, op));
    var es1 := [Go(t)] + es;
    var es2 := [Go(t)] + es1;
    var es3 := [Go(t)] + es2;
    Cons(m, Call(t, op), es3);
    var m2 := Step(m1, Go(t));
    Cons(m1, Go(t), es2);
    var m3 := Step(m2, Go(t));
    Cons(m2, Go(t), es1);
    Cons(m3, Go(t), es);
  }

  /** It happens: 7 is put in and removed, and before the consumer reads through its pointer 8 is in the slot. */
  lemma PointerGoesStale(slots: seq<int>)
    requires |slots| == BUFFER_SIZE
    ensures Inv(New(slots))
    ensures var es := WholeCall(1, Put(7), WholeCall(2, Get, WholeCall(3, Put(8), [])));
      CanHappen(New(slots), es)
      && After(New(slots), es).store == Store(slots[0 := 8], 1, multiset{7, 8}, multiset{7})
  {
    NewInv(slots);
    var m := New(slots);
    assert Quiet(m);
    var m1 := Called(m, 1, Put(7));
    var m2 := Called(m1, 2, Get);
    var m3 := Called(m2, 3, Put(8));
    assert m3.store == Store(slots[0 := 8], 1, multiset{7, 8}, multiset{7});
    hide Inv, Quiet, Called, WholeCall;
    QuietCall(m, 1, Put(7), WholeCall(2, Get, WholeCall(3, Put(8), [])));
    QuietCall(m1, 2, Get, WholeCall(3, Put(8), []));
    QuietCall(m2, 3, Put(8), []);
    assert CanHappen(m3, []) && After(m3, []) == m3;
  }
}
