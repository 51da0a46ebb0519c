/** threads/synchlist.cc as a machine: any number of threads in Append and Remove of one list. */
module SynchLists {
  import opened Collections
  import opened Semaphores
  import opened Mutexes

  datatype Op = Append(item: int) | Remove

  datatype Pc =
    | Outside
    | Entering(op: Op)     // in lock->Acquire
    | Inside(op: Op)       // holds the lock, before list->Append or at the head of the while loop
    | Sleeping             // a Remove in the queue of listEmpty
    | Signalled            // taken off that queue, has not tried the lock yet
    | Retaking             // signalled, and in the lock->Acquire at the end of Wait
    | Changed(op: Op)      // holds the lock, has changed the list
    | Leaving              // holds the lock, has signalled

  /** appended and removed are everything that went in and came out, in order. */
  datatype Monitor = Monitor(
    pcs: map<Thread, Pc>, lock: Mutex, listEmpty: seq<Thread>, list: seq<int>,
    appended: seq<int>, removed: seq<int>, informed: set<Thread>)

  function At(pcs: map<Thread, Pc>, t: Thread): Pc {
    if t in pcs then pcs[t] else Outside
  }

  function Acquire(m: Monitor, t: Thread, op: Op, queued: Pc): Monitor {
    var m' := m.(lock := Acquired(m.lock, t));
    if Free(m.lock) then m'.(pcs := m.pcs[t := Inside(op)], informed := m.informed - {t})
    else m'.(pcs := m.pcs[t := queued])
  }

  function Release(m: Monitor, t: Thread, pc: Pc): Monitor {
    m.(lock := Released(m.lock, t), pcs := m.pcs[t := pc])
  }

  function Wait(m: Monitor, t: Thread): Monitor {
    Release(m, t, Sleeping).(listEmpty := m.listEmpty + [t])
  }

  /** list->Append, or list->Remove on a list that is not empty. */
  function Change(m: Monitor, t: Thread, op: Op): Monitor
    requires op.Remove? ==> m.list != []
  {
    var m' := m.(pcs := m.pcs[t := Changed(op)]);
    match op
    case Append(item) => m'.(list := m.list + [item], appended := m.appended + [item])
    case Remove => m'.(list := m.list[1..], removed := m.removed + [m.list[0]])
  }

  function Notify(m: Monitor, t: Thread): Monitor {
    var m' := m.(pcs := m.pcs[t := Leaving]);
    if m.listEmpty == [] then m'
    else
      var u := m.listEmpty[0];
      m'.(listEmpty := m.listEmpty[1..], pcs := m'.pcs[u := Signalled], informed := m.informed + {u})
  }

  datatype Event = Call(t: Thread, op: Op) | Go(t: Thread)

  predicate Enabled(m: Monitor, e: Event) {
    match e
    case Call(t, _) => At(m.pcs, t).Outside?
    case Go(t) =>
      match At(m.pcs, t)
      case Outside => false
      case Sleeping => false
      case Entering(_) => MayRetry(m.lock, t)
      case Retaking => MayRetry(m.lock, t)
      case _ => true
  }

  function Step(m: Monitor, e: Event): Monitor
    requires Enabled(m, e)
  {
    match e
    case Call(t, op) => Acquire(m, t, op, Entering(op))
    case Go(t) =>
      match At(m.pcs, t)
      case Entering(op) => Acquire(m, t, op, Entering(op))
      case Inside(op) => if op.Remove? && m.list == [] then Wait(m, t) else Change(m, t, op)
      case Signalled => Acquire(m, t, Remove, Retaking)
      case Retaking => Acquire(m, t, Remove, Retaking)
      case Changed(op) => if op.Append? then Notify(m, t) else Release(m, t, Outside)
      case Leaving => Release(m, t, Outside)
  }

  // ---------------------------------------------------------------------------

  ghost predicate Linked(m: Monitor, t: Thread) {
    var pc := At(m.pcs, t);
    && (t in m.lock.waiting <==> pc.Entering? || pc.Retaking?)
    && (t in m.lock.holder <==> pc.Inside? || pc.Changed? || pc.Leaving?)
    && (t in m.listEmpty <==> pc.Sleeping?)
    && (t in m.informed <==> pc.Signalled? || pc.Retaking?)
  }

  ghost predicate AllLinked(m: Monitor) {
    forall t :: Linked(m, t)
  }

  predicate Owes(pc: Pc) {
    pc == Inside(Remove) || (pc.Changed? && pc.op.Append?)
  }

  ghost function Slack(pcs: map<Thread, Pc>, holder: set<Thread>): nat {
    if exists t :: t in holder && Owes(At(pcs, t)) then 1 else 0
  }

  ghost predicate WakeOk(m: Monitor) {
    m.listEmpty != [] ==> |m.list| <= |m.informed| + Slack(m.pcs, m.lock.holder)
  }

  ghost predicate Inv(m: Monitor) {
    && MutexOk(m.lock) && NoDup(m.listEmpty) && AllLinked(m) && WakeOk(m)
    && m.appended == m.removed + m.list
  }

  lemma OthersLinked(m: Monitor, m': Monitor, t: Thread)
    requires AllLinked(m) && Linked(m', t)
    requires forall u :: u != t ==> At(m'.pcs, u) == At(m.pcs, u)
    requires forall u :: u != t ==>
      (u in m'.lock.waiting <==> u in m.lock.waiting) && (u in m'.lock.holder <==> u in m.lock.holder)
    requires forall u :: u != t ==> (u in m'.listEmpty <==> u in m.listEmpty) && (u in m'.informed <==> u in m.informed)
    ensures AllLinked(m')
  {
    forall u ensures Linked(m', u) { assert Linked(m, u); }
  }

  lemma SlackOf(pcs: map<Thread, Pc>, t: Thread)
    ensures Slack(pcs, {t}) == if Owes(At(pcs, t)) then 1 else 0
    ensures Slack(pcs, {}) == 0
  {
    if Owes(At(pcs, t)) { assert t in {t}; }
  }

  lemma SlackFrame(pcs: map<Thread, Pc>, holder: set<Thread>, t: Thread, pc: Pc)
    requires t !in holder
    ensures Slack(pcs[t := pc], holder) == Slack(pcs, holder)
  {
    if exists u :: u in holder && Owes(At(pcs, u)) {
      var u :| u in holder && Owes(At(pcs, u));
      assert Owes(At(pcs[t := pc], u));
    }
  }

  lemma AcquireLinks(m: Monitor, t: Thread, op: Op, queued: Pc)
    requires AllLinked(m)
    requires var pc := At(m.pcs, t);
      || (queued == Entering(op) && (pc.Outside? || pc.Entering?))
      || (queued == Retaking && op == Remove && (pc.Signalled? || pc.Retaking?))
    ensures AllLinked(Acquire(m, t, op, queued))
  {
    assert Linked(m, t);
    hide Free, Attempt;
    assert Linked(Acquire(m, t, op, queued), t);
    hide Linked;
    OthersLinked(m, Acquire(m, t, op, queued), t);
  }

  lemma AcquireWakes(m: Monitor, t: Thread, op: Op, queued: Pc)
    requires MutexOk(m.lock) && WakeOk(m) && t !in m.lock.holder && (t in m.informed ==> op.Remove?)
    ensures WakeOk(Acquire(m, t, op, queued))
  {
    var m' := Acquire(m, t, op, queued);
    HolderAlone(m.lock, t);
    if Free(m.lock) {
      assert m'.lock.holder == {t};
      SlackOf(m.pcs, t);
      SlackOf(m'.pcs, t);
      assert t !in m.informed ==> m'.informed == m.informed;
    } else {
      SlackFrame(m.pcs, m.lock.holder, t, queued);
    }
  }

  lemma AcquireKeeps(m: Monitor, t: Thread, op: Op, queued: Pc)
    requires Inv(m)
    requires var pc := At(m.pcs, t);
      || (queued == Entering(op) && (pc.Outside? || (pc == Entering(op) && MayRetry(m.lock, t))))
      || (queued == Retaking && op == Remove && (pc.Signalled? || (pc.Retaking? && MayRetry(m.lock, t))))
    ensures Inv(Acquire(m, t, op, queued))
  {
    assert Linked(m, t);
    hide AllLinked, WakeOk, MutexOk, NoDup, Linked;
    AcquiredOk(m.lock, t);
    AcquireLinks(m, t, op, queued);
    AcquireWakes(m, t, op, queued);
  }

  lemma ReleaseKeeps(m: Monitor, t: Thread)
    requires Inv(m) && (At(m.pcs, t).Leaving? || At(m.pcs, t) == Changed(Remove))
    ensures Inv(Release(m, t, Outside))
  {
    var m' := Release(m, t, Outside);
    assert Linked(m, t);
    assert Linked(m', t);
    hide Linked, MutexOk, NoDup;
    HolderAlone(m.lock, t);
    ReleasedOk(m.lock, t);
    OthersLinked(m, m', t);
    SlackOf(m.pcs, t);
    SlackOf(m'.pcs, t);
  }

  lemma WaitKeeps(m: Monitor, t: Thread)
    requires Inv(m) && At(m.pcs, t) == Inside(Remove) && m.list == []
    ensures Inv(Wait(m, t))
  {
    var m' := Wait(m, t);
    assert Linked(m, t);
    assert Linked(m', t);
    assert NoDup(m'.listEmpty);
    hide Linked, MutexOk, NoDup;
    ReleasedOk(m.lock, t);
    OthersLinked(m, m', t);
  }

  lemma ChangeKeeps(m: Monitor, t: Thread, op: Op)
    requires Inv(m) && At(m.pcs, t) == Inside(op) && (op.Remove? ==> m.list != [])
    ensures Inv(Change(m, t, op))
  {
    var m' := Change(m, t, op);
    assert Linked(m, t);
    assert Linked(m', t);
    hide Linked, MutexOk, NoDup;
    HolderAlone(m.lock, t);
    OthersLinked(m, m', t);
    SlackOf(m.pcs, t);
    SlackOf(m'.pcs, t);
    assert m.list != [] ==> m.list == [m.list[0]] + m.list[1..];
  }

  lemma NotifyLinks(m: Monitor, t: Thread)
    requires AllLinked(m) && NoDup(m.listEmpty) && At(m.pcs, t).Changed?
    ensures AllLinked(Notify(m, t))
  {
    var m1 := m.(pcs := m.pcs[t := Leaving]);
    assert Linked(m, t);
    assert Linked(m1, t);
    OthersLinked(m, m1, t);
    if m.listEmpty != [] {
      var ts := m.listEmpty;
      assert Linked(m, ts[0]) && ts == [ts[0]] + ts[1..];
      assert Linked(Notify(m, t), ts[0]);
      OthersLinked(m1, Notify(m, t), ts[0]);
    }
  }

  lemma NotifyKeeps(m: Monitor, t: Thread)
    requires Inv(m) && At(m.pcs, t).Changed? && At(m.pcs, t).op.Append?
    ensures Inv(Notify(m, t))
  {
    var m' := Notify(m, t);
    assert Linked(m, t);
    if m.listEmpty != [] { assert Linked(m, m.listEmpty[0]); }
    assert NoDup(m'.listEmpty);
    NotifyLinks(m, t);
    hide Linked, AllLinked, MutexOk, NoDup;
    HolderAlone(m.lock, t);
    SlackOf(m.pcs, t);
    SlackOf(m'.pcs, t);
  }

  lemma StepKeeps(m: Monitor, e: Event)
    requires Inv(m) && Enabled(m, e)
    ensures Inv(Step(m, e))
  {
    hide Inv, Acquire, Release, Wait, Change, Notify;
    match e
    case Call(t, op) => AcquireKeeps(m, t, op, Entering(op));
    case Go(t) =>
      match At(m.pcs, t)
      case Entering(op) => AcquireKeeps(m, t, op, Entering(op));
      case Inside(op) => if op.Remove? && m.list == [] { WaitKeeps(m, t); } else { ChangeKeeps(m, t, op); }
      case Signalled => AcquireKeeps(m, t, Remove, Retaking);
      case Retaking => AcquireKeeps(m, t, Remove, Retaking);
      case Changed(op) => if op.Append? { NotifyKeeps(m, t); } else { ReleaseKeeps(m, t); }
      case Leaving => ReleaseKeeps(m, t);
  }

  // ---------------------------------------------------------------------------

  const NEW_LIST := Monitor(map[], NEW_MUTEX, [], [], [], [], {})

  lemma NewInv()
    ensures Inv(NEW_LIST)
  {
  }

  predicate CanHappen(m: Monitor, es: seq<Event>)
    decreases es
  {
    es == [] || (Enabled(m, es[0]) && CanHappen(Step(m, es[0]), es[1..]))
  }

  function After(m: Monitor, es: seq<Event>): Monitor
    requires CanHappen(m, es)
    decreases es
  {
    if es == [] then m else After(Step(m, es[0]), es[1..])
  }

  lemma {:induction false} RunKeeps(m: Monitor, es: seq<Event>)
    requires Inv(m) && CanHappen(m, es)
    ensures Inv(After(m, es))
    decreases es
  {
    hide Inv, Step;
    if es != [] {
      StepKeeps(m, es[0]);
      RunKeeps(Step(m, es[0]), es[1..]);
    }
  }

  /** In every interleaving items come out in the order in which they went in, each once, and while the lock is
      free nobody sleeps with an item to be had that no woken thread is on its way to. */
  lemma FirstInFirstOut(es: seq<Event>)
    requires CanHappen(NEW_LIST, es)
    ensures var m := After(NEW_LIST, es);
      && m.appended == m.removed + m.list
      && |m.lock.holder| <= 1
      && (m.lock.holder == {} && m.listEmpty != [] ==> |m.list| <= |m.informed|)
  {
    NewInv();
    RunKeeps(NEW_LIST, es);
    var m := After(NEW_LIST, es);
    SlackOf(m.pcs, 0);
  }
  /** A lock that somebody wants is held, or somebody can try it. */
  lemma LockMoves(m: Monitor, t: Thread)
    requires MutexOk(m.lock) && AllLinked(m) && t in m.lock.waiting
    ensures exists u :: Enabled(m, Go(u))
  {
    assert Linked(m, t);
    HolderAlone(m.lock, t);
    if u :| u in m.lock.holder {
      assert Linked(m, u);
      assert Enabled(m, Go(u));
    } else if t in m.lock.sema.woken {
      assert Enabled(m, Go(t));
    } else {
      assert m.lock.sema.queue != [] && |m.lock.sema.woken| > 0;
      var u :| u in m.lock.sema.woken;
      assert u in m.lock.waiting && Linked(m, u);
      assert Enabled(m, Go(u));
    }
  }

  ghost predicate Idle(pc: Pc) {
    pc.Outside? || pc.Sleeping?
  }

  lemma SomebodyMoves(m: Monitor, t: Thread)
    requires Inv(m) && !Idle(At(m.pcs, t))
    ensures exists u :: Enabled(m, Go(u))
  {
    assert Linked(m, t);
    hide MutexOk, Linked;
    if t in m.lock.waiting { LockMoves(m, t); } else { assert Enabled(m, Go(t)); }
  }

  lemma SleepersWaitInVain(m: Monitor)
    requires Inv(m) && forall t :: Idle(At(m.pcs, t))
    ensures m.listEmpty == [] || m.list == []
  {
    forall t ensures t !in m.lock.holder && t !in m.informed { assert Linked(m, t); }
    assert m.lock.holder == {} && m.informed == {};
  }

  /** In every interleaving: nobody inside a call can move exactly when all who are inside sleep for an item, and then
      there is none. */
  lemma NeverStuck(es: seq<Event>)
    requires CanHappen(NEW_LIST, es)
    ensures var m := After(NEW_LIST, es);
      && ((forall t :: !Enabled(m, Go(t))) <==> forall t :: Idle(At(m.pcs, t)))
      && ((forall t :: !Enabled(m, Go(t))) ==> m.listEmpty == [] || m.list == [])
  {
    NewInv();
    RunKeeps(NEW_LIST, es);
    var m := After(NEW_LIST, es);
    hide Inv, After;
    if t :| !Idle(At(m.pcs, t)) {
      SomebodyMoves(m, t);
    } else {
      SleepersWaitInVain(m);
    }
  }

  // ---------------------------------------------------------------------------
  // What a step does for the thread that makes it, and in which order sleepers are woken

  /** How far a thread is from the return of its call. */
  function Left(pc: Pc): nat {
    match pc
    case Outside => 0
    case Leaving => 1
    case Changed(_) => 2
    case Inside(_) => 3
    case Entering(_) => 4
    case Retaking => 4
    case Signalled => 5
    case Sleeping => 6
  }

  /** The operation that a thread inside a call performs. */
  function Doing(pc: Pc): seq<Op> {
    match pc
    case Outside => []
    case Leaving => []
    case Changed(op) => [op]
    case Inside(op) => [op]
    case Entering(op) => [op]
    case Retaking => [Remove]
    case Signalled => [Remove]
    case Sleeping => [Remove]
  }

  /** Where a stretch that begins at pc may end: nearer to the return, in the same call; or where it was, because the
      lock is taken; or asleep, because the list is empty. */
  predicate Gets(m: Monitor, pc: Pc, pc': Pc) {
    && (Doing(pc') == [] || Doing(pc') == Doing(pc))
    && (
      || Left(pc') < Left(pc)
      || (pc' == pc && (pc.Entering? || pc.Retaking?) && m.lock.holder != {})
      || (pc == Inside(Remove) && pc'.Sleeping? && m.list == []))
  }

  /** Every stretch advances its thread as far as it can, and moves no other thread but the one it wakes. */
  lemma StretchAdvances(m: Monitor, t: Thread)
    requires Inv(m) && Enabled(m, Go(t))
    ensures var m' := Step(m, Go(t));
      && Gets(m, At(m.pcs, t), At(m'.pcs, t))
      && forall u :: u != t && At(m'.pcs, u) != At(m.pcs, u) ==>
           At(m.pcs, t).Changed? && At(m.pcs, u).Sleeping? && At(m'.pcs, u).Signalled?
  {
    assert Linked(m, t);
    if m.listEmpty != [] { assert Linked(m, m.listEmpty[0]); }
    HolderAlone(m.lock, t);
    hide Inv, AllLinked, Linked, Free;
    GoLeads(m, t);
    hide Step, Gets;
  }

  lemma GoLeads(m: Monitor, t: Thread)
    requires Enabled(m, Go(t)) && (Free(m.lock) <==> m.lock.holder == {})
    requires m.listEmpty != [] ==> At(m.pcs, m.listEmpty[0]).Sleeping?
    requires At(m.pcs, t).Changed? ==> t !in m.listEmpty
    ensures var m' := Step(m, Go(t));
      && Gets(m, At(m.pcs, t), At(m'.pcs, t))
      && forall u :: u != t && At(m'.pcs, u) != At(m.pcs, u) ==>
           At(m.pcs, t).Changed? && At(m.pcs, u).Sleeping? && At(m'.pcs, u).Signalled?
  {
    hide Acquired, Released, Free;
  }

  /** A thread inside a call is held up exactly while it is in the queue of listEmpty or of the lock. */
  lemma HeldUpInQueues(m: Monitor, t: Thread)
    requires Inv(m)
    ensures Enabled(m, Go(t)) <==> !At(m.pcs, t).Outside? && t !in m.listEmpty && t !in m.lock.sema.queue
  {
    assert Linked(m, t);
    assert t in m.lock.waiting <==> t in m.lock.sema.queue || t in m.lock.sema.woken;
    assert t in m.lock.sema.queue ==> t !in m.lock.sema.woken;
    hide AllLinked, WakeOk, MutexOk, NoDup;
  }

  /** A thread outside can always call, and goes on under the lock exactly when nobody has it. */
  lemma CallEnters(m: Monitor, t: Thread, op: Op)
    requires Inv(m) && At(m.pcs, t).Outside?
    ensures Enabled(m, Call(t, op))
    ensures At(Step(m, Call(t, op)).pcs, t) == if m.lock.holder == {} then Inside(op) else Entering(op)
  {
    HolderAlone(m.lock, t);
    hide AllLinked, WakeOk, MutexOk, NoDup, Acquired;
  }

  /** The thread that goes to sleep in this step. */
  function FallsAsleep(m: Monitor, e: Event): seq<Thread> {
    if e.Go? && At(m.pcs, e.t) == Inside(Remove) && m.list == [] then [e.t] else []
  }

  /** The sleeper that is woken in this step: the one asleep longest. */
  function IsWoken(m: Monitor, e: Event): seq<Thread> {
    if e.Go? && At(m.pcs, e.t).Changed? && At(m.pcs, e.t).op.Append? && m.listEmpty != [] then [m.listEmpty[0]] else []
  }

  function AllAsleep(m: Monitor, es: seq<Event>): seq<Thread>
    requires CanHappen(m, es)
    decreases es
  {
    if es == [] then [] else FallsAsleep(m, es[0]) + AllAsleep(Step(m, es[0]), es[1..])
  }

  function AllWoken(m: Monitor, es: seq<Event>): seq<Thread>
    requires CanHappen(m, es)
    decreases es
  {
    if es == [] then [] else IsWoken(m, es[0]) + AllWoken(Step(m, es[0]), es[1..])
  }

  lemma QueueAfter(m: Monitor, e: Event)
    requires Enabled(m, e)
    ensures FallsAsleep(m, e) == [] || IsWoken(m, e) == []
    ensures var ts, ts' := m.listEmpty, Step(m, e).listEmpty;
      if FallsAsleep(m, e) != [] then ts' == ts + [e.t] else if IsWoken(m, e) != [] then ts' == ts[1..] else ts' == ts
  {
    hide Acquired, Released;
  }

  lemma QueueStep(m: Monitor, e: Event)
    requires Enabled(m, e)
    ensures m.listEmpty + FallsAsleep(m, e) == IsWoken(m, e) + Step(m, e).listEmpty
  {
    hide Step;
    QueueAfter(m, e);
    assert m.listEmpty != [] ==> m.listEmpty == [m.listEmpty[0]] + m.listEmpty[1..];
  }

  /** In every run sleepers are woken in the order in which they went to sleep, and none is forgotten. */
  lemma {:induction false} SleepersAreWokenInOrder(m: Monitor, es: seq<Event>)
    requires CanHappen(m, es)
    ensures m.listEmpty + AllAsleep(m, es) == AllWoken(m, es) + After(m, es).listEmpty
    decreases es
  {
    if es != [] {
      hide Step, FallsAsleep, IsWoken;
      QueueStep(m, es[0]);
      var m', rest := Step(m, es[0]), es[1..];
      SleepersAreWokenInOrder(m', rest);
      InThenOut(m.listEmpty, FallsAsleep(m, es[0]), IsWoken(m, es[0]), m'.listEmpty,
        AllAsleep(m', rest), AllWoken(m', rest), After(m, es).listEmpty);
    }
  }
}
