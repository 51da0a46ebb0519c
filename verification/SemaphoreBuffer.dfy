/** threads/synch.cc, Buffer with semaphores (USE_SEMAPHORE), as a machine over any number of threads. */
module SemaphoreBuffer {
  import opened Semaphores
  import opened Mutexes
  import opened Buffers

  datatype Pc =
    | Outside
    | AtFirst(op: Op)      // in empty->P to put, in full->P to get
    | Admitted(op: Op)     // past it, before buffer_mutex->P
    | AtMutex(op: Op)      // in buffer_mutex->P
    | Inside(op: Op)       // past it
    | Finishing(op: Op)    // has stored or taken an item, before buffer_mutex->V
    | Unlocked(op: Op)     // before full->V after a put, empty->V after a get

  /** Bookkeeping: atEmpty and atFull are the threads in empty->P and full->P; putIn and getIn those past it that have
      not changed the buffer yet; putOut and getOut those that have. */
  datatype State = State(
    pcs: map<Thread, Pc>, empty: Sema, full: Sema, mutex: Mutex,
    store: Store,
    atEmpty: set<Thread>, atFull: set<Thread>,
    putIn: set<Thread>, putOut: set<Thread>, getIn: set<Thread>, getOut: set<Thread>)

  function At(pcs: map<Thread, Pc>, t: Thread): Pc {
    if t in pcs then pcs[t] else Outside
  }

  predicate Waits(pc: Pc, get: bool) {
    pc.AtFirst? && pc.op.Get? == get
  }

  predicate Coming(pc: Pc, get: bool) {
    (pc.Admitted? || pc.AtMutex? || pc.Inside?) && pc.op.Get? == get
  }

  predicate Going(pc: Pc, get: bool) {
    (pc.Finishing? || pc.Unlocked?) && pc.op.Get? == get
  }

  function With(s: set<Thread>, t: Thread, member: bool): set<Thread> {
    if member then s + {t} else s - {t}
  }

  function Move(s: State, t: Thread, pc: Pc): State {
    s.(pcs := s.pcs[t := pc],
       atEmpty := With(s.atEmpty, t, Waits(pc, false)), atFull := With(s.atFull, t, Waits(pc, true)),
       putIn := With(s.putIn, t, Coming(pc, false)), getIn := With(s.getIn, t, Coming(pc, true)),
       putOut := With(s.putOut, t, Going(pc, false)), getOut := With(s.getOut, t, Going(pc, true)))
  }

  /** A pass of the first P. */
  function First(s: State, t: Thread, op: Op): State {
    if op.Put? then Move(s.(empty := Attempt(s.empty, t)), t, if Passes(s.empty) then Admitted(op) else AtFirst(op))
    else Move(s.(full := Attempt(s.full, t)), t, if Passes(s.full) then Admitted(op) else AtFirst(op))
  }

  function Lock(s: State, t: Thread, op: Op): State {
    Move(s.(mutex := Acquired(s.mutex, t)), t, if Free(s.mutex) then Inside(op) else AtMutex(op))
  }

  function Change(s: State, t: Thread, op: Op): State
    requires Fits(s.store, op)
  {
    Move(s, t, Finishing(op)).(store := Changed(s.store, op))
  }

  function Unlock(s: State, t: Thread, op: Op): State {
    Move(s.(mutex := Released(s.mutex, t)), t, Unlocked(op))
  }

  function Last(s: State, t: Thread, op: Op): State {
    if op.Put? then Move(s.(full := V(s.full)), t, Outside) else Move(s.(empty := V(s.empty)), t, Outside)
  }

  datatype Event = Call(t: Thread, op: Op) | Go(t: Thread)

  predicate Enabled(s: State, e: Event) {
    match e
    case Call(t, _) => At(s.pcs, t).Outside?
    case Go(t) =>
      match At(s.pcs, t)
      case Outside => false
      case AtFirst(op) => t in (if op.Put? then s.empty else s.full).woken
      case AtMutex(_) => MayRetry(s.mutex, t)
      case _ => true
  }

  /** The store or the removal is within the array. */
  predicate InBounds(s: State, e: Event) {
    e.Go? && At(s.pcs, e.t).Inside? ==> Fits(s.store, At(s.pcs, e.t).op)
  }

  function Step(s: State, e: Event): State
    requires Enabled(s, e) && InBounds(s, e)
  {
    match e
    case Call(t, op) => First(s, t, op)
    case Go(t) =>
      match At(s.pcs, t)
      case AtFirst(op) => First(s, t, op)
      case Admitted(op) => Lock(s, t, op)
      case AtMutex(op) => Lock(s, t, op)
      case Inside(op) => Change(s, t, op)
      case Finishing(op) => Unlock(s, t, op)
      case Unlocked(op) => Last(s, t, op)
  }

  // ---------------------------------------------------------------------------

  ghost predicate Linked(s: State, t: Thread) {
    var pc := At(s.pcs, t);
    && (t in s.mutex.waiting <==> pc.AtMutex?)
    && (t in s.mutex.holder <==> pc.Inside? || pc.Finishing?)
    && (t in s.atEmpty <==> Waits(pc, false)) && (t in s.atFull <==> Waits(pc, true))
    && (t in s.putIn <==> Coming(pc, false)) && (t in s.getIn <==> Coming(pc, true))
    && (t in s.putOut <==> Going(pc, false)) && (t in s.getOut <==> Going(pc, true))
  }

  ghost predicate AllLinked(s: State) {
    forall t :: Linked(s, t)
  }

  /** Every slot is free, promised to a putter, full, or about to be given back by a getter; every item is free to be
      had, promised to a getter, or about to be announced by a putter. */
  ghost predicate Balanced(s: State) {
    && s.empty.value + |s.putIn| + s.store.count + |s.getOut| == BUFFER_SIZE
    && s.full.value + |s.getIn| + |s.putOut| == s.store.count
  }

  ghost predicate Inv(s: State) {
    && WaitersOk(s.empty, s.atEmpty) && WaitersOk(s.full, s.atFull) && MutexOk(s.mutex)
    && AllLinked(s) && Balanced(s) && StoreOk(s.store)
  }

  lemma OthersLinked(s: State, s': State, t: Thread, pc: Pc)
    requires AllLinked(s) && Linked(s', t) && s'.pcs == s.pcs[t := pc]
    requires forall u :: u != t ==>
      (u in s'.mutex.waiting <==> u in s.mutex.waiting) && (u in s'.mutex.holder <==> u in s.mutex.holder)
    requires s'.atEmpty == With(s.atEmpty, t, Waits(pc, false)) && s'.atFull == With(s.atFull, t, Waits(pc, true))
    requires s'.putIn == With(s.putIn, t, Coming(pc, false)) && s'.getIn == With(s.getIn, t, Coming(pc, true))
    requires s'.putOut == With(s.putOut, t, Going(pc, false)) && s'.getOut == With(s.getOut, t, Going(pc, true))
    ensures AllLinked(s')
  {
    forall u ensures Linked(s', u) { assert Linked(s, u); }
  }

  lemma Counts(s: set<Thread>, t: Thread, was: bool, member: bool)
    requires t in s <==> was
    ensures |With(s, t, member)| == |s| + (if member then 1 else 0) - (if was then 1 else 0)
  {
    if was && !member { assert s == (s - {t}) + {t}; }
    if was && member { assert s + {t} == s; }
    if !was && !member { assert s - {t} == s; }
  }

  /** How a move changes the counts. */
  lemma MoveCounts(s: State, t: Thread, pc: Pc)
    requires Linked(s, t)
    ensures var s', old' := Move(s, t, pc), At(s.pcs, t);
      && |s'.putIn| == |s.putIn| + (if Coming(pc, false) then 1 else 0) - (if Coming(old', false) then 1 else 0)
      && |s'.getIn| == |s.getIn| + (if Coming(pc, true) then 1 else 0) - (if Coming(old', true) then 1 else 0)
      && |s'.putOut| == |s.putOut| + (if Going(pc, false) then 1 else 0) - (if Going(old', false) then 1 else 0)
      && |s'.getOut| == |s.getOut| + (if Going(pc, true) then 1 else 0) - (if Going(old', true) then 1 else 0)
  {
    var pc' := At(s.pcs, t);
    Counts(s.putIn, t, Coming(pc', false), Coming(pc, false));
    Counts(s.getIn, t, Coming(pc', true), Coming(pc, true));
    Counts(s.putOut, t, Going(pc', false), Going(pc, false));
    Counts(s.getOut, t, Going(pc', true), Going(pc, true));
  }

  lemma QueueAttempt(x: Sema, queued: set<Thread>, t: Thread)
    requires WaitersOk(x, queued) && (t in queued ==> t in x.woken)
    ensures WaitersOk(Attempt(x, t), With(queued, t, !Passes(x)))
    ensures Passes(x) ==> x.value > 0
  {
    WaitersAttempt(x, queued, t);
  }

  /** A thread that is in neither first P, and does not go there, leaves their queues alone. */
  lemma NotWaiting(s: State, t: Thread, get: bool)
    requires AllLinked(s) && !Waits(At(s.pcs, t), get)
    ensures With(if get then s.atFull else s.atEmpty, t, false) == if get then s.atFull else s.atEmpty
  {
    assert Linked(s, t);
  }

  lemma MoveLinks(s: State, x: Mutex, t: Thread, pc: Pc)
    requires AllLinked(s)
    requires t in x.waiting <==> pc.AtMutex?
    requires t in x.holder <==> pc.Inside? || pc.Finishing?
    requires forall u :: u != t ==>
      (u in x.waiting <==> u in s.mutex.waiting) && (u in x.holder <==> u in s.mutex.holder)
    ensures AllLinked(Move(s.(mutex := x), t, pc))
  {
    var s' := Move(s.(mutex := x), t, pc);
    assert Linked(s', t);
    hide Linked, With;
    OthersLinked(s, s', t, pc);
  }

  /** Linked does not look at the semaphores or the items. */
  lemma SameLinks(s: State, s': State)
    requires AllLinked(s)
    requires s' == s.(empty := s'.empty, full := s'.full, store := s'.store)
    ensures AllLinked(s')
  {
    forall t ensures Linked(s', t) { assert Linked(s, t); }
  }

  lemma FirstLinks(s: State, t: Thread, op: Op)
    requires AllLinked(s) && (At(s.pcs, t).Outside? || At(s.pcs, t) == AtFirst(op))
    ensures AllLinked(First(s, t, op)) && Linked(s, t)
    ensures t in s.atEmpty ==> op.Put?
    ensures t in s.atFull ==> op.Get?
    ensures At(s.pcs, t).Outside? ==> t !in s.atEmpty && t !in s.atFull
  {
    assert Linked(s, t);
    var s' := First(s, t, op);
    var pc := At(s'.pcs, t);
    hide Linked, With, Attempt;
    MoveLinks(s, s.mutex, t, pc);
    SameLinks(Move(s, t, pc), s');
  }

  lemma FirstKeeps(s: State, t: Thread, op: Op)
    requires Inv(s)
    requires At(s.pcs, t).Outside? || (At(s.pcs, t) == AtFirst(op) && t in (if op.Put? then s.empty else s.full).woken)
    ensures Inv(First(s, t, op))
  {
    hide AllLinked, Linked, WaitersOk, MutexOk, With, StoreOk;
    FirstLinks(s, t, op);
    if op.Put? { QueueAttempt(s.empty, s.atEmpty, t); NotWaiting(s, t, true); }
    else { QueueAttempt(s.full, s.atFull, t); NotWaiting(s, t, false); }
    MoveCounts(s, t, At(First(s, t, op).pcs, t));
  }

  lemma LockLinks(s: State, t: Thread, op: Op)
    requires AllLinked(s) && (At(s.pcs, t) == Admitted(op) || At(s.pcs, t) == AtMutex(op))
    ensures AllLinked(Lock(s, t, op)) && Linked(s, t) && t !in s.mutex.holder
    ensures t in s.mutex.waiting ==> At(s.pcs, t).AtMutex?
  {
    assert Linked(s, t);
    hide Attempt, Linked, With;
    MoveLinks(s, Acquired(s.mutex, t), t, At(Lock(s, t, op).pcs, t));
  }

  lemma LockKeeps(s: State, t: Thread, op: Op)
    requires Inv(s) && (At(s.pcs, t) == Admitted(op) || (At(s.pcs, t) == AtMutex(op) && MayRetry(s.mutex, t)))
    ensures Inv(Lock(s, t, op))
  {
    hide AllLinked, Linked, WaitersOk, MutexOk, With, StoreOk;
    LockLinks(s, t, op);
    AcquiredOk(s.mutex, t);
    NotWaiting(s, t, false);
    NotWaiting(s, t, true);
    MoveCounts(s, t, At(Lock(s, t, op).pcs, t));
  }

  /** A thread inside has been promised the slot or the item it is about to use. */
  lemma ChangeInBounds(s: State, t: Thread, op: Op)
    requires Inv(s) && At(s.pcs, t) == Inside(op)
    ensures Fits(s.store, op)
  {
    assert Linked(s, t);
    assert s.empty.value >= 0 && s.full.value >= 0;
    if op.Put? { assert |s.putIn - {t}| == |s.putIn| - 1; } else { assert |s.getIn - {t}| == |s.getIn| - 1; }
  }

  lemma HolderLinked(s: State, t: Thread)
    requires AllLinked(s)
    ensures Linked(s, t)
    ensures t in s.mutex.holder <==> At(s.pcs, t).Inside? || At(s.pcs, t).Finishing?
    ensures t in s.mutex.waiting <==> At(s.pcs, t).AtMutex?
  {
    assert Linked(s, t);
  }

  lemma ChangeKeeps(s: State, t: Thread, op: Op)
    requires Inv(s) && At(s.pcs, t) == Inside(op)
    ensures InBounds(s, Go(t)) && Inv(Change(s, t, op))
  {
    hide AllLinked, Linked, WaitersOk, MutexOk, With, StoreOk;
    ChangeInBounds(s, t, op);
    HolderLinked(s, t);
    MoveLinks(s, s.mutex, t, Finishing(op));
    SameLinks(Move(s, t, Finishing(op)), Change(s, t, op));
    ChangedOk(s.store, op);
    NotWaiting(s, t, false);
    NotWaiting(s, t, true);
    MoveCounts(s, t, Finishing(op));
  }

  lemma UnlockKeeps(s: State, t: Thread, op: Op)
    requires Inv(s) && At(s.pcs, t) == Finishing(op)
    ensures Inv(Unlock(s, t, op))
  {
    hide AllLinked, Linked, WaitersOk, MutexOk, With, StoreOk;
    HolderLinked(s, t);
    ReleasedOk(s.mutex, t);
    MoveLinks(s, Released(s.mutex, t), t, Unlocked(op));
    NotWaiting(s, t, false);
    NotWaiting(s, t, true);
    MoveCounts(s, t, Unlocked(op));
  }

  lemma LastKeeps(s: State, t: Thread, op: Op)
    requires Inv(s) && At(s.pcs, t) == Unlocked(op)
    ensures Inv(Last(s, t, op))
  {
    hide AllLinked, Linked, WaitersOk, MutexOk, With, StoreOk;
    HolderLinked(s, t);
    MoveLinks(s, s.mutex, t, Outside);
    SameLinks(Move(s, t, Outside), Last(s, t, op));
    if op.Put? { WaitersUp(s.full, s.atFull); } else { WaitersUp(s.empty, s.atEmpty); }
    NotWaiting(s, t, false);
    NotWaiting(s, t, true);
    MoveCounts(s, t, Outside);
  }

  lemma StepKeeps(s: State, e: Event)
    requires Inv(s) && Enabled(s, e)
    ensures InBounds(s, e) && Inv(Step(s, e))
  {
    hide Inv, First, Lock, Change, Unlock, Last;
    match e
    case Call(t, op) => FirstKeeps(s, t, op);
    case Go(t) =>
      match At(s.pcs, t)
      case AtFirst(op) => FirstKeeps(s, t, op);
      case Admitted(op) => LockKeeps(s, t, op);
      case AtMutex(op) => LockKeeps(s, t, op);
      case Inside(op) => ChangeKeeps(s, t, op);
      case Finishing(op) => UnlockKeeps(s, t, op);
      case Unlocked(op) => LastKeeps(s, t, op);
  }

  // ---------------------------------------------------------------------------

  function New(slots: seq<int>): State {
    State(map[], NewSema(BUFFER_SIZE), NewSema(0), NEW_MUTEX, NewStore(slots), {}, {}, {}, {}, {}, {})
  }

  lemma NewInv(slots: seq<int>)
    requires |slots| == BUFFER_SIZE
    ensures Inv(New(slots))
  {
  }

  ghost predicate CanHappen(s: State, es: seq<Event>)
    requires Inv(s)
    decreases es
  {
    es == [] || (Enabled(s, es[0]) && (StepKeeps(s, es[0]); CanHappen(Step(s, es[0]), es[1..])))
  }

  ghost function After(s: State, es: seq<Event>): (r: State)
    requires Inv(s) && CanHappen(s, es)
    ensures Inv(r)
    decreases es
  {
    hide Inv, Step;
    if es == [] then s
    else
      StepKeeps(s, es[0]);
      After(Step(s, es[0]), es[1..])
  }

  /** In every interleaving: the array is never overrun, what was stored is what was removed plus what is there, and
      the two counting semaphores never promise more slots or items than there are. */
  lemma SemaphoreBufferSafe(slots: seq<int>, es: seq<Event>, e: Event)
    requires |slots| == BUFFER_SIZE
    ensures Inv(New(slots))
    ensures CanHappen(New(slots), es) && Enabled(After(New(slots), es), e) ==>
      var s := After(New(slots), es);
      && InBounds(s, e)
      && StoreOk(s.store)
      && 0 <= s.full.value <= s.store.count <= BUFFER_SIZE - s.empty.value <= BUFFER_SIZE
      && |s.mutex.holder| <= 1
  {
    NewInv(slots);
    if CanHappen(New(slots), es) && Enabled(After(New(slots), es), e) {
      StepKeeps(After(New(slots), es), e);
    }
  }

  // ---------------------------------------------------------------------------
  // The pointer that removeItemFromBuffer returns

  /** The operation that an event performs on the array, if any. */
  function Performed(s: State, e: Event): seq<Op> {
    if e.Go? && At(s.pcs, e.t).Inside? then [At(s.pcs, e.t).op] else []
  }

  ghost function Changes(s: State, es: seq<Event>): seq<Op>
    requires Inv(s) && CanHappen(s, es)
    decreases es
  {
    if es == [] then []
    else
      StepKeeps(s, es[0]);
      Performed(s, es[0]) + Changes(Step(s, es[0]), es[1..])
  }

  lemma StepStore(s: State, e: Event)
    requires Inv(s) && Enabled(s, e) && InBounds(s, e)
    ensures Performed(s, e) == [] ==> Step(s, e).store == s.store
    ensures Performed(s, e) != [] ==>
      Fits(s.store, Performed(s, e)[0]) && Step(s, e).store == Changed(s.store, Performed(s, e)[0])
  {
    hide Inv, With;
  }

  /** A run does to the array what the operations it performs do to it one after the other. */
  lemma {:induction false} StoreOverRun(s: State, es: seq<Event>)
    requires Inv(s) && CanHappen(s, es)
    ensures AllFit(s.store, Changes(s, es)) && After(s, es).store == AllChanged(s.store, Changes(s, es))
    decreases es
  {
    if es != [] {
      StepKeeps(s, es[0]);
      StepStore(s, es[0]);
      hide Inv, Step, Performed;
      StoreOverRun(Step(s, es[0]), es[1..]);
      var rest := Changes(Step(s, es[0]), es[1..]);
      if Performed(s, es[0]) == [] {
        assert Changes(s, es) == rest;
      } else {
        assert Changes(s, es)[1..] == rest && Changes(s, es)[0] == Performed(s, es[0])[0];
      }
    }
  }

  /** In every continuation the pointer that a consumer gets reads the value removed if and only if no producer has
      stored into that slot since, or the last one that has stored the same value. */
  lemma PointerOverRuns(s: State, t: Thread, es: seq<Event>)
    requires Inv(s) && At(s.pcs, t) == Inside(Get)
    ensures Enabled(s, Go(t)) && InBounds(s, Go(t)) && Inv(Step(s, Go(t)))
    ensures CanHappen(Step(s, Go(t)), es) ==>
      PointerReads(s.store, Changes(Step(s, Go(t)), es), After(Step(s, Go(t)), es).store)
  {
    hide Inv, After, Changes, PointerReads, AllFit, CanHappen;
    Removal(s, t);
    hide Step;
    var s' := Step(s, Go(t));
    if CanHappen(s', es) {
      StoreOverRun(s', es);
      PointerReadsLast(s.store, Changes(s', es));
    }
  }

  lemma Removal(s: State, t: Thread)
    requires Inv(s) && At(s.pcs, t) == Inside(Get)
    ensures Enabled(s, Go(t)) && InBounds(s, Go(t)) && Inv(Step(s, Go(t)))
    ensures Fits(s.store, Get) && Step(s, Go(t)).store == Changed(s.store, Get)
  {
    hide Inv, Step;
    StepKeeps(s, Go(t));
    StepStore(s, Go(t));
    assert Performed(s, Go(t)) == [Get];
  }

  /** Nobody is in a call, and the array holds what it holds. */
  function Idle(pcs: map<Thread, Pc>, store: Store): State
    requires 0 <= store.count <= BUFFER_SIZE
  {
    State(pcs, NewSema(BUFFER_SIZE - store.count), NewSema(store.count), NEW_MUTEX, store, {}, {}, {}, {}, {}, {})
  }

  ghost predicate AllOutside(pcs: map<Thread, Pc>) {
    forall t :: At(pcs, t) == Outside
  }

  lemma Cons(s: State, e: Event, es: seq<Event>)
    requires Inv(s) && Enabled(s, e)
    ensures InBounds(s, e) && Inv(Step(s, e))
    ensures CanHappen(Step(s, e), es) ==> CanHappen(s, [e] + es) && After(s, [e] + es) == After(Step(s, e), es)
  {
    StepKeeps(s, e);
    hide Inv, Step, Enabled;
    assert ([e] + es)[1..] == es;
  }

  /** A call that nobody disturbs, up to the change. */
  lemma QuietEntry(pcs: map<Thread, Pc>, store: Store, t: Thread, op: Op)
    requires StoreOk(store) && Fits(store, op) && AllOutside(pcs)
    ensures var s := Idle(pcs, store);
      && Enabled(s, Call(t, op))
      && var s1 := First(s, t, op);
      && Enabled(s1, Go(t)) && At(s1.pcs, t) == Admitted(op)
      && var s2 := Lock(s1, t, op);
      && Enabled(s2, Go(t)) && At(s2.pcs, t) == Inside(op)
      && s2 == Entered(pcs, store, t, op)
  {
    var s := Idle(pcs, store);
    assert At(pcs, t) == Outside;
    var s1 := First(s, t, op);
    assert s1.mutex == NEW_MUTEX;
    var s2 := Lock(s1, t, op);
    assert s2.pcs == pcs[t := Inside(op)];
    assert s2.mutex == Entered(pcs, store, t, op).mutex;
  }

  /** Alone inside. */
  function Entered(pcs: map<Thread, Pc>, store: Store, t: Thread, op: Op): State
    requires Fits(store, op)
  {
    State(pcs[t := Inside(op)],
          NewSema(BUFFER_SIZE - store.count - if op.Put? then 1 else 0),
          NewSema(store.count - if op.Get? then 1 else 0),
          Mutex(Sema(0, [], {}), {t}, {}), store, {}, {},
          if op.Put? then {t} else {}, {}, if op.Get? then {t} else {}, {})
  }

  lemma QuietExit(pcs: map<Thread, Pc>, store: Store, t: Thread, op: Op)
    requires StoreOk(store) && Fits(store, op) && AllOutside(pcs)
    ensures var s3 := Change(Entered(pcs, store, t, op), t, op);
      && Enabled(s3, Go(t)) && At(s3.pcs, t) == Finishing(op)
      && var s4 := Unlock(s3, t, op);
      && Enabled(s4, Go(t)) && At(s4.pcs, t) == Unlocked(op)
      && 0 <= Changed(store, op).count <= BUFFER_SIZE
      && Last(s4, t, op) == Idle(pcs[t := Outside], Changed(store, op))
  {
    var s3 := Change(Entered(pcs, store, t, op), t, op);
    assert s3.pcs == pcs[t := Finishing(op)];
    var s4 := Unlock(s3, t, op);
    assert s4.pcs == pcs[t := Unlocked(op)] && s4.mutex == NEW_MUTEX;
    assert Last(s4, t, op).pcs == pcs[t := Outside];
  }

  /** The events of a whole call in one go, and then es. */
  function WholeCall(t: Thread, op: Op, es: seq<Event>): seq<Event> {
    [Call(t, op)] + ([Go(t)] + ([Go(t)] + ([Go(t)] + ([Go(t)] + es))))
  }

  lemma QuietCall(pcs: map<Thread, Pc>, store: Store, t: Thread, op: Op, es: seq<Event>)
    requires StoreOk(store) && Fits(store, op) && AllOutside(pcs) && Inv(Idle(pcs, store))
    ensures StoreOk(Changed(store, op)) && AllOutside(pcs[t := Outside])
    ensures Inv(Idle(pcs[t := Outside], Changed(store, op)))
    ensures var s, s' := Idle(pcs, store), Idle(pcs[t := Outside], Changed(store, op));
      CanHappen(s', es) ==> CanHappen(s, WholeCall(t, op, es)) && After(s, WholeCall(t, op, es)) == After(s', es)
  {
    ChangedOk(store, op);
    StillOutside(pcs, t);
    QuietEntry(pcs, store, t, op);
    QuietExit(pcs, store, t, op);
    var s := Idle(pcs, store);
    assert At(s.pcs, t) == Outside;
    hide Inv, Enabled, CanHappen, After, StoreOk, AllOutside, Fits, First, Lock, Change, Unlock, Last, Changed, Entered;
    var es4 := [Go(t)] + es;
    var es3 := [Go(t)] + es4;
    var es2 := [Go(t)] + es3;
    var es1 := [Go(t)] + es2;
    Cons(s, Call(t, op), es1);
    var s1 := First(s, t, op);
    Cons(s1, Go(t), es2);
    var s2 := Lock(s1, t, op);
    Cons(s2, Go(t), es3);
    var s3 := Change(s2, t, op);
    Cons(s3, Go(t), es4);
    Cons(Unlock(s3, t, op), Go(t), es);
  }

  lemma StillOutside(pcs: map<Thread, Pc>, t: Thread)
    requires AllOutside(pcs)
    ensures AllOutside(pcs[t := Outside])
  {
    var after := pcs[t := Outside];
    forall u ensures At(after, u) == Outside { assert At(pcs, u) == Outside; }
  }

  /** It happens: 7 is put in and removed, and before the consumer reads through its pointer 8 is in the slot. */
  lemma PointerGoesStale(slots: seq<int>)
    requires |slots| == BUFFER_SIZE
    ensures Inv(New(slots))
    ensures var es := WholeCall(1, Put(7), WholeCall(2, Get, WholeCall(3, Put(8), [])));
      CanHappen(New(slots), es)
      && After(New(slots), es).store == Store(slots[0 := 8], 1, multiset{7, 8}, multiset{7})
  {
    NewInv(slots);
    var p0: map<Thread, Pc>, s0 := map[], NewStore(slots);
    assert New(slots) == Idle(p0, s0) && AllOutside(p0);
    var p1, s1 := p0[1 := Outside], Changed(s0, Put(7));
    var p2, s2 := p1[2 := Outside], Changed(s1, Get);
    var p3, s3 := p2[3 := Outside], Changed(s2, Put(8));
    assert s3 == Store(slots[0 := 8], 1, multiset{7, 8}, multiset{7});
    hide Inv, WholeCall, AllOutside, New;
    QuietCall(p0, s0, 1, Put(7), WholeCall(2, Get, WholeCall(3, Put(8), [])));
    QuietCall(p1, s1, 2, Get, WholeCall(3, Put(8), []));
    QuietCall(p2, s2, 3, Put(8), []);
    assert CanHappen(Idle(p3, s3), []) && After(Idle(p3, s3), []) == Idle(p3, s3);
  }

  // ---------------------------------------------------------------------------
  // What a step does for the thread that makes it

  /** How far a thread is from the return of its call. */
  function Left(pc: Pc): nat {
    match pc
    case Outside => 0
    case Unlocked(_) => 1
    case Finishing(_) => 2
    case Inside(_) => 3
    case AtMutex(_) => 4
    case Admitted(_) => 5
    case AtFirst(_) => 6
  }

  /** The slots, or items, that no thread has been promised. */
  function Spare(s: State, op: Op): int {
    if op.Put? then BUFFER_SIZE - s.store.count - |s.putIn| - |s.getOut|
    else s.store.count - |s.getIn| - |s.putOut|
  }

  /** Where a stretch that begins at pc may end: nearer to the return, in the same call; or where it was, because the
      mutex is taken, or because every slot, or item, is promised to another thread. */
  predicate Gets(s: State, pc: Pc, pc': Pc) {
    && (!pc.Outside? && !pc'.Outside? ==> pc'.op == pc.op)
    && (
      || Left(pc') < Left(pc)
      || (pc' == pc && pc.AtMutex? && s.mutex.holder != {})
      || (pc' == pc && pc.AtFirst? && Spare(s, pc.op) == 0))
  }

  lemma SpareIs(s: State, op: Op)
    requires Inv(s)
    ensures Passes(if op.Put? then s.empty else s.full) <==> Spare(s, op) > 0
    ensures Spare(s, op) >= 0
  {
    hide AllLinked, MutexOk, StoreOk;
  }

  /** Every stretch advances its thread as far as it can, and moves no other thread. */
  lemma StretchAdvances(s: State, t: Thread)
    requires Inv(s) && Enabled(s, Go(t)) && InBounds(s, Go(t))
    ensures Gets(s, At(s.pcs, t), At(Step(s, Go(t)).pcs, t))
    ensures forall u :: u != t ==> At(Step(s, Go(t)).pcs, u) == At(s.pcs, u)
  {
    HolderAlone(s.mutex, t);
    if !At(s.pcs, t).Outside? { SpareIs(s, At(s.pcs, t).op); }
    hide Inv, Free, Passes, Spare, Fits;
    GoLeads(s, t);
    OthersStay(s, t);
  }

  lemma GoLeads(s: State, t: Thread)
    requires Enabled(s, Go(t)) && InBounds(s, Go(t)) && (Free(s.mutex) <==> s.mutex.holder == {})
    requires var pc := At(s.pcs, t);
      !pc.Outside? ==> Spare(s, pc.op) >= 0 && (Passes(if pc.op.Put? then s.empty else s.full) <==> Spare(s, pc.op) > 0)
    ensures Gets(s, At(s.pcs, t), At(Step(s, Go(t)).pcs, t))
  {
    hide Free, Attempt, Passes, V, Acquired, Released, Spare, Waits, Coming, Going, With, Changed, Fits;
  }

  lemma OthersStay(s: State, t: Thread)
    requires Enabled(s, Go(t)) && InBounds(s, Go(t))
    ensures forall u :: u != t ==> At(Step(s, Go(t)).pcs, u) == At(s.pcs, u)
  {
    hide Free, Attempt, Passes, V, Acquired, Released, Waits, Coming, Going, With, Changed, Fits;
  }

  /** A thread inside a call is held up exactly while it is in the queue of a semaphore. */
  lemma HeldUpInQueues(s: State, t: Thread)
    requires Inv(s)
    ensures Enabled(s, Go(t)) <==>
      !At(s.pcs, t).Outside? && t !in s.empty.queue && t !in s.full.queue && t !in s.mutex.sema.queue
  {
    assert Linked(s, t);
    assert t in s.mutex.waiting <==> t in s.mutex.sema.queue || t in s.mutex.sema.woken;
    assert t in s.mutex.sema.queue ==> t !in s.mutex.sema.woken;
    assert t in s.empty.queue ==> t !in s.empty.woken;
    assert t in s.full.queue ==> t !in s.full.woken;
    hide AllLinked, MutexOk, SemaOk, Balanced, StoreOk;
  }

  /** A thread outside can always call, and gets through the first P exactly when a slot, or an item, is spare. */
  lemma CallEnters(s: State, t: Thread, op: Op)
    requires Inv(s) && At(s.pcs, t).Outside?
    ensures Enabled(s, Call(t, op))
    ensures At(Step(s, Call(t, op)).pcs, t) == if Spare(s, op) > 0 then Admitted(op) else AtFirst(op)
  {
    SpareIs(s, op);
    hide Inv, Attempt, Passes, Spare, Waits, Coming, Going, With;
  }
}
