/** A lock around an asynchronous device and a semaphore that its completion interrupt raises: filesys/synchdisk.cc over
    machine/disk.cc, and the sending half of network/post.cc over machine/network.cc. Any number of threads call, and
    the interrupt may come at any later time. Requests are numbered in the order in which they are issued. */
module DeviceProtocol {
  import opened Semaphores
  import opened Mutexes

  datatype Pc =
    | Outside
    | Entering               // in lock->Acquire
    | Holding                // has the lock, before the request is issued
    | Requested(k: nat)      // request k is issued, before semaphore->P
    | Sleeping(k: nat)       // in semaphore->P
    | Completed(k: nat)      // past semaphore->P, before lock->Release

  /** done counts the completion interrupts; returned holds the numbers of the requests whose calls have returned. */
  datatype State = State(
    pcs: map<Thread, Pc>, lock: Mutex, semaphore: Sema, sleepers: set<Thread>,
    active: bool, issued: nat, done: nat, returned: set<nat>)

  function At(pcs: map<Thread, Pc>, t: Thread): Pc {
    if t in pcs then pcs[t] else Outside
  }

  function Move(s: State, t: Thread, pc: Pc): State {
    s.(pcs := s.pcs[t := pc])
  }

  function Acquire(s: State, t: Thread): State {
    Move(s.(lock := Acquired(s.lock, t)), t, if Free(s.lock) then Holding else Entering)
  }

  /** Issues a request, behind the ASSERT that the device is idle. */
  function Issue(s: State, t: Thread): State {
    Move(s, t, Requested(s.issued)).(active := true, issued := s.issued + 1)
  }

  function Pass(s: State, t: Thread, k: nat): State {
    var s' := s.(semaphore := Attempt(s.semaphore, t));
    if Passes(s.semaphore) then Move(s', t, Completed(k)).(sleepers := s.sleepers - {t})
    else Move(s', t, Sleeping(k)).(sleepers := s.sleepers + {t})
  }

  function Return(s: State, t: Thread, k: nat): State {
    Move(s.(lock := Released(s.lock, t)), t, Outside).(returned := s.returned + {k})
  }

  /** The completion interrupt, whose handler raises the semaphore. */
  function Interrupt(s: State): State {
    s.(active := false, semaphore := V(s.semaphore), done := s.done + 1)
  }

  datatype Event = Call(t: Thread) | Go(t: Thread) | Completion

  predicate Enabled(s: State, e: Event) {
    match e
    case Call(t) => At(s.pcs, t).Outside?
    case Completion => s.active
    case Go(t) =>
      match At(s.pcs, t)
      case Outside => false
      case Entering => MayRetry(s.lock, t)
      case Sleeping(_) => t in s.semaphore.woken
      case _ => true
  }

  /** "Only one request at a time". */
  predicate AssertionHolds(s: State, e: Event) {
    e.Go? && At(s.pcs, e.t).Holding? ==> !s.active
  }

  function Step(s: State, e: Event): State
    requires Enabled(s, e)
  {
    match e
    case Call(t) => Acquire(s, t)
    case Completion => Interrupt(s)
    case Go(t) =>
      match At(s.pcs, t)
      case Entering => Acquire(s, t)
      case Holding => Issue(s, t)
      case Requested(k) => Pass(s, t, k)
      case Sleeping(k) => Pass(s, t, k)
      case Completed(k) => Return(s, t, k)
  }

  // ---------------------------------------------------------------------------

  predicate HasLock(pc: Pc) {
    !pc.Outside? && !pc.Entering?
  }

  predicate InFlight(pc: Pc) {
    pc.Requested? || pc.Sleeping?
  }

  ghost predicate Linked(s: State, t: Thread) {
    var pc := At(s.pcs, t);
    && (t in s.lock.waiting <==> pc.Entering?)
    && (t in s.lock.holder <==> HasLock(pc))
    && (t in s.sleepers <==> pc.Sleeping?)
    && (InFlight(pc) ==> pc.k + 1 == s.issued)
    && (pc.Completed? ==> pc.k < s.done)
  }

  ghost predicate AllLinked(s: State) {
    forall t :: Linked(s, t)
  }

  /** Where the device stands, as the lock holder's position tells. */
  ghost predicate DeviceOk(s: State) {
    && s.issued == s.done + (if s.active then 1 else 0)
    && (forall k :: k in s.returned ==> k < s.done)
    && (forall t :: InFlight(At(s.pcs, t)) ==> s.semaphore.value == if s.active then 0 else 1)
    && (s.active || s.semaphore.value != 0 ==> exists t :: InFlight(At(s.pcs, t)))
    && s.semaphore.value >= 0
    && (s.active ==> s.semaphore.woken == {})
  }

  ghost predicate Inv(s: State) {
    MutexOk(s.lock) && WaitersOk(s.semaphore, s.sleepers) && AllLinked(s) && DeviceOk(s)
  }

  lemma OthersLinked(s: State, s': State, t: Thread)
    requires AllLinked(s) && Linked(s', t)
    requires forall u :: u != t ==> At(s'.pcs, u) == At(s.pcs, u)
    requires forall u :: u != t ==>
      (u in s'.lock.waiting <==> u in s.lock.waiting) && (u in s'.lock.holder <==> u in s.lock.holder)
    requires forall u :: u != t ==> (u in s'.sleepers <==> u in s.sleepers)
    requires s'.done == s.done && (s'.issued == s.issued || forall u :: u != t ==> !InFlight(At(s.pcs, u)))
    ensures AllLinked(s')
  {
    forall u ensures Linked(s', u) { assert Linked(s, u); }
  }

  /** The lock holder is the only one that has anything to do with the device. */
  lemma HolderOnly(s: State, t: Thread)
    requires MutexOk(s.lock) && AllLinked(s) && HasLock(At(s.pcs, t))
    ensures forall u :: u != t ==> !HasLock(At(s.pcs, u)) && !InFlight(At(s.pcs, u))
    ensures s.sleepers <= {t}
  {
    assert Linked(s, t);
    HolderAlone(s.lock, t);
    forall u | u != t ensures !HasLock(At(s.pcs, u)) && !InFlight(At(s.pcs, u)) && u !in s.sleepers {
      assert Linked(s, u);
    }
  }

  lemma AcquireLinks(s: State, t: Thread)
    requires AllLinked(s) && (At(s.pcs, t).Outside? || At(s.pcs, t).Entering?)
    ensures AllLinked(Acquire(s, t))
    ensures forall u :: InFlight(At(Acquire(s, t).pcs, u)) <==> InFlight(At(s.pcs, u))
  {
    assert Linked(s, t);
    assert Linked(Acquire(s, t), t);
    hide Linked;
    OthersLinked(s, Acquire(s, t), t);
  }

  lemma DeviceFrame(s: State, s': State)
    requires DeviceOk(s) && s' == s.(pcs := s'.pcs, lock := s'.lock)
    requires forall u :: InFlight(At(s'.pcs, u)) <==> InFlight(At(s.pcs, u))
    ensures DeviceOk(s')
  {
  }

  lemma AcquireKeeps(s: State, t: Thread)
    requires Inv(s) && (At(s.pcs, t).Outside? || (At(s.pcs, t).Entering? && MayRetry(s.lock, t)))
    ensures Inv(Acquire(s, t))
  {
    assert Linked(s, t);
    hide MutexOk, WaitersOk, Linked, AllLinked, DeviceOk;
    AcquiredOk(s.lock, t);
    AcquireLinks(s, t);
    DeviceFrame(s, Acquire(s, t));
  }

  lemma IssueKeeps(s: State, t: Thread)
    requires Inv(s) && At(s.pcs, t).Holding?
    ensures !s.active && Inv(Issue(s, t))
  {
    var s' := Issue(s, t);
    HolderOnly(s, t);
    assert !InFlight(At(s.pcs, t));
    assert Linked(s, t);
    assert Linked(s', t);
    hide MutexOk, WaitersOk, Linked;
    OthersLinked(s, s', t);
    assert InFlight(At(s'.pcs, t));
  }

  lemma PassKeeps(s: State, t: Thread)
    requires Inv(s) && InFlight(At(s.pcs, t)) && (At(s.pcs, t).Sleeping? ==> t in s.semaphore.woken)
    ensures Inv(Pass(s, t, At(s.pcs, t).k))
  {
    var s' := Pass(s, t, At(s.pcs, t).k);
    assert Linked(s, t);
    hide MutexOk, WaitersOk, AllLinked;
    HolderOnly(s, t);
    WaitersAttempt(s.semaphore, s.sleepers, t);
    assert Linked(s', t);
    OthersLinked(s, s', t);
    assert InFlight(At(s'.pcs, t)) || (!s'.active && s'.semaphore.value == 0);
  }

  lemma ReturnKeeps(s: State, t: Thread)
    requires Inv(s) && At(s.pcs, t).Completed?
    ensures Inv(Return(s, t, At(s.pcs, t).k))
  {
    var s' := Return(s, t, At(s.pcs, t).k);
    HolderOnly(s, t);
    assert Linked(s, t);
    assert Linked(s', t);
    hide MutexOk, WaitersOk, Linked;
    ReleasedOk(s.lock, t);
    OthersLinked(s, s', t);
    assert forall u :: InFlight(At(s'.pcs, u)) <==> InFlight(At(s.pcs, u));
  }

  lemma InterruptKeeps(s: State)
    requires Inv(s) && s.active
    ensures Inv(Interrupt(s))
  {
    var s' := Interrupt(s);
    WaitersUp(s.semaphore, s.sleepers);
    forall t ensures Linked(s', t) { assert Linked(s, t); }
    hide Linked, MutexOk, WaitersOk;
    var t :| InFlight(At(s.pcs, t));
    assert InFlight(At(s'.pcs, t));
  }

  lemma StepKeeps(s: State, e: Event)
    requires Inv(s) && Enabled(s, e)
    ensures AssertionHolds(s, e) && Inv(Step(s, e))
  {
    hide Inv, Acquire, Issue, Pass, Return, Interrupt;
    match e
    case Call(t) => AcquireKeeps(s, t);
    case Completion => InterruptKeeps(s);
    case Go(t) =>
      match At(s.pcs, t)
      case Entering => AcquireKeeps(s, t);
      case Holding => IssueKeeps(s, t);
      case Requested(_) => PassKeeps(s, t);
      case Sleeping(_) => PassKeeps(s, t);
      case Completed(_) => ReturnKeeps(s, t);
  }

  // ---------------------------------------------------------------------------

  const IDLE := State(map[], NEW_MUTEX, NewSema(0), {}, false, 0, 0, {})

  lemma IdleInv()
    ensures Inv(IDLE)
  {
  }

  predicate CanHappen(s: State, es: seq<Event>)
    decreases es
  {
    es == [] || (Enabled(s, es[0]) && CanHappen(Step(s, es[0]), es[1..]))
  }

  function After(s: State, es: seq<Event>): State
    requires CanHappen(s, es)
    decreases es
  {
    if es == [] then s else After(Step(s, es[0]), es[1..])
  }

  lemma {:induction false} RunKeeps(s: State, es: seq<Event>)
    requires Inv(s) && CanHappen(s, es)
    ensures Inv(After(s, es))
    decreases es
  {
    hide Inv, Step;
    if es != [] {
      StepKeeps(s, es[0]);
      RunKeeps(Step(s, es[0]), es[1..]);
    }
  }

  /** In every interleaving with any interrupt timing: the next step never trips the assertion; a call returns only
      when the interrupt of its own request has come; and while the lock is free the device is idle and the
      semaphore is 0. */
  lemma RequestsAreAtomic(es: seq<Event>, e: Event)
    requires CanHappen(IDLE, es) && Enabled(After(IDLE, es), e)
    ensures var s := After(IDLE, es);
      && AssertionHolds(s, e)
      && (e.Go? && At(s.pcs, e.t).Completed? ==> At(s.pcs, e.t).k < s.done)
      && (s.lock.holder == {} ==> !s.active && s.semaphore.value == 0 && s.done == s.issued)
  {
    IdleInv();
    RunKeeps(IDLE, es);
    var s := After(IDLE, es);
    hide After;
    StepKeeps(s, e);
    if e.Go? { assert Linked(s, e.t); }
    if s.lock.holder == {} {
      forall t ensures !InFlight(At(s.pcs, t)) { assert Linked(s, t); }
    }
  }

  /** A thread asleep in the semaphore's queue is waiting for an interrupt that is still to come. */
  lemma SleeperHasInterrupt(s: State, t: Thread)
    requires Inv(s) && t in s.semaphore.queue
    ensures s.active
  {
    assert t in s.sleepers && Linked(s, t);
    HolderOnly(s, t);
    assert t !in s.semaphore.woken;
    assert s.semaphore.woken <= s.sleepers;
    assert s.semaphore.woken == {};
    assert InFlight(At(s.pcs, t));
  }

  /** How far a thread is from the return of its call. */
  function Left(pc: Pc): nat {
    match pc
    case Outside => 0
    case Completed(_) => 1
    case Sleeping(_) => 2
    case Requested(_) => 3
    case Holding => 4
    case Entering => 5
  }

  /** Every stretch advances its thread, unless the lock is taken, and moves no other thread. It goes on past the
      semaphore exactly when the interrupt has come, and so a woken thread never sleeps again. */
  lemma StretchAdvances(s: State, t: Thread)
    requires Inv(s) && Enabled(s, Go(t))
    ensures var pc, pc' := At(s.pcs, t), At(Step(s, Go(t)).pcs, t);
      && (Left(pc') < Left(pc) || (pc.Entering? && pc'.Entering? && s.lock.holder != {}))
      && (InFlight(pc) ==> pc' == if s.active then Sleeping(pc.k) else Completed(pc.k))
    ensures forall u :: u != t ==> At(Step(s, Go(t)).pcs, u) == At(s.pcs, u)
  {
    HolderAlone(s.lock, t);
    assert Linked(s, t);
    hide AllLinked, MutexOk, WaitersOk, Attempt;
  }

  /** A thread inside a call is held up exactly while it is in the queue of the lock or of the semaphore. */
  lemma HeldUpInQueues(s: State, t: Thread)
    requires Inv(s)
    ensures Enabled(s, Go(t)) <==> !At(s.pcs, t).Outside? && t !in s.lock.sema.queue && t !in s.semaphore.queue
  {
    assert Linked(s, t);
    assert t in s.lock.waiting <==> t in s.lock.sema.queue || t in s.lock.sema.woken;
    assert t in s.lock.sema.queue ==> t !in s.lock.sema.woken;
    assert t in s.semaphore.queue ==> t !in s.semaphore.woken;
    hide AllLinked, MutexOk, SemaOk, DeviceOk;
  }

  /** A thread outside can always call, and has the lock at once exactly when nobody else has it. */
  lemma CallEnters(s: State, t: Thread)
    requires Inv(s) && At(s.pcs, t).Outside?
    ensures Enabled(s, Call(t))
    ensures At(Step(s, Call(t)).pcs, t) == if s.lock.holder == {} then Holding else Entering
  {
    HolderAlone(s.lock, t);
    hide AllLinked, MutexOk, WaitersOk, DeviceOk, Acquired;
  }

  // ---------------------------------------------------------------------------
  // Every request belongs to one call

  predicate Owner(pc: Pc, k: nat) {
    (pc.Requested? || pc.Sleeping? || pc.Completed?) && pc.k == k
  }

  ghost predicate InHand(s: State, k: nat) {
    exists t :: Owner(At(s.pcs, t), k)
  }

  /** Exactly the requests issued have been returned or are in the hands of a thread, and none is both. */
  ghost predicate Owned(s: State) {
    && (forall k: nat :: k < s.issued <==> k in s.returned || InHand(s, k))
    && (forall k: nat :: !(k in s.returned && InHand(s, k)))
  }

  lemma SameOwners(s: State, s': State)
    requires forall k: nat, t :: Owner(At(s'.pcs, t), k) <==> Owner(At(s.pcs, t), k)
    ensures forall k: nat :: InHand(s', k) <==> InHand(s, k)
  {
    forall k: nat ensures InHand(s', k) <==> InHand(s, k) {
      if t :| Owner(At(s.pcs, t), k) { assert Owner(At(s'.pcs, t), k); }
      if t :| Owner(At(s'.pcs, t), k) { assert Owner(At(s.pcs, t), k); }
    }
  }

  lemma IssueOwned(s: State, t: Thread)
    requires Owned(s) && At(s.pcs, t).Holding?
    ensures Owned(Issue(s, t))
  {
    var s' := Issue(s, t);
    assert Owner(At(s'.pcs, t), s.issued);
    forall k: nat | k != s.issued ensures InHand(s', k) <==> InHand(s, k) {
      if u :| Owner(At(s.pcs, u), k) { assert Owner(At(s'.pcs, u), k); }
      if u :| Owner(At(s'.pcs, u), k) { assert Owner(At(s.pcs, u), k); }
    }
  }

  lemma ReturnOwned(s: State, t: Thread, k: nat)
    requires Owned(s) && At(s.pcs, t) == Completed(k)
    requires forall u :: u != t ==> !HasLock(At(s.pcs, u))
    ensures Owned(Return(s, t, k))
  {
    var s' := Return(s, t, k);
    hide Released;
    assert Owner(At(s.pcs, t), k);
    forall u ensures !HasLock(At(s'.pcs, u)) {
      if u != t { assert !HasLock(At(s.pcs, u)); }
    }
    assert forall j: nat, u :: Owner(At(s.pcs, u), j) ==> u == t && j == k;
  }

  lemma StepOwned(s: State, e: Event)
    requires Inv(s) && Enabled(s, e) && Owned(s)
    ensures Owned(Step(s, e))
  {
    if e.Go? && At(s.pcs, e.t).Holding? {
      IssueOwned(s, e.t);
    } else if e.Go? && At(s.pcs, e.t).Completed? {
      HolderOnly(s, e.t);
      hide Inv;
      ReturnOwned(s, e.t, At(s.pcs, e.t).k);
    } else {
      hide Inv, Owned, Attempt, V, Acquired;
      SameOwners(s, Step(s, e));
      SameRequests(s, Step(s, e));
    }
  }

  lemma SameRequests(s: State, s': State)
    requires Owned(s) && s'.issued == s.issued && s'.returned == s.returned
    requires forall k: nat :: InHand(s', k) <==> InHand(s, k)
    ensures Owned(s')
  {
    hide InHand;
  }

  /** In every interleaving each request issued so far has been returned by one call, or is in the hands of the one
      thread that has the lock. */
  lemma {:induction false} NoRequestForgotten(s: State, es: seq<Event>)
    requires Inv(s) && Owned(s) && CanHappen(s, es)
    ensures Inv(After(s, es)) && Owned(After(s, es))
    decreases es
  {
    hide Inv, Step, Owned;
    if es != [] {
      StepKeeps(s, es[0]);
      StepOwned(s, es[0]);
      NoRequestForgotten(Step(s, es[0]), es[1..]);
    }
  }

  lemma IdleOwned()
    ensures Owned(IDLE)
  {
  }
}
