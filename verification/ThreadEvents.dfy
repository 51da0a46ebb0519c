/** What each event of the thread machine does to threads, queues and the ready list, stated on the state before and
    after it, and the order in which conditions are left. */
module ThreadEvents {
  import opened Collections
  import opened Lists
  import opened Semaphores
  import opened ThreadMachine

  // ---------------------------------------------------------------------------
  // What stays

  /** No thread but the given ones changes, comes or goes. */
  ghost predicate OthersSame(m: Machine, r: Machine, ts: set<Thread>) {
    forall t :: t !in ts ==>
      (t in r.threads <==> t in m.threads) && (t in m.threads ==> r.threads[t] == m.threads[t])
  }

  ghost predicate SameRunner(m: Machine, r: Machine) {
    r.current == m.current && r.mode == m.mode
  }

  ghost predicate SameSems(m: Machine, r: Machine) {
    r.sems == m.sems && r.holder == m.holder && r.owners == m.owners
  }

  ghost predicate SameTable(m: Machine, r: Machine) {
    r.table == m.table && r.doomed == m.doomed
  }

  // ---------------------------------------------------------------------------
  // What becomes of one thread

  /** The list after t joined it: behind all whose priority number is not larger, before all others. */
  ghost predicate JoinsAt(xs: seq<Keyed<Thread>>, ys: seq<Keyed<Thread>>, t: Thread, priority: int, p: nat) {
    && p <= |xs| && ys == xs[..p] + [Keyed(priority, t)] + xs[p..]
    && (forall i :: 0 <= i < p ==> xs[i].key <= priority)
    && (forall i :: p <= i < |xs| ==> priority < xs[i].key)
  }

  ghost predicate Joins(xs: seq<Keyed<Thread>>, ys: seq<Keyed<Thread>>, t: Thread, priority: int) {
    exists p :: JoinsAt(xs, ys, t, priority, p)
  }

  /** t is READY, at its place in the ready list, and otherwise as it was. */
  ghost predicate Readied(m: Machine, r: Machine, t: Thread) {
    && t in m.threads && t in r.threads
    && r.threads[t] == m.threads[t].(status := Ready, place := OnReady)
    && Joins(m.ready, r.ready, t, m.threads[t].priority)
  }

  /** The current thread is BLOCKED, in the given list. */
  ghost predicate Slept(m: Machine, r: Machine, kont: Kont, place: Place) {
    && m.current in m.threads && m.current in r.threads
    && r.threads[m.current] == m.threads[m.current].(status := Blocked, kont := kont, place := place)
    && r.current == m.current && r.mode == Sleeps
  }

  /** The current thread goes on with its own code. */
  ghost predicate WentOn(m: Machine, r: Machine) {
    && m.current in m.threads && m.current in r.threads
    && r.threads[m.current] == m.threads[m.current].(kont := Onward)
    && r.current == m.current && r.mode == Runs
  }

  lemma InsertedJoins(xs: seq<Keyed<Thread>>, t: Thread, priority: int)
    requires Sorted(xs)
    ensures Joins(xs, Inserted(xs, Keyed(priority, t)), t, priority)
  {
    InsertedSorted(xs, Keyed(priority, t));
    assert JoinsAt(xs, Inserted(xs, Keyed(priority, t)), t, priority, Position(xs, priority));
  }

  lemma ReadySorted(m: Machine)
    requires Inv(m)
    ensures Sorted(m.ready)
  {
    hide TcbsOk, SemsOk, CondsOk, LocksOk, TableOk;
  }

  lemma MadeReady(m: Machine, t: Thread)
    requires Sorted(m.ready) && t in m.threads
    ensures var r := MakeReady(m, t);
      && Readied(m, r, t) && OthersSame(m, r, {t}) && SameRunner(m, r) && SameSems(m, r) && SameTable(m, r)
      && r.conds == m.conds
  {
    hide Inserted, Joins;
    InsertedJoins(m.ready, t, m.threads[t].priority);
  }

  // ---------------------------------------------------------------------------
  // Creating and forking

  /** A new thread has the lowest id that is free, and is on no list. */
  lemma CreateDoes(m: Machine, t: Thread, priority: int)
    requires Inv(m) && Enabled(m, Create(t, priority))
    ensures var r := Next(m, Create(t, priority));
      && OthersSame(m, r, {t}) && SameRunner(m, r) && SameSems(m, r) && r.conds == m.conds && r.ready == m.ready
      && t in r.threads && r.doomed == m.doomed
      && var k := r.threads[t];
      && k.status == JustCreated && k.priority == priority && k.kont == Fresh && k.place == Nowhere
      && k.id < |m.table| && m.table[k.id] == None && r.table == m.table[k.id := Some(t)]
      && forall j :: 0 <= j < k.id ==> m.table[j] != None
  {
    hide Inv;
  }

  /** Fork makes the thread READY. */
  lemma ForkDoes(m: Machine, t: Thread)
    requires Inv(m) && Enabled(m, Fork(t))
    ensures var r := Next(m, Fork(t));
      && Readied(m, r, t) && OthersSame(m, r, {t}) && SameRunner(m, r) && SameSems(m, r) && SameTable(m, r)
      && r.conds == m.conds
  {
    ReadySorted(m);
    hide Inv, MakeReady;
    MadeReady(m, t);
  }

  // ---------------------------------------------------------------------------
  // Semaphores and locks

  /** A pass through P: a unit is taken when there is one, and for a lock the thread becomes its holder; otherwise the
      thread sleeps at the end of the queue. */
  ghost predicate PassDone(m: Machine, r: Machine, s: SemId) {
    && s in m.sems && s in r.sems && (forall u :: u in m.sems && u != s ==> u in r.sems && r.sems[u] == m.sems[u])
    && OthersSame(m, r, {m.current}) && SameTable(m, r) && r.conds == m.conds && r.ready == m.ready
    && if m.sems[s].value != 0
       then
         && WentOn(m, r)
         && r.sems[s].value == m.sems[s].value - 1 && r.sems[s].queue == m.sems[s].queue
         && (forall l :: l in m.holder ==>
               l in r.holder && r.holder[l] == if s == OfLock(l) then Some(m.current) else m.holder[l])
       else
         && Slept(m, r, Recheck(s), OnSem(s)) && r.holder == m.holder
         && r.sems[s].value == 0 && r.sems[s].queue == m.sems[s].queue + [m.current]
  }

  lemma PassedDoes(m: Machine, s: SemId)
    requires m.current in m.threads && s in m.sems && (s.OfLock? ==> s.l in m.owners)
    ensures PassDone(m, Passed(m, s), s)
  {
  }

  lemma PDoes(m: Machine, n: nat)
    requires Inv(m) && Enabled(m, P(n))
    ensures PassDone(m, Next(m, P(n)), User(n))
  {
    RunnerPasses(m, User(n));
    PassedKeeps(m, User(n));
    hide Inv, PassDone, Passed;
    PassedDoes(m, User(n));
  }

  lemma AcquireDoes(m: Machine, l: nat)
    requires Inv(m) && Enabled(m, Acquire(l))
    ensures PassDone(m, Next(m, Acquire(l)), OfLock(l))
  {
    RunnerPasses(m, OfLock(l));
    PassedKeeps(m, OfLock(l));
    hide Inv, PassDone, Passed;
    PassedDoes(m, OfLock(l));
  }

  /** A V: the value goes up by one, and who has waited longest becomes READY. */
  ghost predicate UpDone(m: Machine, r: Machine, s: SemId) {
    && s in m.sems && s in r.sems && (forall u :: u in m.sems && u != s ==> u in r.sems && r.sems[u] == m.sems[u])
    && SameRunner(m, r) && SameTable(m, r) && r.conds == m.conds
    && r.sems[s].value == m.sems[s].value + 1
    && if m.sems[s].queue == []
       then r.sems[s].queue == [] && r.threads == m.threads && r.ready == m.ready
       else
         var t := m.sems[s].queue[0];
         r.sems[s].queue == m.sems[s].queue[1..] && Readied(m, r, t) && OthersSame(m, r, {t})
  }

  lemma UppedDoes(m: Machine, s: SemId)
    requires Sorted(m.ready) && s in m.sems && (m.sems[s].queue != [] ==> m.sems[s].queue[0] in m.threads)
    ensures UpDone(m, Upped(m, s), s)
  {
    hide MakeReady, Readied;
    if m.sems[s].queue != [] {
      var m' := m.(sems := m.sems[s := V(m.sems[s])]);
      MadeReady(m', m.sems[s].queue[0]);
      assert Readied(m, Upped(m, s), m.sems[s].queue[0]) by { SameReadied(m, m', Upped(m, s), m.sems[s].queue[0]); }
    }
  }

  lemma SameReadied(m: Machine, m': Machine, r: Machine, t: Thread)
    requires Readied(m', r, t) && m'.threads == m.threads && m'.ready == m.ready
    ensures Readied(m, r, t)
  {
  }

  lemma UpDoes(m: Machine, n: nat)
    requires Inv(m) && Enabled(m, Event.Up(n))
    ensures UpDone(m, Next(m, Event.Up(n)), User(n))
    ensures Next(m, Event.Up(n)).holder == m.holder
  {
    hide Inv, UpDone, Upped;
    ReadySorted(m);
    UppedKeeps(m, n);
    UppedDoes(m, User(n));
    UpHolder(m, User(n));
  }

  lemma ReleasedDoes(m: Machine, l: nat)
    requires Inv(m) && HoldsLock(m, l)
    ensures OfLock(l) in m.sems
    ensures m.sems[OfLock(l)].queue != [] ==> m.sems[OfLock(l)].queue[0] in m.threads
    ensures UpDone(m, Released(m, l), OfLock(l)) && Released(m, l).holder == m.holder[l := None]
  {
    ReadySorted(m);
    ReleasedKeeps(m, l);
    hide Inv, Upped, UpDone;
    var m' := m.(holder := m.holder[l := None], owners := m.owners[l := m.owners[l] - {m.current}]);
    UppedDoes(m', OfLock(l));
    UpHolder(m', OfLock(l));
    SameUp(m, m', Released(m, l), OfLock(l));
  }

  lemma UpHolder(m: Machine, s: SemId)
    requires s in m.sems && (m.sems[s].queue != [] ==> m.sems[s].queue[0] in m.threads)
    ensures Upped(m, s).holder == m.holder
  {
  }

  lemma SameUp(m: Machine, m': Machine, r: Machine, s: SemId)
    requires UpDone(m', r, s) && m' == m.(holder := m'.holder, owners := m'.owners)
    ensures UpDone(m, r, s)
  {
    hide Joins;
  }

  /** Release frees the lock and is a V of its semaphore. */
  lemma ReleaseDoes(m: Machine, l: nat)
    requires Inv(m) && Enabled(m, Release(l))
    ensures var r := Next(m, Release(l)); UpDone(m, r, OfLock(l)) && r.holder == m.holder[l := None]
  {
    hide Inv, Released, UpDone;
    ReleasedDoes(m, l);
  }

  // ---------------------------------------------------------------------------
  // Conditions

  /** The current thread sleeps at the end of the queue of the condition. */
  ghost predicate WaitDone(m: Machine, r: Machine, c: nat, l: nat) {
    && c in m.conds && Slept(m, r, Reacquire(l), OnCond(c)) && OthersSame(m, r, {m.current})
    && r.conds == m.conds[c := m.conds[c] + [m.current]]
    && SameSems(m, r) && SameTable(m, r) && r.ready == m.ready
  }

  lemma WaitingDoes(m: Machine, c: nat, l: nat)
    requires m.current in m.threads && c in m.conds
    ensures WaitDone(m, Waiting(m, c, l), c, l)
  {
  }

  /** Wait releases the lock, and then the thread sleeps in the queue. */
  lemma WaitDoes(m: Machine, c: nat, l: nat) returns (between: Machine)
    requires Inv(m) && Enabled(m, Wait(c, l))
    ensures UpDone(m, between, OfLock(l)) && between.holder == m.holder[l := None]
    ensures WaitDone(between, Next(m, Wait(c, l)), c, l)
  {
    ReleasedKeeps(m, l);
    ReleasedDoes(m, l);
    hide Inv, UpDone, WaitDone, Waiting;
    between := Released(m, l);
    assert between.conds == m.conds;
    hide Released;
    WaitingKeeps(between, c, l);
    WaitingDoes(between, c, l);
  }

  /** The thread that has waited longest has become READY, and it and nobody else is off the queue; when nobody waits
      nothing happens. */
  ghost predicate SignalDone(m: Machine, r: Machine, c: nat) {
    && c in m.conds
    && if m.conds[c] == [] then r == m
       else
         var t := m.conds[c][0];
         && Readied(m, r, t) && OthersSame(m, r, {t}) && SameRunner(m, r) && SameSems(m, r) && SameTable(m, r)
         && r.conds == m.conds[c := m.conds[c][1..]]
  }

  lemma SignalledDoes(m: Machine, c: nat)
    requires Sorted(m.ready) && c in m.conds && (m.conds[c] != [] ==> m.conds[c][0] in m.threads)
    ensures SignalDone(m, Signalled(m, c), c)
  {
    hide MakeReady, Joins;
    if m.conds[c] != [] {
      MadeReady(m.(conds := m.conds[c := m.conds[c][1..]]), m.conds[c][0]);
    }
  }

  lemma SignalDoes(m: Machine, c: nat, l: nat)
    requires Inv(m) && Enabled(m, Signal(c, l))
    ensures SignalDone(m, Next(m, Signal(c, l)), c)
  {
    hide Inv, SignalDone, Signalled;
    ReadySorted(m);
    SignalledKeeps(m, c);
    SignalledDoes(m, c);
  }

  ghost function Members(ts: seq<Thread>): set<Thread> {
    set t | t in ts
  }

  ghost predicate Woken(m: Machine, r: Machine, t: Thread) {
    t in m.threads && t in r.threads && r.threads[t] == m.threads[t].(status := Ready, place := OnReady)
  }

  /** All who wait on c have become READY: they are on the ready list, in addition to those who were, and nobody else
      has changed. */
  ghost predicate AllWoken(m: Machine, r: Machine, c: nat) {
    && c in m.conds
    && (forall t :: t in m.conds[c] ==> Woken(m, r, t))
    && multiset(Untag(r.ready)) == multiset(Untag(m.ready)) + multiset(m.conds[c])
    && OthersSame(m, r, Members(m.conds[c])) && SameRunner(m, r) && SameSems(m, r) && SameTable(m, r)
    && r.conds == m.conds[c := []]
  }

  lemma JoinedList(xs: seq<Keyed<Thread>>, ys: seq<Keyed<Thread>>, t: Thread, priority: int)
    requires Joins(xs, ys, t, priority)
    ensures multiset(Untag(ys)) == multiset(Untag(xs)) + multiset{t}
  {
    var p: nat :| JoinsAt(xs, ys, t, priority, p);
    var us, vs := Untag(xs), Untag(ys);
    assert p <= |us|;
    assert us == us[..p] + us[p..];
    assert vs == us[..p] + [t] + us[p..];
  }

  lemma CondHeadOnce(m: Machine, c: nat)
    requires Inv(m) && c in m.conds && m.conds[c] != []
    ensures m.conds[c][0] !in m.conds[c][1..]
  {
    hide TcbsOk, ReadyOk, SemsOk, LocksOk, TableOk;
    assert CondLists(m.conds[c], c, m.threads);
    PopHead(m.conds[c]);
  }

  lemma FirstThenAll(m: Machine, r: Machine, s: Machine, c: nat)
    requires SignalDone(m, r, c) && m.conds[c] != [] && m.conds[c][0] !in m.conds[c][1..] && AllWoken(r, s, c)
    ensures AllWoken(m, s, c)
  {
    var ts := m.conds[c];
    assert ts == [ts[0]] + ts[1..];
    JoinedList(m.ready, r.ready, ts[0], m.threads[ts[0]].priority);
    hide Joins;
    assert ts[0] !in Members(ts[1..]);
    forall t | t in ts ensures Woken(m, s, t) {
      if t != ts[0] { assert t in ts[1..] && Woken(r, s, t); }
    }
    assert Members(ts) == {ts[0]} + Members(ts[1..]);
  }

  lemma {:induction false} EmptiedDoes(m: Machine, c: nat)
    requires Inv(m) && c in m.conds
    ensures AllWoken(m, Emptied(m, c), c)
    decreases |m.conds[c]|
  {
    ReadySorted(m);
    SignalledKeeps(m, c);
    hide Inv, AllWoken, SignalDone, Signalled;
    if m.conds[c] == [] {
      NobodyWoken(m, c);
    } else {
      CondHeadOnce(m, c);
      SignalledDoes(m, c);
      SignalledShortens(m, c);
      EmptiedDoes(Signalled(m, c), c);
      FirstThenAll(m, Signalled(m, c), Emptied(m, c), c);
    }
  }

  lemma SignalledShortens(m: Machine, c: nat)
    requires c in m.conds && m.conds[c] != [] && m.conds[c][0] in m.threads
    ensures c in Signalled(m, c).conds && |Signalled(m, c).conds[c]| < |m.conds[c]|
  {
  }

  lemma NobodyWoken(m: Machine, c: nat)
    requires c in m.conds && m.conds[c] == []
    ensures AllWoken(m, m, c)
  {
    assert m.conds[c := []] == m.conds;
  }

  lemma BroadcastDoes(m: Machine, c: nat, l: nat)
    requires Inv(m) && Enabled(m, Broadcast(c, l))
    ensures AllWoken(m, Next(m, Broadcast(c, l)), c)
  {
    hide Inv, AllWoken, Emptied;
    EmptiedDoes(m, c);
  }
  // ---------------------------------------------------------------------------
  // The processor

  /** The processor has gone to next. Unless next runs for the first time, the thread that was to be destroyed is gone
      and its id is free again. */
  ghost predicate SwitchDone(m: Machine, r: Machine, next: Thread) {
    && next in m.threads && next in r.threads
    && r.current == next && r.mode == Resumes
    && r.threads[next] == m.threads[next].(status := Running, place := Nowhere)
    && SameSems(m, r) && r.conds == m.conds && r.ready == m.ready
    && if m.threads[next].kont == Fresh || m.doomed == None
       then OthersSame(m, r, {next}) && SameTable(m, r)
       else
         var t := m.doomed.value;
         && t in m.threads && t !in r.threads && OthersSame(m, r, {next, t}) && r.doomed == None
         && m.threads[t].id < |m.table| && r.table == m.table[m.threads[t].id := None]
  }

  lemma SwitchedDoes(m: Machine, next: Thread)
    requires next in m.threads && Buriable(m) && m.doomed != Some(next)
    ensures SwitchDone(m, Switched(m, next), next)
  {
  }

  lemma HeadIsOther(m: Machine)
    requires Inv(m) && m.ready != []
    ensures m.ready[0].item in m.threads && Buriable(m)
    ensures m.doomed != Some(m.ready[0].item) && m.threads[m.ready[0].item].status == Ready
    ensures m.mode != Sleeps ==> m.ready[0].item != m.current
  {
    hide TcbsOk, ReadyOk, SemsOk, CondsOk, LocksOk;
    ReadyHead(m);
    TcbFact(m.current, m.mode, m.threads, m.ready[0].item);
  }

  /** The processor goes to the head of the ready list. */
  lemma DispatchDoes(m: Machine)
    requires Inv(m) && Enabled(m, Dispatch)
    ensures SwitchDone(m.(ready := m.ready[1..]), Next(m, Dispatch), m.ready[0].item)
  {
    hide Inv, SwitchDone, Switched;
    HeadIsOther(m);
    SwitchedDoes(m.(ready := m.ready[1..]), m.ready[0].item);
  }

  lemma RestSorted(xs: seq<Keyed<Thread>>)
    requires xs != [] && Sorted(xs)
    ensures Sorted(xs[1..])
  {
  }

  lemma DoomedElsewhere(m: Machine)
    requires Inv(m) && m.mode == Runs
    ensures m.current in m.threads && m.doomed != Some(m.current)
  {
    hide ReadyOk, SemsOk, CondsOk, LocksOk, TableOk;
    TcbFact(m.current, m.mode, m.threads, m.current);
  }

  /** The head of the list is taken off, and the thread that yields joins it. */
  ghost predicate GivenWay(m: Machine, r: Machine) {
    && m.ready != [] && m.current in m.threads && m.current in r.threads && OthersSame(m, r, {m.current})
    && r.threads[m.current] == m.threads[m.current].(status := Ready, place := OnReady, kont := Onward)
    && Joins(m.ready[1..], r.ready, m.current, m.threads[m.current].priority)
    && SameSems(m, r) && SameTable(m, r) && r.conds == m.conds
  }

  lemma YieldedDoes(m: Machine) returns (between: Machine)
    requires Sorted(m.ready) && m.ready != [] && m.current in m.threads && m.ready[0].item in m.threads && Buriable(m)
    requires m.ready[0].item != m.current && m.doomed != Some(m.ready[0].item) && m.doomed != Some(m.current)
    ensures GivenWay(m, between) && SwitchDone(between, Yielded(m), m.ready[0].item)
  {
    hide SwitchDone, Switched, Inserted, Joins;
    var k := m.threads[m.current];
    var m' := m.(ready := m.ready[1..], threads := m.threads[m.current := k.(kont := Onward)]);
    between := MakeReady(m', m.current);
    RestSorted(m.ready);
    InsertedJoins(m'.ready, m.current, k.priority);
    SwitchedDoes(between, m.ready[0].item);
  }

  /** Yield does nothing when nobody is ready. Otherwise the thread gives way, and the processor goes to the head of the
      list. */
  lemma YieldDoes(m: Machine) returns (between: Machine)
    requires Inv(m) && Enabled(m, Yield)
    ensures m.ready == [] ==> Next(m, Yield) == m
    ensures m.ready != [] ==> GivenWay(m, between) && SwitchDone(between, Next(m, Yield), m.ready[0].item)
  {
    hide Inv, SwitchDone, GivenWay, Yielded;
    between := m;
    if m.ready != [] {
      ReadySorted(m);
      YieldedKeeps(m);
      HeadIsOther(m);
      DoomedElsewhere(m);
      between := YieldedDoes(m);
    }
  }

  /** Finish: the thread sleeps for good, and is the one to be destroyed. */
  lemma FinishDoes(m: Machine)
    requires Inv(m) && Enabled(m, Finish)
    ensures var r := Next(m, Finish);
      && Slept(m, r, Dead, Nowhere) && OthersSame(m, r, {m.current}) && r.doomed == Some(m.current)
      && SameSems(m, r) && r.conds == m.conds && r.ready == m.ready && r.table == m.table
  {
    hide Inv;
    FinishedKeeps(m);
  }

  /** A thread that has the processor again goes on, or looks at the value of its semaphore again, or takes back the
      lock of the condition on which it waited. */
  ghost predicate ResumeDone(m: Machine, r: Machine) {
    && m.current in m.threads
    && match m.threads[m.current].kont
       case Recheck(s) => PassDone(m, r, s)
       case Reacquire(l) => PassDone(m, r, OfLock(l))
       case _ =>
         && WentOn(m, r) && OthersSame(m, r, {m.current}) && SameSems(m, r) && SameTable(m, r)
         && r.conds == m.conds && r.ready == m.ready
  }

  lemma ResumeDoes(m: Machine)
    requires Inv(m) && Enabled(m, Resume)
    ensures ResumeDone(m, Next(m, Resume))
  {
    hide Inv, Passed, PassDone;
    ResumesWell(m);
    match m.threads[m.current].kont {
      case Recheck(s) => PassesAgain(m, s); PassedDoes(m, s);
      case Reacquire(l) => PassesAgain(m, OfLock(l)); PassedDoes(m, OfLock(l));
      case Fresh =>
      case Onward =>
    }
  }

  lemma PassesAgain(m: Machine, s: SemId)
    requires Inv(m) && s in m.sems
    ensures s.OfLock? ==> s.l in m.owners
  {
    hide TcbsOk, ReadyOk, SemsOk, CondsOk, TableOk;
  }

  // ---------------------------------------------------------------------------
  // Conditions over runs

  /** What an event does to the queue of one condition. */
  lemma CondStep(m: Machine, e: Event, c: nat)
    requires Inv(m) && Enabled(m, e) && c in m.conds
    ensures c in Next(m, e).conds
    ensures Next(m, e).conds[c] ==
      if e.Wait? && e.c == c then m.conds[c] + [m.current]
      else if e.Signal? && e.c == c && m.conds[c] != [] then m.conds[c][1..]
      else if e.Broadcast? && e.c == c then []
      else m.conds[c]
  {
    hide Inv, PassDone, UpDone, Next, Joins;
    match e {
      case Create(t, priority) => CreateDoes(m, t, priority);
      case Fork(t) => ForkDoes(m, t);
      case Yield => var between := YieldDoes(m);
      case Finish => FinishDoes(m);
      case P(n) => PDoes(m, n); PassConds(m, Next(m, e), User(n));
      case Up(n) => UpDoes(m, n); UpConds(m, Next(m, e), User(n));
      case Acquire(l) => AcquireDoes(m, l); PassConds(m, Next(m, e), OfLock(l));
      case Release(l) => ReleaseDoes(m, l); UpConds(m, Next(m, e), OfLock(l));
      case Wait(d, l) =>
        var between := WaitDoes(m, d, l);
        UpConds(m, between, OfLock(l));
      case Signal(d, l) => SignalDoes(m, d, l);
      case Broadcast(d, l) => BroadcastDoes(m, d, l);
      case Dispatch => DispatchDoes(m);
      case Resume => ResumeConds(m);
    }
  }

  lemma PassConds(m: Machine, r: Machine, s: SemId)
    requires PassDone(m, r, s)
    ensures r.conds == m.conds
  {
  }

  lemma UpConds(m: Machine, r: Machine, s: SemId)
    requires UpDone(m, r, s)
    ensures r.conds == m.conds && r.current == m.current
  {
  }

  lemma ResumeConds(m: Machine)
    requires Inv(m) && Enabled(m, Resume)
    ensures Next(m, Resume).conds == m.conds
  {
    hide Inv, Next, PassDone;
    ResumeDoes(m);
    match m.threads[m.current].kont {
      case Recheck(s) => PassConds(m, Next(m, Resume), s);
      case Reacquire(l) => PassConds(m, Next(m, Resume), OfLock(l));
      case _ =>
    }
  }

  /** The threads that went to sleep on c in a run, and those that Signal and Broadcast took off its queue, in order. */
  ghost function Entered(m: Machine, es: seq<Event>, c: nat): seq<Thread>
    requires Inv(m) && After(m, es).Some?
  {
    if es == [] then []
    else
      var front, e := es[..|es| - 1], es[|es| - 1];
      var m' := After(m, front).value;
      Entered(m, front, c) + if e.Wait? && e.c == c then [m'.current] else []
  }

  ghost function TakenOff(m: Machine, es: seq<Event>, c: nat): seq<Thread>
    requires Inv(m) && After(m, es).Some?
  {
    if es == [] then []
    else
      var front, e := es[..|es| - 1], es[|es| - 1];
      var m' := After(m, front).value;
      TakenOff(m, front, c) +
        if c !in m'.conds || m'.conds[c] == [] then []
        else if e.Signal? && e.c == c then [m'.conds[c][0]]
        else if e.Broadcast? && e.c == c then m'.conds[c]
        else []
  }

  /** In every run threads leave a condition in the order in which they came to wait, each once and only by Signal and
      Broadcast: those taken off and those still waiting are all who came. */
  lemma {:induction false} ConditionsAreFair(m: Machine, es: seq<Event>, c: nat)
    requires Inv(m) && After(m, es).Some? && c in m.conds
    ensures c in After(m, es).value.conds
    ensures m.conds[c] + Entered(m, es, c) == TakenOff(m, es, c) + After(m, es).value.conds[c]
  {
    hide Inv, Next, Enabled;
    if es != [] {
      var front, e := es[..|es| - 1], es[|es| - 1];
      ConditionsAreFair(m, front, c);
      var m' := After(m, front).value;
      CondStep(m', e, c);
      QueueMoves(m.conds[c], Entered(m, front, c), TakenOff(m, front, c), m'.conds[c], m'.current);
    }
  }

  lemma QueueMoves(start: seq<Thread>, entered: seq<Thread>, off: seq<Thread>, queue: seq<Thread>, t: Thread)
    requires start + entered == off + queue
    ensures start + (entered + [t]) == off + (queue + [t])
    ensures queue != [] ==> start + entered == (off + [queue[0]]) + queue[1..]
    ensures start + entered == (off + queue) + []
    ensures start + (entered + []) == (off + []) + queue
    ensures start + (entered + [t]) == (off + []) + (queue + [t])
  {
    assert start + (entered + [t]) == (start + entered) + [t];
    assert off + (queue + [t]) == (off + queue) + [t];
    assert entered + [] == entered && off + [] == off;
    if queue != [] { assert queue == [queue[0]] + queue[1..]; }
  }

  /** The processor is held up exactly while the current thread has gone to sleep and nobody is ready, as in the loop of
      Sleep around Idle. An interrupt handler's V on a semaphore with waiters then gets it going again, with the one
      that has waited longest. */
  lemma ProcessorGoesOn(m: Machine, n: nat)
    requires Inv(m)
    ensures (exists e: Event :: !e.Up? && Enabled(m, e)) <==> m.mode != Sleeps || m.ready != []
    ensures m.mode == Sleeps && m.ready == [] && User(n) in m.sems && m.sems[User(n)].queue != [] ==>
      && Enabled(m, Event.Up(n))
      && var r := Next(m, Event.Up(n));
      && Enabled(r, Dispatch) && |r.ready| == 1 && r.ready[0].item == m.sems[User(n)].queue[0]
  {
    hide Inv;
    match m.mode {
      case Runs => assert Enabled(m, Yield);
      case Resumes => assert Enabled(m, Resume);
      case Sleeps => assert Enabled(m, Dispatch) <==> m.ready != [];
    }
    if m.mode == Sleeps && m.ready == [] && User(n) in m.sems && m.sems[User(n)].queue != [] {
      hide Next;
      UpDoes(m, n);
    }
  }
}
