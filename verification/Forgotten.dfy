/** Finished threads that are never destroyed. Thread::Finish leaves its thread in threadToBeDestroyed for the next
    thread that comes out of SWITCH; a thread that runs for the first time does not, and when it finishes too it
    overwrites the variable. */
module ForgottenThreads {
  import opened Collections
  import opened Lists
  import opened Semaphores
  import opened ThreadMachine

  /** Finished, and not the one that is to be destroyed. */
  ghost function Forgotten(m: Machine): set<Thread> {
    set t | t in m.threads && m.threads[t].kont == Dead && m.doomed != Some(t)
  }

  // ---------------------------------------------------------------------------
  // Steps that finish and destroy nobody

  ghost predicate SameLife(k: Tcb, k': Tcb) {
    k'.id == k.id && (k'.kont == Dead <==> k.kont == Dead)
  }

  ghost predicate Steady(m: Machine, r: Machine) {
    && r.doomed == m.doomed
    && (forall t :: t in m.threads ==> t in r.threads && SameLife(m.threads[t], r.threads[t]))
    && (forall t :: t in r.threads && t !in m.threads ==> r.threads[t].kont != Dead)
  }

  lemma SteadyForgets(m: Machine, r: Machine)
    requires Steady(m, r)
    ensures Forgotten(r) == Forgotten(m)
  {
  }

  lemma SteadyTwice(a: Machine, b: Machine, c: Machine)
    requires Steady(a, b) && Steady(b, c)
    ensures Steady(a, c)
  {
    assert forall t :: t in a.threads ==> t in b.threads;
  }

  lemma SteadyUpdate(m: Machine, r: Machine, t: Thread, k: Tcb)
    requires r.threads == m.threads[t := k] && r.doomed == m.doomed
    requires t in m.threads ==> SameLife(m.threads[t], k)
    requires t !in m.threads ==> k.kont != Dead
    ensures Steady(m, r)
  {
  }

  lemma AwakeIsAlive(m: Machine)
    requires Inv(m) && m.mode != Sleeps
    ensures m.current in m.threads && m.threads[m.current].kont != Dead
  {
    TcbFact(m.current, m.mode, m.threads, m.current);
  }

  lemma MadeReadySteady(m: Machine, t: Thread)
    requires t in m.threads
    ensures Steady(m, MakeReady(m, t))
  {
    hide Inserted;
    SteadyUpdate(m, MakeReady(m, t), t, m.threads[t].(status := Ready, place := OnReady));
  }

  lemma AsleepSteady(m: Machine, kont: Kont, place: Place)
    requires m.current in m.threads && m.threads[m.current].kont != Dead && kont != Dead
    ensures Steady(m, Asleep(m, kont, place))
  {
    SteadyUpdate(m, Asleep(m, kont, place), m.current, Asleep(m, kont, place).threads[m.current]);
  }

  lemma PassedSteady(m: Machine, s: SemId)
    requires Inv(m) && MayPass(m, s)
    ensures (s.OfLock? ==> s.l in m.owners) && Steady(m, Passed(m, s))
  {
    hide Inv;
    PassedKeeps(m, s);
    AwakeIsAlive(m);
    SteadyUpdate(m, Passed(m, s), m.current, Passed(m, s).threads[m.current]);
  }

  lemma UppedSteady(m: Machine, s: SemId)
    requires s in m.sems && (m.sems[s].queue != [] ==> m.sems[s].queue[0] in m.threads)
    ensures Steady(m, Upped(m, s))
  {
    if m.sems[s].queue != [] {
      var m' := m.(sems := m.sems[s := V(m.sems[s])]);
      MadeReadySteady(m', m.sems[s].queue[0]);
    }
  }

  lemma ReleasedSteady(m: Machine, l: nat)
    requires Inv(m) && HoldsLock(m, l)
    ensures OfLock(l) in m.sems && (m.sems[OfLock(l)].queue != [] ==> m.sems[OfLock(l)].queue[0] in m.threads)
    ensures Steady(m, Released(m, l))
  {
    hide Inv, Upped;
    ReleasedKeeps(m, l);
    UppedSteady(m.(holder := m.holder[l := None], owners := m.owners[l := m.owners[l] - {m.current}]), OfLock(l));
  }

  lemma SignalledSteady(m: Machine, c: nat)
    requires c in m.conds && (m.conds[c] != [] ==> m.conds[c][0] in m.threads)
    ensures Steady(m, Signalled(m, c))
  {
    if m.conds[c] != [] {
      MadeReadySteady(m.(conds := m.conds[c := m.conds[c][1..]]), m.conds[c][0]);
    }
  }

  lemma {:induction false} EmptiedSteady(m: Machine, c: nat)
    requires Inv(m) && c in m.conds
    ensures Steady(m, Emptied(m, c))
    decreases |m.conds[c]|
  {
    hide Inv;
    SignalledKeeps(m, c);
    if m.conds[c] != [] {
      SignalledSteady(m, c);
      EmptiedSteady(Signalled(m, c), c);
      SteadyTwice(m, Signalled(m, c), Emptied(m, c));
    }
  }

  lemma ResumedSteady(m: Machine)
    requires Inv(m) && m.mode == Resumes
    ensures Steady(m, Resumed(m))
  {
    hide Inv, Passed, Steady;
    ResumesWell(m);
    match m.threads[m.current].kont {
      case Recheck(s) => PassedSteady(m, s);
      case Reacquire(l) => PassedSteady(m, OfLock(l));
      case Fresh => SteadyUpdate(m, Onwards(m), m.current, m.threads[m.current].(kont := Onward));
      case Onward => SteadyUpdate(m, Onwards(m), m.current, m.threads[m.current].(kont := Onward));
    }
  }

  lemma WaitedSteady(m: Machine, c: nat, l: nat)
    requires Inv(m) && HoldsLock(m, l) && c in m.conds
    ensures Steady(m, Next(m, Wait(c, l)))
  {
    hide Inv;
    ReleasedKeeps(m, l);
    ReleasedSteady(m, l);
    var m' := Released(m, l);
    assert m'.conds == m.conds;
    hide Released;
    AwakeIsAlive(m');
    AsleepSteady(m'.(conds := m'.conds[c := m'.conds[c] + [m'.current]]), Reacquire(l), OnCond(c));
    SteadyTwice(m, m', Waiting(m', c, l));
  }

  /** Every event but Finish and the two that switch threads. */
  lemma OtherSteady(m: Machine, e: Event)
    requires Inv(m) && Enabled(m, e) && !e.Finish? && !e.Yield? && !e.Dispatch?
    ensures Steady(m, Next(m, e))
  {
    hide Inv, Passed, Upped, Released, Waiting, Signalled, Emptied, Resumed, MakeReady, FirstFree;
    match e {
      case Create(t, priority) =>
        SteadyUpdate(m, Created(m, t, priority), t, Tcb(JustCreated, priority, FirstFree(m.table), Fresh, Nowhere));
      case Fork(t) => MadeReadySteady(m, t);
      case P(n) => RunnerPasses(m, User(n)); PassedSteady(m, User(n));
      case Up(n) => UppedKeeps(m, n); UppedSteady(m, User(n));
      case Acquire(l) => RunnerPasses(m, OfLock(l)); PassedSteady(m, OfLock(l));
      case Release(l) => ReleasedSteady(m, l);
      case Wait(c, l) => WaitedSteady(m, c, l);
      case Signal(c, _) => SignalledKeeps(m, c); SignalledSteady(m, c);
      case Broadcast(c, _) => EmptiedSteady(m, c);
      case Resume => ResumedSteady(m);
    }
  }

  // ---------------------------------------------------------------------------
  // Finishing and switching

  /** A switch destroys the doomed thread, or nobody when the next thread is fresh. */
  lemma SwitchedForgets(m: Machine, next: Thread)
    requires next in m.threads && Buriable(m)
    ensures Forgotten(Switched(m, next)) == Forgotten(m)
    ensures forall t :: t in Forgotten(m) ==> Switched(m, next).threads[t].id == m.threads[t].id
  {
    var k := m.threads[next];
    var m' := m.(current := next, mode := Resumes,
      threads := m.threads[next := k.(status := Running, place := Nowhere)]);
    SteadyUpdate(m, m', next, k.(status := Running, place := Nowhere));
    SteadyForgets(m, m');
    assert Forgotten(Buried(m')) == Forgotten(m');
  }

  lemma DispatchedForgets(m: Machine)
    requires Inv(m) && m.mode == Sleeps && m.ready != []
    ensures Forgotten(Next(m, Dispatch)) == Forgotten(m)
    ensures forall t :: t in Forgotten(m) ==> Next(m, Dispatch).threads[t].id == m.threads[t].id
  {
    hide Inv, Switched;
    ReadyHead(m);
    var m' := m.(ready := m.ready[1..]);
    assert Forgotten(m') == Forgotten(m);
    SwitchedForgets(m', m.ready[0].item);
  }

  lemma YieldedForgets(m: Machine)
    requires Inv(m) && m.mode == Runs
    ensures Forgotten(Next(m, Yield)) == Forgotten(m)
    ensures forall t :: t in Forgotten(m) ==> Next(m, Yield).threads[t].id == m.threads[t].id
  {
    if m.ready != [] {
      hide Inv, Switched, Inserted;
      ReadyHead(m);
      AwakeIsAlive(m);
      var k := m.threads[m.current];
      var m1 := m.(ready := m.ready[1..], threads := m.threads[m.current := k.(kont := Onward)]);
      SteadyUpdate(m, m1, m.current, k.(kont := Onward));
      MadeReadySteady(m1, m.current);
      var m2 := MakeReady(m1, m.current);
      SteadyTwice(m, m1, m2);
      SteadyForgets(m, m2);
      SwitchedForgets(m2, m.ready[0].item);
    }
  }

  lemma FinishedForgets(m: Machine)
    requires Inv(m) && m.mode == Runs
    ensures Forgotten(Next(m, Finish)) == Forgotten(m) + HeldBy(m.doomed)
    ensures HeldBy(m.doomed) !! Forgotten(m)
    ensures forall t :: t in Forgotten(m) ==>
      t in Next(m, Finish).threads && Next(m, Finish).threads[t].id == m.threads[t].id
  {
    hide Inv, Forgotten, Finished;
    AwakeIsAlive(m);
    DoomedIsDead(m);
    FinishedDead(m);
  }

  lemma FinishedDead(m: Machine)
    requires m.current in m.threads && m.threads[m.current].kont != Dead
    requires m.doomed.Some? ==> m.doomed.value in m.threads && m.threads[m.doomed.value].kont == Dead
    ensures Forgotten(Finished(m)) == Forgotten(m) + HeldBy(m.doomed)
    ensures HeldBy(m.doomed) !! Forgotten(m)
    ensures forall t :: t in Forgotten(m) ==> t in Finished(m).threads && Finished(m).threads[t].id == m.threads[t].id
  {
    forall t ensures t in Forgotten(Finished(m)) <==> t in Forgotten(m) || t in HeldBy(m.doomed) {
    }
  }

  lemma DoomedIsDead(m: Machine)
    requires Inv(m)
    ensures m.doomed.Some? ==> m.doomed.value in m.threads && m.threads[m.doomed.value].kont == Dead
  {
  }

  /** Finish forgets a thread if and only if another one is still waiting for its destruction, and then that one; no
      other event forgets or recovers anybody, and a forgotten thread keeps its id. */
  lemma ForgottenStep(m: Machine, e: Event)
    requires Inv(m) && Enabled(m, e)
    ensures Forgotten(Next(m, e)) == Forgotten(m) + if e.Finish? then HeldBy(m.doomed) else {}
    ensures e.Finish? ==> HeldBy(m.doomed) !! Forgotten(m)
    ensures forall t :: t in Forgotten(m) ==> Next(m, e).threads[t].id == m.threads[t].id
  {
    hide Inv, Enabled, Next, Steady, Forgotten;
    EnabledMode(m, e);
    if e.Finish? {
      FinishedForgets(m);
    } else if e.Yield? {
      YieldedForgets(m);
    } else if e.Dispatch? {
      DispatchedForgets(m);
    } else {
      OtherSteady(m, e);
      SteadyForgets(m, Next(m, e));
      SteadyIds(m, Next(m, e));
    }
  }

  lemma EnabledMode(m: Machine, e: Event)
    requires Enabled(m, e)
    ensures e.Finish? || e.Yield? ==> m.mode == Runs
    ensures e.Dispatch? ==> m.mode == Sleeps && m.ready != []
  {
  }

  lemma SteadyIds(m: Machine, r: Machine)
    requires Steady(m, r)
    ensures forall t :: t in Forgotten(m) ==> t in r.threads && r.threads[t].id == m.threads[t].id
  {
  }

  // ---------------------------------------------------------------------------
  // Runs

  /** How many events of a run are a Finish while another thread still waits for its destruction. */
  ghost function LostFinishes(m: Machine, es: seq<Event>): nat
    requires Inv(m)
  {
    if es == [] then 0
    else
      var front, e := es[..|es| - 1], es[|es| - 1];
      var r := After(m, front);
      LostFinishes(m, front) + if r.Some? && e.Finish? && r.value.doomed.Some? then 1 else 0
  }

  /** The forgotten threads of a run are as many as those Finishes. */
  lemma {:induction false} ForgottenCount(m: Machine, es: seq<Event>)
    requires Inv(m) && After(m, es).Some?
    ensures |Forgotten(After(m, es).value)| == |Forgotten(m)| + LostFinishes(m, es)
  {
    hide Inv, Next, Enabled, Forgotten;
    if es != [] {
      var front, e := es[..|es| - 1], es[|es| - 1];
      ForgottenCount(m, front);
      ForgottenStep(After(m, front).value, e);
    }
  }

  /** Once forgotten a thread stays in the table, with its id, in every continuation. */
  lemma {:induction false} ForgottenForGood(m: Machine, es: seq<Event>, t: Thread)
    requires Inv(m) && After(m, es).Some? && t in Forgotten(m)
    ensures var r := After(m, es).value;
      && t in Forgotten(r) && r.threads[t].id == m.threads[t].id
      && r.threads[t].id < |r.table| && r.table[r.threads[t].id] == Some(t)
  {
    if es != [] {
      hide Next, Enabled;
      var front, e := es[..|es| - 1], es[|es| - 1];
      ForgottenForGood(m, front, t);
      ForgottenStep(After(m, front).value, e);
    }
  }

  /** Each forgotten thread costs one of the ids: with all of them forgotten or in use no thread can be created. */
  lemma ForgottenCostIds(m: Machine)
    requires Inv(m)
    ensures |Forgotten(m)| <= |m.threads| <= MAX_THREAD_NUM
    ensures |m.threads| == MAX_THREAD_NUM ==> !HasRoom(m.table)
  {
    assert Forgotten(m) <= m.threads.Keys;
    SubsetSize(Forgotten(m), m.threads.Keys);
    hide TcbsOk, ReadyOk, SemsOk, CondsOk, LocksOk, DoomedOk;
    IdsTaken(m.table, m.threads, |m.table|);
    assert InTable(m.table, m.threads, |m.table|) == m.threads.Keys;
  }

  lemma SubsetSize(a: set<Thread>, b: set<Thread>)
    requires a <= b
    ensures |a| <= |b|
  {
    assert b == a + (b - a);
  }

  /** The threads with an id below n. */
  ghost function InTable(table: seq<Option<Thread>>, threads: Tcbs, n: nat): set<Thread> {
    set t | t in threads && threads[t].id < n
  }

  lemma {:induction false} IdsTaken(table: seq<Option<Thread>>, threads: Tcbs, n: nat)
    requires TableOk(table, threads) && n <= |table|
    ensures |InTable(table, threads, n)| <= n
    ensures |InTable(table, threads, n)| == n ==> forall i :: 0 <= i < n ==> table[i] != None
  {
    if n == 0 {
      assert InTable(table, threads, 0) == {};
    } else {
      hide TableOk, InTable;
      IdsTaken(table, threads, n - 1);
      OneMoreId(table, threads, n - 1);
    }
  }

  lemma OneMoreId(table: seq<Option<Thread>>, threads: Tcbs, i: nat)
    requires TableOk(table, threads) && i < |table|
    ensures InTable(table, threads, i + 1) == InTable(table, threads, i) + HeldBy(table[i])
    ensures HeldBy(table[i]) !! InTable(table, threads, i)
  {
    forall t ensures t in InTable(table, threads, i + 1) <==> t in InTable(table, threads, i) || t in HeldBy(table[i]) {
    }
  }

  // ---------------------------------------------------------------------------
  // It happens

  lemma AfterSnoc(m: Machine, es: seq<Event>, e: Event)
    requires Inv(m) && After(m, es).Some? && Enabled(After(m, es).value, e)
    ensures After(m, es + [e]) == Some(Next(After(m, es).value, e))
  {
    hide Inv, Enabled, Next;
    assert (es + [e])[..|es|] == es;
  }

  /** Whenever a thread finishes, a fresh one is next and finishes without switching: the first one is forgotten. */
  lemma FreshThreadForgets(m: Machine, es: seq<Event>)
    requires Inv(m) && After(m, es).Some?
    requires var r := After(m, es).value;
      r.mode == Runs && FreshNext(r)
    ensures var all := es + [Finish] + [Dispatch] + [Resume] + [Finish];
      After(m, all).Some? && After(m, es).value.current in Forgotten(After(m, all).value)
  {
    hide Inv, After, Next, Enabled, Forgotten;
    var r0 := After(m, es).value;
    FinishThenFresh(r0);
    var r1 := Next(r0, Finish);
    AfterSnoc(m, es, Finish);
    FreshDispatched(r1);
    var r2 := Next(r1, Dispatch);
    AfterSnoc(m, es + [Finish], Dispatch);
    var r3 := Next(r2, Resume);
    AfterSnoc(m, es + [Finish] + [Dispatch], Resume);
    MayFinish(r3);
    AfterSnoc(m, es + [Finish] + [Dispatch] + [Resume], Finish);
    FinishedForgets(r3);
  }

  ghost predicate FreshNext(m: Machine) {
    m.ready != [] && m.ready[0].item in m.threads && m.threads[m.ready[0].item].kont == Fresh
  }

  lemma FinishThenFresh(m: Machine)
    requires Inv(m) && m.mode == Runs && FreshNext(m)
    ensures Enabled(m, Finish)
    ensures var r := Next(m, Finish); r.mode == Sleeps && r.doomed == Some(m.current) && FreshNext(r)
  {
    AwakeIsAlive(m);
    ReadyHead(m);
    TcbFact(m.current, m.mode, m.threads, m.current);
    hide Inv;
  }

  lemma FreshDispatched(m: Machine)
    requires Inv(m) && m.mode == Sleeps && FreshNext(m)
    ensures Enabled(m, Dispatch) && Enabled(Next(m, Dispatch), Resume)
    ensures var r := Next(Next(m, Dispatch), Resume); r.mode == Runs && r.doomed == m.doomed
  {
    hide Inv;
    ReadyHead(m);
    var r := Next(m, Dispatch);
    assert r.mode == Resumes && r.doomed == m.doomed && r.current in r.threads && r.threads[r.current].kont == Fresh;
  }

  lemma MayFinish(m: Machine)
    requires m.mode == Runs
    ensures Enabled(m, Finish)
  {
  }

  lemma CreatedThenForked(m: Machine, t: Thread)
    requires Inv(m) && m.mode == Runs && m.ready == [] && t !in m.threads && HasRoom(m.table)
    ensures Enabled(m, Create(t, 0)) && Enabled(Next(m, Create(t, 0)), Fork(t))
    ensures var r := Next(Next(m, Create(t, 0)), Fork(t)); r.mode == Runs && r.current == m.current && FreshNext(r)
  {
    hide Inv, FirstFree;
    var r := Next(m, Create(t, 0));
    assert Inserted(r.ready, Keyed(0, t)) == [Keyed(0, t)];
  }

  /** A thread that runs alone is forgotten as soon as it forks another one and finishes before it. */
  lemma ForkAndFinish(m: Machine, t: Thread)
    requires Inv(m) && m.mode == Runs && m.ready == [] && t !in m.threads && HasRoom(m.table)
    ensures var es := [Create(t, 0)] + [Fork(t)] + [Finish] + [Dispatch] + [Resume] + [Finish];
      After(m, es).Some? && m.current in Forgotten(After(m, es).value)
  {
    assert After(m, []) == Some(m);
    hide Inv, After, Next, Enabled, Forgotten, FreshNext, HasRoom;
    CreatedThenForked(m, t);
    AfterSnoc(m, [], Create(t, 0));
    assert [] + [Create(t, 0)] == [Create(t, 0)];
    AfterSnoc(m, [Create(t, 0)], Fork(t));
    FreshThreadForgets(m, [Create(t, 0)] + [Fork(t)]);
  }

  lemma MainRunsAlone(values: map<nat, nat>, locks: set<nat>, conds: set<nat>)
    ensures var m := Boot(values, locks, conds);
      m.current == 0 && m.mode == Runs && m.ready == [] && 1 !in m.threads && HasRoom(m.table)
  {
    assert Boot(values, locks, conds).table[1] == None;
  }

  /** So it can happen to the main thread, from start-up on. */
  lemma MainCanBeForgotten(values: map<nat, nat>, locks: set<nat>, conds: set<nat>)
    ensures Inv(Boot(values, locks, conds))
    ensures
      var es := [Create(1, 0)] + [Fork(1)] + [Finish] + [Dispatch] + [Resume] + [Finish];
      var r := After(Boot(values, locks, conds), es);
      r.Some? && 0 in Forgotten(r.value)
  {
    hide Inv, Boot, After, Forgotten, HasRoom;
    BootInv(values, locks, conds);
    MainRunsAlone(values, locks, conds);
    ForkAndFinish(Boot(values, locks, conds), 1);
  }
}
