/** threads/thread.cc, scheduler.cc and synch.cc as one machine whose steps are the stretches of kernel code that
    run with interrupts off. A thread that goes to sleep inside such a stretch resumes it later; kont says where.
    The build is the one without USE_PREEMPTIVE, and a lock starts without a holder. */
module ThreadMachine {
  import opened Collections
  import opened Lists
  import opened Semaphores

  const MAX_THREAD_NUM: nat := 128

  datatype Status = JustCreated | Running | Ready | Blocked

  datatype SemId = User(n: nat) | OfLock(l: nat)

  /** What a thread does when it gets the processor next. */
  datatype Kont =
    | Fresh                // start at ThreadRoot
    | Onward               // return from Yield
    | Recheck(s: SemId)    // look at the value again, inside P
    | Reacquire(l: nat)    // take the lock back, inside Wait
    | Dead                 // finished

  /** The list a thread is on. */
  datatype Place = Nowhere | OnReady | OnSem(s: SemId) | OnCond(c: nat)

  datatype Tcb = Tcb(status: Status, priority: int, id: nat, kont: Kont, place: Place)

  /** Runs: the current thread executes. Sleeps: it is inside Sleep, looking for somebody to run. Resumes: it has
      just been switched to and interrupts are still off. */
  datatype Mode = Runs | Sleeps | Resumes

  datatype Machine = Machine(
    current: Thread, mode: Mode, threads: map<Thread, Tcb>, ready: seq<Keyed<Thread>>,
    sems: map<SemId, Sema>, conds: map<nat, seq<Thread>>,
    holder: map<nat, Option<Thread>>,    // Lock::holderThread
    owners: map<nat, set<Thread>>,       // threads past Acquire and not yet in Release
    table: seq<Option<Thread>>,          // allThread, with tFlag
    doomed: Option<Thread>)              // threadToBeDestroyed

  // ---------------------------------------------------------------------------
  // The steps

  function MakeReady(m: Machine, t: Thread): (r: Machine)
    requires t in m.threads
    ensures m.threads.Keys <= r.threads.Keys
  {
    var k := m.threads[t];
    m.(threads := m.threads[t := k.(status := Ready, place := OnReady)],
      ready := Inserted(m.ready, Keyed(k.priority, t)))
  }

  predicate HasRoom(table: seq<Option<Thread>>) {
    exists i :: 0 <= i < |table| && table[i] == None
  }

  function FirstFree(table: seq<Option<Thread>>): (i: nat)
    requires HasRoom(table)
    ensures i < |table| && table[i] == None
    ensures forall j :: 0 <= j < i ==> table[j] != None
  {
    if table[0] == None then 0
    else
      assert HasRoom(table[1..]) by {
        var i :| 0 <= i < |table| && table[i] == None;
        assert table[1..][i - 1] == None;
      }
      1 + FirstFree(table[1..])
  }

  /** The constructor: the thread takes the first free id. */
  function Created(m: Machine, t: Thread, priority: int): (r: Machine)
    requires HasRoom(m.table)
    ensures m.threads.Keys <= r.threads.Keys
  {
    var id := FirstFree(m.table);
    m.(threads := m.threads[t := Tcb(JustCreated, priority, id, Fresh, Nowhere)], table := m.table[id := Some(t)])
  }

  /** The thread that finished can be taken out of the table. */
  predicate Buriable(m: Machine) {
    m.doomed.Some? ==> m.doomed.value in m.threads && m.threads[m.doomed.value].id < |m.table|
  }

  /** The destructor, run by the next thread that comes out of SWITCH. */
  function Buried(m: Machine): (r: Machine)
    requires Buriable(m)
    ensures forall t :: t in m.threads && t !in r.threads ==> m.doomed == Some(t)
    ensures r.current == m.current
  {
    if m.doomed == None then m
    else
      var t := m.doomed.value;
      m.(threads := m.threads - {t}, table := m.table[m.threads[t].id := None], doomed := None)
  }

  /** Scheduler::Run. A fresh thread starts at ThreadRoot and does not pass the code behind SWITCH. */
  function Switched(m: Machine, next: Thread): (r: Machine)
    requires next in m.threads && Buriable(m)
    ensures forall t :: t in m.threads && t !in r.threads ==> m.doomed == Some(t)
    ensures r.current == next
  {
    var k := m.threads[next];
    var m' := m.(current := next, mode := Resumes,
      threads := m.threads[next := k.(status := Running, place := Nowhere)]);
    if k.kont == Fresh then m' else Buried(m')
  }

  /** FindNextToRun, then Run. */
  function Dispatched(m: Machine): (r: Machine)
    requires m.ready != [] && m.ready[0].item in m.threads && Buriable(m)
    ensures forall t :: t in m.threads && t !in r.threads ==> m.doomed == Some(t)
    ensures r.current == m.ready[0].item
  {
    Switched(m.(ready := m.ready[1..]), m.ready[0].item)
  }

  function Yielded(m: Machine): (r: Machine)
    requires m.current in m.threads && m.ready != [] && m.ready[0].item in m.threads && Buriable(m)
    ensures forall t :: t in m.threads && t !in r.threads ==> m.doomed == Some(t)
    ensures r.current == m.ready[0].item
  {
    var k := m.threads[m.current];
    var m' := m.(ready := m.ready[1..], threads := m.threads[m.current := k.(kont := Onward)]);
    Switched(MakeReady(m', m.current), m.ready[0].item)
  }

  /** The current thread goes to sleep. */
  function Asleep(m: Machine, kont: Kont, place: Place): (r: Machine)
    requires m.current in m.threads
    ensures m.threads.Keys <= r.threads.Keys
  {
    var k := m.threads[m.current];
    m.(mode := Sleeps, threads := m.threads[m.current := k.(status := Blocked, kont := kont, place := place)])
  }

  function Finished(m: Machine): (r: Machine)
    requires m.current in m.threads
    ensures m.threads.Keys <= r.threads.Keys
  {
    Asleep(m, Dead, Nowhere).(doomed := Some(m.current))
  }

  /** The current thread carries on with its own code. */
  function Onwards(m: Machine): (r: Machine)
    requires m.current in m.threads
    ensures m.threads.Keys <= r.threads.Keys
  {
    m.(mode := Runs, threads := m.threads[m.current := m.threads[m.current].(kont := Onward)])
  }

  /** One pass of the loop in P; behind it, for a lock, the rest of Acquire. */
  function Passed(m: Machine, s: SemId): (r: Machine)
    requires m.current in m.threads && s in m.sems && (s.OfLock? ==> s.l in m.owners)
    ensures m.threads.Keys <= r.threads.Keys
  {
    var m' := m.(sems := m.sems[s := Attempt(m.sems[s], m.current)]);
    if !Passes(m.sems[s]) then Asleep(m', Recheck(s), OnSem(s))
    else if s.User? then Onwards(m')
    else Onwards(m').(holder := m.holder[s.l := Some(m.current)],
      owners := m.owners[s.l := m.owners[s.l] + {m.current}])
  }

  /** V, called by a thread or by an interrupt handler. */
  function Upped(m: Machine, s: SemId): (r: Machine)
    requires s in m.sems && (m.sems[s].queue != [] ==> m.sems[s].queue[0] in m.threads)
    ensures m.threads.Keys <= r.threads.Keys
  {
    var m' := m.(sems := m.sems[s := V(m.sems[s])]);
    if m.sems[s].queue == [] then m' else MakeReady(m', m.sems[s].queue[0])
  }

  function Released(m: Machine, l: nat): (r: Machine)
    requires OfLock(l) in m.sems && l in m.owners
    requires m.sems[OfLock(l)].queue != [] ==> m.sems[OfLock(l)].queue[0] in m.threads
    ensures m.threads.Keys <= r.threads.Keys
  {
    Upped(m.(holder := m.holder[l := None], owners := m.owners[l := m.owners[l] - {m.current}]), OfLock(l))
  }

  /** The part of Wait behind the Release. */
  function Waiting(m: Machine, c: nat, l: nat): (r: Machine)
    requires m.current in m.threads && c in m.conds
    ensures m.threads.Keys <= r.threads.Keys
  {
    Asleep(m.(conds := m.conds[c := m.conds[c] + [m.current]]), Reacquire(l), OnCond(c))
  }

  function Signalled(m: Machine, c: nat): (r: Machine)
    requires c in m.conds && (m.conds[c] != [] ==> m.conds[c][0] in m.threads)
    ensures m.threads.Keys <= r.threads.Keys
  {
    if m.conds[c] == [] then m
    else MakeReady(m.(conds := m.conds[c := m.conds[c][1..]]), m.conds[c][0])
  }

  // ---------------------------------------------------------------------------
  // The invariant

  ghost predicate TcbOk(k: Tcb, onCpu: bool) {
    && (k.status == Running <==> onCpu)
    && (k.status == Ready <==> k.place == OnReady)
    && (k.status == JustCreated ==> k.place == Nowhere && k.kont == Fresh)
    && (k.status == Running ==> k.place == Nowhere)
    && (k.kont == Dead ==> k.status == Blocked)
    && (k.status == Blocked ==>
          match k.place
          case OnSem(s) => k.kont == Recheck(s)
          case OnCond(c) => k.kont.Reacquire?
          case Nowhere => k.kont == Dead
          case OnReady => false)
  }

  type Tcbs = map<Thread, Tcb>

  ghost predicate TcbsOk(current: Thread, mode: Mode, threads: Tcbs) {
    && current in threads
    && (mode == Runs ==> threads[current].kont == Onward)
    && forall t :: t in threads ==> TcbOk(threads[t], t == current && mode != Sleeps)
  }

  ghost predicate At(threads: Tcbs, t: Thread, place: Place) {
    t in threads && threads[t].place == place
  }

  /** The ready list is sorted by the priorities of its threads. */
  ghost predicate OrderOk(ready: seq<Keyed<Thread>>, threads: Tcbs) {
    && Sorted(ready)
    && forall i :: 0 <= i < |ready| ==> ready[i].item in threads && threads[ready[i].item].priority == ready[i].key
  }

  /** The ready list holds exactly the ready threads, each once and in order. */
  ghost predicate ReadyOk(ready: seq<Keyed<Thread>>, threads: Tcbs) {
    && OrderOk(ready, threads)
    && NoDup(Untag(ready))
    && forall t :: t in Untag(ready) <==> At(threads, t, OnReady)
  }

  /** Past the queue of s and about to look at its value. */
  ghost predicate Awake(threads: Tcbs, t: Thread, s: SemId) {
    t in threads && threads[t].kont == Recheck(s) && threads[t].place != OnSem(s)
  }

  ghost predicate SemLists(x: Sema, s: SemId, threads: Tcbs) {
    && SemaOk(x)
    && (forall t :: t in x.queue <==> At(threads, t, OnSem(s)))
    && (forall t :: t in x.woken <==> Awake(threads, t, s))
  }

  ghost predicate SemsOk(sems: map<SemId, Sema>, threads: Tcbs) {
    && (forall s :: s in sems ==> SemLists(sems[s], s, threads))
    && (forall t :: t in threads && threads[t].kont.Recheck? ==> threads[t].kont.s in sems)
  }

  ghost predicate CondLists(queue: seq<Thread>, c: nat, threads: Tcbs) {
    NoDup(queue) && forall t :: t in queue <==> At(threads, t, OnCond(c))
  }

  ghost predicate CondsOk(conds: map<nat, seq<Thread>>, locks: set<nat>, threads: Tcbs) {
    && (forall c :: c in conds ==> CondLists(conds[c], c, threads))
    && (forall t :: t in threads && threads[t].place.OnCond? ==> threads[t].place.c in conds)
    && (forall t :: t in threads && threads[t].kont.Reacquire? ==> threads[t].kont.l in locks)
  }

  function HeldBy(h: Option<Thread>): set<Thread> {
    if h == None then {} else {h.value}
  }

  ghost predicate LocksOk(sems: map<SemId, Sema>, holder: map<nat, Option<Thread>>, owners: map<nat, set<Thread>>) {
    && (forall l :: l in owners ==>
          && OfLock(l) in sems && l in holder
          && owners[l] == HeldBy(holder[l])
          && sems[OfLock(l)].value + |owners[l]| == 1)
    && (forall l :: OfLock(l) in sems ==> l in owners)
  }

  ghost predicate TableOk(table: seq<Option<Thread>>, threads: Tcbs) {
    && |table| == MAX_THREAD_NUM
    && (forall t :: t in threads ==> threads[t].id < |table| && table[threads[t].id] == Some(t))
    && (forall i :: 0 <= i < |table| && table[i].Some? ==> table[i].value in threads && threads[table[i].value].id == i)
  }

  ghost predicate DoomedOk(doomed: Option<Thread>, threads: Tcbs) {
    doomed.Some? ==> doomed.value in threads && threads[doomed.value].kont == Dead
  }

  ghost predicate Inv(m: Machine) {
    && TcbsOk(m.current, m.mode, m.threads)
    && ReadyOk(m.ready, m.threads)
    && SemsOk(m.sems, m.threads)
    && CondsOk(m.conds, m.owners.Keys, m.threads)
    && LocksOk(m.sems, m.holder, m.owners)
    && TableOk(m.table, m.threads)
    && DoomedOk(m.doomed, m.threads)
  }

  // ---------------------------------------------------------------------------
  // Lists

  lemma InList(ts: seq<Thread>, i: nat)
    requires i < |ts|
    ensures ts[i] in ts
  {
  }

  lemma PushTail(ts: seq<Thread>, t: Thread)
    requires NoDup(ts) && t !in ts
    ensures NoDup(ts + [t])
  {
  }

  lemma PopReady(xs: seq<Keyed<Thread>>)
    requires NoDup(Untag(xs)) && xs != []
    ensures NoDup(Untag(xs[1..])) && xs[0].item in Untag(xs)
    ensures forall t :: t in Untag(xs[1..]) <==> t in Untag(xs) && t != xs[0].item
  {
    var ts := Untag(xs);
    assert Untag(xs[1..]) == ts[1..];
    PopHead(ts);
    InList(ts, 0);
  }

  lemma Splice(ts: seq<Thread>, p: nat, t: Thread)
    requires NoDup(ts) && t !in ts && p <= |ts|
    ensures NoDup(ts[..p] + [t] + ts[p..])
    ensures forall u :: u in ts[..p] + [t] + ts[p..] <==> u in ts || u == t
  {
    var us := ts[..p] + [t] + ts[p..];
    assert forall i :: 0 <= i < |us| ==> us[i] == if i < p then ts[i] else if i == p then t else ts[i - 1];
    assert ts == ts[..p] + ts[p..];
  }

  lemma PushReady(xs: seq<Keyed<Thread>>, e: Keyed<Thread>)
    requires NoDup(Untag(xs)) && e.item !in Untag(xs)
    ensures NoDup(Untag(Inserted(xs, e)))
    ensures forall t :: t in Untag(Inserted(xs, e)) <==> t in Untag(xs) || t == e.item
  {
    var ts, p := Untag(xs), Position(xs, e.key);
    Splice(ts, p, e.item);
    hide NoDup;
    assert Untag(Inserted(xs, e)) == ts[..p] + [e.item] + ts[p..];
  }

  // ---------------------------------------------------------------------------
  // Every step keeps the invariant

  /** Semaphores that nobody joins or leaves. */
  ghost predicate SameForSems(k: Tcb, k': Tcb) {
    && (k.place == k'.place || (!k.place.OnSem? && !k'.place.OnSem?))
    && (k.kont == k'.kont || (!k.kont.Recheck? && !k'.kont.Recheck?))
  }

  lemma SemsFrame(sems: map<SemId, Sema>, threads: Tcbs, t: Thread, k: Tcb)
    requires SemsOk(sems, threads)
    requires t in threads ==> SameForSems(threads[t], k)
    requires t !in threads ==> !k.place.OnSem? && !k.kont.Recheck?
    ensures SemsOk(sems, threads[t := k])
  {
    hide SemaOk;
    forall s | s in sems ensures SemLists(sems[s], s, threads[t := k]) {
      assert SemLists(sems[s], s, threads);
      assert forall u :: At(threads[t := k], u, OnSem(s)) <==> At(threads, u, OnSem(s));
      assert forall u :: Awake(threads[t := k], u, s) <==> Awake(threads, u, s);
    }
  }

  ghost predicate SameForConds(k: Tcb, k': Tcb) {
    (k.place == k'.place || (!k.place.OnCond? && !k'.place.OnCond?)) && (k.kont == k'.kont || !k'.kont.Reacquire?)
  }

  lemma CondsFrame(conds: map<nat, seq<Thread>>, locks: set<nat>, threads: Tcbs, t: Thread, k: Tcb)
    requires CondsOk(conds, locks, threads)
    requires t in threads ==> SameForConds(threads[t], k)
    requires t !in threads ==> !k.place.OnCond? && !k.kont.Reacquire?
    ensures CondsOk(conds, locks, threads[t := k])
  {
    hide NoDup;
    forall c | c in conds ensures CondLists(conds[c], c, threads[t := k]) {
      assert CondLists(conds[c], c, threads);
      assert forall u :: At(threads[t := k], u, OnCond(c)) <==> At(threads, u, OnCond(c));
    }
  }

  lemma TableFrame(table: seq<Option<Thread>>, threads: Tcbs, t: Thread, k: Tcb)
    requires TableOk(table, threads) && t in threads && k.id == threads[t].id
    ensures TableOk(table, threads[t := k])
  {
  }

  lemma OrderFrame(ready: seq<Keyed<Thread>>, threads: Tcbs, t: Thread, k: Tcb)
    requires OrderOk(ready, threads) && (t in threads ==> k.priority == threads[t].priority)
    ensures OrderOk(ready, threads[t := k])
  {
  }

  lemma OrderPushed(ready: seq<Keyed<Thread>>, threads: Tcbs, t: Thread)
    requires OrderOk(ready, threads) && t in threads
    ensures OrderOk(Inserted(ready, Keyed(threads[t].priority, t)), threads)
  {
    var e := Keyed(threads[t].priority, t);
    InsertedSorted(ready, e);
    hide Inserted, Sorted, Position;
    InsertedAt(ready, e, 0);
    var after := Inserted(ready, e);
    forall i | 0 <= i < |after| ensures after[i].item in threads && threads[after[i].item].priority == after[i].key {
      InsertedAt(ready, e, i);
    }
  }

  lemma OrderPopped(ready: seq<Keyed<Thread>>, threads: Tcbs)
    requires OrderOk(ready, threads) && ready != []
    ensures OrderOk(ready[1..], threads)
  {
  }

  lemma ReadyFrame(ready: seq<Keyed<Thread>>, threads: Tcbs, t: Thread, k: Tcb)
    requires ReadyOk(ready, threads) && k.place != OnReady && !At(threads, t, OnReady)
    requires t in threads ==> k.priority == threads[t].priority
    ensures ReadyOk(ready, threads[t := k])
  {
    hide NoDup, OrderOk;
    OrderFrame(ready, threads, t, k);
    assert forall u :: At(threads[t := k], u, OnReady) <==> At(threads, u, OnReady);
  }

  lemma ReadyPushed(ready: seq<Keyed<Thread>>, threads: Tcbs, t: Thread, k: Tcb)
    requires ReadyOk(ready, threads) && k.place == OnReady && !At(threads, t, OnReady)
    requires t in threads && k.priority == threads[t].priority
    ensures ReadyOk(Inserted(ready, Keyed(k.priority, t)), threads[t := k])
  {
    hide NoDup, Inserted, Untag, OrderOk;
    PushReady(ready, Keyed(k.priority, t));
    OrderFrame(ready, threads, t, k);
    OrderPushed(ready, threads[t := k], t);
    assert forall u :: At(threads[t := k], u, OnReady) <==> At(threads, u, OnReady) || u == t;
  }

  lemma ReadyPopped(ready: seq<Keyed<Thread>>, threads: Tcbs, k: Tcb)
    requires ReadyOk(ready, threads) && ready != [] && k.place != OnReady
    requires ready[0].item in threads ==> k.priority == threads[ready[0].item].priority
    ensures At(threads, ready[0].item, OnReady)
    ensures ReadyOk(ready[1..], threads[ready[0].item := k])
  {
    hide NoDup, Untag, OrderOk;
    PopReady(ready);
    OrderPopped(ready, threads);
    OrderFrame(ready[1..], threads, ready[0].item, k);
    assert forall u :: At(threads[ready[0].item := k], u, OnReady) <==> At(threads, u, OnReady) && u != ready[0].item;
  }

  lemma CreatedTable(table: seq<Option<Thread>>, threads: Tcbs, t: Thread, k: Tcb)
    requires TableOk(table, threads) && t !in threads && k.id < |table| && table[k.id] == None
    ensures TableOk(table[k.id := Some(t)], threads[t := k])
  {
  }

  lemma TcbsFrame(current: Thread, mode: Mode, threads: Tcbs, t: Thread, k: Tcb)
    requires TcbsOk(current, mode, threads) && TcbOk(k, t == current && mode != Sleeps)
    requires t == current && mode == Runs ==> k.kont == Onward
    ensures TcbsOk(current, mode, threads[t := k])
  {
  }

  lemma TcbFact(current: Thread, mode: Mode, threads: Tcbs, t: Thread)
    requires TcbsOk(current, mode, threads)
    ensures current in threads && (t in threads ==> TcbOk(threads[t], t == current && mode != Sleeps))
    ensures mode == Runs ==> threads[current].kont == Onward
  {
  }

  lemma CreatedKeeps(m: Machine, t: Thread, priority: int)
    requires Inv(m) && m.mode == Runs && t !in m.threads && HasRoom(m.table)
    ensures Inv(Created(m, t, priority))
  {
    hide TcbsOk, ReadyOk, SemsOk, CondsOk, LocksOk, TableOk, FirstFree;
    var k := Tcb(JustCreated, priority, FirstFree(m.table), Fresh, Nowhere);
    TcbFact(m.current, m.mode, m.threads, t);
    TcbsFrame(m.current, m.mode, m.threads, t, k);
    ReadyFrame(m.ready, m.threads, t, k);
    SemsFrame(m.sems, m.threads, t, k);
    CondsFrame(m.conds, m.owners.Keys, m.threads, t, k);
    CreatedTable(m.table, m.threads, t, k);
  }

  /** A new thread becomes ready. */
  lemma ForkedKeeps(m: Machine, t: Thread)
    requires Inv(m) && t in m.threads && m.threads[t].status == JustCreated
    ensures Inv(MakeReady(m, t))
  {
    hide TcbsOk, ReadyOk, SemsOk, CondsOk, LocksOk, TableOk;
    var k := m.threads[t].(status := Ready, place := OnReady);
    TcbFact(m.current, m.mode, m.threads, t);
    TcbsFrame(m.current, m.mode, m.threads, t, k);
    ReadyPushed(m.ready, m.threads, t, k);
    SemsFrame(m.sems, m.threads, t, k);
    CondsFrame(m.conds, m.owners.Keys, m.threads, t, k);
    TableFrame(m.table, m.threads, t, k);
  }

  // Semaphores

  /** A semaphore that t has and gets nothing to do with. */
  lemma SemListsOther(x: Sema, r: SemId, threads: Tcbs, t: Thread, k: Tcb)
    requires SemLists(x, r, threads) && t in threads
    requires threads[t].place != OnSem(r) && threads[t].kont != Recheck(r)
    requires k.place != OnSem(r) && k.kont != Recheck(r)
    ensures SemLists(x, r, threads[t := k])
  {
    hide SemaOk;
    assert forall u :: At(threads[t := k], u, OnSem(r)) <==> At(threads, u, OnSem(r));
    assert forall u :: Awake(threads[t := k], u, r) <==> Awake(threads, u, r);
  }

  lemma SemListsAttempt(x: Sema, s: SemId, threads: Tcbs, t: Thread, k: Tcb)
    requires SemLists(x, s, threads) && t in threads && threads[t].place != OnSem(s)
    requires Passes(x) ==> k.place != OnSem(s) && k.kont != Recheck(s)
    requires !Passes(x) ==> k.place == OnSem(s) && k.kont == Recheck(s)
    ensures SemLists(Attempt(x, t), s, threads[t := k])
  {
    AttemptOk(x, t);
    hide SemaOk;
    var x', threads' := Attempt(x, t), threads[t := k];
    forall u ensures u in x'.queue <==> At(threads', u, OnSem(s)) {
      if u != t { assert At(threads', u, OnSem(s)) <==> At(threads, u, OnSem(s)); }
    }
    forall u ensures u in x'.woken <==> Awake(threads', u, s) {
      if u != t { assert Awake(threads', u, s) <==> Awake(threads, u, s); }
    }
  }

  /** t leaves the woken threads of s and either joins its queue or goes on. */
  lemma SemsAttempt(sems: map<SemId, Sema>, threads: Tcbs, t: Thread, s: SemId, k: Tcb)
    requires SemsOk(sems, threads) && s in sems && t in threads && !threads[t].place.OnSem?
    requires threads[t].kont.Recheck? ==> threads[t].kont.s == s
    requires Passes(sems[s]) ==> !k.place.OnSem? && !k.kont.Recheck?
    requires !Passes(sems[s]) ==> k.place == OnSem(s) && k.kont == Recheck(s)
    ensures SemsOk(sems[s := Attempt(sems[s], t)], threads[t := k])
  {
    hide SemLists;
    SemListsAttempt(sems[s], s, threads, t, k);
    forall r | r in sems && r != s ensures SemLists(sems[r], r, threads[t := k]) {
      SemListsOther(sems[r], r, threads, t, k);
    }
  }

  lemma SemListsUp(x: Sema, s: SemId, threads: Tcbs, k: Tcb)
    requires SemLists(x, s, threads) && x.queue != []
    requires k.place == OnReady && k.kont == Recheck(s)
    ensures At(threads, x.queue[0], OnSem(s))
    ensures SemLists(V(x), s, threads[x.queue[0] := k])
  {
    var t := x.queue[0];
    VOk(x);
    PopHead(x.queue);
    InList(x.queue, 0);
    hide SemaOk;
    assert forall u :: u != t ==> (At(threads[t := k], u, OnSem(s)) <==> At(threads, u, OnSem(s)));
    assert forall u :: u != t ==> (Awake(threads[t := k], u, s) <==> Awake(threads, u, s));
  }

  /** The head of the queue of s becomes one of its woken threads. */
  lemma SemsUp(sems: map<SemId, Sema>, threads: Tcbs, s: SemId, k: Tcb)
    requires SemsOk(sems, threads) && s in sems && sems[s].queue != []
    requires k.place == OnReady && k.kont == Recheck(s)
    requires sems[s].queue[0] in threads && threads[sems[s].queue[0]].kont == Recheck(s)
    ensures SemsOk(sems[s := V(sems[s])], threads[sems[s].queue[0] := k])
  {
    hide SemLists;
    SemListsUp(sems[s], s, threads, k);
    forall r | r in sems && r != s ensures SemLists(sems[r], r, threads[sems[s].queue[0] := k]) {
      SemListsOther(sems[r], r, threads, sems[s].queue[0], k);
    }
  }

  /** The head of a semaphore's queue is blocked there. */
  lemma SemHead(current: Thread, mode: Mode, sems: map<SemId, Sema>, threads: Tcbs, s: SemId)
    requires TcbsOk(current, mode, threads) && SemsOk(sems, threads) && s in sems && sems[s].queue != []
    ensures
      var t := sems[s].queue[0];
      t in threads && threads[t].status == Blocked && threads[t].place == OnSem(s) && threads[t].kont == Recheck(s)
  {
    assert SemLists(sems[s], s, threads);
    InList(sems[s].queue, 0);
    assert At(threads, sems[s].queue[0], OnSem(s));
  }

  lemma SemsUpAlone(sems: map<SemId, Sema>, threads: Tcbs, s: SemId)
    requires SemsOk(sems, threads) && s in sems && sems[s].queue == []
    ensures SemsOk(sems[s := V(sems[s])], threads)
  {
    assert SemLists(sems[s], s, threads);
    VOk(sems[s]);
    hide SemaOk;
  }

  lemma SemFact(sems: map<SemId, Sema>, threads: Tcbs, s: SemId)
    requires SemsOk(sems, threads) && s in sems
    ensures SemaOk(sems[s])
  {
    assert SemLists(sems[s], s, threads);
  }

  // Locks

  lemma LocksSameValue(sems: map<SemId, Sema>, holder: map<nat, Option<Thread>>, owners: map<nat, set<Thread>>,
      s: SemId, x: Sema)
    requires LocksOk(sems, holder, owners) && s in sems && (s.User? || x.value == sems[s].value)
    ensures LocksOk(sems[s := x], holder, owners)
  {
  }

  lemma LocksTaken(sems: map<SemId, Sema>, holder: map<nat, Option<Thread>>, owners: map<nat, set<Thread>>, l: nat,
      x: Sema, t: Thread)
    requires LocksOk(sems, holder, owners) && l in owners && OfLock(l) in sems
    requires sems[OfLock(l)].value > 0 && x.value == sems[OfLock(l)].value - 1
    ensures LocksOk(sems[OfLock(l) := x], holder[l := Some(t)], owners[l := owners[l] + {t}])
  {
    assert |owners[l]| == 0;
    assert owners[l] + {t} == {t};
  }

  lemma LocksFreed(sems: map<SemId, Sema>, holder: map<nat, Option<Thread>>, owners: map<nat, set<Thread>>, l: nat,
      x: Sema, t: Thread)
    requires LocksOk(sems, holder, owners) && l in owners && l in holder && holder[l] == Some(t) && OfLock(l) in sems
    requires x.value == sems[OfLock(l)].value + 1
    ensures LocksOk(sems[OfLock(l) := x], holder[l := None], owners[l := owners[l] - {t}])
  {
    assert owners[l] - {t} == {};
  }

  lemma LockFact(sems: map<SemId, Sema>, holder: map<nat, Option<Thread>>, owners: map<nat, set<Thread>>, l: nat)
    requires LocksOk(sems, holder, owners)
    ensures OfLock(l) in sems <==> l in owners
  {
  }

  // Conditions

  lemma CondListsOther(queue: seq<Thread>, c: nat, threads: Tcbs, t: Thread, k: Tcb)
    requires CondLists(queue, c, threads) && t in threads && threads[t].place != OnCond(c) && k.place != OnCond(c)
    ensures CondLists(queue, c, threads[t := k])
  {
    hide NoDup;
    assert forall u :: At(threads[t := k], u, OnCond(c)) <==> At(threads, u, OnCond(c));
  }

  lemma CondsJoin(conds: map<nat, seq<Thread>>, locks: set<nat>, threads: Tcbs, t: Thread, c: nat, k: Tcb)
    requires CondsOk(conds, locks, threads) && c in conds && t in threads && !threads[t].place.OnCond?
    requires k.place == OnCond(c) && k.kont.Reacquire? && k.kont.l in locks
    ensures CondsOk(conds[c := conds[c] + [t]], locks, threads[t := k])
  {
    assert CondLists(conds[c], c, threads);
    PushTail(conds[c], t);
    assert forall u :: u != t ==> (At(threads[t := k], u, OnCond(c)) <==> At(threads, u, OnCond(c)));
    assert CondLists(conds[c] + [t], c, threads[t := k]);
    hide CondLists;
    forall e | e in conds && e != c ensures CondLists(conds[e], e, threads[t := k]) {
      CondListsOther(conds[e], e, threads, t, k);
    }
  }

  lemma CondHead(current: Thread, mode: Mode, conds: map<nat, seq<Thread>>, locks: set<nat>, threads: Tcbs, c: nat)
    requires TcbsOk(current, mode, threads) && CondsOk(conds, locks, threads) && c in conds && conds[c] != []
    ensures var t := conds[c][0];
      t in threads && threads[t].status == Blocked && threads[t].place == OnCond(c) && threads[t].kont.Reacquire?
  {
    assert CondLists(conds[c], c, threads);
    InList(conds[c], 0);
    assert At(threads, conds[c][0], OnCond(c));
  }

  lemma CondsLeave(conds: map<nat, seq<Thread>>, locks: set<nat>, threads: Tcbs, c: nat, k: Tcb)
    requires CondsOk(conds, locks, threads) && c in conds && conds[c] != [] && conds[c][0] in threads
    requires k.place == OnReady && k.kont == threads[conds[c][0]].kont && threads[conds[c][0]].place == OnCond(c)
    ensures CondsOk(conds[c := conds[c][1..]], locks, threads[conds[c][0] := k])
  {
    var t := conds[c][0];
    assert CondLists(conds[c], c, threads);
    PopHead(conds[c]);
    assert forall u :: u != t ==> (At(threads[t := k], u, OnCond(c)) <==> At(threads, u, OnCond(c)));
    assert CondLists(conds[c][1..], c, threads[t := k]);
    hide CondLists;
    forall e | e in conds && e != c ensures CondLists(conds[e], e, threads[t := k]) {
      CondListsOther(conds[e], e, threads, t, k);
    }
  }

  // Scheduling

  lemma TcbsSleep(current: Thread, mode: Mode, threads: Tcbs, k: Tcb)
    requires TcbsOk(current, mode, threads) && TcbOk(k, false)
    ensures TcbsOk(current, Sleeps, threads[current := k])
  {
  }

  lemma TcbsWake(current: Thread, mode: Mode, threads: Tcbs, k: Tcb)
    requires TcbsOk(current, mode, threads) && TcbOk(k, true) && k.kont == Onward
    ensures TcbsOk(current, Runs, threads[current := k])
  {
  }

  /** The processor goes to next; the thread that had it is not running any more. */
  lemma TcbsSwitch(current: Thread, threads: Tcbs, next: Thread, k: Tcb)
    requires TcbsOk(current, Sleeps, threads) && TcbOk(k, true)
    ensures TcbsOk(next, Resumes, threads[next := k])
  {
  }

  /** A finished thread is on no list, so taking it out of the table disturbs nothing. */
  lemma BuriedKeeps(m: Machine)
    requires Inv(m) && m.mode == Resumes
    ensures Buriable(m) && Inv(Buried(m))
  {
    hide TcbsOk, ReadyOk, SemsOk, CondsOk, LocksOk, TableOk;
    if m.doomed.Some? {
      var t := m.doomed.value;
      TcbFact(m.current, m.mode, m.threads, t);
      BuriedTcbs(m.current, m.mode, m.threads, t);
      BuriedReady(m.ready, m.threads, t);
      BuriedSems(m.sems, m.threads, t);
      BuriedConds(m.conds, m.owners.Keys, m.threads, t);
      BuriedTable(m.table, m.threads, t);
    }
  }

  lemma BuriedTcbs(current: Thread, mode: Mode, threads: Tcbs, t: Thread)
    requires TcbsOk(current, mode, threads) && t != current
    ensures TcbsOk(current, mode, threads - {t})
  {
  }

  lemma BuriedReady(ready: seq<Keyed<Thread>>, threads: Tcbs, t: Thread)
    requires ReadyOk(ready, threads) && !At(threads, t, OnReady)
    ensures ReadyOk(ready, threads - {t})
  {
    hide NoDup;
    forall i | 0 <= i < |ready| ensures ready[i].item != t { InList(Untag(ready), i); }
    assert forall u :: At(threads - {t}, u, OnReady) <==> At(threads, u, OnReady);
  }

  lemma BuriedTable(table: seq<Option<Thread>>, threads: Tcbs, t: Thread)
    requires TableOk(table, threads) && t in threads
    ensures threads[t].id < |table| && TableOk(table[threads[t].id := None], threads - {t})
  {
  }

  lemma BuriedSems(sems: map<SemId, Sema>, threads: Tcbs, t: Thread)
    requires SemsOk(sems, threads) && t in threads && threads[t].place == Nowhere && threads[t].kont == Dead
    ensures SemsOk(sems, threads - {t})
  {
    hide SemaOk;
    forall s | s in sems ensures SemLists(sems[s], s, threads - {t}) {
      assert SemLists(sems[s], s, threads);
      assert forall u :: At(threads - {t}, u, OnSem(s)) <==> At(threads, u, OnSem(s));
      assert forall u :: Awake(threads - {t}, u, s) <==> Awake(threads, u, s);
    }
  }

  lemma BuriedConds(conds: map<nat, seq<Thread>>, locks: set<nat>, threads: Tcbs, t: Thread)
    requires CondsOk(conds, locks, threads) && t in threads && threads[t].place == Nowhere && threads[t].kont == Dead
    ensures CondsOk(conds, locks, threads - {t})
  {
    hide NoDup;
    forall c | c in conds ensures CondLists(conds[c], c, threads - {t}) {
      assert CondLists(conds[c], c, threads);
      assert forall u :: At(threads - {t}, u, OnCond(c)) <==> At(threads, u, OnCond(c));
    }
  }

  lemma ReadyHead(m: Machine)
    requires Inv(m) && m.ready != []
    ensures
      var t := m.ready[0].item;
      t in m.threads && m.threads[t].status == Ready && m.threads[t].place == OnReady && m.threads[t].kont != Dead
    ensures Buriable(m)
  {
    InList(Untag(m.ready), 0);
    assert At(m.threads, m.ready[0].item, OnReady);
  }

  lemma DispatchedKeeps(m: Machine)
    requires Inv(m) && m.mode == Sleeps && m.ready != []
    ensures m.ready[0].item in m.threads && Buriable(m) && Inv(Dispatched(m))
  {
    hide TcbsOk, ReadyOk, SemsOk, CondsOk, LocksOk, TableOk;
    ReadyHead(m);
    var t := m.ready[0].item;
    var k := m.threads[t].(status := Running, place := Nowhere);
    TcbFact(m.current, m.mode, m.threads, t);
    TcbsSwitch(m.current, m.threads, t, k);
    ReadyPopped(m.ready, m.threads, k);
    SemsFrame(m.sems, m.threads, t, k);
    CondsFrame(m.conds, m.owners.Keys, m.threads, t, k);
    TableFrame(m.table, m.threads, t, k);
    BuriedKeeps(m.(current := t, mode := Resumes, ready := m.ready[1..], threads := m.threads[t := k]));
  }

  /** Yield: the next thread leaves the ready list before the yielding one joins it. */
  lemma YieldedKeeps(m: Machine)
    requires Inv(m) && m.mode == Runs && m.ready != []
    ensures m.current in m.threads && m.ready[0].item in m.threads && Buriable(m) && Inv(Yielded(m))
  {
    hide TcbsOk, ReadyOk, SemsOk, CondsOk, LocksOk, TableOk, Inserted;
    ReadyHead(m);
    TcbFact(m.current, m.mode, m.threads, m.current);
    TcbFact(m.current, m.mode, m.threads, m.ready[0].item);
    var t, u := m.ready[0].item, m.current;
    var k := m.threads[t].(status := Running, place := Nowhere);
    var r := m.threads[u].(status := Ready, place := OnReady, kont := Onward);
    var threads := m.threads[u := r];
    TcbsSleep(u, m.mode, m.threads, r);
    TcbsSwitch(u, threads, t, k);
    ReadyPopped(m.ready, m.threads, k);
    ReadyPushed(m.ready[1..], m.threads[t := k], u, r);
    assert m.threads[t := k][u := r] == threads[t := k];
    SemsFrame(m.sems, m.threads, u, r);
    SemsFrame(m.sems, threads, t, k);
    CondsFrame(m.conds, m.owners.Keys, m.threads, u, r);
    CondsFrame(m.conds, m.owners.Keys, threads, t, k);
    TableFrame(m.table, m.threads, u, r);
    TableFrame(m.table, threads, t, k);
    var m' := m.(current := t, mode := Resumes, ready := Inserted(m.ready[1..], Keyed(r.priority, u)),
      threads := threads[t := k]);
    BuriedKeeps(m');
    assert m.threads[u := m.threads[u].(kont := Onward)][u := r] == threads;
  }

  lemma FinishedKeeps(m: Machine)
    requires Inv(m) && m.mode == Runs
    ensures m.current in m.threads && Inv(Finished(m))
  {
    TcbFact(m.current, m.mode, m.threads, m.current);
    hide TcbsOk, ReadyOk, SemsOk, CondsOk, LocksOk, TableOk;
    var t := m.current;
    var k := m.threads[t].(status := Blocked, kont := Dead, place := Nowhere);
    TcbsSleep(t, m.mode, m.threads, k);
    ReadyFrame(m.ready, m.threads, t, k);
    SemsFrame(m.sems, m.threads, t, k);
    CondsFrame(m.conds, m.owners.Keys, m.threads, t, k);
    TableFrame(m.table, m.threads, t, k);
  }

  lemma OnwardsKeeps(m: Machine)
    requires Inv(m) && m.mode == Resumes && (m.threads[m.current].kont == Fresh || m.threads[m.current].kont == Onward)
    ensures m.current in m.threads && Inv(Onwards(m))
  {
    TcbFact(m.current, m.mode, m.threads, m.current);
    hide TcbsOk, ReadyOk, SemsOk, CondsOk, LocksOk, TableOk;
    var t := m.current;
    var k := m.threads[t].(kont := Onward);
    TcbsWake(t, m.mode, m.threads, k);
    ReadyFrame(m.ready, m.threads, t, k);
    SemsFrame(m.sems, m.threads, t, k);
    CondsFrame(m.conds, m.owners.Keys, m.threads, t, k);
    TableFrame(m.table, m.threads, t, k);
    DoomedFrame(m.doomed, m.threads, t, k);
  }

  lemma DoomedFrame(doomed: Option<Thread>, threads: Tcbs, t: Thread, k: Tcb)
    requires DoomedOk(doomed, threads) && t in threads && threads[t].kont != Dead
    ensures DoomedOk(doomed, threads[t := k])
  {
  }

  /** What the current thread may be about to do when it reaches the loop of P. */
  ghost predicate MayPass(m: Machine, s: SemId) {
    && s in m.sems && m.current in m.threads && m.mode != Sleeps
    && (m.threads[m.current].kont.Recheck? ==> m.threads[m.current].kont.s == s)
    && m.threads[m.current].kont != Dead
  }

  lemma PassedKeeps(m: Machine, s: SemId)
    requires Inv(m) && MayPass(m, s)
    ensures s.OfLock? ==> s.l in m.owners
    ensures Inv(Passed(m, s))
  {
    hide TcbsOk, ReadyOk, SemsOk, CondsOk, LocksOk, TableOk;
    TcbFact(m.current, m.mode, m.threads, m.current);
    if s.OfLock? { LockFact(m.sems, m.holder, m.owners, s.l); }
    SemFact(m.sems, m.threads, s);
    var t := m.current;
    var x := Attempt(m.sems[s], t);
    var k := if Passes(m.sems[s]) then m.threads[t].(kont := Onward)
             else m.threads[t].(status := Blocked, kont := Recheck(s), place := OnSem(s));
    if Passes(m.sems[s]) {
      TcbsWake(t, m.mode, m.threads, k);
      if s.OfLock? {
        LocksTaken(m.sems, m.holder, m.owners, s.l, x, t);
        assert m.owners[s.l := m.owners[s.l] + {t}].Keys == m.owners.Keys;
      } else {
        LocksSameValue(m.sems, m.holder, m.owners, s, x);
      }
    } else {
      TcbsSleep(t, m.mode, m.threads, k);
      LocksSameValue(m.sems, m.holder, m.owners, s, x);
    }
    ReadyFrame(m.ready, m.threads, t, k);
    SemsAttempt(m.sems, m.threads, t, s, k);
    CondsFrame(m.conds, m.owners.Keys, m.threads, t, k);
    TableFrame(m.table, m.threads, t, k);
    DoomedFrame(m.doomed, m.threads, t, k);
  }

  /** Everything but the locks after V. */
  lemma UppedLists(m: Machine, s: SemId)
    requires Inv(m) && s in m.sems
    ensures m.sems[s].queue != [] ==> m.sems[s].queue[0] in m.threads
    ensures var m' := Upped(m, s);
      && TcbsOk(m'.current, m'.mode, m'.threads) && ReadyOk(m'.ready, m'.threads) && SemsOk(m'.sems, m'.threads)
      && CondsOk(m'.conds, m'.owners.Keys, m'.threads)
      && TableOk(m'.table, m'.threads) && DoomedOk(m'.doomed, m'.threads)
  {
    hide TcbsOk, ReadyOk, SemsOk, CondsOk, LocksOk, TableOk;
    if m.sems[s].queue == [] {
      SemsUpAlone(m.sems, m.threads, s);
    } else {
      SemHead(m.current, m.mode, m.sems, m.threads, s);
      var t := m.sems[s].queue[0];
      var k := m.threads[t].(status := Ready, place := OnReady);
      TcbFact(m.current, m.mode, m.threads, t);
      TcbsFrame(m.current, m.mode, m.threads, t, k);
      ReadyPushed(m.ready, m.threads, t, k);
      SemsUp(m.sems, m.threads, s, k);
      CondsFrame(m.conds, m.owners.Keys, m.threads, t, k);
      TableFrame(m.table, m.threads, t, k);
      DoomedFrame(m.doomed, m.threads, t, k);
    }
  }

  lemma UppedKeeps(m: Machine, n: nat)
    requires Inv(m) && User(n) in m.sems
    ensures m.sems[User(n)].queue != [] ==> m.sems[User(n)].queue[0] in m.threads
    ensures Inv(Upped(m, User(n)))
  {
    hide TcbsOk, ReadyOk, SemsOk, CondsOk, LocksOk, TableOk;
    UppedLists(m, User(n));
    LocksSameValue(m.sems, m.holder, m.owners, User(n), V(m.sems[User(n)]));
  }

  lemma ReleasedKeeps(m: Machine, l: nat)
    requires Inv(m) && l in m.holder && m.holder[l] == Some(m.current) && l in m.owners
    ensures OfLock(l) in m.sems
    ensures m.sems[OfLock(l)].queue != [] ==> m.sems[OfLock(l)].queue[0] in m.threads
    ensures Inv(Released(m, l)) && Released(m, l).current == m.current && Released(m, l).mode == m.mode
  {
    hide TcbsOk, ReadyOk, SemsOk, CondsOk, LocksOk, TableOk;
    LockFact(m.sems, m.holder, m.owners, l);
    UppedLists(m, OfLock(l));
    LocksFreed(m.sems, m.holder, m.owners, l, V(m.sems[OfLock(l)]), m.current);
    assert m.owners[l := m.owners[l] - {m.current}].Keys == m.owners.Keys;
  }

  lemma WaitingKeeps(m: Machine, c: nat, l: nat)
    requires Inv(m) && m.mode == Runs && c in m.conds && l in m.owners
    ensures m.current in m.threads && Inv(Waiting(m, c, l))
  {
    hide TcbsOk, ReadyOk, SemsOk, CondsOk, LocksOk, TableOk;
    var t := m.current;
    TcbFact(t, m.mode, m.threads, t);
    var k := m.threads[t].(status := Blocked, kont := Reacquire(l), place := OnCond(c));
    TcbsSleep(t, m.mode, m.threads, k);
    ReadyFrame(m.ready, m.threads, t, k);
    SemsFrame(m.sems, m.threads, t, k);
    CondsJoin(m.conds, m.owners.Keys, m.threads, t, c, k);
    TableFrame(m.table, m.threads, t, k);
    DoomedFrame(m.doomed, m.threads, t, k);
  }

  lemma SignalledKeeps(m: Machine, c: nat)
    requires Inv(m) && c in m.conds
    ensures m.conds[c] != [] ==> m.conds[c][0] in m.threads
    ensures
      var m' := Signalled(m, c);
      Inv(m') && m'.current == m.current && m'.mode == m.mode && m'.conds.Keys == m.conds.Keys
  {
    hide TcbsOk, ReadyOk, SemsOk, CondsOk, LocksOk, TableOk;
    if m.conds[c] != [] {
      CondHead(m.current, m.mode, m.conds, m.owners.Keys, m.threads, c);
      var t := m.conds[c][0];
      var k := m.threads[t].(status := Ready, place := OnReady);
      TcbFact(m.current, m.mode, m.threads, t);
      TcbsFrame(m.current, m.mode, m.threads, t, k);
      ReadyPushed(m.ready, m.threads, t, k);
      SemsFrame(m.sems, m.threads, t, k);
      CondsLeave(m.conds, m.owners.Keys, m.threads, c, k);
      TableFrame(m.table, m.threads, t, k);
      DoomedFrame(m.doomed, m.threads, t, k);
    }
  }

  // ---------------------------------------------------------------------------
  // Runs

  /** Broadcast: signal until nobody waits. */
  ghost function Emptied(m: Machine, c: nat): (r: Machine)
    requires Inv(m) && c in m.conds
    ensures Inv(r) && r.current == m.current && r.mode == m.mode
    ensures c in r.conds && r.conds[c] == []
    ensures m.threads.Keys <= r.threads.Keys
    decreases |m.conds[c]|
  {
    hide TcbsOk, ReadyOk, SemsOk, CondsOk, LocksOk, TableOk;
    SignalledKeeps(m, c);
    if m.conds[c] == [] then m else Emptied(Signalled(m, c), c)
  }

  datatype Event =
    | Create(t: Thread, priority: int) | Fork(t: Thread) | Yield | Finish
    | P(n: nat) | Up(n: nat)
    | Acquire(l: nat) | Release(l: nat)
    | Wait(c: nat, l: nat) | Signal(c: nat, l: nat) | Broadcast(c: nat, l: nat)
    | Dispatch | Resume

  /** The lock is held by the thread that calls: what Release, Wait, Signal and Broadcast insist on. */
  ghost predicate HoldsLock(m: Machine, l: nat) {
    m.mode == Runs && l in m.owners && l in m.holder && m.holder[l] == Some(m.current)
  }

  /** Whether e can happen now. Up is also what interrupt handlers do, while a thread runs or the machine idles. */
  ghost predicate Enabled(m: Machine, e: Event) {
    match e
    case Create(t, _) => m.mode == Runs && t !in m.threads && HasRoom(m.table)
    case Fork(t) => m.mode == Runs && t in m.threads && m.threads[t].status == JustCreated
    case Yield => m.mode == Runs
    case Finish => m.mode == Runs
    case P(n) => m.mode == Runs && User(n) in m.sems
    case Up(n) => m.mode != Resumes && User(n) in m.sems
    case Acquire(l) => m.mode == Runs && OfLock(l) in m.sems
    case Release(l) => HoldsLock(m, l)
    case Wait(c, l) => HoldsLock(m, l) && c in m.conds
    case Signal(c, l) => HoldsLock(m, l) && c in m.conds
    case Broadcast(c, l) => HoldsLock(m, l) && c in m.conds
    case Dispatch => m.mode == Sleeps && m.ready != []
    case Resume => m.mode == Resumes
  }

  /** Where the current thread picks up after the switch. */
  ghost function Resumed(m: Machine): (r: Machine)
    requires Inv(m) && m.mode == Resumes
    ensures Inv(r)
    ensures m.threads.Keys <= r.threads.Keys
  {
    TcbFact(m.current, m.mode, m.threads, m.current);
    ResumesWell(m);
    hide TcbsOk, ReadyOk, SemsOk, CondsOk, LocksOk, TableOk;
    match m.threads[m.current].kont
    case Fresh => OnwardsKeeps(m); Onwards(m)
    case Onward => OnwardsKeeps(m); Onwards(m)
    case Recheck(s) => PassedKeeps(m, s); Passed(m, s)
    case Reacquire(l) => PassedKeeps(m, OfLock(l)); Passed(m, OfLock(l))
  }

  lemma ResumesWell(m: Machine)
    requires Inv(m) && m.mode == Resumes
    ensures m.current in m.threads
    ensures var k := m.threads[m.current].kont;
      && k != Dead
      && (k.Recheck? ==> k.s in m.sems)
      && (k.Reacquire? ==> OfLock(k.l) in m.sems)
  {
    assert TcbOk(m.threads[m.current], true);
  }

  ghost function Next(m: Machine, e: Event): (r: Machine)
    requires Inv(m) && Enabled(m, e)
    ensures Inv(r)
    ensures forall t :: t in m.threads && t !in r.threads ==> m.doomed == Some(t)
  {
    hide TcbsOk, ReadyOk, SemsOk, CondsOk, LocksOk, TableOk, Inv;
    match e
    case Create(t, priority) => CreatedKeeps(m, t, priority); Created(m, t, priority)
    case Fork(t) => ForkedKeeps(m, t); MakeReady(m, t)
    case Yield => if m.ready == [] then m else YieldedKeeps(m); Yielded(m)
    case Finish => FinishedKeeps(m); Finished(m)
    case P(n) => RunnerPasses(m, User(n)); PassedKeeps(m, User(n)); Passed(m, User(n))
    case Up(n) => UppedKeeps(m, n); Upped(m, User(n))
    case Acquire(l) => RunnerPasses(m, OfLock(l)); PassedKeeps(m, OfLock(l)); Passed(m, OfLock(l))
    case Release(l) => ReleasedKeeps(m, l); Released(m, l)
    case Wait(c, l) => ReleasedKeeps(m, l); WaitingKeeps(Released(m, l), c, l); Waiting(Released(m, l), c, l)
    case Signal(c, _) => SignalledKeeps(m, c); Signalled(m, c)
    case Broadcast(c, _) => Emptied(m, c)
    case Dispatch => DispatchedKeeps(m); Dispatched(m)
    case Resume => Resumed(m)
  }

  lemma RunnerPasses(m: Machine, s: SemId)
    requires Inv(m) && m.mode == Runs && s in m.sems
    ensures MayPass(m, s)
  {
  }

  /** The machine at start-up: the main thread runs, and every semaphore has its initial value. */
  ghost function Boot(values: map<nat, nat>, locks: set<nat>, conds: set<nat>): Machine {
    Machine(0, Runs, map[0 := Tcb(Running, 0, 0, Onward, Nowhere)], [],
            map s | s in BootSems(values, locks) :: NewSema(if s.User? then values[s.n] else 1),
            map c | c in conds :: [],
            map l | l in locks :: None,
            map l | l in locks :: {},
            [Some(0)] + seq(MAX_THREAD_NUM - 1, _ => None),
            None)
  }

  ghost function BootSems(values: map<nat, nat>, locks: set<nat>): set<SemId> {
    (set n | n in values :: User(n)) + (set l | l in locks :: OfLock(l))
  }

  lemma NewSemLists(x: Sema, s: SemId, threads: Tcbs)
    requires x.queue == [] && x.woken == {} && x.value >= 0
    requires forall t :: t in threads ==> threads[t].place == Nowhere && threads[t].kont == Onward
    ensures SemLists(x, s, threads)
  {
  }

  lemma BootSemsOk(values: map<nat, nat>, locks: set<nat>, conds: set<nat>)
    ensures var m := Boot(values, locks, conds); SemsOk(m.sems, m.threads) && LocksOk(m.sems, m.holder, m.owners)
  {
    hide SemLists;
    var m := Boot(values, locks, conds);
    forall s | s in m.sems ensures SemLists(m.sems[s], s, m.threads) {
      NewSemLists(m.sems[s], s, m.threads);
    }
  }

  lemma BootInv(values: map<nat, nat>, locks: set<nat>, conds: set<nat>)
    ensures Inv(Boot(values, locks, conds))
  {
    BootSemsOk(values, locks, conds);
    var m := Boot(values, locks, conds);
    hide SemsOk, LocksOk, BootSems;
    assert forall c | c in m.conds :: CondLists(m.conds[c], c, m.threads);
  }

  /** The state after a sequence of events, if they can happen in that order. */
  ghost function After(m: Machine, es: seq<Event>): (r: Option<Machine>)
    requires Inv(m)
    ensures r.Some? ==> Inv(r.value)
  {
    if es == [] then Some(m)
    else
      var r := After(m, es[..|es| - 1]);
      if r.Some? && Enabled(r.value, es[|es| - 1]) then Some(Next(r.value, es[|es| - 1])) else None
  }

  /** m is a state of some run from start-up. */
  ghost predicate Reachable(m: Machine) {
    exists values, locks, conds, es :: ReachedBy(m, values, locks, conds, es)
  }

  ghost predicate ReachedBy(m: Machine, values: map<nat, nat>, locks: set<nat>, conds: set<nat>, es: seq<Event>) {
    BootInv(values, locks, conds);
    After(Boot(values, locks, conds), es) == Some(m)
  }

  lemma ReachableInv(m: Machine)
    requires Reachable(m)
    ensures Inv(m)
  {
    var values, locks, conds, es :| ReachedBy(m, values, locks, conds, es);
    BootInv(values, locks, conds);
  }

  // ---------------------------------------------------------------------------
  // What holds in every reachable state

  lemma {:induction false} Occurrences(ts: seq<Thread>, t: Thread)
    requires NoDup(ts)
    ensures multiset(ts)[t] == if t in ts then 1 else 0
  {
    if ts != [] {
      PopHead(ts);
      Occurrences(ts[1..], t);
      assert ts == [ts[0]] + ts[1..];
    }
  }

  /** A thread is READY exactly when it is on the ready list, and then it is there once. */
  lemma ReadyIffListedOnce(m: Machine, t: Thread)
    requires Reachable(m)
    ensures multiset(Untag(m.ready))[t] == if t in m.threads && m.threads[t].status == Ready then 1 else 0
  {
    ReachableInv(m);
    TcbFact(m.current, m.mode, m.threads, t);
    Occurrences(Untag(m.ready), t);
    hide Untag, SemsOk, CondsOk, LocksOk, TableOk;
    assert t in Untag(m.ready) <==> At(m.threads, t, OnReady);
  }

  /** How often t is in the queues of semaphores and conditions. */
  ghost predicate Waits(m: Machine, t: Thread, place: Place) {
    || (place.OnSem? && place.s in m.sems && t in m.sems[place.s].queue)
    || (place.OnCond? && place.c in m.conds && t in m.conds[place.c])
  }

  lemma WaitsWhere(m: Machine, t: Thread, place: Place)
    requires Inv(m)
    ensures Waits(m, t, place) ==> At(m.threads, t, place) && m.threads[t].status == Blocked
    ensures place.OnSem? && place.s in m.sems ==> multiset(m.sems[place.s].queue)[t] <= 1
    ensures place.OnCond? && place.c in m.conds ==> multiset(m.conds[place.c])[t] <= 1
  {
    TcbFact(m.current, m.mode, m.threads, t);
    hide ReadyOk, LocksOk, TableOk, TcbsOk;
    if place.OnSem? && place.s in m.sems {
      assert SemLists(m.sems[place.s], place.s, m.threads);
      Occurrences(m.sems[place.s].queue, t);
    } else if place.OnCond? && place.c in m.conds {
      assert CondLists(m.conds[place.c], place.c, m.threads);
      Occurrences(m.conds[place.c], t);
    }
  }

  /** A queued waiter is BLOCKED, waits in one queue only, once, and is not on the ready list. */
  lemma WaiterIsBlocked(m: Machine, t: Thread, p: Place, q: Place)
    requires Reachable(m) && Waits(m, t, p)
    ensures t in m.threads && m.threads[t].status == Blocked && t !in Untag(m.ready)
    ensures Waits(m, t, q) ==> q == p
  {
    ReachableInv(m);
    WaitsWhere(m, t, p);
    WaitsWhere(m, t, q);
    ReadyIffListedOnce(m, t);
    assert t in Untag(m.ready) ==> multiset(Untag(m.ready))[t] > 0;
  }

  /** A BLOCKED thread is in a queue that will wake it, unless it has finished. */
  lemma BlockedIsQueued(m: Machine, t: Thread)
    requires Reachable(m) && t in m.threads && m.threads[t].status == Blocked
    ensures m.threads[t].kont == Dead || Waits(m, t, m.threads[t].place)
  {
    ReachableInv(m);
    TcbFact(m.current, m.mode, m.threads, t);
    hide ReadyOk, LocksOk, TableOk, TcbsOk;
    match m.threads[t].place {
      case OnSem(s) => assert SemLists(m.sems[s], s, m.threads) && At(m.threads, t, OnSem(s));
      case OnCond(c) => assert CondLists(m.conds[c], c, m.threads) && At(m.threads, t, OnCond(c));
      case Nowhere =>
    }
  }

  /** Ids are distinct and the table finds a thread by its id. */
  lemma IdsDistinct(m: Machine, t: Thread, u: Thread)
    requires Reachable(m) && t in m.threads && u in m.threads && t != u
    ensures m.threads[t].id != m.threads[u].id
    ensures m.threads[t].id < |m.table| && m.table[m.threads[t].id] == Some(t)
  {
    ReachableInv(m);
    hide ReadyOk, LocksOk, TcbsOk, SemsOk, CondsOk;
  }

  /** No wake-up is lost: while somebody sleeps on s, every unit of its value belongs to a thread that has been
      woken and will look again. */
  lemma NoLostWakeUp(m: Machine, s: SemId)
    requires Reachable(m) && s in m.sems
    ensures m.sems[s].value >= 0
    ensures m.sems[s].queue != [] ==> m.sems[s].value <= |set t | t in m.threads && Awake(m.threads, t, s)|
  {
    ReachableInv(m);
    hide ReadyOk, LocksOk, TableOk, TcbsOk, CondsOk;
    assert SemLists(m.sems[s], s, m.threads);
    assert m.sems[s].woken == set t | t in m.threads && Awake(m.threads, t, s);
  }

  /** A lock has at most one owner, who is its holder, and its semaphore is 0 exactly while it is held. */
  lemma LockExcludes(m: Machine, l: nat)
    requires Reachable(m) && l in m.owners
    ensures OfLock(l) in m.sems && l in m.holder && |m.owners[l]| <= 1
    ensures m.sems[OfLock(l)].value == 0 <==> m.holder[l].Some?
    ensures m.owners[l] == HeldBy(m.holder[l])
  {
    ReachableInv(m);
    hide ReadyOk, TableOk, TcbsOk, SemsOk, CondsOk;
  }

  /** A thread that an event destroys had finished, and neither before nor after is it ready, waiting or running. */
  lemma DestroyedIsOffAllLists(m: Machine, e: Event, t: Thread, place: Place)
    requires Reachable(m) && Enabled(m, e)
    requires t in m.threads
    ensures Inv(m)
    ensures t !in Next(m, e).threads ==>
      && m.threads[t].kont == Dead && t != Next(m, e).current
      && t !in Untag(m.ready) && !Waits(m, t, place)
      && t !in Untag(Next(m, e).ready) && !Waits(Next(m, e), t, place)
  {
    ReachableInv(m);
    var m' := Next(m, e);
    if t !in m'.threads {
      DestroyedIsDead(m, e, t);
      TcbFact(m.current, m.mode, m.threads, t);
      OffAllLists(m, t, place);
      OffAllLists(m', t, place);
      TcbFact(m'.current, m'.mode, m'.threads, t);
    }
  }

  lemma OffAllLists(m: Machine, t: Thread, place: Place)
    requires Inv(m) && (t !in m.threads || m.threads[t].place == Nowhere)
    ensures t !in Untag(m.ready) && !Waits(m, t, place)
  {
    WaitsWhere(m, t, place);
    hide SemsOk, CondsOk, LocksOk, TcbsOk, TableOk, Untag;
    assert t in Untag(m.ready) <==> At(m.threads, t, OnReady);
  }

  /** Only the destructor removes threads. */
  lemma DestroyedIsDead(m: Machine, e: Event, t: Thread)
    requires Inv(m) && Enabled(m, e) && t in m.threads && t !in Next(m, e).threads
    ensures m.threads[t].kont == Dead && m.threads[t].place == Nowhere
  {
    TcbFact(m.current, m.mode, m.threads, t);
    assert DoomedOk(m.doomed, m.threads);
    hide Next;
  }

  /** Whenever the processor is given away, by Sleep or by Yield, it goes to a READY thread of least priority number;
      Yield never gives it back to the thread that yields. */
  lemma NextIsLeast(m: Machine, e: Event, t: Thread)
    requires Reachable(m) && Enabled(m, e) && m.ready != [] && (e.Dispatch? || e.Yield?)
    ensures Inv(m)
    ensures var next := Next(m, e).current;
      && next in m.threads && m.threads[next].status == Ready
      && (e.Yield? ==> next != m.current)
      && (t in m.threads && m.threads[t].status == Ready ==> m.threads[next].priority <= m.threads[t].priority)
  {
    hide Next, TcbsOk, ReadyOk, SemsOk, CondsOk, LocksOk, TableOk;
    ReachableInv(m);
    ReadyHead(m);
    TcbFact(m.current, m.mode, m.threads, t);
    TcbFact(m.current, m.mode, m.threads, m.current);
    HeadIsLeast(m.ready, m.threads, t);
    NextIsHead(m, e);
  }

  lemma NextIsHead(m: Machine, e: Event)
    requires Inv(m) && Enabled(m, e) && m.ready != [] && (e.Dispatch? || e.Yield?)
    ensures Next(m, e).current == m.ready[0].item
  {
    hide Inv, Dispatched, Yielded;
  }

  lemma HeadIsLeast(ready: seq<Keyed<Thread>>, threads: Tcbs, t: Thread)
    requires ReadyOk(ready, threads) && ready != []
    ensures ready[0].item in threads
    ensures At(threads, t, OnReady) ==> threads[ready[0].item].priority <= threads[t].priority
  {
    if At(threads, t, OnReady) {
      assert t in Untag(ready);
      var i :| 0 <= i < |ready| && Untag(ready)[i] == t;
    }
  }
}
