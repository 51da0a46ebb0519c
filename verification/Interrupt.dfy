/** machine/interrupt.cc: simulated time, the list of pending interrupts, and the loops that fire them. */
module Interrupts {
  import opened Lists

  const SYSTEM_TICK := 10
  const USER_TICK := 1

  datatype Level = IntOff | IntOn
  datatype Status = IdleMode | SystemMode | UserMode

  /** A pending interrupt: its device, and which of its requests it is. */
  datatype Request = Request(timer: bool, arg: int)

  type Pending = seq<Keyed<Request>>

  /** A call of Schedule made by an interrupt handler. */
  datatype Call = Call(request: Request, fromNow: int)

  /** What a handler does: it schedules, and the timer's may ask for a context switch. */
  datatype Effect = Effect(calls: seq<Call>, wantsYield: bool)

  /** An interrupt that occurred: when it was due, the clock at that moment, and what had been asked for. */
  datatype Firing = Firing(when: int, at: int, request: Request)

  /** Schedule insists on a time in the future. The n-th handler to run does what handlers(n) says. */
  ghost predicate Polite(handlers: nat -> Effect) {
    forall n, i :: 0 <= i < |handlers(n).calls| ==> handlers(n).calls[i].fromNow > 0
  }

  /** How many pending interrupts are due. */
  function DueCount(xs: Pending, now: int): nat {
    if xs == [] then 0 else (if xs[0].key <= now then 1 else 0) + DueCount(xs[1..], now)
  }

  lemma {:induction false} DueConcat(xs: Pending, ys: Pending, now: int)
    ensures DueCount(xs + ys, now) == DueCount(xs, now) + DueCount(ys, now)
  {
    if xs == [] {
      assert xs + ys == ys;
    } else {
      assert (xs + ys)[1..] == xs[1..] + ys && (xs + ys)[0] == xs[0];
      DueConcat(xs[1..], ys, now);
    }
  }

  lemma DueInserted(xs: Pending, e: Keyed<Request>, now: int)
    ensures DueCount(Inserted(xs, e), now) == DueCount(xs, now) + if e.key <= now then 1 else 0
  {
    var p := Position(xs, e.key);
    assert Inserted(xs, e) == xs[..p] + ([e] + xs[p..]);
    hide Position, Inserted;
    assert ([e] + xs[p..])[1..] == xs[p..];
    assert DueCount([e] + xs[p..], now) == (if e.key <= now then 1 else 0) + DueCount(xs[p..], now);
    hide DueCount;
    DueConcat(xs[..p], xs[p..], now);
    DueConcat(xs[..p], [e] + xs[p..], now);
    assert xs == xs[..p] + xs[p..];
  }

  /** The pending list after a handler's calls. */
  function Scheduled(xs: Pending, calls: seq<Call>, now: int): Pending
    decreases |calls|
  {
    if calls == [] then xs
    else Scheduled(Inserted(xs, Keyed(now + calls[0].fromNow, calls[0].request)), calls[1..], now)
  }

  ghost predicate AllFrom(xs: Pending, time: int) {
    forall i :: 0 <= i < |xs| ==> xs[i].key >= time
  }

  lemma InsertedFrom(xs: Pending, e: Keyed<Request>, time: int)
    requires AllFrom(xs, time) && e.key >= time
    ensures AllFrom(Inserted(xs, e), time)
  {
    hide Position, Inserted;
    InsertedAt(xs, e, 0);
    forall i | 0 <= i <= |xs| ensures Inserted(xs, e)[i].key >= time { InsertedAt(xs, e, i); }
  }

  /** What a handler schedules is not due yet, and keeps the list sorted. */
  lemma {:induction false} ScheduledKeeps(xs: Pending, calls: seq<Call>, now: int, time: int)
    requires Sorted(xs) && AllFrom(xs, time) && time <= now
    requires forall i :: 0 <= i < |calls| ==> calls[i].fromNow > 0
    ensures Sorted(Scheduled(xs, calls, now)) && AllFrom(Scheduled(xs, calls, now), time)
    ensures DueCount(Scheduled(xs, calls, now), now) == DueCount(xs, now)
    decreases |calls|
  {
    if calls != [] {
      hide Sorted, AllFrom, Inserted;
      var e := Keyed(now + calls[0].fromNow, calls[0].request);
      InsertedSorted(xs, e);
      InsertedFrom(xs, e, time);
      DueInserted(xs, e, now);
      ScheduledKeeps(Inserted(xs, e), calls[1..], now, time);
    }
  }

  lemma {:induction false} NothingDue(xs: Pending, now: int)
    requires Sorted(xs) && (xs == [] || xs[0].key > now)
    ensures AllFrom(xs, now + 1) && DueCount(xs, now) == 0
  {
    if xs != [] {
      assert forall i :: 0 <= i < |xs| ==> xs[0].key <= xs[i].key;
      if |xs| > 1 { assert xs[1..][0] == xs[1]; }
      assert Sorted(xs[1..]);
      NothingDue(xs[1..], now);
    }
  }

  /** Putting the head back moves it behind the entries that are due at the same time. */
  lemma PutBack(xs: Pending)
    requires xs != [] && Sorted(xs)
    ensures Sorted(Inserted(xs[1..], xs[0]))
    ensures multiset(Inserted(xs[1..], xs[0])) == multiset(xs)
    ensures Inserted(xs[1..], xs[0])[0].key == xs[0].key
  {
    var rest := xs[1..];
    assert Sorted(rest);
    InsertedSorted(rest, xs[0]);
    InsertedElements(rest, xs[0]);
    assert xs == [xs[0]] + rest;
    InsertedAt(rest, xs[0], 0);
    if Position(rest, xs[0].key) > 0 { assert rest[0].key <= xs[0].key && rest[0] == xs[1]; }
  }

  /** So it leaves the list as it was exactly when no different entry is due at the same time as the head. */
  lemma PutBackRotatesTies(xs: Pending)
    requires xs != [] && Sorted(xs)
    ensures Inserted(xs[1..], xs[0]) == xs <==> forall i :: 0 <= i < |xs| && xs[i].key == xs[0].key ==> xs[i] == xs[0]
  {
    var rest, ys := xs[1..], Inserted(xs[1..], xs[0]);
    var p := Position(rest, xs[0].key);
    hide Position, Inserted;
    InsertedAt(rest, xs[0], 0);
    forall i | 0 <= i < |xs| ensures ys[i] == if i < p then xs[i + 1] else if i == p then xs[0] else xs[i] {
      InsertedAt(rest, xs[0], i);
    }
    TiesAre(xs, p);
    if ys == xs { SameRun(xs, p); }
    if forall i :: 0 <= i < |xs| && xs[i].key == xs[0].key ==> xs[i] == xs[0] {
      assert forall i :: 0 <= i <= p ==> xs[i] == xs[0];
    }
  }

  lemma TiesAre(xs: Pending, p: nat)
    requires xs != [] && Sorted(xs) && p < |xs|
    requires forall i :: 0 <= i < p ==> xs[1..][i].key <= xs[0].key
    requires p < |xs| - 1 ==> xs[0].key < xs[1..][p].key
    ensures forall i :: 0 <= i < |xs| ==> (xs[i].key == xs[0].key <==> i <= p)
  {
    forall i | 0 <= i < |xs| ensures xs[i].key == xs[0].key <==> i <= p {
      if 0 < i <= p {
        assert xs[1..][i - 1] == xs[i] && xs[0].key <= xs[i].key;
      } else if p < i {
        assert xs[1..][p] == xs[p + 1];
        if p + 1 < i { assert xs[p + 1].key <= xs[i].key; }
      }
    }
  }

  lemma {:induction false} SameRun(xs: Pending, p: nat)
    requires p < |xs| && forall i :: 0 <= i < p ==> xs[i] == xs[i + 1]
    ensures forall i :: 0 <= i <= p ==> xs[i] == xs[0]
  {
    if p > 0 {
      SameRun(xs, p - 1);
      assert xs[p - 1] == xs[p - 1 + 1];
    }
  }

  // ---------------------------------------------------------------------------
  // The machine's time as a value

  /** Interrupts occur in the order of their due times, and none of them early. */
  ghost predicate InOrder(fired: seq<Firing>) {
    && (forall i :: 0 <= i < |fired| ==> fired[i].when <= fired[i].at)
    && (forall i :: 0 < i < |fired| ==> fired[i - 1].when <= fired[i].when && fired[i - 1].at <= fired[i].at)
  }

  /** handled counts the handlers run so far; fired records every interrupt that occurred. */
  datatype State = State(
    level: Level, pending: Pending, status: Status, yieldOnReturn: bool,
    totalTicks: int, idleTicks: int, systemTicks: int, userTicks: int,
    handled: nat, fired: seq<Firing>)

  const POWER_ON := State(IntOff, [], SystemMode, false, 0, 0, 0, 0, 0, [])

  /** The due time of the interrupt that occurred last. */
  function LastDue(fired: seq<Firing>): int {
    if fired == [] then 0 else fired[|fired| - 1].when
  }

  ghost predicate Good(s: State) {
    && Sorted(s.pending) && AllFrom(s.pending, LastDue(s.fired))
    && InOrder(s.fired) && s.handled == |s.fired|
    && (s.fired != [] ==> s.fired[|s.fired| - 1].at <= s.totalTicks)
    && 0 <= s.totalTicks == s.idleTicks + s.systemTicks + s.userTicks
  }

  /** Schedule. */
  function Planned(s: State, request: Request, fromNow: int): State {
    s.(pending := Inserted(s.pending, Keyed(s.totalTicks + fromNow, request)))
  }

  /** The handler of the first pending interrupt runs. */
  function Fired(s: State, handlers: nat -> Effect): State
    requires s.pending != []
  {
    var effect := handlers(s.handled);
    s.(pending := Scheduled(s.pending[1..], effect.calls, s.totalTicks),
       yieldOnReturn := s.yieldOnReturn || effect.wantsYield,
       handled := s.handled + 1, 
       fired := s.fired + [Firing(s.pending[0].key, s.totalTicks, s.pending[0].item)])
  }

  /** The clock moved up to the first pending interrupt. */
  function Advanced(s: State): State
    requires s.pending != []
  {
    var when := s.pending[0].key;
    if when > s.totalTicks then s.(idleTicks := s.idleTicks + (when - s.totalTicks), totalTicks := when) else s
  }

  /** The last pending interrupt is the time slice of an idle machine: there is nothing else to wait for. */
  predicate OnlyTimer(s: State) {
    s.status == IdleMode && |s.pending| == 1 && s.pending[0].item.timer
  }

  /** CheckIfDue, and whether it fired. */
  function Checked(s: State, advanceClock: bool, handlers: nat -> Effect): (State, bool) {
    if s.pending == [] then (s, false)
    else
      var t := if advanceClock then Advanced(s) else s;
      if s.pending[0].key > t.totalTicks || OnlyTimer(s)
      then (t.(pending := Inserted(s.pending[1..], s.pending[0])), false)
      else (Fired(t, handlers), true)
  }

  lemma HeadFrom(xs: Pending, time: int)
    requires xs != [] && AllFrom(xs, time)
    ensures time <= xs[0].key
  {
  }

  /** One more firing, of an interrupt that is due and not due before the last one that occurred. */
  lemma FiredInOrder(fired: seq<Firing>, when: int, at: int, request: Request)
    requires InOrder(fired) && when <= at
    requires fired != [] ==> fired[|fired| - 1].when <= when && fired[|fired| - 1].at <= at
    ensures InOrder(fired + [Firing(when, at, request)])
  {
  }

  lemma RestFrom(xs: Pending)
    requires xs != [] && Sorted(xs)
    ensures Sorted(xs[1..]) && AllFrom(xs[1..], xs[0].key)
    ensures forall now :: DueCount(xs, now) == DueCount(xs[1..], now) + if xs[0].key <= now then 1 else 0
  {
    assert forall i :: 0 <= i < |xs[1..]| ==> xs[1..][i] == xs[i + 1];
  }

  lemma PutBackFrom(xs: Pending, time: int)
    requires xs != [] && AllFrom(xs, time)
    ensures AllFrom(Inserted(xs[1..], xs[0]), time)
  {
    InsertedFrom(xs[1..], xs[0], time);
  }

  lemma FiredGood(s: State, handlers: nat -> Effect)
    requires Good(s) && Polite(handlers) && s.pending != [] && s.pending[0].key <= s.totalTicks
    ensures Good(Fired(s, handlers))
    ensures DueCount(Fired(s, handlers).pending, s.totalTicks) < DueCount(s.pending, s.totalTicks)
  {
    var xs := s.pending;
    HeadFrom(xs, LastDue(s.fired));
    FiredInOrder(s.fired, xs[0].key, s.totalTicks, xs[0].item);
    RestFrom(xs);
    hide Sorted, AllFrom, InOrder, Scheduled, DueCount;
    ScheduledKeeps(xs[1..], handlers(s.handled).calls, s.totalTicks, xs[0].key);
  }

  lemma PutBackGood(s: State)
    requires Good(s) && s.pending != []
    ensures Good(s.(pending := Inserted(s.pending[1..], s.pending[0])))
  {
    PutBack(s.pending);
    PutBackFrom(s.pending, LastDue(s.fired));
    hide Sorted, AllFrom, InOrder, Inserted;
  }

  lemma AdvancedGood(s: State)
    requires Good(s) && s.pending != []
    ensures Good(Advanced(s)) && s.pending[0].key <= Advanced(s).totalTicks
  {
  }

  lemma CheckedGood(s: State, advanceClock: bool, handlers: nat -> Effect)
    requires Good(s) && Polite(handlers)
    ensures var r := Checked(s, advanceClock, handlers);
      && Good(r.0) && r.0.level == s.level && r.0.status == s.status
      && (!advanceClock ==> r.0.totalTicks == s.totalTicks)
      && (!advanceClock && r.1 ==> DueCount(r.0.pending, r.0.totalTicks) < DueCount(s.pending, s.totalTicks))
  {
    hide Good, Inserted, DueCount, Polite, Scheduled, Position;
    if s.pending != [] {
      AdvancedGood(s);
      var t := if advanceClock then Advanced(s) else s;
      PutBackGood(t);
      if t.pending[0].key <= t.totalTicks { FiredGood(t, handlers); }
    }
  }

  /** Checking until nothing fires. Every handler run removes one due interrupt and adds none. */
  function Drained(s: State, handlers: nat -> Effect): (r: State)
    requires Good(s) && Polite(handlers)
    ensures Good(r) && r.level == s.level && r.status == s.status && r.totalTicks == s.totalTicks
    decreases DueCount(s.pending, s.totalTicks)
  {
    hide Good, Polite, Checked, DueCount;
    CheckedGood(s, false, handlers);
    var r := Checked(s, false, handlers);
    if r.1 then Drained(r.0, handlers) else r.0
  }

  /** The clock moved on by the tick of the mode. */
  function Later(s: State): (r: State)
    requires Good(s)
    ensures Good(r) && r == s.(totalTicks := r.totalTicks, systemTicks := r.systemTicks, userTicks := r.userTicks)
    ensures r.totalTicks == s.totalTicks + if s.status == SystemMode then SYSTEM_TICK else USER_TICK
  {
    if s.status == SystemMode
    then s.(totalTicks := s.totalTicks + SYSTEM_TICK, systemTicks := s.systemTicks + SYSTEM_TICK)
    else s.(totalTicks := s.totalTicks + USER_TICK, userTicks := s.userTicks + USER_TICK)
  }

  function Ticked(s: State, handlers: nat -> Effect): (r: State)
    requires Good(s) && Polite(handlers)
    ensures Good(r) && r.level == IntOn && r.status == s.status
  {
    Drained(Later(s).(level := IntOff), handlers).(level := IntOn, yieldOnReturn := false)
  }

  /** Whether the current thread is to yield after a tick. */
  predicate Yields(s: State, handlers: nat -> Effect)
    requires Good(s) && Polite(handlers)
  {
    Drained(Later(s).(level := IntOff), handlers).yieldOnReturn
  }

  /** Some of the handlers from number first up to number last asks for a yield. */
  ghost predicate Asked(handlers: nat -> Effect, first: nat, last: nat) {
    exists k :: first <= k < last && handlers(k).wantsYield
  }

  lemma CheckedAsks(s: State, handlers: nat -> Effect)
    ensures var r := Checked(s, false, handlers);
      && r.0.handled == s.handled + (if r.1 then 1 else 0)
      && (r.0.yieldOnReturn <==> s.yieldOnReturn || (r.1 && handlers(s.handled).wantsYield))
  {
    hide Inserted, Scheduled;
  }

  lemma NobodyAsked(handlers: nat -> Effect, first: nat)
    ensures !Asked(handlers, first, first)
  {
  }

  lemma AskedFirst(handlers: nat -> Effect, first: nat, last: nat)
    requires first < last
    ensures Asked(handlers, first, last) <==> handlers(first).wantsYield || Asked(handlers, first + 1, last)
  {
  }

  lemma {:induction false} DrainedAsks(s: State, handlers: nat -> Effect)
    requires Good(s) && Polite(handlers)
    ensures var r := Drained(s, handlers);
      s.handled <= r.handled && (r.yieldOnReturn <==> s.yieldOnReturn || Asked(handlers, s.handled, r.handled))
    decreases DueCount(s.pending, s.totalTicks)
  {
    hide Good, Polite, DueCount, Checked, Asked;
    CheckedGood(s, false, handlers);
    CheckedAsks(s, handlers);
    var r := Checked(s, false, handlers);
    if r.1 {
      DrainedAsks(r.0, handlers);
      AskedFirst(handlers, s.handled, Drained(s, handlers).handled);
    } else {
      NobodyAsked(handlers, s.handled);
    }
  }

  /** It is exactly when that was asked for already, or a handler that ran in this tick asks for it. */
  lemma TickYields(s: State, handlers: nat -> Effect)
    requires Good(s) && Polite(handlers)
    ensures Yields(s, handlers) <==>
      s.yieldOnReturn || Asked(handlers, s.handled, Ticked(s, handlers).handled)
    ensures !Ticked(s, handlers).yieldOnReturn
  {
    hide Polite, Drained, Asked, Sorted, AllFrom, InOrder;
    DrainedAsks(Later(s).(level := IntOff), handlers);
  }

  /** Idle, and whether the machine halts. */
  function Idled(s: State, handlers: nat -> Effect): (r: (State, bool))
    requires Good(s) && Polite(handlers)
    ensures Good(r.0) && r.0.level == s.level && (!r.1 ==> r.0.status == SystemMode)
  {
    var idle := s.(status := IdleMode);
    CheckedGood(idle, true, handlers);
    var r := Checked(idle, true, handlers);
    if r.1 then (Drained(r.0, handlers).(yieldOnReturn := false, status := SystemMode), false) else (r.0, true)
  }

  function Leveled(s: State, now: Level, handlers: nat -> Effect): (r: State)
    requires Good(s) && Polite(handlers)
    ensures Good(r) && r.level == now && r.status == s.status
  {
    if now == IntOn && s.level == IntOff then Ticked(s.(level := now), handlers) else s.(level := now)
  }

  // ---------------------------------------------------------------------------
  // What the loops leave

  ghost predicate SomethingDue(s: State) {
    DueCount(s.pending, s.totalTicks) > 0
  }

  lemma {:induction false} DrainedNothingDue(s: State, handlers: nat -> Effect)
    requires Good(s) && Polite(handlers) && s.status != IdleMode
    ensures AllFrom(Drained(s, handlers).pending, s.totalTicks + 1)
    decreases DueCount(s.pending, s.totalTicks)
  {
    CheckedGood(s, false, handlers);
    var r := Checked(s, false, handlers);
    if r.1 {
      hide Good, Polite, Checked, DueCount;
      DrainedNothingDue(r.0, handlers);
    } else {
      if s.pending != [] { PutBack(s.pending); }
      hide Inserted, Position;
      NothingDue(r.0.pending, s.totalTicks);
    }
  }

  /** After a tick nothing is due. */
  lemma TickedNothingDue(s: State, handlers: nat -> Effect)
    requires Good(s) && Polite(handlers) && s.status != IdleMode
    ensures AllFrom(Ticked(s, handlers).pending, Ticked(s, handlers).totalTicks + 1)
    ensures Ticked(s, handlers).totalTicks == s.totalTicks + if s.status == SystemMode then SYSTEM_TICK else USER_TICK
  {
    hide Sorted, AllFrom, InOrder, Polite, Drained;
    DrainedNothingDue(Later(s).(level := IntOff), handlers);
  }

  /** The next n handlers to run, from number first on, schedule nothing. */
  ghost predicate Silent(handlers: nat -> Effect, first: nat, n: nat) {
    forall k :: first <= k < first + n ==> handlers(k).calls == []
  }

  /** All pending interrupts are due by now, the last of them is the time slice, and the handlers of the others
      schedule nothing. */
  ghost predicate TimerComesLast(s: State, handlers: nat -> Effect, now: int) {
    && s.pending != []
    && s.pending[|s.pending| - 1].item.timer && s.pending[|s.pending| - 1].key <= now
    && Silent(handlers, s.handled, |s.pending| - 1)
  }

  /** What a handler schedules comes after everything that is due. */
  lemma {:induction false} ScheduledLast(xs: Pending, calls: seq<Call>, now: int)
    requires Sorted(xs) && forall i :: 0 <= i < |calls| ==> calls[i].fromNow > 0
    requires calls != [] || (xs != [] && xs[|xs| - 1].key > now)
    ensures var ys := Scheduled(xs, calls, now); ys != [] && ys[|ys| - 1].key > now
    decreases |calls|
  {
    if calls != [] {
      var e := Keyed(now + calls[0].fromNow, calls[0].request);
      InsertedSorted(xs, e);
      InsertedAt(xs, e, |xs|);
      hide Inserted;
      ScheduledLast(Inserted(xs, e), calls[1..], now);
    }
  }

  lemma FiredTimerLast(s: State, handlers: nat -> Effect)
    requires Good(s) && Polite(handlers) && s.pending != [] && s.pending[0].key <= s.totalTicks && !OnlyTimer(s)
    requires s.status == IdleMode
    ensures TimerComesLast(Fired(s, handlers), handlers, s.totalTicks) <==> TimerComesLast(s, handlers, s.totalTicks)
  {
    var xs, t, calls := s.pending, Fired(s, handlers), handlers(s.handled).calls;
    RestFrom(xs);
    hide Good, Sorted, AllFrom;
    if calls != [] {
      ScheduledLast(xs[1..], calls, s.totalTicks);
    } else {
      assert t.pending == xs[1..];
      assert |xs| > 1 ==> xs[1..][|xs| - 2] == xs[|xs| - 1];
    }
  }

  /** The drain of an idle machine leaves something due exactly then: the time slice. */
  lemma {:induction false} DrainedLeaves(s: State, handlers: nat -> Effect)
    requires Good(s) && Polite(handlers) && s.status == IdleMode
    ensures SomethingDue(Drained(s, handlers)) <==> TimerComesLast(s, handlers, s.totalTicks)
    decreases DueCount(s.pending, s.totalTicks)
  {
    CheckedGood(s, false, handlers);
    var r := Checked(s, false, handlers);
    if r.1 {
      FiredTimerLast(s, handlers);
      hide Good, Polite, DueCount, TimerComesLast;
      DrainedLeaves(r.0, handlers);
    } else if s.pending != [] {
      PutBack(s.pending);
      if s.pending[0].key > s.totalTicks {
        NothingDue(r.0.pending, s.totalTicks);
      } else {
        assert r.0.pending == s.pending;
      }
    }
  }

  /** Idle returns with something due if and only if at least two interrupts were pending, all due by the time of the
      first, the last of them the time slice, and the handlers of the others schedule nothing. */
  lemma IdleLeavesTimer(s: State, handlers: nat -> Effect)
    requires Good(s) && Polite(handlers)
    ensures var r := Idled(s, handlers);
      && (r.1 <==> s.pending == [] || (|s.pending| == 1 && s.pending[0].item.timer))
      && (!r.1 ==> (SomethingDue(r.0) <==>
           |s.pending| >= 2 && TimerComesLast(s, handlers, Advanced(s).totalTicks)))
  {
    hide Good, Polite, DueCount, Drained, Inserted, Scheduled, TimerComesLast;
    var idle := s.(status := IdleMode);
    IdleStays(s, handlers);
    CheckedGood(idle, true, handlers);
    var r := Checked(idle, true, handlers);
    if r.1 {
      AdvancedGood(idle);
      FiredTimerLast(Advanced(idle), handlers);
      DrainedLeaves(r.0, handlers);
    }
    if s.pending != [] { AdvancedGood(idle); }
  }

  lemma IdleStays(s: State, handlers: nat -> Effect)
    requires Good(s)
    ensures Good(s.(status := IdleMode))
    ensures s.pending != [] ==>
      var now := Advanced(s).totalTicks;
      TimerComesLast(Advanced(s.(status := IdleMode)), handlers, now) == TimerComesLast(s, handlers, now)
    ensures |s.pending| == 1 && !s.pending[0].item.timer ==> !TimerComesLast(s, handlers, Advanced(s).totalTicks)
  {
  }

  /** It happens: a disk interrupt and the time slice at tick 5, and handlers that schedule nothing. */
  lemma IdleLeavesTimerWitness(s: State)
    requires s == POWER_ON.(pending := [Keyed(5, Request(false, 0)), Keyed(5, Request(true, 0))])
    ensures var handlers := (n: nat) => Effect([], false);
      Good(s) && Polite(handlers) && !Idled(s, handlers).1 && SomethingDue(Idled(s, handlers).0)
  {
    var handlers := (n: nat) => Effect([], false);
    hide Idled, Done, Drained, Checked, Inserted, Scheduled;
    assert Sorted(s.pending);
    assert Good(s) && Polite(handlers) && TimerComesLast(s, handlers, Advanced(s).totalTicks);
    hide Good, Polite, TimerComesLast;
    IdleLeavesTimer(s, handlers);
  }

  // ---------------------------------------------------------------------------
  // Runs

  /** What the rest of the system does with time: enable and disable interrupts, execute user instructions, let
      devices schedule, and idle. */
  datatype Command = Enable | Disable | Instruction | Device(request: Request, fromNow: int) | Sleep

  predicate Legal(c: Command) {
    c.Device? ==> c.fromNow > 0
  }

  lemma LevelGood(s: State, level: Level)
    requires Good(s)
    ensures forall y :: Good(s.(level := level, yieldOnReturn := y))
    ensures Good(s.(level := level))
  {
  }

  /** The state after a command, and whether the machine halted in it. */
  function Done(s: State, c: Command, handlers: nat -> Effect): (r: (State, bool))
    requires Good(s) && Polite(handlers) && Legal(c)
    ensures Good(r.0)
  {
    hide Polite, Sorted, AllFrom, InOrder, Ticked, Leveled, Idled, Planned;
    match c
    case Enable => (Leveled(s, IntOn, handlers), false)
    case Disable => (Leveled(s, IntOff, handlers), false)
    case Instruction => (Ticked(s.(status := UserMode), handlers).(status := SystemMode), false)
    case Device(request, fromNow) => PlannedGood(s, request, fromNow); (Planned(s, request, fromNow), false)
    case Sleep => Idled(Leveled(s, IntOff, handlers), handlers)
  }

  lemma LastDueIsPast(s: State)
    requires Good(s)
    ensures LastDue(s.fired) <= s.totalTicks
  {
  }

  lemma PlannedGood(s: State, request: Request, fromNow: int)
    requires Good(s) && fromNow > 0
    ensures Good(Planned(s, request, fromNow))
  {
    hide Sorted, AllFrom, InOrder, Inserted, Position;
    var e := Keyed(s.totalTicks + fromNow, request);
    LastDueIsPast(s);
    InsertedSorted(s.pending, e);
    InsertedFrom(s.pending, e, LastDue(s.fired));
  }

  /** The state after a sequence of commands, as far as the machine gets, and whether it halted. */
  function After(s: State, commands: seq<Command>, handlers: nat -> Effect): (r: (State, bool))
    requires Good(s) && Polite(handlers) && forall k :: 0 <= k < |commands| ==> Legal(commands[k])
    ensures Good(r.0)
    decreases |commands|
  {
    if commands == [] then (s, false)
    else
      var r := Done(s, commands[0], handlers);
      if r.1 then r else After(r.0, commands[1..], handlers)
  }

  lemma PowerOnGood()
    ensures Good(POWER_ON)
  {
  }

  /** Over every run from power-on or any other good state, up to a halt: interrupts occur in the order of their
      due times and never early, whatever is still pending is due no earlier than what has occurred, and the clock is
      the sum of idle, system and user time. */
  lemma TimeIsKept(start: State, commands: seq<Command>, handlers: nat -> Effect)
    requires Good(start)
    requires Polite(handlers) && forall k :: 0 <= k < |commands| ==> Legal(commands[k])
    ensures var s := After(start, commands, handlers).0;
      && InOrder(s.fired)
      && s.totalTicks == s.idleTicks + s.systemTicks + s.userTicks
      && Sorted(s.pending) && AllFrom(s.pending, LastDue(s.fired))
  {
    hide After, Polite;
  }

  // ---------------------------------------------------------------------------
  // Every request is answered once, at its time

  /** What a handler asks for when the clock is at now. */
  function AskedFor(calls: seq<Call>, now: int): seq<Keyed<Request>> {
    seq(|calls|, i requires 0 <= i < |calls| => Keyed(now + calls[i].fromNow, calls[i].request))
  }

  /** What occurred, with the time at which it was due. */
  function Dues(fired: seq<Firing>): seq<Keyed<Request>> {
    seq(|fired|, i requires 0 <= i < |fired| => Keyed(fired[i].when, fired[i].request))
  }

  /** Everything that was ever asked for: what is pending and what has occurred. */
  ghost function Account(s: State): multiset<Keyed<Request>> {
    multiset(s.pending) + multiset(Dues(s.fired))
  }

  /** What the handlers of these firings, from number first on, asked for: each at the clock of its firing. */
  ghost function AskedByHandlers(fired: seq<Firing>, handlers: nat -> Effect, first: nat): multiset<Keyed<Request>> {
    if |fired| <= first then multiset{}
    else
      var n := |fired| - 1;
      AskedByHandlers(fired[..n], handlers, first) + multiset(AskedFor(handlers(n).calls, fired[n].at))
  }

  /** Between two states exactly this was asked for from outside, apart from what handlers that ran asked for. */
  ghost predicate Accounted(s: State, r: State, handlers: nat -> Effect, asked: multiset<Keyed<Request>>) {
    && s.fired <= r.fired
    && Account(r) == Account(s) + asked + AskedByHandlers(r.fired, handlers, |s.fired|)
  }

  lemma FirstCall(calls: seq<Call>, now: int)
    requires calls != []
    ensures AskedFor(calls, now) == [Keyed(now + calls[0].fromNow, calls[0].request)] + AskedFor(calls[1..], now)
  {
  }

  lemma {:induction false} ScheduledElements(xs: Pending, calls: seq<Call>, now: int)
    ensures multiset(Scheduled(xs, calls, now)) == multiset(xs) + multiset(AskedFor(calls, now))
    decreases |calls|
  {
    if calls != [] {
      var e := Keyed(now + calls[0].fromNow, calls[0].request);
      FirstCall(calls, now);
      hide Inserted, AskedFor;
      InsertedElements(xs, e);
      ScheduledElements(Inserted(xs, e), calls[1..], now);
      assert multiset([e]) == multiset{e};
    }
  }

  lemma {:induction false} HandlersAskedOn(a: seq<Firing>, b: seq<Firing>, handlers: nat -> Effect, first: nat)
    requires a <= b && first <= |a|
    ensures AskedByHandlers(b, handlers, first) ==
      AskedByHandlers(a, handlers, first) + AskedByHandlers(b, handlers, |a|)
    decreases |b|
  {
    if |a| == |b| {
      assert a == b;
    } else {
      HandlersAskedOn(a, b[..|b| - 1], handlers, first);
    }
  }

  lemma AccountedTwice(a: State, b: State, c: State, handlers: nat -> Effect,
                       x: multiset<Keyed<Request>>, y: multiset<Keyed<Request>>)
    requires Accounted(a, b, handlers, x) && Accounted(b, c, handlers, y)
    ensures Accounted(a, c, handlers, x + y)
  {
    hide AskedByHandlers, Account;
    HandlersAskedOn(b.fired, c.fired, handlers, |a.fired|);
  }

  lemma SameAccount(s: State, r: State, handlers: nat -> Effect)
    requires r.fired == s.fired && multiset(r.pending) == multiset(s.pending)
    ensures Accounted(s, r, handlers, multiset{})
  {
  }

  lemma PlannedAccount(s: State, request: Request, fromNow: int, handlers: nat -> Effect)
    ensures Accounted(s, Planned(s, request, fromNow), handlers, multiset{Keyed(s.totalTicks + fromNow, request)})
  {
    InsertedElements(s.pending, Keyed(s.totalTicks + fromNow, request));
    hide Inserted;
  }

  lemma FiredAccount(s: State, handlers: nat -> Effect)
    requires s.pending != [] && s.handled == |s.fired|
    ensures Accounted(s, Fired(s, handlers), handlers, multiset{})
  {
    var r, calls := Fired(s, handlers), handlers(s.handled).calls;
    ScheduledElements(s.pending[1..], calls, s.totalTicks);
    hide Scheduled, AskedFor;
    OneMoreFiring(s.fired, Firing(s.pending[0].key, s.totalTicks, s.pending[0].item), handlers);
    hide AskedByHandlers, Dues;
    assert s.pending == [s.pending[0]] + s.pending[1..];
  }

  lemma {:induction false} OneMoreFiring(fired: seq<Firing>, f: Firing, handlers: nat -> Effect)
    ensures Dues(fired + [f]) == Dues(fired) + [Keyed(f.when, f.request)]
    ensures AskedByHandlers(fired + [f], handlers, |fired|) == multiset(AskedFor(handlers(|fired|).calls, f.at))
  {
    hide AskedFor;
    assert (fired + [f])[..|fired|] == fired;
    assert AskedByHandlers(fired, handlers, |fired|) == multiset{};
  }

  lemma CheckedAccount(s: State, advanceClock: bool, handlers: nat -> Effect)
    requires Good(s)
    ensures Accounted(s, Checked(s, advanceClock, handlers).0, handlers, multiset{})
  {
    hide Accounted, Inserted, Fired;
    if s.pending == [] {
      SameAccount(s, s, handlers);
    } else {
      var t := if advanceClock then Advanced(s) else s;
      SameAccount(s, t, handlers);
      PutBack(s.pending);
      SameAccount(t, t.(pending := Inserted(s.pending[1..], s.pending[0])), handlers);
      FiredAccount(t, handlers);
      NothingTwice(s, t, Checked(s, advanceClock, handlers).0, handlers);
    }
  }

  lemma NothingTwice(a: State, b: State, c: State, handlers: nat -> Effect)
    requires Accounted(a, b, handlers, multiset{}) && Accounted(b, c, handlers, multiset{})
    ensures Accounted(a, c, handlers, multiset{})
  {
    hide Accounted;
    var none: multiset<Keyed<Request>> := multiset{};
    AccountedTwice(a, b, c, handlers, none, none);
    assert none + none == none;
  }

  lemma {:induction false} DrainedAccount(s: State, handlers: nat -> Effect)
    requires Good(s) && Polite(handlers)
    ensures Accounted(s, Drained(s, handlers), handlers, multiset{})
    decreases DueCount(s.pending, s.totalTicks)
  {
    hide Good, Polite, DueCount, Checked, Accounted;
    CheckedGood(s, false, handlers);
    CheckedAccount(s, false, handlers);
    var r := Checked(s, false, handlers);
    if r.1 {
      DrainedAccount(r.0, handlers);
      NothingTwice(s, r.0, Drained(s, handlers), handlers);
    }
  }

  lemma TickedAccount(s: State, handlers: nat -> Effect)
    requires Good(s) && Polite(handlers)
    ensures Accounted(s, Ticked(s, handlers), handlers, multiset{})
  {
    hide Polite, Drained, Accounted, Sorted, AllFrom, InOrder;
    var later := Later(s).(level := IntOff);
    SameAccount(s, later, handlers);
    DrainedAccount(later, handlers);
    NothingTwice(s, later, Drained(later, handlers), handlers);
    SameAccount(Drained(later, handlers), Ticked(s, handlers), handlers);
    NothingTwice(s, Drained(later, handlers), Ticked(s, handlers), handlers);
  }

  lemma LeveledAccount(s: State, now: Level, handlers: nat -> Effect)
    requires Good(s) && Polite(handlers)
    ensures Accounted(s, Leveled(s, now, handlers), handlers, multiset{})
  {
    hide Polite, Ticked, Accounted, Sorted, AllFrom, InOrder;
    SameAccount(s, s.(level := now), handlers);
    if now == IntOn && s.level == IntOff {
      TickedAccount(s.(level := now), handlers);
      NothingTwice(s, s.(level := now), Leveled(s, now, handlers), handlers);
    }
  }

  lemma IdledAccount(s: State, handlers: nat -> Effect)
    requires Good(s) && Polite(handlers)
    ensures Accounted(s, Idled(s, handlers).0, handlers, multiset{})
  {
    hide Polite, Drained, Checked, Accounted, Sorted, AllFrom, InOrder;
    var idle, r := s.(status := IdleMode), Checked(s.(status := IdleMode), true, handlers);
    CheckedGood(idle, true, handlers);
    SameAccount(s, idle, handlers);
    CheckedAccount(idle, true, handlers);
    NothingTwice(s, idle, r.0, handlers);
    if r.1 {
      DrainedAccount(r.0, handlers);
      NothingTwice(s, r.0, Drained(r.0, handlers), handlers);
      SameAccount(Drained(r.0, handlers), Idled(s, handlers).0, handlers);
      NothingTwice(s, Drained(r.0, handlers), Idled(s, handlers).0, handlers);
    }
  }

  /** What a command asks for. */
  ghost function AskedBy(s: State, c: Command): multiset<Keyed<Request>> {
    if c.Device? then multiset{Keyed(s.totalTicks + c.fromNow, c.request)} else multiset{}
  }

  lemma DoneAccount(s: State, c: Command, handlers: nat -> Effect)
    requires Good(s) && Polite(handlers) && Legal(c)
    ensures Accounted(s, Done(s, c, handlers).0, handlers, AskedBy(s, c))
  {
    hide Polite, Ticked, Leveled, Idled, Planned, Accounted, Sorted, AllFrom, InOrder;
    match c {
      case Enable => LeveledAccount(s, IntOn, handlers);
      case Disable => LeveledAccount(s, IntOff, handlers);
      case Instruction =>
        var user := s.(status := UserMode);
        SameAccount(s, user, handlers);
        TickedAccount(user, handlers);
        NothingTwice(s, user, Ticked(user, handlers), handlers);
        SameAccount(Ticked(user, handlers), Done(s, c, handlers).0, handlers);
        NothingTwice(s, Ticked(user, handlers), Done(s, c, handlers).0, handlers);
      case Device(request, fromNow) => PlannedAccount(s, request, fromNow, handlers);
      case Sleep =>
        LeveledAccount(s, IntOff, handlers);
        IdledAccount(Leveled(s, IntOff, handlers), handlers);
        NothingTwice(s, Leveled(s, IntOff, handlers), Done(s, c, handlers).0, handlers);
    }
  }

  /** What the commands of a run ask for, each at the clock at which it is given. */
  ghost function AskedByCommands(s: State, commands: seq<Command>, handlers: nat -> Effect): multiset<Keyed<Request>>
    requires Good(s) && Polite(handlers) && forall k :: 0 <= k < |commands| ==> Legal(commands[k])
    decreases |commands|
  {
    if commands == [] then multiset{}
    else
      var r := Done(s, commands[0], handlers);
      AskedBy(s, commands[0]) + if r.1 then multiset{} else AskedByCommands(r.0, commands[1..], handlers)
  }

  /** Over every run what has occurred and what is pending is exactly one interrupt for every call of Schedule, by a
      device or by a handler, due as long after the clock of the call as was asked for. */
  lemma {:induction false} NoRequestIsLost(start: State, commands: seq<Command>, handlers: nat -> Effect)
    requires Good(start)
    requires Polite(handlers) && forall k :: 0 <= k < |commands| ==> Legal(commands[k])
    ensures Accounted(start, After(start, commands, handlers).0, handlers, AskedByCommands(start, commands, handlers))
    decreases |commands|
  {
    hide Good, Polite, Done, Accounted;
    if commands == [] {
      SameAccount(start, start, handlers);
    } else {
      var r := Done(start, commands[0], handlers);
      var asked := AskedBy(start, commands[0]);
      DoneAccount(start, commands[0], handlers);
      if r.1 {
        assert asked + multiset{} == asked;
      } else {
        NoRequestIsLost(r.0, commands[1..], handlers);
        var last := After(start, commands, handlers).0;
        AccountedTwice(start, r.0, last, handlers, asked, AskedByCommands(r.0, commands[1..], handlers));
      }
    }
  }

  /** Enabling interrupts that were off takes one tick of the mode, after which nothing is due. Nothing else that
      SetLevel does lets time pass. */
  lemma LevelTicks(s: State, now: Level, handlers: nat -> Effect)
    requires Good(s) && Polite(handlers) && s.status != IdleMode
    ensures var r := Leveled(s, now, handlers);
      if now == IntOn && s.level == IntOff
      then
        && r.totalTicks == s.totalTicks + (if s.status == SystemMode then 10 else 1)
        && AllFrom(r.pending, r.totalTicks + 1)
      else r == s.(level := now)
  {
    hide Polite, Ticked, Sorted, AllFrom, InOrder;
    TickedNothingDue(s.(level := now), handlers);
  }

  /** Idle moves the clock up to the first pending interrupt and no further, and counts that as idle time. */
  lemma IdleAdvances(s: State, handlers: nat -> Effect)
    requires Good(s) && Polite(handlers) && s.pending != []
    ensures var r := Idled(s, handlers).0;
      && r.totalTicks == (if s.pending[0].key > s.totalTicks then s.pending[0].key else s.totalTicks)
      && r.idleTicks - s.idleTicks == r.totalTicks - s.totalTicks
      && r.systemTicks == s.systemTicks && r.userTicks == s.userTicks
  {
    hide Polite, Drained, Sorted, AllFrom, InOrder, Inserted, Scheduled;
    var r := Checked(s.(status := IdleMode), true, handlers);
    CheckedGood(s.(status := IdleMode), true, handlers);
    if r.1 { DrainedTicks(r.0, handlers); }
  }

  lemma {:induction false} DrainedTicks(s: State, handlers: nat -> Effect)
    requires Good(s) && Polite(handlers)
    ensures var r := Drained(s, handlers);
      r.idleTicks == s.idleTicks && r.systemTicks == s.systemTicks && r.userTicks == s.userTicks
    decreases DueCount(s.pending, s.totalTicks)
  {
    CheckedGood(s, false, handlers);
    hide Good, Polite, DueCount, Inserted, Scheduled;
    var r := Checked(s, false, handlers);
    if r.1 { DrainedTicks(r.0, handlers); }
  }

  // ---------------------------------------------------------------------------
  // How time passes

  /** Between commands the machine runs kernel code, and no context switch is asked for. */
  predicate Steady(s: State) {
    s.status == SystemMode && !s.yieldOnReturn
  }

  /** What a command counts as user time and as system time: one tick for an instruction, ten for enabling interrupts
      that were off. */
  function UserTime(c: Command): nat {
    if c.Instruction? then 1 else 0
  }

  function SystemTime(s: State, c: Command): nat {
    if c.Enable? && s.level == IntOff then 10 else 0
  }

  lemma TickCounts(s: State, handlers: nat -> Effect)
    requires Good(s) && Polite(handlers)
    ensures var r := Ticked(s, handlers);
      && r.idleTicks == s.idleTicks && !r.yieldOnReturn
      && r.systemTicks == s.systemTicks + (if s.status == SystemMode then 10 else 0)
      && r.userTicks == s.userTicks + (if s.status == SystemMode then 0 else 1)
  {
    hide Polite, Drained, Sorted, AllFrom, InOrder;
    DrainedTicks(Later(s).(level := IntOff), handlers);
  }

  lemma IdleCounts(s: State, handlers: nat -> Effect)
    requires Good(s) && Polite(handlers)
    ensures var r := Idled(s, handlers);
      && r.0.systemTicks == s.systemTicks && r.0.userTicks == s.userTicks
      && (r.0.yieldOnReturn ==> s.yieldOnReturn && r.1)
      && (!r.1 ==> r.0.handled > s.handled)
  {
    hide Polite, Drained, Sorted, AllFrom, InOrder, Inserted, Scheduled;
    var idle := s.(status := IdleMode);
    var r := Checked(idle, true, handlers);
    CheckedGood(idle, true, handlers);
    if r.1 {
      DrainedTicks(r.0, handlers);
      DrainedAsks(r.0, handlers);
    }
  }

  /** What a command does to the clock. Sleeping either halts the machine or runs a handler. */
  lemma CommandTakes(s: State, c: Command, handlers: nat -> Effect)
    requires Good(s) && Polite(handlers) && Legal(c) && Steady(s)
    ensures var r := Done(s, c, handlers);
      && r.0.userTicks == s.userTicks + UserTime(c)
      && r.0.systemTicks == s.systemTicks + SystemTime(s, c)
      && (!c.Sleep? ==> r.0.idleTicks == s.idleTicks)
      && (r.1 ==> c.Sleep?)
      && (if r.1 then !r.0.yieldOnReturn else Steady(r.0))
      && (c.Sleep? && !r.1 ==> r.0.handled > s.handled)
  {
    hide Polite, Ticked, Idled, Sorted, AllFrom, InOrder, Inserted, Drained;
    match c {
      case Enable => TickCounts(s.(level := IntOn), handlers);
      case Disable =>
      case Instruction => TickCounts(s.(status := UserMode), handlers);
      case Device(_, _) =>
      case Sleep => IdleCounts(Leveled(s, IntOff, handlers), handlers);
    }
  }

  function UserTimes(s: State, commands: seq<Command>, handlers: nat -> Effect): nat
    requires Good(s) && Polite(handlers) && forall k :: 0 <= k < |commands| ==> Legal(commands[k])
    decreases |commands|
  {
    if commands == [] then 0
    else
      var r := Done(s, commands[0], handlers);
      UserTime(commands[0]) + if r.1 then 0 else UserTimes(r.0, commands[1..], handlers)
  }

  function SystemTimes(s: State, commands: seq<Command>, handlers: nat -> Effect): nat
    requires Good(s) && Polite(handlers) && forall k :: 0 <= k < |commands| ==> Legal(commands[k])
    decreases |commands|
  {
    if commands == [] then 0
    else
      var r := Done(s, commands[0], handlers);
      SystemTime(s, commands[0]) + if r.1 then 0 else SystemTimes(r.0, commands[1..], handlers)
  }

  /** Over every run user time is one tick for every instruction, system time ten for every time that interrupts were
      enabled, and the rest of the clock is idle time. A context switch that a handler asked for is never left over:
      it happens in the tick in which the handler ran, or not at all. */
  lemma {:induction false} ClockCounts(start: State, commands: seq<Command>, handlers: nat -> Effect)
    requires Good(start) && Steady(start)
    requires Polite(handlers) && forall k :: 0 <= k < |commands| ==> Legal(commands[k])
    ensures var s := After(start, commands, handlers).0;
      && s.userTicks == start.userTicks + UserTimes(start, commands, handlers)
      && s.systemTicks == start.systemTicks + SystemTimes(start, commands, handlers)
      && s.totalTicks == s.idleTicks + s.systemTicks + s.userTicks
      && !s.yieldOnReturn
    decreases |commands|
  {
    assert forall s :: Good(s) ==> s.totalTicks == s.idleTicks + s.systemTicks + s.userTicks;
    hide Good, Polite, Done, UserTime, SystemTime;
    if commands != [] {
      var r := Done(start, commands[0], handlers);
      CommandTakes(start, commands[0], handlers);
      if !r.1 { ClockCounts(r.0, commands[1..], handlers); }
    }
  }

  // ---------------------------------------------------------------------------

  class Interrupt {
    var level: Level
    var pending: Pending
    var inHandler: bool
    var yieldOnReturn: bool
    var status: Status
    var totalTicks: int
    var idleTicks: int
    var systemTicks: int
    var userTicks: int
    var handled: nat
    ghost var fired: seq<Firing>

    ghost function View(): State
      reads this
    {
      State(level, pending, status, yieldOnReturn, totalTicks, idleTicks, systemTicks, userTicks, handled, fired)
    }

    ghost predicate Valid()
      reads this
    {
      Good(View()) && !inHandler
    }

    constructor ()
      ensures Valid() && View() == POWER_ON
    {
      hide Good;
      PowerOnGood();
      level, pending, inHandler, yieldOnReturn, status := IntOff, [], false, false, SystemMode;
      totalTicks, idleTicks, systemTicks, userTicks := 0, 0, 0, 0;
      handled, fired := 0, [];
    }

    method Schedule(request: Request, fromNow: int)
      requires Valid() && fromNow > 0
      modifies this`pending
      ensures Valid() && View() == Planned(old(View()), request, fromNow)
      ensures multiset(pending) == multiset(old(pending)) + multiset{Keyed(totalTicks + fromNow, request)}
    {
      InsertedElements(pending, Keyed(totalTicks + fromNow, request));
      hide Good, Inserted, Sorted, AllFrom, InOrder;
      PlannedGood(View(), request, fromNow);
      pending := Inserted(pending, Keyed(totalTicks + fromNow, request));
    }

    /** Fires the first pending interrupt if it is due, or made due by advancing the clock. */
    method CheckIfDue(advanceClock: bool, handlers: nat -> Effect) returns (did: bool)
      requires Valid() && level == IntOff && Polite(handlers)
      modifies this
      ensures Valid() && (View(), did) == Checked(old(View()), advanceClock, handlers)
    {
      hide Good, Polite, Inserted, Scheduled, Sorted, AllFrom, InOrder;
      CheckedGood(View(), advanceClock, handlers);
      if pending == [] {
        return false;
      }
      var when, toOccur := pending[0].key, pending[0].item;
      pending := pending[1..];
      if advanceClock && when > totalTicks {
        idleTicks := idleTicks + (when - totalTicks);
        totalTicks := when;
      } else if when > totalTicks {
        pending := Inserted(pending, Keyed(when, toOccur));
        return false;
      }
      if status == IdleMode && toOccur.timer && pending == [] {
        pending := Inserted(pending, Keyed(when, toOccur));
        return false;
      }
      Fire(when, toOccur, handlers);
      return true;
    }

    /** Runs the handler of an interrupt that has been taken off the list. */
    method Fire(ghost when: int, ghost request: Request, handlers: nat -> Effect)
      requires !inHandler
      modifies this
      ensures !inHandler
      ensures var s, effect := old(View()), handlers(old(handled));
        View() == s.(pending := Scheduled(s.pending, effect.calls, s.totalTicks),
                     yieldOnReturn := s.yieldOnReturn || effect.wantsYield,
                     handled := s.handled + 1, 
                     fired := s.fired + [Firing(when, s.totalTicks, request)])
    {
      hide Scheduled;
      var oldStatus := status;
      inHandler := true;
      status := SystemMode;
      RunHandler(handlers(handled));
      handled := handled + 1;
      fired := fired + [Firing(when, totalTicks, request)];
      status := oldStatus;
      inHandler := false;
    }

    /** The handler's calls of Schedule, one after the other, and of YieldOnReturn. */
    method RunHandler(effect: Effect)
      requires inHandler
      modifies this`pending, this`yieldOnReturn
      ensures pending == Scheduled(old(pending), effect.calls, totalTicks)
      ensures yieldOnReturn == (old(yieldOnReturn) || effect.wantsYield)
    {
      hide Inserted;
      for i := 0 to |effect.calls|
        invariant yieldOnReturn == old(yieldOnReturn)
        invariant Scheduled(pending, effect.calls[i..], totalTicks) == Scheduled(old(pending), effect.calls, totalTicks)
      {
        pending := Inserted(pending, Keyed(totalTicks + effect.calls[i].fromNow, effect.calls[i].request));
      }
      if effect.wantsYield {
        yieldOnReturn := true;
      }
    }

    /** The loop around CheckIfDue. */
    method Drain(handlers: nat -> Effect)
      requires Valid() && level == IntOff && Polite(handlers)
      modifies this
      ensures Valid() && View() == Drained(old(View()), handlers)
    {
      hide Good, Polite, Checked, DueCount;
      ghost var start := View();
      CheckedGood(start, false, handlers);
      var did := CheckIfDue(false, handlers);
      while did
        invariant Valid() && level == IntOff
        invariant Drained(start, handlers) == if did then Drained(View(), handlers) else View()
        decreases if did then 1 else 0, DueCount(pending, totalTicks)
      {
        CheckedGood(View(), false, handlers);
        did := CheckIfDue(false, handlers);
      }
    }

    /** The result says whether the current thread is to yield. */
    method OneTick(handlers: nat -> Effect) returns (yield': bool)
      requires Valid() && Polite(handlers)
      modifies this
      ensures Valid() && View() == Ticked(old(View()), handlers)
      ensures yield' == Yields(old(View()), handlers)
    {
      hide Sorted, AllFrom, InOrder, Polite, Drained, Good;
      LevelGood(Later(View()), IntOff);
      ghost var later := Later(View()).(level := IntOff);
      if status == SystemMode {
        totalTicks := totalTicks + SYSTEM_TICK;
        systemTicks := systemTicks + SYSTEM_TICK;
      } else {
        totalTicks := totalTicks + USER_TICK;
        userTicks := userTicks + USER_TICK;
      }
      level := IntOff;
      assert View() == later;
      Drain(handlers);
      LevelGood(View(), IntOn);
      level := IntOn;
      yield' := yieldOnReturn;
      yieldOnReturn := false;
    }

    /** The result is true where the machine halts. */
    method Idle(handlers: nat -> Effect) returns (halted: bool)
      requires Valid() && level == IntOff && Polite(handlers)
      modifies this
      ensures Valid() && (View(), halted) == Idled(old(View()), handlers)
    {
      hide Sorted, AllFrom, InOrder, Polite, Drained, Checked;
      CheckedGood(View().(status := IdleMode), true, handlers);
      status := IdleMode;
      var did := CheckIfDue(true, handlers);
      if did {
        Drain(handlers);
        yieldOnReturn := false;
        status := SystemMode;
        return false;
      }
      return true;
    }

    /** Enabling interrupts that were off lets time pass. */
    method SetLevel(now: Level, handlers: nat -> Effect) returns (previous: Level)
      requires Valid() && Polite(handlers)
      modifies this
      ensures Valid() && View() == Leveled(old(View()), now, handlers) && previous == old(level)
    {
      hide Sorted, AllFrom, InOrder, Polite, Ticked;
      previous := level;
      level := now;
      if now == IntOn && previous == IntOff {
        var _ := OneTick(handlers);
      }
    }
  }

  method Execute(m: Interrupt, c: Command, handlers: nat -> Effect) returns (halted: bool)
    requires m.Valid() && Polite(handlers) && Legal(c)
    modifies m
    ensures m.Valid() && (m.View(), halted) == Done(old(m.View()), c, handlers)
  {
    hide Sorted, AllFrom, InOrder, Polite, Ticked, Leveled, Idled, Planned;
    halted := false;
    match c {
      case Enable => var _ := m.SetLevel(IntOn, handlers);
      case Disable => var _ := m.SetLevel(IntOff, handlers);
      case Instruction =>
        m.status := UserMode;
        var _ := m.OneTick(handlers);
        m.status := SystemMode;
      case Device(request, fromNow) => m.Schedule(request, fromNow);
      case Sleep =>
        var _ := m.SetLevel(IntOff, handlers);
        halted := m.Idle(handlers);
    }
  }

  /** The device runs any sequence of commands as After says, from power-on to the end or a halt. */
  method Run(commands: seq<Command>, handlers: nat -> Effect) returns (m: Interrupt, halted: bool)
    requires Polite(handlers) && forall k :: 0 <= k < |commands| ==> Legal(commands[k])
    ensures m.Valid() && Good(POWER_ON)
    ensures (m.View(), halted) == After(POWER_ON, commands, handlers)
  {
    hide Good, Polite, Done;
    PowerOnGood();
    m := new Interrupt();
    halted := false;
    var i := 0;
    while i < |commands| && !halted
      invariant 0 <= i <= |commands| && fresh(m) && m.Valid() && Good(POWER_ON)
      invariant After(POWER_ON, commands, handlers) ==
        if halted then (m.View(), true) else After(m.View(), commands[i..], handlers)
    {
      halted := Execute(m, commands[i], handlers);
      i := i + 1;
    }
  }
}
