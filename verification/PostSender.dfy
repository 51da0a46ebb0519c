/** PostOffice::Send: any number of threads on each machine send through one network, one packet at a time. Behind the
    lock each waits for the interrupt of its own packet, as a caller of SynchDisk does for its request, so that the
    protocol is DeviceProtocol; here it is joined to the packets and to the rest of the post office. */
module PostSenders {
  import opened Collections
  import opened Semaphores
  import opened PostOffices
  import Device = DeviceProtocol

  /** letters[t] is the packet that thread t is sending. The source asserts that its flag sendBusy is down but never
      raises it; state.active is up from network->Send to the interrupt, when the flag should be. */
  datatype Sender = Sender(state: Device.State, letters: map<Thread, Packet>)

  datatype Net = Net(world: World, senders: map<nat, Sender>)

  datatype NetEvent =
    | CallSend(n: nat, t: Thread, packet: Packet)    // enter PostOffice::Send on machine n
    | GoOn(n: nat, t: Thread, lost: bool)            // the next stretch of t inside it
    | SendDone(n: nat)                               // the interrupt
    | Rest(e: Event)                                 // polling, the worker, and Receive

  /** Thread t of machine n has the lock and is about to call network->Send. */
  predicate AtSend(net: Net, n: nat, t: Thread) {
    n in net.senders && Device.At(net.senders[n].state.pcs, t).Holding? && t in net.senders[n].letters
  }

  predicate CanGo(net: Net, e: NetEvent, numBoxes: nat) {
    match e
    case CallSend(n, t, p) =>
      && n in net.senders && Device.Enabled(net.senders[n].state, Device.Call(t))
      && p.box < numBoxes && p.to in net.world.nodes
    case GoOn(n, t, _) => n in net.senders && Device.Enabled(net.senders[n].state, Device.Go(t))
    case SendDone(n) => n in net.senders && Device.Enabled(net.senders[n].state, Device.Completion)
    case Rest(e) => !e.Send? && Enabled(net.world, e, numBoxes)
  }

  /** What the event is for the world of packets. */
  function Seen(net: Net, e: NetEvent): seq<Event> {
    match e
    case GoOn(n, t, lost) => if AtSend(net, n, t) then [Send(net.senders[n].letters[t], lost)] else []
    case Rest(e) => [e]
    case CallSend(_, _, _) => []
    case SendDone(_) => []
  }

  predicate MayMove(x: Sender, e: NetEvent) {
    match e
    case CallSend(_, t, _) => Device.Enabled(x.state, Device.Call(t))
    case GoOn(_, t, _) => Device.Enabled(x.state, Device.Go(t))
    case SendDone(_) => Device.Enabled(x.state, Device.Completion)
    case Rest(_) => true
  }

  /** How the event moves the sender it concerns. PostOffice::Send fills in the sender's address. */
  function Moved(x: Sender, e: NetEvent): Sender
    requires MayMove(x, e)
  {
    match e
    case CallSend(n, t, p) => Sender(Device.Step(x.state, Device.Call(t)), x.letters[t := p.(from := n)])
    case GoOn(_, t, _) => x.(state := Device.Step(x.state, Device.Go(t)))
    case SendDone(_) => x.(state := Device.Step(x.state, Device.Completion))
    case Rest(_) => x
  }

  // ---------------------------------------------------------------------------
  // The invariant

  /** The packet of a thread past network->Send is the one with its number among those the machine has sent. */
  ghost predicate LetterOk(x: Sender, t: Thread, n: nat, sent: seq<Packet>, numBoxes: nat, machines: set<nat>) {
    var pc := Device.At(x.state.pcs, t);
    && (!pc.Outside? ==>
          t in x.letters && x.letters[t].from == n && x.letters[t].box < numBoxes && x.letters[t].to in machines)
    && (pc.Requested? || pc.Sleeping? || pc.Completed? ==> pc.k < |sent| && sent[pc.k] == x.letters[t])
  }

  ghost predicate SenderOk(x: Sender, n: nat, sent: seq<Packet>, numBoxes: nat, machines: set<nat>) {
    && Device.Inv(x.state)
    && |sent| == x.state.issued
    && forall t :: LetterOk(x, t, n, sent, numBoxes, machines)
  }

  ghost predicate NetInv(net: Net, numBoxes: nat) {
    && Inv(net.world, numBoxes)
    && net.senders.Keys == net.world.nodes.Keys
    && forall n :: n in net.senders ==>
         SenderOk(net.senders[n], n, SentBy(net.world.log, n), numBoxes, net.world.nodes.Keys)
  }

  lemma SentBySnoc(log: seq<Sent>, s: Sent, a: nat)
    ensures SentBy(log + [s], a) == SentBy(log, a) + if s.packet.from == a then [s.packet] else []
  {
    assert (log + [s])[..|log|] == log;
  }

  /** A step that sends nothing. */
  lemma MovedKeeps(x: Sender, e: NetEvent, n: nat, sent: seq<Packet>, numBoxes: nat, machines: set<nat>)
    requires SenderOk(x, n, sent, numBoxes, machines)
    requires MayMove(x, e)
    requires e.CallSend? ==> e.n == n && e.packet.box < numBoxes && e.packet.to in machines
    requires e.GoOn? ==> !Device.At(x.state.pcs, e.t).Holding?
    ensures SenderOk(Moved(x, e), n, sent, numBoxes, machines)
  {
    hide Device.Inv;
    match e
    case CallSend(_, t, p) =>
      Device.StepKeeps(x.state, Device.Call(t));
      forall u ensures LetterOk(Moved(x, e), u, n, sent, numBoxes, machines) {
        assert LetterOk(x, u, n, sent, numBoxes, machines);
      }
    case GoOn(_, t, _) =>
      Device.StepKeeps(x.state, Device.Go(t));
      forall u ensures LetterOk(Moved(x, e), u, n, sent, numBoxes, machines) {
        assert LetterOk(x, u, n, sent, numBoxes, machines);
      }
    case SendDone(_) =>
      Device.StepKeeps(x.state, Device.Completion);
      forall u ensures LetterOk(Moved(x, e), u, n, sent, numBoxes, machines) {
        assert LetterOk(x, u, n, sent, numBoxes, machines);
      }
    case Rest(_) =>
  }

  /** The step at which the packet leaves: the network is free, and the packet gets the next number. */
  lemma SentKeeps(x: Sender, t: Thread, lost: bool, n: nat, sent: seq<Packet>, numBoxes: nat, machines: set<nat>)
    requires SenderOk(x, n, sent, numBoxes, machines) && Device.At(x.state.pcs, t).Holding?
    ensures !x.state.active && t in x.letters && x.letters[t].from == n
    ensures x.letters[t].box < numBoxes && x.letters[t].to in machines
    ensures Device.Enabled(x.state, Device.Go(t))
    ensures SenderOk(Moved(x, GoOn(n, t, lost)), n, sent + [x.letters[t]], numBoxes, machines)
  {
    hide Device.Inv;
    Device.StepKeeps(x.state, Device.Go(t));
    assert LetterOk(x, t, n, sent, numBoxes, machines);
    var x' := Moved(x, GoOn(n, t, lost));
    forall u ensures LetterOk(x', u, n, sent + [x.letters[t]], numBoxes, machines) {
      assert LetterOk(x, u, n, sent, numBoxes, machines);
    }
  }

  // ---------------------------------------------------------------------------
  // Steps and runs

  /** One sender moves and the packets stay where they are. */
  ghost function Replaced(net: Net, n: nat, x: Sender, numBoxes: nat): (r: Net)
    requires NetInv(net, numBoxes) && n in net.senders
    requires SenderOk(x, n, SentBy(net.world.log, n), numBoxes, net.world.nodes.Keys)
    ensures NetInv(r, numBoxes) && r.world == net.world && r.senders == net.senders[n := x]
    ensures CanHappen(net.world, [], numBoxes) && After(net.world, [], numBoxes) == net.world
  {
    hide Inv, SenderOk, SentBy;
    net.(senders := net.senders[n := x])
  }

  /** Everything but Send leaves the log and the set of machines alone. */
  lemma StepOfRest(w: World, e: Event, numBoxes: nat)
    requires Inv(w, numBoxes) && Enabled(w, e, numBoxes) && !e.Send?
    ensures Step(w, e, numBoxes).log == w.log && Step(w, e, numBoxes).nodes.Keys == w.nodes.Keys
    ensures CanHappen(w, [e], numBoxes) && After(w, [e], numBoxes) == Step(w, e, numBoxes)
  {
    hide Inv, Polled, Worked, Took;
    assert [e][1..] == [];
  }

  lemma StepOfSend(w: World, p: Packet, lost: bool, numBoxes: nat)
    requires Inv(w, numBoxes) && Enabled(w, Send(p, lost), numBoxes)
    ensures Step(w, Send(p, lost), numBoxes).log == w.log + [Sent(p, lost)]
    ensures Step(w, Send(p, lost), numBoxes).nodes.Keys == w.nodes.Keys
    ensures CanHappen(w, [Send(p, lost)], numBoxes)
    ensures After(w, [Send(p, lost)], numBoxes) == Step(w, Send(p, lost), numBoxes)
  {
    hide Inv;
    assert [Send(p, lost)][1..] == [];
  }

  ghost function GoneOn(net: Net, n: nat, t: Thread, lost: bool, numBoxes: nat): (r: Net)
    requires NetInv(net, numBoxes) && CanGo(net, GoOn(n, t, lost), numBoxes)
    ensures NetInv(r, numBoxes)
    ensures r.senders == net.senders[n := Moved(net.senders[n], GoOn(n, t, lost))]
    ensures CanHappen(net.world, Seen(net, GoOn(n, t, lost)), numBoxes)
    ensures r.world == After(net.world, Seen(net, GoOn(n, t, lost)), numBoxes)
  {
    hide Inv, SenderOk, Moved, Step, Device.Enabled, SentBy, After, CanHappen;
    var x, e := net.senders[n], GoOn(n, t, lost);
    var sent, machines := SentBy(net.world.log, n), net.world.nodes.Keys;
    if Device.At(x.state.pcs, t).Holding? then
      SentKeeps(x, t, lost, n, sent, numBoxes, machines);
      StepOfSend(net.world, x.letters[t], lost, numBoxes);
      SentKeepsNet(net, n, t, lost, numBoxes);
      Net(Step(net.world, Send(x.letters[t], lost), numBoxes), net.senders[n := Moved(x, e)])
    else
      MovedKeeps(x, e, n, sent, numBoxes, machines);
      Replaced(net, n, Moved(x, e), numBoxes)
  }

  lemma SentKeepsNet(net: Net, n: nat, t: Thread, lost: bool, numBoxes: nat)
    requires NetInv(net, numBoxes) && CanGo(net, GoOn(n, t, lost), numBoxes) && AtSend(net, n, t)
    requires Enabled(net.world, Send(net.senders[n].letters[t], lost), numBoxes)
    ensures
      var w := Step(net.world, Send(net.senders[n].letters[t], lost), numBoxes);
      NetInv(Net(w, net.senders[n := Moved(net.senders[n], GoOn(n, t, lost))]), numBoxes)
  {
    hide Inv, SenderOk, LetterOk, Moved, Step, Device.Enabled, SentBy;
    var x, p := net.senders[n], net.senders[n].letters[t];
    var machines := net.world.nodes.Keys;
    SentKeeps(x, t, lost, n, SentBy(net.world.log, n), numBoxes, machines);
    StepOfSend(net.world, p, lost, numBoxes);
    var net' := Net(Step(net.world, Send(p, lost), numBoxes), net.senders[n := Moved(x, GoOn(n, t, lost))]);
    forall m | m in net'.senders
      ensures SenderOk(net'.senders[m], m, SentBy(net'.world.log, m), numBoxes, machines)
    {
      SentBySnoc(net.world.log, Sent(p, lost), m);
      if m != n { assert SentBy(net.world.log, m) + [] == SentBy(net.world.log, m); }
    }
  }

  ghost function NetStep(net: Net, e: NetEvent, numBoxes: nat): (r: Net)
    requires NetInv(net, numBoxes) && CanGo(net, e, numBoxes)
    ensures NetInv(r, numBoxes)
    ensures CanHappen(net.world, Seen(net, e), numBoxes) && r.world == After(net.world, Seen(net, e), numBoxes)
  {
    hide Inv, SenderOk, Moved, Step, Device.Enabled, SentBy;
    match e
    case CallSend(n, t, p) =>
      MovedKeeps(net.senders[n], e, n, SentBy(net.world.log, n), numBoxes, net.world.nodes.Keys);
      Replaced(net, n, Moved(net.senders[n], e), numBoxes)
    case SendDone(n) =>
      MovedKeeps(net.senders[n], e, n, SentBy(net.world.log, n), numBoxes, net.world.nodes.Keys);
      Replaced(net, n, Moved(net.senders[n], e), numBoxes)
    case GoOn(n, t, lost) => GoneOn(net, n, t, lost, numBoxes)
    case Rest(e) =>
      StepOfRest(net.world, e, numBoxes);
      net.(world := Step(net.world, e, numBoxes))
  }

  ghost predicate NetRuns(net: Net, es: seq<NetEvent>, numBoxes: nat)
    requires NetInv(net, numBoxes)
    decreases es
  {
    es == [] || (CanGo(net, es[0], numBoxes) && NetRuns(NetStep(net, es[0], numBoxes), es[1..], numBoxes))
  }

  ghost function NetAfter(net: Net, es: seq<NetEvent>, numBoxes: nat): (r: Net)
    requires NetInv(net, numBoxes) && NetRuns(net, es, numBoxes)
    ensures NetInv(r, numBoxes)
    decreases es
  {
    if es == [] then net else NetAfter(NetStep(net, es[0], numBoxes), es[1..], numBoxes)
  }

  /** The run as the world of packets sees it. */
  ghost function AllSeen(net: Net, es: seq<NetEvent>, numBoxes: nat): seq<Event>
    requires NetInv(net, numBoxes) && NetRuns(net, es, numBoxes)
    decreases es
  {
    if es == [] then []
    else Seen(net, es[0]) + AllSeen(NetStep(net, es[0], numBoxes), es[1..], numBoxes)
  }

  /** Every run with the sending protocol is, for the packets, a run in which they are just sent. */
  lemma {:induction false} NetRefines(net: Net, es: seq<NetEvent>, numBoxes: nat)
    requires NetInv(net, numBoxes) && NetRuns(net, es, numBoxes)
    ensures CanHappen(net.world, AllSeen(net, es, numBoxes), numBoxes)
    ensures NetAfter(net, es, numBoxes).world == After(net.world, AllSeen(net, es, numBoxes), numBoxes)
    decreases es
  {
    hide NetStep, Seen, CanGo, Inv, SenderOk;
    if es != [] {
      var next := NetStep(net, es[0], numBoxes);
      NetRefines(next, es[1..], numBoxes);
      OneThenOther(net.world, Seen(net, es[0]), AllSeen(next, es[1..], numBoxes), numBoxes);
    }
  }

  ghost function NewNet(machines: set<nat>, numBoxes: nat): (net: Net)
    ensures NetInv(net, numBoxes)
    ensures net.world == NewWorld(machines, numBoxes)
  {
    Device.IdleInv();
    Net(NewWorld(machines, numBoxes), map n | n in machines :: Sender(Device.IDLE, map[]))
  }

  lemma SenderFacts(x: Sender, t: Thread, n: nat, sent: seq<Packet>, numBoxes: nat, machines: set<nat>)
    requires SenderOk(x, n, sent, numBoxes, machines)
    ensures
      var pc := Device.At(x.state.pcs, t);
      && |sent| == x.state.issued
      && (pc.Holding? ==> !x.state.active && t in x.letters && x.letters[t].from == n)
      && (pc.Completed? ==> pc.k < x.state.done <= x.state.issued && t in x.letters)
      && (pc.Completed? ==> sent[pc.k] == x.letters[t])
      && (x.state.lock.holder == {} ==> !x.state.active && x.state.done == |sent|)
  {
    assert LetterOk(x, t, n, sent, numBoxes, machines);
    if Device.At(x.state.pcs, t).Holding? {
      Device.StepKeeps(x.state, Device.Go(t));
    }
    assert Device.Linked(x.state, t);
    if x.state.lock.holder == {} {
      forall u ensures !Device.InFlight(Device.At(x.state.pcs, u)) { assert Device.Linked(x.state, u); }
    }
  }

  /** In every run, whatever the threads of each machine do and whenever the interrupts come: when a thread calls
      network->Send no other packet of its machine is under way, and the packet bears the machine's address; when its
      call of PostOffice::Send returns, its own packet has left and the interrupt for it has come; and while nobody is
      sending, every packet sent has had its interrupt. */
  lemma SendIsSynchronous(machines: set<nat>, es: seq<NetEvent>, numBoxes: nat, n: nat, t: Thread)
    requires NetRuns(NewNet(machines, numBoxes), es, numBoxes)
    ensures
      var net := NetAfter(NewNet(machines, numBoxes), es, numBoxes);
      n in net.senders ==>
        var x, pc := net.senders[n], Device.At(net.senders[n].state.pcs, t);
        && |SentBy(net.world.log, n)| == x.state.issued
        && (pc.Holding? ==> !x.state.active && t in x.letters && x.letters[t].from == n)
        && (pc.Completed? ==> pc.k < x.state.done <= x.state.issued && t in x.letters)
        && (pc.Completed? ==> SentBy(net.world.log, n)[pc.k] == x.letters[t])
        && (x.state.lock.holder == {} ==> !x.state.active && x.state.done == |SentBy(net.world.log, n)|)
  {
    var net := NetAfter(NewNet(machines, numBoxes), es, numBoxes);
    hide NetAfter, NetRuns, NewNet, Inv;
    if n in net.senders {
      SenderFacts(net.senders[n], t, n, SentBy(net.world.log, n), numBoxes, net.world.nodes.Keys);
    }
  }

  /** The packet of thread t of machine n: the one that it called Send with last, under the machine's address. */
  function Asked(es: seq<NetEvent>, n: nat, t: Thread, before: Option<Packet>): Option<Packet> {
    if es == [] then before
    else
      var e := es[0];
      var now :=
        if e.CallSend? && e.n == n && e.t == t then Some(Packet(n, e.packet.to, e.packet.box, e.packet.data))
        else before;
      Asked(es[1..], n, t, now)
  }

  function LetterOf(net: Net, n: nat, t: Thread): Option<Packet> {
    if n in net.senders && t in net.senders[n].letters then Some(net.senders[n].letters[t]) else None
  }

  lemma LetterStep(net: Net, e: NetEvent, numBoxes: nat, n: nat, t: Thread)
    requires NetInv(net, numBoxes) && CanGo(net, e, numBoxes) && n in net.senders
    ensures var r := NetStep(net, e, numBoxes);
      && n in r.senders
      && LetterOf(r, n, t) == Asked([e], n, t, LetterOf(net, n, t))
  {
    hide NetInv, Device.Step, Device.Enabled, Inv, Step, Seen;
    assert [e][1..] == [];
  }

  lemma {:induction false} LettersAreAsked(net: Net, es: seq<NetEvent>, numBoxes: nat, n: nat, t: Thread)
    requires NetInv(net, numBoxes) && NetRuns(net, es, numBoxes) && n in net.senders
    ensures LetterOf(NetAfter(net, es, numBoxes), n, t) == Asked(es, n, t, LetterOf(net, n, t))
    decreases es
  {
    hide NetStep, CanGo, NetInv, LetterOf;
    if es != [] {
      LetterStep(net, es[0], numBoxes, n, t);
      assert [es[0]][1..] == [];
      LettersAreAsked(NetStep(net, es[0], numBoxes), es[1..], numBoxes, n, t);
    }
  }

  /** In every run: when a call of PostOffice::Send returns, the packet that has left under its number is the one it was
      called with, bearing the machine's address. */
  lemma SentAsAsked(machines: set<nat>, es: seq<NetEvent>, numBoxes: nat, n: nat, t: Thread)
    requires NetRuns(NewNet(machines, numBoxes), es, numBoxes) && n in machines
    ensures var net := NetAfter(NewNet(machines, numBoxes), es, numBoxes);
      n in net.senders ==>
        var pc := Device.At(net.senders[n].state.pcs, t);
        pc.Completed? ==>
          pc.k < |SentBy(net.world.log, n)| && Asked(es, n, t, None) == Some(SentBy(net.world.log, n)[pc.k])
  {
    var start := NewNet(machines, numBoxes);
    assert n in start.senders && LetterOf(start, n, t) == None;
    hide NetAfter, NetRuns, NewNet, NetInv, Asked, SentBy;
    SendIsSynchronous(machines, es, numBoxes, n, t);
    LettersAreAsked(start, es, numBoxes, n, t);
  }

  /** What is taken from a mailbox came from each machine in the order in which its threads got through to the
      network. */
  lemma SendersInOrder(machines: set<nat>, es: seq<NetEvent>, numBoxes: nat, n: nat, b: nat, a: nat)
    requires NetRuns(NewNet(machines, numBoxes), es, numBoxes) && b < numBoxes
    ensures
      var w := NetAfter(NewNet(machines, numBoxes), es, numBoxes).world;
      n in w.nodes ==>
        && |w.nodes[n].taken| == numBoxes
        && IsPrefix(w.nodes[n].taken[b], Addressed(w.log, n, b))
        && Subsequence(From(w.nodes[n].taken[b], a), SentBy(w.log, a))
  {
    hide NetInv, NetAfter, NetRuns, NewNet, AllSeen, NewWorld, Inv, Subsequence, From, SentBy, IsPrefix, Addressed;
    NetRefines(NewNet(machines, numBoxes), es, numBoxes);
    var fs := AllSeen(NewNet(machines, numBoxes), es, numBoxes);
    Delivery(machines, fs, numBoxes, n, b);
    InOrderPerSender(machines, fs, numBoxes, n, b, a);
  }
}
