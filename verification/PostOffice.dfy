/** network/post.cc over machine/network.cc: machines that send packets over a network that may lose them, each with
    one receive slot, a postal worker and mailboxes. A mailbox is the first-in-first-out list that SynchList is. */
module PostOffices {
  import opened Collections
  import opened Semaphores

  datatype Packet = Packet(from: nat, to: nat, box: nat, data: seq<int>)

  /** A call of Network::Send, and whether the packet was dropped. */
  datatype Sent = Sent(packet: Packet, lost: bool)

  datatype Worker =
    | BeforeP                    // about to call messageAvailable->P
    | InP                        // in its loop
    | AfterP                     // about to call network->Receive
    | Carrying(packet: Packet)   // about to put it into a mailbox

  /** taken[b] are the packets that Receive(b) has handed out. */
  datatype Node = Node(
    socket: seq<Packet>, slot: Option<Packet>, available: Sema, worker: Worker,
    boxes: seq<seq<Packet>>, taken: seq<seq<Packet>>)

  datatype World = World(nodes: map<nat, Node>, log: seq<Sent>)

  const WORKER: Thread := 0

  // ---------------------------------------------------------------------------
  // Steps

  /** Network::Send: into the addressee's socket, or nowhere. */
  function Transmitted(w: World, p: Packet, lost: bool): World {
    var w' := w.(log := w.log + [Sent(p, lost)]);
    if lost || p.to !in w.nodes then w'
    else w'.(nodes := w.nodes[p.to := w.nodes[p.to].(socket := w.nodes[p.to].socket + [p])])
  }

  /** Network::CheckPktAvail with PostOffice::IncomingPacket: does nothing while a packet is buffered. */
  function Polled(x: Node): Node {
    if x.slot.Some? || x.socket == [] then x
    else x.(slot := Some(x.socket[0]), socket := x.socket[1..], available := V(x.available))
  }

  function Passed(x: Node): Node {
    x.(available := Attempt(x.available, WORKER), worker := if Passes(x.available) then AfterP else InP)
  }

  /** Network::Receive empties the slot. */
  function Received(x: Node): Node
    requires x.slot.Some?
  {
    x.(slot := None, worker := Carrying(x.slot.value))
  }

  function Delivered(x: Node): Node
    requires x.worker.Carrying? && x.worker.packet.box < |x.boxes|
  {
    var p := x.worker.packet;
    x.(boxes := x.boxes[p.box := x.boxes[p.box] + [p]], worker := BeforeP)
  }

  function Took(x: Node, b: nat): Node
    requires b < |x.boxes| && b < |x.taken| && x.boxes[b] != []
  {
    x.(boxes := x.boxes[b := x.boxes[b][1..]], taken := x.taken[b := x.taken[b] + [x.boxes[b][0]]])
  }

  datatype Event = Send(packet: Packet, lost: bool) | Poll(n: nat) | Work(n: nat) | Take(n: nat, b: nat)

  /** PostOffice::Send insists on a legal mailbox; Work is the next stretch of the worker of machine n. */
  predicate Enabled(w: World, e: Event, numBoxes: nat) {
    match e
    case Send(p, _) => p.box < numBoxes && p.to in w.nodes
    case Poll(n) => n in w.nodes
    case Work(n) => n in w.nodes && (w.nodes[n].worker.InP? ==> WORKER in w.nodes[n].available.woken)
    case Take(n, b) => n in w.nodes && b < |w.nodes[n].boxes| && b < |w.nodes[n].taken| && w.nodes[n].boxes[b] != []
  }

  /** What the worker relies on: a packet in the slot when it calls Receive, and a mailbox for it. */
  predicate WorkerSafe(x: Node) {
    && (x.worker.AfterP? ==> x.slot.Some?)
    && (x.worker.Carrying? ==> x.worker.packet.box < |x.boxes|)
  }

  function Worked(x: Node): Node
    requires WorkerSafe(x)
  {
    match x.worker
    case BeforeP => Passed(x)
    case InP => Passed(x)
    case AfterP => Received(x)
    case Carrying(_) => Delivered(x)
  }

  // ---------------------------------------------------------------------------
  // The invariant

  function ForBox(ps: seq<Packet>, b: nat): seq<Packet> {
    if ps == [] then []
    else (if ps[0].box == b then [ps[0]] else []) + ForBox(ps[1..], b)
  }

  /** The packets sent to box b of machine n and not lost, in the order in which they were sent. */
  function Addressed(log: seq<Sent>, n: nat, b: nat): seq<Packet> {
    if log == [] then []
    else
      var s := log[|log| - 1];
      Addressed(log[..|log| - 1], n, b) + if !s.lost && s.packet.to == n && s.packet.box == b then [s.packet] else []
  }

  function InHand(x: Node): seq<Packet> {
    if x.worker.Carrying? then [x.worker.packet] else []
  }

  function InSlot(x: Node): seq<Packet> {
    if x.slot.Some? then [x.slot.value] else []
  }

  /** On the way to a mailbox, the oldest first. */
  function Transit(x: Node): seq<Packet> {
    InHand(x) + InSlot(x) + x.socket
  }

  /** The semaphore is up, or the worker has just come through it, exactly while the slot is full. */
  ghost predicate SlotOk(x: Node) {
    && SemaOk(x.available)
    && (forall t :: t in x.available.queue || t in x.available.woken <==> t == WORKER && x.worker.InP?)
    && x.available.value + (if x.worker.AfterP? then 1 else 0) == |InSlot(x)|
  }

  predicate Legal(ps: seq<Packet>, n: nat, numBoxes: nat) {
    forall i :: 0 <= i < |ps| ==> ps[i].to == n && ps[i].box < numBoxes
  }

  /** Nothing sent to this box is lost on the way, doubled or overtaken. */
  predicate Accounted(x: Node, b: nat, sent: seq<Packet>)
    requires b < |x.boxes| && b < |x.taken|
  {
    x.taken[b] + x.boxes[b] + ForBox(Transit(x), b) == sent
  }

  ghost predicate NodeOk(x: Node, n: nat, log: seq<Sent>, numBoxes: nat) {
    && |x.boxes| == |x.taken| == numBoxes
    && SlotOk(x)
    && Legal(Transit(x), n, numBoxes)
    && forall b :: 0 <= b < numBoxes ==> Accounted(x, b, Addressed(log, n, b))
  }

  ghost predicate Inv(w: World, numBoxes: nat) {
    forall n :: n in w.nodes ==> NodeOk(w.nodes[n], n, w.log, numBoxes)
  }

  lemma {:induction false} ForBoxConcat(ps: seq<Packet>, qs: seq<Packet>, b: nat)
    ensures ForBox(ps + qs, b) == ForBox(ps, b) + ForBox(qs, b)
  {
    if ps == [] {
      assert ps + qs == qs;
    } else {
      assert (ps + qs)[1..] == ps[1..] + qs && (ps + qs)[0] == ps[0];
      assert ForBox(ps + qs, b) == (if ps[0].box == b then [ps[0]] else []) + ForBox(ps[1..] + qs, b);
      ForBoxConcat(ps[1..], qs, b);
      hide ForBox;
    }
  }

  lemma OneForBox(p: Packet, b: nat)
    ensures ForBox([p], b) == if p.box == b then [p] else []
  {
    assert [p][1..] == [];
  }

  lemma AddressedSnoc(log: seq<Sent>, s: Sent, n: nat, b: nat)
    ensures Addressed(log + [s], n, b) ==
      Addressed(log, n, b) + if !s.lost && s.packet.to == n && s.packet.box == b then [s.packet] else []
  {
    assert (log + [s])[..|log|] == log;
  }

  lemma TransmittedKeeps(w: World, p: Packet, lost: bool, numBoxes: nat)
    requires Inv(w, numBoxes) && p.box < numBoxes && p.to in w.nodes
    ensures Inv(Transmitted(w, p, lost), numBoxes)
  {
    var w' := Transmitted(w, p, lost);
    hide SlotOk;
    forall n | n in w'.nodes ensures NodeOk(w'.nodes[n], n, w'.log, numBoxes) {
      assert NodeOk(w.nodes[n], n, w.log, numBoxes);
      TransmittedNode(w.nodes[n], w'.nodes[n], n, w.log, Sent(p, lost), numBoxes);
    }
  }

  lemma TransmittedBox(x: Node, x': Node, n: nat, log: seq<Sent>, s: Sent, b: nat)
    requires b < |x.boxes| && b < |x.taken| && x'.boxes == x.boxes && x'.taken == x.taken
    requires Accounted(x, b, Addressed(log, n, b))
    requires Transit(x') == if !s.lost && s.packet.to == n then Transit(x) + [s.packet] else Transit(x)
    ensures Accounted(x', b, Addressed(log + [s], n, b))
  {
    AddressedSnoc(log, s, n, b);
    OneForBox(s.packet, b);
    hide ForBox, Addressed, Transit;
    ForBoxConcat(Transit(x), [s.packet], b);
  }

  lemma TransmittedNode(x: Node, x': Node, n: nat, log: seq<Sent>, s: Sent, numBoxes: nat)
    requires NodeOk(x, n, log, numBoxes) && s.packet.box < numBoxes
    requires x' == if !s.lost && s.packet.to == n then x.(socket := x.socket + [s.packet]) else x
    ensures NodeOk(x', n, log + [s], numBoxes)
  {
    TransmittedTransit(x, s.packet);
    assert SlotOk(x');
    hide SlotOk, Transit, Addressed, Accounted;
    if x' != x { LegalConcat(Transit(x), [s.packet], n, numBoxes); }
    forall b | 0 <= b < numBoxes ensures Accounted(x', b, Addressed(log + [s], n, b)) {
      TransmittedBox(x, x', n, log, s, b);
    }
  }

  lemma TransmittedTransit(x: Node, p: Packet)
    ensures Transit(x.(socket := x.socket + [p])) == Transit(x) + [p]
  {
  }

  lemma LegalConcat(ps: seq<Packet>, qs: seq<Packet>, n: nat, numBoxes: nat)
    ensures Legal(ps + qs, n, numBoxes) <==> Legal(ps, n, numBoxes) && Legal(qs, n, numBoxes)
  {
    if Legal(ps + qs, n, numBoxes) {
      forall i | 0 <= i < |ps| ensures ps[i].to == n && ps[i].box < numBoxes { assert (ps + qs)[i] == ps[i]; }
      forall i | 0 <= i < |qs| ensures qs[i].to == n && qs[i].box < numBoxes { assert (ps + qs)[|ps| + i] == qs[i]; }
    }
  }

  /** Steps that move packets along leave the account alone. */
  lemma SameTransit(x: Node, x': Node, n: nat, log: seq<Sent>, numBoxes: nat)
    requires NodeOk(x, n, log, numBoxes) && SlotOk(x')
    requires x'.boxes == x.boxes && x'.taken == x.taken && Transit(x') == Transit(x)
    ensures NodeOk(x', n, log, numBoxes)
  {
    hide SlotOk;
    forall b | 0 <= b < numBoxes ensures Accounted(x', b, Addressed(log, n, b)) {
      assert Accounted(x, b, Addressed(log, n, b));
    }
  }

  /** The slot is filled only when it is empty. */
  lemma PolledKeeps(x: Node, n: nat, log: seq<Sent>, numBoxes: nat)
    requires NodeOk(x, n, log, numBoxes)
    ensures NodeOk(Polled(x), n, log, numBoxes)
    ensures x.slot.Some? ==> Polled(x) == x
  {
    if x.slot.None? && x.socket != [] {
      VOk(x.available);
      PolledSlot(x);
      assert x.socket == [x.socket[0]] + x.socket[1..];
      assert Transit(Polled(x)) == Transit(x);
      hide SlotOk;
      SameTransit(x, Polled(x), n, log, numBoxes);
    }
  }

  lemma PolledSlot(x: Node)
    requires SlotOk(x) && x.slot.None? && x.socket != []
    ensures SlotOk(Polled(x))
  {
    VOk(x.available);
    var queue := x.available.queue;
    assert queue != [] ==> queue == [queue[0]] + queue[1..];
    hide SemaOk;
  }

  lemma PassedKeeps(x: Node, n: nat, log: seq<Sent>, numBoxes: nat)
    requires NodeOk(x, n, log, numBoxes)
    requires x.worker.BeforeP? || (x.worker.InP? && WORKER in x.available.woken)
    ensures NodeOk(Passed(x), n, log, numBoxes)
  {
    AttemptOk(x.available, WORKER);
    PassedSlot(x);
    assert Transit(Passed(x)) == Transit(x);
    hide SlotOk;
    SameTransit(x, Passed(x), n, log, numBoxes);
  }

  lemma PassedSlot(x: Node)
    requires SlotOk(x) && (x.worker.BeforeP? || (x.worker.InP? && WORKER in x.available.woken))
    ensures SlotOk(Passed(x))
  {
    assert WORKER !in x.available.queue;
    AttemptOk(x.available, WORKER);
    hide SemaOk;
  }

  /** The worker never reads an empty slot. */
  lemma ReceivedKeeps(x: Node, n: nat, log: seq<Sent>, numBoxes: nat)
    requires NodeOk(x, n, log, numBoxes) && x.worker.AfterP?
    ensures x.slot.Some? && NodeOk(Received(x), n, log, numBoxes)
  {
    assert x.slot.Some?;
    assert SlotOk(Received(x));
    assert Transit(Received(x)) == Transit(x);
    hide SlotOk;
    SameTransit(x, Received(x), n, log, numBoxes);
  }

  lemma DeliveredBox(x: Node, b: nat, sent: seq<Packet>)
    requires |x.boxes| == |x.taken| && b < |x.boxes| && x.worker.Carrying? && x.worker.packet.box < |x.boxes|
    requires Accounted(x, b, sent)
    ensures Accounted(Delivered(x), b, sent)
  {
    var p, x' := x.worker.packet, Delivered(x);
    DeliveredTransit(x);
    hide Transit;
    assert ([p] + Transit(x'))[1..] == Transit(x');
    assert ForBox(Transit(x), b) == (if p.box == b then [p] else []) + ForBox(Transit(x'), b);
    hide ForBox;
  }

  lemma DeliveredKeeps(x: Node, n: nat, log: seq<Sent>, numBoxes: nat)
    requires NodeOk(x, n, log, numBoxes) && x.worker.Carrying?
    ensures x.worker.packet.box < |x.boxes| && NodeOk(Delivered(x), n, log, numBoxes)
  {
    DeliveredTransit(x);
    var x' := Delivered(x);
    assert SlotOk(x');
    hide SlotOk, Transit, Addressed, Accounted;
    LegalConcat([x.worker.packet], Transit(x'), n, numBoxes);
    forall b | 0 <= b < numBoxes ensures Accounted(x', b, Addressed(log, n, b)) {
      DeliveredBox(x, b, Addressed(log, n, b));
    }
  }

  lemma DeliveredTransit(x: Node)
    requires x.worker.Carrying?
    ensures Transit(x) == [x.worker.packet] + Transit(x.(worker := BeforeP))
    ensures Transit(x)[0] == x.worker.packet
    ensures x.worker.packet.box < |x.boxes| ==> Transit(Delivered(x)) == Transit(x.(worker := BeforeP))
  {
  }

  lemma TookKeeps(x: Node, b: nat, n: nat, log: seq<Sent>, numBoxes: nat)
    requires NodeOk(x, n, log, numBoxes) && b < numBoxes && x.boxes[b] != []
    ensures NodeOk(Took(x, b), n, log, numBoxes)
  {
    var x' := Took(x, b);
    assert SlotOk(x');
    hide SlotOk;
    assert Transit(x') == Transit(x);
    forall c | 0 <= c < numBoxes ensures Accounted(x', c, Addressed(log, n, c)) {
      assert Accounted(x, c, Addressed(log, n, c));
      hide ForBox, Addressed, Transit;
      if c == b {
        assert x.boxes[b] == [x.boxes[b][0]] + x.boxes[b][1..];
        assert x'.taken[b] + x'.boxes[b] == x.taken[b] + x.boxes[b];
      }
    }
  }

  lemma WorkedKeeps(x: Node, n: nat, log: seq<Sent>, numBoxes: nat)
    requires NodeOk(x, n, log, numBoxes) && (x.worker.InP? ==> WORKER in x.available.woken)
    ensures WorkerSafe(x) && NodeOk(Worked(x), n, log, numBoxes)
  {
    hide NodeOk, Passed, Received, Delivered;
    match x.worker
    case BeforeP => PassedKeeps(x, n, log, numBoxes);
    case InP => PassedKeeps(x, n, log, numBoxes);
    case AfterP => ReceivedKeeps(x, n, log, numBoxes);
    case Carrying(_) => DeliveredKeeps(x, n, log, numBoxes);
  }

  // ---------------------------------------------------------------------------
  // Runs

  ghost function Step(w: World, e: Event, numBoxes: nat): (r: World)
    requires Inv(w, numBoxes) && Enabled(w, e, numBoxes)
    ensures Inv(r, numBoxes)
  {
    hide NodeOk, Transmitted, Polled, Worked, Took;
    match e
    case Send(p, lost) => TransmittedKeeps(w, p, lost, numBoxes); Transmitted(w, p, lost)
    case Poll(n) => PolledKeeps(w.nodes[n], n, w.log, numBoxes); w.(nodes := w.nodes[n := Polled(w.nodes[n])])
    case Work(n) => WorkedKeeps(w.nodes[n], n, w.log, numBoxes); w.(nodes := w.nodes[n := Worked(w.nodes[n])])
    case Take(n, b) =>
      BoxCount(w.nodes[n], n, w.log, numBoxes);
      TookKeeps(w.nodes[n], b, n, w.log, numBoxes);
      w.(nodes := w.nodes[n := Took(w.nodes[n], b)])
  }

  lemma BoxCount(x: Node, n: nat, log: seq<Sent>, numBoxes: nat)
    requires NodeOk(x, n, log, numBoxes)
    ensures |x.boxes| == |x.taken| == numBoxes
  {
  }

  ghost predicate CanHappen(w: World, es: seq<Event>, numBoxes: nat)
    requires Inv(w, numBoxes)
    decreases es
  {
    es == [] || (Enabled(w, es[0], numBoxes) && CanHappen(Step(w, es[0], numBoxes), es[1..], numBoxes))
  }

  ghost function After(w: World, es: seq<Event>, numBoxes: nat): (r: World)
    requires Inv(w, numBoxes) && CanHappen(w, es, numBoxes)
    ensures Inv(r, numBoxes)
    decreases es
  {
    if es == [] then w else After(Step(w, es[0], numBoxes), es[1..], numBoxes)
  }

  function NewNode(numBoxes: nat): Node {
    Node([], None, NewSema(0), BeforeP, seq(numBoxes, _ => []), seq(numBoxes, _ => []))
  }

  ghost function NewWorld(machines: set<nat>, numBoxes: nat): (w: World)
    ensures Inv(w, numBoxes)
  {
    World(map n | n in machines :: NewNode(numBoxes), [])
  }

  predicate IsPrefix(ps: seq<Packet>, qs: seq<Packet>) {
    |ps| <= |qs| && ps == qs[..|ps|]
  }

  lemma NodeFacts(x: Node, n: nat, log: seq<Sent>, numBoxes: nat, b: nat)
    requires NodeOk(x, n, log, numBoxes) && b < numBoxes
    ensures |x.boxes| == |x.taken| == numBoxes && WorkerSafe(x) && Accounted(x, b, Addressed(log, n, b))
  {
    if x.worker.Carrying? { assert Transit(x)[0] == x.worker.packet; }
  }

  lemma TakenIsPrefix(x: Node, b: nat, sent: seq<Packet>)
    requires b < |x.boxes| && b < |x.taken| && Accounted(x, b, sent)
    ensures IsPrefix(x.taken[b], sent)
  {
  }

  /** In every run, for every mailbox: the worker never finds the slot empty, and what has been taken out is the
      beginning of what was sent to that mailbox and not lost; what is missing is in the box or on its way. */
  lemma Delivery(machines: set<nat>, es: seq<Event>, numBoxes: nat, n: nat, b: nat)
    requires CanHappen(NewWorld(machines, numBoxes), es, numBoxes) && b < numBoxes
    ensures var w := After(NewWorld(machines, numBoxes), es, numBoxes);
      n in w.nodes ==>
        && |w.nodes[n].boxes| == |w.nodes[n].taken| == numBoxes
        && WorkerSafe(w.nodes[n])
        && Accounted(w.nodes[n], b, Addressed(w.log, n, b))
        && IsPrefix(w.nodes[n].taken[b], Addressed(w.log, n, b))
  {
    var w := After(NewWorld(machines, numBoxes), es, numBoxes);
    hide After;
    if n in w.nodes {
      hide Inv, NodeOk, Addressed, ForBox, Transit, Accounted, IsPrefix;
      NodeFacts(w.nodes[n], n, w.log, numBoxes, b);
      TakenIsPrefix(w.nodes[n], b, Addressed(w.log, n, b));
    }
  }

  // ---------------------------------------------------------------------------
  // What is on its way can always be brought to its mailbox and handed out

  /** How many stretches of the network and of the worker bring everything that is on its way into the mailboxes. */
  function Left(x: Node): nat {
    4 * |x.socket| + (if x.slot.None? then 0 else if x.worker.AfterP? then 2 else 3) + |InHand(x)|
  }

  /** The stretch that comes next for what is on its way to machine n. */
  function NextMove(x: Node, n: nat): Event {
    if x.slot.None? && !x.worker.Carrying? then Poll(n) else Work(n)
  }

  /** With a packet in the slot a worker inside P has been woken, and gets through. */
  lemma SlotIsUp(x: Node)
    requires SlotOk(x) && x.slot.Some? && !x.worker.AfterP?
    ensures Passes(x.available) && (x.worker.InP? ==> WORKER in x.available.woken)
  {
    if x.worker.InP? {
      assert x.available.woken != {};
      var t :| t in x.available.woken;
      assert t == WORKER;
    }
  }

  lemma PollAdvances(x: Node)
    requires x.slot.None? && !x.worker.Carrying? && !x.worker.AfterP? && Transit(x) != []
    ensures Left(Polled(x)) < Left(x) && Polled(x).taken == x.taken
  {
  }

  lemma WorkAdvances(x: Node)
    requires SlotOk(x) && WorkerSafe(x) && (x.slot.Some? || x.worker.Carrying?)
    ensures x.worker.InP? ==> WORKER in x.available.woken
    ensures Left(Worked(x)) < Left(x) && Worked(x).taken == x.taken
  {
    if x.slot.Some? && !x.worker.AfterP? { SlotIsUp(x); }
    hide SlotOk, Attempt, Passes;
  }

  /** It can be made, it is one less to make, and it takes nothing out of a mailbox. */
  lemma MoveAdvances(w: World, n: nat, numBoxes: nat)
    requires Inv(w, numBoxes) && n in w.nodes && Transit(w.nodes[n]) != []
    ensures var e := NextMove(w.nodes[n], n);
      && Enabled(w, e, numBoxes)
      && var w' := Step(w, e, numBoxes);
      && n in w'.nodes && w'.log == w.log
      && Left(w'.nodes[n]) < Left(w.nodes[n]) && w'.nodes[n].taken == w.nodes[n].taken
  {
    var x := w.nodes[n];
    assert NodeOk(x, n, w.log, numBoxes);
    assert SlotOk(x) && (x.worker.AfterP? ==> x.slot.Some?);
    hide NodeOk, Inv, Left, SlotOk, Polled, Worked;
    if x.slot.None? && !x.worker.Carrying? {
      PollAdvances(x);
    } else {
      WorkerIsSafe(x, n, w.log, numBoxes);
      WorkAdvances(x);
    }
  }

  lemma WorkerIsSafe(x: Node, n: nat, log: seq<Sent>, numBoxes: nat)
    requires NodeOk(x, n, log, numBoxes)
    ensures WorkerSafe(x)
  {
    if x.worker.Carrying? { assert Transit(x)[0] == x.worker.packet; }
  }

  /** The stretches that bring everything on its way to machine n into its mailboxes. */
  ghost function Deliveries(w: World, n: nat, numBoxes: nat): seq<Event>
    requires Inv(w, numBoxes) && n in w.nodes
    decreases Left(w.nodes[n])
  {
    if Transit(w.nodes[n]) == [] then []
    else
      MoveAdvances(w, n, numBoxes);
      var e := NextMove(w.nodes[n], n);
      [e] + Deliveries(Step(w, e, numBoxes), n, numBoxes)
  }

  lemma FirstThen(w: World, e: Event, es: seq<Event>, numBoxes: nat)
    requires Inv(w, numBoxes) && Enabled(w, e, numBoxes) && CanHappen(Step(w, e, numBoxes), es, numBoxes)
    ensures CanHappen(w, [e] + es, numBoxes)
    ensures After(w, [e] + es, numBoxes) == After(Step(w, e, numBoxes), es, numBoxes)
  {
    hide Inv, Step, Enabled;
    assert ([e] + es)[1..] == es;
  }

  lemma {:induction false} AllDelivered(w: World, n: nat, numBoxes: nat)
    requires Inv(w, numBoxes) && n in w.nodes
    ensures var es := Deliveries(w, n, numBoxes);
      && CanHappen(w, es, numBoxes)
      && var w' := After(w, es, numBoxes);
      && n in w'.nodes && w'.log == w.log
      && Transit(w'.nodes[n]) == [] && w'.nodes[n].taken == w.nodes[n].taken
    decreases Left(w.nodes[n])
  {
    hide Inv, Step, Enabled, Transit, Left, NextMove;
    if Transit(w.nodes[n]) != [] {
      MoveAdvances(w, n, numBoxes);
      var e := NextMove(w.nodes[n], n);
      var w' := Step(w, e, numBoxes);
      AllDelivered(w', n, numBoxes);
      FirstThen(w, e, Deliveries(w', n, numBoxes), numBoxes);
    }
  }

  /** k calls of Receive on mailbox b of machine n. */
  function Takes(n: nat, b: nat, k: nat): seq<Event> {
    if k == 0 then [] else [Take(n, b)] + Takes(n, b, k - 1)
  }

  ghost predicate TakenOut(x: Node, x': Node, b: nat) {
    && |x.boxes| == |x.taken| == |x'.boxes| == |x'.taken| && b < |x.boxes|
    && x'.taken[b] == x.taken[b] + x.boxes[b] && x'.boxes[b] == [] && Transit(x') == Transit(x)
  }

  lemma {:induction false} TakesEmptyTheBox(w: World, n: nat, b: nat, numBoxes: nat)
    requires Inv(w, numBoxes) && n in w.nodes && b < numBoxes
    ensures |w.nodes[n].boxes| == |w.nodes[n].taken| == numBoxes
    ensures var es := Takes(n, b, |w.nodes[n].boxes[b]|);
      && CanHappen(w, es, numBoxes)
      && var w' := After(w, es, numBoxes);
      n in w'.nodes && w'.log == w.log && TakenOut(w.nodes[n], w'.nodes[n], b)
    decreases if n in w.nodes && b < |w.nodes[n].boxes| then |w.nodes[n].boxes[b]| else 0
  {
    BoxCount(w.nodes[n], n, w.log, numBoxes);
    hide Inv, Step, Transit, Enabled, TakenOut, Took;
    var x := w.nodes[n];
    if x.boxes[b] == [] {
      NothingToTake(x, b);
    } else {
      TakeOne(w, n, b, numBoxes);
      var w' := Step(w, Take(n, b), numBoxes);
      assert w'.nodes[n].boxes[b] == x.boxes[b][1..] by { TookOne(x, b); }
      TakesEmptyTheBox(w', n, b, numBoxes);
      FirstThen(w, Take(n, b), Takes(n, b, |x.boxes[b]| - 1), numBoxes);
      var w2 := After(w', Takes(n, b, |x.boxes[b]| - 1), numBoxes);
      hide After, CanHappen;
      OneThenRest(x, w'.nodes[n], w2.nodes[n], b);
    }
  }

  lemma TookOne(x: Node, b: nat)
    requires b < |x.boxes| && b < |x.taken| && x.boxes[b] != []
    ensures |Took(x, b).boxes| == |x.boxes| && Took(x, b).boxes[b] == x.boxes[b][1..]
  {
  }

  lemma NothingToTake(x: Node, b: nat)
    requires |x.boxes| == |x.taken| && b < |x.boxes| && x.boxes[b] == []
    ensures TakenOut(x, x, b)
  {
  }

  lemma OneThenRest(x: Node, x': Node, x2: Node, b: nat)
    requires |x.boxes| == |x.taken| && b < |x.boxes| && x.boxes[b] != []
    requires x' == Took(x, b) && TakenOut(x', x2, b)
    ensures TakenOut(x, x2, b)
  {
    assert Transit(x') == Transit(x);
    hide Transit;
    assert x.taken[b] + x.boxes[b] == x.taken[b] + [x.boxes[b][0]] + x.boxes[b][1..];
  }

  /** Receive hands out the packet that has been in the mailbox longest. */
  lemma TakeOne(w: World, n: nat, b: nat, numBoxes: nat)
    requires Inv(w, numBoxes) && n in w.nodes && b < numBoxes
    requires |w.nodes[n].boxes| == |w.nodes[n].taken| == numBoxes && w.nodes[n].boxes[b] != []
    ensures Enabled(w, Take(n, b), numBoxes)
    ensures var w' := Step(w, Take(n, b), numBoxes);
      n in w'.nodes && w'.log == w.log && w'.nodes[n] == Took(w.nodes[n], b)
  {
    hide Inv, Took;
  }

  lemma {:induction false} OneThenOther(w: World, es: seq<Event>, more: seq<Event>, numBoxes: nat)
    requires Inv(w, numBoxes) && CanHappen(w, es, numBoxes) && CanHappen(After(w, es, numBoxes), more, numBoxes)
    ensures CanHappen(w, es + more, numBoxes)
    ensures After(w, es + more, numBoxes) == After(After(w, es, numBoxes), more, numBoxes)
    decreases es
  {
    hide Inv, Step, Enabled;
    if es == [] {
      assert es + more == more;
    } else {
      assert (es + more)[0] == es[0] && (es + more)[1..] == es[1..] + more;
      OneThenOther(Step(w, es[0], numBoxes), es[1..], more, numBoxes);
    }
  }

  /** From w these events hand out to the callers of Receive(b) on machine n all that was sent there and not lost. */
  ghost predicate HandsOut(w: World, es: seq<Event>, n: nat, b: nat, numBoxes: nat)
    requires Inv(w, numBoxes)
  {
    && CanHappen(w, es, numBoxes)
    && var w' := After(w, es, numBoxes);
    && w'.log == w.log && n in w'.nodes && b < |w'.nodes[n].taken|
    && w'.nodes[n].taken[b] == Addressed(w.log, n, b)
  }

  lemma NothingLeft(x: Node, b: nat, sent: seq<Packet>)
    requires b < |x.boxes| && b < |x.taken| && x.boxes[b] == [] && Transit(x) == [] && Accounted(x, b, sent)
    ensures x.taken[b] == sent
  {
  }

  lemma CanBeHandedOut(w: World, n: nat, b: nat, numBoxes: nat)
    requires Inv(w, numBoxes) && n in w.nodes && b < numBoxes
    ensures exists es :: HandsOut(w, es, n, b, numBoxes)
  {
    hide Inv, CanHappen, After, Transit, Addressed, Deliveries, Takes, Accounted;
    var es := Deliveries(w, n, numBoxes);
    AllDelivered(w, n, numBoxes);
    var w1 := After(w, es, numBoxes);
    TakesEmptyTheBox(w1, n, b, numBoxes);
    var more := Takes(n, b, |w1.nodes[n].boxes[b]|);
    OneThenOther(w, es, more, numBoxes);
    var w2 := After(w1, more, numBoxes);
    Account(w2, n, b, numBoxes);
    NothingLeft(w2.nodes[n], b, Addressed(w.log, n, b));
    assert HandsOut(w, es + more, n, b, numBoxes);
  }

  lemma Account(w: World, n: nat, b: nat, numBoxes: nat)
    requires Inv(w, numBoxes) && n in w.nodes && b < numBoxes
    ensures |w.nodes[n].boxes| == |w.nodes[n].taken| == numBoxes && Accounted(w.nodes[n], b, Addressed(w.log, n, b))
  {
    NodeFacts(w.nodes[n], n, w.log, numBoxes, b);
  }

  /** At any point of any run, without anything more being sent, the network, the worker and the receivers can go on
      so that a mailbox has handed out exactly what was sent to it and not lost, in order. */
  lemma EveryMessageArrives(machines: set<nat>, es: seq<Event>, numBoxes: nat, n: nat, b: nat)
    requires CanHappen(NewWorld(machines, numBoxes), es, numBoxes) && b < numBoxes
    ensures var w := After(NewWorld(machines, numBoxes), es, numBoxes);
      n in w.nodes ==> exists more :: HandsOut(w, more, n, b, numBoxes)
  {
    var w := After(NewWorld(machines, numBoxes), es, numBoxes);
    hide After, Inv, HandsOut, CanHappen;
    if n in w.nodes { CanBeHandedOut(w, n, b, numBoxes); }
  }

  // ---------------------------------------------------------------------------
  // Order per sender

  function From(ps: seq<Packet>, a: nat): seq<Packet> {
    if ps == [] then []
    else From(ps[..|ps| - 1], a) + if ps[|ps| - 1].from == a then [ps[|ps| - 1]] else []
  }

  /** Everything machine a has sent, lost or not. */
  function SentBy(log: seq<Sent>, a: nat): seq<Packet> {
    if log == [] then []
    else SentBy(log[..|log| - 1], a) + if log[|log| - 1].packet.from == a then [log[|log| - 1].packet] else []
  }

  /** ps can be had from qs by leaving packets out. */
  predicate Subsequence(ps: seq<Packet>, qs: seq<Packet>)
    decreases |qs|
  {
    || ps == []
    || (qs != [] && Subsequence(ps, qs[..|qs| - 1]))
    || (qs != [] && ps[|ps| - 1] == qs[|qs| - 1] && Subsequence(ps[..|ps| - 1], qs[..|qs| - 1]))
  }

  lemma SubsequenceSnoc(ps: seq<Packet>, qs: seq<Packet>, p: Packet)
    requires Subsequence(ps, qs)
    ensures Subsequence(ps, qs + [p]) && Subsequence(ps + [p], qs + [p])
  {
    assert (qs + [p])[..|qs|] == qs && (ps + [p])[..|ps|] == ps;
  }

  lemma {:induction false} AddressedInOrder(log: seq<Sent>, n: nat, b: nat, a: nat)
    ensures Subsequence(From(Addressed(log, n, b), a), SentBy(log, a))
  {
    if log != [] {
      var front, s := log[..|log| - 1], log[|log| - 1];
      AddressedInOrder(front, n, b, a);
      var ps := Addressed(front, n, b);
      assert (ps + [s.packet])[..|ps|] == ps;
      assert From(ps, a) + [] == From(ps, a) && SentBy(front, a) + [] == SentBy(front, a) && ps + [] == ps;
      SubsequenceSnoc(From(ps, a), SentBy(front, a), s.packet);
    }
  }

  lemma {:induction false} FromPrefix(ps: seq<Packet>, qs: seq<Packet>, a: nat, rs: seq<Packet>)
    requires Subsequence(From(ps + qs, a), rs)
    ensures Subsequence(From(ps, a), rs)
    decreases |qs|
  {
    if qs == [] {
      assert ps + qs == ps;
    } else {
      var all := ps + qs;
      assert all[..|all| - 1] == ps + qs[..|qs| - 1];
      var shorter := From(ps + qs[..|qs| - 1], a);
      if all[|all| - 1].from == a {
        assert From(all, a) == shorter + [all[|all| - 1]];
        DropLast(shorter, all[|all| - 1], rs);
      } else {
        assert From(all, a) == shorter + [] == shorter;
      }
      FromPrefix(ps, qs[..|qs| - 1], a, rs);
    }
  }

  lemma {:induction false} DropLast(ps: seq<Packet>, p: Packet, qs: seq<Packet>)
    requires Subsequence(ps + [p], qs)
    ensures Subsequence(ps, qs)
    decreases |qs|
  {
    assert (ps + [p])[..|ps|] == ps;
    if qs != [] && Subsequence(ps + [p], qs[..|qs| - 1]) {
      DropLast(ps, p, qs[..|qs| - 1]);
    }
  }

  lemma PrefixInOrder(ps: seq<Packet>, log: seq<Sent>, n: nat, b: nat, a: nat)
    requires IsPrefix(ps, Addressed(log, n, b))
    ensures Subsequence(From(ps, a), SentBy(log, a))
  {
    AddressedInOrder(log, n, b, a);
    hide Subsequence, From, SentBy;
    var all := Addressed(log, n, b);
    assert all == ps + all[|ps|..];
    FromPrefix(ps, all[|ps|..], a, SentBy(log, a));
  }

  /** The messages of each sender are taken from a mailbox in the order in which that sender sent them. */
  lemma InOrderPerSender(machines: set<nat>, es: seq<Event>, numBoxes: nat, n: nat, b: nat, a: nat)
    requires CanHappen(NewWorld(machines, numBoxes), es, numBoxes) && b < numBoxes
    ensures var w := After(NewWorld(machines, numBoxes), es, numBoxes);
      n in w.nodes ==> |w.nodes[n].taken| == numBoxes && Subsequence(From(w.nodes[n].taken[b], a), SentBy(w.log, a))
  {
    var w := After(NewWorld(machines, numBoxes), es, numBoxes);
    hide After, Inv, Subsequence, From, SentBy, Addressed, ForBox, IsPrefix;
    Delivery(machines, es, numBoxes, n, b);
    if n in w.nodes {
      PrefixInOrder(w.nodes[n].taken[b], w.log, n, b, a);
    }
  }
}
