/** threads/synch.cc: the array of products that both versions of Buffer keep, apart from how threads get to it. */
module Buffers {
  const BUFFER_SIZE: nat := 10

  datatype Op = Put(value: int) | Get

  /** stored and removed are all values that went in and came out, taken at the moment of removal. */
  datatype Store = Store(slots: seq<int>, count: int, stored: multiset<int>, removed: multiset<int>)

  function NewStore(slots: seq<int>): Store {
    Store(slots, 0, multiset{}, multiset{})
  }

  predicate StoreOk(s: Store) {
    && |s.slots| == BUFFER_SIZE && 0 <= s.count <= BUFFER_SIZE
    && s.stored == s.removed + multiset(s.slots[..s.count])
  }

  /** The store or removal stays within the array. */
  predicate Fits(s: Store, op: Op) {
    |s.slots| == BUFFER_SIZE && if op.Put? then 0 <= s.count < BUFFER_SIZE else 0 < s.count <= BUFFER_SIZE
  }

  /** The slot that the operation stores into, or that the pointer it returns points to. */
  function Slot(s: Store, op: Op): int {
    if op.Put? then s.count else s.count - 1
  }

  function Changed(s: Store, op: Op): (r: Store)
    requires Fits(s, op)
    ensures |r.slots| == BUFFER_SIZE
  {
    match op
    case Put(value) => Store(s.slots[s.count := value], s.count + 1, s.stored + multiset{value}, s.removed)
    case Get => Store(s.slots, s.count - 1, s.stored, s.removed + multiset{s.slots[s.count - 1]})
  }

  lemma ChangedOk(s: Store, op: Op)
    requires StoreOk(s) && Fits(s, op)
    ensures StoreOk(Changed(s, op))
  {
    var r := Changed(s, op);
    if op.Put? {
      assert r.slots[..r.count] == s.slots[..s.count] + [op.value];
    } else {
      assert s.slots[..s.count] == r.slots[..r.count] + [s.slots[s.count - 1]];
    }
  }

  // ---------------------------------------------------------------------------
  // What a pointer into the array reads later on

  predicate AllFit(s: Store, ops: seq<Op>)
    decreases |ops|
  {
    ops == [] || (Fits(s, ops[0]) && AllFit(Changed(s, ops[0]), ops[1..]))
  }

  function AllChanged(s: Store, ops: seq<Op>): Store
    requires AllFit(s, ops)
    decreases |ops|
  {
    if ops == [] then s else AllChanged(Changed(s, ops[0]), ops[1..])
  }

  /** The values that the operations store into slot i, in order. */
  function StoredInto(s: Store, ops: seq<Op>, i: int): seq<int>
    requires AllFit(s, ops)
    decreases |ops|
  {
    if ops == [] then []
    else
      var rest := StoredInto(Changed(s, ops[0]), ops[1..], i);
      if ops[0].Put? && Slot(s, ops[0]) == i then [ops[0].value] + rest else rest
  }

  /** Over any sequence of operations a slot holds what was stored into it last, or what it held before. */
  lemma {:induction false} SlotHolds(s: Store, ops: seq<Op>, i: nat)
    requires AllFit(s, ops) && |s.slots| == BUFFER_SIZE && i < BUFFER_SIZE
    ensures |AllChanged(s, ops).slots| == BUFFER_SIZE
    ensures var into := StoredInto(s, ops, i);
      AllChanged(s, ops).slots[i] == if into == [] then s.slots[i] else into[|into| - 1]
    decreases |ops|
  {
    if ops != [] {
      SlotHolds(Changed(s, ops[0]), ops[1..], i);
    }
  }

  /** What the pointer that a removal from before returns reads when further operations have led to after: the removed
      value if and only if none of them stored into its slot, or the last that did stored the same value. */
  predicate PointerReads(before: Store, ops: seq<Op>, after: Store) {
    && Fits(before, Get) && AllFit(Changed(before, Get), ops) && |after.slots| == BUFFER_SIZE
    && var i := Slot(before, Get);
    && var into := StoredInto(Changed(before, Get), ops, i);
    (after.slots[i] == before.slots[i] <==> into == [] || into[|into| - 1] == before.slots[i])
  }

  lemma PointerReadsLast(before: Store, ops: seq<Op>)
    requires Fits(before, Get) && AllFit(Changed(before, Get), ops)
    ensures PointerReads(before, ops, AllChanged(Changed(before, Get), ops))
  {
    SlotHolds(Changed(before, Get), ops, Slot(before, Get));
  }
}
