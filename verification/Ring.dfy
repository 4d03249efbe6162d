/** The lock-free ring of the multiplexer's queues with any number of producers and one consumer.
    A producer reserves a slot by moving the head and writes the slot in a later step; the consumer
    empties the slot at the tail and moves the tail in a later step.  Both indices wrap at 32 bits. */
module Ring {
  import opened Common
  import opened MuxWord

  /** A non-nil pointer. */
  type Item = int
  type Producer = nat

  /** What a producer holds between its reservation and its slot write; index is history only. */
  datatype Reservation = Reservation(slot: nat, val: Item, index: nat)

  datatype Consumer = Idle | Took(val: Item, tail: U32)

  datatype State = State(
    word: Halves, vals: seq<Option<Item>>, pending: map<Producer, Reservation>, consumer: Consumer,
    // history only: the items in reservation order, the tail without wrap-around, what popTail returned
    log: seq<Item>, tail: nat, popped: seq<Item>)

  function Start(n: nat): State {
    State(Halves(0, 0), seq(n, i => None), map[], Idle, [], 0, [])
  }

  datatype Action = Reserve(p: Producer, val: Item) | Write(p: Producer) | Take | Advance

  predicate Full(s: State) {
    Mask32(s.word.low + |s.vals|) == s.word.high
  }

  predicate Empty(s: State) {
    s.word.low == s.word.high
  }

  /** pushHead up to its successful compare-and-swap; not enabled when it would return false. */
  function DoReserve(s: State, p: Producer, val: Item): Option<State> {
    if p in s.pending || Full(s) || |s.vals| == 0 then None
    else
      var slot := Slot(s.word.high, |s.vals|);
      Some(s.(word := s.word.(high := Mask32(s.word.high + 1)),
              pending := s.pending[p := Reservation(slot, val, |s.log|)],
              log := s.log + [val]))
  }

  /** The slot write that ends pushHead. */
  function DoWrite(s: State, p: Producer): Option<State> {
    if p !in s.pending || s.pending[p].slot >= |s.vals| then None
    else
      var r := s.pending[p];
      Some(s.(vals := s.vals[r.slot := Some(r.val)], pending := s.pending - {p}))
  }

  /** popTail's compare-and-swap of the tail slot to nil; not enabled on an empty ring or a nil slot. */
  function DoTake(s: State): Option<State> {
    if !s.consumer.Idle? || Empty(s) || |s.vals| == 0 then None
    else
      var slot := Slot(s.word.low, |s.vals|);
      match s.vals[slot]
      case None => None
      case Some(val) =>
        Some(s.(vals := s.vals[slot := None], consumer := Took(val, s.word.low), popped := s.popped + [val]))
  }

  /** popTail's atomic add on the index word. */
  function DoAdvance(s: State): Option<State> {
    if !s.consumer.Took? then None
    else
      var word := Add64(PackHalves(s.word.high, s.word.low), TailStep(s.consumer.tail));
      Some(s.(word := UnpackHalves(word), consumer := Idle, tail := s.tail + 1))
  }

  function Exec(s: State, a: Action): Option<State> {
    match a
    case Reserve(p, val) => DoReserve(s, p, val)
    case Write(p) => DoWrite(s, p)
    case Take => DoTake(s)
    case Advance => DoAdvance(s)
  }

  function Run(n: nat, actions: seq<Action>): Option<State> {
    if actions == [] then Some(Start(n))
    else
      match Run(n, actions[..|actions| - 1])
      case None => None
      case Some(s) => Exec(s, actions[|actions| - 1])
  }

  // The invariant.

  predicate Unwritten(s: State, index: nat) {
    exists p :: p in s.pending && s.pending[p].index == index
  }

  predicate Taken(s: State, index: nat) {
    s.consumer.Took? && index == s.tail
  }

  ghost predicate Indices(s: State) {
    && RingSize(|s.vals|)
    && s.tail <= |s.log| <= s.tail + |s.vals|
    && s.word == Halves(Mask32(|s.log|), Mask32(s.tail))
  }

  predicate Producers(s: State) {
    && (forall p :: p in s.pending ==>
          var r := s.pending[p];
          s.tail <= r.index < |s.log| && |s.vals| > 0 && r.slot == Slot(r.index, |s.vals|) && r.val == s.log[r.index])
    && (forall p, q :: p in s.pending && q in s.pending && p != q ==> s.pending[p].index != s.pending[q].index)
  }

  predicate Consuming(s: State) {
    && |s.log| >= s.tail
    && (s.consumer.Took? ==>
          && s.tail < |s.log| && s.consumer.val == s.log[s.tail] && s.consumer.tail == s.word.low
          && !Unwritten(s, s.tail))
    && s.popped == if s.consumer.Took? then s.log[..s.tail + 1] else s.log[..s.tail]
  }

  /** A slot in [tail, head) holds its item exactly when it has been written and not yet taken; the others are nil. */
  predicate Slots(s: State) {
    && |s.vals| > 0
    && (forall i :: s.tail <= i < |s.log| ==>
          s.vals[Slot(i, |s.vals|)] == if Unwritten(s, i) || Taken(s, i) then None else Some(s.log[i]))
    && (forall i :: |s.log| <= i < s.tail + |s.vals| ==> s.vals[Slot(i, |s.vals|)] == None)
  }

  ghost predicate Inv(s: State) {
    Indices(s) && Producers(s) && Consuming(s) && Slots(s)
  }

  /** The fullness test on wrapped indices is exact. */
  lemma FullExact(s: State)
    requires Indices(s)
    ensures Full(s) <==> |s.log| == s.tail + |s.vals|
    ensures Empty(s) <==> |s.log| == s.tail
  {
    IndexTestsExact(s.tail, |s.log| - s.tail, |s.vals|);
  }

  // Every step keeps the invariant.

  lemma StartInv(n: nat)
    requires RingSize(n)
    ensures Inv(Start(n))
  {
    var _ := RingSizeDivides(n);
  }

  lemma ReserveIndices(s: State, p: Producer, val: Item, t: State)
    requires Indices(s) && DoReserve(s, p, val) == Some(t)
    ensures Indices(t) && |s.log| < s.tail + |s.vals|
    ensures t.pending[p].slot == Slot(|s.log|, |s.vals|)
  {
    FullExact(s);
    SlotOfWrapped(|s.log|, |s.vals|);
    MaskSuccessor(|s.log|);
  }

  lemma ReserveUnwritten(s: State, p: Producer, val: Item, t: State, i: nat)
    requires DoReserve(s, p, val) == Some(t)
    ensures Unwritten(t, i) <==> Unwritten(s, i) || i == |s.log|
  {
    assert t.pending[p].index == |s.log|;
    if Unwritten(s, i) {
      var q :| q in s.pending && s.pending[q].index == i;
      assert q in t.pending && t.pending[q].index == i;
    }
  }

  lemma ReserveSlots(s: State, p: Producer, val: Item, t: State)
    requires Inv(s) && DoReserve(s, p, val) == Some(t)
    ensures Slots(t)
  {
    ReserveIndices(s, p, val, t);
    forall i | s.tail <= i <= |s.log| ensures Unwritten(t, i) == (Unwritten(s, i) || i == |s.log|) {
      ReserveUnwritten(s, p, val, t, i);
    }
  }

  lemma ReserveProducers(s: State, p: Producer, val: Item, t: State)
    requires Inv(s) && DoReserve(s, p, val) == Some(t)
    ensures Producers(t)
  {
    ReserveIndices(s, p, val, t);
  }

  lemma ReserveConsuming(s: State, p: Producer, val: Item, t: State)
    requires Inv(s) && DoReserve(s, p, val) == Some(t)
    ensures Consuming(t)
  {
    ReserveUnwritten(s, p, val, t, s.tail);
    assert t.log[..s.tail] == s.log[..s.tail];
    assert s.tail < |s.log| ==> t.log[..s.tail + 1] == s.log[..s.tail + 1];
  }

  lemma KeepReserve(s: State, p: Producer, val: Item)
    requires Inv(s) && DoReserve(s, p, val).Some?
    ensures Inv(DoReserve(s, p, val).value)
  {
    var t := DoReserve(s, p, val).value;
    ReserveIndices(s, p, val, t);
    ReserveProducers(s, p, val, t);
    ReserveConsuming(s, p, val, t);
    ReserveSlots(s, p, val, t);
  }

  lemma WriteUnwritten(s: State, p: Producer, t: State, i: nat)
    requires Producers(s) && DoWrite(s, p) == Some(t)
    ensures Unwritten(t, i) <==> Unwritten(s, i) && i != s.pending[p].index
  {
    if Unwritten(s, i) && i != s.pending[p].index {
      var q :| q in s.pending && s.pending[q].index == i;
      assert q in t.pending && t.pending[q].index == i;
    }
  }

  lemma WriteSlots(s: State, p: Producer, t: State)
    requires Inv(s) && DoWrite(s, p) == Some(t)
    ensures Slots(t)
  {
    SlotsDistinct(s.tail, |s.vals|);
    forall i | s.tail <= i < |s.log| ensures Unwritten(t, i) == (Unwritten(s, i) && i != s.pending[p].index) {
      WriteUnwritten(s, p, t, i);
    }
    assert Unwritten(s, s.pending[p].index);
  }

  lemma KeepWrite(s: State, p: Producer)
    requires Inv(s) && DoWrite(s, p).Some?
    ensures Inv(DoWrite(s, p).value)
  {
    WriteSlots(s, p, DoWrite(s, p).value);
    WriteUnwritten(s, p, DoWrite(s, p).value, s.tail);
  }

  lemma KeepTake(s: State)
    requires Inv(s) && DoTake(s).Some?
    ensures Inv(DoTake(s).value)
    ensures DoTake(s).value.popped == s.popped + [s.log[s.tail]]
  {
    var t := DoTake(s).value;
    var n := |s.vals|;
    FullExact(s);
    SlotOfWrapped(s.tail, n);
    SlotsDistinct(s.tail, n);
    assert s.vals[Slot(s.tail, n)].Some?;
    forall i ensures Unwritten(t, i) == Unwritten(s, i) {
    }
  }

  lemma AdvanceIndices(s: State, t: State)
    requires Indices(s) && Consuming(s) && DoAdvance(s) == Some(t)
    ensures Indices(t)
  {
    AdvanceTail(s.word);
    MaskSuccessor(s.tail);
  }

  lemma AdvanceUnwritten(s: State, t: State, i: nat)
    requires DoAdvance(s) == Some(t)
    ensures Unwritten(t, i) <==> Unwritten(s, i)
  {
  }

  lemma AdvanceSlots(s: State, t: State)
    requires Inv(s) && DoAdvance(s) == Some(t)
    ensures Slots(t)
  {
    SlotWraps(s.tail, |s.vals|);
    forall i ensures Unwritten(t, i) == Unwritten(s, i) {
      AdvanceUnwritten(s, t, i);
    }
  }

  lemma AdvanceProducers(s: State, t: State)
    requires Inv(s) && DoAdvance(s) == Some(t)
    ensures Producers(t)
  {
    forall p | p in s.pending ensures s.pending[p].index != s.tail {
      assert !Unwritten(s, s.tail);
    }
  }

  lemma KeepAdvance(s: State)
    requires Inv(s) && DoAdvance(s).Some?
    ensures Inv(DoAdvance(s).value)
  {
    var t := DoAdvance(s).value;
    AdvanceIndices(s, t);
    AdvanceProducers(s, t);
    AdvanceSlots(s, t);
  }

  lemma {:induction false} Reachable(n: nat, actions: seq<Action>)
    requires RingSize(n) && Run(n, actions).Some?
    ensures Inv(Run(n, actions).value) && |Run(n, actions).value.vals| == n
  {
    if actions == [] {
      StartInv(n);
    } else {
      var before := actions[..|actions| - 1];
      Reachable(n, before);
      var s := Run(n, before).value;
      match actions[|actions| - 1]
      case Reserve(p, val) => KeepReserve(s, p, val);
      case Write(p) => KeepWrite(s, p);
      case Take => KeepTake(s);
      case Advance => KeepAdvance(s);
    }
  }

  /** In every interleaving the popped items are, each exactly once, the first ones of the reservation order. */
  lemma PopsInReservationOrder(n: nat, actions: seq<Action>)
    requires RingSize(n) && Run(n, actions).Some?
    ensures var s := Run(n, actions).value;
      && s.popped <= s.log
      && |s.log| - |s.popped| <= n
      && (Empty(s) ==> s.popped == s.log)
  {
    Reachable(n, actions);
    FullExact(Run(n, actions).value);
  }

  /** Slots outside [tail, head) are nil in every interleaving, also between a reservation and its slot write. */
  lemma FreeSlotsAreNil(n: nat, actions: seq<Action>, i: nat)
    requires RingSize(n) && Run(n, actions).Some?
    requires var s := Run(n, actions).value; |s.log| <= i < s.tail + n
    ensures var s := Run(n, actions).value; n > 0 && |s.vals| == n && s.vals[Slot(i, n)] == None
  {
    Reachable(n, actions);
  }

  /** pushHead refuses exactly when n items are reserved and not yet released, and a pop makes progress
      exactly when the oldest reserved item has been written. */
  lemma RefusalsExact(n: nat, actions: seq<Action>, p: Producer, val: Item)
    requires RingSize(n) && Run(n, actions).Some?
    ensures var s := Run(n, actions).value;
      && (p !in s.pending ==> (DoReserve(s, p, val).None? <==> |s.log| - s.tail == n))
      && (s.consumer.Idle? ==> (DoTake(s).Some? <==> s.tail < |s.log| && !Unwritten(s, s.tail)))
  {
    Reachable(n, actions);
    var s := Run(n, actions).value;
    FullExact(s);
    SlotOfWrapped(s.tail, n);
  }
}
