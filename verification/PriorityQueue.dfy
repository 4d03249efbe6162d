/** The session's write queue: three classes of packets and a counter that keeps the lowest class from
    starving.  Each class is one first-in first-out queue, which is what module BufChain proves of the
    chain of rings behind it. */
module PriorityQueue {
  import opened Common
  import opened MuxPackets

  /** maxStarving. */
  const MAX_STARVING: nat := 8

  datatype Packet = Packet(flag: Byte, id: int, priority: bool, content: seq<Byte>)

  datatype Class = High | Middle | Low

  function ClassOf(p: Packet): Class {
    if p.flag == PING || p.flag == PING_RETURN then High
    else if p.flag == NEW_CONN || p.flag == NEW_CONN_OK || p.flag == NEW_CONN_FAIL || p.priority then Middle
    else Low
  }

  datatype Queues = Queues(high: seq<Packet>, middle: seq<Packet>, low: seq<Packet>, starving: nat) {
    function Of(c: Class): seq<Packet> {
      match c case High => high case Middle => middle case Low => low
    }
  }

  function Start(): Queues {
    Queues([], [], [], 0)
  }

  function Pushed(q: Queues, p: Packet): Queues {
    match ClassOf(p)
    case High => q.(high := q.high + [p])
    case Middle => q.(middle := q.middle + [p])
    case Low => q.(low := q.low + [p])
  }

  /** Which class the next pop serves: pings first; then the middle class unless it has had its share
      and the low class has something to send. */
  function Choice(q: Queues): Option<Class> {
    if q.high != [] then Some(High)
    else if q.middle != [] && (q.starving < MAX_STARVING || q.low == []) then Some(Middle)
    else if q.low != [] then Some(Low)
    else None
  }

  /** The queue after serving a class; the counter is an 8-bit number. */
  function Served(q: Queues, c: Class): Queues
    requires q.Of(c) != []
  {
    match c
    case High => q.(high := q.high[1..])
    case Middle => q.(middle := q.middle[1..], starving := (q.starving + 1) % 256)
    case Low => q.(low := q.low[1..], starving := q.starving / 2)
  }

  class PriorityQueue {
    var high: seq<Packet>
    var middle: seq<Packet>
    var low: seq<Packet>
    var starving: nat
    var length: nat

    ghost function State(): Queues
      reads this
    {
      Queues(high, middle, low, starving)
    }

    ghost predicate Valid()
      reads this
    {
      starving < 256 && length == |high| + |middle| + |low|
    }

    constructor ()
      ensures Valid() && State() == Start()
    {
      high, middle, low, starving, length := [], [], [], 0, 0;
    }

    method Push(p: Packet)
      requires Valid()
      modifies this
      ensures Valid() && State() == Pushed(old(State()), p)
    {
      length := length + 1;
      if p.flag == PING || p.flag == PING_RETURN {
        high := high + [p];
      } else if p.flag == NEW_CONN || p.flag == NEW_CONN_OK || p.flag == NEW_CONN_FAIL {
        middle := middle + [p];
      } else if p.priority {
        middle := middle + [p];
      } else {
        low := low + [p];
      }
    }

    /** TryPop serves exactly the class that Choice names, from its front. */
    method TryPop() returns (r: Option<Packet>)
      requires Valid()
      modifies this
      ensures Valid()
      ensures match Choice(old(State()))
        case None => r == None && State() == old(State())
        case Some(c) => r == Some(old(State()).Of(c)[0]) && State() == Served(old(State()), c)
    {
      if high != [] {
        r, high, length := Some(high[0]), high[1..], length - 1;
        return;
      }
      if starving < MAX_STARVING {
        if middle != [] {
          r, middle, length := Some(middle[0]), middle[1..], length - 1;
          starving := (starving + 1) % 256;
          return;
        }
      }
      if low != [] {
        r, low, length := Some(low[0]), low[1..], length - 1;
        if starving > 0 {
          starving := starving / 2;
        }
        return;
      }
      if starving > 0 {
        if middle != [] {
          r, middle, length := Some(middle[0]), middle[1..], length - 1;
          starving := (starving + 1) % 256;
          return;
        }
      }
      r := None;
    }
  }

  // Runs of pushes and pops.

  datatype Op = Push(p: Packet) | Pop

  function After(q: Queues, op: Op): Queues {
    match op
    case Push(p) => Pushed(q, p)
    case Pop => if Choice(q).Some? then Served(q, Choice(q).value) else q
  }

  function Output(q: Queues, op: Op): seq<Packet> {
    if op.Pop? && Choice(q).Some? then [q.Of(Choice(q).value)[0]] else []
  }

  function Final(ops: seq<Op>): Queues {
    if ops == [] then Start() else After(Final(ops[..|ops| - 1]), ops[|ops| - 1])
  }

  function Inputs(ops: seq<Op>): seq<Packet> {
    if ops == [] then []
    else Inputs(ops[..|ops| - 1]) + (if ops[|ops| - 1].Push? then [ops[|ops| - 1].p] else [])
  }

  function Outputs(ops: seq<Op>): seq<Packet> {
    if ops == [] then []
    else Outputs(ops[..|ops| - 1]) + Output(Final(ops[..|ops| - 1]), ops[|ops| - 1])
  }

  function Keep(ps: seq<Packet>, keep: Packet -> bool): seq<Packet> {
    if ps == [] then []
    else Keep(ps[..|ps| - 1], keep) + (if keep(ps[|ps| - 1]) then [ps[|ps| - 1]] else [])
  }

  lemma {:induction false} KeepAppend(a: seq<Packet>, b: seq<Packet>, keep: Packet -> bool)
    ensures Keep(a + b, keep) == Keep(a, keep) + Keep(b, keep)
  {
    if b == [] {
      assert a + b == a;
    } else {
      assert (a + b)[..|a + b| - 1] == a + b[..|b| - 1];
      KeepAppend(a, b[..|b| - 1], keep);
    }
  }

  lemma KeepOne(p: Packet, keep: Packet -> bool)
    ensures Keep([p], keep) == if keep(p) then [p] else []
  {
    assert [p][..0] == [];
  }

  /** Each class queue holds only its own class. */
  predicate Sorted(q: Queues) {
    && q.starving < 256
    && (forall c: Class, i :: 0 <= i < |q.Of(c)| ==> ClassOf(q.Of(c)[i]) == c)
  }

  lemma AfterSorted(q: Queues, op: Op)
    requires Sorted(q)
    ensures Sorted(After(q, op))
  {
    var t := After(q, op);
    forall c: Class, i | 0 <= i < |t.Of(c)| ensures ClassOf(t.Of(c)[i]) == c {
      if op.Pop? && Choice(q) == Some(c) {
        assert t.Of(c)[i] == q.Of(c)[i + 1];
      } else if i < |q.Of(c)| {
        assert t.Of(c)[i] == q.Of(c)[i];
      }
    }
  }

  lemma {:induction false} FinalSorted(ops: seq<Op>)
    ensures Sorted(Final(ops))
  {
    if ops != [] {
      FinalSorted(ops[..|ops| - 1]);
      AfterSorted(Final(ops[..|ops| - 1]), ops[|ops| - 1]);
    }
  }

  lemma {:induction false} KeepNone(ps: seq<Packet>, keep: Packet -> bool)
    requires forall i :: 0 <= i < |ps| ==> !keep(ps[i])
    ensures Keep(ps, keep) == []
  {
    if ps != [] {
      KeepNone(ps[..|ps| - 1], keep);
    }
  }

  /** Packets picked out within one class leave in push order: what was pushed is what has left, then
      what waits, for every run and every selection inside a class. */
  lemma {:induction false} ClassFifo(ops: seq<Op>, c: Class, keep: Packet -> bool)
    requires forall p: Packet :: keep(p) ==> ClassOf(p) == c
    ensures Keep(Inputs(ops), keep) == Keep(Outputs(ops), keep) + Keep(Final(ops).Of(c), keep)
  {
    if ops != [] {
      var before, op := ops[..|ops| - 1], ops[|ops| - 1];
      ClassFifo(before, c, keep);
      FinalSorted(before);
      var q := Final(before);
      if op.Push? {
        KeepAppend(Inputs(before), [op.p], keep);
        PushFifo(q, op.p, c, keep);
        assert Outputs(ops) == Outputs(before);
        Regroup(Keep(Outputs(before), keep), Keep(q.Of(c), keep), Keep([op.p], keep));
      } else {
        KeepAppend(Outputs(before), Output(q, op), keep);
        PopFifo(q, c, keep);
        assert Inputs(ops) == Inputs(before);
        Regroup(Keep(Outputs(before), keep), Keep(Output(q, op), keep), Keep(After(q, op).Of(c), keep));
      }
    }
  }

  lemma PushFifo(q: Queues, p: Packet, c: Class, keep: Packet -> bool)
    requires forall p: Packet :: keep(p) ==> ClassOf(p) == c
    ensures Keep(Pushed(q, p).Of(c), keep) == Keep(q.Of(c), keep) + Keep([p], keep)
  {
    KeepOne(p, keep);
    if ClassOf(p) == c {
      assert Pushed(q, p).Of(c) == q.Of(c) + [p];
      KeepAppend(q.Of(c), [p], keep);
    } else {
      assert Pushed(q, p).Of(c) == q.Of(c) && !keep(p);
    }
  }

  /** What a pop outputs is what the front of its class loses. */
  lemma PopFifo(q: Queues, c: Class, keep: Packet -> bool)
    requires Sorted(q) && forall p: Packet :: keep(p) ==> ClassOf(p) == c
    ensures Keep(q.Of(c), keep) == Keep(Output(q, Pop), keep) + Keep(After(q, Pop).Of(c), keep)
  {
    if Choice(q).Some? {
      var front := q.Of(Choice(q).value)[0];
      KeepOne(front, keep);
      if Choice(q).value == c {
        assert q.Of(c) == [front] + q.Of(c)[1..];
        KeepAppend([front], q.Of(c)[1..], keep);
      } else {
        assert !keep(front);
      }
    }
  }

  /** The packets of one connection after its set-up: data, acknowledgements and the close. */
  function OfConnection(id: int, priority: bool): Packet -> bool {
    (p: Packet) =>
      && p.id == id && p.priority == priority
      && p.flag !in {PING, PING_RETURN, NEW_CONN, NEW_CONN_OK, NEW_CONN_FAIL}
  }

  /** Data, acknowledgements and the close of a connection with a fixed priority never overtake each other. */
  lemma ConnectionInOrder(ops: seq<Op>, id: int, priority: bool)
    ensures Keep(Outputs(ops), OfConnection(id, priority)) <= Keep(Inputs(ops), OfConnection(id, priority))
  {
    ClassFifo(ops, if priority then Middle else Low, OfConnection(id, priority));
  }

  /** A pop comes back empty-handed exactly when all three classes are empty. */
  lemma EmptyHandedOnlyWhenEmpty(q: Queues)
    ensures Choice(q) == None <==> q.high == [] && q.middle == [] && q.low == []
    ensures Choice(q).Some? ==> q.Of(Choice(q).value) != []
  {
  }

  // Starvation.

  /** Every pop of the window finds the low class waiting, and none serves it. */
  predicate LowPassedOver(q: Queues, ops: seq<Op>)
    decreases |ops|
  {
    ops == [] || ((ops[0].Pop? ==> q.low != [] && Choice(q) != Some(Low)) && LowPassedOver(After(q, ops[0]), ops[1..]))
  }

  predicate MiddlePassedOver(q: Queues, ops: seq<Op>)
    decreases |ops|
  {
    ops == []
    || ((ops[0].Pop? ==> q.middle != [] && Choice(q) != Some(Middle)) && MiddlePassedOver(After(q, ops[0]), ops[1..]))
  }

  function ServedCount(q: Queues, ops: seq<Op>, c: Class): nat
    decreases |ops|
  {
    if ops == [] then 0
    else (if ops[0].Pop? && Choice(q) == Some(c) then 1 else 0) + ServedCount(After(q, ops[0]), ops[1..], c)
  }

  /** However pushes, pings and pops interleave, the low class waits for at most eight middle packets. */
  lemma {:induction false} LowWaitsAtMostEight(q: Queues, ops: seq<Op>)
    requires LowPassedOver(q, ops) && q.starving < 256
    ensures ServedCount(q, ops, Middle) <= Max(0, MAX_STARVING - q.starving)
    decreases |ops|
  {
    if ops != [] {
      LowWaitsAtMostEight(After(q, ops[0]), ops[1..]);
    }
  }

  function Halvings(starving: nat): nat {
    if starving < MAX_STARVING then 0 else 1 + Halvings(starving / 2)
  }

  lemma {:induction false} HalvingsMonotone(a: nat, b: nat)
    requires a <= b
    ensures Halvings(a) <= Halvings(b)
  {
    if b >= MAX_STARVING && a >= MAX_STARVING {
      HalvingsMonotone(a / 2, b / 2);
    }
  }

  /** The middle class waits for at most five low packets, even with the counter at its 8-bit maximum. */
  lemma {:induction false} MiddleWaitsAtMostFive(q: Queues, ops: seq<Op>)
    requires MiddlePassedOver(q, ops) && q.starving < 256
    ensures ServedCount(q, ops, Low) <= Halvings(q.starving) <= 5
    decreases |ops|
  {
    HalvingsMonotone(q.starving, 255);
    assert Halvings(255) == 5 by {
      assert Halvings(31) == 2;
    }
    if ops != [] {
      MiddleWaitsAtMostFive(After(q, ops[0]), ops[1..]);
    }
  }
}
