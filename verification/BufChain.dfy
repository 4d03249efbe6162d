/** The chain of doubling rings behind every queue of the multiplexer, used by one goroutine at a time.
    It behaves as one unbounded first-in first-out queue. */
module BufChain {
  import opened Common
  import opened MuxWord

  /** A non-nil pointer. */
  type Item = int

  /** What the slot k places after the tail holds. */
  function Wanted(items: seq<Item>, k: nat): Option<Item> {
    if k < |items| then Some(items[k]) else None
  }

  /** From place k on, the slots hold the items in order and then nil. */
  predicate Holds(vals: seq<Option<Item>>, at: nat, items: seq<Item>, k: nat)
    requires at < |vals| && k <= |vals|
    decreases |vals| - k
  {
    k == |vals| || (vals[Place(at, k, |vals|)] == Wanted(items, k) && Holds(vals, at, items, k + 1))
  }

  predicate HoldsEach(vals: seq<Option<Item>>, at: nat, items: seq<Item>, k: nat)
    requires at < |vals|
  {
    forall i :: k <= i < |vals| ==> vals[Place(at, i, |vals|)] == Wanted(items, i)
  }

  lemma {:induction false} HoldsIsEach(vals: seq<Option<Item>>, at: nat, items: seq<Item>, k: nat)
    requires at < |vals| && k <= |vals|
    ensures Holds(vals, at, items, k) <==> HoldsEach(vals, at, items, k)
    decreases |vals| - k
  {
    if k < |vals| {
      HoldsIsEach(vals, at, items, k + 1);
      assert HoldsEach(vals, at, items, k)
        <==> vals[Place(at, k, |vals|)] == Wanted(items, k) && HoldsEach(vals, at, items, k + 1);
    }
  }

  lemma HoldsPush(vals: seq<Option<Item>>, at: nat, items: seq<Item>, x: Item)
    requires at < |vals| && Holds(vals, at, items, 0) && |items| < |vals|
    ensures Holds(vals[Place(at, |items|, |vals|) := Some(x)], at, items + [x], 0)
  {
    HoldsIsEach(vals, at, items, 0);
    HoldsIsEach(vals[Place(at, |items|, |vals|) := Some(x)], at, items + [x], 0);
  }

  lemma HoldsPop(vals: seq<Option<Item>>, at: nat, items: seq<Item>)
    requires at < |vals| && Holds(vals, at, items, 0) && 0 < |items| <= |vals|
    ensures vals[at] == Some(items[0])
    ensures Holds(vals[at := None], Place(at, 1, |vals|), items[1..], 0)
  {
    var n := |vals|;
    assert Place(at, 0, n) == at;
    var left, next := vals[at := None], Place(at, 1, n);
    HoldsIsEach(vals, at, items, 0);
    HoldsIsEach(left, next, items[1..], 0);
    forall i | 0 <= i < n ensures left[Place(next, i, n)] == Wanted(items[1..], i) {
      if i < n - 1 {
        assert Place(next, i, n) == Place(at, i + 1, n);
      }
    }
  }

  /** 32-bit addition of a small number. */
  function Wrap32(x: nat): U32
    requires x < 2 * B32
  {
    if x < B32 then x else x - B32
  }

  lemma WrapIsMask(x: nat)
    requires x < 2 * B32
    ensures Wrap32(x) == Mask32(x)
  {
    if x < B32 {
      MaskSmall(x);
    } else {
      DivModUnique(x, B32, 1, x - B32);
    }
  }

  /** The head slot lies as many places after the tail slot as there are items, across 32-bit wrap-around. */
  lemma HeadSlot(low: U32, used: nat, n: nat)
    requires RingSize(n) && used <= n
    ensures n > 0 && n <= RING_LIMIT && low + used < 2 * B32
    ensures Slot(low, n) < n
    ensures Slot(Wrap32(low + used), n) == Place(Slot(low, n), used, n)
  {
    var _ := RingSizeDivides(n);
    WrapIsMask(low + used);
    SlotOfWrapped(low + used, n);
    SlotMoves(low, used, n);
  }

  /** bufChainElt: a ring and the link to the next one.  The two halves of the index word are the head
      and the tail.  The backward link is never followed and is left out. */
  class Elt {
    var index: Halves
    const vals: array<Option<Item>>
    var next: Elt?
    ghost var items: seq<Item>

    ghost predicate Valid()
      reads this`index, this`items, vals
    {
      && RingSize(vals.Length)
      && 0 < vals.Length && |items| <= vals.Length <= RING_LIMIT
      && index.high == Wrap32(index.low + |items|)
      && Slot(index.low, vals.Length) < vals.Length
      && Holds(vals[..], Slot(index.low, vals.Length), items, 0)
    }

    constructor (size: nat)
      requires RingSize(size)
      ensures Valid() && fresh(vals) && items == [] && next == null && vals.Length == size
    {
      HeadSlot(0, 0, size);
      vals := new Option<Item>[size](_ => None);
      index, next, items := Halves(0, 0), null, [];
      new;
      HoldsIsEach(vals[..], Slot(0, size), [], 0);
    }

    /** bufDequeue.pushHead: refuses exactly when every slot is in use. */
    method PushHead(val: Item) returns (ok: bool)
      requires Valid()
      modifies this`index, this`items, vals
      ensures Valid()
      ensures ok == (|old(items)| < vals.Length)
      ensures items == if ok then old(items) + [val] else old(items)
    {
      var n := vals.Length;
      HeadSlot(index.low, |items|, n);
      WrapIsMask(index.low + n);
      if Mask32(index.low + n) == index.high {
        return false;
      }
      HoldsPush(vals[..], Slot(index.low, n), items, val);
      WrapIsMask(index.high + 1);
      vals[Slot(index.high, n)] := Some(val);
      index := index.(high := Mask32(index.high + 1));
      items := items + [val];
      return true;
    }

    /** bufDequeue.popTail: fails exactly on an empty ring. */
    method PopTail() returns (r: Option<Item>)
      requires Valid()
      modifies this`index, this`items, vals
      ensures Valid()
      ensures old(items) == [] ==> r == None && items == []
      ensures old(items) != [] ==> r == Some(old(items)[0]) && items == old(items)[1..]
    {
      if index.low == index.high {
        return None;
      }
      var n := vals.Length;
      var slot := Slot(index.low, n);
      HoldsPop(vals[..], slot, items);
      HeadSlot(index.low, 1, n);
      r := vals[slot];
      vals[slot] := None;
      AdvanceTail(index);
      WrapIsMask(index.low + 1);
      index := UnpackHalves(Add64(PackHalves(index.high, index.low), TailStep(index.low)));
      items := items[1..];
    }
  }

  function Flatten(parts: seq<seq<Item>>): seq<Item> {
    if parts == [] then [] else parts[0] + Flatten(parts[1..])
  }

  lemma {:induction false} FlattenExtendLast(parts: seq<seq<Item>>, x: Item)
    requires parts != []
    ensures Flatten(parts[|parts| - 1 := parts[|parts| - 1] + [x]]) == Flatten(parts) + [x]
  {
    var more := parts[|parts| - 1 := parts[|parts| - 1] + [x]];
    if |parts| == 1 {
      assert more[1..] == [] && parts[1..] == [];
    } else {
      FlattenExtendLast(parts[1..], x);
      assert more[1..] == parts[1..][|parts| - 2 := parts[|parts| - 1] + [x]];
    }
  }

  lemma {:induction false} FlattenAppend(parts: seq<seq<Item>>, part: seq<Item>)
    ensures Flatten(parts + [part]) == Flatten(parts) + part
  {
    if parts == [] {
      assert parts + [part] == [part] && [part][1..] == [];
    } else {
      assert (parts + [part])[1..] == parts[1..] + [part];
      FlattenAppend(parts[1..], part);
    }
  }

  /** The rings share no memory. */
  ghost predicate Separate(elts: seq<Elt>) {
    forall i, j :: 0 <= i < j < |elts| ==> elts[i] != elts[j] && elts[i].vals != elts[j].vals
  }

  lemma Apart(elts: seq<Elt>, k: nat)
    requires Separate(elts) && k < |elts|
    ensures forall i :: 0 <= i < |elts| && i != k ==> elts[i] != elts[k] && elts[i].vals != elts[k].vals
  {
  }

  lemma SeparateAppend(elts: seq<Elt>, e: Elt)
    requires Separate(elts)
    requires forall i :: 0 <= i < |elts| ==> elts[i] != e && elts[i].vals != e.vals
    ensures Separate(elts + [e])
  {
  }

  /** bufChain: rings linked from the oldest, popped from, to the newest, pushed to. */
  class Chain {
    var head: Elt
    var tail: Elt
    ghost var elts: seq<Elt>
    ghost var parts: seq<seq<Item>>
    ghost var repr: set<object>

    ghost predicate Owned()
      reads this
    {
      && this in repr
      && elts != [] && |parts| == |elts|
      && Separate(elts)
      && (forall i :: 0 <= i < |elts| ==> elts[i] in repr && elts[i].vals in repr)
      && tail == elts[0] && head == elts[|elts| - 1]
    }

    ghost predicate Linked()
      reads this, repr
    {
      && Owned()
      && head.next == null
      && (forall i :: 0 <= i < |elts| - 1 ==> elts[i].next == elts[i + 1])
    }

    ghost predicate Rings()
      reads this, repr
    {
      && Owned()
      && (forall i :: 0 <= i < |elts| ==> elts[i].Valid() && elts[i].items == parts[i])
    }

    /** Every ring is valid, so its size is a power of two up to the limit. */
    ghost predicate Valid()
      reads this, repr
    {
      Linked() && Rings()
    }

    /** The queue the chain stands for. */
    ghost function Queue(): seq<Item>
      reads this
    {
      Flatten(parts)
    }

    constructor (size: nat)
      requires RingSize(size)
      ensures Valid() && Queue() == [] && fresh(repr)
    {
      var d := new Elt(size);
      head, tail := d, d;
      elts, parts := [d], [[]];
      repr := {this, d, d.vals};
    }

    /** Links a ring after the newest one. */
    method Append(d2: Elt)
      requires Valid() && d2.Valid() && d2.next == null
      requires d2 !in repr && d2.vals !in repr
      modifies this, head`next
      ensures Valid() && elts == old(elts) + [d2] && parts == old(parts) + [d2.items] && head == d2
      ensures repr == old(repr) + {d2, d2.vals}
    {
      SeparateAppend(elts, d2);
      var d := head;
      head := d2;
      d.next := d2;
      elts, parts, repr := elts + [d2], parts + [d2.items], repr + {d2, d2.vals};
      OwnedExtended(d2);
      LinkedExtended(d2);
      RingsExtended(d2);
    }

    twostate lemma OwnedExtended(d2: Elt)
      requires old(Owned()) && Separate(elts) && this in repr
      requires elts == old(elts) + [d2] && parts == old(parts) + [d2.items] && repr == old(repr) + {d2, d2.vals}
      requires head == d2 && tail == old(tail)
      ensures Owned()
    {
    }

    twostate lemma LinkedExtended(d2: Elt)
      requires old(Linked()) && Owned() && elts == old(elts) + [d2]
      requires d2.next == null && old(head).next == d2
      requires forall e: Elt :: e in old(elts) && e != old(head) ==> unchanged(e`next)
      ensures Linked()
    {
      forall i | 0 <= i < |elts| - 1 ensures elts[i].next == elts[i + 1] {
        assert elts[i] == old(elts)[i] && elts[i] in old(elts);
        if i < |old(elts)| - 1 {
          assert elts[i] != old(head);
        }
      }
    }

    /** Linking a valid ring leaves the others valid. */
    twostate lemma RingsExtended(d2: Elt)
      requires old(Rings()) && Owned() && elts == old(elts) + [d2] && parts == old(parts) + [d2.items] && d2.Valid()
      requires forall e: Elt :: e in old(elts) ==> unchanged(e`index) && unchanged(e`items) && unchanged(e.vals)
      ensures Rings()
    {
    }

    /** Work on one ring leaves the others valid. */
    twostate lemma RingsKept(k: nat)
      requires old(Rings()) && k < |elts| && Owned() && elts == old(elts)
      requires elts[k].Valid() && elts[k].items == parts[k]
      requires forall i :: 0 <= i < |elts| && i != k ==>
        parts[i] == old(parts)[i] && unchanged(elts[i]) && unchanged(elts[i].vals)
      ensures Rings()
    {
    }

    /** Work inside rings leaves the links. */
    twostate lemma LinksKept()
      requires old(Linked()) && Owned() && elts == old(elts) && head == old(head)
      requires forall e: Elt :: e in elts ==> unchanged(e`next)
      ensures Linked()
    {
      forall i | 0 <= i < |elts| ensures elts[i].next == old(elts[i].next) {
        assert elts[i] in elts;
      }
      assert head == elts[|elts| - 1];
    }

    /** Pushes into the newest ring if it has a free slot. */
    method TryPush(val: Item) returns (ok: bool)
      requires Valid()
      modifies this`parts, head`index, head`items, head.vals
      ensures Valid()
      ensures ok ==> parts == old(parts)[|elts| - 1 := old(parts)[|elts| - 1] + [val]]
      ensures !ok ==> parts == old(parts)
    {
      ghost var last := |elts| - 1;
      assert elts[last].items == parts[last];
      Apart(elts, last);
      ok := head.PushHead(val);
      parts := parts[last := head.items];
      LinksKept();
      RingsKept(last);
    }

    /** Adds a ring of twice the size, up to the limit, holding the item. */
    method Grow(val: Item)
      requires Valid()
      modifies this, head`next
      ensures Valid() && parts == old(parts) + [[val]] && fresh(repr - old(repr))
      ensures head.vals.Length == NextSize(old(head.vals.Length))
    {
      NextSizeIsRingSize(head.vals.Length);
      var size := if head.vals.Length * 2 >= RING_LIMIT then RING_LIMIT else head.vals.Length * 2;
      var d2 := NewRing(size, val);
      Append(d2);
    }

    /** bufChain.pushHead: appends, growing by a ring of twice the size when the newest is full. */
    method PushHead(val: Item)
      requires Valid()
      modifies repr
      ensures Valid() && Queue() == old(Queue()) + [val] && fresh(repr - old(repr))
    {
      FlattenExtendLast(parts, val);
      FlattenAppend(parts, [val]);
      var ok := TryPush(val);
      if !ok {
        Grow(val);
      }
    }

    /** Pops from the oldest ring. */
    method TryPop() returns (r: Option<Item>)
      requires Valid()
      modifies this`parts, tail`index, tail`items, tail.vals
      ensures Valid()
      ensures old(parts)[0] == [] ==> r == None && parts == old(parts)
      ensures old(parts)[0] != [] ==> r == Some(old(parts)[0][0]) && parts == old(parts)[0 := old(parts)[0][1..]]
    {
      assert elts[0].items == parts[0];
      Apart(elts, 0);
      r := tail.PopTail();
      parts := parts[0 := tail.items];
      LinksKept();
      RingsKept(0);
    }

    /** Drops the oldest ring, once drained, in favour of the next. */
    method DropTail(d2: Elt)
      requires Valid() && tail.next == d2 && parts[0] == []
      modifies this
      ensures Valid() && |old(elts)| > 1 && elts == old(elts)[1..] && parts == old(parts)[1..] && repr == old(repr)
    {
      tail := d2;
      elts, parts := elts[1..], parts[1..];
    }

    /** bufChain.popTail: takes the oldest item, dropping drained rings; fails exactly on an empty queue. */
    method PopTail() returns (r: Option<Item>)
      requires Valid()
      modifies repr
      ensures Valid() && repr == old(repr)
      ensures old(Queue()) == [] ==> r == None && Queue() == []
      ensures old(Queue()) != [] ==> r == Some(old(Queue())[0]) && Queue() == old(Queue())[1..]
    {
      while true
        invariant Valid() && repr == old(repr)
        invariant Queue() == old(Queue())
        decreases |elts|
      {
        var d2 := tail.next;
        FlattenPop(parts);
        r := TryPop();
        if r.Some? {
          return;
        }
        if d2 == null {
          assert |elts| == 1;
          return;
        }
        DropTail(d2);
      }
    }
  }

  lemma DropFirst(a: seq<Item>, b: seq<Item>)
    requires a != []
    ensures (a + b)[0] == a[0] && (a + b)[1..] == a[1..] + b
  {
  }

  /** The first item of a queue cut into parts, when the first part has one or is the only one. */
  lemma FlattenPop(parts: seq<seq<Item>>)
    requires parts != []
    ensures parts[0] == [] ==> Flatten(parts) == Flatten(parts[1..])
    ensures parts[0] == [] && |parts| == 1 ==> Flatten(parts) == []
    ensures parts[0] != [] ==>
      Flatten(parts) != [] && Flatten(parts)[0] == parts[0][0]
      && Flatten(parts[0 := parts[0][1..]]) == Flatten(parts)[1..]
  {
    if parts[0] != [] {
      var less := parts[0 := parts[0][1..]];
      assert less[1..] == parts[1..];
      DropFirst(parts[0], Flatten(parts[1..]));
    } else {
      assert [] + Flatten(parts[1..]) == Flatten(parts[1..]);
    }
  }

  /** A fresh ring already holding one item. */
  method NewRing(size: nat, val: Item) returns (d: Elt)
    requires RingSize(size)
    ensures fresh(d) && fresh(d.vals) && d.Valid() && d.next == null && d.items == [val] && d.vals.Length == size
  {
    d := new Elt(size);
    var _ := d.PushHead(val);
  }
}
