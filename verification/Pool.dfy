/** The swap-remove pool with round robin and queue order. */
module Pool {
  import opened Common

  const RESET := 0x1000_0000_0000_0000

  /** The list and the position map are inverse. */
  predicate Inverse<T(==)>(list: seq<T>, idx: map<T, int>) {
    && (forall i :: 0 <= i < |list| ==> list[i] in idx && idx[list[i]] == i)
    && (forall v :: v in idx ==> 0 <= idx[v] < |list| && list[idx[v]] == v)
  }

  lemma EmptyTogether<T>(list: seq<T>, idx: map<T, int>)
    requires Inverse(list, idx)
    ensures list == [] <==> idx.Keys == {}
  {
    if list != [] {
      assert list[0] in idx.Keys;
    } else {
      assert forall v :: v !in idx;
    }
  }

  /** Swap-remove: the last element takes the place of the removed one. */
  function Without<T>(list: seq<T>, i: nat): seq<T>
    requires i < |list|
  {
    list[i := list[|list| - 1]][..|list| - 1]
  }

  lemma WithoutInverse<T>(list: seq<T>, idx: map<T, int>, i: nat)
    requires Inverse(list, idx) && i < |list|
    ensures var last := |list| - 1;
      Inverse(Without(list, i), (if i != last then idx[list[last] := i] else idx) - {list[i]})
  {
  }

  // Round robin.

  /** The ticket Next draws: the counter, or 0 when it has passed the reset point. */
  function Ticket(rr: nat): nat {
    if rr > RESET then 0 else rr
  }

  function Advanced(rr: nat): nat {
    if rr > RESET then 0 else rr + 1
  }

  /** What k consecutive calls of Next return. */
  function Picks<T>(list: seq<T>, rr: nat, k: nat): (picks: seq<T>)
    requires list != []
    ensures |picks| == k
    decreases k
  {
    if k == 0 then [] else [list[Ticket(rr) % |list|]] + Picks(list, Advanced(rr), k - 1)
  }

  lemma {:induction false} PicksBeforeReset<T>(list: seq<T>, rr: nat, k: nat, j: nat)
    requires list != [] && j < k && rr + j <= RESET
    ensures Picks(list, rr, k)[j] == list[(rr + j) % |list|]
    decreases j
  {
    if j > 0 {
      PicksBeforeReset(list, rr + 1, k - 1, j - 1);
      assert Picks(list, rr, k)[j] == Picks(list, rr + 1, k - 1)[j - 1];
    }
  }

  lemma PicksFirst<T>(list: seq<T>, rr: nat, k: nat)
    requires list != [] && k > 0
    ensures Picks(list, rr, k)[0] == list[Ticket(rr) % |list|]
    ensures forall j :: 1 <= j < k ==> Picks(list, rr, k)[j] == Picks(list, Advanced(rr), k - 1)[j - 1]
  {
  }

  lemma FirstTicket(n: nat)
    requires n > 0
    ensures 0 % n == 0
  {
    DivModUnique(0, n, 0, 0);
  }

  /** The call that meets the reset point starts over at 0, and so does the call after it. */
  lemma {:induction false} PicksAtReset<T>(list: seq<T>, rr: nat, k: nat, j: nat)
    requires list != [] && j < k && rr + j == RESET + 1
    ensures Picks(list, rr, k)[j] == list[0]
    ensures j + 1 < k ==> Picks(list, rr, k)[j + 1] == list[0]
    decreases j
  {
    PicksFirst(list, rr, k);
    FirstTicket(|list|);
    if j > 0 {
      PicksAtReset(list, rr + 1, k - 1, j - 1);
    } else if k > 1 {
      PicksFirst(list, 0, k - 1);
    }
  }

  /** Adding less than n moves a residue by that much, around n. */
  lemma ModShift(a: nat, j: nat, n: nat)
    requires j < n
    ensures (a + j) % n == if a % n + j < n then a % n + j else a % n + j - n
  {
    var q, r := a / n, a % n;
    assert a == q * n + r;
    if r + j < n {
      DivModUnique(a + j, n, q, r + j);
    } else {
      assert (q + 1) * n == q * n + n;
      DivModUnique(a + j, n, q + 1, r + j - n);
    }
  }

  /** The offset from a at which the residue is m. */
  function Offset(a: nat, m: nat, n: nat): nat
    requires m < n
  {
    if a % n <= m then m - a % n else m + n - a % n
  }

  lemma OffsetHits(a: nat, m: nat, n: nat)
    requires m < n
    ensures Offset(a, m, n) < n && (a + Offset(a, m, n)) % n == m
  {
    ModShift(a, Offset(a, m, n), n);
  }

  lemma NearResiduesDiffer(a: nat, i: nat, j: nat, n: nat)
    requires i < j < n
    ensures (a + i) % n != (a + j) % n
  {
    ModShift(a, i, n);
    ModShift(a, j, n);
  }

  /** n calls on n members return each once while the counter stays below its reset point. */
  lemma RoundRobinBeforeReset<T>(list: seq<T>, rr: nat)
    requires list != [] && Distinct(list) && rr + |list| - 1 <= RESET
    ensures EachOnce(list, Picks(list, rr, |list|))
  {
    var n := |list|;
    var picks := Picks(list, rr, n);
    forall i, j | 0 <= i < j < n ensures picks[i] != picks[j] {
      PicksBeforeReset(list, rr, n, i);
      PicksBeforeReset(list, rr, n, j);
      NearResiduesDiffer(rr, i, j, n);
    }
    forall m | 0 <= m < n ensures list[m] in picks {
      OffsetHits(rr, m, n);
      PicksBeforeReset(list, rr, n, Offset(rr, m, n));
    }
  }

  /** When the last of the n calls is the one that starts over. */
  lemma RoundRobinOntoReset<T>(list: seq<T>, rr: nat)
    requires |list| >= 2 && Distinct(list) && rr + |list| - 1 == RESET + 1
    ensures EachOnce(list, Picks(list, rr, |list|)) <==> (RESET + 1) % |list| == 0
  {
    var n := |list|;
    var picks := Picks(list, rr, n);
    PicksAtReset(list, rr, n, n - 1);
    if (RESET + 1) % n == 0 {
      forall i, j | 0 <= i < j < n ensures picks[i] != picks[j] {
        PicksBeforeReset(list, rr, n, i);
        NearResiduesDiffer(rr, i, j, n);
        if j < n - 1 {
          PicksBeforeReset(list, rr, n, j);
        }
      }
      forall m | 0 <= m < n ensures list[m] in picks {
        OffsetHits(rr, m, n);
        if Offset(rr, m, n) < n - 1 {
          PicksBeforeReset(list, rr, n, Offset(rr, m, n));
        } else {
          assert picks[n - 1] == list[m];
        }
      }
    } else {
      var j := Offset(rr, 0, n);
      OffsetHits(rr, 0, n);
      PicksBeforeReset(list, rr, n, j);
      assert picks[j] == picks[n - 1];
    }
  }

  /** The exact condition: only a round that runs over the reset point is uneven. */
  lemma RoundRobinExact<T>(list: seq<T>, rr: nat)
    requires |list| >= 2 && Distinct(list) && rr <= RESET + 1
    ensures EachOnce(list, Picks(list, rr, |list|)) <==>
      rr + |list| - 1 <= RESET || (rr + |list| - 1 == RESET + 1 && (RESET + 1) % |list| == 0)
  {
    if rr + |list| - 1 <= RESET {
      RoundRobinBeforeReset(list, rr);
    } else if rr + |list| - 1 == RESET + 1 {
      RoundRobinOntoReset(list, rr);
    } else {
      var j := RESET + 1 - rr;
      PicksAtReset(list, rr, |list|, j);
      assert Picks(list, rr, |list|)[j] == Picks(list, rr, |list|)[j + 1];
    }
  }

  // Queue order.

  /** The head after removeAt left n elements. */
  function Clamped(head: nat, n: nat): nat {
    if n <= 1 then 0 else Min(head, n - 1)
  }

  /** The head after Dequeue left n elements. */
  function Moved(head: nat, n: nat): nat {
    if n <= 1 then 0 else if Clamped(head, n) >= n - 1 then n - 1 else Clamped(head, n) + 1
  }

  /** What Dequeue returns until the pool is empty. */
  function Drained<T>(list: seq<T>, head: nat): seq<T>
    decreases |list|
  {
    if list == [] then []
    else
      var i := head % |list|;
      [list[i]] + Drained(Without(list, i), Moved(head, |list| - 1))
  }

  lemma DrainStep<T>(list: seq<T>, head: nat)
    requires head < |list|
    ensures head % |list| == head
    ensures Drained(list, head) == [list[head]] + Drained(Without(list, head), Moved(head, |list| - 1))
  {
    DivModUnique(head, |list|, 0, head);
  }

  /** The list after k of the n elements of a batch have been dequeued: the late half is folded forward. */
  function Folded<T>(batch: seq<T>, k: nat): (list: seq<T>)
    requires k <= |batch|
    ensures |list| == |batch| - k
  {
    seq(|batch| - k, i requires 0 <= i < |batch| - k => if i < k then batch[|batch| - 1 - i] else batch[i])
  }

  function FoldedHead(n: nat, k: nat): nat
    requires k <= n
  {
    if n - k <= 1 then 0 else Min(k, n - k - 1)
  }

  lemma FoldedStep<T>(batch: seq<T>, k: nat)
    requires k < |batch|
    ensures var n, head := |batch| - k, FoldedHead(|batch|, k);
      && head < n && Folded(batch, k)[head] == batch[k]
      && Without(Folded(batch, k), head) == Folded(batch, k + 1)
      && Moved(head, n - 1) == FoldedHead(|batch|, k + 1)
  {
  }

  lemma FoldedUnrolls<T>(batch: seq<T>, k: nat)
    requires k < |batch|
    ensures Drained(Folded(batch, k), FoldedHead(|batch|, k))
      == [batch[k]] + Drained(Folded(batch, k + 1), FoldedHead(|batch|, k + 1))
  {
    FoldedStep(batch, k);
    DrainStep(Folded(batch, k), FoldedHead(|batch|, k));
  }

  lemma {:induction false} FoldedDrains<T>(batch: seq<T>, k: nat)
    requires k <= |batch|
    ensures Drained(Folded(batch, k), FoldedHead(|batch|, k)) == batch[k..]
    decreases |batch| - k
  {
    if k < |batch| {
      FoldedUnrolls(batch, k);
      FoldedDrains(batch, k + 1);
      assert batch[k..] == [batch[k]] + batch[k + 1..];
    }
  }

  /** A batch pushed into an empty pool is dequeued in push order, although every removal swaps. */
  lemma BatchIsFifo<T>(batch: seq<T>)
    ensures Drained(batch, 0) == batch
  {
    FoldedDrains(batch, 0);
    assert Folded(batch, 0) == batch && batch[0..] == batch;
  }

  /** With the head away from the front, the front element is drained last. */
  lemma {:induction false} FrontDrainsLast<T>(list: seq<T>, head: nat)
    requires list != [] && (if |list| == 1 then head == 0 else 1 <= head < |list|)
    ensures Drained(list, head) != [] && Drained(list, head)[|Drained(list, head)| - 1] == list[0]
    decreases |list|
  {
    DrainStep(list, head);
    if |list| > 1 {
      FrontDrainsLast(Without(list, head), Moved(head, |list| - 1));
    }
  }

  lemma FoldedInOrder<T>(batch: seq<T>, k: nat)
    requires k <= |batch| && (k == 0 || |batch| - k <= 1)
    ensures Folded(batch, k) == batch[k..] && FoldedHead(|batch|, k) == 0
  {
  }

  lemma LatePushInOrder<T>(batch: seq<T>, k: nat, x: T)
    requires k <= |batch| && (k == 0 || |batch| - k <= 1)
    ensures Drained(Folded(batch, k) + [x], FoldedHead(|batch|, k)) == batch[k..] + [x]
  {
    FoldedInOrder(batch, k);
    BatchIsFifo(batch[k..] + [x]);
  }

  lemma LatePushOvertakes<T>(batch: seq<T>, k: nat, x: T)
    requires 1 <= k <= |batch| - 2 && x !in batch
    ensures Drained(Folded(batch, k) + [x], FoldedHead(|batch|, k)) != batch[k..] + [x]
  {
    var list := Folded(batch, k) + [x];
    assert list[0] == Folded(batch, k)[0] == batch[|batch| - 1];
    assert batch[|batch| - 1] in batch;
    FrontDrainsLast(list, FoldedHead(|batch|, k));
    LastOf(batch[k..], x);
  }

  lemma LastOf<T>(s: seq<T>, x: T)
    ensures (s + [x])[|s + [x]| - 1] == x
  {
  }

  /** An element pushed after k of a batch have been dequeued comes out after the rest of the batch if and only
      if none has been dequeued or at most one is left. */
  lemma LatePushExactly<T>(batch: seq<T>, k: nat, x: T)
    requires k <= |batch| && x !in batch
    ensures Drained(Folded(batch, k) + [x], FoldedHead(|batch|, k)) == batch[k..] + [x]
      <==> k == 0 || |batch| - k <= 1
  {
    if k == 0 || |batch| - k <= 1 {
      LatePushInOrder(batch, k, x);
    } else {
      LatePushOvertakes(batch, k, x);
    }
  }

  class Pool<T(0, ==)> {
    var rr: nat
    var head: nat
    var list: seq<T>
    var idx: map<T, int>

    ghost predicate Valid()
      reads this
    {
      Inverse(list, idx) && (head == 0 || head < |list|) && rr <= RESET + 1
    }

    constructor ()
      ensures Valid() && list == [] && head == 0 && rr == 0
    {
      rr, head, list, idx := 0, 0, [], map[];
    }

    method Add(v: T)
      requires Valid()
      modifies this`list, this`idx
      ensures Valid() && idx.Keys == old(idx.Keys) + {v}
      ensures list == if v in old(idx) then old(list) else old(list) + [v]
    {
      if v !in idx {
        list := list + [v];
        idx := idx[v := |list| - 1];
      }
    }

    method RemoveAt(i: nat)
      requires Valid() && i < |list|
      modifies this`list, this`idx, this`head
      ensures Valid() && idx.Keys == old(idx.Keys) - {old(list[i])}
      ensures list == Without(old(list), i) && head == Clamped(old(head), |list|)
    {
      WithoutInverse(list, idx, i);
      var last := |list| - 1;
      var v := list[i];
      if i != last {
        list := list[i := list[last]];
        idx := idx[list[i] := i];
      }
      list := list[..last];
      idx := idx - {v};
      if last <= 1 {
        head := 0;
        return;
      }
      var lastIdx := last - 1;
      if head > lastIdx {
        head := lastIdx;
      }
    }

    method Remove(v: T)
      requires Valid()
      modifies this`list, this`idx, this`head
      ensures Valid() && idx.Keys == old(idx.Keys) - {v}
      ensures list == if v in old(idx) then Without(old(list), old(idx[v])) else old(list)
      ensures v in old(idx) ==> |list| == |old(list)| - 1
    {
      if v in idx {
        RemoveAt(idx[v]);
        if |list| == 0 {
          head := 0;
        }
      }
    }

    /** Pop takes the newest position. */
    method Pop() returns (v: T, ok: bool)
      requires Valid()
      modifies this`list, this`idx, this`head
      ensures Valid() && ok == (old(list) != [])
      ensures ok ==> old(list) == list + [v]
      ensures !ok ==> list == []
    {
      v, ok := *, false;
      var n := |list|;
      if n > 0 {
        v, ok := list[n - 1], true;
        RemoveAt(n - 1);
        if |list| == 0 {
          head := 0;
        }
      }
    }

    method Dequeue() returns (v: T, ok: bool)
      requires Valid()
      modifies this`list, this`idx, this`head
      ensures Valid() && ok == (old(list) != [])
      ensures ok ==> [v] + Drained(list, head) == old(Drained(list, head))
      ensures !ok ==> list == []
    {
      v, ok := *, false;
      var n := |list|;
      if n == 0 {
        return;
      }
      DrainStep(list, head);
      var i := head % n;
      v, ok := list[i], true;
      ghost var was := head;
      RemoveAt(i);
      MoveHead(n, was);
    }

    /** The end of Dequeue, for the n elements there were before. */
    method MoveHead(n: nat, ghost was: nat)
      requires Valid() && |list| == n - 1 && head == Clamped(was, n - 1)
      modifies this`head
      ensures Valid() && head == Moved(was, n - 1)
    {
      if n <= 2 {
        head := 0;
        return;
      }
      var last := n - 2;
      if head >= last {
        head := last;
      } else {
        head := head + 1;
      }
    }

    /** Next advances the round robin. */
    method Next() returns (v: T, ok: bool)
      requires Valid()
      modifies this`rr
      ensures Valid() && ok == (list != []) == (idx.Keys != {})
      ensures ok ==> rr == Advanced(old(rr)) && [v] == Picks(list, old(rr), 1)
      ensures ok ==> forall k: nat :: Picks(list, old(rr), k + 1) == [v] + Picks(list, rr, k)
      ensures ok ==> v in idx
      ensures !ok ==> rr == old(rr)
    {
      v, ok := *, false;
      EmptyTogether(list, idx);
      var n := |list|;
      if n > 0 {
        rr := rr + 1;
        var i := rr - 1;
        if i > RESET {
          rr := 0;
          i := 0;
        }
        v, ok := list[i % n], true;
      }
    }

    /** Random, with the number drawn as a parameter. */
    method Random(draw: nat) returns (v: T, ok: bool)
      requires Valid() && (list != [] ==> draw < |list|)
      ensures ok == (list != []) == (idx.Keys != {}) && (ok ==> v == list[draw] && v in idx)
    {
      EmptyTogether(list, idx);
      v, ok := *, false;
      if |list| > 0 {
        v, ok := list[draw], true;
      }
    }
  }
}
