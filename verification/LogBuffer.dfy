/** The circular buffer that keeps the most recent log bytes. */
module LogBuffer {
  import opened Common

  const DEFAULT_CAPACITY := 65536

  /** The last n elements. */
  function Last(s: seq<Byte>, n: nat): seq<Byte> {
    if |s| <= n then s else s[|s| - n..]
  }

  /** Bytes that a write pushes out are never needed again. */
  lemma LastOfLast(a: seq<Byte>, b: seq<Byte>, n: nat)
    ensures Last(Last(a, n) + b, n) == Last(a + b, n)
  {
  }

  /** Last, by how much of the newer part fits. */
  lemma LastByCases(a: seq<Byte>, p: seq<Byte>, n: nat)
    requires |a| <= n
    ensures |p| >= n ==> Last(a + p, n) == p[|p| - n..]
    ensures |p| < n && |a| + |p| > n ==> Last(a + p, n) == a[|a| + |p| - n..] + p
    ensures |a| + |p| <= n ==> Last(a + p, n) == a + p
  {
  }

  function Wrap(x: nat, capacity: nat): nat {
    if x < capacity then x else x - capacity
  }

  lemma WrapOnce(x: nat, capacity: nat)
    requires x < 2 * capacity
    ensures x % capacity == Wrap(x, capacity)
  {
    if x >= capacity {
      assert x == 1 * capacity + (x - capacity);
    }
  }

  /** A stretch of a ring, read from start. */
  function Stretch(ring: seq<Byte>, start: nat, size: nat): (s: seq<Byte>)
    requires start < |ring| && size <= |ring|
    ensures |s| == size && forall i :: 0 <= i < size ==> s[i] == ring[Wrap(start + i, |ring|)]
  {
    seq(size, i requires 0 <= i < size => ring[Wrap(start + i, |ring|)])
  }

  lemma StretchDrops(ring: seq<Byte>, start: nat, size: nat, drop: nat)
    requires start < |ring| && size <= |ring| && drop <= size
    ensures Stretch(ring, Wrap(start + drop, |ring|), size - drop) == Stretch(ring, start, size)[drop..]
  {
    var after := Stretch(ring, Wrap(start + drop, |ring|), size - drop);
    var before := Stretch(ring, start, size);
    forall i | 0 <= i < size - drop ensures after[i] == before[drop + i] {
      assert Wrap(Wrap(start + drop, |ring|) + i, |ring|) == Wrap(start + (drop + i), |ring|);
    }
  }

  /** What writing p at pos leaves at place k: the part beyond the end lands at the beginning. */
  function WrittenAt(ring: seq<Byte>, pos: nat, p: seq<Byte>, k: nat): Byte
    requires pos < |ring| && |p| < |ring| && k < |ring|
  {
    if pos <= k < pos + |p| then p[k - pos]
    else if k + |ring| < pos + |p| then p[k + |ring| - pos]
    else ring[k]
  }

  lemma KeptAt(ring: seq<Byte>, start: nat, size: nat, p: seq<Byte>, i: nat)
    requires start < |ring| && size + |p| <= |ring| && |p| < |ring| && i < size
    ensures WrittenAt(ring, Wrap(start + size, |ring|), p, Wrap(start + i, |ring|)) == ring[Wrap(start + i, |ring|)]
  {
  }

  lemma AddedAt(ring: seq<Byte>, start: nat, size: nat, p: seq<Byte>, i: nat)
    requires start < |ring| && size + |p| <= |ring| && |p| < |ring| && i < |p|
    ensures Wrap(start + (size + i), |ring|) < |ring|
    ensures WrittenAt(ring, Wrap(start + size, |ring|), p, Wrap(start + (size + i), |ring|)) == p[i]
  {
  }

  /** Write appends to the stretch. */
  lemma StretchGrows(ring: seq<Byte>, next: seq<Byte>, start: nat, size: nat, p: seq<Byte>)
    requires start < |ring| && size + |p| <= |ring| && |p| < |ring| && |next| == |ring|
    requires forall k :: 0 <= k < |ring| ==> next[k] == WrittenAt(ring, Wrap(start + size, |ring|), p, k)
    ensures Stretch(next, start, size + |p|) == Stretch(ring, start, size) + p
  {
    var before, after := Stretch(ring, start, size), Stretch(next, start, size + |p|);
    forall i | 0 <= i < size ensures after[i] == before[i] {
      KeptAt(ring, start, size, p, i);
    }
    forall i | 0 <= i < |p| ensures after[size + i] == p[i] {
      AddedAt(ring, start, size, p, i);
    }
    SplitEqual(after, before, p);
  }

  lemma SplitEqual(s: seq<Byte>, a: seq<Byte>, b: seq<Byte>)
    requires |s| == |a| + |b|
    requires forall i :: 0 <= i < |a| ==> s[i] == a[i]
    requires forall i :: 0 <= i < |b| ==> s[|a| + i] == b[i]
    ensures s == a + b
  {
    forall k | |a| <= k < |s| ensures s[k] == b[k - |a|] {
      assert s[|a| + (k - |a|)] == b[k - |a|];
    }
  }

  class BufferWriter {
    const buf: array<Byte>
    const capacity: nat
    var start: nat
    var size: nat

    ghost predicate Valid()
      reads this
    {
      buf.Length == capacity && start < capacity && size <= capacity
    }

    ghost function Contents(): seq<Byte>
      requires Valid()
      reads this, buf
    {
      Stretch(buf[..], start, size)
    }

    constructor (wanted: int)
      ensures Valid() && fresh(buf) && Contents() == []
      ensures capacity == if wanted <= 0 then DEFAULT_CAPACITY else wanted
    {
      var n := if wanted <= 0 then DEFAULT_CAPACITY else wanted;
      capacity := n;
      buf := new Byte[n](_ => 0);
      start, size := 0, 0;
    }

    /** The buffer holds the last bytes of what it held followed by what is written. */
    method Write(p: seq<Byte>) returns (n: nat)
      requires Valid()
      modifies this, buf
      ensures Valid() && n == |p|
      ensures Contents() == Last(old(Contents()) + p, capacity)
    {
      n := |p|;
      ghost var held := Contents();
      LastByCases(held, p, capacity);
      if |p| >= capacity {
        Overwrite(p[|p| - capacity..]);
        return;
      }
      if size + |p| > capacity {
        Drop(size + |p| - capacity);
      }
      Append(p);
    }

    method Overwrite(p: seq<Byte>)
      requires Valid() && |p| == capacity
      modifies this, buf
      ensures Valid() && Contents() == p
    {
      var _ := CopyInto(buf, 0, p);
      start, size := 0, capacity;
      assert buf[..] == p;
    }

    /** The oldest bytes give way. */
    method Drop(drop: nat)
      requires Valid() && drop <= size
      modifies this
      ensures Valid() && Contents() == old(Contents())[drop..] && size == old(size) - drop
    {
      StretchDrops(buf[..], start, size, drop);
      WrapOnce(start + drop, capacity);
      start := (start + drop) % capacity;
      size := size - drop;
    }

    method Append(p: seq<Byte>)
      requires Valid() && size + |p| <= capacity && |p| < capacity
      modifies this`size, buf
      ensures Valid() && Contents() == old(Contents()) + p
    {
      ghost var ring := buf[..];
      WrapOnce(start + size, capacity);
      CopyTwice((start + size) % capacity, p);
      StretchGrows(ring, buf[..], start, size, p);
      size := size + |p|;
    }

    /** The copies of Write: up to the end of the buffer, then from its beginning. */
    method CopyTwice(pos: nat, p: seq<Byte>)
      requires buf.Length == capacity && pos < capacity && |p| < capacity
      modifies buf
      ensures forall k :: 0 <= k < capacity ==> buf[k] == WrittenAt(old(buf[..]), pos, p, k)
    {
      var written := CopyInto(buf, pos, p);
      if written < |p| {
        var _ := CopyInto(buf, 0, p[written..]);
      }
    }

    /** GetAndClear. */
    method GetAndClear() returns (s: seq<Byte>)
      requires Valid()
      modifies this
      ensures Valid() && s == old(Contents()) && Contents() == []
    {
      if size == 0 {
        return [];
      }
      if start + size <= capacity {
        s := buf[start..start + size];
      } else {
        var tmp := new Byte[size](_ => 0);
        var n := CopyInto(tmp, 0, buf[start..]);
        var _ := CopyInto(tmp, n, buf[..size - n]);
        s := tmp[..];
      }
      start, size := 0, 0;
    }
  }

  // Whole runs.

  datatype Op = Put(bytes: seq<Byte>) | Take

  /** The contents after a run of the buffer, as Write and GetAndClear leave them. */
  function Held(ops: seq<Op>, capacity: nat): seq<Byte> {
    if ops == [] then []
    else match ops[|ops| - 1]
      case Put(p) => Last(Held(ops[..|ops| - 1], capacity) + p, capacity)
      case Take => []
  }

  /** Everything written since the last read. */
  function Pending(ops: seq<Op>): seq<Byte> {
    if ops == [] then []
    else match ops[|ops| - 1]
      case Put(p) => Pending(ops[..|ops| - 1]) + p
      case Take => []
  }

  /** A reader gets exactly the last bytes written since the previous read, as many as fit. */
  lemma {:induction false} HeldIsLastPending(ops: seq<Op>, capacity: nat)
    ensures Held(ops, capacity) == Last(Pending(ops), capacity)
    decreases |ops|
  {
    if ops != [] {
      HeldIsLastPending(ops[..|ops| - 1], capacity);
      match ops[|ops| - 1]
      case Put(p) => LastOfLast(Pending(ops[..|ops| - 1]), p, capacity);
      case Take =>
    }
  }
}
