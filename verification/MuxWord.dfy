/** The 64-bit words the multiplexer changes only by compare-and-swap.
    A window word holds a wait bit, a 31-bit window size, one unused bit and a 31-bit byte counter.
    A queue word holds two 32-bit halves.  Shifts and masks are written as products,
    quotients and remainders of powers of two. */
module MuxWord {
  import opened Common

  const B31: nat := 0x8000_0000
  const B32: nat := 0x1_0000_0000
  const B63: nat := 0x8000_0000_0000_0000
  const B64: nat := 0x1_0000_0000_0000_0000

  type U31 = x: int | 0 <= x < 0x8000_0000
  type U32 = x: int | 0 <= x < 0x1_0000_0000

  /** What a window word holds. */
  datatype Window = Window(maxSize: U31, done: U31, wait: bool)

  /** The mask 1<<31 - 1. */
  function Mask31(x: nat): U31 {
    x % 0x8000_0000
  }

  function Mask32(x: nat): U32 {
    x % 0x1_0000_0000
  }

  /** window.pack: both numbers are masked to 31 bits. */
  function Pack(maxSize: nat, done: nat, wait: bool): nat {
    (if wait then B63 else 0) + Mask31(maxSize) * B32 + Mask31(done)
  }

  /** window.unpack. */
  function Unpack(word: nat): Window {
    Window(Mask31(word / B32), Mask31(word), (word / B63) % 2 == 1)
  }

  /** The contents of the word that pack builds. */
  function Packed(maxSize: nat, done: nat, wait: bool): Window {
    Window(Mask31(maxSize), Mask31(done), wait)
  }

  lemma MaskSmall(x: nat)
    ensures x < B31 ==> Mask31(x) == x
    ensures x < B32 ==> Mask32(x) == x
  {
    if x < B31 {
      DivModUnique(x, B31, 0, x);
    }
    if x < B32 {
      DivModUnique(x, B32, 0, x);
    }
  }

  /** Unpacking recovers what was packed, up to the 31-bit masks, and the word fits in 64 bits. */
  lemma UnpackPack(maxSize: nat, done: nat, wait: bool)
    ensures Unpack(Pack(maxSize, done, wait)) == Packed(maxSize, done, wait)
    ensures Pack(maxSize, done, wait) < B64
  {
    var word := Pack(maxSize, done, wait);
    var flag := if wait then 1 else 0;
    var size, low := Mask31(maxSize), Mask31(done);
    DivModUnique(word, B32, flag * B31 + size, low);
    DivModUnique(flag * B31 + size, B31, flag, size);
    DivModUnique(word, B31, flag * B32 + 2 * size, low);
    DivModUnique(word, B63, flag, size * B32 + low);
  }

  /** Two packed words are equal exactly when their contents are, so a compare-and-swap on words
      compares contents. */
  lemma SameWord(v: Window, w: Window)
    ensures Pack(v.maxSize, v.done, v.wait) == Pack(w.maxSize, w.done, w.wait) <==> v == w
  {
    UnpackPack(v.maxSize, v.done, v.wait);
    UnpackPack(w.maxSize, w.done, w.wait);
    MaskSmall(v.maxSize);
    MaskSmall(v.done);
    MaskSmall(w.maxSize);
    MaskSmall(w.done);
  }

  /** What a queue word or a ring's index word holds. */
  datatype Halves = Halves(high: U32, low: U32)

  /** bufDequeue.pack. */
  function PackHalves(high: nat, low: nat): nat {
    Mask32(high) * B32 + Mask32(low)
  }

  /** bufDequeue.unpack. */
  function UnpackHalves(word: nat): Halves {
    Halves(Mask32(word / B32), Mask32(word))
  }

  lemma UnpackPackHalves(high: nat, low: nat)
    ensures UnpackHalves(PackHalves(high, low)) == Halves(Mask32(high), Mask32(low))
    ensures PackHalves(high, low) < B64
  {
    DivModUnique(PackHalves(high, low), B32, Mask32(high), Mask32(low));
    MaskSmall(Mask32(high));
  }

  /** 64-bit atomic add. */
  function Add64(word: nat, delta: nat): nat {
    (word + delta) % B64
  }

  /** Subtracting from the high half, with 32-bit wrap-around. */
  function SubHigh(q: Halves, n: U32): Halves {
    q.(high := Mask32(q.high + B32 - n))
  }

  lemma HighAfter(h: U32, n: U32)
    ensures Mask32(h + 0x1_0000_0000 - n) == if n <= h then h - n else h + 0x1_0000_0000 - n
  {
    if n <= h {
      DivModUnique(h + 0x1_0000_0000 - n, 0x1_0000_0000, 1, h - n);
    } else {
      DivModUnique(h + 0x1_0000_0000 - n, 0x1_0000_0000, 0, h + 0x1_0000_0000 - n);
    }
  }

  lemma Complement(n: U32)
    ensures (B64 - n * B32) % B64 == if n == 0 then 0 else 0x1_0000_0000_0000_0000 - n * 0x1_0000_0000
  {
    if n == 0 {
      DivModUnique(0x1_0000_0000_0000_0000, 0x1_0000_0000_0000_0000, 1, 0);
    } else {
      DivModUnique(0x1_0000_0000_0000_0000 - n * 0x1_0000_0000, 0x1_0000_0000_0000_0000, 0,
                   0x1_0000_0000_0000_0000 - n * 0x1_0000_0000);
    }
  }

  lemma AddedWord(h: U32, l: U32, n: U32)
    ensures var delta := if n == 0 then 0 else 0x1_0000_0000_0000_0000 - n * 0x1_0000_0000;
      var high := if n <= h then h - n else h + 0x1_0000_0000 - n;
      (h * 0x1_0000_0000 + l + delta) % 0x1_0000_0000_0000_0000 == high * 0x1_0000_0000 + l
  {
    var delta := if n == 0 then 0 else 0x1_0000_0000_0000_0000 - n * 0x1_0000_0000;
    var high := if n <= h then h - n else h + 0x1_0000_0000 - n;
    DivModUnique(h * 0x1_0000_0000 + l + delta, 0x1_0000_0000_0000_0000, if 0 < n <= h then 1 else 0,
                 high * 0x1_0000_0000 + l);
  }

  /** The 64-bit add of the two's complement of n shifted into the high half subtracts n from that
      half and never touches the low one. */
  lemma AddComplement(q: Halves, n: U32)
    ensures UnpackHalves(Add64(PackHalves(q.high, q.low), (B64 - n * B32) % B64)) == SubHigh(q, n)
  {
    MaskSmall(q.high);
    MaskSmall(q.low);
    HighAfter(q.high, n);
    Complement(n);
    AddedWord(q.high, q.low, n);
    var high := SubHigh(q, n).high;
    MaskSmall(high);
    UnpackPackHalves(high, q.low);
  }

  /** What popTail adds to the index word: one, or, at the largest tail, what takes the low half back to zero. */
  function TailStep(tail: U32): nat {
    if tail < B32 - 1 then 1 else B64 - B32 + 1
  }

  /** The word after the atomic add is again a packed word. */
  lemma AdvanceWord(q: Halves)
    ensures Add64(PackHalves(q.high, q.low), TailStep(q.low)) == PackHalves(q.high, Mask32(q.low + 1))
  {
    MaskSmall(q.high);
    MaskSmall(q.low);
    var word := q.high * B32 + q.low;
    if q.low < B32 - 1 {
      MaskSmall(q.low + 1);
      DivModUnique(word + 1, B64, 0, q.high * B32 + (q.low + 1));
    } else {
      DivModUnique(q.low + 1, B32, 1, 0);
      DivModUnique(word + TailStep(q.low), B64, 1, q.high * B32);
      MaskSmall(0);
    }
  }

  /** Advancing the tail by a 64-bit add wraps the low half and never carries into the high one. */
  lemma AdvanceTail(q: Halves)
    ensures UnpackHalves(Add64(PackHalves(q.high, q.low), TailStep(q.low))) == Halves(q.high, Mask32(q.low + 1))
  {
    AdvanceWord(q);
    UnpackPackHalves(q.high, Mask32(q.low + 1));
    MaskSmall(q.high);
    MaskSmall(Mask32(q.low + 1));
  }

  // Sizes and slots of rings.

  function Pow2(e: nat): nat {
    if e == 0 then 1 else 2 * Pow2(e - 1)
  }

  /** dequeueLimit. */
  const RING_LIMIT: nat := 0x4000_0000

  predicate IsPow2(n: nat) {
    n == 1 || (n > 1 && n % 2 == 0 && IsPow2(n / 2))
  }

  /** Ring sizes are powers of two up to the limit. */
  predicate RingSize(n: nat) {
    IsPow2(n) && n <= RING_LIMIT
  }

  lemma {:induction false} Exponent(n: nat) returns (e: nat)
    requires IsPow2(n)
    ensures n == Pow2(e)
  {
    if n == 1 {
      e := 0;
    } else {
      var f := Exponent(n / 2);
      e := f + 1;
    }
  }

  lemma {:induction false} Pow2IsPow2(e: nat)
    ensures IsPow2(Pow2(e))
  {
    if e > 0 {
      Pow2IsPow2(e - 1);
      Pow2Splits(e - 1, 0);
    }
  }

  lemma {:induction false} Pow2Grows(e: nat, f: nat)
    requires e < f
    ensures Pow2(e) < Pow2(f)
  {
    Pow2Splits(f - 1, 0);
    if e < f - 1 {
      Pow2Grows(e, f - 1);
    }
  }

  lemma {:induction false} Pow2Splits(e: nat, f: nat)
    ensures Pow2(e) * Pow2(f) == Pow2(e + f)
    ensures Pow2(e) > 0
  {
    if e > 0 {
      Pow2Splits(e - 1, f);
      assert Pow2(e) * Pow2(f) == 2 * (Pow2(e - 1) * Pow2(f));
    }
  }

  lemma Pow2Known()
    ensures Pow2(30) == RING_LIMIT && Pow2(32) == 0x1_0000_0000
  {
    assert Pow2(5) == 32;
    Pow2Splits(5, 5);
    Pow2Splits(10, 10);
    Pow2Splits(20, 10);
    Pow2Splits(30, 2);
    assert Pow2(2) == 4;
  }

  /** A ring size divides 2^32, so wrapping an index at 32 bits keeps its slot. */
  lemma RingSizeDivides(n: nat) returns (k: nat)
    requires RingSize(n)
    ensures 0 < n <= RING_LIMIT
    ensures n * k == 0x1_0000_0000
  {
    var e := Exponent(n);
    Pow2Known();
    Pow2Splits(e, 0);
    if e > 30 {
      Pow2Grows(30, e);
      assert false;
    }
    Pow2Splits(e, 32 - e);
    k := Pow2(32 - e);
  }

  /** The size bufChain gives the next ring. */
  function NextSize(n: nat): nat {
    if n * 2 >= RING_LIMIT then RING_LIMIT else n * 2
  }

  lemma NextSizeIsRingSize(n: nat)
    requires RingSize(n)
    ensures RingSize(NextSize(n))
  {
    Pow2Known();
    Pow2IsPow2(30);
  }

  /** index & (len - 1) for a power of two. */
  function Slot(index: nat, n: nat): nat
    requires n > 0
  {
    index % n
  }

  lemma SlotsDiffer(i: nat, j: nat, n: nat)
    requires n > 0 && i < j < i + n
    ensures Slot(i, n) != Slot(j, n)
  {
    if Slot(i, n) == Slot(j, n) {
      var k := j / n - i / n;
      assert k * n == j - i;
      MultipleGrows(k, n);
      assert false;
    }
  }

  lemma SlotsDistinct(t: nat, n: nat)
    requires n > 0
    ensures forall i, j :: t <= i < t + n && t <= j < t + n && i != j ==> Slot(i, n) != Slot(j, n)
  {
    forall i, j | t <= i < t + n && t <= j < t + n && i != j ensures Slot(i, n) != Slot(j, n) {
      if i < j {
        SlotsDiffer(i, j, n);
      } else {
        SlotsDiffer(j, i, n);
      }
    }
  }

  lemma SlotWraps(i: nat, n: nat)
    requires n > 0
    ensures Slot(i + n, n) == Slot(i, n)
  {
    DivModUnique(i + n, n, i / n + 1, i % n);
  }

  /** The slot k places after a slot. */
  function Place(at: nat, k: nat, n: nat): nat {
    if at + k < n then at + k else at + k - n
  }

  lemma SlotMoves(index: nat, k: nat, n: nat)
    requires 0 < n && k <= n
    ensures Slot(index, n) < n && Slot(index + k, n) == Place(Slot(index, n), k, n)
  {
    var at := index % n;
    if at + k < n {
      DivModUnique(index + k, n, index / n, at + k);
    } else if at + k < 2 * n {
      DivModUnique(index + k, n, index / n + 1, at + k - n);
    }
  }

  /** The 32-bit wrap of an index does not change its slot. */
  lemma SlotOfWrapped(index: nat, n: nat)
    requires RingSize(n)
    ensures n > 0 && Slot(Mask32(index), n) == Slot(index, n)
  {
    var k := RingSizeDivides(n);
    var q, r := index / 0x1_0000_0000, index % 0x1_0000_0000;
    assert index == (q * k + r / n) * n + r % n by {
      assert q * 0x1_0000_0000 == (q * k) * n;
      assert (q * k + r / n) * n == (q * k) * n + (r / n) * n;
    }
    DivModUnique(index, n, q * k + r / n, r % n);
  }

  lemma MaskSuccessor(x: nat)
    ensures Mask32(Mask32(x) + 1) == Mask32(x + 1)
  {
  }

  lemma MaskSame(t: nat, a: nat, b: nat)
    requires a < 0x1_0000_0000 && b < 0x1_0000_0000
    ensures Mask32(t + a) == Mask32(t + b) <==> a == b
  {
  }

  lemma MaskAdd(x: nat, n: nat)
    ensures Mask32(Mask32(x) + n) == Mask32(x + n)
  {
  }

  /** The fullness and emptiness tests on wrapped indices are exact. */
  lemma IndexTestsExact(tail: nat, used: nat, n: nat)
    requires RingSize(n) && used <= n
    ensures Mask32(Mask32(tail) + n) == Mask32(tail + used) <==> used == n
    ensures Mask32(tail) == Mask32(tail + used) <==> used == 0
  {
    var _ := RingSizeDivides(n);
    MaskAdd(tail, n);
    MaskSame(tail, used, n);
    MaskSame(tail, used, 0);
  }
}
