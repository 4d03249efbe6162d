/** The methods of the two windows in their own form: retry loops on one packed 64-bit word, the loop that
    cuts a buffer into segments and the loop that puts them together again.  Each is shown to have the
    effect of the atomic steps that the connection's transition system is made of.  What other goroutines
    store in the word meanwhile is a parameter. */
module MuxWindow {
  import opened Common
  import opened MuxPackets
  import opened MuxWord
  import opened MuxStream
  import opened MuxInvariant

  function Word(w: Window): nat {
    Pack(w.maxSize, w.done, w.wait)
  }

  lemma WordKeeps(w: Window)
    ensures Unpack(Word(w)) == w
  {
    UnpackPack(w.maxSize, w.done, w.wait);
    MaskSmall(w.maxSize);
    MaskSmall(w.done);
  }

  lemma PackedWord(maxSize: nat, done: nat, wait: bool)
    ensures Pack(maxSize, done, wait) == Word(Packed(maxSize, done, wait))
  {
    MaskSmall(Mask31(maxSize));
    MaskSmall(Mask31(done));
  }

  /** The word a retry loop loads at its k-th pass. */
  function Loaded(first: Window, others: seq<Window>, k: nat): Window
    requires k <= |others|
  {
    if k == 0 then first else others[k - 1]
  }

  class Cell64 {
    var word: nat

    ghost predicate Holds(w: Window)
      reads this
    {
      word == Word(w)
    }

    constructor (w: Window)
      ensures Holds(w)
    {
      word := Word(w);
    }

    /** Compare-and-swap; just before it another goroutine may store a word. */
    method Cas(loaded: nat, maxSize: nat, done: nat, wait: bool, race: Option<Window>) returns (ok: bool)
      requires word == loaded
      modifies this
      ensures ok == (race.None? || Word(race.value) == loaded)
      ensures ok ==> Holds(Packed(maxSize, done, wait))
      ensures !ok ==> Holds(race.value)
    {
      if race.Some? {
        word := Word(race.value);
      }
      if word != loaded {
        return false;
      }
      PackedWord(maxSize, done, wait);
      word := Pack(maxSize, done, wait);
      return true;
    }
  }

  /** What another goroutine stores during pass k of a retry loop, if anything. */
  function Race(others: seq<Window>, k: nat): Option<Window> {
    if k < |others| then Some(others[k]) else None
  }

  /** A pass of WriteTo's wait loop: a store that may spoil its compare-and-swap, and the word that an
      acknowledgement leaves when it wakes the sender. */
  datatype Pass = Pass(race: Option<Window>, wake: Window)

  /** Raising the wait bit fails. */
  predicate Spoiled(w: Window, p: Pass) {
    p.race.Some? && p.race.value != w
  }

  /** The word the wait loop loads at its k-th pass. */
  function Offered(first: Window, passes: seq<Pass>, k: nat): Window
    requires k <= |passes|
  {
    if k == 0 then first
    else
      var w, p := Offered(first, passes, k - 1), passes[k - 1];
      if Spoiled(w, p) then p.race.value else p.wake
  }

  /** The words with the wait bit up that the first k passes blocked on. */
  function Blocks(first: Window, passes: seq<Pass>, k: nat): seq<Window>
    requires k <= |passes|
  {
    if k == 0 then []
    else
      var w := Offered(first, passes, k - 1);
      Blocks(first, passes, k - 1) + if Spoiled(w, passes[k - 1]) then [] else [w.(wait := true)]
  }

  predicate HasRoom(w: Window) {
    SendRemain(w.maxSize, w.done) > 0
  }

  lemma SpoiledExact(w: Window, p: Pass)
    ensures Spoiled(w, p) <==> p.race.Some? && Word(p.race.value) != Word(w)
  {
    if p.race.Some? {
      SameWord(p.race.value, w);
    }
  }

  class SendWindow {
    const state: Cell64
    var buf: seq<Byte>
    var off: U32

    constructor ()
      ensures fresh(state) && state.Holds(Packed(START_WINDOW, 0, false))
    {
      state := new Cell64(Packed(START_WINDOW, 0, false));
      buf, off := [], 0;
    }

    /** SetSize on an open window: one atomic SetSizeWord on the word of its last pass. */
    method SetSize(ghost first: Window, ack: Window, others: seq<Window>) returns (wake: bool, ghost at: nat)
      requires state.Holds(first)
      modifies state
      ensures at <= |others|
      ensures match SetSizeWord(Loaded(first, others, at), ack)
        case Rejected => !wake && state.Holds(Loaded(first, others, at))
        case Unchanged => !wake && state.Holds(Loaded(first, others, at))
        case Stored(w, wakes) => wake == wakes && state.Holds(w)
    {
      var k := 0;
      while true
        invariant k <= |others| && state.Holds(Loaded(first, others, k))
        decreases |others| - k
      {
        at := k;
        WordKeeps(Loaded(first, others, k));
        var ptrs := state.word;
        var w := Unpack(ptrs);
        if ack.done > w.done {
          return false, at;
        }
        if ack.done == 0 && ack.maxSize == w.maxSize {
          return false, at;
        }
        var outstanding := Mask31(w.done - ack.done);
        var remain := SendRemain(ack.maxSize, outstanding);
        var nextWait := remain == 0 && w.wait;
        var ok := state.Cas(ptrs, ack.maxSize, outstanding, nextWait, Race(others, k));
        if ok {
          return w.wait && !nextWait, at;
        }
        k := k + 1;
      }
    }

    /** sent: one atomic SentWord; on its overflow branch it spins until another goroutine changes the word. */
    method Sent(ghost first: Window, size: nat, others: seq<Window>) returns (ghost at: nat)
      requires state.Holds(first) && SentWord(Loaded(first, others, |others|), size).Some?
      modifies state
      ensures at <= |others| && SentWord(Loaded(first, others, at), size).Some?
      ensures state.Holds(SentWord(Loaded(first, others, at), size).value)
    {
      var k := 0;
      while true
        invariant k <= |others| && state.Holds(Loaded(first, others, k))
        decreases |others| - k
      {
        WordKeeps(Loaded(first, others, k));
        var ptrs := state.word;
        var w := Unpack(ptrs);
        if Mask31(w.done + size) < w.done {
          state.word := Word(others[k]);
          k := k + 1;
          continue;
        }
        var ok := state.Cas(ptrs, w.maxSize, w.done + size, w.wait, Race(others, k));
        if ok {
          return k;
        }
        k := k + 1;
      }
    }

    /** The wait loop of WriteTo: while no window remains it raises the wait bit by compare-and-swap and
        blocks, until it loads a word with room. */
    method AwaitRoom(ghost first: Window, passes: seq<Pass>)
      returns (remain: nat, ghost at: nat, ghost waits: seq<Window>)
      requires state.Holds(first) && HasRoom(Offered(first, passes, |passes|))
      modifies state
      ensures at <= |passes| && state.Holds(Offered(first, passes, at)) && waits == Blocks(first, passes, at)
      ensures var w := Offered(first, passes, at); remain == SendRemain(w.maxSize, w.done) > 0
      ensures forall k :: 0 <= k < at ==> !HasRoom(Offered(first, passes, k))
    {
      var k := 0;
      waits := [];
      while true
        invariant k <= |passes| && state.Holds(Offered(first, passes, k)) && waits == Blocks(first, passes, k)
        invariant forall i :: 0 <= i < k ==> !HasRoom(Offered(first, passes, i))
        decreases |passes| - k
      {
        ghost var seen := Offered(first, passes, k);
        WordKeeps(seen);
        var ptrs := state.word;
        var w := Unpack(ptrs);
        remain := SendRemain(w.maxSize, w.done);
        if remain > 0 {
          return remain, k, waits;
        }
        SpoiledExact(seen, passes[k]);
        var ok := state.Cas(ptrs, w.maxSize, w.done, true, passes[k].race);
        if ok {
          MaskSmall(w.maxSize);
          MaskSmall(w.done);
          assert state.Holds(seen.(wait := true));
          waits := waits + [seen.(wait := true)];
          state.word := Word(passes[k].wake);
        }
        k := k + 1;
      }
    }

    /** WriteTo, up to the call of sent: the next segment, or a panic when the end of the slice wraps. */
    method Cut(remain: nat) returns (seg: Segment, panicked: bool)
      requires off < Length32(buf) && off <= |buf| && remain > 0
      modifies this`off
      ensures var size := SegmentSize(|buf| - old(off), remain);
        && (panicked <==> old(off) + size >= B32)
        && (panicked ==> off == old(off))
        && (!panicked ==>
              && off == old(off) + size <= |buf|
              && seg == Segment(buf[old(off)..off], off < Length32(buf)) && GoodSegment(seg))
    {
      LengthBounded(buf);
      var left := |buf[off..]|;
      var sendSize := if left > SEGMENT_MAX then SEGMENT_MAX else left;
      if remain < sendSize {
        sendSize := remain;
      }
      var part := sendSize < Mask32(left);
      PartExact(buf, off, sendSize);
      EndWraps(off, sendSize);
      var end := Mask32(sendSize + off);
      if end < off {
        return Segment([], false), true;
      }
      seg, panicked := Segment(buf[off..end], part), false;
      off := end;
    }

    /** WriteTo on a buffer that is not drained: the segment is counted in the word last loaded. */
    method WriteTo(ghost first: Window, passes: seq<Pass>, stores: seq<Window>)
      returns (seg: Segment, panicked: bool, ghost last: Window, ghost loaded: Window)
      requires off < Length32(buf) && off <= |buf| && state.Holds(first) && Grants(passes) && Roomy(stores)
      modifies this`off, state
      ensures state.Holds(last)
      ensures panicked ==> off == old(off) && |buf| >= B32
      ensures !panicked ==>
        && old(off) < off <= |buf|
        && seg == Segment(buf[old(off)..off], off < Length32(buf)) && GoodSegment(seg)
        && Some(last) == SentWord(loaded, |seg.data|)
    {
      LengthBounded(buf);
      GrantsRoom(first, passes);
      var remain, at, waits := AwaitRoom(first, passes);
      ghost var offered := Offered(first, passes, at);
      seg, panicked := Cut(remain);
      last, loaded := offered, offered;
      if !panicked {
        RoomySent(stores, offered, |seg.data|);
        var at2 := Sent(offered, |seg.data|, stores);
        loaded := Loaded(offered, stores, at2);
        last := SentWord(loaded, |seg.data|).value;
      }
    }

    /** WriteFull: whatever windows are granted, the segments sent carry a prefix of the buffer, marked so
        that only its final byte ends a message, and the whole of it exactly when it is shorter than 2^32. */
    method WriteFull(data: seq<Byte>, passes: nat -> seq<Pass>, stores: nat -> seq<Window>, ghost start: Window)
      returns (n: nat, sent: seq<Segment>, panicked: bool)
      requires state.Holds(start)
      requires forall i :: Grants(passes(i)) && Roomy(stores(i))
      modifies this, state
      ensures n <= |data| && Flat(sent) == Tag(data[..n], !panicked) && GoodSegments(sent)
      ensures !panicked ==> (n == |data| <==> |data| < B32)
      ensures panicked ==> |data| >= B32
    {
      buf, off := data, 0;
      n, sent, panicked := 0, [], false;
      ghost var now := start;
      ghost var loaded;
      LengthBounded(data);
      while off < Length32(buf)
        invariant buf == data && n == off <= |buf| && state.Holds(now)
        invariant SentSoFar(data, off, sent)
        decreases |buf| - off
      {
        ghost var before := off;
        var seg;
        seg, panicked, now, loaded := WriteTo(now, passes(|sent|), stores(|sent|));
        if panicked {
          return;
        }
        SentMore(data, before, off, sent);
        n := n + |seg.data|;
        sent := sent + [seg];
      }
    }
  }

  predicate SentSoFar(data: seq<Byte>, off: nat, sent: seq<Segment>)
    requires off <= |data|
  {
    GoodSegments(sent) && Flat(sent) == Tag(data[..off], off >= Length32(data))
  }

  lemma SentMore(data: seq<Byte>, off: nat, end: nat, sent: seq<Segment>)
    requires off < end <= |data| && off < Length32(data) && SentSoFar(data, off, sent)
    requires GoodSegment(Segment(data[off..end], end < Length32(data)))
    ensures SentSoFar(data, end, sent + [Segment(data[off..end], end < Length32(data))])
  {
    CutCells(data, off, end, end >= Length32(data));
    FlatAppend(sent, Segment(data[off..end], end < Length32(data)));
  }

  /** The wait loop's passes end with a word that has room, whichever way the last one goes. */
  predicate Grants(passes: seq<Pass>) {
    && passes != []
    && HasRoom(passes[|passes| - 1].wake)
    && (passes[|passes| - 1].race.Some? ==> HasRoom(passes[|passes| - 1].race.value))
  }

  lemma GrantsRoom(first: Window, passes: seq<Pass>)
    requires Grants(passes)
    ensures HasRoom(Offered(first, passes, |passes|))
  {
  }

  /** The words met while counting end with one that a segment does not overflow. */
  predicate Roomy(ws: seq<Window>) {
    ws != [] && ws[|ws| - 1].done + SEGMENT_MAX < B31
  }

  lemma RoomySent(ws: seq<Window>, first: Window, size: nat)
    requires Roomy(ws) && size <= SEGMENT_MAX
    ensures SentWord(Loaded(first, ws, |ws|), size).Some?
  {
    MaskSmall(ws[|ws| - 1].done + size);
  }

  /** What is still to be read: the rest of the element in hand and the queued segments. */
  function Unread(elem: Segment, off: nat, queue: seq<Segment>): seq<Cell>
    requires off <= |elem.data|
  {
    Cells(elem)[off..] + Flat(queue)
  }

  /** A Read of this size returns without waiting for more. */
  predicate Answerable(cells: seq<Cell>, want: nat) {
    |cells| >= want || exists i :: 0 <= i < |cells| && cells[i].last
  }

  lemma TakeNext(elem: Segment, queue: seq<Segment>)
    requires queue != []
    ensures Unread(elem, |elem.data|, queue) == Unread(queue[0], 0, queue[1..])
  {
    assert Cells(elem)[|elem.data|..] == [];
  }

  lemma CopySome(elem: Segment, off: nat, end: nat, queue: seq<Segment>)
    requires off <= end <= |elem.data|
    ensures Unread(elem, off, queue) == Cells(elem)[off..end] + Unread(elem, end, queue)
  {
    CutPiece(Cells(elem), off, end);
    Regroup(Cells(elem)[off..end], Cells(elem)[end..], Flat(queue));
  }

  class ReceiveWindow {
    const state: Cell64
    var queue: seq<Segment>
    var element: Segment
    var off: nat

    ghost predicate Valid()
      reads this
    {
      off <= |element.data| && GoodSegments(queue)
    }

    constructor ()
      ensures Valid() && fresh(state) && state.Holds(Packed(START_WINDOW, 0, false))
    {
      state := new Cell64(Packed(START_WINDOW, 0, false));
      queue, element, off := [], Segment([], false), 0;
    }

    /** Write on an open window: one atomic RecvCasStep, then the element is queued; the result is the
        acknowledgement to send, if any. */
    method Write(ghost first: Window, seg: Segment, lens: seq<nat>, others: seq<Window>)
      returns (ack: Option<Window>, ghost at: nat)
      requires Valid() && GoodSegment(seg) && state.Holds(first) && |lens| == |others| + 1
      modifies this`queue, state
      ensures Valid() && queue == old(queue) + [seg] && at <= |others|
      ensures var w := Loaded(first, others, at);
        var r := RecvCasStep(Receiver(w, Halves(0, 0), [], WSeen(seg, w, lens[at])));
        r.Some? && r.value.writer == WDecided(seg, ack) && state.Holds(r.value.word)
    {
      var k := 0;
      while true
        invariant k <= |others| && state.Holds(Loaded(first, others, k)) && queue == old(queue)
        decreases |others| - k
      {
        at := k;
        WordKeeps(Loaded(first, others, k));
        var ptrs := state.word;
        var w := Unpack(ptrs);
        var remain := RecvRemain(w.maxSize, lens[k], |seg.data|);
        if remain == 0 && !w.wait {
          var ok := state.Cas(ptrs, w.maxSize, w.done, true, Race(others, k));
          if ok {
            queue := queue + [seg];
            return None, at;
          }
        } else if !w.wait {
          var ok := state.Cas(ptrs, w.maxSize, 0, w.wait, Race(others, k));
          if ok {
            queue := queue + [seg];
            return Some(Packed(w.maxSize, w.done, false)), at;
          }
        } else {
          queue := queue + [seg];
          return None, at;
        }
        k := k + 1;
      }
    }

    /** sendStatus: one atomic StatusWord, for the queue length seen at its last pass. */
    method SendStatus(ghost first: Window, l: nat, lens: seq<nat>, others: seq<Window>)
      returns (ack: Option<Window>, ghost at: nat)
      requires state.Holds(first) && |lens| == |others| + 1
      modifies state
      ensures at <= |others|
      ensures var r := StatusWord(Loaded(first, others, at), l, lens[at]); ack == r.ack && state.Holds(r.word)
    {
      var k := 0;
      while true
        invariant k <= |others| && state.Holds(Loaded(first, others, k))
        decreases |others| - k
      {
        at := k;
        WordKeeps(Loaded(first, others, k));
        var ptrs := state.word;
        var w := Unpack(ptrs);
        var ok;
        if w.done <= Mask31(w.done + l) {
          var read := w.done + l;
          var remain := RecvRemain(w.maxSize, lens[k], 0);
          if (w.wait && remain > 0) || read >= w.maxSize / 2 || remain == w.maxSize {
            ok := state.Cas(ptrs, w.maxSize, 0, false, Race(others, k));
            if ok {
              return Some(Packed(w.maxSize, read, false)), at;
            }
          } else {
            ok := state.Cas(ptrs, w.maxSize, read, w.wait, Race(others, k));
            if ok {
              return None, at;
            }
          }
        } else {
          ok := state.Cas(ptrs, w.maxSize, l, w.wait, Race(others, k));
          if ok {
            return Some(Packed(w.maxSize, w.done, false)), at;
          }
        }
        k := k + 1;
      }
    }

    /** Take the next element when the one in hand is used up, waiting for it if the queue is empty. */
    method Refill(arrivals: seq<Segment>) returns (later: seq<Segment>)
      requires Valid() && GoodSegments(arrivals) && (off < |element.data| || queue + arrivals != [])
      modifies this
      ensures Valid() && GoodSegments(later) && off < |element.data|
      ensures Unread(element, off, queue + later) == old(Unread(element, off, queue + arrivals))
    {
      later := arrivals;
      if off == |element.data| {
        TakeNext(element, queue + arrivals);
        if queue == [] {
          queue, later := [arrivals[0]], arrivals[1..];
          assert [arrivals[0]] + arrivals[1..] == [] + arrivals;
        }
        assert (queue + later)[1..] == queue[1..] + later;
        element, queue, off := queue[0], queue[1..], 0;
      }
    }

    /** Copy as much of the element as fits. */
    method Copy(room: nat, ghost later: seq<Segment>) returns (more: seq<Cell>)
      requires Valid() && off < |element.data| && room > 0
      modifies this`off
      ensures Valid() && 1 <= |more| <= room
      ensures old(Unread(element, off, queue + later)) == more + Unread(element, off, queue + later)
      ensures NoEnd(more[..|more| - 1])
      ensures more[|more| - 1].last <==> !element.part && off == |element.data|
      ensures |more| == room || off == |element.data|
    {
      var l := Min(room, |element.data| - off);
      CopySome(element, off, off + l, queue + later);
      PieceEnds(element, off, off + l);
      more := Cells(element)[off..off + l];
      off := off + l;
    }

    /** readFromQueue, with the segments that arrive while it waits: it returns the next unread bytes up to
        the buffer's size or the end of a message, whichever comes first, and leaves the rest. */
    method ReadFromQueue(want: nat, arrivals: seq<Segment>) returns (got: seq<Cell>, later: seq<Segment>)
      requires Valid() && want > 0 && GoodSegments(arrivals) && Answerable(Unread(element, off, queue + arrivals), want)
      modifies this
      ensures Valid()
      ensures old(Unread(element, off, queue + arrivals)) == got + Unread(element, off, queue + later)
      ensures 1 <= |got| <= want
      ensures |got| == want || got[|got| - 1].last
      ensures NoEnd(got[..|got| - 1])
    {
      got, later := [], arrivals;
      ghost var all := Unread(element, off, queue + arrivals);
      while true
        invariant Valid() && GoodSegments(later) && |got| < want && NoEnd(got)
        invariant all == got + Unread(element, off, queue + later)
        decreases want - |got|
      {
        MoreLeft(element, off, queue + later, got, all, want);
        later := Refill(later);
        var more := Copy(want - |got|, later);
        Regroup(got, more, Unread(element, off, queue + later));
        JoinEnds(got, more);
        got := got + more;
        if !(|got| < want && element.part) {
          return;
        }
      }
    }
  }

  lemma MoreLeft(elem: Segment, off: nat, queue: seq<Segment>, got: seq<Cell>, all: seq<Cell>, want: nat)
    requires off <= |elem.data| && all == got + Unread(elem, off, queue)
    requires |got| < want && NoEnd(got) && Answerable(all, want)
    ensures off < |elem.data| || queue != []
  {
    assert Cells(elem)[|elem.data|..] + Flat([]) == [];
  }
}
