/** What every step of the connection keeps. */
module MuxInvariant {
  import opened Common
  import opened MuxPackets
  import opened MuxWord
  import opened MuxStream

  predicate GoodSegment(g: Segment) {
    1 <= |g.data| <= SEGMENT_MAX
  }

  predicate GoodSegments(segs: seq<Segment>) {
    forall i :: 0 <= i < |segs| ==> GoodSegment(segs[i])
  }

  // Where the bytes of the stream, and the credit for them, can be.

  function PendingRead(ack: Option<Window>): nat {
    if ack.Some? then ack.value.done else 0
  }

  function AckSum(acks: seq<Window>): nat {
    if acks == [] then 0 else acks[0].done + AckSum(acks[1..])
  }

  predicate HasSegment(w: WriterPhase) {
    w.WHave? || w.WLoaded? || w.WSeen? || w.WDecided? || w.WCounted?
  }

  function SendingCells(p: SenderPhase): seq<Cell> {
    if p.SSending? then Cells(p.seg) else []
  }

  function WriterCells(w: WriterPhase): seq<Cell> {
    if HasSegment(w) then Cells(w.seg) else []
  }

  function WriterAck(w: WriterPhase): nat {
    if w.WDecided? || w.WCounted? || w.WSignal? || w.WAck? then PendingRead(w.ack) else 0
  }

  function CountedBytes(w: WriterPhase): nat {
    if w.WCounted? then |w.seg.data| else 0
  }

  predicate InStatus(p: ReaderPhase) {
    p.RStatus? || p.RLoaded? || p.RSeen?
  }

  /** Before the copy of the current element: the loop may still go on to more segments. */
  predicate Filling(p: ReaderPhase) {
    p.RTop? || p.RPop? || p.RAsleep? || p.RTake? || p.RTaken? || p.RCopy?
  }

  /** Bytes of the popped element whose credit has not been returned. */
  function HeldBytes(rd: Reader): nat {
    if rd.off == |rd.elem.data| && !InStatus(rd.phase) then 0 else |rd.elem.data|
  }

  function ReaderAck(p: ReaderPhase): nat {
    if p.RAck? then p.ack.done else 0
  }

  function CopiedAndLeft(got: seq<Cell>, elem: Segment, off: nat): seq<Cell> {
    got + Cells(elem)[Min(off, |elem.data|)..]
  }

  function ReaderCells(rd: Reader): seq<Cell> {
    CopiedAndLeft(rd.got, rd.elem, rd.off)
  }

  function ReceiverCells(rcv: Receiver): seq<Cell> {
    Flat(rcv.chain) + WriterCells(rcv.writer)
  }

  /** What the Write in progress has cut so far; the piece that drains the buffer ends the message. */
  function CutSoFar(snd: Sender): seq<Cell> {
    if snd.phase.SIdle? then [] else Tag(Handed(snd), Drained(snd))
  }

  // The invariant, clause by clause.

  predicate SenderShape(snd: Sender) {
    && snd.off <= |snd.buf|
    && (snd.phase.SReserved? || snd.phase.SBlocked? || snd.phase.SPanicked? ==> !Drained(snd))
    && (snd.phase.SReserved? ==>
          1 <= snd.phase.size <= SEGMENT_MAX && snd.off + snd.phase.size <= |snd.buf|)
    && (snd.phase.SPanicked? ==> |snd.buf| >= B32)
    && (snd.phase.SSending? ==> GoodSegment(snd.phase.seg))
  }

  predicate ReceiverShape(rcv: Receiver) {
    && GoodSegments(rcv.chain)
    && (HasSegment(rcv.writer) ==> GoodSegment(rcv.writer.seg))
    && rcv.word.done < B31 / 2
  }

  predicate ReaderShape(rd: Reader) {
    var n := |rd.elem.data|;
    && rd.off <= n <= SEGMENT_MAX
    && (rd.phase.RPop? || rd.phase.RAsleep? || rd.phase.RTake? || rd.phase.RAck? ==> rd.off == n)
    && (rd.phase.RTaken? ==> rd.off == 0)
    && (rd.phase.RTaken? || rd.phase.RCopy? ==> rd.off < n)
    && (InStatus(rd.phase) ==> rd.off == n && 1 <= n)
    && (rd.phase.RIdle? ==> rd.got == [])
    && |rd.got| <= rd.want
    && (rd.phase.RAfter? && |rd.got| < rd.want ==> rd.off == n)
    && (Filling(rd.phase) ==> |rd.got| < rd.want)
    && (rd.phase.RLoaded? || rd.phase.RSeen? ==> rd.phase.snap.done < B31 / 2)
  }

  /** Credit conservation. */
  predicate Credit(s: State) {
    s.snd.word.done ==
      |SendingCells(s.snd.phase)| + |Flat(s.segs)| + |ReceiverCells(s.rcv)| + HeldBytes(s.rd)
      + s.rcv.word.done
      + AckSum(s.acks) + WriterAck(s.rcv.writer) + ReaderAck(s.rd.phase)
  }

  /** The sender never has more outstanding than some window it held. */
  predicate Bounded(snd: Sender, peak: nat) {
    && peak < B31
    && snd.word.maxSize <= peak
    && snd.word.done + (if snd.phase.SReserved? then snd.phase.size else 0) <= peak
  }

  /** The length field counts exactly what is queued, being pushed or being popped. */
  predicate QueueLength(rcv: Receiver, rd: Reader) {
    && rcv.queue.high == |Flat(rcv.chain)| + CountedBytes(rcv.writer) + (if rd.phase.RTaken? then |rd.elem.data| else 0)
    && rcv.queue.low < 2
  }

  predicate Owes(w: WriterPhase) {
    (w.WCounted? && w.owes) || w.WSignal?
  }

  /** No lost wake-up in the receive queue. */
  predicate ReaderWake(rcv: Receiver, p: ReaderPhase) {
    && (rcv.queue.low == 1 ==> p.RAsleep? && rcv.queue.high == 0)
    && (Owes(rcv.writer) ==> p.RAsleep? && rcv.queue.low == 0)
    && (p.RAsleep? ==> rcv.queue.low == 1 || Owes(rcv.writer))
    && (p.RTake? ==> rcv.queue.high > 0)
  }

  /** No lost wake-up of a sender blocked on its window. */
  predicate SenderWake(snd: Sender) {
    && (snd.word.wait ==>
          snd.word.done >= snd.word.maxSize && !Drained(snd) && (snd.phase.SLoop? || snd.phase.SBlocked?))
    && (snd.phase.SBlocked? ==> snd.word.wait || snd.token || snd.allowing)
  }

  /** Credit kept at the receiver always waits for an element that is still to be read. */
  predicate KeptCredit(rcv: Receiver, rd: Reader) {
    && (rcv.word.done > 0 ==> |Flat(rcv.chain)| + CountedBytes(rcv.writer) + HeldBytes(rd) > 0)
    && (rd.phase.RSeen? && rd.phase.len > 0 ==> |Flat(rcv.chain)| + CountedBytes(rcv.writer) > 0)
  }

  function Line(read: seq<Cell>, held: seq<Cell>, queued: seq<Cell>, flying: seq<Cell>, sending: seq<Cell>): seq<Cell> {
    read + held + queued + flying + sending
  }

  /** Everything handed over: what the finished Writes did, then what the one in progress has cut. */
  function AllHanded(snd: Sender, handed: seq<seq<Byte>>): seq<Cell> {
    FlatWrites(handed) + CutSoFar(snd)
  }

  /** Everything handed over is, in order, what Read returned, what it holds, and what is on the way. */
  predicate Stream(s: State) {
    AllHanded(s.snd, s.hist.handed) ==
      Line(FlatReads(s.hist.delivered), ReaderCells(s.rd), ReceiverCells(s.rcv), Flat(s.segs),
           SendingCells(s.snd.phase))
  }

  /** A finished Write handed over a prefix of its buffer: all of it exactly when it is shorter than 2^32. */
  predicate HandedOver(buf: seq<Byte>, handed: seq<Byte>) {
    && handed <= buf
    && (handed == buf <==> |buf| < B32)
  }

  /** Every Write but the one in progress has finished. */
  predicate Handovers(snd: Sender, hist: History) {
    && |hist.written| == |hist.handed| + (if snd.phase.SIdle? then 0 else 1)
    && (forall i :: 0 <= i < |hist.handed| ==> HandedOver(hist.written[i], hist.handed[i]))
    && (!snd.phase.SIdle? ==> hist.written[|hist.written| - 1] == snd.buf)
  }

  predicate NoEnd(cells: seq<Cell>) {
    forall i :: 0 <= i < |cells| ==> !cells[i].last
  }

  /** Only the final byte of a result may end a Write call. */
  predicate OneWrite(cells: seq<Cell>) {
    cells != [] && NoEnd(cells[..|cells| - 1])
  }

  predicate OneWriteEach(results: seq<seq<Cell>>) {
    forall k :: 0 <= k < |results| ==> OneWrite(results[k])
  }

  /** What the current Read has copied so far stays within one Write call. */
  predicate Boundary(rd: Reader) {
    && (Filling(rd.phase) ==> NoEnd(rd.got))
    && (InStatus(rd.phase) || rd.phase.RAck? || rd.phase.RAfter?
        ==> OneWrite(rd.got) && (rd.elem.part ==> NoEnd(rd.got)))
  }

  predicate Shapes(s: State) {
    SenderShape(s.snd) && GoodSegments(s.segs) && ReceiverShape(s.rcv) && ReaderShape(s.rd)
  }

  predicate Counts(s: State) {
    Credit(s) && Bounded(s.snd, s.hist.peak) && QueueLength(s.rcv, s.rd)
  }

  predicate Wakes(s: State) {
    ReaderWake(s.rcv, s.rd.phase) && SenderWake(s.snd) && KeptCredit(s.rcv, s.rd)
  }

  /** Phases, counters and wake-ups. */
  predicate Flow(s: State) {
    Shapes(s) && Counts(s) && Wakes(s)
  }

  /** The bytes themselves. */
  predicate Content(s: State) {
    Stream(s) && Handovers(s.snd, s.hist) && Boundary(s.rd) && OneWriteEach(s.hist.delivered)
  }

  predicate Inv(s: State) {
    Flow(s) && Content(s)
  }

  // Sequences.

  lemma {:induction false} FlatAppend(segs: seq<Segment>, g: Segment)
    ensures Flat(segs + [g]) == Flat(segs) + Cells(g)
  {
    if segs == [] {
      assert segs + [g] == [g] && [g][1..] == [];
    } else {
      assert (segs + [g])[1..] == segs[1..] + [g];
      FlatAppend(segs[1..], g);
    }
  }

  lemma {:induction false} AckSumAppend(acks: seq<Window>, a: Window)
    ensures AckSum(acks + [a]) == AckSum(acks) + a.done
  {
    if acks == [] {
      assert acks + [a] == [a] && [a][1..] == [];
    } else {
      assert (acks + [a])[1..] == acks[1..] + [a];
      AckSumAppend(acks[1..], a);
    }
  }

  lemma {:induction false} AckSumRemove(acks: seq<Window>, i: nat)
    requires i < |acks|
    ensures AckSum(acks) == acks[i].done + AckSum(acks[..i] + acks[i + 1..])
  {
    if i == 0 {
      assert acks[..0] + acks[1..] == acks[1..];
    } else {
      AckSumRemove(acks[1..], i - 1);
      var rest := acks[..i] + acks[i + 1..];
      assert rest[1..] == acks[1..][..i - 1] + acks[1..][i..];
    }
  }

  /** Cutting a piece in two leaves the mark on its final byte with the second part. */
  lemma {:induction false} TagSplit(data: seq<Byte>, n: nat, ends: bool)
    requires n < |data|
    ensures Tag(data, ends) == Tag(data[..n], false) + Tag(data[n..], ends)
  {
    var whole, left, right := Tag(data, ends), Tag(data[..n], false), Tag(data[n..], ends);
    forall i | 0 <= i < |data| ensures whole[i] == (left + right)[i] {
      assert i >= n ==> data[n..][i - n] == data[i];
    }
  }

  // Moving bytes between neighbours leaves the stream as it was.

  lemma MoveToHeld(a: seq<Cell>, b: seq<Cell>, c: seq<Cell>, d: seq<Cell>, e: seq<Cell>, b': seq<Cell>, c': seq<Cell>)
    requires b + c == b' + c'
    ensures Line(a, b, c, d, e) == Line(a, b', c', d, e)
  {
    assert a + b + c == a + (b + c);
    assert a + b' + c' == a + (b' + c');
  }

  lemma MoveToQueue(a: seq<Cell>, b: seq<Cell>, c: seq<Cell>, d: seq<Cell>, e: seq<Cell>, c': seq<Cell>, d': seq<Cell>)
    requires c + d == c' + d'
    ensures Line(a, b, c, d, e) == Line(a, b, c', d', e)
  {
    assert a + b + c + d == a + b + (c + d);
    assert a + b + c' + d' == a + b + (c' + d');
  }

  lemma MoveToWire(a: seq<Cell>, b: seq<Cell>, c: seq<Cell>, d: seq<Cell>, e: seq<Cell>, d': seq<Cell>, e': seq<Cell>)
    requires d + e == d' + e'
    ensures Line(a, b, c, d, e) == Line(a, b, c, d', e')
  {
    assert a + b + c + d + e == a + b + c + (d + e);
    assert a + b + c + d' + e' == a + b + c + (d' + e');
  }

  lemma MoveToRead(a: seq<Cell>, b: seq<Cell>, c: seq<Cell>, d: seq<Cell>, e: seq<Cell>, a': seq<Cell>, b': seq<Cell>)
    requires a + b == a' + b'
    ensures Line(a, b, c, d, e) == Line(a', b', c, d, e)
  {
  }

  /** Steps that only change phases, counters and words leave the bytes where they are. */
  lemma ContentFrame(s: State, t: State)
    requires Content(s) && Boundary(t.rd)
    requires t.hist == s.hist && t.segs == s.segs && t.snd == s.snd
    requires t.rd.got == s.rd.got && t.rd.elem == s.rd.elem && t.rd.off == s.rd.off
    requires t.rcv.chain == s.rcv.chain && WriterCells(t.rcv.writer) == WriterCells(s.rcv.writer)
    ensures Content(t)
  {
    assert ReaderCells(t.rd) == ReaderCells(s.rd);
    assert ReceiverCells(t.rcv) == ReceiverCells(s.rcv);
  }

  // The sender's steps.

  lemma NothingCut(handed: seq<seq<Byte>>)
    ensures FlatWrites(handed) + [] == FlatWrites(handed)
  {
  }

  lemma KeepWrite(s: State, buf: seq<Byte>, t: State)
    requires Inv(s) && DoWrite(s, buf) == Some(t)
    ensures Inv(t)
  {
    if buf != [] {
      assert Flow(t);
      assert CutSoFar(t.snd) == [] == CutSoFar(s.snd);
      assert Content(t);
    }
  }

  /** What a sender's own step must keep for the whole connection to keep its invariant. */
  predicate SenderKept(snd: Sender, next: Sender, peak: nat) {
    && SenderShape(next)
    && Bounded(next, peak)
    && SenderWake(next)
    && next.buf == snd.buf && (next.phase.SIdle? <==> snd.phase.SIdle?)
    && CutSoFar(next) == CutSoFar(snd) && SendingCells(next.phase) == SendingCells(snd.phase)
    && next.word.done == snd.word.done
  }

  lemma SenderStep(s: State, next: Sender)
    requires Inv(s) && SenderKept(s.snd, next, s.hist.peak)
    ensures Inv(s.(snd := next))
  {
  }

  lemma SendLoadKept(snd: Sender, peak: nat)
    requires SenderShape(snd) && Bounded(snd, peak) && SenderWake(snd) && SendLoadStep(snd).Some?
    ensures SenderKept(snd, SendLoadStep(snd).value, peak)
  {
    MaskSmall(snd.word.maxSize);
    MaskSmall(snd.word.done);
    LengthBounded(snd.buf);
  }

  lemma LengthBounded(buf: seq<Byte>)
    ensures Length32(buf) <= |buf|
    ensures |buf| < B32 ==> Length32(buf) == |buf|
  {
    MaskSmall(|buf|);
  }

  /** A drained buffer shorter than 2^32 has been cut to its end; a longer one never is. */
  lemma DrainedHandsOver(snd: Sender)
    requires SenderShape(snd) && Drained(snd)
    ensures HandedOver(snd.buf, Handed(snd))
  {
    LengthBounded(snd.buf);
  }

  lemma FlatWritesAppend(handed: seq<seq<Byte>>, last: seq<Byte>)
    ensures FlatWrites(handed + [last]) == FlatWrites(handed) + Tag(last, true)
  {
    assert (handed + [last])[..|handed|] == handed;
  }

  lemma FinishHanded(snd: Sender, handed: seq<seq<Byte>>)
    requires snd.phase.SLoop? && Drained(snd)
    ensures AllHanded(snd.(phase := SIdle), handed + [Handed(snd)]) == AllHanded(snd, handed)
  {
    FlatWritesAppend(handed, Handed(snd));
    NothingCut(handed + [Handed(snd)]);
  }

  lemma FinishHandovers(snd: Sender, hist: History)
    requires SenderShape(snd) && Handovers(snd, hist) && snd.phase.SLoop? && Drained(snd)
    ensures Handovers(snd.(phase := SIdle), hist.(handed := hist.handed + [Handed(snd)]))
  {
    DrainedHandsOver(snd);
  }

  lemma FinishContent(s: State, t: State)
    requires SenderShape(s.snd) && Content(s) && s.snd.phase.SLoop? && Drained(s.snd)
    requires t.snd == s.snd.(phase := SIdle) && t.hist == s.hist.(handed := s.hist.handed + [Handed(s.snd)])
    requires t == s.(snd := t.snd, hist := t.hist)
    ensures Content(t)
  {
    FinishHanded(s.snd, s.hist.handed);
    FinishHandovers(s.snd, s.hist);
  }

  lemma KeepSendLoad(s: State, t: State)
    requires Inv(s) && DoSendLoad(s) == Some(t)
    ensures Inv(t)
  {
    if Drained(s.snd) && s.snd.phase.SLoop? {
      FinishContent(s, t);
      assert Flow(t);
    } else {
      SendLoadKept(s.snd, s.hist.peak);
      SenderStep(s, SendLoadStep(s.snd).value);
    }
  }

  lemma SentFits(snd: Sender, peak: nat)
    requires SenderShape(snd) && Bounded(snd, peak) && snd.phase.SReserved?
    ensures SentWord(snd.word, snd.phase.size)
         == Some(Window(snd.word.maxSize, snd.word.done + snd.phase.size, snd.word.wait))
  {
    MaskSmall(snd.word.done + snd.phase.size);
    MaskSmall(snd.word.maxSize);
  }

  /** The end of the slice either fits or wraps to before its start. */
  lemma EndWraps(off: U32, size: nat)
    requires size <= SEGMENT_MAX
    ensures Mask32(off + size) == if off + size < B32 then off + size else off + size - B32
  {
    if off + size < B32 {
      MaskSmall(off + size);
    } else {
      DivModUnique(off + size, B32, 1, off + size - B32);
    }
  }

  /** The part flag is up exactly while the offset stays below the 32-bit length. */
  lemma PartExact(buf: seq<Byte>, off: nat, size: nat)
    requires off < Length32(buf) && off <= |buf|
    ensures Part(buf, off, size) <==> off + size < Length32(buf)
  {
    var q := |buf| / B32;
    assert |buf| == q * B32 + Length32(buf);
    DivModUnique(|buf| - off, B32, q, Length32(buf) - off);
  }

  /** The slice WriteTo takes extends what was cut before. */
  lemma CutCells(buf: seq<Byte>, off: nat, end: nat, ends: bool)
    requires off < end <= |buf|
    ensures Tag(buf[..end], ends) == Tag(buf[..off], false) + Cells(Segment(buf[off..end], !ends))
  {
    TagSplit(buf[..end], off, ends);
    assert buf[..end][..off] == buf[..off];
    assert buf[..end][off..] == buf[off..end];
  }

  lemma CommitSegment(snd: Sender, next: Sender, peak: nat)
    requires SenderShape(snd) && Bounded(snd, peak) && SendCommitStep(snd) == Some(next) && !next.phase.SPanicked?
    ensures next.buf == snd.buf && next.off == snd.off + snd.phase.size <= |snd.buf| && next.word.wait == snd.word.wait
    ensures next.phase == SSending(Segment(snd.buf[snd.off..next.off], !Drained(next))) && GoodSegment(next.phase.seg)
  {
    SentFits(snd, peak);
    EndWraps(snd.off, snd.phase.size);
    PartExact(snd.buf, snd.off, snd.phase.size);
  }

  lemma CommitCells(snd: Sender, next: Sender, peak: nat)
    requires SenderShape(snd) && Bounded(snd, peak) && SendCommitStep(snd) == Some(next) && !next.phase.SPanicked?
    ensures next.phase.SSending? && CutSoFar(next) == CutSoFar(snd) + Cells(next.phase.seg)
  {
    CommitSegment(snd, next, peak);
    CutCells(snd.buf, snd.off, next.off, Drained(next));
    assert Handed(snd) == snd.buf[..snd.off] && Handed(next) == snd.buf[..next.off];
  }

  /** What cutting and counting a segment must keep. */
  lemma CommitKept(snd: Sender, next: Sender, peak: nat)
    requires SenderShape(snd) && Bounded(snd, peak) && SenderWake(snd)
    requires SendCommitStep(snd) == Some(next) && !next.phase.SPanicked?
    ensures SenderShape(next) && Bounded(next, peak) && SenderWake(next)
    ensures next.word.done == snd.word.done + |SendingCells(next.phase)| && SendingCells(snd.phase) == []
  {
    SentFits(snd, peak);
    CommitSegment(snd, next, peak);
  }

  lemma PanicKept(snd: Sender, peak: nat)
    requires SenderShape(snd) && Bounded(snd, peak) && SenderWake(snd) && snd.phase.SReserved?
    requires snd.off + snd.phase.size >= B32
    ensures SenderKept(snd, snd.(phase := SPanicked), peak)
  {
  }

  lemma CommitContent(s: State, next: Sender)
    requires Flow(s) && Content(s) && SendCommitStep(s.snd) == Some(next) && !next.phase.SPanicked?
    ensures Content(s.(snd := next))
  {
    CommitSegment(s.snd, next, s.hist.peak);
    CommitCells(s.snd, next, s.hist.peak);
    var more := SendingCells(next.phase);
    Regroup(FlatWrites(s.hist.handed), CutSoFar(s.snd), more);
    var line := FlatReads(s.hist.delivered) + ReaderCells(s.rd) + ReceiverCells(s.rcv) + Flat(s.segs);
    assert line + [] == line;
  }

  lemma CommitFlow(s: State, t: State)
    requires Flow(s) && SendCommitStep(s.snd) == Some(t.snd) && t == s.(snd := t.snd) && !t.snd.phase.SPanicked?
    ensures Flow(t)
  {
    CommitKept(s.snd, t.snd, s.hist.peak);
  }

  lemma KeepSendCommit(s: State, t: State)
    requires Inv(s) && WithSender(s, SendCommitStep(s.snd)) == Some(t)
    ensures Inv(t)
  {
    EndWraps(s.snd.off, s.snd.phase.size);
    if t.snd.phase.SPanicked? {
      PanicKept(s.snd, s.hist.peak);
      SenderStep(s, t.snd);
    } else {
      CommitFlow(s, t);
      CommitContent(s, t.snd);
    }
  }

  lemma SendEmitFlow(s: State)
    requires Flow(s) && DoSendEmit(s).Some?
    ensures Flow(DoSendEmit(s).value)
  {
    FlatAppend(s.segs, s.snd.phase.seg);
  }

  lemma SendEmitCells(s: State)
    requires DoSendEmit(s).Some?
    ensures var t := DoSendEmit(s).value;
      Flat(t.segs) + SendingCells(t.snd.phase) == Flat(s.segs) + SendingCells(s.snd.phase)
  {
    FlatAppend(s.segs, s.snd.phase.seg);
    assert Flat(s.segs) + Cells(s.snd.phase.seg) + [] == Flat(s.segs) + Cells(s.snd.phase.seg);
  }

  lemma SendEmitContent(s: State)
    requires Content(s) && DoSendEmit(s).Some?
    ensures Content(DoSendEmit(s).value)
  {
    var t := DoSendEmit(s).value;
    SendEmitCells(s);
    MoveToWire(FlatReads(s.hist.delivered), ReaderCells(s.rd), ReceiverCells(s.rcv), Flat(s.segs),
               SendingCells(s.snd.phase), Flat(t.segs), SendingCells(t.snd.phase));
  }

  lemma KeepSendEmit(s: State, t: State)
    requires Inv(s) && DoSendEmit(s) == Some(t)
    ensures Inv(t)
  {
    SendEmitFlow(s);
    SendEmitContent(s);
  }

  lemma KeepSendWake(s: State, t: State)
    requires Inv(s) && WithSender(s, SendWakeStep(s.snd)) == Some(t)
    ensures Inv(t)
  {
    SenderStep(s, SendWakeStep(s.snd).value);
  }

  /** No acknowledgement ever returns more than is outstanding: SetSize's rejection is unreachable. */
  lemma AckFits(s: State, i: nat)
    requires Credit(s) && i < |s.acks|
    ensures s.acks[i].done <= s.snd.word.done
    ensures !SetSizeWord(s.snd.word, s.acks[i]).Rejected?
  {
    AckSumRemove(s.acks, i);
  }

  lemma SetSizeKept(snd: Sender, a: Window, peak: nat)
    requires SenderShape(snd) && Bounded(snd, peak) && SenderWake(snd) && !snd.allowing && a.done <= snd.word.done
    requires SetSizeWord(snd.word, a).Stored?
    ensures var r := SetSizeWord(snd.word, a);
      var next := snd.(word := r.word, allowing := r.wake);
      && SenderShape(next)
      && Bounded(next, Max(peak, r.word.maxSize))
      && SenderWake(next)
      && CutSoFar(next) == CutSoFar(snd) && next.phase == snd.phase && next.buf == snd.buf
      && next.word.done == snd.word.done - a.done
  {
    MaskSmall(a.maxSize);
    MaskSmall(snd.word.done - a.done);
  }

  lemma KeepAckApply(s: State, i: nat, t: State)
    requires Inv(s) && DoAckApply(s, i) == Some(t)
    ensures Inv(t)
  {
    AckFits(s, i);
    AckSumRemove(s.acks, i);
    if SetSizeWord(s.snd.word, s.acks[i]).Stored? {
      SetSizeKept(s.snd, s.acks[i], s.hist.peak);
    }
  }

  lemma KeepAckSignal(s: State, t: State)
    requires Inv(s) && WithSender(s, AckSignalStep(s.snd)) == Some(t)
    ensures Inv(t)
  {
    SenderStep(s, AckSignalStep(s.snd).value);
  }

  // The receiver's session reader.

  lemma DeliverFlow(s: State)
    requires Flow(s) && DoDeliver(s).Some?
    ensures Flow(DoDeliver(s).value)
  {
    assert GoodSegment(s.segs[0]);
  }

  lemma DeliverCells(s: State)
    requires DoDeliver(s).Some?
    ensures var t := DoDeliver(s).value; ReceiverCells(t.rcv) + Flat(t.segs) == ReceiverCells(s.rcv) + Flat(s.segs)
  {
    var queued, seg, rest := Flat(s.rcv.chain), Cells(s.segs[0]), Flat(s.segs[1..]);
    assert queued + seg + rest == queued + [] + (seg + rest);
  }

  lemma DeliverContent(s: State)
    requires Content(s) && DoDeliver(s).Some?
    ensures Content(DoDeliver(s).value)
  {
    var t := DoDeliver(s).value;
    DeliverCells(s);
    MoveToQueue(FlatReads(s.hist.delivered), ReaderCells(s.rd), ReceiverCells(s.rcv), Flat(s.segs),
                SendingCells(s.snd.phase), ReceiverCells(t.rcv), Flat(t.segs));
  }

  lemma KeepDeliver(s: State, t: State)
    requires Inv(s) && DoDeliver(s) == Some(t)
    ensures Inv(t)
  {
    DeliverFlow(s);
    DeliverContent(s);
  }

  lemma ResizeFlow(s: State, n: nat, t: State)
    requires Flow(s) && WithReceiver(s, ResizeStep(s.rcv, n)) == Some(t)
    ensures Flow(t)
  {
    MaskSmall(s.rcv.word.done);
  }

  lemma KeepResize(s: State, n: nat, t: State)
    requires Inv(s) && WithReceiver(s, ResizeStep(s.rcv, n)) == Some(t)
    ensures Inv(t)
  {
    ResizeFlow(s, n, t);
    ContentFrame(s, t);
  }

  lemma RecvLoadFlow(s: State, t: State)
    requires Flow(s) && WithReceiver(s, RecvLoadStep(s.rcv)) == Some(t)
    ensures Flow(t)
  {
  }

  lemma KeepRecvLoad(s: State, t: State)
    requires Inv(s) && WithReceiver(s, RecvLoadStep(s.rcv)) == Some(t)
    ensures Inv(t)
  {
    RecvLoadFlow(s, t);
    ContentFrame(s, t);
  }

  lemma RecvLenFlow(s: State, t: State)
    requires Flow(s) && WithReceiver(s, RecvLenStep(s.rcv)) == Some(t)
    ensures Flow(t)
  {
  }

  lemma KeepRecvLen(s: State, t: State)
    requires Inv(s) && WithReceiver(s, RecvLenStep(s.rcv)) == Some(t)
    ensures Inv(t)
  {
    RecvLenFlow(s, t);
    ContentFrame(s, t);
  }

  lemma RecvCasKept(rcv: Receiver)
    requires ReceiverShape(rcv) && RecvCasStep(rcv).Some?
    ensures var next := RecvCasStep(rcv).value;
      && ReceiverShape(next)
      && ReceiverCells(next) == ReceiverCells(rcv)
      && next.word.done + WriterAck(next.writer) == rcv.word.done
      && next.chain == rcv.chain && next.queue == rcv.queue
      && CountedBytes(next.writer) == 0 && !Owes(next.writer)
  {
    MaskSmall(0);
    MaskSmall(rcv.word.done);
  }

  lemma KeepRecvCas(s: State, t: State)
    requires Inv(s) && WithReceiver(s, RecvCasStep(s.rcv)) == Some(t)
    ensures Inv(t)
  {
    RecvCasKept(s.rcv);
  }

  lemma PushCountShapes(s: State, t: State)
    requires Flow(s) && PushCountStep(s.rcv) == Some(t.rcv) && t == s.(rcv := t.rcv)
    ensures Shapes(t)
  {
    assert s.rcv.queue.high + |s.rcv.writer.seg.data| <= s.snd.word.done;
    MaskSmall(s.rcv.queue.high + |s.rcv.writer.seg.data|);
  }

  lemma PushCountCounts(s: State, t: State)
    requires Flow(s) && PushCountStep(s.rcv) == Some(t.rcv) && t == s.(rcv := t.rcv)
    ensures Counts(t)
  {
    assert s.rcv.queue.high + |s.rcv.writer.seg.data| <= s.snd.word.done;
    MaskSmall(s.rcv.queue.high + |s.rcv.writer.seg.data|);
  }

  lemma PushCountWakes(s: State, t: State)
    requires Flow(s) && PushCountStep(s.rcv) == Some(t.rcv) && t == s.(rcv := t.rcv)
    ensures Wakes(t)
  {
    assert s.rcv.queue.high + |s.rcv.writer.seg.data| <= s.snd.word.done;
    MaskSmall(s.rcv.queue.high + |s.rcv.writer.seg.data|);
  }

  lemma PushCountFlow(s: State, t: State)
    requires Flow(s) && PushCountStep(s.rcv) == Some(t.rcv) && t == s.(rcv := t.rcv)
    ensures Flow(t)
  {
    PushCountShapes(s, t);
    PushCountCounts(s, t);
    PushCountWakes(s, t);
  }

  lemma PushCountContent(s: State)
    requires Content(s) && PushCountStep(s.rcv).Some?
    ensures Content(s.(rcv := PushCountStep(s.rcv).value))
  {
    ContentFrame(s, s.(rcv := PushCountStep(s.rcv).value));
  }

  lemma KeepPushCount(s: State, t: State)
    requires Inv(s) && WithReceiver(s, PushCountStep(s.rcv)) == Some(t)
    ensures Inv(t)
  {
    PushCountFlow(s, t);
    PushCountContent(s);
  }

  lemma PushChainCells(rcv: Receiver, next: Receiver)
    requires PushChainStep(rcv) == Some(next)
    ensures ReceiverCells(next) == ReceiverCells(rcv) && Flat(next.chain) == Flat(rcv.chain) + WriterCells(rcv.writer)
    ensures next.chain == rcv.chain + [rcv.writer.seg] && WriterCells(next.writer) == []
    ensures next == rcv.(chain := next.chain, writer := next.writer)
  {
    FlatAppend(rcv.chain, rcv.writer.seg);
    assert Flat(rcv.chain) + Cells(rcv.writer.seg) + [] == Flat(rcv.chain) + Cells(rcv.writer.seg);
  }

  lemma PushChainFlow(s: State, t: State)
    requires Flow(s) && PushChainStep(s.rcv) == Some(t.rcv) && t == s.(rcv := t.rcv)
    ensures Flow(t)
  {
    PushChainCells(s.rcv, t.rcv);
  }

  lemma PushChainContent(s: State, t: State)
    requires Content(s) && PushChainStep(s.rcv) == Some(t.rcv) && t == s.(rcv := t.rcv)
    ensures Content(t)
  {
    PushChainCells(s.rcv, t.rcv);
  }

  lemma KeepPushChain(s: State, t: State)
    requires Inv(s) && WithReceiver(s, PushChainStep(s.rcv)) == Some(t)
    ensures Inv(t)
  {
    PushChainFlow(s, t);
    PushChainContent(s, t);
  }

  lemma PushSignalFlow(s: State, t: State)
    requires Flow(s) && DoPushSignal(s) == Some(t)
    ensures Flow(t)
  {
  }

  lemma KeepPushSignal(s: State, t: State)
    requires Inv(s) && DoPushSignal(s) == Some(t)
    ensures Inv(t)
  {
    PushSignalFlow(s, t);
    ContentFrame(s, t);
  }

  lemma RecvAckFlow(s: State, t: State)
    requires Flow(s) && DoRecvAck(s) == Some(t)
    ensures Flow(t)
  {
    if s.rcv.writer.ack.Some? {
      AckSumAppend(s.acks, s.rcv.writer.ack.value);
    }
  }

  lemma RecvAckContent(s: State, t: State)
    requires Content(s) && DoRecvAck(s) == Some(t)
    ensures Content(t)
  {
    assert t.rcv == s.rcv.(writer := WIdle) && t == s.(rcv := t.rcv, acks := t.acks);
    ContentFrame(s, t);
  }

  lemma KeepRecvAck(s: State, t: State)
    requires Inv(s) && DoRecvAck(s) == Some(t)
    ensures Inv(t)
  {
    RecvAckFlow(s, t);
    RecvAckContent(s, t);
  }

  // The reader.

  lemma ReadCallFlow(s: State, want: nat, t: State)
    requires Flow(s) && WithReader(s, ReadCallStep(s.rd, want)) == Some(t)
    ensures Flow(t)
  {
  }

  lemma KeepReadCall(s: State, want: nat, t: State)
    requires Inv(s) && WithReader(s, ReadCallStep(s.rd, want)) == Some(t)
    ensures Inv(t)
  {
    ReadCallFlow(s, want, t);
    if want > 0 {
      ContentFrame(s, t);
    }
  }

  lemma ReadTopFlow(s: State)
    requires Flow(s) && ReadTopStep(s.rd).Some?
    ensures Flow(s.(rd := ReadTopStep(s.rd).value))
  {
  }

  lemma ReadTopContent(s: State)
    requires Content(s) && ReadTopStep(s.rd).Some?
    ensures Content(s.(rd := ReadTopStep(s.rd).value))
  {
    ContentFrame(s, s.(rd := ReadTopStep(s.rd).value));
  }

  lemma KeepReadTop(s: State, t: State)
    requires Inv(s) && WithReader(s, ReadTopStep(s.rd)) == Some(t)
    ensures Inv(t)
  {
    ReadTopFlow(s);
    ReadTopContent(s);
  }

  lemma PopCheckShapes(s: State, t: State)
    requires Flow(s) && DoPopCheck(s) == Some(t)
    ensures Shapes(t)
  {
  }

  lemma PopCheckCounts(s: State, t: State)
    requires Flow(s) && DoPopCheck(s) == Some(t)
    ensures Counts(t)
  {
    assert t.snd == s.snd && t.segs == s.segs && t.acks == s.acks && t.hist == s.hist;
    assert t.rcv == s.rcv.(queue := t.rcv.queue) && t.rcv.queue.high == s.rcv.queue.high;
    assert t.rd == s.rd.(phase := t.rd.phase) && (t.rd.phase.RAsleep? || t.rd.phase.RTake?);
  }

  lemma PopCheckWakes(s: State, t: State)
    requires Flow(s) && DoPopCheck(s) == Some(t)
    ensures Wakes(t)
  {
  }

  lemma PopCheckFlow(s: State, t: State)
    requires Flow(s) && DoPopCheck(s) == Some(t)
    ensures Flow(t)
  {
    PopCheckShapes(s, t);
    PopCheckCounts(s, t);
    PopCheckWakes(s, t);
  }

  lemma PopCheckFrame(s: State, t: State)
    requires DoPopCheck(s) == Some(t) && Boundary(s.rd)
    ensures t.rcv == s.rcv.(queue := t.rcv.queue) && t.rd == s.rd.(phase := t.rd.phase)
    ensures t == s.(rcv := t.rcv, rd := t.rd)
    ensures Boundary(t.rd)
  {
  }

  lemma PopCheckContent(s: State, t: State)
    requires Content(s) && DoPopCheck(s) == Some(t)
    ensures Content(t)
  {
    PopCheckFrame(s, t);
    ContentFrame(s, t);
  }

  lemma KeepPopCheck(s: State, t: State)
    requires Inv(s) && DoPopCheck(s) == Some(t)
    ensures Inv(t)
  {
    PopCheckFlow(s, t);
    PopCheckContent(s, t);
  }

  lemma TakeRegroup(got: seq<Cell>, front: seq<Cell>, rest: seq<Cell>, writer: seq<Cell>)
    ensures got + front + (rest + writer) == got + (front + rest + writer)
  {
  }

  lemma PopTakeCells(s: State)
    requires ReceiverShape(s.rcv) && ReaderShape(s.rd) && DoPopTake(s).Some?
    ensures var t := DoPopTake(s).value;
      && GoodSegment(t.rd.elem)
      && Flat(s.rcv.chain) == Cells(t.rd.elem) + Flat(t.rcv.chain)
      && ReaderCells(t.rd) + ReceiverCells(t.rcv) == ReaderCells(s.rd) + ReceiverCells(s.rcv)
  {
    var t := DoPopTake(s).value;
    assert GoodSegment(s.rcv.chain[0]);
    assert ReaderCells(s.rd) == s.rd.got;
    assert ReaderCells(t.rd) == s.rd.got + Cells(t.rd.elem);
    TakeRegroup(s.rd.got, Cells(t.rd.elem), Flat(t.rcv.chain), WriterCells(s.rcv.writer));
  }

  lemma PopTakeFlow(s: State)
    requires Flow(s) && DoPopTake(s).Some?
    ensures Flow(DoPopTake(s).value)
  {
    PopTakeCells(s);
    var t := DoPopTake(s).value;
    assert GoodSegments(t.rcv.chain);
    assert |Flat(s.rcv.chain)| == |t.rd.elem.data| + |Flat(t.rcv.chain)|;
  }

  lemma StreamRegrouped(s: State, t: State)
    requires Stream(s) && t.snd == s.snd && t.hist == s.hist && t.segs == s.segs
    requires ReaderCells(t.rd) + ReceiverCells(t.rcv) == ReaderCells(s.rd) + ReceiverCells(s.rcv)
    ensures Stream(t)
  {
    MoveToHeld(FlatReads(s.hist.delivered), ReaderCells(s.rd), ReceiverCells(s.rcv), Flat(s.segs),
               SendingCells(s.snd.phase), ReaderCells(t.rd), ReceiverCells(t.rcv));
  }

  lemma PopTakeContent(s: State)
    requires ReceiverShape(s.rcv) && ReaderShape(s.rd) && Content(s) && DoPopTake(s).Some?
    ensures Content(DoPopTake(s).value)
  {
    PopTakeCells(s);
    StreamRegrouped(s, DoPopTake(s).value);
  }

  lemma KeepPopTake(s: State, t: State)
    requires Inv(s) && DoPopTake(s) == Some(t)
    ensures Inv(t)
  {
    PopTakeFlow(s);
    PopTakeContent(s);
  }

  lemma PopUncountFlow(s: State, t: State)
    requires Flow(s) && DoPopUncount(s) == Some(t)
    ensures Flow(t)
  {
    var n := |s.rd.elem.data|;
    DivModUnique(s.rcv.queue.high + B32 - n, B32, 1, s.rcv.queue.high - n);
  }

  lemma KeepPopUncount(s: State, t: State)
    requires Inv(s) && DoPopUncount(s) == Some(t)
    ensures Inv(t)
  {
    PopUncountFlow(s, t);
    ContentFrame(s, t);
  }

  /** A piece of a segment ends a Write only with its final byte, and only if it is the final piece of it. */
  lemma PieceEnds(elem: Segment, off: nat, end: nat)
    requires off < end <= |elem.data|
    ensures NoEnd(Cells(elem)[off..end][..end - off - 1])
    ensures Cells(elem)[end - 1].last <==> !elem.part && end == |elem.data|
  {
    var piece := Cells(elem)[off..end][..end - off - 1];
    forall i | 0 <= i < |piece| ensures !piece[i].last {
      assert piece[i] == Cells(elem)[off + i];
    }
  }

  lemma JoinEnds(got: seq<Cell>, more: seq<Cell>)
    requires NoEnd(got) && more != [] && NoEnd(more[..|more| - 1])
    ensures OneWrite(got + more) && (got + more)[|got + more| - 1] == more[|more| - 1]
    ensures !more[|more| - 1].last ==> NoEnd(got + more)
  {
    assert (got + more)[..|got + more| - 1] == got + more[..|more| - 1];
    NoEndJoin(got, more[..|more| - 1]);
    if !more[|more| - 1].last {
      NoEndJoin(more[..|more| - 1], [more[|more| - 1]]);
      assert more == more[..|more| - 1] + [more[|more| - 1]];
      NoEndJoin(got, more);
    }
  }

  lemma NoEndJoin(a: seq<Cell>, b: seq<Cell>)
    requires NoEnd(a) && NoEnd(b)
    ensures NoEnd(a + b)
  {
  }

  lemma CutPiece(cells: seq<Cell>, off: nat, end: nat)
    requires off <= end <= |cells|
    ensures cells[off..] == cells[off..end] + cells[end..]
  {
  }

  lemma CopyShape(rd: Reader)
    requires ReaderShape(rd) && rd.phase.RCopy?
    ensures ReadCopyStep(rd).Some?
    ensures var next := ReadCopyStep(rd).value;
      && ReaderShape(next) && rd.off < next.off <= |rd.elem.data| && next.elem == rd.elem
      && next.got == rd.got + Cells(rd.elem)[rd.off..next.off]
      && (next.phase.RStatus? || next.phase.RAfter?)
  {
  }

  lemma CopyCells(rd: Reader)
    requires ReaderShape(rd) && Boundary(rd) && rd.phase.RCopy?
    ensures ReadCopyStep(rd).Some?
    ensures ReaderCells(ReadCopyStep(rd).value) == ReaderCells(rd)
    ensures Boundary(ReadCopyStep(rd).value) && ReaderShape(ReadCopyStep(rd).value)
  {
    CopyShape(rd);
    var next := ReadCopyStep(rd).value;
    var cells := Cells(rd.elem);
    CutPiece(cells, rd.off, next.off);
    Regroup(rd.got, cells[rd.off..next.off], cells[next.off..]);
    PieceEnds(rd.elem, rd.off, next.off);
    JoinEnds(rd.got, cells[rd.off..next.off]);
  }

  lemma KeepReadCopy(s: State, t: State)
    requires Inv(s) && WithReader(s, ReadCopyStep(s.rd)) == Some(t)
    ensures Inv(t)
  {
    CopyCells(s.rd);
  }

  lemma StatusLoadFlow(s: State, t: State)
    requires Flow(s) && DoStatusLoad(s) == Some(t)
    ensures Flow(t)
  {
  }

  lemma KeepStatusLoad(s: State, t: State)
    requires Inv(s) && DoStatusLoad(s) == Some(t)
    ensures Inv(t)
  {
    StatusLoadFlow(s, t);
    ContentFrame(s, t);
  }

  lemma StatusLenFlow(s: State, t: State)
    requires Flow(s) && DoStatusLen(s) == Some(t)
    ensures Flow(t)
  {
  }

  lemma KeepStatusLen(s: State, t: State)
    requires Inv(s) && DoStatusLen(s) == Some(t)
    ensures Inv(t)
  {
    StatusLenFlow(s, t);
    ContentFrame(s, t);
  }

  /** sendStatus never takes its overflow branch, and splits the credit between the word and the acknowledgement. */
  lemma StatusFits(w: Window, l: nat, len: nat)
    requires w.done < B31 / 2 && l <= SEGMENT_MAX
    ensures var r := StatusWord(w, l, len);
      && !r.overflow
      && r.word.done + PendingRead(r.ack) == w.done + l
      && r.word.done < B31 / 2
      && (r.word.done > 0 ==> len > 0)
  {
    MaskSmall(0);
    MaskSmall(w.done + l);
  }

  lemma StatusCasShapes(s: State, t: State)
    requires Flow(s) && DoStatusCas(s) == Some(t)
    ensures Shapes(t)
  {
    StatusFits(s.rcv.word, |s.rd.elem.data|, s.rd.phase.len);
  }

  lemma StatusCasCounts(s: State, t: State)
    requires Flow(s) && DoStatusCas(s) == Some(t)
    ensures Counts(t)
  {
    StatusFits(s.rcv.word, |s.rd.elem.data|, s.rd.phase.len);
    assert t.snd == s.snd && t.segs == s.segs && t.acks == s.acks && t.hist == s.hist;
    assert t.rcv == s.rcv.(word := t.rcv.word) && t.rd == s.rd.(phase := t.rd.phase);
    assert HeldBytes(t.rd) + t.rcv.word.done + ReaderAck(t.rd.phase)
        == HeldBytes(s.rd) + s.rcv.word.done + ReaderAck(s.rd.phase);
  }

  lemma StatusCasWakes(s: State, t: State)
    requires Flow(s) && DoStatusCas(s) == Some(t)
    ensures Wakes(t)
  {
    StatusFits(s.rcv.word, |s.rd.elem.data|, s.rd.phase.len);
  }

  lemma StatusCasFlow(s: State, t: State)
    requires Flow(s) && DoStatusCas(s) == Some(t)
    ensures Flow(t)
  {
    StatusCasShapes(s, t);
    StatusCasCounts(s, t);
    StatusCasWakes(s, t);
  }

  lemma StatusCasFrame(s: State, t: State)
    requires DoStatusCas(s) == Some(t) && Boundary(s.rd)
    ensures t.rcv == s.rcv.(word := t.rcv.word) && t.rd == s.rd.(phase := t.rd.phase)
    ensures t == s.(rcv := t.rcv, rd := t.rd)
    ensures Boundary(t.rd)
  {
  }

  lemma StatusCasContent(s: State, t: State)
    requires Content(s) && DoStatusCas(s) == Some(t)
    ensures Content(t)
  {
    StatusCasFrame(s, t);
    ContentFrame(s, t);
  }

  lemma KeepStatusCas(s: State, t: State)
    requires Inv(s) && DoStatusCas(s) == Some(t)
    ensures Inv(t)
  {
    StatusCasFlow(s, t);
    StatusCasContent(s, t);
  }

  lemma ReadAckFlow(s: State, t: State)
    requires Flow(s) && DoReadAck(s) == Some(t)
    ensures Flow(t)
  {
    AckSumAppend(s.acks, s.rd.phase.ack);
  }

  lemma KeepReadAck(s: State, t: State)
    requires Inv(s) && DoReadAck(s) == Some(t)
    ensures Inv(t)
  {
    ReadAckFlow(s, t);
    ContentFrame(s, t);
  }

  lemma FlatReadsAppend(results: seq<seq<Cell>>, r: seq<Cell>)
    ensures FlatReads(results + [r]) == FlatReads(results) + r
  {
    assert (results + [r])[..|results|] == results;
  }

  function LeftOver(elem: Segment, off: nat): seq<Cell> {
    Cells(elem)[Min(off, |elem.data|)..]
  }

  lemma NothingCopied(elem: Segment, off: nat)
    ensures CopiedAndLeft([], elem, off) == LeftOver(elem, off)
  {
  }

  lemma ReturnStream(s: State, t: State)
    requires Stream(s) && t.hist == s.hist.(delivered := s.hist.delivered + [s.rd.got])
    requires t == s.(rd := s.rd.(phase := RIdle, got := []), hist := t.hist)
    ensures Stream(t)
  {
    var before, got, left := FlatReads(s.hist.delivered), s.rd.got, LeftOver(s.rd.elem, s.rd.off);
    FlatReadsAppend(s.hist.delivered, got);
    NothingCopied(s.rd.elem, s.rd.off);
    Regroup(before, got, left);
    MoveToRead(before, got + left, ReceiverCells(s.rcv), Flat(s.segs), SendingCells(s.snd.phase), before + got, left);
  }

  lemma ReturnContent(s: State, t: State)
    requires Content(s) && s.rd.phase.RAfter? && t.hist == s.hist.(delivered := s.hist.delivered + [s.rd.got])
    requires t == s.(rd := s.rd.(phase := RIdle, got := []), hist := t.hist)
    ensures Content(t)
  {
    ReturnStream(s, t);
  }

  lemma ReadNextShapes(s: State, t: State)
    requires Flow(s) && DoReadNext(s) == Some(t)
    ensures Shapes(t)
  {
  }

  lemma ReadNextCounts(s: State, t: State)
    requires Flow(s) && DoReadNext(s) == Some(t)
    ensures Counts(t)
  {
  }

  lemma ReadNextWakes(s: State, t: State)
    requires Flow(s) && DoReadNext(s) == Some(t)
    ensures Wakes(t)
  {
  }

  lemma ReadNextFlow(s: State, t: State)
    requires Flow(s) && DoReadNext(s) == Some(t)
    ensures Flow(t)
  {
    ReadNextShapes(s, t);
    ReadNextCounts(s, t);
    ReadNextWakes(s, t);
  }

  lemma NextContent(s: State, t: State)
    requires Content(s) && DoReadNext(s) == Some(t)
    ensures Content(t)
  {
    if t.rd.phase.RIdle? {
      ReturnContent(s, t);
    } else {
      ContentFrame(s, t);
    }
  }

  lemma KeepReadNext(s: State, t: State)
    requires Inv(s) && DoReadNext(s) == Some(t)
    ensures Inv(t)
  {
    ReadNextFlow(s, t);
    NextContent(s, t);
  }

  lemma StartInv()
    ensures Inv(Start())
  {
    MaskSmall(START_WINDOW);
    MaskSmall(0);
  }
}
