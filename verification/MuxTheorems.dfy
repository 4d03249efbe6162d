/** Guarantees of one connection over every interleaving of its steps. */
module MuxTheorems {
  import opened Common
  import opened MuxPackets
  import opened MuxWord
  import opened MuxStream
  import opened MuxInvariant

  predicate SenderAction(a: Action) {
    a.Write? || a.SendLoad? || a.SendCommit? || a.SendEmit? || a.SendWake? || a.AckApply? || a.AckSignal?
  }

  predicate WriterAction(a: Action) {
    a.Deliver? || a.Resize? || a.RecvLoad? || a.RecvLen? || a.RecvCas? || a.PushCount? || a.PushChain?
    || a.PushSignal? || a.RecvAck?
  }

  lemma SenderActionKeeps(s: State, a: Action, t: State)
    requires Inv(s) && SenderAction(a) && Exec(s, a) == Some(t)
    ensures Inv(t)
  {
    match a
    case Write(buf) => KeepWrite(s, buf, t);
    case SendLoad => KeepSendLoad(s, t);
    case SendCommit => KeepSendCommit(s, t);
    case SendEmit => KeepSendEmit(s, t);
    case SendWake => KeepSendWake(s, t);
    case AckApply(i) => KeepAckApply(s, i, t);
    case AckSignal => KeepAckSignal(s, t);
  }

  lemma QueueActionKeeps(s: State, a: Action, t: State)
    requires Inv(s) && (a.PushCount? || a.PushChain? || a.PushSignal? || a.RecvAck?) && Exec(s, a) == Some(t)
    ensures Inv(t)
  {
    match a
    case PushCount => KeepPushCount(s, t);
    case PushChain => KeepPushChain(s, t);
    case PushSignal => KeepPushSignal(s, t);
    case RecvAck => KeepRecvAck(s, t);
  }

  lemma ReceiveActionKeeps(s: State, a: Action, t: State)
    requires Inv(s) && (a.Deliver? || a.Resize? || a.RecvLoad? || a.RecvLen? || a.RecvCas?) && Exec(s, a) == Some(t)
    ensures Inv(t)
  {
    match a
    case Deliver => KeepDeliver(s, t);
    case Resize(n) => KeepResize(s, n, t);
    case RecvLoad => KeepRecvLoad(s, t);
    case RecvLen => KeepRecvLen(s, t);
    case RecvCas => KeepRecvCas(s, t);
  }

  predicate PopAction(a: Action) {
    a.ReadCall? || a.ReadTop? || a.PopCheck? || a.PopTake? || a.PopUncount? || a.ReadCopy?
  }

  lemma PopActionKeeps(s: State, a: Action, t: State)
    requires Inv(s) && (a.PopCheck? || a.PopTake? || a.PopUncount?) && Exec(s, a) == Some(t)
    ensures Inv(t)
  {
    match a
    case PopCheck => KeepPopCheck(s, t);
    case PopTake => KeepPopTake(s, t);
    case PopUncount => KeepPopUncount(s, t);
  }

  lemma ReadActionKeeps(s: State, a: Action, t: State)
    requires Inv(s) && (a.ReadCall? || a.ReadTop? || a.ReadCopy?) && Exec(s, a) == Some(t)
    ensures Inv(t)
  {
    match a
    case ReadCall(want) => KeepReadCall(s, want, t);
    case ReadTop => KeepReadTop(s, t);
    case ReadCopy => KeepReadCopy(s, t);
  }

  lemma StatusActionKeeps(s: State, a: Action, t: State)
    requires Inv(s) && !SenderAction(a) && !WriterAction(a) && !PopAction(a) && Exec(s, a) == Some(t)
    ensures Inv(t)
  {
    match a
    case StatusLoad => KeepStatusLoad(s, t);
    case StatusLen => KeepStatusLen(s, t);
    case StatusCas => KeepStatusCas(s, t);
    case ReadAck => KeepReadAck(s, t);
    case ReadNext => KeepReadNext(s, t);
  }

  /** Every enabled step of every actor keeps the invariant. */
  lemma ExecKeeps(s: State, a: Action, t: State)
    requires Inv(s) && Exec(s, a) == Some(t)
    ensures Inv(t)
  {
    if SenderAction(a) {
      SenderActionKeeps(s, a, t);
    } else if WriterAction(a) {
      if a.PushCount? || a.PushChain? || a.PushSignal? || a.RecvAck? {
        QueueActionKeeps(s, a, t);
      } else {
        ReceiveActionKeeps(s, a, t);
      }
    } else if a.PopCheck? || a.PopTake? || a.PopUncount? {
      PopActionKeeps(s, a, t);
    } else if PopAction(a) {
      ReadActionKeeps(s, a, t);
    } else {
      StatusActionKeeps(s, a, t);
    }
  }

  lemma {:induction false} Reachable(actions: seq<Action>)
    ensures Run(actions).Some? ==> Inv(Run(actions).value)
  {
    if actions == [] {
      StartInv();
    } else {
      Reachable(actions[..|actions| - 1]);
      if Run(actions).Some? {
        ExecKeeps(Run(actions[..|actions| - 1]).value, actions[|actions| - 1], Run(actions).value);
      }
    }
  }

  /** Segment bytes the sender has counted that have not been fully read: being handed over, in flight,
      at the receiver's session reader, queued, or in the element Read is working through. */
  function SegmentsOut(s: State): nat {
    |SendingCells(s.snd.phase)| + |Flat(s.segs)| + |ReceiverCells(s.rcv)| + HeldBytes(s.rd)
  }

  /** Credit carried by acknowledgements built but not yet applied. */
  function CreditComing(s: State): nat {
    AckSum(s.acks) + WriterAck(s.rcv.writer) + ReaderAck(s.rd.phase)
  }

  /** Credit conservation: the sender's counter is the segments out, plus the receiver's count, plus the
      credit on its way back; so SetSize never finds more read than sent. */
  lemma CreditConserved(actions: seq<Action>)
    requires Run(actions).Some?
    ensures var s := Run(actions).value;
      && s.snd.word.done == SegmentsOut(s) + s.rcv.word.done + CreditComing(s)
      && forall i :: 0 <= i < |s.acks| ==> !SetSizeWord(s.snd.word, s.acks[i]).Rejected?
  {
    Reachable(actions);
    var s := Run(actions).value;
    forall i | 0 <= i < |s.acks| ensures !SetSizeWord(s.snd.word, s.acks[i]).Rejected? {
      AckFits(s, i);
    }
  }

  /** No credit is lost: with nothing unread and nothing coming back, nothing is outstanding. */
  lemma NoCreditLost(actions: seq<Action>)
    requires Run(actions).Some?
    ensures var s := Run(actions).value;
      SegmentsOut(s) == 0 && CreditComing(s) == 0 ==> s.snd.word.done == 0 && s.rcv.word.done == 0
  {
    Reachable(actions);
  }

  lemma HelpAtHand(s: State)
    requires Flow(s) && s.snd.phase.SBlocked? && s.snd.word.maxSize > 0
    ensures s.snd.token || s.snd.allowing || SegmentsOut(s) > 0 || CreditComing(s) > 0
  {
  }

  /** A sender blocked on a positive window has a wake-up already due, a segment still to be read,
      or an acknowledgement still to be applied. */
  lemma BlockedSenderHasHelp(actions: seq<Action>)
    requires Run(actions).Some? && Run(actions).value.snd.phase.SBlocked?
    requires Run(actions).value.snd.word.maxSize > 0
    ensures var s := Run(actions).value;
      s.snd.token || s.snd.allowing || SegmentsOut(s) > 0 || CreditComing(s) > 0
  {
    Reachable(actions);
    HelpAtHand(Run(actions).value);
  }

  /** The windows' own overflow branches are dead code. */
  lemma OverflowBranchesDead(actions: seq<Action>)
    requires Run(actions).Some?
    ensures var s := Run(actions).value;
      && s.rcv.word.done < B31 / 2
      && (s.snd.phase.SReserved? ==> SentWord(s.snd.word, s.snd.phase.size).Some?)
      && (InStatus(s.rd.phase) ==> NeverOverflows(s.rcv.word, |s.rd.elem.data|))
      && (s.rd.phase.RLoaded? || s.rd.phase.RSeen? ==> NeverOverflows(s.rd.phase.snap, |s.rd.elem.data|))
  {
    Reachable(actions);
    var s := Run(actions).value;
    if s.snd.phase.SReserved? {
      SentFits(s.snd, s.hist.peak);
    }
    if InStatus(s.rd.phase) {
      SmallNeverOverflows(s.rcv.word, |s.rd.elem.data|);
      if !s.rd.phase.RStatus? {
        SmallNeverOverflows(s.rd.phase.snap, |s.rd.elem.data|);
      }
    }
  }

  /** sendStatus does not take its overflow branch on this word, whatever length it sees. */
  ghost predicate NeverOverflows(w: Window, l: nat) {
    forall len: nat :: !StatusWord(w, l, len).overflow
  }

  lemma SmallNeverOverflows(w: Window, l: nat)
    requires w.done < B31 / 2 && l <= SEGMENT_MAX
    ensures NeverOverflows(w, l)
  {
    forall len: nat ensures !StatusWord(w, l, len).overflow {
      StatusFits(w, l, len);
    }
  }

  /** Bounded buffering: what the receiver holds never exceeds the largest window the sender ever had,
      and the length field is exact, with no 32-bit wrap-around. */
  lemma BoundedBuffering(actions: seq<Action>)
    requires Run(actions).Some?
    ensures var s := Run(actions).value;
      && |ReceiverCells(s.rcv)| + HeldBytes(s.rd) <= s.snd.word.done <= s.hist.peak < B31
      && s.rcv.queue.high == |Flat(s.rcv.chain)| + CountedBytes(s.rcv.writer)
                             + (if s.rd.phase.RTaken? then |s.rd.elem.data| else 0)
  {
    Reachable(actions);
  }

  /** No lost wake-up in the receive queue: a sleeping reader has its wait bit up on an empty queue, or
      the pusher owes it a signal; and a pusher that owes a signal always finds the reader asleep. */
  lemma NoLostWakeup(actions: seq<Action>)
    requires Run(actions).Some?
    ensures var s := Run(actions).value;
      && (s.rd.phase.RAsleep? ==> (s.rcv.queue.low == 1 && s.rcv.queue.high == 0) || Owes(s.rcv.writer))
      && (s.rd.phase.RAsleep? && s.rcv.chain != [] ==> Owes(s.rcv.writer))
      && (s.rcv.writer.WSignal? ==> DoPushSignal(s).Some?)
  {
    Reachable(actions);
    var s := Run(actions).value;
    if s.rcv.chain != [] {
      assert GoodSegment(s.rcv.chain[0]);
    }
  }

  function Bytes(cells: seq<Cell>): (data: seq<Byte>)
    ensures |data| == |cells|
    ensures forall i :: 0 <= i < |cells| ==> data[i] == cells[i].b
  {
    if cells == [] then [] else Bytes(cells[..|cells| - 1]) + [cells[|cells| - 1].b]
  }

  function Concat(writes: seq<seq<Byte>>): seq<Byte> {
    if writes == [] then [] else Concat(writes[..|writes| - 1]) + writes[|writes| - 1]
  }

  lemma {:induction false} WritesBytes(writes: seq<seq<Byte>>)
    ensures |FlatWrites(writes)| == |Concat(writes)|
    ensures forall i :: 0 <= i < |Concat(writes)| ==> FlatWrites(writes)[i].b == Concat(writes)[i]
  {
    if writes != [] {
      WritesBytes(writes[..|writes| - 1]);
    }
  }

  lemma LinePrefix(a: seq<Cell>, b: seq<Cell>, c: seq<Cell>, d: seq<Cell>, e: seq<Cell>)
    ensures a <= Line(a, b, c, d, e)
  {
  }

  lemma BytesPrefix(cells: seq<Cell>, writes: seq<seq<Byte>>)
    requires cells <= FlatWrites(writes)
    ensures Bytes(cells) <= Concat(writes)
  {
    WritesBytes(writes);
  }

  /** Every finished Write handed over a prefix of its buffer, and the whole of it exactly when the buffer is
      shorter than 2^32 bytes; a Write in progress is the last one, and only such a long one can panic. */
  lemma WritesHandOver(actions: seq<Action>)
    requires Run(actions).Some?
    ensures var s := Run(actions).value; var h := s.hist;
      && |h.written| == |h.handed| + (if s.snd.phase.SIdle? then 0 else 1)
      && (forall i :: 0 <= i < |h.handed| ==>
            h.handed[i] <= h.written[i] && (h.handed[i] == h.written[i] <==> |h.written[i]| < B32))
      && (s.snd.phase.SPanicked? ==> |s.snd.buf| >= B32 && h.written[|h.written| - 1] == s.snd.buf)
  {
    Reachable(actions);
    var h := Run(actions).value.hist;
    assert forall i :: 0 <= i < |h.handed| ==> HandedOver(h.written[i], h.handed[i]);
  }

  /** The slice panics exactly when its end does not fit in 32 bits. */
  lemma PanicExact(snd: Sender)
    requires SenderShape(snd) && snd.phase.SReserved? && SentWord(snd.word, snd.phase.size).Some?
    ensures SendCommitStep(snd).Some?
    ensures SendCommitStep(snd).value.phase.SPanicked? <==> snd.off + snd.phase.size >= B32
  {
    EndWraps(snd.off, snd.phase.size);
  }

  /** A Write of a multiple of 2^32 bytes sends nothing and returns without an error. */
  lemma LongWriteLost(buf: seq<Byte>)
    requires buf != [] && |buf| % B32 == 0
    ensures var r := Run([Write(buf), SendLoad]);
      && r.Some? && r.value.snd.phase.SIdle? && r.value.segs == []
      && r.value.hist.written == [buf] && r.value.hist.handed == [[]]
  {
    var a := [Write(buf), SendLoad];
    assert a[..1] == [Write(buf)] && a[..1][..0] == [];
    assert Run([Write(buf)]) == DoWrite(Start(), buf);
  }

  predicate ShortWrites(writes: seq<seq<Byte>>) {
    forall i :: 0 <= i < |writes| ==> |writes[i]| < B32
  }

  lemma CutIsPrefix(snd: Sender)
    requires SenderShape(snd) && |snd.buf| < B32
    ensures CutSoFar(snd) <= Tag(snd.buf, true)
  {
    LengthBounded(snd.buf);
    if !snd.phase.SIdle? && snd.off < |snd.buf| {
      TagSplit(snd.buf, snd.off, true);
    } else if !snd.phase.SIdle? {
      assert Handed(snd) == snd.buf;
    }
  }

  lemma HandedAreWritten(snd: Sender, h: History)
    requires Handovers(snd, h) && ShortWrites(h.written)
    ensures h.written == if snd.phase.SIdle? then h.handed else h.handed + [snd.buf]
  {
    forall i | 0 <= i < |h.handed| ensures h.handed[i] == h.written[i] {
      assert HandedOver(h.written[i], h.handed[i]);
    }
  }

  lemma PrefixAfter(a: seq<Cell>, b: seq<Cell>, c: seq<Cell>)
    requires b <= c
    ensures a + b <= a + c
  {
  }

  /** With short buffers only, what was handed over is a prefix of what was written. */
  lemma HandedIsPrefix(snd: Sender, h: History)
    requires SenderShape(snd) && Handovers(snd, h) && ShortWrites(h.written)
    ensures AllHanded(snd, h.handed) <= FlatWrites(h.written)
    ensures snd.phase.SIdle? ==> AllHanded(snd, h.handed) == FlatWrites(h.written)
  {
    HandedAreWritten(snd, h);
    if snd.phase.SIdle? {
      NothingCut(h.handed);
    } else {
      assert h.written[|h.handed|] == snd.buf;
      CutIsPrefix(snd);
      FlatWritesAppend(h.handed, snd.buf);
      PrefixAfter(FlatWrites(h.handed), CutSoFar(snd), Tag(snd.buf, true));
    }
  }

  /** Stream correctness: what Read has returned is a prefix of what the Writes handed over, and no single
      Read contains a byte after the final byte of a Write; with buffers shorter than 2^32 that is a prefix of
      the bytes written. */
  lemma ReadsArePrefixOfWrites(actions: seq<Action>)
    requires Run(actions).Some?
    ensures var s := Run(actions).value; var h := s.hist;
      && FlatReads(h.delivered) <= AllHanded(s.snd, h.handed)
      && OneWriteEach(h.delivered)
      && (ShortWrites(h.written) ==>
            FlatReads(h.delivered) <= FlatWrites(h.written) && Bytes(FlatReads(h.delivered)) <= Concat(h.written))
  {
    Reachable(actions);
    var s := Run(actions).value;
    LinePrefix(FlatReads(s.hist.delivered), ReaderCells(s.rd), ReceiverCells(s.rcv), Flat(s.segs),
               SendingCells(s.snd.phase));
    if ShortWrites(s.hist.written) {
      HandedIsPrefix(s.snd, s.hist);
      PrefixOfPrefix(FlatReads(s.hist.delivered), AllHanded(s.snd, s.hist.handed), FlatWrites(s.hist.written));
      BytesPrefix(FlatReads(s.hist.delivered), s.hist.written);
    }
  }

  lemma PrefixOfPrefix(a: seq<Cell>, b: seq<Cell>, c: seq<Cell>)
    requires a <= b <= c
    ensures a <= c
  {
  }

  /** A finished Write hands over as many bytes as it got only when its buffer is short. */
  lemma FullIsShort(buf: seq<Byte>, handed: seq<Byte>)
    requires HandedOver(buf, handed)
    ensures |handed| <= |buf| && (|handed| == |buf| ==> |buf| < B32)
  {
    if |handed| == |buf| {
      assert handed == buf;
    }
  }

  lemma {:induction false} HandedSize(written: seq<seq<Byte>>, handed: seq<seq<Byte>>)
    requires |written| == |handed|
    requires forall i :: 0 <= i < |handed| ==> HandedOver(written[i], handed[i])
    ensures |FlatWrites(handed)| <= |FlatWrites(written)|
    ensures |FlatWrites(handed)| == |FlatWrites(written)| ==> ShortWrites(written)
    decreases |written|
  {
    if written != [] {
      var n := |written| - 1;
      HandedSize(written[..n], handed[..n]);
      FullIsShort(written[n], handed[n]);
      if ShortWrites(written[..n]) && |written[n]| < B32 {
        ShortMore(written[..n], written[n]);
        assert written == written[..n] + [written[n]];
      }
    }
  }

  lemma ShortMore(writes: seq<seq<Byte>>, last: seq<Byte>)
    requires ShortWrites(writes) && |last| < B32
    ensures ShortWrites(writes + [last])
  {
  }

  /** When nothing is left to send, in flight or unread, Read has returned everything handed over; and that
      is everything written if and only if every buffer was shorter than 2^32. */
  lemma DrainedMeansDelivered(actions: seq<Action>)
    requires Run(actions).Some?
    requires var s := Run(actions).value;
      s.snd.phase.SIdle? && s.rd.phase.RIdle? && SegmentsOut(s) == 0
    ensures var h := Run(actions).value.hist;
      && FlatReads(h.delivered) == FlatWrites(h.handed)
      && (FlatReads(h.delivered) == FlatWrites(h.written) <==> ShortWrites(h.written))
  {
    Reachable(actions);
    var s := Run(actions).value;
    NothingCut(s.hist.handed);
    assert ReaderCells(s.rd) == [];
    EmptyLine(FlatReads(s.hist.delivered), ReaderCells(s.rd), ReceiverCells(s.rcv), Flat(s.segs));
    assert forall i :: 0 <= i < |s.hist.handed| ==> HandedOver(s.hist.written[i], s.hist.handed[i]);
    HandedSize(s.hist.written, s.hist.handed);
    if ShortWrites(s.hist.written) {
      HandedIsPrefix(s.snd, s.hist);
    }
  }

  lemma EmptyLine(a: seq<Cell>, b: seq<Cell>, c: seq<Cell>, d: seq<Cell>)
    requires b == [] && c == [] && d == []
    ensures Line(a, b, c, d, []) == a
  {
  }
}
