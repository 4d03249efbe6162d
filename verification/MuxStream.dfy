/** One direction of one multiplexed connection as a transition system.
    The actors are the application goroutine inside Write with its send window, the sender's session
    reader that applies acknowledgements, the receiver's session reader that queues segments, and the
    application goroutine inside Read.  Every compare-and-swap, every separate load, every queue
    operation and every blocking point is a step of its own; a retried compare-and-swap is a step that
    goes back to its load.  The three 64-bit words are held unpacked; MuxWord shows that packing loses
    nothing but the masked bits and that comparing words compares contents.  Delivery of acknowledgements may
    reorder; segments stay in order. */
module MuxStream {
  import opened Common
  import opened MuxPackets
  import opened MuxWord

  const START_WINDOW: nat := SEGMENT_MAX * 30

  datatype Segment = Segment(data: seq<Byte>, part: bool)

  /** A byte of the stream together with whether it is the final byte of its Write call. */
  datatype Cell = Cell(b: Byte, last: bool)

  function Tag(data: seq<Byte>, ends: bool): (cells: seq<Cell>)
    ensures |cells| == |data|
    ensures forall i :: 0 <= i < |data| ==> cells[i] == Cell(data[i], ends && i == |data| - 1)
  {
    if data == [] then []
    else Tag(data[..|data| - 1], false) + [Cell(data[|data| - 1], ends)]
  }

  function Cells(s: Segment): seq<Cell> {
    Tag(s.data, !s.part)
  }

  function Flat(segs: seq<Segment>): seq<Cell> {
    if segs == [] then [] else Cells(segs[0]) + Flat(segs[1..])
  }

  function FlatWrites(writes: seq<seq<Byte>>): seq<Cell> {
    if writes == [] then [] else FlatWrites(writes[..|writes| - 1]) + Tag(writes[|writes| - 1], true)
  }

  function FlatReads(results: seq<seq<Cell>>): seq<Cell> {
    if results == [] then [] else FlatReads(results[..|results| - 1]) + results[|results| - 1]
  }

  // The words of the two windows.

  /** sendWindow.remainingSize. */
  function SendRemain(maxSize: nat, send: nat): nat {
    Max(Mask31(maxSize) - Mask31(send), 0)
  }

  /** receiveWindow.remainingSize, for an observed queue length. */
  function RecvRemain(maxSize: nat, len: nat, delta: nat): nat {
    Max(maxSize - len - delta, 0)
  }

  datatype SetSizeResult = Rejected | Unchanged | Stored(word: Window, wake: bool)

  /** sendWindow.SetSize, one successful pass. */
  function SetSizeWord(w: Window, a: Window): SetSizeResult {
    if a.done > w.done then Rejected
    else if a.done == 0 && a.maxSize == w.maxSize then Unchanged
    else
      var outstanding := Mask31(w.done - a.done);
      var nextWait := SendRemain(a.maxSize, outstanding) == 0 && w.wait;
      Stored(Packed(a.maxSize, outstanding, nextWait), w.wait && !nextWait)
  }

  /** sendWindow.sent, one pass; None is the overflow branch that spins. */
  function SentWord(w: Window, size: nat): Option<Window> {
    if Mask31(w.done + size) < w.done then None
    else Some(Packed(w.maxSize, w.done + size, w.wait))
  }

  datatype StatusResult = StatusResult(word: Window, ack: Option<Window>, overflow: bool)

  /** receiveWindow.sendStatus, one successful pass, for an observed queue length. */
  function StatusWord(w: Window, l: nat, len: nat): StatusResult {
    if w.done <= Mask31(w.done + l) then
      var read := w.done + l;
      var remain := RecvRemain(w.maxSize, len, 0);
      if (w.wait && remain > 0) || read >= w.maxSize / 2 || remain == w.maxSize then
        StatusResult(Packed(w.maxSize, 0, false), Some(Packed(w.maxSize, read, false)), false)
      else
        StatusResult(Packed(w.maxSize, read, w.wait), None, false)
    else
      StatusResult(Packed(w.maxSize, l, w.wait), Some(Packed(w.maxSize, w.done, false)), true)
  }

  datatype SenderPhase =
    | SIdle                      // no Write call in progress
    | SLoop                      // at the top of WriteTo
    | SReserved(size: nat)       // window checked, sent not yet applied
    | SSending(seg: Segment)     // sent applied, segment not yet handed to the session
    | SBlocked                   // wait bit set, waiting on setSizeCh
    | SPanicked                  // the end of the slice wrapped round at 32 bits

  datatype WriterPhase =
    | WIdle
    | WHave(seg: Segment)                            // top of the start loop in receiveWindow.Write
    | WLoaded(seg: Segment, snap: Window)
    | WSeen(seg: Segment, snap: Window, len: nat)
    | WDecided(seg: Segment, ack: Option<Window>)       // window decided, queue Push not begun
    | WCounted(seg: Segment, ack: Option<Window>, owes: bool)  // length added, element not yet in the chain
    | WSignal(ack: Option<Window>)                      // element in the chain, allowPop pending
    | WAck(ack: Option<Window>)

  datatype ReaderPhase =
    | RIdle
    | RTop                       // copyData
    | RPop                       // startPop
    | RAsleep                    // waitPush
    | RTake                      // length seen nonzero, trying TryPop
    | RTaken                     // element out of the chain, length not yet subtracted
    | RCopy
    | RStatus                    // element fully copied, top of the sendStatus loop
    | RLoaded(snap: Window)
    | RSeen(snap: Window, len: nat)
    | RAck(ack: Window)
    | RAfter                     // deciding whether to go on to the next segment

  datatype Sender = Sender(word: Window, buf: seq<Byte>, off: U32, phase: SenderPhase, token: bool, allowing: bool)

  datatype Receiver = Receiver(word: Window, queue: Halves, chain: seq<Segment>, writer: WriterPhase)

  datatype Reader = Reader(phase: ReaderPhase, want: nat, got: seq<Cell>, elem: Segment, off: nat)

  /** Not program state: all Write buffers, what each finished Write handed over, all Read results, the
      largest window the sender ever held. */
  datatype History = History(written: seq<seq<Byte>>, handed: seq<seq<Byte>>, delivered: seq<seq<Cell>>, peak: nat)

  datatype State = State(snd: Sender, segs: seq<Segment>, acks: seq<Window>, rcv: Receiver, rd: Reader, hist: History)

  function Start(): State {
    State(Sender(Packed(START_WINDOW, 0, false), [], 0, SIdle, false, false),
          [], [],
          Receiver(Packed(START_WINDOW, 0, false), Halves(0, 0), [], WIdle),
          Reader(RIdle, 0, [], Segment([], false), 0),
          History([], [], [], START_WINDOW))
  }

  datatype Action =
    | Write(buf: seq<Byte>) | SendLoad | SendCommit | SendEmit | SendWake
    | AckApply(i: nat) | AckSignal
    | Deliver | Resize(n: nat) | RecvLoad | RecvLen | RecvCas | PushCount | PushChain | PushSignal | RecvAck
    | ReadCall(want: nat) | ReadTop | PopCheck | PopTake | PopUncount | ReadCopy
    | StatusLoad | StatusLen | StatusCas | ReadAck | ReadNext

  /** Conn.Write and SetSendBuf; an empty buffer returns at once. */
  function DoWrite(s: State, buf: seq<Byte>): Option<State> {
    if !s.snd.phase.SIdle? then None
    else if buf == [] then Some(s)
    else Some(s.(snd := s.snd.(buf := buf, off := 0, phase := SLoop),
                 hist := s.hist.(written := s.hist.written + [buf])))
  }

  /** The size WriteTo picks: at most one segment, what is left of the buffer, and the window. */
  function SegmentSize(left: nat, remain: nat): nat {
    Min(Min(left, SEGMENT_MAX), remain)
  }

  /** The length the offset is compared with: uint32(len(buf)). */
  function Length32(buf: seq<Byte>): U32 {
    Mask32(|buf|)
  }

  /** WriteTo finds the buffer drained. */
  predicate Drained(snd: Sender) {
    snd.off >= Length32(snd.buf)
  }

  /** What the current Write has cut off its buffer. */
  function Handed(snd: Sender): seq<Byte> {
    snd.buf[..Min(snd.off, |snd.buf|)]
  }

  /** WriteTo up to the window check, on a buffer that is not drained. */
  function SendLoadStep(snd: Sender): Option<Sender> {
    if !snd.phase.SLoop? || Drained(snd) then None
    else
      var w := snd.word;
      var remain := SendRemain(w.maxSize, w.done);
      if remain == 0 then Some(snd.(word := Packed(w.maxSize, w.done, true), phase := SBlocked))
      else if snd.off > |snd.buf| then None
      else Some(snd.(phase := SReserved(SegmentSize(|snd.buf| - snd.off, remain))))
  }

  /** The end of WriteFull. */
  function DoSendLoad(s: State): Option<State> {
    if s.snd.phase.SLoop? && Drained(s.snd) then
      Some(s.(snd := s.snd.(phase := SIdle), hist := s.hist.(handed := s.hist.handed + [Handed(s.snd)])))
    else WithSender(s, SendLoadStep(s.snd))
  }

  /** The part flag compares with the length of the rest, cut to 32 bits. */
  predicate Part(buf: seq<Byte>, off: nat, size: nat)
    requires off <= |buf|
  {
    size < Mask32(|buf| - off)
  }

  /** The rest of WriteTo: slice the buffer, advance the offset, apply sent.  The end of the slice is a
      32-bit sum; when it wraps round it lies before the start and the slice panics. */
  function SendCommitStep(snd: Sender): Option<Sender> {
    if !snd.phase.SReserved? || snd.off + snd.phase.size > |snd.buf| then None
    else
      var end := Mask32(snd.off + snd.phase.size);
      if end < snd.off then Some(snd.(phase := SPanicked))
      else
        match SentWord(snd.word, snd.phase.size)
        case None => Some(snd)
        case Some(word) =>
          Some(snd.(word := word, off := end,
                    phase := SSending(Segment(snd.buf[snd.off..end], Part(snd.buf, snd.off, snd.phase.size)))))
  }

  /** WriteFull hands the segment to the session. */
  function DoSendEmit(s: State): Option<State> {
    if !s.snd.phase.SSending? then None
    else Some(s.(segs := s.segs + [s.snd.phase.seg], snd := s.snd.(phase := SLoop)))
  }

  /** waitReceiveWindow returns. */
  function SendWakeStep(snd: Sender): Option<Sender> {
    if !snd.phase.SBlocked? || !snd.token then None
    else Some(snd.(token := false, phase := SLoop))
  }

  /** SetSize applied to any outstanding acknowledgement. */
  function DoAckApply(s: State, i: nat): Option<State> {
    if s.snd.allowing || i >= |s.acks| then None
    else
      var rest := s.acks[..i] + s.acks[i + 1..];
      match SetSizeWord(s.snd.word, s.acks[i])
      case Rejected => Some(s.(acks := rest))
      case Unchanged => Some(s.(acks := rest))
      case Stored(word, wake) =>
        Some(s.(acks := rest, snd := s.snd.(word := word, allowing := wake),
                hist := s.hist.(peak := Max(s.hist.peak, word.maxSize))))
  }

  /** allow: a send on a channel of capacity one that never blocks. */
  function AckSignalStep(snd: Sender): Option<Sender> {
    if !snd.allowing then None else Some(snd.(allowing := false, token := true))
  }

  function DoDeliver(s: State): Option<State> {
    if !s.rcv.writer.WIdle? || s.segs == [] then None
    else Some(s.(segs := s.segs[1..], rcv := s.rcv.(writer := WHave(s.segs[0]))))
  }

  /** calcSize: whatever window it computes, only the size field changes. */
  function ResizeStep(rcv: Receiver, n: nat): Option<Receiver> {
    if !rcv.writer.WHave? then None
    else Some(rcv.(word := Packed(n, rcv.word.done, rcv.word.wait)))
  }

  function RecvLoadStep(rcv: Receiver): Option<Receiver> {
    if !rcv.writer.WHave? then None else Some(rcv.(writer := WLoaded(rcv.writer.seg, rcv.word)))
  }

  function RecvLenStep(rcv: Receiver): Option<Receiver> {
    if !rcv.writer.WLoaded? then None
    else Some(rcv.(writer := WSeen(rcv.writer.seg, rcv.writer.snap, rcv.queue.high)))
  }

  /** receiveWindow.Write's decision: set wait, or take the read count into an acknowledgement, or keep waiting. */
  function RecvCasStep(rcv: Receiver): Option<Receiver> {
    if !rcv.writer.WSeen? then None
    else
      var WSeen(seg, w, len) := rcv.writer;
      if w.wait then Some(rcv.(writer := WDecided(seg, None)))
      else if rcv.word != w then Some(rcv.(writer := WHave(seg)))
      else if RecvRemain(w.maxSize, len, |seg.data|) == 0 then
        Some(rcv.(word := Packed(w.maxSize, w.done, true), writer := WDecided(seg, None)))
      else
        Some(rcv.(word := Packed(w.maxSize, 0, false),
                  writer := WDecided(seg, Some(Packed(w.maxSize, w.done, false)))))
  }

  /** receiveWindowQueue.Push, the length update: 32-bit addition, wait bit cleared. */
  function PushCountStep(rcv: Receiver): Option<Receiver> {
    if !rcv.writer.WDecided? then None
    else
      var WDecided(seg, ack) := rcv.writer;
      Some(rcv.(queue := Halves(Mask32(rcv.queue.high + |seg.data|), 0),
                writer := WCounted(seg, ack, rcv.queue.low == 1)))
  }

  function PushChainStep(rcv: Receiver): Option<Receiver> {
    if !rcv.writer.WCounted? then None
    else
      var WCounted(seg, ack, owes) := rcv.writer;
      Some(rcv.(chain := rcv.chain + [seg], writer := if owes then WSignal(ack) else WAck(ack)))
  }

  /** allowPop: a rendezvous with a reader blocked in waitPush. */
  function DoPushSignal(s: State): Option<State> {
    if !s.rcv.writer.WSignal? || !s.rd.phase.RAsleep? then None
    else Some(s.(rcv := s.rcv.(writer := WAck(s.rcv.writer.ack)), rd := s.rd.(phase := RPop)))
  }

  function DoRecvAck(s: State): Option<State> {
    if !s.rcv.writer.WAck? then None
    else
      match s.rcv.writer.ack
      case None => Some(s.(rcv := s.rcv.(writer := WIdle)))
      case Some(ack) => Some(s.(rcv := s.rcv.(writer := WIdle), acks := s.acks + [ack]))
  }

  /** Conn.Read; an empty buffer returns at once. */
  function ReadCallStep(rd: Reader, want: nat): Option<Reader> {
    if !rd.phase.RIdle? then None
    else if want == 0 then Some(rd)
    else Some(rd.(phase := RTop, want := want, got := []))
  }

  function ReadTopStep(rd: Reader): Option<Reader> {
    if !rd.phase.RTop? then None
    else if rd.off == |rd.elem.data| then Some(rd.(phase := RPop))
    else Some(rd.(phase := RCopy))
  }

  /** receiveWindowQueue.Pop: go to sleep on length zero, otherwise try to take. */
  function DoPopCheck(s: State): Option<State> {
    if !s.rd.phase.RPop? then None
    else if s.rcv.queue.high == 0 then
      Some(s.(rcv := s.rcv.(queue := Halves(0, 1)), rd := s.rd.(phase := RAsleep)))
    else Some(s.(rd := s.rd.(phase := RTake)))
  }

  function DoPopTake(s: State): Option<State> {
    if !s.rd.phase.RTake? || s.rcv.chain == [] then None
    else Some(s.(rd := s.rd.(elem := s.rcv.chain[0], off := 0, phase := RTaken),
                 rcv := s.rcv.(chain := s.rcv.chain[1..])))
  }

  /** TryPop's atomic subtraction from the high half. */
  function DoPopUncount(s: State): Option<State> {
    var n := |s.rd.elem.data|;
    if !s.rd.phase.RTaken? || n >= B32 then None
    else Some(s.(rcv := s.rcv.(queue := SubHigh(s.rcv.queue, n)), rd := s.rd.(phase := RCopy)))
  }

  function ReadCopyStep(rd: Reader): Option<Reader> {
    if !rd.phase.RCopy? || rd.off > |rd.elem.data| || |rd.got| > rd.want then None
    else
      var end := rd.off + Min(rd.want - |rd.got|, |rd.elem.data| - rd.off);
      Some(rd.(got := rd.got + Cells(rd.elem)[rd.off..end], off := end,
               phase := if end == |rd.elem.data| then RStatus else RAfter))
  }

  function DoStatusLoad(s: State): Option<State> {
    if !s.rd.phase.RStatus? then None else Some(s.(rd := s.rd.(phase := RLoaded(s.rcv.word))))
  }

  function DoStatusLen(s: State): Option<State> {
    if !s.rd.phase.RLoaded? then None
    else Some(s.(rd := s.rd.(phase := RSeen(s.rd.phase.snap, s.rcv.queue.high))))
  }

  function DoStatusCas(s: State): Option<State> {
    if !s.rd.phase.RSeen? then None
    else if s.rcv.word != s.rd.phase.snap then Some(s.(rd := s.rd.(phase := RStatus)))
    else
      var r := StatusWord(s.rcv.word, |s.rd.elem.data|, s.rd.phase.len);
      Some(s.(rcv := s.rcv.(word := r.word),
              rd := s.rd.(phase := if r.ack.Some? then RAck(r.ack.value) else RAfter)))
  }

  function DoReadAck(s: State): Option<State> {
    if !s.rd.phase.RAck? then None
    else Some(s.(acks := s.acks + [s.rd.phase.ack], rd := s.rd.(phase := RAfter)))
  }

  function DoReadNext(s: State): Option<State> {
    if !s.rd.phase.RAfter? then None
    else if |s.rd.got| < s.rd.want && s.rd.elem.part then Some(s.(rd := s.rd.(phase := RTop)))
    else Some(s.(rd := s.rd.(phase := RIdle, got := []),
                 hist := s.hist.(delivered := s.hist.delivered + [s.rd.got])))
  }

  function WithSender(s: State, snd: Option<Sender>): Option<State> {
    match snd case None => None case Some(v) => Some(s.(snd := v))
  }

  function WithReceiver(s: State, rcv: Option<Receiver>): Option<State> {
    match rcv case None => None case Some(v) => Some(s.(rcv := v))
  }

  function WithReader(s: State, rd: Option<Reader>): Option<State> {
    match rd case None => None case Some(v) => Some(s.(rd := v))
  }

  /** One step of one actor; None when the step is not enabled. */
  function Exec(s: State, a: Action): Option<State> {
    match a
    case Write(buf) => DoWrite(s, buf)
    case SendLoad => DoSendLoad(s)
    case SendCommit => WithSender(s, SendCommitStep(s.snd))
    case SendEmit => DoSendEmit(s)
    case SendWake => WithSender(s, SendWakeStep(s.snd))
    case AckApply(i) => DoAckApply(s, i)
    case AckSignal => WithSender(s, AckSignalStep(s.snd))
    case Deliver => DoDeliver(s)
    case Resize(n) => WithReceiver(s, ResizeStep(s.rcv, n))
    case RecvLoad => WithReceiver(s, RecvLoadStep(s.rcv))
    case RecvLen => WithReceiver(s, RecvLenStep(s.rcv))
    case RecvCas => WithReceiver(s, RecvCasStep(s.rcv))
    case PushCount => WithReceiver(s, PushCountStep(s.rcv))
    case PushChain => WithReceiver(s, PushChainStep(s.rcv))
    case PushSignal => DoPushSignal(s)
    case RecvAck => DoRecvAck(s)
    case ReadCall(want) => WithReader(s, ReadCallStep(s.rd, want))
    case ReadTop => WithReader(s, ReadTopStep(s.rd))
    case PopCheck => DoPopCheck(s)
    case PopTake => DoPopTake(s)
    case PopUncount => DoPopUncount(s)
    case ReadCopy => WithReader(s, ReadCopyStep(s.rd))
    case StatusLoad => DoStatusLoad(s)
    case StatusLen => DoStatusLen(s)
    case StatusCas => DoStatusCas(s)
    case ReadAck => DoReadAck(s)
    case ReadNext => DoReadNext(s)
  }

  /** The state an interleaving of steps reaches from the start, if every step of it is enabled. */
  function Run(actions: seq<Action>): Option<State> {
    if actions == [] then Some(Start())
    else
      match Run(actions[..|actions| - 1])
      case None => None
      case Some(s) => Exec(s, actions[|actions| - 1])
  }
}
