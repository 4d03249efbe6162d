/** A run that leaves the sender helpless: the receiver's window shrinks to 0 while the only segment in
    flight waits to be queued, and the next Write finds nothing to wait for. */
module MuxZeroWindow {
  import opened Common
  import opened MuxWord
  import opened MuxStream
  import opened MuxProgress

  const ONE: Segment := Segment([0], false)
  const EMPTY_READER: Reader := Reader(RIdle, 0, [], Segment([], false), 0)

  function Writing(done: U31, off: U32, phase: SenderPhase): Sender {
    Sender(Window(START_WINDOW, done, false), [0], off, phase, false, false)
  }

  function Queued(wait: bool, high: U32, chain: seq<Segment>, writer: WriterPhase): Receiver {
    Receiver(Window(0, 0, wait), Halves(high, 0), chain, writer)
  }

  /** The reader has copied the byte. */
  ghost predicate Read(s: State, acks: seq<Window>, wait: bool, phase: ReaderPhase) {
    && Reached(s) && s.snd == Writing(1, 1, SIdle) && s.segs == [] && s.acks == acks
    && s.rcv == Queued(wait, 0, [], WIdle) && s.rd.phase == phase && s.rd.elem == ONE && s.rd.off == 1
  }

  ghost predicate Is(s: State, snd: Sender, segs: seq<Segment>, acks: seq<Window>, rcv: Receiver, rd: Reader) {
    Reached(s) && s.snd == snd && s.segs == segs && s.acks == acks && s.rcv == rcv && s.rd == rd
  }

  lemma Step(s: State, a: Action) returns (t: State)
    requires Reached(s) && Exec(s, a).Some?
    ensures Reached(t) && Exec(s, a) == Some(t)
  {
    t := Exec(s, a).value;
    ReachedMore(s, a, t);
  }

  lemma CutsOne()
    ensures SendLoadStep(Writing(0, 0, SLoop)) == Some(Writing(0, 0, SReserved(1)))
    ensures SendCommitStep(Writing(0, 0, SReserved(1))) == Some(Writing(1, 1, SSending(ONE)))
  {
    assert [0][0..1] == [0];
  }

  lemma Sends() returns (s: State)
    ensures Is(s, Writing(1, 1, SSending(ONE)), [], [], Start().rcv, EMPTY_READER)
  {
    CutsOne();
    assert Run([]) == Some(Start());
    var s1 := Step(Start(), Write([0]));
    var s2 := Step(s1, SendLoad);
    s := Step(s2, SendCommit);
  }

  lemma Arrives() returns (s: State)
    ensures Is(s, Writing(1, 1, SIdle), [], [], Queued(false, 0, [], WHave(ONE)), EMPTY_READER)
  {
    var s0 := Sends();
    var s1 := Step(s0, SendEmit);
    var s2 := Step(s1, SendLoad);
    var s3 := Step(s2, Deliver);
    s := Step(s3, Resize(0));
  }

  lemma Decides() returns (s: State)
    ensures Is(s, Writing(1, 1, SIdle), [], [], Queued(true, 0, [], WDecided(ONE, None)), EMPTY_READER)
  {
    var s0 := Arrives();
    var s1 := Step(s0, RecvLoad);
    var s2 := Step(s1, RecvLen);
    s := Step(s2, RecvCas);
  }

  lemma Counts() returns (s: State)
    ensures Is(s, Writing(1, 1, SIdle), [], [], Queued(true, 1, [], WCounted(ONE, None, false)), EMPTY_READER)
  {
    var s0 := Decides();
    s := Step(s0, PushCount);
  }

  lemma Queues() returns (s: State)
    ensures Is(s, Writing(1, 1, SIdle), [], [], Queued(true, 1, [ONE], WIdle), EMPTY_READER)
  {
    var s0 := Counts();
    var s1 := Step(s0, PushChain);
    s := Step(s1, RecvAck);
  }

  lemma Pops() returns (s: State)
    ensures Is(s, Writing(1, 1, SIdle), [], [], Queued(true, 1, [ONE], WIdle), EMPTY_READER.(phase := RPop, want := 1))
  {
    var s0 := Queues();
    var s1 := Step(s0, ReadCall(1));
    s := Step(s1, ReadTop);
  }

  lemma Takes() returns (s: State)
    ensures Is(s, Writing(1, 1, SIdle), [], [], Queued(true, 1, [], WIdle), Reader(RTaken, 1, [], ONE, 0))
  {
    var s0 := Pops();
    var s1 := Step(s0, PopCheck);
    s := Step(s1, PopTake);
  }

  lemma Copies() returns (s: State)
    ensures Read(s, [], true, RStatus)
  {
    var s0 := Takes();
    var s1 := Step(s0, PopUncount);
    s := Step(s1, ReadCopy);
  }

  lemma Looks() returns (s: State)
    ensures Read(s, [], true, RSeen(Window(0, 0, true), 0))
  {
    var s0 := Copies();
    var s1 := Step(s0, StatusLoad);
    s := Step(s1, StatusLen);
  }

  lemma ZeroStatus()
    ensures StatusWord(Window(0, 0, true), 1, 0) == StatusResult(Window(0, 0, false), Some(Window(0, 1, false)), false)
  {
  }

  lemma Acknowledges() returns (s: State)
    ensures Read(s, [Window(0, 1, false)], false, RAfter)
  {
    ZeroStatus();
    var s0 := Looks();
    var s1 := Step(s0, StatusCas);
    s := Step(s1, ReadAck);
  }

  /** The acknowledgement sets the sender's window to 0, and the next Write blocks for good. */
  lemma HelplessReached() returns (s: State)
    ensures Reached(s) && Helpless(s)
  {
    var s0 := Acknowledges();
    var s1 := Step(s0, AckApply(0));
    var s2 := Step(s1, Write([0]));
    s := Step(s2, SendLoad);
  }
}
