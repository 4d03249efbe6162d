/** A blocked sender is released: some actor can always step, and no schedule steps for ever. */
module MuxProgress {
  import opened Common
  import opened MuxWord
  import opened MuxStream
  import opened MuxInvariant
  import opened MuxTheorems

  /** The step the receiver's session reader takes next. */
  function WriterNext(w: WriterPhase): Action {
    match w
    case WIdle => Deliver
    case WHave(_) => RecvLoad
    case WLoaded(_, _) => RecvLen
    case WSeen(_, _, _) => RecvCas
    case WDecided(_, _) => PushCount
    case WCounted(_, _, _) => PushChain
    case WSignal(_) => PushSignal
    case WAck(_) => RecvAck
  }

  /** The step a reader inside Read takes next, if nothing holds it up. */
  function ReaderNext(p: ReaderPhase): Action {
    match p
    case RIdle => ReadNext
    case RTop => ReadTop
    case RPop => PopCheck
    case RAsleep => PushSignal
    case RTake => PopTake
    case RTaken => PopUncount
    case RCopy => ReadCopy
    case RStatus => StatusLoad
    case RLoaded(_) => StatusLen
    case RSeen(_, _) => StatusCas
    case RAck(_) => ReadAck
    case RAfter => ReadNext
  }

  /** Some actor's next step, looking first at the sender's wake-up, then at acknowledgements, then at the
      receiver's session reader, then at the reader. */
  function NextStep(s: State): Action {
    if s.snd.token then SendWake
    else if s.snd.allowing then AckSignal
    else if s.acks != [] then AckApply(0)
    else if !s.rcv.writer.WIdle? || s.segs != [] then WriterNext(s.rcv.writer)
    else ReaderNext(s.rd.phase)
  }

  lemma WriterNextEnabled(s: State)
    requires ReaderWake(s.rcv, s.rd.phase) && (!s.rcv.writer.WIdle? || s.segs != [])
    ensures Exec(s, WriterNext(s.rcv.writer)).Some?
  {
  }

  lemma ReaderNextEnabled(s: State)
    requires ReaderShape(s.rd) && !s.rd.phase.RIdle? && !s.rd.phase.RAsleep?
    requires s.rd.phase.RTake? ==> s.rcv.chain != []
    ensures Exec(s, ReaderNext(s.rd.phase)).Some?
  {
  }

  predicate Waiting(s: State) {
    s.snd.phase.SBlocked? && s.snd.word.maxSize > 0 && !s.rd.phase.RIdle?
  }

  lemma ReaderNotAsleep(s: State)
    requires Flow(s) && s.rcv.writer.WIdle? && s.segs == [] && s.acks == [] && s.snd.phase.SBlocked?
    requires SegmentsOut(s) > 0 || CreditComing(s) > 0
    ensures !s.rd.phase.RAsleep?
    ensures s.rd.phase.RTake? ==> s.rcv.chain != []
  {
  }

  lemma NextEnabled(s: State)
    requires Flow(s) && Waiting(s)
    requires s.snd.token || s.snd.allowing || SegmentsOut(s) > 0 || CreditComing(s) > 0
    ensures Exec(s, NextStep(s)).Some?
  {
    if !s.snd.token && !s.snd.allowing && s.acks == [] {
      if !s.rcv.writer.WIdle? || s.segs != [] {
        WriterNextEnabled(s);
      } else {
        ReaderNotAsleep(s);
        ReaderNextEnabled(s);
      }
    }
  }

  lemma NextIsOwn(s: State)
    ensures Own(NextStep(s))
  {
  }

  /** Deadlock freedom: while the sender is blocked on a positive window and the reader is inside Read,
      some actor can take a step of its own, without a new Write, Read or window. */
  lemma NeverStuck(actions: seq<Action>)
    requires Run(actions).Some? && Waiting(Run(actions).value)
    ensures var s := Run(actions).value; Exec(s, NextStep(s)).Some? && Own(NextStep(s))
  {
    Reachable(actions);
    HelpAtHand(Run(actions).value);
    NextEnabled(Run(actions).value);
    NextIsOwn(Run(actions).value);
  }

  // Progress.

  /** A step of the connection itself: no new call of Write or Read, and no new window. */
  predicate Own(a: Action) {
    !a.Write? && !a.ReadCall? && !a.Resize?
  }

  /** Steps the receiver's session reader may still take; a stale snapshot costs one more round. */
  function WriterWork(w: WriterPhase, word: Window): nat {
    match w
    case WIdle => 0
    case WAck(_) => 3
    case WSignal(_) => 5
    case WCounted(_, _, _) => 26
    case WDecided(_, _) => 27
    case WSeen(_, snap, _) => if snap == word then 31 else 34
    case WLoaded(_, snap) => if snap == word then 32 else 35
    case WHave(_) => 33
  }

  function ReaderWork(rd: Reader, word: Window): nat {
    match rd.phase
    case RIdle => 0
    case RAsleep => 1
    case RTake => 1
    case RPop => 2
    case RTop => if rd.off == |rd.elem.data| then 3 else 20
    case RAfter => 4
    case RAck(_) => 7
    case RSeen(snap, _) => if snap == word then 14 else 17
    case RLoaded(snap) => if snap == word then 15 else 18
    case RStatus => 16
    case RCopy => 19
    case RTaken => 20
  }

  /** A bound on the steps the connection can take while its sender stays blocked. */
  function Work(s: State): nat {
    34 * |s.segs| + WriterWork(s.rcv.writer, s.rcv.word) + 20 * |s.rcv.chain| + ReaderWork(s.rd, s.rcv.word)
    + 2 * |s.acks| + (if s.snd.allowing then 1 else 0)
  }

  lemma WriterStepShrinks(s: State, a: Action, t: State)
    requires Own(a) && WriterAction(a) && Exec(s, a) == Some(t)
    ensures Work(t) < Work(s)
  {
  }

  lemma PopStepShrinks(s: State, a: Action, t: State)
    requires ReaderShape(s.rd) && Own(a) && PopAction(a) && Exec(s, a) == Some(t)
    ensures Work(t) < Work(s)
  {
  }

  lemma StatusStepShrinks(s: State, a: Action, t: State)
    requires ReaderShape(s.rd) && !SenderAction(a) && !WriterAction(a) && !PopAction(a) && Exec(s, a) == Some(t)
    ensures Work(t) < Work(s)
  {
  }

  /** Whatever order the actors step in, every step brings the end nearer, retries included. */
  lemma StepShrinks(s: State, a: Action, t: State)
    requires ReaderShape(s.rd) && Own(a) && s.snd.phase.SBlocked? && Exec(s, a) == Some(t) && t.snd.phase.SBlocked?
    ensures Work(t) < Work(s)
  {
    if WriterAction(a) {
      WriterStepShrinks(s, a, t);
    } else if PopAction(a) {
      PopStepShrinks(s, a, t);
    } else if !SenderAction(a) {
      StatusStepShrinks(s, a, t);
    }
  }

  /** The state after some prefix of a run. */
  function At(actions: seq<Action>, k: nat): Option<State>
    requires k <= |actions|
  {
    Run(actions[..k])
  }

  lemma {:induction false} PrefixRuns(actions: seq<Action>, k: nat)
    requires k <= |actions| && Run(actions).Some?
    ensures At(actions, k).Some?
    ensures k < |actions| ==> At(actions, k + 1) == Exec(At(actions, k).value, actions[k])
    decreases |actions|
  {
    if k == |actions| {
      assert actions[..k] == actions;
    } else {
      assert actions[..k + 1][..k] == actions[..k];
      if k + 1 == |actions| {
        assert actions[..k + 1] == actions;
      } else {
        var most := actions[..|actions| - 1];
        PrefixRuns(most, k);
        assert most[..k] == actions[..k] && most[..k + 1] == actions[..k + 1];
      }
    }
  }

  /** From step m on the sender stays blocked and all steps are the connection's own. */
  predicate BlockedFrom(actions: seq<Action>, m: nat) {
    && m <= |actions|
    && (forall k :: m <= k < |actions| ==> Own(actions[k]))
    && (forall k :: m <= k <= |actions| ==> At(actions, k).Some? && At(actions, k).value.snd.phase.SBlocked?)
  }

  /** No livelock: however the actors interleave and retry, the connection takes at most Work steps of its
      own before its sender is released. */
  lemma {:induction false} BlockedRunsEnd(actions: seq<Action>, m: nat)
    requires Run(actions).Some? && BlockedFrom(actions, m)
    ensures |actions| - m + Work(Run(actions).value) <= Work(At(actions, m).value)
    decreases |actions| - m
  {
    if m == |actions| {
      assert actions[..m] == actions;
    } else {
      PrefixRuns(actions, m);
      Reachable(actions[..m]);
      StepShrinks(At(actions, m).value, actions[m], At(actions, m + 1).value);
      BlockedRunsEnd(actions, m + 1);
    }
  }

  lemma RunMore(actions: seq<Action>, a: Action)
    requires Run(actions).Some?
    ensures Run(actions + [a]) == Exec(Run(actions).value, a)
  {
    assert (actions + [a])[..|actions|] == actions;
  }

  /** The state some steps lead to. */
  function From(s: State, more: seq<Action>): Option<State>
    decreases |more|
  {
    if more == [] then Some(s)
    else match Exec(s, more[0])
      case None => None
      case Some(t) => From(t, more[1..])
  }

  lemma JoinOne(actions: seq<Action>, more: seq<Action>)
    requires more != []
    ensures actions + [more[0]] + more[1..] == actions + more
  {
  }

  lemma {:induction false} RunFrom(actions: seq<Action>, s: State, more: seq<Action>)
    requires Run(actions) == Some(s) && From(s, more).Some?
    ensures Run(actions + more) == From(s, more)
    decreases |more|
  {
    if more == [] {
      assert actions + more == actions;
    } else {
      RunMore(actions, more[0]);
      RunFrom(actions + [more[0]], Exec(s, more[0]).value, more[1..]);
      JoinOne(actions, more);
    }
  }

  ghost predicate Reached(s: State) {
    exists actions :: Run(actions) == Some(s)
  }

  // Progress across Reads.

  /** A step of the connection itself, or a Read of at least one byte. */
  predicate Served(a: Action) {
    Own(a) || (a.ReadCall? && a.want > 0)
  }

  /** Bytes that no Read has copied yet, from the wire on. */
  function Unread(s: State): nat {
    |Flat(s.segs)| + |ReceiverCells(s.rcv)| + Max(|s.rd.elem.data| - s.rd.off, 0)
  }

  /** A Read that is still filling its buffer will copy something before the next can be called. */
  function Fresh(p: ReaderPhase): nat {
    if Filling(p) then 0 else 1
  }

  /** A bound on the Reads that can still be called. */
  function ReadsLeft(s: State): nat {
    2 * Unread(s) + Fresh(s.rd.phase)
  }

  /** A bound on the steps and the Reads that can happen while the sender stays blocked. */
  function Budget(s: State): nat {
    Work(s) + 21 * ReadsLeft(s)
  }

  lemma DeliverKeepsUnread(s: State, t: State)
    requires DoDeliver(s) == Some(t)
    ensures Unread(t) == Unread(s)
  {
    DeliverCells(s);
  }

  lemma ChainKeepsUnread(s: State, t: State)
    requires Exec(s, PushChain) == Some(t)
    ensures Unread(t) == Unread(s)
  {
    PushChainCells(s.rcv, t.rcv);
  }

  predicate Ends(a: Action) {
    a.PushSignal? || a.RecvAck?
  }

  lemma EndsFrame(s: State, a: Action, t: State)
    requires Ends(a) && Exec(s, a) == Some(t)
    ensures t.segs == s.segs && t.rcv.chain == s.rcv.chain && WriterCells(t.rcv.writer) == WriterCells(s.rcv.writer)
    ensures t.rd.elem == s.rd.elem && t.rd.off == s.rd.off
  {
  }

  lemma WriterFrame(s: State, a: Action, t: State)
    requires Own(a) && WriterAction(a) && !a.Deliver? && !a.PushChain? && !Ends(a) && Exec(s, a) == Some(t)
    ensures t.segs == s.segs && t.rcv.chain == s.rcv.chain && WriterCells(t.rcv.writer) == WriterCells(s.rcv.writer)
    ensures t.rd.elem == s.rd.elem && t.rd.off == s.rd.off
  {
  }

  lemma WriterKeepsFresh(s: State, a: Action, t: State)
    requires WriterAction(a) && Exec(s, a) == Some(t)
    ensures Fresh(t.rd.phase) == Fresh(s.rd.phase)
  {
  }

  lemma WriterKeepsUnread(s: State, a: Action, t: State)
    requires Own(a) && WriterAction(a) && Exec(s, a) == Some(t)
    ensures Unread(t) == Unread(s)
  {
    if a.Deliver? {
      DeliverKeepsUnread(s, t);
    } else if a.PushChain? {
      ChainKeepsUnread(s, t);
    } else if Ends(a) {
      EndsFrame(s, a, t);
    } else {
      WriterFrame(s, a, t);
    }
  }

  lemma TakeKeepsUnread(s: State, t: State)
    requires ReceiverShape(s.rcv) && ReaderShape(s.rd) && DoPopTake(s) == Some(t)
    ensures Unread(t) == Unread(s) && Fresh(t.rd.phase) == Fresh(s.rd.phase)
  {
    PopTakeCells(s);
  }

  lemma PopFrame(s: State, a: Action, t: State)
    requires Own(a) && PopAction(a) && !a.PopTake? && !a.ReadCopy? && Exec(s, a) == Some(t)
    ensures t.segs == s.segs && t.rcv.chain == s.rcv.chain && t.rcv.writer == s.rcv.writer
    ensures t.rd.elem == s.rd.elem && t.rd.off == s.rd.off && Fresh(t.rd.phase) == Fresh(s.rd.phase)
  {
  }

  lemma CopyLowersUnread(s: State, t: State)
    requires ReaderShape(s.rd) && Exec(s, ReadCopy) == Some(t)
    ensures Unread(t) < Unread(s)
  {
  }

  lemma StatusFrame(s: State, a: Action, t: State)
    requires !SenderAction(a) && !WriterAction(a) && !PopAction(a) && Exec(s, a) == Some(t)
    ensures t.segs == s.segs && t.rcv.chain == s.rcv.chain && t.rcv.writer == s.rcv.writer
    ensures t.rd.elem == s.rd.elem && t.rd.off == s.rd.off && Fresh(t.rd.phase) <= Fresh(s.rd.phase)
  {
  }

  lemma CallFitsBudget(s: State, a: Action, t: State)
    requires a.ReadCall? && a.want > 0 && Exec(s, a) == Some(t)
    ensures Budget(t) < Budget(s)
  {
    assert Unread(t) == Unread(s);
  }

  lemma OwnStepReads(s: State, a: Action, t: State)
    requires ReceiverShape(s.rcv) && ReaderShape(s.rd) && Own(a) && !SenderAction(a) && Exec(s, a) == Some(t)
    ensures ReadsLeft(t) <= ReadsLeft(s)
  {
    if WriterAction(a) {
      WriterKeepsUnread(s, a, t);
      WriterKeepsFresh(s, a, t);
    } else if a.PopTake? {
      TakeKeepsUnread(s, t);
    } else if a.ReadCopy? {
      CopyLowersUnread(s, t);
    } else if PopAction(a) {
      PopFrame(s, a, t);
    } else {
      StatusFrame(s, a, t);
    }
  }

  lemma SenderStepReads(s: State, a: Action, t: State)
    requires SenderAction(a) && s.snd.phase.SBlocked? && Exec(s, a) == Some(t)
    ensures ReadsLeft(t) == ReadsLeft(s)
  {
  }

  /** Every step and every Read lowers the budget. */
  lemma BudgetShrinks(s: State, a: Action, t: State)
    requires ReceiverShape(s.rcv) && ReaderShape(s.rd) && Served(a)
    requires s.snd.phase.SBlocked? && Exec(s, a) == Some(t) && t.snd.phase.SBlocked?
    ensures Budget(t) < Budget(s)
  {
    if a.ReadCall? {
      CallFitsBudget(s, a, t);
    } else {
      StepShrinks(s, a, t);
      if SenderAction(a) {
        SenderStepReads(s, a, t);
      } else {
        OwnStepReads(s, a, t);
      }
    }
  }

  predicate ServedFrom(actions: seq<Action>, m: nat) {
    && m <= |actions|
    && (forall k :: m <= k < |actions| ==> Served(actions[k]))
    && (forall k :: m <= k <= |actions| ==> At(actions, k).Some? && At(actions, k).value.snd.phase.SBlocked?)
  }

  /** However steps and Reads interleave, the sender stays blocked for no more than its budget of them. */
  lemma {:induction false} ServedRunsEnd(actions: seq<Action>, m: nat)
    requires Run(actions).Some? && ServedFrom(actions, m)
    ensures |actions| - m + Budget(Run(actions).value) <= Budget(At(actions, m).value)
    decreases |actions| - m
  {
    if m == |actions| {
      assert actions[..m] == actions;
    } else {
      PrefixRuns(actions, m);
      Reachable(actions[..m]);
      BudgetShrinks(At(actions, m).value, actions[m], At(actions, m + 1).value);
      ServedRunsEnd(actions, m + 1);
    }
  }

  /** Blocked although the window is not 0. */
  predicate Blocked(s: State) {
    s.snd.phase.SBlocked? && s.snd.word.maxSize > 0
  }

  lemma ReachedMore(s: State, a: Action, t: State)
    requires Reached(s) && Exec(s, a) == Some(t)
    ensures Reached(t)
  {
    var actions :| Run(actions) == Some(s);
    RunMore(actions, a);
  }

  lemma ReachedShapes(s: State)
    requires Reached(s)
    ensures ReceiverShape(s.rcv) && ReaderShape(s.rd)
  {
    var actions :| Run(actions) == Some(s);
    Reachable(actions);
  }

  lemma ServedStep(s: State) returns (a: Action)
    requires Reached(s) && Blocked(s)
    ensures Served(a) && Exec(s, a).Some?
  {
    if s.rd.phase.RIdle? {
      a := ReadCall(1);
    } else {
      var actions :| Run(actions) == Some(s);
      NeverStuck(actions);
      a := NextStep(s);
    }
  }

  lemma OneStepCloser(s: State) returns (a: Action, t: State)
    requires Reached(s) && Blocked(s)
    ensures Served(a) && Exec(s, a) == Some(t) && Reached(t)
    ensures Blocked(t) ==> Budget(t) < Budget(s)
  {
    a := ServedStep(s);
    t := Exec(s, a).value;
    ReachedMore(s, a, t);
    ReachedShapes(s);
    if Blocked(t) {
      BudgetShrinks(s, a, t);
    }
  }

  lemma FromCons(s: State, a: Action, t: State, rest: seq<Action>)
    requires Exec(s, a) == Some(t)
    ensures From(s, [a] + rest) == From(t, rest)
  {
    assert ([a] + rest)[1..] == rest;
  }

  lemma {:induction false} ReleasedFrom(s: State) returns (more: seq<Action>)
    requires Reached(s)
    ensures From(s, more).Some? && !Blocked(From(s, more).value) && |more| <= Budget(s) + 1
    ensures forall k :: 0 <= k < |more| ==> Served(more[k])
    decreases Budget(s)
  {
    more := [];
    if Blocked(s) {
      var a, t := OneStepCloser(s);
      var rest := [];
      if Blocked(t) {
        rest := ReleasedFrom(t);
      }
      FromCons(s, a, t, rest);
      more := [a] + rest;
    }
  }

  /** From every reachable state finitely many own steps and Reads release a blocked sender or leave it with a
      window of 0. */
  lemma SenderReleased(actions: seq<Action>) returns (more: seq<Action>)
    requires Run(actions).Some?
    ensures Run(actions + more).Some? && !Blocked(Run(actions + more).value)
    ensures (forall k :: 0 <= k < |more| ==> Served(more[k])) && |more| <= Budget(Run(actions).value) + 1
  {
    more := ReleasedFrom(Run(actions).value);
    RunFrom(actions, Run(actions).value, more);
  }

  // A window of 0.

  /** Blocked with nothing on the way that could release it: no wake-up, acknowledgement, segment or credit. */
  predicate Helpless(s: State) {
    && s.snd.phase.SBlocked? && !s.snd.token && !s.snd.allowing
    && s.acks == [] && s.segs == [] && s.rcv.chain == [] && s.rcv.writer.WIdle?
    && s.rd.off == |s.rd.elem.data| && !InStatus(s.rd.phase) && !s.rd.phase.RAck?
  }

  lemma NoSenderStep(s: State, a: Action)
    requires Helpless(s) && SenderAction(a)
    ensures Exec(s, a).None?
  {
  }

  lemma NoWriterStep(s: State, a: Action)
    requires Helpless(s) && WriterAction(a)
    ensures Exec(s, a).None?
  {
  }

  lemma HelplessPop(s: State, a: Action, t: State)
    requires ReaderShape(s.rd) && QueueLength(s.rcv, s.rd) && Helpless(s) && PopAction(a) && Exec(s, a) == Some(t)
    ensures Helpless(t) && t.snd == s.snd
  {
  }

  lemma HelplessRead(s: State, a: Action, t: State)
    requires Helpless(s) && !SenderAction(a) && !WriterAction(a) && !PopAction(a) && Exec(s, a) == Some(t)
    ensures Helpless(t) && t.snd == s.snd
  {
  }

  lemma HelplessKept(s: State, a: Action, t: State)
    requires ReaderShape(s.rd) && QueueLength(s.rcv, s.rd) && Helpless(s) && Exec(s, a) == Some(t)
    ensures Helpless(t) && t.snd == s.snd
  {
    if SenderAction(a) {
      NoSenderStep(s, a);
    } else if WriterAction(a) {
      NoWriterStep(s, a);
    } else if PopAction(a) {
      HelplessPop(s, a, t);
    } else {
      HelplessRead(s, a, t);
    }
  }

  /** Only a window of 0 leaves a blocked sender helpless. */
  lemma HelplessMeansZero(actions: seq<Action>)
    requires Run(actions).Some? && Helpless(Run(actions).value)
    ensures Run(actions).value.snd.word.maxSize == 0
  {
    Reachable(actions);
    if Run(actions).value.snd.word.maxSize > 0 {
      HelpAtHand(Run(actions).value);
    }
  }

  lemma ReachedQueue(s: State)
    requires Reached(s)
    ensures ReaderShape(s.rd) && QueueLength(s.rcv, s.rd)
  {
    var actions :| Run(actions) == Some(s);
    Reachable(actions);
  }

  /** And then nothing ever releases it, whatever anyone does. */
  lemma {:induction false} HelplessForever(s: State, more: seq<Action>)
    requires Reached(s) && Helpless(s) && From(s, more).Some?
    ensures Helpless(From(s, more).value) && From(s, more).value.snd == s.snd
    decreases |more|
  {
    if more != [] {
      var t := Exec(s, more[0]).value;
      ReachedQueue(s);
      HelplessKept(s, more[0], t);
      ReachedMore(s, more[0], t);
      HelplessForever(t, more[1..]);
    }
  }
}
