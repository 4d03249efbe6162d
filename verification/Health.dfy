/** Health checks: the client's failure counters, the reports, and the server's rotation. */
module Health {
  import opened Common
  import opened TargetList

  datatype Check = Check(target: string, ok: bool)

  datatype Report = Report(target: string, up: bool)

  // The client.

  function Count(counts: map<string, nat>, t: string): nat {
    if t in counts then counts[t] else 0
  }

  function CountAfter(count: nat, ok: bool): nat {
    if ok then 0 else count + 1
  }

  function ReportFor(count: nat, c: Check, maxFail: nat): seq<Report>
    requires maxFail > 0
  {
    if c.ok then if count >= maxFail then [Report(c.target, true)] else []
    else if (count + 1) % maxFail == 0 then [Report(c.target, false)] else []
  }

  function CountsAfter(counts: map<string, nat>, checks: seq<Check>): map<string, nat> {
    if checks == [] then counts
    else
      var before, c := CountsAfter(counts, checks[..|checks| - 1]), checks[|checks| - 1];
      before[c.target := CountAfter(Count(before, c.target), c.ok)]
  }

  /** The reports a series of checks sends. */
  function ReportsOf(counts: map<string, nat>, checks: seq<Check>, maxFail: nat): seq<Report>
    requires maxFail > 0
  {
    if checks == [] then []
    else
      var most, c := checks[..|checks| - 1], checks[|checks| - 1];
      ReportsOf(counts, most, maxFail) + ReportFor(Count(CountsAfter(counts, most), c.target), c, maxFail)
  }

  lemma ChecksMore(counts: map<string, nat>, checks: seq<Check>, k: nat, maxFail: nat)
    requires k < |checks| && maxFail > 0
    ensures var before, c := CountsAfter(counts, checks[..k]), checks[k];
      && CountsAfter(counts, checks[..k + 1]) == before[c.target := CountAfter(Count(before, c.target), c.ok)]
      && ReportsOf(counts, checks[..k + 1], maxFail) ==
           ReportsOf(counts, checks[..k], maxFail) + ReportFor(Count(before, c.target), c, maxFail)
  {
    assert checks[..k + 1][..k] == checks[..k];
  }

  class Checker {
    const maxFail: nat
    var healthMap: map<string, nat>

    constructor (maxFail: nat)
      ensures this.maxFail == maxFail && healthMap == map[]
    {
      this.maxFail, healthMap := maxFail, map[];
    }

    /** One probe: the counter it leaves and the report it sends. */
    method CheckOne(c: Check) returns (report: seq<Report>)
      requires maxFail > 0
      modifies this
      ensures healthMap == old(healthMap)[c.target := CountAfter(Count(old(healthMap), c.target), c.ok)]
      ensures report == ReportFor(Count(old(healthMap), c.target), c, maxFail)
    {
      report := [];
      var n := if c.target in healthMap then healthMap[c.target] else 0;
      if !c.ok {
        healthMap := healthMap[c.target := n + 1];
        if (n + 1) % maxFail == 0 {
          report := [Report(c.target, false)];
        }
      } else {
        if n >= maxFail {
          report := [Report(c.target, true)];
        }
        healthMap := healthMap[c.target := 0];
      }
    }

    /** doCheck, with the outcome of each probe as a parameter. */
    method DoCheck(checks: seq<Check>) returns (sent: seq<Report>)
      requires maxFail > 0
      modifies this
      ensures healthMap == CountsAfter(old(healthMap), checks)
      ensures sent == ReportsOf(old(healthMap), checks, maxFail)
    {
      sent := [];
      var k := 0;
      while k < |checks|
        invariant 0 <= k <= |checks|
        invariant healthMap == CountsAfter(old(healthMap), checks[..k])
        invariant sent == ReportsOf(old(healthMap), checks[..k], maxFail)
      {
        ChecksMore(old(healthMap), checks, k, maxFail);
        var report := CheckOne(checks[k]);
        sent := sent + report;
        k := k + 1;
      }
      assert checks[..k] == checks;
    }
  }

  /** The first multiple of the interval after the old time that lies beyond now. */
  function NextTime(oldTime: int, interval: int, now: int): int
    requires interval > 0 && oldTime <= now
  {
    oldTime + ((now - oldTime) / interval + 1) * interval
  }

  lemma NextTimeExact(oldTime: int, interval: int, now: int)
    requires interval > 0 && oldTime <= now
    ensures var next := NextTime(oldTime, interval, now);
      now < next <= now + interval
      && forall k: int :: oldTime < oldTime + k * interval < next ==> oldTime + k * interval <= now
  {
    var missed := (now - oldTime) / interval;
    assert now - oldTime == missed * interval + (now - oldTime) % interval;
    assert (missed + 1) * interval == missed * interval + interval;
    forall k: int | oldTime < oldTime + k * interval < NextTime(oldTime, interval, now)
      ensures oldTime + k * interval <= now
    {
      MultipleGrows(k - missed, interval);
      assert (k - missed) * interval == k * interval - missed * interval;
    }
  }

  /** runChecks' rescheduling of the entries that were due, on times in seconds. */
  method Reschedule(next: array<int>, intervals: seq<int>, now: int)
    requires next.Length == |intervals| && forall i :: 0 <= i < |intervals| ==> intervals[i] > 0
    modifies next
    ensures forall i :: 0 <= i < next.Length ==>
      next[i] == if old(next[i]) <= now then NextTime(old(next[i]), intervals[i], now) else old(next[i])
    ensures forall i :: 0 <= i < next.Length ==> next[i] > now
  {
    var k := 0;
    while k < next.Length
      invariant 0 <= k <= next.Length
      invariant forall i :: 0 <= i < k ==>
        next[i] == if old(next[i]) <= now then NextTime(old(next[i]), intervals[i], now) else old(next[i])
      invariant forall i :: 0 <= i < k ==> next[i] > now
      invariant forall i :: k <= i < next.Length ==> next[i] == old(next[i])
    {
      if next[k] <= now {
        NextTimeExact(next[k], intervals[k], now);
        var missed := (now - next[k]) / intervals[k] + 1;
        next[k] := next[k] + missed * intervals[k];
      }
      k := k + 1;
    }
  }

  // The server.

  datatype Entry = Entry(arr: Option<seq<string>>, removed: seq<string>)

  /** A down report. */
  ghost function Down(text: string, e: Entry, info: string): Entry {
    if !Contains(text, info) then e
    else
      var arr := if e.arr.None? || (e.arr.value == [] && e.removed == []) then Lines(text) else e.arr.value;
      Entry(Some(RemoveFirst(arr, info)), e.removed + [info])
  }

  /** An up report. */
  function Up(e: Entry, info: string): Entry {
    var arr := if e.arr.None? then [] else e.arr.value;
    if info in e.removed && info !in arr then Entry(Some(arr + [info]), RemoveFirst(e.removed, info)) else e
  }

  ghost function Apply(text: string, e: Entry, r: Report): Entry {
    if r.up then Up(e, r.target) else Down(text, e, r.target)
  }

  class Tunnel {
    const target: Target
    var healthRemoveArr: seq<string>

    ghost function State(): Entry
      reads this, target
    {
      Entry(target.targetArr, healthRemoveArr)
    }

    constructor (text: string)
      ensures fresh(target) && target.targetStr == text && State() == Entry(None, [])
    {
      target := new Target(text);
      healthRemoveArr := [];
    }

    /** What GetHealthFromClient does to one of the client's tunnels for one report. */
    method Receive(r: Report)
      modifies this, target
      ensures State() == Apply(target.targetStr, old(State()), r) && target.targetStr == old(target.targetStr)
    {
      var info := r.target;
      if !r.up {
        var mentioned := ContainsPart(target.targetStr, info);
        if mentioned {
          var arr := if target.targetArr.None? then [] else target.targetArr.value;
          if target.targetArr.None? || (|arr| == 0 && |healthRemoveArr| == 0) {
            arr := Trimmed(SplitLines(UnixLines(target.targetStr)));
          }
          arr := RemoveArrVal(arr, info);
          target.targetArr := Some(arr);
          healthRemoveArr := healthRemoveArr + [info];
        }
      } else {
        var arr := if target.targetArr.None? then [] else target.targetArr.value;
        if info in healthRemoveArr && info !in arr {
          target.targetArr := Some(arr + [info]);
          healthRemoveArr := RemoveArrVal(healthRemoveArr, info);
        }
      }
    }
  }

  /** The rotation has no repeats, and every configured line is in it or on the removed list. */
  predicate EntryOk(text: string, e: Entry) {
    var rotation := Rotation(text, e.arr);
    && Distinct(rotation)
    && (forall t :: t in Lines(text) ==> t in rotation || t in e.removed)
    && (e.arr.None? ==> e.removed == [])
  }

  /** An entry with nothing in use and nothing removed belongs to a text without lines. */
  lemma NothingLeft(text: string, e: Entry)
    requires EntryOk(text, e) && e.arr == Some([]) && e.removed == []
    ensures Lines(text) == []
  {
    NoMembers(Lines(text));
  }

  lemma NoMembers(arr: seq<string>)
    ensures (forall x :: x !in arr) ==> arr == []
  {
    if arr != [] {
      assert arr[0] in arr;
    }
  }

  /** The list a down report takes its target from is the rotation. */
  lemma DownIs(text: string, e: Entry, info: string)
    requires EntryOk(text, e) && Contains(text, info)
    ensures Down(text, e, info) == Entry(Some(RemoveFirst(Rotation(text, e.arr), info)), e.removed + [info])
  {
    if e.arr == Some([]) && e.removed == [] {
      NothingLeft(text, e);
    }
  }

  /** Whatever a down report names, part of a line or nothing at all, it takes exactly that target out. */
  lemma DownExact(text: string, e: Entry, info: string)
    requires EntryOk(text, e)
    ensures EntryOk(text, Down(text, e, info))
    ensures forall t :: t in Lines(text) ==>
      (t in Rotation(text, Down(text, e, info).arr) <==> t in Rotation(text, e.arr) && t != info)
  {
    if Contains(text, info) {
      DownIs(text, e, info);
      RemoveFirstExact(Rotation(text, e.arr), info);
    } else if info in Lines(text) {
      LinesAreContained(text, info);
    }
  }

  lemma {:induction false} RemoveFirstMembers(arr: seq<string>, val: string, x: string)
    ensures x in RemoveFirst(arr, val) ==> x in arr
    ensures x in arr && x != val ==> x in RemoveFirst(arr, val)
  {
    if arr != [] {
      RemoveFirstMembers(arr[1..], val, x);
    }
  }

  /** An up report puts exactly its target back; copies left on the removed list by repeated down reports, and
      targets nobody configured, do no harm. */
  lemma UpExact(text: string, e: Entry, info: string)
    requires EntryOk(text, e)
    ensures EntryOk(text, Up(e, info))
    ensures forall t :: t in Lines(text) ==>
      (t in Rotation(text, Up(e, info).arr) <==> t in Rotation(text, e.arr) || t == info)
  {
    var rotation := Rotation(text, e.arr);
    if info in e.removed && info !in rotation {
      forall x | x in e.removed && x != info ensures x in RemoveFirst(e.removed, info) {
        RemoveFirstMembers(e.removed, info, x);
      }
    }
  }

  /** The target names a whole configured line, or nothing in the text. */
  ghost predicate WellNamed(text: string, t: string) {
    t in Lines(text) || !Contains(text, t)
  }

  /** A report that is only part of a line puts a target nobody configured into the rotation, and no other does. */
  lemma StrayReport(text: string, info: string)
    requires Distinct(Lines(text))
    ensures (forall t :: t in Rotation(text, Up(Down(text, Entry(None, []), info), info).arr) ==> t in Lines(text))
      <==> WellNamed(text, info)
  {
    var down := Down(text, Entry(None, []), info);
    if Contains(text, info) {
      RemoveFirstExact(Lines(text), info);
      var up := Up(down, info);
      assert up.arr.value == RemoveFirst(Lines(text), info) + [info];
      assert up.arr.value[|up.arr.value| - 1] == info;
    }
  }

  // End to end.

  /** The target text as picks rewrite it; reports travel in order; checks is the history of probes. */
  datatype System = System(text: string, counts: map<string, nat>, wire: seq<Report>, entry: Entry, checks: seq<Check>)

  datatype Action = Probe(check: Check) | Deliver | Pick

  function Start(text: string): System {
    System(text, map[], [], Entry(None, []), [])
  }

  /** What GetRandomTarget does to the text and the list. */
  function Picked(s: System): System {
    if s.entry.arr.Some? then s
    else
      var text := HalfColons(s.text);
      s.(text := text, entry := if Lines(text) != [] then s.entry.(arr := Some(Lines(text))) else s.entry)
  }

  ghost function Exec(maxFail: nat, s: System, a: Action): Option<System>
    requires maxFail > 0
  {
    match a
    case Probe(c) => Some(s.(
      counts := s.counts[c.target := CountAfter(Count(s.counts, c.target), c.ok)],
      wire := s.wire + ReportFor(Count(s.counts, c.target), c, maxFail),
      checks := s.checks + [c]))
    case Deliver =>
      if s.wire == [] then None
      else Some(s.(entry := Apply(s.text, s.entry, s.wire[0]), wire := s.wire[1..]))
    case Pick => Some(Picked(s))
  }

  ghost function Run(text: string, maxFail: nat, actions: seq<Action>): Option<System>
    requires maxFail > 0
  {
    if actions == [] then Some(Start(text))
    else
      var before := Run(text, maxFail, actions[..|actions| - 1]);
      if before.None? then None else Exec(maxFail, before.value, actions[|actions| - 1])
  }

  /** The checks of t that failed since the last that passed. */
  function FailureRun(checks: seq<Check>, t: string): nat {
    if checks == [] then 0
    else
      var c, before := checks[|checks| - 1], FailureRun(checks[..|checks| - 1], t);
      if c.target != t then before else if c.ok then 0 else before + 1
  }

  /** Whether t is out once the reports on the wire have arrived. */
  function OutAfter(wire: seq<Report>, t: string, out: bool): bool {
    if wire == [] then out
    else OutAfter(wire[1..], t, if wire[0].target == t then !wire[0].up else out)
  }

  lemma {:induction false} OutAfterMore(wire: seq<Report>, r: Report, t: string, out: bool)
    ensures OutAfter(wire + [r], t, out) == if r.target == t then !r.up else OutAfter(wire, t, out)
  {
    if wire != [] {
      assert (wire + [r])[1..] == wire[1..] + [r];
      OutAfterMore(wire[1..], r, t, if wire[0].target == t then !wire[0].up else out);
    }
  }

  predicate Quiet(wire: seq<Report>, t: string) {
    forall i :: 0 <= i < |wire| ==> wire[i].target != t
  }

  lemma {:induction false} OutAfterQuiet(wire: seq<Report>, t: string, out: bool)
    requires Quiet(wire, t)
    ensures OutAfter(wire, t, out) == out
  {
    if wire != [] {
      OutAfterQuiet(wire[1..], t, out);
    }
  }

  predicate Out(text: string, e: Entry, t: string) {
    t !in Rotation(text, e.arr)
  }

  /** For one target: the counter is its failure run, and the rotation follows the counter. */
  predicate Follows(maxFail: nat, s: System, t: string) {
    && Count(s.counts, t) == FailureRun(s.checks, t)
    && OutAfter(s.wire, t, Out(s.text, s.entry, t)) == (Count(s.counts, t) >= maxFail)
  }

  lemma BelowMax(n: nat, maxFail: nat)
    requires n < maxFail
    ensures (n + 1) % maxFail == 0 <==> n + 1 == maxFail
  {
    if n + 1 < maxFail {
      DivModUnique(n + 1, maxFail, 0, n + 1);
    } else {
      DivModUnique(n + 1, maxFail, 1, 0);
    }
  }

  lemma SentOrNot(wire: seq<Report>, sent: seq<Report>, t: string, out: bool)
    requires |sent| <= 1
    ensures OutAfter(wire + sent, t, out) ==
      if sent != [] && sent[0].target == t then !sent[0].up else OutAfter(wire, t, out)
  {
    if sent == [] {
      assert wire + sent == wire;
    } else {
      assert sent == [sent[0]];
      OutAfterMore(wire, sent[0], t, out);
    }
  }

  /** The report for one probe moves a target that follows its counter to where the new counter is. */
  lemma ReportFollows(n: nat, c: Check, maxFail: nat, out: bool)
    requires maxFail > 0 && out == (n >= maxFail)
    ensures var sent := ReportFor(n, c, maxFail);
      && |sent| <= 1 && (sent != [] ==> sent[0].target == c.target)
      && (if sent != [] then !sent[0].up else out) == (CountAfter(n, c.ok) >= maxFail)
  {
    if n < maxFail {
      BelowMax(n, maxFail);
    }
  }

  lemma FailureRunMore(checks: seq<Check>, c: Check, t: string)
    ensures var before := FailureRun(checks, t);
      FailureRun(checks + [c], t) == if c.target != t then before else CountAfter(before, c.ok)
  {
    assert (checks + [c])[..|checks|] == checks;
  }

  lemma ProbeFollows(maxFail: nat, s: System, c: Check, t: string)
    requires maxFail > 0 && Follows(maxFail, s, t)
    ensures Follows(maxFail, Exec(maxFail, s, Probe(c)).value, t)
  {
    var n, out := Count(s.counts, c.target), Out(s.text, s.entry, t);
    FailureRunMore(s.checks, c, t);
    SentLength(n, c, maxFail);
    SentOrNot(s.wire, ReportFor(n, c, maxFail), t, out);
    if c.target == t {
      ReportFollows(n, c, maxFail, OutAfter(s.wire, t, out));
    }
  }

  lemma SentLength(n: nat, c: Check, maxFail: nat)
    requires maxFail > 0
    ensures |ReportFor(n, c, maxFail)| <= 1
    ensures ReportFor(n, c, maxFail) != [] ==> ReportFor(n, c, maxFail)[0].target == c.target
  {
  }

  lemma DeliverFollows(maxFail: nat, s: System, t: string)
    requires maxFail > 0 && s.wire != [] && EntryOk(s.text, s.entry) && t in Lines(s.text) && Follows(maxFail, s, t)
    ensures Follows(maxFail, Exec(maxFail, s, Deliver).value, t)
  {
    if s.wire[0].up {
      UpExact(s.text, s.entry, s.wire[0].target);
    } else {
      DownExact(s.text, s.entry, s.wire[0].target);
    }
  }

  lemma ApplyOk(text: string, e: Entry, r: Report)
    requires EntryOk(text, e)
    ensures EntryOk(text, Apply(text, e, r))
  {
    if r.up {
      UpExact(text, e, r.target);
    } else {
      DownExact(text, e, r.target);
    }
  }

  predicate Inv(maxFail: nat, s: System) {
    EntryOk(s.text, s.entry) && forall t :: t in Lines(s.text) ==> Follows(maxFail, s, t)
  }

  /** Every probe, delivery and pick keeps the invariant of a text without full-width colons. */
  lemma ExecKeeps(maxFail: nat, s: System, a: Action)
    requires maxFail > 0 && HalfColons(s.text) == s.text && Inv(maxFail, s) && Exec(maxFail, s, a).Some?
    ensures var t := Exec(maxFail, s, a).value; Inv(maxFail, t) && t.text == s.text
  {
    if a.Deliver? {
      ApplyOk(s.text, s.entry, s.wire[0]);
    }
    forall t | t in Lines(s.text) ensures Follows(maxFail, Exec(maxFail, s, a).value, t) {
      assert Follows(maxFail, s, t);
      match a
      case Probe(c) => ProbeFollows(maxFail, s, c, t);
      case Deliver => DeliverFollows(maxFail, s, t);
      case Pick =>
    }
  }

  lemma {:induction false} RunKeeps(text: string, maxFail: nat, actions: seq<Action>)
    requires maxFail > 0 && Distinct(Lines(text)) && HalfColons(text) == text && Run(text, maxFail, actions).Some?
    ensures var s := Run(text, maxFail, actions).value; Inv(maxFail, s) && s.text == text
    decreases |actions|
  {
    if actions != [] {
      RunKeeps(text, maxFail, actions[..|actions| - 1]);
      ExecKeeps(maxFail, Run(text, maxFail, actions[..|actions| - 1]).value, actions[|actions| - 1]);
    }
  }

  /** What health checking is for: with no report under way for it, a configured target is out of use exactly
      while its current run of failed checks has reached the limit. */
  ghost predicate AsIntended(text: string, maxFail: nat, actions: seq<Action>, t: string)
    requires maxFail > 0
  {
    var r := Run(text, maxFail, actions);
    r.Some? && t in Lines(HalfColons(text)) && Quiet(r.value.wire, t) ==>
      (t !in Usable(r.value.text, r.value.entry.arr) <==> FailureRun(r.value.checks, t) >= maxFail)
  }

  /** In every run, for distinct lines without full-width colons, whatever the reports name. */
  lemma OutExactlyWhileFailing(text: string, maxFail: nat, actions: seq<Action>, t: string)
    requires maxFail > 0 && Distinct(Lines(text)) && HalfColons(text) == text
    ensures AsIntended(text, maxFail, actions, t)
  {
    if Run(text, maxFail, actions).Some? && t in Lines(text) {
      RunKeeps(text, maxFail, actions);
      var s := Run(text, maxFail, actions).value;
      assert Follows(maxFail, s, t);
      if Quiet(s.wire, t) {
        OutAfterQuiet(s.wire, t, Out(s.text, s.entry, t));
      }
    }
  }
}
