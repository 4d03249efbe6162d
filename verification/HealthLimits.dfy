/** Where health checking does not do what it is for: target texts with full-width colons or repeated lines. */
module HealthLimits {
  import opened Common
  import opened TargetList
  import opened Health

  // Full-width colons and lines.

  function Plain(lines: seq<string>): (r: seq<string>)
    ensures |r| == |lines| && forall i :: 0 <= i < |lines| ==> r[i] == HalfColons(lines[i])
  {
    if lines == [] then [] else [HalfColons(lines[0])] + Plain(lines[1..])
  }

  lemma {:induction false} HalfColonsCut(s: string, a: nat, b: nat)
    requires a <= b <= |s|
    ensures HalfColons(s[a..b]) == HalfColons(s)[a..b]
  {
    var left, right := HalfColons(s[a..b]), HalfColons(s)[a..b];
    forall i | 0 <= i < b - a ensures left[i] == right[i] {
      assert s[a..b][i] == s[a + i] && right[i] == HalfColons(s)[a + i];
    }
  }

  lemma {:induction false} PlainUnix(text: string)
    ensures UnixLines(HalfColons(text)) == HalfColons(UnixLines(text))
    decreases |text|
  {
    if |text| >= 2 && text[0] == '\r' && text[1] == '\n' {
      assert HalfColons(text)[2..] == HalfColons(text[2..]);
      PlainUnix(text[2..]);
    } else if text != "" {
      assert HalfColons(text)[1..] == HalfColons(text[1..]);
      PlainUnix(text[1..]);
    }
  }

  lemma {:induction false} PlainSplit(text: string)
    ensures SplitLines(HalfColons(text)) == Plain(SplitLines(text))
    decreases |text|
  {
    if text != "" {
      assert HalfColons(text)[1..] == HalfColons(text[1..]);
      PlainSplit(text[1..]);
    }
  }

  lemma {:induction false} PlainTrim(s: string)
    ensures Trim(HalfColons(s)) == HalfColons(Trim(s))
    decreases |s|
  {
    if s != "" {
      HalfColonsCut(s, 1, |s|);
      HalfColonsCut(s, 0, |s| - 1);
      if IsSpace(s[0]) {
        PlainTrim(s[1..]);
      } else if IsSpace(s[|s| - 1]) {
        PlainTrim(s[..|s| - 1]);
      }
    }
  }

  lemma {:induction false} PlainTrimArr(lines: seq<string>)
    ensures TrimArr(Plain(lines)) == Plain(TrimArr(lines))
    decreases |lines|
  {
    if lines != [] {
      PlainTrim(lines[0]);
      PlainTrimArr(lines[1..]);
    }
  }

  /** The lines of the rewritten text are the rewritten lines of the text. */
  lemma PlainLines(text: string)
    ensures Lines(HalfColons(text)) == Plain(Lines(text))
  {
    PlainUnix(text);
    PlainSplit(UnixLines(text));
    PlainTrimArr(SplitLines(UnixLines(text)));
  }

  // What is in the text is in some line.

  lemma {:induction false} CharInUnix(c: char, text: string)
    requires c in text && c != '\r'
    ensures c in UnixLines(text)
    decreases |text|
  {
    if |text| >= 2 && text[0] == '\r' && text[1] == '\n' {
      if c != '\n' {
        CharInUnix(c, text[2..]);
      }
    } else if text[0] != c {
      CharInUnix(c, text[1..]);
    }
  }

  lemma {:induction false} CharInSplit(c: char, text: string) returns (i: nat)
    requires c in text && c != '\n'
    ensures i < |SplitLines(text)| && c in SplitLines(text)[i]
    decreases |text|
  {
    if text[0] == c {
      i := 0;
    } else {
      i := CharInSplit(c, text[1..]);
      if text[0] == '\n' {
        i := i + 1;
      }
    }
  }

  lemma {:induction false} CharInTrim(c: char, s: string)
    requires c in s && !IsSpace(c)
    ensures c in Trim(s)
    decreases |s|
  {
    if IsSpace(s[0]) {
      CharInTrim(c, s[1..]);
    } else if IsSpace(s[|s| - 1]) {
      CharInTrim(c, s[..|s| - 1]);
    }
  }

  lemma {:induction false} TrimmedInArr(lines: seq<string>, i: nat)
    requires i < |lines| && Trim(lines[i]) != ""
    ensures Trim(lines[i]) in TrimArr(lines)
    decreases |lines|
  {
    if i > 0 {
      TrimmedInArr(lines[1..], i - 1);
    }
  }

  lemma PlainWithout(text: string)
    ensures '\U{FF1A}' !in text ==> HalfColons(text) == text
  {
    if '\U{FF1A}' !in text {
      forall i | 0 <= i < |text| ensures HalfColons(text)[i] == text[i] {
        assert text[i] in text;
      }
    }
  }

  /** A text with a full-width colon has a line with one. */
  lemma FullWidthLine(text: string) returns (line: string)
    requires HalfColons(text) != text
    ensures line in Lines(text) && HalfColons(line) != line
  {
    var c := '\U{FF1A}';
    PlainWithout(text);
    CharInUnix(c, text);
    var lines := SplitLines(UnixLines(text));
    var i := CharInSplit(c, UnixLines(text));
    CharInTrim(c, lines[i]);
    TrimmedInArr(lines, i);
    line := Trim(lines[i]);
    var k :| 0 <= k < |line| && line[k] == c;
    assert HalfColons(line)[k] != line[k];
  }

  lemma {:induction false} PrefixInUnix(x: string, text: string)
    requires x <= text && OneLine(x) && (x != "" ==> x[|x| - 1] != '\r')
    ensures x <= UnixLines(text)
    decreases |text|
  {
    if x != "" {
      assert forall c :: c in x[1..] ==> c in x;
      assert |x| >= 2 ==> x[1] in x;
      PrefixInUnix(x[1..], text[1..]);
    }
  }

  lemma {:induction false} PartInUnix(x: string, text: string, k: nat) returns (j: nat)
    requires At(text, k, x) && x != "" && OneLine(x) && x[|x| - 1] != '\r'
    ensures At(UnixLines(text), j, x)
    decreases |text|
  {
    assert x[0] in x && text[k] == text[k..k + |x|][0];
    if k == 0 {
      PrefixInUnix(x, text);
      j := 0;
    } else {
      var skip := if |text| >= 2 && text[0] == '\r' && text[1] == '\n' then 2 else 1;
      assert text[skip..][k - skip..k - skip + |x|] == text[k..k + |x|];
      j := PartInUnix(x, text[skip..], k - skip);
      UnixLinesTail(text);
      AtShifted(UnixLines(text), 1, j, x);
      j := j + 1;
    }
  }

  lemma {:induction false} PrefixInSplit(x: string, text: string)
    requires x <= text && OneLine(x)
    ensures x <= SplitLines(text)[0]
    decreases |text|
  {
    if x != "" {
      assert x[0] in x && forall c :: c in x[1..] ==> c in x;
      PrefixInSplit(x[1..], text[1..]);
    }
  }

  lemma {:induction false} PartInSplit(x: string, text: string, k: nat) returns (i: nat, j: nat)
    requires At(text, k, x) && x != "" && OneLine(x)
    ensures i < |SplitLines(text)| && At(SplitLines(text)[i], j, x)
    decreases |text|
  {
    if k == 0 {
      PrefixInSplit(x, text);
      i, j := 0, 0;
    } else {
      AtTail(text, k, x);
      i, j := PartInSplit(x, text[1..], k - 1);
      if text[0] == '\n' {
        i := i + 1;
      } else if i == 0 {
        AtShifted(SplitLines(text)[0], 1, j, x);
        j := j + 1;
      }
    }
  }

  lemma {:induction false} PartInTrim(x: string, s: string, k: nat) returns (j: nat)
    requires At(s, k, x) && x != "" && Tidy(x)
    ensures At(Trim(s), j, x)
    decreases |s|
  {
    assert s[k] == s[k..k + |x|][0] && s[k + |x| - 1] == s[k..k + |x|][|x| - 1];
    if IsSpace(s[0]) {
      AtTail(s, k, x);
      j := PartInTrim(x, s[1..], k - 1);
    } else if IsSpace(s[|s| - 1]) {
      assert s[..|s| - 1][k..k + |x|] == s[k..k + |x|];
      j := PartInTrim(x, s[..|s| - 1], k);
    } else {
      j := k;
    }
  }

  /** What stands somewhere in the text, within one line, stands in one of the configured lines. */
  lemma PartOfLine(text: string, x: string) returns (line: string)
    requires Contains(text, x) && x != "" && OneLine(x) && Tidy(x)
    ensures line in Lines(text) && Contains(line, x)
  {
    var k :| At(text, k, x);
    var u := PartInUnix(x, text, k);
    var lines := SplitLines(UnixLines(text));
    var i, j := PartInSplit(x, UnixLines(text), u);
    j := PartInTrim(x, lines[i], j);
    line := Trim(lines[i]);
    TrimmedInArr(lines, i);
  }

  lemma {:induction false} TrimArrNonEmpty(lines: seq<string>)
    ensures "" !in TrimArr(lines)
    decreases |lines|
  {
    if lines != [] {
      TrimArrNonEmpty(lines[1..]);
    }
  }

  lemma LineShape(text: string, line: string)
    requires line in Lines(text)
    ensures line != "" && OneLine(line) && Tidy(line)
  {
    var lines := SplitLines(UnixLines(text));
    TrimArrNonEmpty(lines);
    var i := TrimArrSource(lines, line);
    TrimIsTidy(lines[i]);
    var k := LineIsPart(UnixLines(text), i);
    var a, b := TrimIsPart(lines[i]);
    forall c | c in line ensures c in lines[i] {
      assert line == lines[i][a..b];
    }
  }

  lemma PlainMember(text: string, line: string)
    requires line in Lines(text)
    ensures HalfColons(line) in Lines(HalfColons(text))
  {
    PlainLines(text);
    var i :| 0 <= i < |Lines(text)| && Lines(text)[i] == line;
    assert Plain(Lines(text))[i] == HalfColons(line);
  }

  lemma WholePart(line: string, t: string)
    requires Contains(line, t) && |line| == |t|
    ensures line == t
  {
    var j :| At(line, j, t);
    assert line == line[0..|line|];
  }

  /** A target whose plain name is no line, but stands in the text, stands in a line that is another target. */
  lemma OtherLine(text: string, t: string) returns (u: string)
    requires t in Lines(HalfColons(text)) && t !in Lines(text) && Contains(text, t)
    ensures u in Lines(HalfColons(text)) && u != t
  {
    LineShape(HalfColons(text), t);
    var line := PartOfLine(text, t);
    PlainMember(text, line);
    u := HalfColons(line);
    if |line| == |t| {
      WholePart(line, t);
    }
  }

  // Single reports.

  /** Before the first pick a down report takes its target out of use exactly when the text, full-width colons
      and all, contains its name. */
  lemma FirstReportCounts(text: string, t: string)
    requires Distinct(Lines(text)) && t in Usable(text, None)
    ensures t !in Usable(text, Down(text, Entry(None, []), t).arr) <==> Contains(text, t)
  {
    RemoveFirstExact(Lines(text), t);
  }

  /** A first report about one target that arrives before the first pick takes another out of use exactly when
      the other's plain name is no line of the text. */
  lemma OtherReportHides(text: string, u: string, t: string)
    requires Contains(text, u) && u != t && t in Usable(text, None)
    ensures t !in Usable(text, Down(text, Entry(None, []), u).arr) <==> t !in Lines(text)
  {
    RemoveFirstMembers(Lines(text), u, t);
  }

  /** Out of use with nothing to bring it back: no pick rewrites the text any more and no report about it counts. */
  ghost predicate Gone(s: System, t: string) {
    s.entry.arr.Some? && t !in s.entry.arr.value && t !in s.entry.removed && !Contains(s.text, t)
  }

  lemma GoneKept(maxFail: nat, s: System, a: Action, t: string)
    requires maxFail > 0 && Gone(s, t) && Exec(maxFail, s, a).Some?
    ensures Gone(Exec(maxFail, s, a).value, t)
  {
    if a.Deliver? {
      var r := s.wire[0];
      RemoveFirstMembers(s.entry.arr.value, r.target, t);
      RemoveFirstMembers(s.entry.removed, r.target, t);
      RemoveFirstMembers(Lines(s.text), r.target, t);
      if t in Lines(s.text) {
        LinesAreContained(s.text, t);
      }
    }
  }

  lemma RunMore(text: string, maxFail: nat, actions: seq<Action>, a: Action)
    requires maxFail > 0 && Run(text, maxFail, actions).Some?
    ensures Run(text, maxFail, actions + [a]) == Exec(maxFail, Run(text, maxFail, actions).value, a)
  {
    assert (actions + [a])[..|actions|] == actions;
  }

  /** Such a target stays out of use for good, whatever happens. */
  lemma {:induction false} OutForGood(text: string, maxFail: nat, actions: seq<Action>, more: seq<Action>, t: string)
    requires maxFail > 0 && Run(text, maxFail, actions).Some? && Gone(Run(text, maxFail, actions).value, t)
    requires Run(text, maxFail, actions + more).Some?
    ensures var s := Run(text, maxFail, actions + more).value; Gone(s, t) && t !in Usable(s.text, s.entry.arr)
    decreases |more|
  {
    if more == [] {
      assert actions + more == actions;
    } else {
      var most, a := more[..|more| - 1], more[|more| - 1];
      assert (actions + more)[..|actions + more| - 1] == actions + most;
      OutForGood(text, maxFail, actions, most, t);
      GoneKept(maxFail, Run(text, maxFail, actions + most).value, a, t);
    }
  }

  // Runs that go wrong.

  /** A target that fails k times in a row. */
  function Fails(u: string, k: nat): (actions: seq<Action>)
    ensures forall i :: 0 <= i < |actions| ==> actions[i] == Probe(Check(u, false))
  {
    if k == 0 then [] else Fails(u, k - 1) + [Probe(Check(u, false))]
  }

  function FailedChecks(u: string, k: nat): seq<Check> {
    if k == 0 then [] else FailedChecks(u, k - 1) + [Check(u, false)]
  }

  function AfterFails(s: System, maxFail: nat, u: string, k: nat): System {
    s.(counts := if k == 0 then map[] else map[u := k],
       wire := if k == maxFail then [Report(u, false)] else [],
       checks := FailedChecks(u, k))
  }

  predicate Untouched(s: System) {
    s.counts == map[] && s.wire == [] && s.checks == []
  }

  /** One more failure; the limit is met exactly once on the way. */
  lemma FailStep(s: System, maxFail: nat, u: string, k: nat)
    requires k < maxFail && Untouched(s)
    ensures Exec(maxFail, AfterFails(s, maxFail, u, k), Probe(Check(u, false)))
      == Some(AfterFails(s, maxFail, u, k + 1))
  {
    BelowMax(k, maxFail);
    var before := AfterFails(s, maxFail, u, k);
    assert Count(before.counts, u) == k;
    assert before.counts[u := k + 1] == map[u := k + 1];
    assert [] + ReportFor(k, Check(u, false), maxFail) == ReportFor(k, Check(u, false), maxFail);
  }

  lemma RunStep(text: string, maxFail: nat, actions: seq<Action>, s: System, a: Action, t: System)
    requires maxFail > 0 && Run(text, maxFail, actions) == Some(s) && Exec(maxFail, s, a) == Some(t)
    ensures Run(text, maxFail, actions + [a]) == Some(t)
  {
    RunMore(text, maxFail, actions, a);
  }

  /** The actions lead from each state to the next. */
  ghost predicate Leads(maxFail: nat, states: seq<System>, actions: seq<Action>)
    requires maxFail > 0
  {
    |states| == |actions| + 1
    && forall i :: 0 <= i < |actions| ==> Exec(maxFail, states[i], actions[i]) == Some(states[i + 1])
  }

  lemma JoinLast(first: seq<Action>, more: seq<Action>)
    ensures more == [] ==> first + more == first
    ensures more != [] ==> first + more == first + more[..|more| - 1] + [more[|more| - 1]]
  {
  }

  lemma LeadsMost(maxFail: nat, states: seq<System>, actions: seq<Action>)
    requires maxFail > 0 && actions != [] && Leads(maxFail, states, actions)
    ensures Leads(maxFail, states[..|actions|], actions[..|actions| - 1])
  {
  }

  lemma {:induction false} RunAlong(text: string, maxFail: nat, first: seq<Action>, more: seq<Action>,
                                    states: seq<System>)
    requires maxFail > 0 && Leads(maxFail, states, more) && Run(text, maxFail, first) == Some(states[0])
    ensures Run(text, maxFail, first + more) == Some(states[|more|])
    decreases |more|
  {
    JoinLast(first, more);
    if more != [] {
      var n := |more| - 1;
      LeadsMost(maxFail, states, more);
      RunAlong(text, maxFail, first, more[..n], states[..n + 1]);
      RunStep(text, maxFail, first + more[..n], states[n], more[n], states[n + 1]);
    }
  }

  lemma {:induction false} FailsLength(u: string, k: nat)
    ensures |Fails(u, k)| == k
  {
    if k > 0 {
      FailsLength(u, k - 1);
    }
  }

  lemma NoFails(s: System, maxFail: nat, u: string)
    requires maxFail > 0 && Untouched(s)
    ensures AfterFails(s, maxFail, u, 0) == s
  {
  }

  lemma FailsRun(text: string, maxFail: nat, first: seq<Action>, s: System, u: string)
    requires 0 < maxFail && Run(text, maxFail, first) == Some(s) && Untouched(s)
    ensures Run(text, maxFail, first + Fails(u, maxFail)) == Some(AfterFails(s, maxFail, u, maxFail))
  {
    var states := seq(maxFail + 1, i requires 0 <= i => AfterFails(s, maxFail, u, i));
    FailsLength(u, maxFail);
    NoFails(s, maxFail, u);
    forall i | 0 <= i < maxFail ensures Exec(maxFail, states[i], Fails(u, maxFail)[i]) == Some(states[i + 1]) {
      FailStep(s, maxFail, u, i);
    }
    RunAlong(text, maxFail, first, Fails(u, maxFail), states);
  }

  lemma {:induction false} FailedChecksRun(u: string, k: nat, t: string)
    ensures FailureRun(FailedChecks(u, k), t) == if t == u then k else 0
  {
    if k > 0 {
      FailedChecksRun(u, k - 1, t);
      FailureRunMore(FailedChecks(u, k - 1), Check(u, false), t);
    }
  }

  function DownRun(first: seq<Action>, u: string, maxFail: nat): seq<Action> {
    first + Fails(u, maxFail) + [Deliver]
  }

  /** The state in which the first report about a failing target has just arrived. */
  lemma DownRuns(text: string, maxFail: nat, first: seq<Action>, s: System, u: string)
    requires 0 < maxFail && Run(text, maxFail, first) == Some(s) && Untouched(s)
    ensures var r := Run(text, maxFail, DownRun(first, u, maxFail));
      && r.Some? && r.value.wire == [] && r.value.text == s.text && r.value.entry == Down(s.text, s.entry, u)
      && forall t :: FailureRun(r.value.checks, t) == if t == u then maxFail else 0
  {
    FailsRun(text, maxFail, first, s, u);
    RunMore(text, maxFail, first + Fails(u, maxFail), Deliver);
    forall t ensures FailureRun(FailedChecks(u, maxFail), t) == if t == u then maxFail else 0 {
      FailedChecksRun(u, maxFail, t);
    }
  }

  /** After a run the target is in use. */
  ghost predicate InUse(text: string, maxFail: nat, actions: seq<Action>, t: string)
    requires maxFail > 0 && Run(text, maxFail, actions).Some?
  {
    var s := Run(text, maxFail, actions).value;
    t in Usable(s.text, s.entry.arr)
  }

  /** The reports about a target that the text does not contain as written are lost. */
  lemma ReportLost(text: string, maxFail: nat, u: string)
    requires maxFail > 0 && u in Lines(HalfColons(text)) && !Contains(text, u)
    ensures !AsIntended(text, maxFail, DownRun([], u, maxFail), u) && InUse(text, maxFail, DownRun([], u, maxFail), u)
  {
    DownRuns(text, maxFail, [], Start(text), u);
  }

  /** A report about one target puts another, written with a full-width colon, out of use. */
  lemma TargetHidden(text: string, maxFail: nat, u: string, t: string)
    requires maxFail > 0 && Contains(text, u) && u != t && t in Lines(HalfColons(text)) && t !in Lines(text)
    ensures !AsIntended(text, maxFail, DownRun([], u, maxFail), t) && !InUse(text, maxFail, DownRun([], u, maxFail), t)
  {
    DownRuns(text, maxFail, [], Start(text), u);
    OtherReportHides(text, u, t);
  }

  lemma {:induction false} CopyStays(arr: seq<string>, i: nat, j: nat)
    requires i < j < |arr| && arr[i] == arr[j]
    ensures arr[i] in RemoveFirst(arr, arr[i])
    decreases |arr|
  {
    if arr[0] == arr[i] {
      assert arr[1..][j - 1] == arr[j];
    } else {
      CopyStays(arr[1..], i - 1, j - 1);
    }
  }

  /** A line that stands twice is still in use after its failures were reported. */
  lemma CopyInUse(text: string, maxFail: nat, i: nat, j: nat)
    requires maxFail > 0 && i < j < |Lines(HalfColons(text))|
    requires Lines(HalfColons(text))[i] == Lines(HalfColons(text))[j]
    ensures var t := Lines(HalfColons(text))[i]; var run := DownRun([Pick], t, maxFail);
      !AsIntended(text, maxFail, run, t) && InUse(text, maxFail, run, t)
  {
    var plain := HalfColons(text);
    var t := Lines(plain)[i];
    var s := Picked(Start(text));
    assert [Pick][..0] == [];
    assert Run(text, maxFail, [Pick]) == Some(s);
    DownRuns(text, maxFail, [Pick], s, t);
    LinesAreContained(plain, t);
    CopyStays(Lines(plain), i, j);
  }

  // The exact condition.

  /** Probes name targets as they are used. */
  predicate OwnProbes(text: string, actions: seq<Action>) {
    forall i :: 0 <= i < |actions| && actions[i].Probe? ==> actions[i].check.target in Lines(HalfColons(text))
  }

  lemma DownRunOwn(text: string, first: seq<Action>, u: string, maxFail: nat)
    requires (forall i :: 0 <= i < |first| ==> first[i].Pick?) && u in Lines(HalfColons(text))
    ensures OwnProbes(text, DownRun(first, u, maxFail))
  {
  }

  predicate PlainText(text: string) {
    HalfColons(text) == text && Distinct(Lines(text))
  }

  /** The plain form of a full-width line is a line as well only if it then stands twice. */
  lemma PlainTwice(text: string, line: string) returns (i: nat, j: nat)
    requires line in Lines(text) && HalfColons(line) != line && HalfColons(line) in Lines(text)
    ensures var plain := Lines(HalfColons(text)); i < j < |plain| && plain[i] == plain[j]
  {
    PlainLines(text);
    var lines, t := Lines(text), HalfColons(line);
    HalfColonsTwice(line);
    var a :| 0 <= a < |lines| && lines[a] == line;
    var b :| 0 <= b < |lines| && lines[b] == t;
    assert Plain(lines)[a] == t && Plain(lines)[b] == t;
    i, j := Min(a, b), Max(a, b);
  }

  /** With a full-width colon, some run that probes only targets in use goes wrong. */
  lemma FullWidthFails(text: string, maxFail: nat) returns (actions: seq<Action>, t: string)
    requires maxFail > 0 && HalfColons(text) != text
    ensures OwnProbes(text, actions) && !AsIntended(text, maxFail, actions, t)
  {
    var line := FullWidthLine(text);
    t := HalfColons(line);
    PlainMember(text, line);
    if t in Lines(text) {
      var i, j := PlainTwice(text, line);
      t := Lines(HalfColons(text))[i];
      CopyInUse(text, maxFail, i, j);
      DownRunOwn(text, [Pick], t, maxFail);
      actions := DownRun([Pick], t, maxFail);
    } else {
      var u := t;
      if Contains(text, t) {
        u := OtherLine(text, t);
      }
      if Contains(text, u) {
        TargetHidden(text, maxFail, u, t);
      } else {
        ReportLost(text, maxFail, u);
        t := u;
      }
      DownRunOwn(text, [], u, maxFail);
      actions := DownRun([], u, maxFail);
    }
  }

  lemma NotPlainFails(text: string, maxFail: nat) returns (actions: seq<Action>, t: string)
    requires maxFail > 0 && !PlainText(text)
    ensures OwnProbes(text, actions) && !AsIntended(text, maxFail, actions, t)
  {
    if HalfColons(text) != text {
      actions, t := FullWidthFails(text, maxFail);
    } else {
      var i, j :| 0 <= i < j < |Lines(text)| && Lines(text)[i] == Lines(text)[j];
      t := Lines(text)[i];
      CopyInUse(text, maxFail, i, j);
      DownRunOwn(text, [Pick], t, maxFail);
      actions := DownRun([Pick], t, maxFail);
    }
  }

  /** In every run every configured target is out of use exactly while it fails, if and only if the text has no
      full-width colon and no line twice; and runs that probe only targets in use make no difference. */
  lemma IntendedExactly(text: string, maxFail: nat)
    requires maxFail > 0
    ensures (forall actions: seq<Action>, t: string :: AsIntended(text, maxFail, actions, t)) <==> PlainText(text)
    ensures (forall actions: seq<Action>, t: string ::
               OwnProbes(text, actions) ==> AsIntended(text, maxFail, actions, t))
      <==> PlainText(text)
  {
    if PlainText(text) {
      forall actions: seq<Action>, t: string ensures AsIntended(text, maxFail, actions, t) {
        OutExactlyWhileFailing(text, maxFail, actions, t);
      }
    } else {
      var actions, t := NotPlainFails(text, maxFail);
    }
  }

  // Two texts.

  const FULL_A := "a\U{FF1A}1"

  lemma {:induction false} SplitFirst(a: string, rest: string)
    requires OneLine(a)
    ensures SplitLines(a + "\n" + rest) == [a] + SplitLines(rest) && SplitLines(a) == [a]
    decreases |a|
  {
    if a == "" {
      assert (a + "\n" + rest)[1..] == rest;
    } else {
      assert a[0] in a && forall c :: c in a[1..] ==> c in a;
      assert (a + "\n" + rest)[1..] == a[1..] + "\n" + rest;
      SplitFirst(a[1..], rest);
      assert [a[0]] + a[1..] == a;
    }
  }

  lemma {:induction false} UnixAlready(text: string)
    requires '\r' !in text
    ensures UnixLines(text) == text
    decreases |text|
  {
    if text != "" {
      assert text[0] in text && forall c :: c in text[1..] ==> c in text;
      UnixAlready(text[1..]);
    }
  }

  lemma PartChars(text: string, k: nat)
    requires At(text, k, "a:1")
    ensures k + 3 <= |text| && text[k] == 'a' && text[k + 1] == ':'
  {
    assert text[k..k + 3][0] == text[k] && text[k..k + 3][1] == text[k + 1];
  }

  lemma AtRest(rest: string, k: nat)
    requires At(FULL_A + rest, k, "a:1") && k >= 3
    ensures At(rest, k - 3, "a:1")
  {
    assert rest[k - 3..k] == (FULL_A + rest)[k..k + 3];
  }

  lemma NotInFullA(rest: string)
    requires !Contains(rest, "a:1") && (rest != "" ==> rest[0] == '\n')
    ensures !Contains(FULL_A + rest, "a:1")
  {
    forall k: nat ensures !At(FULL_A + rest, k, "a:1") {
      if At(FULL_A + rest, k, "a:1") {
        PartChars(FULL_A + rest, k);
        AtRest(rest, k);
      }
    }
  }

  /** A target written with a full-width colon is in use, but reports about it are lost. */
  lemma FullWidthMissed()
    ensures Usable(FULL_A, None) == ["a:1"] && !Contains(FULL_A, "a:1")
  {
    HalfColonsA();
    LinesOfOne("a:1");
    NotInFullA("");
    assert FULL_A + "" == FULL_A;
  }

  lemma LinesOfOne(a: string)
    requires LineLike(a)
    ensures Lines(a) == [a]
  {
    UnixAlready(a);
    SplitFirst(a, "");
    TrimNothing(a);
    assert [a][1..] == [] && TrimArr([]) == [];
  }

  lemma SecondHasNone(k: nat)
    ensures !At("\nb:2", k, "a:1")
  {
    if k <= 1 {
      assert "\nb:2"[k..k + 3][0] != 'a';
    }
  }

  predicate LineLike(s: string) {
    s != "" && Tidy(s) && OneLine(s) && '\r' !in s
  }

  lemma LinesOfTwo(a: string, b: string)
    requires LineLike(a) && LineLike(b)
    ensures Lines(a + "\n" + b) == [a, b]
  {
    UnixAlready(a + "\n" + b);
    SplitFirst(a, b);
    SplitFirst(b, "");
    TrimNothing(a);
    TrimNothing(b);
    assert [a, b] == [a] + [b] && [a, b][1..] == [b] && [b][1..] == [];
    assert TrimArr([b]) == [b];
  }

  /** The text of a full-width line and a plain one. */
  function Text(): string {
    FULL_A + "\n" + "b:2"
  }

  lemma PlainTwo(a: string, b: string)
    ensures Plain([a, b]) == [HalfColons(a), HalfColons(b)]
  {
  }

  lemma HalfColonsA()
    ensures HalfColons(FULL_A) == "a:1" && HalfColons("b:2") == "b:2" && HalfColons("a:1") == "a:1"
  {
    assert forall i :: 0 <= i < 3 ==> HalfColons(FULL_A)[i] == "a:1"[i];
  }

  lemma TextLines()
    ensures Lines(Text()) == [FULL_A, "b:2"] && Lines(HalfColons(Text())) == ["a:1", "b:2"]
  {
    LinesOfTwo(FULL_A, "b:2");
    PlainLines(Text());
    PlainTwo(FULL_A, "b:2");
    HalfColonsA();
  }

  lemma TextHasNot()
    ensures !Contains(Text(), "a:1")
  {
    forall k ensures !At("\nb:2", k, "a:1") {
      SecondHasNone(k);
    }
    NotInFullA("\nb:2");
    assert Text() == FULL_A + "\nb:2";
  }

  /** A target the text does not contain as written is gone once a report about another has arrived. */
  lemma HiddenIsGone(text: string, maxFail: nat, u: string, t: string)
    requires maxFail > 0 && Contains(text, u) && u != t && !Contains(text, t)
    ensures var r := Run(text, maxFail, DownRun([], u, maxFail));
      r.Some? && Gone(r.value, t) && FailureRun(r.value.checks, t) == 0
  {
    DownRuns(text, maxFail, [], Start(text), u);
    RemoveFirstMembers(Lines(text), u, t);
    if t in Lines(text) {
      LinesAreContained(text, t);
    }
  }

  /** A first report about b:2 takes a:1 out of use for good, although none of its checks has failed. */
  lemma FullWidthHidden(maxFail: nat, more: seq<Action>)
    requires maxFail > 0
    ensures var run := DownRun([], "b:2", maxFail);
      && "a:1" in Usable(Text(), None)
      && Run(Text(), maxFail, run).Some? && FailureRun(Run(Text(), maxFail, run).value.checks, "a:1") == 0
      && (Run(Text(), maxFail, run + more).Some? ==>
            var s := Run(Text(), maxFail, run + more).value; "a:1" !in Usable(s.text, s.entry.arr))
  {
    var run := DownRun([], "b:2", maxFail);
    TextLines();
    TextHasNot();
    LinesAreContained(Text(), "b:2");
    HiddenIsGone(Text(), maxFail, "b:2", "a:1");
    if Run(Text(), maxFail, run + more).Some? {
      OutForGood(Text(), maxFail, run, more, "a:1");
    }
  }
}
