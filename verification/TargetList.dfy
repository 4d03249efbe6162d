/** A tunnel's target text, the targets in rotation, and the picks from them. */
module TargetList {
  import opened Common

  // The configured lines.

  predicate At(text: string, k: nat, part: string) {
    k + |part| <= |text| && text[k..k + |part|] == part
  }

  /** strings.Contains. */
  ghost predicate Contains(text: string, part: string) {
    exists k :: At(text, k, part)
  }

  method ContainsPart(text: string, part: string) returns (found: bool)
    ensures found == Contains(text, part)
  {
    var k := 0;
    while k + |part| <= |text|
      invariant 0 <= k <= |text| + 1
      invariant forall i: nat :: i < k ==> !At(text, i, part)
    {
      if text[k..k + |part|] == part {
        assert At(text, k, part);
        return true;
      }
      k := k + 1;
    }
    return false;
  }

  lemma AtShifted(text: string, skip: nat, k: nat, part: string)
    requires skip <= |text| && At(text[skip..], k, part)
    ensures At(text, skip + k, part)
  {
    assert text[skip..][k..k + |part|] == text[skip + k..skip + k + |part|];
  }

  lemma AtInside(text: string, k: nat, whole: string, a: nat, b: nat)
    requires At(text, k, whole) && a <= b <= |whole|
    ensures At(text, k + a, whole[a..b])
  {
    forall i | 0 <= i < b - a ensures text[k + a..k + b][i] == whole[a..b][i] {
      assert text[k..k + |whole|][a + i] == whole[a + i];
    }
  }

  /** strings.ReplaceAll of "\r\n" by "\n". */
  function UnixLines(text: string): string {
    if |text| >= 2 && text[0] == '\r' && text[1] == '\n' then "\n" + UnixLines(text[2..])
    else if text == "" then ""
    else [text[0]] + UnixLines(text[1..])
  }

  /** strings.Split at "\n". */
  function SplitLines(text: string): (lines: seq<string>)
    ensures lines != []
  {
    if text == "" then [""]
    else if text[0] == '\n' then [""] + SplitLines(text[1..])
    else var rest := SplitLines(text[1..]); [[text[0]] + rest[0]] + rest[1..]
  }

  /** common.TrimArr. */
  function TrimArr(lines: seq<string>): seq<string> {
    if lines == [] then []
    else
      var trimmed := Trim(lines[0]);
      (if trimmed != "" then [trimmed] else []) + TrimArr(lines[1..])
  }

  function Lines(text: string): seq<string> {
    TrimArr(SplitLines(UnixLines(text)))
  }

  predicate OneLine(s: string) {
    '\n' !in s
  }

  lemma {:induction false} PrefixSurvives(x: string, text: string)
    requires OneLine(x) && x <= UnixLines(text)
    ensures x <= text
    decreases |text|
  {
    if x != "" {
      assert x[0] in x;
      assert x[0] == UnixLines(text)[0];
      forall c | c in x[1..] ensures c != '\n' {
        assert c in x;
      }
      PrefixSurvives(x[1..], text[1..]);
    }
  }

  lemma UnixLinesTail(text: string)
    requires UnixLines(text) != ""
    ensures var skip := if |text| >= 2 && text[0] == '\r' && text[1] == '\n' then 2 else 1;
      skip <= |text| && UnixLines(text)[1..] == UnixLines(text[skip..])
  {
  }

  /** A part of one line is a part of the text whichever line endings it uses. */
  lemma {:induction false} PartSurvives(x: string, text: string, k: nat) returns (j: nat)
    requires OneLine(x) && At(UnixLines(text), k, x)
    ensures At(text, j, x)
    decreases |text|
  {
    if k == 0 {
      PrefixSurvives(x, text);
      j := 0;
    } else {
      var skip := if |text| >= 2 && text[0] == '\r' && text[1] == '\n' then 2 else 1;
      AtTail(UnixLines(text), k, x);
      UnixLinesTail(text);
      j := PartSurvives(x, text[skip..], k - 1);
      AtShifted(text, skip, j, x);
      j := skip + j;
    }
  }

  lemma AtTail(text: string, k: nat, part: string)
    requires At(text, k, part) && k > 0
    ensures text != "" && At(text[1..], k - 1, part)
  {
    assert text[1..][k - 1..k - 1 + |part|] == text[k..k + |part|];
  }

  lemma {:induction false} FirstLineIsPrefix(text: string)
    ensures SplitLines(text)[0] <= text && OneLine(SplitLines(text)[0])
    decreases |text|
  {
    if text != "" && text[0] != '\n' {
      FirstLineIsPrefix(text[1..]);
    }
  }

  lemma {:induction false} LineIsPart(text: string, i: nat) returns (k: nat)
    requires i < |SplitLines(text)|
    ensures OneLine(SplitLines(text)[i]) && At(text, k, SplitLines(text)[i])
    decreases |text|
  {
    FirstLineIsPrefix(text);
    if i == 0 {
      k := 0;
    } else {
      var j := if text[0] == '\n' then i - 1 else i;
      assert SplitLines(text)[i] == SplitLines(text[1..])[j];
      k := LineIsPart(text[1..], j);
      AtShifted(text, 1, k, SplitLines(text)[i]);
      k := k + 1;
    }
  }

  lemma {:induction false} TrimIsPart(s: string) returns (a: nat, b: nat)
    ensures a <= b <= |s| && Trim(s) == s[a..b]
    decreases |s|
  {
    if s != "" && IsSpace(s[0]) {
      a, b := TrimIsPart(s[1..]);
      a, b := a + 1, b + 1;
    } else if s != "" && IsSpace(s[|s| - 1]) {
      a, b := TrimIsPart(s[..|s| - 1]);
    } else {
      a, b := 0, |s|;
    }
  }

  lemma {:induction false} TrimArrSource(lines: seq<string>, line: string) returns (i: nat)
    requires line in TrimArr(lines)
    ensures i < |lines| && Trim(lines[i]) == line
    decreases |lines|
  {
    if Trim(lines[0]) == line {
      i := 0;
    } else {
      i := TrimArrSource(lines[1..], line);
      i := i + 1;
    }
  }

  /** Every configured line passes the server's containment test. */
  lemma LinesAreContained(text: string, line: string)
    requires line in Lines(text)
    ensures Contains(text, line)
  {
    var unix := UnixLines(text);
    var i := TrimArrSource(SplitLines(unix), line);
    var whole := SplitLines(unix)[i];
    var k := LineIsPart(unix, i);
    var a, b := TrimIsPart(whole);
    AtInside(unix, k, whole, a, b);
    var j := PartSurvives(line, text, k + a);
  }

  // The rotation.

  /** RemoveArrVal: the first occurrence goes. */
  function RemoveFirst(arr: seq<string>, val: string): seq<string> {
    if arr == [] then [] else if arr[0] == val then arr[1..] else [arr[0]] + RemoveFirst(arr[1..], val)
  }

  /** From a list without repeats exactly the value goes. */
  lemma {:induction false} RemoveFirstExact(arr: seq<string>, val: string)
    requires Distinct(arr)
    ensures Distinct(RemoveFirst(arr, val))
    ensures forall x :: x in RemoveFirst(arr, val) <==> x in arr && x != val
  {
    if arr != [] {
      var rest := arr[1..];
      assert forall x :: x in arr <==> x == arr[0] || x in rest;
      if arr[0] != val {
        RemoveFirstExact(rest, val);
        var kept := [arr[0]] + RemoveFirst(rest, val);
        assert forall x :: x in kept <==> x == arr[0] || x in RemoveFirst(rest, val);
        assert forall i :: 1 <= i < |kept| ==> kept[i] in rest;
      }
    }
  }

  lemma {:induction false} RemoveFirstAt(arr: seq<string>, k: nat, val: string)
    requires k <= |arr| && val !in arr[..k] && (k < |arr| ==> arr[k] == val)
    ensures RemoveFirst(arr, val) == if k < |arr| then arr[..k] + arr[k + 1..] else arr
    decreases k
  {
    if k > 0 {
      assert arr[0] in arr[..k] && arr[1..][..k - 1] == arr[..k][1..];
      RemoveFirstAt(arr[1..], k - 1, val);
    }
  }

  method RemoveArrVal(arr: seq<string>, val: string) returns (r: seq<string>)
    ensures r == RemoveFirst(arr, val)
  {
    var k := 0;
    while k < |arr|
      invariant 0 <= k <= |arr| && val !in arr[..k]
    {
      if arr[k] == val {
        RemoveFirstAt(arr, k, val);
        return arr[..k] + arr[k + 1..];
      }
      k := k + 1;
    }
    RemoveFirstAt(arr, k, val);
    return arr;
  }

  lemma TrimArrFrom(lines: seq<string>, k: nat)
    requires k < |lines|
    ensures TrimArr(lines[k..]) ==
      (if Trim(lines[k]) != "" then [Trim(lines[k])] else []) + TrimArr(lines[k + 1..])
  {
    assert lines[k..][1..] == lines[k + 1..];
  }

  method Trimmed(lines: seq<string>) returns (r: seq<string>)
    ensures r == TrimArr(lines)
  {
    r := [];
    var k := 0;
    while k < |lines|
      invariant 0 <= k <= |lines|
      invariant TrimArr(lines) == r + TrimArr(lines[k..])
    {
      TrimArrFrom(lines, k);
      var trimmed := Trim(lines[k]);
      Regroup(r, if trimmed != "" then [trimmed] else [], TrimArr(lines[k + 1..]));
      if trimmed != "" {
        r := r + [trimmed];
      } else {
        assert r + [] == r;
      }
      k := k + 1;
    }
  }

  /** Full-width colons become plain ones. */
  function HalfColons(text: string): (r: string)
    ensures |r| == |text|
    ensures forall i :: 0 <= i < |text| ==> r[i] == if text[i] == '\U{FF1A}' then ':' else text[i]
  {
    if text == "" then "" else [if text[0] == '\U{FF1A}' then ':' else text[0]] + HalfColons(text[1..])
  }

  lemma HalfColonsTwice(text: string)
    ensures HalfColons(HalfColons(text)) == HalfColons(text)
  {
  }

  /** The targets GetRandomTarget picks from. */
  function Usable(text: string, arr: Option<seq<string>>): seq<string> {
    Rotation(HalfColons(text), arr)
  }

  /** The targets of a list, or all configured lines while it is not set up. */
  function Rotation(text: string, arr: Option<seq<string>>): seq<string> {
    if arr.None? then Lines(text) else arr.value
  }

  // Picks.

  function Step(nowIndex: nat, n: nat): nat {
    if nowIndex + 1 >= n then 0 else nowIndex + 1
  }

  function Around(first: nat, j: nat, n: nat): nat {
    if first + j < n then first + j else first + j - n
  }

  /** What k consecutive picks return from a list that stays as it is. */
  function Chosen(arr: seq<string>, nowIndex: nat, k: nat): (s: seq<string>)
    requires |arr| >= 2
    ensures |s| == k
    decreases k
  {
    if k == 0 then [] else [arr[Step(nowIndex, |arr|)]] + Chosen(arr, Step(nowIndex, |arr|), k - 1)
  }

  lemma {:induction false} ChosenAt(arr: seq<string>, nowIndex: nat, k: nat, j: nat)
    requires |arr| >= 2 && j < k <= |arr|
    ensures Chosen(arr, nowIndex, k)[j] == arr[Around(Step(nowIndex, |arr|), j, |arr|)]
    decreases j
  {
    if j > 0 {
      ChosenAt(arr, Step(nowIndex, |arr|), k - 1, j - 1);
      assert Chosen(arr, nowIndex, k)[j] == Chosen(arr, Step(nowIndex, |arr|), k - 1)[j - 1];
    }
  }

  /** n consecutive picks from n targets visit each once, wherever the index stood before. */
  lemma PicksVisitEachOnce(arr: seq<string>, nowIndex: nat)
    requires |arr| >= 2 && Distinct(arr)
    ensures EachOnce(arr, Chosen(arr, nowIndex, |arr|))
  {
    var n, first, chosen := |arr|, Step(nowIndex, |arr|), Chosen(arr, nowIndex, |arr|);
    forall i, j | 0 <= i < j < n ensures chosen[i] != chosen[j] {
      ChosenAt(arr, nowIndex, n, i);
      ChosenAt(arr, nowIndex, n, j);
    }
    forall m | 0 <= m < n ensures arr[m] in chosen {
      var j := if first <= m then m - first else m + n - first;
      ChosenAt(arr, nowIndex, n, j);
      assert chosen[j] == arr[m];
    }
  }

  class Target {
    var targetStr: string
    var targetArr: Option<seq<string>>
    var nowIndex: nat

    constructor (text: string)
      ensures targetStr == text && targetArr == None && nowIndex == 0
    {
      targetStr, targetArr, nowIndex := text, None, 0;
    }

    /** GetRandomTarget; None is the error that no target is left. */
    method GetRandomTarget() returns (r: Option<string>)
      modifies this
      ensures targetStr == if old(targetArr).None? then HalfColons(old(targetStr)) else old(targetStr)
      ensures Usable(targetStr, targetArr) == old(Usable(targetStr, targetArr))
      ensures r.None? <==> Usable(targetStr, targetArr) == []
      ensures r.Some? ==> r.value in Usable(targetStr, targetArr)
      ensures |Usable(targetStr, targetArr)| >= 2 ==>
        && nowIndex == Step(old(nowIndex), |Usable(targetStr, targetArr)|)
        && [r.value] == Chosen(Usable(targetStr, targetArr), old(nowIndex), 1)
    {
      if targetArr.None? {
        HalfColonsTwice(targetStr);
        targetStr := HalfColons(targetStr);
        var lines := Trimmed(SplitLines(UnixLines(targetStr)));
        if lines != [] {
          targetArr := Some(lines);
        }
      }
      var arr := if targetArr.None? then [] else targetArr.value;
      if |arr| == 1 {
        return Some(arr[0]);
      }
      if |arr| == 0 {
        return None;
      }
      if nowIndex >= |arr| - 1 {
        nowIndex := 0;
      } else {
        nowIndex := nowIndex + 1;
      }
      return Some(arr[nowIndex]);
    }
  }
}
