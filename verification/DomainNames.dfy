/** Host names as the domain index sees them: trimmed, lower-cased, split at dots and reversed. */
module DomainNames {
  import opened Common
  import opened DomainTrie

  /** ASCII case folding. */
  function LowerChar(c: char): char {
    if 'A' <= c <= 'Z' then (c as int + 32) as char else c
  }

  function Lower(s: string): (r: string)
    ensures |r| == |s| && forall i :: 0 <= i < |s| ==> r[i] == LowerChar(s[i])
  {
    if s == "" then "" else [LowerChar(s[0])] + Lower(s[1..])
  }

  /** strings.Split at dots; always at least one label. */
  function Split(s: string): (labels: seq<Label>)
    ensures labels != []
  {
    if s == "" then [""]
    else
      var rest := Split(s[1..]);
      if s[0] == '.' then [""] + rest else [[s[0]] + rest[0]] + rest[1..]
  }

  function Reverse(labels: seq<Label>): (r: seq<Label>)
    ensures |r| == |labels| && forall i :: 0 <= i < |r| ==> r[i] == labels[|labels| - 1 - i]
  {
    if labels == [] then [] else Reverse(labels[1..]) + [labels[0]]
  }

  /** splitDomain. */
  function PathOf(domain: string): Path {
    var d := Lower(Trim(domain));
    if d == "" then [] else Reverse(Split(d))
  }

  /** splitDomain with its reversal in place. */
  method SplitDomain(domain: string) returns (parts: Path)
    ensures parts == PathOf(domain)
  {
    var d := Lower(Trim(domain));
    if d == "" {
      return [];
    }
    var labels := Split(d);
    var a := new string[|labels|](i requires 0 <= i < |labels| => labels[i]);
    assert a[..] == labels;
    ReverseInPlace(a);
    parts := a[..];
  }

  method ReverseInPlace(a: array<Label>)
    modifies a
    ensures a[..] == Reverse(old(a[..]))
  {
    ghost var n := a.Length;
    var i, j := 0, a.Length - 1;
    while i < j
      invariant 0 <= i <= j + 1 && i + j == n - 1
      invariant forall k :: 0 <= k < i || j < k < n ==> a[k] == old(a[n - 1 - k])
      invariant forall k :: i <= k <= j ==> a[k] == old(a[k])
    {
      a[i], a[j] := a[j], a[i];
      i, j := i + 1, j - 1;
    }
    ghost var was := old(a[..]);
    forall k | 0 <= k < n ensures a[..][k] == Reverse(was)[k] {
    }
  }

  function TrimPrefix(s: string, prefix: string): string {
    if prefix <= s then s[|prefix|..] else s
  }

  /** normalizeDomain: a leading "*." and then a leading "*" are dropped. */
  function Normalize(domain: string): string {
    TrimPrefix(TrimPrefix(Lower(Trim(domain)), "*."), "*")
  }

  /** The path DomainIndex stores a pattern under. */
  function IndexPath(pattern: string): Path {
    PathOf(Normalize(pattern))
  }

  /** The path DomainIndex looks a host up by. */
  function QueryPath(host: string): Path {
    PathOf(Lower(Trim(host)))
  }

  predicate HasSuffix(s: string, suffix: string) {
    |suffix| <= |s| && s[|s| - |suffix|..] == suffix
  }

  /** The comparison GetInfoByHost makes, case-sensitively, on the stored pattern. */
  predicate Matches(pattern: string, name: string) {
    pattern == name || (pattern != "" && pattern[0] == '*' && HasSuffix(name, pattern[1..]))
  }

  /** Exact names, "*", "*.*", and "*." followed by something that starts with neither a star nor white space. */
  predicate Regular(q: string) {
    || q == "" || q[0] != '*'
    || q == "*" || q == "*.*"
    || (|q| >= 2 && q[1] == '.' && (|q| == 2 || (q[2] != '*' && !IsSpace(q[2]))))
  }

  /** Patterns for which the index never misses a match. */
  predicate Indexable(p: string) {
    Regular(Trim(p))
  }

  // Trimming and case folding.

  lemma TrimTwice(s: string)
    ensures Trim(Trim(s)) == Trim(s) && Tidy(Trim(s))
  {
    TrimIsTidy(s);
    TrimNothing(Trim(s));
  }

  /** What starts and ends without white space survives trimming whole. */
  lemma {:induction false} TrimKeeps(y: string, r: string, z: string) returns (y': string)
    requires r != "" && Tidy(r) && AllSpace(z)
    ensures Trim(y + r + z) == y' + r && (y != "" && !IsSpace(y[0]) ==> y' == y)
    decreases |y| + |z|
  {
    var s := y + r + z;
    if IsSpace(s[0]) {
      assert s[1..] == y[1..] + r + z;
      y' := TrimKeeps(y[1..], r, z);
    } else if IsSpace(s[|s| - 1]) {
      assert z != "";
      assert s[..|s| - 1] == y + r + z[..|z| - 1];
      y' := TrimKeeps(y, r, z[..|z| - 1]);
    } else {
      y' := y;
    }
  }

  /** With no white space at the front, trimming only takes off the end. */
  lemma {:induction false} TrimBack(s: string) returns (z: string)
    requires s != "" && !IsSpace(s[0])
    ensures s == Trim(s) + z && AllSpace(z) && Trim(s) != "" && Trim(s)[0] == s[0] && Tidy(Trim(s))
    decreases |s|
  {
    if IsSpace(s[|s| - 1]) {
      z := TrimBack(s[..|s| - 1]);
      z := z + [s[|s| - 1]];
    } else {
      z := "";
    }
  }

  /** With no white space at the end, trimming only takes off the front. */
  lemma {:induction false} TrimFront(s: string) returns (k: nat)
    requires s != "" && !IsSpace(s[|s| - 1])
    ensures k < |s| && Trim(s) == s[k..] && AllSpace(s[..k]) && !IsSpace(s[k])
    decreases |s|
  {
    if IsSpace(s[0]) {
      k := TrimFront(s[1..]);
      assert s[1..][..k] == s[1..k + 1] && s[..k + 1] == [s[0]] + s[1..k + 1];
      k := k + 1;
    } else {
      k := 0;
    }
  }

  lemma LowerSpace(c: char)
    ensures IsSpace(LowerChar(c)) <==> IsSpace(c)
  {
  }

  lemma LowerTwice(s: string)
    ensures Lower(Lower(s)) == Lower(s)
  {
    assert forall i :: 0 <= i < |s| ==> Lower(Lower(s))[i] == Lower(s)[i];
  }

  lemma {:induction false} LowerAppend(a: string, b: string)
    ensures Lower(a + b) == Lower(a) + Lower(b)
  {
    if a == "" {
      assert a + b == b;
    } else {
      assert (a + b)[1..] == a[1..] + b;
      LowerAppend(a[1..], b);
    }
  }

  lemma LowerCut(s: string, k: nat)
    requires k <= |s|
    ensures Lower(s[k..]) == Lower(s)[k..] && Lower(s[..k]) == Lower(s)[..k]
  {
    assert s == s[..k] + s[k..];
    LowerAppend(s[..k], s[k..]);
  }

  lemma LowerKeepsPunctuation(c: char)
    ensures LowerChar(c) == '*' <==> c == '*'
    ensures LowerChar(c) == '.' <==> c == '.'
  {
  }

  /** The labels of a domain from the top-level one down. */
  function Labels(d: string): Path {
    if d == "" then [] else Reverse(Split(Lower(d)))
  }

  /** Trimming and case folding commute. */
  lemma {:induction false} TrimLower(s: string)
    ensures Trim(Lower(s)) == Lower(Trim(s))
    decreases |s|
  {
    if s != "" {
      LowerSpace(s[0]);
      LowerSpace(s[|s| - 1]);
      LowerCut(s, 1);
      LowerCut(s, |s| - 1);
      if IsSpace(s[0]) {
        TrimLower(s[1..]);
      } else if IsSpace(s[|s| - 1]) {
        TrimLower(s[..|s| - 1]);
      }
    }
  }

  lemma PathOfLower(s: string)
    ensures PathOf(Lower(s)) == Labels(Trim(s))
  {
    TrimLower(s);
    LowerTwice(Trim(s));
  }

  lemma QueryPathIs(s: string)
    ensures QueryPath(s) == Labels(Trim(s))
  {
    PathOfLower(Trim(s));
    TrimTwice(s);
  }

  /** What is left of a pattern after normalisation, in the pattern's own letters. */
  function Stripped(p: string): string {
    TrimPrefix(TrimPrefix(p, "*."), "*")
  }

  predicate Punctuation(s: string) {
    forall i :: 0 <= i < |s| ==> s[i] == '*' || s[i] == '.'
  }

  /** Dropping a prefix of stars and dots commutes with case folding. */
  lemma TrimPrefixLower(s: string, prefix: string)
    requires Punctuation(prefix)
    ensures TrimPrefix(Lower(s), prefix) == Lower(TrimPrefix(s, prefix))
  {
    if |prefix| <= |s| {
      forall i | 0 <= i < |prefix| ensures Lower(s)[i] == prefix[i] <==> s[i] == prefix[i] {
        LowerKeepsPunctuation(s[i]);
      }
      assert prefix <= Lower(s) <==> prefix <= s;
      LowerCut(s, |prefix|);
    }
  }

  /** normalizeDomain trims, lower-cases and drops one "*." and one "*". */
  lemma NormalizeIs(p: string)
    ensures Normalize(p) == Lower(Stripped(Trim(p)))
  {
    TrimPrefixLower(Trim(p), "*.");
    TrimPrefixLower(TrimPrefix(Trim(p), "*."), "*");
  }

  lemma IndexPathIs(p: string)
    ensures IndexPath(p) == Labels(Trim(Stripped(Trim(p))))
  {
    NormalizeIs(p);
    PathOfLower(Stripped(Trim(p)));
  }

  // Splitting.

  lemma {:induction false} SplitAtDot(a: string, b: string)
    ensures Split(a + "." + b) == Split(a) + Split(b)
  {
    var s := a + "." + b;
    if a == "" {
      assert s[1..] == b;
    } else {
      assert s[1..] == a[1..] + "." + b;
      SplitAtDot(a[1..], b);
    }
  }

  lemma ReverseAppend(a: seq<Label>, b: seq<Label>)
    ensures Reverse(a + b) == Reverse(b) + Reverse(a)
  {
    assert forall i :: 0 <= i < |a| + |b| ==> Reverse(a + b)[i] == (Reverse(b) + Reverse(a))[i];
  }

  /** A name that ends in a dot and a domain has the domain's labels as a prefix. */
  lemma SubdomainLabels(y: string, rest: string)
    requires rest != ""
    ensures Labels(y + "." + rest) == Labels(rest) + Reverse(Split(Lower(y)))
  {
    LowerAppend(y + ".", rest);
    LowerAppend(y, ".");
    assert Lower(".") == ".";
    SplitAtDot(Lower(y), Lower(rest));
    ReverseAppend(Split(Lower(y)), Split(Lower(rest)));
  }

  // Regular patterns are found.

  lemma DottedFinds(q: string, name: string)
    requires Tidy(q) && |q| >= 3 && q[0] == '*' && q[1] == '.' && q[2] != '*' && !IsSpace(q[2]) && Matches(q, name)
    ensures Labels(Trim(Stripped(q))) <= Labels(name)
  {
    assert TrimPrefix(q, "*.") == q[2..];
    assert Stripped(q) == q[2..];
    assert q[|q| - 1] == q[2..][|q| - 3];
    TrimNothing(q[2..]);
    var y := WildcardSplit(q, name);
    SubdomainLabels(y, q[2..]);
  }

  /** A regular pattern is found by every name without outer white space that it matches. */
  lemma RegularFinds(q: string, name: string)
    requires Tidy(q) && Tidy(name) && Regular(q) && Matches(q, name)
    ensures IndexPath(q) <= QueryPath(name)
  {
    IndexPathIs(q);
    QueryPathIs(name);
    TrimNothing(q);
    TrimNothing(name);
    if q == "" || q[0] != '*' {
      assert Stripped(q) == q;
    } else if |q| >= 3 && q != "*.*" {
      DottedFinds(q, name);
    } else {
      assert Stripped(q) == "";
    }
  }

  /** A name matching a dotted wildcard ends in a dot and the rest of the pattern. */
  lemma WildcardSplit(p: string, name: string) returns (y: string)
    requires |p| >= 2 && p[0] == '*' && p[1] == '.' && Matches(p, name)
    ensures name == y + "." + p[2..]
  {
    var cut := if p == name then 1 else |name| - |p| + 1;
    y := name[..cut];
    assert name[cut..] == p[1..];
    assert p[1..] == "." + p[2..];
    assert name == y + (("." + p[2..]));
  }

  lemma NoDoubleStar(p: string)
    requires Indexable(p) && |p| >= 2 && p[0] == '*'
    ensures p[1] != '*'
  {
    StarStays(p);
    assert |Trim(p)| >= 2 ==> Trim(p)[1] == p[1];
  }

  /** A pattern beyond its star, without and with the white space at its end. */
  lemma StarRest(p: string) returns (r: string, z: string)
    requires p != "" && p[0] == '*' && |Trim(p)| >= 2 && !IsSpace(Trim(p)[1])
    ensures Trim(p) == "*" + r && p[1..] == r + z && r != "" && Tidy(r) && AllSpace(z)
  {
    z := TrimBack(p);
    r := Trim(p)[1..];
    assert Trim(p)[|Trim(p)| - 1] == r[|r| - 1];
    assert p[1..] == r + z;
  }

  lemma SuffixParts(name: string, r: string, z: string) returns (y: string)
    requires HasSuffix(name, r + z)
    ensures name == y + r + z
  {
    y := name[..|name| - |r + z|];
    assert name == y + (r + z);
  }

  lemma WildcardMatches(y: string, r: string)
    ensures Matches("*" + r, y + r)
  {
    assert (y + r)[|y|..] == r && ("*" + r)[1..] == r;
  }

  /** Trimming pattern and name keeps a wildcard match, unless the pattern is a star alone. */
  lemma TrimKeepsMatch(p: string, name: string)
    requires p != "" && p[0] == '*' && HasSuffix(name, p[1..]) && |Trim(p)| >= 2 && !IsSpace(Trim(p)[1])
    ensures Matches(Trim(p), Trim(name))
  {
    var r, z := StarRest(p);
    var y := SuffixParts(name, r, z);
    var y' := TrimKeeps(y, r, z);
    WildcardMatches(y', r);
  }

  /** An indexable pattern is found by every name it matches. */
  lemma IndexableFinds(p: string, name: string)
    requires Indexable(p) && Matches(p, name)
    ensures IndexPath(p) <= QueryPath(name)
  {
    TrimTwice(p);
    TrimTwice(name);
    SamePaths(p);
    SamePaths(name);
    if p == name {
      RegularFinds(Trim(p), Trim(p));
    } else if |Trim(p)| >= 2 {
      StarStays(p);
      TrimKeepsMatch(p, name);
      RegularFinds(Trim(p), Trim(name));
    } else {
      StarStays(p);
      IndexPathIs(p);
      assert Stripped("*") == "";
    }
  }

  /** A leading star is not trimmed away. */
  lemma StarStays(p: string)
    requires p != "" && p[0] == '*'
    ensures Trim(p) != "" && Trim(p)[0] == '*' && Trim(p) <= p
    ensures |p| >= 2 && !IsSpace(p[1]) ==> |Trim(p)| >= 2
  {
    var z := TrimBack(p);
    assert |p| >= 2 && |Trim(p)| == 1 ==> p[1] == z[0];
  }

  // Other patterns are missed.

  predicate NoDot(s: string) {
    forall i :: 0 <= i < |s| ==> s[i] != '.'
  }

  /** A prefix without dots only lengthens the first label. */
  lemma {:induction false} SplitPrefix(w: string, d: string)
    requires NoDot(w)
    ensures Split(w + d) == [w + Split(d)[0]] + Split(d)[1..]
  {
    if w == "" {
      assert w + d == d && w + Split(d)[0] == Split(d)[0];
    } else {
      assert (w + d)[1..] == w[1..] + d;
      SplitPrefix(w[1..], d);
      assert [w[0]] + (w[1..] + Split(d)[0]) == w + Split(d)[0];
    }
  }

  /** Putting something in front of a name changes its deepest label, so the paths differ there. */
  lemma PrefixBreaksPath(w: string, d: string, tail: Path)
    requires w != "" && NoDot(w)
    ensures !(Reverse(Split(d)) <= Reverse(Split(w + d)) + tail)
  {
    SplitPrefix(w, d);
    var labels, longer := Split(d), Split(w + d);
    var n := |labels|;
    assert |w + labels[0]| > |labels[0]|;
    assert Reverse(labels)[n - 1] == labels[0];
    assert (Reverse(longer) + tail)[n - 1] == w + labels[0];
  }

  /** The name made by putting a character where the star was. */
  function Filled(c: char, q: string): string
    requires q != ""
  {
    [c] + q[1..]
  }

  /** A character that survives trimming and case folding and is no dot. */
  predicate Filler(c: char) {
    !IsSpace(c) && c != '.' && LowerChar(c) == c
  }

  lemma SpaceNoDot(w: string)
    requires AllSpace(w)
    ensures NoDot(w) && NoDot(Lower(w))
  {
    forall i | 0 <= i < |w| ensures Lower(w)[i] != '.' {
      LowerKeepsPunctuation(w[i]);
    }
  }

  lemma LowerThree(a: string, b: string, c: string)
    ensures Lower(a + b + c) == Lower(a) + Lower(b) + Lower(c)
  {
    LowerAppend(a + b, c);
    LowerAppend(a, b);
  }

  lemma NoDotAppend(a: string, b: string)
    requires NoDot(a) && NoDot(b)
    ensures NoDot(a + b)
  {
  }

  /** The paths differ when the name has something in front of what the pattern is stored under. */
  lemma FrontMisses(front: string, e: string, tail: Path)
    requires e != "" && !IsSpace(e[|e| - 1]) && NoDot(Lower(front)) && (front != "" || IsSpace(e[0]))
    ensures !(Labels(Trim(e)) <= Reverse(Split(Lower(front + e))) + tail)
  {
    var k := TrimFront(e);
    var gap, d := e[..k], e[k..];
    SpaceNoDot(gap);
    NoDotAppend(Lower(front), Lower(gap));
    assert front + e == front + gap + d;
    LowerThree(front, gap, d);
    PrefixBreaksPath(Lower(front) + Lower(gap), Lower(d), tail);
  }

  /** The query for the filled name. */
  lemma FilledQuery(c: char, q: string)
    requires Tidy(q) && |q| >= 2 && Filler(c)
    ensures Tidy(Filled(c, q)) && QueryPath(Filled(c, q)) == Reverse(Split(Lower(Filled(c, q))))
  {
    QueryPathIs(Filled(c, q));
    TrimNothing(Filled(c, q));
  }

  /** "*name" matches inside a label, where the tree cannot look. */
  lemma BareStarMisses(c: char, q: string)
    requires Tidy(q) && |q| >= 2 && q[0] == '*' && q[1] != '.' && Filler(c)
    ensures !(IndexPath(q) <= QueryPath(Filled(c, q)))
  {
    IndexPathIs(q);
    TrimNothing(q);
    FilledQuery(c, q);
    assert Stripped(q) == q[1..];
    var tail: Path := [];
    FrontMisses([c], q[1..], tail);
    assert Reverse(Split(Lower(Filled(c, q)))) + tail == Reverse(Split(Lower(Filled(c, q))));
  }

  /** "*.*name" loses its second star, and "*. name" its white space, to normalisation. */
  lemma DottedMisses(c: char, q: string, front: string, e: string)
    requires Tidy(q) && |q| >= 3 && q[0] == '*' && q[1] == '.' && q[2..] == front + e && Stripped(q) == e && e != ""
    requires Filler(c) && NoDot(Lower(front)) && (front != "" || IsSpace(e[0]))
    ensures !(IndexPath(q) <= QueryPath(Filled(c, q)))
  {
    IndexPathIs(q);
    TrimNothing(q);
    FilledQuery(c, q);
    assert q[|q| - 1] == e[|e| - 1] by {
      assert q[|q| - 1] == q[2..][|q| - 3];
    }
    assert Filled(c, q) == [c] + "." + (front + e);
    SubdomainLabels([c], front + e);
    FrontMisses(front, e, Reverse(Split(Lower([c]))));
  }

  /** A tidy pattern that is not regular is missed by the name with the star filled in. */
  lemma IrregularMisses(c: char, q: string)
    requires Tidy(q) && !Regular(q) && Filler(c)
    ensures !(IndexPath(q) <= QueryPath(Filled(c, q)))
  {
    if q[1] != '.' {
      BareStarMisses(c, q);
    } else {
      assert TrimPrefix(q, "*.") == q[2..];
      if q[2] == '*' {
        assert Stripped(q) == q[3..] && q[2..] == "*" + q[3..];
        assert Lower("*") == "*";
        DottedMisses(c, q, "*", q[3..]);
      } else {
        assert Stripped(q) == q[2..] && q[2..] == "" + q[2..];
        DottedMisses(c, q, "", q[2..]);
      }
    }
  }

  /** A name that a pattern which is not indexable matches and the index misses. */
  function Missed(p: string): string {
    if p != "" && p[0] == '*' then Filled('x', p) else p
  }

  lemma NotIndexableMisses(p: string)
    requires !Indexable(p)
    ensures Matches(p, Missed(p)) && !(IndexPath(p) <= QueryPath(Missed(p)))
  {
    TrimTwice(p);
    SamePaths(p);
    if p[0] == '*' {
      StarStays(p);
      MissedTrims(p);
      QueryPathIs(Missed(p));
      QueryPathIs(Filled('x', Trim(p)));
      TrimTwice(Missed(p));
      IrregularMisses('x', Trim(p));
      assert Filled('x', p)[1..] == p[1..];
    } else {
      assert Filled('*', Trim(p)) == Trim(p);
      IrregularMisses('*', Trim(p));
    }
  }

  /** Outer white space does not change a path. */
  lemma SamePaths(p: string)
    ensures IndexPath(p) == IndexPath(Trim(p)) && QueryPath(p) == QueryPath(Trim(p))
  {
    TrimTwice(p);
    IndexPathIs(p);
    IndexPathIs(Trim(p));
    QueryPathIs(p);
    QueryPathIs(Trim(p));
  }

  lemma {:induction false} TrimShort(f: string, z: string)
    requires f != "" && Tidy(f) && AllSpace(z)
    ensures Trim(f + z) == f
    decreases |z|
  {
    var s := f + z;
    if z == "" {
      assert s == f;
    } else {
      assert s[|s| - 1] == z[|z| - 1];
      assert s[..|s| - 1] == f + z[..|z| - 1];
      TrimShort(f, z[..|z| - 1]);
    }
  }

  lemma MissedTrims(p: string)
    requires p != "" && p[0] == '*' && |Trim(p)| >= 2
    ensures Trim(Filled('x', p)) == Filled('x', Trim(p))
  {
    var z := TrimBack(p);
    var q := Trim(p);
    var f := Filled('x', q);
    assert f[|f| - 1] == q[|q| - 1];
    assert p[1..] == q[1..] + z;
    assert Filled('x', p) == f + z;
    TrimShort(f, z);
  }

  /** The index finds every name a pattern matches if and only if the pattern is indexable. */
  lemma IndexableExact(p: string)
    ensures Indexable(p) <==> forall name: string :: Matches(p, name) ==> IndexPath(p) <= QueryPath(name)
  {
    if Indexable(p) {
      forall name: string | Matches(p, name) ensures IndexPath(p) <= QueryPath(name) {
        IndexableFinds(p, name);
      }
    } else {
      NotIndexableMisses(p);
    }
  }
}
