/** Shared value types, sequences without repeats, white space, division and the copying of bytes. */
module Common {

  datatype Option<+T> = None | Some(value: T)

  type Byte = x: int | 0 <= x < 256

  function Min(a: int, b: int): int {
    if a <= b then a else b
  }

  function Max(a: int, b: int): int {
    if a >= b then a else b
  }

  predicate Distinct<T(==)>(list: seq<T>) {
    forall i, j :: 0 <= i < j < |list| ==> list[i] != list[j]
  }

  /** Every member exactly once. */
  predicate EachOnce<T(==)>(list: seq<T>, picks: seq<T>) {
    && |picks| == |list|
    && (forall i, j :: 0 <= i < j < |picks| ==> picks[i] != picks[j])
    && (forall m :: 0 <= m < |list| ==> list[m] in picks)
  }

  /** A number splits uniquely into a quotient and a remainder. */
  lemma DivModUnique(word: nat, base: nat, high: nat, low: nat)
    requires base > 0 && low < base
    requires word == high * base + low
    ensures word / base == high && word % base == low
  {
    var q, r := word / base, word % base;
    assert (q - high) * base == low - r;
    MultipleGrows(q - high, base);
  }

  /** A nonzero multiple of a number is at least as far from zero as the number. */
  lemma MultipleGrows(k: int, base: int)
    requires base > 0
    ensures k >= 1 ==> k * base >= base
    ensures k <= -1 ==> k * base <= 0 - base
  {
    assert k * base - base == (k - 1) * base;
    assert k * base + base == (k + 1) * base;
  }

  /** The white space of ASCII: space, and tab to carriage return. */
  predicate IsSpace(c: char) {
    c == ' ' || '\t' <= c <= '\r'
  }

  predicate AllSpace(s: string) {
    forall i :: 0 <= i < |s| ==> IsSpace(s[i])
  }

  /** No white space at either end. */
  predicate Tidy(s: string) {
    s != "" ==> !IsSpace(s[0]) && !IsSpace(s[|s| - 1])
  }

  /** strings.TrimSpace. */
  function Trim(s: string): string {
    if s != "" && IsSpace(s[0]) then Trim(s[1..])
    else if s != "" && IsSpace(s[|s| - 1]) then Trim(s[..|s| - 1])
    else s
  }

  lemma {:induction false} TrimIsTidy(s: string)
    ensures Tidy(Trim(s))
    decreases |s|
  {
    if s != "" && IsSpace(s[0]) {
      TrimIsTidy(s[1..]);
    } else if s != "" && IsSpace(s[|s| - 1]) {
      TrimIsTidy(s[..|s| - 1]);
    }
  }

  lemma TrimNothing(s: string)
    requires Tidy(s)
    ensures Trim(s) == s
  {
  }

  lemma Regroup<T>(a: seq<T>, b: seq<T>, c: seq<T>)
    ensures a + (b + c) == (a + b) + c
  {
  }

  /** Go's copy into a slice that runs to the end of the array. */
  method CopyInto(a: array<Byte>, at: nat, p: seq<Byte>) returns (n: nat)
    requires at <= a.Length
    modifies a
    ensures n == Min(|p|, a.Length - at)
    ensures forall k :: 0 <= k < a.Length ==> a[k] == if at <= k < at + n then p[k - at] else old(a[k])
  {
    n := Min(|p|, a.Length - at);
    var i := 0;
    while i < n
      invariant 0 <= i <= n
      invariant forall k :: 0 <= k < a.Length ==> a[k] == if at <= k < at + i then p[k - at] else old(a[k])
    {
      a[at + i] := p[i];
      i := i + 1;
    }
  }
}
