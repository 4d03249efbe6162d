/** When the host chosen for a request depends on the order in which the index yields its candidates. */
module RouteOrder {
  import opened Common
  import opened DomainNames
  import opened HostRouting

  predicate SameMembers(a: seq<int>, b: seq<int>) {
    (forall id :: id in a ==> id in b) && (forall id :: id in b ==> id in a)
  }

  predicate Usable(hosts: map<int, Host>, id: int, name: string, path: string, scheme: string) {
    id in hosts && Accepts(hosts[id], name, path, scheme)
  }

  /** v gives way to w in either order. */
  predicate Yields(v: Host, w: Host, name: string) {
    Replaces(w, v, name) && !Replaces(v, w, name)
  }

  /** w is usable and every other usable candidate gives way to it. */
  predicate Dominant(hosts: map<int, Host>, ids: seq<int>, w: int, name: string, path: string, scheme: string) {
    && w in ids && Usable(hosts, w, name, path, scheme)
    && forall v :: v in ids && v != w && Usable(hosts, v, name, path, scheme) ==> Yields(hosts[v], hosts[w], name)
  }

  lemma {:induction false} ChosenIsUsable(hosts: map<int, Host>, ids: seq<int>, name: string, path: string,
                                          scheme: string)
    requires forall id :: id in hosts ==> hosts[id].id == id
    ensures var r := Chosen(hosts, ids, name, path, scheme);
      && (r.Some? ==>
            r.value.id in ids && Usable(hosts, r.value.id, name, path, scheme) && hosts[r.value.id] == r.value)
      && (r.None? <==> NoneAccepted(hosts, ids, name, path, scheme))
    decreases |ids|
  {
    if ids != [] {
      var most, last := ids[..|ids| - 1], ids[|ids| - 1];
      ChosenIsUsable(hosts, most, name, path, scheme);
      assert ids == most + [last];
    }
  }

  lemma {:induction false} DominantWins(hosts: map<int, Host>, ids: seq<int>, w: int, name: string, path: string,
                                        scheme: string)
    requires forall id :: id in hosts ==> hosts[id].id == id
    requires Distinct(ids) && Dominant(hosts, ids, w, name, path, scheme)
    ensures Chosen(hosts, ids, name, path, scheme) == Some(hosts[w])
    decreases |ids|
  {
    var most, last := ids[..|ids| - 1], ids[|ids| - 1];
    assert ids == most + [last];
    if last == w {
      ChosenIsUsable(hosts, most, name, path, scheme);
    } else {
      DominantWins(hosts, most, w, name, path, scheme);
    }
  }

  /** A host that has lost does not come back. */
  lemma {:induction false} NeverBack(hosts: map<int, Host>, first: seq<int>, rest: seq<int>, w: int,
                                     name: string, path: string, scheme: string)
    requires forall id :: id in hosts ==> hosts[id].id == id
    requires w in hosts && w !in rest && Chosen(hosts, first, name, path, scheme) != Some(hosts[w])
    ensures Chosen(hosts, first + rest, name, path, scheme) != Some(hosts[w])
    decreases |rest|
  {
    if rest == [] {
      assert first + rest == first;
    } else {
      var most, last := rest[..|rest| - 1], rest[|rest| - 1];
      NeverBack(hosts, first, most, w, name, path, scheme);
      assert first + rest == (first + most) + [last];
      ChosenMore(hosts, first + most, last, name, path, scheme);
    }
  }

  function Others(ids: seq<int>, a: int, b: int): seq<int> {
    if ids == [] then []
    else
      var last := ids[|ids| - 1];
      Others(ids[..|ids| - 1], a, b) + if last == a || last == b then [] else [last]
  }

  lemma {:induction false} OthersMember(ids: seq<int>, a: int, b: int, id: int)
    ensures id in Others(ids, a, b) <==> id in ids && id != a && id != b
    decreases |ids|
  {
    if ids != [] {
      var most, last := ids[..|ids| - 1], ids[|ids| - 1];
      OthersMember(most, a, b, id);
      assert ids == most + [last];
    }
  }

  lemma {:induction false} OthersDistinct(ids: seq<int>, a: int, b: int)
    requires Distinct(ids)
    ensures Distinct(Others(ids, a, b))
    decreases |ids|
  {
    if ids != [] {
      var most, last := ids[..|ids| - 1], ids[|ids| - 1];
      OthersDistinct(most, a, b);
      OthersMember(most, a, b, last);
      NewLast(Others(most, a, b), last);
    }
  }

  lemma NewLast(ids: seq<int>, last: int)
    requires Distinct(ids) && last !in ids
    ensures Distinct(ids + [last])
  {
  }

  lemma OthersExact(ids: seq<int>, a: int, b: int)
    requires Distinct(ids)
    ensures Distinct(Others(ids, a, b))
    ensures forall id :: id in Others(ids, a, b) <==> id in ids && id != a && id != b
  {
    OthersDistinct(ids, a, b);
    forall id ensures id in Others(ids, a, b) <==> id in ids && id != a && id != b {
      OthersMember(ids, a, b, id);
    }
  }

  /** An order that starts with the two given candidates. */
  function StartWith(ids: seq<int>, a: int, b: int): seq<int> {
    [a, b] + Others(ids, a, b)
  }

  lemma StartWithEnumerates(ids: seq<int>, a: int, b: int)
    requires Distinct(ids) && a in ids && b in ids && a != b
    ensures Distinct(StartWith(ids, a, b)) && SameMembers(StartWith(ids, a, b), ids)
  {
    OthersExact(ids, a, b);
  }

  lemma ChosenOfTwo(hosts: map<int, Host>, a: int, b: int, name: string, path: string, scheme: string)
    requires Usable(hosts, a, name, path, scheme) && Usable(hosts, b, name, path, scheme)
    ensures Chosen(hosts, [a, b], name, path, scheme)
      == Some(if Replaces(hosts[b], hosts[a], name) then hosts[b] else hosts[a])
  {
    assert [a, b] == [a] + [b] && [a] == [] + [a];
    ChosenMore(hosts, [], a, name, path, scheme);
    ChosenMore(hosts, [a], b, name, path, scheme);
  }

  /** A candidate that does not give way to w in both orders keeps it from being chosen in some order. */
  lemma SomeOrderLoses(hosts: map<int, Host>, ids: seq<int>, w: int, v: int, name: string, path: string, scheme: string)
    returns (p: seq<int>)
    requires forall id :: id in hosts ==> hosts[id].id == id
    requires Distinct(ids) && w in ids && v in ids && w != v
    requires Usable(hosts, w, name, path, scheme) && Usable(hosts, v, name, path, scheme)
    requires !Yields(hosts[v], hosts[w], name)
    ensures Distinct(p) && SameMembers(p, ids) && Chosen(hosts, p, name, path, scheme) != Some(hosts[w])
  {
    var a, b := w, v;
    if !Replaces(hosts[v], hosts[w], name) {
      a, b := v, w;
    }
    OthersExact(ids, a, b);
    StartWithEnumerates(ids, a, b);
    ChosenOfTwo(hosts, a, b, name, path, scheme);
    p := StartWith(ids, a, b);
    NeverBack(hosts, [a, b], Others(ids, a, b), w, name, path, scheme);
  }

  /** Every order of these candidates leads to the same host. */
  ghost predicate OrderFree(hosts: map<int, Host>, ids: seq<int>, name: string, path: string, scheme: string) {
    forall p: seq<int> :: Distinct(p) && SameMembers(p, ids) ==>
      Chosen(hosts, p, name, path, scheme) == Chosen(hosts, ids, name, path, scheme)
  }

  /** The choice is the same in every order if and only if nothing is accepted or one candidate dominates. */
  lemma OrderFreeExactly(hosts: map<int, Host>, ids: seq<int>, name: string, path: string, scheme: string)
    requires (forall id :: id in hosts ==> hosts[id].id == id) && Distinct(ids)
    ensures OrderFree(hosts, ids, name, path, scheme) <==>
      NoneAccepted(hosts, ids, name, path, scheme) || exists w :: Dominant(hosts, ids, w, name, path, scheme)
  {
    ChosenIsUsable(hosts, ids, name, path, scheme);
    if w :| Dominant(hosts, ids, w, name, path, scheme) {
      forall p: seq<int> | Distinct(p) && SameMembers(p, ids)
        ensures Chosen(hosts, p, name, path, scheme) == Chosen(hosts, ids, name, path, scheme)
      {
        DominantWins(hosts, p, w, name, path, scheme);
        DominantWins(hosts, ids, w, name, path, scheme);
      }
    } else if NoneAccepted(hosts, ids, name, path, scheme) {
      forall p: seq<int> | Distinct(p) && SameMembers(p, ids)
        ensures Chosen(hosts, p, name, path, scheme) == Chosen(hosts, ids, name, path, scheme)
      {
        ChosenIsUsable(hosts, p, name, path, scheme);
      }
    } else {
      var w := Chosen(hosts, ids, name, path, scheme).value.id;
      assert !Dominant(hosts, ids, w, name, path, scheme);
      var v :| v in ids && v != w && Usable(hosts, v, name, path, scheme) && !Yields(hosts[v], hosts[w], name);
      var p := SomeOrderLoses(hosts, ids, w, v, name, path, scheme);
      assert !OrderFree(hosts, ids, name, path, scheme);
    }
  }

  /** Strictly below in rank. */
  predicate Below(a: Rank, b: Rank) {
    AtMost(a, b) && !AtMost(b, a)
  }

  /** Between matching indexable patterns, giving way is being of lower rank. */
  lemma YieldsByRank(v: Host, w: Host, name: string)
    requires Matches(v.host, name) && Indexable(v.host) && Matches(w.host, name) && Indexable(w.host)
    ensures Yields(v, w, name) <==> Below(RankOf(v, name), RankOf(w, name))
  {
    if v.host == name {
      ExactIsLongest(v, w, name);
    }
    if w.host == name {
      ExactIsLongest(w, v, name);
    }
  }

  /** Exactly one usable candidate has the greatest rank. */
  predicate OneBest(hosts: map<int, Host>, ids: seq<int>, w: int, name: string, path: string, scheme: string) {
    && w in ids && Usable(hosts, w, name, path, scheme)
    && forall v :: v in ids && v != w && Usable(hosts, v, name, path, scheme) ==>
      Below(RankOf(hosts[v], name), RankOf(hosts[w], name))
  }

  /** With indexable patterns: the choice is the same in every order if and only if at most one accepted
      candidate has the greatest rank. */
  lemma OrderFreeByRank(hosts: map<int, Host>, ids: seq<int>, name: string, path: string, scheme: string)
    requires (forall id :: id in hosts ==> hosts[id].id == id) && Distinct(ids)
    requires AllIndexable(hosts, name, path, scheme)
    ensures OrderFree(hosts, ids, name, path, scheme) <==>
      NoneAccepted(hosts, ids, name, path, scheme) || exists w :: OneBest(hosts, ids, w, name, path, scheme)
  {
    OrderFreeExactly(hosts, ids, name, path, scheme);
    forall w ensures OneBest(hosts, ids, w, name, path, scheme) <==> Dominant(hosts, ids, w, name, path, scheme) {
      forall v | v in ids && Usable(hosts, v, name, path, scheme) && Usable(hosts, w, name, path, scheme)
        ensures Yields(hosts[v], hosts[w], name) <==> Below(RankOf(hosts[v], name), RankOf(hosts[w], name))
      {
        YieldsByRank(hosts[v], hosts[w], name);
      }
    }
  }

  /** An "all" route is accepted beside an "http" route of the same name and location; then the order decides
      which of them serves an http request. */
  lemma TwinsDependOnOrder()
    ensures var http, all := Host(1, "a.com", "/", "http", false), Host(2, "a.com", "/", "all", false);
      var hosts := map[1 := http, 2 := all];
      && !Conflict(map[1 := http], all) && Conflict(map[2 := all], http)
      && Chosen(hosts, [1, 2], "a.com", "/", "http") == Some(all)
      && Chosen(hosts, [2, 1], "a.com", "/", "http") == Some(http)
  {
    var http, all := Host(1, "a.com", "/", "http", false), Host(2, "a.com", "/", "all", false);
    var hosts := map[1 := http, 2 := all];
    ChosenOfTwo(hosts, 1, 2, "a.com", "/", "http");
    ChosenOfTwo(hosts, 2, 1, "a.com", "/", "http");
    assert 2 in map[2 := all] && Clashes(map[2 := all][2], http);
  }
}
