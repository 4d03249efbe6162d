/** The store of host routes with its domain index, and the choice of a route for a request. */
module HostRouting {
  import opened Common
  import opened DomainTrie
  import opened DomainNames

  datatype Host = Host(id: int, host: string, location: string, scheme: string, isClose: bool)

  /** The location as every reader takes it: empty means "/". */
  function Location(h: Host): string {
    if h.location == "" then "/" else h.location
  }

  // The index.

  /** The index holds exactly one pair per stored host: its path and its id. */
  ghost predicate Agrees(hosts: map<int, Host>, index: Node) {
    forall p: Path, id: int :: Has(index, p, id) <==> id in hosts && p == IndexPath(hosts[id].host)
  }

  /** DomainIndex.Add. */
  function IndexAdd(index: Node, domain: string, id: int): Node {
    if Has(index, IndexPath(domain), id) then index else CloneAdd(index, IndexPath(domain), id)
  }

  /** DomainIndex.Remove. */
  function IndexRemove(index: Node, domain: string, id: int): Node {
    if Has(index, IndexPath(domain), id) then RemoveFrom(index, IndexPath(domain), id) else index
  }

  lemma IndexAddExact(index: Node, domain: string, id: int, q: Path, j: int)
    ensures Has(IndexAdd(index, domain, id), q, j) <==> Has(index, q, j) || (q == IndexPath(domain) && j == id)
  {
    AddExact(index, IndexPath(domain), id, q, j);
  }

  lemma IndexRemoveExact(index: Node, domain: string, id: int, q: Path, j: int)
    ensures Has(IndexRemove(index, domain, id), q, j) <==> Has(index, q, j) && !(q == IndexPath(domain) && j == id)
  {
    RemoveFromExact(index, IndexPath(domain), id, q, j);
  }

  lemma AgreesAfterAdd(hosts: map<int, Host>, index: Node, h: Host)
    requires Agrees(hosts, index) && (h.id !in hosts || IndexPath(hosts[h.id].host) == IndexPath(h.host))
    ensures Agrees(hosts[h.id := h], IndexAdd(index, h.host, h.id))
  {
    forall q: Path, j: int
      ensures Has(IndexAdd(index, h.host, h.id), q, j)
        <==> j in hosts[h.id := h] && q == IndexPath(hosts[h.id := h][j].host)
    {
      IndexAddExact(index, h.host, h.id, q, j);
    }
  }

  lemma AgreesAfterRemove(hosts: map<int, Host>, index: Node, id: int)
    requires Agrees(hosts, index) && id in hosts
    ensures Agrees(hosts - {id}, IndexRemove(index, hosts[id].host, id))
  {
    forall q: Path, j: int
      ensures Has(IndexRemove(index, hosts[id].host, id), q, j)
        <==> j in hosts - {id} && q == IndexPath((hosts - {id})[j].host)
    {
      IndexRemoveExact(index, hosts[id].host, id, q, j);
    }
  }

  /** Storing a host under an id keeps the index exact if and only if the id is new or the old entry has
      the same path; otherwise the old pair is left behind. */
  lemma StoreKeepsIndexExact(hosts: map<int, Host>, index: Node, h: Host)
    requires Agrees(hosts, index)
    ensures Agrees(hosts[h.id := h], IndexAdd(index, h.host, h.id))
      <==> (h.id !in hosts || IndexPath(hosts[h.id].host) == IndexPath(h.host))
  {
    if h.id !in hosts || IndexPath(hosts[h.id].host) == IndexPath(h.host) {
      AgreesAfterAdd(hosts, index, h);
    } else {
      var oldPath := IndexPath(hosts[h.id].host);
      IndexAddExact(index, h.host, h.id, oldPath, h.id);
      assert Has(index, oldPath, h.id);
    }
  }

  // The store.

  /** What the store keeps true: a pruned tree that agrees with the records, each under its own id. */
  ghost predicate Sound(hosts: map<int, Host>, index: Node) {
    && Canonical(index)
    && Agrees(hosts, index)
    && forall id :: id in hosts ==> hosts[id].id == id
  }

  lemma SoundAfterAdd(hosts: map<int, Host>, index: Node, h: Host)
    requires Sound(hosts, index) && h.id !in hosts
    ensures Sound(hosts[h.id := h], IndexAdd(index, h.host, h.id))
  {
    AgreesAfterAdd(hosts, index, h);
    AddCanonical(index, IndexPath(h.host), h.id);
  }

  lemma SoundAfterStore(hosts: map<int, Host>, index: Node, h: Host)
    requires Sound(hosts, index)
    ensures Sound(hosts[h.id := h], IndexAdd(index, h.host, h.id))
      <==> (h.id !in hosts || IndexPath(hosts[h.id].host) == IndexPath(h.host))
  {
    StoreKeepsIndexExact(hosts, index, h);
    AddCanonical(index, IndexPath(h.host), h.id);
  }

  lemma SoundAfterRemove(hosts: map<int, Host>, index: Node, id: int)
    requires Sound(hosts, index) && id in hosts
    ensures Sound(hosts - {id}, IndexRemove(index, hosts[id].host, id))
  {
    AgreesAfterRemove(hosts, index, id);
    RemoveFromCanonical(index, IndexPath(hosts[id].host), id);
  }

  lemma SoundAfterRename(hosts: map<int, Host>, index: Node, h: Host)
    requires Sound(hosts, index) && h.id in hosts
    ensures Sound(hosts[h.id := h], IndexAdd(IndexRemove(index, hosts[h.id].host, h.id), h.host, h.id))
  {
    SoundAfterRemove(hosts, index, h.id);
    SoundAfterAdd(hosts - {h.id}, IndexRemove(index, hosts[h.id].host, h.id), h);
    assert (hosts - {h.id})[h.id := h] == hosts[h.id := h];
  }

  lemma SoundAfterEdit(hosts: map<int, Host>, index: Node, h: Host)
    requires Sound(hosts, index) && h.id in hosts && hosts[h.id].host == h.host
    ensures Sound(hosts[h.id := h], index)
  {
    StoreKeepsIndexExact(hosts, index, h);
    assert Has(index, IndexPath(h.host), h.id);
  }

  /** IsHostExist's test against one stored host. */
  predicate Clashes(v: Host, h: Host) {
    v.id != h.id && v.host == h.host && Location(h) == Location(v) && (v.scheme == "all" || v.scheme == h.scheme)
  }

  predicate Conflict(hosts: map<int, Host>, h: Host) {
    exists id :: id in hosts && Clashes(hosts[id], h)
  }

  /** A stored host as IsHostExist leaves it. */
  function Settled(h: Host): Host {
    h.(location := Location(h))
  }

  /** The store after IsHostExist has ranged over these ids. */
  function SettleSome(hosts: map<int, Host>, ids: seq<int>): map<int, Host> {
    map id | id in hosts :: if id in ids then Settled(hosts[id]) else hosts[id]
  }

  lemma SettleOne(hosts: map<int, Host>, order: seq<int>, k: nat)
    requires k < |order| && order[k] in hosts
    ensures var some := SettleSome(hosts, order[..k]);
      some[order[k] := Settled(some[order[k]])] == SettleSome(hosts, order[..k + 1])
  {
    assert order[..k + 1] == order[..k] + [order[k]];
    var some, more := SettleSome(hosts, order[..k]), SettleSome(hosts, order[..k + 1]);
    assert forall id :: id in hosts ==> more[id] == if id == order[k] then Settled(some[id]) else some[id];
  }

  /** Equal up to empty locations. */
  predicate SameRoutes(a: map<int, Host>, b: map<int, Host>) {
    a.Keys == b.Keys && forall id :: id in a ==> Settled(a[id]) == Settled(b[id])
  }

  lemma SoundSettled(hosts: map<int, Host>, ids: seq<int>, index: Node)
    requires Sound(hosts, index)
    ensures Sound(SettleSome(hosts, ids), index) && SameRoutes(hosts, SettleSome(hosts, ids))
  {
    var b := SettleSome(hosts, ids);
    assert forall id :: id in hosts ==> hosts[id].host == b[id].host;
  }

  /** NewHost's defaults. */
  function Prepared(h: Host): Host {
    h.(location := Location(h),
       scheme := if h.scheme != "all" && h.scheme != "http" && h.scheme != "https" then "all" else h.scheme)
  }

  // What a request asks for.

  /** common.GetIpByAddr: the host without its port. */
  function WithoutPort(addr: string): string {
    if addr == "" then addr
    else if addr[0] == '[' then
      var k := Find(addr, ']', 0);
      if k < |addr| then addr[1..Max(k, 1)] else ""
    else
      var k := Find(addr, ':', 0);
      if k < |addr| && Find(addr, ':', k + 1) == |addr| then addr[..k] else addr
  }

  function Find(s: string, c: char, from: nat): (k: nat)
    ensures k <= |s| || k == from
    ensures k < |s| ==> s[k] == c
    decreases |s| - from
  {
    if from >= |s| then |s| else if s[from] == c then from else Find(s, c, from + 1)
  }

  /** The full scan's test: open, right scheme, matching name, location a prefix of the path. */
  predicate Accepts(h: Host, name: string, path: string, scheme: string) {
    && !h.isClose
    && (h.scheme == "all" || h.scheme == scheme)
    && Matches(h.host, name)
    && Location(h) <= path
  }

  function DomainLength(h: Host): nat {
    |TrimPrefix(h.host, "*")|
  }

  datatype Rank = Rank(location: nat, domain: nat, exact: bool)

  function RankOf(h: Host, name: string): Rank {
    Rank(|Location(h)|, DomainLength(h), h.host == name)
  }

  /** Longer location first, then longer domain, then an exact name. */
  predicate AtMost(a: Rank, b: Rank) {
    || a.location < b.location
    || (a.location == b.location
        && (a.domain < b.domain || (a.domain == b.domain && (a.exact ==> b.exact))))
  }

  lemma RankOrder(a: Rank, b: Rank, c: Rank)
    ensures AtMost(a, a)
    ensures AtMost(a, b) || AtMost(b, a)
    ensures AtMost(a, b) && AtMost(b, c) ==> AtMost(a, c)
  {
  }

  /** Every stored host that accepts the request has an indexable pattern. */
  predicate AllIndexable(hosts: map<int, Host>, name: string, path: string, scheme: string) {
    forall id :: id in hosts && Accepts(hosts[id], name, path, scheme) ==> Indexable(hosts[id].host)
  }

  /** The length test drops nothing that matches. */
  lemma TooLongMisses(h: Host, name: string)
    requires |name| < DomainLength(h)
    ensures !Matches(h.host, name)
  {
  }

  /** What a matching pattern without a second star leaves beyond its star is not longer than the name. */
  lemma PatternFits(p: string, name: string)
    requires Matches(p, name) && (|p| >= 2 && p[0] == '*' ==> p[1] != '*')
    ensures |TrimPrefix(p, "*")| <= |TrimPrefix(name, "*")|
  {
    if p != name && |p| - 1 == |name| {
      assert p[1..] == name;
    }
  }

  /** Among indexable patterns none is longer than the exact name. */
  lemma ExactIsLongest(exact: Host, h: Host, name: string)
    requires exact.host == name && Matches(h.host, name) && Indexable(h.host)
    ensures DomainLength(h) <= DomainLength(exact)
  {
    if |h.host| >= 2 && h.host[0] == '*' {
      NoDoubleStar(h.host);
    }
    PatternFits(h.host, name);
  }

  /** The loop's test for taking v over the best so far. */
  predicate Replaces(v: Host, best: Host, name: string) {
    || |Location(v)| > |Location(best)|
    || (|Location(v)| == |Location(best)| && (DomainLength(v) > DomainLength(best) || v.host == name))
  }

  lemma ReplacesByRank(v: Host, best: Host, name: string)
    requires Matches(best.host, name) && Indexable(best.host)
    ensures if Replaces(v, best, name) then AtMost(RankOf(best, name), RankOf(v, name))
            else AtMost(RankOf(v, name), RankOf(best, name))
  {
    if v.host == name {
      ExactIsLongest(v, best, name);
    }
  }

  /** Every host the full scan accepts is among the candidates of the index. */
  lemma CandidatesComplete(hosts: map<int, Host>, index: Node, name: string, id: int)
    requires Agrees(hosts, index) && id in hosts && Indexable(hosts[id].host) && Matches(hosts[id].host, name)
    ensures id in Lookup(index, QueryPath(name))
  {
    var p := IndexPath(hosts[id].host);
    IndexableFinds(hosts[id].host, name);
    assert Has(index, p, id);
    LookupIsPrefixes(index, QueryPath(name), p, id);
  }

  /** No accepted host among these ids ranks above best. */
  predicate NoneAbove(hosts: map<int, Host>, ids: seq<int>, best: Host, name: string, path: string, scheme: string) {
    forall i :: 0 <= i < |ids| && ids[i] in hosts && Accepts(hosts[ids[i]], name, path, scheme) ==>
      AtMost(RankOf(hosts[ids[i]], name), RankOf(best, name))
  }

  predicate NoneAccepted(hosts: map<int, Host>, ids: seq<int>, name: string, path: string, scheme: string) {
    forall i :: 0 <= i < |ids| && ids[i] in hosts ==> !Accepts(hosts[ids[i]], name, path, scheme)
  }

  /** A stored host that the request may use. */
  predicate Candidate(hosts: map<int, Host>, h: Host, name: string, path: string, scheme: string) {
    h.id in hosts && hosts[h.id] == h && Accepts(h, name, path, scheme)
  }

  /** Accepted hosts of equal rank have the same name and the same location. */
  lemma TieMeansSameRoute(a: Host, b: Host, name: string, path: string, scheme: string)
    requires Accepts(a, name, path, scheme) && Accepts(b, name, path, scheme)
    requires RankOf(a, name) == RankOf(b, name)
    ensures a.host == b.host && Location(a) == Location(b)
  {
    assert Location(a) == path[..|Location(a)|] == Location(b);
    SamePattern(a.host, b.host, name);
  }

  /** Matching patterns of one length, both exact or both not, are the same. */
  lemma SamePattern(p: string, q: string, name: string)
    requires Matches(p, name) && Matches(q, name) && (p == name <==> q == name)
    requires |TrimPrefix(p, "*")| == |TrimPrefix(q, "*")|
    ensures p == q
  {
    if p != name {
      assert p[1..] == name[|name| - |p[1..]|..] == q[1..];
      assert p == "*" + p[1..] && q == "*" + q[1..];
    }
  }

  /** No two open routes share a name and a location and serve the same scheme. */
  predicate NoTwins(hosts: map<int, Host>, scheme: string) {
    forall i, j :: i in hosts && j in hosts && Serves(hosts[i], scheme) && Serves(hosts[j], scheme) && i != j ==>
      hosts[i].host != hosts[j].host || Location(hosts[i]) != Location(hosts[j])
  }

  predicate Serves(h: Host, scheme: string) {
    !h.isClose && (h.scheme == "all" || h.scheme == scheme)
  }

  /** Without twins the best candidate does not depend on the order in which the index yields them. */
  lemma BestIsUnique(hosts: map<int, Host>, ids: seq<int>, jds: seq<int>, a: Host, b: Host,
                     name: string, path: string, scheme: string)
    requires NoTwins(hosts, scheme) && (forall id :: id in ids <==> id in jds) && a.id in ids && b.id in jds
    requires Candidate(hosts, a, name, path, scheme) && Candidate(hosts, b, name, path, scheme)
    requires NoneAbove(hosts, ids, a, name, path, scheme) && NoneAbove(hosts, jds, b, name, path, scheme)
    ensures a == b
  {
    var i :| 0 <= i < |ids| && ids[i] == b.id;
    var j :| 0 <= j < |jds| && jds[j] == a.id;
    assert AtMost(RankOf(b, name), RankOf(a, name)) && AtMost(RankOf(a, name), RankOf(b, name));
    TieMeansSameRoute(a, b, name, path, scheme);
  }

  /** One step of the loop keeps the best of the candidates seen. */
  lemma NoneAboveStep(hosts: map<int, Host>, ids: seq<int>, id: int, v: Host, best: Host,
                      name: string, path: string, scheme: string)
    requires NoneAbove(hosts, ids, best, name, path, scheme) && id in hosts && hosts[id] == v
    requires Matches(best.host, name) && Indexable(best.host)
    ensures NoneAbove(hosts, ids + [id], if Replaces(v, best, name) then v else best, name, path, scheme)
  {
    ReplacesByRank(v, best, name);
    var winner := if Replaces(v, best, name) then v else best;
    var more := ids + [id];
    forall i | 0 <= i < |more| && more[i] in hosts && Accepts(hosts[more[i]], name, path, scheme)
      ensures AtMost(RankOf(hosts[more[i]], name), RankOf(winner, name))
    {
      RankOrder(RankOf(hosts[more[i]], name), RankOf(best, name), RankOf(winner, name));
      if i < |ids| {
        assert more[i] == ids[i];
      }
    }
  }

  /** The tests GetInfoByHost makes of one candidate, in its order. */
  method Admit(v: Host, name: string, path: string, scheme: string)
    returns (ok: bool, domainLength: nat, locationLength: nat)
    ensures ok == Accepts(v, name, path, scheme)
    ensures ok ==> domainLength == DomainLength(v) && locationLength == |Location(v)|
  {
    ok, domainLength, locationLength := false, 0, 0;
    if v.isClose || (v.scheme != "all" && v.scheme != scheme) {
      return;
    }
    domainLength := |TrimPrefix(v.host, "*")|;
    if |name| < domainLength {
      TooLongMisses(v, name);
      return;
    }
    var equaled := v.host == name;
    var matched := equaled || (v.host != "" && v.host[0] == '*' && HasSuffix(name, v.host[1..]));
    if !matched {
      return;
    }
    var location := if v.location == "" then "/" else v.location;
    if !(location <= path) {
      return;
    }
    ok, locationLength := true, |location|;
  }

  /** The best so far after looking at one more host. */
  function Keep(best: Option<Host>, v: Host, name: string, path: string, scheme: string): Option<Host> {
    if !Accepts(v, name, path, scheme) then best
    else if best.None? || Replaces(v, best.value, name) then Some(v)
    else best
  }

  /** The host a series of candidates leads to. */
  function Chosen(hosts: map<int, Host>, ids: seq<int>, name: string, path: string, scheme: string): Option<Host> {
    if ids == [] then None
    else
      var best, id := Chosen(hosts, ids[..|ids| - 1], name, path, scheme), ids[|ids| - 1];
      if id in hosts then Keep(best, hosts[id], name, path, scheme) else best
  }

  lemma ChosenMore(hosts: map<int, Host>, ids: seq<int>, id: int, name: string, path: string, scheme: string)
    ensures Chosen(hosts, ids + [id], name, path, scheme) ==
      var best := Chosen(hosts, ids, name, path, scheme);
      if id in hosts then Keep(best, hosts[id], name, path, scheme) else best
  {
    assert (ids + [id])[..|ids|] == ids;
  }

  /** What the fold leads to: an accepted host with none ranked above it, or nothing when none is accepted. */
  lemma {:induction false} ChosenIsBest(hosts: map<int, Host>, ids: seq<int>, name: string, path: string,
                                        scheme: string)
    requires forall id :: id in hosts ==> hosts[id].id == id
    ensures var r := Chosen(hosts, ids, name, path, scheme);
      && (r.Some? ==> Candidate(hosts, r.value, name, path, scheme))
      && (r.None? ==> NoneAccepted(hosts, ids, name, path, scheme))
      && (AllIndexable(hosts, name, path, scheme) && r.Some? ==> NoneAbove(hosts, ids, r.value, name, path, scheme))
    decreases |ids|
  {
    if ids != [] {
      var most, id := ids[..|ids| - 1], ids[|ids| - 1];
      ChosenIsBest(hosts, most, name, path, scheme);
      assert ids == most + [id];
      var best := Chosen(hosts, most, name, path, scheme);
      if AllIndexable(hosts, name, path, scheme) && best.Some? && id in hosts
         && Accepts(hosts[id], name, path, scheme) {
        NoneAboveStep(hosts, most, id, hosts[id], best.value, name, path, scheme);
      }
    }
  }

  /** The loop of GetInfoByHost over the candidate ids. */
  method Select(hosts: map<int, Host>, order: seq<int>, name: string, path: string, scheme: string)
    returns (r: Option<Host>)
    ensures r == Chosen(hosts, order, name, path, scheme)
  {
    r := None;
    var bestDomain, bestLocation := 0, 0;
    var k := 0;
    while k < |order|
      invariant 0 <= k <= |order| && r == Chosen(hosts, order[..k], name, path, scheme)
      invariant r.Some? ==> bestDomain == DomainLength(r.value) && bestLocation == |Location(r.value)|
    {
      var id := order[k];
      assert order[..k + 1] == order[..k] + [id];
      ChosenMore(hosts, order[..k], id, name, path, scheme);
      k := k + 1;
      if id !in hosts {
        continue;
      }
      var v := hosts[id];
      var ok, curDomain, curLocation := Admit(v, name, path, scheme);
      if !ok {
        continue;
      }
      if r.None? {
        r, bestDomain, bestLocation := Some(v), curDomain, curLocation;
        continue;
      }
      if curLocation > bestLocation {
        r, bestDomain, bestLocation := Some(v), curDomain, curLocation;
        continue;
      }
      if curLocation == bestLocation {
        if curDomain > bestDomain {
          r, bestDomain, bestLocation := Some(v), curDomain, curLocation;
          continue;
        }
        if v.host == name {
          r, bestDomain, bestLocation := Some(v), curDomain, curLocation;
          continue;
        }
      }
    }
    assert order[..k] == order;
  }

  class HostDb {
    var hosts: map<int, Host>
    var index: Node

    ghost predicate Valid()
      reads this
    {
      Sound(hosts, index)
    }

    constructor ()
      ensures Valid() && hosts == map[] && index == EMPTY
    {
      hosts, index := map[], EMPTY;
      new;
      forall p: Path, id: int ensures !Has(EMPTY, p, id) {
        EmptyHasNothing(p, id);
      }
    }

    /** IsHostExist, ranging over the stored hosts in some order and settling their locations as it goes. */
    method IsHostExist(h: Host, order: seq<int>) returns (exist: bool)
      requires Valid() && forall id :: id in order <==> id in hosts
      modifies this`hosts
      ensures Valid() && SameRoutes(old(hosts), hosts)
      ensures exist == Conflict(old(hosts), h)
      ensures !exist ==> hosts == SettleSome(old(hosts), order)
    {
      ghost var was := hosts;
      var k := 0;
      while k < |order|
        invariant 0 <= k <= |order|
        invariant hosts == SettleSome(was, order[..k])
        invariant forall i :: 0 <= i < k ==> order[i] in was && !Clashes(was[order[i]], h)
      {
        var id := order[k];
        assert id in order;
        SettleOne(was, order, k);
        hosts := hosts[id := Settled(hosts[id])];
        k := k + 1;
        if Clashes(hosts[id], h) {
          assert Clashes(was[id], h);
          SoundSettled(was, order[..k], index);
          return true;
        }
      }
      assert order[..k] == order;
      SoundSettled(was, order, index);
      return false;
    }

    /** NewHost; the index stays exact exactly when the id is new, as GetHostId hands them out, or keeps its path. */
    method NewHost(t: Host, order: seq<int>) returns (ok: bool)
      requires Valid() && forall id :: id in order <==> id in hosts
      modifies this
      ensures ok == !Conflict(old(hosts), Prepared(t))
      ensures ok ==> hosts == SettleSome(old(hosts), order)[t.id := Prepared(t)]
      ensures ok ==> index == IndexAdd(old(index), t.host, t.id)
      ensures !ok ==> SameRoutes(old(hosts), hosts) && index == old(index) && Valid()
      ensures ok ==> (Valid() <==> t.id !in old(hosts) || IndexPath(old(hosts)[t.id].host) == IndexPath(t.host))
    {
      var h := Prepared(t);
      var exist := IsHostExist(h, order);
      if exist {
        return false;
      }
      SoundAfterStore(hosts, index, h);
      index := IndexAdd(index, h.host, h.id);
      hosts := hosts[h.id := h];
      return true;
    }

    /** DelHost. */
    method DelHost(id: int)
      requires Valid()
      modifies this
      ensures Valid() && hosts == old(hosts) - {id}
      ensures id in old(hosts) ==> index == IndexRemove(old(index), old(hosts)[id].host, id)
      ensures id !in old(hosts) ==> index == old(index)
    {
      if id in hosts {
        SoundAfterRemove(hosts, index, id);
        index := IndexRemove(index, hosts[id].host, id);
      }
      hosts := hosts - {id};
    }

    /** The rename of the host editor: probe for a clash, move the index entry, edit the record. */
    method Rename(id: int, host: string, location: string, scheme: string, order: seq<int>) returns (ok: bool)
      requires Valid() && id in hosts && forall i :: i in order <==> i in hosts
      modifies this
      ensures Valid() && hosts.Keys == old(hosts).Keys
      ensures var was, edited := old(hosts)[id], old(hosts)[id].(host := host, location := location, scheme := scheme);
        ok <==> edited == was || !Conflict(old(hosts), edited)
      ensures ok ==> hosts[id] == old(hosts)[id].(host := host, location := location, scheme := scheme)
      ensures ok ==> SameRoutes(old(hosts) - {id}, hosts - {id})
      ensures !ok ==> SameRoutes(old(hosts), hosts) && index == old(index)
    {
      var h := hosts[id];
      if host != h.host || location != h.location || scheme != h.scheme {
        var clash := IsHostExist(h.(host := host, location := location, scheme := scheme), order);
        if clash {
          return false;
        }
      }
      var edited := h.(host := host, location := location, scheme := scheme);
      if host != h.host {
        SoundAfterRename(hosts, index, edited);
        index := IndexRemove(index, h.host, id);
        index := IndexAdd(index, host, id);
      } else {
        SoundAfterEdit(hosts, index, edited);
      }
      hosts := hosts[id := edited];
      return true;
    }

    /** GetInfoByHost, with the candidate ids in whatever order the index yields them. */
    method GetInfoByHost(addr: string, requestURI: string, scheme: string, order: seq<int>) returns (r: Option<Host>)
      requires Valid()
      requires forall id :: id in order <==> id in Lookup(index, QueryPath(WithoutPort(addr)))
      ensures var name := WithoutPort(addr);
        var path := if requestURI == "" then "/" else requestURI;
        && r == Chosen(hosts, order, name, path, scheme)
        && (r.Some? ==> r.value.id in hosts && hosts[r.value.id] == r.value && Accepts(r.value, name, path, scheme))
        && (AllIndexable(hosts, name, path, scheme) ==>
              && (r.Some? <==> exists id :: id in hosts && Accepts(hosts[id], name, path, scheme))
              && (r.Some? ==> forall id :: id in hosts && Accepts(hosts[id], name, path, scheme) ==>
                    AtMost(RankOf(hosts[id], name), RankOf(r.value, name))))
    {
      var name := WithoutPort(addr);
      var path := if requestURI == "" then "/" else requestURI;
      r := Select(hosts, order, name, path, scheme);
      ChosenIsBest(hosts, order, name, path, scheme);
      if AllIndexable(hosts, name, path, scheme) {
        forall id | id in hosts && Accepts(hosts[id], name, path, scheme) ensures id in order {
          CandidatesComplete(hosts, index, name, id);
        }
      }
    }
  }
}
