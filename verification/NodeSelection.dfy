/** A client's nodes: registration, files, and the choice of a node to carry a connection. */
module NodeSelection {
  import opened Common
  import opened Pool

  datatype Mode = Primary | RoundRobin | Random

  /** What one look at a node sees: whether it is offline, and whether either grace window is open. */
  datatype Look = Look(offline: bool, clientGrace: bool, joinGrace: bool)

  datatype Seen = Seen(uuid: string, look: Look)

  /** A look after which CheckNode gives the node up. */
  predicate Fatal(l: Look) {
    l.offline && !l.clientGrace && !l.joinGrace
  }

  predicate Spared(l: Look) {
    l.offline && (l.clientGrace || l.joinGrace)
  }

  /** The nodes given up in a series of looks. */
  function GivenUp(seen: seq<Seen>): set<string> {
    if seen == [] then {}
    else GivenUp(seen[..|seen| - 1]) + if Fatal(seen[|seen| - 1].look) then {seen[|seen| - 1].uuid} else {}
  }

  function SparedCount(seen: seq<Seen>): nat {
    if seen == [] then 0
    else SparedCount(seen[..|seen| - 1]) + if Spared(seen[|seen| - 1].look) then 1 else 0
  }

  /** A node was given up only after a look that saw it offline with both grace windows closed. */
  lemma {:induction false} GivenUpForCause(seen: seq<Seen>, uuid: string)
    ensures uuid in GivenUp(seen) <==> exists i :: 0 <= i < |seen| && seen[i].uuid == uuid && Fatal(seen[i].look)
    decreases |seen|
  {
    if seen != [] {
      var most, last := seen[..|seen| - 1], |seen| - 1;
      GivenUpForCause(most, uuid);
      if uuid in GivenUp(most) {
        var i :| 0 <= i < |most| && most[i].uuid == uuid && Fatal(most[i].look);
        assert seen[i].uuid == uuid;
      }
      if i :| 0 <= i < |seen| && seen[i].uuid == uuid && Fatal(seen[i].look) {
        if i < last {
          assert most[i] == seen[i];
        }
      }
    }
  }

  lemma OneMore(seen: seq<Seen>, s: Seen)
    ensures GivenUp(seen + [s]) == GivenUp(seen) + if Fatal(s.look) then {s.uuid} else {}
    ensures SparedCount(seen + [s]) == SparedCount(seen) + if Spared(s.look) then 1 else 0
  {
    assert (seen + [s])[..|seen|] == seen;
  }

  lemma SetMinus(a: set<string>, b: set<string>, u: string)
    ensures a - (b + {u}) == a - b - {u}
    ensures b + {} == b
  {
  }

  /** The looks made so far, against the nodes before and now. */
  predicate Trail(seen: seq<Seen>, looks: nat -> Look, before: set<string>, now: set<string>) {
    && (forall i :: 0 <= i < |seen| ==> seen[i].look == looks(i))
    && now == before - GivenUp(seen)
    && GivenUp(seen) <= before
  }

  lemma TrailGrows(seen: seq<Seen>, looks: nat -> Look, before: set<string>, now: set<string>, uuid: string)
    requires Trail(seen, looks, before, now) && uuid in now
    ensures var more, l := seen + [Seen(uuid, looks(|seen|))], looks(|seen|);
      && Trail(more, looks, before, if Fatal(l) then now - {uuid} else now)
      && SparedCount(more) == SparedCount(seen) + if Spared(l) then 1 else 0
  {
    OneMore(seen, Seen(uuid, looks(|seen|)));
    SetMinus(before, GivenUp(seen), uuid);
  }

  datatype Outcome = Nobody | Returned(uuid: string) | Passed(uuid: string) | Removed(uuid: string)

  /** What the observations leave of a set of nodes, for one sweep over them. */
  datatype Sweep = Sweep(joinGrace: bool, offline: bool, retriesLeft: bool, backOnline: bool)

  predicate Swept(s: Sweep, force: bool) {
    !s.joinGrace && s.offline && (force || !s.retriesLeft)
  }

  /** The nodes left when those listed go, unless they have come back online. */
  function Survivors(nodes: set<string>, doomed: seq<string>, look: string -> Sweep): set<string> {
    set u | u in nodes && (u !in doomed || look(u).backOnline)
  }

  lemma SurvivorsMore(nodes: set<string>, doomed: seq<string>, k: nat, look: string -> Sweep)
    requires k < |doomed|
    ensures Survivors(nodes, doomed[..k + 1], look) ==
      Survivors(nodes, doomed[..k], look) - if look(doomed[k]).backOnline then {} else {doomed[k]}
  {
    assert doomed[..k + 1] == doomed[..k] + [doomed[k]];
  }

  lemma OneLess(nodes: set<string>, u: string)
    requires u in nodes
    ensures |nodes - {u}| == |nodes| - 1
  {
  }

  /** The first pass of removeOfflineNodes. */
  method Offline(keep: string, force: bool, order: seq<string>, look: string -> Sweep) returns (doomed: seq<string>)
    ensures forall u :: u in doomed <==> u in order && u != keep && Swept(look(u), force)
  {
    doomed := [];
    for k := 0 to |order|
      invariant forall u :: u in doomed <==> u in order[..k] && u != keep && Swept(look(u), force)
    {
      assert order[..k + 1] == order[..k] + [order[k]];
      var u := order[k];
      if u == keep || look(u).joinGrace {
        continue;
      }
      if look(u).offline {
        if force || !look(u).retriesLeft {
          doomed := doomed + [u];
        }
      }
    }
    assert order[..|order|] == order;
  }

  class Client {
    const nodeList: Pool<string>
    var nodes: set<string>
    var files: map<string, string>
    var lastUuid: string

    /** Pool members are the nodes, every file has a live node, and the last node is live or unset. */
    ghost predicate Valid()
      reads this, nodeList
    {
      && nodeList.Valid()
      && nodeList.idx.Keys == nodes
      && "" !in nodes
      && (forall key :: key in files ==> files[key] in nodes)
      && (lastUuid == "" || lastUuid in nodes)
    }

    constructor (uuid: string)
      requires uuid != ""
      ensures Valid() && fresh(nodeList) && nodes == {uuid} && files == map[] && lastUuid == uuid
    {
      nodeList := new Pool<string>();
      nodes, files, lastUuid := {uuid}, map[], uuid;
      new;
      nodeList.Add(uuid);
    }

    /** AddNode; online tells whether a node already registered under this id is online. */
    method AddNode(uuid: string, baseVer: int, online: bool)
      requires Valid() && uuid != ""
      modifies this, nodeList
      ensures Valid() && nodes == old(nodes) + {uuid} && files == old(files)
      ensures lastUuid == if uuid in old(nodes) && online && baseVer < 6 then old(lastUuid) else uuid
    {
      if uuid in nodes {
        if online && baseVer < 6 {
          return;
        }
        lastUuid := uuid;
        return;
      }
      nodes := nodes + {uuid};
      nodeList.Add(uuid);
      lastUuid := uuid;
    }

    method AddFile(key: string, uuid: string) returns (ok: bool)
      requires Valid()
      modifies this`files
      ensures Valid() && ok == (uuid in nodes)
      ensures files == if ok then old(files)[key := uuid] else old(files)
    {
      if uuid !in nodes {
        return false;
      }
      files := files[key := uuid];
      return true;
    }

    method RemoveFile(key: string)
      requires Valid()
      modifies this`files
      ensures Valid() && files == old(files) - {key}
    {
      files := files - {key};
    }

    /** The part of removeNode that moves on from the removed node. */
    method MoveOn(uuid: string)
      requires nodeList.Valid() && nodeList.idx.Keys == nodes && "" !in nodes
      modifies this`lastUuid, nodeList`rr
      ensures nodeList.Valid()
      ensures uuid != old(lastUuid) ==> lastUuid == old(lastUuid)
      ensures uuid == old(lastUuid) ==> if nodes == {} then lastUuid == "" else lastUuid in nodes
    {
      if lastUuid == uuid {
        var next, ok := nodeList.Next();
        if ok {
          lastUuid := next;
        } else {
          lastUuid := "";
        }
      }
    }

    /** removeNode. */
    method RemoveNode(uuid: string)
      requires Valid()
      modifies this, nodeList
      ensures Valid() && nodes == old(nodes) - {uuid}
      ensures files == map key | key in old(files) && old(files)[key] != uuid :: old(files)[key]
      ensures uuid in old(nodes) ==> |nodeList.list| == |old(nodeList.list)| - 1
      ensures uuid != old(lastUuid) ==> lastUuid == old(lastUuid)
      ensures uuid == old(lastUuid) ==> (lastUuid == "" <==> nodes == {})
    {
      nodes := nodes - {uuid};
      nodeList.Remove(uuid);
      MoveOn(uuid);
      files := map key | key in files && files[key] != uuid :: files[key];
    }

    method GetNodeByFile(key: string, online: bool, clientGrace: bool) returns (r: Option<string>)
      requires Valid()
      modifies this, nodeList
      ensures Valid()
      ensures r == if key in old(files) && online then Some(old(files)[key]) else None
      ensures nodes ==
              if key in old(files) && !online && !clientGrace then old(nodes) - {old(files)[key]} else old(nodes)
    {
      if key !in files {
        return None;
      }
      var uuid := files[key];
      if online {
        return Some(uuid);
      }
      if clientGrace {
        return None;
      }
      RemoveNode(uuid);
      return None;
    }

    /** The node CheckNode turns to when none is current. */
    method Turn(mode: Mode, draw: nat) returns (uuid: string)
      requires Valid() && (nodeList.list != [] ==> draw < |nodeList.list|)
      modifies nodeList`rr
      ensures Valid() && (uuid == "" <==> nodes == {}) && (uuid != "" ==> uuid in nodes)
      ensures mode != Random && nodes != {} ==>
        [uuid] == Picks(nodeList.list, old(nodeList.rr), 1) && nodeList.rr == Advanced(old(nodeList.rr))
    {
      var v, ok;
      if mode == Random {
        v, ok := nodeList.Random(draw);
      } else {
        v, ok := nodeList.Next();
      }
      uuid := if ok then v else "";
    }

    /** One round of CheckNode's loop, up to what it does about the node it looks at. */
    method Round(mode: Mode, look: Look, draw: nat) returns (o: Outcome)
      requires Valid() && (nodeList.list != [] ==> draw < |nodeList.list|)
      modifies this, nodeList
      ensures Valid()
      ensures nodes == if o.Removed? then old(nodes) - {o.uuid} else old(nodes)
      ensures |nodeList.list| == |old(nodeList.list)| - if o.Removed? then 1 else 0
      ensures o.Nobody? <==> old(nodes) == {}
      ensures !o.Nobody? ==> o.uuid in old(nodes) && (old(lastUuid) != "" ==> o.uuid == old(lastUuid))
      ensures match o
        case Nobody => true
        case Returned(uuid) => !look.offline && lastUuid == uuid
        case Passed(_) => Spared(look)
        case Removed(_) => Fatal(look)
    {
      if lastUuid == "" {
        var nextUuid := Turn(mode, draw);
        if nextUuid == "" {
          return Nobody;
        }
        lastUuid := nextUuid;
      }
      o := Removed(lastUuid);
      if lastUuid in nodes {
        if !look.offline {
          return Returned(lastUuid);
        }
        if look.clientGrace || look.joinGrace {
          return Passed(lastUuid);
        }
      }
      RemoveNode(lastUuid);
    }

    method Size() returns (n: nat)
      requires Valid()
      ensures n == |nodeList.list| && (n == 0 <==> nodes == {})
    {
      EmptyTogether(nodeList.list, nodeList.idx);
      n := |nodeList.list|;
    }

    /** CheckNode, with what each look at a node sees and the random numbers as parameters.  Every round of
        its loop makes one look, except a last one that finds no node left; so it ends within twice as many
        rounds as there were nodes. */
    method CheckNode(mode: Mode, looks: nat -> Look, draws: (nat, nat) -> nat)
      returns (r: Option<string>, seen: seq<Seen>)
      requires Valid() && forall k, n: nat :: n > 0 ==> draws(k, n) < n
      modifies this, nodeList
      ensures Valid() && Trail(seen, looks, old(nodes), nodes)
      ensures old(nodes) != {} ==> |seen| + 1 <= 2 * |old(nodeList.list)|
      ensures r.Some? ==> seen != [] && seen[|seen| - 1].uuid == r.value && !seen[|seen| - 1].look.offline
      ensures r.Some? ==> r.value in nodes && lastUuid == r.value
      ensures r.None? ==> nodes == {} || SparedCount(seen) == |old(nodeList.list)|
      ensures old(lastUuid) != "" && !looks(0).offline ==> r == Some(old(lastUuid))
    {
      var size := Size();
      if size == 0 {
        return None, [];
      }
      r, seen := Search(mode, looks, draws, size);
    }

    method Search(mode: Mode, looks: nat -> Look, draws: (nat, nat) -> nat, size: nat)
      returns (r: Option<string>, seen: seq<Seen>)
      requires Valid() && size == |nodeList.list| > 0 && forall k, n: nat :: n > 0 ==> draws(k, n) < n
      modifies this, nodeList
      ensures Valid() && Trail(seen, looks, old(nodes), nodes) && |seen| + 1 <= 2 * size
      ensures r.Some? ==> seen != [] && seen[|seen| - 1].uuid == r.value && !seen[|seen| - 1].look.offline
      ensures r.Some? ==> r.value in nodes && lastUuid == r.value
      ensures r.None? ==> nodes == {} || SparedCount(seen) == size
      ensures old(lastUuid) != "" && !looks(0).offline ==> r == Some(old(lastUuid))
    {
      r, seen := None, [];
      var graceChecksLeft := size;
      while true
        invariant Valid() && Trail(seen, looks, old(nodes), nodes)
        invariant |seen| == (size - |nodeList.list|) + (size - graceChecksLeft)
        invariant 0 < graceChecksLeft == size - SparedCount(seen)
        invariant seen == [] ==> lastUuid == old(lastUuid)
        invariant old(lastUuid) != "" && !looks(0).offline ==> seen == []
        decreases graceChecksLeft + |nodeList.list|
      {
        var look := looks(|seen|);
        var o := LookOnce(mode, look, draws(|seen|, |nodeList.list|), seen, looks, old(nodes));
        if o.Nobody? {
          return;
        }
        seen := seen + [Seen(o.uuid, look)];
        if o.Returned? {
          return Some(o.uuid), seen;
        }
        if o.Passed? {
          graceChecksLeft := graceChecksLeft - 1;
          if graceChecksLeft <= 0 {
            return;
          }
          Unset();
        }
      }
    }

    method Unset()
      requires Valid()
      modifies this`lastUuid
      ensures Valid() && lastUuid == ""
    {
      lastUuid := "";
    }

    /** A round that adds its look to the trail. */
    method LookOnce(mode: Mode, look: Look, draw: nat, ghost seen: seq<Seen>, ghost looks: nat -> Look,
                    ghost before: set<string>) returns (o: Outcome)
      requires Valid() && (nodeList.list != [] ==> draw < |nodeList.list|)
      requires Trail(seen, looks, before, nodes) && look == looks(|seen|)
      modifies this, nodeList
      ensures Valid() && (o.Nobody? <==> old(nodes) == {})
      ensures o.Nobody? ==> nodes == {} && Trail(seen, looks, before, nodes)
      ensures !o.Nobody? ==>
        && Trail(seen + [Seen(o.uuid, look)], looks, before, nodes)
        && SparedCount(seen + [Seen(o.uuid, look)]) == SparedCount(seen) + (if o.Passed? then 1 else 0)
        && (old(lastUuid) != "" ==> o.uuid == old(lastUuid))
      ensures |nodeList.list| == |old(nodeList.list)| - if o.Removed? then 1 else 0
      ensures o.Returned? <==> !o.Nobody? && !look.offline
      ensures o.Returned? ==> o.uuid in nodes && lastUuid == o.uuid
    {
      ghost var now := nodes;
      o := Round(mode, look, draw);
      if !o.Nobody? {
        TrailGrows(seen, looks, before, now, o.uuid);
      }
    }

    /** GetNode. */
    method GetNode(mode: Mode, looks: nat -> Look, draws: (nat, nat) -> nat)
      returns (r: Option<string>, seen: seq<Seen>)
      requires Valid() && forall k, n: nat :: n > 0 ==> draws(k, n) < n
      modifies this, nodeList
      ensures Valid() && Trail(seen, looks, old(nodes), nodes)
      ensures r.Some? ==> r.value in nodes
      ensures r.Some? ==> seen != [] && seen[|seen| - 1].uuid == r.value && !seen[|seen| - 1].look.offline
      ensures r.None? ==> nodes == {} || SparedCount(seen) == |old(nodeList.list)|
      ensures mode == RoundRobin && old(nodes) != {} && !looks(0).offline ==>
        r.Some? && [r.value] == Picks(old(nodeList.list), old(nodeList.rr), 1)
    {
      if mode != Primary {
        lastUuid := Turn(mode, draws(0, |nodeList.list|));
      }
      r, seen := CheckNode(mode, looks, draws);
    }

    /** removeOfflineNodes over the nodes in some order. */
    method RemoveOfflineNodes(keep: string, force: bool, ignoreClientGrace: bool, clientGrace: bool,
                              order: seq<string>, look: string -> Sweep) returns (removed: nat)
      requires Valid() && (forall u :: u in order <==> u in nodes)
      modifies this, nodeList
      ensures Valid()
      ensures !force && !ignoreClientGrace && clientGrace ==> nodes == old(nodes) && removed == 0
      ensures force || ignoreClientGrace || !clientGrace ==>
        nodes == set u | u in old(nodes) && (u == keep || !Swept(look(u), force) || look(u).backOnline)
      ensures removed == |old(nodes)| - |nodes|
    {
      removed := 0;
      if !force && !ignoreClientGrace && clientGrace {
        return;
      }
      var toRemove := Offline(keep, force, order, look);
      removed := Prune(toRemove, look);
    }

    method Prune(doomed: seq<string>, look: string -> Sweep) returns (removed: nat)
      requires Valid()
      modifies this, nodeList
      ensures Valid() && nodes == Survivors(old(nodes), doomed, look)
      ensures removed == |old(nodes)| - |nodes|
    {
      removed := 0;
      for k := 0 to |doomed|
        invariant Valid() && nodes == Survivors(old(nodes), doomed[..k], look)
        invariant removed == |old(nodes)| - |nodes|
      {
        SurvivorsMore(old(nodes), doomed, k, look);
        if doomed[k] in nodes && !look(doomed[k]).backOnline {
          OneLess(nodes, doomed[k]);
          RemoveNode(doomed[k]);
          removed := removed + 1;
        }
      }
      assert doomed[..|doomed|] == doomed;
    }
  }
}
