/** The persistent tree of reversed domain labels. */
module DomainTrie {
  import opened Common

  type Label = string
  /** Labels from the top-level domain down. */
  type Path = seq<Label>

  datatype Node = Node(children: map<Label, Node>, ids: set<int>)

  const EMPTY: Node := Node(map[], {})

  /** node.cloneAdd. */
  function CloneAdd(n: Node, parts: Path, id: int): Node
    decreases |parts|
  {
    if parts == [] then n.(ids := n.ids + {id})
    else
      var child := if parts[0] in n.children then n.children[parts[0]] else EMPTY;
      n.(children := n.children[parts[0] := CloneAdd(child, parts[1..], id)])
  }

  function Prune(n: Node): Option<Node> {
    if n.ids == {} && n.children == map[] then None else Some(n)
  }

  /** node.cloneRemove; None is a node that became empty. */
  function CloneRemove(n: Node, parts: Path, id: int): Option<Node>
    decreases |parts|
  {
    if parts == [] then Prune(n.(ids := n.ids - {id}))
    else if parts[0] !in n.children then Prune(n)
    else
      match CloneRemove(n.children[parts[0]], parts[1..], id)
      case None => Prune(n.(children := n.children - {parts[0]}))
      case Some(child) => Prune(n.(children := n.children[parts[0] := child]))
  }

  /** DomainTree.CloneRemove: an emptied tree is a new one. */
  function RemoveFrom(root: Node, parts: Path, id: int): Node {
    match CloneRemove(root, parts, id)
    case None => EMPTY
    case Some(n) => n
  }

  /** DomainTree.lookup. */
  function Lookup(n: Node, parts: Path): set<int>
    decreases |parts|
  {
    n.ids + (if parts != [] && parts[0] in n.children then Lookup(n.children[parts[0]], parts[1..]) else {})
  }

  /** The pair (path, id) is stored. */
  predicate Has(n: Node, parts: Path, id: int)
    decreases |parts|
  {
    if parts == [] then id in n.ids
    else parts[0] in n.children && Has(n.children[parts[0]], parts[1..], id)
  }

  predicate HasIn(n: Option<Node>, parts: Path, id: int) {
    n.Some? && Has(n.value, parts, id)
  }

  /** DomainTree.Has walks the labels in a loop. */
  method HasPair(root: Node, parts: Path, id: int) returns (found: bool)
    ensures found == Has(root, parts, id)
  {
    var n := root;
    var i := 0;
    while i < |parts|
      invariant 0 <= i <= |parts|
      invariant Has(root, parts, id) == Has(n, parts[i..], id)
    {
      assert parts[i..][1..] == parts[i + 1..];
      if parts[i] !in n.children {
        return false;
      }
      n := n.children[parts[i]];
      i := i + 1;
    }
    return id in n.ids;
  }

  // The tree as a set of pairs.

  lemma EmptyHasNothing(parts: Path, id: int)
    ensures !Has(EMPTY, parts, id)
  {
  }

  /** Adding changes exactly one pair. */
  lemma {:induction false} AddExact(n: Node, parts: Path, id: int, q: Path, j: int)
    ensures Has(CloneAdd(n, parts, id), q, j) <==> Has(n, q, j) || (q == parts && j == id)
    decreases |parts|
  {
    if parts != [] && q != [] && parts[0] == q[0] {
      var child := if parts[0] in n.children then n.children[parts[0]] else EMPTY;
      AddExact(child, parts[1..], id, q[1..], j);
      EmptyHasNothing(q[1..], j);
      assert q == parts <==> q[1..] == parts[1..];
    }
  }

  /** Removing changes exactly one pair. */
  lemma {:induction false} RemoveExact(n: Node, parts: Path, id: int, q: Path, j: int)
    ensures HasIn(CloneRemove(n, parts, id), q, j) <==> Has(n, q, j) && !(q == parts && j == id)
    decreases |parts|
  {
    if parts == [] {
      PruneHas(n.(ids := n.ids - {id}), q, j);
    } else if parts[0] !in n.children {
      PruneHas(n, q, j);
    } else {
      var rest := CloneRemove(n.children[parts[0]], parts[1..], id);
      var left := if rest.None? then n.children - {parts[0]} else n.children[parts[0] := rest.value];
      PruneHas(n.(children := left), q, j);
      if q != [] && parts[0] == q[0] {
        RemoveExact(n.children[parts[0]], parts[1..], id, q[1..], j);
        assert q == parts <==> q[1..] == parts[1..];
      }
    }
  }

  lemma PruneHas(n: Node, q: Path, j: int)
    ensures HasIn(Prune(n), q, j) <==> Has(n, q, j)
  {
  }

  lemma RemoveFromExact(root: Node, parts: Path, id: int, q: Path, j: int)
    ensures Has(RemoveFrom(root, parts, id), q, j) <==> Has(root, q, j) && !(q == parts && j == id)
  {
    RemoveExact(root, parts, id, q, j);
    EmptyHasNothing(q, j);
  }

  /** Lookup returns exactly the ids stored at a prefix of the query. */
  lemma {:induction false} LookupExact(n: Node, q: Path, id: int)
    ensures id in Lookup(n, q) <==> exists k :: 0 <= k <= |q| && Has(n, q[..k], id)
    decreases |q|
  {
    assert q[..0] == [];
    assert Has(n, q[..0], id) <==> id in n.ids;
    if q != [] && q[0] in n.children {
      var child := n.children[q[0]];
      LookupExact(child, q[1..], id);
      forall k | 1 <= k <= |q| ensures Has(n, q[..k], id) <==> Has(child, q[1..][..k - 1], id) {
        assert q[..k][1..] == q[1..][..k - 1];
      }
      if id in Lookup(child, q[1..]) {
        var k :| 0 <= k <= |q| - 1 && Has(child, q[1..][..k], id);
        assert Has(n, q[..k + 1], id);
      }
    } else {
      forall k | 1 <= k <= |q| ensures !Has(n, q[..k], id) {
        assert q[..k][0] == q[0];
      }
    }
  }

  lemma LookupIsPrefixes(n: Node, q: Path, p: Path, id: int)
    requires Has(n, p, id) && p <= q
    ensures id in Lookup(n, q)
  {
    LookupExact(n, q, id);
    assert q[..|p|] == p;
  }

  // Canonical trees.

  /** No node below the root is empty. */
  predicate Canonical(n: Node) {
    forall k :: k in n.children ==> Prune(n.children[k]).Some? && Canonical(n.children[k])
  }

  lemma {:induction false} AddCanonical(n: Node, parts: Path, id: int)
    requires Canonical(n)
    ensures Canonical(CloneAdd(n, parts, id)) && Prune(CloneAdd(n, parts, id)).Some?
    decreases |parts|
  {
    if parts == [] {
      assert id in CloneAdd(n, parts, id).ids;
    } else {
      var child := if parts[0] in n.children then n.children[parts[0]] else EMPTY;
      AddCanonical(child, parts[1..], id);
      assert parts[0] in CloneAdd(n, parts, id).children;
    }
  }

  lemma {:induction false} RemoveCanonical(n: Node, parts: Path, id: int)
    requires Canonical(n)
    ensures CloneRemove(n, parts, id).Some? ==>
      Canonical(CloneRemove(n, parts, id).value) && Prune(CloneRemove(n, parts, id).value).Some?
    decreases |parts|
  {
    if parts != [] && parts[0] in n.children {
      RemoveCanonical(n.children[parts[0]], parts[1..], id);
    }
  }

  lemma RemoveFromCanonical(root: Node, parts: Path, id: int)
    requires Canonical(root)
    ensures Canonical(RemoveFrom(root, parts, id))
  {
    RemoveCanonical(root, parts, id);
  }

  lemma SomeKey(m: map<Label, Node>) returns (k: Label)
    requires m != map[]
    ensures k in m
  {
    assert m.Keys != {};
    k :| k in m.Keys;
  }

  lemma SomeId(ids: set<int>) returns (id: int)
    requires ids != {}
    ensures id in ids
  {
    NoMembers(ids);
    id :| id in ids;
  }

  lemma NoMembers(ids: set<int>)
    ensures (forall i :: i !in ids) ==> ids == {}
  {
    if forall i :: i !in ids {
      assert ids == {};
    }
  }

  /** A non-empty canonical node holds some pair. */
  lemma {:induction false} SomePair(n: Node) returns (p: Path, id: int)
    requires Canonical(n) && Prune(n).Some?
    ensures Has(n, p, id)
    decreases n
  {
    if n.ids != {} {
      id := SomeId(n.ids);
      p := [];
    } else {
      var k := SomeKey(n.children);
      var rest, j := SomePair(n.children[k]);
      p, id := [k] + rest, j;
      assert p[1..] == rest;
    }
  }

  ghost predicate SamePairs(a: Node, b: Node) {
    forall p: Path, id: int :: Has(a, p, id) <==> Has(b, p, id)
  }

  lemma ChildPairs(a: Node, b: Node, k: Label)
    requires SamePairs(a, b) && k in a.children && k in b.children
    ensures SamePairs(a.children[k], b.children[k])
  {
    forall p: Path, id: int ensures Has(a.children[k], p, id) <==> Has(b.children[k], p, id) {
      assert ([k] + p)[1..] == p;
      assert Has(a, [k] + p, id) <==> Has(b, [k] + p, id);
    }
  }

  lemma KeysIncluded(a: Node, b: Node)
    requires Canonical(a) && SamePairs(a, b)
    ensures a.children.Keys <= b.children.Keys
  {
    forall k | k in a.children ensures k in b.children {
      var p, id := SomePair(a.children[k]);
      assert ([k] + p)[1..] == p;
      assert Has(a, [k] + p, id);
    }
  }

  /** Pruning keeps the tree canonical: the pairs determine the tree. */
  lemma {:induction false} PairsDetermineTree(a: Node, b: Node)
    requires Canonical(a) && Canonical(b) && SamePairs(a, b)
    ensures a == b
    decreases a
  {
    forall id ensures id in a.ids <==> id in b.ids {
      assert Has(a, [], id) <==> Has(b, [], id);
    }
    KeysIncluded(a, b);
    KeysIncluded(b, a);
    forall k | k in a.children ensures a.children[k] == b.children[k] {
      ChildPairs(a, b, k);
      PairsDetermineTree(a.children[k], b.children[k]);
    }
    assert a.children == b.children;
  }

  /** Removing a newly added pair restores the original tree. */
  lemma RemoveUndoesAdd(root: Node, parts: Path, id: int)
    requires Canonical(root) && !Has(root, parts, id)
    ensures RemoveFrom(CloneAdd(root, parts, id), parts, id) == root
  {
    var more := CloneAdd(root, parts, id);
    var back := RemoveFrom(more, parts, id);
    AddCanonical(root, parts, id);
    RemoveFromCanonical(more, parts, id);
    forall q: Path, j: int ensures Has(back, q, j) <==> Has(root, q, j) {
      AddExact(root, parts, id, q, j);
      RemoveFromExact(more, parts, id, q, j);
    }
    PairsDetermineTree(back, root);
  }

  /** Adding back a pair just removed restores the tree as well. */
  lemma AddUndoesRemove(root: Node, parts: Path, id: int)
    requires Canonical(root) && Has(root, parts, id)
    ensures CloneAdd(RemoveFrom(root, parts, id), parts, id) == root
  {
    var less := RemoveFrom(root, parts, id);
    var back := CloneAdd(less, parts, id);
    RemoveFromCanonical(root, parts, id);
    AddCanonical(less, parts, id);
    forall q: Path, j: int ensures Has(back, q, j) <==> Has(root, q, j) {
      RemoveFromExact(root, parts, id, q, j);
      AddExact(less, parts, id, q, j);
    }
    PairsDetermineTree(back, root);
  }
}
