/** The propagation closure of a node: what deleting it with propagation takes along
    (cvcdocdb/networkx_graph.py, deleteNode and get_subdocuments). */
module Propagation {
  import opened Values
  import opened StoreIndexes

  type Edges = map<EdgeKey, Attrs>

  /** Does deleting the source delete the target? A relation propagates by its own flag, and all
      relations of a node in `strong` do (a node whose own `_propagate` is set). */
  predicate Propagates(edges: Edges, strong: set<NodeId>, e: EdgeKey) {
    e in edges && (Truthy(Get(edges[e], "_propagate")) || e.0 in strong)
  }

  ghost predicate Closed(edges: Edges, strong: set<NodeId>, ids: set<NodeId>) {
    forall e | e in edges && e.0 in ids && Propagates(edges, strong, e) :: e.1 in ids
  }

  /** Every set that contains `root` and is closed under propagation contains `id`. */
  ghost predicate Reaches(edges: Edges, strong: set<NodeId>, root: NodeId, id: NodeId) {
    forall ids: set<NodeId> | root in ids && Closed(edges, strong, ids) :: id in ids
  }

  ghost function Closure(edges: Edges, strong: set<NodeId>, root: NodeId): set<NodeId> {
    set id | id in {root} + (set e | e in edges :: e.1) && Reaches(edges, strong, root, id)
  }

  lemma ClosureIsClosed(edges: Edges, strong: set<NodeId>, root: NodeId)
    ensures root in Closure(edges, strong, root) && Closed(edges, strong, Closure(edges, strong, root))
  {
    var c := Closure(edges, strong, root);
    forall e | e in edges && e.0 in c && Propagates(edges, strong, e) ensures e.1 in c {
      forall ids: set<NodeId> | root in ids && Closed(edges, strong, ids) ensures e.1 in ids {
        assert e.0 in ids;
      }
    }
  }

  lemma ClosureIsLeast(edges: Edges, strong: set<NodeId>, root: NodeId, ids: set<NodeId>)
    requires root in ids && Closed(edges, strong, ids)
    ensures Closure(edges, strong, root) <= ids
  {
    forall id | id in Closure(edges, strong, root) ensures id in ids {
      assert Reaches(edges, strong, root, id);
    }
  }

  /** Everything in a closure but its root was reached from inside it. */
  lemma Predecessor(edges: Edges, strong: set<NodeId>, root: NodeId, id: NodeId) returns (e: EdgeKey)
    requires id in Closure(edges, strong, root) && id != root
    ensures Propagates(edges, strong, e) && e.1 == id && e.0 in Closure(edges, strong, root) && e.0 != id
  {
    var c := Closure(edges, strong, root);
    ClosureIsClosed(edges, strong, root);
    if forall f | f in edges && f.1 == id && f.0 in c && Propagates(edges, strong, f) :: f.0 == id {
      ClosureIsLeast(edges, strong, root, c - {id});
      assert false;
    }
    e :| e in edges && e.1 == id && e.0 in c && Propagates(edges, strong, e) && e.0 != id;
  }

  /** The hierarchies on which the recursive delete is defined: inside the closure nothing points
      at the root, and nothing has two predecessors. */
  ghost predicate Hierarchy(edges: Edges, strong: set<NodeId>, root: NodeId) {
    var c := Closure(edges, strong, root);
    && (forall e | e in edges && e.1 == root :: e.0 !in c)
    && (forall e, f | e in edges && f in edges && e.1 == f.1 && e.1 in c && e.0 in c && f.0 in c :: e.0 == f.0)
  }

  /** `child` is a child of `root`: its closure lies below the root and is a hierarchy again. */
  lemma ChildClosure(edges: Edges, strong: set<NodeId>, root: NodeId, child: NodeId, e: EdgeKey)
    requires strong <= {root} && Hierarchy(edges, strong, root)
    requires Propagates(edges, strong, e) && e.0 == root && e.1 == child
    ensures Closure(edges, {}, child) <= Closure(edges, strong, root) - {root}
    ensures Hierarchy(edges, {}, child)
  {
    var c := Closure(edges, strong, root);
    ClosureIsClosed(edges, strong, root);
    ClosureIsLeast(edges, {}, child, c - {root});
    var d := Closure(edges, {}, child);
    forall f | f in edges && f.1 == child && f.0 in c ensures f.0 !in d { assert f.0 == root; }
  }

  /** A node that the root points at lies in the closure of no other child. */
  lemma NotBelowSibling(edges: Edges, strong: set<NodeId>, root: NodeId, child: NodeId, e: EdgeKey, other: NodeId, f: EdgeKey)
    requires strong <= {root} && Hierarchy(edges, strong, root)
    requires Propagates(edges, strong, e) && e.0 == root && e.1 == child
    requires f in edges && f.0 == root && f.1 == other && other != child
    ensures other !in Closure(edges, {}, child)
  {
    ChildClosure(edges, strong, root, child, e);
    ClosureIsClosed(edges, strong, root);
    if other in Closure(edges, {}, child) {
      var g := Predecessor(edges, {}, child, other);
    }
  }

  lemma SiblingsDisjoint(edges: Edges, strong: set<NodeId>, root: NodeId, a: NodeId, e: EdgeKey, b: NodeId, f: EdgeKey)
    requires strong <= {root} && Hierarchy(edges, strong, root) && a != b
    requires Propagates(edges, strong, e) && e.0 == root && e.1 == a
    requires Propagates(edges, strong, f) && f.0 == root && f.1 == b
    ensures Closure(edges, {}, a) !! Closure(edges, {}, b)
  {
    var ca, cb := Closure(edges, {}, a), Closure(edges, {}, b);
    ChildClosure(edges, strong, root, a, e);
    ChildClosure(edges, strong, root, b, f);
    NotBelowSibling(edges, strong, root, b, f, a, e);
    ClosureIsClosed(edges, {}, a);
    ClosureIsClosed(edges, {}, b);
    forall g | g in edges && g.0 in ca - cb && Propagates(edges, {}, g) ensures g.1 in ca - cb {
      if g.1 in cb {
        BelowTwice(edges, strong, root, b, f, cb, g);
      }
    }
    ClosureIsLeast(edges, {}, a, ca - cb);
  }

  /** A relation into a child's closure from elsewhere in the hierarchy starts inside it. */
  lemma BelowTwice(edges: Edges, strong: set<NodeId>, root: NodeId, b: NodeId, f: EdgeKey, cb: set<NodeId>, g: EdgeKey)
    requires strong <= {root} && Hierarchy(edges, strong, root)
    requires Propagates(edges, strong, f) && f.0 == root && f.1 == b && cb == Closure(edges, {}, b)
    requires g in edges && g.1 in cb && g.0 in Closure(edges, strong, root)
    ensures g.0 in cb || g.0 == root
  {
    ChildClosure(edges, strong, root, b, f);
    ClosureIsClosed(edges, strong, root);
    if g.1 != b {
      var h := Predecessor(edges, {}, b, g.1);
    }
  }

  /** Removing nodes outside a closure, and their relations, leaves the closure as it is. */
  lemma ClosureUntouched(edges: Edges, gone: set<NodeId>, root: NodeId)
    requires Closure(edges, {}, root) !! gone
    ensures Closure(EdgesWithout(edges, gone), {}, root) == Closure(edges, {}, root)
    ensures Hierarchy(edges, {}, root) ==> Hierarchy(EdgesWithout(edges, gone), {}, root)
  {
    var less := EdgesWithout(edges, gone);
    var c, d := Closure(edges, {}, root), Closure(less, {}, root);
    ClosureIsClosed(edges, {}, root);
    ClosureIsClosed(less, {}, root);
    ClosureIsLeast(less, {}, root, c);
    forall e | e in edges && e.0 in d && Propagates(edges, {}, e) ensures e.1 in d {
      assert e.0 in c && e.1 in c;
      assert e in less && Propagates(less, {}, e);
    }
    ClosureIsLeast(edges, {}, root, d);
  }

  /** The closure of a hierarchy is its root and the closures of the root's children. */
  lemma ClosureOfChildren(edges: Edges, strong: set<NodeId>, root: NodeId, below: set<NodeId>)
    requires strong <= {root} && Hierarchy(edges, strong, root)
    requires forall e | Propagates(edges, strong, e) && e.0 == root :: Closure(edges, {}, e.1) <= below
    requires forall id | id in below :: exists e :: Propagates(edges, strong, e) && e.0 == root && id in Closure(edges, {}, e.1)
    ensures Closure(edges, strong, root) == {root} + below && root !in below
  {
    var c := Closure(edges, strong, root);
    hide Closure, Hierarchy;
    ClosureIsClosed(edges, strong, root);
    forall id | id in below ensures id in c - {root} {
      var e :| Propagates(edges, strong, e) && e.0 == root && id in Closure(edges, {}, e.1);
      ChildClosure(edges, strong, root, e.1, e);
    }
    forall f | f in edges && f.0 in {root} + below && Propagates(edges, strong, f) ensures f.1 in {root} + below {
      if f.0 == root {
        ClosureIsClosed(edges, {}, f.1);
      } else {
        var e :| Propagates(edges, strong, e) && e.0 == root && f.0 in Closure(edges, {}, e.1);
        ClosureIsClosed(edges, {}, e.1);
        assert Propagates(edges, {}, f);
      }
    }
    ClosureIsLeast(edges, strong, root, {root} + below);
  }

  lemma RootIsNoChild(edges: Edges, strong: set<NodeId>, root: NodeId, e: EdgeKey)
    requires strong <= {root} && Hierarchy(edges, strong, root) && Propagates(edges, strong, e) && e.0 == root
    ensures root !in Closure(edges, {}, e.1)
  {
    ChildClosure(edges, strong, root, e.1, e);
  }

  // --- Deleting the children one after the other ---------------------------

  /** `below` is what the children in `done` take along. */
  ghost predicate Collected(edges: Edges, strong: set<NodeId>, root: NodeId, done: set<NodeId>, below: set<NodeId>) {
    && (forall e | e in edges && Propagates(edges, strong, e) && e.0 == root && e.1 in done :: Closure(edges, {}, e.1) <= below)
    && (forall id | id in below ::
          exists e :: e in edges && Propagates(edges, strong, e) && e.0 == root && e.1 in done && id in Closure(edges, {}, e.1))
  }

  lemma NothingCollected(edges: Edges, strong: set<NodeId>, root: NodeId)
    ensures Collected(edges, strong, root, {}, {})
  {
  }

  /** The relations from `root` to `other` that propagate. */
  function Links(edges: Edges, strong: set<NodeId>, root: NodeId, other: NodeId): set<EdgeKey> {
    set e | e in edges && e.0 == root && e.1 == other && Propagates(edges, strong, e)
  }

  /** A neighbour not yet looked at is still there, with its relations. */
  lemma NeighborRemains(edges: Edges, strong: set<NodeId>, root: NodeId, done: set<NodeId>, below: set<NodeId>, f: EdgeKey)
    requires strong <= {root} && Hierarchy(edges, strong, root) && Collected(edges, strong, root, done, below)
    requires f in edges && f.0 == root && f.1 !in done
    ensures root !in below && f.1 !in below
    ensures Links(EdgesWithout(edges, below), strong, root, f.1) == Links(edges, strong, root, f.1)
  {
    LinksRemain(edges, strong, root, below, f.1);
    hide Hierarchy, Propagates;
    forall id | id in below ensures id != root && id != f.1 {
      var e :| e in edges && Propagates(edges, strong, e) && e.0 == root && e.1 in done && id in Closure(edges, {}, e.1);
      ChildClosure(edges, strong, root, e.1, e);
      NotBelowSibling(edges, strong, root, e.1, e, f.1, f);
    }
  }

  lemma LinkIsEdge(edges: Edges, strong: set<NodeId>, root: NodeId, other: NodeId, e: EdgeKey)
    requires e in Links(edges, strong, root, other)
    ensures e in edges && e.0 == root && e.1 == other && Propagates(edges, strong, e)
  {
  }

  lemma LinksRemain(edges: Edges, strong: set<NodeId>, root: NodeId, below: set<NodeId>, other: NodeId)
    ensures root !in below && other !in below ==>
              Links(EdgesWithout(edges, below), strong, root, other) == Links(edges, strong, root, other)
  {
  }

  /** A child not yet deleted still has its whole closure, and it is a smaller hierarchy. */
  lemma ChildRemains(edges: Edges, strong: set<NodeId>, root: NodeId, done: set<NodeId>, below: set<NodeId>, f: EdgeKey)
    requires strong <= {root} && Hierarchy(edges, strong, root) && Collected(edges, strong, root, done, below)
    requires f in edges && Propagates(edges, strong, f) && f.0 == root && f.1 !in done
    ensures Closure(EdgesWithout(edges, below), {}, f.1) == Closure(edges, {}, f.1)
    ensures Hierarchy(EdgesWithout(edges, below), {}, f.1)
    ensures |Closure(edges, {}, f.1)| < |Closure(edges, strong, root)|
  {
    hide Hierarchy, Propagates, Closure;
    forall id | id in below ensures id !in Closure(edges, {}, f.1) {
      var e :| e in edges && Propagates(edges, strong, e) && e.0 == root && e.1 in done && id in Closure(edges, {}, e.1);
      SiblingsDisjoint(edges, strong, root, e.1, e, f.1, f);
    }
    ClosureUntouched(edges, below, f.1);
    ChildClosure(edges, strong, root, f.1, f);
    ClosureIsClosed(edges, strong, root);
    Smaller(Closure(edges, {}, f.1), Closure(edges, strong, root), root);
  }

  lemma Smaller(a: set<NodeId>, b: set<NodeId>, x: NodeId)
    requires a <= b - {x} && x in b
    ensures |a| < |b|
  {
    var rest := (b - {x}) - a;
    assert b - {x} == a + rest && a !! rest;
    assert |b - {x}| == |a| + |rest|;
  }

  lemma CollectChild(edges: Edges, strong: set<NodeId>, root: NodeId, done: set<NodeId>, below: set<NodeId>, f: EdgeKey)
    requires Collected(edges, strong, root, done, below)
    requires f in edges && Propagates(edges, strong, f) && f.0 == root
    ensures Collected(edges, strong, root, done + {f.1}, below + Closure(edges, {}, f.1))
  {
    hide Closure, Propagates;
  }

  lemma CollectOther(edges: Edges, strong: set<NodeId>, root: NodeId, done: set<NodeId>, below: set<NodeId>, other: NodeId)
    requires Collected(edges, strong, root, done, below)
    requires Links(edges, strong, root, other) == {}
    ensures Collected(edges, strong, root, done + {other}, below)
  {
    forall e | e in edges && e.0 == root && e.1 == other ensures !Propagates(edges, strong, e) {
      assert e !in Links(edges, strong, root, other);
    }
    hide Closure, Propagates;
  }

  lemma CollectedAll(edges: Edges, strong: set<NodeId>, root: NodeId, done: set<NodeId>, below: set<NodeId>)
    requires strong <= {root} && Hierarchy(edges, strong, root) && Collected(edges, strong, root, done, below)
    requires forall e | e in edges && e.0 == root :: e.1 in done
    ensures Closure(edges, strong, root) - {root} == below
  {
    hide Hierarchy, Closure;
    ClosureOfChildren(edges, strong, root, below);
  }

  // --- Breadth-first search ------------------------------------------------

  /** `documents` lists `ids`, each once. */
  ghost predicate Listed(documents: seq<NodeId>, ids: set<NodeId>) {
    && (forall i, j | 0 <= i < j < |documents| :: documents[i] != documents[j])
    && (set i | 0 <= i < |documents| :: documents[i]) == ids
  }

  lemma ListedAppend(documents: seq<NodeId>, ids: set<NodeId>, found: seq<NodeId>, gained: set<NodeId>)
    requires Listed(documents, ids) && Listed(found, gained) && ids !! gained
    ensures Listed(documents + found, ids + gained)
  {
    var more := documents + found;
    assert forall i | 0 <= i < |documents| :: documents[i] in ids;
    assert forall i | 0 <= i < |found| :: found[i] in gained;
    forall x | x in ids + gained ensures x in set i | 0 <= i < |more| :: more[i] {
      if x in ids {
        var i :| 0 <= i < |documents| && documents[i] == x;
        assert more[i] == x;
      } else {
        var i :| 0 <= i < |found| && found[i] == x;
        assert more[|documents| + i] == x;
      }
    }
  }

  /** The search so far: what was seen is reachable, and only queued nodes still have children unseen. */
  ghost predicate Searching(edges: Edges, root: NodeId, seen: set<NodeId>, queue: seq<NodeId>, documents: seq<NodeId>) {
    && root in seen && seen <= Closure(edges, {}, root)
    && (forall i | 0 <= i < |queue| :: queue[i] in seen)
    && (forall e | e in edges && Propagates(edges, {}, e) && e.0 in seen && e.0 !in queue :: e.1 in seen)
    && Listed(documents, seen - {root})
  }

  function Ids(found: seq<NodeId>): set<NodeId> {
    set i | 0 <= i < |found| :: found[i]
  }

  /** `found` lists the children of `current` not yet seen. */
  ghost predicate Children(edges: Edges, current: NodeId, seen: set<NodeId>, found: seq<NodeId>) {
    && (forall i, j | 0 <= i < j < |found| :: found[i] != found[j])
    && (forall i | 0 <= i < |found| :: found[i] !in seen && Links(edges, {}, current, found[i]) != {})
    && (forall e | e in edges && e.0 == current && Propagates(edges, {}, e) :: e.1 in seen || e.1 in found)
  }

  lemma SearchStart(edges: Edges, root: NodeId)
    ensures Searching(edges, root, {root}, [root], [])
  {
    ClosureIsClosed(edges, {}, root);
  }

  lemma FoundIsReachable(edges: Edges, root: NodeId, seen: set<NodeId>, queue: seq<NodeId>, documents: seq<NodeId>, found: seq<NodeId>)
    requires Searching(edges, root, seen, queue, documents) && queue != []
    requires Children(edges, queue[0], seen, found)
    ensures Ids(found) <= Closure(edges, {}, root) && Ids(found) !! seen && Listed(found, Ids(found))
  {
    ClosureIsClosed(edges, {}, root);
    forall id | id in Ids(found) ensures id in Closure(edges, {}, root) {
      var e :| e in Links(edges, {}, queue[0], id);
      LinkIsEdge(edges, {}, queue[0], id, e);
      assert queue[0] in seen;
    }
  }

  lemma FrontierMoves(edges: Edges, seen: set<NodeId>, queue: seq<NodeId>, found: seq<NodeId>, e: EdgeKey)
    requires queue != [] && Children(edges, queue[0], seen, found)
    requires e in edges && Propagates(edges, {}, e) && e.0 in seen + Ids(found) && e.0 !in queue[1..] + found
    requires e.0 in seen && e.0 !in queue ==> e.1 in seen
    ensures e.1 in seen + Ids(found)
  {
    assert forall id | id in found :: id in queue[1..] + found;
    assert forall id | id in queue :: id == queue[0] || id in queue[1..];
    assert forall id | id in queue[1..] :: id in queue[1..] + found;
  }

  lemma QueueSeen(seen: set<NodeId>, queue: seq<NodeId>, found: seq<NodeId>)
    requires queue != [] && forall i | 0 <= i < |queue| :: queue[i] in seen
    ensures var next := queue[1..] + found; forall i | 0 <= i < |next| :: next[i] in seen + Ids(found)
  {
    var next := queue[1..] + found;
    forall i | 0 <= i < |next| ensures next[i] in seen + Ids(found) {
      if i < |queue| - 1 { assert next[i] == queue[i + 1]; } else { assert next[i] == found[i - (|queue| - 1)]; }
    }
  }

  lemma SearchStep(edges: Edges, root: NodeId, seen: set<NodeId>, queue: seq<NodeId>, documents: seq<NodeId>, found: seq<NodeId>)
    requires Searching(edges, root, seen, queue, documents) && queue != []
    requires Children(edges, queue[0], seen, found)
    ensures Searching(edges, root, seen + Ids(found), queue[1..] + found, documents + found)
    ensures found == [] || |Closure(edges, {}, root) - (seen + Ids(found))| < |Closure(edges, {}, root) - seen|
  {
    FoundIsReachable(edges, root, seen, queue, documents, found);
    hide Closure, Listed, Links, Propagates, Children;
    var after := seen + Ids(found);
    ListedAppend(documents, seen - {root}, found, Ids(found));
    assert after - {root} == (seen - {root}) + Ids(found);
    var next := queue[1..] + found;
    forall e | e in edges && Propagates(edges, {}, e) && e.0 in after && e.0 !in next ensures e.1 in after {
      FrontierMoves(edges, seen, queue, found, e);
    }
    QueueSeen(seen, queue, found);
    if found != [] {
      assert found[0] in Ids(found);
      FewerLeft(Closure(edges, {}, root), seen, after);
    }
  }

  lemma SearchEnd(edges: Edges, root: NodeId, seen: set<NodeId>, documents: seq<NodeId>)
    requires Searching(edges, root, seen, [], documents)
    ensures Listed(documents, Closure(edges, {}, root) - {root})
  {
    ClosureIsLeast(edges, {}, root, seen);
  }

  lemma FewerLeft(closure: set<NodeId>, before: set<NodeId>, after: set<NodeId>)
    requires before <= after <= closure && before != after
    ensures |closure - after| < |closure - before|
  {
    var gained := after - before;
    assert closure - before == (closure - after) + gained;
    assert gained != {};
  }

  // --- Flags ---------------------------------------------------------------

  /** The relations `get_subdocuments` follows: those whose flag is exactly true. */
  function Flagged(edges: Edges): Edges {
    map e | e in edges && Get(edges[e], "_propagate") == Bool(true) :: edges[e]
  }

  /** With boolean flags, what `get_subdocuments` follows is what the delete follows. */
  lemma FlaggedClosure(edges: Edges, root: NodeId)
    requires forall e | e in edges :: Get(edges[e], "_propagate").Null? || Get(edges[e], "_propagate").Bool?
    ensures Closure(Flagged(edges), {}, root) == Closure(edges, {}, root)
  {
    var flagged := Flagged(edges);
    forall e | e in edges ensures Propagates(flagged, {}, e) <==> Propagates(edges, {}, e) { }
    ClosureIsClosed(edges, {}, root);
    ClosureIsClosed(flagged, {}, root);
    ClosureIsLeast(flagged, {}, root, Closure(edges, {}, root));
    ClosureIsLeast(edges, {}, root, Closure(flagged, {}, root));
  }

  /** With boolean flags, a propagating delete of a node that does not propagate by itself takes
      exactly the node and what `get_subdocuments` lists. */
  lemma SubdocumentsAreDeleted(before: Store, after: Store, root: NodeId, documents: seq<NodeId>)
    requires forall e | e in before.edgeAttrs ::
      Get(before.edgeAttrs[e], "_propagate").Null? || Get(before.edgeAttrs[e], "_propagate").Bool?
    requires Listed(documents, Closure(Flagged(before.edgeAttrs), {}, root) - {root})
    requires Deleted(before, after, Closure(before.edgeAttrs, {}, root))
    ensures forall n :: n in after.nodeAttrs <==> n in before.nodeAttrs && n != root && n !in documents
  {
    FlaggedClosure(before.edgeAttrs, root);
    var closure := Closure(before.edgeAttrs, {}, root);
    ClosureIsClosed(before.edgeAttrs, {}, root);
    hide Closure;
    forall n ensures n in documents <==> n in closure - {root} {
      assert n in (set i | 0 <= i < |documents| :: documents[i]) <==> n in documents;
    }
  }
}
