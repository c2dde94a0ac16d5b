/** The in-memory store (cvcdocdb/networkx_graph.py, class NetworkXGraph): six structures that hold
    the same graph, updated in place. */
module NetworkXGraph {
  import opened Common
  import opened Values
  import opened StoreIndexes
  import opened Propagation
  import opened PropagationFlags
  import opened StoreArguments

  /** What deleting node `n` leaves, or why it is refused. */
  ghost predicate DeleteOutcome(before: Store, after: Store, n: NodeId, ownPropagate: bool, propagation: bool, detach: bool,
                                onDelete: OnDelete, r: Result<bool, StoreError>)
  {
    var below := if propagation then Closure(before.edgeAttrs, if ownPropagate then {n} else {}, n) - {n} else {};
    if onDelete.SetNull? || detach || Incident(n, EdgesWithout(before.edgeAttrs, below).Keys) == {}
    then r == Ok(true) && Deleted(before, after, below + {n})
    else r == Err(HasRelations(n)) && after == before
  }

  lemma OutcomeIs(before: Store, after: Store, n: NodeId, ownPropagate: bool, propagation: bool, detach: bool,
                  onDelete: OnDelete, d: Result<NodeId, StoreError>, r: Result<bool, StoreError>)
    requires var below := if propagation then Closure(before.edgeAttrs, if ownPropagate then {n} else {}, n) - {n} else {};
             if onDelete.SetNull? || detach || Incident(n, EdgesWithout(before.edgeAttrs, below).Keys) == {}
             then d == Ok(n) && Deleted(before, after, below + {n})
             else d == Err(HasRelations(n)) && after == before
    requires r == if d.Ok? then Ok(true) else Err(d.error)
    ensures DeleteOutcome(before, after, n, ownPropagate, propagation, detach, onDelete, r)
  {
    hide Closure, Deleted;
  }

  class Graph {
    var graphNodes: set<NodeId>
    var graphEdges: set<EdgeKey>
    var nodeAttrs: map<NodeId, Attrs>
    var edgeAttrs: map<EdgeKey, Attrs>
    var nodeCounter: nat
    var fkIndex: FkIndex
    var pkIndex: PkIndex
    var propertyIndex: PropIndex

    function View(): Store
      reads this
    {
      Store(graphNodes, graphEdges, nodeAttrs, edgeAttrs, nodeCounter, fkIndex, pkIndex, propertyIndex)
    }

    ghost predicate Valid()
      reads this
    {
      Consistent(View())
    }

    constructor ()
      ensures Valid() && View() == EMPTY_STORE
    {
      graphNodes, graphEdges, nodeAttrs, edgeAttrs := {}, {}, map[], map[];
      nodeCounter, fkIndex, pkIndex, propertyIndex := 0, map[], map[], map[];
    }

    /** `_restore`, and the reload of `_discard_unsaved_changes`. */
    method Restore(s: Store)
      modifies this
      ensures View() == s
    {
      graphNodes, graphEdges, nodeAttrs, edgeAttrs := s.graphNodes, s.graphEdges, s.nodeAttrs, s.edgeAttrs;
      nodeCounter, fkIndex, pkIndex, propertyIndex := s.nodeCounter, s.fkIndex, s.pkIndex, s.propertyIndex;
    }

    // --- Index maintenance -------------------------------------------------

    method AddToFkIndex(e: EdgeKey)
      modifies this`fkIndex
      ensures fkIndex == FkAdd(old(fkIndex), e)
    {
      fkIndex := fkIndex[e.0 := (if e.0 in fkIndex then fkIndex[e.0] else {}) + {(e.1, e.2, Out)}];
      fkIndex := fkIndex[e.1 := (if e.1 in fkIndex then fkIndex[e.1] else {}) + {(e.0, e.2, In)}];
    }

    method Discard(id: NodeId, entry: FkEntry)
      modifies this`fkIndex
      ensures fkIndex == FkDrop(old(fkIndex), id, entry)
    {
      if id in fkIndex {
        fkIndex := fkIndex[id := fkIndex[id] - {entry}];
        if fkIndex[id] == {} {
          fkIndex := fkIndex - {id};
        }
      }
    }

    method RemoveFromFkIndex(e: EdgeKey)
      modifies this`fkIndex
      ensures fkIndex == FkRemove(old(fkIndex), e)
    {
      Discard(e.0, (e.1, e.2, Out));
      Discard(e.1, (e.0, e.2, In));
    }

    /** `_index_node`: refuses a key that another node has. `nodes` is what the indexes covered before. */
    method IndexNode(id: NodeId, attrs: Attrs, ghost nodes: map<NodeId, Attrs>) returns (ok: bool)
      requires PkExact(pkIndex, nodes) && PropExact(propertyIndex, nodes) && id !in nodes
      modifies this`pkIndex, this`propertyIndex
      ensures ok <==> !KeyTaken(nodes, id, attrs)
      ensures ok ==> PkExact(pkIndex, nodes[id := attrs]) && PropExact(propertyIndex, nodes[id := attrs])
    {
      KeyFreeOrTaken(pkIndex, nodes, id, attrs);
      var key := KeyOf(attrs);
      if key.Some? {
        if key.value in pkIndex && pkIndex[key.value] != id { return false; }
        pkIndex := pkIndex[key.value := id];
      }
      PkPutExact(old(pkIndex), nodes, id, attrs);
      ghost var before, pkAfter := propertyIndex, pkIndex;
      var names := attrs.Keys - {"pk"};
      assert attrs.Keys - {"pk"} - names == {};
      while names != {}
        invariant names <= attrs.Keys - {"pk"} && pkIndex == pkAfter
        invariant PropEntered(propertyIndex, before, id, attrs, attrs.Keys - {"pk"} - names)
        decreases names
      {
        var name :| name in names;
        var k := KeyOfProp(name, attrs[name]);
        PropEnteredOne(propertyIndex, before, id, attrs, attrs.Keys - {"pk"} - names, name);
        assert attrs.Keys - {"pk"} - names + {name} == attrs.Keys - {"pk"} - (names - {name});
        propertyIndex := propertyIndex[k := (if k in propertyIndex then propertyIndex[k] else {}) + {id}];
        names := names - {name};
      }
      assert attrs.Keys - {"pk"} - {} == attrs.Keys - {"pk"};
      PropEnteredExact(propertyIndex, before, nodes, id, attrs);
      return true;
    }

    /** `_deindex_node`. */
    method DeindexNode(id: NodeId, attrs: Attrs, ghost nodes: map<NodeId, Attrs>)
      requires PkExact(pkIndex, nodes) && PropExact(propertyIndex, nodes) && id in nodes && nodes[id] == attrs
      modifies this`pkIndex, this`propertyIndex
      ensures PkExact(pkIndex, nodes - {id}) && PropExact(propertyIndex, nodes - {id})
    {
      var key := KeyOf(attrs);
      if key.Some? && key.value in pkIndex && pkIndex[key.value] == id {
        pkIndex := pkIndex - {key.value};
      }
      PkDropExact(old(pkIndex), nodes, id);
      ghost var before, pkAfter := propertyIndex, pkIndex;
      var names := attrs.Keys - {"pk"};
      assert attrs.Keys - {"pk"} - names == {};
      while names != {}
        invariant names <= attrs.Keys - {"pk"} && pkIndex == pkAfter
        invariant PropLeft(propertyIndex, before, id, attrs, attrs.Keys - {"pk"} - names)
        decreases names
      {
        var name :| name in names;
        var k := KeyOfProp(name, attrs[name]);
        PropLeftOne(propertyIndex, before, id, attrs, attrs.Keys - {"pk"} - names, name);
        assert attrs.Keys - {"pk"} - names + {name} == attrs.Keys - {"pk"} - (names - {name});
        if k in propertyIndex {
          propertyIndex := propertyIndex[k := propertyIndex[k] - {id}];
          if propertyIndex[k] == {} {
            propertyIndex := propertyIndex - {k};
          }
        }
        names := names - {name};
      }
      assert attrs.Keys - {"pk"} - {} == attrs.Keys - {"pk"};
      PropLeftExact(propertyIndex, before, nodes, id);
    }

    // --- Relations ---------------------------------------------------------

    method AddRelation(e: EdgeKey, attrs: Attrs)
      requires Valid() && e.0 in nodeAttrs && e.1 in nodeAttrs
      modifies this`graphEdges, this`edgeAttrs, this`fkIndex
      ensures Valid() && edgeAttrs == old(edgeAttrs)[e := attrs]
    {
      FkAddExact(fkIndex, edgeAttrs.Keys, e);
      graphEdges := graphEdges + {e};
      edgeAttrs := edgeAttrs[e := attrs];
      AddToFkIndex(e);
      assert edgeAttrs.Keys == old(edgeAttrs).Keys + {e};
    }

    /** Writes the attributes of a stored relation. */
    method SetRelation(e: EdgeKey, attrs: Attrs)
      requires Valid() && e in edgeAttrs
      modifies this`edgeAttrs
      ensures Valid() && edgeAttrs == old(edgeAttrs)[e := attrs]
    {
      edgeAttrs := edgeAttrs[e := attrs];
      assert edgeAttrs.Keys == old(edgeAttrs).Keys;
    }

    method RemoveRelation(e: EdgeKey)
      requires Valid()
      modifies this`graphEdges, this`edgeAttrs, this`fkIndex
      ensures Valid() && edgeAttrs == old(edgeAttrs) - {e}
    {
      FkRemoveExact(fkIndex, edgeAttrs.Keys, e);
      graphEdges := graphEdges - {e};
      edgeAttrs := edgeAttrs - {e};
      RemoveFromFkIndex(e);
      assert edgeAttrs.Keys == old(edgeAttrs).Keys - {e};
    }

    // --- Deleting one node -------------------------------------------------

    /** What deleting `id`, and only `id`, leaves. */
    ghost predicate Without(before: Store, id: NodeId)
      reads this
    {
      Deleted(before, View(), {id})
    }

    /** networkx `remove_node`: the node and its incident edges. */
    method RemoveGraphNode(id: NodeId)
      modifies this`graphNodes, this`graphEdges
      ensures graphNodes == old(graphNodes) - {id}
      ensures graphEdges == old(graphEdges) - Incident(id, old(graphEdges))
    {
      graphEdges := set e | e in graphEdges && e.0 != id && e.1 != id;
      graphNodes := graphNodes - {id};
    }

    /** Takes a node's attributes out, and out of the key and property indexes. */
    method PopNode(id: NodeId)
      requires PkExact(pkIndex, nodeAttrs) && PropExact(propertyIndex, nodeAttrs) && id in nodeAttrs
      modifies this`nodeAttrs, this`pkIndex, this`propertyIndex
      ensures nodeAttrs == old(nodeAttrs) - {id}
      ensures PkExact(pkIndex, nodeAttrs) && PropExact(propertyIndex, nodeAttrs)
    {
      var attrs := nodeAttrs[id];
      nodeAttrs := nodeAttrs - {id};
      DeindexNode(id, attrs, old(nodeAttrs));
    }

    /** The loop of `_cascade_delete`: walks the node's index entries, removing each relation and
        its mirror entry. */
    method UnlinkRelations(id: NodeId)
      requires FkExact(fkIndex, edgeAttrs.Keys) && graphEdges == edgeAttrs.Keys
      modifies this`graphEdges, this`edgeAttrs, this`fkIndex
      ensures graphEdges == edgeAttrs.Keys && edgeAttrs == EdgesWithout(old(edgeAttrs), {id})
      ensures FkExact(fkIndex, edgeAttrs.Keys)
    {
      hide UnlinkedFrom, FkExact, FkWithout, FkDrop;
      ghost var fk, edges := fkIndex, edgeAttrs;
      UnlinkedStart(fk, edges.Keys, id);
      var entries := if id in fkIndex then fkIndex[id] else {};
      var rest := entries;
      assert entries - rest == {};
      while rest != {}
        invariant rest <= entries && graphEdges == edgeAttrs.Keys
        invariant edgeAttrs == edges - EdgesOf(id, entries - rest)
        invariant UnlinkedFrom(fkIndex, fk, id, entries - rest)
        decreases rest
      {
        var entry :| entry in rest;
        var e := EdgeOf(id, entry);
        ghost var done := entries - rest;
        if e in graphEdges {
          graphEdges := graphEdges - {e};
          edgeAttrs := edgeAttrs - {e};
        }
        UnlinkOne(fkIndex, fk, id, done, entry);
        Discard(entry.0, Mirror(id, entry));
        rest := rest - {entry};
        assert entries - rest == done + {entry};
        assert EdgesOf(id, done + {entry}) == EdgesOf(id, done) + {e};
      }
      assert entries - rest == entries;
      EntriesAreIncident(fk, edges.Keys, id, entries);
      UnlinkedAll(fkIndex, fk, edges.Keys, id, entries);
      fkIndex := fkIndex - {id};
      FkWithoutExact(fkIndex, id, fk, edges.Keys);
      EdgesWithoutOne(edges, id);
    }

    /** `_cascade_delete` and the removal after it. */
    method CascadeDelete(id: NodeId)
      requires Valid() && id in nodeAttrs
      modifies this
      ensures Without(old(View()), id)
    {
      UnlinkRelations(id);
      PopNode(id);
      RemoveGraphNode(id);
    }

    /** `_clean_fk_index`. A self-loop makes the code change the set it iterates over, so there must
        be none. */
    method CleanFkIndex(id: NodeId)
      requires FkExact(fkIndex, edgeAttrs.Keys)
      requires forall k :: (id, id, k) !in edgeAttrs
      modifies this`fkIndex
      ensures FkExact(fkIndex, edgeAttrs.Keys - Incident(id, edgeAttrs.Keys))
    {
      hide UnlinkedFrom, FkExact, FkWithout, FkDrop;
      ghost var before := fkIndex;
      UnlinkedStart(before, edgeAttrs.Keys, id);
      var entries := if id in fkIndex then fkIndex[id] else {};
      var rest := entries;
      assert entries - rest == {};
      while rest != {}
        invariant rest <= entries
        invariant UnlinkedFrom(fkIndex, before, id, entries - rest)
        decreases rest
      {
        var entry :| entry in rest;
        ghost var done := entries - rest;
        UnlinkOne(fkIndex, before, id, done, entry);
        Discard(entry.0, Mirror(id, entry));
        rest := rest - {entry};
        assert entries - rest == done + {entry};
      }
      assert entries - rest == entries;
      EntriesAreIncident(before, edgeAttrs.Keys, id, entries);
      UnlinkedAll(fkIndex, before, edgeAttrs.Keys, id, entries);
      fkIndex := fkIndex - {id};
      FkWithoutExact(fkIndex, id, before, edgeAttrs.Keys);
    }

    /** `_set_null_delete` and the removal after it: scans all relations. */
    method SetNullDelete(id: NodeId)
      requires Valid() && id in nodeAttrs
      requires forall k :: (id, id, k) !in edgeAttrs
      modifies this
      ensures Without(old(View()), id)
    {
      hide FkExact, PkExact, PropExact;
      EdgesWithoutOne(edgeAttrs, id);
      CleanFkIndex(id);
      PopNode(id);
      edgeAttrs := map e | e in edgeAttrs && e.0 != id && e.1 != id :: edgeAttrs[e];
      RemoveGraphNode(id);
      assert edgeAttrs == EdgesWithout(old(edgeAttrs), {id});
    }

    /** ON DELETE RESTRICT: refuses while the node has relations. */
    method RestrictDelete(id: NodeId) returns (ok: bool)
      requires Valid() && id in nodeAttrs
      modifies this
      ensures ok <==> Incident(id, old(edgeAttrs).Keys) == {}
      ensures if ok then Without(old(View()), id) else View() == old(View())
    {
      if Incident(id, graphEdges) != {} { return false; }
      EdgesWithoutOne(edgeAttrs, id);
      assert forall k :: (id, id, k) in graphEdges ==> (id, id, k) in Incident(id, graphEdges);
      CleanFkIndex(id);
      PopNode(id);
      RemoveGraphNode(id);
      assert edgeAttrs == EdgesWithout(old(edgeAttrs), {id});
      return true;
    }

    // --- Deleting with propagation -----------------------------------------

    ghost predicate WithoutAll(before: Store, gone: set<NodeId>)
      reads this
    {
      Deleted(before, View(), gone)
    }

    /** The loop of `deleteNode(propagation=True)`: deletes what hangs from `id`. */
    method DeleteBelow(id: NodeId, strong: set<NodeId>)
      requires Valid() && id in nodeAttrs && strong <= {id} && Hierarchy(edgeAttrs, strong, id)
      modifies this
      ensures WithoutAll(old(View()), Closure(old(edgeAttrs), strong, id) - {id}) && id in nodeAttrs
      decreases |Closure(edgeAttrs, strong, id)|, 3
    {
      ghost var before, edges := View(), edgeAttrs;
      assert graphEdges == edges.Keys;
      WithoutNothing();
      SuccessorsAre(graphEdges, id);
      hide Hierarchy, Consistent, Closure, Propagates, EdgesWithout, Collected, Links, WithoutAll, Deleted, Successors;
      var neighbors := Successors(graphEdges, id);
      ghost var below := DeleteNeighbors(before, edges, id, strong, neighbors);
      CollectedAll(edges, strong, id, neighbors, below);
    }

    method DeleteNeighbors(ghost before: Store, ghost edges: Edges, id: NodeId, strong: set<NodeId>, neighbors: set<NodeId>)
      returns (ghost below: set<NodeId>)
      requires WithoutAll(before, {}) && id in nodeAttrs && before.edgeAttrs == edges
      requires strong <= {id} && Hierarchy(edges, strong, id)
      requires forall n | n in neighbors :: exists e :: e in edges && e.0 == id && e.1 == n
      modifies this
      ensures WithoutAll(before, below) && id in nodeAttrs && Collected(edges, strong, id, neighbors, below)
      decreases |Closure(edges, strong, id)|, 2
    {
      below := {};
      NothingCollected(edges, strong, id);
      hide *;
      var rest := neighbors;
      assert neighbors - rest == {};
      while rest != {}
        invariant rest <= neighbors
        invariant WithoutAll(before, below) && id in nodeAttrs
        invariant Collected(edges, strong, id, neighbors - rest, below)
        decreases rest
      {
        var neighbor :| neighbor in rest;
        ghost var link :| link in edges && link.0 == id && link.1 == neighbor;
        below := DeleteNeighbor(before, edges, id, strong, neighbors - rest, below, neighbor, link);
        assert neighbors - (rest - {neighbor}) == neighbors - rest + {neighbor};
        rest := rest - {neighbor};
      }
      assert neighbors - rest == neighbors;
    }

    /** One neighbor: deleted when some relation to it propagates. */
    method DeleteNeighbor(ghost before: Store, ghost edges: Edges, id: NodeId, strong: set<NodeId>, ghost done: set<NodeId>,
                          ghost below: set<NodeId>, neighbor: NodeId, ghost link: EdgeKey)
      returns (ghost gone: set<NodeId>)
      requires WithoutAll(before, below) && id in nodeAttrs && before.edgeAttrs == edges
      requires strong <= {id} && Hierarchy(edges, strong, id) && Collected(edges, strong, id, done, below)
      requires link in edges && link.0 == id && link.1 == neighbor && neighbor !in done
      modifies this
      ensures WithoutAll(before, gone) && id in nodeAttrs && Collected(edges, strong, id, done + {neighbor}, gone)
      decreases |Closure(edges, strong, id)|, 1
    {
      hide Hierarchy, Consistent, Closure, Propagates, EdgesWithout, Collected, Links, WithoutAll, Deleted;
      NeighborRemains(edges, strong, id, done, below, link);
      EdgesLeft(before, below);
      var links := Links(edgeAttrs, strong, id, neighbor);
      if links != {} {
        ghost var e :| e in links;
        LinkIsEdge(edgeAttrs, strong, id, neighbor, e);
        LinkIsEdge(edges, strong, id, neighbor, e);
        DeleteChild(before, edges, id, strong, done, below, neighbor, e);
        CollectChild(edges, strong, id, done, below, e);
        gone := below + Closure(edges, {}, neighbor);
      } else {
        CollectOther(edges, strong, id, done, below, neighbor);
        gone := below;
      }
    }

    /** One child: everything below it goes with it, and nothing else does. */
    method DeleteChild(ghost before: Store, ghost edges: Edges, ghost id: NodeId, ghost strong: set<NodeId>,
                       ghost done: set<NodeId>, ghost below: set<NodeId>, child: NodeId, ghost e: EdgeKey)
      requires WithoutAll(before, below) && id in nodeAttrs && before.edgeAttrs == edges
      requires strong <= {id} && Hierarchy(edges, strong, id) && Collected(edges, strong, id, done, below)
      requires e in Links(edges, strong, id, child) && e in edgeAttrs && child !in done
      modifies this
      ensures WithoutAll(before, below + Closure(edges, {}, child)) && id in nodeAttrs
      decreases |Closure(edges, strong, id)|, 0
    {
      EndsAreNodes(e);
      EdgesLeft(before, below);
      LinkIsEdge(edges, strong, id, child, e);
      ghost var middle := View();
      hide Hierarchy, Consistent, Closure, Propagates, EdgesWithout, Collected, Links, Deleted;
      ChildRemains(edges, strong, id, done, below, e);
      DeleteTree(child);
      ghost var gone := Closure(edges, {}, child);
      DeletedTwice(before, middle, View(), below, gone);
      RootIsNoChild(edges, strong, id, e);
      NodesLeft(middle, gone);
    }

    lemma WithoutNothing()
      requires Valid()
      ensures WithoutAll(View(), {})
    {
    }

    lemma EdgesLeft(before: Store, gone: set<NodeId>)
      requires WithoutAll(before, gone)
      ensures edgeAttrs == EdgesWithout(before.edgeAttrs, gone)
    {
    }

    lemma NodesLeft(before: Store, gone: set<NodeId>)
      requires WithoutAll(before, gone)
      ensures nodeAttrs == before.nodeAttrs - gone
    {
    }

    lemma EndsAreNodes(e: EdgeKey)
      requires Valid() && e in edgeAttrs
      ensures e.0 in nodeAttrs && e.1 in nodeAttrs
    {
    }

    /** `deleteNode(child, propagation=True, detach=True)`. */
    method DeleteTree(id: NodeId)
      requires Valid() && id in nodeAttrs && Hierarchy(edgeAttrs, {}, id)
      modifies this
      ensures WithoutAll(old(View()), Closure(old(edgeAttrs), {}, id))
      decreases |Closure(edgeAttrs, {}, id)|, 4
    {
      hide Hierarchy, Consistent, Closure;
      ghost var edges := edgeAttrs;
      ClosureIsClosed(edges, {}, id);
      DeleteBelow(id, {});
      CascadeDelete(id);
      ghost var closure := Closure(edges, {}, id);
      EdgesWithoutUnion(edges, closure - {id}, {id});
      assert closure - {id} + {id} == closure;
    }

    /** `deleteNode` of a stored node. `ownPropagate` is the argument's own `_propagate` flag, which
        makes all its relations propagate. A refusal is an exception: the write guard reloads. */
    method DeleteStored(id: NodeId, propagation: bool, ownPropagate: bool, detach: bool, onDelete: OnDelete)
      returns (r: Result<NodeId, StoreError>)
      requires Valid() && id in nodeAttrs
      requires propagation ==> Hierarchy(edgeAttrs, if ownPropagate then {id} else {}, id)
      requires onDelete.SetNull? ==> forall k :: (id, id, k) !in edgeAttrs
      modifies this
      ensures var below := if propagation then Closure(old(edgeAttrs), if ownPropagate then {id} else {}, id) - {id} else {};
              if onDelete.SetNull? || detach || Incident(id, EdgesWithout(old(edgeAttrs), below).Keys) == {}
              then r == Ok(id) && WithoutAll(old(View()), below + {id})
              else r == Err(HasRelations(id)) && View() == old(View())
    {
      var snapshot := View();
      var strong := if ownPropagate then {id} else {};
      ghost var below: set<NodeId> := if propagation then Closure(edgeAttrs, strong, id) - {id} else {};
      NothingGone(snapshot);
      if propagation {
        DeleteBelow(id, strong);
      }
      ghost var middle := View();
      hide Hierarchy, Closure, Consistent;
      assert WithoutAll(snapshot, below) && id in nodeAttrs;
      EdgesWithoutUnion(snapshot.edgeAttrs, below, {id});
      if onDelete.SetNull? {
        SetNullDelete(id);
      } else if detach {
        CascadeDelete(id);
      } else {
        var ok := RestrictDelete(id);
        if !ok {
          Restore(snapshot);
          return Err(HasRelations(id));
        }
      }
      assert Without(middle, id);
      assert nodeAttrs == snapshot.nodeAttrs - (below + {id});
      return Ok(id);
    }

    lemma NothingGone(s: Store)
      ensures s.nodeAttrs == s.nodeAttrs - {} && s.edgeAttrs == EdgesWithout(s.edgeAttrs, {})
    {
    }

    /** The inner loop of the search: the children of `current` not seen before, each once. */
    method NewChildren(current: NodeId, seen: set<NodeId>) returns (found: seq<NodeId>)
      requires graphEdges == edgeAttrs.Keys
      ensures Children(Flagged(edgeAttrs), current, seen, found)
    {
      found := [];
      var out := set e | e in graphEdges && e.0 == current;
      var rest := out;
      while rest != {}
        invariant rest <= out
        invariant forall i, j | 0 <= i < j < |found| :: found[i] != found[j]
        invariant forall i | 0 <= i < |found| :: found[i] !in seen && Links(Flagged(edgeAttrs), {}, current, found[i]) != {}
        invariant forall e | e in Flagged(edgeAttrs) && e.0 == current && e !in rest :: e.1 in seen || e.1 in found
        decreases rest
      {
        var e :| e in rest;
        rest := rest - {e};
        if e.1 !in seen && e.1 !in found && Get(edgeAttrs[e], "_propagate") == Bool(true) {
          assert e in Links(Flagged(edgeAttrs), {}, current, e.1);
          found := found + [e.1];
        }
      }
    }

    /** `get_subdocuments`: breadth-first over the relations whose flag is true. It ends on any
        graph, and lists every node of the closure but the root exactly once. */
    method GetSubdocuments(root: NodeId) returns (documents: seq<NodeId>)
      requires Valid() && root in nodeAttrs
      ensures Listed(documents, Closure(Flagged(edgeAttrs), {}, root) - {root})
    {
      ghost var edges := Flagged(edgeAttrs);
      SearchStart(edges, root);
      assert graphEdges == edgeAttrs.Keys;
      hide Consistent, Closure, Searching, Listed, Children;
      documents := [];
      var seen := {root};
      var queue := [root];
      while queue != []
        invariant Searching(edges, root, seen, queue, documents)
        decreases |Closure(edges, {}, root) - seen|, |queue|
      {
        var current := queue[0];
        var found := NewChildren(current, seen);
        SearchStep(edges, root, seen, queue, documents, found);
        queue := queue[1..] + found;
        documents := documents + found;
        seen := seen + Ids(found);
      }
      SearchEnd(edges, root, seen, documents);
    }

    // --- Looking nodes up --------------------------------------------------

    /** A node found by key: through the index, or else by a scan. */
    method FindByKey(mainLabel: string, pk: map<string, Value>) returns (r: Option<NodeId>)
      requires Valid()
      ensures r.Some? ==> r.value in nodeAttrs && Named(nodeAttrs[r.value], mainLabel, pk)
      ensures r.None? ==> forall n | n in nodeAttrs :: !Named(nodeAttrs[n], mainLabel, pk)
      ensures forall n | n in nodeAttrs && KeyOf(nodeAttrs[n]) == Some(KeyFor(mainLabel, pk)) :: r == Some(n)
    {
      var key := KeyFor(mainLabel, pk);
      if key in pkIndex && pkIndex[key] in graphNodes {
        return Some(pkIndex[key]);
      }
      var rest := nodeAttrs.Keys;
      while rest != {}
        invariant rest <= nodeAttrs.Keys
        invariant forall n | n in nodeAttrs && n !in rest :: !Named(nodeAttrs[n], mainLabel, pk)
        decreases rest
      {
        var n :| n in rest;
        if Get(nodeAttrs[n], "main_label") == Str(mainLabel) && MatchesPk(nodeAttrs[n], pk) {
          return Some(n);
        }
        rest := rest - {n};
      }
      return None;
    }

    /** `checkNode`: by id when the argument has one, by key otherwise. */
    method CheckNode(arg: NodeArg) returns (r: Option<NodeId>)
      requires Valid()
      ensures r.Some? ==> r.value in nodeAttrs && Denotes(arg, r.value, nodeAttrs[r.value])
      ensures r.None? ==> forall n | n in nodeAttrs :: !Denotes(arg, n, nodeAttrs[n])
      ensures arg.neo4jId.None? && arg.pk.Some? ==>
                forall n | n in nodeAttrs && KeyOf(nodeAttrs[n]) == Some(KeyFor(arg.mainLabel, arg.pk.value)) :: r == Some(n)
    {
      if arg.neo4jId.Some? {
        return if arg.neo4jId.value in graphNodes then arg.neo4jId else None;
      }
      if arg.pk.None? { return None; }
      r := FindByKey(arg.mainLabel, arg.pk.value);
    }

    /** `_resolve_node_id` for the end of a relation: an empty key finds nothing. */
    method Resolve(end: End) returns (r: Option<NodeId>)
      requires Valid()
      ensures r.Some? ==> r.value in nodeAttrs && end.pk.Some? && Named(nodeAttrs[r.value], end.mainLabel, end.pk.value)
      ensures r.None? ==> Unresolved(end, nodeAttrs)
      ensures forall n | n in nodeAttrs && HasKey(nodeAttrs[n], end) :: r == Some(n)
    {
      if end.pk.None? || end.pk.value == map[] { return None; }
      r := FindByKey(end.mainLabel, end.pk.value);
    }

    /** `find_nodes`: by intersection ("all") or union ("any") of index buckets, or every node
        when there is no filter. The answer is a scan's answer. */
    method FindNodes(filters: map<string, Value>, all: bool) returns (ids: set<NodeId>)
      requires Valid()
      ensures ids == set n | n in nodeAttrs && Satisfies(nodeAttrs[n], filters, all)
    {
      if filters == map[] {
        ids := graphNodes;
        return;
      }
      ids := if all then graphNodes else {};
      var names := filters.Keys;
      while names != {}
        invariant names <= filters.Keys
        invariant all ==> ids == set n | n in nodeAttrs && forall k | k in filters.Keys - names :: Carries(nodeAttrs[n], KeyOfProp(k, filters[k]))
        invariant !all ==> ids == set n | n in nodeAttrs && exists k :: k in filters.Keys - names && Carries(nodeAttrs[n], KeyOfProp(k, filters[k]))
        decreases names
      {
        var name :| name in names;
        var k := KeyOfProp(name, filters[name]);
        IndexIsScan(propertyIndex, nodeAttrs, k);
        var bucket := if k in propertyIndex then propertyIndex[k] else {};
        ids := if all then ids * bucket else ids + bucket;
        names := names - {name};
      }
      assert filters.Keys - {} == filters.Keys;
    }

    /** `deleteNode`. An argument that names no stored node deletes nothing; one that carries the id of
        no stored node is an error where the graph is asked for its relations. */
    method DeleteNode(arg: NodeArg, propagation: bool, detach: bool, onDelete: OnDelete) returns (r: Result<bool, StoreError>)
      requires Valid()
      requires propagation ==> forall n | n in nodeAttrs && Denotes(arg, n, nodeAttrs[n]) ::
                 Hierarchy(edgeAttrs, if arg.propagate then {n} else {}, n)
      requires onDelete.SetNull? ==> forall n | n in nodeAttrs && Denotes(arg, n, nodeAttrs[n]) :: forall k :: (n, n, k) !in edgeAttrs
      modifies this
      ensures Valid()
      ensures if exists n :: n in old(nodeAttrs) && Denotes(arg, n, old(nodeAttrs)[n])
              then exists n :: n in old(nodeAttrs) && Denotes(arg, n, old(nodeAttrs)[n])
                               && DeleteOutcome(old(View()), View(), n, arg.propagate, propagation, detach, onDelete, r)
              else View() == old(View())
                   && r == if arg.neo4jId.None? then Ok(false)
                           else if propagation || !(onDelete.SetNull? || detach) then Err(MissingNode) else Ok(true)
    {
      hide Hierarchy, Closure, Consistent, DeleteOutcome, Named;
      ghost var before := View();
      var found := CheckNode(arg);
      if found.None? {
        if arg.neo4jId.None? { return Ok(false); }
        return if propagation || !(onDelete.SetNull? || detach) then Err(MissingNode) else Ok(true);
      }
      var d := DeleteStored(found.value, propagation, arg.propagate, detach, onDelete);
      r := if d.Ok? then Ok(true) else Err(d.error);
      OutcomeIs(before, View(), found.value, arg.propagate, propagation, detach, onDelete, d, r);
    }

    // --- Inserting ---------------------------------------------------------

    /** Stores the attributes of a new node and indexes it; refuses a key that is taken. */
    method StoreNew(id: NodeId, attrs: Attrs) returns (ok: bool)
      requires Valid() && id == nodeCounter + 1
      modifies this
      ensures ok ==> Valid() && nodeAttrs == old(nodeAttrs)[id := attrs] && edgeAttrs == old(edgeAttrs) && nodeCounter == id
      ensures ok <==> !KeyTaken(old(nodeAttrs), id, attrs)
    {
      hide FkExact, PkExact, PropExact, KeyTaken;
      nodeCounter := id;
      ok := IndexNode(id, attrs, nodeAttrs);
      nodeAttrs := nodeAttrs[id := attrs];
      graphNodes := graphNodes + {id};
    }

    /** Writes properties over an existing node, taking it out of the indexes and in again. */
    method Overwrite(id: NodeId, props: Attrs) returns (ok: bool)
      requires Valid() && id in nodeAttrs
      modifies this
      ensures ok ==> Valid() && nodeAttrs == old(nodeAttrs)[id := old(nodeAttrs)[id] + props]
                     && edgeAttrs == old(edgeAttrs) && nodeCounter == old(nodeCounter)
      ensures ok <==> !KeyTaken(old(nodeAttrs), id, old(nodeAttrs)[id] + props)
    {
      var before := nodeAttrs[id];
      ghost var nodes := nodeAttrs;
      var attrs := before + props;
      hide FkExact, PkExact, PropExact, KeyTaken, KeyOf;
      assert nodes[id := attrs] == (nodes - {id})[id := attrs];
      DeindexNode(id, before, nodes);
      KeyTakenElsewhere(nodes, id, attrs);
      ok := IndexNode(id, attrs, nodes - {id});
      nodeAttrs := nodeAttrs[id := attrs];
    }

    /** `_ensure_node_inserted`: merge, replace, refuse or create. A node argument that is replaced
        must be the root of a hierarchy, for the propagating delete to be defined. */
    method EnsureNodeInserted(arg: NodeArg, update: bool, replace: bool)
      returns (r: Result<(NodeId, map<string, Value>), StoreError>)
      requires Valid() && (replace ==> Replaceable(View(), arg))
      modifies this
      ensures r.Ok? ==> Valid() && Ensured(old(View()), View(), arg, update, replace, r.value.0, r.value.1)
      ensures r.Err? ==> Refused(old(View()), arg, update, replace, r.error)
    {
      ghost var before := View();
      NothingGone(before);
      assert nodeCounter + 1 !in nodeAttrs;
      hide Hierarchy, Closure, Consistent, Denotes, Stored, Merged, BackendAssigned, KeyTaken, EdgesWithout;
      var existing := None;
      if !BackendAssigned(arg) {
        existing := CheckNode(arg);
      }
      if existing.None? {
        r := CreateNode(arg, update, replace, before, {});
      } else if replace {
        ghost var gone := DeleteReplaced(arg, existing.value);
        r := CreateNode(arg, update, replace, before, gone);
      } else if update {
        var ok := Overwrite(existing.value, Merged(arg));
        if !ok { return Err(DuplicatePk); }
        r := Ok((existing.value, GetOr(arg.pk, map[])));
      } else {
        r := Err(DuplicateNode(existing.value));
      }
    }

    /** The delete that makes room for a replacement. */
    method DeleteReplaced(arg: NodeArg, existing: NodeId) returns (ghost gone: set<NodeId>)
      requires Valid() && existing in nodeAttrs && Denotes(arg, existing, nodeAttrs[existing])
      requires Replaceable(View(), arg) && !BackendAssigned(arg)
      modifies this
      ensures gone != {} && TakenAlong(old(View()), arg, gone) && WithoutAll(old(View()), gone)
    {
      hide Hierarchy, Closure, Consistent, Denotes;
      ghost var strong := if arg.propagate then {existing} else {};
      gone := Closure(edgeAttrs, strong, existing);
      ClosureIsClosed(edgeAttrs, strong, existing);
      var _ := DeleteStored(existing, true, arg.propagate, true, Cascade);
      assert gone - {existing} + {existing} == gone;
    }

    /** A fresh node under the next id. */
    method CreateNode(arg: NodeArg, ghost update: bool, ghost replace: bool, ghost before: Store, ghost gone: set<NodeId>)
      returns (r: Result<(NodeId, map<string, Value>), StoreError>)
      requires WithoutAll(before, gone) && before.nodeCounter + 1 !in before.nodeAttrs
      requires if gone == {} then Unknown(before, arg) else replace && TakenAlong(before, arg, gone)
      modifies this
      ensures r.Ok? ==> Valid() && Ensured(before, View(), arg, update, replace, r.value.0, r.value.1)
      ensures r.Err? ==> Refused(before, arg, update, replace, r.error)
    {
      var id := nodeCounter + 1;
      hide Consistent, Denotes, Stored, Merged, BackendAssigned, TakenAlong, Unknown;
      var pk := KeyGiven(arg, id);
      var ok := StoreNew(id, Stored(arg, pk));
      if !ok {
        FewerKeysTaken(before.nodeAttrs, gone, id, Stored(arg, pk));
        return Err(DuplicatePk);
      }
      return Ok((id, pk));
    }

    /** The body of `insertNode`; an error is an exception half-way, for the guard to undo. */
    method InsertInside(arg: NodeArg, insertParent: bool, update: bool, replace: bool)
      returns (r: Result<(NodeId, map<string, Value>), StoreError>)
      requires Valid() && (replace ==> ReplaceSafe(View(), arg, insertParent))
      modifies this
      ensures r.Ok? ==> Valid() && Inserted(old(View()), View(), arg, insertParent, update, replace, r.value.0, r.value.1)
      ensures r.Err? ==> Rejected(old(View()), arg, insertParent, update, replace, r.error)
      decreases arg
    {
      hide Consistent, Ensured, Refused, Denotes, Hung, Replaceable, Spared, ParentKeyOk;
      ghost var before := View();
      if arg.parent.NoParent? {
        r := EnsureNodeInserted(arg, update, replace);
        return;
      }
      var parent := arg.parent.node;
      var parentId, parentPk;
      if insertParent {
        var p := InsertInside(parent, true, true, false);
        if p.Err? { return p; }
        parentId, parentPk := p.value.0, p.value.1;
        InsertedIsStored(before, View(), parent, true, true, false, parentId, parentPk);
      } else {
        var p := CheckNode(parent);
        if p.None? { return Err(MissingParent); }
        parentId, parentPk := p.value, GetOr(parent.pk, map[]);
      }
      ghost var middle := View();
      if replace { ReplaceSafeBelow(before, middle, arg, insertParent, parentId, parentPk); }
      r := HangBelow(arg, update, replace, parentId, parentPk);
      if r.Ok? {
        InsertedBelow(before, middle, View(), arg, insertParent, update, replace, parentId, parentPk, r.value.0, r.value.1);
      } else {
        RejectedBelow(before, middle, arg, insertParent, update, replace, parentId, parentPk, r.error);
      }
    }

    /** The weak node itself, below a parent that is stored. */
    method HangBelow(arg: NodeArg, update: bool, replace: bool, parentId: NodeId, parentPk: map<string, Value>)
      returns (r: Result<(NodeId, map<string, Value>), StoreError>)
      requires Valid() && arg.parent.HasParent? && parentId in nodeAttrs
      requires replace ==> Replaceable(View(), Attached(arg, parentId, parentPk)) && Spared(View(), Attached(arg, parentId, parentPk), parentId)
      modifies this
      ensures r.Ok? ==> Valid() && Hung(old(View()), View(), arg, update, replace, parentId, parentPk, r.value.0, r.value.1)
      ensures r.Err? ==> if ParentKeyOk(arg, parentPk) then Refused(old(View()), Attached(arg, parentId, parentPk), update, replace, r.error)
                         else r.error.KeyViolation?
    {
      if !ParentKeyOk(arg, parentPk) { return Err(KeyViolation); }
      ghost var before := View();
      var current := Attached(arg, parentId, parentPk);
      hide Consistent, Ensured, Refused, ParentKeyOk, Replaceable, Spared;
      r := EnsureNodeInserted(current, update, replace);
      if r.Err? { return; }
      ghost var middle := View();
      ghost var id, pk := r.value.0, r.value.1;
      var link := (parentId, r.value.0, arg.parent.relation);
      ParentStays(before, middle, current, update, replace, id, pk, parentId, link);
      hide FkExact, PkExact, PropExact, Attached;
      AddRelation(link, PROPAGATE);
      HungThere(before, middle, View(), arg, update, replace, parentId, parentPk, id, pk);
      assert Hung(before, View(), arg, update, replace, parentId, parentPk, r.value.0, r.value.1);
    }

    /** `insertNode`. A failed call leaves the store as it was. */
    method InsertNode(arg: NodeArg, insertParent: bool, update: bool, replace: bool) returns (r: Result<NodeId, StoreError>)
      requires Valid() && (replace ==> ReplaceSafe(View(), arg, insertParent))
      modifies this
      ensures Valid()
      ensures r.Ok? ==> exists pk :: Inserted(old(View()), View(), arg, insertParent, update, replace, r.value, pk)
      ensures r.Err? ==> View() == old(View()) && Rejected(old(View()), arg, insertParent, update, replace, r.error)
    {
      var snapshot := View();
      hide Inserted, Rejected, Consistent;
      var inserted := InsertInside(arg, insertParent, update, replace);
      if inserted.Err? {
        Restore(snapshot);
        return Err(inserted.error);
      }
      return Ok(inserted.value.0);
    }

    // --- Relations between stored nodes ------------------------------------

    /** `insertRelation`: merges, replaces, refuses or creates. */
    method InsertRelation(src: End, dst: End, relType: string, attrs: Attrs, update: bool, replace: bool)
      returns (r: Result<EdgeKey, StoreError>)
      requires Valid()
      modifies this`graphEdges, this`edgeAttrs, this`fkIndex
      ensures Valid()
      ensures r.Ok? ==>
                && r.value.2 == relType && r.value.0 in nodeAttrs && r.value.1 in nodeAttrs
                && src.pk.Some? && Named(nodeAttrs[r.value.0], src.mainLabel, src.pk.value)
                && dst.pk.Some? && Named(nodeAttrs[r.value.1], dst.mainLabel, dst.pk.value)
                && (r.value in old(edgeAttrs) ==> update || replace)
                && edgeAttrs == old(edgeAttrs)[r.value :=
                     if r.value in old(edgeAttrs) && !replace then old(edgeAttrs)[r.value] + attrs else attrs]
      ensures r.Err? ==> View() == old(View())
      ensures r.Ok? ==> forall n | n in nodeAttrs && HasKey(nodeAttrs[n], src) :: r.value.0 == n
      ensures r.Ok? ==> forall n | n in nodeAttrs && HasKey(nodeAttrs[n], dst) :: r.value.1 == n
      ensures r.Err? ==> if r.error.DuplicateRelation?
                         then !update && !replace && r.error.e in edgeAttrs && r.error.e.2 == relType
                              && r.error.e.0 in nodeAttrs && src.pk.Some? && Named(nodeAttrs[r.error.e.0], src.mainLabel, src.pk.value)
                              && r.error.e.1 in nodeAttrs && dst.pk.Some? && Named(nodeAttrs[r.error.e.1], dst.mainLabel, dst.pk.value)
                         else r.error == MissingNode && (Unresolved(src, nodeAttrs) || Unresolved(dst, nodeAttrs))
    {
      hide Consistent, KeyOf, Named, HasKey, Unresolved;
      var s := Resolve(src);
      var d := Resolve(dst);
      if s.None? || d.None? { return Err(MissingNode); }
      var e := (s.value, d.value, relType);
      var ok := PutRelation(e, attrs, update, replace);
      r := if ok then Ok(e) else Err(DuplicateRelation(e));
    }

    method PutRelation(e: EdgeKey, attrs: Attrs, update: bool, replace: bool) returns (ok: bool)
      requires Valid() && e.0 in nodeAttrs && e.1 in nodeAttrs
      modifies this`graphEdges, this`edgeAttrs, this`fkIndex
      ensures Valid() && (ok <==> e !in old(edgeAttrs) || update || replace)
      ensures if !ok then View() == old(View())
              else edgeAttrs == old(edgeAttrs)[e := if e in old(edgeAttrs) && !replace then old(edgeAttrs)[e] + attrs else attrs]
    {
      ghost var edges := edgeAttrs;
      assert graphEdges == edges.Keys;
      hide *;
      assert (edges - {e})[e := attrs] == edges[e := attrs];
      if e in graphEdges {
        if replace {
          RemoveRelation(e);
        } else if update {
          SetRelation(e, edgeAttrs[e] + attrs);
          return true;
        } else {
          return false;
        }
      }
      AddRelation(e, attrs);
      return true;
    }

    // --- Properties --------------------------------------------------------

    /** `_set_node_properties`: the keys in `onlyMissing` are only set when absent. */
    method SetInside(id: NodeId, props: Attrs, onlyMissing: set<string>) returns (ok: bool)
      requires Valid() && id in nodeAttrs
      modifies this
      ensures ok ==> Valid() && nodeAttrs == old(nodeAttrs)[id := Updated(old(nodeAttrs)[id], props, onlyMissing)]
                     && edgeAttrs == old(edgeAttrs) && nodeCounter == old(nodeCounter)
      ensures "pk" !in props && "main_label" !in props ==> ok
    {
      var attrs := nodeAttrs[id];
      var updates := Updates(attrs, props, onlyMissing);
      if forall k | k in updates :: k in attrs && attrs[k] == updates[k] {
        assert attrs + updates == attrs;
        assert nodeAttrs == nodeAttrs[id := attrs];
        return true;
      }
      KeyUntouched(attrs, updates);
      KeysDiffer(pkIndex, nodeAttrs, id);
      ok := Overwrite(id, updates);
    }

    /** `set_node_properties`. */
    method SetNodeProperties(id: NodeId, props: Attrs) returns (r: Result<(), StoreError>)
      requires Valid()
      modifies this
      ensures Valid() && (r.Err? ==> View() == old(View()))
      ensures r.Ok? ==> id in old(nodeAttrs) && nodeAttrs == old(nodeAttrs)[id := old(nodeAttrs)[id] + props]
                        && edgeAttrs == old(edgeAttrs) && nodeCounter == old(nodeCounter)
      ensures id in old(nodeAttrs) && "pk" !in props && "main_label" !in props ==> r.Ok?
    {
      if id !in nodeAttrs { return Err(MissingNode); }
      var snapshot := View();
      assert Updates(nodeAttrs[id], props, {}) == props;
      var ok := SetInside(id, props, {});
      if !ok {
        Restore(snapshot);
        return Err(DuplicatePk);
      }
      return Ok(());
    }

    // --- init_propagation --------------------------------------------------

    method MarkChild(id: NodeId, relation: string)
      requires Valid() && id in nodeAttrs
      modifies this
      ensures Valid() && nodeAttrs == old(nodeAttrs)[id := Updated(old(nodeAttrs)[id], WeakFlags(relation), {"parent_relation"})]
      ensures edgeAttrs == old(edgeAttrs) && nodeCounter == old(nodeCounter)
    {
      hide Consistent, Updated;
      var _ := SetInside(id, WeakFlags(relation), {"parent_relation"});
    }

    /** Second step of `init_propagation`: the children of pending nodes become weak nodes. */
    method MarkChildren(pending: set<NodeId>)
      requires Valid()
      modifies this
      ensures Valid() && edgeAttrs == old(edgeAttrs) && nodeCounter == old(nodeCounter)
      ensures Marked(old(nodeAttrs), old(edgeAttrs), pending, edgeAttrs.Keys, nodeAttrs)
    {
      ghost var nodes, edges := nodeAttrs, edgeAttrs;
      assert forall e | e in edges :: e.0 in nodes && e.1 in nodes;
      hide *;
      var rest := edgeAttrs.Keys;
      MarkedNone(nodes, edges, pending);
      assert edges.Keys - rest == {};
      while rest != {}
        invariant rest <= edges.Keys && nodeAttrs.Keys == nodes.Keys
        invariant Valid() && edgeAttrs == edges && nodeCounter == old(nodeCounter)
        invariant Marked(nodes, edges, pending, edges.Keys - rest, nodeAttrs)
        decreases rest
      {
        var e :| e in rest;
        ghost var done := edges.Keys - rest;
        rest := rest - {e};
        assert edges.Keys - rest == done + {e};
        if Truthy(Get(edgeAttrs[e], "_propagate")) && e.0 in pending {
          MarkedOne(nodes, edges, pending, done, nodeAttrs, e);
          MarkChild(e.1, e.2);
        } else {
          MarkedSkip(nodes, edges, pending, done, nodeAttrs, e);
        }
      }
      assert edges.Keys - rest == edges.Keys;
    }

    /** Third step: every pending node is processed. */
    method MarkDone(pending: set<NodeId>)
      requires Valid() && pending <= nodeAttrs.Keys
      modifies this
      ensures Valid() && edgeAttrs == old(edgeAttrs) && nodeCounter == old(nodeCounter)
      ensures nodeAttrs == map n | n in old(nodeAttrs) :: if n in pending then old(nodeAttrs)[n] + DONE else old(nodeAttrs)[n]
    {
      ghost var nodes := nodeAttrs;
      hide Consistent;
      var rest := pending;
      while rest != {}
        invariant rest <= pending
        invariant Valid() && edgeAttrs == old(edgeAttrs) && nodeCounter == old(nodeCounter)
        invariant nodeAttrs == map n | n in nodes :: if n in pending - rest then nodes[n] + DONE else nodes[n]
        decreases rest
      {
        var n :| n in rest;
        rest := rest - {n};
        assert Updates(nodeAttrs[n], DONE, {}) == DONE;
        var _ := SetInside(n, DONE, {});
      }
    }

    /** Fourth step: relations without a flag that reach a weak node propagate from now on. */
    method MarkRelations()
      requires Valid()
      modifies this`edgeAttrs
      ensures Valid()
      ensures edgeAttrs == map e | e in old(edgeAttrs) :: InitialisedRelation(nodeAttrs, e, old(edgeAttrs)[e])
    {
      ghost var edges := edgeAttrs;
      hide Consistent, InitialisedRelation, Get;
      var rest := edgeAttrs.Keys;
      while rest != {}
        invariant rest <= edges.Keys && edgeAttrs.Keys == edges.Keys && Valid()
        invariant edgeAttrs == map e | e in edges :: if e in rest then edges[e] else InitialisedRelation(nodeAttrs, e, edges[e])
        decreases rest
      {
        var e :| e in rest;
        rest := rest - {e};
        RelationInitialised(nodeAttrs, e, edges[e]);
        if e.1 in nodeAttrs && Get(nodeAttrs[e.1], "is_weak") == Bool(true) && Get(edgeAttrs[e], "_propagate") == Null {
          SetRelation(e, edgeAttrs[e] + PROPAGATE);
        }
      }
    }

    /** `init_propagation`. */
    method InitPropagation()
      requires Valid()
      modifies this
      ensures Valid() && nodeCounter == old(nodeCounter)
      ensures Initialised(old(nodeAttrs), old(edgeAttrs), nodeAttrs, edgeAttrs)
    {
      hide Consistent, Marked, InitialisedNode, InitialisedRelation;
      ghost var nodes, edges := nodeAttrs, edgeAttrs;
      assert Pending(nodes) <= nodes.Keys;
      MarkedKeys(nodes, edges);
      var pending := Pending(nodeAttrs);
      MarkChildren(pending);
      ghost var marked := nodeAttrs;
      MarkDone(pending);
      MarkRelations();
      InitialisedAll(nodes, edges, marked, nodeAttrs);
    }
  }
}
