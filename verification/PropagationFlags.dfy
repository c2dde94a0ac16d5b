/** What `init_propagation` makes of a store (cvcdocdb/networkx_graph.py). */
module PropagationFlags {
  import opened Common
  import opened Values
  import opened StoreIndexes
  import opened Propagation

  const PROPAGATE := map["_propagate" := Bool(true)]

  const DONE := map["_weak_init_done" := Bool(true)]

  /** What makes a node a weak node. */
  function WeakFlags(relation: string): Attrs {
    map["is_weak" := Bool(true), "_propagate" := Bool(true), "parent_relation" := Str(relation)]
  }

  function Updates(attrs: Attrs, props: Attrs, onlyMissing: set<string>): Attrs {
    map k | k in props && (k !in onlyMissing || k !in attrs) :: props[k]
  }

  function Updated(attrs: Attrs, props: Attrs, onlyMissing: set<string>): Attrs {
    attrs + Updates(attrs, props, onlyMissing)
  }

  lemma KeyUntouched(attrs: Attrs, props: Attrs)
    ensures "pk" !in props && "main_label" !in props ==> KeyOf(attrs + props) == KeyOf(attrs)
  {
    if "pk" !in props && "main_label" !in props {
      assert Get(attrs + props, "pk") == Get(attrs, "pk");
      assert LabelText(attrs + props) == LabelText(attrs);
    }
  }

  function Pending(nodes: map<NodeId, Attrs>): set<NodeId> {
    set n | n in nodes && !Truthy(Get(nodes[n], "_weak_init_done"))
  }

  /** The relations among `done` that make `n` a weak node. */
  function WeakLinks(edges: Edges, pending: set<NodeId>, done: set<EdgeKey>, n: NodeId): set<EdgeKey> {
    set e | e in done && e in edges && e.1 == n && e.0 in pending && Truthy(Get(edges[e], "_propagate"))
  }

  /** `after` is what the second step makes of node `n`: its flags, and the relation to its parent
      unless it had one, which comes from one of its links. */
  ghost predicate MarkedNode(nodes: map<NodeId, Attrs>, edges: Edges, pending: set<NodeId>, done: set<EdgeKey>, n: NodeId, after: Attrs)
    requires n in nodes
  {
    var links := WeakLinks(edges, pending, done, n);
    if links == {} then after == nodes[n]
    else exists e :: e in links && after == Updated(nodes[n], WeakFlags(e.2), {"parent_relation"})
  }

  ghost predicate Marked(nodes: map<NodeId, Attrs>, edges: Edges, pending: set<NodeId>, done: set<EdgeKey>, after: map<NodeId, Attrs>) {
    after.Keys == nodes.Keys && forall n | n in nodes :: MarkedNode(nodes, edges, pending, done, n, after[n])
  }

  lemma MarkedNone(nodes: map<NodeId, Attrs>, edges: Edges, pending: set<NodeId>)
    ensures Marked(nodes, edges, pending, {}, nodes)
  {
  }

  lemma MarkedSkip(nodes: map<NodeId, Attrs>, edges: Edges, pending: set<NodeId>, done: set<EdgeKey>, after: map<NodeId, Attrs>, e: EdgeKey)
    requires Marked(nodes, edges, pending, done, after) && e in edges
    requires !(Truthy(Get(edges[e], "_propagate")) && e.0 in pending)
    ensures Marked(nodes, edges, pending, done + {e}, after)
  {
    forall n | n in nodes ensures MarkedNode(nodes, edges, pending, done + {e}, n, after[n]) {
      assert WeakLinks(edges, pending, done + {e}, n) == WeakLinks(edges, pending, done, n);
      assert MarkedNode(nodes, edges, pending, done, n, after[n]);
    }
  }

  lemma MarkedOne(nodes: map<NodeId, Attrs>, edges: Edges, pending: set<NodeId>, done: set<EdgeKey>, after: map<NodeId, Attrs>, e: EdgeKey)
    requires Marked(nodes, edges, pending, done, after) && e in edges && e.1 in nodes
    requires Truthy(Get(edges[e], "_propagate")) && e.0 in pending
    ensures Marked(nodes, edges, pending, done + {e}, after[e.1 := Updated(after[e.1], WeakFlags(e.2), {"parent_relation"})])
  {
    var next := after[e.1 := Updated(after[e.1], WeakFlags(e.2), {"parent_relation"})];
    forall n | n in nodes ensures MarkedNode(nodes, edges, pending, done + {e}, n, next[n]) {
      assert MarkedNode(nodes, edges, pending, done, n, after[n]);
      if n != e.1 {
        assert WeakLinks(edges, pending, done + {e}, n) == WeakLinks(edges, pending, done, n);
      } else {
        MarkedAgain(nodes, edges, pending, done, after[n], e);
      }
    }
  }

  lemma MarkedAgain(nodes: map<NodeId, Attrs>, edges: Edges, pending: set<NodeId>, done: set<EdgeKey>, after: Attrs, e: EdgeKey)
    requires e in edges && e.1 in nodes && Truthy(Get(edges[e], "_propagate")) && e.0 in pending
    requires MarkedNode(nodes, edges, pending, done, e.1, after)
    ensures MarkedNode(nodes, edges, pending, done + {e}, e.1, Updated(after, WeakFlags(e.2), {"parent_relation"}))
  {
    var links := WeakLinks(edges, pending, done, e.1);
    var more := WeakLinks(edges, pending, done + {e}, e.1);
    assert e in more && links <= more;
    hide WeakLinks, Truthy, Get;
    if links != {} {
      hide Updated, WeakFlags;
      var f :| f in links && after == Updated(nodes[e.1], WeakFlags(f.2), {"parent_relation"});
      UpdatedAgain(nodes[e.1], f.2, e.2);
      assert f in more;
    }
  }

  /** A node that was marked keeps the parent relation it was first marked with. */
  lemma UpdatedAgain(attrs: Attrs, first: string, second: string)
    ensures var once := Updated(attrs, WeakFlags(first), {"parent_relation"});
            Updated(once, WeakFlags(second), {"parent_relation"}) == once
  {
  }

  /** What `init_propagation` makes of one node. */
  ghost predicate InitialisedNode(nodes: map<NodeId, Attrs>, edges: Edges, n: NodeId, after: Attrs)
    requires n in nodes
  {
    exists marked :: MarkedNode(nodes, edges, Pending(nodes), edges.Keys, n, marked)
                     && after == if n in Pending(nodes) then marked + DONE else marked
  }

  function InitialisedRelation(nodes: map<NodeId, Attrs>, e: EdgeKey, attrs: Attrs): Attrs {
    if e.1 in nodes && Get(nodes[e.1], "is_weak") == Bool(true) && Get(attrs, "_propagate") == Null then attrs + PROPAGATE
    else attrs
  }

  lemma RelationInitialised(nodes: map<NodeId, Attrs>, e: EdgeKey, attrs: Attrs)
    ensures InitialisedRelation(nodes, e, attrs) ==
            if e.1 in nodes && Get(nodes[e.1], "is_weak") == Bool(true) && Get(attrs, "_propagate") == Null then attrs + PROPAGATE else attrs
  {
  }

  ghost predicate Initialised(nodes: map<NodeId, Attrs>, edges: Edges, nodes': map<NodeId, Attrs>, edges': Edges) {
    && nodes'.Keys == nodes.Keys && (forall n | n in nodes :: InitialisedNode(nodes, edges, n, nodes'[n]))
    && edges' == map e | e in edges :: InitialisedRelation(nodes', e, edges[e])
  }

  lemma MarkedKeys(nodes: map<NodeId, Attrs>, edges: Edges)
    ensures forall after | Marked(nodes, edges, Pending(nodes), edges.Keys, after) :: after.Keys == nodes.Keys
  {
  }

  lemma InitialisedAll(nodes: map<NodeId, Attrs>, edges: Edges, marked: map<NodeId, Attrs>, after: map<NodeId, Attrs>)
    requires Marked(nodes, edges, Pending(nodes), edges.Keys, marked)
    requires after == map n | n in marked :: if n in Pending(nodes) then marked[n] + DONE else marked[n]
    ensures after.Keys == nodes.Keys && forall n | n in nodes :: InitialisedNode(nodes, edges, n, after[n])
  {
    hide MarkedNode;
    forall n | n in nodes ensures InitialisedNode(nodes, edges, n, after[n]) {
      assert MarkedNode(nodes, edges, Pending(nodes), edges.Keys, n, marked[n]);
    }
  }

  /** Initialising a second time changes nothing. */
  lemma InitPropagationIdempotent(nodes: map<NodeId, Attrs>, edges: Edges, nodes': map<NodeId, Attrs>, edges': Edges,
                                  nodes'': map<NodeId, Attrs>, edges'': Edges)
    requires Initialised(nodes, edges, nodes', edges') && Initialised(nodes', edges', nodes'', edges'')
    ensures nodes'' == nodes' && edges'' == edges'
  {
    NothingPending(nodes, edges, nodes', edges');
    forall n | n in nodes' ensures nodes''[n] == nodes'[n] {
      assert InitialisedNode(nodes', edges', n, nodes''[n]);
      var marked :| MarkedNode(nodes', edges', Pending(nodes'), edges'.Keys, n, marked)
                    && nodes''[n] == if n in Pending(nodes') then marked + DONE else marked;
      assert WeakLinks(edges', Pending(nodes'), edges'.Keys, n) == {};
    }
    assert nodes'' == nodes';
  }

  lemma NothingPending(nodes: map<NodeId, Attrs>, edges: Edges, nodes': map<NodeId, Attrs>, edges': Edges)
    requires Initialised(nodes, edges, nodes', edges')
    ensures Pending(nodes') == {}
  {
    hide InitialisedNode, InitialisedRelation;
    forall n | n in nodes' ensures Truthy(Get(nodes'[n], "_weak_init_done")) {
      assert InitialisedNode(nodes, edges, n, nodes'[n]);
      InitialisedIsDone(nodes, edges, n, nodes'[n]);
    }
  }

  lemma InitialisedIsDone(nodes: map<NodeId, Attrs>, edges: Edges, n: NodeId, after: Attrs)
    requires n in nodes && InitialisedNode(nodes, edges, n, after)
    ensures Truthy(Get(after, "_weak_init_done"))
  {
    hide MarkedNode;
    var marked :| MarkedNode(nodes, edges, Pending(nodes), edges.Keys, n, marked)
                  && after == if n in Pending(nodes) then marked + DONE else marked;
    MarkedKeepsDone(nodes, edges, Pending(nodes), edges.Keys, n, marked);
  }

  lemma MarkedKeepsDone(nodes: map<NodeId, Attrs>, edges: Edges, pending: set<NodeId>, done: set<EdgeKey>, n: NodeId, after: Attrs)
    requires n in nodes && MarkedNode(nodes, edges, pending, done, n, after)
    ensures Get(after, "_weak_init_done") == Get(nodes[n], "_weak_init_done")
  {
    hide WeakLinks;
  }
}
