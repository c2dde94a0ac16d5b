/** `create_group` (cvcdocdb/networkx_graph.py): a strong node and everything that hangs from it,
    inserted together or not at all. */
module GroupCreation {
  import opened Common
  import opened Values
  import opened StoreIndexes
  import opened PropagationFlags
  import opened StoreArguments
  import opened NetworkXGraph
  import opened WeakOrder

  // --- Node objects --------------------------------------------------------

  /** A `Node` object. `above` is its parent object, by place, and `relation` what it hangs by. */
  datatype Made = Made(node: NodeArg, above: Option<nat>, relation: string)

  /** A parent is made before its children, and has a key. */
  predicate WellMade(objects: seq<Made>) {
    forall i | 0 <= i < |objects| ::
      && objects[i].node.parent.NoParent?
      && (objects[i].above.Some? ==> objects[i].above.value < i && objects[objects[i].above.value].node.pk.Some?)
  }

  type Objects = seq<Made>

  predicate Has(objects: Objects, i: nat) {
    WellMade(objects) && i < |objects|
  }

  /** The object with its ancestors. */
  function Tree(objects: Objects, i: nat): NodeArg
    requires Has(objects, i)
  {
    match objects[i].above
    case None => objects[i].node
    case Some(a) => objects[i].node.(parent := HasParent(Tree(objects, a), objects[i].relation))
  }

  /** Insertion tells an object its id and its key. */
  function Settle(objects: Objects, i: nat, id: NodeId, pk: map<string, Value>): (r: Objects)
    requires Has(objects, i)
    ensures Has(r, i) && |r| == |objects|
  {
    objects[i := objects[i].(node := objects[i].node.(neo4jId := Some(id), pk := Some(pk)))]
  }

  function IdOf(objects: Objects, i: nat): NodeId
    requires i < |objects|
  {
    GetOr(objects[i].node.neo4jId, 0)
  }

  /** The relation an object hangs by. */
  function LinkOf(objects: Objects, i: nat): EdgeKey
    requires Has(objects, i) && objects[i].above.Some?
  {
    (IdOf(objects, objects[i].above.value), IdOf(objects, i), objects[i].relation)
  }

  // --- What inserting objects makes of the store ---------------------------

  datatype Progress = Progress(objects: Objects, nodes: map<NodeId, Attrs>, edges: map<EdgeKey, Attrs>, counter: nat)

  function State(s: Store, objects: Objects): Progress {
    Progress(objects, s.nodeAttrs, s.edgeAttrs, s.nodeCounter)
  }

  /** A node of its own for object `i`, below its parent's. */
  function PlacedAt(p: Progress, i: nat): (r: Progress)
    requires Has(p.objects, i)
    ensures Has(r.objects, i) && |r.objects| == |p.objects|
  {
    var arg, id := Tree(p.objects, i), p.counter + 1;
    var objects := Settle(p.objects, i, id, KeyGiven(arg, id));
    Progress(objects, p.nodes[id := Stored(arg, KeyGiven(arg, id))],
             if p.objects[i].above.Some? then p.edges[LinkOf(objects, i) := PROPAGATE] else p.edges, id)
  }

  predicate InRange(start: Progress, order: seq<nat>) {
    WellMade(start.objects) && forall k | 0 <= k < |order| :: order[k] < |start.objects|
  }

  /** A node for each of the first `k` objects, in order. */
  function Plan(start: Progress, order: seq<nat>, k: nat): (r: Progress)
    requires InRange(start, order) && k <= |order|
    ensures WellMade(r.objects) && |r.objects| == |start.objects|
  {
    if k == 0 then start else PlacedAt(Plan(start, order, k - 1), order[k - 1])
  }

  function Done(order: seq<nat>, k: nat): set<nat>
    requires k <= |order|
  {
    if k == 0 then {} else Done(order, k - 1) + {order[k - 1]}
  }

  /** The store accepts a node for object `i`: its key has its parent's in it, no stored node goes by
      its name, and no stored node has its key. */
  ghost predicate Fits(p: Progress, i: nat)
    requires Has(p.objects, i)
  {
    var arg, id := Tree(p.objects, i), p.counter + 1;
    && (arg.parent.HasParent? ==> ParentKeyOk(arg, GetOr(arg.parent.node.pk, map[])))
    && (BackendAssigned(arg) || forall n | n in p.nodes :: !Denotes(arg, n, p.nodes[n]))
    && !KeyTaken(p.nodes, id, Stored(arg, KeyGiven(arg, id)))
  }

  /** An object with its parent's key: inserted again, it becomes another node. */
  predicate Again(objects: Objects, i: nat)
    requires Has(objects, i)
  {
    objects[i].above.Some? && objects[i].node.pk == objects[objects[i].above.value].node.pk
  }

  /** Object `i` is given once, after its parent, and its parent has a key of its own. */
  predicate Smooth(objects: Objects, done: set<nat>, i: nat)
    requires Has(objects, i)
  {
    i !in done && (objects[i].above.Some? ==> objects[i].above.value in done && !Again(objects, objects[i].above.value))
  }

  predicate SmoothAt(start: Progress, order: seq<nat>, k: nat)
    requires InRange(start, order) && k < |order|
  {
    Smooth(Plan(start, order, k).objects, Done(order, k), order[k])
  }

  ghost predicate FitsAt(start: Progress, order: seq<nat>, k: nat)
    requires InRange(start, order) && k < |order|
  {
    Fits(Plan(start, order, k), order[k])
  }

  predicate AllSmooth(start: Progress, order: seq<nat>)
    requires InRange(start, order)
  {
    forall k: nat | k < |order| :: SmoothAt(start, order, k)
  }

  ghost predicate AllFit(start: Progress, order: seq<nat>)
    requires InRange(start, order)
  {
    forall k: nat | k < |order| :: FitsAt(start, order, k)
  }

  // --- Objects that have their node ----------------------------------------

  /** The object's node is as its insertion left it, and hangs from its parent's. */
  ghost predicate Seated(p: Progress, i: nat)
    requires Has(p.objects, i)
  {
    var o := p.objects[i];
    && o.node.neo4jId.Some? && o.node.pk.Some? && o.node.neo4jId.value in p.nodes
    && p.nodes[o.node.neo4jId.value] == Stored(o.node, o.node.pk.value)
    && (o.above.Some? ==>
          && p.objects[o.above.value].node.neo4jId.Some? && ReferencesParent(o.node.pk.value, p.objects[o.above.value].node.pk.value)
          && LinkOf(p.objects, i) in p.edges && p.edges[LinkOf(p.objects, i)] == PROPAGATE)
  }

  /** ... and inserting it again, ancestors included, finds that node. */
  ghost predicate Home(p: Progress, i: nat)
    requires Has(p.objects, i)
  {
    Seated(p, i) && !Again(p.objects, i) && (p.objects[i].above.Some? ==> Home(p, p.objects[i].above.value))
  }

  lemma TreeIs(objects: Objects, i: nat)
    requires Has(objects, i)
    ensures var arg, o := Tree(objects, i), objects[i];
            && arg == o.node.(parent := arg.parent) && (arg.parent.HasParent? <==> o.above.Some?)
            && (o.above.Some? ==> arg.parent == HasParent(Tree(objects, o.above.value), o.relation))
            && (BackendAssigned(arg) <==> Again(objects, i))
  {
    if objects[i].above.Some? {
      var a := objects[i].above.value;
      assert Tree(objects, a).pk == objects[a].node.pk;
    }
  }

  lemma StoredAlike(a: NodeArg, b: NodeArg, pk: map<string, Value>)
    requires a == b.(parent := a.parent)
    ensures Stored(a, pk) == Stored(b, pk)
  {
  }

  // --- Inserting an object again -------------------------------------------

  lemma MergedSame(before: Store, arg: NodeArg)
    requires arg.neo4jId.Some? && arg.pk.Some? && arg.neo4jId.value in before.nodeAttrs
    requires before.nodeAttrs[arg.neo4jId.value] == Stored(arg, arg.pk.value)
    ensures before.nodeAttrs[arg.neo4jId.value] + Merged(arg) == before.nodeAttrs[arg.neo4jId.value]
  {
  }

  /** Merging an object into its own node changes nothing ... */
  lemma HomeEnsured(before: Store, after: Store, arg: NodeArg, id: NodeId, pk: map<string, Value>)
    requires arg.neo4jId.Some? && arg.pk.Some? && arg.neo4jId.value in before.nodeAttrs && !BackendAssigned(arg)
    requires before.nodeAttrs[arg.neo4jId.value] == Stored(arg, arg.pk.value)
    requires Ensured(before, after, arg, true, false, id, pk)
    ensures id == arg.neo4jId.value && pk == arg.pk.value
    ensures after.nodeAttrs == before.nodeAttrs && after.edgeAttrs == before.edgeAttrs && after.nodeCounter == before.nodeCounter
  {
    var own := arg.neo4jId.value;
    MergedSame(before, arg);
    hide Stored, Merged, BackendAssigned, KeyGiven;
    assert Denotes(arg, own, before.nodeAttrs[own]);
    assert before.nodeAttrs[own := before.nodeAttrs[own]] == before.nodeAttrs;
  }

  /** ... and cannot be refused. */
  lemma HomeNotRefused(before: Store, arg: NodeArg, error: StoreError)
    requires arg.neo4jId.Some? && arg.pk.Some? && arg.neo4jId.value in before.nodeAttrs && !BackendAssigned(arg)
    requires before.nodeAttrs[arg.neo4jId.value] == Stored(arg, arg.pk.value) && Consistent(before)
    ensures !Refused(before, arg, true, false, error)
  {
    var own := arg.neo4jId.value;
    MergedSame(before, arg);
    KeysDiffer(before.pkIndex, before.nodeAttrs, own);
    hide Stored, Merged, BackendAssigned, Consistent, KeyOf, KeyGiven;
    assert Denotes(arg, own, before.nodeAttrs[own]);
  }

  lemma AttachedAlready(arg: NodeArg, parentId: NodeId, parentPk: map<string, Value>)
    requires arg.parent.HasParent? && arg.parent.node.neo4jId == Some(parentId) && arg.parent.node.pk == Some(parentPk)
    ensures Attached(arg, parentId, parentPk) == arg
  {
  }

  lemma SettleSame(objects: Objects, i: nat)
    requires Has(objects, i) && objects[i].node.neo4jId.Some? && objects[i].node.pk.Some?
    ensures Settle(objects, i, objects[i].node.neo4jId.value, objects[i].node.pk.value) == objects
  {
  }

  /** A new node is placed below nothing but its parent. */
  lemma FreshEnsured(before: Store, after: Store, arg: NodeArg, id: NodeId, pk: map<string, Value>)
    requires Ensured(before, after, arg, false, false, id, pk)
    ensures Unknown(before, arg) && id == before.nodeCounter + 1 == after.nodeCounter && pk == KeyGiven(arg, id)
    ensures after.nodeAttrs == before.nodeAttrs[id := Stored(arg, pk)] && after.edgeAttrs == before.edgeAttrs
  {
    LessNothing(before);
    hide Stored, Denotes, BackendAssigned, KeyGiven, TakenAlong;
  }

  lemma FreshRefused(before: Store, arg: NodeArg, error: StoreError)
    requires Refused(before, arg, false, false, error)
    ensures var id := before.nodeCounter + 1; !(Unknown(before, arg) && !KeyTaken(before.nodeAttrs, id, Stored(arg, KeyGiven(arg, id))))
  {
    hide Stored, Denotes, BackendAssigned, KeyGiven, KeyTaken;
  }

  /** A stored key was free. */
  lemma WasFree(before: map<NodeId, Attrs>, after: Store, id: NodeId, attrs: Attrs)
    requires Consistent(after) && id !in before && after.nodeAttrs == before[id := attrs]
    ensures !KeyTaken(before, id, attrs)
  {
    KeysDiffer(after.pkIndex, after.nodeAttrs, id);
    hide KeyOf, Consistent;
    forall n | n in before && n != id ensures after.nodeAttrs[n] == before[n] { }
  }

  /** What a first insertion leaves is the next step of the plan. */
  lemma PlacedSo(before: Store, after: Store, objects: Objects, i: nat, id: NodeId, pk: map<string, Value>)
    requires Consistent(before) && Consistent(after) && Has(objects, i) && Unknown(before, Tree(objects, i))
    requires objects[i].above.Some? ==> ParentKeyOk(Tree(objects, i), GetOr(Tree(objects, i).parent.node.pk, map[]))
    requires id == before.nodeCounter + 1 == after.nodeCounter && pk == KeyGiven(Tree(objects, i), id)
    requires after.nodeAttrs == before.nodeAttrs[id := Stored(Tree(objects, i), pk)]
    requires after.edgeAttrs == if objects[i].above.Some? then before.edgeAttrs[LinkOf(Settle(objects, i, id, pk), i) := PROPAGATE]
                                else before.edgeAttrs
    ensures Fits(State(before, objects), i) && State(after, Settle(objects, i, id, pk)) == PlacedAt(State(before, objects), i)
  {
    assert id !in before.nodeAttrs;
    TreeIs(objects, i);
    hide *;
    WasFree(before.nodeAttrs, after, id, Stored(Tree(objects, i), pk));
    FitsSo(before, objects, i);
    PlacedIs(before, after, objects, i);
  }

  lemma FitsSo(before: Store, objects: Objects, i: nat)
    requires Has(objects, i) && Unknown(before, Tree(objects, i))
    requires objects[i].above.Some? ==> Tree(objects, i).parent.HasParent? && ParentKeyOk(Tree(objects, i), GetOr(Tree(objects, i).parent.node.pk, map[]))
    requires objects[i].above.None? ==> Tree(objects, i).parent.NoParent?
    requires !KeyTaken(before.nodeAttrs, before.nodeCounter + 1, Stored(Tree(objects, i), KeyGiven(Tree(objects, i), before.nodeCounter + 1)))
    ensures Fits(State(before, objects), i)
  {
    hide Stored, KeyTaken, KeyGiven, Denotes, ParentKeyOk, BackendAssigned, Tree;
  }

  lemma PlacedIs(before: Store, after: Store, objects: Objects, i: nat)
    requires Has(objects, i)
    requires var id := before.nodeCounter + 1; var pk := KeyGiven(Tree(objects, i), id);
             && after.nodeCounter == id && after.nodeAttrs == before.nodeAttrs[id := Stored(Tree(objects, i), pk)]
             && after.edgeAttrs == if objects[i].above.Some? then before.edgeAttrs[LinkOf(Settle(objects, i, id, pk), i) := PROPAGATE]
                                   else before.edgeAttrs
    ensures var id := before.nodeCounter + 1;
            State(after, Settle(objects, i, id, KeyGiven(Tree(objects, i), id))) == PlacedAt(State(before, objects), i)
  {
    hide Stored, KeyGiven, Tree, Settle, LinkOf;
  }

  // --- Outcomes of one insertion -------------------------------------------

  /** What `InsertObject` promises of an object that is home, or new below a parent that is home. */
  ghost predicate Promised(before: Store, objects: Objects, i: nat, update: bool, after: Store, r: Result<Objects, StoreError>)
    requires Has(objects, i)
  {
    && (update && Home(State(before, objects), i) ==> r == Ok(objects) && after == before)
    && (!update && (objects[i].above.Some? ==> Home(State(before, objects), objects[i].above.value)) ==>
          && (r.Ok? <==> Fits(State(before, objects), i))
          && (r.Ok? ==> State(after, r.value) == PlacedAt(State(before, objects), i)))
  }

  lemma RootDone(before: Store, after: Store, objects: Objects, i: nat, update: bool, id: NodeId, pk: map<string, Value>)
    requires Consistent(before) && Consistent(after) && Has(objects, i) && objects[i].above.None?
    requires Ensured(before, after, objects[i].node, update, false, id, pk)
    ensures Promised(before, objects, i, update, after, Ok(Settle(objects, i, id, pk)))
  {
    var arg := objects[i].node;
    TreeIs(objects, i);
    hide Ensured, Consistent, Stored, Fits, PlacedAt;
    if update {
      if Home(State(before, objects), i) {
        HomeEnsured(before, after, arg, id, pk);
        ConsistentUnique(after, before);
        SettleSame(objects, i);
      }
    } else {
      FreshEnsured(before, after, arg, id, pk);
      PlacedSo(before, after, objects, i, id, pk);
    }
  }

  lemma RootFailed(before: Store, after: Store, objects: Objects, i: nat, update: bool, error: StoreError)
    requires Consistent(before) && Has(objects, i) && objects[i].above.None?
    requires Refused(before, objects[i].node, update, false, error)
    ensures Promised(before, objects, i, update, after, Err(error))
  {
    var arg := objects[i].node;
    TreeIs(objects, i);
    hide Refused, Consistent, Stored, KeyTaken, Denotes, KeyGiven, BackendAssigned;
    if update {
      if Home(State(before, objects), i) { HomeNotRefused(before, arg, error); }
    } else {
      FreshRefused(before, arg, error);
    }
  }

  /** The argument of an object that hangs from one that is home. */
  lemma BelowIs(p: Progress, i: nat)
    requires Has(p.objects, i) && p.objects[i].above.Some? && Home(p, p.objects[i].above.value)
    ensures var arg, parent := Tree(p.objects, i), p.objects[p.objects[i].above.value].node;
            && parent.neo4jId.Some? && parent.pk.Some? && Attached(arg, parent.neo4jId.value, parent.pk.value) == arg
            && arg.parent.HasParent? && arg.parent.relation == p.objects[i].relation && arg.parent.node.pk == parent.pk
            && arg.neo4jId == p.objects[i].node.neo4jId && arg.pk == p.objects[i].node.pk
            && (forall pk :: Stored(arg, pk) == Stored(p.objects[i].node, pk))
            && (BackendAssigned(arg) <==> Again(p.objects, i))
  {
    var a := p.objects[i].above.value;
    TreeIs(p.objects, i);
    TreeIs(p.objects, a);
    var arg := Tree(p.objects, i);
    AttachedAlready(arg, p.objects[a].node.neo4jId.value, p.objects[a].node.pk.value);
    forall pk ensures Stored(arg, pk) == Stored(p.objects[i].node, pk) { StoredAlike(arg, p.objects[i].node, pk); }
  }

  lemma HungParts(before: Store, after: Store, objects: Objects, i: nat, arg: NodeArg, update: bool, id: NodeId, pk: map<string, Value>)
    returns (plain: Store)
    requires Has(objects, i) && objects[i].above.Some? && arg.parent.HasParent? && arg.parent.relation == objects[i].relation
    requires var parent := objects[objects[i].above.value].node;
             && parent.neo4jId.Some? && Attached(arg, parent.neo4jId.value, parent.pk.value) == arg
             && Hung(before, after, arg, update, false, parent.neo4jId.value, parent.pk.value, id, pk)
    ensures Ensured(before, plain, arg, update, false, id, pk) && ParentKeyOk(arg, objects[objects[i].above.value].node.pk.value)
    ensures after.nodeAttrs == plain.nodeAttrs && after.nodeCounter == plain.nodeCounter
    ensures after.edgeAttrs == plain.edgeAttrs[LinkOf(Settle(objects, i, id, pk), i) := PROPAGATE]
  {
    var parent := objects[objects[i].above.value].node;
    var link := (parent.neo4jId.value, id, arg.parent.relation);
    plain := Unhung(before, after, link);
    assert link == LinkOf(Settle(objects, i, id, pk), i);
    hide Ensured, ParentKeyOk;
  }

  lemma BelowDone(before: Store, after: Store, objects: Objects, i: nat, update: bool, id: NodeId, pk: map<string, Value>)
    requires Consistent(before) && Consistent(after) && Has(objects, i) && objects[i].above.Some?
    requires Home(State(before, objects), objects[i].above.value)
    requires var parent := objects[objects[i].above.value].node;
             parent.neo4jId.Some? && Hung(before, after, Tree(objects, i), update, false, parent.neo4jId.value, parent.pk.value, id, pk)
    ensures Promised(before, objects, i, update, after, Ok(Settle(objects, i, id, pk)))
  {
    hide Consistent, Stored, Fits, PlacedAt, Tree, Attached, Ensured, BackendAssigned, Again, Hung, Home, Settle, LinkOf, ParentKeyOk;
    BelowIs(State(before, objects), i);
    var plain := HungParts(before, after, objects, i, Tree(objects, i), update, id, pk);
    if update {
      if Home(State(before, objects), i) { AgainDone(before, plain, after, objects, i, id, pk); }
    } else {
      FreshEnsured(before, plain, Tree(objects, i), id, pk);
      PlacedSo(before, after, objects, i, id, pk);
    }
  }

  lemma AgainDone(before: Store, plain: Store, after: Store, objects: Objects, i: nat, id: NodeId, pk: map<string, Value>)
    requires Consistent(before) && Consistent(after) && Has(objects, i) && objects[i].above.Some? && Home(State(before, objects), i)
    requires Ensured(before, plain, Tree(objects, i), true, false, id, pk)
    requires after.nodeAttrs == plain.nodeAttrs && after.nodeCounter == plain.nodeCounter
    requires after.edgeAttrs == plain.edgeAttrs[LinkOf(Settle(objects, i, id, pk), i) := PROPAGATE]
    ensures after == before && Settle(objects, i, id, pk) == objects
  {
    SeatedAs(before, objects, i);
    HomeLink(State(before, objects), i);
    hide *;
    HomeEnsured(before, plain, Tree(objects, i), id, pk);
    SettleSame(objects, i);
    Relinked(before, plain, after, LinkOf(objects, i));
    assert after == before && Settle(objects, i, id, pk) == objects;
  }

  lemma Relinked(before: Store, plain: Store, after: Store, link: EdgeKey)
    requires Consistent(before) && Consistent(after)
    requires plain.nodeAttrs == before.nodeAttrs && plain.edgeAttrs == before.edgeAttrs && plain.nodeCounter == before.nodeCounter
    requires after.nodeAttrs == plain.nodeAttrs && after.nodeCounter == plain.nodeCounter
    requires after.edgeAttrs == plain.edgeAttrs[link := PROPAGATE] && link in before.edgeAttrs && before.edgeAttrs[link] == PROPAGATE
    ensures after == before
  {
    hide Consistent;
    assert before.edgeAttrs[link := PROPAGATE] == before.edgeAttrs;
    ConsistentUnique(after, before);
  }

  lemma SeatedAs(before: Store, objects: Objects, i: nat)
    requires Has(objects, i) && objects[i].above.Some? && Home(State(before, objects), i)
    ensures var arg, o := Tree(objects, i), objects[i].node;
            && arg.neo4jId == o.neo4jId && arg.pk == o.pk && o.neo4jId.Some? && o.pk.Some? && o.neo4jId.value in before.nodeAttrs
            && before.nodeAttrs[o.neo4jId.value] == Stored(arg, o.pk.value) && !BackendAssigned(arg)
    ensures State(before, objects).edges == before.edgeAttrs && State(before, objects).objects == objects
  {
    BelowIs(State(before, objects), i);
    hide Stored, Tree, Attached, BackendAssigned;
  }

  lemma HomeLink(p: Progress, i: nat)
    requires Has(p.objects, i) && p.objects[i].above.Some? && Home(p, i)
    ensures LinkOf(p.objects, i) in p.edges && p.edges[LinkOf(p.objects, i)] == PROPAGATE
  {
  }

  lemma BelowFailed(before: Store, after: Store, objects: Objects, i: nat, update: bool, error: StoreError)
    requires Consistent(before) && Has(objects, i) && objects[i].above.Some?
    requires Home(State(before, objects), objects[i].above.value)
    requires var arg, parent := Tree(objects, i), objects[objects[i].above.value].node;
             && parent.neo4jId.Some?
             && if ParentKeyOk(arg, parent.pk.value) then Refused(before, Attached(arg, parent.neo4jId.value, parent.pk.value), update, false, error)
                else error.KeyViolation?
    ensures Promised(before, objects, i, update, after, Err(error))
  {
    hide Refused, Consistent, Stored, KeyTaken, Denotes, KeyGiven, BackendAssigned, Tree, Attached, Home, Fits;
    BelowIs(State(before, objects), i);
    if update {
      if Home(State(before, objects), i) { AgainFailed(before, objects, i, error); }
    } else {
      FreshFailed(before, objects, i, error);
    }
  }

  lemma AgainFailed(before: Store, objects: Objects, i: nat, error: StoreError)
    requires Consistent(before) && Has(objects, i) && objects[i].above.Some? && Home(State(before, objects), i)
    ensures ParentKeyOk(Tree(objects, i), objects[objects[i].above.value].node.pk.value)
    ensures !Refused(before, Tree(objects, i), true, false, error)
  {
    SeatedAs(before, objects, i);
    hide Refused, Consistent, Stored, Tree, BackendAssigned;
    HomeNotRefused(before, Tree(objects, i), error);
  }

  lemma FitsIs(before: Store, objects: Objects, i: nat)
    requires Has(objects, i)
    ensures var arg, id := Tree(objects, i), before.nodeCounter + 1;
            Fits(State(before, objects), i) ==>
              && Unknown(before, arg) && !KeyTaken(before.nodeAttrs, id, Stored(arg, KeyGiven(arg, id)))
              && (arg.parent.HasParent? && arg.parent.node.pk.Some? ==> ParentKeyOk(arg, arg.parent.node.pk.value))
  {
    hide Stored, Tree, KeyTaken, Denotes, KeyGiven, BackendAssigned, ParentKeyOk;
  }

  lemma FreshFailed(before: Store, objects: Objects, i: nat, error: StoreError)
    requires Has(objects, i) && objects[i].above.Some?
    requires var arg, parent := Tree(objects, i), objects[objects[i].above.value].node;
             && arg.parent.HasParent? && arg.parent.node.pk == parent.pk
             && if ParentKeyOk(arg, parent.pk.value) then Refused(before, arg, false, false, error) else error.KeyViolation?
    ensures !Fits(State(before, objects), i)
  {
    var arg := Tree(objects, i);
    FitsIs(before, objects, i);
    hide *;
    if ParentKeyOk(arg, objects[objects[i].above.value].node.pk.value) { FreshRefused(before, arg, error); }
  }

  // --- Inserting one object ------------------------------------------------

  /** `insertNode` of an object, its ancestors merged in first. Objects are told their ids and keys. An
      object that is home stays as it is; one that is new, below a parent that is home, gets a node of
      its own if and only if it fits. */
  method InsertObject(g: Graph, objects: Objects, i: nat, update: bool) returns (r: Result<Objects, StoreError>)
    requires g.Valid() && Has(objects, i)
    modifies g
    ensures r.Ok? ==> g.Valid() && Has(r.value, i) && |r.value| == |objects| && r.value[i].node.neo4jId.Some? && r.value[i].node.pk.Some?
    ensures r.Ok? ==> Inserted(old(g.View()), g.View(), Tree(objects, i), true, update, false,
                               r.value[i].node.neo4jId.value, r.value[i].node.pk.value)
    ensures r.Err? ==> Rejected(old(g.View()), Tree(objects, i), true, update, false, r.error)
    ensures Promised(old(g.View()), objects, i, update, g.View(), r)
    decreases i
  {
    ghost var before := g.View();
    AboveIs(objects, i);
    hide Consistent, Ensured, Refused, Hung, Home, Fits, PlacedAt, ParentKeyOk, Promised, WellMade, Stored;
    if objects[i].above.None? {
      var p := g.EnsureNodeInserted(objects[i].node, update, false);
      if p.Err? {
        RootFailed(before, g.View(), objects, i, update, p.error);
        return Err(p.error);
      }
      RootDone(before, g.View(), objects, i, update, p.value.0, p.value.1);
      return Ok(Settle(objects, i, p.value.0, p.value.1));
    }
    var a := objects[i].above.value;
    var arg := Tree(objects, i);
    var above := InsertObject(g, objects, a, true);
    if above.Err? {
      NotHomeAbove(before, g.View(), objects, i, update, above.error);
      return Err(above.error);
    }
    var parent := above.value[a].node;
    ghost var middle := g.View();
    InsertedIsStored(before, middle, Tree(objects, a), true, true, false, parent.neo4jId.value, parent.pk.value);
    var p := g.HangBelow(arg, update, false, parent.neo4jId.value, parent.pk.value);
    ghost var home := Home(State(before, objects), a);
    if home { HomeAbove(before, middle, objects, a, above); }
    if p.Err? {
      RejectedBelow(before, middle, arg, true, update, false, parent.neo4jId.value, parent.pk.value, p.error);
      if home { BelowFailed(before, g.View(), objects, i, update, p.error); }
      else { PromisedNothing(before, g.View(), objects, i, update, Err(p.error)); }
      return Err(p.error);
    }
    InsertedBelow(before, middle, g.View(), arg, true, update, false, parent.neo4jId.value, parent.pk.value, p.value.0, p.value.1);
    r := Ok(Settle(above.value, i, p.value.0, p.value.1));
    if home { BelowDone(before, g.View(), objects, i, update, p.value.0, p.value.1); }
    else { PromisedNothing(before, g.View(), objects, i, update, r); }
  }

  lemma AboveIs(objects: Objects, i: nat)
    requires Has(objects, i)
    ensures objects[i].above.None? ==> Tree(objects, i) == objects[i].node && objects[i].node.parent.NoParent?
    ensures objects[i].above.Some? ==>
              && Has(objects, objects[i].above.value) && objects[i].above.value < i && Tree(objects, i).parent.HasParent?
              && Tree(objects, i).parent.node == Tree(objects, objects[i].above.value)
  {
  }

  lemma HomeAbove(before: Store, middle: Store, objects: Objects, a: nat, r: Result<Objects, StoreError>)
    requires Has(objects, a) && Home(State(before, objects), a) && Promised(before, objects, a, true, middle, r)
    ensures r == Ok(objects) && middle == before
  {
    hide Home;
  }

  lemma PromisedNothing(before: Store, after: Store, objects: Objects, i: nat, update: bool, r: Result<Objects, StoreError>)
    requires Has(objects, i) && objects[i].above.Some? && !Home(State(before, objects), objects[i].above.value)
    ensures Promised(before, objects, i, update, after, r)
  {
  }

  lemma NotHomeAbove(before: Store, after: Store, objects: Objects, i: nat, update: bool, error: StoreError)
    requires Has(objects, i) && objects[i].above.Some? && Promised(before, objects, objects[i].above.value, true, after, Err(error))
    ensures Promised(before, objects, i, update, after, Err(error))
  {
  }

  // --- Inserting objects in order ------------------------------------------

  /** Every object in `done` has its node, and its parent is in `done` and home. */
  ghost predicate Seats(p: Progress, done: set<nat>) {
    forall i | i in done ::
      && Has(p.objects, i) && Seated(p, i)
      && (p.objects[i].above.Some? ==> p.objects[i].above.value in done && Home(p, p.objects[i].above.value))
  }

  lemma {:induction false} HomeKept(p: Progress, done: set<nat>, i: nat, a: nat)
    requires Seats(p, done) && Has(p.objects, i) && i !in done && a in done && Has(p.objects, a) && Home(p, a)
    requires forall n | n in p.nodes :: n <= p.counter
    ensures Home(PlacedAt(p, i), a)
    decreases a
  {
    SeatedKept(p, done, i, a);
    if p.objects[a].above.Some? { HomeKept(p, done, i, p.objects[a].above.value); }
  }

  lemma SeatedKept(p: Progress, done: set<nat>, i: nat, j: nat)
    requires Seats(p, done) && Has(p.objects, i) && i !in done && j in done && Has(p.objects, j)
    requires forall n | n in p.nodes :: n <= p.counter
    ensures Seated(PlacedAt(p, i), j) && PlacedAt(p, i).objects[j] == p.objects[j]
    ensures Again(PlacedAt(p, i).objects, j) <==> Again(p.objects, j)
  {
    assert Seated(p, j);
    hide Stored, KeyGiven, Tree, Home, ReferencesParent;
  }

  lemma StoredSettled(arg: NodeArg, node: NodeArg, id: NodeId, pk: map<string, Value>)
    requires arg == node.(parent := arg.parent)
    ensures Stored(arg, pk) == Stored(node.(neo4jId := Some(id), pk := Some(pk)), pk)
  {
  }

  lemma GivenReferences(arg: NodeArg, id: NodeId, parentPk: map<string, Value>)
    requires ParentKeyOk(arg, parentPk)
    ensures ReferencesParent(KeyGiven(arg, id), parentPk)
  {
  }

  lemma NewNode(p: Progress, i: nat)
    requires Has(p.objects, i)
    ensures var q, node, id, pk := PlacedAt(p, i), p.objects[i].node, p.counter + 1, KeyGiven(Tree(p.objects, i), p.counter + 1);
            && q.objects == Settle(p.objects, i, id, pk) && q.objects[i].above == p.objects[i].above
            && q.objects[i].node == node.(neo4jId := Some(id), pk := Some(pk))
            && id in q.nodes && q.nodes[id] == Stored(q.objects[i].node, pk)
            && (p.objects[i].above.Some? ==>
                  && q.objects[p.objects[i].above.value] == p.objects[p.objects[i].above.value]
                  && LinkOf(q.objects, i) in q.edges && q.edges[LinkOf(q.objects, i)] == PROPAGATE)
  {
    var arg, id := Tree(p.objects, i), p.counter + 1;
    TreeIs(p.objects, i);
    StoredSettled(arg, p.objects[i].node, id, KeyGiven(arg, id));
    hide Stored, KeyGiven, Tree;
  }

  lemma NewReferences(p: Progress, i: nat)
    requires Has(p.objects, i) && p.objects[i].above.Some? && Fits(p, i)
    ensures ReferencesParent(KeyGiven(Tree(p.objects, i), p.counter + 1), p.objects[p.objects[i].above.value].node.pk.value)
  {
    var a := p.objects[i].above.value;
    TreeIs(p.objects, i);
    TreeIs(p.objects, a);
    hide Stored, KeyGiven, Tree, ReferencesParent, KeyTaken, Denotes, BackendAssigned;
    GivenReferences(Tree(p.objects, i), p.counter + 1, p.objects[a].node.pk.value);
  }

  lemma NewSeated(p: Progress, done: set<nat>, i: nat)
    requires Seats(p, done) && Has(p.objects, i) && Smooth(p.objects, done, i) && Fits(p, i)
    ensures Seated(PlacedAt(p, i), i)
  {
    NewNode(p, i);
    if p.objects[i].above.Some? {
      assert Seated(p, p.objects[i].above.value);
      NewReferences(p, i);
    }
    hide Stored, KeyGiven, Tree, Home, ReferencesParent, Fits, PlacedAt, LinkOf, Settle;
  }

  lemma SeatsMore(p: Progress, done: set<nat>, i: nat)
    requires Seats(p, done) && Has(p.objects, i) && Smooth(p.objects, done, i) && Fits(p, i)
    requires forall n | n in p.nodes :: n <= p.counter
    ensures Seats(PlacedAt(p, i), done + {i})
  {
    var q := PlacedAt(p, i);
    NewSeated(p, done, i);
    forall j | j in done + {i}
      ensures Has(q.objects, j) && Seated(q, j)
      ensures q.objects[j].above.Some? ==> q.objects[j].above.value in done + {i} && Home(q, q.objects[j].above.value)
    {
      if j in done { SeatedKept(p, done, i, j); }
      assert q.objects[j].above == p.objects[j].above;
      if q.objects[j].above.Some? {
        var a := q.objects[j].above.value;
        assert Home(p, a);
        HomeKept(p, done, i, a);
      }
    }
  }

  /** What the plan adds: a node for each object, under the next ids in order, and the relations they
      hang by. */
  ghost predicate Grows(start: Progress, p: Progress, order: seq<nat>, k: nat)
    requires k <= |order|
  {
    && |p.objects| == |start.objects| && p.counter == start.counter + k
    && OldStays(start, p) && Numbered(start, p, order, k) && HungOnly(start, p, order, k) && AllTold(start, p)
  }

  ghost predicate OldStays(start: Progress, p: Progress) {
    && (forall n | n in p.nodes :: n in start.nodes || start.counter < n <= p.counter)
    && (forall n | n in start.nodes :: n in p.nodes && p.nodes[n] == start.nodes[n])
    && (forall e | e in start.edges :: e in p.edges && p.edges[e] == start.edges[e])
  }

  predicate Numbered(start: Progress, p: Progress, order: seq<nat>, k: nat)
    requires k <= |order|
  {
    forall j: nat | j < k :: order[j] < |p.objects| && p.objects[order[j]].node.neo4jId == Some(start.counter + 1 + j)
  }

  ghost predicate HungOnly(start: Progress, p: Progress, order: seq<nat>, k: nat)
    requires k <= |order|
  {
    forall e | e in p.edges && e !in start.edges :: HangsBy(p, order, k, e)
  }

  ghost predicate AllTold(start: Progress, p: Progress) {
    |p.objects| == |start.objects| && forall i | 0 <= i < |p.objects| :: Told(start.objects[i], p.objects[i])
  }

  /** One of the first `k` objects hangs by this relation. */
  ghost predicate HangsBy(p: Progress, order: seq<nat>, k: nat, e: EdgeKey)
    requires k <= |order|
  {
    exists j: nat :: j < k && Has(p.objects, order[j]) && p.objects[order[j]].above.Some? && e == LinkOf(p.objects, order[j])
  }

  /** Insertion tells an object its id and its key, and nothing else: the key it has, or its id. */
  ghost predicate Told(before: Made, after: Made) {
    && after == before.(node := before.node.(neo4jId := after.node.neo4jId, pk := after.node.pk))
    && (after.node.pk == before.node.pk || after.node.pk == Some(map["id" := Int(GetOr(after.node.neo4jId, 0))]))
  }

  /** No id beyond the counter is in use. */
  ghost predicate Counted(p: Progress) {
    && (forall n | n in p.nodes :: n <= p.counter)
    && (forall e | e in p.edges :: e.0 <= p.counter && e.1 <= p.counter)
  }

  lemma GrowsMore(start: Progress, p: Progress, order: seq<nat>, k: nat)
    requires Counted(start) && k < |order| && Grows(start, p, order, k) && Seats(p, Done(order, k)) && Has(p.objects, order[k])
    requires order[k] !in Done(order, k) && order[k] < |start.objects| && p.objects[order[k]].node == start.objects[order[k]].node
    ensures Grows(start, PlacedAt(p, order[k]), order, k + 1)
  {
    var q := PlacedAt(p, order[k]);
    assert |q.objects| == |p.objects| && q.counter == p.counter + 1;
    hide PlacedAt, OldStays, Numbered, HungOnly, AllTold, Seats, Done;
    OldMore(start, p, order[k]);
    NumberedMore(start, p, order, k);
    ToldMore(start, p, order[k]);
    HungMore(start, p, order, k);
  }

  lemma OldMore(start: Progress, p: Progress, i: nat)
    requires Counted(start) && OldStays(start, p) && p.counter >= start.counter && Has(p.objects, i)
    ensures OldStays(start, PlacedAt(p, i))
  {
    hide Stored, Tree, KeyGiven;
  }

  lemma NumberedMore(start: Progress, p: Progress, order: seq<nat>, k: nat)
    requires k < |order| && Numbered(start, p, order, k) && p.counter == start.counter + k && Has(p.objects, order[k]) && order[k] !in Done(order, k)
    ensures Numbered(start, PlacedAt(p, order[k]), order, k + 1)
  {
    AllDone(order, k);
    hide Stored, Tree, KeyGiven, Done;
  }

  lemma ToldMore(start: Progress, p: Progress, i: nat)
    requires AllTold(start, p) && Has(p.objects, i) && p.objects[i].node == start.objects[i].node
    ensures AllTold(start, PlacedAt(p, i))
  {
    KeyGivenIs(Tree(p.objects, i), p.counter + 1);
    TreeIs(p.objects, i);
    hide Stored, Tree, KeyGiven;
  }

  lemma HungMore(start: Progress, p: Progress, order: seq<nat>, k: nat)
    requires k < |order| && HungOnly(start, p, order, k) && Seats(p, Done(order, k)) && Has(p.objects, order[k]) && order[k] !in Done(order, k)
    ensures HungOnly(start, PlacedAt(p, order[k]), order, k + 1)
  {
    hide PlacedAt, Seats, Done, HangsBy;
    forall e | e in PlacedAt(p, order[k]).edges && e !in start.edges ensures HangsBy(PlacedAt(p, order[k]), order, k + 1, e) {
      NewEdge(p, order, k, e);
    }
  }

  lemma LinkKept(p: Progress, done: set<nat>, i: nat, j: nat)
    requires Seats(p, done) && Has(p.objects, i) && i !in done && j in done && Has(p.objects, j) && p.objects[j].above.Some?
    ensures var q := PlacedAt(p, i); q.objects[j].above == p.objects[j].above && LinkOf(q.objects, j) == LinkOf(p.objects, j)
  {
    NewNode(p, i);
    hide Stored, KeyGiven, Tree, PlacedAt, Seated, Home;
  }

  lemma PlacedEdge(p: Progress, i: nat, e: EdgeKey)
    requires Has(p.objects, i) && e in PlacedAt(p, i).edges && e !in p.edges
    ensures var q := PlacedAt(p, i); q.objects[i].above.Some? && e == LinkOf(q.objects, i)
  {
    hide Stored, KeyGiven, Tree;
  }

  lemma NewEdge(p: Progress, order: seq<nat>, k: nat, e: EdgeKey)
    requires k < |order| && Seats(p, Done(order, k)) && Has(p.objects, order[k]) && order[k] !in Done(order, k)
    requires e in PlacedAt(p, order[k]).edges && (e in p.edges ==> HangsBy(p, order, k, e))
    ensures HangsBy(PlacedAt(p, order[k]), order, k + 1, e)
  {
    var q, done, i := PlacedAt(p, order[k]), Done(order, k), order[k];
    AllDone(order, k);
    if e in p.edges {
      var j: nat :| j < k && Has(p.objects, order[j]) && p.objects[order[j]].above.Some? && e == LinkOf(p.objects, order[j]);
      assert order[j] in done;
      hide Done, Seats, PlacedAt, LinkOf;
      LinkKept(p, done, i, order[j]);
      assert j < k + 1 && Has(q.objects, order[j]);
    } else {
      hide Done, Seats, PlacedAt, LinkOf;
      PlacedEdge(p, i, e);
      assert k < k + 1 && Has(q.objects, order[k]);
    }
  }

  lemma {:induction false} AllDone(order: seq<nat>, k: nat)
    requires k <= |order|
    ensures forall j: nat | j < k :: order[j] in Done(order, k)
  {
    if k > 0 { AllDone(order, k - 1); }
  }

  lemma KeyGivenIs(arg: NodeArg, id: NodeId)
    ensures KeyGiven(arg, id) == map["id" := Int(id)] || arg.pk == Some(KeyGiven(arg, id))
  {
  }

  lemma GrowsNothing(start: Progress, order: seq<nat>)
    requires InRange(start, order)
    ensures Reached(start, order, 0)
  {
    assert Plan(start, order, 0) == start && Done(order, 0) == {};
    assert forall i | 0 <= i < |start.objects| :: Told(start.objects[i], start.objects[i]);
  }

  /** An object not yet inserted is as it was. */
  lemma {:induction false} PlanElsewhere(start: Progress, order: seq<nat>, k: nat, i: nat)
    requires InRange(start, order) && k <= |order| && Has(start.objects, i) && i !in Done(order, k)
    ensures Plan(start, order, k).objects[i] == start.objects[i]
  {
    if k > 0 { PlanElsewhere(start, order, k - 1, i); }
  }

  /** As far as the plan has come, every object has its node, and nothing else was added. */
  ghost predicate Reached(start: Progress, order: seq<nat>, k: nat)
    requires InRange(start, order) && k <= |order|
  {
    Seats(Plan(start, order, k), Done(order, k)) && Grows(start, Plan(start, order, k), order, k)
  }

  /** The plan, as far as everything is smooth and fits. */
  lemma {:induction false} PlanSeats(start: Progress, order: seq<nat>, k: nat)
    requires Counted(start) && k <= |order| && InRange(start, order)
    requires AllSmooth(start, order) && forall j: nat | j < k :: FitsAt(start, order, j)
    ensures Reached(start, order, k)
    decreases k
  {
    hide Counted, Reached, SmoothAt, FitsAt, InRange;
    if k == 0 {
      GrowsNothing(start, order);
    } else {
      PlanSeats(start, order, k - 1);
      PlanSeatsNext(start, order, k - 1);
    }
  }

  lemma PlanSeatsNext(start: Progress, order: seq<nat>, k: nat)
    requires Counted(start) && k < |order| && InRange(start, order) && SmoothAt(start, order, k) && FitsAt(start, order, k)
    requires Reached(start, order, k)
    ensures Reached(start, order, k + 1)
  {
    hide *;
    NextParts(start, order, k);
    NextIs(start, order, k);
    SeatsMore(Plan(start, order, k), Done(order, k), order[k]);
    GrowsMore(start, Plan(start, order, k), order, k);
    ReachedSo(start, order, k + 1);
  }

  lemma NextParts(start: Progress, order: seq<nat>, k: nat)
    requires Counted(start) && k < |order| && InRange(start, order) && SmoothAt(start, order, k) && FitsAt(start, order, k)
    requires Reached(start, order, k)
    ensures var p, done, i := Plan(start, order, k), Done(order, k), order[k];
            && Seats(p, done) && Grows(start, p, order, k) && (forall n | n in p.nodes :: n <= p.counter)
            && Has(p.objects, i) && i < |start.objects| && i !in done && Smooth(p.objects, done, i) && Fits(p, i)
            && p.objects[i].node == start.objects[i].node
  {
    PlanElsewhere(start, order, k, order[k]);
    PlanIdsBounded(start, Plan(start, order, k), order, k);
    hide Plan, Done, Seats, Grows, Fits, Again;
  }

  lemma NextIs(start: Progress, order: seq<nat>, k: nat)
    requires k < |order| && InRange(start, order)
    ensures Plan(start, order, k + 1) == PlacedAt(Plan(start, order, k), order[k]) && Done(order, k + 1) == Done(order, k) + {order[k]}
  {
    hide PlacedAt;
  }

  lemma ReachedSo(start: Progress, order: seq<nat>, k: nat)
    requires InRange(start, order) && k <= |order|
    requires Seats(Plan(start, order, k), Done(order, k)) && Grows(start, Plan(start, order, k), order, k)
    ensures Reached(start, order, k)
  {
    hide Plan, Done, Seats, Grows, InRange;
  }

  lemma PlanIdsBounded(start: Progress, p: Progress, order: seq<nat>, k: nat)
    requires Counted(start) && k <= |order| && Grows(start, p, order, k)
    ensures forall n | n in p.nodes :: n <= p.counter
  {
  }

  lemma StartCounted(s: Store, objects: Objects)
    requires Consistent(s)
    ensures Counted(State(s, objects))
  {
    assert forall e | e in s.edgeAttrs :: e.0 in s.nodeAttrs && e.1 in s.nodeAttrs;
  }

  ghost predicate AsPlanned(start: Progress, order: seq<nat>, after: Store, r: Result<Objects, StoreError>)
    requires InRange(start, order)
  {
    AllSmooth(start, order) ==>
      (r.Ok? <==> AllFit(start, order)) && (r.Ok? ==> State(after, r.value) == Plan(start, order, |order|))
  }

  /** Steps 1 and 2: an object after the other. Where all is smooth, each gets a node of its own, if and
      only if all fit, and the store is what the plan says. */
  method InsertAll(g: Graph, objects: Objects, order: seq<nat>) returns (r: Result<Objects, StoreError>)
    requires g.Valid() && InRange(State(g.View(), objects), order)
    modifies g
    ensures r.Ok? ==> g.Valid() && WellMade(r.value) && |r.value| == |objects|
    ensures AsPlanned(State(old(g.View()), objects), order, g.View(), r)
  {
    ghost var start := State(g.View(), objects);
    StartCounted(g.View(), objects);
    FollowsNothing(g.View(), objects, order);
    var now := objects;
    hide *;
    for k := 0 to |order|
      invariant g.Valid() && WellMade(now) && |now| == |objects| && Follows(start, order, k, g.View(), now)
    {
      var next := InsertNext(g, start, order, k, now);
      if next.Err? { return next; }
      now := next.value;
    }
    AllFollowed(start, order, g.View(), now);
    return Ok(now);
  }

  method InsertNext(g: Graph, ghost start: Progress, order: seq<nat>, k: nat, now: Objects) returns (next: Result<Objects, StoreError>)
    requires Counted(start) && k < |order| && InRange(start, order) && g.Valid() && WellMade(now) && |now| == |start.objects|
    requires Follows(start, order, k, g.View(), now)
    modifies g
    ensures next.Ok? ==> g.Valid() && WellMade(next.value) && |next.value| == |now| && Follows(start, order, k + 1, g.View(), next.value)
    ensures next.Err? ==> AsPlanned(start, order, g.View(), next)
  {
    ghost var before := g.View();
    InPlace(start, order, k, now);
    hide *;
    next := InsertObject(g, now, order[k], false);
    NextFollows(start, order, k, before, now, g.View(), next);
  }

  /** Where all is smooth, the first `k` objects fit, and the store is as planned. */
  ghost predicate Follows(start: Progress, order: seq<nat>, k: nat, now: Store, objects: Objects)
    requires InRange(start, order) && k <= |order|
  {
    AllSmooth(start, order) ==> State(now, objects) == Plan(start, order, k) && forall j: nat | j < k :: FitsAt(start, order, j)
  }

  lemma InPlace(start: Progress, order: seq<nat>, k: nat, now: Objects)
    requires InRange(start, order) && k < |order| && WellMade(now) && |now| == |start.objects|
    ensures Has(now, order[k])
  {
    hide WellMade;
  }

  lemma FollowsNothing(s: Store, objects: Objects, order: seq<nat>)
    requires InRange(State(s, objects), order)
    ensures Follows(State(s, objects), order, 0, s, objects) && WellMade(objects)
  {
    assert Plan(State(s, objects), order, 0) == State(s, objects);
  }

  lemma AllFollowed(start: Progress, order: seq<nat>, now: Store, objects: Objects)
    requires InRange(start, order) && Follows(start, order, |order|, now, objects)
    ensures AsPlanned(start, order, now, Ok(objects))
  {
    hide AllSmooth, FitsAt, Plan;
  }

  lemma NextFollows(start: Progress, order: seq<nat>, k: nat, before: Store, now: Objects, after: Store, next: Result<Objects, StoreError>)
    requires Counted(start) && k < |order| && InRange(start, order) && |now| == |start.objects| && Has(now, order[k])
    requires Follows(start, order, k, before, now) && Promised(before, now, order[k], false, after, next)
    ensures next.Ok? ==> Follows(start, order, k + 1, after, next.value)
    ensures next.Err? ==> AsPlanned(start, order, after, next)
  {
    hide AllSmooth, FitsAt, Plan, Promised;
    if AllSmooth(start, order) { AllMore(start, order, k, before, now, after, next); }
  }

  lemma AllMore(start: Progress, order: seq<nat>, k: nat, before: Store, now: Objects, after: Store, next: Result<Objects, StoreError>)
    requires Counted(start) && k < |order| && InRange(start, order) && |now| == |start.objects|
    requires AllSmooth(start, order) && (forall j: nat | j < k :: FitsAt(start, order, j)) && State(before, now) == Plan(start, order, k)
    requires Promised(before, now, order[k], false, after, next)
    ensures next.Ok? ==> State(after, next.value) == Plan(start, order, k + 1) && FitsAt(start, order, k)
    ensures next.Err? ==> !FitsAt(start, order, k)
  {
    var p, done := Plan(start, order, k), Done(order, k);
    PlanSeats(start, order, k);
    NextIs(start, order, k);
    assert SmoothAt(start, order, k) && (FitsAt(start, order, k) <==> Fits(p, order[k]));
    assert p.objects == now && p == State(before, now);
    hide Plan, Done, PlacedAt, Fits, Home, Seats, Grows, AllSmooth, FitsAt, SmoothAt, Again;
    if p.objects[order[k]].above.Some? { HomeAt(p, done, p.objects[order[k]].above.value); }
  }

  lemma HomeAt(p: Progress, done: set<nat>, a: nat)
    requires Seats(p, done) && a in done && Has(p.objects, a) && !Again(p.objects, a)
    ensures Home(p, a)
  {
  }

  // --- Relations of the group ----------------------------------------------

  datatype RelationArg = RelationArg(src: End, dst: End, relType: string, attrs: Attrs)

  /** Nothing that was in the store has changed. */
  ghost predicate Kept(before: Store, after: Store) {
    && (forall n | n in before.nodeAttrs :: n in after.nodeAttrs && after.nodeAttrs[n] == before.nodeAttrs[n])
    && (forall e | e in before.edgeAttrs :: e in after.edgeAttrs && after.edgeAttrs[e] == before.edgeAttrs[e])
  }

  /** What step 4 writes on nodes. */
  const MARKS := {"is_weak", "_propagate", "parent_relation", "_weak_init_done"}

  /** The node goes by the label and key of an end, unless the key names a mark. */
  predicate EndIs(nodes: map<NodeId, Attrs>, n: NodeId, end: End) {
    n in nodes && end.pk.Some? && (end.pk.value.Keys !! MARKS ==> Named(nodes[n], end.mainLabel, end.pk.value))
  }

  /** The relation is a new one, with the given ends, type and attributes. */
  predicate IsRelation(before: Store, after: Store, rel: RelationArg, e: EdgeKey) {
    && e in after.edgeAttrs && e !in before.edgeAttrs && e.2 == rel.relType && after.edgeAttrs[e] == rel.attrs
    && EndIs(after.nodeAttrs, e.0, rel.src) && EndIs(after.nodeAttrs, e.1, rel.dst)
  }

  /** A weak relation of the group. */
  ghost predicate Related(before: Store, after: Store, rel: RelationArg) {
    exists e :: IsRelation(before, after, rel, e)
  }

  /** Relation `k` cannot be inserted after those before it: an end is not there, or there is such a
      relation between its ends, from before or among them. */
  ghost predicate RefusedAt(nodes: map<NodeId, Attrs>, edges: map<EdgeKey, Attrs>, relations: seq<RelationArg>, k: nat, error: StoreError)
    requires k < |relations|
  {
    var rel := relations[k];
    match error
    case MissingNode => Unresolved(rel.src, nodes) || Unresolved(rel.dst, nodes)
    case DuplicateRelation(e) => Fitting(nodes, rel, e) && (e in edges || exists j :: 0 <= j < k && Fitting(nodes, relations[j], e))
    case _ => false
  }

  /** The relation has the ends and the type. */
  predicate Fitting(nodes: map<NodeId, Attrs>, rel: RelationArg, e: EdgeKey) {
    e.2 == rel.relType && EndIs(nodes, e.0, rel.src) && EndIs(nodes, e.1, rel.dst)
  }

  ghost predicate RelationRefused(nodes: map<NodeId, Attrs>, edges: map<EdgeKey, Attrs>, relations: seq<RelationArg>, error: StoreError) {
    exists k :: 0 <= k < |relations| && RefusedAt(nodes, edges, relations, k, error)
  }

  /** Every new relation is one of the first `k`. */
  ghost predicate OnlyRelated(before: Store, after: Store, relations: seq<RelationArg>, k: nat)
    requires k <= |relations|
  {
    forall e | e in after.edgeAttrs && e !in before.edgeAttrs :: exists j :: 0 <= j < k && IsRelation(before, after, relations[j], e)
  }

  /** The first `k` relations are inserted. */
  ghost predicate Relating(before: Store, now: Store, relations: seq<RelationArg>, k: nat)
    requires k <= |relations|
  {
    && now.nodeAttrs == before.nodeAttrs && Kept(before, now) && (k == 0 ==> now == before) && OnlyRelated(before, now, relations, k)
    && forall j | 0 <= j < k :: Related(before, now, relations[j])
  }

  /** Step 3. */
  method InsertRelations(g: Graph, relations: seq<RelationArg>) returns (r: Result<(), StoreError>)
    requires g.Valid()
    modifies g
    ensures r.Ok? ==> g.Valid() && Relating(old(g.View()), g.View(), relations, |relations|)
    ensures r.Err? ==> RelationRefused(old(g.nodeAttrs), old(g.edgeAttrs), relations, r.error)
  {
    ghost var before := g.View();
    KeptSame(before);
    NoneRelated(before, relations);
    assert Relating(before, before, relations, 0);
    hide *;
    for k := 0 to |relations|
      invariant g.Valid() && Relating(before, g.View(), relations, k)
    {
      var error := InsertNextRelation(g, before, relations, k);
      if error.Some? {
        RefusedThere(before, relations, k, error.value);
        return Err(error.value);
      }
    }
    return Ok(());
  }

  method InsertNextRelation(g: Graph, ghost before: Store, relations: seq<RelationArg>, k: nat) returns (error: Option<StoreError>)
    requires g.Valid() && k < |relations| && Relating(before, g.View(), relations, k)
    modifies g
    ensures if error.None? then g.Valid() && Relating(before, g.View(), relations, k + 1)
            else RefusedAt(before.nodeAttrs, before.edgeAttrs, relations, k, error.value)
  {
    hide Consistent, Named, Unresolved, Relating, RefusedAt;
    ghost var now := g.View();
    var rel := relations[k];
    var e := g.InsertRelation(rel.src, rel.dst, rel.relType, rel.attrs, false, false);
    if e.Err? {
      RefusedSo(before, now, relations, k, e.error);
      return Some(e.error);
    }
    RelatesOneMore(before, now, g.View(), relations, k, e.value);
    return None;
  }

  lemma RefusedThere(before: Store, relations: seq<RelationArg>, k: nat, error: StoreError)
    requires k < |relations| && RefusedAt(before.nodeAttrs, before.edgeAttrs, relations, k, error)
    ensures RelationRefused(before.nodeAttrs, before.edgeAttrs, relations, error)
  {
    hide RefusedAt;
  }

  lemma RefusedSo(before: Store, now: Store, relations: seq<RelationArg>, k: nat, error: StoreError)
    requires k < |relations| && Relating(before, now, relations, k)
    requires var src, dst := relations[k].src, relations[k].dst;
             if error.DuplicateRelation?
             then error.e in now.edgeAttrs && error.e.2 == relations[k].relType
                  && error.e.0 in now.nodeAttrs && src.pk.Some? && Named(now.nodeAttrs[error.e.0], src.mainLabel, src.pk.value)
                  && error.e.1 in now.nodeAttrs && dst.pk.Some? && Named(now.nodeAttrs[error.e.1], dst.mainLabel, dst.pk.value)
             else error == MissingNode && (Unresolved(src, now.nodeAttrs) || Unresolved(dst, now.nodeAttrs))
    ensures RefusedAt(before.nodeAttrs, before.edgeAttrs, relations, k, error)
  {
    hide Named, Unresolved, Kept, Related;
    if error.DuplicateRelation? && error.e !in before.edgeAttrs {
      var j :| 0 <= j < k && IsRelation(before, now, relations[j], error.e);
      assert Fitting(before.nodeAttrs, relations[j], error.e);
    }
  }

  lemma RelatesOneMore(before: Store, now: Store, next: Store, relations: seq<RelationArg>, k: nat, e: EdgeKey)
    requires k < |relations| && Relating(before, now, relations, k) && e !in now.edgeAttrs && e.2 == relations[k].relType
    requires next.nodeAttrs == now.nodeAttrs && next.edgeAttrs == now.edgeAttrs[e := relations[k].attrs]
    requires var src := relations[k].src;
             e.0 in next.nodeAttrs && src.pk.Some? && Named(next.nodeAttrs[e.0], src.mainLabel, src.pk.value)
    requires var dst := relations[k].dst;
             e.1 in next.nodeAttrs && dst.pk.Some? && Named(next.nodeAttrs[e.1], dst.mainLabel, dst.pk.value)
    ensures Relating(before, next, relations, k + 1)
  {
    hide Named, Kept, Related, OnlyRelated, IsRelation;
    RelationAdded(before, now, next, e, relations[k]);
    OnlyOneMore(before, now, next, relations, k, e);
    forall j | 0 <= j < k ensures Related(before, next, relations[j]) { RelatedStays(before, now, next, relations[j]); }
  }

  lemma KeptSame(s: Store)
    ensures Kept(s, s)
  {
  }

  lemma NoneRelated(s: Store, relations: seq<RelationArg>)
    ensures OnlyRelated(s, s, relations, 0)
  {
  }

  lemma RelationAdded(before: Store, now: Store, next: Store, e: EdgeKey, rel: RelationArg)
    requires Kept(before, now) && e !in now.edgeAttrs && e.2 == rel.relType
    requires next.nodeAttrs == now.nodeAttrs && next.edgeAttrs == now.edgeAttrs[e := rel.attrs]
    requires e.0 in next.nodeAttrs && rel.src.pk.Some? && Named(next.nodeAttrs[e.0], rel.src.mainLabel, rel.src.pk.value)
    requires e.1 in next.nodeAttrs && rel.dst.pk.Some? && Named(next.nodeAttrs[e.1], rel.dst.mainLabel, rel.dst.pk.value)
    ensures Kept(now, next) && Kept(before, next) && IsRelation(before, next, rel, e) && Related(before, next, rel)
  {
    hide Named;
    assert EndIs(next.nodeAttrs, e.0, rel.src) && EndIs(next.nodeAttrs, e.1, rel.dst);
    hide EndIs;
    assert IsRelation(before, next, rel, e);
  }

  lemma IsRelationStays(before: Store, now: Store, next: Store, rel: RelationArg, e: EdgeKey)
    requires IsRelation(before, now, rel, e) && Kept(now, next)
    ensures IsRelation(before, next, rel, e)
  {
    hide Named;
  }

  lemma RelatedStays(before: Store, now: Store, next: Store, rel: RelationArg)
    requires Related(before, now, rel) && Kept(now, next)
    ensures Related(before, next, rel)
  {
    hide IsRelation, Kept;
    var e :| IsRelation(before, now, rel, e);
    IsRelationStays(before, now, next, rel, e);
  }

  lemma OnlyOneMore(before: Store, now: Store, next: Store, relations: seq<RelationArg>, k: nat, e: EdgeKey)
    requires k < |relations| && OnlyRelated(before, now, relations, k) && Kept(now, next)
    requires next.edgeAttrs.Keys == now.edgeAttrs.Keys + {e} && IsRelation(before, next, relations[k], e)
    ensures OnlyRelated(before, next, relations, k + 1)
  {
    hide IsRelation, Kept;
    forall f | f in next.edgeAttrs && f !in before.edgeAttrs ensures exists j :: 0 <= j < k + 1 && IsRelation(before, next, relations[j], f) {
      if f != e {
        var j :| 0 <= j < k && IsRelation(before, now, relations[j], f);
        IsRelationStays(before, now, next, relations[j], f);
      }
    }
  }

  // --- Marking the members -------------------------------------------------

  /** A weak node is marked as `init_propagation` would, and the relation it hangs by says what it is. */
  ghost predicate FlaggedOne(before: Store, after: Store, link: EdgeKey) {
    && link.1 in before.nodeAttrs && link in before.edgeAttrs
    && after.nodeAttrs == before.nodeAttrs[link.1 := before.nodeAttrs[link.1] + WeakFlags(link.2)]
    && after.edgeAttrs == before.edgeAttrs[link := before.edgeAttrs[link]["parent_relation" := Str(link.2)]]
  }

  /** Step 4 for one weak node; an error when it does not hang from the node it should. */
  method MarkMember(g: Graph, link: EdgeKey) returns (ok: bool)
    requires g.Valid()
    modifies g
    ensures ok ==> g.Valid() && FlaggedOne(old(g.View()), g.View(), link)
    ensures ok <==> link.1 in old(g.nodeAttrs) && link in old(g.edgeAttrs)
  {
    hide Consistent, WeakFlags;
    if link.1 !in g.nodeAttrs { return false; }
    SetFlags(g, link.1, link.2);
    if link !in g.edgeAttrs { return false; }
    g.SetRelation(link, g.edgeAttrs[link]["parent_relation" := Str(link.2)]);
    return true;
  }

  method SetFlags(g: Graph, id: NodeId, relation: string)
    requires g.Valid() && id in g.nodeAttrs
    modifies g
    ensures g.Valid() && g.nodeAttrs == old(g.nodeAttrs)[id := old(g.nodeAttrs)[id] + WeakFlags(relation)]
    ensures g.edgeAttrs == old(g.edgeAttrs)
  {
    var flags := WeakFlags(relation);
    assert Updates(g.nodeAttrs[id], flags, {}) == flags;
    hide Consistent, Updates;
    var _ := g.SetInside(id, flags, {});
  }

  /** The first `k` members are marked, and nothing else has changed. */
  ghost predicate Flagged(before: Store, after: Store, links: seq<EdgeKey>, k: nat)
    requires k <= |links|
  {
    && after.nodeAttrs.Keys == before.nodeAttrs.Keys && after.edgeAttrs.Keys == before.edgeAttrs.Keys
    && (forall j: nat | j < |links| && links[j].1 in before.nodeAttrs ::
          after.nodeAttrs[links[j].1] == if j < k then before.nodeAttrs[links[j].1] + WeakFlags(links[j].2) else before.nodeAttrs[links[j].1])
    && (forall j: nat | j < |links| && links[j] in before.edgeAttrs ::
          after.edgeAttrs[links[j]] == if j < k then before.edgeAttrs[links[j]]["parent_relation" := Str(links[j].2)] else before.edgeAttrs[links[j]])
    && (forall n | n in before.nodeAttrs && (forall j: nat | j < |links| :: links[j].1 != n) :: after.nodeAttrs[n] == before.nodeAttrs[n])
    && (forall e | e in before.edgeAttrs && e !in links :: after.edgeAttrs[e] == before.edgeAttrs[e])
  }

  predicate DistinctEnds(links: seq<EdgeKey>) {
    forall i: nat, j: nat | i < j < |links| :: links[i].1 != links[j].1
  }

  lemma FlaggedMore(before: Store, now: Store, next: Store, links: seq<EdgeKey>, k: nat)
    requires k < |links| && DistinctEnds(links) && Flagged(before, now, links, k) && FlaggedOne(now, next, links[k])
    ensures Flagged(before, next, links, k + 1)
  {
    hide WeakFlags;
    assert forall j: nat | j < |links| && j != k :: links[j].1 != links[k].1 && links[j] != links[k];
  }

  /** Step 4 but for the strong node: with distinct members it succeeds if and only if each hangs from
      the node it should. */
  method MarkMembers(g: Graph, links: seq<EdgeKey>) returns (ok: bool)
    requires g.Valid()
    modifies g
    ensures ok ==> g.Valid()
    ensures AllMarked(old(g.View()), g.View(), links, ok)
  {
    ghost var before := g.View();
    MarkingStarts(before, links);
    hide *;
    for k := 0 to |links|
      invariant g.Valid() && Marking(before, g.View(), links, k)
    {
      ok := MarkNext(g, before, links, k);
      if !ok { return; }
    }
    MarkingEnds(before, g.View(), links);
    return true;
  }

  method MarkNext(g: Graph, ghost before: Store, links: seq<EdgeKey>, k: nat) returns (ok: bool)
    requires g.Valid() && k < |links| && Marking(before, g.View(), links, k)
    modifies g
    ensures if ok then g.Valid() && Marking(before, g.View(), links, k + 1) else AllMarked(before, g.View(), links, false)
  {
    ghost var now := g.View();
    hide *;
    ok := MarkMember(g, links[k]);
    MarkingGoesOn(before, now, g.View(), links, k, ok);
  }

  ghost predicate AllMarked(before: Store, after: Store, links: seq<EdgeKey>, ok: bool) {
    DistinctEnds(links) ==>
      && (ok <==> forall j: nat | j < |links| :: links[j].1 in before.nodeAttrs && links[j] in before.edgeAttrs)
      && (ok ==> Flagged(before, after, links, |links|))
  }

  ghost predicate Marking(before: Store, now: Store, links: seq<EdgeKey>, k: nat)
    requires k <= |links|
  {
    DistinctEnds(links) ==>
      Flagged(before, now, links, k) && forall j: nat | j < k :: links[j].1 in before.nodeAttrs && links[j] in before.edgeAttrs
  }

  lemma MarkingStarts(s: Store, links: seq<EdgeKey>)
    ensures Marking(s, s, links, 0)
  {
  }

  lemma MarkingGoesOn(before: Store, now: Store, next: Store, links: seq<EdgeKey>, k: nat, marked: bool)
    requires k < |links| && Marking(before, now, links, k) && (marked ==> FlaggedOne(now, next, links[k]))
    requires marked <==> links[k].1 in now.nodeAttrs && links[k] in now.edgeAttrs
    ensures if marked then Marking(before, next, links, k + 1) else AllMarked(before, next, links, false)
  {
    hide Flagged, FlaggedOne, DistinctEnds;
    if DistinctEnds(links) {
      FlaggedKeys(before, now, links, k);
      if marked { FlaggedMore(before, now, next, links, k); }
    }
  }

  lemma MarkingEnds(before: Store, after: Store, links: seq<EdgeKey>)
    requires Marking(before, after, links, |links|)
    ensures AllMarked(before, after, links, true)
  {
    hide Flagged, DistinctEnds;
  }

  lemma FlaggedKeys(before: Store, now: Store, links: seq<EdgeKey>, k: nat)
    requires k <= |links| && Flagged(before, now, links, k)
    ensures now.nodeAttrs.Keys == before.nodeAttrs.Keys && now.edgeAttrs.Keys == before.edgeAttrs.Keys
  {
  }

  // --- The order of a group ------------------------------------------------

  type GroupKey = (string, map<string, Value>)

  type Pair = (Weak<GroupKey, nat>, nat)

  /** `_group_key`. */
  function KeyInGroup(arg: NodeArg): GroupKey {
    (arg.mainLabel, GetOr(arg.pk, map[]))
  }

  /** A strong node, and weak nodes with their parents, given as objects. */
  predicate IsGroup(objects: Objects, strong: nat, weak: seq<nat>) {
    && Has(objects, strong) && objects[strong].above.None?
    && forall k | 0 <= k < |weak| :: weak[k] < |objects| && objects[weak[k]].above.Some?
  }

  /** The weak nodes by their place in the list. */
  function Entries(objects: Objects, strong: nat, weak: seq<nat>): (r: seq<Weak<GroupKey, nat>>)
    requires IsGroup(objects, strong, weak)
    ensures |r| == |weak| && forall i | 0 <= i < |r| :: r[i].node == i
  {
    seq(|weak|, i requires 0 <= i < |weak| =>
      Weak(i, KeyInGroup(objects[weak[i]].node), KeyInGroup(objects[objects[weak[i]].above.value].node)))
  }

  /** `weak_nodes_in_creation_order`: weak nodes, each with the place of the node last created under its
      parent's key. The strong node has the place after the last. */
  function GroupOrder(objects: Objects, strong: nat, weak: seq<nat>): seq<Pair>
    requires IsGroup(objects, strong, weak)
  {
    Rounds([], map[KeyInGroup(objects[strong].node) := |weak|], Entries(objects, strong, weak)).0
  }

  function RefOf(strong: nat, weak: seq<nat>, place: nat): nat {
    if place < |weak| then weak[place] else strong
  }

  /** The order in which the objects are inserted. */
  function Refs(strong: nat, weak: seq<nat>, ordered: seq<Pair>): (r: seq<nat>)
    ensures |r| == |ordered| + 1 && r[0] == strong && forall k: nat | k < |ordered| :: r[k + 1] == RefOf(strong, weak, ordered[k].0.node)
  {
    [strong] + seq(|ordered|, k requires 0 <= k < |ordered| => RefOf(strong, weak, ordered[k].0.node))
  }

  /** The node with its parent's key that member `k` is paired with is its own parent. */
  predicate OwnAt(objects: Objects, strong: nat, weak: seq<nat>, ordered: seq<Pair>, k: nat)
    requires k < |ordered|
  {
    RefOf(strong, weak, ordered[k].0.node) < |objects|
    && objects[RefOf(strong, weak, ordered[k].0.node)].above == Some(RefOf(strong, weak, ordered[k].1))
  }

  predicate OwnParents(objects: Objects, strong: nat, weak: seq<nat>, ordered: seq<Pair>) {
    forall k: nat | k < |ordered| :: OwnAt(objects, strong, weak, ordered, k)
  }

  /** Some weak node has no chain of parents in the group that leads to the strong node. */
  ghost predicate Detached(objects: Objects, strong: nat, weak: seq<nat>)
    requires IsGroup(objects, strong, weak)
  {
    exists w :: w in Entries(objects, strong, weak) && !Anchored(KeyInGroup(objects[strong].node), Entries(objects, strong, weak), w.parentKey)
  }

  ghost predicate Placed(ordered: seq<Pair>, i: nat) {
    exists k: nat :: k < |ordered| && ordered[k].0.node == i
  }

  /** What an order is: every weak node is in it once, each paired with the strong node or one before it. */
  ghost predicate IsOrder(weak: seq<nat>, ordered: seq<Pair>) {
    && (forall j: nat, k: nat | j < k < |ordered| :: ordered[j].0.node != ordered[k].0.node)
    && (forall k: nat | k < |ordered| :: ordered[k].0.node < |weak| && PairedBefore(weak, ordered, k))
    && (forall i: nat | i < |weak| :: Placed(ordered, i))
  }

  ghost predicate PairedBefore(weak: seq<nat>, ordered: seq<Pair>, k: nat)
    requires k < |ordered|
  {
    ordered[k].1 == |weak| || (ordered[k].1 < |weak| && exists j: nat :: j < k && ordered[j].0.node == ordered[k].1)
  }

  /** ... that goes by its parent's key. */
  predicate PairedByKey(objects: Objects, strong: nat, weak: seq<nat>, ordered: seq<Pair>)
    requires IsGroup(objects, strong, weak)
  {
    forall k: nat | k < |ordered| ::
      var w := RefOf(strong, weak, ordered[k].0.node);
      objects[w].above.Some? && KeyInGroup(objects[RefOf(strong, weak, ordered[k].1)].node) == KeyInGroup(objects[objects[w].above.value].node)
  }

  lemma AtMostOnce<T>(b: seq<T>, x: T)
    requires forall i, l | 0 <= i < l < |b| :: b[i] != b[l]
    ensures multiset(b)[x] <= 1
  {
    if x in b {
      var i :| 0 <= i < |b| && b[i] == x;
      assert b == b[..i] + [b[i]] + b[i + 1..];
      assert x !in b[..i] && x !in b[i + 1..];
    }
  }

  lemma AtLeastTwice<T>(a: seq<T>, j: nat, k: nat)
    requires j < k < |a| && a[j] == a[k]
    ensures multiset(a)[a[j]] >= 2
  {
    assert a == a[..k] + [a[k]] + a[k + 1..];
    assert a[..k][j] == a[j];
  }

  lemma OrderIs(objects: Objects, strong: nat, weak: seq<nat>, ordered: seq<Pair>)
    requires IsGroup(objects, strong, weak)
    requires multiset(Firsts(ordered)) == multiset(Entries(objects, strong, weak))
    requires ParentsFirst(|weak|, KeyInGroup(objects[strong].node), ordered)
    ensures IsOrder(weak, ordered)
    ensures PairedByKey(objects, strong, weak, ordered)
  {
    var entries, firsts := Entries(objects, strong, weak), Firsts(ordered);
    forall k: nat | k < |ordered| ensures ordered[k].0.node < |weak| && ordered[k].0 == entries[ordered[k].0.node] {
      assert firsts[k] in multiset(firsts);
      assert firsts[k] in entries;
    }
    forall j: nat, k: nat | j < k < |ordered| ensures ordered[j].0.node != ordered[k].0.node {
      AtMostOnce(entries, firsts[j]);
      if ordered[j].0.node == ordered[k].0.node { AtLeastTwice(firsts, j, k); }
    }
    forall k: nat | k < |ordered|
      ensures PairedBefore(weak, ordered, k)
      ensures KeyInGroup(objects[RefOf(strong, weak, ordered[k].1)].node) == ordered[k].0.parentKey
    {
      assert HasParentBefore(|weak|, KeyInGroup(objects[strong].node), ordered, k);
    }
    forall i: nat | i < |weak| ensures Placed(ordered, i) {
      assert entries[i] in multiset(entries);
      assert entries[i] in firsts;
      var k: nat :| k < |firsts| && firsts[k] == entries[i];
      assert ordered[k].0.node == i;
    }
  }

  // --- create_group --------------------------------------------------------

  predicate Member(strong: nat, weak: seq<nat>, i: nat) {
    i == strong || i in weak
  }

  /** A weak node hangs from its parent's node by a relation that propagates and says what it is. */
  predicate Hangs(now: Store, link: EdgeKey) {
    && link in now.edgeAttrs && Get(now.edgeAttrs[link], "_propagate") == Bool(true)
    && Get(now.edgeAttrs[link], "parent_relation") == Str(link.2)
  }

  /** The members have new nodes of their own, under ids no two share, and there are no others. */
  ghost predicate NewNodes(before: Store, after: Store, objects: Objects, strong: nat, weak: seq<nat>, made: Objects) {
    && |made| == |objects|
    && (forall i: nat | Member(strong, weak, i) ::
          && i < |made| && Told(objects[i], made[i]) && made[i].node.pk.Some?
          && IdOf(made, i) in after.nodeAttrs && IdOf(made, i) !in before.nodeAttrs)
    && (forall i: nat, j: nat | Member(strong, weak, i) && Member(strong, weak, j) && i != j && i < |made| && j < |made| :: IdOf(made, i) != IdOf(made, j))
    && (forall n | n in after.nodeAttrs && n !in before.nodeAttrs :: exists i: nat :: Member(strong, weak, i) && i < |made| && n == IdOf(made, i))
  }

  /** A weak node of the group, in its place: its attributes and marks, and the relation to its own
      parent's node. */
  ghost predicate InItsPlace(after: Store, made: Objects, w: nat) {
    && Has(made, w) && made[w].above.Some? && made[w].node.pk.Some? && IdOf(made, w) in after.nodeAttrs
    && after.nodeAttrs[IdOf(made, w)] == Stored(made[w].node, made[w].node.pk.value) + WeakFlags(made[w].relation)
    && Hangs(after, LinkOf(made, w))
  }

  /** What `create_group` leaves. `made` are the objects with their ids and keys. */
  ghost predicate Created(before: Store, after: Store, objects: Objects, strong: nat, weak: seq<nat>, relations: seq<RelationArg>, made: Objects) {
    && Kept(before, after) && NewNodes(before, after, objects, strong, weak, made)
    && strong < |made| && made[strong].node.pk.Some? && IdOf(made, strong) in after.nodeAttrs
    && after.nodeAttrs[IdOf(made, strong)] == Stored(made[strong].node, made[strong].node.pk.value) + DONE
    && (forall w: nat | w in weak :: InItsPlace(after, made, w))
    && (forall k | 0 <= k < |relations| :: Related(before, after, relations[k])) && NewRelations(before, after, weak, relations, made)
  }

  /** Every new relation is one by which a weak node hangs from its own parent, or one of the given ones. */
  ghost predicate NewRelations(before: Store, after: Store, weak: seq<nat>, relations: seq<RelationArg>, made: Objects) {
    forall e | e in after.edgeAttrs && e !in before.edgeAttrs ::
      HangsFrom(made, weak, e) || exists k :: 0 <= k < |relations| && IsRelation(before, after, relations[k], e)
  }

  predicate HangsFrom(made: Objects, weak: seq<nat>, e: EdgeKey) {
    exists i :: 0 <= i < |weak| && Has(made, weak[i]) && made[weak[i]].above.Some? && e == LinkOf(made, weak[i])
  }

  /** The relations step 4 looks for: to the node last created under the parent's key. */
  function LinksByKey(made: Objects, strong: nat, weak: seq<nat>, ordered: seq<Pair>): (links: seq<EdgeKey>)
    requires Has(made, strong) && forall k | 0 <= k < |weak| :: weak[k] < |made|
    ensures |links| == |ordered| && forall k: nat | k < |ordered| :: links[k] == LinkByKey(made, strong, weak, ordered[k])
  {
    seq(|ordered|, k requires 0 <= k < |ordered| => LinkByKey(made, strong, weak, ordered[k]))
  }

  function LinkByKey(made: Objects, strong: nat, weak: seq<nat>, pair: Pair): EdgeKey
    requires Has(made, strong) && forall k | 0 <= k < |weak| :: weak[k] < |made|
  {
    var w := RefOf(strong, weak, pair.0.node);
    (IdOf(made, RefOf(strong, weak, pair.1)), IdOf(made, w), made[w].relation)
  }

  /** After steps 1 and 2, where all is smooth and fits. */
  ghost predicate Built(start: Progress, strong: nat, weak: seq<nat>, ordered: seq<Pair>, second: Store, made: Objects)
  {
    && IsGroup(start.objects, strong, weak) && IsOrder(weak, ordered) && Counted(start)
    && InRange(start, Refs(strong, weak, ordered)) && AllSmooth(start, Refs(strong, weak, ordered))
    && State(second, made) == Plan(start, Refs(strong, weak, ordered), |ordered| + 1)
    && Reached(start, Refs(strong, weak, ordered), |ordered| + 1)
  }

  /** The facts about the members that the rest needs. */
  ghost predicate Settled(start: Progress, strong: nat, weak: seq<nat>, ordered: seq<Pair>, second: Store, made: Objects)
  {
    var order, p := Refs(strong, weak, ordered), State(second, made);
    && IsGroup(made, strong, weak) && |made| == |start.objects| && p.counter == start.counter + |order|
    && OldStays(start, p) && Numbered(start, p, order, |order|) && HungOnly(start, p, order, |order|) && AllTold(start, p)
    && (forall k: nat | k < |order| :: order[k] < |made| && Seated(p, order[k]))
    && (forall k: nat | k < |order| && made[order[k]].above.Some? :: exists j: nat :: j < |order| && order[j] == made[order[k]].above.value)
  }

  lemma BuiltIs(start: Progress, strong: nat, weak: seq<nat>, ordered: seq<Pair>, second: Store, made: Objects)
    requires Built(start, strong, weak, ordered, second, made)
    ensures Settled(start, strong, weak, ordered, second, made)
  {
    var order, p := Refs(strong, weak, ordered), State(second, made);
    BuiltParts(start, strong, weak, ordered, second, made);
    hide *;
    GroupSame(start, strong, weak, p);
    MembersSeated(p, order);
    SettledSo(start, strong, weak, ordered, second, made);
  }

  lemma BuiltParts(start: Progress, strong: nat, weak: seq<nat>, ordered: seq<Pair>, second: Store, made: Objects)
    requires Built(start, strong, weak, ordered, second, made)
    ensures var order, p := Refs(strong, weak, ordered), State(second, made);
            && p.objects == made && WellMade(made) && |order| == |ordered| + 1 && IsGroup(start.objects, strong, weak)
            && Seats(p, Done(order, |order|)) && |made| == |start.objects| && p.counter == start.counter + |order|
            && OldStays(start, p) && Numbered(start, p, order, |order|) && HungOnly(start, p, order, |order|) && AllTold(start, p)
  {
    hide Plan, Seats, Numbered, HungOnly, SmoothAt, OldStays, Done, AllSmooth;
  }

  lemma GroupSame(start: Progress, strong: nat, weak: seq<nat>, p: Progress)
    requires IsGroup(start.objects, strong, weak) && AllTold(start, p) && WellMade(p.objects)
    ensures IsGroup(p.objects, strong, weak)
  {
    hide WellMade;
  }

  lemma MembersSeated(p: Progress, order: seq<nat>)
    requires Seats(p, Done(order, |order|))
    ensures forall k: nat | k < |order| :: order[k] < |p.objects| && Seated(p, order[k])
    ensures forall k: nat | k < |order| && p.objects[order[k]].above.Some? :: exists j: nat :: j < |order| && order[j] == p.objects[order[k]].above.value
  {
    AllDone(order, |order|);
    hide Seated, Home, Done;
    forall k: nat | k < |order| && p.objects[order[k]].above.Some? ensures exists j: nat :: j < |order| && order[j] == p.objects[order[k]].above.value {
      var j := DoneIs(order, |order|, p.objects[order[k]].above.value);
    }
  }

  lemma SettledSo(start: Progress, strong: nat, weak: seq<nat>, ordered: seq<Pair>, second: Store, made: Objects)
    requires var order, p := Refs(strong, weak, ordered), State(second, made);
             && IsGroup(made, strong, weak) && |made| == |start.objects| && p.counter == start.counter + |order| && p.objects == made
             && OldStays(start, p) && Numbered(start, p, order, |order|) && HungOnly(start, p, order, |order|) && AllTold(start, p)
             && (forall k: nat | k < |order| :: order[k] < |made| && Seated(p, order[k]))
             && (forall k: nat | k < |order| && p.objects[order[k]].above.Some? :: exists j: nat :: j < |order| && order[j] == p.objects[order[k]].above.value)
    ensures Settled(start, strong, weak, ordered, second, made)
  {
    hide Seated, IsGroup, OldStays, Numbered, HungOnly, AllTold;
  }

  lemma {:induction false} DoneIs(order: seq<nat>, k: nat, i: nat) returns (j: nat)
    requires k <= |order| && i in Done(order, k)
    ensures j < k && order[j] == i
  {
    if order[k - 1] == i { j := k - 1; } else { j := DoneIs(order, k - 1, i); }
  }

  lemma MemberPlace(strong: nat, weak: seq<nat>, ordered: seq<Pair>, i: nat) returns (k: nat)
    requires IsOrder(weak, ordered) && Member(strong, weak, i)
    ensures k <= |ordered| && Refs(strong, weak, ordered)[k] == i && (i != strong ==> k > 0)
  {
    if i == strong {
      k := 0;
    } else {
      var m: nat :| m < |weak| && weak[m] == i;
      assert Placed(ordered, m);
      var j: nat :| j < |ordered| && ordered[j].0.node == m;
      k := j + 1;
    }
  }

  lemma PlaceIsMember(strong: nat, weak: seq<nat>, ordered: seq<Pair>, k: nat)
    requires IsOrder(weak, ordered) && k <= |ordered|
    ensures Member(strong, weak, Refs(strong, weak, ordered)[k])
  {
    if k > 0 { assert ordered[k - 1].0.node < |weak|; }
  }

  lemma PairPlace(strong: nat, weak: seq<nat>, ordered: seq<Pair>, k: nat) returns (j: nat)
    requires IsOrder(weak, ordered) && k < |ordered|
    ensures j <= |ordered| && Refs(strong, weak, ordered)[j] == RefOf(strong, weak, ordered[k].1)
  {
    assert PairedBefore(weak, ordered, k);
    if ordered[k].1 == |weak| {
      j := 0;
    } else {
      var i: nat :| i < k && ordered[i].0.node == ordered[k].1;
      j := i + 1;
    }
  }

  /** Member `k` of the order has the id after those before it, and its node. */
  lemma MemberIs(start: Progress, strong: nat, weak: seq<nat>, ordered: seq<Pair>, second: Store, made: Objects, k: nat)
    requires Settled(start, strong, weak, ordered, second, made) && k <= |ordered|
    ensures var m := Refs(strong, weak, ordered)[k];
            && Has(made, m) && IdOf(made, m) == start.counter + 1 + k && made[m].node.pk.Some?
            && IdOf(made, m) in second.nodeAttrs && second.nodeAttrs[IdOf(made, m)] == Stored(made[m].node, made[m].node.pk.value)
            && Told(start.objects[m], made[m])
            && (made[m].above.Some? ==> LinkOf(made, m) in second.edgeAttrs && second.edgeAttrs[LinkOf(made, m)] == PROPAGATE)
  {
    assert Seated(State(second, made), Refs(strong, weak, ordered)[k]);
    hide Stored, ReferencesParent, HungOnly, OldStays, WellMade, Told;
  }

  lemma LinkIs(start: Progress, strong: nat, weak: seq<nat>, ordered: seq<Pair>, second: Store, made: Objects, k: nat)
    requires Settled(start, strong, weak, ordered, second, made) && k < |ordered| && IsOrder(weak, ordered)
    ensures var link, w := LinkByKey(made, strong, weak, ordered[k]), RefOf(strong, weak, ordered[k].0.node);
            && link.1 == start.counter + 2 + k && link.1 == IdOf(made, w) && link.1 in second.nodeAttrs
            && Refs(strong, weak, ordered)[k + 1] == w && Has(made, w) && made[w].above.Some?
  {
    MemberIs(start, strong, weak, ordered, second, made, k + 1);
    assert ordered[k].0.node < |weak|;
    hide Settled, Stored;
    assert IsGroup(made, strong, weak) by { SettledGroup(start, strong, weak, ordered, second, made); }
  }

  lemma SettledGroup(start: Progress, strong: nat, weak: seq<nat>, ordered: seq<Pair>, second: Store, made: Objects)
    requires Settled(start, strong, weak, ordered, second, made)
    ensures IsGroup(made, strong, weak) && |made| == |start.objects|
    ensures OldStays(start, State(second, made)) && HungOnly(start, State(second, made), Refs(strong, weak, ordered), |ordered| + 1)
    ensures second.nodeCounter == start.counter + |ordered| + 1
  {
    hide Seated, OldStays, Numbered, HungOnly, AllTold, IsGroup;
  }

  lemma ParentPlace(start: Progress, strong: nat, weak: seq<nat>, ordered: seq<Pair>, second: Store, made: Objects, k: nat) returns (j: nat)
    requires Settled(start, strong, weak, ordered, second, made) && k <= |ordered|
    requires var m := Refs(strong, weak, ordered)[k]; m < |made| && made[m].above.Some?
    ensures j <= |ordered| && made[Refs(strong, weak, ordered)[k]].above == Some(Refs(strong, weak, ordered)[j])
  {
    var order := Refs(strong, weak, ordered);
    hide Seated, OldStays, Numbered, HungOnly, AllTold, IsGroup;
    j :| j < |order| && order[j] == made[order[k]].above.value;
  }

  /** A weak node hangs from the node it is paired with if and only if that is its own parent's. */
  lemma LinkedIff(start: Progress, strong: nat, weak: seq<nat>, ordered: seq<Pair>, second: Store, made: Objects, k: nat)
    requires Settled(start, strong, weak, ordered, second, made) && k < |ordered| && IsOrder(weak, ordered) && Counted(start)
    ensures var link := LinkByKey(made, strong, weak, ordered[k]);
            && (link in second.edgeAttrs <==> OwnAt(start.objects, strong, weak, ordered, k))
            && (OwnAt(start.objects, strong, weak, ordered, k) ==>
                  second.edgeAttrs[link] == PROPAGATE && link == LinkOf(made, RefOf(strong, weak, ordered[k].0.node)))
  {
    var w, q := RefOf(strong, weak, ordered[k].0.node), RefOf(strong, weak, ordered[k].1);
    var link := LinkByKey(made, strong, weak, ordered[k]);
    assert IsGroup(made, strong, weak) && |made| == |start.objects| by { SettledGroup(start, strong, weak, ordered, second, made); }
    LinkIs(start, strong, weak, ordered, second, made, k);
    assert w < |start.objects| && start.objects[w].above == made[w].above by { MemberIs(start, strong, weak, ordered, second, made, k + 1); }
    SameParent(start, strong, weak, ordered, second, made, k);
    hide Settled, Stored, OldStays, Told, Counted, IsOrder;
    if link in second.edgeAttrs { NotInPlan(start, strong, weak, ordered, second, made, k, link); }
    if made[w].above == Some(q) {
      assert link == LinkOf(made, w);
      MemberIs(start, strong, weak, ordered, second, made, k + 1);
    }
  }

  /** Members with the same id are the same. */
  lemma SameParent(start: Progress, strong: nat, weak: seq<nat>, ordered: seq<Pair>, second: Store, made: Objects, k: nat)
    requires Settled(start, strong, weak, ordered, second, made) && k < |ordered| && IsOrder(weak, ordered)
    requires var w := Refs(strong, weak, ordered)[k + 1]; Has(made, w) && made[w].above.Some?
    ensures var w, q := Refs(strong, weak, ordered)[k + 1], RefOf(strong, weak, ordered[k].1);
            q < |made| && made[w].above.value < |made| && (IdOf(made, made[w].above.value) == IdOf(made, q) ==> made[w].above.value == q)
  {
    hide Settled, IsOrder, RefOf, Refs, Told, Stored, WellMade;
    var a := ParentPlace(start, strong, weak, ordered, second, made, k + 1);
    var b := PairPlace(strong, weak, ordered, k);
    MemberIs(start, strong, weak, ordered, second, made, a);
    MemberIs(start, strong, weak, ordered, second, made, b);
  }

  /** A relation of the plan that ends at a member is the one it hangs by. */
  lemma NotInPlan(start: Progress, strong: nat, weak: seq<nat>, ordered: seq<Pair>, second: Store, made: Objects, k: nat, link: EdgeKey)
    requires Settled(start, strong, weak, ordered, second, made) && k < |ordered| && Counted(start)
    requires link in second.edgeAttrs && link.1 == start.counter + 2 + k
    ensures var w := Refs(strong, weak, ordered)[k + 1]; Has(made, w) && made[w].above.Some? && link == LinkOf(made, w)
  {
    var j := EdgeOrigin(start, strong, weak, ordered, second, made, link);
    hide *;
    MemberIs(start, strong, weak, ordered, second, made, j);
    LinkEnd(made, Refs(strong, weak, ordered)[j], link);
    assert j == k + 1;
  }

  lemma EdgeOrigin(start: Progress, strong: nat, weak: seq<nat>, ordered: seq<Pair>, second: Store, made: Objects, link: EdgeKey) returns (j: nat)
    requires Settled(start, strong, weak, ordered, second, made) && Counted(start)
    requires link in second.edgeAttrs && link.1 > start.counter
    ensures j <= |ordered| && Has(made, Refs(strong, weak, ordered)[j]) && made[Refs(strong, weak, ordered)[j]].above.Some?
    ensures link == LinkOf(made, Refs(strong, weak, ordered)[j])
  {
    SettledGroup(start, strong, weak, ordered, second, made);
    assert link !in start.edges;
    hide Settled, OldStays, IsGroup, Refs, LinkOf, HangsBy;
    j := HangsByOne(State(second, made), Refs(strong, weak, ordered), |ordered| + 1, link);
  }

  lemma HangsByOne(p: Progress, order: seq<nat>, k: nat, e: EdgeKey) returns (j: nat)
    requires k <= |order| && HangsBy(p, order, k, e)
    ensures j < k && Has(p.objects, order[j]) && p.objects[order[j]].above.Some? && e == LinkOf(p.objects, order[j])
  {
    j :| j < k && Has(p.objects, order[j]) && p.objects[order[j]].above.Some? && e == LinkOf(p.objects, order[j]);
  }

  lemma LinkEnd(objects: Objects, i: nat, link: EdgeKey)
    requires Has(objects, i) && objects[i].above.Some? && link == LinkOf(objects, i)
    ensures link.1 == IdOf(objects, i)
  {
  }

  // --- The last steps ------------------------------------------------------

  /** Step 3 leaves the nodes alone and adds relations only. */
  ghost predicate Third(second: Store, third: Store, relations: seq<RelationArg>) {
    && third.nodeAttrs == second.nodeAttrs && Kept(second, third) && OnlyRelated(second, third, relations, |relations|)
    && (forall k | 0 <= k < |relations| :: Related(second, third, relations[k]))
    && (relations == [] ==> third == second)
  }

  ghost predicate Finished(fourth: Store, fifth: Store, id: NodeId) {
    && id in fourth.nodeAttrs && fifth.nodeAttrs == fourth.nodeAttrs[id := fourth.nodeAttrs[id] + DONE]
    && fifth.edgeAttrs == fourth.edgeAttrs
  }

  method FinishGroup(g: Graph, id: NodeId) returns (ok: bool)
    requires g.Valid()
    modifies g
    ensures ok ==> g.Valid() && Finished(old(g.View()), g.View(), id)
    ensures ok <==> id in old(g.nodeAttrs)
  {
    if id !in g.nodeAttrs { return false; }
    assert Updates(g.nodeAttrs[id], DONE, {}) == DONE;
    hide Consistent, Updates;
    ok := g.SetInside(id, DONE, {});
  }

  lemma EndsAre(start: Progress, strong: nat, weak: seq<nat>, ordered: seq<Pair>, second: Store, made: Objects)
    requires Settled(start, strong, weak, ordered, second, made) && IsOrder(weak, ordered) && IsGroup(made, strong, weak)
    ensures var links := LinksByKey(made, strong, weak, ordered);
            DistinctEnds(links) && forall k: nat | k < |links| :: links[k].1 == start.counter + 2 + k && links[k].1 in second.nodeAttrs
  {
    var links := LinksByKey(made, strong, weak, ordered);
    hide Settled, IsOrder, IsGroup, Stored;
    forall k: nat | k < |links| ensures links[k].1 == start.counter + 2 + k && links[k].1 in second.nodeAttrs {
      LinkIs(start, strong, weak, ordered, second, made, k);
    }
  }

  /** Step 4 succeeds if every member hangs from its own parent, and only then if there were no
      relations besides. */
  lemma MarkedIff(start: Progress, strong: nat, weak: seq<nat>, ordered: seq<Pair>, second: Store, third: Store, fourth: Store, made: Objects,
                  relations: seq<RelationArg>, ok: bool)
    requires Settled(start, strong, weak, ordered, second, made) && IsOrder(weak, ordered) && Counted(start) && IsGroup(made, strong, weak)
    requires Third(second, third, relations) && AllMarked(third, fourth, LinksByKey(made, strong, weak, ordered), ok)
    ensures OwnParents(start.objects, strong, weak, ordered) ==> ok
    ensures relations == [] ==> (ok <==> OwnParents(start.objects, strong, weak, ordered))
    ensures ok ==> Flagged(third, fourth, LinksByKey(made, strong, weak, ordered), |ordered|)
  {
    var links := LinksByKey(made, strong, weak, ordered);
    EndsAre(start, strong, weak, ordered, second, made);
    assert Kept(second, third) && third.nodeAttrs == second.nodeAttrs && (relations == [] ==> third == second);
    assert forall k: nat | k < |links| :: links[k] == LinkByKey(made, strong, weak, ordered[k]);
    forall k: nat | k < |ordered|
      ensures links[k] in second.edgeAttrs <==> OwnAt(start.objects, strong, weak, ordered, k)
    {
      LinkedIff(start, strong, weak, ordered, second, made, k);
    }
    assert forall e | e in second.edgeAttrs :: e in third.edgeAttrs;
    hide Settled, IsOrder, Third, Flagged, OwnAt, Kept, LinkByKey, IsGroup, Counted, LinksByKey;
    if ok && relations == [] {
      forall k: nat | k < |ordered| ensures OwnAt(start.objects, strong, weak, ordered, k) {
        assert links[k] in third.edgeAttrs;
      }
    }
    if OwnParents(start.objects, strong, weak, ordered) {
      forall k: nat | k < |links| ensures links[k].1 in third.nodeAttrs && links[k] in third.edgeAttrs {
        assert OwnAt(start.objects, strong, weak, ordered, k);
      }
    }
  }

  /** From the first store to the last. */
  ghost predicate Through(start: Store, objects: Objects, strong: nat, weak: seq<nat>, ordered: seq<Pair>, relations: seq<RelationArg>, made: Objects,
                          second: Store, third: Store, fourth: Store, fifth: Store)
  {
    && Settled(State(start, objects), strong, weak, ordered, second, made) && IsOrder(weak, ordered) && Counted(State(start, objects))
    && OwnParents(objects, strong, weak, ordered) && IsGroup(made, strong, weak) && Third(second, third, relations)
    && Flagged(third, fourth, LinksByKey(made, strong, weak, ordered), |ordered|) && Finished(fourth, fifth, IdOf(made, strong))
  }

  lemma ThroughIs(start: Store, objects: Objects, strong: nat, weak: seq<nat>, ordered: seq<Pair>, relations: seq<RelationArg>, made: Objects,
                  second: Store, third: Store, fourth: Store, fifth: Store)
    requires Through(start, objects, strong, weak, ordered, relations, made, second, third, fourth, fifth)
    ensures var links := LinksByKey(made, strong, weak, ordered);
            && IsGroup(made, strong, weak) && |links| == |ordered| && DistinctEnds(links)
            && IdOf(made, strong) == start.nodeCounter + 1 && IdOf(made, strong) in second.nodeAttrs
            && (forall k: nat | k < |links| :: links[k].1 == start.nodeCounter + 2 + k && links[k].1 in second.nodeAttrs
                                               && links[k] in second.edgeAttrs && second.edgeAttrs[links[k]] == PROPAGATE)
            && OldStays(State(start, objects), State(second, made)) && second.nodeCounter == start.nodeCounter + 1 + |ordered|
            && (forall e | e in start.edgeAttrs :: e.1 <= start.nodeCounter) && (forall n | n in start.nodeAttrs :: n <= start.nodeCounter)
            && Flagged(third, fourth, links, |links|) && Finished(fourth, fifth, IdOf(made, strong))
            && Third(second, third, relations)
  {
    var p := State(start, objects);
    var links := LinksByKey(made, strong, weak, ordered);
    EndsAre(p, strong, weak, ordered, second, made);
    MemberIs(p, strong, weak, ordered, second, made, 0);
    SettledGroup(p, strong, weak, ordered, second, made);
    forall k: nat | k < |links| ensures links[k] in second.edgeAttrs && second.edgeAttrs[links[k]] == PROPAGATE {
      assert OwnAt(objects, strong, weak, ordered, k);
      LinkedIff(p, strong, weak, ordered, second, made, k);
    }
    hide Settled, IsOrder, Third, Flagged, OwnParents, OwnAt, Finished, Stored, Told, OldStays, IsGroup;
  }

  lemma KeptThrough(start: Store, objects: Objects, strong: nat, weak: seq<nat>, ordered: seq<Pair>, relations: seq<RelationArg>, made: Objects,
                    second: Store, third: Store, fourth: Store, fifth: Store)
    requires Through(start, objects, strong, weak, ordered, relations, made, second, third, fourth, fifth)
    ensures Kept(start, fifth)
  {
    ThroughIs(start, objects, strong, weak, ordered, relations, made, second, third, fourth, fifth);
    var links := LinksByKey(made, strong, weak, ordered);
    assert Kept(start, second);
    hide Through, Related, OnlyRelated, IsGroup, LinksByKey, Settled, Kept, Flagged, Finished, OldStays;
    KeptToTheEnd(start, second, third, fourth, fifth, links, IdOf(made, strong));
  }

  lemma KeptToTheEnd(start: Store, second: Store, third: Store, fourth: Store, fifth: Store, links: seq<EdgeKey>, id: NodeId)
    requires Kept(start, second) && Kept(second, third) && Flagged(third, fourth, links, |links|) && Finished(fourth, fifth, id)
    requires id !in start.nodeAttrs && forall j: nat | j < |links| :: links[j].1 !in start.nodeAttrs && links[j] !in start.edgeAttrs
    ensures Kept(start, fifth)
  {
    forall n | n in start.nodeAttrs ensures n in fifth.nodeAttrs && fifth.nodeAttrs[n] == start.nodeAttrs[n] {
      assert forall j: nat | j < |links| :: links[j].1 != n;
    }
    forall e | e in start.edgeAttrs ensures e in fifth.edgeAttrs && fifth.edgeAttrs[e] == start.edgeAttrs[e] {
      assert e !in links;
    }
  }

  /** A node has been marked, or is as it was. */
  ghost predicate MarkedFrom(before: Attrs, after: Attrs) {
    forall k | k !in MARKS :: (k in after <==> k in before) && Get(after, k) == Get(before, k)
  }

  lemma MarksOnly(attrs: Attrs, relation: string)
    ensures MarkedFrom(attrs, attrs) && MarkedFrom(attrs, attrs + WeakFlags(relation)) && MarkedFrom(attrs, attrs + DONE)
  {
  }

  lemma MarkedTwice(a: Attrs, b: Attrs, c: Attrs)
    requires MarkedFrom(a, b) && MarkedFrom(b, c)
    ensures MarkedFrom(a, c)
  {
  }

  lemma NamedStays(before: Attrs, after: Attrs, end: End)
    requires MarkedFrom(before, after) && end.pk.Some? && end.pk.value.Keys !! MARKS && Named(before, end.mainLabel, end.pk.value)
    ensures Named(after, end.mainLabel, end.pk.value)
  {
    assert "pk" !in MARKS && "main_label" !in MARKS;
    assert Get(after, "pk") == Get(before, "pk") && Get(after, "main_label") == Get(before, "main_label");
    assert KeyOf(after) == KeyOf(before);
    forall k | k in end.pk.value ensures Get(after, k) == Get(before, k) { assert k !in MARKS; }
    hide KeyOf, KeyFor, KeyText;
  }

  lemma MarkedOnly(third: Store, fourth: Store, fifth: Store, links: seq<EdgeKey>, id: NodeId, n: NodeId)
    requires Flagged(third, fourth, links, |links|) && Finished(fourth, fifth, id) && n in third.nodeAttrs
    ensures n in fifth.nodeAttrs && MarkedFrom(third.nodeAttrs[n], fifth.nodeAttrs[n])
  {
    hide WeakFlags, MarkedFrom, DONE;
    MarksOnly(third.nodeAttrs[n], "");
    if j: nat :| j < |links| && links[j].1 == n { MarksOnly(third.nodeAttrs[n], links[j].2); }
    MarksOnly(fourth.nodeAttrs[n], "");
    MarkedTwice(third.nodeAttrs[n], fourth.nodeAttrs[n], fifth.nodeAttrs[n]);
  }

  lemma EndStays(third: Store, fourth: Store, fifth: Store, links: seq<EdgeKey>, id: NodeId, n: NodeId, end: End)
    requires Flagged(third, fourth, links, |links|) && Finished(fourth, fifth, id) && EndIs(third.nodeAttrs, n, end)
    ensures EndIs(fifth.nodeAttrs, n, end)
  {
    MarkedOnly(third, fourth, fifth, links, id, n);
    hide Flagged, Finished, Named, MarkedFrom;
    if end.pk.value.Keys !! MARKS { NamedStays(third.nodeAttrs[n], fifth.nodeAttrs[n], end); }
  }

  /** A given relation, from step 3 to the end. */
  lemma IsRelationThrough(start: Store, second: Store, third: Store, fourth: Store, fifth: Store, links: seq<EdgeKey>, id: NodeId,
                          rel: RelationArg, e: EdgeKey)
    requires Flagged(third, fourth, links, |links|) && Finished(fourth, fifth, id)
    requires IsRelation(second, third, rel, e) && e !in links && e !in start.edgeAttrs
    ensures IsRelation(start, fifth, rel, e)
  {
    EndStays(third, fourth, fifth, links, id, e.0, rel.src);
    EndStays(third, fourth, fifth, links, id, e.1, rel.dst);
    hide EndIs;
  }

  lemma RelatedThrough(start: Store, objects: Objects, strong: nat, weak: seq<nat>, ordered: seq<Pair>, relations: seq<RelationArg>, made: Objects,
                       second: Store, third: Store, fourth: Store, fifth: Store, k: nat)
    requires Through(start, objects, strong, weak, ordered, relations, made, second, third, fourth, fifth) && k < |relations|
    ensures Related(start, fifth, relations[k])
  {
    ThroughIs(start, objects, strong, weak, ordered, relations, made, second, third, fourth, fifth);
    hide Through, IsGroup, LinksByKey, Settled, EndIs, OnlyRelated, Flagged, Finished;
    var rel := relations[k];
    assert Related(second, third, rel);
    var e :| IsRelation(second, third, rel, e);
    assert e !in LinksByKey(made, strong, weak, ordered);
    IsRelationThrough(start, second, third, fourth, fifth, LinksByKey(made, strong, weak, ordered), IdOf(made, strong), rel, e);
  }

  lemma NewRelationsThrough(start: Store, objects: Objects, strong: nat, weak: seq<nat>, ordered: seq<Pair>, relations: seq<RelationArg>, made: Objects,
                            second: Store, third: Store, fourth: Store, fifth: Store)
    requires Through(start, objects, strong, weak, ordered, relations, made, second, third, fourth, fifth)
    ensures NewRelations(start, fifth, weak, relations, made)
  {
    ThroughIs(start, objects, strong, weak, ordered, relations, made, second, third, fourth, fifth);
    var links, id := LinksByKey(made, strong, weak, ordered), IdOf(made, strong);
    assert forall j: nat | j < |links| :: links[j] in second.edgeAttrs;
    hide Through, IsGroup, LinksByKey, Settled, Third, Flagged, Finished, IsRelation, HangsFrom, OldStays, Kept;
    forall e | e in fifth.edgeAttrs && e !in start.edgeAttrs
      ensures HangsFrom(made, weak, e) || exists k :: 0 <= k < |relations| && IsRelation(start, fifth, relations[k], e)
    {
      if e in second.edgeAttrs {
        HungFrom(start, objects, strong, weak, ordered, relations, made, second, third, fourth, fifth, e);
      } else {
        assert e !in links;
        GivenRelation(start, relations, second, third, fourth, fifth, links, id, e);
      }
    }
  }

  lemma GivenRelation(start: Store, relations: seq<RelationArg>, second: Store, third: Store, fourth: Store, fifth: Store,
                      links: seq<EdgeKey>, id: NodeId, e: EdgeKey)
    requires Third(second, third, relations) && Flagged(third, fourth, links, |links|) && Finished(fourth, fifth, id)
    requires e in fifth.edgeAttrs && e !in second.edgeAttrs && e !in start.edgeAttrs && e !in links
    ensures exists k :: 0 <= k < |relations| && IsRelation(start, fifth, relations[k], e)
  {
    assert e in third.edgeAttrs;
    hide Flagged, Finished, IsRelation, Kept, Related;
    var k :| 0 <= k < |relations| && IsRelation(second, third, relations[k], e);
    IsRelationThrough(start, second, third, fourth, fifth, links, id, relations[k], e);
  }

  lemma HungFrom(start: Store, objects: Objects, strong: nat, weak: seq<nat>, ordered: seq<Pair>, relations: seq<RelationArg>, made: Objects,
                 second: Store, third: Store, fourth: Store, fifth: Store, e: EdgeKey)
    requires Through(start, objects, strong, weak, ordered, relations, made, second, third, fourth, fifth)
    requires e in second.edgeAttrs && e !in start.edgeAttrs
    ensures HangsFrom(made, weak, e)
  {
    var p, q, order := State(start, objects), State(second, made), Refs(strong, weak, ordered);
    assert Settled(p, strong, weak, ordered, second, made) && IsOrder(weak, ordered);
    assert HangsBy(q, order, |order|, e);
    var j: nat :| j < |order| && Has(made, order[j]) && made[order[j]].above.Some? && e == LinkOf(made, order[j]);
    assert j != 0 by { assert made[strong].above.None?; }
    PlacedPlace(weak, ordered, j - 1);
    assert order[j] == RefOf(strong, weak, ordered[j - 1].0.node);
  }

  lemma PlacedPlace(weak: seq<nat>, ordered: seq<Pair>, k: nat)
    requires IsOrder(weak, ordered) && k < |ordered|
    ensures ordered[k].0.node < |weak|
  {
  }

  lemma PlacesThrough(start: Store, objects: Objects, strong: nat, weak: seq<nat>, ordered: seq<Pair>, relations: seq<RelationArg>, made: Objects,
                      second: Store, third: Store, fourth: Store, fifth: Store, k: nat)
    requires Through(start, objects, strong, weak, ordered, relations, made, second, third, fourth, fifth) && k < |ordered|
    ensures InItsPlace(fifth, made, Refs(strong, weak, ordered)[k + 1])
  {
    var p, w, links := State(start, objects), Refs(strong, weak, ordered)[k + 1], LinksByKey(made, strong, weak, ordered);
    ThroughIs(start, objects, strong, weak, ordered, relations, made, second, third, fourth, fifth);
    PlaceParts(start, objects, strong, weak, ordered, relations, made, second, third, fourth, fifth, k);
    var link := links[k];
    assert link in second.edgeAttrs && second.edgeAttrs[link] == PROPAGATE && link.1 in second.nodeAttrs && link.1 != IdOf(made, strong);
    hide Through, IsGroup, Settled, Stored, WeakFlags, IsOrder, OwnParents, OwnAt, Told, OldStays, LinksByKey, LinkOf, DistinctEnds, Flagged, Third,
         Finished, Refs, WellMade;
    MarkedThrough(second, third, fourth, fifth, links, relations, IdOf(made, strong), k);
  }

  /** One member's node and relation, from step 2 to the end. */
  lemma MarkedThrough(second: Store, third: Store, fourth: Store, fifth: Store, links: seq<EdgeKey>, relations: seq<RelationArg>, id: NodeId, k: nat)
    requires Third(second, third, relations) && Flagged(third, fourth, links, |links|) && Finished(fourth, fifth, id) && k < |links|
    requires links[k].1 in second.nodeAttrs && links[k].1 != id && links[k] in second.edgeAttrs && second.edgeAttrs[links[k]] == PROPAGATE
    ensures links[k].1 in fifth.nodeAttrs && fifth.nodeAttrs[links[k].1] == second.nodeAttrs[links[k].1] + WeakFlags(links[k].2)
    ensures Hangs(fifth, links[k])
  {
    hide WeakFlags, Related;
    var link := links[k];
    assert third.edgeAttrs[link] == PROPAGATE;
    assert fourth.edgeAttrs[link] == PROPAGATE["parent_relation" := Str(link.2)];
  }

  lemma PlaceParts(start: Store, objects: Objects, strong: nat, weak: seq<nat>, ordered: seq<Pair>, relations: seq<RelationArg>, made: Objects,
                   second: Store, third: Store, fourth: Store, fifth: Store, k: nat)
    requires Through(start, objects, strong, weak, ordered, relations, made, second, third, fourth, fifth) && k < |ordered|
    ensures var w, links := Refs(strong, weak, ordered)[k + 1], LinksByKey(made, strong, weak, ordered);
            && Has(made, w) && made[w].above.Some? && made[w].node.pk.Some? && links[k] == LinkOf(made, w) && links[k].1 == IdOf(made, w)
            && links[k].2 == made[w].relation
            && IdOf(made, w) in second.nodeAttrs && second.nodeAttrs[IdOf(made, w)] == Stored(made[w].node, made[w].node.pk.value)
  {
    var p := State(start, objects);
    assert OwnAt(objects, strong, weak, ordered, k);
    hide IsGroup, Settled, Stored, IsOrder, OwnAt, Told, Third, Flagged, Finished, Counted;
    LinkIs(p, strong, weak, ordered, second, made, k);
    MemberIs(p, strong, weak, ordered, second, made, k + 1);
    LinkedIff(p, strong, weak, ordered, second, made, k);
  }

  lemma NodesThrough(start: Store, objects: Objects, strong: nat, weak: seq<nat>, ordered: seq<Pair>, relations: seq<RelationArg>, made: Objects,
                     second: Store, third: Store, fourth: Store, fifth: Store)
    requires Through(start, objects, strong, weak, ordered, relations, made, second, third, fourth, fifth)
    ensures NewNodes(start, fifth, objects, strong, weak, made)
    ensures strong < |made| && made[strong].node.pk.Some? && IdOf(made, strong) in fifth.nodeAttrs
    ensures fifth.nodeAttrs[IdOf(made, strong)] == Stored(made[strong].node, made[strong].node.pk.value) + DONE
  {
    var p := State(start, objects);
    ThroughIs(start, objects, strong, weak, ordered, relations, made, second, third, fourth, fifth);
    MemberIs(p, strong, weak, ordered, second, made, 0);
    SettledGroup(p, strong, weak, ordered, second, made);
    assert fifth.nodeAttrs.Keys == second.nodeAttrs.Keys;
    assert Settled(p, strong, weak, ordered, second, made) && IsOrder(weak, ordered);
    hide Through, IsGroup, Stored, IsOrder, LinksByKey, Told, Settled, Third, NewNodes, Kept, WellMade, Refs;
    NewMembers(start, objects, strong, weak, ordered, second, fifth, made);
  }

  lemma NewMembers(start: Store, objects: Objects, strong: nat, weak: seq<nat>, ordered: seq<Pair>, second: Store, fifth: Store, made: Objects)
    requires Settled(State(start, objects), strong, weak, ordered, second, made) && IsOrder(weak, ordered)
    requires fifth.nodeAttrs.Keys == second.nodeAttrs.Keys && forall n | n in start.nodeAttrs :: n <= start.nodeCounter
    ensures NewNodes(start, fifth, objects, strong, weak, made)
  {
    var p := State(start, objects);
    SettledGroup(p, strong, weak, ordered, second, made);
    assert forall n | n in second.nodeAttrs :: n in start.nodeAttrs || start.nodeCounter < n <= second.nodeCounter;
    hide IsGroup, Stored, IsOrder, Told, Settled, WellMade, Refs, OldStays, HungOnly, Member;
    forall i: nat | Member(strong, weak, i)
      ensures i < |made| && Told(objects[i], made[i]) && made[i].node.pk.Some? && IdOf(made, i) in fifth.nodeAttrs && IdOf(made, i) !in start.nodeAttrs
    {
      var k := MemberPlace(strong, weak, ordered, i);
      MemberIs(p, strong, weak, ordered, second, made, k);
    }
    forall i: nat, j: nat | Member(strong, weak, i) && Member(strong, weak, j) && i != j ensures IdOf(made, i) != IdOf(made, j) {
      MembersDiffer(p, strong, weak, ordered, second, made, i, j);
    }
    forall n | n in fifth.nodeAttrs && n !in start.nodeAttrs ensures exists i: nat :: Member(strong, weak, i) && i < |made| && n == IdOf(made, i) {
      var k: nat := n - start.nodeCounter - 1;
      PlaceIsMember(strong, weak, ordered, k);
      MemberIs(p, strong, weak, ordered, second, made, k);
    }
  }

  lemma MembersDiffer(p: Progress, strong: nat, weak: seq<nat>, ordered: seq<Pair>, second: Store, made: Objects, i: nat, j: nat)
    requires Settled(p, strong, weak, ordered, second, made) && IsOrder(weak, ordered) && Member(strong, weak, i) && Member(strong, weak, j) && i != j
    ensures i < |made| && j < |made| && IdOf(made, i) != IdOf(made, j)
  {
    hide Settled, IsOrder, Member, Refs, Told, Stored;
    var k := MemberPlace(strong, weak, ordered, i);
    var l := MemberPlace(strong, weak, ordered, j);
    MemberIs(p, strong, weak, ordered, second, made, k);
    MemberIs(p, strong, weak, ordered, second, made, l);
  }

  lemma GroupDone(start: Store, objects: Objects, strong: nat, weak: seq<nat>, ordered: seq<Pair>, relations: seq<RelationArg>, made: Objects,
                  second: Store, third: Store, fourth: Store, fifth: Store)
    requires Through(start, objects, strong, weak, ordered, relations, made, second, third, fourth, fifth)
    ensures Created(start, fifth, objects, strong, weak, relations, made)
  {
    KeptThrough(start, objects, strong, weak, ordered, relations, made, second, third, fourth, fifth);
    NodesThrough(start, objects, strong, weak, ordered, relations, made, second, third, fourth, fifth);
    assert IsOrder(weak, ordered);
    NewRelationsThrough(start, objects, strong, weak, ordered, relations, made, second, third, fourth, fifth);
    hide Through, Kept, NewNodes, InItsPlace, Related, Stored, NewRelations;
    forall w: nat | w in weak ensures InItsPlace(fifth, made, w) {
      var k := WeakPlace(strong, weak, ordered, w);
      PlacesThrough(start, objects, strong, weak, ordered, relations, made, second, third, fourth, fifth, k);
    }
    forall k | 0 <= k < |relations| ensures Related(start, fifth, relations[k]) {
      RelatedThrough(start, objects, strong, weak, ordered, relations, made, second, third, fourth, fifth, k);
    }
  }

  lemma WeakPlace(strong: nat, weak: seq<nat>, ordered: seq<Pair>, w: nat) returns (k: nat)
    requires IsOrder(weak, ordered) && w in weak
    ensures k < |ordered| && Refs(strong, weak, ordered)[k + 1] == w
  {
    var m: nat :| m < |weak| && weak[m] == w;
    assert Placed(ordered, m);
    k :| k < |ordered| && ordered[k].0.node == m;
  }

  // --- create_group, all of it ---------------------------------------------

  /** What a run comes to where every object is given once, after its parent, and no parent's key is its
      own parent's: the group is created if and only if every member fits and hangs from its own parent
      (and a relation given besides can be refused). */
  ghost predicate Outcome(before: Store, objects: Objects, strong: nat, weak: seq<nat>, relations: seq<RelationArg>, ordered: seq<Pair>,
                          after: Store, r: Result<Objects, StoreError>)
    requires InRange(State(before, objects), Refs(strong, weak, ordered))
  {
    var start, order := State(before, objects), Refs(strong, weak, ordered);
    AllSmooth(start, order) ==>
      && (r.Ok? ==> AllFit(start, order))
      && (r.Ok? && OwnParents(objects, strong, weak, ordered) ==> Created(before, after, objects, strong, weak, relations, r.value))
      && (r.Err? && AllFit(start, order) && OwnParents(objects, strong, weak, ordered) ==>
            RelationRefused(Plan(start, order, |order|).nodes, Plan(start, order, |order|).edges, relations, r.error))
      && (relations == [] && r.Ok? ==> OwnParents(objects, strong, weak, ordered))
  }

  lemma OrderInRange(s: Store, objects: Objects, strong: nat, weak: seq<nat>, ordered: seq<Pair>)
    requires IsGroup(objects, strong, weak)
    ensures InRange(State(s, objects), Refs(strong, weak, ordered))
  {
    var order := Refs(strong, weak, ordered);
    forall k | 0 <= k < |order| ensures order[k] < |objects| {
      if k > 0 { assert order[k] == RefOf(strong, weak, ordered[k - 1].0.node); }
    }
  }

  lemma NotInserted(before: Store, objects: Objects, strong: nat, weak: seq<nat>, relations: seq<RelationArg>, ordered: seq<Pair>,
                    after: Store, error: StoreError)
    requires InRange(State(before, objects), Refs(strong, weak, ordered))
    requires AsPlanned(State(before, objects), Refs(strong, weak, ordered), after, Err(error))
    ensures Outcome(before, objects, strong, weak, relations, ordered, after, Err(error))
  {
    hide AllSmooth, AllFit, Plan, Refs;
  }

  lemma BuiltSo(before: Store, objects: Objects, strong: nat, weak: seq<nat>, ordered: seq<Pair>, second: Store, made: Objects)
    requires Consistent(before) && IsGroup(objects, strong, weak) && IsOrder(weak, ordered)
    requires InRange(State(before, objects), Refs(strong, weak, ordered)) && AllSmooth(State(before, objects), Refs(strong, weak, ordered))
    requires AsPlanned(State(before, objects), Refs(strong, weak, ordered), second, Ok(made))
    ensures AllFit(State(before, objects), Refs(strong, weak, ordered))
    ensures Settled(State(before, objects), strong, weak, ordered, second, made) && IsGroup(made, strong, weak)
    ensures Counted(State(before, objects))
  {
    var start, order := State(before, objects), Refs(strong, weak, ordered);
    StartCounted(before, objects);
    hide Consistent, AllSmooth, FitsAt, Plan, IsGroup, IsOrder, Reached, Settled, Counted, InRange;
    PlanSeats(start, order, |order|);
    BuiltIs(start, strong, weak, ordered, second, made);
    SettledGroup(start, strong, weak, ordered, second, made);
  }

  lemma NotRelated(before: Store, objects: Objects, strong: nat, weak: seq<nat>, relations: seq<RelationArg>, ordered: seq<Pair>,
                   second: Store, made: Objects, after: Store, error: StoreError)
    requires InRange(State(before, objects), Refs(strong, weak, ordered))
    requires AsPlanned(State(before, objects), Refs(strong, weak, ordered), second, Ok(made))
    requires RelationRefused(second.nodeAttrs, second.edgeAttrs, relations, error)
    ensures Outcome(before, objects, strong, weak, relations, ordered, after, Err(error))
  {
    hide AllSmooth, AllFit, OwnParents, Refs, Plan, RelationRefused;
    if AllSmooth(State(before, objects), Refs(strong, weak, ordered)) {
      var p := Plan(State(before, objects), Refs(strong, weak, ordered), |Refs(strong, weak, ordered)|);
      assert p == State(second, made);
    }
  }

  /** Step 4 fails only where a member does not hang from the node it is paired with. */
  lemma NotMarked(before: Store, objects: Objects, strong: nat, weak: seq<nat>, relations: seq<RelationArg>, ordered: seq<Pair>,
                  second: Store, third: Store, after: Store, made: Objects, error: StoreError)
    requires Consistent(before) && IsGroup(objects, strong, weak) && IsOrder(weak, ordered) && |made| == |objects| && WellMade(made)
    requires InRange(State(before, objects), Refs(strong, weak, ordered))
    requires AsPlanned(State(before, objects), Refs(strong, weak, ordered), second, Ok(made)) && Third(second, third, relations)
    requires AllMarked(third, after, LinksByKey(made, strong, weak, ordered), false)
    ensures Outcome(before, objects, strong, weak, relations, ordered, after, Err(error))
  {
    hide AllFit, Created, AsPlanned, Third, AllMarked, AllSmooth, Consistent, IsGroup, IsOrder, OwnParents;
    if AllSmooth(State(before, objects), Refs(strong, weak, ordered)) {
      BuiltSo(before, objects, strong, weak, ordered, second, made);
      MarkedIff(State(before, objects), strong, weak, ordered, second, third, after, made, relations, false);
    }
  }

  lemma Completed(before: Store, objects: Objects, strong: nat, weak: seq<nat>, relations: seq<RelationArg>, ordered: seq<Pair>,
                  second: Store, third: Store, fourth: Store, fifth: Store, made: Objects, done: bool)
    requires Consistent(before) && IsGroup(objects, strong, weak) && IsOrder(weak, ordered) && |made| == |objects| && WellMade(made)
    requires InRange(State(before, objects), Refs(strong, weak, ordered))
    requires AsPlanned(State(before, objects), Refs(strong, weak, ordered), second, Ok(made)) && Third(second, third, relations)
    requires AllMarked(third, fourth, LinksByKey(made, strong, weak, ordered), true)
    requires (done <==> IdOf(made, strong) in fourth.nodeAttrs) && (done ==> Finished(fourth, fifth, IdOf(made, strong)))
    ensures Outcome(before, objects, strong, weak, relations, ordered, fifth, if done then Ok(made) else Err(MissingNode))
  {
    hide AllFit, Created, AsPlanned, Third, AllMarked, AllSmooth, Consistent, IsGroup, IsOrder, OwnParents, Finished, Settled, Counted, Flagged;
    var start := State(before, objects);
    if AllSmooth(start, Refs(strong, weak, ordered)) {
      BuiltSo(before, objects, strong, weak, ordered, second, made);
      MarkedIff(start, strong, weak, ordered, second, third, fourth, made, relations, true);
      StrongThere(start, strong, weak, ordered, second, third, fourth, made, relations);
      if OwnParents(objects, strong, weak, ordered) {
        assert Through(before, objects, strong, weak, ordered, relations, made, second, third, fourth, fifth);
        GroupDone(before, objects, strong, weak, ordered, relations, made, second, third, fourth, fifth);
      }
    }
  }

  lemma StrongThere(start: Progress, strong: nat, weak: seq<nat>, ordered: seq<Pair>, second: Store, third: Store, fourth: Store, made: Objects,
                    relations: seq<RelationArg>)
    requires Settled(start, strong, weak, ordered, second, made) && Third(second, third, relations) && IsGroup(made, strong, weak)
    requires Flagged(third, fourth, LinksByKey(made, strong, weak, ordered), |ordered|)
    ensures IdOf(made, strong) in fourth.nodeAttrs
  {
    MemberIs(start, strong, weak, ordered, second, made, 0);
    hide Settled, IsGroup, Stored, Told, LinksByKey;
  }

  method CreateInside(g: Graph, objects: Objects, strong: nat, weak: seq<nat>, relations: seq<RelationArg>, ordered: seq<Pair>)
    returns (r: Result<Objects, StoreError>)
    requires g.Valid() && IsGroup(objects, strong, weak) && IsOrder(weak, ordered)
    requires InRange(State(g.View(), objects), Refs(strong, weak, ordered))
    modifies g
    ensures r.Ok? ==> g.Valid()
    ensures Outcome(old(g.View()), objects, strong, weak, relations, ordered, g.View(), r)
  {
    ghost var before := g.View();
    hide Consistent, AsPlanned, AllMarked, Third, Finished, Outcome, IsOrder, WellMade, InRange, LinksByKey, Kept, Relating, RelationRefused;
    assert Consistent(before);
    var made := InsertAll(g, objects, Refs(strong, weak, ordered));
    if made.Err? {
      NotInserted(before, objects, strong, weak, relations, ordered, g.View(), made.error);
      return Err(made.error);
    }
    ghost var second := g.View();
    var related := InsertRelations(g, relations);
    if related.Err? {
      NotRelated(before, objects, strong, weak, relations, ordered, second, made.value, g.View(), related.error);
      return Err(related.error);
    }
    ghost var third := g.View();
    ThirdSo(second, third, relations);
    var marked := MarkMembers(g, LinksByKey(made.value, strong, weak, ordered));
    if !marked {
      NotMarked(before, objects, strong, weak, relations, ordered, second, third, g.View(), made.value, NoSuchRelation);
      return Err(NoSuchRelation);
    }
    ghost var fourth := g.View();
    var done := FinishGroup(g, IdOf(made.value, strong));
    Completed(before, objects, strong, weak, relations, ordered, second, third, fourth, g.View(), made.value, done);
    if !done { return Err(MissingNode); }
    return made;
  }

  lemma ThirdSo(second: Store, third: Store, relations: seq<RelationArg>)
    requires Relating(second, third, relations, |relations|)
    ensures Third(second, third, relations)
  {
    hide Kept, Related, OnlyRelated;
  }

  /** `create_group`: all of the group, or nothing. */
  method CreateGroup(g: Graph, objects: Objects, strong: nat, weak: seq<nat>, relations: seq<RelationArg>)
    returns (r: Result<Objects, StoreError>)
    requires g.Valid() && IsGroup(objects, strong, weak)
    modifies g
    ensures g.Valid() && (r.Err? ==> g.View() == old(g.View()))
    ensures Detached(objects, strong, weak) ==> r == Err(NotInGroup)
    ensures var ordered := GroupOrder(objects, strong, weak);
            && InRange(State(old(g.View()), objects), Refs(strong, weak, ordered))
            && (!Detached(objects, strong, weak) ==>
                  IsOrder(weak, ordered) && PairedByKey(objects, strong, weak, ordered)
                  && Outcome(old(g.View()), objects, strong, weak, relations, ordered, g.View(), r))
  {
    ghost var before := g.View();
    OrderInRange(before, objects, strong, weak, GroupOrder(objects, strong, weak));
    hide Consistent, Anchored, ParentsFirst, Outcome, InRange, Rounds, IsOrder;
    var order := CreationOrder(|weak|, KeyInGroup(objects[strong].node), Entries(objects, strong, weak));
    if order.Err? { return Err(NotInGroup); }
    assert order.value == GroupOrder(objects, strong, weak);
    OrderIs(objects, strong, weak, order.value);
    var snapshot := g.View();
    r := CreateInside(g, objects, strong, weak, relations, order.value);
    if r.Err? {
      FailedOutcome(before, objects, strong, weak, relations, order.value, g.View(), r.error);
      g.Restore(snapshot);
    }
  }

  /** What a failed run means does not depend on the store it leaves, which is the one it found. */
  lemma FailedOutcome(before: Store, objects: Objects, strong: nat, weak: seq<nat>, relations: seq<RelationArg>, ordered: seq<Pair>,
                      after: Store, error: StoreError)
    requires InRange(State(before, objects), Refs(strong, weak, ordered))
    requires Outcome(before, objects, strong, weak, relations, ordered, after, Err(error))
    ensures Outcome(before, objects, strong, weak, relations, ordered, before, Err(error))
  {
    hide AllSmooth, AllFit, OwnParents, Refs;
  }

  // --- When all is smooth --------------------------------------------------

  /** An explicit key does not anticipate an id the store has yet to give. */
  ghost predicate Unguessed(arg: NodeArg, counter: nat) {
    forall id: NodeId | id > counter :: arg.pk != Some(map["id" := Int(id)])
  }

  lemma IdKeysDiffer(a: NodeId, b: NodeId)
    ensures map["id" := Int(a)] == map["id" := Int(b)] ==> a == b
  {
    assert map["id" := Int(a)]["id"] == Int(a) && map["id" := Int(b)]["id"] == Int(b);
  }

  /** A member comes out with its parent's key if and only if its own was left to the store, and its
      parent's is the very id the store gives it. */
  lemma CollidesIff(p: Progress, i: nat)
    requires Has(p.objects, i) && p.objects[i].above.Some?
    ensures Again(PlacedAt(p, i).objects, i) <==>
              (p.objects[i].node.pk.None? || Again(p.objects, i))
              && p.objects[p.objects[i].above.value].node.pk == Some(map["id" := Int(p.counter + 1)])
  {
    NewNode(p, i);
    TreeIs(p.objects, i);
    hide Stored, Tree, PlacedAt, Settle, LinkOf;
  }

  predicate Distinct(order: seq<nat>) {
    forall j: nat, k: nat | j < k < |order| :: order[j] != order[k]
  }

  predicate ParentsEarlier(objects: Objects, order: seq<nat>) {
    forall k: nat | k < |order| && order[k] < |objects| && objects[order[k]].above.Some? ::
      exists j: nat :: j < k && order[j] == objects[order[k]].above.value
  }

  lemma {:induction false} NotDone(order: seq<nat>, k: nat)
    requires Distinct(order) && k < |order|
    ensures order[k] !in Done(order, k)
  {
    if order[k] in Done(order, k) { var j := DoneIs(order, k, order[k]); }
  }

  /** The key member `j` of the plan has in the end: the one it came with, or the id it got. */
  ghost predicate KeyKnown(start: Progress, p: Progress, order: seq<nat>, j: nat)
    requires j < |order|
  {
    && order[j] < |start.objects| && order[j] < |p.objects| && p.objects[order[j]].above == start.objects[order[j]].above
    && (p.objects[order[j]].node.pk == start.objects[order[j]].node.pk || p.objects[order[j]].node.pk == Some(map["id" := Int(start.counter + 1 + j)]))
  }

  /** ... which is not its parent's. */
  ghost predicate OwnKey(start: Progress, p: Progress, order: seq<nat>, j: nat)
    requires j < |order|
  {
    WellMade(p.objects) && KeyKnown(start, p, order, j) && !Again(p.objects, order[j])
  }

  /** No member of the plan so far has its parent's key. */
  ghost predicate NoneAgain(start: Progress, p: Progress, order: seq<nat>, k: nat)
    requires k <= |order|
  {
    && WellMade(p.objects) && p.counter == start.counter + k
    && forall j: nat | j < k :: OwnKey(start, p, order, j)
  }

  lemma {:induction false} PlanNotAgain(start: Progress, order: seq<nat>, k: nat)
    requires InRange(start, order) && k <= |order| && Distinct(order) && ParentsEarlier(start.objects, order)
    requires forall j: nat | j < |order| :: Unguessed(start.objects[order[j]].node, start.counter)
    ensures NoneAgain(start, Plan(start, order, k), order, k)
  {
    hide PlacedAt, Distinct, ParentsEarlier, Unguessed, WellMade, OwnKey;
    if k == 0 {
      assert Plan(start, order, 0) == start;
    } else {
      hide Plan, NoneAgain;
      PlanNotAgain(start, order, k - 1);
      PlanNotAgainNext(start, order, k - 1);
    }
  }

  lemma PlanNotAgainNext(start: Progress, order: seq<nat>, k: nat)
    requires InRange(start, order) && k < |order| && Distinct(order) && ParentsEarlier(start.objects, order)
    requires forall j: nat | j < |order| :: Unguessed(start.objects[order[j]].node, start.counter)
    requires NoneAgain(start, Plan(start, order, k), order, k)
    ensures NoneAgain(start, Plan(start, order, k + 1), order, k + 1)
  {
    hide Plan, Done, PlacedAt, NoneAgain, Distinct, ParentsEarlier, Unguessed, WellMade;
    NotDone(order, k);
    PlanElsewhere(start, order, k, order[k]);
    NextIs(start, order, k);
    InPlace(start, order, k, Plan(start, order, k).objects);
    AgainNext(start, Plan(start, order, k), order, k);
  }

  lemma AgainNext(start: Progress, p: Progress, order: seq<nat>, k: nat)
    requires InRange(start, order) && k < |order| && Distinct(order) && ParentsEarlier(start.objects, order)
    requires forall j: nat | j < |order| :: Unguessed(start.objects[order[j]].node, start.counter)
    requires NoneAgain(start, p, order, k) && Has(p.objects, order[k]) && p.objects[order[k]] == start.objects[order[k]]
    requires |p.objects| == |start.objects|
    ensures NoneAgain(start, PlacedAt(p, order[k]), order, k + 1)
  {
    hide PlacedAt, WellMade, Unguessed, ParentsEarlier, Distinct, OwnKey, InRange;
    var q := PlacedAt(p, order[k]);
    PlacedCounter(p, order[k]);
    assert order[k] < |start.objects| by { InPlace(start, order, k, p.objects); }
    NewNotAgain(start, p, order, k);
    forall j: nat | j < k ensures OwnKey(start, q, order, j) { OlderKept(start, p, order, k, j); }
  }

  lemma PlacedCounter(p: Progress, i: nat)
    requires Has(p.objects, i)
    ensures PlacedAt(p, i).counter == p.counter + 1 && WellMade(PlacedAt(p, i).objects)
  {
  }

  lemma NewKnown(start: Progress, p: Progress, order: seq<nat>, k: nat)
    requires k < |order| && Has(p.objects, order[k]) && order[k] < |start.objects| && p.objects[order[k]] == start.objects[order[k]]
    requires p.counter == start.counter + k
    ensures KeyKnown(start, PlacedAt(p, order[k]), order, k)
  {
    NewNode(p, order[k]);
    KeyGivenIs(Tree(p.objects, order[k]), p.counter + 1);
    TreeIs(p.objects, order[k]);
    hide Stored, Tree, KeyGiven, LinkOf;
  }

  lemma NewNotAgain(start: Progress, p: Progress, order: seq<nat>, k: nat)
    requires InRange(start, order) && k < |order| && ParentsEarlier(start.objects, order) && NoneAgain(start, p, order, k)
    requires forall j: nat | j < |order| :: Unguessed(start.objects[order[j]].node, start.counter)
    requires Has(p.objects, order[k]) && p.objects[order[k]] == start.objects[order[k]] && |p.objects| == |start.objects|
    ensures OwnKey(start, PlacedAt(p, order[k]), order, k)
  {
    var i := order[k];
    InPlace(start, order, k, p.objects);
    PlacedCounter(p, i);
    NewKnown(start, p, order, k);
    hide PlacedAt, WellMade;
    NewNode(p, i);
    if p.objects[i].above.Some? {
      var j: nat :| j < k && order[j] == p.objects[i].above.value;
      assert OwnKey(start, p, order, j);
      assert Unguessed(start.objects[order[j]].node, start.counter);
      CollidesIff(p, i);
      IdKeysDiffer(start.counter + 1 + j, p.counter + 1);
    }
  }

  lemma OlderKept(start: Progress, p: Progress, order: seq<nat>, k: nat, j: nat)
    requires InRange(start, order) && j < k < |order| && Distinct(order) && ParentsEarlier(start.objects, order)
    requires Has(p.objects, order[k]) && |p.objects| == |start.objects| && OwnKey(start, p, order, j)
    ensures OwnKey(start, PlacedAt(p, order[k]), order, j)
  {
    NewNode(p, order[k]);
    assert order[j] != order[k];
    if p.objects[order[j]].above.Some? {
      var i: nat :| i < j && order[i] == start.objects[order[j]].above.value;
      assert order[i] != order[k];
    }
    hide Stored, Tree, KeyGiven, LinkOf;
  }

  /** With no key guessed, distinct objects, parents first, go in smoothly. */
  lemma UnguessedIsSmooth(start: Progress, order: seq<nat>)
    requires InRange(start, order) && Distinct(order) && ParentsEarlier(start.objects, order)
    requires forall j: nat | j < |order| :: Unguessed(start.objects[order[j]].node, start.counter)
    ensures AllSmooth(start, order)
  {
    forall k: nat | k < |order| ensures SmoothAt(start, order, k) {
      PlanNotAgain(start, order, k);
      NotDone(order, k);
      AllDone(order, k);
      PlanElsewhere(start, order, k, order[k]);
      hide Plan, Done, Again, Unguessed, KeyKnown;
      if start.objects[order[k]].above.Some? {
        var j: nat :| j < k && order[j] == start.objects[order[k]].above.value;
        assert OwnKey(start, Plan(start, order, k), order, j);
      }
    }
  }

  /** The members are different objects with different group keys, and their parents are members. */
  ghost predicate KeysApart(objects: Objects, strong: nat, weak: seq<nat>)
    requires IsGroup(objects, strong, weak)
  {
    && strong !in weak && (forall i: nat, j: nat | i < j < |weak| :: weak[i] != weak[j])
    && (forall k: nat | k < |weak| :: Member(strong, weak, objects[weak[k]].above.value))
    && (forall i: nat, j: nat | Member(strong, weak, i) && Member(strong, weak, j) && i < |objects| && j < |objects| ::
          KeyInGroup(objects[i].node) == KeyInGroup(objects[j].node) ==> i == j)
  }

  /** Where keys tell the members apart, every member is paired with its own parent, and with no key
      guessed all is smooth: the group is created if and only if its members fit. */
  lemma KeysApartIsSmooth(s: Store, objects: Objects, strong: nat, weak: seq<nat>, ordered: seq<Pair>)
    requires IsGroup(objects, strong, weak) && KeysApart(objects, strong, weak)
    requires IsOrder(weak, ordered) && PairedByKey(objects, strong, weak, ordered)
    requires forall i: nat | Member(strong, weak, i) && i < |objects| :: Unguessed(objects[i].node, s.nodeCounter)
    ensures OwnParents(objects, strong, weak, ordered)
    ensures InRange(State(s, objects), Refs(strong, weak, ordered)) && AllSmooth(State(s, objects), Refs(strong, weak, ordered))
  {
    hide KeysApart, PairedByKey, WellMade, KeyInGroup, Unguessed, OwnAt, IsGroup, IsOrder, Refs, RefOf, Distinct, ParentsEarlier, AllSmooth, Member;
    OrderInRange(s, objects, strong, weak, ordered);
    forall k: nat | k < |ordered| ensures OwnAt(objects, strong, weak, ordered, k) { OwnByKey(objects, strong, weak, ordered, k); }
    OrderDistinct(objects, strong, weak, ordered);
    ApartEarlier(objects, strong, weak, ordered);
    forall j: nat | j < |Refs(strong, weak, ordered)| ensures Unguessed(objects[Refs(strong, weak, ordered)[j]].node, s.nodeCounter) {
      PlaceIsMember(strong, weak, ordered, j);
    }
    UnguessedIsSmooth(State(s, objects), Refs(strong, weak, ordered));
  }

  lemma ApartEarlier(objects: Objects, strong: nat, weak: seq<nat>, ordered: seq<Pair>)
    requires IsGroup(objects, strong, weak) && IsOrder(weak, ordered) && OwnParents(objects, strong, weak, ordered)
    ensures ParentsEarlier(objects, Refs(strong, weak, ordered))
  {
    var order := Refs(strong, weak, ordered);
    assert order[0] == strong && objects[strong].above.None?;
    hide WellMade, IsOrder, OwnAt, RefOf, Refs;
    forall k: nat | k < |order| && order[k] < |objects| && objects[order[k]].above.Some?
      ensures exists j: nat :: j < k && order[j] == objects[order[k]].above.value
    {
      assert k > 0;
      assert OwnAt(objects, strong, weak, ordered, k - 1);
      EarlierParent(objects, strong, weak, ordered, k - 1);
    }
  }

  lemma OwnByKey(objects: Objects, strong: nat, weak: seq<nat>, ordered: seq<Pair>, k: nat)
    requires IsGroup(objects, strong, weak) && KeysApart(objects, strong, weak) && k < |ordered|
    requires IsOrder(weak, ordered) && PairedByKey(objects, strong, weak, ordered)
    ensures OwnAt(objects, strong, weak, ordered, k)
  {
    var w, q := RefOf(strong, weak, ordered[k].0.node), RefOf(strong, weak, ordered[k].1);
    assert PairedBefore(weak, ordered, k) && ordered[k].0.node < |weak|;
    assert Member(strong, weak, q) && Member(strong, weak, objects[w].above.value);
    hide KeyInGroup;
  }

  lemma EarlierParent(objects: Objects, strong: nat, weak: seq<nat>, ordered: seq<Pair>, k: nat)
    requires IsOrder(weak, ordered) && k < |ordered| && OwnAt(objects, strong, weak, ordered, k)
    ensures var order := Refs(strong, weak, ordered);
            order[k + 1] < |objects| && objects[order[k + 1]].above.Some?
            && exists j: nat :: j < k + 1 && order[j] == objects[order[k + 1]].above.value
  {
    var order := Refs(strong, weak, ordered);
    assert PairedBefore(weak, ordered, k);
    if ordered[k].1 == |weak| {
      assert order[0] == strong;
    } else {
      var i: nat :| i < k && ordered[i].0.node == ordered[k].1;
      assert order[i + 1] == RefOf(strong, weak, ordered[k].1);
    }
  }

  lemma OrderDistinct(objects: Objects, strong: nat, weak: seq<nat>, ordered: seq<Pair>)
    requires IsGroup(objects, strong, weak) && KeysApart(objects, strong, weak) && IsOrder(weak, ordered)
    ensures Distinct(Refs(strong, weak, ordered))
  {
    var order := Refs(strong, weak, ordered);
    forall j: nat, k: nat | j < k < |order| ensures order[j] != order[k] {
      assert ordered[k - 1].0.node < |weak|;
      if j > 0 { assert ordered[j - 1].0.node != ordered[k - 1].0.node && ordered[j - 1].0.node < |weak|; }
    }
  }

  // --- Where it goes wrong -------------------------------------------------

  /** Inserting an object again that is home, as its children's insertions do, changes nothing. */
  lemma {:induction false} HomeInserted(before: Store, after: Store, objects: Objects, i: nat, id: NodeId, pk: map<string, Value>)
    requires Has(objects, i) && Home(State(before, objects), i) && Inserted(before, after, Tree(objects, i), true, true, false, id, pk)
    ensures Some(id) == objects[i].node.neo4jId && Some(pk) == objects[i].node.pk
    ensures after.nodeAttrs == before.nodeAttrs && after.edgeAttrs == before.edgeAttrs && after.nodeCounter == before.nodeCounter
    decreases i
  {
    TreeIs(objects, i);
    hide Ensured, Hung, Stored, Settle;
    if objects[i].above.None? {
      HomeEnsured(before, after, Tree(objects, i), id, pk);
    } else {
      var a := objects[i].above.value;
      var middle: Store, parentId: NodeId, parentPk: map<string, Value> :|
        && Inserted(before, middle, Tree(objects, i).parent.node, true, true, false, parentId, parentPk)
        && Hung(middle, after, Tree(objects, i), true, false, parentId, parentPk, id, pk);
      HomeInserted(before, middle, objects, a, parentId, parentPk);
      hide Inserted;
      BelowInserted(before, middle, after, objects, i, id, pk);
    }
  }

  lemma BelowInserted(before: Store, middle: Store, after: Store, objects: Objects, i: nat, id: NodeId, pk: map<string, Value>)
    requires Has(objects, i) && objects[i].above.Some? && Home(State(before, objects), i)
    requires middle.nodeAttrs == before.nodeAttrs && middle.edgeAttrs == before.edgeAttrs && middle.nodeCounter == before.nodeCounter
    requires var parent := objects[objects[i].above.value].node;
             && parent.neo4jId.Some? && parent.pk.Some?
             && Hung(middle, after, Tree(objects, i), true, false, parent.neo4jId.value, parent.pk.value, id, pk)
    ensures Some(id) == objects[i].node.neo4jId && Some(pk) == objects[i].node.pk
    ensures after.nodeAttrs == before.nodeAttrs && after.edgeAttrs == before.edgeAttrs && after.nodeCounter == before.nodeCounter
  {
    HomeAboveThat(State(before, objects), i);
    var plain := BelowParts(before, middle, after, objects, i, id, pk);
    SeatedAs(before, objects, i);
    HomeLink(State(before, objects), i);
    hide *;
    HomeEnsured(middle, plain, Tree(objects, i), id, pk);
    SettleSame(objects, i);
    LinkAgain(before.edgeAttrs, LinkOf(objects, i));
  }

  lemma LinkAgain(edges: map<EdgeKey, Attrs>, link: EdgeKey)
    requires link in edges && edges[link] == PROPAGATE
    ensures edges[link := PROPAGATE] == edges
  {
  }

  lemma BelowParts(before: Store, middle: Store, after: Store, objects: Objects, i: nat, id: NodeId, pk: map<string, Value>) returns (plain: Store)
    requires Has(objects, i) && objects[i].above.Some? && Home(State(before, objects), objects[i].above.value)
    requires var parent := objects[objects[i].above.value].node;
             && parent.neo4jId.Some? && parent.pk.Some?
             && Hung(middle, after, Tree(objects, i), true, false, parent.neo4jId.value, parent.pk.value, id, pk)
    ensures Ensured(middle, plain, Tree(objects, i), true, false, id, pk)
    ensures after.nodeAttrs == plain.nodeAttrs && after.nodeCounter == plain.nodeCounter
    ensures after.edgeAttrs == plain.edgeAttrs[LinkOf(Settle(objects, i, id, pk), i) := PROPAGATE]
  {
    hide Home, Stored, Tree, Attached, Ensured, BackendAssigned, Again, Hung, Settle, LinkOf, ParentKeyOk;
    BelowIs(State(before, objects), i);
    plain := HungParts(middle, after, objects, i, Tree(objects, i), true, id, pk);
  }

  lemma HomeAboveThat(p: Progress, i: nat)
    requires Has(p.objects, i) && p.objects[i].above.Some? && Home(p, i)
    ensures Has(p.objects, p.objects[i].above.value) && Home(p, p.objects[i].above.value)
  {
    hide Seated, Again;
  }

  /** A member with its parent's key is not found again: inserting it once more, as inserting its
      children does, makes another node, and the first is left behind. It is found if and only if the
      keys differ. */
  lemma FoundAgainIff(before: Store, after: Store, objects: Objects, i: nat, id: NodeId, pk: map<string, Value>)
    requires Has(objects, i) && objects[i].above.Some? && Seated(State(before, objects), i) && Home(State(before, objects), objects[i].above.value)
    requires Inserted(before, after, Tree(objects, i), true, true, false, id, pk)
    ensures (Some(id) == objects[i].node.neo4jId && after.nodeAttrs.Keys == before.nodeAttrs.Keys) <==> !Again(objects, i)
    ensures Again(objects, i) ==> id !in before.nodeAttrs && after.nodeAttrs.Keys == before.nodeAttrs.Keys + {id}
  {
    hide Inserted, Again, Tree, Stored;
    if !Again(objects, i) {
      assert Home(State(before, objects), i);
      hide Seated, Home;
      HomeInserted(before, after, objects, i, id, pk);
    } else {
      assert objects[i].node.neo4jId.value in before.nodeAttrs;
      hide Seated, Home;
      AgainInserted(before, after, objects, i, id, pk);
    }
  }

  lemma AgainInserted(before: Store, after: Store, objects: Objects, i: nat, id: NodeId, pk: map<string, Value>)
    requires Has(objects, i) && objects[i].above.Some? && Again(objects, i) && Home(State(before, objects), objects[i].above.value)
    requires Inserted(before, after, Tree(objects, i), true, true, false, id, pk)
    ensures id !in before.nodeAttrs && after.nodeAttrs.Keys == before.nodeAttrs.Keys + {id}
  {
    var a := objects[i].above.value;
    TreeIs(objects, i);
    hide Ensured, Hung, Stored, Settle, Home, Again;
    var middle: Store, parentId: NodeId, parentPk: map<string, Value> :|
      && Inserted(before, middle, Tree(objects, i).parent.node, true, true, false, parentId, parentPk)
      && Hung(middle, after, Tree(objects, i), true, false, parentId, parentPk, id, pk);
    HomeInserted(before, middle, objects, a, parentId, parentPk);
    hide Inserted, BackendAssigned, Tree, Attached;
    var plain := BelowParts(before, middle, after, objects, i, id, pk);
    AssignedIsNew(middle, plain, Tree(objects, i), id, pk);
  }

  lemma AssignedIsNew(before: Store, after: Store, arg: NodeArg, id: NodeId, pk: map<string, Value>)
    requires Ensured(before, after, arg, true, false, id, pk) && BackendAssigned(arg)
    ensures id !in before.nodeAttrs && after.nodeAttrs.Keys == before.nodeAttrs.Keys + {id}
  {
    hide Stored, Denotes, TakenAlong;
  }

  const NO_NODE := NodeArg(None, None, "", [], map[], false, NoParent)

  function Keyed(name: string, id: int): NodeArg {
    NO_NODE.(mainLabel := name, labels := [name], pk := Some(map["id" := Int(id)]))
  }

  /** A document, a section whose key is left to the store, and a page below it, on an empty store. The
      document's key is its own; not so with `{"id": 2}`, the id the section gets. */
  function Pages(id: int): Objects {
    [Made(Keyed("Document", id), None, ""), Made(Keyed("Section", id), Some(0), "HAS"), Made(Keyed("Page", id), Some(1), "HAS")]
  }

  lemma GuessedKeyCollides()
    ensures forall id :: IsGroup(Pages(id), 0, [1, 2])
    ensures var start := State(EMPTY_STORE, Pages(2)); InRange(start, [0, 1, 2]) && !SmoothAt(start, [0, 1, 2], 2)
    ensures var start := State(EMPTY_STORE, Pages(1)); InRange(start, [0, 1, 2]) && AllSmooth(start, [0, 1, 2])
  {
    forall id ensures IsGroup(Pages(id), 0, [1, 2]) { assert WellMade(Pages(id)); }
    var order: seq<nat> := [0, 1, 2];
    PagesPlan(1);
    PagesPlan(2);
    assert Done(order, 0) == {} && Done(order, 1) == {0} && Done(order, 2) == {0, 1};
    hide Plan, Done;
    forall k: nat | k < 3 ensures SmoothAt(State(EMPTY_STORE, Pages(1)), order, k) { assert k == 0 || k == 1 || k == 2; }
  }

  lemma PagesPlan(id: int)
    ensures var start, order := State(EMPTY_STORE, Pages(id)), [0, 1, 2];
            && InRange(start, order) && Plan(start, order, 0) == start && !Again(start.objects, 0)
            && Plan(start, order, 1).objects[1] == Pages(id)[1] && !Again(Plan(start, order, 1).objects, 0)
            && Plan(start, order, 2).objects[2] == Pages(id)[2] && (Again(Plan(start, order, 2).objects, 1) <==> id == 2)
  {
    var start, order := State(EMPTY_STORE, Pages(id)), [0, 1, 2];
    assert WellMade(start.objects);
    var p := PlacedAt(start, 0);
    assert start.counter == 0 && p.counter == 1;
    var q := PlacedAt(p, 1);
    NewNode(start, 0);
    NewNode(p, 1);
    TreeIs(start.objects, 0);
    KeyKept(Tree(start.objects, 0), id);
    hide Stored, LinkOf, Tree, KeyGiven, PlacedAt, Fits;
    assert Plan(start, order, 0) == start && Plan(start, order, 1) == p && Plan(start, order, 2) == q;
    hide Plan;
    assert p.objects[1] == Pages(id)[1] && p.objects[2] == Pages(id)[2] && p.objects[0].node.pk == Some(map["id" := Int(id)]);
    CollidesIff(p, 1);
    IdKeysDiffer2(id);
    assert q.objects[2] == p.objects[2];
  }

  lemma KeyKept(arg: NodeArg, id: int)
    requires arg.pk == Some(map["id" := Int(id)]) && arg.parent.NoParent?
    ensures KeyGiven(arg, 1) == map["id" := Int(id)]
  {
  }

  lemma IdKeysDiffer2(id: int)
    ensures map["id" := Int(id)] == map["id" := Int(2)] ==> id == 2
  {
    assert map["id" := Int(id)]["id"] == Int(id) && map["id" := Int(2)]["id"] == Int(2);
  }

  /** Two sections that share a group key, and a page whose parent is the first of them: the order pairs
      it with the second, so the run fails. */
  lemma ShadowedParent(objects: Objects)
    requires |objects| > 3 && IsGroup(objects, 0, [1, 2, 3])
    requires objects[1].above == Some(0) && objects[2].above == Some(0) && objects[3].above == Some(1)
    requires KeyInGroup(objects[1].node) == KeyInGroup(objects[2].node) != KeyInGroup(objects[0].node)
    ensures var ordered := GroupOrder(objects, 0, [1, 2, 3]);
            && |ordered| == 3 && ordered[2].0.node == 2 && ordered[2].1 == 1 && !OwnParents(objects, 0, [1, 2, 3], ordered)
  {
    var weak: seq<nat> := [1, 2, 3];
    var entries := Entries(objects, 0, weak);
    var root, section := KeyInGroup(objects[0].node), KeyInGroup(objects[1].node);
    assert entries == [entries[0], entries[1], entries[2]];
    TwoRounds(entries[0], entries[1], entries[2], root, section);
    var ordered := GroupOrder(objects, 0, weak);
    assert ordered[2].0.node == 2 && ordered[2].1 == 1;
    assert !OwnAt(objects, 0, weak, ordered, 2);
  }

  lemma TwoRounds(a: Weak<GroupKey, nat>, b: Weak<GroupKey, nat>, c: Weak<GroupKey, nat>, root: GroupKey, section: GroupKey)
    requires a.parentKey == b.parentKey == root && a.key == b.key == c.parentKey == section && root != section
    ensures Rounds([], map[root := 3], [a, b, c]) == ([(a, 3), (b, 3), (c, b.node)], [])
  {
    var first := map[root := 3];
    var created := first[section := a.node][section := b.node];
    SieveThree(a, b, c, root, section);
    assert Round([], first, [a, b]) == ([(a, 3), (b, 3)], created) by {
      assert [a, b][1..] == [b] && [b][1..] == [];
      assert [] + [(a, 3)] == [(a, 3)] && [(a, 3)] + [(b, 3)] == [(a, 3), (b, 3)];
      assert Round([(a, 3), (b, 3)], created, []) == ([(a, 3), (b, 3)], created);
      assert Round([(a, 3)], first[section := a.node], [b]) == ([(a, 3), (b, 3)], created);
    }
    SieveOne(c, created.Keys);
    var after := created[c.key := c.node];
    assert Round([(a, 3), (b, 3)], created, [c]) == ([(a, 3), (b, 3), (c, b.node)], after) by {
      assert [c][1..] == [];
      assert [(a, 3), (b, 3)] + [(c, b.node)] == [(a, 3), (b, 3), (c, b.node)];
    }
    assert Sieve<GroupKey, nat>([], after.Keys, true) == [];
    assert Rounds([(a, 3), (b, 3), (c, b.node)], after, []) == ([(a, 3), (b, 3), (c, b.node)], []);
    assert Rounds([(a, 3), (b, 3)], created, [c]) == Rounds([(a, 3), (b, 3), (c, b.node)], after, []);
    assert first.Keys == {root};
    assert Rounds([], first, [a, b, c]) == Rounds([(a, 3), (b, 3)], created, [c]);
  }

  lemma SieveThree(a: Weak<GroupKey, nat>, b: Weak<GroupKey, nat>, c: Weak<GroupKey, nat>, root: GroupKey, section: GroupKey)
    requires a.parentKey == b.parentKey == root && c.parentKey == section && root != section
    ensures Sieve([a, b, c], {root}, true) == [a, b] && Sieve([a, b, c], {root}, false) == [c]
  {
    var all, two, one := [a, b, c], [a, b], [a];
    assert all[..2] == two && two[..1] == one && one[..0] == [];
    var none: seq<Weak<GroupKey, nat>> := [];
    assert Sieve(none, {root}, true) == none && Sieve(none, {root}, false) == none;
    SieveStep(one, {root}, true);
    SieveStep(one, {root}, false);
    SieveStep(two, {root}, true);
    SieveStep(two, {root}, false);
    SieveStep(all, {root}, true);
    SieveStep(all, {root}, false);
    assert none + [a] == [a] && [a] + [b] == [a, b] && none + [c] == [c];
  }

  lemma SieveOne(c: Weak<GroupKey, nat>, keys: set<GroupKey>)
    requires c.parentKey in keys
    ensures Sieve([c], keys, true) == [c] && Sieve([c], keys, false) == []
  {
    var none: seq<Weak<GroupKey, nat>> := [];
    assert [c][..0] == none && Sieve(none, keys, true) == none && Sieve(none, keys, false) == none;
    SieveStep([c], keys, true);
    SieveStep([c], keys, false);
    assert none + [c] == [c];
  }
}
