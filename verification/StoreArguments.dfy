/** What the store's operations are given (cvcdocdb/networkx_graph.py): node arguments, the ends of a
    relation, and the stored nodes they stand for. */
module StoreArguments {
  import opened Common
  import opened Values
  import opened StoreIndexes
  import opened Propagation
  import opened PropagationFlags

  datatype OnDelete = Cascade | Restrict | SetNull

  datatype StoreError =
    | DuplicateNode(id: NodeId)
    | DuplicatePk
    | DuplicateRelation(e: EdgeKey)
    | MissingNode
    | MissingParent
    | KeyViolation
    | HasRelations(id: NodeId)
    | NotInGroup
    | NoSuchRelation
    | BadName

  /** A node argument: `Node` and `WeakNode` objects. A weak node carries its parent. */
  datatype NodeArg = NodeArg(
    neo4jId: Option<NodeId>,
    pk: Option<map<string, Value>>,
    mainLabel: string,
    labels: seq<string>,
    attributes: Attrs,
    propagate: bool,
    parent: Parent)

  datatype Parent = NoParent | HasParent(node: NodeArg, relation: string)

  /** What a relation names its ends by. */
  datatype End = End(mainLabel: string, pk: Option<map<string, Value>>)

  function Texts(labels: seq<string>): seq<Value> {
    seq(|labels|, i requires 0 <= i < |labels| => Str(labels[i]))
  }

  /** The attributes `_ensure_node_inserted` stores for a new node; a property may shadow the three
      representation keys, as it does in the code. */
  function Stored(arg: NodeArg, pk: map<string, Value>): Attrs {
    map["pk" := Dict(pk), "main_label" := Str(arg.mainLabel),
        "labels" := List(Texts(arg.labels))]
    + (pk + arg.attributes)
  }

  /** The properties a merge writes over an existing node. */
  function Merged(arg: NodeArg): Attrs {
    match arg.pk
    case None => arg.attributes
    case Some(pk) => pk + arg.attributes
  }

  /** A weak node whose key was left to the backend has its parent's key until it is inserted. */
  predicate BackendAssigned(arg: NodeArg) {
    arg.parent.HasParent? && arg.parent.node.pk.Some? && arg.pk == arg.parent.node.pk
  }

  /** `_attrs_match_pk`. */
  predicate MatchesPk(attrs: Attrs, pk: map<string, Value>) {
    forall k | k in pk :: Get(attrs, k) != Null && KeyText(Get(attrs, k)) == KeyText(pk[k])
  }

  /** `_check_child_references_parent_keys`. */
  predicate ReferencesParent(child: map<string, Value>, parent: map<string, Value>) {
    (|child| == 1 && "id" in child) || forall k | k in parent :: Get(child, k) == parent[k]
  }

  /** Does a stored node go by this label and key? Either its own key is the same, or its
      properties match the key's fields. */
  predicate Named(attrs: Attrs, mainLabel: string, pk: map<string, Value>) {
    || KeyOf(attrs) == Some(KeyFor(mainLabel, pk))
    || (Get(attrs, "main_label") == Str(mainLabel) && MatchesPk(attrs, pk))
  }

  /** A stored node has exactly the key a relation names its end by. */
  predicate HasKey(attrs: Attrs, end: End) {
    end.pk.Some? && end.pk.value != map[] && KeyOf(attrs) == Some(KeyFor(end.mainLabel, end.pk.value))
  }

  /** Nothing is stored under the name of an end; an empty key names nothing. */
  ghost predicate Unresolved(end: End, nodes: map<NodeId, Attrs>) {
    end.pk.None? || end.pk.value == map[] || forall n | n in nodes :: !Named(nodes[n], end.mainLabel, end.pk.value)
  }

  /** The stored nodes a node argument may stand for. */
  predicate Denotes(arg: NodeArg, id: NodeId, attrs: Attrs) {
    if arg.neo4jId.Some? then arg.neo4jId == Some(id)
    else arg.pk.Some? && Named(attrs, arg.mainLabel, arg.pk.value)
  }

  /** What goes along when the argument replaces node `n`: its propagation closure. */
  ghost function Along(s: Store, arg: NodeArg, n: NodeId): set<NodeId> {
    Closure(s.edgeAttrs, if arg.propagate then {n} else {}, n)
  }

  /** `gone` goes along with a node the argument stands for. */
  ghost predicate TakenAlong(before: Store, arg: NodeArg, gone: set<NodeId>) {
    !BackendAssigned(arg) && exists n | n in before.nodeAttrs :: Denotes(arg, n, before.nodeAttrs[n]) && gone == Along(before, arg, n)
  }

  predicate Satisfies(attrs: Attrs, filters: map<string, Value>, all: bool) {
    if all || filters == map[] then forall k | k in filters :: Carries(attrs, KeyOfProp(k, filters[k]))
    else exists k :: k in filters && Carries(attrs, KeyOfProp(k, filters[k]))
  }

  lemma KeysDiffer(pk: PkIndex, nodes: map<NodeId, Attrs>, id: NodeId)
    requires PkExact(pk, nodes) && id in nodes
    ensures forall n | n in nodes && n != id && KeyOf(nodes[n]).Some? :: KeyOf(nodes[n]) != KeyOf(nodes[id])
  {
    forall n | n in nodes && n != id && KeyOf(nodes[n]).Some? ensures KeyOf(nodes[n]) != KeyOf(nodes[id]) {
      if KeyOf(nodes[n]) == KeyOf(nodes[id]) { KeysAreUnique(pk, nodes, n, id); }
    }
  }

  /** Another node already has the key of `attrs`. */
  ghost predicate KeyTaken(nodes: map<NodeId, Attrs>, id: NodeId, attrs: Attrs) {
    KeyOf(attrs).Some? && exists n :: n in nodes && n != id && KeyOf(nodes[n]) == KeyOf(attrs)
  }

  lemma KeyFreeOrTaken(pk: PkIndex, nodes: map<NodeId, Attrs>, id: NodeId, attrs: Attrs)
    requires PkExact(pk, nodes) && id !in nodes
    ensures KeyFree(pk, id, attrs) <==> !KeyTaken(nodes, id, attrs)
  {
    hide KeyOf;
    var key := KeyOf(attrs);
    if key.Some? && key.value in pk { assert KeyOf(nodes[pk[key.value]]) == key; }
  }

  lemma KeyTakenElsewhere(nodes: map<NodeId, Attrs>, id: NodeId, attrs: Attrs)
    ensures KeyTaken(nodes - {id}, id, attrs) <==> KeyTaken(nodes, id, attrs)
  {
    hide KeyOf;
    if KeyTaken(nodes, id, attrs) {
      var n :| n in nodes && n != id && KeyOf(nodes[n]) == KeyOf(attrs);
      assert n in nodes - {id};
    }
  }

  // --- What an insertion leaves --------------------------------------------

  /** The key a new node gets. */
  function KeyGiven(arg: NodeArg, id: NodeId): map<string, Value> {
    if arg.pk.None? || BackendAssigned(arg) then map["id" := Int(id)] else arg.pk.value
  }

  /** `_ensure_node_inserted`: nothing but the one node changes, or, when it replaces, the old node's
      closure goes and a fresh node comes. */
  ghost predicate Ensured(before: Store, after: Store, arg: NodeArg, update: bool, replace: bool, id: NodeId, pk: map<string, Value>) {
    if id in before.nodeAttrs then
      && update && !replace && !BackendAssigned(arg) && Denotes(arg, id, before.nodeAttrs[id]) && pk == GetOr(arg.pk, map[])
      && after.nodeAttrs == before.nodeAttrs[id := before.nodeAttrs[id] + Merged(arg)]
      && after.edgeAttrs == before.edgeAttrs && after.nodeCounter == before.nodeCounter
    else
      && id == before.nodeCounter + 1 == after.nodeCounter && pk == KeyGiven(arg, id)
      && exists gone: set<NodeId> ::
           && (if gone == {} then Unknown(before, arg) else replace && TakenAlong(before, arg, gone))
           && after.nodeAttrs == (before.nodeAttrs - gone)[id := Stored(arg, pk)]
           && after.edgeAttrs == EdgesWithout(before.edgeAttrs, gone)
  }

  /** No stored node is taken for the argument. */
  ghost predicate Unknown(before: Store, arg: NodeArg) {
    BackendAssigned(arg) || forall n | n in before.nodeAttrs :: !Denotes(arg, n, before.nodeAttrs[n])
  }

  /** Why `_ensure_node_inserted` raises: the node is there and is to stay as it is, or another node
      has the key it would get. */
  ghost predicate Refused(before: Store, arg: NodeArg, update: bool, replace: bool, error: StoreError) {
    match error
    case DuplicateNode(n) => !update && !replace && !BackendAssigned(arg) && n in before.nodeAttrs && Denotes(arg, n, before.nodeAttrs[n])
    case DuplicatePk =>
      var id := before.nodeCounter + 1;
      || ((Unknown(before, arg) || replace) && KeyTaken(before.nodeAttrs, id, Stored(arg, KeyGiven(arg, id))))
      || (update && exists n :: n in before.nodeAttrs && Denotes(arg, n, before.nodeAttrs[n])
                                && KeyTaken(before.nodeAttrs, n, before.nodeAttrs[n] + Merged(arg)))
    case _ => false
  }

  /** The argument once its parent is known. */
  function Attached(arg: NodeArg, parentId: NodeId, parentPk: map<string, Value>): NodeArg
    requires arg.parent.HasParent?
  {
    arg.(parent := HasParent(arg.parent.node.(neo4jId := Some(parentId), pk := Some(parentPk)), arg.parent.relation))
  }

  predicate ParentKeyOk(arg: NodeArg, parentPk: map<string, Value>) {
    arg.pk.Some? && ReferencesParent(arg.pk.value, parentPk)
  }

  /** `insertNode`: a weak node's parents are merged in first, up to the root of its chain. */
  ghost predicate Inserted(before: Store, after: Store, arg: NodeArg, insertParent: bool, update: bool, replace: bool,
                           id: NodeId, pk: map<string, Value>)
    decreases arg
  {
    if arg.parent.NoParent? then Ensured(before, after, arg, update, replace, id, pk)
    else exists middle: Store, parentId: NodeId, parentPk: map<string, Value> ::
      && (if insertParent then Inserted(before, middle, arg.parent.node, true, true, false, parentId, parentPk)
          else ParentFound(before, middle, arg, parentId, parentPk))
      && Hung(middle, after, arg, update, replace, parentId, parentPk, id, pk)
  }

  ghost predicate ParentFound(before: Store, middle: Store, arg: NodeArg, parentId: NodeId, parentPk: map<string, Value>)
    requires arg.parent.HasParent?
  {
    && middle == before && parentPk == GetOr(arg.parent.node.pk, map[])
    && parentId in before.nodeAttrs && Denotes(arg.parent.node, parentId, before.nodeAttrs[parentId])
  }

  /** The store without the relation a new weak node hangs by. */
  function Unhung(middle: Store, after: Store, link: EdgeKey): Store {
    after.(edgeAttrs := if link.1 in middle.nodeAttrs then middle.edgeAttrs else after.edgeAttrs - {link})
  }

  /** The weak node itself and the relation it hangs by; its parent is still there. */
  ghost predicate Hung(middle: Store, after: Store, arg: NodeArg, update: bool, replace: bool,
                       parentId: NodeId, parentPk: map<string, Value>, id: NodeId, pk: map<string, Value>)
    requires arg.parent.HasParent?
  {
    var link := (parentId, id, arg.parent.relation);
    && ParentKeyOk(arg, parentPk) && parentId in middle.nodeAttrs && parentId in after.nodeAttrs
    && Ensured(middle, Unhung(middle, after, link), Attached(arg, parentId, parentPk), update, replace, id, pk)
    && after.edgeAttrs == Unhung(middle, after, link).edgeAttrs[link := PROPAGATE]
  }

  /** Why `insertNode` raises. */
  ghost predicate Rejected(before: Store, arg: NodeArg, insertParent: bool, update: bool, replace: bool, error: StoreError)
    decreases arg
  {
    if arg.parent.NoParent? then Refused(before, arg, update, replace, error)
    else
      || (insertParent && Rejected(before, arg.parent.node, true, true, false, error))
      || (!insertParent && error.MissingParent?
          && forall n | n in before.nodeAttrs :: !Denotes(arg.parent.node, n, before.nodeAttrs[n]))
      || exists middle: Store, parentId: NodeId, parentPk: map<string, Value> ::
           && (if insertParent then Inserted(before, middle, arg.parent.node, true, true, false, parentId, parentPk)
               else ParentFound(before, middle, arg, parentId, parentPk))
           && (if ParentKeyOk(arg, parentPk) then Refused(middle, Attached(arg, parentId, parentPk), update, replace, error)
               else error.KeyViolation?)
  }

  /** The existing nodes an argument may replace are roots of hierarchies. */
  ghost predicate Replaceable(s: Store, arg: NodeArg) {
    BackendAssigned(arg) || forall n | n in s.nodeAttrs && Denotes(arg, n, s.nodeAttrs[n]) ::
      Hierarchy(s.edgeAttrs, if arg.propagate then {n} else {}, n)
  }

  /** Replacing does not take node `p` along. */
  ghost predicate Spared(s: Store, arg: NodeArg, p: NodeId) {
    BackendAssigned(arg) || forall n | n in s.nodeAttrs && Denotes(arg, n, s.nodeAttrs[n]) :: p !in Along(s, arg, n)
  }

  /** Replacing is defined: what is replaced is the root of a hierarchy, and for a weak node its
      parent, once it is there, is not part of it. */
  ghost predicate ReplaceSafe(before: Store, arg: NodeArg, insertParent: bool) {
    if arg.parent.NoParent? then Replaceable(before, arg)
    else forall middle: Store, parentId: NodeId, parentPk: map<string, Value> |
           (if insertParent then Inserted(before, middle, arg.parent.node, true, true, false, parentId, parentPk)
            else ParentFound(before, middle, arg, parentId, parentPk)) ::
           Replaceable(middle, Attached(arg, parentId, parentPk)) && Spared(middle, Attached(arg, parentId, parentPk), parentId)
  }

  lemma ReplaceSafeBelow(before: Store, middle: Store, arg: NodeArg, insertParent: bool, parentId: NodeId, parentPk: map<string, Value>)
    requires arg.parent.HasParent? && ReplaceSafe(before, arg, insertParent)
    requires if insertParent then Inserted(before, middle, arg.parent.node, true, true, false, parentId, parentPk)
             else ParentFound(before, middle, arg, parentId, parentPk)
    ensures Replaceable(middle, Attached(arg, parentId, parentPk)) && Spared(middle, Attached(arg, parentId, parentPk), parentId)
  {
    hide Replaceable, Spared, ParentFound, Inserted;
  }

  lemma FewerKeysTaken(nodes: map<NodeId, Attrs>, gone: set<NodeId>, id: NodeId, attrs: Attrs)
    ensures KeyTaken(nodes - gone, id, attrs) ==> KeyTaken(nodes, id, attrs)
  {
    hide KeyOf;
    if KeyTaken(nodes - gone, id, attrs) {
      var n :| n in nodes - gone && n != id && KeyOf((nodes - gone)[n]) == KeyOf(attrs);
      assert KeyOf(nodes[n]) == KeyOf(attrs);
    }
  }

  /** Only nodes, relations and the counter matter. */
  lemma EnsuredElsewhere(before: Store, after: Store, after': Store, arg: NodeArg, update: bool, replace: bool, id: NodeId, pk: map<string, Value>)
    requires Ensured(before, after, arg, update, replace, id, pk)
    requires after'.nodeAttrs == after.nodeAttrs && after'.edgeAttrs == after.edgeAttrs && after'.nodeCounter == after.nodeCounter
    ensures Ensured(before, after', arg, update, replace, id, pk)
  {
    hide Denotes, Stored, Merged, BackendAssigned, TakenAlong, Unknown, EdgesWithout;
  }

  lemma InsertedIsStored(before: Store, after: Store, arg: NodeArg, insertParent: bool, update: bool, replace: bool, id: NodeId, pk: map<string, Value>)
    requires Inserted(before, after, arg, insertParent, update, replace, id, pk)
    ensures id in after.nodeAttrs
  {
    hide Denotes, Stored, Merged, BackendAssigned, TakenAlong, Unknown, EdgesWithout;
  }

  lemma InsertedBelow(before: Store, middle: Store, after: Store, arg: NodeArg, insertParent: bool, update: bool, replace: bool,
                      parentId: NodeId, parentPk: map<string, Value>, id: NodeId, pk: map<string, Value>)
    requires arg.parent.HasParent? && Hung(middle, after, arg, update, replace, parentId, parentPk, id, pk)
    requires if insertParent then Inserted(before, middle, arg.parent.node, true, true, false, parentId, parentPk)
             else ParentFound(before, middle, arg, parentId, parentPk)
    ensures Inserted(before, after, arg, insertParent, update, replace, id, pk)
  {
    hide Hung, ParentFound;
  }

  lemma RejectedBelow(before: Store, middle: Store, arg: NodeArg, insertParent: bool, update: bool, replace: bool,
                      parentId: NodeId, parentPk: map<string, Value>, error: StoreError)
    requires arg.parent.HasParent?
    requires if insertParent then Inserted(before, middle, arg.parent.node, true, true, false, parentId, parentPk)
             else ParentFound(before, middle, arg, parentId, parentPk)
    requires if ParentKeyOk(arg, parentPk) then Refused(middle, Attached(arg, parentId, parentPk), update, replace, error)
             else error.KeyViolation?
    ensures Rejected(before, arg, insertParent, update, replace, error)
  {
    hide Refused, ParentFound, ParentKeyOk;
  }

  lemma HungThere(before: Store, middle: Store, after: Store, arg: NodeArg, update: bool, replace: bool,
                  parentId: NodeId, parentPk: map<string, Value>, id: NodeId, pk: map<string, Value>)
    requires arg.parent.HasParent? && ParentKeyOk(arg, parentPk) && parentId in before.nodeAttrs && parentId in middle.nodeAttrs
    requires Ensured(before, middle, Attached(arg, parentId, parentPk), update, replace, id, pk)
    requires var link := (parentId, id, arg.parent.relation);
             && (if id in before.nodeAttrs then middle.edgeAttrs == before.edgeAttrs else link !in middle.edgeAttrs)
             && after == middle.(edgeAttrs := middle.edgeAttrs[link := PROPAGATE], graphEdges := after.graphEdges, fkIndex := after.fkIndex)
    ensures Hung(before, after, arg, update, replace, parentId, parentPk, id, pk)
  {
    var link := (parentId, id, arg.parent.relation);
    hide Ensured, ParentKeyOk, Attached;
    if id !in before.nodeAttrs { assert middle.edgeAttrs[link := PROPAGATE] - {link} == middle.edgeAttrs; }
    EnsuredElsewhere(before, middle, Unhung(before, after, link), Attached(arg, parentId, parentPk), update, replace, id, pk);
  }

  lemma ParentStays(before: Store, middle: Store, current: NodeArg, update: bool, replace: bool, id: NodeId, pk: map<string, Value>,
                    parentId: NodeId, link: EdgeKey)
    requires Ensured(before, middle, current, update, replace, id, pk) && (replace ==> Spared(before, current, parentId))
    requires Consistent(before) && Consistent(middle) && parentId in before.nodeAttrs && link.1 == id
    ensures parentId in middle.nodeAttrs && id in middle.nodeAttrs
    ensures if id in before.nodeAttrs then middle.edgeAttrs == before.edgeAttrs else link !in middle.edgeAttrs
  {
    hide Stored, Merged, Denotes, BackendAssigned, KeyGiven, Closure;
    if id !in before.nodeAttrs {
      var gone: set<NodeId> :|
        && (if gone == {} then Unknown(before, current) else replace && TakenAlong(before, current, gone))
        && middle.nodeAttrs == (before.nodeAttrs - gone)[id := Stored(current, pk)]
        && middle.edgeAttrs == EdgesWithout(before.edgeAttrs, gone);
      assert parentId !in gone;
      assert forall e | e in before.edgeAttrs :: e.1 in before.nodeAttrs;
    }
  }

  // --- What that means -----------------------------------------------------

  /** Nothing that was there is gone, and only the nodes in `touched`, and relations between them,
      may have changed. */
  ghost predicate Grown(before: Store, after: Store, touched: set<NodeId>) {
    && before.nodeAttrs.Keys <= after.nodeAttrs.Keys <= before.nodeAttrs.Keys + touched
    && before.edgeAttrs.Keys <= after.edgeAttrs.Keys && before.nodeCounter <= after.nodeCounter
    && (forall n | n in before.nodeAttrs && n !in touched :: after.nodeAttrs[n] == before.nodeAttrs[n])
    && (forall e | e in after.edgeAttrs && !(e in before.edgeAttrs && after.edgeAttrs[e] == before.edgeAttrs[e]) ::
          e.0 in touched && e.1 in touched && after.edgeAttrs[e] == PROPAGATE)
  }

  /** `chain` are the stored nodes of a weak node and its ancestors, each linked to the one it hangs
      from by a relation that propagates. */
  ghost predicate Ancestry(s: Store, arg: NodeArg, chain: seq<NodeId>)
    decreases arg
  {
    && chain != [] && chain[0] in s.nodeAttrs
    && match arg.parent
       case NoParent => |chain| == 1
       case HasParent(parent, relation) =>
         && |chain| > 1 && (chain[1], chain[0], relation) in s.edgeAttrs
         && s.edgeAttrs[(chain[1], chain[0], relation)] == PROPAGATE
         && Ancestry(s, parent, chain[1..])
  }

  lemma EnsuredGrows(before: Store, after: Store, arg: NodeArg, update: bool, replace: bool, id: NodeId, pk: map<string, Value>)
    requires Ensured(before, after, arg, update, replace, id, pk) && (replace ==> id in before.nodeAttrs)
    ensures Grown(before, after, {id}) && id in after.nodeAttrs && after.edgeAttrs == before.edgeAttrs
  {
    hide Denotes, Stored, Merged, BackendAssigned, TakenAlong, Unknown;
  }

  lemma GrownTwice(a: Store, b: Store, c: Store, x: set<NodeId>, y: set<NodeId>)
    requires Grown(a, b, x) && Grown(b, c, y)
    ensures Grown(a, c, x + y)
  {
  }

  lemma GrownMore(before: Store, after: Store, touched: set<NodeId>, more: set<NodeId>)
    requires Grown(before, after, touched) && touched <= more
    ensures Grown(before, after, more)
  {
  }

  /** A relation hung between two touched nodes. */
  lemma GrownLink(before: Store, middle: Store, after: Store, touched: set<NodeId>, e: EdgeKey)
    requires Grown(before, middle, touched) && e.0 in touched && e.1 in touched
    requires after.nodeAttrs == middle.nodeAttrs && after.nodeCounter == middle.nodeCounter
    requires after.edgeAttrs == middle.edgeAttrs[e := PROPAGATE]
    ensures Grown(before, after, touched)
  {
  }

  lemma {:induction false} AncestryGrows(before: Store, after: Store, arg: NodeArg, chain: seq<NodeId>, touched: set<NodeId>)
    requires Ancestry(before, arg, chain) && Grown(before, after, touched)
    ensures Ancestry(after, arg, chain)
    decreases arg
  {
    if arg.parent.HasParent? { AncestryGrows(before, after, arg.parent.node, chain[1..], touched); }
  }

  /** The store without some nodes and the relations that touch them. */
  function Less(s: Store, gone: set<NodeId>): Store {
    s.(nodeAttrs := s.nodeAttrs - gone, edgeAttrs := EdgesWithout(s.edgeAttrs, gone))
  }

  lemma GrownLess(before: Store, after: Store, touched: set<NodeId>, gone: set<NodeId>)
    requires Grown(before, after, touched)
    ensures Grown(Less(before, gone), Less(after, gone), touched)
  {
  }

  lemma LessNothing(s: Store)
    ensures Less(s, {}).nodeAttrs == s.nodeAttrs && Less(s, {}).edgeAttrs == s.edgeAttrs && Less(s, {}) == s
  {
    assert s.nodeAttrs - {} == s.nodeAttrs && EdgesWithout(s.edgeAttrs, {}) == s.edgeAttrs;
  }

  /** `gone` is what goes along with a node the argument names, in a store where its ancestors are in place. */
  ghost predicate GoesAlong(middle: Store, arg: NodeArg, gone: set<NodeId>) {
    exists n :: n in middle.nodeAttrs && Denotes(arg, n, middle.nodeAttrs[n]) && gone == Along(middle, arg, n)
  }

  lemma EnsuredReplaces(before: Store, after: Store, arg: NodeArg, update: bool, replace: bool, id: NodeId, pk: map<string, Value>)
    returns (gone: set<NodeId>)
    requires Ensured(before, after, arg, update, replace, id, pk)
    ensures (gone == {} || TakenAlong(before, arg, gone)) && (gone != {} ==> replace && id !in before.nodeAttrs)
    ensures Grown(Less(before, gone), after, {id}) && id in after.nodeAttrs
    ensures after.edgeAttrs == EdgesWithout(before.edgeAttrs, gone)
    ensures id !in before.nodeAttrs ==> after.nodeAttrs.Keys == (before.nodeAttrs.Keys - gone) + {id}
  {
    hide Denotes, Stored, Merged, BackendAssigned, Closure;
    if id in before.nodeAttrs {
      gone := {};
      LessNothing(before);
      EnsuredGrows(before, after, arg, update, replace, id, pk);
    } else {
      gone :| && (if gone == {} then Unknown(before, arg) else replace && TakenAlong(before, arg, gone))
              && after.nodeAttrs == (before.nodeAttrs - gone)[id := Stored(arg, pk)]
              && after.edgeAttrs == EdgesWithout(before.edgeAttrs, gone);
    }
  }

  /** If a chain's first node is not in a closed set, none of its ancestors is. */
  lemma {:induction false} ChainSpared(s: Store, arg: NodeArg, chain: seq<NodeId>, strong: set<NodeId>, gone: set<NodeId>)
    requires Ancestry(s, arg, chain) && chain[0] !in gone && Closed(s.edgeAttrs, strong, gone)
    ensures Ancestry(Less(s, gone), arg, chain) && forall i | 0 <= i < |chain| :: chain[i] !in gone
    decreases arg
  {
    if arg.parent.HasParent? {
      var link := (chain[1], chain[0], arg.parent.relation);
      assert Propagates(s.edgeAttrs, strong, link);
      ChainSpared(s, arg.parent.node, chain[1..], strong, gone);
      assert forall i | 0 < i < |chain| :: chain[i] == chain[1..][i - 1];
    }
  }

  /** An insertion touches the nodes of one chain of ancestors and nothing else, but for what a
      replacement takes along, which is none of them, and leaves each hanging from the next. */
  lemma {:induction false} InsertedAncestry(before: Store, after: Store, arg: NodeArg, update: bool, replace: bool, id: NodeId, pk: map<string, Value>)
    returns (chain: seq<NodeId>, gone: set<NodeId>, middle: Store)
    requires Inserted(before, after, arg, true, update, replace, id, pk)
    ensures Ancestry(after, arg, chain) && chain[0] == id
    ensures Grown(Less(before, gone), after, set n | n in chain)
    ensures gone == {} || (replace && id !in middle.nodeAttrs && GoesAlong(middle, arg, gone))
    ensures var above := chain[1..]; Grown(before, middle, set n | n in above) && forall n | n in above :: n !in gone
    decreases arg
  {
    if arg.parent.NoParent? {
      chain, middle := [id], before;
      gone := EnsuredReplaces(before, after, arg, update, replace, id, pk);
      assert (set n | n in chain) == {id};
    } else {
      var parentId: NodeId, parentPk: map<string, Value>;
      middle, parentId, parentPk :|
        && Inserted(before, middle, arg.parent.node, true, true, false, parentId, parentPk)
        && Hung(middle, after, arg, update, replace, parentId, parentPk, id, pk);
      var rest, none, _ := InsertedAncestry(before, middle, arg.parent.node, true, false, parentId, parentPk);
      hide *;
      assert none == {};
      LessNothing(before);
      gone := HungAncestry(before, middle, after, arg, update, replace, parentId, parentPk, id, pk, rest);
      chain := [id] + rest;
      assert chain[1..] == rest;
    }
  }

  lemma HungAncestry(before: Store, middle: Store, after: Store, arg: NodeArg, update: bool, replace: bool, parentId: NodeId,
                     parentPk: map<string, Value>, id: NodeId, pk: map<string, Value>, rest: seq<NodeId>)
    returns (gone: set<NodeId>)
    requires arg.parent.HasParent? && Hung(middle, after, arg, update, replace, parentId, parentPk, id, pk)
    requires Ancestry(middle, arg.parent.node, rest) && rest != [] && rest[0] == parentId
    requires Grown(before, middle, set n | n in rest)
    ensures var chain := [id] + rest; Ancestry(after, arg, chain) && Grown(Less(before, gone), after, set n | n in chain)
    ensures gone == {} || (replace && id !in middle.nodeAttrs && GoesAlong(middle, arg, gone))
    ensures forall n | n in rest :: n !in gone
  {
    var link := (parentId, id, arg.parent.relation);
    var plain := Unhung(middle, after, link);
    var attached := Attached(arg, parentId, parentPk);
    assert parentId in middle.nodeAttrs && parentId in after.nodeAttrs && plain.nodeAttrs == after.nodeAttrs;
    assert after.nodeCounter == plain.nodeCounter && after.edgeAttrs == plain.edgeAttrs[link := PROPAGATE];
    hide Ensured, Denotes, Unhung, Grown, Closure, Hung, Ancestry;
    gone := EnsuredReplaces(middle, plain, attached, update, replace, id, pk);
    RestSpared(middle, attached, arg.parent.node, rest, gone, id, plain);
    AttachedReplaces(middle, arg, parentId, parentPk, gone);
    GrownLess(before, middle, (set n | n in rest), gone);
    LinkAncestry(Less(before, gone), Less(middle, gone), plain, after, arg, id, rest);
  }

  lemma AttachedReplaces(middle: Store, arg: NodeArg, parentId: NodeId, parentPk: map<string, Value>, gone: set<NodeId>)
    requires arg.parent.HasParent? && (gone == {} || TakenAlong(middle, Attached(arg, parentId, parentPk), gone))
    ensures gone == {} || GoesAlong(middle, arg, gone)
  {
    hide Closure, Named;
  }

  lemma RestSpared(middle: Store, attached: NodeArg, parent: NodeArg, rest: seq<NodeId>, gone: set<NodeId>, id: NodeId, plain: Store)
    requires Ancestry(middle, parent, rest) && rest != [] && (gone == {} || TakenAlong(middle, attached, gone)) && (gone != {} ==> id !in middle.nodeAttrs)
    requires rest[0] in middle.nodeAttrs && rest[0] in plain.nodeAttrs
    requires id !in middle.nodeAttrs ==> plain.nodeAttrs.Keys == (middle.nodeAttrs.Keys - gone) + {id}
    ensures Ancestry(Less(middle, gone), parent, rest) && forall n | n in rest :: n !in gone
  {
    if gone == {} {
      LessNothing(middle);
    } else {
      var n :| n in middle.nodeAttrs && Denotes(attached, n, middle.nodeAttrs[n]) && gone == Along(middle, attached, n);
      var strong := if attached.propagate then {n} else {};
      ClosureIsClosed(middle.edgeAttrs, strong, n);
      hide Closed, Closure, Ancestry;
      ChainSpared(middle, parent, rest, strong, gone);
    }
  }

  lemma LinkAncestry(before: Store, middle: Store, plain: Store, after: Store, arg: NodeArg, id: NodeId, rest: seq<NodeId>)
    requires arg.parent.HasParent? && Ancestry(middle, arg.parent.node, rest) && rest != []
    requires Grown(before, middle, set n | n in rest) && Grown(middle, plain, {id}) && id in plain.nodeAttrs
    requires after.nodeAttrs == plain.nodeAttrs && after.nodeCounter == plain.nodeCounter
    requires after.edgeAttrs == plain.edgeAttrs[(rest[0], id, arg.parent.relation) := PROPAGATE]
    ensures var chain := [id] + rest; Ancestry(after, arg, chain) && Grown(before, after, set n | n in chain)
  {
    var above := set n | n in rest;
    var chain := [id] + rest;
    var all := set n | n in chain;
    assert all == above + {id} && rest[0] in above && chain[1..] == rest;
    hide Grown, Ancestry;
    LinkGrown(before, middle, plain, after, above, id, (rest[0], id, arg.parent.relation));
    AncestryGrows(middle, after, arg.parent.node, rest, all);
    AncestryMore(after, arg, id, rest);
  }

  lemma LinkGrown(before: Store, middle: Store, plain: Store, after: Store, above: set<NodeId>, id: NodeId, link: EdgeKey)
    requires Grown(before, middle, above) && Grown(middle, plain, {id}) && link.0 in above && link.1 == id
    requires after.nodeAttrs == plain.nodeAttrs && after.nodeCounter == plain.nodeCounter
    requires after.edgeAttrs == plain.edgeAttrs[link := PROPAGATE]
    ensures Grown(before, after, above + {id}) && Grown(middle, after, above + {id})
  {
    hide Grown;
    GrownTwice(before, middle, plain, above, {id});
    GrownLink(before, plain, after, above + {id}, link);
    GrownMore(middle, plain, {id}, above + {id});
    GrownLink(middle, plain, after, above + {id}, link);
  }

  lemma AncestryMore(s: Store, arg: NodeArg, id: NodeId, rest: seq<NodeId>)
    requires arg.parent.HasParent? && Ancestry(s, arg.parent.node, rest) && rest != [] && id in s.nodeAttrs
    requires var link := (rest[0], id, arg.parent.relation); link in s.edgeAttrs && s.edgeAttrs[link] == PROPAGATE
    ensures Ancestry(s, arg, [id] + rest)
  {
    assert ([id] + rest)[1..] == rest;
  }

  // --- When a weak node can be replaced ------------------------------------

  /** The ancestors go by other labels than `name`, and by key; the nodes they are taken for are not
      in `gone`. */
  ghost predicate Apart(s: Store, ancestor: NodeArg, name: string, gone: set<NodeId>)
    decreases ancestor
  {
    && ancestor.neo4jId.None? && ancestor.mainLabel != name && "main_label" !in Merged(ancestor)
    && (forall m | m in s.nodeAttrs && Denotes(ancestor, m, s.nodeAttrs[m]) :: m !in gone)
    && (ancestor.parent.HasParent? ==> Apart(s, ancestor.parent.node, name, gone))
  }

  lemma NamedLabel(attrs: Attrs, name: string, pk: map<string, Value>)
    requires Named(attrs, name, pk)
    ensures LabelText(attrs) == name
  {
  }

  lemma LabelStored(arg: NodeArg, pk: map<string, Value>)
    requires "main_label" !in pk && "main_label" !in arg.attributes
    ensures LabelText(Stored(arg, pk)) == arg.mainLabel
  {
  }

  /** What inserting ancestors touches: nothing in `gone`, and nothing that goes by the label `name`. */
  ghost predicate TouchedApart(before: Store, after: Store, touched: set<NodeId>, name: string, gone: set<NodeId>) {
    && Grown(before, after, touched)
    && forall m | m in touched :: m in after.nodeAttrs && LabelText(after.nodeAttrs[m]) != name && (m in before.nodeAttrs ==> m !in gone)
  }

  lemma EnsuredLabel(before: Store, after: Store, arg: NodeArg, id: NodeId, pk: map<string, Value>)
    requires Ensured(before, after, arg, true, false, id, pk) && arg.neo4jId.None? && "main_label" !in Merged(arg)
    ensures id in after.nodeAttrs && LabelText(after.nodeAttrs[id]) == arg.mainLabel
    ensures id in before.nodeAttrs ==> Denotes(arg, id, before.nodeAttrs[id])
  {
    if id in before.nodeAttrs {
      assert Denotes(arg, id, before.nodeAttrs[id]);
      NamedLabel(before.nodeAttrs[id], arg.mainLabel, arg.pk.value);
    } else {
      LabelStored(arg, pk);
    }
    hide Named, BackendAssigned, Closure;
  }

  lemma {:induction false} AncestorsTouched(before: Store, after: Store, ancestor: NodeArg, id: NodeId, pk: map<string, Value>,
                                            name: string, gone: set<NodeId>)
    returns (touched: set<NodeId>)
    requires Inserted(before, after, ancestor, true, true, false, id, pk) && Apart(before, ancestor, name, gone)
    ensures TouchedApart(before, after, touched, name, gone) && id in touched
    decreases ancestor
  {
    hide Ensured, Denotes, Merged, Hung, Grown;
    if ancestor.parent.NoParent? {
      EnsuredGrows(before, after, ancestor, true, false, id, pk);
      EnsuredLabel(before, after, ancestor, id, pk);
      touched := {id};
    } else {
      var middle: Store, parentId: NodeId, parentPk: map<string, Value> :|
        && Inserted(before, middle, ancestor.parent.node, true, true, false, parentId, parentPk)
        && Hung(middle, after, ancestor, true, false, parentId, parentPk, id, pk);
      var above := AncestorsTouched(before, middle, ancestor.parent.node, parentId, parentPk, name, gone);
      touched := above + {id};
      HungTouched(before, middle, after, ancestor, parentId, parentPk, id, pk, name, gone, above);
    }
  }

  lemma HungTouched(before: Store, middle: Store, after: Store, ancestor: NodeArg, parentId: NodeId, parentPk: map<string, Value>,
                    id: NodeId, pk: map<string, Value>, name: string, gone: set<NodeId>, above: set<NodeId>)
    requires ancestor.parent.HasParent? && Hung(middle, after, ancestor, true, false, parentId, parentPk, id, pk)
    requires TouchedApart(before, middle, above, name, gone) && parentId in above && Apart(before, ancestor, name, gone)
    ensures TouchedApart(before, after, above + {id}, name, gone)
  {
    var link := (parentId, id, ancestor.parent.relation);
    var plain, attached := Unhung(middle, after, link), Attached(ancestor, parentId, parentPk);
    var touched := above + {id};
    assert Apart(before, ancestor, name, gone) ==> ancestor.mainLabel != name && "main_label" !in Merged(ancestor);
    assert after.nodeAttrs == plain.nodeAttrs && after.nodeCounter == plain.nodeCounter;
    hide Ensured, Denotes, Unhung, Grown, Merged, LabelText;
    EnsuredGrows(middle, plain, attached, true, false, id, pk);
    MergedAlike(ancestor, attached);
    EnsuredLabel(middle, plain, attached, id, pk);
    LinkGrown(before, middle, plain, after, above, id, link);
    GrownApart(before, middle, after, plain, above, id);
    if id in middle.nodeAttrs { DenotesAlike(ancestor, attached, id, middle.nodeAttrs[id]); }
    hide Hung, Attached, TouchedApart;
    TouchedMore(before, middle, after, above, id, name, gone);
  }

  lemma TouchedMore(before: Store, middle: Store, after: Store, above: set<NodeId>, id: NodeId, name: string, gone: set<NodeId>)
    requires TouchedApart(before, middle, above, name, gone) && Grown(before, after, above + {id})
    requires id in after.nodeAttrs && LabelText(after.nodeAttrs[id]) != name && (id in before.nodeAttrs && id !in above ==> id !in gone)
    requires forall m | m in middle.nodeAttrs && m != id :: m in after.nodeAttrs && after.nodeAttrs[m] == middle.nodeAttrs[m]
    ensures TouchedApart(before, after, above + {id}, name, gone)
  {
    hide Grown, LabelText;
  }

  /** Outside what was touched, attributes are as they were. */
  lemma GrownApart(before: Store, middle: Store, after: Store, plain: Store, above: set<NodeId>, id: NodeId)
    requires Grown(before, middle, above) && Grown(middle, plain, {id}) && after.nodeAttrs == plain.nodeAttrs
    ensures id in before.nodeAttrs && id !in above ==> id in middle.nodeAttrs && middle.nodeAttrs[id] == before.nodeAttrs[id]
    ensures forall m | m in middle.nodeAttrs && m != id :: m in after.nodeAttrs && after.nodeAttrs[m] == middle.nodeAttrs[m]
  {
  }

  lemma MergedAlike(a: NodeArg, b: NodeArg)
    requires a.pk == b.pk && a.attributes == b.attributes
    ensures Merged(a) == Merged(b)
  {
  }

  lemma DenotesAlike(a: NodeArg, b: NodeArg, id: NodeId, attrs: Attrs)
    requires a.pk == b.pk && a.neo4jId == b.neo4jId && a.mainLabel == b.mainLabel
    ensures Denotes(a, id, attrs) == Denotes(b, id, attrs)
  {
  }

  /** Relations added away from a closure leave it alone. */
  lemma ClosureGrown(before: Store, after: Store, touched: set<NodeId>, strong: set<NodeId>, root: NodeId)
    requires Grown(before, after, touched) && Closure(before.edgeAttrs, strong, root) !! touched
    ensures Closure(after.edgeAttrs, strong, root) == Closure(before.edgeAttrs, strong, root)
    ensures Hierarchy(before.edgeAttrs, strong, root) ==> Hierarchy(after.edgeAttrs, strong, root)
  {
    var c, d := Closure(before.edgeAttrs, strong, root), Closure(after.edgeAttrs, strong, root);
    ClosureIsClosed(before.edgeAttrs, strong, root);
    ClosureIsClosed(after.edgeAttrs, strong, root);
    hide Closure;
    assert Closed(after.edgeAttrs, strong, c);
    ClosureIsLeast(after.edgeAttrs, strong, root, c);
    forall e | e in before.edgeAttrs && e.0 in c
      ensures e in after.edgeAttrs && after.edgeAttrs[e] == before.edgeAttrs[e] { }
    assert Closed(before.edgeAttrs, strong, d);
    ClosureIsLeast(before.edgeAttrs, strong, root, d);
  }

  lemma ClosureIsStored(s: Store, strong: set<NodeId>, root: NodeId)
    requires Consistent(s) && root in s.nodeAttrs
    ensures Closure(s.edgeAttrs, strong, root) <= s.nodeAttrs.Keys
  {
    assert forall e | e in s.edgeAttrs :: e.1 in s.nodeAttrs;
  }

  /** The replaced node's closure, as the ancestors' insertion leaves it. */
  lemma StillReplaceable(before: Store, middle: Store, arg: NodeArg, touched: set<NodeId>, n: NodeId, gone: set<NodeId>)
    requires Consistent(before) && TouchedApart(before, middle, touched, arg.mainLabel, gone) && arg.neo4jId.None?
    requires n in middle.nodeAttrs && Denotes(arg, n, middle.nodeAttrs[n])
    requires n in before.nodeAttrs ==> gone == Along(before, arg, n)
    ensures n in before.nodeAttrs && Denotes(arg, n, before.nodeAttrs[n])
    ensures Along(middle, arg, n) == gone && forall m | m in touched :: m !in gone
    ensures var strong := if arg.propagate then {n} else {};
            Hierarchy(before.edgeAttrs, strong, n) ==> Hierarchy(middle.edgeAttrs, strong, n)
  {
    var strong := if arg.propagate then {n} else {};
    NamedLabel(middle.nodeAttrs[n], arg.mainLabel, arg.pk.value);
    hide Hierarchy, Closure, Named, LabelText;
    ClosureIsStored(before, strong, n);
    ClosureGrown(before, middle, touched, strong, n);
  }

  /** A weak node can be replaced if what it replaces is the root of a hierarchy, and its ancestors,
      which go by other labels, are not in it. */
  lemma ReplaceableWeakNode(before: Store, arg: NodeArg, insertParent: bool)
    requires Consistent(before) && arg.parent.HasParent? && arg.neo4jId.None?
    requires forall n | n in before.nodeAttrs && Denotes(arg, n, before.nodeAttrs[n]) ::
               Hierarchy(before.edgeAttrs, if arg.propagate then {n} else {}, n)
    requires Apart(before, arg.parent.node, arg.mainLabel, {})
    requires forall n | n in before.nodeAttrs && Denotes(arg, n, before.nodeAttrs[n]) ::
               Apart(before, arg.parent.node, arg.mainLabel, Along(before, arg, n))
    ensures ReplaceSafe(before, arg, insertParent)
  {
    hide Consistent, Inserted, Hierarchy, BackendAssigned, Along, Closure;
    forall middle: Store, parentId: NodeId, parentPk: map<string, Value> |
        (if insertParent then Inserted(before, middle, arg.parent.node, true, true, false, parentId, parentPk)
         else ParentFound(before, middle, arg, parentId, parentPk))
      ensures Replaceable(middle, Attached(arg, parentId, parentPk)) && Spared(middle, Attached(arg, parentId, parentPk), parentId)
    {
      var attached := Attached(arg, parentId, parentPk);
      forall n | n in middle.nodeAttrs && Denotes(attached, n, middle.nodeAttrs[n])
        ensures Hierarchy(middle.edgeAttrs, if attached.propagate then {n} else {}, n) && parentId !in Along(middle, attached, n)
      {
        ReplaceableNode(before, middle, arg, insertParent, parentId, parentPk, n);
      }
    }
  }

  lemma ReplaceableNode(before: Store, middle: Store, arg: NodeArg, insertParent: bool, parentId: NodeId, parentPk: map<string, Value>, n: NodeId)
    requires Consistent(before) && arg.parent.HasParent? && arg.neo4jId.None?
    requires forall n | n in before.nodeAttrs && Denotes(arg, n, before.nodeAttrs[n]) ::
               Hierarchy(before.edgeAttrs, if arg.propagate then {n} else {}, n)
    requires Apart(before, arg.parent.node, arg.mainLabel, {})
    requires forall n | n in before.nodeAttrs && Denotes(arg, n, before.nodeAttrs[n]) ::
               Apart(before, arg.parent.node, arg.mainLabel, Along(before, arg, n))
    requires if insertParent then Inserted(before, middle, arg.parent.node, true, true, false, parentId, parentPk)
             else ParentFound(before, middle, arg, parentId, parentPk)
    requires n in middle.nodeAttrs && Denotes(Attached(arg, parentId, parentPk), n, middle.nodeAttrs[n])
    ensures Hierarchy(middle.edgeAttrs, if arg.propagate then {n} else {}, n)
    ensures parentId !in Along(middle, Attached(arg, parentId, parentPk), n)
  {
    hide Consistent, Hierarchy, Closure, Denotes, Merged;
    DenotesAlike(arg, Attached(arg, parentId, parentPk), n, middle.nodeAttrs[n]);
    if insertParent {
      if n in before.nodeAttrs && Denotes(arg, n, before.nodeAttrs[n]) {
        var gone := Along(before, arg, n);
        var touched := AncestorsTouched(before, middle, arg.parent.node, parentId, parentPk, arg.mainLabel, gone);
        hide Inserted, Apart;
        StillReplaceable(before, middle, arg, touched, n, gone);
      } else {
        var touched := AncestorsTouched(before, middle, arg.parent.node, parentId, parentPk, arg.mainLabel, {});
        hide Inserted, Apart;
        NotTouched(before, middle, arg, touched, n);
      }
    }
  }

  lemma NotTouched(before: Store, middle: Store, arg: NodeArg, touched: set<NodeId>, n: NodeId)
    requires TouchedApart(before, middle, touched, arg.mainLabel, {}) && arg.neo4jId.None?
    requires n in middle.nodeAttrs && Denotes(arg, n, middle.nodeAttrs[n])
    ensures n in before.nodeAttrs && Denotes(arg, n, before.nodeAttrs[n])
  {
    NamedLabel(middle.nodeAttrs[n], arg.mainLabel, arg.pk.value);
    hide Named, LabelText;
  }
}
