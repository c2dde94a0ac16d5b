/** What the words of the in-memory store come to, in plainer ones (cvcdocdb/networkx_graph.py): which
    nodes a propagating delete takes, which node an argument finds, what a weak node's key has in it, and
    what initialisation leaves. */
module StoreReading {
  import opened Common
  import opened Decimals
  import opened Values
  import opened StoreIndexes
  import opened Propagation
  import opened PropagationFlags
  import opened StoreArguments
  import opened NetworkXGraph
  import Group = GroupCreation

  // --- Below a node --------------------------------------------------------

  predicate LinkedTo(edges: Edges, a: NodeId, b: NodeId) {
    exists e :: e in edges && e.0 == a && e.1 == b && Get(edges[e], "_propagate") == Bool(true)
  }

  /** A path along relations whose flag is true. */
  predicate FlagPath(edges: Edges, path: seq<NodeId>) {
    path != [] && forall i | 0 <= i < |path| - 1 :: LinkedTo(edges, path[i], path[i + 1])
  }

  ghost predicate Below(edges: Edges, x: NodeId, y: NodeId) {
    exists path: seq<NodeId> :: FlagPath(edges, path) && path[0] == x && path[|path| - 1] == y
  }

  lemma {:induction false} PathInClosure(edges: Edges, path: seq<NodeId>)
    requires FlagPath(edges, path)
    ensures path[|path| - 1] in Closure(Flagged(edges), {}, path[0])
  {
    var flagged, n := Flagged(edges), |path| - 1;
    ClosureIsClosed(flagged, {}, path[0]);
    if n > 0 {
      var shorter := path[..n];
      forall i | 0 <= i < n - 1 ensures LinkedTo(edges, shorter[i], shorter[i + 1]) { assert LinkedTo(edges, path[i], path[i + 1]); }
      PathInClosure(edges, shorter);
      assert LinkedTo(edges, path[n - 1], path[n - 1 + 1]);
      var e :| e in edges && e.0 == path[n - 1] && e.1 == path[n] && Get(edges[e], "_propagate") == Bool(true);
      hide Closure;
      assert Propagates(flagged, {}, e);
    }
  }

  lemma BelowMore(edges: Edges, x: NodeId, y: NodeId, e: EdgeKey)
    requires Below(edges, x, y) && e in edges && e.0 == y && Get(edges[e], "_propagate") == Bool(true)
    ensures Below(edges, x, e.1)
  {
    var path: seq<NodeId> :| FlagPath(edges, path) && path[0] == x && path[|path| - 1] == y;
    var longer := path + [e.1];
    assert LinkedTo(edges, y, e.1);
    forall i | 0 <= i < |longer| - 1 ensures LinkedTo(edges, longer[i], longer[i + 1]) {
      if i < |path| - 1 { assert LinkedTo(edges, path[i], path[i + 1]); }
    }
    assert FlagPath(edges, longer) && longer[0] == x && longer[|longer| - 1] == e.1;
  }

  lemma BelowItself(edges: Edges, x: NodeId)
    ensures Below(edges, x, x)
  {
    assert FlagPath(edges, [x]) && [x][0] == x;
  }

  /** The closure of a node is what paths lead to. */
  lemma BelowIsClosure(edges: Edges, x: NodeId, y: NodeId)
    ensures y in Closure(Flagged(edges), {}, x) <==> Below(edges, x, y)
  {
    var flagged := Flagged(edges);
    if Below(edges, x, y) {
      var path: seq<NodeId> :| FlagPath(edges, path) && path[0] == x && path[|path| - 1] == y;
      PathInClosure(edges, path);
    }
    var reached := set z | z in Closure(flagged, {}, x) && Below(edges, x, z);
    BelowItself(edges, x);
    ClosureIsClosed(flagged, {}, x);
    forall e | e in flagged && e.0 in reached && Propagates(flagged, {}, e) ensures e.1 in reached { BelowMore(edges, x, e.0, e); }
    ClosureIsLeast(flagged, {}, x, reached);
  }

  predicate BooleanFlags(edges: Edges) {
    forall e | e in edges :: Get(edges[e], "_propagate").Null? || Get(edges[e], "_propagate").Bool?
  }

  /** What a propagating delete of `n` takes: what is below it, and with the argument's own flag every
      neighbour it has a relation to, whatever the relation's flag, and what is below that. */
  ghost predicate Taken(edges: Edges, own: bool, n: NodeId, y: NodeId) {
    y == n || Below(edges, n, y) || (own && exists e :: e in edges && e.0 == n && Below(edges, e.1, y))
  }

  lemma TakenIsClosure(edges: Edges, own: bool, n: NodeId, y: NodeId)
    requires BooleanFlags(edges)
    ensures y in Closure(edges, if own then {n} else {}, n) <==> Taken(edges, own, n, y)
  {
    var strong := if own then {n} else {};
    ClosureIsClosed(edges, strong, n);
    if Taken(edges, own, n, y) {
      if y != n && Below(edges, n, y) {
        BelowWithin(edges, strong, n, n, y);
      } else if y != n {
        var e :| e in edges && e.0 == n && Below(edges, e.1, y);
        assert Propagates(edges, strong, e);
        BelowWithin(edges, strong, n, e.1, y);
      }
    }
    var taken := set z | z in Closure(edges, strong, n) && Taken(edges, own, n, z);
    forall e | e in edges && e.0 in taken && Propagates(edges, strong, e) ensures e.1 in taken { TakenMore(edges, own, n, e); }
    ClosureIsLeast(edges, strong, n, taken);
  }

  lemma TakenMore(edges: Edges, own: bool, n: NodeId, e: EdgeKey)
    requires BooleanFlags(edges) && Taken(edges, own, n, e.0) && Propagates(edges, if own then {n} else {}, e)
    ensures Taken(edges, own, n, e.1)
  {
    BelowItself(edges, e.1);
    BelowItself(edges, n);
    if !(own && e.0 == n) {
      assert Get(edges[e], "_propagate") == Bool(true);
      if Below(edges, n, e.0) {
        BelowMore(edges, n, e.0, e);
      } else {
        var f :| f in edges && f.0 == n && Below(edges, f.1, e.0);
        BelowMore(edges, f.1, e.0, e);
      }
    }
  }

  lemma BelowWithin(edges: Edges, strong: set<NodeId>, n: NodeId, x: NodeId, y: NodeId)
    requires x in Closure(edges, strong, n) && Below(edges, x, y)
    ensures y in Closure(edges, strong, n)
  {
    BelowIsClosure(edges, x, y);
    ClosureIsClosed(edges, strong, n);
    var flagged := Flagged(edges);
    forall e | e in flagged && e.0 in Closure(edges, strong, n) && Propagates(flagged, {}, e) ensures e.1 in Closure(edges, strong, n) {
      assert Propagates(edges, strong, e);
    }
    ClosureIsLeast(flagged, {}, x, Closure(edges, strong, n));
  }

  /** A propagating delete with boolean flags: the nodes that are gone, and the relations. */
  lemma DeleteTakes(before: Store, after: Store, n: NodeId, own: bool, detach: bool, onDelete: OnDelete, r: Result<bool, StoreError>)
    requires DeleteOutcome(before, after, n, own, true, detach, onDelete, r) && r.Ok? && BooleanFlags(before.edgeAttrs)
    ensures forall y :: y in after.nodeAttrs <==> y in before.nodeAttrs && !Taken(before.edgeAttrs, own, n, y)
    ensures forall y | y in after.nodeAttrs :: after.nodeAttrs[y] == before.nodeAttrs[y]
    ensures forall e :: e in after.edgeAttrs <==>
              e in before.edgeAttrs && !Taken(before.edgeAttrs, own, n, e.0) && !Taken(before.edgeAttrs, own, n, e.1)
    ensures forall e | e in after.edgeAttrs :: after.edgeAttrs[e] == before.edgeAttrs[e]
  {
    var closure := Closure(before.edgeAttrs, if own then {n} else {}, n);
    ClosureIsClosed(before.edgeAttrs, if own then {n} else {}, n);
    assert closure - {n} + {n} == closure;
    assert after.nodeAttrs == before.nodeAttrs - closure && after.edgeAttrs == EdgesWithout(before.edgeAttrs, closure);
    hide Closure, Taken, DeleteOutcome;
    forall y ensures y in closure <==> Taken(before.edgeAttrs, own, n, y) { TakenIsClosure(before.edgeAttrs, own, n, y); }
  }

  /** Without propagation the node alone goes, and its relations. */
  lemma PlainDeleteTakes(before: Store, after: Store, n: NodeId, own: bool, detach: bool, onDelete: OnDelete, r: Result<bool, StoreError>)
    requires DeleteOutcome(before, after, n, own, false, detach, onDelete, r) && r.Ok?
    ensures after.nodeAttrs == before.nodeAttrs - {n}
    ensures after.edgeAttrs == map e | e in before.edgeAttrs && e.0 != n && e.1 != n :: before.edgeAttrs[e]
  {
    assert {} + {n} == {n};
  }

  /** A delete is refused exactly when it may not cut relations and the node has one to a node that stays. */
  lemma DeleteIsRefused(before: Store, after: Store, n: NodeId, own: bool, propagation: bool, detach: bool, onDelete: OnDelete,
                        r: Result<bool, StoreError>)
    requires DeleteOutcome(before, after, n, own, propagation, detach, onDelete, r) && BooleanFlags(before.edgeAttrs)
    ensures r.Err? <==> !onDelete.SetNull? && !detach && exists e :: e in before.edgeAttrs && CutOff(before.edgeAttrs, own, propagation, n, e)
    ensures r.Err? ==> r == Err(HasRelations(n)) && after == before
  {
    var closure := Closure(before.edgeAttrs, if own then {n} else {}, n);
    var below := if propagation then closure - {n} else {};
    hide Closure, Taken, Deleted;
    forall y ensures y in closure <==> Taken(before.edgeAttrs, own, n, y) { TakenIsClosure(before.edgeAttrs, own, n, y); }
    assert forall e :: e in Incident(n, EdgesWithout(before.edgeAttrs, below).Keys) <==>
                       e in before.edgeAttrs && CutOff(before.edgeAttrs, own, propagation, n, e);
  }

  /** A relation at the node whose other end is not taken along. */
  ghost predicate CutOff(edges: Edges, own: bool, propagation: bool, n: NodeId, e: EdgeKey) {
    (e.0 == n || e.1 == n) && forall m | m in {e.0, e.1} && m != n :: !(propagation && Taken(edges, own, n, m))
  }

  /** `get_subdocuments` lists what is below the root, but the root, once each. */
  lemma ListedIsBelow(edges: Edges, root: NodeId, documents: seq<NodeId>)
    requires Listed(documents, Closure(Flagged(edges), {}, root) - {root})
    ensures forall y :: y in documents <==> y != root && Below(edges, root, y)
    ensures forall i, j | 0 <= i < j < |documents| :: documents[i] != documents[j]
  {
    forall y ensures y in documents <==> y != root && Below(edges, root, y) { ListedOne(edges, root, documents, y); }
  }

  lemma ListedOne(edges: Edges, root: NodeId, documents: seq<NodeId>, y: NodeId)
    requires Listed(documents, Closure(Flagged(edges), {}, root) - {root})
    ensures y in documents <==> y != root && Below(edges, root, y)
  {
    hide Closure, Below;
    BelowIsClosure(edges, root, y);
    var ids := set i | 0 <= i < |documents| :: documents[i];
    assert y in ids <==> exists i :: 0 <= i < |documents| && documents[i] == y;
  }

  // --- Which node an argument finds ----------------------------------------

  /** The node has this label, and its own key the same fields with the same texts, or attributes with
      these texts under the names of the key's fields. */
  predicate Recognised(attrs: Attrs, name: string, key: map<string, Value>) {
    || (&& Get(attrs, "pk").Dict? && (if "main_label" in attrs then KeyText(attrs["main_label"]) else "") == name
        && attrs["pk"].entries.Keys == key.Keys && forall k | k in key :: KeyText(attrs["pk"].entries[k]) == KeyText(key[k]))
    || (&& Get(attrs, "main_label") == Str(name)
        && forall k | k in key :: k in attrs && attrs[k] != Null && KeyText(attrs[k]) == KeyText(key[k]))
  }

  lemma NamedIsRecognised(attrs: Attrs, name: string, key: map<string, Value>)
    ensures Named(attrs, name, key) <==> Recognised(attrs, name, key)
  {
    if Get(attrs, "pk").Dict? {
      var own := attrs["pk"].entries;
      var a, b := KeyFor(LabelText(attrs), own), KeyFor(name, key);
      assert a.1.Keys == own.Keys && b.1.Keys == key.Keys;
      if own.Keys == key.Keys && forall k | k in key :: KeyText(own[k]) == KeyText(key[k]) {
        assert a.1 == b.1;
      }
      if a.1 == b.1 {
        forall k | k in key ensures k in own && KeyText(own[k]) == KeyText(key[k]) { assert k in b.1 && a.1[k] == b.1[k]; }
      }
    }
  }

  /** The texts values are compared by: a text is its own, whole numbers have different ones, and a number
      has the text of its digits. */
  lemma TextsOf(s: string, t: string, i: int, j: int)
    ensures KeyText(Str(s)) == s
    ensures KeyText(Int(i)) == KeyText(Int(j)) <==> i == j
    ensures KeyText(Int(i)) == KeyText(Str(s)) <==> ReadInt(s) == Some(i) && ShowInt(i) == s
    ensures KeyText(Bool(true)) == "True" && KeyText(Bool(false)) == "False" && KeyText(Null) == "None"
  {
    ReadShowInt(i);
    ReadShowInt(j);
  }

  /** An argument without an id stands for a node exactly when it recognises it. */
  lemma DenotesIsRecognised(arg: NodeArg, n: NodeId, attrs: Attrs)
    requires arg.neo4jId.None?
    ensures Denotes(arg, n, attrs) <==> arg.pk.Some? && Recognised(attrs, arg.mainLabel, arg.pk.value)
  {
    if arg.pk.Some? { NamedIsRecognised(attrs, arg.mainLabel, arg.pk.value); }
  }

  /** If no stored node is recognised, an insertion adds one and changes nothing else. */
  lemma UnrecognisedIsAdded(before: Store, after: Store, arg: NodeArg, update: bool, replace: bool, id: NodeId, pk: map<string, Value>)
    requires arg.neo4jId.None? && arg.pk.Some? && Ensured(before, after, arg, update, replace, id, pk)
    requires forall n | n in before.nodeAttrs :: !Recognised(before.nodeAttrs[n], arg.mainLabel, arg.pk.value)
    ensures id !in before.nodeAttrs && after.nodeAttrs.Keys == before.nodeAttrs.Keys + {id} && after.edgeAttrs == before.edgeAttrs
    ensures forall n | n in before.nodeAttrs :: after.nodeAttrs[n] == before.nodeAttrs[n]
  {
    forall n | n in before.nodeAttrs ensures !Denotes(arg, n, before.nodeAttrs[n]) { DenotesIsRecognised(arg, n, before.nodeAttrs[n]); }
    hide Denotes, Recognised, BackendAssigned, Stored, Merged, KeyGiven;
    assert forall gone | TakenAlong(before, arg, gone) :: false;
    LessNothing(before);
  }

  /** If one is, and nothing is to be replaced, no node is added: a node that is recognised is merged
      into, its other attributes kept, or the insertion is refused. */
  lemma RecognisedIsFound(before: Store, after: Store, arg: NodeArg, update: bool, id: NodeId, pk: map<string, Value>, n: NodeId)
    requires arg.neo4jId.None? && arg.pk.Some? && !BackendAssigned(arg) && Ensured(before, after, arg, update, false, id, pk)
    requires n in before.nodeAttrs && Recognised(before.nodeAttrs[n], arg.mainLabel, arg.pk.value)
    ensures update && id in before.nodeAttrs && Recognised(before.nodeAttrs[id], arg.mainLabel, arg.pk.value)
    ensures after.nodeAttrs.Keys == before.nodeAttrs.Keys && after.edgeAttrs == before.edgeAttrs
    ensures forall m | m in before.nodeAttrs && m != id :: after.nodeAttrs[m] == before.nodeAttrs[m]
    ensures forall k | k in before.nodeAttrs[id] || k in arg.pk.value || k in arg.attributes ::
              Get(after.nodeAttrs[id], k) == if k in arg.attributes then arg.attributes[k]
                                             else if k in arg.pk.value then arg.pk.value[k] else before.nodeAttrs[id][k]
  {
    DenotesIsRecognised(arg, n, before.nodeAttrs[n]);
    if id in before.nodeAttrs { DenotesIsRecognised(arg, id, before.nodeAttrs[id]); }
    hide Denotes, Recognised, BackendAssigned, Stored, KeyGiven, TakenAlong;
  }

  /** A node made for one argument is not taken for another with the same label whose key has a field of
      a different text. */
  lemma DifferentTextsApart(a: NodeArg, b: NodeArg, n: NodeId, field: string)
    requires a.pk.Some? && b.pk.Some? && a.neo4jId.None? && b.neo4jId.None?
    requires field in a.pk.value && field in b.pk.value && KeyText(a.pk.value[field]) != KeyText(b.pk.value[field])
    requires field !in a.attributes && "pk" !in a.pk.value && "pk" !in a.attributes
    ensures !Denotes(b, n, Stored(a, a.pk.value))
  {
    var attrs := Stored(a, a.pk.value);
    DenotesIsRecognised(b, n, attrs);
    assert attrs["pk"] == Dict(a.pk.value) && attrs[field] == a.pk.value[field];
  }

  /** The attributes of a new node: its key, labels and properties. */
  lemma StoredHas(arg: NodeArg, pk: map<string, Value>)
    ensures forall k | k in arg.attributes :: Get(Stored(arg, pk), k) == arg.attributes[k]
    ensures forall k | k in pk && k !in arg.attributes :: Get(Stored(arg, pk), k) == pk[k]
    ensures "pk" !in pk && "pk" !in arg.attributes ==> Get(Stored(arg, pk), "pk") == Dict(pk)
    ensures "main_label" !in pk && "main_label" !in arg.attributes ==> Get(Stored(arg, pk), "main_label") == Str(arg.mainLabel)
    ensures "labels" !in pk && "labels" !in arg.attributes ==>
              var labels := Get(Stored(arg, pk), "labels");
              labels.List? && |labels.items| == |arg.labels| && forall i | 0 <= i < |arg.labels| :: labels.items[i] == Str(arg.labels[i])
    ensures forall k | k in Stored(arg, pk) :: k in arg.attributes || k in pk || k in {"pk", "main_label", "labels"}
  {
  }

  /** `find_nodes`: the nodes that have all the values, or one of them, as keys of a Python dict compare;
      `pk` is not a value that is looked for, and without values all nodes are found. */
  lemma FoundNodes(attrs: Attrs, filters: map<string, Value>)
    ensures Satisfies(attrs, filters, true) <==> forall k | k in filters :: k != "pk" && k in attrs && SameKey(attrs[k], filters[k])
    ensures filters != map[] ==>
              (Satisfies(attrs, filters, false) <==> exists k :: k in filters && k != "pk" && k in attrs && SameKey(attrs[k], filters[k]))
    ensures Satisfies(attrs, map[], false)
  {
    hide Normal, SameKey;
    forall k | k in filters && k in attrs ensures SameKey(attrs[k], filters[k]) <==> Normal(attrs[k]) == Normal(filters[k]) {
      SameKeyIs(attrs[k], filters[k]);
    }
  }

  /** The same value, but that a boolean is the number 0 or 1, at any depth of containers. */
  predicate SameKey(a: Value, b: Value) {
    match a
    case Bool(x) => b == a || b == Int(if x then 1 else 0)
    case Int(i) => b == a || (b.Bool? && i == if b.b then 1 else 0)
    case List(items) => b.List? && |b.items| == |items| && forall i | 0 <= i < |items| :: SameKey(items[i], b.items[i])
    case Dict(entries) => b.Dict? && b.entries.Keys == entries.Keys && forall k | k in entries :: SameKey(entries[k], b.entries[k])
    case _ => b == a
  }

  lemma {:induction false} SameKeyIs(a: Value, b: Value)
    ensures SameKey(a, b) <==> Normal(a) == Normal(b)
    decreases a
  {
    if a.List? && b.List? && |a.items| == |b.items| {
      var xs, ys := Normal(a).items, Normal(b).items;
      forall i | 0 <= i < |a.items| ensures SameKey(a.items[i], b.items[i]) <==> xs[i] == ys[i] { SameKeyIs(a.items[i], b.items[i]); }
      assert xs == ys <==> forall i | 0 <= i < |a.items| :: xs[i] == ys[i];
    } else if a.List? && b.List? {
      assert |Normal(a).items| != |Normal(b).items|;
    } else if a.Dict? && b.Dict? && a.entries.Keys == b.entries.Keys {
      var m, n := Normal(a).entries, Normal(b).entries;
      forall k | k in a.entries ensures SameKey(a.entries[k], b.entries[k]) <==> m[k] == n[k] { SameKeyIs(a.entries[k], b.entries[k]); }
      assert m == n <==> forall k | k in a.entries :: m[k] == n[k];
    } else if a.Dict? && b.Dict? {
      assert Normal(a).entries.Keys == a.entries.Keys && Normal(b).entries.Keys == b.entries.Keys;
    }
  }

  /** Python's false values; a float is false if it is a zero of either sign. */
  lemma TruthyIs(v: Value)
    ensures Truthy(v) <==> !(v == Null || v == Bool(false) || v == Int(0) || v == Float("0.0") || v == Float("-0.0")
                             || v == Str("") || v == List([]) || v == Dict(map[]))
  {
  }

  // --- A weak node's key ---------------------------------------------------

  /** The key an insertion comes back with: the argument's own, or an assigned id. */
  lemma KeyReturned(before: Store, after: Store, arg: NodeArg, update: bool, replace: bool, id: NodeId, pk: map<string, Value>)
    requires Ensured(before, after, arg, update, replace, id, pk)
    ensures if arg.pk.Some? && !BackendAssigned(arg) then pk == arg.pk.value else pk == map[] || pk == map["id" := Int(id)]
  {
    hide Denotes, Stored, Merged, TakenAlong, Unknown;
  }

  lemma KeyAttached(before: Store, after: Store, arg: NodeArg, update: bool, replace: bool, parentId: NodeId, parentPk: map<string, Value>,
                    id: NodeId, pk: map<string, Value>)
    requires arg.parent.HasParent? && Ensured(before, after, Attached(arg, parentId, parentPk), update, replace, id, pk)
    requires arg.parent.node.pk == Some(parentPk) || parentPk == map[] || parentPk == map["id" := Int(parentId)]
    ensures arg.pk == Some(pk) || pk == map[] || pk == map["id" := Int(id)]
    ensures OwnKey(arg) ==> arg.pk == Some(pk)
  {
    hide Ensured;
    KeyReturned(before, after, Attached(arg, parentId, parentPk), update, replace, id, pk);
  }

  lemma {:induction false} KeyInserted(before: Store, after: Store, arg: NodeArg, update: bool, replace: bool, id: NodeId, pk: map<string, Value>)
    requires Inserted(before, after, arg, true, update, replace, id, pk)
    ensures arg.pk == Some(pk) || pk == map[] || pk == map["id" := Int(id)]
    ensures OwnKey(arg) ==> arg.pk == Some(pk)
    decreases arg
  {
    hide Ensured, ParentKeyOk, Unhung;
    if arg.parent.NoParent? {
      KeyReturned(before, after, arg, update, replace, id, pk);
    } else {
      var middle, parentId, parentPk := TakeParent(before, after, arg, update, replace, id, pk);
      hide Inserted, Attached, OwnKey;
      KeyInserted(before, middle, arg.parent.node, true, false, parentId, parentPk);
      KeyAttached(middle, Unhung(middle, after, (parentId, id, arg.parent.relation)), arg, update, replace, parentId, parentPk, id, pk);
    }
  }

  /** The argument brings a key of its own: fields other than an id, and not just its parent's. */
  predicate OwnKey(arg: NodeArg) {
    arg.pk.Some? && arg.pk.value.Keys != {} && arg.pk.value.Keys != {"id"} && (arg.parent.HasParent? ==> arg.pk != arg.parent.node.pk)
  }

  /** The key is a single id, or has the parent's values in all of the parent's fields. */
  predicate HasParentKey(key: map<string, Value>, parent: map<string, Value>) {
    key.Keys == {"id"} || forall k | k in parent :: if k in key then key[k] == parent[k] else parent[k] == Null
  }

  lemma ReferencesHas(key: map<string, Value>, parent: map<string, Value>)
    ensures ReferencesParent(key, parent) <==> HasParentKey(key, parent)
  {
    if |key| == 1 && "id" in key {
      assert |key.Keys - {"id"}| == 0;
    }
  }

  /** An inserted weak node's key is a single id, or has its parent's key values. */
  lemma WeakHasParentKey(before: Store, after: Store, arg: NodeArg, update: bool, replace: bool, id: NodeId, pk: map<string, Value>)
    requires Inserted(before, after, arg, true, update, replace, id, pk) && arg.parent.HasParent? && OwnKey(arg.parent.node)
    ensures arg.pk.Some? && HasParentKey(arg.pk.value, arg.parent.node.pk.value)
  {
    var middle, parentId, parentPk := TakeParent(before, after, arg, update, replace, id, pk);
    hide Inserted, HasParentKey, ReferencesParent;
    KeyInserted(before, middle, arg.parent.node, true, false, parentId, parentPk);
    ReferencesHas(arg.pk.value, parentPk);
  }

  lemma TakeParent(before: Store, after: Store, arg: NodeArg, update: bool, replace: bool, id: NodeId, pk: map<string, Value>)
    returns (middle: Store, parentId: NodeId, parentPk: map<string, Value>)
    requires Inserted(before, after, arg, true, update, replace, id, pk) && arg.parent.HasParent?
    ensures Inserted(before, middle, arg.parent.node, true, true, false, parentId, parentPk)
    ensures Ensured(middle, Unhung(middle, after, (parentId, id, arg.parent.relation)), Attached(arg, parentId, parentPk), update, replace, id, pk)
    ensures ParentKeyOk(arg, parentPk) && parentId in after.nodeAttrs && (parentId, id, arg.parent.relation) in after.edgeAttrs
    ensures after.edgeAttrs[(parentId, id, arg.parent.relation)] == PROPAGATE
  {
    hide Ensured, ParentKeyOk, Unhung;
    middle, parentId, parentPk :|
      && Inserted(before, middle, arg.parent.node, true, true, false, parentId, parentPk)
      && Hung(middle, after, arg, update, replace, parentId, parentPk, id, pk);
    hide Inserted;
  }

  /** A weak node that comes with just the key its parent came back with gets a node of its own, with an
      id for a key. */
  lemma LeftToTheStore(before: Store, middle: Store, after: Store, arg: NodeArg, update: bool, replace: bool, parentId: NodeId,
                       parentPk: map<string, Value>, id: NodeId, pk: map<string, Value>)
    requires arg.parent.HasParent? && arg.pk == Some(parentPk) && Hung(middle, after, arg, update, replace, parentId, parentPk, id, pk)
    ensures id !in middle.nodeAttrs && id in after.nodeAttrs && pk == map["id" := Int(id)]
  {
    hide Denotes, Stored, Merged, TakenAlong, ReferencesParent, EdgesWithout;
  }

  /** Two nodes of a group go by one key exactly if they have one label and one key. */
  lemma GroupKeys(a: NodeArg, b: NodeArg)
    requires a.pk.Some? && b.pk.Some?
    ensures Group.KeyInGroup(a) == Group.KeyInGroup(b) <==> a.mainLabel == b.mainLabel && a.pk == b.pk
  {
  }

  /** ... and it hangs from its parent by a relation that propagates. */
  lemma WeakHangs(before: Store, after: Store, arg: NodeArg, update: bool, replace: bool, id: NodeId, pk: map<string, Value>)
    requires Inserted(before, after, arg, true, update, replace, id, pk) && arg.parent.HasParent?
    ensures exists parentId: NodeId :: parentId in after.nodeAttrs && (parentId, id, arg.parent.relation) in after.edgeAttrs
              && Get(after.edgeAttrs[(parentId, id, arg.parent.relation)], "_propagate") == Bool(true)
  {
    var middle, parentId, parentPk := TakeParent(before, after, arg, update, replace, id, pk);
    hide Inserted, ParentKeyOk;
  }

  // --- What initialisation leaves ------------------------------------------

  /** A relation that makes its target a weak node: its flag is set, and its source was not processed. */
  predicate MakesWeak(nodes: map<NodeId, Attrs>, edges: Edges, e: EdgeKey) {
    e in edges && e.0 in nodes && Truthy(Get(edges[e], "_propagate")) && !Truthy(Get(nodes[e.0], "_weak_init_done"))
  }

  lemma TakeMarked(nodes: map<NodeId, Attrs>, edges: Edges, n: NodeId, after: Attrs) returns (marked: Attrs)
    requires n in nodes && InitialisedNode(nodes, edges, n, after)
    ensures MarkedNode(nodes, edges, Pending(nodes), edges.Keys, n, marked)
    ensures after == if n in Pending(nodes) then marked + DONE else marked
  {
    hide MarkedNode, Pending;
    marked :| MarkedNode(nodes, edges, Pending(nodes), edges.Keys, n, marked)
              && after == if n in Pending(nodes) then marked + DONE else marked;
  }

  lemma TakeLink(nodes: map<NodeId, Attrs>, edges: Edges, n: NodeId, marked: Attrs) returns (f: EdgeKey)
    requires n in nodes && MarkedNode(nodes, edges, Pending(nodes), edges.Keys, n, marked)
    requires WeakLinks(edges, Pending(nodes), edges.Keys, n) != {}
    ensures MakesWeak(nodes, edges, f) && f.1 == n && marked == Updated(nodes[n], WeakFlags(f.2), {"parent_relation"})
  {
    hide Updated, Truthy;
    f :| f in WeakLinks(edges, Pending(nodes), edges.Keys, n) && marked == Updated(nodes[n], WeakFlags(f.2), {"parent_relation"});
  }

  /** What the flags of a weak node do to its attributes. */
  lemma FlagsSet(attrs: Attrs, relation: string)
    ensures var after := Updated(attrs, WeakFlags(relation), {"parent_relation"});
            && Get(after, "is_weak") == Bool(true) && Get(after, "_propagate") == Bool(true)
            && Get(after, "parent_relation") == (if "parent_relation" in attrs then attrs["parent_relation"] else Str(relation))
            && forall k | k !in {"is_weak", "_propagate", "parent_relation"} ::
                 (k in after <==> k in attrs) && Get(after, k) == Get(attrs, k)
  {
  }

  lemma DoneSet(attrs: Attrs)
    ensures forall k | k != "_weak_init_done" :: (k in attrs + DONE <==> k in attrs) && Get(attrs + DONE, k) == Get(attrs, k)
  {
  }

  lemma FlagsStay(attrs: Attrs, relation: string, after: Attrs)
    requires var marked := Updated(attrs, WeakFlags(relation), {"parent_relation"}); after == marked || after == marked + DONE
    ensures Get(after, "is_weak") == Bool(true) && Get(after, "_propagate") == Bool(true)
    ensures Get(after, "parent_relation") == if "parent_relation" in attrs then attrs["parent_relation"] else Str(relation)
  {
    hide Updated, WeakFlags;
    FlagsSet(attrs, relation);
    DoneSet(Updated(attrs, WeakFlags(relation), {"parent_relation"}));
  }

  /** A child of a pending node ends up weak and propagating, and knows a relation it hangs by; the
      relations that reach it without a flag propagate from then on. */
  lemma ChildBecomesWeak(nodes: map<NodeId, Attrs>, edges: Edges, nodes': map<NodeId, Attrs>, edges': Edges, e: EdgeKey)
    requires Initialised(nodes, edges, nodes', edges') && MakesWeak(nodes, edges, e) && e.1 in nodes
    ensures Get(nodes'[e.1], "is_weak") == Bool(true) && Get(nodes'[e.1], "_propagate") == Bool(true)
    ensures if "parent_relation" in nodes[e.1] then Get(nodes'[e.1], "parent_relation") == nodes[e.1]["parent_relation"]
            else exists f :: MakesWeak(nodes, edges, f) && f.1 == e.1 && Get(nodes'[e.1], "parent_relation") == Str(f.2)
  {
    var n := e.1;
    assert e in WeakLinks(edges, Pending(nodes), edges.Keys, n);
    hide InitialisedNode, MarkedNode;
    assert InitialisedNode(nodes, edges, n, nodes'[n]);
    hide Initialised, MakesWeak, Updated, WeakFlags, Get, Truthy;
    var marked := TakeMarked(nodes, edges, n, nodes'[n]);
    var f := TakeLink(nodes, edges, n, marked);
    hide WeakLinks, Pending;
    FlagsStay(nodes[n], f.2, nodes'[n]);
  }

  lemma RelationsPropagate(nodes: map<NodeId, Attrs>, edges: Edges, nodes': map<NodeId, Attrs>, edges': Edges, e: EdgeKey, f: EdgeKey)
    requires Initialised(nodes, edges, nodes', edges') && MakesWeak(nodes, edges, e) && e.1 in nodes
    requires f in edges && f.1 == e.1 && Get(edges[f], "_propagate") == Null
    ensures Get(edges'[f], "_propagate") == Bool(true)
  {
    ChildBecomesWeak(nodes, edges, nodes', edges', e);
    hide InitialisedNode, MakesWeak;
  }

  /** Every other attribute stays, and every node is processed. */
  lemma InitialisedOtherwise(nodes: map<NodeId, Attrs>, edges: Edges, nodes': map<NodeId, Attrs>, edges': Edges, n: NodeId)
    requires Initialised(nodes, edges, nodes', edges') && n in nodes
    ensures Truthy(Get(nodes'[n], "_weak_init_done"))
    ensures forall k | k !in {"is_weak", "_propagate", "parent_relation", "_weak_init_done"} ::
              (k in nodes'[n] <==> k in nodes[n]) && Get(nodes'[n], k) == Get(nodes[n], k)
    ensures (forall e :: MakesWeak(nodes, edges, e) ==> e.1 != n) ==>
              forall k | k != "_weak_init_done" :: Get(nodes'[n], k) == Get(nodes[n], k)
  {
    hide InitialisedNode, Truthy, MakesWeak;
    assert InitialisedNode(nodes, edges, n, nodes'[n]);
    InitialisedIsDone(nodes, edges, n, nodes'[n]);
    var marked := TakeMarked(nodes, edges, n, nodes'[n]);
    DoneSet(marked);
    if WeakLinks(edges, Pending(nodes), edges.Keys, n) != {} {
      var f := TakeLink(nodes, edges, n, marked);
      hide MarkedNode, Updated, WeakLinks, Pending;
      FlagsSet(nodes[n], f.2);
    }
  }

  /** Relations keep their attributes, but for the flag of those that lead to a weak node and had none. */
  lemma RelationsInitialised(nodes: map<NodeId, Attrs>, edges: Edges, nodes': map<NodeId, Attrs>, edges': Edges)
    requires Initialised(nodes, edges, nodes', edges')
    ensures edges'.Keys == edges.Keys
    ensures forall e, k | e in edges && k != "_propagate" :: Get(edges'[e], k) == Get(edges[e], k)
    ensures forall e | e in edges :: Get(edges'[e], "_propagate") ==
              if e.1 in nodes' && Get(nodes'[e.1], "is_weak") == Bool(true) && Get(edges[e], "_propagate") == Null then Bool(true)
              else Get(edges[e], "_propagate")
  {
    hide InitialisedNode;
  }

  /** What `create_group` marks: a member is weak, propagates, names the relation it hangs by, and hangs
      by it from its own parent's node; the strong node is processed. */
  lemma MembersAreMarked(before: Store, after: Store, objects: Group.Objects, strong: nat, weak: seq<nat>, relations: seq<Group.RelationArg>,
                         made: Group.Objects, w: nat)
    requires Group.Created(before, after, objects, strong, weak, relations, made) && w in weak
    ensures w < |made| && made[w].above.Some? && made[w].above.value < |made|
    ensures var n, parent := Group.IdOf(made, w), Group.IdOf(made, made[w].above.value);
            var link := (parent, n, made[w].relation);
            && n in after.nodeAttrs && Get(after.nodeAttrs[n], "is_weak") == Bool(true) && Get(after.nodeAttrs[n], "_propagate") == Bool(true)
            && Get(after.nodeAttrs[n], "parent_relation") == Str(made[w].relation)
            && link in after.edgeAttrs && Get(after.edgeAttrs[link], "_propagate") == Bool(true)
            && Get(after.edgeAttrs[link], "parent_relation") == Str(made[w].relation)
    ensures strong < |made| && Group.IdOf(made, strong) in after.nodeAttrs
    ensures Get(after.nodeAttrs[Group.IdOf(made, strong)], "_weak_init_done") == Bool(true)
  {
    hide Group.Kept, Group.NewNodes, Group.Related, Stored;
    assert Group.InItsPlace(after, made, w);
  }
}
