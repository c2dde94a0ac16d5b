/** Copying a graph from one in-memory store to another (cvcdocdb/migration.py, `migrate`, phases 1 and
    2, and `_split_node_attrs`). */
module Migration {
  import opened Common
  import opened Values
  import opened StoreIndexes
  import opened PropagationFlags
  import opened StoreArguments
  import opened NetworkXGraph

  // --- Splitting a node's attributes ---------------------------------------

  const STRUCTURAL := {"is_weak", "parent_relation", "parent", "dependencies", "version", "neo4j_id", "alternative_labels"}

  /** `_is_raw_property`: what a `Node` object cannot carry. */
  predicate IsRaw(key: string) {
    (key != "" && key[0] == '_') || key in STRUCTURAL
  }

  datatype Split = Split(mainLabel: string, pk: map<string, Value>, props: Attrs, raw: Attrs)

  function TextOf(v: Value): string {
    if v.Str? then v.s else ""
  }

  /** `_split_node_attrs`. Without a known key all ordinary properties make one. */
  function SplitNodeAttrs(attrs: Attrs): Split {
    var mainLabel := TextOf(Get(attrs, "main_label"));
    var rest := attrs - {"pk", "main_label", "labels"};
    var raw := map k | k in rest && IsRaw(k) :: rest[k];
    var props := map k | k in rest && !IsRaw(k) :: rest[k];
    var pk := Get(attrs, "pk");
    if pk.Dict? then Split(mainLabel, pk.entries, props, raw)
    else if props != map[] then Split(mainLabel, props, map[], raw)
    else Split(mainLabel, raw, map[], map[])
  }

  function AltLabels(labels: seq<Value>, mainLabel: string): seq<string> {
    if labels == [] then []
    else (if labels[0].Str? && labels[0].s != mainLabel then [labels[0].s] else []) + AltLabels(labels[1..], mainLabel)
  }

  function LabelsOf(attrs: Attrs): seq<string> {
    var labels := Get(attrs, "labels");
    [TextOf(Get(attrs, "main_label"))] + if labels.List? then AltLabels(labels.items, TextOf(Get(attrs, "main_label"))) else []
  }

  /** The main label leads, and the other labels follow; what is not text is left out. */
  lemma {:induction false} LabelsFollow(attrs: Attrs, x: string)
    requires Get(attrs, "main_label").Str?
    ensures LabelsOf(attrs) != [] && LabelsOf(attrs)[0] == attrs["main_label"].s
    ensures x in LabelsOf(attrs)[1..] <==> x != attrs["main_label"].s && Get(attrs, "labels").List? && Str(x) in attrs["labels"].items
  {
    if Get(attrs, "labels").List? { AltsFollow(attrs["labels"].items, attrs["main_label"].s, x); }
  }

  lemma {:induction false} AltsFollow(labels: seq<Value>, main: string, x: string)
    ensures x in AltLabels(labels, main) <==> x != main && Str(x) in labels
  {
    if labels != [] {
      AltsFollow(labels[1..], main, x);
      assert labels == [labels[0]] + labels[1..];
    }
  }

  /** The node object that is inserted. */
  function ArgOf(attrs: Attrs): NodeArg {
    var s := SplitNodeAttrs(attrs);
    NodeArg(None, Some(s.pk), s.mainLabel, LabelsOf(attrs), s.props, false, NoParent)
  }

  /** What `Node(...)` takes as a property: neither representation, nor the store's own bookkeeping. */
  predicate IsProperty(k: string) {
    && k != "pk" && k != "main_label" && k != "labels" && (k == "" || k[0] != '_')
    && k != "is_weak" && k != "parent_relation" && k != "parent" && k != "dependencies" && k != "version"
    && k != "neo4j_id" && k != "alternative_labels"
  }

  function Properties(attrs: Attrs): Attrs {
    map k | k in attrs && IsProperty(k) :: attrs[k]
  }

  function Bookkeeping(attrs: Attrs): Attrs {
    map k | k in attrs && !IsProperty(k) && k != "pk" && k != "main_label" && k != "labels" :: attrs[k]
  }

  lemma PropertiesAre(k: string)
    ensures IsProperty(k) <==> k != "pk" && k != "main_label" && k != "labels" && !IsRaw(k)
  {
  }

  lemma PartsAre(attrs: Attrs)
    ensures var rest := attrs - {"pk", "main_label", "labels"};
            && (map k | k in rest && IsRaw(k) :: rest[k]) == Bookkeeping(attrs)
            && (map k | k in rest && !IsRaw(k) :: rest[k]) == Properties(attrs)
  {
    hide IsRaw, IsProperty;
    forall k ensures IsProperty(k) <==> k != "pk" && k != "main_label" && k != "labels" && !IsRaw(k) { PropertiesAre(k); }
  }

  /** A known key is kept, the properties go to the object, and the bookkeeping is written afterwards;
      without a known key the properties are the key, or if there are none the bookkeeping is. */
  lemma SplitIs(attrs: Attrs)
    ensures var s := SplitNodeAttrs(attrs);
            if Get(attrs, "pk").Dict? then s.pk == attrs["pk"].entries && s.props == Properties(attrs) && s.raw == Bookkeeping(attrs)
            else if Properties(attrs) != map[] then s.pk == Properties(attrs) && s.props == map[] && s.raw == Bookkeeping(attrs)
            else s.pk == Bookkeeping(attrs) && s.props == map[] && s.raw == map[]
    ensures Get(attrs, "main_label").Str? ==> SplitNodeAttrs(attrs).mainLabel == attrs["main_label"].s
  {
    PartsAre(attrs);
    hide Properties, Bookkeeping, IsRaw;
  }

  /** What the inserted node has in the end. */
  function Rebuilt(attrs: Attrs): Attrs {
    var s := SplitNodeAttrs(attrs);
    Stored(ArgOf(attrs), s.pk) + s.raw
  }

  /** The key of a node is known, not empty, and its attributes can be taken apart and put together. */
  predicate Regular(attrs: Attrs) {
    && Get(attrs, "pk").Dict? && Get(attrs, "pk").entries != map[] && Get(attrs, "main_label").Str?
    && Rebuilt(attrs) == attrs
  }

  /** Attributes as an insertion stores them, with properties set afterwards, are regular: the main
      label leads the labels, and the fields of the key are properties. */
  lemma StoredIsRegular(attrs: Attrs, alts: seq<string>)
    requires Get(attrs, "pk").Dict? && Get(attrs, "pk").entries != map[] && Get(attrs, "main_label").Str?
    requires forall k | k in Get(attrs, "pk").entries :: k in attrs && k != "pk" && k != "main_label" && k != "labels"
    requires (forall i | 0 <= i < |alts| :: alts[i] != attrs["main_label"].s)
    requires Get(attrs, "labels") == List(Texts([attrs["main_label"].s] + alts))
    ensures Regular(attrs)
  {
    LabelsAre(attrs, alts);
    hide LabelsOf, Texts, IsRaw;
    var s := SplitNodeAttrs(attrs);
    forall k | k in attrs ensures k in Rebuilt(attrs) && Rebuilt(attrs)[k] == attrs[k] {
      assert k in {"pk", "main_label", "labels"} || k in s.props || k in s.raw;
    }
    forall k | k in Rebuilt(attrs) ensures k in attrs { }
  }

  lemma LabelsAre(attrs: Attrs, alts: seq<string>)
    requires Get(attrs, "main_label").Str? && Get(attrs, "labels") == List(Texts([attrs["main_label"].s] + alts))
    requires forall i | 0 <= i < |alts| :: alts[i] != attrs["main_label"].s
    ensures LabelsOf(attrs) == [attrs["main_label"].s] + alts
  {
    var main := attrs["main_label"].s;
    var labels := Texts([main] + alts);
    AltsAre(alts, main);
    assert labels[0] == Str(main) && labels[1..] == Texts(alts);
    assert AltLabels(labels, main) == [] + AltLabels(Texts(alts), main);
  }

  lemma {:induction false} AltsAre(alts: seq<string>, main: string)
    requires forall i | 0 <= i < |alts| :: alts[i] != main
    ensures AltLabels(Texts(alts), main) == alts
  {
    if alts != [] {
      AltsAre(alts[1..], main);
      assert Texts(alts)[1..] == Texts(alts[1..]);
      assert alts == [alts[0]] + alts[1..];
    }
  }

  /** The name under which relations of the copy find the node. */
  function EndOf(attrs: Attrs): End {
    var s := SplitNodeAttrs(attrs);
    End(s.mainLabel, Some(s.pk))
  }

  lemma RegularKey(attrs: Attrs)
    requires Regular(attrs)
    ensures HasKey(attrs, EndOf(attrs)) && KeyOf(Stored(ArgOf(attrs), SplitNodeAttrs(attrs).pk)) == KeyOf(attrs)
    ensures KeyOf(attrs + Merged(ArgOf(attrs))) == KeyOf(attrs)
    ensures attrs + Merged(ArgOf(attrs)) + SplitNodeAttrs(attrs).raw == attrs
    ensures "pk" !in SplitNodeAttrs(attrs).raw && "main_label" !in SplitNodeAttrs(attrs).raw
  {
    var s, arg := SplitNodeAttrs(attrs), ArgOf(attrs);
    var stored := Stored(arg, s.pk);
    KeyUntouched(stored, s.raw);
    assert stored + s.raw == attrs;
    var merged := attrs + Merged(arg);
    assert Get(merged, "pk") == Get(attrs, "pk") && Get(merged, "main_label") == Get(attrs, "main_label");
    forall k | k in attrs ensures (merged + s.raw)[k] == attrs[k] {
      if k !in s.raw { assert stored[k] == attrs[k]; }
    }
    assert merged + s.raw == attrs by {
      assert forall k | k in Merged(arg) :: k in stored;
    }
  }

  // --- Names that objects cannot take --------------------------------------

  /** `Node(...)` raises for a property of these names: its own argument, a property without a setter,
      and the empty name. */
  const NO_NODE_NAMES := {"self", "attributes", ""}

  predicate NamesOk(attrs: Attrs) {
    forall k | k in SplitNodeAttrs(attrs).props :: k !in NO_NODE_NAMES
  }

  /** `Relation(...)` raises for these, its own arguments and properties without a setter ... */
  const NO_RELATION_NAMES := {"self", "src", "dst", "rel_type", "type", "attributes"}

  /** ... and these overwrite its own fields. */
  const RELATION_FIELDS := {"_src", "_dst", "_type"}

  datatype Rel = Rel(src: End, dst: End, relType: string, attrs: Attrs)

  /** What a field that was overwritten names. */
  function EndFrom(v: Value): Result<End, StoreError> {
    if v.Dict? && "main_label" in v.entries && "pk" in v.entries
    then Ok(End(TextOf(v.entries["main_label"]), if v.entries["pk"].Dict? then Some(v.entries["pk"].entries) else None))
    else Err(BadName)
  }

  /** The relation object: `upper` is Python's, and the relation's type is upper case. */
  function MakeRelation(src: End, dst: End, relType: string, attrs: Attrs, upper: string -> string): Result<Rel, StoreError> {
    if attrs.Keys !! NO_RELATION_NAMES then
      var s :- if "_src" in attrs then EndFrom(attrs["_src"]) else Ok(src);
      var d :- if "_dst" in attrs then EndFrom(attrs["_dst"]) else Ok(dst);
      var t :- if "_type" !in attrs then Ok(upper(relType)) else if attrs["_type"].Str? then Ok(attrs["_type"].s) else Err(BadName);
      Ok(Rel(s, d, t, attrs - RELATION_FIELDS))
    else Err(BadName)
  }

  /** A relation whose object says what it is. */
  predicate OrdinaryEdge(e: EdgeKey, attrs: Attrs, upper: string -> string) {
    attrs.Keys !! NO_RELATION_NAMES && attrs.Keys !! RELATION_FIELDS && upper(e.2) == e.2
  }

  lemma OrdinaryIsMade(src: End, dst: End, e: EdgeKey, attrs: Attrs, upper: string -> string)
    requires OrdinaryEdge(e, attrs, upper)
    ensures MakeRelation(src, dst, e.2, attrs, upper) == Ok(Rel(src, dst, e.2, attrs))
  {
    assert attrs - RELATION_FIELDS == attrs;
    assert forall k | k in RELATION_FIELDS :: k !in attrs;
  }

  predicate OrdinaryNodes(nodes: map<NodeId, Attrs>, keep: Attrs -> bool) {
    forall n | n in nodes && keep(nodes[n]) :: NamesOk(nodes[n])
  }

  predicate OrdinaryEdges(edges: map<EdgeKey, Attrs>, kept: set<NodeId>, upper: string -> string) {
    forall e | e in edges && e.0 in kept && e.1 in kept :: OrdinaryEdge(e, edges[e], upper)
  }

  function KeptNodes(nodes: map<NodeId, Attrs>, keep: Attrs -> bool): set<NodeId> {
    set n | n in nodes && keep(nodes[n])
  }

  // --- One node ------------------------------------------------------------

  /** No stored node could be taken for one with these attributes. */
  ghost predicate Unnamed(nodes: map<NodeId, Attrs>, attrs: Attrs) {
    forall n | n in nodes :: !Denotes(ArgOf(attrs), n, nodes[n])
  }

  /** Node `n` has these attributes already, and is the only one that could be taken for it. */
  ghost predicate Present(nodes: map<NodeId, Attrs>, attrs: Attrs, n: NodeId) {
    n in nodes && nodes[n] == attrs && forall m | m in nodes && m != n :: !Denotes(ArgOf(attrs), m, nodes[m])
  }

  lemma SameKeyDenotes(attrs: Attrs, other: Attrs, n: NodeId)
    requires Regular(attrs)
    ensures KeyOf(other) == KeyOf(attrs) ==> Denotes(ArgOf(attrs), n, other)
  {
    RegularKey(attrs);
  }

  /** Merging writes no "pk" and no other main label: a value is not part of itself. */
  lemma MergedWritesNoKey(attrs: Attrs)
    requires Regular(attrs)
    ensures "pk" !in Merged(ArgOf(attrs))
    ensures "main_label" in Merged(ArgOf(attrs)) ==> Merged(ArgOf(attrs))["main_label"] == Str(ArgOf(attrs).mainLabel)
  {
    hide LabelsOf;
    var merged := Merged(ArgOf(attrs));
    assert forall k | k in merged :: k !in SplitNodeAttrs(attrs).raw ==> Rebuilt(attrs)[k] == merged[k];
  }

  lemma MergedKeepsKey(attrs: Attrs, other: Attrs, n: NodeId)
    requires Regular(attrs) && Denotes(ArgOf(attrs), n, other)
    ensures KeyOf(other + Merged(ArgOf(attrs))) == KeyOf(other)
  {
    MergedWritesNoKey(attrs);
    hide SplitNodeAttrs, LabelsOf, Stored, Merged, Regular, MatchesPk;
  }

  /** An update is never turned away: a node taken for the original keeps its key, and where there is
      none the key is free. */
  lemma NeverRefused(before: Store, attrs: Attrs, error: StoreError)
    requires Consistent(before) && Regular(attrs)
    ensures !Refused(before, ArgOf(attrs), true, false, error)
  {
    RegularKey(attrs);
    var nodes := before.nodeAttrs;
    forall n | n in nodes
      ensures Denotes(ArgOf(attrs), n, nodes[n]) ==> !KeyTaken(nodes, n, nodes[n] + Merged(ArgOf(attrs)))
      ensures KeyOf(nodes[n]) == KeyOf(attrs) ==> Denotes(ArgOf(attrs), n, nodes[n])
    {
      hide SplitNodeAttrs, LabelsOf, Stored, Merged, Regular, KeyOf;
      KeysDiffer(before.pkIndex, nodes, n);
      SameKeyDenotes(attrs, nodes[n], n);
      if Denotes(ArgOf(attrs), n, nodes[n]) { MergedKeepsKey(attrs, nodes[n], n); }
    }
    hide SplitNodeAttrs, Stored, Regular, Merged, Denotes, LabelsOf, Consistent, KeyOf;
    assert !Refused(before, ArgOf(attrs), true, false, error);
  }

  lemma FreshIsCreated(before: Store, after: Store, attrs: Attrs, id: NodeId, pk: map<string, Value>)
    requires Unnamed(before.nodeAttrs, attrs) && Ensured(before, after, ArgOf(attrs), true, false, id, pk)
    ensures id !in before.nodeAttrs && after.edgeAttrs == before.edgeAttrs
    ensures after.nodeAttrs == before.nodeAttrs[id := Stored(ArgOf(attrs), SplitNodeAttrs(attrs).pk)]
  {
    hide SplitNodeAttrs, Stored, Denotes, Merged, LabelsOf;
  }

  lemma PresentIsMerged(before: Store, after: Store, attrs: Attrs, n: NodeId, id: NodeId, pk: map<string, Value>)
    requires Regular(attrs) && Present(before.nodeAttrs, attrs, n) && Ensured(before, after, ArgOf(attrs), true, false, id, pk)
    ensures id == n && after.edgeAttrs == before.edgeAttrs
    ensures after.nodeAttrs == before.nodeAttrs[n := attrs + Merged(ArgOf(attrs))]
  {
    SameKeyDenotes(attrs, attrs, n);
    hide SplitNodeAttrs, Stored, Denotes, Merged, LabelsOf, Regular, KeyOf;
  }

  /** Where it cannot be mistaken, the copy has the node's attributes, all of them; where it is there
      already, nothing changes. */
  ghost predicate Copied(before: Store, after: Store, attrs: Attrs, r: Result<NodeId, StoreError>) {
    && (Unnamed(before.nodeAttrs, attrs) ==>
          && r.Ok? && r.value !in before.nodeAttrs
          && after.nodeAttrs == before.nodeAttrs[r.value := attrs] && after.edgeAttrs == before.edgeAttrs)
    && forall n: NodeId | Present(before.nodeAttrs, attrs, n) ::
         r == Ok(n) && after.nodeAttrs == before.nodeAttrs && after.edgeAttrs == before.edgeAttrs
  }

  lemma FreshDone(before: Store, middle: Store, after: Store, attrs: Attrs, id: NodeId, pk: map<string, Value>)
    requires Regular(attrs) && Unnamed(before.nodeAttrs, attrs) && Ensured(before, middle, ArgOf(attrs), true, false, id, pk)
    requires id in middle.nodeAttrs && after.nodeAttrs == middle.nodeAttrs[id := middle.nodeAttrs[id] + SplitNodeAttrs(attrs).raw]
    requires after.edgeAttrs == middle.edgeAttrs
    ensures id !in before.nodeAttrs && after.nodeAttrs == before.nodeAttrs[id := attrs] && after.edgeAttrs == before.edgeAttrs
  {
    assert Stored(ArgOf(attrs), SplitNodeAttrs(attrs).pk) + SplitNodeAttrs(attrs).raw == attrs;
    hide *;
    FreshIsCreated(before, middle, attrs, id, pk);
  }

  lemma PresentDone(before: Store, middle: Store, after: Store, attrs: Attrs, n: NodeId, id: NodeId, pk: map<string, Value>)
    requires Regular(attrs) && Present(before.nodeAttrs, attrs, n) && Ensured(before, middle, ArgOf(attrs), true, false, id, pk)
    requires id in middle.nodeAttrs && after.nodeAttrs == middle.nodeAttrs[id := middle.nodeAttrs[id] + SplitNodeAttrs(attrs).raw]
    requires after.edgeAttrs == middle.edgeAttrs
    ensures id == n && after.nodeAttrs == before.nodeAttrs && after.edgeAttrs == before.edgeAttrs
  {
    RegularKey(attrs);
    PresentHas(before.nodeAttrs, attrs, n);
    hide *;
    PresentIsMerged(before, middle, attrs, n, id, pk);
  }

  lemma CopyDone(before: Store, middle: Store, after: Store, attrs: Attrs, id: NodeId, pk: map<string, Value>)
    requires Regular(attrs) && Ensured(before, middle, ArgOf(attrs), true, false, id, pk) && id in middle.nodeAttrs
    requires after.nodeAttrs == middle.nodeAttrs[id := middle.nodeAttrs[id] + SplitNodeAttrs(attrs).raw]
    requires after.edgeAttrs == middle.edgeAttrs
    ensures Copied(before, after, attrs, Ok(id))
  {
    hide Unnamed, Present, Regular, ArgOf, Ensured, SplitNodeAttrs;
    if Unnamed(before.nodeAttrs, attrs) { FreshDone(before, middle, after, attrs, id, pk); }
    forall n: NodeId | Present(before.nodeAttrs, attrs, n)
      ensures id == n && after.nodeAttrs == before.nodeAttrs && after.edgeAttrs == before.edgeAttrs
    {
      PresentDone(before, middle, after, attrs, n, id, pk);
    }
  }

  lemma PresentHas(nodes: map<NodeId, Attrs>, attrs: Attrs, n: NodeId)
    requires Present(nodes, attrs, n)
    ensures n in nodes && nodes[n] == attrs
  {
  }

  /** The properties a `Node` object could not carry, written as they are. */
  method WriteRaw(target: Graph, id: NodeId, raw: Attrs) returns (r: Result<(), StoreError>)
    requires target.Valid() && id in target.nodeAttrs
    modifies target
    ensures target.Valid() && ("pk" !in raw && "main_label" !in raw ==> r.Ok?)
    ensures r.Ok? ==> target.nodeAttrs == old(target.nodeAttrs)[id := old(target.nodeAttrs)[id] + raw]
                      && target.edgeAttrs == old(target.edgeAttrs)
  {
    if raw == map[] {
      assert target.nodeAttrs[id] + raw == target.nodeAttrs[id];
      assert target.nodeAttrs == target.nodeAttrs[id := target.nodeAttrs[id]];
      return Ok(());
    }
    r := target.SetNodeProperties(id, raw);
  }

  /** The body of phase 1 for one node. */
  method MigrateNode(target: Graph, attrs: Attrs, update: bool) returns (r: Result<NodeId, StoreError>)
    requires target.Valid()
    modifies target
    ensures r.Ok? ==> target.Valid()
    ensures update && Regular(attrs) && NamesOk(attrs) ==> Copied(old(target.View()), target.View(), attrs, r)
    ensures r.Ok? ==> NamesOk(attrs)
  {
    if !NamesOk(attrs) { return Err(BadName); }
    ghost var before := target.View();
    var s, arg := SplitNodeAttrs(attrs), ArgOf(attrs);
    if Regular(attrs) { RegularKey(attrs); }
    hide SplitNodeAttrs, LabelsOf, Regular, Ensured, Refused, Consistent, Merged, Stored, Copied;
    var inserted := target.InsertNode(arg, true, update, false);
    if inserted.Err? {
      if update && Regular(attrs) { NeverRefused(before, attrs, inserted.error); }
      return Err(inserted.error);
    }
    ghost var middle := target.View();
    var id := inserted.value;
    ghost var pk :| Ensured(before, middle, arg, update, false, id, pk);
    EnsuredGrows(before, middle, arg, update, false, id, pk);
    var written := WriteRaw(target, id, s.raw);
    if written.Err? { return Err(written.error); }
    if update && Regular(attrs) { CopyDone(before, middle, target.View(), attrs, id, pk); }
    return Ok(id);
  }

  // --- The whole graph -----------------------------------------------------

  datatype Stats = Stats(nodesMigrated: nat, nodesSkipped: nat, edgesMigrated: nat, edgesSkipped: nat)

  type Ids = map<NodeId, NodeId>

  /** No node could be taken for another, and every node can be taken apart. */
  ghost predicate Migratable(nodes: map<NodeId, Attrs>) {
    && (forall n | n in nodes :: Regular(nodes[n]))
    && (forall m, n | m in nodes && n in nodes && m != n :: !Denotes(ArgOf(nodes[m]), n, nodes[n]))
  }

  function Image(f: Ids, e: EdgeKey): EdgeKey
    requires e.0 in f && e.1 in f
  {
    (f[e.0], f[e.1], e.2)
  }

  predicate Injective(f: Ids) {
    forall m, n | m in f && n in f && m != n :: f[m] != f[n]
  }

  /** `f` maps the nodes copied so far to their copies, which are all there is. */
  ghost predicate NodesCopied(nodes: map<NodeId, Attrs>, f: Ids, copy: map<NodeId, Attrs>) {
    && Injective(f) && (forall n | n in f :: n in nodes && f[n] in copy && copy[f[n]] == nodes[n])
    && (forall m | m in copy :: exists n :: n in f && f[n] == m)
  }

  /** The relations in `done` between copied nodes are copied, and nothing else is. */
  ghost predicate EdgesCopied(edges: map<EdgeKey, Attrs>, done: set<EdgeKey>, f: Ids, copy: map<EdgeKey, Attrs>) {
    && (forall e | e in done && e in edges && e.0 in f && e.1 in f :: Image(f, e) in copy && copy[Image(f, e)] == edges[e])
    && (forall c | c in copy :: exists e :: e in done && e in edges && e.0 in f && e.1 in f && c == Image(f, e))
  }

  /** A bijection on ids that preserves labels, keys, all attributes, relations and their attributes. */
  ghost predicate Isomorphic(source: Store, f: Ids, target: Store) {
    NodesCopied(source.nodeAttrs, f, target.nodeAttrs) && EdgesCopied(source.edgeAttrs, source.edgeAttrs.Keys, f, target.edgeAttrs)
  }

  lemma NextIsUnnamed(nodes: map<NodeId, Attrs>, f: Ids, copy: map<NodeId, Attrs>, n: NodeId)
    requires Migratable(nodes) && NodesCopied(nodes, f, copy) && n in nodes && n !in f
    ensures Unnamed(copy, nodes[n])
  {
    hide Regular;
    forall m | m in copy ensures !Denotes(ArgOf(nodes[n]), m, copy[m]) {
      var k :| k in f && f[k] == m;
      OtherIsNotDenoted(nodes, n, k, m);
    }
  }

  lemma OtherIsNotDenoted(nodes: map<NodeId, Attrs>, n: NodeId, k: NodeId, m: NodeId)
    requires Migratable(nodes) && n in nodes && k in nodes && k != n
    ensures !Denotes(ArgOf(nodes[n]), m, nodes[k])
  {
    assert !Denotes(ArgOf(nodes[n]), k, nodes[k]);
    hide Regular, Named, SplitNodeAttrs, LabelsOf;
  }

  lemma CopyIsPresent(nodes: map<NodeId, Attrs>, f: Ids, copy: map<NodeId, Attrs>, n: NodeId)
    requires Migratable(nodes) && NodesCopied(nodes, f, copy) && n in f
    ensures Present(copy, nodes[n], f[n])
  {
    hide Regular;
    forall m | m in copy && m != f[n] ensures !Denotes(ArgOf(nodes[n]), m, copy[m]) {
      var k :| k in f && f[k] == m;
      OtherIsNotDenoted(nodes, n, k, m);
    }
  }

  lemma NodeAdded(nodes: map<NodeId, Attrs>, f: Ids, copy: map<NodeId, Attrs>, n: NodeId, id: NodeId)
    requires NodesCopied(nodes, f, copy) && n in nodes && n !in f && id !in copy
    ensures NodesCopied(nodes, f[n := id], copy[id := nodes[n]])
  {
    var g, more := f[n := id], copy[id := nodes[n]];
    forall m | m in more ensures exists k :: k in g && g[k] == m {
      if m == id { assert g[n] == m; } else { var k :| k in f && f[k] == m; assert g[k] == m; }
    }
  }

  /** How many nodes were migrated and skipped while those in `rest` are left. */
  ghost predicate NodesCounted(nodes: set<NodeId>, rest: set<NodeId>, identities: map<NodeId, End>, migrated: nat, skipped: nat) {
    rest <= nodes && migrated + skipped + |rest| == |nodes| && migrated == |identities| && identities.Keys !! rest
  }

  lemma NodeCounted(nodes: set<NodeId>, rest: set<NodeId>, identities: map<NodeId, End>, migrated: nat, skipped: nat, n: NodeId, end: End)
    requires NodesCounted(nodes, rest, identities, migrated, skipped) && n in rest
    ensures NodesCounted(nodes, rest - {n}, identities, migrated, skipped + 1)
    ensures NodesCounted(nodes, rest - {n}, identities[n := end], migrated + 1, skipped)
  {
  }

  lemma AllNodesCounted(nodes: set<NodeId>, identities: map<NodeId, End>, migrated: nat, skipped: nat)
    ensures NodesCounted(nodes, nodes, map[], 0, 0)
    ensures NodesCounted(nodes, {}, identities, migrated, skipped) ==> migrated + skipped == |nodes| && migrated == |identities|
  {
  }

  /** Phase 1. `f0` are the copies that were there already, if any. */
  method MigrateNodes(source: Graph, target: Graph, keep: Attrs -> bool, update: bool, ghost f0: Ids)
    returns (r: Result<map<NodeId, End>, StoreError>, migrated: nat, skipped: nat, ghost f: Ids)
    requires source != target && source.Valid() && target.Valid()
    modifies target
    ensures r.Ok? ==> target.Valid() && migrated + skipped == |source.nodeAttrs| && migrated == |r.value|
    ensures r.Ok? ==> r.value == map n | n in source.nodeAttrs && keep(source.nodeAttrs[n]) :: EndOf(source.nodeAttrs[n])
    ensures r.Ok? ==> OrdinaryNodes(source.nodeAttrs, keep)
    ensures IntoEmpty(source.nodeAttrs, keep, update, old(target.View())) ==>
              && r.Ok? && f.Keys == r.value.Keys && NodesCopied(source.nodeAttrs, f, target.nodeAttrs)
              && target.edgeAttrs == old(target.edgeAttrs)
    ensures OntoCopy(source.nodeAttrs, keep, update, f0, old(target.View())) ==>
              r.Ok? && target.nodeAttrs == old(target.nodeAttrs) && target.edgeAttrs == old(target.edgeAttrs)
  {
    ghost var nodes, before := source.nodeAttrs, target.View();
    var identities: map<NodeId, End> := map[];
    migrated, skipped, f := 0, 0, map[];
    PhaseStart(nodes, keep, update, f0, before);
    AllNodesCounted(nodes.Keys, identities, 0, 0);
    hide Consistent, Regular, Copied, EndOf, Phase, NamesOk, NodesCounted;
    var rest := source.nodeAttrs.Keys;
    while rest != {}
      invariant rest <= nodes.Keys && target.Valid() && source.nodeAttrs == nodes
      invariant NodesCounted(nodes.Keys, rest, identities, migrated, skipped)
      invariant Phase(nodes, keep, update, f0, before, target.View(), rest, identities, f)
      invariant forall n | n in nodes && n !in rest && keep(nodes[n]) :: NamesOk(nodes[n])
      decreases rest
    {
      var n :| n in rest;
      var attrs := source.nodeAttrs[n];
      NodeCounted(nodes.Keys, rest, identities, migrated, skipped, n, EndOf(attrs));
      if !keep(attrs) {
        PhaseSkip(nodes, keep, update, f0, before, target.View(), rest, identities, f, n);
        skipped := skipped + 1;
      } else {
        ghost var now := target.View();
        var id := MigrateNode(target, attrs, update);
        PhaseStep(nodes, keep, update, f0, before, now, target.View(), rest, identities, f, n, id);
        if id.Err? { return Err(id.error), migrated, skipped, f; }
        f := f[n := id.value];
        identities := identities[n := EndOf(attrs)];
        migrated := migrated + 1;
      }
      rest := rest - {n};
    }
    PhaseEnd(nodes, keep, update, f0, before, target.View(), identities, f);
    AllNodesCounted(nodes.Keys, identities, migrated, skipped);
    return Ok(identities), migrated, skipped, f;
  }

  /** The copy into an empty target, or onto a copy that is there already. */
  ghost predicate IntoEmpty(nodes: map<NodeId, Attrs>, keep: Attrs -> bool, update: bool, before: Store) {
    update && Migratable(nodes) && OrdinaryNodes(nodes, keep) && before.nodeAttrs == map[]
  }

  ghost predicate OntoCopy(nodes: map<NodeId, Attrs>, keep: Attrs -> bool, update: bool, f0: Ids, before: Store) {
    && update && Migratable(nodes) && OrdinaryNodes(nodes, keep) && NodesCopied(nodes, f0, before.nodeAttrs)
    && forall n | n in nodes && keep(nodes[n]) :: n in f0
  }

  ghost predicate Phase(nodes: map<NodeId, Attrs>, keep: Attrs -> bool, update: bool, f0: Ids, before: Store, now: Store,
                        rest: set<NodeId>, identities: map<NodeId, End>, f: Ids) {
    && identities == (map n | n in nodes && n !in rest && keep(nodes[n]) :: EndOf(nodes[n]))
    && (IntoEmpty(nodes, keep, update, before) ==>
          f.Keys == identities.Keys && NodesCopied(nodes, f, now.nodeAttrs) && now.edgeAttrs == before.edgeAttrs)
    && (OntoCopy(nodes, keep, update, f0, before) ==> now.nodeAttrs == before.nodeAttrs && now.edgeAttrs == before.edgeAttrs)
  }

  lemma PhaseStart(nodes: map<NodeId, Attrs>, keep: Attrs -> bool, update: bool, f0: Ids, before: Store)
    ensures Phase(nodes, keep, update, f0, before, before, nodes.Keys, map[], map[])
  {
    NothingCopied(nodes);
    hide NodesCopied;
  }

  lemma PhaseSkip(nodes: map<NodeId, Attrs>, keep: Attrs -> bool, update: bool, f0: Ids, before: Store, now: Store,
                  rest: set<NodeId>, identities: map<NodeId, End>, f: Ids, n: NodeId)
    requires Phase(nodes, keep, update, f0, before, now, rest, identities, f) && n in nodes && !keep(nodes[n])
    ensures Phase(nodes, keep, update, f0, before, now, rest - {n}, identities, f)
  {
    hide NodesCopied, IntoEmpty, OntoCopy, EndOf;
  }

  lemma PhaseStep(nodes: map<NodeId, Attrs>, keep: Attrs -> bool, update: bool, f0: Ids, before: Store, now: Store, next: Store,
                  rest: set<NodeId>, identities: map<NodeId, End>, f: Ids, n: NodeId, r: Result<NodeId, StoreError>)
    requires Phase(nodes, keep, update, f0, before, now, rest, identities, f) && n in rest && n in nodes && keep(nodes[n])
    requires update && Regular(nodes[n]) && NamesOk(nodes[n]) ==> Copied(now, next, nodes[n], r)
    ensures IntoEmpty(nodes, keep, update, before) || OntoCopy(nodes, keep, update, f0, before) ==> r.Ok?
    ensures r.Ok? ==> Phase(nodes, keep, update, f0, before, next, rest - {n}, identities[n := EndOf(nodes[n])], f[n := r.value])
  {
    hide NodesCopied, EndOf, Copied, Migratable, Regular, NamesOk;
    if IntoEmpty(nodes, keep, update, before) { NodeStep(nodes, f, now, next, n, r); }
    if OntoCopy(nodes, keep, update, f0, before) { NodeAgain(nodes, f0, now, next, n, r); }
  }

  lemma PhaseEnd(nodes: map<NodeId, Attrs>, keep: Attrs -> bool, update: bool, f0: Ids, before: Store, now: Store,
                 identities: map<NodeId, End>, f: Ids)
    requires Phase(nodes, keep, update, f0, before, now, {}, identities, f)
    ensures identities == map n | n in nodes && keep(nodes[n]) :: EndOf(nodes[n])
    ensures IntoEmpty(nodes, keep, update, before) ==>
              f.Keys == identities.Keys && NodesCopied(nodes, f, now.nodeAttrs) && now.edgeAttrs == before.edgeAttrs
    ensures OntoCopy(nodes, keep, update, f0, before) ==> now.nodeAttrs == before.nodeAttrs && now.edgeAttrs == before.edgeAttrs
  {
    hide NodesCopied, IntoEmpty, OntoCopy, EndOf;
  }

  lemma NothingCopied(nodes: map<NodeId, Attrs>)
    ensures NodesCopied(nodes, map[], map[])
  {
  }

  lemma NodeStep(nodes: map<NodeId, Attrs>, f: Ids, before: Store, after: Store, n: NodeId, r: Result<NodeId, StoreError>)
    requires Migratable(nodes) && n in nodes && n !in f && NodesCopied(nodes, f, before.nodeAttrs)
    requires Regular(nodes[n]) ==> Copied(before, after, nodes[n], r)
    ensures r.Ok? && NodesCopied(nodes, f[n := r.value], after.nodeAttrs) && after.edgeAttrs == before.edgeAttrs
  {
    NextIsUnnamed(nodes, f, before.nodeAttrs, n);
    hide Regular, Unnamed, NodesCopied, Denotes;
    NodeAdded(nodes, f, before.nodeAttrs, n, r.value);
  }

  lemma NodeAgain(nodes: map<NodeId, Attrs>, f: Ids, before: Store, after: Store, n: NodeId, r: Result<NodeId, StoreError>)
    requires Migratable(nodes) && n in f && NodesCopied(nodes, f, before.nodeAttrs) && n in nodes
    requires Regular(nodes[n]) ==> Copied(before, after, nodes[n], r)
    ensures r == Ok(f[n]) && after.nodeAttrs == before.nodeAttrs && after.edgeAttrs == before.edgeAttrs
  {
    CopyIsPresent(nodes, f, before.nodeAttrs, n);
    hide Regular, Unnamed, Present, NodesCopied, Denotes;
  }

  /** The names of a relation's ends lead to the copies of its ends. */
  lemma EndsResolve(nodes: map<NodeId, Attrs>, f: Ids, copy: map<NodeId, Attrs>, n: NodeId)
    requires Migratable(nodes) && NodesCopied(nodes, f, copy) && n in f
    ensures f[n] in copy && n in nodes && HasKey(copy[f[n]], EndOf(nodes[n])) && !Unresolved(EndOf(nodes[n]), copy)
  {
    assert Regular(nodes[n]);
    RegularKey(nodes[n]);
    hide Regular, SplitNodeAttrs, Migratable;
  }

  lemma EdgeStep(edges: map<EdgeKey, Attrs>, done: set<EdgeKey>, f: Ids, now: map<EdgeKey, Attrs>, e: EdgeKey)
    requires EdgesCopied(edges, done, f, now) && Injective(f) && e in edges && e.0 in f && e.1 in f
    ensures var c := Image(f, e);
            var next := now[c := if c in now then now[c] + edges[e] else edges[e]];
            EdgesCopied(edges, done + {e}, f, next) && (e in done ==> next == now)
  {
    var c := Image(f, e);
    var next := now[c := if c in now then now[c] + edges[e] else edges[e]];
    forall d | d in edges && d.0 in f && d.1 in f && d != e ensures Image(f, d) != c { }
    hide Injective;
    if c in now {
      var d :| d in done && d in edges && d.0 in f && d.1 in f && c == Image(f, d);
      assert d == e;
      assert now[c] + edges[e] == edges[e];
    }
    forall x | x in next ensures exists d :: d in done + {e} && d in edges && d.0 in f && d.1 in f && x == Image(f, d) {
      if x == c { assert x == Image(f, e); } else { var d :| d in done && d in edges && d.0 in f && d.1 in f && x == Image(f, d); }
    }
    forall d | d in done + {e} && d in edges && d.0 in f && d.1 in f ensures Image(f, d) in next && next[Image(f, d)] == edges[d] {
      if d != e { assert Image(f, d) != c; }
    }
  }

  /** Phase 2 so far: with all nodes copied, the relations in `done` are too; a copy that was complete
      does not change. */
  ghost predicate EdgePhase(source: Store, f: Ids, identities: map<NodeId, End>, update: bool, before: Store, now: Store,
                            upper: string -> string, done0: set<EdgeKey>, rest: set<EdgeKey>) {
    now.nodeAttrs == before.nodeAttrs &&
    (update && CopyReady(source, f, identities, upper, before) && EdgesCopied(source.edgeAttrs, done0, f, before.edgeAttrs) ==>
       && EdgesCopied(source.edgeAttrs, done0 + (source.edgeAttrs.Keys - rest), f, now.edgeAttrs)
       && (done0 == source.edgeAttrs.Keys ==> now.edgeAttrs == before.edgeAttrs))
  }

  ghost predicate CopyReady(source: Store, f: Ids, identities: map<NodeId, End>, upper: string -> string, target: Store) {
    && OrdinaryEdges(source.edgeAttrs, identities.Keys, upper)
    && Migratable(source.nodeAttrs) && NodesCopied(source.nodeAttrs, f, target.nodeAttrs) && f.Keys == identities.Keys
    && forall n | n in identities :: n in source.nodeAttrs && identities[n] == EndOf(source.nodeAttrs[n])
  }

  lemma EdgePhaseStart(source: Store, f: Ids, identities: map<NodeId, End>, update: bool, before: Store, upper: string -> string,
                       done0: set<EdgeKey>)
    ensures EdgePhase(source, f, identities, update, before, before, upper, done0, source.edgeAttrs.Keys)
  {
    hide EdgesCopied, CopyReady;
    assert done0 + (source.edgeAttrs.Keys - source.edgeAttrs.Keys) == done0;
  }

  lemma EdgePhaseSkip(source: Store, f: Ids, identities: map<NodeId, End>, update: bool, before: Store, now: Store,
                      upper: string -> string, done0: set<EdgeKey>, rest: set<EdgeKey>, e: EdgeKey)
    requires EdgePhase(source, f, identities, update, before, now, upper, done0, rest) && e in rest && rest <= source.edgeAttrs.Keys
    requires e.0 !in identities || e.1 !in identities
    ensures EdgePhase(source, f, identities, update, before, now, upper, done0, rest - {e})
  {
    hide NodesCopied, Migratable, EndOf, OrdinaryEdges;
    var edges := source.edgeAttrs;
    assert done0 + (edges.Keys - (rest - {e})) == done0 + (edges.Keys - rest) + {e};
  }

  lemma EdgePhaseStep(source: Store, f: Ids, identities: map<NodeId, End>, update: bool, before: Store, now: Store, next: Store,
                      upper: string -> string, done0: set<EdgeKey>, rest: set<EdgeKey>, e: EdgeKey, rel: Rel, r: Result<EdgeKey, StoreError>)
    requires EdgePhase(source, f, identities, update, before, now, upper, done0, rest) && e in rest && rest <= source.edgeAttrs.Keys
    requires e.0 in identities && e.1 in identities && next.nodeAttrs == now.nodeAttrs
    requires MakeRelation(identities[e.0], identities[e.1], e.2, source.edgeAttrs[e], upper) == Ok(rel)
    requires r.Ok? ==> next.edgeAttrs == now.edgeAttrs[r.value :=
               if r.value in now.edgeAttrs then now.edgeAttrs[r.value] + rel.attrs else rel.attrs]
    requires r.Ok? ==> r.value.2 == rel.relType
                       && (forall n | n in now.nodeAttrs && HasKey(now.nodeAttrs[n], rel.src) :: r.value.0 == n)
                       && (forall n | n in now.nodeAttrs && HasKey(now.nodeAttrs[n], rel.dst) :: r.value.1 == n)
    requires r.Err? && update ==> Unresolved(rel.src, now.nodeAttrs) || Unresolved(rel.dst, now.nodeAttrs)
    ensures r.Ok? ==> EdgePhase(source, f, identities, update, before, next, upper, done0, rest - {e})
    ensures update && CopyReady(source, f, identities, upper, before) ==> r.Ok?
  {
    hide EdgesCopied, CopyReady, HasKey, Unresolved, OrdinaryEdge, MakeRelation;
    if update && CopyReady(source, f, identities, upper, before) {
      ReadyIsMade(source, f, identities, upper, before, e);
      ResolvedToImage(source, f, identities, upper, before, now, e, r);
      if EdgesCopied(source.edgeAttrs, done0, f, before.edgeAttrs) {
        EdgeStep(source.edgeAttrs, done0 + (source.edgeAttrs.Keys - rest), f, now.edgeAttrs, e);
        assert done0 + (source.edgeAttrs.Keys - (rest - {e})) == done0 + (source.edgeAttrs.Keys - rest) + {e};
      }
    }
  }

  lemma ReadyIsMade(source: Store, f: Ids, identities: map<NodeId, End>, upper: string -> string, before: Store, e: EdgeKey)
    requires CopyReady(source, f, identities, upper, before) && e in source.edgeAttrs && e.0 in identities && e.1 in identities
    ensures MakeRelation(identities[e.0], identities[e.1], e.2, source.edgeAttrs[e], upper)
            == Ok(Rel(identities[e.0], identities[e.1], e.2, source.edgeAttrs[e]))
  {
    OrdinaryIsMade(identities[e.0], identities[e.1], e, source.edgeAttrs[e], upper);
    hide OrdinaryEdge, MakeRelation, Migratable, NodesCopied;
  }

  lemma ResolvedToImage(source: Store, f: Ids, identities: map<NodeId, End>, upper: string -> string, before: Store, now: Store, e: EdgeKey,
                        r: Result<EdgeKey, StoreError>)
    requires CopyReady(source, f, identities, upper, before) && now.nodeAttrs == before.nodeAttrs
    requires e.0 in identities && e.1 in identities
    requires r.Ok? ==> r.value.2 == e.2
                       && (forall n | n in now.nodeAttrs && HasKey(now.nodeAttrs[n], identities[e.0]) :: r.value.0 == n)
                       && (forall n | n in now.nodeAttrs && HasKey(now.nodeAttrs[n], identities[e.1]) :: r.value.1 == n)
    requires r.Err? ==> Unresolved(identities[e.0], now.nodeAttrs) || Unresolved(identities[e.1], now.nodeAttrs)
    ensures e.0 in f && e.1 in f && Injective(f) && r == Ok(Image(f, e))
  {
    EndsResolve(source.nodeAttrs, f, now.nodeAttrs, e.0);
    EndsResolve(source.nodeAttrs, f, now.nodeAttrs, e.1);
    hide Migratable, EndOf, HasKey, Unresolved;
  }

  // --- What the relations of the copy come from ----------------------------

  /** Every relation of the copy was made from one between copied nodes: none has an attribute that
      overwrites a field, and its type is upper case or such an attribute. */
  ghost predicate Drawn(edges: map<EdgeKey, Attrs>, kept: set<NodeId>, upper: string -> string, copy: map<EdgeKey, Attrs>) {
    forall c | c in copy :: copy[c].Keys !! RELATION_FIELDS && DrawnFrom(edges, kept, upper, c)
  }

  ghost predicate DrawnFrom(edges: map<EdgeKey, Attrs>, kept: set<NodeId>, upper: string -> string, c: EdgeKey) {
    exists e :: e in edges && e.0 in kept && e.1 in kept && (c.2 == upper(e.2) || "_type" in edges[e])
  }

  lemma DrawnMore(edges: map<EdgeKey, Attrs>, kept: set<NodeId>, upper: string -> string, copy: map<EdgeKey, Attrs>, e: EdgeKey,
                  src: End, dst: End, rel: Rel, c: EdgeKey)
    requires Drawn(edges, kept, upper, copy) && e in edges && e.0 in kept && e.1 in kept && c.2 == rel.relType
    requires MakeRelation(src, dst, e.2, edges[e], upper) == Ok(rel)
    ensures Drawn(edges, kept, upper, copy[c := if c in copy then copy[c] + rel.attrs else rel.attrs])
    ensures edges[e].Keys !! NO_RELATION_NAMES
  {
    assert rel.attrs.Keys !! RELATION_FIELDS;
    assert DrawnFrom(edges, kept, upper, c);
    hide DrawnFrom;
  }

  /** A copy that is isomorphic was drawn from ordinary relations only. */
  lemma DrawnIsOrdinary(s: Store, kept: set<NodeId>, upper: string -> string, target: Store, f: Ids)
    requires Drawn(s.edgeAttrs, kept, upper, target.edgeAttrs) && (forall t :: upper(upper(t)) == upper(t))
    requires forall e | e in s.edgeAttrs && e.0 in kept && e.1 in kept :: s.edgeAttrs[e].Keys !! NO_RELATION_NAMES
    requires Isomorphic(s, f, target) && f.Keys == kept
    ensures OrdinaryEdges(s.edgeAttrs, kept, upper)
  {
    hide NodesCopied;
    forall e | e in s.edgeAttrs && e.0 in kept && e.1 in kept
      ensures Image(f, e) in target.edgeAttrs && target.edgeAttrs[Image(f, e)] == s.edgeAttrs[e] && s.edgeAttrs[e].Keys !! RELATION_FIELDS
    {
      assert e in s.edgeAttrs.Keys;
    }
    forall e | e in s.edgeAttrs && e.0 in kept && e.1 in kept ensures OrdinaryEdge(e, s.edgeAttrs[e], upper) {
      var c := Image(f, e);
      assert DrawnFrom(s.edgeAttrs, kept, upper, c);
      var e' :| e' in s.edgeAttrs && e'.0 in kept && e'.1 in kept && (c.2 == upper(e'.2) || "_type" in s.edgeAttrs[e']);
      assert "_type" in RELATION_FIELDS;
      assert upper(upper(e'.2)) == upper(e'.2);
    }
  }

  /** The relations between migrated nodes. */
  function KeptEdges(edges: set<EdgeKey>, kept: set<NodeId>): set<EdgeKey> {
    set e | e in edges && e.0 in kept && e.1 in kept
  }

  /** How many relations were migrated and skipped while those in `rest` are left. */
  ghost predicate EdgesCounted(edges: set<EdgeKey>, kept: set<NodeId>, rest: set<EdgeKey>, migrated: nat, skipped: nat) {
    && rest <= edges && migrated + skipped + |rest| == |edges|
    && migrated + |KeptEdges(rest, kept)| == |KeptEdges(edges, kept)|
  }

  lemma EdgeCounted(edges: set<EdgeKey>, kept: set<NodeId>, rest: set<EdgeKey>, migrated: nat, skipped: nat, e: EdgeKey)
    requires EdgesCounted(edges, kept, rest, migrated, skipped) && e in rest
    ensures if e.0 in kept && e.1 in kept then EdgesCounted(edges, kept, rest - {e}, migrated + 1, skipped)
            else EdgesCounted(edges, kept, rest - {e}, migrated, skipped + 1)
  {
    assert KeptEdges(rest - {e}, kept) == KeptEdges(rest, kept) - {e};
    assert e in KeptEdges(rest, kept) <==> e.0 in kept && e.1 in kept;
  }

  lemma AllEdgesCounted(edges: set<EdgeKey>, kept: set<NodeId>, migrated: nat, skipped: nat)
    ensures EdgesCounted(edges, kept, edges, 0, 0)
    ensures EdgesCounted(edges, kept, {}, migrated, skipped) ==> migrated + skipped == |edges| && migrated == |KeptEdges(edges, kept)|
  {
    assert KeptEdges({}, kept) == {};
  }

  /** The relations that were migrated, those in `rest` being left, have names that objects can take. */
  ghost predicate NamesFree(edges: map<EdgeKey, Attrs>, kept: set<NodeId>, rest: set<EdgeKey>) {
    forall e | e in edges && e !in rest && e.0 in kept && e.1 in kept :: edges[e].Keys !! NO_RELATION_NAMES
  }

  lemma NoneLeft(edges: map<EdgeKey, Attrs>, kept: set<NodeId>)
    ensures NamesFree(edges, kept, edges.Keys)
    ensures NamesFree(edges, kept, {}) ==> forall e | e in edges && e.0 in kept && e.1 in kept :: edges[e].Keys !! NO_RELATION_NAMES
  {
  }

  lemma NamesFreeMore(edges: map<EdgeKey, Attrs>, kept: set<NodeId>, rest: set<EdgeKey>, e: EdgeKey)
    requires NamesFree(edges, kept, rest) && e in edges
    requires e.0 in kept && e.1 in kept ==> edges[e].Keys !! NO_RELATION_NAMES
    ensures NamesFree(edges, kept, rest - {e})
  {
  }

  /** Phase 2: the relations whose ends were both migrated. `done0` are those already copied. */
  method MigrateEdges(source: Graph, target: Graph, identities: map<NodeId, End>, update: bool, upper: string -> string, ghost f: Ids,
                      ghost done0: set<EdgeKey>)
    returns (r: Result<(nat, nat), StoreError>)
    requires source != target && source.Valid() && target.Valid()
    modifies target
    ensures r.Ok? ==> target.Valid() && r.value.0 + r.value.1 == |source.edgeAttrs|
    ensures r.Ok? ==> r.value.0 == |KeptEdges(source.edgeAttrs.Keys, identities.Keys)|
    ensures r.Ok? ==> EdgePhase(source.View(), f, identities, update, old(target.View()), target.View(), upper, done0, {})
    ensures update && CopyReady(source.View(), f, identities, upper, old(target.View())) ==> r.Ok?
    ensures r.Ok? && old(target.edgeAttrs) == map[] ==> Drawn(source.edgeAttrs, identities.Keys, upper, target.edgeAttrs)
    ensures r.Ok? ==> forall e | e in source.edgeAttrs && e.0 in identities && e.1 in identities :: source.edgeAttrs[e].Keys !! NO_RELATION_NAMES
  {
    ghost var s, before := source.View(), target.View();
    hide EdgePhase, CopyReady, Consistent, Named, HasKey, Unresolved, MakeRelation;
    EdgePhaseStart(s, f, identities, update, before, upper, done0);
    assert before.edgeAttrs == map[] ==> Drawn(s.edgeAttrs, identities.Keys, upper, before.edgeAttrs);
    hide Drawn, KeptEdges;
    var migrated, skipped := 0, 0;
    var rest := source.edgeAttrs.Keys;
    AllEdgesCounted(rest, identities.Keys, 0, 0);
    NoneLeft(s.edgeAttrs, identities.Keys);
    hide EdgesCounted, NamesFree;
    while rest != {}
      invariant rest <= s.edgeAttrs.Keys && source.View() == s && target.Valid()
      invariant EdgesCounted(s.edgeAttrs.Keys, identities.Keys, rest, migrated, skipped)
      invariant EdgePhase(s, f, identities, update, before, target.View(), upper, done0, rest)
      invariant before.edgeAttrs == map[] ==> Drawn(s.edgeAttrs, identities.Keys, upper, target.edgeAttrs)
      invariant NamesFree(s.edgeAttrs, identities.Keys, rest)
      decreases rest
    {
      var e :| e in rest;
      EdgeCounted(s.edgeAttrs.Keys, identities.Keys, rest, migrated, skipped, e);
      if e.0 !in identities || e.1 !in identities {
        EdgePhaseSkip(s, f, identities, update, before, target.View(), upper, done0, rest, e);
        skipped := skipped + 1;
      } else {
        var inserted := MigrateEdge(source, target, identities, update, upper, f, done0, before, rest, e);
        if inserted.Err? { return Err(inserted.error); }
        migrated := migrated + 1;
      }
      NamesFreeMore(s.edgeAttrs, identities.Keys, rest, e);
      rest := rest - {e};
    }
    AllEdgesCounted(s.edgeAttrs.Keys, identities.Keys, migrated, skipped);
    return Ok((migrated, skipped));
  }

  method MigrateEdge(source: Graph, target: Graph, identities: map<NodeId, End>, update: bool, upper: string -> string, ghost f: Ids,
                     ghost done0: set<EdgeKey>, ghost before: Store, ghost rest: set<EdgeKey>, e: EdgeKey)
    returns (r: Result<EdgeKey, StoreError>)
    requires source != target && source.Valid() && target.Valid() && e in rest && rest <= source.edgeAttrs.Keys
    requires e.0 in identities && e.1 in identities
    requires EdgePhase(source.View(), f, identities, update, before, target.View(), upper, done0, rest)
    modifies target
    ensures r.Ok? ==> target.Valid() && EdgePhase(source.View(), f, identities, update, before, target.View(), upper, done0, rest - {e})
    ensures update && CopyReady(source.View(), f, identities, upper, before) ==> r.Ok?
    ensures r.Ok? ==> source.edgeAttrs[e].Keys !! NO_RELATION_NAMES
    ensures r.Ok? && Drawn(source.edgeAttrs, identities.Keys, upper, old(target.edgeAttrs)) ==>
              Drawn(source.edgeAttrs, identities.Keys, upper, target.edgeAttrs)
  {
    ghost var s, now := source.View(), target.View();
    var made := MakeRelation(identities[e.0], identities[e.1], e.2, source.edgeAttrs[e], upper);
    assert made.Ok? ==> s.edgeAttrs[e].Keys !! NO_RELATION_NAMES;
    hide EdgePhase, CopyReady, Consistent, Named, HasKey, Unresolved, MakeRelation, Drawn;
    if made.Err? {
      if update && CopyReady(s, f, identities, upper, before) { ReadyIsMade(s, f, identities, upper, before, e); }
      return Err(made.error);
    }
    var rel := made.value;
    r := target.InsertRelation(rel.src, rel.dst, rel.relType, rel.attrs, update, false);
    EdgePhaseStep(s, f, identities, update, before, now, target.View(), upper, done0, rest, e, rel, r);
    if r.Ok? && Drawn(s.edgeAttrs, identities.Keys, upper, now.edgeAttrs) {
      DrawnMore(s.edgeAttrs, identities.Keys, upper, now.edgeAttrs, e, identities[e.0], identities[e.1], rel, r.value);
    }
  }

  // --- The whole run -------------------------------------------------------

  /** What can be checked before the call: the names and types of what is kept are ordinary. */
  predicate Ordinary(s: Store, keep: Attrs -> bool, upper: string -> string) {
    OrdinaryNodes(s.nodeAttrs, keep) && OrdinaryEdges(s.edgeAttrs, KeptNodes(s.nodeAttrs, keep), upper)
  }

  ghost predicate Idempotent(upper: string -> string) {
    forall t :: upper(upper(t)) == upper(t)
  }

  /** The first run, into an empty store. */
  ghost predicate Fresh(s: Store, update: bool, before: Store) {
    update && Migratable(s.nodeAttrs) && before.nodeAttrs == map[]
  }

  /** A run onto the copy an earlier run made; there is something in it. */
  ghost predicate SecondRun(s: Store, keep: Attrs -> bool, update: bool, upper: string -> string, f0: Ids, before: Store) {
    && update && Migratable(s.nodeAttrs) && Ordinary(s, keep, upper) && Isomorphic(s, f0, before) && CopiesKept(s.nodeAttrs, keep, f0)
    && before.nodeAttrs != map[]
  }

  /** `f` has a copy of exactly the nodes to keep. */
  ghost predicate CopiesKept(nodes: map<NodeId, Attrs>, keep: Attrs -> bool, f: Ids) {
    forall n :: n in f <==> n in nodes && keep(nodes[n])
  }

  ghost predicate Faithful(s: Store, keep: Attrs -> bool, f: Ids, target: Store) {
    Isomorphic(s, f, target) && CopiesKept(s.nodeAttrs, keep, f)
  }

  /** `migrate` without filters on relations and with errors raised: the write guard undoes a failed
      run. Into an empty store it makes an isomorphic copy of what is kept if and only if names and types
      are ordinary; run again, it changes nothing; what it migrated and what it skipped is always what it
      read. */
  method Migrate(source: Graph, target: Graph, keep: Attrs -> bool, update: bool, upper: string -> string, ghost f0: Ids)
    returns (r: Result<Stats, StoreError>, ghost f: Ids)
    requires source != target && source.Valid() && target.Valid()
    modifies target
    ensures target.Valid() && (r.Err? ==> target.View() == old(target.View()))
    ensures r.Ok? ==> r.value.nodesMigrated + r.value.nodesSkipped == |source.nodeAttrs|
                      && r.value.edgesMigrated + r.value.edgesSkipped == |source.edgeAttrs|
    ensures var kept := KeptNodes(source.nodeAttrs, keep);
            r.Ok? ==> r.value.nodesMigrated == |kept| && r.value.edgesMigrated == |KeptEdges(source.edgeAttrs.Keys, kept)|
    ensures Fresh(source.View(), update, old(target.View())) && Ordinary(source.View(), keep, upper) ==>
              r.Ok? && Faithful(source.View(), keep, f, target.View())
    ensures Fresh(source.View(), update, old(target.View())) && Idempotent(upper) ==>
              (Ordinary(source.View(), keep, upper) <==> r.Ok? && exists g: Ids :: Faithful(source.View(), keep, g, target.View()))
    ensures SecondRun(source.View(), keep, update, upper, f0, old(target.View())) ==>
              r.Ok? && target.nodeAttrs == old(target.nodeAttrs) && target.edgeAttrs == old(target.edgeAttrs)
  {
    var snapshot := target.View();
    ghost var s := source.View();
    EmptyHasNoEdges(snapshot);
    hide Consistent, Regular, EndOf, Migratable, IntoEmpty, OntoCopy, CopyReady, EdgePhase, Isomorphic, NodesCopied, EdgesCopied,
         SecondRun, CopiesKept, Faithful, Ordinary, OrdinaryNodes, Drawn, Idempotent, KeptEdges;
    SecondRunIsOntoCopy(s, keep, update, upper, f0, snapshot);
    FreshIsIntoEmpty(s, keep, update, upper, snapshot);
    var nodes, migrated, skipped;
    nodes, migrated, skipped, f := MigrateNodes(source, target, keep, update, f0);
    if nodes.Err? {
      NotDone(s, keep, update, upper, f0, snapshot, target.View(), f);
      RunMeans(s, keep, update, upper, f0, snapshot, target.View(), f, false);
      target.Restore(snapshot);
      return Err(nodes.error), f;
    }
    NodesAreReady(s, keep, update, upper, f0, snapshot, target.View(), nodes.value, f);
    var edges := FinishMigration(source, target, nodes.value, keep, update, upper, f0, f, snapshot);
    RunMeans(s, keep, update, upper, f0, snapshot, target.View(), f, edges.Ok?);
    if edges.Err? {
      target.Restore(snapshot);
      return Err(edges.error), f;
    }
    return Ok(Stats(migrated, skipped, edges.value.0, edges.value.1)), f;
  }

  /** The nodes are in place, for the first run or the second. */
  ghost predicate Halfway(s: Store, keep: Attrs -> bool, update: bool, upper: string -> string, f0: Ids, before: Store, middle: Store,
                          identities: map<NodeId, End>, f: Ids)
  {
    && identities.Keys == KeptNodes(s.nodeAttrs, keep) && (before.nodeAttrs == map[] ==> before.edgeAttrs == map[])
    && OrdinaryNodes(s.nodeAttrs, keep)
    && (IntoEmpty(s.nodeAttrs, keep, update, before) ==> middle.edgeAttrs == before.edgeAttrs)
    && (IntoEmpty(s.nodeAttrs, keep, update, before) && Ordinary(s, keep, upper) ==>
          && update && CopyReady(s, f, identities, upper, middle) && EdgesCopied(s.edgeAttrs, {}, f, middle.edgeAttrs)
          && CopiesKept(s.nodeAttrs, keep, f))
    && (SecondRun(s, keep, update, upper, f0, before) ==>
          && update && CopyReady(s, f0, identities, upper, middle) && EdgesCopied(s.edgeAttrs, s.edgeAttrs.Keys, f0, middle.edgeAttrs)
          && middle.nodeAttrs == before.nodeAttrs && middle.edgeAttrs == before.edgeAttrs
          && !IntoEmpty(s.nodeAttrs, keep, update, before))
  }

  /** What a run has come to. */
  ghost predicate RunDone(s: Store, keep: Attrs -> bool, update: bool, upper: string -> string, f0: Ids, before: Store, after: Store, f: Ids, ok: bool)
  {
    && (Fresh(s, update, before) && Ordinary(s, keep, upper) ==> ok && Faithful(s, keep, f, after))
    && (Fresh(s, update, before) && Idempotent(upper) && ok && (exists g: Ids :: Faithful(s, keep, g, after)) ==> Ordinary(s, keep, upper))
    && (SecondRun(s, keep, update, upper, f0, before) ==> ok && after.nodeAttrs == before.nodeAttrs && after.edgeAttrs == before.edgeAttrs)
  }

  method FinishMigration(source: Graph, target: Graph, identities: map<NodeId, End>, keep: Attrs -> bool, update: bool, upper: string -> string,
                         ghost f0: Ids, ghost f: Ids, ghost before: Store)
    returns (r: Result<(nat, nat), StoreError>)
    requires source != target && source.Valid() && target.Valid()
    requires Halfway(source.View(), keep, update, upper, f0, before, target.View(), identities, f)
    modifies target
    ensures r.Ok? ==> target.Valid() && r.value.0 + r.value.1 == |source.edgeAttrs|
    ensures r.Ok? ==> r.value.0 == |KeptEdges(source.edgeAttrs.Keys, identities.Keys)|
    ensures RunDone(source.View(), keep, update, upper, f0, before, target.View(), f, r.Ok?)
  {
    ghost var s, middle := source.View(), target.View();
    ghost var first := IntoEmpty(s.nodeAttrs, keep, update, before);
    ghost var known := if first then f else f0;
    ghost var done0: set<EdgeKey> := if first then {} else s.edgeAttrs.Keys;
    hide *;
    r := MigrateEdges(source, target, identities, update, upper, known, done0);
    if r.Err? {
      EdgesFailed(s, keep, update, upper, f0, before, middle, target.View(), identities, f);
    } else {
      EdgesMigrated(s, keep, update, upper, f0, before, middle, target.View(), identities, f);
    }
  }

  lemma EdgesFailed(s: Store, keep: Attrs -> bool, update: bool, upper: string -> string, f0: Ids, before: Store, middle: Store, after: Store,
                    identities: map<NodeId, End>, f: Ids)
    requires Halfway(s, keep, update, upper, f0, before, middle, identities, f)
    requires !(update && CopyReady(s, if IntoEmpty(s.nodeAttrs, keep, update, before) then f else f0, identities, upper, middle))
    ensures RunDone(s, keep, update, upper, f0, before, after, f, false)
  {
    hide CopyReady, EdgesCopied, CopiesKept, Ordinary, OrdinaryNodes, IntoEmpty, SecondRun, KeptNodes, RunDone;
    NotDone(s, keep, update, upper, f0, before, after, f);
  }

  lemma EdgesMigrated(s: Store, keep: Attrs -> bool, update: bool, upper: string -> string, f0: Ids, before: Store, middle: Store, after: Store,
                      identities: map<NodeId, End>, f: Ids)
    requires Halfway(s, keep, update, upper, f0, before, middle, identities, f)
    requires var first := IntoEmpty(s.nodeAttrs, keep, update, before);
             EdgePhase(s, if first then f else f0, identities, update, middle, after, upper, if first then {} else s.edgeAttrs.Keys, {})
    requires middle.edgeAttrs == map[] ==> Drawn(s.edgeAttrs, identities.Keys, upper, after.edgeAttrs)
    requires forall e | e in s.edgeAttrs && e.0 in identities && e.1 in identities :: s.edgeAttrs[e].Keys !! NO_RELATION_NAMES
    ensures RunDone(s, keep, update, upper, f0, before, after, f, true)
  {
    hide CopyReady, EdgePhase, EdgesCopied, CopiesKept, Faithful, Ordinary, OrdinaryNodes, Drawn, IntoEmpty, SecondRun, KeptNodes, RunDone, Fresh,
         Idempotent;
    EdgesAreDone(s, keep, update, upper, f0, before, middle, after, identities, f);
    OnlyOrdinary(s, keep, update, upper, before, middle, after, identities);
    AllDone(s, keep, update, upper, f0, before, after, f);
  }

  lemma NotDone(s: Store, keep: Attrs -> bool, update: bool, upper: string -> string, f0: Ids, before: Store, after: Store, f: Ids)
    requires !(IntoEmpty(s.nodeAttrs, keep, update, before) && Ordinary(s, keep, upper)) && !SecondRun(s, keep, update, upper, f0, before)
    ensures RunDone(s, keep, update, upper, f0, before, after, f, false)
  {
    FreshIsIntoEmpty(s, keep, update, upper, before);
    hide IntoEmpty, Ordinary, SecondRun, Fresh;
  }

  lemma AllDone(s: Store, keep: Attrs -> bool, update: bool, upper: string -> string, f0: Ids, before: Store, after: Store, f: Ids)
    requires IntoEmpty(s.nodeAttrs, keep, update, before) && Ordinary(s, keep, upper) ==> Faithful(s, keep, f, after)
    requires SecondRun(s, keep, update, upper, f0, before) ==> after.nodeAttrs == before.nodeAttrs && after.edgeAttrs == before.edgeAttrs
    requires Fresh(s, update, before) && Idempotent(upper) && (exists g: Ids :: Faithful(s, keep, g, after)) ==> Ordinary(s, keep, upper)
    ensures RunDone(s, keep, update, upper, f0, before, after, f, true)
  {
    FreshIsIntoEmpty(s, keep, update, upper, before);
    hide IntoEmpty, Ordinary, SecondRun, Fresh, Faithful, Idempotent;
  }

  lemma RunMeans(s: Store, keep: Attrs -> bool, update: bool, upper: string -> string, f0: Ids, before: Store, after: Store, f: Ids, ok: bool)
    requires RunDone(s, keep, update, upper, f0, before, after, f, ok)
    ensures Fresh(s, update, before) && Ordinary(s, keep, upper) ==> ok && Faithful(s, keep, f, after)
    ensures Fresh(s, update, before) && Idempotent(upper) ==>
              (Ordinary(s, keep, upper) <==> ok && exists g: Ids :: Faithful(s, keep, g, after))
    ensures SecondRun(s, keep, update, upper, f0, before) ==> ok && after.nodeAttrs == before.nodeAttrs && after.edgeAttrs == before.edgeAttrs
  {
    hide Ordinary, SecondRun, Fresh, Faithful, Idempotent;
  }

  lemma SecondRunIsOntoCopy(s: Store, keep: Attrs -> bool, update: bool, upper: string -> string, f0: Ids, before: Store)
    ensures SecondRun(s, keep, update, upper, f0, before) ==> OntoCopy(s.nodeAttrs, keep, update, f0, before)
    ensures SecondRun(s, keep, update, upper, f0, before) ==> !IntoEmpty(s.nodeAttrs, keep, update, before)
  {
    hide NodesCopied, EdgesCopied, Migratable, OrdinaryNodes, OrdinaryEdges;
  }

  lemma FreshIsIntoEmpty(s: Store, keep: Attrs -> bool, update: bool, upper: string -> string, before: Store)
    ensures Fresh(s, update, before) && Ordinary(s, keep, upper) ==> IntoEmpty(s.nodeAttrs, keep, update, before)
  {
    hide Migratable, OrdinaryNodes, OrdinaryEdges;
  }

  lemma NodesAreReady(s: Store, keep: Attrs -> bool, update: bool, upper: string -> string, f0: Ids, before: Store, middle: Store,
                      identities: map<NodeId, End>, f: Ids)
    requires identities == map n | n in s.nodeAttrs && keep(s.nodeAttrs[n]) :: EndOf(s.nodeAttrs[n])
    requires before.nodeAttrs == map[] ==> before.edgeAttrs == map[]
    requires IntoEmpty(s.nodeAttrs, keep, update, before) ==>
               f.Keys == identities.Keys && NodesCopied(s.nodeAttrs, f, middle.nodeAttrs) && middle.edgeAttrs == before.edgeAttrs
    requires OntoCopy(s.nodeAttrs, keep, update, f0, before) ==>
               middle.nodeAttrs == before.nodeAttrs && middle.edgeAttrs == before.edgeAttrs
    ensures identities.Keys == KeptNodes(s.nodeAttrs, keep)
    ensures IntoEmpty(s.nodeAttrs, keep, update, before) && Ordinary(s, keep, upper) ==>
              && update && CopyReady(s, f, identities, upper, middle) && EdgesCopied(s.edgeAttrs, {}, f, middle.edgeAttrs)
              && CopiesKept(s.nodeAttrs, keep, f)
    ensures SecondRun(s, keep, update, upper, f0, before) ==>
              update && CopyReady(s, f0, identities, upper, middle) && EdgesCopied(s.edgeAttrs, s.edgeAttrs.Keys, f0, middle.edgeAttrs)
              && middle.nodeAttrs == before.nodeAttrs && middle.edgeAttrs == before.edgeAttrs
  {
    hide NodesCopied, EdgesCopied, Migratable, EndOf, OrdinaryNodes, OrdinaryEdges;
    NothingToCopy(s.edgeAttrs, f);
    assert identities.Keys == KeptNodes(s.nodeAttrs, keep);
    hide KeptNodes;
    if SecondRun(s, keep, update, upper, f0, before) {
      assert OntoCopy(s.nodeAttrs, keep, update, f0, before);
      assert f0.Keys == identities.Keys;
    }
  }

  lemma EdgesAreDone(s: Store, keep: Attrs -> bool, update: bool, upper: string -> string, f0: Ids, before: Store, middle: Store, after: Store,
                     identities: map<NodeId, End>, f: Ids)
    requires IntoEmpty(s.nodeAttrs, keep, update, before) && Ordinary(s, keep, upper) ==>
               && update && CopyReady(s, f, identities, upper, middle) && EdgesCopied(s.edgeAttrs, {}, f, middle.edgeAttrs)
               && EdgePhase(s, f, identities, update, middle, after, upper, {}, {}) && CopiesKept(s.nodeAttrs, keep, f)
    requires SecondRun(s, keep, update, upper, f0, before) ==>
               && update && CopyReady(s, f0, identities, upper, middle) && EdgesCopied(s.edgeAttrs, s.edgeAttrs.Keys, f0, middle.edgeAttrs)
               && middle.nodeAttrs == before.nodeAttrs && middle.edgeAttrs == before.edgeAttrs
               && EdgePhase(s, f0, identities, update, middle, after, upper, s.edgeAttrs.Keys, {})
    ensures IntoEmpty(s.nodeAttrs, keep, update, before) && Ordinary(s, keep, upper) ==> Faithful(s, keep, f, after)
    ensures SecondRun(s, keep, update, upper, f0, before) ==>
              after.nodeAttrs == before.nodeAttrs && after.edgeAttrs == before.edgeAttrs
  {
    hide NodesCopied, EdgesCopied, Migratable, EndOf, IntoEmpty, SecondRun, Ordinary, CopiesKept;
    var none: set<EdgeKey> := {};
    assert none + (s.edgeAttrs.Keys - none) == s.edgeAttrs.Keys;
  }

  /** A run that made a faithful copy had nothing but ordinary names and types to copy. */
  lemma OnlyOrdinary(s: Store, keep: Attrs -> bool, update: bool, upper: string -> string, before: Store, middle: Store, after: Store,
                     identities: map<NodeId, End>)
    requires identities.Keys == KeptNodes(s.nodeAttrs, keep) && OrdinaryNodes(s.nodeAttrs, keep)
    requires before.nodeAttrs == map[] ==> before.edgeAttrs == map[]
    requires IntoEmpty(s.nodeAttrs, keep, update, before) ==> middle.edgeAttrs == before.edgeAttrs
    requires middle.edgeAttrs == map[] ==> Drawn(s.edgeAttrs, identities.Keys, upper, after.edgeAttrs)
    requires forall e | e in s.edgeAttrs && e.0 in identities && e.1 in identities :: s.edgeAttrs[e].Keys !! NO_RELATION_NAMES
    ensures Fresh(s, update, before) && Idempotent(upper) && (exists g: Ids :: Faithful(s, keep, g, after)) ==> Ordinary(s, keep, upper)
  {
    hide Migratable, OrdinaryNodes, Drawn, Isomorphic, OrdinaryEdges;
    if Fresh(s, update, before) && Idempotent(upper) && exists g: Ids :: Faithful(s, keep, g, after) {
      var g: Ids :| Faithful(s, keep, g, after);
      assert g.Keys == identities.Keys;
      DrawnIsOrdinary(s, identities.Keys, upper, after, g);
    }
  }

  lemma EmptyHasNoEdges(s: Store)
    requires Consistent(s)
    ensures s.nodeAttrs == map[] ==> s.edgeAttrs == map[]
  {
    if s.nodeAttrs == map[] { assert forall e | e in s.edgeAttrs :: e.0 in s.nodeAttrs; }
  }

  lemma NothingToCopy(edges: map<EdgeKey, Attrs>, f: Ids)
    ensures EdgesCopied(edges, {}, f, map[])
  {
  }

  // --- Where it goes wrong -------------------------------------------------

  /** A node that can be taken apart, with one property more. */
  function Sample(name: string): Attrs {
    map["pk" := Dict(map["id" := Int(1)]), "main_label" := Str("Page"), "labels" := List([Str("Page")]), "id" := Int(1), name := Int(7)]
  }

  /** A property called "self" or "attributes": the node is regular, but no `Node` can be made of it. */
  lemma ReservedProperty()
    ensures Regular(Sample("size")) && NamesOk(Sample("size"))
    ensures forall name | name in {"self", "attributes", ""} :: Regular(Sample(name)) && !NamesOk(Sample(name))
  {
    hide Regular, NamesOk, SplitNodeAttrs, Sample;
    SampleIs("size");
    forall name | name in {"self", "attributes", ""} ensures Regular(Sample(name)) && !NamesOk(Sample(name)) { SampleIs(name); }
  }

  /** A node with a key can be made into an object exactly if it has no property of those names. */
  lemma NamesAre(attrs: Attrs)
    requires Get(attrs, "pk").Dict?
    ensures NamesOk(attrs) <==> "self" !in attrs && "attributes" !in attrs && "" !in attrs
  {
    SplitIs(attrs);
    assert IsProperty("self") && IsProperty("attributes") && IsProperty("");
    hide SplitNodeAttrs, IsProperty;
  }

  /** A relation can be made of attributes with other names than these; three more name what it overwrites. */
  lemma RelationIsMade(src: End, dst: End, relType: string, attrs: Attrs, upper: string -> string)
    ensures (exists k :: k in attrs && k in {"self", "src", "dst", "rel_type", "type", "attributes"}) ==>
              MakeRelation(src, dst, relType, attrs, upper) == Err(BadName)
    ensures attrs.Keys !! {"self", "src", "dst", "rel_type", "type", "attributes", "_src", "_dst", "_type"} ==>
              MakeRelation(src, dst, relType, attrs, upper) == Ok(Rel(src, dst, upper(relType), attrs))
    ensures MakeRelation(src, dst, relType, attrs, upper).Ok? ==>
              var rel := MakeRelation(src, dst, relType, attrs, upper).value;
              && (forall k :: k in rel.attrs <==> k in attrs && k != "_src" && k != "_dst" && k != "_type")
              && (forall k | k in rel.attrs :: rel.attrs[k] == attrs[k])
              && rel.relType == (if "_type" in attrs then TextOf(attrs["_type"]) else upper(relType))
              && ("_src" !in attrs ==> rel.src == src) && ("_dst" !in attrs ==> rel.dst == dst)
  {
    if attrs.Keys !! {"self", "src", "dst", "rel_type", "type", "attributes", "_src", "_dst", "_type"} {
      assert attrs - RELATION_FIELDS == attrs;
    }
  }

  lemma SampleIs(name: string)
    requires name == "size" || name in NO_NODE_NAMES
    ensures Regular(Sample(name)) && (NamesOk(Sample(name)) <==> name == "size")
  {
    var none: seq<string> := [];
    var attrs := Sample(name);
    assert attrs["pk"].entries["id"] == Int(1) && attrs["main_label"] == Str("Page") && attrs["labels"] == List([Str("Page")]);
    assert Texts(["Page"] + none) == [Str("Page")];
    StoredIsRegular(attrs, none);
    hide Regular;
    SampleProps(name);
  }

  lemma SampleProps(name: string)
    requires name == "size" || name in NO_NODE_NAMES
    ensures NamesOk(Sample(name)) <==> name == "size"
  {
    var props := SplitNodeAttrs(Sample(name)).props;
    assert !IsRaw(name) && name !in {"pk", "main_label", "labels"};
    assert name in props;
    assert forall k | k in props :: k == "id" || k == name;
  }

  /** An attribute called "src" or "type": no `Relation` can be made with it; one called "_type" is taken
      for the type. */
  lemma ReservedAttribute(src: End, dst: End, relType: string, upper: string -> string)
    ensures forall name, v: Value | name in {"self", "src", "dst", "rel_type", "type", "attributes"} ::
              MakeRelation(src, dst, relType, map[name := v], upper) == Err(BadName)
    ensures forall t :: MakeRelation(src, dst, relType, map["_type" := Str(t)], upper) == Ok(Rel(src, dst, t, map[]))
  {
    forall name, v: Value | name in NO_RELATION_NAMES ensures MakeRelation(src, dst, relType, map[name := v], upper) == Err(BadName) {
      assert name in map[name := v].Keys;
    }
    forall t ensures MakeRelation(src, dst, relType, map["_type" := Str(t)], upper) == Ok(Rel(src, dst, t, map[])) {
      var attrs: Attrs := map["_type" := Str(t)];
      assert attrs.Keys == {"_type"} && attrs - RELATION_FIELDS == map[];
    }
  }

  /** Types that differ in case only become one relation. */
  lemma TypesCollapse(src: End, dst: End, upper: string -> string)
    requires upper("has") == "HAS" == upper("HAS")
    ensures MakeRelation(src, dst, "has", map[], upper) == MakeRelation(src, dst, "HAS", map[], upper) == Ok(Rel(src, dst, "HAS", map[]))
  {
    var none: Attrs := map[];
    assert none - RELATION_FIELDS == none;
  }
}
