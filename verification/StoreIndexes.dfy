/** The indexes of the in-memory store (cvcdocdb/networkx_graph.py) as values: what each must
    contain, and how the elementary updates keep it. */
module StoreIndexes {
  import opened Common
  import opened Decimals
  import opened Values

  type NodeId = nat
  type EdgeKey = (NodeId, NodeId, string)

  function Incident(id: NodeId, edges: set<EdgeKey>): set<EdgeKey> {
    set e | e in edges && (e.0 == id || e.1 == id)
  }

  function Successors(edges: set<EdgeKey>, id: NodeId): set<NodeId> {
    set e | e in edges && e.0 == id :: e.1
  }

  lemma SuccessorsAre(edges: set<EdgeKey>, id: NodeId)
    ensures forall n | n in Successors(edges, id) :: exists e :: e in edges && e.0 == id && e.1 == n
    ensures forall e | e in edges && e.0 == id :: e.1 in Successors(edges, id)
  {
  }

  // --- The foreign-key index -----------------------------------------------

  datatype Direction = Out | In

  type FkEntry = (NodeId, string, Direction)

  type FkIndex = map<NodeId, set<FkEntry>>

  /** The relation an index entry of `id` stands for. */
  function EdgeOf(id: NodeId, entry: FkEntry): EdgeKey {
    if entry.2 == Out then (id, entry.0, entry.1) else (entry.0, id, entry.1)
  }

  /** The same relation as the other end records it. */
  function Mirror(id: NodeId, entry: FkEntry): FkEntry {
    (id, entry.1, if entry.2 == Out then In else Out)
  }

  predicate FkHas(fk: FkIndex, id: NodeId, entry: FkEntry) {
    id in fk && entry in fk[id]
  }

  /** The index is exactly the incidence relation of `edges`, without empty sets. */
  ghost predicate FkExact(fk: FkIndex, edges: set<EdgeKey>) {
    && (forall id | id in fk :: fk[id] != {})
    && (forall id: NodeId, entry: FkEntry :: FkHas(fk, id, entry) <==> EdgeOf(id, entry) in edges)
  }

  function FkPut(fk: FkIndex, id: NodeId, entry: FkEntry): FkIndex {
    fk[id := (if id in fk then fk[id] else {}) + {entry}]
  }

  /** `discard`, then `del` when the set became empty. */
  function FkDrop(fk: FkIndex, id: NodeId, entry: FkEntry): FkIndex {
    if id !in fk then fk
    else if fk[id] - {entry} == {} then fk - {id}
    else fk[id := fk[id] - {entry}]
  }

  function FkAdd(fk: FkIndex, e: EdgeKey): FkIndex {
    FkPut(FkPut(fk, e.0, (e.1, e.2, Out)), e.1, (e.0, e.2, In))
  }

  function FkRemove(fk: FkIndex, e: EdgeKey): FkIndex {
    FkDrop(FkDrop(fk, e.0, (e.1, e.2, Out)), e.1, (e.0, e.2, In))
  }

  lemma FkPutHas(fk: FkIndex, id: NodeId, entry: FkEntry)
    requires forall n | n in fk :: fk[n] != {}
    ensures forall n | n in FkPut(fk, id, entry) :: FkPut(fk, id, entry)[n] != {}
    ensures forall n: NodeId, x: FkEntry :: FkHas(FkPut(fk, id, entry), n, x) <==> FkHas(fk, n, x) || (n == id && x == entry)
  {
  }

  lemma FkDropHas(fk: FkIndex, id: NodeId, entry: FkEntry)
    requires forall n | n in fk :: fk[n] != {}
    ensures forall n | n in FkDrop(fk, id, entry) :: FkDrop(fk, id, entry)[n] != {}
    ensures forall n: NodeId, x: FkEntry :: FkHas(FkDrop(fk, id, entry), n, x) <==> FkHas(fk, n, x) && !(n == id && x == entry)
  {
    var dropped := FkDrop(fk, id, entry);
    forall n: NodeId, x: FkEntry ensures FkHas(dropped, n, x) <==> FkHas(fk, n, x) && !(n == id && x == entry) {
      if id in fk && n == id { assert x in fk[id] - {entry} <==> x in fk[id] && x != entry; }
    }
  }

  lemma FkAddExact(fk: FkIndex, edges: set<EdgeKey>, e: EdgeKey)
    requires FkExact(fk, edges)
    ensures FkExact(FkAdd(fk, e), edges + {e})
  {
    FkPutHas(fk, e.0, (e.1, e.2, Out));
    FkPutHas(FkPut(fk, e.0, (e.1, e.2, Out)), e.1, (e.0, e.2, In));
    hide FkPut, FkHas;
  }

  lemma FkRemoveExact(fk: FkIndex, edges: set<EdgeKey>, e: EdgeKey)
    requires FkExact(fk, edges)
    ensures FkExact(FkRemove(fk, e), edges - {e})
  {
    FkDropHas(fk, e.0, (e.1, e.2, Out));
    FkDropHas(FkDrop(fk, e.0, (e.1, e.2, Out)), e.1, (e.0, e.2, In));
    hide FkDrop, FkHas;
  }

  lemma FkUnique(fk: FkIndex, fk': FkIndex, edges: set<EdgeKey>)
    requires FkExact(fk, edges) && FkExact(fk', edges)
    ensures fk == fk'
  {
    forall id: NodeId, entry: FkEntry ensures FkHas(fk, id, entry) <==> FkHas(fk', id, entry) { }
    forall id ensures id in fk <==> id in fk' {
      if id in fk { var x :| x in fk[id]; assert FkHas(fk, id, x); assert FkHas(fk', id, x); }
      if id in fk' { var x :| x in fk'[id]; assert FkHas(fk', id, x); assert FkHas(fk, id, x); }
    }
    forall id | id in fk ensures fk[id] == fk'[id] {
      forall x ensures x in fk[id] <==> x in fk'[id] {
        assert FkHas(fk, id, x) <==> FkHas(fk', id, x);
      }
    }
  }

  /** An index from which every entry of `id`, and every entry naming `id`, was taken away. */
  ghost predicate FkWithout(fk: FkIndex, id: NodeId, before: FkIndex) {
    && (forall n | n in fk :: fk[n] != {})
    && forall n: NodeId, entry: FkEntry :: FkHas(fk, n, entry) <==> FkHas(before, n, entry) && n != id && entry.0 != id
  }

  lemma FkWithoutExact(fk: FkIndex, id: NodeId, before: FkIndex, edges: set<EdgeKey>)
    requires FkExact(before, edges) && FkWithout(fk, id, before)
    ensures FkExact(fk, edges - Incident(id, edges))
  {
    forall n: NodeId, entry: FkEntry ensures FkHas(fk, n, entry) <==> EdgeOf(n, entry) in edges - Incident(id, edges) {
      assert FkHas(before, n, entry) <==> EdgeOf(n, entry) in edges;
    }
  }

  // --- Taking a node out of the foreign-key index --------------------------

  /** The index after the mirrors of the entries in `done` were discarded. */
  ghost predicate UnlinkedFrom(fk: FkIndex, before: FkIndex, id: NodeId, done: set<FkEntry>) {
    && (forall n | n in fk :: fk[n] != {})
    && forall n: NodeId, x: FkEntry :: FkHas(fk, n, x) <==> FkHas(before, n, x) && !(x.0 == id && Mirror(n, x) in done)
  }

  lemma UnlinkedStart(fk: FkIndex, edges: set<EdgeKey>, id: NodeId)
    requires FkExact(fk, edges)
    ensures UnlinkedFrom(fk, fk, id, {})
  {
  }

  lemma UnlinkOne(fk: FkIndex, before: FkIndex, id: NodeId, done: set<FkEntry>, entry: FkEntry)
    requires UnlinkedFrom(fk, before, id, done)
    ensures UnlinkedFrom(FkDrop(fk, entry.0, Mirror(id, entry)), before, id, done + {entry})
  {
    FkDropHas(fk, entry.0, Mirror(id, entry));
    var dropped := FkDrop(fk, entry.0, Mirror(id, entry));
    hide FkDrop, FkHas;
    forall n: NodeId, x: FkEntry
      ensures FkHas(dropped, n, x) <==> FkHas(before, n, x) && !(x.0 == id && Mirror(n, x) in done + {entry})
    {
      assert x.0 == id && Mirror(n, x) == entry <==> n == entry.0 && x == Mirror(id, entry);
    }
  }

  function EdgesOf(id: NodeId, entries: set<FkEntry>): set<EdgeKey> {
    set x | x in entries :: EdgeOf(id, x)
  }

  lemma EntriesAreIncident(fk: FkIndex, edges: set<EdgeKey>, id: NodeId, entries: set<FkEntry>)
    requires FkExact(fk, edges) && entries == if id in fk then fk[id] else {}
    ensures EdgesOf(id, entries) == Incident(id, edges)
  {
    forall x | x in entries ensures EdgeOf(id, x) in Incident(id, edges) {
      assert FkHas(fk, id, x);
    }
    forall e | e in Incident(id, edges) ensures e in EdgesOf(id, entries) {
      var x := if e.0 == id then (e.1, e.2, Out) else (e.0, e.2, In);
      assert EdgeOf(id, x) == e;
      assert FkHas(fk, id, x);
    }
  }

  lemma UnlinkedAll(fk: FkIndex, before: FkIndex, edges: set<EdgeKey>, id: NodeId, entries: set<FkEntry>)
    requires FkExact(before, edges) && entries == (if id in before then before[id] else {})
    requires UnlinkedFrom(fk, before, id, entries)
    ensures FkWithout(fk - {id}, id, before)
  {
    forall n: NodeId, x: FkEntry ensures FkHas(fk - {id}, n, x) <==> FkHas(before, n, x) && n != id && x.0 != id {
      assert FkHas(fk - {id}, n, x) <==> n != id && FkHas(fk, n, x);
      if FkHas(before, n, x) && x.0 == id {
        assert EdgeOf(n, x) == EdgeOf(id, Mirror(n, x));
        assert FkHas(before, id, Mirror(n, x));
      }
    }
  }

  // --- The primary-key index -----------------------------------------------

  /** Main label and key fields, the values as their `str()`. */
  type PkKey = (string, map<string, string>)

  type PkIndex = map<PkKey, NodeId>

  /** `str(value)` for the values a key may hold; a container stands for itself only in name. */
  function KeyText(v: Value): string {
    match v
    case Null => "None"
    case Bool(b) => if b then "True" else "False"
    case Int(i) => ShowInt(i)
    case Float(text) => text
    case Str(s) => s
    case DateTime(iso) => iso
    case Date(iso) => iso
    case List(_) => "[...]"
    case Dict(_) => "{...}"
  }

  function KeyFor(mainLabel: string, pk: map<string, Value>): PkKey {
    (mainLabel, map k | k in pk :: KeyText(pk[k]))
  }

  function LabelText(attrs: Attrs): string {
    if "main_label" in attrs then KeyText(attrs["main_label"]) else ""
  }

  /** The index key of stored attributes; a node whose `pk` is no dict has none. */
  function KeyOf(attrs: Attrs): Option<PkKey> {
    var pk := Get(attrs, "pk");
    if pk.Dict? then Some(KeyFor(LabelText(attrs), pk.entries)) else None
  }

  ghost predicate PkExact(pk: PkIndex, nodes: map<NodeId, Attrs>) {
    && (forall k | k in pk :: pk[k] in nodes && KeyOf(nodes[pk[k]]) == Some(k))
    && (forall n | n in nodes && KeyOf(nodes[n]).Some? :: KeyOf(nodes[n]).value in pk && pk[KeyOf(nodes[n]).value] == n)
  }

  /** No two nodes share a key. */
  lemma KeysAreUnique(pk: PkIndex, nodes: map<NodeId, Attrs>, a: NodeId, b: NodeId)
    requires PkExact(pk, nodes) && a in nodes && b in nodes && KeyOf(nodes[a]).Some? && KeyOf(nodes[a]) == KeyOf(nodes[b])
    ensures a == b
  {
    assert pk[KeyOf(nodes[a]).value] == a;
  }

  lemma PkUnique(pk: PkIndex, pk': PkIndex, nodes: map<NodeId, Attrs>)
    requires PkExact(pk, nodes) && PkExact(pk', nodes)
    ensures pk == pk'
  {
    hide KeyOf;
    forall k | k in pk ensures k in pk' && pk'[k] == pk[k] {
      var n := pk[k];
      assert KeyOf(nodes[n]) == Some(k);
    }
    forall k | k in pk' ensures k in pk {
      var n := pk'[k];
      assert KeyOf(nodes[n]) == Some(k);
    }
  }

  function PkDrop(pk: PkIndex, id: NodeId, attrs: Attrs): PkIndex {
    var key := KeyOf(attrs);
    if key.Some? && key.value in pk && pk[key.value] == id then pk - {key.value} else pk
  }

  lemma PkDropExact(pk: PkIndex, nodes: map<NodeId, Attrs>, id: NodeId)
    requires PkExact(pk, nodes) && id in nodes
    ensures PkExact(PkDrop(pk, id, nodes[id]), nodes - {id})
  {
    hide KeyOf;
    var dropped := PkDrop(pk, id, nodes[id]);
    forall k | k in dropped ensures dropped[k] in nodes - {id} && KeyOf(nodes[dropped[k]]) == Some(k) {
      assert KeyOf(nodes[pk[k]]) == Some(k);
    }
  }

  function PkPut(pk: PkIndex, id: NodeId, attrs: Attrs): PkIndex {
    var key := KeyOf(attrs);
    if key.Some? then pk[key.value := id] else pk
  }

  /** Can the key of `attrs` be given to `id`? */
  predicate KeyFree(pk: PkIndex, id: NodeId, attrs: Attrs) {
    var key := KeyOf(attrs);
    key.Some? && key.value in pk ==> pk[key.value] == id
  }

  lemma PkPutExact(pk: PkIndex, nodes: map<NodeId, Attrs>, id: NodeId, attrs: Attrs)
    requires PkExact(pk, nodes) && id !in nodes && KeyFree(pk, id, attrs)
    ensures PkExact(PkPut(pk, id, attrs), nodes[id := attrs])
  {
    hide KeyOf;
  }

  // --- The property index --------------------------------------------------

  type PropKey = (string, Value)

  type PropIndex = map<PropKey, set<NodeId>>

  /** `(name, _normalize_index_value(value))`. */
  function KeyOfProp(name: string, value: Value): PropKey {
    (name, Normal(value))
  }

  /** Does a node have a property value? `pk` is not indexed. */
  predicate HasValue(nodes: map<NodeId, Attrs>, k: PropKey, id: NodeId) {
    id in nodes && Carries(nodes[id], k)
  }

  predicate Carries(attrs: Attrs, k: PropKey) {
    k.0 != "pk" && k.0 in attrs && Normal(attrs[k.0]) == k.1
  }

  predicate PropHas(prop: PropIndex, k: PropKey, id: NodeId) {
    k in prop && id in prop[k]
  }

  /** The index lists exactly the nodes that have each value, without empty sets. */
  ghost predicate PropExact(prop: PropIndex, nodes: map<NodeId, Attrs>) {
    && (forall k | k in prop :: prop[k] != {})
    && (forall k: PropKey, id: NodeId :: PropHas(prop, k, id) <==> HasValue(nodes, k, id))
  }

  lemma SomeId(ids: set<NodeId>) returns (id: NodeId)
    requires ids != {}
    ensures id in ids
  {
    id :| id in ids;
  }

  lemma SameIds(a: set<NodeId>, b: set<NodeId>)
    requires forall id: NodeId :: id in a <==> id in b
    ensures a == b
  {
  }

  lemma PropKeysWithin(prop: PropIndex, prop': PropIndex, nodes: map<NodeId, Attrs>)
    requires PropExact(prop, nodes) && PropExact(prop', nodes)
    ensures forall k | k in prop :: k in prop'
  {
    forall k | k in prop ensures k in prop' {
      var id := SomeId(prop[k]);
      assert PropHas(prop, k, id);
      assert PropHas(prop', k, id);
    }
  }

  lemma PropUnique(prop: PropIndex, prop': PropIndex, nodes: map<NodeId, Attrs>)
    requires PropExact(prop, nodes) && PropExact(prop', nodes)
    ensures prop == prop'
  {
    PropKeysWithin(prop, prop', nodes);
    PropKeysWithin(prop', prop, nodes);
    forall k | k in prop ensures prop[k] == prop'[k] {
      forall id ensures id in prop[k] <==> id in prop'[k] {
        assert PropHas(prop, k, id) <==> PropHas(prop', k, id);
      }
    }
  }

  function PropPutOne(prop: PropIndex, k: PropKey, id: NodeId): PropIndex {
    prop[k := (if k in prop then prop[k] else {}) + {id}]
  }

  function PropDropOne(prop: PropIndex, k: PropKey, id: NodeId): PropIndex {
    if k !in prop then prop
    else if prop[k] - {id} == {} then prop - {k}
    else prop[k := prop[k] - {id}]
  }

  /** `prop` after `id` was entered under the attributes named in `done`. */
  ghost predicate PropEntered(prop: PropIndex, before: PropIndex, id: NodeId, attrs: Attrs, done: set<string>) {
    && (forall k | k in prop :: prop[k] != {})
    && forall k: PropKey, n: NodeId :: PropHas(prop, k, n) <==> PropHas(before, k, n) || (n == id && k.0 in done && Carries(attrs, k))
  }

  /** `prop` after `id` was taken out under the attributes named in `done`. */
  ghost predicate PropLeft(prop: PropIndex, before: PropIndex, id: NodeId, attrs: Attrs, done: set<string>) {
    && (forall k | k in prop :: prop[k] != {})
    && forall k: PropKey, n: NodeId :: PropHas(prop, k, n) <==> PropHas(before, k, n) && !(n == id && k.0 in done && Carries(attrs, k))
  }

  lemma PropEnteredOne(prop: PropIndex, before: PropIndex, id: NodeId, attrs: Attrs, done: set<string>, name: string)
    requires PropEntered(prop, before, id, attrs, done) && name in attrs && name != "pk"
    ensures PropEntered(PropPutOne(prop, KeyOfProp(name, attrs[name]), id), before, id, attrs, done + {name})
  {
    var next := PropPutOne(prop, KeyOfProp(name, attrs[name]), id);
    forall k: PropKey, n: NodeId
      ensures PropHas(next, k, n) <==> PropHas(prop, k, n) || (n == id && k == KeyOfProp(name, attrs[name]))
    { }
  }

  lemma PropLeftOne(prop: PropIndex, before: PropIndex, id: NodeId, attrs: Attrs, done: set<string>, name: string)
    requires PropLeft(prop, before, id, attrs, done) && name in attrs && name != "pk"
    ensures PropLeft(PropDropOne(prop, KeyOfProp(name, attrs[name]), id), before, id, attrs, done + {name})
  {
    var key := KeyOfProp(name, attrs[name]);
    var next := PropDropOne(prop, key, id);
    forall k: PropKey, n: NodeId
      ensures PropHas(next, k, n) <==> PropHas(prop, k, n) && !(n == id && k == key)
    {
      if key in prop && k == key { assert n in prop[key] - {id} <==> n in prop[key] && n != id; }
    }
  }

  lemma PropEnteredExact(prop: PropIndex, before: PropIndex, nodes: map<NodeId, Attrs>, id: NodeId, attrs: Attrs)
    requires PropExact(before, nodes) && id !in nodes && PropEntered(prop, before, id, attrs, attrs.Keys - {"pk"})
    ensures PropExact(prop, nodes[id := attrs])
  {
    forall k: PropKey, n: NodeId ensures PropHas(prop, k, n) <==> HasValue(nodes[id := attrs], k, n) {
      assert PropHas(before, k, n) <==> HasValue(nodes, k, n);
    }
  }

  lemma PropLeftExact(prop: PropIndex, before: PropIndex, nodes: map<NodeId, Attrs>, id: NodeId)
    requires PropExact(before, nodes) && id in nodes && PropLeft(prop, before, id, nodes[id], nodes[id].Keys - {"pk"})
    ensures PropExact(prop, nodes - {id})
  {
    forall k: PropKey, n: NodeId ensures PropHas(prop, k, n) <==> HasValue(nodes - {id}, k, n) {
      assert PropHas(before, k, n) <==> HasValue(nodes, k, n);
    }
  }

  /** What an exact index answers is what a scan of the nodes answers. */
  lemma IndexIsScan(prop: PropIndex, nodes: map<NodeId, Attrs>, k: PropKey)
    requires PropExact(prop, nodes)
    ensures (if k in prop then prop[k] else {}) == set n | n in nodes && HasValue(nodes, k, n)
  {
    var found: set<NodeId> := if k in prop then prop[k] else {};
    forall n: NodeId ensures n in found <==> n in nodes && HasValue(nodes, k, n) {
      assert PropHas(prop, k, n) <==> HasValue(nodes, k, n);
    }
    SameIds(found, set n | n in nodes && HasValue(nodes, k, n));
  }

  // --- The whole store -----------------------------------------------------

  /** The six structures and the id counter. */
  datatype Store = Store(
    graphNodes: set<NodeId>,
    graphEdges: set<EdgeKey>,
    nodeAttrs: map<NodeId, Attrs>,
    edgeAttrs: map<EdgeKey, Attrs>,
    nodeCounter: nat,
    fkIndex: FkIndex,
    pkIndex: PkIndex,
    propertyIndex: PropIndex)

  ghost predicate Consistent(s: Store) {
    && s.graphNodes == s.nodeAttrs.Keys
    && s.graphEdges == s.edgeAttrs.Keys
    && (forall e | e in s.edgeAttrs :: e.0 in s.nodeAttrs && e.1 in s.nodeAttrs)
    && FkExact(s.fkIndex, s.edgeAttrs.Keys)
    && PkExact(s.pkIndex, s.nodeAttrs)
    && PropExact(s.propertyIndex, s.nodeAttrs)
    && (forall n | n in s.nodeAttrs :: 1 <= n <= s.nodeCounter)
  }

  /** Nodes, relations and the counter determine everything else. */
  lemma ConsistentUnique(s: Store, s': Store)
    requires Consistent(s) && Consistent(s')
    requires s.nodeAttrs == s'.nodeAttrs && s.edgeAttrs == s'.edgeAttrs && s.nodeCounter == s'.nodeCounter
    ensures s == s'
  {
    FkUnique(s.fkIndex, s'.fkIndex, s.edgeAttrs.Keys);
    PkUnique(s.pkIndex, s'.pkIndex, s.nodeAttrs);
    PropUnique(s.propertyIndex, s'.propertyIndex, s.nodeAttrs);
  }

  const EMPTY_STORE := Store({}, {}, map[], map[], 0, map[], map[], map[])

  /** Without the nodes in `gone` and the relations that touch them. */
  function EdgesWithout(edges: map<EdgeKey, Attrs>, gone: set<NodeId>): map<EdgeKey, Attrs> {
    map e | e in edges && e.0 !in gone && e.1 !in gone :: edges[e]
  }

  lemma EdgesWithoutUnion(edges: map<EdgeKey, Attrs>, a: set<NodeId>, b: set<NodeId>)
    ensures EdgesWithout(EdgesWithout(edges, a), b) == EdgesWithout(edges, a + b)
  {
  }

  lemma EdgesWithoutOne(edges: map<EdgeKey, Attrs>, id: NodeId)
    ensures EdgesWithout(edges, {id}).Keys == edges.Keys - Incident(id, edges.Keys)
  {
  }

  /** The store without the nodes in `gone`: their relations went with them, everything else stayed. */
  ghost predicate Deleted(before: Store, after: Store, gone: set<NodeId>) {
    && Consistent(after) && after.nodeAttrs == before.nodeAttrs - gone && after.edgeAttrs == EdgesWithout(before.edgeAttrs, gone)
    && after.nodeCounter == before.nodeCounter
  }

  lemma DeletedTwice(before: Store, middle: Store, after: Store, a: set<NodeId>, b: set<NodeId>)
    requires Deleted(before, middle, a) && Deleted(middle, after, b)
    ensures Deleted(before, after, a + b)
  {
    EdgesWithoutUnion(before.edgeAttrs, a, b);
    hide Consistent, EdgesWithout;
    assert before.nodeAttrs - a - b == before.nodeAttrs - (a + b);
  }

  /** A delete has one outcome, in all six structures, whichever way it is carried out. */
  lemma DeletesAgree(before: Store, a: Store, b: Store, gone: set<NodeId>)
    requires Deleted(before, a, gone) && Deleted(before, b, gone)
    ensures a == b
  {
    ConsistentUnique(a, b);
  }
}
