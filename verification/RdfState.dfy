/** Reading a graph's state back from its triples (RdfMapping.state_from_triples), and the round trip. */
module RdfState {
  import opened Common
  import opened RdfTerms
  import opened RdfMapping
  import opened Values

  // --- What a state says ---------------------------------------------------

  predicate HoldsIn(s: GraphState, f: Fact) {
    match f
    case Counter(n) => s.counter == n
    case Version(v) => s.version == v
    case MainLabel(id, v) => id in s.nodes && s.nodes[id].mainLabel == v
    case LabelList(id, names) => id in s.nodes && s.nodes[id].labels == names
    case Pk(id, v) => id in s.nodes && s.nodes[id].pk == v
    case Prop(id, name, v) => id in s.nodes && name in s.nodes[id].props && s.nodes[id].props[name] == v
    case Relation(e) => e in s.edges
    case Reified(e) => e in s.edges
    case EdgeProp(e, name, v) => e in s.edges && name in s.edges[e] && s.edges[e][name] == v
    case Nothing => true
  }

  /** Every value of the state survives `encode_value` and `decode_term`. */
  ghost predicate Faithful(json: JsonCodec, s: GraphState) {
    forall f: Fact | HoldsIn(s, f) :: EncodableFact(json, f)
  }

  /** The triples of a state say what holds in it, label triples apart. */
  lemma TripleHolds(ns: string, json: JsonCodec, s: GraphState, t: Triple)
    requires Faithful(json, s) && t in Triples(ns, json, s)
    ensures ReadTriple(ns, json, t).Ok? && HoldsIn(s, ReadTriple(ns, json, t).value)
  {
    if t in MetaTriples(ns, json, s) {
      FactTripleHolds(ns, json, s, if t == TripleOf(ns, json, Counter(s.counter)) then Counter(s.counter) else Version(s.version), t);
    } else if id :| id in s.nodes && t in NodeTriples(ns, json, id, s.nodes[id]) {
      NodeTripleHolds(ns, json, s, id, t);
    } else {
      var e :| e in s.edges && t in EdgeTriples(ns, json, e, s.edges[e]);
      EdgeTripleHolds(ns, json, s, e, t);
    }
  }

  lemma FactTripleHolds(ns: string, json: JsonCodec, s: GraphState, f: Fact, t: Triple)
    requires Faithful(json, s) && f != Nothing && HoldsIn(s, f) && t == TripleOf(ns, json, f)
    ensures ReadTriple(ns, json, t) == Ok(f)
  {
    FactReadBack(ns, json, f);
  }

  /** The fact behind a triple of a node; a label triple has none. */
  lemma NodeTripleFact(ns: string, json: JsonCodec, id: nat, a: NodeAttrs, t: Triple) returns (f: Fact)
    requires t in NodeTriples(ns, json, id, a)
    ensures f == Nothing ==> t.s == NodeTerm(ns, id) && t.p == Uri(RDF_TYPE)
    ensures f == Nothing ==> exists name | name in a.labels :: t.o == Uri(LabelIri(ns, name))
    ensures f != Nothing ==> t == TripleOf(ns, json, f) && HoldsIn(GraphState(map[id := a], map[], 0, ZERO_VERSION), f)
    ensures !f.Counter? && !f.Version?
  {
    var main, labels, pk := MainLabel(id, a.mainLabel), LabelList(id, a.labels), Pk(id, a.pk);
    if t in {TripleOf(ns, json, main)} {
      f := main;
    } else if t in {TripleOf(ns, json, labels)} {
      f := labels;
    } else if t in {TripleOf(ns, json, pk)} {
      f := pk;
    } else if name :| name in a.props && t == TripleOf(ns, json, Prop(id, name, a.props[name])) {
      f := Prop(id, name, a.props[name]);
    } else {
      f := Nothing;
    }
  }

  lemma NodeTripleHolds(ns: string, json: JsonCodec, s: GraphState, id: nat, t: Triple)
    requires Faithful(json, s) && id in s.nodes && t in NodeTriples(ns, json, id, s.nodes[id])
    ensures ReadTriple(ns, json, t).Ok? && HoldsIn(s, ReadTriple(ns, json, t).value)
  {
    var f := NodeTripleFact(ns, json, id, s.nodes[id], t);
    if f == Nothing {
      LabelTripleRead(ns, json, id, t.o);
    } else {
      FactTripleHolds(ns, json, s, f, t);
    }
  }

  lemma LabelTripleRead(ns: string, json: JsonCodec, id: nat, o: Term)
    ensures ReadTriple(ns, json, Triple(NodeTerm(ns, id), Uri(RDF_TYPE), o)) == Ok(Nothing)
  {
    NodeSubject(ns, json, id, RDF_TYPE, o);
  }

  lemma EdgeTripleFact(ns: string, json: JsonCodec, e: EdgeKey, props: map<string, Value>, t: Triple) returns (f: Fact)
    requires t in EdgeTriples(ns, json, e, props)
    ensures f == Relation(e) || f == Reified(e) || (f.EdgeProp? && f.e == e && f.name in props && f.v == props[f.name])
    ensures t == TripleOf(ns, json, f)
  {
    if t in {TripleOf(ns, json, Relation(e))} {
      f := Relation(e);
    } else if t in {TripleOf(ns, json, Reified(e))} {
      f := Reified(e);
    } else {
      var name :| name in props && t == TripleOf(ns, json, EdgeProp(e, name, props[name]));
      f := EdgeProp(e, name, props[name]);
    }
  }

  lemma EdgeTripleHolds(ns: string, json: JsonCodec, s: GraphState, e: EdgeKey, t: Triple)
    requires Faithful(json, s) && e in s.edges && t in EdgeTriples(ns, json, e, s.edges[e])
    ensures ReadTriple(ns, json, t).Ok? && HoldsIn(s, ReadTriple(ns, json, t).value)
  {
    var f := EdgeTripleFact(ns, json, e, s.edges[e], t);
    FactTripleHolds(ns, json, s, f, t);
  }

  lemma FactHasTriple(ns: string, json: JsonCodec, s: GraphState, f: Fact)
    requires f != Nothing && HoldsIn(s, f)
    ensures TripleOf(ns, json, f) in Triples(ns, json, s)
  {
    var t := TripleOf(ns, json, f);
    if f.MainLabel? || f.LabelList? || f.Pk? || f.Prop? {
      assert t in NodeTriples(ns, json, f.id, s.nodes[f.id]);
    } else if f.Relation? || f.Reified? || f.EdgeProp? {
      assert t in EdgeTriples(ns, json, f.e, s.edges[f.e]);
    } else {
      assert t in MetaTriples(ns, json, s);
    }
  }

  // --- Gathering facts -----------------------------------------------------

  datatype NodeMeta = NodeMeta(pk: Option<Value>, mainLabel: Option<Value>, labels: Option<seq<string>>)

  /** The local dicts of `state_from_triples`. */
  datatype Gathered = Gathered(
    counter: int,
    version: Value,
    props: map<nat, map<string, Value>>,
    nodeMeta: map<nat, NodeMeta>,
    edges: set<EdgeKey>,
    edgeProps: map<EdgeKey, map<string, Value>>)

  const NOTHING_READ := Gathered(0, ZERO_VERSION, map[], map[], {}, map[])

  function MetaOf(g: Gathered, id: nat): NodeMeta {
    if id in g.nodeMeta then g.nodeMeta[id] else NodeMeta(None, None, None)
  }

  function PropsOf<K>(m: map<K, map<string, Value>>, k: K): map<string, Value> {
    if k in m then m[k] else map[]
  }

  function Absorb(g: Gathered, f: Fact): Gathered {
    match f
    case Counter(n) => g.(counter := n)
    case Version(v) => g.(version := v)
    case MainLabel(id, v) => g.(nodeMeta := g.nodeMeta[id := MetaOf(g, id).(mainLabel := Some(v))])
    case LabelList(id, names) => g.(nodeMeta := g.nodeMeta[id := MetaOf(g, id).(labels := Some(names))])
    case Pk(id, v) => g.(nodeMeta := g.nodeMeta[id := MetaOf(g, id).(pk := Some(v))])
    case Prop(id, name, v) => g.(props := g.props[id := PropsOf(g.props, id)[name := v]])
    case Relation(e) => g.(edges := g.edges + {e})
    case Reified(e) => g.(edgeProps := g.edgeProps[e := PropsOf(g.edgeProps, e)])
    case EdgeProp(e, name, v) => g.(edgeProps := g.edgeProps[e := PropsOf(g.edgeProps, e)[name := v]])
    case Nothing => g
  }

  /** The state put together from the local dicts, missing entries taking the code's defaults. */
  function Assemble(g: Gathered): GraphState {
    GraphState(
      map id | id in g.props.Keys + g.nodeMeta.Keys ::
        NodeAttrs(GetOr(MetaOf(g, id).pk, Null), GetOr(MetaOf(g, id).mainLabel, Str("")),
                  GetOr(MetaOf(g, id).labels, []), PropsOf(g.props, id)),
      map e | e in g.edges :: PropsOf(g.edgeProps, e),
      g.counter,
      g.version)
  }

  function ReadAll(ns: string, json: JsonCodec, rows: seq<Triple>, g: Gathered): Result<Gathered, DecodeError> {
    if rows == [] then Ok(g)
    else
      var f := ReadTriple(ns, json, rows[0]);
      if f.Err? then Err(f.error) else ReadAll(ns, json, rows[1..], Absorb(g, f.value))
  }

  /** The state a sequence of rows decodes to; a value that cannot be decoded raises. */
  function Decode(ns: string, json: JsonCodec, rows: seq<Triple>): Result<GraphState, DecodeError> {
    var g := ReadAll(ns, json, rows, NOTHING_READ);
    if g.Err? then Err(g.error) else Ok(Assemble(g.value))
  }

  /** `state_from_triples`. */
  method StateFromTriples(ns: string, json: JsonCodec, rows: seq<Triple>) returns (r: Result<GraphState, DecodeError>)
    ensures r == Decode(ns, json, rows)
  {
    var g := NOTHING_READ;
    for i := 0 to |rows|
      invariant ReadAll(ns, json, rows, NOTHING_READ) == ReadAll(ns, json, rows[i..], g)
    {
      var f := ReadTriple(ns, json, rows[i]);
      assert rows[i..][1..] == rows[i + 1..];
      if f.Err? { return Err(f.error); }
      g := Absorb(g, f.value);
    }
    return Ok(Assemble(g));
  }

  // --- Soundness and completeness of gathering -----------------------------

  /** Nothing was gathered that the state does not say. */
  ghost predicate Sound(g: Gathered, s: GraphState) {
    && (g.counter == 0 || g.counter == s.counter)
    && (g.version == ZERO_VERSION || g.version == s.version)
    && g.edges <= s.edges.Keys
    && (forall id | id in g.nodeMeta :: id in s.nodes && SoundMeta(g.nodeMeta[id], s.nodes[id]))
    && (forall id | id in g.props :: id in s.nodes && SubMap(g.props[id], s.nodes[id].props))
    && (forall e | e in g.edgeProps :: e in s.edges && SubMap(g.edgeProps[e], s.edges[e]))
  }

  predicate SoundMeta(m: NodeMeta, a: NodeAttrs) {
    && (m.pk.Some? ==> m.pk.value == a.pk)
    && (m.mainLabel.Some? ==> m.mainLabel.value == a.mainLabel)
    && (m.labels.Some? ==> m.labels.value == a.labels)
  }

  ghost predicate SubMap(m: map<string, Value>, n: map<string, Value>) {
    forall k | k in m :: k in n && m[k] == n[k]
  }

  /** A fact was taken into account. */
  predicate Taken(g: Gathered, f: Fact) {
    match f
    case Counter(n) => g.counter == n
    case Version(v) => g.version == v
    case MainLabel(id, v) => MetaOf(g, id).mainLabel == Some(v)
    case LabelList(id, names) => MetaOf(g, id).labels == Some(names)
    case Pk(id, v) => MetaOf(g, id).pk == Some(v)
    case Prop(id, name, v) => id in g.props && name in g.props[id] && g.props[id][name] == v
    case Relation(e) => e in g.edges
    case Reified(e) => e in g.edgeProps
    case EdgeProp(e, name, v) => e in g.edgeProps && name in g.edgeProps[e] && g.edgeProps[e][name] == v
    case Nothing => true
  }

  lemma NodeFactKeepsSound(g: Gathered, s: GraphState, f: Fact)
    requires Sound(g, s) && HoldsIn(s, f) && (f.MainLabel? || f.LabelList? || f.Pk? || f.Prop?)
    ensures Sound(Absorb(g, f), s)
  {
  }

  lemma EdgeFactKeepsSound(g: Gathered, s: GraphState, f: Fact)
    requires Sound(g, s) && HoldsIn(s, f) && (f.Relation? || f.Reified? || f.EdgeProp?)
    ensures Sound(Absorb(g, f), s)
  {
  }

  lemma AbsorbKeepsSound(g: Gathered, s: GraphState, f: Fact)
    requires Sound(g, s) && HoldsIn(s, f)
    ensures Sound(Absorb(g, f), s)
  {
    if f.MainLabel? || f.LabelList? || f.Pk? || f.Prop? {
      NodeFactKeepsSound(g, s, f);
    } else if f.Relation? || f.Reified? || f.EdgeProp? {
      EdgeFactKeepsSound(g, s, f);
    }
  }

  lemma AbsorbTakes(g: Gathered, f: Fact)
    ensures Taken(Absorb(g, f), f)
  {
  }

  lemma AbsorbKeepsTaken(g: Gathered, s: GraphState, f: Fact, earlier: Fact)
    requires HoldsIn(s, f) && HoldsIn(s, earlier) && Taken(g, earlier)
    ensures Taken(Absorb(g, f), earlier)
  {
  }

  /** Rows that only say what holds in `s` are all taken, in whatever order they come. */
  lemma {:induction false} ReadAllTakes(ns: string, json: JsonCodec, rows: seq<Triple>, g: Gathered, s: GraphState)
    requires Sound(g, s)
    requires forall i | 0 <= i < |rows| :: ReadTriple(ns, json, rows[i]).Ok? && HoldsIn(s, ReadTriple(ns, json, rows[i]).value)
    ensures var r := ReadAll(ns, json, rows, g);
            && r.Ok? && Sound(r.value, s)
            && (forall i | 0 <= i < |rows| :: Taken(r.value, ReadTriple(ns, json, rows[i]).value))
            && (forall f: Fact | HoldsIn(s, f) && Taken(g, f) :: Taken(r.value, f))
  {
    if rows != [] {
      var f := ReadTriple(ns, json, rows[0]).value;
      var g' := Absorb(g, f);
      AbsorbKeepsSound(g, s, f);
      AbsorbTakes(g, f);
      ReadAllTakes(ns, json, rows[1..], g', s);
      forall earlier: Fact | HoldsIn(s, earlier) && Taken(g, earlier) ensures Taken(g', earlier) {
        AbsorbKeepsTaken(g, s, f, earlier);
      }
      var r := ReadAll(ns, json, rows, g);
      forall i | 0 <= i < |rows| ensures Taken(r.value, ReadTriple(ns, json, rows[i]).value) {
        if i > 0 { assert rows[i] == rows[1..][i - 1]; }
      }
    }
  }

  lemma AllTakenIsAll(g: Gathered, s: GraphState)
    requires Sound(g, s) && g.counter == s.counter && g.version == s.version
    requires forall f: Fact | HoldsIn(s, f) && !f.Counter? && !f.Version? :: Taken(g, f)
    ensures Assemble(g) == s
  {
    var r := Assemble(g);
    forall id | id in s.nodes ensures id in r.nodes && r.nodes[id] == s.nodes[id] {
      var a := s.nodes[id];
      assert Taken(g, MainLabel(id, a.mainLabel)) && Taken(g, LabelList(id, a.labels)) && Taken(g, Pk(id, a.pk));
      assert id in g.nodeMeta;
      forall name | name in a.props ensures name in PropsOf(g.props, id) && PropsOf(g.props, id)[name] == a.props[name] {
        assert Taken(g, Prop(id, name, a.props[name]));
      }
      assert PropsOf(g.props, id) == a.props;
    }
    assert r.nodes == s.nodes;
    forall e | e in s.edges ensures e in r.edges && r.edges[e] == s.edges[e] {
      assert Taken(g, Relation(e));
      forall name | name in s.edges[e] ensures name in PropsOf(g.edgeProps, e) && PropsOf(g.edgeProps, e)[name] == s.edges[e][name] {
        assert Taken(g, EdgeProp(e, name, s.edges[e][name]));
      }
      assert PropsOf(g.edgeProps, e) == s.edges[e];
    }
    assert r.edges == s.edges;
  }

  // --- Stores that hold a state --------------------------------------------

  function RowSet(rows: seq<Triple>): set<Triple> {
    set i | 0 <= i < |rows| :: rows[i]
  }

  /** The subjects a state of this namespace may write to. */
  ghost predicate Owned(ns: string, subject: Term) {
    || subject == MetaState(ns)
    || (exists id: nat :: subject == NodeTerm(ns, id))
    || (exists e: EdgeKey :: subject == EdgeTerm(ns, e))
  }

  predicate DefaultMeta(s: GraphState) {
    s.counter == 0 && s.version == ZERO_VERSION
  }

  /** A set of triples that holds the state `s`: the state's triples, except that the bookkeeping
      subject may still be missing while the state has the default counter and version (a store
      nothing was ever written to), plus triples of foreign subjects that say nothing. */
  ghost predicate Holds(ns: string, json: JsonCodec, store: set<Triple>, s: GraphState) {
    && (forall t | t in store ::
          t in Triples(ns, json, s) || (!Owned(ns, t.s) && ReadTriple(ns, json, t) == Ok(Nothing)))
    && (forall t | t in Triples(ns, json, s) :: t in store || (t.s == MetaState(ns) && DefaultMeta(s)))
    && ((exists t | t in Triples(ns, json, s) :: t !in store) ==> forall t | t in store :: t.s != MetaState(ns))
  }

  /** Whatever the order of the rows, a store that holds a faithful state decodes to it. */
  lemma DecodeHeld(ns: string, json: JsonCodec, rows: seq<Triple>, s: GraphState)
    requires Faithful(json, s) && Holds(ns, json, RowSet(rows), s)
    ensures Decode(ns, json, rows) == Ok(s)
  {
    var store := RowSet(rows);
    forall i | 0 <= i < |rows|
      ensures ReadTriple(ns, json, rows[i]).Ok? && HoldsIn(s, ReadTriple(ns, json, rows[i]).value)
    {
      assert rows[i] in store;
      if rows[i] in Triples(ns, json, s) { TripleHolds(ns, json, s, rows[i]); }
    }
    ReadAllTakes(ns, json, rows, NOTHING_READ, s);
    var g := ReadAll(ns, json, rows, NOTHING_READ).value;
    forall f: Fact | HoldsIn(s, f) && f != Nothing && (!DefaultMeta(s) || !(f.Counter? || f.Version?))
      ensures Taken(g, f)
    {
      FactIsTaken(ns, json, rows, s, f, g);
    }
    if DefaultMeta(s) {
      assert Sound(g, s);
    } else {
      assert HoldsIn(s, Counter(s.counter)) && HoldsIn(s, Version(s.version));
      assert Taken(g, Counter(s.counter)) && Taken(g, Version(s.version));
    }
    AllTakenIsAll(g, s);
  }

  lemma FactIsTaken(ns: string, json: JsonCodec, rows: seq<Triple>, s: GraphState, f: Fact, g: Gathered)
    requires Faithful(json, s) && Holds(ns, json, RowSet(rows), s)
    requires HoldsIn(s, f) && f != Nothing && (!DefaultMeta(s) || !(f.Counter? || f.Version?))
    requires forall i | 0 <= i < |rows| :: ReadTriple(ns, json, rows[i]).Ok? && Taken(g, ReadTriple(ns, json, rows[i]).value)
    ensures Taken(g, f)
  {
    var t := TripleOf(ns, json, f);
    FactHasTriple(ns, json, s, f);
    FactTripleHolds(ns, json, s, f, t);
    SubjectOfFact(ns, json, f);
    assert t in RowSet(rows);
    var i :| 0 <= i < |rows| && rows[i] == t;
  }

  lemma SubjectOfFact(ns: string, json: JsonCodec, f: Fact)
    requires f != Nothing
    ensures TripleOf(ns, json, f).s == MetaState(ns) <==> f.Counter? || f.Version?
    ensures Owned(ns, TripleOf(ns, json, f).s)
  {
    if f.MainLabel? || f.LabelList? || f.Pk? || f.Prop? {
      SubjectsApart(ns, f.id, (0, 0, ""));
    } else if f.Relation? || f.Reified? || f.EdgeProp? {
      SubjectsApart(ns, f.e.0, f.e);
    }
  }

  /** Every triple of a state has one of the state's own subjects. */
  lemma StateSubjectsOwned(ns: string, json: JsonCodec, s: GraphState, t: Triple)
    requires t in Triples(ns, json, s)
    ensures Owned(ns, t.s)
  {
    if t in MetaTriples(ns, json, s) {
      SubjectOfFact(ns, json, Counter(s.counter));
      SubjectOfFact(ns, json, Version(s.version));
    } else if id :| id in s.nodes && t in NodeTriples(ns, json, id, s.nodes[id]) {
      var f := NodeTripleFact(ns, json, id, s.nodes[id], t);
      if f != Nothing { SubjectOfFact(ns, json, f); }
    } else {
      var e :| e in s.edges && t in EdgeTriples(ns, json, e, s.edges[e]);
      var f := EdgeTripleFact(ns, json, e, s.edges[e], t);
      SubjectOfFact(ns, json, f);
    }
  }

  /** `state_from_triples(state_to_triples(s)) == s`, for every order of the rows. */
  lemma StateRoundTrip(ns: string, json: JsonCodec, s: GraphState, rows: seq<Triple>)
    requires Faithful(json, s) && RowSet(rows) == Triples(ns, json, s)
    ensures Decode(ns, json, rows) == Ok(s)
  {
    DecodeHeld(ns, json, rows, s);
  }

  /** Two faithful states with the same triples are the same state. */
  lemma TriplesDetermineState(ns: string, json: JsonCodec, s: GraphState, s': GraphState)
    requires Faithful(json, s) && Faithful(json, s') && Triples(ns, json, s) == Triples(ns, json, s')
    ensures s == s'
  {
    var rows := Enumerate(Triples(ns, json, s));
    StateRoundTrip(ns, json, s, rows);
    StateRoundTrip(ns, json, s', rows);
  }

  // --- The text of what is stored ------------------------------------------

  predicate CanonicalTriple(t: Triple) {
    Canonical(t.s) && Canonical(t.p) && Canonical(t.o)
  }

  lemma IriIsCanonical(ns: string, kind: string, local: string)
    requires ValidNamespace(ns) && '>' !in kind && '>' !in local
    ensures Canonical(Uri(Iri(ns, kind, local)))
  {
    var iri := Iri(ns, kind, local);
    assert iri[0] == ns[0];
    assert '<' in "<>\" {}|\\^`" && '>' in "<>\" {}|\\^`";
  }

  lemma IrisAreCanonical(ns: string, id: nat, name: string, e: EdgeKey)
    requires ValidNamespace(ns)
    ensures Canonical(NodeTerm(ns, id)) && Canonical(EdgeTerm(ns, e))
    ensures Canonical(Uri(PropIri(ns, name))) && Canonical(Uri(RelIri(ns, name))) && Canonical(Uri(LabelIri(ns, name)))
  {
    IriIsCanonical(ns, "node", Decimals.ShowNat(id));
    IriIsCanonical(ns, "edge", Decimals.ShowNat(e.0) + ("/" + (Decimals.ShowNat(e.1) + ("/" + PercentEncoding.Quote(e.2)))));
    IriIsCanonical(ns, "prop", PercentEncoding.Quote(name));
    IriIsCanonical(ns, "rel", PercentEncoding.Quote(name));
    IriIsCanonical(ns, "label", PercentEncoding.Quote(name));
  }

  lemma MetaIrisAreCanonical(ns: string)
    requires ValidNamespace(ns)
    ensures Canonical(MetaState(ns))
    ensures Canonical(Uri(MetaIri(ns, "nodeCounter"))) && Canonical(Uri(MetaIri(ns, "stateVersion")))
    ensures Canonical(Uri(MetaIri(ns, "mainLabel"))) && Canonical(Uri(MetaIri(ns, "labels"))) && Canonical(Uri(MetaIri(ns, "pk")))
    ensures Canonical(Uri(RDF_TYPE)) && Canonical(Uri(RDF_REIFIES))
  {
    IriIsCanonical(ns, "meta", "state");
    IriIsCanonical(ns, "meta", "nodeCounter");
    IriIsCanonical(ns, "meta", "stateVersion");
    IriIsCanonical(ns, "meta", "mainLabel");
    IriIsCanonical(ns, "meta", "labels");
    IriIsCanonical(ns, "meta", "pk");
    assert W3C[0] == 'h' && '>' !in W3C && '>' !in "1999/02/22-rdf-syntax-ns#";
    assert RDF_TYPE[0] == W3C[0] && RDF_REIFIES[0] == W3C[0];
  }

  lemma ValueIsCanonical(json: JsonCodec, v: Value)
    ensures Canonical(EncodeValue(json, v))
  {
    DatatypesDiffer();
    assert '>' !in W3C && '>' !in "2001/XMLSchema#" && '>' !in "1999/02/22-rdf-syntax-ns#";
  }

  lemma EdgeFactTripleIsCanonical(ns: string, json: JsonCodec, f: Fact)
    requires ValidNamespace(ns) && (f.Relation? || f.Reified? || f.EdgeProp?)
    ensures CanonicalTriple(TripleOf(ns, json, f))
  {
    if f.EdgeProp? {
      EdgePropIsCanonical(ns, json, f);
    } else {
      MetaIrisAreCanonical(ns);
      BaseIsCanonical(ns, f.e);
      IrisAreCanonical(ns, f.e.0, "", f.e);
      hide BaseTriple;
    }
  }

  lemma BaseIsCanonical(ns: string, e: EdgeKey)
    requires ValidNamespace(ns)
    ensures CanonicalTriple(BaseTriple(ns, e))
  {
    IrisAreCanonical(ns, e.0, e.2, e);
    IrisAreCanonical(ns, e.1, "", e);
  }

  lemma EdgePropIsCanonical(ns: string, json: JsonCodec, f: Fact)
    requires ValidNamespace(ns) && f.EdgeProp?
    ensures CanonicalTriple(TripleOf(ns, json, f))
  {
    IrisAreCanonical(ns, f.e.1, f.name, f.e);
    ValueIsCanonical(json, f.v);
  }

  lemma FactTripleIsCanonical(ns: string, json: JsonCodec, f: Fact)
    requires ValidNamespace(ns) && f != Nothing
    ensures CanonicalTriple(TripleOf(ns, json, f))
  {
    if f.Relation? || f.Reified? || f.EdgeProp? {
      EdgeFactTripleIsCanonical(ns, json, f);
    } else {
      MetaIrisAreCanonical(ns);
      ValueIsCanonical(json, if f.Counter? then Int(f.n) else if f.LabelList? then LabelValue(f.names) else f.v);
      if !f.Counter? && !f.Version? {
        IrisAreCanonical(ns, f.id, if f.Prop? then f.name else "", (0, 0, ""));
      }
    }
  }

  lemma MetaTripleIsCanonical(ns: string, json: JsonCodec, s: GraphState, t: Triple)
    requires ValidNamespace(ns) && t in MetaTriples(ns, json, s)
    ensures CanonicalTriple(t)
  {
    FactTripleIsCanonical(ns, json, Counter(s.counter));
    FactTripleIsCanonical(ns, json, Version(s.version));
  }

  lemma EdgeTripleIsCanonical(ns: string, json: JsonCodec, e: EdgeKey, props: map<string, Value>, t: Triple)
    requires ValidNamespace(ns) && t in EdgeTriples(ns, json, e, props)
    ensures CanonicalTriple(t)
  {
    var f := EdgeTripleFact(ns, json, e, props, t);
    FactTripleIsCanonical(ns, json, f);
  }

  /** Every term of every stored triple is canonical: the text sent to the server reads back as the
      same term, and comparing triples by their text is comparing the triples. */
  lemma StoredTriplesAreCanonical(ns: string, json: JsonCodec, s: GraphState, t: Triple)
    requires ValidNamespace(ns) && t in Triples(ns, json, s)
    ensures CanonicalTriple(t)
  {
    if t in MetaTriples(ns, json, s) {
      MetaTripleIsCanonical(ns, json, s, t);
    } else if id :| id in s.nodes && t in NodeTriples(ns, json, id, s.nodes[id]) {
      NodeTripleIsCanonical(ns, json, id, s.nodes[id], t);
    } else {
      var e :| e in s.edges && t in EdgeTriples(ns, json, e, s.edges[e]);
      EdgeTripleIsCanonical(ns, json, e, s.edges[e], t);
    }
  }

  lemma NodeTripleIsCanonical(ns: string, json: JsonCodec, id: nat, a: NodeAttrs, t: Triple)
    requires ValidNamespace(ns) && t in NodeTriples(ns, json, id, a)
    ensures CanonicalTriple(t)
  {
    var f := NodeTripleFact(ns, json, id, a, t);
    if f != Nothing {
      FactTripleIsCanonical(ns, json, f);
    } else {
      var name :| name in a.labels && t.o == Uri(LabelIri(ns, name));
      MetaIrisAreCanonical(ns);
      IrisAreCanonical(ns, id, name, (0, 0, ""));
    }
  }

  // --- Enumerating a store -------------------------------------------------

  lemma RowSetOfCons(t: Triple, rest: seq<Triple>)
    ensures RowSet([t] + rest) == {t} + RowSet(rest)
  {
    forall u | u in {t} + RowSet(rest) ensures u in RowSet([t] + rest) {
      if u == t {
        assert ([t] + rest)[0] == u;
      } else {
        var i :| 0 <= i < |rest| && rest[i] == u;
        assert ([t] + rest)[i + 1] == u;
      }
    }
  }

  ghost function Enumerate(store: set<Triple>): (rows: seq<Triple>)
    ensures RowSet(rows) == store
  {
    if store == {} then [] else
      var t :| t in store;
      var rest := Enumerate(store - {t});
      RowSetOfCons(t, rest);
      [t] + rest
  }
}
