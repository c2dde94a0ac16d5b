/** The mapping between a graph's state and RDF triples (cvcdocdb/jena_rdf.py, RdfMapping). */
module RdfMapping {
  import opened Common
  import opened Decimals
  import opened PercentEncoding
  import opened RdfTerms
  import opened Values

  const W3C := "http://www.w3.org/"
  const RDF := W3C + "1999/02/22-rdf-syntax-ns#"
  const RDF_TYPE := RDF + "type"
  const RDF_REIFIES := RDF + "reifies"
  const RDF_JSON := RDF + "JSON"
  const XSD := W3C + "2001/XMLSchema#"
  const XSD_BOOLEAN := XSD + "boolean"
  const XSD_INTEGER := XSD + "integer"
  const XSD_INT := XSD + "int"
  const XSD_LONG := XSD + "long"
  const XSD_DOUBLE := XSD + "double"
  const XSD_FLOAT := XSD + "float"
  const XSD_DECIMAL := XSD + "decimal"
  const XSD_DATE_TIME := XSD + "dateTime"
  const XSD_DATE := XSD + "date"

  // --- Values --------------------------------------------------------------

  /** The `json` library, as far as the mapping uses it: `loads` is None when it raises. */
  datatype JsonCodec = JsonCodec(dumps: Value -> string, loads: string -> Option<Value>)

  datatype DecodeError = NotAValue(term: Term) | NotAnInteger(text: string) | NotJson(text: string) | BadCounter | BadLabels

  function TypedLiteral(lexical: string, datatypeIri: string): Term {
    Literal(lexical, Some(datatypeIri), None)
  }

  function EncodeValue(json: JsonCodec, v: Value): Term {
    match v
    case Bool(b) => TypedLiteral(if b then "true" else "false", XSD_BOOLEAN)
    case Int(i) => TypedLiteral(ShowInt(i), XSD_INTEGER)
    case Float(text) => TypedLiteral(text, XSD_DOUBLE)
    case Str(s) => Literal(s, None, None)
    case DateTime(iso) => TypedLiteral(iso, XSD_DATE_TIME)
    case Date(iso) => TypedLiteral(iso, XSD_DATE)
    case _ => TypedLiteral(json.dumps(v), RDF_JSON)
  }

  function DecodeTerm(json: JsonCodec, t: Term): Result<Value, DecodeError> {
    match t
    case Uri(iri) => Ok(Str(iri))
    case Literal(lexical, None, _) => Ok(Str(lexical))
    case Literal(lexical, Some(d), _) =>
      if d == XSD_BOOLEAN then Ok(Bool(lexical == "true" || lexical == "1"))
      else if d == XSD_INTEGER || d == XSD_INT || d == XSD_LONG then
        var n := ReadInt(lexical);
        if n.Some? then Ok(Int(n.value)) else Err(NotAnInteger(lexical))
      else if d == XSD_DOUBLE || d == XSD_FLOAT || d == XSD_DECIMAL then Ok(Float(lexical))
      else if d == XSD_DATE_TIME then Ok(DateTime(lexical))
      else if d == XSD_DATE then Ok(Date(lexical))
      else if d == RDF_JSON then
        var v := json.loads(lexical);
        if v.Some? then Ok(v.value) else Err(NotJson(lexical))
      else Ok(Str(lexical))
    case _ => Err(NotAValue(t))
  }

  /** JSON is only trusted for what `json.loads` gives back unchanged. */
  predicate Encodable(json: JsonCodec, v: Value) {
    v.Null? || v.List? || v.Dict? ==> json.loads(json.dumps(v)) == Some(v)
  }

  /** Tells the ten datatype IRIs apart by their last characters. */
  function Tail(iri: string): string {
    if |iri| < 4 then iri else iri[|iri| - 4..]
  }

  lemma DatatypesDiffer()
    ensures Tail(XSD_BOOLEAN) == "lean" && Tail(XSD_INTEGER) == "eger" && Tail(XSD_INT) == "#int" && Tail(XSD_LONG) == "long"
    ensures Tail(XSD_DOUBLE) == "uble" && Tail(XSD_FLOAT) == "loat" && Tail(XSD_DECIMAL) == "imal"
    ensures Tail(XSD_DATE_TIME) == "Time" && Tail(XSD_DATE) == "date" && Tail(RDF_JSON) == "JSON" && Tail(XSD_STRING) == "ring"
  {
  }

  /** A value survives the store exactly when it is encodable. */
  lemma ValueRoundTrip(json: JsonCodec, v: Value)
    ensures DecodeTerm(json, EncodeValue(json, v)) == Ok(v) <==> Encodable(json, v)
  {
    DatatypesDiffer();
    if v.Int? { ReadShowInt(v.i); }
  }

  // --- IRIs ----------------------------------------------------------------

  predicate ValidNamespace(ns: string) {
    ns != "" && forall c | c in "<>\" {}|\\^`" :: c !in ns
  }

  type EdgeKey = (nat, nat, string)

  function Iri(ns: string, kind: string, local: string): string {
    ns + (kind + ("/" + local))
  }

  function NodeIri(ns: string, id: nat): string { Iri(ns, "node", ShowNat(id)) }

  function LabelIri(ns: string, name: string): string { Iri(ns, "label", Quote(name)) }

  function PropIri(ns: string, name: string): string { Iri(ns, "prop", Quote(name)) }

  function RelIri(ns: string, relType: string): string { Iri(ns, "rel", Quote(relType)) }

  function EdgeIri(ns: string, e: EdgeKey): string {
    Iri(ns, "edge", ShowNat(e.0) + ("/" + (ShowNat(e.1) + ("/" + Quote(e.2)))))
  }

  function MetaIri(ns: string, local: string): string { Iri(ns, "meta", local) }

  /** `_local`: what follows `kind/` in an IRI of the namespace. */
  function Local(ns: string, iri: string, kind: string): Option<string> {
    var prefix := ns + (kind + "/");
    if prefix <= iri then Some(iri[|prefix|..]) else None
  }

  /** The text before and after the first slash. */
  function SplitSlash(s: string): Option<(string, string)> {
    var n := Span(s, c => c != '/');
    if n < |s| then Some((s[..n], s[n + 1..])) else None
  }

  /** `edge_local.split("/", 2)` when both ids are numerals. */
  function ReadEdge(local: string): Option<EdgeKey> {
    var first := SplitSlash(local);
    if first.None? then None else
    var second := SplitSlash(first.value.1);
    if second.None? || !AllDigits(first.value.0) || !AllDigits(second.value.0) then None
    else Some((ReadDigits(first.value.0), ReadDigits(second.value.0), Unquote(second.value.1)))
  }

  lemma LocalOfIri(ns: string, kind: string, local: string)
    ensures Local(ns, Iri(ns, kind, local), kind) == Some(local)
  {
    var prefix := ns + (kind + "/");
    assert Iri(ns, kind, local) == prefix + local;
  }

  lemma SplitAtSlash(a: string, b: string)
    requires '/' !in a
    ensures SplitSlash(a + ("/" + b)) == Some((a, b))
  {
    var s := a + ("/" + b);
    SpanOf(a, "/" + b, c => c != '/');
    assert s[..|a|] == a && s[|a| + 1..] == b;
  }

  /** An IRI is local to one kind only. */
  lemma LocalOfOneKind(ns: string, kind: string, other: string, local: string)
    requires '/' !in kind && '/' !in other
    ensures Local(ns, Iri(ns, kind, local), other).Some? ==> kind == other
  {
    var iri := Iri(ns, kind, local);
    var prefix := ns + (other + "/");
    if prefix <= iri {
      var rest := iri[|prefix|..];
      assert iri == prefix + rest == ns + (other + ("/" + rest));
      assert iri[|ns|..] == other + ("/" + rest) == kind + ("/" + local);
      SplitAtSlash(other, rest);
      SplitAtSlash(kind, local);
    }
  }

  lemma IriInjective(ns: string, kind: string, local: string, kind': string, local': string)
    requires '/' !in kind && '/' !in kind' && Iri(ns, kind, local) == Iri(ns, kind', local')
    ensures kind == kind' && local == local'
  {
    LocalOfIri(ns, kind, local);
    LocalOfIri(ns, kind', local');
    LocalOfOneKind(ns, kind, kind', local);
  }

  /** Whatever the namespace, only a local part with a `#` could make an IRI `rdf:type`. */
  lemma NotRdfType(ns: string, kind: string, local: string)
    ensures Iri(ns, kind, local) == RDF_TYPE ==> '#' in local
  {
    var iri := Iri(ns, kind, local);
    if iri == RDF_TYPE {
      var slash := |ns| + |kind|;
      assert iri[slash] == '/';
      SlashesOfRdfType(slash);
      assert iri[42] == local[42 - slash - 1];
    }
  }

  lemma SlashesOfRdfType(i: nat)
    requires i < |RDF_TYPE| && RDF_TYPE[i] == '/'
    ensures i < 42 && RDF_TYPE[42] == '#'
  {
    assert RDF_TYPE == (W3C + "1999/02/22-rdf-syntax-ns") + "#type";
    if i >= 42 {
      assert false;
    }
  }

  lemma EdgeReadBack(e: EdgeKey)
    ensures ReadEdge(ShowNat(e.0) + ("/" + (ShowNat(e.1) + ("/" + Quote(e.2))))) == Some(e)
  {
    assert forall i: nat | i < |ShowNat(e.0)| :: IsDigit(ShowNat(e.0)[i]);
    assert forall i: nat | i < |ShowNat(e.1)| :: IsDigit(ShowNat(e.1)[i]);
    SplitAtSlash(ShowNat(e.0), ShowNat(e.1) + ("/" + Quote(e.2)));
    SplitAtSlash(ShowNat(e.1), Quote(e.2));
    ReadShow(e.0);
    ReadShow(e.1);
    QuoteRoundTrip(e.2);
  }

  // --- States, triples and facts -------------------------------------------

  datatype NodeAttrs = NodeAttrs(pk: Value, mainLabel: Value, labels: seq<string>, props: map<string, Value>)

  datatype GraphState = GraphState(
    nodes: map<nat, NodeAttrs>,
    edges: map<EdgeKey, map<string, Value>>,
    counter: int,
    version: Value)

  const ZERO_VERSION: Value := Float("0.0")

  const EMPTY_STATE := GraphState(map[], map[], 0, ZERO_VERSION)

  datatype Triple = Triple(s: Term, p: Term, o: Term)

  /** What one stored triple says about the state. */
  datatype Fact =
    | Counter(n: int)
    | Version(v: Value)
    | MainLabel(id: nat, v: Value)
    | LabelList(id: nat, names: seq<string>)
    | Pk(id: nat, v: Value)
    | Prop(id: nat, name: string, v: Value)
    | Relation(e: EdgeKey)
    | Reified(e: EdgeKey)
    | EdgeProp(e: EdgeKey, name: string, v: Value)
    | Nothing

  function LabelValue(names: seq<string>): Value {
    List(seq(|names|, i requires 0 <= i < |names| => Str(names[i])))
  }

  function ReadLabels(v: Value): Option<seq<string>> {
    if v.Null? then Some([])
    else if v.List? && forall i | 0 <= i < |v.items| :: v.items[i].Str? then
      Some(seq(|v.items|, i requires 0 <= i < |v.items| && v.items[i].Str? => v.items[i].s))
    else None
  }

  function MetaState(ns: string): Term { Uri(MetaIri(ns, "state")) }

  function MetaSync(ns: string): Term { Uri(MetaIri(ns, "sync")) }

  function NodeTerm(ns: string, id: nat): Term { Uri(NodeIri(ns, id)) }

  function EdgeTerm(ns: string, e: EdgeKey): Term { Uri(EdgeIri(ns, e)) }

  function BaseTriple(ns: string, e: EdgeKey): Triple {
    Triple(NodeTerm(ns, e.0), Uri(RelIri(ns, e.2)), NodeTerm(ns, e.1))
  }

  /** The triple `state_to_triples` writes for a fact. */
  function TripleOf(ns: string, json: JsonCodec, f: Fact): Triple
    requires f != Nothing
  {
    match f
    case Counter(n) => Triple(MetaState(ns), Uri(MetaIri(ns, "nodeCounter")), EncodeValue(json, Int(n)))
    case Version(v) => Triple(MetaState(ns), Uri(MetaIri(ns, "stateVersion")), EncodeValue(json, v))
    case MainLabel(id, v) => Triple(NodeTerm(ns, id), Uri(MetaIri(ns, "mainLabel")), EncodeValue(json, v))
    case LabelList(id, names) => Triple(NodeTerm(ns, id), Uri(MetaIri(ns, "labels")), EncodeValue(json, LabelValue(names)))
    case Pk(id, v) => Triple(NodeTerm(ns, id), Uri(MetaIri(ns, "pk")), EncodeValue(json, v))
    case Prop(id, name, v) => Triple(NodeTerm(ns, id), Uri(PropIri(ns, name)), EncodeValue(json, v))
    case Relation(e) => BaseTriple(ns, e)
    case Reified(e) =>
      var base := BaseTriple(ns, e);
      Triple(EdgeTerm(ns, e), Uri(RDF_REIFIES), Quoted(base.s, base.p, base.o))
    case EdgeProp(e, name, v) => Triple(EdgeTerm(ns, e), Uri(PropIri(ns, name)), EncodeValue(json, v))
  }

  function NodeTriples(ns: string, json: JsonCodec, id: nat, a: NodeAttrs): set<Triple> {
    (set name | name in a.labels :: Triple(NodeTerm(ns, id), Uri(RDF_TYPE), Uri(LabelIri(ns, name))))
    + {TripleOf(ns, json, MainLabel(id, a.mainLabel))}
    + {TripleOf(ns, json, LabelList(id, a.labels))}
    + {TripleOf(ns, json, Pk(id, a.pk))}
    + (set name | name in a.props :: TripleOf(ns, json, Prop(id, name, a.props[name])))
  }

  function EdgeTriples(ns: string, json: JsonCodec, e: EdgeKey, props: map<string, Value>): set<Triple> {
    {TripleOf(ns, json, Relation(e)), TripleOf(ns, json, Reified(e))}
    + (set name | name in props :: TripleOf(ns, json, EdgeProp(e, name, props[name])))
  }

  function MetaTriples(ns: string, json: JsonCodec, s: GraphState): set<Triple> {
    {TripleOf(ns, json, Counter(s.counter)), TripleOf(ns, json, Version(s.version))}
  }

  /** Every triple that represents a state. */
  function Triples(ns: string, json: JsonCodec, s: GraphState): set<Triple> {
    (set id, t | id in s.nodes && t in NodeTriples(ns, json, id, s.nodes[id]) :: t)
    + (set e, t | e in s.edges && t in EdgeTriples(ns, json, e, s.edges[e]) :: t)
    + MetaTriples(ns, json, s)
  }

  /** `state_to_triples`. */
  method StateToTriples(ns: string, json: JsonCodec, s: GraphState) returns (triples: set<Triple>)
    ensures triples == Triples(ns, json, s)
  {
    triples := {};
    var ids := s.nodes.Keys;
    while ids != {}
      invariant ids <= s.nodes.Keys
      invariant triples == set id, t | id in s.nodes.Keys - ids && t in NodeTriples(ns, json, id, s.nodes[id]) :: t
      decreases ids
    {
      var id :| id in ids;
      triples := triples + NodeTriples(ns, json, id, s.nodes[id]);
      ids := ids - {id};
    }
    ghost var nodeTriples := triples;
    var keys := s.edges.Keys;
    while keys != {}
      invariant keys <= s.edges.Keys
      invariant triples == nodeTriples + set e, t | e in s.edges.Keys - keys && t in EdgeTriples(ns, json, e, s.edges[e]) :: t
      decreases keys
    {
      var e :| e in keys;
      triples := triples + EdgeTriples(ns, json, e, s.edges[e]);
      keys := keys - {e};
    }
    triples := triples + MetaTriples(ns, json, s);
  }

  // --- Reading triples -----------------------------------------------------

  function WithValue(json: JsonCodec, o: Term, f: Value -> Fact): Result<Fact, DecodeError> {
    var v := DecodeTerm(json, o);
    if v.Ok? then Ok(f(v.value)) else Err(v.error)
  }

  /** The fact `state_from_triples` takes from one triple about a node. */
  function ReadNodeTriple(ns: string, json: JsonCodec, id: nat, p: string, o: Term): Result<Fact, DecodeError> {
    if p == RDF_TYPE then Ok(Nothing)
    else if p == MetaIri(ns, "mainLabel") then WithValue(json, o, v => MainLabel(id, v))
    else if p == MetaIri(ns, "labels") then
      var v := DecodeTerm(json, o);
      if v.Err? then Err(v.error)
      else if ReadLabels(v.value).Some? then Ok(LabelList(id, ReadLabels(v.value).value)) else Err(BadLabels)
    else if p == MetaIri(ns, "pk") then WithValue(json, o, v => Pk(id, v))
    else
      var prop := Local(ns, p, "prop");
      if prop.Some? then WithValue(json, o, v => Prop(id, Unquote(prop.value), v)) else
      var rel := Local(ns, p, "rel");
      var dst := if o.Uri? then Local(ns, o.iri, "node") else None;
      if rel.Some? && dst.Some? && AllDigits(dst.value) then Ok(Relation((id, ReadDigits(dst.value), Unquote(rel.value))))
      else Ok(Nothing)
  }

  function ReadTriple(ns: string, json: JsonCodec, t: Triple): Result<Fact, DecodeError> {
    if !t.s.Uri? || !t.p.Uri? then Ok(Nothing)
    else if t.s == MetaState(ns) then
      if t.p == Uri(MetaIri(ns, "nodeCounter")) then
        var v := DecodeTerm(json, t.o);
        if v.Err? then Err(v.error) else if v.value.Int? then Ok(Counter(v.value.i)) else Err(BadCounter)
      else if t.p == Uri(MetaIri(ns, "stateVersion")) then WithValue(json, t.o, v => Version(v))
      else Ok(Nothing)
    else
      var node := Local(ns, t.s.iri, "node");
      if node.Some? && AllDigits(node.value) then ReadNodeTriple(ns, json, ReadDigits(node.value), t.p.iri, t.o) else
      var edge := Local(ns, t.s.iri, "edge");
      if edge.None? || ReadEdge(edge.value).None? then Ok(Nothing)
      else
        var e := ReadEdge(edge.value).value;
        var prop := Local(ns, t.p.iri, "prop");
        if prop.Some? then WithValue(json, t.o, v => EdgeProp(e, Unquote(prop.value), v)) else Ok(Reified(e))
  }

  predicate EncodableFact(json: JsonCodec, f: Fact) {
    match f
    case Version(v) => Encodable(json, v)
    case MainLabel(_, v) => Encodable(json, v)
    case LabelList(_, names) => Encodable(json, LabelValue(names))
    case Pk(_, v) => Encodable(json, v)
    case Prop(_, _, v) => Encodable(json, v)
    case EdgeProp(_, _, v) => Encodable(json, v)
    case _ => true
  }

  lemma LabelsReadBack(names: seq<string>)
    ensures ReadLabels(LabelValue(names)) == Some(names)
  {
    var v := LabelValue(names);
    assert forall i | 0 <= i < |v.items| :: v.items[i].Str?;
    assert ReadLabels(v).value == names;
  }

  lemma SubjectsApart(ns: string, id: nat, e: EdgeKey)
    ensures NodeTerm(ns, id) != MetaState(ns) && EdgeTerm(ns, e) != MetaState(ns)
    ensures Local(ns, NodeIri(ns, id), "node") == Some(ShowNat(id)) && ReadDigits(ShowNat(id)) == id
    ensures Local(ns, EdgeIri(ns, e), "node") == None
    ensures Local(ns, EdgeIri(ns, e), "edge").Some? && ReadEdge(Local(ns, EdgeIri(ns, e), "edge").value) == Some(e)
  {
    var local := ShowNat(e.0) + ("/" + (ShowNat(e.1) + ("/" + Quote(e.2))));
    LocalOfIri(ns, "node", ShowNat(id));
    LocalOfOneKind(ns, "meta", "node", "state");
    LocalOfIri(ns, "edge", local);
    LocalOfOneKind(ns, "edge", "node", local);
    LocalOfOneKind(ns, "meta", "edge", "state");
    EdgeReadBack(e);
    ReadShow(id);
  }

  lemma PropPredicate(ns: string, name: string)
    ensures Local(ns, PropIri(ns, name), "prop").Some? && Unquote(Local(ns, PropIri(ns, name), "prop").value) == name
    ensures PropIri(ns, name) != RDF_TYPE
    ensures forall m | m in {"mainLabel", "labels", "pk"} :: PropIri(ns, name) != MetaIri(ns, m)
  {
    LocalOfIri(ns, "prop", Quote(name));
    QuoteRoundTrip(name);
    NotRdfType(ns, "prop", Quote(name));
    forall m | m in {"mainLabel", "labels", "pk"} ensures PropIri(ns, name) != MetaIri(ns, m) {
      LocalOfOneKind(ns, "meta", "prop", m);
    }
  }

  lemma RelPredicate(ns: string, name: string)
    ensures Local(ns, RelIri(ns, name), "rel").Some? && Unquote(Local(ns, RelIri(ns, name), "rel").value) == name
    ensures RelIri(ns, name) != RDF_TYPE && Local(ns, RelIri(ns, name), "prop") == None
    ensures forall m | m in {"mainLabel", "labels", "pk"} :: RelIri(ns, name) != MetaIri(ns, m)
  {
    LocalOfIri(ns, "rel", Quote(name));
    LocalOfOneKind(ns, "rel", "prop", Quote(name));
    QuoteRoundTrip(name);
    NotRdfType(ns, "rel", Quote(name));
    forall m | m in {"mainLabel", "labels", "pk"} ensures RelIri(ns, name) != MetaIri(ns, m) {
      LocalOfOneKind(ns, "meta", "rel", m);
    }
  }

  lemma MetaPredicates(ns: string)
    ensures MetaIri(ns, "mainLabel") != RDF_TYPE && MetaIri(ns, "labels") != RDF_TYPE
    ensures MetaIri(ns, "pk") != RDF_TYPE && MetaIri(ns, "mainLabel") != MetaIri(ns, "labels")
    ensures MetaIri(ns, "pk") != MetaIri(ns, "mainLabel") && MetaIri(ns, "pk") != MetaIri(ns, "labels")
    ensures MetaIri(ns, "nodeCounter") != MetaIri(ns, "stateVersion")
  {
    NotRdfType(ns, "meta", "mainLabel");
    NotRdfType(ns, "meta", "labels");
    NotRdfType(ns, "meta", "pk");
    assert |MetaIri(ns, "pk")| == |ns| + 7;
    assert |MetaIri(ns, "labels")| == |ns| + 11;
    assert |MetaIri(ns, "mainLabel")| == |ns| + 14;
    assert |MetaIri(ns, "nodeCounter")| == |ns| + 16;
    assert |MetaIri(ns, "stateVersion")| == |ns| + 17;
  }

  /** A reifier's own triple is not about a property. */
  lemma ReifiesIsNoProp(ns: string)
    ensures Local(ns, RDF_REIFIES, "prop") == None
  {
    var prefix := ns + ("prop" + "/");
    assert prefix[|ns|] == 'p' && prefix[|ns| + 1] == 'r';
    if |ns| + 1 < |RDF_REIFIES| {
      PlaceOfP(|ns|);
    }
  }

  lemma PlaceOfP(i: nat)
    requires i + 1 < |RDF_REIFIES|
    ensures RDF_REIFIES[i] == 'p' ==> RDF_REIFIES[i + 1] != 'r'
  {
    assert RDF_REIFIES == W3C + ("1999/02/22-rdf-syntax-ns#" + "reifies");
    if i < 18 {
      assert W3C[i] == 'p' ==> i == 3;
      assert RDF_REIFIES[4] == W3C[4] == ':';
    } else if i < 43 {
      assert "1999/02/22-rdf-syntax-ns#"[i - 18] != 'p';
    } else {
      assert "reifies"[i - 43] != 'p';
    }
  }

  lemma ReadValue(json: JsonCodec, v: Value, f: Value -> Fact)
    requires Encodable(json, v)
    ensures WithValue(json, EncodeValue(json, v), f) == Ok(f(v))
  {
    ValueRoundTrip(json, v);
  }

  lemma MetaFactReadBack(ns: string, json: JsonCodec, f: Fact)
    requires (f.Counter? || f.Version?) && EncodableFact(json, f)
    ensures ReadTriple(ns, json, TripleOf(ns, json, f)) == Ok(f)
  {
    MetaPredicates(ns);
    match f
    case Counter(n) => ValueRoundTrip(json, Int(n));
    case Version(v) => ReadValue(json, v, w => Version(w));
  }

  /** A triple whose subject is a node is read as a triple about that node. */
  lemma NodeSubject(ns: string, json: JsonCodec, id: nat, p: string, o: Term)
    ensures ReadTriple(ns, json, Triple(NodeTerm(ns, id), Uri(p), o)) == ReadNodeTriple(ns, json, id, p, o)
  {
    SubjectsApart(ns, id, (0, 0, ""));
  }

  lemma PropRead(ns: string, json: JsonCodec, id: nat, name: string, o: Term, v: Value)
    requires DecodeTerm(json, o) == Ok(v)
    ensures ReadNodeTriple(ns, json, id, PropIri(ns, name), o) == Ok(Prop(id, name, v))
  {
    PropPredicate(ns, name);
  }

  lemma NodeMetaRead(ns: string, json: JsonCodec, id: nat, o: Term, v: Value)
    requires DecodeTerm(json, o) == Ok(v)
    ensures ReadNodeTriple(ns, json, id, MetaIri(ns, "mainLabel"), o) == Ok(MainLabel(id, v))
    ensures ReadNodeTriple(ns, json, id, MetaIri(ns, "pk"), o) == Ok(Pk(id, v))
    ensures ReadLabels(v).Some? ==>
              ReadNodeTriple(ns, json, id, MetaIri(ns, "labels"), o) == Ok(LabelList(id, ReadLabels(v).value))
  {
    MetaPredicates(ns);
  }

  lemma RelationRead(ns: string, json: JsonCodec, id: nat, p: string, o: string, rel: string, dst: string)
    requires p != RDF_TYPE && forall m | m in {"mainLabel", "labels", "pk"} :: p != MetaIri(ns, m)
    requires Local(ns, p, "prop") == None && Local(ns, p, "rel") == Some(rel)
    requires Local(ns, o, "node") == Some(dst) && AllDigits(dst)
    ensures ReadNodeTriple(ns, json, id, p, Uri(o)) == Ok(Relation((id, ReadDigits(dst), Unquote(rel))))
  {
  }

  lemma NodeFactReadBack(ns: string, json: JsonCodec, f: Fact)
    requires (f.MainLabel? || f.LabelList? || f.Pk? || f.Prop?) && EncodableFact(json, f)
    ensures ReadTriple(ns, json, TripleOf(ns, json, f)) == Ok(f)
  {
    var t := TripleOf(ns, json, f);
    NodeSubject(ns, json, f.id, t.p.iri, t.o);
    var v := if f.LabelList? then LabelValue(f.names) else f.v;
    ValueRoundTrip(json, v);
    if f.Prop? {
      PropRead(ns, json, f.id, f.name, t.o, v);
    } else {
      if f.LabelList? { LabelsReadBack(f.names); }
      NodeMetaRead(ns, json, f.id, t.o, v);
    }
  }

  lemma RelationReadBack(ns: string, json: JsonCodec, e: EdgeKey)
    ensures ReadTriple(ns, json, BaseTriple(ns, e)) == Ok(Relation(e))
  {
    NodeSubject(ns, json, e.0, RelIri(ns, e.2), NodeTerm(ns, e.1));
    SubjectsApart(ns, e.1, e);
    RelPredicate(ns, e.2);
    RelationRead(ns, json, e.0, RelIri(ns, e.2), NodeIri(ns, e.1), Local(ns, RelIri(ns, e.2), "rel").value, ShowNat(e.1));
  }

  /** A triple whose subject is a reifier is read as one about its relation. */
  lemma EdgeSubject(ns: string, json: JsonCodec, e: EdgeKey, p: string, o: Term)
    ensures ReadTriple(ns, json, Triple(EdgeTerm(ns, e), Uri(p), o))
            == var prop := Local(ns, p, "prop");
               if prop.Some? then WithValue(json, o, v => EdgeProp(e, Unquote(prop.value), v)) else Ok(Reified(e))
  {
    SubjectsApart(ns, 0, e);
    assert EdgeTerm(ns, e) == Uri(EdgeIri(ns, e));
    hide Local, ReadEdge, WithValue, ReadNodeTriple, MetaIri, EdgeIri, MetaState, DecodeTerm;
    assert ReadTriple(ns, json, Triple(EdgeTerm(ns, e), Uri(p), o))
           == var prop := Local(ns, p, "prop");
              if prop.Some? then WithValue(json, o, v => EdgeProp(e, Unquote(prop.value), v)) else Ok(Reified(e));
  }

  lemma EdgeFactReadBack(ns: string, json: JsonCodec, f: Fact)
    requires (f.Reified? || f.EdgeProp?) && EncodableFact(json, f)
    ensures ReadTriple(ns, json, TripleOf(ns, json, f)) == Ok(f)
  {
    var t := TripleOf(ns, json, f);
    EdgeSubject(ns, json, f.e, t.p.iri, t.o);
    if f.Reified? {
      ReifiesIsNoProp(ns);
    } else {
      PropPredicate(ns, f.name);
      ValueRoundTrip(json, f.v);
    }
  }

  /** Reading the triple of a fact gives the fact back. */
  lemma FactReadBack(ns: string, json: JsonCodec, f: Fact)
    requires f != Nothing && EncodableFact(json, f)
    ensures ReadTriple(ns, json, TripleOf(ns, json, f)) == Ok(f)
  {
    if f.Counter? || f.Version? {
      MetaFactReadBack(ns, json, f);
    } else if f.Relation? {
      RelationReadBack(ns, json, f.e);
    } else if f.Reified? || f.EdgeProp? {
      EdgeFactReadBack(ns, json, f);
    } else {
      NodeFactReadBack(ns, json, f);
    }
  }
}
