/** MATCH: the backtracking search of the read-only Cypher engine, and what it means
    (cvcdocdb/nx_cypher.py, `_Evaluator.match`, `_match_patterns`, `_expand`). */
module CypherMatch {
  import opened Common
  import opened CypherValues
  import opened CypherEval

  datatype Direction = Outward | Inward | Either

  datatype NodePat = NodePat(name: string, labels: seq<string>, props: seq<MapEntry>)

  datatype RelPat = RelPat(name: string, types: seq<string>, props: seq<MapEntry>, direction: Direction)

  datatype Hop = Hop(rel: RelPat, node: NodePat)

  /** A path pattern. Anonymous elements have names of their own, which no query can write. */
  datatype Pattern = Pattern(first: NodePat, chain: seq<Hop>)

  /** What every search is relative to. */
  datatype Context = Context(g: Graph, params: Attrs)

  type Found = (Row, set<EdgeKey>)

  // --- The search ----------------------------------------------------------

  function PropsOk(c: Context, attrs: Attrs, props: seq<MapEntry>, row: Row): Result<bool, CypherError> {
    if props == [] then Ok(true)
    else
      var v :- Eval(c.g, c.params, props[0].e, row, None);
      if Equals(Lookup(attrs, props[0].key), v).True? then PropsOk(c, attrs, props[1..], row) else Ok(false)
  }

  /** `_node_ok`. */
  function NodeOk(c: Context, n: NodeId, pat: NodePat, row: Row): Result<bool, CypherError> {
    if !LabelsOk(c.g, n, pat.labels) then Ok(false) else PropsOk(c, NodeAttrs(c.g, n), pat.props, row)
  }

  function Heads(edges: seq<EdgeKey>): (r: seq<(EdgeKey, NodeId)>)
    ensures |r| == |edges| && forall i | 0 <= i < |r| :: r[i] == (edges[i], edges[i].1)
  {
    seq(|edges|, i requires 0 <= i < |edges| => (edges[i], edges[i].1))
  }

  /** The other ends of incoming relations; with `loops` also those of self-loops. */
  function Tails(edges: seq<EdgeKey>, loops: bool): seq<(EdgeKey, NodeId)> {
    if edges == [] then []
    else (if loops || edges[0].0 != edges[0].1 then [(edges[0], edges[0].0)] else []) + Tails(edges[1..], loops)
  }

  /** The relations to try from a node, each with its other end; a self-loop is listed once. */
  function Candidates(g: Graph, n: NodeId, direction: Direction): seq<(EdgeKey, NodeId)> {
    (if direction != Inward && n in g.outEdges then Heads(g.outEdges[n]) else [])
    + (if direction != Outward && n in g.inEdges then Tails(g.inEdges[n], direction == Inward) else [])
  }

  /** The tests of the loop in `_expand`, in its order. */
  function Accepts(c: Context, hop: Hop, row: Row, used: set<EdgeKey>, key: EdgeKey, other: NodeId): Result<bool, CypherError> {
    if key in used then Ok(false)
    else if hop.rel.name in row && row[hop.rel.name] != RelRef(key) then Ok(false)
    else if hop.rel.types != [] && key.2 !in hop.rel.types then Ok(false)
    else
      var props :- PropsOk(c, RelAttrs(c.g, key), hop.rel.props, row);
      if !props then Ok(false)
      else if hop.node.name in row && row[hop.node.name] != NodeRef(other) then Ok(false)
      else NodeOk(c, other, hop.node, row)
  }

  function Step(hop: Hop, row: Row, key: EdgeKey, other: NodeId): Row {
    row[hop.rel.name := RelRef(key)][hop.node.name := NodeRef(other)]
  }

  /** `_expand`: follows a chain from node `n`. */
  function Expand(c: Context, chain: seq<Hop>, n: NodeId, row: Row, used: set<EdgeKey>): Result<seq<Found>, CypherError>
    decreases |chain|, 1, 0
  {
    if chain == [] then Ok([(row, used)])
    else ExpandFrom(c, chain, row, used, Candidates(c.g, n, chain[0].rel.direction))
  }

  function ExpandFrom(c: Context, chain: seq<Hop>, row: Row, used: set<EdgeKey>, candidates: seq<(EdgeKey, NodeId)>)
    : Result<seq<Found>, CypherError>
    requires chain != []
    decreases |chain|, 0, |candidates|
  {
    if candidates == [] then Ok([])
    else
      var (key, other) := candidates[0];
      var accepted :- Accepts(c, chain[0], row, used, key, other);
      var here :- if accepted then Expand(c, chain[1..], other, Step(chain[0], row, key, other), used + {key}) else Ok([]);
      var rest :- ExpandFrom(c, chain, row, used, candidates[1..]);
      Ok(here + rest)
  }

  /** `_node_candidates`: the node the variable is bound to, or every stored node, if it fits. */
  function NodeCandidates(c: Context, pat: NodePat, row: Row): Result<seq<NodeId>, CypherError> {
    if pat.name in row then
      match row[pat.name]
      case Null => Ok([])
      case NodeRef(n) => Fitting(c, pat, row, [n])
      case _ => Err(WrongType)
    else Fitting(c, pat, row, c.g.nodes)
  }

  function Fitting(c: Context, pat: NodePat, row: Row, nodes: seq<NodeId>): Result<seq<NodeId>, CypherError> {
    if nodes == [] then Ok([])
    else
      var ok :- NodeOk(c, nodes[0], pat, row);
      var rest :- Fitting(c, pat, row, nodes[1..]);
      Ok(if ok then [nodes[0]] + rest else rest)
  }

  /** The row once the first node of a pattern is chosen. */
  function Bound(p: Pattern, row: Row, n: NodeId): Row {
    row[p.first.name := NodeRef(n)]
  }

  /** `_match_patterns`. */
  function MatchPatterns(c: Context, patterns: seq<Pattern>, row: Row, used: set<EdgeKey>): Result<seq<Row>, CypherError>
    decreases |patterns|, 2, 0
  {
    if patterns == [] then Ok([row])
    else
      var nodes :- NodeCandidates(c, patterns[0].first, row);
      MatchFrom(c, patterns, row, used, nodes)
  }

  function MatchFrom(c: Context, patterns: seq<Pattern>, row: Row, used: set<EdgeKey>, nodes: seq<NodeId>): Result<seq<Row>, CypherError>
    requires patterns != []
    decreases |patterns|, 1, |nodes|
  {
    if nodes == [] then Ok([])
    else
      var found :- Expand(c, patterns[0].chain, nodes[0], Bound(patterns[0], row, nodes[0]), used);
      var here :- MatchRest(c, patterns[1..], found);
      var rest :- MatchFrom(c, patterns, row, used, nodes[1..]);
      Ok(here + rest)
  }

  function MatchRest(c: Context, patterns: seq<Pattern>, found: seq<Found>): Result<seq<Row>, CypherError>
    decreases |patterns|, 3, |found|
  {
    if found == [] then Ok([])
    else
      var here :- MatchPatterns(c, patterns, found[0].0, found[0].1);
      var rest :- MatchRest(c, patterns, found[1..]);
      Ok(here + rest)
  }

  // --- What a pattern means ------------------------------------------------

  ghost predicate PropsHold(c: Context, attrs: Attrs, props: seq<MapEntry>, row: Row) {
    forall i | 0 <= i < |props| ::
      var v := Eval(c.g, c.params, props[i].e, row, None);
      v.Ok? && Equals(Lookup(attrs, props[i].key), v.value).True?
  }

  ghost predicate NodeHolds(c: Context, n: NodeId, pat: NodePat, row: Row) {
    LabelsOk(c.g, n, pat.labels) && PropsHold(c, NodeAttrs(c.g, n), pat.props, row)
  }

  predicate Joins(e: EdgeKey, direction: Direction, n: NodeId, m: NodeId) {
    (direction != Inward && e.0 == n && e.1 == m) || (direction != Outward && e.1 == n && e.0 == m)
  }

  predicate IsNode(row: Row, name: string) {
    name in row && row[name].NodeRef?
  }

  predicate IsRel(row: Row, name: string) {
    name in row && row[name].RelRef?
  }

  /** `row` assigns the hop a stored relation from `n` with the right type, direction and properties,
      and at its other end a node with the right labels and properties. */
  ghost predicate HopHolds(c: Context, hop: Hop, n: NodeId, row: Row) {
    && IsRel(row, hop.rel.name) && IsNode(row, hop.node.name)
    && var e, m := row[hop.rel.name].key, row[hop.node.name].id;
       && e in c.g.edgeAttrs && Joins(e, hop.rel.direction, n, m)
       && (hop.rel.types == [] || e.2 in hop.rel.types)
       && PropsHold(c, RelAttrs(c.g, e), hop.rel.props, row)
       && NodeHolds(c, m, hop.node, row)
  }

  ghost predicate ChainHolds(c: Context, chain: seq<Hop>, n: NodeId, row: Row) {
    chain == [] || (HopHolds(c, chain[0], n, row) && ChainHolds(c, chain[1..], row[chain[0].node.name].id, row))
  }

  ghost predicate PatternHolds(c: Context, p: Pattern, row: Row) {
    && IsNode(row, p.first.name) && row[p.first.name].id in c.g.nodeAttrs
    && NodeHolds(c, row[p.first.name].id, p.first, row)
    && ChainHolds(c, p.chain, row[p.first.name].id, row)
  }

  function RelIn(row: Row, name: string): EdgeKey {
    if IsRel(row, name) then row[name].key else (0, 0, "")
  }

  /** The relations a row assigns to a chain, in order. */
  function ChainRels(chain: seq<Hop>, row: Row): (r: seq<EdgeKey>)
    ensures |r| == |chain|
  {
    seq(|chain|, i requires 0 <= i < |chain| => RelIn(row, chain[i].rel.name))
  }

  function AllRels(patterns: seq<Pattern>, row: Row): seq<EdgeKey> {
    if patterns == [] then [] else ChainRels(patterns[0].chain, row) + AllRels(patterns[1..], row)
  }

  function ChainVars(chain: seq<Hop>): set<string> {
    if chain == [] then {} else {chain[0].rel.name, chain[0].node.name} + ChainVars(chain[1..])
  }

  /** `_pattern_vars`. */
  function Vars(patterns: seq<Pattern>): set<string> {
    if patterns == [] then {} else {patterns[0].first.name} + ChainVars(patterns[0].chain) + Vars(patterns[1..])
  }

  /** No relation occurs twice, and none was used before. */
  predicate Unused(rels: seq<EdgeKey>, used: set<EdgeKey>) {
    Distinct(rels) && forall e | e in rels :: e !in used
  }

  /** The declarative meaning of MATCH: `r` extends `row` by exactly the variables of the patterns,
      satisfies them all, and uses no relation twice. */
  ghost predicate Matches(c: Context, patterns: seq<Pattern>, row: Row, used: set<EdgeKey>, r: Row) {
    && Agrees(row, r) && r.Keys == row.Keys + Vars(patterns)
    && (forall i | 0 <= i < |patterns| :: PatternHolds(c, patterns[i], r))
    && Unused(AllRels(patterns, r), used)
  }

  /** A hop whose relation and node share a name binds only the node. */
  predicate NamesApart(chain: seq<Hop>) {
    forall i | 0 <= i < |chain| :: chain[i].rel.name != chain[i].node.name
  }

  /** Rows refer to stored nodes only. */
  predicate Live(g: Graph, row: Row) {
    forall k | k in row && row[k].NodeRef? :: row[k].id in g.nodeAttrs
  }

  // --- Properties ----------------------------------------------------------

  /** A property test that succeeds or fails on part of a row does so on the whole row. */
  lemma {:induction false} PropsMean(c: Context, attrs: Attrs, props: seq<MapEntry>, row: Row, r: Row)
    requires PropsOk(c, attrs, props, row).Ok? && Agrees(row, r)
    ensures PropsOk(c, attrs, props, row).value <==> PropsHold(c, attrs, props, r)
    decreases |props|
  {
    if props != [] {
      EvalMore(c.g, c.params, props[0].e, row, r);
      if Equals(Lookup(attrs, props[0].key), Eval(c.g, c.params, props[0].e, row, None).value).True? {
        PropsMean(c, attrs, props[1..], row, r);
        PropsSplit(c, attrs, props, r);
      }
    }
  }

  lemma PropsSplit(c: Context, attrs: Attrs, props: seq<MapEntry>, r: Row)
    requires props != []
    requires var v := Eval(c.g, c.params, props[0].e, r, None); v.Ok? && Equals(Lookup(attrs, props[0].key), v.value).True?
    ensures PropsHold(c, attrs, props, r) <==> PropsHold(c, attrs, props[1..], r)
  {
    hide Eval, Equals;
    if PropsHold(c, attrs, props[1..], r) {
      forall i | 0 <= i < |props|
        ensures var v := Eval(c.g, c.params, props[i].e, r, None); v.Ok? && Equals(Lookup(attrs, props[i].key), v.value).True?
      {
        if i > 0 { assert props[i] == props[1..][i - 1]; }
      }
    }
    if PropsHold(c, attrs, props, r) {
      assert forall i | 0 <= i < |props[1..]| :: props[1..][i] == props[i + 1];
    }
  }

  lemma NodeMeans(c: Context, n: NodeId, pat: NodePat, row: Row, r: Row)
    requires NodeOk(c, n, pat, row).Ok? && Agrees(row, r)
    ensures NodeOk(c, n, pat, row).value <==> NodeHolds(c, n, pat, r)
  {
    if LabelsOk(c.g, n, pat.labels) { PropsMean(c, NodeAttrs(c.g, n), pat.props, row, r); }
  }

  // --- Candidates ----------------------------------------------------------

  lemma {:induction false} TailsAre(edges: seq<EdgeKey>, loops: bool)
    requires Distinct(edges)
    ensures var tails := Tails(edges, loops);
            && (forall e: EdgeKey, m: NodeId :: (e, m) in tails <==> e in edges && m == e.0 && (loops || e.0 != e.1))
            && (forall i, j | 0 <= i < j < |tails| :: tails[i].0 != tails[j].0)
  {
    if edges != [] {
      TailsAre(edges[1..], loops);
      assert edges == [edges[0]] + edges[1..];
      assert forall e | e in edges[1..] :: e != edges[0];
    }
  }

  /** The candidates are exactly the relations that join the node in the pattern's direction. */
  lemma CandidatesAre(g: Graph, n: NodeId, direction: Direction)
    requires WellFormed(g)
    ensures var candidates := Candidates(g, n, direction);
            && (forall e: EdgeKey, m: NodeId :: (e, m) in candidates <==> e in g.edgeAttrs && Joins(e, direction, n, m))
            && (forall i, j | 0 <= i < j < |candidates| :: candidates[i].0 != candidates[j].0)
  {
    if n in g.nodeAttrs {
      var outs, ins := g.outEdges[n], g.inEdges[n];
      TailsAre(ins, direction == Inward);
      HeadsAre(outs);
      var a: seq<(EdgeKey, NodeId)> := if direction != Inward then Heads(outs) else [];
      var b: seq<(EdgeKey, NodeId)> := if direction != Outward then Tails(ins, direction == Inward) else [];
      forall i, j | 0 <= i < |a| && 0 <= j < |b| ensures a[i].0 != b[j].0 {
        assert a[i] in a && b[j] in b;
        var (e, m) := b[j];
        assert (e, m) in b;
      }
    }
  }

  lemma HeadsAre(edges: seq<EdgeKey>)
    requires Distinct(edges)
    ensures var heads := Heads(edges);
            && (forall e: EdgeKey, m: NodeId :: (e, m) in heads <==> e in edges && m == e.1)
            && (forall i, j | 0 <= i < j < |heads| :: heads[i].0 != heads[j].0)
  {
    var heads := Heads(edges);
    forall e: EdgeKey | e in edges ensures (e, e.1) in heads {
      var i :| 0 <= i < |edges| && edges[i] == e;
      assert heads[i] == (e, e.1);
    }
  }

  // --- Chains --------------------------------------------------------------

  /** What `_expand` should yield for a chain: a row and the relations used up to there. */
  ghost predicate Extension(c: Context, chain: seq<Hop>, n: NodeId, row: Row, used: set<EdgeKey>, p: Found) {
    && Agrees(row, p.0) && p.0.Keys == row.Keys + ChainVars(chain)
    && ChainHolds(c, chain, n, p.0) && Unused(ChainRels(chain, p.0), used)
    && p.1 == used + set e | e in ChainRels(chain, p.0)
  }

  /** The loop's tests hold exactly when the hop holds of the row it leads to. */
  lemma AcceptsMeans(c: Context, hop: Hop, n: NodeId, row: Row, used: set<EdgeKey>, key: EdgeKey, other: NodeId, r: Row)
    requires Accepts(c, hop, row, used, key, other).Ok? && Agrees(row, r)
    requires hop.rel.name in r && r[hop.rel.name] == RelRef(key) && hop.node.name in r && r[hop.node.name] == NodeRef(other)
    requires key in c.g.edgeAttrs && Joins(key, hop.rel.direction, n, other)
    ensures Accepts(c, hop, row, used, key, other).value <==> key !in used && HopHolds(c, hop, n, r)
  {
    hide PropsOk, NodeOk, PropsHold, NodeHolds, Joins;
    if key !in used && (hop.rel.types == [] || key.2 in hop.rel.types) {
      PropsMean(c, RelAttrs(c.g, key), hop.rel.props, row, r);
      if PropsOk(c, RelAttrs(c.g, key), hop.rel.props, row).value { NodeMeans(c, other, hop.node, row, r); }
    }
  }

  /** An accepted step overwrites nothing. */
  lemma StepExtends(c: Context, hop: Hop, row: Row, used: set<EdgeKey>, key: EdgeKey, other: NodeId)
    requires Accepts(c, hop, row, used, key, other) == Ok(true) && hop.rel.name != hop.node.name
    ensures Agrees(row, Step(hop, row, key, other)) && key !in used
  {
    hide PropsOk, NodeOk;
  }

  lemma ChainRelsSplit(chain: seq<Hop>, r: Row)
    requires chain != []
    ensures ChainRels(chain, r) == [RelIn(r, chain[0].rel.name)] + ChainRels(chain[1..], r)
  {
    var rest := ChainRels(chain[1..], r);
    assert forall i | 0 < i < |chain| :: chain[i] == chain[1..][i - 1];
  }

  lemma UnusedSplit(e: EdgeKey, rels: seq<EdgeKey>, used: set<EdgeKey>)
    ensures Unused([e] + rels, used) <==> e !in used && Unused(rels, used + {e})
    ensures used + (set x | x in [e] + rels) == used + {e} + set x | x in rels
  {
    var all := [e] + rels;
    assert forall i | 0 <= i < |rels| :: all[i + 1] == rels[i];
    if Unused(all, used) {
      assert forall x | x in rels :: x in all;
      forall x | x in rels ensures x !in used + {e} {
        var i :| 0 <= i < |rels| && rels[i] == x;
        assert all[0] != all[i + 1];
      }
    }
  }

  /** One accepted hop in front of an extension. */
  lemma ExtensionCons(c: Context, chain: seq<Hop>, n: NodeId, row: Row, used: set<EdgeKey>, key: EdgeKey, other: NodeId, p: Found)
    requires chain != [] && key in c.g.edgeAttrs && Joins(key, chain[0].rel.direction, n, other)
    requires Accepts(c, chain[0], row, used, key, other).Ok?
    requires p.0.Keys >= Step(chain[0], row, key, other).Keys && Agrees(row, p.0) && Agrees(Step(chain[0], row, key, other), p.0)
    requires chain[0].rel.name != chain[0].node.name
    ensures Extension(c, chain, n, row, used, p) <==>
            && Accepts(c, chain[0], row, used, key, other).value
            && Extension(c, chain[1..], other, Step(chain[0], row, key, other), used + {key}, p)
  {
    var hop := chain[0];
    AcceptsMeans(c, hop, n, row, used, key, other, p.0);
    ChainRelsSplit(chain, p.0);
    UnusedSplit(key, ChainRels(chain[1..], p.0), used);
    assert ChainHolds(c, chain, n, p.0) <==> HopHolds(c, hop, n, p.0) && ChainHolds(c, chain[1..], other, p.0);
    hide Accepts, HopHolds, Unused, ChainHolds, ChainRels;
  }

  lemma {:induction false} ExpandSound(c: Context, chain: seq<Hop>, n: NodeId, row: Row, used: set<EdgeKey>, p: Found)
    requires WellFormed(c.g) && NamesApart(chain)
    requires Expand(c, chain, n, row, used).Ok? && p in Expand(c, chain, n, row, used).value
    ensures Extension(c, chain, n, row, used, p)
    decreases |chain|, 1, 0
  {
    if chain != [] {
      var candidates := Candidates(c.g, n, chain[0].rel.direction);
      CandidatesAre(c.g, n, chain[0].rel.direction);
      var _ := ExpandFromSound(c, chain, n, row, used, candidates, p);
    }
  }

  lemma {:induction false} ExpandFromSound(c: Context, chain: seq<Hop>, n: NodeId, row: Row, used: set<EdgeKey>,
                                           candidates: seq<(EdgeKey, NodeId)>, p: Found)
    returns (k: nat)
    requires WellFormed(c.g) && NamesApart(chain) && chain != []
    requires forall i | 0 <= i < |candidates| ::
      candidates[i].0 in c.g.edgeAttrs && Joins(candidates[i].0, chain[0].rel.direction, n, candidates[i].1)
    requires ExpandFrom(c, chain, row, used, candidates).Ok? && p in ExpandFrom(c, chain, row, used, candidates).value
    ensures Extension(c, chain, n, row, used, p)
    ensures k < |candidates| && RelIn(p.0, chain[0].rel.name) == candidates[k].0
    decreases |chain|, 0, |candidates|
  {
    hide Accepts, HopHolds, ChainHolds, Unused, ChainRels, WellFormed, Joins, Expand, ChainVars;
    var (key, other) := candidates[0];
    var hop, step := chain[0], Step(chain[0], row, key, other);
    if Accepts(c, hop, row, used, key, other).value && p in Expand(c, chain[1..], other, step, used + {key}).value {
      assert forall i | 0 <= i < |chain[1..]| :: chain[1..][i] == chain[i + 1];
      ExpandSound(c, chain[1..], other, step, used + {key}, p);
      StepExtends(c, hop, row, used, key, other);
      ExtensionCons(c, chain, n, row, used, key, other, p);
      k := 0;
    } else {
      var k' := ExpandFromSound(c, chain, n, row, used, candidates[1..], p);
      k := k' + 1;
    }
  }

  /** The part of a row that binds the given variables. */
  function Restrict(r: Row, names: set<string>): Row {
    map k | k in r && k in names :: r[k]
  }

  /** Whatever satisfies the chain is found: `r` is a row of which the chain binds a part. */
  lemma {:induction false} ExpandComplete(c: Context, chain: seq<Hop>, n: NodeId, row: Row, used: set<EdgeKey>, r: Row)
    requires WellFormed(c.g) && Expand(c, chain, n, row, used).Ok?
    requires Agrees(row, r) && ChainHolds(c, chain, n, r) && Unused(ChainRels(chain, r), used)
    ensures (Restrict(r, row.Keys + ChainVars(chain)), used + set e | e in ChainRels(chain, r)) in Expand(c, chain, n, row, used).value
    decreases |chain|, 1, 0
  {
    if chain == [] {
      assert Restrict(r, row.Keys + {}) == row;
      assert used + (set e | e in ChainRels(chain, r)) == used;
    } else {
      var candidates := Candidates(c.g, n, chain[0].rel.direction);
      CandidatesAre(c.g, n, chain[0].rel.direction);
      var e, m := r[chain[0].rel.name].key, r[chain[0].node.name].id;
      assert (e, m) in candidates;
      var k :| 0 <= k < |candidates| && candidates[k] == (e, m);
      ExpandFromComplete(c, chain, n, row, used, candidates, k, r);
    }
  }

  lemma {:induction false} ExpandFromComplete(c: Context, chain: seq<Hop>, n: NodeId, row: Row, used: set<EdgeKey>,
                                              candidates: seq<(EdgeKey, NodeId)>, k: nat, r: Row)
    requires WellFormed(c.g) && chain != [] && ExpandFrom(c, chain, row, used, candidates).Ok?
    requires Agrees(row, r) && ChainHolds(c, chain, n, r) && Unused(ChainRels(chain, r), used)
    requires k < |candidates| && candidates[k] == (r[chain[0].rel.name].key, r[chain[0].node.name].id)
    ensures (Restrict(r, row.Keys + ChainVars(chain)), used + set e | e in ChainRels(chain, r))
            in ExpandFrom(c, chain, row, used, candidates).value
    decreases |chain|, 0, |candidates|
  {
    hide Accepts, HopHolds, Unused, ChainRels, Candidates, WellFormed, Expand, Joins, Restrict, ChainVars, ChainHolds, Step;
    if k == 0 {
      FirstComplete(c, chain, n, row, used, candidates, r);
    } else {
      ExpandFromComplete(c, chain, n, row, used, candidates[1..], k - 1, r);
    }
  }

  lemma {:induction false} FirstComplete(c: Context, chain: seq<Hop>, n: NodeId, row: Row, used: set<EdgeKey>,
                                         candidates: seq<(EdgeKey, NodeId)>, r: Row)
    requires WellFormed(c.g) && chain != [] && ExpandFrom(c, chain, row, used, candidates).Ok?
    requires Agrees(row, r) && ChainHolds(c, chain, n, r) && Unused(ChainRels(chain, r), used)
    requires candidates != [] && candidates[0] == (r[chain[0].rel.name].key, r[chain[0].node.name].id)
    ensures (Restrict(r, row.Keys + ChainVars(chain)), used + set e | e in ChainRels(chain, r))
            in ExpandFrom(c, chain, row, used, candidates).value
    decreases |chain|, 0, 0
  {
    var (key, other) := candidates[0];
    var step := Step(chain[0], row, key, other);
    AcceptsMeans(c, chain[0], n, row, used, key, other, r);
    ChainRelsSplit(chain, r);
    UnusedSplit(key, ChainRels(chain[1..], r), used);
    assert Agrees(step, r);
    assert step.Keys + ChainVars(chain[1..]) == row.Keys + ChainVars(chain);
    hide Accepts, HopHolds, Unused, ChainRels, Candidates, WellFormed, Expand, Joins, Step, ChainVars;
    ExpandComplete(c, chain[1..], other, step, used + {key}, r);
  }

  /** Two sequences without repetition, and nothing in common, make one. */
  predicate Apart(found: seq<Found>) {
    forall i, j | 0 <= i < j < |found| :: found[i].0 != found[j].0
  }

  lemma ApartConcat(a: seq<Found>, b: seq<Found>)
    requires Apart(a) && Apart(b) && forall p, q | p in a && q in b :: p.0 != q.0
    ensures Apart(a + b)
  {
    var all := a + b;
    forall i, j | 0 <= i < j < |all| ensures all[i].0 != all[j].0 {
      if i < |a| <= j { assert all[i] in a && all[j] in b; }
    }
  }

  /** What the first candidate leads to differs from what the others lead to, by its relation. */
  lemma {:induction false} DifferentRelations(c: Context, chain: seq<Hop>, n: NodeId, row: Row, used: set<EdgeKey>,
                                              candidates: seq<(EdgeKey, NodeId)>, p: Found, q: Found)
    requires WellFormed(c.g) && NamesApart(chain) && chain != [] && candidates != []
    requires forall i | 0 <= i < |candidates| ::
      candidates[i].0 in c.g.edgeAttrs && Joins(candidates[i].0, chain[0].rel.direction, n, candidates[i].1)
    requires forall i, j | 0 <= i < j < |candidates| :: candidates[i].0 != candidates[j].0
    requires var (key, other) := candidates[0];
             var here := Expand(c, chain[1..], other, Step(chain[0], row, key, other), used + {key});
             here.Ok? && p in here.value
    requires ExpandFrom(c, chain, row, used, candidates[1..]).Ok? && q in ExpandFrom(c, chain, row, used, candidates[1..]).value
    ensures p.0 != q.0
  {
    hide Accepts, HopHolds, ChainHolds, Unused, ChainRels, WellFormed, Joins, Expand, ExpandFrom, ChainVars;
    var (key, other) := candidates[0];
    assert forall i | 0 <= i < |chain[1..]| :: chain[1..][i] == chain[i + 1];
    ExpandSound(c, chain[1..], other, Step(chain[0], row, key, other), used + {key}, p);
    var k := ExpandFromSound(c, chain, n, row, used, candidates[1..], q);
    assert RelIn(p.0, chain[0].rel.name) == key;
    assert candidates[1..][k] == candidates[k + 1];
  }

  lemma {:induction false} ExpandApart(c: Context, chain: seq<Hop>, n: NodeId, row: Row, used: set<EdgeKey>)
    requires WellFormed(c.g) && NamesApart(chain) && Expand(c, chain, n, row, used).Ok?
    ensures Apart(Expand(c, chain, n, row, used).value)
    decreases |chain|, 1, 0
  {
    if chain != [] {
      CandidatesAre(c.g, n, chain[0].rel.direction);
      ExpandFromApart(c, chain, n, row, used, Candidates(c.g, n, chain[0].rel.direction));
    }
  }

  lemma {:induction false} ExpandFromApart(c: Context, chain: seq<Hop>, n: NodeId, row: Row, used: set<EdgeKey>,
                                           candidates: seq<(EdgeKey, NodeId)>)
    requires WellFormed(c.g) && NamesApart(chain) && chain != [] && ExpandFrom(c, chain, row, used, candidates).Ok?
    requires forall i | 0 <= i < |candidates| ::
      candidates[i].0 in c.g.edgeAttrs && Joins(candidates[i].0, chain[0].rel.direction, n, candidates[i].1)
    requires forall i, j | 0 <= i < j < |candidates| :: candidates[i].0 != candidates[j].0
    ensures Apart(ExpandFrom(c, chain, row, used, candidates).value)
    decreases |chain|, 0, |candidates|
  {
    if candidates != [] {
      hide Accepts, HopHolds, ChainHolds, Unused, ChainRels, WellFormed, Joins, Expand, ChainVars, Apart;
      var (key, other) := candidates[0];
      var step := Step(chain[0], row, key, other);
      var accepted := Accepts(c, chain[0], row, used, key, other).value;
      assert forall i | 0 <= i < |chain[1..]| :: chain[1..][i] == chain[i + 1];
      ExpandFromApart(c, chain, n, row, used, candidates[1..]);
      var rest := ExpandFrom(c, chain, row, used, candidates[1..]).value;
      if accepted {
        ExpandApart(c, chain[1..], other, step, used + {key});
        var here := Expand(c, chain[1..], other, step, used + {key}).value;
        forall p, q | p in here && q in rest ensures p.0 != q.0 {
          DifferentRelations(c, chain, n, row, used, candidates, p, q);
        }
        ApartConcat(here, rest);
      } else {
        assert ExpandFrom(c, chain, row, used, candidates).value == [] + rest;
      }
    }
  }

  // --- Several patterns ----------------------------------------------------

  lemma {:induction false} PropsMore(c: Context, attrs: Attrs, props: seq<MapEntry>, row: Row, r: Row)
    requires PropsHold(c, attrs, props, row) && Agrees(row, r)
    ensures PropsHold(c, attrs, props, r)
  {
    hide Equals;
    forall i | 0 <= i < |props|
      ensures var v := Eval(c.g, c.params, props[i].e, r, None); v.Ok? && Equals(Lookup(attrs, props[i].key), v.value).True?
    {
      EvalMore(c.g, c.params, props[i].e, row, r);
    }
  }

  /** A chain that holds of a row holds of every longer row. */
  lemma {:induction false} ChainMore(c: Context, chain: seq<Hop>, n: NodeId, row: Row, r: Row)
    requires ChainHolds(c, chain, n, row) && Agrees(row, r)
    ensures ChainHolds(c, chain, n, r) && ChainRels(chain, r) == ChainRels(chain, row)
  {
    if chain != [] {
      var hop := chain[0];
      var e, m := row[hop.rel.name].key, row[hop.node.name].id;
      hide PropsHold, Joins;
      PropsMore(c, RelAttrs(c.g, e), hop.rel.props, row, r);
      PropsMore(c, NodeAttrs(c.g, m), hop.node.props, row, r);
      ChainMore(c, chain[1..], m, row, r);
      ChainRelsSplit(chain, row);
      ChainRelsSplit(chain, r);
    }
  }

  lemma {:induction false} ChainLive(c: Context, chain: seq<Hop>, n: NodeId, r: Row)
    requires WellFormed(c.g) && ChainHolds(c, chain, n, r)
    ensures forall k | k in ChainVars(chain) :: k in r && (r[k].NodeRef? ==> r[k].id in c.g.nodeAttrs)
  {
    if chain != [] {
      hide PropsHold, NodeHolds;
      ChainLive(c, chain[1..], r[chain[0].node.name].id, r);
    }
  }

  lemma UnusedConcat(a: seq<EdgeKey>, b: seq<EdgeKey>, used: set<EdgeKey>)
    ensures Unused(a + b, used) <==> Unused(a, used) && Unused(b, used + set e | e in a)
  {
    var all := a + b;
    assert forall i | 0 <= i < |a| :: all[i] == a[i];
    assert forall j | 0 <= j < |b| :: all[|a| + j] == b[j];
    if Unused(all, used) {
      forall i | 0 <= i < |a| ensures a[i] !in used { assert all[i] in all; }
      forall j | 0 <= j < |b| ensures b[j] !in used && b[j] !in a { assert all[|a| + j] in all; }
    } else if Unused(a, used) && Unused(b, used + set e | e in a) {
      forall i, j | 0 <= i < j < |all| ensures all[i] != all[j] {
        if i < |a| <= j { assert all[i] in a && all[j] in b; }
      }
    }
  }

  predicate PatternsApart(patterns: seq<Pattern>) {
    forall i | 0 <= i < |patterns| :: NamesApart(patterns[i].chain)
  }

  /** One pattern in front of the others. */
  lemma MatchesCons(c: Context, patterns: seq<Pattern>, row: Row, used: set<EdgeKey>, n: NodeId, p: Found, r: Row)
    requires patterns != [] && n in c.g.nodeAttrs && NodeOk(c, n, patterns[0].first, row) == Ok(true)
    requires Agrees(row, Bound(patterns[0], row, n))
    requires Extension(c, patterns[0].chain, n, Bound(patterns[0], row, n), used, p)
    requires Matches(c, patterns[1..], p.0, p.1, r)
    ensures Matches(c, patterns, row, used, r)
  {
    var first, bound := patterns[0], Bound(patterns[0], row, n);
    NodeMeans(c, n, first.first, row, r);
    ChainMore(c, first.chain, n, p.0, r);
    UnusedConcat(ChainRels(first.chain, r), AllRels(patterns[1..], r), used);
    hide NodeOk, NodeHolds, ChainHolds, ChainRels, Unused;
    forall i | 0 <= i < |patterns| ensures PatternHolds(c, patterns[i], r) {
      if i > 0 { assert patterns[i] == patterns[1..][i - 1]; }
    }
  }

  lemma ExtensionLive(c: Context, chain: seq<Hop>, n: NodeId, row: Row, used: set<EdgeKey>, p: Found)
    requires WellFormed(c.g) && Live(c.g, row) && Extension(c, chain, n, row, used, p)
    ensures Live(c.g, p.0)
  {
    ChainLive(c, chain, n, p.0);
    hide ChainHolds, WellFormed;
  }

  // --- Which rows the loops yield ------------------------------------------

  lemma {:induction false} FittingAre(c: Context, pat: NodePat, row: Row, nodes: seq<NodeId>)
    requires Fitting(c, pat, row, nodes).Ok? && Distinct(nodes)
    ensures var fitting := Fitting(c, pat, row, nodes).value;
            && (forall n | n in nodes :: NodeOk(c, n, pat, row).Ok?)
            && (forall n :: n in fitting <==> n in nodes && NodeOk(c, n, pat, row).value)
            && Distinct(fitting)
  {
    if nodes != [] {
      hide NodeOk;
      assert nodes == [nodes[0]] + nodes[1..];
      assert forall n | n in nodes[1..] :: n != nodes[0];
      FittingAre(c, pat, row, nodes[1..]);
    }
  }

  /** The nodes tried for a pattern: those that fit, and the bound one only if the variable is bound. */
  lemma NodeCandidatesAre(c: Context, pat: NodePat, row: Row)
    requires WellFormed(c.g) && Live(c.g, row) && NodeCandidates(c, pat, row).Ok?
    ensures var nodes := NodeCandidates(c, pat, row).value;
            && Distinct(nodes)
            && (forall n | n in nodes :: n in c.g.nodeAttrs && NodeOk(c, n, pat, row) == Ok(true)
                                         && (pat.name in row ==> row[pat.name] == NodeRef(n)))
            && (forall n | n in c.g.nodeAttrs && (pat.name in row ==> row[pat.name] == NodeRef(n)) ::
                  NodeOk(c, n, pat, row).Ok? && (NodeOk(c, n, pat, row).value ==> n in nodes))
  {
    if pat.name in row {
      if row[pat.name].NodeRef? { FittingAre(c, pat, row, [row[pat.name].id]); }
    } else {
      FittingAre(c, pat, row, c.g.nodes);
    }
    hide NodeOk;
  }

  lemma {:induction false} MatchRestRows(c: Context, patterns: seq<Pattern>, found: seq<Found>, r: Row)
    requires MatchRest(c, patterns, found).Ok?
    ensures forall p | p in found :: MatchPatterns(c, patterns, p.0, p.1).Ok?
    ensures r in MatchRest(c, patterns, found).value <==>
            exists p :: p in found && r in MatchPatterns(c, patterns, p.0, p.1).value
    decreases |found|
  {
    if found != [] {
      hide MatchPatterns;
      MatchRestRows(c, patterns, found[1..], r);
      assert found == [found[0]] + found[1..];
    }
  }

  lemma {:induction false} MatchFromRows(c: Context, patterns: seq<Pattern>, row: Row, used: set<EdgeKey>, nodes: seq<NodeId>, r: Row)
    requires patterns != [] && MatchFrom(c, patterns, row, used, nodes).Ok?
    ensures forall n | n in nodes ::
      && Expand(c, patterns[0].chain, n, Bound(patterns[0], row, n), used).Ok?
      && MatchRest(c, patterns[1..], Expand(c, patterns[0].chain, n, Bound(patterns[0], row, n), used).value).Ok?
    ensures r in MatchFrom(c, patterns, row, used, nodes).value <==>
            exists n :: n in nodes && r in MatchRest(c, patterns[1..], Expand(c, patterns[0].chain, n, Bound(patterns[0], row, n), used).value).value
    decreases |nodes|
  {
    if nodes != [] {
      hide MatchRest, Expand, Bound;
      MatchFromRows(c, patterns, row, used, nodes[1..], r);
      assert nodes == [nodes[0]] + nodes[1..];
      var here := MatchRest(c, patterns[1..], Expand(c, patterns[0].chain, nodes[0], Bound(patterns[0], row, nodes[0]), used).value).value;
      var rest := MatchFrom(c, patterns, row, used, nodes[1..]).value;
      assert MatchFrom(c, patterns, row, used, nodes).value == here + rest;
      assert r in here + rest <==> r in here || r in rest;
    }
  }

  // --- The search is exact -------------------------------------------------

  lemma {:induction false} MatchSound(c: Context, patterns: seq<Pattern>, row: Row, used: set<EdgeKey>, r: Row)
    requires WellFormed(c.g) && Live(c.g, row) && PatternsApart(patterns)
    requires MatchPatterns(c, patterns, row, used).Ok? && r in MatchPatterns(c, patterns, row, used).value
    ensures Matches(c, patterns, row, used, r)
    decreases |patterns|
  {
    if patterns != [] {
      var first := patterns[0];
      var n, p := MatchWitness(c, patterns, row, used, r);
      hide *;
      ExpandSound(c, first.chain, n, Bound(first, row, n), used, p);
      LiveBound(c, first, row, n);
      ExtensionLive(c, first.chain, n, Bound(first, row, n), used, p);
      FewerApart(patterns);
      MatchSound(c, patterns[1..], p.0, p.1, r);
      MatchesCons(c, patterns, row, used, n, p, r);
    }
  }

  lemma FewerApart(patterns: seq<Pattern>)
    requires patterns != [] && PatternsApart(patterns)
    ensures NamesApart(patterns[0].chain) && PatternsApart(patterns[1..])
  {
    hide NamesApart;
    assert forall i | 0 <= i < |patterns[1..]| :: patterns[1..][i] == patterns[i + 1];
  }

  lemma LiveBound(c: Context, p: Pattern, row: Row, n: NodeId)
    requires Live(c.g, row) && n in c.g.nodeAttrs
    ensures Live(c.g, Bound(p, row, n))
  {
  }

  /** The first node and the chain that led to a row. */
  lemma MatchWitness(c: Context, patterns: seq<Pattern>, row: Row, used: set<EdgeKey>, r: Row) returns (n: NodeId, p: Found)
    requires WellFormed(c.g) && Live(c.g, row) && patterns != []
    requires MatchPatterns(c, patterns, row, used).Ok? && r in MatchPatterns(c, patterns, row, used).value
    ensures n in c.g.nodeAttrs && NodeOk(c, n, patterns[0].first, row) == Ok(true) && Agrees(row, Bound(patterns[0], row, n))
    ensures Expand(c, patterns[0].chain, n, Bound(patterns[0], row, n), used).Ok?
    ensures p in Expand(c, patterns[0].chain, n, Bound(patterns[0], row, n), used).value
    ensures MatchPatterns(c, patterns[1..], p.0, p.1).Ok? && r in MatchPatterns(c, patterns[1..], p.0, p.1).value
    ensures PatternsApart(patterns) ==> NamesApart(patterns[0].chain)
  {
    var first := patterns[0];
    var nodes := NodeCandidates(c, first.first, row).value;
    NodeCandidatesAre(c, first.first, row);
    MatchFromRows(c, patterns, row, used, nodes, r);
    hide MatchFrom, MatchRest, Expand, NodeCandidates, WellFormed, NodeOk, MatchPatterns, NamesApart;
    n :| n in nodes && r in MatchRest(c, patterns[1..], Expand(c, first.chain, n, Bound(first, row, n), used).value).value;
    var found := Expand(c, first.chain, n, Bound(first, row, n), used).value;
    MatchRestRows(c, patterns[1..], found, r);
    p :| p in found && r in MatchPatterns(c, patterns[1..], p.0, p.1).value;
  }

  lemma {:induction false} MatchComplete(c: Context, patterns: seq<Pattern>, row: Row, used: set<EdgeKey>, r: Row)
    requires WellFormed(c.g) && Live(c.g, row) && MatchPatterns(c, patterns, row, used).Ok?
    requires Matches(c, patterns, row, used, r)
    ensures r in MatchPatterns(c, patterns, row, used).value
    decreases |patterns|
  {
    if patterns == [] {
      assert r == row;
    } else {
      var first := patterns[0];
      MatchesHead(c, patterns, row, used, r);
      var n := r[first.first.name].id;
      var bound := Bound(first, row, n);
      var p := Part(first, row, used, r);
      MatchesTail(c, patterns, row, used, r);
      NodeCandidatesAre(c, first.first, row);
      NodeMeansIfOk(c, n, first.first, row, r);
      var nodes := NodeCandidates(c, first.first, row).value;
      hide *;
      assert n in nodes;
      MatchFromHas(c, patterns, row, used, nodes);
      ExpandComplete(c, first.chain, n, bound, used, r);
      MatchFoundHas(c, patterns, row, used, nodes, n, p);
      MatchComplete(c, patterns[1..], p.0, p.1, r);
      MatchInto(c, patterns, row, used, nodes, n, p, r);
    }
  }

  /** The part of a matching row that the first pattern binds. */
  function Part(p: Pattern, row: Row, used: set<EdgeKey>, r: Row): Found {
    (Restrict(r, row.Keys + {p.first.name} + ChainVars(p.chain)), used + set e | e in ChainRels(p.chain, r))
  }

  lemma MatchesHead(c: Context, patterns: seq<Pattern>, row: Row, used: set<EdgeKey>, r: Row)
    requires patterns != [] && Matches(c, patterns, row, used, r)
    ensures IsNode(r, patterns[0].first.name)
    ensures var first, n := patterns[0], r[patterns[0].first.name].id;
            && n in c.g.nodeAttrs && NodeHolds(c, n, first.first, r) && ChainHolds(c, first.chain, n, r)
            && (first.first.name in row ==> row[first.first.name] == NodeRef(n))
            && Agrees(Bound(first, row, n), r)
            && Bound(first, row, n).Keys == row.Keys + {first.first.name}
    ensures Unused(ChainRels(patterns[0].chain, r), used)
    ensures Unused(AllRels(patterns[1..], r), used + set e | e in ChainRels(patterns[0].chain, r))
  {
    hide NodeHolds, ChainHolds, ChainRels, Unused;
    assert PatternHolds(c, patterns[0], r);
    UnusedConcat(ChainRels(patterns[0].chain, r), AllRels(patterns[1..], r), used);
  }

  lemma MatchesTail(c: Context, patterns: seq<Pattern>, row: Row, used: set<EdgeKey>, r: Row)
    requires WellFormed(c.g) && Live(c.g, row) && patterns != [] && Matches(c, patterns, row, used, r)
    ensures var p := Part(patterns[0], row, used, r); Live(c.g, p.0) && Matches(c, patterns[1..], p.0, p.1, r)
  {
    MatchesHead(c, patterns, row, used, r);
    var first := patterns[0];
    var n, p := r[first.first.name].id, Part(first, row, used, r);
    ChainLive(c, first.chain, n, r);
    hide NodeHolds, ChainHolds, ChainRels, Unused, WellFormed, PatternHolds, Bound, AllRels;
    forall i | 0 <= i < |patterns[1..]| ensures PatternHolds(c, patterns[1..][i], r) { assert patterns[1..][i] == patterns[i + 1]; }
    assert r.Keys == p.0.Keys + Vars(patterns[1..]);
  }

  lemma NodeMeansIfOk(c: Context, n: NodeId, pat: NodePat, row: Row, r: Row)
    requires Agrees(row, r) && NodeHolds(c, n, pat, r)
    ensures NodeOk(c, n, pat, row).Ok? ==> NodeOk(c, n, pat, row).value
  {
    if NodeOk(c, n, pat, row).Ok? { NodeMeans(c, n, pat, row, r); }
  }

  lemma MatchFromHas(c: Context, patterns: seq<Pattern>, row: Row, used: set<EdgeKey>, nodes: seq<NodeId>)
    requires patterns != [] && MatchPatterns(c, patterns, row, used).Ok?
    requires NodeCandidates(c, patterns[0].first, row) == Ok(nodes)
    ensures MatchFrom(c, patterns, row, used, nodes) == MatchPatterns(c, patterns, row, used)
    ensures forall n | n in nodes ::
      && Expand(c, patterns[0].chain, n, Bound(patterns[0], row, n), used).Ok?
      && MatchRest(c, patterns[1..], Expand(c, patterns[0].chain, n, Bound(patterns[0], row, n), used).value).Ok?
  {
    MatchFromRows(c, patterns, row, used, nodes, map[]);
  }

  lemma MatchFoundHas(c: Context, patterns: seq<Pattern>, row: Row, used: set<EdgeKey>, nodes: seq<NodeId>, n: NodeId, p: Found)
    requires patterns != [] && MatchFrom(c, patterns, row, used, nodes).Ok? && n in nodes
    requires Expand(c, patterns[0].chain, n, Bound(patterns[0], row, n), used).Ok?
    requires MatchRest(c, patterns[1..], Expand(c, patterns[0].chain, n, Bound(patterns[0], row, n), used).value).Ok?
    requires p in Expand(c, patterns[0].chain, n, Bound(patterns[0], row, n), used).value
    ensures MatchPatterns(c, patterns[1..], p.0, p.1).Ok?
  {
    MatchRestRows(c, patterns[1..], Expand(c, patterns[0].chain, n, Bound(patterns[0], row, n), used).value, map[]);
  }

  lemma MatchInto(c: Context, patterns: seq<Pattern>, row: Row, used: set<EdgeKey>, nodes: seq<NodeId>, n: NodeId, p: Found, r: Row)
    requires patterns != [] && MatchFrom(c, patterns, row, used, nodes).Ok? && n in nodes
    requires Expand(c, patterns[0].chain, n, Bound(patterns[0], row, n), used).Ok?
    requires MatchRest(c, patterns[1..], Expand(c, patterns[0].chain, n, Bound(patterns[0], row, n), used).value).Ok?
    requires p in Expand(c, patterns[0].chain, n, Bound(patterns[0], row, n), used).value
    requires MatchPatterns(c, patterns[1..], p.0, p.1).Ok? && r in MatchPatterns(c, patterns[1..], p.0, p.1).value
    ensures r in MatchFrom(c, patterns, row, used, nodes).value
  {
    MatchRestRows(c, patterns[1..], Expand(c, patterns[0].chain, n, Bound(patterns[0], row, n), used).value, r);
    MatchFromRows(c, patterns, row, used, nodes, r);
  }

  // --- No row is yielded twice ---------------------------------------------

  lemma DistinctConcat<T>(a: seq<T>, b: seq<T>)
    requires Distinct(a) && Distinct(b) && forall x, y | x in a && y in b :: x != y
    ensures Distinct(a + b)
  {
    var all := a + b;
    forall i, j | 0 <= i < j < |all| ensures all[i] != all[j] {
      if i < |a| <= j { assert all[i] in a && all[j] in b; }
    }
  }

  lemma SameRow(p: Row, q: Row)
    requires p.Keys == q.Keys
    ensures p == q <==> forall k | k in p :: p[k] == q[k]
  {
  }

  /** Rows that differ where both are bound lead to different rows. */
  lemma StillDifferent(p: Row, q: Row, r: Row, s: Row)
    requires p.Keys == q.Keys && p != q && Agrees(p, r) && Agrees(q, s)
    ensures r != s
  {
    SameRow(p, q);
    var k :| k in p && p[k] != q[k];
  }

  lemma MatchAgrees(c: Context, patterns: seq<Pattern>, row: Row, used: set<EdgeKey>, r: Row)
    requires WellFormed(c.g) && Live(c.g, row) && PatternsApart(patterns)
    requires MatchPatterns(c, patterns, row, used).Ok? && r in MatchPatterns(c, patterns, row, used).value
    ensures Agrees(row, r)
  {
    MatchSound(c, patterns, row, used, r);
  }

  lemma {:induction false} MatchDistinct(c: Context, patterns: seq<Pattern>, row: Row, used: set<EdgeKey>)
    requires WellFormed(c.g) && Live(c.g, row) && PatternsApart(patterns) && MatchPatterns(c, patterns, row, used).Ok?
    ensures Distinct(MatchPatterns(c, patterns, row, used).value)
    decreases |patterns|, 2, 0
  {
    if patterns != [] {
      NodeCandidatesAre(c, patterns[0].first, row);
      var nodes := NodeCandidates(c, patterns[0].first, row).value;
      hide NodeCandidates, MatchFrom, WellFormed, NodeOk, PatternsApart, Distinct;
      assert forall n | n in nodes :: Agrees(row, Bound(patterns[0], row, n));
      MatchFromDistinct(c, patterns, row, used, nodes);
    }
  }

  lemma {:induction false} MatchFromDistinct(c: Context, patterns: seq<Pattern>, row: Row, used: set<EdgeKey>, nodes: seq<NodeId>)
    requires WellFormed(c.g) && Live(c.g, row) && PatternsApart(patterns) && patterns != [] && Distinct(nodes)
    requires forall n | n in nodes :: n in c.g.nodeAttrs
    requires MatchFrom(c, patterns, row, used, nodes).Ok?
    ensures Distinct(MatchFrom(c, patterns, row, used, nodes).value)
    decreases |patterns|, 1, |nodes|
  {
    if nodes != [] {
      var first, n := patterns[0], nodes[0];
      assert nodes == [n] + nodes[1..];
      var found := Expand(c, first.chain, n, Bound(first, row, n), used).value;
      var here, rest := MatchRest(c, patterns[1..], found).value, MatchFrom(c, patterns, row, used, nodes[1..]).value;
      assert MatchFrom(c, patterns, row, used, nodes).value == here + rest;
      FewerApart(patterns);
      LiveBound(c, first, row, n);
      forall i, j | 0 <= i < j < |nodes[1..]| ensures nodes[1..][i] != nodes[1..][j] { assert nodes[i + 1] != nodes[j + 1]; }
      assert forall m | m in nodes[1..] :: m != n;
      MatchFromRows(c, patterns, row, used, nodes, map[]);
      hide *;
      MatchFromDistinct(c, patterns, row, used, nodes[1..]);
      FoundDistinct(c, patterns, row, used, n, found);
      forall r, s | r in here && s in rest ensures r != s {
        DifferentNodes(c, patterns, row, used, n, nodes[1..], r, s);
      }
      DistinctConcat(here, rest);
    }
  }

  /** A row records the node its search started from. */
  lemma RowFromNode(c: Context, patterns: seq<Pattern>, row: Row, used: set<EdgeKey>, n: NodeId, r: Row)
    requires WellFormed(c.g) && Live(c.g, row) && PatternsApart(patterns) && patterns != [] && n in c.g.nodeAttrs
    requires Expand(c, patterns[0].chain, n, Bound(patterns[0], row, n), used).Ok?
    requires var found := Expand(c, patterns[0].chain, n, Bound(patterns[0], row, n), used).value;
             MatchRest(c, patterns[1..], found).Ok? && r in MatchRest(c, patterns[1..], found).value
    ensures patterns[0].first.name in r && r[patterns[0].first.name] == NodeRef(n)
  {
    var first, bound := patterns[0], Bound(patterns[0], row, n);
    var found := Expand(c, first.chain, n, bound, used).value;
    MatchRestRows(c, patterns[1..], found, r);
    FewerApart(patterns);
    LiveBound(c, first, row, n);
    hide WellFormed, PatternsApart, Live, NamesApart, MatchRest, Expand, MatchPatterns, ChainHolds, Unused;
    var p :| p in found && r in MatchPatterns(c, patterns[1..], p.0, p.1).value;
    ExpandSound(c, first.chain, n, bound, used, p);
    ExtensionLive(c, first.chain, n, bound, used, p);
    MatchAgrees(c, patterns[1..], p.0, p.1, r);
  }

  lemma DifferentNodes(c: Context, patterns: seq<Pattern>, row: Row, used: set<EdgeKey>, n: NodeId, nodes: seq<NodeId>, r: Row, s: Row)
    requires WellFormed(c.g) && Live(c.g, row) && PatternsApart(patterns) && patterns != [] && n in c.g.nodeAttrs
    requires forall m | m in nodes :: m != n && m in c.g.nodeAttrs
    requires Expand(c, patterns[0].chain, n, Bound(patterns[0], row, n), used).Ok?
    requires var found := Expand(c, patterns[0].chain, n, Bound(patterns[0], row, n), used).value;
             MatchRest(c, patterns[1..], found).Ok? && r in MatchRest(c, patterns[1..], found).value
    requires MatchFrom(c, patterns, row, used, nodes).Ok? && s in MatchFrom(c, patterns, row, used, nodes).value
    ensures r != s
  {
    RowFromNode(c, patterns, row, used, n, r);
    MatchFromRows(c, patterns, row, used, nodes, s);
    hide WellFormed, PatternsApart, Live, MatchFrom, MatchRest, Expand, Bound;
    var m :| m in nodes && s in MatchRest(c, patterns[1..], Expand(c, patterns[0].chain, m, Bound(patterns[0], row, m), used).value).value;
    RowFromNode(c, patterns, row, used, m, s);
  }

  lemma {:induction false} FoundDistinct(c: Context, patterns: seq<Pattern>, row: Row, used: set<EdgeKey>, n: NodeId, found: seq<Found>)
    requires WellFormed(c.g) && Live(c.g, row) && PatternsApart(patterns) && patterns != [] && n in c.g.nodeAttrs
    requires Expand(c, patterns[0].chain, n, Bound(patterns[0], row, n), used) == Ok(found)
    requires MatchRest(c, patterns[1..], found).Ok?
    ensures Distinct(MatchRest(c, patterns[1..], found).value)
    decreases |patterns|, 0, 0
  {
    var first, bound := patterns[0], Bound(patterns[0], row, n);
    FewerApart(patterns);
    LiveBound(c, first, row, n);
    ExpandApart(c, first.chain, n, bound, used);
    hide WellFormed, PatternsApart, Live, NamesApart, MatchRest, Expand, Bound, Apart, Distinct, ChainHolds, Unused;
    forall p | p in found ensures Live(c.g, p.0) && p.0.Keys == bound.Keys + ChainVars(first.chain) {
      ExpandSound(c, first.chain, n, bound, used, p);
      ExtensionLive(c, first.chain, n, bound, used, p);
    }
    MatchRestDistinct(c, patterns[1..], found, bound.Keys + ChainVars(first.chain));
  }

  lemma {:induction false} MatchRestDistinct(c: Context, patterns: seq<Pattern>, found: seq<Found>, keys: set<string>)
    requires WellFormed(c.g) && PatternsApart(patterns) && Apart(found) && MatchRest(c, patterns, found).Ok?
    requires forall p | p in found :: Live(c.g, p.0) && p.0.Keys == keys
    ensures Distinct(MatchRest(c, patterns, found).value)
    decreases |patterns|, 3, |found|
  {
    if found != [] {
      var p := found[0];
      var here, rest := MatchPatterns(c, patterns, p.0, p.1).value, MatchRest(c, patterns, found[1..]).value;
      assert MatchRest(c, patterns, found).value == here + rest;
      assert forall i, j | 0 <= i < j < |found[1..]| :: found[1..][i] == found[i + 1] && found[1..][j] == found[j + 1];
      assert forall q | q in found[1..] :: q in found && q.0 != p.0;
      hide WellFormed, PatternsApart, Live, MatchRest, MatchPatterns, Distinct, Agrees;
      MatchDistinct(c, patterns, p.0, p.1);
      MatchRestDistinct(c, patterns, found[1..], keys);
      forall r, s | r in here && s in rest ensures r != s {
        MatchRestRows(c, patterns, found[1..], s);
        var q :| q in found[1..] && s in MatchPatterns(c, patterns, q.0, q.1).value;
        MatchAgrees(c, patterns, p.0, p.1, r);
        MatchAgrees(c, patterns, q.0, q.1, s);
        StillDifferent(p.0, q.0, r, s);
      }
      DistinctConcat(here, rest);
    }
  }

  /** The search yields exactly the matches, each once. */
  lemma MatchExact(c: Context, patterns: seq<Pattern>, row: Row)
    requires WellFormed(c.g) && Live(c.g, row) && PatternsApart(patterns) && MatchPatterns(c, patterns, row, {}).Ok?
    ensures forall r: Row :: r in MatchPatterns(c, patterns, row, {}).value <==> Matches(c, patterns, row, {}, r)
    ensures Distinct(MatchPatterns(c, patterns, row, {}).value)
  {
    hide *;
    forall r: Row ensures r in MatchPatterns(c, patterns, row, {}).value <==> Matches(c, patterns, row, {}, r) {
      if r in MatchPatterns(c, patterns, row, {}).value { MatchSound(c, patterns, row, {}, r); }
      if Matches(c, patterns, row, {}, r) { MatchComplete(c, patterns, row, {}, r); }
    }
    MatchDistinct(c, patterns, row, {});
  }

  // --- The clause ----------------------------------------------------------

  datatype Clause = Clause(patterns: seq<Pattern>, filter: Option<Expr>, optional: bool)

  /** Is the WHERE condition of a row true, and not just unknown? */
  function Passes(c: Context, filter: Option<Expr>, row: Row): Result<bool, CypherError> {
    match filter
    case None => Ok(true)
    case Some(e) =>
      var v :- Eval(c.g, c.params, e, row, None);
      var t :- TruthOf(v);
      Ok(t.True?)
  }

  function Passing(c: Context, filter: Option<Expr>, rows: seq<Row>): Result<seq<Row>, CypherError> {
    if rows == [] then Ok([])
    else
      var before :- Passing(c, filter, rows[..|rows| - 1]);
      var ok :- Passes(c, filter, rows[|rows| - 1]);
      Ok(if ok then before + [rows[|rows| - 1]] else before)
  }

  /** A row without a match, its new variables null. */
  function Unmatched(clause: Clause, row: Row): Row {
    row + map v | v in Vars(clause.patterns) - row.Keys :: Null
  }

  function MatchRow(c: Context, clause: Clause, row: Row): Result<seq<Row>, CypherError> {
    var found :- MatchPatterns(c, clause.patterns, row, {});
    var kept :- Passing(c, clause.filter, found);
    Ok(if clause.optional && kept == [] then [Unmatched(clause, row)] else kept)
  }

  function MatchRows(c: Context, clause: Clause, rows: seq<Row>): Result<seq<Row>, CypherError> {
    if rows == [] then Ok([])
    else
      var before :- MatchRows(c, clause, rows[..|rows| - 1]);
      var last :- MatchRow(c, clause, rows[|rows| - 1]);
      Ok(before + last)
  }

  /** The condition holds: its value is `true`. */
  ghost predicate FilterHolds(c: Context, filter: Option<Expr>, r: Row) {
    filter.None? || Eval(c.g, c.params, filter.value, r, None) == Ok(Bool(true))
  }

  /** `r` is a row the clause should make of `row`. */
  ghost predicate Wanted(c: Context, clause: Clause, row: Row, r: Row) {
    Matches(c, clause.patterns, row, {}, r) && FilterHolds(c, clause.filter, r)
  }

  lemma {:induction false} PassingAre(c: Context, filter: Option<Expr>, rows: seq<Row>)
    requires Passing(c, filter, rows).Ok? && Distinct(rows)
    ensures var kept := Passing(c, filter, rows).value;
            Distinct(kept) && forall r :: r in kept <==> r in rows && FilterHolds(c, filter, r)
  {
    if rows != [] {
      var n := |rows| - 1;
      PassingAre(c, filter, rows[..n]);
      PassesMeans(c, filter, rows[n]);
      assert rows == rows[..n] + [rows[n]];
      assert forall r | r in rows[..n] :: r != rows[n];
      hide Passes, FilterHolds;
      var kept := Passing(c, filter, rows[..n]).value;
      assert forall r | r in kept :: r in rows[..n];
      if Passes(c, filter, rows[n]).value {
        DistinctConcat(kept, [rows[n]]);
      }
    }
  }

  lemma PassesMeans(c: Context, filter: Option<Expr>, r: Row)
    requires Passes(c, filter, r).Ok?
    ensures Passes(c, filter, r).value <==> FilterHolds(c, filter, r)
  {
  }

  /** A clause makes of each row exactly its matches that pass the condition, each once; an OPTIONAL
      MATCH makes of a row without any one row with nulls. */
  lemma MatchRowExact(c: Context, clause: Clause, row: Row)
    requires WellFormed(c.g) && Live(c.g, row) && PatternsApart(clause.patterns) && MatchRow(c, clause, row).Ok?
    ensures var out := MatchRow(c, clause, row).value;
            && Distinct(out)
            && ((exists r: Row :: Wanted(c, clause, row, r)) || !clause.optional ==> forall r: Row :: r in out <==> Wanted(c, clause, row, r))
            && (clause.optional && !(exists r: Row :: Wanted(c, clause, row, r)) ==> out == [Unmatched(clause, row)])
  {
    MatchExact(c, clause.patterns, row);
    var found := MatchPatterns(c, clause.patterns, row, {}).value;
    PassingAre(c, clause.filter, found);
    var kept := Passing(c, clause.filter, found).value;
    hide MatchPatterns, Matches, Passing, FilterHolds, WellFormed, Live, PatternsApart, Unmatched;
    assert forall r: Row :: r in kept <==> Wanted(c, clause, row, r);
    assert kept == [] || kept[0] in kept;
    if exists r: Row :: Wanted(c, clause, row, r) {
      var r: Row :| Wanted(c, clause, row, r);
      assert r in kept;
    }
  }

  /** The rows a clause makes refer to stored nodes, as the rows it got did. */
  lemma {:induction false} RowsStayLive(c: Context, clause: Clause, rows: seq<Row>)
    requires WellFormed(c.g) && PatternsApart(clause.patterns) && MatchRows(c, clause, rows).Ok?
    requires forall row | row in rows :: Live(c.g, row)
    ensures forall r | r in MatchRows(c, clause, rows).value :: Live(c.g, r)
  {
    if rows != [] {
      var n := |rows| - 1;
      assert rows[n] in rows;
      assert forall row | row in rows[..n] :: row in rows;
      RowsStayLive(c, clause, rows[..n]);
      MatchRowExact(c, clause, rows[n]);
      hide MatchRow, WellFormed, PatternsApart, Matches, FilterHolds;
      forall r | r in MatchRow(c, clause, rows[n]).value ensures Live(c.g, r) {
        if r != Unmatched(clause, rows[n]) { WantedLive(c, clause, rows[n], r); }
      }
    }
  }

  lemma WantedLive(c: Context, clause: Clause, row: Row, r: Row)
    requires WellFormed(c.g) && Live(c.g, row) && Wanted(c, clause, row, r)
    ensures Live(c.g, r)
  {
    hide WellFormed, FilterHolds;
    MatchesLive(c, clause.patterns, row, {}, r);
  }

  lemma {:induction false} MatchesLive(c: Context, patterns: seq<Pattern>, row: Row, used: set<EdgeKey>, r: Row)
    requires WellFormed(c.g) && Live(c.g, row) && Matches(c, patterns, row, used, r)
    ensures Live(c.g, r)
    decreases |patterns|
  {
    if patterns == [] {
      assert r == row;
    } else {
      MatchesTail(c, patterns, row, used, r);
      var p := Part(patterns[0], row, used, r);
      hide *;
      MatchesLive(c, patterns[1..], p.0, p.1, r);
    }
  }

  /** The rows that pass the condition, in order. */
  method Keep(c: Context, filter: Option<Expr>, found: seq<Row>) returns (r: Result<seq<Row>, CypherError>)
    ensures r == Passing(c, filter, found)
  {
    var kept: seq<Row> := [];
    for j := 0 to |found|
      invariant Passing(c, filter, found[..j]) == Ok(kept)
    {
      assert found[..j + 1][..j] == found[..j];
      var ok := Passes(c, filter, found[j]);
      if ok.Err? {
        PassingStops(c, filter, found, j);
        return Err(ok.error);
      }
      if ok.value {
        kept := kept + [found[j]];
      }
    }
    assert found[..|found|] == found;
    return Ok(kept);
  }

  /** `match`. */
  method Match(c: Context, clause: Clause, rows: seq<Row>) returns (r: Result<seq<Row>, CypherError>)
    ensures r == MatchRows(c, clause, rows)
  {
    hide MatchPatterns, Passing, Unmatched;
    var out: seq<Row> := [];
    for i := 0 to |rows|
      invariant MatchRows(c, clause, rows[..i]) == Ok(out)
    {
      assert rows[..i + 1][..i] == rows[..i];
      var found := MatchPatterns(c, clause.patterns, rows[i], {});
      if found.Err? {
        MatchStops(c, clause, rows, i);
        return Err(found.error);
      }
      var kept := Keep(c, clause.filter, found.value);
      if kept.Err? {
        MatchStops(c, clause, rows, i);
        return Err(kept.error);
      }
      out := out + if clause.optional && kept.value == [] then [Unmatched(clause, rows[i])] else kept.value;
    }
    assert rows[..|rows|] == rows;
    return Ok(out);
  }

  /** The first error is the query's. */
  lemma {:induction false} MatchStops(c: Context, clause: Clause, rows: seq<Row>, i: nat)
    requires i < |rows| && MatchRows(c, clause, rows[..i]).Ok? && MatchRow(c, clause, rows[i]).Err?
    ensures MatchRows(c, clause, rows) == Err(MatchRow(c, clause, rows[i]).error)
    decreases |rows|
  {
    hide MatchRow;
    var n := |rows| - 1;
    if i < n {
      assert rows[..n][..i] == rows[..i] && rows[..n][i] == rows[i];
      MatchStops(c, clause, rows[..n], i);
    }
  }

  lemma {:induction false} PassingStops(c: Context, filter: Option<Expr>, rows: seq<Row>, i: nat)
    requires i < |rows| && Passing(c, filter, rows[..i]).Ok? && Passes(c, filter, rows[i]).Err?
    ensures Passing(c, filter, rows) == Err(Passes(c, filter, rows[i]).error)
    decreases |rows|
  {
    hide Passes;
    var n := |rows| - 1;
    if i < n {
      assert rows[..n][..i] == rows[..i] && rows[..n][i] == rows[i];
      PassingStops(c, filter, rows[..n], i);
    }
  }

  // --- A relation and its end under one name -------------------------------

  /** No row satisfies a chain in which a hop's relation and node share a name ... */
  lemma {:induction false} SharedNameNeverHolds(c: Context, chain: seq<Hop>, n: NodeId, r: Row, i: nat)
    requires i < |chain| && chain[i].rel.name == chain[i].node.name
    ensures !ChainHolds(c, chain, n, r)
  {
    hide PropsHold, NodeHolds;
    if i > 0 && HopHolds(c, chain[0], n, r) {
      SharedNameNeverHolds(c, chain[1..], r[chain[0].node.name].id, r, i - 1);
    }
  }

  /** ... so nothing matches a clause with such a pattern, and the search is exact if and only if it
      yields nothing. */
  lemma SharedNameExactIff(c: Context, patterns: seq<Pattern>, row: Row)
    requires !PatternsApart(patterns) && MatchPatterns(c, patterns, row, {}).Ok?
    ensures var found := MatchPatterns(c, patterns, row, {}).value;
            ((forall r: Row :: r in found <==> Matches(c, patterns, row, {}, r)) && Distinct(found)) <==> found == []
  {
    forall r: Row ensures !Matches(c, patterns, row, {}, r) { NothingMatches(c, patterns, row, r); }
    var found := MatchPatterns(c, patterns, row, {}).value;
    hide Matches, MatchPatterns, PatternsApart;
    if found != [] { assert found[0] in found; }
  }

  lemma NothingMatches(c: Context, patterns: seq<Pattern>, row: Row, r: Row)
    requires !PatternsApart(patterns)
    ensures !Matches(c, patterns, row, {}, r)
  {
    var k :| 0 <= k < |patterns| && !NamesApart(patterns[k].chain);
    var i :| 0 <= i < |patterns[k].chain| && patterns[k].chain[i].rel.name == patterns[k].chain[i].node.name;
    hide ChainHolds, NodeHolds;
    if PatternHolds(c, patterns[k], r) { SharedNameNeverHolds(c, patterns[k].chain, r[patterns[k].first.name].id, r, i); }
  }

  /** ... but the search yields one whenever the relation fits: `()-[x]->(x)` on one relation. */
  lemma SharedNameIsFound(params: Attrs)
    ensures var e := (1, 2, "R");
            var g := Graph([1, 2], map[1 := map[], 2 := map[]], map[e := map[]], map[1 := [e], 2 := []], map[1 := [], 2 := [e]]);
            var hop := Hop(RelPat("x", [], [], Outward), NodePat("x", [], []));
            && WellFormed(g)
            && Expand(Context(g, params), [hop], 1, map[], {}) == Ok([(map["x" := NodeRef(2)], {e})])
  {
    var e: EdgeKey := (1, 2, "R");
    var g := Graph([1, 2], map[1 := map[], 2 := map[]], map[e := map[]], map[1 := [e], 2 := []], map[1 := [], 2 := [e]]);
    var hop := Hop(RelPat("x", [], [], Outward), NodePat("x", [], []));
    var c := Context(g, params);
    var candidates := Candidates(g, 1, Outward);
    assert candidates == [(e, 2)];
    var step := Step(hop, map[], e, 2);
    assert step == map["x" := NodeRef(2)];
    assert Accepts(c, hop, map[], {}, e, 2) == Ok(true);
    var used: set<EdgeKey> := {};
    assert used + {e} == {e};
    assert [hop][1..] == [];
    assert Expand(c, [], 2, step, {e}) == Ok([(step, {e})]);
    assert ExpandFrom(c, [hop], map[], used, []) == Ok([]);
    assert candidates[1..] == [];
    var found: seq<Found> := [(step, {e})];
    assert found + [] == found;
    assert ExpandFrom(c, [hop], map[], used, candidates) == Ok(found);
    assert Expand(c, [hop], 1, map[], used) == Ok(found);
  }
}
