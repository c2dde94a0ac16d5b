/** Expressions of the read-only Cypher engine and their three-valued evaluation
    (cvcdocdb/nx_cypher.py, class _Evaluator). */
module CypherEval {
  import opened Common
  import opened CypherValues

  type Attrs = map<string, CVal>

  type Row = map<string, CVal>

  datatype Side = Starts | Ends | Contains

  datatype Aggregate = Count | Collect | Min | Max

  datatype Expr =
    | Lit(v: CVal)
    | Param(name: string)
    | Var(name: string)
    | Prop(e: Expr, name: string)
    | ListOf(items: seq<Expr>)
    | MapOf(entries: seq<MapEntry>)
    | Index(e: Expr, at: Expr)
    | Not(e: Expr)
    | And(l: Expr, r: Expr)
    | Or(l: Expr, r: Expr)
    | Xor(l: Expr, r: Expr)
    | Neg(e: Expr)
    | Equal(l: Expr, r: Expr)
    | Unequal(l: Expr, r: Expr)
    | Compared(op: Comparison, l: Expr, r: Expr)
    | In(l: Expr, r: Expr)
    | Text(side: Side, l: Expr, r: Expr)
    | IsNull(e: Expr, negated: bool)
    | HasLabels(e: Expr, labels: seq<string>)
    | CountStar
    | Aggregation(fn: Aggregate, e: Expr, distinct: bool)

  datatype MapEntry = MapEntry(key: string, e: Expr)

  datatype CypherError = MissingParameter | UndefinedVariable | WrongType | NoAggregationHere | NestedAggregation

  type Outcome = Result<CVal, CypherError>

  /** What the engine reads of a store: nodes in insertion order, attributes, and the relations that
      leave and reach each node, in whatever order networkx lists them. */
  datatype Graph = Graph(
    nodes: seq<NodeId>,
    nodeAttrs: map<NodeId, Attrs>,
    edgeAttrs: map<EdgeKey, Attrs>,
    outEdges: map<NodeId, seq<EdgeKey>>,
    inEdges: map<NodeId, seq<EdgeKey>>)

  predicate Distinct<T(==)>(s: seq<T>) {
    forall i, j | 0 <= i < j < |s| :: s[i] != s[j]
  }

  ghost predicate WellFormed(g: Graph) {
    && Distinct(g.nodes) && (forall n :: n in g.nodes <==> n in g.nodeAttrs)
    && g.outEdges.Keys == g.nodeAttrs.Keys && g.inEdges.Keys == g.nodeAttrs.Keys
    && (forall n | n in g.outEdges :: Distinct(g.outEdges[n]) && forall e :: e in g.outEdges[n] <==> e in g.edgeAttrs && e.0 == n)
    && (forall n | n in g.inEdges :: Distinct(g.inEdges[n]) && forall e :: e in g.inEdges[n] <==> e in g.edgeAttrs && e.1 == n)
    && (forall e | e in g.edgeAttrs :: e.0 in g.nodeAttrs && e.1 in g.nodeAttrs)
  }

  function Lookup(attrs: Attrs, key: string): CVal {
    if key in attrs then attrs[key] else Null
  }

  function NodeAttrs(g: Graph, n: NodeId): Attrs {
    if n in g.nodeAttrs then g.nodeAttrs[n] else map[]
  }

  function RelAttrs(g: Graph, e: EdgeKey): Attrs {
    if e in g.edgeAttrs then g.edgeAttrs[e] else map[]
  }

  /** `node_labels`: the `labels` list, or the main label when that is missing or empty. */
  function NodeLabels(g: Graph, n: NodeId): seq<CVal> {
    var attrs := NodeAttrs(g, n);
    var labels := Lookup(attrs, "labels");
    if labels.List? && labels.items != [] then labels.items
    else [if "main_label" in attrs then attrs["main_label"] else Str("Node")]
  }

  predicate LabelsOk(g: Graph, n: NodeId, labels: seq<string>) {
    forall i | 0 <= i < |labels| :: Str(labels[i]) in NodeLabels(g, n)
  }

  // --- Three-valued logic --------------------------------------------------

  function TruthOf(v: CVal): Result<Truth, CypherError> {
    match v
    case Null => Ok(Unknown)
    case Bool(b) => Ok(Decided(b))
    case _ => Err(WrongType)
  }

  function ValueOf(t: Truth): CVal {
    match t
    case True => Bool(true)
    case False => Bool(false)
    case Unknown => Null
  }

  function NotT(t: Truth): Truth {
    match t
    case True => False
    case False => True
    case Unknown => Unknown
  }

  function AndT(a: Truth, b: Truth): Truth {
    if a.False? || b.False? then False else if a.Unknown? || b.Unknown? then Unknown else True
  }

  function OrT(a: Truth, b: Truth): Truth {
    if a.True? || b.True? then True else if a.Unknown? || b.Unknown? then Unknown else False
  }

  function XorT(a: Truth, b: Truth): Truth {
    if a.Unknown? || b.Unknown? then Unknown else Decided(a != b)
  }

  // --- Evaluation ----------------------------------------------------------

  function Property(g: Graph, target: CVal, key: string): Outcome {
    match target
    case Null => Ok(Null)
    case NodeRef(n) => Ok(Lookup(NodeAttrs(g, n), key))
    case RelRef(e) => Ok(Lookup(RelAttrs(g, e), key))
    case Map(entries) => Ok(Lookup(entries, key))
    case _ => Err(WrongType)
  }

  /** List items by position, from the end when negative; map entries by name. */
  function At(target: CVal, at: CVal): Outcome {
    if target.Null? || at.Null? then Ok(Null)
    else if target.List? && at.Num? && at.n == at.n.Floor as real then
      var i, n := at.n.Floor, |target.items|;
      Ok(if 0 <= i < n then target.items[i] else if -n <= i < 0 then target.items[n + i] else Null)
    else if target.Map? && at.Str? then Ok(Lookup(target.entries, at.s))
    else Err(WrongType)
  }

  function Member(a: CVal, items: seq<CVal>): Truth {
    if items == [] then False else OrT(Equals(a, items[0]), Member(a, items[1..]))
  }

  predicate Infix(part: string, whole: string) {
    exists i | 0 <= i <= |whole| :: part <= whole[i..]
  }

  function TextTest(side: Side, a: CVal, b: CVal): Truth {
    if !(a.Str? && b.Str?) then Unknown
    else Decided(match side
                 case Starts => b.s <= a.s
                 case Ends => |b.s| <= |a.s| && a.s[|a.s| - |b.s|..] == b.s
                 case Contains => Infix(b.s, a.s))
  }

  function Eval(g: Graph, params: Attrs, e: Expr, row: Row, group: Option<seq<Row>>): Outcome
    decreases e, 0, 0
  {
    match e
    case Lit(v) => Ok(v)
    case Param(name) => if name in params then Ok(params[name]) else Err(MissingParameter)
    case Var(name) => if name in row then Ok(row[name]) else Err(UndefinedVariable)
    case Prop(e1, name) =>
      var v :- Eval(g, params, e1, row, group);
      Property(g, v, name)
    case ListOf(items) =>
      var vs :- EvalItems(g, params, items, row, group);
      Ok(List(vs))
    case MapOf(entries) =>
      var m :- EvalEntries(g, params, entries, row, group);
      Ok(Map(m))
    case Index(e1, at) =>
      var v :- Eval(g, params, e1, row, group);
      var i :- Eval(g, params, at, row, group);
      At(v, i)
    case Not(e1) =>
      var v :- Eval(g, params, e1, row, group);
      var t :- TruthOf(v);
      Ok(ValueOf(NotT(t)))
    case And(l, r) =>
      var lv :- Eval(g, params, l, row, group);
      var lt :- TruthOf(lv);
      if lt.False? then Ok(Bool(false)) else
        var rv :- Eval(g, params, r, row, group);
        var rt :- TruthOf(rv);
        Ok(ValueOf(AndT(lt, rt)))
    case Or(l, r) =>
      var lv :- Eval(g, params, l, row, group);
      var lt :- TruthOf(lv);
      if lt.True? then Ok(Bool(true)) else
        var rv :- Eval(g, params, r, row, group);
        var rt :- TruthOf(rv);
        Ok(ValueOf(OrT(lt, rt)))
    case Xor(l, r) =>
      var lv :- Eval(g, params, l, row, group);
      var lt :- TruthOf(lv);
      var rv :- Eval(g, params, r, row, group);
      var rt :- TruthOf(rv);
      Ok(ValueOf(XorT(lt, rt)))
    case Neg(e1) =>
      var v :- Eval(g, params, e1, row, group);
      if v.Null? then Ok(Null) else if v.Num? then Ok(Num(-v.n)) else Err(WrongType)
    case Equal(l, r) =>
      var a :- Eval(g, params, l, row, group);
      var b :- Eval(g, params, r, row, group);
      Ok(ValueOf(Equals(a, b)))
    case Unequal(l, r) =>
      var a :- Eval(g, params, l, row, group);
      var b :- Eval(g, params, r, row, group);
      Ok(ValueOf(NotT(Equals(a, b))))
    case Compared(op, l, r) =>
      var a :- Eval(g, params, l, row, group);
      var b :- Eval(g, params, r, row, group);
      Ok(ValueOf(Compare(op, a, b)))
    case In(l, r) =>
      var a :- Eval(g, params, l, row, group);
      var b :- Eval(g, params, r, row, group);
      if b.Null? then Ok(Null) else if b.List? then Ok(ValueOf(Member(a, b.items))) else Err(WrongType)
    case Text(side, l, r) =>
      var a :- Eval(g, params, l, row, group);
      var b :- Eval(g, params, r, row, group);
      Ok(ValueOf(TextTest(side, a, b)))
    case IsNull(e1, negated) =>
      var v :- Eval(g, params, e1, row, group);
      Ok(Bool(v.Null? != negated))
    case HasLabels(e1, labels) =>
      var v :- Eval(g, params, e1, row, group);
      if v.Null? then Ok(Null) else if v.NodeRef? then Ok(Bool(LabelsOk(g, v.id, labels))) else Err(WrongType)
    case CountStar =>
      if group.None? then Err(NoAggregationHere) else Ok(Num(|group.value| as real))
    case Aggregation(fn, e1, distinct) =>
      if group.None? then Err(NoAggregationHere)
      else if HasAggregate(e1) then Err(NestedAggregation)
      else
        var vs :- EvalOver(g, params, e1, group.value);
        Ok(Aggregated(fn, if distinct then Unique(vs) else vs))
  }

  function EvalItems(g: Graph, params: Attrs, items: seq<Expr>, row: Row, group: Option<seq<Row>>): Result<seq<CVal>, CypherError>
    decreases items
  {
    if items == [] then Ok([])
    else
      var v :- Eval(g, params, items[0], row, group);
      var vs :- EvalItems(g, params, items[1..], row, group);
      Ok([v] + vs)
  }

  function EvalEntries(g: Graph, params: Attrs, entries: seq<MapEntry>, row: Row, group: Option<seq<Row>>): Result<Attrs, CypherError>
    decreases entries
  {
    if entries == [] then Ok(map[])
    else
      var k := |entries| - 1;
      var rest :- EvalEntries(g, params, entries[..k], row, group);
      var v :- Eval(g, params, entries[k].e, row, group);
      Ok(rest[entries[k].key := v])
  }

  /** The values of an aggregation's argument over a group, nulls left out. */
  function EvalOver(g: Graph, params: Attrs, e: Expr, rows: seq<Row>): Result<seq<CVal>, CypherError>
    decreases e, 1, |rows|
  {
    if rows == [] then Ok([])
    else
      var v :- Eval(g, params, e, rows[0], None);
      var vs :- EvalOver(g, params, e, rows[1..]);
      Ok(if v.Null? then vs else [v] + vs)
  }

  /** `_hashable`, as Python's sets and dicts compare it: `True` is 1, at any depth. */
  function Hashed(v: CVal): CVal {
    match v
    case Bool(b) => Num(if b then 1.0 else 0.0)
    case List(items) => List(seq(|items|, i requires 0 <= i < |items| => Hashed(items[i])))
    case Map(entries) => Map(map k | k in entries :: Hashed(entries[k]))
    case _ => v
  }

  /** The values that did not occur before. */
  function Unique(vs: seq<CVal>): seq<CVal> {
    if vs == [] then []
    else
      var n := |vs| - 1;
      var rest := Unique(vs[..n]);
      if exists i :: 0 <= i < n && Hashed(vs[i]) == Hashed(vs[n]) then rest else rest + [vs[n]]
  }

  /** The first value that none precedes, or that precedes none, as Python's `min` and `max`. */
  function Extreme(vs: seq<CVal>, sign: int): CVal
    requires vs != []
  {
    if |vs| == 1 then vs[0]
    else
      var best := Extreme(vs[..|vs| - 1], sign);
      var last := vs[|vs| - 1];
      if sign * OrderCmp(last, best) > 0 then last else best
  }

  function Aggregated(fn: Aggregate, vs: seq<CVal>): CVal {
    match fn
    case Count => Num(|vs| as real)
    case Collect => List(vs)
    case Min => if vs == [] then Null else Extreme(vs, -1)
    case Max => if vs == [] then Null else Extreme(vs, 1)
  }

  predicate HasAggregate(e: Expr) {
    match e
    case CountStar | Aggregation(_, _, _) => true
    case Lit(_) | Param(_) | Var(_) => false
    case Prop(e1, _) => HasAggregate(e1)
    case Not(e1) => HasAggregate(e1)
    case Neg(e1) => HasAggregate(e1)
    case IsNull(e1, _) => HasAggregate(e1)
    case HasLabels(e1, _) => HasAggregate(e1)
    case Index(l, r) => HasAggregate(l) || HasAggregate(r)
    case And(l, r) => HasAggregate(l) || HasAggregate(r)
    case Or(l, r) => HasAggregate(l) || HasAggregate(r)
    case Xor(l, r) => HasAggregate(l) || HasAggregate(r)
    case Equal(l, r) => HasAggregate(l) || HasAggregate(r)
    case Unequal(l, r) => HasAggregate(l) || HasAggregate(r)
    case Compared(_, l, r) => HasAggregate(l) || HasAggregate(r)
    case In(l, r) => HasAggregate(l) || HasAggregate(r)
    case Text(_, l, r) => HasAggregate(l) || HasAggregate(r)
    case ListOf(items) => exists i :: 0 <= i < |items| && HasAggregate(items[i])
    case MapOf(entries) => exists i :: 0 <= i < |entries| && HasAggregate(entries[i].e)
  }

  // --- What an expression's value depends on -------------------------------

  /** `row'` has everything `row` has. */
  ghost predicate Agrees(row: Row, row': Row) {
    forall k | k in row :: k in row' && row'[k] == row[k]
  }

  /** An expression that has a value keeps it when more variables are bound. */
  lemma {:induction false} EvalMore(g: Graph, params: Attrs, e: Expr, row: Row, row': Row)
    requires Eval(g, params, e, row, None).Ok? && Agrees(row, row')
    ensures Eval(g, params, e, row', None) == Eval(g, params, e, row, None)
    decreases e, 1
  {
    hide Eval, Agrees;
    match e {
      case Lit(_) | Param(_) | Var(_) | CountStar | Aggregation(_, _, _) => EvalLeafMore(g, params, e, row, row');
      case Prop(_, _) | Not(_) | Neg(_) | IsNull(_, _) | HasLabels(_, _) => EvalUnaryMore(g, params, e, row, row');
      case Index(_, _) | Xor(_, _) | Equal(_, _) | Unequal(_, _) => EvalBinaryMore(g, params, e, row, row');
      case Compared(_, _, _) | In(_, _) | Text(_, _, _) => EvalComparisonMore(g, params, e, row, row');
      case And(_, _) | Or(_, _) => EvalLogicMore(g, params, e, row, row');
      case ListOf(_) | MapOf(_) => EvalCollectionMore(g, params, e, row, row');
    }
  }

  lemma EvalLeafMore(g: Graph, params: Attrs, e: Expr, row: Row, row': Row)
    requires e.Lit? || e.Param? || e.Var? || e.CountStar? || e.Aggregation?
    requires Eval(g, params, e, row, None).Ok? && Agrees(row, row')
    ensures Eval(g, params, e, row', None) == Eval(g, params, e, row, None)
  {
    hide Agrees;
    if e.Var? && e.name in row { BoundStays(row, row', e.name); }
  }

  lemma {:induction false} EvalUnaryMore(g: Graph, params: Attrs, e: Expr, row: Row, row': Row)
    requires e.Prop? || e.Not? || e.Neg? || e.IsNull? || e.HasLabels?
    requires Eval(g, params, e, row, None).Ok? && Agrees(row, row')
    ensures Eval(g, params, e, row', None) == Eval(g, params, e, row, None)
    decreases e, 0
  {
    hide Property, LabelsOk, Agrees;
    EvalMore(g, params, e.e, row, row');
  }

  lemma {:induction false} EvalBinaryMore(g: Graph, params: Attrs, e: Expr, row: Row, row': Row)
    requires e.Index? || e.Xor? || e.Equal? || e.Unequal?
    requires Eval(g, params, e, row, None).Ok? && Agrees(row, row')
    ensures Eval(g, params, e, row', None) == Eval(g, params, e, row, None)
    decreases e, 0
  {
    hide At, Equals, Agrees;
    var l, r := if e.Index? then e.e else e.l, if e.Index? then e.at else e.r;
    EvalMore(g, params, l, row, row');
    EvalMore(g, params, r, row, row');
  }

  lemma {:induction false} EvalComparisonMore(g: Graph, params: Attrs, e: Expr, row: Row, row': Row)
    requires e.Compared? || e.In? || e.Text?
    requires Eval(g, params, e, row, None).Ok? && Agrees(row, row')
    ensures Eval(g, params, e, row', None) == Eval(g, params, e, row, None)
    decreases e, 0
  {
    hide Compare, Member, TextTest, Agrees;
    EvalMore(g, params, e.l, row, row');
    EvalMore(g, params, e.r, row, row');
  }

  lemma {:induction false} EvalCollectionMore(g: Graph, params: Attrs, e: Expr, row: Row, row': Row)
    requires (e.ListOf? || e.MapOf?) && Eval(g, params, e, row, None).Ok? && Agrees(row, row')
    ensures Eval(g, params, e, row', None) == Eval(g, params, e, row, None)
    decreases e, 0
  {
    hide Agrees;
    if e.ListOf? { EvalItemsMore(g, params, e.items, row, row'); } else { EvalEntriesMore(g, params, e.entries, row, row'); }
  }

  lemma BoundStays(row: Row, row': Row, name: string)
    requires Agrees(row, row') && name in row
    ensures name in row' && row'[name] == row[name]
  {
  }

  /** AND and OR evaluate their right side only when the left does not decide. */
  lemma {:induction false} EvalLogicMore(g: Graph, params: Attrs, e: Expr, row: Row, row': Row)
    requires (e.And? || e.Or?) && Eval(g, params, e, row, None).Ok? && Agrees(row, row')
    ensures Eval(g, params, e, row', None) == Eval(g, params, e, row, None)
    decreases e, 0
  {
    hide Agrees;
    EvalMore(g, params, e.l, row, row');
    if Eval(g, params, e.r, row, None).Ok? {
      EvalMore(g, params, e.r, row, row');
    }
  }

  lemma {:induction false} EvalItemsMore(g: Graph, params: Attrs, items: seq<Expr>, row: Row, row': Row)
    requires EvalItems(g, params, items, row, None).Ok? && Agrees(row, row')
    ensures EvalItems(g, params, items, row', None) == EvalItems(g, params, items, row, None)
    decreases items, 0
  {
    if items != [] {
      EvalMore(g, params, items[0], row, row');
      EvalItemsMore(g, params, items[1..], row, row');
    }
  }

  lemma {:induction false} EvalEntriesMore(g: Graph, params: Attrs, entries: seq<MapEntry>, row: Row, row': Row)
    requires EvalEntries(g, params, entries, row, None).Ok? && Agrees(row, row')
    ensures EvalEntries(g, params, entries, row', None) == EvalEntries(g, params, entries, row, None)
    decreases entries, 0
  {
    if entries != [] {
      var k := |entries| - 1;
      EvalEntriesMore(g, params, entries[..k], row, row');
      EvalMore(g, params, entries[k].e, row, row');
    }
  }
}
