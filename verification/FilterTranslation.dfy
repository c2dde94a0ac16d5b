/** The translation of a filter to a Cypher condition (cvcdocdb/neo4j_graph.py,
    `_CypherFilterTranslator`), and why it accepts the nodes `_match` accepts. */
module FilterTranslation {
  import opened Common
  import opened Decimals
  import opened CypherValues
  import opened CypherEval
  import opened Filters

  // --- Conditions ----------------------------------------------------------

  /** What the produced text says, with `n` the node variable and `$p` a parameter. */
  datatype Condition =
    | Always                                            // true
    | Never                                             // false
    | FieldEquals(field: string, p: string)             // n.field = $p
    | FieldDiffers(field: string, p: string)            // n.field <> $p
    | FieldCompares(op: Comparison, field: string, p: string)
    | FieldIn(field: string, p: string)                 // n.field IN $p
    | InField(p: string, field: string)                 // $p IN n.field
    | FieldIsNull(field: string, negated: bool)         // n.field IS [NOT] NULL
    | HasLabel(p: string)                               // $p IN labels(n)
    | AnyLabelIn(p: string)                             // any(_l IN labels(n) WHERE _l IN $p)
    | NotC(c: Condition)
    | AndC(parts: seq<Condition>)                       // joined by AND; true when there are none
    | OrC(parts: seq<Condition>)                        // joined by OR
    | Blank                                             // (): no expression at all

  /** The text is an expression the server accepts. */
  predicate Proper(c: Condition) {
    match c
    case NotC(c1) => Proper(c1)
    case AndC(parts) => forall i | 0 <= i < |parts| :: Proper(parts[i])
    case OrC(parts) => forall i | 0 <= i < |parts| :: Proper(parts[i])
    case Blank => false
    case _ => true
  }

  /** A persisted node: its labels and properties. */
  datatype Node = Node(labels: seq<CVal>, props: Attrs)

  type Params = map<string, CVal>

  /** `x IN list`; null IN null is unknown, and so is anything IN null. */
  function InList(x: CVal, container: CVal): Truth {
    if container.List? then Member(x, container.items) else Unknown
  }

  function AnyIn(labels: seq<CVal>, container: CVal): Truth {
    if labels == [] then False else OrT(InList(labels[0], container), AnyIn(labels[1..], container))
  }

  function Meaning(c: Condition, n: Node, ps: Params): Truth
    decreases c, 0
  {
    match c
    case Always => True
    case Never => False
    case FieldEquals(field, p) => Equals(Lookup(n.props, field), Lookup(ps, p))
    case FieldDiffers(field, p) => NotT(Equals(Lookup(n.props, field), Lookup(ps, p)))
    case FieldCompares(op, field, p) => Compare(op, Lookup(n.props, field), Lookup(ps, p))
    case FieldIn(field, p) => InList(Lookup(n.props, field), Lookup(ps, p))
    case InField(p, field) => InList(Lookup(ps, p), Lookup(n.props, field))
    case FieldIsNull(field, negated) => Decided(Lookup(n.props, field).Null? != negated)
    case HasLabel(p) => Member(Lookup(ps, p), n.labels)
    case AnyLabelIn(p) => AnyIn(n.labels, Lookup(ps, p))
    case NotC(c1) => NotT(Meaning(c1, n, ps))
    case AndC(parts) => MeaningAnd(parts, n, ps)
    case OrC(parts) => MeaningOr(parts, n, ps)
    case Blank => Unknown
  }

  function MeaningAnd(parts: seq<Condition>, n: Node, ps: Params): Truth
    decreases parts, 0
  {
    if parts == [] then True else AndT(Meaning(parts[0], n, ps), MeaningAnd(parts[1..], n, ps))
  }

  function MeaningOr(parts: seq<Condition>, n: Node, ps: Params): Truth
    decreases parts, 0
  {
    if parts == [] then False else OrT(Meaning(parts[0], n, ps), MeaningOr(parts[1..], n, ps))
  }

  // --- What a filter says in three-valued logic ----------------------------

  function OpTruth(op: Op, v: CVal, e: CVal): Truth {
    match op
    case Eq => Equals(v, e)
    case Ne => NotT(Equals(v, e))
    case Gt | Gte | Lt | Lte => Compare(ComparisonOf(op), v, e)
    case In => InList(v, e)
    case Nin => NotT(InList(v, e))
    case Exists => Decided(v.Null? != Truthy(e))
    case Contains => InList(e, v)
    case Other(_) => Unknown
  }

  /** Python's truth of an operand. */
  predicate Truthy(v: CVal) {
    match v
    case Null => false
    case Bool(b) => b
    case Num(n) => n != 0.0
    case Str(s) => s != ""
    case List(items) => items != []
    case Map(entries) => entries != map[]
    case _ => true
  }

  function OpsTruth(v: CVal, ops: seq<OpTest>): Truth {
    if ops == [] then True else AndT(OpTruth(ops[0].op, v, ops[0].operand), OpsTruth(v, ops[1..]))
  }

  function TestTruth(v: CVal, test: Test): Truth {
    match test
    case Ops(ops) => OpsTruth(v, ops)
    case OneOf(values) => Member(v, values)
    case Is(value) => Equals(v, value)
  }

  function LabelOpTruth(op: Op, labels: seq<CVal>, e: CVal): Truth {
    match op
    case Eq => Member(e, labels)
    case Ne => NotT(Member(e, labels))
    case In => AnyIn(labels, e)
    case Nin => NotT(AnyIn(labels, e))
    case Exists => Decided(Truthy(e))
    case _ => Unknown
  }

  function LabelOpsTruth(labels: seq<CVal>, ops: seq<OpTest>): Truth {
    if ops == [] then True else AndT(LabelOpTruth(ops[0].op, labels, ops[0].operand), LabelOpsTruth(labels, ops[1..]))
  }

  function LabelTruth(labels: seq<CVal>, test: Test): Truth {
    match test
    case Ops(ops) => LabelOpsTruth(labels, ops)
    case OneOf(values) => AnyIn(labels, List(values))
    case Is(value) => Member(value, labels)
  }

  /** The filter itself, field by field, in Cypher's logic. */
  function FilterTruth(f: Filter, n: Node): Truth
    decreases f, 0
  {
    EveryTruth(f.conds, n)
  }

  function EveryTruth(conds: seq<Cond>, n: Node): Truth
    decreases conds, 0
  {
    if conds == [] then True else AndT(CondTruth(conds[0], n), EveryTruth(conds[1..], n))
  }

  function CondTruth(cond: Cond, n: Node): Truth
    decreases cond, 0
  {
    match cond
    case AnyOf(subs) => if subs == [] then True else AnyTruth(subs, n)
    case AllOf(subs) => if subs == [] then Unknown else AllTruth(subs, n)
    case Not(f) => NotT(FilterTruth(f, n))
    case Field(name, test) =>
      if name == "main_label" then LabelTruth(n.labels, test) else TestTruth(Lookup(n.props, name), test)
  }

  function AnyTruth(subs: seq<Filter>, n: Node): Truth
    decreases subs, 0
  {
    if subs == [] then False else OrT(FilterTruth(subs[0], n), AnyTruth(subs[1..], n))
  }

  function AllTruth(subs: seq<Filter>, n: Node): Truth
    decreases subs, 0
  {
    if subs == [] then True else AndT(FilterTruth(subs[0], n), AllTruth(subs[1..], n))
  }

  // --- The translator ------------------------------------------------------

  predicate IsLetter(c: char) {
    'A' <= c <= 'Z' || 'a' <= c <= 'z' || c == '_'
  }

  predicate IsName(s: string) {
    s != "" && IsLetter(s[0]) && forall i | 0 < i < |s| :: IsLetter(s[i]) || IsDigit(s[i])
  }

  /** `_CYPHER_IDENTIFIER_RE`: Python's `$` also matches before a final newline. */
  predicate IsIdentifier(s: string) {
    IsName(s) || (s != "" && s[|s| - 1] == '\n' && IsName(s[..|s| - 1]))
  }

  predicate LabelOp(op: Op) {
    op.Eq? || op.Ne? || op.In? || op.Nin? || op.Exists?
  }

  predicate OpsKnown(ops: seq<OpTest>) {
    forall i | 0 <= i < |ops| :: !ops[i].op.Other?
  }

  /** The filters that can be translated: known operators, and field names that are identifiers. */
  predicate Translatable(f: Filter)
    decreases f, 0
  {
    forall i | 0 <= i < |f.conds| :: CondTranslatable(f.conds[i])
  }

  predicate CondTranslatable(cond: Cond)
    decreases cond, 0
  {
    match cond
    case AnyOf(subs) => forall i | 0 <= i < |subs| :: Translatable(subs[i])
    case AllOf(subs) => forall i | 0 <= i < |subs| :: Translatable(subs[i])
    case Not(f) => Translatable(f)
    case Field(name, test) =>
      if name == "main_label" then test.Ops? ==> forall i | 0 <= i < |test.ops| :: LabelOp(test.ops[i].op)
      else IsIdentifier(name) && (test.Ops? ==> OpsKnown(test.ops))
  }

  /** No list below `$and` is empty: there the code writes nothing between its brackets. */
  predicate Complete(f: Filter)
    decreases f, 0
  {
    forall i | 0 <= i < |f.conds| :: CondComplete(f.conds[i])
  }

  predicate CondComplete(cond: Cond)
    decreases cond, 0
  {
    match cond
    case AnyOf(subs) => forall i | 0 <= i < |subs| :: Complete(subs[i])
    case AllOf(subs) => subs != [] && forall i | 0 <= i < |subs| :: Complete(subs[i])
    case Not(f) => Complete(f)
    case Field(_, _) => true
  }

  datatype TranslationError = BadIdentifier | BadOperator

  function ParamName(k: nat): string {
    "p" + ShowNat(k)
  }

  lemma ParamNamesDiffer(j: nat, k: nat)
    ensures ParamName(j) == ParamName(k) ==> j == k
  {
    ReadShow(j);
    ReadShow(k);
    assert ParamName(j)[1..] == ShowNat(j) && ParamName(k)[1..] == ShowNat(k);
  }

  ghost predicate Extends(ps: Params, more: Params) {
    forall k | k in ps :: k in more && more[k] == ps[k]
  }

  /** A condition means `t`, whatever further parameters are bound later. */
  ghost predicate Says(c: Condition, n: Node, ps: Params, t: Truth) {
    forall more: Params | Extends(ps, more) :: Meaning(c, n, more) == t
  }

  class Translator {
    var params: Params
    var counter: nat

    /** The parameters bound so far are `p1` to `p<counter>`. */
    ghost predicate Valid()
      reads this
    {
      forall name :: name in params <==> exists k :: 1 <= k <= counter && name == ParamName(k)
    }

    constructor ()
      ensures Valid() && params == map[]
    {
      params, counter := map[], 0;
    }

    /** `_bind`: a fresh parameter. */
    method Bind(value: CVal) returns (p: string)
      requires Valid()
      modifies this
      ensures Valid() && p !in old(params) && params == old(params)[p := value]
    {
      counter := counter + 1;
      p := ParamName(counter);
      params := params[p := value];
      forall k | 1 <= k <= counter - 1 ensures ParamName(k) != p { ParamNamesDiffer(k, counter); }
      assert exists k :: 1 <= k <= counter && p == ParamName(k);
    }

    /** `translate`. */
    method Translate(f: Filter) returns (r: Result<Condition, TranslationError>)
      requires Valid()
      modifies this
      ensures Valid() && Extends(old(params), params) && (r.Ok? <==> Translatable(f))
      ensures r.Ok? ==> forall n: Node :: Says(r.value, n, params, FilterTruth(f, n))
      ensures r.Ok? ==> (Proper(r.value) <==> Complete(f))
      decreases f, 1
    {
      hide Says, CondTranslatable, CondComplete;
      var parts: seq<Condition> := [];
      for i := 0 to |f.conds|
        invariant Valid() && Extends(old(params), params) && |parts| == i
        invariant forall j | 0 <= j < i :: CondTranslatable(f.conds[j])
        invariant forall j, n: Node | 0 <= j < i :: Says(parts[j], n, params, CondTruth(f.conds[j], n))
        invariant forall j | 0 <= j < i :: Proper(parts[j]) <==> CondComplete(f.conds[j])
      {
        ghost var before := params;
        var part := TranslateCondition(f.conds[i]);
        if part.Err? { return part; }
        forall j, n: Node | 0 <= j < i ensures Says(parts[j], n, params, CondTruth(f.conds[j], n)) {
          SaysMore(parts[j], n, before, params, CondTruth(f.conds[j], n));
        }
        parts := parts + [part.value];
      }
      forall n: Node ensures Says(AndC(parts), n, params, FilterTruth(f, n)) {
        AndSays(parts, f.conds, n, params);
      }
      return Ok(AndC(parts));
    }

    /** The translations of the filters below `$or` or `$and`. */
    method TranslateAll(subs: seq<Filter>) returns (r: Result<seq<Condition>, TranslationError>)
      requires Valid()
      modifies this
      ensures Valid() && Extends(old(params), params) && (r.Ok? <==> forall i | 0 <= i < |subs| :: Translatable(subs[i]))
      ensures r.Ok? ==> |r.value| == |subs| && forall j, n: Node | 0 <= j < |subs| :: Says(r.value[j], n, params, FilterTruth(subs[j], n))
      ensures r.Ok? ==> forall j | 0 <= j < |subs| :: Proper(r.value[j]) <==> Complete(subs[j])
      decreases subs, 1
    {
      hide Says, Translatable, Complete;
      var parts: seq<Condition> := [];
      for i := 0 to |subs|
        invariant Valid() && Extends(old(params), params) && |parts| == i
        invariant forall j | 0 <= j < i :: Translatable(subs[j])
        invariant forall j, n: Node | 0 <= j < i :: Says(parts[j], n, params, FilterTruth(subs[j], n))
        invariant forall j | 0 <= j < i :: Proper(parts[j]) <==> Complete(subs[j])
      {
        ghost var before := params;
        var part := Translate(subs[i]);
        if part.Err? { return Err(part.error); }
        forall j, n: Node | 0 <= j < i ensures Says(parts[j], n, params, FilterTruth(subs[j], n)) {
          SaysMore(parts[j], n, before, params, FilterTruth(subs[j], n));
        }
        parts := parts + [part.value];
      }
      return Ok(parts);
    }

    /** `_translate_condition`. */
    method TranslateCondition(cond: Cond) returns (r: Result<Condition, TranslationError>)
      requires Valid()
      modifies this
      ensures Valid() && Extends(old(params), params) && (r.Ok? <==> CondTranslatable(cond))
      ensures r.Ok? ==> forall n: Node :: Says(r.value, n, params, CondTruth(cond, n))
      ensures r.Ok? ==> (Proper(r.value) <==> CondComplete(cond))
      decreases cond, 1
    {
      hide IsIdentifier;
      match cond {
        case AnyOf(subs) =>
          if subs == [] { return Ok(Always); }
          var parts := TranslateAll(subs);
          if parts.Err? { return Err(parts.error); }
          forall n: Node ensures Says(OrC(parts.value), n, params, AnyTruth(subs, n)) { OrFiltersSay(parts.value, subs, n, params); }
          return Ok(OrC(parts.value));
        case AllOf(subs) =>
          if subs == [] { return Ok(Blank); }
          var parts := TranslateAll(subs);
          if parts.Err? { return Err(parts.error); }
          forall n: Node ensures Says(AndC(parts.value), n, params, AllTruth(subs, n)) { AndFiltersSay(parts.value, subs, n, params); }
          return Ok(AndC(parts.value));
        case Not(f) =>
          var part := Translate(f);
          if part.Err? { return part; }
          return Ok(NotC(part.value));
        case Field(name, test) =>
          if name == "main_label" {
            r := TranslateMainLabel(test);
          } else {
            r := TranslateField(name, test);
          }
      }
    }

    method TranslateField(field: string, test: Test) returns (r: Result<Condition, TranslationError>)
      requires Valid()
      modifies this
      ensures Valid() && Extends(old(params), params)
      ensures r.Ok? <==> IsIdentifier(field) && (test.Ops? ==> OpsKnown(test.ops))
      ensures r.Ok? ==> Proper(r.value) && forall n: Node :: Says(r.value, n, params, TestTruth(Lookup(n.props, field), test))
    {
      hide IsIdentifier;
      if !IsIdentifier(field) { return Err(BadIdentifier); }
      match test {
        case Ops(ops) => r := TranslateOps(field, ops);
        case OneOf(values) =>
          var p := Bind(List(values));
          return Ok(FieldIn(field, p));
        case Is(value) =>
          var p := Bind(value);
          return Ok(FieldEquals(field, p));
      }
    }

    method TranslateOps(field: string, ops: seq<OpTest>) returns (r: Result<Condition, TranslationError>)
      requires Valid()
      modifies this
      ensures Valid() && Extends(old(params), params) && (r.Ok? <==> OpsKnown(ops))
      ensures r.Ok? ==> Proper(r.value) && forall n: Node :: Says(r.value, n, params, OpsTruth(Lookup(n.props, field), ops))
    {
      hide Says;
      var parts: seq<Condition> := [];
      for i := 0 to |ops|
        invariant Valid() && Extends(old(params), params) && |parts| == i
        invariant forall j | 0 <= j < i :: !ops[j].op.Other? && Proper(parts[j])
        invariant forall j, n: Node | 0 <= j < i :: Says(parts[j], n, params, OpTruth(ops[j].op, Lookup(n.props, field), ops[j].operand))
      {
        ghost var before := params;
        var part := TranslateOperator(field, ops[i].op, ops[i].operand);
        if part.Err? { return part; }
        forall j, n: Node | 0 <= j < i ensures Says(parts[j], n, params, OpTruth(ops[j].op, Lookup(n.props, field), ops[j].operand)) {
          SaysMore(parts[j], n, before, params, OpTruth(ops[j].op, Lookup(n.props, field), ops[j].operand));
        }
        parts := parts + [part.value];
      }
      forall n: Node ensures Says(AndC(parts), n, params, OpsTruth(Lookup(n.props, field), ops)) {
        AndOpsSay(parts, ops, n, Lookup(n.props, field), params);
      }
      return Ok(AndC(parts));
    }

    /** `_translate_operator`. */
    method TranslateOperator(field: string, op: Op, expected: CVal) returns (r: Result<Condition, TranslationError>)
      requires Valid()
      modifies this
      ensures Valid() && Extends(old(params), params) && (r.Ok? <==> !op.Other?)
      ensures r.Ok? ==> Proper(r.value) && forall n: Node :: Says(r.value, n, params, OpTruth(op, Lookup(n.props, field), expected))
    {
      hide Equals, Compare, Member;
      if op.Other? { return Err(BadOperator); }
      if op.Exists? { return Ok(FieldIsNull(field, Truthy(expected))); }
      var p := Bind(expected);
      match op {
        case Contains => return Ok(InField(p, field));
        case In => return Ok(FieldIn(field, p));
        case Nin =>
          NotSays(FieldIn(field, p), params);
          return Ok(NotC(FieldIn(field, p)));
        case Eq => return Ok(FieldEquals(field, p));
        case Ne => return Ok(FieldDiffers(field, p));
        case Gt | Gte | Lt | Lte => return Ok(FieldCompares(ComparisonOf(op), field, p));
      }
    }

    /** `_translate_main_label`: the main label is a label of the node, not a property. */
    method TranslateMainLabel(test: Test) returns (r: Result<Condition, TranslationError>)
      requires Valid()
      modifies this
      ensures Valid() && Extends(old(params), params)
      ensures r.Ok? <==> (test.Ops? ==> forall i | 0 <= i < |test.ops| :: LabelOp(test.ops[i].op))
      ensures r.Ok? ==> Proper(r.value) && forall n: Node :: Says(r.value, n, params, LabelTruth(n.labels, test))
    {
      match test {
        case OneOf(values) =>
          var p := Bind(List(values));
          return Ok(AnyLabelIn(p));
        case Is(value) =>
          var p := Bind(value);
          return Ok(HasLabel(p));
        case Ops(ops) =>
          hide Says;
          var parts: seq<Condition> := [];
          for i := 0 to |ops|
            invariant Valid() && Extends(old(params), params) && |parts| == i
            invariant forall j | 0 <= j < i :: LabelOp(ops[j].op) && Proper(parts[j])
            invariant forall j, n: Node | 0 <= j < i :: Says(parts[j], n, params, LabelOpTruth(ops[j].op, n.labels, ops[j].operand))
          {
            ghost var before := params;
            if !LabelOp(ops[i].op) { return Err(BadOperator); }
            var part := TranslateLabelOperator(ops[i].op, ops[i].operand);
            forall j, n: Node | 0 <= j < i ensures Says(parts[j], n, params, LabelOpTruth(ops[j].op, n.labels, ops[j].operand)) {
              SaysMore(parts[j], n, before, params, LabelOpTruth(ops[j].op, n.labels, ops[j].operand));
            }
            parts := parts + [part];
          }
          forall n: Node ensures Says(AndC(parts), n, params, LabelOpsTruth(n.labels, ops)) {
            AndLabelsSay(parts, ops, n, params);
          }
          return Ok(AndC(parts));
      }
    }

    method TranslateLabelOperator(op: Op, expected: CVal) returns (c: Condition)
      requires Valid() && LabelOp(op)
      modifies this
      ensures Valid() && Extends(old(params), params)
      ensures Proper(c) && forall n: Node :: Says(c, n, params, LabelOpTruth(op, n.labels, expected))
    {
      hide Says;
      if op.Exists? {
        ConstantSays(params);
        return if Truthy(expected) then Always else Never;
      }
      var p := Bind(expected);
      LabelSays(p, params);
      NotSays(HasLabel(p), params);
      NotSays(AnyLabelIn(p), params);
      match op {
        case Eq => c := HasLabel(p);
        case Ne => c := NotC(HasLabel(p));
        case In => c := AnyLabelIn(p);
        case _ => c := NotC(AnyLabelIn(p));
      }
    }
  }

  lemma LabelSays(p: string, ps: Params)
    requires p in ps
    ensures forall n: Node :: Says(HasLabel(p), n, ps, Member(ps[p], n.labels)) && Says(AnyLabelIn(p), n, ps, AnyIn(n.labels, ps[p]))
  {
    hide Member, AnyIn;
  }

  lemma ConstantSays(ps: Params)
    ensures forall n: Node :: Says(Always, n, ps, True) && Says(Never, n, ps, False)
  {
  }

  lemma SaysMore(c: Condition, n: Node, ps: Params, more: Params, t: Truth)
    requires Says(c, n, ps, t) && Extends(ps, more)
    ensures Says(c, n, more, t)
  {
    hide Meaning;
  }

  lemma NotSays(c: Condition, ps: Params)
    ensures forall n: Node, t :: Says(c, n, ps, t) ==> Says(NotC(c), n, ps, NotT(t))
  {
  }

  lemma {:induction false} AndSays(parts: seq<Condition>, conds: seq<Cond>, n: Node, ps: Params)
    requires |parts| == |conds| && forall j | 0 <= j < |parts| :: Says(parts[j], n, ps, CondTruth(conds[j], n))
    ensures Says(AndC(parts), n, ps, EveryTruth(conds, n))
    decreases |parts|
  {
    if parts != [] {
      assert Says(parts[0], n, ps, CondTruth(conds[0], n));
      AndSays(parts[1..], conds[1..], n, ps);
      assert Says(AndC(parts[1..]), n, ps, EveryTruth(conds[1..], n));
    }
  }

  lemma {:induction false} AndFiltersSay(parts: seq<Condition>, subs: seq<Filter>, n: Node, ps: Params)
    requires |parts| == |subs| && forall j | 0 <= j < |parts| :: Says(parts[j], n, ps, FilterTruth(subs[j], n))
    ensures Says(AndC(parts), n, ps, AllTruth(subs, n))
    decreases |parts|
  {
    if parts != [] {
      assert Says(parts[0], n, ps, FilterTruth(subs[0], n));
      AndFiltersSay(parts[1..], subs[1..], n, ps);
      assert Says(AndC(parts[1..]), n, ps, AllTruth(subs[1..], n));
    }
  }

  lemma {:induction false} OrFiltersSay(parts: seq<Condition>, subs: seq<Filter>, n: Node, ps: Params)
    requires |parts| == |subs| && forall j | 0 <= j < |parts| :: Says(parts[j], n, ps, FilterTruth(subs[j], n))
    ensures Says(OrC(parts), n, ps, AnyTruth(subs, n))
    decreases |parts|
  {
    if parts != [] {
      assert Says(parts[0], n, ps, FilterTruth(subs[0], n));
      OrFiltersSay(parts[1..], subs[1..], n, ps);
      assert Says(OrC(parts[1..]), n, ps, AnyTruth(subs[1..], n));
    }
  }

  lemma {:induction false} AndOpsSay(parts: seq<Condition>, ops: seq<OpTest>, n: Node, v: CVal, ps: Params)
    requires |parts| == |ops| && forall j | 0 <= j < |parts| :: Says(parts[j], n, ps, OpTruth(ops[j].op, v, ops[j].operand))
    ensures Says(AndC(parts), n, ps, OpsTruth(v, ops))
    decreases |parts|
  {
    if parts != [] {
      assert Says(parts[0], n, ps, OpTruth(ops[0].op, v, ops[0].operand));
      AndOpsSay(parts[1..], ops[1..], n, v, ps);
      assert Says(AndC(parts[1..]), n, ps, OpsTruth(v, ops[1..]));
    }
  }

  lemma {:induction false} AndLabelsSay(parts: seq<Condition>, ops: seq<OpTest>, n: Node, ps: Params)
    requires |parts| == |ops| && forall j | 0 <= j < |parts| :: Says(parts[j], n, ps, LabelOpTruth(ops[j].op, n.labels, ops[j].operand))
    ensures Says(AndC(parts), n, ps, LabelOpsTruth(n.labels, ops))
    decreases |parts|
  {
    if parts != [] {
      assert Says(parts[0], n, ps, LabelOpTruth(ops[0].op, n.labels, ops[0].operand));
      AndLabelsSay(parts[1..], ops[1..], n, ps);
      assert Says(AndC(parts[1..]), n, ps, LabelOpsTruth(n.labels, ops[1..]));
    }
  }

  // --- Why it accepts the same nodes ---------------------------------------

  /** Operand and field are of types the two languages compare alike, and the operand has no nulls. */
  predicate OpFits(op: Op, v: CVal, e: CVal) {
    match op
    case Eq => NullFree(e) && !Mixed(v, e)
    case Ne => NullFree(e) && !Mixed(v, e) && (v.Null? || NullFree(v))
    case Gt | Gte | Lt | Lte => v.Null? || SameKind(v, e)
    case In => e.List? && AllPlain(e.items, v)
    case Nin => e.List? && AllPlain(e.items, v) && e.items != [] && (v.Null? || NullFree(v))
    case Exists => e.Bool?
    case Contains => NullFree(e) && (v.Null? || (v.List? && forall i | 0 <= i < |v.items| :: !Mixed(e, v.items[i])))
    case Other(_) => false
  }

  predicate TestFits(v: CVal, test: Test) {
    match test
    case Ops(ops) => forall i | 0 <= i < |ops| :: OpFits(ops[i].op, v, ops[i].operand)
    case OneOf(values) => AllPlain(values, v)
    case Is(value) => NullFree(value) && !Mixed(v, value)
  }

  /** The same for the main label, which is always there, and a string. */
  predicate LabelFits(v: CVal, test: Test) {
    v.Str? && TestFits(v, test) && (test.Ops? ==> forall i | 0 <= i < |test.ops| :: LabelOp(test.ops[i].op))
  }

  /** The field is there without nulls, or only its existence is tested. */
  predicate Definite(v: CVal, test: Test) {
    NullFree(v) || (test.Ops? && forall i | 0 <= i < |test.ops| :: test.ops[i].op.Exists?)
  }

  /** The filters for which the translation is exact on a node: types fit, and below `$not` every
      field is definite. With `definite` all fields are. */
  predicate Fits(attrs: Attrs, f: Filter, definite: bool)
    decreases f, 0
  {
    forall i | 0 <= i < |f.conds| :: CondFits(attrs, f.conds[i], definite)
  }

  predicate CondFits(attrs: Attrs, cond: Cond, definite: bool)
    decreases cond, 0
  {
    match cond
    case AnyOf(subs) => forall i | 0 <= i < |subs| :: Fits(attrs, subs[i], definite)
    case AllOf(subs) => subs != [] && forall i | 0 <= i < |subs| :: Fits(attrs, subs[i], definite)
    case Not(f) => Fits(attrs, f, true)
    case Field(name, test) =>
      if name == "main_label" then LabelFits(Lookup(attrs, name), test)
      else TestFits(Lookup(attrs, name), test) && (definite ==> Definite(Lookup(attrs, name), test))
  }

  /** Python's verdict and Cypher's: the same when Python accepts, and when all is definite Cypher's is
      never unknown. */
  predicate Agree(b: bool, t: Truth, definite: bool) {
    (t.True? <==> b) && (definite ==> t == Decided(b))
  }

  lemma OpAgrees(op: Op, v: CVal, e: CVal)
    requires OpFits(op, v, e) && !v.Null?
    ensures OpHolds(op, v, e).Ok? && Agree(OpHolds(op, v, e).value, OpTruth(op, v, e), NullFree(v))
  {
    if op.Eq? || op.Ne? {
      EqualsIsIdentity(v, e);
      PyEqIsIdentity(v, e);
      if NullFree(v) { EqualsDecides(v, e); }
    } else if op.In? || op.Nin? {
      MemberMeans(v, e.items);
    } else if op.Contains? {
      ContainedMeans(e, v.items);
    } else if !op.Exists? {
      ComparisonMeans(ComparisonOf(op), v, e);
    }
  }

  /** What Cypher makes of a test of an absent field: never true, but for its absence. */
  lemma {:induction false} AbsentIsUnknown(values: seq<CVal>)
    requires forall i | 0 <= i < |values| :: NullFree(values[i])
    ensures !Member(Null, values).True? && (values != [] ==> Member(Null, values).Unknown?)
    decreases |values|
  {
    if values != [] { AbsentIsUnknown(values[1..]); }
  }

  lemma OpOnAbsent(op: Op, e: CVal)
    requires OpFits(op, Null, e)
    ensures !op.Exists? ==> !OpTruth(op, Null, e).True?
    ensures op.Exists? ==> OpHolds(op, Null, e) == Ok(!e.b) && OpTruth(op, Null, e) == Decided(!e.b)
  {
    if op.In? || op.Nin? { AbsentIsUnknown(e.items); }
  }

  lemma {:induction false} OpsAgree(v: CVal, ops: seq<OpTest>)
    requires TestFits(v, Ops(ops))
    ensures MatchOps(v, ops).Ok? && Agree(MatchOps(v, ops).value, OpsTruth(v, ops), Definite(v, Ops(ops)))
    decreases |ops|
  {
    if ops != [] {
      assert TestFits(v, Ops(ops[1..]));
      assert OpFits(ops[0].op, v, ops[0].operand);
      assert Definite(v, Ops(ops)) ==> Definite(v, Ops(ops[1..])) && (NullFree(v) || ops[0].op.Exists?);
      OpsAgree(v, ops[1..]);
      if v.Null? {
        OpOnAbsent(ops[0].op, ops[0].operand);
      } else {
        OpAgrees(ops[0].op, v, ops[0].operand);
        if ops[0].op.Exists? { assert OpTruth(Exists, v, ops[0].operand) == Decided(ops[0].operand.b); }
      }
    }
  }

  lemma TestAgrees(v: CVal, test: Test)
    requires TestFits(v, test)
    ensures MatchTest(v, test).Ok? && Agree(MatchTest(v, test).value, TestTruth(v, test), Definite(v, test))
  {
    match test {
      case Ops(ops) => OpsAgree(v, ops);
      case OneOf(values) => MemberMeans(v, values);
      case Is(value) =>
        EqualsIsIdentity(v, value);
        PyEqIsIdentity(v, value);
        if NullFree(v) { EqualsDecides(v, value); }
    }
  }

  lemma OneLabel(v: CVal, e: CVal)
    ensures Member(e, [v]) == Equals(e, v) && AnyIn([v], e) == InList(v, e)
  {
    var labels := [v];
    assert labels[1..] == [] && labels[0] == v;
    assert Member(e, labels) == OrT(Equals(e, v), Member(e, []));
    assert AnyIn(labels, e) == OrT(InList(v, e), AnyIn([], e));
  }

  lemma LabelOpAgrees(op: Op, v: CVal, e: CVal)
    requires v.Str? && OpFits(op, v, e) && LabelOp(op)
    ensures LabelOpTruth(op, [v], e) == OpTruth(op, v, e)
  {
    EqualsSymmetric(e, v);
    OneLabel(v, e);
  }

  lemma {:induction false} LabelOpsAgree(v: CVal, ops: seq<OpTest>)
    requires LabelFits(v, Ops(ops))
    ensures LabelOpsTruth([v], ops) == OpsTruth(v, ops)
    decreases |ops|
  {
    if ops != [] {
      assert OpFits(ops[0].op, v, ops[0].operand) && LabelOp(ops[0].op);
      LabelOpAgrees(ops[0].op, v, ops[0].operand);
      assert LabelFits(v, Ops(ops[1..]));
      LabelOpsAgree(v, ops[1..]);
    }
  }

  /** On a node with only its main label, testing its labels is testing that label. */
  lemma LabelAgrees(v: CVal, test: Test)
    requires LabelFits(v, test)
    ensures LabelTruth([v], test) == TestTruth(v, test)
  {
    match test {
      case Ops(ops) => LabelOpsAgree(v, ops);
      case OneOf(values) => OneLabel(v, List(values));
      case Is(value) =>
        EqualsSymmetric(value, v);
        OneLabel(v, value);
    }
  }

  /** The node as it is persisted: one label, the other attributes as properties. */
  ghost predicate Persisted(attrs: Attrs, n: Node) {
    n.labels == [Lookup(attrs, "main_label")] && forall k | k != "main_label" :: Lookup(n.props, k) == Lookup(attrs, k)
  }

  /** The condition is true of a node exactly when `_match` accepts it, for all nestings. */
  lemma {:induction false} FilterAgrees(attrs: Attrs, n: Node, f: Filter, definite: bool)
    requires Persisted(attrs, n) && Fits(attrs, f, definite)
    ensures Match(attrs, f).Ok? && Agree(Match(attrs, f).value, FilterTruth(f, n), definite)
    decreases f, 1
  {
    EveryAgrees(attrs, n, f.conds, definite);
  }

  lemma {:induction false} EveryAgrees(attrs: Attrs, n: Node, conds: seq<Cond>, definite: bool)
    requires Persisted(attrs, n) && forall i | 0 <= i < |conds| :: CondFits(attrs, conds[i], definite)
    ensures MatchEvery(attrs, conds).Ok? && Agree(MatchEvery(attrs, conds).value, EveryTruth(conds, n), definite)
    decreases conds, 0
  {
    if conds != [] {
      CondAgrees(attrs, n, conds[0], definite);
      EveryAgrees(attrs, n, conds[1..], definite);
    }
  }

  lemma {:induction false} CondAgrees(attrs: Attrs, n: Node, cond: Cond, definite: bool)
    requires Persisted(attrs, n) && CondFits(attrs, cond, definite)
    ensures MatchCond(attrs, cond).Ok? && Agree(MatchCond(attrs, cond).value, CondTruth(cond, n), definite)
    decreases cond, 0
  {
    hide MatchTest, TestTruth, LabelTruth, TestFits, LabelFits;
    match cond {
      case AnyOf(subs) => if subs != [] { AnyAgrees(attrs, n, subs, definite); }
      case AllOf(subs) => AllAgrees(attrs, n, subs, definite);
      case Not(f) => FilterAgrees(attrs, n, f, true);
      case Field(name, test) =>
        var v := Lookup(attrs, name);
        if name == "main_label" {
          LabelFitsTest(v, test);
          LabelAgrees(v, test);
        }
        TestAgrees(v, test);
    }
  }

  lemma LabelFitsTest(v: CVal, test: Test)
    requires LabelFits(v, test)
    ensures TestFits(v, test) && Definite(v, test)
  {
  }

  lemma {:induction false} AnyAgrees(attrs: Attrs, n: Node, subs: seq<Filter>, definite: bool)
    requires Persisted(attrs, n) && forall i | 0 <= i < |subs| :: Fits(attrs, subs[i], definite)
    ensures MatchAny(attrs, subs).Ok? && Agree(MatchAny(attrs, subs).value, AnyTruth(subs, n), definite)
    decreases subs, 0
  {
    if subs != [] {
      FilterAgrees(attrs, n, subs[0], definite);
      AnyAgrees(attrs, n, subs[1..], definite);
    }
  }

  lemma {:induction false} AllAgrees(attrs: Attrs, n: Node, subs: seq<Filter>, definite: bool)
    requires Persisted(attrs, n) && forall i | 0 <= i < |subs| :: Fits(attrs, subs[i], definite)
    ensures MatchAll(attrs, subs).Ok? && Agree(MatchAll(attrs, subs).value, AllTruth(subs, n), definite)
    decreases subs, 0
  {
    if subs != [] {
      FilterAgrees(attrs, n, subs[0], definite);
      AllAgrees(attrs, n, subs[1..], definite);
    }
  }

  lemma {:induction false} FitsIsComplete(attrs: Attrs, f: Filter, definite: bool)
    requires Fits(attrs, f, definite)
    ensures Complete(f)
    decreases f, 0
  {
    forall i | 0 <= i < |f.conds| ensures CondComplete(f.conds[i]) { CondFitsIsComplete(attrs, f.conds[i], definite); }
  }

  lemma {:induction false} CondFitsIsComplete(attrs: Attrs, cond: Cond, definite: bool)
    requires CondFits(attrs, cond, definite)
    ensures CondComplete(cond)
    decreases cond, 0
  {
    match cond {
      case AnyOf(subs) => forall i | 0 <= i < |subs| ensures Complete(subs[i]) { FitsIsComplete(attrs, subs[i], definite); }
      case AllOf(subs) => forall i | 0 <= i < |subs| ensures Complete(subs[i]) { FitsIsComplete(attrs, subs[i], definite); }
      case Not(f) => FitsIsComplete(attrs, f, true);
      case Field(_, _) =>
    }
  }

  /** `_dict_filter_to_cypher`, and the whole claim: the text is an expression exactly when no `$and`
      is empty, and it and its parameters are true of a node exactly when `_match` accepts it. */
  method DictFilterToCypher(f: Filter) returns (r: Result<(Condition, Params), TranslationError>)
    ensures r.Ok? <==> Translatable(f)
    ensures r.Ok? ==> (Proper(r.value.0) <==> Complete(f))
    ensures r.Ok? ==> forall attrs: Attrs, n: Node | Persisted(attrs, n) && Fits(attrs, f, false) ::
      Match(attrs, f).Ok? && Proper(r.value.0) && (Meaning(r.value.0, n, r.value.1).True? <==> Match(attrs, f).value)
  {
    hide Meaning, Match, Fits, FilterTruth, Translatable, Proper, Complete;
    var translator := new Translator();
    var c := translator.Translate(f);
    if c.Err? { return Err(c.error); }
    forall attrs: Attrs, n: Node | Persisted(attrs, n) && Fits(attrs, f, false)
      ensures Match(attrs, f).Ok? && Proper(c.value) && (Meaning(c.value, n, translator.params).True? <==> Match(attrs, f).value)
    {
      FilterAgrees(attrs, n, f, false);
      FitsIsComplete(attrs, f, false);
      assert Says(c.value, n, translator.params, FilterTruth(f, n));
    }
    return Ok((c.value, translator.params));
  }

  /** An empty `$and` is accepted by `_match` and by the translator, but its text is no expression;
      an empty `$or` works. */
  lemma EmptyLists(attrs: Attrs, n: Node)
    ensures var f := Filter([AllOf([])]); Match(attrs, f) == Ok(true) && Translatable(f) && !Complete(f)
    ensures var f := Filter([AnyOf([])]); Match(attrs, f) == Ok(true) && Translatable(f) && Complete(f) && FilterTruth(f, n).True?
  {
    var all, any := [AllOf([])], [AnyOf([])];
    assert all[1..] == [] && any[1..] == [];
    assert MatchEvery(attrs, all) == MatchEvery(attrs, []) && MatchEvery(attrs, any) == MatchEvery(attrs, []);
    assert !CondComplete(all[0]);
    assert EveryTruth(any, n) == AndT(True, True);
  }

  // --- $not on an absent field ---------------------------------------------

  /** What an absent field makes of an operator: it may pass, be left open, or fail. */
  predicate OpPasses(test: OpTest) {
    test.op.Exists? && !Truthy(test.operand)
  }

  predicate OpLeftOpen(test: OpTest) {
    !test.op.Exists? && !(test.op.In? && test.operand == List([]))
  }

  /** An absent field leaves the test undecided. */
  predicate LeftOpen(test: Test) {
    match test
    case Ops(ops) =>
      && (exists i :: 0 <= i < |ops| && OpLeftOpen(ops[i]))
      && forall i | 0 <= i < |ops| :: OpLeftOpen(ops[i]) || OpPasses(ops[i])
    case OneOf(values) => values != []
    case Is(_) => true
  }

  /** Absent fields leave the filter undecided: one condition at least, and the others do not settle it. */
  predicate Undecided(attrs: Attrs, f: Filter)
    decreases f, 0
  {
    && (exists i :: 0 <= i < |f.conds| && CondUndecided(attrs, f.conds[i]))
    && forall i | 0 <= i < |f.conds| :: CondUndecided(attrs, f.conds[i]) || MatchCond(attrs, f.conds[i]) == Ok(true)
  }

  predicate CondUndecided(attrs: Attrs, cond: Cond)
    decreases cond, 0
  {
    match cond
    case AnyOf(subs) =>
      && (exists i :: 0 <= i < |subs| && Undecided(attrs, subs[i]))
      && forall i | 0 <= i < |subs| :: Undecided(attrs, subs[i]) || Match(attrs, subs[i]) == Ok(false)
    case AllOf(subs) =>
      && (exists i :: 0 <= i < |subs| && Undecided(attrs, subs[i]))
      && forall i | 0 <= i < |subs| :: Undecided(attrs, subs[i]) || Match(attrs, subs[i]) == Ok(true)
    case Not(f) => Undecided(attrs, f)
    case Field(name, test) => name != "main_label" && Lookup(attrs, name).Null? && LeftOpen(test)
  }

  /** No list that is stored holds a null. */
  ghost predicate Whole(attrs: Attrs) {
    forall k :: Lookup(attrs, k).Null? || NullFree(Lookup(attrs, k))
  }

  lemma {:induction false} OpsUnknown(ops: seq<OpTest>)
    requires TestFits(Null, Ops(ops))
    ensures OpsTruth(Null, ops).Unknown? <==> LeftOpen(Ops(ops))
    ensures OpsTruth(Null, ops).True? <==> forall i | 0 <= i < |ops| :: OpPasses(ops[i])
    decreases |ops|
  {
    if ops != [] {
      var rest := ops[1..];
      forall i | 0 <= i < |rest| ensures OpFits(rest[i].op, Null, rest[i].operand) { assert rest[i] == ops[i + 1]; }
      OpsUnknown(rest);
      assert OpFits(ops[0].op, Null, ops[0].operand);
      OpOnAbsent(ops[0].op, ops[0].operand);
      if ops[0].op.In? || ops[0].op.Nin? { AbsentIsUnknown(ops[0].operand.items); }
      assert OpTruth(ops[0].op, Null, ops[0].operand).Unknown? <==> OpLeftOpen(ops[0]);
      assert OpTruth(ops[0].op, Null, ops[0].operand).True? <==> OpPasses(ops[0]);
      hide OpTruth, OpLeftOpen, OpPasses, OpFits;
      assert forall i | 0 < i < |ops| :: ops[i] == rest[i - 1];
      assert forall i | 0 <= i < |rest| :: ops[i + 1] == rest[i];
    }
  }

  lemma TestUnknown(v: CVal, test: Test)
    requires TestFits(v, test) && (v.Null? || NullFree(v))
    ensures TestTruth(v, test).Unknown? <==> v.Null? && LeftOpen(test)
  {
    if v.Null? {
      match test {
        case Ops(ops) => OpsUnknown(ops);
        case OneOf(values) => AbsentIsUnknown(values);
        case Is(value) =>
      }
    } else {
      TestAgrees(v, test);
    }
  }

  /** Where the types fit, a filter is unknown to Cypher exactly when absent fields leave it undecided. */
  lemma {:induction false} UnknownIsUndecided(attrs: Attrs, n: Node, f: Filter, definite: bool)
    requires Persisted(attrs, n) && Whole(attrs) && Fits(attrs, f, definite)
    ensures FilterTruth(f, n).Unknown? <==> Undecided(attrs, f)
    decreases f, 1
  {
    EveryUnknown(attrs, n, f.conds, definite);
  }

  lemma {:induction false} EveryUnknown(attrs: Attrs, n: Node, conds: seq<Cond>, definite: bool)
    requires Persisted(attrs, n) && Whole(attrs) && forall i | 0 <= i < |conds| :: CondFits(attrs, conds[i], definite)
    ensures EveryTruth(conds, n).Unknown? <==>
              && (exists i :: 0 <= i < |conds| && CondUndecided(attrs, conds[i]))
              && forall i | 0 <= i < |conds| :: CondUndecided(attrs, conds[i]) || MatchCond(attrs, conds[i]) == Ok(true)
    ensures EveryTruth(conds, n).True? <==> forall i | 0 <= i < |conds| :: MatchCond(attrs, conds[i]) == Ok(true)
    decreases conds, 0
  {
    if conds != [] {
      var rest := conds[1..];
      CondUnknown(attrs, n, conds[0], definite);
      CondAgrees(attrs, n, conds[0], definite);
      EveryUnknown(attrs, n, rest, definite);
      hide CondTruth, CondUndecided, MatchCond, CondFits;
      assert forall i | 0 < i < |conds| :: conds[i] == rest[i - 1];
      assert forall i | 0 <= i < |rest| :: conds[i + 1] == rest[i];
    }
  }

  lemma {:induction false} CondUnknown(attrs: Attrs, n: Node, cond: Cond, definite: bool)
    requires Persisted(attrs, n) && Whole(attrs) && CondFits(attrs, cond, definite)
    ensures CondTruth(cond, n).Unknown? <==> CondUndecided(attrs, cond)
    decreases cond, 0
  {
    hide TestTruth, LabelTruth, TestFits, LabelFits, LeftOpen, Whole, Persisted, Match, MatchAny, MatchAll, Definite, Fits;
    match cond {
      case AnyOf(subs) => AnyUnknown(attrs, n, subs, definite);
      case AllOf(subs) => AllUnknown(attrs, n, subs, definite);
      case Not(f) => UnknownIsUndecided(attrs, n, f, true);
      case Field(name, test) => FieldUnknown(attrs, n, name, test);
    }
  }

  lemma FieldUnknown(attrs: Attrs, n: Node, name: string, test: Test)
    requires Persisted(attrs, n) && Whole(attrs) && CondFits(attrs, Field(name, test), false)
    ensures CondTruth(Field(name, test), n).Unknown? <==> CondUndecided(attrs, Field(name, test))
  {
    var v := Lookup(attrs, name);
    hide TestTruth, LabelTruth, TestFits, LabelFits, LeftOpen;
    if name == "main_label" {
      LabelFitsTest(v, test);
      LabelAgrees(v, test);
      TestAgrees(v, test);
    } else {
      TestUnknown(v, test);
    }
  }

  lemma {:induction false} AnyUnknown(attrs: Attrs, n: Node, subs: seq<Filter>, definite: bool)
    requires Persisted(attrs, n) && Whole(attrs) && forall i | 0 <= i < |subs| :: Fits(attrs, subs[i], definite)
    ensures AnyTruth(subs, n).Unknown? <==>
              && (exists i :: 0 <= i < |subs| && Undecided(attrs, subs[i]))
              && forall i | 0 <= i < |subs| :: Undecided(attrs, subs[i]) || Match(attrs, subs[i]) == Ok(false)
    ensures AnyTruth(subs, n).False? <==> forall i | 0 <= i < |subs| :: Match(attrs, subs[i]) == Ok(false) && !Undecided(attrs, subs[i])
    decreases subs, 0
  {
    if subs != [] {
      var rest := subs[1..];
      UnknownIsUndecided(attrs, n, subs[0], definite);
      FilterAgrees(attrs, n, subs[0], definite);
      AnyUnknown(attrs, n, rest, definite);
      hide FilterTruth, Undecided, Match, Fits;
      assert forall i | 0 < i < |subs| :: subs[i] == rest[i - 1];
      assert forall i | 0 <= i < |rest| :: subs[i + 1] == rest[i];
    }
  }

  lemma {:induction false} AllUnknown(attrs: Attrs, n: Node, subs: seq<Filter>, definite: bool)
    requires Persisted(attrs, n) && Whole(attrs) && forall i | 0 <= i < |subs| :: Fits(attrs, subs[i], definite)
    ensures AllTruth(subs, n).Unknown? <==>
              && (exists i :: 0 <= i < |subs| && Undecided(attrs, subs[i]))
              && forall i | 0 <= i < |subs| :: Undecided(attrs, subs[i]) || Match(attrs, subs[i]) == Ok(true)
    ensures AllTruth(subs, n).True? <==> forall i | 0 <= i < |subs| :: Match(attrs, subs[i]) == Ok(true)
    decreases subs, 0
  {
    if subs != [] {
      var rest := subs[1..];
      UnknownIsUndecided(attrs, n, subs[0], definite);
      FilterAgrees(attrs, n, subs[0], definite);
      AllUnknown(attrs, n, rest, definite);
      hide FilterTruth, Undecided, Match, Fits;
      assert forall i | 0 < i < |subs| :: subs[i] == rest[i - 1];
      assert forall i | 0 <= i < |rest| :: subs[i + 1] == rest[i];
    }
  }

  /** Where the types fit, a negated filter is translated exactly if and only if absent fields do not
      leave the filter itself undecided. */
  lemma NotIsExactIff(attrs: Attrs, n: Node, f: Filter)
    requires Persisted(attrs, n) && Whole(attrs) && Fits(attrs, f, false)
    ensures var negated := Filter([Cond.Not(f)]);
            && Match(attrs, negated).Ok?
            && ((FilterTruth(negated, n).True? <==> Match(attrs, negated).value) <==> !Undecided(attrs, f))
  {
    FilterAgrees(attrs, n, f, false);
    UnknownIsUndecided(attrs, n, f, false);
    var negated := Filter([Cond.Not(f)]);
    assert negated.conds[1..] == [];
    assert MatchEvery(attrs, negated.conds) == Ok(!Match(attrs, f).value);
    assert EveryTruth(negated.conds, n) == NotT(FilterTruth(f, n));
  }

  /** For a single field, whatever it is tested for: exact if and only if the field is there, or its
      absence settles the test. It does when only existence is tested. */
  lemma NotOfOneField(attrs: Attrs, n: Node, name: string, test: Test)
    requires Persisted(attrs, n) && Whole(attrs) && Fits(attrs, Filter([Field(name, test)]), false) && name != "main_label"
    ensures var negated := Filter([Cond.Not(Filter([Field(name, test)]))]);
            && Match(attrs, negated).Ok?
            && ((FilterTruth(negated, n).True? <==> Match(attrs, negated).value) <==> !(Lookup(attrs, name).Null? && LeftOpen(test)))
    ensures Definite(Lookup(attrs, name), test) ==> !(Lookup(attrs, name).Null? && LeftOpen(test))
  {
    var f := Filter([Field(name, test)]);
    NotIsExactIff(attrs, n, f);
    assert Undecided(attrs, f) <==> CondUndecided(attrs, f.conds[0]);
  }
}
