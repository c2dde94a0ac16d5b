/** What filters come to, in plainer words (cvcdocdb/networkx_graph.py `_match`, neo4j_graph.py,
    torch_dataloader.py): which nodes they accept, which names can be translated, what is pushed down to
    the server, and how rows are shared out. */
module FilterReading {
  import opened Common
  import opened Decimals
  import opened CypherValues
  import opened CypherEval
  import opened Filters
  import FilterTranslation
  import opened CypherReading

  // --- Python's comparisons ------------------------------------------------

  /** A value with its booleans as the numbers they equal, at any depth of lists. */
  function Plainly(v: CVal): CVal
    decreases v, 1
  {
    match v
    case Bool(b) => Num(if b then 1.0 else 0.0)
    case List(items) => List(AllPlainly(items))
    case _ => v
  }

  function AllPlainly(items: seq<CVal>): (r: seq<CVal>)
    ensures |r| == |items| && forall i | 0 <= i < |items| :: r[i] == Plainly(items[i])
    decreases items, 0
  {
    if items == [] then [] else [Plainly(items[0])] + AllPlainly(items[1..])
  }

  /** Python's `==`: the same value, once booleans are numbers. */
  lemma {:induction false} PyEqMeans(a: CVal, b: CVal)
    ensures PyEq(a, b) <==> Plainly(a) == Plainly(b)
    decreases a
  {
    if a.List? && b.List? && |a.items| == |b.items| {
      forall i | 0 <= i < |a.items| ensures PyEq(a.items[i], b.items[i]) <==> Plainly(a.items[i]) == Plainly(b.items[i]) {
        PyEqMeans(a.items[i], b.items[i]);
      }
      var xs, ys := AllPlainly(a.items), AllPlainly(b.items);
      assert Plainly(a) == List(xs) && Plainly(b) == List(ys);
      if xs == ys { forall i | 0 <= i < |a.items| ensures Plainly(a.items[i]) == Plainly(b.items[i]) { assert xs[i] == ys[i]; } }
    }
  }

  /** The items two lists have before place `i` are equal. */
  predicate EqualUpTo(xs: seq<CVal>, ys: seq<CVal>, i: nat)
    requires i <= |xs| && i <= |ys|
  {
    forall k | 0 <= k < i :: PyEq(xs[k], ys[k])
  }

  /** Python's order of lists: the first items that are not equal decide, or else the lengths. */
  lemma {:induction false} ListsCompared(xs: seq<CVal>, ys: seq<CVal>, i: nat)
    requires i <= |xs| && i <= |ys| && EqualUpTo(xs, ys, i)
    ensures i < |xs| && i < |ys| && !PyEq(xs[i], ys[i]) ==> PyOrder(List(xs), List(ys)) == PyOrder(xs[i], ys[i])
    ensures i == |xs| || i == |ys| ==> PyOrder(List(xs), List(ys)) == Ok(if |xs| < |ys| then -1 else if |xs| > |ys| then 1 else 0)
    decreases i
  {
    assert PyOrder(List(xs), List(ys)) == PyOrderLists(xs, ys);
    if i > 0 {
      assert PyEq(xs[0], ys[0]);
      forall k | 0 <= k < i - 1 ensures PyEq(xs[1..][k], ys[1..][k]) { assert PyEq(xs[k + 1], ys[k + 1]); }
      ListsCompared(xs[1..], ys[1..], i - 1);
      assert PyOrder(List(xs[1..]), List(ys[1..])) == PyOrderLists(xs[1..], ys[1..]);
    }
  }

  /** Values of other kinds cannot be ordered; booleans are ordered as numbers. */
  lemma KindsCompared(a: CVal, b: CVal)
    ensures PyOrder(a, b).Ok? ==> (IsNumber(a) && IsNumber(b)) || (a.Str? && b.Str?) || (a.List? && b.List?)
                                  || (a.Temporal? && b.Temporal? && a.kind == b.kind)
    ensures IsNumber(a) && IsNumber(b) ==> PyOrder(a, b) == PyOrder(Plainly(a), Plainly(b))
    ensures a.Temporal? && b.Temporal? && a.kind == b.kind ==>
              PyOrder(a, b) == Ok(if a.position < b.position then -1 else if a.position > b.position then 1 else 0)
  {
  }

  // --- What a filter accepts -----------------------------------------------

  predicate Contained(v: CVal, items: seq<CVal>) {
    exists i :: 0 <= i < |items| && Plainly(v) == Plainly(items[i])
  }

  /** The operators of two values that they can compare. */
  ghost predicate OpAccepts(op: Op, v: CVal, e: CVal) {
    match op
    case Eq => Plainly(v) == Plainly(e)
    case Ne => Plainly(v) != Plainly(e)
    case Gt => PyOrder(v, e).Ok? && PyOrder(v, e).value > 0
    case Gte => PyOrder(v, e).Ok? && PyOrder(v, e).value >= 0
    case Lt => PyOrder(v, e).Ok? && PyOrder(v, e).value < 0
    case Lte => PyOrder(v, e).Ok? && PyOrder(v, e).value <= 0
    case In => Inside(v, e)
    case Nin => !Inside(v, e)
    case Exists => Plainly(e) == Num(if v == Null then 0.0 else 1.0)
    case Contains => (v.List? || v.Str?) && Inside(e, v)
    case Other(_) => false
  }

  /** An item of a list, a part of a text, or a key of a map. */
  ghost predicate Inside(v: CVal, container: CVal) {
    match container
    case List(items) => Contained(v, items)
    case Str(s) => v.Str? && PartOf(v.s, s)
    case Map(entries) => v.Str? && v.s in entries.Keys
    case _ => false
  }

  lemma ContainedMeansIn(v: CVal, items: seq<CVal>)
    ensures PyIn(v, items) <==> Contained(v, items)
  {
    hide PyEq, Plainly;
    forall i | 0 <= i < |items| ensures PyEq(v, items[i]) <==> Plainly(v) == Plainly(items[i]) { PyEqMeans(v, items[i]); }
  }

  lemma InsideMeans(v: CVal, container: CVal)
    requires InContainer(v, container).Ok?
    ensures InContainer(v, container).value <==> Inside(v, container)
  {
    hide PyIn, Contained, Infix, PartOf;
    if container.List? { ContainedMeansIn(v, container.items); }
    if container.Str? && v.Str? { InfixPartOf(v.s, container.s); }
  }

  lemma OperatorMeans(op: Op, v: CVal, e: CVal)
    requires OpHolds(op, v, e).Ok?
    ensures OpHolds(op, v, e).value <==> OpAccepts(op, v, e)
  {
    hide PyEq, PyOrder, Inside, InContainer;
    PyEqMeans(v, e);
    PyEqMeans(Bool(!v.Null?), e);
    if InContainer(v, e).Ok? { InsideMeans(v, e); }
    if InContainer(e, v).Ok? { InsideMeans(e, v); }
  }

  /** The filter accepts the node: every condition does. */
  ghost predicate Accepts(attrs: Attrs, f: Filter)
    decreases f, 0
  {
    forall i | 0 <= i < |f.conds| :: CondAccepts(attrs, f.conds[i])
  }

  /** `$or` accepts what one part accepts, or anything when it has no parts; `$and` what all accept;
      `$not` what the filter does not; a field test what all its operators do, and of a field that is not
      there no operator but `$exists` says anything. */
  ghost predicate CondAccepts(attrs: Attrs, cond: Cond)
    decreases cond, 0
  {
    match cond
    case AnyOf(subs) => subs == [] || exists i :: 0 <= i < |subs| && Accepts(attrs, subs[i])
    case AllOf(subs) => forall i | 0 <= i < |subs| :: Accepts(attrs, subs[i])
    case Not(f) => !Accepts(attrs, f)
    case Field(name, test) => TestAccepts(if name in attrs then attrs[name] else Null, test)
  }

  ghost predicate TestAccepts(v: CVal, test: Test) {
    match test
    case Ops(ops) =>
      forall i | 0 <= i < |ops| :: (v == Null ==> ops[i].op == Exists) && OpAccepts(ops[i].op, v, ops[i].operand)
    case OneOf(values) => Contained(v, values)
    case Is(value) => Plainly(v) == Plainly(value)
  }

  lemma {:induction false} OpsMean(v: CVal, ops: seq<OpTest>)
    requires MatchOps(v, ops).Ok?
    ensures MatchOps(v, ops).value <==> TestAccepts(v, Ops(ops))
  {
    hide OpHolds, OpAccepts;
    if ops != [] {
      var first := ops[0];
      if OpHolds(first.op, v, first.operand).Ok? { OperatorMeans(first.op, v, first.operand); }
      if MatchOps(v, ops[1..]).Ok? { OpsMean(v, ops[1..]); }
      assert TestAccepts(v, Ops(ops)) <==>
             (v == Null ==> first.op == Exists) && OpAccepts(first.op, v, first.operand) && TestAccepts(v, Ops(ops[1..])) by {
        forall i | 0 < i < |ops| ensures ops[i] == ops[1..][i - 1] {}
        assert forall i | 0 <= i < |ops[1..]| :: ops[1..][i] == ops[i + 1];
      }
    }
  }

  lemma TestMeans(v: CVal, test: Test)
    requires MatchTest(v, test).Ok?
    ensures MatchTest(v, test).value <==> TestAccepts(v, test)
  {
    match test {
      case Ops(ops) =>
        hide OpAccepts, MatchOps;
        OpsMean(v, ops);
      case OneOf(values) =>
        hide PyIn, Contained;
        ContainedMeansIn(v, values);
      case Is(value) =>
        hide PyEq, Plainly;
        PyEqMeans(v, value);
    }
  }

  /** `_match`, when it raises nothing, accepts exactly the nodes the filter accepts. */
  lemma {:induction false} MatchMeans(attrs: Attrs, f: Filter)
    requires Match(attrs, f).Ok?
    ensures Match(attrs, f).value <==> Accepts(attrs, f)
    decreases f, 1
  {
    EveryMeans(attrs, f.conds);
  }

  lemma {:induction false} EveryMeans(attrs: Attrs, conds: seq<Cond>)
    requires MatchEvery(attrs, conds).Ok?
    ensures MatchEvery(attrs, conds).value <==> forall i | 0 <= i < |conds| :: CondAccepts(attrs, conds[i])
    decreases conds, 1
  {
    if conds != [] {
      hide CondAccepts, MatchCond;
      CondMeans(attrs, conds[0]);
      if MatchCond(attrs, conds[0]).value { EveryMeans(attrs, conds[1..]); }
      forall i | 0 < i < |conds| ensures conds[i] == conds[1..][i - 1] {}
      assert forall i | 0 <= i < |conds[1..]| :: conds[1..][i] == conds[i + 1];
    }
  }

  lemma {:induction false} CondMeans(attrs: Attrs, cond: Cond)
    requires MatchCond(attrs, cond).Ok?
    ensures MatchCond(attrs, cond).value <==> CondAccepts(attrs, cond)
    decreases cond, 1
  {
    match cond {
      case AnyOf(subs) => if subs != [] { AnyMeans(attrs, subs); }
      case AllOf(subs) => AllMeans(attrs, subs);
      case Not(f) => MatchMeans(attrs, f);
      case Field(name, test) =>
        hide MatchTest, TestAccepts;
        TestMeans(Lookup(attrs, name), test);
    }
  }

  lemma {:induction false} AnyMeans(attrs: Attrs, subs: seq<Filter>)
    requires MatchAny(attrs, subs).Ok?
    ensures MatchAny(attrs, subs).value <==> exists i :: 0 <= i < |subs| && Accepts(attrs, subs[i])
    decreases subs, 1
  {
    if subs != [] {
      hide Accepts, Match;
      MatchMeans(attrs, subs[0]);
      if !Match(attrs, subs[0]).value { AnyMeans(attrs, subs[1..]); }
      forall i | 0 < i < |subs| ensures subs[i] == subs[1..][i - 1] {}
      assert forall i | 0 <= i < |subs[1..]| :: subs[1..][i] == subs[i + 1];
    }
  }

  lemma {:induction false} AllMeans(attrs: Attrs, subs: seq<Filter>)
    requires MatchAll(attrs, subs).Ok?
    ensures MatchAll(attrs, subs).value <==> forall i | 0 <= i < |subs| :: Accepts(attrs, subs[i])
    decreases subs, 1
  {
    if subs != [] {
      hide Accepts, Match;
      MatchMeans(attrs, subs[0]);
      if Match(attrs, subs[0]).value { AllMeans(attrs, subs[1..]); }
      forall i | 0 < i < |subs| ensures subs[i] == subs[1..][i - 1] {}
      assert forall i | 0 <= i < |subs[1..]| :: subs[1..][i] == subs[i + 1];
    }
  }

  /** An operator that is not known, and one between values that cannot be compared, is an error, unless
      the field is not there. */
  lemma RefusedOperators(name: string, v: CVal, e: CVal)
    ensures MatchOps(v, [OpTest(Other(name), e)]) == Err(UnknownOperator)
    ensures v != Null && PyOrder(v, e).Err? ==> MatchOps(v, [OpTest(Gt, e)]) == Err(TypeError) && MatchOps(v, [OpTest(Lte, e)]) == Err(TypeError)
    ensures v != Null && !e.List? && !e.Str? && !e.Map? ==> MatchOps(v, [OpTest(Op.In, e)]) == Err(TypeError)
    ensures MatchOps(Null, [OpTest(Gt, e)]) == Ok(false) && MatchOps(Null, [OpTest(Op.In, e)]) == Ok(false)
  {
    hide PyOrder;
    assert MatchOps(v, []) == Ok(true);
    PyOrderRaises(v, e);
  }

  lemma PyOrderRaises(a: CVal, b: CVal)
    ensures PyOrder(a, b).Err? ==> PyOrder(a, b) == Err(TypeError)
    decreases a, 1
  {
    if a.List? && b.List? { ListsRaise(a.items, b.items); }
  }

  lemma {:induction false} ListsRaise(xs: seq<CVal>, ys: seq<CVal>)
    ensures PyOrderLists(xs, ys).Err? ==> PyOrderLists(xs, ys) == Err(TypeError)
    decreases xs, 0
  {
    if xs != [] && ys != [] {
      if PyEq(xs[0], ys[0]) { ListsRaise(xs[1..], ys[1..]); } else { PyOrderRaises(xs[0], ys[0]); }
    }
  }

  // --- What can be translated ----------------------------------------------

  predicate AsciiLetter(c: char) {
    'A' <= c <= 'Z' || 'a' <= c <= 'z'
  }

  /** A field name can be written into a query if it is made of ASCII letters, digits and underscores and
      no digit leads; a line feed may end it. */
  lemma IdentifiersAre(s: string)
    ensures FilterTranslation.IsIdentifier(s) <==>
            var name := if s != [] && s[|s| - 1] == '\n' then s[..|s| - 1] else s;
            name != [] && !('0' <= name[0] <= '9') && forall i | 0 <= i < |name| :: AsciiLetter(name[i]) || '0' <= name[i] <= '9' || name[i] == '_'
  {
    var name := if s != [] && s[|s| - 1] == '\n' then s[..|s| - 1] else s;
    NamesAreSpelled(name);
    if s != [] && s[|s| - 1] == '\n' {
      assert !FilterTranslation.IsLetter('\n') && !IsDigit('\n');
    }
  }

  lemma NamesAreSpelled(name: string)
    ensures FilterTranslation.IsName(name) <==>
            name != [] && !('0' <= name[0] <= '9') && forall i | 0 <= i < |name| :: AsciiLetter(name[i]) || '0' <= name[i] <= '9' || name[i] == '_'
  {
    if FilterTranslation.IsName(name) {
      forall i | 0 <= i < |name| ensures AsciiLetter(name[i]) || '0' <= name[i] <= '9' || name[i] == '_' {
        assert i > 0 ==> FilterTranslation.IsLetter(name[i]) || IsDigit(name[i]);
      }
    }
  }

  /** A test of the main label can be translated with five of the operators, a test of another field with all
      that are known; a list and a single value always can. */
  lemma OperatorsAre(name: string, op: Op, e: CVal, values: seq<CVal>)
    ensures FilterTranslation.CondTranslatable(Field("main_label", Ops([OpTest(op, e)]))) <==> op in {Eq, Ne, Op.In, Nin, Exists}
    ensures name != "main_label" ==>
              (FilterTranslation.CondTranslatable(Field(name, Ops([OpTest(op, e)]))) <==>
               FilterTranslation.IsIdentifier(name) && op in {Eq, Ne, Gt, Gte, Lt, Lte, Op.In, Nin, Exists, Op.Contains})
    ensures FilterTranslation.CondTranslatable(Field("main_label", OneOf(values))) && FilterTranslation.CondTranslatable(Field("main_label", Is(e)))
    ensures name != "main_label" ==>
              (FilterTranslation.CondTranslatable(Field(name, Is(e))) <==> FilterTranslation.IsIdentifier(name))
  {
    hide FilterTranslation.IsIdentifier;
    assert forall i | 0 <= i < |[OpTest(op, e)]| :: [OpTest(op, e)][i] == OpTest(op, e);
    assert [OpTest(op, e)][0] == OpTest(op, e);
  }

  /** The operands of `$exists` that ask for a field to be missing: Python's false values. */
  lemma TruthyIs(v: CVal)
    ensures FilterTranslation.Truthy(v) <==>
            !(v == Null || v == Bool(false) || v == Num(0.0) || v == Str("") || v == List([]) || v == Map(map[]))
  {
  }
}
