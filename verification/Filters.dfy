/** MongoDB-style filters and what they match in memory (cvcdocdb/networkx_graph.py, `_match`). */
module Filters {
  import opened Common
  import opened CypherValues
  import opened CypherEval

  datatype Op = Eq | Ne | Gt | Gte | Lt | Lte | In | Nin | Exists | Contains | Other(name: string)

  datatype OpTest = OpTest(op: Op, operand: CVal)

  /** What a field is tested for: a dict of operators, a list of values, or one value. */
  datatype Test = Ops(ops: seq<OpTest>) | OneOf(values: seq<CVal>) | Is(value: CVal)

  datatype Filter = Filter(conds: seq<Cond>)

  datatype Cond = AnyOf(subs: seq<Filter>) | AllOf(subs: seq<Filter>) | Not(f: Filter) | Field(name: string, test: Test)

  datatype MatchError = UnknownOperator | TypeError

  // --- Python's comparisons ------------------------------------------------

  predicate IsNumber(v: CVal) {
    v.Num? || v.Bool?
  }

  function NumberOf(v: CVal): real
    requires IsNumber(v)
  {
    if v.Num? then v.n else if v.b then 1.0 else 0.0
  }

  /** `==`: `True == 1`, at any depth of lists. */
  predicate PyEq(a: CVal, b: CVal) {
    if IsNumber(a) && IsNumber(b) then NumberOf(a) == NumberOf(b)
    else if a.List? && b.List? then
      |a.items| == |b.items| && forall i | 0 <= i < |a.items| :: PyEq(a.items[i], b.items[i])
    else a == b
  }

  predicate PyIn(v: CVal, items: seq<CVal>) {
    exists i :: 0 <= i < |items| && PyEq(v, items[i])
  }

  /** The sign of a comparison by `<`, `<=`, `>` or `>=`, or the `TypeError` it raises. */
  function PyOrder(a: CVal, b: CVal): Result<int, MatchError> {
    if IsNumber(a) && IsNumber(b) then
      Ok(if NumberOf(a) < NumberOf(b) then -1 else if NumberOf(a) > NumberOf(b) then 1 else 0)
    else if a.Str? && b.Str? then Ok(CompareText(a.s, b.s))
    else if a.Temporal? && b.Temporal? && a.kind == b.kind then Ok(Sign(a.position - b.position))
    else if a.List? && b.List? then PyOrderLists(a.items, b.items)
    else Err(TypeError)
  }

  /** Lists: by the first items that differ, or else by length. */
  function PyOrderLists(xs: seq<CVal>, ys: seq<CVal>): Result<int, MatchError> {
    if xs == [] || ys == [] then Ok(Sign(|xs| - |ys|))
    else if PyEq(xs[0], ys[0]) then PyOrderLists(xs[1..], ys[1..])
    else PyOrder(xs[0], ys[0])
  }

  // --- _match --------------------------------------------------------------

  function ComparisonOf(op: Op): Comparison
    requires op.Gt? || op.Gte? || op.Lt? || op.Lte?
  {
    match op
    case Gt => Greater
    case Gte => GreaterOrEqual
    case Lt => Less
    case Lte => LessOrEqual
  }

  /** `v in container`. */
  function InContainer(v: CVal, container: CVal): Result<bool, MatchError> {
    match container
    case List(items) => Ok(PyIn(v, items))
    case Str(s) => if v.Str? then Ok(Infix(v.s, s)) else Err(TypeError)
    case Map(entries) => Ok(v.Str? && v.s in entries)
    case _ => Err(TypeError)
  }

  /** One entry of `_OPS`. */
  function OpHolds(op: Op, v: CVal, e: CVal): Result<bool, MatchError> {
    match op
    case Eq => Ok(PyEq(v, e))
    case Ne => Ok(!PyEq(v, e))
    case Gt | Gte | Lt | Lte =>
      var sign :- PyOrder(v, e);
      Ok(Decide(ComparisonOf(op), sign))
    case In => InContainer(v, e)
    case Nin =>
      var found :- InContainer(v, e);
      Ok(!found)
    case Exists => Ok(PyEq(Bool(!v.Null?), e))
    case Contains => if v.List? || v.Str? then InContainer(e, v) else Ok(false)
    case Other(_) => Err(UnknownOperator)
  }

  function MatchOps(v: CVal, ops: seq<OpTest>): Result<bool, MatchError> {
    if ops == [] then Ok(true)
    else if ops[0].op.Other? then Err(UnknownOperator)
    else if v.Null? && ops[0].op != Exists then Ok(false)
    else
      var ok :- OpHolds(ops[0].op, v, ops[0].operand);
      if ok then MatchOps(v, ops[1..]) else Ok(false)
  }

  function MatchTest(v: CVal, test: Test): Result<bool, MatchError> {
    match test
    case Ops(ops) => MatchOps(v, ops)
    case OneOf(values) => Ok(PyIn(v, values))
    case Is(value) => Ok(PyEq(v, value))
  }

  /** `_match`. */
  function Match(attrs: Attrs, f: Filter): Result<bool, MatchError>
    decreases f, 0
  {
    MatchEvery(attrs, f.conds)
  }

  function MatchEvery(attrs: Attrs, conds: seq<Cond>): Result<bool, MatchError>
    decreases conds, 0
  {
    if conds == [] then Ok(true)
    else
      var ok :- MatchCond(attrs, conds[0]);
      if ok then MatchEvery(attrs, conds[1..]) else Ok(false)
  }

  function MatchCond(attrs: Attrs, cond: Cond): Result<bool, MatchError>
    decreases cond, 0
  {
    match cond
    case AnyOf(subs) => if subs == [] then Ok(true) else MatchAny(attrs, subs)
    case AllOf(subs) => MatchAll(attrs, subs)
    case Not(f) =>
      var ok :- Match(attrs, f);
      Ok(!ok)
    case Field(name, test) => MatchTest(Lookup(attrs, name), test)
  }

  function MatchAny(attrs: Attrs, subs: seq<Filter>): Result<bool, MatchError>
    decreases subs, 0
  {
    if subs == [] then Ok(false)
    else
      var ok :- Match(attrs, subs[0]);
      if ok then Ok(true) else MatchAny(attrs, subs[1..])
  }

  function MatchAll(attrs: Attrs, subs: seq<Filter>): Result<bool, MatchError>
    decreases subs, 0
  {
    if subs == [] then Ok(true)
    else
      var ok :- Match(attrs, subs[0]);
      if ok then MatchAll(attrs, subs[1..]) else Ok(false)
  }

  // --- When Python and Cypher compare alike --------------------------------

  /** A boolean meets a number: Python may call them equal, Cypher never does. */
  predicate Mixed(a: CVal, b: CVal) {
    || (a.Bool? && b.Num?) || (a.Num? && b.Bool?)
    || (a.List? && b.List? && |a.items| == |b.items| && exists i :: 0 <= i < |a.items| && Mixed(a.items[i], b.items[i]))
  }

  lemma {:induction false} PyEqIsIdentity(a: CVal, b: CVal)
    requires !Mixed(a, b)
    ensures PyEq(a, b) <==> a == b
    decreases a
  {
    if a.List? && b.List? && |a.items| == |b.items| {
      forall i | 0 <= i < |a.items| ensures PyEq(a.items[i], b.items[i]) <==> a.items[i] == b.items[i] {
        PyEqIsIdentity(a.items[i], b.items[i]);
      }
      assert (forall i | 0 <= i < |a.items| :: a.items[i] == b.items[i]) <==> a.items == b.items;
    }
  }

  /** Without nulls, equality is never unknown. */
  lemma {:induction false} EqualsDecides(a: CVal, b: CVal)
    requires NullFree(a) && NullFree(b)
    ensures Equals(a, b) == Decided(a == b)
    decreases a
  {
    EqualsIsIdentity(a, b);
    if a.List? && b.List? && |a.items| == |b.items| {
      EqualsAllDecides(a.items, b.items);
    }
  }

  lemma {:induction false} EqualsAllDecides(xs: seq<CVal>, ys: seq<CVal>)
    requires |xs| == |ys| && (forall i | 0 <= i < |xs| :: NullFree(xs[i])) && forall i | 0 <= i < |ys| :: NullFree(ys[i])
    ensures !EqualsAll(xs, ys).Unknown?
    decreases xs
  {
    if xs != [] {
      EqualsDecides(xs[0], ys[0]);
      EqualsAllDecides(xs[1..], ys[1..]);
    }
  }

  predicate AllPlain(values: seq<CVal>, v: CVal) {
    forall i | 0 <= i < |values| :: NullFree(values[i]) && !Mixed(v, values[i])
  }

  /** Membership among null-free values: surely true just when Python finds the value, and false
      otherwise unless the value sought has nulls. */
  lemma {:induction false} MemberMeans(v: CVal, values: seq<CVal>)
    requires AllPlain(values, v)
    ensures Member(v, values).True? <==> PyIn(v, values)
    ensures NullFree(v) ==> Member(v, values) == Decided(PyIn(v, values))
    decreases |values|
  {
    if values != [] {
      assert AllPlain(values[1..], v);
      MemberMeans(v, values[1..]);
      EqualsIsIdentity(v, values[0]);
      PyEqIsIdentity(v, values[0]);
      if NullFree(v) { EqualsDecides(v, values[0]); }
      hide Equals, PyEq, NullFree, Mixed;
      assert PyIn(v, values) <==> PyEq(v, values[0]) || PyIn(v, values[1..]) by {
        if PyIn(v, values[1..]) {
          var i :| 0 <= i < |values[1..]| && PyEq(v, values[1..][i]);
          assert PyEq(v, values[i + 1]);
        }
        if PyIn(v, values) && !PyEq(v, values[0]) {
          var i :| 0 <= i < |values| && PyEq(v, values[i]);
          assert PyEq(v, values[1..][i - 1]);
        }
      }
    }
  }

  /** The other way round: a null-free value among values that may have nulls. */
  lemma {:induction false} ContainedMeans(e: CVal, items: seq<CVal>)
    requires NullFree(e) && forall i | 0 <= i < |items| :: !Mixed(e, items[i])
    ensures Member(e, items).True? <==> PyIn(e, items)
    ensures (forall i | 0 <= i < |items| :: NullFree(items[i])) ==> Member(e, items) == Decided(PyIn(e, items))
    decreases |items|
  {
    if items != [] {
      ContainedMeans(e, items[1..]);
      EqualsIsIdentity(e, items[0]);
      PyEqIsIdentity(e, items[0]);
      if NullFree(items[0]) { EqualsDecides(e, items[0]); }
      hide Equals, PyEq, NullFree, Mixed;
      assert PyIn(e, items) <==> PyEq(e, items[0]) || PyIn(e, items[1..]) by {
        if PyIn(e, items[1..]) {
          var i :| 0 <= i < |items[1..]| && PyEq(e, items[1..][i]);
          assert PyEq(e, items[i + 1]);
        }
        if PyIn(e, items) && !PyEq(e, items[0]) {
          var i :| 0 <= i < |items| && PyEq(e, items[i]);
          assert PyEq(e, items[1..][i - 1]);
        }
      }
    }
  }

  predicate SameKind(a: CVal, b: CVal) {
    (a.Num? && b.Num?) || (a.Str? && b.Str?) || (a.Bool? && b.Bool?)
  }

  lemma ComparisonMeans(op: Comparison, v: CVal, e: CVal)
    requires SameKind(v, e)
    ensures PyOrder(v, e).Ok? && Compare(op, v, e) == Decided(Decide(op, PyOrder(v, e).value))
  {
  }
}
