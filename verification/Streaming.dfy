/** Streaming nodes to data-loader workers (cvcdocdb/torch_dataloader.py): filter pushdown, worker
    slices and SKIP/LIMIT paging. */
module Streaming {
  import opened Common
  import opened Decimals
  import opened CypherValues
  import opened CypherEval
  import opened Filters
  import opened FilterTranslation

  // --- The pushed-down WHERE -----------------------------------------------

  /** The operators `_filter_to_cypher` translates; the others wait for the check in memory. */
  predicate Pushed(op: Op) {
    !op.Contains? && !op.Other?
  }

  function PushedOpsTruth(v: CVal, ops: seq<OpTest>): Truth {
    if ops == [] then True
    else
      var n := |ops| - 1;
      AndT(PushedOpsTruth(v, ops[..n]), if Pushed(ops[n].op) then OpTruth(ops[n].op, v, ops[n].operand) else True)
  }

  function PushedTest(v: CVal, test: Test): Truth {
    if test.Ops? then PushedOpsTruth(v, test.ops) else TestTruth(v, test)
  }

  /** The WHERE clause, field by field; combinators are skipped. */
  function PushedTruth(conds: seq<Cond>, n: Node): Truth {
    if conds == [] then True
    else
      var k := |conds| - 1;
      AndT(PushedTruth(conds[..k], n),
           if conds[k].Field? then PushedTest(Lookup(n.props, conds[k].name), conds[k].test) else True)
  }

  /** Every operator but two is pushed down, each as the condition Cypher would test. */
  lemma PushedAre(op: Op, v: CVal, e: CVal)
    ensures PushedTest(v, Ops([OpTest(op, e)])) ==
            match op
            case Eq => Equals(v, e)
            case Ne => NotT(Equals(v, e))
            case Gt => Compare(Greater, v, e)
            case Gte => Compare(GreaterOrEqual, v, e)
            case Lt => Compare(Less, v, e)
            case Lte => Compare(LessOrEqual, v, e)
            case In => InList(v, e)
            case Nin => NotT(InList(v, e))
            case Exists => if v.Null? then (if Truthy(e) then False else True) else if Truthy(e) then True else False
            case _ => True
  {
    hide Equals, Compare, InList, Truthy;
    var ops := [OpTest(op, e)];
    assert ops[..0] == [];
    assert PushedOpsTruth(v, ops) == AndT(True, if Pushed(op) then OpTruth(op, v, e) else True);
  }

  function Suffix(op: Op): string {
    match op
    case Eq => "_eq"
    case Ne => "_ne"
    case Gt => "_gt"
    case Gte => "_gte"
    case Lt => "_lt"
    case Lte => "_lte"
    case In => "_in"
    case Nin => "_nin"
    case Exists => "_exists"
    case Contains => "_contains"
    case Other(name) => "_" + name
  }

  function Base(k: nat): string {
    "_f" + ShowNat(k)
  }

  predicate Tail(s: string) {
    s == "" || s[0] == '_'
  }

  lemma NotShorter(a: string, b: string, s: string, t: string)
    requires AllDigits(a) && AllDigits(b) && Tail(s) && Tail(t) && a + s == b + t
    ensures |a| >= |b|
  {
    assert forall i | 0 <= i < |b| :: (b + t)[i] == b[i];
    assert |s| > 0 ==> (a + s)[|a|] == s[0];
    assert |a| + |s| == |b| + |t|;
  }

  /** Names with different numbers, or the same number and different tails, differ. */
  lemma NamesDiffer(j: nat, k: nat, s: string, t: string)
    requires Tail(s) && Tail(t) && Base(j) + s == Base(k) + t
    ensures j == k && s == t
  {
    var a, b := ShowNat(j), ShowNat(k);
    assert (Base(j) + s)[2..] == a + s && (Base(k) + t)[2..] == b + t;
    NotShorter(a, b, s, t);
    NotShorter(b, a, t, s);
    assert a == (a + s)[..|a|] == (b + t)[..|a|] == b;
    assert s == (a + s)[|a|..] == t;
    ReadShow(j);
    ReadShow(k);
  }

  /** Every parameter is named after a number below `n`. */
  ghost predicate NamedBelow(ps: Params, n: nat) {
    forall p | p in ps :: exists k: nat, s :: k < n && Tail(s) && p == Base(k) + s
  }

  lemma FreshBelow(ps: Params, n: nat, s: string)
    requires NamedBelow(ps, n) && Tail(s)
    ensures Base(n) + s !in ps
  {
    if Base(n) + s in ps {
      var k: nat, t :| k < n && Tail(t) && Base(n) + s == Base(k) + t;
      NamesDiffer(n, k, s, t);
    }
  }

  /** The operators of a field are the keys of a dict. */
  predicate DistinctOps(conds: seq<Cond>) {
    forall i | 0 <= i < |conds| && conds[i].Field? && conds[i].test.Ops? :: OpsDistinct(conds[i].test.ops)
  }

  predicate OpsDistinct(ops: seq<OpTest>) {
    forall i, j | 0 <= i < j < |ops| :: ops[i].op != ops[j].op
  }

  /** All names of one field: its number, and a tail told apart by the operator. */
  ghost predicate NamedWithin(ps: Params, n: nat, ops: seq<OpTest>) {
    forall p | p in ps ::
      || (exists k: nat, s :: k < n && Tail(s) && p == Base(k) + s)
      || (exists i :: 0 <= i < |ops| && p == Base(n) + Suffix(ops[i].op))
  }

  lemma SuffixesDiffer(a: Op, b: Op)
    requires Pushed(a) && Pushed(b) && Suffix(a) == Suffix(b)
    ensures a == b
  {
    assert Suffix(a)[1] == Suffix(b)[1] && |Suffix(a)| == |Suffix(b)|;
    if |Suffix(a)| > 2 { assert Suffix(a)[2] == Suffix(b)[2]; }
  }

  lemma FreshWithin(ps: Params, n: nat, ops: seq<OpTest>, op: Op)
    requires NamedWithin(ps, n, ops) && Pushed(op) && forall i | 0 <= i < |ops| :: ops[i].op != op && Pushed(ops[i].op)
    ensures Base(n) + Suffix(op) !in ps
  {
    hide Base, Suffix, Tail;
    SuffixIsTail(op);
    if Base(n) + Suffix(op) in ps {
      if k: nat, s :| k < n && Tail(s) && Base(n) + Suffix(op) == Base(k) + s {
        NamesDiffer(n, k, Suffix(op), s);
      } else {
        var i :| 0 <= i < |ops| && Base(n) + Suffix(op) == Base(n) + Suffix(ops[i].op);
        SuffixIsTail(ops[i].op);
        NamesDiffer(n, n, Suffix(op), Suffix(ops[i].op));
        SuffixesDiffer(op, ops[i].op);
      }
    }
  }

  lemma SuffixIsTail(op: Op)
    ensures Tail(Suffix(op))
  {
  }

  method PushOp(field: string, op: Op, operand: CVal, p: string) returns (part: Condition)
    requires Pushed(op)
    ensures forall n: Node, ps: Params | op.Exists? || (p in ps && ps[p] == operand) ::
      Meaning(part, n, ps) == OpTruth(op, Lookup(n.props, field), operand)
  {
    hide Equals, Compare, Member;
    match op {
      case Eq => part := FieldEquals(field, p);
      case Ne => part := FieldDiffers(field, p);
      case Gt | Gte | Lt | Lte => part := FieldCompares(ComparisonOf(op), field, p);
      case In => part := FieldIn(field, p);
      case Nin =>
        part := NotC(FieldIn(field, p));
        assert forall n: Node, ps: Params :: Meaning(part, n, ps) == NotT(Meaning(FieldIn(field, p), n, ps));
      case Exists => part := FieldIsNull(field, Truthy(operand));
    }
  }

  lemma {:induction false} AndAppend(parts: seq<Condition>, c: Condition, n: Node, ps: Params)
    ensures MeaningAnd(parts + [c], n, ps) == AndT(MeaningAnd(parts, n, ps), Meaning(c, n, ps))
    decreases |parts|
  {
    if parts == [] {
      assert [c][1..] == [];
      assert parts + [c] == [c];
      assert MeaningAnd([c], n, ps) == AndT(Meaning(c, n, ps), MeaningAnd([], n, ps));
    } else {
      assert (parts + [c])[1..] == parts[1..] + [c];
      assert (parts + [c])[0] == parts[0];
      AndAppend(parts[1..], c, n, ps);
    }
  }

  /** One more part, and perhaps one more parameter. */
  lemma PartAdded(parts: seq<Condition>, part: Condition, n: Node, ps: Params, more: Params, t: Truth, u: Truth)
    requires Says(AndC(parts), n, ps, t) && Extends(ps, more) && Says(part, n, more, u)
    ensures Says(AndC(parts + [part]), n, more, AndT(t, u))
  {
    SaysMore(AndC(parts), n, ps, more, t);
    forall all: Params | Extends(more, all) ensures Meaning(AndC(parts + [part]), n, all) == AndT(t, u) {
      AndAppend(parts, part, n, all);
      assert Meaning(AndC(parts), n, all) == t && Meaning(part, n, all) == u;
    }
  }

  lemma AndTAssociative(a: Truth, b: Truth, c: Truth)
    ensures AndT(AndT(a, b), c) == AndT(a, AndT(b, c)) && AndT(a, True) == a
  {
  }

  /** The conditions in `before`, and the operators of one more field, are in `parts`. */
  ghost predicate Pushing(before: seq<Cond>, field: string, ops: seq<OpTest>, params0: Params, parts: seq<Condition>, params: Params) {
    && Extends(params0, params) && NamedWithin(params, |params0|, PushedOf(ops))
    && |params| >= |params0| && (|params| == |params0| ==> params == params0)
    && forall n: Node :: Says(AndC(parts), n, params, AndT(PushedTruth(before, n), PushedOpsTruth(Lookup(n.props, field), ops)))
  }

  lemma PushStart(before: seq<Cond>, field: string, params0: Params, parts0: seq<Condition>)
    requires NamedBelow(params0, |params0|) && forall n: Node :: Says(AndC(parts0), n, params0, PushedTruth(before, n))
    ensures Pushing(before, field, [], params0, parts0, params0)
  {
    hide Says, PushedTruth, Base, Suffix, Tail;
    forall n: Node ensures AndT(PushedTruth(before, n), True) == PushedTruth(before, n) {
      AndTAssociative(PushedTruth(before, n), True, True);
    }
  }

  lemma PushStep(before: seq<Cond>, field: string, ops: seq<OpTest>, i: nat, params0: Params, parts: seq<Condition>, params: Params,
                 part: Condition, more: Params)
    requires i < |ops| && Pushed(ops[i].op) && Pushing(before, field, ops[..i], params0, parts, params)
    requires var p := Base(|params0|) + Suffix(ops[i].op);
             p !in params && more == if ops[i].op.Exists? then params else params[p := ops[i].operand]
    requires forall n: Node :: Says(part, n, more, OpTruth(ops[i].op, Lookup(n.props, field), ops[i].operand))
    ensures Pushing(before, field, ops[..i + 1], params0, parts + [part], more)
  {
    hide Says, OpTruth, Base, Suffix, Tail, PushedTruth;
    assert ops[..i + 1][..i] == ops[..i];
    var op, operand := ops[i].op, ops[i].operand;
    PushedOfMore(ops, i);
    NamedStep(params, |params0|, PushedOf(ops[..i]), ops[i], more);
    hide NamedWithin, PushedOf;
    forall n: Node
      ensures Says(AndC(parts + [part]), n, more, AndT(PushedTruth(before, n), PushedOpsTruth(Lookup(n.props, field), ops[..i + 1])))
    {
      var v := Lookup(n.props, field);
      PartAdded(parts, part, n, params, more, AndT(PushedTruth(before, n), PushedOpsTruth(v, ops[..i])), OpTruth(op, v, operand));
      AndTAssociative(PushedTruth(before, n), PushedOpsTruth(v, ops[..i]), OpTruth(op, v, operand));
    }
  }

  lemma NamedStep(params: Params, n: nat, pushed: seq<OpTest>, test: OpTest, more: Params)
    requires NamedWithin(params, n, pushed)
    requires forall p | p in more :: p in params || p == Base(n) + Suffix(test.op)
    ensures NamedWithin(more, n, pushed + [test])
  {
    hide Base, Suffix, Tail;
    var all := pushed + [test];
    assert forall j | 0 <= j < |pushed| :: all[j] == pushed[j];
    assert all[|pushed|] == test;
  }

  lemma PushSkip(before: seq<Cond>, field: string, ops: seq<OpTest>, i: nat, params0: Params, parts: seq<Condition>, params: Params)
    requires i < |ops| && !Pushed(ops[i].op) && Pushing(before, field, ops[..i], params0, parts, params)
    ensures Pushing(before, field, ops[..i + 1], params0, parts, params)
  {
    hide Says, OpTruth, PushedTruth;
    assert ops[..i + 1][..i] == ops[..i];
    PushedOfMore(ops, i);
    forall n: Node ensures PushedOpsTruth(Lookup(n.props, field), ops[..i + 1]) == PushedOpsTruth(Lookup(n.props, field), ops[..i]) {
      AndTAssociative(PushedOpsTruth(Lookup(n.props, field), ops[..i]), True, True);
    }
  }

  /** The operators of one field; `before` are the conditions already in `parts0`. */
  method PushOps(ghost before: seq<Cond>, field: string, ops: seq<OpTest>, parts0: seq<Condition>, params0: Params)
    returns (parts: seq<Condition>, params: Params)
    requires OpsDistinct(ops) && NamedBelow(params0, |params0|)
    requires forall n: Node :: Says(AndC(parts0), n, params0, PushedTruth(before, n))
    ensures Pushing(before, field, ops, params0, parts, params)
  {
    parts, params := parts0, params0;
    PushStart(before, field, params0, parts0);
    hide Pushing, Says, OpTruth, Base, Suffix, OpsDistinct;
    for i := 0 to |ops|
      invariant Pushing(before, field, ops[..i], params0, parts, params)
    {
      var op, operand := ops[i].op, ops[i].operand;
      if Pushed(op) {
        var p := Base(|params0|) + Suffix(op);
        PushFresh(before, field, ops, i, params0, parts, params);
        var part := PushOp(field, op, operand, p);
        var more := if op.Exists? then params else params[p := operand];
        forall n: Node ensures Says(part, n, more, OpTruth(op, Lookup(n.props, field), operand)) {
          PartSays(part, n, more, p, op, operand, Lookup(n.props, field));
        }
        PushStep(before, field, ops, i, params0, parts, params, part, more);
        parts, params := parts + [part], more;
      } else {
        PushSkip(before, field, ops, i, params0, parts, params);
      }
    }
    assert ops[..|ops|] == ops;
  }

  lemma PushFresh(before: seq<Cond>, field: string, ops: seq<OpTest>, i: nat, params0: Params, parts: seq<Condition>, params: Params)
    requires i < |ops| && Pushed(ops[i].op) && OpsDistinct(ops) && Pushing(before, field, ops[..i], params0, parts, params)
    ensures Base(|params0|) + Suffix(ops[i].op) !in params
  {
    PushedOfAre(ops, i);
    hide Says, Base, Suffix, PushedTruth;
    FreshWithin(params, |params0|, PushedOf(ops[..i]), ops[i].op);
  }

  function PushedOf(ops: seq<OpTest>): seq<OpTest> {
    if ops == [] then []
    else
      var n := |ops| - 1;
      if Pushed(ops[n].op) then PushedOf(ops[..n]) + [ops[n]] else PushedOf(ops[..n])
  }

  lemma PushedOfMore(ops: seq<OpTest>, i: nat)
    requires i < |ops|
    ensures PushedOf(ops[..i + 1]) == if Pushed(ops[i].op) then PushedOf(ops[..i]) + [ops[i]] else PushedOf(ops[..i])
  {
    assert ops[..i + 1][..i] == ops[..i];
  }

  lemma {:induction false} PushedOfAre(ops: seq<OpTest>, i: nat)
    requires i < |ops| && OpsDistinct(ops)
    ensures forall j | 0 <= j < |PushedOf(ops[..i])| :: PushedOf(ops[..i])[j].op != ops[i].op && Pushed(PushedOf(ops[..i])[j].op)
  {
    PushedOfIn(ops[..i]);
    forall j | 0 <= j < |PushedOf(ops[..i])| ensures PushedOf(ops[..i])[j].op != ops[i].op && Pushed(PushedOf(ops[..i])[j].op) {
      var x := PushedOf(ops[..i])[j];
      assert x in PushedOf(ops[..i]);
    }
  }

  lemma {:induction false} PushedOfIn(ops: seq<OpTest>)
    ensures forall x | x in PushedOf(ops) :: x in ops && Pushed(x.op)
  {
    if ops != [] {
      PushedOfIn(ops[..|ops| - 1]);
      assert ops == ops[..|ops| - 1] + [ops[|ops| - 1]];
    }
  }

  lemma PartSays(part: Condition, n: Node, params: Params, p: string, op: Op, operand: CVal, v: CVal)
    requires forall ps: Params | op.Exists? || (p in ps && ps[p] == operand) :: Meaning(part, n, ps) == OpTruth(op, v, operand)
    requires !op.Exists? ==> p in params && params[p] == operand
    ensures Says(part, n, params, OpTruth(op, v, operand))
  {
    hide Meaning, OpTruth;
  }

  lemma AllBelow(before: Params, after: Params, n: nat, ops: seq<OpTest>)
    requires NamedBelow(before, n) && NamedWithin(after, n, ops) && |after| >= n && (|after| == n ==> after == before)
    ensures NamedBelow(after, |after|)
  {
    hide Base, Suffix, Tail;
    forall p | p in after ensures exists k: nat, s :: k < |after| && Tail(s) && p == Base(k) + s {
      if after != before {
        if k: nat, s :| k < n && Tail(s) && p == Base(k) + s {
        } else {
          var i :| 0 <= i < |ops| && p == Base(n) + Suffix(ops[i].op);
          SuffixIsTail(ops[i].op);
        }
      }
    }
  }

  lemma PushEnd(before: seq<Cond>, field: string, ops: seq<OpTest>, params0: Params, parts: seq<Condition>, params: Params)
    requires NamedBelow(params0, |params0|) && Pushing(before, field, ops, params0, parts, params)
    ensures Extends(params0, params) && NamedBelow(params, |params|)
    ensures forall n: Node :: Says(AndC(parts), n, params, PushedTruth(before + [Field(field, Ops(ops))], n))
  {
    AllBelow(params0, params, |params0|, PushedOf(ops));
    hide Says, NamedBelow, NamedWithin;
    var conds := before + [Field(field, Ops(ops))];
    assert conds[..|before|] == before;
    forall n: Node ensures PushedTruth(conds, n) == AndT(PushedTruth(before, n), PushedOpsTruth(Lookup(n.props, field), ops)) { }
  }

  /** One value or a list of values. */
  method PushValue(ghost before: seq<Cond>, field: string, test: Test, parts0: seq<Condition>, params0: Params)
    returns (parts: seq<Condition>, params: Params)
    requires !test.Ops? && NamedBelow(params0, |params0|)
    requires forall n: Node :: Says(AndC(parts0), n, params0, PushedTruth(before, n))
    ensures Extends(params0, params) && NamedBelow(params, |params|)
    ensures forall n: Node :: Says(AndC(parts), n, params, PushedTruth(before + [Field(field, test)], n))
  {
    hide Says, PushedTruth, Base;
    var p := Base(|params0|) + if test.OneOf? then "_in" else "";
    FreshBelow(params0, |params0|, if test.OneOf? then "_in" else "");
    var part := if test.OneOf? then FieldIn(field, p) else FieldEquals(field, p);
    params := params0[p := if test.OneOf? then List(test.values) else test.value];
    parts := parts0 + [part];
    NamedMore(params0, p, params[p], if test.OneOf? then "_in" else "");
    forall n: Node ensures Says(AndC(parts), n, params, PushedTruth(before + [Field(field, test)], n)) {
      ValueSays(n, field, test, p, params);
      PartAdded(parts0, part, n, params0, params, PushedTruth(before, n), TestTruth(Lookup(n.props, field), test));
      PushedLast(before, Field(field, test), n);
    }
  }

  lemma PushedLast(before: seq<Cond>, cond: Cond, n: Node)
    ensures PushedTruth(before + [cond], n) ==
            AndT(PushedTruth(before, n), if cond.Field? then PushedTest(Lookup(n.props, cond.name), cond.test) else True)
  {
    assert (before + [cond])[..|before|] == before;
  }

  lemma NamedMore(ps: Params, p: string, value: CVal, s: string)
    requires NamedBelow(ps, |ps|) && Tail(s) && p == Base(|ps|) + s && p !in ps
    ensures NamedBelow(ps[p := value], |ps[p := value]|)
  {
    hide Base, Tail;
    var more := ps[p := value];
    assert more.Keys == ps.Keys + {p};
    forall q | q in more ensures exists k: nat, t :: k < |more| && Tail(t) && q == Base(k) + t {
      if q != p { var k: nat, t :| k < |ps| && Tail(t) && q == Base(k) + t; }
    }
  }

  lemma ValueSays(n: Node, field: string, test: Test, p: string, params: Params)
    requires !test.Ops? && p in params && params[p] == if test.OneOf? then List(test.values) else test.value
    ensures Says(if test.OneOf? then FieldIn(field, p) else FieldEquals(field, p), n, params, TestTruth(Lookup(n.props, field), test))
  {
    hide Equals, Member;
  }

  /** `_filter_to_cypher`: parameter names never collide, so the clause says what it should. */
  method FilterToCypher(conds: seq<Cond>) returns (where: Condition, params: Params)
    requires DistinctOps(conds)
    ensures forall n: Node :: Meaning(where, n, params) == PushedTruth(conds, n)
  {
    hide Says, PushedTruth, Pushing, Base;
    var parts: seq<Condition> := [];
    params := map[];
    forall n: Node ensures Says(AndC([]), n, map[], PushedTruth([], n)) { NothingPushed(n); }
    for i := 0 to |conds|
      invariant NamedBelow(params, |params|)
      invariant forall n: Node :: Says(AndC(parts), n, params, PushedTruth(conds[..i], n))
    {
      assert conds[..i + 1] == conds[..i] + [conds[i]];
      if conds[i].Field? {
        if conds[i].test.Ops? {
          ghost var was := params;
          parts, params := PushOps(conds[..i], conds[i].name, conds[i].test.ops, parts, params);
          PushEnd(conds[..i], conds[i].name, conds[i].test.ops, was, parts, params);
          assert conds[..i + 1] == conds[..i] + [Field(conds[i].name, Ops(conds[i].test.ops))];
        } else {
          parts, params := PushValue(conds[..i], conds[i].name, conds[i].test, parts, params);
          assert conds[..i + 1] == conds[..i] + [Field(conds[i].name, conds[i].test)];
        }
      } else {
        ghost var next := conds[..i + 1];
        forall n: Node ensures Says(AndC(parts), n, params, PushedTruth(next, n)) {
          PushedLast(conds[..i], conds[i], n);
          AndTAssociative(PushedTruth(conds[..i], n), True, True);
        }
      }
    }
    assert conds[..|conds|] == conds;
    where := AndC(parts);
    forall n: Node ensures Meaning(where, n, params) == PushedTruth(conds, n) { SaysNow(where, n, params, PushedTruth(conds, n)); }
  }

  lemma NothingPushed(n: Node)
    ensures Says(AndC([]), n, map[], PushedTruth([], n))
  {
  }

  lemma SaysNow(c: Condition, n: Node, ps: Params, t: Truth)
    requires Says(c, n, ps, t)
    ensures Meaning(c, n, ps) == t
  {
    hide Meaning;
  }

  // --- The pushed-down WHERE rejects nothing that matches ------------------

  /** A row as the stream hands it on: the node's properties beside its id, main label and key. */
  datatype Sample = Sample(id: nat, node: Node)

  function AttrsOf(s: Sample): Attrs {
    map["node_id" := Num(s.id as real),
        "main_label" := if s.node.labels != [] then s.node.labels[0]
                      else if "main_label" in s.node.props then s.node.props["main_label"] else Str(""),
        "pk" := if "pk" in s.node.props then s.node.props["pk"] else Map(map[])]
    + map k | k in s.node.props && k != "pk" :: s.node.props[k]
  }

  /** What a sample shows: the node's properties, and its id, first label and key where they are not
      properties themselves. */
  lemma SampleShows(s: Sample, name: string)
    ensures name != "node_id" && name != "main_label" && name != "pk" ==>
              (name in AttrsOf(s) <==> name in s.node.props) && Lookup(AttrsOf(s), name) == Lookup(s.node.props, name)
    ensures "node_id" !in s.node.props ==> Lookup(AttrsOf(s), "node_id") == Num(s.id as real)
    ensures "main_label" !in s.node.props ==>
              Lookup(AttrsOf(s), "main_label") == if s.node.labels == [] then Str("") else s.node.labels[0]
    ensures Lookup(AttrsOf(s), "pk") == if "pk" in s.node.props then s.node.props["pk"] else Map(map[])
  {
  }

  /** A field that is a property of the node, and not one of the three added to the sample. */
  predicate RealField(name: string) {
    name != "node_id" && name != "main_label" && name != "pk"
  }

  lemma RealFieldsAreProps(s: Sample, name: string)
    requires RealField(name) || name in s.node.props
    ensures Lookup(AttrsOf(s), name) == Lookup(s.node.props, name)
  {
  }

  /** The part of a test that is pushed down has operands both languages compare alike. */
  predicate PushFits(v: CVal, test: Test) {
    if test.Ops? then forall i | 0 <= i < |test.ops| && Pushed(test.ops[i].op) :: OpFits(test.ops[i].op, v, test.ops[i].operand)
    else TestFits(v, test)
  }

  lemma {:induction false} OpsMatched(v: CVal, ops: seq<OpTest>, i: nat)
    requires MatchOps(v, ops) == Ok(true) && i < |ops|
    ensures !ops[i].op.Other? && (v.Null? ==> ops[i].op == Exists) && OpHolds(ops[i].op, v, ops[i].operand) == Ok(true)
    decreases i
  {
    if i > 0 { OpsMatched(v, ops[1..], i - 1); }
  }

  lemma {:induction false} PushedOpsMatch(v: CVal, ops: seq<OpTest>, k: nat)
    requires MatchOps(v, ops) == Ok(true) && k <= |ops| && PushFits(v, Ops(ops))
    ensures PushedOpsTruth(v, ops[..k]).True?
    decreases k
  {
    if k > 0 {
      PushedOpsMatch(v, ops, k - 1);
      assert ops[..k][..k - 1] == ops[..k - 1];
      OpsMatched(v, ops, k - 1);
      var op, e := ops[k - 1].op, ops[k - 1].operand;
      if Pushed(op) {
        assert OpFits(op, v, e);
        if v.Null? { OpOnAbsent(op, e); } else { OpAgrees(op, v, e); }
      }
    }
  }

  lemma {:induction false} EveryMatches(attrs: Attrs, conds: seq<Cond>, i: nat)
    requires MatchEvery(attrs, conds) == Ok(true) && i < |conds|
    ensures MatchCond(attrs, conds[i]) == Ok(true)
    decreases i
  {
    if i > 0 { EveryMatches(attrs, conds[1..], i - 1); }
  }

  // --- Which conditions lose rows ------------------------------------------

  /** A field holds booleans or numbers, not both: Python calls `True` and `1` equal, Cypher does not. */
  datatype Domain = NoBooleans | NoNumbers

  predicate Within(v: CVal, d: Domain) {
    && (v.Bool? ==> d.NoNumbers?) && (v.Num? ==> d.NoBooleans?)
    && (v.List? ==> forall i | 0 <= i < |v.items| :: Within(v.items[i], d))
  }

  /** Operands that belong to the field; the order of dates, and of lists, is left to the server. */
  predicate TestWithin(test: Test, d: Domain) {
    match test
    case Ops(ops) => forall i | 0 <= i < |ops| :: OpWithin(ops[i].op, ops[i].operand, d)
    case OneOf(values) => Within(List(values), d)
    case Is(value) => Within(value, d)
  }

  predicate OpWithin(op: Op, e: CVal, d: Domain) {
    match op
    case Eq | Ne => Within(e, d)
    case Gt | Gte | Lt | Lte => Within(e, d) && !e.Temporal? && !e.List?
    case In | Nin => e.List? && Within(e, d)
    case _ => true
  }

  predicate NullOrNullFree(v: CVal) {
    v.Null? || NullFree(v)
  }

  /** Unequal is never unknown. */
  predicate Decisive(e: CVal) {
    !e.Null? && (e.List? ==> e.items == [])
  }

  /** The tests whose pushed-down form loses no row, by their operands alone. */
  predicate Keeps(test: Test) {
    match test
    case Ops(ops) => forall i | 0 <= i < |ops| :: KeepsOp(ops[i].op, ops[i].operand)
    case OneOf(values) => forall i | 0 <= i < |values| :: NullFree(values[i])
    case Is(value) => NullFree(value)
  }

  predicate KeepsOp(op: Op, e: CVal) {
    match op
    case Eq => NullOrNullFree(e)
    case Ne => Decisive(e)
    case In => e.List? ==> forall i | 0 <= i < |e.items| :: NullOrNullFree(e.items[i])
    case Nin => e.List? ==> forall i | 0 <= i < |e.items| :: Decisive(e.items[i])
    case _ => true
  }

  lemma {:induction false} WithinUnmixed(a: CVal, b: CVal, d: Domain)
    requires Within(a, d) && Within(b, d)
    ensures PyEq(a, b) <==> a == b
    decreases a
  {
    NeverMixed(a, b, d);
    PyEqIsIdentity(a, b);
  }

  lemma {:induction false} NeverMixed(a: CVal, b: CVal, d: Domain)
    requires Within(a, d) && Within(b, d)
    ensures !Mixed(a, b)
    decreases a
  {
    if a.List? && b.List? && |a.items| == |b.items| {
      forall i | 0 <= i < |a.items| ensures !Mixed(a.items[i], b.items[i]) { NeverMixed(a.items[i], b.items[i], d); }
    }
  }

  lemma {:induction false} MemberTrue(v: CVal, items: seq<CVal>)
    ensures Member(v, items).True? <==> v in items && NullFree(v)
    ensures Member(v, items).False? <==> forall i | 0 <= i < |items| :: Equals(v, items[i]).False?
    decreases |items|
  {
    if items != [] {
      var rest := items[1..];
      MemberTrue(v, rest);
      EqualsIsIdentity(v, items[0]);
      hide Equals, NullFree;
      assert forall i | 0 < i < |items| :: items[i] == rest[i - 1];
      assert forall i | 0 <= i < |rest| :: rest[i] == items[i + 1];
      assert v in items <==> v == items[0] || v in rest;
    }
  }

  lemma PyInIsIn(v: CVal, items: seq<CVal>, d: Domain)
    requires Within(v, d) && Within(List(items), d)
    ensures PyIn(v, items) <==> v in items
  {
    forall i | 0 <= i < |items| ensures PyEq(v, items[i]) <==> v == items[i] {
      assert Within(List(items).items[i], d);
      WithinUnmixed(v, items[i], d);
    }
    hide PyEq, Within;
    if PyIn(v, items) { var i :| 0 <= i < |items| && PyEq(v, items[i]); }
    if v in items { var i :| 0 <= i < |items| && v == items[i]; assert PyEq(v, items[i]); }
  }

  lemma DecisiveDecides(v: CVal, e: CVal)
    requires !v.Null? && Decisive(e)
    ensures Equals(v, e) == Decided(v == e)
  {
  }

  lemma OpKept(op: Op, v: CVal, e: CVal, d: Domain)
    requires Within(v, d) && OpWithin(op, e, d) && KeepsOp(op, e) && Pushed(op)
    requires (v.Null? ==> op.Exists?) && OpHolds(op, v, e) == Ok(true)
    ensures OpTruth(op, v, e).True?
  {
    match op {
      case Eq =>
        WithinUnmixed(v, e, d);
        EqualsIsIdentity(v, e);
      case Ne =>
        WithinUnmixed(v, e, d);
        DecisiveDecides(v, e);
      case In =>
        PyInIsIn(v, e.items, d);
        MemberTrue(v, e.items);
      case Nin =>
        PyInIsIn(v, e.items, d);
        MemberTrue(v, e.items);
        forall i | 0 <= i < |e.items| ensures Equals(v, e.items[i]).False? { DecisiveDecides(v, e.items[i]); }
      case Gt | Gte | Lt | Lte =>
        assert SameKind(v, e);
        ComparisonMeans(ComparisonOf(op), v, e);
      case _ =>
    }
  }

  lemma {:induction false} OpsKept(v: CVal, ops: seq<OpTest>, k: nat, d: Domain)
    requires Within(v, d) && TestWithin(Ops(ops), d) && Keeps(Ops(ops)) && MatchOps(v, ops) == Ok(true) && k <= |ops|
    ensures PushedOpsTruth(v, ops[..k]).True?
    decreases k
  {
    if k > 0 {
      OpsKept(v, ops, k - 1, d);
      assert ops[..k][..k - 1] == ops[..k - 1];
      OpsMatched(v, ops, k - 1);
      if Pushed(ops[k - 1].op) { OpKept(ops[k - 1].op, v, ops[k - 1].operand, d); }
    }
  }

  lemma TestKept(v: CVal, test: Test, d: Domain)
    requires Within(v, d) && TestWithin(test, d) && Keeps(test) && MatchTest(v, test) == Ok(true)
    ensures PushedTest(v, test).True?
  {
    match test {
      case Ops(ops) =>
        OpsKept(v, ops, |ops|, d);
        assert ops[..|ops|] == ops;
      case OneOf(values) =>
        PyInIsIn(v, values, d);
        MemberTrue(v, values);
      case Is(value) =>
        WithinUnmixed(v, value, d);
        EqualsIsIdentity(v, value);
    }
  }

  // --- A row that is lost, when there is one -------------------------------

  function Copies(v: CVal, k: nat): CVal {
    List(seq(k, i => v))
  }

  /** The length of the text a value leads with. */
  function Leading(v: CVal): nat {
    if v.Str? then |v.s| else if v.List? && v.items != [] then Leading(v.items[0]) else 0
  }

  function LongerThan(items: seq<CVal>): nat {
    if items == [] then 1 else Leading(items[0]) + LongerThan(items[1..])
  }

  lemma {:induction false} LongerThanEach(items: seq<CVal>, i: nat)
    requires i < |items|
    ensures LongerThan(items) > Leading(items[i])
  {
    if i > 0 { LongerThanEach(items[1..], i - 1); }
    LongerThanNothing(items[1..]);
  }

  lemma {:induction false} LongerThanNothing(items: seq<CVal>)
    ensures LongerThan(items) > 0
  {
    if items != [] { LongerThanNothing(items[1..]); }
  }

  lemma {:induction false} ComparedUnknown(xs: seq<CVal>, ys: seq<CVal>)
    requires |xs| == |ys| > 0 && forall i | 0 <= i < |xs| :: xs[i].Null? || ys[i].Null?
    ensures EqualsAll(xs, ys).Unknown?
    decreases |xs|
  {
    if |xs| > 1 { ComparedUnknown(xs[1..], ys[1..]); }
  }

  lemma NullsCompareUnknown(v: CVal, e: CVal)
    requires v.List? && |v.items| > 0 && v == Copies(Null, |v.items|) && e.List? && |e.items| == |v.items|
    ensures Equals(v, e).Unknown? && Equals(e, v).Unknown?
  {
    ComparedUnknown(v.items, e.items);
    ComparedUnknown(e.items, v.items);
  }

  /** What is unknown to be one of the items, but surely is none of them to Python. */
  function NinWitness(items: seq<CVal>, b: CVal): CVal {
    var text := Str(seq(LongerThan(items), i => 'a'));
    if !b.List? then text
    else if Copies(Null, |b.items|) !in items then Copies(Null, |b.items|)
    else Copies(text, |b.items|)
  }

  lemma NinLoses(items: seq<CVal>, b: CVal, d: Domain)
    requires Within(List(items), d) && b in items && !Decisive(b)
    ensures var v := NinWitness(items, b);
            !v.Null? && Within(v, d) && !PyIn(v, items) && !NotT(Member(v, items)).True?
  {
    var v := NinWitness(items, b);
    var text := Str(seq(LongerThan(items), i => 'a'));
    forall x | Leading(x) >= LongerThan(items) ensures x !in items {
      if x in items {
        var i: nat :| i < |items| && items[i] == x;
        LongerThanEach(items, i);
      }
    }
    assert Leading(text) == LongerThan(items);
    assert b.List? ==> Leading(Copies(text, |b.items|)) == Leading(text);
    assert v !in items;
    PyInIsIn(v, items, d);
    var u := if b.List? && Copies(Null, |b.items|) in items then Copies(Null, |b.items|) else b;
    assert Equals(v, u).Unknown? by {
      if b.List? {
        if v == Copies(Null, |b.items|) { NullsCompareUnknown(v, b); } else { NullsCompareUnknown(u, v); }
      }
    }
    var i :| 0 <= i < |items| && items[i] == u;
    MemberTrue(v, items);
    hide Member;
  }

  function NeWitness(e: CVal): CVal {
    if !e.List? then Str("")
    else if e != Copies(Null, |e.items|) then Copies(Null, |e.items|)
    else Copies(Str(""), |e.items|)
  }

  lemma NeLoses(e: CVal, d: Domain)
    requires Within(e, d) && !Decisive(e)
    ensures var v := NeWitness(e); !v.Null? && Within(v, d) && !PyEq(v, e) && !NotT(Equals(v, e)).True?
  {
    var v := NeWitness(e);
    WithinUnmixed(v, e, d);
    if e.List? {
      assert Copies(Str(""), |e.items|).items[0] == Str("") && Copies(Null, |e.items|).items[0] == Null;
      if v == Copies(Null, |e.items|) { NullsCompareUnknown(v, e); } else { NullsCompareUnknown(e, v); }
    }
  }

  /** A field's value that passes the test in memory and not on the server. */
  ghost predicate Loses(v: CVal, test: Test, d: Domain) {
    Within(v, d) && MatchTest(v, test) == Ok(true) && !PushedTest(v, test).True?
  }

  lemma OpLoses(op: Op, e: CVal, d: Domain) returns (v: CVal)
    requires OpWithin(op, e, d) && !KeepsOp(op, e)
    ensures !v.Null? && Within(v, d) && Pushed(op) && !op.Other? && OpHolds(op, v, e) == Ok(true) && !OpTruth(op, v, e).True?
  {
    if op.Eq? {
      v := e;
      WithinUnmixed(e, e, d);
      EqualsIsIdentity(e, e);
    } else if op.Ne? {
      v := NeWitness(e);
      NeLoses(e, d);
    } else if op.In? {
      var i :| 0 <= i < |e.items| && !NullOrNullFree(e.items[i]);
      v := e.items[i];
      PyInIsIn(v, e.items, d);
      MemberTrue(v, e.items);
    } else {
      var i :| 0 <= i < |e.items| && !Decisive(e.items[i]);
      v := NinWitness(e.items, e.items[i]);
      NinLoses(e.items, e.items[i], d);
    }
  }

  lemma TestLoses(test: Test, d: Domain) returns (v: CVal)
    requires TestWithin(test, d) && !Keeps(test) && (test.Ops? ==> |test.ops| == 1)
    ensures Loses(v, test, d)
  {
    match test {
      case Ops(ops) =>
        var op, e := ops[0].op, ops[0].operand;
        v := OpLoses(op, e, d);
        assert ops[1..] == [] && ops[..0] == [];
        assert MatchOps(v, ops[1..]) == Ok(true);
        assert PushedOpsTruth(v, ops) == AndT(True, OpTruth(op, v, e));
      case OneOf(values) =>
        var i :| 0 <= i < |values| && !NullFree(values[i]);
        v := values[i];
        assert Within(List(values).items[i], d);
        PyInIsIn(v, values, d);
        MemberTrue(v, values);
      case Is(value) =>
        v := value;
        WithinUnmixed(v, v, d);
        EqualsIsIdentity(v, v);
    }
  }

  lemma OneCond(attrs: Attrs, cond: Cond, n: Node)
    requires cond.Field?
    ensures MatchEvery(attrs, [cond]) == Ok(true) <==> MatchTest(Lookup(attrs, cond.name), cond.test) == Ok(true)
    ensures PushedTruth([cond], n).True? <==> PushedTest(Lookup(n.props, cond.name), cond.test).True?
  {
    assert [cond][1..] == [] && [cond][..0] == [];
    assert MatchEvery(attrs, []) == Ok(true) && PushedTruth([], n) == True;
  }

  ghost predicate LosesNoRow(cond: Cond, d: Domain)
    requires cond.Field?
  {
    forall s: Sample | Within(Lookup(s.node.props, cond.name), d) && MatchEvery(AttrsOf(s), [cond]) == Ok(true) ::
      PushedTruth([cond], s.node).True?
  }

  /** A condition on a property loses no row that `_match` accepts if and only if its operands have no
      nulls where they matter: for each operator, and for the short forms. */
  lemma KeepsIff(name: string, test: Test, d: Domain)
    requires RealField(name) && TestWithin(test, d) && (test.Ops? ==> |test.ops| == 1)
    ensures LosesNoRow(Field(name, test), d) <==> Keeps(test)
  {
    var cond := Field(name, test);
    if Keeps(test) {
      forall s: Sample | Within(Lookup(s.node.props, name), d) && MatchEvery(AttrsOf(s), [cond]) == Ok(true)
        ensures PushedTruth([cond], s.node).True?
      {
        RealFieldsAreProps(s, name);
        OneCond(AttrsOf(s), cond, s.node);
        TestKept(Lookup(s.node.props, name), test, d);
      }
    } else {
      var v := TestLoses(test, d);
      var s := Sample(0, Node([], if v.Null? then map[] else map[name := v]));
      RealFieldsAreProps(s, name);
      OneCond(AttrsOf(s), cond, s.node);
    }
  }

  /** Nothing is pushed down, or nothing that an absent field does not meet. */
  predicate Idle(op: Op, e: CVal) {
    !Pushed(op) || (op.Nin? && e == List([]))
  }

  predicate StaysHere(test: Test) {
    test.Ops? && forall i | 0 <= i < |test.ops| :: Idle(test.ops[i].op, test.ops[i].operand)
  }

  lemma {:induction false} AbsentPushed(ops: seq<OpTest>, v: CVal)
    requires !v.Null? && forall i | 0 <= i < |ops| :: OpHolds(ops[i].op, v, ops[i].operand) == Ok(true)
    ensures PushedOpsTruth(Null, ops).True? <==> StaysHere(Ops(ops))
    decreases |ops|
  {
    if ops != [] {
      var k := |ops| - 1;
      AbsentPushed(ops[..k], v);
      assert StaysHere(Ops(ops)) <==> StaysHere(Ops(ops[..k])) && Idle(ops[k].op, ops[k].operand);
      assert OpHolds(ops[k].op, v, ops[k].operand) == Ok(true);
      if Pushed(ops[k].op) { TrueOfNull(ops[k].op, v, ops[k].operand); }
    }
  }

  lemma TrueOfNull(op: Op, v: CVal, e: CVal)
    requires !v.Null? && OpHolds(op, v, e) == Ok(true) && Pushed(op)
    ensures OpTruth(op, Null, e).True? <==> Idle(op, e)
  {
    if (op.In? || op.Nin?) && e.List? {
      MemberTrue(Null, e.items);
      if e.items != [] { assert !Equals(Null, e.items[0]).False?; }
    }
  }

  /** The id, the main label and the key are shown with every row, but a node need not have such a
      property. A row accepted for what is shown is kept if and only if the pushed-down part of the test
      asks nothing of it. */
  lemma ShownFieldIsKeptIff(s: Sample, name: string, test: Test)
    requires !RealField(name) && name !in s.node.props && !Lookup(AttrsOf(s), name).Null?
    requires MatchEvery(AttrsOf(s), [Field(name, test)]) == Ok(true)
    ensures PushedTruth([Field(name, test)], s.node).True? <==> StaysHere(test)
  {
    var v := Lookup(AttrsOf(s), name);
    OneCond(AttrsOf(s), Field(name, test), s.node);
    if test.Ops? {
      forall i | 0 <= i < |test.ops| ensures OpHolds(test.ops[i].op, v, test.ops[i].operand) == Ok(true) {
        OpsMatched(v, test.ops, i);
      }
      AbsentPushed(test.ops, v);
    } else if test.OneOf? {
      MemberTrue(Null, test.values);
    }
  }

  /** A null operand loses every node without the field. */
  lemma NullOperandIsLost(s: Sample, name: string)
    requires RealField(name) && Lookup(s.node.props, name).Null?
    ensures var conds := [Field(name, Is(Null))];
            MatchEvery(AttrsOf(s), conds) == Ok(true) && !PushedTruth(conds, s.node).True?
  {
    RealFieldsAreProps(s, name);
    OneCond(AttrsOf(s), Field(name, Is(Null)), s.node);
  }

  /** Asking for the main label loses every node that has it. */
  lemma MainLabelIsLost(s: Sample, main: string)
    requires "main_label" !in s.node.props && s.node.labels != [] && s.node.labels[0] == Str(main)
    ensures var conds := [Field("main_label", Is(Str(main)))];
            MatchEvery(AttrsOf(s), conds) == Ok(true) && !PushedTruth(conds, s.node).True?
  {
    OneCond(AttrsOf(s), Field("main_label", Is(Str(main))), s.node);
    assert Lookup(AttrsOf(s), "main_label") == Str(main);
  }

  // --- Whole filters -------------------------------------------------------

  predicate KeptIn(v: CVal, test: Test, d: Domain) {
    Within(v, d) && TestWithin(test, d) && Keeps(test)
  }

  /** The pushed-down part of a condition does not lose this row: its operands lose no row, or they
      fit the field's value. */
  predicate PushableCond(s: Sample, name: string, test: Test) {
    var v := Lookup(s.node.props, name);
    if RealField(name) || name in s.node.props then PushFits(v, test) || KeptIn(v, test, NoBooleans) || KeptIn(v, test, NoNumbers)
    else !Lookup(AttrsOf(s), name).Null? && StaysHere(test)
  }

  predicate Pushable(s: Sample, conds: seq<Cond>) {
    forall i | 0 <= i < |conds| && conds[i].Field? :: PushableCond(s, conds[i].name, conds[i].test)
  }

  lemma CondKept(s: Sample, name: string, test: Test)
    requires PushableCond(s, name, test) && MatchTest(Lookup(AttrsOf(s), name), test) == Ok(true)
    ensures PushedTest(Lookup(s.node.props, name), test).True?
  {
    var v := Lookup(s.node.props, name);
    if RealField(name) || name in s.node.props {
      RealFieldsAreProps(s, name);
      if KeptIn(v, test, NoBooleans) {
        TestKept(v, test, NoBooleans);
      } else if KeptIn(v, test, NoNumbers) {
        TestKept(v, test, NoNumbers);
      } else if test.Ops? {
        PushedOpsMatch(v, test.ops, |test.ops|);
        assert test.ops[..|test.ops|] == test.ops;
      } else {
        TestAgrees(v, test);
      }
    } else {
      OneCond(AttrsOf(s), Field(name, test), s.node);
      ShownFieldIsKeptIff(s, name, test);
    }
  }

  /** A row that `_match` accepts passes the WHERE clause. */
  lemma {:induction false} WhereKeepsMatches(s: Sample, conds: seq<Cond>, k: nat)
    requires Pushable(s, conds) && k <= |conds| && MatchEvery(AttrsOf(s), conds) == Ok(true)
    ensures PushedTruth(conds[..k], s.node).True?
    decreases k
  {
    if k > 0 {
      WhereKeepsMatches(s, conds, k - 1);
      assert conds[..k] == conds[..k - 1] + [conds[k - 1]];
      PushedLast(conds[..k - 1], conds[k - 1], s.node);
      EveryMatches(AttrsOf(s), conds, k - 1);
      if conds[k - 1].Field? {
        hide MatchEvery, PushedTruth, AttrsOf, PushableCond;
        CondKept(s, conds[k - 1].name, conds[k - 1].test);
      }
    }
  }

  // --- Slices and pages ----------------------------------------------------

  /** `math.ceil(total / workers)`. */
  function PerWorker(total: nat, workers: nat): nat
    requires workers > 0
  {
    (total + workers - 1) / workers
  }

  datatype Worker = Worker(id: nat, count: nat)

  /** `_worker_slice`. */
  function SliceStart(total: nat, w: Worker): nat
    requires w.id < w.count
  {
    w.id * PerWorker(total, w.count)
  }

  function SliceEnd(total: nat, w: Worker): nat
    requires w.id < w.count
  {
    var end := SliceStart(total, w) + PerWorker(total, w.count);
    if end < total then end else total
  }

  lemma SlicesReachTheEnd(total: nat, workers: nat)
    requires workers > 0
    ensures workers * PerWorker(total, workers) >= total
  {
  }

  /** Every position belongs to exactly one worker. */
  lemma SlicesPartition(total: nat, workers: nat, k: nat)
    requires workers > 0 && k < total
    ensures exists id :: 0 <= id < workers && SliceStart(total, Worker(id, workers)) <= k < SliceEnd(total, Worker(id, workers))
    ensures forall i, j | 0 <= i < j < workers ::
      !(SliceStart(total, Worker(i, workers)) <= k < SliceEnd(total, Worker(i, workers))
        && SliceStart(total, Worker(j, workers)) <= k < SliceEnd(total, Worker(j, workers)))
  {
    var per := PerWorker(total, workers);
    SlicesReachTheEnd(total, workers);
    assert per > 0;
    var id := k / per;
    DivisionBounds(k, per, workers);
    assert SliceStart(total, Worker(id, workers)) == id * per;
    forall i, j | 0 <= i < j < workers
      ensures !(SliceStart(total, Worker(i, workers)) <= k < SliceEnd(total, Worker(i, workers))
                && SliceStart(total, Worker(j, workers)) <= k < SliceEnd(total, Worker(j, workers)))
    {
      StepUp(i, j, per);
    }
  }

  /** The slices are as even as whole chunks allow: each starts where the one before ends, and none could
      be a row shorter and still leave nothing over. */
  lemma SlicesAreEven(total: nat, w: Worker)
    requires w.id < w.count
    ensures w.id == 0 ==> SliceStart(total, w) == 0
    ensures w.id + 1 < w.count && SliceStart(total, w) < total ==> SliceStart(total, Worker(w.id + 1, w.count)) >= SliceEnd(total, w)
    ensures w.id + 1 < w.count && SliceStart(total, Worker(w.id + 1, w.count)) < total ==>
              SliceEnd(total, w) == SliceStart(total, Worker(w.id + 1, w.count))
    ensures var size := SliceEnd(total, w) - SliceStart(total, w); size > 0 ==> (size - 1) * w.count < total
  {
    var per := PerWorker(total, w.count);
    assert (w.id + 1) * per == w.id * per + per;
    if total > 0 { LeastChunk(total, w.count); }
    var size := SliceEnd(total, w) - SliceStart(total, w);
    if size > 0 { Scaled(size - 1, per - 1, w.count); }
  }

  lemma LeastChunk(total: nat, workers: nat)
    requires workers > 0 && total > 0
    ensures PerWorker(total, workers) > 0 && (PerWorker(total, workers) - 1) * workers < total
  {
    var n, per := total + workers - 1, PerWorker(total, workers);
    assert per * workers <= n;
  }

  lemma Scaled(a: int, b: int, n: nat)
    requires a <= b
    ensures a * n <= b * n
  {
  }

  lemma DivisionBounds(k: nat, per: nat, workers: nat)
    requires per > 0 && k < workers * per
    ensures k / per * per <= k < k / per * per + per && k / per < workers
  {
    if k / per >= workers { StepUp(workers, k / per + 1, per); }
  }

  lemma StepUp(i: nat, j: nat, per: nat)
    requires i < j
    ensures i * per + per <= j * per
  {
    assert (i + 1) * per <= j * per;
  }

  /** The elements that pass, in order. */
  function Select<T>(pass: T -> bool, s: seq<T>): seq<T> {
    if s == [] then []
    else
      var n := |s| - 1;
      Select(pass, s[..n]) + if pass(s[n]) then [s[n]] else []
  }

  lemma {:induction false} SelectConcat<T>(pass: T -> bool, a: seq<T>, b: seq<T>)
    ensures Select(pass, a + b) == Select(pass, a) + Select(pass, b)
    decreases |b|
  {
    if b == [] {
      assert a + b == a;
    } else {
      var n := |b| - 1;
      assert (a + b)[..|a| + n] == a + b[..n];
      assert (a + b)[|a| + n] == b[n];
      SelectConcat(pass, a, b[..n]);
    }
  }

  /** What the elements have to pass twice, when the first test passes whatever the second does. */
  lemma {:induction false} SelectTwice<T>(first: T -> bool, second: T -> bool, both: T -> bool, s: seq<T>)
    requires forall x | x in s :: both(x) <==> first(x) && second(x)
    ensures Select(second, Select(first, s)) == Select(both, s)
    decreases |s|
  {
    if s != [] {
      var n := |s| - 1;
      assert s[n] in s;
      SelectTwice(first, second, both, s[..n]);
      SelectConcat(second, Select(first, s[..n]), if first(s[n]) then [s[n]] else []);
      assert first(s[n]) ==> [s[n]][..0] == [] && Select(second, [s[n]]) == Select(second, []) + if second(s[n]) then [s[n]] else [];
    }
  }

  /** What a generator yields, and the error that ends it. */
  datatype Stream<T> = Stream(out: seq<T>, error: Option<MatchError>)

  /** The elements a test accepts, in order, up to the first one it raises on. */
  function Filtered<T>(test: T -> Result<bool, MatchError>, s: seq<T>): Stream<T> {
    if s == [] then Stream([], None)
    else
      var before := Filtered(test, s[..|s| - 1]);
      if before.error.Some? then before
      else
        match test(s[|s| - 1])
        case Err(e) => before.(error := Some(e))
        case Ok(ok) => if ok then before.(out := before.out + [s[|s| - 1]]) else before
  }

  /** One stream after another: an error ends it. */
  function Then<T>(a: Stream<T>, b: Stream<T>): Stream<T> {
    if a.error.Some? then a else Stream(a.out + b.out, b.error)
  }

  lemma {:induction false} FilteredConcat<T>(test: T -> Result<bool, MatchError>, a: seq<T>, b: seq<T>)
    ensures Filtered(test, a + b) == Then(Filtered(test, a), Filtered(test, b))
    decreases |b|
  {
    if b == [] {
      assert a + b == a;
    } else {
      var n := |b| - 1;
      assert (a + b)[..|a| + n] == a + b[..n];
      assert (a + b)[|a| + n] == b[n];
      FilteredConcat(test, a, b[..n]);
    }
  }

  /** Without an error, what is accepted is selected; there is one exactly if some test raises. */
  lemma {:induction false} FilteredSelects<T>(test: T -> Result<bool, MatchError>, pass: T -> bool, s: seq<T>)
    requires forall x :: pass(x) <==> test(x) == Ok(true)
    ensures Filtered(test, s).error.None? <==> forall x | x in s :: test(x).Ok?
    ensures Filtered(test, s).error.None? ==> Filtered(test, s).out == Select(pass, s)
    decreases |s|
  {
    if s != [] {
      FilteredSelects(test, pass, s[..|s| - 1]);
      assert s == s[..|s| - 1] + [s[|s| - 1]];
    }
  }

  /** The rows a worker is given. */
  function SliceOf<T>(rows: seq<T>, w: Worker): seq<T>
    requires w.id < w.count
  {
    var start, end := SliceStart(|rows|, w), SliceEnd(|rows|, w);
    if start < end then rows[start..end] else []
  }

  /** What the first `k` of the workers yield together. */
  function Yielded<T>(pass: T -> bool, rows: seq<T>, workers: nat, k: nat): seq<T>
    requires k <= workers
  {
    if k == 0 then [] else Yielded(pass, rows, workers, k - 1) + Select(pass, SliceOf(rows, Worker(k - 1, workers)))
  }

  function Least(a: nat, b: nat): nat {
    if a < b then a else b
  }

  lemma {:induction false} YieldedSoFar<T>(pass: T -> bool, rows: seq<T>, workers: nat, k: nat)
    requires k <= workers && workers > 0
    ensures Yielded(pass, rows, workers, k) == Select(pass, rows[..Least(k * PerWorker(|rows|, workers), |rows|)])
  {
    hide PerWorker, SliceOf, Select, Least;
    var per := PerWorker(|rows|, workers);
    if k > 0 {
      YieldedSoFar(pass, rows, workers, k - 1);
      NextSlice(rows, workers, k - 1);
      SelectConcat(pass, rows[..Least((k - 1) * per, |rows|)], SliceOf(rows, Worker(k - 1, workers)));
    } else {
      NoRows(pass, rows, per);
    }
  }

  lemma NoRows<T>(pass: T -> bool, rows: seq<T>, per: nat)
    ensures Least(0 * per, |rows|) == 0 && Select(pass, rows[..0]) == []
  {
  }

  lemma NextSlice<T>(rows: seq<T>, workers: nat, k: nat)
    requires k < workers
    ensures var per := PerWorker(|rows|, workers);
            && Least(k * per, |rows|) <= |rows| && Least((k + 1) * per, |rows|) <= |rows|
            && rows[..Least((k + 1) * per, |rows|)] == rows[..Least(k * per, |rows|)] + SliceOf(rows, Worker(k, workers))
  {
    hide PerWorker;
    var per := PerWorker(|rows|, workers);
    assert (k + 1) * per == k * per + per;
  }

  /** The workers together yield every accepted row once, in order. */
  lemma WorkersYieldAll<T>(pass: T -> bool, rows: seq<T>, workers: nat)
    requires workers > 0
    ensures Yielded(pass, rows, workers, workers) == Select(pass, rows)
  {
    YieldedSoFar(pass, rows, workers, workers);
    SlicesReachTheEnd(|rows|, workers);
    assert rows[..|rows|] == rows;
  }

  // --- The two streams -----------------------------------------------------

  function Testing(conds: seq<Cond>): Sample -> Result<bool, MatchError> {
    (s: Sample) => MatchEvery(AttrsOf(s), conds)
  }

  function Accepts(conds: seq<Cond>): Sample -> bool {
    (s: Sample) => MatchEvery(AttrsOf(s), conds) == Ok(true)
  }

  /** `MATCH (n:A|B) WHERE ...`; no labels are no restriction. */
  predicate Fetches(labels: set<string>, where: Condition, params: Params, s: Sample) {
    (labels == {} || exists l | l in labels :: Str(l) in s.node.labels) && Meaning(where, s.node, params).True?
  }

  function Fetching(labels: set<string>, where: Condition, params: Params): Sample -> bool {
    (s: Sample) => Fetches(labels, where, params, s)
  }

  /** One query: the fetched rows in id order, from `skip` on, at most `limit`. */
  function Page(rows: seq<Sample>, labels: set<string>, where: Condition, params: Params, skip: nat, limit: nat): seq<Sample> {
    var fetched := Select(Fetching(labels, where, params), rows);
    var rest := if skip <= |fetched| then fetched[skip..] else [];
    if limit <= |rest| then rest[..limit] else rest
  }

  /** `_iter_neo4j` over a store that does not change: `rows` are its nodes by id. */
  method IterNeo4j(rows: seq<Sample>, labels: set<string>, conds: seq<Cond>, chunkSize: nat, worker: Option<Worker>)
    returns (out: Stream<Sample>, ghost where: Condition, ghost params: Params)
    requires DistinctOps(conds) && chunkSize > 0 && (worker.Some? ==> worker.value.id < worker.value.count)
    ensures forall n: Node :: Meaning(where, n, params) == PushedTruth(conds, n)
    ensures var fetched := Select(Fetching(labels, where, params), rows);
            out == Filtered(Testing(conds), if worker.None? then fetched else SliceOf(fetched, worker.value))
  {
    hide Meaning, MatchEvery, Fetching, PushedTruth, Testing, Select, SliceOf, Filtered;
    var clause, bound := FilterToCypher(conds);
    where, params := clause, bound;
    out := Stream([], None);
    ghost var fetched := Select(Fetching(labels, clause, bound), rows);
    var total := |Select(Fetching(labels, clause, bound), rows)|;
    var skip, end := 0, total;
    if worker.Some? { skip, end := SliceStart(total, worker.value), SliceEnd(total, worker.value); }
    assert end <= total;
    NothingYet(fetched, skip, conds);
    var offset := skip;
    while offset < end
      invariant skip <= offset && (skip <= end ==> offset <= end)
      invariant out == Filtered(Testing(conds), Part(fetched, skip, offset)) && out.error.None?
      decreases end - offset
    {
      var chunk := Least(chunkSize, end - offset);
      var page := Page(rows, labels, clause, bound, offset, chunk);
      PageIsPart(rows, labels, clause, bound, skip, offset, chunk);
      if page == [] { break; }
      var checked := Check(page, Testing(conds));
      FilteredConcat(Testing(conds), Part(fetched, skip, offset), page);
      out := Then(out, checked);
      offset := offset + chunk;
      if out.error.Some? {
        ghost var more := Part(fetched, offset, end);
        assert Part(fetched, skip, offset) + more == Part(fetched, skip, end);
        FilteredConcat(Testing(conds), Part(fetched, skip, offset), more);
        AllParts(fetched, worker);
        return;
      }
    }
    AllParts(fetched, worker);
  }

  function Part(s: seq<Sample>, from: nat, to: nat): seq<Sample> {
    if from <= to <= |s| then s[from..to] else []
  }

  lemma NothingYet(s: seq<Sample>, from: nat, conds: seq<Cond>)
    ensures Filtered(Testing(conds), Part(s, from, from)) == Stream([], None)
  {
  }

  lemma PageIsPart(rows: seq<Sample>, labels: set<string>, where: Condition, params: Params, skip: nat, offset: nat, chunk: nat)
    requires skip <= offset && offset + chunk <= |Select(Fetching(labels, where, params), rows)| && chunk > 0
    ensures var fetched := Select(Fetching(labels, where, params), rows);
            && Page(rows, labels, where, params, offset, chunk) != []
            && Part(fetched, skip, offset) + Page(rows, labels, where, params, offset, chunk) == Part(fetched, skip, offset + chunk)
  {
  }

  lemma AllParts(fetched: seq<Sample>, worker: Option<Worker>)
    requires worker.Some? ==> worker.value.id < worker.value.count
    ensures worker.None? ==> Part(fetched, 0, |fetched|) == fetched
    ensures worker.Some? ==>
              var start, end := SliceStart(|fetched|, worker.value), SliceEnd(|fetched|, worker.value);
              Part(fetched, start, if start <= end then end else start) == SliceOf(fetched, worker.value)
  {
  }

  /** The check in memory, row by row. */
  method Check<T>(page: seq<T>, test: T -> Result<bool, MatchError>) returns (checked: Stream<T>)
    ensures checked == Filtered(test, page)
  {
    checked := Stream([], None);
    for i := 0 to |page|
      invariant checked == Filtered(test, page[..i]) && checked.error.None?
    {
      assert page[..i + 1][..i] == page[..i];
      var ok := test(page[i]);
      if ok.Err? {
        assert page == page[..i + 1] + page[i + 1..];
        FilteredConcat(test, page[..i + 1], page[i + 1..]);
        return Stream(checked.out, Some(ok.error));
      }
      if ok.value { checked := Stream(checked.out + [page[i]], None); }
    }
    assert page[..|page|] == page;
  }

  function Wanting(labels: set<string>, conds: seq<Cond>): Sample -> bool {
    (s: Sample) => (labels == {} || exists l | l in labels :: Str(l) in s.node.labels) && Accepts(conds)(s)
  }

  /** Streaming is exact: for any number of workers, all of them end without an error exactly if
      `_match` raises on no row that is fetched, and then their outputs together are the rows with a
      wanted label that the whole filter accepts, each once and in order, though only a part of the
      filter was pushed down. */
  lemma StreamIsExact(rows: seq<Sample>, labels: set<string>, conds: seq<Cond>, where: Condition, params: Params, workers: nat)
    requires workers > 0 && forall n: Node :: Meaning(where, n, params) == PushedTruth(conds, n)
    requires forall s | s in rows :: Pushable(s, conds)
    ensures var fetched := Select(Fetching(labels, where, params), rows);
            && (AllEnd(Testing(conds), fetched, workers, workers) <==> forall s | s in fetched :: MatchEvery(AttrsOf(s), conds).Ok?)
            && (AllEnd(Testing(conds), fetched, workers, workers) ==>
                  Together(Testing(conds), fetched, workers, workers) == Select(Wanting(labels, conds), rows))
  {
    var fetches := Fetching(labels, where, params);
    var fetched, wanted := Select(fetches, rows), Wanting(labels, conds);
    WorkersYieldAll(Accepts(conds), fetched, workers);
    WorkersEnd(Testing(conds), Accepts(conds), fetched, workers);
    forall s | s in rows ensures wanted(s) <==> fetches(s) && Accepts(conds)(s) {
      if Accepts(conds)(s) {
        WhereKeepsMatches(s, conds, |conds|);
        assert conds[..|conds|] == conds;
      }
    }
    hide Pushable, MatchEvery, PushedTruth, Meaning, Select, Yielded, Together, AllEnd;
    SelectTwice(fetches, Accepts(conds), wanted, rows);
  }

  /** What the first `k` of the workers yield together, and whether they all come to an end. */
  function Together<T>(test: T -> Result<bool, MatchError>, rows: seq<T>, workers: nat, k: nat): seq<T>
    requires k <= workers
  {
    if k == 0 then [] else Together(test, rows, workers, k - 1) + Filtered(test, SliceOf(rows, Worker(k - 1, workers))).out
  }

  ghost predicate AllEnd<T(!new)>(test: T -> Result<bool, MatchError>, rows: seq<T>, workers: nat, k: nat)
    requires k <= workers
  {
    forall i: nat | i < k :: Filtered(test, SliceOf(rows, Worker(i, workers))).error.None?
  }

  lemma {:induction false} TogetherYielded<T(!new)>(test: T -> Result<bool, MatchError>, pass: T -> bool, rows: seq<T>, workers: nat, k: nat)
    requires k <= workers && AllEnd(test, rows, workers, k) && forall x :: pass(x) <==> test(x) == Ok(true)
    ensures Together(test, rows, workers, k) == Yielded(pass, rows, workers, k)
  {
    if k > 0 {
      TogetherYielded(test, pass, rows, workers, k - 1);
      FilteredSelects(test, pass, SliceOf(rows, Worker(k - 1, workers)));
    }
  }

  lemma WorkersEnd<T(!new)>(test: T -> Result<bool, MatchError>, pass: T -> bool, rows: seq<T>, workers: nat)
    requires workers > 0 && forall x :: pass(x) <==> test(x) == Ok(true)
    ensures AllEnd(test, rows, workers, workers) <==> forall x | x in rows :: test(x).Ok?
    ensures AllEnd(test, rows, workers, workers) ==> Together(test, rows, workers, workers) == Yielded(pass, rows, workers, workers)
  {
    hide Filtered, SliceStart, SliceEnd;
    if AllEnd(test, rows, workers, workers) {
      TogetherYielded(test, pass, rows, workers, workers);
      forall x | x in rows ensures test(x).Ok? {
        var k: nat :| k < |rows| && rows[k] == x;
        SlicesPartition(|rows|, workers, k);
        var id: nat :| id < workers && SliceStart(|rows|, Worker(id, workers)) <= k < SliceEnd(|rows|, Worker(id, workers));
        InSlice(rows, Worker(id, workers), k);
        FilteredSelects(test, pass, SliceOf(rows, Worker(id, workers)));
      }
    }
    if forall x | x in rows :: test(x).Ok? {
      forall i: nat | i < workers ensures Filtered(test, SliceOf(rows, Worker(i, workers))).error.None? {
        FilteredSelects(test, pass, SliceOf(rows, Worker(i, workers)));
        OnlyRows(rows, Worker(i, workers));
      }
    }
  }

  lemma OnlyRows<T>(rows: seq<T>, w: Worker)
    requires w.id < w.count
    ensures forall x | x in SliceOf(rows, w) :: x in rows
  {
  }

  lemma InSlice<T>(rows: seq<T>, w: Worker, k: nat)
    requires w.id < w.count && k < |rows| && SliceStart(|rows|, w) <= k < SliceEnd(|rows|, w)
    ensures rows[k] in SliceOf(rows, w)
  {
    assert rows[k] == SliceOf(rows, w)[k - SliceStart(|rows|, w)];
  }

  type Item = (nat, Attrs)

  /** The tests of `_iter_networkx`: an empty set of labels accepts nothing. */
  function TestingItem(labels: Option<set<string>>, conds: seq<Cond>): Item -> Result<bool, MatchError> {
    (i: Item) =>
      if labels.None? || (Lookup(i.1, "main_label").Str? && Lookup(i.1, "main_label").s in labels.value) then MatchEvery(i.1, conds)
      else Ok(false)
  }

  /** `_iter_networkx`: `itertools.islice` of the stored nodes, each tested. */
  method IterNetworkX(items: seq<Item>, labels: Option<set<string>>, conds: seq<Cond>, worker: Option<Worker>) returns (out: Stream<Item>)
    requires worker.Some? ==> worker.value.id < worker.value.count
    ensures out == Filtered(TestingItem(labels, conds), if worker.None? then items else SliceOf(items, worker.value))
  {
    out := Check(if worker.None? then items else SliceOf(items, worker.value), TestingItem(labels, conds));
  }

  /** In memory too, all workers together yield exactly the accepted nodes, unless a test raises. */
  lemma ItemsAreExact(items: seq<Item>, labels: Option<set<string>>, conds: seq<Cond>, workers: nat)
    requires workers > 0
    ensures var test := TestingItem(labels, conds);
            && (AllEnd(test, items, workers, workers) <==> forall i | i in items :: test(i).Ok?)
            && (AllEnd(test, items, workers, workers) ==>
                  Together(test, items, workers, workers) == Select((i: Item) => test(i) == Ok(true), items))
  {
    var test := TestingItem(labels, conds);
    var pass := (i: Item) => test(i) == Ok(true);
    WorkersYieldAll(pass, items, workers);
    WorkersEnd(test, pass, items, workers);
  }
}
