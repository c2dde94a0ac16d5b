/** What the words of a Cypher query come to, in plainer ones (cvcdocdb/nx_cypher.py): comparisons and
    conditions, aggregations, whole MATCH clauses, ORDER BY, SKIP and LIMIT. */
module CypherReading {
  import opened Common
  import opened CypherValues
  import opened CypherEval
  import opened CypherMatch
  import P = CypherProject
  import F = Filters

  // --- Comparing values ----------------------------------------------------

  /** The order of texts: the first character that differs decides, and a beginning comes first. */
  predicate TextBefore(s: string, t: string) {
    exists i :: 0 <= i <= |s| && i < |t| && s[..i] == t[..i] && (i < |s| ==> s[i] < t[i])
  }

  lemma {:induction false} TextBelow(s: string, t: string)
    ensures CompareText(s, t) < 0 <==> TextBefore(s, t)
  {
    if s == [] || t == [] {
      if s == [] && t != [] { assert s[..0] == t[..0]; }
    } else if s[0] == t[0] {
      TextBelow(s[1..], t[1..]);
      if TextBefore(s[1..], t[1..]) {
        var i :| 0 <= i <= |s[1..]| && i < |t[1..]| && s[1..][..i] == t[1..][..i] && (i < |s[1..]| ==> s[1..][i] < t[1..][i]);
        assert s[..i + 1] == [s[0]] + s[1..][..i] && t[..i + 1] == [t[0]] + t[1..][..i];
      }
      if TextBefore(s, t) {
        var i :| 0 <= i <= |s| && i < |t| && s[..i] == t[..i] && (i < |s| ==> s[i] < t[i]);
        assert i > 0;
        assert s[1..][..i - 1] == s[..i][1..] && t[1..][..i - 1] == t[..i][1..];
      }
    } else {
      assert s[..0] == t[..0];
      forall i | 0 < i <= |s| && i < |t| ensures s[..i] != t[..i] { assert s[..i][0] == s[0] && t[..i][0] == t[0]; }
    }
  }

  /** Python's comparison of strings is that order. */
  lemma TextOrder(s: string, t: string)
    ensures CompareText(s, t) < 0 <==> TextBefore(s, t)
    ensures CompareText(s, t) > 0 <==> TextBefore(t, s)
    ensures CompareText(s, t) == 0 <==> s == t
  {
    hide CompareText, TextBefore;
    TextBelow(s, t);
    TextBelow(t, s);
    TextAntisymmetric(s, t);
  }

  predicate OneKind(a: CVal, b: CVal) {
    (a.Num? && b.Num?) || (a.Str? && b.Str?) || (a.Bool? && b.Bool?)
  }

  /** Less, among numbers, among texts and among booleans. */
  predicate Under(a: CVal, b: CVal) {
    || (a.Num? && b.Num? && a.n < b.n)
    || (a.Str? && b.Str? && TextBefore(a.s, b.s))
    || (a.Bool? && b.Bool? && !a.b && b.b)
  }

  predicate Stands(op: Comparison, a: CVal, b: CVal) {
    match op
    case Less => Under(a, b)
    case LessOrEqual => Under(a, b) || a == b
    case Greater => Under(b, a)
    case GreaterOrEqual => Under(b, a) || a == b
  }

  /** A comparison is unknown of two kinds, and otherwise what it says. */
  lemma ComparedStands(op: Comparison, a: CVal, b: CVal)
    ensures Compare(op, a, b).True? <==> OneKind(a, b) && Stands(op, a, b)
    ensures Compare(op, a, b).False? <==> OneKind(a, b) && !Stands(op, a, b)
  {
    if a.Str? && b.Str? {
      hide CompareText, TextBefore;
      TextOrder(a.s, b.s);
    }
  }

  /** The four comparisons of two numbers, in Cypher and in a filter. */
  lemma NumbersCompared(x: real, y: real)
    ensures Compare(Less, Num(x), Num(y)) == (if x < y then True else False) && F.OpHolds(F.Lt, Num(x), Num(y)) == Ok(x < y)
    ensures Compare(LessOrEqual, Num(x), Num(y)) == (if x <= y then True else False) && F.OpHolds(F.Lte, Num(x), Num(y)) == Ok(x <= y)
    ensures Compare(Greater, Num(x), Num(y)) == (if x > y then True else False) && F.OpHolds(F.Gt, Num(x), Num(y)) == Ok(x > y)
    ensures Compare(GreaterOrEqual, Num(x), Num(y)) == (if x >= y then True else False) && F.OpHolds(F.Gte, Num(x), Num(y)) == Ok(x >= y)
    ensures F.OpHolds(F.Eq, Num(x), Num(y)) == Ok(x == y) && F.OpHolds(F.Ne, Num(x), Num(y)) == Ok(x != y)
  {
  }

  /** The tests of a filter on two texts. */
  lemma TextsCompared(s: string, t: string)
    ensures F.OpHolds(F.Lt, Str(s), Str(t)) == Ok(TextBefore(s, t)) && F.OpHolds(F.Gte, Str(s), Str(t)) == Ok(!TextBefore(s, t))
    ensures F.OpHolds(F.Gt, Str(s), Str(t)) == Ok(TextBefore(t, s)) && F.OpHolds(F.Lte, Str(s), Str(t)) == Ok(!TextBefore(t, s))
    ensures F.OpHolds(F.Eq, Str(s), Str(t)) == Ok(s == t) && F.OpHolds(F.Ne, Str(s), Str(t)) == Ok(s != t)
    ensures F.OpHolds(F.Contains, Str(s), Str(t)) == Ok(PartOf(t, s)) && F.OpHolds(F.In, Str(s), Str(t)) == Ok(PartOf(s, t))
    ensures F.OpHolds(F.Nin, Str(s), Str(t)) == Ok(!PartOf(s, t))
  {
    hide CompareText, TextBefore, PartOf, Infix;
    TextOrder(s, t);
    InfixPartOf(s, t);
    InfixPartOf(t, s);
  }

  /** One text is a part of another. */
  ghost predicate PartOf(part: string, whole: string) {
    exists before: string, after: string :: before + part + after == whole
  }

  lemma InfixPartOf(part: string, whole: string)
    ensures Infix(part, whole) <==> PartOf(part, whole)
  {
    if Infix(part, whole) {
      var i :| 0 <= i <= |whole| && part <= whole[i..];
      assert whole == whole[..i] + part + whole[i + |part|..];
    }
    if PartOf(part, whole) {
      var before: string, after: string :| before + part + after == whole;
      assert whole[|before|..] == part + after;
    }
  }

  /** Two values surely differ: neither is null, and they are lists of different lengths, or with items
      that surely differ, or not both lists and not the same. */
  predicate Differs(a: CVal, b: CVal) {
    && !a.Null? && !b.Null?
    && if a.List? && b.List? then |a.items| != |b.items| || exists i :: 0 <= i < |a.items| && Differs(a.items[i], b.items[i])
       else a != b
  }

  /** Equality is true of the same values without nulls, and false of values that surely differ. */
  lemma {:induction false} EqualsMeans(a: CVal, b: CVal)
    ensures Equals(a, b).True? <==> a == b && NullFree(a)
    ensures Equals(a, b).False? <==> Differs(a, b)
    decreases a
  {
    EqualsIsIdentity(a, b);
    if a.List? && b.List? && |a.items| == |b.items| { AllEqualMeans(a.items, b.items); }
  }

  lemma {:induction false} AllEqualMeans(xs: seq<CVal>, ys: seq<CVal>)
    requires |xs| == |ys|
    ensures EqualsAll(xs, ys).False? <==> exists i :: 0 <= i < |xs| && Differs(xs[i], ys[i])
    decreases xs
  {
    if xs != [] {
      EqualsMeans(xs[0], ys[0]);
      AllEqualMeans(xs[1..], ys[1..]);
      assert (exists i :: 0 <= i < |xs| && Differs(xs[i], ys[i])) <==>
             Differs(xs[0], ys[0]) || exists i :: 0 <= i < |xs[1..]| && Differs(xs[1..][i], ys[1..][i]) by {
        if j :| 0 <= j < |xs| && Differs(xs[j], ys[j]) {
          if j > 0 { assert xs[1..][j - 1] == xs[j] && ys[1..][j - 1] == ys[j]; }
        }
      }
    }
  }

  /** A value is in a list surely if an item is the same, and surely not if all items differ. */
  lemma {:induction false} MemberIs(a: CVal, items: seq<CVal>)
    ensures Member(a, items).True? <==> a in items && NullFree(a)
    ensures Member(a, items).False? <==> forall i | 0 <= i < |items| :: Differs(a, items[i])
    decreases |items|
  {
    if items != [] {
      hide Equals, NullFree, Differs;
      EqualsMeans(a, items[0]);
      MemberIs(a, items[1..]);
      assert (forall i | 0 <= i < |items| :: Differs(a, items[i])) <==>
             Differs(a, items[0]) && forall i | 0 <= i < |items[1..]| :: Differs(a, items[1..][i]) by {
        if forall i | 0 <= i < |items[1..]| :: Differs(a, items[1..][i]) {
          forall i | 0 < i < |items| ensures Differs(a, items[i]) { assert items[1..][i - 1] == items[i]; }
        }
      }
    }
  }

  /** STARTS WITH, ENDS WITH and CONTAINS. */
  ghost predicate TextHas(side: Side, whole: string, part: string) {
    match side
    case Starts => exists rest: string :: part + rest == whole
    case Ends => exists rest: string :: rest + part == whole
    case Contains => PartOf(part, whole)
  }

  lemma TextTestMeans(side: Side, a: CVal, b: CVal)
    ensures TextTest(side, a, b).True? <==> a.Str? && b.Str? && TextHas(side, a.s, b.s)
    ensures TextTest(side, a, b).False? <==> a.Str? && b.Str? && !TextHas(side, a.s, b.s)
  {
    if a.Str? && b.Str? {
      InfixPartOf(b.s, a.s);
      hide Infix, PartOf;
      match side {
        case Starts =>
          if b.s <= a.s { assert b.s + a.s[|b.s|..] == a.s; }
        case Ends =>
          if |b.s| <= |a.s| && a.s[|a.s| - |b.s|..] == b.s { assert a.s[..|a.s| - |b.s|] + b.s == a.s; }
        case Contains =>
      }
    }
  }

  // --- The values of expressions -------------------------------------------

  type Group = Option<seq<Row>>

  function Val(c: Context, e: Expr, row: Row, group: Group): Outcome {
    Eval(c.g, c.params, e, row, group)
  }

  /** False, unknown and true, in order of strength. */
  function Strength(t: Truth): nat {
    match t
    case False => 0
    case Unknown => 1
    case True => 2
  }

  /** Strong Kleene logic: AND is the weaker side, OR the stronger, NOT turns the order around, and XOR
      is one side without the other. */
  lemma LogicTables(a: Truth, b: Truth)
    ensures Strength(AndT(a, b)) == if Strength(a) < Strength(b) then Strength(a) else Strength(b)
    ensures Strength(OrT(a, b)) == if Strength(a) > Strength(b) then Strength(a) else Strength(b)
    ensures Strength(NotT(a)) == 2 - Strength(a)
    ensures XorT(a, b) == OrT(AndT(a, NotT(b)), AndT(NotT(a), b))
  {
  }

  predicate IsTruth(o: Outcome) {
    o.Ok? && (o.value.Null? || o.value.Bool?)
  }

  predicate Whole(v: CVal) {
    v.Num? && v.n == v.n.Floor as real
  }

  /** An expression has a value, and is no error, exactly when its operands have values it can take. */
  predicate Ready(c: Context, e: Expr, row: Row, group: Group) {
    match e
    case Lit(_) => true
    case Param(name) => name in c.params
    case Var(name) => name in row
    case Prop(e1, _) => var v := Val(c, e1, row, group); v.Ok? && (v.value.Null? || v.value.NodeRef? || v.value.RelRef? || v.value.Map?)
    case ListOf(items) => forall i | 0 <= i < |items| :: Val(c, items[i], row, group).Ok?
    case MapOf(entries) => forall i | 0 <= i < |entries| :: Val(c, entries[i].e, row, group).Ok?
    case Index(l, r) =>
      var v, i := Val(c, l, row, group), Val(c, r, row, group);
      v.Ok? && i.Ok? && (v.value.Null? || i.value.Null? || (v.value.List? && Whole(i.value)) || (v.value.Map? && i.value.Str?))
    case Not(e1) => IsTruth(Val(c, e1, row, group))
    case And(l, r) => IsTruth(Val(c, l, row, group)) && (Val(c, l, row, group) == Ok(Bool(false)) || IsTruth(Val(c, r, row, group)))
    case Or(l, r) => IsTruth(Val(c, l, row, group)) && (Val(c, l, row, group) == Ok(Bool(true)) || IsTruth(Val(c, r, row, group)))
    case Xor(l, r) => IsTruth(Val(c, l, row, group)) && IsTruth(Val(c, r, row, group))
    case Neg(e1) => var v := Val(c, e1, row, group); v.Ok? && (v.value.Null? || v.value.Num?)
    case In(l, r) => var v := Val(c, r, row, group); Val(c, l, row, group).Ok? && v.Ok? && (v.value.Null? || v.value.List?)
    case IsNull(e1, _) => Val(c, e1, row, group).Ok?
    case HasLabels(e1, _) => var v := Val(c, e1, row, group); v.Ok? && (v.value.Null? || v.value.NodeRef?)
    case CountStar => group.Some?
    case Aggregation(_, e1, _) =>
      group.Some? && !HasAggregate(e1) && forall i | 0 <= i < |group.value| :: Val(c, e1, group.value[i], None).Ok?
    case _ => Val(c, e.l, row, group).Ok? && Val(c, e.r, row, group).Ok?
  }

  lemma EvalIsReady(c: Context, e: Expr, row: Row, group: Group)
    ensures Val(c, e, row, group).Ok? <==> Ready(c, e, row, group)
  {
    hide *;
    match e {
      case Prop(_, _) | Not(_) | Neg(_) | IsNull(_, _) | HasLabels(_, _) => UnaryReady(c, e, row, group);
      case And(_, _) | Or(_, _) | Xor(_, _) => LogicReady(c, e, row, group);
      case Index(_, _) | In(_, _) | Equal(_, _) | Unequal(_, _) | Compared(_, _, _) | Text(_, _, _) => BinaryReady(c, e, row, group);
      case _ => LeafReady(c, e, row, group);
    }
  }

  lemma UnaryReady(c: Context, e: Expr, row: Row, group: Group)
    requires e.Prop? || e.Not? || e.Neg? || e.IsNull? || e.HasLabels?
    ensures Val(c, e, row, group).Ok? <==> Ready(c, e, row, group)
  {
    hide LabelsOk, Lookup, NodeAttrs, RelAttrs;
  }

  lemma LogicReady(c: Context, e: Expr, row: Row, group: Group)
    requires e.And? || e.Or? || e.Xor?
    ensures Val(c, e, row, group).Ok? <==> Ready(c, e, row, group)
  {
    hide AndT, OrT, XorT;
  }

  lemma BinaryReady(c: Context, e: Expr, row: Row, group: Group)
    requires e.Index? || e.In? || e.Equal? || e.Unequal? || e.Compared? || e.Text?
    ensures Val(c, e, row, group).Ok? <==> Ready(c, e, row, group)
  {
    hide Equals, Compare, Member, TextTest, Lookup;
  }

  lemma LeafReady(c: Context, e: Expr, row: Row, group: Group)
    requires e.Lit? || e.Param? || e.Var? || e.ListOf? || e.MapOf? || e.CountStar? || e.Aggregation?
    ensures Val(c, e, row, group).Ok? <==> Ready(c, e, row, group)
  {
    hide HasAggregate, Aggregated, Unique, EvalItems, EvalEntries, EvalOver;
    match e {
      case ListOf(items) => ItemsYield(c, items, row, group);
      case MapOf(entries) => EntriesReady(c, entries, row, group);
      case Aggregation(_, e1, _) => if group.Some? { OverReady(c, e1, group.value); }
      case _ =>
    }
  }

  lemma {:induction false} OverReady(c: Context, e: Expr, rows: seq<Row>)
    ensures EvalOver(c.g, c.params, e, rows).Ok? <==> forall i | 0 <= i < |rows| :: Val(c, e, rows[i], None).Ok?
  {
    if rows != [] {
      OverReady(c, e, rows[1..]);
      hide Eval;
      if forall i | 0 <= i < |rows[1..]| :: Val(c, e, rows[1..][i], None).Ok? {
        forall i | 0 < i < |rows| ensures Val(c, e, rows[i], None).Ok? { assert rows[1..][i - 1] == rows[i]; }
      }
    }
  }

  /** A list expression is the list of its items' values. */
  lemma {:induction false} ItemsYield(c: Context, items: seq<Expr>, row: Row, group: Group)
    ensures var vs := EvalItems(c.g, c.params, items, row, group);
            && (vs.Ok? <==> forall i | 0 <= i < |items| :: Val(c, items[i], row, group).Ok?)
            && (vs.Ok? ==> |vs.value| == |items| && forall i | 0 <= i < |items| :: Val(c, items[i], row, group) == Ok(vs.value[i]))
    decreases |items|
  {
    if items != [] {
      hide Eval;
      ItemsYield(c, items[1..], row, group);
      var vs := EvalItems(c.g, c.params, items[1..], row, group);
      forall i | 0 < i < |items| ensures items[i] == items[1..][i - 1] {}
      assert forall i | 0 <= i < |items[1..]| :: items[1..][i] == items[i + 1];
    }
  }

  lemma {:induction false} EntriesReady(c: Context, entries: seq<MapEntry>, row: Row, group: Group)
    ensures EvalEntries(c.g, c.params, entries, row, group).Ok? <==> forall i | 0 <= i < |entries| :: Val(c, entries[i].e, row, group).Ok?
    decreases |entries|
  {
    if entries != [] {
      hide Eval;
      var n := |entries| - 1;
      EntriesReady(c, entries[..n], row, group);
      assert forall i | 0 <= i < n :: entries[..n][i] == entries[i];
    }
  }

  predicate Names(entries: seq<MapEntry>, key: string) {
    exists i :: 0 <= i < |entries| && entries[i].key == key
  }

  /** The last entry of its name. */
  predicate IsLast(entries: seq<MapEntry>, i: nat) {
    i < |entries| && !Names(entries[i + 1..], entries[i].key)
  }

  /** A map expression has the names of its entries, and the value of the last entry of each name. */
  lemma {:induction false} EntriesYield(c: Context, entries: seq<MapEntry>, row: Row, group: Group)
    requires EvalEntries(c.g, c.params, entries, row, group).Ok?
    ensures forall k :: k in EvalEntries(c.g, c.params, entries, row, group).value <==> Names(entries, k)
    decreases |entries|
  {
    if entries != [] {
      hide Eval;
      var n := |entries| - 1;
      EntriesYield(c, entries[..n], row, group);
      forall k ensures Names(entries, k) <==> Names(entries[..n], k) || k == entries[n].key {
        assert forall i | 0 <= i < n :: entries[..n][i] == entries[i];
        if i :| 0 <= i < n && entries[i].key == k { assert entries[..n][i].key == k; }
      }
    }
  }

  lemma {:induction false} LastEntryYields(c: Context, entries: seq<MapEntry>, i: nat, row: Row, group: Group)
    requires EvalEntries(c.g, c.params, entries, row, group).Ok? && IsLast(entries, i)
    ensures entries[i].key in EvalEntries(c.g, c.params, entries, row, group).value
    ensures Val(c, entries[i].e, row, group) == Ok(EvalEntries(c.g, c.params, entries, row, group).value[entries[i].key])
    decreases |entries|
  {
    hide Eval;
    var n := |entries| - 1;
    if i < n {
      var later, fewer := entries[i + 1..], entries[..n][i + 1..];
      assert forall j | 0 <= j < |fewer| :: fewer[j] == later[j];
      assert later[n - i - 1] == entries[n];
      assert IsLast(entries[..n], i);
      LastEntryYields(c, entries[..n], i, row, group);
    }
  }

  /** A variable is what the row binds it to, a parameter what the caller gave. */
  lemma NamesYield(c: Context, name: string, v: CVal, row: Row, group: Group)
    ensures Val(c, Lit(v), row, group) == Ok(v)
    ensures name in row ==> Val(c, Var(name), row, group) == Ok(row[name])
    ensures name in c.params ==> Val(c, Param(name), row, group) == Ok(c.params[name])
  {
  }

  /** The property of a node, a relation or a map; null if it lacks it, or of null. */
  lemma PropertyYields(c: Context, e: Expr, name: string, row: Row, group: Group)
    requires Val(c, Prop(e, name), row, group).Ok?
    ensures Val(c, e, row, group).Ok?
    ensures var v, p := Val(c, e, row, group).value, Val(c, Prop(e, name), row, group).value;
            && (v.Null? ==> p.Null?)
            && (v.NodeRef? && v.id in c.g.nodeAttrs && name in c.g.nodeAttrs[v.id] ==> p == c.g.nodeAttrs[v.id][name])
            && (v.NodeRef? && !(v.id in c.g.nodeAttrs && name in c.g.nodeAttrs[v.id]) ==> p.Null?)
            && (v.RelRef? && v.key in c.g.edgeAttrs && name in c.g.edgeAttrs[v.key] ==> p == c.g.edgeAttrs[v.key][name])
            && (v.RelRef? && !(v.key in c.g.edgeAttrs && name in c.g.edgeAttrs[v.key]) ==> p.Null?)
            && (v.Map? ==> p == if name in v.entries then v.entries[name] else Null)
  {
  }

  /** A list item by its position, from the end when negative; a map entry by its name; null outside. */
  lemma IndexYields(c: Context, e: Expr, at: Expr, row: Row, group: Group)
    requires Val(c, Index(e, at), row, group).Ok?
    ensures Val(c, e, row, group).Ok? && Val(c, at, row, group).Ok?
    ensures var v, i, x := Val(c, e, row, group).value, Val(c, at, row, group).value, Val(c, Index(e, at), row, group).value;
            && (v.Null? || i.Null? ==> x.Null?)
            && (v.List? && i.Num? ==>
                  && (forall k: nat | k < |v.items| && (i.n == k as real || i.n == (k - |v.items|) as real) :: x == v.items[k])
                  && (i.n >= |v.items| as real || i.n < -|v.items| as real ==> x.Null?))
            && (v.Map? && i.Str? ==> x == if i.s in v.entries then v.entries[i.s] else Null)
  {
  }

  lemma NegYields(c: Context, e: Expr, row: Row, group: Group)
    requires Val(c, Neg(e), row, group).Ok?
    ensures Val(c, e, row, group).Ok?
    ensures var v, x := Val(c, e, row, group).value, Val(c, Neg(e), row, group).value;
            (v.Null? && x.Null?) || (v.Num? && x.Num? && v.n + x.n == 0.0)
  {
  }

  // --- Conditions ----------------------------------------------------------

  /** The labels a node goes by: its list of labels, or its main label if that is missing or empty. */
  predicate GoesBy(g: Graph, n: NodeId, name: string) {
    var attrs := if n in g.nodeAttrs then g.nodeAttrs[n] else map[];
    if "labels" in attrs && attrs["labels"].List? && attrs["labels"].items != [] then Str(name) in attrs["labels"].items
    else if "main_label" in attrs then attrs["main_label"] == Str(name)
    else name == "Node"
  }

  lemma LabelsAre(g: Graph, n: NodeId, labels: seq<string>)
    ensures LabelsOk(g, n, labels) <==> forall i | 0 <= i < |labels| :: GoesBy(g, n, labels[i])
  {
  }

  /** The condition is true of the row ... */
  predicate Holds(c: Context, e: Expr, row: Row)
    decreases e
  {
    match e
    case Not(e1) => Fails(c, e1, row)
    case And(l, r) => Holds(c, l, row) && Holds(c, r, row)
    case Or(l, r) => Holds(c, l, row) || Holds(c, r, row)
    case Xor(l, r) => (Holds(c, l, row) && Fails(c, r, row)) || (Fails(c, l, row) && Holds(c, r, row))
    case _ => AtomHolds(c, e, row)
  }

  /** ... or false of it. It may be neither. */
  predicate Fails(c: Context, e: Expr, row: Row)
    decreases e
  {
    match e
    case Not(e1) => Holds(c, e1, row)
    case And(l, r) => Fails(c, l, row) || Fails(c, r, row)
    case Or(l, r) => Fails(c, l, row) && Fails(c, r, row)
    case Xor(l, r) => (Holds(c, l, row) && Holds(c, r, row)) || (Fails(c, l, row) && Fails(c, r, row))
    case _ => AtomFails(c, e, row)
  }

  /** A test that is true of its operands' values. */
  predicate AtomHolds(c: Context, e: Expr, row: Row) {
    match e
    case Equal(l, r) => Both(c, l, r, row) && var (a, b) := Values(c, l, r, row); a == b && NullFree(a)
    case Unequal(l, r) => Both(c, l, r, row) && var (a, b) := Values(c, l, r, row); Differs(a, b)
    case Compared(op, l, r) => Both(c, l, r, row) && var (a, b) := Values(c, l, r, row); OneKind(a, b) && Stands(op, a, b)
    case In(l, r) => Both(c, l, r, row) && var (a, b) := Values(c, l, r, row); b.List? && a in b.items && NullFree(a)
    case IsNull(e1, negated) => var v := Val(c, e1, row, None); v.Ok? && (v.value == Null <==> !negated)
    case HasLabels(e1, labels) =>
      var v := Val(c, e1, row, None);
      v.Ok? && v.value.NodeRef? && forall i | 0 <= i < |labels| :: GoesBy(c.g, v.value.id, labels[i])
    case _ => Val(c, e, row, None) == Ok(Bool(true))
  }

  predicate AtomFails(c: Context, e: Expr, row: Row) {
    match e
    case Equal(l, r) => Both(c, l, r, row) && var (a, b) := Values(c, l, r, row); Differs(a, b)
    case Unequal(l, r) => Both(c, l, r, row) && var (a, b) := Values(c, l, r, row); a == b && NullFree(a)
    case Compared(op, l, r) => Both(c, l, r, row) && var (a, b) := Values(c, l, r, row); OneKind(a, b) && !Stands(op, a, b)
    case In(l, r) =>
      Both(c, l, r, row) && var (a, b) := Values(c, l, r, row); b.List? && forall i | 0 <= i < |b.items| :: Differs(a, b.items[i])
    case IsNull(e1, negated) => var v := Val(c, e1, row, None); v.Ok? && (v.value == Null <==> negated)
    case HasLabels(e1, labels) =>
      var v := Val(c, e1, row, None);
      v.Ok? && v.value.NodeRef? && exists i :: 0 <= i < |labels| && !GoesBy(c.g, v.value.id, labels[i])
    case _ => Val(c, e, row, None) == Ok(Bool(false))
  }

  predicate Both(c: Context, l: Expr, r: Expr, row: Row) {
    Val(c, l, row, None).Ok? && Val(c, r, row, None).Ok?
  }

  function Values(c: Context, l: Expr, r: Expr, row: Row): (CVal, CVal)
    requires Both(c, l, r, row)
  {
    (Val(c, l, row, None).value, Val(c, r, row, None).value)
  }

  predicate Reads(c: Context, e: Expr, row: Row) {
    var v := Val(c, e, row, None);
    v.Ok? ==> (v.value == Bool(true) <==> Holds(c, e, row)) && (v.value == Bool(false) <==> Fails(c, e, row))
  }

  /** A condition that is no error evaluates to true exactly when it holds, and to false exactly when it
      fails. */
  lemma {:induction false} ConditionMeans(c: Context, e: Expr, row: Row)
    ensures Reads(c, e, row)
    decreases e
  {
    hide *;
    match e {
      case Not(e1) =>
        ConditionMeans(c, e1, row);
        NotReads(c, e, row);
      case And(l, r) =>
        ConditionMeans(c, l, row);
        ConditionMeans(c, r, row);
        AndReads(c, e, row);
      case Or(l, r) =>
        ConditionMeans(c, l, row);
        ConditionMeans(c, r, row);
        OrReads(c, e, row);
      case Xor(l, r) =>
        ConditionMeans(c, l, row);
        ConditionMeans(c, r, row);
        XorReads(c, e, row);
      case _ => AtomReads(c, e, row);
    }
  }

  lemma AtomReads(c: Context, e: Expr, row: Row)
    requires !e.Not? && !e.And? && !e.Or? && !e.Xor?
    ensures Reads(c, e, row)
  {
    hide AtomHolds, AtomFails, Eval;
    if Val(c, e, row, None).Ok? {
      if e.Equal? || e.Unequal? || e.Compared? { ComparisonMeans(c, e, row); } else { AtomMeans(c, e, row); }
    }
  }

  lemma ComparisonMeans(c: Context, e: Expr, row: Row)
    requires (e.Equal? || e.Unequal? || e.Compared?) && Val(c, e, row, None).Ok?
    ensures Val(c, e, row, None) == Ok(Bool(true)) <==> AtomHolds(c, e, row)
    ensures Val(c, e, row, None) == Ok(Bool(false)) <==> AtomFails(c, e, row)
  {
    hide Equals, Compare, Differs, NullFree, Stands, OneKind;
    var a, b := Val(c, e.l, row, None).value, Val(c, e.r, row, None).value;
    if e.Compared? { ComparedStands(e.op, a, b); } else { EqualsMeans(a, b); }
  }

  lemma NotReads(c: Context, e: Expr, row: Row)
    requires e.Not? && Reads(c, e.e, row)
    ensures Reads(c, e, row)
  {
    UnaryReady(c, e, row, None);
  }

  lemma AndReads(c: Context, e: Expr, row: Row)
    requires e.And? && Reads(c, e.l, row) && Reads(c, e.r, row)
    ensures Reads(c, e, row)
  {
    LogicReady(c, e, row, None);
  }

  lemma OrReads(c: Context, e: Expr, row: Row)
    requires e.Or? && Reads(c, e.l, row) && Reads(c, e.r, row)
    ensures Reads(c, e, row)
  {
    LogicReady(c, e, row, None);
  }

  lemma XorReads(c: Context, e: Expr, row: Row)
    requires e.Xor? && Reads(c, e.l, row) && Reads(c, e.r, row)
    ensures Reads(c, e, row)
  {
    LogicReady(c, e, row, None);
  }

  lemma AtomMeans(c: Context, e: Expr, row: Row)
    requires !e.Not? && !e.And? && !e.Or? && !e.Xor? && !e.Equal? && !e.Unequal? && !e.Compared? && Val(c, e, row, None).Ok?
    ensures Val(c, e, row, None) == Ok(Bool(true)) <==> AtomHolds(c, e, row)
    ensures Val(c, e, row, None) == Ok(Bool(false)) <==> AtomFails(c, e, row)
  {
    hide Member, Differs, NullFree, LabelsOk, GoesBy;
    match e {
      case In(l, r) =>
        var a, b := Val(c, l, row, None).value, Val(c, r, row, None).value;
        if b.List? { MemberIs(a, b.items); }
      case HasLabels(e1, labels) =>
        var v := Val(c, e1, row, None).value;
        if v.NodeRef? { LabelsAre(c.g, v.id, labels); }
      case _ =>
    }
  }

  /** STARTS WITH, ENDS WITH and CONTAINS of two values. */
  lemma TextYields(c: Context, side: Side, l: Expr, r: Expr, row: Row, group: Group)
    requires Val(c, Text(side, l, r), row, group).Ok?
    ensures Val(c, l, row, group).Ok? && Val(c, r, row, group).Ok?
    ensures var a, b, x := Val(c, l, row, group).value, Val(c, r, row, group).value, Val(c, Text(side, l, r), row, group).value;
            && (x == Bool(true) <==> a.Str? && b.Str? && TextHas(side, a.s, b.s))
            && (x == Bool(false) <==> a.Str? && b.Str? && !TextHas(side, a.s, b.s))
  {
    hide TextTest, TextHas;
    TextTestMeans(side, Val(c, l, row, group).value, Val(c, r, row, group).value);
  }

  // --- The order of values -------------------------------------------------

  /** ORDER BY's order within one kind: numbers by size, texts as texts, false before true, dates of one
      kind by time, nodes by id, lists by their first items that are not level, or else by length. */
  lemma OrderMeans(a: CVal, b: CVal)
    ensures a.Num? && b.Num? ==> (OrderCmp(a, b) < 0 <==> a.n < b.n)
    ensures a.Str? && b.Str? ==> (OrderCmp(a, b) < 0 <==> TextBefore(a.s, b.s))
    ensures a.Bool? && b.Bool? ==> (OrderCmp(a, b) < 0 <==> !a.b && b.b)
    ensures a.Temporal? && b.Temporal? ==> (OrderCmp(a, b) < 0 <==> a.kind == b.kind && a.position < b.position)
    ensures a.NodeRef? && b.NodeRef? ==> (OrderCmp(a, b) < 0 <==> a.id < b.id)
    ensures a.RelRef? && b.RelRef? ==> (OrderCmp(a, b) < 0 <==> TextBefore(RelText(a.key), RelText(b.key)))
    ensures a.List? && b.List? ==> (OrderCmp(a, b) < 0 <==> ListBefore(a.items, b.items))
    ensures a.Map? && b.Map? ==> OrderCmp(a, b) == 0
    ensures OrderCmp(a, b) > 0 <==> OrderCmp(b, a) < 0
  {
    OrderAntisymmetric(a, b);
    hide CompareText, TextBefore, ListBefore, RelText, OrderLists;
    if a.Str? && b.Str? { TextOrder(a.s, b.s); }
    if a.RelRef? && b.RelRef? { TextOrder(RelText(a.key), RelText(b.key)); }
    if a.List? && b.List? { ListOrder(a.items, b.items); }
  }

  predicate FromTextOn(v: CVal) {
    v.Str? || v.Bool? || v.Num? || v.Null?
  }

  /** ... and across kinds: maps, nodes, relations, lists, dates, texts, booleans, numbers, null. */
  lemma KindsOrdered(a: CVal, b: CVal)
    ensures a.Map? && !b.Map? ==> OrderCmp(a, b) < 0
    ensures a.NodeRef? && !b.Map? && !b.NodeRef? ==> OrderCmp(a, b) < 0
    ensures a.RelRef? && (b.List? || b.Temporal? || FromTextOn(b)) ==> OrderCmp(a, b) < 0
    ensures a.List? && (b.Temporal? || FromTextOn(b)) ==> OrderCmp(a, b) < 0
    ensures a.Temporal? && FromTextOn(b) ==> OrderCmp(a, b) < 0
    ensures a.Str? && FromTextOn(b) && !b.Str? ==> OrderCmp(a, b) < 0
    ensures a.Bool? && (b.Num? || b.Null?) ==> OrderCmp(a, b) < 0
    ensures a.Num? && b.Null? ==> OrderCmp(a, b) < 0
  {
  }

  predicate ListBefore(xs: seq<CVal>, ys: seq<CVal>) {
    exists i :: 0 <= i <= |xs| && i < |ys| && Level(xs, ys, i) && (i < |xs| ==> OrderCmp(xs[i], ys[i]) < 0)
  }

  predicate Level(xs: seq<CVal>, ys: seq<CVal>, n: nat)
    requires n <= |xs| && n <= |ys|
  {
    forall i | 0 <= i < n :: OrderCmp(xs[i], ys[i]) == 0
  }

  lemma {:induction false} ListOrder(xs: seq<CVal>, ys: seq<CVal>)
    ensures OrderLists(xs, ys) < 0 <==> ListBefore(xs, ys)
  {
    hide OrderCmp;
    if xs == [] || ys == [] {
      if xs == [] && ys != [] { assert Level(xs, ys, 0); }
    } else if OrderCmp(xs[0], ys[0]) != 0 {
      assert Level(xs, ys, 0);
      if ListBefore(xs, ys) {
        var i :| 0 <= i <= |xs| && i < |ys| && Level(xs, ys, i) && (i < |xs| ==> OrderCmp(xs[i], ys[i]) < 0);
        assert i == 0;
      }
    } else {
      ListOrder(xs[1..], ys[1..]);
      if ListBefore(xs[1..], ys[1..]) {
        var i :| 0 <= i <= |xs[1..]| && i < |ys[1..]| && Level(xs[1..], ys[1..], i) && (i < |xs[1..]| ==> OrderCmp(xs[1..][i], ys[1..][i]) < 0);
        forall k | 0 < k < i + 1 ensures OrderCmp(xs[k], ys[k]) == 0 { assert xs[k] == xs[1..][k - 1] && ys[k] == ys[1..][k - 1]; }
        assert Level(xs, ys, i + 1);
      }
      if ListBefore(xs, ys) {
        var i :| 0 <= i <= |xs| && i < |ys| && Level(xs, ys, i) && (i < |xs| ==> OrderCmp(xs[i], ys[i]) < 0);
        assert i > 0;
        assert Level(xs[1..], ys[1..], i - 1);
      }
    }
  }

  // --- Aggregations --------------------------------------------------------

  predicate Increasing(at: seq<nat>, n: nat) {
    (forall i | 0 <= i < |at| :: at[i] < n) && forall i, j | 0 <= i < j < |at| :: at[i] < at[j]
  }

  /** The values of an expression over rows, in order, without nulls: those at the places `at`. */
  predicate ValuesAt(c: Context, e: Expr, rows: seq<Row>, vs: seq<CVal>, at: seq<nat>) {
    && Increasing(at, |rows|) && |at| == |vs|
    && (forall k | 0 <= k < |at| :: Val(c, e, rows[at[k]], None) == Ok(vs[k]) && vs[k] != Null)
    && (forall i | 0 <= i < |rows| && i !in at :: Val(c, e, rows[i], None) == Ok(Null))
  }

  function Shifted(at: seq<nat>): (r: seq<nat>)
    ensures |r| == |at| && forall i | 0 <= i < |at| :: r[i] == at[i] + 1
  {
    seq(|at|, i requires 0 <= i < |at| => at[i] + 1)
  }

  lemma {:induction false} OverYields(c: Context, e: Expr, rows: seq<Row>) returns (at: seq<nat>)
    requires EvalOver(c.g, c.params, e, rows).Ok?
    ensures ValuesAt(c, e, rows, EvalOver(c.g, c.params, e, rows).value, at)
    decreases |rows|
  {
    at := [];
    if rows != [] {
      hide Eval;
      var later := OverYields(c, e, rows[1..]);
      at := if Val(c, e, rows[0], None) == Ok(Null) then Shifted(later) else [0] + Shifted(later);
      MoreValues(c, e, rows, EvalOver(c.g, c.params, e, rows[1..]).value, later);
    }
  }

  lemma ShiftedHas(at: seq<nat>, i: nat)
    ensures i in Shifted(at) <==> i > 0 && (i - 1) in at
  {
    var shifted := Shifted(at);
    if i > 0 && (i - 1) in at {
      var k :| 0 <= k < |at| && at[k] == i - 1;
      assert shifted[k] == i;
    }
  }

  lemma MoreValues(c: Context, e: Expr, rows: seq<Row>, vs: seq<CVal>, later: seq<nat>)
    requires rows != [] && ValuesAt(c, e, rows[1..], vs, later) && Val(c, e, rows[0], None).Ok?
    ensures var v := Val(c, e, rows[0], None).value;
            if v.Null? then ValuesAt(c, e, rows, vs, Shifted(later)) else ValuesAt(c, e, rows, [v] + vs, [0] + Shifted(later))
  {
    ShiftedValues(c, e, rows, vs, later);
    hide *;
    if Val(c, e, rows[0], None) == Ok(Null) { SkipFirst(c, e, rows, vs, Shifted(later)); } else { TakeFirst(c, e, rows, vs, Shifted(later)); }
  }

  /** The values of all rows but the first. */
  predicate ValuesAfter(c: Context, e: Expr, rows: seq<Row>, vs: seq<CVal>, at: seq<nat>) {
    && Increasing(at, |rows|) && |at| == |vs|
    && (forall k | 0 <= k < |at| :: at[k] > 0 && Val(c, e, rows[at[k]], None) == Ok(vs[k]) && vs[k] != Null)
    && (forall i | 0 < i < |rows| && i !in at :: Val(c, e, rows[i], None) == Ok(Null))
  }

  lemma SkipFirst(c: Context, e: Expr, rows: seq<Row>, vs: seq<CVal>, at: seq<nat>)
    requires rows != [] && ValuesAfter(c, e, rows, vs, at) && Val(c, e, rows[0], None) == Ok(Null)
    ensures ValuesAt(c, e, rows, vs, at)
  {
    hide Val, Increasing;
  }

  lemma TakeFirst(c: Context, e: Expr, rows: seq<Row>, vs: seq<CVal>, at: seq<nat>)
    requires rows != [] && ValuesAfter(c, e, rows, vs, at) && Val(c, e, rows[0], None).Ok? && Val(c, e, rows[0], None).value != Null
    ensures ValuesAt(c, e, rows, [Val(c, e, rows[0], None).value] + vs, [0] + at)
  {
    ZeroFirst(at, |rows|);
    hide Val, Increasing;
    var more, all := [0] + at, [Val(c, e, rows[0], None).value] + vs;
    forall k | 0 <= k < |more| ensures Val(c, e, rows[more[k]], None) == Ok(all[k]) && all[k] != Null {
      if k > 0 { assert more[k] == at[k - 1] && all[k] == vs[k - 1]; }
    }
    assert more[0] == 0;
    forall i | 0 <= i < |rows| && i !in more ensures Val(c, e, rows[i], None) == Ok(Null) {
      assert i !in at;
    }
  }

  lemma ZeroFirst(at: seq<nat>, n: nat)
    requires Increasing(at, n) && n > 0 && forall k | 0 <= k < |at| :: at[k] > 0
    ensures Increasing([0] + at, n)
  {
  }

  /** The values of the later rows, at their places among all rows. */
  lemma ShiftedValues(c: Context, e: Expr, rows: seq<Row>, vs: seq<CVal>, later: seq<nat>)
    requires rows != [] && ValuesAt(c, e, rows[1..], vs, later)
    ensures ValuesAfter(c, e, rows, vs, Shifted(later))
  {
    hide Val;
    var at := Shifted(later);
    forall k | 0 <= k < |at| ensures at[k] > 0 && Val(c, e, rows[at[k]], None) == Ok(vs[k]) && vs[k] != Null {
      assert rows[1..][later[k]] == rows[at[k]];
    }
    forall i | 0 < i < |rows| && i !in at ensures Val(c, e, rows[i], None) == Ok(Null) {
      ShiftedHas(later, i);
      assert rows[1..][i - 1] == rows[i];
    }
  }

  /** Two values that are one for DISTINCT and for grouping: the same, but that `true` is 1 and `false` is 0,
      at any depth of lists and maps. */
  predicate SameForDistinct(a: CVal, b: CVal) {
    match a
    case Bool(x) => b == a || b == Num(if x then 1.0 else 0.0)
    case Num(n) => b == a || (b.Bool? && n == if b.b then 1.0 else 0.0)
    case List(items) => b.List? && |b.items| == |items| && forall i | 0 <= i < |items| :: SameForDistinct(items[i], b.items[i])
    case Map(entries) => b.Map? && b.entries.Keys == entries.Keys && forall k | k in entries :: SameForDistinct(entries[k], b.entries[k])
    case _ => b == a
  }

  lemma {:induction false} HashedMeans(a: CVal, b: CVal)
    ensures Hashed(a) == Hashed(b) <==> SameForDistinct(a, b)
    decreases a
  {
    if a.List? && b.List? && |a.items| == |b.items| {
      var xs, ys := Hashed(a).items, Hashed(b).items;
      forall i | 0 <= i < |a.items| ensures SameForDistinct(a.items[i], b.items[i]) <==> xs[i] == ys[i] { HashedMeans(a.items[i], b.items[i]); }
      assert xs == ys <==> forall i | 0 <= i < |a.items| :: xs[i] == ys[i];
    } else if a.List? && b.List? {
      assert |Hashed(a).items| != |Hashed(b).items|;
    } else if a.Map? && b.Map? && a.entries.Keys == b.entries.Keys {
      var m, n := Hashed(a).entries, Hashed(b).entries;
      forall k | k in a.entries ensures SameForDistinct(a.entries[k], b.entries[k]) <==> m[k] == n[k] { HashedMeans(a.entries[k], b.entries[k]); }
      assert m == n <==> forall k | k in a.entries :: m[k] == n[k];
    } else if a.Map? && b.Map? {
      assert Hashed(a).entries.Keys == a.entries.Keys && Hashed(b).entries.Keys == b.entries.Keys;
    }
  }

  /** The value has booleans, or numbers, only where they are allowed. */
  predicate Made(v: CVal, bools: bool, nums: bool) {
    && (v.Bool? ==> bools) && (v.Num? ==> nums)
    && (v.List? ==> forall i | 0 <= i < |v.items| :: Made(v.items[i], bools, nums))
    && (v.Map? ==> forall k | k in v.entries :: Made(v.entries[k], bools, nums))
  }

  lemma {:induction false} MadeApart(a: CVal, b: CVal, bools: bool, nums: bool)
    requires Made(a, bools, nums) && Made(b, bools, nums) && !(bools && nums) && SameForDistinct(a, b)
    ensures a == b
    decreases a
  {
    if a.List? {
      forall i | 0 <= i < |a.items| ensures a.items[i] == b.items[i] { MadeApart(a.items[i], b.items[i], bools, nums); }
    } else if a.Map? {
      forall k | k in a.entries ensures a.entries[k] == b.entries[k] { MadeApart(a.entries[k], b.entries[k], bools, nums); }
    }
  }

  ghost predicate TellsApart(bools: bool, nums: bool) {
    forall a, b | Made(a, bools, nums) && Made(b, bools, nums) && SameForDistinct(a, b) :: a == b
  }

  /** DISTINCT and grouping tell all values apart if and only if there are not both booleans and numbers
      among them. */
  lemma TellsApartIff(bools: bool, nums: bool)
    ensures TellsApart(bools, nums) <==> !(bools && nums)
  {
    if bools && nums {
      var a, b := Bool(true), Num(1.0);
      assert Made(a, bools, nums) && Made(b, bools, nums) && SameForDistinct(a, b) && a != b;
    } else {
      forall a, b | Made(a, bools, nums) && Made(b, bools, nums) && SameForDistinct(a, b) ensures a == b { MadeApart(a, b, bools, nums); }
    }
  }

  /** Rows are in one group if and only if the values of the grouping items are the same for DISTINCT. */
  lemma GroupedTogether(c: Context, keys: seq<Expr>, a: Row, b: Row)
    requires P.KeyOf(c, keys, a).Ok? && P.KeyOf(c, keys, b).Ok?
    ensures forall i | 0 <= i < |keys| :: Val(c, keys[i], a, None).Ok? && Val(c, keys[i], b, None).Ok?
    ensures P.KeyOf(c, keys, a) == P.KeyOf(c, keys, b) <==>
            forall i | 0 <= i < |keys| :: SameForDistinct(Val(c, keys[i], a, None).value, Val(c, keys[i], b, None).value)
  {
    ItemsYield(c, keys, a, None);
    ItemsYield(c, keys, b, None);
    var x, y := P.KeyOf(c, keys, a).value, P.KeyOf(c, keys, b).value;
    var vs, ws := EvalItems(c.g, c.params, keys, a, None).value, EvalItems(c.g, c.params, keys, b, None).value;
    assert |x| == |y| == |keys| && forall i | 0 <= i < |keys| :: x[i] == Hashed(vs[i]) && y[i] == Hashed(ws[i]);
    hide Eval, EvalItems, P.KeyOf, SameForDistinct, Hashed;
    forall i | 0 <= i < |keys| ensures x[i] == y[i] <==> SameForDistinct(vs[i], ws[i]) { HashedMeans(vs[i], ws[i]); }
    assert x == y <==> forall i | 0 <= i < |keys| :: x[i] == y[i];
  }

  /** DISTINCT in an aggregation: of the values that are the same, the first; at the places `at`, in order. */
  predicate FirstsAt(vs: seq<CVal>, us: seq<CVal>, at: seq<nat>) {
    && Increasing(at, |vs|) && |at| == |us| && (forall k | 0 <= k < |at| :: us[k] == vs[at[k]])
    && forall i | 0 <= i < |vs| :: i in at <==> FirstOfItsKind(vs, i)
  }

  predicate FirstOfItsKind(vs: seq<CVal>, i: nat) {
    i < |vs| && forall j | 0 <= j < i :: !SameForDistinct(vs[j], vs[i])
  }

  ghost predicate FirstsOf(vs: seq<CVal>, us: seq<CVal>) {
    exists at: seq<nat> :: FirstsAt(vs, us, at)
  }

  lemma {:induction false} UniqueYields(vs: seq<CVal>) returns (at: seq<nat>)
    ensures FirstsAt(vs, Unique(vs), at)
    decreases |vs|
  {
    at := [];
    if vs != [] {
      hide Hashed, SameForDistinct;
      var n := |vs| - 1;
      var before := UniqueYields(vs[..n]);
      forall i | 0 <= i < n ensures Hashed(vs[i]) == Hashed(vs[n]) <==> SameForDistinct(vs[i], vs[n]) { HashedMeans(vs[i], vs[n]); }
      assert Unique(vs) == if FirstOfItsKind(vs, n) then Unique(vs[..n]) + [vs[n]] else Unique(vs[..n]);
      hide Unique;
      MoreFirsts(vs, Unique(vs[..n]), before);
      at := if FirstOfItsKind(vs, n) then before + [n] else before;
    }
  }

  lemma MoreFirsts(vs: seq<CVal>, us: seq<CVal>, at: seq<nat>)
    requires vs != [] && FirstsAt(vs[..|vs| - 1], us, at)
    ensures var n := |vs| - 1; if FirstOfItsKind(vs, n) then FirstsAt(vs, us + [vs[n]], at + [n]) else FirstsAt(vs, us, at)
  {
    hide SameForDistinct;
    var n := |vs| - 1;
    forall i: nat | i < n ensures FirstOfItsKind(vs[..n], i) <==> FirstOfItsKind(vs, i) {
      assert forall j | 0 <= j <= i :: vs[..n][j] == vs[j];
    }
    if FirstOfItsKind(vs, n) {
      var more := at + [n];
      forall i | 0 <= i < |vs| ensures i in more <==> FirstOfItsKind(vs, i) {
        if i < n { assert i in more <==> i in at; }
      }
    }
  }

  predicate AllOf(vs: seq<CVal>, kind: nat) {
    forall i | 0 <= i < |vs| :: OfKind(vs[i], kind)
  }

  /** `min` and `max`: the first of the least values, and of the greatest. */
  lemma {:induction false} ExtremeYields(vs: seq<CVal>, sign: int, kind: nat)
    requires vs != [] && (sign == 1 || sign == -1) && AllOf(vs, kind)
    ensures Extreme(vs, sign) in vs
    ensures forall i | 0 <= i < |vs| :: sign * OrderCmp(vs[i], Extreme(vs, sign)) <= 0
  {
    hide OrderCmp, OfKind;
    var n := |vs| - 1;
    OrderAntisymmetric(vs[n], vs[n]);
    if n > 0 {
      var best, last := Extreme(vs[..n], sign), vs[n];
      assert forall i | 0 <= i < n :: vs[..n][i] == vs[i];
      ExtremeYields(vs[..n], sign, kind);
      OrderAntisymmetric(last, best);
      if sign * OrderCmp(last, best) > 0 {
        forall i | 0 <= i < n ensures sign * OrderCmp(vs[i], last) <= 0 {
          OrderAntisymmetric(vs[i], best);
          OrderAntisymmetric(vs[i], last);
          assert best in vs;
          if sign == 1 { OrderTransitive(vs[i], best, last, kind); } else { OrderTransitive(last, best, vs[i], kind); }
        }
      }
    }
  }

  /** What is made of the values. */
  ghost predicate Summed(fn: Aggregate, us: seq<CVal>, x: CVal) {
    match fn
    case Count => x == Num(|us| as real)
    case Collect => x == List(us)
    case Min => if us == [] then x == Null else x in us && forall kind: nat | AllOf(us, kind) :: forall i | 0 <= i < |us| :: OrderCmp(x, us[i]) <= 0
    case Max => if us == [] then x == Null else x in us && forall kind: nat | AllOf(us, kind) :: forall i | 0 <= i < |us| :: OrderCmp(us[i], x) <= 0
  }

  lemma SummedUp(fn: Aggregate, us: seq<CVal>)
    ensures Summed(fn, us, Aggregated(fn, us))
  {
    hide OrderCmp, OfKind;
    if us != [] && (fn.Min? || fn.Max?) {
      forall kind: nat | AllOf(us, kind)
        ensures forall i | 0 <= i < |us| :: (if fn.Min? then OrderCmp(Aggregated(fn, us), us[i]) else OrderCmp(us[i], Aggregated(fn, us))) <= 0
      {
        ExtremeYields(us, if fn.Min? then -1 else 1, kind);
        forall i | 0 <= i < |us| ensures fn.Min? ==> OrderCmp(Extreme(us, -1), us[i]) <= 0 { OrderAntisymmetric(Extreme(us, -1), us[i]); }
      }
      ExtremeIsThere(us, if fn.Min? then -1 else 1);
    }
  }

  lemma {:induction false} ExtremeIsThere(vs: seq<CVal>, sign: int)
    requires vs != []
    ensures Extreme(vs, sign) in vs
  {
    hide OrderCmp;
    if |vs| > 1 { ExtremeIsThere(vs[..|vs| - 1], sign); }
  }

  /** An aggregation over a group: made of the values of its argument, without nulls and in order, and
      with DISTINCT of each value once. */
  lemma AggregationYields(c: Context, fn: Aggregate, e: Expr, distinct: bool, row: Row, rows: seq<Row>)
    requires Val(c, Aggregation(fn, e, distinct), row, Some(rows)).Ok?
    ensures exists vs: seq<CVal>, us: seq<CVal>, at: seq<nat> ::
              ValuesAt(c, e, rows, vs, at) && (if distinct then FirstsOf(vs, us) else us == vs)
              && Summed(fn, us, Val(c, Aggregation(fn, e, distinct), row, Some(rows)).value)
  {
    var vs := EvalOver(c.g, c.params, e, rows).value;
    var us := if distinct then Unique(vs) else vs;
    assert Val(c, Aggregation(fn, e, distinct), row, Some(rows)).value == Aggregated(fn, us);
    hide *;
    var at := OverYields(c, e, rows);
    var firsts := UniqueYields(vs);
    SummedUp(fn, us);
  }

  /** `count(*)`, and no aggregation outside a group. */
  lemma CountYields(c: Context, e: Expr, row: Row, rows: seq<Row>)
    ensures Val(c, CountStar, row, Some(rows)) == Ok(Num(|rows| as real))
    ensures e.CountStar? || e.Aggregation? ==> Val(c, e, row, None).Err?
  {
  }

  /** `_children`. */
  function Children(e: Expr): seq<Expr> {
    match e
    case Lit(_) => []
    case Param(_) => []
    case Var(_) => []
    case CountStar => []
    case Prop(e1, _) => [e1]
    case Not(e1) => [e1]
    case Neg(e1) => [e1]
    case IsNull(e1, _) => [e1]
    case HasLabels(e1, _) => [e1]
    case Aggregation(_, e1, _) => [e1]
    case ListOf(items) => items
    case MapOf(entries) => seq(|entries|, i requires 0 <= i < |entries| => entries[i].e)
    case Index(l, r) => [l, r]
    case _ => [e.l, e.r]
  }

  /** An expression has an aggregation if it is one, or a part of it has one. */
  lemma AggregateIn(e: Expr)
    ensures HasAggregate(e) <==> e.CountStar? || e.Aggregation? || exists i :: 0 <= i < |Children(e)| && HasAggregate(Children(e)[i])
  {
    var parts := Children(e);
    if e.MapOf? {
      forall i | 0 <= i < |parts| ensures parts[i] == e.entries[i].e {}
      if i :| 0 <= i < |e.entries| && HasAggregate(e.entries[i].e) { assert HasAggregate(parts[i]); }
    } else if |parts| == 1 {
      assert HasAggregate(e) <==> e.Aggregation? || HasAggregate(parts[0]);
    } else if |parts| == 2 && !e.ListOf? {
      assert HasAggregate(e) <==> HasAggregate(parts[0]) || HasAggregate(parts[1]);
    }
  }

  // --- RETURN and WITH -----------------------------------------------------

  /** The last of the items that go by its alias. */
  predicate LastNamed(items: seq<P.Item>, k: nat) {
    k < |items| && forall i | k < i < |items| :: items[i].alias != items[k].alias
  }

  /** A projected row has the items' aliases, and under each the value of the last item of that name. */
  lemma {:induction false} ItemYields(c: Context, items: seq<P.Item>, k: nat, row: Row, group: Group)
    requires P.Values(c, items, row, group).Ok? && LastNamed(items, k)
    ensures items[k].alias in P.Values(c, items, row, group).value
    ensures Val(c, items[k].e, row, group) == Ok(P.Values(c, items, row, group).value[items[k].alias])
  {
    hide Eval;
    var n := |items| - 1;
    if k < n { ItemYields(c, items[..n], k, row, group); }
  }

  lemma {:induction false} ItemsNamed(c: Context, items: seq<P.Item>, row: Row, group: Group, name: string)
    requires P.Values(c, items, row, group).Ok?
    ensures name in P.Values(c, items, row, group).value <==> exists k :: 0 <= k < |items| && items[k].alias == name
  {
    hide Eval;
    if items != [] {
      var n := |items| - 1;
      ItemsNamed(c, items[..n], row, group, name);
      if k :| 0 <= k < n && items[k].alias == name { assert items[..n][k].alias == name; }
    }
  }

  /** A row of a group has the items' values, seen from the group's first row. */
  lemma GroupYields(c: Context, items: seq<P.Item>, k: nat, group: seq<Row>)
    requires P.GroupEntry(c, items, group).Ok? && LastNamed(items, k)
    ensures var entry, row := P.GroupEntry(c, items, group).value, if group == [] then map[] else group[0];
            entry.scope == entry.out && items[k].alias in entry.out && Val(c, items[k].e, row, Some(group)) == Ok(entry.out[items[k].alias])
  {
    hide P.Values, Val;
    ItemYields(c, items, k, if group == [] then map[] else group[0], Some(group));
  }

  /** The items that group are those without an aggregation. */
  lemma {:induction false} GroupingAre(items: seq<P.Item>, e: Expr)
    ensures e in P.GroupingKeys(items) <==> !HasAggregate(e) && exists i :: 0 <= i < |items| && items[i].e == e
  {
    if items != [] {
      hide HasAggregate;
      GroupingAre(items[1..], e);
      if i :| 0 < i < |items| && items[i].e == e { assert items[1..][i - 1].e == e; }
    }
  }

  /** Of entries with the same row, the first; at the places `at`, in order. */
  predicate FirstEntriesAt(entries: seq<P.Entry>, unique: seq<P.Entry>, at: seq<nat>) {
    && Increasing(at, |entries|) && |at| == |unique| && (forall k | 0 <= k < |at| :: unique[k] == entries[at[k]])
    && forall i | 0 <= i < |entries| :: i in at <==> FirstOfItsRow(entries, i)
  }

  /** DISTINCT keeps the first entry of each row, in order. */
  lemma {:induction false} FirstEntries(entries: seq<P.Entry>) returns (at: seq<nat>)
    ensures FirstEntriesAt(entries, P.UniqueEntries(entries), at)
    decreases |entries|
  {
    at := [];
    if entries != [] {
      hide P.SameRow;
      var n := |entries| - 1;
      var before := FirstEntries(entries[..n]);
      var unique := P.UniqueEntries(entries[..n]);
      assert P.UniqueEntries(entries) == if FirstOfItsRow(entries, n) then unique + [entries[n]] else unique;
      hide P.UniqueEntries;
      MoreFirstEntries(entries, unique, before);
      at := if FirstOfItsRow(entries, n) then before + [n] else before;
    }
  }

  lemma MoreFirstEntries(entries: seq<P.Entry>, unique: seq<P.Entry>, at: seq<nat>)
    requires entries != [] && FirstEntriesAt(entries[..|entries| - 1], unique, at)
    ensures var n := |entries| - 1;
            if FirstOfItsRow(entries, n) then FirstEntriesAt(entries, unique + [entries[n]], at + [n]) else FirstEntriesAt(entries, unique, at)
  {
    hide P.SameRow;
    var n := |entries| - 1;
    forall i: nat | i < n ensures FirstOfItsRow(entries[..n], i) <==> FirstOfItsRow(entries, i) {
      assert forall j | 0 <= j <= i :: entries[..n][j] == entries[j];
    }
    if FirstOfItsRow(entries, n) {
      var more := at + [n];
      forall i | 0 <= i < |entries| ensures i in more <==> FirstOfItsRow(entries, i) {
        if i < n { assert i in more <==> i in at; }
      }
    }
  }

  /** Rows are one for DISTINCT if their values are. */
  lemma SameRows(a: Row, b: Row)
    ensures P.SameRow(a, b) <==> a.Keys == b.Keys && forall k | k in a :: SameForDistinct(a[k], b[k])
  {
    hide Hashed, SameForDistinct;
    forall k | k in a && k in b ensures Hashed(a[k]) == Hashed(b[k]) <==> SameForDistinct(a[k], b[k]) { HashedMeans(a[k], b[k]); }
  }

  predicate FirstOfItsRow(entries: seq<P.Entry>, i: nat) {
    i < |entries| && forall j | 0 <= j < i :: !P.SameRow(entries[j].out, entries[i].out)
  }

  /** A WHERE clause is an error of a row of which the condition is an error, or no truth value. */
  lemma FilterIsRefused(c: Context, e: Expr, row: Row)
    ensures Passes(c, Some(e), row).Ok? <==> IsTruth(Val(c, e, row, None))
  {
    hide Eval;
  }

  /** The first key in which two entries are not level decides, in its own direction. */
  lemma {:induction false} KeysDecide(order: seq<bool>, a: P.Key, b: P.Key)
    requires |order| == |a| == |b|
    ensures P.CompareKeys(order, a, b) < 0 <==> FirstKeyDecides(order, a, b)
  {
    hide OrderCmp;
    if order != [] {
      OrderAntisymmetric(a[0], b[0]);
      if OrderCmp(a[0], b[0]) != 0 {
        assert Level(a, b, 0);
        if FirstKeyDecides(order, a, b) {
          var k :| 0 <= k < |order| && Level(a, b, k) && KeyBefore(order[k], a[k], b[k]);
          assert k == 0;
        }
      } else {
        KeysDecide(order[1..], a[1..], b[1..]);
        if FirstKeyDecides(order[1..], a[1..], b[1..]) {
          var k :| 0 <= k < |order[1..]| && Level(a[1..], b[1..], k) && KeyBefore(order[1..][k], a[1..][k], b[1..][k]);
          forall i | 0 < i < k + 1 ensures OrderCmp(a[i], b[i]) == 0 { assert a[i] == a[1..][i - 1] && b[i] == b[1..][i - 1]; }
          assert Level(a, b, k + 1) && KeyBefore(order[k + 1], a[k + 1], b[k + 1]);
        }
        if FirstKeyDecides(order, a, b) {
          var k :| 0 <= k < |order| && Level(a, b, k) && KeyBefore(order[k], a[k], b[k]);
          assert k > 0;
          assert Level(a[1..], b[1..], k - 1) && KeyBefore(order[1..][k - 1], a[1..][k - 1], b[1..][k - 1]);
        }
      }
    }
  }

  predicate KeyBefore(desc: bool, x: CVal, y: CVal) {
    if desc then OrderCmp(x, y) > 0 else OrderCmp(x, y) < 0
  }

  predicate FirstKeyDecides(order: seq<bool>, a: P.Key, b: P.Key)
    requires |order| == |a| == |b|
  {
    exists k :: 0 <= k < |order| && Level(a, b, k) && KeyBefore(order[k], a[k], b[k])
  }

  /** What an entry is sorted by: the projected item of the key's text, or the key's value. */
  lemma {:induction false} SortValueIs(c: Context, items: seq<P.Item>, order: seq<P.SortKey>, entry: P.Entry, k: nat)
    requires P.SortValues(c, items, order, entry).Ok? && k < |order|
    ensures |P.SortValues(c, items, order, entry).value| == |order|
    ensures var name, v := P.AliasOf(items, order[k].text), P.SortValues(c, items, order, entry).value[k];
            if name.Some? then name.value in entry.out && v == entry.out[name.value]
            else Val(c, order[k].e, entry.scope, None) == Ok(v)
  {
    hide Eval, P.Aggregating, P.AliasOf, HasAggregate;
    P.SortValuesLength(c, items, order, entry);
    P.SortValuesLength(c, items, order[1..], entry);
    if k > 0 { SortValueIs(c, items, order[1..], entry, k - 1); }
  }

  /** The alias of the last item of a text. */
  lemma {:induction false} AliasIs(items: seq<P.Item>, text: string)
    ensures P.AliasOf(items, text).None? <==> forall i | 0 <= i < |items| :: items[i].text != text
    ensures P.AliasOf(items, text).Some? ==>
              exists k :: 0 <= k < |items| && items[k].text == text && P.AliasOf(items, text) == Some(items[k].alias)
                          && forall i | k < i < |items| :: items[i].text != text
  {
    if items != [] {
      var n := |items| - 1;
      AliasIs(items[..n], text);
      if items[n].text != text && P.AliasOf(items, text).Some? {
        var k :| 0 <= k < n && items[..n][k].text == text && P.AliasOf(items[..n], text) == Some(items[..n][k].alias)
                 && forall i | k < i < n :: items[..n][i].text != text;
        assert forall i | 0 <= i < n :: items[..n][i] == items[i];
      }
      assert forall i | 0 <= i < n :: items[..n][i] == items[i];
    }
  }

  /** The sort value of an entry, with one key. */
  predicate SortsBy(c: Context, p: P.Projection, entry: P.Entry, v: CVal) {
    P.SortValues(c, p.items, p.order, entry) == Ok([v])
  }

  /** ORDER BY one key whose values are numbers: ascending the numbers do not fall, descending they do not
      rise, and entries with the same number keep their order. */
  lemma NumbersInOrder(c: Context, p: P.Projection, entries: seq<P.Entry>, places: seq<nat>, i: nat, j: nat, x: real, y: real)
    requires P.InOrder(c, p, entries, places) && |p.order| == 1 && i < j < |places|
    requires forall k | 0 <= k < |entries| :: exists n: real :: SortsBy(c, p, entries[k], Num(n))
    requires places[i] < |entries| && places[j] < |entries|
    requires SortsBy(c, p, entries[places[i]], Num(x)) && SortsBy(c, p, entries[places[j]], Num(y))
    ensures if p.order[0].desc then x >= y else x <= y
    ensures x == y ==> places[i] < places[j]
  {
    var keys: seq<P.Key> :| P.SortedBy(c, p, entries, keys, places);
    forall k | 0 <= k < |keys| ensures P.AllOfKind(keys[k], 0) {
      var n: real :| SortsBy(c, p, entries[k], Num(n));
      assert keys[k] == [Num(n)];
    }
    var order := P.Directions(p.order);
    assert P.Sortable(order, keys, 0);
    assert P.Before(order, keys, places[i], places[j]);
    assert keys[places[i]] == [Num(x)] && keys[places[j]] == [Num(y)];
    OneKey(order, Num(x), Num(y));
  }

  /** ... and one key whose values are texts. */
  lemma TextsInOrder(c: Context, p: P.Projection, entries: seq<P.Entry>, places: seq<nat>, i: nat, j: nat, s: string, t: string)
    requires P.InOrder(c, p, entries, places) && |p.order| == 1 && i < j < |places|
    requires forall k | 0 <= k < |entries| :: exists u: string :: SortsBy(c, p, entries[k], Str(u))
    requires places[i] < |entries| && places[j] < |entries|
    requires SortsBy(c, p, entries[places[i]], Str(s)) && SortsBy(c, p, entries[places[j]], Str(t))
    ensures s == t || if p.order[0].desc then TextBefore(t, s) else TextBefore(s, t)
    ensures s == t ==> places[i] < places[j]
  {
    var keys: seq<P.Key> :| P.SortedBy(c, p, entries, keys, places);
    forall k | 0 <= k < |keys| ensures P.AllOfKind(keys[k], 0) {
      var u: string :| SortsBy(c, p, entries[k], Str(u));
      assert keys[k] == [Str(u)];
    }
    var order := P.Directions(p.order);
    assert P.Sortable(order, keys, 0);
    assert P.Before(order, keys, places[i], places[j]);
    assert keys[places[i]] == [Str(s)] && keys[places[j]] == [Str(t)];
    OneKey(order, Str(s), Str(t));
    hide CompareText, TextBefore, P.CompareKeys;
    TextOrder(s, t);
  }

  lemma OneKey(order: seq<bool>, x: CVal, y: CVal)
    requires |order| == 1
    ensures P.CompareKeys(order, [x], [y]) == if order[0] then -OrderCmp(x, y) else OrderCmp(x, y)
  {
    assert P.CompareKeys(order[1..], [x][1..], [y][1..]) == 0;
  }

  /** SKIP leaves out the first rows, and LIMIT keeps the first of the rest. */
  lemma WindowIs(rows: seq<Row>, skip: nat, limit: Option<nat>)
    ensures var w, left := P.Window(rows, skip, limit), if skip < |rows| then |rows| - skip else 0;
            && |w| == (if limit.Some? && limit.value < left then limit.value else left)
            && forall i | 0 <= i < |w| :: w[i] == rows[skip + i]
  {
  }

  /** The argument of SKIP and LIMIT is a whole number that is not negative, and needs no variables. */
  lemma CountIs(c: Context, e: Expr, n: nat)
    ensures P.CountOf(c, Some(e)) == Ok(Some(n)) <==> Val(c, e, map[], None) == Ok(Num(n as real))
    ensures P.CountOf(c, None) == Ok(None)
    ensures P.CountOf(c, Some(e)).Ok? ==> P.CountOf(c, Some(e)).value.Some?
  {
  }

  // --- MATCH ---------------------------------------------------------------

  /** The properties of a pattern are written out. */
  predicate Plain(props: seq<MapEntry>) {
    forall i | 0 <= i < |props| :: props[i].e.Lit?
  }

  predicate PlainChain(chain: seq<Hop>) {
    forall i | 0 <= i < |chain| :: Plain(chain[i].rel.props) && Plain(chain[i].node.props)
  }

  lemma {:induction false} PlainProps(c: Context, attrs: Attrs, props: seq<MapEntry>, row: Row)
    requires Plain(props)
    ensures PropsOk(c, attrs, props, row).Ok?
  {
    if props != [] { PlainProps(c, attrs, props[1..], row); }
  }

  lemma PlainHop(c: Context, hop: Hop, row: Row, used: set<EdgeKey>, key: EdgeKey, other: NodeId)
    requires Plain(hop.rel.props) && Plain(hop.node.props)
    ensures Accepts(c, hop, row, used, key, other).Ok?
  {
    hide PropsOk, LabelsOk;
    PlainProps(c, RelAttrs(c.g, key), hop.rel.props, row);
    PlainProps(c, NodeAttrs(c.g, other), hop.node.props, row);
  }

  lemma {:induction false} PlainExpand(c: Context, chain: seq<Hop>, n: NodeId, row: Row, used: set<EdgeKey>)
    requires PlainChain(chain)
    ensures Expand(c, chain, n, row, used).Ok?
    decreases |chain|, 1, 0
  {
    hide Candidates;
    if chain != [] { PlainExpandFrom(c, chain, row, used, Candidates(c.g, n, chain[0].rel.direction)); }
  }

  lemma {:induction false} PlainExpandFrom(c: Context, chain: seq<Hop>, row: Row, used: set<EdgeKey>, candidates: seq<(EdgeKey, NodeId)>)
    requires PlainChain(chain) && chain != []
    ensures ExpandFrom(c, chain, row, used, candidates).Ok?
    decreases |chain|, 0, |candidates|
  {
    if candidates != [] {
      hide Accepts, Step;
      var (key, other) := candidates[0];
      PlainHop(c, chain[0], row, used, key, other);
      PlainExpand(c, chain[1..], other, Step(chain[0], row, key, other), used + {key});
      PlainExpandFrom(c, chain, row, used, candidates[1..]);
    }
  }

  lemma {:induction false} PlainFitting(c: Context, pat: NodePat, row: Row, nodes: seq<NodeId>)
    requires Plain(pat.props)
    ensures Fitting(c, pat, row, nodes).Ok?
  {
    if nodes != [] {
      hide PropsOk, LabelsOk;
      PlainProps(c, NodeAttrs(c.g, nodes[0]), pat.props, row);
      PlainFitting(c, pat, row, nodes[1..]);
    }
  }

  lemma {:induction false} EndOfPatterns(c: Context, found: seq<Found>)
    ensures MatchRest(c, [], found).Ok?
  {
    if found != [] { EndOfPatterns(c, found[1..]); }
  }

  lemma {:induction false} PlainFrom(c: Context, p: Pattern, row: Row, nodes: seq<NodeId>)
    requires PlainChain(p.chain)
    ensures MatchFrom(c, [p], row, {}, nodes).Ok?
  {
    if nodes != [] {
      hide Expand, MatchRest, Bound;
      PlainExpand(c, p.chain, nodes[0], Bound(p, row, nodes[0]), {});
      assert [p][1..] == [];
      EndOfPatterns(c, Expand(c, p.chain, nodes[0], Bound(p, row, nodes[0]), {}).value);
      PlainFrom(c, p, row, nodes[1..]);
    }
  }

  /** A pattern whose properties are written out is searched without errors. */
  lemma PlainMatch(c: Context, p: Pattern, row: Row)
    requires Plain(p.first.props) && PlainChain(p.chain) && p.first.name !in row
    ensures MatchPatterns(c, [p], row, {}).Ok?
  {
    hide Fitting, MatchFrom;
    PlainFitting(c, p.first, row, c.g.nodes);
    PlainFrom(c, p, row, Fitting(c, p.first, row, c.g.nodes).value);
  }

  lemma {:induction false} PassingAll(c: Context, filter: Option<Expr>, rows: seq<Row>)
    requires forall i | 0 <= i < |rows| :: Passes(c, filter, rows[i]).Ok?
    ensures Passing(c, filter, rows).Ok?
  {
    hide Passes;
    if rows != [] { PassingAll(c, filter, rows[..|rows| - 1]); }
  }

  /** The row that binds a name to a node. */
  function OneNode(name: string, n: NodeId): Row {
    map[name := NodeRef(n)]
  }

  /** The node has the labels, and the properties with the values that are written out. */
  predicate Fits(g: Graph, pat: NodePat, n: NodeId)
    requires Plain(pat.props)
  {
    && n in g.nodeAttrs && (forall i | 0 <= i < |pat.labels| :: GoesBy(g, n, pat.labels[i]))
    && forall i | 0 <= i < |pat.props| ::
         var p := pat.props[i]; p.key in g.nodeAttrs[n] && g.nodeAttrs[n][p.key] == p.e.v && NullFree(p.e.v)
  }

  lemma NodeFits(c: Context, pat: NodePat, n: NodeId, row: Row)
    requires Plain(pat.props) && n in c.g.nodeAttrs
    ensures NodeHolds(c, n, pat, row) <==> Fits(c.g, pat, n)
  {
    LabelsAre(c.g, n, pat.labels);
    hide LabelsOk, GoesBy, Equals, NullFree;
    forall i | 0 <= i < |pat.props|
      ensures var v := Eval(c.g, c.params, pat.props[i].e, row, None);
              v == Ok(pat.props[i].e.v)
              && (Equals(Lookup(NodeAttrs(c.g, n), pat.props[i].key), v.value).True? <==>
                  var p := pat.props[i]; p.key in c.g.nodeAttrs[n] && c.g.nodeAttrs[n][p.key] == p.e.v && NullFree(p.e.v))
    {
      var p := pat.props[i];
      EqualsIsIdentity(Lookup(NodeAttrs(c.g, n), p.key), p.e.v);
      NullIsNotFree(Null);
    }
  }

  lemma NullIsNotFree(v: CVal)
    ensures NullFree(v) ==> v != Null
  {
  }

  lemma NodeMatches(c: Context, pat: NodePat, r: Row)
    requires Plain(pat.props)
    ensures Matches(c, [Pattern(pat, [])], map[], {}, r) <==> exists n :: Fits(c.g, pat, n) && r == OneNode(pat.name, n)
  {
    var p := Pattern(pat, []);
    assert Vars([p]) == {pat.name};
    assert AllRels([p], r) == [];
    hide Fits, NodeHolds;
    if Matches(c, [p], map[], {}, r) {
      assert PatternHolds(c, [p][0], r);
      var n := r[pat.name].id;
      NodeFits(c, pat, n, r);
      assert r == OneNode(pat.name, n);
    }
    if n :| Fits(c.g, pat, n) && r == OneNode(pat.name, n) {
      assert n in c.g.nodeAttrs by { FitsIsStored(c.g, pat, n); }
      NodeFits(c, pat, n, r);
      assert PatternHolds(c, p, r);
    }
  }

  lemma FitsIsStored(g: Graph, pat: NodePat, n: NodeId)
    requires Plain(pat.props) && Fits(g, pat, n)
    ensures n in g.nodeAttrs
  {
  }

  function NodeClause(pat: NodePat, filter: Option<Expr>): Clause {
    Clause([Pattern(pat, [])], filter, false)
  }

  /** `MATCH (n:L {k: v}) WHERE ...`: its rows are exactly the stored nodes that fit the pattern and of
      which the condition holds, each once. */
  lemma NodesWhere(c: Context, pat: NodePat, filter: Option<Expr>, r: Row)
    requires WellFormed(c.g) && Plain(pat.props)
    requires forall n | Fits(c.g, pat, n) :: Passes(c, filter, OneNode(pat.name, n)).Ok?
    ensures var rows := MatchRow(c, NodeClause(pat, filter), map[]);
            rows.Ok? && Distinct(rows.value)
            && (r in rows.value <==> exists n :: Fits(c.g, pat, n) && r == OneNode(pat.name, n) && (filter.None? || Holds(c, filter.value, r)))
  {
    var clause, p := NodeClause(pat, filter), Pattern(pat, []);
    PlainMatch(c, p, map[]);
    assert PatternsApart(clause.patterns) && Live(c.g, map[]);
    var found := MatchPatterns(c, [p], map[], {}).value;
    hide Fits, Holds, WellFormed, PatternsApart, Matches, MatchPatterns, OneNode, Passing, Passes, FilterHolds;
    MatchExact(c, [p], map[]);
    forall i | 0 <= i < |found| ensures Passes(c, filter, found[i]).Ok? {
      assert found[i] in found;
      NodeMatches(c, pat, found[i]);
    }
    PassingAll(c, filter, found);
    MatchRowExact(c, clause, map[]);
    NodeMatches(c, pat, r);
    if exists n :: Fits(c.g, pat, n) && r == OneNode(pat.name, n) { FilterMeans(c, filter, r); }
  }

  lemma FilterMeans(c: Context, filter: Option<Expr>, r: Row)
    requires Passes(c, filter, r).Ok?
    ensures FilterHolds(c, filter, r) <==> filter.None? || Holds(c, filter.value, r)
  {
    hide Holds, Fails, Eval;
    if filter.Some? { ConditionMeans(c, filter.value, r); }
  }

  /** `MATCH (n) WHERE n.k > x`: exactly the stored nodes whose attribute `k` is a number above `x`. */
  lemma NodesAbove(c: Context, name: string, k: string, x: real, r: Row)
    requires WellFormed(c.g)
    ensures var rows := MatchRow(c, NodeClause(NodePat(name, [], []), Some(Compared(Greater, Prop(Var(name), k), Lit(Num(x))))), map[]);
            rows.Ok? && Distinct(rows.value)
            && (r in rows.value <==>
                exists n :: n in c.g.nodeAttrs && r == map[name := NodeRef(n)]
                            && k in c.g.nodeAttrs[n] && c.g.nodeAttrs[n][k].Num? && c.g.nodeAttrs[n][k].n > x)
  {
    var pat, e := NodePat(name, [], []), Compared(Greater, Prop(Var(name), k), Lit(Num(x)));
    forall n | n in c.g.nodeAttrs
      ensures Passes(c, Some(e), OneNode(name, n)).Ok?
      ensures Holds(c, e, OneNode(name, n)) <==> k in c.g.nodeAttrs[n] && c.g.nodeAttrs[n][k].Num? && c.g.nodeAttrs[n][k].n > x
    {
      AboveHolds(c, name, k, x, n);
    }
    forall n ensures Fits(c.g, pat, n) <==> n in c.g.nodeAttrs {}
    hide Fits, Passes, Holds, MatchRow, WellFormed;
    NodesWhere(c, pat, Some(e), r);
  }

  lemma AboveHolds(c: Context, name: string, k: string, x: real, n: NodeId)
    requires n in c.g.nodeAttrs
    ensures var e := Compared(Greater, Prop(Var(name), k), Lit(Num(x)));
            && Passes(c, Some(e), OneNode(name, n)).Ok?
            && (Holds(c, e, OneNode(name, n)) <==> k in c.g.nodeAttrs[n] && c.g.nodeAttrs[n][k].Num? && c.g.nodeAttrs[n][k].n > x)
  {
    var row := OneNode(name, n);
    var l, r := Prop(Var(name), k), Lit(Num(x));
    assert Val(c, Var(name), row, None) == Ok(NodeRef(n));
    assert Val(c, l, row, None) == Ok(Lookup(c.g.nodeAttrs[n], k));
    assert Val(c, r, row, None) == Ok(Num(x));
    hide Eval, OrderCmp;
    BinaryReady(c, Compared(Greater, l, r), row, None);
    ComparedTruth(c, Compared(Greater, l, r), row);
  }

  lemma ComparedTruth(c: Context, e: Expr, row: Row)
    requires e.Compared? && Val(c, e, row, None).Ok?
    ensures Passes(c, Some(e), row).Ok?
  {
    hide Compare;
  }

  /** The row of a hop, from node `n` over relation `e` to node `m`. */
  function OneHop(a: string, rel: string, b: string, n: NodeId, e: EdgeKey, m: NodeId): Row {
    map[a := NodeRef(n), rel := RelRef(e), b := NodeRef(m)]
  }

  /** A relation read from `n` to `m`: along its direction, against it, or either way. */
  predicate Leads(direction: Direction, e: EdgeKey, n: NodeId, m: NodeId) {
    match direction
    case Outward => n == e.0 && m == e.1
    case Inward => n == e.1 && m == e.0
    case Either => (n == e.0 && m == e.1) || (n == e.1 && m == e.0)
  }

  /** `MATCH (a)-[r:T]->(b)`, or the other way, or either way: its rows are exactly the stored relations
      of these types with their ends, each once; a self-loop is one row. */
  lemma HopsAre(c: Context, a: string, rel: string, b: string, types: seq<string>, direction: Direction, r: Row)
    requires WellFormed(c.g) && a != rel && rel != b && a != b
    ensures var p := Pattern(NodePat(a, [], []), [Hop(RelPat(rel, types, [], direction), NodePat(b, [], []))]);
            var rows := MatchRow(c, Clause([p], None, false), map[]);
            rows.Ok? && Distinct(rows.value)
            && (r in rows.value <==>
                exists e: EdgeKey, n: NodeId, m: NodeId ::
                  e in c.g.edgeAttrs && (types == [] || e.2 in types) && Leads(direction, e, n, m) && r == OneHop(a, rel, b, n, e, m))
  {
    var hop := Hop(RelPat(rel, types, [], direction), NodePat(b, [], []));
    var p := Pattern(NodePat(a, [], []), [hop]);
    PlainMatch(c, p, map[]);
    var found := MatchPatterns(c, [p], map[], {}).value;
    assert PatternsApart([p]) && Live(c.g, map[]);
    hide WellFormed, Matches, MatchPatterns, PatternsApart, Live, OneHop, Leads;
    PassingAll(c, None, found);
    MatchRowExact(c, Clause([p], None, false), map[]);
    HopMatches(c, a, hop, r);
  }

  lemma HopMatches(c: Context, a: string, hop: Hop, r: Row)
    requires WellFormed(c.g) && a != hop.rel.name && hop.rel.name != hop.node.name && a != hop.node.name
    requires hop.rel.props == [] && hop.node.props == [] && hop.node.labels == []
    ensures Matches(c, [Pattern(NodePat(a, [], []), [hop])], map[], {}, r) <==>
            exists e: EdgeKey, n: NodeId, m: NodeId ::
              e in c.g.edgeAttrs && (hop.rel.types == [] || e.2 in hop.rel.types) && Leads(hop.rel.direction, e, n, m)
              && r == OneHop(a, hop.rel.name, hop.node.name, n, e, m)
  {
    var p := Pattern(NodePat(a, [], []), [hop]);
    MatchesOne(c, p, hop, r);
    hide Matches, PatternHolds, Leads, OneHop, WellFormed;
    if e: EdgeKey, n: NodeId, m: NodeId :|
        e in c.g.edgeAttrs && (hop.rel.types == [] || e.2 in hop.rel.types) && Leads(hop.rel.direction, e, n, m)
        && r == OneHop(a, hop.rel.name, hop.node.name, n, e, m)
    {
      HopRowIs(a, hop.rel.name, hop.node.name, n, e, m);
      HopRow(c, a, hop, r, e, n, m);
    } else if Matches(c, [p], map[], {}, r) {
      PatternRow(c, a, hop, r);
      HopRow(c, a, hop, r, r[hop.rel.name].key, r[a].id, r[hop.node.name].id);
    }
  }

  lemma MatchesOne(c: Context, p: Pattern, hop: Hop, r: Row)
    requires p.chain == [hop]
    ensures Matches(c, [p], map[], {}, r) <==> r.Keys == {p.first.name, hop.rel.name, hop.node.name} && PatternHolds(c, p, r)
  {
    hide PatternHolds;
    assert [hop][1..] == [] && [p][1..] == [];
    assert ChainVars([hop]) == {hop.rel.name, hop.node.name} + ChainVars([]);
    assert Vars([p]) == {p.first.name, hop.rel.name, hop.node.name};
    assert AllRels([p], r) == [RelIn(r, hop.rel.name)];
    assert [p][0] == p;
  }

  lemma HopRowIs(a: string, rel: string, b: string, n: NodeId, e: EdgeKey, m: NodeId)
    requires a != rel && rel != b && a != b
    ensures var r := OneHop(a, rel, b, n, e, m); r.Keys == {a, rel, b} && r[a] == NodeRef(n) && r[rel] == RelRef(e) && r[b] == NodeRef(m)
  {
  }

  lemma HopRowSame(a: string, rel: string, b: string, r: Row, n: NodeId, e: EdgeKey, m: NodeId)
    requires r.Keys == {a, rel, b} && r[a] == NodeRef(n) && r[rel] == RelRef(e) && r[b] == NodeRef(m)
    ensures r == OneHop(a, rel, b, n, e, m)
  {
  }

  lemma PatternRow(c: Context, a: string, hop: Hop, r: Row)
    requires PatternHolds(c, Pattern(NodePat(a, [], []), [hop]), r)
    ensures IsNode(r, a) && IsRel(r, hop.rel.name) && IsNode(r, hop.node.name)
  {
    hide NodeHolds, PropsHold;
    assert HopHolds(c, hop, r[a].id, r);
  }

  lemma HopRow(c: Context, a: string, hop: Hop, r: Row, e: EdgeKey, n: NodeId, m: NodeId)
    requires WellFormed(c.g) && hop.rel.props == [] && hop.node.props == [] && hop.node.labels == []
    requires r.Keys == {a, hop.rel.name, hop.node.name} && r[a] == NodeRef(n) && r[hop.rel.name] == RelRef(e) && r[hop.node.name] == NodeRef(m)
    ensures PatternHolds(c, Pattern(NodePat(a, [], []), [hop]), r) <==>
            e in c.g.edgeAttrs && (hop.rel.types == [] || e.2 in hop.rel.types) && Leads(hop.rel.direction, e, n, m)
    ensures r == OneHop(a, hop.rel.name, hop.node.name, n, e, m)
  {
    assert NodeHolds(c, n, NodePat(a, [], []), r) && NodeHolds(c, m, hop.node, r) && PropsHold(c, RelAttrs(c.g, e), hop.rel.props, r);
    hide NodeHolds, PropsHold;
    assert Joins(e, hop.rel.direction, n, m) <==> Leads(hop.rel.direction, e, n, m);
    assert ChainHolds(c, [hop], n, r) <==> HopHolds(c, hop, n, r);
    assert e in c.g.edgeAttrs ==> e.0 in c.g.nodeAttrs && e.1 in c.g.nodeAttrs;
    HopRowSame(a, hop.rel.name, hop.node.name, r, n, e, m);
    hide WellFormed, ChainHolds, OneHop, Joins;
  }

  /** A pattern that begins at a variable bound to anything but a node or null is an error; at null it has
      no match. */
  lemma NoNodeToBeginAt(c: Context, p: Pattern, patterns: seq<Pattern>, row: Row, used: set<EdgeKey>)
    requires p.first.name in row && !row[p.first.name].NodeRef?
    ensures MatchPatterns(c, [p] + patterns, row, used) == if row[p.first.name].Null? then Ok([]) else Err(WrongType)
  {
    assert ([p] + patterns)[0] == p;
  }

  /** The properties of a pattern are evaluated in order, until one does not fit; the first of these that
      has no value is an error. */
  lemma {:induction false} PropsRefused(c: Context, attrs: Attrs, props: seq<MapEntry>, row: Row)
    ensures PropsOk(c, attrs, props, row).Err? <==> exists i :: 0 <= i < |props| && FirstRefused(c, attrs, props, row, i)
    decreases |props|
  {
    if props != [] {
      hide Eval, Equals;
      PropsRefused(c, attrs, props[1..], row);
      var v := Val(c, props[0].e, row, None);
      if v.Err? {
        assert FirstRefused(c, attrs, props, row, 0);
      } else if Equals(Lookup(attrs, props[0].key), v.value).True? {
        if i :| 0 <= i < |props[1..]| && FirstRefused(c, attrs, props[1..], row, i) {
          forall j | 0 <= j < i + 1 ensures PropFits(c, attrs, props[j], row) { assert j > 0 ==> props[j] == props[1..][j - 1]; }
          assert FirstRefused(c, attrs, props, row, i + 1);
        }
        if i :| 0 <= i < |props| && FirstRefused(c, attrs, props, row, i) {
          assert i > 0;
          assert forall j | 0 <= j < i - 1 :: props[1..][j] == props[j + 1];
          assert FirstRefused(c, attrs, props[1..], row, i - 1);
        }
      } else {
        forall i | 0 <= i < |props| ensures !FirstRefused(c, attrs, props, row, i) { assert !PropFits(c, attrs, props[0], row); }
      }
    }
  }

  predicate PropFits(c: Context, attrs: Attrs, entry: MapEntry, row: Row) {
    var v := Val(c, entry.e, row, None);
    v.Ok? && Equals(Lookup(attrs, entry.key), v.value).True?
  }

  predicate FirstRefused(c: Context, attrs: Attrs, props: seq<MapEntry>, row: Row, i: nat)
    requires i < |props|
  {
    Val(c, props[i].e, row, None).Err? && forall j | 0 <= j < i :: PropFits(c, attrs, props[j], row)
  }

  /** A row without a match in an OPTIONAL MATCH: what it has stays, and the new variables are null. */
  lemma NoMatchIsNull(clause: Clause, row: Row)
    ensures Unmatched(clause, row).Keys == row.Keys + Vars(clause.patterns)
    ensures forall v | v in row :: Unmatched(clause, row)[v] == row[v]
    ensures forall v | v in Vars(clause.patterns) && v !in row :: Unmatched(clause, row)[v] == Null
  {
  }

  // --- Rows come in the order of the nodes ---------------------------------

  /** The places `at` of a sequence's places, among the places `base` of another. */
  function PlacesOf(base: seq<nat>, at: seq<nat>): (r: seq<nat>)
    requires forall i | 0 <= i < |at| :: at[i] < |base|
    ensures |r| == |at| && forall i | 0 <= i < |at| :: r[i] == base[at[i]]
  {
    seq(|at|, i requires 0 <= i < |at| => base[at[i]])
  }

  lemma {:induction false} FittingInOrder(c: Context, pat: NodePat, row: Row, nodes: seq<NodeId>) returns (at: seq<nat>)
    requires Fitting(c, pat, row, nodes).Ok?
    ensures var fitting := Fitting(c, pat, row, nodes).value;
            Increasing(at, |nodes|) && |at| == |fitting| && forall i | 0 <= i < |at| :: fitting[i] == nodes[at[i]]
    decreases |nodes|
  {
    at := [];
    if nodes != [] {
      hide NodeOk;
      var later := FittingInOrder(c, pat, row, nodes[1..]);
      at := Shifted(later);
      if NodeOk(c, nodes[0], pat, row).value {
        ZeroFirst(at, |nodes|);
        at := [0] + at;
      }
    }
  }

  /** The rows that pass a condition: those at the places `at`, in order, of which it holds. */
  predicate PassAt(c: Context, filter: Option<Expr>, rows: seq<Row>, kept: seq<Row>, at: seq<nat>) {
    && Increasing(at, |rows|) && |at| == |kept| && (forall i | 0 <= i < |at| :: kept[i] == rows[at[i]])
    && forall i | 0 <= i < |rows| :: i in at <==> filter.None? || Holds(c, filter.value, rows[i])
  }

  lemma {:induction false} PassingInOrder(c: Context, filter: Option<Expr>, rows: seq<Row>) returns (at: seq<nat>)
    requires Passing(c, filter, rows).Ok?
    ensures PassAt(c, filter, rows, Passing(c, filter, rows).value, at)
    decreases |rows|
  {
    at := [];
    if rows != [] {
      hide Passes, Holds;
      var n := |rows| - 1;
      var before := PassingInOrder(c, filter, rows[..n]);
      PassesMeans(c, filter, rows[n]);
      FilterMeans(c, filter, rows[n]);
      OneMorePasses(c, filter, rows, Passing(c, filter, rows[..n]).value, before);
      at := if Passes(c, filter, rows[n]).value then before + [n] else before;
    }
  }

  lemma OneMorePasses(c: Context, filter: Option<Expr>, rows: seq<Row>, kept: seq<Row>, at: seq<nat>)
    requires rows != [] && PassAt(c, filter, rows[..|rows| - 1], kept, at)
    ensures var n := |rows| - 1;
            if filter.None? || Holds(c, filter.value, rows[n]) then PassAt(c, filter, rows, kept + [rows[n]], at + [n])
            else PassAt(c, filter, rows, kept, at)
  {
    hide Holds;
    var n := |rows| - 1;
    assert forall i | 0 <= i < n :: rows[..n][i] == rows[i];
    if filter.None? || Holds(c, filter.value, rows[n]) {
      var more := at + [n];
      forall i | 0 <= i < |rows| ensures i in more <==> filter.None? || Holds(c, filter.value, rows[i]) {
        if i < n { assert i in more <==> i in at; }
      }
    }
  }

  lemma {:induction false} RowsOfNodes(c: Context, pat: NodePat, nodes: seq<NodeId>)
    ensures var rows := MatchFrom(c, [Pattern(pat, [])], map[], {}, nodes);
            rows.Ok? && |rows.value| == |nodes| && forall i | 0 <= i < |nodes| :: rows.value[i] == OneNode(pat.name, nodes[i])
    decreases |nodes|
  {
    if nodes != [] {
      var p := Pattern(pat, []);
      RowsOfNodes(c, pat, nodes[1..]);
      assert [p][1..] == [];
      var row := Bound(p, map[], nodes[0]);
      var found: seq<Found> := [(row, {})];
      assert Expand(c, p.chain, nodes[0], row, {}) == Ok(found);
      assert found[1..] == [];
      assert MatchRest(c, [], found[1..]) == Ok([]);
      assert MatchPatterns(c, [], row, {}) == Ok([row]);
      assert [row] + [] == [row];
      assert MatchRest(c, [], found) == Ok([row]);
    }
  }

  /** The rows of `MATCH (n:L {k: v}) WHERE ...` come in the order in which the nodes are stored. */
  lemma NodesInOrder(c: Context, pat: NodePat, filter: Option<Expr>) returns (at: seq<nat>)
    requires MatchRow(c, NodeClause(pat, filter), map[]).Ok?
    ensures var rows := MatchRow(c, NodeClause(pat, filter), map[]).value;
            Increasing(at, |c.g.nodes|) && |at| == |rows| && forall i | 0 <= i < |at| :: rows[i] == OneNode(pat.name, c.g.nodes[at[i]])
  {
    var fitting := Fitting(c, pat, map[], c.g.nodes).value;
    var found := MatchPatterns(c, [Pattern(pat, [])], map[], {}).value;
    RowsOfNodes(c, pat, fitting);
    hide Fitting, MatchFrom, Passing, OneNode, Holds;
    var fits := FittingInOrder(c, pat, map[], c.g.nodes);
    var passes := PassingInOrder(c, filter, found);
    at := PlacesOf(fits, passes);
  }

  // --- A whole projection --------------------------------------------------

  /** Of the entries `kept`, in the order of `places`, the rows are those between SKIP and LIMIT of which the
      condition holds; `at` are their places there. */
  predicate RowsOf(c: Context, kept: seq<P.Entry>, places: seq<nat>, skip: nat, limit: Option<nat>, filter: Option<Expr>,
                   rows: seq<Row>, at: seq<nat>)
  {
    && |places| == |kept| && (forall i | 0 <= i < |places| :: places[i] < |kept|)
    && Increasing(at, Size(|kept|, skip, limit)) && |at| == |rows|
    && (forall k | 0 <= k < |at| :: rows[k] == kept[places[skip + at[k]]].out)
    && forall i | 0 <= i < Size(|kept|, skip, limit) :: i in at <==> filter.None? || Holds(c, filter.value, kept[places[skip + i]].out)
  }

  /** The rows a RETURN or WITH clause ends with: of its entries, without repetitions if it says DISTINCT,
      in their order, those between SKIP and LIMIT of which the WHERE condition holds. */
  lemma ClauseReads(c: Context, p: P.Projection, entries: seq<P.Entry>, places: seq<nat>, r: Result<seq<Row>, CypherError>)
    returns (at: seq<nat>)
    requires P.Finished(c, p, entries, places, r) && r.Ok?
    ensures RowsOf(c, if p.distinct then P.UniqueEntries(entries) else entries, places,
                   GetOr(P.CountOf(c, p.skip).value, 0), P.CountOf(c, p.limit).value, p.filter, r.value, at)
  {
    var kept := if p.distinct then P.UniqueEntries(entries) else entries;
    var skip, limit := GetOr(P.CountOf(c, p.skip).value, 0), P.CountOf(c, p.limit).value;
    hide P.UniqueEntries, P.CountOf, P.InOrder, P.Window, Passing, RowsOf, PassAt;
    Ordered(c, p, kept, places);
    WindowReads(kept, places, skip, limit);
    at := PassingInOrder(c, p.filter, P.Window(P.Outs(kept, places), skip, limit));
    PassedRows(c, kept, places, skip, limit, p.filter, P.Window(P.Outs(kept, places), skip, limit), r.value, at);
  }

  lemma PassedRows(c: Context, kept: seq<P.Entry>, places: seq<nat>, skip: nat, limit: Option<nat>, filter: Option<Expr>,
                   w: seq<Row>, rows: seq<Row>, at: seq<nat>)
    requires |places| == |kept| && (forall i | 0 <= i < |places| :: places[i] < |kept|) && PassAt(c, filter, w, rows, at)
    requires |w| == Size(|kept|, skip, limit) && forall i | 0 <= i < |w| :: skip + i < |kept| && w[i] == kept[places[skip + i]].out
    ensures RowsOf(c, kept, places, skip, limit, filter, rows, at)
  {
    hide Holds, Size;
  }

  /** How many of `n` rows are between SKIP and LIMIT. */
  function Size(n: nat, skip: nat, limit: Option<nat>): (size: nat)
    ensures size > 0 ==> skip + size <= n
  {
    var left := if skip < n then n - skip else 0;
    if limit.Some? && limit.value < left then limit.value else left
  }

  lemma Ordered(c: Context, p: P.Projection, kept: seq<P.Entry>, places: seq<nat>)
    requires P.InOrder(c, p, kept, places)
    ensures P.Shuffle(|kept|, places)
  {
  }

  lemma WindowReads(kept: seq<P.Entry>, places: seq<nat>, skip: nat, limit: Option<nat>)
    requires P.Shuffle(|kept|, places)
    ensures |places| == |kept| && forall i | 0 <= i < |places| :: places[i] < |kept|
    ensures var w := P.Window(P.Outs(kept, places), skip, limit);
            |w| == Size(|kept|, skip, limit) && forall i | 0 <= i < |w| :: skip + i < |kept| && w[i] == kept[places[skip + i]].out
  {
    hide P.Window;
    WindowIs(P.Outs(kept, places), skip, limit);
  }

  /** `RETURN n.k AS a ORDER BY a LIMIT m`, where all values are numbers: the least of them, or descending
      the greatest, in order; every row that is left out has a value no better than any that is returned. */
  lemma BestRows(c: Context, p: P.Projection, rows: seq<Row>, entries: seq<P.Entry>, places: seq<nat>, r: Result<seq<Row>, CypherError>, m: nat)
    requires P.OnePerRow(c, p.items, rows, entries) && P.Finished(c, p, entries, places, r)
    requires |p.items| == 1 && |p.order| == 1 && p.order[0].text == p.items[0].text
    requires !p.distinct && p.skip.None? && p.filter.None? && P.CountOf(c, p.limit) == Ok(Some(m))
    requires forall i | 0 <= i < |rows| :: var v := Val(c, p.items[0].e, rows[i], None); v.Ok? && v.value.Num?
    ensures |places| == |rows| && (forall i | 0 <= i < |places| :: places[i] < |rows|) && Distinct(places)
    ensures r.Ok? && |r.value| == if m < |rows| then m else |rows|
    ensures forall i | 0 <= i < |r.value| :: r.value[i] == map[p.items[0].alias := Val(c, p.items[0].e, rows[places[i]], None).value]
    ensures forall i, j | 0 <= i < j < |places| ::
              var x, y := Val(c, p.items[0].e, rows[places[i]], None).value.n, Val(c, p.items[0].e, rows[places[j]], None).value.n;
              if p.order[0].desc then x >= y else x <= y
  {
    var item := p.items[0];
    forall i | 0 <= i < |rows|
      ensures var v := Val(c, item.e, rows[i], None).value; entries[i].out == map[item.alias := v] && SortsBy(c, p, entries[i], Num(v.n))
    {
      OneItem(c, p, rows[i], entries[i]);
    }
    var w := P.Outs(entries, places);
    WindowIs(w, 0, Some(m));
    AllPass(c, p.filter, P.Window(w, 0, Some(m)));
    hide Val, P.InOrder, P.Window, Passing, SortsBy, P.Values;
    forall i, j | 0 <= i < j < |places|
      ensures var x, y := Val(c, item.e, rows[places[i]], None).value.n, Val(c, item.e, rows[places[j]], None).value.n;
              if p.order[0].desc then x >= y else x <= y
    {
      var x, y := Val(c, item.e, rows[places[i]], None).value.n, Val(c, item.e, rows[places[j]], None).value.n;
      NumbersInOrder(c, p, entries, places, i, j, x, y);
    }
  }

  /** One item, by which the rows are sorted. */
  lemma OneItem(c: Context, p: P.Projection, row: Row, entry: P.Entry)
    requires |p.items| == 1 && |p.order| == 1 && p.order[0].text == p.items[0].text
    requires var out := P.Values(c, p.items, row, None); out.Ok? && entry == P.Entry(out.value, row + out.value)
    ensures Val(c, p.items[0].e, row, None).Ok?
    ensures var v := Val(c, p.items[0].e, row, None).value; entry.out == map[p.items[0].alias := v] && SortsBy(c, p, entry, v)
  {
    hide Eval, HasAggregate;
    assert p.items[..0] == [] && p.order[1..] == [];
    assert P.AliasOf(p.items, p.order[0].text) == Some(p.items[0].alias);
    assert P.SortValues(c, p.items, p.order[1..], entry) == Ok([]);
    var v := Val(c, p.items[0].e, row, None).value;
    assert entry.out == map[p.items[0].alias := v];
    assert [v] + [] == [v];
  }

  /** Without a condition every row passes. */
  lemma {:induction false} AllPass(c: Context, filter: Option<Expr>, rows: seq<Row>)
    requires filter.None?
    ensures var kept := Passing(c, filter, rows);
            kept.Ok? && |kept.value| == |rows| && forall i | 0 <= i < |rows| :: kept.value[i] == rows[i]
    decreases |rows|
  {
    if rows != [] {
      assert Passes(c, filter, rows[|rows| - 1]) == Ok(true);
      hide Passes;
      AllPass(c, filter, rows[..|rows| - 1]);
    }
  }
}
