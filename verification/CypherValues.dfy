/** The values of the read-only Cypher engine (cvcdocdb/nx_cypher.py): three-valued comparison and
    the total order of ORDER BY. */
module CypherValues {
  import opened Decimals

  type NodeId = nat
  type EdgeKey = (NodeId, NodeId, string)

  /** Numbers are exact, so `1` and `1.0` are one value. A date or a time is its kind and a position
      among the values of that kind. */
  datatype CVal =
    | Null
    | Bool(b: bool)
    | Num(n: real)
    | Str(s: string)
    | List(items: seq<CVal>)
    | Map(entries: map<string, CVal>)
    | NodeRef(id: NodeId)
    | RelRef(key: EdgeKey)
    | Temporal(kind: nat, position: int)

  /** True, false or unknown. */
  datatype Truth = True | False | Unknown

  function Decided(b: bool): Truth {
    if b then True else False
  }

  // --- Equality ------------------------------------------------------------

  /** `_equals`. */
  function Equals(a: CVal, b: CVal): Truth {
    if a.Null? || b.Null? then Unknown
    else if a.List? && b.List? then
      if |a.items| != |b.items| then False else EqualsAll(a.items, b.items)
    else Decided(a == b)
  }

  function EqualsAll(xs: seq<CVal>, ys: seq<CVal>): Truth
    requires |xs| == |ys|
  {
    if xs == [] then True
    else
      var eq := Equals(xs[0], ys[0]);
      if eq.False? then False
      else
        var rest := EqualsAll(xs[1..], ys[1..]);
        if rest.False? || eq.True? then rest else Unknown
  }

  /** No null is a list item at any depth. */
  predicate NullFree(v: CVal) {
    !v.Null? && (v.List? ==> forall i | 0 <= i < |v.items| :: NullFree(v.items[i]))
  }

  /** Equality is surely true of identical values without nulls, and of nothing else. */
  lemma {:induction false} EqualsIsIdentity(a: CVal, b: CVal)
    ensures Equals(a, b).True? <==> a == b && NullFree(a)
    decreases a
  {
    if a.List? && b.List? && |a.items| == |b.items| {
      EqualsAllIsIdentity(a.items, b.items);
    }
  }

  lemma {:induction false} EqualsAllIsIdentity(xs: seq<CVal>, ys: seq<CVal>)
    requires |xs| == |ys|
    ensures EqualsAll(xs, ys).True? <==> xs == ys && forall i | 0 <= i < |xs| :: NullFree(xs[i])
    decreases xs
  {
    if xs != [] {
      EqualsIsIdentity(xs[0], ys[0]);
      EqualsAllIsIdentity(xs[1..], ys[1..]);
      assert xs == [xs[0]] + xs[1..] && ys == [ys[0]] + ys[1..];
      assert xs == ys <==> xs[0] == ys[0] && xs[1..] == ys[1..];
      if EqualsAll(xs, ys).True? {
        forall i | 0 <= i < |xs| ensures NullFree(xs[i]) {
          if i > 0 { assert xs[i] == xs[1..][i - 1]; }
        }
      }
    }
  }

  lemma {:induction false} EqualsSymmetric(a: CVal, b: CVal)
    ensures Equals(a, b) == Equals(b, a)
    decreases a
  {
    if a.List? && b.List? && |a.items| == |b.items| {
      EqualsAllSymmetric(a.items, b.items);
    }
  }

  lemma {:induction false} EqualsAllSymmetric(xs: seq<CVal>, ys: seq<CVal>)
    requires |xs| == |ys|
    ensures EqualsAll(xs, ys) == EqualsAll(ys, xs)
    decreases xs
  {
    if xs != [] {
      EqualsSymmetric(xs[0], ys[0]);
      EqualsAllSymmetric(xs[1..], ys[1..]);
    }
  }

  // --- Comparison ----------------------------------------------------------

  function Sign(x: int): int {
    if x < 0 then -1 else if x > 0 then 1 else 0
  }

  /** Python's order of strings: by code points, a prefix first. */
  function CompareText(a: string, b: string): int {
    if a == [] || b == [] then Sign(|a| - |b|)
    else if a[0] != b[0] then if a[0] < b[0] then -1 else 1
    else CompareText(a[1..], b[1..])
  }

  datatype Comparison = Less | LessOrEqual | Greater | GreaterOrEqual

  function Decide(op: Comparison, sign: int): bool {
    match op
    case Less => sign < 0
    case LessOrEqual => sign <= 0
    case Greater => sign > 0
    case GreaterOrEqual => sign >= 0
  }

  /** `_compare`: unknown unless both are numbers, both strings or both booleans. */
  function Compare(op: Comparison, a: CVal, b: CVal): Truth {
    if a.Null? || b.Null? then Unknown
    else if (a.Num? && b.Num?) || (a.Str? && b.Str?) || (a.Bool? && b.Bool?) then Decided(Decide(op, OrderCmp(a, b)))
    else Unknown
  }

  function Rank(v: CVal): nat {
    match v
    case Map(_) => 0
    case NodeRef(_) => 1
    case RelRef(_) => 2
    case List(_) => 3
    case Temporal(_, _) => 4
    case Str(_) => 5
    case Bool(_) => 6
    case Num(_) => 7
    case Null => 8
  }

  /** `str(key)` of a relationship key. */
  function RelText(key: EdgeKey): string {
    "(" + ShowNat(key.0) + ", " + ShowNat(key.1) + ", '" + key.2 + "')"
  }

  function Truthness(b: bool): int {
    if b then 1 else 0
  }

  /** `_order_cmp`. Values of one rank that Python cannot compare, and maps, count as equal. */
  function OrderCmp(a: CVal, b: CVal): int {
    if a.Null? || b.Null? then Truthness(a.Null?) - Truthness(b.Null?)
    else if Rank(a) != Rank(b) then if Rank(a) < Rank(b) then -1 else 1
    else match a
      case List(items) => OrderLists(items, b.items)
      case NodeRef(id) => Sign(id - b.id)
      case RelRef(key) => CompareText(RelText(key), RelText(b.key))
      case Map(_) => 0
      case Temporal(kind, position) => if kind == b.kind then Sign(position - b.position) else 0
      case Str(s) => CompareText(s, b.s)
      case Bool(x) => Truthness(x) - Truthness(b.b)
      case Num(n) => if n < b.n then -1 else if n > b.n then 1 else 0
  }

  function OrderLists(xs: seq<CVal>, ys: seq<CVal>): int {
    if xs == [] || ys == [] then Sign(|xs| - |ys|)
    else
      var c := OrderCmp(xs[0], ys[0]);
      if c != 0 then c else OrderLists(xs[1..], ys[1..])
  }

  // --- ORDER BY's order is a total preorder --------------------------------

  lemma {:induction false} TextAntisymmetric(a: string, b: string)
    ensures CompareText(a, b) == -CompareText(b, a)
    ensures CompareText(a, b) == 0 <==> a == b
  {
    if a != [] && b != [] && a[0] == b[0] {
      TextAntisymmetric(a[1..], b[1..]);
      assert a == b <==> a[1..] == b[1..] by { assert a == [a[0]] + a[1..] && b == [b[0]] + b[1..]; }
    }
  }

  lemma {:induction false} TextTransitive(a: string, b: string, c: string)
    requires CompareText(a, b) <= 0 && CompareText(b, c) <= 0
    ensures CompareText(a, c) <= 0
    ensures CompareText(a, c) == 0 <==> CompareText(a, b) == 0 && CompareText(b, c) == 0
  {
    if a != [] && b != [] && c != [] && a[0] == b[0] == c[0] {
      TextTransitive(a[1..], b[1..], c[1..]);
    }
  }

  lemma {:induction false} OrderAntisymmetric(a: CVal, b: CVal)
    ensures OrderCmp(a, b) == -OrderCmp(b, a)
    decreases a
  {
    if a.List? && b.List? {
      ListsAntisymmetric(a.items, b.items);
    } else if a.Str? && b.Str? {
      TextAntisymmetric(a.s, b.s);
    } else if a.RelRef? && b.RelRef? {
      TextAntisymmetric(RelText(a.key), RelText(b.key));
    }
  }

  lemma {:induction false} ListsAntisymmetric(xs: seq<CVal>, ys: seq<CVal>)
    ensures OrderLists(xs, ys) == -OrderLists(ys, xs)
    decreases xs
  {
    if xs != [] && ys != [] {
      OrderAntisymmetric(xs[0], ys[0]);
      ListsAntisymmetric(xs[1..], ys[1..]);
    }
  }

  /** All dates and times in the value, at any depth of lists, are of one kind. */
  predicate OfKind(v: CVal, kind: nat) {
    && (v.Temporal? ==> v.kind == kind)
    && (v.List? ==> forall i | 0 <= i < |v.items| :: OfKind(v.items[i], kind))
  }

  lemma {:induction false} OrderTransitive(a: CVal, b: CVal, c: CVal, kind: nat)
    requires OfKind(a, kind) && OfKind(b, kind) && OfKind(c, kind)
    requires OrderCmp(a, b) <= 0 && OrderCmp(b, c) <= 0
    ensures OrderCmp(a, c) <= 0
    ensures OrderCmp(a, c) == 0 <==> OrderCmp(a, b) == 0 && OrderCmp(b, c) == 0
    decreases a
  {
    if a.List? && b.List? && c.List? {
      ListsTransitive(a.items, b.items, c.items, kind);
    } else if a.Str? && b.Str? && c.Str? {
      TextTransitive(a.s, b.s, c.s);
    } else if a.RelRef? && b.RelRef? && c.RelRef? {
      TextTransitive(RelText(a.key), RelText(b.key), RelText(c.key));
    }
  }

  lemma {:induction false} ListsTransitive(xs: seq<CVal>, ys: seq<CVal>, zs: seq<CVal>, kind: nat)
    requires forall i | 0 <= i < |xs| :: OfKind(xs[i], kind)
    requires forall i | 0 <= i < |ys| :: OfKind(ys[i], kind)
    requires forall i | 0 <= i < |zs| :: OfKind(zs[i], kind)
    requires OrderLists(xs, ys) <= 0 && OrderLists(ys, zs) <= 0
    ensures OrderLists(xs, zs) <= 0
    ensures OrderLists(xs, zs) == 0 <==> OrderLists(xs, ys) == 0 && OrderLists(ys, zs) == 0
    decreases xs
  {
    if xs != [] && ys != [] && zs != [] {
      OrderTransitive(xs[0], ys[0], zs[0], kind);
      if OrderCmp(xs[0], ys[0]) == 0 && OrderCmp(ys[0], zs[0]) == 0 {
        ListsTransitive(xs[1..], ys[1..], zs[1..], kind);
      }
    }
  }

  /** Null comes last. */
  lemma NullIsGreatest(v: CVal)
    ensures OrderCmp(v, Null) <= 0 && (OrderCmp(v, Null) == 0 <==> v.Null?)
  {
  }

  /** With dates of any two kinds the order is not transitive: each is level with a value of the other
      kind, but they are not level with each other. */
  lemma KindsBreakTransitivity(i: nat, j: nat)
    requires i != j
    ensures var early, other, late := Temporal(i, 1), Temporal(j, 0), Temporal(i, 2);
            OrderCmp(late, other) == 0 && OrderCmp(other, early) == 0 && OrderCmp(late, early) > 0
  {
  }

  /** The dates and times in the value, at any depth of lists, are of these kinds. */
  predicate KindsIn(v: CVal, kinds: set<nat>) {
    && (v.Temporal? ==> v.kind in kinds)
    && (v.List? ==> forall i | 0 <= i < |v.items| :: KindsIn(v.items[i], kinds))
  }

  lemma {:induction false} OneKind(v: CVal, kinds: set<nat>, kind: nat)
    requires KindsIn(v, kinds) && kinds <= {kind}
    ensures OfKind(v, kind)
    decreases v
  {
    if v.List? {
      forall i | 0 <= i < |v.items| ensures OfKind(v.items[i], kind) { OneKind(v.items[i], kinds, kind); }
    }
  }

  ghost predicate TransitiveOn(kinds: set<nat>) {
    forall a, b, c | KindsIn(a, kinds) && KindsIn(b, kinds) && KindsIn(c, kinds) && OrderCmp(a, b) <= 0 && OrderCmp(b, c) <= 0 ::
      OrderCmp(a, c) <= 0
  }

  /** The order is transitive on the values whose dates are of certain kinds if and only if there is at
      most one kind. */
  lemma OrderTransitiveIff(kinds: set<nat>)
    ensures TransitiveOn(kinds) <==> |kinds| <= 1
  {
    if |kinds| <= 1 {
      var kind: nat :| kinds <= {kind} by { AtMostOneKind(kinds); }
      forall a, b, c | KindsIn(a, kinds) && KindsIn(b, kinds) && KindsIn(c, kinds) && OrderCmp(a, b) <= 0 && OrderCmp(b, c) <= 0
        ensures OrderCmp(a, c) <= 0
      {
        OneKind(a, kinds, kind);
        OneKind(b, kinds, kind);
        OneKind(c, kinds, kind);
        OrderTransitive(a, b, c, kind);
      }
    } else {
      var i :| i in kinds;
      var j :| j in kinds && j != i by { if kinds <= {i} { SmallerSet(kinds, {i}); } }
      KindsBreakTransitivity(i, j);
      assert KindsIn(Temporal(i, 1), kinds) && KindsIn(Temporal(j, 0), kinds) && KindsIn(Temporal(i, 2), kinds);
    }
  }

  lemma AtMostOneKind(kinds: set<nat>)
    requires |kinds| <= 1
    ensures exists kind: nat :: kinds <= {kind}
  {
    if kinds == {} {
      assert kinds <= {0};
    } else {
      var kind :| kind in kinds;
      assert |kinds - {kind}| == 0;
      assert kinds <= {kind};
    }
  }

  lemma SmallerSet(a: set<nat>, b: set<nat>)
    requires a <= b
    ensures |a| <= |b|
  {
    assert b == a + (b - a);
  }

  /** What is surely equal is level in the order. */
  lemma EqualsIsLevel(a: CVal, b: CVal)
    requires Equals(a, b).True?
    ensures OrderCmp(a, b) == 0
  {
    EqualsIsIdentity(a, b);
    OrderAntisymmetric(a, a);
  }
}
