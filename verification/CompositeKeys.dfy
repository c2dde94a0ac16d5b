/** The composite key of a weak node (cvcdocdb/base.py, `_new_key` and `_mergePK`): its parent's key
    and its own, clashing fields renamed. */
module CompositeKeys {
  import opened Common
  import opened Decimals
  import opened Values
  import opened StoreArguments

  type Pk = map<string, Value>

  function Numbered(old': string, n: nat): string {
    old' + "_" + ShowNat(n)
  }

  /** A numbered name tells what it was made from: its digits end it, and an underscore ends the rest. */
  lemma NumberedIsInjective(a: string, m: nat, b: string, n: nat)
    requires Numbered(a, m) == Numbered(b, n)
    ensures a == b && m == n
  {
    var s, t := ShowNat(m), ShowNat(n);
    NotLonger(a, s, b, t);
    NotLonger(b, t, a, s);
    assert a == Numbered(a, m)[..|a|] == Numbered(b, n)[..|b|] == b;
    assert s == Numbered(a, m)[|a| + 1..] == Numbered(b, n)[|b| + 1..] == t;
    ReadShow(m);
    ReadShow(n);
  }

  lemma NotLonger(a: string, s: string, b: string, t: string)
    requires AllDigits(s) && AllDigits(t) && a + "_" + s == b + "_" + t
    ensures |s| <= |t|
  {
    var x, y := a + "_" + s, b + "_" + t;
    assert y[|b|] == '_';
    assert forall i | 0 <= i < |s| :: x[|a| + 1 + i] == s[i];
    assert |a| + |s| == |b| + |t|;
    assert |s| > |t| ==> |b| == |a| + 1 + (|s| - |t| - 1);
  }

  /** The first numbered name, from `n` on, that is not taken. */
  function FirstFree(old': string, taken: set<string>, n: nat): (name: string)
    ensures exists k: nat :: k >= n && name == Numbered(old', k)
    decreases |taken|
  {
    if Numbered(old', n) !in taken then Numbered(old', n)
    else FirstFree(old', taken - {Numbered(old', n)}, n + 1)
  }

  /** It is free, and the numbers before it are taken. */
  lemma {:induction false} FirstFreeIsFree(old': string, taken: set<string>, n: nat) returns (k: nat)
    ensures k >= n && FirstFree(old', taken, n) == Numbered(old', k) && Numbered(old', k) !in taken
    ensures forall m: nat | n <= m < k :: Numbered(old', m) in taken
    decreases |taken|
  {
    if Numbered(old', n) !in taken {
      k := n;
    } else {
      k := FirstFreeIsFree(old', taken - {Numbered(old', n)}, n + 1);
      if Numbered(old', k) == Numbered(old', n) { NumberedIsInjective(old', k, old', n); }
    }
  }

  /** Names made from something else do not matter. */
  lemma {:induction false} OthersDoNotMatter(old': string, taken: set<string>, more: set<string>, n: nat)
    requires taken <= more && forall k: nat :: Numbered(old', k) in more ==> Numbered(old', k) in taken
    ensures FirstFree(old', more, n) == FirstFree(old', taken, n)
    decreases |taken|
  {
    var name := Numbered(old', n);
    if name in taken {
      OthersDoNotMatter(old', taken - {name}, more - {name}, n + 1);
    }
  }

  /** `_new_key`. */
  method NewKey(oldKey: string, listKeys: set<string>) returns (key: string)
    ensures key == FirstFree(oldKey, listKeys, 0)
  {
    var n := 0;
    ghost var left := listKeys;
    while Numbered(oldKey, n) in listKeys
      invariant FirstFree(oldKey, left, n) == FirstFree(oldKey, listKeys, 0)
      invariant left <= listKeys && forall k: nat | k >= n :: Numbered(oldKey, k) in listKeys ==> Numbered(oldKey, k) in left
      decreases |left|
    {
      forall k: nat | k > n ensures Numbered(oldKey, k) != Numbered(oldKey, n) {
        if Numbered(oldKey, k) == Numbered(oldKey, n) { NumberedIsInjective(oldKey, k, oldKey, n); }
      }
      left := left - {Numbered(oldKey, n)};
      n := n + 1;
    }
    return Numbered(oldKey, n);
  }

  /** The name a field of the child's own key gets. */
  function NewName(a: Pk, b: Pk, field: string): string {
    if field in a then FirstFree(field, a.Keys + b.Keys, 0) else field
  }

  /** A field only the child has keeps its name; one its parent has too gets the first of `f_0`, `f_1`
      and so on that is a field of neither. */
  lemma NewNameIs(a: Pk, b: Pk, field: string) returns (n: nat)
    ensures field !in a ==> NewName(a, b, field) == field
    ensures field in a ==> NewName(a, b, field) == field + "_" + ShowNat(n)
                           && field + "_" + ShowNat(n) !in a && field + "_" + ShowNat(n) !in b
                           && forall m: nat | m < n :: Numbered(field, m) in a || Numbered(field, m) in b
    ensures forall m: nat :: Numbered(field, m) == field + "_" + ShowNat(m)
  {
    n := FirstFreeIsFree(field, a.Keys + b.Keys, 0);
  }

  /** Two fields of the child never get the same name, and none gets a name of the parent's. */
  lemma NewNamesDiffer(a: Pk, b: Pk)
    ensures forall f | f in b :: NewName(a, b, f) !in a
    ensures forall f | f in b && f in a :: NewName(a, b, f) !in b
    ensures forall f, g | f in b && g in b && f != g :: NewName(a, b, f) != NewName(a, b, g)
  {
    forall f | f in b ensures NewName(a, b, f) !in a && (f in a ==> NewName(a, b, f) !in b) {
      var k := FirstFreeIsFree(f, a.Keys + b.Keys, 0);
    }
    forall f, g | f in b && g in b && f != g ensures NewName(a, b, f) != NewName(a, b, g) {
      if f in a && g in a && NewName(a, b, f) == NewName(a, b, g) {
        var k := FirstFreeIsFree(f, a.Keys + b.Keys, 0);
        var l := FirstFreeIsFree(g, a.Keys + b.Keys, 0);
        NumberedIsInjective(f, k, g, l);
      }
    }
  }

  /** The merged key, field by field: the parent's fields as they are, the child's under their new names. */
  ghost predicate IsMerge(a: Pk, b: Pk, r: Pk) {
    && (forall k | k in a :: k in r && r[k] == a[k])
    && (forall f | f in b :: NewName(a, b, f) in r && r[NewName(a, b, f)] == b[f])
    && (forall k | k in r :: k in a || exists f :: f in b && k == NewName(a, b, f))
  }

  /** There is only one such key, so it does not depend on the order of the renamings. */
  lemma MergeIsUnique(a: Pk, b: Pk, r: Pk, s: Pk)
    requires IsMerge(a, b, r) && IsMerge(a, b, s)
    ensures r == s
  {
    hide NewName;
    forall k | k in r ensures k in s && s[k] == r[k] {
      if k !in a { var f :| f in b && k == NewName(a, b, f); }
    }
    forall k | k in s ensures k in r {
      if k !in a { var f :| f in b && k == NewName(a, b, f); }
    }
  }

  /** No field is lost. */
  lemma MergeSize(a: Pk, b: Pk, r: Pk)
    requires IsMerge(a, b, r)
    ensures |r| == |a| + |b|
  {
    NewNamesDiffer(a, b);
    RenamedSize(a, b, b.Keys);
    MergeKeys(a, b, r);
    hide *;
    var names := set f | f in b :: NewName(a, b, f);
    assert names == set f | f in b.Keys :: NewName(a, b, f);
    assert |a.Keys + names| == |a.Keys| + |names|;
    assert |r.Keys| == |r| && |a.Keys| == |a| && |b.Keys| == |b|;
  }

  lemma MergeKeys(a: Pk, b: Pk, r: Pk)
    requires IsMerge(a, b, r)
    ensures var names := set f | f in b :: NewName(a, b, f); r.Keys == a.Keys + names && a.Keys !! names
  {
    NewNamesDiffer(a, b);
    hide NewName;
  }

  lemma {:induction false} RenamedSize(a: Pk, b: Pk, fields: set<string>)
    requires fields <= b.Keys
    requires forall f, g | f in b && g in b && f != g :: NewName(a, b, f) != NewName(a, b, g)
    ensures |set f | f in fields :: NewName(a, b, f)| == |fields|
    decreases fields
  {
    hide NewName;
    if fields != {} {
      var f :| f in fields;
      RenamedSize(a, b, fields - {f});
      var rest := set g | g in fields - {f} :: NewName(a, b, g);
      assert (set g | g in fields :: NewName(a, b, g)) == rest + {NewName(a, b, f)};
      assert NewName(a, b, f) !in rest;
    } else {
      assert (set f | f in fields :: NewName(a, b, f)) == {};
    }
  }

  /** The child's key while the clashing fields in `rest` are still to be renamed. */
  ghost predicate Renaming(a: Pk, b: Pk, rest: set<string>, now: Pk) {
    && (forall f | f in b && f !in rest :: NewName(a, b, f) in now && now[NewName(a, b, f)] == b[f])
    && (forall f | f in rest :: f in now && f in b && now[f] == b[f])
    && (forall k | k in now :: k in rest || exists f :: f in b && f !in rest && k == NewName(a, b, f))
  }

  lemma RenameStart(a: Pk, b: Pk)
    ensures Renaming(a, b, a.Keys * b.Keys, b)
  {
    forall k | k in b && k !in a.Keys * b.Keys ensures exists f :: f in b && f !in a.Keys * b.Keys && k == NewName(a, b, f) {
      assert NewName(a, b, k) == k;
    }
  }

  /** The name found among the current fields is the one it would have been from the start. */
  lemma SameNewKey(a: Pk, b: Pk, rest: set<string>, now: Pk, v: string)
    requires rest <= a.Keys * b.Keys && Renaming(a, b, rest, now) && v in rest
    ensures FirstFree(v, a.Keys + now.Keys, 0) == NewName(a, b, v)
  {
    var taken, more := a.Keys + b.Keys, a.Keys + now.Keys;
    forall f | f in b ensures f in more {
      if f !in a { assert NewName(a, b, f) == f; }
    }
    forall k: nat | Numbered(v, k) in more ensures Numbered(v, k) in taken {
      if Numbered(v, k) !in taken {
        var f :| f in b && f !in rest && Numbered(v, k) == NewName(a, b, f);
        var l := FirstFreeIsFree(f, taken, 0);
        NumberedIsInjective(f, l, v, k);
      }
    }
    OthersDoNotMatter(v, taken, more, 0);
  }

  lemma RenameOne(a: Pk, b: Pk, rest: set<string>, now: Pk, v: string)
    requires rest <= a.Keys * b.Keys && Renaming(a, b, rest, now) && v in rest
    ensures Renaming(a, b, rest - {v}, (now - {v})[NewName(a, b, v) := b[v]])
  {
    NewNamesDiffer(a, b);
    hide NewName;
    var next := (now - {v})[NewName(a, b, v) := b[v]];
    forall f | f in b && f !in rest - {v} ensures NewName(a, b, f) in next && next[NewName(a, b, f)] == b[f] { }
    forall k | k in next && k !in rest - {v} ensures exists f :: f in b && f !in rest - {v} && k == NewName(a, b, f) {
      if k != NewName(a, b, v) {
        assert k in now && k !in rest;
        var f :| f in b && f !in rest && k == NewName(a, b, f);
      }
    }
  }

  lemma RenameEnd(a: Pk, b: Pk, now: Pk)
    requires Renaming(a, b, {}, now)
    ensures IsMerge(a, b, a + now)
  {
    NewNamesDiffer(a, b);
    hide NewName;
    forall k | k in now ensures k !in a { var f :| f in b && k == NewName(a, b, f); }
  }

  /** `_mergePK`, in the current key format: clashing fields are popped and put back under a new name,
      in any order. */
  method MergePk(pkA: Pk, pkB: Option<Pk>) returns (pk: Pk)
    ensures pkB.None? ==> pk == pkA
    ensures pkB.Some? ==> IsMerge(pkA, pkB.value, pk)
  {
    if pkB.None? { return pkA; }
    var b := pkB.value;
    var now := b;
    var rest := pkA.Keys * b.Keys;
    RenameStart(pkA, b);
    while rest != {}
      invariant rest <= pkA.Keys * b.Keys && Renaming(pkA, b, rest, now)
      decreases rest
    {
      var v :| v in rest;
      var newKey := NewKey(v, pkA.Keys + now.Keys);
      SameNewKey(pkA, b, rest, now, v);
      RenameOne(pkA, b, rest, now, v);
      assert now[v] == b[v];
      now := (now - {v})[newKey := now[v]];
      rest := rest - {v};
    }
    RenameEnd(pkA, b, now);
    return pkA + now;
  }

  // --- Chains --------------------------------------------------------------

  /** A chain of weak nodes built with these keys: each has its parent's key merged with its own. */
  ghost predicate Built(arg: NodeArg)
    decreases arg
  {
    arg.pk.Some? &&
    match arg.parent
    case NoParent => true
    case HasParent(parent, _) => Built(parent) && exists own :: IsMerge(parent.pk.value, own, arg.pk.value)
  }

  /** `weak_chain_depth`: the weak node and its ancestors, in order. */
  function Ancestors(arg: NodeArg): seq<NodeArg>
    decreases arg
  {
    match arg.parent
    case NoParent => [arg]
    case HasParent(parent, _) => [arg] + Ancestors(parent)
  }

  /** Along a chain built with explicit keys every node passes the check against its parent's key, and
      has all the key fields of all its ancestors. */
  lemma {:induction false} ChainPassesParentCheck(arg: NodeArg, i: nat)
    requires Built(arg) && i < |Ancestors(arg)|
    ensures arg.parent.HasParent? ==> arg.parent.node.pk.Some? && ParentKeyOk(arg, arg.parent.node.pk.value)
    ensures var ancestor := Ancestors(arg)[i];
            ancestor.pk.Some? && forall k | k in ancestor.pk.value :: k in arg.pk.value && arg.pk.value[k] == ancestor.pk.value[k]
    decreases arg
  {
    hide IsMerge;
    if arg.parent.HasParent? {
      var own :| IsMerge(arg.parent.node.pk.value, own, arg.pk.value);
      MergeKeepsParent(arg.parent.node.pk.value, own, arg.pk.value);
      if i > 0 { ChainPassesParentCheck(arg.parent.node, i - 1); }
    }
  }

  lemma MergeKeepsParent(a: Pk, b: Pk, r: Pk)
    requires IsMerge(a, b, r)
    ensures forall k | k in a :: k in r && r[k] == a[k]
  {
  }
}
