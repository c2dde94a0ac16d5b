/** The order in which `create_group` inserts weak nodes (cvcdocdb/graph_store.py). */
module WeakOrder {
  import opened Common

  /** A weak node with its own group key and its parent's. */
  datatype Weak<K, N> = Weak(node: N, key: K, parentKey: K)

  type Ordered<K, N> = seq<(Weak<K, N>, N)>

  /** The key that `path` has reached after `i` weak nodes. */
  function Reached<K, N>(strongKey: K, weak: seq<Weak<K, N>>, path: seq<nat>, i: nat): K
    requires i <= |path| && forall j | 0 <= j < |path| :: path[j] < |weak|
  {
    if i == 0 then strongKey else weak[path[i - 1]].key
  }

  /** `path` leads from the strong node's key to `k` along weak nodes of the group, each hanging
      from the one before. */
  predicate Chain<K(==), N>(strongKey: K, weak: seq<Weak<K, N>>, path: seq<nat>, k: K) {
    && (forall i | 0 <= i < |path| :: path[i] < |weak|)
    && (forall i | 0 <= i < |path| :: weak[path[i]].parentKey == Reached(strongKey, weak, path, i))
    && k == Reached(strongKey, weak, path, |path|)
  }

  ghost predicate Anchored<K, N>(strongKey: K, weak: seq<Weak<K, N>>, k: K) {
    exists path: seq<nat> :: Chain(strongKey, weak, path, k)
  }

  /** Every pair names the strong node, or an earlier weak node, with the parent's key. */
  ghost predicate ParentsFirst<K, N>(strong: N, strongKey: K, ordered: Ordered<K, N>) {
    forall i | 0 <= i < |ordered| :: HasParentBefore(strong, strongKey, ordered, i)
  }

  ghost predicate HasParentBefore<K, N>(strong: N, strongKey: K, ordered: Ordered<K, N>, i: nat)
    requires i < |ordered|
  {
    || (ordered[i].0.parentKey == strongKey && ordered[i].1 == strong)
    || exists j :: 0 <= j < i && ordered[j].0.key == ordered[i].0.parentKey && ordered[j].0.node == ordered[i].1
  }

  function Firsts<K, N>(ordered: Ordered<K, N>): (r: seq<Weak<K, N>>)
    ensures |r| == |ordered| && forall i | 0 <= i < |r| :: r[i] == ordered[i].0
  {
    seq(|ordered|, i requires 0 <= i < |ordered| => ordered[i].0)
  }

  /** The created nodes by key: each is the strong node or an ordered weak node. */
  ghost predicate CreatedOk<K, N>(strong: N, strongKey: K, weak: seq<Weak<K, N>>, ordered: Ordered<K, N>, created: map<K, N>) {
    && strongKey in created
    && (forall k | k in created ::
          (k == strongKey && created[k] == strong)
          || exists j :: 0 <= j < |ordered| && ordered[j].0.key == k && ordered[j].0.node == created[k])
    && (forall j | 0 <= j < |ordered| :: ordered[j].0.key in created)
    && (forall k | k in created :: Anchored(strongKey, weak, k))
  }

  lemma ExtendChain<K, N>(strongKey: K, weak: seq<Weak<K, N>>, w: Weak<K, N>)
    requires w in weak && Anchored(strongKey, weak, w.parentKey)
    ensures Anchored(strongKey, weak, w.key)
  {
    var path: seq<nat> :| Chain(strongKey, weak, path, w.parentKey);
    var i :| 0 <= i < |weak| && weak[i] == w;
    var longer := path + [i];
    assert forall j | 0 <= j < |path| :: longer[j] == path[j];
    assert Chain(strongKey, weak, longer, w.key);
  }

  /** If no pending node can be created, no chain leads out of the created keys. */
  lemma {:induction false} ChainStaysCreated<K, N>(strongKey: K, weak: seq<Weak<K, N>>, created: set<K>, path: seq<nat>, k: K)
    requires Chain(strongKey, weak, path, k) && strongKey in created
    requires forall w | w in weak && w.parentKey in created :: w.key in created
    ensures k in created
    decreases |path|
  {
    if path != [] {
      var n := |path| - 1;
      ShorterChain(strongKey, weak, path, k);
      ChainStaysCreated(strongKey, weak, created, path[..n], weak[path[n]].parentKey);
      assert weak[path[n]] in weak;
    }
  }

  lemma ShorterChain<K, N>(strongKey: K, weak: seq<Weak<K, N>>, path: seq<nat>, k: K)
    requires Chain(strongKey, weak, path, k) && path != []
    ensures var n := |path| - 1; path[n] < |weak| && Chain(strongKey, weak, path[..n], weak[path[n]].parentKey)
  {
    var n := |path| - 1;
    var shorter := path[..n];
    assert forall i | 0 <= i < n :: shorter[i] == path[i];
    forall i: nat | i <= n ensures Reached(strongKey, weak, shorter, i) == Reached(strongKey, weak, path, i) { }
    assert weak[path[n]].parentKey == Reached(strongKey, weak, path, n);
    forall i | 0 <= i < n ensures weak[shorter[i]].parentKey == Reached(strongKey, weak, shorter, i) {
      assert weak[path[i]].parentKey == Reached(strongKey, weak, path, i);
    }
  }

  // --- The order, round by round -------------------------------------------

  /** The pending nodes whose parent's key is created, or those whose is not, in order. */
  function Sieve<K(==), N>(pending: seq<Weak<K, N>>, keys: set<K>, there: bool): seq<Weak<K, N>> {
    if pending == [] then []
    else
      var n := |pending| - 1;
      Sieve(pending[..n], keys, there) + if (pending[n].parentKey in keys) == there then [pending[n]] else []
  }

  lemma SieveStep<K, N>(pending: seq<Weak<K, N>>, keys: set<K>, there: bool)
    requires pending != []
    ensures var n := |pending| - 1;
            Sieve(pending, keys, there) == if (pending[n].parentKey in keys) == there then Sieve(pending[..n], keys, there) + [pending[n]]
                                           else Sieve(pending[..n], keys, there)
  {
  }

  lemma OneMore<T>(all: seq<T>, a: seq<T>, b: seq<T>, x: T)
    requires Halves(all, a, b)
    ensures Halves(all + [x], a + [x], b) && Halves(all + [x], a, b + [x])
  {
  }

  lemma SieveMore<K, N>(before: seq<Weak<K, N>>, w: Weak<K, N>, keys: set<K>)
    requires Halves(before, Sieve(before, keys, true), Sieve(before, keys, false))
    ensures Halves(before + [w], Sieve(before + [w], keys, true), Sieve(before + [w], keys, false))
  {
    assert (before + [w])[..|before|] == before;
    var a, b := Sieve(before, keys, true), Sieve(before, keys, false);
    OneMore(before, a, b, w);
    assert Sieve(before + [w], keys, true) == if w.parentKey in keys then a + [w] else a;
    assert Sieve(before + [w], keys, false) == if w.parentKey in keys then b else b + [w];
    hide Halves;
  }

  lemma {:induction false} SieveAll<K, N>(pending: seq<Weak<K, N>>, keys: set<K>)
    ensures Halves(pending, Sieve(pending, keys, true), Sieve(pending, keys, false))
  {
    if pending != [] {
      var before, w := pending[..|pending| - 1], pending[|pending| - 1];
      SieveAll(before, keys);
      SieveMore(before, w, keys);
      assert pending == before + [w];
    }
  }

  lemma {:induction false} SieveNothing<K, N>(pending: seq<Weak<K, N>>, keys: set<K>)
    ensures Sieve(pending, keys, true) == [] ==> Sieve(pending, keys, false) == pending
  {
    if pending != [] { SieveNothing(pending[..|pending| - 1], keys); }
  }

  ghost predicate Halves<T>(all: seq<T>, a: seq<T>, b: seq<T>) {
    multiset(a) + multiset(b) == multiset(all) && |a| + |b| == |all|
  }

  lemma {:induction false} SieveKeys<K, N>(pending: seq<Weak<K, N>>, keys: set<K>, there: bool)
    ensures forall w | w in Sieve(pending, keys, there) :: (w.parentKey in keys) == there
  {
    if pending != [] {
      SieveStep(pending, keys, there);
      SieveKeys(pending[..|pending| - 1], keys, there);
    }
  }

  /** One round: each ready node is paired with the node last created under its parent's key. */
  function Round<K(==), N>(ordered: Ordered<K, N>, created: map<K, N>, ready: seq<Weak<K, N>>): (Ordered<K, N>, map<K, N>)
    requires forall w | w in ready :: w.parentKey in created
    decreases |ready|
  {
    if ready == [] then (ordered, created)
    else Round(ordered + [(ready[0], created[ready[0].parentKey])], created[ready[0].key := ready[0].node], ready[1..])
  }

  /** Rounds until nothing is ready; what is left over has no parent. */
  function Rounds<K(==), N>(ordered: Ordered<K, N>, created: map<K, N>, pending: seq<Weak<K, N>>): (Ordered<K, N>, seq<Weak<K, N>>)
    decreases |pending|
  {
    SieveAll(pending, created.Keys);
    SieveKeys(pending, created.Keys, true);
    var ready := Sieve(pending, created.Keys, true);
    if ready == [] then (ordered, pending)
    else
      var (more, now) := Round(ordered, created, ready);
      Rounds(more, now, Sieve(pending, created.Keys, false))
  }

  /** `[wn for wn in pending if parent in created]` and the rest. */
  method Split<K(==), N>(pending: seq<Weak<K, N>>, created: map<K, N>) returns (ready: seq<Weak<K, N>>, rest: seq<Weak<K, N>>)
    ensures ready == Sieve(pending, created.Keys, true) && rest == Sieve(pending, created.Keys, false)
  {
    ready, rest := [], [];
    for i := 0 to |pending|
      invariant ready == Sieve(pending[..i], created.Keys, true) && rest == Sieve(pending[..i], created.Keys, false)
    {
      assert pending[..i + 1][..i] == pending[..i];
      if pending[i].parentKey in created { ready := ready + [pending[i]]; } else { rest := rest + [pending[i]]; }
    }
    assert pending[..|pending|] == pending;
  }

  /** One created node is entered after its parent. */
  lemma AppendOne<K, N>(strong: N, strongKey: K, weak: seq<Weak<K, N>>, ordered: Ordered<K, N>, created: map<K, N>, w: Weak<K, N>)
    requires CreatedOk(strong, strongKey, weak, ordered, created) && ParentsFirst(strong, strongKey, ordered)
    requires w in weak && w.parentKey in created
    ensures var more := ordered + [(w, created[w.parentKey])];
            && ParentsFirst(strong, strongKey, more)
            && CreatedOk(strong, strongKey, weak, more, created[w.key := w.node])
            && multiset(Firsts(more)) == multiset(Firsts(ordered)) + multiset{w}
  {
    var more := ordered + [(w, created[w.parentKey])];
    var n := |ordered|;
    ExtendChain(strongKey, weak, w);
    assert Firsts(more) == Firsts(ordered) + [w];
    forall i | 0 <= i < |more| ensures HasParentBefore(strong, strongKey, more, i) {
      if i < n {
        assert HasParentBefore(strong, strongKey, ordered, i);
        if !(ordered[i].0.parentKey == strongKey && ordered[i].1 == strong) {
          var j :| 0 <= j < i && ordered[j].0.key == ordered[i].0.parentKey && ordered[j].0.node == ordered[i].1;
          assert more[j] == ordered[j];
        }
      } else if !(w.parentKey == strongKey && created[w.parentKey] == strong) {
        var j :| 0 <= j < n && ordered[j].0.key == w.parentKey && ordered[j].0.node == created[w.parentKey];
        assert more[j] == ordered[j];
      }
    }
    var after := created[w.key := w.node];
    forall k | k in after && !(k == strongKey && after[k] == strong)
      ensures exists j :: 0 <= j < |more| && more[j].0.key == k && more[j].0.node == after[k]
    {
      if k == w.key {
        assert more[n].0.key == k;
      } else {
        var j :| 0 <= j < n && ordered[j].0.key == k && ordered[j].0.node == created[k];
        assert more[j] == ordered[j];
      }
    }
    forall j | 0 <= j < |more| ensures more[j].0.key in after {
      if j < n { assert more[j] == ordered[j]; }
    }
  }

  /** The inner loop: every ready node is paired with its parent and becomes created. */
  method CreateReady<K(==), N>(ghost strong: N, ghost strongKey: K, ghost weak: seq<Weak<K, N>>, ordered0: Ordered<K, N>,
                               created0: map<K, N>, ready: seq<Weak<K, N>>)
    returns (ordered: Ordered<K, N>, created: map<K, N>)
    requires CreatedOk(strong, strongKey, weak, ordered0, created0) && ParentsFirst(strong, strongKey, ordered0)
    requires forall w | w in ready :: w in weak && w.parentKey in created0
    ensures (ordered, created) == Round(ordered0, created0, ready)
    ensures CreatedOk(strong, strongKey, weak, ordered, created) && ParentsFirst(strong, strongKey, ordered)
    ensures multiset(Firsts(ordered)) == multiset(Firsts(ordered0)) + multiset(ready)
  {
    hide CreatedOk, ParentsFirst, HasParentBefore;
    ordered, created := ordered0, created0;
    for i := 0 to |ready|
      invariant CreatedOk(strong, strongKey, weak, ordered, created) && ParentsFirst(strong, strongKey, ordered)
      invariant multiset(Firsts(ordered)) == multiset(Firsts(ordered0)) + multiset(ready[..i])
      invariant forall w | w in ready :: w.parentKey in created
      invariant Round(ordered, created, ready[i..]) == Round(ordered0, created0, ready)
    {
      var w := ready[i];
      assert ready[..i + 1] == ready[..i] + [w] && ready[i..][1..] == ready[i + 1..] && ready[i..][0] == w;
      AppendOne(strong, strongKey, weak, ordered, created, w);
      ordered := ordered + [(w, created[w.parentKey])];
      created := created[w.key := w.node];
    }
    assert ready[..|ready|] == ready;
  }

  lemma CreatedAtFirst<K, N>(strong: N, strongKey: K, weak: seq<Weak<K, N>>)
    ensures Underway(strong, strongKey, weak, [], map[strongKey := strong], weak)
  {
    assert Chain(strongKey, weak, [], strongKey);
    hide Rounds;
  }

  /** `weak_nodes_in_creation_order`: the pairs, parents first, or the weak node it complains of. */
  method CreationOrder<K(==), N>(strong: N, strongKey: K, weak: seq<Weak<K, N>>) returns (r: Result<Ordered<K, N>, Weak<K, N>>)
    ensures r.Ok? ==> Rounds([], map[strongKey := strong], weak) == (r.value, [])
    ensures r.Ok? ==> multiset(Firsts(r.value)) == multiset(weak) && ParentsFirst(strong, strongKey, r.value)
    ensures r.Err? ==> r.error in weak && !Anchored(strongKey, weak, r.error.parentKey)
    ensures r.Ok? <==> forall w | w in weak :: Anchored(strongKey, weak, w.parentKey)
  {
    CreatedAtFirst(strong, strongKey, weak);
    hide Underway, Sieve, Round, Rounds, Firsts;
    var created := map[strongKey := strong];
    var pending := weak;
    var ordered: Ordered<K, N> := [];
    while pending != []
      invariant Underway(strong, strongKey, weak, ordered, created, pending)
      decreases |pending|
    {
      var ready, rest := Split(pending, created);
      WhatIsReady(strong, strongKey, weak, ordered, created, pending);
      if ready == [] {
        NoWayOut(strong, strongKey, weak, ordered, created, pending);
        return Err(pending[0]);
      }
      ghost var before := ordered;
      ghost var keys := created;
      ordered, created := CreateReady(strong, strongKey, weak, ordered, created, ready);
      NextRound(strong, strongKey, weak, before, keys, pending, ordered, created);
      pending := rest;
    }
    AllAnchored(strong, strongKey, weak, ordered, created);
    return Ok(ordered);
  }

  /** Between rounds: what is ordered and what is pending make up the list, and the rounds still to
      come lead where those from the start lead. */
  ghost predicate Underway<K, N>(strong: N, strongKey: K, weak: seq<Weak<K, N>>, ordered: Ordered<K, N>, created: map<K, N>,
                                 pending: seq<Weak<K, N>>)
  {
    && CreatedOk(strong, strongKey, weak, ordered, created) && ParentsFirst(strong, strongKey, ordered)
    && multiset(Firsts(ordered)) + multiset(pending) == multiset(weak)
    && Rounds(ordered, created, pending) == Rounds([], map[strongKey := strong], weak)
  }

  lemma WhatIsReady<K, N>(strong: N, strongKey: K, weak: seq<Weak<K, N>>, ordered: Ordered<K, N>, created: map<K, N>,
                          pending: seq<Weak<K, N>>)
    requires Underway(strong, strongKey, weak, ordered, created, pending)
    ensures CreatedOk(strong, strongKey, weak, ordered, created) && ParentsFirst(strong, strongKey, ordered)
    ensures forall w | w in Sieve(pending, created.Keys, true) :: w in weak && w.parentKey in created
    ensures Sieve(pending, created.Keys, true) == [] ==> forall w | w in pending :: w.parentKey !in created
  {
    SieveAll(pending, created.Keys);
    SieveNothing(pending, created.Keys);
    SieveKeys(pending, created.Keys, true);
    SieveKeys(pending, created.Keys, false);
    hide CreatedOk, ParentsFirst, Sieve, Rounds, Firsts;
    forall w | w in Sieve(pending, created.Keys, true) ensures w in weak {
      assert w in multiset(Sieve(pending, created.Keys, true));
      assert w in multiset(pending);
      assert w in multiset(weak);
    }
  }

  lemma NextRound<K, N>(strong: N, strongKey: K, weak: seq<Weak<K, N>>, ordered: Ordered<K, N>, created: map<K, N>,
                        pending: seq<Weak<K, N>>, more: Ordered<K, N>, now: map<K, N>)
    requires Underway(strong, strongKey, weak, ordered, created, pending)
    requires var ready := Sieve(pending, created.Keys, true);
             && ready != [] && (forall w | w in ready :: w.parentKey in created) && (more, now) == Round(ordered, created, ready)
             && multiset(Firsts(more)) == multiset(Firsts(ordered)) + multiset(ready)
    requires CreatedOk(strong, strongKey, weak, more, now) && ParentsFirst(strong, strongKey, more)
    ensures Underway(strong, strongKey, weak, more, now, Sieve(pending, created.Keys, false))
    ensures |Sieve(pending, created.Keys, false)| < |pending|
  {
    SieveAll(pending, created.Keys);
    hide CreatedOk, ParentsFirst, Sieve, Firsts, Round;
    assert Rounds(ordered, created, pending) == Rounds(more, now, Sieve(pending, created.Keys, false));
    hide Rounds;
  }

  lemma AllAnchored<K, N>(strong: N, strongKey: K, weak: seq<Weak<K, N>>, ordered: Ordered<K, N>, created: map<K, N>)
    requires Underway(strong, strongKey, weak, ordered, created, [])
    ensures Rounds([], map[strongKey := strong], weak) == (ordered, [])
    ensures multiset(Firsts(ordered)) == multiset(weak) && ParentsFirst(strong, strongKey, ordered)
    ensures forall w | w in weak :: Anchored(strongKey, weak, w.parentKey)
  {
    assert Rounds(ordered, created, []) == (ordered, []);
    hide Rounds;
    forall w | w in weak ensures Anchored(strongKey, weak, w.parentKey) {
      assert w in multiset(weak);
      assert w in Firsts(ordered);
      var i :| 0 <= i < |ordered| && ordered[i].0 == w;
      assert HasParentBefore(strong, strongKey, ordered, i);
      if !(w.parentKey == strongKey && ordered[i].1 == strong) {
        var j :| 0 <= j < i && ordered[j].0.key == w.parentKey && ordered[j].0.node == ordered[i].1;
        assert ordered[j].0.key in created;
      }
    }
  }

  lemma NoWayOut<K, N>(strong: N, strongKey: K, weak: seq<Weak<K, N>>, ordered: Ordered<K, N>, created: map<K, N>, pending: seq<Weak<K, N>>)
    requires Underway(strong, strongKey, weak, ordered, created, pending)
    requires forall w | w in pending :: w.parentKey !in created
    ensures forall w | w in pending :: w in weak && !Anchored(strongKey, weak, w.parentKey)
  {
    hide Rounds;
    forall w | w in weak && w.parentKey in created ensures w.key in created {
      assert w in multiset(weak) && w !in multiset(pending);
      assert w in Firsts(ordered);
    }
    forall w | w in pending ensures w in weak && !Anchored(strongKey, weak, w.parentKey) {
      assert w in multiset(pending) && w in multiset(weak);
      forall path: seq<nat> ensures !Chain(strongKey, weak, path, w.parentKey) {
        if Chain(strongKey, weak, path, w.parentKey) {
          ChainStaysCreated(strongKey, weak, created.Keys, path, w.parentKey);
        }
      }
    }
  }
}
