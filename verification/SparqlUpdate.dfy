/** The part of SPARQL 1.1 Update that a save uses: DELETE/INSERT operations with basic graph
    patterns, OPTIONAL and FILTER NOT EXISTS, after section 3.1.3 of SPARQL 1.1 Update. */
module SparqlUpdate {
  import opened Common
  import opened RdfTerms
  import opened RdfMapping

  datatype Slot = Fixed(term: Term) | Var(name: string)

  datatype Pattern = Pattern(s: Slot, p: Slot, o: Slot)

  type Binding = map<string, Term>

  /** `WHERE { bgp OPTIONAL { extra } FILTER NOT EXISTS { absent } }`; empty parts are left out. */
  datatype Where = Where(bgp: seq<Pattern>, extra: seq<Pattern>, absent: seq<Pattern>)

  /** `DELETE { delete } INSERT { insert } WHERE { condition }`. */
  datatype Operation = Modify(delete: seq<Pattern>, insert: seq<Pattern>, condition: Where)

  // --- Semantics -----------------------------------------------------------

  function BindSlot(slot: Slot, t: Term, b: Binding): Option<Binding> {
    match slot
    case Fixed(term) => if term == t then Some(b) else None
    case Var(name) => if name !in b then Some(b[name := t]) else if b[name] == t then Some(b) else None
  }

  function BindTriple(pat: Pattern, t: Triple, b: Binding): Option<Binding> {
    var s := BindSlot(pat.s, t.s, b);
    if s.None? then None else
    var p := BindSlot(pat.p, t.p, s.value);
    if p.None? then None else BindSlot(pat.o, t.o, p.value)
  }

  /** The solutions of a basic graph pattern that extend `b`. */
  function Solve(bgp: seq<Pattern>, store: set<Triple>, b: Binding): set<Binding> {
    if bgp == [] then {b}
    else set t, c | t in store && BindTriple(bgp[0], t, b).Some?
                    && c in Solve(bgp[1..], store, BindTriple(bgp[0], t, b).value) :: c
  }

  function LeftJoin(extra: seq<Pattern>, store: set<Triple>, b: Binding): set<Binding> {
    var sols := Solve(extra, store, b);
    if sols == {} then {b} else sols
  }

  function Solutions(w: Where, store: set<Triple>): set<Binding> {
    var joined := set b, c | b in Solve(w.bgp, store, map[]) && c in LeftJoin(w.extra, store, b) :: c;
    set c | c in joined && (w.absent == [] || Solve(w.absent, store, c) == {})
  }

  function Fill(slot: Slot, b: Binding): Option<Term> {
    match slot
    case Fixed(term) => Some(term)
    case Var(name) => if name in b then Some(b[name]) else None
  }

  /** A template triple with an unbound variable is left out. */
  function Instance(pat: Pattern, b: Binding): Option<Triple> {
    var s, p, o := Fill(pat.s, b), Fill(pat.p, b), Fill(pat.o, b);
    if s.Some? && p.Some? && o.Some? then Some(Triple(s.value, p.value, o.value)) else None
  }

  function Instances(template: seq<Pattern>, sols: set<Binding>): set<Triple> {
    set b, pat | b in sols && pat in template && Instance(pat, b).Some? :: Instance(pat, b).value
  }

  /** Both templates are filled from the same solutions; the deletions come first. */
  function Perform(op: Operation, store: set<Triple>): set<Triple> {
    var sols := Solutions(op.condition, store);
    store - Instances(op.delete, sols) + Instances(op.insert, sols)
  }

  /** One request: the operations in order, all or nothing. */
  function PerformAll(ops: seq<Operation>, store: set<Triple>): set<Triple> {
    if ops == [] then store else PerformAll(ops[1..], Perform(ops[0], store))
  }

  lemma {:induction false} PerformAllAppend(a: seq<Operation>, b: seq<Operation>, store: set<Triple>)
    ensures PerformAll(a + b, store) == PerformAll(b, PerformAll(a, store))
  {
    if a == [] {
      assert a + b == b;
    } else {
      assert (a + b)[0] == a[0] && (a + b)[1..] == a[1..] + b;
      PerformAllAppend(a[1..], b, Perform(a[0], store));
    }
  }

  // --- Patterns without variables ------------------------------------------

  function Ground(t: Triple): Pattern {
    Pattern(Fixed(t.s), Fixed(t.p), Fixed(t.o))
  }

  lemma BindGround(t: Triple, u: Triple, b: Binding)
    ensures BindTriple(Ground(t), u, b) == if t == u then Some(b) else None
    ensures Instance(Ground(t), b) == Some(t)
  {
  }

  lemma SolveGround(t: Triple, rest: seq<Pattern>, store: set<Triple>, b: Binding)
    ensures Solve([Ground(t)] + rest, store, b) == if t in store then Solve(rest, store, b) else {}
  {
    var bgp := [Ground(t)] + rest;
    assert bgp[0] == Ground(t) && bgp[1..] == rest;
    forall u | u in store { BindGround(t, u, b); }
  }

  /** Without OPTIONAL and FILTER, the solutions are those of the basic graph pattern. */
  lemma PlainSolutions(bgp: seq<Pattern>, store: set<Triple>)
    ensures Solutions(Where(bgp, [], []), store) == Solve(bgp, store, map[])
  {
    var w := Where(bgp, [], []);
    forall c | c in Solve(bgp, store, map[]) ensures c in Solutions(w, store) {
      assert c in LeftJoin(w.extra, store, c);
    }
  }

  lemma NoInstances(template: seq<Pattern>)
    ensures Instances(template, {}) == {}
  {
  }

  lemma WhereGround(t: Triple, store: set<Triple>)
    ensures Solutions(Where([Ground(t)], [], []), store) == if t in store then {map[]} else {}
  {
    SolveGround(t, [], store, map[]);
    assert [Ground(t)] + [] == [Ground(t)];
    PlainSolutions([Ground(t)], store);
  }

  // --- The operations of a save --------------------------------------------

  /** INSERT { token } WHERE { expected }: the token goes in when the guarded pattern matches. */
  lemma InsertIfPresent(token: Triple, expected: Triple, store: set<Triple>)
    ensures Perform(Modify([], [Ground(token)], Where([Ground(expected)], [], [])), store)
            == if expected in store then store + {token} else store
  {
    WhereGround(expected, store);
    BindGround(token, token, map[]);
    var sols := Solutions(Where([Ground(expected)], [], []), store);
    assert Instances([], sols) == {};
    assert Instances([Ground(token)], sols) == if expected in store then {token} else {};
  }

  /** The solutions of one pattern whose object alone is a variable. */
  lemma SolveObject(s: Term, p: Term, name: string, store: set<Triple>)
    ensures Solve([Pattern(Fixed(s), Fixed(p), Var(name))], store, map[])
            == set t | t in WithPredicate(s, p, store) :: map[name := t.o]
  {
    var bgp := [Pattern(Fixed(s), Fixed(p), Var(name))];
    var expected := set t | t in WithPredicate(s, p, store) :: map[name := t.o];
    forall c | c in Solve(bgp, store, map[]) ensures c in expected {
      var t :| t in store && BindTriple(bgp[0], t, map[]).Some? && c in Solve(bgp[1..], store, BindTriple(bgp[0], t, map[]).value);
    }
    forall t | t in WithPredicate(s, p, store) ensures map[name := t.o] in Solve(bgp, store, map[]) {
      assert BindTriple(bgp[0], t, map[]) == Some(map[name := t.o]);
      assert bgp[1..] == [];
      assert map[name := t.o] in Solve(bgp[1..], store, BindTriple(bgp[0], t, map[]).value);
    }
  }

  /** INSERT { token } WHERE { FILTER NOT EXISTS { s p ?any } }. */
  lemma InsertIfAbsent(token: Triple, s: Term, p: Term, name: string, store: set<Triple>)
    ensures Perform(Modify([], [Ground(token)], Where([], [], [Pattern(Fixed(s), Fixed(p), Var(name))])), store)
            == if WithPredicate(s, p, store) == {} then store + {token} else store
  {
    var absent := [Pattern(Fixed(s), Fixed(p), Var(name))];
    ObjectFound(s, p, name, store);
    assert Solve([], store, map[]) == {map[]} && LeftJoin([], store, map[]) == {map[]};
    var sols := Solutions(Where([], [], absent), store);
    assert sols == if WithPredicate(s, p, store) == {} then {map[]} else {};
    BindGround(token, token, map[]);
    assert Instances([Ground(token)], sols) == if sols == {} then {} else {token};
  }

  function WithPredicate(s: Term, p: Term, store: set<Triple>): set<Triple> {
    set t | t in store && t.s == s && t.p == p
  }

  lemma ObjectFound(s: Term, p: Term, name: string, store: set<Triple>)
    ensures Solve([Pattern(Fixed(s), Fixed(p), Var(name))], store, map[]) == {} <==> WithPredicate(s, p, store) == {}
  {
    SolveObject(s, p, name, store);
    if t :| t in WithPredicate(s, p, store) {
      assert map[name := t.o] in Solve([Pattern(Fixed(s), Fixed(p), Var(name))], store, map[]);
    }
  }

  /** INSERT { triples } WHERE { guard }. */
  lemma InsertGuarded(guard: Triple, triples: seq<Triple>, store: set<Triple>)
    ensures Perform(Modify([], GroundAll(triples), Where([Ground(guard)], [], [])), store)
            == if guard in store then store + (set t | t in triples) else store
  {
    WhereGround(guard, store);
    var sols := Solutions(Where([Ground(guard)], [], []), store);
    assert Instances([], sols) == {};
    if guard in store {
      forall t | t in triples ensures t in Instances(GroundAll(triples), sols) {
        var i :| 0 <= i < |triples| && triples[i] == t;
        assert GroundAll(triples)[i] == Ground(t);
        BindGround(t, t, map[]);
      }
      assert Instances(GroundAll(triples), sols) == set t | t in triples;
    } else {
      assert Instances(GroundAll(triples), sols) == {};
    }
  }

  function GroundAll(triples: seq<Triple>): (r: seq<Pattern>)
    ensures |r| == |triples| && forall i | 0 <= i < |r| :: r[i] == Ground(triples[i])
  {
    seq(|triples|, i requires 0 <= i < |triples| => Ground(triples[i]))
  }

  function Everything(subject: Term): Pattern {
    Pattern(Fixed(subject), Var("p"), Var("o"))
  }

  function About(subject: Term, store: set<Triple>): set<Triple> {
    set t | t in store && t.s == subject
  }

  lemma SolveEverything(subject: Term, store: set<Triple>)
    ensures Solve([Everything(subject)], store, map[]) == set t | t in About(subject, store) :: map["p" := t.p, "o" := t.o]
  {
    var bgp := [Everything(subject)];
    forall t | t in store ensures BindTriple(bgp[0], t, map[]) == if t.s == subject then Some(map["p" := t.p, "o" := t.o]) else None {
      assert map["p" := t.p]["o" := t.o] == map["p" := t.p, "o" := t.o];
    }
    assert bgp[1..] == [];
    forall t | t in About(subject, store) ensures map["p" := t.p, "o" := t.o] in Solve(bgp, store, map[]) {
      assert map["p" := t.p, "o" := t.o] in Solve(bgp[1..], store, BindTriple(bgp[0], t, map[]).value);
    }
  }

  lemma InstancesOfEverything(subject: Term, store: set<Triple>)
    ensures Instances([Everything(subject)], set t | t in About(subject, store) :: map["p" := t.p, "o" := t.o])
            == About(subject, store)
  {
    var pat := Everything(subject);
    var sols := set t | t in About(subject, store) :: map["p" := t.p, "o" := t.o];
    forall t | t in About(subject, store) ensures t in Instances([pat], sols) {
      var b := map["p" := t.p, "o" := t.o];
      assert b in sols && pat in [pat] && Instance(pat, b) == Some(t);
    }
  }

  /** DELETE { subject ?p ?o } WHERE { guard . subject ?p ?o }. */
  lemma DeleteGuarded(guard: Triple, subject: Term, store: set<Triple>)
    ensures Perform(Modify([Everything(subject)], [], Where([Ground(guard), Everything(subject)], [], [])), store)
            == if guard in store then store - About(subject, store) else store
  {
    var pat := Everything(subject);
    var bgp := [Ground(guard), pat];
    assert [Ground(guard)] + [pat] == bgp;
    SolveGround(guard, [pat], store, map[]);
    SolveEverything(subject, store);
    PlainSolutions(bgp, store);
    InstancesOfEverything(subject, store);
    NoInstances([pat]);
    assert Instances([], Solutions(Where(bgp, [], []), store)) == {};
  }

  function Previous(s: Term, p: Term): Pattern {
    Pattern(Fixed(s), Fixed(p), Var("old"))
  }

  /** What the deletion template of a stamp replacement removes. */
  lemma InstancesOfPrevious(guard: Triple, s: Term, p: Term, store: set<Triple>)
    ensures Instances([Previous(s, p), Ground(guard)], LeftJoin([Previous(s, p)], store, map[]))
            == WithPredicate(s, p, store) + {guard}
  {
    var previous, found := Previous(s, p), WithPredicate(s, p, store);
    var template := [previous, Ground(guard)];
    var sols := LeftJoin([previous], store, map[]);
    SolveObject(s, p, "old", store);
    var b :| b in sols;
    BindGround(guard, guard, b);
    assert template[1] in template && guard in Instances(template, sols);
    forall t | t in found ensures t in Instances(template, sols) {
      PreviousFound(guard, s, p, store, t);
    }
    forall t | t in Instances(template, sols) ensures t in found + {guard} {
      InstanceOfPrevious(guard, s, p, store, t);
    }
  }

  lemma PreviousFound(guard: Triple, s: Term, p: Term, store: set<Triple>, t: Triple)
    requires t in WithPredicate(s, p, store)
    ensures t in Instances([Previous(s, p), Ground(guard)], LeftJoin([Previous(s, p)], store, map[]))
  {
    var template := [Previous(s, p), Ground(guard)];
    SolveObject(s, p, "old", store);
    var c := map["old" := t.o];
    assert c in LeftJoin([Previous(s, p)], store, map[]) && template[0] in template && Instance(template[0], c) == Some(t);
  }

  lemma InstanceOfPrevious(guard: Triple, s: Term, p: Term, store: set<Triple>, t: Triple)
    requires t in Instances([Previous(s, p), Ground(guard)], LeftJoin([Previous(s, p)], store, map[]))
    ensures t in WithPredicate(s, p, store) + {guard}
  {
    SolveObject(s, p, "old", store);
    var b, pat :| b in LeftJoin([Previous(s, p)], store, map[]) && pat in [Previous(s, p), Ground(guard)] && Instance(pat, b) == Some(t);
    if pat == Ground(guard) {
      BindGround(guard, guard, b);
    } else {
      assert b != map[];
      var u :| u in WithPredicate(s, p, store) && b == map["old" := u.o];
      assert t == u;
    }
  }

  /** DELETE { s p ?old . guard } INSERT { stamp } WHERE { guard OPTIONAL { s p ?old } }: when
      nothing matches the OPTIONAL part, the guard is still removed. */
  lemma ReplaceObject(guard: Triple, stamp: Triple, s: Term, p: Term, store: set<Triple>)
    ensures Perform(Modify([Previous(s, p), Ground(guard)], [Ground(stamp)], Where([Ground(guard)], [Previous(s, p)], [])), store)
            == if guard in store then store - (WithPredicate(s, p, store) + {guard}) + {stamp} else store
  {
    var extra := [Previous(s, p)];
    var w := Where([Ground(guard)], extra, []);
    SolveGround(guard, [], store, map[]);
    assert [Ground(guard)] + [] == w.bgp;
    var sols := Solutions(w, store);
    assert sols == if guard in store then LeftJoin(extra, store, map[]) else {};
    NoInstances([Previous(s, p), Ground(guard)]);
    NoInstances([Ground(stamp)]);
    InstancesOfPrevious(guard, s, p, store);
    if guard in store {
      var b :| b in sols;
      GroundInstances(stamp, sols);
    }
  }

  lemma GroundInstances(t: Triple, sols: set<Binding>)
    requires sols != {}
    ensures Instances([Ground(t)], sols) == {t}
  {
    var b :| b in sols;
    BindGround(t, t, b);
    assert Ground(t) in [Ground(t)];
  }
}
