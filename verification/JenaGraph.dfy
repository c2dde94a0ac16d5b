/** The client side of JenaGraph (cvcdocdb/jena_graph.py): the in-memory copy, what was last
    synchronised with the server, and the differential update a save sends. */
module JenaGraph {
  import opened Common
  import opened RdfTerms
  import opened RdfMapping
  import opened RdfState
  import opened SparqlUpdate

  type Subjects = map<Term, set<Triple>>

  // --- Grouping by subject -------------------------------------------------

  function Group(triples: set<Triple>): Subjects {
    map s | s in (set t | t in triples :: t.s) :: About(s, triples)
  }

  lemma GroupAdd(triples: set<Triple>, t: Triple)
    ensures var m := Group(triples);
            Group(triples + {t}) == m[t.s := (if t.s in m then m[t.s] else {}) + {t}]
  {
    forall s | s != t.s ensures About(s, triples + {t}) == About(s, triples) { }
    assert About(t.s, triples + {t}) == (if t.s in Group(triples) then Group(triples)[t.s] else {}) + {t};
  }

  /** `RdfMapping.subjects`. */
  method GroupBySubject(triples: set<Triple>) returns (grouped: Subjects)
    ensures grouped == Group(triples)
  {
    grouped := map[];
    var rest := triples;
    while rest != {}
      invariant rest <= triples && grouped == Group(triples - rest)
      decreases rest
    {
      var t :| t in rest;
      GroupAdd(triples - rest, t);
      assert triples - (rest - {t}) == triples - rest + {t};
      grouped := grouped[t.s := (if t.s in grouped then grouped[t.s] else {}) + {t}];
      rest := rest - {t};
    }
    assert triples - rest == triples;
  }

  lemma GroupInjective(a: set<Triple>, b: set<Triple>)
    requires Group(a) == Group(b)
    ensures a == b
  {
    forall t ensures t in a <==> t in b {
      assert t in a <==> t.s in Group(a) && t in Group(a)[t.s];
      assert t in b <==> t.s in Group(b) && t in Group(b)[t.s];
    }
  }

  /** `_current_subjects`. */
  function CurrentSubjects(ns: string, json: JsonCodec, copy: GraphState): Subjects {
    Group(Triples(ns, json, copy))
  }

  // --- Stamps and tokens ---------------------------------------------------

  function Stamp(ns: string, version: string): Triple {
    Triple(MetaSync(ns), Uri(MetaIri(ns, "syncVersion")), Literal(version, None, None))
  }

  function Token(ns: string, token: string): Triple {
    Triple(MetaSync(ns), Uri(MetaIri(ns, "commit")), Literal(token, None, None))
  }

  function Stamps(ns: string, store: set<Triple>): set<Triple> {
    WithPredicate(MetaSync(ns), Uri(MetaIri(ns, "syncVersion")), store)
  }

  /** The server's version, as `_remote_version` reads it. */
  ghost predicate VersionIs(ns: string, store: set<Triple>, version: Option<string>) {
    Stamps(ns, store) == if version.Some? then {Stamp(ns, version.value)} else {}
  }

  ghost predicate NoToken(ns: string, store: set<Triple>) {
    WithPredicate(MetaSync(ns), Uri(MetaIri(ns, "commit")), store) == {}
  }

  // --- The update of a save ------------------------------------------------

  predicate Differs(current: Subjects, synced: Subjects, subject: Term) {
    if subject in current && subject in synced then current[subject] != synced[subject]
    else subject in current || subject in synced
  }

  function Changed(current: Subjects, synced: Subjects): set<Term> {
    set s | s in current.Keys + synced.Keys && Differs(current, synced, s)
  }

  function Inserted(current: Subjects, done: set<Term>): set<Triple> {
    set s, t | s in done && s in current && t in current[s] :: t
  }

  /** The store once the subjects in `done` were rewritten. */
  function Rewritten(current: Subjects, synced: Subjects, done: set<Term>, store: set<Triple>): set<Triple> {
    (set t | t in store && !(t.s in done && t.s in synced)) + Inserted(current, done)
  }

  /** The store a successful save leaves. */
  function Saved(ns: string, current: Subjects, synced: Subjects, newVersion: string, store: set<Triple>): set<Triple> {
    var rewritten := Rewritten(current, synced, Changed(current, synced), store);
    rewritten - Stamps(ns, rewritten) + {Stamp(ns, newVersion)}
  }

  ghost predicate GroupedFor(ns: string, m: Subjects) {
    MetaSync(ns) !in m && forall s, t | s in m && t in m[s] :: t.s == s
  }

  method ListTriples(triples: set<Triple>) returns (list: seq<Triple>)
    ensures forall t :: t in list <==> t in triples
  {
    list := [];
    var rest := triples;
    while rest != {}
      invariant rest <= triples && forall t :: t in list <==> t in triples - rest
      decreases rest
    {
      var t :| t in rest;
      list := list + [t];
      rest := rest - {t};
    }
  }

  lemma PerformOne(op: Operation, store: set<Triple>)
    ensures PerformAll([op], store) == Perform(op, store)
  {
    assert PerformAll([op][1..], Perform(op, store)) == Perform(op, store);
  }

  method DeleteOperation(guard: Triple, subject: Term) returns (ops: seq<Operation>)
    ensures forall store ::
              PerformAll(ops, store) == if guard in store then store - About(subject, store) else store
  {
    var op := Modify([Everything(subject)], [], Where([Ground(guard), Everything(subject)], [], []));
    ops := [op];
    forall store: set<Triple>
      ensures PerformAll(ops, store) == if guard in store then store - About(subject, store) else store
    {
      DeleteGuarded(guard, subject, store);
      PerformOne(op, store);
    }
  }

  method InsertOperation(guard: Triple, triples: set<Triple>) returns (ops: seq<Operation>)
    ensures forall store ::
              PerformAll(ops, store) == if guard in store then store + triples else store
  {
    var list := ListTriples(triples);
    var op := Modify([], GroundAll(list), Where([Ground(guard)], [], []));
    ops := [op];
    assert triples == set t | t in list;
    forall store: set<Triple>
      ensures PerformAll(ops, store) == if guard in store then store + triples else store
    {
      InsertGuarded(guard, list, store);
      PerformOne(op, store);
    }
  }

  /** The operations for one changed subject. */
  method SubjectOperations(guard: Triple, current: Subjects, synced: Subjects, subject: Term) returns (ops: seq<Operation>)
    requires guard.s != subject
    ensures forall store | guard !in store :: PerformAll(ops, store) == store
    ensures forall store | guard in store :: PerformAll(ops, store)
              == (if subject in synced then store - About(subject, store) else store)
                 + (if subject in current then current[subject] else {})
  {
    var delete, insert := [], [];
    if subject in synced {
      delete := DeleteOperation(guard, subject);
    }
    if subject in current {
      insert := InsertOperation(guard, current[subject]);
    }
    ops := delete + insert;
    ghost var added := if subject in current then current[subject] else {};
    assert forall store | guard !in store :: PerformAll(insert, store) == store;
    assert forall store | guard in store :: PerformAll(insert, store) == store + added;
    forall store: set<Triple>
      ensures guard !in store ==> PerformAll(ops, store) == store
      ensures guard in store ==>
        PerformAll(ops, store) == (if subject in synced then store - About(subject, store) else store) + added
    {
      PerformAllAppend(delete, insert, store);
      var deleted := PerformAll(delete, store);
      assert guard in store ==> deleted == if subject in synced then store - About(subject, store) else store;
    }
  }

  lemma RewriteOne(ns: string, current: Subjects, synced: Subjects, done: set<Term>, subject: Term, store: set<Triple>)
    requires GroupedFor(ns, current) && GroupedFor(ns, synced) && subject !in done
    ensures var before := Rewritten(current, synced, done, store);
            Rewritten(current, synced, done + {subject}, store)
            == (if subject in synced then before - About(subject, before) else before)
               + (if subject in current then current[subject] else {})
  {
    var before := Rewritten(current, synced, done, store);
    var kept := if subject in synced then before - About(subject, before) else before;
    forall t | t in Inserted(current, done) ensures t in kept {
      var s :| s in done && s in current && t in current[s];
      assert t.s == s;
    }
    assert Inserted(current, done + {subject}) == Inserted(current, done) + (if subject in current then current[subject] else {});
  }

  /** The operations for all changed subjects. */
  method BodyOperations(ns: string, guard: Triple, current: Subjects, synced: Subjects) returns (ops: seq<Operation>)
    requires GroupedFor(ns, current) && GroupedFor(ns, synced) && guard.s == MetaSync(ns)
    ensures forall store | guard !in store :: PerformAll(ops, store) == store
    ensures forall store | guard in store ::
              PerformAll(ops, store) == Rewritten(current, synced, Changed(current, synced), store)
  {
    ops := [];
    var rest := Changed(current, synced);
    forall store: set<Triple> ensures Rewritten(current, synced, {}, store) == store { }
    assert forall store: set<Triple> :: PerformAll([], store) == store;
    hide PerformAll, Perform, Changed;
    while rest != {}
      invariant rest <= Changed(current, synced)
      invariant forall store | guard !in store :: PerformAll(ops, store) == store
      invariant forall store | guard in store ::
                  PerformAll(ops, store) == Rewritten(current, synced, Changed(current, synced) - rest, store)
      decreases rest
    {
      var subject :| subject in rest;
      ghost var done := Changed(current, synced) - rest;
      assert done + {subject} == Changed(current, synced) - (rest - {subject});
      var next := SubjectOperations(guard, current, synced, subject);
      forall store: set<Triple> ensures PerformAll(ops + next, store) == PerformAll(next, PerformAll(ops, store)) {
        PerformAllAppend(ops, next, store);
      }
      forall store | guard in store
        ensures PerformAll(ops + next, store) == Rewritten(current, synced, done + {subject}, store)
      {
        RewriteOne(ns, current, synced, done, subject, store);
        assert guard in Rewritten(current, synced, done, store);
      }
      ops := ops + next;
      rest := rest - {subject};
    }
  }

  /** The guarded update of `_save_state`: on a store with no token left over, it is the
      replacement of the changed subjects and of the stamp if the server still has the stamp the
      client knows, and nothing at all otherwise. */
  method BuildUpdate(ns: string, current: Subjects, synced: Subjects, syncedVersion: Option<string>,
                     token: string, newVersion: string) returns (ops: seq<Operation>)
    requires GroupedFor(ns, current) && GroupedFor(ns, synced)
    ensures forall store, v: Option<string> | NoToken(ns, store) && VersionIs(ns, store, v) ::
              PerformAll(ops, store) == if v == syncedVersion then Saved(ns, current, synced, newVersion, store) else store
  {
    var guard := Token(ns, token);
    var sync, version := MetaSync(ns), Uri(MetaIri(ns, "syncVersion"));
    var expected := if syncedVersion.None? then Where([], [], [Pattern(Fixed(sync), Fixed(version), Var("any"))])
                    else Where([Ground(Stamp(ns, syncedVersion.value))], [], []);
    var first := Modify([], [Ground(guard)], expected);
    var body := BodyOperations(ns, guard, current, synced);
    var last := Modify([Previous(sync, version), Ground(guard)], [Ground(Stamp(ns, newVersion))],
                       Where([Ground(guard)], [Previous(sync, version)], []));
    ops := [first] + body + [last];
    forall store, v: Option<string> | NoToken(ns, store) && VersionIs(ns, store, v)
      ensures PerformAll(ops, store) == if v == syncedVersion then Saved(ns, current, synced, newVersion, store) else store
    {
      ThreeParts(first, body, last, store);
      TokenInserted(ns, guard, syncedVersion, v, store);
      var guarded := Perform(first, store);
      TokenIsFresh(ns, token, store);
      ReplaceObject(guard, Stamp(ns, newVersion), sync, version, PerformAll(body, guarded));
      if v == syncedVersion {
        TokenTravels(ns, guard, current, synced, newVersion, store);
      }
    }
  }

  lemma TokenIsFresh(ns: string, token: string, store: set<Triple>)
    requires NoToken(ns, store)
    ensures Token(ns, token) !in store
  {
    var guard := Token(ns, token);
    assert guard in store ==> guard in WithPredicate(guard.s, guard.p, store);
  }

  lemma ThreeParts(first: Operation, body: seq<Operation>, last: Operation, store: set<Triple>)
    ensures PerformAll([first] + body + [last], store) == Perform(last, PerformAll(body, Perform(first, store)))
  {
    assert ([first] + body)[0] == first && ([first] + body)[1..] == body;
    PerformAllAppend([first] + body, [last], store);
    var middle := PerformAll(body, Perform(first, store));
    assert PerformAll([last][1..], Perform([last][0], middle)) == Perform(last, middle);
  }

  lemma TokenInserted(ns: string, guard: Triple, syncedVersion: Option<string>, v: Option<string>, store: set<Triple>)
    requires VersionIs(ns, store, v)
    ensures var sync, version := MetaSync(ns), Uri(MetaIri(ns, "syncVersion"));
            var expected := if syncedVersion.None? then Where([], [], [Pattern(Fixed(sync), Fixed(version), Var("any"))])
                            else Where([Ground(Stamp(ns, syncedVersion.value))], [], []);
            Perform(Modify([], [Ground(guard)], expected), store) == if v == syncedVersion then store + {guard} else store
  {
    if syncedVersion.None? {
      InsertIfAbsent(guard, MetaSync(ns), Uri(MetaIri(ns, "syncVersion")), "any", store);
    } else {
      var stamp := Stamp(ns, syncedVersion.value);
      InsertIfPresent(guard, stamp, store);
      assert stamp in store <==> stamp in Stamps(ns, store);
    }
  }

  lemma SyncPredicatesDiffer(ns: string)
    ensures MetaIri(ns, "syncVersion") != MetaIri(ns, "commit")
  {
    IriInjectiveMeta(ns, "syncVersion", "commit");
  }

  lemma IriInjectiveMeta(ns: string, a: string, b: string)
    ensures MetaIri(ns, a) == MetaIri(ns, b) ==> a == b
  {
    if MetaIri(ns, a) == MetaIri(ns, b) { IriInjective(ns, "meta", a, "meta", b); }
  }

  /** The token is in the store from the first operation to the last, and only there. */
  lemma TokenTravels(ns: string, guard: Triple, current: Subjects, synced: Subjects, newVersion: string, store: set<Triple>)
    requires GroupedFor(ns, current) && GroupedFor(ns, synced)
    requires guard.s == MetaSync(ns) && guard.p == Uri(MetaIri(ns, "commit")) && guard !in store
    ensures var rewritten := Rewritten(current, synced, Changed(current, synced), store + {guard});
            && guard in rewritten
            && rewritten - (Stamps(ns, rewritten) + {guard}) + {Stamp(ns, newVersion)}
               == Saved(ns, current, synced, newVersion, store)
  {
    SyncPredicatesDiffer(ns);
    var changed := Changed(current, synced);
    forall t | t in Inserted(current, changed) ensures t != guard {
      var s :| s in changed && s in current && t in current[s];
      assert t.s == s;
    }
    assert Rewritten(current, synced, changed, store + {guard}) == Rewritten(current, synced, changed, store) + {guard};
  }

  // --- What a save means ---------------------------------------------------

  lemma OwnedIsNotSync(ns: string, subject: Term)
    requires Owned(ns, subject)
    ensures subject != MetaSync(ns)
  {
    if id: nat :| subject == NodeTerm(ns, id) {
      LocalOfIri(ns, "node", Decimals.ShowNat(id));
      LocalOfOneKind(ns, "meta", "node", "sync");
    } else if e: EdgeKey :| subject == EdgeTerm(ns, e) {
      SubjectsApart(ns, 0, e);
      LocalOfOneKind(ns, "meta", "edge", "sync");
    } else {
      IriInjectiveMeta(ns, "state", "sync");
    }
  }

  lemma NotOwned(ns: string)
    ensures !Owned(ns, MetaSync(ns))
  {
    forall subject | Owned(ns, subject) ensures subject != MetaSync(ns) {
      OwnedIsNotSync(ns, subject);
    }
  }

  /** The stamp says nothing about the state. */
  lemma StampIsForeign(ns: string, json: JsonCodec, version: string)
    ensures !Owned(ns, MetaSync(ns))
    ensures ReadTriple(ns, json, Stamp(ns, version)) == Ok(Nothing)
  {
    NotOwned(ns);
    IriInjectiveMeta(ns, "state", "sync");
    LocalOfOneKind(ns, "meta", "node", "sync");
    LocalOfOneKind(ns, "meta", "edge", "sync");
  }

  lemma CurrentIsGrouped(ns: string, json: JsonCodec, s: GraphState)
    ensures GroupedFor(ns, CurrentSubjects(ns, json, s))
  {
    SubjectsOwned(ns, json, s);
    StampIsForeign(ns, json, "");
  }

  lemma CurrentDeterminesState(ns: string, json: JsonCodec, a: GraphState, b: GraphState)
    requires Faithful(json, a) && Faithful(json, b) && CurrentSubjects(ns, json, a) == CurrentSubjects(ns, json, b)
    ensures a == b
  {
    GroupInjective(Triples(ns, json, a), Triples(ns, json, b));
    TriplesDetermineState(ns, json, a, b);
  }

  lemma InCurrent(ns: string, json: JsonCodec, s: GraphState, t: Triple)
    ensures t in Triples(ns, json, s) <==> t.s in CurrentSubjects(ns, json, s) && t in CurrentSubjects(ns, json, s)[t.s]
  {
  }

  lemma SameBookkeeping(ns: string, json: JsonCodec, a: GraphState, b: GraphState)
    requires Faithful(json, a) && Faithful(json, b)
    requires !Differs(CurrentSubjects(ns, json, b), CurrentSubjects(ns, json, a), MetaState(ns))
    ensures DefaultMeta(a) <==> DefaultMeta(b)
  {
    var counter, version := TripleOf(ns, json, Counter(a.counter)), TripleOf(ns, json, Version(a.version));
    InCurrent(ns, json, a, counter);
    InCurrent(ns, json, b, counter);
    InCurrent(ns, json, a, version);
    InCurrent(ns, json, b, version);
    assert counter in MetaTriples(ns, json, a) && version in MetaTriples(ns, json, a);
    assert HoldsIn(a, Counter(a.counter)) && HoldsIn(a, Version(a.version));
    FactTripleHolds(ns, json, a, Counter(a.counter), counter);
    FactTripleHolds(ns, json, a, Version(a.version), version);
    TripleHolds(ns, json, b, counter);
    TripleHolds(ns, json, b, version);
  }

  lemma SavedOnlyHolds(ns: string, json: JsonCodec, store: set<Triple>, before: GraphState, after: GraphState, newVersion: string, t: Triple)
    requires Holds(ns, json, store, before)
    requires t in Saved(ns, CurrentSubjects(ns, json, after), CurrentSubjects(ns, json, before), newVersion, store)
    ensures t in Triples(ns, json, after) || (!Owned(ns, t.s) && ReadTriple(ns, json, t) == Ok(Nothing))
  {
    var current, synced := CurrentSubjects(ns, json, after), CurrentSubjects(ns, json, before);
    StampIsForeign(ns, json, newVersion);
    InCurrent(ns, json, before, t);
    InCurrent(ns, json, after, t);
    if t in Inserted(current, Changed(current, synced)) {
      var s :| s in Changed(current, synced) && s in current && t in current[s];
    }
  }

  lemma SavedHoldsAll(ns: string, json: JsonCodec, store: set<Triple>, before: GraphState, after: GraphState, newVersion: string, t: Triple)
    requires Faithful(json, before) && Faithful(json, after) && Holds(ns, json, store, before) && t in Triples(ns, json, after)
    ensures var current, synced := CurrentSubjects(ns, json, after), CurrentSubjects(ns, json, before);
            t in Saved(ns, current, synced, newVersion, store)
            || (t.s == MetaState(ns) && DefaultMeta(after) && !Differs(current, synced, t.s)
                && forall u | u in store :: u.s != MetaState(ns))
  {
    var current, synced := CurrentSubjects(ns, json, after), CurrentSubjects(ns, json, before);
    StateSubjectsOwned(ns, json, after, t);
    OwnedIsNotSync(ns, t.s);
    InCurrent(ns, json, before, t);
    InCurrent(ns, json, after, t);
    if t.s in Changed(current, synced) {
      assert t in Inserted(current, Changed(current, synced));
    } else {
      assert t in Triples(ns, json, before);
      if t !in store { SameBookkeeping(ns, json, before, after); }
    }
  }

  /** A save made from the state the store holds leaves a store that holds the client's state,
      under the new stamp and with no token. */
  lemma SaveKeepsHolding(ns: string, json: JsonCodec, store: set<Triple>, before: GraphState, after: GraphState, newVersion: string)
    requires Faithful(json, before) && Faithful(json, after) && Holds(ns, json, store, before) && NoToken(ns, store)
    ensures var result := Saved(ns, CurrentSubjects(ns, json, after), CurrentSubjects(ns, json, before), newVersion, store);
            && Holds(ns, json, result, after) && VersionIs(ns, result, Some(newVersion)) && NoToken(ns, result)
  {
    var current, synced := CurrentSubjects(ns, json, after), CurrentSubjects(ns, json, before);
    var result := Saved(ns, current, synced, newVersion, store);
    forall t | t in result ensures t in Triples(ns, json, after) || (!Owned(ns, t.s) && ReadTriple(ns, json, t) == Ok(Nothing)) {
      SavedOnlyHolds(ns, json, store, before, after, newVersion, t);
    }
    forall t | t in Triples(ns, json, after) && t !in result
      ensures t.s == MetaState(ns) && DefaultMeta(after) && forall u | u in result :: u.s != MetaState(ns)
    {
      SavedHoldsAll(ns, json, store, before, after, newVersion, t);
      NothingAbout(ns, json, store, before, after, newVersion);
    }
    SavedSync(ns, json, store, before, after, newVersion);
  }

  lemma NothingAbout(ns: string, json: JsonCodec, store: set<Triple>, before: GraphState, after: GraphState, newVersion: string)
    requires forall u | u in store :: u.s != MetaState(ns)
    requires !Differs(CurrentSubjects(ns, json, after), CurrentSubjects(ns, json, before), MetaState(ns))
    ensures forall u | u in Saved(ns, CurrentSubjects(ns, json, after), CurrentSubjects(ns, json, before), newVersion, store) ::
              u.s != MetaState(ns)
  {
    var current, synced := CurrentSubjects(ns, json, after), CurrentSubjects(ns, json, before);
    IriInjectiveMeta(ns, "state", "sync");
    forall u | u in Inserted(current, Changed(current, synced)) ensures u.s != MetaState(ns) {
      var s :| s in Changed(current, synced) && s in current && u in current[s];
    }
  }

  lemma SavedSync(ns: string, json: JsonCodec, store: set<Triple>, before: GraphState, after: GraphState, newVersion: string)
    requires NoToken(ns, store)
    ensures var result := Saved(ns, CurrentSubjects(ns, json, after), CurrentSubjects(ns, json, before), newVersion, store);
            VersionIs(ns, result, Some(newVersion)) && NoToken(ns, result)
  {
    var current, synced := CurrentSubjects(ns, json, after), CurrentSubjects(ns, json, before);
    var result := Saved(ns, current, synced, newVersion, store);
    CurrentIsGrouped(ns, json, after);
    SyncUntouched(ns, current, synced, newVersion, store);
    assert Stamps(ns, result) == {Stamp(ns, newVersion)};
  }

  /** The rewriting neither inserts a stamp nor a token. */
  lemma SyncUntouched(ns: string, current: Subjects, synced: Subjects, newVersion: string, store: set<Triple>)
    requires GroupedFor(ns, current)
    ensures forall u | u in Inserted(current, Changed(current, synced)) :: u.s != MetaSync(ns)
    ensures var commit := Uri(MetaIri(ns, "commit"));
            WithPredicate(MetaSync(ns), commit, Saved(ns, current, synced, newVersion, store)) <= WithPredicate(MetaSync(ns), commit, store)
  {
    SyncPredicatesDiffer(ns);
    forall u | u in Inserted(current, Changed(current, synced)) ensures u.s != MetaSync(ns) {
      var s :| s in Changed(current, synced) && s in current && u in current[s];
    }
  }

  /** Triples of subjects neither state writes to are left alone, the stamp's subject apart. */
  lemma SaveFrame(ns: string, json: JsonCodec, store: set<Triple>, before: GraphState, after: GraphState, newVersion: string, t: Triple)
    requires !Owned(ns, t.s) && t.s != MetaSync(ns)
    ensures t in Saved(ns, CurrentSubjects(ns, json, after), CurrentSubjects(ns, json, before), newVersion, store) <==> t in store
  {
    var current, synced := CurrentSubjects(ns, json, after), CurrentSubjects(ns, json, before);
    SubjectsOwned(ns, json, before);
    SubjectsOwned(ns, json, after);
    forall u | u in Inserted(current, Changed(current, synced)) ensures u.s in current {
      var s :| s in Changed(current, synced) && s in current && u in current[s];
    }
  }

  lemma SubjectsOwned(ns: string, json: JsonCodec, s: GraphState)
    ensures forall subject | subject in CurrentSubjects(ns, json, s) :: Owned(ns, subject)
  {
    forall subject | subject in CurrentSubjects(ns, json, s) ensures Owned(ns, subject) {
      var u :| u in Triples(ns, json, s) && u.s == subject;
      StateSubjectsOwned(ns, json, s, u);
    }
  }

  // --- Reading the store ---------------------------------------------------

  /** The triples the load query selects: those whose subject begins with the namespace. */
  function Visible(ns: string, store: set<Triple>): set<Triple> {
    set t | t in store && t.s.Uri? && ns <= t.s.iri
  }

  lemma VisibleHolds(ns: string, json: JsonCodec, store: set<Triple>, s: GraphState)
    requires Holds(ns, json, store, s)
    ensures Holds(ns, json, Visible(ns, store), s)
  {
    forall t | t in store && Owned(ns, t.s) ensures t in Visible(ns, store) {
      OwnedIsVisible(ns, t.s);
    }
    forall t | t in Triples(ns, json, s) ensures t in Visible(ns, store) <==> t in store {
      StateSubjectsOwned(ns, json, s, t);
      OwnedIsVisible(ns, t.s);
    }
  }

  lemma OwnedIsVisible(ns: string, subject: Term)
    requires Owned(ns, subject)
    ensures subject.Uri? && ns <= subject.iri
  {
  }

  // --- The client object ---------------------------------------------------

  /** The synchronisation fields of a client. */
  datatype Copy = Copy(state: GraphState, synced: Subjects, version: Option<string>, loaded: bool)

  function FreshCopy(): Copy {
    Copy(EMPTY_STATE, map[], None, false)
  }

  /** The fields after a load that saw `version` and then decoded `state`. */
  function Loaded(ns: string, json: JsonCodec, version: Option<string>, state: GraphState): Copy {
    Copy(state, CurrentSubjects(ns, json, state), version, true)
  }

  function Confirmed(ns: string, json: JsonCodec, c: Copy, newVersion: string): Copy {
    c.(synced := CurrentSubjects(ns, json, c.state), version := Some(newVersion))
  }

  class JenaClient {
    const ns: string
    const json: JsonCodec
    var state: GraphState
    var synced: Subjects
    var syncedVersion: Option<string>
    var loaded: bool

    constructor (ns: string, json: JsonCodec)
      ensures this.ns == ns && this.json == json && View() == FreshCopy()
    {
      this.ns, this.json := ns, json;
      state, synced, syncedVersion, loaded := EMPTY_STATE, map[], None, false;
    }

    function View(): Copy
      reads this
    {
      Copy(state, synced, syncedVersion, loaded)
    }

    /** First half of `_load_state`: is the second request needed? */
    method NeedsRows(version: Option<string>) returns (needed: bool)
      ensures needed <==> !(loaded && version == syncedVersion)
    {
      needed := !(loaded && version == syncedVersion);
    }

    /** Second half of `_load_state`: the rows of the second request become the copy. */
    method InstallRows(version: Option<string>, rows: seq<Triple>) returns (error: Option<DecodeError>)
      modifies this
      ensures error == match Decode(ns, json, rows) { case Ok(_) => None case Err(e) => Some(e) }
      ensures View() == match Decode(ns, json, rows) { case Ok(s) => Loaded(ns, json, version, s) case Err(_) => old(View()) }
    {
      var decoded := StateFromTriples(ns, json, rows);
      if decoded.Err? { return Some(decoded.error); }
      state := decoded.value;
      var triples := StateToTriples(ns, json, state);
      synced := GroupBySubject(triples);
      syncedVersion := version;
      loaded := true;
      return None;
    }

    /** The body of a block: any change to the in-memory copy. */
    method Edit(newState: GraphState)
      modifies this`state
      ensures View() == old(View()).(state := newState)
    {
      state := newState;
    }

    /** First half of `_save_state`: nothing to send, or the update to send. */
    method PrepareSave(token: string, newVersion: string) returns (request: Option<seq<Operation>>)
      requires GroupedFor(ns, synced)
      ensures var current := CurrentSubjects(ns, json, state);
              if current == synced then request == None
              else request.Some? && forall store, v: Option<string> | NoToken(ns, store) && VersionIs(ns, store, v) ::
                PerformAll(request.value, store) == if v == syncedVersion then Saved(ns, current, synced, newVersion, store) else store
    {
      var triples := StateToTriples(ns, json, state);
      var current := GroupBySubject(triples);
      CurrentIsGrouped(ns, json, state);
      NoChangeIsEqual(current, synced);
      if Changed(current, synced) == {} { return None; }
      var ops := BuildUpdate(ns, current, synced, syncedVersion, token, newVersion);
      return Some(ops);
    }

    /** Second half of `_save_state`: the stamp read back decides. On a conflict the copy is
        marked as not loaded, so that `_discard_unsaved_changes` reloads it. */
    method FinishSave(newVersion: string, remote: Option<string>) returns (conflict: bool)
      modifies this
      ensures conflict <==> remote != Some(newVersion)
      ensures View() == if conflict then old(View()).(loaded := false) else Confirmed(ns, json, old(View()), newVersion)
    {
      if remote != Some(newVersion) {
        loaded := false;
        return true;
      }
      var triples := StateToTriples(ns, json, state);
      synced := GroupBySubject(triples);
      syncedVersion := Some(newVersion);
      return false;
    }

    /** A block that raised: the copy is to be reloaded. */
    method Discard()
      modifies this`loaded
      ensures View() == old(View()).(loaded := false)
    {
      loaded := false;
    }
  }

  lemma NoChangeIsEqual(current: Subjects, synced: Subjects)
    ensures Changed(current, synced) == {} <==> current == synced
  {
    if Changed(current, synced) == {} {
      forall s ensures s in current <==> s in synced {
        if s in current.Keys + synced.Keys { assert s !in Changed(current, synced); }
      }
      assert current.Keys == synced.Keys;
      forall s | s in current ensures current[s] == synced[s] {
        assert s !in Changed(current, synced);
      }
    }
  }
}
