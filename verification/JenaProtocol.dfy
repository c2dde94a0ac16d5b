/** Any number of JenaGraph clients on one server: every interleaving of their requests
    (cvcdocdb/jena_graph.py with the write guard of cvcdocdb/networkx_graph.py). */
module JenaProtocol {
  import opened Common
  import opened RdfMapping
  import opened RdfState
  import opened JenaGraph

  /** Where a client is. A load is two requests, and so is a save; between them the others run. */
  datatype Phase =
    | Idle
    | Reading(seen: Option<string>, block: bool)   // the stamp was read, the rows were not
    | Editing(base: GraphState)                    // inside a block that began with `base`
    | Checking(base: GraphState, stamp: string)    // the update was sent, the stamp not yet read back
    | Discarding                                   // to be reloaded

  datatype Client = Client(copy: Copy, phase: Phase)

  /** One installed stamp: `client`'s block turned `base` into `result`. */
  datatype Commit = Commit(stamp: string, client: nat, base: GraphState, result: GraphState)

  /** `history`, `issued` and `acknowledged` only record what happened: the installed stamps in
      order, the stamps drawn so far, and the saves that returned without error. */
  datatype World = World(
    store: set<Triple>,
    clients: map<nat, Client>,
    firstStamp: Option<string>,
    firstState: GraphState,
    history: seq<Commit>,
    issued: set<string>,
    acknowledged: set<(nat, string)>)

  datatype Step =
    | Join(c: nat)
    | ReadStamp(c: nat, seen: Option<string>)
    | ReadRows(c: nat, rows: seq<Triple>)
    | Edit(c: nat, state: GraphState)
    | Abort(c: nat)
    | SaveNothing(c: nat)
    | SendUpdate(c: nat, stamp: string)
    | ReadBack(c: nat, seen: Option<string>)

  ghost function CurrentState(w: World): GraphState {
    if w.history == [] then w.firstState else w.history[|w.history| - 1].result
  }

  ghost function CurrentStamp(w: World): Option<string> {
    if w.history == [] then w.firstStamp else Some(w.history[|w.history| - 1].stamp)
  }

  function Current(ns: string, json: JsonCodec, client: Client): Subjects {
    CurrentSubjects(ns, json, client.copy.state)
  }

  // --- Transitions ---------------------------------------------------------

  ghost predicate Init(ns: string, json: JsonCodec, w: World) {
    && w.clients == map[] && w.history == [] && w.acknowledged == {}
    && Faithful(json, w.firstState) && Holds(ns, json, w.store, w.firstState)
    && VersionIs(ns, w.store, w.firstStamp) && NoToken(ns, w.store)
    && (w.firstStamp.Some? ==> w.firstStamp.value in w.issued)
  }

  function Put(w: World, c: nat, copy: Copy, phase: Phase): World {
    w.(clients := w.clients[c := Client(copy, phase)])
  }

  ghost predicate Next(ns: string, json: JsonCodec, w: World, step: Step, w': World) {
    if step.Join? then
      step.c !in w.clients && w' == Put(w, step.c, FreshCopy(), Discarding)
    else
      step.c in w.clients &&
      var Client(copy, phase) := w.clients[step.c];
      match step
      case ReadStamp(c, stamp) =>
        && (phase.Idle? || phase.Discarding?) && VersionIs(ns, w.store, stamp)
        && w' == Put(w, c, copy,
                     if phase.Idle? && copy.loaded && stamp == copy.version then Editing(copy.state)
                     else Reading(stamp, phase.Idle?))
      case ReadRows(c, rows) =>
        && phase.Reading? && RowSet(rows) == Visible(ns, w.store) && Decode(ns, json, rows).Ok?
        && var s := Decode(ns, json, rows).value;
           w' == Put(w, c, Loaded(ns, json, phase.seen, s), if phase.block then Editing(s) else Idle)
      case Edit(c, state) =>
        && phase.Editing? && Faithful(json, state) && w' == Put(w, c, copy.(state := state), phase)
      case Abort(c) =>
        && phase.Editing? && w' == Put(w, c, copy.(loaded := false), Discarding)
      case SaveNothing(c) =>
        && phase.Editing? && Current(ns, json, w.clients[c]) == copy.synced && w' == Put(w, c, copy, Idle)
      case SendUpdate(c, stamp) =>
        && phase.Editing? && Current(ns, json, w.clients[c]) != copy.synced && stamp !in w.issued
        && Sent(ns, json, w, c, stamp, w')
      case ReadBack(c, stamp) =>
        && phase.Checking? && VersionIs(ns, w.store, stamp)
        && if stamp == Some(phase.stamp) then
             w' == Put(w, c, Confirmed(ns, json, copy, phase.stamp), Idle).(acknowledged := w.acknowledged + {(c, phase.stamp)})
           else w' == Put(w, c, copy.(loaded := false), Discarding)
  }

  /** The server runs the guarded update atomically (`JenaGraph.BuildUpdate` says what it does). */
  ghost predicate Sent(ns: string, json: JsonCodec, w: World, c: nat, stamp: string, w': World)
    requires c in w.clients && w.clients[c].phase.Editing?
  {
    var Client(copy, phase) := w.clients[c];
    var sent := Put(w, c, copy, Checking(phase.base, stamp)).(issued := w.issued + {stamp});
    exists server: Option<string> :: VersionIs(ns, w.store, server) &&
      if server == copy.version then
        w' == sent.(store := Saved(ns, Current(ns, json, w.clients[c]), copy.synced, stamp, w.store),
                    history := w.history + [Commit(stamp, c, phase.base, copy.state)])
      else w' == sent
  }

  // --- Invariant -----------------------------------------------------------

  ghost predicate Installed(history: seq<Commit>, c: nat, stamp: string) {
    exists i | 0 <= i < |history| :: history[i].stamp == stamp && history[i].client == c
  }

  /** Each installed stamp is one block applied to exactly the state of the stamp before it. */
  ghost predicate Chained(history: seq<Commit>, first: GraphState) {
    && (history != [] ==> history[0].base == first)
    && forall i, j | 0 <= i < |history| && 0 <= j < |history| && j == i + 1 :: history[j].base == history[i].result
  }

  ghost predicate ServerOk(ns: string, json: JsonCodec, w: World) {
    && Faithful(json, CurrentState(w)) && Holds(ns, json, w.store, CurrentState(w))
    && VersionIs(ns, w.store, CurrentStamp(w)) && NoToken(ns, w.store)
    && StampsOk(w.history, w.firstStamp, w.issued)
  }

  /** Stamps are drawn once. */
  predicate StampsOk(history: seq<Commit>, firstStamp: Option<string>, issued: set<string>) {
    && (firstStamp.Some? ==> firstStamp.value in issued)
    && (forall i | 0 <= i < |history| :: history[i].stamp in issued && firstStamp != Some(history[i].stamp))
    && (forall i, j | 0 <= i < j < |history| :: history[i].stamp != history[j].stamp)
  }

  predicate Issued(w: World, stamp: Option<string>) {
    stamp.Some? ==> stamp.value in w.issued
  }

  /** A client whose stamp is the server's has synchronised with the server's current state. */
  ghost predicate UpToDate(ns: string, json: JsonCodec, w: World, copy: Copy) {
    copy.version == CurrentStamp(w) ==> copy.synced == CurrentSubjects(ns, json, CurrentState(w))
  }

  ghost predicate ClientOk(ns: string, json: JsonCodec, w: World, c: nat, client: Client) {
    var Client(copy, phase) := client;
    && Faithful(json, copy.state) && Issued(w, copy.version)
    && match phase
       case Idle => copy.loaded && copy.synced == CurrentSubjects(ns, json, copy.state) && UpToDate(ns, json, w, copy)
       case Reading(stamp, _) => Issued(w, stamp)
       case Editing(base) =>
         && Faithful(json, base) && copy.synced == CurrentSubjects(ns, json, base) && UpToDate(ns, json, w, copy)
         && copy.loaded
       case Checking(base, stamp) =>
         && stamp in w.issued && w.firstStamp != Some(stamp) && copy.loaded
         && forall i | 0 <= i < |w.history| && w.history[i].stamp == stamp :: w.history[i] == Commit(stamp, c, base, copy.state)
       case Discarding => true
  }

  ghost predicate Inv(ns: string, json: JsonCodec, w: World) {
    && ServerOk(ns, json, w) && Chained(w.history, w.firstState)
    && (forall c | c in w.clients :: ClientOk(ns, json, w, c, w.clients[c]))
    && AcknowledgedOk(w.acknowledged, w.history)
  }

  ghost predicate AcknowledgedOk(acknowledged: set<(nat, string)>, history: seq<Commit>) {
    forall a | a in acknowledged :: Installed(history, a.0, a.1)
  }

  lemma InitHolds(ns: string, json: JsonCodec, w: World)
    requires Init(ns, json, w)
    ensures Inv(ns, json, w)
  {
  }

  lemma VersionUnique(ns: string, store: set<Triple>, a: Option<string>, b: Option<string>)
    requires VersionIs(ns, store, a) && VersionIs(ns, store, b)
    ensures a == b
  {
    if a.Some? { assert Stamp(ns, a.value) in Stamps(ns, store); }
    if b.Some? { assert Stamp(ns, b.value) in Stamps(ns, store); }
  }

  lemma FreshCopyOk(ns: string, json: JsonCodec, w: World, c: nat)
    ensures ClientOk(ns, json, w, c, Client(FreshCopy(), Discarding))
  {
    assert Faithful(json, EMPTY_STATE) by {
      forall f: Fact | HoldsIn(EMPTY_STATE, f) ensures EncodableFact(json, f) { }
    }
  }

  /** Reading the rows after the stamp, with other commits in between, is harmless. */
  lemma RowsStep(ns: string, json: JsonCodec, w: World, step: Step, w': World)
    requires step.ReadRows? && step.c in w.clients && step.c in w'.clients
    requires Inv(ns, json, w) && Next(ns, json, w, step, w')
    ensures ClientOk(ns, json, w, step.c, w'.clients[step.c]) && w'.clients[step.c].copy.state == CurrentState(w)
  {
    VisibleHolds(ns, json, w.store, CurrentState(w));
    DecodeHeld(ns, json, step.rows, CurrentState(w));
  }

  /** The stamp read back is the client's own only if its block is the last commit. */
  lemma OwnStampIsLast(ns: string, json: JsonCodec, w: World, c: nat, client: Client)
    requires ServerOk(ns, json, w) && ClientOk(ns, json, w, c, client) && client.phase.Checking?
    requires CurrentStamp(w) == Some(client.phase.stamp)
    ensures CurrentState(w) == client.copy.state && Installed(w.history, c, client.phase.stamp)
  {
    var last := |w.history| - 1;
    assert w.history[last] == Commit(client.phase.stamp, c, client.phase.base, client.copy.state);
  }

  lemma ConfirmedOk(ns: string, json: JsonCodec, w: World, c: nat, client: Client)
    requires ServerOk(ns, json, w) && ClientOk(ns, json, w, c, client) && client.phase.Checking?
    requires CurrentStamp(w) == Some(client.phase.stamp) && client.copy.loaded
    ensures ClientOk(ns, json, w, c, Client(Confirmed(ns, json, client.copy, client.phase.stamp), Idle))
  {
    OwnStampIsLast(ns, json, w, c, client);
  }

  lemma ReadBackStep(ns: string, json: JsonCodec, w: World, step: Step, w': World)
    requires step.ReadBack? && step.c in w.clients && step.c in w'.clients
    requires Inv(ns, json, w) && Next(ns, json, w, step, w')
    ensures ClientOk(ns, json, w, step.c, w'.clients[step.c])
    ensures AcknowledgedOk(w'.acknowledged, w.history)
  {
    hide Faithful, Holds, NoToken, CurrentSubjects, StampsOk, Chained;
    VersionUnique(ns, w.store, step.seen, CurrentStamp(w));
    var client := w.clients[step.c];
    assert ClientOk(ns, json, w, step.c, client);
    if step.seen == Some(client.phase.stamp) {
      OwnStampIsLast(ns, json, w, step.c, client);
      ConfirmedOk(ns, json, w, step.c, client);
    }
  }

  /** What a client must satisfy depends on the server's history and stamps only. */
  lemma SameServer(ns: string, json: JsonCodec, w: World, w': World, c: nat, client: Client)
    requires w' == w.(clients := w'.clients, acknowledged := w'.acknowledged)
    requires ClientOk(ns, json, w, c, client)
    ensures ClientOk(ns, json, w', c, client)
  {
    assert CurrentState(w') == CurrentState(w) && CurrentStamp(w') == CurrentStamp(w);
  }

  lemma LocalClient(ns: string, json: JsonCodec, w: World, step: Step, w': World)
    requires !step.SendUpdate? && step.c in w'.clients && (!step.Join? ==> step.c in w.clients)
    requires Inv(ns, json, w) && Next(ns, json, w, step, w')
    ensures ClientOk(ns, json, w, step.c, w'.clients[step.c])
  {
    match step
    case Join(c) => FreshCopyOk(ns, json, w, c);
    case ReadStamp(_, _) => ReadStampStep(ns, json, w, step, w');
    case ReadRows(_, _) => RowsStep(ns, json, w, step, w');
    case ReadBack(_, _) => ReadBackStep(ns, json, w, step, w');
    case SaveNothing(_) => SaveNothingStep(ns, json, w, step, w');
    case Edit(_, _) => EditStep(ns, json, w, step, w');
    case Abort(_) => EditStep(ns, json, w, step, w');
  }

  lemma EditStep(ns: string, json: JsonCodec, w: World, step: Step, w': World)
    requires (step.Edit? || step.Abort?) && step.c in w.clients && step.c in w'.clients
    requires Inv(ns, json, w) && Next(ns, json, w, step, w')
    ensures ClientOk(ns, json, w, step.c, w'.clients[step.c])
  {
    assert ClientOk(ns, json, w, step.c, w.clients[step.c]);
  }

  lemma LocalFrame(ns: string, json: JsonCodec, w: World, step: Step, w': World)
    requires Next(ns, json, w, step, w') && !step.SendUpdate?
    ensures w' == w.(clients := w'.clients, acknowledged := w'.acknowledged)
    ensures forall c | c in w'.clients && c != step.c :: c in w.clients && w'.clients[c] == w.clients[c]
    ensures !step.ReadBack? ==> w'.acknowledged == w.acknowledged
    ensures step.c in w'.clients && (!step.Join? ==> step.c in w.clients)
  {
  }

  lemma LocalClients(ns: string, json: JsonCodec, w: World, step: Step, w': World)
    requires Inv(ns, json, w) && Next(ns, json, w, step, w') && !step.SendUpdate?
    ensures forall c | c in w'.clients :: ClientOk(ns, json, w', c, w'.clients[c])
  {
    LocalFrame(ns, json, w, step, w');
    LocalClient(ns, json, w, step, w');
    forall c | c in w'.clients ensures ClientOk(ns, json, w', c, w'.clients[c]) {
      SameServer(ns, json, w, w', c, w'.clients[c]);
    }
  }

  lemma SameServerOk(ns: string, json: JsonCodec, w: World, w': World)
    requires w' == w.(clients := w'.clients, acknowledged := w'.acknowledged) && ServerOk(ns, json, w)
    ensures ServerOk(ns, json, w')
  {
    assert CurrentState(w') == CurrentState(w) && CurrentStamp(w') == CurrentStamp(w);
  }

  /** A step that leaves the store alone keeps the invariant. */
  lemma LocalStep(ns: string, json: JsonCodec, w: World, step: Step, w': World)
    requires Inv(ns, json, w) && Next(ns, json, w, step, w') && !step.SendUpdate?
    ensures Inv(ns, json, w')
  {
    hide Next, ServerOk, ClientOk;
    LocalFrame(ns, json, w, step, w');
    LocalClients(ns, json, w, step, w');
    SameServerOk(ns, json, w, w');
    assert Chained(w'.history, w'.firstState);
    if step.ReadBack? { ReadBackStep(ns, json, w, step, w'); }
    assert AcknowledgedOk(w'.acknowledged, w'.history);
  }

  lemma ReadStampStep(ns: string, json: JsonCodec, w: World, step: Step, w': World)
    requires step.ReadStamp? && step.c in w.clients && step.c in w'.clients
    requires Inv(ns, json, w) && Next(ns, json, w, step, w')
    ensures ClientOk(ns, json, w, step.c, w'.clients[step.c])
  {
    VersionUnique(ns, w.store, step.seen, CurrentStamp(w));
    assert ClientOk(ns, json, w, step.c, w.clients[step.c]);
  }

  lemma SaveNothingStep(ns: string, json: JsonCodec, w: World, step: Step, w': World)
    requires step.SaveNothing? && step.c in w.clients && step.c in w'.clients
    requires Inv(ns, json, w) && Next(ns, json, w, step, w')
    ensures ClientOk(ns, json, w, step.c, w'.clients[step.c])
  {
    assert ClientOk(ns, json, w, step.c, w.clients[step.c]);
  }

  /** The world after a matching update. */
  ghost predicate Committed(w: World, step: Step, w': World) {
    && step.SendUpdate? && step.c in w.clients && w.clients[step.c].phase.Editing? && step.stamp !in w.issued
    && var Client(copy, phase) := w.clients[step.c];
       w' == Put(w, step.c, copy, Checking(phase.base, step.stamp)).(
         issued := w.issued + {step.stamp}, store := w'.store,
         history := w.history + [Commit(step.stamp, step.c, phase.base, copy.state)])
  }

  /** The world after an update whose expected stamp was no longer there. */
  ghost predicate Refused(w: World, step: Step, w': World) {
    && step.SendUpdate? && step.c in w.clients && w.clients[step.c].phase.Editing? && step.stamp !in w.issued
    && var Client(copy, phase) := w.clients[step.c];
       w' == Put(w, step.c, copy, Checking(phase.base, step.stamp)).(issued := w.issued + {step.stamp})
  }

  lemma SendOutcome(ns: string, json: JsonCodec, w: World, step: Step, w': World)
    requires VersionIs(ns, w.store, CurrentStamp(w)) && Next(ns, json, w, step, w') && step.SendUpdate?
    ensures step.c in w.clients && w.clients[step.c].phase.Editing?
    ensures var client := w.clients[step.c];
            if client.copy.version == CurrentStamp(w)
            then Committed(w, step, w')
                 && w'.store == Saved(ns, Current(ns, json, client), client.copy.synced, step.stamp, w.store)
            else Refused(w, step, w')
  {
    hide CurrentStamp, Saved, CurrentSubjects;
    forall server: Option<string> | VersionIs(ns, w.store, server) ensures server == CurrentStamp(w) {
      VersionUnique(ns, w.store, server, CurrentStamp(w));
    }
  }

  /** A fresh stamp on the server concerns no other client. */
  lemma OtherClientKept(ns: string, json: JsonCodec, w: World, step: Step, w': World, c: nat)
    requires ServerOk(ns, json, w) && Committed(w, step, w') && c in w.clients && c != step.c
    requires ClientOk(ns, json, w, c, w.clients[c])
    ensures ClientOk(ns, json, w', c, w.clients[c])
  {
    var Client(copy, phase) := w.clients[c];
    assert CurrentStamp(w') == Some(step.stamp);
    assert copy.version != CurrentStamp(w');
    if phase.Checking? {
      forall i | 0 <= i < |w'.history| && w'.history[i].stamp == phase.stamp
        ensures w'.history[i] == Commit(phase.stamp, c, phase.base, copy.state)
      {
        assert i < |w.history| && w'.history[i] == w.history[i];
      }
    }
  }

  lemma SenderChecks(ns: string, json: JsonCodec, w: World, step: Step, w': World)
    requires ServerOk(ns, json, w) && Committed(w, step, w') && ClientOk(ns, json, w, step.c, w.clients[step.c])
    ensures ClientOk(ns, json, w', step.c, w'.clients[step.c])
  {
    var Client(copy, phase) := w.clients[step.c];
    forall i | 0 <= i < |w'.history| && w'.history[i].stamp == step.stamp
      ensures w'.history[i] == Commit(step.stamp, step.c, phase.base, copy.state)
    {
      assert i == |w.history|;
    }
  }

  lemma StampsGrow(history: seq<Commit>, firstStamp: Option<string>, issued: set<string>, commit: Commit)
    requires StampsOk(history, firstStamp, issued) && commit.stamp !in issued
    ensures StampsOk(history + [commit], firstStamp, issued + {commit.stamp})
  {
  }

  lemma CommitKeepsServer(ns: string, json: JsonCodec, w: World, step: Step, w': World)
    requires ServerOk(ns, json, w) && Committed(w, step, w')
    requires Faithful(json, CurrentState(w')) && Holds(ns, json, w'.store, CurrentState(w'))
    requires VersionIs(ns, w'.store, Some(step.stamp)) && NoToken(ns, w'.store)
    ensures ServerOk(ns, json, w')
  {
    assert CurrentStamp(w') == Some(step.stamp);
    StampsGrow(w.history, w.firstStamp, w.issued, w'.history[|w.history|]);
  }

  lemma CommitKeepsChain(w: World, step: Step, w': World)
    requires Chained(w.history, w.firstState) && Committed(w, step, w') && w.clients[step.c].phase.base == CurrentState(w)
    ensures Chained(w'.history, w'.firstState)
  {
  }

  lemma InstalledStays(history: seq<Commit>, more: seq<Commit>, c: nat, stamp: string)
    requires Installed(history, c, stamp) && history <= more
    ensures Installed(more, c, stamp)
  {
    var i :| 0 <= i < |history| && history[i].stamp == stamp && history[i].client == c;
    assert more[i] == history[i];
  }

  lemma CommitKeepsInv(ns: string, json: JsonCodec, w: World, step: Step, w': World)
    requires Inv(ns, json, w) && Committed(w, step, w')
    requires w.clients[step.c].phase.base == CurrentState(w)
    requires Faithful(json, CurrentState(w')) && Holds(ns, json, w'.store, CurrentState(w'))
    requires VersionIs(ns, w'.store, Some(step.stamp)) && NoToken(ns, w'.store)
    ensures Inv(ns, json, w')
  {
    CommitKeepsServer(ns, json, w, step, w');
    CommitKeepsChain(w, step, w');
    forall c | c in w'.clients ensures ClientOk(ns, json, w', c, w'.clients[c]) {
      if c == step.c { SenderChecks(ns, json, w, step, w'); } else { OtherClientKept(ns, json, w, step, w', c); }
    }
    forall a | a in w'.acknowledged ensures Installed(w'.history, a.0, a.1) {
      InstalledStays(w.history, w'.history, a.0, a.1);
    }
  }

  lemma RefusalKeepsInv(ns: string, json: JsonCodec, w: World, step: Step, w': World)
    requires Inv(ns, json, w) && Refused(w, step, w')
    ensures Inv(ns, json, w')
  {
    hide Faithful, Holds, NoToken, VersionIs, CurrentSubjects, ClientOk;
    assert CurrentState(w') == CurrentState(w) && CurrentStamp(w') == CurrentStamp(w);
    assert StampsOk(w'.history, w'.firstStamp, w'.issued);
    assert ServerOk(ns, json, w');
    assert Chained(w'.history, w'.firstState);
    assert AcknowledgedOk(w'.acknowledged, w'.history);
    forall c | c in w'.clients ensures ClientOk(ns, json, w', c, w'.clients[c]) {
      assert ClientOk(ns, json, w, c, w.clients[c]);
      if c == step.c { RefusedSender(ns, json, w, step, w'); } else { MoreIssued(ns, json, w, w', c, w.clients[c]); }
    }
  }

  lemma RefusedSender(ns: string, json: JsonCodec, w: World, step: Step, w': World)
    requires ServerOk(ns, json, w) && step.SendUpdate? && step.c in w.clients && w.clients[step.c].phase.Editing?
    requires step.stamp !in w.issued && ClientOk(ns, json, w, step.c, w.clients[step.c])
    requires w'.history == w.history && w'.firstStamp == w.firstStamp && w'.issued == w.issued + {step.stamp}
    ensures ClientOk(ns, json, w', step.c, Client(w.clients[step.c].copy, Checking(w.clients[step.c].phase.base, step.stamp)))
  {
  }

  lemma MoreIssued(ns: string, json: JsonCodec, w: World, w': World, c: nat, client: Client)
    requires w' == w.(clients := w'.clients, issued := w'.issued) && w.issued <= w'.issued
    requires ClientOk(ns, json, w, c, client)
    ensures ClientOk(ns, json, w', c, client)
  {
    assert CurrentState(w') == CurrentState(w) && CurrentStamp(w') == CurrentStamp(w);
  }

  /** A matching update was made from the server's current state. */
  lemma MatchedBase(ns: string, json: JsonCodec, w: World, c: nat)
    requires Inv(ns, json, w) && c in w.clients && w.clients[c].phase.Editing?
    requires w.clients[c].copy.version == CurrentStamp(w)
    ensures w.clients[c].phase.base == CurrentState(w)
    ensures w.clients[c].copy.synced == CurrentSubjects(ns, json, CurrentState(w))
    ensures Faithful(json, w.clients[c].copy.state)
  {
    assert ClientOk(ns, json, w, c, w.clients[c]);
    CurrentDeterminesState(ns, json, w.clients[c].phase.base, CurrentState(w));
  }

  lemma SendStep(ns: string, json: JsonCodec, w: World, step: Step, w': World)
    requires Inv(ns, json, w) && Next(ns, json, w, step, w') && step.SendUpdate?
    ensures Inv(ns, json, w')
    ensures w'.history != w.history ==> Committed(w, step, w') && w.clients[step.c].phase.base == CurrentState(w)
  {
    hide Next, ClientOk, Chained, AcknowledgedOk, Saved, CurrentSubjects;
    SendOutcome(ns, json, w, step, w');
    var client := w.clients[step.c];
    if client.copy.version == CurrentStamp(w) {
      MatchedBase(ns, json, w, step.c);
      SaveKeepsHolding(ns, json, w.store, CurrentState(w), client.copy.state, step.stamp);
      assert CurrentState(w') == client.copy.state;
      CommitKeepsInv(ns, json, w, step, w');
    } else {
      RefusalKeepsInv(ns, json, w, step, w');
    }
  }

  lemma StepKeepsInv(ns: string, json: JsonCodec, w: World, step: Step, w': World)
    requires Inv(ns, json, w) && Next(ns, json, w, step, w')
    ensures Inv(ns, json, w')
  {
    hide *;
    if step.SendUpdate? { SendStep(ns, json, w, step, w'); } else { LocalStep(ns, json, w, step, w'); }
  }

  // --- Runs ----------------------------------------------------------------

  ghost predicate Run(ns: string, json: JsonCodec, worlds: seq<World>, steps: seq<Step>) {
    && |worlds| == |steps| + 1 && Init(ns, json, worlds[0])
    && forall i | 0 <= i < |steps| :: Next(ns, json, worlds[i], steps[i], worlds[i + 1])
  }

  lemma {:induction false} RunKeepsInv(ns: string, json: JsonCodec, worlds: seq<World>, steps: seq<Step>, k: nat)
    requires Run(ns, json, worlds, steps) && k < |worlds|
    ensures Inv(ns, json, worlds[k])
  {
    hide Inv, Next, Init;
    if k == 0 {
      InitHolds(ns, json, worlds[0]);
    } else {
      RunKeepsInv(ns, json, worlds, steps, k - 1);
      StepKeepsInv(ns, json, worlds[k - 1], steps[k - 1], worlds[k]);
    }
  }

  /** Commits are never taken back. */
  lemma {:induction false} HistoryGrows(ns: string, json: JsonCodec, worlds: seq<World>, steps: seq<Step>, j: nat, k: nat)
    requires Run(ns, json, worlds, steps) && j <= k < |worlds|
    ensures worlds[j].history <= worlds[k].history && worlds[j].firstState == worlds[k].firstState
    decreases k - j
  {
    if j < k {
      HistoryGrows(ns, json, worlds, steps, j, k - 1);
      assert Next(ns, json, worlds[k - 1], steps[k - 1], worlds[k]);
    }
  }

  /** No lost update. At every point of every run: the installed stamps form a chain of blocks,
      each applied to exactly the result of the one before; the server decodes to the last result;
      and a save that returned without error installed its own stamp, for good. */
  lemma NoLostUpdate(ns: string, json: JsonCodec, worlds: seq<World>, steps: seq<Step>, k: nat, rows: seq<Triple>)
    requires Run(ns, json, worlds, steps) && k < |worlds| && RowSet(rows) == Visible(ns, worlds[k].store)
    ensures Chained(worlds[k].history, worlds[k].firstState)
    ensures Decode(ns, json, rows) == Ok(CurrentState(worlds[k]))
    ensures VersionIs(ns, worlds[k].store, CurrentStamp(worlds[k]))
    ensures forall j, a | 0 <= j <= k && a in worlds[j].acknowledged ::
              Installed(worlds[k].history, a.0, a.1)
  {
    RunKeepsInv(ns, json, worlds, steps, k);
    VisibleHolds(ns, json, worlds[k].store, CurrentState(worlds[k]));
    DecodeHeld(ns, json, rows, CurrentState(worlds[k]));
    forall j, a | 0 <= j <= k && a in worlds[j].acknowledged ensures Installed(worlds[k].history, a.0, a.1) {
      RunKeepsInv(ns, json, worlds, steps, j);
      HistoryGrows(ns, json, worlds, steps, j, k);
      InstalledStays(worlds[j].history, worlds[k].history, a.0, a.1);
    }
  }

  /** The block a commit records is the committing client's own: from the state it loaded when the
      block began to the state its copy had when the update was sent. */
  lemma CommitIsTheBlock(ns: string, json: JsonCodec, worlds: seq<World>, steps: seq<Step>, k: nat)
    requires Run(ns, json, worlds, steps) && k < |steps| && worlds[k + 1].history != worlds[k].history
    ensures steps[k].SendUpdate? && steps[k].c in worlds[k].clients
    ensures var client := worlds[k].clients[steps[k].c];
            && client.phase.Editing? && client.phase.base == CurrentState(worlds[k])
            && worlds[k + 1].history == worlds[k].history + [Commit(steps[k].stamp, steps[k].c, client.phase.base, client.copy.state)]
  {
    RunKeepsInv(ns, json, worlds, steps, k);
    assert Next(ns, json, worlds[k], steps[k], worlds[k + 1]);
    SendStep(ns, json, worlds[k], steps[k], worlds[k + 1]);
  }

  /** Torn reads are harmless: whenever an idle client's stamp is the server's, its copy and what it
      believes synchronised are the server's current state, although stamp and rows were read apart. */
  lemma TornReadsAreHarmless(ns: string, json: JsonCodec, worlds: seq<World>, steps: seq<Step>, k: nat, c: nat, rows: seq<Triple>)
    requires Run(ns, json, worlds, steps) && k < |worlds| && c in worlds[k].clients
    requires RowSet(rows) == Visible(ns, worlds[k].store)
    requires var client := worlds[k].clients[c];
             (client.phase.Idle? || client.phase.Editing?) && VersionIs(ns, worlds[k].store, client.copy.version)
    ensures Decode(ns, json, rows).Ok?
    ensures worlds[k].clients[c].copy.synced == CurrentSubjects(ns, json, Decode(ns, json, rows).value)
    ensures worlds[k].clients[c].phase.Idle? ==> worlds[k].clients[c].copy.state == Decode(ns, json, rows).value
    ensures worlds[k].clients[c].phase.Editing? ==> worlds[k].clients[c].phase.base == Decode(ns, json, rows).value
  {
    var w := worlds[k];
    RunKeepsInv(ns, json, worlds, steps, k);
    NoLostUpdate(ns, json, worlds, steps, k, rows);
    VersionUnique(ns, w.store, w.clients[c].copy.version, CurrentStamp(w));
    assert ClientOk(ns, json, w, c, w.clients[c]);
    var own := if w.clients[c].phase.Idle? then w.clients[c].copy.state else w.clients[c].phase.base;
    CurrentDeterminesState(ns, json, own, CurrentState(w));
  }
}
