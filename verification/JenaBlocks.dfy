/** Blocks of JenaGraph clients (cvcdocdb/jena_graph.py, `_load_state` and `_save_state`): when they
    begin, when their update is refused, when their save is acknowledged, and that the client class
    takes the protocol's steps. */
module JenaBlocks {
  import opened Common
  import opened RdfMapping
  import opened RdfState
  import opened SparqlUpdate
  import opened JenaGraph
  import opened JenaProtocol

  // --- Where a block begins ------------------------------------------------

  /** A block begins with the server's state, whether the copy was reloaded for it or not. */
  lemma BlockBeginsFresh(ns: string, json: JsonCodec, worlds: seq<World>, steps: seq<Step>, k: nat, c: nat)
    requires Run(ns, json, worlds, steps) && k < |steps| && c in worlds[k + 1].clients
    requires worlds[k + 1].clients[c].phase.Editing?
    requires !(c in worlds[k].clients && worlds[k].clients[c].phase.Editing?)
    ensures worlds[k + 1].clients[c].phase.base == CurrentState(worlds[k])
    ensures worlds[k + 1].clients[c].copy.state == CurrentState(worlds[k])
  {
    var w, step, w' := worlds[k], steps[k], worlds[k + 1];
    RunKeepsInv(ns, json, worlds, steps, k);
    assert Next(ns, json, w, step, w');
    hide Inv, Faithful, CurrentSubjects;
    BeginsFresh(ns, json, w, step, w', c);
  }

  lemma BeginsFresh(ns: string, json: JsonCodec, w: World, step: Step, w': World, c: nat)
    requires Inv(ns, json, w) && Next(ns, json, w, step, w') && c in w'.clients && w'.clients[c].phase.Editing?
    requires !(c in w.clients && w.clients[c].phase.Editing?)
    ensures w'.clients[c].phase.base == CurrentState(w) == w'.clients[c].copy.state
  {
    StepFrame(ns, json, w, step, w');
    if step.ReadRows? {
      RowsStep(ns, json, w, step, w');
    } else if step.ReadStamp? {
      VersionUnique(ns, w.store, step.seen, CurrentStamp(w));
      assert ClientOk(ns, json, w, c, w.clients[c]);
      CurrentDeterminesState(ns, json, w.clients[c].copy.state, CurrentState(w));
    }
  }

  /** A step concerns one client, and only an update may add a commit, of that client. */
  lemma StepFrame(ns: string, json: JsonCodec, w: World, step: Step, w': World)
    requires Inv(ns, json, w) && Next(ns, json, w, step, w')
    ensures step.c in w'.clients && forall c | c in w'.clients && c != step.c :: c in w.clients && w'.clients[c] == w.clients[c]
    ensures if w'.history == w.history then true
            else step.SendUpdate? && |w'.history| == |w.history| + 1 && w'.history[|w.history|].client == step.c
                 && w.history <= w'.history
    ensures step.SendUpdate? ==> step.c in w.clients && w.clients[step.c].phase.Editing? && w'.clients[step.c].phase.Checking?
  {
    if step.SendUpdate? {
      hide ClientOk, Chained, AcknowledgedOk, Saved, CurrentSubjects;
      SendOutcome(ns, json, w, step, w');
    } else {
      hide Inv;
      LocalFrame(ns, json, w, step, w');
    }
  }

  // --- When an update is refused -------------------------------------------

  /** Nobody's but others' commits from `from` on. */
  predicate ByOthers(history: seq<Commit>, from: nat, c: nat) {
    forall i | from <= i < |history| :: history[i].client != c
  }

  /** From step `j` on, client `c` neither began a load nor sent an update. */
  predicate Undisturbed(steps: seq<Step>, j: nat, k: nat, c: nat) {
    forall m | j < m < k && m < |steps| && steps[m].c == c :: !steps[m].ReadStamp? && !steps[m].SendUpdate?
  }

  /** The stamp a client in a block, or loading for one, relies on. */
  function Relied(client: Client): Option<string> {
    if client.phase.Reading? then client.phase.seen else client.copy.version
  }

  /** It is the server's stamp when the client last read it, and only others have committed since. */
  lemma {:induction false} BlockBegan(ns: string, json: JsonCodec, worlds: seq<World>, steps: seq<Step>, k: nat, c: nat) returns (j: nat)
    requires Run(ns, json, worlds, steps) && k < |worlds| && c in worlds[k].clients
    requires worlds[k].clients[c].phase.Reading? || worlds[k].clients[c].phase.Editing?
    ensures j < k && steps[j].ReadStamp? && steps[j].c == c && Undisturbed(steps, j, k, c)
    ensures Relied(worlds[k].clients[c]) == CurrentStamp(worlds[j])
    ensures worlds[j].history <= worlds[k].history && ByOthers(worlds[k].history, |worlds[j].history|, c)
  {
    hide Inv, Next, Run, ByOthers, Relied;
    StepBefore(ns, json, worlds, steps, k, c);
    var w, step, w' := worlds[k - 1], steps[k - 1], worlds[k];
    StepFrame(ns, json, w, step, w');
    if step.ReadStamp? && step.c == c {
      j := k - 1;
      RelianceBegins(ns, json, w, step, w');
      NoneSince(w'.history, c);
    } else {
      RelianceStays(ns, json, w, step, w', c);
      j := BlockBegan(ns, json, worlds, steps, k - 1, c);
      OthersStill(worlds[j].history, w.history, w'.history, c);
    }
  }

  lemma RelianceBegins(ns: string, json: JsonCodec, w: World, step: Step, w': World)
    requires Inv(ns, json, w) && Next(ns, json, w, step, w') && step.ReadStamp? && step.c in w'.clients
    ensures Relied(w'.clients[step.c]) == CurrentStamp(w) && w'.history == w.history
  {
    VersionUnique(ns, w.store, step.seen, CurrentStamp(w));
  }

  lemma RelianceStays(ns: string, json: JsonCodec, w: World, step: Step, w': World, c: nat)
    requires Inv(ns, json, w) && Next(ns, json, w, step, w') && c in w'.clients && !(step.ReadStamp? && step.c == c)
    requires w'.clients[c].phase.Reading? || w'.clients[c].phase.Editing?
    ensures c in w.clients && (w.clients[c].phase.Reading? || w.clients[c].phase.Editing?)
    ensures Relied(w'.clients[c]) == Relied(w.clients[c]) && !(step.SendUpdate? && step.c == c)
  {
    StepFrame(ns, json, w, step, w');
  }

  lemma StampsTell(ns: string, json: JsonCodec, a: World, b: World)
    requires ServerOk(ns, json, b) && a.history <= b.history && a.firstStamp == b.firstStamp
    ensures CurrentStamp(a) == CurrentStamp(b) <==> a.history == b.history
  {
    hide Holds, Faithful, NoToken, VersionIs;
    if a.history != b.history {
      assert b.history[|b.history| - 1].stamp != (if a.history == [] then "" else a.history[|a.history| - 1].stamp) || a.history == [];
    }
  }

  lemma {:induction false} FirstStampStays(ns: string, json: JsonCodec, worlds: seq<World>, steps: seq<Step>, j: nat, k: nat)
    requires Run(ns, json, worlds, steps) && j <= k < |worlds|
    ensures worlds[j].firstStamp == worlds[k].firstStamp
    decreases k - j
  {
    if j < k {
      hide Next, Init;
      FirstStampStays(ns, json, worlds, steps, j, k - 1);
      NextKeepsFirst(ns, json, worlds[k - 1], steps[k - 1], worlds[k - 1 + 1]);
    }
  }

  lemma NextKeepsFirst(ns: string, json: JsonCodec, w: World, step: Step, w': World)
    requires Next(ns, json, w, step, w')
    ensures w'.firstStamp == w.firstStamp
  {
    hide VersionIs, Decode, Faithful, Visible, Saved, Current, Loaded, Confirmed;
  }

  /** An update is refused if and only if others committed between the block's reading of the stamp and
      the update: a client that is alone always gets through. */
  lemma RefusedIff(ns: string, json: JsonCodec, worlds: seq<World>, steps: seq<Step>, k: nat) returns (j: nat)
    requires Run(ns, json, worlds, steps) && k < |steps| && steps[k].SendUpdate?
    ensures j < k && steps[j].ReadStamp? && steps[j].c == steps[k].c && Undisturbed(steps, j, k, steps[k].c)
    ensures worlds[j].history <= worlds[k].history && ByOthers(worlds[k].history, |worlds[j].history|, steps[k].c)
    ensures worlds[k + 1].history == worlds[k].history <==> |worlds[k].history| > |worlds[j].history|
  {
    var w, c := worlds[k], steps[k].c;
    RunKeepsInv(ns, json, worlds, steps, k);
    assert Next(ns, json, w, steps[k], worlds[k + 1]);
    SendOutcome(ns, json, w, steps[k], worlds[k + 1]);
    j := BlockBegan(ns, json, worlds, steps, k, c);
    FirstStampStays(ns, json, worlds, steps, j, k);
    hide Inv, Next, ServerOk, ClientOk, Saved;
    assert ServerOk(ns, json, w) by { InvServer(ns, json, w); }
    StampsTell(ns, json, worlds[j], w);
  }

  lemma InvServer(ns: string, json: JsonCodec, w: World)
    requires Inv(ns, json, w)
    ensures ServerOk(ns, json, w)
  {
  }

  /** A block sends an update exactly when it changed something. */
  lemma SavesIfChanged(ns: string, json: JsonCodec, worlds: seq<World>, steps: seq<Step>, k: nat)
    requires Run(ns, json, worlds, steps) && k < |steps| && steps[k].c in worlds[k].clients
    ensures var client := worlds[k].clients[steps[k].c];
            && (steps[k].SaveNothing? ==> client.phase.Editing? && client.copy.state == client.phase.base)
            && (steps[k].SendUpdate? ==> client.phase.Editing? && client.copy.state != client.phase.base)
  {
    var w, c := worlds[k], steps[k].c;
    RunKeepsInv(ns, json, worlds, steps, k);
    assert Next(ns, json, w, steps[k], worlds[k + 1]);
    assert ClientOk(ns, json, w, c, w.clients[c]);
    if steps[k].SaveNothing? { CurrentDeterminesState(ns, json, w.clients[c].copy.state, w.clients[c].phase.base); }
  }

  // --- When a save is acknowledged -----------------------------------------

  /** The update whose answer a client waits for. */
  lemma {:induction false} UpdateSent(ns: string, json: JsonCodec, worlds: seq<World>, steps: seq<Step>, k: nat, c: nat) returns (j: nat)
    requires Run(ns, json, worlds, steps) && k < |worlds| && c in worlds[k].clients && worlds[k].clients[c].phase.Checking?
    ensures j < k && steps[j] == SendUpdate(c, worlds[k].clients[c].phase.stamp)
    ensures worlds[j + 1].history <= worlds[k].history && ByOthers(worlds[k].history, |worlds[j + 1].history|, c)
  {
    hide Inv, Next, Run, ByOthers;
    StepBefore(ns, json, worlds, steps, k, c);
    var w, step, w' := worlds[k - 1], steps[k - 1], worlds[k];
    StepFrame(ns, json, w, step, w');
    CheckingStays(ns, json, w, step, w', c);
    if step.SendUpdate? && step.c == c {
      j := k - 1;
      NoneSince(w'.history, c);
    } else {
      j := UpdateSent(ns, json, worlds, steps, k - 1, c);
      OthersStill(worlds[j + 1].history, w.history, w'.history, c);
    }
  }

  lemma StepBefore(ns: string, json: JsonCodec, worlds: seq<World>, steps: seq<Step>, k: nat, c: nat)
    requires Run(ns, json, worlds, steps) && k < |worlds| && c in worlds[k].clients
    ensures 0 < k <= |steps| && Inv(ns, json, worlds[k - 1]) && Next(ns, json, worlds[k - 1], steps[k - 1], worlds[k])
  {
    hide Inv, Next;
    RunKeepsInv(ns, json, worlds, steps, k - 1);
    assert Next(ns, json, worlds[k - 1], steps[k - 1], worlds[k - 1 + 1]);
  }

  lemma NoneSince(history: seq<Commit>, c: nat)
    ensures ByOthers(history, |history|, c)
  {
  }

  lemma OthersStill(first: seq<Commit>, before: seq<Commit>, after: seq<Commit>, c: nat)
    requires first <= before && ByOthers(before, |first|, c)
    requires after == before || (|after| == |before| + 1 && before <= after && after[|before|].client != c)
    ensures first <= after && ByOthers(after, |first|, c)
  {
  }

  lemma CheckingStays(ns: string, json: JsonCodec, w: World, step: Step, w': World, c: nat)
    requires Inv(ns, json, w) && Next(ns, json, w, step, w') && c in w'.clients && w'.clients[c].phase.Checking?
    ensures if step.SendUpdate? && step.c == c then w'.clients[c].phase.stamp == step.stamp else c in w.clients && w.clients[c] == w'.clients[c]
  {
    StepFrame(ns, json, w, step, w');
    if step.SendUpdate? {
      hide ClientOk, Chained, AcknowledgedOk, Saved, CurrentSubjects;
      SendOutcome(ns, json, w, step, w');
    }
  }

  /** The answer is read off the server's stamp. */
  lemma AnswerIs(ns: string, json: JsonCodec, w: World, step: Step, w': World)
    requires Inv(ns, json, w) && Next(ns, json, w, step, w') && step.ReadBack?
    ensures step.c in w.clients && w.clients[step.c].phase.Checking? && step.c in w'.clients
    ensures var stamp := w.clients[step.c].phase.stamp;
            if CurrentStamp(w) == Some(stamp)
            then w'.clients[step.c].phase.Idle? && w'.acknowledged == w.acknowledged + {(step.c, stamp)}
            else w'.clients[step.c].phase.Discarding? && w'.acknowledged == w.acknowledged
  {
    VersionUnique(ns, w.store, step.seen, CurrentStamp(w));
  }

  /** A save is acknowledged if and only if its update was applied and nobody committed before the
      stamp was read back; otherwise the copy is to be reloaded. */
  lemma AcknowledgedIff(ns: string, json: JsonCodec, worlds: seq<World>, steps: seq<Step>, k: nat) returns (j: nat)
    requires Run(ns, json, worlds, steps) && k < |steps| && steps[k].ReadBack?
    ensures j < k && steps[j].SendUpdate? && steps[j].c == steps[k].c && steps[k].c in worlds[k + 1].clients
    ensures var phase := worlds[k + 1].clients[steps[k].c].phase;
            if worlds[j + 1].history != worlds[j].history && worlds[k].history == worlds[j + 1].history
            then phase.Idle? && worlds[k + 1].acknowledged == worlds[k].acknowledged + {(steps[k].c, steps[j].stamp)}
            else phase.Discarding? && worlds[k + 1].acknowledged == worlds[k].acknowledged
  {
    var c := steps[k].c;
    RunKeepsInv(ns, json, worlds, steps, k);
    assert Next(ns, json, worlds[k], steps[k], worlds[k + 1]);
    AnswerIs(ns, json, worlds[k], steps[k], worlds[k + 1]);
    j := UpdateSent(ns, json, worlds, steps, k, c);
    RunKeepsInv(ns, json, worlds, steps, j);
    assert Next(ns, json, worlds[j], steps[j], worlds[j + 1]);
    FirstStampStays(ns, json, worlds, steps, j, k);
    hide Next, Inv, Run;
    LastStamp(ns, json, worlds[j], steps[j], worlds[j + 1], worlds[k]);
  }

  /** The drawn stamp is the server's exactly while its commit is the last. */
  lemma LastStamp(ns: string, json: JsonCodec, before: World, step: Step, after: World, later: World)
    requires Inv(ns, json, before) && Next(ns, json, before, step, after) && step.SendUpdate? && Inv(ns, json, later)
    requires after.history <= later.history && ByOthers(later.history, |after.history|, step.c)
    requires later.firstStamp == before.firstStamp && step.c in later.clients
    requires later.clients[step.c].phase.Checking? && later.clients[step.c].phase.stamp == step.stamp
    ensures CurrentStamp(later) == Some(step.stamp) <==> after.history != before.history && later.history == after.history
  {
    assert ClientOk(ns, json, later, step.c, later.clients[step.c]);
    assert StampsOk(before.history, before.firstStamp, before.issued);
    hide Faithful, Holds, NoToken, VersionIs, Saved, CurrentSubjects;
    SendHistory(ns, json, before, step, after);
    hide Next, Inv, ClientOk;
    if CurrentStamp(later) == Some(step.stamp) && later.history != [] {
      assert later.history[|later.history| - 1].client == step.c;
    }
  }

  lemma SendHistory(ns: string, json: JsonCodec, w: World, step: Step, w': World)
    requires Inv(ns, json, w) && Next(ns, json, w, step, w') && step.SendUpdate?
    ensures step.stamp !in w.issued
    ensures w'.history == w.history || (|w'.history| == |w.history| + 1 && w.history <= w'.history && w'.history[|w.history|].stamp == step.stamp)
  {
    hide ClientOk, Chained, AcknowledgedOk, Saved, CurrentSubjects, Faithful, Holds, NoToken;
    SendOutcome(ns, json, w, step, w');
  }

  // --- A client that is alone gets through ---------------------------------

  /** A stretch of a run. */
  ghost predicate Path(ns: string, json: JsonCodec, worlds: seq<World>, steps: seq<Step>) {
    && |worlds| == |steps| + 1 && Inv(ns, json, worlds[0])
    && forall i | 0 <= i < |steps| :: Next(ns, json, worlds[i], steps[i], worlds[i + 1])
  }

  /** One more step. */
  lemma PathMore(ns: string, json: JsonCodec, worlds: seq<World>, steps: seq<Step>, w: World, step: Step, w': World)
    returns (more: seq<World>, longer: seq<Step>)
    requires Path(ns, json, worlds, steps) && Leads(worlds, steps, w) && Inv(ns, json, w) && Next(ns, json, w, step, w')
    ensures Path(ns, json, more, longer) && Leads(more, longer, w') && Inv(ns, json, w') && more[0] == worlds[0]
  {
    hide Inv, Next;
    more, longer := worlds + [w'], steps + [step];
    forall i | 0 <= i < |longer| ensures Next(ns, json, more[i], longer[i], more[i + 1]) {
      if i < |steps| { assert more[i] == worlds[i] && more[i + 1] == worlds[i + 1] && longer[i] == steps[i]; }
    }
    StepKeepsInv(ns, json, w, step, w');
  }

  lemma PathStart(ns: string, json: JsonCodec, w: World)
    requires Inv(ns, json, w)
    ensures Path(ns, json, [w], []) && Leads([w], [], w) && VersionIs(ns, w.store, CurrentStamp(w))
  {
  }

  predicate Leads(worlds: seq<World>, steps: seq<Step>, w: World) {
    |worlds| == |steps| + 1 && worlds[|steps|] == w
  }

  lemma {:induction false} SomeRows(triples: set<Triple>) returns (rows: seq<Triple>)
    ensures RowSet(rows) == triples
  {
    if triples == {} {
      rows := [];
    } else {
      var t :| t in triples;
      var rest := SomeRows(triples - {t});
      rows := rest + [t];
      assert forall i | 0 <= i < |rest| :: rows[i] == rest[i];
      forall u | u in triples ensures u in RowSet(rows) {
        if u == t {
          assert rows[|rest|] == t;
        } else {
          assert u in RowSet(rest);
          var i :| 0 <= i < |rest| && rest[i] == u;
          assert rows[i] == u;
        }
      }
      forall u | u in RowSet(rows) ensures u in triples {
        var i :| 0 <= i < |rows| && rows[i] == u;
        if i < |rest| { assert rest[i] in RowSet(rest); }
      }
    }
  }

  /** The two requests of a load, with nobody in between: the copy has the server's state afterwards. */
  lemma LoadGoesThrough(ns: string, json: JsonCodec, w: World, c: nat) returns (worlds: seq<World>, steps: seq<Step>, last: World)
    requires Inv(ns, json, w) && c in w.clients && (w.clients[c].phase.Idle? || w.clients[c].phase.Discarding?)
    ensures Path(ns, json, worlds, steps) && Leads(worlds, steps, last) && Inv(ns, json, last) && worlds[0] == w
    ensures c in last.clients && last == w.(clients := w.clients[c := last.clients[c]])
    ensures last.clients[c].copy.state == CurrentState(w) && last.clients[c].copy.version == CurrentStamp(w)
    ensures last.clients[c].phase == if w.clients[c].phase.Idle? then Editing(CurrentState(w)) else Idle
  {
    hide *;
    PathStart(ns, json, w);
    if w.clients[c].phase.Idle? && w.clients[c].copy.loaded && CurrentStamp(w) == w.clients[c].copy.version {
      last := Put(w, c, w.clients[c].copy, Editing(w.clients[c].copy.state));
      StampRead(ns, json, w, c, last);
      PutOne(w, c, w.clients[c].copy, Editing(w.clients[c].copy.state));
      BeginsFresh(ns, json, w, ReadStamp(c, CurrentStamp(w)), last, c);
      worlds, steps := PathMore(ns, json, [w], [], w, ReadStamp(c, CurrentStamp(w)), last);
    } else {
      worlds, steps, last := ReloadGoesThrough(ns, json, w, c);
    }
  }

  lemma PutOne(w: World, c: nat, copy: Copy, phase: Phase)
    ensures Put(w, c, copy, phase) == w.(clients := w.clients[c := Client(copy, phase)])
    ensures CurrentState(Put(w, c, copy, phase)) == CurrentState(w)
  {
  }

  lemma ReloadGoesThrough(ns: string, json: JsonCodec, w: World, c: nat) returns (worlds: seq<World>, steps: seq<Step>, last: World)
    requires Inv(ns, json, w) && c in w.clients && (w.clients[c].phase.Idle? || w.clients[c].phase.Discarding?)
    requires !(w.clients[c].phase.Idle? && w.clients[c].copy.loaded && CurrentStamp(w) == w.clients[c].copy.version)
    ensures Path(ns, json, worlds, steps) && Leads(worlds, steps, last) && Inv(ns, json, last) && worlds[0] == w
    ensures c in last.clients && last == w.(clients := w.clients[c := last.clients[c]])
    ensures last.clients[c].copy.state == CurrentState(w) && last.clients[c].copy.version == CurrentStamp(w)
    ensures last.clients[c].phase == if w.clients[c].phase.Idle? then Editing(CurrentState(w)) else Idle
  {
    hide *;
    PathStart(ns, json, w);
    var seen, idle := CurrentStamp(w), w.clients[c].phase.Idle?;
    var w' := Put(w, c, w.clients[c].copy, Reading(seen, idle));
    StampRead(ns, json, w, c, w');
    PutOne(w, c, w.clients[c].copy, Reading(seen, idle));
    worlds, steps := PathMore(ns, json, [w], [], w, ReadStamp(c, seen), w');
    var rows;
    rows, last := RowsGoThrough(ns, json, w', c, seen, idle);
    worlds, steps := PathMore(ns, json, worlds, steps, w', ReadRows(c, rows), last);
  }

  lemma RowsGoThrough(ns: string, json: JsonCodec, w: World, c: nat, seen: Option<string>, block: bool) returns (rows: seq<Triple>, last: World)
    requires Inv(ns, json, w) && c in w.clients && w.clients[c].phase == Reading(seen, block)
    ensures Next(ns, json, w, ReadRows(c, rows), last)
    ensures last == w.(clients := w.clients[c := Client(Loaded(ns, json, seen, CurrentState(w)), if block then Editing(CurrentState(w)) else Idle)])
    ensures last.clients[c].copy.state == CurrentState(w) && last.clients[c].copy.version == seen
  {
    hide Inv, Next, CurrentSubjects, CurrentState;
    rows := SomeRows(Visible(ns, w.store));
    RowsDecode(ns, json, w, rows);
    last := Put(w, c, Loaded(ns, json, seen, CurrentState(w)), if block then Editing(CurrentState(w)) else Idle);
    RowsRead(ns, json, w, c, rows, last);
  }

  lemma StampRead(ns: string, json: JsonCodec, w: World, c: nat, w': World)
    requires c in w.clients && (w.clients[c].phase.Idle? || w.clients[c].phase.Discarding?) && VersionIs(ns, w.store, CurrentStamp(w))
    requires var Client(copy, phase) := w.clients[c];
             w' == Put(w, c, copy,
                       if phase.Idle? && copy.loaded && CurrentStamp(w) == copy.version then Editing(copy.state)
                       else Reading(CurrentStamp(w), phase.Idle?))
    ensures Next(ns, json, w, ReadStamp(c, CurrentStamp(w)), w')
  {
  }

  lemma RowsDecode(ns: string, json: JsonCodec, w: World, rows: seq<Triple>)
    requires Inv(ns, json, w) && RowSet(rows) == Visible(ns, w.store)
    ensures Decode(ns, json, rows) == Ok(CurrentState(w))
  {
    VisibleHolds(ns, json, w.store, CurrentState(w));
    DecodeHeld(ns, json, rows, CurrentState(w));
  }

  lemma RowsRead(ns: string, json: JsonCodec, w: World, c: nat, rows: seq<Triple>, w': World)
    requires c in w.clients && w.clients[c].phase.Reading? && RowSet(rows) == Visible(ns, w.store) && Decode(ns, json, rows).Ok?
    requires var phase, s := w.clients[c].phase, Decode(ns, json, rows).value;
             w' == Put(w, c, Loaded(ns, json, phase.seen, s), if phase.block then Editing(s) else Idle)
    ensures Next(ns, json, w, ReadRows(c, rows), w')
  {
  }

  /** A client that nobody disturbs begins a block, changes the state as it likes, saves, and is told
      so: the block is the next commit, from the server's state to its own. */
  lemma SoloSave(ns: string, json: JsonCodec, w: World, c: nat, state: GraphState, stamp: string) returns (worlds: seq<World>, steps: seq<Step>)
    requires Inv(ns, json, w) && c in w.clients && w.clients[c].phase.Idle?
    requires Faithful(json, state) && state != CurrentState(w) && stamp !in w.issued
    ensures Path(ns, json, worlds, steps) && |worlds| == |steps| + 1 && worlds[0] == w
    ensures var last := worlds[|steps|];
            && last.history == w.history + [Commit(stamp, c, CurrentState(w), state)] && CurrentState(last) == state
            && last.acknowledged == w.acknowledged + {(c, stamp)} && c in last.clients && last.clients[c].phase.Idle?
            && forall d | d in w.clients && d != c :: d in last.clients && last.clients[d] == w.clients[d]
  {
    hide Inv, Next, Path, CurrentSubjects, Faithful, Holds, Saved;
    var a;
    worlds, steps, a := LoadGoesThrough(ns, json, w, c);
    var b := Put(a, c, a.clients[c].copy.(state := state), Editing(CurrentState(w)));
    Edited(ns, json, a, c, state);
    worlds, steps := PathMore(ns, json, worlds, steps, a, Edit(c, state), b);
    var d := SendsAndCommits(ns, json, b, c, stamp);
    worlds, steps := PathMore(ns, json, worlds, steps, b, SendUpdate(c, stamp), d);
    var e := ReadsBack(ns, json, d, c);
    worlds, steps := PathMore(ns, json, worlds, steps, d, ReadBack(c, Some(stamp)), e);
    assert e.history == w.history + [Commit(stamp, c, CurrentState(w), state)];
  }

  lemma Edited(ns: string, json: JsonCodec, w: World, c: nat, state: GraphState)
    requires c in w.clients && w.clients[c].phase.Editing? && Faithful(json, state)
    ensures Next(ns, json, w, Edit(c, state), Put(w, c, w.clients[c].copy.(state := state), w.clients[c].phase))
  {
  }

  lemma SendsAndCommits(ns: string, json: JsonCodec, w: World, c: nat, stamp: string) returns (w': World)
    requires Inv(ns, json, w) && c in w.clients && w.clients[c].phase.Editing? && stamp !in w.issued
    requires w.clients[c].copy.version == CurrentStamp(w) && w.clients[c].copy.state != w.clients[c].phase.base
    ensures Next(ns, json, w, SendUpdate(c, stamp), w')
    ensures w'.history == w.history + [Commit(stamp, c, w.clients[c].phase.base, w.clients[c].copy.state)]
    ensures w'.acknowledged == w.acknowledged
    ensures w'.clients == w.clients[c := Client(w.clients[c].copy, Checking(w.clients[c].phase.base, stamp))]
  {
    var Client(copy, phase) := w.clients[c];
    var sent := Put(w, c, copy, Checking(phase.base, stamp)).(issued := w.issued + {stamp});
    w' := sent.(store := Saved(ns, Current(ns, json, w.clients[c]), copy.synced, stamp, w.store),
                history := w.history + [Commit(stamp, c, phase.base, copy.state)]);
    HasChanged(ns, json, w, c);
    assert VersionIs(ns, w.store, CurrentStamp(w));
    hide Inv, ClientOk, ServerOk, Saved, CurrentSubjects, Faithful, VersionIs, Current, Next;
    UpdateSteps(ns, json, w, c, stamp, CurrentStamp(w), w');
  }

  /** The step of an update, whatever the server's stamp. */
  lemma UpdateSteps(ns: string, json: JsonCodec, w: World, c: nat, stamp: string, server: Option<string>, w': World)
    requires c in w.clients && w.clients[c].phase.Editing? && stamp !in w.issued && VersionIs(ns, w.store, server)
    requires Current(ns, json, w.clients[c]) != w.clients[c].copy.synced
    requires var Client(copy, phase) := w.clients[c];
             var sent := Put(w, c, copy, Checking(phase.base, stamp)).(issued := w.issued + {stamp});
             w' == if server == copy.version
                   then sent.(store := Saved(ns, Current(ns, json, w.clients[c]), copy.synced, stamp, w.store),
                              history := w.history + [Commit(stamp, c, phase.base, copy.state)])
                   else sent
    ensures Next(ns, json, w, SendUpdate(c, stamp), w')
  {
    hide VersionIs, Saved, Current, CurrentSubjects;
    assert Sent(ns, json, w, c, stamp, w');
  }

  lemma HasChanged(ns: string, json: JsonCodec, w: World, c: nat)
    requires Inv(ns, json, w) && c in w.clients && w.clients[c].phase.Editing? && w.clients[c].copy.state != w.clients[c].phase.base
    ensures Current(ns, json, w.clients[c]) != w.clients[c].copy.synced
  {
    assert ClientOk(ns, json, w, c, w.clients[c]);
    if Current(ns, json, w.clients[c]) == w.clients[c].copy.synced {
      CurrentDeterminesState(ns, json, w.clients[c].copy.state, w.clients[c].phase.base);
    }
  }

  lemma ReadsBack(ns: string, json: JsonCodec, w: World, c: nat) returns (w': World)
    requires Inv(ns, json, w) && c in w.clients && w.clients[c].phase.Checking? && CurrentStamp(w) == Some(w.clients[c].phase.stamp)
    ensures Next(ns, json, w, ReadBack(c, CurrentStamp(w)), w')
    ensures w'.history == w.history && w'.acknowledged == w.acknowledged + {(c, w.clients[c].phase.stamp)}
    ensures w'.clients == w.clients[c := w'.clients[c]] && c in w'.clients && w'.clients[c].phase.Idle?
  {
    var stamp := w.clients[c].phase.stamp;
    w' := Put(w, c, Confirmed(ns, json, w.clients[c].copy, stamp), Idle).(acknowledged := w.acknowledged + {(c, stamp)});
  }

  // --- The client class takes the protocol's steps -------------------------

  /** `w` has this client, in this phase. */
  ghost predicate Plays(client: JenaClient, w: World, c: nat, phase: Phase)
    reads client
  {
    c in w.clients && w.clients[c] == Client(client.View(), phase)
  }

  /** First request of a load. */
  method ReadTheStamp(client: JenaClient, ghost w: World, ghost c: nat, ghost phase: Phase, version: Option<string>)
    returns (needed: bool, ghost w': World)
    requires Plays(client, w, c, phase) && (phase.Idle? || phase.Discarding?) && VersionIs(client.ns, w.store, version)
    requires phase.Discarding? ==> !client.loaded
    ensures Next(client.ns, client.json, w, ReadStamp(c, version), w')
    ensures Plays(client, w', c, if needed then Reading(version, phase.Idle?) else Editing(client.state))
  {
    needed := client.NeedsRows(version);
    w' := Put(w, c, client.View(), if needed then Reading(version, phase.Idle?) else Editing(client.state));
  }

  /** Second request, when it is needed. */
  method TakeTheRows(client: JenaClient, ghost w: World, ghost c: nat, ghost block: bool, version: Option<string>, rows: seq<Triple>)
    returns (error: Option<DecodeError>, ghost w': World)
    requires Plays(client, w, c, Reading(version, block)) && RowSet(rows) == Visible(client.ns, w.store)
    modifies client
    ensures error.None? ==> Next(client.ns, client.json, w, ReadRows(c, rows), w')
    ensures error.None? ==> Plays(client, w', c, if block then Editing(client.state) else Idle)
  {
    error := client.InstallRows(version, rows);
    w' := Put(w, c, client.View(), if block then Editing(client.state) else Idle);
    hide Decode, CurrentSubjects, Visible;
  }

  /** The first half of a save: nothing is sent and the block is over, or the server performs the update. */
  method SendTheUpdate(client: JenaClient, ghost w: World, ghost c: nat, ghost base: GraphState, token: string, stamp: string)
    returns (request: Option<seq<Operation>>, ghost w': World)
    requires Plays(client, w, c, Editing(base)) && stamp !in w.issued && GroupedFor(client.ns, client.synced)
    requires NoToken(client.ns, w.store) && VersionIs(client.ns, w.store, CurrentStamp(w))
    ensures request.None? ==> Next(client.ns, client.json, w, SaveNothing(c), w') && Plays(client, w', c, Idle)
    ensures request.Some? ==> Next(client.ns, client.json, w, SendUpdate(c, stamp), w') && Plays(client, w', c, Checking(base, stamp))
                              && w'.store == PerformAll(request.value, w.store)
  {
    hide Saved, CurrentSubjects, PerformAll, NoToken, VersionIs, CurrentStamp, GroupedFor;
    request := client.PrepareSave(token, stamp);
    ghost var now := Client(client.View(), Editing(base));
    if request.None? {
      w' := Put(w, c, client.View(), Idle);
    } else {
      ghost var sent := Put(w, c, client.View(), Checking(base, stamp)).(issued := w.issued + {stamp});
      w' := if CurrentStamp(w) == client.syncedVersion
            then sent.(store := PerformAll(request.value, w.store), history := w.history + [Commit(stamp, c, base, client.state)])
            else sent;
      assert Current(client.ns, client.json, now) == CurrentSubjects(client.ns, client.json, client.state);
      hide Next, Current, Sent;
      UpdateSteps(client.ns, client.json, w, c, stamp, CurrentStamp(w), w');
    }
  }

  /** The second half: the stamp that is read back decides. */
  method ReadItBack(client: JenaClient, ghost w: World, ghost c: nat, ghost base: GraphState, stamp: string, remote: Option<string>)
    returns (conflict: bool, ghost w': World)
    requires Plays(client, w, c, Checking(base, stamp)) && VersionIs(client.ns, w.store, remote)
    modifies client
    ensures Next(client.ns, client.json, w, ReadBack(c, remote), w')
    ensures Plays(client, w', c, if conflict then Discarding else Idle) && (conflict ==> !client.loaded)
    ensures (c, stamp) in w'.acknowledged <==> (c, stamp) in w.acknowledged || !conflict
  {
    conflict := client.FinishSave(stamp, remote);
    w' := if conflict then Put(w, c, client.View(), Discarding)
          else Put(w, c, client.View(), Idle).(acknowledged := w.acknowledged + {(c, stamp)});
    hide CurrentSubjects;
  }

  /** A block that raises. */
  method AbortBlock(client: JenaClient, ghost w: World, ghost c: nat, ghost base: GraphState) returns (ghost w': World)
    requires Plays(client, w, c, Editing(base))
    modifies client
    ensures Next(client.ns, client.json, w, Abort(c), w') && Plays(client, w', c, Discarding) && !client.loaded
  {
    client.Discard();
    w' := Put(w, c, client.View(), Discarding);
  }
}
