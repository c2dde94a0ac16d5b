/** Guarded blocks of instances that share one file (cvcdocdb/networkx_graph.py, `_guarded_write` and
    `batch`; cvcdocdb/jena_graph.py, `_ThreadWriteLock`): every interleaving. */
module GuardedWrites {
  import opened Common

  /** An instance: what it has in memory, how deep it is inside guarded blocks, and whether the
      outermost one saves. `raising`: an exception is on its way out. `base` and `edits` only record the
      state its block began with, and the changes its body made. */
  datatype Instance<!S> = Instance(memory: S, depth: nat, saves: bool, raising: bool, base: S, edits: seq<S -> S>)

  /** A saved outermost block. */
  datatype Commit<!S> = Commit(instance: nat, base: S, edits: seq<S -> S>, result: S)

  /** `file`: the saved state, if any was ever saved. `holder`: the instance that holds the lock.
      `history`: the saved blocks, in order. */
  datatype World<!S> = World(
    first: Option<S>,
    file: Option<S>,
    holder: Option<nat>,
    instances: map<nat, Instance<S>>,
    history: seq<Commit<S>>)

  datatype Step<!S> =
    | Open(i: nat)                 // a new instance: its constructor loads the file
    | Enter(i: nat, save: bool)    // a guarded block begins
    | Mutate(i: nat, f: S -> S)    // the body changes the memory
    | Leave(i: nat)                // a block ends
    | Raise(i: nat)                // the body raises ...
    | Unwind(i: nat)               // ... and a block is left by the exception

  /** What the file stands for; before the first save, the empty graph. */
  function FileState<S>(empty: S, file: Option<S>): S {
    if file.Some? then file.value else empty
  }

  function Put<S>(w: World<S>, i: nat, x: Instance<S>): World<S> {
    w.(instances := w.instances[i := x])
  }

  /** The in-memory state after `_load_state`: without a file nothing is loaded. */
  function AfterLoad<S>(w: World<S>, x: Instance<S>): S {
    if w.file.Some? then w.file.value else x.memory
  }

  ghost predicate Next<S(!new)>(empty: S, w: World<S>, step: Step<S>, w': World<S>) {
    if step.Open? then
      && step.i !in w.instances
      && var memory := FileState(empty, w.file);
         w' == Put(w, step.i, Instance(memory, 0, false, false, memory, []))
    else
      && step.i in w.instances
      && var i, x := step.i, w.instances[step.i];
         match step
         case Enter(_, save) =>
           && !x.raising && (w.holder.None? || w.holder == Some(i))
           && w' == if x.depth == 0 then
                      var memory := AfterLoad(w, x);
                      Put(w, i, Instance(memory, 1, save, false, memory, [])).(holder := Some(i))
                    else Put(w, i, x.(depth := x.depth + 1))
         case Mutate(_, f) =>
           x.depth > 0 && x.saves && !x.raising && w' == Put(w, i, x.(memory := f(x.memory), edits := x.edits + [f]))
         case Leave(_) =>
           && x.depth > 0 && !x.raising
           && w' == if x.depth > 1 then Put(w, i, x.(depth := x.depth - 1))
                    else
                      var released := Put(w, i, x.(depth := 0)).(holder := None);
                      if x.saves then released.(file := Some(x.memory), history := w.history + [Commit(i, x.base, x.edits, x.memory)])
                      else released
         case Raise(_) =>
           x.depth > 0 && !x.raising && w' == Put(w, i, x.(raising := true))
         case Unwind(_) =>
           && x.depth > 0 && x.raising
           && w' == if x.depth > 1 then Put(w, i, x.(depth := x.depth - 1))
                    else Put(w, i, x.(depth := 0, raising := false, memory := FileState(empty, w.file))).(holder := None)
  }

  ghost predicate Init<S>(w: World<S>) {
    w.file == w.first && w.holder == None && w.instances == map[] && w.history == []
  }

  // --- Invariant -----------------------------------------------------------

  function CurrentState<S>(empty: S, w: World<S>): S {
    if w.history == [] then FileState(empty, w.first) else w.history[|w.history| - 1].result
  }

  /** Each saved block began with exactly what the block before it saved. */
  ghost predicate Chained<S>(empty: S, first: Option<S>, history: seq<Commit<S>>) {
    && (history != [] ==> history[0].base == FileState(empty, first))
    && forall k, l | 0 <= k < |history| && 0 <= l < |history| && l == k + 1 :: history[l].base == history[k].result
  }

  /** What the changes of a block make of a state, one after the other. */
  function Compose<S>(state: S, edits: seq<S -> S>): S {
    if edits == [] then state else edits[|edits| - 1](Compose(state, edits[..|edits| - 1]))
  }

  lemma ComposeMore<S>(state: S, edits: seq<S -> S>, f: S -> S)
    ensures Compose(state, edits + [f]) == f(Compose(state, edits))
  {
    assert (edits + [f])[..|edits|] == edits;
  }

  /** Each saved block made its result from what it began with. */
  ghost predicate Composed<S>(history: seq<Commit<S>>) {
    forall k | 0 <= k < |history| :: history[k].result == Compose(history[k].base, history[k].edits)
  }

  ghost predicate InstanceOk<S>(empty: S, w: World<S>, i: nat, x: Instance<S>) {
    && (x.depth > 0 <==> w.holder == Some(i)) && (x.raising ==> x.depth > 0)
    && (x.depth > 0 ==> x.base == FileState(empty, w.file) && x.memory == Compose(x.base, x.edits) && (!x.saves ==> x.edits == []))
    && (x.depth == 0 && w.file.None? ==> x.memory == empty)
  }

  ghost predicate Inv<S>(empty: S, w: World<S>) {
    && (forall i | i in w.instances :: InstanceOk(empty, w, i, w.instances[i]))
    && (w.holder.Some? ==> w.holder.value in w.instances)
    && FileState(empty, w.file) == CurrentState(empty, w) && (w.first.Some? ==> w.file.Some?) && (w.history != [] ==> w.file.Some?)
    && Chained(empty, w.first, w.history)
    && Composed(w.history)
  }

  lemma SaveKeepsInv<S(!new)>(empty: S, w: World<S>, step: Step<S>, w': World<S>)
    requires Inv(empty, w) && Next(empty, w, step, w') && step.Leave? && w.instances[step.i].depth == 1 && w.instances[step.i].saves
    ensures Inv(empty, w')
  {
    var i, x := step.i, w.instances[step.i];
    assert InstanceOk(empty, w, i, x);
    assert w'.history == w.history + [Commit(i, x.base, x.edits, x.memory)];
    hide Compose;
    forall j | j in w'.instances ensures InstanceOk(empty, w', j, w'.instances[j]) {
      if j != i { assert InstanceOk(empty, w, j, w.instances[j]); }
    }
    var n := |w.history|;
    forall k, l | 0 <= k < n + 1 && 0 <= l < n + 1 && l == k + 1 ensures w'.history[l].base == w'.history[k].result {
      if l < n { assert w.history[l].base == w.history[k].result; }
    }
    assert n > 0 ==> w'.history[0] == w.history[0];
  }

  /** A step that saves nothing: the file, and the history, are as they were. */
  ghost predicate Quiet<S(!new)>(empty: S, w: World<S>, step: Step<S>, w': World<S>) {
    && Next(empty, w, step, w') && !(step.Leave? && w.instances[step.i].depth == 1 && w.instances[step.i].saves)
  }

  lemma QuietFrame<S(!new)>(empty: S, w: World<S>, step: Step<S>, w': World<S>)
    requires Quiet(empty, w, step, w')
    ensures w'.file == w.file && w'.history == w.history && w'.first == w.first
    ensures w'.instances.Keys == w.instances.Keys + {step.i} && forall j | j in w.instances && j != step.i :: w'.instances[j] == w.instances[j]
  {
  }

  /** What a quiet step does to its own instance. */
  lemma QuietOwn<S(!new)>(empty: S, w: World<S>, step: Step<S>, w': World<S>)
    requires Quiet(empty, w, step, w') && (step.i in w.instances ==> InstanceOk(empty, w, step.i, w.instances[step.i]))
    requires w.holder.Some? ==> w.holder.value in w.instances
    ensures step.i in w'.instances && InstanceOk(empty, w', step.i, w'.instances[step.i])
    ensures w'.holder == w.holder || (w.holder in {None, Some(step.i)} && w'.holder in {None, Some(step.i)})
  {
    if step.Mutate? {
      var x := w.instances[step.i];
      ComposeMore(x.base, x.edits, step.f);
    }
  }

  lemma QuietKeepsInv<S(!new)>(empty: S, w: World<S>, step: Step<S>, w': World<S>)
    requires Inv(empty, w) && Quiet(empty, w, step, w')
    ensures Inv(empty, w')
  {
    QuietFrame(empty, w, step, w');
    assert step.i in w.instances ==> InstanceOk(empty, w, step.i, w.instances[step.i]);
    QuietOwn(empty, w, step, w');
    hide Next, Quiet, Chained, Compose, Composed;
    forall j | j in w'.instances ensures InstanceOk(empty, w', j, w'.instances[j]) {
      if j != step.i { assert InstanceOk(empty, w, j, w.instances[j]); }
    }
  }

  /** Every step keeps the invariant. */
  lemma StepKeepsInv<S(!new)>(empty: S, w: World<S>, step: Step<S>, w': World<S>)
    requires Inv(empty, w) && Next(empty, w, step, w')
    ensures Inv(empty, w')
  {
    hide Inv;
    if step.Leave? && w.instances[step.i].depth == 1 && w.instances[step.i].saves {
      SaveKeepsInv(empty, w, step, w');
    } else {
      QuietKeepsInv(empty, w, step, w');
    }
  }

  ghost predicate Run<S(!new)>(empty: S, worlds: seq<World<S>>, steps: seq<Step<S>>) {
    && |worlds| == |steps| + 1 && Init(worlds[0])
    && forall k | 0 <= k < |steps| :: Next(empty, worlds[k], steps[k], worlds[k + 1])
  }

  lemma {:induction false} RunKeepsInv<S(!new)>(empty: S, worlds: seq<World<S>>, steps: seq<Step<S>>, k: nat)
    requires Run(empty, worlds, steps) && k < |worlds|
    ensures Inv(empty, worlds[k])
  {
    if k > 0 {
      RunKeepsInv(empty, worlds, steps, k - 1);
      assert Next(empty, worlds[k - 1], steps[k - 1], worlds[k - 1 + 1]);
      StepKeepsInv(empty, worlds[k - 1], steps[k - 1], worlds[k]);
    }
  }

  lemma StepOfRun<S(!new)>(empty: S, worlds: seq<World<S>>, steps: seq<Step<S>>, k: nat)
    requires Run(empty, worlds, steps) && k < |steps|
    ensures Inv(empty, worlds[k]) && Next(empty, worlds[k], steps[k], worlds[k + 1])
  {
    RunKeepsInv(empty, worlds, steps, k);
  }

  // --- What follows --------------------------------------------------------

  /** Running the saved blocks one after the other, each from where the one before ended. */
  function Replay<S>(state: S, history: seq<Commit<S>>): S {
    if history == [] then state
    else
      var n := |history| - 1;
      Compose(Replay(state, history[..n]), history[n].edits)
  }

  /** The file always holds the sequential composition of the saved blocks, in the order in which they
      held the lock, and each of them worked on exactly what those before it left: no interleaving
      loses an update. */
  lemma Serialisable<S(!new)>(empty: S, worlds: seq<World<S>>, steps: seq<Step<S>>, k: nat)
    requires Run(empty, worlds, steps) && k < |worlds|
    ensures var first, history := FileState(empty, worlds[k].first), worlds[k].history;
            && FileState(empty, worlds[k].file) == Replay(first, history)
            && forall n: nat | n < |history| ::
                 history[n].base == Replay(first, history[..n]) && history[n].result == Replay(first, history[..n + 1])
  {
    RunKeepsInv(empty, worlds, steps, k);
    var w := worlds[k];
    forall n: nat | n <= |w.history|
      ensures Replay(FileState(empty, w.first), w.history[..n]) == if n == 0 then FileState(empty, w.first) else w.history[n - 1].result
    {
      ReplayEnds(empty, w.first, w.history, n);
    }
    hide Replay, Compose;
    assert w.history[..|w.history|] == w.history;
    forall n: nat | n < |w.history|
      ensures w.history[n].base == Replay(FileState(empty, w.first), w.history[..n])
      ensures w.history[n].result == Replay(FileState(empty, w.first), w.history[..n + 1])
    {
      if n > 0 { assert w.history[n].base == w.history[n - 1].result; }
    }
  }

  lemma {:induction false} ReplayEnds<S>(empty: S, first: Option<S>, history: seq<Commit<S>>, n: nat)
    requires Chained(empty, first, history) && Composed(history) && n <= |history|
    ensures Replay(FileState(empty, first), history[..n]) == if n == 0 then FileState(empty, first) else history[n - 1].result
    decreases n
  {
    if n > 0 {
      ReplayEnds(empty, first, history, n - 1);
      assert history[..n][..n - 1] == history[..n - 1];
      assert history[n - 1].result == Compose(history[n - 1].base, history[n - 1].edits);
      if n > 1 { assert history[n - 1].base == history[n - 2].result; }
    }
  }

  /** An instance that is opened has in memory what the file stands for. */
  lemma OpensWithTheFile<S(!new)>(empty: S, worlds: seq<World<S>>, steps: seq<Step<S>>, k: nat)
    requires Run(empty, worlds, steps) && k < |steps| && steps[k].Open?
    ensures steps[k].i in worlds[k + 1].instances
    ensures worlds[k + 1].instances[steps[k].i].memory == if worlds[k].file.Some? then worlds[k].file.value else empty
    ensures worlds[k + 1].file == worlds[k].file && worlds[k + 1].holder == worlds[k].holder
  {
    StepOfRun(empty, worlds, steps, k);
  }

  /** The end of every outermost saving block puts its memory in the file. */
  lemma EveryBlockSaves<S(!new)>(empty: S, worlds: seq<World<S>>, steps: seq<Step<S>>, k: nat)
    requires Run(empty, worlds, steps) && k < |steps| && steps[k].Leave? && steps[k].i in worlds[k].instances
    requires worlds[k].instances[steps[k].i].depth == 1 && worlds[k].instances[steps[k].i].saves
    ensures worlds[k + 1].file == Some(worlds[k].instances[steps[k].i].memory) && worlds[k + 1].holder.None?
  {
    StepOfRun(empty, worlds, steps, k);
  }

  // --- The file, from the steps alone --------------------------------------

  /** An open block: how deep, whether it saves, the changes made in it. */
  datatype Open<!S> = Open(depth: nat, saves: bool, edits: seq<S -> S>)

  /** What the steps so far say: the open blocks, and the changes of each outermost saving block that
      ended without raising, in the order in which they ended. */
  datatype Scan<!S> = Scan(open: map<nat, Open<S>>, done: seq<seq<S -> S>>)

  function ScanStep<S>(scan: Scan<S>, step: Step<S>): Scan<S> {
    match step
    case Open(_) | Raise(_) => scan
    case Enter(i, save) =>
      if i in scan.open then scan.(open := scan.open[i := scan.open[i].(depth := scan.open[i].depth + 1)])
      else scan.(open := scan.open[i := Open.Open(1, save, [])])
    case Mutate(i, f) =>
      if i in scan.open then scan.(open := scan.open[i := scan.open[i].(edits := scan.open[i].edits + [f])]) else scan
    case Leave(i) =>
      if i !in scan.open then scan
      else if scan.open[i].depth > 1 then scan.(open := scan.open[i := scan.open[i].(depth := scan.open[i].depth - 1)])
      else Scan(scan.open - {i}, if scan.open[i].saves then scan.done + [scan.open[i].edits] else scan.done)
    case Unwind(i) =>
      if i !in scan.open then scan
      else if scan.open[i].depth > 1 then scan.(open := scan.open[i := scan.open[i].(depth := scan.open[i].depth - 1)])
      else scan.(open := scan.open - {i})
  }

  function ScanOf<S>(steps: seq<Step<S>>, k: nat): Scan<S>
    requires k <= |steps|
  {
    if k == 0 then Scan(map[], []) else ScanStep(ScanOf(steps, k - 1), steps[k - 1])
  }

  /** One block after the other. */
  function Fold<S>(state: S, blocks: seq<seq<S -> S>>): S {
    if blocks == [] then state else Compose(Fold(state, blocks[..|blocks| - 1]), blocks[|blocks| - 1])
  }

  ghost predicate Scanned<S>(scan: Scan<S>, w: World<S>) {
    && (forall i :: i in scan.open <==> i in w.instances && w.instances[i].depth > 0)
    && (forall i | i in scan.open :: scan.open[i] == Open.Open(w.instances[i].depth, w.instances[i].saves, w.instances[i].edits))
    && |scan.done| == |w.history| && (forall n | 0 <= n < |scan.done| :: scan.done[n] == w.history[n].edits)
    && (w.history == [] ==> w.file == w.first)
  }

  lemma ScanNext<S(!new)>(empty: S, scan: Scan<S>, w: World<S>, step: Step<S>, w': World<S>)
    requires Inv(empty, w) && Scanned(scan, w) && Next(empty, w, step, w')
    ensures Scanned(ScanStep(scan, step), w')
  {
    hide Inv, AfterLoad, FileState;
  }

  lemma {:induction false} ScanIs<S(!new)>(empty: S, worlds: seq<World<S>>, steps: seq<Step<S>>, k: nat)
    requires Run(empty, worlds, steps) && k < |worlds|
    ensures Scanned(ScanOf(steps, k), worlds[k]) && worlds[k].first == worlds[0].first
  {
    if k > 0 {
      ScanIs(empty, worlds, steps, k - 1);
      StepOfRun(empty, worlds, steps, k - 1);
      hide Inv, Scanned;
      assert Next(empty, worlds[k - 1], steps[k - 1], worlds[k - 1 + 1]);
      ScanNext(empty, ScanOf(steps, k - 1), worlds[k - 1], steps[k - 1], worlds[k]);
    }
  }

  lemma {:induction false} FoldIsReplay<S>(state: S, blocks: seq<seq<S -> S>>, history: seq<Commit<S>>)
    requires |blocks| == |history| && forall n | 0 <= n < |blocks| :: blocks[n] == history[n].edits
    ensures Fold(state, blocks) == Replay(state, history)
    decreases |blocks|
  {
    if blocks != [] { FoldIsReplay(state, blocks[..|blocks| - 1], history[..|history| - 1]); }
  }

  /** In every run, the file is what the outermost saving blocks that ended without raising make of the
      first file, one after the other: every one of them, and nothing else. */
  lemma FileIsTheBlocks<S(!new)>(empty: S, worlds: seq<World<S>>, steps: seq<Step<S>>, k: nat)
    requires Run(empty, worlds, steps) && k < |worlds|
    ensures var done := ScanOf(steps, k).done;
            worlds[k].file == if done == [] then worlds[0].first else Some(Fold(FileState(empty, worlds[0].first), done))
  {
    ScanIs(empty, worlds, steps, k);
    Serialisable(empty, worlds, steps, k);
    RunKeepsInv(empty, worlds, steps, k);
    FoldIsReplay(FileState(empty, worlds[0].first), ScanOf(steps, k).done, worlds[k].history);
    hide Fold, Replay, Compose, ScanOf;
  }

  // --- What can happen -----------------------------------------------------

  /** An instance can begin a block, and can always go on in the one it is in; nobody else can
      begin one meanwhile. */
  lemma BlocksCanRun<S(!new)>(empty: S, w: World<S>, i: nat, save: bool, f: S -> S)
    requires Inv(empty, w) && i in w.instances
    ensures (exists w' :: Next(empty, w, Enter(i, save), w')) <==> !w.instances[i].raising && (w.holder.None? || w.holder == Some(i))
    ensures (exists w' :: Next(empty, w, Leave(i), w')) <==> w.instances[i].depth > 0 && !w.instances[i].raising
    ensures (exists w' :: Next(empty, w, Raise(i), w')) <==> w.instances[i].depth > 0 && !w.instances[i].raising
    ensures (exists w' :: Next(empty, w, Unwind(i), w')) <==> w.instances[i].raising
  {
    var x := w.instances[i];
    assert InstanceOk(empty, w, i, x);
    if !x.raising && (w.holder.None? || w.holder == Some(i)) {
      var memory := AfterLoad(w, x);
      var w' := if x.depth == 0 then Put(w, i, Instance(memory, 1, save, false, memory, [])).(holder := Some(i))
                else Put(w, i, x.(depth := x.depth + 1));
      assert Next(empty, w, Enter(i, save), w');
    }
    if x.depth > 0 && !x.raising {
      var released := Put(w, i, x.(depth := 0)).(holder := None);
      var w' := if x.depth > 1 then Put(w, i, x.(depth := x.depth - 1))
                else if x.saves then released.(file := Some(x.memory), history := w.history + [Commit(i, x.base, x.edits, x.memory)])
                else released;
      assert Next(empty, w, Leave(i), w');
      assert Next(empty, w, Raise(i), Put(w, i, x.(raising := true)));
    }
    if x.raising {
      var w' := if x.depth > 1 then Put(w, i, x.(depth := x.depth - 1))
                else Put(w, i, x.(depth := 0, raising := false, memory := FileState(empty, w.file))).(holder := None);
      assert Next(empty, w, Unwind(i), w');
    }
  }

  /** A block that changes the graph by `f`: the file is `f` of what it was, whatever the instance had in
      memory before. */
  lemma OneBlock<S(!new)>(empty: S, w: World<S>, i: nat, f: S -> S) returns (a: World<S>, b: World<S>, c: World<S>)
    requires Inv(empty, w) && i in w.instances && w.holder.None?
    ensures Next(empty, w, Enter(i, true), a) && Next(empty, a, Mutate(i, f), b) && Next(empty, b, Leave(i), c)
    ensures c.file == Some(f(FileState(empty, w.file))) && c.holder.None? && i in c.instances && c.instances[i].memory == c.file.value
  {
    var x := w.instances[i];
    assert InstanceOk(empty, w, i, x);
    var memory := AfterLoad(w, x);
    assert memory == FileState(empty, w.file);
    a := Put(w, i, Instance(memory, 1, true, false, memory, [])).(holder := Some(i));
    var y := a.instances[i];
    b := Put(a, i, y.(memory := f(y.memory), edits := y.edits + [f]));
    var z := b.instances[i];
    c := Put(b, i, z.(depth := 0)).(holder := None, file := Some(z.memory), history := b.history + [Commit(i, z.base, z.edits, z.memory)]);
  }

  /** A block that raises leaves the file and the memory as they were before it. */
  lemma FailureIsAtomic<S(!new)>(empty: S, worlds: seq<World<S>>, steps: seq<Step<S>>, k: nat)
    requires Run(empty, worlds, steps) && k < |steps| && steps[k].i in worlds[k].instances
    requires steps[k].Unwind? && worlds[k].instances[steps[k].i].depth == 1
    ensures var i := steps[k].i;
            && worlds[k + 1].file == worlds[k].file && worlds[k + 1].history == worlds[k].history
            && worlds[k + 1].instances[i].memory == worlds[k].instances[i].base == FileState(empty, worlds[k].file)
            && worlds[k + 1].holder.None?
  {
    StepOfRun(empty, worlds, steps, k);
    assert InstanceOk(empty, worlds[k], steps[k].i, worlds[k].instances[steps[k].i]);
  }

  /** The file changes only when an outermost saving block ends, and then it becomes that block's
      result, applied to what the file held. */
  lemma OnlySavesChangeTheFile<S(!new)>(empty: S, worlds: seq<World<S>>, steps: seq<Step<S>>, k: nat)
    requires Run(empty, worlds, steps) && k < |steps| && worlds[k + 1].file != worlds[k].file
    ensures steps[k].Leave? && steps[k].i in worlds[k].instances && worlds[k].instances[steps[k].i].depth == 1 && worlds[k].instances[steps[k].i].saves
    ensures var x := worlds[k].instances[steps[k].i];
            && x.base == FileState(empty, worlds[k].file) && FileState(empty, worlds[k + 1].file) == Compose(FileState(empty, worlds[k].file), x.edits)
            && worlds[k + 1].history == worlds[k].history + [Commit(steps[k].i, x.base, x.edits, x.memory)]
  {
    StepOfRun(empty, worlds, steps, k);
    assert InstanceOk(empty, worlds[k], steps[k].i, worlds[k].instances[steps[k].i]);
  }

  /** Only the outermost block loads and saves: entering and leaving a nested one touches neither
      memory nor file, and no other instance can be inside meanwhile. */
  lemma NestingIsTransparent<S(!new)>(empty: S, worlds: seq<World<S>>, steps: seq<Step<S>>, k: nat)
    requires Run(empty, worlds, steps) && k < |steps| && steps[k].i in worlds[k].instances && (steps[k].Enter? || steps[k].Leave?)
    requires worlds[k].instances[steps[k].i].depth > if steps[k].Enter? then 0 else 1
    ensures worlds[k + 1].file == worlds[k].file && worlds[k + 1].holder == worlds[k].holder == Some(steps[k].i)
    ensures worlds[k + 1].instances[steps[k].i].memory == worlds[k].instances[steps[k].i].memory
    ensures forall j | j in worlds[k].instances && j != steps[k].i ::
              worlds[k].instances[j].depth == 0 && worlds[k + 1].instances[j] == worlds[k].instances[j]
  {
    StepOfRun(empty, worlds, steps, k);
    forall j | j in worlds[k].instances ensures InstanceOk(empty, worlds[k], j, worlds[k].instances[j]) { }
  }

  /** What a block begins with is the newest saved state, not what its instance last saw. */
  lemma BlocksBeginFresh<S(!new)>(empty: S, worlds: seq<World<S>>, steps: seq<Step<S>>, k: nat)
    requires Run(empty, worlds, steps) && k < |steps| && steps[k].i in worlds[k].instances
    requires steps[k].Enter? && worlds[k].instances[steps[k].i].depth == 0
    ensures worlds[k + 1].instances[steps[k].i].memory == CurrentState(empty, worlds[k])
  {
    StepOfRun(empty, worlds, steps, k);
    assert InstanceOk(empty, worlds[k], steps[k].i, worlds[k].instances[steps[k].i]);
  }

  // --- The in-process lock -------------------------------------------------

  /** `_ThreadWriteLock`: a reentrant lock whose `is_locked` is true only for the thread that owns it.
      `rOwner` and `rCount` are the underlying `RLock`. */
  class ThreadWriteLock {
    var owner: Option<nat>
    var depth: nat
    var rOwner: Option<nat>
    var rCount: nat

    /** The wrapper's view is the lock's: the owner holds it, `depth` times. */
    ghost predicate Valid()
      reads this
    {
      owner == rOwner && depth == rCount && (owner.None? <==> depth == 0)
    }

    constructor ()
      ensures Valid() && depth == 0
    {
      owner, depth, rOwner, rCount := None, 0, None, 0;
    }

    /** What `_guarded_write` asks to tell an outermost block from a nested one. */
    predicate IsLocked(thread: nat)
      reads this
    {
      owner == Some(thread)
    }

    /** Fails, after the timeout, exactly when another thread is inside; succeeds nested inside the same. */
    method Acquire(thread: nat) returns (ok: bool)
      requires Valid()
      modifies this
      ensures Valid() && (ok <==> old(owner).None? || old(IsLocked(thread)))
      ensures if ok then IsLocked(thread) && depth == old(depth) + 1 else owner == old(owner) && depth == old(depth)
      ensures ok ==> (depth == 1 <==> !old(IsLocked(thread)))
    {
      if rOwner.Some? && rOwner.value != thread { return false; }
      rOwner, rCount := Some(thread), rCount + 1;
      owner := Some(thread);
      depth := depth + 1;
      return true;
    }

    method Release(thread: nat)
      requires Valid() && IsLocked(thread)
      modifies this
      ensures Valid() && depth == old(depth) - 1 && (IsLocked(thread) <==> old(depth) > 1)
    {
      depth := depth - 1;
      if depth == 0 {
        owner := None;
      }
      rCount := rCount - 1;
      if rCount == 0 {
        rOwner := None;
      }
    }
  }
}
