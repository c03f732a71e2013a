/**
 * The worker itself (src/backfill.rs, `run_range`, with the sink's `store_events`
 * from src/indexer.rs) as imperative code. Everything it shares with other
 * workers, runs and live indexing lives in a `Cluster`; between any two of its
 * atomic actions the others may take any steps of the protocol. Each method is
 * proved to perform protocol steps only, so what is proved about all schedules
 * in modules Backfill and BackfillGuarantee covers this code.
 */
module BackfillWorker {
  import opened Options
  import opened LedgerFiles
  import opened BloomFilter
  import opened EventSink
  import opened BackfillActions
  import opened Backfill

  /** Which worker of which run. */
  datatype Id = Id(run: nat, worker: nat)

  /** What the outside world does: contents and failures by time, and the steps others take. */
  datatype World = World(
    loaded: bool,
    fetch: (nat, u32) -> Option<seq<u32>>,
    begins: nat -> bool,
    breaks: nat -> bool,
    recent: nat -> bool,
    outcome: nat -> Outcome,
    others: (State, nat) -> seq<Step>)

  ghost predicate Mine(step: Step, me: Id) {
    (step.Work? && step.r == me.run && step.w == me.worker) || (step.Crash? && step.crashed == me.run)
  }

  /** Files are what they should be, and others take possible steps of their own. */
  ghost predicate Honest(setup: Setup, world: World, me: Id, schema: Schema) {
    && (forall t, l: u32 :: world.fetch(t, l).Some? ==> IsFile(schema, l, world.fetch(t, l).value))
    && (forall s, t :: Follow(setup, s, world.others(s, t)).Some?)
    && (forall s, t, step :: step in world.others(s, t) ==> !Mine(step, me))
  }

  ghost predicate Exists(s: State, me: Id) { me.run < |s.runs| && me.worker < |s.runs[me.run].workers| }

  /** Others leave this worker, its files and its filter functions alone. */
  ghost predicate SameWorker(s: State, t: State, me: Id)
    requires Exists(s, me)
  {
    && Exists(t, me)
    && t.runs[me.run].workers[me.worker] == s.runs[me.run].workers[me.worker]
    && t.runs[me.run].schema == s.runs[me.run].schema
  }

  lemma OtherStepLeaves(setup: Setup, s: State, step: Step, me: Id)
    requires Exists(s, me) && CanStep(setup, s, step) && !Mine(step, me)
    ensures SameWorker(s, Next(setup, s, step), me)
  {
  }

  lemma {:induction false} OthersLeave(setup: Setup, s: State, steps: seq<Step>, me: Id)
    requires Exists(s, me) && Follow(setup, s, steps).Some? && forall step :: step in steps ==> !Mine(step, me)
    ensures SameWorker(s, Follow(setup, s, steps).value, me)
    decreases |steps|
  {
    if steps != [] {
      assert steps[|steps| - 1] in steps;
      OthersLeave(setup, s, steps[..|steps| - 1], me);
      OtherStepLeaves(setup, Follow(setup, s, steps[..|steps| - 1]).value, steps[|steps| - 1], me);
    }
  }

  lemma {:induction false} FollowConcat(setup: Setup, s: State, a: seq<Step>, b: seq<Step>)
    requires Follow(setup, s, a).Some?
    ensures Follow(setup, s, a + b) == Follow(setup, Follow(setup, s, a).value, b)
    decreases |b|
  {
    if b == [] {
      assert a + b == a;
    } else {
      FollowConcat(setup, s, a, b[..|b| - 1]);
      assert (a + b)[..|a + b| - 1] == a + b[..|b| - 1];
    }
  }

  lemma FollowOne(setup: Setup, s: State, a: seq<Step>, step: Step)
    requires Follow(setup, s, a).Some? && CanStep(setup, Follow(setup, s, a).value, step)
    ensures Follow(setup, s, a + [step]) == Some(Next(setup, Follow(setup, s, a).value, step))
  {
    assert (a + [step])[..|a|] == a;
  }

  lemma {:induction false} PrefixFollows(setup: Setup, s: State, steps: seq<Step>, k: nat)
    requires k < |steps| && Follow(setup, s, steps).Some?
    ensures Follow(setup, s, steps[..k]).Some? && CanStep(setup, Follow(setup, s, steps[..k]).value, steps[k])
    ensures Follow(setup, s, steps[..k + 1]) == Some(Next(setup, Follow(setup, s, steps[..k]).value, steps[k]))
    decreases |steps|
  {
    var front := steps[..|steps| - 1];
    if k == |steps| - 1 {
      assert steps[..k] == front && steps[..k + 1] == steps;
    } else {
      PrefixFollows(setup, s, front, k);
      assert front[..k] == steps[..k] && front[..k + 1] == steps[..k + 1];
    }
  }

  /** Where an action other than an offer takes a worker. */
  ghost predicate Leads(setup: Setup, schema: Schema, db: Db, range: Chunk, phase: Phase, a: Action, phase': Phase) {
    match a
    case Load(loaded) =>
      phase.Waiting?
      && phase' == if !loaded then Failed else if ResumePoint(db.rows, range).None? then Succeeded
                   else LoopHead(ResumePoint(db.rows, range).value)
    case Fetch(f) =>
      phase.LoopHead? && phase.next <= range.1 && (f.Some? ==> IsFile(schema, phase.next, f.value))
      && phase' == if f.None? then Failed else Reading(phase.next, f.value, 0)
    case Open(begun) =>
      phase.Reading? && phase.i < |phase.file|
      && var ledger := phase.file[phase.i];
         phase' == if ledger < phase.next || ledger > range.1 || setup.archive(ledger) == []
                   then Reading(phase.next, phase.file, phase.i + 1)
                   else if begun then Storing(phase.next, phase.file, phase.i, 0, []) else Failed
    case Offer(_) => false
    case Break => phase.Storing? && phase' == Failed
    case Commit(o) =>
      phase.Storing? && phase.i < |phase.file| && phase.j == |setup.archive(phase.file[phase.i])|
      && phase' == if o.Committed? then Reading(phase.next, phase.file, phase.i + 1) else Failed
    case Save(o) =>
      phase.Saving? && phase' == if o.Committed? then Counting(phase.next, phase.newNext) else Failed
    case Count => phase.Counting? && phase.next <= phase.newNext && phase' == LoopHead(phase.newNext)
    case Finish =>
      || (phase.LoopHead? && phase.next > range.1 && phase' == Succeeded)
      || (phase.Reading? && phase.i == |phase.file| && phase.next <= range.1
          && phase' == Saving(phase.next, Min(FileBounds(schema, phase.next).1, range.1) + 1))
  }

  lemma LeadsIsAct(setup: Setup, schema: Schema, hashes: nat -> Hash, x: Scene, w: Worker, a: Action, phase': Phase)
    requires Leads(setup, schema, x.db, w.range, w.phase, a, phase')
    ensures CanAct(setup, schema, x.db.sink, w, a)
    ensures Act(setup, schema, hashes, x, w, a).worker.range == w.range
    ensures Act(setup, schema, hashes, x, w, a).worker.phase == phase'
  {
  }

  /** The state everyone shares, and the schedule that led to it. */
  class Cluster {
    const setup: Setup
    var state: State
    var time: nat
    ghost var trace: seq<Step>

    ghost predicate Valid()
      reads this
    {
      After(setup, trace) == Some(state)
    }

    constructor (setup: Setup)
      ensures Valid() && trace == [] && this.setup == setup
    {
      this.setup := setup;
      state, time, trace := INITIAL, 0, [];
    }

    ghost predicate At(me: Id, schema: Schema, range: Chunk, phase: Phase)
      reads this
    {
      && Valid() && Exists(state, me) && state.runs[me.run].schema == schema
      && state.runs[me.run].workers[me.worker].range == range
      && state.runs[me.run].workers[me.worker].phase == phase
    }

    /** Others act for a while. */
    method Others(world: World, me: Id, ghost schema: Schema, ghost range: Chunk, ghost phase: Phase)
      requires Honest(setup, world, me, schema) && At(me, schema, range, phase)
      modifies this
      ensures At(me, schema, range, phase) && old(trace) <= trace
    {
      var steps := world.others(state, time);
      ghost var start, before := state, trace;
      OthersLeave(setup, start, steps, me);
      for k := 0 to |steps|
        invariant Follow(setup, start, steps[..k]) == Some(state)
      {
        PrefixFollows(setup, start, steps, k);
        state := Next(setup, state, steps[k]);
      }
      assert steps[..|steps|] == steps;
      FollowConcat(setup, INITIAL, before, steps);
      trace := before + steps;
      time := time + 1;
    }

    /** One action of this worker, and then others act. */
    method Act(world: World, me: Id, a: Action, ghost schema: Schema, ghost range: Chunk, ghost phase: Phase, ghost phase': Phase)
      requires Honest(setup, world, me, schema) && At(me, schema, range, phase)
      requires CanStep(setup, state, Work(me.run, me.worker, a))
      requires var run := state.runs[me.run];
        var y := BackfillActions.Act(setup, run.schema, run.hashes, SceneOf(state, me.run), run.workers[me.worker], a);
        y.worker.range == range && y.worker.phase == phase'
      modifies this
      ensures At(me, schema, range, phase') && old(trace) + [Work(me.run, me.worker, a)] <= trace
    {
      FollowOne(setup, INITIAL, trace, Work(me.run, me.worker, a));
      state := Next(setup, state, Work(me.run, me.worker, a));
      trace := trace + [Work(me.run, me.worker, a)];
      Others(world, me, schema, range, phase');
    }

    method Do(world: World, me: Id, a: Action, ghost schema: Schema, ghost range: Chunk, ghost phase: Phase, ghost phase': Phase)
      requires Honest(setup, world, me, schema) && At(me, schema, range, phase)
      requires Leads(setup, schema, state.db, range, phase, a, phase')
      modifies this
      ensures At(me, schema, range, phase') && old(trace) <= trace
    {
      ghost var run := state.runs[me.run];
      LeadsIsAct(setup, schema, run.hashes, SceneOf(state, me.run), run.workers[me.worker], a, phase');
      Act(world, me, a, schema, range, phase, phase');
    }
  }

  /** `store_events` of one ledger: every event goes through the sieve, then the transaction commits. */
  method StoreEvents(cluster: Cluster, world: World, me: Id, range: Chunk, next: nat, file: seq<u32>, i: nat, ghost schema: Schema)
    returns (ok: bool)
    requires Honest(cluster.setup, world, me, schema) && i < |file|
    requires cluster.At(me, schema, range, Storing(next, file, i, 0, []))
    modifies cluster
    ensures cluster.At(me, schema, range, if ok then Reading(next, file, i + 1) else Failed) && old(cluster.trace) <= cluster.trace
  {
    var events := cluster.setup.archive(file[i]);
    ghost var batch: seq<Event> := [];
    for j := 0 to |events|
      invariant cluster.At(me, schema, range, Storing(next, file, i, j, batch)) && old(cluster.trace) <= cluster.trace
    {
      if world.breaks(cluster.time) {
        cluster.Do(world, me, Break, schema, range, Storing(next, file, i, j, batch), Failed);
        return false;
      }
      var contentSeen := cluster.setup.policy.contentDedup && world.recent(cluster.time)
                         && SameContentStored(cluster.state.db.sink, events[j].fingerprint);
      ghost var run := cluster.state.runs[me.run];
      ghost var y := OfferEvent(cluster.setup, run.hashes, SceneOf(cluster.state, me.run), run.workers[me.worker], contentSeen);
      cluster.Act(world, me, Offer(contentSeen), schema, range, Storing(next, file, i, j, batch), y.worker.phase);
      batch := y.worker.phase.batch;
    }
    var outcome := world.outcome(cluster.time);
    ok := outcome.Committed?;
    cluster.Do(world, me, Commit(outcome), schema, range, Storing(next, file, i, |events|, batch),
           if ok then Reading(next, file, i + 1) else Failed);
  }

  /** The loop over the ledgers of a file: those outside [next, end] and empty ones are passed over. */
  method ProcessFile(cluster: Cluster, world: World, me: Id, range: Chunk, next: nat, file: seq<u32>, ghost schema: Schema)
    returns (ok: bool)
    requires Honest(cluster.setup, world, me, schema) && cluster.At(me, schema, range, Reading(next, file, 0))
    modifies cluster
    ensures cluster.At(me, schema, range, if ok then Reading(next, file, |file|) else Failed) && old(cluster.trace) <= cluster.trace
  {
    for i := 0 to |file|
      invariant cluster.At(me, schema, range, Reading(next, file, i)) && old(cluster.trace) <= cluster.trace
    {
      var ledger := file[i];
      var wanted := next <= ledger <= range.1 && cluster.setup.archive(ledger) != [];
      var begun := world.begins(cluster.time);
      cluster.Do(world, me, Open(begun), schema, range, Reading(next, file, i),
             if !wanted then Reading(next, file, i + 1) else if begun then Storing(next, file, i, 0, []) else Failed);
      if wanted {
        if !begun {
          return false;
        }
        var stored := StoreEvents(cluster, world, me, range, next, file, i, schema);
        if !stored {
          return false;
        }
      }
    }
    ok := true;
  }

  /** After a file: save the position behind it, and only then count its ledgers. */
  method Checkpoint(cluster: Cluster, world: World, me: Id, schema: Schema, range: Chunk, next: u32, file: seq<u32>)
    returns (ok: bool, newNext: nat)
    requires Honest(cluster.setup, world, me, schema) && next <= range.1
    requires cluster.At(me, schema, range, Reading(next, file, |file|))
    modifies cluster
    ensures cluster.At(me, schema, range, if ok then LoopHead(newNext) else Failed) && old(cluster.trace) <= cluster.trace
    ensures newNext == Min(FileBounds(schema, next).1, range.1) + 1
  {
    newNext := Min(FileBounds(schema, next).1, range.1) + 1;
    FilesPartitionLedgers(schema, next, next);
    cluster.Do(world, me, Finish, schema, range, Reading(next, file, |file|), Saving(next, newNext));
    var outcome := world.outcome(cluster.time);
    ok := outcome.Committed?;
    cluster.Do(world, me, Save(outcome), schema, range, Saving(next, newNext), if ok then Counting(next, newNext) else Failed);
    if ok {
      cluster.Do(world, me, Count, schema, range, Counting(next, newNext), LoopHead(newNext));
    }
  }

  /** One turn of the loop: fetch and store a file, checkpoint, count. */
  method RunFile(cluster: Cluster, world: World, me: Id, schema: Schema, range: Chunk, next: u32) returns (ok: bool, newNext: nat)
    requires Honest(cluster.setup, world, me, schema) && next <= range.1
    requires cluster.At(me, schema, range, LoopHead(next))
    modifies cluster
    ensures cluster.At(me, schema, range, if ok then LoopHead(newNext) else Failed) && old(cluster.trace) <= cluster.trace
    ensures ok ==> next < newNext <= range.1 + 1
  {
    var fetched := world.fetch(cluster.time, next);
    cluster.Do(world, me, Fetch(fetched), schema, range, LoopHead(next),
           if fetched.None? then Failed else Reading(next, fetched.value, 0));
    if fetched.None? {
      return false, next;
    }
    ok := ProcessFile(cluster, world, me, range, next, fetched.value, schema);
    if !ok {
      return false, next;
    }
    ok, newNext := Checkpoint(cluster, world, me, schema, range, next, fetched.value);
    FilesPartitionLedgers(schema, next, next);
  }

  /**
   * `run_range`: resume, then file by file until the range is done or something
   * fails. Whatever others do meanwhile, this is part of a schedule, and a success
   * leaves every event of the range stored or left out by the sink.
   */
  method RunRange(cluster: Cluster, world: World, me: Id, schema: Schema, range: Chunk) returns (ok: bool)
    requires Honest(cluster.setup, world, me, schema) && cluster.At(me, schema, range, Waiting)
    modifies cluster
    ensures cluster.At(me, schema, range, if ok then Succeeded else Failed) && old(cluster.trace) <= cluster.trace
    ensures Inv(cluster.setup, cluster.state)
    ensures ok ==> WithinUpTo(cluster.setup.archive, Known(cluster.state), range.0, range.1 + 1)
  {
    var resume := if world.loaded then ResumePoint(cluster.state.db.rows, range) else None;
    cluster.Do(world, me, Load(world.loaded), schema, range, Waiting,
           if !world.loaded then Failed else if resume.None? then Succeeded else LoopHead(resume.value));
    ok := world.loaded;
    if resume.Some? {
      var next := resume.value;
      while ok && next <= range.1
        invariant cluster.At(me, schema, range, if ok then LoopHead(next) else Failed) && old(cluster.trace) <= cluster.trace
        decreases ok, range.1 + 1 - next
      {
        ok, next := RunFile(cluster, world, me, schema, range, next);
      }
      if ok {
        cluster.Do(world, me, Finish, schema, range, LoopHead(next), Succeeded);
      }
    }
    Conclude(cluster.setup, cluster.trace, me, range);
  }

  /** What a schedule in which this worker has succeeded means for its range. */
  lemma Conclude(setup: Setup, trace: seq<Step>, me: Id, range: Chunk)
    requires After(setup, trace).Some? && Exists(After(setup, trace).value, me)
    requires After(setup, trace).value.runs[me.run].workers[me.worker].range == range
    ensures var s := After(setup, trace).value;
      && Inv(setup, s)
      && (s.runs[me.run].workers[me.worker].phase.Succeeded? ==> WithinUpTo(setup.archive, Known(s), range.0, range.1 + 1))
  {
    InvariantAlways(setup, trace);
    var s := After(setup, trace).value;
    assert RunSound(setup, Known(s), s.runs[me.run]);
    assert WorkerSound(setup, s.runs[me.run].schema, Known(s), s.runs[me.run].workers[me.worker]);
  }
}
