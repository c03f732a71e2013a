/**
 * The crash-recovery protocol of the historical backfill (src/backfill.rs,
 * `run`): any number of runs, each with one worker per chunk and one session
 * filter, interleaving on one database with each other and with live indexing.
 */
module Backfill {
  import opened Options
  import opened LedgerFiles
  import opened BloomFilter
  import opened EventSink
  import opened BackfillActions

  // ------------------------------------------------------- the whole system

  /** One call of `run`: a worker per chunk, one session filter, and the shared progress counters. */
  datatype Run = Run(from: u32, to: u32, chunkSize: u32, schema: Schema, hashes: nat -> Hash,
                     workers: seq<Worker>, session: Session, offered: seq<Offered>, ledgers: nat, events: nat) {
    /** `run` returns Ok exactly when no worker returned an error. */
    ghost predicate ReturnsOk() {
      forall i :: 0 <= i < |workers| ==> workers[i].phase.Succeeded?
    }
  }

  /** `external` holds the ledgers live indexing stored from; `unseen` counts rows no run counted. */
  datatype State = State(db: Db, skipped: set<Key>, runs: seq<Run>, external: set<u32>, unseen: nat)

  const INITIAL := State(Db(map[], map[]), {}, [], {}, 0)

  datatype Step =
    | StartRun(from: u32, to: u32, chunkSize: u32, schema: Schema, hashes: nat -> Hash)
    | Work(r: nat, w: nat, action: Action)
    | Crash(crashed: nat)
    | StoreLive(ledger: u32, stored: seq<Event>)

  function EffectiveChunk(chunkSize: u32): (n: nat)
    ensures n >= 1
  {
    if chunkSize == 0 then 1 else chunkSize
  }

  function NewWorkers(from: u32, to: u32, chunkSize: u32): seq<Worker> {
    var cs := Chunks(from, to, EffectiveChunk(chunkSize));
    seq(|cs|, i requires 0 <= i < |cs| => Worker(cs[i], Waiting, 0, 0))
  }

  /** The workers of a run take its range in full chunks of the size asked for, at least one ledger, the last one shorter. */
  lemma WorkersTakeChunks(from: u32, to: u32, chunkSize: u32, i: nat)
    requires i < |NewWorkers(from, to, chunkSize)|
    ensures var workers, size := NewWorkers(from, to, chunkSize), if chunkSize == 0 then 1 else chunkSize;
      && workers[i].phase.Waiting? && workers[i].range.0 == from + i * size
      && workers[i].range.1 == if i + 1 < |workers| then from + i * size + size - 1 else to
  {
    ChunksAreFull(from, to, EffectiveChunk(chunkSize), i);
  }

  function NewRun(from: u32, to: u32, chunkSize: u32, schema: Schema, hashes: nat -> Hash): Run {
    Run(from, to, chunkSize, schema, hashes, NewWorkers(from, to, chunkSize), FreshSession(hashes), [], 0, 0)
  }

  function Interrupt(w: Worker): Worker {
    if w.phase.Succeeded? then w else w.(phase := Failed)
  }

  function Interrupted(run: Run): Run {
    run.(workers := seq(|run.workers|, i requires 0 <= i < |run.workers| => Interrupt(run.workers[i])))
  }

  /** What run `r` shares with everyone. */
  function SceneOf(s: State, r: nat): Scene
    requires r < |s.runs|
  {
    Scene(s.db, s.runs[r].session, s.runs[r].offered, s.skipped)
  }

  ghost predicate CanStep(setup: Setup, s: State, step: Step) {
    match step
    case StartRun(_, _, _, _, _) => true
    case Work(r, w, a) =>
      r < |s.runs| && w < |s.runs[r].workers|
      && CanAct(setup, s.runs[r].schema, s.db.sink, s.runs[r].workers[w], a)
    case Crash(r) => r < |s.runs|
    case StoreLive(ledger, stored) => forall e :: e in stored ==> Storable(setup, e, ledger)
  }

  /** The state once worker `w` of run `r` has had this effect. */
  function Worked(s: State, r: nat, w: nat, x: Effect): State
    requires r < |s.runs| && w < |s.runs[r].workers|
  {
    var run := s.runs[r];
    var run' := run.(workers := run.workers[w := x.worker], session := x.scene.session, offered := x.scene.offered,
                     ledgers := run.ledgers + x.ledgers, events := run.events + x.events);
    s.(db := x.scene.db, skipped := x.scene.skipped, runs := s.runs[r := run'], unseen := s.unseen + x.unseen)
  }

  /** The keys among stored events whose first event in the ledger was passed over. */
  function PassedBy(archive: Archive, ledger: u32, stored: seq<Event>): set<Key> {
    set e | e in stored && Lookup(stored, e.key) != Lookup(archive(ledger), e.key) :: e.key
  }

  /** Live indexing stores some storable events of a ledger; keys whose first event it passed over count as skipped. */
  function StoredLive(archive: Archive, s: State, ledger: u32, stored: seq<Event>): State {
    var sink := Insert(s.db.sink, stored);
    s.(db := s.db.(sink := sink), skipped := s.skipped + PassedBy(archive, ledger, stored), external := s.external + {ledger},
       unseen := s.unseen + Added(s.db.sink, sink))
  }

  function Next(setup: Setup, s: State, step: Step): State
    requires CanStep(setup, s, step)
  {
    match step
    case StartRun(from, to, chunkSize, schema, hashes) =>
      s.(runs := s.runs + [NewRun(from, to, chunkSize, schema, hashes)])
    case Work(r, w, a) =>
      var run := s.runs[r];
      Worked(s, r, w, Act(setup, run.schema, run.hashes, SceneOf(s, r), run.workers[w], a))
    case Crash(r) => s.(runs := s.runs[r := Interrupted(s.runs[r])])
    case StoreLive(ledger, stored) => StoredLive(setup.archive, s, ledger, stored)
  }

  /** The state that steps lead to from another, if every one of them is possible in turn. */
  ghost function Follow(setup: Setup, s: State, steps: seq<Step>): Option<State>
    decreases |steps|
  {
    if |steps| == 0 then Some(s)
    else
      var before := Follow(setup, s, steps[..|steps| - 1]);
      if before.Some? && CanStep(setup, before.value, steps[|steps| - 1])
      then Some(Next(setup, before.value, steps[|steps| - 1]))
      else None
  }

  /** The state after a whole schedule. */
  ghost function After(setup: Setup, steps: seq<Step>): Option<State> { Follow(setup, INITIAL, steps) }

  // -------------------------------------------------------- the invariant

  ghost function SumCounted(ws: seq<Worker>): nat
    decreases |ws|
  {
    if |ws| == 0 then 0 else SumCounted(ws[..|ws| - 1]) + ws[|ws| - 1].counted
  }

  ghost function SumEvents(runs: seq<Run>): nat
    decreases |runs|
  {
    if |runs| == 0 then 0 else SumEvents(runs[..|runs| - 1]) + runs[|runs| - 1].events
  }

  lemma {:induction false} SumCountedUpdate(ws: seq<Worker>, i: nat, w: Worker)
    requires i < |ws|
    ensures SumCounted(ws[i := w]) + ws[i].counted == SumCounted(ws) + w.counted
    decreases |ws|
  {
    var n := |ws| - 1;
    if i < n {
      SumCountedUpdate(ws[..n], i, w);
      assert ws[i := w][..n] == ws[..n][i := w];
    } else {
      assert ws[i := w][..n] == ws[..n];
    }
  }

  lemma {:induction false} SumEventsUpdate(runs: seq<Run>, i: nat, run: Run)
    requires i < |runs|
    ensures SumEvents(runs[i := run]) + runs[i].events == SumEvents(runs) + run.events
    decreases |runs|
  {
    var n := |runs| - 1;
    if i < n {
      SumEventsUpdate(runs[..n], i, run);
      assert runs[i := run][..n] == runs[..n][i := run];
    } else {
      assert runs[i := run][..n] == runs[..n];
    }
  }

  lemma {:induction false} SumCountedSame(ws: seq<Worker>, vs: seq<Worker>)
    requires |ws| == |vs| && forall i :: 0 <= i < |ws| ==> ws[i].counted == vs[i].counted
    ensures SumCounted(ws) == SumCounted(vs)
    decreases |ws|
  {
    if ws != [] {
      SumCountedSame(ws[..|ws| - 1], vs[..|vs| - 1]);
    }
  }

  ghost predicate RunSound(setup: Setup, keys: set<Key>, run: Run) {
    var cs := Chunks(run.from, run.to, EffectiveChunk(run.chunkSize));
    && |run.workers| == |cs|
    && (forall i :: 0 <= i < |cs| ==> run.workers[i].range == cs[i])
    && (forall i :: 0 <= i < |run.workers| ==> WorkerSound(setup, run.schema, keys, run.workers[i]))
    && run.ledgers == SumCounted(run.workers)
  }

  /** Some run asked for this ledger, or live indexing stored from it. */
  ghost predicate Requested(s: State, ledger: u32) {
    || ledger in s.external
    || exists r :: 0 <= r < |s.runs| && s.runs[r].from <= ledger <= s.runs[r].to
  }

  /** A stored row is a storable event of a requested ledger, the first of its key unless one was left out. */
  ghost predicate Justified(setup: Setup, s: State, k: Key, e: Event) {
    exists l: u32 :: Requested(s, l) && Storable(setup, e, l) && e.key == k && FirstOrSkipped(setup, e, l, s.skipped)
  }

  ghost predicate AllJustified(setup: Setup, s: State) {
    forall k :: k in s.db.sink ==> Justified(setup, s, k, s.db.sink[k])
  }

  ghost predicate RunsSound(setup: Setup, keys: set<Key>, runs: seq<Run>) {
    forall r :: 0 <= r < |runs| ==> RunSound(setup, keys, runs[r])
  }

  /** Keys that are stored, or whose events were left out somewhere. */
  ghost function Known(s: State): set<Key> { s.db.sink.Keys + s.skipped }

  ghost predicate Inv(setup: Setup, s: State) {
    && RowsSound(setup.archive, s.db.rows, Known(s))
    && RunsSound(setup, Known(s), s.runs)
    && AllJustified(setup, s)
    && |s.db.sink| == SumEvents(s.runs) + s.unseen
  }

  lemma RunMonotone(setup: Setup, keys: set<Key>, more: set<Key>, run: Run)
    requires keys <= more && RunSound(setup, keys, run)
    ensures RunSound(setup, more, run)
  {
    forall i | 0 <= i < |run.workers| ensures WorkerSound(setup, run.schema, more, run.workers[i]) {
      SoundMonotone(setup, run.schema, keys, more, run.workers[i]);
    }
  }

  /** Changing one run leaves the others sound. */
  lemma OtherRunsKept(setup: Setup, keys: set<Key>, more: set<Key>, runs: seq<Run>, r: nat, run: Run)
    requires keys <= more && RunsSound(setup, keys, runs) && r < |runs| && RunSound(setup, more, run)
    ensures RunsSound(setup, more, runs[r := run])
  {
    var all := runs[r := run];
    forall q | 0 <= q < |all| ensures RunSound(setup, more, all[q]) {
      if q != r {
        RunMonotone(setup, keys, more, runs[q]);
      }
    }
  }

  /** Later states request at least the same ledgers and have left out at least the same keys. */
  ghost predicate SameRequests(s: State, s': State) {
    && s.external <= s'.external && s.skipped <= s'.skipped
    && |s.runs| <= |s'.runs|
    && forall q :: 0 <= q < |s.runs| ==> s'.runs[q].from == s.runs[q].from && s'.runs[q].to == s.runs[q].to
  }

  lemma JustifiedKept(setup: Setup, s: State, s': State, k: Key, e: Event)
    requires SameRequests(s, s') && Justified(setup, s, k, e)
    ensures Justified(setup, s', k, e)
  {
    var l: u32 :| Requested(s, l) && Storable(setup, e, l) && e.key == k && FirstOrSkipped(setup, e, l, s.skipped);
    if l !in s.external {
      var q :| 0 <= q < |s.runs| && s.runs[q].from <= l <= s.runs[q].to;
      assert s'.runs[q].from <= l <= s'.runs[q].to;
    }
    assert Requested(s', l);
  }

  /** Rows that were there stay justified; new ones have to be. */
  lemma AllJustifiedKept(setup: Setup, s: State, s': State)
    requires SameRequests(s, s') && AllJustified(setup, s)
    requires forall k :: k in s'.db.sink && k in s.db.sink ==> s'.db.sink[k] == s.db.sink[k]
    requires forall k :: k in s'.db.sink && k !in s.db.sink ==> Justified(setup, s', k, s'.db.sink[k])
    ensures AllJustified(setup, s')
  {
    forall k | k in s'.db.sink ensures Justified(setup, s', k, s'.db.sink[k]) {
      if k in s.db.sink {
        JustifiedKept(setup, s, s', k, s.db.sink[k]);
      }
    }
  }

  lemma {:induction false} SumCountedZero(ws: seq<Worker>)
    requires forall i :: 0 <= i < |ws| ==> ws[i].counted == 0
    ensures SumCounted(ws) == 0
    decreases |ws|
  {
    if ws != [] {
      SumCountedZero(ws[..|ws| - 1]);
    }
  }

  lemma NewRunSound(setup: Setup, keys: set<Key>, from: u32, to: u32, chunkSize: u32, schema: Schema, hashes: nat -> Hash)
    ensures RunSound(setup, keys, NewRun(from, to, chunkSize, schema, hashes))
  {
    ChunksPartition(from, to, EffectiveChunk(chunkSize));
    SumCountedZero(NewWorkers(from, to, chunkSize));
  }

  lemma SumEventsSnoc(runs: seq<Run>, run: Run)
    ensures SumEvents(runs + [run]) == SumEvents(runs) + run.events
  {
    assert (runs + [run])[..|runs|] == runs;
  }

  lemma StartRunSound(setup: Setup, s: State, run: Run)
    requires Inv(setup, s) && RunSound(setup, Known(s), run) && run.events == 0
    ensures Inv(setup, s.(runs := s.runs + [run]))
  {
    var s' := s.(runs := s.runs + [run]);
    SumEventsSnoc(s.runs, run);
    forall r | 0 <= r < |s'.runs| ensures RunSound(setup, Known(s), s'.runs[r]) {
      assert s'.runs[r] == if r < |s.runs| then s.runs[r] else run;
    }
    AllJustifiedKept(setup, s, s');
  }

  lemma RunAdvances(setup: Setup, x: Scene, run: Run, i: nat, y: Effect)
    requires i < |run.workers| && RunSound(setup, Settled(x), run) && Settled(x) <= Settled(y.scene)
    requires EffectSound(setup, run.schema, x, run.workers[i], y)
    ensures RunSound(setup, Settled(y.scene),
              run.(workers := run.workers[i := y.worker], session := y.scene.session, offered := y.scene.offered,
                   ledgers := run.ledgers + y.ledgers, events := run.events + y.events))
  {
    RunMonotone(setup, Settled(x), Settled(y.scene), run);
    SumCountedUpdate(run.workers, i, y.worker);
  }

  lemma NewRowJustified(setup: Setup, s: State, k: Key, e: Event, range: Chunk, r: nat)
    requires r < |s.runs| && s.runs[r].from <= range.0 && range.1 <= s.runs[r].to
    requires e.key == k && FromRange(setup, s.skipped, e, range)
    ensures Justified(setup, s, k, e)
  {
    var l: u32 :| InChunk(range, l) && Storable(setup, e, l) && FirstOrSkipped(setup, e, l, s.skipped);
    assert s.runs[r].from <= l <= s.runs[r].to;
    assert Requested(s, l);
  }

  lemma WorkJustified(setup: Setup, s: State, s': State, range: Chunk, r: nat)
    requires AllJustified(setup, s) && Grew(setup, s.db.sink, s'.db.sink, s'.skipped, range)
    requires SameRequests(s, s') && r < |s'.runs|
    requires s'.runs[r].from <= range.0 && range.1 <= s'.runs[r].to
    ensures AllJustified(setup, s')
  {
    forall k | k in s'.db.sink && k !in s.db.sink ensures Justified(setup, s', k, s'.db.sink[k]) {
      NewRowJustified(setup, s', k, s'.db.sink[k], range, r);
    }
    AllJustifiedKept(setup, s, s');
  }

  lemma GrewKeepsKeys(setup: Setup, x: Scene, y: Scene, range: Chunk)
    requires Grew(setup, x.db.sink, y.db.sink, y.skipped, range) && x.skipped <= y.skipped
    ensures Settled(x) <= Settled(y)
  {
  }

  lemma WorkerInsideRun(setup: Setup, keys: set<Key>, run: Run, i: nat)
    requires RunSound(setup, keys, run) && i < |run.workers|
    ensures run.from <= run.workers[i].range.0 <= run.workers[i].range.1 <= run.to
  {
    ChunksPartition(run.from, run.to, EffectiveChunk(run.chunkSize));
  }

  lemma WorkSound(setup: Setup, s: State, r: nat, i: nat, a: Action)
    requires Inv(setup, s) && CanStep(setup, s, Work(r, i, a))
    ensures Inv(setup, Next(setup, s, Work(r, i, a)))
  {
    var run, x := s.runs[r], SceneOf(s, r);
    var w := run.workers[i];
    assert RunSound(setup, Known(s), run);
    ActSound(setup, run.schema, run.hashes, x, w, a);
    var y := Act(setup, run.schema, run.hashes, x, w, a);
    WorkedSound(setup, s, r, i, y);
  }

  /** Any sound effect of one worker keeps the invariant. */
  lemma WorkedSound(setup: Setup, s: State, r: nat, i: nat, y: Effect)
    requires Inv(setup, s) && r < |s.runs| && i < |s.runs[r].workers|
    requires EffectSound(setup, s.runs[r].schema, SceneOf(s, r), s.runs[r].workers[i], y)
    ensures Inv(setup, Worked(s, r, i, y))
  {
    var s' := Worked(s, r, i, y);
    WorkedRunsSound(setup, s, r, i, y);
    SumEventsUpdate(s.runs, r, s'.runs[r]);
    WorkedJustified(setup, s, r, i, y);
  }

  lemma WorkedJustified(setup: Setup, s: State, r: nat, i: nat, y: Effect)
    requires RunsSound(setup, Known(s), s.runs) && AllJustified(setup, s) && r < |s.runs| && i < |s.runs[r].workers|
    requires Grew(setup, s.db.sink, y.scene.db.sink, y.scene.skipped, s.runs[r].workers[i].range)
    requires s.skipped <= y.scene.skipped
    ensures AllJustified(setup, Worked(s, r, i, y))
  {
    assert RunSound(setup, Known(s), s.runs[r]);
    WorkerInsideRun(setup, Known(s), s.runs[r], i);
    WorkJustified(setup, s, Worked(s, r, i, y), s.runs[r].workers[i].range, r);
  }

  lemma WorkedRunsSound(setup: Setup, s: State, r: nat, i: nat, y: Effect)
    requires RunsSound(setup, Known(s), s.runs) && r < |s.runs| && i < |s.runs[r].workers|
    requires EffectSound(setup, s.runs[r].schema, SceneOf(s, r), s.runs[r].workers[i], y)
    ensures RunsSound(setup, Known(Worked(s, r, i, y)), Worked(s, r, i, y).runs)
  {
    var s' := Worked(s, r, i, y);
    var x := SceneOf(s, r);
    GrewKeepsKeys(setup, x, y.scene, s.runs[r].workers[i].range);
    assert RunSound(setup, Known(s), s.runs[r]);
    RunAdvances(setup, x, s.runs[r], i, y);
    OtherRunsKept(setup, Known(s), Known(s'), s.runs, r, s'.runs[r]);
  }

  lemma InterruptedSound(setup: Setup, keys: set<Key>, run: Run)
    requires RunSound(setup, keys, run)
    ensures RunSound(setup, keys, Interrupted(run))
  {
    SumCountedSame(run.workers, Interrupted(run).workers);
    forall i | 0 <= i < |run.workers| ensures WorkerSound(setup, run.schema, keys, Interrupted(run).workers[i]) {
      assert WorkerSound(setup, run.schema, keys, run.workers[i]);
    }
  }

  lemma CrashSound(setup: Setup, s: State, r: nat)
    requires Inv(setup, s) && r < |s.runs|
    ensures Inv(setup, Next(setup, s, Crash(r)))
  {
    var s' := Next(setup, s, Crash(r));
    InterruptedSound(setup, Known(s), s.runs[r]);
    SumEventsUpdate(s.runs, r, s'.runs[r]);
    OtherRunsKept(setup, Known(s), Known(s), s.runs, r, s'.runs[r]);
    AllJustifiedKept(setup, s, s');
  }

  lemma StoreLiveSound(setup: Setup, s: State, ledger: u32, stored: seq<Event>)
    requires Inv(setup, s) && CanStep(setup, s, StoreLive(ledger, stored))
    ensures Inv(setup, Next(setup, s, StoreLive(ledger, stored)))
  {
    var s' := Next(setup, s, StoreLive(ledger, stored));
    InsertAddsFirstOfEachKey(s.db.sink, stored);
    RowsMonotone(setup.archive, s.db.rows, Known(s), Known(s'));
    forall r | 0 <= r < |s'.runs| ensures RunSound(setup, Known(s'), s'.runs[r]) {
      RunMonotone(setup, Known(s), Known(s'), s.runs[r]);
    }
    forall k | k in s'.db.sink && k !in s.db.sink ensures Justified(setup, s', k, s'.db.sink[k]) {
      LookupFinds(stored, k);
      assert Requested(s', ledger) && Storable(setup, s'.db.sink[k], ledger);
      assert FirstOrSkipped(setup, s'.db.sink[k], ledger, s'.skipped);
    }
    AllJustifiedKept(setup, s, s');
  }

  lemma StepSound(setup: Setup, s: State, step: Step)
    requires Inv(setup, s) && CanStep(setup, s, step)
    ensures Inv(setup, Next(setup, s, step))
  {
    match step
    case StartRun(from, to, chunkSize, schema, hashes) =>
      NewRunSound(setup, Known(s), from, to, chunkSize, schema, hashes);
      StartRunSound(setup, s, NewRun(from, to, chunkSize, schema, hashes));
    case Work(r, w, a) => WorkSound(setup, s, r, w, a);
    case Crash(r) => CrashSound(setup, s, r);
    case StoreLive(ledger, stored) => StoreLiveSound(setup, s, ledger, stored);
  }

  /** The invariant holds after every schedule. */
  lemma {:induction false} InvariantAlways(setup: Setup, steps: seq<Step>)
    requires After(setup, steps).Some?
    ensures Inv(setup, After(setup, steps).value)
    decreases |steps|
  {
    if steps != [] {
      var before := steps[..|steps| - 1];
      assert After(setup, before) == Follow(setup, INITIAL, before);
      InvariantAlways(setup, before);
      StepSound(setup, After(setup, before).value, steps[|steps| - 1]);
    }
  }

  lemma WorkerIsSound(setup: Setup, s: State, r: nat, i: nat)
    requires RunsSound(setup, Known(s), s.runs) && r < |s.runs| && i < |s.runs[r].workers|
    ensures RunSound(setup, Known(s), s.runs[r])
    ensures WorkerSound(setup, s.runs[r].schema, Known(s), s.runs[r].workers[i])
  {
    assert RunSound(setup, Known(s), s.runs[r]);
  }

  // --------------------------------------------------------- main results

  ghost function Remaining(ws: seq<Worker>): int
    decreases |ws|
  {
    if |ws| == 0 then 0
    else Remaining(ws[..|ws| - 1]) + (ws[|ws| - 1].range.1 + 1 - ws[|ws| - 1].resume)
  }

  lemma {:induction false} CountedIsRemaining(setup: Setup, schema: Schema, keys: set<Key>, ws: seq<Worker>)
    requires forall i :: 0 <= i < |ws| ==> WorkerSound(setup, schema, keys, ws[i]) && ws[i].phase.Succeeded?
    ensures SumCounted(ws) == Remaining(ws)
    decreases |ws|
  {
    if ws != [] {
      CountedIsRemaining(setup, schema, keys, ws[..|ws| - 1]);
    }
  }

  /** The worker whose chunk contains the ledger. */
  lemma WorkerOf(run: Run, l: u32) returns (i: nat)
    requires run.from <= l <= run.to
    requires var cs := Chunks(run.from, run.to, EffectiveChunk(run.chunkSize));
      |run.workers| == |cs| && forall j :: 0 <= j < |cs| ==> run.workers[j].range == cs[j]
    ensures i < |run.workers| && InChunk(run.workers[i].range, l)
  {
    var cs := Chunks(run.from, run.to, EffectiveChunk(run.chunkSize));
    ChunksPartition(run.from, run.to, EffectiveChunk(run.chunkSize));
    assert Covered(cs, l);
    i :| 0 <= i < |cs| && InChunk(cs[i], l);
    assert run.workers[i].range == cs[i];
  }

  lemma FinishedRun(setup: Setup, keys: set<Key>, run: Run)
    requires RunSound(setup, keys, run) && run.ReturnsOk()
    ensures WithinUpTo(setup.archive, keys, run.from, run.to + 1)
    ensures run.ledgers == Remaining(run.workers)
  {
    CountedIsRemaining(setup, run.schema, keys, run.workers);
    forall l: u32 | run.from <= l <= run.to ensures Within(setup.archive, keys, l) {
      var i := WorkerOf(run, l);
      assert WorkerSound(setup, run.schema, keys, run.workers[i]) && run.workers[i].phase.Succeeded?;
    }
  }

  /** Every event of these ledgers is in the table. */
  ghost predicate Complete(setup: Setup, s: State, from: nat, to: nat) {
    forall l: u32 :: from <= l < to ==> Stored(setup.archive, s.db.sink, l)
  }

  /** Every key of these ledgers that was ever left out is in the table all the same. */
  ghost predicate SkippedAreStored(setup: Setup, s: State, from: nat, to: nat) {
    forall l: u32, k :: from <= l < to && k in s.skipped && HasKey(setup.archive(l), k) ==> k in s.db.sink
  }

  lemma CompleteIffSkippedStored(setup: Setup, s: State, from: nat, to: nat)
    requires WithinUpTo(setup.archive, Known(s), from, to)
    ensures Complete(setup, s, from, to) <==> SkippedAreStored(setup, s, from, to)
  {
    if SkippedAreStored(setup, s, from, to) {
      forall l: u32 | from <= l < to ensures Stored(setup.archive, s.db.sink, l) {
        assert Within(setup.archive, Known(s), l);
      }
    }
    if Complete(setup, s, from, to) {
      forall l: u32, k | from <= l < to && k in s.skipped && HasKey(setup.archive(l), k) ensures k in s.db.sink {
        assert Stored(setup.archive, s.db.sink, l);
      }
    }
  }

  /**
   * What a run that returns Ok has done, whatever interleaving, failures, crashes
   * and other runs there were: its whole range is stored exactly when every key
   * that a filter or the guard turned away is stored, and it has counted exactly
   * what its workers had left to do.
   */
  lemma NothingLost(setup: Setup, steps: seq<Step>, r: nat)
    requires After(setup, steps).Some? && r < |After(setup, steps).value.runs|
    requires After(setup, steps).value.runs[r].ReturnsOk()
    ensures var s := After(setup, steps).value;
      var run := s.runs[r];
      && (Complete(setup, s, run.from, run.to + 1) <==> SkippedAreStored(setup, s, run.from, run.to + 1))
      && run.ledgers == Remaining(run.workers)
  {
    InvariantAlways(setup, steps);
    var s := After(setup, steps).value;
    assert RunSound(setup, Known(s), s.runs[r]);
    FinishedRun(setup, Known(s), s.runs[r]);
    CompleteIffSkippedStored(setup, s, s.runs[r].from, s.runs[r].to + 1);
  }

  /**
   * Nothing spurious: every stored row is an event the guard accepts, of a ledger
   * that some run or live indexing asked for, and the first of its key there
   * unless one was left out; and rows are counted exactly once.
   */
  lemma NothingSpurious(setup: Setup, steps: seq<Step>)
    requires After(setup, steps).Some?
    ensures var s := After(setup, steps).value;
      && (forall k :: k in s.db.sink ==> Justified(setup, s, k, s.db.sink[k]))
      && |s.db.sink| == SumEvents(s.runs) + s.unseen
  {
    InvariantAlways(setup, steps);
  }

  /** Every checkpoint row ever visible tells the truth about all events that were not left out. */
  lemma CheckpointsTellTheTruth(setup: Setup, steps: seq<Step>, range: Chunk)
    requires After(setup, steps).Some? && range in After(setup, steps).value.db.rows
    ensures var s := After(setup, steps).value;
      var row := s.db.rows[range];
      && range.0 <= row.next <= range.1 + 1
      && (row.completed <==> row.next > range.1)
      && (Complete(setup, s, range.0, row.next) <==> SkippedAreStored(setup, s, range.0, row.next))
  {
    InvariantAlways(setup, steps);
    var s := After(setup, steps).value;
    assert RowSound(setup.archive, Known(s), range, s.db.rows[range]);
    CompleteIffSkippedStored(setup, s, range.0, s.db.rows[range].next);
  }

  lemma CountingMoves(setup: Setup, schema: Schema, keys: set<Key>, w: Worker)
    requires WorkerSound(setup, schema, keys, w) && w.phase.Counting?
    ensures w.phase.next < w.phase.newNext <= w.range.1 + 1
  {
  }

  lemma CountTurns(setup: Setup, s: State, r: nat, i: nat)
    requires CanStep(setup, s, Work(r, i, Count))
    ensures var w, w' := s.runs[r].workers[i], Next(setup, s, Work(r, i, Count)).runs[r].workers[i];
      w.phase.Counting? && w'.phase == LoopHead(w.phase.newNext) && w'.range == w.range
  {
  }

  /** Each turn of a worker's loop moves its position strictly towards the end of its range. */
  lemma LoopsAdvance(setup: Setup, steps: seq<Step>, r: nat, i: nat)
    requires After(setup, steps).Some? && CanStep(setup, After(setup, steps).value, Work(r, i, Count))
    ensures var s := After(setup, steps).value;
      var w, w' := s.runs[r].workers[i], Next(setup, s, Work(r, i, Count)).runs[r].workers[i];
      w'.phase.LoopHead? && 0 <= w'.range.1 + 1 - w'.phase.next < w.range.1 + 1 - w.phase.next
  {
    InvariantAlways(setup, steps);
    var s := After(setup, steps).value;
    WorkerIsSound(setup, s, r, i);
    CountTurns(setup, s, r, i);
    CountingMoves(setup, s.runs[r].schema, Known(s), s.runs[r].workers[i]);
  }

  /** A transaction belongs to one ledger, so no key occurs in two of them. */
  ghost predicate KeysNameLedgers(archive: Archive) {
    forall l: u32, m: u32, k :: HasKey(archive(l), k) && HasKey(archive(m), k) ==> l == m
  }

  /** All requests of the history lie inside one range. */
  ghost predicate OnlyAsked(s: State, from: u32, to: u32) {
    forall l: u32 :: Requested(s, l) ==> from <= l <= to
  }

  ghost predicate InSomeLedger(archive: Archive, k: Key, from: u32, to: u32) {
    exists l: u32 :: from <= l <= to && HasKey(archive(l), k)
  }

  /** The table has exactly the keys of the ledgers of the range. */
  ghost predicate HasKeysOf(archive: Archive, sink: map<Key, Event>, from: u32, to: u32) {
    && (forall k :: k in sink ==> InSomeLedger(archive, k, from, to))
    && (forall l: u32, k :: from <= l <= to && HasKey(archive(l), k) ==> k in sink)
  }

  /** Every row that is not under a skipped key is the first event of its key in the range. */
  ghost predicate RowsAreFirst(archive: Archive, sink: map<Key, Event>, skipped: set<Key>, from: u32, to: u32) {
    forall l: u32, k :: from <= l <= to && HasKey(archive(l), k) && k in sink && k !in skipped ==>
      Lookup(archive(l), k) == Some(sink[k])
  }

  lemma StorableHasKey(setup: Setup, e: Event, l: u32)
    requires Storable(setup, e, l)
    ensures HasKey(setup.archive(l), e.key)
  {
    LookupFinds(setup.archive(l), e.key);
  }

  lemma RowsFromRange(setup: Setup, s: State, from: u32, to: u32, k: Key) returns (l: u32)
    requires AllJustified(setup, s) && OnlyAsked(s, from, to) && k in s.db.sink
    ensures from <= l <= to && HasKey(setup.archive(l), k)
    ensures k !in s.skipped ==> Lookup(setup.archive(l), k) == Some(s.db.sink[k])
  {
    assert Justified(setup, s, k, s.db.sink[k]);
    l :| Requested(s, l) && Storable(setup, s.db.sink[k], l) && s.db.sink[k].key == k
      && FirstOrSkipped(setup, s.db.sink[k], l, s.skipped);
    StorableHasKey(setup, s.db.sink[k], l);
  }

  lemma RowsFirst(setup: Setup, s: State, from: u32, to: u32)
    requires AllJustified(setup, s) && OnlyAsked(s, from, to) && KeysNameLedgers(setup.archive)
    ensures RowsAreFirst(setup.archive, s.db.sink, s.skipped, from, to)
    ensures forall k :: k in s.db.sink ==> InSomeLedger(setup.archive, k, from, to)
  {
    forall k | k in s.db.sink
      ensures InSomeLedger(setup.archive, k, from, to)
      ensures forall m: u32 :: from <= m <= to && HasKey(setup.archive(m), k) && k !in s.skipped ==>
        Lookup(setup.archive(m), k) == Some(s.db.sink[k])
    {
      var l := RowsFromRange(setup, s, from, to, k);
    }
  }

  lemma KeysIffComplete(setup: Setup, s: State, from: u32, to: u32)
    requires forall k :: k in s.db.sink ==> InSomeLedger(setup.archive, k, from, to)
    ensures HasKeysOf(setup.archive, s.db.sink, from, to) <==> Complete(setup, s, from, to + 1)
  {
    if Complete(setup, s, from, to + 1) {
      forall l: u32, k | from <= l <= to && HasKey(setup.archive(l), k) ensures k in s.db.sink {
        assert Stored(setup.archive, s.db.sink, l);
      }
    }
  }

  /**
   * After a run over everything asked for so far returned Ok, the table has exactly
   * the keys of the range if and only if every key left out is stored; and every
   * row is the first event of its key unless an event of the key was left out.
   */
  lemma SinkIsExact(setup: Setup, steps: seq<Step>, r: nat)
    requires After(setup, steps).Some? && r < |After(setup, steps).value.runs|
    requires After(setup, steps).value.runs[r].ReturnsOk() && KeysNameLedgers(setup.archive)
    requires var s := After(setup, steps).value; OnlyAsked(s, s.runs[r].from, s.runs[r].to)
    ensures var s := After(setup, steps).value;
      var run := s.runs[r];
      && (HasKeysOf(setup.archive, s.db.sink, run.from, run.to) <==> SkippedAreStored(setup, s, run.from, run.to + 1))
      && RowsAreFirst(setup.archive, s.db.sink, s.skipped, run.from, run.to)
  {
    NothingSpurious(setup, steps);
    NothingLost(setup, steps, r);
    var s := After(setup, steps).value;
    RowsFirst(setup, s, s.runs[r].from, s.runs[r].to);
    KeysIffComplete(setup, s, s.runs[r].from, s.runs[r].to);
  }
}
