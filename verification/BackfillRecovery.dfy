/**
 * The backfill always recovers (src/backfill.rs, `run` and `run_range`): from every
 * reachable state, whatever crashed or was left half done, a new run over any range
 * whose actions succeed gets to its end and returns Ok.
 */
module BackfillRecovery {
  import opened Options
  import opened LedgerFiles
  import opened BloomFilter
  import opened EventSink
  import opened BackfillActions
  import opened Backfill
  import opened BackfillWorker

  // -------------------------------------------------- one worker, undisturbed

  predicate Succeeds(a: Action) {
    match a
    case Load(loaded) => loaded
    case Fetch(fetched) => fetched.Some?
    case Open(begun) => begun
    case Break => false
    case Commit(outcome) => outcome.Committed?
    case Save(saved) => saved.Committed?
    case _ => true
  }

  /** Only this worker acts, and nothing fails. */
  predicate Smooth(step: Step, me: Id) {
    step.Work? && step.r == me.run && step.w == me.worker && Succeeds(step.action)
  }

  ghost predicate AllSmooth(steps: seq<Step>, me: Id) {
    forall step :: step in steps ==> Smooth(step, me)
  }

  /** Which worker of which files and ledgers. */
  datatype Part = Part(me: Id, schema: Schema, range: Chunk)

  ghost predicate WorkerAt(s: State, part: Part, phase: Phase) {
    && Exists(s, part.me) && s.runs[part.me.run].schema == part.schema
    && s.runs[part.me.run].workers[part.me.worker].range == part.range
    && s.runs[part.me.run].workers[part.me.worker].phase == phase
  }

  /** Smooth steps of this worker lead from the state to the phase. */
  ghost predicate Reaches(setup: Setup, s: State, steps: seq<Step>, part: Part, phase: Phase) {
    AllSmooth(steps, part.me) && Follow(setup, s, steps).Some? && WorkerAt(Follow(setup, s, steps).value, part, phase)
  }

  /** One more action, as `Leads` describes it. */
  lemma Does(setup: Setup, s: State, steps: seq<Step>, part: Part, phase: Phase, a: Action, phase': Phase)
    returns (more: seq<Step>)
    requires Reaches(setup, s, steps, part, phase) && Succeeds(a)
    requires Leads(setup, part.schema, Follow(setup, s, steps).value.db, part.range, phase, a, phase')
    ensures Reaches(setup, s, more, part, phase')
  {
    var t := Follow(setup, s, steps).value;
    var run := t.runs[part.me.run];
    LeadsIsAct(setup, run.schema, run.hashes, SceneOf(t, part.me.run), run.workers[part.me.worker], a, phase');
    FollowOne(setup, s, steps, Work(part.me.run, part.me.worker, a));
    more := steps + [Work(part.me.run, part.me.worker, a)];
  }

  lemma Offers(setup: Setup, s: State, steps: seq<Step>, part: Part, next: nat, file: seq<u32>, i: nat, j: nat, batch: seq<Event>)
    returns (more: seq<Step>, batch': seq<Event>)
    requires Reaches(setup, s, steps, part, Storing(next, file, i, j, batch))
    requires i < |file| && j < |setup.archive(file[i])|
    ensures Reaches(setup, s, more, part, Storing(next, file, i, j + 1, batch'))
  {
    var t := Follow(setup, s, steps).value;
    var run := t.runs[part.me.run];
    batch' := OfferEvent(setup, run.hashes, SceneOf(t, part.me.run), run.workers[part.me.worker], false).worker.phase.batch;
    FollowOne(setup, s, steps, Work(part.me.run, part.me.worker, Offer(false)));
    more := steps + [Work(part.me.run, part.me.worker, Offer(false))];
  }

  lemma StoresLedger(setup: Setup, s: State, steps: seq<Step>, part: Part, next: nat, file: seq<u32>, i: nat)
    returns (more: seq<Step>)
    requires Reaches(setup, s, steps, part, Storing(next, file, i, 0, [])) && i < |file|
    ensures Reaches(setup, s, more, part, Reading(next, file, i + 1))
  {
    var batch: seq<Event> := [];
    more := steps;
    for j := 0 to |setup.archive(file[i])|
      invariant Reaches(setup, s, more, part, Storing(next, file, i, j, batch))
    {
      more, batch := Offers(setup, s, more, part, next, file, i, j, batch);
    }
    more := Does(setup, s, more, part, Storing(next, file, i, |setup.archive(file[i])|, batch), Commit(Committed),
                 Reading(next, file, i + 1));
  }

  lemma ReadsFile(setup: Setup, s: State, steps: seq<Step>, part: Part, next: nat, file: seq<u32>)
    returns (more: seq<Step>)
    requires Reaches(setup, s, steps, part, Reading(next, file, 0))
    ensures Reaches(setup, s, more, part, Reading(next, file, |file|))
  {
    more := steps;
    for i := 0 to |file|
      invariant Reaches(setup, s, more, part, Reading(next, file, i))
    {
      if file[i] < next || file[i] > part.range.1 || setup.archive(file[i]) == [] {
        more := Does(setup, s, more, part, Reading(next, file, i), Open(true), Reading(next, file, i + 1));
      } else {
        more := Does(setup, s, more, part, Reading(next, file, i), Open(true), Storing(next, file, i, 0, []));
        more := StoresLedger(setup, s, more, part, next, file, i);
      }
    }
  }

  /** The file of a ledger, its ledgers in order. */
  function FileOf(schema: Schema, ledger: u32): (file: seq<u32>)
    ensures forall l: u32 :: l in file <==> InChunk(FileBounds(schema, ledger), l)
  {
    Ledgers(FileBounds(schema, ledger).0, FileBounds(schema, ledger).1)
  }

  function Ledgers(first: nat, last: u32): (file: seq<u32>)
    ensures forall l: u32 :: l in file <==> first <= l <= last
    decreases last + 1 - first
  {
    if first > last then [] else [first] + Ledgers(first + 1, last)
  }

  /** One turn of the loop. */
  lemma TurnsLoop(setup: Setup, s: State, steps: seq<Step>, part: Part, next: u32) returns (more: seq<Step>, newNext: nat)
    requires Reaches(setup, s, steps, part, LoopHead(next)) && next <= part.range.1
    ensures Reaches(setup, s, more, part, LoopHead(newNext)) && newNext > next
  {
    var file := FileOf(part.schema, next);
    newNext := Min(FileBounds(part.schema, next).1, part.range.1) + 1;
    FilesPartitionLedgers(part.schema, next, next);
    more := Does(setup, s, steps, part, LoopHead(next), Fetch(Some(file)), Reading(next, file, 0));
    more := ReadsFile(setup, s, more, part, next, file);
    more := Does(setup, s, more, part, Reading(next, file, |file|), Finish, Saving(next, newNext));
    more := Does(setup, s, more, part, Saving(next, newNext), Save(Committed), Counting(next, newNext));
    more := Does(setup, s, more, part, Counting(next, newNext), Count, LoopHead(newNext));
  }

  /** A worker gets from its start to its end, wherever its checkpoint lets it resume. */
  lemma WorkerSucceeds(setup: Setup, s: State, part: Part) returns (steps: seq<Step>)
    requires WorkerAt(s, part, Waiting)
    ensures Reaches(setup, s, steps, part, Succeeded)
  {
    var resume := ResumePoint(s.db.rows, part.range);
    if resume.None? {
      steps := Does(setup, s, [], part, Waiting, Load(true), Succeeded);
    } else {
      var next := resume.value;
      steps := Does(setup, s, [], part, Waiting, Load(true), LoopHead(next));
      while next <= part.range.1
        invariant Reaches(setup, s, steps, part, LoopHead(next))
        decreases part.range.1 + 1 - next
      {
        steps, next := TurnsLoop(setup, s, steps, part, next);
      }
      steps := Does(setup, s, steps, part, LoopHead(next), Finish, Succeeded);
    }
  }

  // --------------------------------------------------------- the whole run

  ghost predicate SameRun(run: Run, run': Run) {
    && run'.from == run.from && run'.to == run.to && run'.chunkSize == run.chunkSize
    && run'.schema == run.schema && run'.hashes == run.hashes && |run'.workers| == |run.workers|
  }

  lemma WorkedSameRun(s: State, r: nat, i: nat, y: Effect)
    requires r < |s.runs| && i < |s.runs[r].workers|
    ensures |Worked(s, r, i, y).runs| == |s.runs| && SameRun(s.runs[r], Worked(s, r, i, y).runs[r])
  {
  }

  lemma {:induction false} SmoothSameRun(setup: Setup, s: State, steps: seq<Step>, me: Id)
    requires me.run < |s.runs| && Follow(setup, s, steps).Some? && AllSmooth(steps, me)
    ensures |Follow(setup, s, steps).value.runs| == |s.runs|
    ensures SameRun(s.runs[me.run], Follow(setup, s, steps).value.runs[me.run])
    decreases |steps|
  {
    if steps != [] {
      var last := steps[|steps| - 1];
      assert Smooth(last, me);
      SmoothSameRun(setup, s, steps[..|steps| - 1], me);
      var t := Follow(setup, s, steps[..|steps| - 1]).value;
      var run := t.runs[me.run];
      WorkedSameRun(t, me.run, me.worker,
        Act(setup, run.schema, run.hashes, SceneOf(t, me.run), run.workers[me.worker], last.action));
    }
  }

  /** The first workers of the run are done, the others have not started. */
  ghost predicate DoneUpTo(s: State, r: nat, run: Run, i: nat) {
    && r < |s.runs| && SameRun(run, s.runs[r]) && i <= |run.workers|
    && forall j :: 0 <= j < |run.workers| ==>
         s.runs[r].workers[j].phase == if j < i then Succeeded else Waiting
  }

  ghost predicate OfRun(step: Step, r: nat) { step.Work? && step.r == r && Succeeds(step.action) }

  /** The next worker does its part; nobody else's changes. */
  lemma NextWorker(setup: Setup, s: State, r: nat, run: Run, i: nat) returns (steps: seq<Step>)
    requires DoneUpTo(s, r, run, i) && i < |run.workers|
    ensures Follow(setup, s, steps).Some? && DoneUpTo(Follow(setup, s, steps).value, r, run, i + 1)
    ensures |Follow(setup, s, steps).value.runs| == |s.runs|
    ensures forall step :: step in steps ==> OfRun(step, r)
  {
    var me := Id(r, i);
    steps := WorkerSucceeds(setup, s, Part(me, s.runs[r].schema, s.runs[r].workers[i].range));
    SmoothSameRun(setup, s, steps, me);
    assert forall step :: step in steps ==> Smooth(step, me);
    var t := Follow(setup, s, steps).value;
    forall j | 0 <= j < |run.workers| && j != i ensures t.runs[r].workers[j].phase == s.runs[r].workers[j].phase {
      OthersLeave(setup, s, steps, Id(r, j));
    }
  }

  lemma AllWorkers(setup: Setup, s: State, r: nat) returns (steps: seq<Step>)
    requires r < |s.runs| && DoneUpTo(s, r, s.runs[r], 0)
    ensures Follow(setup, s, steps).Some? && DoneUpTo(Follow(setup, s, steps).value, r, s.runs[r], |s.runs[r].workers|)
    ensures |Follow(setup, s, steps).value.runs| == |s.runs|
    ensures forall step :: step in steps ==> OfRun(step, r)
  {
    var run := s.runs[r];
    steps := [];
    for i := 0 to |run.workers|
      invariant Follow(setup, s, steps).Some? && DoneUpTo(Follow(setup, s, steps).value, r, run, i)
      invariant |Follow(setup, s, steps).value.runs| == |s.runs|
      invariant forall step :: step in steps ==> OfRun(step, r)
    {
      var more := NextWorker(setup, Follow(setup, s, steps).value, r, run, i);
      FollowConcat(setup, s, steps, more);
      steps := steps + more;
    }
  }

  /** The run with this number is of these parameters and has returned Ok. */
  ghost predicate IsOkRun(s: State, r: nat, from: u32, to: u32, chunkSize: u32, schema: Schema, hashes: nat -> Hash) {
    && r < |s.runs| && s.runs[r].from == from && s.runs[r].to == to && s.runs[r].chunkSize == chunkSize
    && s.runs[r].schema == schema && s.runs[r].hashes == hashes && s.runs[r].ReturnsOk()
  }

  /**
   * From every reachable state a new run, over any range with any chunk size, files and
   * filters, can go through to Ok by steps of its own in which nothing fails.
   */
  lemma Recovers(setup: Setup, steps: seq<Step>, from: u32, to: u32, chunkSize: u32, schema: Schema, hashes: nat -> Hash)
    returns (more: seq<Step>)
    requires After(setup, steps).Some?
    ensures After(setup, steps + [StartRun(from, to, chunkSize, schema, hashes)] + more).Some?
    ensures IsOkRun(After(setup, steps + [StartRun(from, to, chunkSize, schema, hashes)] + more).value,
                    |After(setup, steps).value.runs|, from, to, chunkSize, schema, hashes)
    ensures forall step :: step in more ==> OfRun(step, |After(setup, steps).value.runs|)
  {
    var start := StartRun(from, to, chunkSize, schema, hashes);
    var r := |After(setup, steps).value.runs|;
    FollowOne(setup, INITIAL, steps, start);
    var s := After(setup, steps + [start]).value;
    assert s.runs[r] == NewRun(from, to, chunkSize, schema, hashes);
    more := AllWorkers(setup, s, r);
    FollowConcat(setup, INITIAL, steps + [start], more);
  }
}
