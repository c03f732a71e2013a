/**
 * When the backfill keeps its promise. The sink leaves out events silently: a
 * filter takes them for duplicates, or the guard refuses them. Here is which keys
 * that can lose, and so the exact condition under which a run that returns Ok has
 * stored its whole range. Nothing is asked of the filters: what counts is the
 * reports they gave in the schedule at hand.
 */
module BackfillGuarantee {
  import opened Options
  import opened LedgerFiles
  import opened BloomFilter
  import opened EventSink
  import opened BackfillActions
  import opened Backfill

  // ---------------------------------------------------- how events get lost

  /** The first event of this key is refused by the guard. */
  ghost predicate RefusedFirst(setup: Setup, k: Key) {
    exists l: u32 :: HasKey(setup.archive(l), k) && !Accepts(setup.policy, Lookup(setup.archive(l), k).value)
  }

  /** The guard accepts the first event of every key. */
  ghost predicate FirstsAccepted(setup: Setup) {
    forall k :: !RefusedFirst(setup, k)
  }

  /** A false positive: the filter reports an event under a text that was never offered to it. */
  predicate FalseReport(setup: Setup, run: Run, w: Worker)
    requires AtEvent(setup, w)
  {
    var text := EventAt(setup, w).key.Text();
    && Visit(run.session, run.hashes, text, w.phase.file[w.phase.i]).duplicate
    && forall o :: o in run.offered ==> o.key.Text() != text
  }

  /** The key that this step drops because of a false positive, if any. */
  ghost function ReportedBy(setup: Setup, s: State, step: Step): set<Key> {
    if step.Work? && step.action.Offer? && CanStep(setup, s, step)
       && FalseReport(setup, s.runs[step.r], s.runs[step.r].workers[step.w])
    then {EventAt(setup, s.runs[step.r].workers[step.w]).key}
    else {}
  }

  /** All keys of a schedule that a filter reported falsely. */
  ghost function FalselyReported(setup: Setup, steps: seq<Step>): set<Key>
    decreases |steps|
  {
    if |steps| == 0 then {}
    else
      var before := steps[..|steps| - 1];
      FalselyReported(setup, before)
      + if After(setup, before).Some? then ReportedBy(setup, After(setup, before).value, steps[|steps| - 1]) else {}
  }

  /** All keys of a schedule of which live indexing stored another event than the first. */
  ghost function PassedOver(archive: Archive, steps: seq<Step>): set<Key>
    decreases |steps|
  {
    if |steps| == 0 then {}
    else PassedOver(archive, steps[..|steps| - 1]) + PassedOverBy(archive, steps[|steps| - 1])
  }

  function PassedOverBy(archive: Archive, step: Step): set<Key> {
    if step.StoreLive? then PassedBy(archive, step.ledger, step.stored) else {}
  }

  /** Fingerprints cover the key, so equal ones mean equal keys. */
  ghost predicate ContentsNameKeys(archive: Archive) {
    forall l: u32, m: u32, e, f ::
      e in archive(l) && f in archive(m) && e.fingerprint == f.fingerprint ==> e.key == f.key
  }

  /** No two keys share the text that filters know them by; `TextNamesKey` shows this for valid ids. */
  ghost predicate TextsNameKeys(archive: Archive) {
    forall l: u32, m: u32, k, n ::
      HasKey(archive(l), k) && HasKey(archive(m), n) && k.Text() == n.Text() ==> k == n
  }

  /** A key belongs to one ledger, and texts and, where they are compared, contents tell keys apart. */
  ghost predicate Structured(setup: Setup) {
    && KeysNameLedgers(setup.archive) && TextsNameKeys(setup.archive)
    && (setup.policy.contentDedup ==> ContentsNameKeys(setup.archive))
  }

  // ------------------------------------------------- nothing else gets lost

  /** Keys that are stored or excused from being stored. */
  ghost function Safe(excused: iset<Key>, sink: map<Key, Event>): iset<Key> {
    iset k | k in sink || k in excused
  }

  /** A worker that has not failed still owes or has stored what was offered for its range. */
  ghost predicate Kept(safe: iset<Key>, w: Worker, o: Offered) {
    InChunk(w.range, o.ledger) && !w.phase.Failed? ==>
      || o.key in safe
      || (w.phase.Storing? && w.phase.i < |w.phase.file| && w.phase.file[w.phase.i] == o.ledger
          && HasKey(w.phase.batch, o.key))
  }

  ghost predicate WorkerKeeps(safe: iset<Key>, w: Worker, offered: seq<Offered>) {
    forall o :: o in offered ==> Kept(safe, w, o)
  }

  ghost predicate FromArchive(archive: Archive, offered: seq<Offered>) {
    forall o :: o in offered ==> HasKey(archive(o.ledger), o.key)
  }

  ghost predicate RunKeeps(archive: Archive, safe: iset<Key>, run: Run) {
    && FromArchive(archive, run.offered)
    && forall i :: 0 <= i < |run.workers| ==> WorkerKeeps(safe, run.workers[i], run.offered)
  }

  ghost predicate RunsKeep(archive: Archive, safe: iset<Key>, runs: seq<Run>) {
    forall r :: 0 <= r < |runs| ==> RunKeeps(archive, safe, runs[r])
  }

  /** Every key left out is excused, and every worker keeps the others. */
  ghost predicate AllKept(archive: Archive, excused: iset<Key>, s: State) {
    && (forall k :: k in s.skipped ==> k in excused)
    && RunsKeep(archive, Safe(excused, s.db.sink), s.runs)
  }

  lemma {:induction false} EventHasKey(events: seq<Event>, j: nat)
    requires j < |events|
    ensures HasKey(events, events[j].key)
  {
    LookupFinds(events, events[j].key);
  }

  /** A text offered before belongs to a key that this worker has stored or holds in its transaction. */
  lemma DuplicateIsKept(setup: Setup, safe: iset<Key>, run: Run, i: nat, o: Offered)
    requires Structured(setup) && RunKeeps(setup.archive, safe, run) && i < |run.workers|
    requires AtEvent(setup, run.workers[i]) && InChunk(run.workers[i].range, run.workers[i].phase.file[run.workers[i].phase.i])
    requires o in run.offered && o.key.Text() == EventAt(setup, run.workers[i]).key.Text()
    ensures var e := EventAt(setup, run.workers[i]); e.key in safe || HasKey(run.workers[i].phase.batch, e.key)
  {
    var w := run.workers[i];
    var e, l := EventAt(setup, w), w.phase.file[w.phase.i];
    EventHasKey(setup.archive(l), w.phase.j);
    assert o.key == e.key && o.ledger == l;
    assert Kept(safe, w, o);
  }

  /** An event that is refused but not the first of its key comes after one that was offered. */
  lemma RefusedIsKept(setup: Setup, keys: set<Key>, w: Worker)
    requires AtEvent(setup, w) && !Accepts(setup.policy, EventAt(setup, w))
    requires BatchSound(setup, keys, w.phase.file[w.phase.i], w.phase.j, w.phase.batch)
    ensures var e := EventAt(setup, w); RefusedFirst(setup, e.key) || e.key in keys || HasKey(w.phase.batch, e.key)
  {
    var e, events := EventAt(setup, w), setup.archive(w.phase.file[w.phase.i]);
    EventHasKey(events, w.phase.j);
    if !HasKey(events[..w.phase.j], e.key) {
      FirstIsLookup(events, w.phase.j);
    }
  }

  lemma SameContentIsStored(setup: Setup, s: State, e: Event, l: u32)
    requires ContentsNameKeys(setup.archive) && AllJustified(setup, s)
    requires e in setup.archive(l) && SameContentStored(s.db.sink, e.fingerprint)
    ensures e.key in s.db.sink
  {
    var k :| k in s.db.sink && s.db.sink[k].fingerprint == e.fingerprint;
    assert Justified(setup, s, k, s.db.sink[k]);
    var m: u32 :| Storable(setup, s.db.sink[k], m) && s.db.sink[k].key == k;
  }

  /** Why the event offered is dropped. */
  predicate Drops(setup: Setup, run: Run, w: Worker, contentSeen: bool)
    requires AtEvent(setup, w)
  {
    var e := EventAt(setup, w);
    Visit(run.session, run.hashes, e.key.Text(), w.phase.file[w.phase.i]).duplicate
    || !Accepts(setup.policy, e) || contentSeen
  }

  /** The content check answers truly, and only where it is asked. */
  ghost predicate ContentChecked(setup: Setup, s: State, w: Worker, contentSeen: bool)
    requires AtEvent(setup, w)
  {
    contentSeen ==> setup.policy.contentDedup && SameContentStored(s.db.sink, EventAt(setup, w).fingerprint)
  }

  /** The keys that may be lost at this step are excused. */
  ghost predicate Excuses(setup: Setup, excused: iset<Key>, run: Run, w: Worker)
    requires AtEvent(setup, w)
  {
    var k := EventAt(setup, w).key;
    (RefusedFirst(setup, k) || FalseReport(setup, run, w)) ==> k in excused
  }

  lemma StoringInside(setup: Setup, schema: Schema, keys: set<Key>, w: Worker)
    requires WorkerSound(setup, schema, keys, w) && w.phase.Storing?
    ensures w.phase.i < |w.phase.file| && InChunk(w.range, w.phase.file[w.phase.i])
    ensures BatchSound(setup, keys, w.phase.file[w.phase.i], w.phase.j, w.phase.batch)
  {
  }

  /** Whatever the reason, the key of a dropped event is stored, in the transaction or excused. */
  lemma DroppedIsKept(setup: Setup, excused: iset<Key>, s: State, run: Run, i: nat, contentSeen: bool)
    requires Structured(setup) && AllJustified(setup, s) && forall k :: k in s.skipped ==> k in excused
    requires RunKeeps(setup.archive, Safe(excused, s.db.sink), run) && i < |run.workers| && AtEvent(setup, run.workers[i])
    requires InChunk(run.workers[i].range, run.workers[i].phase.file[run.workers[i].phase.i])
    requires var p := run.workers[i].phase; BatchSound(setup, Known(s), p.file[p.i], p.j, p.batch)
    requires Drops(setup, run, run.workers[i], contentSeen) && ContentChecked(setup, s, run.workers[i], contentSeen)
    requires Excuses(setup, excused, run, run.workers[i])
    ensures var w := run.workers[i];
      EventAt(setup, w).key in Safe(excused, s.db.sink) || HasKey(w.phase.batch, EventAt(setup, w).key)
  {
    var w := run.workers[i];
    if contentSeen {
      SameContentIsStored(setup, s, EventAt(setup, w), w.phase.file[w.phase.i]);
    } else if !Accepts(setup.policy, EventAt(setup, w)) {
      RefusedIsKept(setup, Known(s), w);
    } else if !FalseReport(setup, run, w) {
      var o :| o in run.offered && o.key.Text() == EventAt(setup, w).key.Text();
      DuplicateIsKept(setup, Safe(excused, s.db.sink), run, i, o);
    }
  }

  // ----------------------------------------------- every step keeps this up

  lemma KeptMonotone(archive: Archive, safe: iset<Key>, more: iset<Key>, run: Run)
    requires safe <= more && RunKeeps(archive, safe, run)
    ensures RunKeeps(archive, more, run)
  {
    forall i | 0 <= i < |run.workers| ensures WorkerKeeps(more, run.workers[i], run.offered) {
      assert WorkerKeeps(safe, run.workers[i], run.offered);
      forall o | o in run.offered ensures Kept(more, run.workers[i], o) {
        assert Kept(safe, run.workers[i], o);
      }
    }
  }

  lemma RunsMonotone(archive: Archive, safe: iset<Key>, more: iset<Key>, runs: seq<Run>)
    requires safe <= more && RunsKeep(archive, safe, runs)
    ensures RunsKeep(archive, more, runs)
  {
    forall r | 0 <= r < |runs| ensures RunKeeps(archive, more, runs[r]) {
      KeptMonotone(archive, safe, more, runs[r]);
    }
  }

  /** One run has changed. */
  lemma OthersKept(archive: Archive, safe: iset<Key>, more: iset<Key>, runs: seq<Run>, r: nat, run: Run)
    requires RunsKeep(archive, safe, runs) && safe <= more && r < |runs| && RunKeeps(archive, more, run)
    ensures RunsKeep(archive, more, runs[r := run])
  {
    RunsMonotone(archive, safe, more, runs);
  }

  /** One worker moves on without offering anything: what it owed is stored or still in its transaction. */
  lemma MoveKeeps(safe: iset<Key>, more: iset<Key>, w: Worker, w': Worker, offered: seq<Offered>)
    requires WorkerKeeps(safe, w, offered) && safe <= more && w'.range == w.range
    requires w'.phase.Failed? || (!w.phase.Failed?
      && (w.phase.Storing? ==> forall k :: HasKey(w.phase.batch, k) ==> k in more))
    ensures WorkerKeeps(more, w', offered)
  {
    forall o | o in offered ensures Kept(more, w', o) {
      assert Kept(safe, w, o);
    }
  }

  /** An action other than an offer leaves the filter alone and keeps what the worker owes. */
  lemma ActMoves(setup: Setup, schema: Schema, hashes: nat -> Hash, x: Scene, w: Worker, a: Action, excused: iset<Key>)
    requires CanAct(setup, schema, x.db.sink, w, a) && !a.Offer? && WorkerKeeps(Safe(excused, x.db.sink), w, x.offered)
    ensures var y := Act(setup, schema, hashes, x, w, a);
      && y.scene.session == x.session && y.scene.offered == x.offered && y.scene.skipped == x.skipped
      && x.db.sink.Keys <= y.scene.db.sink.Keys
      && WorkerKeeps(Safe(excused, y.scene.db.sink), y.worker, x.offered)
  {
    var y := Act(setup, schema, hashes, x, w, a);
    if a.Commit? {
      InsertAddsFirstOfEachKey(x.db.sink, w.phase.batch);
    }
    MoveKeeps(Safe(excused, x.db.sink), Safe(excused, y.scene.db.sink), w, y.worker, x.offered);
  }

  lemma WorkerMoves(archive: Archive, safe: iset<Key>, more: iset<Key>, run: Run, i: nat, run': Run)
    requires RunKeeps(archive, safe, run) && i < |run.workers| && safe <= more && run'.offered == run.offered
    requires |run'.workers| == |run.workers| && run'.workers == run.workers[i := run'.workers[i]]
    requires WorkerKeeps(more, run'.workers[i], run.offered)
    ensures RunKeeps(archive, more, run')
  {
    KeptMonotone(archive, safe, more, run);
    forall q | 0 <= q < |run'.workers| ensures WorkerKeeps(more, run'.workers[q], run'.offered) {
      assert WorkerKeeps(more, run.workers[q], run.offered);
    }
  }

  /** What an effect of one worker must keep for the whole system to keep it. */
  lemma WorkedKeeps(archive: Archive, excused: iset<Key>, s: State, r: nat, i: nat, y: Effect)
    requires AllKept(archive, excused, s) && r < |s.runs| && i < |s.runs[r].workers|
    requires s.db.sink.Keys <= y.scene.db.sink.Keys && forall k :: k in y.scene.skipped ==> k in excused
    requires RunKeeps(archive, Safe(excused, y.scene.db.sink), Worked(s, r, i, y).runs[r])
    ensures AllKept(archive, excused, Worked(s, r, i, y))
  {
    OthersKept(archive, Safe(excused, s.db.sink), Safe(excused, y.scene.db.sink), s.runs, r, Worked(s, r, i, y).runs[r]);
  }

  lemma ActKeeps(setup: Setup, excused: iset<Key>, s: State, r: nat, i: nat, a: Action)
    requires AllKept(setup.archive, excused, s)
    requires CanStep(setup, s, Work(r, i, a)) && !a.Offer?
    ensures AllKept(setup.archive, excused, Next(setup, s, Work(r, i, a)))
  {
    var run, x := s.runs[r], SceneOf(s, r);
    assert RunKeeps(setup.archive, Safe(excused, s.db.sink), run);
    assert WorkerKeeps(Safe(excused, s.db.sink), run.workers[i], run.offered);
    ActMoves(setup, run.schema, run.hashes, x, run.workers[i], a, excused);
    var y := Act(setup, run.schema, run.hashes, x, run.workers[i], a);
    WorkerMoves(setup.archive, Safe(excused, s.db.sink), Safe(excused, y.scene.db.sink), run, i, Worked(s, r, i, y).runs[r]);
    WorkedKeeps(setup.archive, excused, s, r, i, y);
  }

  lemma KeepsOneMore(safe: iset<Key>, w: Worker, offered: seq<Offered>, o: Offered)
    requires WorkerKeeps(safe, w, offered) && Kept(safe, w, o)
    ensures WorkerKeeps(safe, w, offered + [o])
  {
  }

  /** The offering worker: its transaction only grows, at the same ledger. */
  lemma OffererKeeps(safe: iset<Key>, w: Worker, w': Worker, offered: seq<Offered>, key: Key)
    requires WorkerKeeps(safe, w, offered) && w.phase.Storing? && w.phase.i < |w.phase.file|
    requires w'.range == w.range && w'.phase.Storing? && w'.phase.file == w.phase.file && w'.phase.i == w.phase.i
    requires forall k :: HasKey(w.phase.batch, k) ==> HasKey(w'.phase.batch, k)
    requires key in safe || HasKey(w'.phase.batch, key)
    ensures WorkerKeeps(safe, w', offered + [Offered(key, w.phase.file[w.phase.i])])
  {
    forall o | o in offered ensures Kept(safe, w', o) {
      assert Kept(safe, w, o);
    }
    KeepsOneMore(safe, w', offered, Offered(key, w.phase.file[w.phase.i]));
  }

  /** Only one worker of a run has a given ledger in its range. */
  lemma LedgerHasOneWorker(setup: Setup, keys: set<Key>, run: Run, i: nat, q: nat, l: u32)
    requires RunSound(setup, keys, run) && i < |run.workers| && q < |run.workers| && i != q
    requires InChunk(run.workers[i].range, l)
    ensures !InChunk(run.workers[q].range, l)
  {
    ChunksPartition(run.from, run.to, EffectiveChunk(run.chunkSize));
  }

  /** A taken event leaves the table alone and joins the transaction, unless its key is safe already. */
  lemma TakeGrows(setup: Setup, excused: iset<Key>, x: Scene, w: Worker, session: Session, dropped: bool)
    requires AtEvent(setup, w)
    requires dropped ==> EventAt(setup, w).key in Safe(excused, x.db.sink) || HasKey(w.phase.batch, EventAt(setup, w).key)
    ensures var y := Take(setup, x, w, session, dropped);
      var key := EventAt(setup, w).key;
      && y.scene.db == x.db && y.scene.offered == x.offered + [Offered(key, w.phase.file[w.phase.i])]
      && (forall k :: k in y.scene.skipped ==> k in x.skipped || k in excused)
      && y.worker.range == w.range && y.worker.phase.Storing?
      && y.worker.phase.file == w.phase.file && y.worker.phase.i == w.phase.i
      && (forall k :: HasKey(w.phase.batch, k) ==> HasKey(y.worker.phase.batch, k))
      && (key in Safe(excused, x.db.sink) || HasKey(y.worker.phase.batch, key))
  {
    var e := EventAt(setup, w);
    forall k ensures HasKey(w.phase.batch, k) || k == e.key ==> HasKey(w.phase.batch + [e], k) {
      LookupSnoc(w.phase.batch, e, k);
    }
  }

  /** The run after one of its workers offered an event at its ledger. */
  lemma RunOffered(setup: Setup, keys: set<Key>, safe: iset<Key>, run: Run, i: nat, o: Offered, run': Run)
    requires RunSound(setup, keys, run) && RunKeeps(setup.archive, safe, run) && i < |run.workers|
    requires HasKey(setup.archive(o.ledger), o.key) && InChunk(run.workers[i].range, o.ledger)
    requires run'.offered == run.offered + [o]
    requires |run'.workers| == |run.workers| && run'.workers == run.workers[i := run'.workers[i]]
    requires WorkerKeeps(safe, run'.workers[i], run'.offered)
    ensures RunKeeps(setup.archive, safe, run')
  {
    forall q | 0 <= q < |run'.workers| ensures WorkerKeeps(safe, run'.workers[q], run'.offered) {
      if q != i {
        LedgerHasOneWorker(setup, keys, run, i, q, o.ledger);
        KeepsOneMore(safe, run.workers[q], run.offered, o);
      }
    }
  }

  lemma TakenKeeps(setup: Setup, safe: iset<Key>, s: State, r: nat, i: nat, o: Offered, y: Effect)
    requires r < |s.runs| && i < |s.runs[r].workers| && RunKeeps(setup.archive, safe, s.runs[r])
    requires RunsSound(setup, Known(s), s.runs)
    requires AtEvent(setup, s.runs[r].workers[i])
    requires var w := s.runs[r].workers[i];
      && o == Offered(EventAt(setup, w).key, w.phase.file[w.phase.i])
      && y.worker.range == w.range && y.worker.phase.Storing?
      && y.worker.phase.file == w.phase.file && y.worker.phase.i == w.phase.i
      && (forall k :: HasKey(w.phase.batch, k) ==> HasKey(y.worker.phase.batch, k))
      && (o.key in safe || HasKey(y.worker.phase.batch, o.key))
    requires y.scene.offered == s.runs[r].offered + [o]
    ensures RunKeeps(setup.archive, safe, Worked(s, r, i, y).runs[r])
  {
    var run := s.runs[r];
    WorkerIsSound(setup, s, r, i);
    assert WorkerKeeps(safe, run.workers[i], run.offered);
    EventHasKey(setup.archive(o.ledger), run.workers[i].phase.j);
    OffererKeeps(safe, run.workers[i], y.worker, run.offered, o.key);
    RunOffered(setup, Known(s), safe, run, i, o, Worked(s, r, i, y).runs[r]);
  }

  lemma TakeKeeps(setup: Setup, excused: iset<Key>, s: State, r: nat, i: nat, dropped: bool, session: Session)
    requires RunsSound(setup, Known(s), s.runs) && AllKept(setup.archive, excused, s)
    requires r < |s.runs| && i < |s.runs[r].workers| && AtEvent(setup, s.runs[r].workers[i])
    requires var w := s.runs[r].workers[i];
      dropped ==> EventAt(setup, w).key in Safe(excused, s.db.sink) || HasKey(w.phase.batch, EventAt(setup, w).key)
    ensures AllKept(setup.archive, excused, Worked(s, r, i, Take(setup, SceneOf(s, r), s.runs[r].workers[i], session, dropped)))
  {
    var w := s.runs[r].workers[i];
    TakeGrows(setup, excused, SceneOf(s, r), w, session, dropped);
    var y := Take(setup, SceneOf(s, r), w, session, dropped);
    TakenKeeps(setup, Safe(excused, s.db.sink), s, r, i, Offered(EventAt(setup, w).key, w.phase.file[w.phase.i]), y);
    WorkedKeeps(setup.archive, excused, s, r, i, y);
  }

  lemma OfferIsTake(setup: Setup, s: State, r: nat, i: nat, contentSeen: bool)
    requires CanStep(setup, s, Work(r, i, Offer(contentSeen)))
    ensures AtEvent(setup, s.runs[r].workers[i]) && ContentChecked(setup, s, s.runs[r].workers[i], contentSeen)
    ensures var run, w := s.runs[r], s.runs[r].workers[i];
      var session := Visit(run.session, run.hashes, EventAt(setup, w).key.Text(), w.phase.file[w.phase.i]).session;
      Next(setup, s, Work(r, i, Offer(contentSeen)))
        == Worked(s, r, i, Take(setup, SceneOf(s, r), w, session, Drops(setup, run, w, contentSeen)))
  {
  }

  lemma OfferKeeps(setup: Setup, excused: iset<Key>, s: State, r: nat, i: nat, contentSeen: bool)
    requires Structured(setup) && RunsSound(setup, Known(s), s.runs) && AllJustified(setup, s)
    requires AllKept(setup.archive, excused, s) && CanStep(setup, s, Work(r, i, Offer(contentSeen)))
    requires Excuses(setup, excused, s.runs[r], s.runs[r].workers[i])
    ensures AllKept(setup.archive, excused, Next(setup, s, Work(r, i, Offer(contentSeen))))
  {
    OfferIsTake(setup, s, r, i, contentSeen);
    var run, w := s.runs[r], s.runs[r].workers[i];
    if Drops(setup, run, w, contentSeen) {
      WorkerIsSound(setup, s, r, i);
      StoringInside(setup, run.schema, Known(s), w);
      DroppedIsKept(setup, excused, s, run, i, contentSeen);
    }
    TakeKeeps(setup, excused, s, r, i, Drops(setup, run, w, contentSeen),
              Visit(run.session, run.hashes, EventAt(setup, w).key.Text(), w.phase.file[w.phase.i]).session);
  }

  lemma StartKeeps(archive: Archive, excused: iset<Key>, s: State, run: Run)
    requires AllKept(archive, excused, s) && run.offered == []
    ensures AllKept(archive, excused, s.(runs := s.runs + [run]))
  {
    var runs := s.runs + [run];
    forall r | 0 <= r < |runs| ensures RunKeeps(archive, Safe(excused, s.db.sink), runs[r]) {
      assert runs[r] == if r < |s.runs| then s.runs[r] else run;
    }
  }

  lemma CrashKeeps(archive: Archive, excused: iset<Key>, s: State, r: nat)
    requires AllKept(archive, excused, s) && r < |s.runs|
    ensures AllKept(archive, excused, s.(runs := s.runs[r := Interrupted(s.runs[r])]))
  {
    var run, safe := s.runs[r], Safe(excused, s.db.sink);
    assert RunKeeps(archive, safe, run);
    forall i | 0 <= i < |run.workers| ensures WorkerKeeps(safe, Interrupted(run).workers[i], run.offered) {
      assert WorkerKeeps(safe, run.workers[i], run.offered);
    }
    OthersKept(archive, safe, safe, s.runs, r, Interrupted(run));
  }

  lemma StoreLiveKeeps(archive: Archive, excused: iset<Key>, s: State, ledger: u32, stored: seq<Event>)
    requires AllKept(archive, excused, s) && forall k :: k in PassedBy(archive, ledger, stored) ==> k in excused
    ensures AllKept(archive, excused, StoredLive(archive, s, ledger, stored))
  {
    InsertAddsFirstOfEachKey(s.db.sink, stored);
    RunsMonotone(archive, Safe(excused, s.db.sink), Safe(excused, Insert(s.db.sink, stored)), s.runs);
  }

  lemma StepKeeps(setup: Setup, excused: iset<Key>, s: State, step: Step)
    requires Structured(setup) && Inv(setup, s) && AllKept(setup.archive, excused, s) && CanStep(setup, s, step)
    requires forall k ::
      k in ReportedBy(setup, s, step) + PassedOverBy(setup.archive, step) || RefusedFirst(setup, k) ==> k in excused
    ensures AllKept(setup.archive, excused, Next(setup, s, step))
  {
    match step
    case StartRun(from, to, chunkSize, schema, hashes) =>
      StartKeeps(setup.archive, excused, s, NewRun(from, to, chunkSize, schema, hashes));
    case Work(r, w, a) =>
      if a.Offer? {
        OfferKeeps(setup, excused, s, r, w, a.contentSeen);
      } else {
        ActKeeps(setup, excused, s, r, w, a);
      }
    case Crash(r) => CrashKeeps(setup.archive, excused, s, r);
    case StoreLive(ledger, stored) => StoreLiveKeeps(setup.archive, excused, s, ledger, stored);
  }

  // --------------------------------------------------- what is left out, and why

  /** Keys a schedule may have lost: reported falsely, or with a refused first event. */
  ghost predicate Lossy(setup: Setup, steps: seq<Step>, k: Key) {
    k in FalselyReported(setup, steps) || RefusedFirst(setup, k)
  }

  /** Keys that may lack their first event. */
  ghost function Excused(setup: Setup, steps: seq<Step>): iset<Key> {
    iset k | Lossy(setup, steps, k) || k in PassedOver(setup.archive, steps)
  }

  /** No filter reported falsely, and live indexing stored first events only. */
  ghost predicate Clean(setup: Setup, steps: seq<Step>) {
    FalselyReported(setup, steps) == {} && PassedOver(setup.archive, steps) == {}
  }

  lemma ExcusedGrows(archive: Archive, excused: iset<Key>, more: iset<Key>, s: State)
    requires AllKept(archive, excused, s) && excused <= more
    ensures AllKept(archive, more, s)
  {
    RunsMonotone(archive, Safe(excused, s.db.sink), Safe(more, s.db.sink), s.runs);
  }

  lemma {:induction false} KeptAlways(setup: Setup, steps: seq<Step>)
    requires Structured(setup) && After(setup, steps).Some?
    ensures AllKept(setup.archive, Excused(setup, steps), After(setup, steps).value)
    decreases |steps|
  {
    if steps != [] {
      var before := steps[..|steps| - 1];
      assert After(setup, before) == Follow(setup, INITIAL, before);
      KeptAlways(setup, before);
      InvariantAlways(setup, before);
      ExcusedGrows(setup.archive, Excused(setup, before), Excused(setup, steps), After(setup, before).value);
      StepKeeps(setup, Excused(setup, steps), After(setup, before).value, steps[|steps| - 1]);
    }
  }

  /**
   * Whatever the filters, the schedule and the failures: a key is left out unstored only
   * because a filter reported it falsely, because the guard refused its first event, or
   * because live indexing passed over its first event.
   */
  lemma SkippedIsExplained(setup: Setup, steps: seq<Step>, k: Key)
    requires Structured(setup) && After(setup, steps).Some? && k in After(setup, steps).value.skipped
    ensures Lossy(setup, steps, k) || k in PassedOver(setup.archive, steps)
  {
    KeptAlways(setup, steps);
  }

  /** With an accepting guard and a clean schedule no event is left out unstored. */
  lemma NoSkips(setup: Setup, steps: seq<Step>)
    requires Structured(setup) && FirstsAccepted(setup) && After(setup, steps).Some? && Clean(setup, steps)
    ensures After(setup, steps).value.skipped == {}
  {
    forall k ensures k !in After(setup, steps).value.skipped {
      if k in After(setup, steps).value.skipped {
        SkippedIsExplained(setup, steps, k);
      }
    }
  }

  // ------------------------------------------ when a run is complete after all

  lemma {:induction false} StepGrowsSink(setup: Setup, s: State, step: Step)
    requires Inv(setup, s) && CanStep(setup, s, step)
    ensures s.db.sink.Keys <= Next(setup, s, step).db.sink.Keys
  {
    match step
    case Work(r, i, a) =>
      WorkerIsSound(setup, s, r, i);
      ActSound(setup, s.runs[r].schema, s.runs[r].hashes, SceneOf(s, r), s.runs[r].workers[i], a);
    case StoreLive(_, stored) => InsertAddsFirstOfEachKey(s.db.sink, stored);
    case _ =>
  }

  /** What live indexing stores stays stored, though it may not be the first event of its key. */
  lemma {:induction false} PassedOverIsStored(setup: Setup, steps: seq<Step>)
    requires After(setup, steps).Some?
    ensures PassedOver(setup.archive, steps) <= After(setup, steps).value.db.sink.Keys
    decreases |steps|
  {
    if steps != [] {
      var before, last := steps[..|steps| - 1], steps[|steps| - 1];
      assert After(setup, before) == Follow(setup, INITIAL, before);
      PassedOverIsStored(setup, before);
      InvariantAlways(setup, before);
      StepGrowsSink(setup, After(setup, before).value, last);
      if last.StoreLive? {
        StoredLiveIsStored(setup.archive, After(setup, before).value, last.ledger, last.stored);
      }
    }
  }

  lemma StoredLiveIsStored(archive: Archive, s: State, ledger: u32, stored: seq<Event>)
    ensures PassedBy(archive, ledger, stored) <= StoredLive(archive, s, ledger, stored).db.sink.Keys
  {
    InsertAddsFirstOfEachKey(s.db.sink, stored);
    forall e | e in stored ensures Lookup(stored, e.key).Some? {
      LookupFinds(stored, e.key);
    }
  }

  /** Every key of these ledgers that the schedule may have lost is stored all the same. */
  ghost predicate LossesAreStored(setup: Setup, steps: seq<Step>, sink: map<Key, Event>, from: nat, to: nat) {
    forall l: u32, k :: from <= l < to && HasKey(setup.archive(l), k) && Lossy(setup, steps, k) ==> k in sink
  }

  lemma SkippedIffLosses(setup: Setup, steps: seq<Step>, from: nat, to: nat)
    requires Structured(setup) && After(setup, steps).Some?
    requires LossesAreStored(setup, steps, After(setup, steps).value.db.sink, from, to)
    ensures SkippedAreStored(setup, After(setup, steps).value, from, to)
  {
    var s := After(setup, steps).value;
    PassedOverIsStored(setup, steps);
    forall l: u32, k | from <= l < to && k in s.skipped && HasKey(setup.archive(l), k) ensures k in s.db.sink {
      SkippedIsExplained(setup, steps, k);
    }
  }

  lemma CompleteStoresLosses(setup: Setup, steps: seq<Step>, s: State, from: nat, to: nat)
    requires Complete(setup, s, from, to)
    ensures LossesAreStored(setup, steps, s.db.sink, from, to)
  {
    forall l: u32, k | from <= l < to && HasKey(setup.archive(l), k) ensures k in s.db.sink {
      assert Stored(setup.archive, s.db.sink, l);
    }
  }

  /** A run that returned Ok has stored its whole range exactly when no loss of its range is still missing. */
  lemma OkRunIsCompleteIff(setup: Setup, steps: seq<Step>, r: nat)
    requires Structured(setup) && OkRun(setup, steps, r)
    ensures var s := After(setup, steps).value;
      OkRunComplete(setup, steps, r) <==> LossesAreStored(setup, steps, s.db.sink, s.runs[r].from, s.runs[r].to + 1)
  {
    var s := After(setup, steps).value;
    NothingLost(setup, steps, r);
    if LossesAreStored(setup, steps, s.db.sink, s.runs[r].from, s.runs[r].to + 1) {
      SkippedIffLosses(setup, steps, s.runs[r].from, s.runs[r].to + 1);
    } else if OkRunComplete(setup, steps, r) {
      CompleteStoresLosses(setup, steps, s, s.runs[r].from, s.runs[r].to + 1);
    }
  }

  /** A checkpoint row is true of all events of its ledgers exactly when none of their losses is still missing. */
  lemma CheckpointIsCompleteIff(setup: Setup, steps: seq<Step>, range: Chunk)
    requires Structured(setup) && After(setup, steps).Some? && range in After(setup, steps).value.db.rows
    ensures var s := After(setup, steps).value;
      s.db.rows[range].next >= 0
      && (Complete(setup, s, range.0, s.db.rows[range].next)
          <==> LossesAreStored(setup, steps, s.db.sink, range.0, s.db.rows[range].next))
  {
    var s := After(setup, steps).value;
    CheckpointsTellTheTruth(setup, steps, range);
    if LossesAreStored(setup, steps, s.db.sink, range.0, s.db.rows[range].next) {
      SkippedIffLosses(setup, steps, range.0, s.db.rows[range].next);
    } else if Complete(setup, s, range.0, s.db.rows[range].next) {
      CompleteStoresLosses(setup, steps, s, range.0, s.db.rows[range].next);
    }
  }

  /** Without false positives and with an accepting guard every checkpoint row is true of all events of its ledgers. */
  lemma CheckpointsAreComplete(setup: Setup, steps: seq<Step>, range: Chunk)
    requires Structured(setup) && FirstsAccepted(setup) && FalselyReported(setup, steps) == {}
    requires After(setup, steps).Some? && range in After(setup, steps).value.db.rows
    ensures var s := After(setup, steps).value;
      s.db.rows[range].next >= 0 && Complete(setup, s, range.0, s.db.rows[range].next)
  {
    CheckpointIsCompleteIff(setup, steps, range);
  }

  /** The table is exactly the key-deduplicated content of the ledgers of the range. */
  ghost predicate IsDedupOf(archive: Archive, sink: map<Key, Event>, from: u32, to: u32) {
    HasKeysOf(archive, sink, from, to) && RowsAreFirst(archive, sink, {}, from, to)
  }

  /** Every key of the range among these is stored with its first event. */
  ghost predicate FirstsStored(archive: Archive, keys: iset<Key>, sink: map<Key, Event>, from: u32, to: u32) {
    forall l: u32, k :: from <= l <= to && HasKey(archive(l), k) && k in keys ==>
      k in sink && Lookup(archive(l), k) == Some(sink[k])
  }

  /**
   * After a successful run over everything asked for so far the table is exactly that
   * range, deduplicated, if and only if the keys the schedule may have lost or passed
   * over are stored with their first events.
   */
  lemma SinkIsDedup(setup: Setup, steps: seq<Step>, r: nat)
    requires Structured(setup) && OkRun(setup, steps, r)
    requires var s := After(setup, steps).value; OnlyAsked(s, s.runs[r].from, s.runs[r].to)
    ensures var s := After(setup, steps).value;
      IsDedupOf(setup.archive, s.db.sink, s.runs[r].from, s.runs[r].to)
      <==> FirstsStored(setup.archive, Excused(setup, steps), s.db.sink, s.runs[r].from, s.runs[r].to)
  {
    var s := After(setup, steps).value;
    SinkIsExact(setup, steps, r);
    forall k | k in s.skipped ensures k in Excused(setup, steps) {
      SkippedIsExplained(setup, steps, k);
    }
    DedupIffFirstsStored(setup, s, Excused(setup, steps), s.runs[r].from, s.runs[r].to);
  }

  /** Given what holds of the keys that were not left out. */
  lemma DedupIffFirstsStored(setup: Setup, s: State, excused: iset<Key>, from: u32, to: u32)
    requires RowsAreFirst(setup.archive, s.db.sink, s.skipped, from, to)
    requires SkippedAreStored(setup, s, from, to + 1) ==> HasKeysOf(setup.archive, s.db.sink, from, to)
    requires forall k :: k in s.skipped ==> k in excused
    ensures IsDedupOf(setup.archive, s.db.sink, from, to) <==> FirstsStored(setup.archive, excused, s.db.sink, from, to)
  {
  }

  lemma DedupUnique(archive: Archive, a: map<Key, Event>, b: map<Key, Event>, from: u32, to: u32)
    requires IsDedupOf(archive, a, from, to) && IsDedupOf(archive, b, from, to)
    ensures a == b
  {
    forall k ensures k in a <==> k in b {
      assert k in a ==> InSomeLedger(archive, k, from, to);
      assert k in b ==> InSomeLedger(archive, k, from, to);
    }
    forall k | k in a ensures a[k] == b[k] {
      assert InSomeLedger(archive, k, from, to);
    }
  }

  /** A run over exactly this range returned Ok, and nothing outside it was asked for. */
  ghost predicate Backfilled(setup: Setup, steps: seq<Step>, r: nat, from: u32, to: u32) {
    OkRun(setup, steps, r)
    && var s := After(setup, steps).value; s.runs[r].from == from && s.runs[r].to == to && OnlyAsked(s, from, to)
  }

  /**
   * Two histories over one range, whatever their chunks, failures, crashes and reruns: when
   * the first is clean, they end with equal tables exactly when the second has stored the
   * first events of the keys it may have lost or passed over.
   */
  lemma SinksConverge(setup: Setup, steps1: seq<Step>, r1: nat, steps2: seq<Step>, r2: nat, from: u32, to: u32)
    requires Structured(setup) && FirstsAccepted(setup) && Clean(setup, steps1)
    requires Backfilled(setup, steps1, r1, from, to) && Backfilled(setup, steps2, r2, from, to)
    ensures var sink1, sink2 := After(setup, steps1).value.db.sink, After(setup, steps2).value.db.sink;
      sink1 == sink2 <==> FirstsStored(setup.archive, Excused(setup, steps2), sink2, from, to)
  {
    SinkIsDedup(setup, steps1, r1);
    SinkIsDedup(setup, steps2, r2);
    if FirstsStored(setup.archive, Excused(setup, steps2), After(setup, steps2).value.db.sink, from, to) {
      DedupUnique(setup.archive, After(setup, steps1).value.db.sink, After(setup, steps2).value.db.sink, from, to);
    }
  }

  /** In particular two clean histories end with equal tables. */
  lemma CleanSinksAgree(setup: Setup, steps1: seq<Step>, r1: nat, steps2: seq<Step>, r2: nat, from: u32, to: u32)
    requires Structured(setup) && FirstsAccepted(setup) && Clean(setup, steps1) && Clean(setup, steps2)
    requires Backfilled(setup, steps1, r1, from, to) && Backfilled(setup, steps2, r2, from, to)
    ensures After(setup, steps1).value.db.sink == After(setup, steps2).value.db.sink
  {
    SinksConverge(setup, steps1, r1, steps2, r2, from, to);
  }

  ghost predicate OkRun(setup: Setup, steps: seq<Step>, r: nat) {
    After(setup, steps).Some?
    && r < |After(setup, steps).value.runs| && After(setup, steps).value.runs[r].ReturnsOk()
  }

  ghost predicate OkRunComplete(setup: Setup, steps: seq<Step>, r: nat)
    requires OkRun(setup, steps, r)
  {
    var s := After(setup, steps).value;
    Complete(setup, s, s.runs[r].from, s.runs[r].to + 1)
  }

  /** Every run that returns Ok, in whatever schedule without false positives, has stored its range. */
  ghost predicate OkRunsAreComplete(setup: Setup) {
    forall steps: seq<Step>, r: nat ::
      OkRun(setup, steps, r) && FalselyReported(setup, steps) == {} ==> OkRunComplete(setup, steps, r)
  }

  lemma KeysAreValid(setup: Setup, l: u32, k: Key)
    requires FirstsAccepted(setup) && HasKey(setup.archive(l), k)
    ensures ValidTxHash(k.txHash) && ValidContractId(k.contractId)
  {
    assert !RefusedFirst(setup, k);
    LookupFinds(setup.archive(l), k);
  }

  /** Accepted keys are valid, so their texts tell them apart. */
  lemma AcceptedTextsNameKeys(setup: Setup)
    requires FirstsAccepted(setup)
    ensures TextsNameKeys(setup.archive)
  {
    forall l: u32, m: u32, k, n | HasKey(setup.archive(l), k) && HasKey(setup.archive(m), n) && k.Text() == n.Text()
      ensures k == n
    {
      KeysAreValid(setup, l, k);
      KeysAreValid(setup, m, n);
      TextNamesKey(k, n);
    }
  }

  lemma AcceptedRunsAreComplete(setup: Setup)
    requires FirstsAccepted(setup) && KeysNameLedgers(setup.archive)
    requires setup.policy.contentDedup ==> ContentsNameKeys(setup.archive)
    ensures OkRunsAreComplete(setup)
  {
    AcceptedTextsNameKeys(setup);
    forall steps: seq<Step>, r: nat | OkRun(setup, steps, r) && FalselyReported(setup, steps) == {}
      ensures OkRunComplete(setup, steps, r)
    {
      OkRunIsCompleteIff(setup, steps, r);
    }
  }

  // ------------------------------------------------ what a false positive is

  function CallsOf(offered: seq<Offered>): (calls: seq<Call>)
    ensures |calls| == |offered|
  {
    seq(|offered|, i requires 0 <= i < |offered| => Call(offered[i].key.Text(), offered[i].ledger))
  }

  lemma CallsSnoc(offered: seq<Offered>, o: Offered)
    ensures CallsOf(offered + [o]) == CallsOf(offered) + [Call(o.key.Text(), o.ledger)]
  {
  }

  lemma {:induction false} SeenWasOffered(offered: seq<Offered>, text: string) returns (o: Offered)
    requires text in SeenThisLedger(CallsOf(offered))
    ensures o in offered && o.key.Text() == text
  {
    var last := offered[|offered| - 1];
    assert offered == offered[..|offered| - 1] + [last];
    CallsSnoc(offered[..|offered| - 1], last);
    CallSnoc(CallsOf(offered[..|offered| - 1]), Call(last.key.Text(), last.ledger));
    if last.key.Text() == text {
      o := last;
    } else {
      o := SeenWasOffered(offered[..|offered| - 1], text);
    }
  }

  ghost predicate FiltersTrack(runs: seq<Run>) {
    forall r :: 0 <= r < |runs| ==> FilterTracks(runs[r])
  }

  ghost predicate FilterTracks(run: Run) { Tracks(run.session, run.hashes, CallsOf(run.offered)) }

  lemma OfferTracks(setup: Setup, hashes: nat -> Hash, x: Scene, w: Worker, contentSeen: bool)
    requires AtEvent(setup, w) && Tracks(x.session, hashes, CallsOf(x.offered))
    ensures var y := OfferEvent(setup, hashes, x, w, contentSeen);
      Tracks(y.scene.session, hashes, CallsOf(y.scene.offered))
  {
    var o := Offered(EventAt(setup, w).key, w.phase.file[w.phase.i]);
    CallsSnoc(x.offered, o);
    VisitTracks(x.session, hashes, CallsOf(x.offered), Call(o.key.Text(), o.ledger));
    assert OfferEvent(setup, hashes, x, w, contentSeen).scene.offered == x.offered + [o];
  }

  lemma ActTracks(setup: Setup, run: Run, x: Scene, w: Worker, a: Action)
    requires CanAct(setup, run.schema, x.db.sink, w, a)
    requires Tracks(x.session, run.hashes, CallsOf(x.offered))
    ensures var y := Act(setup, run.schema, run.hashes, x, w, a);
      Tracks(y.scene.session, run.hashes, CallsOf(y.scene.offered))
  {
    if a.Offer? {
      OfferTracks(setup, run.hashes, x, w, a.contentSeen);
    } else {
      assert Act(setup, run.schema, run.hashes, x, w, a).scene.session == x.session;
    }
  }

  lemma StepTracks(setup: Setup, s: State, step: Step)
    requires FiltersTrack(s.runs) && CanStep(setup, s, step)
    ensures FiltersTrack(Next(setup, s, step).runs)
  {
    match step
    case StartRun(_, _, _, _, hashes) =>
      FreshTracks(hashes);
      assert CallsOf([]) == [];
    case Work(r, i, a) =>
      assert FilterTracks(s.runs[r]);
      ActTracks(setup, s.runs[r], SceneOf(s, r), s.runs[r].workers[i], a);
    case Crash(r) => assert FilterTracks(s.runs[r]);
    case StoreLive(_, _) =>
  }

  lemma {:induction false} TracksAlways(setup: Setup, steps: seq<Step>)
    requires After(setup, steps).Some?
    ensures FiltersTrack(After(setup, steps).value.runs)
    decreases |steps|
  {
    if steps != [] {
      var before := steps[..|steps| - 1];
      assert After(setup, before) == Follow(setup, INITIAL, before);
      TracksAlways(setup, before);
      StepTracks(setup, After(setup, before).value, steps[|steps| - 1]);
    }
  }

  /**
   * A false positive in any run of any schedule comes from the bitmap alone: the bits of
   * a text never offered are among the bits of the texts the filter remembers.
   */
  lemma FalseReportIffCovered(setup: Setup, steps: seq<Step>, r: nat, i: nat)
    requires After(setup, steps).Some? && r < |After(setup, steps).value.runs|
    requires i < |After(setup, steps).value.runs[r].workers| && AtEvent(setup, After(setup, steps).value.runs[r].workers[i])
    ensures var run := After(setup, steps).value.runs[r];
      var w := run.workers[i];
      var text, ledger := EventAt(setup, w).key.Text(), w.phase.file[w.phase.i];
      FalseReport(setup, run, w)
      <==> (forall o :: o in run.offered ==> o.key.Text() != text)
           && FalselyCovered(Visit(run.session, run.hashes, text, ledger).session.inner.hash,
                             Remembered(CallsOf(run.offered), ledger), text)
  {
    var run := After(setup, steps).value.runs[r];
    var w := run.workers[i];
    var text, ledger := EventAt(setup, w).key.Text(), w.phase.file[w.phase.i];
    TracksAlways(setup, steps);
    assert FilterTracks(run);
    VisitTracks(run.session, run.hashes, CallsOf(run.offered), Call(text, ledger));
    if text in SeenThisLedger(CallsOf(run.offered)) {
      var o := SeenWasOffered(run.offered, text);
    }
  }
}
