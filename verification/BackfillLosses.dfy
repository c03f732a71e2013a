/**
 * What the backfill loses, and why the condition in BackfillGuarantee cannot be
 * relaxed: a run on its own over one ledger, followed step by step, returns Ok
 * and completes its checkpoint whatever the sink leaves out.
 */
module BackfillLosses {
  import opened Options
  import opened LedgerFiles
  import opened BloomFilter
  import opened EventSink
  import opened BackfillActions
  import opened Backfill
  import opened BackfillGuarantee

  // ---------------------------------------------- one run over one ledger

  /** One ledger per file. */
  const SINGLE := Schema(1, 1, "")

  lemma FileOfOne(l: u32)
    ensures FileBounds(SINGLE, l) == (l, l) && IsFile(SINGLE, l, [l])
  {
    assert l % 1 == 0;
  }

  /** The filter and the transaction after the first `j` events of the ledger. */
  datatype Sift = Sift(session: Session, batch: seq<Event>)

  function Sifted(setup: Setup, hashes: nat -> Hash, l: u32, j: nat): Sift
    requires j <= |setup.archive(l)|
  {
    if j == 0 then Sift(FreshSession(hashes), [])
    else
      var before, e := Sifted(setup, hashes, l, j - 1), setup.archive(l)[j - 1];
      var v := Visit(before.session, hashes, e.key.Text(), l);
      Sift(v.session, if v.duplicate || !Accepts(setup.policy, e) then before.batch else before.batch + [e])
  }

  /** Nothing but this run has happened, and it has come this far. */
  ghost predicate AloneIn(s: State, l: u32, hashes: nat -> Hash, db: Db, phase: Phase, session: Session) {
    && |s.runs| == 1 && s.db == db
    && var run := s.runs[0];
       && run.from == l && run.to == l && run.schema == SINGLE && run.hashes == hashes && run.session == session
       && |run.workers| == 1 && run.workers[0].range == (l, l) && run.workers[0].phase == phase
  }

  /** A step of one run over this ledger alone. */
  ghost predicate OfLedger(step: Step, l: u32, hashes: nat -> Hash) {
    step.Work? || step == StartRun(l, l, 1, SINGLE, hashes)
  }

  ghost predicate Alone(setup: Setup, steps: seq<Step>, l: u32, hashes: nat -> Hash, db: Db, phase: Phase, session: Session) {
    && After(setup, steps).Some? && AloneIn(After(setup, steps).value, l, hashes, db, phase, session)
    && forall step :: step in steps ==> OfLedger(step, l, hashes)
  }

  lemma Extend(setup: Setup, steps: seq<Step>, step: Step)
    requires After(setup, steps).Some? && CanStep(setup, After(setup, steps).value, step)
    ensures After(setup, steps + [step]) == Some(Next(setup, After(setup, steps).value, step))
  {
    assert (steps + [step])[..|steps|] == steps;
  }

  /** The run takes one more action. */
  lemma Goes(setup: Setup, steps: seq<Step>, l: u32, hashes: nat -> Hash, db: Db, phase: Phase, session: Session, a: Action)
    returns (more: seq<Step>)
    requires Alone(setup, steps, l, hashes, db, phase, session)
    requires CanAct(setup, SINGLE, db.sink, After(setup, steps).value.runs[0].workers[0], a)
    ensures var s := After(setup, steps).value;
      var y := Act(setup, SINGLE, hashes, SceneOf(s, 0), s.runs[0].workers[0], a);
      y.worker.range == (l, l) ==> Alone(setup, more, l, hashes, y.scene.db, y.worker.phase, y.scene.session)
  {
    more := steps + [Work(0, 0, a)];
    Extend(setup, steps, Work(0, 0, a));
  }

  lemma Starts(setup: Setup, l: u32, hashes: nat -> Hash) returns (steps: seq<Step>)
    ensures Alone(setup, steps, l, hashes, Db(map[], map[]), Waiting, FreshSession(hashes))
  {
    steps := [StartRun(l, l, 1, SINGLE, hashes)];
    assert [] + steps == steps;
    Extend(setup, [], StartRun(l, l, 1, SINGLE, hashes));
    assert Chunks(l + 1, l, 1) == [];
    assert Chunks(l, l, 1) == [(l, l)] + Chunks(l + 1, l, 1) == [(l, l)];
    assert NewWorkers(l, l, 1) == [Worker((l, l), Waiting, 0, 0)];
  }

  lemma ReachesLedger(setup: Setup, l: u32, hashes: nat -> Hash) returns (steps: seq<Step>)
    requires setup.archive(l) != []
    ensures Alone(setup, steps, l, hashes, Db(map[], map[]), Storing(l, [l], 0, 0, []), FreshSession(hashes))
  {
    var db, session := Db(map[], map[]), FreshSession(hashes);
    FileOfOne(l);
    steps := Starts(setup, l, hashes);
    steps := Goes(setup, steps, l, hashes, db, Waiting, session, Load(true));
    steps := Goes(setup, steps, l, hashes, db, LoopHead(l), session, Fetch(Some([l])));
    steps := Goes(setup, steps, l, hashes, db, Reading(l, [l], 0), session, Open(true));
  }

  /** The run has offered the first `j` events of its ledger. */
  ghost predicate HasOffered(setup: Setup, steps: seq<Step>, l: u32, hashes: nat -> Hash, j: nat, sift: Sift) {
    && j <= |setup.archive(l)| && sift == Sifted(setup, hashes, l, j)
    && Alone(setup, steps, l, hashes, Db(map[], map[]), Storing(l, [l], 0, j, sift.batch), sift.session)
  }

  lemma OffersOne(setup: Setup, steps: seq<Step>, l: u32, hashes: nat -> Hash, j: nat, sift: Sift)
    returns (more: seq<Step>, after: Sift)
    requires HasOffered(setup, steps, l, hashes, j, sift) && j < |setup.archive(l)|
    ensures HasOffered(setup, more, l, hashes, j + 1, after)
  {
    after := Sifted(setup, hashes, l, j + 1);
    more := Goes(setup, steps, l, hashes, Db(map[], map[]), Storing(l, [l], 0, j, sift.batch), sift.session, Offer(false));
  }

  lemma OffersAll(setup: Setup, l: u32, hashes: nat -> Hash) returns (steps: seq<Step>, sift: Sift)
    requires setup.archive(l) != []
    ensures HasOffered(setup, steps, l, hashes, |setup.archive(l)|, sift)
  {
    steps := ReachesLedger(setup, l, hashes);
    sift := Sifted(setup, hashes, l, 0);
    for j := 0 to |setup.archive(l)|
      invariant HasOffered(setup, steps, l, hashes, j, sift)
    {
      steps, sift := OffersOne(setup, steps, l, hashes, j, sift);
    }
  }

  /** The table and the checkpoint the run leaves behind. */
  function Left(batch: seq<Event>, l: u32): Db { Db(Insert(map[], batch), map[(l, l) := Row(l + 1, true)]) }

  lemma Commits(setup: Setup, steps: seq<Step>, l: u32, hashes: nat -> Hash, batch: seq<Event>, session: Session)
    returns (more: seq<Step>)
    requires Alone(setup, steps, l, hashes, Db(map[], map[]), Storing(l, [l], 0, |setup.archive(l)|, batch), session)
    ensures Alone(setup, more, l, hashes, Db(Insert(map[], batch), map[]), Reading(l, [l], 1), session)
  {
    var phase := Storing(l, [l], 0, |setup.archive(l)|, batch);
    more := Goes(setup, steps, l, hashes, Db(map[], map[]), phase, session, Commit(Committed));
  }

  lemma Saves(setup: Setup, steps: seq<Step>, l: u32, hashes: nat -> Hash, batch: seq<Event>, session: Session)
    returns (more: seq<Step>)
    requires Alone(setup, steps, l, hashes, Db(Insert(map[], batch), map[]), Reading(l, [l], 1), session)
    ensures Alone(setup, more, l, hashes, Left(batch, l), Counting(l, l + 1), session)
  {
    FileOfOne(l);
    var db := Db(Insert(map[], batch), map[]);
    more := Goes(setup, steps, l, hashes, db, Reading(l, [l], 1), session, Finish);
    more := Goes(setup, more, l, hashes, db, Saving(l, l + 1), session, Save(Committed));
  }

  lemma Ends(setup: Setup, steps: seq<Step>, l: u32, hashes: nat -> Hash, db: Db, session: Session)
    returns (more: seq<Step>)
    requires Alone(setup, steps, l, hashes, db, Counting(l, l + 1), session)
    ensures Alone(setup, more, l, hashes, db, Succeeded, session)
  {
    more := Goes(setup, steps, l, hashes, db, Counting(l, l + 1), session, Count);
    more := Goes(setup, more, l, hashes, db, LoopHead(l + 1), session, Finish);
  }

  /** A run over one ledger, undisturbed: it returns Ok, completes its row, and stores what passed the sieve. */
  lemma RunsAlone(setup: Setup, l: u32, hashes: nat -> Hash) returns (steps: seq<Step>)
    requires setup.archive(l) != []
    ensures var sift := Sifted(setup, hashes, l, |setup.archive(l)|);
      Alone(setup, steps, l, hashes, Left(sift.batch, l), Succeeded, sift.session)
  {
    var sift;
    steps, sift := OffersAll(setup, l, hashes);
    steps := Commits(setup, steps, l, hashes, sift.batch, sift.session);
    steps := Saves(setup, steps, l, hashes, sift.batch, sift.session);
    steps := Ends(setup, steps, l, hashes, Left(sift.batch, l), sift.session);
  }

  /** What such a run means for its ledger. */
  lemma AloneIsOk(setup: Setup, steps: seq<Step>, l: u32, hashes: nat -> Hash, db: Db, session: Session)
    requires Alone(setup, steps, l, hashes, db, Succeeded, session)
    ensures OkRun(setup, steps, 0)
    ensures OkRunComplete(setup, steps, 0) <==> Stored(setup.archive, db.sink, l)
  {
  }

  // ----------------------------------------------------- what one event takes

  /** The hash function the filter uses for the first ledger it is shown. */
  function FirstHash(hashes: nat -> Hash, l: u32): Hash { if l > 0 then hashes(1) else hashes(0) }

  lemma FreshFilterPasses(setup: Setup, l: u32, hashes: nat -> Hash, e: Event)
    requires setup.archive(l) == [e] && FirstHash(hashes, l)(e.key.Text()) != {}
    ensures Sifted(setup, hashes, l, 1).batch == if Accepts(setup.policy, e) then [e] else []
  {
    assert Sifted(setup, hashes, l, 0) == Sift(FreshSession(hashes), []);
    assert [] + [e] == [e];
  }

  /**
   * A run over a ledger of one event, undisturbed, returns Ok and leaves the table with
   * exactly this event if it obeys the rules, and empty otherwise.
   */
  lemma OneEventStored(setup: Setup, l: u32, hashes: nat -> Hash, e: Event) returns (steps: seq<Step>)
    requires setup.archive(l) == [e] && FirstHash(hashes, l)(e.key.Text()) != {}
    ensures After(setup, steps).Some?
    ensures var s := After(setup, steps).value;
      && |s.runs| == 1 && s.runs[0].from == l == s.runs[0].to && s.runs[0].ReturnsOk()
      && s.db.rows == map[(l, l) := Row(l + 1, true)]
      && s.db.sink == if ObeysRules(setup.policy, e) then map[e.key := e] else map[]
  {
    steps := RunsAlone(setup, l, hashes);
    var sift := Sifted(setup, hashes, l, 1);
    FreshFilterPasses(setup, l, hashes, e);
    AcceptsIffRules(setup.policy, e);
    InsertOne(e);
    AloneShows(setup, steps, l, hashes, Left(sift.batch, l), sift.session);
  }

  lemma InsertOne(e: Event)
    ensures Insert(map[], [e]) == map[e.key := e] && Insert(map[], []) == map[]
  {
    assert [e][1..] == [] && Insert(map[e.key := e], []) == map[e.key := e];
  }

  lemma AloneShows(setup: Setup, steps: seq<Step>, l: u32, hashes: nat -> Hash, db: Db, session: Session)
    requires Alone(setup, steps, l, hashes, db, Succeeded, session)
    ensures var s := After(setup, steps).value;
      |s.runs| == 1 && s.runs[0].from == l == s.runs[0].to && s.runs[0].ReturnsOk() && s.db == db
  {
  }

  // ------------------------------------------------------- refused events

  ghost predicate IsAcceptedEvent(setup: Setup, e: Event) {
    exists l: u32 :: Storable(setup, e, l)
  }

  /**
   * Events whose data is a string, as the backfill decodes them, are never stored:
   * after any schedule at all the table is empty.
   */
  lemma StringsAreNeverStored(setup: Setup, steps: seq<Step>)
    requires forall l: u32, e :: e in setup.archive(l) ==> e.value.String?
    requires After(setup, steps).Some?
    ensures After(setup, steps).value.db.sink == map[]
  {
    NothingSpurious(setup, steps);
    var s := After(setup, steps).value;
    forall k | k in s.db.sink ensures IsAcceptedEvent(setup, s.db.sink[k]) {
      assert Justified(setup, s, k, s.db.sink[k]);
    }
    assert forall k :: k in s.db.sink ==> IsAcceptedEvent(setup, s.db.sink[k]);
  }

  /** Yet a run over any ledger with such events returns Ok and marks the ledger as done. */
  lemma RefusedLedgerIsLost(setup: Setup, l: u32, hashes: nat -> Hash) returns (steps: seq<Step>)
    requires setup.archive(l) != [] && forall m: u32, e :: e in setup.archive(m) ==> e.value.String?
    ensures After(setup, steps).Some?
    ensures var s := After(setup, steps).value;
      && |s.runs| == 1 && s.runs[0].from == l == s.runs[0].to && s.runs[0].ReturnsOk()
      && s.db.rows == map[(l, l) := Row(l + 1, true)]
      && s.db.sink == map[] && !Stored(setup.archive, s.db.sink, l)
  {
    steps := RunsAlone(setup, l, hashes);
    StringsAreNeverStored(setup, steps);
    EventHasKey(setup.archive(l), 0);
  }

  // ------------------------------------------------------ false positives

  lemma CoveredIsDropped(setup: Setup, l: u32, hashes: nat -> Hash, e: Event, f: Event)
    requires setup.archive(l) == [e, f] && Accepts(setup.policy, e)
    requires FirstHash(hashes, l)(f.key.Text()) <= FirstHash(hashes, l)(e.key.Text())
    requires FirstHash(hashes, l)(e.key.Text()) != {}
    ensures Sifted(setup, hashes, l, 2).batch == [e]
  {
    assert Sifted(setup, hashes, l, 0) == Sift(FreshSession(hashes), []);
    assert Sifted(setup, hashes, l, 1).batch == [e];
  }

  /**
   * A false positive drops a new event silently: when the bits of the second key
   * are among those of the first, only the first event of the ledger is stored,
   * though both are acceptable, and the run returns Ok with its row complete.
   */
  lemma FalsePositiveIsLost(setup: Setup, l: u32, hashes: nat -> Hash, e: Event, f: Event) returns (steps: seq<Step>)
    requires setup.archive(l) == [e, f] && e.key != f.key
    requires Accepts(setup.policy, e) && Accepts(setup.policy, f)
    requires FirstHash(hashes, l)(f.key.Text()) <= FirstHash(hashes, l)(e.key.Text())
    requires FirstHash(hashes, l)(e.key.Text()) != {}
    ensures After(setup, steps).Some?
    ensures var s := After(setup, steps).value;
      && |s.runs| == 1 && s.runs[0].from == l == s.runs[0].to && s.runs[0].ReturnsOk()
      && s.db.rows == map[(l, l) := Row(l + 1, true)]
      && e.key in s.db.sink && f.key !in s.db.sink && !Stored(setup.archive, s.db.sink, l)
  {
    steps := RunsAlone(setup, l, hashes);
    CoveredIsDropped(setup, l, hashes, e, f);
    InsertAddsFirstOfEachKey(map[], [e]);
    EventHasKey(setup.archive(l), 1);
  }

  // ------------------------------------------- refused first events

  function CallsAt(events: seq<Event>, l: u32): (calls: seq<Call>)
    ensures |calls| == |events|
  {
    seq(|events|, i requires 0 <= i < |events| => Call(events[i].key.Text(), l))
  }

  /** Calls for one ledger never empty the filter again. */
  lemma {:induction false} OneLedgerSeen(events: seq<Event>, l: u32)
    ensures MaxLedger(CallsAt(events, l)) <= l && (events != [] ==> MaxLedger(CallsAt(events, l)) == l)
    ensures forall e :: e in events ==> e.key.Text() in SeenThisLedger(CallsAt(events, l))
  {
    if events != [] {
      var front, last := events[..|events| - 1], events[|events| - 1];
      OneLedgerSeen(front, l);
      assert CallsAt(events, l) == CallsAt(front, l) + [Call(last.key.Text(), l)];
      CallSnoc(CallsAt(front, l), Call(last.key.Text(), l));
      assert events == front + [last];
      assert front == [] ==> events == [last];
    }
  }

  /** The filter of the run is in step with the events offered so far. */
  lemma {:induction false} SiftTracks(setup: Setup, hashes: nat -> Hash, l: u32, j: nat)
    requires j <= |setup.archive(l)|
    ensures Tracks(Sifted(setup, hashes, l, j).session, hashes, CallsAt(setup.archive(l)[..j], l))
  {
    var events := setup.archive(l);
    if j == 0 {
      assert CallsAt(events[..0], l) == [];
      FreshTracks(hashes);
    } else {
      SiftTracks(setup, hashes, l, j - 1);
      var e := events[j - 1];
      assert CallsAt(events[..j], l) == CallsAt(events[..j - 1], l) + [Call(e.key.Text(), l)];
      VisitTracks(Sifted(setup, hashes, l, j - 1).session, hashes, CallsAt(events[..j - 1], l), Call(e.key.Text(), l));
    }
  }

  /** An event whose key was offered before is dropped, even if the earlier event was refused. */
  lemma LaterOneIsDropped(setup: Setup, hashes: nat -> Hash, l: u32, j: nat)
    requires j < |setup.archive(l)| && HasKey(setup.archive(l)[..j], setup.archive(l)[j].key)
    ensures Sifted(setup, hashes, l, j + 1).batch == Sifted(setup, hashes, l, j).batch
  {
    var events := setup.archive(l);
    var e := events[j];
    LookupFinds(events[..j], e.key);
    var first := Lookup(events[..j], e.key).value;
    OneLedgerSeen(events[..j], l);
    SiftTracks(setup, hashes, l, j);
    VisitTracks(Sifted(setup, hashes, l, j).session, hashes, CallsAt(events[..j], l), Call(e.key.Text(), l));
  }

  /** When the first event of a key is refused, no event of that key is stored. */
  lemma {:induction false} RefusedFirstBlocksKey(setup: Setup, hashes: nat -> Hash, l: u32, k: Key, j: nat)
    requires HasKey(setup.archive(l), k) && !Accepts(setup.policy, Lookup(setup.archive(l), k).value)
    requires j <= |setup.archive(l)|
    ensures !HasKey(Sifted(setup, hashes, l, j).batch, k)
  {
    if j > 0 {
      var events := setup.archive(l);
      var e := events[j - 1];
      RefusedFirstBlocksKey(setup, hashes, l, k, j - 1);
      if HasKey(events[..j - 1], e.key) {
        LaterOneIsDropped(setup, hashes, l, j - 1);
      } else {
        LookupSnoc(Sifted(setup, hashes, l, j - 1).batch, e, k);
        FirstIsLookup(events, j - 1);
      }
    }
  }

  // ---------------------------------- filters that report truly on one ledger

  /** The position of the first event with this text, or the number of events. */
  function FirstAt(events: seq<Event>, text: string): (i: nat)
    ensures i <= |events|
    ensures i < |events| ==> events[i].key.Text() == text
    ensures i == |events| ==> forall e :: e in events ==> e.key.Text() != text
  {
    if |events| == 0 || events[0].key.Text() == text then 0 else 1 + FirstAt(events[1..], text)
  }

  /** A bitmap with one bit for each event of a list, and one for all other texts. */
  function Positions(events: seq<Event>): Hash {
    text => {FirstAt(events, text)}
  }

  ghost predicate Listed(events: seq<Event>, texts: seq<string>) {
    forall text :: text in texts ==> FirstAt(events, text) < |events|
  }

  /** As long as it takes texts of the list only, it has no false positive among them. */
  lemma {:induction false} PositionsTellApart(events: seq<Event>, texts: seq<string>, text: string)
    requires Listed(events, texts) && FirstAt(events, text) < |events|
    ensures !FalselyCovered(Positions(events), texts, text)
  {
    if Positions(events)(text) <= BitsOf(Positions(events), texts) {
      assert FirstAt(events, text) in BitsOf(Positions(events), texts);
      var front, last := texts[..|texts| - 1], texts[|texts| - 1];
      if FirstAt(events, text) != FirstAt(events, last) {
        assert Positions(events)(text) <= BitsOf(Positions(events), front);
        PositionsTellApart(events, front, text);
        assert text in front;
      }
    }
  }

  /** The run is over this ledger and has offered keys of it only. */
  ghost predicate OnLedger(archive: Archive, run: Run, l: u32, hashes: nat -> Hash) {
    run.from == l && run.to == l && run.hashes == hashes && forall o :: o in run.offered ==> HasKey(archive(l), o.key)
  }

  ghost predicate AllOnLedger(archive: Archive, s: State, l: u32, hashes: nat -> Hash) {
    forall r :: 0 <= r < |s.runs| ==> OnLedger(archive, s.runs[r], l, hashes)
  }

  lemma InsideOneLedger(setup: Setup, keys: set<Key>, run: Run, i: nat, l: u32)
    requires RunSound(setup, keys, run) && run.from == l && run.to == l
    requires i < |run.workers| && AtEvent(setup, run.workers[i])
    ensures run.workers[i].phase.file[run.workers[i].phase.i] == l
  {
    WorkerInsideRun(setup, keys, run, i);
    StoringInside(setup, run.schema, keys, run.workers[i]);
  }

  /** The worker of such a run is at an event of the ledger. */
  lemma AtLedger(setup: Setup, s: State, l: u32, hashes: nat -> Hash, r: nat, i: nat)
    requires RunsSound(setup, Known(s), s.runs) && AllOnLedger(setup.archive, s, l, hashes)
    requires r < |s.runs| && i < |s.runs[r].workers| && AtEvent(setup, s.runs[r].workers[i])
    ensures s.runs[r].workers[i].phase.file[s.runs[r].workers[i].phase.i] == l
    ensures HasKey(setup.archive(l), EventAt(setup, s.runs[r].workers[i]).key)
  {
    WorkerIsSound(setup, s, r, i);
    assert OnLedger(setup.archive, s.runs[r], l, hashes);
    InsideOneLedger(setup, Known(s), s.runs[r], i, l);
    EventHasKey(setup.archive(l), s.runs[r].workers[i].phase.j);
  }

  /** An action offers the event its worker is at, or nothing. */
  lemma ActOffers(setup: Setup, schema: Schema, hashes: nat -> Hash, x: Scene, w: Worker, a: Action)
    requires CanAct(setup, schema, x.db.sink, w, a)
    ensures var offered := Act(setup, schema, hashes, x, w, a).scene.offered;
      if a.Offer? then offered == x.offered + [Offered(EventAt(setup, w).key, w.phase.file[w.phase.i])] else offered == x.offered
  {
  }

  lemma WorkedOnLedger(archive: Archive, s: State, l: u32, hashes: nat -> Hash, r: nat, i: nat, y: Effect)
    requires AllOnLedger(archive, s, l, hashes) && r < |s.runs| && i < |s.runs[r].workers|
    requires forall o :: o in y.scene.offered ==> o in s.runs[r].offered || HasKey(archive(l), o.key)
    ensures AllOnLedger(archive, Worked(s, r, i, y), l, hashes)
  {
    assert OnLedger(archive, s.runs[r], l, hashes);
    forall q | 0 <= q < |s.runs| ensures OnLedger(archive, Worked(s, r, i, y).runs[q], l, hashes) {
      assert OnLedger(archive, s.runs[q], l, hashes);
    }
  }

  lemma WorkStaysOnLedger(setup: Setup, s: State, l: u32, hashes: nat -> Hash, r: nat, i: nat, a: Action)
    requires RunsSound(setup, Known(s), s.runs) && AllOnLedger(setup.archive, s, l, hashes) && CanStep(setup, s, Work(r, i, a))
    ensures AllOnLedger(setup.archive, Next(setup, s, Work(r, i, a)), l, hashes)
  {
    if a.Offer? {
      AtLedger(setup, s, l, hashes, r, i);
    }
    var run := s.runs[r];
    ActOffers(setup, run.schema, run.hashes, SceneOf(s, r), run.workers[i], a);
    WorkedOnLedger(setup.archive, s, l, hashes, r, i, Act(setup, run.schema, run.hashes, SceneOf(s, r), run.workers[i], a));
  }

  lemma StaysOnLedger(setup: Setup, s: State, l: u32, hashes: nat -> Hash, step: Step)
    requires RunsSound(setup, Known(s), s.runs) && AllOnLedger(setup.archive, s, l, hashes)
    requires CanStep(setup, s, step) && OfLedger(step, l, hashes)
    ensures AllOnLedger(setup.archive, Next(setup, s, step), l, hashes)
  {
    if step.Work? {
      WorkStaysOnLedger(setup, s, l, hashes, step.r, step.w, step.action);
    }
  }

  /** Filters that tell the texts of the ledger apart report truly while nothing else is offered. */
  lemma ReportsTruly(setup: Setup, steps: seq<Step>, l: u32, hashes: nat -> Hash, r: nat, i: nat)
    requires forall n: nat :: hashes(n) == Positions(setup.archive(l))
    requires After(setup, steps).Some? && AllOnLedger(setup.archive, After(setup, steps).value, l, hashes)
    requires r < |After(setup, steps).value.runs| && i < |After(setup, steps).value.runs[r].workers|
    requires AtEvent(setup, After(setup, steps).value.runs[r].workers[i])
    ensures !FalseReport(setup, After(setup, steps).value.runs[r], After(setup, steps).value.runs[r].workers[i])
  {
    var s := After(setup, steps).value;
    var run := s.runs[r];
    var text := EventAt(setup, run.workers[i]).key.Text();
    InvariantAlways(setup, steps);
    TracksAlways(setup, steps);
    assert FilterTracks(run) && OnLedger(setup.archive, run, l, hashes);
    AtLedger(setup, s, l, hashes, r, i);
    KeyIsListed(setup.archive(l), EventAt(setup, run.workers[i]).key);
    var seen := Remembered(CallsOf(run.offered), l);
    forall t | t in seen ensures FirstAt(setup.archive(l), t) < |setup.archive(l)| {
      var o := SeenWasOffered(run.offered, t);
      KeyIsListed(setup.archive(l), o.key);
    }
    FalseReportIffCovered(setup, steps, r, i);
    PositionsTellApart(setup.archive(l), seen, text);
  }

  lemma KeyIsListed(events: seq<Event>, k: Key)
    requires HasKey(events, k)
    ensures FirstAt(events, k.Text()) < |events|
  {
    LookupFinds(events, k);
  }

  lemma {:induction false} LedgerReportsTruly(setup: Setup, steps: seq<Step>, l: u32, hashes: nat -> Hash)
    requires forall n: nat :: hashes(n) == Positions(setup.archive(l))
    requires After(setup, steps).Some? && forall step :: step in steps ==> OfLedger(step, l, hashes)
    ensures FalselyReported(setup, steps) == {} && AllOnLedger(setup.archive, After(setup, steps).value, l, hashes)
    decreases |steps|
  {
    if steps != [] {
      var before, last := steps[..|steps| - 1], steps[|steps| - 1];
      assert After(setup, before) == Follow(setup, INITIAL, before);
      LedgerReportsTruly(setup, before, l, hashes);
      InvariantAlways(setup, before);
      StaysOnLedger(setup, After(setup, before).value, l, hashes, last);
      StepReportsTruly(setup, before, l, hashes, last);
    }
  }

  lemma StepReportsTruly(setup: Setup, steps: seq<Step>, l: u32, hashes: nat -> Hash, step: Step)
    requires forall n: nat :: hashes(n) == Positions(setup.archive(l))
    requires After(setup, steps).Some? && AllOnLedger(setup.archive, After(setup, steps).value, l, hashes)
    ensures ReportedBy(setup, After(setup, steps).value, step) == {}
  {
    if step.Work? && step.action.Offer? && CanStep(setup, After(setup, steps).value, step) {
      ReportsTruly(setup, steps, l, hashes, step.r, step.w);
    }
  }

  // ------------------------------------- the condition cannot be relaxed

  /** A refused first event is lost by a run that returns Ok, without any false positive. */
  lemma RefusedFirstIsLost(setup: Setup, l: u32, k: Key) returns (steps: seq<Step>)
    requires HasKey(setup.archive(l), k) && !Accepts(setup.policy, Lookup(setup.archive(l), k).value)
    ensures OkRun(setup, steps, 0) && FalselyReported(setup, steps) == {} && !OkRunComplete(setup, steps, 0)
  {
    var hashes := (n: nat) => Positions(setup.archive(l));
    LookupFinds(setup.archive(l), k);
    steps := RunsAlone(setup, l, hashes);
    var batch := Sifted(setup, hashes, l, |setup.archive(l)|).batch;
    RefusedFirstBlocksKey(setup, hashes, l, k, |setup.archive(l)|);
    InsertAddsFirstOfEachKey(map[], batch);
    assert !Stored(setup.archive, Left(batch, l).sink, l);
    AloneIsOk(setup, steps, l, hashes, Left(batch, l), Sifted(setup, hashes, l, |setup.archive(l)|).session);
    LedgerReportsTruly(setup, steps, l, hashes);
  }

  /**
   * Every run that returns Ok has stored its whole range, in all schedules without
   * false positives, if and only if the guard accepts the first event of every key.
   */
  lemma OkRunsAreCompleteIffFirstsAccepted(setup: Setup)
    requires KeysNameLedgers(setup.archive) && (setup.policy.contentDedup ==> ContentsNameKeys(setup.archive))
    ensures OkRunsAreComplete(setup) <==> FirstsAccepted(setup)
  {
    if FirstsAccepted(setup) {
      AcceptedRunsAreComplete(setup);
    } else {
      var k :| RefusedFirst(setup, k);
      var l: u32 :| HasKey(setup.archive(l), k) && !Accepts(setup.policy, Lookup(setup.archive(l), k).value);
      var steps := RefusedFirstIsLost(setup, l, k);
    }
  }
}
