/**
 * One worker of the historical backfill as a sequence of atomic actions
 * (src/backfill.rs, `load_resume_point`, `save_checkpoint`, `run_range`, with the
 * sink's `store_events` from src/indexer.rs), and what every action keeps.
 */
module BackfillActions {
  import opened Options
  import opened LedgerFiles
  import opened BloomFilter
  import opened EventSink

  /** The events of every ledger, in the order the decoder lists them. */
  type Archive = u32 -> seq<Event>

  datatype Setup = Setup(archive: Archive, policy: Policy)

  /** A checkpoint row; `next` is a signed column. */
  datatype Row = Row(next: int, completed: bool)

  datatype Db = Db(sink: map<Key, Event>, rows: map<Chunk, Row>)

  // ---------------------------------------------------------- checkpoints

  /** `load_resume_point`: nothing when the range is already complete. */
  function ResumePoint(rows: map<Chunk, Row>, range: Chunk): Option<nat> {
    if range !in rows then Some(range.0)
    else if rows[range].completed then None
    else if rows[range].next >= 0 then Some(rows[range].next)
    else Some(range.0)
  }

  /** `save_checkpoint`. */
  function SaveRow(rows: map<Chunk, Row>, range: Chunk, next: nat): map<Chunk, Row> {
    rows[range := Row(next, next > range.1)]
  }

  /** A saved position is where its range resumes, unless it is past the end; other ranges are not affected. */
  lemma ResumeAfterSave(rows: map<Chunk, Row>, range: Chunk, next: nat, other: Chunk)
    ensures ResumePoint(SaveRow(rows, range, next), range) == if next > range.1 then None else Some(next)
    ensures other != range ==> ResumePoint(SaveRow(rows, range, next), other) == ResumePoint(rows, other)
  {
  }

  // ------------------------------------------------------------- workers

  datatype Phase =
    | Waiting
    | LoopHead(next: nat)
    | Reading(next: nat, file: seq<u32>, i: nat)
    | Storing(next: nat, file: seq<u32>, i: nat, j: nat, batch: seq<Event>)
    | Saving(next: nat, newNext: nat)
    | Counting(next: nat, newNext: nat)
    | Succeeded
    | Failed

  /** `resume` and `counted` record where the worker resumed and what it added to the ledger counter. */
  datatype Worker = Worker(range: Chunk, phase: Phase, resume: nat, counted: nat)

  /** A statement commits, fails without effect, or commits while the client sees an error. */
  datatype Outcome = Committed | Lost | CommittedUnseen

  datatype Action =
    | Load(loaded: bool)
    | Fetch(fetched: Option<seq<u32>>)
    | Open(begun: bool)
    | Offer(contentSeen: bool)
    | Break
    | Commit(outcome: Outcome)
    | Save(saved: Outcome)
    | Count
    | Finish

  /** The file of `ledger` holds exactly the ledgers of its bounds, in any order. */
  ghost predicate IsFile(schema: Schema, ledger: u32, file: seq<u32>) {
    forall l: u32 :: l in file <==> InChunk(FileBounds(schema, ledger), l)
  }

  /** A key that was offered to the session filter, and under which ledger. */
  datatype Offered = Offered(key: Key, ledger: u32)

  /**
   * What a worker shares: the database, the session filter of its run with the
   * history of keys offered to it, and, as a history variable, the keys of events
   * that were left out while neither the table nor the transaction held them.
   */
  datatype Scene = Scene(db: Db, session: Session, offered: seq<Offered>, skipped: set<Key>)

  predicate HasKey(events: seq<Event>, k: Key) { Lookup(events, k).Some? }

  ghost predicate CanAct(setup: Setup, schema: Schema, sink: map<Key, Event>, w: Worker, a: Action) {
    match a
    case Load(_) => w.phase.Waiting?
    case Fetch(fetched) =>
      w.phase.LoopHead? && w.phase.next <= w.range.1
      && (fetched.Some? ==> IsFile(schema, w.phase.next, fetched.value))
    case Open(_) => w.phase.Reading? && w.phase.i < |w.phase.file|
    case Offer(contentSeen) =>
      AtEvent(setup, w)
      && (contentSeen ==> setup.policy.contentDedup && SameContentStored(sink, EventAt(setup, w).fingerprint))
    case Break => w.phase.Storing?
    case Commit(_) =>
      w.phase.Storing? && w.phase.i < |w.phase.file| && w.phase.j == |setup.archive(w.phase.file[w.phase.i])|
    case Save(_) => w.phase.Saving?
    case Count => w.phase.Counting? && w.phase.next <= w.phase.newNext
    case Finish =>
      || (w.phase.LoopHead? && w.phase.next > w.range.1)
      || (w.phase.Reading? && w.phase.i == |w.phase.file| && w.phase.next <= w.range.1)
  }

  predicate AtEvent(setup: Setup, w: Worker) {
    w.phase.Storing? && w.phase.i < |w.phase.file| && w.phase.j < |setup.archive(w.phase.file[w.phase.i])|
  }

  function EventAt(setup: Setup, w: Worker): Event
    requires AtEvent(setup, w)
  {
    setup.archive(w.phase.file[w.phase.i])[w.phase.j]
  }

  /** Everything after an action, with what it added to the run's counters. */
  datatype Effect = Effect(scene: Scene, worker: Worker, ledgers: nat, events: nat, unseen: nat)

  function Quiet(x: Scene, w: Worker): Effect { Effect(x, w, 0, 0, 0) }

  /** Growth of the table; never negative (see `InsertAddsFirstOfEachKey`). */
  function Added(before: map<Key, Event>, after: map<Key, Event>): nat {
    if |after| >= |before| then |after| - |before| else 0
  }

  /** One ledger of a file: skipped outside [next, end] or when it has no events, otherwise a transaction begins. */
  function OpenLedger(setup: Setup, x: Scene, w: Worker, begun: bool): Effect
    requires w.phase.Reading? && w.phase.i < |w.phase.file|
  {
    var p := w.phase;
    var ledger := p.file[p.i];
    if ledger < p.next || ledger > w.range.1 || setup.archive(ledger) == [] then
      Quiet(x, w.(phase := Reading(p.next, p.file, p.i + 1)))
    else if begun then Quiet(x, w.(phase := Storing(p.next, p.file, p.i, 0, [])))
    else Quiet(x, w.(phase := Failed))
  }

  /** One event leaves the session filter: it is left out, or joins the transaction. */
  function Take(setup: Setup, x: Scene, w: Worker, session: Session, dropped: bool): Effect
    requires AtEvent(setup, w)
  {
    var p, e := w.phase, EventAt(setup, w);
    var lost := dropped && e.key !in x.db.sink && !HasKey(p.batch, e.key);
    Quiet(Scene(x.db, session, x.offered + [Offered(e.key, p.file[p.i])],
                if lost then x.skipped + {e.key} else x.skipped),
          w.(phase := Storing(p.next, p.file, p.i, p.j + 1, if dropped then p.batch else p.batch + [e])))
  }

  /** One event: dropped by the session filter, the guard or the content check, or else part of the transaction. */
  function OfferEvent(setup: Setup, hashes: nat -> Hash, x: Scene, w: Worker, contentSeen: bool): Effect
    requires AtEvent(setup, w)
  {
    var e := EventAt(setup, w);
    var v := Visit(x.session, hashes, e.key.Text(), w.phase.file[w.phase.i]);
    Take(setup, x, w, v.session, v.duplicate || !Accepts(setup.policy, e) || contentSeen)
  }

  function CommitBatch(x: Scene, w: Worker, outcome: Outcome): Effect
    requires w.phase.Storing?
  {
    var p := w.phase;
    var sink := Insert(x.db.sink, p.batch);
    var added := Added(x.db.sink, sink);
    var written := x.(db := x.db.(sink := sink));
    match outcome
    case Committed => Effect(written, w.(phase := Reading(p.next, p.file, p.i + 1)), 0, added, 0)
    case Lost => Quiet(x, w.(phase := Failed))
    case CommittedUnseen => Effect(written, w.(phase := Failed), 0, 0, added)
  }

  /** One atomic action of `run_range`. */
  function Act(setup: Setup, schema: Schema, hashes: nat -> Hash, x: Scene, w: Worker, a: Action): Effect
    requires CanAct(setup, schema, x.db.sink, w, a)
  {
    match a
    case Load(loaded) =>
      if !loaded then Quiet(x, w.(phase := Failed))
      else
        var resume := ResumePoint(x.db.rows, w.range);
        if resume.None? then Quiet(x, w.(phase := Succeeded, resume := w.range.1 + 1))
        else Quiet(x, w.(phase := LoopHead(resume.value), resume := resume.value))
    case Fetch(fetched) =>
      Quiet(x, w.(phase := if fetched.None? then Failed else Reading(w.phase.next, fetched.value, 0)))
    case Open(begun) => OpenLedger(setup, x, w, begun)
    case Offer(contentSeen) => OfferEvent(setup, hashes, x, w, contentSeen)
    case Break => Quiet(x, w.(phase := Failed))
    case Commit(outcome) => CommitBatch(x, w, outcome)
    case Save(saved) =>
      var written := x.(db := x.db.(rows := SaveRow(x.db.rows, w.range, w.phase.newNext)));
      Quiet(if saved.Lost? then x else written,
            w.(phase := if saved.Committed? then Counting(w.phase.next, w.phase.newNext) else Failed))
    case Count =>
      var processed := w.phase.newNext - w.phase.next;
      Effect(x, w.(phase := LoopHead(w.phase.newNext), counted := w.counted + processed), processed, 0, 0)
    case Finish =>
      if w.phase.LoopHead? then Quiet(x, w.(phase := Succeeded))
      else
        var doneThrough := Min(FileBounds(schema, w.phase.next).1, w.range.1);
        Quiet(x, w.(phase := Saving(w.phase.next, doneThrough + 1)))
  }

  // ------------------------------------------------- soundness of one action

  /** Keys that are stored, or whose events were left out. */
  ghost function Settled(x: Scene): set<Key> { x.db.sink.Keys + x.skipped }

  /** Every event of the ledger has its key in the set. */
  ghost predicate Within(archive: Archive, keys: set<Key>, ledger: u32) {
    forall k :: HasKey(archive(ledger), k) ==> k in keys
  }

  ghost predicate WithinUpTo(archive: Archive, keys: set<Key>, start: nat, next: nat) {
    forall l: u32 :: start <= l < next ==> Within(archive, keys, l)
  }

  /** Every event of the ledger has its key in the table. */
  ghost predicate Stored(archive: Archive, sink: map<Key, Event>, ledger: u32) { Within(archive, sink.Keys, ledger) }

  ghost predicate RowSound(archive: Archive, keys: set<Key>, range: Chunk, row: Row) {
    && range.0 <= row.next <= range.1 + 1
    && (row.completed <==> row.next > range.1)
    && WithinUpTo(archive, keys, range.0, row.next)
  }

  ghost predicate RowsSound(archive: Archive, rows: map<Chunk, Row>, keys: set<Key>) {
    forall c :: c in rows ==> RowSound(archive, keys, c, rows[c])
  }

  /** An event the sink may store, of this ledger and under this key. */
  ghost predicate Storable(setup: Setup, e: Event, ledger: u32) {
    e in setup.archive(ledger) && Accepts(setup.policy, e)
  }

  /** It is moreover the first event of its key, unless an earlier one was left out. */
  ghost predicate FirstOrSkipped(setup: Setup, e: Event, ledger: u32, keys: set<Key>) {
    e.key in keys || Lookup(setup.archive(ledger), e.key) == Some(e)
  }

  /** The open transaction accounts for the events offered so far. */
  ghost predicate BatchSound(setup: Setup, keys: set<Key>, ledger: u32, j: nat, batch: seq<Event>) {
    && j <= |setup.archive(ledger)|
    && (forall e :: e in batch ==> Storable(setup, e, ledger))
    && (forall k :: HasKey(setup.archive(ledger)[..j], k) ==> k in keys || HasKey(batch, k))
    && (forall k :: HasKey(batch, k) ==> FirstOrSkipped(setup, Lookup(batch, k).value, ledger, keys))
  }

  ghost predicate FileSound(archive: Archive, schema: Schema, keys: set<Key>, w: Worker, next: nat, file: seq<u32>, i: nat) {
    && w.range.0 <= w.resume <= next <= w.range.1 && w.counted == next - w.resume && i <= |file|
    && WithinUpTo(archive, keys, w.range.0, next)
    && IsFile(schema, next, file)
    && forall j :: 0 <= j < i && next <= file[j] <= w.range.1 ==> Within(archive, keys, file[j])
  }

  /** The worker's position is backed by settled keys, and its count by its progress. */
  ghost predicate WorkerSound(setup: Setup, schema: Schema, keys: set<Key>, w: Worker) {
    var archive := setup.archive;
    && w.range.0 <= w.range.1
    && match w.phase
       case Waiting => w.counted == 0
       case LoopHead(next) =>
         w.range.0 <= w.resume <= next <= w.range.1 + 1 && w.counted == next - w.resume
         && WithinUpTo(archive, keys, w.range.0, next)
       case Reading(next, file, i) => FileSound(archive, schema, keys, w, next, file, i)
       case Storing(next, file, i, j, batch) =>
         FileSound(archive, schema, keys, w, next, file, i)
         && i < |file| && next <= file[i] <= w.range.1 && BatchSound(setup, keys, file[i], j, batch)
       case Saving(next, newNext) =>
         w.range.0 <= w.resume <= next < newNext <= w.range.1 + 1 && w.counted == next - w.resume
         && WithinUpTo(archive, keys, w.range.0, newNext)
       case Counting(next, newNext) =>
         w.range.0 <= w.resume <= next < newNext <= w.range.1 + 1 && w.counted == next - w.resume
         && WithinUpTo(archive, keys, w.range.0, newNext)
       case Succeeded =>
         w.range.0 <= w.resume <= w.range.1 + 1 && w.counted == w.range.1 + 1 - w.resume
         && WithinUpTo(archive, keys, w.range.0, w.range.1 + 1)
       case Failed => true
  }

  /** The row comes from a ledger of the range. */
  ghost predicate FromRange(setup: Setup, keys: set<Key>, e: Event, range: Chunk) {
    exists l: u32 :: InChunk(range, l) && Storable(setup, e, l) && FirstOrSkipped(setup, e, l, keys)
  }

  /** The table only gained rows, each a storable event of the range under its own key. */
  ghost predicate Grew(setup: Setup, before: map<Key, Event>, after: map<Key, Event>, skipped: set<Key>, range: Chunk) {
    && (forall k :: k in before ==> k in after && after[k] == before[k])
    && (forall k :: k in after && k !in before ==> after[k].key == k && FromRange(setup, skipped, after[k], range))
  }

  lemma WithinMonotone(archive: Archive, keys: set<Key>, more: set<Key>, start: nat, next: nat)
    requires keys <= more && WithinUpTo(archive, keys, start, next)
    ensures WithinUpTo(archive, more, start, next)
  {
    forall l: u32 | start <= l < next ensures Within(archive, more, l) {
      assert Within(archive, keys, l);
    }
  }

  lemma BatchMonotone(setup: Setup, keys: set<Key>, more: set<Key>, ledger: u32, j: nat, batch: seq<Event>)
    requires keys <= more && BatchSound(setup, keys, ledger, j, batch)
    ensures BatchSound(setup, more, ledger, j, batch)
  {
  }

  lemma FileMonotone(archive: Archive, schema: Schema, keys: set<Key>, more: set<Key>, w: Worker, next: nat, file: seq<u32>, i: nat)
    requires keys <= more && FileSound(archive, schema, keys, w, next, file, i)
    ensures FileSound(archive, schema, more, w, next, file, i)
  {
    WithinMonotone(archive, keys, more, w.range.0, next);
    forall l: u32 | Within(archive, keys, l) ensures Within(archive, more, l) {
    }
  }

  lemma SoundMonotone(setup: Setup, schema: Schema, keys: set<Key>, more: set<Key>, w: Worker)
    requires keys <= more && WorkerSound(setup, schema, keys, w)
    ensures WorkerSound(setup, schema, more, w)
  {
    match w.phase
    case LoopHead(next) => WithinMonotone(setup.archive, keys, more, w.range.0, next);
    case Reading(next, file, i) => FileMonotone(setup.archive, schema, keys, more, w, next, file, i);
    case Storing(next, file, i, j, batch) =>
      FileMonotone(setup.archive, schema, keys, more, w, next, file, i);
      BatchMonotone(setup, keys, more, file[i], j, batch);
    case Saving(_, newNext) => WithinMonotone(setup.archive, keys, more, w.range.0, newNext);
    case Counting(_, newNext) => WithinMonotone(setup.archive, keys, more, w.range.0, newNext);
    case Succeeded => WithinMonotone(setup.archive, keys, more, w.range.0, w.range.1 + 1);
    case _ =>
  }

  lemma RowsMonotone(archive: Archive, rows: map<Chunk, Row>, keys: set<Key>, more: set<Key>)
    requires keys <= more && RowsSound(archive, rows, keys)
    ensures RowsSound(archive, rows, more)
  {
    forall c | c in rows ensures RowSound(archive, more, c, rows[c]) {
      assert RowSound(archive, keys, c, rows[c]);
      WithinMonotone(archive, keys, more, c.0, rows[c].next);
    }
  }

  ghost predicate EffectSound(setup: Setup, schema: Schema, x: Scene, w: Worker, y: Effect) {
    && RowsSound(setup.archive, y.scene.db.rows, Settled(y.scene))
    && WorkerSound(setup, schema, Settled(y.scene), y.worker)
    && Grew(setup, x.db.sink, y.scene.db.sink, y.scene.skipped, w.range)
    && x.skipped <= y.scene.skipped
    && y.worker.range == w.range
    && y.worker.counted == w.counted + y.ledgers
    && |y.scene.db.sink| == |x.db.sink| + y.events + y.unseen
    && (forall c :: c != w.range ==> (c in y.scene.db.rows <==> c in x.db.rows))
    && (forall c :: c != w.range && c in x.db.rows ==> y.scene.db.rows[c] == x.db.rows[c])
  }

  lemma FileAdvances(archive: Archive, schema: Schema, keys: set<Key>, w: Worker, next: nat, file: seq<u32>, i: nat)
    requires FileSound(archive, schema, keys, w, next, file, i) && i < |file|
    requires next <= file[i] <= w.range.1 ==> Within(archive, keys, file[i])
    ensures FileSound(archive, schema, keys, w, next, file, i + 1)
  {
  }

  lemma EmptyBatchSound(setup: Setup, keys: set<Key>, ledger: u32)
    ensures BatchSound(setup, keys, ledger, 0, [])
  {
    assert setup.archive(ledger)[..0] == [];
  }

  lemma OpenSound(setup: Setup, schema: Schema, x: Scene, w: Worker, begun: bool)
    requires RowsSound(setup.archive, x.db.rows, Settled(x)) && WorkerSound(setup, schema, Settled(x), w)
    requires w.phase.Reading? && w.phase.i < |w.phase.file|
    ensures EffectSound(setup, schema, x, w, OpenLedger(setup, x, w, begun))
  {
    var p := w.phase;
    var ledger := p.file[p.i];
    if ledger < p.next || ledger > w.range.1 || setup.archive(ledger) == [] {
      FileAdvances(setup.archive, schema, Settled(x), w, p.next, p.file, p.i);
    } else {
      EmptyBatchSound(setup, Settled(x), ledger);
    }
  }

  /** Offering one more event keeps the transaction in step with the ledger. */
  lemma OfferKeepsBatch(setup: Setup, keys: set<Key>, more: set<Key>, ledger: u32, j: nat, batch: seq<Event>, batch': seq<Event>)
    requires BatchSound(setup, keys, ledger, j, batch) && keys <= more && j < |setup.archive(ledger)|
    requires var e := setup.archive(ledger)[j];
      if batch' == batch then e.key in more || HasKey(batch, e.key)
      else batch' == batch + [e] && Accepts(setup.policy, e)
    ensures BatchSound(setup, more, ledger, j + 1, batch')
  {
    var events := setup.archive(ledger);
    var e := events[j];
    assert events[..j + 1] == events[..j] + [e];
    forall k ensures Lookup(events[..j + 1], k) ==
      if Lookup(events[..j], k).Some? then Lookup(events[..j], k) else if e.key == k then Some(e) else None
    {
      LookupSnoc(events[..j], e, k);
    }
    if batch' != batch {
      if !HasKey(batch, e.key) {
        OfferAddsFirst(setup, keys, ledger, j, batch);
      }
      forall k ensures Lookup(batch', k) ==
        if Lookup(batch, k).Some? then Lookup(batch, k) else if e.key == k then Some(e) else None
      {
        LookupSnoc(batch, e, k);
      }
    }
  }

  /** The first event of a key to enter the transaction is the first of the ledger, unless one was left out. */
  lemma OfferAddsFirst(setup: Setup, keys: set<Key>, ledger: u32, j: nat, batch: seq<Event>)
    requires BatchSound(setup, keys, ledger, j, batch) && j < |setup.archive(ledger)|
    requires !HasKey(batch, setup.archive(ledger)[j].key)
    ensures FirstOrSkipped(setup, setup.archive(ledger)[j], ledger, keys)
  {
    var events := setup.archive(ledger);
    var e := events[j];
    if e.key !in keys {
      assert !HasKey(events[..j], e.key);
      FirstIsLookup(events, j);
    }
  }

  lemma TakeSound(setup: Setup, schema: Schema, x: Scene, w: Worker, session: Session, dropped: bool)
    requires RowsSound(setup.archive, x.db.rows, Settled(x)) && WorkerSound(setup, schema, Settled(x), w)
    requires AtEvent(setup, w) && (dropped || Accepts(setup.policy, EventAt(setup, w)))
    ensures EffectSound(setup, schema, x, w, Take(setup, x, w, session, dropped))
  {
    var y := Take(setup, x, w, session, dropped);
    var p := w.phase;
    var keys, more := Settled(x), Settled(y.scene);
    RowsMonotone(setup.archive, x.db.rows, keys, more);
    FileMonotone(setup.archive, schema, keys, more, w, p.next, p.file, p.i);
    OfferKeepsBatch(setup, keys, more, p.file[p.i], p.j, p.batch, y.worker.phase.batch);
  }

  lemma CommitGrows(setup: Setup, x: Scene, range: Chunk, ledger: u32, batch: seq<Event>)
    requires InChunk(range, ledger) && BatchSound(setup, Settled(x), ledger, |setup.archive(ledger)|, batch)
    ensures Grew(setup, x.db.sink, Insert(x.db.sink, batch), x.skipped, range)
    ensures Within(setup.archive, Insert(x.db.sink, batch).Keys + x.skipped, ledger)
  {
    var sink := Insert(x.db.sink, batch);
    InsertAddsFirstOfEachKey(x.db.sink, batch);
    assert setup.archive(ledger)[..|setup.archive(ledger)|] == setup.archive(ledger);
    forall k | k in sink && k !in x.db.sink ensures sink[k].key == k && FromRange(setup, x.skipped, sink[k], range) {
      LookupFinds(batch, k);
      assert FirstOrSkipped(setup, Lookup(batch, k).value, ledger, Settled(x));
      assert InChunk(range, ledger) && Storable(setup, sink[k], ledger);
    }
  }

  lemma CommitSound(setup: Setup, schema: Schema, x: Scene, w: Worker, outcome: Outcome)
    requires RowsSound(setup.archive, x.db.rows, Settled(x)) && WorkerSound(setup, schema, Settled(x), w)
    requires w.phase.Storing? && w.phase.i < |w.phase.file|
    requires w.phase.j == |setup.archive(w.phase.file[w.phase.i])|
    ensures EffectSound(setup, schema, x, w, CommitBatch(x, w, outcome))
  {
    var p := w.phase;
    if !outcome.Lost? {
      var keys, more := Settled(x), Insert(x.db.sink, p.batch).Keys + x.skipped;
      CommitGrows(setup, x, w.range, p.file[p.i], p.batch);
      InsertAddsFirstOfEachKey(x.db.sink, p.batch);
      RowsMonotone(setup.archive, x.db.rows, keys, more);
      FileMonotone(setup.archive, schema, keys, more, w, p.next, p.file, p.i);
      FileAdvances(setup.archive, schema, more, w, p.next, p.file, p.i);
      assert Settled(CommitBatch(x, w, outcome).scene) == more;
    }
  }

  lemma FileDoneSound(setup: Setup, schema: Schema, keys: set<Key>, w: Worker)
    requires WorkerSound(setup, schema, keys, w)
    requires w.phase.Reading? && w.phase.i == |w.phase.file|
    ensures var newNext := Min(FileBounds(schema, w.phase.next).1, w.range.1) + 1;
      w.phase.next < newNext <= w.range.1 + 1 && WithinUpTo(setup.archive, keys, w.range.0, newNext)
  {
    var next := w.phase.next;
    var newNext := Min(FileBounds(schema, next).1, w.range.1) + 1;
    FilesPartitionLedgers(schema, next, next);
    forall l: u32 | next <= l < newNext ensures Within(setup.archive, keys, l) {
      assert InChunk(FileBounds(schema, next), l);
      assert l in w.phase.file;
    }
  }

  lemma LoadSound(setup: Setup, schema: Schema, hashes: nat -> Hash, x: Scene, w: Worker, loaded: bool)
    requires RowsSound(setup.archive, x.db.rows, Settled(x)) && WorkerSound(setup, schema, Settled(x), w)
    requires w.phase.Waiting?
    ensures EffectSound(setup, schema, x, w, Act(setup, schema, hashes, x, w, Load(loaded)))
  {
    if w.range in x.db.rows {
      assert RowSound(setup.archive, Settled(x), w.range, x.db.rows[w.range]);
    }
  }

  lemma RowSaved(archive: Archive, rows: map<Chunk, Row>, keys: set<Key>, range: Chunk, next: nat)
    requires RowsSound(archive, rows, keys) && range.0 <= next <= range.1 + 1 && WithinUpTo(archive, keys, range.0, next)
    ensures RowsSound(archive, SaveRow(rows, range, next), keys)
  {
    assert RowSound(archive, keys, range, Row(next, next > range.1));
    forall c | c in rows ensures RowSound(archive, keys, c, rows[c]) {
    }
  }

  lemma SaveSound(setup: Setup, schema: Schema, hashes: nat -> Hash, x: Scene, w: Worker, saved: Outcome)
    requires RowsSound(setup.archive, x.db.rows, Settled(x)) && WorkerSound(setup, schema, Settled(x), w)
    requires w.phase.Saving?
    ensures EffectSound(setup, schema, x, w, Act(setup, schema, hashes, x, w, Save(saved)))
  {
    RowSaved(setup.archive, x.db.rows, Settled(x), w.range, w.phase.newNext);
    assert Settled(Act(setup, schema, hashes, x, w, Save(saved)).scene) == Settled(x);
  }

  /** Every action keeps rows and worker sound and accounts for what it added and left out. */
  lemma ActSound(setup: Setup, schema: Schema, hashes: nat -> Hash, x: Scene, w: Worker, a: Action)
    requires RowsSound(setup.archive, x.db.rows, Settled(x)) && WorkerSound(setup, schema, Settled(x), w)
    requires CanAct(setup, schema, x.db.sink, w, a)
    ensures EffectSound(setup, schema, x, w, Act(setup, schema, hashes, x, w, a))
  {
    match a
    case Load(loaded) => LoadSound(setup, schema, hashes, x, w, loaded);
    case Open(begun) => OpenSound(setup, schema, x, w, begun);
    case Offer(contentSeen) =>
      var e := EventAt(setup, w);
      var v := Visit(x.session, hashes, e.key.Text(), w.phase.file[w.phase.i]);
      TakeSound(setup, schema, x, w, v.session, v.duplicate || !Accepts(setup.policy, e) || contentSeen);
    case Commit(outcome) => CommitSound(setup, schema, x, w, outcome);
    case Save(saved) => SaveSound(setup, schema, hashes, x, w, saved);
    case Finish =>
      if w.phase.Reading? {
        FileDoneSound(setup, schema, Settled(x), w);
      }
    case _ =>
  }
}
