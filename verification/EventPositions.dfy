/**
 * Which events of a ledger are emitted, and under which numbers (src/backfill.rs,
 * `events_from_ledger`), said of the position of each event in the ledger alone.
 */
module EventPositions {
  import opened Options
  import opened Numerals
  import opened LedgerFiles
  import opened EventIds

  /**
   * Where a raw event stands: transaction, list and place in the list, all counted
   * from 0. The lists of a V4 transaction are its operations and then its
   * transaction-level events; a V3 transaction has one list.
   */
  datatype Place = Place(tx: nat, group: nat, j: nat)

  function Groups(tx: Tx): nat {
    match tx.meta
    case MetaV3(_) => 1
    case MetaV4(ops, _) => |ops| + 1
    case MetaOther => 0
  }

  /** The raw events of one list of a transaction. */
  function Group(tx: Tx, g: nat): seq<RawEvent>
    requires g < Groups(tx)
  {
    match tx.meta
    case MetaV3(events) => events
    case MetaV4(ops, events) => if g < |ops| then ops[g] else Raw(events)
  }

  function Raw(events: seq<TxEvent>): (raw: seq<RawEvent>)
    ensures |raw| == |events| && forall i :: 0 <= i < |raw| ==> raw[i] == events[i].event
  {
    seq(|events|, i requires 0 <= i < |events| => events[i].event)
  }

  predicate IsPlace(txs: seq<Tx>, p: Place) {
    p.tx < |txs| && p.group < Groups(txs[p.tx]) && p.j < |Group(txs[p.tx], p.group)|
  }

  function EventAt(txs: seq<Tx>, p: Place): RawEvent
    requires IsPlace(txs, p)
  {
    Group(txs[p.tx], p.group)[p.j]
  }

  /** Events of contracts that are not diagnostic. */
  predicate Wanted(e: RawEvent) { e.hasContract && (e.kind == Contract || e.kind == System) }

  predicate IsWanted(txs: seq<Tx>, p: Place) { IsPlace(txs, p) && Wanted(EventAt(txs, p)) }

  predicate Before(p: Place, q: Place) {
    p.tx < q.tx || (p.tx == q.tx && (p.group < q.group || (p.group == q.group && p.j < q.j)))
  }

  /** How many of these events are of the stage. */
  ghost function Count(events: seq<TxEvent>, stage: Stage): nat {
    if |events| == 0 then 0
    else Count(events[..|events| - 1], stage) + if events[|events| - 1].stage == stage then 1 else 0
  }

  /** How many events of the stage the first transactions of the ledger have. */
  ghost function CountBefore(txs: seq<Tx>, i: nat, stage: Stage): nat
    requires i <= |txs|
  {
    if i == 0 then 0
    else CountBefore(txs, i - 1, stage)
         + if txs[i - 1].meta.MetaV4? then Count(txs[i - 1].meta.txEvents, stage) else 0
  }

  /** The three numbers packed into a TOID. */
  ghost predicate Packs(id: nat, ledger: nat, slot: nat, op: nat) {
    id / 0x1_0000_0000 == ledger && id / 0x1000 % 0x10_0000 == slot % 0x10_0000 && id % 0x1000 == op % 0x1000
  }

  /** The numbers of the event at this place. */
  ghost predicate NumberedAs(ledger: u32, txs: seq<Tx>, p: Place, id: nat, k: nat)
    requires IsPlace(txs, p)
  {
    match txs[p.tx].meta
    case MetaV3(_) => Packs(id, ledger, p.tx + 1, 0) && k == p.j
    case MetaV4(ops, events) =>
      if p.group < |ops| then Packs(id, ledger, p.tx + 1, p.group) && k == p.j
      else
        var earlier := Count(events[..p.j], events[p.j].stage);
        match events[p.j].stage
        case BeforeAllTxs => Packs(id, ledger, 0, 0) && k == CountBefore(txs, p.tx, BeforeAllTxs) + earlier
        case AfterAllTxs => Packs(id, ledger, 0xF_FFFF, 0) && k == CountBefore(txs, p.tx, AfterAllTxs) + earlier
        case AfterTx => Packs(id, ledger, p.tx + 1, 0) && k == (if |ops| == 0 then 0 else |ops[0]|) + earlier
  }

  /** What is emitted for the event at this place. */
  ghost predicate EmittedFor(ledger: u32, txs: seq<Tx>, p: Place, e: Emitted) {
    && IsWanted(txs, p) && NumberedAs(ledger, txs, p, e.id, e.k)
    && e.event == EventAt(txs, p) && e.txHash == txs[p.tx].hash && e.success == txs[p.tx].success
  }

  // ------------------------------------------ stretches of the emitted list

  /** The places from `lo` up to `hi` are emitted in their order, each once, and nothing else. */
  ghost predicate Covers(ledger: u32, txs: seq<Tx>, out: seq<Emitted>, places: seq<Place>, lo: Place, hi: Place) {
    && |out| == |places|
    && (forall n :: 0 <= n < |out| ==> EmittedFor(ledger, txs, places[n], out[n]))
    && Ascending(places) && Within(places, lo, hi)
    && (forall p :: IsWanted(txs, p) && !Before(p, lo) && Before(p, hi) ==> p in places)
  }

  lemma Nothing(ledger: u32, txs: seq<Tx>, lo: Place, hi: Place)
    requires forall p :: IsWanted(txs, p) && !Before(p, lo) ==> !Before(p, hi)
    ensures Covers(ledger, txs, [], [], lo, hi)
  {
  }

  lemma BeforeTransitive(p: Place, q: Place, r: Place)
    ensures Before(p, q) && !Before(r, q) ==> Before(p, r)
    ensures !Before(q, p) && !Before(r, q) ==> !Before(r, p)
  {
  }

  ghost predicate Ascending(places: seq<Place>) {
    forall m, n :: 0 <= m < n < |places| ==> Before(places[m], places[n])
  }

  ghost predicate Within(places: seq<Place>, lo: Place, hi: Place) {
    forall n :: 0 <= n < |places| ==> !Before(places[n], lo) && Before(places[n], hi)
  }

  lemma JoinAscending(ps: seq<Place>, qs: seq<Place>, lo: Place, mid: Place, hi: Place)
    requires Ascending(ps) && Ascending(qs) && Within(ps, lo, mid) && Within(qs, mid, hi)
    requires !Before(mid, lo) && !Before(hi, mid)
    ensures Ascending(ps + qs) && Within(ps + qs, lo, hi)
  {
    forall m, n | 0 <= m < n < |ps + qs| ensures Before((ps + qs)[m], (ps + qs)[n]) {
      if m < |ps| <= n {
        BeforeTransitive(ps[m], mid, qs[n - |ps|]);
      }
    }
    forall n | 0 <= n < |ps + qs| ensures !Before((ps + qs)[n], lo) && Before((ps + qs)[n], hi) {
      if n < |ps| {
        BeforeTransitive(ps[n], mid, hi);
      } else {
        BeforeTransitive(lo, mid, qs[n - |ps|]);
      }
    }
  }

  lemma Join(ledger: u32, txs: seq<Tx>, a: seq<Emitted>, ps: seq<Place>, b: seq<Emitted>, qs: seq<Place>,
             lo: Place, mid: Place, hi: Place)
    requires Covers(ledger, txs, a, ps, lo, mid) && Covers(ledger, txs, b, qs, mid, hi)
    requires !Before(mid, lo) && !Before(hi, mid)
    ensures Covers(ledger, txs, a + b, ps + qs, lo, hi)
  {
    JoinAscending(ps, qs, lo, mid, hi);
    forall n | 0 <= n < |a + b| ensures EmittedFor(ledger, txs, (ps + qs)[n], (a + b)[n]) {
      assert if n < |a| then EmittedFor(ledger, txs, ps[n], a[n]) else EmittedFor(ledger, txs, qs[n - |a|], b[n - |a|]);
    }
    forall p | IsWanted(txs, p) && !Before(p, lo) && Before(p, hi) ensures p in ps + qs {
      assert p in ps || p in qs;
    }
  }

  /** One event, emitted if it is wanted. */
  lemma One(ledger: u32, txs: seq<Tx>, p: Place, id: nat, k: nat, out: seq<Emitted>) returns (places: seq<Place>)
    requires IsPlace(txs, p) && NumberedAs(ledger, txs, p, id, k)
    requires var e := EventAt(txs, p);
      out == if e.Kept() then [Emitted(id, k, txs[p.tx].hash, txs[p.tx].success, e)] else []
    ensures Covers(ledger, txs, out, places, p, Place(p.tx, p.group, p.j + 1))
  {
    places := if Wanted(EventAt(txs, p)) then [p] else [];
    forall q | !Before(q, p) && Before(q, Place(p.tx, p.group, p.j + 1)) ensures q == p {
    }
  }

  lemma ToidPacks(ledger: u32, slot: nat, op: nat)
    ensures Packs(Toid(ledger, slot, op), ledger, slot, op)
  {
    UnpackToid(ledger, slot, op);
  }

  // ------------------------------------------------------------- the lists

  /** A list numbered from 0 under the TOID of its transaction and operation. */
  lemma {:induction false} ListCovers(ledger: u32, txs: seq<Tx>, i: nat, g: nat, j: nat, id: nat) returns (places: seq<Place>)
    requires i < |txs| && g < Groups(txs[i]) && j <= |Group(txs[i], g)|
    requires txs[i].meta.MetaV3? || g < |txs[i].meta.operations|
    requires id == Toid(ledger, i + 1, g)
    ensures Covers(ledger, txs, Numbered(txs[i], id, j, Group(txs[i], g)[j..]), places, Place(i, g, j), Place(i, g + 1, 0))
    decreases |Group(txs[i], g)| - j
  {
    var events := Group(txs[i], g);
    if j == |events| {
      places := [];
      Nothing(ledger, txs, Place(i, g, j), Place(i, g + 1, 0));
    } else {
      ToidPacks(ledger, i + 1, g);
      var head := if events[j].Kept() then [Emitted(id, j, txs[i].hash, txs[i].success, events[j])] else [];
      var first := One(ledger, txs, Place(i, g, j), id, j, head);
      var rest := ListCovers(ledger, txs, i, g, j + 1, id);
      assert events[j..][0] == events[j] && events[j..][1..] == events[j + 1..];
      Join(ledger, txs, head, first, Numbered(txs[i], id, j + 1, events[j + 1..]), rest,
           Place(i, g, j), Place(i, g, j + 1), Place(i, g + 1, 0));
      places := first + rest;
    }
  }

  lemma {:induction false} OperationsCover(ledger: u32, txs: seq<Tx>, i: nat, op: nat) returns (places: seq<Place>)
    requires i < |txs| && txs[i].meta.MetaV4? && op <= |txs[i].meta.operations|
    ensures var ops := txs[i].meta.operations;
      Covers(ledger, txs, OperationEvents(ledger, txs[i], i + 1, op, ops[op..]), places, Place(i, op, 0), Place(i, |ops|, 0))
    decreases |txs[i].meta.operations| - op
  {
    var ops := txs[i].meta.operations;
    if op == |ops| {
      places := [];
      Nothing(ledger, txs, Place(i, op, 0), Place(i, |ops|, 0));
    } else {
      var first := ListCovers(ledger, txs, i, op, 0, Toid(ledger, i + 1, op));
      var rest := OperationsCover(ledger, txs, i, op + 1);
      assert ops[op..][0] == ops[op] && ops[op..][1..] == ops[op + 1..] && ops[op][0..] == ops[op];
      Join(ledger, txs, Numbered(txs[i], Toid(ledger, i + 1, op), 0, ops[op]), first,
           OperationEvents(ledger, txs[i], i + 1, op + 1, ops[op + 1..]), rest,
           Place(i, op, 0), Place(i, op + 1, 0), Place(i, |ops|, 0));
      places := first + rest;
    }
  }

  /** The running indices count the events of their stage so far. */
  ghost predicate Counted(txs: seq<Tx>, i: nat, j: nat, c: Counters)
    requires i < |txs| && txs[i].meta.MetaV4? && j <= |txs[i].meta.txEvents|
  {
    var ops, seen := txs[i].meta.operations, txs[i].meta.txEvents[..j];
    && c.before == CountBefore(txs, i, BeforeAllTxs) + Count(seen, BeforeAllTxs)
    && c.after == CountBefore(txs, i, AfterAllTxs) + Count(seen, AfterAllTxs)
    && c.afterTx == (if |ops| == 0 then 0 else |ops[0]|) + Count(seen, AfterTx)
  }

  lemma CountsOneMore(txs: seq<Tx>, i: nat, j: nat, c: Counters)
    requires i < |txs| && txs[i].meta.MetaV4? && j < |txs[i].meta.txEvents| && Counted(txs, i, j, c)
    ensures Counted(txs, i, j + 1, c.Next(txs[i].meta.txEvents[j].stage))
  {
    var events := txs[i].meta.txEvents;
    assert events[..j + 1][..j] == events[..j];
  }

  lemma StageNumbers(ledger: u32, txs: seq<Tx>, i: nat, j: nat, c: Counters)
    requires i < |txs| && txs[i].meta.MetaV4? && j < |txs[i].meta.txEvents| && Counted(txs, i, j, c)
    ensures var stage := txs[i].meta.txEvents[j].stage;
      NumberedAs(ledger, txs, Place(i, |txs[i].meta.operations|, j), StageId(ledger, i + 1, stage), c.Index(stage))
  {
    ToidPacks(ledger, 0, 0);
    ToidPacks(ledger, LAST_SLOT, 0);
    ToidPacks(ledger, i + 1, 0);
  }

  lemma OneNumbered(tx: Tx, id: nat, k: nat, e: RawEvent)
    ensures Numbered(tx, id, k, [e]) == if e.Kept() then [Emitted(id, k, tx.hash, tx.success, e)] else []
  {
    assert [e][1..] == [] && Numbered(tx, id, k + 1, []) == [];
  }

  lemma {:induction false} TransactionEventsCover(ledger: u32, txs: seq<Tx>, i: nat, j: nat, c: Counters)
    returns (places: seq<Place>)
    requires i < |txs| && txs[i].meta.MetaV4? && j <= |txs[i].meta.txEvents| && Counted(txs, i, j, c)
    ensures var g, events := |txs[i].meta.operations|, txs[i].meta.txEvents;
      Covers(ledger, txs, TransactionEvents(ledger, txs[i], i + 1, events[j..], c), places, Place(i, g, j), Place(i + 1, 0, 0))
    ensures Counted(txs, i, |txs[i].meta.txEvents|, CountersAfter(txs[i].meta.txEvents[j..], c))
    decreases |txs[i].meta.txEvents| - j
  {
    var g, events := |txs[i].meta.operations|, txs[i].meta.txEvents;
    if j == |events| {
      places := [];
      Nothing(ledger, txs, Place(i, g, j), Place(i + 1, 0, 0));
    } else {
      var stage := events[j].stage;
      StageNumbers(ledger, txs, i, j, c);
      CountsOneMore(txs, i, j, c);
      var head := Numbered(txs[i], StageId(ledger, i + 1, stage), c.Index(stage), [events[j].event]);
      OneNumbered(txs[i], StageId(ledger, i + 1, stage), c.Index(stage), events[j].event);
      var first := One(ledger, txs, Place(i, g, j), StageId(ledger, i + 1, stage), c.Index(stage), head);
      var rest := TransactionEventsCover(ledger, txs, i, j + 1, c.Next(stage));
      assert events[j..][0] == events[j] && events[j..][1..] == events[j + 1..];
      Join(ledger, txs, head, first, TransactionEvents(ledger, txs[i], i + 1, events[j + 1..], c.Next(stage)), rest,
           Place(i, g, j), Place(i, g, j + 1), Place(i + 1, 0, 0));
      places := first + rest;
    }
  }

  // ------------------------------------------------------ the whole ledger

  lemma TxCovers(ledger: u32, txs: seq<Tx>, i: nat, before: nat, after: nat) returns (places: seq<Place>)
    requires i < |txs|
    requires before == CountBefore(txs, i, BeforeAllTxs) && after == CountBefore(txs, i, AfterAllTxs)
    ensures Covers(ledger, txs, EventsOfTx(ledger, txs[i], i + 1, before, after), places, Place(i, 0, 0), Place(i + 1, 0, 0))
    ensures var c := LedgerCounters(txs[i], before, after);
      c.before == CountBefore(txs, i + 1, BeforeAllTxs) && c.after == CountBefore(txs, i + 1, AfterAllTxs)
  {
    match txs[i].meta
    case MetaV3(events) =>
      places := ListCovers(ledger, txs, i, 0, 0, Toid(ledger, i + 1, 0));
      assert events[0..] == events;
      Nothing(ledger, txs, Place(i, 1, 0), Place(i + 1, 0, 0));
      Join(ledger, txs, Numbered(txs[i], Toid(ledger, i + 1, 0), 0, events), places, [], [],
           Place(i, 0, 0), Place(i, 1, 0), Place(i + 1, 0, 0));
      assert places + [] == places;
      assert EventsOfTx(ledger, txs[i], i + 1, before, after) + [] == EventsOfTx(ledger, txs[i], i + 1, before, after);
    case MetaV4(ops, events) =>
      var c := Counters(before, after, FirstOperationCount(ops));
      assert Counted(txs, i, 0, c);
      var first := OperationsCover(ledger, txs, i, 0);
      var rest := TransactionEventsCover(ledger, txs, i, 0, c);
      assert ops[0..] == ops && events[0..] == events && events[..|events|] == events;
      Join(ledger, txs, OperationEvents(ledger, txs[i], i + 1, 0, ops), first,
           TransactionEvents(ledger, txs[i], i + 1, events, c), rest,
           Place(i, 0, 0), Place(i, |ops|, 0), Place(i + 1, 0, 0));
      places := first + rest;
    case MetaOther =>
      places := [];
      Nothing(ledger, txs, Place(i, 0, 0), Place(i + 1, 0, 0));
  }

  lemma {:induction false} LedgerCovers(ledger: u32, txs: seq<Tx>, i: nat, before: nat, after: nat) returns (places: seq<Place>)
    requires i <= |txs|
    requires before == CountBefore(txs, i, BeforeAllTxs) && after == CountBefore(txs, i, AfterAllTxs)
    ensures Covers(ledger, txs, EventsFrom(ledger, txs, i, before, after), places, Place(i, 0, 0), Place(|txs|, 0, 0))
    decreases |txs| - i
  {
    if i == |txs| {
      places := [];
      Nothing(ledger, txs, Place(i, 0, 0), Place(|txs|, 0, 0));
    } else {
      var c := LedgerCounters(txs[i], before, after);
      var first := TxCovers(ledger, txs, i, before, after);
      var rest := LedgerCovers(ledger, txs, i + 1, c.before, c.after);
      Join(ledger, txs, EventsOfTx(ledger, txs[i], i + 1, before, after), first,
           EventsFrom(ledger, txs, i + 1, c.before, c.after), rest,
           Place(i, 0, 0), Place(i + 1, 0, 0), Place(|txs|, 0, 0));
      places := first + rest;
    }
  }

  /**
   * The events of a ledger are exactly the wanted ones, in the order of their places,
   * each once and under the numbers its place gives it.
   */
  lemma EmittedByPlace(ledger: u32, txs: seq<Tx>) returns (places: seq<Place>)
    ensures var out := LedgerEvents(Soroban(ledger, txs));
      && |places| == |out|
      && (forall n :: 0 <= n < |out| ==> EmittedFor(ledger, txs, places[n], out[n]))
      && Ascending(places)
      && (forall p :: IsWanted(txs, p) ==> p in places)
  {
    places := LedgerCovers(ledger, txs, 0, 0, 0);
  }
}
