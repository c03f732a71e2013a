/**
 * Numbering of contract events inside a ledger (src/backfill.rs,
 * `events_from_ledger`) and the text ids it produces, which src/toid.rs parses.
 */
module EventIds {
  import opened Options
  import opened Numerals
  import opened LedgerFiles

  datatype Kind = Contract | System | Diagnostic

  /** A raw event; `payload` stands for its topics and data. */
  datatype RawEvent = RawEvent(hasContract: bool, kind: Kind, payload: nat) {
    predicate Kept() { hasContract && !kind.Diagnostic? }
  }

  datatype Stage = BeforeAllTxs | AfterAllTxs | AfterTx

  datatype TxEvent = TxEvent(stage: Stage, event: RawEvent)

  datatype TxMeta =
    | MetaV3(sorobanEvents: seq<RawEvent>)
    | MetaV4(operations: seq<seq<RawEvent>>, txEvents: seq<TxEvent>)
    | MetaOther

  datatype Tx = Tx(hash: nat, success: bool, meta: TxMeta)

  datatype LedgerMeta = PreSoroban(seqNo: u32) | Soroban(seqNo: u32, txs: seq<Tx>)

  /** A stored event: its TOID, its index under that TOID, and what it came from. */
  datatype Emitted = Emitted(id: nat, k: nat, txHash: nat, success: bool, event: RawEvent)

  const TX_SLOTS := 0x10_0000
  const LAST_SLOT := 0xF_FFFF
  const OP_SLOTS := 0x1000

  /** `ledger << 32 | (slot & 0xFFFFF) << 12 | (op & 0xFFF)`; the bit fields do not overlap. */
  function Toid(ledger: u32, slot: nat, op: nat): nat {
    ledger * 0x1_0000_0000 + slot % TX_SLOTS * OP_SLOTS + op % OP_SLOTS
  }

  function LedgerOf(id: nat): nat { id / 0x1_0000_0000 }
  function SlotOf(id: nat): nat { id / OP_SLOTS % TX_SLOTS }
  function OpOf(id: nat): nat { id % OP_SLOTS }

  lemma UnpackToid(ledger: u32, slot: nat, op: nat)
    ensures LedgerOf(Toid(ledger, slot, op)) == ledger
    ensures SlotOf(Toid(ledger, slot, op)) == slot % TX_SLOTS
    ensures OpOf(Toid(ledger, slot, op)) == op % OP_SLOTS
  {
    var s, o := slot % TX_SLOTS, op % OP_SLOTS;
    var id := Toid(ledger, slot, op);
    assert id / OP_SLOTS == ledger * TX_SLOTS + s;
  }

  // ------------------------------------------------------ specification

  /** Events of one list under one TOID, numbered from `k`; skipped events use up a number. */
  function Numbered(tx: Tx, id: nat, k: nat, events: seq<RawEvent>): seq<Emitted>
    decreases |events|
  {
    if |events| == 0 then []
    else (if events[0].Kept() then [Emitted(id, k, tx.hash, tx.success, events[0])] else [])
         + Numbered(tx, id, k + 1, events[1..])
  }

  function OperationEvents(ledger: u32, tx: Tx, order: nat, op: nat, ops: seq<seq<RawEvent>>): seq<Emitted>
    decreases |ops|
  {
    if |ops| == 0 then []
    else Numbered(tx, Toid(ledger, order, op), 0, ops[0]) + OperationEvents(ledger, tx, order, op + 1, ops[1..])
  }

  /** The running indices: two ledger-wide ones and the one of the current transaction. */
  datatype Counters = Counters(before: nat, after: nat, afterTx: nat) {
    function Next(stage: Stage): Counters {
      match stage
      case BeforeAllTxs => this.(before := before + 1)
      case AfterAllTxs => this.(after := after + 1)
      case AfterTx => this.(afterTx := afterTx + 1)
    }

    function Index(stage: Stage): nat {
      match stage
      case BeforeAllTxs => before
      case AfterAllTxs => after
      case AfterTx => afterTx
    }
  }

  function StageId(ledger: u32, order: nat, stage: Stage): nat {
    match stage
    case BeforeAllTxs => Toid(ledger, 0, 0)
    case AfterAllTxs => Toid(ledger, LAST_SLOT, 0)
    case AfterTx => Toid(ledger, order, 0)
  }

  function TransactionEvents(ledger: u32, tx: Tx, order: nat, events: seq<TxEvent>, c: Counters): seq<Emitted> {
    if |events| == 0 then []
    else
      Numbered(tx, StageId(ledger, order, events[0].stage), c.Index(events[0].stage), [events[0].event])
      + TransactionEvents(ledger, tx, order, events[1..], c.Next(events[0].stage))
  }

  function CountersAfter(events: seq<TxEvent>, c: Counters): (d: Counters)
    ensures c.before <= d.before && c.after <= d.after && c.afterTx <= d.afterTx
  {
    if |events| == 0 then c else CountersAfter(events[1..], c.Next(events[0].stage))
  }

  function FirstOperationCount(ops: seq<seq<RawEvent>>): nat {
    if |ops| == 0 then 0 else |ops[0]|
  }

  function EventsOfTx(ledger: u32, tx: Tx, order: nat, before: nat, after: nat): seq<Emitted> {
    match tx.meta
    case MetaV3(events) => Numbered(tx, Toid(ledger, order, 0), 0, events)
    case MetaV4(ops, events) =>
      OperationEvents(ledger, tx, order, 0, ops)
      + TransactionEvents(ledger, tx, order, events, Counters(before, after, FirstOperationCount(ops)))
    case MetaOther => []
  }

  function LedgerCounters(tx: Tx, before: nat, after: nat): (c: Counters)
    ensures before <= c.before && after <= c.after
  {
    match tx.meta
    case MetaV4(ops, events) => CountersAfter(events, Counters(before, after, FirstOperationCount(ops)))
    case _ => Counters(before, after, 0)
  }

  /** Events of the transactions from the `i`-th on (0-based; TOID orders are 1-based). */
  function EventsFrom(ledger: u32, txs: seq<Tx>, i: nat, before: nat, after: nat): seq<Emitted>
    requires i <= |txs|
    decreases |txs| - i
  {
    if i == |txs| then []
    else
      var c := LedgerCounters(txs[i], before, after);
      EventsOfTx(ledger, txs[i], i + 1, before, after) + EventsFrom(ledger, txs, i + 1, c.before, c.after)
  }

  function LedgerEvents(meta: LedgerMeta): seq<Emitted> {
    match meta
    case PreSoroban(_) => []
    case Soroban(seqNo, txs) => EventsFrom(seqNo, txs, 0, 0, 0)
  }

  // ------------------------------------------------------------ the code

  /** The `push` closure applied to a whole list. */
  method PushAll(out: seq<Emitted>, tx: Tx, id: nat, first: nat, events: seq<RawEvent>) returns (r: seq<Emitted>)
    ensures r == out + Numbered(tx, id, first, events)
  {
    r := out;
    for k := 0 to |events|
      invariant r + Numbered(tx, id, first + k, events[k..]) == out + Numbered(tx, id, first, events)
    {
      assert events[k..][0] == events[k] && events[k..][1..] == events[k + 1..];
      if events[k].Kept() {
        r := r + [Emitted(id, first + k, tx.hash, tx.success, events[k])];
      }
    }
    assert events[|events|..] == [];
  }

  lemma Regroup(a: seq<Emitted>, b: seq<Emitted>, c: seq<Emitted>)
    ensures (a + b) + c == a + (b + c)
  {
  }

  /** `events_from_ledger`. */
  method EventsFromLedger(meta: LedgerMeta) returns (out: seq<Emitted>)
    ensures out == LedgerEvents(meta)
  {
    out := [];
    if meta.PreSoroban? {
      return;
    }
    var ledger, txs := meta.seqNo, meta.txs;
    var beforeAll, afterAll := 0, 0;
    for i := 0 to |txs|
      invariant out + EventsFrom(ledger, txs, i, beforeAll, afterAll) == LedgerEvents(meta)
    {
      ghost var sofar := out;
      ghost var own := EventsOfTx(ledger, txs[i], i + 1, beforeAll, afterAll);
      out, beforeAll, afterAll := PushTx(out, ledger, txs[i], i + 1, beforeAll, afterAll);
      Regroup(sofar, own, EventsFrom(ledger, txs, i + 1, beforeAll, afterAll));
    }
  }

  method PushTx(out: seq<Emitted>, ledger: u32, tx: Tx, order: nat, before: nat, after: nat)
    returns (r: seq<Emitted>, beforeAll: nat, afterAll: nat)
    ensures r == out + EventsOfTx(ledger, tx, order, before, after)
    ensures var c := LedgerCounters(tx, before, after); beforeAll == c.before && afterAll == c.after
  {
    r, beforeAll, afterAll := out, before, after;
    match tx.meta
    case MetaV3(events) =>
      r := PushAll(out, tx, Toid(ledger, order, 0), 0, events);
    case MetaV4(ops, events) =>
      r := PushOperations(out, ledger, tx, order, ops);
      var c;
      r, c := PushTransactionEvents(r, ledger, tx, order, events,
                                    Counters(before, after, if |ops| > 0 then |ops[0]| else 0));
      beforeAll, afterAll := c.before, c.after;
    case MetaOther =>
  }

  method PushOperations(out: seq<Emitted>, ledger: u32, tx: Tx, order: nat, ops: seq<seq<RawEvent>>)
    returns (r: seq<Emitted>)
    ensures r == out + OperationEvents(ledger, tx, order, 0, ops)
  {
    r := out;
    for op := 0 to |ops|
      invariant r + OperationEvents(ledger, tx, order, op, ops[op..]) == out + OperationEvents(ledger, tx, order, 0, ops)
    {
      assert ops[op..][0] == ops[op] && ops[op..][1..] == ops[op + 1..];
      ghost var sofar := r;
      r := PushAll(r, tx, Toid(ledger, order, op), 0, ops[op]);
      assert r + OperationEvents(ledger, tx, order, op + 1, ops[op + 1..])
          == sofar + OperationEvents(ledger, tx, order, op, ops[op..]);
    }
    assert ops[|ops|..] == [];
  }

  lemma NextEvent(sofar: seq<Emitted>, ledger: u32, tx: Tx, order: nat, events: seq<TxEvent>, c: Counters)
    requires events != []
    ensures sofar + TransactionEvents(ledger, tx, order, events, c)
         == sofar + Numbered(tx, StageId(ledger, order, events[0].stage), c.Index(events[0].stage), [events[0].event])
            + TransactionEvents(ledger, tx, order, events[1..], c.Next(events[0].stage))
  {
  }

  method PushTransactionEvents(out: seq<Emitted>, ledger: u32, tx: Tx, order: nat, events: seq<TxEvent>, start: Counters)
    returns (r: seq<Emitted>, c: Counters)
    ensures r == out + TransactionEvents(ledger, tx, order, events, start)
    ensures c == CountersAfter(events, start)
  {
    r, c := out, start;
    for j := 0 to |events|
      invariant r + TransactionEvents(ledger, tx, order, events[j..], c)
             == out + TransactionEvents(ledger, tx, order, events, start)
      invariant CountersAfter(events[j..], c) == CountersAfter(events, start)
    {
      assert events[j..][0] == events[j] && events[j..][1..] == events[j + 1..];
      ghost var sofar, c0 := r, c;
      match events[j].stage
      case BeforeAllTxs =>
        r := PushAll(r, tx, Toid(ledger, 0, 0), c.before, [events[j].event]);
        c := c.(before := c.before + 1);
      case AfterAllTxs =>
        r := PushAll(r, tx, Toid(ledger, LAST_SLOT, 0), c.after, [events[j].event]);
        c := c.(after := c.after + 1);
      case AfterTx =>
        r := PushAll(r, tx, Toid(ledger, order, 0), c.afterTx, [events[j].event]);
        c := c.(afterTx := c.afterTx + 1);
      assert c == c0.Next(events[j].stage)
        && r == sofar + Numbered(tx, StageId(ledger, order, events[j].stage), c0.Index(events[j].stage), [events[j].event]);
      NextEvent(sofar, ledger, tx, order, events[j..], c0);
    }
    assert events[|events|..] == [];
  }

  // ---------------------------------------------------------- uniqueness

  /** No two of these events share TOID and index. */
  ghost predicate Distinct(es: seq<Emitted>) {
    forall i, j :: 0 <= i < j < |es| ==> es[i].id != es[j].id || es[i].k != es[j].k
  }

  /** Every event of `es` sits under this TOID with an index in the range. */
  ghost predicate Under(es: seq<Emitted>, id: nat, lo: nat, hi: nat) {
    forall i :: 0 <= i < |es| ==> es[i].id == id && lo <= es[i].k < hi
  }

  lemma {:induction false} NumberedDistinct(tx: Tx, id: nat, k: nat, events: seq<RawEvent>)
    ensures Distinct(Numbered(tx, id, k, events))
    ensures Under(Numbered(tx, id, k, events), id, k, k + |events|)
    decreases |events|
  {
    if events != [] {
      NumberedDistinct(tx, id, k + 1, events[1..]);
    }
  }

  /** Where an event of a ledger may sit relative to the slots and the running indices. */
  ghost predicate Placed(e: Emitted, order: nat, lo: Counters, hi: Counters) {
    || (e.id % OP_SLOTS == 0 && SlotOf(e.id) == 0 && lo.before <= e.k < hi.before)
    || (e.id % OP_SLOTS == 0 && SlotOf(e.id) == LAST_SLOT && lo.after <= e.k < hi.after)
    || (e.id % OP_SLOTS == 0 && SlotOf(e.id) == order && lo.afterTx <= e.k < hi.afterTx)
  }

  lemma {:induction false} TransactionEventsDistinct(ledger: u32, tx: Tx, order: nat, events: seq<TxEvent>, c: Counters)
    requires 0 < order < LAST_SLOT
    ensures var es := TransactionEvents(ledger, tx, order, events, c);
      Distinct(es) && forall i :: 0 <= i < |es| ==>
        LedgerOf(es[i].id) == ledger && Placed(es[i], order, c, CountersAfter(events, c))
  {
    if events != [] {
      var stage := events[0].stage;
      TransactionEventsDistinct(ledger, tx, order, events[1..], c.Next(stage));
      var head := Numbered(tx, StageId(ledger, order, stage), c.Index(stage), [events[0].event]);
      NumberedDistinct(tx, StageId(ledger, order, stage), c.Index(stage), [events[0].event]);
      UnpackToid(ledger, 0, 0);
      UnpackToid(ledger, LAST_SLOT, 0);
      UnpackToid(ledger, order, 0);
    }
  }

  lemma {:induction false} OperationEventsDistinct(ledger: u32, tx: Tx, order: nat, op: nat, ops: seq<seq<RawEvent>>)
    requires 0 < order < LAST_SLOT && op + |ops| <= OP_SLOTS
    ensures var es := OperationEvents(ledger, tx, order, op, ops);
      Distinct(es) && forall i :: 0 <= i < |es| ==>
        LedgerOf(es[i].id) == ledger && SlotOf(es[i].id) == order && op <= OpOf(es[i].id)
        && (OpOf(es[i].id) == op ==> es[i].k < |ops[0]|)
    decreases |ops|
  {
    if ops != [] {
      OperationEventsDistinct(ledger, tx, order, op + 1, ops[1..]);
      NumberedDistinct(tx, Toid(ledger, order, op), 0, ops[0]);
      UnpackToid(ledger, order, op);
    }
  }

  /** Events of one transaction: its own slot, or a ledger-wide slot within its share of the indices. */
  ghost predicate PlacedInTx(e: Emitted, order: nat, before: nat, after: nat, c: Counters) {
    || SlotOf(e.id) == order
    || (OpOf(e.id) == 0 && SlotOf(e.id) == 0 && before <= e.k < c.before)
    || (OpOf(e.id) == 0 && SlotOf(e.id) == LAST_SLOT && after <= e.k < c.after)
  }

  ghost predicate TxFits(tx: Tx) {
    tx.meta.MetaV4? ==> |tx.meta.operations| <= OP_SLOTS
  }

  lemma EventsOfTxDistinct(ledger: u32, tx: Tx, order: nat, before: nat, after: nat)
    requires 0 < order < LAST_SLOT && TxFits(tx)
    ensures var es := EventsOfTx(ledger, tx, order, before, after);
      Distinct(es) && forall i :: 0 <= i < |es| ==>
        LedgerOf(es[i].id) == ledger && PlacedInTx(es[i], order, before, after, LedgerCounters(tx, before, after))
  {
    match tx.meta
    case MetaV3(events) =>
      NumberedDistinct(tx, Toid(ledger, order, 0), 0, events);
      UnpackToid(ledger, order, 0);
    case MetaV4(ops, events) =>
      OperationEventsDistinct(ledger, tx, order, 0, ops);
      TransactionEventsDistinct(ledger, tx, order, events, Counters(before, after, FirstOperationCount(ops)));
    case MetaOther =>
  }

  /** Events of the transactions after the first `i` of `n`. */
  ghost predicate PlacedLater(e: Emitted, i: nat, n: nat, before: nat, after: nat) {
    || i < SlotOf(e.id) <= n
    || (OpOf(e.id) == 0 && SlotOf(e.id) == 0 && before <= e.k)
    || (OpOf(e.id) == 0 && SlotOf(e.id) == LAST_SLOT && after <= e.k)
  }

  ghost predicate Later(es: seq<Emitted>, ledger: u32, i: nat, n: nat, before: nat, after: nat) {
    forall j :: 0 <= j < |es| ==> LedgerOf(es[j].id) == ledger && PlacedLater(es[j], i, n, before, after)
  }

  /** The events of one transaction never collide with those of a later one. */
  lemma TxThenLater(head: seq<Emitted>, rest: seq<Emitted>, ledger: u32, i: nat, n: nat, before: nat, after: nat, c: Counters)
    requires i < n < LAST_SLOT && before <= c.before && after <= c.after
    requires Distinct(head) && Distinct(rest)
    requires forall j :: 0 <= j < |head| ==>
      LedgerOf(head[j].id) == ledger && PlacedInTx(head[j], i + 1, before, after, c)
    requires Later(rest, ledger, i + 1, n, c.before, c.after)
    ensures Distinct(head + rest) && Later(head + rest, ledger, i, n, before, after)
  {
    forall a, b | 0 <= a < |head| && 0 <= b < |rest|
      ensures head[a].id != rest[b].id || head[a].k != rest[b].k
    {
      assert PlacedInTx(head[a], i + 1, before, after, c);
      assert PlacedLater(rest[b], i + 1, n, c.before, c.after);
    }
  }

  lemma {:induction false} EventsFromDistinct(ledger: u32, txs: seq<Tx>, i: nat, before: nat, after: nat)
    requires i <= |txs| < LAST_SLOT && forall t :: t in txs ==> TxFits(t)
    ensures Distinct(EventsFrom(ledger, txs, i, before, after))
    ensures Later(EventsFrom(ledger, txs, i, before, after), ledger, i, |txs|, before, after)
    decreases |txs| - i
  {
    if i < |txs| {
      var c := LedgerCounters(txs[i], before, after);
      EventsOfTxDistinct(ledger, txs[i], i + 1, before, after);
      EventsFromDistinct(ledger, txs, i + 1, c.before, c.after);
      TxThenLater(EventsOfTx(ledger, txs[i], i + 1, before, after),
                  EventsFrom(ledger, txs, i + 1, c.before, c.after), ledger, i, |txs|, before, after, c);
    }
  }

  /** Fewer than 0xFFFFF transactions, of at most 4096 operations each. */
  ghost predicate Fits(meta: LedgerMeta) {
    meta.Soroban? ==> |meta.txs| < LAST_SLOT && forall t :: t in meta.txs ==> TxFits(t)
  }

  // ------------------------------------------------------------- text ids

  /** The `rpc_id` text of an event. */
  function RpcId(id: nat, k: nat): string { Padded(19, id) + "-" + Padded(10, k) }

  datatype Ordinal = Ordinal(ledger: nat, txIndex: nat, opIndex: nat, eventIndex: int)

  /** `parse_event_id` of src/toid.rs: a u64 TOID, a dash, and an i32 index. */
  function ParseEventId(text: string): Option<Ordinal> {
    match SplitOnce(text, '-')
    case None => None
    case Some((left, right)) =>
      match (ParseUnsigned(left, 0x1_0000_0000_0000_0000), ParseSigned(right, 0x8000_0000))
      case (Some(id), Some(k)) => Some(Ordinal(LedgerOf(id), SlotOf(id), OpOf(id), k))
      case _ => None
  }

  /** An id text is two numbers around the first dash; the parser gives back the fields of the first, and the second. */
  lemma ParsesExactly(text: string, o: Ordinal)
    ensures ParseEventId(text) == Some(o) <==> exists left: string, right: string, id: nat ::
      && text == left + "-" + right && '-' !in left
      && UnsignedText(left, id) && id < 0x1_0000_0000_0000_0000
      && SignedText(right, o.eventIndex) && -0x8000_0000 <= o.eventIndex < 0x8000_0000
      && o.ledger == id / 0x1_0000_0000 && o.txIndex == id / 0x1000 % 0x10_0000 && o.opIndex == id % 0x1000
  {
    if ParseEventId(text) == Some(o) {
      var halves := SplitOnce(text, '-').value;
      var id := ParseUnsigned(halves.0, 0x1_0000_0000_0000_0000).value;
      ParseUnsignedReads(halves.0, 0x1_0000_0000_0000_0000, id);
      ParseSignedReads(halves.1, 0x8000_0000, o.eventIndex);
      assert text == halves.0 + "-" + halves.1;
    }
    if left: string, right: string, id: nat :|
      && text == left + "-" + right && '-' !in left
      && UnsignedText(left, id) && id < 0x1_0000_0000_0000_0000
      && SignedText(right, o.eventIndex) && -0x8000_0000 <= o.eventIndex < 0x8000_0000
      && o.ledger == id / 0x1_0000_0000 && o.txIndex == id / 0x1000 % 0x10_0000 && o.opIndex == id % 0x1000 {
      SplitOnceFinds(left, '-', right);
      ParseUnsignedReads(left, 0x1_0000_0000_0000_0000, id);
      ParseSignedReads(right, 0x8000_0000, o.eventIndex);
    }
  }

  lemma RpcIdParts(id: nat, k: nat)
    ensures SplitOnce(RpcId(id, k), '-') == Some((Padded(19, id), Padded(10, k)))
    ensures Numeral(Ten, Padded(19, id)) == Some(id) && Numeral(Ten, Padded(10, k)) == Some(k)
  {
    PaddedReads(19, id);
    PaddedReads(10, k);
    assert '-' !in Padded(19, id);
    SplitOnceFinds(Padded(19, id), '-', Padded(10, k));
  }

  /** Distinct (TOID, index) pairs have distinct texts. */
  lemma RpcIdInjective(id: nat, k: nat, id': nat, k': nat)
    requires RpcId(id, k) == RpcId(id', k')
    ensures id == id' && k == k'
  {
    RpcIdParts(id, k);
    RpcIdParts(id', k');
  }

  lemma ParseRpcId(id: nat, k: nat)
    requires id < 0x1_0000_0000_0000_0000
    ensures ParseEventId(RpcId(id, k))
         == if k < 0x8000_0000 then Some(Ordinal(LedgerOf(id), SlotOf(id), OpOf(id), k)) else None
  {
    RpcIdParts(id, k);
    var left, right := Padded(19, id), Padded(10, k);
    assert left[0] != '+' && right[0] != '+' && right[0] != '-';
  }

  /** The parser recovers ledger, transaction, operation and index, as long as the index is an i32. */
  lemma ParseUndoesRpcId(ledger: u32, slot: nat, op: nat, k: nat)
    requires slot < TX_SLOTS && op < OP_SLOTS
    ensures ParseEventId(RpcId(Toid(ledger, slot, op), k))
         == if k < 0x8000_0000 then Some(Ordinal(ledger, slot, op, k)) else None
  {
    ToidUnpacks(ledger, slot, op, Toid(ledger, slot, op));
    ParseRpcId(Toid(ledger, slot, op), k);
  }

  lemma ToidUnpacks(ledger: u32, slot: nat, op: nat, id: nat)
    requires slot < TX_SLOTS && op < OP_SLOTS && id == Toid(ledger, slot, op)
    ensures LedgerOf(id) == ledger && SlotOf(id) == slot && OpOf(id) == op
    ensures id < 0x1_0000_0000_0000_0000
  {
    UnpackToid(ledger, slot, op);
    assert slot % TX_SLOTS == slot && op % OP_SLOTS == op;
  }

  /** No two events of one ledger share a text id. */
  lemma IdsUniqueWithinLedger(meta: LedgerMeta, i: nat, j: nat)
    requires Fits(meta) && i < j < |LedgerEvents(meta)|
    ensures var es := LedgerEvents(meta); RpcId(es[i].id, es[i].k) != RpcId(es[j].id, es[j].k)
  {
    EventsFromDistinct(meta.seqNo, meta.txs, 0, 0, 0);
    var es := LedgerEvents(meta);
    if RpcId(es[i].id, es[i].k) == RpcId(es[j].id, es[j].k) {
      RpcIdInjective(es[i].id, es[i].k, es[j].id, es[j].k);
    }
  }

  /** Events of different ledgers never share a text id, however many transactions they have. */
  lemma IdsUniqueAcrossLedgers(m: LedgerMeta, n: LedgerMeta, i: nat, j: nat)
    requires Fits(m) && Fits(n) && m.seqNo != n.seqNo
    requires i < |LedgerEvents(m)| && j < |LedgerEvents(n)|
    ensures var a, b := LedgerEvents(m)[i], LedgerEvents(n)[j]; RpcId(a.id, a.k) != RpcId(b.id, b.k)
  {
    EventsFromDistinct(m.seqNo, m.txs, 0, 0, 0);
    EventsFromDistinct(n.seqNo, n.txs, 0, 0, 0);
    var a, b := LedgerEvents(m)[i], LedgerEvents(n)[j];
    assert LedgerOf(a.id) == m.seqNo && LedgerOf(b.id) == n.seqNo;
    if RpcId(a.id, a.k) == RpcId(b.id, b.k) {
      RpcIdInjective(a.id, a.k, b.id, b.k);
    }
  }

  const TEN_19 := 10_000_000_000_000_000_000

  lemma TenPowers()
    ensures Range(Ten, 10) == 10_000_000_000 && Range(Ten, 19) == TEN_19
  {
    assert Range(Ten, 5) == 100_000;
    assert Range(Ten, 15) == 1_000_000_000_000_000;
  }

  lemma PaddedOrder(width: nat, m: nat, n: nat)
    requires width > 0 && m < Range(Ten, width) && n < Range(Ten, width)
    ensures |Padded(width, m)| == |Padded(width, n)|
    ensures LexLess(Padded(width, m), Padded(width, n)) <==> m < n
    ensures Padded(width, m) == Padded(width, n) <==> m == n
  {
    PaddedIsFixed(width, m);
    PaddedIsFixed(width, n);
    FixedOrder(Ten, width, m, n, false);
  }

  lemma PairOrder(a: string, x: string, b: string, y: string)
    requires |a| == |b|
    ensures LexLess(a + "-" + x, b + "-" + y) <==> LexLess(a, b) || (a == b && LexLess(x, y))
  {
    assert a + "-" + x == a + ("-" + x) && b + "-" + y == b + ("-" + y);
    if a == b {
      LexSamePrefix(a, "-" + x, "-" + y);
      LexSamePrefix("-", x, y);
      LexIrreflexive(a);
    } else {
      LexLeadingPartDecides(a, "-" + x, b, "-" + y);
    }
  }

  /** Below 10^19 and 10^10 the padded texts sort exactly as the pairs of numbers do. */
  lemma RpcIdsSortAsNumbers(id: nat, k: nat, id': nat, k': nat)
    requires id < TEN_19 && id' < TEN_19 && k < 10_000_000_000 && k' < 10_000_000_000
    ensures LexLess(RpcId(id, k), RpcId(id', k')) <==> id < id' || (id == id' && k < k')
  {
    TenPowers();
    PaddedOrder(19, id, id');
    PaddedOrder(10, k, k');
    PairOrder(Padded(19, id), Padded(10, k), Padded(19, id'), Padded(10, k'));
  }

  const TEN_20 := 100_000_000_000_000_000_000

  lemma TwentyDigits(n: nat)
    requires TEN_19 <= n < TEN_20
    ensures Padded(19, n) == Fixed(Ten, 20, n, false)
    ensures Padded(19, n) == Fixed(Ten, 19, n / 10, false) + [DigitChar(n % 10, false)]
  {
    TenPowers();
    assert Range(Ten, 20) == TEN_20;
    DecimalLength(n, 19);
    DecimalLength(n, 20);
    PaddedIsFixed(20, n);
  }

  /** Two 20-digit TOIDs still sort as numbers do. */
  lemma TwentyDigitsSort(id: nat, k: nat, id': nat, k': nat)
    requires TEN_19 <= id < TEN_20 && TEN_19 <= id' < TEN_20 && k < 10_000_000_000 && k' < 10_000_000_000
    ensures LexLess(RpcId(id, k), RpcId(id', k')) <==> id < id' || (id == id' && k < k')
  {
    TenPowers();
    assert Range(Ten, 20) == TEN_20;
    TwentyDigits(id);
    TwentyDigits(id');
    FixedOrder(Ten, 20, id, id', false);
    PaddedOrder(10, k, k');
    PairOrder(Padded(19, id), Padded(10, k), Padded(19, id'), Padded(10, k'));
  }

  lemma DashBeforeDigit(a: string, x: string, b: string, d: nat, y: string)
    requires |a| == |b| && d < 10
    ensures LexLess(a + "-" + x, b + [DigitChar(d, false)] + y) <==> LexLess(a, b) || a == b
  {
    var c := DigitChar(d, false);
    assert a + "-" + x == a + ("-" + x) && b + [c] + y == b + ([c] + y);
    if a == b {
      LexSamePrefix(a, "-" + x, [c] + y);
      assert SmallerAt("-" + x, [c] + y, 0);
    } else {
      LexLeadingPartDecides(a, "-" + x, b, [c] + y);
    }
  }

  /** A TOID below 10^19 sorts before a 20-digit one exactly when it is at most a tenth of it. */
  lemma AcrossTheBreak(id: nat, k: nat, id': nat, k': nat)
    requires id < TEN_19 <= id' < TEN_20
    ensures LexLess(RpcId(id, k), RpcId(id', k')) <==> id <= id' / 10
  {
    TenPowers();
    PaddedIsFixed(19, id);
    TwentyDigits(id');
    FixedOrder(Ten, 19, id, id' / 10, false);
    assert RpcId(id', k') == Fixed(Ten, 19, id' / 10, false) + [DigitChar(id' % 10, false)] + ("-" + Padded(10, k'));
    DashBeforeDigit(Padded(19, id), Padded(10, k), Fixed(Ten, 19, id' / 10, false), id' % 10, "-" + Padded(10, k'));
  }

  /** The last ledger all of whose TOIDs are below 10^19; it is above 2^31. */
  const LAST_SORTED_LEDGER := 2_328_306_435

  lemma ToidsBelowTen19(ledger: u32, slot: nat, op: nat)
    requires ledger <= LAST_SORTED_LEDGER
    ensures Toid(ledger, slot, op) < TEN_19 && LAST_SORTED_LEDGER >= 0x8000_0000
  {
  }

  /** The texts of two ids are in the order of the numbers. */
  ghost predicate InOrder(id: nat, k: nat, id': nat, k': nat) {
    LexLess(RpcId(id, k), RpcId(id', k')) <==> id < id' || (id == id' && k < k')
  }

  /** All ids of ledgers up to this one sort as numbers do. */
  ghost predicate SortedUpTo(last: u32) {
    forall l: u32, slot: nat, op: nat, k: nat, l': u32, slot': nat, op': nat, k': nat ::
      l <= last && l' <= last && k < 10_000_000_000 && k' < 10_000_000_000 ==>
        InOrder(Toid(l, slot, op), k, Toid(l', slot', op'), k')
  }

  /** In the ledger after that the AfterAllTxs events already sort before those of the first transaction. */
  lemma OrderBreaksInside()
    ensures !InOrder(Toid(LAST_SORTED_LEDGER + 1, 1, 0), 0, Toid(LAST_SORTED_LEDGER + 1, LAST_SLOT, 0), 0)
  {
    AcrossTheBreak(Toid(LAST_SORTED_LEDGER + 1, 1, 0), 0, Toid(LAST_SORTED_LEDGER + 1, LAST_SLOT, 0), 0);
  }

  /** The ids of all ledgers up to `last` sort as numbers do if and only if `last` is at most 2328306435. */
  lemma SortedIffBelowBreak(last: u32)
    ensures SortedUpTo(last) <==> last <= LAST_SORTED_LEDGER
  {
    if last <= LAST_SORTED_LEDGER {
      forall l: u32, slot: nat, op: nat, k: nat, l': u32, slot': nat, op': nat, k': nat |
        l <= last && l' <= last && k < 10_000_000_000 && k' < 10_000_000_000
        ensures InOrder(Toid(l, slot, op), k, Toid(l', slot', op'), k')
      {
        ToidsBelowTen19(l, slot, op);
        ToidsBelowTen19(l', slot', op');
        RpcIdsSortAsNumbers(Toid(l, slot, op), k, Toid(l', slot', op'), k');
      }
    } else {
      OrderBreaksInside();
    }
  }
}
