/**
 * Deployment tracking (src/contract_tracker.rs, `record`): an upsert meant to
 * give the same row whatever order events are replayed in. The exact condition
 * under which it does is proved below.
 */
module ContractTracker {
  import opened Options

  datatype Kind = Created | Updated

  /** A decoded deployment event together with where and when it happened. */
  datatype Deployment = Deployment(kind: Kind, contractId: string, deployer: Option<string>, wasmHash: Option<string>,
                                   ledger: int, at: int, txHash: string)

  datatype Row = Row(deployer: Option<string>, wasmHash: Option<string>,
                     deployedAt: Option<int>, deployedLedger: Option<int>, deployTxHash: Option<string>,
                     updatedAt: int, updatedLedger: int)

  /** SQL's COALESCE of two values. */
  function Coalesce<T>(a: Option<T>, b: Option<T>): Option<T> { if a.Some? then a else b }

  function WhenCreated<T>(d: Deployment, x: T): Option<T> { if d.kind.Created? then Some(x) else None }

  /** The row an insert would write (`EXCLUDED` in the conflict clause). */
  function NewRow(d: Deployment): Row {
    Row(d.deployer, d.wasmHash, WhenCreated(d, d.at), WhenCreated(d, d.ledger), WhenCreated(d, d.txHash), d.at, d.ledger)
  }

  /** The `ON CONFLICT` clause. */
  function Merge(c: Row, x: Row): Row {
    Row(Coalesce(x.deployer, c.deployer),
        if x.updatedLedger >= c.updatedLedger then Coalesce(x.wasmHash, c.wasmHash) else Coalesce(c.wasmHash, x.wasmHash),
        Coalesce(x.deployedAt, c.deployedAt),
        Coalesce(x.deployedLedger, c.deployedLedger),
        Coalesce(x.deployTxHash, c.deployTxHash),
        if x.updatedLedger >= c.updatedLedger then x.updatedAt else c.updatedAt,
        if c.updatedLedger >= x.updatedLedger then c.updatedLedger else x.updatedLedger)
  }

  function Upsert(row: Option<Row>, d: Deployment): Row {
    if row.None? then NewRow(d) else Merge(row.value, NewRow(d))
  }

  /** The row after the events of one contract, in this order. */
  function Replay(ds: seq<Deployment>): Option<Row> {
    if |ds| == 0 then None else Some(Upsert(Replay(ds[..|ds| - 1]), ds[|ds| - 1]))
  }

  lemma ReplaySnoc(ds: seq<Deployment>, d: Deployment)
    ensures Replay(ds + [d]) == Some(Upsert(Replay(ds), d))
  {
    assert (ds + [d])[..|ds|] == ds;
  }

  // ------------------------------------------------------------ the table

  function ForContract(log: seq<Deployment>, id: string): seq<Deployment> {
    if |log| == 0 then []
    else ForContract(log[..|log| - 1], id) + (if log[|log| - 1].contractId == id then [log[|log| - 1]] else [])
  }

  /** Each row is the replay of its own contract's events, and only those contracts have rows. */
  ghost predicate IsTableOf(table: map<string, Row>, log: seq<Deployment>) {
    forall id :: Replay(ForContract(log, id)) == RowOf(table, id)
  }

  function RowOf(table: map<string, Row>, id: string): Option<Row> {
    if id in table then Some(table[id]) else None
  }

  lemma ForContractSnoc(log: seq<Deployment>, d: Deployment, id: string)
    ensures ForContract(log + [d], id) == if d.contractId == id then ForContract(log, id) + [d] else ForContract(log, id)
  {
    assert (log + [d])[..|log|] == log;
    assert d.contractId != id ==> ForContract(log, id) + [] == ForContract(log, id);
  }

  /** Upserting one event keeps every row the replay of its contract's events. */
  lemma TableStep(table: map<string, Row>, log: seq<Deployment>, d: Deployment, table': map<string, Row>)
    requires IsTableOf(table, log) && table' == table[d.contractId := Upsert(RowOf(table, d.contractId), d)]
    ensures IsTableOf(table', log + [d])
  {
    forall id ensures Replay(ForContract(log + [d], id)) == RowOf(table', id) {
      ForContractSnoc(log, d, id);
      assert Replay(ForContract(log, id)) == RowOf(table, id);
      ReplaySnoc(ForContract(log, id), d);
    }
  }

  class Contracts {
    var table: map<string, Row>
    /** Every event recorded so far. */
    ghost var log: seq<Deployment>

    ghost predicate Valid()
      reads this
    {
      IsTableOf(table, log)
    }

    constructor ()
      ensures Valid() && log == [] && table == map[]
    {
      table, log := map[], [];
    }

    /** `record`; returns whether the contract was new. */
    method Record(d: Deployment) returns (inserted: bool)
      requires Valid()
      modifies this
      ensures Valid() && log == old(log) + [d]
      ensures inserted <==> d.contractId !in old(table)
      ensures table.Keys == old(table).Keys + {d.contractId}
      ensures forall id :: id in old(table) && id != d.contractId ==> table[id] == old(table)[id]
    {
      inserted := d.contractId !in table;
      if inserted {
        table := table[d.contractId := NewRow(d)];
      } else {
        table := table[d.contractId := Merge(table[d.contractId], NewRow(d))];
      }
      TableStep(old(table), log, d, table);
      log := log + [d];
    }
  }

  // ------------------------------------------- what every replay satisfies

  ghost function Elements(ds: seq<Deployment>): set<Deployment> { set d | d in ds }

  ghost predicate Top(e: set<Deployment>, d: Deployment) {
    d in e && forall x :: x in e ==> x.ledger <= d.ledger
  }

  ghost predicate TopHashed(e: set<Deployment>) {
    exists d :: Top(e, d) && d.wasmHash.Some?
  }

  ghost predicate TimeExplained(e: set<Deployment>, row: Row) {
    exists d :: Top(e, d) && row.updatedLedger == d.ledger && row.updatedAt == d.at
  }

  ghost predicate DeployerExplained(e: set<Deployment>, row: Row) {
    if row.deployer.None? then forall d :: d in e ==> d.deployer.None?
    else exists d :: d in e && d.deployer == row.deployer
  }

  ghost predicate CreationExplained(e: set<Deployment>, row: Row) {
    if row.deployedAt.None? then
      row.deployedLedger.None? && row.deployTxHash.None? && forall d :: d in e ==> d.kind.Updated?
    else
      exists d :: d in e && d.kind.Created? && row.deployedAt == Some(d.at)
        && row.deployedLedger == Some(d.ledger) && row.deployTxHash == Some(d.txHash)
  }

  ghost predicate HashExplained(e: set<Deployment>, row: Row) {
    if TopHashed(e) then exists d :: Top(e, d) && d.wasmHash.Some? && row.wasmHash == d.wasmHash
    else if row.wasmHash.None? then forall d :: d in e ==> d.wasmHash.None?
    else exists d :: d in e && row.wasmHash == d.wasmHash
  }

  /**
   * The row takes each part from an event entitled to give it: time and, if
   * there is one, hash from an event of the highest ledger; deployer and
   * creation fields from an event that has them.
   */
  ghost predicate Explained(e: set<Deployment>, row: Row) {
    TimeExplained(e, row) && DeployerExplained(e, row) && CreationExplained(e, row) && HashExplained(e, row)
  }

  lemma TopOfExtended(e: set<Deployment>, d: Deployment, x: Deployment)
    requires Top(e, x)
    ensures Top(e + {d}, d) <==> d.ledger >= x.ledger
    ensures d.ledger <= x.ledger ==> Top(e + {d}, x)
    ensures forall y :: Top(e + {d}, y) ==> y == d || Top(e, y)
    ensures d.ledger <= x.ledger ==> forall y :: Top(e, y) ==> Top(e + {d}, y)
    ensures d.ledger > x.ledger ==> forall y :: Top(e + {d}, y) ==> y == d
  {
    forall y | Top(e + {d}, y) && y != d ensures Top(e, y) {
      assert y in e;
    }
  }

  lemma HashStep(e: set<Deployment>, row: Row, d: Deployment, x: Deployment)
    requires Top(e, x) && row.updatedLedger == x.ledger && HashExplained(e, row)
    ensures HashExplained(e + {d}, Upsert(Some(row), d))
  {
    TopOfExtended(e, d, x);
    var row' := Upsert(Some(row), d);
    if d.ledger >= x.ledger && d.wasmHash.Some? {
      assert Top(e + {d}, d) && row'.wasmHash == d.wasmHash;
    } else if d.ledger <= x.ledger && TopHashed(e) {
      var y :| Top(e, y) && y.wasmHash.Some? && row.wasmHash == y.wasmHash;
      assert Top(e + {d}, y) && row'.wasmHash == y.wasmHash;
    } else {
      assert !TopHashed(e + {d});
      if row.wasmHash.Some? {
        var y :| y in e && row.wasmHash == y.wasmHash;
        assert y in e + {d} && row'.wasmHash == y.wasmHash;
      } else if d.wasmHash.Some? {
        assert d in e + {d} && row'.wasmHash == d.wasmHash;
      }
    }
  }

  lemma OtherStep(e: set<Deployment>, row: Row, d: Deployment)
    requires DeployerExplained(e, row) && CreationExplained(e, row)
    ensures DeployerExplained(e + {d}, Upsert(Some(row), d)) && CreationExplained(e + {d}, Upsert(Some(row), d))
  {
    var row' := Upsert(Some(row), d);
    if d.deployer.Some? {
      assert d in e + {d} && d.deployer == row'.deployer;
    } else if row.deployer.Some? {
      var y :| y in e && y.deployer == row.deployer;
      assert y in e + {d} && y.deployer == row'.deployer;
    }
    if d.kind.Created? {
      assert d in e + {d} && row'.deployedAt == Some(d.at);
    } else if row.deployedAt.Some? {
      var y :| y in e && y.kind.Created? && row.deployedAt == Some(y.at)
        && row.deployedLedger == Some(y.ledger) && row.deployTxHash == Some(y.txHash);
      assert y in e + {d};
    }
  }

  /** Every replay, in any order and with any repetitions, ends in an explained row. */
  lemma {:induction false} ReplayExplained(ds: seq<Deployment>)
    requires ds != []
    ensures Replay(ds).Some? && Explained(Elements(ds), Replay(ds).value)
  {
    var d := ds[|ds| - 1];
    var before := ds[..|ds| - 1];
    if before == [] {
      assert Elements(ds) == {d};
      assert Top({d}, d);
    } else {
      ReplayExplained(before);
      var e, row := Elements(before), Replay(before).value;
      assert ds == before + [d];
      assert Elements(ds) == e + {d};
      var x :| Top(e, x) && row.updatedLedger == x.ledger && row.updatedAt == x.at;
      TopOfExtended(e, d, x);
      HashStep(e, row, d, x);
      OtherStep(e, row, d);
      assert Top(e + {d}, if d.ledger >= x.ledger then d else x);
    }
  }

  // ------------------------------------------- which event wins a replay

  /** The last event that knows the deployer gives it. */
  ghost predicate DeployerOfLast(ds: seq<Deployment>, deployer: Option<string>) {
    if deployer.None? then forall i :: 0 <= i < |ds| ==> ds[i].deployer.None?
    else exists i :: 0 <= i < |ds| && ds[i].deployer == deployer && forall j :: i < j < |ds| ==> ds[j].deployer.None?
  }

  /** The last creation gives time, ledger and transaction. */
  ghost predicate CreationOfLast(ds: seq<Deployment>, row: Row) {
    if row.deployedAt.None? then
      row.deployedLedger.None? && row.deployTxHash.None? && forall i :: 0 <= i < |ds| ==> ds[i].kind.Updated?
    else
      exists i :: 0 <= i < |ds| && ds[i].kind.Created? && row.deployedAt == Some(ds[i].at)
        && row.deployedLedger == Some(ds[i].ledger) && row.deployTxHash == Some(ds[i].txHash)
        && forall j :: i < j < |ds| ==> ds[j].kind.Updated?
  }

  /** The last event of the highest ledger dates the row. */
  ghost predicate DatedByLast(ds: seq<Deployment>, row: Row) {
    exists i :: 0 <= i < |ds| && row.updatedLedger == ds[i].ledger && row.updatedAt == ds[i].at
      && (forall j :: 0 <= j < |ds| ==> ds[j].ledger <= ds[i].ledger)
      && forall j :: i < j < |ds| ==> ds[j].ledger < ds[i].ledger
  }

  /** No earlier event was of a higher ledger. */
  ghost predicate InFront(ds: seq<Deployment>, i: int)
    requires 0 <= i < |ds|
  {
    forall j :: 0 <= j < i ==> ds[j].ledger <= ds[i].ledger
  }

  /** An event that was in front when it came, and has a hash. */
  ghost predicate FrontHash(ds: seq<Deployment>, i: int) {
    0 <= i < |ds| && InFront(ds, i) && ds[i].wasmHash.Some?
  }

  /** The last event with a hash that was in front when it came gives it; when there is none, the first with a hash. */
  ghost predicate HashOfFront(ds: seq<Deployment>, hash: Option<string>) {
    if exists i :: FrontHash(ds, i) then
      exists i :: FrontHash(ds, i) && hash == ds[i].wasmHash && forall j :: i < j ==> !FrontHash(ds, j)
    else if hash.None? then forall i :: 0 <= i < |ds| ==> ds[i].wasmHash.None?
    else exists i :: 0 <= i < |ds| && hash == ds[i].wasmHash && forall j :: 0 <= j < i ==> ds[j].wasmHash.None?
  }

  ghost predicate Won(ds: seq<Deployment>, row: Row) {
    DeployerOfLast(ds, row.deployer) && CreationOfLast(ds, row) && DatedByLast(ds, row) && HashOfFront(ds, row.wasmHash)
  }

  lemma WonDeployer(ds: seq<Deployment>, row: Row, d: Deployment)
    requires DeployerOfLast(ds, row.deployer)
    ensures DeployerOfLast(ds + [d], Upsert(Some(row), d).deployer)
  {
    var all := ds + [d];
    if d.deployer.Some? {
      assert all[|ds|].deployer == d.deployer;
    } else if row.deployer.Some? {
      var i :| 0 <= i < |ds| && ds[i].deployer == row.deployer && forall j :: i < j < |ds| ==> ds[j].deployer.None?;
      assert all[i].deployer == row.deployer;
    }
  }

  lemma WonCreation(ds: seq<Deployment>, row: Row, d: Deployment)
    requires CreationOfLast(ds, row)
    ensures CreationOfLast(ds + [d], Upsert(Some(row), d))
  {
    var all := ds + [d];
    if d.kind.Created? {
      assert all[|ds|].kind.Created?;
    } else if row.deployedAt.Some? {
      var i :| 0 <= i < |ds| && ds[i].kind.Created? && row.deployedAt == Some(ds[i].at)
        && row.deployedLedger == Some(ds[i].ledger) && row.deployTxHash == Some(ds[i].txHash)
        && forall j :: i < j < |ds| ==> ds[j].kind.Updated?;
      assert all[i].kind.Created?;
    }
  }

  lemma WonDate(ds: seq<Deployment>, row: Row, d: Deployment)
    requires DatedByLast(ds, row)
    ensures DatedByLast(ds + [d], Upsert(Some(row), d))
  {
    var all := ds + [d];
    var i :| 0 <= i < |ds| && row.updatedLedger == ds[i].ledger && row.updatedAt == ds[i].at
      && (forall j :: 0 <= j < |ds| ==> ds[j].ledger <= ds[i].ledger)
      && forall j :: i < j < |ds| ==> ds[j].ledger < ds[i].ledger;
    if d.ledger >= row.updatedLedger {
      assert all[|ds|].ledger == d.ledger;
    } else {
      assert all[i].ledger == row.updatedLedger;
    }
  }

  /** Being in front does not depend on what comes after. */
  lemma FrontGrows(ds: seq<Deployment>, d: Deployment, i: int)
    requires i != |ds|
    ensures FrontHash(ds + [d], i) <==> FrontHash(ds, i)
  {
    var all := ds + [d];
    if 0 <= i < |ds| {
      assert all[i] == ds[i];
      if InFront(ds, i) {
        assert InFront(all, i);
      }
      if InFront(all, i) {
        forall j | 0 <= j < i ensures ds[j].ledger <= ds[i].ledger {
          assert all[j].ledger <= all[i].ledger;
        }
      }
    }
  }

  lemma WonHash(ds: seq<Deployment>, row: Row, d: Deployment)
    requires HashOfFront(ds, row.wasmHash) && DatedByLast(ds, row)
    ensures HashOfFront(ds + [d], Upsert(Some(row), d).wasmHash)
  {
    var all, hash := ds + [d], Upsert(Some(row), d).wasmHash;
    forall i | i != |ds| ensures FrontHash(all, i) <==> FrontHash(ds, i) {
      FrontGrows(ds, d, i);
    }
    assert InFront(all, |ds|) <==> d.ledger >= row.updatedLedger;
    if FrontHash(all, |ds|) {
      assert hash == all[|ds|].wasmHash && forall j :: |ds| < j ==> !FrontHash(all, j);
    } else if exists i :: FrontHash(ds, i) {
      var i :| FrontHash(ds, i) && row.wasmHash == ds[i].wasmHash && forall j :: i < j ==> !FrontHash(ds, j);
      assert FrontHash(all, i) && hash == all[i].wasmHash;
    } else {
      assert forall i :: !FrontHash(all, i);
      if row.wasmHash.Some? {
        var i :| 0 <= i < |ds| && row.wasmHash == ds[i].wasmHash && forall j :: 0 <= j < i ==> ds[j].wasmHash.None?;
        assert hash == all[i].wasmHash;
      } else if d.wasmHash.Some? {
        assert hash == all[|ds|].wasmHash;
      }
    }
  }

  /** In every replay, ambiguous or not, each part of the row comes from the event that its rule names. */
  lemma {:induction false} ReplayWon(ds: seq<Deployment>)
    requires ds != []
    ensures Replay(ds).Some? && Won(ds, Replay(ds).value)
  {
    var d, before := ds[|ds| - 1], ds[..|ds| - 1];
    if before == [] {
      assert ds[0] == d;
      assert d.wasmHash.Some? ==> FrontHash(ds, 0);
    } else {
      ReplayWon(before);
      var row := Replay(before).value;
      assert ds == before + [d];
      WonDeployer(before, row, d);
      WonCreation(before, row, d);
      WonDate(before, row, d);
      WonHash(before, row, d);
    }
  }

  // ------------------------------------------------- when replays converge

  ghost predicate SameDeployer(e: set<Deployment>) {
    forall a, b :: a in e && b in e && a.deployer.Some? && b.deployer.Some? ==> a.deployer == b.deployer
  }

  ghost predicate SameCreation(e: set<Deployment>) {
    forall a, b :: a in e && b in e && a.kind.Created? && b.kind.Created? ==>
      a.at == b.at && a.ledger == b.ledger && a.txHash == b.txHash
  }

  ghost predicate SameTopTime(e: set<Deployment>) {
    forall a, b :: Top(e, a) && Top(e, b) ==> a.at == b.at
  }

  ghost predicate SameHash(e: set<Deployment>) {
    if TopHashed(e) then
      forall a, b :: Top(e, a) && Top(e, b) && a.wasmHash.Some? && b.wasmHash.Some? ==> a.wasmHash == b.wasmHash
    else
      forall a, b :: a in e && b in e && a.wasmHash.Some? && b.wasmHash.Some? ==> a.wasmHash == b.wasmHash
  }

  /** Nothing the row depends on is given twice with different values. */
  ghost predicate Unambiguous(e: set<Deployment>) {
    SameDeployer(e) && SameCreation(e) && SameTopTime(e) && SameHash(e)
  }

  ghost predicate Converges(e: set<Deployment>) {
    forall s, t :: Elements(s) == e && Elements(t) == e ==> Replay(s) == Replay(t)
  }

  lemma ExplainedUnique(e: set<Deployment>, a: Row, b: Row)
    requires Unambiguous(e) && Explained(e, a) && Explained(e, b)
    ensures a == b
  {
    assert a.updatedAt == b.updatedAt && a.updatedLedger == b.updatedLedger;
    assert a.deployer == b.deployer;
    assert a.deployedAt == b.deployedAt && a.deployedLedger == b.deployedLedger && a.deployTxHash == b.deployTxHash;
    assert a.wasmHash == b.wasmHash;
  }

  lemma UnambiguousConverges(e: set<Deployment>)
    requires Unambiguous(e)
    ensures Converges(e)
  {
    forall s, t | Elements(s) == e && Elements(t) == e ensures Replay(s) == Replay(t) {
      if s == [] {
        EmptyElements(t);
      } else {
        FirstElement(s);
        if t != [] {
          ReplayExplained(s);
          ReplayExplained(t);
          ExplainedUnique(e, Replay(s).value, Replay(t).value);
        }
      }
    }
  }

  lemma EmptyElements(ds: seq<Deployment>)
    requires Elements(ds) == {}
    ensures ds == []
  {
    if ds != [] {
      FirstElement(ds);
    }
  }

  lemma FirstElement(ds: seq<Deployment>)
    requires ds != []
    ensures ds[0] in Elements(ds)
  {
  }

  // ---------------------------------------------- and when they do not

  ghost predicate NoRepeats(ds: seq<Deployment>) {
    forall i, j :: 0 <= i < j < |ds| ==> ds[i] != ds[j]
  }

  /** A replay of exactly these events, each once. */
  ghost predicate Ordering(ds: seq<Deployment>, e: set<Deployment>) {
    Elements(ds) == e && NoRepeats(ds)
  }

  lemma {:induction false} Enumerate(e: set<Deployment>) returns (ds: seq<Deployment>)
    ensures Ordering(ds, e)
  {
    if e == {} {
      ds := [];
    } else {
      var d :| d in e;
      var rest := Enumerate(e - {d});
      ds := rest + [d];
      assert Elements(ds) == Elements(rest) + {d};
      assert forall i :: 0 <= i < |rest| ==> rest[i] in Elements(rest);
    }
  }

  /** An ordering of the events that ends with a given one. */
  lemma OrderingEndingIn(e: set<Deployment>, d: Deployment) returns (before: seq<Deployment>)
    requires d in e
    ensures Ordering(before + [d], e) && Elements(before) == e - {d}
  {
    before := Enumerate(e - {d});
    assert Elements(before + [d]) == Elements(before) + {d};
    assert forall i :: 0 <= i < |before| ==> before[i] in Elements(before);
  }

  /** What the last event of a replay decides. */
  lemma LastEventDecides(before: seq<Deployment>, d: Deployment)
    ensures var row := Replay(before + [d]).value;
      && Replay(before + [d]).Some?
      && (d.deployer.Some? ==> row.deployer == d.deployer)
      && (d.kind.Created? ==>
            row.deployedAt == Some(d.at) && row.deployedLedger == Some(d.ledger) && row.deployTxHash == Some(d.txHash))
      && (Top(Elements(before + [d]), d) ==>
            row.updatedAt == d.at && (d.wasmHash.Some? ==> row.wasmHash == d.wasmHash))
  {
    ReplaySnoc(before, d);
    if before != [] {
      ReplayExplained(before);
      var x :| Top(Elements(before), x) && Replay(before).value.updatedLedger == x.ledger;
      assert x in Elements(before + [d]);
    }
  }

  /** Two events that would each have the last word on something, differently. */
  lemma TwoLastWords(e: set<Deployment>, a: Deployment, b: Deployment) returns (s: seq<Deployment>, t: seq<Deployment>)
    requires a in e && b in e
    requires || (a.deployer.Some? && b.deployer.Some? && a.deployer != b.deployer)
             || (a.kind.Created? && b.kind.Created? && (a.at != b.at || a.ledger != b.ledger || a.txHash != b.txHash))
             || (Top(e, a) && Top(e, b) && a.at != b.at)
             || (Top(e, a) && Top(e, b) && a.wasmHash.Some? && b.wasmHash.Some? && a.wasmHash != b.wasmHash)
    ensures Ordering(s, e) && Ordering(t, e) && Replay(s) != Replay(t)
  {
    var s0 := OrderingEndingIn(e, a);
    var t0 := OrderingEndingIn(e, b);
    s, t := s0 + [a], t0 + [b];
    LastEventDecides(s0, a);
    LastEventDecides(t0, b);
  }

  lemma {:induction false} HashSticks(start: seq<Deployment>, more: seq<Deployment>, top: int)
    requires Replay(start).Some? && Replay(start).value.updatedLedger == top && Replay(start).value.wasmHash.Some?
    requires forall d :: d in more ==> d.ledger < top || (d.ledger == top && d.wasmHash.None?)
    ensures Replay(start + more).Some? && Replay(start + more).value.wasmHash == Replay(start).value.wasmHash
    ensures Replay(start + more).value.updatedLedger == top
  {
    if more == [] {
      assert start + more == start;
    } else {
      var d := more[|more| - 1];
      HashSticks(start, more[..|more| - 1], top);
      assert start + more == (start + more[..|more| - 1]) + [d];
      ReplaySnoc(start + more[..|more| - 1], d);
    }
  }

  /** The first hash after a hashless event of at least its ledger becomes the hash of the row. */
  lemma FirstTwo(m: Deployment, a: Deployment)
    requires m.wasmHash.None? && a.wasmHash.Some? && a.ledger <= m.ledger
    ensures Replay([m, a]).Some? && Replay([m, a]).value.wasmHash == a.wasmHash
    ensures Replay([m, a]).value.updatedLedger == m.ledger
  {
    ReplaySnoc([], m);
    ReplaySnoc([m], a);
    assert [] + [m] == [m] && [m] + [a] == [m, a];
  }

  lemma OrderedAfterTwo(m: Deployment, a: Deployment, more: seq<Deployment>, e: set<Deployment>)
    requires m in e && a in e && m != a && Ordering(more, e - {m, a})
    ensures Ordering([m, a] + more, e)
  {
    var s := [m, a] + more;
    assert Elements(s) == {m, a} + Elements(more);
    assert forall i :: 0 <= i < |more| ==> more[i] in Elements(more);
  }

  /** Replaying a hashless top event first makes the first hash after it stick. */
  lemma FirstHashSticks(e: set<Deployment>, m: Deployment, a: Deployment) returns (s: seq<Deployment>)
    requires Top(e, m) && !TopHashed(e) && a in e && a.wasmHash.Some?
    ensures Ordering(s, e) && Replay(s).Some? && Replay(s).value.wasmHash == a.wasmHash
  {
    var more := Enumerate(e - {m, a});
    s := [m, a] + more;
    assert !Top(e, a) && m.wasmHash.None?;
    OrderedAfterTwo(m, a, more, e);
    FirstTwo(m, a);
    forall d | d in more ensures d.ledger < m.ledger || (d.ledger == m.ledger && d.wasmHash.None?) {
      assert d in Elements(more);
      if d.ledger == m.ledger {
        assert Top(e, d);
      }
    }
    HashSticks([m, a], more, m.ledger);
  }

  lemma {:induction false} TopExists(e: set<Deployment>) returns (m: Deployment)
    requires e != {}
    ensures Top(e, m)
  {
    var x :| x in e;
    if e == {x} {
      m := x;
    } else {
      var y := TopExists(e - {x});
      m := if x.ledger > y.ledger then x else y;
      forall z | z in e ensures z.ledger <= m.ledger {
        assert z == x || z in e - {x};
      }
    }
  }

  /** Whenever the condition fails, two orderings without repeats already disagree. */
  lemma AmbiguousDiverges(e: set<Deployment>) returns (s: seq<Deployment>, t: seq<Deployment>)
    requires !Unambiguous(e)
    ensures Ordering(s, e) && Ordering(t, e) && Replay(s) != Replay(t)
  {
    if !SameDeployer(e) {
      var a, b :| a in e && b in e && a.deployer.Some? && b.deployer.Some? && a.deployer != b.deployer;
      s, t := TwoLastWords(e, a, b);
    } else if !SameCreation(e) {
      var a, b :| a in e && b in e && a.kind.Created? && b.kind.Created?
        && (a.at != b.at || a.ledger != b.ledger || a.txHash != b.txHash);
      s, t := TwoLastWords(e, a, b);
    } else if !SameTopTime(e) {
      var a, b :| Top(e, a) && Top(e, b) && a.at != b.at;
      s, t := TwoLastWords(e, a, b);
    } else if TopHashed(e) {
      var a, b :| Top(e, a) && Top(e, b) && a.wasmHash.Some? && b.wasmHash.Some? && a.wasmHash != b.wasmHash;
      s, t := TwoLastWords(e, a, b);
    } else {
      var a, b :| a in e && b in e && a.wasmHash.Some? && b.wasmHash.Some? && a.wasmHash != b.wasmHash;
      var m := TopExists(e);
      s := FirstHashSticks(e, m, a);
      t := FirstHashSticks(e, m, b);
    }
  }

  /** Replays of the same events converge exactly when nothing in them is ambiguous. */
  lemma ConvergesIffUnambiguous(e: set<Deployment>)
    ensures Converges(e) <==> Unambiguous(e)
  {
    if Unambiguous(e) {
      UnambiguousConverges(e);
    } else {
      var s, t := AmbiguousDiverges(e);
    }
  }

  /**
   * In particular: distinct ledgers, a WASM hash on every event and at most one
   * creation (the only kind with a deployer) make every replay give the hash and
   * time of the highest ledger and the fields of the creation.
   */
  lemma OrdinaryHistoriesConverge(e: set<Deployment>, ds: seq<Deployment>, top: Deployment)
    requires Elements(ds) == e && Top(e, top)
    requires forall a, b :: a in e && b in e && a.ledger == b.ledger ==> a == b
    requires forall a :: a in e ==> a.wasmHash.Some? && (a.deployer.Some? ==> a.kind.Created?)
    requires forall a, b :: a in e && b in e && a.kind.Created? && b.kind.Created? ==> a == b
    ensures Converges(e) && Replay(ds).Some?
    ensures var row := Replay(ds).value;
      && row.wasmHash == top.wasmHash && row.updatedLedger == top.ledger && row.updatedAt == top.at
      && (forall c :: c in e && c.kind.Created? ==>
            row.deployer == c.deployer && row.deployedAt == Some(c.at)
            && row.deployedLedger == Some(c.ledger) && row.deployTxHash == Some(c.txHash))
  {
    UnambiguousConverges(e);
    assert ds != [];
    ReplayExplained(ds);
    var row := Replay(ds).value;
    assert TopHashed(e);
    assert TimeExplained(e, row) && HashExplained(e, row) && CreationExplained(e, row) && DeployerExplained(e, row);
  }

  /** The module's own claim fails without the hash: three updates, the newest one hashless. */
  lemma HashlessUpdateBreaksConvergence(id: string, tx: string)
    ensures var old1 := Deployment(Updated, id, None, Some("01"), 1, 10, tx);
      var old2 := Deployment(Updated, id, None, Some("02"), 2, 20, tx);
      var newest := Deployment(Updated, id, None, None, 3, 30, tx);
      Replay([old1, old2, newest]) != Replay([newest, old1, old2])
  {
    var old1 := Deployment(Updated, id, None, Some("01"), 1, 10, tx);
    var old2 := Deployment(Updated, id, None, Some("02"), 2, 20, tx);
    var newest := Deployment(Updated, id, None, None, 3, 30, tx);
    ReplaySnoc([], old1);
    ReplaySnoc([old1], old2);
    ReplaySnoc([old1, old2], newest);
    ReplaySnoc([], newest);
    ReplaySnoc([newest], old1);
    ReplaySnoc([newest, old1], old2);
    assert [] + [old1] == [old1] && [old1] + [old2] == [old1, old2] && [old1, old2] + [newest] == [old1, old2, newest];
    assert [] + [newest] == [newest] && [newest] + [old1] == [newest, old1]
        && [newest, old1] + [old2] == [newest, old1, old2];
  }

  /** Tables built from logs with the same, unambiguous, events per contract are equal. */
  lemma TablesConverge(a: map<string, Row>, logA: seq<Deployment>, b: map<string, Row>, logB: seq<Deployment>)
    requires IsTableOf(a, logA) && IsTableOf(b, logB)
    requires forall id :: Elements(ForContract(logA, id)) == Elements(ForContract(logB, id))
    requires forall id :: Unambiguous(Elements(ForContract(logA, id)))
    ensures a == b
  {
    forall id ensures RowOf(a, id) == RowOf(b, id) {
      assert RowOf(a, id) == Replay(ForContract(logA, id)) && RowOf(b, id) == Replay(ForContract(logB, id));
      UnambiguousConverges(Elements(ForContract(logA, id)));
    }
    SameRows(a, b);
  }

  lemma SameRows(a: map<string, Row>, b: map<string, Row>)
    requires forall id :: RowOf(a, id) == RowOf(b, id)
    ensures a == b
  {
    forall id ensures (id in a <==> id in b) && (id in a ==> a[id] == b[id]) {
      assert RowOf(a, id) == RowOf(b, id);
    }
  }
}
