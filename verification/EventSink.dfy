/**
 * What happens to one event on its way into the database (src/indexer.rs,
 * `store_event_in_tx` and `validate_event_data`; src/xdr_validation.rs): the
 * session filter, the guard that refuses events, and the idempotent insert.
 */
module EventSink {
  import opened Options
  import opened Numerals
  import opened BloomFilter

  /** The unique key of the `events` table. */
  datatype Key = Key(txHash: string, contractId: string, eventType: string) {
    /** The text under which the filters know the key. */
    function Text(): string { EventKey(txHash, contractId, eventType) }
  }

  /** The kind of JSON value an event carries as its data. */
  datatype JsonKind = Null | Bool | Number | String | Array | Object

  /**
   * `valueDecodes` and `topicsDecode` tell whether value and topics read as ScVal;
   * `size` is the length of the serialized data, `row` stands for the rest.
   */
  datatype Event = Event(key: Key, value: JsonKind, valueDecodes: bool, topicsDecode: bool, size: nat,
                         fingerprint: string, row: nat)

  /** The contracts a tenant is restricted to, the size limit, and whether contents are compared. */
  datatype Policy = Policy(tenant: Option<seq<string>>, maxBytes: nat, contentDedup: bool)

  // --------------------------------------------------------------- the guard

  predicate ValidContractId(s: string) {
    |s| == 56 && s[0] == 'C' && forall i :: 0 <= i < |s| ==> 'A' <= s[i] <= 'Z' || '2' <= s[i] <= '7'
  }

  predicate ValidTxHash(s: string) {
    |s| == 64 && forall i :: 0 <= i < |s| ==> DigitOf(s[i]).Some?
  }

  /** `validate_event_data`: anything but an object or null is refused. */
  predicate ValidEventData(e: Event) {
    && (e.value.Object? || e.value.Null?)
    && ValidContractId(e.key.contractId) && ValidTxHash(e.key.txHash)
    && (e.value.Null? || e.valueDecodes) && e.topicsDecode
  }

  predicate AllowedForTenant(p: Policy, e: Event) {
    p.tenant.None? || p.tenant.value == [] || e.key.contractId in p.tenant.value
  }

  /** The checks that look at the event alone; an event that fails one is left out silently. */
  predicate Accepts(p: Policy, e: Event) {
    AllowedForTenant(p, e) && ValidEventData(e) && e.size <= p.maxBytes
  }

  /** `c` is a letter or digit of the base-32 alphabet. */
  predicate Base32(c: char) { 'A' <= c <= 'Z' || '2' <= c <= '7' }

  predicate HexDigit(c: char) { '0' <= c <= '9' || 'a' <= c <= 'f' || 'A' <= c <= 'F' }

  /** What an event that is to be stored must satisfy, rule by rule. */
  ghost predicate ObeysRules(p: Policy, e: Event) {
    && (e.value == Null || (e.value == Object && e.valueDecodes)) && e.topicsDecode
    && (exists rest: string :: e.key.contractId == "C" + rest && |rest| == 55 && forall c :: c in rest ==> Base32(c))
    && |e.key.txHash| == 64 && (forall c :: c in e.key.txHash ==> HexDigit(c))
    && !(e.size > p.maxBytes)
    && (match p.tenant case None => true case Some(ids) => |ids| == 0 || exists id :: id in ids && id == e.key.contractId)
  }

  lemma HexDigitsHaveValues(c: char)
    ensures HexDigit(c) <==> DigitOf(c).Some?
  {
  }

  lemma ValidIdIsStrkey(id: string)
    ensures ValidContractId(id)
      <==> exists rest: string :: id == "C" + rest && |rest| == 55 && forall c :: c in rest ==> Base32(c)
  {
    if ValidContractId(id) {
      assert id == "C" + id[1..] && |id[1..]| == 55 && forall c :: c in id[1..] ==> Base32(c);
    }
    if rest: string :| id == "C" + rest && |rest| == 55 && forall c :: c in rest ==> Base32(c) {
      forall i | 0 <= i < |id| ensures 'A' <= id[i] <= 'Z' || '2' <= id[i] <= '7' {
        assert i > 0 ==> id[i] == rest[i - 1] && rest[i - 1] in rest;
      }
    }
  }

  /** The guard accepts exactly the events that obey the rules. */
  lemma AcceptsIffRules(p: Policy, e: Event)
    ensures Accepts(p, e) <==> ObeysRules(p, e)
  {
    ValidIdIsStrkey(e.key.contractId);
    forall c ensures HexDigit(c) <==> DigitOf(c).Some? {
      HexDigitsHaveValues(c);
    }
    assert (forall c :: c in e.key.txHash ==> HexDigit(c))
      <==> forall i :: 0 <= i < |e.key.txHash| ==> DigitOf(e.key.txHash[i]).Some?;
  }

  /** Keys of valid events are told apart by their texts: neither id holds a colon. */
  lemma TextNamesKey(k: Key, m: Key)
    requires ValidTxHash(k.txHash) && ValidContractId(k.contractId)
    requires ValidTxHash(m.txHash) && ValidContractId(m.contractId)
    requires k.Text() == m.Text()
    ensures k == m
  {
    TextParts(k);
    TextParts(m);
  }

  lemma TextParts(k: Key)
    requires ValidTxHash(k.txHash) && ValidContractId(k.contractId)
    ensures SplitOnce(k.Text(), ':') == Some((k.txHash, k.contractId + [':'] + k.eventType))
    ensures SplitOnce(k.contractId + [':'] + k.eventType, ':') == Some((k.contractId, k.eventType))
  {
    assert k.Text() == k.txHash + [':'] + (k.contractId + [':'] + k.eventType);
    assert DigitOf(':').None?;
    SplitOnceFinds(k.txHash, ':', k.contractId + [':'] + k.eventType);
    SplitOnceFinds(k.contractId, ':', k.eventType);
  }

  // ---------------------------------------------------------------- the table

  /** Idempotent insert: the first event stored under a key stays. */
  function Insert(sink: map<Key, Event>, events: seq<Event>): map<Key, Event>
    decreases |events|
  {
    if |events| == 0 then sink
    else Insert(if events[0].key in sink then sink else sink[events[0].key := events[0]], events[1..])
  }

  /** The first event of the list with this key. */
  function Lookup(events: seq<Event>, k: Key): Option<Event>
    decreases |events|
  {
    if |events| == 0 then None
    else if events[0].key == k then Some(events[0])
    else Lookup(events[1..], k)
  }

  lemma {:induction false} LookupFinds(events: seq<Event>, k: Key)
    ensures Lookup(events, k).Some? ==> Lookup(events, k).value in events && Lookup(events, k).value.key == k
    ensures forall e :: e in events && e.key == k ==> Lookup(events, k).Some?
    decreases |events|
  {
    if events != [] {
      LookupFinds(events[1..], k);
      assert events == [events[0]] + events[1..];
    }
  }

  lemma {:induction false} LookupConcat(a: seq<Event>, b: seq<Event>, k: Key)
    ensures Lookup(a + b, k) == if Lookup(a, k).Some? then Lookup(a, k) else Lookup(b, k)
    decreases |a|
  {
    if a == [] {
      assert a + b == b;
    } else {
      assert (a + b)[1..] == a[1..] + b;
      LookupConcat(a[1..], b, k);
    }
  }

  lemma LookupSnoc(a: seq<Event>, e: Event, k: Key)
    ensures Lookup(a + [e], k) == if Lookup(a, k).Some? then Lookup(a, k) else if e.key == k then Some(e) else None
  {
    LookupConcat(a, [e], k);
  }

  /** An event whose key has not occurred before it is the first of its key. */
  lemma {:induction false} FirstIsLookup(events: seq<Event>, j: nat)
    requires j < |events| && Lookup(events[..j], events[j].key).None?
    ensures Lookup(events, events[j].key) == Some(events[j])
    decreases |events|
  {
    if j > 0 {
      assert events[..j][0] == events[0] && events[..j][1..] == events[1..][..j - 1];
      FirstIsLookup(events[1..], j - 1);
    }
  }

  lemma {:induction false} InsertAddsFirstOfEachKey(sink: map<Key, Event>, events: seq<Event>)
    ensures var r := Insert(sink, events);
      && (forall k :: k in r <==> k in sink || Lookup(events, k).Some?)
      && (forall k :: k in sink ==> r[k] == sink[k])
      && (forall k :: k in r && k !in sink ==> Some(r[k]) == Lookup(events, k))
      && |sink| <= |r|
    decreases |events|
  {
    if events != [] {
      var e := events[0];
      InsertAddsFirstOfEachKey(if e.key in sink then sink else sink[e.key := e], events[1..]);
    }
  }

  /** The content check: some stored row has this fingerprint. */
  predicate SameContentStored(sink: map<Key, Event>, fingerprint: string) {
    exists k :: k in sink && sink[k].fingerprint == fingerprint
  }
}
