/**
 * The two Bloom-filter indexes used for event deduplication (src/bloom_filter.rs):
 * a double-buffered one that rotates when full, and one that resets per ledger.
 * Both are proved against the exact history of calls.
 */
module BloomFilter {
  import opened Options

  /** Which bits a filter derives from a key; every filter instance draws its own. */
  type Hash = string -> set<nat>

  datatype Bloom = Bloom(hash: Hash, bits: set<nat>) {
    predicate Check(key: string) { hash(key) <= bits }
    function Set(key: string): Bloom { Bloom(hash, bits + hash(key)) }
  }

  datatype InitError = InvalidConfig

  /** `new_bloom`: the parameters are valid or not, independently of the instance. */
  function NewBloom(capacity: nat, fpRate: real, hash: Hash): Result<Bloom, InitError> {
    if capacity == 0 || fpRate <= 0.0 || fpRate >= 1.0 then Err(InvalidConfig) else Ok(Bloom(hash, {}))
  }

  function EventKey(txHash: string, contractId: string, eventType: string): string {
    txHash + ":" + contractId + ":" + eventType
  }

  /** The bits of a whole list of keys. */
  ghost function BitsOf(hash: Hash, keys: seq<string>): set<nat> {
    if |keys| == 0 then {} else BitsOf(hash, keys[..|keys| - 1]) + hash(keys[|keys| - 1])
  }

  lemma {:induction false} BitsCoverKeys(hash: Hash, keys: seq<string>, key: string)
    requires key in keys
    ensures hash(key) <= BitsOf(hash, keys)
  {
    if key != keys[|keys| - 1] {
      BitsCoverKeys(hash, keys[..|keys| - 1], key);
    }
  }

  lemma BitsSnoc(hash: Hash, keys: seq<string>, key: string)
    ensures BitsOf(hash, keys + [key]) == BitsOf(hash, keys) + hash(key)
  {
    assert (keys + [key])[..|keys|] == keys;
  }

  /** A false positive: the bits of a key that was not taken are among those of the keys taken. */
  ghost predicate FalselyCovered(hash: Hash, keys: seq<string>, key: string) {
    key !in keys && hash(key) <= BitsOf(hash, keys)
  }

  /** A filter that has taken exactly these keys hits all of them, and else only what they cover. */
  lemma HitIsMembership(b: Bloom, keys: seq<string>, key: string)
    requires b.bits == BitsOf(b.hash, keys)
    ensures b.Check(key) <==> key in keys || FalselyCovered(b.hash, keys, key)
  {
    if key in keys {
      BitsCoverKeys(b.hash, keys, key);
    }
  }

  // ------------------------------------------------- rotating event filter

  /** A count at which a filter is due for rotation. */
  predicate Full(count: nat, capacity: nat, threshold: real) {
    count as real >= threshold * capacity as real
  }

  function FillRatio(count: nat, capacity: nat): real
    requires capacity > 0
  {
    count as real / capacity as real
  }

  /** The code compares the ratio. */
  lemma FullIsRatio(count: nat, capacity: nat, threshold: real)
    requires capacity > 0
    ensures Full(count, capacity, threshold) <==> FillRatio(count, capacity) >= threshold
  {
    var ratio, c := FillRatio(count, capacity), capacity as real;
    assert ratio * c == count as real;
    if ratio >= threshold {
      assert (ratio - threshold) * c >= 0.0;
    } else {
      assert (threshold - ratio) * c > 0.0;
    }
  }

  ghost predicate LeastFull(t: nat, capacity: nat, threshold: real) {
    Full(t, capacity, threshold) && forall n: nat :: n < t ==> !Full(n, capacity, threshold)
  }

  lemma EmptyIsNotFull(capacity: nat, threshold: real)
    requires capacity > 0 && threshold > 0.0
    ensures !Full(0, capacity, threshold)
  {
  }

  /** The least full count exists, and is at most the capacity. */
  lemma {:induction false} LeastFullExists(capacity: nat, threshold: real, n: nat) returns (t: nat)
    requires Full(n, capacity, threshold)
    ensures LeastFull(t, capacity, threshold) && t <= n
  {
    if n > 0 && Full(n - 1, capacity, threshold) {
      t := LeastFullExists(capacity, threshold, n - 1);
    } else {
      t := n;
    }
  }

  /** A threshold of 1.0 (the largest allowed) does not disable rotation: it rotates at capacity. */
  lemma RotationIsNeverDisabled(capacity: nat, threshold: real)
    requires capacity > 0 && threshold <= 1.0
    ensures Full(capacity, capacity, threshold)
    ensures threshold == 1.0 ==> LeastFull(capacity, capacity, threshold)
  {
    assert threshold * capacity as real <= capacity as real;
  }

  function Clamp(x: real, lo: real, hi: real): real {
    if x < lo then lo else if x > hi then hi else x
  }

  function KeysOf(entries: seq<(string, string, string)>): (keys: seq<string>)
    ensures |keys| == |entries|
  {
    seq(|entries|, i requires 0 <= i < |entries| => EventKey(entries[i].0, entries[i].1, entries[i].2))
  }

  /** The loop of `seed`. */
  method SetAll(b: Bloom, entries: seq<(string, string, string)>, ghost keys: seq<string>) returns (r: Bloom)
    requires b.bits == BitsOf(b.hash, keys)
    ensures r.hash == b.hash && r.bits == BitsOf(b.hash, keys + KeysOf(entries))
  {
    r := b;
    ghost var taken := keys;
    for i := 0 to |entries|
      invariant r.hash == b.hash && r.bits == BitsOf(b.hash, taken)
      invariant taken == keys + KeysOf(entries[..i])
    {
      var k := EventKey(entries[i].0, entries[i].1, entries[i].2);
      BitsSnoc(b.hash, taken, k);
      KeysOfSnoc(entries, i);
      taken := taken + [k];
      r := r.Set(k);
    }
    assert entries[..|entries|] == entries;
  }

  lemma KeysOfSnoc(entries: seq<(string, string, string)>, i: nat)
    requires i < |entries|
    ensures KeysOf(entries[..i + 1]) == KeysOf(entries[..i]) + [EventKey(entries[i].0, entries[i].1, entries[i].2)]
  {
  }

  class EventBloomFilter {
    var inner: Bloom
    var previous: Option<Bloom>
    const capacity: nat
    const fpRate: real
    const threshold: real
    var insertCount: nat
    var rotationCount: nat
    /** Where fresh filters take their hash functions from. */
    const hashes: nat -> Hash

    /** The keys the current and the previous generation took, and those taken before them. */
    ghost var current: seq<string>
    ghost var before: seq<string>
    ghost var older: seq<string>

    /** Every key inserted so far, in order. */
    ghost function History(): seq<string>
      reads this
    {
      older + before + current
    }

    /** The two filters hold exactly the last two stretches of the history. */
    ghost predicate Ready()
      reads this
    {
      && capacity > 0 && 0.0 < fpRate < 1.0 && 0.01 <= threshold <= 1.0
      && insertCount == |current| && inner.bits == BitsOf(inner.hash, current)
      && match previous
         case None => rotationCount == 0 && before == [] && older == []
         case Some(full) =>
           rotationCount > 0 && Full(|before|, capacity, threshold) && full.bits == BitsOf(full.hash, before)
    }

    /** Between calls the current filter is, besides, not due for rotation. */
    ghost predicate Valid()
      reads this
    {
      Ready() && !Full(insertCount, capacity, threshold)
    }

    /** The keys of the at most two generations in memory. */
    ghost function Retained(): seq<string>
      reads this
    {
      before + current
    }

    ghost predicate Hits(key: string)
      reads this
    {
      inner.Check(key) || (previous.Some? && previous.value.Check(key))
    }

    constructor FromParameters(capacity: nat, fpRate: real, threshold: real, hashes: nat -> Hash)
      requires NewBloom(capacity, fpRate, hashes(0)).Ok?
      ensures Valid() && History() == [] && rotationCount == 0
      ensures this.capacity == capacity && this.threshold == Clamp(threshold, 0.01, 1.0)
    {
      this.capacity, this.fpRate, this.threshold := capacity, fpRate, Clamp(threshold, 0.01, 1.0);
      this.hashes := hashes;
      inner, previous := Bloom(hashes(0), {}), None;
      insertCount, rotationCount := 0, 0;
      current, before, older := [], [], [];
      new;
      EmptyIsNotFull(this.capacity, this.threshold);
    }

    /** `with_fill_threshold`: refuses a zero capacity or a rate outside (0, 1). */
    static method WithFillThreshold(capacity: nat, fpRate: real, threshold: real, hashes: nat -> Hash)
      returns (r: Result<EventBloomFilter, InitError>)
      ensures r.Ok? <==> capacity > 0 && 0.0 < fpRate < 1.0
      ensures r.Ok? ==> fresh(r.value) && r.value.Valid() && r.value.History() == [] && r.value.capacity == capacity
      ensures r.Ok? && 0.01 <= threshold <= 1.0 ==> r.value.threshold == threshold
      ensures r.Ok? && threshold < 0.01 ==> r.value.threshold == 0.01
      ensures r.Ok? && threshold > 1.0 ==> r.value.threshold == 1.0
    {
      var bloom := NewBloom(capacity, fpRate, hashes(0));
      if bloom.Err? {
        return Err(bloom.error);
      }
      var filter := new EventBloomFilter.FromParameters(capacity, fpRate, threshold, hashes);
      r := Ok(filter);
    }

    /** The current generation becomes the previous one. */
    method Rotate()
      requires Ready() && Full(insertCount, capacity, threshold)
      modifies this
      ensures Ready() && History() == old(History()) && current == [] && before == old(current)
      ensures rotationCount == old(rotationCount) + 1
    {
      var rebuilt := NewBloom(capacity, fpRate, hashes(rotationCount + 1));
      previous := Some(inner);
      inner := rebuilt.value;
      insertCount := 0;
      rotationCount := rotationCount + 1;
      older, before, current := older + before, current, [];
    }

    /** Rotates when full. */
    method MaybeRotate() returns (rotated: bool)
      requires Ready()
      modifies this
      ensures Valid() && History() == old(History())
      ensures rotated <==> old(Full(insertCount, capacity, threshold))
      ensures rotated ==> current == [] && before == old(current) && rotationCount == old(rotationCount) + 1
      ensures !rotated ==> current == old(current) && before == old(before) && rotationCount == old(rotationCount)
    {
      FullIsRatio(insertCount, capacity, threshold);
      if FillRatio(insertCount, capacity) < threshold {
        return false;
      }
      Rotate();
      EmptyIsNotFull(capacity, threshold);
      rotated := true;
    }

    /** A hit in either generation; no key of the last `t` insertions is ever missed. */
    method Check(txHash: string, contractId: string, eventType: string) returns (hit: bool)
      requires Valid()
      ensures hit <==> Hits(EventKey(txHash, contractId, eventType))
      ensures forall t: nat, i: nat ::
        (LeastFull(t, capacity, threshold) && |History()| - t <= i < |History()|
         && History()[i] == EventKey(txHash, contractId, eventType)) ==> hit
    {
      var k := EventKey(txHash, contractId, eventType);
      var hitCurrent := inner.Check(k);
      var hitPrevious := if !hitCurrent then (if previous.Some? then previous.value.Check(k) else false) else false;
      hit := hitCurrent || hitPrevious;
      forall t: nat, i: nat | LeastFull(t, capacity, threshold) && |History()| - t <= i < |History()| && History()[i] == k
        ensures hit
      {
        RecentKeysHit(t, i);
      }
    }

    /** Takes a filled filter and the keys it gained into account. */
    method Fill(filled: Bloom, count: nat, ghost more: seq<string>)
      requires Ready() && |more| == count
      requires filled.hash == inner.hash && filled.bits == BitsOf(inner.hash, current + more)
      modifies this
      ensures Ready() && History() == old(History()) + more && current == old(current) + more
      ensures rotationCount == old(rotationCount)
    {
      inner := filled;
      insertCount := insertCount + count;
      current := current + more;
    }

    /** The common tail of `set` and `seed`: count what was inserted, rotate if due. */
    method CountAndRotate(filled: Bloom, count: nat, ghost more: seq<string>)
      requires Valid() && |more| == count
      requires filled.hash == inner.hash && filled.bits == BitsOf(inner.hash, current + more)
      modifies this
      ensures Valid() && History() == old(History()) + more
      ensures rotationCount == old(rotationCount) + if old(Full(insertCount + count, capacity, threshold)) then 1 else 0
    {
      Fill(filled, count, more);
      var _ := MaybeRotate();
    }

    /** `set`. */
    method Insert(txHash: string, contractId: string, eventType: string)
      requires Valid()
      modifies this
      ensures Valid() && History() == old(History()) + [EventKey(txHash, contractId, eventType)]
      ensures rotationCount == old(rotationCount) + if old(Full(insertCount + 1, capacity, threshold)) then 1 else 0
    {
      var k := EventKey(txHash, contractId, eventType);
      BitsSnoc(inner.hash, current, k);
      CountAndRotate(inner.Set(k), 1, [k]);
    }

    /** `seed`: inserts a whole list and only then considers rotating, once. */
    method Seed(entries: seq<(string, string, string)>)
      requires Valid()
      modifies this
      ensures Valid() && History() == old(History()) + KeysOf(entries)
      ensures rotationCount == old(rotationCount) + if old(Full(insertCount + |entries|, capacity, threshold)) then 1 else 0
    {
      var filled := SetAll(inner, entries, current);
      CountAndRotate(filled, |entries|, KeysOf(entries));
    }

    /** `fill_ratio`: always below the threshold between calls. */
    method CurrentRatio() returns (ratio: real)
      requires Valid()
      ensures ratio == FillRatio(insertCount, capacity) < threshold
    {
      FullIsRatio(insertCount, capacity, threshold);
      ratio := FillRatio(insertCount, capacity);
    }

    /** Whatever the history, the last `t` inserted keys are found, `t` being the least full count. */
    lemma RecentKeysHit(t: nat, i: nat)
      requires Valid() && LeastFull(t, capacity, threshold)
      requires |History()| - t <= i < |History()|
      ensures Hits(History()[i])
    {
      HitIsMembership(inner, current, History()[i]);
      if i < |older + before| {
        HitIsMembership(previous.value, before, History()[i]);
        assert History()[i] == before[i - |older|];
      }
    }

    /** The bits of the key happen to be covered by the keys of one generation. */
    ghost predicate CoveredByGeneration(key: string)
      reads this
    {
      || FalselyCovered(inner.hash, current, key)
      || (previous.Some? && FalselyCovered(previous.value.hash, before, key))
    }

    /** A hit is membership in the retained generations, or the key's bits are covered by those of one of them. */
    lemma HitsRetainedOrCovered(key: string)
      requires Valid()
      ensures Hits(key) <==> key in Retained() || CoveredByGeneration(key)
    {
      HitIsMembership(inner, current, key);
      if previous.Some? {
        HitIsMembership(previous.value, before, key);
      }
    }
  }

  // ------------------------------------------------ per-ledger session filter

  datatype Call = Call(key: string, ledger: nat)

  /** The running maximum ledger, starting from 0. */
  ghost function MaxLedger(calls: seq<Call>): nat {
    if |calls| == 0 then 0
    else
      var m := MaxLedger(calls[..|calls| - 1]);
      if calls[|calls| - 1].ledger > m then calls[|calls| - 1].ledger else m
  }

  /** The exact index: keys seen since the running maximum last grew. */
  ghost function SeenThisLedger(calls: seq<Call>): seq<string> {
    if |calls| == 0 then []
    else if calls[|calls| - 1].ledger > MaxLedger(calls[..|calls| - 1]) then [calls[|calls| - 1].key]
    else SeenThisLedger(calls[..|calls| - 1]) + [calls[|calls| - 1].key]
  }

  /** What an exact index would answer to the next call. */
  ghost predicate IsDuplicate(calls: seq<Call>, next: Call) {
    next.ledger <= MaxLedger(calls) && next.key in SeenThisLedger(calls)
  }

  lemma CallSnoc(calls: seq<Call>, c: Call)
    ensures MaxLedger(calls + [c]) == if c.ledger > MaxLedger(calls) then c.ledger else MaxLedger(calls)
    ensures SeenThisLedger(calls + [c])
      == (if c.ledger > MaxLedger(calls) then [] else SeenThisLedger(calls)) + [c.key]
  {
    assert (calls + [c])[..|calls|] == calls;
  }

  /** The state of the filter: its bits, the running maximum ledger, and how often it was rebuilt. */
  datatype Session = Session(inner: Bloom, currentLedger: nat, resets: nat)

  function FreshSession(hashes: nat -> Hash): Session { Session(Bloom(hashes(0), {}), 0, 0) }

  datatype Visited = Visited(session: Session, duplicate: bool)

  /** A new maximum ledger empties the filter. */
  function Emptied(s: Session, hashes: nat -> Hash, ledger: nat): Session {
    if ledger > s.currentLedger then Session(Bloom(hashes(s.resets + 1), {}), ledger, s.resets + 1) else s
  }

  /** One `check_and_set`. */
  function Visit(s: Session, hashes: nat -> Hash, key: string, ledger: nat): Visited {
    var t := Emptied(s, hashes, ledger);
    if t.inner.Check(key) then Visited(t, true) else Visited(t.(inner := t.inner.Set(key)), false)
  }

  /** The filter has taken exactly the keys seen since the running maximum last grew. */
  ghost predicate Tracks(s: Session, hashes: nat -> Hash, calls: seq<Call>) {
    && s.currentLedger == MaxLedger(calls) && s.inner.hash == hashes(s.resets)
    && s.inner.bits == BitsOf(s.inner.hash, SeenThisLedger(calls))
  }

  lemma FreshTracks(hashes: nat -> Hash)
    ensures Tracks(FreshSession(hashes), hashes, [])
  {
  }

  /** What the filter remembers when a call for this ledger comes in. */
  ghost function Remembered(calls: seq<Call>, ledger: nat): seq<string> {
    if ledger > MaxLedger(calls) then [] else SeenThisLedger(calls)
  }

  /** Exactly the duplicates of the exact index are reported, and keys whose bits those remembered cover. */
  lemma VisitTracks(s: Session, hashes: nat -> Hash, calls: seq<Call>, c: Call)
    requires Tracks(s, hashes, calls)
    ensures var v := Visit(s, hashes, c.key, c.ledger);
      && Tracks(v.session, hashes, calls + [c])
      && (v.duplicate
          <==> IsDuplicate(calls, c) || FalselyCovered(v.session.inner.hash, Remembered(calls, c.ledger), c.key))
  {
    var seen, t := Remembered(calls, c.ledger), Emptied(s, hashes, c.ledger);
    CallSnoc(calls, c);
    HitIsMembership(t.inner, seen, c.key);
    TakenBits(t.inner, seen, c.key);
  }

  /** Taking a key that is hit already changes nothing. */
  lemma TakenBits(b: Bloom, keys: seq<string>, key: string)
    requires b.bits == BitsOf(b.hash, keys)
    ensures (if b.Check(key) then b.bits else b.Set(key).bits) == BitsOf(b.hash, keys + [key])
  {
    BitsSnoc(b.hash, keys, key);
  }

  class SessionBloomFilter {
    var inner: Bloom
    var currentLedger: nat
    var resets: nat
    const hashes: nat -> Hash
    ghost var calls: seq<Call>

    function View(): Session
      reads this
    {
      Session(inner, currentLedger, resets)
    }

    ghost predicate Valid()
      reads this
    {
      Tracks(View(), hashes, calls)
    }

    constructor (hashes: nat -> Hash)
      ensures Valid() && calls == [] && View() == FreshSession(hashes) && this.hashes == hashes
    {
      this.hashes := hashes;
      inner, currentLedger, resets, calls := Bloom(hashes(0), {}), 0, 0, [];
    }

    /** The body of `check_and_set`, once the key is built. */
    method CheckKey(key: string, ledger: nat) returns (duplicate: bool)
      modifies `inner, `currentLedger, `resets
      ensures Visited(View(), duplicate) == Visit(old(View()), hashes, key, ledger)
    {
      if ledger > currentLedger {
        resets := resets + 1;
        inner := Bloom(hashes(resets), {});
        currentLedger := ledger;
      }
      duplicate := inner.Check(key);
      if !duplicate {
        inner := inner.Set(key);
      }
    }

    /**
     * `check_and_set`: reports every duplicate the exact index would report, and
     * besides only keys covered by those remembered, ledgers arriving in any order.
     */
    method CheckAndSet(txHash: string, contractId: string, eventType: string, ledger: nat) returns (duplicate: bool)
      requires Valid()
      modifies this
      ensures Valid() && calls == old(calls) + [Call(EventKey(txHash, contractId, eventType), ledger)]
      ensures duplicate
        <==> old(IsDuplicate(calls, Call(EventKey(txHash, contractId, eventType), ledger)))
             || FalselyCovered(inner.hash, Remembered(old(calls), ledger), EventKey(txHash, contractId, eventType))
    {
      ghost var c := Call(EventKey(txHash, contractId, eventType), ledger);
      VisitTracks(View(), hashes, calls, c);
      duplicate := CheckKey(EventKey(txHash, contractId, eventType), ledger);
      calls := calls + [c];
    }
  }
}
