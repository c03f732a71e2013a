/**
 * Keyset pagination over the events that touch an address
 * (src/account_events.rs, `get_account_events`).
 */
module AccountEvents {
  import opened Options
  import opened Numerals

  const UUID_RANGE := 0x1_0000_0000_0000_0000_0000_0000_0000_0000
  const I64_HALF := 0x8000_0000_0000_0000

  type Uuid = n: nat | n < UUID_RANGE
  type i64 = i: int | -I64_HALF <= i < I64_HALF

  /** The sort key of an event; also what a cursor names. */
  datatype Pos = Pos(ledger: i64, id: Uuid)

  predicate Less(p: Pos, q: Pos) {
    p.ledger < q.ledger || (p.ledger == q.ledger && p.id < q.id)
  }

  // ------------------------------------------------------------ database

  datatype AddressRow = AddressRow(eventId: Uuid, address: string, position: int)

  /**
   * Events by id, with their ledger, and the address index with one row per
   * topic position. An index row repeats the ledger of its event, which is
   * what it is written with, so the model reads it from the event.
   */
  datatype Db = Db(events: map<Uuid, i64>, addresses: set<AddressRow>)

  datatype Filter = Filter(address: string, position: Option<int>, fromLedger: Option<i64>, toLedger: Option<i64>) {
    predicate Accepts(a: AddressRow, ledger: i64) {
      && a.address == address
      && (position.None? || a.position == position.value)
      && (fromLedger.None? || ledger >= fromLedger.value)
      && (toLedger.None? || ledger <= toLedger.value)
    }
  }

  /** Matching events; an address in several positions of one event counts once. */
  ghost function Matching(db: Db, f: Filter): set<Pos> {
    set a | a in db.addresses && a.eventId in db.events && f.Accepts(a, db.events[a.eventId])
      :: Pos(db.events[a.eventId], a.eventId)
  }

  ghost function Below(s: set<Pos>, cursor: Option<Pos>): set<Pos> {
    set p | p in s && (cursor.None? || Less(p, cursor.value))
  }

  ghost predicate IsGreatest(s: set<Pos>, m: Pos) {
    m in s && forall p :: p in s ==> p == m || Less(p, m)
  }

  lemma {:induction false} GreatestExists(s: set<Pos>) returns (m: Pos)
    requires s != {}
    ensures IsGreatest(s, m)
  {
    var x :| x in s;
    if s == {x} {
      m := x;
    } else {
      var n := GreatestExists(s - {x});
      m := if Less(n, x) then x else n;
      forall p | p in s ensures p == m || Less(p, m) {
        assert p == x || p in s - {x};
      }
    }
  }

  ghost function Greatest(s: set<Pos>): (m: Pos)
    requires s != {}
    ensures IsGreatest(s, m)
  {
    assert exists m :: IsGreatest(s, m) by {
      var m := GreatestExists(s);
    }
    var m :| IsGreatest(s, m);
    m
  }

  /** `ORDER BY ledger DESC, id DESC`. */
  ghost function SortDesc(s: set<Pos>): seq<Pos> {
    if s == {} then [] else [Greatest(s)] + SortDesc(s - {Greatest(s)})
  }

  ghost predicate Descending(ps: seq<Pos>) {
    forall i, j :: 0 <= i < j < |ps| ==> Less(ps[j], ps[i])
  }

  ghost function Elements(ps: seq<Pos>): set<Pos> { set p | p in ps }

  lemma {:induction false} SortDescSorts(s: set<Pos>)
    ensures Descending(SortDesc(s)) && Elements(SortDesc(s)) == s && |SortDesc(s)| == |s|
  {
    if s != {} {
      var m := Greatest(s);
      SortDescSorts(s - {m});
      var rest := SortDesc(s - {m});
      assert SortDesc(s) == [m] + rest;
      forall p | p in rest ensures p in s && Less(p, m) {
        assert p in Elements(rest);
      }
      assert forall p :: p in SortDesc(s) <==> p == m || p in rest;
      assert forall p :: p in rest <==> p in Elements(rest);
    }
  }

  lemma FirstIsElement(ps: seq<Pos>)
    requires ps != []
    ensures ps[0] in Elements(ps)
  {
  }

  /** A set has one descending enumeration. */
  lemma {:induction false} DescendingUnique(a: seq<Pos>, b: seq<Pos>)
    requires Descending(a) && Descending(b) && Elements(a) == Elements(b)
    ensures a == b
  {
    if a == [] {
      if b != [] {
        FirstIsElement(b);
      }
    } else {
      assert a[0] in Elements(b) && (b != [] ==> b[0] in Elements(a));
      assert a[0] == b[0];
      forall p ensures p in Elements(a[1..]) <==> p in Elements(b[1..]) {
        assert p in Elements(a) <==> p == a[0] || p in a[1..];
        assert p in Elements(b) <==> p == b[0] || p in b[1..];
        assert a[0] !in a[1..] && b[0] !in b[1..];
      }
      DescendingUnique(a[1..], b[1..]);
      assert a == [a[0]] + a[1..] && b == [b[0]] + b[1..];
    }
  }

  function Take<T>(s: seq<T>, n: nat): seq<T> { if |s| <= n then s else s[..n] }

  /** The SQL query: matching events below the cursor, newest first, at most `n`. */
  ghost function Query(db: Db, f: Filter, cursor: Option<Pos>, n: nat): seq<Pos> {
    Take(SortDesc(Below(Matching(db, f), cursor)), n)
  }

  // ---------------------------------------------------------------- pages

  datatype Page = Page(events: seq<Pos>, nextCursor: Option<Pos>)

  /** What a page request must answer. */
  ghost function PageOf(db: Db, f: Filter, cursor: Option<Pos>, limit: nat): Page
    requires limit >= 1
  {
    var all := SortDesc(Below(Matching(db, f), cursor));
    if |all| > limit then Page(all[..limit], Some(all[limit - 1])) else Page(all, None)
  }

  /** The loop over the fetched rows, one more than asked for if there are more. */
  method BuildPage(rows: seq<Pos>, limit: nat) returns (page: Page)
    requires limit >= 1
    ensures page == if |rows| > limit then Page(rows[..limit], Some(rows[limit - 1])) else Page(rows, None)
  {
    var hasMore := |rows| > limit;
    var items: seq<Pos> := [];
    var next: Option<Pos> := None;
    var n := if hasMore then limit else |rows|;
    for i := 0 to n
      invariant items == rows[..i]
      invariant next == if i == 0 then None else Some(rows[i - 1])
    {
      next := Some(rows[i]);
      items := items + [rows[i]];
    }
    page := Page(items, if hasMore then next else None);
  }

  /** Later states of the database only have more rows. */
  ghost predicate Grows(before: Db, after: Db) {
    && before.addresses <= after.addresses
    && forall id :: id in before.events ==> id in after.events && after.events[id] == before.events[id]
  }

  /** Following `next_cursor` page by page to the end, page `i` being read from database `dbs[i]`. */
  ghost predicate IsWalk(f: Filter, limit: nat, dbs: seq<Db>, pages: seq<Page>, start: Option<Pos>)
    requires limit >= 1
    decreases |pages|
  {
    && |dbs| == |pages| >= 1
    && pages[0] == PageOf(dbs[0], f, start, limit)
    && (if pages[0].nextCursor.None? then |pages| == 1
        else |pages| > 1 && Grows(dbs[0], dbs[1]) && IsWalk(f, limit, dbs[1..], pages[1..], pages[0].nextCursor))
  }

  ghost function Concat(pages: seq<Page>): seq<Pos> {
    if |pages| == 0 then [] else pages[0].events + Concat(pages[1..])
  }

  /** Cutting a descending enumeration after `n` elements cuts its set at the last element kept. */
  lemma CutDescending(all: seq<Pos>, n: nat)
    requires Descending(all) && 1 <= n <= |all|
    ensures forall p :: p in all ==> (p in all[..n] <==> !Less(p, all[n - 1]))
  {
    forall p | p in all ensures p in all[..n] <==> !Less(p, all[n - 1]) {
      var i :| 0 <= i < |all| && all[i] == p;
      if i < n {
        assert all[..n][i] == p;
      } else {
        assert forall j :: 0 <= j < n ==> Less(p, all[..n][j]);
      }
    }
  }

  /** A page splits what lies below its cursor: its items, and exactly the rest below the next cursor. */
  ghost predicate Splits(db: Db, f: Filter, cursor: Option<Pos>, page: Page) {
    && Descending(page.events)
    && (page.nextCursor.None? ==> Elements(page.events) == Below(Matching(db, f), cursor))
    && (page.nextCursor.Some? ==> page.nextCursor.value in page.events)
    && (forall p :: p in page.events <==>
          p in Below(Matching(db, f), cursor) && (page.nextCursor.None? || !Less(p, page.nextCursor.value)))
  }

  lemma PageSplits(db: Db, f: Filter, cursor: Option<Pos>, limit: nat)
    requires limit >= 1
    ensures Splits(db, f, cursor, PageOf(db, f, cursor, limit))
  {
    var s := Below(Matching(db, f), cursor);
    var all := SortDesc(s);
    SortDescSorts(s);
    assert forall p :: p in all <==> p in Elements(all);
    if |all| > limit {
      CutDescending(all, limit);
      assert all[..limit][limit - 1] == all[limit - 1];
      assert forall p :: p in all[..limit] ==> p in all;
    }
  }

  // ---------------------------------------------------------- whole walks

  lemma GrowthKeepsMatches(before: Db, after: Db, f: Filter)
    requires Grows(before, after)
    ensures Matching(before, f) <= Matching(after, f)
  {
    forall p | p in Matching(before, f) ensures p in Matching(after, f) {
      var a :| a in before.addresses && a.eventId in before.events && f.Accepts(a, before.events[a.eventId])
               && p == Pos(before.events[a.eventId], a.eventId);
      assert a in after.addresses;
    }
  }

  /**
   * Following the cursors, whatever rows are inserted in between, gives strictly
   * descending events, all of them matching in the last state read, and every
   * event that matched below the starting point at the beginning.
   */
  lemma {:induction false} WalkVisitsEverything(f: Filter, limit: nat, dbs: seq<Db>, pages: seq<Page>, start: Option<Pos>)
    requires limit >= 1 && IsWalk(f, limit, dbs, pages, start)
    ensures Descending(Concat(pages))
    ensures forall p :: p in Concat(pages) ==> start.None? || Less(p, start.value)
    ensures forall p :: p in Below(Matching(dbs[0], f), start) ==> p in Concat(pages)
    ensures forall p :: p in Concat(pages) ==> p in Matching(dbs[|dbs| - 1], f)
    decreases |pages|
  {
    var page := pages[0];
    PageSplits(dbs[0], f, start, limit);
    if page.nextCursor.None? {
      assert pages[1..] == [] && Concat(pages) == page.events + [];
      assert page.events + [] == page.events;
      assert forall p :: p in page.events <==> p in Elements(page.events);
    } else {
      var rest := Concat(pages[1..]);
      WalkVisitsEverything(f, limit, dbs[1..], pages[1..], page.nextCursor);
      assert dbs[1..][0] == dbs[1] && dbs[1..][|dbs| - 2] == dbs[|dbs| - 1];
      GrowthKeepsMatches(dbs[0], dbs[1], f);
      WalkGrows(f, limit, dbs, pages, start);
      GrowthKeepsMatches(dbs[0], dbs[|dbs| - 1], f);
      JoinDescending(page.events, rest, page.nextCursor.value);
      forall p | p in Below(Matching(dbs[0], f), start) ensures p in Concat(pages) {
        if Less(p, page.nextCursor.value) {
          assert p in Below(Matching(dbs[1], f), page.nextCursor);
        }
      }
    }
  }

  lemma JoinDescending(a: seq<Pos>, b: seq<Pos>, cut: Pos)
    requires Descending(a) && Descending(b)
    requires forall p :: p in a ==> !Less(p, cut)
    requires forall p :: p in b ==> Less(p, cut)
    ensures Descending(a + b)
  {
    forall i, j | 0 <= i < j < |a + b| ensures Less((a + b)[j], (a + b)[i]) {
      if i < |a| <= j {
        assert a[i] in a && b[j - |a|] in b;
      }
    }
  }

  lemma {:induction false} WalkGrows(f: Filter, limit: nat, dbs: seq<Db>, pages: seq<Page>, start: Option<Pos>)
    requires limit >= 1 && IsWalk(f, limit, dbs, pages, start)
    ensures Grows(dbs[0], dbs[|dbs| - 1])
    decreases |pages|
  {
    if pages[0].nextCursor.Some? {
      WalkGrows(f, limit, dbs[1..], pages[1..], pages[0].nextCursor);
      assert dbs[1..][0] == dbs[1] && dbs[1..][|dbs| - 2] == dbs[|dbs| - 1];
    }
  }

  ghost predicate OccursOnlyAt(ps: seq<Pos>, p: Pos, i: int) {
    0 <= i < |ps| && forall j :: 0 <= j < |ps| ==> (ps[j] == p <==> j == i)
  }

  /** A full walk lists every initially matching event exactly once. */
  lemma EveryMatchExactlyOnce(f: Filter, limit: nat, dbs: seq<Db>, pages: seq<Page>, p: Pos)
    requires limit >= 1 && IsWalk(f, limit, dbs, pages, None)
    requires p in Matching(dbs[0], f)
    ensures exists i :: OccursOnlyAt(Concat(pages), p, i)
  {
    WalkVisitsEverything(f, limit, dbs, pages, None);
    var all := Concat(pages);
    assert p in all;
    var i :| 0 <= i < |all| && all[i] == p;
    forall j | 0 <= j < |all| ensures all[j] == p <==> j == i {
      assert j < i ==> Less(all[i], all[j]);
      assert i < j ==> Less(all[j], all[i]);
    }
    assert OccursOnlyAt(all, p, i);
  }

  /** Without inserts the pages concatenate to the full sorted answer. */
  lemma QuietWalkIsFullAnswer(f: Filter, limit: nat, dbs: seq<Db>, pages: seq<Page>)
    requires limit >= 1 && IsWalk(f, limit, dbs, pages, None)
    requires forall i :: 0 <= i < |dbs| ==> dbs[i] == dbs[0]
    ensures Concat(pages) == SortDesc(Matching(dbs[0], f))
  {
    WalkVisitsEverything(f, limit, dbs, pages, None);
    SortDescSorts(Matching(dbs[0], f));
    assert forall p :: p in Concat(pages) <==> p in Elements(Concat(pages));
    forall p ensures p in Elements(Concat(pages)) <==> p in Matching(dbs[0], f) {
      if p in Matching(dbs[0], f) {
        assert p in Below(Matching(dbs[0], f), None);
      }
    }
    DescendingUnique(Concat(pages), SortDesc(Matching(dbs[0], f)));
  }

  /** Each page that promises more leaves strictly fewer matches below its cursor. */
  lemma CursorsAdvance(db: Db, f: Filter, cursor: Option<Pos>, limit: nat)
    requires limit >= 1 && PageOf(db, f, cursor, limit).nextCursor.Some?
    ensures Below(Matching(db, f), PageOf(db, f, cursor, limit).nextCursor) < Below(Matching(db, f), cursor)
  {
    PageSplits(db, f, cursor, limit);
    var next := PageOf(db, f, cursor, limit).nextCursor.value;
    assert next in Below(Matching(db, f), cursor);
  }

  ghost function Unchanging(db: Db, n: nat): seq<Db> { seq(n, i => db) }

  lemma SmallerSet(a: set<Pos>, b: set<Pos>)
    requires a < b
    ensures |a| < |b|
  {
    assert b == a + (b - a);
    assert b - a != {};
  }

  /** So a walk of a database that does not change comes to its end, wherever it starts. */
  lemma {:induction false} WalkEnds(db: Db, f: Filter, limit: nat, start: Option<Pos>) returns (pages: seq<Page>)
    requires limit >= 1
    ensures IsWalk(f, limit, Unchanging(db, |pages|), pages, start)
    decreases |Below(Matching(db, f), start)|
  {
    var page := PageOf(db, f, start, limit);
    if page.nextCursor.None? {
      pages := [page];
    } else {
      CursorsAdvance(db, f, start, limit);
      SmallerSet(Below(Matching(db, f), page.nextCursor), Below(Matching(db, f), start));
      var rest := WalkEnds(db, f, limit, page.nextCursor);
      pages := [page] + rest;
      assert pages[1..] == rest && Unchanging(db, |pages|)[1..] == Unchanging(db, |rest|);
    }
  }

  // ------------------------------------------------------- cursors as text

  /** The hyphenated lower-case form of a UUID: 8-4-4-4-12 hexadecimal digits. */
  function UuidText(id: Uuid): (s: string)
    ensures |s| == 36
  {
    var h := Fixed(Sixteen, 32, id, false);
    h[..8] + "-" + h[8..12] + "-" + h[12..16] + "-" + h[16..20] + "-" + h[20..]
  }

  function ParseUuid(s: string): Option<Uuid> {
    if |s| != 36 || s[8] != '-' || s[13] != '-' || s[18] != '-' || s[23] != '-' then None
    else
      match Numeral(Sixteen, s[..8] + s[9..13] + s[14..18] + s[19..23] + s[24..])
      case Some(n) => if n < UUID_RANGE then Some(n) else None
      case None => None
  }

  /** `format!("{l}:{id}")`. */
  function CursorText(p: Pos): string { Signed(p.ledger) + [':'] + UuidText(p.id) }

  function ParseCursor(s: string): Option<Pos> {
    match SplitOnce(s, ':')
    case None => None
    case Some((l, i)) =>
      match (ParseSigned(l, I64_HALF), ParseUuid(i))
      case (Some(ledger), Some(id)) => Some(Pos(ledger, id))
      case _ => None
  }

  lemma HexRange()
    ensures Range(Sixteen, 32) == UUID_RANGE
  {
    assert Range(Sixteen, 8) == 0x1_0000_0000;
    assert Range(Sixteen, 16) == 0x1_0000_0000_0000_0000;
    assert Range(Sixteen, 24) == 0x1_0000_0000_0000_0000_0000_0000;
  }

  /** Taking the hyphens out of the text leaves the 32 digits. */
  lemma HyphensComeOut(h: string)
    requires |h| == 32
    ensures var s := h[..8] + "-" + h[8..12] + "-" + h[12..16] + "-" + h[16..20] + "-" + h[20..];
      |s| == 36 && s[8] == '-' && s[13] == '-' && s[18] == '-' && s[23] == '-'
      && s[..8] + s[9..13] + s[14..18] + s[19..23] + s[24..] == h
  {
    var s := h[..8] + "-" + h[8..12] + "-" + h[12..16] + "-" + h[16..20] + "-" + h[20..];
    assert s[..8] == h[..8] && s[9..13] == h[8..12] && s[14..18] == h[12..16] && s[19..23] == h[16..20] && s[24..] == h[20..];
    assert h[..8] + h[8..12] == h[..12] && h[..12] + h[12..16] == h[..16] && h[..16] + h[16..20] == h[..20];
  }

  lemma UuidRoundTrip(id: Uuid)
    ensures ParseUuid(UuidText(id)) == Some(id)
  {
    HexRange();
    FixedReads(Sixteen, 32, id, false);
    HyphensComeOut(Fixed(Sixteen, 32, id, false));
  }

  /** A cursor handed out by one page is read back as the same position by the next. */
  lemma CursorRoundTrip(p: Pos)
    ensures ParseCursor(CursorText(p)) == Some(p)
  {
    SignedParses(p.ledger, I64_HALF);
    UuidRoundTrip(p.id);
    SplitOnceFinds(Signed(p.ledger), ':', UuidText(p.id));
  }

  /** The hyphenated form of the number: hexadecimal digits of either case, 8-4-4-4-12 of them. */
  ghost predicate IsUuidText(s: string, id: Uuid) {
    exists a: string, b: string, c: string, d: string, e: string ::
      && |a| == 8 && |b| == 4 && |c| == 4 && |d| == 4 && |e| == 12
      && s == a + "-" + b + "-" + c + "-" + d + "-" + e && Numeral(Sixteen, a + b + c + d + e) == Some(id)
  }

  /** Ids are written with small letters. */
  lemma UuidTextIsSmall(id: Uuid)
    ensures forall c :: c in UuidText(id) ==> c == '-' || '0' <= c <= '9' || 'a' <= c <= 'f'
  {
    FixedCase(Sixteen, 32, id, false);
    HyphensAdded(Fixed(Sixteen, 32, id, false));
  }

  lemma HyphensAdded(h: string)
    requires |h| == 32
    ensures forall c :: c in h[..8] + "-" + h[8..12] + "-" + h[12..16] + "-" + h[16..20] + "-" + h[20..] ==> c == '-' || c in h
  {
  }

  lemma UuidTextsRead(s: string, id: Uuid)
    ensures ParseUuid(s) == Some(id) <==> IsUuidText(s, id)
  {
    if ParseUuid(s) == Some(id) {
      var a, b, c, d, e := s[..8], s[9..13], s[14..18], s[19..23], s[24..];
      assert s == a + "-" + b + "-" + c + "-" + d + "-" + e;
    }
    if a: string, b: string, c: string, d: string, e: string :|
      && |a| == 8 && |b| == 4 && |c| == 4 && |d| == 4 && |e| == 12
      && s == a + "-" + b + "-" + c + "-" + d + "-" + e && Numeral(Sixteen, a + b + c + d + e) == Some(id) {
      UuidPartsRead(s, a, b, c, d, e, id);
    }
  }

  lemma UuidPartsRead(s: string, a: string, b: string, c: string, d: string, e: string, id: Uuid)
    requires |a| == 8 && |b| == 4 && |c| == 4 && |d| == 4 && |e| == 12
    requires s == a + "-" + b + "-" + c + "-" + d + "-" + e && Numeral(Sixteen, a + b + c + d + e) == Some(id)
    ensures ParseUuid(s) == Some(id)
  {
    var h := a + b + c + d + e;
    FiveParts(a, b, c, d, e);
    HyphensComeOut(h);
  }

  lemma FiveParts(a: string, b: string, c: string, d: string, e: string)
    requires |a| == 8 && |b| == 4 && |c| == 4 && |d| == 4 && |e| == 12
    ensures var h := a + b + c + d + e;
      |h| == 32 && h[..8] == a && h[8..12] == b && h[12..16] == c && h[16..20] == d && h[20..] == e
  {
  }

  /** A cursor is a signed ledger, a colon and an id; anything else is refused. */
  lemma CursorTextsRead(s: string, p: Pos)
    ensures ParseCursor(s) == Some(p)
      <==> exists l: string, i: string :: s == l + ":" + i && ':' !in l && SignedText(l, p.ledger) && IsUuidText(i, p.id)
  {
    if ParseCursor(s) == Some(p) {
      var halves := SplitOnce(s, ':').value;
      ParseSignedReads(halves.0, I64_HALF, p.ledger);
      UuidTextsRead(halves.1, p.id);
      assert s == halves.0 + ":" + halves.1;
    }
    if l: string, i: string :| s == l + ":" + i && ':' !in l && SignedText(l, p.ledger) && IsUuidText(i, p.id) {
      SplitOnceFinds(l, ':', i);
      ParseSignedReads(l, I64_HALF, p.ledger);
      UuidTextsRead(i, p.id);
    }
  }

  // ------------------------------------------------------------ the handler

  datatype AppError = InvalidAddress | InvalidRole | InvalidCursor

  datatype Request = Request(role: Option<string>, fromLedger: Option<i64>, toLedger: Option<i64>,
                             cursor: Option<string>, limit: Option<i64>)

  datatype Answer = Answer(events: seq<Pos>, nextCursor: Option<string>)

  predicate StrkeyChar(c: char) { 'A' <= c <= 'Z' || '2' <= c <= '7' }

  /** `is_address`. */
  predicate IsAddress(s: string) {
    && s != ""
    && (if s[0] == 'G' || s[0] == 'C' then |s| == 56 else s[0] == 'M' && |s| == 69)
    && forall i :: 0 <= i < |s| ==> StrkeyChar(s[i])
  }

  function RolePosition(role: Option<string>): Result<Option<int>, AppError> {
    match role
    case None => Ok(None)
    case Some(r) =>
      if r == "any" then Ok(None)
      else if r == "topic1" then Ok(Some(1))
      else if r == "topic2" then Ok(Some(2))
      else Err(InvalidRole)
  }

  function PageSize(limit: Option<i64>): (n: nat)
    ensures 1 <= n <= 200
  {
    match limit
    case None => 50
    case Some(l) => if l < 1 then 1 else if l > 200 then 200 else l
  }

  /** The handler's answer: the errors in the order they are checked, then the page. */
  ghost function Expected(db: Db, address: string, q: Request): Result<Answer, AppError> {
    if !IsAddress(address) then Err(InvalidAddress)
    else if RolePosition(q.role).Err? then Err(InvalidRole)
    else if q.cursor.Some? && ParseCursor(q.cursor.value).None? then Err(InvalidCursor)
    else
      var page := PageOf(db, RequestFilter(address, q), RequestCursor(q), PageSize(q.limit));
      Ok(Answer(page.events, if page.nextCursor.None? then None else Some(CursorText(page.nextCursor.value))))
  }

  ghost function RequestFilter(address: string, q: Request): Filter
    requires RolePosition(q.role).Ok?
  {
    Filter(address, RolePosition(q.role).value, q.fromLedger, q.toLedger)
  }

  ghost function RequestCursor(q: Request): Option<Pos> {
    if q.cursor.None? then None else ParseCursor(q.cursor.value)
  }

  /** Fetching one row more than the page holds is enough to build the page. */
  lemma OneMoreIsEnough(all: seq<Pos>, limit: nat)
    requires limit >= 1
    ensures var rows := Take(all, limit + 1);
      (|rows| > limit <==> |all| > limit)
      && (|all| > limit ==> rows[..limit] == all[..limit] && rows[limit - 1] == all[limit - 1])
      && (|all| <= limit ==> rows == all)
  {
  }

  /**
   * `get_account_events`; `fetch` is the database: what it returns for the address, position,
   * bounds, cursor and limit bound to the query.
   */
  method GetAccountEvents(ghost db: Db, address: string, q: Request, fetch: (Filter, Option<Pos>, nat) -> seq<Pos>)
    returns (r: Result<Answer, AppError>)
    requires forall f, cursor, n :: fetch(f, cursor, n) == Query(db, f, cursor, n)
    ensures r == Expected(db, address, q)
    ensures r == Err(InvalidAddress) <==> !Strkey(address)
    ensures r == Err(InvalidRole) <==> Strkey(address) && !KnownRole(q.role)
    ensures r == Err(InvalidCursor) <==>
      Strkey(address) && KnownRole(q.role) && q.cursor.Some? && ParseCursor(q.cursor.value).None?
    ensures r.Ok? ==> Answers(db, address, q, r.value)
  {
    ExpectedAnswers(db, address, q);
    if !IsAddress(address) {
      return Err(InvalidAddress);
    }
    var position := RolePosition(q.role);
    if position.Err? {
      return Err(position.error);
    }
    var cursor: Option<Pos> := None;
    if q.cursor.Some? {
      cursor := ParseCursor(q.cursor.value);
      if cursor.None? {
        return Err(InvalidCursor);
      }
    }
    var limit := PageSize(q.limit);
    var f := Filter(address, position.value, q.fromLedger, q.toLedger);
    var fetched := fetch(f, cursor, limit + 1);
    OneMoreIsEnough(SortDesc(Below(Matching(db, f), cursor)), limit);
    var page := BuildPage(fetched, limit);
    assert page == PageOf(db, f, cursor, limit);
    r := Ok(Answer(page.events, if page.nextCursor.None? then None else Some(CursorText(page.nextCursor.value))));
  }

  // -------------------------------------- what a request is answered, in full

  predicate Base32(c: char) { 'A' <= c <= 'Z' || '2' <= c <= '7' }

  /** A G or C address of 56 characters, or an M address of 69. */
  ghost predicate Strkey(s: string) {
    && ((|s| == 56 && s[0] in {'G', 'C'}) || (|s| == 69 && s[0] == 'M'))
    && forall c :: c in s ==> Base32(c)
  }

  predicate KnownRole(role: Option<string>) {
    role in {None, Some("any"), Some("topic1"), Some("topic2")}
  }

  /** `p` comes after `q` in the order newest first. */
  predicate Older(p: Pos, q: Pos) {
    p.ledger < q.ledger || (p.ledger == q.ledger && p.id < q.id)
  }

  ghost predicate NewestFirst(ps: seq<Pos>) {
    forall i, j :: 0 <= i < j < |ps| ==> Older(ps[j], ps[i])
  }

  /** An index row that names the address in the position asked for, or in any. */
  ghost predicate Names(a: AddressRow, address: string, role: Option<string>) {
    && a.address == address
    && (role == Some("topic1") ==> a.position == 1)
    && (role == Some("topic2") ==> a.position == 2)
  }

  /** The event is stored, its topics name the address, and its ledger is within the bounds. */
  ghost predicate Touches(db: Db, address: string, q: Request, p: Pos) {
    && p.id in db.events && db.events[p.id] == p.ledger
    && (exists a :: a in db.addresses && a.eventId == p.id && Names(a, address, q.role))
    && (q.fromLedger.Some? ==> q.fromLedger.value <= p.ledger)
    && (q.toLedger.Some? ==> p.ledger <= q.toLedger.value)
  }

  /** The event comes after the one the request's cursor names. */
  ghost predicate AfterCursor(q: Request, p: Pos) {
    q.cursor.Some? ==> exists c :: ParseCursor(q.cursor.value) == Some(c) && Older(p, c)
  }

  /** A page holds `n` events: 50, or as many as requested, but at least 1 and at most 200. */
  predicate PageHolds(limit: Option<i64>, n: nat) {
    && 1 <= n <= 200 && (limit.None? ==> n == 50)
    && (limit.Some? ==> if 1 <= limit.value <= 200 then n == limit.value else n == if limit.value < 1 then 1 else 200)
  }

  /** What `answer` must be for the request, said of the events it lists. */
  ghost predicate Answers(db: Db, address: string, q: Request, answer: Answer) {
    && NewestFirst(answer.events)
    && (forall p :: p in answer.events ==> Touches(db, address, q, p) && AfterCursor(q, p))
    && (forall n :: PageHolds(q.limit, n) ==> |answer.events| <= n && (answer.nextCursor.Some? ==> |answer.events| == n))
    && (match answer.nextCursor
        case None => forall p :: Touches(db, address, q, p) && AfterCursor(q, p) ==> p in answer.events
        case Some(text) =>
          answer.events != []
          && var last := answer.events[|answer.events| - 1];
             && text == Signed(last.ledger) + ":" + UuidText(last.id)
             && forall p :: Touches(db, address, q, p) && AfterCursor(q, p) ==> p in answer.events || Older(p, last))
  }

  lemma TouchesIffMatches(db: Db, address: string, q: Request, p: Pos)
    requires RolePosition(q.role).Ok? && (q.cursor.Some? ==> ParseCursor(q.cursor.value).Some?)
    ensures Touches(db, address, q, p) && AfterCursor(q, p)
      <==> p in Below(Matching(db, RequestFilter(address, q)), RequestCursor(q))
  {
    var f := RequestFilter(address, q);
    if Touches(db, address, q, p) {
      var a :| a in db.addresses && a.eventId == p.id && Names(a, address, q.role);
      assert f.Accepts(a, db.events[a.eventId]) && p == Pos(db.events[a.eventId], a.eventId);
    }
    if p in Matching(db, f) {
      var a :| a in db.addresses && a.eventId in db.events && f.Accepts(a, db.events[a.eventId])
               && p == Pos(db.events[a.eventId], a.eventId);
      assert Names(a, address, q.role);
    }
  }

  lemma AddressesAreStrkeys(s: string)
    ensures IsAddress(s) <==> Strkey(s)
  {
    if IsAddress(s) {
      forall c | c in s ensures Base32(c) {
        var i :| 0 <= i < |s| && s[i] == c;
        assert StrkeyChar(s[i]);
      }
    }
    if Strkey(s) {
      forall i | 0 <= i < |s| ensures StrkeyChar(s[i]) {
        assert Base32(s[i]);
      }
    }
  }

  lemma ExpectedAnswers(db: Db, address: string, q: Request)
    ensures var r := Expected(db, address, q);
      && (r == Err(InvalidAddress) <==> !Strkey(address))
      && (r == Err(InvalidRole) <==> Strkey(address) && !KnownRole(q.role))
      && (r == Err(InvalidCursor) <==>
          Strkey(address) && KnownRole(q.role) && q.cursor.Some? && ParseCursor(q.cursor.value).None?)
      && (r.Ok? ==> Answers(db, address, q, r.value))
  {
    AddressesAreStrkeys(address);
    if Expected(db, address, q).Ok? {
      PageAnswers(db, address, q);
    }
  }

  lemma PageAnswers(db: Db, address: string, q: Request)
    requires Expected(db, address, q).Ok?
    ensures Answers(db, address, q, Expected(db, address, q).value)
  {
    var f, cursor := RequestFilter(address, q), RequestCursor(q);
    var page := PageOf(db, f, cursor, PageSize(q.limit));
    var asked := Below(Matching(db, f), cursor);
    PageSplits(db, f, cursor, PageSize(q.limit));
    forall p ensures Touches(db, address, q, p) && AfterCursor(q, p) <==> p in asked {
      TouchesIffMatches(db, address, q, p);
    }
    PageLists(asked, page);
    PageIsFull(db, f, cursor, PageSize(q.limit));
  }

  /** What a page splits off, event by event. */
  lemma PageLists(asked: set<Pos>, page: Page)
    requires page.nextCursor.None? ==> Elements(page.events) == asked
    requires page.nextCursor.Some? ==> forall p :: p in page.events <==> p in asked && !Less(p, page.nextCursor.value)
    ensures forall p :: p in page.events ==> p in asked
    ensures page.nextCursor.None? ==> forall p :: p in asked ==> p in page.events
    ensures page.nextCursor.Some? ==> forall p :: p in asked ==> p in page.events || Less(p, page.nextCursor.value)
  {
    assert forall p :: p in page.events <==> p in Elements(page.events);
  }

  lemma PageIsFull(db: Db, f: Filter, cursor: Option<Pos>, limit: nat)
    requires limit >= 1
    ensures var page := PageOf(db, f, cursor, limit);
      |page.events| <= limit
      && (page.nextCursor.Some? ==> |page.events| == limit && page.nextCursor.value == page.events[limit - 1])
  {
  }

  // --------------------------------------------------- following a request

  /** The answers to a request and to those that follow its cursors, the database staying as it is. */
  ghost predicate IsRequestWalk(db: Db, address: string, q: Request, answers: seq<Answer>)
    decreases |answers|
  {
    && answers != [] && Expected(db, address, q) == Ok(answers[0])
    && if answers[0].nextCursor.None? then |answers| == 1
       else IsRequestWalk(db, address, q.(cursor := answers[0].nextCursor), answers[1..])
  }

  ghost function AllEvents(answers: seq<Answer>): seq<Pos> {
    if answers == [] then [] else answers[0].events + AllEvents(answers[1..])
  }

  /** Requests that follow the cursors list every event they ask for, newest first and once, and no other. */
  lemma {:induction false} RequestWalkLists(db: Db, address: string, q: Request, answers: seq<Answer>)
    requires IsRequestWalk(db, address, q, answers)
    ensures NewestFirst(AllEvents(answers))
    ensures forall p :: p in AllEvents(answers) <==> Touches(db, address, q, p) && AfterCursor(q, p)
    decreases |answers|
  {
    ExpectedAnswers(db, address, q);
    var first := answers[0];
    assert AllEvents(answers) == first.events + AllEvents(answers[1..]);
    if first.nextCursor.None? {
      assert answers[1..] == [] && first.events + [] == first.events;
      LastPageIsAll(db, address, q, first);
    } else {
      var q' := q.(cursor := first.nextCursor);
      RequestWalkLists(db, address, q', answers[1..]);
      WalkContinues(db, address, q, first, AllEvents(answers[1..]));
    }
  }

  /** A page, followed by exactly what the next request asks for. */
  lemma WalkContinues(db: Db, address: string, q: Request, page: Answer, rest: seq<Pos>)
    requires Answers(db, address, q, page) && page.nextCursor.Some? && NewestFirst(rest)
    requires var q' := q.(cursor := page.nextCursor);
      forall p :: p in rest <==> Touches(db, address, q', p) && AfterCursor(q', p)
    ensures NewestFirst(page.events + rest)
    ensures forall p :: p in page.events + rest <==> Touches(db, address, q, p) && AfterCursor(q, p)
  {
    var last := page.events[|page.events| - 1];
    forall p ensures p in page.events + rest <==> Touches(db, address, q, p) && AfterCursor(q, p)
             ensures p in rest ==> Older(p, last) {
      NextAsksBelow(db, address, q, page, p);
      FirstOrBelow(db, address, q, page, p);
    }
    WalkJoins(page.events, rest, last);
  }

  lemma LastPageIsAll(db: Db, address: string, q: Request, page: Answer)
    requires Answers(db, address, q, page) && page.nextCursor.None?
    ensures forall p :: p in page.events <==> Touches(db, address, q, p) && AfterCursor(q, p)
  {
  }

  /** The next request asks for what comes after the last event of the page. */
  lemma NextAsksBelow(db: Db, address: string, q: Request, page: Answer, p: Pos)
    requires Answers(db, address, q, page) && page.nextCursor.Some?
    ensures var q' := q.(cursor := page.nextCursor);
      Touches(db, address, q', p) && AfterCursor(q', p)
      <==> Touches(db, address, q, p) && Older(p, page.events[|page.events| - 1])
  {
    var last := page.events[|page.events| - 1];
    CursorRoundTrip(last);
    assert CursorText(last) == page.nextCursor.value;
  }

  lemma FirstOrBelow(db: Db, address: string, q: Request, page: Answer, p: Pos)
    requires Answers(db, address, q, page) && page.nextCursor.Some?
    ensures p in page.events || (Touches(db, address, q, p) && Older(p, page.events[|page.events| - 1]))
      <==> Touches(db, address, q, p) && AfterCursor(q, p)
  {
    var last := page.events[|page.events| - 1];
    assert last in page.events && AfterCursor(q, last);
  }

  lemma WalkJoins(a: seq<Pos>, b: seq<Pos>, last: Pos)
    requires NewestFirst(a) && NewestFirst(b) && a != [] && a[|a| - 1] == last
    requires forall p :: p in b ==> Older(p, last)
    ensures NewestFirst(a + b)
  {
    forall i, j | 0 <= i < j < |a + b| ensures Older((a + b)[j], (a + b)[i]) {
      if i < |a| <= j {
        assert b[j - |a|] in b && (i < |a| - 1 ==> Older(last, a[i]));
      }
    }
  }

  /** Asking again with the returned cursor reads exactly the page after it. */
  lemma NextRequestContinues(db: Db, later: Db, address: string, q: Request)
    requires Expected(db, address, q).Ok? && Expected(db, address, q).value.nextCursor.Some?
    ensures var f := RequestFilter(address, q);
      var first := PageOf(db, f, RequestCursor(q), PageSize(q.limit));
      var second := Expected(later, address, q.(cursor := Expected(db, address, q).value.nextCursor));
      && first.nextCursor.Some? && second.Ok?
      && second.value.events == PageOf(later, f, first.nextCursor, PageSize(q.limit)).events
  {
    var first := PageOf(db, RequestFilter(address, q), RequestCursor(q), PageSize(q.limit));
    CursorRoundTrip(first.nextCursor.value);
  }
}
