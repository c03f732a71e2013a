/**
 * The WebAssembly section scanner (src/contract_specs.rs, `leb` and
 * `custom_section`), proved to undo a writer of the binary format
 * (WebAssembly Core Specification 1.0, sections 5.2.2, 5.5.2 and 5.5.3).
 */
module WasmSections {
  import opened Options

  const USIZE_RANGE := 0x1_0000_0000_0000_0000

  /** A slice never reaches half the address space. */
  const MAX_SLICE := 0x8000_0000_0000_0000

  function CheckedAdd(a: nat, b: nat): Option<nat> {
    if a + b < USIZE_RANGE then Some(a + b) else None
  }

  // --------------------------------------------------------------- LEB128

  function Pow128(k: nat): (n: nat)
    ensures n > 0
  {
    if k == 0 then 1 else 128 * Pow128(k - 1)
  }

  /** A number that was read, and where it ends. */
  datatype Reading = Reading(value: nat, end: nat)

  /** Value and end of the number at `p`, `k` of its bytes being behind; at most six bytes are read. */
  function LebAt(b: seq<Byte>, p: nat, k: nat): (r: Option<Reading>)
    ensures r.Some? ==> p < r.value.end <= |b|
    decreases |b| - p
  {
    if p >= |b| then None
    else if b[p] < 128 then if k <= 5 then Some(Reading(b[p], p + 1)) else None
    else if k >= 5 then None
    else
      var rest := LebAt(b, p + 1, k + 1);
      if rest.None? then None else Some(Reading(b[p] - 128 + 128 * rest.value.value, rest.value.end))
  }

  /** `n` in exactly `w` bytes, padded with zero groups if need be. */
  function Padded(n: nat, w: nat): (b: seq<Byte>)
    requires w >= 1 && n < Pow128(w)
    ensures |b| == w
    decreases w
  {
    if w == 1 then [n] else [n % 128 + 128] + Padded(n / 128, w - 1)
  }

  /** `n` in as few bytes as possible. */
  function Minimal(n: nat): (b: seq<Byte>)
    ensures |b| >= 1
  {
    if n < 128 then [n] else [n % 128 + 128] + Minimal(n / 128)
  }

  lemma {:induction false} MinimalIsPadded(n: nat)
    ensures n < Pow128(|Minimal(n)|) && Minimal(n) == Padded(n, |Minimal(n)|)
    ensures |Minimal(n)| > 1 ==> Pow128(|Minimal(n)| - 1) <= n
  {
    if n >= 128 {
      MinimalIsPadded(n / 128);
      assert Pow128(1) == 128;
    } else {
      assert Pow128(1) == 128;
    }
  }

  /** A padded number is its low group with the continuation bit, and the rest padded. */
  lemma SplitPadded(n: nat, w: nat) returns (low: nat, high: nat)
    requires w > 1 && n < Pow128(w)
    ensures n == 128 * high + low && low < 128 && high < Pow128(w - 1)
    ensures Padded(n, w) == [low + 128] + Padded(high, w - 1)
  {
    low, high := n % 128, n / 128;
  }

  lemma MoveByte(before: seq<Byte>, x: Byte, rest: seq<Byte>, after: seq<Byte>)
    ensures before + ([x] + rest) + after == (before + [x]) + rest + after
    ensures (before + ([x] + rest) + after)[|before|] == x
  {
  }

  /** A number written in up to six bytes, minimal or padded, is read back, wherever it stands. */
  lemma {:induction false} LebReadsPadded(before: seq<Byte>, n: nat, w: nat, after: seq<Byte>, k: nat)
    requires w >= 1 && n < Pow128(w) && k + w <= 6
    ensures LebAt(before + Padded(n, w) + after, |before|, k) == Some(Reading(n, |before| + w))
    decreases w
  {
    if w == 1 {
      assert Pow128(1) == 128;
      assert (before + [n] + after)[|before|] == n;
    } else {
      var low, high := SplitPadded(n, w);
      LebReadsPadded(before + [low + 128], high, w - 1, after, k + 1);
      MoveByte(before, low + 128, Padded(high, w - 1), after);
    }
  }

  /** Longer encodings are refused. */
  lemma {:induction false} LebRefusesLong(before: seq<Byte>, n: nat, w: nat, after: seq<Byte>, k: nat)
    requires w >= 1 && n < Pow128(w) && k <= 5 && k + w > 6
    ensures LebAt(before + Padded(n, w) + after, |before|, k) == None
    decreases w
  {
    var low, high := SplitPadded(n, w);
    MoveByte(before, low + 128, Padded(high, w - 1), after);
    if k < 5 {
      LebRefusesLong(before + [low + 128], high, w - 1, after, k + 1);
    }
  }

  lemma {:induction false} Pow128Monotone(m: nat, n: nat)
    requires m <= n
    ensures Pow128(m) <= Pow128(n)
    decreases n
  {
    if m < n {
      Pow128Monotone(m, n - 1);
    }
  }

  /** The reader inverts the LEB128 encoder exactly for the numbers below 2^42. */
  lemma LebInvertsEncoder(before: seq<Byte>, n: nat, after: seq<Byte>)
    ensures LebAt(before + Minimal(n) + after, |before|, 0)
         == if n < 0x400_0000_0000 then Some(Reading(n, |before| + |Minimal(n)|)) else None
  {
    MinimalIsPadded(n);
    var w := |Minimal(n)|;
    assert Pow128(3) == 0x20_0000;
    assert Pow128(6) == 0x400_0000_0000;
    if w <= 6 {
      Pow128Monotone(w, 6);
      LebReadsPadded(before, n, w, after, 0);
    } else {
      Pow128Monotone(6, w - 1);
      LebRefusesLong(before, n, w, after, 0);
    }
  }

  /** A 7-bit group joins what was gathered below it. */
  function Join(acc: nat, group: nat, scale: nat): nat { acc + group * scale }

  /** The result of a read that has gathered `acc` below `scale` and continues with `rest`. */
  function Resumed(acc: nat, scale: nat, rest: Option<Reading>): Option<Reading> {
    if rest.None? then None else Some(Reading(Join(acc, rest.value.value, scale), rest.value.end))
  }

  /** One continuation byte: its group joins what was gathered. */
  lemma NextGroup(b: seq<Byte>, p: nat, k: nat, acc: nat, scale: nat)
    requires p < |b| && b[p] >= 128 && k < 5 && acc < scale
    ensures Resumed(acc, scale, LebAt(b, p, k))
      == Resumed(Join(acc, b[p] - 128, scale), 128 * scale, LebAt(b, p + 1, k + 1))
    ensures Join(acc, b[p] - 128, scale) < 128 * scale
  {
    var rest := LebAt(b, p + 1, k + 1);
    if rest.Some? {
      Regroup(acc, b[p] - 128, rest.value.value, scale);
    }
    GroupFits(acc, b[p] - 128, scale);
  }

  lemma LastGroup(b: seq<Byte>, p: nat, k: nat, acc: nat, scale: nat)
    requires p < |b| && b[p] < 128 && k <= 5
    ensures Resumed(acc, scale, LebAt(b, p, k)) == Some(Reading(Join(acc, b[p], scale), p + 1))
  {
  }

  lemma ResumedFromStart(rest: Option<Reading>)
    ensures Resumed(0, 1, rest) == rest
  {
  }

  lemma Regroup(acc: nat, low: nat, v: nat, scale: nat)
    ensures acc + (low + 128 * v) * scale == acc + low * scale + v * (128 * scale)
  {
  }

  /** `leb`: `r |= group << shift` is an addition, the bits being disjoint. */
  method Leb(b: seq<Byte>, start: nat) returns (r: Option<nat>, p: nat)
    ensures LebAt(b, start, 0) == if r.Some? then Some(Reading(r.value, p)) else None
  {
    p := start;
    var acc: nat, k: nat, scale: nat := 0, 0, 1;
    ghost var whole := LebAt(b, start, 0);
    ResumedFromStart(whole);
    while true
      invariant k <= 5 && acc < scale
      invariant Resumed(acc, scale, LebAt(b, p, k)) == whole
      decreases 5 - k
    {
      if p >= |b| {
        return None, p;
      }
      var byte := b[p];
      p := p + 1;
      if byte < 128 {
        LastGroup(b, p - 1, k, acc, scale);
        acc := Join(acc, byte, scale);
        return Some(acc), p;
      }
      if 7 * (k + 1) > 35 {
        return None, p;
      }
      NextGroup(b, p - 1, k, acc, scale);
      acc := Join(acc, byte - 128, scale);
      scale := 128 * scale;
      k := k + 1;
    }
  }

  lemma GroupFits(acc: nat, low: nat, scale: nat)
    requires acc < scale && low < 128
    ensures acc + low * scale < 128 * scale
  {
    assert low * scale <= 127 * scale;
  }

  // --------------------------------------------------------- the scanner

  /** What a scan from some position finds: nothing usable, or the payloads and whether the name occurred. */
  datatype Found = Malformed | Found(payload: seq<Byte>, any: bool)

  function Prepend(payload: seq<Byte>, rest: Found): Found {
    if rest.Malformed? then Malformed else Found(payload + rest.payload, true)
  }

  datatype Named = Named(name: seq<Byte>, payload: seq<Byte>)

  /** A custom section: its name and payload, or nothing if the name does not fit in it. */
  function NameAndPayload(section: seq<Byte>): Option<Named> {
    var length := LebAt(section, 0, 0);
    if length.None? then None
    else
      var nameEnd := CheckedAdd(length.value.end, length.value.value);
      if nameEnd.None? || nameEnd.value > |section| then None
      else Some(Named(section[length.value.end..nameEnd.value], section[nameEnd.value..]))
  }

  /** What the scanner does with the section at some position. */
  datatype Move = Reject | Stop | Skip(next: nat) | Take(payload: seq<Byte>, next: nat)

  function MoveAt(wasm: seq<Byte>, name: seq<Byte>, p: nat): (m: Move)
    requires p < |wasm|
    ensures m.Skip? || m.Take? ==> p < m.next <= |wasm|
  {
    var size := LebAt(wasm, p + 1, 0);
    if size.None? then Reject else MoveOverSized(wasm, name, p, size.value)
  }

  function MoveOverSized(wasm: seq<Byte>, name: seq<Byte>, p: nat, size: Reading): (m: Move)
    requires p < size.end <= |wasm|
    ensures m.Skip? || m.Take? ==> p < m.next <= |wasm|
  {
    var end := CheckedAdd(size.end, size.value);
    if end.None? then Reject
    else if end.value > |wasm| then Stop
    else if wasm[p] != 0 then Skip(end.value)
    else MoveOverCustom(wasm[size.end..end.value], name, end.value)
  }

  function MoveOverCustom(contents: seq<Byte>, name: seq<Byte>, end: nat): (m: Move)
    ensures m.Skip? || m.Take? ==> m.next == end
  {
    var section := NameAndPayload(contents);
    if section.None? then Reject
    else if section.value.name == name then Take(section.value.payload, end)
    else Skip(end)
  }

  /** Scanning from position `p` to the end. */
  function Scan(wasm: seq<Byte>, name: seq<Byte>, p: nat): Found
    decreases |wasm| - p
  {
    if p >= |wasm| then Found([], false)
    else
      match MoveAt(wasm, name, p)
      case Reject => Malformed
      case Stop => Found([], false)
      case Skip(next) => Scan(wasm, name, next)
      case Take(payload, next) => Prepend(payload, Scan(wasm, name, next))
  }

  const MAGIC: seq<Byte> := [0x00, 0x61, 0x73, 0x6D]

  /** `custom_section` as a function. */
  function CustomSectionOf(wasm: seq<Byte>, name: seq<Byte>): Option<seq<Byte>> {
    if |wasm| < 4 || wasm[..4] != MAGIC then None
    else
      match Scan(wasm, name, 8)
      case Malformed => None
      case Found(payload, any) => if any then Some(payload) else None
  }

  /** What the loop has gathered, followed by what a scan of the rest finds. */
  function Gathered(out: seq<Byte>, found: bool, rest: Found): Found {
    if rest.Malformed? then Malformed else Found(out + rest.payload, found || rest.any)
  }

  /** `custom_section`; every slice stays in bounds on arbitrary bytes. */
  method CustomSection(wasm: seq<Byte>, name: seq<Byte>) returns (r: Option<seq<Byte>>)
    ensures r == CustomSectionOf(wasm, name)
  {
    if |wasm| < 4 || wasm[..4] != MAGIC {
      return None;
    }
    var p: nat, out: seq<Byte>, found := 8, [], false;
    assert Gathered([], false, Scan(wasm, name, 8)) == Scan(wasm, name, 8) by {
      if Scan(wasm, name, 8).Found? {
        assert [] + Scan(wasm, name, 8).payload == Scan(wasm, name, 8).payload;
      }
    }
    while p < |wasm|
      invariant Gathered(out, found, Scan(wasm, name, p)) == Scan(wasm, name, 8)
      decreases |wasm| - p
    {
      var id := wasm[p];
      var size, q := Leb(wasm, p + 1);
      if size.None? {
        return None;
      }
      var end := CheckedAdd(q, size.value);
      if end.None? {
        return None;
      }
      if end.value > |wasm| {
        break;
      }
      ghost var rest := Scan(wasm, name, end.value);
      if id == 0 {
        var section := wasm[q..end.value];
        var length, q' := Leb(section, 0);
        if length.None? {
          return None;
        }
        var nameEnd := CheckedAdd(q', length.value);
        if nameEnd.None? || nameEnd.value > |section| {
          return None;
        }
        if section[q'..nameEnd.value] == name {
          GatheredPrepend(out, found, section[nameEnd.value..], rest);
          out := out + section[nameEnd.value..];
          found := true;
        }
      }
      p := end.value;
    }
    assert Scan(wasm, name, p) == Found([], false);
    assert out + [] == out;
    r := if found then Some(out) else None;
  }

  lemma GatheredPrepend(out: seq<Byte>, found: bool, payload: seq<Byte>, rest: Found)
    ensures Gathered(out, found, Prepend(payload, rest)) == Gathered(out + payload, true, rest)
  {
    if rest.Found? {
      assert out + (payload + rest.payload) == (out + payload) + rest.payload;
    }
  }

  // ------------------------------------------------------------ the writer

  datatype Body = Custom(name: seq<Byte>, nameWidth: nat, payload: seq<Byte>) | Other(id: Byte, contents: seq<Byte>)

  /** A section, and in how many bytes its size is written. */
  datatype Section = Section(body: Body, sizeWidth: nat)

  ghost predicate Fits(n: nat, width: nat) { 1 <= width <= 6 && n < Pow128(width) }

  ghost predicate BodyOk(body: Body) {
    match body
    case Custom(name, width, _) => Fits(|name|, width)
    case Other(id, _) => id != 0
  }

  function Contents(body: Body): seq<Byte>
    requires BodyOk(body)
  {
    match body
    case Custom(name, width, payload) => Padded(|name|, width) + name + payload
    case Other(_, contents) => contents
  }

  /** Sizes and name lengths written in one to six bytes that can hold them (the format allows five). */
  ghost predicate Writable(s: Section) { BodyOk(s.body) && Fits(|Contents(s.body)|, s.sizeWidth) }

  function SectionId(body: Body): Byte { if body.Custom? then 0 else body.id }

  function Write(s: Section): seq<Byte>
    requires Writable(s)
  {
    [SectionId(s.body)] + Padded(|Contents(s.body)|, s.sizeWidth) + Contents(s.body)
  }

  function WriteAll(sections: seq<Section>): seq<Byte>
    requires forall s :: s in sections ==> Writable(s)
  {
    if |sections| == 0 then [] else Write(sections[0]) + WriteAll(sections[1..])
  }

  function Payloads(sections: seq<Section>, name: seq<Byte>): seq<Byte> {
    if |sections| == 0 then []
    else
      (if sections[0].body.Custom? && sections[0].body.name == name then sections[0].body.payload else [])
      + Payloads(sections[1..], name)
  }

  ghost predicate Occurs(sections: seq<Section>, name: seq<Byte>) {
    exists s :: s in sections && s.body.Custom? && s.body.name == name
  }

  lemma WrittenNameAndPayload(body: Body)
    requires BodyOk(body) && body.Custom? && |body.name| < MAX_SLICE
    ensures NameAndPayload(Contents(body)) == Some(Named(body.name, body.payload))
  {
    var lengthBytes := Padded(|body.name|, body.nameWidth);
    var c := Contents(body);
    LebReadsPadded([], |body.name|, body.nameWidth, body.name + body.payload, 0);
    assert c == [] + lengthBytes + (body.name + body.payload);
    var q := body.nameWidth;
    assert c[q..q + |body.name|] == body.name;
    assert c[q + |body.name|..] == body.payload;
  }

  lemma Pieces(wasm: seq<Byte>, before: seq<Byte>, id: Byte, size: seq<Byte>, c: seq<Byte>, after: seq<Byte>)
    requires wasm == before + ([id] + size + c) + after
    ensures wasm == (before + [id]) + size + (c + after)
    ensures var q := |before| + 1 + |size|;
      q + |c| <= |wasm| && wasm[|before|] == id && wasm[q..q + |c|] == c
  {
  }

  /** The size of a section is read back where it stands. */
  lemma SizeReads(wasm: seq<Byte>, p: nat, head: seq<Byte>, size: seq<Byte>, n: nat, width: nat, rest: seq<Byte>)
    requires Fits(n, width) && size == Padded(n, width) && wasm == head + size + rest && p == |head|
    ensures LebAt(wasm, p, 0) == Some(Reading(n, p + |size|))
  {
    LebReadsPadded(head, n, width, rest, 0);
  }

  /** How the scanner moves, given the size and the contents of the section. */
  lemma MoveOver(wasm: seq<Byte>, name: seq<Byte>, p: nat, c: seq<Byte>, q: nat)
    requires |wasm| < MAX_SLICE && p < q && q + |c| <= |wasm|
    requires LebAt(wasm, p + 1, 0) == Some(Reading(|c|, q)) && wasm[q..q + |c|] == c
    ensures MoveAt(wasm, name, p)
      == if wasm[p] != 0 then Skip(q + |c|) else MoveOverCustom(c, name, q + |c|)
  {
    SizedMove(wasm, name, p, c, q);
  }

  lemma SizedMove(wasm: seq<Byte>, name: seq<Byte>, p: nat, c: seq<Byte>, q: nat)
    requires |wasm| < MAX_SLICE && p < q && q + |c| <= |wasm| && wasm[q..q + |c|] == c
    ensures MoveOverSized(wasm, name, p, Reading(|c|, q))
      == if wasm[p] != 0 then Skip(q + |c|) else MoveOverCustom(c, name, q + |c|)
  {
  }

  /** How the scanner moves over one written section, wherever it stands. */
  lemma MoveOverWritten(wasm: seq<Byte>, before: seq<Byte>, s: Section, after: seq<Byte>, name: seq<Byte>, end: nat)
    requires Writable(s) && wasm == before + Write(s) + after && |wasm| < MAX_SLICE
    requires end == |before + Write(s)|
    ensures |before| < |wasm| && MoveAt(wasm, name, |before|)
         == if s.body.Custom? && s.body.name == name then Take(s.body.payload, end) else Skip(end)
  {
    var id, c := SectionId(s.body), Contents(s.body);
    var size := Padded(|c|, s.sizeWidth);
    Pieces(wasm, before, id, size, c, after);
    SizeReads(wasm, |before| + 1, before + [id], size, |c|, s.sizeWidth, c + after);
    MoveOver(wasm, name, |before|, c, |before| + 1 + |size|);
    if s.body.Custom? {
      WrittenNameAndPayload(s.body);
    }
  }

  /** One written section contributes exactly its payload if it is named so. */
  lemma ScanOneSection(wasm: seq<Byte>, before: seq<Byte>, s: Section, after: seq<Byte>, name: seq<Byte>, end: nat)
    requires Writable(s) && wasm == before + Write(s) + after && |wasm| < MAX_SLICE
    requires end == |before + Write(s)|
    ensures Scan(wasm, name, |before|)
         == if s.body.Custom? && s.body.name == name then Prepend(s.body.payload, Scan(wasm, name, end))
            else Scan(wasm, name, end)
  {
    MoveOverWritten(wasm, before, s, after, name, end);
  }

  lemma OccursCons(sections: seq<Section>, name: seq<Byte>)
    requires sections != []
    ensures Occurs(sections, name)
      <==> (sections[0].body.Custom? && sections[0].body.name == name) || Occurs(sections[1..], name)
  {
    if Occurs(sections, name) {
      var s :| s in sections && s.body.Custom? && s.body.name == name;
      assert s == sections[0] || s in sections[1..];
    }
  }

  lemma FirstSection(wasm: seq<Byte>, before: seq<Byte>, sections: seq<Section>, tail: seq<Byte>)
    requires sections != [] && forall s :: s in sections ==> Writable(s)
    requires wasm == before + WriteAll(sections) + tail
    ensures wasm == (before + Write(sections[0])) + WriteAll(sections[1..]) + tail
    ensures wasm == before + Write(sections[0]) + (WriteAll(sections[1..]) + tail)
  {
    Reassociate(before, Write(sections[0]), WriteAll(sections[1..]), tail);
  }

  lemma Reassociate(a: seq<Byte>, b: seq<Byte>, c: seq<Byte>, d: seq<Byte>)
    ensures a + (b + c) + d == (a + b) + c + d == a + b + (c + d)
  {
  }

  lemma {:induction false} ScanWritten(wasm: seq<Byte>, before: seq<Byte>, sections: seq<Section>, tail: seq<Byte>, name: seq<Byte>)
    requires forall s :: s in sections ==> Writable(s)
    requires wasm == before + WriteAll(sections) + tail && |wasm| < MAX_SLICE
    requires Scan(wasm, name, |wasm| - |tail|) == Found([], false)
    ensures Scan(wasm, name, |before|) == Found(Payloads(sections, name), Occurs(sections, name))
    decreases |sections|
  {
    if sections == [] {
      assert |wasm| - |tail| == |before|;
    } else {
      FirstSection(wasm, before, sections, tail);
      ScanWritten(wasm, before + Write(sections[0]), sections[1..], tail, name);
      ScanOneSection(wasm, before, sections[0], WriteAll(sections[1..]) + tail, name, |before + Write(sections[0])|);
      FoundCons(sections, name);
    }
  }

  /** What there is to find in a list of sections, first section first. */
  lemma FoundCons(sections: seq<Section>, name: seq<Byte>)
    requires sections != []
    ensures var s, rest := sections[0].body, Found(Payloads(sections[1..], name), Occurs(sections[1..], name));
      Found(Payloads(sections, name), Occurs(sections, name))
        == if s.Custom? && s.name == name then Prepend(s.payload, rest) else rest
  {
    OccursCons(sections, name);
    PayloadsCons(sections, name);
  }

  lemma PayloadsCons(sections: seq<Section>, name: seq<Byte>)
    requires sections != []
    ensures var s := sections[0];
      Payloads(sections, name)
        == if s.body.Custom? && s.body.name == name then s.body.payload + Payloads(sections[1..], name)
           else Payloads(sections[1..], name)
  {
    assert [] + Payloads(sections[1..], name) == Payloads(sections[1..], name);
  }

  /** Magic, four version bytes, and the sections. */
  function Module(version: seq<Byte>, sections: seq<Section>): seq<Byte>
    requires forall s :: s in sections ==> Writable(s)
  {
    MAGIC + version + WriteAll(sections)
  }

  /**
   * The scanner undoes the writer: all payloads of the name, concatenated in
   * order, or None if no custom section has that name.
   */
  lemma ScannerUndoesWriter(version: seq<Byte>, sections: seq<Section>, name: seq<Byte>)
    requires |version| == 4 && forall s :: s in sections ==> Writable(s)
    requires |Module(version, sections)| < MAX_SLICE
    ensures CustomSectionOf(Module(version, sections), name)
         == if Occurs(sections, name) then Some(Payloads(sections, name)) else None
  {
    var before := MAGIC + version;
    assert before + WriteAll(sections) + [] == Module(version, sections);
    ScanWritten(Module(version, sections), before, sections, [], name);
    assert Module(version, sections)[..4] == MAGIC;
  }

  /** A section cut short at the end of the file changes nothing about what precedes it. */
  lemma TruncatedTailIsIgnored(version: seq<Byte>, sections: seq<Section>, id: Byte, size: nat, width: nat, part: seq<Byte>, name: seq<Byte>)
    requires |version| == 4 && forall s :: s in sections ==> Writable(s)
    requires Fits(size, width) && |part| < size
    requires |Module(version, sections) + ([id] + Padded(size, width) + part)| < MAX_SLICE
    ensures CustomSectionOf(Module(version, sections) + ([id] + Padded(size, width) + part), name)
         == CustomSectionOf(Module(version, sections), name)
  {
    var tail := [id] + Padded(size, width) + part;
    var wasm := Module(version, sections) + tail;
    ScannerUndoesWriter(version, sections, name);
    ScanTruncated(Module(version, sections), id, size, width, part, name);
    ScanWritten(wasm, MAGIC + version, sections, tail, name);
    assert wasm[..4] == MAGIC;
  }

  lemma SmallSize(size: nat, width: nat)
    requires Fits(size, width)
    ensures size < 0x400_0000_0000
  {
    Pow128Monotone(width, 6);
    assert Pow128(3) == 0x20_0000;
    assert Pow128(6) == 0x400_0000_0000;
  }

  lemma ScanTruncated(before: seq<Byte>, id: Byte, size: nat, width: nat, part: seq<Byte>, name: seq<Byte>)
    requires Fits(size, width) && |part| < size && |before| < MAX_SLICE && |part| < MAX_SLICE
    ensures Scan(before + ([id] + Padded(size, width) + part), name, |before|) == Found([], false)
  {
    var wasm := before + ([id] + Padded(size, width) + part);
    assert wasm == (before + [id]) + Padded(size, width) + part;
    SizeReads(wasm, |before| + 1, before + [id], Padded(size, width), size, width, part);
    SmallSize(size, width);
    assert MoveAt(wasm, name, |before|) == Stop;
  }

  // ---------------------------------------------------- what is refused

  /** Anything that does not start with a zero byte and "asm" is refused. */
  lemma NoMagicNoSection(wasm: seq<Byte>, name: seq<Byte>)
    requires !([0, 'a' as nat, 's' as nat, 'm' as nat] <= wasm)
    ensures CustomSectionOf(wasm, name) == None
  {
    assert |wasm| >= 4 && wasm[..4] == MAGIC ==> MAGIC <= wasm;
  }

  lemma {:induction false} ScanThenMalformed(wasm: seq<Byte>, before: seq<Byte>, sections: seq<Section>, tail: seq<Byte>,
                                             name: seq<Byte>)
    requires forall s :: s in sections ==> Writable(s)
    requires wasm == before + WriteAll(sections) + tail && |wasm| < MAX_SLICE
    requires Scan(wasm, name, |wasm| - |tail|) == Malformed
    ensures Scan(wasm, name, |before|) == Malformed
    decreases |sections|
  {
    if sections == [] {
      assert |wasm| - |tail| == |before|;
    } else {
      FirstSection(wasm, before, sections, tail);
      ScanThenMalformed(wasm, before + Write(sections[0]), sections[1..], tail, name);
      ScanOneSection(wasm, before, sections[0], WriteAll(sections[1..]) + tail, name, |before + Write(sections[0])|);
    }
  }

  lemma MalformedModule(version: seq<Byte>, sections: seq<Section>, tail: seq<Byte>, name: seq<Byte>)
    requires |version| == 4 && forall s :: s in sections ==> Writable(s)
    requires |Module(version, sections) + tail| < MAX_SLICE
    requires Scan(Module(version, sections) + tail, name, |Module(version, sections)|) == Malformed
    ensures CustomSectionOf(Module(version, sections) + tail, name) == None
  {
    ScanThenMalformed(Module(version, sections) + tail, MAGIC + version, sections, tail, name);
  }

  /** A custom section whose name is longer than the section refuses the whole module, whatever comes before and after it. */
  lemma LongNameIsRefused(version: seq<Byte>, sections: seq<Section>, n: nat, nameWidth: nat, rest: seq<Byte>,
                          sizeWidth: nat, after: seq<Byte>, name: seq<Byte>)
    requires |version| == 4 && forall s :: s in sections ==> Writable(s)
    requires Fits(n, nameWidth) && |rest| < n && Fits(nameWidth + |rest|, sizeWidth)
    requires |Module(version, sections)
              + ([0] + Padded(nameWidth + |rest|, sizeWidth) + (Padded(n, nameWidth) + rest) + after)| < MAX_SLICE
    ensures CustomSectionOf(Module(version, sections)
              + ([0] + Padded(nameWidth + |rest|, sizeWidth) + (Padded(n, nameWidth) + rest) + after), name) == None
  {
    var before, c, size := Module(version, sections), Padded(n, nameWidth) + rest, Padded(nameWidth + |rest|, sizeWidth);
    var wasm := before + ([0] + size + c + after);
    assert wasm == before + ([0] + size + c) + after;
    Pieces(wasm, before, 0, size, c, after);
    SizeReads(wasm, |before| + 1, before + [0], size, |c|, sizeWidth, c + after);
    MoveOver(wasm, name, |before|, c, |before| + 1 + |size|);
    LongName(n, nameWidth, rest);
    MalformedModule(version, sections, [0] + size + c + after, name);
  }

  lemma LongName(n: nat, width: nat, rest: seq<Byte>)
    requires Fits(n, width) && |rest| < n
    ensures NameAndPayload(Padded(n, width) + rest) == None
  {
    var c := Padded(n, width) + rest;
    assert c == [] + Padded(n, width) + rest;
    LebReadsPadded([], n, width, rest, 0);
  }

  /** A number without a last byte within six bytes is not read. */
  lemma {:induction false} NeverEnds(b: seq<Byte>, p: nat, k: nat)
    requires k <= 5 && forall i :: p <= i < |b| && i < p + 6 - k ==> b[i] >= 128
    ensures LebAt(b, p, k) == None
    decreases 5 - k
  {
    if p < |b| && k < 5 {
      NeverEnds(b, p + 1, k + 1);
    }
  }

  /** A section size that does not end within six bytes refuses the whole module. */
  lemma EndlessSizeIsRefused(version: seq<Byte>, sections: seq<Section>, id: Byte, rest: seq<Byte>, name: seq<Byte>)
    requires |version| == 4 && forall s :: s in sections ==> Writable(s)
    requires |Module(version, sections) + ([id] + rest)| < MAX_SLICE
    requires forall i :: 0 <= i < |rest| && i < 6 ==> rest[i] >= 128
    ensures CustomSectionOf(Module(version, sections) + ([id] + rest), name) == None
  {
    var before := Module(version, sections);
    var wasm := before + ([id] + rest);
    assert forall i :: 0 <= i < |rest| ==> wasm[|before| + 1 + i] == rest[i];
    forall i | |before| + 1 <= i < |wasm| && i < |before| + 1 + 6 ensures wasm[i] >= 128 {
      assert wasm[i] == rest[i - |before| - 1];
    }
    NeverEnds(wasm, |before| + 1, 0);
    MalformedModule(version, sections, [id] + rest, name);
  }
}
