/**
 * Selectors of content filters (src/content_filter.rs): the parser of the two
 * path syntaxes, and the walk from a document to the node a path addresses.
 */
module JsonPath {
  import opened Options
  import opened Numerals
  import opened Texts

  const USIZE_RANGE: nat := 0x1_0000_0000_0000_0000

  datatype Segment = Key(name: string) | Index(index: nat)

  // --------------------------------------------------------------- parsing

  /** How many characters come before the first stop. */
  function Until(s: string, stops: set<char>): (n: nat)
    ensures n <= |s| && (n < |s| ==> s[n] in stops)
    ensures forall i :: 0 <= i < n ==> s[i] !in stops
  {
    if s == "" || s[0] in stops then 0 else 1 + Until(s[1..], stops)
  }

  predicate IsQuote(c: char) { c == '\'' || c == '"' }

  function QuotesOffStart(s: string): (r: string)
    ensures r != "" ==> s != "" && !IsQuote(r[0]) && r[|r| - 1] == s[|s| - 1]
    ensures forall c :: c in r ==> c in s
  {
    if s != "" && IsQuote(s[0]) then QuotesOffStart(s[1..]) else s
  }

  function QuotesOffEnd(s: string): (r: string)
    ensures r != "" ==> s != "" && !IsQuote(r[|r| - 1]) && r[0] == s[0]
    ensures forall c :: c in r ==> c in s
  {
    if s != "" && IsQuote(s[|s| - 1]) then QuotesOffEnd(s[..|s| - 1]) else s
  }

  function Unquoted(s: string): string { QuotesOffEnd(QuotesOffStart(s)) }

  /** What a bracket holds: an index that fits, or else a key, quotes optional. */
  function BracketSegment(inner: string): Option<Segment> {
    var text := Trim(inner);
    var index := ParseUnsigned(text, USIZE_RANGE);
    if index.Some? then Some(Index(index.value))
    else
      var key := Unquoted(text);
      if key == "" then None else Some(Key(key))
  }

  const DOT_STOPS := {'.', '['}
  const BRACKET_STOPS := {']'}

  datatype Parsed = Parsed(segment: Segment, length: nat)

  /** The first segment of a non-empty path and how many characters it takes. */
  function Head(s: string): (r: Option<Parsed>)
    requires s != ""
    ensures r.Some? ==> 0 < r.value.length <= |s|
  {
    var n := Until(s[1..], if s[0] == '.' then DOT_STOPS else BRACKET_STOPS);
    if s[0] == '.' then
      if n == 0 then None else Some(Parsed(Key(s[1..n + 1]), n + 1))
    else if s[0] == '[' && n + 1 < |s| then
      var segment := BracketSegment(s[1..n + 1]);
      if segment.None? then None else Some(Parsed(segment.value, n + 2))
    else None
  }

  function Cons(head: Segment, tail: Option<seq<Segment>>): Option<seq<Segment>> {
    if tail.None? then None else Some([head] + tail.value)
  }

  function Segments(s: string): Option<seq<Segment>>
    decreases |s|
  {
    if s == "" then Some([])
    else
      var head := Head(s);
      if head.None? then None else Cons(head.value.segment, Segments(s[head.value.length..]))
  }

  function PathOf(path: string): Option<seq<Segment>> {
    if path == "" || path[0] != '$' then None else Segments(path[1..])
  }

  /** What the parser answers when `done` is read and `tail` is what the rest parses to. */
  function Append(done: seq<Segment>, tail: Option<seq<Segment>>): Option<seq<Segment>> {
    if tail.None? then None else Some(done + tail.value)
  }

  lemma AppendCons(done: seq<Segment>, head: Segment, tail: Option<seq<Segment>>)
    ensures Append(done, Cons(head, tail)) == Append(done + [head], tail)
  {
    assert tail.Some? ==> done + ([head] + tail.value) == done + [head] + tail.value;
  }

  lemma AppendNothing(tail: Option<seq<Segment>>)
    ensures Append([], tail) == tail
  {
    assert tail.Some? ==> [] + tail.value == tail.value;
  }

  lemma SliceOfSlice(s: string, i: nat, j: nat)
    requires i <= j <= |s|
    ensures s[i..][j - i..] == s[j..]
  {
  }

  lemma Unfold(text: string)
    requires text != ""
    ensures Segments(text)
      == if Head(text).None? then None
         else Cons(Head(text).value.segment, Segments(text[Head(text).value.length..]))
  {
  }

  /** What is left to parse after the first segment of a text, given what it is. */
  lemma TailAfter(text: string, segment: Option<Segment>, n: nat, tail: string)
    requires text != "" && (segment.None? ==> Head(text) == None)
    requires segment.Some? ==> n <= |text| && tail == text[n..] && Head(text) == Some(Parsed(segment.value, n))
    ensures Segments(text) == if segment.None? then None else Cons(segment.value, Segments(tail))
  {
    Unfold(text);
  }

  lemma HeadAtDot(rest: string, i: nat, next: nat)
    requires i < |rest| && rest[i] == '.' && next == i + 1 + Until(rest[i + 1..], DOT_STOPS)
    ensures Head(rest[i..])
      == if next == i + 1 then None else Some(Parsed(Key(rest[i + 1..next]), next - i))
  {
    assert rest[i..][1..] == rest[i + 1..];
    assert rest[i..][1..next - i] == rest[i + 1..next];
  }

  lemma HeadAtBracket(rest: string, i: nat, next: nat)
    requires i < |rest| && rest[i] == '[' && next == i + 1 + Until(rest[i + 1..], BRACKET_STOPS)
    ensures Head(rest[i..])
      == if next == |rest| || BracketSegment(rest[i + 1..next]).None? then None
         else Some(Parsed(BracketSegment(rest[i + 1..next]).value, next + 1 - i))
  {
    assert rest[i..][1..] == rest[i + 1..];
    assert rest[i..][1..next - i] == rest[i + 1..next];
  }

  lemma UntilNext(s: string, i: nat, stops: set<char>)
    requires i < |s| && s[i] !in stops
    ensures Until(s[i..], stops) == 1 + Until(s[i + 1..], stops)
  {
    assert s[i..][1..] == s[i + 1..];
  }

  /** The inner loops of the parser: collect characters up to a stop. */
  method Collect(s: string, from: nat, stops: set<char>) returns (text: string, next: nat)
    requires from <= |s|
    ensures next == from + Until(s[from..], stops) && text == s[from..next]
  {
    ghost var end := from + Until(s[from..], stops);
    text, next := "", from;
    while next < |s| && s[next] !in stops
      invariant from <= next <= |s| && text == s[from..next]
      invariant end == next + Until(s[next..], stops)
    {
      UntilNext(s, next, stops);
      assert s[from..next + 1] == s[from..next] + [s[next]];
      text := text + [s[next]];
      next := next + 1;
    }
  }

  method ReadBracket(inner: string) returns (r: Option<Segment>)
    ensures r == BracketSegment(inner)
  {
    var text := Trim(inner);
    var index := ParseUnsigned(text, USIZE_RANGE);
    if index.Some? {
      return Some(Index(index.value));
    }
    var key := Unquoted(text);
    if key == "" {
      return None;
    }
    return Some(Key(key));
  }

  /** One turn of the parser's loop: the segment at `i` and where the next one starts. */
  method ReadSegment(rest: string, i: nat) returns (segment: Option<Segment>, next: nat)
    requires i < |rest|
    ensures segment.None? ==> Head(rest[i..]) == None
    ensures segment.Some? ==> i < next <= |rest| && Head(rest[i..]) == Some(Parsed(segment.value, next - i))
  {
    segment, next := None, i;
    if rest[i] == '.' {
      var key;
      key, next := Collect(rest, i + 1, DOT_STOPS);
      HeadAtDot(rest, i, next);
      if key != "" {
        segment := Some(Key(key));
      }
    } else if rest[i] == '[' {
      var inner;
      inner, next := Collect(rest, i + 1, BRACKET_STOPS);
      HeadAtBracket(rest, i, next);
      if next < |rest| {
        segment := ReadBracket(inner);
        next := next + 1;
      }
    }
  }

  method ParsePath(path: string) returns (r: Option<seq<Segment>>)
    ensures r == PathOf(path)
  {
    if path == "" || path[0] != '$' {
      return None;
    }
    var rest := path[1..];
    var segments: seq<Segment> := [];
    var i: nat := 0;
    ghost var whole := Segments(rest);
    ghost var tail := whole;
    AppendNothing(whole);
    assert rest[0..] == rest;
    while i < |rest|
      invariant i <= |rest|
      invariant tail == Segments(rest[i..]) && Append(segments, tail) == whole
    {
      var segment, next := ReadSegment(rest, i);
      if segment.None? {
        TailAfter(rest[i..], segment, 0, "");
        return None;
      }
      SliceOfSlice(rest, i, next);
      TailAfter(rest[i..], segment, next - i, rest[next..]);
      AppendCons(segments, segment.value, Segments(rest[next..]));
      segments, i, tail := segments + [segment.value], next, Segments(rest[next..]);
    }
    assert rest[i..] == "" && segments + [] == segments;
    return Some(segments);
  }

  // -------------------------------------------------------------- printing

  datatype Style = Dot | SingleQuoted | DoubleQuoted

  predicate DotKey(k: string) { k != "" && '.' !in k && '[' !in k }

  predicate BracketKey(k: string) { k != "" && ']' !in k && !IsQuote(k[0]) && !IsQuote(k[|k| - 1]) }

  /** The segments some path text stands for. */
  predicate Representable(segment: Segment) {
    match segment
    case Index(n) => n < USIZE_RANGE
    case Key(k) => DotKey(k) || BracketKey(k)
  }

  predicate Prints(segment: Segment, style: Style) {
    match segment
    case Index(n) => n < USIZE_RANGE
    case Key(k) => if style.Dot? then DotKey(k) else BracketKey(k)
  }

  /** The text inside the brackets. */
  function Inner(segment: Segment, style: Style): string {
    match segment
    case Index(n) => Decimal(n)
    case Key(k) => if style.DoubleQuoted? then "\"" + k + "\"" else "'" + k + "'"
  }

  function Print(segment: Segment, style: Style): string {
    if segment.Key? && style.Dot? then "." + segment.name else "[" + Inner(segment, style) + "]"
  }

  function PrintAll(segments: seq<Segment>, styles: seq<Style>): string
    requires |segments| == |styles|
  {
    if segments == [] then "" else Print(segments[0], styles[0]) + PrintAll(segments[1..], styles[1..])
  }

  lemma UntilFinds(a: string, rest: string, stops: set<char>)
    requires forall i :: 0 <= i < |a| ==> a[i] !in stops
    requires rest != "" ==> rest[0] in stops
    ensures Until(a + rest, stops) == |a|
  {
    assert forall i :: 0 <= i < |a| ==> (a + rest)[i] == a[i];
    assert rest != "" ==> (a + rest)[|a|] == rest[0];
  }

  lemma QuotedIsNoNumber(s: string)
    requires s != "" && IsQuote(s[0])
    ensures ParseUnsigned(s, USIZE_RANGE).None?
  {
    if Numeral(Ten, s).Some? {
      NumeralHasDigits(s);
    }
  }

  lemma QuotesComeOff(k: string, q: char)
    requires BracketKey(k) && IsQuote(q)
    ensures Unquoted([q] + k + [q]) == k
  {
    assert ([q] + k + [q])[1..] == k + [q];
    assert (k + [q])[0] == k[0];
    assert QuotesOffStart([q] + k + [q]) == k + [q];
    assert (k + [q])[..|k|] == k;
    assert QuotesOffEnd(k) == k;
  }

  lemma BracketReads(segment: Segment, style: Style)
    requires Prints(segment, style) && !(segment.Key? && style.Dot?)
    ensures BracketSegment(Inner(segment, style)) == Some(segment)
    ensures ']' !in Inner(segment, style)
  {
    var inner := Inner(segment, style);
    match segment
    case Index(n) =>
      DecimalParses(n, USIZE_RANGE);
      TrimKeeps(inner);
    case Key(k) =>
      var q := if style.DoubleQuoted? then '"' else '\'';
      assert inner == [q] + k + [q];
      TrimKeeps(inner);
      QuotedIsNoNumber(inner);
      QuotesComeOff(k, q);
  }

  lemma HeadOfDot(s: string, key: string, rest: string)
    requires s == "." + key + rest && DotKey(key)
    requires rest != "" ==> rest[0] in DOT_STOPS
    ensures Head(s) == Some(Parsed(Key(key), |key| + 1))
  {
    assert s[1..] == key + rest;
    UntilFinds(key, rest, DOT_STOPS);
    assert s[1..|key| + 1] == key;
  }

  lemma HeadOfBracket(s: string, inner: string, rest: string, segment: Segment)
    requires s == "[" + inner + "]" + rest && ']' !in inner
    requires BracketSegment(inner) == Some(segment)
    ensures Head(s) == Some(Parsed(segment, |inner| + 2))
  {
    assert s[1..] == inner + ("]" + rest);
    UntilFinds(inner, "]" + rest, BRACKET_STOPS);
    assert s[1..|inner| + 1] == inner;
  }

  /** The parser reads back one printed segment, whatever path text follows. */
  lemma HeadReads(segment: Segment, style: Style, rest: string)
    requires Prints(segment, style)
    requires rest != "" ==> rest[0] in DOT_STOPS
    ensures Head(Print(segment, style) + rest) == Some(Parsed(segment, |Print(segment, style)|))
  {
    if segment.Key? && style.Dot? {
      HeadOfDot(Print(segment, style) + rest, segment.name, rest);
    } else {
      BracketReads(segment, style);
      HeadOfBracket(Print(segment, style) + rest, Inner(segment, style), rest, segment);
    }
  }

  lemma PrintedStep(segment: Segment, style: Style, rest: string, others: seq<Segment>)
    requires Prints(segment, style) && Segments(rest) == Some(others)
    requires rest != "" ==> rest[0] in DOT_STOPS
    ensures Segments(Print(segment, style) + rest) == Some([segment] + others)
  {
    HeadReads(segment, style, rest);
    assert (Print(segment, style) + rest)[|Print(segment, style)|..] == rest;
  }

  predicate AllPrint(segments: seq<Segment>, styles: seq<Style>) {
    |segments| == |styles| && forall i :: 0 <= i < |segments| ==> Prints(segments[i], styles[i])
  }

  lemma {:induction false} SegmentsReadPrinted(segments: seq<Segment>, styles: seq<Style>)
    requires AllPrint(segments, styles)
    ensures Segments(PrintAll(segments, styles)) == Some(segments)
    ensures segments != [] ==> PrintAll(segments, styles) != "" && PrintAll(segments, styles)[0] in DOT_STOPS
  {
    if segments != [] {
      SegmentsReadPrinted(segments[1..], styles[1..]);
      PrintedStep(segments[0], styles[0], PrintAll(segments[1..], styles[1..]), segments[1..]);
      assert segments == [segments[0]] + segments[1..];
    }
  }

  /** Parsing inverts printing, in any mixture of the syntaxes. */
  lemma ParseInvertsPrint(segments: seq<Segment>, styles: seq<Style>)
    requires AllPrint(segments, styles)
    ensures PathOf("$" + PrintAll(segments, styles)) == Some(segments)
  {
    SegmentsReadPrinted(segments, styles);
    assert ("$" + PrintAll(segments, styles))[1..] == PrintAll(segments, styles);
  }

  // ---------------------------------------------------------- longer paths

  lemma {:induction false} UntilGrows(a: string, b: string, stops: set<char>)
    ensures Until(a, stops) < |a| ==> Until(a + b, stops) == Until(a, stops)
    ensures Until(a, stops) == |a| && b != "" && b[0] in stops ==> Until(a + b, stops) == |a|
  {
    if a == "" {
      assert a + b == b;
    } else {
      UntilGrows(a[1..], b, stops);
      assert (a + b)[1..] == a[1..] + b;
    }
  }

  lemma HeadGrows(a: string, b: string)
    requires a != "" && b != "" && b[0] in DOT_STOPS && Head(a).Some?
    ensures Head(a + b) == Head(a)
  {
    assert (a + b)[1..] == a[1..] + b;
    if a[0] == '.' {
      var n := Until(a[1..], DOT_STOPS);
      UntilGrows(a[1..], b, DOT_STOPS);
      assert (a + b)[1..n + 1] == a[1..n + 1];
    } else {
      var n := Until(a[1..], BRACKET_STOPS);
      UntilGrows(a[1..], b, BRACKET_STOPS);
      assert (a + b)[1..n + 1] == a[1..n + 1];
    }
  }

  lemma DropOfConcat(a: string, b: string, n: nat)
    requires n <= |a|
    ensures (a + b)[n..] == a[n..] + b
  {
  }

  lemma FirstOfConcat(a: string, b: string)
    requires a != "" && b != "" && b[0] in DOT_STOPS && Head(a).Some?
    ensures var head := Head(a).value;
      Segments(a + b) == Cons(head.segment, Segments(a[head.length..] + b))
  {
    HeadGrows(a, b);
    DropOfConcat(a, b, Head(a).value.length);
  }

  /** A well-formed path followed by more segments parses to both parts in turn. */
  lemma {:induction false} SegmentsConcat(a: string, b: string)
    requires Segments(a).Some? && b != "" && b[0] in DOT_STOPS
    ensures Segments(a + b) == Append(Segments(a).value, Segments(b))
    decreases |a|
  {
    if a == "" {
      assert a + b == b;
      AppendNothing(Segments(b));
    } else {
      var head := Head(a).value;
      var rest := a[head.length..];
      FirstOfConcat(a, b);
      SegmentsConcat(rest, b);
      PrependToAppend(head.segment, Segments(rest).value, Segments(b));
    }
  }

  lemma PrependToAppend(head: Segment, done: seq<Segment>, tail: Option<seq<Segment>>)
    ensures Cons(head, Append(done, tail)) == Append([head] + done, tail)
  {
    assert tail.Some? ==> [head] + (done + tail.value) == [head] + done + tail.value;
  }

  lemma PrintedAlone(segment: Segment, style: Style)
    requires Prints(segment, style)
    ensures Segments(Print(segment, style)) == Some([segment])
  {
    var text := Print(segment, style);
    PrintedStep(segment, style, "", []);
    assert text + "" == text && [segment] + [] == [segment];
  }

  lemma PathThen(path: string, end: string, tail: seq<Segment>)
    requires PathOf(path).Some? && end != "" && end[0] in DOT_STOPS && Segments(end) == Some(tail)
    ensures PathOf(path + end) == Some(PathOf(path).value + tail)
  {
    SegmentsConcat(path[1..], end);
    DropOfConcat(path, end, 1);
  }

  /** Appending the text of a segment to a well-formed path appends the segment. */
  lemma LongerPath(path: string, segment: Segment, style: Style)
    requires PathOf(path).Some? && Prints(segment, style)
    ensures PathOf(path + Print(segment, style)) == Some(PathOf(path).value + [segment])
  {
    PrintedAlone(segment, style);
    PathThen(path, Print(segment, style), [segment]);
  }

  // ------------------------------------------- what can be written as a path

  lemma {:induction false} TrimKeepsCharacters(s: string)
    ensures forall c :: c in TrimStart(s) ==> c in s
    ensures forall c :: c in TrimEnd(s) ==> c in s
  {
    if s != "" {
      TrimKeepsCharacters(s[1..]);
      TrimKeepsCharacters(s[..|s| - 1]);
    }
  }

  lemma UnquotedIsBracketKey(text: string)
    requires ']' !in text && Unquoted(text) != ""
    ensures BracketKey(Unquoted(text))
  {
    var a := QuotesOffStart(text);
    assert ']' !in a;
    assert Unquoted(text)[0] == a[0];
  }

  lemma BracketSegmentRepresentable(inner: string)
    requires ']' !in inner && BracketSegment(inner).Some?
    ensures Representable(BracketSegment(inner).value)
  {
    TrimKeepsCharacters(inner);
    TrimKeepsCharacters(TrimStart(inner));
    var text := Trim(inner);
    if ParseUnsigned(text, USIZE_RANGE).None? {
      UnquotedIsBracketKey(text);
    }
  }

  lemma UntilAvoids(s: string, stops: set<char>, c: char)
    requires s != "" && c in stops
    ensures c !in s[1..Until(s[1..], stops) + 1]
  {
    var n := Until(s[1..], stops);
    assert forall i :: 0 <= i < n ==> s[1..n + 1][i] == s[1..][i];
  }

  lemma HeadRepresentable(s: string)
    requires s != "" && Head(s).Some?
    ensures Representable(Head(s).value.segment)
  {
    if s[0] == '.' {
      UntilAvoids(s, DOT_STOPS, '.');
      UntilAvoids(s, DOT_STOPS, '[');
    } else {
      UntilAvoids(s, BRACKET_STOPS, ']');
      BracketSegmentRepresentable(s[1..Until(s[1..], BRACKET_STOPS) + 1]);
    }
  }

  lemma {:induction false} SegmentsRepresentable(s: string)
    requires Segments(s).Some?
    ensures forall i :: 0 <= i < |Segments(s).value| ==> Representable(Segments(s).value[i])
    decreases |s|
  {
    if s != "" {
      HeadRepresentable(s);
      SegmentsRepresentable(s[Head(s).value.length..]);
    }
  }

  /** A style that writes the segment. */
  function StyleOf(segment: Segment): Style {
    if segment.Key? && DotKey(segment.name) then Dot else SingleQuoted
  }

  function Canonical(segments: seq<Segment>): string {
    "$" + PrintAll(segments, seq(|segments|, i requires 0 <= i < |segments| => StyleOf(segments[i])))
  }

  /** Exactly the representable segment lists are what some path parses to. */
  lemma PathsAreTheRepresentable(segments: seq<Segment>)
    ensures (exists path :: PathOf(path) == Some(segments))
      <==> (forall i :: 0 <= i < |segments| ==> Representable(segments[i]))
  {
    if forall i :: 0 <= i < |segments| ==> Representable(segments[i]) {
      ParseInvertsPrint(segments, seq(|segments|, i requires 0 <= i < |segments| => StyleOf(segments[i])));
      assert PathOf(Canonical(segments)) == Some(segments);
    }
    if path :| PathOf(path) == Some(segments) {
      SegmentsRepresentable(path[1..]);
    }
  }

  // --------------------------------------------------------------- walking

  /** A double read from text or from a JSON number. */
  datatype Float = NaN | NegInf | Finite(value: real) | PosInf

  /** A JSON document; a number has the text it prints as and the double it reads as. */
  datatype Json =
    | Null
    | Bool(b: bool)
    | Number(text: string, value: Float)
    | Text(s: string)
    | Array(items: seq<Json>)
    | Object(fields: map<string, Json>)

  function Child(data: Json, segment: Segment): Option<Json> {
    match segment
    case Key(k) => if data.Object? && k in data.fields then Some(data.fields[k]) else None
    case Index(i) => if data.Array? && i < |data.items| then Some(data.items[i]) else None
  }

  function At(data: Json, segments: seq<Segment>): Option<Json>
    decreases |segments|
  {
    if segments == [] then Some(data)
    else
      var child := Child(data, segments[0]);
      if child.None? then None else At(child.value, segments[1..])
  }

  /** A key leads to the field of an object that has this name, an index to the element of an array. */
  lemma OneStep(data: Json, segment: Segment, v: Json)
    ensures At(data, [segment]) == Some(v) <==>
      match segment
      case Key(k) => data.Object? && (k, v) in data.fields.Items
      case Index(i) => data.Array? && i < |data.items| && data.items[i] == v
  {
    assert [segment][1..] == [];
    assert Child(data, segment).Some? ==> At(Child(data, segment).value, []) == Child(data, segment);
  }

  method Resolve(data: Json, segments: seq<Segment>) returns (r: Option<Json>)
    ensures r == At(data, segments)
  {
    var current := data;
    var n: nat := 0;
    while n < |segments|
      invariant n <= |segments|
      invariant At(current, segments[n..]) == At(data, segments)
    {
      var child := Child(current, segments[n]);
      if child.None? {
        return None;
      }
      assert segments[n..][1..] == segments[n + 1..];
      current := child.value;
      n := n + 1;
    }
    return Some(current);
  }

  /** The document with the node at an address replaced. */
  ghost function Put(data: Json, segments: seq<Segment>, v: Json): Json
    requires At(data, segments).Some?
    decreases |segments|
  {
    if segments == [] then v
    else
      var child := Put(Child(data, segments[0]).value, segments[1..], v);
      match segments[0]
      case Key(k) => Object(data.fields[k := child])
      case Index(i) => Array(data.items[i := child])
  }

  lemma PutChild(data: Json, segments: seq<Segment>, v: Json, other: Segment)
    requires segments != [] && At(data, segments).Some?
    ensures Child(Put(data, segments, v), segments[0])
      == Some(Put(Child(data, segments[0]).value, segments[1..], v))
    ensures other != segments[0] ==> Child(Put(data, segments, v), other) == Child(data, other)
  {
  }

  /** A path reads the node that was put at its address. */
  lemma {:induction false} PutThenAt(data: Json, segments: seq<Segment>, v: Json)
    requires At(data, segments).Some?
    ensures At(Put(data, segments, v), segments) == Some(v)
    decreases |segments|
  {
    if segments != [] {
      PutChild(data, segments, v, segments[0]);
      PutThenAt(Child(data, segments[0]).value, segments[1..], v);
    }
  }

  /** Two addresses part ways when neither leads through the other. */
  predicate Diverge(s: seq<Segment>, t: seq<Segment>)
    decreases |s|
  {
    s != [] && t != [] && (s[0] != t[0] || Diverge(s[1..], t[1..]))
  }

  /** A path reads nothing but the node at its address. */
  lemma {:induction false} PutElsewhere(data: Json, s: seq<Segment>, v: Json, t: seq<Segment>)
    requires At(data, s).Some? && Diverge(s, t)
    ensures At(Put(data, s, v), t) == At(data, t)
    decreases |s|
  {
    PutChild(data, s, v, t[0]);
    if s[0] == t[0] {
      PutElsewhere(Child(data, s[0]).value, s[1..], v, t[1..]);
    }
  }

  /** Walking a longer path is walking on from where its front part leads. */
  lemma {:induction false} AtConcat(data: Json, s: seq<Segment>, t: seq<Segment>)
    ensures At(data, s + t) == if At(data, s).Some? then At(At(data, s).value, t) else None
    decreases |s|
  {
    if s == [] {
      assert s + t == t;
    } else {
      assert (s + t)[1..] == s[1..] + t;
      if Child(data, s[0]).Some? {
        AtConcat(Child(data, s[0]).value, s[1..], t);
      }
    }
  }

  /** Text to node: a printed path reaches exactly the node it addresses. */
  lemma PrintedPathReachesItsNode(segments: seq<Segment>, styles: seq<Style>, data: Json, v: Json,
                                  other: seq<Segment>)
    requires AllPrint(segments, styles)
    requires At(data, segments).Some?
    ensures var path := PathOf("$" + PrintAll(segments, styles));
      path.Some? && At(Put(data, segments, v), path.value) == Some(v)
      && (Diverge(other, path.value) && At(data, other).Some?
          ==> At(Put(data, other, v), path.value) == At(data, path.value))
  {
    ParseInvertsPrint(segments, styles);
    PutThenAt(data, segments, v);
    if Diverge(other, segments) && At(data, other).Some? {
      PutElsewhere(data, other, v, segments);
    }
  }
}
