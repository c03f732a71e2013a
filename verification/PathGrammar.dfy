/**
 * The language of content-filter paths (src/content_filter.rs, `parse_path`), given
 * by its grammar: which texts are paths, and which segments each of them stands for.
 */
module PathGrammar {
  import opened Options
  import opened Numerals
  import opened Texts
  import opened JsonPath

  // ------------------------------------------------------------ the grammar

  ghost predicate Spaces(s: string) { forall c :: c in s ==> IsSpace(c) }

  ghost predicate Quotes(s: string) { forall c :: c in s ==> IsQuote(c) }

  /** `text` without the spaces around it. */
  ghost predicate Surrounded(inner: string, left: string, text: string, right: string) {
    && inner == left + text + right && Spaces(left) && Spaces(right)
    && (text == "" ==> left == "" || right == "") && (text != "" ==> !IsSpace(text[0]) && !IsSpace(text[|text| - 1]))
  }

  /** A key with any number of quotes on either side. */
  ghost predicate QuotedKey(text: string, left: string, key: string, right: string) {
    && text == left + key + right && Quotes(left) && Quotes(right)
    && key != "" && !IsQuote(key[0]) && !IsQuote(key[|key| - 1])
  }

  /** A number below 2^64 is an index, anything else a key. */
  ghost predicate BracketText(text: string, segment: Segment) {
    match segment
    case Index(n) => n < 0x1_0000_0000_0000_0000 && UnsignedText(text, n)
    case Key(k) =>
      (forall n: nat :: UnsignedText(text, n) ==> n >= 0x1_0000_0000_0000_0000)
      && exists left: string, right: string :: QuotedKey(text, left, k, right)
  }

  ghost predicate DotPiece(piece: string, segment: Segment) {
    segment.Key? && segment.name != "" && piece == "." + segment.name
    && forall c :: c in segment.name ==> c != '.' && c != '['
  }

  ghost predicate BracketPiece(piece: string, segment: Segment) {
    exists left: string, text: string, right: string :: BracketPieceOf(piece, segment, left, text, right)
  }

  ghost predicate BracketPieceOf(piece: string, segment: Segment, left: string, text: string, right: string) {
    var inner := left + text + right;
    piece == "[" + inner + "]" && ']' !in inner && Surrounded(inner, left, text, right) && BracketText(text, segment)
  }

  /** One step of a path and the segment it stands for. */
  ghost predicate Piece(piece: string, segment: Segment) { DotPiece(piece, segment) || BracketPiece(piece, segment) }

  ghost predicate Pieces(pieces: seq<string>, segments: seq<Segment>) {
    |pieces| == |segments| && forall i :: 0 <= i < |pieces| ==> Piece(pieces[i], segments[i])
  }

  ghost function Joined(pieces: seq<string>): string {
    if pieces == [] then "" else pieces[0] + Joined(pieces[1..])
  }

  // ----------------------------------------------------- trimming, as parts

  lemma {:induction false} TrimStartParts(s: string) returns (left: string)
    ensures s == left + TrimStart(s) && Spaces(left)
    ensures TrimStart(s) != "" ==> !IsSpace(TrimStart(s)[0])
  {
    if s != "" && IsSpace(s[0]) {
      left := TrimStartParts(s[1..]);
      left := [s[0]] + left;
      assert s == [s[0]] + s[1..];
    } else {
      left := "";
    }
  }

  lemma {:induction false} TrimEndParts(s: string) returns (right: string)
    ensures s == TrimEnd(s) + right && Spaces(right)
    ensures TrimEnd(s) != "" ==> !IsSpace(TrimEnd(s)[|TrimEnd(s)| - 1])
  {
    if s != "" && IsSpace(s[|s| - 1]) {
      var rest := TrimEndParts(s[..|s| - 1]);
      right := rest + [s[|s| - 1]];
      assert s == s[..|s| - 1] + [s[|s| - 1]];
    } else {
      right := "";
      assert s + "" == s;
    }
  }

  lemma TrimParts(inner: string) returns (left: string, right: string)
    ensures Surrounded(inner, left, Trim(inner), right)
  {
    left := TrimStartParts(inner);
    right := TrimEndParts(TrimStart(inner));
    if Trim(inner) != "" {
      assert TrimStart(inner)[0] == Trim(inner)[0];
    }
  }

  lemma {:induction false} TrimStartDrops(left: string, s: string)
    requires Spaces(left) && (s != "" ==> !IsSpace(s[0]))
    ensures TrimStart(left + s) == s
  {
    if left == "" {
      assert left + s == s;
    } else {
      assert left[0] in left && (left + s)[1..] == left[1..] + s;
      TrimStartDrops(left[1..], s);
    }
  }

  lemma {:induction false} TrimEndDrops(s: string, right: string)
    requires Spaces(right) && (s != "" ==> !IsSpace(s[|s| - 1]))
    ensures TrimEnd(s + right) == s
  {
    if right == "" {
      assert s + right == s;
    } else {
      assert right[|right| - 1] in right && (s + right)[..|s + right| - 1] == s + right[..|right| - 1];
      TrimEndDrops(s, right[..|right| - 1]);
    }
  }

  lemma TrimIs(inner: string, left: string, text: string, right: string)
    requires Surrounded(inner, left, text, right)
    ensures Trim(inner) == text
  {
    if text == "" {
      assert inner == left + right && Spaces(left + right);
      assert inner + "" == inner;
      TrimStartDrops(inner, "");
    } else {
      assert inner == left + (text + right);
      TrimStartDrops(left, text + right);
      TrimEndDrops(text, right);
    }
  }

  // ------------------------------------------------------ quotes, as parts

  lemma {:induction false} StartQuotes(s: string) returns (left: string)
    ensures s == left + QuotesOffStart(s) && Quotes(left)
  {
    if s != "" && IsQuote(s[0]) {
      left := StartQuotes(s[1..]);
      left := [s[0]] + left;
      assert s == [s[0]] + s[1..];
    } else {
      left := "";
    }
  }

  lemma {:induction false} EndQuotes(s: string) returns (right: string)
    ensures s == QuotesOffEnd(s) + right && Quotes(right)
  {
    if s != "" && IsQuote(s[|s| - 1]) {
      var rest := EndQuotes(s[..|s| - 1]);
      right := rest + [s[|s| - 1]];
      assert s == s[..|s| - 1] + [s[|s| - 1]];
    } else {
      right := "";
      assert s + "" == s;
    }
  }

  lemma QuoteParts(text: string) returns (left: string, right: string)
    requires Unquoted(text) != ""
    ensures QuotedKey(text, left, Unquoted(text), right)
  {
    left := StartQuotes(text);
    right := EndQuotes(QuotesOffStart(text));
    assert Unquoted(text)[0] == QuotesOffStart(text)[0];
  }

  lemma {:induction false} StartQuotesDrop(left: string, s: string)
    requires Quotes(left) && (s != "" ==> !IsQuote(s[0]))
    ensures QuotesOffStart(left + s) == s
  {
    if left == "" {
      assert left + s == s;
    } else {
      assert left[0] in left && (left + s)[1..] == left[1..] + s;
      StartQuotesDrop(left[1..], s);
    }
  }

  lemma {:induction false} EndQuotesDrop(s: string, right: string)
    requires Quotes(right) && (s != "" ==> !IsQuote(s[|s| - 1]))
    ensures QuotesOffEnd(s + right) == s
  {
    if right == "" {
      assert s + right == s;
    } else {
      assert right[|right| - 1] in right && (s + right)[..|s + right| - 1] == s + right[..|right| - 1];
      EndQuotesDrop(s, right[..|right| - 1]);
    }
  }

  lemma UnquotedIs(text: string, left: string, key: string, right: string)
    requires QuotedKey(text, left, key, right)
    ensures Unquoted(text) == key
  {
    assert text == left + (key + right);
    StartQuotesDrop(left, key + right);
    EndQuotesDrop(key, right);
  }

  // --------------------------------------------------------------- brackets

  lemma BracketTextRead(text: string, segment: Segment)
    ensures BracketText(text, segment) <==>
      if ParseUnsigned(text, USIZE_RANGE).Some? then segment == Index(ParseUnsigned(text, USIZE_RANGE).value)
      else Unquoted(text) != "" && segment == Key(Unquoted(text))
  {
    forall n: nat ensures ParseUnsigned(text, USIZE_RANGE) == Some(n) <==> n < USIZE_RANGE && UnsignedText(text, n) {
      ParseUnsignedReads(text, USIZE_RANGE, n);
    }
    if segment.Key? {
      if Unquoted(text) != "" {
        var left, right := QuoteParts(text);
      }
      forall left: string, right: string | QuotedKey(text, left, segment.name, right) ensures Unquoted(text) == segment.name {
        UnquotedIs(text, left, segment.name, right);
      }
    }
  }

  lemma BracketRead(inner: string, segment: Segment, left: string, text: string, right: string)
    requires Surrounded(inner, left, text, right)
    ensures BracketText(text, segment) <==> BracketSegment(inner) == Some(segment)
  {
    TrimIs(inner, left, text, right);
    BracketTextRead(text, segment);
  }

  // ------------------------------------------------------------------ paths

  /** A piece starts with a dot or a bracket and is read as its segment, whatever path follows. */
  lemma PieceIsHead(piece: string, segment: Segment, rest: string)
    requires Piece(piece, segment) && (rest != "" ==> rest[0] in DOT_STOPS)
    ensures piece != "" && piece[0] in DOT_STOPS && Head(piece + rest) == Some(Parsed(segment, |piece|))
  {
    if DotPiece(piece, segment) {
      HeadOfDot(piece + rest, segment.name, rest);
    } else {
      var left: string, text: string, right: string :| BracketPieceOf(piece, segment, left, text, right);
      var inner := left + text + right;
      BracketRead(inner, segment, left, text, right);
      HeadOfBracket(piece + rest, inner, rest, segment);
    }
  }

  lemma {:induction false} PiecesAreRead(pieces: seq<string>, segments: seq<Segment>)
    requires Pieces(pieces, segments)
    ensures Segments(Joined(pieces)) == Some(segments)
    ensures pieces != [] ==> Joined(pieces) != "" && Joined(pieces)[0] in DOT_STOPS
  {
    if pieces != [] {
      var rest := Joined(pieces[1..]);
      PiecesAreRead(pieces[1..], segments[1..]);
      PieceIsHead(pieces[0], segments[0], rest);
      assert (pieces[0] + rest)[|pieces[0]|..] == rest;
      assert segments == [segments[0]] + segments[1..];
    }
  }

  lemma BracketIsPiece(s: string, inner: string, segment: Segment)
    requires s == "[" + inner + "]" && ']' !in inner && BracketSegment(inner) == Some(segment)
    ensures BracketPiece(s, segment)
  {
    var left, right := TrimParts(inner);
    BracketRead(inner, segment, left, Trim(inner), right);
    assert BracketPieceOf(s, segment, left, Trim(inner), right);
  }

  lemma DotIsPiece(s: string)
    requires s != "" && s[0] == '.' && Head(s).Some?
    ensures DotPiece(s[..Head(s).value.length], Head(s).value.segment)
  {
    UntilAvoids(s, DOT_STOPS, '.');
    UntilAvoids(s, DOT_STOPS, '[');
    assert s[..Head(s).value.length] == "." + Head(s).value.segment.name;
  }

  lemma HeadIsPiece(s: string)
    requires s != "" && Head(s).Some?
    ensures Piece(s[..Head(s).value.length], Head(s).value.segment)
  {
    if s[0] == '.' {
      DotIsPiece(s);
    } else {
      var n := Until(s[1..], BRACKET_STOPS);
      UntilAvoids(s, BRACKET_STOPS, ']');
      assert s[..n + 2] == "[" + s[1..n + 1] + "]";
      BracketIsPiece(s[..n + 2], s[1..n + 1], Head(s).value.segment);
    }
  }

  lemma {:induction false} ReadInPieces(s: string) returns (pieces: seq<string>)
    requires Segments(s).Some?
    ensures s == Joined(pieces) && Pieces(pieces, Segments(s).value)
    decreases |s|
  {
    if s == "" {
      pieces := [];
    } else {
      var head := Head(s).value;
      HeadIsPiece(s);
      var rest := ReadInPieces(s[head.length..]);
      pieces := [s[..head.length]] + rest;
      assert pieces[1..] == rest && s == s[..head.length] + s[head.length..];
    }
  }

  ghost predicate Spelled(path: string, pieces: seq<string>, segments: seq<Segment>) {
    path == "$" + Joined(pieces) && Pieces(pieces, segments)
  }

  lemma SpelledIsRead(path: string, pieces: seq<string>, segments: seq<Segment>)
    requires Spelled(path, pieces, segments)
    ensures PathOf(path) == Some(segments)
  {
    PiecesAreRead(pieces, segments);
    assert path[1..] == Joined(pieces);
  }

  lemma ReadIsSpelled(path: string) returns (pieces: seq<string>)
    requires PathOf(path).Some?
    ensures Spelled(path, pieces, PathOf(path).value)
  {
    pieces := ReadInPieces(path[1..]);
    assert path == "$" + path[1..];
  }

  /** A path is a dollar sign and pieces; the parser reads exactly their segments. */
  lemma PathsFollowGrammar(path: string, segments: seq<Segment>)
    ensures PathOf(path) == Some(segments) <==> exists pieces: seq<string> :: Spelled(path, pieces, segments)
  {
    if PathOf(path) == Some(segments) {
      var pieces := ReadIsSpelled(path);
    }
    if pieces: seq<string> :| Spelled(path, pieces, segments) {
      SpelledIsRead(path, pieces, segments);
    }
  }
}
