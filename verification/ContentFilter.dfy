/**
 * Content filters (src/content_filter.rs): one predicate over an event's JSON
 * data, with numeric comparison where both sides read as numbers.
 */
module ContentFilters {
  import opened Options
  import opened Numerals
  import opened Texts
  import opened JsonPath

  datatype Op = Eq | Ne | Gt | Lt | Gte | Lte | Contains | Matches

  /** What the filter relies on: float parsing, JSON printing of composites, and regular expressions. */
  datatype Library = Library(
    parseF64: string -> Option<Float>,
    compact: Json -> string,
    regex: string -> Option<string -> bool>)

  datatype Order = Less | Equal | Greater

  /** IEEE comparison: undefined as soon as a NaN takes part. */
  function PartialCmp(a: Float, b: Float): Option<Order> {
    if a.NaN? || b.NaN? then None
    else if a == b then Some(Equal)
    else if a.NegInf? || b.PosInf? || (a.Finite? && b.Finite? && a.value < b.value) then Some(Less)
    else Some(Greater)
  }

  function FloatEq(a: Float, b: Float): bool { !a.NaN? && !b.NaN? && a == b }

  function TextCmp(a: string, b: string): Order {
    if a == b then Equal else if LexLess(a, b) then Less else Greater
  }

  function AsNumber(lib: Library, value: Json): Option<Float> {
    match value
    case Number(_, v) => Some(v)
    case Text(s) => lib.parseF64(Trim(s))
    case _ => None
  }

  function ScalarText(lib: Library, value: Json): string {
    match value
    case Text(s) => s
    case Null => "null"
    case Bool(b) => if b then "true" else "false"
    case Number(text, _) => text
    case _ => lib.compact(value)
  }

  function ParseBool(s: string): Option<bool> {
    if s == "true" then Some(true) else if s == "false" then Some(false) else None
  }

  function ValuesEqual(lib: Library, target: Json, expected: string): bool {
    var a, b := AsNumber(lib, target), lib.parseF64(Trim(expected));
    if a.Some? && b.Some? then FloatEq(a.value, b.value)
    else if target.Bool? && ParseBool(expected).Some? then target.b == ParseBool(expected).value
    else ScalarText(lib, target) == expected
  }

  /** The order of the two sides, as numbers when both are numbers. */
  function Ordering(lib: Library, target: Json, expected: string): Option<Order> {
    var a, b := AsNumber(lib, target), lib.parseF64(Trim(expected));
    if a.Some? && b.Some? then PartialCmp(a.value, b.value)
    else Some(TextCmp(ScalarText(lib, target), expected))
  }

  function OrderedCompare(lib: Library, target: Json, op: Op, expected: string): bool
    requires op.Gt? || op.Lt? || op.Gte? || op.Lte?
  {
    var ordering := Ordering(lib, target, expected);
    ordering.Some?
    && match op
       case Gt => ordering.value.Greater?
       case Lt => ordering.value.Less?
       case Gte => !ordering.value.Less?
       case Lte => !ordering.value.Greater?
  }

  /** `needle` occurs in `s` (Rust's `str::contains`). */
  predicate Occurs(s: string, needle: string) {
    needle <= s || (s != "" && Occurs(s[1..], needle))
  }

  function HoldsValue(lib: Library, target: Json, expected: string): bool {
    match target
    case Array(items) => exists item :: item in items && ValuesEqual(lib, item, expected)
    case Text(s) => Occurs(s, expected)
    case _ => Occurs(ScalarText(lib, target), expected)
  }

  function Compare(lib: Library, target: Json, op: Op, expected: string): bool {
    match op
    case Eq => ValuesEqual(lib, target, expected)
    case Ne => !ValuesEqual(lib, target, expected)
    case Contains => HoldsValue(lib, target, expected)
    case Matches => lib.regex(expected).Some? && lib.regex(expected).value(ScalarText(lib, target))
    case _ => OrderedCompare(lib, target, op, expected)
  }

  datatype ContentFilter = ContentFilter(path: string, value: string)

  /** The node a filter's path selects, when the path is well formed and leads somewhere. */
  function Target(f: ContentFilter, data: Json): Option<Json> {
    var path := PathOf(f.path);
    if path.None? then None else At(data, path.value)
  }

  function Verdict(lib: Library, f: ContentFilter, op: Op, data: Json): bool {
    PathOf(f.path).Some?
    && var target := Target(f, data);
       if target.None? then op.Ne? else Compare(lib, target.value, op, f.value)
  }

  method Evaluate(lib: Library, f: ContentFilter, op: Op, data: Json) returns (deliver: bool)
    ensures deliver == Verdict(lib, f, op, data)
  {
    var segments := ParsePath(f.path);
    if segments.None? {
      return false;
    }
    var target := Resolve(data, segments.value);
    if target.None? {
      return op.Ne?;
    }
    return Compare(lib, target.value, op, f.value);
  }

  // ------------------------------------------------- how operators relate

  /** `ne` is the negation of `eq` for exactly the well-formed paths, absent fields included. */
  lemma NeIsNotEq(lib: Library, f: ContentFilter, data: Json)
    ensures (Verdict(lib, f, Ne, data) == !Verdict(lib, f, Eq, data)) <==> PathOf(f.path).Some?
  {
  }

  /** The two sides can be ordered: the path leads to a node, and no NaN takes part. */
  ghost predicate Comparable(lib: Library, f: ContentFilter, data: Json) {
    Target(f, data).Some? && Ordering(lib, Target(f, data).value, f.value).Some?
  }

  /** `lte` negates `gt`, and `gte` negates `lt`, for exactly the comparable operands. */
  lemma OrderComplements(lib: Library, f: ContentFilter, data: Json)
    ensures (Verdict(lib, f, Lte, data) == !Verdict(lib, f, Gt, data)) <==> Comparable(lib, f, data)
    ensures (Verdict(lib, f, Gte, data) == !Verdict(lib, f, Lt, data)) <==> Comparable(lib, f, data)
  {
  }

  lemma EqualityIsOrderEqual(lib: Library, target: Json, expected: string)
    ensures ValuesEqual(lib, target, expected) <==> Ordering(lib, target, expected) == Some(Equal)
  {
  }

  /** Equality, which compares by its own rules, is still both bounds at once. */
  lemma EqIsBothBounds(lib: Library, f: ContentFilter, data: Json)
    ensures Verdict(lib, f, Eq, data) <==> Verdict(lib, f, Gte, data) && Verdict(lib, f, Lte, data)
    ensures Verdict(lib, f, Gte, data) <==> Verdict(lib, f, Gt, data) || Verdict(lib, f, Eq, data)
    ensures Verdict(lib, f, Lte, data) <==> Verdict(lib, f, Lt, data) || Verdict(lib, f, Eq, data)
    ensures Comparable(lib, f, data)
      <==> Verdict(lib, f, Lt, data) || Verdict(lib, f, Eq, data) || Verdict(lib, f, Gt, data)
    ensures !(Verdict(lib, f, Lt, data) && Verdict(lib, f, Gt, data))
  {
    if Target(f, data).Some? {
      EqualityIsOrderEqual(lib, Target(f, data).value, f.value);
    }
  }

  /** Exchanging a text field with the bound reverses the order. */
  lemma ExchangedSidesReverse(lib: Library, field: string, bound: string)
    ensures Ordering(lib, Text(field), bound) == Some(Greater) <==> Ordering(lib, Text(bound), field) == Some(Less)
    ensures Ordering(lib, Text(field), bound) == Some(Equal) <==> Ordering(lib, Text(bound), field) == Some(Equal)
  {
    LexTotal(field, bound);
  }

  lemma {:induction false} OccursIffSplit(s: string, needle: string)
    ensures Occurs(s, needle) <==> exists a: string, b: string :: s == a + needle + b
  {
    if needle <= s {
      assert s == "" + needle + s[|needle|..];
    } else if s != "" {
      OccursIffSplit(s[1..], needle);
      if a: string, b: string :| s[1..] == a + needle + b {
        assert s == ([s[0]] + a) + needle + b;
      }
      if a: string, b: string :| s == a + needle + b {
        assert a == "" ==> needle <= s;
        assert s[1..] == a[1..] + needle + b;
      }
    }
  }

  // ------------------------------------------------- what operators mean

  /** The node is a number, or a text that reads as one when trimmed. */
  ghost predicate ReadsAs(lib: Library, node: Json, v: Float) {
    match node
    case Number(_, w) => w == v
    case Text(s) => lib.parseF64(Trim(s)) == Some(v)
    case _ => false
  }

  ghost predicate NotNumeric(lib: Library, node: Json) {
    forall v :: !ReadsAs(lib, node, v)
  }

  /** `a` is the greater of two floats, infinities included; a NaN is neither above nor below. */
  predicate Above(a: Float, b: Float) {
    || (a == PosInf && (b == NegInf || b.Finite?))
    || (b == NegInf && (a == PosInf || a.Finite?))
    || (a.Finite? && b.Finite? && a.value > b.value)
  }

  /** Neither is NaN and they are the same number. */
  predicate SameNumber(a: Float, b: Float) {
    (a == PosInf && b == PosInf) || (a == NegInf && b == NegInf) || (a.Finite? && b.Finite? && a.value == b.value)
  }

  lemma NumbersOrdered(a: Float, b: Float)
    ensures PartialCmp(a, b) == Some(Greater) <==> Above(a, b)
    ensures PartialCmp(a, b) == Some(Less) <==> Above(b, a)
    ensures PartialCmp(a, b) == Some(Equal) <==> SameNumber(a, b)
    ensures FloatEq(a, b) <==> SameNumber(a, b)
  {
  }

  lemma ReadsNumber(lib: Library, node: Json, v: Float)
    ensures ReadsAs(lib, node, v) <==> AsNumber(lib, node) == Some(v)
  {
  }

  lemma VerdictAtTarget(lib: Library, f: ContentFilter, op: Op, data: Json)
    requires Target(f, data).Some?
    ensures Verdict(lib, f, op, data) == Compare(lib, Target(f, data).value, op, f.value)
  {
  }

  /** The six comparisons in terms of equality and order. */
  lemma Comparisons(lib: Library, f: ContentFilter, data: Json)
    requires Target(f, data).Some?
    ensures var node := Target(f, data).value;
      var ordering := Ordering(lib, node, f.value);
      && (Verdict(lib, f, Gt, data) <==> ordering == Some(Greater))
      && (Verdict(lib, f, Lt, data) <==> ordering == Some(Less))
      && (Verdict(lib, f, Gte, data) <==> ordering == Some(Greater) || ordering == Some(Equal))
      && (Verdict(lib, f, Lte, data) <==> ordering == Some(Less) || ordering == Some(Equal))
      && (Verdict(lib, f, Eq, data) <==> ValuesEqual(lib, node, f.value))
      && (Verdict(lib, f, Ne, data) <==> !ValuesEqual(lib, node, f.value))
  {
    VerdictAtTarget(lib, f, Gt, data);
    VerdictAtTarget(lib, f, Lt, data);
    VerdictAtTarget(lib, f, Gte, data);
    VerdictAtTarget(lib, f, Lte, data);
    VerdictAtTarget(lib, f, Eq, data);
    VerdictAtTarget(lib, f, Ne, data);
  }

  /** A field that reads as a number, compared with a value that does, is compared as a number. */
  lemma NumericVerdict(lib: Library, f: ContentFilter, data: Json, x: Float, y: Float)
    requires Target(f, data).Some? && ReadsAs(lib, Target(f, data).value, x) && lib.parseF64(Trim(f.value)) == Some(y)
    ensures Verdict(lib, f, Gt, data) <==> Above(x, y)
    ensures Verdict(lib, f, Lt, data) <==> Above(y, x)
    ensures Verdict(lib, f, Gte, data) <==> Above(x, y) || SameNumber(x, y)
    ensures Verdict(lib, f, Lte, data) <==> Above(y, x) || SameNumber(x, y)
    ensures Verdict(lib, f, Eq, data) <==> SameNumber(x, y)
    ensures Verdict(lib, f, Ne, data) <==> !SameNumber(x, y)
  {
    Comparisons(lib, f, data);
    ReadsNumber(lib, Target(f, data).value, x);
    NumbersOrdered(x, y);
  }

  /** On finite numbers that is the order of the reals. */
  lemma FiniteVerdict(lib: Library, f: ContentFilter, data: Json, x: real, y: real)
    requires Target(f, data).Some? && ReadsAs(lib, Target(f, data).value, Finite(x))
    requires lib.parseF64(Trim(f.value)) == Some(Finite(y))
    ensures Verdict(lib, f, Gt, data) <==> x > y
    ensures Verdict(lib, f, Lt, data) <==> x < y
    ensures Verdict(lib, f, Gte, data) <==> x >= y
    ensures Verdict(lib, f, Lte, data) <==> x <= y
    ensures Verdict(lib, f, Eq, data) <==> x == y
    ensures Verdict(lib, f, Ne, data) <==> x != y
  {
    NumericVerdict(lib, f, data, Finite(x), Finite(y));
  }

  /** The text a node is compared by when one side is not a number. */
  ghost predicate Written(lib: Library, node: Json, text: string) {
    match node
    case Null => text == "null"
    case Bool(b) => (b && text == "true") || (!b && text == "false")
    case Number(t, _) => text == t
    case Text(s) => text == s
    case _ => text == lib.compact(node)
  }

  /** Otherwise both are compared as texts. */
  lemma TextVerdict(lib: Library, f: ContentFilter, data: Json, text: string)
    requires Target(f, data).Some? && Written(lib, Target(f, data).value, text)
    requires NotNumeric(lib, Target(f, data).value) || lib.parseF64(Trim(f.value)).None?
    ensures Verdict(lib, f, Gt, data) <==> LexLess(f.value, text)
    ensures Verdict(lib, f, Lt, data) <==> LexLess(text, f.value)
    ensures Verdict(lib, f, Gte, data) <==> !LexLess(text, f.value)
    ensures Verdict(lib, f, Lte, data) <==> !LexLess(f.value, text)
    ensures Verdict(lib, f, Eq, data) <==> f.value == text
    ensures Verdict(lib, f, Ne, data) <==> f.value != text
  {
    LexTotal(f.value, text);
    LexAsymmetric(f.value, text);
    var node := Target(f, data).value;
    Comparisons(lib, f, data);
    if AsNumber(lib, node).Some? {
      ReadsNumber(lib, node, AsNumber(lib, node).value);
    }
  }

  /** A boolean equals its name only, and null the word null. */
  lemma PlainValues(lib: Library, f: ContentFilter, data: Json)
    requires Target(f, data).Some?
    ensures Target(f, data) == Some(Bool(true)) ==> (Verdict(lib, f, Eq, data) <==> f.value == "true")
    ensures Target(f, data) == Some(Bool(false)) ==> (Verdict(lib, f, Eq, data) <==> f.value == "false")
    ensures Target(f, data) == Some(Null) ==> (Verdict(lib, f, Eq, data) <==> f.value == "null")
  {
  }

  /** `contains` looks for the value in the text of anything but an array, and `matches` asks its pattern. */
  lemma TextSearches(lib: Library, f: ContentFilter, data: Json, text: string)
    requires Target(f, data).Some? && Written(lib, Target(f, data).value, text)
    ensures !Target(f, data).value.Array? ==>
      (Verdict(lib, f, Contains, data) <==> exists a: string, b: string :: text == a + f.value + b)
    ensures Verdict(lib, f, Matches, data)
      <==> exists pattern :: lib.regex(f.value) == Some(pattern) && pattern(text)
  {
    OccursIffSplit(text, f.value);
  }

  /** A path that does not parse answers false; one that leads nowhere is only unequal. */
  lemma NoTarget(lib: Library, f: ContentFilter, op: Op, data: Json)
    requires Target(f, data).None?
    ensures Verdict(lib, f, op, data) <==> PathOf(f.path).Some? && op == Ne
  {
  }

  // ------------------------------------------------------ filters on arrays

  /** The filter on one element of the array that `f` selects. */
  function ElementFilter(f: ContentFilter, i: nat): ContentFilter {
    f.(path := f.path + Print(Index(i), Dot))
  }

  lemma ElementVerdict(lib: Library, f: ContentFilter, data: Json, i: nat)
    requires Target(f, data).Some? && Target(f, data).value.Array? && i < USIZE_RANGE
    ensures Verdict(lib, ElementFilter(f, i), Eq, data)
      <==> i < |Target(f, data).value.items| && ValuesEqual(lib, Target(f, data).value.items[i], f.value)
  {
    LongerPath(f.path, Index(i), Dot);
    AtConcat(data, PathOf(f.path).value, [Index(i)]);
    var items := Target(f, data).value.items;
    if i < |items| {
      assert At(Target(f, data).value, [Index(i)]) == Some(items[i]);
    } else {
      assert At(Target(f, data).value, [Index(i)]) == None;
    }
  }

  lemma HoldsAtSomeIndex(lib: Library, items: seq<Json>, expected: string)
    ensures HoldsValue(lib, Array(items), expected)
      <==> exists i: nat :: i < |items| && ValuesEqual(lib, items[i], expected)
  {
    if item :| item in items && ValuesEqual(lib, item, expected) {
      var i: nat :| i < |items| && items[i] == item;
    }
  }

  /** `eq` holds on the element the path with this index appended leads to. */
  ghost predicate ElementEq(lib: Library, f: ContentFilter, data: Json, i: nat) {
    i < USIZE_RANGE && Verdict(lib, ElementFilter(f, i), Eq, data)
  }

  lemma ContainsLooksInside(lib: Library, f: ContentFilter, data: Json)
    requires Target(f, data).Some?
    ensures Verdict(lib, f, Contains, data) <==> HoldsValue(lib, Target(f, data).value, f.value)
  {
  }

  /** `contains` on an array holds exactly when `eq` holds at some index path into it. */
  lemma ContainsIsEqAtSomeIndex(lib: Library, f: ContentFilter, data: Json)
    requires Target(f, data).Some? && Target(f, data).value.Array?
    requires |Target(f, data).value.items| <= USIZE_RANGE
    ensures Verdict(lib, f, Contains, data) <==> exists i: nat :: ElementEq(lib, f, data, i)
  {
    var items := Target(f, data).value.items;
    ContainsLooksInside(lib, f, data);
    HoldsAtSomeIndex(lib, items, f.value);
    forall i: nat ensures ElementEq(lib, f, data, i) <==> i < |items| && ValuesEqual(lib, items[i], f.value) {
      if i < USIZE_RANGE {
        ElementVerdict(lib, f, data, i);
      }
    }
  }
}
