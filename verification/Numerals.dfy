/**
 * Numbers as text: powers, fixed-width and unpadded numerals, integer parsing
 * as Rust's `str::parse` does it, and the lexicographic order of strings.
 */
module Numerals {
  import opened Options

  // ---------------------------------------------------------------- powers

  function Pow(b: nat, e: nat): (p: nat)
    ensures b > 0 ==> p > 0
  {
    if e == 0 then 1 else b * Pow(b, e - 1)
  }

  lemma {:induction false} PowAdd(b: nat, m: nat, n: nat)
    ensures Pow(b, m + n) == Pow(b, m) * Pow(b, n)
  {
    if m == 0 {
    } else {
      PowAdd(b, m - 1, n);
      assert b * (Pow(b, m - 1) * Pow(b, n)) == (b * Pow(b, m - 1)) * Pow(b, n);
    }
  }

  lemma {:induction false} PowMul(b: nat, m: nat, n: nat)
    ensures Pow(b, m * n) == Pow(Pow(b, m), n)
  {
    if n == 0 {
      assert m * n == 0;
    } else {
      assert m * n == m + m * (n - 1);
      PowAdd(b, m, m * (n - 1));
      PowMul(b, m, n - 1);
    }
  }

  lemma {:induction false} PowMonotone(b: nat, m: nat, n: nat)
    requires b >= 1 && m <= n
    ensures Pow(b, m) <= Pow(b, n)
    decreases n
  {
    if m < n {
      PowMonotone(b, m, n - 1);
      assert Pow(b, n) == b * Pow(b, n - 1) >= Pow(b, n - 1);
    }
  }

  lemma {:induction false} PowBaseMonotone(a: nat, b: nat, n: nat)
    requires a <= b
    ensures Pow(a, n) <= Pow(b, n)
  {
    if n > 0 {
      PowBaseMonotone(a, b, n - 1);
      MulMonotone(a, b, Pow(a, n - 1), Pow(b, n - 1));
    }
  }

  lemma MulMonotone(a: nat, b: nat, x: nat, y: nat)
    requires a <= b && x <= y
    ensures a * x <= b * y
  {
    assert a * x <= a * y <= b * y;
  }

  /** Exponents compare as the powers do. */
  lemma PowReflectsLess(b: nat, m: nat, n: nat)
    requires b >= 1 && Pow(b, m) < Pow(b, n)
    ensures m < n
  {
    if n <= m {
      PowMonotone(b, n, m);
    }
  }

  // --------------------------------------------------------------- strings

  /** `k` is where `a` first differs from `b` or ends, and it is the smaller there. */
  predicate SmallerAt(a: string, b: string, k: nat) {
    k <= |a| && k < |b| && a[..k] == b[..k] && (k == |a| || a[k] < b[k])
  }

  /** Strict lexicographic order, as byte and code-point order agree on it. */
  predicate LexLess(a: string, b: string) {
    exists k: nat :: k <= |a| && SmallerAt(a, b, k)
  }

  lemma LexIrreflexive(a: string)
    ensures !LexLess(a, a)
  {
  }

  lemma LexAsymmetric(a: string, b: string)
    ensures !(LexLess(a, b) && LexLess(b, a))
  {
  }

  lemma {:induction false} LexTotal(a: string, b: string)
    ensures LexLess(a, b) || a == b || LexLess(b, a)
    ensures !(LexLess(a, b) && LexLess(b, a))
  {
    LexAsymmetric(a, b);
    if a == [] || b == [] {
      assert a == [] && b != [] ==> SmallerAt(a, b, 0);
      assert b == [] && a != [] ==> SmallerAt(b, a, 0);
    } else if a[0] != b[0] {
      assert SmallerAt(a, b, 0) || SmallerAt(b, a, 0);
    } else {
      LexTotal(a[1..], b[1..]);
      assert a == [a[0]] + a[1..] && b == [a[0]] + b[1..];
      LexSamePrefix([a[0]], a[1..], b[1..]);
      LexSamePrefix([a[0]], b[1..], a[1..]);
    }
  }

  lemma LexSamePrefix(p: string, a: string, b: string)
    ensures LexLess(p + a, p + b) == LexLess(a, b)
  {
    if LexLess(a, b) {
      var k: nat :| k <= |a| && SmallerAt(a, b, k);
      PrefixShifts(p, a, b, k);
    }
    if LexLess(p + a, p + b) {
      var l: nat :| l <= |p + a| && SmallerAt(p + a, p + b, l);
      assert l >= |p|;
      PrefixShifts(p, a, b, l - |p|);
    }
  }

  lemma PrefixShifts(p: string, a: string, b: string, k: nat)
    requires k <= |a| && k <= |b|
    ensures SmallerAt(p + a, p + b, |p| + k) == SmallerAt(a, b, k)
  {
    assert (p + a)[..|p| + k] == p + a[..k] && (p + b)[..|p| + k] == p + b[..k];
    assert p + a[..k] == p + b[..k] <==> a[..k] == b[..k] by {
      assert (p + a[..k])[|p|..] == a[..k] && (p + b[..k])[|p|..] == b[..k];
    }
  }

  lemma SameInsidePrefix(a: string, x: string, b: string, y: string, k: nat)
    requires |a| == |b| && k < |a|
    ensures SmallerAt(a + x, b + y, k) == SmallerAt(a, b, k)
  {
    assert (a + x)[..k] == a[..k] && (b + y)[..k] == b[..k];
  }

  lemma EqualSoFar(a: string, x: string, b: string, y: string, l: nat)
    requires |a| == |b| && l <= |a + x| && l <= |b + y| && (a + x)[..l] == (b + y)[..l]
    ensures l >= |a| ==> a == b
  {
    if l >= |a| {
      assert (a + x)[..l][..|a|] == a && (b + y)[..l][..|a|] == b;
    }
  }

  /** When the leading parts have one length and differ, they decide. */
  lemma LexLeadingPartDecides(a: string, x: string, b: string, y: string)
    requires |a| == |b| && a != b
    ensures LexLess(a + x, b + y) == LexLess(a, b)
  {
    if LexLess(a, b) {
      var k: nat :| k <= |a| && SmallerAt(a, b, k);
      SameInsidePrefix(a, x, b, y, k);
    }
    if LexLess(a + x, b + y) {
      var l: nat :| l <= |a + x| && SmallerAt(a + x, b + y, l);
      EqualSoFar(a, x, b, y, l);
      SameInsidePrefix(a, x, b, y, l);
    }
  }

  lemma LexLastDecides(a: string, x: char, b: string, y: char)
    requires |a| == |b|
    ensures LexLess(a + [x], b + [y]) == (LexLess(a, b) || (a == b && x < y))
  {
    if a == b {
      LexSamePrefix(a, [x], [y]);
      LexIrreflexive(a);
      assert x < y ==> SmallerAt([x], [y], 0);
    } else {
      LexLeadingPartDecides(a, [x], b, [y]);
    }
  }

  /** Everything before the first `sep`, and everything after it (Rust's `split_once`). */
  function SplitOnce(s: string, sep: char): (r: Option<(string, string)>)
    ensures r.Some? ==> s == r.value.0 + [sep] + r.value.1 && sep !in r.value.0
    ensures r.None? ==> sep !in s
  {
    if s == [] then None
    else if s[0] == sep then
      assert s == [] + [sep] + s[1..];
      Some(([], s[1..]))
    else
      match SplitOnce(s[1..], sep)
      case None => None
      case Some((a, b)) =>
        assert s == [s[0]] + s[1..];
        Some(([s[0]] + a, b))
  }

  lemma {:induction false} SplitOnceFinds(a: string, sep: char, b: string)
    requires sep !in a
    ensures SplitOnce(a + [sep] + b, sep) == Some((a, b))
  {
    var s := a + [sep] + b;
    if a == [] {
      assert s[1..] == b;
    } else {
      assert s[0] == a[0] && s[1..] == a[1..] + [sep] + b;
      SplitOnceFinds(a[1..], sep, b);
      assert a == [a[0]] + a[1..];
    }
  }

  // -------------------------------------------------------------- numerals

  /** One digit of a base up to 16; hexadecimal letters are capitals when `caps`. */
  function DigitChar(d: nat, caps: bool): (c: char)
    requires d < 16
    ensures DigitOf(c) == Some(d)
  {
    if d < 10 then ('0' as int + d) as char
    else if caps then ('A' as int + (d - 10)) as char
    else ('a' as int + (d - 10)) as char
  }

  function DigitOf(c: char): (r: Option<nat>)
    ensures r.Some? ==> r.value < 16
  {
    if '0' <= c <= '9' then Some(c as int - '0' as int)
    else if 'a' <= c <= 'f' then Some(c as int - 'a' as int + 10)
    else if 'A' <= c <= 'F' then Some(c as int - 'A' as int + 10)
    else None
  }

  lemma DigitCharMonotone(d: nat, e: nat, caps: bool)
    requires d < 16 && e < 16
    ensures (DigitChar(d, caps) < DigitChar(e, caps)) == (d < e)
    ensures (DigitChar(d, caps) == DigitChar(e, caps)) == (d == e)
  {
  }

  /** The two radixes in use; divisors stay literal so that they are easy to reason about. */
  datatype Radix = Ten | Sixteen {
    function Base(): nat { if Ten? then 10 else 16 }
    function Quotient(n: nat): nat { if Ten? then n / 10 else n / 16 }
    function Remainder(n: nat): (d: nat)
      ensures d < Base()
    {
      if Ten? then n % 10 else n % 16
    }
    function Times(n: nat): nat { if Ten? then 10 * n else 16 * n }
  }

  /** The `width` lowest digits of `n`, most significant first. */
  function Fixed(radix: Radix, width: nat, n: nat, caps: bool): (s: string)
    ensures |s| == width
    ensures forall i :: 0 <= i < |s| ==> DigitOf(s[i]).Some? && DigitOf(s[i]).value < radix.Base()
  {
    if width == 0 then ""
    else Fixed(radix, width - 1, radix.Quotient(n), caps) + [DigitChar(radix.Remainder(n), caps)]
  }

  /** The value of a numeral, or nothing when a character is not a digit of the radix. */
  function Numeral(radix: Radix, s: string): (r: Option<nat>)
  {
    if |s| == 0 then Some(0)
    else
      var hi, d := Numeral(radix, s[..|s| - 1]), DigitOf(s[|s| - 1]);
      if hi.Some? && d.Some? && d.value < radix.Base() then Some(radix.Times(hi.value) + d.value) else None
  }

  lemma NumeralSnoc(radix: Radix, s: string, hi: nat, d: nat, caps: bool)
    requires Numeral(radix, s) == Some(hi) && d < radix.Base()
    ensures Numeral(radix, s + [DigitChar(d, caps)]) == Some(radix.Times(hi) + d)
  {
    var t := s + [DigitChar(d, caps)];
    assert t[..|t| - 1] == s && t[|t| - 1] == DigitChar(d, caps);
  }

  /** How many numbers have a fixed-width numeral of this width. */
  function Range(radix: Radix, width: nat): (p: nat)
    ensures p > 0
  {
    if width == 0 then 1 else radix.Times(Range(radix, width - 1))
  }

  /** A fixed-width numeral is that of the quotient, and the last digit. */
  lemma SplitFixed(radix: Radix, width: nat, n: nat, caps: bool) returns (q: nat, d: nat)
    requires width > 0 && n < Range(radix, width)
    ensures q < Range(radix, width - 1) && d < radix.Base() && n == radix.Times(q) + d
    ensures Fixed(radix, width, n, caps) == Fixed(radix, width - 1, q, caps) + [DigitChar(d, caps)]
  {
    q, d := radix.Quotient(n), radix.Remainder(n);
  }

  /** Reading back a fixed-width numeral gives the number, as long as it fits. */
  lemma {:induction false} FixedReads(radix: Radix, width: nat, n: nat, caps: bool)
    requires n < Range(radix, width)
    ensures Numeral(radix, Fixed(radix, width, n, caps)) == Some(n)
  {
    if width > 0 {
      var q, d := SplitFixed(radix, width, n, caps);
      FixedReads(radix, width - 1, q, caps);
      NumeralSnoc(radix, Fixed(radix, width - 1, q, caps), q, d, caps);
    }
  }

  lemma PositionsDecide(radix: Radix, p: nat, c: nat, q: nat, d: nat)
    requires c < radix.Base() && d < radix.Base()
    ensures radix.Times(p) + c < radix.Times(q) + d <==> p < q || (p == q && c < d)
    ensures radix.Times(p) + c == radix.Times(q) + d <==> p == q && c == d
  {
  }

  lemma SnocEqual(s: string, x: char, t: string, y: char)
    requires |s| == |t|
    ensures s + [x] == t + [y] <==> s == t && x == y
  {
    assert (s + [x])[..|s|] == s && (t + [y])[..|t|] == t;
    assert (s + [x])[|s|] == x && (t + [y])[|t|] == y;
  }

  /** One more digit keeps the order of texts and that of numbers the same. */
  lemma SnocOrder(radix: Radix, s: string, p: nat, c: nat, t: string, q: nat, d: nat, caps: bool)
    requires c < radix.Base() && d < radix.Base() && |s| == |t|
    requires LexLess(s, t) == (p < q) && (s == t) == (p == q)
    ensures LexLess(s + [DigitChar(c, caps)], t + [DigitChar(d, caps)]) == (radix.Times(p) + c < radix.Times(q) + d)
    ensures (s + [DigitChar(c, caps)] == t + [DigitChar(d, caps)]) == (radix.Times(p) + c == radix.Times(q) + d)
  {
    PositionsDecide(radix, p, c, q, d);
    LexLastDecides(s, DigitChar(c, caps), t, DigitChar(d, caps));
    SnocEqual(s, DigitChar(c, caps), t, DigitChar(d, caps));
    DigitCharMonotone(c, d, caps);
  }

  /** Fixed-width numerals of one radix sort exactly as the numbers do. */
  lemma {:induction false} FixedOrder(radix: Radix, width: nat, m: nat, n: nat, caps: bool)
    requires m < Range(radix, width) && n < Range(radix, width)
    ensures LexLess(Fixed(radix, width, m, caps), Fixed(radix, width, n, caps)) == (m < n)
    ensures (Fixed(radix, width, m, caps) == Fixed(radix, width, n, caps)) == (m == n)
  {
    if width > 0 {
      var p, c := SplitFixed(radix, width, m, caps);
      var q, d := SplitFixed(radix, width, n, caps);
      FixedOrder(radix, width - 1, p, q, caps);
      SnocOrder(radix, Fixed(radix, width - 1, p, caps), p, c, Fixed(radix, width - 1, q, caps), q, d, caps);
    }
  }

  /** Letters are all capitals or all small, as asked for. */
  lemma {:induction false} FixedCase(radix: Radix, width: nat, n: nat, caps: bool)
    ensures forall c :: c in Fixed(radix, width, n, caps) ==>
      '0' <= c <= '9' || (if caps then 'A' <= c <= 'F' else 'a' <= c <= 'f')
  {
    if width > 0 {
      FixedCase(radix, width - 1, radix.Quotient(n), caps);
    }
  }

  /** An unpadded decimal numeral (Rust's `{}` for unsigned integers). */
  function Decimal(n: nat): (s: string)
    ensures |s| > 0 && forall i :: 0 <= i < |s| ==> '0' <= s[i] <= '9'
  {
    if n < 10 then [DigitChar(n, false)] else Decimal(n / 10) + [DigitChar(n % 10, false)]
  }

  lemma DecimalSnoc(n: nat, q: nat, d: nat)
    requires n == 10 * q + d && d < 10 && q > 0
    ensures Decimal(n) == Decimal(q) + [DigitChar(d, false)]
  {
  }

  lemma DivideByTen(n: nat) returns (q: nat, d: nat)
    ensures n == 10 * q + d && d < 10 && (n >= 10 ==> 0 < q < n)
  {
    q, d := n / 10, n % 10;
  }

  lemma {:induction false} DecimalReads(n: nat)
    ensures Numeral(Ten, Decimal(n)) == Some(n)
  {
    if n < 10 {
      NumeralSnoc(Ten, "", 0, n, false);
    } else {
      var q, d := DivideByTen(n);
      DecimalReads(q);
      DecimalSnoc(n, q, d);
      NumeralSnoc(Ten, Decimal(q), q, d, false);
    }
  }

  /** The text is the shortest decimal numeral of the number. */
  ghost predicate Spells(text: string, n: nat) {
    && text != "" && Numeral(Ten, text) == Some(n)
    && (forall c :: c in text ==> '0' <= c <= '9') && (|text| > 1 ==> text[0] != '0')
  }

  lemma {:induction false} DecimalSpells(n: nat)
    ensures Spells(Decimal(n), n) && (n > 0 ==> Decimal(n)[0] != '0')
  {
    DecimalReads(n);
    if n >= 10 {
      DecimalSpells(n / 10);
    }
  }

  lemma {:induction false} DecimalLength(n: nat, width: nat)
    ensures |Decimal(n)| <= width <==> width > 0 && n < Range(Ten, width)
  {
    if n < 10 {
      assert Decimal(n) == [DigitChar(n % 10, false)];
      if width > 0 {
        assert Range(Ten, width - 1) >= 1;
      }
    } else if width > 0 {
      DecimalLength(n / 10, width - 1);
      assert Range(Ten, 0) == 1;
    }
  }

  function Zeros(k: nat): (s: string)
    ensures |s| == k && forall i :: 0 <= i < k ==> s[i] == '0'
  {
    if k == 0 then "" else "0" + Zeros(k - 1)
  }

  /** A decimal numeral padded with zeros to at least `width` (Rust's `{:0width}`). */
  function Padded(width: nat, n: nat): (s: string)
    ensures |s| >= width
    ensures forall i :: 0 <= i < |s| ==> '0' <= s[i] <= '9'
  {
    var d := Decimal(n);
    if |d| >= width then d else Zeros(width - |d|) + d
  }

  lemma {:induction false} FixedZero(width: nat)
    ensures Fixed(Ten, width, 0, false) == Zeros(width)
  {
    if width > 0 {
      FixedZero(width - 1);
      ZerosSnoc(width - 1);
    }
  }

  lemma ZerosSnoc(k: nat)
    ensures Zeros(k) + "0" == Zeros(k + 1)
  {
    assert |Zeros(k) + "0"| == |Zeros(k + 1)|;
  }

  /** Padding is the fixed-width numeral whenever the number fits the width. */
  lemma {:induction false} PaddedIsFixed(width: nat, n: nat)
    requires width > 0 && n < Range(Ten, width)
    ensures Padded(width, n) == Fixed(Ten, width, n, false)
  {
    DecimalLength(n, width);
    var last := [DigitChar(n % 10, false)];
    if n < 10 {
      assert Decimal(n) == last;
      FixedZero(width - 1);
    } else {
      assert Range(Ten, 0) == 1;
      PaddedIsFixed(width - 1, n / 10);
      DecimalLength(n / 10, width - 1);
      var d := Decimal(n / 10);
      assert Decimal(n) == d + last;
      if |d| < width - 1 {
        assert Zeros(width - |Decimal(n)|) + (d + last) == (Zeros(width - 1 - |d|) + d) + last;
      }
    }
  }

  /** `"" + digits` with an optional leading '+', below `bound`: Rust's unsigned `parse`. */
  function ParseUnsigned(s: string, bound: nat): (r: Option<nat>)
    ensures r.Some? ==> r.value < bound
  {
    var digits := if s != "" && s[0] == '+' then s[1..] else s;
    if digits == "" then None
    else
      match Numeral(Ten, digits)
      case Some(n) => if n < bound then Some(n) else None
      case None => None
  }

  lemma PaddedReads(width: nat, n: nat)
    requires width > 0
    ensures Numeral(Ten, Padded(width, n)) == Some(n)
  {
    DecimalLength(n, width);
    DecimalReads(n);
    if n < Range(Ten, width) {
      PaddedIsFixed(width, n);
      FixedReads(Ten, width, n, false);
    }
  }

  lemma PaddedParses(width: nat, n: nat, bound: nat)
    requires width > 0 && n < bound
    ensures ParseUnsigned(Padded(width, n), bound) == Some(n)
  {
    PaddedReads(width, n);
    assert Padded(width, n)[0] != '+';
  }

  lemma DecimalParses(n: nat, bound: nat)
    requires n < bound
    ensures ParseUnsigned(Decimal(n), bound) == Some(n)
  {
    DecimalReads(n);
    assert Decimal(n)[0] != '+';
  }

  /** Decimal digits for `n`, with or without a plus sign in front. */
  ghost predicate UnsignedText(s: string, n: nat) {
    exists digits: string :: (s == digits || s == "+" + digits) && digits != "" && Numeral(Ten, digits) == Some(n)
  }

  lemma {:induction false} NumeralHasDigits(s: string)
    requires Numeral(Ten, s).Some?
    ensures forall i :: 0 <= i < |s| ==> '0' <= s[i] <= '9'
  {
    if s != "" {
      NumeralHasDigits(s[..|s| - 1]);
    }
  }

  /** Exactly such texts are parsed. */
  lemma ParseUnsignedReads(s: string, bound: nat, n: nat)
    ensures ParseUnsigned(s, bound) == Some(n) <==> n < bound && UnsignedText(s, n)
  {
    var digits := if s != "" && s[0] == '+' then s[1..] else s;
    assert s == digits || s == "+" + digits;
    if other: string :| (s == other || s == "+" + other) && other != "" && Numeral(Ten, other) == Some(n) {
      NumeralHasDigits(other);
      assert other == digits;
    }
  }

  /** Rust's `{}` for a signed integer. */
  function Signed(i: int): (s: string)
    ensures |s| > 0 && forall k :: 0 <= k < |s| ==> s[k] == '-' || '0' <= s[k] <= '9'
  {
    if i < 0 then "-" + Decimal(-i) else Decimal(i)
  }

  /** Rust's signed `parse` into the range [-half, half). */
  function ParseSigned(s: string, half: nat): (r: Option<int>)
    ensures r.Some? ==> 0 - half <= r.value < half
  {
    var negative := s != "" && s[0] == '-';
    var digits := if s != "" && (s[0] == '-' || s[0] == '+') then s[1..] else s;
    var n := Numeral(Ten, digits);
    if digits == "" || n.None? then None
    else
      var i: int := if negative then 0 - n.value else n.value;
      if 0 - half <= i < half then Some(i) else None
  }

  /** Decimal digits for the size of `i`, after a minus sign, a plus sign or nothing. */
  ghost predicate SignedText(s: string, i: int) {
    exists digits: string, n: nat :: digits != "" && Numeral(Ten, digits) == Some(n) && SignBefore(s, digits, i, n)
  }

  predicate SignBefore(s: string, digits: string, i: int, n: nat) {
    ((s == digits || s == "+" + digits) && i == n) || (s == "-" + digits && i == 0 - n)
  }

  /** Exactly such texts are parsed. */
  lemma ParseSignedReads(s: string, half: nat, i: int)
    ensures ParseSigned(s, half) == Some(i) <==> 0 - half <= i < half && SignedText(s, i)
  {
    var digits := if s != "" && (s[0] == '-' || s[0] == '+') then s[1..] else s;
    assert s == digits || s == "+" + digits || s == "-" + digits;
    if ParseSigned(s, half) == Some(i) {
      assert SignBefore(s, digits, i, Numeral(Ten, digits).value);
    }
    if other: string, n: nat :| other != "" && Numeral(Ten, other) == Some(n) && SignBefore(s, other, i, n) {
      SignComesOff(s, other, i, n);
    }
  }

  /** What is left after the sign is the digits. */
  lemma SignComesOff(s: string, digits: string, i: int, n: nat)
    requires digits != "" && Numeral(Ten, digits) == Some(n) && SignBefore(s, digits, i, n)
    ensures digits == if s[0] == '-' || s[0] == '+' then s[1..] else s
    ensures i == if s[0] == '-' then 0 - n else n
  {
    NumeralHasDigits(digits);
  }

  lemma ParsesNegative(digits: string, n: nat, half: nat)
    requires digits != "" && Numeral(Ten, digits) == Some(n) && 0 < n <= half
    ensures ParseSigned("-" + digits, half) == Some(0 - n)
  {
    assert ("-" + digits)[1..] == digits;
  }

  lemma ParsesUnmarked(digits: string, n: nat, half: nat)
    requires digits != "" && digits[0] != '-' && digits[0] != '+' && Numeral(Ten, digits) == Some(n) && n < half
    ensures ParseSigned(digits, half) == Some(n)
  {
  }

  lemma SignedParses(i: int, half: nat)
    requires 0 - half <= i < half
    ensures ParseSigned(Signed(i), half) == Some(i)
  {
    if i < 0 {
      DecimalReads(-i);
      ParsesNegative(Decimal(-i), -i, half);
    } else {
      DecimalReads(i);
      ParsesUnmarked(Decimal(i), i, half);
    }
  }
}
