/**
 * The base58 encoder behind API keys (src/api_keys.rs): an in-place big-number
 * conversion, specified by the canonical digits of the big-endian input number.
 */
module Base58 {
  import opened Options
  import opened Numerals

  /** The Bitcoin alphabet. */
  const ALPHABET: string :=
    "123456789" + "ABCDEFGH" + "JKLMN" + "PQRSTUVWXYZ" + "abcdefghijk" + "mnopqrstuvwxyz"

  /** The letter of a digit: the alphabet is made of six runs of consecutive characters. */
  function Letter(d: nat): (c: char)
    requires d < 58
    ensures IndexOf(c) == Some(d)
  {
    if d < 9 then ('1' as int + d) as char
    else if d < 17 then ('A' as int + (d - 9)) as char
    else if d < 22 then ('J' as int + (d - 17)) as char
    else if d < 33 then ('P' as int + (d - 22)) as char
    else if d < 44 then ('a' as int + (d - 33)) as char
    else ('m' as int + (d - 44)) as char
  }

  function IndexOf(c: char): (r: Option<nat>)
    ensures r.Some? ==> r.value < 58
  {
    if '1' <= c <= '9' then Some(c as int - '1' as int)
    else if 'A' <= c <= 'H' then Some(c as int - 'A' as int + 9)
    else if 'J' <= c <= 'N' then Some(c as int - 'J' as int + 17)
    else if 'P' <= c <= 'Z' then Some(c as int - 'P' as int + 22)
    else if 'a' <= c <= 'k' then Some(c as int - 'a' as int + 33)
    else if 'm' <= c <= 'z' then Some(c as int - 'm' as int + 44)
    else None
  }

  lemma SpellsAt(d: nat)
    requires d < 58
    ensures d < |ALPHABET| && ALPHABET[d] == Letter(d)
  {
  }

  lemma IndexedIsListed(alphabet: string, c: char)
    requires |alphabet| == 58 && forall d: nat :: d < 58 ==> alphabet[d] == Letter(d)
    ensures IndexOf(c).Some? <==> c in alphabet
    ensures IndexOf(c).Some? ==> alphabet[IndexOf(c).value] == c
  {
    if IndexOf(c).Some? {
      assert alphabet[IndexOf(c).value] == c;
    }
  }

  lemma AlphabetLength()
    ensures |ALPHABET| == 58
  {
  }

  /** The runs spell the alphabet: a character has an index exactly when it is in it. */
  lemma LettersSpellAlphabet(c: char)
    ensures IndexOf(c).Some? <==> c in ALPHABET
    ensures IndexOf(c).Some? ==> IndexOf(c).value < |ALPHABET| && ALPHABET[IndexOf(c).value] == c
  {
    AlphabetLength();
    forall d: nat | d < 58 ensures ALPHABET[d] == Letter(d) {
      SpellsAt(d);
    }
    IndexedIsListed(ALPHABET, c);
  }

  function Ones(z: nat): (s: string)
    ensures |s| == z && forall i :: 0 <= i < z ==> s[i] == '1'
  {
    seq(z, _ => '1')
  }

  function ZeroBytes(z: nat): (s: seq<Byte>)
    ensures |s| == z && forall i :: 0 <= i < z ==> s[i] == 0
  {
    seq(z, _ => 0)
  }

  // ------------------------------------------------- positional numbers

  /** The two bases the encoder converts between. */
  datatype Base = FiftyEight | Bytes256 {
    function Size(): nat { if FiftyEight? then 58 else 256 }
    function Times(n: nat): nat { if FiftyEight? then 58 * n else 256 * n }
    function Quotient(n: nat): nat { if FiftyEight? then n / 58 else n / 256 }
    function Remainder(n: nat): (d: nat)
      ensures d < Size()
    {
      if FiftyEight? then n % 58 else n % 256
    }
  }

  predicate AreDigits(base: Base, ds: seq<nat>) {
    forall i :: 0 <= i < |ds| ==> ds[i] < base.Size()
  }

  /** The number that big-endian digits denote. */
  function BigEndian(base: Base, ds: seq<nat>): nat {
    if |ds| == 0 then 0 else base.Times(BigEndian(base, ds[..|ds| - 1])) + ds[|ds| - 1]
  }

  /** The shortest big-endian digits of a number; zero has none. */
  function Canonical(base: Base, v: nat): (ds: seq<nat>)
    ensures AreDigits(base, ds)
    ensures ds != [] ==> ds[0] > 0
    decreases v
  {
    if v == 0 then [] else Canonical(base, base.Quotient(v)) + [base.Remainder(v)]
  }

  lemma {:induction false} ValueOfCanonical(base: Base, v: nat)
    ensures BigEndian(base, Canonical(base, v)) == v
    decreases v
  {
    if v > 0 {
      ValueOfCanonical(base, base.Quotient(v));
      var ds := Canonical(base, v);
      assert ds[..|ds| - 1] == Canonical(base, base.Quotient(v));
    }
  }

  /** Digits without a leading zero are the canonical digits of what they denote. */
  lemma {:induction false} CanonicalOfValue(base: Base, ds: seq<nat>)
    requires AreDigits(base, ds) && (ds != [] ==> ds[0] > 0)
    ensures Canonical(base, BigEndian(base, ds)) == ds
    ensures ds != [] ==> BigEndian(base, ds) > 0
  {
    if ds != [] {
      var hi, d := ds[..|ds| - 1], ds[|ds| - 1];
      CanonicalOfValue(base, hi);
      var v := BigEndian(base, ds);
      assert base.Quotient(v) == BigEndian(base, hi) && base.Remainder(v) == d;
      assert ds == hi + [d];
    }
  }

  lemma {:induction false} LeadingZerosAddNothing(base: Base, z: nat, ds: seq<nat>)
    ensures BigEndian(base, ZeroBytes(z) + ds) == BigEndian(base, ds)
    decreases |ds|, z
  {
    var s := ZeroBytes(z) + ds;
    if ds != [] {
      LeadingZerosAddNothing(base, z, ds[..|ds| - 1]);
      assert s[..|s| - 1] == ZeroBytes(z) + ds[..|ds| - 1];
    } else if z > 0 {
      LeadingZerosAddNothing(base, z - 1, []);
      assert s[..|s| - 1] == ZeroBytes(z - 1) + [];
    }
  }

  lemma {:induction false} ValueBelowPower(base: Base, ds: seq<nat>)
    requires AreDigits(base, ds)
    ensures BigEndian(base, ds) < Pow(base.Size(), |ds|)
  {
    if ds != [] {
      ValueBelowPower(base, ds[..|ds| - 1]);
      assert Pow(base.Size(), |ds|) == base.Times(Pow(base.Size(), |ds| - 1));
    }
  }

  lemma {:induction false} ValueReachesPower(base: Base, ds: seq<nat>)
    requires AreDigits(base, ds) && ds != [] && ds[0] > 0
    ensures Pow(base.Size(), |ds| - 1) <= BigEndian(base, ds)
  {
    if |ds| == 1 {
      assert ds[..0] == [];
    } else {
      ValueReachesPower(base, ds[..|ds| - 1]);
      assert Pow(base.Size(), |ds| - 1) == base.Times(Pow(base.Size(), |ds| - 2));
    }
  }

  // ------------------------------------------------------ the specification

  function LeadingZeros(input: seq<Byte>): (z: nat)
    ensures z <= |input|
    ensures forall i :: 0 <= i < z ==> input[i] == 0
    ensures z < |input| ==> input[z] != 0
  {
    if input != [] && input[0] == 0 then 1 + LeadingZeros(input[1..]) else 0
  }

  function Letters(ds: seq<nat>): (s: string)
    requires AreDigits(FiftyEight, ds)
    ensures |s| == |ds| && forall i :: 0 <= i < |s| ==> s[i] == Letter(ds[i])
  {
    seq(|ds|, i requires 0 <= i < |ds| => Letter(ds[i]))
  }

  /** One '1' per leading zero byte, then the canonical base58 digits of the number. */
  function Encoding(input: seq<Byte>): string {
    Ones(LeadingZeros(input)) + Letters(Canonical(FiftyEight, BigEndian(Bytes256, input)))
  }

  function LeadingOnes(s: string): (z: nat)
    ensures z <= |s|
    ensures forall i :: 0 <= i < z ==> s[i] == '1'
    ensures z < |s| ==> s[z] != '1'
  {
    if s != [] && s[0] == '1' then 1 + LeadingOnes(s[1..]) else 0
  }

  predicate IsBase58(s: string) {
    forall i :: 0 <= i < |s| ==> IndexOf(s[i]).Some?
  }

  function DigitsOf(s: string): (ds: seq<nat>)
    requires IsBase58(s)
    ensures |ds| == |s| && AreDigits(FiftyEight, ds)
    ensures forall i :: 0 <= i < |s| ==> Letter(ds[i]) == s[i]
  {
    seq(|s|, i requires 0 <= i < |s| => IndexOf(s[i]).value)
  }

  /** A decoder: leading ones give zero bytes, the rest gives the bytes of its number. */
  function Decode(s: string): Option<seq<Byte>> {
    if !IsBase58(s) then None
    else
      var z := LeadingOnes(s);
      Some(ZeroBytes(z) + AsBytes(Canonical(Bytes256, BigEndian(FiftyEight, DigitsOf(s[z..])))))
  }

  function AsBytes(ds: seq<nat>): (bs: seq<Byte>)
    requires AreDigits(Bytes256, ds)
    ensures |bs| == |ds| && forall i :: 0 <= i < |bs| ==> bs[i] == ds[i]
  {
    seq(|ds|, i requires 0 <= i < |ds| => ds[i])
  }

  // ------------------------------------------------------------ round trips

  lemma SplitLeadingZeros(input: seq<Byte>)
    ensures BigEndian(Bytes256, input[LeadingZeros(input)..]) == BigEndian(Bytes256, input)
    ensures Canonical(Bytes256, BigEndian(Bytes256, input)) == input[LeadingZeros(input)..]
    ensures input == ZeroBytes(LeadingZeros(input)) + input[LeadingZeros(input)..]
  {
    var z := LeadingZeros(input);
    var rest: seq<nat> := input[z..];
    assert input == ZeroBytes(z) + rest;
    LeadingZerosAddNothing(Bytes256, z, rest);
    CanonicalOfValue(Bytes256, rest);
  }

  lemma LettersAreBase58(ds: seq<nat>)
    requires AreDigits(FiftyEight, ds)
    ensures IsBase58(Letters(ds)) && DigitsOf(Letters(ds)) == ds
  {
  }

  lemma {:induction false} LeadingOnesIs(z: nat, t: string)
    requires t != "" ==> t[0] != '1'
    ensures LeadingOnes(Ones(z) + t) == z
  {
    var s := Ones(z) + t;
    if z > 0 {
      assert s[1..] == Ones(z - 1) + t;
      LeadingOnesIs(z - 1, t);
    }
  }

  lemma {:induction false} LeadingZerosIs(z: nat, t: seq<Byte>)
    requires t != [] ==> t[0] != 0
    ensures LeadingZeros(ZeroBytes(z) + t) == z
  {
    var s := ZeroBytes(z) + t;
    if z > 0 {
      assert s[1..] == ZeroBytes(z - 1) + t;
      LeadingZerosIs(z - 1, t);
    }
  }

  /** What the decoder makes of `z` ones and a text that does not start with one. */
  lemma DecodeParts(s: string, z: nat, t: string, bytes: seq<Byte>)
    requires s == Ones(z) + t && IsBase58(t) && (t != "" ==> t[0] != '1')
    requires bytes == AsBytes(Canonical(Bytes256, BigEndian(FiftyEight, DigitsOf(t))))
    ensures Decode(s) == Some(ZeroBytes(z) + bytes)
  {
    LeadingOnesIs(z, t);
    assert s[z..] == t;
    assert IsBase58(s);
  }

  /** The letters of a number denote it, and do not start with a one. */
  lemma LettersDenote(v: nat, t: string)
    requires t == Letters(Canonical(FiftyEight, v))
    ensures IsBase58(t) && (t != "" ==> t[0] != '1')
    ensures BigEndian(FiftyEight, DigitsOf(t)) == v
  {
    LettersAreBase58(Canonical(FiftyEight, v));
    ValueOfCanonical(FiftyEight, v);
  }

  /** The letters of the number decode to the bytes after the leading zeros. */
  lemma LettersDecode(input: seq<Byte>, t: string)
    requires t == Letters(Canonical(FiftyEight, BigEndian(Bytes256, input)))
    ensures IsBase58(t) && (t != "" ==> t[0] != '1')
    ensures AsBytes(Canonical(Bytes256, BigEndian(FiftyEight, DigitsOf(t)))) == input[LeadingZeros(input)..]
  {
    LettersDenote(BigEndian(Bytes256, input), t);
    SplitLeadingZeros(input);
  }

  lemma EncodingText(input: seq<Byte>, t: string)
    requires t == Letters(Canonical(FiftyEight, BigEndian(Bytes256, input)))
    ensures Encoding(input) == Ones(LeadingZeros(input)) + t
  {
  }

  /** Decoding an encoding gives back every byte, leading zeros included. */
  lemma DecodeEncoding(input: seq<Byte>)
    ensures Decode(Encoding(input)) == Some(input)
  {
    var t := Letters(Canonical(FiftyEight, BigEndian(Bytes256, input)));
    LettersDecode(input, t);
    EncodingText(input, t);
    DecodeParts(Encoding(input), LeadingZeros(input), t, input[LeadingZeros(input)..]);
    SplitLeadingZeros(input);
  }

  /** The encoding of `z` zero bytes and bytes that do not start with zero. */
  lemma EncodeParts(z: nat, bytes: seq<Byte>, t: string)
    requires bytes != [] ==> bytes[0] != 0
    requires t == Letters(Canonical(FiftyEight, BigEndian(Bytes256, bytes)))
    ensures Encoding(ZeroBytes(z) + bytes) == Ones(z) + t
  {
    LeadingZerosIs(z, bytes);
    LeadingZerosAddNothing(Bytes256, z, bytes);
  }

  lemma BytesEncode(t: string, bytes: seq<Byte>)
    requires IsBase58(t) && (t != "" ==> t[0] != '1')
    requires bytes == AsBytes(Canonical(Bytes256, BigEndian(FiftyEight, DigitsOf(t))))
    ensures bytes != [] ==> bytes[0] != 0
    ensures t == Letters(Canonical(FiftyEight, BigEndian(Bytes256, bytes)))
  {
    var ds := DigitsOf(t);
    var v := BigEndian(FiftyEight, ds);
    CanonicalOfValue(FiftyEight, ds);
    ValueOfCanonical(Bytes256, v);
    assert bytes == Canonical(Bytes256, v);
    assert Letters(ds) == t;
  }

  /** Encoding a decoding gives back every base58 string: the two are inverse bijections. */
  lemma EncodingDecode(s: string)
    requires IsBase58(s)
    ensures Decode(s).Some? && Encoding(Decode(s).value) == s
  {
    var z := LeadingOnes(s);
    var t := s[z..];
    var bytes := AsBytes(Canonical(Bytes256, BigEndian(FiftyEight, DigitsOf(t))));
    BytesEncode(t, bytes);
    EncodeParts(z, bytes, t);
    assert s == Ones(z) + t;
  }

  /** Two byte strings never share an encoding. */
  lemma EncodingInjective(a: seq<Byte>, b: seq<Byte>)
    requires Encoding(a) == Encoding(b)
    ensures a == b
  {
    DecodeEncoding(a);
    DecodeEncoding(b);
  }

  // ---------------------------------------------------------- length bounds

  /** 256^8 < 58^11, the fact behind the 138/100 capacity factor. */
  lemma EightBytesFitElevenDigits()
    ensures Pow(256, 8) < Pow(58, 11)
  {
    assert Pow(256, 4) == 4294967296;
    PowAdd(256, 4, 4);
    assert Pow(58, 5) == 656356768;
    assert Pow(58, 1) == 58;
    PowAdd(58, 5, 5);
    PowAdd(58, 10, 1);
  }

  /** A number of `m` bytes that reaches 58^k satisfies 8k < 11m. */
  lemma DigitsPerByte(k: nat, v: nat, m: nat)
    requires Pow(58, k) <= v < Pow(256, m)
    ensures 8 * k < 11 * m
  {
    assert m > 0;
    PowStrictBase(Pow(58, k), Pow(256, m), 8);
    PowMul(58, k, 8);
    PowMul(256, m, 8);
    PowMul(256, 8, m);
    assert m * 8 == 8 * m && k * 8 == 8 * k;
    EightBytesFitElevenDigits();
    PowBaseMonotone(Pow(256, 8), Pow(58, 11), m);
    PowMul(58, 11, m);
    PowReflectsLess(58, 8 * k, 11 * m);
  }

  lemma {:induction false} PowStrictBase(a: nat, b: nat, n: nat)
    requires a < b && n > 0
    ensures Pow(a, n) < Pow(b, n)
  {
    if n > 1 {
      PowStrictBase(a, b, n - 1);
      MulMonotone(a, b, Pow(a, n - 1), Pow(a, n - 1));
      assert b * Pow(a, n - 1) < b * Pow(b, n - 1) by {
        MulStrict(b, Pow(a, n - 1), Pow(b, n - 1));
      }
    } else {
      assert Pow(a, 1) == a * Pow(a, 0) == a && Pow(b, 1) == b * Pow(b, 0) == b;
    }
  }

  lemma MulStrict(b: nat, x: nat, y: nat)
    requires b > 0 && x < y
    ensures b * x < b * y
  {
  }

  /** How many base58 digits the number of some bytes has. */
  lemma DigitCount(rest: seq<Byte>, ds: seq<nat>)
    requires (rest != [] ==> rest[0] > 0) && ds == Canonical(FiftyEight, BigEndian(Bytes256, rest))
    ensures |rest| <= |ds| && (ds != [] ==> 8 * (|ds| - 1) < 11 * |rest|)
  {
    var v := BigEndian(Bytes256, rest);
    ValueOfCanonical(FiftyEight, v);
    ValueBelowPower(Bytes256, rest);
    ValueBelowPower(FiftyEight, ds);
    if ds != [] {
      ValueReachesPower(FiftyEight, ds);
      DigitsPerByte(|ds| - 1, v, |rest|);
    }
    if rest != [] {
      ValueReachesPower(Bytes256, rest);
      PowBaseMonotone(58, 256, |rest| - 1);
      PowReflectsLess(58, |rest| - 1, |ds|);
    }
  }

  lemma LengthBounds(z: nat, bytes: nat, digits: nat)
    requires bytes <= digits && (digits > 0 ==> 8 * (digits - 1) < 11 * bytes)
    ensures z + bytes <= z + digits <= (11 * (z + bytes) + 7) / 8
    ensures digits <= (z + bytes) * 138 / 100 + 1
  {
  }

  /**
   * Every input is between one character per byte and 11 characters per 8
   * bytes (rounded up) long; 32 bytes therefore give 32 to 44 characters.
   */
  lemma EncodingLength(input: seq<Byte>)
    ensures |input| <= |Encoding(input)| <= (11 * |input| + 7) / 8
    ensures |input| == 32 ==> 32 <= |Encoding(input)| <= 44
    ensures |Canonical(FiftyEight, BigEndian(Bytes256, input))| <= |input| * 138 / 100 + 1
  {
    var z, ds := LeadingZeros(input), Canonical(FiftyEight, BigEndian(Bytes256, input));
    SplitLeadingZeros(input);
    DigitCount(input[z..], ds);
    LengthBounds(z, |input| - z, |ds|);
    EncodingText(input, Letters(ds));
  }

  // ------------------------------------------------------------ the encoder

  /** The number that little-endian base58 digits denote when `top` stands above them. */
  ghost function LittleEndian(ds: seq<nat>, top: nat): nat {
    if |ds| == 0 then top else ds[0] + 58 * LittleEndian(ds[1..], top)
  }

  function Reversed(ds: seq<nat>): (r: seq<nat>)
    ensures |r| == |ds| && forall i :: 0 <= i < |r| ==> r[i] == ds[|ds| - 1 - i]
  {
    seq(|ds|, i requires 0 <= i < |ds| => ds[|ds| - 1 - i])
  }

  lemma {:induction false} LittleEndianReversed(ds: seq<nat>)
    ensures BigEndian(FiftyEight, Reversed(ds)) == LittleEndian(ds, 0)
  {
    if ds != [] {
      LittleEndianReversed(ds[1..]);
      var r := Reversed(ds);
      assert r[..|r| - 1] == Reversed(ds[1..]);
    }
  }

  lemma {:induction false} LittleEndianSnoc(ds: seq<nat>, d: nat, top: nat)
    ensures LittleEndian(ds + [d], top) == LittleEndian(ds, 58 * top + d)
  {
    var s := ds + [d];
    if ds == [] {
      assert s[1..] == [];
    } else {
      LittleEndianSnoc(ds[1..], d, top);
      assert s[1..] == ds[1..] + [d];
    }
  }

  lemma {:induction false} LittleEndianAtLeast(ds: seq<nat>, top: nat)
    requires top > 0
    ensures Pow(58, |ds|) <= LittleEndian(ds, top)
  {
    if ds != [] {
      LittleEndianAtLeast(ds[1..], top);
    }
  }

  /** While something is left to push, the digit count is still below the reserved capacity. */
  lemma CapacitySuffices(ds: seq<nat>, carry: nat, input: seq<Byte>, i: nat)
    requires i < |input| && carry > 0
    requires LittleEndian(ds, carry) == BigEndian(Bytes256, input[..i + 1])
    ensures |ds| < |input| * 138 / 100 + 1
  {
    ValueBelowPower(Bytes256, input[..i + 1]);
    LittleEndianAtLeast(ds, carry);
    DigitsPerByte(|ds|, BigEndian(Bytes256, input[..i + 1]), i + 1);
  }

  /** One turn of the inner loop: a digit and the carry give a new digit and a new carry. */
  lemma CarryStep(done: seq<nat>, carry: nat, d: nat, rest: nat)
    requires carry < 256 && d < 58
    ensures var c := carry + d * 256;
      LittleEndian(done, carry + 256 * (d + 58 * rest)) == LittleEndian(done + [c % 58], c / 58 + 256 * rest)
      && c % 58 < 58 && c / 58 < 256 && (d > 0 ==> c / 58 > 0)
  {
    var c := carry + d * 256;
    LittleEndianSnoc(done, c % 58, c / 58 + 256 * rest);
  }

  /**
   * The inner loop: multiplies the buffered number by 256 and adds a byte, in
   * place. The carry stays below 256, so the source's u32 never overflows.
   */
  method CarryThrough(digits: array<nat>, len: nat, byte: Byte) returns (carry: nat)
    requires len <= digits.Length && AreDigits(FiftyEight, digits[..len])
    modifies digits
    ensures AreDigits(FiftyEight, digits[..len])
    ensures LittleEndian(digits[..len], carry) == 256 * old(LittleEndian(digits[..len], 0)) + byte
    ensures carry < 256
    ensures len > 0 && old(digits[len - 1]) > 0 ==> carry > 0
  {
    ghost var v := 256 * LittleEndian(digits[..len], 0) + byte;
    carry := byte;
    assert digits[..0] == [] && digits[0..len] == digits[..len];
    for j := 0 to len
      invariant carry < 256
      invariant AreDigits(FiftyEight, digits[..len])
      invariant LittleEndian(digits[..j], carry + 256 * LittleEndian(digits[j..len], 0)) == v
      invariant j < len ==> digits[len - 1] == old(digits[len - 1])
      invariant j == len > 0 && old(digits[len - 1]) > 0 ==> carry > 0
    {
      ghost var done, rest := digits[..j], digits[j + 1..len];
      assert digits[j..len][1..] == rest && digits[..len][j] == digits[j];
      CarryStep(done, carry, digits[j], LittleEndian(rest, 0));
      carry := carry + digits[j] * 256;
      ghost var others := digits[..len];
      digits[j] := carry % 58;
      carry := carry / 58;
      assert digits[..j + 1] == done + [digits[j]] && digits[j + 1..len] == rest;
      assert digits[..len] == others[j := digits[j]];
    }
    assert digits[len..len] == [];
  }

  /** The encoder; its digit buffer has exactly the capacity the source reserves. */
  method Encode(input: seq<Byte>) returns (out: string)
    ensures out == Encoding(input)
  {
    var digits := new nat[|input| * 138 / 100 + 1];
    var len := 0;
    for i := 0 to |input|
      invariant len <= digits.Length
      invariant AreDigits(FiftyEight, digits[..len])
      invariant LittleEndian(digits[..len], 0) == BigEndian(Bytes256, input[..i])
      invariant len > 0 ==> digits[len - 1] > 0
    {
      ghost var v := BigEndian(Bytes256, input[..i + 1]);
      assert input[..i + 1][..i] == input[..i];
      var carry := CarryThrough(digits, len, input[i]);
      while carry > 0
        invariant len <= digits.Length
        invariant AreDigits(FiftyEight, digits[..len])
        invariant LittleEndian(digits[..len], carry) == v
        invariant carry == 0 && len > 0 ==> digits[len - 1] > 0
      {
        ghost var done := digits[..len];
        CapacitySuffices(done, carry, input, i);
        LittleEndianSnoc(done, carry % 58, carry / 58);
        digits[len] := carry % 58;
        len := len + 1;
        carry := carry / 58;
        assert digits[..len] == done + [digits[len - 1]];
      }
    }
    assert input[..|input|] == input;
    var ds := digits[..len];
    LittleEndianReversed(ds);
    CanonicalOfValue(FiftyEight, Reversed(ds));
    out := Ones(LeadingZeros(input)) + Letters(Reversed(ds));
  }
}
