/**
 * How a backfill cuts a ledger range into chunks, ledgers into files, and files
 * into object keys (src/backfill.rs, `split_range`, `file_bounds`, `object_key`).
 */
module LedgerFiles {
  import opened Options
  import opened Numerals

  const U32_MAX := 0xFFFF_FFFF

  type u32 = n: nat | n <= U32_MAX

  datatype Schema = Schema(ledgersPerBatch: u32, batchesPerPartition: u32, compression: string) {
    function PerFile(): (n: nat)
      ensures n >= 1
    {
      if ledgersPerBatch == 0 then 1 else ledgersPerBatch
    }
  }

  function Min(a: nat, b: nat): nat { if a < b then a else b }

  function SaturatingAdd(a: u32, b: nat): u32 { Min(a + b, U32_MAX) }

  // ---------------------------------------------------------- chunking

  type Chunk = (u32, u32)

  /** The chunks of an inclusive range: full ones, then a possibly shorter last one. */
  function Chunks(start: nat, end: u32, size: nat): seq<Chunk>
    requires size >= 1
    decreases if start <= end then end - start + 1 else 0
  {
    if start > end then []
    else [(start, Min(start + size - 1, end))] + Chunks(Min(start + size - 1, end) + 1, end, size)
  }

  ghost predicate InChunk(c: Chunk, ledger: nat) {
    c.0 <= ledger <= c.1
  }

  ghost predicate Covered(cs: seq<Chunk>, ledger: nat) {
    exists i :: 0 <= i < |cs| && InChunk(cs[i], ledger)
  }

  /** The chunks are disjoint, ordered, non-empty, at most `size` long, and cover exactly the range. */
  ghost predicate IsPartition(cs: seq<Chunk>, start: nat, end: u32, size: nat) {
    && (forall i :: 0 <= i < |cs| ==> start <= cs[i].0 <= cs[i].1 <= end && cs[i].1 - cs[i].0 < size)
    && (forall i, j :: 0 <= i < j < |cs| ==> cs[i].1 < cs[j].0)
    && (forall l: nat :: Covered(cs, l) <==> start <= l <= end)
  }

  lemma CoveredCons(c: Chunk, rest: seq<Chunk>, ledger: nat)
    ensures Covered([c] + rest, ledger) <==> InChunk(c, ledger) || Covered(rest, ledger)
  {
    var cs := [c] + rest;
    assert cs[0] == c && forall i :: 0 <= i < |rest| ==> cs[i + 1] == rest[i];
    if Covered(rest, ledger) {
      var i :| 0 <= i < |rest| && InChunk(rest[i], ledger);
      assert InChunk(cs[i + 1], ledger);
    }
    if InChunk(c, ledger) {
      assert InChunk(cs[0], ledger);
    }
  }

  /** A chunk in front of a partition of what follows it. */
  lemma PartitionCons(start: nat, e: u32, rest: seq<Chunk>, end: u32, size: nat)
    requires start <= e <= end && e - start < size && IsPartition(rest, e + 1, end, size)
    ensures IsPartition([(start, e)] + rest, start, end, size)
  {
    forall l: nat ensures Covered([(start, e)] + rest, l) <==> start <= l <= end {
      CoveredCons((start, e), rest, l);
      assert Covered(rest, l) <==> e + 1 <= l <= end;
    }
  }

  lemma {:induction false} ChunksPartition(start: nat, end: u32, size: nat)
    requires size >= 1
    ensures IsPartition(Chunks(start, end, size), start, end, size)
    decreases if start <= end then end - start + 1 else 0
  {
    if start <= end {
      var e := Min(start + size - 1, end);
      ChunksPartition(e + 1, end, size);
      PartitionCons(start, e, Chunks(e + 1, end, size), end, size);
    } else {
      assert Chunks(start, end, size) == [];
    }
  }

  lemma ChunksStep(s: u32, e: u32, end: u32, size: nat)
    requires size >= 1 && s <= end && e == Min(SaturatingAdd(s, size - 1), end)
    ensures s <= e <= end && Chunks(s, end, size) == [(s, e)] + Chunks(e + 1, end, size)
  {
  }

  lemma Shift(out: seq<Chunk>, c: Chunk, todo: seq<Chunk>)
    ensures out + ([c] + todo) == (out + [c]) + todo
  {
  }

  /** `split_range`: stops before `e + 1` could overflow a 32-bit ledger number. */
  method SplitRange(start: u32, end: u32, chunk: u32) returns (out: seq<Chunk>)
    ensures out == Chunks(start, end, if chunk == 0 then 1 else chunk)
    ensures IsPartition(out, start, end, if chunk == 0 then 1 else chunk)
  {
    var size: nat := if chunk == 0 then 1 else chunk;
    ghost var whole := Chunks(start, end, size);
    ghost var todo := whole;
    out := [];
    var s: u32 := start;
    while s <= end
      invariant todo == Chunks(s, end, size) && out + todo == whole
      decreases end - s
    {
      var e: u32 := Min(SaturatingAdd(s, size - 1), end);
      ChunksStep(s, e, end, size);
      Shift(out, (s, e), Chunks(e + 1, end, size));
      todo := Chunks(e + 1, end, size);
      out := out + [(s, e)];
      if e == U32_MAX {
        break;
      }
      s := e + 1;
    }
    assert todo == [] && out == whole;
    ChunksPartition(start, end, size);
  }

  // ------------------------------------------------------------- files

  /** First and last ledger of the file that contains `ledger`. */
  function FileBounds(schema: Schema, ledger: u32): Chunk {
    var start := ledger - ledger % schema.PerFile();
    (start, SaturatingAdd(start, schema.PerFile() - 1))
  }

  lemma MulAtLeast(d: int, b: nat)
    requires d >= 1
    ensures d * b >= b
  {
    assert (d - 1) * b >= 0;
    assert d * b == (d - 1) * b + b;
  }

  lemma DivideUnique(n: nat, b: nat, q: int, r: nat)
    requires r < b && n == q * b + r
    ensures n / b == q && n % b == r
  {
    var q', r' := n / b, n % b;
    assert n == b * q' + r' && b * q' == q' * b;
    assert (q - q') * b == r' - r;
    if q - q' >= 1 {
      MulAtLeast(q - q', b);
    } else if q' - q >= 1 {
      MulAtLeast(q' - q, b);
    }
  }

  /** Files tile the ledgers: a ledger is in its own file, and shares its bounds with all of it. */
  lemma FilesPartitionLedgers(schema: Schema, a: u32, b: u32)
    ensures InChunk(FileBounds(schema, a), a)
    ensures InChunk(FileBounds(schema, a), b) <==> FileBounds(schema, a) == FileBounds(schema, b)
  {
    var per := schema.PerFile();
    var start := a - a % per;
    assert a % per < per;
    if InChunk(FileBounds(schema, a), b) {
      assert start == a / per * per by {
        assert a == per * (a / per) + a % per && per * (a / per) == a / per * per;
      }
      DivideUnique(b, per, a / per, b - start);
    } else {
      assert b - b % per <= b < b - b % per + per;
    }
  }

  // ------------------------------------------------------- object keys

  function Hex8(n: u32): string { Fixed(Sixteen, 8, n, true) }

  lemma Hex8Order(m: u32, n: u32)
    ensures LexLess(Hex8(m), Hex8(n)) == (m < n)
    ensures (Hex8(m) == Hex8(n)) == (m == n)
  {
    assert Range(Sixteen, 4) == 0x1_0000;
    assert Range(Sixteen, 8) == 0x1_0000_0000;
    FixedOrder(Sixteen, 8, m, n, true);
  }

  /** First and last ledger of the partition that contains `ledger`. */
  function PartitionBounds(schema: Schema, ledger: u32): Chunk
    requires schema.batchesPerPartition > 1
  {
    var size := schema.PerFile() * schema.batchesPerPartition;
    MulAtLeast(schema.PerFile(), schema.batchesPerPartition);
    DivideBounds(ledger, size);
    var start := ledger / size * size;
    (start, Min(start + size - 1, U32_MAX))
  }

  lemma DivideBounds(n: nat, b: nat)
    requires b >= 1
    ensures 0 <= n / b * b <= n < n / b * b + b
  {
    assert n == b * (n / b) + n % b && b * (n / b) == n / b * b;
  }

  /** What follows the inverted start in a partition directory. */
  function DirRest(c: Chunk): string { "--" + Decimal(c.0) + "-" + Decimal(c.1) + "/" }

  function DirText(c: Chunk): string { Hex8(U32_MAX - c.0) + DirRest(c) }

  /** What follows the inverted start in a file name. */
  function NameRest(c: Chunk, compression: string): string {
    "--" + Decimal(c.0)
    + (if c.1 != c.0 then "-" + Decimal(c.1) else "")
    + (if compression == "zstd" then ".xdr.zst" else ".xdr")
  }

  function NameText(c: Chunk, compression: string): string { Hex8(U32_MAX - c.0) + NameRest(c, compression) }

  function ObjectKey(schema: Schema, ledger: u32): string {
    (if schema.batchesPerPartition > 1 then DirText(PartitionBounds(schema, ledger)) else "")
    + NameText(FileBounds(schema, ledger), schema.compression)
  }

  lemma LeadingPartDecides(a: string, x: string, b: string, y: string)
    requires |a| == |b| && a != b
    ensures a + x != b + y
    ensures LexLess(a + x, b + y) == LexLess(a, b)
  {
    LexLeadingPartDecides(a, x, b, y);
    assert (a + x)[..|a|] == a && (b + y)[..|b|] == b;
  }

  lemma SharedDirectory(dir: string, x: string, y: string)
    ensures dir + x == dir + y <==> x == y
    ensures LexLess(dir + x, dir + y) <==> LexLess(x, y)
  {
    LexSamePrefix(dir, x, y);
    assert (dir + x)[|dir|..] == x && (dir + y)[|dir|..] == y;
  }

  lemma LeadingPartOfThreeDecides(a: string, m: string, x: string, b: string, n: string, y: string)
    requires |a| == |b| && a != b
    ensures a + m + x != b + n + y
    ensures LexLess(a + m + x, b + n + y) == LexLess(a, b)
  {
    LeadingPartDecides(a, m + x, b, n + y);
    assert a + m + x == a + (m + x) && b + n + y == b + (n + y);
  }

  /** A text that leads with the inverted start `a`. */
  ghost predicate LeadsWith(text: string, a: u32) {
    |text| >= 8 && text[..8] == Hex8(U32_MAX - a)
  }

  /** Such texts compare as the starts do, reversed, whatever follows. */
  lemma LeadsDecide(s: string, a: u32, x: string, t: string, b: u32, y: string)
    requires LeadsWith(s, a) && LeadsWith(t, b) && a != b
    ensures s + x != t + y
    ensures LexLess(s + x, t + y) <==> a > b
  {
    Hex8Order(U32_MAX - a, U32_MAX - b);
    assert s == s[..8] + s[8..] && t == t[..8] + t[8..];
    LeadingPartOfThreeDecides(s[..8], s[8..], x, t[..8], t[8..], y);
  }

  /** A directory and a file name: the directories decide, then the names. */
  lemma KeyTextOrder(da: string, pa: u32, x: string, fa: u32, db: string, pb: u32, y: string, fb: u32)
    requires LeadsWith(da, pa) && LeadsWith(db, pb) && (pa == pb ==> da == db)
    requires LeadsWith(x, fa) && LeadsWith(y, fb) && (fa == fb ==> x == y)
    requires (pa < pb ==> fa < fb) && (pb < pa ==> fb < fa)
    ensures da + x == db + y <==> fa == fb
    ensures LexLess(da + x, db + y) <==> fa > fb
  {
    NameOrder(x, fa, y, fb);
    if pa == pb {
      SharedDirectory(da, x, y);
    } else {
      LeadsDecide(da, pa, x, db, pb, y);
    }
  }

  lemma NameOrder(x: string, fa: u32, y: string, fb: u32)
    requires LeadsWith(x, fa) && LeadsWith(y, fb) && (fa == fb ==> x == y)
    ensures x == y <==> fa == fb
    ensures LexLess(x, y) <==> fa > fb
  {
    assert x + "" == x && y + "" == y;
    if fa == fb {
      LexIrreflexive(x);
    } else {
      LeadsDecide(x, fa, "", y, fb, "");
    }
  }

  lemma DirLeads(c: Chunk)
    ensures LeadsWith(DirText(c), c.0)
  {
  }

  lemma NameLeads(c: Chunk, compression: string)
    ensures LeadsWith(NameText(c, compression), c.0)
  {
  }

  /** Dividing a ledger, or the first ledger of its file, by the partition size gives one quotient. */
  lemma FileInsideItsPartition(ledger: nat, per: nat, batches: nat)
    requires per >= 1 && batches >= 1 && per * batches >= 1
    ensures (ledger - ledger % per) / (per * batches) == ledger / (per * batches)
  {
    var k, r := ledger / per, ledger % per;
    var q, m := k / batches, k % batches;
    DivideParts(ledger, per);
    DivideParts(k, batches);
    ScaledSplit(per, batches, q, m, k);
    DivideUnique(per * k, per * batches, q, per * m);
    DivideUnique(ledger, per * batches, q, per * m + r);
  }

  lemma DivideParts(n: nat, b: nat)
    requires b >= 1
    ensures n == b * (n / b) + n % b && 0 <= n % b < b
  {
  }

  lemma Distribute(a: int, b: int, c: int)
    ensures a * (b + c) == a * b + a * c
  {
  }

  lemma Associate(a: int, b: int, c: int)
    ensures a * (b * c) == c * (a * b)
  {
  }

  lemma ScaledSplit(per: nat, batches: nat, q: nat, m: nat, k: nat)
    requires k == batches * q + m && m < batches
    ensures per * k == q * (per * batches) + per * m
    ensures per * m + per <= per * batches
  {
    Distribute(per, batches * q, m);
    Associate(per, batches, q);
    Distribute(per, batches - m - 1, m + 1);
    Distribute(per, m, 1);
    assert per * (batches - m - 1) >= 0;
  }

  /** One file is never spread over two partitions, and partitions are ordered as their files. */
  lemma PartitionsRespectFiles(schema: Schema, a: u32, b: u32)
    requires schema.batchesPerPartition > 1
    ensures var pa, pb := PartitionBounds(schema, a), PartitionBounds(schema, b);
      var fa, fb := FileBounds(schema, a), FileBounds(schema, b);
      && (fa == fb ==> pa == pb)
      && (pa.0 == pb.0 ==> pa == pb)
      && (pa.0 < pb.0 ==> fa.0 < fb.0)
      && (pb.0 < pa.0 ==> fb.0 < fa.0)
  {
    var per, batches := schema.PerFile(), schema.batchesPerPartition;
    MulAtLeast(per, batches);
    FileInsideItsPartition(a, per, batches);
    FileInsideItsPartition(b, per, batches);
    StartsRespectFiles(a, FileBounds(schema, a).0, b, FileBounds(schema, b).0, per * batches);
  }

  lemma StartsRespectFiles(a: nat, fa: nat, b: nat, fb: nat, size: nat)
    requires size >= 1 && fa / size == a / size && fb / size == b / size
    ensures fa == fb ==> a / size * size == b / size * size
    ensures a / size * size < b / size * size ==> fa < fb
    ensures b / size * size < a / size * size ==> fb < fa
  {
    DivideBounds(fa, size);
    DivideBounds(fb, size);
    QuotientOrder(a / size, b / size, size);
  }

  lemma QuotientOrder(p: nat, q: nat, size: nat)
    requires size >= 1
    ensures p < q ==> p * size + size <= q * size
    ensures q < p ==> q * size + size <= p * size
  {
    if p < q {
      MulAtLeast(q - p, size);
      assert (q - p) * size == q * size - p * size;
    } else if q < p {
      MulAtLeast(p - q, size);
      assert (p - q) * size == p * size - q * size;
    }
  }

  /**
   * Keys are equal exactly for ledgers of one file, and sort lexicographically
   * in reverse of the file order ("newest first"), whatever the schema.
   */
  lemma ObjectKeysSortNewestFirst(schema: Schema, a: u32, b: u32)
    ensures ObjectKey(schema, a) == ObjectKey(schema, b) <==> FileBounds(schema, a) == FileBounds(schema, b)
    ensures LexLess(ObjectKey(schema, a), ObjectKey(schema, b)) <==> FileBounds(schema, a).0 > FileBounds(schema, b).0
  {
    var fa, fb := FileBounds(schema, a), FileBounds(schema, b);
    var x, y := NameText(fa, schema.compression), NameText(fb, schema.compression);
    NameLeads(fa, schema.compression);
    NameLeads(fb, schema.compression);
    if schema.batchesPerPartition > 1 {
      var pa, pb := PartitionBounds(schema, a), PartitionBounds(schema, b);
      PartitionsRespectFiles(schema, a, b);
      DirLeads(pa);
      DirLeads(pb);
      KeyTextOrder(DirText(pa), pa.0, x, fa.0, DirText(pb), pb.0, y, fb.0);
    } else {
      NameOrder(x, fa.0, y, fb.0);
      assert "" + x == x && "" + y == y;
    }
  }

  // ------------------------------------------------------- what keys look like

  /** The block of `size` ledgers, counted from 0, that this one lies in, cut at the last ledger. */
  ghost predicate IsBlock(c: Chunk, ledger: nat, size: nat)
    requires size > 0
  {
    && c.0 % size == 0 && c.0 <= ledger < c.0 + size
    && c.1 == if c.0 + size - 1 > 0xFFFF_FFFF then 0xFFFF_FFFF else c.0 + size - 1
  }

  lemma BlockOf(ledger: u32, size: nat)
    requires size > 0
    ensures ledger / size * size <= ledger < ledger / size * size + size
    ensures ledger / size * size % size == 0 && ledger - ledger % size == ledger / size * size
  {
    DivideBounds(ledger, size);
    assert ledger == size * (ledger / size) + ledger % size && size * (ledger / size) == ledger / size * size;
    DivideUnique(ledger / size * size, size, ledger / size, 0);
  }

  /** Files are blocks of so many ledgers as the schema says, or of one, and partitions of so many files. */
  lemma BoundsAreBlocks(schema: Schema, ledger: u32)
    ensures var per := if schema.ledgersPerBatch == 0 then 1 else schema.ledgersPerBatch;
      && IsBlock(FileBounds(schema, ledger), ledger, per)
      && (schema.batchesPerPartition > 1 ==>
            per * schema.batchesPerPartition > 0
            && IsBlock(PartitionBounds(schema, ledger), ledger, per * schema.batchesPerPartition))
  {
    BlockOf(ledger, schema.PerFile());
    if schema.batchesPerPartition > 1 {
      MulAtLeast(schema.PerFile(), schema.batchesPerPartition);
      BlockOf(ledger, schema.PerFile() * schema.batchesPerPartition);
    }
  }

  /** Eight capital hexadecimal digits of the start, counted down from the last ledger. */
  ghost predicate Inverts(text: string, start: u32) {
    && |text| == 8 && Numeral(Sixteen, text) == Some(0xFFFF_FFFF - start)
    && forall c :: c in text ==> '0' <= c <= '9' || 'A' <= c <= 'F'
  }

  lemma Hex8Inverts(start: u32)
    ensures Inverts(Hex8(U32_MAX - start), start)
  {
    assert Range(Sixteen, 4) == 0x1_0000;
    assert Range(Sixteen, 8) == 0x1_0000_0000;
    FixedReads(Sixteen, 8, U32_MAX - start, true);
    FixedCase(Sixteen, 8, U32_MAX - start, true);
  }

  /** What the bounds in a directory or a file name are written as. */
  ghost predicate SpellsBounds(inverted: string, first: string, last: string, c: Chunk) {
    Inverts(inverted, c.0) && Spells(first, c.0) && Spells(last, c.1)
  }

  lemma BoundsSpelled(c: Chunk)
    ensures SpellsBounds(Hex8(U32_MAX - c.0), Decimal(c.0), Decimal(c.1), c)
  {
    Hex8Inverts(c.0);
    DecimalSpells(c.0);
    DecimalSpells(c.1);
  }

  /** The name of a file: inverted start, start, end unless it is the start, and how it is compressed. */
  ghost predicate NamesFile(name: string, c: Chunk, compression: string) {
    exists inverted: string, first: string, last: string ::
      && SpellsBounds(inverted, first, last, c)
      && name == inverted + "--" + first + (if c.0 == c.1 then "" else "-" + last)
                 + (if compression == "zstd" then ".xdr.zst" else ".xdr")
  }

  /** The name of a partition directory: inverted start, start and end. */
  ghost predicate NamesDirectory(name: string, c: Chunk) {
    exists inverted: string, first: string, last: string ::
      SpellsBounds(inverted, first, last, c) && name == inverted + "--" + first + "-" + last + "/"
  }

  lemma FileNamed(c: Chunk, compression: string)
    ensures NamesFile(NameText(c, compression), c, compression)
  {
    BoundsSpelled(c);
    var inverted, first, last := Hex8(U32_MAX - c.0), Decimal(c.0), Decimal(c.1);
    FileText(c, compression, inverted, first, last);
  }

  lemma FileText(c: Chunk, compression: string, inverted: string, first: string, last: string)
    requires inverted == Hex8(U32_MAX - c.0) && first == Decimal(c.0) && last == Decimal(c.1)
    ensures NameText(c, compression) == inverted + "--" + first + (if c.0 == c.1 then "" else "-" + last)
                 + (if compression == "zstd" then ".xdr.zst" else ".xdr")
  {
  }

  lemma DirectoryNamed(c: Chunk)
    ensures NamesDirectory(DirText(c), c)
  {
    BoundsSpelled(c);
    assert DirText(c) == Hex8(U32_MAX - c.0) + "--" + Decimal(c.0) + "-" + Decimal(c.1) + "/";
  }

  /** A key is the name of the ledger's file, below that of its partition when files are partitioned. */
  lemma ObjectKeyParts(schema: Schema, ledger: u32) returns (dir: string, file: string)
    ensures ObjectKey(schema, ledger) == dir + file
    ensures NamesFile(file, FileBounds(schema, ledger), schema.compression)
    ensures if schema.batchesPerPartition > 1 then NamesDirectory(dir, PartitionBounds(schema, ledger)) else dir == ""
  {
    file := NameText(FileBounds(schema, ledger), schema.compression);
    FileNamed(FileBounds(schema, ledger), schema.compression);
    dir := "";
    if schema.batchesPerPartition > 1 {
      dir := DirText(PartitionBounds(schema, ledger));
      DirectoryNamed(PartitionBounds(schema, ledger));
    }
  }

  // ------------------------------------------------------- where chunks lie

  /** All chunks are full but the last, which ends with the range. */
  ghost predicate ChunkAt(cs: seq<Chunk>, i: nat, start: nat, end: u32, size: nat)
    requires i < |cs|
  {
    cs[i].0 == start + i * size && cs[i].1 == if i + 1 < |cs| then start + i * size + size - 1 else end
  }

  lemma NextMultiple(i: nat, size: nat)
    ensures (i + 1) * size == i * size + size
  {
  }

  lemma {:induction false} ChunksAreFull(start: nat, end: u32, size: nat, i: nat)
    requires size >= 1 && i < |Chunks(start, end, size)|
    ensures ChunkAt(Chunks(start, end, size), i, start, end, size)
    decreases i
  {
    var cs := Chunks(start, end, size);
    var e := Min(start + size - 1, end);
    var rest := Chunks(e + 1, end, size);
    assert cs == [(start, e)] + rest;
    if i == 0 {
      assert rest == [] <==> e == end;
    } else {
      ChunksAreFull(e + 1, end, size, i - 1);
      assert cs[i] == rest[i - 1] && e + 1 == start + size;
      NextMultiple(i - 1, size);
    }
  }
}
