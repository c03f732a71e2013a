/**
 * The percentile aggregation of derived metrics (src/derived_metrics.rs), over
 * the reals: the evaluator sorts the series and interpolates between ranks.
 */
module Percentiles {
  import opened Options

  datatype DataPoint = DataPoint(timestamp: int, value: real)

  datatype Error = InvalidPercentile | NoDataPoints

  /** What `percentile_of` comes to; an index past the end is a panic. */
  datatype Outcome = Value(v: real) | NotANumber | Panic

  /** The percentile a metric definition is allowed to carry. */
  function ParsePercentile(percentile: Option<real>): Result<real, Error> {
    if percentile.None? || !(0.0 <= percentile.value <= 100.0) then Err(InvalidPercentile) else Ok(percentile.value)
  }

  // --------------------------------------------------------------- sorting

  function Insert(x: real, s: seq<real>): (r: seq<real>)
    ensures |r| == |s| + 1
  {
    if s == [] || x <= s[0] then [x] + s else [s[0]] + Insert(x, s[1..])
  }

  /** The ascending arrangement that the library sort leaves. */
  function Sorted(s: seq<real>): (r: seq<real>)
    ensures |r| == |s|
  {
    if s == [] then [] else Insert(s[0], Sorted(s[1..]))
  }

  ghost predicate Ascending(s: seq<real>) { forall i, j :: 0 <= i <= j < |s| ==> s[i] <= s[j] }

  lemma AscendingCons(x: real, s: seq<real>)
    requires Ascending(s) && (s != [] ==> x <= s[0])
    ensures Ascending([x] + s)
  {
  }

  lemma {:induction false} InsertSorts(x: real, s: seq<real>)
    requires Ascending(s)
    ensures Ascending(Insert(x, s))
    ensures Insert(x, s)[0] == x || (s != [] && Insert(x, s)[0] == s[0])
  {
    if s == [] || x <= s[0] {
      AscendingCons(x, s);
    } else {
      InsertSorts(x, s[1..]);
      assert s[1..] != [] ==> s[0] <= s[1..][0];
      AscendingCons(s[0], Insert(x, s[1..]));
    }
  }

  lemma {:induction false} InsertAdds(x: real, s: seq<real>)
    ensures multiset(Insert(x, s)) == multiset(s) + multiset{x}
  {
    if s == [] || x <= s[0] {
    } else {
      InsertAdds(x, s[1..]);
      assert s == [s[0]] + s[1..];
    }
  }

  lemma {:induction false} SortedSorts(s: seq<real>)
    ensures Ascending(Sorted(s)) && multiset(Sorted(s)) == multiset(s)
  {
    if s != [] {
      SortedSorts(s[1..]);
      InsertSorts(s[0], Sorted(s[1..]));
      InsertAdds(s[0], Sorted(s[1..]));
      assert s == [s[0]] + s[1..];
    }
  }

  lemma FirstIsLeast(s: seq<real>, x: real)
    requires Ascending(s) && x in multiset(s)
    ensures s != [] && s[0] <= x
  {
    var i :| 0 <= i < |s| && s[i] == x;
  }

  lemma HeadsAgree(s: seq<real>, t: seq<real>)
    requires Ascending(s) && Ascending(t) && multiset(s) == multiset(t) && s != []
    ensures t != [] && s[0] == t[0]
  {
    assert s[0] in multiset(s);
    FirstIsLeast(t, s[0]);
    assert t[0] in multiset(t);
    FirstIsLeast(s, t[0]);
  }

  lemma TailBag(s: seq<real>)
    requires s != []
    ensures multiset(s[1..]) == multiset(s) - multiset{s[0]}
  {
    assert s == [s[0]] + s[1..];
  }

  lemma TailsAgree(s: seq<real>, t: seq<real>)
    requires s != [] && t != [] && s[0] == t[0] && multiset(s) == multiset(t)
    ensures multiset(s[1..]) == multiset(t[1..])
  {
    TailBag(s);
    TailBag(t);
  }

  /** One bag of values has one ascending arrangement. */
  lemma {:induction false} AscendingIsUnique(s: seq<real>, t: seq<real>)
    requires Ascending(s) && Ascending(t) && multiset(s) == multiset(t)
    ensures s == t
  {
    if s == [] {
      assert multiset(t) == multiset{} && |multiset(t)| == |t|;
    } else {
      HeadsAgree(s, t);
      TailsAgree(s, t);
      AscendingIsUnique(s[1..], t[1..]);
      assert s == [s[0]] + s[1..] && t == [t[0]] + t[1..];
    }
  }

  // ----------------------------------------------------------- percentiles

  /** `x.ceil() as usize` and `x.floor() as usize`: negative values saturate at zero. */
  function ToIndex(i: int): nat { if i < 0 then 0 else i }

  function Ceil(x: real): int { if x.Floor as real == x then x.Floor else x.Floor + 1 }

  /** The interpolated element at a fractional rank. */
  function AtRank(sorted: seq<real>, rank: real): Outcome {
    var lower, upper := ToIndex(rank.Floor), ToIndex(Ceil(rank));
    if upper >= |sorted| then Panic
    else if lower == upper then Value(sorted[lower])
    else
      var weight := rank - lower as real;
      Value(sorted[lower] * (1.0 - weight) + sorted[upper] * weight)
  }

  function Rank(p: real, n: nat): real
    requires n > 0
  {
    p / 100.0 * (n - 1) as real
  }

  function PercentileOf(sorted: seq<real>, p: real): Outcome {
    if sorted == [] then NotANumber
    else if |sorted| == 1 then Value(sorted[0])
    else AtRank(sorted, Rank(p, |sorted|))
  }

  function Values(series: seq<DataPoint>): (r: seq<real>)
    ensures |r| == |series| && forall i :: 0 <= i < |r| ==> r[i] == series[i].value
  {
    if series == [] then [] else [series[0].value] + Values(series[1..])
  }

  function Percentile(series: seq<DataPoint>, p: real): Outcome { PercentileOf(Sorted(Values(series)), p) }

  /** The percentile arm of `evaluate`. */
  method Evaluate(series: seq<DataPoint>, p: real) returns (r: Result<Outcome, Error>)
    ensures r == if series == [] then Err(NoDataPoints) else Ok(Percentile(series, p))
    ensures r.Ok? ==> r.value != NotANumber
  {
    if series == [] {
      return Err(NoDataPoints);
    }
    var values: seq<real> := [];
    var i: nat := 0;
    while i < |series|
      invariant i <= |series| && values == Values(series)[..i]
    {
      values := values + [series[i].value];
      i := i + 1;
    }
    assert values == Values(series);
    values := Sorted(values);
    return Ok(PercentileOf(values, p));
  }

  // ------------------------------------------------------------ properties

  lemma NonNeg(x: real, y: real)
    requires x >= 0.0 && y >= 0.0
    ensures x * y >= 0.0
  {
  }

  lemma DistR(a: real, b: real, m: real)
    ensures (a + b) * m == a * m + b * m
  {
  }

  lemma DistL(a: real, u: real, w: real)
    ensures a * (u + w) == a * u + a * w
  {
  }

  lemma Scale(a: real, b: real, m: real)
    requires a <= b && m >= 0.0
    ensures a * m <= b * m
  {
    NonNeg(b - a, m);
    DistR(a, b - a, m);
  }

  lemma RankMonotone(p: real, q: real, n: nat)
    requires n > 0 && p <= q
    ensures Rank(p, n) <= Rank(q, n)
  {
    Scale(p / 100.0, q / 100.0, (n - 1) as real);
  }

  lemma Exceeds(x: real, m: real)
    requires x > 1.0 && m >= 1.0
    ensures x * m > m
  {
    Scale(1.0, m, x - 1.0);
    DistR(1.0, x - 1.0, m);
  }

  lemma ProductBounds(x: real, m: real)
    requires m >= 1.0
    ensures x <= 1.0 <==> x * m <= m
    ensures x >= 0.0 ==> x * m >= 0.0
  {
    if x > 1.0 {
      Exceeds(x, m);
    } else {
      Scale(x, 1.0, m);
    }
    if x >= 0.0 {
      NonNeg(x, m);
    }
  }

  lemma RankBounds(p: real, n: nat)
    requires n > 1
    ensures p <= 100.0 <==> Rank(p, n) <= (n - 1) as real
    ensures p >= 0.0 ==> Rank(p, n) >= 0.0
  {
    ProductBounds(p / 100.0, (n - 1) as real);
  }

  /** The evaluator panics exactly for percentiles above 100 of two points or more. */
  lemma PanicsIffAbove100(series: seq<DataPoint>, p: real)
    requires series != []
    ensures Percentile(series, p) == Panic <==> |series| >= 2 && p > 100.0
  {
    if |series| >= 2 {
      RankBounds(p, |series|);
    }
  }

  /** A metric definition that was accepted always has a value once it has data. */
  lemma AcceptedPercentilesHaveValues(series: seq<DataPoint>, percentile: Option<real>)
    requires series != [] && ParsePercentile(percentile).Ok?
    ensures Percentile(series, ParsePercentile(percentile).value).Value?
  {
    PanicsIffAbove100(series, percentile.value);
  }

  /** A definition is accepted exactly with a percentile from 0 to 100, as given. */
  lemma AcceptedPercentiles(percentile: Option<real>)
    ensures ParsePercentile(percentile)
      == if percentile.Some? && percentile.value >= 0.0 && percentile.value <= 100.0 then Ok(percentile.value)
         else Err(InvalidPercentile)
  {
  }

  lemma AtRankBetween(s: seq<real>, k: nat, w: real)
    requires k + 1 < |s| && 0.0 <= w <= 1.0
    ensures AtRank(s, k as real + w) == Value(s[k] * (1.0 - w) + s[k + 1] * w)
  {
    var rank := k as real + w;
    if w == 1.0 {
      assert rank.Floor == k + 1;
    } else {
      assert rank.Floor == k;
    }
  }

  lemma Affine(a: real, b: real, w: real)
    ensures a * (1.0 - w) + b * w == a + (b - a) * w
  {
    DistL(a, 1.0, -w);
    DistR(b, -a, w);
  }

  lemma InterpolatedAt(s: seq<real>, k: nat, w: real)
    requires k + 1 < |s| && 0.0 <= w <= 1.0
    ensures AtRank(s, k as real + w) == Value(s[k] + (s[k + 1] - s[k]) * w)
  {
    AtRankBetween(s, k, w);
    Affine(s[k], s[k + 1], w);
  }

  /** The percentile whose rank is this. */
  function PercentileAt(rank: real, n: nat): real
    requires n > 1
  {
    100.0 * rank / (n - 1) as real
  }

  lemma RankAt(rank: real, n: nat)
    requires n > 1
    ensures Rank(PercentileAt(rank, n), n) == rank
  {
    var m := (n - 1) as real;
    assert PercentileAt(rank, n) / 100.0 == rank / m;
    assert rank / m * m == rank;
  }

  lemma BetweenRanked(series: seq<DataPoint>, p: real, s: seq<real>, k: nat, w: real)
    requires Ascending(s) && multiset(s) == multiset(Values(series)) && k + 1 < |s|
    requires Rank(p, |s|) == k as real + w && 0.0 <= w <= 1.0
    ensures Percentile(series, p) == Value(s[k] + (s[k + 1] - s[k]) * w)
  {
    SortedIs(series, s);
    RankedOf(s, p, k as real + w);
    InterpolatedAt(s, k, w);
  }

  /**
   * From the percentile 100k/(n-1) to 100(k+1)/(n-1) of n points the value runs straight
   * from the k-th to the next of the points in ascending order.
   */
  lemma Interpolates(series: seq<DataPoint>, s: seq<real>, k: nat, w: real)
    requires Ascending(s) && multiset(s) == multiset(Values(series)) && k + 1 < |s|
    requires 0.0 <= w <= 1.0
    ensures Percentile(series, 100.0 * (k as real + w) / (|s| - 1) as real) == Value(s[k] + (s[k + 1] - s[k]) * w)
  {
    RankAt(k as real + w, |s|);
    BetweenRanked(series, PercentileAt(k as real + w, |s|), s, k, w);
  }

  lemma SortedIs(series: seq<DataPoint>, s: seq<real>)
    requires Ascending(s) && multiset(s) == multiset(Values(series))
    ensures Sorted(Values(series)) == s
  {
    SortedSorts(Values(series));
    AscendingIsUnique(Sorted(Values(series)), s);
  }

  lemma RankedOf(s: seq<real>, p: real, rank: real)
    requires |s| > 1 && Rank(p, |s|) == rank
    ensures PercentileOf(s, p) == AtRank(s, rank)
  {
  }

  /** The order in which points arrive does not matter. */
  lemma PermutationInvariant(s: seq<DataPoint>, t: seq<DataPoint>, p: real)
    requires multiset(Values(s)) == multiset(Values(t))
    ensures Percentile(s, p) == Percentile(t, p)
  {
    SortedSorts(Values(s));
    SortedSorts(Values(t));
    AscendingIsUnique(Sorted(Values(s)), Sorted(Values(t)));
  }

  lemma Mix(a: real, b: real, u: real, w: real)
    requires a <= b && 0.0 <= u && 0.0 <= w
    ensures a * (u + w) <= a * u + b * w <= b * (u + w)
  {
    Scale(a, b, w); Scale(a, b, u); DistL(a, u, w); DistL(b, u, w);
  }

  lemma Between(a: real, b: real, w: real)
    requires a <= b && 0.0 <= w <= 1.0
    ensures a <= a * (1.0 - w) + b * w <= b
  {
    Mix(a, b, 1.0 - w, w);
  }

  /** The value lies between the neighbours of its rank, and is one of them at a whole rank. */
  lemma BetweenNeighbours(sorted: seq<real>, rank: real)
    requires Ascending(sorted) && 0.0 <= rank <= (|sorted| - 1) as real
    ensures AtRank(sorted, rank).Value?
    ensures sorted[rank.Floor] <= AtRank(sorted, rank).v <= sorted[Ceil(rank)]
    ensures rank == rank.Floor as real ==> AtRank(sorted, rank).v == sorted[rank.Floor]
  {
    var lower, upper := rank.Floor, Ceil(rank);
    if lower != upper {
      Between(sorted[lower], sorted[upper], rank - lower as real);
    }
  }

  lemma Weighted(a: real, b: real, v: real)
    ensures a * (1.0 - v) + b * v == a + (b - a) * v
  {
    DistL(a, 1.0 - v, v);
    DistR(a, b - a, v);
  }

  lemma WeightMonotone(a: real, b: real, v: real, w: real)
    requires a <= b && v <= w
    ensures a * (1.0 - v) + b * v <= a * (1.0 - w) + b * w
  {
    Weighted(a, b, v);
    Weighted(a, b, w);
    NonNeg(b - a, w - v);
    DistL(b - a, v, w - v);
  }

  lemma RankedMonotone(sorted: seq<real>, x: real, y: real)
    requires Ascending(sorted) && 0.0 <= x <= y <= (|sorted| - 1) as real
    ensures AtRank(sorted, x).Value? && AtRank(sorted, y).Value?
    ensures AtRank(sorted, x).v <= AtRank(sorted, y).v
  {
    BetweenNeighbours(sorted, x);
    BetweenNeighbours(sorted, y);
    if x.Floor == y.Floor && Ceil(x) == Ceil(y) {
      if Ceil(x) != x.Floor {
        WeightMonotone(sorted[x.Floor], sorted[Ceil(x)], x - x.Floor as real, y - y.Floor as real);
      }
    } else if x.Floor == y.Floor {
      assert x == x.Floor as real;
    } else {
      assert Ceil(x) <= y.Floor;
    }
  }

  /** Below rank zero everything saturates to the first element. */
  lemma NegativeRank(sorted: seq<real>, rank: real)
    requires sorted != [] && rank <= 0.0
    ensures AtRank(sorted, rank) == Value(sorted[0])
  {
  }

  /** A higher percentile is never a smaller value, for every percentile that has one. */
  lemma MonotoneInP(series: seq<DataPoint>, p: real, q: real)
    requires series != [] && p <= q && Percentile(series, q).Value?
    ensures Percentile(series, p).Value? && Percentile(series, p).v <= Percentile(series, q).v
  {
    var sorted := Sorted(Values(series));
    SortedSorts(Values(series));
    if |sorted| > 1 {
      PanicsIffAbove100(series, q);
      RankMonotone(p, q, |sorted|);
      RankBounds(q, |sorted|);
      var x, y := Rank(p, |sorted|), Rank(q, |sorted|);
      if x <= 0.0 {
        NegativeRank(sorted, x);
      }
      if y <= 0.0 {
        NegativeRank(sorted, y);
      } else {
        RankedMonotone(sorted, if x <= 0.0 then 0.0 else x, y);
        NegativeRank(sorted, 0.0);
      }
    }
  }

  ghost predicate IsMinimum(v: real, s: seq<real>) { v in s && forall x :: x in s ==> v <= x }

  ghost predicate IsMaximum(v: real, s: seq<real>) { v in s && forall x :: x in s ==> x <= v }

  lemma EndsOfSorted(s: seq<real>)
    requires s != []
    ensures IsMinimum(Sorted(s)[0], s) && IsMaximum(Sorted(s)[|s| - 1], s)
  {
    var sorted := Sorted(s);
    SortedSorts(s);
    assert sorted[0] in multiset(sorted) && sorted[|s| - 1] in multiset(sorted);
    forall x | x in s ensures sorted[0] <= x <= sorted[|s| - 1] {
      assert x in multiset(sorted);
    }
  }

  /** The zeroth percentile is the minimum and the hundredth the maximum. */
  lemma Extremes(series: seq<DataPoint>)
    requires series != []
    ensures Percentile(series, 0.0).Value? && IsMinimum(Percentile(series, 0.0).v, Values(series))
    ensures Percentile(series, 100.0).Value? && IsMaximum(Percentile(series, 100.0).v, Values(series))
  {
    EndsOfSorted(Values(series));
    var sorted := Sorted(Values(series));
    SortedSorts(Values(series));
    if |sorted| > 1 {
      BetweenNeighbours(sorted, 0.0);
      BetweenNeighbours(sorted, (|sorted| - 1) as real);
    }
  }

  /** Every percentile lies between the two order statistics next to its rank. */
  lemma BetweenRanks(series: seq<DataPoint>, p: real)
    requires |series| > 1 && 0.0 <= p <= 100.0
    ensures var sorted, rank := Sorted(Values(series)), Rank(p, |series|);
      0 <= rank.Floor <= Ceil(rank) < |sorted|
      && Percentile(series, p).Value?
      && sorted[rank.Floor] <= Percentile(series, p).v <= sorted[Ceil(rank)]
  {
    SortedSorts(Values(series));
    RankBounds(p, |series|);
    BetweenNeighbours(Sorted(Values(series)), Rank(p, |series|));
  }

  // ------------------------------------------------- monotone in the series

  ghost predicate Below(s: seq<real>, t: seq<real>) { |s| == |t| && forall i :: 0 <= i < |s| ==> s[i] <= t[i] }

  lemma {:induction false} InsertBelow(x: real, s: seq<real>, y: real, t: seq<real>)
    requires x <= y && Ascending(s) && Ascending(t) && Below(s, t)
    ensures Below(Insert(x, s), Insert(y, t))
    decreases |s|
  {
    if s != [] {
      if x <= s[0] && y > t[0] {
        InsertBelow(s[0], s[1..], y, t[1..]);
        assert Insert(x, s) == [x] + s && (s[1..] == [] || s[0] <= s[1..][0]);
        assert Insert(s[0], s[1..]) == s;
      } else if x > s[0] && y <= t[0] {
        InsertBelow(x, s[1..], t[0], t[1..]);
        assert (t[1..] == [] || t[0] <= t[1..][0]);
        assert Insert(t[0], t[1..]) == t;
      } else if x > s[0] {
        InsertBelow(x, s[1..], y, t[1..]);
      }
    }
  }

  lemma {:induction false} SortedBelow(s: seq<real>, t: seq<real>)
    requires Below(s, t)
    ensures Below(Sorted(s), Sorted(t))
  {
    if s != [] {
      SortedBelow(s[1..], t[1..]);
      SortedSorts(s[1..]);
      SortedSorts(t[1..]);
      InsertBelow(s[0], Sorted(s[1..]), t[0], Sorted(t[1..]));
    }
  }

  lemma MixBelow(a: real, b: real, c: real, d: real, u: real, w: real)
    requires a <= c && b <= d && 0.0 <= u && 0.0 <= w
    ensures a * u + b * w <= c * u + d * w
  {
    Scale(a, c, u);
    Scale(b, d, w);
  }

  lemma RankedBelow(s: seq<real>, t: seq<real>, rank: real)
    requires Below(s, t) && AtRank(s, rank).Value?
    ensures AtRank(t, rank).Value? && AtRank(s, rank).v <= AtRank(t, rank).v
  {
    var lower, upper := ToIndex(rank.Floor), ToIndex(Ceil(rank));
    if lower != upper {
      var weight := rank - lower as real;
      MixBelow(s[lower], s[upper], t[lower], t[upper], 1.0 - weight, weight);
    }
  }

  /** Raising points of a series never lowers any percentile of it. */
  lemma MonotoneInSeries(s: seq<DataPoint>, t: seq<DataPoint>, p: real)
    requires Below(Values(s), Values(t)) && Percentile(s, p).Value?
    ensures Percentile(t, p).Value? && Percentile(s, p).v <= Percentile(t, p).v
  {
    SortedBelow(Values(s), Values(t));
    if |s| > 1 {
      RankedBelow(Sorted(Values(s)), Sorted(Values(t)), Rank(p, |s|));
    }
  }
}
