/** calculatePercentile, nearest rank, and the duration summary built on it. */
module Percentile {
  import opened Basics
  import opened RealFacts
  import opened Sums
  import opened StableSort

  function Numeric(): (real, real) -> bool {
    (x, y) => x <= y
  }

  function SortedValues(values: seq<real>): (r: seq<real>)
    ensures |r| == |values|
  {
    Sort(Numeric(), values)
  }

  function Ceil(x: real): int {
    -((-x).Floor)
  }

  /** The rank asked for: the least k with k >= n * p. */
  function Rank(n: nat, p: real): int {
    Ceil(n as real * p)
  }

  function Index(n: nat, p: real): (i: nat) {
    if Rank(n, p) >= 1 then Rank(n, p) - 1 else 0
  }

  lemma RankIsInRange(n: nat, p: real)
    requires 0.0 <= p <= 1.0
    ensures 0 <= Rank(n, p) <= n
    ensures n > 0 ==> Index(n, p) < n
  {
    ProductIsBetween(n as real, p);
  }

  lemma ProductIsBetween(x: real, p: real)
    requires 0.0 <= p <= 1.0 && x >= 0.0
    ensures 0.0 <= x * p <= x
  {
  }

  /** calculatePercentile. */
  function PercentileOf(values: seq<real>, p: real): Result<real> {
    if values == [] then Err("empty list")
    else if p < 0.0 || p > 1.0 then Err("percentile must be within 0..1")
    else
      var i := Index(|values|, p);
      Ok(if i < |values| then SortedValues(values)[i] else SortedValues(values)[|values| - 1])
  }

  // ---- Counting --------------------------------------------------------------------------------

  function AtMost(v: real): real -> bool {
    x => x <= v
  }

  function Below(v: real): real -> bool {
    x => x < v
  }

  function Count(p: real -> bool, values: seq<real>): nat {
    |Filter(p, values)|
  }

  lemma NumericIsTotal()
    ensures TotalPreorder(Numeric())
  {
  }

  /** Sorting does not change how many values pass a test. */
  lemma CountIgnoresOrder(p: real -> bool, values: seq<real>)
    ensures Count(p, SortedValues(values)) == Count(p, values)
  {
    NumericIsTotal();
    FilterSort(Numeric(), p, values);
  }

  lemma {:induction false} CountIsBounded(p: real -> bool, q: real -> bool, values: seq<real>)
    requires forall x :: p(x) ==> q(x)
    ensures Count(p, values) <= Count(q, values) <= |values|
  {
    if values != [] {
      CountIsBounded(p, q, values[..|values| - 1]);
    }
  }

  lemma CountsAround(s: seq<real>, i: nat)
    requires Sorted(Numeric(), s) && i < |s|
    ensures Count(AtMost(s[i]), s) >= i + 1
    ensures Count(Below(s[i]), s) <= i
  {
    CountsUpTo(s, i);
    CountsBefore(s, i);
  }

  lemma CountsUpTo(s: seq<real>, i: nat)
    requires Sorted(Numeric(), s) && i < |s|
    ensures Count(AtMost(s[i]), s) >= i + 1
  {
    var v := s[i];
    assert s == s[..i + 1] + s[i + 1..];
    FilterConcat(AtMost(v), s[..i + 1], s[i + 1..]);
    forall x | x in s[..i + 1]
      ensures AtMost(v)(x)
    {
      var j :| 0 <= j < i + 1 && s[j] == x;
      assert j < i ==> Numeric()(s[j], s[i]);
    }
    FilterAll(AtMost(v), s[..i + 1]);
  }

  lemma CountsBefore(s: seq<real>, i: nat)
    requires Sorted(Numeric(), s) && i < |s|
    ensures Count(Below(s[i]), s) <= i
  {
    var v := s[i];
    assert s == s[..i] + s[i..];
    FilterConcat(Below(v), s[..i], s[i..]);
    forall x | x in s[i..]
      ensures !Below(v)(x)
    {
      var j :| i <= j < |s| && s[j] == x;
      assert j > i ==> Numeric()(s[i], s[j]);
    }
    FilterNone(Below(v), s[i..]);
    CountIsBounded(Below(v), Below(v), s[..i]);
  }

  /** v is a value with at least rank values at or below it, and fewer than max(1, rank) below it. */
  ghost predicate HasRank(values: seq<real>, rank: int, v: real) {
    && v in values
    && Count(AtMost(v), values) >= rank
    && Count(Below(v), values) < (if rank >= 1 then rank else 1)
  }

  /** At most one value has a given rank. */
  lemma RankIsUnique(values: seq<real>, rank: int, v: real, w: real)
    requires HasRank(values, rank, v) && HasRank(values, rank, w)
    ensures v == w
  {
    if v < w {
      NotBothRanked(values, rank, v, w);
    } else if w < v {
      NotBothRanked(values, rank, w, v);
    }
  }

  lemma NotBothRanked(values: seq<real>, rank: int, v: real, w: real)
    requires v < w && v in values
    ensures !(HasRank(values, rank, v) && HasRank(values, rank, w))
  {
    CountIsBounded(AtMost(v), Below(w), values);
    FilterMembers(Below(w), values);
    assert v in Filter(Below(w), values);
  }

  /** The percentile is the one value of nearest rank. */
  lemma PercentileHasRank(values: seq<real>, p: real, v: real)
    requires values != [] && 0.0 <= p <= 1.0
    ensures PercentileOf(values, p) == Ok(v) <==> HasRank(values, Rank(|values|, p), v)
  {
    var s, i := SortedValues(values), Index(|values|, p);
    RankIsInRange(|values|, p);
    NumericIsTotal();
    SortFacts(Numeric(), values);
    CountsAround(s, i);
    CountIgnoresOrder(AtMost(s[i]), values);
    CountIgnoresOrder(Below(s[i]), values);
    assert s[i] in s;
    assert HasRank(values, Rank(|values|, p), s[i]);
    if HasRank(values, Rank(|values|, p), v) {
      RankIsUnique(values, Rank(|values|, p), v, s[i]);
    }
  }

  lemma RankIsMonotone(n: nat, p: real, q: real)
    requires 0.0 <= p <= q <= 1.0
    ensures Rank(n, p) <= Rank(n, q)
  {
    ProductIsMonotone(n as real, p, q);
  }

  /** A larger percentile never yields a smaller value. */
  lemma PercentileIsMonotone(values: seq<real>, p: real, q: real)
    requires values != [] && 0.0 <= p <= q <= 1.0
    ensures PercentileOf(values, p).value <= PercentileOf(values, q).value
  {
    var s, n := SortedValues(values), |values|;
    RankIsInRange(n, p);
    RankIsInRange(n, q);
    RankIsMonotone(n, p, q);
    NumericIsTotal();
    SortFacts(Numeric(), values);
    var i, j := Index(n, p), Index(n, q);
    assert i < j ==> Numeric()(s[i], s[j]);
  }

  // ---- The summary -----------------------------------------------------------------------------

  function Least(values: seq<real>): real
    requires values != []
  {
    var last := values[|values| - 1];
    if |values| == 1 then last
    else
      var rest := Least(values[..|values| - 1]);
      if last < rest then last else rest
  }

  function Greatest(values: seq<real>): real
    requires values != []
  {
    var last := values[|values| - 1];
    if |values| == 1 then last
    else
      var rest := Greatest(values[..|values| - 1]);
      if last > rest then last else rest
  }

  lemma {:induction false} ExtremesBound(values: seq<real>)
    requires values != []
    ensures forall v :: v in values ==> Least(values) <= v <= Greatest(values)
  {
    if |values| > 1 {
      ExtremesBound(values[..|values| - 1]);
      assert values == values[..|values| - 1] + [values[|values| - 1]];
    }
  }

  function Mean(values: seq<real>): real
    requires values != []
  {
    SumOf(Itself, values) / |values| as real
  }

  lemma {:induction false} SumIsBetween(values: seq<real>, lo: real, hi: real)
    requires forall v :: v in values ==> lo <= v <= hi
    ensures lo * |values| as real <= SumOf(Itself, values) <= hi * |values| as real
  {
    if values != [] {
      var n := |values| - 1;
      assert values[n] in values && forall v :: v in values[..n] ==> v in values;
      SumIsBetween(values[..n], lo, hi);
      OneMore(lo, n);
      OneMore(hi, n);
    }
  }

  lemma OneMore(x: real, n: nat)
    ensures x * (n + 1) as real == x * n as real + x
  {
  }

  lemma MeanIsBetween(values: seq<real>)
    requires values != []
    ensures Least(values) <= Mean(values) <= Greatest(values)
  {
    ExtremesBound(values);
    SumIsBetween(values, Least(values), Greatest(values));
    QuotientIsBetween(Least(values), SumOf(Itself, values), Greatest(values), |values| as real);
  }

  function Deviation(m: real): real -> real {
    v => v - m
  }

  lemma {:induction false} SumOfDeviations(values: seq<real>, m: real)
    ensures SumOf(Deviation(m), values) == SumOf(Itself, values) - m * |values| as real
  {
    if values != [] {
      SumOfDeviations(values[..|values| - 1], m);
      OneMore(m, |values| - 1);
    }
  }

  /** The mean is where the values balance. */
  lemma MeanBalances(values: seq<real>)
    requires values != []
    ensures SumOf(Deviation(Mean(values)), values) == 0.0
  {
    SumOfDeviations(values, Mean(values));
    QuotientTimes(SumOf(Itself, values), |values| as real);
  }

  lemma {:induction false} ExtremesAreValues(values: seq<real>)
    requires values != []
    ensures Least(values) in values && Greatest(values) in values
  {
    if |values| > 1 {
      ExtremesAreValues(values[..|values| - 1]);
    }
  }

  function RoundToThreeDecimals(x: real): real {
    Round(x * 1000.0) as real / 1000.0
  }

  lemma RoundingKeepsOrder(x: real, y: real)
    requires x <= y
    ensures RoundToThreeDecimals(x) <= RoundToThreeDecimals(y)
  {
    assert (x * 1000.0 + 0.5).Floor <= (y * 1000.0 + 0.5).Floor;
  }

  datatype Summary = Summary(min: real, max: real, mean: real, p50: real, p80: real)

  /** summarizeDurations. */
  function Summarized(values: seq<real>): Result<Summary> {
    if values == [] then Err("empty list")
    else
      var p50 :- PercentileOf(values, 0.5);
      var p80 :- PercentileOf(values, 0.8);
      Ok(Summary(RoundToThreeDecimals(Least(values)), RoundToThreeDecimals(Greatest(values)), RoundToThreeDecimals(Mean(values)),
                 RoundToThreeDecimals(p50), RoundToThreeDecimals(p80)))
  }

  /** The reported figures are in order, even after rounding. */
  lemma SummaryIsOrdered(values: seq<real>)
    requires values != []
    ensures Summarized(values).Ok?
    ensures var s := Summarized(values).value; s.min <= s.p50 <= s.p80 <= s.max && s.min <= s.mean <= s.max
  {
    var p50, p80 := PercentileOf(values, 0.5).value, PercentileOf(values, 0.8).value;
    ExtremesBound(values);
    MeanIsBetween(values);
    PercentileHasRank(values, 0.5, p50);
    PercentileHasRank(values, 0.8, p80);
    PercentileIsMonotone(values, 0.5, 0.8);
    RoundingKeepsOrder(Least(values), p50);
    RoundingKeepsOrder(p50, p80);
    RoundingKeepsOrder(p80, Greatest(values));
    RoundingKeepsOrder(Least(values), Mean(values));
    RoundingKeepsOrder(Mean(values), Greatest(values));
  }

  lemma RoundingToThreeIsClose(x: real)
    ensures RoundToThreeDecimals(x) - 0.0005 <= x < RoundToThreeDecimals(x) + 0.0005
  {
  }

  /** Each reported figure is within half a thousandth of what it is called. */
  lemma SummaryIsAccurate(values: seq<real>)
    requires values != []
    ensures Summarized(values).Ok? && PercentileOf(values, 0.5).Ok? && PercentileOf(values, 0.8).Ok?
    ensures var s := Summarized(values).value;
            && s.min - 0.0005 <= Least(values) < s.min + 0.0005 && s.max - 0.0005 <= Greatest(values) < s.max + 0.0005
            && s.mean - 0.0005 <= Mean(values) < s.mean + 0.0005
            && s.p50 - 0.0005 <= PercentileOf(values, 0.5).value < s.p50 + 0.0005
            && s.p80 - 0.0005 <= PercentileOf(values, 0.8).value < s.p80 + 0.0005
  {
    RoundingToThreeIsClose(Least(values));
    RoundingToThreeIsClose(Greatest(values));
    RoundingToThreeIsClose(Mean(values));
    RoundingToThreeIsClose(PercentileOf(values, 0.5).value);
    RoundingToThreeIsClose(PercentileOf(values, 0.8).value);
  }
}
