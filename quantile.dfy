/**
 * The quantile of a numeric column as the table library computes it by
 * default: linear interpolation between order statistics (Hyndman and
 * Fan's definition 7). With the values sorted into s[0] <= ... <= s[n-1],
 * the rank of fraction q is h = (n - 1) * q, and the quantile lies on the
 * segment from s[floor(h)] to the next order statistic.
 */
module Quantiles {
  import opened Outcomes
  import opened Sequences

  predicate RealLe(a: real, b: real) { a <= b }

  /** The column sorted into ascending order. */
  function Ascending(values: seq<real>): (s: seq<real>)
    ensures |s| == |values| && multiset(s) == multiset(values)
    ensures forall i, j :: 0 <= i <= j < |s| ==> s[i] <= s[j]
  {
    assert TotalPreorder(RealLe);
    var s := SortBy(values, RealLe);
    assert forall i, j :: 0 <= i < j < |s| ==> RealLe(s[i], s[j]);
    s
  }

  /** The interpolation rank (n - 1) * q, as a real in [0, n - 1]. */
  function Rank(n: nat, q: real): (h: real)
    requires n > 0 && 0.0 <= q <= 1.0
    ensures 0.0 <= h <= (n - 1) as real
  {
    assert 0.0 <= (n - 1) as real * q <= (n - 1) as real * 1.0;
    (n - 1) as real * q
  }

  /** The order statistic below the rank: floor(h). */
  function Lower(n: nat, q: real): (lo: nat)
    requires n > 0 && 0.0 <= q <= 1.0
    ensures lo < n
  {
    Rank(n, q).Floor
  }

  /** The order statistic above the rank, clipped to the last one. */
  function Upper(n: nat, q: real): (hi: nat)
    requires n > 0 && 0.0 <= q <= 1.0
    ensures Lower(n, q) <= hi < n
    ensures hi == Lower(n, q) || hi == Lower(n, q) + 1
  {
    if Lower(n, q) + 1 < n then Lower(n, q) + 1 else Lower(n, q)
  }

  /** The point a fraction t of the way from a to b. */
  function Lerp(a: real, b: real, t: real): real {
    a + t * (b - a)
  }

  /** Linear interpolation on a sorted, non-empty sequence. */
  function Interpolate(s: seq<real>, q: real): real
    requires |s| > 0 && 0.0 <= q <= 1.0
  {
    var lo := Lower(|s|, q);
    Lerp(s[lo], s[Upper(|s|, q)], Rank(|s|, q) - lo as real)
  }

  /**
   * The q-quantile of a column. An empty column has none; otherwise the
   * quantile is bounded by two neighbouring order statistics, hence by
   * two of the column's own values.
   */
  function Quantile(values: seq<real>, q: real): (r: Option<real>)
    requires 0.0 <= q <= 1.0
    ensures r.None? <==> values == []
    ensures r.Some? ==>
      var s := Ascending(values);
      s[Lower(|s|, q)] <= r.value <= s[Upper(|s|, q)]
  {
    if values == [] then None
    else
      var s := Ascending(values);
      InterpolateBetween(s, q);
      Some(Interpolate(s, q))
  }

  lemma FloorBounds(h: real)
    ensures h.Floor as real <= h < h.Floor as real + 1.0
  {
  }

  lemma LerpBetween(a: real, b: real, t: real)
    requires a <= b && 0.0 <= t <= 1.0
    ensures a <= Lerp(a, b, t) <= b
  {
    MulNonNegative(t, b - a);
    MulNonNegative(1.0 - t, b - a);
    assert (1.0 - t) * (b - a) == (b - a) - t * (b - a);
  }

  lemma MulNonNegative(x: real, y: real)
    requires x >= 0.0 && y >= 0.0
    ensures x * y >= 0.0
  {
  }

  lemma LerpMonotone(a: real, b: real, t1: real, t2: real)
    requires a <= b && t1 <= t2
    ensures Lerp(a, b, t1) <= Lerp(a, b, t2)
  {
    MulNonNegative(t2 - t1, b - a);
    assert (t2 - t1) * (b - a) == t2 * (b - a) - t1 * (b - a);
  }

  lemma RankMonotone(n: nat, q1: real, q2: real)
    requires n > 0 && 0.0 <= q1 <= q2 <= 1.0
    ensures Rank(n, q1) <= Rank(n, q2)
    ensures Lower(n, q1) <= Lower(n, q2)
  {
    var m := (n - 1) as real;
    MulNonNegative(m, q2 - q1);
    assert m * (q2 - q1) == m * q2 - m * q1;
    FloorBounds(Rank(n, q1));
    FloorBounds(Rank(n, q2));
  }

  lemma InterpolateBetween(s: seq<real>, q: real)
    requires |s| > 0 && 0.0 <= q <= 1.0
    requires forall i, j :: 0 <= i <= j < |s| ==> s[i] <= s[j]
    ensures s[Lower(|s|, q)] <= Interpolate(s, q) <= s[Upper(|s|, q)]
  {
    var lo, hi := Lower(|s|, q), Upper(|s|, q);
    FloorBounds(Rank(|s|, q));
    LerpBetween(s[lo], s[hi], Rank(|s|, q) - lo as real);
  }

  /** The quantile lies between the smallest and the largest value. */
  lemma {:induction false} QuantileWithinRange(values: seq<real>, q: real)
    requires values != [] && 0.0 <= q <= 1.0
    ensures exists i :: 0 <= i < |values| && values[i] <= Quantile(values, q).value
    ensures exists j :: 0 <= j < |values| && Quantile(values, q).value <= values[j]
  {
    var s := Ascending(values);
    var lo, hi := Lower(|s|, q), Upper(|s|, q);
    assert s[lo] in multiset(values) && s[hi] in multiset(values);
    var i :| 0 <= i < |values| && values[i] == s[lo];
    var j :| 0 <= j < |values| && values[j] == s[hi];
  }

  /** The quantile is monotone in q; in particular q50 <= q75. */
  lemma {:induction false} QuantileMonotone(values: seq<real>, q1: real, q2: real)
    requires values != [] && 0.0 <= q1 <= q2 <= 1.0
    ensures Quantile(values, q1).value <= Quantile(values, q2).value
  {
    var s := Ascending(values);
    var n := |s|;
    RankMonotone(n, q1, q2);
    var lo1, lo2 := Lower(n, q1), Lower(n, q2);
    if lo1 == lo2 {
      LerpMonotone(s[lo1], s[Upper(n, q1)], Rank(n, q1) - lo1 as real, Rank(n, q2) - lo1 as real);
    } else {
      InterpolateBetween(s, q1);
      InterpolateBetween(s, q2);
      assert Upper(n, q1) <= lo2;
    }
  }

  /** A column of one repeated value has that value as every quantile. */
  lemma {:induction false} QuantileOfConstant(values: seq<real>, c: real, q: real)
    requires values != [] && 0.0 <= q <= 1.0
    requires forall i :: 0 <= i < |values| ==> values[i] == c
    ensures Quantile(values, q) == Some(c)
  {
    var s := Ascending(values);
    var lo, hi := Lower(|s|, q), Upper(|s|, q);
    assert s[lo] in multiset(values) && s[hi] in multiset(values);
  }

  /** Example: [0.5, 0.6, 0.9] has median 0.6 and q75 0.75. */
  lemma QuantileExample()
    ensures Quantile([0.5, 0.6, 0.9], 0.5) == Some(0.6)
    ensures Quantile([0.5, 0.6, 0.9], 0.75) == Some(0.75)
  {
    ExampleMedian();
    ExampleUpperQuartile();
  }

  /** The rank of the median of three values is exactly 1. */
  lemma ExampleMedian()
    ensures Quantile([0.5, 0.6, 0.9], 0.5) == Some(0.6)
  {
    ExampleAscending();
    assert (1.0).Floor == 1;
    assert Rank(3, 0.5) == 1.0 && Lower(3, 0.5) == 1 && Upper(3, 0.5) == 2;
    assert Interpolate([0.5, 0.6, 0.9], 0.5) == Lerp(0.6, 0.9, 0.0) == 0.6;
  }

  /** The upper quartile of three values lies halfway between the last two. */
  lemma ExampleUpperQuartile()
    ensures Quantile([0.5, 0.6, 0.9], 0.75) == Some(0.75)
  {
    ExampleAscending();
    assert (1.5).Floor == 1;
    assert Rank(3, 0.75) == 1.5 && Lower(3, 0.75) == 1 && Upper(3, 0.75) == 2;
    assert Interpolate([0.5, 0.6, 0.9], 0.75) == Lerp(0.6, 0.9, 0.5) == 0.75;
  }

  /** The example column is already in ascending order. */
  lemma ExampleAscending()
    ensures Ascending([0.5, 0.6, 0.9]) == [0.5, 0.6, 0.9]
  {
    ExamplePrefixAscending();
    assert [0.5, 0.6, 0.9][..2] == [0.5, 0.6];
    assert Insert([0.6], 0.9, RealLe) == [0.6, 0.9];
    assert Insert([0.5, 0.6], 0.9, RealLe) == [0.5, 0.6, 0.9];
  }

  /** The first two values of the example are in ascending order. */
  lemma ExamplePrefixAscending()
    ensures SortBy([0.5, 0.6], RealLe) == [0.5, 0.6]
  {
    assert [0.5, 0.6][..1] == [0.5];
    assert SortBy([0.5], RealLe) == [0.5];
    assert Insert([0.5], 0.6, RealLe) == [0.5, 0.6];
  }
}
