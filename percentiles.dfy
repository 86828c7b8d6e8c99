/**
 * The Percentiles view: the mean ALLSKY_KT of every location, split by a
 * percentile of the raw ALLSKY_KT column into the locations above it
 * (drawn as fixed-size red circles) and those at or below it (blue
 * circles sized by their share of the largest mean).
 */
module Percentiles {
  import opened Outcomes
  import opened Sequences
  import opened Quantiles
  import opened Markers
  import opened Dataset

  type Location = (real, real)

  /** The mean ALLSKY_KT of one (LAT, LON). */
  datatype LocationMean = LocationMean(lat: real, lon: real, mean: real)

  function LocationOf(r: Row): Location {
    (r.lat, r.lon)
  }

  function Loc(a: LocationMean): Location {
    (a.lat, a.lon)
  }

  /** The order of grouped keys: by latitude, then by longitude. */
  predicate LexLe(a: Location, b: Location) {
    a.0 < b.0 || (a.0 == b.0 && a.1 <= b.1)
  }

  lemma LexLeTotal()
    ensures TotalPreorder(LexLe)
  {
  }

  /** The radio button's choice: "75" selects 0.75, anything else 0.50. */
  function PercentileValue(selection: string): (q: real)
    ensures 0.0 <= q <= 1.0
    ensures q == 0.75 <==> selection == "75"
    ensures q == 0.5 <==> selection != "75"
  {
    if selection == "75" then 0.75 else 0.5
  }

  function KtColumn(rows: seq<Row>): (vs: seq<real>)
    ensures |vs| == |rows|
    ensures forall i :: 0 <= i < |rows| ==> vs[i] == rows[i].kt
  {
    seq(|rows|, i requires 0 <= i < |rows| => rows[i].kt)
  }

  /** The location of every row, in row order. */
  function RowLocations(rows: seq<Row>): (ls: seq<Location>)
    ensures |ls| == |rows|
    ensures forall i :: 0 <= i < |rows| ==> ls[i] == LocationOf(rows[i])
  {
    seq(|rows|, i requires 0 <= i < |rows| => LocationOf(rows[i]))
  }

  /** The distinct locations of the table, in ascending key order. */
  function Locations(rows: seq<Row>): seq<Location> {
    LexLeTotal();
    SortBy(Dedup(RowLocations(rows)), LexLe)
  }

  /** The grouped keys are the table's locations, each once, in key order. */
  lemma LocationsAreKeys(rows: seq<Row>)
    ensures Distinct(Locations(rows))
    ensures SortedBy(Locations(rows), LexLe)
    ensures forall k :: k in Locations(rows) <==> k in RowLocations(rows)
  {
    var keys := Dedup(RowLocations(rows));
    LexLeTotal();
    SortByDistinct(keys, LexLe);
    var ks := SortBy(keys, LexLe);
    assert forall k :: k in ks <==> k in multiset(keys);
  }

  function Sum(s: seq<real>): real {
    if s == [] then 0.0 else s[0] + Sum(s[1..])
  }

  function Mean(s: seq<real>): real
    requires |s| > 0
  {
    Sum(s) / |s| as real
  }

  /** The rows at one location. */
  function Group(rows: seq<Row>, k: Location): seq<Row> {
    Filter(rows, (r: Row) => LocationOf(r) == k)
  }

  /** The mean ALLSKY_KT of the rows at a location the table holds. */
  function GroupMean(rows: seq<Row>, k: Location): real
    requires k in RowLocations(rows)
  {
    var i :| 0 <= i < |rows| && RowLocations(rows)[i] == k;
    FilterSelects(rows, (r: Row) => LocationOf(r) == k);
    assert rows[i] in Group(rows, k);
    Mean(KtColumn(Group(rows, k)))
  }

  /**
   * `groupby(['LAT', 'LON'])['ALLSKY_KT'].mean()`: one entry per distinct
   * location, in key order, holding the mean of that location's values.
   */
  function Averages(rows: seq<Row>): seq<LocationMean> {
    var ks := Locations(rows);
    LocationsAreKeys(rows);
    seq(|ks|, i requires 0 <= i < |ks| => LocationMean(ks[i].0, ks[i].1, GroupMean(rows, ks[i])))
  }

  /** The locations of a sequence of averages. */
  function Locs(avgs: seq<LocationMean>): (ls: seq<Location>)
    ensures |ls| == |avgs|
    ensures forall i :: 0 <= i < |avgs| ==> ls[i] == Loc(avgs[i])
  {
    seq(|avgs|, i requires 0 <= i < |avgs| => Loc(avgs[i]))
  }

  /** No two entries share a location. */
  ghost predicate DistinctLocations(s: seq<LocationMean>) {
    forall i, j :: 0 <= i < j < |s| ==> Loc(s[i]) != Loc(s[j])
  }

  /**
   * The averages hold every location of the table exactly once, and
   * nothing else, in ascending key order; each entry's mean is the mean
   * of the rows at its location.
   */
  lemma AveragesOnePerLocation(rows: seq<Row>)
    ensures DistinctLocations(Averages(rows))
    ensures SortedBy(Locs(Averages(rows)), LexLe)
    ensures forall k :: k in Locs(Averages(rows)) <==> k in RowLocations(rows)
    ensures forall a :: a in Averages(rows) ==> Loc(a) in RowLocations(rows) && a.mean == GroupMean(rows, Loc(a))
  {
    LocationsAreKeys(rows);
    var avgs, ks := Averages(rows), Locations(rows);
    assert Locs(avgs) == ks;
  }

  /** The percentile over the raw column, not over the averages. */
  function Threshold(rows: seq<Row>, q: real): (t: Option<real>)
    requires 0.0 <= q <= 1.0
    ensures t.None? <==> rows == []
  {
    Quantile(KtColumn(rows), q)
  }

  /**
   * The means above the threshold. A missing threshold (the quantile of
   * an empty column is NaN) compares false with everything.
   */
  function AboveThreshold(avgs: seq<LocationMean>, t: Option<real>): seq<LocationMean> {
    match t
    case None => []
    case Some(p) => Filter(avgs, (a: LocationMean) => a.mean > p)
  }

  /** The means at or below the threshold. */
  function AtOrBelowThreshold(avgs: seq<LocationMean>, t: Option<real>): seq<LocationMean> {
    match t
    case None => []
    case Some(p) => Filter(avgs, (a: LocationMean) => a.mean <= p)
  }

  /**
   * Each set keeps the key order of the averages: splitting a
   * concatenation splits each part.
   */
  lemma SplitKeepsOrder(xs: seq<LocationMean>, ys: seq<LocationMean>, p: real)
    ensures AboveThreshold(xs + ys, Some(p)) == AboveThreshold(xs, Some(p)) + AboveThreshold(ys, Some(p))
    ensures AtOrBelowThreshold(xs + ys, Some(p)) == AtOrBelowThreshold(xs, Some(p)) + AtOrBelowThreshold(ys, Some(p))
  {
    FilterConcat(xs, ys, (a: LocationMean) => a.mean > p);
    FilterConcat(xs, ys, (a: LocationMean) => a.mean <= p);
  }

  /** One average lands in exactly the set its comparison picks. */
  lemma SplitSingle(x: LocationMean, p: real)
    ensures AboveThreshold([x], Some(p)) == if x.mean > p then [x] else []
    ensures AtOrBelowThreshold([x], Some(p)) == if x.mean <= p then [x] else []
  {
    FilterSingleton(x, (a: LocationMean) => a.mean > p);
    FilterSingleton(x, (a: LocationMean) => a.mean <= p);
  }

  /**
   * With a threshold, the two sets are disjoint and together hold every
   * average as often as the averages do.
   */
  lemma SplitPartition(avgs: seq<LocationMean>, p: real)
    ensures forall a :: a in AboveThreshold(avgs, Some(p)) ==> a in avgs && a.mean > p
    ensures forall a :: a in AtOrBelowThreshold(avgs, Some(p)) ==> a in avgs && a.mean <= p
    ensures forall a :: !(a in AboveThreshold(avgs, Some(p)) && a in AtOrBelowThreshold(avgs, Some(p)))
    ensures multiset(AboveThreshold(avgs, Some(p))) + multiset(AtOrBelowThreshold(avgs, Some(p))) == multiset(avgs)
  {
    var above, below := AboveThreshold(avgs, Some(p)), AtOrBelowThreshold(avgs, Some(p));
    FilterSelects(avgs, (a: LocationMean) => a.mean > p);
    FilterSelects(avgs, (a: LocationMean) => a.mean <= p);
    forall a ensures (multiset(above) + multiset(below))[a] == multiset(avgs)[a] {
    }
  }

  /** The largest mean. */
  function MaxMean(avgs: seq<LocationMean>): (m: real)
    requires avgs != []
    ensures forall a :: a in avgs ==> a.mean <= m
    ensures exists a :: a in avgs && a.mean == m
  {
    if |avgs| == 1 then avgs[0].mean
    else
      var rest := MaxMean(avgs[1..]);
      assert forall a :: a in avgs ==> a == avgs[0] || a in avgs[1..];
      if avgs[0].mean >= rest then avgs[0].mean else rest
  }

  /** 4 + 10 * mean / max; NaN or an infinity when max is zero. */
  function BelowRadius(mean: real, max: real): Radius {
    if max == 0.0 then NonFinite else Finite(4.0 + (mean / max) * 10.0)
  }

  /** A mean between zero and a positive maximum gives a radius in [4, 14]. */
  lemma BelowRadiusBounds(mean: real, max: real)
    requires 0.0 <= mean <= max && max > 0.0
    ensures BelowRadius(mean, max).Finite?
    ensures 4.0 <= BelowRadius(mean, max).size <= 14.0
  {
    var r := mean / max;
    assert r * max == mean;
    assert r <= 1.0;
    assert 0.0 <= r;
  }

  lemma {:induction false} SumBounds(s: seq<real>, lo: real, hi: real)
    ensures (forall i :: 0 <= i < |s| ==> s[i] >= lo) ==> Sum(s) >= |s| as real * lo
    ensures (forall i :: 0 <= i < |s| ==> s[i] <= hi) ==> Sum(s) <= |s| as real * hi
  {
    if s != [] {
      SumBounds(s[1..], lo, hi);
      assert (|s| - 1) as real * lo + lo == |s| as real * lo;
      assert (|s| - 1) as real * hi + hi == |s| as real * hi;
    }
  }

  /** A mean lies within any bounds that hold for all its values. */
  lemma MeanBounds(s: seq<real>, lo: real, hi: real)
    requires |s| > 0
    ensures (forall i :: 0 <= i < |s| ==> s[i] >= lo) ==> Mean(s) >= lo
    ensures (forall i :: 0 <= i < |s| ==> s[i] <= hi) ==> Mean(s) <= hi
  {
    SumBounds(s, lo, hi);
    var n := |s| as real;
    assert Mean(s) * n == Sum(s);
    if Mean(s) < lo {
      assert Mean(s) * n < lo * n;
    }
    if Mean(s) > hi {
      assert Mean(s) * n > hi * n;
    }
  }

  lemma GroupMeanBounds(rows: seq<Row>, k: Location, lo: real, hi: real)
    requires k in RowLocations(rows)
    ensures (forall i :: 0 <= i < |rows| ==> rows[i].kt >= lo) ==> GroupMean(rows, k) >= lo
    ensures (forall i :: 0 <= i < |rows| ==> rows[i].kt <= hi) ==> GroupMean(rows, k) <= hi
  {
    var group := Group(rows, k);
    var i :| 0 <= i < |rows| && RowLocations(rows)[i] == k;
    FilterSelects(rows, (r: Row) => LocationOf(r) == k);
    assert rows[i] in group;
    var vs := KtColumn(group);
    forall j | 0 <= j < |vs| ensures vs[j] == group[j].kt && group[j] in rows {
    }
    MeanBounds(vs, lo, hi);
  }

  /**
   * Averaging keeps the column's bounds: if every ALLSKY_KT value is at
   * least lo (at most hi), so is every location mean. In particular no
   * mean is negative when no value is.
   */
  lemma AveragesWithinBounds(rows: seq<Row>, lo: real, hi: real)
    ensures (forall i :: 0 <= i < |rows| ==> rows[i].kt >= lo) ==> forall a :: a in Averages(rows) ==> a.mean >= lo
    ensures (forall i :: 0 <= i < |rows| ==> rows[i].kt <= hi) ==> forall a :: a in Averages(rows) ==> a.mean <= hi
  {
    AveragesOnePerLocation(rows);
    forall a | a in Averages(rows)
      ensures (forall i :: 0 <= i < |rows| ==> rows[i].kt >= lo) ==> a.mean >= lo
      ensures (forall i :: 0 <= i < |rows| ==> rows[i].kt <= hi) ==> a.mean <= hi
    {
      GroupMeanBounds(rows, Loc(a), lo, hi);
    }
  }

  /**
   * Locations that are distinct among the averages stay distinct across
   * the two sets: no location is drawn twice.
   */
  lemma SplitLocationsDistinct(avgs: seq<LocationMean>, p: real)
    requires DistinctLocations(avgs)
    ensures DistinctLocations(AboveThreshold(avgs, Some(p)) + AtOrBelowThreshold(avgs, Some(p)))
  {
    var above, below := AboveThreshold(avgs, Some(p)), AtOrBelowThreshold(avgs, Some(p));
    SplitPartition(avgs, p);
    assert Distinct(avgs) by {
      forall i, j | 0 <= i < j < |avgs| ensures avgs[i] != avgs[j] {
        assert Loc(avgs[i]) != Loc(avgs[j]);
      }
    }
    FilterDistinct(avgs, (a: LocationMean) => a.mean > p);
    FilterDistinct(avgs, (a: LocationMean) => a.mean <= p);
    var s := above + below;
    forall i, j | 0 <= i < j < |s| ensures Loc(s[i]) != Loc(s[j]) {
      assert s[i] in avgs && s[j] in avgs by {
        if i < |above| { assert s[i] in above; } else { assert s[i] in below; }
        if j < |above| { assert s[j] in above; } else { assert s[j] in below; }
      }
      var x :| 0 <= x < |avgs| && avgs[x] == s[i];
      var y :| 0 <= y < |avgs| && avgs[y] == s[j];
    }
  }

  /** The two sets are as many as the averages. */
  lemma SplitKeepsCount(avgs: seq<LocationMean>, p: real)
    ensures |AboveThreshold(avgs, Some(p))| + |AtOrBelowThreshold(avgs, Some(p))| == |avgs|
  {
    var above, below := AboveThreshold(avgs, Some(p)), AtOrBelowThreshold(avgs, Some(p));
    SplitPartition(avgs, p);
    assert |multiset(above) + multiset(below)| == |multiset(avgs)|;
  }

  /** Together the two sets hold exactly the locations of the averages. */
  lemma SplitKeepsLocations(avgs: seq<LocationMean>, p: real)
    ensures forall k :: k in Locs(AboveThreshold(avgs, Some(p)) + AtOrBelowThreshold(avgs, Some(p))) <==>
      k in Locs(avgs)
  {
    var s := AboveThreshold(avgs, Some(p)) + AtOrBelowThreshold(avgs, Some(p));
    FilterSelects(avgs, (a: LocationMean) => a.mean > p);
    FilterSelects(avgs, (a: LocationMean) => a.mean <= p);
    assert forall a :: a in s <==> a in avgs;
    forall k | k in Locs(avgs) ensures k in Locs(s) {
      var x :| 0 <= x < |avgs| && Locs(avgs)[x] == k;
      assert avgs[x] in s;
      var i :| 0 <= i < |s| && s[i] == avgs[x];
      assert Locs(s)[i] == k;
    }
    forall k | k in Locs(s) ensures k in Locs(avgs) {
      var i :| 0 <= i < |s| && Locs(s)[i] == k;
      assert s[i] in avgs;
      var x :| 0 <= x < |avgs| && avgs[x] == s[i];
      assert Locs(avgs)[x] == k;
    }
  }

  /** The locations of a sequence of markers. */
  function MarkerLocations(ms: seq<Marker>): (ls: seq<Location>)
    ensures |ls| == |ms|
    ensures forall i :: 0 <= i < |ms| ==> ls[i] == (ms[i].lat, ms[i].lon)
  {
    seq(|ms|, i requires 0 <= i < |ms| => (ms[i].lat, ms[i].lon))
  }

  function AboveMarker(a: LocationMean): Marker {
    Marker(a.lat, a.lon, Finite(8.0), Red, LocationPopup(a.lat, a.lon, a.mean))
  }

  function AtOrBelowMarker(a: LocationMean, max: real): Marker {
    Marker(a.lat, a.lon, BelowRadius(a.mean, max), Blue, LocationPopup(a.lat, a.lon, a.mean))
  }

  /**
   * The view's two drawing loops: first a red marker per average above
   * the threshold, then a blue one per average at or below it, sized
   * against the largest of all averages.
   */
  method EmitMarkers(above: seq<LocationMean>, below: seq<LocationMean>, averages: seq<LocationMean>)
    returns (markers: seq<Marker>)
    requires forall a :: a in below ==> a in averages
    ensures |markers| == |above| + |below|
    ensures forall i :: 0 <= i < |above| ==> markers[i] == AboveMarker(above[i])
    ensures forall i :: 0 <= i < |below| ==>
      averages != [] && markers[|above| + i] == AtOrBelowMarker(below[i], MaxMean(averages))
  {
    markers := [];
    for i := 0 to |above|
      invariant |markers| == i
      invariant forall k :: 0 <= k < i ==> markers[k] == AboveMarker(above[k])
    {
      var row := above[i];
      markers := markers + [Marker(row.lat, row.lon, Finite(8.0), Red, LocationPopup(row.lat, row.lon, row.mean))];
    }
    for i := 0 to |below|
      invariant |markers| == |above| + i
      invariant forall k :: 0 <= k < |above| ==> markers[k] == AboveMarker(above[k])
      invariant forall k :: 0 <= k < i ==> averages != [] && markers[|above| + k] == AtOrBelowMarker(below[k], MaxMean(averages))
    {
      var row := below[i];
      assert row in averages;
      var radius := BelowRadius(row.mean, MaxMean(averages));
      markers := markers + [Marker(row.lat, row.lon, radius, Blue, LocationPopup(row.lat, row.lon, row.mean))];
      assert markers[|above| + i] == AtOrBelowMarker(below[i], MaxMean(averages));
    }
  }

  /** Each marker sits at the location of the average it was drawn for. */
  lemma MarkersAtAverages(above: seq<LocationMean>, below: seq<LocationMean>, max: real, markers: seq<Marker>)
    requires |markers| == |above| + |below|
    requires forall i :: 0 <= i < |above| ==> markers[i] == AboveMarker(above[i])
    requires forall i :: 0 <= i < |below| ==> markers[|above| + i] == AtOrBelowMarker(below[i], max)
    ensures MarkerLocations(markers) == Locs(above + below)
  {
    forall i | 0 <= i < |markers| ensures MarkerLocations(markers)[i] == Locs(above + below)[i] {
      if i >= |above| {
        assert markers[|above| + (i - |above|)] == AtOrBelowMarker(below[i - |above|], max);
      }
    }
  }

  /**
   * Markers drawn from the split of averages with distinct locations are
   * one per average, at pairwise different locations, and at exactly the
   * averages' locations.
   */
  lemma SplitMarkersOnePerLocation(avgs: seq<LocationMean>, p: real, max: real,
                                   above: seq<LocationMean>, below: seq<LocationMean>, markers: seq<Marker>)
    requires DistinctLocations(avgs)
    requires above == AboveThreshold(avgs, Some(p)) && below == AtOrBelowThreshold(avgs, Some(p))
    requires |markers| == |above| + |below|
    requires forall i :: 0 <= i < |above| ==> markers[i] == AboveMarker(above[i])
    requires forall i :: 0 <= i < |below| ==> markers[|above| + i] == AtOrBelowMarker(below[i], max)
    ensures |markers| == |avgs|
    ensures forall i, j :: 0 <= i < j < |markers| ==> MarkerLocations(markers)[i] != MarkerLocations(markers)[j]
    ensures forall k :: k in MarkerLocations(markers) <==> k in Locs(avgs)
  {
    MarkersAtAverages(above, below, max, markers);
    SplitKeepsCount(avgs, p);
    SplitLocationsDistinct(avgs, p);
    SplitKeepsLocations(avgs, p);
    var ls, drawn := MarkerLocations(markers), above + below;
    forall i, j | 0 <= i < j < |markers| ensures ls[i] != ls[j] {
      assert ls[i] == Loc(drawn[i]) && ls[j] == Loc(drawn[j]);
    }
  }

  /**
   * Drawn from the split of the averages, the markers are one per
   * average, at pairwise different locations, and at exactly the
   * locations of the table.
   */
  lemma MarkersOnePerLocation(rows: seq<Row>, q: real, above: seq<LocationMean>, below: seq<LocationMean>, markers: seq<Marker>)
    requires 0.0 <= q <= 1.0
    requires above == AboveThreshold(Averages(rows), Threshold(rows, q))
    requires below == AtOrBelowThreshold(Averages(rows), Threshold(rows, q))
    requires |markers| == |above| + |below|
    requires forall i :: 0 <= i < |above| ==> markers[i] == AboveMarker(above[i])
    requires forall i :: 0 <= i < |below| ==>
      Averages(rows) != [] && markers[|above| + i] == AtOrBelowMarker(below[i], MaxMean(Averages(rows)))
    ensures |markers| == |Averages(rows)|
    ensures forall i, j :: 0 <= i < j < |markers| ==> MarkerLocations(markers)[i] != MarkerLocations(markers)[j]
    ensures forall k :: k in MarkerLocations(markers) <==> k in RowLocations(rows)
  {
    var averages, threshold := Averages(rows), Threshold(rows, q);
    AveragesOnePerLocation(rows);
    if averages == [] {
      assert above == [] && below == [];
    } else {
      SplitMarkersOnePerLocation(averages, threshold.value, MaxMean(averages), above, below, markers);
    }
  }

  /**
   * When no ALLSKY_KT value is negative and the largest mean is positive,
   * every blue marker's radius lies in [4, 14].
   */
  lemma MarkerRadiusBounds(rows: seq<Row>, q: real, above: seq<LocationMean>, below: seq<LocationMean>, markers: seq<Marker>)
    requires 0.0 <= q <= 1.0
    requires below == AtOrBelowThreshold(Averages(rows), Threshold(rows, q))
    requires |markers| == |above| + |below|
    requires forall i :: 0 <= i < |below| ==>
      Averages(rows) != [] && markers[|above| + i] == AtOrBelowMarker(below[i], MaxMean(Averages(rows)))
    requires forall i :: 0 <= i < |rows| ==> rows[i].kt >= 0.0
    requires Averages(rows) != [] && MaxMean(Averages(rows)) > 0.0
    ensures forall i :: |above| <= i < |markers| ==>
      markers[i].radius.Finite? && 4.0 <= markers[i].radius.size <= 14.0
  {
    var averages := Averages(rows);
    AveragesWithinBounds(rows, 0.0, 0.0);
    forall i | |above| <= i < |markers|
      ensures markers[i].radius.Finite? && 4.0 <= markers[i].radius.size <= 14.0
    {
      var a := below[i - |above|];
      assert markers[|above| + (i - |above|)] == AtOrBelowMarker(a, MaxMean(averages));
      assert a in averages by {
        SplitPartition(averages, Threshold(rows, q).value);
      }
      BelowRadiusBounds(a.mean, MaxMean(averages));
    }
  }

  /** Every average at or below the threshold is one of the averages. */
  lemma AtOrBelowInAverages(avgs: seq<LocationMean>, t: Option<real>)
    ensures forall a :: a in AtOrBelowThreshold(avgs, t) ==> a in avgs
  {
    if t.Some? {
      SplitPartition(avgs, t.value);
    }
  }

  /**
   * The Percentiles view. The threshold is the chosen quantile of the raw
   * ALLSKY_KT column; the averages above it are drawn first, as red
   * circles of radius 8, then those at or below it as blue circles of
   * radius 4 + 10 * mean / max. Every location of the table gets exactly
   * one marker; when no value is negative and the largest mean is
   * positive, every blue radius lies in [4, 14].
   */
  method DrawPercentileMap(rows: seq<Row>, selection: string)
    returns (averages: seq<LocationMean>, threshold: Option<real>,
             above: seq<LocationMean>, atOrBelow: seq<LocationMean>, markers: seq<Marker>)
    ensures averages == Averages(rows)
    ensures threshold == Threshold(rows, PercentileValue(selection))
    ensures above == AboveThreshold(averages, threshold)
    ensures atOrBelow == AtOrBelowThreshold(averages, threshold)
    ensures |markers| == |above| + |atOrBelow| == |averages|
    ensures forall i :: 0 <= i < |above| ==> markers[i] == AboveMarker(above[i])
    ensures forall i :: 0 <= i < |atOrBelow| ==>
      averages != [] && markers[|above| + i] == AtOrBelowMarker(atOrBelow[i], MaxMean(averages))
    ensures forall i, j :: 0 <= i < j < |markers| ==>
      MarkerLocations(markers)[i] != MarkerLocations(markers)[j]
    ensures forall k :: k in MarkerLocations(markers) <==> k in RowLocations(rows)
    ensures (forall i :: 0 <= i < |rows| ==> rows[i].kt >= 0.0) && averages != [] && MaxMean(averages) > 0.0 ==>
      forall i :: |above| <= i < |markers| ==>
        markers[i].radius.Finite? && 4.0 <= markers[i].radius.size <= 14.0
  {
    var q := PercentileValue(selection);
    averages := Averages(rows);
    threshold := Threshold(rows, q);
    above := AboveThreshold(averages, threshold);
    atOrBelow := AtOrBelowThreshold(averages, threshold);
    AtOrBelowInAverages(averages, threshold);
    markers := EmitMarkers(above, atOrBelow, averages);
    MarkersOnePerLocation(rows, q, above, atOrBelow, markers);
    if (forall i :: 0 <= i < |rows| ==> rows[i].kt >= 0.0) && averages != [] && MaxMean(averages) > 0.0 {
      MarkerRadiusBounds(rows, q, above, atOrBelow, markers);
    }
  }
}
