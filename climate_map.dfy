/**
 * The climate maps (humidity, precipitation, temperature): one circle per
 * row, coloured by a three-tier rule against the column's median and
 * upper quartile, with a legend that states the three tiers.
 */
module ClimateMap {
  import opened Outcomes
  import opened Quantiles
  import opened Markers

  /** One row of a climate table: a location and the mapped column's value. */
  datatype Reading = Reading(lat: real, lon: real, value: real)

  /** The map cannot be drawn: the column has no rows to centre it on. */
  datatype MapError = EmptyColumn

  /** A lower or upper bound on a value, as the legend words it. */
  datatype Condition =
    | AtMost(high: real)              // value <= high
    | Between(low: real, high: real)  // low < value <= high
    | Above(low: real)                // value > low

  datatype LegendEntry = LegendEntry(color: Color, condition: Condition)

  datatype Map = Map(q50: real, q75: real, markers: seq<Marker>, legend: seq<LegendEntry>)

  predicate Holds(c: Condition, v: real) {
    match c
    case AtMost(high) => v <= high
    case Between(low, high) => low < v <= high
    case Above(low) => v > low
  }

  /** The colour of a value: green above q75, else orange above q50, else red. */
  function TierColor(v: real, q50: real, q75: real): Color {
    if v > q75 then Green else if v > q50 then Orange else Red
  }

  /** The legend's three entries, in the order they are drawn. */
  function Legend(q50: real, q75: real): (entries: seq<LegendEntry>)
    ensures |entries| == 3
  {
    [ LegendEntry(Red, AtMost(q50)),
      LegendEntry(Orange, Between(q50, q75)),
      LegendEntry(Green, Above(q75)) ]
  }

  function Values(readings: seq<Reading>): (vs: seq<real>)
    ensures |vs| == |readings|
    ensures forall i :: 0 <= i < |readings| ==> vs[i] == readings[i].value
  {
    seq(|readings|, i requires 0 <= i < |readings| => readings[i].value)
  }

  /**
   * With q50 <= q75 every real satisfies exactly one legend entry, and
   * that entry's colour is the colour the value is drawn in. So the
   * median itself is red, and the upper quartile is orange unless it
   * equals the median.
   */
  lemma LegendAgreesWithTier(v: real, q50: real, q75: real)
    requires q50 <= q75
    ensures exists k :: 0 <= k < 3 && Holds(Legend(q50, q75)[k].condition, v)
    ensures forall k :: 0 <= k < 3 && Holds(Legend(q50, q75)[k].condition, v) ==>
      Legend(q50, q75)[k].color == TierColor(v, q50, q75)
    ensures forall j, k :: 0 <= j < k < 3 ==>
      !(Holds(Legend(q50, q75)[j].condition, v) && Holds(Legend(q50, q75)[k].condition, v))
  {
    var k := if v <= q50 then 0 else if v <= q75 then 1 else 2;
    assert Holds(Legend(q50, q75)[k].condition, v);
  }

  /** The three tiers in closed form, and their boundaries. */
  lemma TierBoundaries(v: real, q50: real, q75: real)
    requires q50 <= q75
    ensures TierColor(v, q50, q75) == Green <==> v > q75
    ensures TierColor(v, q50, q75) == Orange <==> q50 < v <= q75
    ensures TierColor(v, q50, q75) == Red <==> v <= q50
    ensures TierColor(q50, q50, q75) == Red
    ensures q50 < q75 ==> TierColor(q75, q50, q75) == Orange
  {
  }

  /**
   * Builds the climate map of a table: it fails on an empty table, and
   * otherwise emits one marker per row, in row order, at the row's
   * location, with radius a tenth of the value whatever its colour, the
   * tier colour, and a popup carrying the value; the legend follows the
   * same thresholds, which are the column's quantiles with q50 <= q75.
   */
  method CreateClimateMap(readings: seq<Reading>, title: string) returns (result: Result<Map, MapError>)
    ensures readings == [] <==> result == Err(EmptyColumn)
    ensures result.Ok? ==>
      var m := result.value;
      && Quantile(Values(readings), 0.5) == Some(m.q50)
      && Quantile(Values(readings), 0.75) == Some(m.q75)
      && m.q50 <= m.q75
      && m.legend == Legend(m.q50, m.q75)
      && |m.markers| == |readings|
      && forall i :: 0 <= i < |readings| ==>
           var v := readings[i].value;
           && m.markers[i].lat == readings[i].lat
           && m.markers[i].lon == readings[i].lon
           && m.markers[i].radius == Finite(v * 0.1)
           && m.markers[i].popup == ValuePopup(title, v)
           && (m.markers[i].color == Green <==> v > m.q75)
           && (m.markers[i].color == Orange <==> m.q50 < v <= m.q75)
           && (m.markers[i].color == Red <==> v <= m.q50)
  {
    if |readings| == 0 {
      return Err(EmptyColumn);
    }
    var values := Values(readings);
    var q75 := Quantile(values, 0.75).value;
    var q50 := Quantile(values, 0.5).value;
    QuantileMonotone(values, 0.5, 0.75);
    var markers: seq<Marker> := [];
    for i := 0 to |readings|
      invariant |markers| == i
      invariant forall k :: 0 <= k < i ==>
        markers[k] == Marker(readings[k].lat, readings[k].lon, Finite(readings[k].value * 0.1),
                             TierColor(readings[k].value, q50, q75), ValuePopup(title, readings[k].value))
    {
      var valor := readings[i].value;
      var color;
      if valor > q75 {
        color := Green;
      } else if valor > q50 {
        color := Orange;
      } else {
        color := Red;
      }
      markers := markers + [Marker(readings[i].lat, readings[i].lon, Finite(valor * 0.1), color, ValuePopup(title, valor))];
    }
    result := Ok(Map(q50, q75, markers, Legend(q50, q75)));
  }

  /** A column of equal values has q50 == q75, so every row is red. */
  lemma {:induction false} ConstantColumnAllRed(readings: seq<Reading>, c: real)
    requires readings != []
    requires forall i :: 0 <= i < |readings| ==> readings[i].value == c
    ensures Quantile(Values(readings), 0.5) == Quantile(Values(readings), 0.75) == Some(c)
    ensures forall i :: 0 <= i < |readings| ==> TierColor(readings[i].value, c, c) == Red
  {
    QuantileOfConstant(Values(readings), c, 0.5);
    QuantileOfConstant(Values(readings), c, 0.75);
  }

  /**
   * Example: on 0.5, 0.6 and 0.9, q50 is 0.6 and q75 is 0.75, so the rows
   * are red, red and green; 0.6 equals the median and is not above it.
   */
  lemma TierExample()
    ensures var vs := [0.5, 0.6, 0.9];
      Quantile(vs, 0.5) == Some(0.6) && Quantile(vs, 0.75) == Some(0.75) &&
      TierColor(0.5, 0.6, 0.75) == Red &&
      TierColor(0.6, 0.6, 0.75) == Red &&
      TierColor(0.9, 0.6, 0.75) == Green
  {
    QuantileExample();
  }
}
