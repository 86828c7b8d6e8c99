/**
 * The unified table of daily solar measurements, the columns the
 * dashboard adds to it in place, the viability score and the three
 * most viable rows.
 */
module Dataset {
  import opened Outcomes
  import opened Sequences
  import opened Regions

  /** A date, compared only by its order (for instance a day number). */
  type Date = int

  /**
   * One row: YEAR, the derived Fecha, LAT, LON, ALLSKY_KT and
   * ALLSKY_SFC_SW_DWN.
   */
  datatype Row = Row(year: int, date: Date, lat: real, lon: real, kt: real, swDwn: real)

  /** The viability score: 0.6 of ALLSKY_SFC_SW_DWN plus 0.4 of ALLSKY_KT. */
  function Viability(r: Row): real {
    r.swDwn * 0.6 + r.kt * 0.4
  }

  /** Higher or equal viability comes first. */
  predicate MoreViable(a: Row, b: Row) {
    Viability(a) >= Viability(b)
  }

  /** The `k` rows of highest viability, best first (`nlargest`). */
  function NLargest(rows: seq<Row>, k: nat): seq<Row> {
    MoreViableTotal();
    SortBy(rows, MoreViable)[..if k < |rows| then k else |rows|]
  }

  /**
   * `nlargest(k)` returns min(k, n) rows of the table, best first, and no
   * row left out scores strictly higher than a row taken.
   */
  lemma NLargestSelects(rows: seq<Row>, k: nat)
    ensures |NLargest(rows, k)| == if k < |rows| then k else |rows|
    ensures multiset(NLargest(rows, k)) <= multiset(rows)
    ensures forall i, j :: 0 <= i < j < |NLargest(rows, k)| ==>
      Viability(NLargest(rows, k)[i]) >= Viability(NLargest(rows, k)[j])
    ensures forall x, y :: x in multiset(rows) - multiset(NLargest(rows, k)) && y in NLargest(rows, k) ==>
      Viability(x) <= Viability(y)
  {
    MoreViableTotal();
    var sorted := SortBy(rows, MoreViable);
    var n := if k < |rows| then k else |rows|;
    PrefixOfSorted(rows, sorted, n, MoreViable);
    var top := NLargest(rows, k);
    assert top == sorted[..n];
    forall i, j | 0 <= i < j < |top| ensures Viability(top[i]) >= Viability(top[j]) {
      assert MoreViable(sorted[i], sorted[j]);
    }
    forall x, y | x in multiset(rows) - multiset(top) && y in top ensures Viability(x) <= Viability(y) {
      assert MoreViable(y, x);
    }
  }

  lemma MoreViableTotal()
    ensures TotalPreorder(MoreViable)
  {
  }

  /** Example: irradiance 5.0 and clearness 0.5 score 3.2. */
  lemma ViabilityExample()
    ensures Viability(Row(2020, 0, 5.0, -74.0, 0.5, 5.0)) == 3.2
  {
  }

  /**
   * The unified table `df_all`. The dashboard adds the `Region` and
   * `Viabilidad` columns to it in place; until added, a column is None.
   */
  class UnifiedTable {
    var rows: seq<Row>
    var region: Option<seq<Region>>
    var viability: Option<seq<real>>

    /** A present column has one entry per row, computed from that row. */
    ghost predicate Valid()
      reads this
    {
      && (region.Some? ==>
            |region.value| == |rows| &&
            forall i :: 0 <= i < |rows| ==> region.value[i] == GetRegion(rows[i].lat, rows[i].lon))
      && (viability.Some? ==>
            |viability.value| == |rows| &&
            forall i :: 0 <= i < |rows| ==> viability.value[i] == Viability(rows[i]))
    }

    constructor (rows: seq<Row>)
      ensures Valid()
      ensures this.rows == rows && region == None && viability == None
    {
      this.rows := rows;
      region := None;
      viability := None;
    }

    /** Adds the `Region` column: each row's region; the rows are unchanged. */
    method AddRegionColumn()
      requires Valid()
      modifies this
      ensures Valid()
      ensures rows == old(rows) && viability == old(viability)
      ensures region.Some? && |region.value| == |rows|
      ensures forall i :: 0 <= i < |rows| ==> region.value[i] == GetRegion(rows[i].lat, rows[i].lon)
    {
      region := Some(seq(|rows|, i requires 0 <= i < |rows| reads this => GetRegion(rows[i].lat, rows[i].lon)));
    }

    /** Adds (or refreshes) the `Viabilidad` column; the rows are unchanged. */
    method AddViabilityColumn()
      requires Valid()
      modifies this
      ensures Valid()
      ensures rows == old(rows) && region == old(region)
      ensures viability.Some? && |viability.value| == |rows|
      ensures forall i :: 0 <= i < |rows| ==> viability.value[i] == 0.6 * rows[i].swDwn + 0.4 * rows[i].kt
    {
      viability := Some(seq(|rows|, i requires 0 <= i < |rows| reads this => Viability(rows[i])));
    }

    /**
     * The detailed analysis: adds the viability column and returns the
     * three most viable rows with their scores.
     */
    method DetailedAnalysis() returns (top3: seq<(Row, real)>)
      requires Valid()
      modifies this
      ensures Valid()
      ensures rows == old(rows) && region == old(region) && viability.Some?
      ensures |top3| == if 3 < |rows| then 3 else |rows|
      ensures forall i :: 0 <= i < |top3| ==> top3[i].0 == NLargest(rows, 3)[i] && top3[i].1 == Viability(top3[i].0)
    {
      AddViabilityColumn();
      var top := NLargest(rows, 3);
      top3 := seq(|top|, i requires 0 <= i < |top| => (top[i], Viability(top[i])));
    }
  }
}
