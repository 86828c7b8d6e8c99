/**
 * The rows the visualisation view plots: the selected year, then the
 * selected closed date range (only once both ends are chosen), then the
 * selected location, each a boolean-mask selection of the one before.
 */
module Visualization {
  import opened Sequences
  import opened Dataset

  function ByYear(rows: seq<Row>, year: int): seq<Row> {
    Filter(rows, (r: Row) => r.year == year)
  }

  /** The date widget returns one date while a range is being picked. */
  function ByDateRange(rows: seq<Row>, dates: seq<Date>): seq<Row> {
    if |dates| == 2 then
      var start, end := dates[0], dates[1];
      Filter(rows, (r: Row) => start <= r.date <= end)
    else rows
  }

  function ByLocation(rows: seq<Row>, lat: real, lon: real): seq<Row> {
    Filter(rows, (r: Row) => r.lat == lat && r.lon == lon)
  }

  function SelectedRows(rows: seq<Row>, year: int, dates: seq<Date>, lat: real, lon: real): seq<Row> {
    ByLocation(ByDateRange(ByYear(rows, year), dates), lat, lon)
  }

  /** The conditions a row must meet to be plotted. */
  predicate Selected(r: Row, year: int, dates: seq<Date>, lat: real, lon: real) {
    && r.year == year
    && (|dates| == 2 ==> dates[0] <= r.date <= dates[1])
    && r.lat == lat && r.lon == lon
  }

  /**
   * The plotted rows are exactly the table's rows that meet every
   * condition, each as often as in the table and unchanged; no other row
   * is plotted.
   */
  lemma SelectedRowsExact(rows: seq<Row>, year: int, dates: seq<Date>, lat: real, lon: real)
    ensures forall x :: x in SelectedRows(rows, year, dates, lat, lon) <==>
      x in rows && Selected(x, year, dates, lat, lon)
    ensures forall x ::
      multiset(SelectedRows(rows, year, dates, lat, lon))[x] ==
      (if Selected(x, year, dates, lat, lon) then multiset(rows)[x] else 0)
    ensures |SelectedRows(rows, year, dates, lat, lon)| <= |rows|
  {
    var a := ByYear(rows, year);
    FilterSelects(rows, (r: Row) => r.year == year);
    var b := ByDateRange(a, dates);
    if |dates| == 2 {
      var start, end := dates[0], dates[1];
      FilterSelects(a, (r: Row) => start <= r.date <= end);
    }
    FilterSelects(b, (r: Row) => r.lat == lat && r.lon == lon);
    forall x: Row ensures multiset(b)[x] == if x.year == year && (|dates| == 2 ==> dates[0] <= x.date <= dates[1]) then multiset(rows)[x] else 0 {
    }
  }

  /**
   * The plotted rows keep the table's order: selecting from two tables
   * one after the other gives the selection from the first followed by
   * the selection from the second.
   */
  lemma SelectedRowsInOrder(a: seq<Row>, b: seq<Row>, year: int, dates: seq<Date>, lat: real, lon: real)
    ensures SelectedRows(a + b, year, dates, lat, lon) ==
      SelectedRows(a, year, dates, lat, lon) + SelectedRows(b, year, dates, lat, lon)
  {
    FilterConcat(a, b, (r: Row) => r.year == year);
    var ya, yb := ByYear(a, year), ByYear(b, year);
    if |dates| == 2 {
      var start, end := dates[0], dates[1];
      FilterConcat(ya, yb, (r: Row) => start <= r.date <= end);
    }
    FilterConcat(ByDateRange(ya, dates), ByDateRange(yb, dates), (r: Row) => r.lat == lat && r.lon == lon);
  }
}
