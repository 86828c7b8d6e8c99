# Proyecto Solaris: classification and selection rules

A Dafny model of the rules inside the Proyecto Solaris dashboard. The dashboard explores NASA POWER style
climate tables over Colombia to find candidate sites for solar farms. Its one source file mixes these rules
with Streamlit, pandas, folium and plotly calls. The model keeps the rules and proves what they promise.
All measurements are exact `real`s.

- **Quantiles** (`quantile.dfy`): pandas' default `Series.quantile`. The values are sorted, the rank is
  h = (n - 1) * q, and the result interpolates linearly between the order statistics at floor(h) and the
  next one, clipped to the last. An empty column has no quantile (`None`). The sort is a stable insertion
  sort (`sequences.dfy`), proved to be ordered and a permutation of its input.
- **Climate maps** (`climate_map.dfy`): `crear_mapa_clima`. It works out q50 and q75 of the column and
  gives each row green above q75, else orange above q50, else red. It emits one circle per row, with
  radius value * 0.1, and builds a three-entry legend. An empty table is an error, because the source's
  `idxmax` has no row to centre the map on.
- **Regions** (`regions.dfy`): `get_region`, a first-match rule giving Caribe, Sur, Pacífico or Andina.
- **Unified table** (`dataset.dfy`): `df_all` as a class. Its `Region` and `Viabilidad` columns are added
  in place. The viability score is 0.6 * ALLSKY_SFC_SW_DWN + 0.4 * ALLSKY_KT, and `nlargest(3)` picks the
  three best rows.
- **Visualisation filters** (`visualization.dfy`): rows of one year, then of a closed date range (only when
  the date widget returned two dates), then of one exact latitude and longitude.
- **Percentiles view** (`percentiles.dfy`): the mean ALLSKY_KT per (LAT, LON), in the ascending key order
  of `groupby`. The threshold is the chosen quantile of the raw, unaggregated column. Means above it get a
  red circle of radius 8; means at or below it get a blue circle of radius 4 + 10 * mean / max mean.
  Dividing by a largest mean of zero gives NaN or an infinity in floating point; the model calls that
  radius `NonFinite`.

The widget choices (year, dates, latitude, longitude, percentile radio button, map title) are parameters.
Markers are plain records of location, radius, colour and popup content.

## Model

| member | source | states |
|---|---|---|
| `Quantiles.Quantile` | dashboard_code.py:65-66 | no quantile exactly when the column is empty; otherwise the value lies between the order statistics at floor((n-1)q) and the next one |
| `Quantiles.QuantileMonotone` | dashboard_code.py:65-66 | the quantile is monotone in q, so q50 <= q75 on every non-empty column |
| `Quantiles.QuantileWithinRange` | dashboard_code.py:65-66 | the quantile is at least one of the column's values and at most another |
| `Quantiles.QuantileOfConstant` | dashboard_code.py:65-66 | a column of one repeated value has that value as every quantile |
| `Quantiles.QuantileExample` | dashboard_code.py:272 | [0.5, 0.6, 0.9] has median 0.6 and upper quartile 0.75 |
| `Quantiles.ExampleMedian` | dashboard_code.py:272 | the median of [0.5, 0.6, 0.9] sits exactly on the middle value: rank 1, weight 0 |
| `Quantiles.ExampleUpperQuartile` | dashboard_code.py:272 | the upper quartile of [0.5, 0.6, 0.9] lies halfway between 0.6 and 0.9: rank 1.5 |
| `Sequences.SortBy` | dashboard_code.py:65 | the sort behind the quantile returns an ordered permutation of its input |
| `Sequences.FilterSelects` | dashboard_code.py:153 | a boolean mask keeps every selected element as often as it occurs, and nothing else |
| `Sequences.FilterConcat` | dashboard_code.py:153 | a mask keeps its input's order: masking a concatenation masks each part |
| `Sequences.FilterSingleton` | dashboard_code.py:153 | a single element is kept exactly when it passes the mask |
| `ClimateMap.CreateClimateMap` | dashboard_code.py:60-110 | empty table gives an error; otherwise one marker per row in row order, at the row's location, radius value * 0.1 whatever the colour, green iff value > q75, orange iff q50 < value <= q75, red iff value <= q50, popup with the value; thresholds are the column's quantiles with q50 <= q75, and the legend uses them |
| `ClimateMap.LegendAgreesWithTier` | dashboard_code.py:99-101 | when q50 <= q75, every value meets exactly one of the three legend conditions, and that entry's colour is the value's colour |
| `ClimateMap.TierBoundaries` | dashboard_code.py:70-75 | the three tiers in closed form; a value equal to q50 is red, one equal to q75 is orange when q50 < q75 |
| `ClimateMap.ConstantColumnAllRed` | dashboard_code.py:65-75 | when all values are equal, q50 == q75 == that value and every row is red |
| `ClimateMap.TierExample` | dashboard_code.py:68-75 | on [0.5, 0.6, 0.9] the rows are red, red and green |
| `Regions.GetRegion` | dashboard_code.py:115-122 | Caribe iff lat > 8; Sur iff lat < 2; Pacífico iff 2 <= lat <= 8 and lon < -75; Andina otherwise; exactly one of them |
| `Regions.RegionExamples` | dashboard_code.py:115-122 | (9, -70) is Caribe, (1, -80) is Sur, (5, -76) is Pacífico, (5, -70) is Andina |
| `Regions.LabelInjective` | dashboard_code.py:116-122 | the four region labels are pairwise different |
| `Dataset.NLargestSelects` | dashboard_code.py:215 | `nlargest` returns min(k, n) rows taken from the table, ordered by decreasing viability, and no row left out scores strictly higher than a row taken |
| `Dataset.ViabilityExample` | dashboard_code.py:214 | SW_DWN 5.0 with KT 0.5 scores 3.2 |
| `Dataset.UnifiedTable.constructor` | dashboard_code.py:29 | a loaded table holds its rows and neither derived column yet |
| `Dataset.UnifiedTable.AddRegionColumn` | dashboard_code.py:124 | adds a Region column with each row's region; rows and the other column unchanged |
| `Dataset.UnifiedTable.AddViabilityColumn` | dashboard_code.py:214 | adds a Viabilidad column equal to 0.6 * SW_DWN + 0.4 * KT for each row; rows and the Region column unchanged |
| `Dataset.UnifiedTable.DetailedAnalysis` | dashboard_code.py:214-217 | adds the viability column and returns the `nlargest(3)` rows with their scores |
| `Visualization.SelectedRowsExact` | dashboard_code.py:152-171 | the plotted rows are exactly the rows with the chosen year, a date in [start, end] when two dates are given, and the chosen latitude and longitude, each as often as in the table; nothing else is dropped or changed |
| `Visualization.SelectedRowsInOrder` | dashboard_code.py:152-188 | the plotted rows keep the table's order, which is the order `px.line` draws them in: selecting from two tables in turn gives the first selection followed by the second |
| `Percentiles.PercentileValue` | dashboard_code.py:268-269 | the radio choice "75" gives 0.75, anything else 0.50 |
| `Percentiles.Threshold` | dashboard_code.py:272 | the threshold is missing exactly when the table is empty; it is the quantile of the raw ALLSKY_KT column |
| `Percentiles.LocationsAreKeys` | dashboard_code.py:271 | the grouped keys are the table's locations, each once, in ascending (LAT, LON) order |
| `Percentiles.AveragesOnePerLocation` | dashboard_code.py:271 | the averages hold each location of the table exactly once and nothing else, in key order, each with the mean of that location's rows |
| `Percentiles.AveragesWithinBounds` | dashboard_code.py:271 | averaging keeps bounds: when every ALLSKY_KT value is at least lo (at most hi), so is every location mean |
| `Percentiles.MeanBounds` | dashboard_code.py:271 | a mean lies within any bounds that hold for all of its values |
| `Percentiles.SplitPartition` | dashboard_code.py:273-274 | "above" (mean > threshold) and "at or below" (mean <= threshold) are disjoint and together hold every average exactly as often |
| `Percentiles.SplitKeepsOrder` | dashboard_code.py:273-274 | each set keeps the key order of the averages, so the marker loops visit locations in ascending (LAT, LON) order within each set |
| `Percentiles.SplitSingle` | dashboard_code.py:273-274 | a single average is "above" exactly when its mean is > the threshold, and "at or below" exactly when it is <= |
| `Percentiles.SplitKeepsCount` | dashboard_code.py:273-274 | the two sets are together as many as the averages |
| `Percentiles.SplitKeepsLocations` | dashboard_code.py:273-274 | together the two sets hold exactly the locations of the averages |
| `Percentiles.SplitLocationsDistinct` | dashboard_code.py:271-274 | no location is in both sets or twice in one |
| `Percentiles.MaxMean` | dashboard_code.py:290 | the largest mean is taken by some average and bounds every one |
| `Percentiles.BelowRadiusBounds` | dashboard_code.py:290 | with 0 <= mean <= max and max > 0, radius 4 + 10 * mean / max is finite and in [4, 14] |
| `Percentiles.EmitMarkers` | dashboard_code.py:278-299 | the two loops emit a red radius-8 marker per "above" location, then a blue 4 + 10 * mean / max marker per "at or below" location, in order |
| `Percentiles.MarkersOnePerLocation` | dashboard_code.py:271-299 | the markers are as many as the averages, at pairwise different locations, and at exactly the table's locations |
| `Percentiles.MarkerRadiusBounds` | dashboard_code.py:289-299 | with no negative value and a positive largest mean, every blue radius lies in [4, 14] |
| `Percentiles.DrawPercentileMap` | dashboard_code.py:265-299 | the whole view: averages, the raw-column threshold, the split, and one marker per location with the radius rules above |

## Left out

- Page setup, sidebar widgets, the menu and its dispatch, warnings and errors shown to the user
  (dashboard_code.py:11-20, 127-130, 35-57). These are user-interface plumbing; widget choices are
  parameters.
- CSV upload, `cargar_csv` and its cache, and the column renames (dashboard_code.py:23-25, 40, 47, 54,
  226-232). These are file input and library calls. Column lookup by name is left out too: a climate table
  is given as (LAT, LON, value) readings.
- Building `Fecha` from YEAR-MO-DY with `pd.to_datetime` (dashboard_code.py:31-33). A date is an opaque
  ordered value (`Dataset.Date`).
- Map and chart rendering: folium maps and markers, `scatter_mapbox`, `px.line` and the heatmap, plus the
  map-centre choices (dashboard_code.py:61-63, 173-189, 197-205, 236-239, 276). Only the check that
  `idxmax` needs a non-empty table is kept, as `ClimateMap.CreateClimateMap`'s error.
- The lists of years, latitudes and longitudes offered by the selectors (dashboard_code.py:152, 165-169).
  These are widget contents.
- The legend's HTML template and all `:.2f` and `:.4f` formatting (dashboard_code.py:84, 88-108, 217, 286,
  298). Legends and popups keep their structure and the values they show.
- The correlation matrix and the per-region bar chart (dashboard_code.py:212-213, 235). These are
  floating-point statistics that only feed charts.
- IEEE-754 arithmetic. Everything is exact `real`. NaN values inside a column are not modelled; pandas
  would skip them in `quantile`, `mean` and `groupby`. The NaN threshold of an empty column is modelled as
  `None`, which makes both masks empty. A division by a zero largest mean is modelled as `NonFinite`.
- Dataset.NLargestSelects: does not state the order among rows of equal viability (pandas' `keep='first'`).
  The insertion sort behind `NLargest` is stable, but stability is not proved.

## Notes

- On [0.5, 0.6, 0.9], q50 is 0.6 and q75 is 0.75, so the rows are red, red and green. The value 0.6 equals
  the median, and `valor > q50` is false for it (`ClimateMap.TierExample`).
- pandas returns NaN for the quantile of an empty column; the model calls that `None`. In
  `crear_mapa_clima` an empty table already fails at `idxmax`, which is the model's `EmptyColumn` error.
  What the Percentiles view does with an empty table after the masks (the NaN map centre at
  dashboard_code.py:276) is library behaviour and is not part of this model.
