# Live earthquake dashboard: the event pipeline

This Dafny project models the data pipeline of a Streamlit dashboard that shows
recent earthquakes around Myanmar. The dashboard reads the USGS "all month"
GeoJSON summary feed. The pipeline has five steps:

- **Normalization** (`load_earthquake_data`). Each element of the feed's `features`
  list becomes one row of a table. `place`, `time` and `mag` come from
  `properties`. Longitude, latitude and depth are `geometry.coordinates[0]`, `[1]`
  and `[2]`.
- **Region mask.** An event is kept when its latitude is in [5, 35] and its
  longitude is in [85, 110]. Both bounds are inclusive.
- **Magnitude mask.** An event is kept when `magnitude >= min_mag`. A missing
  magnitude never passes.
- **Live Stats.** The count of kept events, the strongest magnitude (0 for an
  empty table) and the mean depth.
- **Recent Earthquakes.** The kept events sorted by time, newest first.

Modules, one per step:

- `Wrappers`: `Option` and `Result`.
- `Quakes`: the decoded feature, the normalized row `Event`, and the errors that
  stop the script.
- `Loader`: the row-building loop (`LoadEarthquakeData`) and the function it is
  proved against (`Normalize`).
- `Filters`: boolean-mask selection and the two masks.
- `Stats`: the metrics.
- `RecentTable`: an in-place selection sort on an `array<Event>`.
- `Dashboard`: one run of the script.

Times are kept as integer epoch milliseconds. Converting them to datetimes
preserves order, and the pipeline only compares them. Coordinates, depths and
magnitudes are `real`, because the pipeline only compares them, takes a maximum
and takes a mean.

Error paths and fixed choices of the code:

- A feature with fewer than three coordinates makes `coordinates[2]` raise
  IndexError, so the script stops (`CoordinateIndexOutOfRange`). No feature
  is skipped.
- An empty feed gives `pd.DataFrame([])`, which has no columns. Reading
  `df["latitude"]` (streamlit_app.py:76) then raises KeyError, so the script stops
  (`MissingColumn`).
- The region is always the fixed Myanmar box.

## Model

| member | source | states |
|---|---|---|
| `Loader.LoadEarthquakeData` | streamlit_app.py:55-69 | The row-building loop returns exactly `Normalize(features)`: the table, or the IndexError of the first short feature |
| `Loader.Normalize` | streamlit_app.py:55-69 | The reference definition of the loop: the table, or the IndexError at a feature, built feature by feature. A table has one row per feature, and an error names a feature of the feed. `NormalizeOneRowPerFeature` and `NormalizeFailsAtFirstShortFeature` prove the rest about it |
| `Loader.NormalizeOneRowPerFeature` | streamlit_app.py:56-67 | Normalizing succeeds iff every feature has at least 3 coordinates. Then there is one row per feature in feature order: place, time and magnitude are copied (a null magnitude stays absent), and lon/lat/depth are coordinates 0/1/2 |
| `Loader.NormalizeFailsAtFirstShortFeature` | streamlit_app.py:64-66 | On failure the error names a feature with fewer than 3 coordinates and its length. Every earlier feature had 3 or more, so a short feature is an error and is never silently skipped |
| `Filters.Select` | streamlit_app.py:75-78 | Boolean-mask indexing. Its output is an order-preserving subsequence of the input. It holds exactly the rows the mask accepts, each with its full multiplicity, and is no longer than the input |
| `Filters.FilterRegion` | streamlit_app.py:75-78 | An event is kept iff 5 <= lat <= 35 and 85 <= lon <= 110, with both ends inclusive, and every copy of a kept event survives. The output is an order-preserving subsequence |
| `Filters.FilterMagnitude` | streamlit_app.py:94 | An event is kept iff its magnitude is present and >= `min_mag`, and every copy of a kept event survives. The output is an order-preserving subsequence |
| `Filters.WorkingSubset` | streamlit_app.py:94 | The working subset holds exactly the events that are in the region and meet the threshold, each with its full multiplicity, in table order |
| `Filters.FilterRegionIdempotent` | streamlit_app.py:75-78 | Applying the region mask to its own output changes nothing |
| `Filters.FilterMagnitudeIdempotent` | streamlit_app.py:94 | Applying the magnitude mask to its own output changes nothing |
| `Filters.FiltersCompose` | streamlit_app.py:75-94 | Region then magnitude equals magnitude then region, and both equal one selection by the conjunction of the two masks |
| `Filters.WorkingSubsetKeepsEveryCopy` | streamlit_app.py:75-94 | The doubly masked table keeps every copy of a passing event and no other event, and is an order-preserving subsequence of the normalized table |
| `Filters.MasksOnSmallTable` | streamlit_app.py:75-94 | Example: magnitudes 5.0, 3.0 and none with threshold 4.0 leave only the 5.0 event. Points on the box edges are kept and points just outside are dropped |
| `Stats.MaxMagnitude` | streamlit_app.py:118 | The column maximum skips missing magnitudes. It is absent (NaN) iff no row has a magnitude. Otherwise it is some row's magnitude and >= every present magnitude |
| `Stats.Strongest` | streamlit_app.py:118 | `strongest` is 0 for an empty table. Otherwise it is the maximum of the present magnitudes: one of them and >= all of them |
| `Stats.StrongestOfWorkingSubset` | streamlit_app.py:94-118 | On the working subset, `strongest` is 0 when no event passes. Otherwise it is some row's magnitude, >= every row's magnitude, and >= `min_mag` |
| `Stats.TotalQuakes` | streamlit_app.py:117 | `len(df_mm)`: the definition that `TotalQuakesCountsPassingEvents` proves equal to the number of passing positions of the normalized table |
| `Stats.TotalQuakesCountsPassingEvents` | streamlit_app.py:117 | `total_quakes` equals the number of positions of the normalized table whose event is in the region and meets the threshold |
| `Stats.MeanDepth` | streamlit_app.py:119 | The mean depth without rounding: 0 for an empty table, otherwise the value whose product with the row count is the sum of the depths. `MeanDepthBounds` proves it lies between the depth bounds |
| `Stats.MeanDepthBounds` | streamlit_app.py:119 | The unrounded mean depth of a non-empty table lies between every lower and every upper bound of its depths |
| `RecentTable.SortByTimeDescending` | streamlit_app.py:153 | Sorting in place leaves the array non-increasing in time and a permutation (multiset-equal) of the original |
| `RecentTable.RecentFirst` | streamlit_app.py:153 | `sort_values("time", ascending=False)` returns a table with the same rows (multiset-equal, same length), non-increasing in time |
| `Dashboard.Refresh` | streamlit_app.py:71-153 | A whole run. A short feature propagates its IndexError, and an empty feed raises KeyError on `latitude`. Otherwise the total, strongest and mean depth are those of the working subset, and the table is that subset newest first |

## Left out

- The HTTP GET and JSON decoding (`requests.get(url).json()`). This is network I/O. The model takes the decoded `features` list as its input.
- Malformed decoded features: missing keys (`properties`, `geometry`, `coordinates`, `place`, `time`, `mag`), a `null` geometry (`geo["coordinates"]` at streamlit_app.py:64 raises TypeError), a `null` place or time, and `null` coordinate values (pandas turns them into NaN depth, latitude or longitude). The model's input type cannot express these: every key is present, `place` is a string, the time is an integer and every coordinate is a number.
- The `@st.cache_data(ttl=600)` memo, and the refresh button's `st.cache_data.clear()` and `st.rerun()`. The framework manages these, and their clock and state are not visible in the code.
- `pd.to_datetime(..., unit="ms")`. It is a library conversion that preserves order, so times stay integer milliseconds, and out-of-range timestamps are not modelled.
- `round(..., 1)` on the mean depth: floating-point rounding. `MeanDepth` is the exact real mean.
- Floating-point magnitudes, coordinates and depths. These become `real`. NaN appears only as an absent magnitude, and it compares false, as in pandas.
- `RecentTable.SortByTimeDescending`: the order of rows with equal times is not stated. pandas' default sort is not stable, so the source does not fix that order either.
- Page configuration, CSS, sidebar widgets, the heatmap, the map and the dataframe rendering. These are presentation only.
- Daily aggregation, activity trend, recency and severity labels, and the most-active-region heuristic. The repository's code has none of them.
