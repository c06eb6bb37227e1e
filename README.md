# Air Quality Explorer, modelled in Dafny

The Air Quality Explorer is a Streamlit page over the World Air Quality
Index CSV. One run of its script goes like this:

1. It loads the file (`load_data`). The loader drops duplicate rows, drops
   rows without coordinates and strips the header names.
2. It checks that the five required AQI columns are present, and stops if
   any is missing.
3. It sizes the AQI-range slider from the chosen pollutant's minimum and
   maximum.
4. It filters the rows by range (`filter_data`) and then by country.
5. From that filtered view it shows three metrics (`get_stats`), the ten
   highest rows (`nlargest`), the mean per country (`pivot_table`), the
   `AQI_Level` code column (`category_map`), and the per-category counts
   built row by row.
6. Separately, it builds the map view from the whole table, filtered by
   the selected cities and categories, and lists the header names that
   contain `AQI`.

The project models that pipeline on values:

- `Table` holds the records, the pollutant selector and the required
  columns.
- `Loader` models `load_data` and the schema check.
- `Filters` models both views.
- `Aggregates` models the metrics, `nlargest` and the pivot.
- `Categories` models the level codes and the counting loop.
- `Dashboard` models a whole run, both as a function (`Run`) and as the
  script-like method (`RunDashboard`), which builds the counts with the
  loop.
- `Seqs` and `Text` hold the generic helpers the dashboard modules use:
  an order-preserving filter, de-duplication and subsequences in `Seqs`;
  whitespace stripping and substring search in `Text`.

Widget values and the parsed CSV are parameters of a run:

- `Selection` carries the pollutant, the slider range, the country list,
  the city list and the category list.
- `Option<Table>` is what `pd.read_csv` produced. `None` means the read
  raised.

Two consequences of the code are easy to miss:

- The country filter is applied whatever the selection
  (website.py:90), so an empty country selection keeps no row.
- The map view starts again from the loaded table (website.py:150-156).
  Neither the pollutant range nor the country selection affects it.

## Model

| member | source | states |
|---|---|---|
| Loader.LoadData | website.py:24-35 | A failed read gives an empty table. Otherwise loading fails exactly when `lat` or `lng` is absent from the raw header, and the error names only absent subset columns. On success every header name is stripped position by position, the rows have no duplicates, a row is kept iff it occurs in the file and has both coordinates, and the kept rows are a subsequence of the file. |
| Loader.CleanRows | website.py:31-32 | After `drop_duplicates` and `dropna`, no row is repeated, a row is kept iff it occurs and has both coordinates, and the file order is kept. |
| Loader.CleanRowsInOrder | website.py:31-32 | Cleaning a prefix of the file gives a prefix of cleaning the whole file, so each kept row is a first occurrence. |
| Loader.AbsentGeoColumns | website.py:32 | The columns `dropna` complains about are exactly those of `lat` and `lng` that the header lacks. |
| Loader.MissingColumns | website.py:41-42 | A column is reported iff it is required and absent. The report keeps the required order. The report is empty iff every required column is present. |
| Loader.CheckSchema | website.py:41-45 | The script goes on iff every required column is present. Otherwise it stops with the non-empty missing list. |
| Loader.FailedReadHalts | website.py:25-29 | A failed read leaves an empty frame, whose schema check reports all five required columns. |
| Text.StripSlice | website.py:34 | A stripped header name is a slice of the original. Only whitespace is cut on either side, and the result neither starts nor ends with whitespace. |
| Text.StripIdempotent | website.py:34 | Stripping twice is stripping once. |
| Text.ContainsAt | website.py:181 | `'AQI' in c` holds iff the text occurs at some position of `c`. |
| Table.PollutantOf | website.py:58-67 | A label that is found maps to the pollutant with that label. A label that is not found is not offered. |
| Table.SelectorIsBijective | website.py:58-67 | Every offered label finds its own pollutant, and different pollutants read different required columns. |
| Table.Column | website.py:58-64 | Every pollutant reads one of the required columns. |
| Filters.FilterData | website.py:85-86 | A row is kept iff its value lies within both inclusive bounds. Each kept row keeps its multiplicity, and table order is kept. |
| Filters.FilterDataIdempotent | website.py:85-86 | Filtering twice with the same bounds is filtering once. |
| Filters.FilterCountries | website.py:90 | A row is kept iff its country is selected, as often as it occurs, in table order. An empty selection keeps nothing. |
| Filters.RangeCountryView | website.py:89-90 | The filtered view holds exactly the rows within range whose country is selected, each as often as it occurs, in table order. |
| Filters.RangeCountryOrderIrrelevant | website.py:89-90 | Applying the country filter before the range filter gives the same view. |
| Filters.SelectCities | website.py:152-153 | An empty city selection keeps every row. Otherwise a row is kept iff its city is selected, as often as it occurs, in table order. |
| Filters.SelectCategories | website.py:155-156 | An empty category selection keeps every row. Otherwise a row is kept iff its category is selected, as often as it occurs, in table order. |
| Filters.MapView | website.py:150-156 | The map view holds exactly the loaded rows that pass each non-empty selection, each as often as it occurs, in table order. |
| Filters.MapViewOrderIrrelevant | website.py:150-156 | Applying the category filter before the city filter gives the same map view. |
| Aggregates.Least | website.py:72 | The minimum is a value of some row, and no row's value is below it. |
| Aggregates.Greatest | website.py:73 | The maximum is a value of some row, and no row's value is above it. |
| Aggregates.GetStats | website.py:97-100 | There are no metrics iff the view is empty. Otherwise the metrics are the count and total of the view, plus a minimum and a maximum that each bound all rows and are attained by some row. |
| Aggregates.MeanWithinBounds | website.py:97-100 | The mean (total divided by count) lies between the minimum and the maximum metric. |
| Aggregates.TotalBounds | website.py:98 | A sum of values that each lie in `[lo, hi]` lies between `n * lo` and `n * hi`. |
| Aggregates.PivotByCountry | website.py:122 | The pivot has exactly one entry per country that occurs in the view. Each entry holds that country's positive row count and the total of its values. |
| Aggregates.NLargest | website.py:106 | `nlargest(10, col)` returns `min(10, rows)` rows. They are in descending order and drawn from the view, and no row left out has a larger value than a kept one. |
| Aggregates.SortStable | website.py:106 | The descending sort keeps rows of equal value in table order. |
| Aggregates.NLargestPrefersFirst | website.py:106 | Among rows of equal value, `nlargest` keeps the earliest ones (pandas' `keep='first'`). |
| Categories.Level | website.py:128-130 | A category has a code iff it is one of the six levels. The code is its 1-based rank in the severity order. |
| Categories.LevelRoundTrip | website.py:128-129 | Codes and category names are inverse to each other on the six levels. |
| Categories.LevelFollowsSeverity | website.py:128-129 | A more severe category has a higher code. |
| Categories.LevelColumn | website.py:127-130 | The `AQI_Level` column has one cell per row. A cell is missing exactly where the category is unknown, and otherwise names the row's category. |
| Categories.CountCategories | website.py:135-138 | The counting loop builds the count dictionary and its key insertion order, and the counts add up to the number of rows. |
| Categories.CategoryCountsMeaning | website.py:135-138 | The dictionary's keys are exactly the categories that occur. Each key maps to its positive number of rows. |
| Categories.KeyOrderMeaning | website.py:135-138 | The key order lists each occurring category once, in order of first occurrence, and has the same keys as the dictionary. |
| Dashboard.AqiColumns | website.py:181 | A header name is listed iff it contains `AQI`, as often as it occurs in the header, in header order. |
| Dashboard.Run | website.py:38-181 | A completed run comes from a file that was read, its table is what loading produced, that table has rows and every required column, and the report is that table's page. A loading halt names only `lat`/`lng` columns absent from the raw header. A schema halt lists exactly the missing required columns. An empty-column halt comes from a table with every required column and no row (the slider's `int(min())` on NaN). |
| Dashboard.RunShowsFile | website.py:31-156 | A row is in a completed run's filtered view iff it is in the file, has both coordinates, lies within the range and belongs to a selected country. A row is in its map view iff it is in the file, has both coordinates and passes each non-empty city and category selection. |
| Dashboard.PageSlider | website.py:70-75 | The slider's bounds are the least and the greatest value of the chosen pollutant over the whole table, and both are attained. |
| Dashboard.PageFiltered | website.py:85-90 | The page's filtered view holds exactly the table rows within range of a selected country, in table order. |
| Dashboard.PageMapAndColumns | website.py:150-181 | The page's map view holds exactly the table rows that pass each non-empty city and category selection. Its AQI column list holds exactly the header names containing `AQI`. |
| Dashboard.PageSummarisesView | website.py:97-138 | The metrics are absent iff the filtered view is empty, else they hold its count and total. The top rows are `min(10, n)` rows of the view in descending order. The pivot is the view's per-country pivot. There is one level code per row. The category order is the first-occurrence order of the view's categories, and each counted category maps to its positive row count. |
| Dashboard.RunDashboard | website.py:38-181 | The script-like run gives the same outcome as `Run`, and its category counts add up to the size of the filtered view. |
| Dashboard.HaltsExactly | website.py:31-45 | A run stops iff the coordinates columns are absent, a required column is missing, or no row survives the clean-up. A failed read always stops at the schema check. |
| Dashboard.MapIgnoresRangeAndCountries | website.py:150-156 | The map view depends only on the loaded rows and the city and category selections. |

## Left out

- Streamlit itself is left out: page configuration, sidebar text, `st.error`, `st.metric`, `st.dataframe` and the download button. Widget values become the `Selection` parameter. The widgets' own checks are not modelled, for example that slider values lie within the slider's bounds or that the default countries are among the options.
- `@st.cache_data` is left out. It changes no result.
- `pd.read_csv` is replaced by its outcome, the parameter `Option<Table>`. Type inference on cells is not modelled: every pollutant cell is an integer. A coordinate is an exact value, with `None` standing for NaN. Its value takes part only in the whole-row comparison of `drop_duplicates`, and the map's placement of points is not modelled.
- The mean is kept as an exact total and count. Floating-point division, NaN results and the `:.1f` formatting of the metrics are not modelled.
- `Text.Strip` treats only ASCII whitespace as space. Python's `str.strip` also removes other Unicode whitespace.
- The bar chart, the histogram and the Plotly map are left out, as are their titles, axes and bubble sizes. The page never imports `plt` (website.py:107), so the script as written stops with a NameError at the bar chart. The model treats the page as if charts raised nothing.
- The pivot is a map from country to total and count. The sorted row order of the pivot's index is not modelled.
- The option lists of the city and category multiselects (sorted unique values, website.py:142-147) are not modelled. The selections themselves are parameters.
- `filter_data`'s default arguments are not modelled. The script always passes both bounds.
- A missing `Country`, `City` or `AQI Category` column would raise a KeyError in pandas. The model's records always carry those fields, so it does not model that error.
- `to_csv` of the map view is left out. It only serialises `Filters.MapView`.
