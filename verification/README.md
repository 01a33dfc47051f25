# Japan population dashboard: the data pipeline

The dashboard (`app.py`) is a Streamlit page. It shows Japan's population by
prefecture from 1975 to 2023, plus a forecast for 2024. Under the widgets
sits a small deterministic pipeline over integer population records. This
project models that pipeline in Dafny and proves what it computes.

- **Formatter** (`Format`, `Decimal`): `format_number` has three branches.
  - Above one million, a multiple of one million prints as whole millions (" M").
  - Above one million, any other count prints as millions rounded to one decimal.
  - At or below one million, including negative counts, it prints floored thousands (" K").
  Python's `str` on an integer is modelled together with a parser. Parsing
  what `str` printed gives back the integer.
- **Year-over-year difference** (`Difference`): `calculate_population_difference`
  subtracts the previous year's populations from the selected year's.
  - Rows are matched by position, with 0 filled in where the previous year
    is shorter.
  - An absolute-value column is added.
  - The rows are sorted by signed difference, largest first.
  - The "Extreme Prefecture Dynamics" panel reads the first and last rows.
- **Aggregation views** (`Aggregation`):
  - the slice of one year, and that slice ranked by population;
  - the year selector's list;
  - the yearly national totals and the national delta;
  - the line chart's series up to the selected year.
- **Forecast integration** (`Forecast`): forecast rows are relabelled to
  year 2024. They are left-joined onto the de-duplicated prefecture metadata
  of the historical rows and appended after them.
- **Sorting and sequence helpers** (`Ranking`, `Seqs`): a descending sort
  by an integer key, order-preserving de-duplication, and reversal.

Each table is a `seq<Record>`. A record has the fields region, region_code,
prefecture, prefecture_code, year and population, in that column order. A
metadata cell that a left join could not fill (a pandas NaN) is `None`. The
pandas column mutations in the source (`rename(..., inplace=True)`, new
columns) act on local copies of whole columns. They are modelled as
functions that return new sequences.

Some behaviour of the code differs from what a reader might expect:

- `format_number(1000000)` is `"1000 K"`. The threshold is a strict `>`, so
  exactly one million is printed in thousands, not as `"1 M"` (lemma
  `Format.Examples`, `Dashboard.DeltaOfOneMillion`).
- The yearly difference matches rows by position, not by prefecture name.
  The two agree when both years list the same prefectures in the same order
  (`Difference.PositionalAgreesWithByName`). They differ otherwise
  (`Difference.PositionalIsNotByName`).
- A prefecture missing from the previous year is not compared with 0 by name.
  The comparison is with 0 only at positions beyond the previous year's row
  count.
- `groupby` sorts its keys, so the yearly totals come out in ascending year
  order.

## Model

| member | source | states |
|---|---|---|
| `Format.FormatNumber` | app.py:172-177 | The float branch is taken exactly when the count is above one million and not a multiple of it. That branch keeps the count, uninterpreted. |
| `Format.FloorDiv` | app.py:177 | Python's `//` with a positive divisor: `d*q <= n < d*q + d`, so negative counts round toward minus infinity. |
| `Format.ExactMillions` | app.py:173-175 | A multiple of one million above one million prints with no decimal point. It reads back as exactly its number of millions, so nothing is lost. |
| `Format.FlooredThousands` | app.py:173-177 | At or below one million, and for every negative count, the label is " K" with no decimal point. It reads back as `q` with `1000*q <= num < 1000*q + 1000`. The millions form is never used there. |
| `Format.Examples` | app.py:172-177 | 1,000,000 gives "1000 K"; -1,500 gives "-2 K"; 5,000,000 gives "5 M"; 999,000 gives "999 K"; 5,500,000 takes the rounded branch. |
| `Decimal.IntToString` | app.py:175 | `str(n)` is non-empty, starts with '-' exactly for negative n, and has no '.'. It has no leading zero: it starts with '0' only when it is "0", and a '-' is never followed by '0'. |
| `Decimal.IntToStringRoundTrip` | app.py:175 | Parsing what `str(n)` printed gives back n. |
| `Difference.PositionalDifference` | app.py:182-185 | One row per current-year row, with that row's metadata and population. Row i's difference is its population minus row i of the previous year, or minus 0 past the previous year's end. The absolute column is the absolute value of the difference. |
| `Difference.CalculatePopulationDifference` | app.py:181-186 | One row per record of the selected year. The rows are sorted by signed difference, largest first, and are a permutation of the positional differences. Every row's absolute column is the absolute value of its difference. |
| `Difference.ExtremeDynamics` | app.py:234-254 | Placeholders exactly for years up to 1975, and an IndexError exactly when the year has no rows. Otherwise the shown grower and shrinker are rows of the table, with the largest and the smallest difference. |
| `Difference.PositionalAgreesWithByName` | app.py:182-184 | When both years list the same distinct prefectures in the same order, the positional difference equals the difference matched by prefecture name. |
| `Difference.PositionalIsNotByName` | app.py:182-184 | With the previous year in another order, the positional difference of a row is not its prefecture's own change. |
| `Aggregation.YearSlice` | app.py:98 | The slice holds exactly the table's rows of that year. |
| `Aggregation.YearSliceAppend` | app.py:98 | Slicing distributes over concatenation, so table order is kept. |
| `Aggregation.RankedYear` | app.py:98-99 | A permutation of the year's slice, sorted by population with the largest first. Every row is of that year. |
| `Aggregation.YearList` | app.py:95 | Each year of the table appears exactly once, and no other value appears. The years are listed in reverse order of their first appearance in the table. |
| `Aggregation.YearListMostRecentFirst` | app.py:95 | If every year first appears before any row of a later year (true of a table ordered by year, and of one listed prefecture by prefecture with each prefecture's rows in year order), the list strictly decreases and starts with the most recent year. |
| `Aggregation.YearListByPrefecture` | app.py:95 | A table listing Aomori 1975, Aomori 1976, Iwate 1975, Iwate 1976 gives the list [1976, 1975]. |
| `Aggregation.YearlyTotals` | app.py:202 | One row per distinct year, in strictly ascending year order. Every year of the table is present. Each total is the sum of population over that year's rows. |
| `Aggregation.YearlyTotalsConserve` | app.py:202 | The yearly totals add up to the population of the whole table: every row is counted once. |
| `Aggregation.Lookup` | app.py:206 | `iloc[0]` on the rows of one year finds a value exactly when such a row exists, and the value is that row's total. |
| `Aggregation.NationalTotal` | app.py:206 | A total exists exactly for the years in the table, and it is the sum over that year's rows. |
| `Aggregation.NationalDelta` | app.py:204-212 | The delta is blank exactly for years up to 1975. It is a change exactly when both the year and the year before have rows, and the change is the difference of their totals. |
| `Aggregation.UpTo` | app.py:110 | Keeps exactly the rows whose year is at most the selected year. |
| `Aggregation.UpToKeepsSlice` | app.py:110 | The filter leaves the slice of every year up to the selected one unchanged. |
| `Aggregation.LineSeries` | app.py:110-111 | The chart series is in strictly ascending year order and holds only years of the table up to the selected one. Each total equals that year's total in the full table. Every year of the table up to the selected one is present. |
| `Ranking.SortDesc` | app.py:186 | The result is sorted by key, largest first, and is a permutation of the input. |
| `Seqs.FirstIndex` | app.py:95 | The position where an element first appears: it holds that element, and no earlier position does. |
| `Seqs.FirstIndexInPrefix` | app.py:95 | An element occurring in a prefix first appears at the same position in the whole sequence. |
| `Seqs.Distinct` | app.py:80 | The result has no duplicates and holds exactly the input's elements, in order of first appearance. |
| `Seqs.ReversedDistinct` | app.py:95 | `unique()[::-1]`: no duplicates, exactly the input's elements, later first appearances first. |
| `Seqs.DistinctAscends` | app.py:95 | If every value first appears before any occurrence of a larger value, `unique()` gives a strictly increasing sequence. |
| `Seqs.ReverseOfIncreasing` | app.py:95 | Reversing a strictly increasing sequence gives a strictly decreasing one that starts with its largest element. |
| `Seqs.ReversedDistinctDescends` | app.py:95 | If every value first appears before any occurrence of a larger value, `unique()[::-1]` strictly decreases and starts with the largest value of the input. |
| `Seqs.Reverse` | app.py:95 | `[::-1]`: same length, element i is element n-1-i of the input. |
| `Forecast.Relabel` | app.py:76-78 | One row per forecast row, with its prefecture, its prediction as population, and year 2024. |
| `Forecast.PrefectureMapping` | app.py:80 | No duplicate entries. Every entry is the metadata projection of a historical row, and every historical row's projection is an entry. |
| `Forecast.MappingUniqueWhenConsistent` | app.py:80 | If every historical row of a prefecture has the same metadata, the mapping has one entry per prefecture. |
| `Forecast.Matches` | app.py:82 | Exactly the mapping entries of the prefecture; empty exactly when the mapping has none. |
| `Forecast.JoinOne` | app.py:82 | One row per matching mapping entry, or exactly one row when none matches. Each row has the prediction's prefecture, year and population. Each row has either a mapping entry's metadata, or missing metadata when no entry names the prefecture. Every matching entry's metadata appears in a row. |
| `Forecast.MergeLeft` | app.py:82 | At least one row per prediction. Every row carries some prediction's prefecture, year and population, and is either joined or unmatched with missing metadata. Every row of every prediction's own join is in the result, so no prediction is dropped. |
| `Forecast.IntegrateForecast` | app.py:76-86 | The historical rows come first, unchanged and in order. Every appended row has year 2024, a forecast's prefecture and prediction, and either matched metadata or missing metadata. |
| `Forecast.OneRowPerForecast` | app.py:76-86 | With one mapping entry per prefecture, exactly one row is appended per forecast row, in order, with its prefecture, its prediction and year 2024. |
| `Forecast.UnmatchedGetsMissingMetadata` | app.py:82-86 | A forecast prefecture that no historical row names is appended with missing region, region code and prefecture code, not dropped. |
| `Forecast.ForecastYearSlice` | app.py:86 | With no historical row in 2024, the 2024 slice of the unified table is exactly the appended rows. |
| `Forecast.OtherYearsUnchanged` | app.py:86 | Integration leaves the slice of every other year unchanged. |
| `Dashboard.DeltaOfOneMillion` | app.py:204-207 | Totals of 100,000,000 and 101,000,000 give a delta of +1,000,000, which prints as "1000 K". |

## Left out

- Format.FormatNumber: the `round(num / 1000000, 1)` branch (app.py:176) is floating-point division and rounding. It is kept as the uninterpreted label `RoundedMillions(num)`, and its text is not modelled.
- Forecast.MergeLeft: the total row count is stated per prediction (`Forecast.JoinOne`), and as exactly one per forecast row under `UniqueKeys` (`Forecast.OneRowPerForecast`). It is not summed over all predictions.
- Ranking.SortDesc: pandas' default `quicksort` is not stable, so the source leaves the order of equal keys open. The model keeps their input order, and no contract depends on that order.
- Pandas dtypes: where the two years' lengths differ, `sub(..., fill_value=0)` yields a float column, and `format_number` then prints e.g. "12.0 K". A float prediction column would do the same. The model keeps all populations as unbounded integers and does not model int64 overflow.
- The pooled confidence interval of the 2024 total (app.py:70-74) is floating-point arithmetic with a square root. It is not modelled, and neither are the forecast's interval columns.
- The red/green colouring of the interval bounds (app.py:215-229) compares rounded float millions with totals, for display only.
- Page setup, CSS, sidebar widgets, headings, `st.metric`, `st.markdown` and `st.dataframe` (app.py:10-62, 92-102, 189-297) are UI. The colour-theme list is a widget option.
- The line chart layout and the choropleth (app.py:112-167) are Plotly figure construction. The choropleth also reads `data/jp_geo.json`.
- The CSV loads (app.py:66, 68) are file I/O. The model takes the historical and forecast tables as parameters.
