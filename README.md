# Volcano Explorer: the data pipeline

Volcano Explorer is a one-page Streamlit app. The user uploads a CSV of volcanoes,
picks a country and an elevation range, and gets three views: the matching
volcanoes as a table, a bar chart of the five highest, and a map. This project
models the part of the script that computes those views from the parsed table:

1. **Cleaning.** Rows missing Latitude, Longitude, Country or Elevation (Meters)
   are dropped. The survivors keep their file order.
2. **Country choices.** The selector offers the distinct countries of the cleaned
   table in ascending order.
3. **Filter.** The app keeps the records of the chosen country whose elevation lies
   in the chosen range, both ends included, in table order.
4. **Top 5.** The filtered records are sorted by elevation, highest first, and the
   first five are kept.
5. **Summary.** The app shows the number of filtered records in a success message.
   Balloons follow from ten matches up. A warning with snow follows when nothing
   matches.

Everything is a pure function over sequences:

- `RawRow` is a parsed row in which every cell is an `Option`. `None` stands for
  pandas' missing value.
- `Record` is a cleaned row in which the four required cells are present.
- `AsRow` turns a record back into the raw row it came from.

Modules, one per stage: `Records` (the row types), `Cleaning`, `Countries`,
`Query`, `Ranking`, `Report` and `Explorer` (the whole run). `Wrappers` and
`Sequences` hold `Option` and the subsequence predicate.

Design choices:

- Elevation is an `int`. The elevation slider yields integer bounds, and elevations
  are only compared.
- Latitude and longitude are `real`. Only their presence matters here.
- The string order used for sorting countries is Python's `str` order: lexicographic
  by code point, with a proper prefix first. `StrLess` is that order. It is proved
  irreflexive (in its own contract), transitive and total.
- The top-5 function sorts with one particular tie order. Its contract, `IsTop`,
  promises none. `TopElevationsDetermined` shows that every result satisfying
  `IsTop` has the same elevations position by position. So the tie order the model
  picks cannot be seen in the chart's values.
- The sort at volcano_app.py:33 is pandas' default `sort_values`, which is not a
  stable sort. The model promises no order among equal elevations. For the same
  reason the top view is a sub-multiset of the filtered records, not a subsequence
  of them.
- An upload with no complete row stops the script at volcano_app.py:20: the
  minimum elevation of an empty column is NaN, and `int(NaN)` raises `ValueError`.
  `Explore` returns `Failure(NoCompleteRows)` for exactly those uploads and shows
  nothing.

## Model

| member | source | states |
|---|---|---|
| `Records.AsRow` | volcano_app.py:15 | every cleaned record has Latitude, Longitude, Country and Elevation present, and converting it back and forth loses nothing |
| `Cleaning.Clean` | volcano_app.py:15 | cleaning never adds rows; every record it keeps comes from an input row; every complete input row is kept |
| `Cleaning.CleanCount` | volcano_app.py:15 | each complete row survives exactly as often as it occurs in the input; a row missing a required cell never survives |
| `Cleaning.CleanKeepsOrder` | volcano_app.py:15 | the cleaned table, read back as rows, is a subsequence of the input: the order of the survivors is kept |
| `Cleaning.CleanAppend` | volcano_app.py:15 | cleaning is row by row: cleaning a concatenation is the concatenation of the cleaned parts |
| `Countries.StrLess` | volcano_app.py:18 | Python's `str` `<` as `sorted` uses it: lexicographic by code point, a proper prefix first; a string is never before an equal one |
| `Countries.StrLessTransitive` | volcano_app.py:18 | the string order used by `sorted` is transitive |
| `Countries.StrLessTotal` | volcano_app.py:18 | any two different strings are ordered one way or the other |
| `Countries.Insert` | volcano_app.py:18 | adding a country to an ascending, repeat-free list keeps it ascending and repeat-free, and its members are the old ones plus the new country |
| `Countries.CountryChoices` | volcano_app.py:18 | the choices are strictly ascending and are exactly the countries that occur in the cleaned table |
| `Countries.StrictlySortedDistinct` | volcano_app.py:18 | a strictly ascending list has no duplicates |
| `Countries.ChoicesCardinality` | volcano_app.py:18 | the selector offers exactly one entry per distinct country |
| `Query.Matches` | volcano_app.py:25-27 | the mask: the chosen country and an elevation within the inclusive range; an inverted range matches nothing |
| `Query.ElevationRange` | volcano_app.py:19-21 | the slider's bounds: none exactly when the table is empty; otherwise every elevation lies between them, and both are attained by a record |
| `Query.Filter` | volcano_app.py:25-27 | every selected record is from the table, has the chosen country and an elevation in the inclusive range; every such record of the table is selected |
| `Query.FilterCount` | volcano_app.py:25-27 | each matching record appears exactly as often as in the table, and no other record appears |
| `Query.FilterKeepsOrder` | volcano_app.py:25-27 | the selection is a subsequence of the table: table order is kept |
| `Query.FilterAppend` | volcano_app.py:25-27 | the mask works record by record: filtering a concatenation concatenates the filtered parts |
| `Query.FilterLength` | volcano_app.py:25-27 | the number of filtered records equals the number of table positions that match |
| `Ranking.SortDescending` | volcano_app.py:33 | the sorted records are in non-increasing elevation and are a permutation of the input |
| `Ranking.PrefixOfDescending` | volcano_app.py:33 | cutting a descending sequence keeps a descending sub-multiset, and no record cut off is higher than one kept |
| `Ranking.Top5` | volcano_app.py:33 | the top view has min(5, number filtered) records, is non-increasing in elevation, is a sub-multiset of the filtered records, and no filtered record left out is higher than any record kept |
| `Ranking.TopNotHigherAt` | volcano_app.py:33 | of two valid top views of the same records, neither is higher than the other at any position |
| `Ranking.TopElevationsDetermined` | volcano_app.py:33 | any two valid top views of the same records have the same length and the same elevations position by position, whatever the tie order |
| `Report.Summarize` | volcano_app.py:56-61 | the count is the number of filtered records; the warning with snow shows exactly when there are none, the balloons exactly from ten up, and neither in between; the two never show together by construction |
| `Report.SummaryOfTable` | volcano_app.py:56-61 | the count is the number of matching table positions; the warning shows exactly when no record of the table matches; the balloons show exactly when at least ten match |
| `Explorer.ChoicesFromRows` | volcano_app.py:15-18 | a country is offered exactly when some complete uploaded row has it |
| `Explorer.Explore` | volcano_app.py:15-61 | one whole run: it fails exactly when no uploaded row is complete (the `ValueError` at line 20); otherwise the choices are sorted, repeat-free and exactly the countries of complete rows; filtered records come from complete uploaded rows and match; every complete matching row is filtered; the top view satisfies the top-5 contract; the count is the filtered length; the warning shows exactly when nothing matches and the balloons exactly from ten matches up |

## Left out

- CSV parsing (`pd.read_csv`, volcano_app.py:14): the model starts from the parsed rows. Which cells count as missing is decided by the parser and is an input here. A file that cannot be parsed, or that lacks one of the four required columns (pandas then raises on `dropna`), is not modelled: every row here has all six columns, possibly empty.
- All Streamlit calls (page setup, file uploader, sidebar widgets, `st.dataframe`, `st.bar_chart`, the messages, balloons and snow). The chosen country and elevation bounds are parameters. The messages and animations are the `Summary` value.
- The elevation slider itself (volcano_app.py:19-22). The model computes its bounds (`ElevationRange`) and stops when they do not exist. It then takes the range the slider returns as parameters and does not require it to be ordered; an inverted range simply selects nothing. Any check Streamlit makes of the default range (0, 5000) against the bounds is inside Streamlit and is not modelled.
- The map (volcano_app.py:37-53), including the mean latitude and longitude used to centre it. This is floating-point arithmetic and rendering. On an empty selection the source computes these means anyway and gets NaN. The model neither reproduces nor guards that.
- The column projection for the table (volcano_app.py:30) and `set_index("Volcano Name")` for the chart (volcano_app.py:34). They only shape data for display.
- Ranking.Top5: does not fix an order among records of equal elevation, because the source's sort does not.
