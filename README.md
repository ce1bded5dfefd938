# Traffic data preparation: categorisers, feature labelling and keep-last de-duplication

This project models the logic of `coursework1/data_prep.py`, a script that cleans an
hourly Interstate 94 traffic-volume table and derives calendar features from it. The
modelled parts are:

- **`categorize_hour`** (module `Categorize`): maps an hour of the day to one of six
  time-of-day labels in four-hour blocks, "Night" covering 21, 22, 23 and 0. The Python
  if/elif chain has no `else`, so any other integer yields `None`; the model returns an
  `Option<string>` and keeps that fall-through.
- **`categorize_day`** (module `Categorize`): maps 0..5 to "Monday".."Saturday" and
  everything else (6 and every out-of-range integer) to "Sunday", literally as written.
- **`parse_datetime`** (module `Features`): on a copy of the table, adds the calendar
  columns and the two categorical columns row by row. The table is an `array<Record>`
  that the method only reads; the result is a new sequence of rows. The calendar
  extraction done by pandas' `.dt` accessors is a parameter `calendar`.
- **keep-last de-duplication** of `process_data` (module `Dedup`):
  `drop_duplicates(subset=['date_time'], keep='last')` as a method over a sequence of
  records. It is proved against a specification function `KeepLast`, with lemmas for
  uniqueness, last-wins, preserved timestamps, order and idempotence. The
  `duplicated().sum()` count printed before and after the drop is modelled as well.

A traffic record (module `Traffic`) has the cleaned schema: `date_time` as an abstract
integer timestamp, traffic volume, holiday, temperature, rain, snow, cloud and weather.
The hour buckets are exhaustive over 0..23, and `HourLabelPreimages` proves it, so an
hour that pandas extracts always gets a label. The weekday fall-through to "Sunday" is
kept as written.

## Model

| member | source | states |
|---|---|---|
| `Categorize.CategorizeHour` | coursework1/data_prep.py:9-30 | an hour gets a label exactly when it is in 0..23, and the label is one of the six time-of-day labels; any other integer gets none |
| `Categorize.CategorizeHourByBucket` | coursework1/data_prep.py:19-30 | every hour 0..23 gets the label of its four-hour block counted from 01:00, so 21, 22, 23 and 0 share "Night" |
| `Categorize.HourLabelsDistinct` | coursework1/data_prep.py:19-30 | the six labels are pairwise different, so no hour is in two buckets |
| `Categorize.HourLabelPreimages` | coursework1/data_prep.py:19-30 | each label is produced by exactly its four hours (1-4, 5-8, 9-12, 13-16, 17-20, and 21-23 plus 0) and by no other integer |
| `Categorize.CategorizeDay` | coursework1/data_prep.py:33-56 | the result is always a weekday name; 0..5 give Monday..Saturday; 6 and every integer outside 0..5 give "Sunday" |
| `Categorize.CategorizeDayOnWeek` | coursework1/data_prep.py:43-56 | on 0..6 the day of index d is the d-th name counted from Monday, and different indices give different names |
| `Features.ParseDatetime` | coursework1/data_prep.py:72-82 | the result has one row per input row, in order; each row keeps its input record and its calendar fields; its categories are the two categorisers applied to `Hour` and `Weekday`; the input table is not modified |
| `Features.CategorizedInRange` | coursework1/data_prep.py:79-81 | a categorised row whose hour and weekday are in range has its block's label and its weekday's name, never a missing label |
| `Dedup.UniqueTimestampsPairwise` | coursework1/data_prep.py:259 | a table has unique timestamps exactly when no two rows share a `date_time` value |
| `Dedup.KeepLast` | coursework1/data_prep.py:258 | keep-last de-duplication never lengthens the table, keeps the same set of timestamps, and leaves them unique |
| `Dedup.LastIndex` | coursework1/data_prep.py:258 | the position found for a timestamp holds that timestamp, and no later row has it |
| `Dedup.KeepLastKeepsLastRow` | coursework1/data_prep.py:258 | every surviving row is the last input row with its timestamp |
| `Dedup.KeepLastKeepsEveryLastRow` | coursework1/data_prep.py:258 | every row that no later row shares a timestamp with survives |
| `Dedup.KeepLastOrderAt` | coursework1/data_prep.py:258 | of two survivors, the earlier one has the earlier last occurrence in the input |
| `Dedup.KeepLastPreservesOrder` | coursework1/data_prep.py:258 | survivors keep the relative order of their last occurrences in the input |
| `Dedup.KeepLastOfUnique` | coursework1/data_prep.py:258 | a table whose timestamps are already unique is left unchanged |
| `Dedup.KeepLastIdempotent` | coursework1/data_prep.py:258 | de-duplicating twice gives the same table as de-duplicating once |
| `Dedup.CountDuplicated` | coursework1/data_prep.py:251 | the number of rows whose timestamp appeared in an earlier row equals the row count minus the number of distinct timestamps |
| `Dedup.NoDuplicatesIffUnique` | coursework1/data_prep.py:259 | the duplicate count is zero exactly when the timestamps are unique |
| `Dedup.DuplicatesRemoved` | coursework1/data_prep.py:251-259 | the drop removes exactly the number of duplicates reported before it, and the count reported after it is zero |
| `Dedup.DropDuplicatesKeepLast` | coursework1/data_prep.py:258 | the loop that scans from the end with a set of seen timestamps computes exactly `KeepLast` of the table |

## Left out

- Spreadsheet I/O (`read_excel`, `to_excel`, the script entry point, lines 270-287): external files.
- The five plotting routines (lines 85-197), including the rain-outlier filter at line 186: charting and float group-by means, nothing persisted.
- Console diagnostics and pandas display options in `process_data` (lines 216-232, 236, 242-248, 254-255, 262): observational only. The `duplicated().sum()` counts at lines 251 and 259 are modelled by `CountDuplicated`.
- The column rename (line 222) and the drop of `weather_description` (line 235): a fixed schema change; `Traffic.Record` already has the cleaned schema.
- The Kelvin to Celsius conversion (line 239): floating-point arithmetic on a column.
- The extraction of year, month, day, weekday and hour through pandas' `.dt` accessors (lines 73-77): a library calendar computation, taken as the parameter `calendar` of `ParseDatetime`.
- Dedup.DropDuplicatesKeepLast: returns a new sequence instead of updating the table in place (`inplace=True`). Pandas' row index labels, which survive the drop, are not modelled.
- Aliasing: the in-place rename at line 222 also changes the caller's table, because `df` and `data` are the same object until line 235 rebinds `df`. The model has no shared table.
