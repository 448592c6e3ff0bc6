# Pantry dashboard: data-preparation layer

This project models the data-shaping part of a Streamlit dashboard script (`app.py`).
The script reads a KPI sheet of `(Metric, Value)` rows and three daily tables, then
prepares what the page shows:

- **Metric index** (`KpiIndex`): `dict(zip(Metric, Value))` turns the KPI rows into a
  dictionary. A later row with a repeated name overwrites an earlier one. The five
  metric cards then look up "Total Customers", "New Customers", "Old Customers",
  "Gross Profit" and "Average Retention (%)" in that order, and the first missing
  name raises `KeyError`.
- **Measure-column detection** (`ColumnDetection`): for each daily table, the script
  keeps the headers whose lower-cased text contains "count", "retention" or "profit",
  in header order, and takes the first one. An empty list of matches raises
  `IndexError`. The model returns `None` there, and `DetectColumns` reports the
  keyword that failed.
- **Gross-profit card text** (`ProfitDisplay`): `f"₹ {profit:,.0f}"` gives the rupee
  sign, a space, a minus sign for a negative value, then the decimal digits with a
  comma between groups of three, counted from the right.
- **Pie rows** (`PieSlice`): the KPI rows whose metric is "New Customers" or
  "Old Customers", in sheet order (`isin` as a boolean mask).
- **The whole layer** (`Dashboard.Prepare`): the steps above, composed in the script's
  order, with the selection of each daily table's "Date" column between the metric
  lookups and the column detection. Any error stops the run before any metric card or
  chart is shown (the page configuration and the title are already out by then).

`Wrappers` holds `Option` and `Result`. `Errors` holds the three fatal errors:
`MissingMetric` stands for the `KeyError` of a metric lookup, `MissingColumn` for the
`KeyError` of `df["Date"]` on a table without that header, and `NoMatchingColumn` for
the `IndexError` of `[...][0]` on an empty list of matches.

Two consequences of the code that the model proves or keeps explicit:

- KPI names need not be unique. `dict(zip(...))` keeps the value of the last row
  with a given name, and the model proves exactly that.
- There is no dedicated "column not found" error. When no header matches, `[...][0]`
  raises `IndexError`. The model's `None` (and `NoMatchingColumn` in `DetectColumns`)
  stands for exactly that failure and for nothing else.

## Model

| member | source | states |
|---|---|---|
| `KpiIndex.Index` | app.py:22 | the dictionary built from the rows has exactly the rows' metric names as keys |
| `KpiIndex.LastRowWins` | app.py:22 | the value stored for a name is the value of the last row with that name (later rows overwrite earlier ones) |
| `KpiIndex.LastRowExists` | app.py:22 | every metric name that occurs in the rows has a last row carrying it |
| `KpiIndex.LookupGivesLastValue` | app.py:22-28 | subscripting the dictionary fails with the missing name exactly when no row has that name; otherwise it yields the last such row's value, never a default |
| `KpiIndex.SingleRowGivesItsValue` | app.py:22-27 | a name carried by a single row maps to exactly that row's value |
| `KpiIndex.Lookup` | app.py:24-28 | `kpi[name]` succeeds exactly when the name is a key, yields the stored value, and otherwise fails with that name |
| `KpiIndex.ReadKpis` | app.py:24-28 | the five card lookups succeed exactly when all five required names occur; a failure names the first missing name in lookup order; on success each card holds the value of the last row with its name |
| `ColumnDetection.LowerChar` | app.py:63-65 | lower-casing one character leaves no upper-case ASCII letter and changes only an upper-case letter, to the letter 32 code points above |
| `ColumnDetection.Lower` | app.py:63-65 | `c.lower()` keeps the length, leaves no upper-case ASCII letter, and keeps or lower-cases each character in place |
| `ColumnDetection.Contains` | app.py:63-65 | `keyword in text` holds exactly when the keyword occurs at some position of the text |
| `ColumnDetection.MatchingColumns` | app.py:63-65 | the comprehension yields at most as many entries as there are headers, each a header whose lower-cased text contains the keyword, and includes every such header |
| `ColumnDetection.MatchingColumnsStartWithFirstMatch` | app.py:63-65 | the comprehension's list of matching headers is empty exactly when no lower-cased header contains the keyword, and otherwise starts with the first such header |
| `ColumnDetection.ResolveColumn` | app.py:63-65 | `[...][0]` fails exactly when no lower-cased header contains the keyword; otherwise it returns a header that contains it with no earlier header containing it |
| `ColumnDetection.ResolveColumnIsDetermined` | app.py:63-65 | the first-match condition fixes the result: whenever header i is the first match, it is the one returned (so a single matching header is returned, and the result depends only on headers and keyword) |
| `ColumnDetection.RequireColumn` | app.py:63-65 | one detection line succeeds exactly when some header matches; its error names the keyword; a success is the first matching header |
| `ColumnDetection.DetectColumns` | app.py:63-65 | the three detections succeed exactly when every table has a matching header; the error names the first keyword (count, retention, profit) without a match; each resolved column is its table's first match |
| `ColumnDetection.ResolveCountExample` | app.py:63 | headers "Date", "Daily_Count_Value" resolve "count" to "Daily_Count_Value" |
| `ColumnDetection.ResolveRetentionMissingExample` | app.py:64 | headers "Date", "Value" have no "retention" column, so detection fails |
| `PieSlice.SelectRows` | app.py:83-85 | the masked selection is no longer than the sheet and keeps only rows whose metric is in the name set |
| `PieSlice.KeptPositionsIncrease` | app.py:83-85 | the positions the mask keeps are positions of the sheet, listed in strictly increasing order |
| `PieSlice.KeptPositionsAreSelected` | app.py:83-85 | a sheet position is kept exactly when its row's metric is in the name set |
| `PieSlice.SelectRowsAtKeptPositions` | app.py:83-85 | the selection has one row per kept position, and its k-th row is the sheet row at the k-th kept position |
| `PieSlice.SelectRowsIsOrderedSubsequence` | app.py:83-85 | the selection's k-th row is the sheet row at the k-th kept position; positions strictly increase (order kept); a position is kept exactly when its metric is in the name set |
| `PieSlice.SelectRowsCounts` | app.py:83-85 | each row occurs in the selection as often as in the sheet when its metric is selected, and not at all otherwise (no row duplicated or dropped) |
| `PieSlice.SelectAllNamesKeepsAll` | app.py:83-85 | selecting a name set that covers every metric of the sheet keeps all rows unchanged |
| `PieSlice.SelectNoNamesIsEmpty` | app.py:83-85 | selecting with the empty name set yields no rows |
| `PieSlice.PieRows` | app.py:83-85 | the pie rows are the sheet rows at the kept positions, which increase (sheet order); a position is kept exactly when its metric is "New Customers" or "Old Customers"; each such row occurs as often as in the sheet |
| `ProfitDisplay.Digits` | app.py:75 | the decimal form is a non-empty digit string with no leading zero unless it is "0" |
| `ProfitDisplay.DigitsDenoteValue` | app.py:75 | the decimal form reads back as the number it was made from |
| `ProfitDisplay.Group` | app.py:75 | the thousands separator turns a non-empty digit string into well-formed groups (a comma exactly at every fourth position from the right, a leading group of one to three digits), and deleting its commas gives the digits back |
| `ProfitDisplay.FormatProfitLayout` | app.py:75 | the card text is the rupee prefix, a minus sign exactly for a negative profit, then well-formed groups whose digits, without commas, are the plain decimal form of the magnitude |
| `ProfitDisplay.FormatProfit` | app.py:75 | the card text starts with the rupee prefix, and parsing it back (prefix, optional sign, digit groups) gives the profit, for every integer |
| `ProfitDisplay.GroupExample` | app.py:75 | the digits "250000" are grouped as "250,000" |
| `ProfitDisplay.FormatProfitExample` | app.py:75 | a profit of 250000 is shown as "₹ 250,000" |
| `Dashboard.RequireDateColumns` | app.py:48-58 | the three `df["Date"]` selections succeed exactly when every daily table has a "Date" header, and otherwise fail with the `KeyError` for "Date" |
| `Dashboard.Prepare` | app.py:22-85 | the layer succeeds exactly when all five metrics occur, every daily table has a "Date" header and every daily table has a matching header; the first failing step in script order (metric lookups, "Date" selections, column detection) decides the error, which is that step's own error; on success the cards and columns are what the lookups and the detection compute, the profit text formats the last "Gross Profit" row, and the pie rows are the customer rows |
| `Dashboard.MissingDateStopsRun` | app.py:48-49 | a customer table without a "Date" header stops the run with the `KeyError` for "Date" even when all metrics and measure columns are present |

## Left out

- Page layout: page config, title, metric cards, markdown, the pie chart and the three line charts (app.py:8-13, 70-74, 76-78, 87-148). They only display the prepared values.
- Reading the four Excel files (app.py:18-20, 33-43). The model takes the KPI rows and the header lists of the daily tables as inputs. A KPI sheet without a "Metric" or "Value" column raises `KeyError` at app.py:22; the model starts from rows already split into metric and value, so that failure is not modelled.
- Date normalisation with `pd.to_datetime(..., errors="coerce", dayfirst=True)` (app.py:48-58). Its date grammar lives inside pandas, outside this model. The model keeps only the headers of the daily tables, not their rows: it checks that each has a "Date" header (`Dashboard.RequireDateColumns`) but does not convert the dates.
- `KpiIndex.ReadKpis`: every KPI value is a whole number here. The `int(...)` truncation of fractional values and the `float(...)` conversion of the retention value (app.py:24-28) are not modelled, and the retention value is carried as the row's value.
- The retention card text `f"{avg_retention}%"` (app.py:76) is floating-point formatting and is not modelled.
- `ColumnDetection.Lower`: lower-casing covers ASCII letters only, not Python's full Unicode `str.lower`, so `ColumnDetection.ResolveColumn` can differ from the script on headers with non-ASCII capitals. Headers are assumed to be strings. Pandas also allows numeric column labels, which have no `.lower()`.
- `ProfitDisplay.FormatProfit`: the `f` presentation type converts a Python `int` to a float before formatting. The model writes the exact integer digits. Its text therefore matches only for magnitudes up to 2^53. Larger profits are rounded by Python but not by the model.
- `PieSlice.PieRows`: metric cells that are not strings (such as an empty cell read as NaN) are not modelled. Every metric is a string here.
