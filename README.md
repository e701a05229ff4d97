# NTN-B ceiling dashboard: a Dafny model of its core

`app.py` is a Streamlit dashboard. It fetches ANBIMA's daily table of
indicative rates for NTN-B bonds, which are Brazilian inflation-linked
treasury bonds. It turns the table into a series indexed by maturity. For the
maturity the user picks, it then tabulates ceiling rates: the rate composed
with a spread, and a nominal rate, each lowered by a reserve that grows over
21 steps.

This project models the logic of that program:

- **`calendar.dfy`** (module `Calendar`) covers `calcular_data_util`. It
  models proleptic Gregorian dates, numbered the way Python's
  `date.toordinal()` numbers them, and their weekdays. `LastBusinessDay`
  takes today's date and returns the day before it. When that day is a
  Saturday it moves back one more day, and when it is a Sunday two more.
- **`source_url.dfy`** (module `SourceUrl`) covers the address the page is
  fetched from. It builds the `%d%b%Y` token in lower case from the pt_BR
  month abbreviations (`jan fev mar abr mai jun jul ago set out nov dez`) and
  places it between the fixed prefix and suffix. It also reads a token and an
  address back, which shows that the address determines the date.
- **`extraction.dfy`** (module `Extraction`) covers the cleanup that
  `atualizar_ntnb` performs on the tables `pd.read_html` returns. `Concat`
  and `Reshape` are values. The DataFrame `ntnb` is the class `Frame`, whose
  `DropColumnsAt`, `DropRows` and `Rename` methods change it in place, as the
  `inplace=True` calls do. `SetIndex` returns the series indexed by maturity.
  `CleanTables` runs the whole sequence. It is proved equal to `Cleaned`, a
  direct statement of the result: from the sixth stacked row on, column 2
  becomes the index, and column 5 followed by the columns after the eleventh
  becomes the rows.
- **`ceiling.dfy`** (module `Ceiling`) covers `calcular_tabela`. It keeps
  the literal reserve column, the compounded rate
  `(1 + ref/100)(1 + spread/100) - 1` and both ceiling columns as exact
  reals. The reserve labels are text, `f'{r*100:.2f}%'`.
- **`decimal.dfy`** (module `Decimal`) holds the zero-padded and plain
  decimal numerals used by the date token and the reserve labels, together
  with their readers.
- **`wrappers.dfy`** (module `Wrappers`) holds `Option` and `Result`.

Where the code raises an exception, the model returns an error value:

- `OverflowError` on the first representable day is `None`.
- `ValueError`, `IndexError` and `KeyError` from pandas are the constructors
  of `ExtractError`.

Two behaviours of the code are worth stating plainly:

- The weekend rollback counts from yesterday (app.py:20-25). It subtracts one
  more day when yesterday is a Saturday and two more when it is a Sunday. Both
  land on the Friday before.
- The extraction has no error type of its own. It fails with whatever pandas
  or NumPy raises, and `ExtractError` gives each of those failures its own
  constructor.

## Model

| member | source | states |
|---|---|---|
| Calendar.Prev | app.py:20 | `d - timedelta(days=1)`: fails exactly on the first representable day; otherwise a valid date whose day number is one less |
| Calendar.Back | app.py:23-25 | `d - timedelta(days=k)`: fails exactly when fewer than `k` days precede `d`; otherwise a valid date `k` day numbers earlier |
| Calendar.LastBusinessDay | app.py:18-27 | fails only on the first representable day; otherwise the result is a valid weekday, strictly before today and at most three days back, and only weekend days lie between it and today |
| Calendar.Rollback | app.py:22-25 | going back 1 day from a Saturday, 2 from a Sunday and 0 otherwise always succeeds and reaches a weekday at most three days before today, with only weekend days in between |
| Calendar.LastBusinessDayIsLatest | app.py:18-27 | every weekday strictly before today is on or before the result, and a weekday with the result's day number is the result, so the result is the latest weekday before today |
| Calendar.LastBusinessDayFromYesterday | app.py:20-27 | a weekday yesterday is returned as is; a Saturday yesterday is moved back one day and a Sunday yesterday two days |
| Calendar.DayNumberInjective | app.py:20 | distinct valid dates have distinct day numbers, so the ordinal arithmetic of `timedelta` names exactly one date |
| Calendar.DaysBeforeYearClosedForm | app.py:22-24 | the days before year `y` are `365(y-1)` plus the Gregorian leap days, the count `toordinal` uses |
| Calendar.DayNumberZero | app.py:20 | day numbers are non-negative and zero only on 0001-01-01 |
| Decimal.PaddedRoundTrip | app.py:33 | a zero-padded numeral (`%d`, `%Y`) reads back as the number it was written from |
| Decimal.DecimalString | app.py:92 | the integer part of a `.2f` rendering: at least one digit, all digits, no leading zero |
| Decimal.DecimalStringRoundTrip | app.py:92 | the integer part of a `.2f` rendering reads back as the number written |
| SourceUrl.DateToken | app.py:33 | the nine-character lower-case token: two-digit day, the pt_BR month abbreviation, four-digit year |
| SourceUrl.NtnbUrl | app.py:36 | the address is the fixed prefix, then the date token, then the fixed suffix |
| SourceUrl.TokenRoundTrip | app.py:33 | reading the token back gives the date it was written from |
| SourceUrl.UrlRoundTrip | app.py:33-36 | reading the address back gives the date it was built from |
| SourceUrl.UrlInjective | app.py:33-36 | different dates are fetched from different addresses |
| SourceUrl.MonthNumberOfAbbreviation | app.py:33 | every month's pt_BR abbreviation reads back as that month |
| Extraction.Concat | app.py:53 | `pd.concat`: fails on no tables (NoTables) or mixed widths (MismatchedWidths); otherwise one rectangular table of the common width whose rows are those of the tables, first table first, each table's rows in order (`Stack`) |
| Extraction.StackAppend | app.py:53 | concatenating two runs of tables stacks the rows of the first before those of the second |
| Extraction.StackIndex | app.py:53 | row `j` of table `i` is row `RowCount(tables[..i]) + j` of the concatenation |
| Extraction.ChunkFlatten | app.py:56-57 | cutting a rectangular grid's row-major cells back into rows of its width gives the grid back |
| Extraction.Reshape | app.py:56-57 | `to_numpy().reshape(-1, width)` fails exactly when the width is zero and otherwise gives back the same grid |
| Extraction.KeptPositions | app.py:62-63 | the kept positions are increasing and are exactly the positions whose label is not dropped |
| Extraction.IncreasingUnique | app.py:62-63 | two increasing position lists with the same members are equal, so a drop keeps one column order |
| Extraction.Frame.constructor | app.py:59 | `pd.DataFrame(grid)`: columns labelled 0 to width-1, rows labelled 0 to n-1, the grid's cells |
| Extraction.Frame.DropColumnsAt | app.py:62 | fails, leaving the frame unchanged, when a position is past the last column; otherwise every column whose label is at a listed position goes, the others stay in order, and the index is unchanged |
| Extraction.Frame.DropRows | app.py:63 | fails, leaving the frame unchanged, when a label is not a row label; otherwise the listed rows go, the others stay in order, and the columns are unchanged |
| Extraction.Frame.Rename | app.py:66 | labels in the mapping are replaced, the others kept; cells and index unchanged |
| Extraction.Frame.SetIndex | app.py:70 | fails with MissingColumn without the key and with RepeatedColumn when it labels several columns; otherwise the key column's cells, in row order, become the maturities and the other columns stay in order |
| Extraction.CleanTables | app.py:53-70 | the whole cleanup returns exactly `Cleaned(tables)` |
| Extraction.CleanFrame | app.py:59-70 | the in-place cleanup of the rebuilt frame returns exactly `CleanedGrid(grid)`, with TooFewColumns and TooFewRows for the failed drops |
| Extraction.DropDecorationColumns | app.py:62 | succeeds exactly when the grid has at least eleven columns; then the columns are 2, 5 and 11 onward and every row is cut down to those cells |
| Extraction.DropCaptionRows | app.py:63 | succeeds exactly when there are at least five rows; then the first five rows are gone, the rest are kept in order, and they keep their labels 5 to n-1 |
| Extraction.IndexByMaturity | app.py:66-70 | renaming columns 2 and 5 and indexing by the maturity gives exactly `CleanedGrid(grid)` |
| Extraction.CleanedSucceeds | app.py:53-70 | the cleanup succeeds exactly when there is at least one table, all of one width, at least eleven columns wide, with at least five rows in total |
| Extraction.CleanedKeepsOrder | app.py:53-70 | row `j` of table `i`, past the five caption rows, has its maturity (column 2) and its rate row (column 5, then columns 11 on) at position `RowCount(tables[..i]) + j - 5` of the series |
| Ceiling.ReserveIsProgression | app.py:80-81 | the literal reserve column has 21 entries, entry `i` being `-i/2000` |
| Ceiling.ReserveDescending | app.py:80-81 | the reserves fall strictly from 0 to -0.01 |
| Ceiling.ComposedRate | app.py:84 | the compounded rate is the sum of the two rates plus their cross term |
| Ceiling.CeilingTable | app.py:75-97 | 21 rows; row `i` shows the reserve `-5i` hundredths of a point and lowers the compounded ceiling and the nominal ceiling by `i/20` points |
| Ceiling.CeilingSteps | app.py:85-88 | both ceilings fall by 0.05 points per row, one point from the first row to the last |
| Ceiling.NominalEnds | app.py:88 | the nominal column runs from the nominal rate down to one point below it |
| Ceiling.ZeroSpreadKeepsReference | app.py:84-85 | with no spread and no reserve the NTN-B ceiling is the reference rate |
| Ceiling.CompoundingExceedsSum | app.py:84 | for non-negative rates the compounded ceiling is at least the sum of the rates, and equal to it exactly when their product is zero |
| Ceiling.SpreadRaisesCeiling | app.py:84-85 | a wider spread raises every NTN-B ceiling when the reference rate is above -100% |
| Ceiling.PercentLabel | app.py:92 | `f'{r*100:.2f}%'` of a value in hundredths: ends in a two-digit fraction and `%`, and starts with `-` exactly for negative values |
| Ceiling.PercentLabelRoundTrip | app.py:92 | every reserve label reads back as the value it shows |
| Ceiling.PercentLabelInjective | app.py:92 | distinct reserves get distinct labels |
| Ceiling.ReserveLabelsReadBack | app.py:80-92 | `Reserve[i] * 100`, the value the label formats, is `-5i` hundredths of a point, and row `i`'s label reads back as exactly that: 0.00%, -0.05%, ..., -1.00% |
| Ceiling.DefaultInputs | app.py:153-154 | with the default spread 1.25 and nominal rate 7 and a reference of 6, the first row offers 7.325 and 7, the last 6.325 and 6 |

## Left out

- The Chrome WebDriver (app.py:12-15, 39-47) is not modelled: the page load, the XPath lookup and the HTML it returns are outside the model.
- `pd.read_html` with `thousands='.'` and `decimal=','` (app.py:50) is not modelled: its tables arrive as grids of cells of an abstract type, and the parsing of each cell's text is not modelled.
- `pd.to_datetime` on the maturity column (app.py:69) is not modelled: maturities stay abstract cells.
- `locale.setlocale` (app.py:10) is not modelled: the pt_BR month abbreviations are a fixed table.
- `datetime.now()` (app.py:19) is the parameter `today`: its time of day is dropped, since it affects neither the weekday nor the token.
- Calendar.LastBusinessDay: does not skip public holidays, as the code does not.
- SourceUrl.DateToken: `%Y` is always four zero-padded digits; some C libraries do not pad years before 1000.
- Ceiling.CeilingTable: the two ceiling columns are exact reals, not the `.2f`-rounded strings of app.py:93-94. The model does not capture float rounding, such as 7.325 shown as "7.33%" or "7.32%".
- Ceiling.ComposedRate: Python floats are exact reals here.
- Ceiling.DefaultInputs: states the numbers in the first and last rows, not their rendered labels.
- Extraction.Concat: tables are stacked by position, so every table is taken to carry the column labels 0 to w-1. pandas aligns columns by label, even when the widths are equal. Tables whose labels differ, as when `read_html` turns one table's header row into labels, would give a wider frame padded with NaN. The model does not capture that; tables of different widths are the error MismatchedWidths.
- Extraction.Concat: with no table on the page, `pd.read_html` raises ValueError before `pd.concat` runs. The model reports that case as NoTables from `Concat`.
- Extraction.Reshape: `reshape(-1, width)` on a rectangular grid takes the grid's own row count. The model does not capture the NumPy array as a separate copy.
- Extraction.Frame.SetIndex: returns the indexed series as a value rather than rebinding `ntnb` in place, because the index changes type. A key that labels several columns is the error RepeatedColumn; what pandas does in that case is not modelled (the cleanup never reaches it, as `IndexByMaturity` shows).
- The sidebar, the selection of a maturity with `ntnb.loc` (app.py:143-147), the inputs' bounds and steps (app.py:153-154), the CSS and the display of the table are the user interface and are not modelled.
