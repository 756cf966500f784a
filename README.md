# Participant open-interest analytics: a Dafny model

This project models the core of a Streamlit tool that tracks the NSE's daily
"participant wise open interest" report. A user uploads the day's CSV or Excel
file. The tool:

- finds the report's date, from the file name, the title row or a `Date` column;
- resolves the header row, so that the table gets a `Date` column;
- refuses an upload whose dates are already stored;
- runs the analytics engine `process_data` on the new rows;
- merges the result into the stored table and re-sorts it;
- lays the table out under a three-layer header, both for the HTML view and for
  export.

Modules, one per concern:

- `Wrappers` (`wrappers.dfy`): `Option`.
- `Text` (`text.dfy`): the character classes, stripping, upper-casing and
  substring tests that the regular expressions and the string checks of the
  source rely on.
- `Dates` (`dates.dfy`): calendar dates as pandas holds them. A value counts as
  a date only if it is a real day inside the range of a nanosecond `Timestamp`.
  This module also holds the day-first parse of `pd.to_datetime(...,
  dayfirst=True, errors='coerce')` and the raw `Date` cell.
- `Ordering` (`ordering.dfy`): the key `(Date descending, Client Type
  ascending)` and a stable sort by it (`sort_values`).
- `Calculations` (`calculations.dfy`): `process_data`. The table is a sequence
  of records.
  - Raw counts are `int`.
  - Ratios and percentages are exact `real`.
  - Missing values are `Option`.
  - A pandas division result is a `Float`: a finite value, `NaN` or an infinity.
  - The group difference and the group shift pair each row with the next row
    of the same `Client Type` (`OlderIndex`).
- `Submit` (`submit.dfy`): the "Submit & Process" handler. It is a class `App`
  holding the database table and the session table, with a method
  `SubmitAndProcess` that changes them.
- `Display` (`display.dfy`): the header structure and what is built from it:
  - its three flattening loops (one method per loop level, proved against the
    flattening functions);
  - the export column order and the export header rows;
  - the HTML table's group filtering, colspans, cell format and row bands.
- `FileProcessing` (`file_processing.dfy`):
  - the two date extractors;
  - the column resolution of `read_file_smart`;
  - the date source priority of `peek_file_for_date`.

  A file is abstract: every read of it is an input that either yields a table or
  raises.

Three behaviours of the code are easy to misread, and the model states them as
the code has them:

- The handler does not dedupe dates or re-run the engine over the whole table:
  - it refuses an upload with a stored date;
  - it processes only the uploaded rows;
  - it appends the stored rows unchanged.

  `Submit.UploadedRowsHaveNoChange` and `Submit.SavedColumnsAreNotRecomputed`
  state the consequence: a one-day upload is saved with every difference column
  null, even when the database holds the previous day.
- A percent change against a zero base is an infinity with the numerator's sign,
  or NaN for 0/0, as float64 division gives (`Calculations.Percent`).
- The per-date share divides by the column sum of all rows of the date, a `TOTAL`
  row included. `Calculations.TotalRowCountsInDateShare` states the effect: on a
  date whose `TOTAL` row holds as much as the other rows together, that row's
  share is 50 and every share is half of the row's count as a percentage of the
  `TOTAL` row's.

## Model

| member | source | states |
|---|---|---|
| Dates.FormatParseRoundTrip | app.py:160 | a date written `DD.MM.YYYY` is read back, day first, as the same date |
| Dates.ParseDayFirst | app.py:160 | a numeric date `A<sep>B<sep>YYYY` is read day first, falling back to month first when only that reading gives a month; any result is a valid date; text of another shape is no date |
| Dates.MonthFirstFallback | utils/calculations.py:52 | `12/13/2025` is read month first, as 13 December 2025 |
| Dates.AmbiguousIsDayFirst | utils/calculations.py:52 | `05/12/2025` is read day first, as 5 December 2025 |
| Dates.CoerceIdempotent | utils/calculations.py:52 | coercing a `Date` cell that is already coerced changes neither the cell nor the date read from it |
| Dates.BeforeIsStrictTotal | utils/calculations.py:56 | the order on dates is irreflexive, transitive, total and asymmetric |
| Ordering.KeyLeTotal | utils/calculations.py:56 | any two `(Date, Client Type)` keys are comparable |
| Ordering.KeyLeTransitive | utils/calculations.py:56 | the key order is transitive |
| Ordering.SortBy | utils/calculations.py:56 | `sort_values(['Date','Client Type'], ascending=[False, True])`: the result is sorted by the key and is a permutation of the input |
| Ordering.SortSortedIsIdentity | app.py:196 | sorting a table that is already in key order leaves it unchanged |
| Ordering.SortByIsStable | utils/calculations.py:56 | the sort is stable: rows sharing a key come out in their input order |
| Calculations.Clean | utils/calculations.py:52-53 | each kept row is the parse of some raw row; every raw row whose date parses is kept; nothing is dropped exactly when every date parses |
| Calculations.CleanIsRowByRow | utils/calculations.py:52-53 | `dropna` works row by row: the rows kept from a concatenation are those kept from each part, in order, and one row is kept, parsed, exactly when its date parses |
| Calculations.LatestDate | utils/calculations.py:60 | the latest date is the date of some row and no row is later |
| Calculations.StampSpot | utils/calculations.py:58-61 | only `Nifty Spot` changes; rows on the latest date get the spot price; rows on an earlier date keep their value |
| Calculations.OlderIndex | utils/calculations.py:70 | the row that `diff(periods=-1)` within a `Client Type` group pairs row i with: the next row of the same client, or none when no later row has that client |
| Calculations.LongShortRatio | utils/calculations.py:82-85 | long over short when short is not 0, exactly 0 otherwise |
| Calculations.Percent | utils/calculations.py:88-91 | NaN when either side is missing; otherwise 100·num/den for a non-zero den; with a zero den, NaN for 0/0, +infinity for a positive numerator and −infinity for a negative one |
| Calculations.ChangeAt | utils/calculations.py:70-79 | a group difference at row i is the value minus the same client's next row's value, or null without one |
| Calculations.PercentChangeAt | utils/calculations.py:88-91 | a percent change at row i is the change against the same client's next row, as a percentage of that row's value; NaN without one |
| Calculations.OptionsOfOldestRow | utils/calculations.py:70-73 | on a client's oldest row `NET CALL (CoC)`, `NET PUT (CoC)`, `NET DIFF` and `Option ROC` are null |
| Calculations.FuturesOfOldestRow | utils/calculations.py:77-91 | on a client's oldest row the futures ROC and absolute changes are null and both percent changes NaN |
| Calculations.OldestRowHasNoChange | utils/calculations.py:70-109 | a client's oldest row has every difference, percent change and ROC column null |
| Calculations.OptionChangeAgainstOlderRow | utils/calculations.py:70-71 | `NET CALL (CoC)` and `NET PUT (CoC)` are the change of `Abs Change Call`/`Put` against the same client's next older row, date gaps skipped |
| Calculations.FuturesChangeAgainstOlderRow | utils/calculations.py:77-106 | futures ROC, absolute changes and percent changes are taken against the same client's next older row |
| Calculations.NiftyDiffAgainstOlderRow | utils/calculations.py:109 | `Nifty Diff` is the spot minus the same client's next older row's spot |
| Calculations.OptionRocNeedsTwoOlderRows | utils/calculations.py:72-73 | `Option ROC` is a difference of differences: null unless the client has two older rows, else the change of `NET DIFF` across them |
| Calculations.OptionIdentities | utils/calculations.py:64-72 | `Option NET == Abs Change Call - Abs Change Put` and `NET DIFF == NET CALL (CoC) - NET PUT (CoC)` |
| Calculations.FuturesIdentities | utils/calculations.py:76-101 | net is long minus short, `ROC == Abs Chg Long - Abs Chg Short`, and the L/S ratio follows the zero-fallback rule |
| Calculations.NetsAreLongMinusShort | utils/calculations.py:76-94 | `Future Net` and `Stk Fut Net` are long minus short |
| Calculations.DateShareRule | utils/calculations.py:112-113 | each `Future Total ... %` entry is the row's count as a percentage of its date's column sum |
| Calculations.DateSharesSumToHundred | utils/calculations.py:112-113 | for a date with a non-zero sum, that date's shares, a `TOTAL` row included, add up to 100 |
| Calculations.TotalRowCountsInDateShare | utils/calculations.py:112-113 | for any rows and count column, a row holding as much as the other rows of its date together has share 50, and every share on that date is half of the row's count as a percentage of that row's |
| Calculations.ProcessDataTable | utils/calculations.py:48-115 | `process_data` keeps the parsed rows as a permutation in canonical order; rows of the latest date get the given spot, rows of every earlier date keep their own, nothing else changes; each row is derived over the processed table |
| Calculations.OlderRowIsPreviousDate | utils/calculations.py:56-70 | in canonical order, the row a difference pairs with is the same client's closest older date present |
| Calculations.DistinctClientsHaveNoChange | utils/calculations.py:70-109 | with one row per client, no row has a difference |
| Calculations.OneRowPerClientHasNoChange | utils/calculations.py:48-115 | `process_data` over a one-row-per-client upload nulls every difference column |
| Submit.CoerceDates | app.py:160 | the date column is replaced by its day-first coercion, row for row |
| Submit.Unique | app.py:161 | `unique()`: no repeats, the same members, never longer |
| Submit.UniqueSnoc | app.py:161 | `unique()` keeps first appearances: a new date goes at the end, a repeated one adds nothing |
| Submit.UploadDates | app.py:160-161 | `new_dates` are exactly the distinct dates that parse, without repeats |
| Submit.StoredDates | app.py:178 | the dates of the stored table |
| Submit.Clashes | app.py:179 | the upload dates that are also stored, and only those |
| Submit.ClashesAppend | app.py:179 | the clashes keep the order of `new_dates`: a concatenation's clashes are each part's, in order, and one date clashes exactly when it is stored |
| Submit.App.SubmitAndProcess | app.py:153-202 | no file, or an unreadable one, changes nothing; a clashing date refuses the upload with those dates and saves nothing; otherwise database and session both become the processed upload merged with the table read, and the message counts `new_dates`; when the cloud read fails (app.py:164-169) there is no clash check and the stored rows are replaced by the processed upload alone |
| Submit.CoerceKeepsProcessData | app.py:160-187 | `process_data` on the already coerced upload equals it on the raw upload |
| Submit.CoerceKeepsDates | app.py:160-161 | reading `new_dates` after the coercion gives the dates of the raw upload |
| Submit.UploadDatesAtMostRows | app.py:200 | the reported date count is at most the number of rows |
| Submit.MergeKeepsEveryRow | app.py:189-196 | the saved table holds exactly the processed and the stored rows, sorted, and every stored row as it was |
| Submit.ProcessedIsSorted | app.py:187 | `process_data`'s output is already in canonical order |
| Submit.MergeIntoEmpty | app.py:190-196 | with an empty database the saved table is exactly `process_data`'s output |
| Submit.UploadedRowsHaveNoChange | app.py:187-191 | a one-row-per-client upload is saved with every difference column null, whatever is stored |
| Submit.SavedColumnsAreNotRecomputed | app.py:187-199 | a saved new row's `NET CALL (CoC)` is null where recomputing over the saved table would give a number |
| Display.Flatten | utils/display.py:497-536 | the nested loops over groups, subgroups and columns give one layer of the flattened header |
| Display.GetDisplayColumns | utils/display.py:497-504 | the column names of the header structure, in declaration order |
| Display.GetHeaderRows | utils/display.py:507-524 | group names, subgroup names and column names, one per column; the third layer is the display columns |
| Display.GetColumnColors | utils/display.py:527-536 | each column's group colour, as many as display columns |
| Display.CellPosition | utils/display.py:497-536 | column k of subgroup s of group g sits after every column of the earlier groups and subgroups, with its group, subgroup and colour |
| Display.CellOwner | utils/display.py:497-536 | every flattened entry belongs to a column of some subgroup of some group |
| Display.ColumnColorIsOwnersColor | utils/display.py:507-536 | entry i of the colours, group layer and subgroup layer belong to the group and subgroup owning display column i |
| Display.DisplayStartsWithDateAndClientType | utils/display.py:6-15 | the display order starts with `Date`, then `Client Type` |
| Display.DisplayColumnsAreNames | utils/display.py:497-504 | the display columns are the column names of the groups, group after group and subgroup after subgroup |
| Display.HeaderColumnsAreDistinct | utils/display.py:5-69 | the header structure names 27 display columns, in the declared order, none twice |
| Display.HeaderExportIsPermutation | utils/display.py:573-579 | for the real header, the export column order of a table with unique labels is a permutation of its columns |
| Display.Keep | utils/display.py:574 | `[c for c in xs if c in ys]`: the kept members, in order |
| Display.Drop | utils/display.py:576 | `[c for c in xs if c not in ys]`: the dropped members, in order |
| Display.KeepDropElementwise | utils/display.py:574-576 | both comprehensions work element by element: a concatenation gives each part's result, in order, and one element is kept exactly when it is in `ys`, dropped exactly when it is not |
| Display.ExportColumnOrderIsPermutation | utils/display.py:573-579 | the display columns present, in display order, then the others in their own order; with unique labels a permutation of the table's columns |
| Display.PrepareExportData | utils/display.py:539-581 | the exported table has that column order, one row per input row, and each row's cells are the input row's cells reordered to that column order |
| Display.Reorder | utils/display.py:579-581 | `df[final_cols]` on one row: cell j is the input cell under column `final_cols[j]` |
| Display.FilterHeaderLayers | utils/display.py:598-608 | the loop over `enumerate(display_cols)` keeps the layer entries of the columns present |
| Display.ExportWithHeaders | utils/display.py:584-619 | three filtered header rows, the third being the display columns present, then the export rows |
| Display.PrepareExportWithHeaders | utils/display.py:584-621 | the first two header rows are the group and subgroup names of the present display columns, the third those columns; then each exported row; colours unfiltered |
| Display.AppendRows | utils/display.py:617-619 | the data rows follow the header rows in order |
| Display.FilterSubgroups | utils/display.py:315-320 | a subgroup is kept with its present columns when it has any |
| Display.FilterGroups | utils/display.py:311-325 | a group is kept with its kept subgroups when it has any |
| Display.FilteredGroupsKeepPresentCells | utils/display.py:311-325 | filtering keeps exactly the header cells of the present columns, in order and under the same group, subgroup and colour |
| Display.FilteredColumnsArePresentDisplayColumns | utils/display.py:327-332 | `all_display_cols` is the display columns that are present, in display order |
| Display.FilteredGroupsAreNonEmpty | utils/display.py:311-325 | no kept group lacks subgroups and no kept subgroup lacks columns; every kept column is present |
| Display.SpanCountsCells | utils/display.py:349-350 | a group's first-row colspan is the number of its columns |
| Display.TotalSpanCountsCells | utils/display.py:348-366 | the first-row colspans add up to the number of third-row headers |
| Display.GroupSpans | utils/display.py:348-354 | one colspan per group, each its number of columns |
| Display.NumberFormat | utils/display.py:292-299 | `Ratio` in the name first, then `%`, then the Nifty columns with two decimals, else a grouped integer |
| Display.FormatValueWithClass | utils/display.py:281-306 | NaN is `-` with no class; `negative-value` exactly for a number below zero; numbers take their column's format; anything else is shown as text |
| Display.FormatRow | utils/display.py:390-396 | one formatted cell per shown column, `-` text for a missing one |
| Display.TableBody | utils/display.py:373-397 | the first row is in band 2; the band flips exactly when the date changes; a row is a total row exactly when its upper-cased client type contains `TOTAL`; every cell is formatted |
| Display.GenerateTableLayout | utils/display.py:309-397 | the filtered groups, their colspans, the present display columns in order, and the classes and cells of every row |
| FileProcessing.FindEightDigits | utils/file_processing.py:29-30 | the leftmost position of eight consecutive digits, or none |
| FileProcessing.ExtractDateFromFilename | utils/file_processing.py:24-37 | none without a run of eight digits; otherwise the first run read as DDMMYYYY: its date when valid, none when not |
| FileProcessing.FilenameRoundTrip | utils/file_processing.py:24-37 | a name holding a valid date as `DDMMYYYY` after a digit-free prefix yields that date |
| FileProcessing.FilenameUsesFirstRunOnly | utils/file_processing.py:29-37 | an invalid first run gives no date even when a later run is valid |
| FileProcessing.FilenameSecondRunAlone | utils/file_processing.py:29-37 | the same later run alone gives its date |
| FileProcessing.FindTitle | utils/file_processing.py:12-13 | the leftmost position where the `as on` pattern matches, or none |
| FileProcessing.MonthNumber | utils/file_processing.py:18 | `%b`: a month number exactly when the word spells that month's abbreviation in any case |
| FileProcessing.MonthNumberOfSpelling | utils/file_processing.py:18 | any spelling of an abbreviation maps to its month |
| FileProcessing.MonthNameRoundTrip | utils/file_processing.py:18 | a month's abbreviation reads back as that month |
| FileProcessing.ExtractDateFromTitle | utils/file_processing.py:7-21 | none without a match; otherwise the leftmost match's month, day and year: their date when the month is an abbreviation and the date is valid, none otherwise |
| FileProcessing.TitleOfPhrase | utils/file_processing.py:12-21 | a title whose first `as on` starts `as on <word> <d> [,] <yyyy>` yields the date of the word's month, or none when the word is no abbreviation or the day is invalid, whatever precedes or follows |
| FileProcessing.TitleRoundTrip | utils/file_processing.py:7-21 | a title saying `as on Mon DD, YYYY` for a valid date, after any text with no earlier `as on`, yields that date |
| FileProcessing.TitleRefusesFullMonthName | utils/file_processing.py:18 | a full month name is refused by `%b` |
| FileProcessing.TitleIgnoresCase | utils/file_processing.py:12-13 | the pattern and the month ignore case, and the comma is optional |
| FileProcessing.DocumentedTitle | utils/file_processing.py:8-10 | NSE's title row `Participant wise ... Equity Derivatives as on Dec 05, 2025` yields 5 December 2025 |
| FileProcessing.StripAll | utils/file_processing.py:68 | every column name stripped |
| FileProcessing.Rename | utils/file_processing.py:92 | the column renamed, every other kept |
| FileProcessing.WithDate | utils/file_processing.py:85 | a `Date` column added at the end, or kept where it is |
| FileProcessing.ExtractedDateFromTitleFirst | utils/file_processing.py:47-59 | the title date is preferred over the file name date |
| FileProcessing.StripAllIsStripped | utils/file_processing.py:68 | the stripped names have no surrounding whitespace |
| FileProcessing.ReadFileSmart | utils/file_processing.py:40-102 | a failing read gives none; a row-0 header with `Date` is returned as read; otherwise the row-1 rules; any result has a `Date` column and stripped names |
| FileProcessing.ReadRowOneHeader | utils/file_processing.py:73-98 | with `Client Type`, the extracted date fills `Date`, or the column before `Client Type` becomes `Date`; a first-column `Client Type` without `Date` gives none |
| FileProcessing.FirstValidDate | utils/file_processing.py:135-138 | the first cell that parses, day first, or none when none does |
| FileProcessing.DateColumnDate | utils/file_processing.py:131-138 | the first date among the first five cells of a `Date` column |
| FileProcessing.PeekFileForDate | utils/file_processing.py:105-164 | the file name first, then the title row, then a `Date` column (row-0 header, then row-1 for CSV); the source is named exactly when a date is found; a failure gives `(None, None)` |

## Left out

- The network call `fetch_nifty_closing_price` (yfinance): the spot price is a parameter of `process_data` and of `SubmitAndProcess`.
- Google Sheets and the CSV database (`utils/google_sheets.py`, `utils/database.py`): the stored table is the `database` field of `Submit.App`. Which store is used is not modelled; whether the table could be read is the `storeRead` input of `SubmitAndProcess` (`load_from_google_sheets` returns `None`, utils/google_sheets.py:120-126, 163-165). A failed CSV save fallback writes the same table, so it is not a separate case.
- Streamlit outside the submit handler: session state, sidebar, diagnostics, HTML components, download buttons. Messages are the `Outcome` values.
- The CSS and JavaScript strings of `utils/display.py` and `generate_calendar_html`. The HTML text itself is also left out; the table layout is returned as data.
- Float rendering (`:.2f`, `:,.0f`): only which format a cell gets is modelled.
- File reading, `seek` and the CSV/Excel parsers: every read of a file is an input. The separate `nrows=5` reads are modelled as separate reads of the same header row. The rows of the frame `read_file_smart` returns are not modelled, only its columns and the date it writes. `dropna(how='all')` on the row-1 table is left out.
- `Dates.ParseDayFirst`: the day-first parse reads only `D[D]<sep>M[M]<sep>YYYY` with `.`, `/` or `-`, resolving the two numbers as dateutil does (day first, month first when only that gives a month). The many other formats pandas guesses are left out.
- `Dates.ToDatetime`: pandas 2 guesses one format from the first non-null string of a column and applies it to every cell; a cell that does not fit that format becomes NaT. The model parses each cell on its own. So in a column that mixes separators or orders, the model can read a date where pandas gives NaT, or read it the other way round (`["12/13/2025", "05/12/2025"]` is 13 December and 12 May in pandas, 13 December and 5 December here).
- `Text`: `\d`, `\s`, `[A-Za-z]`, `IGNORECASE` and `upper()` are modelled on ASCII only.
- `Display.ExportColumnOrderIsPermutation`: the permutation requires unique column labels. With repeated labels pandas' `df[final_cols]` behaves differently.
- `Display.PrepareExportData`: models the column order and the reordering of each row only. The sort by date and client type and the cell formatting inside `prepare_export_data` are left out.
- `Display.FormatValueWithClass`: cell values are missing, a number, an infinity, or other. A Python `bool` (an `int` to `isinstance`) and the `except` fallback are not modelled.
- `Display.GetDisplayColumns`, `Display.GetHeaderRows` and `Display.GetColumnColors`: these share one traversal, `Flatten`, projected to the layer each one keeps.
- `Display.PrepareExportWithHeaders`: it delegates its header filtering to `ExportWithHeaders`, which takes the display columns as the third layer. `get_header_rows` returns the same list.
- `Submit.App.SubmitAndProcess`:
  - stored rows with an unparseable date are not modelled; the stored table holds processed rows;
  - the check against the stored dates runs only when the database is non-empty, as in the source; the model also states that skipping it loses nothing;
  - the `try` failures of `read_file_smart` reach the handler as `Unreadable`;
  - an upload none of whose `Date` cells parse, and which has no `Nifty Spot` column, leaves `process_data` an empty frame: line 61 of utils/calculations.py is skipped, so the column is never created, and `groupby('Client Type')['Nifty Spot']` at line 109 raises `KeyError`. app.py:187 does not catch it and nothing is saved. Rows are typed records with a spot field, so the model cannot tell a missing column from empty cells; it reports `Saved(0)` and saves the stored rows again, sorted;
  - an upload that has a `Date` column but lacks `Client Type` or a position column makes `process_data` raise `KeyError` (utils/calculations.py:56, 64); app.py:187 does not catch it, so nothing is saved. Uploaded rows are typed records, so this path is not modelled, and the model always reaches `Saved` once the dates are new.
- `Calculations.ProcessData`:
  - `process_data` mutates the caller's `Date` column in place. The model returns a new table; the effect on the caller is covered by `Submit.CoerceKeepsProcessData`.
  - a missing `Client Type` or position column raises `KeyError` in the source; the model's rows always hold them.
  - a blank count cell (NaN in a float column) is not representable: counts are `int`.
