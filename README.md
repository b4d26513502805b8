# Store sales workbook to Looker table: a Dafny model

`app.py` reads a source Google workbook, turns it into one clean sales table and writes that
table to a target workbook. This project models the table transformation between the reads and
the write, and proves what it does.

1. **`load_source_data`** walks over the worksheets in workbook order.
   - A worksheet whose title mentions `REKAP` is a store table when the title splits on
     `" - REKAP - "` into exactly two parts. Its records are tagged with the store (`Toko`, the
     trimmed first part) and the stock status (`Status`: `Ready` when the trimmed second part
     starts with `RE`, `Habis` otherwise).
   - A worksheet whose title mentions `DATABASE` but not `BRAND` is the master product table.
     The last such worksheet wins.
   - The store tables are concatenated in worksheet order. The master keeps the first row of
     each product name (`NAMA`).
2. **`process_data`** matches the store rows against the master.
   - Every product name is stringified.
   - An empty name keeps the fallback category `Lain-lain`.
   - Any other name goes to the fuzzy scorer. Its best master name is taken at a score of 85
     or more, with that master name's category. Below 85 the original name is kept with
     `Lain-lain`.
   - The matches are attached to the rows one to one.
3. **Finalisation**, in the same function:
   - `HARGA` and `TERJUAL/BLN` become numbers, with 0 for what does not parse.
   - Rows whose `TANGGAL` does not parse are dropped.
   - The `%Y-W%U` week label is added. This is the Sunday-based week of C's `strftime`,
     proved from calendar arithmetic.
   - The columns are renamed, and the fixed output column list is projected onto the ones
     present.

The model follows the code's own shape:

- The worksheet loop is a `method` with a loop (`Loader.LoadSourceData`), proved equal to a
  specification function (`Loader.LoadSource`).
- `process_data` changes pandas DataFrames in place. It is a method (`Processing.ProcessData`)
  over a `DataFrame` class whose methods assign a column, drop rows and rename columns in place.
  It is proved equal to the function `Processing.Process`.
- The title test, `find_master_data` and the week label are pure functions with lemmas.
- The fuzzy scorer and the pandas parsers are function parameters (`Processing.Library`).

Modules and files:

- `wrappers.dfy`: `Option` and `Result`.
- `strings.dfy`: Python's `in`, `split`, `strip` and `startswith`, and decimal digits.
- `calendar.dfy`: day of year, weekday, `%U` and the week label.
- `frames.dfy`: cells, rows and frames, the pandas operations used, and the `DataFrame` class.
- `loader.dfy`: `load_source_data`.
- `matching.dfy`: `find_master_data`, the category map and the alignment.
- `processing.dfy`: `process_data` as a function and as a method.
- `processing_proofs.dfy`: what `process_data` returns, cell by cell.

Three facts about `app.py` that shape the model:

- The only threshold is 85, at line 94.
- There is no alias table, keyword search, dominant-category fallback or clustering.
- A `REKAP` title that does not split into two parts is skipped. It does not fall back to the
  whole title.

## Model

| member | source | states |
|---|---|---|
| Loader.StoreTitleShape | app.py:61-64 | a store title is part, delimiter, part with no delimiter inside either part; the store is the stripped first part; the status is `Ready` exactly when the stripped second part starts with `RE`, else `Habis` |
| Loader.NoDelimiterIsSkipped | app.py:58-62 | a `REKAP` title without the delimiter is skipped |
| Loader.DelimiterTwiceIsSkipped | app.py:58-62 | a `REKAP` title holding the delimiter twice is skipped |
| Loader.SplitsInThreeOrMore | app.py:61-62 | a title holding the delimiter twice splits into three or more parts |
| Loader.StoreTestFirst | app.py:58-66 | a title mentioning `REKAP` is never taken as the master, whatever else it contains |
| Loader.RecordsFrame | app.py:60 | `pd.DataFrame(records)` holds exactly the worksheet's records as its rows, under the header's columns; with no records it has no columns |
| Loader.StoreTableRow | app.py:60-64 | a store table has one row per record of its worksheet, and row `i` is record `i` with `Toko` and `Status` set |
| Loader.StoreTablesExactly | app.py:57-65 | the kept tables are the tagged store worksheets, one per store title, in worksheet order; a worksheet is kept exactly when its title is a store title |
| Loader.StoreTableAt | app.py:57-65 | the `m`-th kept table is the tagged worksheet at the `m`-th store index |
| Loader.MasterIsLastDatabaseSheet | app.py:66-67 | the master is the last worksheet whose title is a master title |
| Loader.NoMasterWithoutDatabaseSheet | app.py:66-71 | without a master title there is no master |
| Loader.LoadStep | app.py:57-67 | one more worksheet appends its tagged table when it is a store, and replaces the master when it is one |
| Loader.LoadSourceData | app.py:57-75 | the worksheet loop returns what `LoadSource` specifies: nothing when no store table was kept, no master was found or the master has no `NAMA`; otherwise the concatenation and the de-duplicated master |
| Loader.CombinedRowsTagged | app.py:57-73 | the combined table is the concatenation of the kept tables; row `i` of the `m`-th kept worksheet sits after the rows of the kept worksheets before it, as that record tagged with its store and status |
| Loader.ConcatenatedRowAt | app.py:63-73 | in the concatenation of the kept tables, each kept record sits tagged after the rows of the worksheets kept before it |
| Loader.CombinedRowSource | app.py:57-73 | the combined table holds nothing but the kept records: each of its rows is some record of a kept worksheet, tagged, at the place `CombinedRowsTagged` gives it |
| Loader.KeptTableSize | app.py:60-65 | each kept table has one row per record of its worksheet |
| Loader.StoreTableColumns | app.py:60-64 | a store table's columns are its worksheet's header, when it has records, with `Toko` and `Status` |
| Loader.CombinedColumns | app.py:57-73 | a label is a column of the combined table exactly when it is `Toko`, `Status` or a header label of a kept worksheet with records |
| Loader.LoadedCombined | app.py:69-73 | a successful load kept at least one store table, and its combined table is their concatenation |
| Loader.LoadedTableTagged | app.py:63-73 | a loaded combined table has the `Toko` and `Status` columns |
| Loader.FirstOccurrencesExactly | app.py:74 | `drop_duplicates(subset=['NAMA'])` keeps, in order, exactly the rows whose name no earlier row has |
| Loader.FirstOccurrencesKeys | app.py:74 | after de-duplication no name repeats, and every name of the input is still there |
| Loader.LoadedMasterShape | app.py:67-75 | a loaded master has a `NAMA` column, at least one row and no repeated name |
| Loader.DropDuplicates | app.py:74 | de-duplication keeps the columns, and its rows are `FirstOccurrences` of the master's rows, which `FirstOccurrencesExactly` characterises; a row is kept when there was one |
| Frames.ConcatRows | app.py:73 | `pd.concat` keeps every row of every frame in frame order: row `i` of frame `k` sits after the rows of the frames before it, with its own cells and a missing cell under the columns its frame lacks |
| Frames.Locate | app.py:73 | every row of a concatenation is row `i` of some frame `k`, at the place `ConcatRows` gives it, so the concatenation holds nothing else |
| Frames.ConcatColumnsCover | app.py:73 | every frame's columns are columns of the concatenation |
| Frames.ConcatColumnsExactly | app.py:73 | a label is a column of the concatenation exactly when it is a column of one of the frames |
| Frames.ConcatFirstColumnFrom | app.py:73 | every column of a concatenation comes from one of its frames |
| Frames.MergeLabels | app.py:73 | the concatenation's columns are the first frame's columns followed by the new ones, without repeats |
| Frames.MergeLabelsOrder | app.py:73 | the labels added after the first frame's come from the second frame, in its order |
| Frames.KeepPresentExactly | app.py:108 | `dropna(subset=[name])` keeps, in order, exactly the rows with a present cell in that column |
| Frames.PresentIndicesAgree | app.py:108 | which rows `dropna` keeps depends only on the column it looks at |
| Frames.WithColumn | app.py:63-64 | `df[name] = cells` replaces or appends the column and sets that cell in every row |
| Frames.WithColumnReadBack | app.py:87-89 | after `df[name] = cells` the column reads back as `cells` and every other column is unchanged |
| Frames.RenameColumns | app.py:110 | `rename(columns=m)` keeps every column's position and cells under its new label |
| Frames.LabelsPresent | app.py:112 | the list comprehension keeps exactly the listed labels that are columns, without repeats, and any two of them in the order the list gives them (`Follows`) |
| Frames.FollowsUnique | app.py:112 | which labels a list without repeats holds and the order it follows determine it, so the three properties of `LabelsPresent` fix the output columns |
| Frames.Project | app.py:111-112 | the projection has those columns, and each keeps its cells row by row |
| Frames.DataFrame.Assign | app.py:63-64 | the in-place column assignment leaves the DataFrame holding `WithColumn` of its old value |
| Frames.DataFrame.DropNullInPlace | app.py:108 | `dropna(inplace=True)` leaves the DataFrame holding `DropNull` of its old value |
| Frames.DataFrame.RenameInPlace | app.py:110 | `rename(inplace=True)` leaves the DataFrame holding `RenameColumns` of its old value |
| Strings.SplitJoin | app.py:61 | joining the parts of `split(sep)` with `sep` gives the title back |
| Strings.SplitPartsAvoidSeparator | app.py:61 | no part of a split contains the separator |
| Strings.SplitSingleIffAbsent | app.py:61-62 | a split has a single part exactly when the separator does not occur |
| Strings.Strip | app.py:63-64 | `strip()` leaves no white space at either end |
| Strings.StripPadded | app.py:63-64 | `strip()` removes exactly the surrounding white space |
| Matching.FindMasterData | app.py:91-92 | an empty name returns itself with `Lain-lain` without consulting the scorer |
| Matching.MatchDecision | app.py:93-98 | a non-empty name takes the scorer's best master name and its category (or `Lain-lain`) exactly when the score is at least 85, and is kept with `Lain-lain` below 85 |
| Matching.MatchedNameIsMaster | app.py:92-98 | with a scorer keeping its contract, the matched name is the original or a master name; a category other than the fallback is that master name's entry |
| Matching.AcceptedMatchCategory | app.py:89-96 | an accepted match carries the category of a master row holding the accepted name |
| Matching.CategoryMapLastWins | app.py:89 | the category map sends a name to the category of its last row |
| Matching.CategoryMap | app.py:89 | the category map's keys are exactly the master names |
| Matching.MatchAll | app.py:100 | `apply(find_master_data)` gives one match per name, in order |
| Matching.Attach | app.py:100-102 | row `i` of the matched table is store row `i` with match `i`'s name and category; the two columns are appended |
| Calendar.SundayWeek | app.py:109 | `%U` is a week number from 00 to 53 |
| Calendar.WeekCountsSundays | app.py:109 | `%U` counts the Sundays of the year on or before the date |
| Calendar.WeekZeroBeforeFirstSunday | app.py:109 | week 00 holds exactly the days before the year's first Sunday |
| Calendar.MonthsFillYear | app.py:109 | the months tile the year: each month starts where the previous one ends, and December ends where the year does |
| Calendar.DaysBeforeNextYear | app.py:109 | the day count before a year grows by that year's length, so the day count follows the Gregorian leap rule |
| Calendar.NextDayWeekday | app.py:109 | the weekday advances by one from each day to the next, within a year and across the turn of a year |
| Calendar.KnownWeekdays | app.py:109 | 1970-01-01 is a Thursday and 2024-01-01 a Monday |
| Calendar.KnownSundayWeeks | app.py:109 | `%U` puts 2024-01-06 in week 00, 2024-01-07 (the year's first Sunday) in week 01, and 2024-12-31 in week 52 |
| Calendar.WeekLabelRoundTrip | app.py:109 | the `%Y-W%U` label reads back as the date's year and `%U` week |
| Calendar.Pad2 | app.py:109 | the week is printed as two digits |
| Processing.StringifyNames | app.py:86-87 | `astype(str)` on `NAMA` keeps the columns and the rows |
| Processing.CoerceColumns | app.py:105-106 | the loop over `HARGA` and `TERJUAL/BLN` keeps columns and rows, or fails on a missing column of the list |
| Processing.CoerceColumnsFaults | app.py:105-106 | the loop fails exactly when a listed column is missing |
| Processing.CoerceColumnsErrorStays | app.py:105-106 | a missing column stops the loop with its error |
| Processing.CoerceData | app.py:105-106 | the in-place loop leaves the DataFrame as `CoerceColumns` specifies, or returns its error |
| Processing.Weekly | app.py:107-109 | the dated table has one row per parsed date and gains the week column |
| Processing.WeekLabelNotRenamed | app.py:109-110 | adding the week label keeps a table free of renaming clashes |
| Processing.RenameKeepsDistinct | app.py:110 | renaming a table in which no renamed label sits beside its new label keeps the labels distinct |
| Processing.NoLabelClashExamples | app.py:110 | a store table with `Brand (Asli)` and no `BRAND` has no clash; one with both has |
| Processing.Matched | app.py:86-102 | the matched table has the store rows, and the store columns followed by the two match columns |
| Processing.DressData | app.py:107-112 | the in-place date parsing, `dropna`, week label, rename and projection return `Dress` of the coerced table |
| Processing.FinaliseData | app.py:104-113 | the in-place finalisation returns `Finalise` of the matched table |
| Processing.ProcessData | app.py:82-113 | `process_data` returns `Process` of its inputs, and leaves both DataFrames with `NAMA` stringified once it got that far |
| Processing.MatchLabelsNotRenamed | app.py:101-110 | adding the match columns keeps a table free of renaming clashes |
| ProcessingProofs.CoerceColumnsCell | app.py:105-106 | after the loop a listed column holds the number of its old cell, with 0 for what does not parse; every other cell is unchanged |
| ProcessingProofs.DatedIndicesExactly | app.py:107-108 | the rows kept are exactly those whose date parses, in increasing order |
| ProcessingProofs.WeeklyCellAt | app.py:107-109 | row `k` of the dated table is the `k`-th dated row, with its parsed date and that date's week label |
| ProcessingProofs.SourceOfRenamed | app.py:110 | in a table without a renaming clash, each renamed column's source label is the column it came from: the renamed label when the table has it, the label itself otherwise |
| ProcessingProofs.RenamingColumn | app.py:110 | after the rename, a label is a column exactly when its source label was |
| ProcessingProofs.RenamingCell | app.py:110 | after the rename, a column holds its source column's cells |
| ProcessingProofs.OutputColumn | app.py:110-112 | a label is an output column exactly when it is listed and its source label is a column |
| ProcessingProofs.OutputCellAt | app.py:110-112 | each output column holds its source column's cells |
| ProcessingProofs.DressColumn | app.py:107-112 | the finalised columns are the week and each listed label whose source label is a column |
| ProcessingProofs.DressCellAt | app.py:107-112 | each finalised cell is the cell of its dated row that `DressCell` names |
| ProcessingProofs.FinaliseOutcome | app.py:104-112 | finalisation fails exactly when `HARGA`, `TERJUAL/BLN` or `TANGGAL` is missing, always with a missing column |
| ProcessingProofs.ProcessNoChoices | app.py:88-93 | `process_data` fails for want of master names exactly when the master is empty and some store name is not |
| ProcessingProofs.ProcessSucceeds | app.py:86-112 | `process_data` succeeds exactly when the columns it reads are there and the scorer has names whenever it is consulted |
| ProcessingProofs.ProcessOfMatchable | app.py:86-102 | once the matching can run, `process_data` is the finalisation of the matched table |
| ProcessingProofs.ProcessIsDress | app.py:86-112 | a successful `process_data` dresses the matched, coerced table |
| ProcessingProofs.AttachedCellAt | app.py:86-102 | a matched cell is the stringified name, the match, or the store row's own cell |
| ProcessingProofs.MatchedCellAt | app.py:86-106 | a coerced cell is the matched cell, converted to a number in the two numeric columns |
| ProcessingProofs.CoercedKeepsDates | app.py:100-108 | matching and numeric conversion keep the rows whose date parses |
| ProcessingProofs.ProcessColumn | app.py:110-112 | an output column is the week or a match column, or a listed label whose source label the store table has |
| ProcessingProofs.ProcessColumns | app.py:110-112 | the output columns are exactly those, without repeats, in the order of `final_columns_order` (`Follows`) |
| ProcessingProofs.ProcessAlwaysColumns | app.py:107-112 | the output always has the date, week, original name, master name, category and sales columns |
| ProcessingProofs.ProcessCell | app.py:82-113 | each output cell comes from the store row it keeps, as `OutputCell` says |
| ProcessingProofs.ProcessRows | app.py:82-113 | the output keeps, in order, exactly the store rows whose date parses, and fills every column as `OutputCell` says |
| ProcessingProofs.ProcessDateAndWeek | app.py:105-109 | each output row has its parsed date, that date's `%Y-W%U` label and a number in the sales column |
| ProcessingProofs.PriceColumnNotCarried | app.py:105-112 | the converted `HARGA` is not an output column, and `Harga` is one exactly when the store table had it |
| ProcessingProofs.PriceCellsUnconverted | app.py:105-112 | an output `Harga` holds the store table's own cells, unconverted |
| ProcessingProofs.ProcessBrandColumn | app.py:110-112 | `Brand (Asli)` is output exactly when the store table has `BRAND` or `Brand (Asli)` |
| ProcessingProofs.ProcessBrandCell | app.py:110-112 | an output `Brand (Asli)` holds the store rows' `BRAND` cells, or their own `Brand (Asli)` cells when there is no `BRAND`, which `rename` skips |

## Left out

- The Streamlit page, spinners, messages, button flow and `st.cache_data` (app.py:20-25, 46, 70, 78, 85, 104, 138-160). They are presentation only.
- gspread authentication and the worksheet reads and writes (app.py:32-43, 50-53, 59, 67, 116-136). These are network I/O. The workbook is a sequence of `Sheet` values: title, header and records.
- Loader.ValidSheets: every worksheet is assumed readable, with distinct header labels. gspread's `get_all_records()` raises on a header row with a repeated label, such as two blank header cells. A `REKAP` or `DATABASE` worksheet with one, read at line 59 or 67 (even a `REKAP` title the loop then skips), makes the `except` at lines 77-79 return `(None, None)` for the whole workbook. The model does not represent such a worksheet, so it does not capture that failure.
- The `try`/`except` around the loader (app.py:49, 77-79). Only the failure it catches from the code modelled is kept: a master without `NAMA` makes `drop_duplicates` raise, and `LoadSource` returns nothing. Network failures are not modelled.
- The internals of `thefuzz`'s `extractOne` (app.py:12, 93). It is the function parameter `Library.extractOne`. Its contract is `ScorerContract`: it returns one of the choices, with a score from 0 to 100. On an empty master list the unpacking of its `None` fails, and the model reports this as `NoChoices`.
- The parsing inside `pd.to_numeric`, `pd.to_datetime` and `str()` of a number or timestamp (app.py:86-87, 106-107). These are the parameters `parseNumber`, `parseDate` and `show`. Numbers are `real`, so floating-point rounding is not modelled.
- The date parse is per cell: `parseDate` reads one cell on its own. Without a format, `pd.to_datetime` on a whole column (app.py:107) infers one format from the column's first non-missing value. A row's date can then fail, and the row be dropped at line 108, because of the other rows, for example when the store worksheets write dates differently. The model does not capture this dependence between rows.
- Time of day. A parsed timestamp keeps only its date, which is all `%Y-W%U` reads.
- pandas dtypes and the `NaN`/`NaT` distinction. Both are the one missing cell `Null`.
- Processing.Process: requires `NoLabelClash`. The store table must lack the match labels `Nama Produk Master` and `Kategori`, which the concatenation at line 102 would add a second time. It must also not hold a renamed label together with its new name (`NAMA` with `Nama Produk (Asli)`, `BRAND` with `Brand (Asli)`, `TERJUAL/BLN` with `Terjual/Bln`), which line 110 would turn into two columns of one label. Frames with two columns of one label are not represented. A new name on its own is allowed, as `rename` skips the labels a table lacks.
- Processing.ProcessData: the same `NoLabelClash` requirement, for the same reason.
- Matching.Attach: on a store table with no rows, pandas' `apply(pd.Series)` returns an empty Series rather than a frame. The assignment at line 101 then only sets a plain attribute, and the output lacks `Nama Produk Master` and `Kategori`. That empty Series keeps the name `NAMA`, so the concatenation at line 102 adds a second `NAMA` column, and after the rename the output carries `Nama Produk (Asli)` twice. The model attaches the two columns, empty, instead. A table loaded by `load_source_data` never reaches this case: with no records it has no `NAMA`, so line 86 raises first.
- ProcessingProofs.ProcessAlwaysColumns: for the same reason, it does not hold for pandas on a store table with no rows, where the two match columns are missing.
