/** What `process_data` promises about its result: when it fails, which rows it keeps, which
    columns it outputs, and what each output cell holds. */
module ProcessingProofs {
  import opened Wrappers
  import opened Calendar
  import opened Frames
  import opened Matching
  import opened Processing

  // ---------------------------------------------------------------------------------------
  // The numeric loop (lines 105-106)

  /** After the loop, a listed column holds the number converted from its old cell, and any
      other column is unchanged. */
  lemma {:induction false} CoerceColumnsCell(f: Frame, cols: seq<string>, lib: Library, i: nat, c: string)
    requires WellFormed(f) && CoerceColumns(f, cols, lib).Ok?
    requires i < |f.rows| && c in f.columns
    ensures CoerceColumns(f, cols, lib).value.rows[i][c] ==
      if c in cols then Num(ToNumber(f.rows[i][c], lib)) else f.rows[i][c]
    decreases |cols|
  {
    if cols != [] {
      var n := |cols| - 1;
      var front := cols[..n];
      assert c in cols <==> c in front || c == cols[n];
      CoerceColumnsCell(f, front, lib, i, c);
    }
  }

  // ---------------------------------------------------------------------------------------
  // Dates, week label, renaming and projection (lines 107-112)

  /** `DatedIndices` lists, in increasing order, exactly the rows whose date parses. */
  lemma DatedIndicesExactly(df: Frame, lib: Library)
    requires WellFormed(df) && DateColumn in df.columns
    ensures var idx := DatedIndices(df, lib);
      && (forall k, l :: 0 <= k < l < |idx| ==> idx[k] < idx[l])
      && (forall i :: 0 <= i < |df.rows| ==> (i in idx <==> ToDate(df.rows[i][DateColumn], lib).Some?))
  {
    PresentIndicesExactly(DatedFrame(df, lib).rows, DateColumn);
  }

  /** The label the renaming turns into `c`, or `c` itself when no label is renamed to it. */
  function RenamedFrom(c: string): string {
    if c == OriginalNameColumn then NameColumn
    else if c == OriginalBrandColumn then BrandColumn
    else if c == SoldOutColumn then SoldColumn
    else c
  }

  /** The label that column `c` had, before the renaming, in a table with `columns`: the label
      renamed to `c` when the table has it, and `c` itself otherwise. */
  function SourceLabel(c: string, columns: seq<string>): string {
    if RenamedFrom(c) in columns then RenamedFrom(c) else c
  }

  /** `RenamedFrom` inverts the renaming. */
  lemma RenamedFromInverts(c: string)
    ensures RenamedFrom(c) == c || (RenamedFrom(c) in Renames && Renames[RenamedFrom(c)] == c)
    ensures c in Renames ==> RenamedFrom(Renames[c]) == c && RenamedFrom(c) == c
  {
  }

  /** In a table without a clash, the renaming of a column has that column as its source. */
  lemma SourceOfRenamed(columns: seq<string>, j: nat)
    requires NoRenameClash(columns) && j < |columns|
    ensures SourceLabel(Renamed(columns[j], Renames), columns) == columns[j]
  {
    var a := columns[j];
    RenamedFromInverts(a);
    if a in Renames {
      RenamedFromInverts(Renames[a]);
    } else {
      var s := RenamedFrom(a);
      assert s != a ==> s !in columns;
    }
  }

  /** A label the renaming does not replace is the renaming of its `SourceLabel`. */
  lemma RenamesSourceLabel(c: string, columns: seq<string>)
    requires c !in Renames
    ensures Renamed(SourceLabel(c, columns), Renames) == c
  {
    RenamedFromInverts(c);
  }

  /** Labels that are neither renamed nor new names leave every `SourceLabel` as it was. */
  lemma SourceLabelExtended(c: string, columns: seq<string>, extra: seq<string>)
    requires forall x :: x in extra ==> x !in Renames
    ensures SourceLabel(c, columns + extra) == SourceLabel(c, columns)
  {
    RenamedFromInverts(c);
    assert RenamedFrom(c) != c ==> RenamedFrom(c) !in extra;
  }

  /** No output label is one the renaming replaces. */
  lemma FinalOrderNotRenamed(c: string)
    requires c in FinalOrder
    ensures c !in Renames
  {
  }

  /** Only the week column comes from the week column, and only the match columns from the
      match columns. */
  lemma SourceLabelKeeps(c: string, columns: seq<string>)
    ensures SourceLabel(c, columns) == WeekColumn <==> c == WeekColumn
    ensures SourceLabel(c, columns) == MasterNameColumn <==> c == MasterNameColumn
    ensures SourceLabel(c, columns) == CategoryColumn <==> c == CategoryColumn
    ensures SourceLabel(c, columns) == DateColumn <==> c == DateColumn
  {
  }

  /** After the renaming, a label the renaming does not replace is a column exactly when its
      source label was. */
  lemma RenamingColumn(w: Frame, c: string)
    requires WellFormed(w) && NoRenameClash(w.columns) && c !in Renames
    ensures c in Renaming(w).columns <==> SourceLabel(c, w.columns) in w.columns
  {
    var renamed := Renaming(w);
    if c in renamed.columns {
      var j :| 0 <= j < |renamed.columns| && renamed.columns[j] == c;
      SourceOfRenamed(w.columns, j);
    }
    if SourceLabel(c, w.columns) in w.columns {
      var j :| 0 <= j < |w.columns| && w.columns[j] == SourceLabel(c, w.columns);
      RenamesSourceLabel(c, w.columns);
      assert renamed.columns[j] == c;
    }
  }

  /** After the renaming, a column holds the cells of its source column. */
  lemma RenamingCell(w: Frame, k: nat, c: string)
    requires WellFormed(w) && NoRenameClash(w.columns)
    requires k < |w.rows| && c in Renaming(w).columns
    ensures SourceLabel(c, w.columns) in w.columns && Renaming(w).rows[k][c] == w.rows[k][SourceLabel(c, w.columns)]
  {
    var renamed := Renaming(w);
    var j :| 0 <= j < |renamed.columns| && renamed.columns[j] == c;
    SourceOfRenamed(w.columns, j);
  }

  /** Lines 110-112 output a listed column exactly when the table had its source label. */
  lemma OutputColumn(w: Frame, c: string)
    requires WellFormed(w) && NoRenameClash(w.columns)
    ensures c in Output(w).columns <==> c in FinalOrder && SourceLabel(c, w.columns) in w.columns
  {
    if c in FinalOrder {
      FinalOrderNotRenamed(c);
      RenamingColumn(w, c);
    }
  }

  /** Lines 110-112 fill an output column with the cells of its source column. */
  lemma OutputCellAt(w: Frame, k: nat, c: string)
    requires WellFormed(w) && NoRenameClash(w.columns)
    requires k < |w.rows| && c in Output(w).columns
    ensures SourceLabel(c, w.columns) in w.columns && Output(w).rows[k][c] == w.rows[k][SourceLabel(c, w.columns)]
  {
    FinalOrderDistinct();
    RenamingCell(w, k, c);
  }

  /** The cell `s` of a kept row after the dates are parsed and the week label is added. */
  function WeeklyCell(s: string, row: Row, lib: Library): Cell {
    var date := DateCell(Get(row, DateColumn, Null), lib);
    if s == WeekColumn then WeekCell(date)
    else if s == DateColumn then date
    else Get(row, s, Null)
  }

  /** Lines 107-109 keep the dated rows in order, with the date parsed and the week added. */
  lemma WeeklyCellAt(f: Frame, lib: Library, k: nat, s: string)
    requires WellFormed(f) && DateColumn in f.columns
    requires k < |DatedIndices(f, lib)| && s in Weekly(f, lib).columns
    ensures Weekly(f, lib).rows[k][s] == WeeklyCell(s, f.rows[DatedIndices(f, lib)[k]], lib)
  {
    var row := f.rows[DatedIndices(f, lib)[k]];
    DatedRowAt(f, lib, k);
    WithWeekCellAt(DropNull(DatedFrame(f, lib), DateColumn), lib, k, s, row);
  }

  /** Line 109 on a row holding the parsed date of `row`: the week label of that date, the date,
      or the cell of `row`. */
  lemma WithWeekCellAt(d: Frame, lib: Library, k: nat, s: string, row: Row)
    requires WellFormed(d) && DateColumn in d.columns && k < |d.rows|
    requires d.rows[k] == row[DateColumn := DateCell(Get(row, DateColumn, Null), lib)]
    requires s in WithWeek(d).columns
    ensures WithWeek(d).rows[k][s] == WeeklyCell(s, row, lib)
  {
  }

  /** Row `k` left after line 108 is the `k`-th dated store row with its date parsed. */
  lemma DatedRowAt(f: Frame, lib: Library, k: nat)
    requires WellFormed(f) && DateColumn in f.columns && k < |DatedIndices(f, lib)|
    ensures var row := f.rows[DatedIndices(f, lib)[k]];
      && k < |DropNull(DatedFrame(f, lib), DateColumn).rows|
      && DropNull(DatedFrame(f, lib), DateColumn).rows[k] == row[DateColumn := DateCell(Get(row, DateColumn, Null), lib)]
  {
    var dated := DatedFrame(f, lib);
    KeepPresentAtIndices(dated.rows, DateColumn);
  }

  /** What lines 107-112 put in output column `c` of a kept row of a table with `columns`. */
  function DressCell(c: string, columns: seq<string>, row: Row, lib: Library): Cell {
    var date := DateCell(Get(row, DateColumn, Null), lib);
    if c == DateColumn then date
    else if c == WeekColumn then WeekCell(date)
    else Get(row, SourceLabel(c, columns), Null)
  }

  /** The week label leaves every `SourceLabel` of the table as it was. */
  lemma WeeklySourceLabel(f: Frame, lib: Library, c: string)
    requires WellFormed(f) && DateColumn in f.columns
    ensures SourceLabel(c, Weekly(f, lib).columns) == SourceLabel(c, f.columns)
  {
    if WeekColumn !in f.columns {
      SourceLabelExtended(c, f.columns, [WeekColumn]);
    }
  }

  /** Lines 107-112 output the week and each listed column whose source label the table has. */
  lemma DressColumn(f: Frame, lib: Library, c: string)
    requires WellFormed(f) && DateColumn in f.columns && NoRenameClash(f.columns)
    ensures c in Dress(f, lib).columns <==> c in FinalOrder && (c == WeekColumn || SourceLabel(c, f.columns) in f.columns)
  {
    OutputColumn(Weekly(f, lib), c);
    WeeklySourceLabel(f, lib, c);
    SourceLabelKeeps(c, f.columns);
  }

  /** The weekly cell under a column's source label is the cell lines 107-112 output. */
  lemma WeeklyCellIsDressCell(c: string, columns: seq<string>, row: Row, lib: Library)
    ensures WeeklyCell(SourceLabel(c, columns), row, lib) == DressCell(c, columns, row, lib)
  {
    SourceLabelKeeps(c, columns);
  }

  /** Lines 107-112 keep the dated rows in order and fill each output cell from its row. */
  lemma DressCellAt(f: Frame, lib: Library, k: nat, c: string)
    requires WellFormed(f) && DateColumn in f.columns && NoRenameClash(f.columns)
    requires k < |Dress(f, lib).rows| && c in Dress(f, lib).columns
    ensures Dress(f, lib).rows[k][c] == DressCell(c, f.columns, f.rows[DatedIndices(f, lib)[k]], lib)
  {
    var w := Weekly(f, lib);
    var s := SourceLabel(c, f.columns);
    OutputCellAt(w, k, c);
    WeeklySourceLabel(f, lib, c);
    WeeklyCellAt(f, lib, k, s);
    WeeklyCellIsDressCell(c, f.columns, f.rows[DatedIndices(f, lib)[k]], lib);
  }

  /** With the match columns added, a label's source is a column exactly when it is a match
      label or its source was a column before. */
  lemma MatchedSourceLabel(columns: seq<string>, c: string)
    ensures var s := SourceLabel(c, columns + [MasterNameColumn, CategoryColumn]);
      && s == SourceLabel(c, columns)
      && (s in columns + [MasterNameColumn, CategoryColumn] <==>
          c == MasterNameColumn || c == CategoryColumn || SourceLabel(c, columns) in columns)
  {
    var extra := [MasterNameColumn, CategoryColumn];
    SourceLabelExtended(c, columns, extra);
    SourceLabelKeeps(c, columns);
  }

  /** On a table whose columns are the store table's and the two match columns, lines 107-112
      output the week and match columns and each listed column whose source label the store
      table has. */
  lemma DressColumnOfMatched(df: Frame, g: Frame, lib: Library, c: string)
    requires WellFormed(g) && DateColumn in g.columns && NoRenameClash(g.columns)
    requires g.columns == df.columns + [MasterNameColumn, CategoryColumn]
    ensures c in Dress(g, lib).columns <==>
      c in FinalOrder && (c == WeekColumn || c == MasterNameColumn || c == CategoryColumn || SourceLabel(c, df.columns) in df.columns)
  {
    DressColumn(g, lib, c);
    MatchedSourceLabel(df.columns, c);
  }

  // ---------------------------------------------------------------------------------------
  // The whole of `process_data`

  /** The inputs on which `process_data` succeeds: the columns it reads are there, and the
      scorer has master names to choose among whenever it is consulted. */
  predicate Runs(df: Frame, master: Frame, lib: Library)
    requires WellFormed(df) && WellFormed(master)
  {
    && Matchable(df, master, lib)
    && PriceColumn in df.columns && SoldColumn in df.columns && DateColumn in df.columns
  }

  /** Lines 105-112 fail exactly when a numeric column or the date column is missing, and
      otherwise dress the coerced table. */
  lemma FinaliseOutcome(f: Frame, lib: Library)
    requires WellFormed(f) && NoRenameClash(f.columns)
    ensures Finalise(f, lib).Ok? <==>
      PriceColumn in f.columns && SoldColumn in f.columns && DateColumn in f.columns
    ensures Finalise(f, lib).Err? ==> Finalise(f, lib).error.MissingColumn?
    ensures Finalise(f, lib).Ok? ==> CoerceColumns(f, NumericColumns, lib).Ok?
    ensures Finalise(f, lib).Ok? ==> Finalise(f, lib) == Ok(Dress(CoerceColumns(f, NumericColumns, lib).value, lib))
  {
    CoerceColumnsFaults(f, NumericColumns, lib);
  }

  /** The columns of the matched table other than the two it adds are the store table's. */
  lemma MatchedColumnsFrom(df: Frame, c: string)
    requires c != MasterNameColumn && c != CategoryColumn
    ensures c in df.columns + [MasterNameColumn, CategoryColumn] <==> c in df.columns
  {
  }

  /** `process_data` raises `NoChoices` exactly when the master table is empty while some
      product name is not. */
  lemma ProcessNoChoices(df: Frame, master: Frame, lib: Library)
    requires WellFormed(df) && WellFormed(master) && NoLabelClash(df.columns)
    ensures Process(df, master, lib) == Err(NoChoices) <==>
      && NameColumn in df.columns && NameColumn in master.columns && CategoryColumn in master.columns
      && |master.rows| == 0 && NeedsScorer(Names(df, lib))
  {
    if NameColumn !in df.columns || NameColumn !in master.columns || CategoryColumn !in master.columns {
    } else if |master.rows| == 0 && NeedsScorer(Names(df, lib)) {
      assert |Choices(master, lib)| == 0;
    } else {
      FinaliseOutcome(Matched(df, master, lib), lib);
    }
  }

  /** `process_data` succeeds exactly on the inputs `Runs` describes. */
  lemma ProcessSucceeds(df: Frame, master: Frame, lib: Library)
    requires WellFormed(df) && WellFormed(master) && NoLabelClash(df.columns)
    ensures Process(df, master, lib).Ok? <==> Runs(df, master, lib)
  {
    if Matchable(df, master, lib) {
      ProcessOfMatchable(df, master, lib);
      FinaliseOutcome(Matched(df, master, lib), lib);
      MatchedColumnsFrom(df, PriceColumn);
      MatchedColumnsFrom(df, SoldColumn);
      MatchedColumnsFrom(df, DateColumn);
    }
  }

  /** The table after lines 85-106: matched, with its numeric columns converted. */
  function Coerced(df: Frame, master: Frame, lib: Library): (g: Frame)
    requires WellFormed(df) && WellFormed(master) && NoLabelClash(df.columns) && Runs(df, master, lib)
    ensures WellFormed(g) && |g.rows| == |df.rows|
    ensures g.columns == df.columns + [MasterNameColumn, CategoryColumn]
    ensures DateColumn in g.columns && NoRenameClash(g.columns)
  {
    CoerceColumnsFaults(Matched(df, master, lib), NumericColumns, lib);
    CoerceColumns(Matched(df, master, lib), NumericColumns, lib).value
  }

  /** Once the columns lines 85-102 read are there and the scorer has names to choose among,
      `process_data` goes on to lines 105-112. */
  lemma ProcessOfMatchable(df: Frame, master: Frame, lib: Library)
    requires WellFormed(df) && WellFormed(master) && NoLabelClash(df.columns)
    requires Matchable(df, master, lib)
    ensures Process(df, master, lib) == Finalise(Matched(df, master, lib), lib)
  {
    assert |Choices(master, lib)| == |master.rows|;
  }

  /** A successful run is the dressing of the coerced, matched table. */
  lemma ProcessIsDress(df: Frame, master: Frame, lib: Library)
    requires WellFormed(df) && WellFormed(master) && NoLabelClash(df.columns)
    requires Runs(df, master, lib)
    ensures Process(df, master, lib) == Ok(Dress(Coerced(df, master, lib), lib))
  {
    ProcessOfMatchable(df, master, lib);
    FinaliseOutcome(Matched(df, master, lib), lib);
  }

  /** The cell `s` of a row of `processed_df` before the numeric loop, made from store row
      `row` whose name matched as `m`. */
  function AttachedCell(s: string, row: Row, m: (string, Cell), lib: Library): Cell {
    if s == MasterNameColumn then Text(m.0)
    else if s == CategoryColumn then m.1
    else if s == NameColumn then Text(AsString(Get(row, NameColumn, Null), lib))
    else Get(row, s, Null)
  }

  /** The same cell after the numeric loop. */
  function MatchedCell(s: string, row: Row, m: (string, Cell), lib: Library): Cell {
    if s in NumericColumns then Num(ToNumber(Get(row, s, Null), lib))
    else AttachedCell(s, row, m, lib)
  }

  /** Lines 85-102: the matched table holds the stringified name, the match, and the store
      row's other cells. */
  lemma AttachedCellAt(df: Frame, m: seq<(string, Cell)>, lib: Library, i: nat, s: string)
    requires WellFormed(df) && NameColumn in df.columns && |m| == |df.rows|
    requires MasterNameColumn !in df.columns && CategoryColumn !in df.columns
    requires i < |df.rows| && s in Attach(StringifyNames(df, lib), m).columns
    ensures Attach(StringifyNames(df, lib), m).rows[i][s] == AttachedCell(s, df.rows[i], m[i], lib)
  {
    var named := StringifyNames(df, lib);
    assert named.rows[i] == df.rows[i][NameColumn := Text(Names(df, lib)[i])];
  }

  /** Lines 85-106: a cell of the coerced table is the store row's cell, stringified, matched
      or converted to a number as its column says. */
  lemma MatchedCellAt(df: Frame, master: Frame, lib: Library, i: nat, s: string)
    requires WellFormed(df) && WellFormed(master) && NoLabelClash(df.columns) && Runs(df, master, lib)
    requires i < |df.rows| && s in Coerced(df, master, lib).columns
    ensures Coerced(df, master, lib).rows[i][s] == MatchedCell(s, df.rows[i], Matches(df, master, lib)[i], lib)
  {
    var m := Matches(df, master, lib);
    var matched := Matched(df, master, lib);
    AttachedCellAt(df, m, lib, i, s);
    CoerceColumnsFaults(matched, NumericColumns, lib);
    CoerceColumnsCell(matched, NumericColumns, lib, i, s);
    if s in NumericColumns {
      assert AttachedCell(s, df.rows[i], m[i], lib) == Get(df.rows[i], s, Null);
    }
  }

  /** Two tables whose date cells agree row by row keep the same rows. */
  lemma DatedIndicesAgree(f: Frame, g: Frame, lib: Library)
    requires WellFormed(f) && WellFormed(g) && DateColumn in f.columns && DateColumn in g.columns
    requires |f.rows| == |g.rows|
    requires forall i :: 0 <= i < |f.rows| ==> f.rows[i][DateColumn] == g.rows[i][DateColumn]
    ensures DatedIndices(f, lib) == DatedIndices(g, lib)
  {
    PresentIndicesAgree(DatedFrame(f, lib).rows, DatedFrame(g, lib).rows, DateColumn);
  }

  /** Neither the matching nor the numeric loop changes the dates, so the same rows are kept. */
  lemma CoercedKeepsDates(df: Frame, master: Frame, lib: Library)
    requires WellFormed(df) && WellFormed(master) && NoLabelClash(df.columns) && Runs(df, master, lib)
    ensures DatedIndices(Coerced(df, master, lib), lib) == DatedIndices(df, lib)
  {
    var g := Coerced(df, master, lib);
    forall i | 0 <= i < |df.rows| ensures g.rows[i][DateColumn] == df.rows[i][DateColumn] {
      MatchedCellAt(df, master, lib, i, DateColumn);
    }
    DatedIndicesAgree(g, df, lib);
  }

  /** What `process_data` puts in output column `c` for store row `row` of a table with
      `columns`, whose name matched as `m`: the parsed date and its week, the stringified name,
      the match, the converted sales figure, or the row's own cell under its source label. */
  function OutputCell(c: string, columns: seq<string>, row: Row, m: (string, Cell), lib: Library): Cell {
    var date := DateCell(Get(row, DateColumn, Null), lib);
    if c == DateColumn then date
    else if c == WeekColumn then WeekCell(date)
    else if c == MasterNameColumn then Text(m.0)
    else if c == CategoryColumn then m.1
    else if c == OriginalNameColumn then Text(AsString(Get(row, NameColumn, Null), lib))
    else if c == SoldOutColumn then Num(ToNumber(Get(row, SoldColumn, Null), lib))
    else Get(row, SourceLabel(c, columns), Null)
  }

  /** The match columns change no `DressCell`. */
  lemma DressCellOfMatched(c: string, columns: seq<string>, row: Row, lib: Library)
    ensures DressCell(c, columns + [MasterNameColumn, CategoryColumn], row, lib) == DressCell(c, columns, row, lib)
  {
    MatchedSourceLabel(columns, c);
  }

  /** Finalising a coerced row of a store table that has the name and sales columns gives the
      output cell of its store row. */
  lemma OutputCellOfCoerced(c: string, columns: seq<string>, crow: Row, row: Row, m: (string, Cell), lib: Library)
    requires c in FinalOrder && DateColumn in crow && NameColumn in columns && SoldColumn in columns
    requires crow[DateColumn] == MatchedCell(DateColumn, row, m, lib)
    requires c != WeekColumn ==> var s := SourceLabel(c, columns);
      s in crow && crow[s] == MatchedCell(s, row, m, lib)
    ensures DressCell(c, columns, crow, lib) == OutputCell(c, columns, row, m, lib)
  {
  }

  /** Whether one label is an output column: the week and match columns always are, each other
      listed label exactly when its source label is a column of the store table. */
  lemma ProcessColumn(df: Frame, master: Frame, lib: Library, c: string)
    requires WellFormed(df) && WellFormed(master) && NoLabelClash(df.columns)
    requires Process(df, master, lib).Ok?
    ensures c in Process(df, master, lib).value.columns <==>
      c in FinalOrder && (c == WeekColumn || c == MasterNameColumn || c == CategoryColumn || SourceLabel(c, df.columns) in df.columns)
  {
    ProcessSucceeds(df, master, lib);
    ProcessIsDress(df, master, lib);
    DressColumnOfMatched(df, Coerced(df, master, lib), lib, c);
  }

  /** `process_data` fills each output cell from the store row it keeps, as `OutputCell` says. */
  lemma ProcessCell(df: Frame, master: Frame, lib: Library, k: nat, c: string)
    requires WellFormed(df) && WellFormed(master) && NoLabelClash(df.columns)
    requires Process(df, master, lib).Ok?
    requires k < |Process(df, master, lib).value.rows| && c in Process(df, master, lib).value.columns
    ensures Runs(df, master, lib) && k < |DatedIndices(df, lib)|
    ensures var i := DatedIndices(df, lib)[k];
      Process(df, master, lib).value.rows[k][c] == OutputCell(c, df.columns, df.rows[i], Matches(df, master, lib)[i], lib)
  {
    ProcessSucceeds(df, master, lib);
    ProcessIsDress(df, master, lib);
    CoercedKeepsDates(df, master, lib);
    var g := Coerced(df, master, lib);
    DressCellAt(g, lib, k, c);
    DressColumn(g, lib, c);
    MatchedSourceLabel(df.columns, c);
    var i := DatedIndices(df, lib)[k];
    var m := Matches(df, master, lib);
    var s := SourceLabel(c, df.columns);
    MatchedCellAt(df, master, lib, i, DateColumn);
    if c != WeekColumn {
      MatchedCellAt(df, master, lib, i, s);
    }
    DressCellOfMatched(c, df.columns, g.rows[i], lib);
    OutputCellOfCoerced(c, df.columns, g.rows[i], df.rows[i], m[i], lib);
  }

  /** `process_data` keeps, in order, exactly the store rows whose date parses, and fills each
      output column from its row as `OutputCell` says. */
  lemma ProcessRows(df: Frame, master: Frame, lib: Library)
    requires WellFormed(df) && WellFormed(master) && NoLabelClash(df.columns)
    requires Process(df, master, lib).Ok?
    ensures Runs(df, master, lib)
    ensures var out, idx, m := Process(df, master, lib).value, DatedIndices(df, lib), Matches(df, master, lib);
      && |out.rows| == |idx|
      && forall k, c :: 0 <= k < |idx| && c in out.columns ==>
        out.rows[k][c] == OutputCell(c, df.columns, df.rows[idx[k]], m[idx[k]], lib)
  {
    ProcessSucceeds(df, master, lib);
    ProcessIsDress(df, master, lib);
    CoercedKeepsDates(df, master, lib);
    var out := Process(df, master, lib).value;
    var idx := DatedIndices(df, lib);
    forall k, c | 0 <= k < |idx| && c in out.columns
      ensures out.rows[k][c] == OutputCell(c, df.columns, df.rows[idx[k]], Matches(df, master, lib)[idx[k]], lib)
    {
      ProcessCell(df, master, lib, k, c);
    }
  }

  /** The output has the week and match columns, and each other listed column whose source label
      the store table has, without repeats, in the order of the output list; nothing else. */
  lemma ProcessColumns(df: Frame, master: Frame, lib: Library)
    requires WellFormed(df) && WellFormed(master) && NoLabelClash(df.columns)
    requires Process(df, master, lib).Ok?
    ensures var out := Process(df, master, lib).value;
      && Distinct(out.columns)
      && Follows(out.columns, FinalOrder)
      && forall c :: c in out.columns <==>
        c in FinalOrder && (c == WeekColumn || c == MasterNameColumn || c == CategoryColumn || SourceLabel(c, df.columns) in df.columns)
  {
    ProcessSucceeds(df, master, lib);
    ProcessIsDress(df, master, lib);
    forall c ensures c in Process(df, master, lib).value.columns <==>
      c in FinalOrder && (c == WeekColumn || c == MasterNameColumn || c == CategoryColumn || SourceLabel(c, df.columns) in df.columns)
    {
      ProcessColumn(df, master, lib, c);
    }
  }

  /** The output always has the date, week, name, match and sales columns. */
  lemma ProcessAlwaysColumns(df: Frame, master: Frame, lib: Library)
    requires WellFormed(df) && WellFormed(master) && NoLabelClash(df.columns)
    requires Process(df, master, lib).Ok?
    ensures var out := Process(df, master, lib).value;
      && DateColumn in out.columns && WeekColumn in out.columns && OriginalNameColumn in out.columns
      && MasterNameColumn in out.columns && CategoryColumn in out.columns && SoldOutColumn in out.columns
  {
    ProcessSucceeds(df, master, lib);
    ProcessColumn(df, master, lib, DateColumn);
    ProcessColumn(df, master, lib, WeekColumn);
    ProcessColumn(df, master, lib, OriginalNameColumn);
    ProcessColumn(df, master, lib, MasterNameColumn);
    ProcessColumn(df, master, lib, CategoryColumn);
    ProcessColumn(df, master, lib, SoldOutColumn);
  }

  /** `Brand (Asli)` is output when the store table has `BRAND`, or has `Brand (Asli)` itself
      without `BRAND`, which the renaming then leaves as it is. */
  lemma ProcessBrandColumn(df: Frame, master: Frame, lib: Library)
    requires WellFormed(df) && WellFormed(master) && NoLabelClash(df.columns)
    requires Process(df, master, lib).Ok?
    ensures OriginalBrandColumn in Process(df, master, lib).value.columns <==>
      BrandColumn in df.columns || OriginalBrandColumn in df.columns
  {
    ProcessColumn(df, master, lib, OriginalBrandColumn);
  }

  /** An output `Brand (Asli)` cell is the store row's `BRAND` cell when the store table has
      `BRAND`, and its own `Brand (Asli)` cell otherwise. */
  lemma ProcessBrandCell(df: Frame, master: Frame, lib: Library, k: nat)
    requires WellFormed(df) && WellFormed(master) && NoLabelClash(df.columns)
    requires Process(df, master, lib).Ok?
    requires k < |Process(df, master, lib).value.rows| && OriginalBrandColumn in Process(df, master, lib).value.columns
    ensures DateColumn in df.columns && k < |DatedIndices(df, lib)|
    ensures BrandColumn in df.columns || OriginalBrandColumn in df.columns
    ensures var row := df.rows[DatedIndices(df, lib)[k]];
      && (BrandColumn in df.columns ==> BrandColumn in row)
      && (OriginalBrandColumn in df.columns ==> OriginalBrandColumn in row)
      && Process(df, master, lib).value.rows[k][OriginalBrandColumn] ==
        if BrandColumn in df.columns then row[BrandColumn] else row[OriginalBrandColumn]
  {
    ProcessBrandColumn(df, master, lib);
    ProcessCell(df, master, lib, k, OriginalBrandColumn);
  }

  /** The converted label is not an output label; the output label is renamed from nothing. */
  lemma PriceLabels()
    ensures PriceColumn !in FinalOrder && RenamedFrom(PriceColumn) == PriceColumn
    ensures "Harga" in FinalOrder && RenamedFrom("Harga") == "Harga"
    ensures "Harga" != WeekColumn && "Harga" != MasterNameColumn && "Harga" != CategoryColumn
  {
  }

  /** The loop converts `HARGA`, but the renaming does not turn it into `Harga`: the converted
      prices never reach the output, and `Harga` is there only when the store table already had
      it. */
  lemma PriceColumnNotCarried(df: Frame, master: Frame, lib: Library)
    requires WellFormed(df) && WellFormed(master) && NoLabelClash(df.columns)
    requires Process(df, master, lib).Ok?
    ensures PriceColumn in df.columns && PriceColumn !in Process(df, master, lib).value.columns
    ensures "Harga" in Process(df, master, lib).value.columns <==> "Harga" in df.columns
  {
    ProcessSucceeds(df, master, lib);
    ProcessColumn(df, master, lib, PriceColumn);
    ProcessColumn(df, master, lib, "Harga");
    PriceLabels();
  }

  /** An output `Harga` column holds the store table's own cells, not converted to numbers. */
  lemma PriceCellsUnconverted(df: Frame, master: Frame, lib: Library, k: nat)
    requires WellFormed(df) && WellFormed(master) && NoLabelClash(df.columns)
    requires Process(df, master, lib).Ok?
    requires k < |Process(df, master, lib).value.rows| && "Harga" in Process(df, master, lib).value.columns
    ensures DateColumn in df.columns && k < |DatedIndices(df, lib)| && "Harga" in df.columns
    ensures Process(df, master, lib).value.rows[k]["Harga"] == df.rows[DatedIndices(df, lib)[k]]["Harga"]
  {
    PriceColumnNotCarried(df, master, lib);
    ProcessCell(df, master, lib, k, "Harga");
  }

  /** Every output row carries its parsed date, that date's `%Y-W%U` week label, and a number in
      the sales column. */
  lemma ProcessDateAndWeek(df: Frame, master: Frame, lib: Library, k: nat)
    requires WellFormed(df) && WellFormed(master) && NoLabelClash(df.columns)
    requires Process(df, master, lib).Ok?
    requires k < |Process(df, master, lib).value.rows|
    ensures DateColumn in df.columns && k < |DatedIndices(df, lib)|
    ensures var out, row := Process(df, master, lib).value, df.rows[DatedIndices(df, lib)[k]];
      && ToDate(row[DateColumn], lib).Some?
      && DateColumn in out.columns && WeekColumn in out.columns && SoldOutColumn in out.columns
      && out.rows[k][DateColumn] == Stamp(ToDate(row[DateColumn], lib).value)
      && out.rows[k][WeekColumn] == Text(WeekLabel(ToDate(row[DateColumn], lib).value))
      && out.rows[k][SoldOutColumn].Num?
  {
    ProcessAlwaysColumns(df, master, lib);
    ProcessCell(df, master, lib, k, DateColumn);
    ProcessCell(df, master, lib, k, WeekColumn);
    ProcessCell(df, master, lib, k, SoldOutColumn);
    DatedIndicesExactly(df, lib);
    assert DatedIndices(df, lib)[k] in DatedIndices(df, lib);
  }
}
