/** `process_data`: stringify the product names, match each against the master table, then
    finalise the table: coerce the numeric columns, parse the dates and drop the rows whose date
    does not parse, add the week label, rename the columns and keep the output columns. */
module Processing {
  import opened Wrappers
  import opened Calendar
  import opened Frames
  import opened Matching

  /** The library calls whose internals are not modelled. */
  datatype Library = Library(
    extractOne: Scorer,                   // thefuzz's `process.extractOne`
    parseNumber: string -> Option<real>,  // `pd.to_numeric` on a text cell
    parseDate: Cell -> Option<Day>,       // `pd.to_datetime` on a text or number cell
    show: Cell -> string)                 // `str()` of a number or a timestamp

  /** The errors `process_data` lets escape: a missing column (`KeyError`, `AttributeError`),
      or a scorer asked to choose among no master names (`extractOne` gives `None`). */
  datatype Fault = MissingColumn(name: string) | NoChoices

  const NameColumn := "NAMA"
  const BrandColumn := "BRAND"
  const PriceColumn := "HARGA"
  const SoldColumn := "TERJUAL/BLN"
  const DateColumn := "TANGGAL"
  const WeekColumn := "Minggu"
  const OriginalNameColumn := "Nama Produk (Asli)"
  const OriginalBrandColumn := "Brand (Asli)"
  const SoldOutColumn := "Terjual/Bln"
  const NumericColumns := [PriceColumn, SoldColumn]
  const Renames := map[NameColumn := OriginalNameColumn, BrandColumn := OriginalBrandColumn, SoldColumn := SoldOutColumn]
  const FinalOrder := [DateColumn, WeekColumn, "Toko", "Status", OriginalNameColumn, MasterNameColumn,
                       CategoryColumn, "Harga", SoldOutColumn, OriginalBrandColumn]

  lemma FinalOrderDistinct()
    ensures Distinct(FinalOrder)
  {
  }

  /** No label the renaming replaces sits beside the label it is renamed to; a table with both
      would come out of line 110 with two columns of one label. A new label alone is kept as it
      is, since `rename` skips the labels a table lacks. */
  predicate NoRenameClash(columns: seq<string>) {
    forall s :: s in Renames ==> !(s in columns && Renames[s] in columns)
  }

  /** The store table has neither match label, which the concatenation at line 102 would
      duplicate, and no renaming clash; frames with two columns of one label are not
      represented. */
  predicate NoLabelClash(columns: seq<string>) {
    MasterNameColumn !in columns && CategoryColumn !in columns && NoRenameClash(columns)
  }

  /** A store table holding `Brand (Asli)` without `BRAND` has no clash; one holding both
      has. */
  lemma NoLabelClashExamples()
    ensures NoLabelClash([NameColumn, DateColumn, PriceColumn, SoldColumn, OriginalBrandColumn])
    ensures !NoLabelClash([NameColumn, DateColumn, PriceColumn, SoldColumn, BrandColumn, OriginalBrandColumn])
  {
    var clash := [NameColumn, DateColumn, PriceColumn, SoldColumn, BrandColumn, OriginalBrandColumn];
    assert BrandColumn in Renames && BrandColumn in clash && Renames[BrandColumn] in clash;
  }

  /** `str(cell)`, as `astype(str)` applies it. */
  function AsString(c: Cell, lib: Library): string {
    match c
    case Text(s) => s
    case Null => "nan"
    case _ => lib.show(c)
  }

  function AsStrings(cells: seq<Cell>, lib: Library): (r: seq<string>)
    ensures |r| == |cells| && forall i :: 0 <= i < |r| ==> r[i] == AsString(cells[i], lib)
  {
    seq(|cells|, i requires 0 <= i < |cells| => AsString(cells[i], lib))
  }

  function TextCells(strings: seq<string>): (r: seq<Cell>)
    ensures |r| == |strings| && forall i :: 0 <= i < |r| ==> r[i] == Text(strings[i])
  {
    seq(|strings|, i requires 0 <= i < |strings| => Text(strings[i]))
  }

  /** `df['NAMA'].astype(str)`. */
  function Names(f: Frame, lib: Library): (names: seq<string>)
    requires WellFormed(f) && NameColumn in f.columns
    ensures |names| == |f.rows|
  {
    AsStrings(Column(f, NameColumn), lib)
  }

  /** `df['NAMA'] = df['NAMA'].astype(str)`. */
  function StringifyNames(f: Frame, lib: Library): (r: Frame)
    requires WellFormed(f) && NameColumn in f.columns
    ensures WellFormed(r) && r.columns == f.columns && |r.rows| == |f.rows|
  {
    WithColumn(f, NameColumn, TextCells(Names(f, lib)))
  }

  /** `pd.to_numeric(cell, errors='coerce')` followed by `fillna(0)`. */
  function ToNumber(c: Cell, lib: Library): real {
    match c
    case Num(x) => x
    case Text(s) => (match lib.parseNumber(s) case Some(x) => x case None => 0.0)
    case _ => 0.0
  }

  function CoerceNumbers(cells: seq<Cell>, lib: Library): (r: seq<Cell>)
    ensures |r| == |cells| && forall i :: 0 <= i < |r| ==> r[i] == Num(ToNumber(cells[i], lib))
  {
    seq(|cells|, i requires 0 <= i < |cells| => Num(ToNumber(cells[i], lib)))
  }

  /** The `for col in ['HARGA', 'TERJUAL/BLN']` loop run over the columns `cols`. */
  function CoerceColumns(f: Frame, cols: seq<string>, lib: Library): (r: Result<Frame, Fault>)
    requires WellFormed(f)
    ensures r.Ok? ==> WellFormed(r.value) && r.value.columns == f.columns && |r.value.rows| == |f.rows|
    ensures r.Err? ==> r.error.MissingColumn? && r.error.name in cols && r.error.name !in f.columns
  {
    if cols == [] then Ok(f)
    else
      match CoerceColumns(f, cols[..|cols| - 1], lib)
      case Err(e) => Err(e)
      case Ok(g) =>
        var c := cols[|cols| - 1];
        if c !in g.columns then Err(MissingColumn(c))
        else Ok(WithColumn(g, c, CoerceNumbers(Column(g, c), lib)))
  }

  /** `pd.to_datetime(cell, errors='coerce')`. */
  function ToDate(c: Cell, lib: Library): Option<Day> {
    match c
    case Stamp(d) => Some(d)
    case Null => None
    case _ => lib.parseDate(c)
  }

  function DateCell(c: Cell, lib: Library): Cell {
    match ToDate(c, lib)
    case Some(d) => Stamp(d)
    case None => Null
  }

  function ParseDates(cells: seq<Cell>, lib: Library): (r: seq<Cell>)
    ensures |r| == |cells| && forall i :: 0 <= i < |r| ==> r[i] == DateCell(cells[i], lib)
  {
    seq(|cells|, i requires 0 <= i < |cells| => DateCell(cells[i], lib))
  }

  /** `.dt.strftime('%Y-W%U')` of one cell; a missing date gives a missing label. */
  function WeekCell(c: Cell): Cell {
    match c
    case Stamp(d) => Text(WeekLabel(d))
    case _ => Null
  }

  function WeekCells(cells: seq<Cell>): (r: seq<Cell>)
    ensures |r| == |cells| && forall i :: 0 <= i < |r| ==> r[i] == WeekCell(cells[i])
  {
    seq(|cells|, i requires 0 <= i < |cells| => WeekCell(cells[i]))
  }

  /** The renaming sends distinct labels to distinct labels, and never to a label it renames. */
  lemma RenamesInjective(a: string, b: string)
    ensures a in Renames && b in Renames && a != b ==> Renames[a] != Renames[b]
    ensures a in Renames ==> Renames[a] !in Renames
  {
  }

  /** The renaming keeps the labels distinct when no renamed label sits beside its new label. */
  lemma RenameKeepsDistinct(columns: seq<string>)
    requires Distinct(columns) && NoRenameClash(columns)
    ensures Distinct(RenamedLabels(columns, Renames))
  {
    var r := RenamedLabels(columns, Renames);
    forall i, j | 0 <= i < j < |r| ensures r[i] != r[j] {
      var a, b := columns[i], columns[j];
      assert a != b;
      RenamesInjective(a, b);
      assert a in Renames && b !in Renames ==> Renames[a] != b;
      assert b in Renames && a !in Renames ==> Renames[b] != a;
    }
  }

  /** Adding labels that are neither renamed nor new names keeps a table free of clashes. */
  lemma NoRenameClashExtended(columns: seq<string>, extra: seq<string>)
    requires NoRenameClash(columns)
    requires forall x :: x in extra ==> x !in Renames && x !in Renames.Values
    ensures NoRenameClash(columns + extra)
  {
    forall s | s in Renames ensures !(s in columns + extra && Renames[s] in columns + extra) {
      assert s !in extra && Renames[s] in Renames.Values;
    }
  }

  /** The table after date parsing, before rows are dropped. */
  function DatedFrame(f: Frame, lib: Library): (r: Frame)
    requires WellFormed(f) && DateColumn in f.columns
    ensures WellFormed(r) && r.columns == f.columns && |r.rows| == |f.rows|
  {
    WithColumn(f, DateColumn, ParseDates(Column(f, DateColumn), lib))
  }

  /** `df['Minggu'] = df['TANGGAL'].dt.strftime('%Y-W%U')`. */
  function WithWeek(f: Frame): (r: Frame)
    requires WellFormed(f) && DateColumn in f.columns
    ensures WellFormed(r) && |r.rows| == |f.rows|
    ensures r.columns == if WeekColumn in f.columns then f.columns else f.columns + [WeekColumn]
  {
    WithColumn(f, WeekColumn, WeekCells(Column(f, DateColumn)))
  }

  /** Line 110, the renaming. */
  function Renaming(w: Frame): (r: Frame)
    requires WellFormed(w) && NoRenameClash(w.columns)
    ensures WellFormed(r)
  {
    RenameKeepsDistinct(w.columns);
    RenameColumns(w, Renames)
  }

  /** Lines 110-112: rename, then keep the output columns in order. */
  function Output(w: Frame): (r: Frame)
    requires WellFormed(w) && NoRenameClash(w.columns)
    ensures WellFormed(r) && |r.rows| == |w.rows|
    ensures Follows(r.columns, FinalOrder)
  {
    FinalOrderDistinct();
    Project(Renaming(w), FinalOrder)
  }

  /** The rows lines 107-108 keep: those whose date parses. */
  function DatedIndices(df: Frame, lib: Library): (idx: seq<nat>)
    requires WellFormed(df) && DateColumn in df.columns
    ensures forall k :: 0 <= k < |idx| ==> idx[k] < |df.rows|
  {
    PresentIndices(DatedFrame(df, lib).rows, DateColumn)
  }

  /** The week label is not one the renaming replaces. */
  lemma WeekLabelNotRenamed(columns: seq<string>)
    ensures NoRenameClash(columns) ==> NoRenameClash(columns + [WeekColumn])
  {
    if NoRenameClash(columns) {
      NoRenameClashExtended(columns, [WeekColumn]);
    }
  }

  /** Lines 107-109: parse the dates, drop the undated rows, add the week label. */
  function Weekly(f: Frame, lib: Library): (r: Frame)
    requires WellFormed(f) && DateColumn in f.columns
    ensures WellFormed(r) && |r.rows| == |DatedIndices(f, lib)|
    ensures r.columns == if WeekColumn in f.columns then f.columns else f.columns + [WeekColumn]
    ensures NoRenameClash(f.columns) ==> NoRenameClash(r.columns)
  {
    KeepPresentAtIndices(DatedFrame(f, lib).rows, DateColumn);
    WeekLabelNotRenamed(f.columns);
    WithWeek(DropNull(DatedFrame(f, lib), DateColumn))
  }

  /** Lines 107-112 on the coerced table: parse the dates, drop the undated rows, add the
      week label, rename, and keep the output columns in order. */
  function Dress(f: Frame, lib: Library): (r: Frame)
    requires WellFormed(f) && DateColumn in f.columns && NoRenameClash(f.columns)
    ensures WellFormed(r) && |r.rows| == |DatedIndices(f, lib)|
    ensures Follows(r.columns, FinalOrder)
  {
    Output(Weekly(f, lib))
  }

  /** Lines 105-112 on the matched table. */
  function Finalise(f: Frame, lib: Library): (r: Result<Frame, Fault>)
    requires WellFormed(f) && NoRenameClash(f.columns)
    ensures r.Ok? ==> WellFormed(r.value)
  {
    match CoerceColumns(f, NumericColumns, lib)
    case Err(e) => Err(e)
    case Ok(coerced) =>
      if DateColumn !in coerced.columns then Err(MissingColumn(DateColumn))
      else Ok(Dress(coerced, lib))
  }

  /** The master names, stringified, in row order: `master_product_list`. */
  function Choices(master: Frame, lib: Library): seq<string>
    requires WellFormed(master) && NameColumn in master.columns
  {
    Names(master, lib)
  }

  /** `master_category_map`. */
  function Categories(master: Frame, lib: Library): map<string, Cell>
    requires WellFormed(master) && NameColumn in master.columns && CategoryColumn in master.columns
  {
    CategoryMap(Choices(master, lib), Column(master, CategoryColumn))
  }

  /** Some product name is not empty, so the scorer has to be consulted. */
  predicate NeedsScorer(names: seq<string>) {
    exists i :: 0 <= i < |names| && names[i] != ""
  }

  /** The store and master tables have what lines 85-102 need. */
  predicate Matchable(df: Frame, master: Frame, lib: Library)
    requires WellFormed(df) && WellFormed(master)
  {
    && NameColumn in df.columns && NameColumn in master.columns && CategoryColumn in master.columns
    && (|master.rows| > 0 || !NeedsScorer(Names(df, lib)))
  }

  /** `df['NAMA'].apply(find_master_data)`. */
  function Matches(df: Frame, master: Frame, lib: Library): (matches: seq<(string, Cell)>)
    requires WellFormed(df) && WellFormed(master) && Matchable(df, master, lib)
    ensures |matches| == |df.rows|
  {
    MatchAll(Names(df, lib), Choices(master, lib), Categories(master, lib), lib.extractOne)
  }

  /** Adding the match columns brings in none of the labels the renaming introduces. */
  lemma MatchLabelsNotRenamed(columns: seq<string>)
    requires NoRenameClash(columns)
    ensures NoRenameClash(columns + [MasterNameColumn, CategoryColumn])
  {
    NoRenameClashExtended(columns, [MasterNameColumn, CategoryColumn]);
  }

  /** `processed_df`: the store table with its names stringified and the match columns added. */
  function Matched(df: Frame, master: Frame, lib: Library): (r: Frame)
    requires WellFormed(df) && WellFormed(master) && Matchable(df, master, lib) && NoLabelClash(df.columns)
    ensures WellFormed(r) && |r.rows| == |df.rows|
    ensures r.columns == df.columns + [MasterNameColumn, CategoryColumn]
    ensures NoRenameClash(r.columns)
  {
    MatchLabelsNotRenamed(df.columns);
    Attach(StringifyNames(df, lib), Matches(df, master, lib))
  }

  /** What `process_data(df, db_master)` returns, or the error it raises. */
  function Process(df: Frame, master: Frame, lib: Library): (r: Result<Frame, Fault>)
    requires WellFormed(df) && WellFormed(master) && NoLabelClash(df.columns)
    ensures r.Ok? ==> WellFormed(r.value) && Matchable(df, master, lib)
  {
    if NameColumn !in df.columns then Err(MissingColumn(NameColumn))
    else if NameColumn !in master.columns then Err(MissingColumn(NameColumn))
    else if CategoryColumn !in master.columns then Err(MissingColumn(CategoryColumn))
    else if |Choices(master, lib)| == 0 && NeedsScorer(Names(df, lib)) then Err(NoChoices)
    else Finalise(Matched(df, master, lib), lib)
  }

  /** An error met by the loop over a prefix of the columns is the loop's error. */
  lemma {:induction false} CoerceColumnsErrorStays(f: Frame, cols: seq<string>, k: nat, lib: Library)
    requires WellFormed(f) && k <= |cols|
    requires CoerceColumns(f, cols[..k], lib).Err?
    ensures CoerceColumns(f, cols, lib) == CoerceColumns(f, cols[..k], lib)
    decreases |cols| - k
  {
    if k < |cols| {
      assert cols[..k + 1][..k] == cols[..k];
      CoerceColumnsErrorStays(f, cols, k + 1, lib);
    } else {
      assert cols[..k] == cols;
    }
  }

  /** Lines 105-106 on a DataFrame: the fault met, if any. */
  method CoerceData(processed: DataFrame, lib: Library) returns (fault: Option<Fault>)
    requires processed.Valid()
    modifies processed
    ensures processed.Valid()
    ensures CoerceColumns(old(processed.Value()), NumericColumns, lib) ==
      if fault.None? then Ok(processed.Value()) else Err(fault.value)
  {
    ghost var matched := processed.Value();
    for k := 0 to |NumericColumns|
      invariant processed.Valid()
      invariant CoerceColumns(matched, NumericColumns[..k], lib) == Ok(processed.Value())
    {
      var col := NumericColumns[k];
      assert NumericColumns[..k + 1][..k] == NumericColumns[..k];
      if col !in processed.columns {
        CoerceColumnsErrorStays(matched, NumericColumns, k + 1, lib);
        return Some(MissingColumn(col));
      }
      processed.Assign(col, CoerceNumbers(Column(processed.Value(), col), lib));
    }
    assert NumericColumns[..|NumericColumns|] == NumericColumns;
    return None;
  }

  /** Lines 107-112 on a DataFrame. */
  method DressData(processed: DataFrame, lib: Library) returns (r: Frame)
    requires processed.Valid() && DateColumn in processed.columns && NoRenameClash(processed.columns)
    modifies processed
    ensures r == Dress(old(processed.Value()), lib)
  {
    ghost var f := processed.Value();
    processed.Assign(DateColumn, ParseDates(Column(processed.Value(), DateColumn), lib));
    assert processed.Value() == DatedFrame(f, lib);
    processed.DropNullInPlace(DateColumn);
    ghost var dropped := processed.Value();
    processed.Assign(WeekColumn, WeekCells(Column(processed.Value(), DateColumn)));
    assert processed.Value() == WithWeek(dropped);
    RenameKeepsDistinct(processed.columns);
    processed.RenameInPlace(Renames);
    FinalOrderDistinct();
    r := Project(processed.Value(), FinalOrder);
  }

  /** Lines 105-112 on a DataFrame holding the matched table. */
  method FinaliseData(processed: DataFrame, lib: Library) returns (r: Result<Frame, Fault>)
    requires processed.Valid() && NoRenameClash(processed.columns)
    modifies processed
    ensures r == Finalise(old(processed.Value()), lib)
  {
    var fault := CoerceData(processed, lib);
    if fault.Some? {
      return Err(fault.value);
    }
    if DateColumn !in processed.columns {
      return Err(MissingColumn(DateColumn));
    }
    var dressed := DressData(processed, lib);
    r := Ok(dressed);
  }

  /** `process_data(df, db_master)`. Like the original it changes both DataFrames in place:
      their NAMA columns become text. */
  method ProcessData(df: DataFrame, master: DataFrame, lib: Library) returns (r: Result<Frame, Fault>)
    requires df != master && df.Valid() && master.Valid()
    requires NoLabelClash(df.columns)
    modifies df, master
    ensures r == Process(old(df.Value()), old(master.Value()), lib)
    ensures df.Valid() && master.Valid()
    ensures df.Value() ==
      if NameColumn in old(df.columns) then StringifyNames(old(df.Value()), lib) else old(df.Value())
    ensures master.Value() ==
      if NameColumn in old(df.columns) && NameColumn in old(master.columns)
      then StringifyNames(old(master.Value()), lib) else old(master.Value())
  {
    ghost var store, products := df.Value(), master.Value();
    if NameColumn !in df.columns {
      return Err(MissingColumn(NameColumn));
    }
    var names := Names(df.Value(), lib);
    df.Assign(NameColumn, TextCells(names));
    if NameColumn !in master.columns {
      return Err(MissingColumn(NameColumn));
    }
    var choices := Names(master.Value(), lib);
    ghost var original := master.Value();
    master.Assign(NameColumn, TextCells(choices));
    if CategoryColumn !in master.columns {
      return Err(MissingColumn(CategoryColumn));
    }
    WithColumnReadBack(original, NameColumn, TextCells(choices), CategoryColumn);
    var categories := CategoryMap(choices, Column(master.Value(), CategoryColumn));
    if |choices| == 0 && exists i | 0 <= i < |names| :: names[i] != "" {
      return Err(NoChoices);
    }
    var matches := MatchAll(names, choices, categories, lib.extractOne);
    assert Attach(df.Value(), matches) == Matched(store, products, lib);
    var processed := new DataFrame(Attach(df.Value(), matches));
    r := FinaliseData(processed, lib);
  }

  /** The loop over the numeric columns succeeds exactly when every one of them is present. */
  lemma {:induction false} CoerceColumnsFaults(f: Frame, cols: seq<string>, lib: Library)
    requires WellFormed(f)
    ensures CoerceColumns(f, cols, lib).Ok? <==> forall c :: c in cols ==> c in f.columns
    decreases |cols|
  {
    if cols != [] {
      var n := |cols| - 1;
      var front := cols[..n];
      CoerceColumnsFaults(f, front, lib);
      assert forall c :: c in cols <==> c in front || c == cols[n];
    }
  }
}
