/** `load_source_data`: the walk over the source workbook's worksheets that keeps the store
    tables ("<Store> - REKAP - <Status>"), tags their rows with the store and its stock status,
    concatenates them in worksheet order, and keeps the last master ("DATABASE") table with
    duplicate product names dropped. */
module Loader {
  import opened Wrappers
  import opened Strings
  import opened Frames

  /** One worksheet as gspread hands it over: its title, its header row and the records of
      `get_all_records()`, each keyed by the header. */
  datatype Sheet = Sheet(title: string, header: seq<string>, records: seq<Row>)

  predicate ValidSheet(s: Sheet) {
    && Distinct(s.header)
    && forall i :: 0 <= i < |s.records| ==> s.records[i].Keys == LabelSet(s.header)
  }

  predicate ValidSheets(sheets: seq<Sheet>) {
    forall k :: 0 <= k < |sheets| ==> ValidSheet(sheets[k])
  }

  /** `pd.DataFrame(records)`: an empty list of records gives a frame without columns. */
  function RecordsFrame(s: Sheet): (f: Frame)
    requires ValidSheet(s)
    ensures WellFormed(f)
    ensures f.rows == s.records
    ensures f.columns == if s.records == [] then [] else s.header
  {
    if s.records == [] then Frame([], []) else Frame(s.header, s.records)
  }

  const Delimiter := " - REKAP - "
  const StoreColumn := "Toko"
  const StatusColumn := "Status"
  const KeyColumn := "NAMA"

  /** What the loader does with a worksheet, decided by its title. */
  datatype Role =
    | Store(store: string, status: string)  // a store table, with its row tags
    | MalformedStore                        // mentions REKAP but does not split in two
    | Master                                // the master product table
    | Ignored

  /** The title tests of `load_source_data`: "REKAP" first; then "DATABASE" without "BRAND". */
  function Classify(title: string): Role {
    if Contains(title, "REKAP") then
      var parts := Split(title, Delimiter);
      if |parts| == 2 then
        Store(Strip(parts[0]), if StartsWith(Strip(parts[1]), "RE") then "Ready" else "Habis")
      else MalformedStore
    else if Contains(title, "DATABASE") && !Contains(title, "BRAND") then Master
    else Ignored
  }

  /** A store title is the store part, the delimiter and the status part, neither part holding
      the delimiter; the store is the trimmed first part, and the status is "Ready" exactly when
      the trimmed second part starts with "RE", "Habis" otherwise. */
  lemma StoreTitleShape(title: string)
    requires Classify(title).Store?
    ensures var parts := Split(title, Delimiter);
      && |parts| == 2
      && title == parts[0] + Delimiter + parts[1]
      && !Contains(parts[0], Delimiter) && !Contains(parts[1], Delimiter)
      && Classify(title).store == Strip(parts[0])
      && (Classify(title).status == "Ready" <==> StartsWith(Strip(parts[1]), "RE"))
      && (Classify(title).status == "Ready" || Classify(title).status == "Habis")
  {
    var parts := Split(title, Delimiter);
    SplitJoin(title, Delimiter);
    SplitPartsAvoidSeparator(title, Delimiter);
    assert parts[1..] == [parts[1]];
  }

  /** A title that mentions REKAP but lacks the delimiter is skipped. */
  lemma NoDelimiterIsSkipped(title: string)
    requires Contains(title, "REKAP") && !Contains(title, Delimiter)
    ensures Classify(title) == MalformedStore
  {
    SplitSingleIffAbsent(title, Delimiter);
  }

  /** A title holding the delimiter twice, at separate places, is skipped too. */
  lemma DelimiterTwiceIsSkipped(a: string, b: string)
    requires Contains(a + Delimiter + b, "REKAP") && Contains(b, Delimiter)
    ensures Classify(a + Delimiter + b) == MalformedStore
  {
    SplitsInThreeOrMore(a, b);
  }

  /** A title holding the delimiter twice splits into at least three parts. */
  lemma SplitsInThreeOrMore(a: string, b: string)
    requires Contains(b, Delimiter)
    ensures |Split(a + Delimiter + b, Delimiter)| >= 3
  {
    var title := a + Delimiter + b;
    assert OccursAt(title, Delimiter, |a|) by {
      assert title[|a|..|a| + |Delimiter|] == Delimiter;
    }
    var i := IndexFrom(title, Delimiter, 0).value;
    assert i <= |a|;
    var rest := title[i + |Delimiter|..];
    DelimiterAfterFirst(a, b, i);
    SplitSingleIffAbsent(rest, Delimiter);
    assert |Split(title, Delimiter)| == 1 + |Split(rest, Delimiter)|;
  }

  /** Past a delimiter found no later than the one after `a`, the delimiter inside `b` remains. */
  lemma DelimiterAfterFirst(a: string, b: string, i: nat)
    requires i <= |a| && Contains(b, Delimiter)
    ensures Contains((a + Delimiter + b)[i + |Delimiter|..], Delimiter)
  {
    var rest := (a + Delimiter + b)[i + |Delimiter|..];
    var j: nat :| j <= |b| && OccursAt(b, Delimiter, j);
    var shift := |a| - i;
    assert rest[shift..] == b;
    assert rest[shift + j..shift + j + |Delimiter|] == b[j..j + |Delimiter|];
    assert OccursAt(rest, Delimiter, shift + j);
  }

  /** The store test wins over the master test: a title mentioning REKAP is never the master. */
  lemma StoreTestFirst(title: string)
    requires Contains(title, "REKAP")
    ensures !Classify(title).Master?
  {
  }

  /** The role of every worksheet, in workbook order. */
  function Roles(sheets: seq<Sheet>): (roles: seq<Role>)
    ensures |roles| == |sheets|
  {
    seq(|sheets|, k requires 0 <= k < |sheets| => Classify(sheets[k].title))
  }

  /** `df['Toko'] = store` then `df['Status'] = status` on the sheet's records. */
  function StoreTable(s: Sheet, role: Role): (f: Frame)
    requires ValidSheet(s) && role.Store?
    ensures WellFormed(f) && StoreColumn in f.columns && StatusColumn in f.columns
    ensures |f.rows| == |s.records|
  {
    var df := RecordsFrame(s);
    var tagged := WithColumn(df, StoreColumn, seq(|df.rows|, _ => Text(role.store)));
    WithColumn(tagged, StatusColumn, seq(|tagged.rows|, _ => Text(role.status)))
  }

  /** The store tables kept, in worksheet order, given each worksheet's role. */
  function StoreTables(sheets: seq<Sheet>, roles: seq<Role>): (tables: seq<Frame>)
    requires ValidSheets(sheets) && |roles| == |sheets|
    ensures |tables| == |StoreIndices(roles)|
    ensures forall m :: 0 <= m < |tables| ==>
      WellFormed(tables[m]) && StoreColumn in tables[m].columns && StatusColumn in tables[m].columns
  {
    if sheets == [] then []
    else
      var n := |sheets| - 1;
      StoreTables(sheets[..n], roles[..n]) + (if roles[n].Store? then [StoreTable(sheets[n], roles[n])] else [])
  }

  /** The indices of the worksheets kept as store tables. */
  function StoreIndices(roles: seq<Role>): (idx: seq<nat>)
    ensures forall m :: 0 <= m < |idx| ==> idx[m] < |roles| && roles[idx[m]].Store?
  {
    if roles == [] then []
    else
      var n := |roles| - 1;
      var front := roles[..n];
      assert forall k :: 0 <= k < n ==> front[k] == roles[k];
      StoreIndices(front) + (if roles[n].Store? then [n] else [])
  }

  /** The kept tables are the store worksheets at the indices `StoreIndices` lists, tagged. */
  lemma StoreTablesAtIndices(sheets: seq<Sheet>, roles: seq<Role>)
    requires ValidSheets(sheets) && |roles| == |sheets|
    ensures forall m :: 0 <= m < |StoreIndices(roles)| ==>
      StoreTables(sheets, roles)[m] == StoreTable(sheets[StoreIndices(roles)[m]], roles[StoreIndices(roles)[m]])
  {
    forall m | 0 <= m < |StoreIndices(roles)|
      ensures StoreTables(sheets, roles)[m] == StoreTable(sheets[StoreIndices(roles)[m]], roles[StoreIndices(roles)[m]])
    {
      StoreTableAt(sheets, roles, m);
    }
  }

  /** The `m`-th kept table is the store worksheet at the `m`-th store index, tagged. */
  lemma {:induction false} StoreTableAt(sheets: seq<Sheet>, roles: seq<Role>, m: nat)
    requires ValidSheets(sheets) && |roles| == |sheets| && m < |StoreIndices(roles)|
    ensures StoreIndices(roles)[m] < |sheets|
    ensures StoreTables(sheets, roles)[m] == StoreTable(sheets[StoreIndices(roles)[m]], roles[StoreIndices(roles)[m]])
    decreases |sheets|, 1
  {
    var n := |sheets| - 1;
    if m < |StoreIndices(roles[..n])| {
      StoreTableAtEarlier(sheets, roles, m);
    } else {
      assert StoreIndices(roles)[m] == n;
    }
  }

  /** A table kept before the last worksheet is where it was in the front's tables. */
  lemma {:induction false} StoreTableAtEarlier(sheets: seq<Sheet>, roles: seq<Role>, m: nat)
    requires ValidSheets(sheets) && |roles| == |sheets| && 1 <= |sheets|
    requires m < |StoreIndices(roles[..|sheets| - 1])|
    ensures StoreIndices(roles)[m] < |sheets|
    ensures StoreTables(sheets, roles)[m] == StoreTable(sheets[StoreIndices(roles)[m]], roles[StoreIndices(roles)[m]])
    decreases |sheets|, 0
  {
    var n := |sheets| - 1;
    var front, frontRoles := sheets[..n], roles[..n];
    StoreTableAt(front, frontRoles, m);
    var k := StoreIndices(frontRoles)[m];
    assert StoreIndices(roles)[m] == k;
    assert StoreTables(sheets, roles)[m] == StoreTables(front, frontRoles)[m];
    assert front[k] == sheets[k] && frontRoles[k] == roles[k];
  }

  /** `StoreIndices` lists, in increasing order, exactly the worksheets with a store title. */
  lemma {:induction false} StoreIndicesExactly(roles: seq<Role>)
    ensures forall m, l :: 0 <= m < l < |StoreIndices(roles)| ==> StoreIndices(roles)[m] < StoreIndices(roles)[l]
    ensures forall k :: 0 <= k < |roles| ==> (roles[k].Store? <==> k in StoreIndices(roles))
    decreases |roles|
  {
    if roles != [] {
      var n := |roles| - 1;
      var front := roles[..n];
      assert forall k :: 0 <= k < n ==> front[k] == roles[k];
      StoreIndicesExactly(front);
    }
  }

  /** The kept tables are exactly the store worksheets, tagged, in worksheet order. */
  lemma StoreTablesExactly(sheets: seq<Sheet>, roles: seq<Role>)
    requires ValidSheets(sheets) && |roles| == |sheets|
    ensures var tables, idx := StoreTables(sheets, roles), StoreIndices(roles);
      && |tables| == |idx|
      && (forall m :: 0 <= m < |idx| ==> tables[m] == StoreTable(sheets[idx[m]], roles[idx[m]]))
      && (forall m, l :: 0 <= m < l < |idx| ==> idx[m] < idx[l])
      && (forall k :: 0 <= k < |sheets| ==> (roles[k].Store? <==> k in idx))
  {
    StoreTablesAtIndices(sheets, roles);
    StoreIndicesExactly(roles);
  }

  /** The master table: the records of the last worksheet whose role is master. */
  function MasterTable(sheets: seq<Sheet>, roles: seq<Role>): (master: Option<Frame>)
    requires ValidSheets(sheets) && |roles| == |sheets|
    ensures master.Some? ==> WellFormed(master.value)
    ensures master.Some? && master.value.columns != [] ==> |master.value.rows| >= 1
  {
    if sheets == [] then None
    else
      var n := |sheets| - 1;
      if roles[n].Master? then Some(RecordsFrame(sheets[n]))
      else MasterTable(sheets[..n], roles[..n])
  }

  /** The last master worksheet wins. */
  lemma {:induction false} MasterIsLastDatabaseSheet(sheets: seq<Sheet>, roles: seq<Role>, k: nat)
    requires ValidSheets(sheets) && |roles| == |sheets| && k < |sheets|
    requires roles[k].Master?
    requires forall j :: k < j < |sheets| ==> !roles[j].Master?
    ensures MasterTable(sheets, roles) == Some(RecordsFrame(sheets[k]))
    decreases |sheets|
  {
    var n := |sheets| - 1;
    if k < n {
      var front, frontRoles := sheets[..n], roles[..n];
      assert forall j :: 0 <= j < n ==> front[j] == sheets[j] && frontRoles[j] == roles[j];
      MasterIsLastDatabaseSheet(front, frontRoles, k);
    }
  }

  /** Without a master worksheet there is no master. */
  lemma {:induction false} NoMasterWithoutDatabaseSheet(sheets: seq<Sheet>, roles: seq<Role>)
    requires ValidSheets(sheets) && |roles| == |sheets|
    requires forall j :: 0 <= j < |sheets| ==> !roles[j].Master?
    ensures MasterTable(sheets, roles) == None
    decreases |sheets|
  {
    if sheets != [] {
      var n := |sheets| - 1;
      var front, frontRoles := sheets[..n], roles[..n];
      assert forall j :: 0 <= j < n ==> front[j] == sheets[j] && frontRoles[j] == roles[j];
      NoMasterWithoutDatabaseSheet(front, frontRoles);
    }
  }

  /** Row `i` has a product name equal to that of an earlier row. */
  predicate SeenBefore(rows: seq<Row>, i: nat, key: string)
    requires i < |rows| && forall j :: 0 <= j < |rows| ==> key in rows[j]
  {
    exists j :: 0 <= j < i && rows[j][key] == rows[i][key]
  }

  /** `drop_duplicates(subset=[key])` on rows: the first row of each key value, in order. */
  function FirstOccurrences(rows: seq<Row>, key: string): (kept: seq<Row>)
    requires forall j :: 0 <= j < |rows| ==> key in rows[j]
    ensures forall k :: 0 <= k < |kept| ==> kept[k] in rows
  {
    if rows == [] then []
    else
      var n := |rows| - 1;
      assert forall j :: 0 <= j < n ==> rows[..n][j] == rows[j];
      FirstOccurrences(rows[..n], key) + (if SeenBefore(rows, n, key) then [] else [rows[n]])
  }

  /** The indices of the rows `FirstOccurrences` keeps. */
  function FirstIndices(rows: seq<Row>, key: string): (idx: seq<nat>)
    requires forall j :: 0 <= j < |rows| ==> key in rows[j]
    ensures forall k :: 0 <= k < |idx| ==> idx[k] < |rows|
  {
    if rows == [] then []
    else
      var n := |rows| - 1;
      assert forall j :: 0 <= j < n ==> rows[..n][j] == rows[j];
      FirstIndices(rows[..n], key) + (if SeenBefore(rows, n, key) then [] else [n])
  }

  /** Whether row `i` is a first occurrence does not depend on the rows after it. */
  lemma SeenBeforePrefix(rows: seq<Row>, n: nat, i: nat, key: string)
    requires i < n <= |rows| && forall j :: 0 <= j < |rows| ==> key in rows[j]
    ensures SeenBefore(rows[..n], i, key) == SeenBefore(rows, i, key)
  {
    var front := rows[..n];
    if SeenBefore(rows, i, key) {
      var j :| 0 <= j < i && rows[j][key] == rows[i][key];
      assert front[j][key] == front[i][key];
    }
  }

  /** `drop_duplicates` keeps the rows at the indices `FirstIndices` lists, in that order. */
  lemma FirstOccurrencesAtIndices(rows: seq<Row>, key: string)
    requires forall j :: 0 <= j < |rows| ==> key in rows[j]
    ensures |FirstOccurrences(rows, key)| == |FirstIndices(rows, key)|
    ensures forall k :: 0 <= k < |FirstIndices(rows, key)| ==>
      FirstOccurrences(rows, key)[k] == rows[FirstIndices(rows, key)[k]]
  {
    FirstOccurrencesLength(rows, key);
    forall k | 0 <= k < |FirstIndices(rows, key)|
      ensures FirstOccurrences(rows, key)[k] == rows[FirstIndices(rows, key)[k]]
    {
      FirstOccurrenceAt(rows, key, k);
    }
  }

  lemma {:induction false} FirstOccurrencesLength(rows: seq<Row>, key: string)
    requires forall j :: 0 <= j < |rows| ==> key in rows[j]
    ensures |FirstOccurrences(rows, key)| == |FirstIndices(rows, key)|
    decreases |rows|
  {
    if rows != [] {
      var front := rows[..|rows| - 1];
      assert forall j :: 0 <= j < |front| ==> front[j] == rows[j];
      FirstOccurrencesLength(front, key);
    }
  }

  /** The `k`-th row kept is the row at the `k`-th first index. */
  lemma {:induction false} FirstOccurrenceAt(rows: seq<Row>, key: string, k: nat)
    requires forall j :: 0 <= j < |rows| ==> key in rows[j]
    requires k < |FirstIndices(rows, key)|
    ensures k < |FirstOccurrences(rows, key)|
    ensures FirstOccurrences(rows, key)[k] == rows[FirstIndices(rows, key)[k]]
    decreases |rows|, 1
  {
    var front := rows[..|rows| - 1];
    assert forall j :: 0 <= j < |front| ==> front[j] == rows[j];
    FirstOccurrencesLength(front, key);
    if k < |FirstIndices(front, key)| {
      FirstOccurrenceAtEarlier(rows, key, k);
    } else {
      assert FirstIndices(rows, key)[k] == |rows| - 1;
    }
  }

  /** A row kept before the last one is where it was among the front's kept rows. */
  lemma {:induction false} FirstOccurrenceAtEarlier(rows: seq<Row>, key: string, k: nat)
    requires forall j :: 0 <= j < |rows| ==> key in rows[j]
    requires 1 <= |rows| && k < |FirstIndices(rows[..|rows| - 1], key)|
    ensures k < |FirstOccurrences(rows, key)|
    ensures FirstOccurrences(rows, key)[k] == rows[FirstIndices(rows, key)[k]]
    decreases |rows|, 0
  {
    var front := rows[..|rows| - 1];
    assert forall j :: 0 <= j < |front| ==> front[j] == rows[j];
    FirstOccurrenceAt(front, key, k);
    FirstOccurrencesLength(rows, key);
    var j := FirstIndices(front, key)[k];
    assert FirstIndices(rows, key)[k] == j;
    assert FirstOccurrences(rows, key)[k] == FirstOccurrences(front, key)[k];
  }

  /** `FirstIndices` lists, in increasing order, exactly the rows whose key value no earlier row
      has. */
  lemma {:induction false} FirstIndicesExactly(rows: seq<Row>, key: string)
    requires forall j :: 0 <= j < |rows| ==> key in rows[j]
    ensures forall k, l :: 0 <= k < l < |FirstIndices(rows, key)| ==>
      FirstIndices(rows, key)[k] < FirstIndices(rows, key)[l]
    ensures forall i :: 0 <= i < |rows| ==> (!SeenBefore(rows, i, key) <==> i in FirstIndices(rows, key))
    decreases |rows|
  {
    if rows != [] {
      var n := |rows| - 1;
      var front := rows[..n];
      FirstIndicesExactly(front, key);
      forall i | 0 <= i < n ensures SeenBefore(front, i, key) == SeenBefore(rows, i, key) {
        SeenBeforePrefix(rows, n, i, key);
      }
    }
  }

  /** `drop_duplicates` keeps, in their order, exactly the rows whose key value no earlier row
      has. */
  lemma FirstOccurrencesExactly(rows: seq<Row>, key: string)
    requires forall j :: 0 <= j < |rows| ==> key in rows[j]
    ensures var kept, idx := FirstOccurrences(rows, key), FirstIndices(rows, key);
      && |kept| == |idx|
      && (forall k :: 0 <= k < |idx| ==> kept[k] == rows[idx[k]])
      && (forall k, l :: 0 <= k < l < |idx| ==> idx[k] < idx[l])
      && (forall i :: 0 <= i < |rows| ==> (!SeenBefore(rows, i, key) <==> i in idx))
  {
    FirstOccurrencesAtIndices(rows, key);
    FirstIndicesExactly(rows, key);
  }

  /** The first row holding the key value of row `i`. */
  function FirstWithKey(rows: seq<Row>, i: nat, key: string): (j: nat)
    requires i < |rows| && forall j :: 0 <= j < |rows| ==> key in rows[j]
    ensures j <= i && rows[j][key] == rows[i][key] && !SeenBefore(rows, j, key)
    decreases i
  {
    if SeenBefore(rows, i, key) then
      var j :| 0 <= j < i && rows[j][key] == rows[i][key];
      FirstWithKey(rows, j, key)
    else i
  }

  /** After `drop_duplicates` the key values are unique, and every key value of the input is
      still there. */
  lemma FirstOccurrencesKeys(rows: seq<Row>, key: string)
    requires forall j :: 0 <= j < |rows| ==> key in rows[j]
    ensures var kept := FirstOccurrences(rows, key);
      && (forall k, l :: 0 <= k < l < |kept| ==> kept[k][key] != kept[l][key])
      && (forall i :: 0 <= i < |rows| ==> exists k :: 0 <= k < |kept| && kept[k][key] == rows[i][key])
  {
    var kept, idx := FirstOccurrences(rows, key), FirstIndices(rows, key);
    FirstOccurrencesExactly(rows, key);
    forall k, l | 0 <= k < l < |kept| ensures kept[k][key] != kept[l][key] {
      assert !SeenBefore(rows, idx[l], key) by { assert idx[l] in idx; }
    }
    forall i | 0 <= i < |rows| ensures exists k :: 0 <= k < |kept| && kept[k][key] == rows[i][key] {
      var j := FirstWithKey(rows, i, key);
      assert j in idx;
      var k :| 0 <= k < |idx| && idx[k] == j;
      assert kept[k][key] == rows[i][key];
    }
  }

  /** `df.drop_duplicates(subset=[key])`. */
  function DropDuplicates(f: Frame, key: string): (r: Frame)
    requires WellFormed(f) && key in f.columns
    ensures WellFormed(r) && r.columns == f.columns
    ensures r.rows == FirstOccurrences(f.rows, key)
    ensures |f.rows| >= 1 ==> |r.rows| >= 1
  {
    var kept := FirstOccurrences(f.rows, key);
    assert |f.rows| >= 1 ==> !SeenBefore(f.rows, 0, key);
    FirstOccurrencesExactly(f.rows, key);
    Frame(f.columns, kept)
  }

  /** What `load_source_data` returns: the combined store table and the de-duplicated master,
      or nothing when no store table was kept, no master exists, or the master has no NAMA
      column (the error `drop_duplicates` raises is caught). */
  function LoadSource(sheets: seq<Sheet>): Option<(Frame, Frame)>
    requires ValidSheets(sheets)
  {
    var roles := Roles(sheets);
    var stores, master := StoreTables(sheets, roles), MasterTable(sheets, roles);
    if stores == [] || master.None? then None
    else if KeyColumn !in master.value.columns then None
    else Some((Concat(stores), DropDuplicates(master.value, KeyColumn)))
  }

  /** One more worksheet: its table joins the kept ones when it is a store, and it becomes
      the master when it is one. */
  lemma LoadStep(sheets: seq<Sheet>, roles: seq<Role>, k: nat)
    requires ValidSheets(sheets) && roles == Roles(sheets) && k < |sheets|
    ensures roles[k] == Classify(sheets[k].title)
    ensures StoreTables(sheets[..k + 1], roles[..k + 1]) ==
      StoreTables(sheets[..k], roles[..k]) + (if roles[k].Store? then [StoreTable(sheets[k], roles[k])] else [])
    ensures MasterTable(sheets[..k + 1], roles[..k + 1]) ==
      if roles[k].Master? then Some(RecordsFrame(sheets[k])) else MasterTable(sheets[..k], roles[..k])
  {
    assert sheets[..k + 1][..k] == sheets[..k] && roles[..k + 1][..k] == roles[..k];
  }

  /** `load_source_data`, worksheet by worksheet. */
  method LoadSourceData(sheets: seq<Sheet>) returns (r: Option<(Frame, Frame)>)
    requires ValidSheets(sheets)
    ensures r == LoadSource(sheets)
  {
    ghost var roles := Roles(sheets);
    var storeTables: seq<Frame> := [];
    var master: Option<Frame> := None;
    for k := 0 to |sheets|
      invariant storeTables == StoreTables(sheets[..k], roles[..k])
      invariant master == MasterTable(sheets[..k], roles[..k])
    {
      var sheet := sheets[k];
      LoadStep(sheets, roles, k);
      if Contains(sheet.title, "REKAP") {
        var df := RecordsFrame(sheet);
        var parts := Split(sheet.title, Delimiter);
        if |parts| == 2 {
          df := WithColumn(df, StoreColumn, seq(|df.rows|, _ => Text(Strip(parts[0]))));
          var status := if StartsWith(Strip(parts[1]), "RE") then "Ready" else "Habis";
          df := WithColumn(df, StatusColumn, seq(|df.rows|, _ => Text(status)));
          storeTables := storeTables + [df];
        }
      } else if Contains(sheet.title, "DATABASE") && !Contains(sheet.title, "BRAND") {
        master := Some(RecordsFrame(sheet));
      }
    }
    assert sheets[..|sheets|] == sheets && roles[..|sheets|] == roles;
    if storeTables == [] || master.None? {
      return None;
    }
    var combined := Concat(storeTables);
    if KeyColumn !in master.value.columns {
      return None;
    }
    r := Some((combined, DropDuplicates(master.value, KeyColumn)));
  }

  /** Row `at` of `combined` is record `rec` tagged with the store and status of `role`,
      padded to the combined columns. */
  predicate TaggedRowAt(combined: Frame, at: nat, rec: Row, role: Role)
    requires role.Store?
  {
    && at < |combined.rows|
    && combined.rows[at] == Pad(rec[StoreColumn := Text(role.store)][StatusColumn := Text(role.status)], combined.columns)
  }

  /** Every row of the combined table is a record of a store worksheet, in worksheet order,
      carrying that worksheet's store and status: row `i` of the `m`-th kept worksheet sits
      after the rows of the kept worksheets before it. */
  lemma CombinedRowsTagged(sheets: seq<Sheet>, m: nat, i: nat)
    requires ValidSheets(sheets) && LoadSource(sheets).Some?
    requires m < |StoreIndices(Roles(sheets))|
    requires i < |sheets[StoreIndices(Roles(sheets))[m]].records|
    ensures LoadSource(sheets).value.0 == Concat(StoreTables(sheets, Roles(sheets)))
    ensures var roles := Roles(sheets);
      var tables, k := StoreTables(sheets, roles), StoreIndices(roles)[m];
      TaggedRowAt(Concat(tables), RowsBefore(tables, m) + i, sheets[k].records[i], roles[k])
  {
    LoadedCombined(sheets);
    ConcatenatedRowAt(sheets, Roles(sheets), m, i);
  }

  /** The combined table holds nothing but the kept records: its row `p` is record `i` of the
      `m`-th kept worksheet, tagged, at the place `CombinedRowsTagged` gives that record. */
  lemma CombinedRowSource(sheets: seq<Sheet>, p: nat)
    requires ValidSheets(sheets) && LoadSource(sheets).Some?
    requires p < |LoadSource(sheets).value.0.rows|
    ensures var roles := Roles(sheets);
      var indices, tables := StoreIndices(roles), StoreTables(sheets, roles);
      exists m, i :: 0 <= m < |indices| && 0 <= i < |sheets[indices[m]].records| && p == RowsBefore(tables, m) + i
        && TaggedRowAt(LoadSource(sheets).value.0, p, sheets[indices[m]].records[i], roles[indices[m]])
  {
    var roles := Roles(sheets);
    var tables := StoreTables(sheets, roles);
    LoadedCombined(sheets);
    var at := Locate(tables, |tables|, p);
    KeptTableSize(sheets, roles, at.0);
    ConcatenatedRowAt(sheets, roles, at.0, at.1);
  }

  /** The `m`-th kept table has one row per record of its worksheet. */
  lemma KeptTableSize(sheets: seq<Sheet>, roles: seq<Role>, m: nat)
    requires ValidSheets(sheets) && |roles| == |sheets| && m < |StoreIndices(roles)|
    ensures |StoreTables(sheets, roles)[m].rows| == |sheets[StoreIndices(roles)[m]].records|
  {
    StoreTableAt(sheets, roles, m);
  }

  /** A store table's columns are its worksheet's header, when it has records, with `Toko`
      and `Status`. */
  lemma StoreTableColumns(s: Sheet, role: Role, c: string)
    requires ValidSheet(s) && role.Store?
    ensures c in StoreTable(s, role).columns <==>
      c == StoreColumn || c == StatusColumn || (s.records != [] && c in s.header)
  {
  }

  /** A column of the combined table is `Toko`, `Status` or a header label of a kept worksheet
      with records, and every such label is a column. */
  lemma CombinedColumns(sheets: seq<Sheet>, c: string)
    requires ValidSheets(sheets) && LoadSource(sheets).Some?
    ensures var roles := Roles(sheets); var indices := StoreIndices(roles);
      c in LoadSource(sheets).value.0.columns <==>
        c == StoreColumn || c == StatusColumn
        || exists m :: 0 <= m < |indices| && sheets[indices[m]].records != [] && c in sheets[indices[m]].header
  {
    var roles := Roles(sheets);
    var indices, tables := StoreIndices(roles), StoreTables(sheets, roles);
    LoadedCombined(sheets);
    ConcatColumnsExactly(tables, c);
    forall m | 0 <= m < |indices|
      ensures c in tables[m].columns <==>
        c == StoreColumn || c == StatusColumn || (sheets[indices[m]].records != [] && c in sheets[indices[m]].header)
    {
      StoreTableAt(sheets, roles, m);
      StoreTableColumns(sheets[indices[m]], roles[indices[m]], c);
    }
    assert c in tables[0].columns <==>
      c == StoreColumn || c == StatusColumn || (sheets[indices[0]].records != [] && c in sheets[indices[0]].header);
  }

  /** A loaded combined table is the concatenation of the kept store tables. */
  lemma LoadedCombined(sheets: seq<Sheet>)
    requires ValidSheets(sheets) && LoadSource(sheets).Some?
    ensures StoreTables(sheets, Roles(sheets)) != []
    ensures LoadSource(sheets).value.0 == Concat(StoreTables(sheets, Roles(sheets)))
  {
  }

  /** The concatenation of the kept tables holds each kept record, tagged, after the rows of
      the kept worksheets before it. */
  lemma ConcatenatedRowAt(sheets: seq<Sheet>, roles: seq<Role>, m: nat, i: nat)
    requires ValidSheets(sheets) && |roles| == |sheets|
    requires m < |StoreIndices(roles)| && i < |sheets[StoreIndices(roles)[m]].records|
    requires StoreTables(sheets, roles) != []
    ensures var tables, k := StoreTables(sheets, roles), StoreIndices(roles)[m];
      TaggedRowAt(Concat(tables), RowsBefore(tables, m) + i, sheets[k].records[i], roles[k])
  {
    KeptRecord(sheets, roles, m, i);
    ConcatRows(StoreTables(sheets, roles), m, i);
  }

  /** Row `i` of the `m`-th kept table is record `i` of its worksheet, tagged. */
  lemma KeptRecord(sheets: seq<Sheet>, roles: seq<Role>, m: nat, i: nat)
    requires ValidSheets(sheets) && |roles| == |sheets|
    requires m < |StoreIndices(roles)| && i < |sheets[StoreIndices(roles)[m]].records|
    ensures var k := StoreIndices(roles)[m];
      && i < |StoreTables(sheets, roles)[m].rows|
      && StoreTables(sheets, roles)[m].rows[i] ==
         sheets[k].records[i][StoreColumn := Text(roles[k].store)][StatusColumn := Text(roles[k].status)]
  {
    var k := StoreIndices(roles)[m];
    StoreTableAt(sheets, roles, m);
    StoreTableRow(sheets[k], roles[k], i);
  }

  /** Row `i` of a store table is record `i` of its worksheet with the store and status set. */
  lemma StoreTableRow(s: Sheet, role: Role, i: nat)
    requires ValidSheet(s) && role.Store? && i < |s.records|
    ensures |StoreTable(s, role).rows| == |s.records|
    ensures i < |StoreTable(s, role).rows|
    ensures StoreTable(s, role).rows[i] == s.records[i][StoreColumn := Text(role.store)][StatusColumn := Text(role.status)]
  {
  }

  /** A loaded master has a NAMA column, at least one row, and no product name twice. */
  lemma LoadedMasterShape(sheets: seq<Sheet>)
    requires ValidSheets(sheets) && LoadSource(sheets).Some?
    ensures var master := LoadSource(sheets).value.1;
      && KeyColumn in master.columns && |master.rows| >= 1
      && forall k, l :: 0 <= k < l < |master.rows| ==> master.rows[k][KeyColumn] != master.rows[l][KeyColumn]
  {
    var m := MasterTable(sheets, Roles(sheets)).value;
    FirstOccurrencesKeys(m.rows, KeyColumn);
  }

  /** A loaded combined table has the Toko and Status columns. */
  lemma LoadedTableTagged(sheets: seq<Sheet>)
    requires ValidSheets(sheets) && LoadSource(sheets).Some?
    ensures StoreColumn in LoadSource(sheets).value.0.columns
    ensures StatusColumn in LoadSource(sheets).value.0.columns
  {
    var tables := StoreTables(sheets, Roles(sheets));
    ConcatColumnsCover(tables, 0);
    assert StoreColumn in LabelSet(tables[0].columns) && StatusColumn in LabelSet(tables[0].columns);
  }
}
