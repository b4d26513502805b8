/** Tables as the pipeline sees them: the cells gspread hands over, pandas DataFrames as
    values (`Frame`), the few pandas operations the pipeline applies to them, and a
    `DataFrame` object for the operations that pandas performs in place. */
module Frames {
  import opened Wrappers
  import opened Calendar

  /** One cell: text, a number (gspread's ints and floats), a parsed timestamp, or a missing
      value (pandas' `NaN` and `NaT`). */
  datatype Cell = Text(s: string) | Num(x: real) | Stamp(d: Day) | Null

  /** One row, keyed by column label. */
  type Row = map<string, Cell>

  /** A DataFrame as a value: its ordered column labels and its rows in index order. */
  datatype Frame = Frame(columns: seq<string>, rows: seq<Row>)

  predicate Distinct(labels: seq<string>) {
    forall i, j :: 0 <= i < j < |labels| ==> labels[i] != labels[j]
  }

  function LabelSet(labels: seq<string>): set<string> {
    set c | c in labels
  }

  /** Column labels are unique and every row has a cell for exactly those labels. */
  predicate WellFormed(f: Frame) {
    && Distinct(f.columns)
    && forall i :: 0 <= i < |f.rows| ==> f.rows[i].Keys == LabelSet(f.columns)
  }

  /** `df[name]`: the cells of one column, in row order. */
  function Column(f: Frame, name: string): (cells: seq<Cell>)
    requires WellFormed(f) && name in f.columns
    ensures |cells| == |f.rows|
    ensures forall i :: 0 <= i < |cells| ==> cells[i] == f.rows[i][name]
  {
    seq(|f.rows|, i requires 0 <= i < |f.rows| => f.rows[i][name])
  }

  /** `df[name] = cells`: replace the column if it exists, add it at the end otherwise. */
  function WithColumn(f: Frame, name: string, cells: seq<Cell>): (r: Frame)
    requires WellFormed(f) && |cells| == |f.rows|
    ensures WellFormed(r) && |r.rows| == |f.rows|
    ensures r.columns == if name in f.columns then f.columns else f.columns + [name]
    ensures forall i :: 0 <= i < |r.rows| ==> r.rows[i] == f.rows[i][name := cells[i]]
  {
    var labels := if name in f.columns then f.columns else f.columns + [name];
    Frame(labels, seq(|f.rows|, i requires 0 <= i < |f.rows| => f.rows[i][name := cells[i]]))
  }

  /** After `df[name] = cells`, the column reads back as `cells` and every other column is
      unchanged. */
  lemma WithColumnReadBack(f: Frame, name: string, cells: seq<Cell>, other: string)
    requires WellFormed(f) && |cells| == |f.rows|
    requires other in f.columns && other != name
    ensures Column(WithColumn(f, name, cells), name) == cells
    ensures Column(WithColumn(f, name, cells), other) == Column(f, other)
  {
  }

  /** A row whose labels are extended to `labels`, the new cells missing: how `pd.concat`
      aligns a row to the union of the columns. */
  function Pad(row: Row, labels: seq<string>): (r: Row)
    ensures r.Keys == LabelSet(labels)
    ensures forall c :: c in labels && c in row ==> r[c] == row[c]
  {
    map c | c in LabelSet(labels) :: if c in row then row[c] else Null
  }

  function PadRows(rows: seq<Row>, labels: seq<string>): (r: seq<Row>)
    ensures |r| == |rows|
    ensures forall i :: 0 <= i < |r| ==> r[i] == Pad(rows[i], labels)
  {
    seq(|rows|, i requires 0 <= i < |rows| => Pad(rows[i], labels))
  }

  /** The labels of `a` followed by those of `b` that are new, in `b`'s order. */
  function MergeLabels(a: seq<string>, b: seq<string>): (r: seq<string>)
    ensures LabelSet(r) == LabelSet(a) + LabelSet(b)
    ensures |a| <= |r| && r[..|a|] == a
    ensures Distinct(a) && Distinct(b) ==> Distinct(r)
    decreases |b|
  {
    if b == [] then a
    else
      var front := MergeLabels(a, b[..|b| - 1]);
      var c := b[|b| - 1];
      assert LabelSet(b) == LabelSet(b[..|b| - 1]) + {c} by {
        assert b == b[..|b| - 1] + [c];
      }
      if c in front then front
      else
        assert LabelSet(front + [c]) == LabelSet(front) + {c};
        front + [c]
  }

  /** The labels `MergeLabels` adds after those of `a` come from `b`, in `b`'s order. */
  lemma {:induction false} MergeLabelsOrder(a: seq<string>, b: seq<string>)
    ensures var tail := MergeLabels(a, b)[|a|..];
      && (forall x :: x in tail ==> x in b)
      && Follows(tail, b)
    decreases |b|
  {
    if b != [] {
      var init, c := b[..|b| - 1], b[|b| - 1];
      MergeLabelsOrder(a, init);
      PrecedesInit(b);
      var front := MergeLabels(a, init);
      var old_tail := front[|a|..];
      var tail := MergeLabels(a, b)[|a|..];
      forall x | x in old_tail ensures x in b {
        var i :| 0 <= i < |init| && init[i] == x;
        assert b[i] == x;
      }
      if c !in front {
        assert tail == old_tail + [c];
        forall p, q | 0 <= p < q < |tail| ensures Precedes(b, tail[p], tail[q]) {
          if q < |old_tail| {
            assert tail[p] == old_tail[p] && tail[q] == old_tail[q];
          } else {
            assert tail[p] in init by { assert tail[p] == old_tail[p]; }
            var i :| 0 <= i < |init| && init[i] == tail[p];
            assert b[i] == tail[p] && b[|b| - 1] == tail[q];
          }
        }
      } else {
        assert tail == old_tail;
      }
    }
  }

  /** `pd.concat([a, b], ignore_index=True)`: the rows of `a` then those of `b`, each aligned
      to the union of the two frames' columns. */
  function Append(a: Frame, b: Frame): (r: Frame)
    requires WellFormed(a) && WellFormed(b)
    ensures WellFormed(r)
    ensures |r.rows| == |a.rows| + |b.rows|
  {
    var labels := MergeLabels(a.columns, b.columns);
    Frame(labels, PadRows(a.rows, labels) + PadRows(b.rows, labels))
  }

  predicate AllWellFormed(frames: seq<Frame>) {
    forall k :: 0 <= k < |frames| ==> WellFormed(frames[k])
  }

  /** The number of rows in the first `k` frames. */
  function RowsBefore(frames: seq<Frame>, k: nat): nat
    requires k <= |frames|
  {
    if k == 0 then 0 else RowsBefore(frames, k - 1) + |frames[k - 1].rows|
  }

  /** `pd.concat` of the first `n` frames. */
  function ConcatFirst(frames: seq<Frame>, n: nat): (r: Frame)
    requires 1 <= n <= |frames| && AllWellFormed(frames)
    ensures WellFormed(r) && |r.rows| == RowsBefore(frames, n)
  {
    if n == 1 then frames[0]
    else Append(ConcatFirst(frames, n - 1), frames[n - 1])
  }

  /** `pd.concat(frames, ignore_index=True)` for a non-empty list. */
  function Concat(frames: seq<Frame>): (r: Frame)
    requires |frames| >= 1 && AllWellFormed(frames)
    ensures WellFormed(r) && |r.rows| == RowsBefore(frames, |frames|)
  {
    ConcatFirst(frames, |frames|)
  }

  /** The rows of `Append(a, b)`: those of `a`, then those of `b`, each padded. */
  lemma AppendRowAt(a: Frame, b: Frame, j: nat)
    requires WellFormed(a) && WellFormed(b)
    requires j < |a.rows| + |b.rows|
    ensures Append(a, b).rows[j] ==
      if j < |a.rows| then Pad(a.rows[j], Append(a, b).columns) else Pad(b.rows[j - |a.rows|], Append(a, b).columns)
  {
  }

  lemma AppendEarlierRow(acc: Frame, last: Frame, f: Frame, i: nat, at: nat)
    requires WellFormed(acc) && WellFormed(last) && WellFormed(f) && i < |f.rows|
    requires LabelSet(f.columns) <= LabelSet(acc.columns)
    requires at < |acc.rows| && acc.rows[at] == Pad(f.rows[i], acc.columns)
    ensures at < |Append(acc, last).rows|
    ensures Append(acc, last).rows[at] == Pad(f.rows[i], Append(acc, last).columns)
  {
    AppendRowAt(acc, last, at);
    AppendCover(acc, last);
    PadTwice(f.rows[i], acc.columns, Append(acc, last).columns);
  }

  lemma AppendLastRow(acc: Frame, last: Frame, i: nat)
    requires WellFormed(acc) && WellFormed(last)
    requires i < |last.rows|
    ensures |acc.rows| + i < |Append(acc, last).rows|
    ensures Append(acc, last).rows[|acc.rows| + i] == Pad(last.rows[i], Append(acc, last).columns)
  {
    PaddedRowAfter(acc.rows, last.rows, MergeLabels(acc.columns, last.columns), i);
  }

  /** Padding two lists of rows and joining them puts row `i` of the second after all of the
      first. */
  lemma PaddedRowAfter(rows: seq<Row>, more: seq<Row>, labels: seq<string>, i: nat)
    requires i < |more|
    ensures (PadRows(rows, labels) + PadRows(more, labels))[|rows| + i] == Pad(more[i], labels)
  {
  }

  lemma AppendCover(a: Frame, b: Frame)
    requires WellFormed(a) && WellFormed(b)
    ensures LabelSet(a.columns) <= LabelSet(Append(a, b).columns)
    ensures LabelSet(b.columns) <= LabelSet(Append(a, b).columns)
  {
  }

  /** Every one of the first `n` frames has its columns among those of their concatenation. */
  lemma {:induction false} ConcatFirstCover(frames: seq<Frame>, n: nat, k: nat)
    requires 1 <= n <= |frames| && AllWellFormed(frames) && k < n
    ensures LabelSet(frames[k].columns) <= LabelSet(ConcatFirst(frames, n).columns)
    decreases n
  {
    if n > 1 {
      var acc := ConcatFirst(frames, n - 1);
      AppendCover(acc, frames[n - 1]);
      if k < n - 1 {
        ConcatFirstCover(frames, n - 1, k);
      } else {
        assert frames[k] == frames[n - 1];
      }
    }
  }

  /** Row `i` of frame `k` sits in the concatenation of the first `n` frames after the rows of
      the frames before it, padded to the concatenation's columns. */
  lemma {:induction false} ConcatFirstRows(frames: seq<Frame>, n: nat, k: nat, i: nat)
    requires 1 <= n <= |frames| && AllWellFormed(frames)
    requires k < n && i < |frames[k].rows|
    ensures RowsBefore(frames, k) + i < |ConcatFirst(frames, n).rows|
    ensures ConcatFirst(frames, n).rows[RowsBefore(frames, k) + i] == Pad(frames[k].rows[i], ConcatFirst(frames, n).columns)
    decreases n, 1
  {
    if n == 1 {
      ConcatFirstRowsOne(frames, k, i);
    } else if k < n - 1 {
      ConcatFirstRowsEarlier(frames, n, k, i);
    } else {
      ConcatFirstRowsLast(frames, n, k, i);
    }
  }

  lemma ConcatFirstRowsOne(frames: seq<Frame>, k: nat, i: nat)
    requires 1 <= |frames| && AllWellFormed(frames)
    requires k == 0 && i < |frames[k].rows|
    ensures RowsBefore(frames, k) + i < |ConcatFirst(frames, 1).rows|
    ensures ConcatFirst(frames, 1).rows[RowsBefore(frames, k) + i] == Pad(frames[k].rows[i], ConcatFirst(frames, 1).columns)
  {
    PadIdentity(frames[0].rows[i], frames[0].columns);
  }

  /** A row of an earlier frame keeps its place when one more frame is appended. */
  lemma {:induction false} ConcatFirstRowsEarlier(frames: seq<Frame>, n: nat, k: nat, i: nat)
    requires 2 <= n <= |frames| && AllWellFormed(frames)
    requires k < n - 1 && i < |frames[k].rows|
    ensures RowsBefore(frames, k) + i < |ConcatFirst(frames, n).rows|
    ensures ConcatFirst(frames, n).rows[RowsBefore(frames, k) + i] == Pad(frames[k].rows[i], ConcatFirst(frames, n).columns)
    decreases n, 0
  {
    ConcatFirstRows(frames, n - 1, k, i);
    ConcatFirstCover(frames, n - 1, k);
    AppendEarlierRow(ConcatFirst(frames, n - 1), frames[n - 1], frames[k], i, RowsBefore(frames, k) + i);
  }

  /** The rows of the last frame follow all the rows of the frames before it. */
  lemma ConcatFirstRowsLast(frames: seq<Frame>, n: nat, k: nat, i: nat)
    requires 2 <= n <= |frames| && AllWellFormed(frames)
    requires k == n - 1 && i < |frames[k].rows|
    ensures RowsBefore(frames, k) + i < |ConcatFirst(frames, n).rows|
    ensures ConcatFirst(frames, n).rows[RowsBefore(frames, k) + i] == Pad(frames[k].rows[i], ConcatFirst(frames, n).columns)
  {
    AppendLastRow(ConcatFirst(frames, n - 1), frames[n - 1], i);
  }

  /** Concatenation neither adds nor loses rows, keeps the frames' order, and keeps every cell
      a frame has: row `i` of frame `k` sits after the rows of the frames before it, with the
      same cells and a missing cell in every column that frame lacks. */
  lemma ConcatRows(frames: seq<Frame>, k: nat, i: nat)
    requires |frames| >= 1 && AllWellFormed(frames)
    requires k < |frames| && i < |frames[k].rows|
    ensures RowsBefore(frames, k) + i < |Concat(frames).rows|
    ensures Concat(frames).rows[RowsBefore(frames, k) + i] == Pad(frames[k].rows[i], Concat(frames).columns)
  {
    ConcatFirstRows(frames, |frames|, k, i);
  }

  /** Where row `p` of the concatenation of the first `n` frames comes from: the frame and its
      row, placed as `ConcatRows` places them. Together with `ConcatRows` this says that the
      concatenation holds the frames' rows and nothing else. */
  function Locate(frames: seq<Frame>, n: nat, p: nat): (at: (nat, nat))
    requires n <= |frames| && p < RowsBefore(frames, n)
    ensures at.0 < n && at.1 < |frames[at.0].rows| && p == RowsBefore(frames, at.0) + at.1
    decreases n
  {
    if p >= RowsBefore(frames, n - 1) then (n - 1, p - RowsBefore(frames, n - 1))
    else Locate(frames, n - 1, p)
  }

  /** Every frame's columns are among the columns of the concatenation. */
  lemma ConcatColumnsCover(frames: seq<Frame>, k: nat)
    requires |frames| >= 1 && AllWellFormed(frames) && k < |frames|
    ensures LabelSet(frames[k].columns) <= LabelSet(Concat(frames).columns)
  {
    ConcatFirstCover(frames, |frames|, k);
  }

  /** Every column of the concatenation of the first `n` frames is a column of one of them. */
  lemma {:induction false} ConcatFirstColumnFrom(frames: seq<Frame>, n: nat, c: string)
    requires 1 <= n <= |frames| && AllWellFormed(frames)
    requires c in ConcatFirst(frames, n).columns
    ensures exists k :: 0 <= k < n && c in frames[k].columns
    decreases n
  {
    if n > 1 {
      var acc, last := ConcatFirst(frames, n - 1), frames[n - 1];
      assert c in LabelSet(MergeLabels(acc.columns, last.columns));
      if c in acc.columns {
        ConcatFirstColumnFrom(frames, n - 1, c);
        var k :| 0 <= k < n - 1 && c in frames[k].columns;
        assert k < n;
      } else {
        assert c in last.columns;
      }
    } else {
      assert c in frames[0].columns;
    }
  }

  /** The concatenation's columns are exactly the union of the frames' columns. */
  lemma ConcatColumnsExactly(frames: seq<Frame>, c: string)
    requires |frames| >= 1 && AllWellFormed(frames)
    ensures c in Concat(frames).columns <==> exists k :: 0 <= k < |frames| && c in frames[k].columns
  {
    if c in Concat(frames).columns {
      ConcatFirstColumnFrom(frames, |frames|, c);
    }
    if exists k :: 0 <= k < |frames| && c in frames[k].columns {
      var k :| 0 <= k < |frames| && c in frames[k].columns;
      ConcatColumnsCover(frames, k);
      assert c in LabelSet(frames[k].columns);
    }
  }

  lemma PadIdentity(row: Row, labels: seq<string>)
    requires row.Keys == LabelSet(labels)
    ensures Pad(row, labels) == row
  {
  }

  lemma PadTwice(row: Row, inner: seq<string>, outer: seq<string>)
    requires row.Keys <= LabelSet(inner) <= LabelSet(outer)
    ensures Pad(Pad(row, inner), outer) == Pad(row, outer)
  {
  }

  /** The rows whose cell in column `name` is present, in their original order:
      `dropna(subset=[name])`. */
  function KeepPresent(rows: seq<Row>, name: string): (kept: seq<Row>)
    requires forall i :: 0 <= i < |rows| ==> name in rows[i]
    ensures |kept| <= |rows|
  {
    if rows == [] then []
    else
      var last := rows[|rows| - 1];
      KeepPresent(rows[..|rows| - 1], name) + (if last[name] != Null then [last] else [])
  }

  /** The indices of the rows `KeepPresent` keeps, in increasing order. */
  function PresentIndices(rows: seq<Row>, name: string): (idx: seq<nat>)
    requires forall i :: 0 <= i < |rows| ==> name in rows[i]
    ensures forall k :: 0 <= k < |idx| ==> idx[k] < |rows|
  {
    if rows == [] then []
    else
      var n := |rows| - 1;
      PresentIndices(rows[..n], name) + (if rows[n][name] != Null then [n] else [])
  }

  /** `dropna` keeps the rows at the indices `PresentIndices` lists, in that order. */
  lemma {:induction false} KeepPresentAtIndices(rows: seq<Row>, name: string)
    requires forall i :: 0 <= i < |rows| ==> name in rows[i]
    ensures |KeepPresent(rows, name)| == |PresentIndices(rows, name)|
    ensures forall k :: 0 <= k < |PresentIndices(rows, name)| ==>
      KeepPresent(rows, name)[k] == rows[PresentIndices(rows, name)[k]]
    decreases |rows|
  {
    if rows != [] {
      var n := |rows| - 1;
      var front := rows[..n];
      KeepPresentAtIndices(front, name);
      var kept, idx := KeepPresent(front, name), PresentIndices(front, name);
      var present := rows[n][name] != Null;
      var last, lastIndex := if present then [rows[n]] else [], if present then [n] else [];
      assert KeepPresent(rows, name) == kept + last;
      assert PresentIndices(rows, name) == idx + lastIndex;
      forall k | 0 <= k < |idx| + |lastIndex| ensures (kept + last)[k] == rows[(idx + lastIndex)[k]] {
        if k < |idx| {
          assert kept[k] == front[idx[k]] == rows[idx[k]];
        }
      }
    }
  }

  /** `PresentIndices` lists, in increasing order, exactly the rows whose cell is present. */
  lemma {:induction false} PresentIndicesExactly(rows: seq<Row>, name: string)
    requires forall i :: 0 <= i < |rows| ==> name in rows[i]
    ensures forall k, l :: 0 <= k < l < |PresentIndices(rows, name)| ==>
      PresentIndices(rows, name)[k] < PresentIndices(rows, name)[l]
    ensures forall i :: 0 <= i < |rows| ==> (rows[i][name] != Null <==> i in PresentIndices(rows, name))
    decreases |rows|
  {
    if rows != [] {
      var n := |rows| - 1;
      var front := rows[..n];
      PresentIndicesExactly(front, name);
      assert forall i :: 0 <= i < n ==> front[i] == rows[i];
    }
  }

  /** Which rows `dropna` keeps depends only on the column it looks at. */
  lemma {:induction false} PresentIndicesAgree(a: seq<Row>, b: seq<Row>, name: string)
    requires |a| == |b|
    requires forall i :: 0 <= i < |a| ==> name in a[i] && name in b[i] && a[i][name] == b[i][name]
    ensures PresentIndices(a, name) == PresentIndices(b, name)
    decreases |a|
  {
    if a != [] {
      var n := |a| - 1;
      PresentIndicesAgree(a[..n], b[..n], name);
    }
  }

  /** `dropna` drops exactly the rows with a missing cell in the column and keeps the others in
      their relative order. */
  lemma KeepPresentExactly(rows: seq<Row>, name: string)
    requires forall i :: 0 <= i < |rows| ==> name in rows[i]
    ensures var kept, idx := KeepPresent(rows, name), PresentIndices(rows, name);
      && |kept| == |idx|
      && (forall k :: 0 <= k < |idx| ==> kept[k] == rows[idx[k]])
      && (forall k, l :: 0 <= k < l < |idx| ==> idx[k] < idx[l])
      && (forall i :: 0 <= i < |rows| ==> (rows[i][name] != Null <==> i in idx))
  {
    KeepPresentAtIndices(rows, name);
    PresentIndicesExactly(rows, name);
  }

  /** `df.dropna(subset=[name])`. */
  function DropNull(f: Frame, name: string): (r: Frame)
    requires WellFormed(f) && name in f.columns
    ensures WellFormed(r) && r.columns == f.columns
    ensures forall i :: 0 <= i < |r.rows| ==> r.rows[i][name] != Null
  {
    KeepPresentFacts(f.rows, name, LabelSet(f.columns));
    Frame(f.columns, KeepPresent(f.rows, name))
  }

  lemma {:induction false} KeepPresentFacts(rows: seq<Row>, name: string, keys: set<string>)
    requires name in keys
    requires forall i :: 0 <= i < |rows| ==> rows[i].Keys == keys
    ensures forall k :: 0 <= k < |KeepPresent(rows, name)| ==>
      KeepPresent(rows, name)[k].Keys == keys && KeepPresent(rows, name)[k][name] != Null
    decreases |rows|
  {
    if rows != [] {
      KeepPresentFacts(rows[..|rows| - 1], name, keys);
    }
  }

  /** The label a column has after `rename(columns=m)`. */
  function Renamed(c: string, m: map<string, string>): string {
    if c in m then m[c] else c
  }

  function RenamedLabels(labels: seq<string>, m: map<string, string>): (r: seq<string>)
    ensures |r| == |labels|
    ensures forall j :: 0 <= j < |r| ==> r[j] == Renamed(labels[j], m)
  {
    seq(|labels|, j requires 0 <= j < |labels| => Renamed(labels[j], m))
  }

  function RenameRow(row: Row, from: seq<string>, to: seq<string>): (r: Row)
    requires |from| == |to| && Distinct(to)
    requires LabelSet(from) <= row.Keys
    ensures r.Keys == LabelSet(to)
    ensures forall j :: 0 <= j < |to| ==> r[to[j]] == row[from[j]]
  {
    map j | 0 <= j < |to| :: to[j] := row[from[j]]
  }

  /** `df.rename(columns=m)` when the new labels stay distinct: every column keeps its cells and
      its position and takes its new label. */
  function RenameColumns(f: Frame, m: map<string, string>): (r: Frame)
    requires WellFormed(f) && Distinct(RenamedLabels(f.columns, m))
    ensures WellFormed(r) && |r.rows| == |f.rows|
    ensures r.columns == RenamedLabels(f.columns, m)
    ensures forall i, j :: 0 <= i < |r.rows| && 0 <= j < |r.columns| ==>
      r.rows[i][r.columns[j]] == f.rows[i][f.columns[j]]
  {
    var labels := RenamedLabels(f.columns, m);
    Frame(labels, seq(|f.rows|, i requires 0 <= i < |f.rows| => RenameRow(f.rows[i], f.columns, labels)))
  }

  /** `x` comes before `y` in `order`. */
  predicate Precedes(order: seq<string>, x: string, y: string) {
    exists i, j :: 0 <= i < j < |order| && order[i] == x && order[j] == y
  }

  /** `r` lists its labels in the order `order` lists them. */
  predicate Follows(r: seq<string>, order: seq<string>) {
    forall a, b :: 0 <= a < b < |r| ==> Precedes(order, r[a], r[b])
  }

  /** The labels of `order` that are in `present`, in `order`'s order. */
  function LabelsPresent(order: seq<string>, present: seq<string>): (r: seq<string>)
    ensures forall c :: c in r <==> c in order && c in present
    ensures Distinct(order) ==> Distinct(r)
    ensures Follows(r, order)
    decreases |order|
  {
    if order == [] then []
    else
      var init := order[..|order| - 1];
      var front := LabelsPresent(init, present);
      var c := order[|order| - 1];
      assert forall d :: d in order <==> d in init || d == c;
      PrecedesInit(order);
      if c in present then
        var r := front + [c];
        assert Follows(r, order) by {
          forall a, b | 0 <= a < b < |r| ensures Precedes(order, r[a], r[b]) {
            if b == |front| {
              assert r[a] in init by { assert r[a] == front[a]; }
              var i :| 0 <= i < |init| && init[i] == r[a];
              assert order[i] == r[a] && order[|order| - 1] == r[b];
            } else {
              assert r[a] == front[a] && r[b] == front[b];
            }
          }
        }
        r
      else
        front
  }

  /** What precedes in a prefix of `order` precedes in `order`. */
  lemma PrecedesInit(order: seq<string>)
    requires order != []
    ensures forall x, y :: Precedes(order[..|order| - 1], x, y) ==> Precedes(order, x, y)
  {
    forall x, y | Precedes(order[..|order| - 1], x, y) ensures Precedes(order, x, y) {
      var i, j :| 0 <= i < j < |order| - 1 && order[..|order| - 1][i] == x && order[..|order| - 1][j] == y;
      assert order[i] == x && order[j] == y;
    }
  }

  /** In a list without repeats, two labels do not precede each other both ways. */
  lemma PrecedesAntisymmetric(order: seq<string>, x: string, y: string)
    requires Distinct(order) && Precedes(order, x, y)
    ensures !Precedes(order, y, x)
  {
    var i, j :| 0 <= i < j < |order| && order[i] == x && order[j] == y;
    forall i', j' | 0 <= i' < j' < |order| ensures !(order[i'] == y && order[j'] == x) {
      assert order[i'] == y ==> i' == j;
      assert order[j'] == x ==> j' == i;
    }
  }

  /** Which labels a distinct list holds and the order they follow decide the list: the
      three properties `LabelsPresent` ensures determine its result. */
  lemma {:induction false} FollowsUnique(r: seq<string>, s: seq<string>, order: seq<string>)
    requires Distinct(order) && Distinct(r) && Distinct(s)
    requires forall c :: c in r <==> c in s
    requires Follows(r, order) && Follows(s, order)
    ensures r == s
    decreases |r|
  {
    assert |r| > 0 ==> r[0] in s;
    assert |s| > 0 ==> s[0] in r;
    if r != [] {
      var x, y := r[0], s[0];
      var b :| 0 <= b < |s| && s[b] == x;
      var a :| 0 <= a < |r| && r[a] == y;
      assert b > 0 ==> Precedes(order, y, x);
      assert a > 0 ==> Precedes(order, x, y);
      if b > 0 {
        PrecedesAntisymmetric(order, y, x);
      }
      assert x == y;
      var r', s' := r[1..], s[1..];
      forall c ensures c in r' <==> c in s' {
        if c in r' {
          var a :| 1 <= a < |r| && r[a] == c;
          assert c in s;
          var b :| 0 <= b < |s| && s[b] == c;
          assert b != 0;
        }
        if c in s' {
          var b :| 1 <= b < |s| && s[b] == c;
          assert c in r;
          var a :| 0 <= a < |r| && r[a] == c;
          assert a != 0;
        }
      }
      assert Follows(r', order) by {
        forall a, b | 0 <= a < b < |r'| ensures Precedes(order, r'[a], r'[b]) {
          assert r'[a] == r[a + 1] && r'[b] == r[b + 1];
        }
      }
      assert Follows(s', order) by {
        forall a, b | 0 <= a < b < |s'| ensures Precedes(order, s'[a], s'[b]) {
          assert s'[a] == s[a + 1] && s'[b] == s[b + 1];
        }
      }
      FollowsUnique(r', s', order);
      assert r == [r[0]] + r' && s == [s[0]] + s';
    }
  }

  /** `df[[c for c in order if c in df.columns]]`. */
  function Project(f: Frame, order: seq<string>): (r: Frame)
    requires WellFormed(f) && Distinct(order)
    ensures WellFormed(r) && |r.rows| == |f.rows|
    ensures r.columns == LabelsPresent(order, f.columns)
    ensures forall i, c :: 0 <= i < |r.rows| && c in r.columns ==> r.rows[i][c] == f.rows[i][c]
  {
    var labels := LabelsPresent(order, f.columns);
    Frame(labels, seq(|f.rows|, i requires 0 <= i < |f.rows| => map c | c in LabelSet(labels) :: f.rows[i][c]))
  }

  /** A pandas DataFrame that the pipeline changes in place. */
  class DataFrame {
    var columns: seq<string>
    var rows: seq<Row>

    ghost predicate Valid()
      reads this
    {
      WellFormed(Frame(columns, rows))
    }

    /** The DataFrame's current contents as a value. */
    function Value(): Frame
      reads this
    {
      Frame(columns, rows)
    }

    constructor (f: Frame)
      requires WellFormed(f)
      ensures Valid() && Value() == f
    {
      columns := f.columns;
      rows := f.rows;
    }

    /** `df[name] = cells`. */
    method Assign(name: string, cells: seq<Cell>)
      requires Valid() && |cells| == |rows|
      modifies this
      ensures Valid() && Value() == WithColumn(old(Value()), name, cells)
    {
      var r := WithColumn(Value(), name, cells);
      columns, rows := r.columns, r.rows;
    }

    /** `df.dropna(subset=[name], inplace=True)`. */
    method DropNullInPlace(name: string)
      requires Valid() && name in columns
      modifies this
      ensures Valid() && Value() == DropNull(old(Value()), name)
    {
      rows := DropNull(Value(), name).rows;
    }

    /** `df.rename(columns=m, inplace=True)`. */
    method RenameInPlace(m: map<string, string>)
      requires Valid() && Distinct(RenamedLabels(columns, m))
      modifies this
      ensures Valid() && Value() == RenameColumns(old(Value()), m)
    {
      var r := RenameColumns(Value(), m);
      columns, rows := r.columns, r.rows;
    }
  }
}
