/** GitObserverViewer.py: the first table window.  Its tree view has a
    "Last updated" column, then a text column and a link column per
    observed folder; every non-empty batch is appended below the rows
    already shown, one row per commit position, and a click on a link cell
    opens that cell's text in the browser. */
module LegacyViewer {
  import opened Outcomes
  import opened Transport
  import GitLog
  import opened ViewRows
  import LegacyObserver

  /** Python exceptions the window's handlers can raise. */
  datatype ViewError = AttributeError | IndexError

  const LinkHeading: string := "Link"

  /** One tree-view column: its identifier, the heading text shown above it
      and its minimum width (`None` leaves the widget's defaults). */
  datatype Column = Column(id: string, heading: string, minWidth: Option<nat>)

  /** The tree view: its columns and the values of its rows, top to bottom. */
  datatype Table = Table(columns: seq<Column>, rows: seq<seq<string>>)

  /** The window state the model keeps: the observer it polls and its table. */
  datatype LegacyWindow = LegacyWindow(observer: LegacyObserver.LegacyObserver, table: Table)

  /** `GitObserverViewer.__init__`: descending log output is forced on, and
      the table starts without columns or rows. */
  function NewLegacyWindow(config: GitLog.ObserverConfig): (w: LegacyWindow)
    ensures w.observer.config.descending
    ensures w.observer.config == config.(descending := true)
    ensures w.table.columns == [] && w.table.rows == []
  {
    LegacyWindow(LegacyObserver.LegacyObserver(config.(descending := true)), Table([], []))
  }

  // ----- Columns -----

  /** The identifiers after "Last updated": a name and a "Link" per folder. */
  function FolderColumnIds(obs: seq<Observation>): (ids: seq<string>)
    ensures |ids| == 2 * |obs|
    ensures forall f :: 0 <= f < |obs| ==> ids[2 * f] == obs[f].name && ids[2 * f + 1] == LinkHeading
  {
    if |obs| == 0 then [] else [obs[0].name, LinkHeading] + FolderColumnIds(obs[1..])
  }

  /** `column_names`: "Last updated", then a name and a "Link" per folder. */
  function ColumnIds(obs: seq<Observation>): (ids: seq<string>)
    ensures |ids| == 1 + 2 * |obs| && ids[0] == LastUpdated
    ensures ids[1..] == FolderColumnIds(obs)
  {
    [LastUpdated] + FolderColumnIds(obs)
  }

  /** The formatting `create_columns` applies to the column at `k` of `n`, as
      written: the first column gets its heading and 145 pixels, the loop
      `range(1, n - 1)` gives the others their heading and 75 (odd index) or
      150 (even index) pixels, and never reaches the last column. */
  function FormatColumn(id: string, k: nat, n: nat): (c: Column)
    requires k < n
    ensures c.id == id
    ensures c.minWidth.None? <==> 0 < k == n - 1
    ensures c.minWidth.Some? ==> c.heading == id
    ensures c.minWidth.None? ==> c.heading == ""
  {
    if k == 0 then Column(id, id, Some(145))
    else if k < n - 1 then Column(id, id, Some(if k % 2 != 0 then 75 else 150))
    else Column(id, "", None)
  }

  /** The formatting as evidently intended: the loop reaches every column
      after the first. */
  function FormatColumnFixed(id: string, k: nat): (c: Column)
    ensures c.id == id && c.heading == id && c.minWidth.Some?
  {
    if k == 0 then Column(id, id, Some(145))
    else Column(id, id, Some(if k % 2 != 0 then 75 else 150))
  }

  function FormatColumns(ids: seq<string>, fixed: bool): (cs: seq<Column>)
    ensures |cs| == |ids|
    ensures forall k :: 0 <= k < |ids| ==> cs[k] == (if fixed then FormatColumnFixed(ids[k], k) else FormatColumn(ids[k], k, |ids|))
  {
    seq(|ids|, k requires 0 <= k < |ids| => if fixed then FormatColumnFixed(ids[k], k) else FormatColumn(ids[k], k, |ids|))
  }

  /** `create_columns`: nothing when the table already has columns; otherwise
      the columns of the batch, formatted (as written when `fixed` is false). */
  function CreateColumns(t: Table, obs: seq<Observation>, fixed: bool): (t': Table)
    ensures t'.rows == t.rows
    ensures |t.columns| > 0 ==> t' == t
    ensures |t.columns| == 0 ==> |t'.columns| == 1 + 2 * |obs|
    ensures |t.columns| == 0 ==> forall k :: 0 <= k < |t'.columns| ==> t'.columns[k].id == ColumnIds(obs)[k]
  {
    if |t.columns| > 0 then t else t.(columns := FormatColumns(ColumnIds(obs), fixed))
  }

  /** Columns are created once: a second batch leaves them alone. */
  lemma ColumnsCreatedOnce(t: Table, obs1: seq<Observation>, obs2: seq<Observation>, fixed: bool)
    ensures CreateColumns(CreateColumns(t, obs1, fixed), obs2, fixed) == CreateColumns(t, obs1, fixed)
  {
  }

  /** The last column of a table with folders is a "Link" column. */
  lemma LastColumnIsLink(obs: seq<Observation>)
    requires |obs| > 0
    ensures ColumnIds(obs)[2 * |obs|] == LinkHeading
  {
    assert ColumnIds(obs)[2 * |obs|] == FolderColumnIds(obs)[2 * (|obs| - 1) + 1];
  }

  /** As written, the last column of a table with folders, a "Link" column,
      is left without its heading text and width. */
  lemma LastColumnUnformatted(obs: seq<Observation>)
    requires |obs| > 0
    ensures CreateColumns(Table([], []), obs, false).columns[2 * |obs|] == Column(LinkHeading, "", None)
  {
    var ids := ColumnIds(obs);
    LastColumnIsLink(obs);
    assert FormatColumns(ids, false)[2 * |obs|] == FormatColumn(ids[2 * |obs|], 2 * |obs|, |ids|);
  }

  /** With the loop reaching every column, each column shows its own name
      as heading, and the widths of the as-written loop are kept wherever it
      did run. */
  lemma EveryColumnFormatted(obs: seq<Observation>)
    ensures var fixed := CreateColumns(Table([], []), obs, true).columns;
            var asWritten := CreateColumns(Table([], []), obs, false).columns;
            && |fixed| == |asWritten|
            && (forall k :: 0 <= k < |fixed| ==> fixed[k].heading == fixed[k].id == ColumnIds(obs)[k])
            && (forall k :: 0 <= k < |fixed| - 1 ==> fixed[k] == asWritten[k])
  {
  }

  // ----- Rows -----

  /** The link cell a commit was meant to have: the origin followed by the
      hash, the link the observer prints for it. */
  function LinkText(c: Option<Commit>, origin: string): (t: string)
    ensures c.None? ==> t == ""
    ensures c.Some? ==> t == origin + HashText(c.value.sha1)
  {
    match c
    case None => ""
    case Some(commit) => origin + HashText(commit.sha1)
  }

  /** The time stamp cell: the time of the update on the first row of a
      batch, empty below it. */
  function StampCell(rowIdx: nat, now: string): string {
    if rowIdx == 0 then now else ""
  }

  /** The folder cells of row `rowIdx`, as written: the link cell reads
      `commit.link`, and a `Commit` has no such attribute, so the first
      folder with a commit at this position raises `AttributeError`. */
  function FolderCellsAsWritten(obs: seq<Observation>, rowIdx: nat): (r: Result<seq<string>, ViewError>)
    ensures r.Ok? <==> forall f :: 0 <= f < |obs| ==> CommitAt(obs[f], rowIdx).None?
    ensures r.Err? ==> r.error == AttributeError
    ensures r.Ok? ==> |r.value| == 2 * |obs| && forall k :: 0 <= k < |r.value| ==> r.value[k] == ""
  {
    if |obs| == 0 then Ok([])
    else if CommitAt(obs[0], rowIdx).Some? then Err(AttributeError)
    else match FolderCellsAsWritten(obs[1..], rowIdx)
      case Err(e) => Err(e)
      case Ok(rest) => Ok(["", ""] + rest)
  }

  /** The row loop of `update_view` as written, from row `rowIdx` on: each
      row is built, then appended; a raise leaves the rows built so far. */
  function AddRowsAsWritten(t: Table, obs: seq<Observation>, rowIdx: nat, rowCount: nat, now: string)
    : (res: (Table, Result<(), ViewError>))
    ensures res.0.columns == t.columns
    ensures t.rows <= res.0.rows
    decreases rowCount - rowIdx
  {
    if rowIdx >= rowCount then (t, Ok(()))
    else match FolderCellsAsWritten(obs, rowIdx)
      case Err(e) => (t, Err(e))
      case Ok(cells) =>
        AddRowsAsWritten(t.(rows := t.rows + [[StampCell(rowIdx, now)] + cells]), obs, rowIdx + 1, rowCount, now)
  }

  /** `update_view` as written.  `now` is the formatted time of the call. */
  function UpdateViewAsWritten(t: Table, obs: seq<Observation>, now: string): (res: (Table, Result<(), ViewError>))
    ensures IsEmpty(Some(obs)) ==> res == (t, Ok(()))
    ensures t.rows <= res.0.rows
  {
    if IsEmpty(Some(obs)) then (t, Ok(()))
    else AddRowsAsWritten(CreateColumns(t, obs, false), obs, 0, MaxCommits(obs), now)
  }

  /** As written, every batch with a commit raises while building its first
      row: the columns get created, but no row is ever shown. */
  lemma NonEmptyBatchRaises(t: Table, obs: seq<Observation>, now: string)
    requires !IsEmpty(Some(obs))
    ensures UpdateViewAsWritten(t, obs, now) == (CreateColumns(t, obs, false), Err(AttributeError))
  {
    FirstRowOccupied(obs);
    NoRowsIffEmpty(obs);
    assert FolderCellsAsWritten(obs, 0).Err?;
  }

  /** The folder cells of row `rowIdx` with the link as evidently intended:
      text and link of the folder's commit at that position, or two empty
      cells. */
  function FolderCells(obs: seq<Observation>, rowIdx: nat, origin: string, dateText: DateText): (cells: seq<string>)
    ensures |cells| == 2 * |obs|
  {
    if |obs| == 0 then []
    else [CellText(CommitAt(obs[0], rowIdx), dateText), LinkText(CommitAt(obs[0], rowIdx), origin)]
         + FolderCells(obs[1..], rowIdx, origin, dateText)
  }

  /** Folder `f` owns cells `2f` (its commit's text) and `2f + 1` (its
      commit's link). */
  lemma {:induction false} FolderCellsAt(obs: seq<Observation>, rowIdx: nat, origin: string, dateText: DateText, f: nat)
    requires f < |obs|
    ensures var cells := FolderCells(obs, rowIdx, origin, dateText);
            cells[2 * f] == CellText(CommitAt(obs[f], rowIdx), dateText)
            && cells[2 * f + 1] == LinkText(CommitAt(obs[f], rowIdx), origin)
  {
    var head := [CellText(CommitAt(obs[0], rowIdx), dateText), LinkText(CommitAt(obs[0], rowIdx), origin)];
    var rest := FolderCells(obs[1..], rowIdx, origin, dateText);
    assert FolderCells(obs, rowIdx, origin, dateText) == head + rest;
    if f > 0 {
      FolderCellsAt(obs[1..], rowIdx, origin, dateText, f - 1);
      assert obs[1..][f - 1] == obs[f];
      var k := 2 * (f - 1);
      assert 2 * f == k + 2 && 2 * f + 1 == k + 3;
      assert (head + rest)[k + 2] == rest[k] && (head + rest)[k + 3] == rest[k + 1];
    }
  }

  /** One row of a batch: the stamp cell, then the folder cells. */
  function RowValues(obs: seq<Observation>, rowIdx: nat, now: string, origin: string, dateText: DateText)
    : (row: seq<string>)
    ensures |row| == 1 + 2 * |obs|
    ensures row[0] == StampCell(rowIdx, now)
    ensures row[1..] == FolderCells(obs, rowIdx, origin, dateText)
  {
    [StampCell(rowIdx, now)] + FolderCells(obs, rowIdx, origin, dateText)
  }

  /** The rows a batch adds, top to bottom: one per commit position. */
  function BatchRows(obs: seq<Observation>, now: string, origin: string, dateText: DateText)
    : (rows: seq<seq<string>>)
    ensures |rows| == MaxCommits(obs)
    ensures forall r :: 0 <= r < |rows| ==> rows[r] == RowValues(obs, r, now, origin, dateText)
  {
    seq(MaxCommits(obs), r requires 0 <= r => RowValues(obs, r, now, origin, dateText))
  }

  /** The row loop of `update_view` with the link cell as evidently
      intended: one row per commit position, appended in order. */
  method AppendBatch(rows: seq<seq<string>>, obs: seq<Observation>, now: string, origin: string, dateText: DateText)
    returns (rows': seq<seq<string>>)
    ensures rows' == rows + BatchRows(obs, now, origin, dateText)
  {
    var rowCount := MaxCommits(obs);
    ghost var batch := BatchRows(obs, now, origin, dateText);
    rows' := rows;
    var rowIdx := 0;
    while rowIdx < rowCount
      invariant 0 <= rowIdx <= rowCount
      invariant rows' == rows + batch[..rowIdx]
    {
      var rowValues := [StampCell(rowIdx, now)];
      var cells := FolderCells(obs, rowIdx, origin, dateText);
      rowValues := rowValues + cells;
      assert rowValues == batch[rowIdx];
      PrefixSnoc(batch, rowIdx);
      rows' := rows' + [rowValues];
      rowIdx := rowIdx + 1;
    }
    PrefixWhole(batch);
  }

  /** `update_view` with the link cell as evidently intended: an empty
      batch changes nothing; otherwise the columns are created if need be
      and one row per commit position is appended below the shown rows. */
  method UpdateView(t: Table, obs: seq<Observation>, now: string, origin: string, dateText: DateText)
    returns (t': Table)
    ensures IsEmpty(Some(obs)) ==> t' == t
    ensures !IsEmpty(Some(obs)) ==> t'.columns == CreateColumns(t, obs, true).columns
    ensures t'.rows == t.rows + BatchRows(obs, now, origin, dateText)
  {
    if IsEmpty(Some(obs)) {
      NoRowsIffEmpty(obs);
      assert BatchRows(obs, now, origin, dateText) == [];
      return t;
    }
    t' := CreateColumns(t, obs, true);
    var rows := AppendBatch(t'.rows, obs, now, origin, dateText);
    t' := t'.(rows := rows);
  }

  /** Every commit of a batch shows up in the rows it adds: the `j`-th
      commit of folder `f` sits in the batch's row `j`, its text in column
      `1 + 2f` and its link in column `2 + 2f`. */
  lemma CommitShown(obs: seq<Observation>, now: string, origin: string, dateText: DateText, f: nat, j: nat)
    requires f < |obs| && j < |obs[f].commits|
    ensures j < |BatchRows(obs, now, origin, dateText)|
    ensures BatchRows(obs, now, origin, dateText)[j][1 + 2 * f] == SummaryText(obs[f].commits[j], dateText)
    ensures BatchRows(obs, now, origin, dateText)[j][2 + 2 * f] == origin + HashText(obs[f].commits[j].sha1)
  {
    EveryCommitHasARow(obs, f, j);
    FolderCellsAt(obs, j, origin, dateText, f);
    var row := RowValues(obs, j, now, origin, dateText);
    var cells := FolderCells(obs, j, origin, dateText);
    assert BatchRows(obs, now, origin, dateText)[j] == row;
    assert row[1 + 2 * f] == cells[2 * f];
    assert row[2 + 2 * f] == cells[2 * f + 1];
  }

  /** The time stamp of an update sits only in the first row of its batch. */
  lemma StampOnFirstRowOnly(obs: seq<Observation>, now: string, origin: string, dateText: DateText, r: nat)
    requires r < MaxCommits(obs)
    ensures BatchRows(obs, now, origin, dateText)[r][0] == (if r == 0 then now else "")
  {
    assert BatchRows(obs, now, origin, dateText)[r] == RowValues(obs, r, now, origin, dateText);
  }

  // ----- Clicks -----

  /** `open_link` once the widget has resolved the click: `colNum` is the
      number of the `#n` column hit (`#1` is the first shown column, since
      the tree column is hidden), `region` the region hit and `values` the
      values of the row hit.  The result is the link handed to the
      browser.  As written, the guard meant to skip the date column tests
      `#0`, a column that is never shown. */
  function OpenLink(colNum: nat, region: string, values: seq<string>): (r: Result<Option<string>, ViewError>)
    ensures r.Err? <==> region == "cell" && colNum % 2 == 1 && colNum > |values|
    ensures r.Err? ==> r.error == IndexError
    ensures r.Ok? && r.value.Some? <==>
              region == "cell" && colNum % 2 == 1 && colNum <= |values| && values[colNum - 1] != ""
    ensures r.Ok? && r.value.Some? ==> r.value.value == values[colNum - 1]
  {
    if colNum == 0 then Ok(None)
    else if region == "cell" && (colNum - 1) % 2 == 0 then
      if colNum - 1 < |values| then
        var link := values[colNum - 1];
        if |link| > 0 then Ok(Some(link)) else Ok(None)
      else Err(IndexError)
    else Ok(None)
  }

  /** As written, a click on the time stamp of a batch's first row opens the
      time stamp as if it were a link: column `#1` is "Last updated". */
  lemma DateCellOpensTimestamp(obs: seq<Observation>, now: string, origin: string, dateText: DateText)
    requires now != ""
    ensures ColumnIds(obs)[0] == LastUpdated
    ensures OpenLink(1, "cell", RowValues(obs, 0, now, origin, dateText)) == Ok(Some(now))
  {
  }

  /** `open_link` with the date guard as evidently intended, skipping
      column `#1` as well. */
  function OpenLinkFixed(colNum: nat, region: string, values: seq<string>): (r: Result<Option<string>, ViewError>)
    ensures colNum != 1 ==> r == OpenLink(colNum, region, values)
    ensures colNum == 1 ==> r == Ok(None)
  {
    if colNum <= 1 then Ok(None) else OpenLink(colNum, region, values)
  }

  /** Column `2 + 2f` (shown as `#(3 + 2f)`) is the "Link" column of
      folder `f`. */
  lemma LinkColumnOf(obs: seq<Observation>, f: nat)
    requires f < |obs|
    ensures ColumnIds(obs)[2 + 2 * f] == LinkHeading
  {
    assert ColumnIds(obs)[2 + 2 * f] == FolderColumnIds(obs)[2 * f + 1];
  }

  /** With the fixed guard, a click on the "Link" column of folder `f` in a
      row of a batch opens the link of the folder's commit in that row, and
      nothing when it has none. */
  lemma FixedClickOpensCommitLink(obs: seq<Observation>, rowIdx: nat, now: string, origin: string,
                                  dateText: DateText, f: nat)
    requires f < |obs|
    ensures var link := LinkText(CommitAt(obs[f], rowIdx), origin);
            OpenLinkFixed(3 + 2 * f, "cell", RowValues(obs, rowIdx, now, origin, dateText))
            == Ok(if link == "" then None else Some(link))
  {
    var row := RowValues(obs, rowIdx, now, origin, dateText);
    var cells := FolderCells(obs, rowIdx, origin, dateText);
    FolderCellsAt(obs, rowIdx, origin, dateText, f);
    assert row[2 + 2 * f] == cells[2 * f + 1];
    assert (3 + 2 * f - 1) % 2 == 0;
  }

  /** With the fixed guard, a click on a row of a batch opens nothing
      outside the "Link" columns: neither the date column nor a text
      column nor a column past the folders. */
  lemma FixedClickOnlyOnLinks(obs: seq<Observation>, rowIdx: nat, now: string, origin: string,
                              dateText: DateText, colNum: nat)
    requires OpenLinkFixed(colNum, "cell", RowValues(obs, rowIdx, now, origin, dateText)).Ok?
    requires OpenLinkFixed(colNum, "cell", RowValues(obs, rowIdx, now, origin, dateText)).value.Some?
    ensures colNum >= 3 && colNum % 2 == 1 && colNum <= 1 + 2 * |obs|
  {
  }
}
