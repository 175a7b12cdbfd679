/** viewer.py: the second table window.  It subscribes to the observer
    thread's `OnLoaded` event; every non-empty batch it receives goes on top
    of the table, one row per commit position, and next to the text it
    shows the window keeps the commit behind every folder cell
    (`grid_data`), so that a click can reach that commit. */
module Viewer {
  import opened Outcomes
  import opened Transport
  import opened ViewRows
  import GitLog
  import Events
  import Observer

  /** Python exceptions the window's handlers can raise. */
  datatype ViewerError = IndexError | TypeError

  /** The handlers the window subscribes. */
  datatype Handler = ObserverLoaded

  /** The window state the model keeps: the configuration, the observer
      thread, the column headings, the rows shown (top first), the commit
      behind each folder cell of each row (top first), `row_count` and the
      status line. */
  datatype Window = Window(config: GitLog.ObserverConfig, thread: Observer.ObserverThread<Handler>,
                           columns: seq<string>, rows: seq<seq<string>>,
                           gridData: seq<seq<Option<Commit>>>, rowCount: nat, status: string)

  const InitialStatus: string := "Initializing..."

  // ----- Columns -----

  /** `create_columns`: nothing when the table already has columns;
      otherwise "Last updated" followed by one column per configured folder. */
  function CreateColumns(columns: seq<string>, logfolders: seq<string>): (cs: seq<string>)
    ensures |columns| > 0 ==> cs == columns
    ensures |columns| == 0 ==> |cs| == 1 + |logfolders| && cs[0] == LastUpdated && cs[1..] == logfolders
  {
    if |columns| > 0 then columns else [LastUpdated] + logfolders
  }

  /** The columns are created once; later calls keep the first headings. */
  lemma ColumnsCreatedOnce(columns: seq<string>, folders1: seq<string>, folders2: seq<string>)
    ensures CreateColumns(CreateColumns(columns, folders1), folders2) == CreateColumns(columns, folders1)
  {
  }

  /** `GitObserverViewer.__init__`: descending log output is forced on, the
      columns come from the configured folders, the table starts empty and
      the observer thread, built on the forced configuration, has the
      window's `observer_loaded` as its only `OnLoaded` subscriber. */
  function NewWindow(config: GitLog.ObserverConfig): (w: Window)
    ensures w.config == config.(descending := true) && w.config.descending
    ensures w.columns == CreateColumns([], config.logfolders)
    ensures w.rows == [] && w.gridData == [] && w.rowCount == 0 && w.status == InitialStatus
    ensures w.thread.runThread && w.thread.onLoaded.handlers == [ObserverLoaded]
    ensures w.thread.observer == Observer.NewGitObserver(w.config)
  {
    var forced := config.(descending := true);
    var thread: Observer.ObserverThread<Handler> := Observer.NewObserverThread(forced);
    Window(forced, thread.(onLoaded := Events.Subscribe(thread.onLoaded, ObserverLoaded)),
           CreateColumns([], config.logfolders), [], [], 0, InitialStatus)
  }

  /** `root_delete`: the observer thread is told to stop. */
  function RootDelete(w: Window): (w': Window)
    ensures !w'.thread.runThread
    ensures w'.thread.observer == w.thread.observer && w'.thread.onLoaded == w.thread.onLoaded
    ensures w'.rows == w.rows && w'.gridData == w.gridData
  {
    w.(thread := Observer.StopObservation(w.thread))
  }

  /** `observer_status`: the status line shows the status while the window
      is in its normal state.  `str(None)` is `None`. */
  function ObserverStatus(w: Window, normal: bool, status: Option<string>): (w': Window)
    ensures !normal ==> w' == w
    ensures normal ==> w' == w.(status := "Status: " + HashText(status))
  {
    if normal then w.(status := "Status: " + HashText(status)) else w
  }

  // ----- Rows -----

  /** The text cells of row `r` of a batch, one per folder. */
  function RowCells(obs: seq<Observation>, r: nat, dateText: DateText): (cells: seq<string>)
    ensures |cells| == |obs|
  {
    if |obs| == 0 then [] else [CellText(CommitAt(obs[0], r), dateText)] + RowCells(obs[1..], r, dateText)
  }

  /** Row `r` of a batch of `n` rows: the update time on the batch's last
      row, which ends up on top, then the text of each folder's commit at
      that position. */
  function BatchRow(obs: seq<Observation>, r: nat, n: nat, now: string, dateText: DateText): (row: seq<string>)
    ensures |row| == 1 + |obs|
    ensures row[0] == (if r + 1 == n then now else "")
  {
    [if r + 1 == n then now else ""] + RowCells(obs, r, dateText)
  }

  /** Data cell `f` of row `r` shows the text of folder `f`'s commit at
      position `r`. */
  lemma {:induction false} BatchRowCell(obs: seq<Observation>, r: nat, n: nat, now: string, dateText: DateText, f: nat)
    requires f < |obs|
    ensures BatchRow(obs, r, n, now, dateText)[1 + f] == CellText(CommitAt(obs[f], r), dateText)
  {
    RowCellsAt(obs, r, dateText, f);
  }

  lemma {:induction false} RowCellsAt(obs: seq<Observation>, r: nat, dateText: DateText, f: nat)
    requires f < |obs|
    ensures RowCells(obs, r, dateText)[f] == CellText(CommitAt(obs[f], r), dateText)
  {
    if f > 0 {
      RowCellsAt(obs[1..], r, dateText, f - 1);
      assert obs[1..][f - 1] == obs[f];
    }
  }

  /** The commits behind row `r` of a batch, one per folder. */
  function BatchCommits(obs: seq<Observation>, r: nat): (cs: seq<Option<Commit>>)
    ensures |cs| == |obs|
  {
    if |obs| == 0 then [] else [CommitAt(obs[0], r)] + BatchCommits(obs[1..], r)
  }

  /** Folder `f`'s commit at position `r`, if any, is kept behind cell `f`
      of row `r`. */
  lemma {:induction false} BatchCommitsAt(obs: seq<Observation>, r: nat, f: nat)
    requires f < |obs|
    ensures BatchCommits(obs, r)[f] == CommitAt(obs[f], r)
  {
    if f > 0 {
      BatchCommitsAt(obs[1..], r, f - 1);
      assert obs[1..][f - 1] == obs[f];
    }
  }

  /** The rows the first `k` rows of a batch form once each has been
      inserted on top: row `k - 1` above the ones before it. */
  function RowsUpTo(obs: seq<Observation>, k: nat, n: nat, now: string, dateText: DateText): (rows: seq<seq<string>>)
    ensures |rows| == k
  {
    if k == 0 then [] else [BatchRow(obs, k - 1, n, now, dateText)] + RowsUpTo(obs, k - 1, n, now, dateText)
  }

  /** The commits behind the first `k` rows of a batch, inserted likewise. */
  function GridUpTo(obs: seq<Observation>, k: nat): (grid: seq<seq<Option<Commit>>>)
    ensures |grid| == k
  {
    if k == 0 then [] else [BatchCommits(obs, k - 1)] + GridUpTo(obs, k - 1)
  }

  /** Inserting on top reverses: the `i`-th row from the top is row
      `k - 1 - i` of the batch. */
  lemma {:induction false} RowsUpToAt(obs: seq<Observation>, k: nat, n: nat, now: string, dateText: DateText, i: nat)
    requires i < k
    ensures RowsUpTo(obs, k, n, now, dateText)[i] == BatchRow(obs, k - 1 - i, n, now, dateText)
  {
    if i > 0 {
      RowsUpToAt(obs, k - 1, n, now, dateText, i - 1);
      var rest := RowsUpTo(obs, k - 1, n, now, dateText);
      assert RowsUpTo(obs, k, n, now, dateText)[i] == rest[i - 1];
    }
  }

  lemma {:induction false} GridUpToAt(obs: seq<Observation>, k: nat, i: nat)
    requires i < k
    ensures GridUpTo(obs, k)[i] == BatchCommits(obs, k - 1 - i)
  {
    if i > 0 {
      GridUpToAt(obs, k - 1, i - 1);
      assert GridUpTo(obs, k)[i] == GridUpTo(obs, k - 1)[i - 1];
    }
  }

  /** The rows a batch puts on top of the table, top first. */
  function TopRows(obs: seq<Observation>, now: string, dateText: DateText): seq<seq<string>> {
    RowsUpTo(obs, MaxCommits(obs), MaxCommits(obs), now, dateText)
  }

  /** The commits a batch puts on top of `grid_data`, top first. */
  function TopGrid(obs: seq<Observation>): seq<seq<Option<Commit>>> {
    GridUpTo(obs, MaxCommits(obs))
  }

  /** `update_view`: an empty batch changes nothing; otherwise each row of
      the batch, in order, is inserted at the top of both the table and
      `grid_data`, and `row_count` grows with each.  `now` is the formatted
      time of the call. */
  method UpdateView(w: Window, obs: seq<Observation>, now: string, dateText: DateText) returns (w': Window)
    ensures IsEmpty(Some(obs)) ==> w' == w
    ensures w'.rows == TopRows(obs, now, dateText) + w.rows
    ensures w'.gridData == TopGrid(obs) + w.gridData
    ensures w'.rowCount == w.rowCount + MaxCommits(obs)
    ensures w'.config == w.config && w'.thread == w.thread && w'.columns == w.columns && w'.status == w.status
  {
    if IsEmpty(Some(obs)) {
      NoRowsIffEmpty(obs);
      assert TopRows(obs, now, dateText) == [] && TopGrid(obs) == [];
      return w;
    }
    var rows, grid, rowCount := PrependRows(w.rows, w.gridData, w.rowCount, obs, MaxCommits(obs), now, dateText);
    w' := w.(rows := rows, gridData := grid, rowCount := rowCount);
  }

  /** The row loop of `update_view`: rows `0 .. updateRowCount - 1` of a
      batch, each inserted on top of the previous one, into the table, into
      `grid_data` and into `row_count`. */
  method PrependRows(rows0: seq<seq<string>>, grid0: seq<seq<Option<Commit>>>, rowCount0: nat,
                     obs: seq<Observation>, updateRowCount: nat, now: string, dateText: DateText)
    returns (rows: seq<seq<string>>, grid: seq<seq<Option<Commit>>>, rowCount: nat)
    ensures rows == RowsUpTo(obs, updateRowCount, updateRowCount, now, dateText) + rows0
    ensures grid == GridUpTo(obs, updateRowCount) + grid0
    ensures rowCount == rowCount0 + updateRowCount
  {
    var topRows: seq<seq<string>> := [];
    var topGrid: seq<seq<Option<Commit>>> := [];
    var rowIdx := 0;
    while rowIdx < updateRowCount
      invariant 0 <= rowIdx <= updateRowCount
      invariant topRows == RowsUpTo(obs, rowIdx, updateRowCount, now, dateText)
      invariant topGrid == GridUpTo(obs, rowIdx)
    {
      var rowValues, rowCommits := BuildRow(obs, rowIdx, updateRowCount, now, dateText);
      topGrid := [rowCommits] + topGrid;
      topRows := [rowValues] + topRows;
      rowIdx := rowIdx + 1;
    }
    rows, grid, rowCount := topRows + rows0, topGrid + grid0, rowCount0 + rowIdx;
  }

  /** The body of the row loop of `update_view`: the values shown in row
      `rowIdx` of a batch of `updateRowCount` rows and the commits behind
      them, folder by folder. */
  method BuildRow(obs: seq<Observation>, rowIdx: nat, updateRowCount: nat, now: string, dateText: DateText)
    returns (rowValues: seq<string>, rowCommits: seq<Option<Commit>>)
    ensures rowValues == BatchRow(obs, rowIdx, updateRowCount, now, dateText)
    ensures rowCommits == BatchCommits(obs, rowIdx)
  {
    rowValues, rowCommits := BuildCells(obs, rowIdx, updateRowCount, now, dateText);
    BatchRowPointwise(obs, rowIdx, updateRowCount, now, dateText, rowValues, rowCommits);
  }

  /** The folder loop of a row, cell by cell. */
  method BuildCells(obs: seq<Observation>, rowIdx: nat, updateRowCount: nat, now: string, dateText: DateText)
    returns (rowValues: seq<string>, rowCommits: seq<Option<Commit>>)
    ensures |rowValues| == 1 + |obs| && |rowCommits| == |obs|
    ensures rowValues[0] == (if rowIdx + 1 == updateRowCount then now else "")
    ensures forall g :: 0 <= g < |obs| ==> rowCommits[g] == CommitAt(obs[g], rowIdx)
    ensures forall g :: 0 <= g < |obs| ==> rowValues[1 + g] == CellText(CommitAt(obs[g], rowIdx), dateText)
  {
    rowValues := [if rowIdx + 1 == updateRowCount then now else ""];
    rowCommits := [];
    var f := 0;
    while f < |obs|
      invariant 0 <= f <= |obs|
      invariant |rowValues| == 1 + f && |rowCommits| == f
      invariant rowValues[0] == (if rowIdx + 1 == updateRowCount then now else "")
      invariant forall g :: 0 <= g < f ==> rowCommits[g] == CommitAt(obs[g], rowIdx)
      invariant forall g :: 0 <= g < f ==> rowValues[1 + g] == CellText(CommitAt(obs[g], rowIdx), dateText)
    {
      if rowIdx >= |obs[f].commits| {
        rowValues := rowValues + [""];
        rowCommits := rowCommits + [None];
      } else {
        var commit := obs[f].commits[rowIdx];
        rowValues := rowValues + [SummaryText(commit, dateText)];
        rowCommits := rowCommits + [Some(commit)];
      }
      f := f + 1;
    }
  }

  /** A row is the batch row it agrees with cell by cell. */
  lemma BatchRowPointwise(obs: seq<Observation>, rowIdx: nat, n: nat, now: string, dateText: DateText,
                          rowValues: seq<string>, rowCommits: seq<Option<Commit>>)
    requires |rowValues| == 1 + |obs| && |rowCommits| == |obs|
    requires rowValues[0] == (if rowIdx + 1 == n then now else "")
    requires forall g :: 0 <= g < |obs| ==> rowCommits[g] == CommitAt(obs[g], rowIdx)
    requires forall g :: 0 <= g < |obs| ==> rowValues[1 + g] == CellText(CommitAt(obs[g], rowIdx), dateText)
    ensures rowValues == BatchRow(obs, rowIdx, n, now, dateText)
    ensures rowCommits == BatchCommits(obs, rowIdx)
  {
    var row := BatchRow(obs, rowIdx, n, now, dateText);
    forall k | 0 <= k < |row| ensures rowValues[k] == row[k] {
      if k > 0 {
        BatchRowCell(obs, rowIdx, n, now, dateText, k - 1);
      }
    }
    forall g | 0 <= g < |obs| ensures rowCommits[g] == BatchCommits(obs, rowIdx)[g] {
      BatchCommitsAt(obs, rowIdx, g);
    }
  }

  /** `observer_loaded`: the handler unwraps the batch from its
      `ObservationEventArgs` and updates the view with it.  A missing
      argument changes nothing, and neither does a batch without commits,
      which the observer thread delivers every minute nothing happened. */
  method ObserverLoadedHandler(w: Window, args: Option<Events.ObservationEventArgs>, now: string, dateText: DateText)
    returns (w': Window)
    ensures args.None? ==> w' == w
    ensures args.Some? && IsEmpty(Some(args.value.observations)) ==> w' == w
    ensures args.Some? ==> w'.rows == TopRows(args.value.observations, now, dateText) + w.rows
    ensures args.Some? ==> w'.gridData == TopGrid(args.value.observations) + w.gridData
    ensures args.Some? ==> w'.rowCount == w.rowCount + MaxCommits(args.value.observations)
  {
    if args.None? {
      return w;
    }
    w' := UpdateView(w, args.value.observations, now, dateText);
  }

  /** The newest batch sits on top and the update time sits on its top row
      only. */
  lemma StampOnTop(obs: seq<Observation>, now: string, dateText: DateText, i: nat)
    requires i < MaxCommits(obs)
    ensures var row := TopRows(obs, now, dateText)[i]; |row| == 1 + |obs| && row[0] == (if i == 0 then now else "")
  {
    RowsUpToAt(obs, MaxCommits(obs), MaxCommits(obs), now, dateText, i);
  }

  /** Every commit of a batch is kept: the `j`-th commit of folder `f` sits
      `j` rows above the bottom row of the batch, in data column `f` of
      `grid_data`. */
  lemma CommitPlaced(obs: seq<Observation>, f: nat, j: nat)
    requires f < |obs| && j < |obs[f].commits|
    ensures j < MaxCommits(obs)
    ensures var cs := TopGrid(obs)[MaxCommits(obs) - 1 - j]; |cs| == |obs| && cs[f] == Some(obs[f].commits[j])
  {
    EveryCommitHasARow(obs, f, j);
    var n := MaxCommits(obs);
    GridUpToAt(obs, n, n - 1 - j);
    BatchCommitsAt(obs, j, f);
  }

  /** The text of a commit of the batch sits in the same row and column of
      the table. */
  lemma CommitShown(obs: seq<Observation>, now: string, dateText: DateText, f: nat, j: nat)
    requires f < |obs| && j < |obs[f].commits|
    ensures j < MaxCommits(obs)
    ensures |TopRows(obs, now, dateText)[MaxCommits(obs) - 1 - j]| == 1 + |obs|
    ensures TopRows(obs, now, dateText)[MaxCommits(obs) - 1 - j][1 + f] == SummaryText(obs[f].commits[j], dateText)
  {
    EveryCommitHasARow(obs, f, j);
    var n := MaxCommits(obs);
    var i := n - 1 - j;
    assert n - 1 - i == j;
    TopRowAt(obs, now, dateText, i);
    BatchRowCell(obs, j, n, now, dateText, f);
    assert CommitAt(obs[f], j) == Some(obs[f].commits[j]);
  }

  lemma TopRowAt(obs: seq<Observation>, now: string, dateText: DateText, i: nat)
    requires i < MaxCommits(obs)
    ensures TopRows(obs, now, dateText)[i] == BatchRow(obs, MaxCommits(obs) - 1 - i, MaxCommits(obs), now, dateText)
  {
    RowsUpToAt(obs, MaxCommits(obs), MaxCommits(obs), now, dateText, i);
  }

  // ----- What is shown matches what is kept -----

  /** A row shows, after its time stamp cell, the text of the commits kept
      behind it. */
  predicate RowShows(row: seq<string>, commits: seq<Option<Commit>>, dateText: DateText) {
    |row| == 1 + |commits| && forall f :: 0 <= f < |commits| ==> row[1 + f] == CellText(commits[f], dateText)
  }

  /** The table, `grid_data` and `row_count` agree row for row. */
  predicate Aligned(w: Window, dateText: DateText) {
    && |w.rows| == |w.gridData| == w.rowCount
    && forall i :: 0 <= i < |w.rows| ==> RowShows(w.rows[i], w.gridData[i], dateText)
  }

  lemma NewWindowAligned(config: GitLog.ObserverConfig, dateText: DateText)
    ensures Aligned(NewWindow(config), dateText)
  {
  }

  /** A row of a batch shows the commits behind it. */
  lemma BatchRowShows(obs: seq<Observation>, r: nat, n: nat, now: string, dateText: DateText)
    ensures RowShows(BatchRow(obs, r, n, now, dateText), BatchCommits(obs, r), dateText)
  {
    forall f | 0 <= f < |obs|
      ensures BatchRow(obs, r, n, now, dateText)[1 + f] == CellText(BatchCommits(obs, r)[f], dateText)
    {
      BatchRowCell(obs, r, n, now, dateText, f);
      BatchCommitsAt(obs, r, f);
    }
  }

  /** Each row a batch puts on top shows the commits put behind it. */
  lemma TopRowShows(obs: seq<Observation>, now: string, dateText: DateText, i: nat)
    requires i < MaxCommits(obs)
    ensures RowShows(TopRows(obs, now, dateText)[i], TopGrid(obs)[i], dateText)
  {
    var n := MaxCommits(obs);
    UpToRowShows(obs, n, n, now, dateText, i);
  }

  lemma UpToRowShows(obs: seq<Observation>, k: nat, n: nat, now: string, dateText: DateText, i: nat)
    requires i < k
    ensures RowShows(RowsUpTo(obs, k, n, now, dateText)[i], GridUpTo(obs, k)[i], dateText)
  {
    var r: nat := k - 1 - i;
    assert RowsUpTo(obs, k, n, now, dateText)[i] == BatchRow(obs, r, n, now, dateText) by {
      RowsUpToAt(obs, k, n, now, dateText, i);
    }
    assert GridUpTo(obs, k)[i] == BatchCommits(obs, r) by {
      GridUpToAt(obs, k, i);
    }
    BatchRowShows(obs, r, n, now, dateText);
  }

  /** Putting a batch on top keeps the table, `grid_data` and `row_count`
      aligned. */
  lemma UpdateKeepsAligned(w: Window, w': Window, obs: seq<Observation>, now: string, dateText: DateText)
    requires Aligned(w, dateText)
    requires w'.rows == TopRows(obs, now, dateText) + w.rows
    requires w'.gridData == TopGrid(obs) + w.gridData
    requires w'.rowCount == w.rowCount + MaxCommits(obs)
    ensures Aligned(w', dateText)
  {
    var n := MaxCommits(obs);
    var top, grid := TopRows(obs, now, dateText), TopGrid(obs);
    assert |top| == n && |grid| == n;
    forall i | 0 <= i < |w'.rows| ensures RowShows(w'.rows[i], w'.gridData[i], dateText) {
      if i < n {
        TopRowShows(obs, now, dateText, i);
        FrontRowShows(top, grid, w.rows, w.gridData, dateText, i);
      } else {
        BackRowShows(top, grid, w.rows, w.gridData, dateText, i);
      }
    }
  }

  /** A row of the part put on top keeps showing its commits. */
  lemma FrontRowShows(top: seq<seq<string>>, grid: seq<seq<Option<Commit>>>,
                      rows: seq<seq<string>>, slots: seq<seq<Option<Commit>>>, dateText: DateText, i: nat)
    requires |top| == |grid| && i < |top| && RowShows(top[i], grid[i], dateText)
    ensures RowShows((top + rows)[i], (grid + slots)[i], dateText)
  {
    assert (top + rows)[i] == top[i] && (grid + slots)[i] == grid[i];
  }

  /** A row that was already there keeps showing its commits below. */
  lemma BackRowShows(top: seq<seq<string>>, grid: seq<seq<Option<Commit>>>,
                     rows: seq<seq<string>>, slots: seq<seq<Option<Commit>>>, dateText: DateText, i: nat)
    requires |top| == |grid| && |top| <= i < |top| + |rows| && |rows| == |slots|
    requires RowShows(rows[i - |top|], slots[i - |top|], dateText)
    ensures RowShows((top + rows)[i], (grid + slots)[i], dateText)
  {
    assert (top + rows)[i] == rows[i - |top|] && (grid + slots)[i] == slots[i - |top|];
  }

  // ----- Clicks -----

  /** `get_row_on_position` once the widget has resolved the position:
      `colNum` is the number of the `#n` column hit (`#1` is the date
      column), `region` the region hit and `rowIdx` the index of the row
      hit.  Data column `#n` holds the commit of folder `n - 2`. */
  function GetRowOnPosition(w: Window, colNum: nat, region: string, rowIdx: nat)
    : (r: Result<Option<Commit>, ViewerError>)
    ensures colNum <= 1 || region != "cell" ==> r == Ok(None)
    ensures colNum > 1 && region == "cell" ==>
              (r.Err? <==> rowIdx >= |w.gridData| || colNum - 2 >= |w.gridData[rowIdx]|)
    ensures r.Err? ==> r.error == IndexError
    ensures r.Ok? && colNum > 1 && region == "cell" ==> r.value == w.gridData[rowIdx][colNum - 2]
  {
    if colNum <= 1 then Ok(None)
    else
      var dataCol := colNum - 1;
      if region != "cell" then Ok(None)
      else if rowIdx >= |w.gridData| then Err(IndexError)
      else if dataCol - 1 >= |w.gridData[rowIdx]| then Err(IndexError)
      else Ok(w.gridData[rowIdx][dataCol - 1])
  }

  /** In an aligned window a click reaches exactly the commit whose text
      the clicked cell shows: column `#n` shows `values[n - 1]`. */
  lemma ClickedCellShowsCommit(w: Window, dateText: DateText, colNum: nat, rowIdx: nat)
    requires Aligned(w, dateText)
    requires colNum > 1 && rowIdx < |w.rows| && colNum - 1 < |w.rows[rowIdx]|
    ensures GetRowOnPosition(w, colNum, "cell", rowIdx).Ok?
    ensures var c := GetRowOnPosition(w, colNum, "cell", rowIdx).value;
            w.rows[rowIdx][colNum - 1] == CellText(c, dateText)
    ensures GetRowOnPosition(w, colNum, "cell", rowIdx).value.Some? <==> w.rows[rowIdx][colNum - 1] != ""
  {
    assert RowShows(w.rows[rowIdx], w.gridData[rowIdx], dateText);
  }

  /** `control_click`: the link opened for the commit under the pointer, the
      origin followed by its hash; nothing without a commit or with an
      empty hash.  A missing hash has no length (`TypeError`). */
  function ControlClick(w: Window, colNum: nat, region: string, rowIdx: nat): (r: Result<Option<string>, ViewerError>)
    ensures GetRowOnPosition(w, colNum, region, rowIdx).Err? ==> r == Err(IndexError)
    ensures GetRowOnPosition(w, colNum, region, rowIdx) == Ok(None) ==> r == Ok(None)
    ensures var g := GetRowOnPosition(w, colNum, region, rowIdx);
            r.Ok? && r.value.Some? <==> g.Ok? && g.value.Some? && g.value.value.sha1.Some? && g.value.value.sha1.value != ""
    ensures var g := GetRowOnPosition(w, colNum, region, rowIdx);
            r.Ok? && r.value.Some? ==> r.value.value == w.config.origin + g.value.value.sha1.value
    ensures var g := GetRowOnPosition(w, colNum, region, rowIdx);
            r == Err(TypeError) <==> g.Ok? && g.value.Some? && g.value.value.sha1.None?
  {
    match GetRowOnPosition(w, colNum, region, rowIdx)
    case Err(e) => Err(e)
    case Ok(None) => Ok(None)
    case Ok(Some(commit)) =>
      match commit.sha1
      case None => Err(TypeError)
      case Some(sha1) => if |sha1| > 0 then Ok(Some(w.config.origin + sha1)) else Ok(None)
  }

  /** `cell_double_click`: the `git show` command run for the commit under
      the pointer, when it has a non-empty hash. */
  function CellDoubleClick(w: Window, colNum: nat, region: string, rowIdx: nat)
    : (r: Result<Option<seq<string>>, ViewerError>)
    ensures r.Ok? && r.value.Some? <==> ControlClick(w, colNum, region, rowIdx).Ok? && ControlClick(w, colNum, region, rowIdx).value.Some?
    ensures r.Err? <==> ControlClick(w, colNum, region, rowIdx).Err?
    ensures r.Ok? && r.value.Some? ==>
              r.value.value == Observer.ShowCmd(w.thread.observer, GetRowOnPosition(w, colNum, region, rowIdx).value.value.sha1.value)
  {
    match GetRowOnPosition(w, colNum, region, rowIdx)
    case Err(e) => Err(e)
    case Ok(None) => Ok(None)
    case Ok(Some(commit)) =>
      match commit.sha1
      case None => Err(TypeError)
      case Some(sha1) => if |sha1| > 0 then Ok(Some(Observer.ShowCmd(w.thread.observer, sha1))) else Ok(None)
  }

  /** A control-click on a commit cell of an aligned window opens the link of
      the very commit whose text the cell shows, when no other commit kept
      behind that row shows the same text. */
  lemma ControlClickOpensShownCommit(w: Window, dateText: DateText, colNum: nat, rowIdx: nat, c: Commit)
    requires Aligned(w, dateText)
    requires colNum > 1 && rowIdx < |w.rows| && colNum - 1 < |w.rows[rowIdx]|
    requires w.rows[rowIdx][colNum - 1] == SummaryText(c, dateText)
    requires c.sha1.Some? && c.sha1.value != ""
    requires forall g :: g in w.gridData[rowIdx] && g.Some? && SummaryText(g.value, dateText) == SummaryText(c, dateText)
               ==> g.value == c
    ensures ControlClick(w, colNum, "cell", rowIdx) == Ok(Some(w.config.origin + c.sha1.value))
  {
    ClickedCellShowsCommit(w, dateText, colNum, rowIdx);
    var got := GetRowOnPosition(w, colNum, "cell", rowIdx).value;
    assert got == w.gridData[rowIdx][colNum - 2];
    assert got.Some?;
    assert SummaryText(got.value, dateText) == SummaryText(c, dateText);
  }

  /** The row-local condition above is met by every row holding a single
      commit: clicking its text opens its link. */
  lemma ControlClickOnSingleCommitRow(w: Window, dateText: DateText, rowIdx: nat, c: Commit)
    requires Aligned(w, dateText)
    requires rowIdx < |w.rows| && w.gridData[rowIdx] == [Some(c)]
    requires c.sha1.Some? && c.sha1.value != ""
    ensures ControlClick(w, 2, "cell", rowIdx) == Ok(Some(w.config.origin + c.sha1.value))
  {
    assert RowShows(w.rows[rowIdx], w.gridData[rowIdx], dateText);
    assert w.rows[rowIdx][1] == CellText(w.gridData[rowIdx][0], dateText);
    assert forall g :: g in w.gridData[rowIdx] ==> g == Some(c);
    ControlClickOpensShownCommit(w, dateText, 2, rowIdx, c);
  }
}
