/** What both table windows (GitObserverViewer.py and viewer.py) show of a
    batch: one row per commit position, as many rows as the fullest folder
    has commits, and for each folder the commit at that position or
    nothing when the folder has fewer commits. */
module ViewRows {
  import opened Outcomes
  import opened Transport

  /** The heading of the first column, which holds the update time. */
  const LastUpdated: string := "Last updated"

  /** The row count of a batch: the largest commit count of its folders. */
  function MaxCommits(obs: seq<Observation>): (n: nat)
    ensures forall f :: 0 <= f < |obs| ==> |obs[f].commits| <= n
    ensures n == 0 || exists f :: 0 <= f < |obs| && |obs[f].commits| == n
  {
    if |obs| == 0 then 0
    else
      var rest := MaxCommits(obs[1..]);
      if |obs[0].commits| > rest then |obs[0].commits| else rest
  }

  /** A batch gets no row exactly when it is empty in the sense of
      `is_empty`. */
  lemma NoRowsIffEmpty(obs: seq<Observation>)
    ensures MaxCommits(obs) == 0 <==> IsEmpty(Some(obs))
  {
  }

  /** One more element of a prefix. */
  lemma PrefixSnoc<T>(s: seq<T>, i: nat)
    requires i < |s|
    ensures s[..i + 1] == s[..i] + [s[i]]
  {
  }

  lemma PrefixWhole<T>(s: seq<T>)
    ensures s[..|s|] == s
  {
  }

  /** The commit a folder contributes to row `rowIdx`, if it has one. */
  function CommitAt(o: Observation, rowIdx: nat): (c: Option<Commit>)
    ensures c.Some? <==> rowIdx < |o.commits|
    ensures c.Some? ==> c.value == o.commits[rowIdx]
  {
    if rowIdx < |o.commits| then Some(o.commits[rowIdx]) else None
  }

  /** `f"{commit.author}: {commit.message} ({date})"`: the text cell of a
      commit. */
  function SummaryText(c: Commit, dateText: DateText): (t: string)
    ensures c.author + ": " <= t
    ensures |t| == |c.author| + 2 + |c.message| + 2 + |dateText(c.date)| + 1
    ensures t[|t| - 1] == ')'
  {
    c.author + ": " + c.message + " (" + dateText(c.date) + ")"
  }

  /** The text cell of a row for one folder: empty without a commit. */
  function CellText(c: Option<Commit>, dateText: DateText): (t: string)
    ensures t == "" <==> c.None?
  {
    match c
    case None => ""
    case Some(commit) => SummaryText(commit, dateText)
  }

  /** Every commit of a batch lands in a row: its position in its folder is
      below the row count. */
  lemma EveryCommitHasARow(obs: seq<Observation>, f: nat, j: nat)
    requires f < |obs| && j < |obs[f].commits|
    ensures j < MaxCommits(obs)
    ensures CommitAt(obs[f], j) == Some(obs[f].commits[j])
  {
  }

  /** Some folder of a non-empty batch reaches its last row. */
  lemma LastRowOccupied(obs: seq<Observation>)
    requires !IsEmpty(Some(obs))
    ensures exists f :: 0 <= f < |obs| && CommitAt(obs[f], MaxCommits(obs) - 1).Some?
  {
    var n := MaxCommits(obs);
    NoRowsIffEmpty(obs);
    assert n != 0;
    var f :| 0 <= f < |obs| && |obs[f].commits| == n;
    assert CommitAt(obs[f], n - 1).Some?;
  }

  /** The first row of a non-empty batch holds a commit. */
  lemma FirstRowOccupied(obs: seq<Observation>)
    requires !IsEmpty(Some(obs))
    ensures exists f :: 0 <= f < |obs| && CommitAt(obs[f], 0).Some?
  {
    var f :| 0 <= f < |obs| && |obs[f].commits| > 0;
    assert CommitAt(obs[f], 0).Some?;
  }
}
