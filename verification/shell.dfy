/** main.py: the command-line mode.  A loop wakes every 100 ms, counts the
    milliseconds since the last shown change, loads the observations when
    that count is a multiple of the interval, prints a non-empty batch and
    restarts the count after it.  A termination signal clears the run flag. */
module Shell {
  import opened Outcomes
  import opened Transport
  import opened GitLog
  import Observer
  import Dedup

  /** `interval_dur_s * 1000` with `interval_dur_s = 60`. */
  const IntervalMs: nat := 60000

  /** Milliseconds added per wake-up (`sleep(0.1)`). */
  const StepMs: nat := 100

  /** The loop's state: the millisecond count, the module-level run flag
      and the observer it polls. */
  datatype ShellState = ShellState(ms: nat, runMain: bool, observer: Observer.GitObserver)

  /** `call_shell` before its loop: a fresh observer and a zero count. */
  function StartShell(config: ObserverConfig, running: bool): (s: ShellState)
    ensures s.ms == 0 && s.runMain == running
    ensures s.observer == Observer.NewGitObserver(config) && !s.observer.isTest
  {
    ShellState(0, running, Observer.NewGitObserver(config))
  }

  /** `global_sigterm`: clears the run flag. */
  function GlobalSigterm(s: ShellState): (s': ShellState)
    ensures !s'.runMain && s'.ms == s.ms && s'.observer == s.observer
  {
    s.(runMain := false)
  }

  /** A load is due when the count is a multiple of the interval. */
  predicate LoadDue(ms: nat, intervalMs: nat)
    requires intervalMs > 0
  {
    ms % intervalMs == 0
  }

  /** The count after one wake-up: it restarts only when a load was due
      and brought a non-empty batch. */
  function NextMs(ms: nat, intervalMs: nat, nonEmpty: bool): (next: nat)
    requires intervalMs > 0
    ensures next == StepMs <==> (LoadDue(ms, intervalMs) && nonEmpty) || ms == 0
    ensures next >= StepMs
  {
    (if LoadDue(ms, intervalMs) && nonEmpty then 0 else ms) + StepMs
  }

  /** The count after the wake-ups of `call_shell` at the configured
      interval, where `batches[j]` says whether wake-up `j` would have
      brought a non-empty batch had it loaded. */
  function MsAfter(batches: seq<bool>): nat {
    if |batches| == 0 then 0
    else NextMs(MsAfter(batches[..|batches| - 1]), IntervalMs, batches[|batches| - 1])
  }

  /** Restarting the count at a due load does not move it modulo the
      interval: after `n` wake-ups the count agrees with `100 * n`. */
  lemma {:induction false} MsAfterModulo(batches: seq<bool>)
    ensures MsAfter(batches) % IntervalMs == (StepMs * |batches|) % IntervalMs
  {
    if |batches| > 0 {
      var prefix := batches[..|batches| - 1];
      MsAfterModulo(prefix);
      var prev := MsAfter(prefix);
      var base := if LoadDue(prev, IntervalMs) && batches[|batches| - 1] then 0 else prev;
      assert base % IntervalMs == (StepMs * |prefix|) % IntervalMs;
      assert MsAfter(batches) == base + StepMs;
      assert StepMs * |batches| == StepMs * |prefix| + StepMs;
    }
  }

  /** A load happens exactly on every 600th wake-up, once a minute,
      counting from the first, whatever the batches were. */
  lemma LoadsEveryMinute(batches: seq<bool>)
    ensures LoadDue(MsAfter(batches), IntervalMs) <==> |batches| % 600 == 0
  {
    MsAfterModulo(batches);
  }

  /** Truthiness of the branch attribute. */
  predicate BranchTruthy(branch: Option<string>) {
    branch.Some? && branch.value != ""
  }

  /** `f'{cmt.branch}\n' if cmt.branch else ''`. */
  function BranchLine(branch: Option<string>): (line: string)
    ensures line == "" <==> !BranchTruthy(branch)
    ensures BranchTruthy(branch) ==> line == branch.value + "\n"
  {
    if BranchTruthy(branch) then branch.value + "\n" else ""
  }

  /** The text printed for one commit: author, date and summary, the branch
      line, then the link, which is the origin the line parser was given
      followed by the hash. */
  function CommitText(c: Commit, origin: string, dateText: DateText): (text: string)
    ensures |text| == |c.author| + 2 + |dateText(c.date)| + 3 + |c.message| + 1
                      + |BranchLine(c.branch)| + |origin| + |HashText(c.sha1)| + 1
    ensures text[|text| - 1] == '\n'
    ensures text[|text| - 1 - |HashText(c.sha1)| - |origin|..|text| - 1] == origin + HashText(c.sha1)
  {
    c.author + " (" + dateText(c.date) + "): " + c.message + "\n"
    + BranchLine(c.branch) + origin + HashText(c.sha1) + "\n"
  }

  /** The branch line shows up exactly when the branch is truthy. */
  lemma BranchShownIffTruthy(c: Commit, origin: string, dateText: DateText)
    ensures CommitText(c, origin, dateText) != CommitText(c.(branch := None), origin, dateText)
            <==> BranchTruthy(c.branch)
  {
    var a := CommitText(c, origin, dateText);
    var b := CommitText(c.(branch := None), origin, dateText);
    if BranchTruthy(c.branch) {
      assert |a| > |b|;
    } else {
      assert BranchLine(c.branch) == BranchLine(None);
    }
  }

  /** The lines printed for one folder: its header, then each commit. */
  function FolderOutput(folderText: string, commits: seq<Commit>, origin: string, dateText: DateText): (out: seq<string>)
    ensures |out| == 1 + |commits| && out[0] == "--- " + folderText + " ---"
    ensures forall j :: 0 <= j < |commits| ==> out[j + 1] == CommitText(commits[j], origin, dateText)
  {
    ["--- " + folderText + " ---"] + seq(|commits|, j requires 0 <= j < |commits| => CommitText(commits[j], origin, dateText))
  }

  /** The lines printed for a batch; an empty batch prints nothing.
      `folderText` stands for the default `str()` of an observation. */
  function BatchOutput(obs: seq<Observation>, origin: string, dateText: DateText,
                       folderText: Observation -> string): (out: seq<string>)
    ensures IsEmpty(Some(obs)) ==> out == []
    ensures !IsEmpty(Some(obs)) ==> |out| == |obs| + |AllCommits(obs)|
  {
    if IsEmpty(Some(obs)) then [] else PrintFolders(obs, origin, dateText, folderText)
  }

  function PrintFolders(obs: seq<Observation>, origin: string, dateText: DateText,
                        folderText: Observation -> string): (out: seq<string>)
    ensures |out| == |obs| + |AllCommits(obs)|
  {
    if |obs| == 0 then []
    else FolderOutput(folderText(obs[0]), obs[0].commits, origin, dateText)
         + PrintFolders(obs[1..], origin, dateText, folderText)
  }

  /** One pass of the `call_shell` loop.  A cleared flag ends the loop
      before the pass.  A due load that fails raises out of the loop; a due
      load with a non-empty batch prints it and restarts the count. */
  method ShellStep(s: ShellState, intervalMs: nat, source: Observer.LogSource, parse: Observer.LineParser,
                   dateText: DateText, folderText: Observation -> string)
    returns (s': ShellState, loaded: Option<seq<Observation>>, printed: seq<string>, failure: Option<ParseError>)
    requires intervalMs > 0
    ensures !s.runMain ==> s' == s && loaded.None? && printed == [] && failure.None?
    ensures s.runMain && !LoadDue(s.ms, intervalMs) ==>
              s' == s.(ms := s.ms + StepMs) && loaded.None? && printed == [] && failure.None?
    ensures s'.runMain == s.runMain
    ensures s'.observer.config == s.observer.config && s'.observer.isTest == s.observer.isTest
    ensures s.observer.knownHashes <= s'.observer.knownHashes
    ensures s.runMain && LoadDue(s.ms, intervalMs) ==> loaded.Some? != failure.Some?
    ensures failure.Some? ==> s.runMain && LoadDue(s.ms, intervalMs) && printed == []
    ensures loaded.None? ==> printed == []
    // a due load prints exactly its batch, and only a batch with a commit
    // prints anything and restarts the count
    ensures loaded.Some? ==> s.runMain && LoadDue(s.ms, intervalMs)
    ensures loaded.Some? ==>
              printed == BatchOutput(loaded.value, s.observer.config.origin, dateText, folderText)
    ensures loaded.Some? ==> (printed != [] <==> !IsEmpty(Some(loaded.value)))
    ensures loaded.Some? ==>
              s'.ms == (if IsEmpty(Some(loaded.value)) then s.ms + StepMs else StepMs)
    ensures s.runMain && failure.None? ==> s'.ms == NextMs(s.ms, intervalMs, printed != [])
    // what `load_observations` guarantees about the batch
    ensures loaded.Some? ==> |loaded.value| == |s.observer.config.logfolders|
    ensures loaded.Some? ==> forall i :: 0 <= i < |loaded.value| ==>
              loaded.value[i].name == s.observer.config.logfolders[i]
    ensures loaded.Some? ==> DistinctHashes(AllCommits(loaded.value))
    ensures loaded.Some? ==> forall c :: c in AllCommits(loaded.value) ==>
              c.sha1 !in s.observer.knownHashes && c.sha1 in s'.observer.knownHashes
              && !Dedup.Ignored(s.observer.config.ignore, c.author)
  {
    if !s.runMain {
      return s, None, [], None;
    }
    if s.ms % intervalMs != 0 {
      return s.(ms := s.ms + StepMs), None, [], None;
    }
    var o, commands, result := Observer.LoadObservations(s.observer, source, parse);
    if result.Err? {
      return s.(observer := o), None, [], Some(result.error);
    }
    loaded := Some(result.value);
    printed := BatchOutput(result.value, o.config.origin, dateText, folderText);
    EmptyIffNoCommits(result.value);
    var ms := if IsEmpty(Some(result.value)) then s.ms else 0;
    return s.(ms := ms + StepMs, observer := o), loaded, printed, None;
  }
}
