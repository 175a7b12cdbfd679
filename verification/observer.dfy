/** observer.py: the current observer.  It builds the git commands for the
    configured repository, reads the quoted log lines of one folder, keeps
    the commits whose hash it has not seen and whose author is relevant,
    collects one `Observation` per folder, and lets a background thread
    repeat that once a minute and publish the result. */
module Observer {
  import opened Outcomes
  import opened Text
  import opened Transport
  import opened GitLog
  import opened Dedup
  import opened Events

  /** `GitObserver`: the configuration it was built from, the test flag and
      its own list of hashes already seen. */
  datatype GitObserver = GitObserver(config: ObserverConfig, isTest: bool, knownHashes: seq<Hash>)

  /** `GitObserver.__init__`: nothing has been seen yet. */
  function NewGitObserver(config: ObserverConfig, isTestInstance: bool := false): (o: GitObserver)
    ensures o.config == config && o.isTest == isTestInstance
    ensures o.knownHashes == []
  {
    GitObserver(config, isTestInstance, [])
  }

  /** The ordering flag of the log command. */
  function SortFlag(descending: bool): (flag: string)
    ensures flag == "--date-order" <==> descending
    ensures flag == "--reverse" <==> !descending
  {
    if descending then "--date-order" else "--reverse"
  }

  /** `get_git_log_cmd`: the since-clause and the format are quoted inside
      the argument, and the observed path is the last argument. */
  function LogCmd(o: GitObserver, path: string): (cmd: seq<string>)
    ensures |cmd| == 9 && cmd[..3] == RepoPrefix(o.config.filepath)
    ensures cmd[3..7] == ["log", "--since=\"1 week ago\"", "--pretty=format:\"%cn|%cI|%s|%h|%D\"", "--all"]
    ensures cmd[7] == SortFlag(o.config.descending)
    ensures cmd[8] == o.config.filepath + "/" + path
  {
    RepoPrefix(o.config.filepath)
    + ["log", "--since=\"1 week ago\"", "--pretty=format:\"%cn|%cI|%s|%h|%D\"", "--all",
       SortFlag(o.config.descending), o.config.filepath + "/" + path]
  }

  /** The log command orders by date exactly for a descending configuration. */
  lemma LogCmdOrdering(o: GitObserver, path: string)
    ensures LogCmd(o, path)[7] == "--date-order" <==> o.config.descending
    ensures "--git-dir=" + o.config.filepath + "/.git/" in LogCmd(o, path)
    ensures "--work-tree=" + o.config.filepath in LogCmd(o, path)
  {
    assert LogCmd(o, path)[1] == RepoPrefix(o.config.filepath)[1];
    assert LogCmd(o, path)[2] == RepoPrefix(o.config.filepath)[2];
  }

  /** `get_git_show_cmd`: the full commit header of one hash. */
  function ShowCmd(o: GitObserver, sha1: string): (cmd: seq<string>)
    ensures |cmd| == 7 && cmd[..3] == RepoPrefix(o.config.filepath)
    ensures cmd[3..6] == ["show", "--pretty=fuller", "-s"]
    ensures cmd[|cmd| - 1] == sha1
  {
    RepoPrefix(o.config.filepath) + ["show", "--pretty=fuller", "-s", sha1]
  }

  /** `line.rstrip()[1:-1]`: trailing whitespace goes, then the first and
      the last character; a line of fewer than two characters becomes empty. */
  function LineContent(raw: string): (r: string)
    ensures |RStrip(raw)| >= 2 ==> |r| == |RStrip(raw)| - 2 && RStrip(raw) == [RStrip(raw)[0]] + r + [RStrip(raw)[|RStrip(raw)| - 1]]
    ensures |RStrip(raw)| < 2 ==> r == ""
  {
    var t := RStrip(raw);
    if |t| < 2 then "" else t[1..|t| - 1]
  }

  /** A record git wrapped in quotes, read with its line break, comes back unquoted. */
  lemma QuotedLineRoundTrip(s: string)
    ensures LineContent("\"" + s + "\"\n") == s
  {
    var q := "\"" + s + "\"";
    assert "\"" + s + "\"\n" == q + "\n";
    assert (q + "\n")[..|q + "\n"| - 1] == q;
    assert RStrip(q) == q;
    assert RStrip(q + "\n") == q;
    assert q[1..|q| - 1] == s;
  }

  /** The line parser `read_git_commits` calls: an error is raised, a
      falsy result (`None`) is skipped, a commit is kept. */
  type LineParser = string -> Result<Option<Commit>, ParseError>

  /** The parser behind the line parser, after the field layout the
      repository's transport test pins: author, date, summary, hash and the
      ref names, kept verbatim. */
  function ParseCommitFormatted(line: string, iso: IsoParser): (r: Result<Option<Commit>, ParseError>)
    ensures r.Ok? <==> ParseFields(line, iso).Ok?
    ensures r.Err? ==> r.error == ParseFields(line, iso).error
    ensures r.Ok? ==> r.value.Some? && r.value.value.author == Split(line, '|')[0]
                      && r.value.value.sha1 == Some(Split(line, '|')[3])
  {
    match ParseFields(line, iso)
    case Err(e) => Err(e)
    case Ok(f) => Ok(Some(Commit(f.author, f.date, f.message, Some(f.hash), Some(f.refs))))
  }

  /** The five fields of a formatted record land in the commit unchanged. */
  lemma FormattedRecordParses(author: string, dateText: string, message: string, hash: string, refs: string,
                              date: Instant, iso: IsoParser)
    requires PipeFree(author) && PipeFree(dateText) && PipeFree(message) && PipeFree(hash) && PipeFree(refs)
    requires iso(dateText) == Some(date)
    ensures ParseCommitFormatted(FormatRecord(author, dateText, message, hash, refs), iso)
            == Ok(Some(Commit(author, date, message, Some(hash), Some(refs))))
  {
    FormatThenParse(author, dateText, message, hash, refs, date, iso);
  }

  /** `read_git_commits` over the successive `readline()` results of the
      log stream: reading ends at the first empty read (or when nothing is
      left), every line is unquoted and parsed, and the first parse error
      ends the whole read. */
  function ReadGitCommits(lines: seq<string>, parse: LineParser): (r: Result<seq<Commit>, ParseError>)
    ensures r.Ok? ==> |r.value| <= |lines|
  {
    if |lines| == 0 || lines[0] == "" then Ok([])
    else match parse(LineContent(lines[0]))
      case Err(e) => Err(e)
      case Ok(None) => ReadGitCommits(lines[1..], parse)
      case Ok(Some(c)) =>
        match ReadGitCommits(lines[1..], parse)
        case Err(e) => Err(e)
        case Ok(rest) => Ok([c] + rest)
  }

  /** Nothing after the end of the stream is read. */
  lemma {:induction false} ReadStopsAtEndOfStream(before: seq<string>, after: seq<string>, parse: LineParser)
    requires "" !in before
    ensures ReadGitCommits(before + [""] + after, parse) == ReadGitCommits(before, parse)
  {
    if |before| == 0 {
      assert (before + [""] + after)[0] == "";
    } else {
      assert (before + [""] + after)[1..] == before[1..] + [""] + after;
      ReadStopsAtEndOfStream(before[1..], after, parse);
    }
  }

  /** When every line parses to a commit, the read returns those commits in
      stream order. */
  lemma {:induction false} ReadAllParsed(lines: seq<string>, parse: LineParser, cs: seq<Commit>)
    requires "" !in lines && |cs| == |lines|
    requires forall i :: 0 <= i < |lines| ==> parse(LineContent(lines[i])) == Ok(Some(cs[i]))
    ensures ReadGitCommits(lines, parse) == Ok(cs)
  {
    if |lines| > 0 {
      assert lines[0] in lines;
      ReadAllParsed(lines[1..], parse, cs[1..]);
      assert cs == [cs[0]] + cs[1..];
    }
  }

  /** Falsy parse results leave no trace. */
  lemma {:induction false} ReadSkipsFalsy(line: string, rest: seq<string>, parse: LineParser)
    requires line != "" && parse(LineContent(line)) == Ok(None)
    ensures ReadGitCommits([line] + rest, parse) == ReadGitCommits(rest, parse)
  {
    assert ([line] + rest)[1..] == rest;
  }

  /** `filter_commit_result`: one pass over the commits in input order.  A
      known hash is skipped; a new hash is recorded before the author is
      looked at, so an ignored author's hash is remembered too; survivors
      come back in reverse input order. */
  method FilterCommitResult(o: GitObserver, commits: seq<Commit>) returns (o': GitObserver, messages: seq<Commit>)
    ensures o'.config == o.config && o'.isTest == o.isTest
    ensures var pass := Sweep(o.knownHashes, o.config.ignore, commits);
            o'.knownHashes == pass.0 && messages == Reverse(pass.1)
    ensures |commits| == 0 ==> o' == o && messages == []
    ensures o.knownHashes <= o'.knownHashes
    ensures forall h :: h in o'.knownHashes <==> h in o.knownHashes || h in Hashes(commits)
    ensures forall c :: c in messages ==>
              c in commits && c.sha1 !in o.knownHashes && c.sha1 in o'.knownHashes
              && !Ignored(o.config.ignore, c.author)
    ensures DistinctHashes(messages)
  {
    if |commits| <= 0 {
      return o, [];
    }
    var known := o.knownHashes;
    var kept: seq<Commit> := [];
    var i := 0;
    while i < |commits|
      invariant 0 <= i <= |commits|
      invariant (known, kept) == Sweep(o.knownHashes, o.config.ignore, commits[..i])
    {
      var c := commits[i];
      SweepSnoc(o.knownHashes, o.config.ignore, commits[..i], c);
      assert commits[..i + 1] == commits[..i] + [c];
      ghost var prior := Sweep(o.knownHashes, o.config.ignore, commits[..i]);
      assert known == prior.0 && kept == prior.1;
      if c.sha1 in known {
        i := i + 1;
        continue;
      }
      known := known + [c.sha1];
      var ignored := IgnoreAuthor(o.config.ignore, c.author);
      if !ignored {
        kept := kept + [c];
      } else {
        assert kept == kept + [];
      }
      i := i + 1;
    }
    assert commits[..|commits|] == commits;
    SweepGuarantees(o.knownHashes, o.config.ignore, commits);
    ReverseSameElements(kept);
    ReverseKeepsDistinct(kept);
    messages := Reverse(kept);
    o' := o.(knownHashes := known);
  }

  /** `handle_observed_path`: read one folder's log, then filter it.  A
      parse error leaves the hash list as it was. */
  method HandleObservedPath(o: GitObserver, lines: seq<string>, parse: LineParser)
    returns (o': GitObserver, r: Result<seq<Commit>, ParseError>)
    ensures o'.config == o.config && o'.isTest == o.isTest
    ensures ReadGitCommits(lines, parse).Err? ==> o' == o && r == Err(ReadGitCommits(lines, parse).error)
    ensures ReadGitCommits(lines, parse).Ok? ==>
              var pass := Sweep(o.knownHashes, o.config.ignore, ReadGitCommits(lines, parse).value);
              o'.knownHashes == pass.0 && r == Ok(Reverse(pass.1))
    ensures o.knownHashes <= o'.knownHashes
    ensures forall h :: h in o.knownHashes ==> h in o'.knownHashes
    ensures r.Ok? ==> DistinctHashes(r.value)
    ensures r.Ok? ==> forall c :: c in r.value ==>
              c.sha1 !in o.knownHashes && c.sha1 in o'.knownHashes && !Ignored(o.config.ignore, c.author)
  {
    var response := ReadGitCommits(lines, parse);
    if response.Err? {
      return o, Err(response.error);
    }
    var messages;
    o', messages := FilterCommitResult(o, response.value);
    if |messages| == 0 {
      return o', Ok([]);
    }
    return o', Ok(messages);
  }

  /** Where the lines of a folder's log come from: the git pipe, or the
      dummy log in test mode. */
  type LogSource = string -> seq<string>

  /** The log commands of `load_observations` for the given folders, in
      order. */
  function LogCmds(o: GitObserver, folders: seq<string>): (cmds: seq<seq<string>>)
    ensures |cmds| == |folders|
  {
    if |folders| == 0 then [] else LogCmds(o, folders[..|folders| - 1]) + [LogCmd(o, folders[|folders| - 1])]
  }

  /** The `k`-th log command is that of the `k`-th folder. */
  lemma {:induction false} LogCmdsAt(o: GitObserver, folders: seq<string>, k: nat)
    requires k < |folders|
    ensures LogCmds(o, folders)[k] == LogCmd(o, folders[k])
  {
    if k < |folders| - 1 {
      LogCmdsAt(o, folders[..|folders| - 1], k);
    }
  }

  /** The git calls of `load_observations` once its loop has reached
      folder `n`: none in test mode; otherwise the fetch, then the log
      command of every folder before `n`. */
  function LoadCommands(o: GitObserver, n: nat): (cmds: seq<seq<string>>)
    requires n <= |o.config.logfolders|
    ensures o.isTest <==> cmds == []
    ensures !o.isTest ==> |cmds| == n + 1 && cmds[0] == FetchCmd(o.config.filepath)
  {
    if o.isTest then [] else [FetchCmd(o.config.filepath)] + LogCmds(o, o.config.logfolders[..n])
  }

  /** What those calls are, one by one. */
  lemma LoadCommandsShape(o: GitObserver, n: nat)
    requires n <= |o.config.logfolders|
    ensures var commands := LoadCommands(o, n);
            && (o.isTest ==> commands == [])
            && (!o.isTest ==> |commands| == n + 1 && commands[0] == FetchCmd(o.config.filepath))
            && (!o.isTest ==> forall k :: 1 <= k < |commands| ==>
                  k <= |o.config.logfolders| && commands[k] == LogCmd(o, o.config.logfolders[k - 1]))
  {
    var commands := LoadCommands(o, n);
    if !o.isTest {
      forall k | 1 <= k < |commands|
        ensures commands[k] == LogCmd(o, o.config.logfolders[k - 1])
      {
        LogCmdsAt(o, o.config.logfolders[..n], k - 1);
      }
    }
  }

  /** The folder loop of `load_observations`: one observation per
      configured folder, in configured order and named by the folder, until
      a log fails to parse.  `reached` counts the folders whose log was
      asked for, the failing one included. */
  method ObserveFolders(o: GitObserver, source: LogSource, parse: LineParser)
    returns (o': GitObserver, reached: nat, r: Result<seq<Observation>, ParseError>)
    ensures o'.config == o.config && o'.isTest == o.isTest
    ensures o.knownHashes <= o'.knownHashes
    ensures reached <= |o.config.logfolders|
    ensures r.Ok? ==> reached == |o.config.logfolders| && |r.value| == reached
    ensures r.Err? ==> reached >= 1
    ensures r.Ok? ==> forall i :: 0 <= i < |r.value| ==> r.value[i].name == o.config.logfolders[i]
    ensures r.Ok? ==> FreshSince(r.value, o.knownHashes, o'.knownHashes, o.config.ignore)
  {
    var folders := o.config.logfolders;
    var cur := o;
    var obs: seq<Observation> := [];
    var i := 0;
    while i < |folders|
      invariant 0 <= i <= |folders|
      invariant cur.config == o.config && cur.isTest == o.isTest
      invariant o.knownHashes <= cur.knownHashes
      invariant |obs| == i && forall j :: 0 <= j < i ==> obs[j].name == folders[j]
      invariant FreshSince(obs, o.knownHashes, cur.knownHashes, o.config.ignore)
    {
      var path := folders[i];
      var next, messages := HandleObservedPath(cur, source(path), parse);
      if messages.Err? {
        return next, i + 1, Err(messages.error);
      }
      var ob := NewObservation(path, messages.value);
      ExtendObserved(obs, ob, o.knownHashes, cur.knownHashes, next.knownHashes, o.config.ignore);
      obs := obs + [ob];
      cur := next;
      i := i + 1;
    }
    return cur, i, Ok(obs);
  }

  /** `load_observations`: fetch (unless testing), then one observation per
      configured folder, in configured order and named by the folder, each
      after its log command.  The hash list threads through the folders, so
      no hash appears twice in one batch, and none that was known before.
      `commands` lists the external git calls in the order they are made. */
  method LoadObservations(o: GitObserver, source: LogSource, parse: LineParser)
    returns (o': GitObserver, commands: seq<seq<string>>, r: Result<seq<Observation>, ParseError>)
    ensures o'.config == o.config && o'.isTest == o.isTest
    ensures o.knownHashes <= o'.knownHashes
    ensures o.isTest ==> commands == []
    ensures !o.isTest ==> |commands| >= 1 && commands[0] == FetchCmd(o.config.filepath)
    ensures !o.isTest ==> forall k :: 1 <= k < |commands| ==>
              k <= |o.config.logfolders| && commands[k] == LogCmd(o, o.config.logfolders[k - 1])
    ensures r.Ok? && !o.isTest ==> |commands| == |o.config.logfolders| + 1
    ensures r.Ok? ==> |r.value| == |o.config.logfolders|
    ensures r.Ok? ==> forall i :: 0 <= i < |r.value| ==> r.value[i].name == o.config.logfolders[i]
    ensures r.Ok? ==> DistinctHashes(AllCommits(r.value))
    ensures r.Ok? ==> forall c :: c in AllCommits(r.value) ==>
              c.sha1 !in o.knownHashes && c.sha1 in o'.knownHashes && !Ignored(o.config.ignore, c.author)
  {
    var reached;
    o', reached, r := ObserveFolders(o, source, parse);
    commands := LoadCommands(o, reached);
    LoadCommandsShape(o, reached);
  }

  /** `GitObserverThread`: the observer, its `OnLoaded` event and the run flag. */
  datatype ObserverThread<H> = ObserverThread(observer: GitObserver, onLoaded: Event<H>, runThread: bool)

  function NewObserverThread<H>(config: ObserverConfig, isTestInstance: bool := false): (t: ObserverThread<H>)
    ensures t.runThread && t.onLoaded.handlers == []
    ensures t.observer == NewGitObserver(config, isTestInstance)
  {
    ObserverThread(NewGitObserver(config, isTestInstance), NewEvent(), true)
  }

  /** `stop_observation`: clears the run flag and nothing else. */
  function StopObservation<H>(t: ObserverThread<H>): (t': ObserverThread<H>)
    ensures !t'.runThread
    ensures t'.observer == t.observer && t'.onLoaded == t.onLoaded
  {
    t.(runThread := false)
  }

  /** One pass of the loop body on the second counter: whether to aggregate
      now, and the counter for the next pass. */
  function Tick(second: nat): (r: (bool, nat))
    ensures r.0 <==> second % 60 == 0
    ensures r.1 >= 1
  {
    var aggregate := second % 60 == 0;
    (aggregate, (if aggregate then 0 else second) + 1)
  }

  /** The counter at the start of pass `n`, counted from the thread's start. */
  function SecondAt(n: nat): nat {
    if n == 0 then 0 else Tick(SecondAt(n - 1)).1
  }

  /** The counter runs 0, 1, …, 60, 1, …, 60, … */
  lemma {:induction false} SecondAtClosedForm(n: nat)
    ensures SecondAt(n) == if n == 0 then 0 else (n - 1) % 60 + 1
  {
    if n > 0 {
      SecondAtClosedForm(n - 1);
      if n - 1 > 0 {
        CounterStep(n - 1);
      }
    }
  }

  /** The arithmetic of one counter step after pass `m`. */
  lemma CounterStep(m: nat)
    requires m > 0
    ensures var s := (m - 1) % 60 + 1;
            (s % 60 == 0 <==> (m - 1) % 60 == 59)
            && (if s % 60 == 0 then 0 else s) + 1 == m % 60 + 1
  {
    var q, r := (m - 1) / 60, (m - 1) % 60;
    assert m - 1 == 60 * q + r && 0 <= r < 60;
    if r == 59 {
      assert m == 60 * (q + 1);
    } else {
      assert m == 60 * q + (r + 1);
    }
  }

  /** Aggregation happens on the first pass and then on every sixtieth. */
  lemma AggregatesEverySixtyPasses(n: nat)
    ensures Tick(SecondAt(n)).0 <==> n % 60 == 0
  {
    SecondAtClosedForm(n);
    if n > 0 {
      CounterStep(n);
    }
  }

  /** One pass of `__observation_loop` at counter `second`.  A cleared flag
      ends the loop before the pass; otherwise a due pass loads the batch,
      keeps the observer the load leaves behind and publishes the batch
      (empty or not) to every subscriber, while a load error ends the thread.
      `next` is the counter of the following pass, if there is one;
      `commands` are the git calls the load makes. */
  method ObservationLoopStep<H>(t: ObserverThread<H>, second: nat, source: LogSource, parse: LineParser)
    returns (t': ObserverThread<H>, next: Option<nat>, commands: seq<seq<string>>, loaded: Option<seq<Observation>>,
             deliveries: seq<Delivery<H, ObservationEventArgs>>, failure: Option<ParseError>)
    ensures !t.runThread ==> t' == t && next.None? && commands == [] && loaded.None? && deliveries == [] && failure.None?
    ensures t.runThread && second % 60 != 0 ==>
              t' == t && next == Some(second + 1) && commands == [] && loaded.None? && deliveries == [] && failure.None?
    ensures t'.onLoaded == t.onLoaded && t'.runThread == t.runThread
    ensures t'.observer.config == t.observer.config && t'.observer.isTest == t.observer.isTest
    ensures t.observer.knownHashes <= t'.observer.knownHashes
    ensures t.runThread && second % 60 == 0 ==> loaded.Some? != failure.Some?
    ensures t.runThread && second % 60 == 0 && !t.observer.isTest ==>
              |commands| >= 1 && commands[0] == FetchCmd(t.observer.config.filepath)
    ensures loaded.Some? ==> t.runThread && second % 60 == 0 && next == Some(1) && failure.None?
    ensures loaded.Some? ==> |loaded.value| == |t.observer.config.logfolders|
    ensures loaded.Some? ==> forall i :: 0 <= i < |loaded.value| ==> loaded.value[i].name == t.observer.config.logfolders[i]
    ensures loaded.Some? ==> DistinctHashes(AllCommits(loaded.value))
    ensures loaded.Some? ==> forall c :: c in AllCommits(loaded.value) ==>
              c.sha1 !in t.observer.knownHashes && c.sha1 in t'.observer.knownHashes
              && !Ignored(t.observer.config.ignore, c.author)
    ensures loaded.Some? ==> deliveries == PublishObservations(t.onLoaded, loaded.value)
    ensures failure.Some? ==> next.None? && deliveries == []
  {
    if !t.runThread {
      return t, None, [], None, [], None;
    }
    var step := Tick(second);
    if !step.0 {
      return t, Some(step.1), [], None, [], None;
    }
    var o, cmds, result := LoadObservations(t.observer, source, parse);
    t' := t.(observer := o);
    commands := cmds;
    if result.Err? {
      return t', None, commands, None, [], Some(result.error);
    }
    deliveries := PublishObservations(t.onLoaded, result.value);
    return t', Some(step.1), commands, Some(result.value), deliveries, None;
  }
}
