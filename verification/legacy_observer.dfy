/** GitObserver.py: the older observer copy.  It reads the whole log output
    as one string, parses every line inline and filters against a hash list
    that belongs to the class, not to the instance, so every observer shares
    it.  That shared list is passed in and handed back explicitly here. */
module LegacyObserver {
  import opened Outcomes
  import opened Text
  import opened Transport
  import opened GitLog
  import opened Dedup
  import Observer

  /** An instance: only its configuration; the hash list is shared. */
  datatype LegacyObserver = LegacyObserver(config: ObserverConfig)

  /** This copy maps `descending` the other way round. */
  function LegacySortFlag(descending: bool): (flag: string)
    ensures flag == "--reverse" <==> descending
    ensures flag == "--date-order" <==> !descending
  {
    if descending then "--reverse" else "--date-order"
  }

  /** The two copies order the log oppositely for the same configuration. */
  lemma SortFlagsOpposite(descending: bool)
    ensures LegacySortFlag(descending) != Observer.SortFlag(descending)
    ensures LegacySortFlag(descending) == Observer.SortFlag(!descending)
  {
  }

  /** `get_git_log_cmd`: the since-clause and the format are not quoted. */
  function LegacyLogCmd(o: LegacyObserver, path: string): (cmd: seq<string>)
    ensures |cmd| == 9 && cmd[..3] == RepoPrefix(o.config.filepath)
    ensures cmd[3..7] == ["log", "--since=1 week ago", "--pretty=format:%cn|%cI|%s|%h|%D", "--all"]
    ensures cmd[7] == LegacySortFlag(o.config.descending)
    ensures cmd[8] == o.config.filepath + "/" + path
  {
    RepoPrefix(o.config.filepath)
    + ["log", "--since=1 week ago", "--pretty=format:%cn|%cI|%s|%h|%D", "--all",
       LegacySortFlag(o.config.descending), o.config.filepath + "/" + path]
  }

  /** `get_git_show_cmd`: the medium header format. */
  function LegacyShowCmd(o: LegacyObserver, sha1: string): (cmd: seq<string>)
    ensures |cmd| == 7 && cmd[..3] == RepoPrefix(o.config.filepath)
    ensures cmd[3..6] == ["show", "--pretty=medium", "-s"]
    ensures cmd[|cmd| - 1] == sha1
  {
    RepoPrefix(o.config.filepath) + ["show", "--pretty=medium", "-s", sha1]
  }

  /** Both copies target the same repository and differ in the ordering
      flag, the quoting of two arguments and the show format only. */
  lemma CommandsDiffer(config: ObserverConfig, path: string, sha1: string)
    ensures var now := Observer.LogCmd(Observer.NewGitObserver(config), path);
            var prev := LegacyLogCmd(LegacyObserver(config), path);
            now[..4] == prev[..4] && now[6] == prev[6] && now[8] == prev[8]
            && now[4] != prev[4] && now[5] != prev[5] && now[7] != prev[7]
    ensures var now := Observer.ShowCmd(Observer.NewGitObserver(config), sha1);
            var prev := LegacyShowCmd(LegacyObserver(config), sha1);
            now[..3] == prev[..3] && now[4] != prev[4] && now[6] == prev[6]
  {
    SortFlagsOpposite(config.descending);
  }

  /** The branch text of this copy: the ref names followed by a line break,
      or nothing when there are none. */
  function BranchText(refs: string): (b: string)
    ensures refs == "" <==> b == ""
    ensures refs != "" ==> b[..|b| - 1] == refs && b[|b| - 1] == '\n'
  {
    if refs != "" then refs + "\n" else ""
  }

  /** The body of the line loop up to the dedup: the fields are read in
      order and any failure is raised. */
  function ParseLegacyLine(line: string, iso: IsoParser): (r: Result<Commit, ParseError>)
    ensures r.Ok? <==> ParseFields(line, iso).Ok?
    ensures r.Err? ==> r.error == ParseFields(line, iso).error
    ensures r.Ok? ==> r.value.sha1 == Some(Split(line, '|')[3]) && r.value.branch == Some(BranchText(Split(line, '|')[4]))
  {
    match ParseFields(line, iso)
    case Err(e) => Err(e)
    case Ok(f) => Ok(Commit(f.author, f.date, f.message, Some(f.hash), Some(BranchText(f.refs))))
  }

  /** The line parser of this copy, as a value. */
  function LineParser(iso: IsoParser): string -> Result<Commit, ParseError> {
    line => ParseLegacyLine(line, iso)
  }

  /** The results of `parse` on the lines before the first failure, and
      that failure. */
  function ParseUntilFailure<T, E>(lines: seq<string>, parse: string -> Result<T, E>): (r: (seq<T>, Option<E>))
    ensures |r.0| <= |lines|
    ensures r.1.None? ==> |r.0| == |lines|
    ensures r.1.Some? ==> |r.0| < |lines|
  {
    if |lines| == 0 then ([], None)
    else match parse(lines[0])
      case Err(e) => ([], Some(e))
      case Ok(c) =>
        var rest := ParseUntilFailure(lines[1..], parse);
        ([c] + rest.0, rest.1)
  }

  /** The lines parsed before the first failure, and that failure. */
  function ParseLines(lines: seq<string>, iso: IsoParser): (r: (seq<Commit>, Option<ParseError>))
    ensures |r.0| <= |lines|
    ensures r.1.None? ==> |r.0| == |lines|
    ensures r.1.Some? ==> |r.0| < |lines|
  {
    ParseUntilFailure(lines, LineParser(iso))
  }

  /** Every result before the failure is the parse of its line. */
  lemma {:induction false} ParsedAt<T, E>(lines: seq<string>, parse: string -> Result<T, E>, i: nat)
    requires i < |ParseUntilFailure(lines, parse).0|
    ensures parse(lines[i]) == Ok(ParseUntilFailure(lines, parse).0[i])
  {
    match parse(lines[0])
    case Err(_) =>
    case Ok(c) =>
      var rest := ParseUntilFailure(lines[1..], parse).0;
      assert ParseUntilFailure(lines, parse).0 == [c] + rest;
      if i > 0 {
        ParsedAt(lines[1..], parse, i - 1);
        assert lines[1..][i - 1] == lines[i];
      }
  }

  /** The failure reported is that of the first line not parsed. */
  lemma {:induction false} FailedAt<T, E>(lines: seq<string>, parse: string -> Result<T, E>)
    requires ParseUntilFailure(lines, parse).1.Some?
    ensures parse(lines[|ParseUntilFailure(lines, parse).0|]) == Err(ParseUntilFailure(lines, parse).1.value)
  {
    if parse(lines[0]).Ok? {
      FailedAt(lines[1..], parse);
    }
  }

  /** Parsing a stretch that parses completely, then more lines, is
      parsing all of them. */
  lemma {:induction false} ParseAppend<T, E>(a: seq<string>, b: seq<string>, parse: string -> Result<T, E>)
    requires ParseUntilFailure(a, parse).1.None?
    ensures ParseUntilFailure(a + b, parse).0 == ParseUntilFailure(a, parse).0 + ParseUntilFailure(b, parse).0
    ensures ParseUntilFailure(a + b, parse).1 == ParseUntilFailure(b, parse).1
  {
    if |a| == 0 {
      assert a + b == b;
    } else {
      var c := parse(a[0]).value;
      assert (a + b)[0] == a[0] && (a + b)[1..] == a[1..] + b;
      ParseAppend(a[1..], b, parse);
      var front := ParseUntilFailure(a[1..], parse).0;
      var back := ParseUntilFailure(b, parse).0;
      assert [c] + (front + back) == ([c] + front) + back;
    }
  }

  /** A line that parses extends the parsed prefix. */
  lemma ParsedStep<T, E>(lines: seq<string>, i: nat, parse: string -> Result<T, E>, parsed: seq<T>, c: T)
    requires i < |lines|
    requires ParseUntilFailure(lines[..i], parse) == (parsed, None)
    requires parse(lines[i]) == Ok(c)
    ensures ParseUntilFailure(lines[..i + 1], parse) == (parsed + [c], None)
  {
    assert lines[..i + 1] == lines[..i] + [lines[i]];
    assert ParseUntilFailure([lines[i]], parse) == ([c], None) by {
      var one := [lines[i]];
      assert one[0] == lines[i] && one[1..] == [];
      assert ParseUntilFailure(one[1..], parse) == ([], None);
      assert [c] + [] == [c];
    }
    ParseAppend(lines[..i], [lines[i]], parse);
  }

  /** A line that fails ends the parse with what was parsed before it. */
  lemma FailedStep<T, E>(lines: seq<string>, i: nat, parse: string -> Result<T, E>, parsed: seq<T>, e: E)
    requires i < |lines|
    requires ParseUntilFailure(lines[..i], parse) == (parsed, None)
    requires parse(lines[i]) == Err(e)
    ensures ParseUntilFailure(lines, parse) == (parsed, Some(e))
  {
    var rest := lines[i..];
    assert ParseUntilFailure(rest, parse) == ([], Some(e)) by {
      assert rest[0] == lines[i];
    }
    assert lines[..i] + rest == lines;
    ParseAppend(lines[..i], rest, parse);
    assert parsed + [] == parsed;
  }

  /** Every commit parsed is the parse of its line. */
  lemma ParsedLine(lines: seq<string>, iso: IsoParser, i: nat)
    requires i < |ParseLines(lines, iso).0|
    ensures ParseLegacyLine(lines[i], iso) == Ok(ParseLines(lines, iso).0[i])
  {
    ParsedAt(lines, LineParser(iso), i);
  }

  /** The failure reported is that of the first line not parsed. */
  lemma FailedLine(lines: seq<string>, iso: IsoParser)
    requires ParseLines(lines, iso).1.Some?
    ensures ParseLegacyLine(lines[|ParseLines(lines, iso).0|], iso) == Err(ParseLines(lines, iso).1.value)
  {
    FailedAt(lines, LineParser(iso));
  }

  /** The body of the line loop once the line is parsed: a known hash is
      skipped; a new one is recorded, and its commit kept unless its author
      is ignored. */
  method SweepLine(known: seq<Hash>, kept: seq<Commit>, ignore: Option<seq<string>>, c: Commit)
    returns (known': seq<Hash>, kept': seq<Commit>)
    ensures c.sha1 in known ==> known' == known && kept' == kept
    ensures c.sha1 !in known ==> known' == known + [c.sha1]
    ensures c.sha1 !in known ==> kept' == kept + (if Ignored(ignore, c.author) then [] else [c])
  {
    if c.sha1 in known {
      return known, kept;
    }
    known' := known + [c.sha1];
    var ignored := IgnoreAuthor(ignore, c.author);
    if ignored {
      return known', kept;
    }
    kept' := kept + [c];
  }

  /** `collect_commit_messages`: the response is split into lines; each
      line is parsed, then deduplicated against the shared list, then
      filtered by author.  A failing line raises out of the loop, but the
      hashes recorded by the lines before it stay in the shared list. */
  method CollectCommitMessages(shared: seq<Hash>, ignore: Option<seq<string>>, response: string, iso: IsoParser)
    returns (shared': seq<Hash>, r: Result<seq<Commit>, ParseError>)
    ensures var parsed := ParseLines(Split(response, '\n'), iso);
            var pass := Sweep(shared, ignore, parsed.0);
            && shared' == pass.0
            && (parsed.1.Some? <==> r.Err?)
            && (r.Err? ==> r.error == parsed.1.value)
            && (r.Ok? ==> r.value == Reverse(pass.1))
  {
    var lines := Split(response, '\n');
    var parse := LineParser(iso);
    var parsed: seq<Commit> := [];
    var known := shared;
    var kept: seq<Commit> := [];
    var i := 0;
    assert lines[..0] == [];
    while i < |lines|
      invariant 0 <= i <= |lines|
      invariant ParseUntilFailure(lines[..i], parse) == (parsed, None)
      invariant (known, kept) == Sweep(shared, ignore, parsed)
    {
      var line := parse(lines[i]);
      if line.Err? {
        FailedStep(lines, i, parse, parsed, line.error);
        return known, Err(line.error);
      }
      var c := line.value;
      ParsedStep(lines, i, parse, parsed, c);
      SweepSnoc(shared, ignore, parsed, c);
      known, kept := SweepLine(known, kept, ignore, c);
      parsed := parsed + [c];
      i := i + 1;
    }
    assert lines[..i] == lines;
    return known, Ok(Reverse(kept));
  }

  /** What one collection guarantees, stated through the shared sweep: the
      shared list grows by the hashes of the lines parsed before any
      failure, and a successful result holds only new, relevant,
      hash-distinct commits. */
  lemma CollectGuarantees(shared: seq<Hash>, ignore: Option<seq<string>>, response: string, iso: IsoParser)
    ensures var parsed := ParseLines(Split(response, '\n'), iso).0;
            var pass := Sweep(shared, ignore, parsed);
            && shared <= pass.0
            && (forall h :: h in pass.0 <==> h in shared || h in Hashes(parsed))
            && DistinctHashes(Reverse(pass.1))
            && (forall c :: c in Reverse(pass.1) ==> c.sha1 !in shared && c.sha1 in pass.0 && !Ignored(ignore, c.author))
  {
    var parsed := ParseLines(Split(response, '\n'), iso).0;
    SweepGuarantees(shared, ignore, parsed);
    ReverseSameElements(Sweep(shared, ignore, parsed).1);
    ReverseKeepsDistinct(Sweep(shared, ignore, parsed).1);
  }

  /** Some line of the response fails to parse. */
  predicate CollectFails(response: string, iso: IsoParser) {
    ParseLines(Split(response, '\n'), iso).1.Some?
  }

  /** `handle_log_response`: the collected commits, returned as they are
      (the printing of each one is not modelled). */
  method HandleLogResponse(shared: seq<Hash>, ignore: Option<seq<string>>, response: string, iso: IsoParser)
    returns (shared': seq<Hash>, r: Result<seq<Commit>, ParseError>)
    ensures shared <= shared'
    ensures forall h :: h in shared ==> h in shared'
    ensures r.Err? <==> CollectFails(response, iso)
    ensures r.Ok? ==> DistinctHashes(r.value)
    ensures r.Ok? ==> forall c :: c in r.value ==> c.sha1 !in shared && c.sha1 in shared' && !Ignored(ignore, c.author)
  {
    var messages;
    shared', messages := CollectCommitMessages(shared, ignore, response, iso);
    CollectGuarantees(shared, ignore, response, iso);
    if messages.Ok? && |messages.value| == 0 {
      return shared', Ok([]);
    }
    return shared', messages;
  }

  /** A response ending in a line break has an empty last line, and an
      empty line has too few fields: such a collection always fails.  So
      does an empty response, which is what git prints for a folder without
      recent commits. */
  lemma TrailingLineBreakFails(body: string, iso: IsoParser)
    ensures ParseLines(Split(body + "\n", '\n'), iso).1.Some?
    ensures ParseLines(Split("", '\n'), iso) == ([], Some(IndexError))
  {
    SplitTrailingSeparator(body, '\n');
    var lines := Split(body + "\n", '\n');
    assert lines[|lines| - 1] == "";
    BlankLineIsIndexError(iso);
    if ParseLines(lines, iso).1.None? {
      ParsedLine(lines, iso, |lines| - 1);
    }
  }

  /** Once one instance has collected a response, collecting the same
      lines again, through any instance, yields no commit. */
  lemma SharedListSuppressesRepeats(shared: seq<Hash>, ignore1: Option<seq<string>>, ignore2: Option<seq<string>>,
                                    response: string, iso: IsoParser)
    ensures var parsed := ParseLines(Split(response, '\n'), iso).0;
            var first := Sweep(shared, ignore1, parsed);
            Sweep(first.0, ignore2, parsed) == (first.0, [])
  {
    var parsed := ParseLines(Split(response, '\n'), iso).0;
    var first := Sweep(shared, ignore1, parsed);
    SweepGuarantees(shared, ignore1, parsed);
    forall i | 0 <= i < |parsed| ensures parsed[i].sha1 in first.0 {
      assert Hashes(parsed)[i] == parsed[i].sha1;
    }
    SweepAllKnown(first.0, ignore2, parsed);
  }

  /** The body of the folder loop of `run`: collect one folder's log and,
      when it parses, add its observation after the others. */
  method ObserveFolder(obs: seq<Observation>, shared: seq<Hash>, known: seq<Hash>, path: string,
                       ignore: Option<seq<string>>, response: string, iso: IsoParser)
    returns (next: seq<Hash>, r: Result<seq<Observation>, ParseError>)
    requires shared <= known
    requires FreshSince(obs, shared, known, ignore)
    ensures known <= next
    ensures r.Err? <==> CollectFails(response, iso)
    ensures r.Ok? ==> |r.value| == |obs| + 1 && r.value[|obs|].name == path
    ensures r.Ok? ==> forall j :: 0 <= j < |obs| ==> r.value[j] == obs[j]
    ensures r.Ok? ==> FreshSince(r.value, shared, next, ignore)
  {
    var messages;
    next, messages := HandleLogResponse(known, ignore, response, iso);
    if messages.Err? {
      return next, Err(messages.error);
    }
    var ob := NewObservation(path, messages.value);
    ExtendObserved(obs, ob, shared, known, next, ignore);
    r := Ok(obs + [ob]);
  }

  /** The log commands of `run` for the given folders, in order. */
  function LogCmds(o: LegacyObserver, folders: seq<string>): (cmds: seq<seq<string>>)
    ensures |cmds| == |folders|
  {
    if |folders| == 0 then [] else LogCmds(o, folders[..|folders| - 1]) + [LegacyLogCmd(o, folders[|folders| - 1])]
  }

  /** The `k`-th log command is that of the `k`-th folder. */
  lemma {:induction false} LogCmdsAt(o: LegacyObserver, folders: seq<string>, k: nat)
    requires k < |folders|
    ensures LogCmds(o, folders)[k] == LegacyLogCmd(o, folders[k])
  {
    if k < |folders| - 1 {
      LogCmdsAt(o, folders[..|folders| - 1], k);
    }
  }

  /** The commands `run` issues once its loop has reached folder `n`: the
      fetch, then (outside test mode) the log command of every folder
      before `n`. */
  function RunCommands(o: LegacyObserver, test: bool, n: nat): (cmds: seq<seq<string>>)
    requires n <= |o.config.logfolders|
    ensures |cmds| >= 1 && cmds[0] == FetchCmd(o.config.filepath)
    ensures |cmds| == (if test then 1 else n + 1)
  {
    [FetchCmd(o.config.filepath)] + (if test then [] else LogCmds(o, o.config.logfolders[..n]))
  }

  /** What those commands are, one by one. */
  lemma RunCommandsShape(o: LegacyObserver, test: bool, n: nat)
    requires n <= |o.config.logfolders|
    ensures var commands := RunCommands(o, test, n);
            && |commands| >= 1 && commands[0] == FetchCmd(o.config.filepath)
            && (test ==> commands == [FetchCmd(o.config.filepath)])
            && (!test ==> |commands| == n + 1)
            && (!test ==> forall k :: 1 <= k < |commands| ==>
                  k <= |o.config.logfolders| && commands[k] == LegacyLogCmd(o, o.config.logfolders[k - 1]))
  {
    var commands := RunCommands(o, test, n);
    if !test {
      forall k | 1 <= k < |commands|
        ensures commands[k] == LegacyLogCmd(o, o.config.logfolders[k - 1])
      {
        LogCmdsAt(o, o.config.logfolders[..n], k - 1);
      }
    }
  }

  /** The folder loop of `run`: one observation per configured folder, in
      configured order, until a log fails to parse.  `reached` counts the
      folders whose log was asked for, the failing one included. */
  method ObserveFolders(o: LegacyObserver, shared: seq<Hash>, responses: string -> string, iso: IsoParser)
    returns (shared': seq<Hash>, reached: nat, r: Result<seq<Observation>, ParseError>)
    ensures shared <= shared'
    ensures reached <= |o.config.logfolders|
    ensures r.Ok? ==> reached == |o.config.logfolders| && |r.value| == reached
    ensures r.Err? ==> reached >= 1
    ensures r.Ok? ==> forall i :: 0 <= i < |r.value| ==> r.value[i].name == o.config.logfolders[i]
    ensures r.Ok? ==> FreshSince(r.value, shared, shared', o.config.ignore)
  {
    var folders := o.config.logfolders;
    var known := shared;
    var obs: seq<Observation> := [];
    var i := 0;
    while i < |folders|
      invariant 0 <= i <= |folders|
      invariant shared <= known
      invariant |obs| == i && forall j :: 0 <= j < i ==> obs[j].name == folders[j]
      invariant FreshSince(obs, shared, known, o.config.ignore)
    {
      var path := folders[i];
      var next, res := ObserveFolder(obs, shared, known, path, o.config.ignore, responses(path), iso);
      if res.Err? {
        return next, i + 1, Err(res.error);
      }
      obs := res.value;
      known := next;
      i := i + 1;
    }
    return known, i, Ok(obs);
  }

  /** `run`: fetch (always, in test mode too), then one observation per
      configured folder, in configured order, each after its log command.
      `responses` gives the log output of a folder; the shared list threads
      through all folders. */
  method Run(o: LegacyObserver, shared: seq<Hash>, test: bool, responses: string -> string, iso: IsoParser)
    returns (shared': seq<Hash>, commands: seq<seq<string>>, r: Result<seq<Observation>, ParseError>)
    ensures shared <= shared'
    ensures |commands| >= 1 && commands[0] == FetchCmd(o.config.filepath)
    ensures test ==> commands == [FetchCmd(o.config.filepath)]
    ensures !test ==> forall k :: 1 <= k < |commands| ==>
              k <= |o.config.logfolders| && commands[k] == LegacyLogCmd(o, o.config.logfolders[k - 1])
    ensures r.Ok? && !test ==> |commands| == |o.config.logfolders| + 1
    ensures r.Ok? ==> |r.value| == |o.config.logfolders|
    ensures r.Ok? ==> forall i :: 0 <= i < |r.value| ==> r.value[i].name == o.config.logfolders[i]
    ensures r.Ok? ==> DistinctHashes(AllCommits(r.value))
    ensures r.Ok? ==> forall c :: c in AllCommits(r.value) ==>
              c.sha1 !in shared && c.sha1 in shared' && !Ignored(o.config.ignore, c.author)
  {
    var reached;
    shared', reached, r := ObserveFolders(o, shared, responses, iso);
    commands := RunCommands(o, test, reached);
    RunCommandsShape(o, test, reached);
  }
}
