/** What both observer copies share about the external git client: the
    repository-scoping prefix of every command, the fetch command, and the
    `%cn|%cI|%s|%h|%D` record a log line carries. */
module GitLog {
  import opened Outcomes
  import opened Text
  import opened Transport

  /** The part of the argparse configuration an observer reads. */
  datatype ObserverConfig = ObserverConfig(origin: string, filepath: string, logfolders: seq<string>,
                                           ignore: Option<seq<string>>, descending: bool)

  /** `git --git-dir=<root>/.git/ --work-tree=<root>`: every command is scoped to the root. */
  function RepoPrefix(filepath: string): (p: seq<string>)
    ensures |p| == 3 && p[0] == "git"
  {
    ["git", "--git-dir=" + filepath + "/.git/", "--work-tree=" + filepath]
  }

  /** `self.git_fetch`, the same in observer.py and GitObserver.py. */
  function FetchCmd(filepath: string): (cmd: seq<string>)
    ensures |cmd| == 5 && cmd[..3] == RepoPrefix(filepath)
    ensures cmd[3..] == ["fetch", "--all"]
  {
    RepoPrefix(filepath) + ["fetch", "--all"]
  }

  /** Python's exceptions on a bad line: a missing field is an `IndexError`,
      an unparseable date a `ValueError`. */
  datatype ParseError = IndexError | ValueError

  /** The five pipe-separated fields of one log record. */
  datatype Fields = Fields(author: string, date: Instant, message: string, hash: string, refs: string)

  /** Field access in the order the parser performs it: field 0, the date in
      field 1, then fields 2, 3 and 4.  Fewer than two fields fail before the
      date is read; a bad date fails before fields 2 to 4 are read. */
  function ParseFields(line: string, iso: IsoParser): (r: Result<Fields, ParseError>)
    ensures r.Ok? <==> |Split(line, '|')| >= 5 && iso(Split(line, '|')[1]).Some?
    ensures r == Err(ValueError) <==> |Split(line, '|')| >= 2 && iso(Split(line, '|')[1]).None?
    ensures r.Ok? ==> r.value.author == Split(line, '|')[0] && r.value.hash == Split(line, '|')[3]
  {
    var f := Split(line, '|');
    if |f| < 2 then Err(IndexError)
    else match iso(f[1])
      case None => Err(ValueError)
      case Some(d) => if |f| < 5 then Err(IndexError) else Ok(Fields(f[0], d, f[2], f[3], f[4]))
  }

  /** The line `git log --pretty=format:%cn|%cI|%s|%h|%D` writes for one commit. */
  function FormatRecord(author: string, dateText: string, message: string, hash: string, refs: string): string {
    Join("|", [author, dateText, message, hash, refs])
  }

  predicate PipeFree(s: string) {
    '|' !in s
  }

  /** A record whose fields hold no `|` parses back to those fields. */
  lemma FormatThenParse(author: string, dateText: string, message: string, hash: string, refs: string,
                        date: Instant, iso: IsoParser)
    requires PipeFree(author) && PipeFree(dateText) && PipeFree(message) && PipeFree(hash) && PipeFree(refs)
    requires iso(dateText) == Some(date)
    ensures ParseFields(FormatRecord(author, dateText, message, hash, refs), iso)
            == Ok(Fields(author, date, message, hash, refs))
  {
    JoinThenSplit([author, dateText, message, hash, refs], '|');
  }

  /** A summary holding a `|` shifts every later field: the summary is cut,
      the hash field receives the rest of the summary and the refs field the
      real hash. */
  lemma PipeInSummaryShiftsFields(author: string, dateText: string, left: string, right: string,
                                  hash: string, refs: string, date: Instant, iso: IsoParser)
    requires PipeFree(author) && PipeFree(dateText) && PipeFree(left) && PipeFree(right)
    requires PipeFree(hash) && PipeFree(refs)
    requires iso(dateText) == Some(date)
    ensures ParseFields(FormatRecord(author, dateText, left + "|" + right, hash, refs), iso)
            == Ok(Fields(author, date, left, right, hash))
  {
    var parts := [author, dateText, left, right, hash, refs];
    var tail := Join("|", [hash, refs]);
    assert [left + "|" + right, hash, refs][1..] == [hash, refs];
    assert [left, right, hash, refs][1..] == [right, hash, refs];
    assert [right, hash, refs][1..] == [hash, refs];
    assert Join("|", [left + "|" + right, hash, refs]) == Join("|", [left, right, hash, refs]);
    assert [dateText, left + "|" + right, hash, refs][1..] == [left + "|" + right, hash, refs];
    assert [dateText, left, right, hash, refs][1..] == [left, right, hash, refs];
    assert Join("|", [dateText, left + "|" + right, hash, refs]) == Join("|", [dateText, left, right, hash, refs]);
    assert [author, dateText, left + "|" + right, hash, refs][1..] == [dateText, left + "|" + right, hash, refs];
    assert parts[1..] == [dateText, left, right, hash, refs];
    assert FormatRecord(author, dateText, left + "|" + right, hash, refs) == Join("|", parts);
    JoinThenSplit(parts, '|');
  }

  /** An empty line has a single (empty) field. */
  lemma BlankLineIsIndexError(iso: IsoParser)
    ensures ParseFields("", iso) == Err(IndexError)
  {
  }

  /** The malformed line of the repository's transport test fails on its date. */
  lemma MalformedLineIsValueError(iso: IsoParser)
    requires iso("FORMAT#PROVIDED~HERE").None?
    ensures ParseFields("WRONG|FORMAT#PROVIDED~HERE", iso) == Err(ValueError)
  {
    var parts := ["WRONG", "FORMAT#PROVIDED~HERE"];
    assert Join("|", parts) == "WRONG|FORMAT#PROVIDED~HERE";
    JoinThenSplit(parts, '|');
  }
}
