/** devtools/am-c/amc.py: the author check run before a commit is accepted.
    The `author e-mail` pair of the latest commit must appear in a white
    list, read either from a file or from a secret environment variable. */
module AuthorCheck {
  import opened Outcomes
  import opened Text
  import opened Lists

  /** `git log -1 --pretty=format:%an %ae`: author name and e-mail of the
      latest commit. */
  const GitCommand: seq<string> := ["git", "log", "-1", "--pretty=format:%an %ae"]

  /** The white list file used when no `--path` is given. */
  const DefaultWhitelist: string := "whitelist.amc"

  /** A white list line starting with this is a comment. */
  const IgnoreSymbol: char := '#'

  /** What the failure message for a missing white list file starts with;
      the file's path follows, in quotes. */
  const MissingFileQuote: string := "[ERROR]: Can not find \""

  /** What the plain failure message of the comparison starts with; the
      author follows, in quotes. */
  const ErrorQuote: string := "[ERROR]: \""

  /** `sys.exit(code)` after printing `message`. */
  datatype Exit = Exit(code: int, message: string)

  /** Stripped and in lower case: what both sides of the comparison are
      brought to. */
  predicate IsNormal(s: string) {
    IsStripped(s) && Lower(s) == s
  }

  /** Putting a string in lower case twice is putting it in lower case once. */
  lemma {:induction false} LowerIdempotent(s: string)
    ensures Lower(Lower(s)) == Lower(s)
  {
    if |s| > 0 {
      LowerIdempotent(s[1..]);
      assert Lower(s)[1..] == Lower(s[1..]);
    }
  }

  /** `s.strip().lower()`. */
  function Normalize(s: string): (t: string)
    ensures |t| <= |s|
  {
    Lower(Strip(s))
  }

  /** What `Normalize` gives is normal. */
  lemma NormalizeIsNormal(s: string)
    ensures IsNormal(Normalize(s))
  {
    StripIsStripped(s);
    LowerIdempotent(Strip(s));
  }

  /** Normalizing twice changes nothing. */
  lemma NormalizeIdempotent(s: string)
    ensures Normalize(Normalize(s)) == Normalize(s)
  {
    NormalizeIsNormal(s);
    NormalFixed(Normalize(s));
  }

  /** A normal string is its own normal form. */
  lemma NormalFixed(t: string)
    requires IsNormal(t)
    ensures Normalize(t) == t
  {
    StripOfStripped(t);
  }

  /** A white list line written in lower case, with a trailing no-break
      space, names the author git reports in capitals: `JÜRGEN` and
      `jürgen` compare equal once normalized. */
  lemma CapitalUmlautMatches()
    ensures Normalize("JÜRGEN") == Normalize("jürgen\U{00A0}") == "jürgen"
  {
    NamesStripped();
    UmlautLowered();
  }

  lemma NamesStripped()
    ensures Strip("JÜRGEN") == "JÜRGEN"
    ensures Strip("jürgen\U{00A0}") == "jürgen"
  {
    StripOfStripped("JÜRGEN");
    assert "jürgen\U{00A0}"[..6] == "jürgen";
    StripOfStripped("jürgen");
  }

  lemma UmlautLowered()
    ensures Lower("JÜRGEN") == "jürgen" && Lower("jürgen") == "jürgen"
  {
    var up, low := "JÜRGEN", "jürgen";
    assert LowerChar(up[0]) == low[0] && LowerChar(up[1]) == low[1] && LowerChar(up[2]) == low[2];
    assert LowerChar(up[3]) == low[3] && LowerChar(up[4]) == low[4] && LowerChar(up[5]) == low[5];
    assert LowerChar(low[0]) == low[0] && LowerChar(low[1]) == low[1] && LowerChar(low[2]) == low[2];
    assert LowerChar(low[3]) == low[3] && LowerChar(low[4]) == low[4] && LowerChar(low[5]) == low[5];
  }

  /** `GitLog.get_author_email`: the output of the git command, stripped and
      in lower case; `None` stands for the failing command, which ends the
      tool. */
  function GetAuthorEmail(gitResponse: Option<string>): (r: Result<string, Exit>)
    ensures r.Ok? <==> gitResponse.Some?
    ensures r.Ok? ==> IsNormal(r.value) && r.value == Normalize(gitResponse.value)
    ensures r.Err? ==> r.error.code == 1
  {
    match gitResponse
    case None => Err(Exit(1, "[ERROR]: No Git installed or no Git repository available"))
    case Some(response) =>
      NormalizeIsNormal(response);
      Ok(Normalize(response))
  }

  /** The lines `parse_whitelist_file` passes over: empty lines (a bare line
      break), lines indented with a blank, and comments. */
  predicate Skipped(line: string) {
    |line| > 0 && (line[0] == '\n' || line[0] == ' ' || line[0] == IgnoreSymbol)
  }

  /** The lines `parse_whitelist_file` keeps. */
  predicate Kept(line: string) {
    !Skipped(line)
  }

  /** The entries `parse_whitelist_file` collects from the lines of the file,
      as `readlines` returns them: each kept line, normalized, in order. */
  function WhitelistEntries(lines: seq<string>): (entries: seq<string>)
    ensures |entries| <= |lines|
  {
    FilterMap(lines, Kept, Normalize)
  }

  /** The entries of two stretches of a file are the entries of the first
      followed by those of the second: the kept lines keep their order. */
  lemma WhitelistEntriesAppend(a: seq<string>, b: seq<string>)
    ensures WhitelistEntries(a + b) == WhitelistEntries(a) + WhitelistEntries(b)
  {
    FilterMapAppend(a, b, Kept, Normalize);
  }

  /** An author is on the list exactly when some line that is not skipped
      normalizes to it. */
  lemma WhitelistMember(lines: seq<string>, e: string)
    ensures e in WhitelistEntries(lines) <==> exists i :: 0 <= i < |lines| && !Skipped(lines[i]) && Normalize(lines[i]) == e
  {
    FilterMapMember(lines, Kept, Normalize, e);
  }

  /** Every entry is stripped and in lower case. */
  lemma WhitelistNormal(lines: seq<string>, e: string)
    requires e in WhitelistEntries(lines)
    ensures IsNormal(e)
  {
    ResultHasSource(lines, Kept, Normalize, e);
    var i :| 0 <= i < |lines| && Kept(lines[i]) && Normalize(lines[i]) == e;
    NormalizeIsNormal(lines[i]);
  }

  /** `parse_whitelist_file` on the file at `path`; `None` stands for a
      missing file, which ends the tool with a message naming the path. */
  function ParseWhitelistFile(path: string, file: Option<seq<string>>): (r: Result<seq<string>, Exit>)
    ensures r.Ok? <==> file.Some?
    ensures r.Ok? ==> r.value == WhitelistEntries(file.value)
    ensures r.Err? ==> r.error.code == 1 && MissingFileQuote + path <= r.error.message
  {
    match file
    case None => Err(Exit(1, MissingFileQuote + path + "\""))
    case Some(lines) => Ok(WhitelistEntries(lines))
  }

  /** `FetchSecretEnvVariable.get_env`: a missing or empty variable ends the
      tool; otherwise its stripped value, one entry per line.  Unlike the
      file, the entries are neither stripped one by one nor put in lower
      case. */
  function GetEnv(env: Option<string>): (r: Result<seq<string>, Exit>)
    ensures r.Ok? <==> env.Some? && env.value != ""
    ensures r.Ok? ==> Join("\n", r.value) == Strip(env.value)
    ensures r.Ok? ==> forall i :: 0 <= i < |r.value| ==> '\n' !in r.value[i]
    ensures r.Err? ==> r.error.code == 1
  {
    if env.None? || env.value == "" then Err(Exit(1, "Secret environment variable not found"))
    else
      SplitThenJoin(Strip(env.value), '\n');
      Ok(Split(Strip(env.value), '\n'))
  }

  /** `FilePaths`: the given path, when there is a non-empty one, and the
      default file otherwise. */
  function WhitelistPath(path: Option<string>): (p: string)
    ensures path.Some? && path.value != "" ==> p == path.value
    ensures path.None? || path.value == "" ==> p == DefaultWhitelist
  {
    if path.Some? && path.value != "" then path.value else DefaultWhitelist
  }

  /** `FetchWhitelist.fetch`: the white list from the environment in secret
      mode, from the file at `path` otherwise. */
  function Fetch(path: string, secretEnv: bool, env: Option<string>, files: map<string, seq<string>>)
    : (r: Result<seq<string>, Exit>)
    ensures secretEnv ==> r == GetEnv(env)
    ensures !secretEnv ==> (r.Ok? <==> path in files)
    ensures !secretEnv && r.Ok? ==> r.value == WhitelistEntries(files[path])
  {
    if secretEnv then GetEnv(env)
    else ParseWhitelistFile(path, if path in files then Some(files[path]) else None)
  }

  /** `Main.cmp`: success exactly when the author is on the list; otherwise
      exit code 1, and a message that names the author only outside secret
      mode. */
  function Cmp(fromGit: string, whitelist: seq<string>, secretMode: bool): (r: Result<(), Exit>)
    ensures r.Ok? <==> fromGit in whitelist
    ensures r.Err? ==> r.error.code == 1
    ensures r.Err? && !secretMode ==> ErrorQuote + fromGit <= r.error.message
  {
    if fromGit in whitelist then Ok(())
    else if secretMode then Err(Exit(1, "[ERROR]: Author(s) and E-Mail addresses not found in whitelist"))
    else Err(Exit(1, ErrorQuote + fromGit + "\" not found in whitelist"))
  }

  /** In secret mode a failed comparison says nothing about who failed it. */
  lemma SecretModeHidesAuthor(a: string, b: string, whitelist: seq<string>)
    requires a !in whitelist && b !in whitelist
    ensures Cmp(a, whitelist, true) == Cmp(b, whitelist, true)
    ensures Cmp(a, whitelist, true).Err?
  {
  }

  /** `Main(FilePaths(path).whitelist_file, secret).run_check()`: the white
      list first, then the author, then the comparison; the success message
      on a match. */
  function RunCheck(customPath: Option<string>, secret: bool, env: Option<string>,
                    files: map<string, seq<string>>, gitResponse: Option<string>): (r: Result<string, Exit>)
    ensures r.Err? ==> r.error.code == 1
    ensures Fetch(WhitelistPath(customPath), secret, env, files).Err? ==>
              r == Err(Fetch(WhitelistPath(customPath), secret, env, files).error)
  {
    match Fetch(WhitelistPath(customPath), secret, env, files)
    case Err(e) => Err(e)
    case Ok(whitelist) =>
      match GetAuthorEmail(gitResponse)
      case Err(e) => Err(e)
      case Ok(author) =>
        match Cmp(author, whitelist, secret)
        case Err(e) => Err(e)
        case Ok(_) => Ok("[OK]: Authors & E-Mail addresses are matching with whitelist")
  }

  /** With a white list file, the check passes exactly when the file exists,
      git answers, and some line of the file that is not skipped names the
      same author once both are stripped and put in lower case. */
  lemma FileCheckPasses(customPath: Option<string>, env: Option<string>,
                        files: map<string, seq<string>>, gitResponse: Option<string>)
    ensures RunCheck(customPath, false, env, files, gitResponse).Ok? <==>
              && WhitelistPath(customPath) in files
              && gitResponse.Some?
              && exists i :: 0 <= i < |files[WhitelistPath(customPath)]|
                   && !Skipped(files[WhitelistPath(customPath)][i])
                   && Normalize(files[WhitelistPath(customPath)][i]) == Normalize(gitResponse.value)
  {
    var path := WhitelistPath(customPath);
    if path in files && gitResponse.Some? {
      WhitelistMember(files[path], Normalize(gitResponse.value));
    }
  }

  /** In secret mode the check passes exactly when the variable is set,
      git answers, and one of the variable's lines is the normalized
      author. */
  lemma SecretCheckPasses(customPath: Option<string>, env: Option<string>,
                          files: map<string, seq<string>>, gitResponse: Option<string>)
    ensures RunCheck(customPath, true, env, files, gitResponse).Ok? <==>
              && env.Some? && env.value != ""
              && gitResponse.Some?
              && Normalize(gitResponse.value) in Split(Strip(env.value), '\n')
  {
  }
}
