/** run_tests.py: `RunTests`, which finds the folders named like `tests`
    below the top-level folders that are neither ignored by hand nor listed
    in `.gitignore`, and runs `unittest discover` in each. */
module TestDiscovery {
  import opened Outcomes
  import opened Text
  import opened Lists

  /** `search_pattern`: what the name of a test folder ends with. */
  const SearchPattern: string := "tests"

  /** The folders ignored before `.gitignore` is read. */
  const InitialIgnored: seq<string> := [".git", ".github"]

  /** `.gitignore` was not there to open. */
  datatype DiscoveryError = FileNotFoundError

  /** What `main` ends with: the folders it found (debug mode), or the
      commands it ran, one per folder. */
  datatype Outcome = Listed(folders: seq<string>) | Ran(commands: seq<seq<string>>)

  /** A `.gitignore` line naming a folder at the root. */
  predicate RootEntry(line: string) {
    StartsWith(line, "/")
  }

  /** `line.strip().strip('/')`. */
  function IgnoredName(line: string): (name: string)
    ensures |name| == 0 || (name[0] != '/' && name[|name| - 1] != '/')
  {
    StripChar(Strip(line), '/')
  }

  /** `load_git_ignore_folders`: the ignored folders, followed by the name of
      every root entry of `.gitignore` in file order. */
  function LoadGitIgnoreFolders(ignored: seq<string>, lines: seq<string>): (r: seq<string>)
    ensures ignored <= r
    ensures |r| <= |ignored| + |lines|
  {
    ignored + FilterMap(lines, RootEntry, IgnoredName)
  }

  /** A folder is ignored after loading exactly when it was before or some
      root entry of `.gitignore` names it; other lines add nothing. */
  lemma IgnoredAfterLoad(ignored: seq<string>, lines: seq<string>, name: string)
    ensures name in LoadGitIgnoreFolders(ignored, lines) <==>
              name in ignored || exists i :: 0 <= i < |lines| && RootEntry(lines[i]) && IgnoredName(lines[i]) == name
  {
    FilterMapMember(lines, RootEntry, IgnoredName, name);
  }

  /** One more line of `.gitignore` adds its folder name at the end when it
      is a root entry, and nothing otherwise. */
  lemma LoadOneMoreLine(ignored: seq<string>, lines: seq<string>, line: string)
    ensures LoadGitIgnoreFolders(ignored, lines + [line])
            == LoadGitIgnoreFolders(ignored, lines) + (if RootEntry(line) then [IgnoredName(line)] else [])
  {
    FilterMapAppend(lines, [line], RootEntry, IgnoredName);
    assert FilterMap([line], RootEntry, IgnoredName) == (if RootEntry(line) then [IgnoredName(line)] else []);
  }

  /** Not among the ignored folders. */
  function NotIgnored(ignored: seq<string>): string -> bool {
    x => x !in ignored
  }

  /** A folder name taken as it is. */
  function Same(x: string): string {
    x
  }

  /** `get_allowed_folders`: the root folders that are not ignored, in their
      original order. */
  function GetAllowedFolders(rootContent: seq<string>, ignored: seq<string>): (allowed: seq<string>)
    ensures |allowed| <= |rootContent|
  {
    FilterMap(rootContent, NotIgnored(ignored), Same)
  }

  /** A folder is allowed exactly when it is at the root and not ignored. */
  lemma AllowedMember(rootContent: seq<string>, ignored: seq<string>, x: string)
    ensures x in GetAllowedFolders(rootContent, ignored) <==> x in rootContent && x !in ignored
  {
    FilterMapMember(rootContent, NotIgnored(ignored), Same, x);
    if x in rootContent && x !in ignored {
      var i :| 0 <= i < |rootContent| && rootContent[i] == x;
    }
  }

  /** Without ignored folders among them, every root folder is allowed, in
      order. */
  lemma NothingIgnored(rootContent: seq<string>, ignored: seq<string>)
    requires forall i :: 0 <= i < |rootContent| ==> rootContent[i] !in ignored
    ensures GetAllowedFolders(rootContent, ignored) == rootContent
  {
    KeepAll(rootContent, NotIgnored(ignored), Same);
  }

  /** A walked directory `find_test_folders` collects. */
  predicate IsTestRoot(root: string) {
    EndsWith(root, SearchPattern)
  }

  /** `find_test_folders`: the walked directories whose path ends with
      `tests`, in walking order.  A folder called `unittests` ends so too. */
  function TestRoots(roots: seq<string>): (found: seq<string>)
    ensures |found| <= |roots|
  {
    FilterMap(roots, IsTestRoot, Same)
  }

  /** The test folders below the allowed folders, folder after folder;
      `walk(x)` stands for the directories `os.walk(x)` visits. */
  function TestFolders(allowed: seq<string>, walk: string -> seq<string>): (found: seq<string>)
  {
    if |allowed| == 0 then []
    else TestFolders(allowed[..|allowed| - 1], walk) + TestRoots(walk(allowed[|allowed| - 1]))
  }

  /** A path is a test folder exactly when walking some allowed folder
      visits it and its name ends with `tests`. */
  lemma {:induction false} TestFolderMember(allowed: seq<string>, walk: string -> seq<string>, p: string)
    ensures p in TestFolders(allowed, walk) <==>
              EndsWith(p, SearchPattern) && exists i :: 0 <= i < |allowed| && p in walk(allowed[i])
  {
    if |allowed| > 0 {
      var init := allowed[..|allowed| - 1];
      var last := allowed[|allowed| - 1];
      TestFolderMember(init, walk, p);
      FilterMapMember(walk(last), IsTestRoot, Same, p);
      if EndsWith(p, SearchPattern) && exists i :: 0 <= i < |allowed| && p in walk(allowed[i]) {
        var i :| 0 <= i < |allowed| && p in walk(allowed[i]);
        if i < |allowed| - 1 {
          assert init[i] == allowed[i];
        } else {
          var j :| 0 <= j < |walk(last)| && walk(last)[j] == p;
        }
      }
      if p in TestFolders(init, walk) {
        var i :| 0 <= i < |init| && p in walk(init[i]);
        assert allowed[i] == init[i];
      }
    }
  }

  /** `walk_allowed_folders`: each allowed folder walked in turn, its test
      folders appended to `all_test_folders`. */
  method WalkAllowedFolders(allowed: seq<string>, walk: string -> seq<string>) returns (found: seq<string>)
    ensures found == TestFolders(allowed, walk)
    ensures forall k :: 0 <= k < |found| ==> EndsWith(found[k], SearchPattern)
  {
    found := [];
    var i := 0;
    while i < |allowed|
      invariant 0 <= i <= |allowed|
      invariant found == TestFolders(allowed[..i], walk)
      invariant forall k :: 0 <= k < |found| ==> EndsWith(found[k], SearchPattern)
    {
      var roots := walk(allowed[i]);
      var j := 0;
      var step := [];
      while j < |roots|
        invariant 0 <= j <= |roots|
        invariant step == TestRoots(roots[..j])
        invariant forall k :: 0 <= k < |step| ==> EndsWith(step[k], SearchPattern)
      {
        FilterMapAppend(roots[..j], [roots[j]], IsTestRoot, Same);
        assert roots[..j + 1] == roots[..j] + [roots[j]];
        if EndsWith(roots[j], SearchPattern) {
          step := step + [roots[j]];
        }
        j := j + 1;
      }
      assert roots[..j] == roots;
      assert allowed[..i + 1][..i] == allowed[..i];
      found := found + step;
      i := i + 1;
    }
    assert allowed[..i] == allowed;
  }

  /** `unit_test_cmd(a)`: `python -m unittest discover -s a`. */
  function UnitTestCmd(folder: string): (cmd: seq<string>)
    ensures |cmd| == 6 && cmd[5] == folder
    ensures cmd[..5] == ["python", "-m", "unittest", "discover", "-s"]
  {
    ["python", "-m", "unittest", "discover", "-s", folder]
  }

  /** `run_tests`: one command per test folder, in order. */
  function RunTestCmds(folders: seq<string>): (cmds: seq<seq<string>>)
    ensures |cmds| == |folders|
    ensures forall k :: 0 <= k < |folders| ==> cmds[k] == UnitTestCmd(folders[k])
  {
    seq(|folders|, k requires 0 <= k < |folders| => UnitTestCmd(folders[k]))
  }

  /** The folder a `unittest discover` command searches: the argument
      after `-s` at its end. */
  function DiscoverDir(cmd: seq<string>): Option<string> {
    if |cmd| >= 2 && cmd[|cmd| - 2] == "-s" then Some(cmd[|cmd| - 1]) else None
  }

  /** Each command searches the folder it was made for. */
  lemma CommandSearchesFolder(folder: string)
    ensures DiscoverDir(UnitTestCmd(folder)) == Some(folder)
  {
  }

  /** `main(debug)`: read `.gitignore` (`None` when it is missing), pick the
      allowed root folders, collect their test folders, then list them or
      run one command per folder. */
  method RunMain(debug: bool, rootContent: seq<string>, gitignore: Option<seq<string>>, walk: string -> seq<string>)
    returns (r: Result<Outcome, DiscoveryError>)
    ensures r.Err? <==> gitignore.None?
    ensures r.Ok? ==> var folders := TestFolders(GetAllowedFolders(rootContent, LoadGitIgnoreFolders(InitialIgnored, gitignore.value)), walk);
                      r.value == if debug then Listed(folders) else Ran(RunTestCmds(folders))
  {
    if gitignore.None? {
      return Err(FileNotFoundError);
    }
    var ignored := LoadGitIgnoreFolders(InitialIgnored, gitignore.value);
    var allowed := GetAllowedFolders(rootContent, ignored);
    var folders := WalkAllowedFolders(allowed, walk);
    if debug {
      r := Ok(Listed(folders));
    } else {
      r := Ok(Ran(RunTestCmds(folders)));
    }
  }

  /** A run executes exactly the folders debug mode lists, in the same
      order, and never one inside an ignored root folder. */
  lemma RunMatchesDebugListing(rootContent: seq<string>, lines: seq<string>, walk: string -> seq<string>, k: nat)
    requires k < |TestFolders(GetAllowedFolders(rootContent, LoadGitIgnoreFolders(InitialIgnored, lines)), walk)|
    ensures var folders := TestFolders(GetAllowedFolders(rootContent, LoadGitIgnoreFolders(InitialIgnored, lines)), walk);
            RunTestCmds(folders)[k][5] == folders[k]
            && exists i :: 0 <= i < |rootContent| && rootContent[i] !in LoadGitIgnoreFolders(InitialIgnored, lines)
                 && folders[k] in walk(rootContent[i])
  {
    var ignored := LoadGitIgnoreFolders(InitialIgnored, lines);
    var allowed := GetAllowedFolders(rootContent, ignored);
    var folders := TestFolders(allowed, walk);
    TestFolderMember(allowed, walk, folders[k]);
    var i :| 0 <= i < |allowed| && folders[k] in walk(allowed[i]);
    AllowedMember(rootContent, ignored, allowed[i]);
    var j :| 0 <= j < |rootContent| && rootContent[j] == allowed[i];
  }
}
