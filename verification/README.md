# git-observer, modelled in Dafny

git-observer watches a set of git folders. For each folder an observer runs
`git log` on every branch for the last week, parses one pipe-separated record
per commit, drops commits it has already reported and commits by ignored
authors, and publishes what remains as an observation: the folder name and
its new commits. A shell loop (`main.py`) prints the observations. Two Tk
windows (`GitObserverViewer.py` and the newer `viewer.py`) show them in a
table with one row per commit index. `GitObserverViewer.py` gives each folder
a text column and a `Link` column; `viewer.py` gives each folder one text
column. The configuration comes from one source at a time. When there are
command-line arguments, they decide, or the ini file they name does.
Otherwise the ini file is read, and `install` first creates it from the
built-in defaults when it is missing. `core/config/` holds a second,
table-driven copy of this layer, which merges what it loaded over the
defaults.
Two developer tools complete the repository. `amc.py` checks the author of
the latest commit against a white list. `run_tests.py` finds the test folders
and runs `unittest discover` in each one.

The model is pure Dafny. Each process, file, clock or environment read that
the program does becomes a parameter of the modelled operation:

- the git answer, a string or a list of lines;
- the dummy log file;
- ISO-8601 parsing, an `IsoParser` function;
- the current time;
- date formatting, a `DateText` function;
- the environment and the file system, as maps;
- the directory walk, a function from a folder to the paths it visits.

Python exceptions are `Result` errors that name the exception. Python `None`
is `Option`.

Files and modules:

- `outcomes.dfy` (`Outcomes`): `Option` and `Result`.
- `text.dfy` (`Text`): the `str` operations the program uses — split, join, strip, lower case, `int()` and `str()` — with their round trips.
- `transport.dfy` (`Transport`): `Commit` and `Observation` (`core/transport.py`).
- `event.dfy` (`Events`): the subscriber list of `core/event.py`.
- `git_log.dfy` (`GitLog`): the observer configuration, the `git log` arguments and the record format both observers share.
- `dedup.dfy` (`Dedup`): ignored authors and the sweep over the known hashes.
- `observer.dfy` (`Observer`): `observer.py`.
- `legacy_observer.dfy` (`LegacyObserver`): `GitObserver.py`.
- `config_values.dfy` (`ConfigValues`) and `config_handler.dfy` (`ConfigHandler`): `core/config.py`.
- `config_parser.dfy` (`ConfigParsers`): `core/config/parser.py`.
- `config_management.dfy` (`ConfigManagement`): `core/config/management.py`.
- `shell.dfy` (`Shell`): `main.py`.
- `view_rows.dfy` (`ViewRows`): the table rows both windows build.
- `legacy_viewer.dfy` (`LegacyViewer`): `GitObserverViewer.py`.
- `viewer.dfy` (`Viewer`): `viewer.py`.
- `tk_geometry.dfy` (`TkGeometry`): `TkUtil.__calculate_geometry__`.
- `lists.dfy` (`Lists`): the filtering list comprehension the developer tools use.
- `amc.dfy` (`AuthorCheck`): `devtools/am-c/amc.py`.
- `run_tests.dfy` (`TestDiscovery`): `run_tests.py`.

## Model

| member | source | states |
|---|---|---|
| Transport.HashText | main.py:78 | a present hash prints as itself and a missing one as `None`, as `f"{origin}{sha1}"` does |
| Transport.NewCommit | core/transport.py:16-29 | the constructor stores author, date and message unchanged, the hash as `sha1`, and the branch as given; both default to `None` |
| Transport.NewObservation | core/transport.py:40-47 | an observation keeps its name and its commit list unchanged |
| Transport.Reverse | observer.py:195-196 | `messages.reverse()`: same length, element `i` is input element `len-1-i` |
| Transport.ReverseInvolutive | observer.py:195-196 | reversing twice gives the list back |
| Transport.ReverseSameElements | observer.py:195-196 | reversing keeps exactly the same members |
| Transport.ReverseKeepsDistinct | observer.py:195-196 | reversing a list of distinct hashes keeps them distinct |
| Transport.IsEmpty | GitObserverViewer.py:20-28 | `is_empty` holds exactly for no list, or a list in which every observation has zero commits |
| Transport.NoCommitIn | GitObserverViewer.py:23-28 | the loop returns false exactly when some observation has a commit |
| Transport.EmptyIffNoCommits | GitObserverViewer.py:20-28 | a batch is empty exactly when it holds no commit at all across observations |
| Events.NewEvent | core/event.py:13-14 | a fresh event has no handlers |
| Events.Subscribe | core/event.py:16-18 | `+=` appends the handler at the end and keeps the earlier handlers; duplicates are allowed |
| Events.FirstIndex | core/event.py:20-22 | the index `list.remove` removes: a position of the handler with no equal handler before it |
| Events.RemoveFirst | core/event.py:20-22 | removing the first occurrence drops exactly that position |
| Events.Unsubscribe | core/event.py:20-22 | `-=` succeeds exactly when the handler is subscribed, and then removes one copy (the first); otherwise it raises `ValueError` |
| Events.SubscribeThenUnsubscribe | core/event.py:16-22 | for a handler not yet subscribed, `+=` then `-=` restores the list exactly |
| Events.HandlerArg | core/event.py:26-29 | a handler gets the argument exactly when it is truthy, and then unchanged |
| Events.Deliver | core/event.py:25-29 | one delivery per handler, in list order, all with the same argument |
| Events.Publish | core/event.py:24-29 | calling invokes every handler once in subscription order; the argument is passed exactly when it is truthy, and it is then passed unchanged |
| Events.PublishAfterSubscribe | core/event.py:16-29 | a handler subscribed last is called last, after all the handlers called before |
| Events.PublishStatus | core/event.py:32-47 | a status event wraps the message in `StatusEventArgs`, so every handler receives that object, whatever the message |
| Events.PublishObservations | observer.py:276 | `OnLoaded(result)` delivers the batch wrapped in `ObservationEventArgs` to every handler, in order, an empty batch included |
| GitLog.RepoPrefix | observer.py:42-45 | every git command starts with `git`, the `--git-dir` and the `--work-tree` of the root |
| GitLog.FetchCmd | observer.py:42-48 | the fetch command is the repository prefix followed by `fetch --all` |
| GitLog.ParseFields | GitObserver.py:110-118 | a line parses exactly when it has at least five `|` fields and field 1 is an ISO date; fewer than two fields is an `IndexError`, a bad date with two or more a `ValueError`; author and hash are fields 0 and 3 |
| GitLog.FormatThenParse | GitObserver.py:107-118 | a record written by `--pretty=format:%cn|%cI|%s|%h|%D` whose fields hold no `|` parses back to those fields |
| GitLog.PipeInSummaryShiftsFields | GitObserver.py:110-118 | a summary holding `|` shifts the later fields: the summary is cut, and its remainder is read as the hash |
| GitLog.BlankLineIsIndexError | GitObserver.py:110-113 | an empty line fails with `IndexError` |
| GitLog.MalformedLineIsValueError | GitObserver.py:113 | `WRONG|FORMAT#PROVIDED~HERE` fails with `ValueError` on its date |
| Dedup.IgnoreAuthor | observer.py:199-212 | with no ignore list nobody is ignored; otherwise an author is ignored exactly when it equals some entry, case-sensitively |
| Dedup.Sweep | observer.py:183-193 | the known hashes only grow, and there are no more survivors than commits |
| Dedup.SweepKnown | observer.py:187-189 | a hash is known after the pass exactly when it was known before or belongs to an input commit, ignored authors included; the known list stays free of duplicates |
| Dedup.SweepSurvivors | observer.py:187-193 | every survivor is an input commit by an author not ignored, whose hash was unknown before and is known now |
| Dedup.SweepDistinct | observer.py:187-193 | no two survivors of one pass share a hash |
| Dedup.SweepGuarantees | observer.py:183-193 | collects the three facts above for one pass |
| Dedup.SweepSnoc | observer.py:183-193 | one more commit at the end is skipped when its hash is known; otherwise its hash is appended, and the commit is kept unless its author is ignored |
| Dedup.SweepAllKnown | observer.py:187-188 | commits whose hashes are all known produce nothing and record nothing |
| Dedup.SweepFromNothingKeepsFirst | observer.py:183-193 | with nothing known, a first commit by a relevant author survives and comes first |
| Dedup.NoReemissionAcrossPasses | observer.py:187-189 | no commit surfaced by one pass surfaces again in a later pass that starts from its known hashes |
| Dedup.ExtendObserved | observer.py:119-121 | appending one more folder's fresh, distinct commits keeps all observed hashes distinct, new and by relevant authors |
| Observer.NewGitObserver | observer.py:23-48 | a new observer keeps its configuration and test flag, and has seen no hash |
| Observer.SortFlag | observer.py:77-79 | `descending` gives `--date-order`, otherwise `--reverse` |
| Observer.LogCmd | observer.py:80-90 | nine arguments: the repository prefix, `log`, the quoted since-clause, the quoted pretty format, `--all`, the sort flag, and `{filepath}/{path}` |
| Observer.LogCmdOrdering | observer.py:77-90 | the log command orders by date exactly for a descending configuration, and names the git dir and the work tree |
| Observer.ShowCmd | observer.py:100-108 | seven arguments: the repository prefix, `show --pretty=fuller -s`, and the hash last |
| Observer.LineContent | observer.py:139 | `rstrip()[1:-1]`: the right-stripped line without its first and last characters; empty when fewer than two remain |
| Observer.QuotedLineRoundTrip | observer.py:139 | a quoted record read with its line break comes back unquoted |
| Observer.ParseCommitFormatted | observer.py:139-142 | the line parser fails exactly when the field reading fails, with the same error; otherwise it yields a commit whose author is field 0 |
| Observer.FormattedRecordParses | core/tests/test_transport.py:20-98 | the five fields of a formatted record land in the commit unchanged |
| Observer.ReadGitCommits | observer.py:133-143 | a successful read returns at most one commit per line |
| Observer.ReadStopsAtEndOfStream | observer.py:135-138 | nothing after the first empty read is looked at |
| Observer.ReadAllParsed | observer.py:135-143 | when every line parses to a commit, the read returns those commits in line order |
| Observer.ReadSkipsFalsy | observer.py:141-142 | a falsy parse result adds nothing |
| Observer.FilterCommitResult | observer.py:172-197 | empty input changes nothing; otherwise the known hashes grow by exactly the input's hashes, and the result is the reversed survivors: distinct, new, by relevant authors |
| Observer.HandleObservedPath | observer.py:159-170 | a read error is passed on with nothing recorded; otherwise the read commits are filtered as above |
| Observer.LogCmds | observer.py:119-156 | one log command per folder |
| Observer.LogCmdsAt | observer.py:119-156 | the `k`-th log command is that of the `k`-th folder |
| Observer.LoadCommands | observer.py:116-121 | no git call in test mode; otherwise the fetch and then one call per folder reached |
| Observer.LoadCommandsShape | observer.py:116-120 | the git calls are none in test mode; otherwise the fetch, then one log command per folder reached, in order |
| Observer.ObserveFolders | observer.py:119-121 | one observation per folder, in order and named by its path; all commits are distinct, new and by relevant authors |
| Observer.LoadObservations | observer.py:110-122 | fetches unless testing; returns exactly one observation per configured folder, in order, named by the path; no hash appears twice across folders or was known before |
| Observer.NewObserverThread | observer.py:253-262 | the thread starts with the run flag set, no subscribers and a fresh observer |
| Observer.StopObservation | observer.py:280-282 | clears the run flag and changes nothing else |
| Observer.Tick | observer.py:273-277 | aggregation happens exactly when the counter is a multiple of 60, and the next counter is at least 1 |
| Observer.SecondAtClosedForm | observer.py:271-277 | the counter runs 0, then 1 to 60 over and over |
| Observer.CounterStep | observer.py:273-277 | one step from pass `m` resets exactly at the sixtieth pass and lands on the closed form |
| Observer.AggregatesEverySixtyPasses | observer.py:271-278 | aggregation happens on pass 0 and then on every sixtieth pass |
| Observer.ObservationLoopStep | observer.py:264-282 | a cleared flag ends the loop with nothing done; on other passes than every sixtieth only the counter moves; an aggregation pass keeps the observer the load leaves behind (same configuration, more known hashes), fetches first outside test mode, and publishes one observation per folder, named by it, whose commits are distinct, not known before, now known, and by relevant authors, to every subscriber wrapped in `ObservationEventArgs`, an empty batch included; a load error ends the thread without publishing |
| LegacyObserver.LegacySortFlag | GitObserver.py:51-53 | `descending` gives `--reverse`, otherwise `--date-order` |
| LegacyObserver.SortFlagsOpposite | GitObserver.py:51-53 | the two copies pick opposite flags for the same configuration |
| LegacyObserver.LegacyLogCmd | GitObserver.py:54-64 | nine arguments with the unquoted since-clause and pretty format |
| LegacyObserver.LegacyShowCmd | GitObserver.py:150-158 | the show command uses `--pretty=medium` and ends with the hash |
| LegacyObserver.CommandsDiffer | GitObserver.py:50-64 | both copies target the same repository and differ in quoting, sort flag and header format |
| LegacyObserver.BranchText | GitObserver.py:116-118 | empty refs give `''`; otherwise the refs followed by a line break |
| LegacyObserver.ParseLegacyLine | GitObserver.py:110-126 | the line fails exactly as the field reading does; otherwise the commit carries field 3 as hash and the branch text of field 4 |
| LegacyObserver.ParseUntilFailure | GitObserver.py:109-118 | no more results than lines; all lines parsed when nothing failed; fewer when something did |
| LegacyObserver.ParseLines | GitObserver.py:107-118 | the same count facts for this copy's line parser |
| LegacyObserver.ParsedAt | GitObserver.py:109-118 | every result before the failure is the parse of its own line |
| LegacyObserver.FailedAt | GitObserver.py:109-118 | the failure reported is that of the first line that was not parsed |
| LegacyObserver.ParseAppend | GitObserver.py:109-118 | a stretch that parses completely, followed by more lines, parses as the two stretches one after the other |
| LegacyObserver.ParsedStep | GitObserver.py:109-118 | a line that parses extends the parsed prefix |
| LegacyObserver.FailedStep | GitObserver.py:109-118 | a line that fails ends the parse with what came before it |
| LegacyObserver.ParsedLine | GitObserver.py:109-118 | every commit parsed is the parse of its line |
| LegacyObserver.FailedLine | GitObserver.py:109-118 | the error reported is that of the first line that failed |
| LegacyObserver.SweepLine | GitObserver.py:120-127 | a known hash changes nothing; a new one is appended, and the commit is kept unless its author is ignored |
| LegacyObserver.CollectCommitMessages | GitObserver.py:106-131 | on a parse failure the error is raised, and the hashes of the lines before it stay in the shared list; otherwise the reversed sweep of all parsed lines is returned |
| LegacyObserver.CollectGuarantees | GitObserver.py:106-131 | the shared list only grows, and the result holds distinct, new commits by relevant authors |
| LegacyObserver.HandleLogResponse | GitObserver.py:92-104 | fails exactly when some line fails to parse; otherwise returns distinct new commits by relevant authors |
| LegacyObserver.TrailingLineBreakFails | GitObserver.py:107-113 | a response ending in a line break, or an empty response, fails on its empty last line |
| LegacyObserver.SharedListSuppressesRepeats | GitObserver.py:14-15 | after one instance collected a response, collecting it again through any instance surfaces nothing |
| LegacyObserver.ObserveFolder | GitObserver.py:69-72 | one folder's collection appends one observation named by the path and keeps the earlier ones |
| LegacyObserver.LogCmds | GitObserver.py:69-86 | one log command per folder |
| LegacyObserver.LogCmdsAt | GitObserver.py:69-86 | the `k`-th log command is that of the `k`-th folder |
| LegacyObserver.RunCommands | GitObserver.py:66-72 | the fetch first, in every mode; then one call per folder reached outside test mode |
| LegacyObserver.RunCommandsShape | GitObserver.py:66-86 | the fetch comes first, also in test mode; outside test mode one log command per folder reached follows |
| LegacyObserver.ObserveFolders | GitObserver.py:69-72 | one observation per configured folder, in order; its commits are distinct, new and by relevant authors |
| LegacyObserver.Run | GitObserver.py:66-73 | always fetches; returns one observation per configured folder, in order; no hash repeats or was shared before |
| ConfigValues.ParseList | core/config.py:19-20 | one item per comma-separated piece, each stripped and free of commas |
| ConfigValues.ParseValue | core/config.py:11-25 | the exact type of the default decides: a list default splits and strips a text (a non-text has no `split`); a bool default gives the value's truthiness; an int default converts a decimal text, whose digits may be grouped by single underscores, and raises otherwise; any other default returns the value unchanged |
| ConfigValues.IniText | core/config.py:70-75 | `install` writes texts as they are, flags as `True`/`False` and lists joined with `", "` |
| ConfigValues.ListRoundTrip | core/config.py:19-20 | a non-empty list of stripped, comma-free items written by `install` is read back unchanged |
| ConfigValues.EmptyListBecomesOneEmptyItem | core/config.py:19-20 | the empty list is written as `""` and read back as `[""]` |
| ConfigValues.IntRoundTrip | core/config.py:23-24 | an integer written with `str()` is read back unchanged |
| Text.UnderscoreGrouping | core/config.py:23-24 | `int()` reads `1_000` as 1000 and raises on a leading, trailing or doubled underscore |
| ConfigValues.FalseFlagReadsTrue | core/config.py:21-22 | any flag written with `str()` reads back `True`, since `"False"` is non-empty |
| ConfigValues.ParseListOfJoin | core/config.py:19-20 | splitting a comma join of comma-free pieces and stripping each recovers the stripped pieces |
| ConfigValues.TypeUtilExamples | core/tests/test_utils.py:84-101 | `'Test'` against a bool default is `True`, `'10'` against an int default is `10`, and `2` against a dict default stays `2` |
| ConfigValues.TypeUtilListExample | core/tests/test_utils.py:84-101 | `' Hallo ,Hello, Hi, Yo'` against a list default is `['Hallo', 'Hello', 'Hi', 'Yo']` |
| ConfigValues.Names | core/config.py:34-41 | the keys of a defaults dictionary, in insertion order |
| ConfigValues.DefaultOf | core/config.py:113 | the looked-up default is the value of an entry with that key |
| ConfigValues.AsNamespace | core/config/management.py:74-77 | the namespace of the defaults has exactly their keys, each holding its default |
| ConfigValues.StandardDefaults | core/config.py:34-50 | both default dictionaries list origin, filepath, logfolders, ignore, show_viewer and descending, in that order |
| ConfigValues.DefaultOfFirst | core/config.py:34-41 | an entry whose key is not repeated before it is what a lookup of that key finds |
| ConfigValues.StandardLookup | core/config.py:34-50 | every entry of the standard defaults is what a lookup of its key finds |
| ConfigValues.OptionNamesDistinct | core/config.py:34-41 | the six option names are pairwise different |
| ConfigValues.IniTextParses | core/config.py:11-25 | the text `install` writes for a value converts back against that value without raising |
| ConfigValues.ReadIni | core/config.py:139-140 | `ConfigParser.read` skips a missing file silently and reads nothing from it |
| ConfigValues.SectionGet | core/config.py:148-149 | an option is found exactly when the section lists it, and the value found is one listed for it |
| ConfigValues.SectionGetFirst | core/config.py:148-149 | an option not repeated earlier in the section reads as its own value |
| ConfigValues.InstalledSection | core/config.py:69-75 | the written section has one option per default, in order, with the `install` text of its value |
| ConfigValues.InstalledDoc | core/config.py:68-78 | the written file holds exactly the `Default` section |
| ConfigHandler.IniDefaults | core/config.py:34-41 | the file defaults list the six options and set both flags to `True` |
| ConfigHandler.NameDefaults | core/config.py:43-50 | the argument defaults have the same keys and set both flags to `False` |
| ConfigHandler.NewHandler | core/config.py:52-53 | a new handler works on the standard `config.ini` path |
| ConfigHandler.ConfigExists | core/config.py:55-57 | the handler's ini file exists |
| ConfigHandler.Install | core/config.py:59-78 | an existing file is left alone; otherwise exactly the handler's file is created with the file defaults; no other file changes |
| ConfigHandler.Resolve | core/config.py:114-117 | a falsy value falls back to the default; a truthy one is converted by `parse_value`; it can never raise `RuntimeError` or `KeyError` |
| ConfigHandler.FillFromDefaults | core/config.py:145-154 | filling succeeds exactly when every option resolves |
| ConfigHandler.FillContents | core/config.py:145-154 | a filled namespace has exactly the keys of the defaults, each holding its resolved value |
| ConfigHandler.FillFirstError | core/config.py:145-154 | the error raised is that of some option whose conversion raises |
| ConfigHandler.ResolvesToDefaults | core/config.py:145-154 | when every option resolves to its default, the result is the defaults namespace |
| ConfigHandler.FileValue | core/config.py:147-149 | an option's file value is its text when present and `None` otherwise |
| ConfigHandler.ParseConfigFile | core/config.py:133-155 | `RuntimeError` exactly when the read file has no `Default` section; otherwise the result has exactly the default keys, each the parsed file value when present and non-empty and the default otherwise |
| ConfigHandler.NoArgsFallback | core/config.py:157-165 | the file is installed when missing and then read; an existing file is only read |
| ConfigHandler.InstalledValueResolves | core/config.py:70-75 | each kind of value in the file defaults reads back as itself |
| ConfigHandler.InstalledOptionsResolveToDefaults | core/config.py:145-154 | every option of a freshly installed section resolves to its own default |
| ConfigHandler.FreshInstallReadsIniDefaults | core/config.py:157-165 | without a file, the fallback yields exactly the file defaults |
| ConfigHandler.ArgGet | core/config.py:112 | `args.get(key)` is `None` for an absent key and the argument's value otherwise |
| ConfigHandler.ConfigFileArg | core/config.py:106 | the `--config-file` argument counts exactly when it is a non-empty text |
| ConfigHandler.HandleFileArgument | core/config.py:120-131 | the handler moves to the named file; an existing file is parsed; a missing one is installed and then parsed |
| ConfigHandler.ParseArguments | core/config.py:82-118 | a config-file argument moves to that file; otherwise the options are filled from the arguments against the file defaults; a result holds exactly the option names |
| ConfigHandler.MissingConfigFileIsCreated | core/config.py:127-131 | a config file named on the command line that does not exist is created with the file defaults |
| ConfigHandler.ListArgumentRaises | core/config.py:94-95 | a folder list given on the command line reaches `split` as a list and raises `AttributeError` |
| ConfigHandler.GetAppConfig | core/config.py:167-183 | without arguments the file fallback is used; otherwise the arguments are parsed |
| ConfigHandler.FillSetsFlags | core/config.py:111-117 | whatever is given, a filled namespace has `show_viewer` and `descending` set to `True` |
| ConfigHandler.FlagsAlwaysSet | core/config.py:167-183 | whatever the source, a successful configuration has both flags `True` |
| ConfigParsers.GivenDefault | core/config/parser.py:118-120 | the default an option converts against is its entry in the defaults, or `None` for an unlisted option |
| ConfigParsers.CollectGiven | core/config/parser.py:63-71 | the loop succeeds exactly when every given option passes, and the result holds only options given with a truthy value |
| ConfigParsers.LaterValueWins | core/config/parser.py:69-70 | a name given twice keeps its second value |
| ConfigParsers.UnknownOptionRaises | core/config/parser.py:63-64 | when every truthy value converts, the INI loop fails exactly when some file option is not a default, and the error is `KeyError` |
| ConfigParsers.SectionValues | core/config/parser.py:63-67 | each file option is given with its text, in file order |
| ConfigParsers.IniParseConfig | core/config/parser.py:51-71 | `RuntimeError` without a `Default` section; otherwise the file options are collected strictly; a result holds only default names |
| ConfigParsers.IniInstall | core/config/parser.py:73-93 | an existing file is left alone; otherwise exactly this parser's file is written with its defaults; the two attribute assignments change nothing written |
| ConfigParsers.CollectedAt | core/config/parser.py:69-70 | an option given once with a truthy value is in the result, converted against its default |
| ConfigParsers.SkippedAt | core/config/parser.py:69 | an option given once with a falsy value is not in the result |
| ConfigParsers.CollectedAny | core/config/parser.py:63-71 | the result is non-empty exactly when some given value is truthy |
| ConfigParsers.InstalledRead | core/config/parser.py:73-93 | a freshly installed file reads as the strict collection of the installed section |
| ConfigParsers.InstalledReadBack | core/config/parser.py:63-71 | a freshly installed file reads back without raising: every default with a non-empty text comes back converted, the others are absent |
| ConfigParsers.InstalledFlagsReadTrue | core/config/parser.py:86-91 | the flags of the standard defaults read back `True` from a fresh file, whatever was written |
| ConfigParsers.DestOf | core/config/parser.py:139-158 | argparse's destination drops the two leading dashes and turns inner dashes into underscores |
| ConfigParsers.ArgDests | core/config/parser.py:161-162 | one destination per registered option, in order |
| ConfigParsers.OptionFromDest | core/config/tests/test_parser.py:104 | a destination leads back to its long option |
| ConfigParsers.BuildParser | core/config/parser.py:129-164 | the registered list is cleared and then holds the seven destinations in registration order; the defaults are unchanged |
| ConfigParsers.BuildParserIdempotent | core/config/parser.py:134-135 | building twice registers the same list as building once |
| ConfigParsers.PlainDests | core/config/parser.py:139-155 | origin, filepath, logfolders, ignore and descending register under their own names |
| ConfigParsers.DashedDests | core/config/parser.py:150-158 | `--show-viewer` and `--config-file` register as `show_viewer` and `config_file` |
| ConfigParsers.EveryDefaultRegistered | core/tests/test_config.py:169-179 | every default option, and `config_file`, is registered |
| ConfigParsers.ArgParseConfig | core/config/parser.py:106-127 | the parser is rebuilt, and the arguments are collected leniently, so unknown names are kept |
| ConfigParsers.UnlistedArgumentKept | core/config/parser.py:117-126 | a truthy argument with no default comes out unchanged |
| ConfigParsers.ArgHasConfig | core/config/parser.py:166-168 | true exactly when some argument value is truthy; an argument parse error is passed on |
| ConfigManagement.ConfigDefaults | core/config/management.py:15-22 | the manager's defaults list the six options, both flags off |
| ConfigManagement.GetDefaults | core/config/management.py:67-77 | a namespace holding every default option with its default value |
| ConfigManagement.SomeConfig | core/config/management.py:56 | a file result passes its value or its error on unchanged |
| ConfigManagement.GetPlainConfig | core/config/management.py:41-65 | an argument parse error is raised; without truthy arguments the standard file is read when it exists, and nothing is loaded otherwise |
| ConfigManagement.Merge | core/config/management.py:35-39 | the merge keeps exactly the default keys, each taken from the loaded config when present; extra loaded keys such as `config_file` are dropped |
| ConfigManagement.GetConfig | core/config/management.py:24-39 | fails exactly when loading fails; a result holds exactly the option names |
| ConfigManagement.NothingGivenGivesDefaults | core/config/management.py:31-33 | with no truthy argument and no standard file, the result is the defaults |
| ConfigManagement.ArgumentsIgnoreFiles | core/config/management.py:49-58 | arguments that yield an option and name no config file decide alone; files do not matter |
| ConfigManagement.ArgumentTaken | core/config/management.py:49-58 | an option given once as an argument comes out converted against its default |
| ConfigManagement.ConfigFileArgumentRead | core/config/management.py:52-56 | a config file named by the arguments that exists is read in place of the arguments |
| Shell.StartShell | main.py:63-67 | the loop starts with a fresh, non-test observer and a zero count |
| Shell.GlobalSigterm | main.py:43-52 | the termination handler clears the run flag and nothing else |
| Shell.NextMs | main.py:69-81 | the count comes out at exactly 100 when a due load printed something, or when it started at 0; otherwise it keeps growing by 100 |
| Shell.MsAfterModulo | main.py:69-81 | restarting the count at a due load does not move it modulo the interval: after `n` wake-ups it is `100 n` modulo 60000 |
| Shell.LoadsEveryMinute | main.py:112-115 | a load is due exactly on every 600th wake-up, once a minute, whether or not the count restarted |
| Shell.BranchLine | main.py:75 | the branch line is empty exactly for a falsy branch, and is the branch followed by a line break otherwise |
| Shell.CommitText | main.py:76-78 | one commit prints as author, date and summary, the branch line, then the origin followed by the hash and a line break |
| Shell.BranchShownIffTruthy | main.py:75-78 | the printed text depends on the branch exactly when the branch is truthy |
| Shell.FolderOutput | main.py:72-78 | one header line for the folder, then one text per commit, in order |
| Shell.BatchOutput | main.py:71-78 | an empty batch prints nothing; otherwise one header per folder plus one text per commit |
| Shell.PrintFolders | main.py:72-78 | one header per folder plus one text per commit |
| Shell.ShellStep | main.py:68-81 | a cleared flag ends the loop; a pass with no load due only adds 100 ms; a due load either fails, printing nothing, or returns the batch `load_observations` loaded, with one observation per configured folder named by it, distinct commits, each new and by a relevant author; exactly that batch is printed, something is printed iff the batch holds a commit, and the count restarts exactly then |
| ViewRows.MaxCommits | GitObserverViewer.py:150-154 | the row count bounds every folder's commit count and equals one of them, or is 0 |
| ViewRows.NoRowsIffEmpty | GitObserverViewer.py:142-154 | a batch gets no row exactly when it is empty in the sense of `is_empty` |
| ViewRows.CommitAt | GitObserverViewer.py:164-168 | a folder has a commit for a row exactly when the row index is below its commit count, and it is the commit at that index |
| ViewRows.SummaryText | GitObserverViewer.py:169 | the text cell starts with `author: `, has the length of the formatted pieces, and ends with `)` |
| ViewRows.CellText | GitObserverViewer.py:164-170 | the text cell is empty exactly for a folder without a commit on that row |
| ViewRows.EveryCommitHasARow | GitObserverViewer.py:150-168 | every commit's position in its folder is a row of the batch, and the folder contributes that commit there |
| ViewRows.LastRowOccupied | GitObserverViewer.py:150-154 | some folder of a non-empty batch reaches its last row |
| ViewRows.FirstRowOccupied | GitObserverViewer.py:150-154 | the first row of a non-empty batch holds a commit |
| LegacyViewer.NewLegacyWindow | GitObserverViewer.py:95-105 | the window forces descending output on, keeps the rest of the configuration, and starts with an empty table |
| LegacyViewer.FolderColumnIds | GitObserverViewer.py:189-191 | a name column and a `Link` column per folder, in folder order |
| LegacyViewer.ColumnIds | GitObserverViewer.py:188-191 | `Last updated`, then two columns per folder: `1 + 2n` names |
| LegacyViewer.FormatColumn | GitObserverViewer.py:196-206 | as written, every column but the last gets its heading and a width; the last is left untouched |
| LegacyViewer.FormatColumnFixed | GitObserverViewer.py:196-206 | with the loop reaching every column, each column gets its own heading and a width |
| LegacyViewer.FormatColumns | GitObserverViewer.py:196-206 | one formatted column per name, in order |
| LegacyViewer.CreateColumns | GitObserverViewer.py:177-206 | nothing happens when columns exist; otherwise `1 + 2n` columns named as above; rows are untouched |
| LegacyViewer.ColumnsCreatedOnce | GitObserverViewer.py:185-186 | a second batch leaves the columns of the first alone |
| LegacyViewer.LastColumnIsLink | GitObserverViewer.py:188-191 | the last column of a table with folders is a `Link` column |
| LegacyViewer.LastColumnUnformatted | GitObserverViewer.py:200 | as written, that last `Link` column gets neither heading nor width |
| LegacyViewer.EveryColumnFormatted | GitObserverViewer.py:196-206 | corrected, every column shows its own name and has a width |
| LegacyViewer.LinkText | GitObserverViewer.py:171 | the intended link cell: empty without a commit, otherwise the origin followed by the hash |
| LegacyViewer.FolderCellsAsWritten | GitObserverViewer.py:163-172 | as written, a row's folder cells raise `AttributeError` exactly when some folder has a commit there, since a commit has no `link` |
| LegacyViewer.AddRowsAsWritten | GitObserverViewer.py:156-173 | as written, the row loop keeps the columns and only appends rows |
| LegacyViewer.UpdateViewAsWritten | GitObserverViewer.py:134-175 | as written, an empty batch changes nothing, and rows are only ever appended |
| LegacyViewer.NonEmptyBatchRaises | GitObserverViewer.py:171 | as written, every batch with a commit creates the columns and then raises `AttributeError` on its first row |
| LegacyViewer.FolderCells | GitObserverViewer.py:163-172 | two cells per folder |
| LegacyViewer.FolderCellsAt | GitObserverViewer.py:163-172 | folder `f` owns cell `2f`, the text of its commit on that row, and cell `2f + 1`, the link |
| LegacyViewer.RowValues | GitObserverViewer.py:157-172 | a row is the stamp cell followed by the folder cells: `1 + 2n` values |
| LegacyViewer.BatchRows | GitObserverViewer.py:156-173 | one row per commit position, top to bottom |
| LegacyViewer.AppendBatch | GitObserverViewer.py:156-173 | the loop appends exactly the batch's rows at the end of the table |
| LegacyViewer.UpdateView | GitObserverViewer.py:134-175 | corrected: an empty batch changes nothing; otherwise the columns are created once and the batch's rows are appended |
| LegacyViewer.CommitShown | GitObserverViewer.py:163-172 | the `j`-th commit of folder `f` is on row `j` of its batch, in cell `1 + 2f` as text and in cell `2 + 2f` as link |
| LegacyViewer.StampOnFirstRowOnly | GitObserverViewer.py:158-161 | the update time sits in the first row of the batch only |
| LegacyViewer.OpenLink | GitObserverViewer.py:46-57 | as written: a click opens the value at `col - 1` exactly in a cell of an odd, non-zero column with a non-empty value; a column beyond the row raises `IndexError` |
| LegacyViewer.DateCellOpensTimestamp | GitObserverViewer.py:46-54 | as written, a click on the `Last updated` cell of a batch's first row opens the time stamp as a link |
| LegacyViewer.OpenLinkFixed | GitObserverViewer.py:46-57 | corrected: the date column opens nothing, and every other column behaves as written |
| LegacyViewer.LinkColumnOf | GitObserverViewer.py:188-191 | column `2 + 2f` is the `Link` column of folder `f` |
| LegacyViewer.FixedClickOpensCommitLink | GitObserverViewer.py:51-57 | corrected: a click on the `Link` column of folder `f` opens that folder's commit link on the row, and nothing when it has none |
| LegacyViewer.FixedClickOnlyOnLinks | GitObserverViewer.py:51-57 | corrected: whatever opens comes from a `Link` column |
| Viewer.CreateColumns | viewer.py:156-181 | nothing happens when columns exist; otherwise `Last updated`, then one column per configured folder |
| Viewer.ColumnsCreatedOnce | viewer.py:164-165 | later calls keep the first headings |
| Viewer.NewWindow | viewer.py:29-87 | descending is forced on; the columns come from the configured folders; the table, `grid_data` and `row_count` start empty; the started thread has the window's loaded handler subscribed |
| Viewer.RootDelete | viewer.py:89-97 | closing the window stops the observer thread and leaves the rest alone |
| Viewer.ObserverStatus | viewer.py:109-112 | the status line shows `Status: ` and the status only while the window is in its normal state |
| Viewer.RowCells | viewer.py:140-147 | one text cell per folder |
| Viewer.BatchRow | viewer.py:133-147 | a row of a batch has `1 + n` values, the update time only on the batch's last row |
| Viewer.BatchRowCell | viewer.py:140-147 | data cell `f` of row `r` is the text of folder `f`'s commit at position `r`, empty without one |
| Viewer.RowCellsAt | viewer.py:140-147 | the `f`-th text cell is that of folder `f` |
| Viewer.BatchCommits | viewer.py:134-148 | one kept commit slot per folder |
| Viewer.BatchCommitsAt | viewer.py:140-148 | slot `f` holds folder `f`'s commit at that position, or `None` |
| Viewer.RowsUpTo | viewer.py:132-150 | the first `k` rows, each inserted on top, make `k` rows |
| Viewer.GridUpTo | viewer.py:132-149 | the commits behind those rows make `k` entries |
| Viewer.RowsUpToAt | viewer.py:149-150 | inserting on top reverses: the `i`-th row from the top is row `k-1-i` of the batch |
| Viewer.GridUpToAt | viewer.py:149 | likewise for `grid_data` |
| Viewer.UpdateView | viewer.py:114-154 | an empty batch changes nothing; otherwise the batch's rows go on top, reversed, together with their commits, and `row_count` grows by exactly the row count |
| Viewer.PrependRows | viewer.py:132-151 | the row loop puts rows and commit slots on top in lockstep and counts them |
| Viewer.BuildRow | viewer.py:133-148 | the loop body builds the row values and the commit slots of one row |
| Viewer.BuildCells | viewer.py:133-148 | cell by cell: the stamp or `''`, then the text of each folder's commit and the commit itself, or `''` and `None` |
| Viewer.BatchRowPointwise | viewer.py:133-148 | a row that agrees cell by cell with a batch row is that row |
| Viewer.ObserverLoadedHandler | viewer.py:99-107 | a missing argument changes nothing; otherwise the batch is unwrapped from `observations` and goes through `update_view`, so the rows and grid gain the batch on top and a batch without commits changes nothing |
| Viewer.StampOnTop | viewer.py:135-138 | the newest batch sits on top with the update time on its top row only |
| Viewer.CommitPlaced | viewer.py:145-149 | the `j`-th commit of folder `f` is kept in row `n-1-j` from the top, slot `f` |
| Viewer.CommitShown | viewer.py:145-150 | its text is shown in the same row, in column `1 + f` |
| Viewer.NewWindowAligned | viewer.py:41-42 | a new window's table, `grid_data` and `row_count` agree |
| Viewer.BatchRowShows | viewer.py:140-148 | each row of a batch shows the commits kept behind it |
| Viewer.TopRowShows | viewer.py:149-150 | each row a batch puts on top shows the commits put behind it |
| Viewer.UpToRowShows | viewer.py:132-150 | the same for every prefix of the loop |
| Viewer.UpdateKeepsAligned | viewer.py:149-151 | putting a batch on top keeps the table, `grid_data` and `row_count` in agreement, row for row |
| Viewer.GetRowOnPosition | viewer.py:219-245 | a column at most 1, or a region other than `cell`, gives `None`; otherwise the kept commit at `grid_data[row][col-2]`, and `IndexError` outside the grid |
| Viewer.ClickedCellShowsCommit | viewer.py:219-245 | in an agreeing window a click reaches exactly the commit whose text the clicked cell shows, and `None` for an empty cell |
| Viewer.ControlClick | viewer.py:183-199 | a link opens exactly for a kept commit with a non-empty hash, and it is the origin followed by the hash; a missing hash raises `TypeError` |
| Viewer.CellDoubleClick | viewer.py:203-217 | `git show` runs for exactly the commits a control-click would open, with that commit's hash |
| Viewer.ControlClickOpensShownCommit | viewer.py:183-199 | in an agreeing window, a control-click on a commit's text opens that commit's link, provided no other commit kept behind the same row shows the same text |
| Viewer.ControlClickOnSingleCommitRow | viewer.py:183-199 | on a row that keeps a single commit, a control-click on its text opens that commit's link |
| TkGeometry.Offset | core/tkinter/TkUtil.py:92-93 | `int(area/2 - form/2)`: the space left over is split evenly, the odd unit on the far side; truncation toward zero when the form is larger |
| TkGeometry.OffsetUnique | core/tkinter/TkUtil.py:92-93 | any position balanced as `Offset` promises is that offset |
| TkGeometry.Format | core/tkinter/TkUtil.py:100 | the geometry text starts with the width and `x` |
| TkGeometry.Parse | core/tkinter/TkUtil.py:100 | a text that reads as a geometry has three `+` fields |
| TkGeometry.FormatParseRoundTrip | core/tkinter/TkUtil.py:100 | every geometry text reads back as the geometry it was written from, negative offsets included |
| TkGeometry.CalculateGeometry | core/tkinter/TkUtil.py:89-100 | the result reads as a geometry with the form's size, centred on the screen in both directions |
| TkGeometry.FullHdExample | core/tests/test_tk.py:17-35 | a 250 by 150 form on 1920 by 1080 gives `250x150+835+465` |
| AuthorCheck.LowerIdempotent | devtools/am-c/amc.py:46 | putting a text in lower case twice is doing it once |
| AuthorCheck.Normalize | devtools/am-c/amc.py:93 | `strip().lower()` removes Python's whitespace at both ends and lowers the letters one by one, so the result is never longer than the text (Python's few one-to-many lower cases excepted, see Left out) |
| AuthorCheck.CapitalUmlautMatches | devtools/am-c/amc.py:93 | `JÜRGEN` and `jürgen` followed by a no-break space normalize to the same `jürgen` |
| AuthorCheck.NormalizeIsNormal | devtools/am-c/amc.py:93 | a normalized text is stripped and in lower case |
| AuthorCheck.NormalizeIdempotent | devtools/am-c/amc.py:93 | normalizing twice changes nothing |
| AuthorCheck.NormalFixed | devtools/am-c/amc.py:93 | a stripped lower-case text is its own normal form |
| AuthorCheck.GetAuthorEmail | devtools/am-c/amc.py:39-46 | a failing git call exits with code 1; otherwise the author string is stripped and in lower case |
| AuthorCheck.WhitelistEntries | devtools/am-c/amc.py:90-94 | at most one entry per line |
| AuthorCheck.WhitelistEntriesAppend | devtools/am-c/amc.py:90-94 | the kept lines keep their order across two stretches of the file |
| AuthorCheck.WhitelistMember | devtools/am-c/amc.py:90-94 | an author is listed exactly when some line not starting with a line break, a blank or `#` normalizes to it |
| AuthorCheck.WhitelistNormal | devtools/am-c/amc.py:93 | every file entry is stripped and in lower case |
| AuthorCheck.ParseWhitelistFile | devtools/am-c/amc.py:80-94 | a missing file exits with code 1 and a message naming the path; otherwise the entries of its lines |
| AuthorCheck.GetEnv | devtools/am-c/amc.py:53-60 | a missing or empty variable exits with code 1; otherwise the stripped value cut at its line breaks, which joined back give the stripped value |
| AuthorCheck.WhitelistPath | devtools/am-c/amc.py:97-101 | a non-empty custom path wins; otherwise `whitelist.amc` |
| AuthorCheck.Fetch | devtools/am-c/amc.py:71-78 | secret mode reads the variable; otherwise the file, which must exist |
| AuthorCheck.Cmp | devtools/am-c/amc.py:149-156 | success exactly when the author is on the list; otherwise exit code 1, with a message naming the author only outside secret mode |
| AuthorCheck.SecretModeHidesAuthor | devtools/am-c/amc.py:150-152 | in secret mode two failing authors get the same failure |
| AuthorCheck.RunCheck | devtools/am-c/amc.py:134-147 | every failure exits with code 1, and a white list failure comes first |
| AuthorCheck.FileCheckPasses | devtools/am-c/amc.py:134-156 | with a file, the check passes exactly when the file exists, git answers, and some kept line normalizes to the normalized author |
| AuthorCheck.SecretCheckPasses | devtools/am-c/amc.py:134-156 | in secret mode, the check passes exactly when the variable is set, git answers, and one of its lines is the normalized author |
| TestDiscovery.IgnoredName | run_tests.py:56 | `strip().strip('/')` leaves no slash at either end |
| TestDiscovery.LoadGitIgnoreFolders | run_tests.py:46-56 | the initial ignored folders stay first, with at most one addition per line |
| TestDiscovery.IgnoredAfterLoad | run_tests.py:46-56 | a folder is ignored after loading exactly when it was before, or some line starting with `/` names it |
| TestDiscovery.LoadOneMoreLine | run_tests.py:54-56 | one more line adds its folder name at the end when it starts with `/`, and nothing otherwise |
| TestDiscovery.GetAllowedFolders | run_tests.py:58-65 | no more allowed folders than root folders |
| TestDiscovery.AllowedMember | run_tests.py:63-65 | a folder is allowed exactly when it is at the root and not ignored |
| TestDiscovery.NothingIgnored | run_tests.py:63-65 | without ignored folders among them, every root folder is allowed, in order |
| TestDiscovery.TestRoots | run_tests.py:72-76 | no more test folders than walked directories |
| TestDiscovery.TestFolders | run_tests.py:67-79 | the test folders of the allowed folders, folder after folder, each in walking order |
| TestDiscovery.TestFolderMember | run_tests.py:67-79 | a path is a test folder exactly when its name ends with `tests` and walking some allowed folder visits it |
| TestDiscovery.WalkAllowedFolders | run_tests.py:67-79 | the walk collects the test folders of each allowed folder in turn, and every one ends with `tests` |
| TestDiscovery.UnitTestCmd | run_tests.py:27 | `python -m unittest discover -s` followed by the folder |
| TestDiscovery.RunTestCmds | run_tests.py:81-84 | one command per test folder, in order |
| TestDiscovery.CommandSearchesFolder | run_tests.py:27 | each command searches the folder it was made for |
| TestDiscovery.RunMain | run_tests.py:29-56 | a missing `.gitignore` raises; otherwise debug mode lists the test folders and a run makes one command per folder |
| TestDiscovery.RunMatchesDebugListing | run_tests.py:29-84 | a run executes exactly the folders debug mode lists, in order, each inside a root folder that is not ignored |

## Left out

- Processes, files and the environment: running `git`, reading the dummy log, `.gitignore`, the ini file, the white list and environment variables. The model takes their outcome as a parameter (an answer, or `None` for a failure or a missing file).
- ISO-8601 date parsing, `datetime.now()` and `strftime`. These are the parameters `IsoParser`, `now` and `DateText`, because the model has no calendar.
- Threads, `time.sleep`, signal handlers and the Tk `after` scheduling of `update_observation` and `run`. Only one step of each loop is modelled, because timing and concurrency are outside a pure model.
- Tk widgets, `webbrowser` and message dialogs. The model returns the cell texts, the link to open and the dialog text, and does not draw them.
- `create_form`, `calculate_form_geometry` (floating-point percentages), `ToplevelModal` and the configuration dialog. They are widget layout with no logic beyond `__calculate_geometry__`, which is modelled.
- `argparse` and `configparser` internals: the parsed command line and the ini sections are maps from names to texts.
- Logging calls, the `print` of "Nothing changed" and the printing in `handle_log_response`. They produce output only.
- `ObservationUtil`, `TypeUtil`, `OnStatus` and `SignalReceiver` are not part of this model. They are modelled from the code that uses them:
  - record parsing takes its field order and its error order from `collect_commit_messages` in `GitObserver.py`, and keeps the branch field as it is, without the line break that copy appends, as `core/tests/test_transport.py` expects;
  - value parsing follows `parse_value` in `core/config.py`;
  - the empty check follows `is_empty` in `GitObserverViewer.py`.
- Observer.LoadObservations: the git commands are returned as one list after the folder loop. The source issues them between the folders, in the same order.
- Shell.CommitText: `cmt.origin` is read as the observer's configured origin. `Commit` has no such attribute, and the parser gets `self.origin`.
- ConfigValues.ParseValue: `int()` also accepts decimal digits outside ASCII (`"٣"` is 3). The model reads only ASCII digits, with optional underscore grouping, and raises ValueError for the others.
- TkGeometry.Offset: the halves are taken as exact. That holds for every screen and form size a float represents exactly, which is below 2^53.
- TestDiscovery.TestFolders: `pathlib.Path(root)` is taken to be the walked path itself.
- AuthorCheck.Normalize: `lower()` is modelled for the capitals of ASCII, Latin-1, Greek and the basic Cyrillic alphabet; other Unicode capitals (`Ł`, `Ā`, …) and the Greek `Σ`, whose lower case depends on its place in the word, are kept as they are, and the lower cases that Python writes with two characters (`'İ'.lower()`) are not modelled. Stripping follows Python's whitespace exactly.
- AuthorCheck.GetAuthorEmail: an author whose name has a capital outside those alphabets is not lowered as Python lowers it, for the reason given for `AuthorCheck.Normalize`.
- AuthorCheck.WhitelistMember: a white-list line and an author that differ only in a capital outside those alphabets match in Python but not in the model.
- AuthorCheck.FileCheckPasses: the pass condition uses the model's `Normalize`, so it differs from Python only for capitals outside those alphabets.
- AuthorCheck.SecretCheckPasses: the same restriction of `Normalize` applies to the author.
- `ObservationEvent` and `ObservationEventArgs` are not part of this model. `OnLoaded` is modelled like `StatusEvent` (core/event.py:46-47): the batch is wrapped in an argument object, as `observer_loaded` in `viewer.py` reads it back through `observations`.

## Findings

| source | as written | input that shows it | evidently intended | confidence | as-written member | corrected member |
|---|---|---|---|---|---|---|
| GitObserverViewer.py:171 | the link cell reads `commit.link`, and `Commit` has no `link` attribute | any observation with at least one commit | the link is the origin followed by the hash, as `viewer.py` builds it | high, not executed | LegacyViewer.NonEmptyBatchRaises | LegacyViewer.CommitShown |
| GitObserverViewer.py:48 | the guard for the date column tests `col_num == 0`, but Tk names the first data column `#1` | a click on the date cell of any row | clicks on the date column open nothing, as the `col_num <= 1` guard in `viewer.py` does | high, not executed | LegacyViewer.DateCellOpensTimestamp | LegacyViewer.FixedClickOnlyOnLinks |
| GitObserverViewer.py:200 | `range(1, len(column_names) - 1)` stops before the last column | any table, whose last column is the link column of the last folder | every column after the date is formatted, as `range(1, len(column_names))` in `viewer.py` does | medium, not executed | LegacyViewer.LastColumnUnformatted | LegacyViewer.EveryColumnFormatted |
| GitObserver.py:107 | every line of the answer is split into fields, the empty last line included | an empty answer (a folder with no commits in the week), or one ending in a line break | the read stops at the end of the stream (the first empty read), as `read_git_commits` in `observer.py` does; a blank line before the end reads as a line break and is parsed | high, not executed | LegacyObserver.TrailingLineBreakFails | Observer.ReadStopsAtEndOfStream |
