/** core/config/parser.py: the two configuration sources of the newer
    configuration code.  The INI source reads the options its `Default`
    section gives; the argument source reads the options argparse found.
    Each returns only the options that were given a truthy value, converted
    by the type of their default. */
module ConfigParsers {
  import opened Outcomes
  import opened Text
  import opened ConfigValues

  /** The default an option converts to: its entry in the defaults, `None`
      for an option the defaults do not list. */
  function GivenDefault(d: Defaults, key: string): (v: Value)
    ensures key in Names(d) ==> v == DefaultOf(d, key)
    ensures key !in Names(d) ==> v == Null
  {
    if key in Names(d) then DefaultOf(d, key) else Null
  }

  /** Whether one given option passes: a known name when names are checked,
      and a value that converts when it is truthy. */
  predicate Accepted(entry: (string, Value), d: Defaults, strict: bool) {
    (!strict || entry.0 in Names(d))
    && (Truthy(entry.1) ==> ParseValue(entry.1, GivenDefault(d, entry.0)).Ok?)
  }

  /** The loop both `parse_config` methods run over the options they were
      given, in order.  With `strict`, an option the defaults do not list
      raises `KeyError` before its value is looked at.  Only truthy values
      are kept, converted by the type of their default; as with the loop's
      assignments, a name given again later keeps its later value. */
  function CollectGiven(given: seq<(string, Value)>, d: Defaults, strict: bool): (r: Result<Namespace, ConfigError>)
    ensures r.Ok? <==> forall i :: 0 <= i < |given| ==> Accepted(given[i], d, strict)
    ensures r.Ok? ==> forall k :: k in r.value ==> exists i :: 0 <= i < |given| && given[i].0 == k && Truthy(given[i].1)
  {
    if |given| == 0 then Ok(map[])
    else
      var (key, value) := given[0];
      assert forall i :: 1 <= i < |given| ==> given[i] == given[1..][i - 1];
      if strict && key !in Names(d) then Err(KeyError)
      else if !Truthy(value) then CollectGiven(given[1..], d, strict)
      else
        match ParseValue(value, GivenDefault(d, key))
        case Err(e) => Err(e)
        case Ok(v) =>
          match CollectGiven(given[1..], d, strict)
          case Err(e) => Err(e)
          case Ok(ns) => Ok(if key in ns then ns else ns[key := v])
  }

  /** A name given twice ends up with its second value, as the second
      assignment of the loop overwrites the first. */
  lemma LaterValueWins(key: string, first: Value, second: Value, d: Defaults, strict: bool)
    requires Truthy(first) && Truthy(second)
    requires CollectGiven([(key, first), (key, second)], d, strict).Ok?
    ensures var ns := CollectGiven([(key, first), (key, second)], d, strict).value;
            ns.Keys == {key} && ParseValue(second, GivenDefault(d, key)) == Ok(ns[key])
  {
    var given := [(key, first), (key, second)];
    assert given[1..] == [(key, second)];
    assert given[1..][1..] == [];
  }

  /** When every truthy value converts, the strict loop fails exactly when
      some option is not a default, and then with `KeyError`. */
  lemma {:induction false} UnknownOptionRaises(given: seq<(string, Value)>, d: Defaults)
    requires forall i :: 0 <= i < |given| && Truthy(given[i].1) ==>
               ParseValue(given[i].1, GivenDefault(d, given[i].0)).Ok?
    ensures CollectGiven(given, d, true).Err? <==> exists i :: 0 <= i < |given| && given[i].0 !in Names(d)
    ensures CollectGiven(given, d, true).Err? ==> CollectGiven(given, d, true).error == KeyError
  {
    if |given| > 0 {
      assert forall i :: 1 <= i < |given| ==> given[i] == given[1..][i - 1];
      UnknownOptionRaises(given[1..], d);
      if given[0].0 in Names(d) && exists i :: 0 <= i < |given| && given[i].0 !in Names(d) {
        var i :| 0 <= i < |given| && given[i].0 !in Names(d);
        assert given[1..][i - 1].0 !in Names(d);
      }
    }
  }

  /** `IniConfigParser`: the defaults and the INI file it reads. */
  datatype IniConfigParser = IniConfigParser(defaultConfig: Defaults, configIniFile: string)

  /** `has_config`: the file exists. */
  predicate IniHasConfig(p: IniConfigParser, files: Files) {
    p.configIniFile in files
  }

  /** The options of a section as given values. */
  function SectionValues(section: IniSection): (given: seq<(string, Value)>)
    ensures |given| == |section|
    ensures forall i :: 0 <= i < |section| ==> given[i] == (section[i].0, Str(section[i].1))
  {
    seq(|section|, i requires 0 <= i < |section| => (section[i].0, Str(section[i].1)))
  }

  /** `IniConfigParser.parse_config`: a file without a `Default` section (a
      missing file reads as one) raises `RuntimeError`; an option the
      defaults do not list raises `KeyError`; otherwise the options with a
      non-empty text, converted. */
  function IniParseConfig(p: IniConfigParser, files: Files): (r: Result<Namespace, ConfigError>)
    ensures "Default" !in ReadIni(files, p.configIniFile) ==> r == Err(RuntimeError)
    ensures "Default" in ReadIni(files, p.configIniFile) ==>
              r == CollectGiven(SectionValues(ReadIni(files, p.configIniFile)["Default"]), p.defaultConfig, true)
    ensures r.Ok? ==> forall k :: k in r.value ==> k in Names(p.defaultConfig)
  {
    var doc := ReadIni(files, p.configIniFile);
    if "Default" !in doc then Err(RuntimeError)
    else
      var given := SectionValues(doc["Default"]);
      var r := CollectGiven(given, p.defaultConfig, true);
      assert r.Ok? ==> forall i :: 0 <= i < |given| ==> Accepted(given[i], p.defaultConfig, true);
      r
  }

  /** `IniConfigParser.install`: writes the defaults to the file unless it
      exists.  The two flag assignments after the loop set attributes of the
      section object, not options, so the file holds the flags of the
      defaults. */
  function IniInstall(p: IniConfigParser, files: Files): (files': Files)
    ensures IniHasConfig(p, files) ==> files' == files
    ensures IniHasConfig(p, files')
    ensures !IniHasConfig(p, files) ==> files' == files[p.configIniFile := InstalledDoc(p.defaultConfig)]
  {
    if IniHasConfig(p, files) then files
    else files[p.configIniFile := InstalledDoc(p.defaultConfig)]
  }

  /** With distinct names, a truthy option is in the result with its
      converted value. */
  lemma {:induction false} CollectedAt(given: seq<(string, Value)>, d: Defaults, strict: bool, i: nat)
    requires CollectGiven(given, d, strict).Ok?
    requires i < |given| && Truthy(given[i].1)
    requires forall j :: 0 <= j < |given| && j != i ==> given[j].0 != given[i].0
    ensures var ns := CollectGiven(given, d, strict).value;
            given[i].0 in ns && ParseValue(given[i].1, GivenDefault(d, given[i].0)) == Ok(ns[given[i].0])
  {
    var rest := given[1..];
    assert forall j :: 1 <= j < |given| ==> given[j] == rest[j - 1];
    assert CollectGiven(rest, d, strict).Ok?;
    if i > 0 {
      CollectedAt(rest, d, strict, i - 1);
    } else {
      assert given[0].0 !in CollectGiven(rest, d, strict).value;
    }
  }

  /** With distinct names, an option with a falsy value is not in the result. */
  lemma SkippedAt(given: seq<(string, Value)>, d: Defaults, strict: bool, i: nat)
    requires CollectGiven(given, d, strict).Ok?
    requires i < |given| && !Truthy(given[i].1)
    requires forall j :: 0 <= j < |given| && j != i ==> given[j].0 != given[i].0
    ensures given[i].0 !in CollectGiven(given, d, strict).value
  {
  }

  /** Some truthy option makes the result non-empty, and only then. */
  lemma {:induction false} CollectedAny(given: seq<(string, Value)>, d: Defaults, strict: bool)
    requires CollectGiven(given, d, strict).Ok?
    ensures |CollectGiven(given, d, strict).value| > 0 <==> exists i :: 0 <= i < |given| && Truthy(given[i].1)
  {
    var ns := CollectGiven(given, d, strict).value;
    if |given| > 0 {
      assert forall i :: 1 <= i < |given| ==> given[i] == given[1..][i - 1];
      CollectedAny(given[1..], d, strict);
      if Truthy(given[0].1) {
        assert given[0].0 in ns.Keys;
      } else if exists i :: 0 <= i < |given| && Truthy(given[i].1) {
        var i :| 0 <= i < |given| && Truthy(given[i].1);
        assert Truthy(given[1..][i - 1].1);
      }
    }
    if |ns| > 0 {
      var k :| k in ns.Keys;
    }
  }

  /** What a freshly installed file reads as: the installed section. */
  lemma InstalledRead(p: IniConfigParser, files: Files)
    requires !IniHasConfig(p, files)
    ensures IniParseConfig(p, IniInstall(p, files))
            == CollectGiven(SectionValues(InstalledSection(p.defaultConfig)), p.defaultConfig, true)
  {
    assert ReadIni(IniInstall(p, files), p.configIniFile)["Default"] == InstalledSection(p.defaultConfig);
  }

  /** A freshly installed file reads back without raising: every default
      whose text is not empty comes back as that text converted by its own
      type, and a default whose text is empty is left out. */
  lemma InstalledReadBack(p: IniConfigParser, files: Files)
    requires !IniHasConfig(p, files) && DistinctNames(p.defaultConfig)
    ensures IniParseConfig(p, IniInstall(p, files)).Ok?
    ensures var r := IniParseConfig(p, IniInstall(p, files)).value;
            var d := p.defaultConfig;
            forall i :: 0 <= i < |d| ==> (d[i].0 in r <==> IniText(d[i].1) != "")
    ensures var r := IniParseConfig(p, IniInstall(p, files)).value;
            var d := p.defaultConfig;
            forall i :: 0 <= i < |d| && IniText(d[i].1) != "" ==>
              ParseValue(Str(IniText(d[i].1)), d[i].1) == Ok(r[d[i].0])
  {
    var d := p.defaultConfig;
    var given := SectionValues(InstalledSection(d));
    InstalledRead(p, files);
    forall i | 0 <= i < |d| ensures GivenDefault(d, given[i].0) == d[i].1 {
      DefaultOfFirst(d, i);
    }
    forall i | 0 <= i < |d| ensures Accepted(given[i], d, true) {
      assert Names(d)[i] == given[i].0;
      IniTextParses(d[i].1);
    }
    forall i | 0 <= i < |d|
      ensures d[i].0 in CollectGiven(given, d, true).value <==> IniText(d[i].1) != ""
      ensures IniText(d[i].1) != "" ==>
                ParseValue(Str(IniText(d[i].1)), d[i].1) == Ok(CollectGiven(given, d, true).value[d[i].0])
    {
      CollectedOrSkipped(given, d, true, i);
    }
  }

  /** With distinct names, an option is in the result exactly when its value
      is truthy, and then holds its converted value. */
  lemma CollectedOrSkipped(given: seq<(string, Value)>, d: Defaults, strict: bool, i: nat)
    requires CollectGiven(given, d, strict).Ok?
    requires i < |given|
    requires forall j :: 0 <= j < |given| && j != i ==> given[j].0 != given[i].0
    ensures given[i].0 in CollectGiven(given, d, strict).value <==> Truthy(given[i].1)
    ensures Truthy(given[i].1) ==>
              ParseValue(given[i].1, GivenDefault(d, given[i].0)) == Ok(CollectGiven(given, d, strict).value[given[i].0])
  {
    if Truthy(given[i].1) {
      CollectedAt(given, d, strict, i);
    } else {
      SkippedAt(given, d, strict, i);
    }
  }

  /** The flags of the standard defaults read back `True` from a fresh
      installation, whatever they were: `"False"` is a truthy text.  The
      two flag assignments after the loop of `install` therefore change
      nothing that is read. */
  lemma InstalledFlagsReadTrue(p: IniConfigParser, files: Files, baseDir: string, flags: bool)
    requires p.defaultConfig == StandardDefaults(baseDir, flags) && !IniHasConfig(p, files)
    ensures IniParseConfig(p, IniInstall(p, files)).Ok?
    ensures var r := IniParseConfig(p, IniInstall(p, files)).value;
            "show_viewer" in r && "descending" in r && "ignore" !in r
    ensures var r := IniParseConfig(p, IniInstall(p, files)).value;
            "show_viewer" in r && "descending" in r ==> r["show_viewer"] == Bool(true) && r["descending"] == Bool(true)
  {
    var d := p.defaultConfig;
    OptionNamesDistinct();
    InstalledReadBack(p, files);
    assert d[3].0 == "ignore" && d[4].0 == "show_viewer" && d[5].0 == "descending";
    assert IniText(d[3].1) == "";
  }

  /** The long option names `build_parser` registers, in order. */
  const LongOptions: seq<string> :=
    ["--origin", "--filepath", "--logfolders", "--ignore", "--show-viewer", "--descending", "--config-file"]

  /** argparse's destination for a long option: the name without its two
      leading dashes, with the remaining dashes turned into underscores. */
  function DestOf(option: string): (dest: string)
    requires |option| >= 2
    ensures |dest| == |option| - 2 && '-' !in dest
  {
    ReplaceChar(option[2..], '-', '_')
  }

  /** The destinations, which are the keys of argparse's namespace. */
  function ArgDests(): (dests: seq<string>)
    ensures |dests| == |LongOptions|
    ensures forall i :: 0 <= i < |LongOptions| ==> dests[i] == DestOf(LongOptions[i])
  {
    seq(|LongOptions|, i requires 0 <= i < |LongOptions| => DestOf(LongOptions[i]))
  }

  /** A destination leads back to its option, as the repository's parser test
      rebuilds the options: two dashes, underscores turned into dashes. */
  lemma OptionFromDest(i: nat)
    requires i < |LongOptions|
    ensures "--" + ReplaceChar(ArgDests()[i], '_', '-') == LongOptions[i]
  {
    var option := LongOptions[i];
    assert '_' !in option[2..];
    ReplaceBack(option[2..], '-', '_');
    assert option == option[..2] + option[2..];
  }

  /** `ArgConfigParser`: the defaults and the list `build_parser` fills with
      the destinations it registers. */
  datatype ArgConfigParser = ArgConfigParser(defaultConfig: Defaults, registeredArgs: seq<string>)

  /** `build_parser`: the registered list is cleared, then holds every
      destination in order. */
  function BuildParser(p: ArgConfigParser): (p': ArgConfigParser)
    ensures p'.defaultConfig == p.defaultConfig
    ensures |p'.registeredArgs| == |LongOptions|
    ensures forall i :: 0 <= i < |LongOptions| ==> p'.registeredArgs[i] == DestOf(LongOptions[i])
  {
    p.(registeredArgs := ArgDests())
  }

  /** Building twice registers the same list as building once. */
  lemma BuildParserIdempotent(p: ArgConfigParser)
    ensures BuildParser(BuildParser(p)) == BuildParser(p)
  {
  }

  /** The destinations of the options without inner dashes. */
  lemma PlainDests()
    ensures ArgDests()[0] == "origin" && ArgDests()[1] == "filepath" && ArgDests()[2] == "logfolders"
    ensures ArgDests()[3] == "ignore" && ArgDests()[5] == "descending"
  {
    assert LongOptions[0][2..] == "origin";
    assert LongOptions[1][2..] == "filepath";
    assert LongOptions[2][2..] == "logfolders";
    assert LongOptions[3][2..] == "ignore";
    assert LongOptions[5][2..] == "descending";
  }

  /** The destinations of the two options with an inner dash. */
  lemma DashedDests()
    ensures ArgDests()[4] == "show_viewer" && ArgDests()[6] == "config_file"
  {
    assert LongOptions[4][2..] == "show-viewer";
    assert LongOptions[6][2..] == "config-file";
  }

  /** Every option of the standard defaults is registered, and so is the
      configuration file. */
  lemma EveryDefaultRegistered(p: ArgConfigParser)
    ensures forall k :: k in OptionNames ==> k in BuildParser(p).registeredArgs
    ensures "config_file" in BuildParser(p).registeredArgs
  {
    var r := BuildParser(p).registeredArgs;
    PlainDests();
    DashedDests();
    assert r == ArgDests();
  }

  /** `ArgConfigParser.parse_config`, from argparse's namespace `args` on:
      every argument with a truthy value, converted by the type of its
      default; an argument without a default is kept as it is. */
  function ArgParseConfig(p: ArgConfigParser, args: seq<(string, Value)>)
    : (result: (ArgConfigParser, Result<Namespace, ConfigError>))
    ensures result.0 == BuildParser(p)
    ensures result.1 == CollectGiven(args, p.defaultConfig, false)
  {
    (BuildParser(p), CollectGiven(args, p.defaultConfig, false))
  }

  /** An argument the defaults do not list passes through unchanged. */
  lemma UnlistedArgumentKept(p: ArgConfigParser, args: seq<(string, Value)>, i: nat)
    requires i < |args| && Truthy(args[i].1) && args[i].0 !in Names(p.defaultConfig)
    requires forall j :: 0 <= j < |args| && j != i ==> args[j].0 != args[i].0
    ensures var r := ArgParseConfig(p, args).1;
            r.Ok? ==> args[i].0 in r.value && r.value[args[i].0] == args[i].1
  {
    if ArgParseConfig(p, args).1.Ok? {
      CollectedAt(args, p.defaultConfig, false, i);
    }
  }

  /** `ArgConfigParser.has_config`: whether any argument came out. */
  function ArgHasConfig(p: ArgConfigParser, args: seq<(string, Value)>)
    : (result: (ArgConfigParser, Result<bool, ConfigError>))
    ensures result.0 == BuildParser(p)
    ensures result.1.Err? <==> ArgParseConfig(p, args).1.Err?
    ensures result.1.Ok? ==> (result.1.value <==> exists i :: 0 <= i < |args| && Truthy(args[i].1))
  {
    match ArgParseConfig(p, args).1
    case Err(e) => (BuildParser(p), Err(e))
    case Ok(ns) =>
      CollectedAny(args, p.defaultConfig, false);
      (BuildParser(p), Ok(|ns| > 0))
  }
}
