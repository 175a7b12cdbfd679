/** core/config.py: `ConfigHandler`, the older configuration front end.  It
    installs a default `config.ini` when there is none, reads the `Default`
    section of an INI file, or takes the command-line options, and fills
    every option it knows from one of them or from its defaults. */
module ConfigHandler {
  import opened Outcomes
  import opened Text
  import opened ConfigValues

  /** `config_names_ini_defaults`: the defaults written to and read with a file. */
  function IniDefaults(baseDir: string): (d: Defaults)
    ensures Names(d) == OptionNames
    ensures forall i :: 4 <= i < 6 ==> d[i].1 == Bool(true)
  {
    StandardDefaults(baseDir, true)
  }

  /** `config_name_defaults`: the option names `parse_arguments` walks. */
  function NameDefaults(baseDir: string): (d: Defaults)
    ensures Names(d) == Names(IniDefaults(baseDir))
    ensures forall i :: 4 <= i < 6 ==> d[i].1 == Bool(false)
  {
    StandardDefaults(baseDir, false)
  }

  /** The handler: the INI file it works on. */
  datatype Handler = Handler(configIniFile: string)

  /** `ConfigHandler()`: starts on the standard `config.ini` path. */
  function NewHandler(configIni: string): (h: Handler)
    ensures h.configIniFile == configIni
  {
    Handler(configIni)
  }

  /** `config_exists`: the handler's file is an existing file. */
  predicate ConfigExists(h: Handler, files: Files) {
    h.configIniFile in files
  }

  /** `install`: writes the file defaults to the handler's file unless that
      file exists; no other file changes. */
  function Install(h: Handler, files: Files, baseDir: string): (files': Files)
    ensures ConfigExists(h, files) ==> files' == files
    ensures ConfigExists(h, files')
    ensures !ConfigExists(h, files) ==> files'[h.configIniFile] == InstalledDoc(IniDefaults(baseDir))
    ensures forall p :: p != h.configIniFile ==> (p in files' <==> p in files)
    ensures forall p :: p in files && p != h.configIniFile ==> files'[p] == files[p]
  {
    if ConfigExists(h, files) then files
    else files[h.configIniFile := InstalledDoc(IniDefaults(baseDir))]
  }

  /** What one option becomes: a truthy given value converted by the type of
      the default, otherwise the default itself. */
  function Resolve(given: Value, default: Value): (r: Result<Value, ConfigError>)
    ensures !Truthy(given) ==> r == Ok(default)
    ensures Truthy(given) ==> r == ParseValue(given, default)
    ensures r.Err? ==> r.error != RuntimeError && r.error != KeyError
  {
    if Truthy(given) then ParseValue(given, default) else Ok(default)
  }

  /** The loop shared by `parse_config_file` and `parse_arguments`: every
      default option, in order, resolved against the value given for it;
      the first conversion that raises ends the loop. */
  function FillFromDefaults(d: Defaults, given: string -> Value): (r: Result<Namespace, ConfigError>)
    ensures r.Ok? <==> forall i :: 0 <= i < |d| ==> Resolve(given(d[i].0), d[i].1).Ok?
    ensures r.Err? ==> r.error != RuntimeError && r.error != KeyError
  {
    if |d| == 0 then Ok(map[])
    else
      match Resolve(given(d[0].0), d[0].1)
      case Err(e) => Err(e)
      case Ok(v) =>
        assert forall i :: 1 <= i < |d| ==> d[i] == d[1..][i - 1];
        match FillFromDefaults(d[1..], given)
        case Err(e) => Err(e)
        case Ok(ns) => Ok(ns[d[0].0 := v])
  }

  /** A filled namespace holds exactly the names of the defaults, each with
      the resolution of what is given for it against its default (the
      first entry of a name, as `DefaultOf` finds it). */
  lemma {:induction false} FillContents(d: Defaults, given: string -> Value)
    requires FillFromDefaults(d, given).Ok?
    ensures var ns := FillFromDefaults(d, given).value;
            forall k :: k in ns <==> k in Names(d)
    ensures var ns := FillFromDefaults(d, given).value;
            forall k :: k in ns ==> k in Names(d) && Resolve(given(k), DefaultOf(d, k)) == Ok(ns[k])
  {
    if |d| > 0 {
      var v := Resolve(given(d[0].0), d[0].1).value;
      FillContents(d[1..], given);
      var rest := FillFromDefaults(d[1..], given).value;
      var ns := FillFromDefaults(d, given).value;
      assert ns == rest[d[0].0 := v];
      assert Names(d) == [d[0].0] + Names(d[1..]);
      forall k | k in ns ensures k in Names(d) && Resolve(given(k), DefaultOf(d, k)) == Ok(ns[k]) {
        if k != d[0].0 {
          assert k in rest;
        }
      }
    }
  }

  /** The error is the one of the first option whose conversion raises. */
  lemma {:induction false} FillFirstError(d: Defaults, given: string -> Value)
    requires FillFromDefaults(d, given).Err?
    ensures exists i :: 0 <= i < |d| && Resolve(given(d[i].0), d[i].1) == Err(FillFromDefaults(d, given).error)
                       && forall j :: 0 <= j < i ==> Resolve(given(d[j].0), d[j].1).Ok?
  {
    if Resolve(given(d[0].0), d[0].1).Ok? {
      FillFirstError(d[1..], given);
      var i :| 0 <= i < |d| - 1 && Resolve(given(d[1..][i].0), d[1..][i].1) == Err(FillFromDefaults(d, given).error)
               && forall j :: 0 <= j < i ==> Resolve(given(d[1..][j].0), d[1..][j].1).Ok?;
      assert forall j :: 1 <= j < i + 1 ==> d[j] == d[1..][j - 1];
      assert Resolve(given(d[i + 1].0), d[i + 1].1) == Err(FillFromDefaults(d, given).error);
    }
  }

  /** When every option resolves to its own default, the result is the
      namespace of the defaults. */
  lemma {:induction false} ResolvesToDefaults(d: Defaults, given: string -> Value)
    requires forall i :: 0 <= i < |d| ==> Resolve(given(d[i].0), d[i].1) == Ok(d[i].1)
    ensures FillFromDefaults(d, given) == Ok(AsNamespace(d))
  {
    if |d| > 0 {
      assert forall i :: 0 <= i < |d| - 1 ==> d[1..][i] == d[i + 1];
      ResolvesToDefaults(d[1..], given);
    }
  }

  /** The value of an option in the `Default` section, `None` when absent. */
  function FileValue(section: IniSection, key: string): (v: Value)
    ensures v == Null || v.Str?
    ensures v.Str? <==> SectionGet(section, key).Some?
  {
    match SectionGet(section, key)
    case Some(t) => Str(t)
    case None => Null
  }

  /** `parse_config_file`: a file without a `Default` section (a missing file
      reads as one) raises `RuntimeError`; otherwise every file default is
      taken from the section where it is given a non-empty text. */
  function ParseConfigFile(h: Handler, files: Files, baseDir: string): (r: Result<Namespace, ConfigError>)
    ensures r == Err(RuntimeError) <==> "Default" !in ReadIni(files, h.configIniFile)
    ensures r.Ok? ==> forall k :: k in r.value <==> k in OptionNames
    ensures "Default" in ReadIni(files, h.configIniFile) ==>
              r == FillFromDefaults(IniDefaults(baseDir), k => FileValue(ReadIni(files, h.configIniFile)["Default"], k))
  {
    var doc := ReadIni(files, h.configIniFile);
    if "Default" !in doc then Err(RuntimeError)
    else
      var r := FillFromDefaults(IniDefaults(baseDir), k => FileValue(doc["Default"], k));
      if r.Ok? then FillContents(IniDefaults(baseDir), k => FileValue(doc["Default"], k)); r
      else r
  }

  /** `no_args_fallback`: installs the file when it is missing, then reads it. */
  function NoArgsFallback(h: Handler, files: Files, baseDir: string): (result: (Files, Result<Namespace, ConfigError>))
    ensures result.0 == Install(h, files, baseDir)
    ensures ConfigExists(h, files) ==> result == (files, ParseConfigFile(h, files, baseDir))
  {
    var files' := Install(h, files, baseDir);
    (files', ParseConfigFile(h, files', baseDir))
  }

  /** The text `install` writes for each kind of file default resolves
      back to that default. */
  lemma InstalledValueResolves(v: Value)
    requires v.Str? || v == List(["."]) || v == List([]) || v == Bool(true)
    ensures Resolve(Str(IniText(v)), v) == Ok(v)
  {
    if v == List(["."]) {
      assert IniText(v) == "." by {
        assert ["."][1..] == [];
      }
      JoinThenSplit(["."], ',');
      StripOfStripped(".");
      assert ParseList(".") == ["."];
    } else if v == List([]) {
      assert IniText(v) == "";
    }
  }

  /** Every option of the installed section resolves to its own default. */
  lemma InstalledOptionsResolveToDefaults(baseDir: string)
    ensures var d := IniDefaults(baseDir);
            forall i :: 0 <= i < |d| ==> Resolve(FileValue(InstalledSection(d), d[i].0), d[i].1) == Ok(d[i].1)
  {
    var d := IniDefaults(baseDir);
    forall i | 0 <= i < |d|
      ensures Resolve(FileValue(InstalledSection(d), d[i].0), d[i].1) == Ok(d[i].1)
    {
      InstalledOptionResolves(baseDir, i);
    }
  }

  /** The same for the option at position `i`. */
  lemma InstalledOptionResolves(baseDir: string, i: nat)
    requires i < |IniDefaults(baseDir)|
    ensures var d := IniDefaults(baseDir);
            Resolve(FileValue(InstalledSection(d), d[i].0), d[i].1) == Ok(d[i].1)
  {
    var d := IniDefaults(baseDir);
    var section := InstalledSection(d);
    InstalledNamesBefore(baseDir, i);
    SectionGetFirst(section, i);
    IniDefaultKind(baseDir, i);
    InstalledValueResolves(d[i].1);
  }

  /** No option of the installed section before position `i` has its name. */
  lemma InstalledNamesBefore(baseDir: string, i: nat)
    requires i < |IniDefaults(baseDir)|
    ensures var section := InstalledSection(IniDefaults(baseDir));
            forall j :: 0 <= j < i ==> section[j].0 != section[i].0
  {
    var d := IniDefaults(baseDir);
    var section := InstalledSection(d);
    OptionNamesDistinct();
    forall j | 0 <= j < i ensures section[j].0 != section[i].0 {
      assert Names(d)[j] == d[j].0 && Names(d)[i] == d[i].0;
    }
  }

  /** The file defaults are texts, the one-folder list, the empty list and
      `True` flags. */
  lemma IniDefaultKind(baseDir: string, i: nat)
    requires i < |IniDefaults(baseDir)|
    ensures var v := IniDefaults(baseDir)[i].1;
            v.Str? || v == List(["."]) || v == List([]) || v == Bool(true)
  {
  }

  /** A fresh installation reads back as exactly the file defaults: the
      origin and directory come back as texts, `"."` as the one-folder list,
      the empty ignore list as an empty text that falls back to its default,
      and both flags as `"True"`. */
  lemma FreshInstallReadsIniDefaults(h: Handler, files: Files, baseDir: string)
    requires !ConfigExists(h, files)
    ensures NoArgsFallback(h, files, baseDir).1 == Ok(AsNamespace(IniDefaults(baseDir)))
  {
    var d := IniDefaults(baseDir);
    var files' := Install(h, files, baseDir);
    assert ReadIni(files', h.configIniFile) == InstalledDoc(d);
    InstalledOptionsResolveToDefaults(baseDir);
    ResolvesToDefaults(d, k => FileValue(InstalledSection(d), k));
  }

  /** The value `args.get(key)` finds in argparse's namespace, `None` when absent. */
  function ArgGet(args: Defaults, key: string): (v: Value)
    ensures key !in Names(args) ==> v == Null
    ensures key in Names(args) ==> v == DefaultOf(args, key)
  {
    if key in Names(args) then DefaultOf(args, key) else Null
  }

  /** The `--config-file` argument when it is a non-empty text. */
  function ConfigFileArg(args: Defaults): (path: Option<string>)
    ensures path.Some? <==> ArgGet(args, "config_file").Str? && ArgGet(args, "config_file").s != ""
    ensures path.Some? ==> ArgGet(args, "config_file") == Str(path.value)
  {
    match ArgGet(args, "config_file")
    case Str(p) => if p != "" then Some(p) else None
    case _ => None
  }

  /** `handle_file_argument`: the handler moves to the named file and reads
      it, installing the defaults there first when it does not exist. */
  function HandleFileArgument(h: Handler, files: Files, baseDir: string, path: string)
    : (result: (Handler, Files, Result<Namespace, ConfigError>))
    ensures result.0 == Handler(path)
    ensures path in files ==> result.1 == files && result.2 == ParseConfigFile(Handler(path), files, baseDir)
    ensures path !in files ==> result.1 == files[path := InstalledDoc(IniDefaults(baseDir))]
  {
    var h' := h.(configIniFile := path);
    if ConfigExists(h', files) then (h', files, ParseConfigFile(h', files, baseDir))
    else
      var (files', r) := NoArgsFallback(h', files, baseDir);
      (h', files', r)
  }

  /** `parse_arguments` after argparse: `args` is argparse's namespace.  A
      configuration file argument hands over to `handle_file_argument`;
      otherwise every option is resolved against the given argument, with
      the file default as the type to convert to. */
  function ParseArguments(h: Handler, files: Files, baseDir: string, args: Defaults)
    : (result: (Handler, Files, Result<Namespace, ConfigError>))
    ensures ConfigFileArg(args).None? ==> result.0 == h && result.1 == files
    ensures ConfigFileArg(args).Some? ==> result.0 == Handler(ConfigFileArg(args).value)
    ensures result.2.Ok? ==> forall k :: k in result.2.value <==> k in OptionNames
  {
    match ConfigFileArg(args)
    case Some(path) => HandleFileArgument(h, files, baseDir, path)
    case None =>
      var r := FillFromDefaults(IniDefaults(baseDir), k => ArgGet(args, k));
      if r.Ok? then FillContents(IniDefaults(baseDir), k => ArgGet(args, k)); (h, files, r)
      else (h, files, r)
  }

  /** A configuration file named on the command line that does not exist is
      created with the defaults. */
  lemma MissingConfigFileIsCreated(h: Handler, files: Files, baseDir: string, args: Defaults)
    requires ConfigFileArg(args).Some? && ConfigFileArg(args).value !in files
    ensures var (h', files', _) := ParseArguments(h, files, baseDir, args);
            files'.Keys == files.Keys + {h'.configIniFile}
            && files'[h'.configIniFile] == InstalledDoc(IniDefaults(baseDir))
  {
  }

  /** A folder list given on the command line (argparse collects `nargs='+'`
      values into a list) cannot be split: the call raises `AttributeError`. */
  lemma ListArgumentRaises(h: Handler, files: Files, baseDir: string, args: Defaults, folders: seq<string>)
    requires ConfigFileArg(args).None?
    requires ArgGet(args, "logfolders") == List(folders) && |folders| > 0
    ensures ParseArguments(h, files, baseDir, args).2 == Err(AttributeError)
  {
    var d := IniDefaults(baseDir);
    var given := k => ArgGet(args, k);
    var r := FillFromDefaults(d, given);
    assert r == ParseArguments(h, files, baseDir, args).2;
    ListArgumentResolves(baseDir, args, folders);
    FillFirstError(d, given);
    var i :| 0 <= i < 6 && Resolve(given(d[i].0), d[i].1) == Err(r.error)
             && forall j :: 0 <= j < i ==> Resolve(given(d[j].0), d[j].1).Ok?;
    assert i == 2;
  }

  /** The first two options resolve, and the folder list does not. */
  lemma ListArgumentResolves(baseDir: string, args: Defaults, folders: seq<string>)
    requires ArgGet(args, "logfolders") == List(folders) && |folders| > 0
    ensures var d := IniDefaults(baseDir);
            && Resolve(ArgGet(args, d[0].0), d[0].1).Ok?
            && Resolve(ArgGet(args, d[1].0), d[1].1).Ok?
            && Resolve(ArgGet(args, d[2].0), d[2].1) == Err(AttributeError)
  {
  }

  /** `get_app_config`: without arguments (`len(sys.argv) <= 1`) the file
      fallback, otherwise the arguments. */
  function GetAppConfig(argc: nat, files: Files, baseDir: string, configIni: string, args: Defaults)
    : (result: (Files, Result<Namespace, ConfigError>))
    ensures argc <= 1 ==> result == NoArgsFallback(NewHandler(configIni), files, baseDir)
    ensures argc > 1 ==> result == (ParseArguments(NewHandler(configIni), files, baseDir, args).1,
                                    ParseArguments(NewHandler(configIni), files, baseDir, args).2)
  {
    if argc <= 1 then NoArgsFallback(NewHandler(configIni), files, baseDir)
    else
      var (_, files', r) := ParseArguments(NewHandler(configIni), files, baseDir, args);
      (files', r)
  }

  /** Whatever is given, the two flags resolve to `True` against the file
      defaults. */
  lemma FillSetsFlags(baseDir: string, given: string -> Value)
    ensures var r := FillFromDefaults(IniDefaults(baseDir), given);
            r.Ok? ==> "show_viewer" in r.value && "descending" in r.value
    ensures var r := FillFromDefaults(IniDefaults(baseDir), given);
            r.Ok? ==> r.value["show_viewer"] == Bool(true) && r.value["descending"] == Bool(true)
  {
    var d := IniDefaults(baseDir);
    if FillFromDefaults(d, given).Ok? {
      FillContents(d, given);
    }
    StandardLookup(baseDir, true);
    assert d[4].0 == "show_viewer" && d[5].0 == "descending";
    assert Names(d)[4] == d[4].0 && Names(d)[5] == d[5].0;
  }

  /** Both flags come out set whatever the source: a falsy value falls back
      to the `True` file default, and a truthy one, the text `"False"`
      included, converts to `True`. */
  lemma FlagsAlwaysSet(argc: nat, files: Files, baseDir: string, configIni: string, args: Defaults)
    ensures var r := GetAppConfig(argc, files, baseDir, configIni, args).1;
            r.Ok? ==> "show_viewer" in r.value && "descending" in r.value
    ensures var r := GetAppConfig(argc, files, baseDir, configIni, args).1;
            r.Ok? ==> r.value["show_viewer"] == Bool(true) && r.value["descending"] == Bool(true)
  {
    var h := NewHandler(configIni);
    var r := GetAppConfig(argc, files, baseDir, configIni, args).1;
    var fileCase := argc <= 1 || ConfigFileArg(args).Some?;
    if fileCase {
      var h' := if argc <= 1 then h else Handler(ConfigFileArg(args).value);
      var files' := Install(h', files, baseDir);
      assert r == ParseConfigFile(h', files', baseDir);
      var doc := ReadIni(files', h'.configIniFile);
      if "Default" in doc {
        FillSetsFlags(baseDir, k => FileValue(doc["Default"], k));
      }
    } else {
      FillSetsFlags(baseDir, k => ArgGet(args, k));
    }
  }
}
