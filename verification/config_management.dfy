/** core/config/management.py: `ConfigManager`, which picks the source of
    the configuration (the arguments, a file they name, or the standard
    INI file) and lays what it found over the defaults. */
module ConfigManagement {
  import opened Outcomes
  import opened ConfigValues
  import opened ConfigParsers

  /** `CONF_FILE_PARAM`: the argument naming a configuration file. */
  const ConfFileParam: string := "config_file"

  /** `config_defaults`: both flags off. */
  function ConfigDefaults(baseDir: string): (d: Defaults)
    ensures Names(d) == OptionNames
  {
    StandardDefaults(baseDir, false)
  }

  /** `get_defaults`: the defaults as a namespace. */
  function GetDefaults(baseDir: string): (ns: Namespace)
    ensures forall k :: k in ns <==> k in OptionNames
    ensures forall k :: k in ns ==> ns[k] == DefaultOf(ConfigDefaults(baseDir), k)
  {
    var ns := AsNamespace(ConfigDefaults(baseDir));
    assert forall k :: k in ns <==> exists i :: 0 <= i < 6 && ConfigDefaults(baseDir)[i].0 == k;
    ns
  }

  /** A file source result as an optional configuration. */
  function SomeConfig(r: Result<Namespace, ConfigError>): (o: Result<Option<Namespace>, ConfigError>)
    ensures r.Ok? <==> o.Ok?
    ensures r.Ok? ==> o.value == Some(r.value)
    ensures r.Err? ==> o.error == r.error
  {
    match r
    case Ok(ns) => Ok(Some(ns))
    case Err(e) => Err(e)
  }

  /** `__get_plain_config__`.  Arguments that yield any option win; when
      they name a configuration file that exists, that file is read
      instead.  Without such arguments the standard INI file is read when it
      exists, and otherwise there is no configuration. */
  function GetPlainConfig(files: Files, baseDir: string, configIni: string, args: seq<(string, Value)>)
    : (r: Result<Option<Namespace>, ConfigError>)
    ensures ArgParseConfig(ArgConfigParser(ConfigDefaults(baseDir), []), args).1.Err? ==> r.Err?
    ensures (forall i :: 0 <= i < |args| ==> !Truthy(args[i].1)) ==>
              r == (if configIni in files then SomeConfig(IniParseConfig(IniConfigParser(ConfigDefaults(baseDir), configIni), files))
                    else Ok(None))
  {
    var argParser := ArgConfigParser(ConfigDefaults(baseDir), []);
    match ArgHasConfig(argParser, args).1
    case Err(e) => Err(e)
    case Ok(has) =>
      if has then
        var argConfig := ArgParseConfig(argParser, args).1.value;
        if ConfFileParam in argConfig then
          match argConfig[ConfFileParam]
          case Str(path) =>
            var fileParser := IniConfigParser(ConfigDefaults(baseDir), path);
            if IniHasConfig(fileParser, files) then SomeConfig(IniParseConfig(fileParser, files))
            else Ok(Some(argConfig))
          case _ => Err(TypeError)
        else Ok(Some(argConfig))
      else
        var fileParser := IniConfigParser(ConfigDefaults(baseDir), configIni);
        if IniHasConfig(fileParser, files) then SomeConfig(IniParseConfig(fileParser, files))
        else Ok(None)
  }

  /** The merge of `get_config`: every default option, taken from the
      configuration where it has the option. */
  function Merge(defaults: Namespace, config: Namespace): (ns: Namespace)
    ensures ns.Keys == defaults.Keys
    ensures forall k :: k in ns ==> ns[k] == (if k in config then config[k] else defaults[k])
  {
    map k | k in defaults :: if k in config then config[k] else defaults[k]
  }

  /** `get_config`: the plain configuration laid over the defaults, or the
      defaults alone when there is none. */
  function GetConfig(files: Files, baseDir: string, configIni: string, args: seq<(string, Value)>)
    : (r: Result<Namespace, ConfigError>)
    ensures r.Err? <==> GetPlainConfig(files, baseDir, configIni, args).Err?
    ensures r.Ok? ==> forall k :: k in r.value <==> k in OptionNames
  {
    match GetPlainConfig(files, baseDir, configIni, args)
    case Err(e) => Err(e)
    case Ok(None) => Ok(GetDefaults(baseDir))
    case Ok(Some(config)) => Ok(Merge(GetDefaults(baseDir), config))
  }

  /** Without arguments and without the standard INI file the configuration
      is exactly the defaults. */
  lemma NothingGivenGivesDefaults(files: Files, baseDir: string, configIni: string, args: seq<(string, Value)>)
    requires forall i :: 0 <= i < |args| ==> !Truthy(args[i].1)
    requires configIni !in files
    ensures GetConfig(files, baseDir, configIni, args) == Ok(GetDefaults(baseDir))
  {
  }

  /** Arguments that yield an option and name no configuration file decide
      alone: the files, the standard INI file included, are never read. */
  lemma ArgumentsIgnoreFiles(files1: Files, files2: Files, baseDir: string, configIni: string, args: seq<(string, Value)>)
    requires exists i :: 0 <= i < |args| && Truthy(args[i].1)
    requires forall i :: 0 <= i < |args| ==> args[i].0 != ConfFileParam || !Truthy(args[i].1)
    ensures GetConfig(files1, baseDir, configIni, args) == GetConfig(files2, baseDir, configIni, args)
  {
    var argParser := ArgConfigParser(ConfigDefaults(baseDir), []);
    var r := ArgParseConfig(argParser, args).1;
    if r.Ok? {
      CollectedAny(args, argParser.defaultConfig, false);
      assert ConfFileParam !in r.value;
    }
  }

  /** An argument given for an option with distinct names comes out of
      `get_config` converted by the type of the option's default. */
  lemma ArgumentTaken(files: Files, baseDir: string, configIni: string, args: seq<(string, Value)>, i: nat)
    requires i < |args| && Truthy(args[i].1) && args[i].0 in OptionNames
    requires forall j :: 0 <= j < |args| && j != i ==> args[j].0 != args[i].0
    requires forall j :: 0 <= j < |args| ==> args[j].0 != ConfFileParam || !Truthy(args[j].1)
    requires GetConfig(files, baseDir, configIni, args).Ok?
    ensures ParseValue(args[i].1, DefaultOf(ConfigDefaults(baseDir), args[i].0))
            == Ok(GetConfig(files, baseDir, configIni, args).value[args[i].0])
  {
    var argParser := ArgConfigParser(ConfigDefaults(baseDir), []);
    var r := ArgParseConfig(argParser, args).1;
    assert r.Ok?;
    CollectedAny(args, argParser.defaultConfig, false);
    CollectedAt(args, argParser.defaultConfig, false, i);
    assert ConfFileParam !in r.value;
  }

  /** A configuration file named by the arguments that exists replaces the
      arguments altogether. */
  lemma ConfigFileArgumentRead(files: Files, baseDir: string, configIni: string, args: seq<(string, Value)>,
                               i: nat, path: string)
    requires i < |args| && args[i] == (ConfFileParam, Str(path)) && path != "" && path in files
    requires forall j :: 0 <= j < |args| && j != i ==> args[j].0 != ConfFileParam
    requires ArgParseConfig(ArgConfigParser(ConfigDefaults(baseDir), []), args).1.Ok?
    ensures var r := IniParseConfig(IniConfigParser(ConfigDefaults(baseDir), path), files);
            GetConfig(files, baseDir, configIni, args)
            == (if r.Ok? then Ok(Merge(GetDefaults(baseDir), r.value)) else Err(r.error))
  {
    var d := ConfigDefaults(baseDir);
    var argParser := ArgConfigParser(d, []);
    assert ConfFileParam !in OptionNames;
    assert GivenDefault(d, ConfFileParam) == Null;
    CollectedAny(args, d, false);
    CollectedAt(args, d, false, i);
  }
}
