/** The value layer of the configuration code (core/config.py): the Python
    values a configuration holds, `parse_value`, which converts a text
    according to the type of the default it replaces, and the text
    `install` writes for a value.  A namespace is a map from names to values. */
module ConfigValues {
  import opened Outcomes
  import opened Text

  /** The Python values that occur in a configuration: strings, booleans,
      integers, lists of strings and `None`.  `Other` stands for a default
      of any other type (a dict, say), which `parse_value` never converts to. */
  datatype Value = Str(s: string) | Bool(b: bool) | Int(i: int) | List(items: seq<string>) | Null | Other

  /** The Python exceptions the configuration code can raise. */
  datatype ConfigError = RuntimeError | KeyError | ValueError | AttributeError | TypeError

  /** Python truthiness. */
  predicate Truthy(v: Value) {
    match v
    case Str(s) => s != ""
    case Bool(b) => b
    case Int(i) => i != 0
    case List(items) => items != []
    case Null => false
    case Other => true
  }

  /** `[item.strip() for item in value.split(',')]`. */
  function ParseList(s: string): (items: seq<string>)
    ensures |items| == |Split(s, ',')|
    ensures forall i :: 0 <= i < |items| ==> items[i] == Strip(Split(s, ',')[i]) && ',' !in items[i]
  {
    var parts := Split(s, ',');
    seq(|parts|, i requires 0 <= i < |parts| => Strip(parts[i]))
  }

  /** `parse_value(value, default_val)`: the exact type of the default
      decides.  A list default splits the text at commas and strips the
      pieces (anything but a string has no `split`); a bool default takes
      the truthiness; an int default takes `int()` of the value; any other
      default leaves the value alone. */
  function ParseValue(value: Value, default: Value): (r: Result<Value, ConfigError>)
    ensures default.List? ==> (r.Ok? <==> value.Str?)
    ensures default.List? && value.Str? ==> r == Ok(List(ParseList(value.s)))
    ensures default.Bool? ==> r == Ok(Bool(Truthy(value)))
    ensures default.Int? ==> (r.Ok? ==> r.value.Int?)
    ensures default.Int? && value.Str? ==> (r.Ok? <==> ParseInt(value.s).Some?)
    ensures !(default.List? || default.Bool? || default.Int?) ==> r == Ok(value)
    ensures r.Err? ==> r.error == AttributeError || r.error == ValueError || r.error == TypeError
  {
    match default
    case List(_) => if value.Str? then Ok(List(ParseList(value.s))) else Err(AttributeError)
    case Bool(_) => Ok(Bool(Truthy(value)))
    case Int(_) =>
      (match value
       case Str(s) => (match ParseInt(s) case Some(n) => Ok(Int(n)) case None => Err(ValueError))
       case Int(i) => Ok(Int(i))
       case Bool(b) => Ok(Int(if b then 1 else 0))
       case _ => Err(TypeError))
    case _ => Ok(value)
  }

  /** The text `install` stores for a value: a list joined with `", "`,
      anything else through `str()`. */
  function IniText(v: Value): (text: string)
    ensures v.Str? ==> text == v.s
    ensures v.Bool? ==> text == (if v.b then "True" else "False")
    ensures v.List? ==> text == Join(", ", v.items)
  {
    match v
    case Str(s) => s
    case Bool(b) => if b then "True" else "False"
    case Int(i) => IntToString(i)
    case List(items) => Join(", ", items)
    case Null => "None"
    case Other => "{}"
  }

  /** Every piece with the blank `", "` puts in front of it. */
  function Prefixed(xs: seq<string>): (parts: seq<string>)
    ensures |parts| == |xs|
    ensures forall i :: 0 <= i < |xs| ==> parts[i] == " " + xs[i]
  {
    if |xs| == 0 then [] else [" " + xs[0]] + Prefixed(xs[1..])
  }

  /** The pieces `", ".join` separates, seen as pieces of a `","` join. */
  function Spaced(items: seq<string>): (parts: seq<string>)
    requires |items| >= 1
    ensures |parts| == |items| && parts[0] == items[0]
    ensures forall i :: 1 <= i < |items| ==> parts[i] == " " + items[i]
  {
    [items[0]] + Prefixed(items[1..])
  }

  lemma {:induction false} JoinPrefixed(xs: seq<string>)
    requires |xs| >= 1
    ensures Join(",", Prefixed(xs)) == " " + Join(", ", xs)
  {
    if |xs| > 1 {
      var p := Prefixed(xs);
      assert p[1..] == Prefixed(xs[1..]);
      JoinPrefixed(xs[1..]);
      var j := Join(", ", xs[1..]);
      assert Join(",", p) == p[0] + "," + Join(",", p[1..]);
      assert Join(",", p) == (" " + xs[0]) + "," + (" " + j);
      assert Join(", ", xs) == xs[0] + ", " + j;
      assert (" " + xs[0]) + "," + (" " + j) == " " + (xs[0] + ", " + j);
    } else {
      assert Prefixed(xs) == [" " + xs[0]];
    }
  }

  lemma CommaThenBlank(a: string, j: string)
    ensures a + "," + (" " + j) == a + ", " + j
  {
    assert "," + " " == ", ";
  }

  /** Joining with `", "` is joining the spaced pieces with `","`. */
  lemma JoinCommaSpace(items: seq<string>)
    requires |items| >= 1
    ensures Join(", ", items) == Join(",", Spaced(items))
  {
    var sp := Spaced(items);
    if |items| > 1 {
      JoinPrefixed(items[1..]);
      assert sp[1..] == Prefixed(items[1..]);
      CommaThenBlank(items[0], Join(", ", items[1..]));
    } else {
      assert sp == [items[0]];
    }
  }

  /** A list `install` wrote is read back by `parse_value` when it is not
      empty and its items are stripped and free of commas. */
  lemma ListRoundTrip(items: seq<string>, default: seq<string>)
    requires |items| >= 1
    requires forall i :: 0 <= i < |items| ==> ',' !in items[i] && IsStripped(items[i])
    ensures ParseValue(Str(IniText(List(items))), List(default)) == Ok(List(items))
  {
    var parts := Spaced(items);
    JoinCommaSpace(items);
    forall i | 0 <= i < |parts| ensures ',' !in parts[i] {
      if i > 0 {
        assert parts[i] == " " + items[i];
      }
    }
    JoinThenSplit(parts, ',');
    assert Split(Join(", ", items), ',') == parts;
    var parsed := ParseList(Join(", ", items));
    forall i | 0 <= i < |items| ensures parsed[i] == items[i] {
      StripOfStripped(items[i]);
      if i > 0 {
        StripAfterSpace(items[i]);
      }
    }
    assert parsed == items;
  }

  /** An empty list does not survive: its text `""` splits into one empty item. */
  lemma EmptyListBecomesOneEmptyItem(default: seq<string>)
    ensures ParseValue(Str(IniText(List([]))), List(default)) == Ok(List([""]))
  {
    assert IniText(List([])) == "";
    assert Split("", ',') == [""];
    assert Strip("") == "";
    assert ParseList("") == [""];
  }

  /** An integer survives being written and read back. */
  lemma IntRoundTrip(i: int, default: int)
    ensures ParseValue(Str(IniText(Int(i))), Int(default)) == Ok(Int(i))
  {
    IntStringRoundTrip(i);
  }

  /** A false flag does not survive: `"False"` is a non-empty, truthy text. */
  lemma FalseFlagReadsTrue(b: bool, default: bool)
    ensures ParseValue(Str(IniText(Bool(b))), Bool(default)) == Ok(Bool(true))
  {
  }

  /** `ParseList` strips the pieces a comma-join was made of. */
  lemma ParseListOfJoin(parts: seq<string>, want: seq<string>)
    requires |parts| >= 1 && |want| == |parts|
    requires forall i :: 0 <= i < |parts| ==> ',' !in parts[i] && Strip(parts[i]) == want[i]
    ensures ParseList(Join(",", parts)) == want
  {
    JoinThenSplit(parts, ',');
  }

  /** The conversions the repository's `TypeUtil` test checks against a
      bool, an int and a dict default. */
  lemma TypeUtilExamples()
    ensures ParseValue(Str("Test"), Bool(true)) == Ok(Bool(true))
    ensures ParseValue(Str("10"), Int(1)) == Ok(Int(10))
    ensures ParseValue(Int(2), Other) == Ok(Int(2))
  {
    TenConverts();
  }

  lemma TenConverts()
    ensures ParseValue(Str("10"), Int(1)) == Ok(Int(10))
  {
    TenParses();
  }

  lemma TenParses()
    ensures ParseInt("10") == Some(10)
  {
    StripOfStripped("10");
    assert "10"[..1] == "1";
    assert "10"[0] == '1' && "10"[1] == '0';
    assert GroupedValue("10") == 10;
  }

  /** The list conversion the repository's `TypeUtil` test checks: the
      pieces come back without their blanks. */
  lemma TypeUtilListExample()
    ensures ParseValue(Str(" Hallo ,Hello, Hi, Yo"), List([])) == Ok(List(["Hallo", "Hello", "Hi", "Yo"]))
  {
    ExampleParsed([" Hallo ", "Hello", " Hi", " Yo"], ["Hallo", "Hello", "Hi", "Yo"]);
  }

  lemma ExampleParsed(parts: seq<string>, want: seq<string>)
    requires parts == [" Hallo ", "Hello", " Hi", " Yo"] && want == ["Hallo", "Hello", "Hi", "Yo"]
    ensures ParseList(" Hallo ,Hello, Hi, Yo") == want
  {
    ExampleJoin(parts);
    ExampleStrips();
    forall i | 0 <= i < |parts| ensures ',' !in parts[i] && Strip(parts[i]) == want[i] {
      if i == 0 {
        assert parts[i] == " Hallo ";
      } else if i == 1 {
        assert parts[i] == "Hello";
      } else if i == 2 {
        assert parts[i] == " Hi";
      } else {
        assert parts[i] == " Yo";
      }
    }
    ParseListOfJoin(parts, want);
  }

  lemma ExampleJoin(parts: seq<string>)
    requires parts == [" Hallo ", "Hello", " Hi", " Yo"]
    ensures Join(",", parts) == " Hallo ,Hello, Hi, Yo"
  {
    assert parts[1..][1..][1..] == [" Yo"];
    assert Join(",", parts[1..][1..]) == " Hi, Yo";
    assert Join(",", parts[1..]) == "Hello" + "," + " Hi, Yo";
    assert Join(",", parts) == " Hallo " + "," + "Hello, Hi, Yo";
  }

  lemma ExampleStrips()
    ensures Strip(" Hallo ") == "Hallo" && Strip("Hello") == "Hello"
    ensures Strip(" Hi") == "Hi" && Strip(" Yo") == "Yo"
  {
    StripOfStripped("Hello");
    BlankThenWord("Hi");
    BlankThenWord("Yo");
    HalloStrip();
  }

  lemma BlankThenWord(w: string)
    requires |w| > 0 && !IsSpace(w[0]) && !IsSpace(w[|w| - 1])
    ensures Strip(" " + w) == w
  {
    StripOfStripped(w);
    StripAfterSpace(w);
  }

  lemma HalloStrip()
    ensures Strip(" Hallo ") == "Hallo"
  {
    assert RStrip(" Hallo ") == RStrip(" Hallo") by {
      assert " Hallo "[..6] == " Hallo";
    }
    assert " Hallo" == " " + "Hallo";
    BlankThenWord("Hallo");
  }

  /** A namespace: attribute names and their values. */
  type Namespace = map<string, Value>

  /** A dictionary of defaults, in its insertion order. */
  type Defaults = seq<(string, Value)>

  /** The names of a defaults dictionary, in order. */
  function Names(d: Defaults): (ks: seq<string>)
    ensures |ks| == |d| && forall i :: 0 <= i < |d| ==> ks[i] == d[i].0
  {
    if |d| == 0 then [] else [d[0].0] + Names(d[1..])
  }

  /** `d[key]` for a name that is present. */
  function DefaultOf(d: Defaults, key: string): (v: Value)
    requires key in Names(d)
    ensures exists i :: 0 <= i < |d| && d[i] == (key, v)
  {
    if d[0].0 == key then d[0].1 else DefaultOf(d[1..], key)
  }

  /** The namespace holding every default. */
  function AsNamespace(d: Defaults): (ns: Namespace)
    ensures ns.Keys == set i | 0 <= i < |d| :: d[i].0
    ensures forall k :: k in ns ==> k in Names(d) && ns[k] == DefaultOf(d, k)
  {
    if |d| == 0 then map[]
    else AsNamespace(d[1..])[d[0].0 := d[0].1]
  }

  /** The commit link prefix every default configuration starts with. */
  const DefaultOrigin: string := "https://github.com/worstprgr/git-observer/commit/"

  /** The option names every default dictionary lists, in its order. */
  const OptionNames: seq<string> := ["origin", "filepath", "logfolders", "ignore", "show_viewer", "descending"]

  /** The default dictionaries of the configuration code: they differ only
      in the two flags, which are `True` for the file defaults of
      core/config.py and `False` everywhere else.  `baseDir` is the working
      directory the program was started in. */
  function StandardDefaults(baseDir: string, flags: bool): (d: Defaults)
    ensures Names(d) == OptionNames
  {
    var d := [("origin", Str(DefaultOrigin)), ("filepath", Str(baseDir)), ("logfolders", List(["."])),
              ("ignore", List([])), ("show_viewer", Bool(flags)), ("descending", Bool(flags))];
    assert Names(d) == [d[0].0] + Names(d[1..]);
    d
  }

  /** With distinct names before it, an entry is what a lookup of its
      name finds. */
  lemma {:induction false} DefaultOfFirst(d: Defaults, i: nat)
    requires i < |d| && forall j :: 0 <= j < i ==> d[j].0 != d[i].0
    ensures d[i].0 in Names(d) && DefaultOf(d, d[i].0) == d[i].1
  {
    var key := d[i].0;
    assert Names(d)[i] == key;
    if i > 0 {
      var rest := d[1..];
      assert rest[i - 1] == d[i];
      forall j | 0 <= j < i - 1 ensures rest[j].0 != key {
        assert rest[j] == d[j + 1];
      }
      DefaultOfFirst(rest, i - 1);
      assert d[0].0 != key;
    }
  }

  /** Every entry of the standard defaults is what a lookup of its name
      finds. */
  lemma StandardLookup(baseDir: string, flags: bool)
    ensures var d := StandardDefaults(baseDir, flags);
            forall i :: 0 <= i < |d| ==> DefaultOf(d, d[i].0) == d[i].1
  {
    var d := StandardDefaults(baseDir, flags);
    OptionNamesDistinct();
    forall i | 0 <= i < |d| ensures DefaultOf(d, d[i].0) == d[i].1 {
      forall j | 0 <= j < i ensures d[j].0 != d[i].0 {
        assert Names(d)[j] == d[j].0 && Names(d)[i] == d[i].0;
      }
      DefaultOfFirst(d, i);
    }
  }

  /** The option names are pairwise different. */
  lemma OptionNamesDistinct()
    ensures forall i, j :: 0 <= i < j < |OptionNames| ==> OptionNames[i] != OptionNames[j]
  {
  }

  /** The names of a dictionary are pairwise different, as a Python dict's are. */
  predicate DistinctNames(d: Defaults) {
    forall i, j :: 0 <= i < j < |d| ==> d[i].0 != d[j].0
  }

  /** The text `install` writes for a value converts back without raising
      when the value itself is the default. */
  lemma IniTextParses(v: Value)
    ensures ParseValue(Str(IniText(v)), v).Ok?
  {
    if v.Int? {
      IntStringRoundTrip(v.i);
    }
  }

  /** One INI section as configparser holds it: its options in file order. */
  type IniSection = seq<(string, string)>

  /** A parsed INI file: its sections by name. */
  type IniDoc = map<string, IniSection>

  /** The files that exist, each with what configparser reads from it. */
  type Files = map<string, IniDoc>

  /** `ConfigParser.read`: a missing file is silently skipped, so it reads as
      a file without sections. */
  function ReadIni(files: Files, path: string): (doc: IniDoc)
    ensures path !in files ==> doc == map[]
    ensures path in files ==> doc == files[path]
  {
    if path in files then files[path] else map[]
  }

  /** `section[key]` as an optional text. */
  function SectionGet(section: IniSection, key: string): (v: Option<string>)
    ensures v.Some? <==> exists i :: 0 <= i < |section| && section[i].0 == key
    ensures v.Some? ==> exists i :: 0 <= i < |section| && section[i] == (key, v.value)
  {
    if |section| == 0 then None
    else if section[0].0 == key then Some(section[0].1)
    else SectionGet(section[1..], key)
  }

  /** With different names before it, an option is what a lookup of its
      name finds. */
  lemma {:induction false} SectionGetFirst(section: IniSection, i: nat)
    requires i < |section| && forall j :: 0 <= j < i ==> section[j].0 != section[i].0
    ensures SectionGet(section, section[i].0) == Some(section[i].1)
  {
    if i > 0 {
      var rest := section[1..];
      assert rest[i - 1] == section[i];
      forall j | 0 <= j < i - 1 ensures rest[j].0 != section[i].0 {
        assert rest[j] == section[j + 1];
      }
      SectionGetFirst(rest, i - 1);
      assert section[0].0 != section[i].0;
    }
  }

  /** The `Default` section `install` writes for a dictionary of defaults:
      every entry in order, its value as `IniText`. */
  function InstalledSection(d: Defaults): (section: IniSection)
    ensures |section| == |d|
    ensures forall i :: 0 <= i < |d| ==> section[i] == (d[i].0, IniText(d[i].1))
  {
    seq(|d|, i requires 0 <= i < |d| => (d[i].0, IniText(d[i].1)))
  }

  /** The file `install` writes. */
  function InstalledDoc(d: Defaults): (doc: IniDoc)
    ensures doc.Keys == {"Default"} && doc["Default"] == InstalledSection(d)
  {
    map["Default" := InstalledSection(d)]
  }
}
