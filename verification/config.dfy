/**
 * Start-up configuration (`config`): the built-in defaults, the merge with the
 * configuration file, and the directory and prescriber paths derived from it
 * and from the command line. Reading the file, `os.path.abspath` and
 * `os.path.isfile` are inputs.
 */
module Config {
  import opened Wrappers
  import opened Json
  import opened Text
  import opened Paths

  /** The command line: a positional file name, `-c` and `-p`. */
  datatype Args = Args(filename: Option<string>, config: Option<string>, prescriber: Option<string>)

  /** The configuration file read: `-c` if given, else `config/config.json`
      made absolute. */
  function ConfigFile(args: Args, abspath: string -> string): (r: string)
    ensures args.config.Some? ==> r == args.config.value
    ensures args.config.None? ==> r == abspath("config/config.json")
  {
    match args.config
    case Some(f) => f
    case None =>
      assert !IsAbs("config.json") by { assert "config.json"[..1] == "c"; }
      assert !EndsWith("config", "/") by { assert "config"[5..] == "g"; }
      assert "config" + "/" + "config.json" == "config/config.json";
      abspath(Join("config", "config.json"))
  }

  /** The built-in defaults. Note that `preset_newline` is the string "True". */
  const Default: map<string, Value> := map[
    "config_directory" := Str("config"),
    "data_directory" := Str("data"),
    "document_directory" := Str("document"),
    "prescriber_directory" := Str("prescriber"),
    "prescriber" := Str("prescriber"),
    "template_directory" := Str("template"),
    "template" := Str("default"),
    "preset_directory" := Str("preset"),
    "preset_newline" := Str("True")
  ]

  /** `base | read`: every key of either, the file's value winning. A file
      that does not decode to a dict makes `|` raise `TypeError`. */
  function Merge(base: map<string, Value>, read: Value): (r: Result<map<string, Value>, Error>)
    ensures r.Success? <==> read.Obj?
    ensures r.Failure? ==> r.error == TypeError
    ensures r.Success? ==> r.value.Keys == base.Keys + read.fields.Keys
    ensures r.Success? ==> forall k :: k in read.fields ==> r.value[k] == read.fields[k]
    ensures r.Success? ==> forall k :: k in base && k !in read.fields ==> r.value[k] == base[k]
  {
    if read.Obj? then Success(base + read.fields) else Failure(TypeError)
  }

  /** Every configuration starts from the defaults, so it holds their keys. */
  predicate HasDefaultKeys(m: map<string, Value>)
  {
    Default.Keys <= m.Keys
  }

  /** Whether the directory derivation finds a `str` wherever it needs one. */
  predicate DirectoriesConfigurable(m: map<string, Value>)
    requires HasDefaultKeys(m)
  {
    && m["data_directory"].Str? && m["document_directory"].Str?
    && m["template_directory"].Str? && m["template"].Str?
  }

  /** Whether the prescriber derivation finds a `str` wherever it needs one. */
  predicate PrescriberConfigurable(m: map<string, Value>, args: Args, isFile: string -> bool)
    requires HasDefaultKeys(m)
  {
    match args.prescriber
    case None => m["prescriber_directory"].Str? && m["prescriber"].Str?
    case Some(arg) =>
      && ResolveArg(m, arg).Success?
      && (!isFile(ResolveArg(m, arg).value) ==> m["config_directory"].Str? && m["prescriber"].Str?)
  }

  /** `-p` made absolute: a relative name is taken under `config_directory`. */
  function ResolveArg(m: map<string, Value>, arg: string): (r: Result<string, Error>)
    ensures r.Success? <==> IsAbs(arg) || StrAt(m, "config_directory").Success?
    ensures IsAbs(arg) ==> r == Success(arg)
    ensures !IsAbs(arg) && r.Success? ==> r.value == Join(m["config_directory"].s, arg)
    ensures r.Success? && !IsAbs(arg) ==> EndsWith(r.value, arg)
  {
    if IsAbs(arg) then Success(arg)
    else
      var dir :- StrAt(m, "config_directory");
      Success(Join(dir, arg))
  }

  function FileValue(f: Option<string>): Value
  {
    match f
    case None => Null
    case Some(name) => Str(name)
  }

  /** The keys the directory derivation rewrites. */
  const DirectoryKeys: set<string> := {"filename", "data_directory", "document_directory",
                                       "template_directory", "template"}

  /**
   * The first derivations: the file name recorded, the data directory made
   * absolute, the document and template directories taken under it and the
   * template under the template directory. A non-`str` value makes
   * `os.path` raise `TypeError`.
   */
  function Directories(m: map<string, Value>, filename: Option<string>, abspath: string -> string)
    : (r: Result<map<string, Value>, Error>)
    requires HasDefaultKeys(m)
    ensures r.Success? <==> DirectoriesConfigurable(m)
    ensures r.Failure? ==> r.error == TypeError
    ensures r.Success? ==> r.value.Keys == m.Keys + {"filename"} && HasDefaultKeys(r.value)
    ensures r.Success? ==> forall k :: k in m && k !in DirectoryKeys ==> r.value[k] == m[k]
    ensures r.Success? ==> r.value["filename"] == FileValue(filename)
    ensures r.Success? ==> r.value["data_directory"] == Str(abspath(m["data_directory"].s))
    ensures r.Success? ==> r.value["document_directory"] == Str(Join(r.value["data_directory"].s, m["document_directory"].s))
    ensures r.Success? ==> r.value["template_directory"] == Str(Join(r.value["data_directory"].s, m["template_directory"].s))
    ensures r.Success? ==> r.value["template"] == Str(Join(r.value["template_directory"].s, m["template"].s))
    ensures r.Success? && abspath(m["data_directory"].s) != [] && !IsAbs(m["document_directory"].s) ==>
      StartsWith(r.value["document_directory"].s, r.value["data_directory"].s)
    ensures r.Success? && abspath(m["data_directory"].s) != [] && !IsAbs(m["template_directory"].s) ==>
      StartsWith(r.value["template_directory"].s, r.value["data_directory"].s)
    ensures r.Success? && !IsAbs(m["template"].s) ==> EndsWith(r.value["template"].s, m["template"].s)
  {
    if !DirectoriesConfigurable(m) then Failure(TypeError)
    else
      var data := abspath(m["data_directory"].s);
      var tdir := Join(data, m["template_directory"].s);
      Success(Derive(m, FileValue(filename), data, Join(data, m["document_directory"].s), tdir,
                     Join(tdir, m["template"].s)))
  }

  /** The five directory keys set to the derived values. */
  function Derive(m: map<string, Value>, filename: Value, data: string, document: string,
                  templates: string, template: string): (r: map<string, Value>)
    ensures r.Keys == m.Keys + DirectoryKeys
    ensures forall k :: k in m && k !in DirectoryKeys ==> r[k] == m[k]
    ensures r["filename"] == filename && r["data_directory"] == Str(data)
    ensures r["document_directory"] == Str(document) && r["template_directory"] == Str(templates)
    ensures r["template"] == Str(template)
  {
    m["filename" := filename]["data_directory" := Str(data)]["document_directory" := Str(document)]
     ["template_directory" := Str(templates)]["template" := Str(template)]
  }

  /**
   * The prescriber file. Without `-p` it is the configured name under the
   * prescriber directory (itself under the data directory) with a `.json`
   * suffix. With `-p` the resolved argument is used if it is a file, else the
   * configured name under the configuration directory.
   */
  function Prescriber(m: map<string, Value>, base: map<string, Value>, data: string, args: Args,
                      isFile: string -> bool): (r: Result<map<string, Value>, Error>)
    requires HasDefaultKeys(m)
    ensures r.Success? <==> PrescriberConfigurable(m, args, isFile)
    ensures r.Failure? ==> r.error == TypeError
    ensures r.Success? ==> r.value.Keys == base.Keys + {"prescriber"} + (if args.prescriber.None? then {"prescriber_directory"} else {})
    ensures r.Success? ==> forall k :: k in base && k != "prescriber" && k != "prescriber_directory" ==> r.value[k] == base[k]
    ensures r.Success? ==> r.value["prescriber"].Str?
    ensures r.Success? && args.prescriber.None? ==> EndsWith(r.value["prescriber"].s, ".json")
    ensures r.Success? && args.prescriber.None? ==>
      r.value["prescriber_directory"] == Str(Join(data, m["prescriber_directory"].s))
    ensures r.Success? && args.prescriber.None? ==>
      r.value["prescriber"] == Str(WithSuffix(Join(r.value["prescriber_directory"].s, m["prescriber"].s), ".json"))
    ensures r.Success? && args.prescriber.None? && data != [] && !IsAbs(m["prescriber_directory"].s) ==>
      StartsWith(r.value["prescriber_directory"].s, data)
    ensures r.Success? && args.prescriber.Some? && "prescriber_directory" in base ==>
      r.value["prescriber_directory"] == base["prescriber_directory"]
    ensures r.Success? && args.prescriber.Some? && isFile(ResolveArg(m, args.prescriber.value).value) ==>
      r.value["prescriber"] == Str(ResolveArg(m, args.prescriber.value).value)
    ensures r.Success? && args.prescriber.Some? && !isFile(ResolveArg(m, args.prescriber.value).value) ==>
      r.value["prescriber"] == Str(Join(m["config_directory"].s, m["prescriber"].s))
  {
    if !PrescriberConfigurable(m, args, isFile) then Failure(TypeError)
    else match args.prescriber
      case None => Success(UnderData(base, data, m["prescriber_directory"].s, m["prescriber"].s))
      case Some(arg) =>
        var path := ResolveArg(m, arg).value;
        Success(FromArg(base, if isFile(path) then path else Join(m["config_directory"].s, m["prescriber"].s)))
  }

  /** With `-p` only the prescriber file is set; every other key is kept. */
  function FromArg(base: map<string, Value>, prescriber: string): (r: map<string, Value>)
    ensures r.Keys == base.Keys + {"prescriber"}
    ensures forall k :: k in base && k != "prescriber" ==> r[k] == base[k]
    ensures r["prescriber"] == Str(prescriber)
  {
    base["prescriber" := Str(prescriber)]
  }

  /** Without `-p`: the prescriber directory under the data directory, and
      the prescriber file under it with a `.json` suffix. */
  function UnderData(base: map<string, Value>, data: string, dir: string, name: string): (r: map<string, Value>)
    ensures r.Keys == base.Keys + {"prescriber", "prescriber_directory"}
    ensures forall k :: k in base && k != "prescriber" && k != "prescriber_directory" ==> r[k] == base[k]
    ensures r["prescriber_directory"] == Str(Join(data, dir))
    ensures r["prescriber"] == Str(WithSuffix(Join(Join(data, dir), name), ".json"))
  {
    var pdir := Join(data, dir);
    base["prescriber_directory" := Str(pdir)]["prescriber" := Str(WithSuffix(Join(pdir, name), ".json"))]
  }

  /** Every derivation applied to a configuration holding the default keys. */
  function Derivations(m: map<string, Value>, args: Args, abspath: string -> string, isFile: string -> bool)
    : (r: Result<map<string, Value>, Error>)
    requires HasDefaultKeys(m)
    ensures r.Failure? ==> r.error == TypeError
    ensures r.Success? <==> DirectoriesConfigurable(m) && PrescriberConfigurable(m, args, isFile)
    ensures r.Success? ==> r.value.Keys == m.Keys + {"filename"}
    ensures r.Success? ==> forall k :: k in m && k !in DirectoryKeys + {"prescriber", "prescriber_directory"} ==>
      r.value[k] == m[k]
    ensures r.Success? ==> r.value["filename"] == FileValue(args.filename)
    ensures r.Success? ==> r.value["data_directory"] == Str(abspath(m["data_directory"].s))
    ensures r.Success? ==> r.value["document_directory"] == Str(Join(r.value["data_directory"].s, m["document_directory"].s))
    ensures r.Success? ==> r.value["template_directory"] == Str(Join(r.value["data_directory"].s, m["template_directory"].s))
    ensures r.Success? ==> r.value["template"] == Str(Join(r.value["template_directory"].s, m["template"].s))
    ensures r.Success? && args.prescriber.None? ==>
      r.value["prescriber_directory"] == Str(Join(r.value["data_directory"].s, m["prescriber_directory"].s))
    ensures r.Success? && args.prescriber.None? ==>
      r.value["prescriber"] == Str(WithSuffix(Join(r.value["prescriber_directory"].s, m["prescriber"].s), ".json"))
    ensures r.Success? && args.prescriber.Some? ==> r.value["prescriber_directory"] == m["prescriber_directory"]
    ensures r.Success? && args.prescriber.Some? ==>
      r.value["prescriber"] == Str(if isFile(ResolveArg(m, args.prescriber.value).value)
                                   then ResolveArg(m, args.prescriber.value).value
                                   else Join(m["config_directory"].s, m["prescriber"].s))
  {
    var base :- Directories(m, args.filename, abspath);
    var r := Prescriber(m, base, base["data_directory"].s, args, isFile);
    if r.Success? then
      Compose(m, base, r.value, args.prescriber.Some?);
      Keep(base, r.value);
      r
    else r
  }

  /** Rewriting the prescriber keys after the directory keys changes no
      other key and adds none but `filename`: the defaults hold both
      prescriber keys already. With `-p` the prescriber directory keeps its
      configured value. */
  lemma Compose(m: map<string, Value>, base: map<string, Value>, r: map<string, Value>, withArg: bool)
    requires HasDefaultKeys(m)
    requires base.Keys == m.Keys + {"filename"}
    requires forall k :: k in m && k !in DirectoryKeys ==> base[k] == m[k]
    requires r.Keys == base.Keys + {"prescriber"} + (if withArg then {} else {"prescriber_directory"})
    requires forall k :: k in base && k != "prescriber" && k != "prescriber_directory" ==> r[k] == base[k]
    requires withArg && "prescriber_directory" in base ==> r["prescriber_directory"] == base["prescriber_directory"]
    ensures r.Keys == m.Keys + {"filename"}
    ensures forall k :: k in m && k !in DirectoryKeys + {"prescriber", "prescriber_directory"} ==> r[k] == m[k]
    ensures r["filename"] == base["filename"]
    ensures withArg ==> r["prescriber_directory"] == m["prescriber_directory"]
  {
    assert "prescriber" in Default && "prescriber_directory" in Default;
  }

  /** The value a key takes once the file is merged over the defaults: the
      file's if it has the key, else the default (`null` for neither). */
  function Setting(read: Value, k: string): Value
    requires read.Obj?
  {
    if k in read.fields then read.fields[k] else if k in Default then Default[k] else Null
  }

  /** The derived values, restated from the merged map to the settings it
      holds. */
  lemma Settings(read: Value, m: map<string, Value>, r: map<string, Value>, withArg: bool, abspath: string -> string)
    requires read.Obj? && m == Default + read.fields && HasDefaultKeys(m) && DirectoriesConfigurable(m)
    requires r.Keys == m.Keys + {"filename"}
    requires forall k :: k in m && k !in DirectoryKeys + {"prescriber", "prescriber_directory"} ==> r[k] == m[k]
    requires r["data_directory"] == Str(abspath(m["data_directory"].s))
    requires r["document_directory"] == Str(Join(r["data_directory"].s, m["document_directory"].s))
    requires r["template_directory"] == Str(Join(r["data_directory"].s, m["template_directory"].s))
    requires r["template"] == Str(Join(r["template_directory"].s, m["template"].s))
    requires !withArg ==> m["prescriber_directory"].Str? && m["prescriber"].Str?
    requires !withArg ==> r["prescriber_directory"] == Str(Join(r["data_directory"].s, m["prescriber_directory"].s))
    requires !withArg ==>
      r["prescriber"] == Str(WithSuffix(Join(r["prescriber_directory"].s, m["prescriber"].s), ".json"))
    ensures forall k :: k in r && k !in DirectoryKeys + {"prescriber", "prescriber_directory"} ==>
      r[k] == Setting(read, k)
    ensures Setting(read, "data_directory").Str? &&
      r["data_directory"] == Str(abspath(Setting(read, "data_directory").s))
    ensures Setting(read, "document_directory").Str? &&
      r["document_directory"] == Str(Join(r["data_directory"].s, Setting(read, "document_directory").s))
    ensures Setting(read, "template_directory").Str? &&
      r["template_directory"] == Str(Join(r["data_directory"].s, Setting(read, "template_directory").s))
    ensures Setting(read, "template").Str? &&
      r["template"] == Str(Join(r["template_directory"].s, Setting(read, "template").s))
    ensures !withArg ==> (Setting(read, "prescriber_directory").Str? &&
      r["prescriber_directory"] == Str(Join(r["data_directory"].s, Setting(read, "prescriber_directory").s)))
    ensures !withArg ==> (Setting(read, "prescriber").Str? &&
      r["prescriber"] == Str(WithSuffix(Join(r["prescriber_directory"].s, Setting(read, "prescriber").s), ".json")))
  {
    forall k | k in m
      ensures m[k] == Setting(read, k)
    {
      Merged(read, m, k);
    }
  }

  /** One key of the merged map holds its setting. */
  lemma Merged(read: Value, m: map<string, Value>, k: string)
    requires read.Obj? && m == Default + read.fields && k in m
    ensures m[k] == Setting(read, k)
  {
  }

  /** The prescriber derivation leaves the directory keys as the directory
      derivation set them. */
  lemma Keep(base: map<string, Value>, r: map<string, Value>)
    requires DirectoryKeys <= base.Keys <= r.Keys
    requires forall k :: k in base && k != "prescriber" && k != "prescriber_directory" ==> r[k] == base[k]
    ensures forall k :: k in DirectoryKeys ==> r[k] == base[k]
  {
  }

  /** The configuration the program runs with: defaults merged with the
      file, then the derivations. */
  function Configure(read: Value, args: Args, abspath: string -> string, isFile: string -> bool)
    : (r: Result<map<string, Value>, Error>)
    ensures r.Failure? ==> r.error == TypeError
    ensures !read.Obj? ==> r.Failure?
    ensures r.Success? ==> r.value.Keys == Default.Keys + read.fields.Keys + {"filename"}
    ensures r.Success? ==> r.value["filename"] == FileValue(args.filename)
    ensures r.Success? ==> forall k :: k in r.value && k !in DirectoryKeys + {"prescriber", "prescriber_directory"} ==>
      r.value[k] == Setting(read, k)
    ensures r.Success? ==> (Setting(read, "data_directory").Str? &&
      r.value["data_directory"] == Str(abspath(Setting(read, "data_directory").s)))
    ensures r.Success? ==> (Setting(read, "document_directory").Str? &&
      r.value["document_directory"] == Str(Join(r.value["data_directory"].s, Setting(read, "document_directory").s)))
    ensures r.Success? ==> (Setting(read, "template_directory").Str? &&
      r.value["template_directory"] == Str(Join(r.value["data_directory"].s, Setting(read, "template_directory").s)))
    ensures r.Success? ==> (Setting(read, "template").Str? &&
      r.value["template"] == Str(Join(r.value["template_directory"].s, Setting(read, "template").s)))
    ensures r.Success? && args.prescriber.None? ==> (Setting(read, "prescriber_directory").Str? &&
      r.value["prescriber_directory"] == Str(Join(r.value["data_directory"].s, Setting(read, "prescriber_directory").s)))
    ensures r.Success? && args.prescriber.None? ==> (Setting(read, "prescriber").Str? &&
      r.value["prescriber"] == Str(WithSuffix(Join(r.value["prescriber_directory"].s, Setting(read, "prescriber").s), ".json")))
  {
    var m :- Merge(Default, read);
    assert HasDefaultKeys(m);
    var r := Derivations(m, args, abspath, isFile);
    if r.Success? then Settings(read, m, r.value, args.prescriber.Some?, abspath); r else r
  }

  /** With an empty file and no options, the prescriber is
      `<data>/prescriber/prescriber.json`. */
  lemma DefaultPrescriber(data: string, isFile: string -> bool)
    requires data != []
    ensures var r := Prescriber(Default, Default, data, Args(None, None, None), isFile);
      r.Success? && r.value["prescriber"] == Str(WithSuffix(Join(Join(data, "prescriber"), "prescriber"), ".json"))
  {
    assert Default["prescriber_directory"] == Str("prescriber") && Default["prescriber"] == Str("prescriber");
    assert HasDefaultKeys(Default);
  }
}
