/** The working-directory lookup and the configuration accessors of
    aria_core/logger_config.py. */
module LoggerConfig {
  import opened PyValues
  import opened PyPath

  /** Name of the working-directory settings directory. */
  const AriaDirName := ".aria"
  const ConfigFileName := "config.yaml"
  /** The DSL parser's key for the import resolver section. */
  const ImportResolverKey := "import_resolver"

  /** What the lookup sees of the process: `os.getcwd()` and `os.path.exists`. */
  datatype WorkDir = WorkDir(cwd: Path, pathExists: Path -> bool)

  /** `dir` holds a `.aria` entry. */
  predicate HasAria(pathExists: Path -> bool, dir: Path)
  {
    pathExists(Join(dir, AriaDirName))
  }

  /** The `.aria` of the nearest directory, `dir` itself first and then each
      ancestor up to the root, that has one; None if none has. */
  function NearestInit(dir: Path, pathExists: Path -> bool): (r: Option<Path>)
    ensures r.Some? ==>
      && 1 <= |r.value| <= |dir| + 1
      && r.value == Join(dir[..|r.value| - 1], AriaDirName)
      && HasAria(pathExists, dir[..|r.value| - 1])
      && forall j :: |r.value| - 1 < j <= |dir| ==> !HasAria(pathExists, dir[..j])
    ensures r.None? <==> forall j :: 0 <= j <= |dir| ==> !HasAria(pathExists, dir[..j])
    decreases |dir|
  {
    if HasAria(pathExists, dir) then
      assert dir[..|dir|] == dir;
      Some(Join(dir, AriaDirName))
    else if Dirname(dir) == dir then
      assert dir == [] && dir[..0] == dir;
      None
    else
      var parent := Dirname(dir);
      assert forall j :: 0 <= j <= |parent| ==> parent[..j] == dir[..j];
      assert dir[..|dir|] == dir;
      NearestInit(parent, pathExists)
  }

  /** `get_init_path()`: walk up from the working directory until a `.aria`
      is found or the root, its own dirname, is reached. */
  method GetInitPath(wd: WorkDir) returns (r: Option<Path>)
    ensures r == NearestInit(wd.cwd, wd.pathExists)
  {
    var current := wd.cwd;
    while true
      invariant NearestInit(current, wd.pathExists) == NearestInit(wd.cwd, wd.pathExists)
      decreases |current|
    {
      var path := Join(current, AriaDirName);
      if wd.pathExists(path) {
        return Some(path);
      }
      if Dirname(current) == current {
        return None;
      }
      current := Dirname(current);
    }
  }

  /** `get_configuration_path()`: `config.yaml` inside `.aria`; without one,
      `os.path.join(None, ...)` fails on `None.endswith`. */
  method GetConfigurationPath(wd: WorkDir) returns (r: Result<Path>)
    ensures NearestInit(wd.cwd, wd.pathExists).None? ==> r == Err(NoAttribute(Null, "endswith"))
    ensures NearestInit(wd.cwd, wd.pathExists).Some? ==>
      r == Ok(Join(NearestInit(wd.cwd, wd.pathExists).value, ConfigFileName))
  {
    var dotAria := GetInitPath(wd);
    if dotAria.None? {
      return Err(NoAttribute(Null, "endswith"));
    }
    return Ok(Join(dotAria.value, ConfigFileName));
  }

  /** `AriaConfig.Logging`: the `logging` section, `{}` when it is None or empty. */
  datatype LoggingSection = LoggingSection(section: Value) {

    /** `filename`: None when absent. */
    function Filename(): (r: Result<Value>)
      ensures section.Dict? ==> r.Ok?
      ensures section.Dict? && Str("filename") in section.entries ==> r.value == section.entries[Str("filename")]
      ensures section.Dict? && Str("filename") !in section.entries ==> r.value == Null
      ensures !section.Dict? ==> r == Err(NoAttribute(section, "get"))
    {
      DictGet(section, Str("filename"), Null)
    }

    /** `loggers`: `{}` when absent. */
    function Loggers(): (r: Result<Value>)
      ensures section.Dict? ==> r.Ok?
      ensures section.Dict? && Str("loggers") in section.entries ==> r.value == section.entries[Str("loggers")]
      ensures section.Dict? && Str("loggers") !in section.entries ==> r.value == Dict(map[])
      ensures !section.Dict? ==> r == Err(NoAttribute(section, "get"))
    {
      DictGet(section, Str("loggers"), Dict(map[]))
    }
  }

  /** `AriaConfig.Logging(logging)`: `self._logging = logging or {}`. */
  function MakeLoggingSection(logging: Value): (l: LoggingSection)
    ensures Truthy(logging) ==> l.section == logging
    ensures !Truthy(logging) ==> l.section == Dict(map[])
  {
    LoggingSection(if Truthy(logging) then logging else Dict(map[]))
  }

  /** `AriaConfig` over the already loaded `config.yaml` document. */
  datatype AriaConfig = AriaConfig(config: Value) {

    /** `config.logging`: the `logging` section, `{}` when absent. */
    function Logging(): (r: Result<LoggingSection>)
      ensures config.Dict? <==> r.Ok?
      ensures config.Dict? && Str("logging") !in config.entries ==> r.value.section == Dict(map[])
      ensures config.Dict? && Str("logging") in config.entries ==>
        r.value == MakeLoggingSection(config.entries[Str("logging")])
    {
      match DictGet(config, Str("logging"), Dict(map[]))
      case Ok(v) => Ok(MakeLoggingSection(v))
      case Err(e) => Err(e)
    }

    /** `config.local_provider_context`: `{}` when absent. */
    function LocalProviderContext(): (r: Result<Value>)
      ensures config.Dict? <==> r.Ok?
      ensures config.Dict? && Str("local_provider_context") in config.entries ==>
        r.value == config.entries[Str("local_provider_context")]
      ensures config.Dict? && Str("local_provider_context") !in config.entries ==> r.value == Dict(map[])
    {
      DictGet(config, Str("local_provider_context"), Dict(map[]))
    }

    /** `config.local_import_resolver`: `{}` when absent. */
    function LocalImportResolver(): (r: Result<Value>)
      ensures config.Dict? <==> r.Ok?
      ensures config.Dict? && Str(ImportResolverKey) in config.entries ==>
        r.value == config.entries[Str(ImportResolverKey)]
      ensures config.Dict? && Str(ImportResolverKey) !in config.entries ==> r.value == Dict(map[])
    {
      DictGet(config, Str(ImportResolverKey), Dict(map[]))
    }
  }

  /** A configuration without a `logging` key logs to no file and configures no logger. */
  lemma LoggingDefaults(c: AriaConfig)
    requires c.config.Dict? && Str("logging") !in c.config.entries
    ensures c.Logging().Ok?
    ensures c.Logging().value.Filename() == Ok(Null)
    ensures c.Logging().value.Loggers() == Ok(Dict(map[]))
  {
  }

  /** What `AriaConfig()` yields: the YAML document of `config.yaml` in the
      nearest `.aria`; `readYaml` stands for opening the file and
      `yaml.safe_load`, with their failures. */
  function ConfigOf(wd: WorkDir, readYaml: Path -> Result<Value>): (r: Result<AriaConfig>)
    ensures NearestInit(wd.cwd, wd.pathExists).None? ==> r == Err(NoAttribute(Null, "endswith"))
    ensures NearestInit(wd.cwd, wd.pathExists).Some? ==>
      var loaded := readYaml(Join(NearestInit(wd.cwd, wd.pathExists).value, ConfigFileName));
      && (r.Ok? <==> loaded.Ok?)
      && (r.Ok? ==> r.value == AriaConfig(loaded.value))
      && (r.Err? ==> r.error == loaded.error)
  {
    match NearestInit(wd.cwd, wd.pathExists)
    case None => Err(NoAttribute(Null, "endswith"))
    case Some(dotAria) =>
      match readYaml(Join(dotAria, ConfigFileName))
      case Ok(document) => Ok(AriaConfig(document))
      case Err(e) => Err(e)
  }

  /** `AriaConfig()`: locate `config.yaml`, then read and load it. */
  method LoadAriaConfig(wd: WorkDir, readYaml: Path -> Result<Value>) returns (r: Result<AriaConfig>)
    ensures r == ConfigOf(wd, readYaml)
  {
    var path := GetConfigurationPath(wd);
    if path.Err? {
      return Err(path.error);
    }
    var loaded := readYaml(path.value);
    if loaded.Err? {
      return Err(loaded.error);
    }
    return Ok(AriaConfig(loaded.value));
  }
}
