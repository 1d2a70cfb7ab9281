/** Installing a blueprint's plugins into its virtualenv and building the
    blueprint's local environment (aria_core/processor/virtualenv_processor.py). */
module VirtualenvProcessor {
  import opened PyValues
  import opened PyPath
  import opened PySys
  import BlueprintProcessor
  import LoggerConfig
  import Utils

  const InstallErrorPrefix := "Unable to install dependencies. "

  /** The workflow modules the local environment does not load. */
  const IgnoredLocalWorkflowModules: seq<string> := [
    "cloudify_agent.operations",
    "cloudify_agent.installer.operations",
    "worker_installer.tasks",
    "plugin_installer.tasks",
    "windows_agent_installer.tasks",
    "windows_plugin_installer.tasks"
  ]

  predicate Distinct(s: seq<string>)
  {
    forall i, j :: 0 <= i < j < |s| ==> s[i] != s[j]
  }

  /** `<venv>/lib/<python>/site-packages` */
  function SitePackages(venvPath: Path, python: string): (p: Path)
    ensures |p| == |venvPath| + 3 && p[..|venvPath|] == venvPath
    ensures p[|venvPath|..] == ["lib", python, "site-packages"]
  {
    venvPath + ["lib", python, "site-packages"]
  }

  /** A virtualenv as virtualenvapi manages it: the interpreter it was
      created with, the packages installed in it, and the failures its
      `open_or_create` and `install` run into. */
  class VirtualEnv {
    const path: Path
    const python: string
    /** `open_or_create()` raises with this message. */
    const createFailure: Option<string>
    /** `install(req)` raises with `failures[req]`. */
    const failures: map<string, string>
    var isOpen: bool
    var installed: set<string>
    /** Every `install` call made, in order. */
    var installCalls: seq<string>

    constructor (path: Path, python: string, installed: set<string>,
                 createFailure: Option<string>, failures: map<string, string>)
      ensures this.path == path && this.python == python
      ensures this.createFailure == createFailure && this.failures == failures
      ensures !isOpen && this.installed == installed && installCalls == []
    {
      this.path := path;
      this.python := python;
      this.createFailure := createFailure;
      this.failures := failures;
      isOpen := false;
      this.installed := installed;
      installCalls := [];
    }

    /** `venv.is_installed(req)` */
    predicate IsInstalled(req: string)
      reads this
    {
      req in installed
    }

    /** Installing `reqs` into this environment runs into a failure: it
        cannot be opened, or a requirement it lacks fails to install. */
    predicate WouldFail(reqs: set<string>)
      reads this
    {
      createFailure.Some? || exists q :: q in reqs && q !in installed && q in failures
    }

    /** `venv.open_or_create()` */
    method OpenOrCreate() returns (err: Option<string>)
      modifies this
      ensures err == createFailure
      ensures isOpen == (old(isOpen) || createFailure.None?)
      ensures installed == old(installed) && installCalls == old(installCalls)
    {
      err := createFailure;
      if createFailure.None? {
        isOpen := true;
      }
    }

    /** `venv.install(req)`: a failure installs nothing. */
    method Install(req: string) returns (err: Option<string>)
      modifies this
      ensures installCalls == old(installCalls) + [req]
      ensures isOpen == old(isOpen)
      ensures req in failures ==> err == Some(failures[req]) && installed == old(installed)
      ensures req !in failures ==> err == None && installed == old(installed) + {req}
    {
      installCalls := installCalls + [req];
      if req in failures {
        err := Some(failures[req]);
      } else {
        err := None;
        installed := installed + {req};
      }
    }
  }

  /** The requirements of the blueprint, when it parses. */
  function RequirementsOf(blueprintPath: Path, parse: Path -> Result<BlueprintProcessor.Plan>, abspath: Path -> Path): set<string>
    requires parse(blueprintPath).Ok?
  {
    BlueprintProcessor.PlanRequirements(blueprintPath, parse(blueprintPath).value, abspath)
  }

  function Elements(s: seq<string>): set<string>
  {
    set x | x in s
  }

  /** One more distinct call keeps the calls distinct. */
  lemma AppendDistinct(s: seq<string>, x: string)
    requires Distinct(s) && x !in Elements(s)
    ensures Distinct(s + [x]) && Elements(s + [x]) == Elements(s) + {x}
  {
    forall i, j | 0 <= i < j < |s| + 1 ensures (s + [x])[i] != (s + [x])[j] {
      if j == |s| {
        assert s[i] in Elements(s);
      }
    }
  }

  /** What installing the lacking members of `reqs` into an environment
      that had `before` leaves behind, given the `install` calls made and
      `err`: each call is for a different lacking requirement; with no
      error all of them were installed, and an error is the failure of the
      last call, after which only the earlier calls' requirements were
      installed. */
  predicate InstallOutcome(before: set<string>, reqs: set<string>, failures: map<string, string>,
                           calls: seq<string>, after: set<string>, err: Option<string>)
  {
    && Distinct(calls)
    && Elements(calls) <= reqs - before
    && before <= after <= before + reqs
    && (err.None? <==> !exists q :: q in reqs && q !in before && q in failures)
    && (err.None? ==> Elements(calls) == reqs - before && after == before + reqs)
    && (err.Some? ==>
          && calls != []
          && calls[|calls| - 1] in failures
          && err == Some(failures[calls[|calls| - 1]])
          && (forall i :: 0 <= i < |calls| - 1 ==> calls[i] !in failures)
          && after == before + Elements(calls[..|calls| - 1]))
  }

  /** The state of the install loop with `todo` still to visit: the calls
      made so far are distinct, each for a visited requirement the
      environment lacked, none failed, and each was installed. */
  predicate LoopState(before: set<string>, reqs: set<string>, todo: set<string>, failures: map<string, string>,
                      calls: seq<string>, installed: set<string>)
  {
    && todo <= reqs
    && installed == before + (reqs - todo)
    && Distinct(calls)
    && Elements(calls) == (reqs - todo) - before
    && (forall i :: 0 <= i < |calls| ==> calls[i] !in failures)
  }

  /** Visiting a requirement the environment already has changes nothing. */
  lemma SkipStep(before: set<string>, reqs: set<string>, todo: set<string>, failures: map<string, string>,
                 calls: seq<string>, installed: set<string>, req: string)
    requires LoopState(before, reqs, todo, failures, calls, installed)
    requires req in todo && req in installed
    ensures LoopState(before, reqs, todo - {req}, failures, calls, installed)
  {
  }

  /** Installing a lacking requirement successfully records one more call. */
  lemma InstallStep(before: set<string>, reqs: set<string>, todo: set<string>, failures: map<string, string>,
                    calls: seq<string>, installed: set<string>, req: string)
    requires LoopState(before, reqs, todo, failures, calls, installed)
    requires req in todo && req !in installed && req !in failures
    ensures LoopState(before, reqs, todo - {req}, failures, calls + [req], installed + {req})
  {
    AppendDistinct(calls, req);
  }

  /** The loop stops at `req`, the first call that fails. */
  lemma FailureOutcome(before: set<string>, reqs: set<string>, todo: set<string>, failures: map<string, string>,
                       calls: seq<string>, installed: set<string>, req: string)
    requires LoopState(before, reqs, todo, failures, calls, installed)
    requires req in todo && req !in installed && req in failures
    ensures InstallOutcome(before, reqs, failures, calls + [req], installed, Some(failures[req]))
  {
    AppendDistinct(calls, req);
    assert (calls + [req])[..|calls|] == calls;
  }

  /** The loop ran through every requirement without a failure. */
  lemma SuccessOutcome(before: set<string>, reqs: set<string>, failures: map<string, string>,
                       calls: seq<string>, installed: set<string>)
    requires LoopState(before, reqs, {}, failures, calls, installed)
    ensures InstallOutcome(before, reqs, failures, calls, installed, None)
  {
    forall q | q in reqs && q !in before ensures q !in failures {
      assert q in Elements(calls);
      var k :| 0 <= k < |calls| && calls[k] == q;
    }
  }

  /** The loop of `install_blueprint_plugins` over the requirements, in no
      particular order: a requirement the environment lacks is installed,
      once; the first failure stops the loop and leaves in place what was
      installed before it. */
  method InstallMissing(venv: VirtualEnv, reqs: set<string>) returns (err: Option<string>)
    modifies venv
    ensures venv.isOpen == old(venv.isOpen)
    ensures |venv.installCalls| >= |old(venv.installCalls)|
    ensures venv.installCalls[..|old(venv.installCalls)|] == old(venv.installCalls)
    ensures InstallOutcome(old(venv.installed), reqs, venv.failures,
                           venv.installCalls[|old(venv.installCalls)|..], venv.installed, err)
  {
    ghost var before := venv.installed;
    ghost var start := venv.installCalls;
    ghost var calls: seq<string> := [];
    var todo := reqs;
    while todo != {}
      invariant venv.isOpen == old(venv.isOpen)
      invariant venv.installCalls == start + calls
      invariant LoopState(before, reqs, todo, venv.failures, calls, venv.installed)
      decreases todo
    {
      var req :| req in todo;
      if venv.IsInstalled(req) {
        SkipStep(before, reqs, todo, venv.failures, calls, venv.installed, req);
      } else {
        ghost var installed := venv.installed;
        err := venv.Install(req);
        if err.Some? {
          assert venv.installCalls[|start|..] == calls + [req];
          FailureOutcome(before, reqs, todo, venv.failures, calls, installed, req);
          return;
        }
        InstallStep(before, reqs, todo, venv.failures, calls, installed, req);
        calls := calls + [req];
      }
      todo := todo - {req};
    }
    err := None;
    assert venv.installCalls[|start|..] == calls;
    SuccessOutcome(before, reqs, venv.failures, calls, venv.installed);
  }

  /** `install_blueprint_plugins(...)`: `venv` is the virtualenv at
      `utils.venv_path(blueprint_id, storage_path)`, created with
      `python=default_python_interpreter`. The requirements are computed
      first, whether or not plugins are to be installed; the environment is
      opened only when there is something to install, and any failure
      becomes an `AriaError`. */
  method InstallBlueprintPlugins(blueprintPath: Path, installPlugins: bool,
                                 parse: Path -> Result<BlueprintProcessor.Plan>, abspath: Path -> Path,
                                 venv: VirtualEnv)
    returns (r: Result<Option<Path>>)
    modifies venv
    ensures parse(blueprintPath).Err? ==> r == Err(parse(blueprintPath).error) && unchanged(venv)
    ensures parse(blueprintPath).Ok? && (!installPlugins || RequirementsOf(blueprintPath, parse, abspath) == {}) ==>
      r == Ok(None) && unchanged(venv)
    ensures parse(blueprintPath).Ok? && installPlugins && RequirementsOf(blueprintPath, parse, abspath) != {} ==>
      var reqs := RequirementsOf(blueprintPath, parse, abspath);
      var before := |old(venv.installCalls)|;
      && |venv.installCalls| >= before && venv.installCalls[..before] == old(venv.installCalls)
      && var calls := venv.installCalls[before..];
      && Distinct(calls)
      && Elements(calls) <= reqs - old(venv.installed)
      && old(venv.installed) <= venv.installed <= old(venv.installed) + reqs
      && (r.Ok? <==> !old(venv.WouldFail(reqs)))
      && (r.Ok? ==>
            && r.value == Some(SitePackages(venv.path, venv.python))
            && venv.isOpen
            && Elements(calls) == reqs - old(venv.installed)
            && venv.installed == old(venv.installed) + reqs)
      && (r.Err? && venv.createFailure.Some? ==>
            && r == Err(AriaError(InstallErrorPrefix + venv.createFailure.value, []))
            && calls == []
            && venv.installed == old(venv.installed))
      && (r.Err? && venv.createFailure.None? ==>
            && calls != []
            && calls[|calls| - 1] in venv.failures
            && r == Err(AriaError(InstallErrorPrefix + venv.failures[calls[|calls| - 1]], []))
            && (forall i :: 0 <= i < |calls| - 1 ==> calls[i] !in venv.failures)
            && venv.installed == old(venv.installed) + Elements(calls[..|calls| - 1]))
  {
    var requirements := BlueprintProcessor.CreateRequirements(blueprintPath, parse, abspath);
    if requirements.Err? {
      return Err(requirements.error);
    }
    var reqs := requirements.value;
    if !installPlugins || reqs == {} {
      return Ok(None);
    }
    var openError := venv.OpenOrCreate();
    if openError.Some? {
      assert venv.installCalls[|venv.installCalls|..] == [];
      return Err(AriaError(InstallErrorPrefix + openError.value, []));
    }
    var installError := InstallMissing(venv, reqs);
    if installError.Some? {
      return Err(AriaError(InstallErrorPrefix + installError.value, []));
    }
    return Ok(Some(SitePackages(venv.path, venv.python)));
  }

  /** The `sys.path` entry for the result of installing the plugins. */
  function EntryFor(venvPath: Option<Path>): Entry
  {
    if venvPath.Some? then Some(Render(venvPath.value)) else None
  }

  /** The arguments `initialize_blueprint` hands to `init_env`. */
  datatype InitEnvCall<Storage, Resolver> = InitEnvCall(
    blueprintPath: Path,
    name: string,
    inputs: Option<Value>,
    storage: Storage,
    ignoredModules: seq<string>,
    providerContext: Value,
    resolver: Option<Resolver>)

  /** The provider context and the normalised inputs, read after the
      plugins are installed and before `sys.path` changes. The inputs go
      through `inputs_to_dict` as written, so a dictionary of inputs fails
      on `strip` here. */
  function ContextAndInputs(wd: LoggerConfig.WorkDir, readYaml: Path -> Result<Value>,
                            inputs: Value, yaml: Utils.YamlSource): Result<(Value, Option<Value>)>
  {
    match LoggerConfig.ConfigOf(wd, readYaml)
    case Err(e) => Err(e)
    case Ok(config) =>
      match config.LocalProviderContext()
      case Err(e) => Err(e)
      case Ok(providerContext) =>
        match Utils.InputsToDictAsWritten(inputs, "inputs", yaml)
        case Err(e) => Err(e)
        case Ok(normalised) => Ok((providerContext, normalised))
  }

  /** `initialize_blueprint(inputs={'a': 1}, ...)`: once the configuration
      and its provider context are read, a non-empty dictionary of inputs
      fails with the `AttributeError` of `strip`, so `BuildEnvironment`
      leaves `sys.path` alone and never calls `init_env`. */
  lemma ContextAndInputsRejectDictionary(wd: LoggerConfig.WorkDir, readYaml: Path -> Result<Value>,
                                         m: map<Value, Value>, yaml: Utils.YamlSource)
    requires m != map[]
    requires LoggerConfig.ConfigOf(wd, readYaml).Ok?
    requires LoggerConfig.ConfigOf(wd, readYaml).value.LocalProviderContext().Ok?
    ensures ContextAndInputs(wd, readYaml, Dict(m), yaml) == Err(NoAttribute(Dict(m), "strip"))
  {
    Utils.InputsAsWrittenRejectDictionary(m, "inputs", yaml);
  }

  /** The part of `initialize_blueprint` after the plugins are installed:
      read the provider context, normalise the inputs, put `entry` on
      `sys.path`, make the import resolver, build the environment with
      `init_env` and take `entry` off again. Nothing restores `sys.path`
      when making the resolver or `init_env` fails. The configuration has
      been read by then, so only the resolver factory itself can fail. */
  method BuildEnvironment<Storage, Resolver, Env>(
    blueprintPath: Path, blueprintId: string, storage: Storage, inputs: Value, entry: Entry,
    wd: LoggerConfig.WorkDir, readYaml: Path -> Result<Value>, yaml: Utils.YamlSource,
    createResolver: Value -> Result<Resolver>,
    initEnv: InitEnvCall<Storage, Resolver> -> Result<Env>, sysPath: SysPath)
    returns (r: Result<Env>)
    modifies sysPath
    ensures var prepared := ContextAndInputs(wd, readYaml, inputs, yaml);
      prepared.Err? ==> r == Err(prepared.error) && sysPath.entries == old(sysPath.entries)
    ensures var prepared := ContextAndInputs(wd, readYaml, inputs, yaml);
      prepared.Ok? ==>
      && LoggerConfig.ConfigOf(wd, readYaml).Ok?
      && LoggerConfig.ConfigOf(wd, readYaml).value.LocalImportResolver().Ok?
      && var made := createResolver(LoggerConfig.ConfigOf(wd, readYaml).value.LocalImportResolver().value);
         Utils.ImportResolverOf(wd, readYaml, createResolver)
           == (if made.Ok? then Ok(Some(made.value)) else Err(made.error))
    ensures var prepared := ContextAndInputs(wd, readYaml, inputs, yaml);
      var resolver := Utils.ImportResolverOf(wd, readYaml, createResolver);
      prepared.Ok? ==>
      && (resolver.Err? ==> r == Err(resolver.error) && sysPath.entries == old(sysPath.entries) + [entry])
      && (resolver.Ok? ==>
            var call := InitEnvCall(blueprintPath, blueprintId, prepared.value.1, storage,
                                    IgnoredLocalWorkflowModules, prepared.value.0, resolver.value);
            && r == initEnv(call)
            && (r.Err? ==> sysPath.entries == old(sysPath.entries) + [entry])
            && (r.Ok? ==> sysPath.entries == RemoveFirst(old(sysPath.entries) + [entry], entry))
            && (r.Ok? && entry !in old(sysPath.entries) ==> sysPath.entries == old(sysPath.entries)))
  {
    var config := LoggerConfig.LoadAriaConfig(wd, readYaml);
    if config.Err? {
      return Err(config.error);
    }
    var providerContext := config.value.LocalProviderContext();
    if providerContext.Err? {
      return Err(providerContext.error);
    }
    var normalised := Utils.InputsToDictAsWritten(inputs, "inputs", yaml);
    if normalised.Err? {
      return Err(normalised.error);
    }
    sysPath.Append(entry);
    var resolver := Utils.GetImportResolver(wd, readYaml, createResolver);
    if resolver.Err? {
      return Err(resolver.error);
    }
    var env := initEnv(InitEnvCall(blueprintPath, blueprintId, normalised.value, storage,
                                   IgnoredLocalWorkflowModules, providerContext.value, resolver.value));
    if env.Err? {
      return Err(env.error);
    }
    sysPath.DeleteFirst(entry);
    if entry !in old(sysPath.entries) {
      RemoveFirstRestores(old(sysPath.entries), entry);
    }
    return Ok(env.value);
  }

  /** `initialize_blueprint(...)`: install the plugins, then build the
      environment with the site-packages path (or None) on `sys.path`. An
      installation failure happens before `sys.path` changes. */
  method InitializeBlueprint<Storage, Resolver, Env>(
    blueprintPath: Path, blueprintId: string, storage: Storage, installPlugins: bool, inputs: Value,
    parse: Path -> Result<BlueprintProcessor.Plan>, abspath: Path -> Path, venv: VirtualEnv,
    wd: LoggerConfig.WorkDir, readYaml: Path -> Result<Value>, yaml: Utils.YamlSource,
    createResolver: Value -> Result<Resolver>,
    initEnv: InitEnvCall<Storage, Resolver> -> Result<Env>, sysPath: SysPath)
    returns (r: Result<Env>)
    modifies venv, sysPath
    ensures parse(blueprintPath).Err? ==>
      r == Err(parse(blueprintPath).error) && sysPath.entries == old(sysPath.entries) && unchanged(venv)
    ensures parse(blueprintPath).Ok? && (!installPlugins || RequirementsOf(blueprintPath, parse, abspath) == {}) ==>
      unchanged(venv)
    ensures parse(blueprintPath).Ok? && installPlugins && RequirementsOf(blueprintPath, parse, abspath) != {} ==>
      var reqs := RequirementsOf(blueprintPath, parse, abspath);
      var before := |old(venv.installCalls)|;
      && |venv.installCalls| >= before && venv.installCalls[..before] == old(venv.installCalls)
      && var calls := venv.installCalls[before..];
      && Distinct(calls)
      && Elements(calls) <= reqs - old(venv.installed)
      && old(venv.installed) <= venv.installed <= old(venv.installed) + reqs
      && (!old(venv.WouldFail(reqs)) ==>
            && venv.isOpen
            && Elements(calls) == reqs - old(venv.installed)
            && venv.installed == old(venv.installed) + reqs)
      && (old(venv.WouldFail(reqs)) && venv.createFailure.Some? ==>
            && r == Err(AriaError(InstallErrorPrefix + venv.createFailure.value, []))
            && calls == []
            && venv.installed == old(venv.installed))
      && (old(venv.WouldFail(reqs)) && venv.createFailure.None? ==>
            && calls != []
            && calls[|calls| - 1] in venv.failures
            && r == Err(AriaError(InstallErrorPrefix + venv.failures[calls[|calls| - 1]], []))
            && (forall i :: 0 <= i < |calls| - 1 ==> calls[i] !in venv.failures)
            && venv.installed == old(venv.installed) + Elements(calls[..|calls| - 1]))
    ensures parse(blueprintPath).Ok? ==>
      var reqs := RequirementsOf(blueprintPath, parse, abspath);
      var installing := installPlugins && reqs != {};
      var entry := EntryFor(if installing then Some(SitePackages(venv.path, venv.python)) else None);
      var prepared := ContextAndInputs(wd, readYaml, inputs, yaml);
      var resolver := Utils.ImportResolverOf(wd, readYaml, createResolver);
      && (installing && old(venv.WouldFail(reqs)) ==>
            r.Err? && r.error.AriaError? && sysPath.entries == old(sysPath.entries))
      && (!(installing && old(venv.WouldFail(reqs))) ==>
            && (prepared.Err? ==> r == Err(prepared.error) && sysPath.entries == old(sysPath.entries))
            && (prepared.Ok? && resolver.Err? ==>
                  r == Err(resolver.error) && sysPath.entries == old(sysPath.entries) + [entry])
            && (prepared.Ok? && resolver.Ok? ==>
                  var call := InitEnvCall(blueprintPath, blueprintId, prepared.value.1, storage,
                                          IgnoredLocalWorkflowModules, prepared.value.0, resolver.value);
                  && r == initEnv(call)
                  && (r.Err? ==> sysPath.entries == old(sysPath.entries) + [entry])
                  && (r.Ok? ==> sysPath.entries == RemoveFirst(old(sysPath.entries) + [entry], entry))
                  && (r.Ok? && entry !in old(sysPath.entries) ==> sysPath.entries == old(sysPath.entries))))
  {
    var venvPath := InstallBlueprintPlugins(blueprintPath, installPlugins, parse, abspath, venv);
    if venvPath.Err? {
      return Err(venvPath.error);
    }
    r := BuildEnvironment(blueprintPath, blueprintId, storage, inputs, EntryFor(venvPath.value),
                          wd, readYaml, yaml, createResolver, initEnv, sysPath);
  }
}
