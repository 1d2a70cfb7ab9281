/** Running a workflow of a blueprint's local environment
    (aria_core/workflows.py). */
module Workflows {
  import opened PyValues
  import opened PyPath
  import opened PySys
  import PyStr

  const DefaultInterpreter := "python2.7"
  const InstallWorkflow := "install"
  const UninstallWorkflow := "uninstall"

  /** `'.venv_{0}'.format(blueprint_id)`: no id gives `.venv_None`, and a
      unicode id outside ASCII cannot be formatted into the byte-string
      template. */
  function VenvDirName(blueprintId: Option<Text>): (r: Result<string>)
    ensures blueprintId.None? ==> r == Ok(".venv_None")
    ensures blueprintId.Some? ==>
      var id := blueprintId.value;
      && (id.ByteStr? || PyStr.IsAscii(id.s) ==> r == Ok(".venv_" + id.s))
      && (id.UniStr? && !PyStr.IsAscii(id.s) ==> r == Err(UnicodeEncodeError(id.s, PyStr.FirstNonAscii(id.s))))
  {
    assert ".venv_" + "None" == ".venv_None";
    match FormatField(blueprintId)
    case Err(e) => Err(e)
    case Ok(id) => Ok(".venv_" + id)
  }

  /** `<cwd>/<venv dir>/lib/<interpreter>/site-packages` */
  function VenvSitePackages(cwd: Path, venvDir: string, interpreter: string): (p: Path)
    ensures |p| == |cwd| + 4 && p[..|cwd|] == cwd
    ensures p[|cwd|] == venvDir && p[|cwd| + 1..] == ["lib", interpreter, "site-packages"]
  {
    cwd + [venvDir, "lib", interpreter, "site-packages"]
  }

  /** The arguments `environment.execute` receives. */
  datatype ExecuteCall = ExecuteCall(
    workflow: Option<string>,
    parameters: Value,
    allowCustomParameters: Value,
    taskRetries: Value,
    taskRetryInterval: Value)

  /** `generic_execute(...)`: `environment` is None or the local
      environment's `execute`; its result and its failures come back
      unchanged. The site-packages path is on `sys.path` during the call and
      its first occurrence is deleted after a normal return; a failure, or a
      missing environment, leaves it there. A blueprint id that cannot be
      formatted fails before `sys.path` changes. */
  method GenericExecute<R>(cwd: Path, blueprintId: Option<Text>, workflowId: Option<string>,
                           parameters: Value, allowCustomParameters: Value,
                           taskRetries: Value, taskRetryInterval: Value,
                           environment: Option<ExecuteCall -> Result<R>>, interpreter: string,
                           sysPath: SysPath)
    returns (r: Result<R>)
    modifies sysPath
    ensures VenvDirName(blueprintId).Err? ==>
      r == Err(VenvDirName(blueprintId).error) && sysPath.entries == old(sysPath.entries)
    ensures VenvDirName(blueprintId).Ok? ==>
      && (environment.None? ==> r == Err(NoAttribute(Null, "execute")))
      && (environment.Some? ==>
            r == environment.value(ExecuteCall(workflowId, parameters, allowCustomParameters,
                                               taskRetries, taskRetryInterval)))
    ensures VenvDirName(blueprintId).Ok? ==>
      var entry := Some(Render(VenvSitePackages(cwd, VenvDirName(blueprintId).value, interpreter)));
      && (r.Err? ==> sysPath.entries == old(sysPath.entries) + [entry])
      && (r.Ok? ==> sysPath.entries == RemoveFirst(old(sysPath.entries) + [entry], entry))
      && (r.Ok? && entry !in old(sysPath.entries) ==> sysPath.entries == old(sysPath.entries))
  {
    var venvDir := VenvDirName(blueprintId);
    if venvDir.Err? {
      return Err(venvDir.error);
    }
    var venvPath := Render(VenvSitePackages(cwd, venvDir.value, interpreter));
    r := ExecuteWithPath(venvPath, ExecuteCall(workflowId, parameters, allowCustomParameters,
                                                                 taskRetries, taskRetryInterval),
                         environment, sysPath);
  }

  /** The part of `generic_execute` after the site-packages path is known:
      append it to `sys.path`, run the workflow, delete it again. */
  method ExecuteWithPath<R>(venvPath: string, call: ExecuteCall,
                            environment: Option<ExecuteCall -> Result<R>>, sysPath: SysPath)
    returns (r: Result<R>)
    modifies sysPath
    ensures var entry := Some(venvPath);
      && (environment.None? ==> r == Err(NoAttribute(Null, "execute")))
      && (environment.Some? ==> r == environment.value(call))
      && (r.Err? ==> sysPath.entries == old(sysPath.entries) + [entry])
      && (r.Ok? ==> sysPath.entries == RemoveFirst(old(sysPath.entries) + [entry], entry))
      && (r.Ok? && entry !in old(sysPath.entries) ==> sysPath.entries == old(sysPath.entries))
  {
    sysPath.Append(Some(venvPath));
    if environment.None? {
      return Err(NoAttribute(Null, "execute"));
    }
    var result := environment.value(call);
    if result.Err? {
      return result;
    }
    sysPath.DeleteFirst(Some(venvPath));
    if Some(venvPath) !in old(sysPath.entries) {
      RemoveFirstRestores(old(sysPath.entries), Some(venvPath));
    }
    return result;
  }

  /** `install(...)`: the `install` workflow, with no blueprint id. */
  method Install<R>(cwd: Path, parameters: Value, allowCustomParameters: Value,
                    taskRetries: Value, taskRetryInterval: Value,
                    environment: Option<ExecuteCall -> Result<R>>, sysPath: SysPath)
    returns (r: Result<R>)
    modifies sysPath
    ensures var entry := Some(Render(VenvSitePackages(cwd, ".venv_None", DefaultInterpreter)));
      && (environment.None? ==> r == Err(NoAttribute(Null, "execute")))
      && (environment.Some? ==>
            r == environment.value(ExecuteCall(Some(InstallWorkflow), parameters, allowCustomParameters,
                                               taskRetries, taskRetryInterval)))
      && (r.Err? ==> sysPath.entries == old(sysPath.entries) + [entry])
      && (r.Ok? ==> sysPath.entries == RemoveFirst(old(sysPath.entries) + [entry], entry))
      && (r.Ok? && entry !in old(sysPath.entries) ==> sysPath.entries == old(sysPath.entries))
  {
    r := GenericExecute(cwd, None, Some(InstallWorkflow), parameters, allowCustomParameters,
                        taskRetries, taskRetryInterval, environment, DefaultInterpreter, sysPath);
  }

  /** `uninstall(...)`: the `uninstall` workflow, with no blueprint id. */
  method Uninstall<R>(cwd: Path, parameters: Value, allowCustomParameters: Value,
                      taskRetries: Value, taskRetryInterval: Value,
                      environment: Option<ExecuteCall -> Result<R>>, sysPath: SysPath)
    returns (r: Result<R>)
    modifies sysPath
    ensures var entry := Some(Render(VenvSitePackages(cwd, ".venv_None", DefaultInterpreter)));
      && (environment.None? ==> r == Err(NoAttribute(Null, "execute")))
      && (environment.Some? ==>
            r == environment.value(ExecuteCall(Some(UninstallWorkflow), parameters, allowCustomParameters,
                                               taskRetries, taskRetryInterval)))
      && (r.Err? ==> sysPath.entries == old(sysPath.entries) + [entry])
      && (r.Ok? ==> sysPath.entries == RemoveFirst(old(sysPath.entries) + [entry], entry))
      && (r.Ok? && entry !in old(sysPath.entries) ==> sysPath.entries == old(sysPath.entries))
  {
    r := GenericExecute(cwd, None, Some(UninstallWorkflow), parameters, allowCustomParameters,
                        taskRetries, taskRetryInterval, environment, DefaultInterpreter, sysPath);
  }

  /** `install` and `uninstall` pass no blueprint id, so both look in
      `<cwd>/.venv_None`, whichever blueprint the environment belongs to. */
  lemma InstallLooksInVenvNone(cwd: Path)
    ensures VenvDirName(None) == Ok(".venv_None")
    ensures VenvSitePackages(cwd, ".venv_None", DefaultInterpreter)
      == cwd + [".venv_None", "lib", "python2.7", "site-packages"]
  {
  }

  /** Blueprint ids with different text give different site-packages paths,
      and the kind of an id that can be formatted does not matter. */
  lemma VenvPathsDistinct(cwd: Path, a: Text, b: Text, interpreter: string)
    requires VenvDirName(Some(a)).Ok? && VenvDirName(Some(b)).Ok?
    ensures a.s != b.s <==>
      VenvSitePackages(cwd, VenvDirName(Some(a)).value, interpreter)
        != VenvSitePackages(cwd, VenvDirName(Some(b)).value, interpreter)
  {
    var pa := VenvSitePackages(cwd, VenvDirName(Some(a)).value, interpreter);
    var pb := VenvSitePackages(cwd, VenvDirName(Some(b)).value, interpreter);
    assert pa[|cwd|] == ".venv_" + a.s && pb[|cwd|] == ".venv_" + b.s;
    assert pa[|cwd|][6..] == a.s && pb[|cwd|][6..] == b.s;
  }
}
