/** Turning the plugins a parsed blueprint declares into the set of sources
    to install (aria_core/processor/blueprint_processor.py). */
module BlueprintProcessor {
  import opened PyValues
  import opened PyPath
  import PyStr

  /** Directory, next to the blueprint, that holds local plugins. */
  const PluginsDirName := "plugins"
  /** A source holding this marker is a URL. */
  const UrlMarker := "://"

  /** A plugin declaration: whether the DSL marks it for installation
      (the truth value of its install flag) and its source. */
  datatype Plugin = Plugin(install: bool, source: string)

  datatype Node = Node(plugins: seq<Plugin>)

  /** What the DSL parser returns: the deployment-level plugins to install
      and the nodes with their own plugins. */
  datatype Plan = Plan(deploymentPluginsToInstall: seq<Plugin>, nodes: seq<Node>)

  /** The install source one install-flagged plugin contributes: a URL as it
      is; otherwise `join(abspath(dirname(blueprint_path)), 'plugins', source)`,
      where `abspath` resolves a path against the working directory. */
  function Requirement(blueprintPath: Path, source: string, abspath: Path -> Path): string
  {
    if PyStr.Contains(source, UrlMarker) then source
    else if IsAbsolute(source) then source
    else Render(abspath(Dirname(blueprintPath)) + [PluginsDirName, source])
  }

  /** The sources of `plugins`, declaration by declaration. */
  function Requirements(blueprintPath: Path, plugins: seq<Plugin>, abspath: Path -> Path): set<string>
    decreases |plugins|
  {
    if plugins == [] then {}
    else
      var last := plugins[|plugins| - 1];
      Requirements(blueprintPath, plugins[..|plugins| - 1], abspath)
        + (if last.install then {Requirement(blueprintPath, last.source, abspath)} else {})
  }

  /** A source is required exactly when some install-flagged plugin gives it. */
  lemma {:induction false} RequirementsMembership(blueprintPath: Path, plugins: seq<Plugin>, abspath: Path -> Path, x: string)
    ensures x in Requirements(blueprintPath, plugins, abspath) <==>
      exists i :: 0 <= i < |plugins| && plugins[i].install && Requirement(blueprintPath, plugins[i].source, abspath) == x
    decreases |plugins|
  {
    if plugins != [] {
      var n := |plugins| - 1;
      var front := plugins[..n];
      RequirementsMembership(blueprintPath, front, abspath, x);
      assert forall i :: 0 <= i < n ==> front[i] == plugins[i];
      if x in Requirements(blueprintPath, front, abspath) {
        var i :| 0 <= i < n && front[i].install && Requirement(blueprintPath, front[i].source, abspath) == x;
        assert plugins[i] == front[i];
      }
    }
  }

  /** `_plugins_to_requirements(blueprint_path, plugins)` */
  method PluginsToRequirements(blueprintPath: Path, plugins: seq<Plugin>, abspath: Path -> Path)
    returns (sources: set<string>)
    ensures sources == Requirements(blueprintPath, plugins, abspath)
    ensures forall x :: x in sources <==>
      exists i :: 0 <= i < |plugins| && plugins[i].install && Requirement(blueprintPath, plugins[i].source, abspath) == x
  {
    sources := {};
    for i := 0 to |plugins|
      invariant sources == Requirements(blueprintPath, plugins[..i], abspath)
    {
      assert plugins[..i + 1][..i] == plugins[..i];
      var plugin := plugins[i];
      if plugin.install {
        var source := plugin.source;
        if PyStr.Contains(source, UrlMarker) {
          sources := sources + {source};
        } else {
          var pluginPath := if IsAbsolute(source) then source
                            else Render(abspath(Dirname(blueprintPath)) + [PluginsDirName, source]);
          sources := sources + {pluginPath};
        }
      }
    }
    assert plugins[..|plugins|] == plugins;
    forall x ensures x in sources <==>
      exists i :: 0 <= i < |plugins| && plugins[i].install && Requirement(blueprintPath, plugins[i].source, abspath) == x
    {
      RequirementsMembership(blueprintPath, plugins, abspath, x);
    }
  }

  /** The sources of every node's plugins, node after node. */
  function NodesRequirements(blueprintPath: Path, nodes: seq<Node>, abspath: Path -> Path): set<string>
    decreases |nodes|
  {
    if nodes == [] then {}
    else
      NodesRequirements(blueprintPath, nodes[..|nodes| - 1], abspath)
        + Requirements(blueprintPath, nodes[|nodes| - 1].plugins, abspath)
  }

  /** What `create_requirements` returns for a parsed plan. */
  function PlanRequirements(blueprintPath: Path, plan: Plan, abspath: Path -> Path): set<string>
  {
    Requirements(blueprintPath, plan.deploymentPluginsToInstall, abspath)
      + NodesRequirements(blueprintPath, plan.nodes, abspath)
  }

  /** A source is required by the nodes exactly when one of them requires it. */
  lemma {:induction false} NodesRequirementsMembership(blueprintPath: Path, nodes: seq<Node>, abspath: Path -> Path, x: string)
    ensures x in NodesRequirements(blueprintPath, nodes, abspath) <==>
      exists k :: 0 <= k < |nodes| && x in Requirements(blueprintPath, nodes[k].plugins, abspath)
    decreases |nodes|
  {
    if nodes != [] {
      var n := |nodes| - 1;
      var front := nodes[..n];
      NodesRequirementsMembership(blueprintPath, front, abspath, x);
      assert forall k :: 0 <= k < n ==> front[k] == nodes[k];
      if x in NodesRequirements(blueprintPath, front, abspath) {
        var k :| 0 <= k < n && x in Requirements(blueprintPath, front[k].plugins, abspath);
        assert nodes[k] == front[k];
      }
    }
  }

  /** The requirements are the union of those of the deployment-level
      plugins and those of each node, and every one of them is the source of
      an install-flagged plugin. */
  lemma PlanRequirementsMembership(blueprintPath: Path, plan: Plan, abspath: Path -> Path, x: string)
    ensures x in PlanRequirements(blueprintPath, plan, abspath) <==>
      || (exists i :: 0 <= i < |plan.deploymentPluginsToInstall|
            && plan.deploymentPluginsToInstall[i].install
            && Requirement(blueprintPath, plan.deploymentPluginsToInstall[i].source, abspath) == x)
      || (exists k, i :: 0 <= k < |plan.nodes| && 0 <= i < |plan.nodes[k].plugins|
            && plan.nodes[k].plugins[i].install
            && Requirement(blueprintPath, plan.nodes[k].plugins[i].source, abspath) == x)
  {
    RequirementsMembership(blueprintPath, plan.deploymentPluginsToInstall, abspath, x);
    NodesRequirementsMembership(blueprintPath, plan.nodes, abspath, x);
    forall k | 0 <= k < |plan.nodes| {
      RequirementsMembership(blueprintPath, plan.nodes[k].plugins, abspath, x);
    }
  }

  /** The order in which the parser lists the nodes does not matter. */
  lemma NodeOrderIrrelevant(blueprintPath: Path, nodes: seq<Node>, reordered: seq<Node>, abspath: Path -> Path)
    requires multiset(nodes) == multiset(reordered)
    ensures NodesRequirements(blueprintPath, nodes, abspath) == NodesRequirements(blueprintPath, reordered, abspath)
  {
    forall x ensures x in NodesRequirements(blueprintPath, nodes, abspath)
                  ==> x in NodesRequirements(blueprintPath, reordered, abspath)
    {
      NodesInclude(blueprintPath, nodes, reordered, abspath, x);
    }
    forall x ensures x in NodesRequirements(blueprintPath, reordered, abspath)
                  ==> x in NodesRequirements(blueprintPath, nodes, abspath)
    {
      NodesInclude(blueprintPath, reordered, nodes, abspath, x);
    }
  }

  lemma NodesInclude(blueprintPath: Path, nodes: seq<Node>, others: seq<Node>, abspath: Path -> Path, x: string)
    requires multiset(nodes) == multiset(others)
    ensures x in NodesRequirements(blueprintPath, nodes, abspath) ==> x in NodesRequirements(blueprintPath, others, abspath)
  {
    NodesRequirementsMembership(blueprintPath, nodes, abspath, x);
    NodesRequirementsMembership(blueprintPath, others, abspath, x);
    if x in NodesRequirements(blueprintPath, nodes, abspath) {
      var k :| 0 <= k < |nodes| && x in Requirements(blueprintPath, nodes[k].plugins, abspath);
      assert nodes[k] in multiset(others);
      var j :| 0 <= j < |others| && others[j] == nodes[k];
    }
  }

  /** `create_requirements(blueprint_path)`; `parse` stands for the DSL
      parser, whose errors propagate. */
  method CreateRequirements(blueprintPath: Path, parse: Path -> Result<Plan>, abspath: Path -> Path)
    returns (r: Result<set<string>>)
    ensures parse(blueprintPath).Err? ==> r == Err(parse(blueprintPath).error)
    ensures parse(blueprintPath).Ok? ==> r == Ok(PlanRequirements(blueprintPath, parse(blueprintPath).value, abspath))
  {
    var parsed := parse(blueprintPath);
    if parsed.Err? {
      return Err(parsed.error);
    }
    var plan := parsed.value;
    var requirements := PluginsToRequirements(blueprintPath, plan.deploymentPluginsToInstall, abspath);
    for k := 0 to |plan.nodes|
      invariant requirements == Requirements(blueprintPath, plan.deploymentPluginsToInstall, abspath)
                                + NodesRequirements(blueprintPath, plan.nodes[..k], abspath)
    {
      assert plan.nodes[..k + 1][..k] == plan.nodes[..k];
      var nodeSources := PluginsToRequirements(blueprintPath, plan.nodes[k].plugins, abspath);
      requirements := requirements + nodeSources;
    }
    assert plan.nodes[..|plan.nodes|] == plan.nodes;
    return Ok(requirements);
  }
}
