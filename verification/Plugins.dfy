// src/plugin/types.ts: plugin configurations and their dependency graph.
module Plugins {
  import opened Wrappers
  import opened Graphs
  import opened OrderedSets

  datatype Dependency = Dependency(pluginId: string, minVersion: Option<string>, optional: bool)

  // Whether a lifecycle hook throws is part of the configuration that carries it.
  datatype Hooks = Hooks(installThrows: bool, enableThrows: bool, disableThrows: bool, uninstallThrows: bool)

  // An absent dependency list behaves as an empty one.
  datatype PluginConfig = PluginConfig(id: string, version: string, dependencies: seq<Dependency>, hooks: Hooks)

  // A Map from plugin ids to configurations, with its keys in insertion order.
  datatype PluginMap = PluginMap(keys: seq<string>, configs: map<string, PluginConfig>) {
    ghost predicate Valid() {
      && NoDuplicates(keys)
      && (forall k :: k in keys <==> k in configs)
    }
  }

  function DependencyIds(deps: seq<Dependency>): (r: seq<string>)
    ensures |r| == |deps| && forall i :: 0 <= i < |deps| ==> r[i] == deps[i].pluginId
  {
    if deps == [] then [] else [deps[0].pluginId] + DependencyIds(deps[1..])
  }

  // All dependencies are edges, optional ones and ones nobody registered included.
  function DependencyGraph(configs: map<string, PluginConfig>): Graph<string> {
    map k | k in configs :: DependencyIds(configs[k].dependencies)
  }

  // Every plugin that is registered or depended on.
  ghost function Mentioned(configs: map<string, PluginConfig>): set<string> {
    configs.Keys + set k, d | k in configs && d in configs[k].dependencies :: d.pluginId
  }

  lemma DependencyIsEdge(configs: map<string, PluginConfig>, k: string, i: nat)
    requires k in configs && i < |configs[k].dependencies|
    ensures Edge(DependencyGraph(configs), k, configs[k].dependencies[i].pluginId)
    ensures configs[k].dependencies[i].pluginId in Mentioned(configs)
  {
    assert DependencyGraph(configs)[k][i] == configs[k].dependencies[i].pluginId;
    assert configs[k].dependencies[i] in configs[k].dependencies;
  }

  lemma EdgeIsDependency(configs: map<string, PluginConfig>, u: string, v: string)
    requires Edge(DependencyGraph(configs), u, v)
    ensures u in configs && v in Mentioned(configs)
    ensures exists i :: 0 <= i < |configs[u].dependencies| && configs[u].dependencies[i].pluginId == v
  {
    var g := DependencyGraph(configs);
    var i :| 0 <= i < |g[u]| && g[u][i] == v;
    assert configs[u].dependencies[i].pluginId == v;
    assert configs[u].dependencies[i] in configs[u].dependencies;
  }
}
