// src/plugin/registry.ts: declared plugin manifests and the closure of a plugin's
// dependencies in installation order.
module PluginRegistry {
  import opened Wrappers
  import opened Graphs
  import opened OrderedSets
  import opened Plugins
  import opened PluginValidation

  datatype RegistryError =
    | AlreadyRegistered(id: string)
    | NotFound(id: string)
    | HasDependents(id: string, dependents: seq<string>)

  function Ids(manifests: seq<PluginConfig>): (r: seq<string>)
    ensures |r| == |manifests| && forall i :: 0 <= i < |r| ==> r[i] == manifests[i].id
  {
    if manifests == [] then [] else [manifests[0].id] + Ids(manifests[1..])
  }

  predicate DependsOn(config: PluginConfig, id: string) {
    exists d :: d in config.dependencies && d.pluginId == id
  }

  // ---------- What the closure search knows ----------

  // reach are the plugins reachable from the target; stack, the plugins being
  // resolved, is a walk; every other plugin seen that is registered is resolved.
  // A dependency met on the stack would close a cycle in reach of the target.
  ghost predicate ResolveInv(configs: map<string, PluginConfig>, reach: set<string>, cyclic: bool,
                             seen: set<string>, stack: seq<string>, resolved: seq<string>) {
    && Settled(configs, seen, stack, resolved)
    && NoDuplicates(resolved)
    && (stack == [] || Walk(DependencyGraph(configs), stack))
    && seen <= reach
    && (forall x :: x in resolved ==> DependenciesSeen(configs, x, seen))
    && (cyclic || DependenciesFirst(configs, resolved))
  }

  ghost predicate Settled(configs: map<string, PluginConfig>, seen: set<string>, stack: seq<string>,
                          resolved: seq<string>) {
    && (forall x :: x in resolved <==> x in seen && x in configs && x !in stack)
    && (forall x :: x in stack ==> x in seen && x in configs)
  }

  lemma SettleOne(configs: map<string, PluginConfig>, seen: set<string>, stack: seq<string>,
                  resolved: seq<string>, id: string)
    requires Settled(configs, seen, stack + [id], resolved) && id !in stack
    ensures Settled(configs, seen, stack, resolved + [id])
    ensures id !in resolved
  {
    assert forall x :: x in stack + [id] <==> x in stack || x == id;
    assert forall x :: x in resolved + [id] <==> x in resolved || x == id;
  }

  lemma AppendDistinct(s: seq<string>, x: string)
    requires NoDuplicates(s) && x !in s
    ensures NoDuplicates(s + [x])
  {
  }

  lemma WalkButLast(g: Graph<string>, p: seq<string>, x: string)
    requires Walk(g, p + [x])
    ensures p == [] || Walk(g, p)
  {
    if p != [] {
      WalkPrefix(g, p + [x], |p| - 1);
      assert (p + [x])[..|p|] == p;
    }
  }

  ghost predicate DependenciesSeen(configs: map<string, PluginConfig>, id: string, seen: set<string>) {
    id in configs && RegisteredSeen(configs, configs[id].dependencies, seen)
  }

  ghost predicate ClosedUnderDependencies(configs: map<string, PluginConfig>, reach: set<string>) {
    forall x, y {:trigger Edge(DependencyGraph(configs), x, y)} ::
      x in reach && Edge(DependencyGraph(configs), x, y) ==> y in reach
  }

  // Nothing on the stack can be met again unless a cycle is in reach of the target.
  ghost predicate CyclesKnown(configs: map<string, PluginConfig>, cyclic: bool, stack: seq<string>) {
    forall i {:trigger stack[i]} ::
      0 <= i < |stack| && Edge(DependencyGraph(configs), stack[|stack| - 1], stack[i]) ==> cyclic
  }

  lemma StackCycle(configs: map<string, PluginConfig>, target: string, stack: seq<string>)
    requires stack != [] && Walk(DependencyGraph(configs), stack) && stack[0] == target
    ensures CyclesKnown(configs, ReachesCycle(DependencyGraph(configs), target), stack)
  {
    var g := DependencyGraph(configs);
    forall i | 0 <= i < |stack| && Edge(g, stack[|stack| - 1], stack[i])
      ensures ReachesCycle(g, target)
    {
      BackEdge(g, stack, i);
      WalkPrefix(g, stack, |stack| - 1);
      ReachesCycleBack(g, target, stack[|stack| - 1]);
    }
  }

  lemma StartResolving(configs: map<string, PluginConfig>, reach: set<string>, cyclic: bool,
                       seen: set<string>, stack: seq<string>, resolved: seq<string>, id: string)
    requires ResolveInv(configs, reach, cyclic, seen, stack, resolved)
    requires id !in seen && id in configs && id in reach
    requires stack == [] || Edge(DependencyGraph(configs), stack[|stack| - 1], id)
    ensures ResolveInv(configs, reach, cyclic, seen + {id}, stack + [id], resolved)
  {
    WalkSnoc(DependencyGraph(configs), stack, id);
    PutOnStack(configs, seen, stack, resolved, id);
  }

  lemma PutOnStack(configs: map<string, PluginConfig>, seen: set<string>, stack: seq<string>,
                   resolved: seq<string>, id: string)
    requires Settled(configs, seen, stack, resolved) && id !in seen && id in configs
    ensures Settled(configs, seen + {id}, stack + [id], resolved)
  {
    assert forall x :: x in stack + [id] <==> x in stack || x == id;
  }

  lemma SkipUnregistered(configs: map<string, PluginConfig>, reach: set<string>, cyclic: bool,
                         seen: set<string>, stack: seq<string>, resolved: seq<string>, id: string)
    requires ResolveInv(configs, reach, cyclic, seen, stack, resolved)
    requires id !in configs && id in reach
    ensures ResolveInv(configs, reach, cyclic, seen + {id}, stack, resolved)
  {
  }

  lemma EndResolving(configs: map<string, PluginConfig>, reach: set<string>, cyclic: bool,
                     seen: set<string>, stack: seq<string>, resolved: seq<string>, id: string)
    requires ResolveInv(configs, reach, cyclic, seen, stack + [id], resolved)
    requires id !in stack
    requires DependenciesSeen(configs, id, seen)
    requires cyclic || DependenciesWithin(configs, id, resolved)
    ensures ResolveInv(configs, reach, cyclic, seen, stack, resolved + [id])
  {
    SettleOne(configs, seen, stack, resolved, id);
    AppendDistinct(resolved, id);
    WalkButLast(DependencyGraph(configs), stack, id);
    assert forall x :: x in resolved + [id] <==> x in resolved || x == id;
    if !cyclic {
      AppendSorted(configs, resolved, id);
    }
  }

  lemma EndWithManifest(configs: map<string, PluginConfig>, reach: set<string>, cyclic: bool,
                        seen: set<string>, stack: seq<string>, resolved: seq<PluginConfig>, m: PluginConfig)
    requires ResolveInv(configs, reach, cyclic, seen, stack + [m.id], Ids(resolved))
    requires m.id !in stack
    requires DependenciesSeen(configs, m.id, seen)
    requires cyclic || DependenciesWithin(configs, m.id, Ids(resolved))
    ensures ResolveInv(configs, reach, cyclic, seen, stack, Ids(resolved + [m]))
  {
    EndResolving(configs, reach, cyclic, seen, stack, Ids(resolved), m.id);
    IdsSnoc(resolved, m);
  }

  class PluginRegistry {
    var keys: seq<string>
    var entries: map<string, PluginConfig>

    ghost predicate Valid()
      reads this
    {
      && PluginMap(keys, entries).Valid()
      && forall k :: k in entries ==> entries[k].id == k
    }

    constructor ()
      ensures Valid() && keys == []
    {
      keys, entries := [], map[];
    }

    method Register(manifest: PluginConfig) returns (r: Result<(), RegistryError>)
      requires Valid()
      modifies this
      ensures Valid()
      ensures r.Ok? <==> manifest.id !in old(entries)
      ensures r.Ok? ==> keys == old(keys) + [manifest.id] && entries == old(entries)[manifest.id := manifest]
      ensures r.Err? ==> keys == old(keys) && entries == old(entries) && r.error == AlreadyRegistered(manifest.id)
    {
      if manifest.id in entries {
        return Err(AlreadyRegistered(manifest.id));
      }
      keys := keys + [manifest.id];
      entries := entries[manifest.id := manifest];
      return Ok(());
    }

    method GetDependents(id: string) returns (dependents: seq<string>)
      requires Valid()
      ensures forall k :: k in dependents <==> k in entries && DependsOn(entries[k], id)
      ensures exists places :: PickedFrom(keys, dependents, places)
    {
      dependents := [];
      ghost var places: seq<nat> := [];
      for i := 0 to |keys|
        invariant forall k :: k in dependents <==> k in keys[..i] && k in entries && DependsOn(entries[k], id)
        invariant PickedFrom(keys[..i], dependents, places)
      {
        PickedSnoc(keys[..i], dependents, places, keys[i]);
        assert keys[..i + 1] == keys[..i] + [keys[i]];
        assert keys[i] in keys;
        if exists d :: d in entries[keys[i]].dependencies && d.pluginId == id {
          dependents := dependents + [keys[i]];
          places := places + [i];
        }
      }
      assert keys[..|keys|] == keys;
    }

    // A plugin others depend on cannot be removed.
    method Unregister(id: string) returns (r: Result<(), RegistryError>)
      requires Valid()
      modifies this
      ensures Valid()
      ensures r.Ok? <==> id in old(entries) && forall k :: k in old(entries) ==> !DependsOn(old(entries)[k], id)
      ensures r.Ok? ==> keys == Remove(old(keys), id) && entries == old(entries) - {id}
      ensures r.Err? ==> keys == old(keys) && entries == old(entries)
      ensures r.Err? ==>
        if id !in entries then r.error == NotFound(id)
        else r.error.HasDependents? && r.error.id == id
             && forall k :: k in r.error.dependents <==> k in entries && DependsOn(entries[k], id)
    {
      if id !in entries {
        return Err(NotFound(id));
      }
      var dependents := GetDependents(id);
      if |dependents| > 0 {
        assert dependents[0] in dependents;
        return Err(HasDependents(id, dependents));
      }
      RemoveKeepsDistinct(keys, id);
      keys := Remove(keys, id);
      entries := entries - {id};
      return Ok(());
    }

    method Resolve(id: string, seen: set<string>, resolved: seq<PluginConfig>,
                   ghost reach: set<string>, ghost cyclic: bool, ghost target: string, ghost stack: seq<string>)
      returns (seen': set<string>, resolved': seq<PluginConfig>)
      requires Valid() && ClosedUnderDependencies(entries, reach) && id in reach
      requires ResolveInv(entries, reach, cyclic, seen, stack, Ids(resolved))
      requires cyclic <==> ReachesCycle(DependencyGraph(entries), target)
      requires if stack == [] then id == target
               else stack[0] == target && Edge(DependencyGraph(entries), stack[|stack| - 1], id)
      requires FromEntries(entries, resolved)
      ensures ResolveInv(entries, reach, cyclic, seen', stack, Ids(resolved'))
      ensures FromEntries(entries, resolved')
      ensures seen + {id} <= seen'
      ensures id !in seen && id in entries ==> resolved' != [] && resolved'[|resolved'| - 1].id == id
      decreases reach - seen, 1
    {
      seen', resolved' := seen, resolved;
      if id in seen {
        return;
      }
      seen' := seen' + {id};
      if id !in entries {
        SkipUnregistered(entries, reach, cyclic, seen, stack, Ids(resolved), id);
        return;
      }
      seen', resolved' := ResolveEntry(id, seen, resolved, reach, cyclic, target, stack);
    }

    // A registered plugin met for the first time: its dependencies, then itself.
    method ResolveEntry(id: string, seen: set<string>, resolved: seq<PluginConfig>,
                        ghost reach: set<string>, ghost cyclic: bool, ghost target: string, ghost stack: seq<string>)
      returns (seen': set<string>, resolved': seq<PluginConfig>)
      requires Valid() && ClosedUnderDependencies(entries, reach) && id in reach
      requires id !in seen && id in entries
      requires ResolveInv(entries, reach, cyclic, seen, stack, Ids(resolved))
      requires cyclic <==> ReachesCycle(DependencyGraph(entries), target)
      requires if stack == [] then id == target
               else stack[0] == target && Edge(DependencyGraph(entries), stack[|stack| - 1], id)
      requires FromEntries(entries, resolved)
      ensures ResolveInv(entries, reach, cyclic, seen', stack, Ids(resolved'))
      ensures FromEntries(entries, resolved')
      ensures seen + {id} <= seen'
      ensures resolved' != [] && resolved'[|resolved'| - 1].id == id
      decreases reach - seen, 0
    {
      StartResolving(entries, reach, cyclic, seen, stack, Ids(resolved), id);
      seen', resolved' := ResolveAll(id, seen + {id}, resolved, reach, cyclic, target, stack + [id]);
      EndWithManifest(entries, reach, cyclic, seen', stack, resolved', entries[id]);
      resolved' := resolved' + [entries[id]];
    }

    // One dependency of the plugin at the top of the stack; an optional one that is
    // not registered is passed over.
    method ResolveOne(id: string, k: nat, seen: set<string>, resolved: seq<PluginConfig>,
                      ghost reach: set<string>, ghost cyclic: bool, ghost target: string, ghost stack: seq<string>)
      returns (seen': set<string>, resolved': seq<PluginConfig>)
      requires Valid() && ClosedUnderDependencies(entries, reach)
      requires ResolveInv(entries, reach, cyclic, seen, stack, Ids(resolved))
      requires cyclic <==> ReachesCycle(DependencyGraph(entries), target)
      requires stack != [] && stack[0] == target && stack[|stack| - 1] == id && id in entries
      requires k < |entries[id].dependencies|
      requires FromEntries(entries, resolved)
      ensures ResolveInv(entries, reach, cyclic, seen', stack, Ids(resolved'))
      ensures FromEntries(entries, resolved')
      ensures seen <= seen'
      ensures entries[id].dependencies[k].pluginId in entries ==> entries[id].dependencies[k].pluginId in seen'
      decreases reach - seen, 2
    {
      var dep := entries[id].dependencies[k];
      seen', resolved' := seen, resolved;
      DependencyIsEdge(entries, id, k);
      assert id in stack;
      if !dep.optional {
        seen', resolved' := Resolve(dep.pluginId, seen, resolved, reach, cyclic, target, stack);
      } else if dep.pluginId in entries {
        seen', resolved' := Resolve(dep.pluginId, seen, resolved, reach, cyclic, target, stack);
      }
    }

    // The loop over the dependencies of the plugin at the top of the stack.
    method ResolveAll(id: string, seen: set<string>, resolved: seq<PluginConfig>,
                      ghost reach: set<string>, ghost cyclic: bool, ghost target: string, ghost stack: seq<string>)
      returns (seen': set<string>, resolved': seq<PluginConfig>)
      requires Valid() && ClosedUnderDependencies(entries, reach)
      requires ResolveInv(entries, reach, cyclic, seen, stack, Ids(resolved))
      requires cyclic <==> ReachesCycle(DependencyGraph(entries), target)
      requires stack != [] && stack[0] == target && stack[|stack| - 1] == id && id in entries
      requires FromEntries(entries, resolved)
      ensures ResolveInv(entries, reach, cyclic, seen', stack, Ids(resolved'))
      ensures FromEntries(entries, resolved')
      ensures seen <= seen'
      ensures DependenciesSeen(entries, id, seen')
      ensures cyclic || DependenciesWithin(entries, id, Ids(resolved'))
      decreases reach - seen, 3
    {
      seen', resolved' := seen, resolved;
      var deps := entries[id].dependencies;
      for k := 0 to |deps|
        invariant ResolveInv(entries, reach, cyclic, seen', stack, Ids(resolved'))
        invariant FromEntries(entries, resolved')
        invariant seen <= seen'
        invariant RegisteredSeen(entries, deps[..k], seen')
      {
        ghost var before := seen';
        seen', resolved' := ResolveOne(id, k, seen', resolved', reach, cyclic, target, stack);
        OneMoreSeen(entries, deps, k, before, seen');
      }
      assert deps[..|deps|] == deps;
      DependenciesSettled(entries, reach, cyclic, target, seen', stack, Ids(resolved'), id);
    }

    // The result lists, without duplicates and with the plugin itself last, exactly
    // the registered plugins it reaches through dependencies; unless a cycle is in
    // reach, every registered dependency precedes its dependents.
    method ResolveDependencies(pluginId: string) returns (resolved: seq<PluginConfig>)
      requires Valid()
      ensures FromEntries(entries, resolved) && NoDuplicates(Ids(resolved))
      ensures pluginId !in entries ==> resolved == []
      ensures pluginId in entries ==>
        && resolved != [] && resolved[|resolved| - 1] == entries[pluginId]
        && (forall x :: x in Ids(resolved) <==> x in entries && Reaches(DependencyGraph(entries), pluginId, x))
        && (!ReachesCycle(DependencyGraph(entries), pluginId) ==> DependenciesFirst(entries, Ids(resolved)))
    {
      ghost var g := DependencyGraph(entries);
      ghost var reach := ReachableFrom(entries, pluginId);
      var seen;
      seen, resolved := Resolve(pluginId, {}, [], reach, ReachesCycle(g, pluginId), pluginId, []);
      if pluginId in entries {
        ClosureIsComplete(entries, reach, ReachesCycle(g, pluginId), seen, Ids(resolved), pluginId);
      } else {
        NothingBeyond(entries, pluginId, reach, resolved);
      }
    }
  }

  ghost predicate FromEntries(entries: map<string, PluginConfig>, resolved: seq<PluginConfig>) {
    forall i :: 0 <= i < |resolved| ==> resolved[i].id in entries && entries[resolved[i].id] == resolved[i]
  }

  ghost predicate RegisteredSeen(configs: map<string, PluginConfig>, deps: seq<Dependency>, seen: set<string>) {
    forall d :: d in deps && d.pluginId in configs ==> d.pluginId in seen
  }

  lemma OneMoreSeen(configs: map<string, PluginConfig>, deps: seq<Dependency>, k: nat,
                    before: set<string>, seen: set<string>)
    requires k < |deps| && RegisteredSeen(configs, deps[..k], before) && before <= seen
    requires deps[k].pluginId in configs ==> deps[k].pluginId in seen
    ensures RegisteredSeen(configs, deps[..k + 1], seen)
  {
    assert deps[..k + 1] == deps[..k] + [deps[k]];
  }

  lemma {:induction false} IdsSnoc(manifests: seq<PluginConfig>, m: PluginConfig)
    ensures Ids(manifests + [m]) == Ids(manifests) + [m.id]
  {
  }

  // Once the loop is through, the dependencies of the top of the stack are resolved
  // or on the stack, and the latter only on a cycle.
  lemma DependenciesSettled(configs: map<string, PluginConfig>, reach: set<string>, cyclic: bool, target: string,
                            seen: set<string>, stack: seq<string>, resolved: seq<string>, id: string)
    requires ResolveInv(configs, reach, cyclic, seen, stack, resolved)
    requires cyclic <==> ReachesCycle(DependencyGraph(configs), target)
    requires stack != [] && stack[0] == target && stack[|stack| - 1] == id && id in configs
    requires RegisteredSeen(configs, configs[id].dependencies, seen)
    ensures DependenciesSeen(configs, id, seen)
    ensures cyclic || DependenciesWithin(configs, id, resolved)
  {
    StackCycle(configs, target, stack);
    var deps := configs[id].dependencies;
    forall d | d in deps && d.pluginId in configs
      ensures d.pluginId in seen && (d.pluginId in resolved || cyclic)
    {
      var j :| 0 <= j < |deps| && deps[j] == d;
      DependencyIsEdge(configs, id, j);
      if d.pluginId in stack {
        var i :| 0 <= i < |stack| && stack[i] == d.pluginId;
      }
    }
  }

  ghost function ReachableFrom(configs: map<string, PluginConfig>, target: string): (reach: set<string>)
    ensures ClosedUnderDependencies(configs, reach) && target in reach
    ensures forall x :: x in reach <==> Reaches(DependencyGraph(configs), target, x)
  {
    var g := DependencyGraph(configs);
    var reach := set x | x in Mentioned(configs) + {target} && Reaches(g, target, x);
    assert forall x :: Reaches(g, target, x) ==> x in Mentioned(configs) + {target} by {
      forall x | Reaches(g, target, x)
        ensures x in Mentioned(configs) + {target}
      {
        MentionedIsClosed(configs, target, x);
      }
    }
    assert ClosedUnderDependencies(configs, reach) by {
      forall x, y | x in reach && Edge(g, x, y)
        ensures Reaches(g, target, y)
      {
        ReachesEdge(g, x, y);
        ReachesTransitive(g, target, x, y);
      }
    }
    ReachesSelf(g, target);
    reach
  }

  lemma MentionedIsClosed(configs: map<string, PluginConfig>, target: string, x: string)
    requires Reaches(DependencyGraph(configs), target, x)
    ensures x in Mentioned(configs) + {target}
  {
    var g := DependencyGraph(configs);
    var all := Mentioned(configs) + {target};
    forall u, v | u in all && Edge(g, u, v)
      ensures v in all
    {
      EdgeIsDependency(configs, u, v);
    }
    ClosedContainsReachable(g, all, target, x);
  }

  // With an empty stack, what is resolved is everything registered in reach.
  lemma ClosureIsComplete(configs: map<string, PluginConfig>, reach: set<string>, cyclic: bool,
                          seen: set<string>, resolved: seq<string>, target: string)
    requires ResolveInv(configs, reach, cyclic, seen, [], resolved)
    requires target in seen && target in configs
    requires forall x :: x in reach <==> Reaches(DependencyGraph(configs), target, x)
    ensures forall x :: x in resolved <==> x in configs && Reaches(DependencyGraph(configs), target, x)
  {
    var g := DependencyGraph(configs);
    var s := set x | x in reach && (x in resolved || x !in configs);
    forall u, v | u in s && Edge(g, u, v)
      ensures v in s
    {
      EdgeIsDependency(configs, u, v);
      var i :| 0 <= i < |configs[u].dependencies| && configs[u].dependencies[i].pluginId == v;
      assert configs[u].dependencies[i] in configs[u].dependencies;
      assert DependenciesSeen(configs, u, seen);
      ReachesEdge(g, u, v);
      ReachesTransitive(g, target, u, v);
    }
    forall x | x in configs && Reaches(g, target, x)
      ensures x in resolved
    {
      ClosedContainsReachable(g, s, target, x);
    }
  }

  lemma NothingBeyond(configs: map<string, PluginConfig>, target: string, reach: set<string>,
                      resolved: seq<PluginConfig>)
    requires target !in configs
    requires forall x :: x in reach <==> Reaches(DependencyGraph(configs), target, x)
    requires FromEntries(configs, resolved) && forall x :: x in Ids(resolved) ==> x in reach
    ensures resolved == []
  {
    if resolved != [] {
      assert Ids(resolved)[0] in reach;
      ClosedContainsReachable(DependencyGraph(configs), {target}, target, resolved[0].id);
    }
  }
}
