// src/plugin/validation.ts: circular-dependency detection, topological sorting and
// the dependency check made before an installation.
module PluginValidation {
  import opened Wrappers
  import opened Graphs
  import opened OrderedSets
  import opened Plugins

  // ---------- Circular dependencies ----------

  // The edge from u to v closes a reported walk.
  ghost predicate Closes(cycles: seq<seq<string>>, u: string, v: string) {
    exists i :: 0 <= i < |cycles| && ClosedBy(cycles[i], u, v)
  }

  ghost predicate ClosedBy(c: seq<string>, u: string, v: string) {
    |c| >= 2 && c[|c| - 2] == u && c[|c| - 1] == v
  }

  // Every dependency of u is done, or leads back to where a report says so.
  ghost predicate Followed(g: Graph<string>, cycles: seq<seq<string>>, done: seq<string>, u: string) {
    forall v :: Edge(g, u, v) ==> v in done || Closes(cycles, u, v)
  }

  // A closed walk that passes no plugin twice.
  ghost predicate SimpleCycle(g: Graph<string>, c: seq<string>) {
    ClosedWalk(g, c) && NoDuplicates(c[..|c| - 1])
  }

  // What the search knows between two steps: the path is a walk, the visited plugins
  // are on it or finished, the dependencies of a finished plugin were finished before
  // it unless reported, and reports are cycles.
  ghost predicate DetectInv(g: Graph<string>, visited: set<string>, finished: seq<string>, path: seq<string>,
                            cycles: seq<seq<string>>) {
    && (path == [] || Walk(g, path)) && NoDuplicates(path)
    && (forall x :: x in visited <==> x in finished || x in path)
    && (forall k :: 0 <= k < |finished| ==> Followed(g, cycles, finished[..k], finished[k]))
    && (forall i :: 0 <= i < |cycles| ==> SimpleCycle(g, cycles[i]))
  }

  function IndexOf(path: seq<string>, x: string): (i: nat)
    requires x in path
    ensures i < |path| && path[i] == x && x !in path[..i]
  {
    if path[0] == x then 0 else 1 + IndexOf(path[1..], x)
  }

  lemma EnterPlugin(g: Graph<string>, visited: set<string>, finished: seq<string>, path: seq<string>,
                    cycles: seq<seq<string>>, id: string)
    requires DetectInv(g, visited, finished, path, cycles)
    requires id !in visited && (path == [] || Edge(g, path[|path| - 1], id))
    ensures DetectInv(g, visited + {id}, finished, path + [id], cycles)
  {
    WalkSnoc(g, path, id);
    assert forall x :: x in path + [id] <==> x in path || x == id;
  }

  lemma LeavePlugin(g: Graph<string>, visited: set<string>, finished: seq<string>, path: seq<string>,
                    cycles: seq<seq<string>>, id: string)
    requires DetectInv(g, visited, finished, path + [id], cycles) && Followed(g, cycles, finished, id)
    ensures DetectInv(g, visited, finished + [id], path, cycles)
  {
    assert forall x :: x in path + [id] <==> x in path || x == id;
    assert forall k :: 0 <= k < |path| ==> path[k] == (path + [id])[k];
    assert path == [] || Walk(g, path);
    var longer := finished + [id];
    forall k | 0 <= k < |longer|
      ensures Followed(g, cycles, longer[..k], longer[k])
    {
      assert longer[..k] == finished[..k];
      if k == |finished| {
        assert finished[..k] == finished;
      } else {
        assert Followed(g, cycles, finished[..k], finished[k]);
      }
    }
  }

  lemma FollowedStays(g: Graph<string>, cycles: seq<seq<string>>, more: seq<seq<string>>, done: seq<string>, u: string)
    requires Followed(g, cycles, done, u) && cycles <= more
    ensures Followed(g, more, done, u)
  {
    forall v | Edge(g, u, v) && Closes(cycles, u, v)
      ensures Closes(more, u, v)
    {
      ClosesStays(cycles, more, u, v);
    }
  }

  lemma ClosesStays(cycles: seq<seq<string>>, more: seq<seq<string>>, u: string, v: string)
    requires Closes(cycles, u, v) && cycles <= more
    ensures Closes(more, u, v)
  {
    var i :| 0 <= i < |cycles| && ClosedBy(cycles[i], u, v);
    assert ClosedBy(more[i], u, v);
  }

  // Meeting a plugin of the path again: the walk from there and back is reported.
  lemma ReportCycle(g: Graph<string>, visited: set<string>, finished: seq<string>, path: seq<string>,
                    cycles: seq<seq<string>>, v: string)
    requires DetectInv(g, visited, finished, path, cycles)
    requires path != [] && v in path && Edge(g, path[|path| - 1], v)
    ensures var more := cycles + [path[IndexOf(path, v)..] + [v]];
      DetectInv(g, visited, finished, path, more) && Closes(more, path[|path| - 1], v)
  {
    var start := IndexOf(path, v);
    var c := path[start..] + [path[start]];
    SliceIsCycle(g, path, start);
    LastCloses(cycles, c, path[|path| - 1], path[start]);
    OneMoreReport(g, visited, finished, path, cycles, c);
  }

  lemma LastCloses(cycles: seq<seq<string>>, c: seq<string>, u: string, v: string)
    requires ClosedBy(c, u, v)
    ensures Closes(cycles + [c], u, v)
  {
    assert ClosedBy((cycles + [c])[|cycles|], u, v);
  }

  lemma OneMoreReport(g: Graph<string>, visited: set<string>, finished: seq<string>, path: seq<string>,
                      cycles: seq<seq<string>>, c: seq<string>)
    requires DetectInv(g, visited, finished, path, cycles) && SimpleCycle(g, c)
    ensures DetectInv(g, visited, finished, path, cycles + [c])
  {
    forall k | 0 <= k < |finished|
      ensures Followed(g, cycles + [c], finished[..k], finished[k])
    {
      FollowedStays(g, cycles, cycles + [c], finished[..k], finished[k]);
    }
  }

  lemma SliceIsCycle(g: Graph<string>, path: seq<string>, start: nat)
    requires Walk(g, path) && NoDuplicates(path) && start < |path| && Edge(g, path[|path| - 1], path[start])
    ensures SimpleCycle(g, path[start..] + [path[start]])
    ensures ClosedBy(path[start..] + [path[start]], path[|path| - 1], path[start])
  {
    var c := path[start..] + [path[start]];
    BackEdge(g, path, start);
    assert c[..|c| - 1] == path[start..];
  }

  method DetectFrom(plugins: PluginMap, pluginId: string, visited: set<string>, recursionStack: set<string>,
                    path: seq<string>, cycles: seq<seq<string>>, ghost finished: seq<string>)
    returns (visited': set<string>, cycles': seq<seq<string>>, ghost finished': seq<string>)
    requires DetectInv(DependencyGraph(plugins.configs), visited, finished, path, cycles)
    requires forall x :: x in recursionStack <==> x in path
    requires pluginId !in visited && pluginId in Mentioned(plugins.configs)
    requires path == [] || Edge(DependencyGraph(plugins.configs), path[|path| - 1], pluginId)
    ensures DetectInv(DependencyGraph(plugins.configs), visited', finished', path, cycles')
    ensures visited + {pluginId} <= visited' && cycles <= cycles' && finished <= finished' && pluginId in finished'
    decreases Mentioned(plugins.configs) - visited, 1
  {
    ghost var g := DependencyGraph(plugins.configs);
    EnterPlugin(g, visited, finished, path, cycles, pluginId);
    visited', cycles', finished' := visited + {pluginId}, cycles, finished;
    if pluginId in plugins.configs {
      visited', cycles', finished' := DetectBelow(plugins, pluginId, visited', recursionStack + {pluginId},
                                                  path + [pluginId], cycles', finished');
    }
    LeavePlugin(g, visited', finished', path, cycles', pluginId);
    finished' := finished' + [pluginId];
  }

  // Follows the k-th dependency of the plugin at the end of the path.
  method DetectOne(plugins: PluginMap, pluginId: string, k: nat, visited: set<string>, recursionStack: set<string>,
                   path: seq<string>, cycles: seq<seq<string>>, ghost finished: seq<string>)
    returns (visited': set<string>, cycles': seq<seq<string>>, ghost finished': seq<string>)
    requires DetectInv(DependencyGraph(plugins.configs), visited, finished, path, cycles)
    requires forall x :: x in recursionStack <==> x in path
    requires path != [] && path[|path| - 1] == pluginId && pluginId in plugins.configs
    requires k < |plugins.configs[pluginId].dependencies|
    ensures DetectInv(DependencyGraph(plugins.configs), visited', finished', path, cycles')
    ensures visited <= visited' && cycles <= cycles' && finished <= finished'
    ensures var dep := plugins.configs[pluginId].dependencies[k].pluginId;
      dep in finished' || Closes(cycles', pluginId, dep)
    decreases Mentioned(plugins.configs) - visited, 2
  {
    ghost var g := DependencyGraph(plugins.configs);
    var dep := plugins.configs[pluginId].dependencies[k].pluginId;
    visited', cycles', finished' := visited, cycles, finished;
    DependencyIsEdge(plugins.configs, pluginId, k);
    if dep !in visited {
      visited', cycles', finished' := DetectFrom(plugins, dep, visited, recursionStack, path, cycles, finished);
    } else if dep in recursionStack {
      ReportCycle(g, visited, finished, path, cycles, dep);
      var cycleStart := IndexOf(path, dep);
      cycles' := cycles + [path[cycleStart..] + [dep]];
    }
  }

  // The loop over the dependencies of the plugin at the end of the path.
  method DetectBelow(plugins: PluginMap, pluginId: string, visited: set<string>, recursionStack: set<string>,
                     path: seq<string>, cycles: seq<seq<string>>, ghost finished: seq<string>)
    returns (visited': set<string>, cycles': seq<seq<string>>, ghost finished': seq<string>)
    requires DetectInv(DependencyGraph(plugins.configs), visited, finished, path, cycles)
    requires forall x :: x in recursionStack <==> x in path
    requires path != [] && path[|path| - 1] == pluginId && pluginId in plugins.configs
    ensures DetectInv(DependencyGraph(plugins.configs), visited', finished', path, cycles')
    ensures visited <= visited' && cycles <= cycles' && finished <= finished'
    ensures Followed(DependencyGraph(plugins.configs), cycles', finished', pluginId)
    decreases Mentioned(plugins.configs) - visited, 3
  {
    ghost var g := DependencyGraph(plugins.configs);
    var deps := plugins.configs[pluginId].dependencies;
    visited', cycles', finished' := visited, cycles, finished;
    for k := 0 to |deps|
      invariant DetectInv(g, visited', finished', path, cycles')
      invariant visited <= visited' && cycles <= cycles' && finished <= finished'
      invariant FollowedUpTo(deps, k, cycles', finished', pluginId)
    {
      ghost var earlier, before := cycles', finished';
      visited', cycles', finished' :=
        DetectOne(plugins, pluginId, k, visited', recursionStack, path, cycles', finished');
      FollowedOneMore(deps, k, earlier, cycles', before, finished', pluginId);
    }
    forall v | Edge(g, pluginId, v)
      ensures v in finished' || Closes(cycles', pluginId, v)
    {
      EdgeIsDependency(plugins.configs, pluginId, v);
    }
  }

  ghost predicate FollowedUpTo(deps: seq<Dependency>, k: nat, cycles: seq<seq<string>>, done: seq<string>, u: string) {
    k <= |deps| && forall j :: 0 <= j < k ==> deps[j].pluginId in done || Closes(cycles, u, deps[j].pluginId)
  }

  lemma FollowedOneMore(deps: seq<Dependency>, k: nat, cycles: seq<seq<string>>, cycles': seq<seq<string>>,
                        done: seq<string>, done': seq<string>, u: string)
    requires FollowedUpTo(deps, k, cycles, done, u) && cycles <= cycles' && done <= done' && k < |deps|
    requires deps[k].pluginId in done' || Closes(cycles', u, deps[k].pluginId)
    ensures FollowedUpTo(deps, k + 1, cycles', done', u)
  {
    forall j | 0 <= j < k
      ensures deps[j].pluginId in done' || Closes(cycles', u, deps[j].pluginId)
    {
      if deps[j].pluginId !in done {
        ClosesStays(cycles, cycles', u, deps[j].pluginId);
      }
    }
  }

  // Every cycle of dependencies passes over an edge that closes a report.
  ghost predicate EveryCycleReported(g: Graph<string>, cycles: seq<seq<string>>) {
    forall c :: ClosedWalk(g, c) ==> ReportedOn(cycles, c)
  }

  ghost predicate ReportedOn(cycles: seq<seq<string>>, c: seq<string>) {
    exists i :: 0 <= i < |c| - 1 && Closes(cycles, c[i], c[i + 1])
  }

  // Each report is a cycle of dependencies, and every such cycle shares the closing
  // edge of a report. So something is reported exactly when there is a cycle.
  method DetectCircularDependencies(plugins: PluginMap) returns (cycles: seq<seq<string>>)
    requires plugins.Valid()
    ensures forall c :: c in cycles ==> SimpleCycle(DependencyGraph(plugins.configs), c)
    ensures EveryCycleReported(DependencyGraph(plugins.configs), cycles)
    ensures cycles == [] <==> Acyclic(DependencyGraph(plugins.configs))
  {
    ghost var g := DependencyGraph(plugins.configs);
    var visited: set<string> := {};
    ghost var finished: seq<string> := [];
    cycles := [];
    for k := 0 to |plugins.keys|
      invariant DetectInv(g, visited, finished, [], cycles)
      invariant forall j :: 0 <= j < k ==> plugins.keys[j] in visited
    {
      if plugins.keys[k] !in visited {
        visited, cycles, finished := DetectFrom(plugins, plugins.keys[k], visited, {}, [], cycles, finished);
      }
    }
    forall c | ClosedWalk(g, c)
      ensures ReportedOn(cycles, c)
    {
      CycleIsReported(g, visited, finished, cycles, c);
    }
    if cycles != [] {
      assert OnCycle(g, cycles[0][0]);
    }
  }

  lemma CycleIsReported(g: Graph<string>, visited: set<string>, finished: seq<string>, cycles: seq<seq<string>>,
                        c: seq<string>)
    requires DetectInv(g, visited, finished, [], cycles) && ClosedWalk(g, c)
    requires forall k :: k in g ==> k in visited
    ensures ReportedOn(cycles, c)
  {
    assert Edge(g, c[0], c[0 + 1]);
    assert c[0] in finished;
    assert finished[..|finished|] == finished;
    if !ReportedOn(cycles, c) {
      NotFinishedFirst(g, visited, finished, cycles, c, |finished|);
    }
  }

  // Without a report on it, no plugin of a cycle could have been the first to finish.
  lemma {:induction false} NotFinishedFirst(g: Graph<string>, visited: set<string>, finished: seq<string>,
                                            cycles: seq<seq<string>>, c: seq<string>, k: nat)
    requires DetectInv(g, visited, finished, [], cycles) && ClosedWalk(g, c) && !ReportedOn(cycles, c)
    requires k <= |finished|
    ensures forall i :: 0 <= i < |c| ==> c[i] !in finished[..k]
  {
    if k > 0 {
      NotFinishedFirst(g, visited, finished, cycles, c, k - 1);
      var u := finished[k - 1];
      forall i | 0 <= i < |c| - 1
        ensures c[i] != u
      {
        assert Edge(g, c[i], c[i + 1]);
        assert !Closes(cycles, c[i], c[i + 1]);
        assert Followed(g, cycles, finished[..k - 1], u);
      }
      assert finished[..k] == finished[..k - 1] + [u];
    }
  }

  // ---------- Topological sorting ----------

  // Every registered dependency of a sorted plugin comes before it.
  ghost predicate DependenciesFirst(configs: map<string, PluginConfig>, sorted: seq<string>) {
    forall i :: 0 <= i < |sorted| ==> DependenciesWithin(configs, sorted[i], sorted[..i])
  }

  ghost predicate DependenciesWithin(configs: map<string, PluginConfig>, id: string, earlier: seq<string>) {
    id in configs && forall d :: d in configs[id].dependencies && d.pluginId in configs ==> d.pluginId in earlier
  }

  lemma AppendSorted(configs: map<string, PluginConfig>, sorted: seq<string>, id: string)
    requires DependenciesFirst(configs, sorted) && DependenciesWithin(configs, id, sorted)
    ensures DependenciesFirst(configs, sorted + [id])
  {
    var longer := sorted + [id];
    forall i | 0 <= i < |longer|
      ensures DependenciesWithin(configs, longer[i], longer[..i])
    {
      assert longer[..i] == sorted[..i];
      if i < |sorted| {
        assert DependenciesWithin(configs, sorted[i], sorted[..i]);
      }
    }
  }

  // The plugins being visited form a walk; the visited ones are those sorted.
  ghost predicate SortInv(configs: map<string, PluginConfig>, visited: set<string>, visiting: set<string>,
                          stack: seq<string>, sorted: seq<string>) {
    && NoDuplicates(sorted)
    && (forall x :: x in sorted <==> x in visited)
    && (forall x :: x in visiting <==> x in stack)
    && (forall x :: x in stack ==> x !in visited)
    && (stack == [] || Walk(DependencyGraph(configs), stack))
    && (Acyclic(DependencyGraph(configs)) ==> DependenciesFirst(configs, sorted))
  }

  lemma StartVisit(configs: map<string, PluginConfig>, visited: set<string>, visiting: set<string>,
                   stack: seq<string>, sorted: seq<string>, id: string)
    requires SortInv(configs, visited, visiting, stack, sorted)
    requires id !in visited && id !in visiting
    requires stack == [] || Edge(DependencyGraph(configs), stack[|stack| - 1], id)
    ensures SortInv(configs, visited, visiting + {id}, stack + [id], sorted)
  {
    WalkSnoc(DependencyGraph(configs), stack, id);
    assert forall x :: x in stack + [id] <==> x in stack || x == id;
  }

  lemma EndVisit(configs: map<string, PluginConfig>, visited: set<string>, visiting: set<string>,
                 stack: seq<string>, sorted: seq<string>, id: string)
    requires SortInv(configs, visited, visiting, stack + [id], sorted)
    requires id !in stack
    requires Acyclic(DependencyGraph(configs)) ==> DependenciesWithin(configs, id, sorted)
    ensures SortInv(configs, visited + {id}, visiting - {id}, stack, sorted + [id])
  {
    assert forall x :: x in stack + [id] <==> x in stack || x == id;
    assert forall k :: 0 <= k < |stack| ==> stack[k] == (stack + [id])[k];
    assert forall x :: x in sorted + [id] <==> x in sorted || x == id;
    if Acyclic(DependencyGraph(configs)) {
      AppendSorted(configs, sorted, id);
    }
  }

  // A plugin met again while it is being visited closes a cycle.
  lemma MetAgain(configs: map<string, PluginConfig>, stack: seq<string>, id: string)
    requires stack != [] && Walk(DependencyGraph(configs), stack) && id in stack
    requires Edge(DependencyGraph(configs), stack[|stack| - 1], id)
    ensures !Acyclic(DependencyGraph(configs))
  {
    var i :| 0 <= i < |stack| && stack[i] == id;
    BackEdge(DependencyGraph(configs), stack, i);
  }

  method Visit(plugins: PluginMap, id: string, visited: set<string>, visiting: set<string>, sorted: seq<string>,
               ghost stack: seq<string>)
    returns (visited': set<string>, sorted': seq<string>)
    requires SortInv(plugins.configs, visited, visiting, stack, sorted)
    requires id in plugins.configs
    requires stack == [] || Edge(DependencyGraph(plugins.configs), stack[|stack| - 1], id)
    ensures SortInv(plugins.configs, visited', visiting, stack, sorted')
    ensures sorted <= sorted' && forall x :: x in sorted' ==> x in sorted || x in plugins.configs
    ensures Acyclic(DependencyGraph(plugins.configs)) ==> id in visited'
    ensures id in visited ==> sorted' == sorted
    ensures id !in visited && id !in visiting && DependenciesWithin(plugins.configs, id, sorted) ==>
      sorted' == sorted + [id]
    decreases plugins.configs.Keys - visiting, 1
  {
    visited', sorted' := visited, sorted;
    if id in visited {
      return;
    }
    if id in visiting {
      MetAgain(plugins.configs, stack, id);
      return;
    }
    StartVisit(plugins.configs, visited, visiting, stack, sorted, id);
    assert visiting + {id} - {id} == visiting;
    visited', sorted' := VisitDependencies(plugins, id, visited, visiting + {id}, sorted, stack + [id]);
    EndVisit(plugins.configs, visited', visiting + {id}, stack, sorted', id);
    visited', sorted' := visited' + {id}, sorted' + [id];
  }

  // The loop over the registered dependencies of a plugin being visited.
  method VisitDependencies(plugins: PluginMap, id: string, visited: set<string>, visiting: set<string>,
                           sorted: seq<string>, ghost stack: seq<string>)
    returns (visited': set<string>, sorted': seq<string>)
    requires SortInv(plugins.configs, visited, visiting, stack, sorted)
    requires id in plugins.configs && stack != [] && stack[|stack| - 1] == id
    ensures SortInv(plugins.configs, visited', visiting, stack, sorted')
    ensures sorted <= sorted' && forall x :: x in sorted' ==> x in sorted || x in plugins.configs
    ensures Acyclic(DependencyGraph(plugins.configs)) ==> DependenciesWithin(plugins.configs, id, sorted')
    ensures DependenciesWithin(plugins.configs, id, sorted) ==> sorted' == sorted
    decreases plugins.configs.Keys - visiting, 3
  {
    visited', sorted' := visited, sorted;
    var deps := plugins.configs[id].dependencies;
    for k := 0 to |deps|
      invariant SortInv(plugins.configs, visited', visiting, stack, sorted')
      invariant sorted <= sorted' && forall x :: x in sorted' ==> x in sorted || x in plugins.configs
      invariant Acyclic(DependencyGraph(plugins.configs)) ==>
        forall j :: 0 <= j < k && deps[j].pluginId in plugins.configs ==> deps[j].pluginId in sorted'
      invariant DependenciesWithin(plugins.configs, id, sorted) ==> sorted' == sorted
    {
      assert deps[k] in deps;
      visited', sorted' := VisitDependency(plugins, id, k, visited', visiting, sorted', stack);
    }
  }

  // Visits the k-th dependency of a plugin being visited, if it is registered.
  method VisitDependency(plugins: PluginMap, id: string, k: nat, visited: set<string>, visiting: set<string>,
                         sorted: seq<string>, ghost stack: seq<string>)
    returns (visited': set<string>, sorted': seq<string>)
    requires SortInv(plugins.configs, visited, visiting, stack, sorted)
    requires id in plugins.configs && stack != [] && stack[|stack| - 1] == id
    requires k < |plugins.configs[id].dependencies|
    ensures SortInv(plugins.configs, visited', visiting, stack, sorted')
    ensures sorted <= sorted' && forall x :: x in sorted' ==> x in sorted || x in plugins.configs
    ensures var dep := plugins.configs[id].dependencies[k].pluginId;
      Acyclic(DependencyGraph(plugins.configs)) && dep in plugins.configs ==> dep in sorted'
    ensures var dep := plugins.configs[id].dependencies[k].pluginId;
      (dep in plugins.configs ==> dep in sorted) ==> sorted' == sorted
    decreases plugins.configs.Keys - visiting, 2
  {
    visited', sorted' := visited, sorted;
    var dep := plugins.configs[id].dependencies[k].pluginId;
    if dep in plugins.configs {
      DependencyIsEdge(plugins.configs, id, k);
      visited', sorted' := Visit(plugins, dep, visited, visiting, sorted, stack);
    }
  }

  datatype SortError = CircularDependencies(cycles: seq<seq<string>>)

  // Sorting fails exactly on a cyclic graph; otherwise the result is a permutation
  // of the registered ids in which dependencies come before their dependents, and the
  // order of registration is kept when it does so already.
  method TopologicalSort(plugins: PluginMap) returns (r: Result<seq<string>, SortError>)
    requires plugins.Valid()
    ensures r.Ok? <==> Acyclic(DependencyGraph(plugins.configs))
    ensures r.Ok? ==> multiset(r.value) == multiset(plugins.keys) && NoDuplicates(r.value)
    ensures r.Ok? ==> DependenciesFirst(plugins.configs, r.value)
    ensures r.Ok? && DependenciesFirst(plugins.configs, plugins.keys) ==> r.value == plugins.keys
    ensures r.Err? ==> r.error.cycles != [] && EveryCycleReported(DependencyGraph(plugins.configs), r.error.cycles)
    ensures r.Err? ==> forall c :: c in r.error.cycles ==> SimpleCycle(DependencyGraph(plugins.configs), c)
  {
    var cycles := DetectCircularDependencies(plugins);
    if |cycles| > 0 {
      return Err(CircularDependencies(cycles));
    }
    var sorted := VisitAll(plugins);
    SameMembersMeansPermutation(sorted, plugins.keys);
    return Ok(sorted);
  }

  // The loop over the registered plugins.
  method VisitAll(plugins: PluginMap) returns (sorted: seq<string>)
    requires plugins.Valid() && Acyclic(DependencyGraph(plugins.configs))
    ensures NoDuplicates(sorted) && forall x :: x in sorted <==> x in plugins.keys
    ensures DependenciesFirst(plugins.configs, sorted)
    ensures DependenciesFirst(plugins.configs, plugins.keys) ==> sorted == plugins.keys
  {
    var visited: set<string> := {};
    sorted := [];
    for k := 0 to |plugins.keys|
      invariant SortInv(plugins.configs, visited, {}, [], sorted)
      invariant forall x :: x in sorted ==> x in plugins.configs
      invariant forall j :: 0 <= j < k ==> plugins.keys[j] in sorted
      invariant DependenciesFirst(plugins.configs, plugins.keys) ==> sorted == plugins.keys[..k]
    {
      NextKey(plugins, k);
      visited, sorted := Visit(plugins, plugins.keys[k], visited, {}, sorted, []);
    }
    assert plugins.keys[..|plugins.keys|] == plugins.keys;
  }

  lemma NextKey(plugins: PluginMap, k: nat)
    requires plugins.Valid() && k < |plugins.keys|
    ensures plugins.keys[k] in plugins.configs && plugins.keys[k] !in plugins.keys[..k]
    ensures plugins.keys[..k + 1] == plugins.keys[..k] + [plugins.keys[k]]
    ensures DependenciesFirst(plugins.configs, plugins.keys) ==>
      DependenciesWithin(plugins.configs, plugins.keys[k], plugins.keys[..k])
  {
    assert plugins.keys[k] in plugins.keys;
  }

  // ---------- The check before an installation ----------

  datatype DependencyIssue = NotInstalled(pluginId: string) | TooOld(pluginId: string)

  // What is wrong with one dependency, optional or not. An empty minimum asks for nothing.
  function IssueWith(d: Dependency, installed: map<string, PluginConfig>, satisfies: (string, string) -> bool)
    : Option<DependencyIssue>
  {
    if d.pluginId !in installed then Some(NotInstalled(d.pluginId))
    else if d.minVersion.Some? && d.minVersion.value != "" &&
      !satisfies(installed[d.pluginId].version, d.minVersion.value)
      then Some(TooOld(d.pluginId))
    else None
  }

  ghost predicate RequiredDependenciesMet(deps: seq<Dependency>, installed: map<string, PluginConfig>,
                                          satisfies: (string, string) -> bool) {
    forall d :: d in deps && !d.optional ==> IssueWith(d, installed, satisfies) == None
  }

  // A dependency is fine exactly when it is there and, if it asks for a minimum version,
  // in a version that satisfies it; otherwise the issue tells which of the two fails.
  lemma IssueIff(d: Dependency, installed: map<string, PluginConfig>, satisfies: (string, string) -> bool)
    ensures IssueWith(d, installed, satisfies) == None <==> Provided(d, installed, satisfies)
    ensures IssueWith(d, installed, satisfies) == Some(NotInstalled(d.pluginId)) <==> d.pluginId !in installed
  {
  }

  predicate Provided(d: Dependency, installed: map<string, PluginConfig>, satisfies: (string, string) -> bool) {
    && d.pluginId in installed
    && (d.minVersion.Some? && d.minVersion.value != "" ==>
          satisfies(installed[d.pluginId].version, d.minVersion.value))
  }

  // satisfies(version, minimum) is the version comparison. Issues with required
  // dependencies are errors, the others warnings.
  method ValidateDependencies(deps: seq<Dependency>, installed: map<string, PluginConfig>,
                              satisfies: (string, string) -> bool)
    returns (errors: seq<DependencyIssue>, warnings: seq<DependencyIssue>)
    ensures forall x :: x in errors <==>
              exists d :: d in deps && !d.optional && IssueWith(d, installed, satisfies) == Some(x)
    ensures forall x :: x in warnings <==>
              exists d :: d in deps && d.optional && IssueWith(d, installed, satisfies) == Some(x)
    ensures errors == [] <==> RequiredDependenciesMet(deps, installed, satisfies)
  {
    errors, warnings := [], [];
    for k := 0 to |deps|
      invariant forall x :: x in errors <==>
        exists d :: d in deps[..k] && !d.optional && IssueWith(d, installed, satisfies) == Some(x)
      invariant forall x :: x in warnings <==>
        exists d :: d in deps[..k] && d.optional && IssueWith(d, installed, satisfies) == Some(x)
    {
      var dep := deps[k];
      assert deps[..k + 1] == deps[..k] + [dep];
      if dep.pluginId !in installed {
        if dep.optional {
          warnings := warnings + [NotInstalled(dep.pluginId)];
        } else {
          errors := errors + [NotInstalled(dep.pluginId)];
        }
        continue;
      }
      if dep.minVersion.Some? && dep.minVersion.value != ""
         && !satisfies(installed[dep.pluginId].version, dep.minVersion.value) {
        if dep.optional {
          warnings := warnings + [TooOld(dep.pluginId)];
        } else {
          errors := errors + [TooOld(dep.pluginId)];
        }
      }
    }
    assert deps[..|deps|] == deps;
    assert errors != [] ==> errors[0] in errors;
  }
}
