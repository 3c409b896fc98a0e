// src/plugin/pluginManager.ts: installs, enables, disables and uninstalls plugins,
// checking dependencies and lifecycle transitions.
module PluginManager {
  import opened Wrappers
  import opened Graphs
  import opened OrderedSets
  import opened Plugins
  import opened PluginValidation
  import opened PluginLifecycle

  datatype ManagerError =
    | NotFound(pluginId: string)
    | AlreadyRegistered(pluginId: string)
    | DependencyCheckFailed(pluginId: string)
    | BadTransition(error: TransitionError)
    | HookThrew(pluginId: string)

  // ---------- The operations on the states of a fixed set of plugins ----------

  type Configs = map<string, PluginConfig>
  type States = map<string, State>

  datatype Change = Change(states: States, outcome: Result<(), ManagerError>)

  predicate IsInstalled(s: State) {
    s == Installed || s == Active
  }

  function InstalledConfigs(cfgs: Configs, st: States): Configs {
    map k | k in cfgs && k in st && IsInstalled(st[k]) :: cfgs[k]
  }

  // A transition, then a hook that puts the plugin into Error when it throws.
  function Move(cfgs: Configs, st: States, id: string, target: State, hookThrows: bool): Change
    requires id in st
  {
    match TransitionState(id, st[id], target)
    case Err(e) => Change(st, Err(BadTransition(e)))
    case Ok(s) =>
      if hookThrows then Change(st[id := s][id := Error], Err(HookThrew(id))) else Change(st[id := s], Ok(()))
  }

  function Enabling(cfgs: Configs, st: States, id: string): Change {
    if id !in cfgs || id !in st then Change(st, Err(NotFound(id)))
    else if st[id] == Active then Change(st, Ok(()))
    else Move(cfgs, st, id, Active, cfgs[id].hooks.enableThrows)
  }

  function Disabling(cfgs: Configs, st: States, id: string): Change {
    if id !in cfgs || id !in st then Change(st, Err(NotFound(id)))
    else if st[id] == Disabled then Change(st, Ok(()))
    else Move(cfgs, st, id, Disabled, cfgs[id].hooks.disableThrows)
  }

  // A throwing uninstall hook leaves the plugin in Error for a moment; it is
  // uninstalled all the same.
  function Uninstalling(cfgs: Configs, st: States, id: string): Change {
    if id !in cfgs || id !in st then Change(st, Err(NotFound(id)))
    else if st[id] == Uninstalled then Change(st, Ok(()))
    else Removing(cfgs, st, id)
  }

  function Removing(cfgs: Configs, st: States, id: string): Change
    requires id in cfgs && id in st
  {
    var c := BeforeUninstalling(cfgs, st, id);
    if c.outcome.Err? then c else AfterDisabling(cfgs, c.states, id)
  }

  function BeforeUninstalling(cfgs: Configs, st: States, id: string): (c: Change)
    requires id in cfgs && id in st
    ensures id in c.states
  {
    if st[id] == Active then Disabling(cfgs, st, id) else Change(st, Ok(()))
  }

  function AfterDisabling(cfgs: Configs, st: States, id: string): Change
    requires id in cfgs && id in st
  {
    Move(cfgs, if cfgs[id].hooks.uninstallThrows then st[id := Error] else st, id, Uninstalled, false)
  }

  datatype Settings = Settings(autoEnable: bool, satisfies: (string, string) -> bool)

  ghost function Installing(cfgs: Configs, settings: Settings, st: States, id: string): Change {
    if id !in cfgs || id !in st then Change(st, Err(NotFound(id)))
    else if IsInstalled(st[id]) then Change(st, Ok(()))
    else if !RequiredDependenciesMet(cfgs[id].dependencies, InstalledConfigs(cfgs, st), settings.satisfies)
      then Change(st, Err(DependencyCheckFailed(id)))
    else
      var c := Move(cfgs, st, id, Installed, cfgs[id].hooks.installThrows);
      if c.outcome.Ok? && settings.autoEnable then Enabling(cfgs, c.states, id) else c
  }

  ghost function Turn(cfgs: Configs, settings: Settings, st: States, id: string): Change {
    if id in st && IsInstalled(st[id]) then Change(st, Ok(())) else Installing(cfgs, settings, st, id)
  }

  // Installs in the given order, up to the first failure.
  ghost function InstallingAll(cfgs: Configs, settings: Settings, st: States, order: seq<string>): Change {
    if order == [] then Change(st, Ok(()))
    else
      var c := Turn(cfgs, settings, st, order[0]);
      if c.outcome.Err? then c else InstallingAll(cfgs, settings, c.states, order[1..])
  }

  // ---------- What one call does ----------

  // After a failing call: the hook threw and left the plugin in Error, or the state did
  // not allow the transition and nothing changed.
  ghost predicate FailedTo(st: States, id: string, target: State, entered: bool, c: Change)
    requires id in st
  {
    if entered then c.states == st[id := Error] && c.outcome == Err(HookThrew(id))
    else c.states == st && c.outcome == Err(BadTransition(InvalidTransition(id, st[id], target)))
  }

  // Disabling succeeds exactly for a disabled plugin and for an installed or active one
  // whose hook does not throw; it then ends Disabled.
  lemma DisableIff(cfgs: Configs, st: States, id: string)
    requires id in cfgs && id in st
    ensures
      var c, allowed := Disabling(cfgs, st, id), st[id] in {Installed, Active};
      && (c.outcome.Ok? <==> st[id] == Disabled || (allowed && !cfgs[id].hooks.disableThrows))
      && (c.outcome.Ok? ==> c.states == st[id := Disabled])
      && (c.outcome.Err? ==> FailedTo(st, id, Disabled, allowed, c))
  {
    TableFacts(st[id], Disabled);
  }

  // Enabling likewise, for an active plugin and for an installed or disabled one.
  lemma EnableIff(cfgs: Configs, st: States, id: string)
    requires id in cfgs && id in st
    ensures
      var c, allowed := Enabling(cfgs, st, id), st[id] in {Installed, Disabled};
      && (c.outcome.Ok? <==> st[id] == Active || (allowed && !cfgs[id].hooks.enableThrows))
      && (c.outcome.Ok? ==> c.states == st[id := Active])
      && (c.outcome.Err? ==> FailedTo(st, id, Active, allowed, c))
  {
    TableFacts(st[id], Active);
  }

  // Uninstalling leaves the plugin Uninstalled and every other as it was, whatever the
  // uninstall hook does, unless the plugin is active and its disable hook throws; then
  // it ends in Error. (No call leaves a managed plugin Unregistered; such a one could
  // be uninstalled from the Error its throwing hook puts it in only.)
  lemma UninstallIff(cfgs: Configs, st: States, id: string)
    requires id in cfgs && id in st
    ensures
      var c, stuck := Uninstalling(cfgs, st, id), st[id] == Active && cfgs[id].hooks.disableThrows;
      var unmanaged := st[id] == Unregistered && !cfgs[id].hooks.uninstallThrows;
      && (c.outcome.Ok? <==> !stuck && !unmanaged)
      && (c.outcome.Ok? ==> c.states == st[id := Uninstalled])
      && (stuck ==> c.states == st[id := Error] && c.outcome == Err(HookThrew(id)))
      && (unmanaged ==> FailedTo(st, id, Uninstalled, false, c))
  {
    DisableIff(cfgs, st, id);
    TableFacts(st[id], Uninstalled);
    TableFacts(Disabled, Uninstalled);
    TableFacts(Error, Uninstalled);
  }

  // Installing, from whatever state: a missing plugin has to be Registered with its
  // requirements installed, and no hook may throw.
  lemma InstallIff(cfgs: Configs, settings: Settings, st: States, id: string)
    requires id in cfgs && id in st
    ensures
      var c, hooks := Installing(cfgs, settings, st, id), cfgs[id].hooks;
      var there := st[id] in {Installed, Active};
      var met := forall d :: d in cfgs[id].dependencies && !d.optional ==> InUse(cfgs, settings, st, d);
      && (c.outcome.Ok? <==>
            || there
            || (met && st[id] == Registered && !hooks.installThrows && !(settings.autoEnable && hooks.enableThrows)))
      && (c.outcome.Ok? && there ==> c.states == st)
      && (c.outcome.Ok? && !there ==> c.states == st[id := if settings.autoEnable then Active else Installed])
      && (c.outcome.Err? ==>
            if !met then c.states == st && c.outcome == Err(DependencyCheckFailed(id))
            else FailedTo(st, id, Installed, st[id] == Registered, c))
  {
    TableFacts(st[id], Installed);
    TableFacts(Installed, Active);
    forall d
      ensures IssueWith(d, InstalledConfigs(cfgs, st), settings.satisfies) == None <==> InUse(cfgs, settings, st, d)
    {
    }
  }

  // The plugin depended on is installed or active, in a version that meets the minimum.
  predicate InUse(cfgs: Configs, settings: Settings, st: States, d: Dependency) {
    && d.pluginId in cfgs && d.pluginId in st && st[d.pluginId] in {Installed, Active}
    && (d.minVersion.Some? && d.minVersion.value != "" ==>
          settings.satisfies(cfgs[d.pluginId].version, d.minVersion.value))
  }

  lemma UnknownIsNotFound(cfgs: Configs, settings: Settings, st: States, id: string)
    requires id !in cfgs || id !in st
    ensures Installing(cfgs, settings, st, id) == Enabling(cfgs, st, id) == Change(st, Err(NotFound(id)))
    ensures Disabling(cfgs, st, id) == Uninstalling(cfgs, st, id) == Change(st, Err(NotFound(id)))
  {
  }

  // Installing everything stops at the first plugin whose turn fails, and what was
  // installed before stays so.
  lemma {:induction false} StopsAtFirstFailure(cfgs: Configs, settings: Settings, st: States, order: seq<string>)
    returns (i: nat)
    requires InstallingAll(cfgs, settings, st, order).outcome.Err?
    ensures i < |order|
    ensures
      var before := InstallingAll(cfgs, settings, st, order[..i]);
      && before.outcome.Ok?
      && Turn(cfgs, settings, before.states, order[i]).outcome.Err?
      && InstallingAll(cfgs, settings, st, order) == Turn(cfgs, settings, before.states, order[i])
    decreases |order|
  {
    var first := Turn(cfgs, settings, st, order[0]);
    if first.outcome.Err? {
      i := 0;
      assert order[..0] == [];
    } else {
      var j := StopsAtFirstFailure(cfgs, settings, first.states, order[1..]);
      i := j + 1;
      assert order[..i][1..] == order[1..][..j] && order[..i][0] == order[0];
    }
  }

  // ---------- Installing everything ----------

  ghost predicate AtRest(s: State) {
    s == Registered || IsInstalled(s)
  }

  ghost predicate HooksBehave(cfgs: Configs) {
    forall k :: k in cfgs ==> !cfgs[k].hooks.installThrows && !cfgs[k].hooks.enableThrows
  }

  // What a freshly installed plugin ends as.
  function Finished(settings: Settings): State {
    if settings.autoEnable then Active else Installed
  }

  ghost predicate AllAtRest(cfgs: Configs, st: States) {
    st.Keys == cfgs.Keys && forall k :: k in cfgs ==> AtRest(st[k])
  }

  // What a plugin requires is registered in sufficient versions, and installed
  // already or among the earlier plugins.
  ghost predicate ReadyAfter(cfgs: Configs, settings: Settings, st: States, id: string, earlier: seq<string>) {
    id in cfgs && forall d :: d in cfgs[id].dependencies && !d.optional ==>
      && IssueWith(d, cfgs, settings.satisfies) == None
      && (d.pluginId in earlier || (d.pluginId in st && IsInstalled(st[d.pluginId])))
  }

  // Every missing plugin is ready after those before it.
  ghost predicate EachReady(cfgs: Configs, settings: Settings, st: States, order: seq<string>) {
    forall i :: 0 <= i < |order| && order[i] in st && !IsInstalled(st[order[i]]) ==>
      ReadyAfter(cfgs, settings, st, order[i], order[..i])
  }

  lemma OneTurn(cfgs: Configs, settings: Settings, st: States, id: string)
    requires AllAtRest(cfgs, st) && HooksBehave(cfgs) && id in cfgs && !IsInstalled(st[id])
    ensures
      var c := Installing(cfgs, settings, st, id);
      && (c.outcome.Ok? <==> ReadyAfter(cfgs, settings, st, id, []))
      && (c.outcome.Ok? ==> c.states == st[id := Finished(settings)])
  {
    forall d | d in cfgs[id].dependencies && !d.optional
      ensures IssueWith(d, InstalledConfigs(cfgs, st), settings.satisfies) == None
              <==> IssueWith(d, cfgs, settings.satisfies) == None && d.pluginId in st && IsInstalled(st[d.pluginId])
    {
    }
  }

  // A turn passed: the plugin counts as installed from here on.
  lemma ReadyShift(cfgs: Configs, settings: Settings, st: States, st': States, first: string, id: string,
                   earlier: seq<string>)
    requires first in st && first in st' && IsInstalled(st'[first]) && st' == st[first := st'[first]]
    ensures ReadyAfter(cfgs, settings, st, id, [first] + earlier) <==> ReadyAfter(cfgs, settings, st', id, earlier)
  {
    assert forall x :: x in [first] + earlier <==> x == first || x in earlier;
  }

  lemma EachReadySplit(cfgs: Configs, settings: Settings, st: States, st': States, order: seq<string>)
    requires order != [] && NoDuplicates(order) && order[0] in st
    requires order[0] in st' && IsInstalled(st'[order[0]]) && st' == st[order[0] := st'[order[0]]]
    ensures EachReady(cfgs, settings, st, order) <==>
      && (IsInstalled(st[order[0]]) || ReadyAfter(cfgs, settings, st, order[0], []))
      && EachReady(cfgs, settings, st', order[1..])
  {
    var id, rest := order[0], order[1..];
    assert order[..0] == [];
    forall i | 0 <= i < |rest|
      ensures ReadyAfter(cfgs, settings, st, order[i + 1], order[..i + 1])
              <==> ReadyAfter(cfgs, settings, st', rest[i], rest[..i])
    {
      assert order[..i + 1] == [id] + rest[..i];
      ReadyShift(cfgs, settings, st, st', id, rest[i], rest[..i]);
    }
    if EachReady(cfgs, settings, st, order) {
      forall i | 0 <= i < |rest| && rest[i] in st' && !IsInstalled(st'[rest[i]])
        ensures ReadyAfter(cfgs, settings, st', rest[i], rest[..i])
      {
        assert order[i + 1] == rest[i];
      }
    }
    if EachReady(cfgs, settings, st', rest) && (IsInstalled(st[id]) || ReadyAfter(cfgs, settings, st, id, [])) {
      forall i | 0 <= i < |order| && order[i] in st && !IsInstalled(st[order[i]])
        ensures ReadyAfter(cfgs, settings, st, order[i], order[..i])
      {
        if i > 0 {
          assert rest[i - 1] == order[i];
        }
      }
    }
  }

  // With well-behaved hooks and all plugins registered or installed, in whatever
  // order: installing succeeds exactly when every missing plugin's requirements are
  // satisfiable and are installed already or come earlier.
  lemma {:induction false} InstallInOrderSucceedsIff(cfgs: Configs, settings: Settings, st: States, order: seq<string>)
    requires AllAtRest(cfgs, st) && HooksBehave(cfgs)
    requires NoDuplicates(order) && forall i :: 0 <= i < |order| ==> order[i] in cfgs
    ensures
      var c := InstallingAll(cfgs, settings, st, order);
      && (c.outcome.Ok? <==> EachReady(cfgs, settings, st, order))
      && (c.outcome.Ok? ==>
            && c.states.Keys == cfgs.Keys
            && forall k :: k in cfgs ==>
                 c.states[k] == if IsInstalled(st[k]) || k !in order then st[k] else Finished(settings))
    decreases |order|
  {
    if order != [] {
      var id := order[0];
      var first := Turn(cfgs, settings, st, id);
      if !IsInstalled(st[id]) {
        OneTurn(cfgs, settings, st, id);
      }
      if first.outcome.Ok? {
        EachReadySplit(cfgs, settings, st, first.states, order);
        InstallInOrderSucceedsIff(cfgs, settings, first.states, order[1..]);
      } else {
        assert order[..0] == [];
      }
    }
  }

  // In particular in an order that puts dependencies first, as on an acyclic graph:
  // installing everything succeeds exactly when the missing plugins' requirements
  // are satisfiable, and then every plugin ends installed.
  lemma InstallAllSucceedsIff(cfgs: Configs, settings: Settings, st: States, sorted: seq<string>)
    requires AllAtRest(cfgs, st) && HooksBehave(cfgs)
    requires NoDuplicates(sorted) && (forall k :: k in sorted <==> k in cfgs) && DependenciesFirst(cfgs, sorted)
    ensures
      var c := InstallingAll(cfgs, settings, st, sorted);
      && (c.outcome.Ok? <==>
            forall k :: k in cfgs && !IsInstalled(st[k]) ==>
              RequiredDependenciesMet(cfgs[k].dependencies, cfgs, settings.satisfies))
      && (c.outcome.Ok? ==>
            && c.states.Keys == cfgs.Keys
            && forall k :: k in cfgs ==> c.states[k] == if IsInstalled(st[k]) then st[k] else Finished(settings))
  {
    InstallInOrderSucceedsIff(cfgs, settings, st, sorted);
    forall i | 0 <= i < |sorted|
      ensures ReadyAfter(cfgs, settings, st, sorted[i], sorted[..i])
              <==> RequiredDependenciesMet(cfgs[sorted[i]].dependencies, cfgs, settings.satisfies)
    {
      assert DependenciesWithin(cfgs, sorted[i], sorted[..i]);
    }
    if InstallingAll(cfgs, settings, st, sorted).outcome.Ok? {
      forall k | k in cfgs && !IsInstalled(st[k])
        ensures RequiredDependenciesMet(cfgs[k].dependencies, cfgs, settings.satisfies)
      {
        var i :| 0 <= i < |sorted| && sorted[i] == k;
      }
    }
  }

  // A plugin a requires b, which optionally depends on a. The optional dependency
  // closes a cycle, so they are installed as registered, and a fails; in the other
  // order both succeed.
  lemma OptionalCycleExample(settings: Settings, order: seq<string>)
    requires InstallOrder(OptionalCycle(), ["a", "b"], order)
    ensures
      var cfgs, st := OptionalCycle(), map["a" := Registered, "b" := Registered];
      && InstallingAll(cfgs, settings, st, order).outcome.Err?
      && InstallingAll(cfgs, settings, st, ["b", "a"]).outcome.Ok?
  {
    OptionalCycleIsCyclic();
    assert order == ["a", "b"];
    AFirstFails(settings);
    BFirstSucceeds(settings);
  }

  function OptionalCycle(): Configs {
    var quiet := Hooks(false, false, false, false);
    map["a" := PluginConfig("a", "1.0.0", [Dependency("b", None, false)], quiet),
        "b" := PluginConfig("b", "1.0.0", [Dependency("a", None, true)], quiet)]
  }

  lemma OptionalCycleIsCyclic()
    ensures !Acyclic(DependencyGraph(OptionalCycle()))
  {
    var g, cycle := DependencyGraph(OptionalCycle()), ["a", "b", "a"];
    DependencyIsEdge(OptionalCycle(), "a", 0);
    DependencyIsEdge(OptionalCycle(), "b", 0);
    assert ClosedWalk(g, cycle);
    assert OnCycle(g, "a");
  }

  lemma AFirstFails(settings: Settings)
    ensures InstallingAll(OptionalCycle(), settings, map["a" := Registered, "b" := Registered], ["a", "b"]).outcome.Err?
  {
    var cfgs, st := OptionalCycle(), map["a" := Registered, "b" := Registered];
    InstallInOrderSucceedsIff(cfgs, settings, st, ["a", "b"]);
    assert cfgs["a"].dependencies[0] in cfgs["a"].dependencies;
    assert ["a", "b"][..0] == [] && !ReadyAfter(cfgs, settings, st, "a", []);
  }

  lemma BFirstSucceeds(settings: Settings)
    ensures InstallingAll(OptionalCycle(), settings, map["a" := Registered, "b" := Registered], ["b", "a"]).outcome.Ok?
  {
    var cfgs, st := OptionalCycle(), map["a" := Registered, "b" := Registered];
    InstallInOrderSucceedsIff(cfgs, settings, st, ["b", "a"]);
    assert ["b", "a"][..0] == [] && ReadyAfter(cfgs, settings, st, "b", []);
    assert ["b", "a"][..1] == ["b"] && ReadyAfter(cfgs, settings, st, "a", ["b"]);
  }

  // ---------- Any sequence of calls ----------

  datatype Op =
    | Install(id: string)
    | InstallAll(order: seq<string>)
    | Enable(id: string)
    | Disable(id: string)
    | Uninstall(id: string)

  ghost function Apply(cfgs: Configs, settings: Settings, st: States, op: Op): States {
    match op
    case Install(id) => Installing(cfgs, settings, st, id).states
    case InstallAll(order) => InstallingAll(cfgs, settings, st, order).states
    case Enable(id) => Enabling(cfgs, st, id).states
    case Disable(id) => Disabling(cfgs, st, id).states
    case Uninstall(id) => Uninstalling(cfgs, st, id).states
  }

  ghost function ApplyAll(cfgs: Configs, settings: Settings, st: States, ops: seq<Op>): States
    decreases |ops|
  {
    if ops == [] then st else ApplyAll(cfgs, settings, Apply(cfgs, settings, st, ops[0]), ops[1..])
  }

  // ---------- Uninstalled for good ----------

  ghost predicate IsUninstalled(st: States, id: string) {
    id in st && st[id] == Uninstalled
  }

  lemma InstallKeepsUninstalled(cfgs: Configs, settings: Settings, st: States, id: string, gone: string)
    requires IsUninstalled(st, gone)
    ensures IsUninstalled(Installing(cfgs, settings, st, id).states, gone)
  {
    TableFacts(Uninstalled, Installed);
  }

  lemma {:induction false} InstallAllKeepsUninstalled(cfgs: Configs, settings: Settings, st: States,
                                                      order: seq<string>, gone: string)
    requires IsUninstalled(st, gone)
    ensures IsUninstalled(InstallingAll(cfgs, settings, st, order).states, gone)
    decreases |order|
  {
    if order != [] {
      InstallKeepsUninstalled(cfgs, settings, st, order[0], gone);
      var c := Turn(cfgs, settings, st, order[0]);
      if c.outcome.Ok? {
        InstallAllKeepsUninstalled(cfgs, settings, c.states, order[1..], gone);
      }
    }
  }

  lemma ApplyKeepsUninstalled(cfgs: Configs, settings: Settings, st: States, op: Op, gone: string)
    requires IsUninstalled(st, gone)
    ensures IsUninstalled(Apply(cfgs, settings, st, op), gone)
  {
    match op
    case Install(id) => InstallKeepsUninstalled(cfgs, settings, st, id, gone);
    case InstallAll(order) => InstallAllKeepsUninstalled(cfgs, settings, st, order, gone);
    case Enable(id) => TableFacts(Uninstalled, Active);
    case Disable(id) => TableFacts(Uninstalled, Disabled);
    case Uninstall(id) =>
      if id in cfgs && id in st {
        UninstallIff(cfgs, st, id);
      }
  }

  // Once uninstalled, a plugin stays so under any calls.
  lemma {:induction false} UninstalledForGood(cfgs: Configs, settings: Settings, st: States, ops: seq<Op>,
                                              gone: string)
    requires IsUninstalled(st, gone)
    ensures IsUninstalled(ApplyAll(cfgs, settings, st, ops), gone)
    decreases |ops|
  {
    if ops != [] {
      ApplyKeepsUninstalled(cfgs, settings, st, ops[0], gone);
      UninstalledForGood(cfgs, settings, Apply(cfgs, settings, st, ops[0]), ops[1..], gone);
    }
  }

  // ---------- Plugins that can never be installed ----------

  // Required dependencies only.
  function RequiredIds(deps: seq<Dependency>): (r: seq<string>)
    ensures forall x :: x in r <==> exists d :: d in deps && !d.optional && d.pluginId == x
  {
    if deps == [] then []
    else if deps[0].optional then RequiredIds(deps[1..])
    else [deps[0].pluginId] + RequiredIds(deps[1..])
  }

  function RequiredGraph(cfgs: Configs): Graph<string> {
    map k | k in cfgs :: RequiredIds(cfgs[k].dependencies)
  }

  // Each of these plugins requires another of them.
  ghost predicate Entangled(cfgs: Configs, knot: set<string>) {
    forall c {:trigger RequiresOneOf(cfgs, c, knot)} :: c in knot ==> RequiresOneOf(cfgs, c, knot)
  }

  ghost predicate RequiresOneOf(cfgs: Configs, c: string, knot: set<string>) {
    c in cfgs && exists d :: d in cfgs[c].dependencies && !d.optional && d.pluginId in knot
  }

  // None of these plugins has got past registration.
  ghost predicate NeverInstalled(st: States, knot: set<string>) {
    forall c :: c in knot && c in st ==> st[c] in {Registered, Error, Uninstalled}
  }

  lemma InstallKeepsKnot(cfgs: Configs, settings: Settings, st: States, id: string, knot: set<string>)
    requires Entangled(cfgs, knot) && NeverInstalled(st, knot)
    ensures NeverInstalled(Installing(cfgs, settings, st, id).states, knot)
  {
    if id in knot && id in st {
      assert RequiresOneOf(cfgs, id, knot);
      var d :| d in cfgs[id].dependencies && !d.optional && d.pluginId in knot;
      assert d.pluginId !in InstalledConfigs(cfgs, st);
      assert IssueWith(d, InstalledConfigs(cfgs, st), settings.satisfies) != None;
    }
  }

  lemma {:induction false} InstallAllKeepsKnot(cfgs: Configs, settings: Settings, st: States, order: seq<string>,
                                               knot: set<string>)
    requires Entangled(cfgs, knot) && NeverInstalled(st, knot)
    ensures NeverInstalled(InstallingAll(cfgs, settings, st, order).states, knot)
    decreases |order|
  {
    if order != [] {
      InstallKeepsKnot(cfgs, settings, st, order[0], knot);
      var c := Turn(cfgs, settings, st, order[0]);
      if c.outcome.Ok? {
        InstallAllKeepsKnot(cfgs, settings, c.states, order[1..], knot);
      }
    }
  }

  // Plugins that require each other are never installed, whatever is called.
  lemma {:induction false} KnotIsNeverInstalled(cfgs: Configs, settings: Settings, st: States, ops: seq<Op>,
                                                knot: set<string>)
    requires Entangled(cfgs, knot) && NeverInstalled(st, knot)
    ensures NeverInstalled(ApplyAll(cfgs, settings, st, ops), knot)
    decreases |ops|
  {
    if ops != [] {
      match ops[0] {
        case Install(id) => InstallKeepsKnot(cfgs, settings, st, id, knot);
        case InstallAll(order) => InstallAllKeepsKnot(cfgs, settings, st, order, knot);
        case _ =>
      }
      KnotIsNeverInstalled(cfgs, settings, Apply(cfgs, settings, st, ops[0]), ops[1..], knot);
    }
  }

  lemma NextOnCycle(cfgs: Configs, cycle: seq<string>, i: nat)
    requires ClosedWalk(RequiredGraph(cfgs), cycle) && i < |cycle| - 1
    ensures RequiresOneOf(cfgs, cycle[i], set c | c in cycle)
  {
    assert Edge(RequiredGraph(cfgs), cycle[i], cycle[i + 1]);
    var d :| d in cfgs[cycle[i]].dependencies && !d.optional && d.pluginId == cycle[i + 1];
  }

  // In particular the plugins along a cycle of required dependencies.
  lemma RequiredCycleIsNeverInstalled(cfgs: Configs, settings: Settings, st: States, ops: seq<Op>, cycle: seq<string>)
    requires ClosedWalk(RequiredGraph(cfgs), cycle)
    requires forall c :: c in cycle && c in st ==> st[c] == Registered
    ensures forall c :: c in cycle && c in ApplyAll(cfgs, settings, st, ops) ==>
      !IsInstalled(ApplyAll(cfgs, settings, st, ops)[c])
  {
    var g := RequiredGraph(cfgs);
    var knot := set c | c in cycle;
    forall c | c in knot
      ensures RequiresOneOf(cfgs, c, knot)
    {
      var i :| 0 <= i < |cycle| && cycle[i] == c;
      NextOnCycle(cfgs, cycle, if i == |cycle| - 1 then 0 else i);
    }
    KnotIsNeverInstalled(cfgs, settings, st, ops, knot);
  }

  // ---------- The class ----------

  class PluginInstance {
    const config: PluginConfig
    var state: State

    constructor (config: PluginConfig)
      ensures this.config == config && state == Unregistered
    {
      this.config := config;
      state := Unregistered;
    }
  }

  // cfgs and st are the abstract view of the plugins, kept up to date by every method.
  class PluginManager {
    const settings: Settings
    var keys: seq<string>
    var plugins: map<string, PluginInstance>
    ghost var cfgs: Configs
    ghost var st: States

    ghost function Instances(): set<object>
      reads this
    {
      set k | k in plugins :: plugins[k]
    }

    ghost predicate Valid()
      reads this, Instances()
    {
      && NoDuplicates(keys) && (forall k :: k in keys <==> k in plugins)
      && cfgs.Keys == plugins.Keys && st.Keys == plugins.Keys
      && (forall k :: k in plugins ==> plugins[k].config == cfgs[k] && plugins[k].state == st[k] && cfgs[k].id == k)
    }

    constructor (settings: Settings)
      ensures Valid() && fresh(Instances()) && keys == [] && cfgs == map[] && this.settings == settings
    {
      this.settings := settings;
      keys, plugins, cfgs, st := [], map[], map[], map[];
    }

    method Register(config: PluginConfig) returns (r: Result<(), ManagerError>)
      requires Valid()
      modifies this
      ensures Valid() && fresh(Instances() - old(Instances()))
      ensures if config.id in old(cfgs) then
                r == Err(AlreadyRegistered(config.id)) && keys == old(keys) && cfgs == old(cfgs) && st == old(st)
              else
                r == Ok(()) && keys == old(keys) + [config.id]
                && cfgs == old(cfgs)[config.id := config] && st == old(st)[config.id := Registered]
    {
      if config.id in plugins {
        return Err(AlreadyRegistered(config.id));
      }
      var instance := new PluginInstance(config);
      instance.state := TransitionState(config.id, instance.state, Registered).value;
      keys := keys + [config.id];
      plugins := plugins[config.id := instance];
      cfgs, st := cfgs[config.id := config], st[config.id := Registered];
      return Ok(());
    }

    method SetState(id: string, s: State)
      requires Valid() && id in plugins
      modifies plugins[id], `st
      ensures Valid() && st == old(st)[id := s]
    {
      plugins[id].state := s;
      st := st[id := s];
    }

    // Lets a plugin take a transition and runs the hook that goes with it.
    method Transition(id: string, target: State, hookThrows: bool) returns (r: Result<(), ManagerError>)
      requires Valid() && id in plugins
      modifies plugins[id], `st
      ensures Valid() && Change(st, r) == Move(cfgs, old(st), id, target, hookThrows)
    {
      var next := TransitionState(id, plugins[id].state, target);
      if next.Err? {
        return Err(BadTransition(next.error));
      }
      SetState(id, next.value);
      r := RunHook(id, hookThrows);
    }

    method RunHook(id: string, hookThrows: bool) returns (r: Result<(), ManagerError>)
      requires Valid() && id in plugins
      modifies plugins[id], `st
      ensures Valid() && Change(st, r) ==
        if hookThrows then Change(old(st)[id := Error], Err(HookThrew(id))) else Change(old(st), Ok(()))
    {
      r := Ok(());
      if hookThrows {
        SetState(id, Error);
        r := Err(HookThrew(id));
      }
    }

    method Enable(id: string) returns (r: Result<(), ManagerError>)
      requires Valid()
      modifies Instances(), `st
      ensures Valid() && Change(st, r) == Enabling(cfgs, old(st), id)
    {
      if id !in plugins {
        return Err(NotFound(id));
      }
      if plugins[id].state == Active {
        return Ok(());
      }
      r := Transition(id, Active, plugins[id].config.hooks.enableThrows);
    }

    method Disable(id: string) returns (r: Result<(), ManagerError>)
      requires Valid()
      modifies Instances(), `st
      ensures Valid() && Change(st, r) == Disabling(cfgs, old(st), id)
    {
      if id !in plugins {
        return Err(NotFound(id));
      }
      if plugins[id].state == Disabled {
        return Ok(());
      }
      r := Transition(id, Disabled, plugins[id].config.hooks.disableThrows);
    }

    method Uninstall(id: string) returns (r: Result<(), ManagerError>)
      requires Valid()
      modifies Instances(), `st
      ensures Valid() && Change(st, r) == Uninstalling(cfgs, old(st), id)
    {
      if id !in plugins {
        return Err(NotFound(id));
      }
      if plugins[id].state == Uninstalled {
        return Ok(());
      }
      r := Remove(id);
    }

    method Remove(id: string) returns (r: Result<(), ManagerError>)
      requires Valid() && id in plugins
      modifies Instances(), `st
      ensures Valid() && Change(st, r) == Removing(cfgs, old(st), id)
    {
      ghost var c := BeforeUninstalling(cfgs, st, id);
      r := StartUninstalling(id);
      assert Change(st, r) == c;
      if r.Ok? {
        r := FinishUninstalling(id);
        assert Change(st, r) == AfterDisabling(cfgs, c.states, id);
      }
    }

    // An active plugin is disabled first.
    method StartUninstalling(id: string) returns (r: Result<(), ManagerError>)
      requires Valid() && id in plugins
      modifies Instances(), `st
      ensures Valid() && Change(st, r) == BeforeUninstalling(cfgs, old(st), id)
    {
      r := Ok(());
      if plugins[id].state == Active {
        r := Disable(id);
      }
    }

    method FinishUninstalling(id: string) returns (r: Result<(), ManagerError>)
      requires Valid() && id in plugins
      modifies plugins[id], `st
      ensures Valid() && Change(st, r) == AfterDisabling(cfgs, old(st), id)
    {
      if plugins[id].config.hooks.uninstallThrows {
        SetState(id, Error);
      }
      r := Transition(id, Uninstalled, false);
    }

    method GetInstalled() returns (installed: Configs)
      requires Valid()
      ensures installed == InstalledConfigs(cfgs, st)
    {
      installed := map[];
      for i := 0 to |keys|
        invariant forall k :: k in installed <==> k in keys[..i] && IsInstalled(st[k])
        invariant forall k :: k in installed ==> installed[k] == cfgs[k]
      {
        assert keys[..i + 1] == keys[..i] + [keys[i]];
        assert keys[i] in keys;
        if IsInstalled(plugins[keys[i]].state) {
          installed := installed[keys[i] := plugins[keys[i]].config];
        }
      }
      assert keys[..|keys|] == keys;
    }

    method CheckDependencies(deps: seq<Dependency>) returns (ok: bool)
      requires Valid()
      ensures ok <==> RequiredDependenciesMet(deps, InstalledConfigs(cfgs, st), settings.satisfies)
    {
      ok := true;
      if |deps| > 0 {
        var installed := GetInstalled();
        var errors, warnings := ValidateDependencies(deps, installed, settings.satisfies);
        ok := errors == [];
      }
    }

    // A passed dependency check means that every required dependency is installed
    // already, so the loop that would install them first finds nothing to do.
    method Install(id: string) returns (r: Result<(), ManagerError>)
      requires Valid()
      modifies Instances(), `st
      ensures Valid() && Change(st, r) == Installing(cfgs, settings, old(st), id)
    {
      if id !in plugins {
        return Err(NotFound(id));
      }
      if IsInstalled(plugins[id].state) {
        return Ok(());
      }
      var deps := plugins[id].config.dependencies;
      var ok := CheckDependencies(deps);
      if !ok {
        return Err(DependencyCheckFailed(id));
      }
      for i := 0 to |deps| {
        if !deps[i].optional && deps[i].pluginId in plugins {
          assert IssueWith(deps[i], InstalledConfigs(cfgs, st), settings.satisfies) == None;
          if !IsInstalled(plugins[deps[i].pluginId].state) {
            assert false;
          }
        }
      }
      r := Transition(id, Installed, plugins[id].config.hooks.installThrows);
      if r.Ok? && settings.autoEnable {
        r := Enable(id);
      }
    }

    // Dependency order, or registration order when there is a cycle.
    method GetDependencySorted() returns (sorted: seq<string>)
      requires Valid()
      ensures InstallOrder(cfgs, keys, sorted)
    {
      var configs: Configs := map k | k in plugins :: plugins[k].config;
      assert configs == cfgs;
      var r := TopologicalSort(PluginMap(keys, configs));
      if r.Err? {
        return keys;
      }
      sorted := r.value;
      assert forall k :: k in sorted <==> k in multiset(sorted);
      assert forall k :: k in keys <==> k in multiset(keys);
    }

    method InstallIfMissing(id: string) returns (r: Result<(), ManagerError>)
      requires Valid() && id in plugins
      modifies Instances(), `st
      ensures Valid() && Change(st, r) == Turn(cfgs, settings, old(st), id)
    {
      r := Ok(());
      if !IsInstalled(plugins[id].state) {
        r := Install(id);
      }
    }

    // order tells in which order the plugins had their turn.
    method InstallEverything() returns (r: Result<(), ManagerError>, ghost order: seq<string>)
      requires Valid()
      modifies Instances(), `st
      ensures Valid() && InstallOrder(cfgs, keys, order)
      ensures Change(st, r) == InstallingAll(cfgs, settings, old(st), order)
    {
      var sorted := GetDependencySorted();
      order := sorted;
      r := InstallEach(sorted);
    }

    // The loop over the plugins in the given order.
    method InstallEach(sorted: seq<string>) returns (r: Result<(), ManagerError>)
      requires Valid() && forall i :: 0 <= i < |sorted| ==> sorted[i] in plugins
      modifies Instances(), `st
      ensures Valid() && Change(st, r) == InstallingAll(cfgs, settings, old(st), sorted)
    {
      assert sorted[0..] == sorted;
      for i := 0 to |sorted|
        invariant Valid()
        invariant InstallingAll(cfgs, settings, old(st), sorted) == InstallingAll(cfgs, settings, st, sorted[i..])
      {
        assert sorted[i..][1..] == sorted[i + 1..];
        r := InstallIfMissing(sorted[i]);
        if r.Err? {
          return;
        }
      }
      r := Ok(());
    }
  }

  ghost predicate InstallOrder(cfgs: Configs, keys: seq<string>, order: seq<string>) {
    && NoDuplicates(order) && (forall k :: k in order <==> k in cfgs)
    && (if Acyclic(DependencyGraph(cfgs)) then DependenciesFirst(cfgs, order) else order == keys)
  }
}
