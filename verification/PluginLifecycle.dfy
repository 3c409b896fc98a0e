// src/plugin/lifecycle.ts: the lifecycle states of a plugin and the transition table.
module PluginLifecycle {
  import opened Wrappers

  datatype State = Unregistered | Registered | Installed | Active | Disabled | Error | Uninstalled

  datatype TransitionError = InvalidTransition(pluginId: string, from: State, to: State)

  function ValidTargets(from: State): set<State> {
    match from
    case Unregistered => {Registered}
    case Registered => {Installed, Uninstalled}
    case Installed => {Active, Disabled, Uninstalled}
    case Active => {Disabled, Uninstalled, Error}
    case Disabled => {Active, Uninstalled, Error}
    case Error => {Registered, Uninstalled}
    case Uninstalled => {}
  }

  predicate IsValidTransition(from: State, to: State) {
    to in ValidTargets(from)
  }

  function TransitionState(pluginId: string, current: State, target: State): Result<State, TransitionError> {
    if IsValidTransition(current, target) then Ok(target) else Err(InvalidTransition(pluginId, current, target))
  }

  // The table by target: from where each state can be entered.
  lemma TableFacts(from: State, to: State)
    ensures !IsValidTransition(Uninstalled, to) && !IsValidTransition(from, Unregistered)
    ensures IsValidTransition(from, Registered) <==> from in {Unregistered, Error}
    ensures IsValidTransition(from, Installed) <==> from == Registered
    ensures IsValidTransition(from, Active) <==> from in {Installed, Disabled}
    ensures IsValidTransition(from, Disabled) <==> from in {Installed, Active}
    ensures IsValidTransition(from, Error) <==> from in {Active, Disabled}
    ensures IsValidTransition(from, Uninstalled) <==> from !in {Unregistered, Uninstalled}
  {
  }

  // The states a plugin goes through when it moves by valid transitions only.
  ghost predicate Lifetime(p: seq<State>) {
    p != [] && p[0] == Unregistered && forall i :: 0 <= i < |p| - 1 ==> IsValidTransition(p[i], p[i + 1])
  }

  // A plugin that is active, disabled or in error was installed before, and being
  // uninstalled ends its life.
  lemma {:induction false} LifetimePassesInstalled(p: seq<State>)
    requires Lifetime(p)
    ensures p[|p| - 1] in {Installed, Active, Disabled, Error} ==> Registered in p && Installed in p
    ensures Uninstalled !in p[..|p| - 1]
  {
    if |p| > 1 {
      var front, last := p[..|p| - 1], p[|p| - 1];
      assert IsValidTransition(p[|p| - 2], p[|p| - 2 + 1]);
      LifetimePassesInstalled(front);
      TableFacts(p[|p| - 2], last);
      assert p == front + [last];
      assert front == front[..|front| - 1] + [p[|p| - 2]];
    }
  }
}
