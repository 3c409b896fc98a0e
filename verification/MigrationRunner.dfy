// src/migrations/migrationRunner.ts: runs a resolved plan against a state value,
// optionally undoing the completed steps in reverse after a failure.
module MigrationRunner {
  import opened Wrappers
  import opened Migrations

  // What a step throws. JavaScript lets it throw any value, also a falsy one.
  datatype Thrown = Thrown(truthy: bool)

  datatype Context = Context(contractId: string, dryRun: bool)

  // The functions the steps carry, and the state schemas; a version without a
  // schema accepts every state.
  datatype Behaviour<!S> = Behaviour(
    migrate: (Step, S, Context) -> Result<S, Thrown>,
    hasRollback: Step -> bool,
    rollback: (Step, S, Context) -> Result<S, Thrown>,
    accepts: (string, string, S) -> bool)

  datatype Options = Options(dryRun: bool, rollbackOnFailure: bool, validateState: bool)

  datatype Status = Completed | Failed | RolledBack

  datatype StepResult = StepResult(stepId: string, fromVersion: string, toVersion: string, succeeded: bool)

  datatype Report = Report(
    status: Status,
    dryRun: bool,
    totalSteps: nat,
    succeededSteps: nat,
    failedSteps: nat,
    steps: seq<StepResult>,
    rollbackSteps: Option<seq<StepResult>>)

  // ---------- One step ----------

  function Attempt<S>(b: Behaviour<S>, step: Step, state: S, ctx: Context, validate: bool): Result<S, Thrown> {
    if validate && !b.accepts(ctx.contractId, step.fromVersion, state) then Err(Thrown(true))
    else
      match b.migrate(step, state, ctx)
      case Err(e) => Err(e)
      case Ok(next) =>
        if validate && !b.accepts(ctx.contractId, step.toVersion, next) then Err(Thrown(true)) else Ok(next)
  }

  // ---------- The forward run ----------

  datatype Forwarded<S> = Forwarded(completed: nat, state: S, failure: Option<Thrown>)

  function Forward<S>(b: Behaviour<S>, steps: seq<Step>, state: S, ctx: Context, validate: bool): (f: Forwarded<S>)
    ensures f.completed <= |steps|
    ensures f.failure.None? <==> f.completed == |steps|
  {
    if steps == [] then Forwarded(0, state, None)
    else
      match Attempt(b, steps[0], state, ctx, validate)
      case Err(e) => Forwarded(0, state, Some(e))
      case Ok(next) =>
        var rest := Forward(b, steps[1..], next, ctx, validate);
        Forwarded(rest.completed + 1, rest.state, rest.failure)
  }

  // States a run passes through: each attempt leads from one to the next.
  ghost predicate Trace<S>(b: Behaviour<S>, steps: seq<Step>, ctx: Context, validate: bool, tr: seq<S>) {
    && 0 < |tr| <= |steps| + 1
    && forall i :: 0 <= i < |tr| - 1 ==> Attempt(b, steps[i], tr[i], ctx, validate) == Ok(tr[i + 1])
  }

  // A run records a prefix of successes and stops at the first failing attempt.
  lemma {:induction false} ForwardFollowsTrace<S>(b: Behaviour<S>, steps: seq<Step>, state: S, ctx: Context,
                                                  validate: bool) returns (tr: seq<S>)
    ensures var f := Forward(b, steps, state, ctx, validate);
      && Trace(b, steps, ctx, validate, tr) && |tr| == f.completed + 1
      && tr[0] == state && tr[f.completed] == f.state
      && (f.failure.Some? ==> Attempt(b, steps[f.completed], f.state, ctx, validate) == Err(f.failure.value))
  {
    tr := [state];
    if steps != [] && Attempt(b, steps[0], state, ctx, validate).Ok? {
      var rest := ForwardFollowsTrace(b, steps[1..], Attempt(b, steps[0], state, ctx, validate).value, ctx, validate);
      tr := [state] + rest;
      forall i | 0 <= i < |tr| - 1
        ensures Attempt(b, steps[i], tr[i], ctx, validate) == Ok(tr[i + 1])
      {
        if i > 0 {
          assert steps[1..][i - 1] == steps[i];
        }
      }
    }
  }

  // A step leads from one state to the next: it is migrated, and with validation both
  // states fit the schemas of its versions.
  ghost predicate Passes<S>(b: Behaviour<S>, step: Step, state: S, next: S, ctx: Context, validate: bool) {
    && b.migrate(step, state, ctx) == Ok(next)
    && (validate ==>
          b.accepts(ctx.contractId, step.fromVersion, state) && b.accepts(ctx.contractId, step.toVersion, next))
  }

  // Why a step fails: its state is refused, it throws, or what it makes is refused.
  ghost predicate FailsWith<S>(b: Behaviour<S>, step: Step, state: S, ctx: Context, validate: bool, e: Thrown) {
    var made := b.migrate(step, state, ctx);
    || (validate && !b.accepts(ctx.contractId, step.fromVersion, state) && e.truthy)
    || ((validate ==> b.accepts(ctx.contractId, step.fromVersion, state)) && made == Err(e))
    || (made.Ok? && validate && !b.accepts(ctx.contractId, step.toVersion, made.value) && e.truthy)
  }

  // In these terms: the states a run passes through, and why it stops.
  lemma RunPasses<S>(b: Behaviour<S>, steps: seq<Step>, state: S, ctx: Context, validate: bool) returns (tr: seq<S>)
    ensures var f := Forward(b, steps, state, ctx, validate);
      && |tr| == f.completed + 1 && tr[0] == state && tr[f.completed] == f.state
      && (forall i :: 0 <= i < f.completed ==> Passes(b, steps[i], tr[i], tr[i + 1], ctx, validate))
      && (f.failure.Some? ==> FailsWith(b, steps[f.completed], f.state, ctx, validate, f.failure.value))
  {
    tr := ForwardFollowsTrace(b, steps, state, ctx, validate);
    var f := Forward(b, steps, state, ctx, validate);
    forall i | 0 <= i < f.completed
      ensures Passes(b, steps[i], tr[i], tr[i + 1], ctx, validate)
    {
      assert Attempt(b, steps[i], tr[i], ctx, validate) == Ok(tr[i + 1]);
    }
  }

  // ---------- Undoing ----------

  datatype Undone<S> = Undone(state: S, results: seq<StepResult>, clean: bool)

  // Undoes the steps from the last to the first. A step without rollback, or one
  // whose rollback throws, leaves the state as it is and spoils the outcome.
  function Undo<S>(b: Behaviour<S>, steps: seq<Step>, state: S, ctx: Context): Undone<S> {
    if steps == [] then Undone(state, [], true)
    else
      var n := |steps| - 1;
      if !b.hasRollback(steps[n]) then
        Undo(b, steps[..n], state, ctx).(clean := false)
      else
        match b.rollback(steps[n], state, ctx)
        case Ok(previous) =>
          var rest := Undo(b, steps[..n], previous, ctx);
          rest.(results := [BackResult(steps[n], true)] + rest.results)
        case Err(_) =>
          var rest := Undo(b, steps[..n], state, ctx);
          Undone(rest.state, [BackResult(steps[n], false)] + rest.results, false)
  }

  function BackResult(step: Step, succeeded: bool): StepResult {
    StepResult(step.id, step.toVersion, step.fromVersion, succeeded)
  }

  function ForwardResult(step: Step, succeeded: bool): StepResult {
    StepResult(step.id, step.fromVersion, step.toVersion, succeeded)
  }

  // The states of a rollback in which every step is undone, oldest first.
  ghost predicate BackTrace<S>(b: Behaviour<S>, steps: seq<Step>, ctx: Context, tr: seq<S>) {
    && |tr| == |steps| + 1
    && forall i :: 0 <= i < |steps| ==> b.hasRollback(steps[i]) && b.rollback(steps[i], tr[i + 1], ctx) == Ok(tr[i])
  }

  // A rollback is clean exactly when every step was undone in reverse order, and
  // then it ends in the oldest state of that sequence.
  lemma {:induction false} CleanUndo<S>(b: Behaviour<S>, steps: seq<Step>, state: S, ctx: Context, tr: seq<S>)
    requires BackTrace(b, steps, ctx, tr) && tr[|steps|] == state
    ensures Undo(b, steps, state, ctx).clean && Undo(b, steps, state, ctx).state == tr[0]
  {
    if steps != [] {
      var n := |steps| - 1;
      assert b.rollback(steps[n], tr[n + 1], ctx) == Ok(tr[n]);
      CleanUndo(b, steps[..n], tr[n], ctx, tr[..n + 1]);
    }
  }

  lemma {:induction false} CleanUndoHasTrace<S>(b: Behaviour<S>, steps: seq<Step>, state: S, ctx: Context)
    returns (tr: seq<S>)
    requires Undo(b, steps, state, ctx).clean
    ensures BackTrace(b, steps, ctx, tr) && tr[|steps|] == state
  {
    tr := [state];
    if steps != [] {
      var n := |steps| - 1;
      var before := CleanUndoHasTrace(b, steps[..n], b.rollback(steps[n], state, ctx).value, ctx);
      tr := before + [state];
    }
  }

  // The states of any rollback, oldest first: a rollback that returns leads to what it
  // returned, and a step without one, or with one that throws, leaves the state alone.
  ghost predicate UndoTrace<S>(b: Behaviour<S>, steps: seq<Step>, ctx: Context, tr: seq<S>) {
    && |tr| == |steps| + 1
    && forall i :: 0 <= i < |steps| ==>
         tr[i] == if Undoes(b, steps[i], tr[i + 1], ctx) then b.rollback(steps[i], tr[i + 1], ctx).value else tr[i + 1]
  }

  ghost predicate Undoes<S>(b: Behaviour<S>, step: Step, state: S, ctx: Context) {
    b.hasRollback(step) && b.rollback(step, state, ctx).Ok?
  }

  // The indices of the steps that have a rollback, the last one first.
  ghost predicate Reversible<S>(b: Behaviour<S>, steps: seq<Step>, indices: seq<nat>) {
    && (forall j, k :: 0 <= j < k < |indices| ==> indices[j] > indices[k])
    && (forall i :: i in indices <==> 0 <= i < |steps| && b.hasRollback(steps[i]))
  }

  // The report of a rollback lists these steps in this order, each with its versions
  // exchanged and marked by whether its rollback returned.
  ghost function UndoMarks<S>(b: Behaviour<S>, steps: seq<Step>, ctx: Context, tr: seq<S>, indices: seq<nat>)
    : seq<StepResult>
    requires |tr| == |steps| + 1 && forall j :: 0 <= j < |indices| ==> indices[j] < |steps|
  {
    if indices == [] then []
    else
      [UndoMark(b, steps[indices[0]], tr[indices[0] + 1], ctx)] + UndoMarks(b, steps, ctx, tr, indices[1..])
  }

  ghost predicate UndoReported<S>(b: Behaviour<S>, steps: seq<Step>, ctx: Context, tr: seq<S>, indices: seq<nat>,
                                  results: seq<StepResult>)
    requires |tr| == |steps| + 1
  {
    && Reversible(b, steps, indices) && (forall j :: 0 <= j < |indices| ==> indices[j] < |steps|)
    && results == UndoMarks(b, steps, ctx, tr, indices)
  }

  ghost function UndoMark<S>(b: Behaviour<S>, step: Step, state: S, ctx: Context): StepResult {
    StepResult(step.id, step.toVersion, step.fromVersion, Undoes(b, step, state, ctx))
  }

  ghost predicate AllUndo<S>(b: Behaviour<S>, steps: seq<Step>, ctx: Context, tr: seq<S>)
    requires |tr| == |steps| + 1
  {
    forall i :: 0 <= i < |steps| ==> Undoes(b, steps[i], tr[i + 1], ctx)
  }

  // Every rollback, clean or not, goes through all steps.
  lemma {:induction false} UndoFollowsTrace<S>(b: Behaviour<S>, steps: seq<Step>, state: S, ctx: Context)
    returns (tr: seq<S>, indices: seq<nat>)
    ensures UndoTrace(b, steps, ctx, tr) && tr[|steps|] == state
    ensures var u := Undo(b, steps, state, ctx);
      && u.state == tr[0] && (u.clean <==> AllUndo(b, steps, ctx, tr))
      && UndoReported(b, steps, ctx, tr, indices, u.results)
  {
    tr, indices := [state], [];
    if steps != [] {
      var n := |steps| - 1;
      var previous := if Undoes(b, steps[n], state, ctx) then b.rollback(steps[n], state, ctx).value else state;
      var before, earlier := UndoFollowsTrace(b, steps[..n], previous, ctx);
      tr := before + [state];
      OneMoreState(b, steps, ctx, before, state);
      indices := if b.hasRollback(steps[n]) then [n] + earlier else earlier;
      OneMoreResult(b, steps, ctx, before, state, earlier, Undo(b, steps[..n], previous, ctx).results);
    }
  }

  lemma OneMoreState<S>(b: Behaviour<S>, steps: seq<Step>, ctx: Context, before: seq<S>, state: S)
    requires steps != [] && UndoTrace(b, steps[..|steps| - 1], ctx, before)
    requires before[|steps| - 1] == if Undoes(b, steps[|steps| - 1], state, ctx)
                                    then b.rollback(steps[|steps| - 1], state, ctx).value else state
    ensures UndoTrace(b, steps, ctx, before + [state])
    ensures AllUndo(b, steps, ctx, before + [state]) <==>
            Undoes(b, steps[|steps| - 1], state, ctx) && AllUndo(b, steps[..|steps| - 1], ctx, before)
  {
    var n, tr := |steps| - 1, before + [state];
    assert forall i :: 0 <= i < |before| ==> tr[i] == before[i];
    if AllUndo(b, steps, ctx, tr) {
      forall i | 0 <= i < n
        ensures Undoes(b, steps[..n][i], before[i + 1], ctx)
      {
        assert Undoes(b, steps[i], tr[i + 1], ctx);
      }
      assert Undoes(b, steps[n], tr[n + 1], ctx);
    }
  }

  lemma OneMoreResult<S>(b: Behaviour<S>, steps: seq<Step>, ctx: Context, before: seq<S>, state: S,
                         earlier: seq<nat>, results: seq<StepResult>)
    requires steps != [] && |before| == |steps|
    requires UndoReported(b, steps[..|steps| - 1], ctx, before, earlier, results)
    ensures var n := |steps| - 1;
      if b.hasRollback(steps[n]) then
        UndoReported(b, steps, ctx, before + [state], [n] + earlier,
                     [BackResult(steps[n], Undoes(b, steps[n], state, ctx))] + results)
      else UndoReported(b, steps, ctx, before + [state], earlier, results)
  {
    var n := |steps| - 1;
    OneMoreIndex(b, steps, earlier);
    SameMarks(b, steps, ctx, before, state, earlier);
    assert ([n] + earlier)[1..] == earlier;
  }

  lemma {:induction false} SameMarks<S>(b: Behaviour<S>, steps: seq<Step>, ctx: Context, before: seq<S>, state: S,
                                        indices: seq<nat>)
    requires steps != [] && |before| == |steps|
    requires forall j :: 0 <= j < |indices| ==> indices[j] < |steps| - 1
    ensures UndoMarks(b, steps, ctx, before + [state], indices)
            == UndoMarks(b, steps[..|steps| - 1], ctx, before, indices)
  {
    if indices != [] {
      SameMarks(b, steps, ctx, before, state, indices[1..]);
    }
  }

  lemma OneMoreIndex<S>(b: Behaviour<S>, steps: seq<Step>, earlier: seq<nat>)
    requires steps != [] && Reversible(b, steps[..|steps| - 1], earlier)
    ensures var n := |steps| - 1;
      Reversible(b, steps, if b.hasRollback(steps[n]) then [n] + earlier else earlier)
  {
    var n := |steps| - 1;
    assert forall j :: 0 <= j < |earlier| ==> earlier[j] in earlier;
    assert forall i :: 0 <= i < n ==> steps[..n][i] == steps[i];
    assert forall i :: i in [n] + earlier <==> i == n || i in earlier;
  }

  method Rollback<S>(b: Behaviour<S>, completedSteps: seq<Step>, state: S, ctx: Context)
    returns (current: S, results: seq<StepResult>, allRolledBack: bool)
    ensures var u := Undo(b, completedSteps, state, ctx);
      current == u.state && results == u.results && allRolledBack == (|completedSteps| > 0 && u.clean)
  {
    current, results := state, [];
    allRolledBack := |completedSteps| > 0;
    var k := |completedSteps|;
    ghost var clean := true;
    assert completedSteps[..k] == completedSteps;
    while k > 0
      invariant 0 <= k <= |completedSteps|
      invariant allRolledBack == (|completedSteps| > 0 && clean)
      invariant Undo(b, completedSteps, state, ctx) == After(results, clean, Undo(b, completedSteps[..k], current, ctx))
    {
      k := k - 1;
      var step := completedSteps[k];
      assert completedSteps[..k + 1][..k] == completedSteps[..k];
      if !b.hasRollback(step) {
        allRolledBack, clean := false, false;
        continue;
      }
      var outcome := b.rollback(step, current, ctx);
      if outcome.Ok? {
        current := outcome.value;
      } else {
        allRolledBack, clean := false, false;
      }
      ghost var rest := Undo(b, completedSteps[..k], current, ctx);
      AfterOne(results, BackResult(step, outcome.Ok?), rest);
      results := results + [BackResult(step, outcome.Ok?)];
    }
  }

  // The outcome of a rollback that has results so far and continues as u.
  function After<S>(results: seq<StepResult>, clean: bool, u: Undone<S>): Undone<S> {
    Undone(u.state, results + u.results, clean && u.clean)
  }

  lemma AfterOne<S>(results: seq<StepResult>, one: StepResult, u: Undone<S>)
    ensures results + ([one] + u.results) == (results + [one]) + u.results
  {
  }

  // ---------- The run ----------

  ghost predicate Reported(f: Forwarded, steps: seq<Step>, report: Report) {
    && f.completed <= |steps| == report.totalSteps
    && report.succeededSteps == f.completed
    && report.failedSteps == (if f.failure.Some? then 1 else 0)
    && |report.steps| == report.succeededSteps + report.failedSteps
    && forall i :: 0 <= i < |report.steps| && i < |steps| ==>
         report.steps[i] == StepResult(steps[i].id, steps[i].fromVersion, steps[i].toVersion, i < f.completed)
  }

  function CountSucceeded(results: seq<StepResult>): nat {
    if results == [] then 0
    else CountSucceeded(results[..|results| - 1]) + if results[|results| - 1].succeeded then 1 else 0
  }

  lemma {:induction false} CountIsPrefix(results: seq<StepResult>, n: nat)
    requires n <= |results| && forall i :: 0 <= i < |results| ==> (results[i].succeeded <==> i < n)
    ensures CountSucceeded(results) == n
  {
    if results != [] {
      var last := |results| - 1;
      CountIsPrefix(results[..last], if n > last then last else n);
    }
  }

  function StatusOf<S>(b: Behaviour<S>, plan: Plan, f: Forwarded<S>, options: Options): Status
    requires f.completed <= |plan.steps|
  {
    if f.failure.None? || !f.failure.value.truthy then Completed
    else if RollsBack(f, options) && f.completed > 0
            && Undo(b, plan.steps[..f.completed], f.state, Context(plan.contractId, options.dryRun)).clean
      then RolledBack
    else Failed
  }

  predicate RollsBack<S>(f: Forwarded<S>, options: Options) {
    f.failure.Some? && f.failure.value.truthy && options.rollbackOnFailure && !options.dryRun
  }

  // The forward loop of the run.
  method RunForward<S>(b: Behaviour<S>, steps: seq<Step>, initialState: S, ctx: Context, validate: bool)
    returns (stepResults: seq<StepResult>, completedSteps: seq<Step>, state: S, failure: Option<Thrown>)
    ensures var f := Forward(b, steps, initialState, ctx, validate);
      && state == f.state && failure == f.failure && completedSteps == steps[..f.completed]
      && |stepResults| == f.completed + (if f.failure.Some? then 1 else 0)
      && forall i :: 0 <= i < |stepResults| && i < |steps| ==>
           stepResults[i] == ForwardResult(steps[i], i < f.completed)
  {
    stepResults, completedSteps, state, failure := [], [], initialState, None;
    assert steps[0..] == steps;
    for k := 0 to |steps|
      invariant failure.None?
      invariant completedSteps == steps[..k] && |stepResults| == k
      invariant forall i :: 0 <= i < k ==> stepResults[i] == ForwardResult(steps[i], true)
      invariant Forward(b, steps, initialState, ctx, validate) == Later(k, Forward(b, steps[k..], state, ctx, validate))
    {
      var step := steps[k];
      assert steps[k..][1..] == steps[k + 1..];
      var outcome := Attempt(b, step, state, ctx, validate);
      if outcome.Err? {
        stepResults := stepResults + [ForwardResult(step, false)];
        failure := Some(outcome.error);
        return;
      }
      state := outcome.value;
      completedSteps := completedSteps + [step];
      stepResults := stepResults + [ForwardResult(step, true)];
    }
  }

  function Later<S>(k: nat, f: Forwarded<S>): Forwarded<S> {
    f.(completed := f.completed + k)
  }

  // The state a run returns, its status and the report of its rollback.
  ghost function Returned<S>(b: Behaviour<S>, plan: Plan, initialState: S, options: Options): S {
    var ctx := Context(plan.contractId, options.dryRun);
    var f := Forward(b, plan.steps, initialState, ctx, options.validateState);
    if options.dryRun then initialState
    else if RollsBack(f, options) then Undo(b, plan.steps[..f.completed], f.state, ctx).state
    else f.state
  }

  ghost function FinalStatus<S>(b: Behaviour<S>, plan: Plan, initialState: S, options: Options): Status {
    var ctx := Context(plan.contractId, options.dryRun);
    StatusOf(b, plan, Forward(b, plan.steps, initialState, ctx, options.validateState), options)
  }

  ghost function RollbackReport<S>(b: Behaviour<S>, plan: Plan, initialState: S, options: Options)
    : Option<seq<StepResult>>
  {
    var ctx := Context(plan.contractId, options.dryRun);
    var f := Forward(b, plan.steps, initialState, ctx, options.validateState);
    if RollsBack(f, options) then Some(Undo(b, plan.steps[..f.completed], f.state, ctx).results) else None
  }

  method Run<S>(b: Behaviour<S>, plan: Plan, initialState: S, options: Options)
    returns (returned: S, report: Report)
    ensures
      var ctx := Context(plan.contractId, options.dryRun);
      var f := Forward(b, plan.steps, initialState, ctx, options.validateState);
      && Reported(f, plan.steps, report)
      && report.dryRun == options.dryRun
      && report.status == FinalStatus(b, plan, initialState, options)
      && report.rollbackSteps == RollbackReport(b, plan, initialState, options)
      && returned == Returned(b, plan, initialState, options)
  {
    var ctx := Context(plan.contractId, options.dryRun);
    var stepResults, completedSteps, state, failure :=
      RunForward(b, plan.steps, initialState, ctx, options.validateState);
    var failed := failure.Some? && failure.value.truthy;
    var status := if failed then Failed else Completed;
    var rollbackSteps: Option<seq<StepResult>> := None;
    if failed && options.rollbackOnFailure && !options.dryRun {
      var current, results, allRolledBack := Rollback(b, completedSteps, state, ctx);
      state := current;
      rollbackSteps := Some(results);
      if allRolledBack {
        status := RolledBack;
      }
    }
    var succeeded := CountSucceeded(stepResults);
    CountIsPrefix(stepResults, |completedSteps|);
    report := Report(status, options.dryRun, |plan.steps|, succeeded, |stepResults| - succeeded,
                     stepResults, rollbackSteps);
    returned := if options.dryRun then initialState else state;
  }

  // ---------- What a run guarantees ----------

  // What COMPLETED is meant to say.
  ghost predicate CompletedMeansSucceeded<S>(b: Behaviour<S>, plan: Plan, initialState: S, options: Options) {
    FinalStatus(b, plan, initialState, options) == Completed ==>
      Forward(b, plan.steps, initialState, Context(plan.contractId, options.dryRun), options.validateState).completed
      == |plan.steps|
  }

  // What a step throws when it is migrated, if it throws, is truthy.
  ghost predicate ThrowsTruthy<S>(b: Behaviour<S>, step: Step, state: S, ctx: Context) {
    b.migrate(step, state, ctx).Err? ==> b.migrate(step, state, ctx).error.truthy
  }

  // For all plans of a contract, initial states and options, COMPLETED says that
  // every step succeeded exactly when the contract's steps throw truthy values only.
  lemma CompletedMeansSucceededIff<S(!new)>(b: Behaviour<S>, contractId: string)
    ensures (forall plan: Plan, state, options :: plan.contractId == contractId ==>
              CompletedMeansSucceeded(b, plan, state, options))
            <==> (forall step, state, dryRun :: ThrowsTruthy(b, step, state, Context(contractId, dryRun)))
  {
    if forall step, state, dryRun :: ThrowsTruthy(b, step, state, Context(contractId, dryRun)) {
      forall plan: Plan, state, options | plan.contractId == contractId
        ensures CompletedMeansSucceeded(b, plan, state, options)
      {
        FailsTruthy(b, plan.steps, state, Context(contractId, options.dryRun), options.validateState);
      }
    }
    if forall plan: Plan, state, options ::
         plan.contractId == contractId ==> CompletedMeansSucceeded(b, plan, state, options) {
      forall step, state, dryRun
        ensures ThrowsTruthy(b, step, state, Context(contractId, dryRun))
      {
        var plan := Plan(contractId, step.fromVersion, step.toVersion, [step]);
        assert CompletedMeansSucceeded(b, plan, state, Options(dryRun, false, false));
      }
    }
  }

  lemma FailsTruthy<S(!new)>(b: Behaviour<S>, steps: seq<Step>, state: S, ctx: Context, validate: bool)
    requires forall step, s :: ThrowsTruthy(b, step, s, ctx)
    ensures var f := Forward(b, steps, state, ctx, validate); f.failure.Some? ==> f.failure.value.truthy
  {
    var f := Forward(b, steps, state, ctx, validate);
    var tr := ForwardFollowsTrace(b, steps, state, ctx, validate);
    if f.failure.Some? {
      assert ThrowsTruthy(b, steps[f.completed], f.state, ctx);
    }
  }

  // With validation and steps that throw truthy values only, a COMPLETED run ends in
  // a state that the target version's schema accepts.
  lemma CompletedStateFitsTarget<S(!new)>(b: Behaviour<S>, steps: seq<Step>, plan: Plan,
                                 initialState: S, options: Options)
    requires Chain(steps, plan.steps, plan.fromVersion, plan.toVersion) && plan.steps != []
    requires options.validateState && !options.dryRun
    requires forall step, s :: ThrowsTruthy(b, step, s, Context(plan.contractId, false))
    requires FinalStatus(b, plan, initialState, options) == Completed
    ensures b.accepts(plan.contractId, plan.toVersion, Returned(b, plan, initialState, options))
  {
    var ctx := Context(plan.contractId, false);
    FailsTruthy(b, plan.steps, initialState, ctx, true);
    var tr := ForwardFollowsTrace(b, plan.steps, initialState, ctx, true);
    var n := |plan.steps|;
    assert Attempt(b, plan.steps[n - 1], tr[n - 1], ctx, true) == Ok(tr[n]);
  }

  // A step that throws a falsy value fails and is reported, yet the run is
  // COMPLETED and no rollback happens.
  lemma FalsyThrowExample()
    ensures
      var b := Behaviour((_, s: int, _) => Err(Thrown(false)), _ => true, (_, s: int, _) => Ok(s), (_, _, _) => true);
      var plan := Plan("Vault", "v1", "v2", [Step("vault-v1-to-v2", "v1", "v2")]);
      var options := Options(false, true, true);
      && Forward(b, plan.steps, 0, Context("Vault", false), true).completed == 0
      && FinalStatus(b, plan, 0, options) == Completed
  {
  }

  // ROLLED_BACK means that something was completed, that every completed step was
  // undone successfully in reverse order, and that the state returned is where this ended.
  lemma RolledBackIff<S>(b: Behaviour<S>, plan: Plan, initialState: S, options: Options)
    ensures
      var ctx := Context(plan.contractId, options.dryRun);
      var f := Forward(b, plan.steps, initialState, ctx, options.validateState);
      FinalStatus(b, plan, initialState, options) == RolledBack <==>
        && options.rollbackOnFailure && !options.dryRun && f.failure == Some(Thrown(true)) && f.completed > 0
        && exists tr :: BackTrace(b, plan.steps[..f.completed], ctx, tr) && tr[f.completed] == f.state
                        && tr[0] == Returned(b, plan, initialState, options)
  {
    var ctx := Context(plan.contractId, options.dryRun);
    var f := Forward(b, plan.steps, initialState, ctx, options.validateState);
    var undone := plan.steps[..f.completed];
    if Undo(b, undone, f.state, ctx).clean {
      var tr := CleanUndoHasTrace(b, undone, f.state, ctx);
      CleanUndo(b, undone, f.state, ctx, tr);
    }
    forall tr | BackTrace(b, undone, ctx, tr) && tr[f.completed] == f.state
      ensures Undo(b, undone, f.state, ctx).clean
    {
      CleanUndo(b, undone, f.state, ctx, tr);
    }
  }

  // COMPLETED means that all steps passed, or that the one that failed threw a falsy
  // value.
  lemma CompletedIff<S>(b: Behaviour<S>, plan: Plan, initialState: S, options: Options) returns (tr: seq<S>)
    ensures
      var ctx := Context(plan.contractId, options.dryRun);
      var f := Forward(b, plan.steps, initialState, ctx, options.validateState);
      && |tr| == f.completed + 1 && tr[0] == initialState && tr[f.completed] == f.state
      && (forall i :: 0 <= i < f.completed ==> Passes(b, plan.steps[i], tr[i], tr[i + 1], ctx, options.validateState))
      && (FinalStatus(b, plan, initialState, options) == Completed <==>
            f.completed == |plan.steps|
            || FailsWith(b, plan.steps[f.completed], f.state, ctx, options.validateState, Thrown(false)))
  {
    tr := RunPasses(b, plan.steps, initialState, Context(plan.contractId, options.dryRun), options.validateState);
  }

  // Any rollback of a run, clean or not: every completed step has its turn, from the
  // last to the first, and is reported if it has a rollback.
  lemma RollbackOfRun<S>(b: Behaviour<S>, plan: Plan, initialState: S, options: Options)
    returns (tr: seq<S>, indices: seq<nat>)
    requires options.rollbackOnFailure && !options.dryRun
    requires Forward(b, plan.steps, initialState, Context(plan.contractId, false), options.validateState).failure
             == Some(Thrown(true))
    ensures
      var ctx := Context(plan.contractId, false);
      var f := Forward(b, plan.steps, initialState, ctx, options.validateState);
      var completed := plan.steps[..f.completed];
      && UndoTrace(b, completed, ctx, tr) && tr[f.completed] == f.state
      && Returned(b, plan, initialState, options) == tr[0]
      && RollbackReport(b, plan, initialState, options).Some?
      && UndoReported(b, completed, ctx, tr, indices, RollbackReport(b, plan, initialState, options).value)
      && FinalStatus(b, plan, initialState, options)
         == if completed != [] && AllUndo(b, completed, ctx, tr) then RolledBack else Failed
  {
    var ctx := Context(plan.contractId, false);
    var f := Forward(b, plan.steps, initialState, ctx, options.validateState);
    tr, indices := UndoFollowsTrace(b, plan.steps[..f.completed], f.state, ctx);
  }

  // Otherwise nothing is rolled back, and a dry run hands back what it was given.
  lemma NoRollback<S>(b: Behaviour<S>, plan: Plan, initialState: S, options: Options)
    requires
      var f := Forward(b, plan.steps, initialState, Context(plan.contractId, options.dryRun), options.validateState);
      !options.rollbackOnFailure || options.dryRun || f.failure != Some(Thrown(true))
    ensures RollbackReport(b, plan, initialState, options) == None
    ensures FinalStatus(b, plan, initialState, options) != RolledBack
    ensures
      var f := Forward(b, plan.steps, initialState, Context(plan.contractId, options.dryRun), options.validateState);
      Returned(b, plan, initialState, options) == if options.dryRun then initialState else f.state
  {
  }

  // Undoing a step right after it succeeded gives back the state it started from.
  ghost predicate UndoesFrom<S>(b: Behaviour<S>, step: Step, state: S, ctx: Context, validate: bool) {
    Attempt(b, step, state, ctx, validate).Ok? ==>
      b.hasRollback(step) && b.rollback(step, Attempt(b, step, state, ctx, validate).value, ctx) == Ok(state)
  }

  // The state before the given step of a run.
  function StateBefore<S>(b: Behaviour<S>, steps: seq<Step>, initialState: S, ctx: Context, validate: bool, i: nat): S
    requires i <= |steps|
  {
    Forward(b, steps[..i], initialState, ctx, validate).state
  }

  lemma {:induction false} TraceIsStatesBefore<S>(b: Behaviour<S>, steps: seq<Step>, ctx: Context, validate: bool,
                                                  tr: seq<S>,
                                                  i: nat)
    requires Trace(b, steps, ctx, validate, tr) && i < |tr|
    ensures StateBefore(b, steps, tr[0], ctx, validate, i) == tr[i]
  {
    if i > 0 {
      assert steps[..i][1..] == steps[1..][..i - 1];
      assert Attempt(b, steps[0], tr[0], ctx, validate) == Ok(tr[1]);
      assert Trace(b, steps[1..], ctx, validate, tr[1..]) by {
        forall j | 0 <= j < |tr[1..]| - 1
          ensures Attempt(b, steps[1..][j], tr[1..][j], ctx, validate) == Ok(tr[1..][j + 1])
        {
          assert Attempt(b, steps[j + 1], tr[j + 1], ctx, validate) == Ok(tr[j + 2]);
        }
      }
      TraceIsStatesBefore(b, steps[1..], ctx, validate, tr[1..], i - 1);
    }
  }

  // When the steps a failing run completed, at least one, can each be undone from
  // the state the run reached it in, rolling back restores the initial state.
  lemma RollbackRestoresInitialState<S>(b: Behaviour<S>, plan: Plan, initialState: S, options: Options)
    requires options.rollbackOnFailure && !options.dryRun
    requires
      var ctx := Context(plan.contractId, false);
      var f := Forward(b, plan.steps, initialState, ctx, options.validateState);
      && f.failure.Some? && f.failure.value.truthy && f.completed > 0
      && forall i :: 0 <= i < f.completed ==>
           UndoesFrom(b, plan.steps[i], StateBefore(b, plan.steps, initialState, ctx, options.validateState, i), ctx,
                      options.validateState)
    ensures FinalStatus(b, plan, initialState, options) == RolledBack
    ensures Returned(b, plan, initialState, options) == initialState
  {
    var ctx := Context(plan.contractId, false);
    var f := Forward(b, plan.steps, initialState, ctx, options.validateState);
    var tr := ForwardFollowsTrace(b, plan.steps, initialState, ctx, options.validateState);
    forall i | 0 <= i < f.completed
      ensures b.hasRollback(plan.steps[i]) && b.rollback(plan.steps[i], tr[i + 1], ctx) == Ok(tr[i])
    {
      assert Attempt(b, plan.steps[i], tr[i], ctx, options.validateState) == Ok(tr[i + 1]);
      TraceIsStatesBefore(b, plan.steps, ctx, options.validateState, tr, i);
      assert UndoesFrom(b, plan.steps[i], tr[i], ctx, options.validateState);
    }
    CleanUndo(b, plan.steps[..f.completed], f.state, ctx, tr);
  }

  // A dry run returns the initial state, and its report foretells the real run's
  // forward steps when no step looks at the dry-run flag.
  lemma DryRunForetells<S(!new)>(b: Behaviour<S>, plan: Plan, initialState: S, options: Options)
    requires forall step, s ::
      b.migrate(step, s, Context(plan.contractId, true)) == b.migrate(step, s, Context(plan.contractId, false))
    ensures Returned(b, plan, initialState, options.(dryRun := true)) == initialState
    ensures Forward(b, plan.steps, initialState, Context(plan.contractId, true), options.validateState)
            == Forward(b, plan.steps, initialState, Context(plan.contractId, false), options.validateState)
  {
    DryForward(b, plan.steps, initialState, plan.contractId, options.validateState);
  }

  lemma {:induction false} DryForward<S(!new)>(b: Behaviour<S>, steps: seq<Step>, state: S,
                                               contractId: string, validate: bool)
    requires forall step, s ::
      b.migrate(step, s, Context(contractId, true)) == b.migrate(step, s, Context(contractId, false))
    ensures Forward(b, steps, state, Context(contractId, true), validate)
            == Forward(b, steps, state, Context(contractId, false), validate)
  {
    if steps != [] {
      var a := Attempt(b, steps[0], state, Context(contractId, true), validate);
      assert a == Attempt(b, steps[0], state, Context(contractId, false), validate);
      if a.Ok? {
        DryForward(b, steps[1..], a.value, contractId, validate);
      }
    }
  }
}
