// src/batch/batchExecutor.ts: sequential execution of a validated batch with
// dependency gating and the stop-on-failure policy.
module BatchExecutor {
  import opened Wrappers
  import opened Graphs
  import opened OrderedSets
  import opened BatchValidator

  // Why a transaction did not succeed is part of its outcome.
  datatype Outcome =
    | Succeeded
    | Rejected
    | DependencyNotMet(unmet: seq<int>)
    | Skipped

  datatype Entry = Entry(index: nat, outcome: Outcome)

  datatype BatchResult = BatchResult(
    totalCount: nat,
    successCount: nat,
    failureCount: nat,
    skippedCount: nat,
    transactions: seq<Entry>,
    allSucceeded: bool,
    skippedIndices: seq<nat>)

  function CountSuccesses(results: seq<Entry>): nat {
    if results == [] then 0
    else
      var n := |results| - 1;
      CountSuccesses(results[..n]) + if results[n].outcome.Succeeded? then 1 else 0
  }

  // Failures are the unsuccessful entries whose index was not skipped.
  function CountFailures(results: seq<Entry>, skipped: seq<nat>): nat {
    if results == [] then 0
    else
      var n := |results| - 1;
      CountFailures(results[..n], skipped)
      + if !results[n].outcome.Succeeded? && results[n].index !in skipped then 1 else 0
  }

  function Unmet(deps: seq<int>, completed: set<int>): (r: seq<int>)
    ensures forall d :: d in r <==> d in deps && d !in completed
  {
    if deps == [] then []
    else if deps[0] in completed then Unmet(deps[1..], completed)
    else [deps[0]] + Unmet(deps[1..], completed)
  }

  // The transactions that should succeed: the network accepts them and all they
  // depend on succeeds.
  ghost predicate Succeeds(txs: seq<Transaction>, accepts: nat -> bool, i: nat)
    requires DependenciesPrecede(txs) && i < |txs|
  {
    accepts(i) && forall d :: d in txs[i].dependencies ==> Succeeds(txs, accepts, d)
  }

  ghost function SucceedingBelow(txs: seq<Transaction>, accepts: nat -> bool, n: nat): set<int>
    requires DependenciesPrecede(txs) && n <= |txs|
  {
    set i | 0 <= i < n && Succeeds(txs, accepts, i)
  }

  // The outcome when failures do not stop the batch.
  ghost function OutcomeOf(txs: seq<Transaction>, accepts: nat -> bool, i: nat): Outcome
    requires DependenciesPrecede(txs) && i < |txs|
  {
    var unmet := Unmet(txs[i].dependencies, SucceedingBelow(txs, accepts, i));
    if unmet != [] then DependencyNotMet(unmet)
    else if accepts(i) then Succeeded
    else Rejected
  }

  // The outcome when the first failure, at index k, stops the batch.
  function OutcomeStoppingAt(k: nat, i: nat): Outcome {
    if i < k then Succeeded else if i == k then Rejected else Skipped
  }

  ghost predicate FirstRejected(accepts: nat -> bool, n: nat, k: nat) {
    k <= n && (forall i: nat :: i < k ==> accepts(i)) && (k < n ==> !accepts(k))
  }

  ghost function SuccessSet(results: seq<Entry>): set<nat> {
    set i: nat | i < |results| && results[i].outcome.Succeeded?
  }

  ghost predicate Tallied(r: BatchResult, n: nat) {
    && r.totalCount == n == |r.transactions|
    && (forall i :: 0 <= i < n ==> r.transactions[i].index == i)
    && r.successCount == |SuccessSet(r.transactions)|
    && r.skippedCount == |r.skippedIndices|
    && (forall i :: i in r.skippedIndices <==> 0 <= i < n && r.transactions[i].outcome.Skipped?)
    && r.successCount + r.failureCount + r.skippedCount == n
    && (r.allSucceeded <==> forall i :: 0 <= i < n ==> r.transactions[i].outcome.Succeeded?)
  }

  // accepts(i) is what simulating transaction i answers. The batch is refused
  // exactly when validation finds an issue. Only an explicit true stops at the
  // first failure; otherwise a transaction succeeds exactly when it and
  // everything it transitively depends on is accepted.
  method Execute(txs: seq<Transaction>, config: Config, accepts: nat -> bool)
    returns (r: Result<BatchResult, seq<Issue>>)
    ensures r.Ok? <==> WellFormedBatch(txs, config)
    ensures r.Err? ==> r.error != [] && forall x :: x in r.error <==> IsIssue(txs, config, x)
    ensures r.Ok? ==> Tallied(r.value, |txs|)
    ensures r.Ok? && config.stopOnFailure == Some(true) ==>
      exists k :: FirstRejected(accepts, |txs|, k) &&
        forall i :: 0 <= i < |txs| ==> r.value.transactions[i].outcome == OutcomeStoppingAt(k, i)
    ensures r.Ok? && config.stopOnFailure != Some(true) ==>
      forall i :: 0 <= i < |txs| ==> r.value.transactions[i].outcome == OutcomeOf(txs, accepts, i)
  {
    var valid, issues := Validate(txs, config);
    if !valid {
      return Err(issues);
    }
    var results, skippedIndices, k := RunInOrder(txs, config.stopOnFailure == Some(true), accepts);
    var successCount := CountSuccesses(results);
    var failureCount := CountFailures(results, skippedIndices);
    assert skippedIndices[..|skippedIndices|] == skippedIndices;
    TallyAddsUp(results, skippedIndices, |skippedIndices|);
    CountIsCardinality(results);
    AllCounted(results);
    r := Ok(BatchResult(|txs|, successCount, failureCount, |skippedIndices|, results,
                        successCount == |txs|, skippedIndices));
  }

  // A stopping run after i transactions: all successes, unless it stopped at k.
  ghost predicate StoppingInv(results: seq<Entry>, completed: set<int>, accepts: nat -> bool, k: nat, n: nat) {
    && |results| <= n && k <= n
    && (forall j :: 0 <= j < |results| ==> results[j] == Entry(j, OutcomeStoppingAt(k, j)))
    && (if k == n then forall j :: 0 <= j < |results| ==> j in completed && accepts(j)
        else k < |results| && FirstRejected(accepts, n, k))
  }

  ghost predicate ContinuingInv(results: seq<Entry>, completed: set<int>, txs: seq<Transaction>, accepts: nat -> bool)
    requires DependenciesPrecede(txs)
  {
    && |results| <= |txs|
    && completed == SucceedingBelow(txs, accepts, |results|)
    && forall j :: 0 <= j < |results| ==> results[j] == Entry(j, OutcomeOf(txs, accepts, j))
  }

  // Between two transactions: what either policy has done so far.
  ghost predicate RunInv(txs: seq<Transaction>, stop: bool, accepts: nat -> bool, results: seq<Entry>,
                         skipped: seq<nat>, completed: set<int>, k: nat)
    requires DependenciesPrecede(txs)
  {
    && SkipsRecorded(results, skipped)
    && (stop ==> StoppingInv(results, completed, accepts, k, |txs|))
    && (!stop ==> ContinuingInv(results, completed, txs, accepts))
  }

  // k is the index at which a stopping run stops.
  method RunInOrder(txs: seq<Transaction>, stop: bool, accepts: nat -> bool)
    returns (results: seq<Entry>, skippedIndices: seq<nat>, ghost k: nat)
    requires DependenciesPrecede(txs)
    ensures |results| == |txs| && forall j :: 0 <= j < |txs| ==> results[j].index == j
    ensures SkipsRecorded(results, skippedIndices)
    ensures stop ==> FirstRejected(accepts, |txs|, k)
    ensures stop ==> forall j :: 0 <= j < |txs| ==> results[j].outcome == OutcomeStoppingAt(k, j)
    ensures !stop ==> forall j :: 0 <= j < |txs| ==> results[j].outcome == OutcomeOf(txs, accepts, j)
  {
    results, skippedIndices, k := [], [], |txs|;
    var completed: set<int> := {};
    for i := 0 to |txs|
      invariant |results| == i
      invariant RunInv(txs, stop, accepts, results, skippedIndices, completed, k)
    {
      results, skippedIndices, completed, k :=
        RunOne(txs, stop, accepts, i, results, skippedIndices, completed, k);
    }
  }

  // One turn of the loop.
  method RunOne(txs: seq<Transaction>, stop: bool, accepts: nat -> bool, i: nat, results: seq<Entry>,
                skippedIndices: seq<nat>, completed: set<int>, ghost k: nat)
    returns (results': seq<Entry>, skippedIndices': seq<nat>, completed': set<int>, ghost k': nat)
    requires DependenciesPrecede(txs) && i == |results| < |txs|
    requires RunInv(txs, stop, accepts, results, skippedIndices, completed, k)
    ensures |results'| == i + 1
    ensures RunInv(txs, stop, accepts, results', skippedIndices', completed', k')
  {
    skippedIndices', completed', k' := skippedIndices, completed, k;
    if stop {
      StoppedIffFailed(results, completed, accepts, k, |txs|);
    }
    if stop && exists e :: e in results && !e.outcome.Succeeded? {
      SkipStep(results, completed, accepts, k, |txs|);
      skippedIndices' := skippedIndices + [i];
      results' := results + [Entry(i, Skipped)];
      SkipsSnoc(results, skippedIndices, Entry(i, Skipped));
      return;
    }
    var outcome: Outcome;
    outcome, completed' := Attempt(txs, stop, accepts, i, completed);
    if stop {
      StoppingStep(results, completed, accepts, |txs|);
      k' := if accepts(i) then k else i;
    } else {
      ContinuingStep(results, completed, txs, accepts);
    }
    results' := results + [Entry(i, outcome)];
    SkipsSnoc(results, skippedIndices, Entry(i, outcome));
  }

  // Checks the dependencies of transaction i and, when they are met, simulates it.
  method Attempt(txs: seq<Transaction>, ghost stop: bool, accepts: nat -> bool, i: nat, completed: set<int>)
    returns (outcome: Outcome, completed': set<int>)
    requires DependenciesPrecede(txs) && i < |txs|
    requires stop ==> forall j :: 0 <= j < i ==> j in completed
    requires !stop ==> completed == SucceedingBelow(txs, accepts, i)
    ensures outcome == if stop then (if accepts(i) then Succeeded else Rejected) else OutcomeOf(txs, accepts, i)
    ensures completed' == if outcome.Succeeded? then completed + {i} else completed
  {
    completed' := completed;
    var unmet := Unmet(txs[i].dependencies, completed);
    if stop {
      UnmetIsEmptyIff(txs[i].dependencies, completed);
    }
    if |unmet| > 0 {
      return DependencyNotMet(unmet), completed;
    }
    if accepts(i) {
      outcome := Succeeded;
      completed' := completed + {i};
    } else {
      outcome := Rejected;
    }
  }

  lemma StoppedIffFailed(results: seq<Entry>, completed: set<int>, accepts: nat -> bool, k: nat, n: nat)
    requires StoppingInv(results, completed, accepts, k, n)
    ensures k < n <==> exists e :: e in results && !e.outcome.Succeeded?
  {
    if k < n {
      assert results[k] in results;
    }
  }

  lemma SkipStep(results: seq<Entry>, completed: set<int>, accepts: nat -> bool, k: nat, n: nat)
    requires StoppingInv(results, completed, accepts, k, n) && k < n && |results| < n
    ensures StoppingInv(results + [Entry(|results|, Skipped)], completed, accepts, k, n)
  {
  }

  lemma StoppingStep(results: seq<Entry>, completed: set<int>, accepts: nat -> bool, n: nat)
    requires StoppingInv(results, completed, accepts, n, n) && |results| < n
    ensures var i := |results|;
      if accepts(i) then StoppingInv(results + [Entry(i, Succeeded)], completed + {i}, accepts, n, n)
      else StoppingInv(results + [Entry(i, Rejected)], completed, accepts, i, n)
  {
  }

  lemma ContinuingStep(results: seq<Entry>, completed: set<int>, txs: seq<Transaction>, accepts: nat -> bool)
    requires DependenciesPrecede(txs) && ContinuingInv(results, completed, txs, accepts) && |results| < |txs|
    ensures var i := |results|;
      var outcome := OutcomeOf(txs, accepts, i);
      ContinuingInv(results + [Entry(i, outcome)],
                    if outcome.Succeeded? then completed + {i} else completed, txs, accepts)
  {
    SucceedingGrows(txs, accepts, |results|);
  }

  lemma SkipsSnoc(results: seq<Entry>, skipped: seq<nat>, e: Entry)
    requires SkipsRecorded(results, skipped)
    ensures SkipsRecorded(results + [e], if e.outcome.Skipped? then skipped + [|results|] else skipped)
  {
  }

  lemma UnmetIsEmptyIff(deps: seq<int>, completed: set<int>)
    ensures Unmet(deps, completed) == [] <==> forall d :: d in deps ==> d in completed
  {
    if deps != [] {
      assert deps[0] in deps;
      UnmetIsEmptyIff(deps[1..], completed);
      assert forall d :: d in deps <==> d == deps[0] || d in deps[1..];
    }
  }

  ghost predicate SucceedingStep(txs: seq<Transaction>, accepts: nat -> bool, i: nat, unmet: seq<int>)
    requires DependenciesPrecede(txs) && i < |txs|
  {
    && unmet == Unmet(txs[i].dependencies, SucceedingBelow(txs, accepts, i))
    && SucceedingBelow(txs, accepts, i + 1) ==
       SucceedingBelow(txs, accepts, i) + if unmet == [] && accepts(i) then {i} else {}
  }

  lemma SucceedingGrows(txs: seq<Transaction>, accepts: nat -> bool, i: nat)
    requires DependenciesPrecede(txs) && i < |txs|
    ensures SucceedingStep(txs, accepts, i, Unmet(txs[i].dependencies, SucceedingBelow(txs, accepts, i)))
  {
    UnmetIffSomeFails(txs, accepts, i);
  }

  lemma UnmetIffSomeFails(txs: seq<Transaction>, accepts: nat -> bool, i: nat)
    requires DependenciesPrecede(txs) && i < |txs|
    ensures Unmet(txs[i].dependencies, SucceedingBelow(txs, accepts, i)) == [] <==>
            forall d :: d in txs[i].dependencies ==> Succeeds(txs, accepts, d)
  {
    UnmetIsEmptyIff(txs[i].dependencies, SucceedingBelow(txs, accepts, i));
  }

  ghost predicate SkipsRecorded(results: seq<Entry>, skipped: seq<nat>) {
    && (forall j, l :: 0 <= j < l < |skipped| ==> skipped[j] < skipped[l])
    && (forall j :: 0 <= j < |skipped| ==> skipped[j] < |results|)
    && (forall i :: i in skipped <==> 0 <= i < |results| && results[i].outcome.Skipped?)
  }

  lemma {:induction false} CountIsCardinality(results: seq<Entry>)
    ensures CountSuccesses(results) == |SuccessSet(results)|
  {
    if results != [] {
      var n: nat := |results| - 1;
      CountIsCardinality(results[..n]);
      if results[n].outcome.Succeeded? {
        assert SuccessSet(results) == SuccessSet(results[..n]) + {n};
      } else {
        assert SuccessSet(results) == SuccessSet(results[..n]);
      }
    }
  }

  lemma {:induction false} AllCounted(results: seq<Entry>)
    ensures CountSuccesses(results) <= |results|
    ensures CountSuccesses(results) == |results| <==> forall i :: 0 <= i < |results| ==> results[i].outcome.Succeeded?
  {
    if results != [] {
      AllCounted(results[..|results| - 1]);
    }
  }

  // The three counts of the report add up; m skips fall among the given results.
  lemma {:induction false} TallyAddsUp(results: seq<Entry>, skipped: seq<nat>, m: nat)
    requires forall i :: 0 <= i < |results| ==> results[i].index == i
    requires forall j, l :: 0 <= j < l < |skipped| ==> skipped[j] < skipped[l]
    requires m <= |skipped| && (m > 0 ==> skipped[m - 1] < |results|)
    requires forall i :: 0 <= i < |results| ==> (results[i].outcome.Skipped? <==> i in skipped[..m])
    requires forall i :: 0 <= i < |results| ==> (results[i].outcome.Skipped? <==> i in skipped)
    ensures CountSuccesses(results) + CountFailures(results, skipped) + m == |results|
  {
    if results != [] {
      var n := |results| - 1;
      if results[n].outcome.Skipped? {
        var j :| 0 <= j < m && skipped[j] == n;
        assert j == m - 1;
        assert forall i :: i in skipped[..m] <==> i in skipped[..m - 1] || i == n;
        TallyAddsUp(results[..n], skipped, m - 1);
      } else {
        forall j | 0 <= j < m
          ensures skipped[j] < n
        {
          assert skipped[j] in skipped[..m];
        }
        TallyAddsUp(results[..n], skipped, m);
      }
    }
  }

  // A transaction succeeds exactly when every transaction it transitively depends
  // on, itself included, is accepted.
  lemma {:induction false} SucceedsIffAllReachableAccepted(txs: seq<Transaction>, accepts: nat -> bool, i: nat)
    requires DependenciesPrecede(txs) && i < |txs|
    ensures Succeeds(txs, accepts, i) <==>
            forall j: nat :: Reaches(DependencyGraph(txs), i, j) ==> accepts(j)
  {
    var g := DependencyGraph(txs);
    if Succeeds(txs, accepts, i) {
      forall j: nat | Reaches(g, i, j)
        ensures accepts(j)
      {
        var p: seq<int> :| WalkBetween(g, p, i, j);
        SuccessPropagates(txs, accepts, p);
      }
    }
    if forall j: nat :: Reaches(g, i, j) ==> accepts(j) {
      ReachesSelf(g, i);
      forall d | d in txs[i].dependencies
        ensures Succeeds(txs, accepts, d)
      {
        ReachesEdge(g, i, d);
        forall j: nat | Reaches(g, d, j)
          ensures accepts(j)
        {
          ReachesTransitive(g, i, d, j);
        }
        SucceedsIffAllReachableAccepted(txs, accepts, d);
      }
    }
  }

  lemma {:induction false} SuccessPropagates(txs: seq<Transaction>, accepts: nat -> bool, p: seq<int>)
    requires DependenciesPrecede(txs) && Walk(DependencyGraph(txs), p)
    requires 0 <= p[0] < |txs| && Succeeds(txs, accepts, p[0])
    ensures 0 <= p[|p| - 1] < |txs| && accepts(p[|p| - 1])
  {
    if |p| > 1 {
      assert Edge(DependencyGraph(txs), p[0], p[1]);
      WalkSuffix(DependencyGraph(txs), p, 1);
      SuccessPropagates(txs, accepts, p[1..]);
    }
  }

  // Without stopping, a transaction is reported as a success exactly when it and
  // everything it transitively depends on is accepted.
  lemma OutcomeSucceedsIff(txs: seq<Transaction>, accepts: nat -> bool, i: nat)
    requires DependenciesPrecede(txs) && i < |txs|
    ensures OutcomeOf(txs, accepts, i) == Succeeded <==>
            forall j: nat :: Reaches(DependencyGraph(txs), i, j) ==> accepts(j)
  {
    UnmetIffSomeFails(txs, accepts, i);
    SucceedsIffAllReachableAccepted(txs, accepts, i);
  }

  lemma {:induction false} UnmetConcat(a: seq<int>, b: seq<int>, completed: set<int>)
    ensures Unmet(a + b, completed) == Unmet(a, completed) + Unmet(b, completed)
  {
    if a == [] {
      assert a + b == b;
    } else {
      assert (a + b)[0] == a[0] && (a + b)[1..] == a[1..] + b;
      UnmetConcat(a[1..], b, completed);
    }
  }

  lemma {:induction false} UnmetKeepsOrder(deps: seq<int>, completed: set<int>) returns (places: seq<nat>)
    ensures PickedFrom(deps, Unmet(deps, completed), places)
    ensures forall j: nat :: j in places <==> j < |deps| && deps[j] !in completed
  {
    places := [];
    if deps != [] {
      var n: nat := |deps| - 1;
      places := UnmetKeepsOrder(deps[..n], completed);
      var front := Unmet(deps[..n], completed);
      assert deps == deps[..n] + [deps[n]];
      UnmetConcat(deps[..n], [deps[n]], completed);
      PickedSnoc(deps[..n], front, places, deps[n]);
      if deps[n] !in completed {
        places := places + [n];
      } else {
        assert front + [] == front;
      }
    }
  }

  // Without stopping: a transaction is rejected exactly when all it depends on succeeds
  // and the network refuses it, and held back exactly when something it depends on does
  // not succeed; it then names these dependencies, in their order.
  lemma OutcomeIs(txs: seq<Transaction>, accepts: nat -> bool, i: nat) returns (places: seq<nat>)
    requires DependenciesPrecede(txs) && i < |txs|
    ensures
      var deps, outcome := txs[i].dependencies, OutcomeOf(txs, accepts, i);
      var met := forall d :: d in deps ==> Succeeds(txs, accepts, d);
      && (outcome == Succeeded <==> met && accepts(i))
      && (outcome == Rejected <==> met && !accepts(i))
      && (outcome.DependencyNotMet? <==> !met)
      && (!met ==>
            && PickedFrom(deps, outcome.unmet, places)
            && forall j: nat :: j in places <==> j < |deps| && deps[j] in deps && !Succeeds(txs, accepts, deps[j]))
  {
    var deps := txs[i].dependencies;
    UnmetIffSomeFails(txs, accepts, i);
    places := UnmetKeepsOrder(deps, SucceedingBelow(txs, accepts, i));
    assert forall j :: 0 <= j < |deps| ==> deps[j] in deps;
  }

  // While everything is accepted, everything succeeds.
  lemma {:induction false} AcceptedSucceed(txs: seq<Transaction>, accepts: nat -> bool, i: nat)
    requires DependenciesPrecede(txs) && i < |txs| && forall j: nat :: j <= i ==> accepts(j)
    ensures Succeeds(txs, accepts, i)
  {
    forall d | d in txs[i].dependencies
      ensures Succeeds(txs, accepts, d)
    {
      AcceptedSucceed(txs, accepts, d);
    }
  }

  // Leaving stopOnFailure out makes no difference exactly when nothing before the
  // last transaction is rejected.
  lemma PoliciesAgreeIff(txs: seq<Transaction>, accepts: nat -> bool, k: nat)
    requires DependenciesPrecede(txs) && FirstRejected(accepts, |txs|, k)
    ensures (forall i: nat :: i < |txs| ==> OutcomeOf(txs, accepts, i) == OutcomeStoppingAt(k, i)) <==> k + 1 >= |txs|
  {
    if k + 1 >= |txs| {
      forall i: nat | i < |txs|
        ensures OutcomeOf(txs, accepts, i) == OutcomeStoppingAt(k, i)
      {
        forall d | d in txs[i].dependencies
          ensures Succeeds(txs, accepts, d)
        {
          AcceptedSucceed(txs, accepts, d);
        }
        UnmetIffSomeFails(txs, accepts, i);
      }
    } else {
      assert !OutcomeOf(txs, accepts, k + 1).Skipped?;
    }
  }

  // Of two independent transactions the first is rejected: whether the second is
  // skipped or goes through depends on the policy.
  lemma DefaultMattersExample(first: Transaction, second: Transaction)
    requires first.dependencies == [] && second.dependencies == []
    ensures
      var txs, accepts := [first, second], (i: nat) => i != 0;
      && DependenciesPrecede(txs) && FirstRejected(accepts, 2, 0)
      && OutcomeOf(txs, accepts, 1) == Succeeded && OutcomeStoppingAt(0, 1) == Skipped
  {
  }
}
