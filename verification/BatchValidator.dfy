// src/batch/batchValidator.ts: eager validation of a transaction batch, with a
// three-colour depth-first search for dependency cycles.
module BatchValidator {
  import opened Wrappers
  import opened Graphs
  import opened OrderedSets

  // An absent dependency or operation list behaves as an empty one, an absent
  // label as an empty one. Operations only matter by their number.
  datatype Transaction = Transaction(txLabel: string, operations: nat, dependencies: seq<int>)

  datatype Config = Config(
    hasSourceAccount: bool,
    networkPassphrase: string,
    feePerOperation: Option<int>,
    timeoutInSeconds: Option<int>,
    stopOnFailure: Option<bool>)

  datatype Issue =
    | MissingSourceAccount
    | MissingPassphrase
    | FeeNotPositive
    | TimeoutNotPositive
    | EmptyBatch
    | BlankLabel(index: int)
    | NoOperations(index: int)
    | DependsOnItself(index: int)
    | OutOfRange(index: int, dep: int)
    | NotPreceding(index: int, dep: int)
    | InDependencyCycle(index: int)

  datatype Color = White | Gray | Black

  // ---------- The dependency graph ----------

  predicate InRange(dep: int, n: nat) {
    0 <= dep < n
  }

  function KeepInRange(deps: seq<int>, n: nat): (r: seq<int>)
    ensures forall d :: d in r <==> d in deps && InRange(d, n)
  {
    if deps == [] then []
    else if InRange(deps[0], n) then [deps[0]] + KeepInRange(deps[1..], n)
    else KeepInRange(deps[1..], n)
  }

  lemma {:induction false} KeptInOrder(deps: seq<int>, n: nat) returns (places: seq<nat>)
    ensures PickedFrom(deps, KeepInRange(deps, n), places)
    ensures forall i: nat :: i in places <==> i < |deps| && InRange(deps[i], n)
  {
    places := [];
    if deps != [] {
      var last: nat := |deps| - 1;
      places := KeptInOrder(deps[..last], n);
      assert deps == deps[..last] + [deps[last]];
      KeepConcat(deps[..last], [deps[last]], n);
      PickedSnoc(deps[..last], KeepInRange(deps[..last], n), places, deps[last]);
      if InRange(deps[last], n) {
        places := places + [last];
      } else {
        assert KeepInRange(deps[..last], n) + [] == KeepInRange(deps[..last], n);
      }
    }
  }

  lemma {:induction false} KeepConcat(a: seq<int>, b: seq<int>, n: nat)
    ensures KeepInRange(a + b, n) == KeepInRange(a, n) + KeepInRange(b, n)
  {
    if a == [] {
      assert a + b == b;
    } else {
      assert (a + b)[0] == a[0] && (a + b)[1..] == a[1..] + b;
      KeepConcat(a[1..], b, n);
    }
  }

  // Node i depends on the in-range indices its transaction lists.
  function DependencyGraph(txs: seq<Transaction>): Graph<int> {
    map i | 0 <= i < |txs| :: KeepInRange(txs[i].dependencies, |txs|)
  }

  // ---------- Cycle search ----------

  // What the search knows between two steps, bad being the indices from which a
  // cycle is in reach. Gray nodes off the current path were left behind by an
  // earlier hit; they are exactly the reported ones.
  ghost predicate SearchInv(g: Graph<int>, bad: set<int>, color: seq<Color>, path: seq<int>, inCycle: seq<int>) {
    && (forall u :: u in g <==> 0 <= u < |color|)
    && (forall u, v :: u in g && v in g[u] ==> v in g)
    && (path == [] || Walk(g, path))
    && (forall k :: 0 <= k < |path| ==> path[k] in g && color[path[k]] == Gray)
    && (forall u :: u in inCycle ==> u in g && color[u] == Gray && u in bad)
    && (forall u :: u in g && color[u] == Gray ==> u in path || u in inCycle)
    && (forall u :: u in g && color[u] == Black ==> u !in bad)
  }

  ghost function Whites(color: seq<Color>): set<int> {
    set u | 0 <= u < |color| && color[u] == White
  }

  // Colours only ever leave White, and once left are settled for the callers.
  ghost predicate Unfolds(before: seq<Color>, after: seq<Color>) {
    && |before| == |after|
    && (forall w :: 0 <= w < |before| && before[w] != White ==> after[w] == before[w])
    && Whites(after) <= Whites(before)
  }

  lemma EnterKeepsInv(g: Graph<int>, bad: set<int>, color: seq<Color>, path: seq<int>, inCycle: seq<int>, u: int)
    requires SearchInv(g, bad, color, path, inCycle)
    requires u in g && color[u] == White
    requires path == [] || Edge(g, path[|path| - 1], u)
    ensures u !in path && u !in inCycle
    ensures SearchInv(g, bad, color[u := Gray], path + [u], inCycle)
    ensures Whites(color[u := Gray]) < Whites(color)
  {
    assert u in Whites(color) && u !in Whites(color[u := Gray]);
    WalkSnoc(g, path, u);
    var path' := path + [u];
    assert forall w :: w in path ==> w in path';
    assert u in path' by {
      assert path'[|path|] == u;
    }
  }

  lemma LeaveKeepsInv(g: Graph<int>, bad: set<int>, color: seq<Color>, path: seq<int>, inCycle: seq<int>, u: int)
    requires IsCycleSet(g, bad) && SearchInv(g, bad, color, path + [u], inCycle)
    requires u in g && u !in path && u !in inCycle
    requires forall j :: 0 <= j < |g[u]| ==> g[u][j] in g && color[g[u][j]] == Black
    ensures SearchInv(g, bad, color[u := Black], path, inCycle)
    ensures Whites(color[u := Black]) <= Whites(color)
  {
    assert forall i :: 0 <= i < |path| ==> path[i] == (path + [u])[i];
    assert path == [] || Walk(g, path);
    NotBadBelow(g, bad, u);
  }

  // Meeting a gray node, whether on the path or left over, puts a cycle in reach
  // of the whole path.
  lemma MarkKeepsInv(g: Graph<int>, bad: set<int>, color: seq<Color>, path: seq<int>, inCycle: seq<int>,
                     marked: seq<int>, v: int)
    requires IsCycleSet(g, bad) && SearchInv(g, bad, color, path, inCycle) && path != []
    requires v in g && color[v] == Gray && Edge(g, path[|path| - 1], v)
    requires forall u :: u in marked <==> u in inCycle || u in path
    ensures SearchInv(g, bad, color, path, marked)
  {
    BadFromBackEdge(g, bad, path, v);
  }

  // Visits u; hit tells whether a gray node was met below it. On a hit the search
  // unwinds at once: the nodes of the path stay gray and stay on the path.
  method Dfs(adj: seq<seq<int>>, color: array<Color>, u: int, path: seq<int>, inCycle: seq<int>,
             ghost g: Graph<int>, ghost bad: set<int>)
    returns (hit: bool, path': seq<int>, inCycle': seq<int>)
    requires color.Length == |adj| && forall i :: 0 <= i < |adj| ==> i in g && g[i] == adj[i]
    requires IsCycleSet(g, bad) && SearchInv(g, bad, color[..], path, inCycle)
    requires u in g && color[u] == White
    requires path == [] || Edge(g, path[|path| - 1], u)
    requires NoDuplicates(inCycle)
    modifies color
    ensures SearchInv(g, bad, color[..], path', inCycle')
    ensures NoDuplicates(inCycle')
    ensures Unfolds(old(color[..]), color[..])
    ensures color[u] != White
    ensures !hit ==> path' == path && inCycle' == inCycle && color[u] == Black
    ensures hit ==> forall w :: w in path' ==> w in inCycle'
    decreases Whites(color[..]), 0
  {
    ghost var before := color[..];
    EnterKeepsInv(g, bad, before, path, inCycle, u);
    color[u] := Gray;
    assert color[..] == before[u := Gray];
    path' := Insert(path, u);
    hit, path', inCycle' := VisitSuccessors(adj, color, u, path', inCycle, g, bad);
    if hit {
      return;
    }
    ghost var last := color[..];
    RemoveLast(path, u);
    LeaveKeepsInv(g, bad, last, path, inCycle, u);
    path' := Remove(path', u);
    color[u] := Black;
    assert color[..] == last[u := Black];
  }

  // The loop of the visit, u being the last node of the path.
  method VisitSuccessors(adj: seq<seq<int>>, color: array<Color>, u: int, path: seq<int>, inCycle: seq<int>,
                         ghost g: Graph<int>, ghost bad: set<int>)
    returns (hit: bool, path': seq<int>, inCycle': seq<int>)
    requires color.Length == |adj| && forall i :: 0 <= i < |adj| ==> i in g && g[i] == adj[i]
    requires IsCycleSet(g, bad) && SearchInv(g, bad, color[..], path, inCycle)
    requires u in g && path != [] && path[|path| - 1] == u
    requires NoDuplicates(inCycle)
    modifies color
    ensures SearchInv(g, bad, color[..], path', inCycle')
    ensures NoDuplicates(inCycle')
    ensures Unfolds(old(color[..]), color[..])
    ensures !hit ==> path' == path && inCycle' == inCycle
    ensures !hit ==> forall j :: 0 <= j < |g[u]| ==> g[u][j] in g && color[g[u][j]] == Black
    ensures hit ==> forall w :: w in path' ==> w in inCycle'
    decreases Whites(color[..]), 2
  {
    path', inCycle' := path, inCycle;
    for k := 0 to |adj[u]|
      invariant SearchInv(g, bad, color[..], path, inCycle)
      invariant path' == path && inCycle' == inCycle
      invariant Unfolds(old(color[..]), color[..])
      invariant forall j :: 0 <= j < k ==> adj[u][j] in g && color[adj[u][j]] == Black
    {
      assert adj[u][k] in g[u];
      hit, path', inCycle' := VisitSuccessor(adj, color, u, adj[u][k], path', inCycle', g, bad);
      if hit {
        return;
      }
    }
    hit := false;
  }

  // Follows the edge from u, the last node of the path, to v.
  method VisitSuccessor(adj: seq<seq<int>>, color: array<Color>, u: int, v: int, path: seq<int>, inCycle: seq<int>,
                        ghost g: Graph<int>, ghost bad: set<int>)
    returns (hit: bool, path': seq<int>, inCycle': seq<int>)
    requires color.Length == |adj| && forall i :: 0 <= i < |adj| ==> i in g && g[i] == adj[i]
    requires IsCycleSet(g, bad) && SearchInv(g, bad, color[..], path, inCycle)
    requires u in g && v in g[u] && v in g && path != [] && path[|path| - 1] == u
    requires NoDuplicates(inCycle)
    modifies color
    ensures SearchInv(g, bad, color[..], path', inCycle')
    ensures NoDuplicates(inCycle')
    ensures Unfolds(old(color[..]), color[..])
    ensures !hit ==> path' == path && inCycle' == inCycle && color[v] == Black
    ensures hit ==> forall w :: w in path' ==> w in inCycle'
    decreases Whites(color[..]), 1
  {
    hit, path', inCycle' := false, path, inCycle;
    if color[v] == Gray {
      inCycle' := MarkAll(path, inCycle);
      MarkKeepsInv(g, bad, color[..], path, inCycle, inCycle', v);
      hit := true;
    } else if color[v] == White {
      hit, path', inCycle' := Dfs(adj, color, v, path, inCycle, g, bad);
    }
  }

  method MarkAll(path: seq<int>, inCycle: seq<int>) returns (r: seq<int>)
    requires NoDuplicates(inCycle)
    ensures NoDuplicates(r)
    ensures forall u :: u in r <==> u in inCycle || u in path
  {
    r := inCycle;
    for k := 0 to |path|
      invariant NoDuplicates(r)
      invariant forall u :: u in r <==> u in inCycle || u in path[..k]
    {
      r := Insert(r, path[k]);
    }
  }

  method BuildAdjacency(txs: seq<Transaction>) returns (adj: seq<seq<int>>)
    ensures |adj| == |txs|
    ensures forall i :: 0 <= i < |txs| ==> adj[i] == KeepInRange(txs[i].dependencies, |txs|)
  {
    adj := [];
    for i := 0 to |txs|
      invariant |adj| == i
      invariant forall j :: 0 <= j < i ==> adj[j] == KeepInRange(txs[j].dependencies, |txs|)
    {
      var out: seq<int> := [];
      var deps := txs[i].dependencies;
      for k := 0 to |deps|
        invariant out == KeepInRange(deps[..k], |txs|)
      {
        KeepInRangeSnoc(deps, k, |txs|);
        if 0 <= deps[k] < |txs| {
          out := out + [deps[k]];
        }
      }
      assert deps[..|deps|] == deps;
      adj := adj + [out];
    }
  }

  lemma DropPath(g: Graph<int>, bad: set<int>, color: seq<Color>, path: seq<int>, inCycle: seq<int>)
    requires SearchInv(g, bad, color, path, inCycle)
    requires forall w :: w in path ==> w in inCycle
    ensures SearchInv(g, bad, color, [], inCycle)
  {
  }

  method SearchFromAll(adj: seq<seq<int>>, ghost g: Graph<int>, ghost bad: set<int>) returns (inCycle: seq<int>)
    requires forall u :: u in g <==> 0 <= u < |adj|
    requires forall u :: u in g ==> g[u] == adj[u]
    requires forall u, v :: u in g && v in g[u] ==> v in g
    requires IsCycleSet(g, bad)
    ensures NoDuplicates(inCycle)
    ensures forall u :: u in inCycle <==> u in g && u in bad
  {
    var color := new Color[|adj|](_ => White);
    inCycle := [];
    StartsWhite(g, bad, color[..]);
    for i := 0 to |adj|
      invariant SearchInv(g, bad, color[..], [], inCycle) && NoDuplicates(inCycle)
      invariant forall j :: 0 <= j < i ==> color[j] != White
    {
      if color[i] == White {
        var hit, path;
        hit, path, inCycle := Dfs(adj, color, i, [], inCycle, g, bad);
        DropPath(g, bad, color[..], path, inCycle);
      }
    }
    AllSettled(g, bad, color[..], inCycle);
  }

  lemma StartsWhite(g: Graph<int>, bad: set<int>, color: seq<Color>)
    requires forall u :: u in g <==> 0 <= u < |color|
    requires forall u, v :: u in g && v in g[u] ==> v in g
    requires forall u :: 0 <= u < |color| ==> color[u] == White
    ensures SearchInv(g, bad, color, [], [])
  {
  }

  // With no white node left, the reported nodes are the gray ones and those are bad.
  lemma AllSettled(g: Graph<int>, bad: set<int>, color: seq<Color>, inCycle: seq<int>)
    requires SearchInv(g, bad, color, [], inCycle)
    requires forall u :: 0 <= u < |color| ==> color[u] != White
    ensures forall u :: u in inCycle <==> u in g && u in bad
  {
    forall u | u in g && u in bad
      ensures u in inCycle
    {
      assert color[u] == Gray;
    }
  }

  // The reported indices are exactly those from which a dependency cycle can be
  // reached, which is more than taking part in one.
  method DetectCycles(txs: seq<Transaction>) returns (inCycle: seq<int>)
    ensures NoDuplicates(inCycle)
    ensures forall i :: i in inCycle <==> 0 <= i < |txs| && ReachesCycle(DependencyGraph(txs), i)
  {
    var adj := BuildAdjacency(txs);
    ghost var g := DependencyGraph(txs);
    ghost var bad := CycleSet(g);
    inCycle := SearchFromAll(adj, g, bad);
    assert forall i :: i in bad <==> ReachesCycle(g, i);
  }

  lemma KeepInRangeSnoc(deps: seq<int>, k: nat, n: nat)
    requires k < |deps|
    ensures KeepInRange(deps[..k + 1], n) ==
            KeepInRange(deps[..k], n) + (if InRange(deps[k], n) then [deps[k]] else [])
  {
    if k > 0 {
      KeepInRangeSnoc(deps[1..], k - 1, n);
      assert deps[..k + 1][1..] == deps[1..][..k];
      assert deps[..k][1..] == deps[1..][..k - 1];
    }
  }

  // The documentation calls the reported transactions those that participate in a
  // cycle. This is so exactly when no transaction outside the cycles depends on
  // one inside.
  lemma ReportedIffOnCycle(g: Graph<int>)
    ensures (forall u :: ReachesCycle(g, u) ==> OnCycle(g, u)) <==>
            (forall u, v :: Edge(g, u, v) && OnCycle(g, v) ==> OnCycle(g, u))
  {
    if forall u :: ReachesCycle(g, u) ==> OnCycle(g, u) {
      forall u, v | Edge(g, u, v) && OnCycle(g, v)
        ensures OnCycle(g, u)
      {
        ReachesEdge(g, u, v);
      }
    }
    if forall u, v :: Edge(g, u, v) && OnCycle(g, v) ==> OnCycle(g, u) {
      forall u | ReachesCycle(g, u)
        ensures OnCycle(g, u)
      {
        var p := CycleWitness(g, u);
        CycleSpreadsBack(g, p);
      }
    }
  }

  lemma {:induction false} CycleSpreadsBack(g: Graph<int>, p: seq<int>)
    requires Walk(g, p) && OnCycle(g, p[|p| - 1])
    requires forall u, v :: Edge(g, u, v) && OnCycle(g, v) ==> OnCycle(g, u)
    ensures OnCycle(g, p[0])
  {
    if |p| > 1 {
      WalkSuffix(g, p, 1);
      CycleSpreadsBack(g, p[1..]);
      assert Edge(g, p[0], p[1]);
    }
  }

  // Transaction 0 is reported for depending on the self-dependent transaction 1.
  lemma ReportedOffCycleExample()
    ensures var txs := [Transaction("a", 1, [1]), Transaction("b", 1, [1])];
            ReachesCycle(DependencyGraph(txs), 0) && !OnCycle(DependencyGraph(txs), 0)
  {
    var txs := [Transaction("a", 1, [1]), Transaction("b", 1, [1])];
    var g := DependencyGraph(txs);
    assert g[0] == [1] && g[1] == [1];
    assert ClosedWalk(g, [1, 1]);
    ReachesEdge(g, 0, 1);
    forall p | Walk(g, p) && |p| >= 2
      ensures p[|p| - 1] == 1
    {
      assert Edge(g, p[|p| - 2], p[|p| - 2 + 1]);
    }
  }

  // ---------- Validation ----------

  predicate IsSpace(c: char) {
    c in [' ', '\t', '\n', '\r', '\U{0B}', '\U{0C}', '\U{A0}', '\U{1680}', '\U{2028}', '\U{2029}',
          '\U{202F}', '\U{205F}', '\U{3000}', '\U{FEFF}']
    || '\U{2000}' <= c <= '\U{200A}'
  }

  // What is left of the string after trimming is empty.
  predicate Blank(s: string) {
    forall c :: c in s ==> IsSpace(c)
  }

  method ValidateConfig(config: Config) returns (issues: seq<Issue>)
    ensures forall x :: x in issues <==> IsConfigIssue(config, x)
  {
    issues := [];
    if !config.hasSourceAccount {
      issues := issues + [MissingSourceAccount];
    }
    if Blank(config.networkPassphrase) {
      issues := issues + [MissingPassphrase];
    }
    if config.feePerOperation.Some? && config.feePerOperation.value <= 0 {
      issues := issues + [FeeNotPositive];
    }
    if config.timeoutInSeconds.Some? && config.timeoutInSeconds.value <= 0 {
      issues := issues + [TimeoutNotPositive];
    }
  }

  predicate IsConfigIssue(config: Config, x: Issue) {
    match x
    case MissingSourceAccount => !config.hasSourceAccount
    case MissingPassphrase => Blank(config.networkPassphrase)
    case FeeNotPositive => config.feePerOperation.Some? && config.feePerOperation.value <= 0
    case TimeoutNotPositive => config.timeoutInSeconds.Some? && config.timeoutInSeconds.value <= 0
    case _ => false
  }

  method ValidateTransactions(txs: seq<Transaction>) returns (issues: seq<Issue>)
    ensures forall x :: x in issues <==> IsTransactionIssue(txs, |txs|, x)
  {
    if |txs| == 0 {
      return [EmptyBatch];
    }
    issues := [];
    for i := 0 to |txs|
      invariant forall x :: x in issues <==> IsTransactionIssue(txs, i, x)
    {
      if Blank(txs[i].txLabel) {
        issues := issues + [BlankLabel(i)];
      }
      if txs[i].operations == 0 {
        issues := issues + [NoOperations(i)];
      }
    }
  }

  predicate IsTransactionIssue(txs: seq<Transaction>, upTo: nat, x: Issue)
    requires upTo <= |txs|
  {
    match x
    case EmptyBatch => |txs| == 0
    case BlankLabel(i) => 0 <= i < upTo && Blank(txs[i].txLabel)
    case NoOperations(i) => 0 <= i < upTo && txs[i].operations == 0
    case _ => false
  }

  method ValidateDependencies(txs: seq<Transaction>) returns (issues: seq<Issue>)
    ensures forall x :: x in issues <==> IsDependencyIssue(txs, x) || IsCycleIssue(txs, x)
  {
    issues := [];
    for i := 0 to |txs|
      invariant forall x :: x in issues <==> IsDependencyIssue(txs, x) && x.index < i
    {
      var deps := txs[i].dependencies;
      for k := 0 to |deps|
        invariant forall x :: x in issues <==>
          IsDependencyIssue(txs, x) && (x.index < i || (x.index == i && IssueDependency(x) in deps[..k]))
      {
        assert deps[..k + 1] == deps[..k] + [deps[k]];
        var dep := deps[k];
        if dep == i {
          issues := issues + [DependsOnItself(i)];
          continue;
        }
        if dep < 0 || dep >= |txs| {
          issues := issues + [OutOfRange(i, dep)];
          continue;
        }
        if dep >= i {
          issues := issues + [NotPreceding(i, dep)];
        }
      }
      assert deps[..|deps|] == deps;
    }
    ghost var before := issues;
    var cycleIndices := DetectCycles(txs);
    for k := 0 to |cycleIndices|
      invariant forall x :: x in issues <==> x in before || (x.InDependencyCycle? && x.index in cycleIndices[..k])
    {
      assert cycleIndices[..k + 1] == cycleIndices[..k] + [cycleIndices[k]];
      issues := issues + [InDependencyCycle(cycleIndices[k])];
    }
    assert cycleIndices[..|cycleIndices|] == cycleIndices;
  }

  function IssueDependency(x: Issue): int
    requires x.DependsOnItself? || x.OutOfRange? || x.NotPreceding?
  {
    if x.DependsOnItself? then x.index else x.dep
  }

  predicate IsDependencyIssue(txs: seq<Transaction>, x: Issue) {
    && (x.DependsOnItself? || x.OutOfRange? || x.NotPreceding?)
    && 0 <= x.index < |txs|
    && IssueDependency(x) in txs[x.index].dependencies
    && match x
       case OutOfRange(i, dep) => dep != i && !InRange(dep, |txs|)
       case NotPreceding(i, dep) => i < dep < |txs|
       case _ => true
  }

  ghost predicate IsCycleIssue(txs: seq<Transaction>, x: Issue) {
    x.InDependencyCycle? && 0 <= x.index < |txs| && ReachesCycle(DependencyGraph(txs), x.index)
  }

  ghost predicate IsIssue(txs: seq<Transaction>, config: Config, x: Issue) {
    || IsConfigIssue(config, x)
    || IsTransactionIssue(txs, |txs|, x)
    || IsDependencyIssue(txs, x)
    || IsCycleIssue(txs, x)
  }

  // Every dependency names an earlier transaction.
  predicate DependenciesPrecede(txs: seq<Transaction>) {
    forall i :: 0 <= i < |txs| ==> forall d :: d in txs[i].dependencies ==> 0 <= d < i
  }

  predicate WellFormedBatch(txs: seq<Transaction>, config: Config) {
    && config.hasSourceAccount
    && !Blank(config.networkPassphrase)
    && (config.feePerOperation.Some? ==> config.feePerOperation.value > 0)
    && (config.timeoutInSeconds.Some? ==> config.timeoutInSeconds.value > 0)
    && |txs| > 0
    && (forall i :: 0 <= i < |txs| ==> !Blank(txs[i].txLabel) && txs[i].operations > 0)
    && DependenciesPrecede(txs)
  }

  // All issues are collected, and the verdict is a condition that does not
  // mention cycles.
  method Validate(txs: seq<Transaction>, config: Config) returns (valid: bool, issues: seq<Issue>)
    ensures forall x :: x in issues <==> IsIssue(txs, config, x)
    ensures valid <==> issues == []
    ensures valid <==> WellFormedBatch(txs, config)
  {
    var i1 := ValidateConfig(config);
    var i2 := ValidateTransactions(txs);
    var i3 := ValidateDependencies(txs);
    issues := i1 + i2 + i3;
    valid := |issues| == 0;
    ValidIffWellFormed(txs, config);
    assert issues != [] ==> issues[0] in issues;
  }

  lemma ValidIffWellFormed(txs: seq<Transaction>, config: Config)
    ensures (forall x :: !IsIssue(txs, config, x)) <==> WellFormedBatch(txs, config)
  {
    if DependenciesPrecede(txs) {
      CyclesNeverDecide(txs);
    }
    if forall x :: !IsIssue(txs, config, x) {
      assert !IsIssue(txs, config, MissingSourceAccount);
      assert !IsIssue(txs, config, MissingPassphrase);
      assert !IsIssue(txs, config, FeeNotPositive);
      assert !IsIssue(txs, config, TimeoutNotPositive);
      assert !IsIssue(txs, config, EmptyBatch);
      forall i | 0 <= i < |txs|
        ensures !Blank(txs[i].txLabel) && txs[i].operations > 0
      {
        assert !IsIssue(txs, config, BlankLabel(i));
        assert !IsIssue(txs, config, NoOperations(i));
      }
      forall i, d | 0 <= i < |txs| && d in txs[i].dependencies
        ensures 0 <= d < i
      {
        assert !IsIssue(txs, config, DependsOnItself(i));
        assert !IsIssue(txs, config, OutOfRange(i, d));
        assert !IsIssue(txs, config, NotPreceding(i, d));
      }
    }
  }

  // The cycle search reports nothing once every dependency precedes its owner, so
  // it never changes the verdict.
  lemma CyclesNeverDecide(txs: seq<Transaction>)
    requires DependenciesPrecede(txs)
    ensures Acyclic(DependencyGraph(txs))
    ensures forall i :: !ReachesCycle(DependencyGraph(txs), i)
  {
    var g := DependencyGraph(txs);
    forall u
      ensures !OnCycle(g, u)
    {
      if OnCycle(g, u) {
        var p :| ClosedWalk(g, p) && p[0] == u;
        WalkDescends(txs, p);
        assert false;
      }
    }
  }

  lemma {:induction false} WalkDescends(txs: seq<Transaction>, p: seq<int>)
    requires DependenciesPrecede(txs) && Walk(DependencyGraph(txs), p)
    ensures |p| > 1 ==> p[|p| - 1] < p[0]
  {
    if |p| > 1 {
      WalkSuffix(DependencyGraph(txs), p, 1);
      WalkDescends(txs, p[1..]);
      assert Edge(DependencyGraph(txs), p[0], p[1]);
    }
  }
}
