// src/migrations/migrationRegistry.ts: version-to-version steps per contract and
// the breadth-first search for a chain between two versions.
module MigrationRegistry {
  import opened Wrappers
  import opened Migrations
  import opened OrderedSets
  import opened ChainOrder

  datatype PathError = PathNotFound(contractId: string, fromVersion: string, toVersion: string)

  datatype QueueEntry = QueueEntry(version: string, path: seq<Step>)

  function WithoutId(steps: seq<Step>, id: string): (r: seq<Step>)
    ensures |r| <= |steps|
  {
    if steps == [] then []
    else if steps[0].id == id then WithoutId(steps[1..], id)
    else [steps[0]] + WithoutId(steps[1..], id)
  }

  // The others stay, in their order.
  lemma {:induction false} WithoutIdKeepsOrder(steps: seq<Step>, id: string) returns (places: seq<nat>)
    ensures PickedFrom(steps, WithoutId(steps, id), places)
    ensures forall i: nat :: i in places <==> i < |steps| && steps[i].id != id
  {
    places := [];
    if steps != [] {
      var n: nat := |steps| - 1;
      places := WithoutIdKeepsOrder(steps[..n], id);
      assert steps == steps[..n] + [steps[n]];
      WithoutIdConcat(steps[..n], [steps[n]], id);
      PickedSnoc(steps[..n], WithoutId(steps[..n], id), places, steps[n]);
      if steps[n].id != id {
        places := places + [n];
      } else {
        assert WithoutId(steps[..n], id) + [] == WithoutId(steps[..n], id);
      }
    }
  }

  lemma {:induction false} WithoutIdConcat(a: seq<Step>, b: seq<Step>, id: string)
    ensures WithoutId(a + b, id) == WithoutId(a, id) + WithoutId(b, id)
  {
    if a == [] {
      assert a + b == b;
    } else {
      assert (a + b)[0] == a[0] && (a + b)[1..] == a[1..] + b;
      WithoutIdConcat(a[1..], b, id);
    }
  }

  // The steps leaving a version, in registration order.
  function Leaving(steps: seq<Step>, version: string): seq<Step> {
    if steps == [] then []
    else
      var n := |steps| - 1;
      Leaving(steps[..n], version) + if steps[n].fromVersion == version then [steps[n]] else []
  }

  lemma {:induction false} LeavingMembers(steps: seq<Step>, version: string)
    ensures forall s :: s in Leaving(steps, version) <==> s in steps && s.fromVersion == version
  {
    if steps != [] {
      var n := |steps| - 1;
      LeavingMembers(steps[..n], version);
      assert forall s :: s in steps <==> s in steps[..n] || s == steps[n];
    }
  }

  lemma {:induction false} LeavingKeepsOrder(steps: seq<Step>, version: string)
    ensures SameOrder(steps, Leaving(steps, version))
  {
    if steps != [] {
      var n := |steps| - 1;
      LeavingKeepsOrder(steps[..n], version);
      LeavingMembers(steps[..n], version);
      assert steps == steps[..n] + [steps[n]];
      SameOrderSnoc(steps[..n], Leaving(steps[..n], version), steps[n], steps[n].fromVersion == version);
      assert Leaving(steps[..n], version) + [] == Leaving(steps[..n], version);
    }
  }

  function Bucket(edges: map<string, seq<Step>>, version: string): seq<Step> {
    if version in edges then edges[version] else []
  }

  // ---------- What the search knows ----------

  // Everything visited was reached in dist steps; a finished version's steps lead
  // only to visited versions, at most one step further.
  ghost predicate Explored(steps: seq<Step>, from: string, to: string, visited: set<string>,
                              done: set<string>, dist: map<string, nat>) {
    && dist.Keys == visited
    && from in visited && dist[from] == 0
    && to !in visited
    && done <= visited
    && forall s :: s in steps && s.fromVersion in done ==> Relaxed(s, dist)
  }

  ghost predicate Relaxed(s: Step, dist: map<string, nat>) {
    s.fromVersion in dist && s.toVersion in dist && dist[s.toVersion] <= dist[s.fromVersion] + 1
  }

  // A queued path is a chain of the recorded length through visited versions only.
  ghost predicate GoodEntry(steps: seq<Step>, from: string, dist: map<string, nat>, e: QueueEntry) {
    && Chain(steps, e.path, from, e.version)
    && Simple(e.path, from) && VersionSet(e.path, from) <= dist.Keys
    && e.version in dist && dist[e.version] == |e.path|
  }

  ghost predicate GoodQueue(steps: seq<Step>, from: string, dist: map<string, nat>, queue: seq<QueueEntry>) {
    forall i :: 0 <= i < |queue| ==> GoodEntry(steps, from, dist, queue[i])
  }

  // Queued paths are sorted by length, and no two lengths differ by more than one.
  ghost predicate Layered(queue: seq<QueueEntry>, d: nat) {
    && (forall i :: 0 <= i < |queue| ==> d <= |queue[i].path| <= d + 1)
    && (forall i, j :: 0 <= i < j < |queue| ==> |queue[i].path| <= |queue[j].path|)
  }

  // Nothing recorded lies beyond the layer being filled.
  ghost predicate Near(dist: map<string, nat>, d: nat) {
    forall v :: v in dist ==> dist[v] <= d + 1
  }

  // Everything visited is finished, queued, or the version being expanded.
  ghost predicate Pending(visited: set<string>, done: set<string>, queue: seq<QueueEntry>) {
    forall v :: v in visited && v !in done ==> exists i :: 0 <= i < |queue| && queue[i].version == v
  }

  // Along any chain, either its end was visited no later in the search than along
  // the chain, or an earlier version of it is still unfinished.
  lemma {:induction false} Frontier(steps: seq<Step>, from: string, to: string, visited: set<string>,
                                       done: set<string>, dist: map<string, nat>, c: seq<Step>, w: string)
    requires Explored(steps, from, to, visited, done, dist)
    requires Chain(steps, c, from, w)
    ensures (w in visited && dist[w] <= |c|) || exists x :: x in visited && x !in done && dist[x] < |c|
  {
    if c != [] {
      var last := c[|c| - 1];
      Frontier(steps, from, to, visited, done, dist, c[..|c| - 1], last.fromVersion);
      if last.fromVersion in done {
        assert Relaxed(last, dist);
      }
    }
  }

  // While the search is at distance d, no chain to the target is shorter than d + 1.
  lemma NoShorterChain(steps: seq<Step>, from: string, to: string, visited: set<string>,
                          done: set<string>, dist: map<string, nat>, queue: seq<QueueEntry>, d: nat,
                          c: seq<Step>)
    requires Explored(steps, from, to, visited, done, dist)
    requires GoodQueue(steps, from, dist, queue) && Pending(visited, done, queue) && Layered(queue, d)
    requires Chain(steps, c, from, to)
    ensures queue != [] && d < |c|
  {
    Frontier(steps, from, to, visited, done, dist, c, to);
    var x :| x in visited && x !in done && dist[x] < |c|;
    var i :| 0 <= i < |queue| && queue[i].version == x;
    assert GoodEntry(steps, from, dist, queue[i]);
  }

  class MigrationRegistry {
    var stepsByContract: map<string, seq<Step>>

    constructor ()
      ensures stepsByContract == map[]
    {
      stepsByContract := map[];
    }

    function ListSteps(contractId: string): seq<Step>
      reads this
    {
      if contractId in stepsByContract then stepsByContract[contractId] else []
    }

    // Replaces a step with the same id; the step moves to the end.
    method Register(contractId: string, step: Step)
      modifies this
      ensures ListSteps(contractId) == WithoutId(old(ListSteps(contractId)), step.id) + [step]
      ensures forall c :: c != contractId ==> ListSteps(c) == old(ListSteps(c))
    {
      stepsByContract := stepsByContract[contractId := WithoutId(ListSteps(contractId), step.id) + [step]];
    }

    method Unregister(contractId: string, stepId: string) returns (removed: bool)
      modifies this
      ensures ListSteps(contractId) == WithoutId(old(ListSteps(contractId)), stepId)
      ensures forall c :: c != contractId ==> ListSteps(c) == old(ListSteps(c))
      ensures removed <==> exists s :: s in old(ListSteps(contractId)) && s.id == stepId
    {
      WithoutIdShrinks(ListSteps(contractId), stepId);
      if contractId !in stepsByContract {
        return false;
      }
      var next := WithoutId(stepsByContract[contractId], stepId);
      removed := |next| != |stepsByContract[contractId]|;
      stepsByContract := stepsByContract[contractId := next];
    }

    // Groups the registered steps by the version they leave.
    method EdgesByFrom(contractId: string) returns (edges: map<string, seq<Step>>)
      ensures forall v :: Bucket(edges, v) == Leaving(ListSteps(contractId), v)
    {
      var steps := ListSteps(contractId);
      edges := map[];
      for k := 0 to |steps|
        invariant forall v :: Bucket(edges, v) == Leaving(steps[..k], v)
      {
        var v := steps[k].fromVersion;
        assert steps[..k + 1][..k] == steps[..k];
        edges := edges[v := Bucket(edges, v) + [steps[k]]];
      }
      assert steps[..|steps|] == steps;
    }

    // The plan returned is a chain of registered steps of least length that visits
    // no version twice, the first one of that length in the order of registration;
    // without such a chain, and only then, the search fails.
    method ResolvePath(contractId: string, fromVersion: string, toVersion: string)
      returns (r: Result<Plan, PathError>)
      ensures r.Ok? ==>
        && r.value.contractId == contractId && r.value.fromVersion == fromVersion && r.value.toVersion == toVersion
        && Shortest(ListSteps(contractId), r.value.steps, fromVersion, toVersion)
        && NoDuplicates(Versions(r.value.steps, fromVersion))
        && FirstChain(ListSteps(contractId), fromVersion, toVersion, r.value.steps)
      ensures r.Err? ==> r.error == PathNotFound(contractId, fromVersion, toVersion)
      ensures r.Err? ==> forall c :: !Chain(ListSteps(contractId), c, fromVersion, toVersion)
    {
      if fromVersion == toVersion {
        return Ok(Plan(contractId, fromVersion, toVersion, []));
      }
      var edgesByFrom := EdgesByFrom(contractId);
      ghost var steps := ListSteps(contractId);
      var visited := {fromVersion};
      var queue: seq<QueueEntry> := [QueueEntry(fromVersion, [])];
      ghost var done: set<string> := {};
      ghost var dist: map<string, nat> := map[fromVersion := 0];
      ghost var all := set s | s in steps :: s.toVersion;
      SearchStarts(steps, fromVersion, toVersion);

      while |queue| > 0
        invariant SearchedTo(steps, fromVersion, toVersion, visited, done, dist, queue)
        decreases all - visited, |queue|
      {
        var current := queue[0];
        assert queue == [current] + queue[1..];
        LeavingMembers(steps, current.version);
        LeavingKeepsOrder(steps, current.version);
        ghost var before := visited;
        var found;
        found, visited, queue, dist :=
          Expand(current, queue[1..], Bucket(edgesByFrom, current.version), visited, toVersion,
                 steps, fromVersion, done, dist, all);
        if found.Some? {
          return Ok(Plan(contractId, fromVersion, toVersion, found.value));
        }
        done := done + {current.version};
        LeftToVisit(all, before, visited);
      }
      NothingLeft(steps, fromVersion, toVersion, visited, done, dist, queue);
      return Err(PathNotFound(contractId, fromVersion, toVersion));
    }
  }

  ghost predicate Shortest(steps: seq<Step>, c: seq<Step>, from: string, to: string) {
    Chain(steps, c, from, to) && forall c' :: Chain(steps, c', from, to) ==> |c| <= |c'|
  }

  lemma LeftToVisit(all: set<string>, before: set<string>, after: set<string>)
    requires before <= after <= before + all
    ensures after == before || all - after < all - before
  {
    if after != before {
      var v :| v in after && v !in before;
      assert v in all - before && v !in all - after;
    }
  }

  // The invariant of the search, q being the queue with the current entry still at
  // its head, all of it at distance d or d + 1.
  ghost predicate Searching(steps: seq<Step>, from: string, to: string, visited: set<string>, done: set<string>,
                            dist: map<string, nat>, q: seq<QueueEntry>, d: nat) {
    && Explored(steps, from, to, visited, done, dist)
    && GoodQueue(steps, from, dist, q) && Pending(visited, done, q)
    && Layered(q, d) && Near(dist, d)
  }

  // What is queued comes in the order of registration: of the chains of its length to
  // its version each path is the first, paths of one length come one after the other,
  // and longer ones extend earlier paths or the current one by its first k edges.
  ghost predicate QueueInOrder(steps: seq<Step>, from: string, q: seq<QueueEntry>, edges: seq<Step>, k: nat)
    requires q != []
  {
    && k <= |edges|
    && (forall i {:trigger FirstChain(steps, from, q[i].version, q[i].path)} :: 0 <= i < |q| ==>
          FirstChain(steps, from, q[i].version, q[i].path))
    && (forall i, j {:trigger ComesBefore(steps, q[i].path, q[j].path)} ::
          0 <= i < j < |q| && |q[i].path| == |q[j].path| ==> ComesBefore(steps, q[i].path, q[j].path))
    && (forall i {:trigger ExtendsEarlier(steps, q[0].path, edges[..k], q[i].path)} ::
          0 <= i < |q| && |q[i].path| == |q[0].path| + 1 ==>
          ExtendsEarlier(steps, q[0].path, edges[..k], q[i].path))
  }

  ghost predicate ExtendsEarlier(steps: seq<Step>, current: seq<Step>, edges: seq<Step>, path: seq<Step>)
    requires path != []
  {
    var front, last := path[..|path| - 1], path[|path| - 1];
    ComesBefore(steps, front, current) || (front == current && last in edges)
  }

  // The edges of the current version in the order of registration; the first k lead to
  // versions seen before.
  ghost predicate EdgesOf(steps: seq<Step>, version: string, edges: seq<Step>) {
    && SameOrder(steps, edges)
    && forall s :: s in edges <==> s in steps && s.fromVersion == version
  }

  // Between two entries of the queue.
  ghost predicate AtLayer(steps: seq<Step>, from: string, dist: map<string, nat>, queue: seq<QueueEntry>)
    requires queue != []
  {
    && Layered(queue, |queue[0].path|) && Near(dist, |queue[0].path|)
    && QueueInOrder(steps, from, queue, [], 0)
  }

  ghost predicate SearchedTo(steps: seq<Step>, from: string, to: string, visited: set<string>, done: set<string>,
                             dist: map<string, nat>, queue: seq<QueueEntry>) {
    && Explored(steps, from, to, visited, done, dist)
    && GoodQueue(steps, from, dist, queue) && Pending(visited, done, queue)
    && (queue != [] ==> AtLayer(steps, from, dist, queue))
  }

  lemma NothingLeft(steps: seq<Step>, from: string, to: string, visited: set<string>, done: set<string>,
                    dist: map<string, nat>, queue: seq<QueueEntry>)
    requires SearchedTo(steps, from, to, visited, done, dist, queue) && queue == []
    ensures forall c :: !Chain(steps, c, from, to)
  {
    forall c
      ensures !Chain(steps, c, from, to)
    {
      if Chain(steps, c, from, to) {
        NoShorterChain(steps, from, to, visited, done, dist, queue, 0, c);
      }
    }
  }

  // A version met for the first time is met along the first chain of its length.
  lemma NewIsFirst(steps: seq<Step>, from: string, to: string, visited: set<string>, done: set<string>,
                   dist: map<string, nat>, q: seq<QueueEntry>, edges: seq<Step>, k: nat)
    requires q != [] && Searching(steps, from, to, visited, done, dist, q, |q[0].path|)
    requires EdgesOf(steps, q[0].version, edges) && QueueInOrder(steps, from, q, edges, k)
    requires k < |edges| && edges[k].toVersion !in visited && RelaxedUpTo(edges, k, dist)
    ensures FirstChain(steps, from, edges[k].toVersion, q[0].path + [edges[k]])
  {
    forall other | Rivals(steps, other, from, edges[k].toVersion, q[0].path + [edges[k]])
      ensures NotAfter(steps, q[0].path + [edges[k]], other)
    {
      var front, last := other[..|q[0].path|], other[|q[0].path|];
      assert other == front + [last];
      var i := ParentQueued(steps, from, to, visited, done, dist, q, front, last);
      QueuedNotAfter(steps, from, q, edges, k, i, front);
      if i == 0 {
        FirstEdge(steps, q[0].version, edges, k, dist, last);
      }
      LongerNotAfter(steps, q[0].path, front, edges[k], last);
    }
  }

  lemma QueuedNotAfter(steps: seq<Step>, from: string, q: seq<QueueEntry>, edges: seq<Step>, k: nat, i: nat,
                       front: seq<Step>)
    requires q != [] && QueueInOrder(steps, from, q, edges, k)
    requires i < |q| && |q[i].path| == |q[0].path| == |front| && Chain(steps, front, from, q[i].version)
    ensures NotAfter(steps, q[0].path, front) && (i > 0 ==> ComesBefore(steps, q[0].path, front))
  {
    assert FirstChain(steps, from, q[i].version, q[i].path);
    assert Rivals(steps, front, from, q[i].version, q[i].path);
    if i > 0 {
      assert ComesBefore(steps, q[0].path, q[i].path);
      Transitive(steps, q[0].path, q[i].path, front);
    }
  }

  lemma LongerNotAfter(steps: seq<Step>, a: seq<Step>, b: seq<Step>, x: Step, y: Step)
    requires ComesBefore(steps, a, b) || (a == b && (x == y || Place(steps, x) < Place(steps, y)))
    ensures NotAfter(steps, a + [x], b + [y])
  {
    if ComesBefore(steps, a, b) {
      BeforeSnoc(steps, a, b, x, y);
    } else if x != y {
      LastDecides(steps, a, x, y);
    }
  }

  lemma SearchStarts(steps: seq<Step>, from: string, to: string)
    requires from != to
    ensures var q := [QueueEntry(from, [])];
      SearchedTo(steps, from, to, {from}, {}, map[from := 0], q)
  {
    var q := [QueueEntry(from, [])];
    assert q[0].version == from;
  }

  lemma OrderStarts(steps: seq<Step>, from: string, q: seq<QueueEntry>, edges: seq<Step>)
    requires q != [] && QueueInOrder(steps, from, q, [], 0)
    ensures QueueInOrder(steps, from, q, edges, 0)
  {
    assert edges[..0] == [][..0];
  }

  lemma OrderStays(steps: seq<Step>, from: string, q: seq<QueueEntry>, edges: seq<Step>, k: nat)
    requires q != [] && k < |edges| && QueueInOrder(steps, from, q, edges, k)
    ensures QueueInOrder(steps, from, q, edges, k + 1)
  {
    assert edges[..k + 1] == edges[..k] + [edges[k]];
    forall i | 0 <= i < |q| && |q[i].path| == |q[0].path| + 1
      ensures ExtendsEarlier(steps, q[0].path, edges[..k + 1], q[i].path)
    {
      assert ExtendsEarlier(steps, q[0].path, edges[..k], q[i].path);
    }
  }

  lemma OrderGrows(steps: seq<Step>, from: string, to: string, visited: set<string>, done: set<string>,
                   dist: map<string, nat>, q: seq<QueueEntry>, edges: seq<Step>, k: nat)
    requires q != [] && Searching(steps, from, to, visited, done, dist, q, |q[0].path|)
    requires EdgesOf(steps, q[0].version, edges) && QueueInOrder(steps, from, q, edges, k)
    requires k < |edges| && edges[k].toVersion !in visited && RelaxedUpTo(edges, k, dist)
    ensures QueueInOrder(steps, from, q + [QueueEntry(edges[k].toVersion, q[0].path + [edges[k]])], edges, k + 1)
  {
    NewIsFirst(steps, from, to, visited, done, dist, q, edges, k);
    OrderStays(steps, from, q, edges, k);
    forall i | 0 <= i < |q| && |q[i].path| == |q[0].path| + 1
      ensures ComesBefore(steps, q[i].path, q[0].path + [edges[k]])
    {
      assert ExtendsEarlier(steps, q[0].path, edges[..k], q[i].path);
      EarlierExtension(steps, q[0], edges, k, dist, q[i].path);
    }
    EntryInOrder(steps, from, q, edges, k, QueueEntry(edges[k].toVersion, q[0].path + [edges[k]]));
  }

  lemma EntryInOrder(steps: seq<Step>, from: string, q: seq<QueueEntry>, edges: seq<Step>, k: nat, e: QueueEntry)
    requires q != [] && k < |edges| && QueueInOrder(steps, from, q, edges, k + 1)
    requires e.path == q[0].path + [edges[k]] && FirstChain(steps, from, e.version, e.path)
    requires forall i :: 0 <= i < |q| && |q[i].path| == |e.path| ==> ComesBefore(steps, q[i].path, e.path)
    ensures QueueInOrder(steps, from, q + [e], edges, k + 1)
  {
    assert ExtendsEarlier(steps, q[0].path, edges[..k + 1], e.path) by {
      assert e.path[..|e.path| - 1] == q[0].path;
      assert edges[..k + 1][k] == edges[k];
    }
  }

  lemma EarlierExtension(steps: seq<Step>, current: QueueEntry, edges: seq<Step>, k: nat, dist: map<string, nat>,
                         path: seq<Step>)
    requires EdgesOf(steps, current.version, edges) && k < |edges| && RelaxedUpTo(edges, k, dist)
    requires edges[k].toVersion !in dist
    requires |path| == |current.path| + 1 && ExtendsEarlier(steps, current.path, edges[..k], path)
    ensures ComesBefore(steps, path, current.path + [edges[k]])
  {
    var front, last := path[..|path| - 1], path[|path| - 1];
    assert path == front + [last];
    if ComesBefore(steps, front, current.path) {
      BeforeSnoc(steps, front, current.path, last, edges[k]);
    } else {
      EarlierEdge(steps, current.version, edges, k, dist, last);
      LastDecides(steps, front, last, edges[k]);
    }
  }

  lemma EarlierEdge(steps: seq<Step>, version: string, edges: seq<Step>, k: nat, dist: map<string, nat>, last: Step)
    requires EdgesOf(steps, version, edges) && k < |edges| && RelaxedUpTo(edges, k, dist)
    requires edges[k].toVersion !in dist && last in edges[..k]
    ensures Place(steps, last) < Place(steps, edges[k])
  {
    var m :| 0 <= m < k && edges[m] == last;
    forall j | 0 <= j < k
      ensures edges[j] != edges[k]
    {
      assert Relaxed(edges[j], dist);
    }
    assert last in edges && edges[k] in edges;
    assert Place(edges, edges[k]) <= Place(edges, last) <==> Place(steps, edges[k]) <= Place(steps, last);
  }

  // The next entry: what extends the current path or earlier ones extends paths
  // earlier than the next one.
  lemma NextInOrder(steps: seq<Step>, from: string, q: seq<QueueEntry>, edges: seq<Step>)
    requires |q| > 1 && Layered(q, |q[0].path|) && QueueInOrder(steps, from, q, edges, |edges|)
    ensures QueueInOrder(steps, from, q[1..], [], 0)
  {
    var rest := q[1..];
    forall i | 0 <= i < |rest| && |rest[i].path| == |rest[0].path| + 1
      ensures ExtendsEarlier(steps, rest[0].path, [][..0], rest[i].path)
    {
      assert ExtendsEarlier(steps, q[0].path, edges[..|edges|], q[i + 1].path);
      assert ComesBefore(steps, q[0].path, q[1].path);
      var front := rest[i].path[..|rest[i].path| - 1];
      if ComesBefore(steps, front, q[0].path) {
        Transitive(steps, front, q[0].path, q[1].path);
      }
    }
  }

  // The last step of such a chain starts from a queued version of the current layer.
  lemma ParentQueued(steps: seq<Step>, from: string, to: string, visited: set<string>, done: set<string>,
                     dist: map<string, nat>, q: seq<QueueEntry>, front: seq<Step>, last: Step) returns (i: nat)
    requires q != [] && Searching(steps, from, to, visited, done, dist, q, |q[0].path|)
    requires |front| == |q[0].path| && Chain(steps, front, from, last.fromVersion)
    requires last in steps && last.toVersion !in visited
    ensures i < |q| && q[i].version == last.fromVersion && |q[i].path| == |q[0].path|
  {
    Frontier(steps, from, to, visited, done, dist, front, last.fromVersion);
    forall x | x in visited && x !in done
      ensures dist[x] >= |q[0].path|
    {
      var j := PendingPlace(steps, from, to, visited, done, dist, q, x);
    }
    assert Relaxed(last, dist) ==> last.toVersion in dist;
    i := PendingPlace(steps, from, to, visited, done, dist, q, last.fromVersion);
  }

  lemma PendingPlace(steps: seq<Step>, from: string, to: string, visited: set<string>, done: set<string>,
                     dist: map<string, nat>, q: seq<QueueEntry>, x: string) returns (i: nat)
    requires q != [] && Searching(steps, from, to, visited, done, dist, q, |q[0].path|)
    requires x in visited && x !in done
    ensures i < |q| && q[i].version == x && |q[i].path| == dist[x] >= |q[0].path|
  {
    i :| i < |q| && q[i].version == x;
    assert GoodEntry(steps, from, dist, q[i]);
  }

  lemma FirstEdge(steps: seq<Step>, version: string, edges: seq<Step>, k: nat, dist: map<string, nat>, other: Step)
    requires EdgesOf(steps, version, edges) && k < |edges| && RelaxedUpTo(edges, k, dist)
    requires edges[k].toVersion !in dist && other.toVersion == edges[k].toVersion
    requires other in steps && other.fromVersion == version
    ensures other == edges[k] || Place(steps, edges[k]) < Place(steps, other)
  {
    assert other in edges && edges[k] in edges;
    forall j | 0 <= j < k
      ensures edges[j] != edges[k] && edges[j] != other
    {
      assert Relaxed(edges[j], dist);
    }
    assert Place(edges, edges[k]) <= Place(edges, other);
  }

  // The inner loop of the search: follows every step leaving the current version,
  // stopping at the target.
  method Expand(current: QueueEntry, queue: seq<QueueEntry>, edges: seq<Step>, visited: set<string>,
                to: string, ghost steps: seq<Step>, ghost from: string, ghost done: set<string>,
                ghost dist: map<string, nat>, ghost all: set<string>)
    returns (found: Option<seq<Step>>, visited': set<string>, queue': seq<QueueEntry>,
             ghost dist': map<string, nat>)
    requires SearchedTo(steps, from, to, visited, done, dist, [current] + queue)
    requires EdgesOf(steps, current.version, edges)
    requires forall s :: s in edges ==> s.toVersion in all
    ensures found.Some? ==> Shortest(steps, found.value, from, to) && NoDuplicates(Versions(found.value, from))
    ensures found.Some? ==> FirstChain(steps, from, to, found.value)
    ensures found.None? ==>
      SearchedTo(steps, from, to, visited', done + {current.version}, dist', queue')
    ensures visited <= visited' <= visited + all && (visited' == visited ==> |queue'| == |queue|)
  {
    visited', queue', dist', found := visited, queue, dist, None;
    ghost var q := [current] + queue;
    OrderStarts(steps, from, q, edges);
    for k := 0 to |edges|
      invariant q == [current] + queue'
      invariant Searching(steps, from, to, visited', done, dist', q, |current.path|)
      invariant visited <= visited' <= visited + all && (visited' == visited ==> |queue'| == |queue|)
      invariant RelaxedUpTo(edges, k, dist') && QueueInOrder(steps, from, q, edges, k)
    {
      assert edges[k] in edges;
      if edges[k].toVersion == to {
        NewIsFirst(steps, from, to, visited', done, dist', q, edges, k);
        FoundShortest(steps, from, to, visited', done, dist', q, edges[k]);
        found := Some(current.path + [edges[k]]);
        return;
      }
      ghost var grown := dist';
      visited', queue', dist', q := Follow(current, edges[k], visited', queue', to, steps, from, done, dist', q,
                                             edges, k);
      RelaxedGrows(edges, k, grown, dist');
    }
    assert forall s :: s in edges ==> Relaxed(s, dist');
    FinishCurrent(steps, from, to, visited', done, dist', q, edges);
    assert queue' == q[1..];
  }

  // Queues the version a step leads to, unless it was seen before.
  method Follow(current: QueueEntry, edge: Step, visited: set<string>, queue: seq<QueueEntry>, to: string,
                ghost steps: seq<Step>, ghost from: string, ghost done: set<string>,
                ghost dist: map<string, nat>, ghost q: seq<QueueEntry>, ghost edges: seq<Step>, ghost k: nat)
    returns (visited': set<string>, queue': seq<QueueEntry>, ghost dist': map<string, nat>,
             ghost q': seq<QueueEntry>)
    requires q == [current] + queue
    requires Searching(steps, from, to, visited, done, dist, q, |current.path|)
    requires edge in steps && edge.fromVersion == current.version && edge.toVersion != to
    requires k < |edges| && edge == edges[k] && EdgesOf(steps, current.version, edges)
    requires RelaxedUpTo(edges, k, dist) && QueueInOrder(steps, from, q, edges, k)
    ensures q' == [current] + queue'
    ensures Searching(steps, from, to, visited', done, dist', q', |current.path|)
    ensures visited' == visited + {edge.toVersion} && (visited' == visited ==> queue' == queue)
    ensures Relaxed(edge, dist') && Extends(dist, dist')
    ensures QueueInOrder(steps, from, q', edges, k + 1)
  {
    visited', queue', dist', q' := visited, queue, dist, q;
    assert q[0] == current;
    if edge.toVersion !in visited {
      Discover(steps, from, to, visited, done, dist, q, edge);
      OrderGrows(steps, from, to, visited, done, dist, q, edges, k);
      visited' := visited + {edge.toVersion};
      dist' := dist[edge.toVersion := |current.path| + 1];
      queue' := queue + [QueueEntry(edge.toVersion, current.path + [edge])];
      q' := q + [QueueEntry(edge.toVersion, current.path + [edge])];
    } else {
      AlreadyVisited(steps, from, to, visited, done, dist, q, edge);
      OrderStays(steps, from, q, edges, k);
    }
  }

  ghost predicate Extends(dist: map<string, nat>, dist': map<string, nat>) {
    forall v :: v in dist ==> v in dist' && dist'[v] == dist[v]
  }

  lemma FoundShortest(steps: seq<Step>, from: string, to: string, visited: set<string>, done: set<string>,
                      dist: map<string, nat>, q: seq<QueueEntry>, edge: Step)
    requires q != [] && Searching(steps, from, to, visited, done, dist, q, |q[0].path|)
    requires edge in steps && edge.fromVersion == q[0].version && edge.toVersion == to
    ensures Shortest(steps, q[0].path + [edge], from, to)
    ensures NoDuplicates(Versions(q[0].path + [edge], from))
  {
    assert GoodEntry(steps, from, dist, q[0]);
    ChainSnoc(steps, q[0].path, from, edge);
    SimpleMeansNoVersionTwice(q[0].path + [edge], from);
    forall c | Chain(steps, c, from, to)
      ensures |q[0].path| + 1 <= |c|
    {
      NoShorterChain(steps, from, to, visited, done, dist, q, |q[0].path|, c);
    }
  }

  // Following a step to a version not seen before queues a simple path one longer.
  lemma Discover(steps: seq<Step>, from: string, to: string, visited: set<string>, done: set<string>,
                 dist: map<string, nat>, q: seq<QueueEntry>, s: Step)
    requires q != [] && Searching(steps, from, to, visited, done, dist, q, |q[0].path|)
    requires s in steps && s.fromVersion == q[0].version && s.toVersion !in visited && s.toVersion != to
    ensures
      var v, d := s.toVersion, |q[0].path|;
      var dist' := dist[v := d + 1];
      && Searching(steps, from, to, visited + {v}, done, dist', q + [QueueEntry(v, q[0].path + [s])], d)
      && Relaxed(s, dist')
  {
    var v, d := s.toVersion, |q[0].path|;
    assert GoodEntry(steps, from, dist, q[0]);
    assert Explored(steps, from, to, visited + {v}, done, dist[v := d + 1]);
    QueueGrows(steps, from, dist, q, s);
    PendingGrows(visited, done, q, QueueEntry(v, q[0].path + [s]));
    LayerGrows(q, QueueEntry(v, q[0].path + [s]), d);
  }

  ghost predicate RelaxedUpTo(edges: seq<Step>, k: nat, dist: map<string, nat>) {
    k <= |edges| && forall j :: 0 <= j < k ==> Relaxed(edges[j], dist)
  }

  lemma RelaxedGrows(edges: seq<Step>, k: nat, dist: map<string, nat>, dist': map<string, nat>)
    requires k < |edges| && RelaxedUpTo(edges, k, dist)
    requires Extends(dist, dist') && Relaxed(edges[k], dist')
    ensures RelaxedUpTo(edges, k + 1, dist')
  {
    forall j | 0 <= j < k
      ensures Relaxed(edges[j], dist')
    {
      assert Relaxed(edges[j], dist);
    }
  }

  lemma LayerGrows(q: seq<QueueEntry>, e: QueueEntry, d: nat)
    requires Layered(q, d) && |e.path| == d + 1
    ensures Layered(q + [e], d)
  {
  }

  lemma QueueGrows(steps: seq<Step>, from: string, dist: map<string, nat>, q: seq<QueueEntry>, s: Step)
    requires q != [] && GoodQueue(steps, from, dist, q)
    requires s in steps && s.fromVersion == q[0].version && s.toVersion !in dist
    ensures GoodQueue(steps, from, dist[s.toVersion := |q[0].path| + 1], q + [QueueEntry(s.toVersion, q[0].path + [s])])
  {
    var dist' := dist[s.toVersion := |q[0].path| + 1];
    assert GoodEntry(steps, from, dist, q[0]);
    ChainSnoc(steps, q[0].path, from, s);
    forall i | 0 <= i < |q|
      ensures GoodEntry(steps, from, dist', q[i])
    {
      assert GoodEntry(steps, from, dist, q[i]);
    }
  }

  lemma PendingGrows(visited: set<string>, done: set<string>, q: seq<QueueEntry>, e: QueueEntry)
    requires Pending(visited, done, q)
    ensures Pending(visited + {e.version}, done, q + [e])
  {
    forall v | v in visited + {e.version} && v !in done
      ensures exists i :: 0 <= i < |q + [e]| && (q + [e])[i].version == v
    {
      if v == e.version {
        assert (q + [e])[|q|].version == v;
      } else {
        var i :| 0 <= i < |q| && q[i].version == v;
        assert (q + [e])[i].version == v;
      }
    }
  }

  // A version seen before was recorded no further away than one step from here.
  lemma AlreadyVisited(steps: seq<Step>, from: string, to: string, visited: set<string>, done: set<string>,
                       dist: map<string, nat>, q: seq<QueueEntry>, s: Step)
    requires q != [] && Searching(steps, from, to, visited, done, dist, q, |q[0].path|)
    requires s.fromVersion == q[0].version && s.toVersion in visited
    ensures Relaxed(s, dist)
  {
  }

  lemma FinishCurrent(steps: seq<Step>, from: string, to: string, visited: set<string>, done: set<string>,
                      dist: map<string, nat>, q: seq<QueueEntry>, edges: seq<Step>)
    requires q != [] && Searching(steps, from, to, visited, done, dist, q, |q[0].path|)
    requires QueueInOrder(steps, from, q, edges, |edges|)
    requires forall s :: s in steps && s.fromVersion == q[0].version ==> Relaxed(s, dist)
    ensures SearchedTo(steps, from, to, visited, done + {q[0].version}, dist, q[1..])
  {
    if |q| > 1 {
      NextInOrder(steps, from, q, edges);
    }
    assert GoodEntry(steps, from, dist, q[0]);
    forall v | v in visited && v !in done + {q[0].version}
      ensures exists i :: 0 <= i < |q[1..]| && q[1..][i].version == v
    {
      var i :| 0 <= i < |q| && q[i].version == v;
      assert q[1..][i - 1].version == v;
    }
  }

  lemma {:induction false} WithoutIdShrinks(steps: seq<Step>, id: string)
    ensures |WithoutId(steps, id)| == |steps| <==> forall s :: s in steps ==> s.id != id
    ensures forall s :: s in WithoutId(steps, id) <==> s in steps && s.id != id
  {
    if steps != [] {
      WithoutIdShrinks(steps[1..], id);
      assert forall s :: s in steps <==> s == steps[0] || s in steps[1..];
    }
  }
}
