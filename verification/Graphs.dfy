// Directed graphs, walks and cycles: the vocabulary in which the dependency
// searches of the SDK are specified.
module Graphs {

  // A graph lists, for each of its keys, the successors in the order the code
  // visits them. A node that is not a key has no successors.
  type Graph<T(==)> = map<T, seq<T>>

  function Succ<T(==)>(g: Graph<T>, u: T): seq<T> {
    if u in g then g[u] else []
  }

  predicate Edge<T(==)>(g: Graph<T>, u: T, v: T) {
    v in Succ(g, u)
  }

  ghost predicate Walk<T>(g: Graph<T>, p: seq<T>) {
    p != [] && forall i :: 0 <= i < |p| - 1 ==> Edge(g, p[i], p[i + 1])
  }

  ghost predicate WalkBetween<T>(g: Graph<T>, p: seq<T>, u: T, v: T) {
    Walk(g, p) && p[0] == u && p[|p| - 1] == v
  }

  ghost predicate Reaches<T(!new)>(g: Graph<T>, u: T, v: T) {
    exists p :: WalkBetween(g, p, u, v)
  }

  // A closed walk takes at least one edge; a self-loop is one.
  ghost predicate ClosedWalk<T>(g: Graph<T>, p: seq<T>) {
    Walk(g, p) && |p| >= 2 && p[0] == p[|p| - 1]
  }

  ghost predicate OnCycle<T(!new)>(g: Graph<T>, u: T) {
    exists p :: ClosedWalk(g, p) && p[0] == u
  }

  ghost predicate ReachesCycle<T(!new)>(g: Graph<T>, u: T) {
    exists v :: Reaches(g, u, v) && OnCycle(g, v)
  }

  ghost predicate Acyclic<T(!new)>(g: Graph<T>) {
    forall u :: !OnCycle(g, u)
  }

  lemma ReachesSelf<T(!new)>(g: Graph<T>, u: T)
    ensures Reaches(g, u, u)
  {
    assert WalkBetween(g, [u], u, u);
  }

  lemma WalkConcat<T(!new)>(g: Graph<T>, p: seq<T>, q: seq<T>)
    requires Walk(g, p) && Walk(g, q) && p[|p| - 1] == q[0]
    ensures WalkBetween(g, p + q[1..], p[0], q[|q| - 1])
  {
    var r := p + q[1..];
    forall i | 0 <= i < |r| - 1
      ensures Edge(g, r[i], r[i + 1])
    {
      if i >= |p| - 1 {
        assert r[i] == q[i - |p| + 1] && r[i + 1] == q[i - |p| + 2];
      }
    }
  }

  lemma WalkSnoc<T(!new)>(g: Graph<T>, p: seq<T>, v: T)
    requires p == [] || (Walk(g, p) && Edge(g, p[|p| - 1], v))
    ensures Walk(g, p + [v])
  {
    var r := p + [v];
    forall i | 0 <= i < |r| - 1
      ensures Edge(g, r[i], r[i + 1])
    {
      if i == |p| - 1 {
        assert r[i + 1] == v;
      }
    }
  }

  lemma ReachesTransitive<T(!new)>(g: Graph<T>, u: T, v: T, w: T)
    requires Reaches(g, u, v) && Reaches(g, v, w)
    ensures Reaches(g, u, w)
  {
    var p :| WalkBetween(g, p, u, v);
    var q :| WalkBetween(g, q, v, w);
    WalkConcat(g, p, q);
  }

  lemma ReachesEdge<T(!new)>(g: Graph<T>, u: T, v: T)
    requires Edge(g, u, v)
    ensures Reaches(g, u, v)
  {
    assert WalkBetween(g, [u, v], u, v);
  }

  // Every node of a walk reaches its last node.
  lemma WalkSuffix<T(!new)>(g: Graph<T>, p: seq<T>, i: nat)
    requires Walk(g, p) && i < |p|
    ensures WalkBetween(g, p[i..], p[i], p[|p| - 1])
    ensures Reaches(g, p[i], p[|p| - 1])
  {
    var q := p[i..];
    assert forall k :: 0 <= k < |q| ==> q[k] == p[i + k];
    assert WalkBetween(g, q, p[i], p[|p| - 1]);
  }

  lemma WalkPrefix<T(!new)>(g: Graph<T>, p: seq<T>, i: nat)
    requires Walk(g, p) && i < |p|
    ensures WalkBetween(g, p[..i + 1], p[0], p[i])
    ensures Reaches(g, p[0], p[i])
  {
    assert WalkBetween(g, p[..i + 1], p[0], p[i]);
  }

  // A walk into a cycle, as ReachesCycle promises it.
  lemma CycleWitness<T(!new)>(g: Graph<T>, u: T) returns (p: seq<T>)
    requires ReachesCycle(g, u)
    ensures Walk(g, p) && p[0] == u && OnCycle(g, p[|p| - 1])
  {
    var v :| Reaches(g, u, v) && OnCycle(g, v);
    p :| WalkBetween(g, p, u, v);
  }

  // Stepping back along an edge keeps a cycle in reach.
  lemma ReachesCycleBack<T(!new)>(g: Graph<T>, u: T, v: T)
    requires Reaches(g, u, v) && ReachesCycle(g, v)
    ensures ReachesCycle(g, u)
  {
    var w :| Reaches(g, v, w) && OnCycle(g, w);
    ReachesTransitive(g, u, v, w);
  }

  // A node from which a cycle is in reach has a successor from which it still is.
  lemma ReachesCycleForward<T(!new)>(g: Graph<T>, u: T) returns (v: T)
    requires ReachesCycle(g, u)
    ensures Edge(g, u, v) && ReachesCycle(g, v)
  {
    var w :| Reaches(g, u, w) && OnCycle(g, w);
    var p :| WalkBetween(g, p, u, w);
    var c :| ClosedWalk(g, c) && c[0] == w;
    if |p| == 1 {
      v := c[1];
      WalkSuffix(g, c, 1);
      assert Reaches(g, v, w);
    } else {
      v := p[1];
      WalkSuffix(g, p, 1);
      assert Reaches(g, v, w);
    }
    assert Edge(g, u, v);
  }

  // A node is clear of cycles once all of its successors are.
  lemma NoCycleBelow<T(!new)>(g: Graph<T>, u: T)
    requires forall v :: Edge(g, u, v) ==> !ReachesCycle(g, v)
    ensures !ReachesCycle(g, u)
  {
    if ReachesCycle(g, u) {
      var v := ReachesCycleForward(g, u);
    }
  }

  // A walk whose last node has an edge back to one of its nodes contains a cycle,
  // and every node of the walk reaches it.
  lemma BackEdge<T(!new)>(g: Graph<T>, p: seq<T>, i: nat)
    requires Walk(g, p) && i < |p| && Edge(g, p[|p| - 1], p[i])
    ensures ClosedWalk(g, p[i..] + [p[i]])
    ensures OnCycle(g, p[i])
    ensures ReachesCycle(g, p[|p| - 1])
  {
    WalkSuffix(g, p, i);
    WalkConcat(g, p[i..], [p[|p| - 1], p[i]]);
    assert [p[|p| - 1], p[i]][1..] == [p[i]];
    assert ClosedWalk(g, p[i..] + [p[i]]);
    ReachesEdge(g, p[|p| - 1], p[i]);
  }

  // When the last node of a walk reaches a cycle, all of the walk does.
  lemma WalkReachesCycle<T(!new)>(g: Graph<T>, p: seq<T>)
    requires Walk(g, p) && ReachesCycle(g, p[|p| - 1])
    ensures forall i :: 0 <= i < |p| ==> ReachesCycle(g, p[i])
  {
    forall i | 0 <= i < |p|
      ensures ReachesCycle(g, p[i])
    {
      WalkSuffix(g, p, i);
      ReachesCycleBack(g, p[i], p[|p| - 1]);
    }
  }

  // Only keys have successors, so only keys can lie on a cycle.
  lemma CyclesAreAmongKeys<T(!new)>(g: Graph<T>, u: T)
    requires OnCycle(g, u)
    ensures u in g && ReachesCycle(g, u)
  {
    var p :| ClosedWalk(g, p) && p[0] == u;
    assert Edge(g, p[0], p[1]);
    ReachesSelf(g, u);
  }

  // A set closed under successors contains everything reachable from its members.
  lemma ClosedContainsReachable<T(!new)>(g: Graph<T>, s: set<T>, u: T, v: T)
    requires forall x, y :: x in s && Edge(g, x, y) ==> y in s
    requires u in s && Reaches(g, u, v)
    ensures v in s
  {
    var p :| WalkBetween(g, p, u, v);
    WalkStaysInClosed(g, s, p);
  }

  lemma {:induction false} WalkStaysInClosed<T(!new)>(g: Graph<T>, s: set<T>, p: seq<T>)
    requires forall x, y :: x in s && Edge(g, x, y) ==> y in s
    requires Walk(g, p) && p[0] in s
    ensures p[|p| - 1] in s
  {
    if |p| > 1 {
      WalkPrefix(g, p, |p| - 2);
      WalkStaysInClosed(g, s, p[..|p| - 1]);
      assert Edge(g, p[|p| - 2], p[|p| - 1]);
    }
  }

  // The nodes from which a cycle is in reach, named so that searches can speak of
  // them without unfolding what reaching a cycle means.
  ghost predicate IsCycleSet<T(!new)>(g: Graph<T>, bad: set<T>) {
    forall u {:trigger ReachesCycle(g, u)} :: u in bad <==> ReachesCycle(g, u)
  }

  ghost function CycleSet<T(!new)>(g: Graph<T>): (bad: set<T>)
    ensures IsCycleSet(g, bad)
  {
    var bad := set u | u in g && ReachesCycle(g, u);
    assert IsCycleSet(g, bad) by {
      forall u | ReachesCycle(g, u)
        ensures u in g
      {
        var v := ReachesCycleForward(g, u);
      }
    }
    bad
  }

  lemma BadFromBackEdge<T(!new)>(g: Graph<T>, bad: set<T>, p: seq<T>, v: T)
    requires IsCycleSet(g, bad) && Walk(g, p) && Edge(g, p[|p| - 1], v)
    requires v in p || v in bad
    ensures forall i :: 0 <= i < |p| ==> p[i] in bad
  {
    var last := p[|p| - 1];
    assert ReachesCycle(g, last) by {
      if v in p {
        var i :| 0 <= i < |p| && p[i] == v;
        BackEdge(g, p, i);
      } else {
        assert v in bad <==> ReachesCycle(g, v);
        ReachesEdge(g, last, v);
        ReachesCycleBack(g, last, v);
      }
    }
    WalkReachesCycle(g, p);
  }

  lemma NotBadBelow<T(!new)>(g: Graph<T>, bad: set<T>, u: T)
    requires IsCycleSet(g, bad)
    requires forall v :: Edge(g, u, v) ==> v !in bad
    ensures u !in bad
  {
    assert u in bad <==> ReachesCycle(g, u);
    forall v | Edge(g, u, v)
      ensures !ReachesCycle(g, v)
    {
      assert v in bad <==> ReachesCycle(g, v);
    }
    NoCycleBelow(g, u);
  }
}
