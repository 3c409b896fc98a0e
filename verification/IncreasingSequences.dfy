// Increasing sequences of numbers: positions in a log, requests in the order of their
// submission.
module IncreasingSequences {

  function Min(a: nat, b: nat): nat {
    if a < b then a else b
  }

  function Max(a: nat, b: nat): nat {
    if a < b then b else a
  }

  ghost predicate Increasing(s: seq<nat>) {
    forall i, j :: 0 <= i < j < |s| ==> s[i] < s[j]
  }

  // An increasing sequence within another is no longer, and equal when as long.
  lemma {:induction false} SubsequenceIsShorter(a: seq<nat>, b: seq<nat>)
    requires Increasing(a) && Increasing(b) && forall p :: p in a ==> p in b
    ensures |a| <= |b|
    ensures |a| == |b| ==> a == b
    decreases |b|
  {
    if a != [] {
      var m, n := |a| - 1, |b| - 1;
      assert a[m] in b;
      if a[m] == b[n] {
        ButLast(a, b);
        SubsequenceIsShorter(a[..m], b[..n]);
      } else {
        WithoutLast(a, b);
        SubsequenceIsShorter(a, b[..n]);
      }
    }
  }

  lemma ButLast(a: seq<nat>, b: seq<nat>)
    requires Increasing(a) && Increasing(b) && (forall p :: p in a ==> p in b)
    requires a != [] && b != [] && a[|a| - 1] == b[|b| - 1]
    ensures var front := a[..|a| - 1]; forall p :: p in front ==> p in b[..|b| - 1]
  {
    var front, rest := a[..|a| - 1], b[..|b| - 1];
    forall p | p in front
      ensures p in rest
    {
      assert p in a && p < a[|a| - 1];
      var i :| 0 <= i < |b| && b[i] == p;
      assert rest[i] == p;
    }
  }

  lemma WithoutLast(a: seq<nat>, b: seq<nat>)
    requires Increasing(a) && Increasing(b) && (forall p :: p in a ==> p in b)
    requires a != [] && b != [] && a[|a| - 1] != b[|b| - 1]
    ensures forall p :: p in a ==> p in b[..|b| - 1]
  {
    var rest := b[..|b| - 1];
    forall p | p in a
      ensures p in rest
    {
      var k :| 0 <= k < |a| && a[k] == p;
      assert a[|a| - 1] in b;
      var j :| 0 <= j < |b| && b[j] == a[|a| - 1];
      var i :| 0 <= i < |b| && b[i] == p;
      assert i < |b| - 1;
      assert rest[i] == p;
    }
  }

  // Two sequences cut at the same number are equal when both parts are.
  lemma HalvesEqualIff(a: seq<nat>, a': seq<nat>, b: seq<nat>, b': seq<nat>, mid: nat)
    requires (forall i :: 0 <= i < |a| ==> a[i] < mid) && (forall i :: 0 <= i < |a'| ==> a'[i] < mid)
    requires (forall i :: 0 <= i < |b| ==> mid <= b[i]) && (forall i :: 0 <= i < |b'| ==> mid <= b'[i])
    ensures a + b == a' + b' <==> a == a' && b == b'
  {
    if a + b == a' + b' {
      CutAt(a, b, mid);
      CutAt(a', b', mid);
      CutIsUnique(a + b, |a|, |a'|, mid);
      assert a == (a + b)[..|a|] && a' == (a' + b')[..|a'|] && b == (a + b)[|a|..] && b' == (a' + b')[|a'|..];
    }
  }

  lemma CutAt(a: seq<nat>, b: seq<nat>, mid: nat)
    requires (forall i :: 0 <= i < |a| ==> a[i] < mid) && (forall i :: 0 <= i < |b| ==> mid <= b[i])
    ensures var all := a + b; forall i :: 0 <= i < |all| ==> (all[i] < mid <==> i < |a|)
  {
  }

  lemma CutIsUnique(all: seq<nat>, m: nat, n: nat, mid: nat)
    requires m <= |all| && n <= |all|
    requires forall i :: 0 <= i < |all| ==> (all[i] < mid <==> i < m)
    requires forall i :: 0 <= i < |all| ==> (all[i] < mid <==> i < n)
    ensures m == n
  {
    var k := Min(m, n);
    if k < |all| {
      assert all[k] < mid <==> k < m;
    }
  }

  lemma EmptyIffSame(s: seq<nat>, t: seq<nat>)
    ensures s + t == t <==> forall p :: p !in s
  {
    if s != [] {
      assert s[0] in s && |s + t| > |t|;
    } else {
      assert s + t == t;
    }
  }

  lemma Regroup(a: seq<nat>, b: seq<nat>, c: seq<nat>)
    ensures a + (b + c) == (a + b) + c
  {
  }
}
