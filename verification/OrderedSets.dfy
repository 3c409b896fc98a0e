// JavaScript's insertion-ordered Set, as the sequence of its members in insertion order.
module OrderedSets {

  ghost predicate NoDuplicates<T>(s: seq<T>) {
    forall i, j :: 0 <= i < j < |s| ==> s[i] != s[j]
  }

  // Set.add: a member that is present keeps its place.
  function Insert<T(==,!new)>(s: seq<T>, x: T): (r: seq<T>)
    ensures forall y :: y in r <==> y in s || y == x
    ensures NoDuplicates(s) ==> NoDuplicates(r)
  {
    if x in s then s else s + [x]
  }

  // Set.delete: the other members keep their order.
  function Remove<T(==,!new)>(s: seq<T>, x: T): (r: seq<T>)
    ensures forall y :: y in r <==> y in s && y != x
  {
    if s == [] then []
    else if s[0] == x then Remove(s[1..], x)
    else [s[0]] + Remove(s[1..], x)
  }

  // r is what s holds at some increasing positions: what a filter leaves, in its order.
  ghost predicate PickedFrom<T>(s: seq<T>, r: seq<T>, places: seq<nat>) {
    && |r| == |places|
    && (forall k :: 0 <= k < |r| ==> places[k] < |s| && r[k] == s[places[k]])
    && (forall k, l :: 0 <= k < l < |r| ==> places[k] < places[l])
  }

  lemma PickedSnoc<T>(s: seq<T>, r: seq<T>, places: seq<nat>, x: T)
    requires PickedFrom(s, r, places)
    ensures PickedFrom(s + [x], r, places) && PickedFrom(s + [x], r + [x], places + [|s|])
  {
  }

  lemma {:induction false} RemoveConcat<T(!new)>(s: seq<T>, t: seq<T>, x: T)
    ensures Remove(s + t, x) == Remove(s, x) + Remove(t, x)
  {
    if s == [] {
      assert s + t == t;
    } else {
      var rest := s[1..] + t;
      assert s + t == [s[0]] + rest;
      RemoveConcat(s[1..], t, x);
      if s[0] == x {
        assert Remove(s + t, x) == Remove(rest, x);
      } else {
        assert Remove(s + t, x) == [s[0]] + Remove(rest, x);
      }
    }
  }

  lemma {:induction false} RemoveAbsent<T(!new)>(s: seq<T>, x: T)
    requires x !in s
    ensures Remove(s, x) == s
  {
    if s != [] {
      RemoveAbsent(s[1..], x);
    }
  }

  lemma RemoveLast<T(!new)>(s: seq<T>, x: T)
    requires x !in s
    ensures Remove(s + [x], x) == s
  {
    RemoveConcat(s, [x], x);
    RemoveAbsent(s, x);
  }

  lemma {:induction false} RemoveKeepsDistinct<T(!new)>(s: seq<T>, x: T)
    requires NoDuplicates(s)
    ensures NoDuplicates(Remove(s, x))
    ensures |Remove(s, x)| == if x in s then |s| - 1 else |s|
  {
    if s != [] {
      assert s == [s[0]] + s[1..];
      assert s[0] !in s[1..];
      RemoveKeepsDistinct(s[1..], x);
    }
  }

  lemma {:induction false} DistinctCounts<T(!new)>(s: seq<T>, x: T)
    requires NoDuplicates(s)
    ensures multiset(s)[x] == if x in s then 1 else 0
  {
    if s != [] {
      assert s == [s[0]] + s[1..];
      DistinctCounts(s[1..], x);
    }
  }

  // Two duplicate-free sequences with the same members are permutations of each other.
  lemma SameMembersMeansPermutation<T(!new)>(s: seq<T>, t: seq<T>)
    requires NoDuplicates(s) && NoDuplicates(t)
    requires forall x :: x in s <==> x in t
    ensures multiset(s) == multiset(t)
  {
    forall x: T
      ensures multiset(s)[x] == multiset(t)[x]
    {
      DistinctCounts(s, x);
      DistinctCounts(t, x);
    }
  }
}
