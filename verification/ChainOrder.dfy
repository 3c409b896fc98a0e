// Chains of migration steps in the order of registration: of two chains, the one whose
// first differing step was registered earlier comes first.
module ChainOrder {
  import opened Migrations

  // The place of a step in a list, or the end of the list when it is not there.
  function Place(steps: seq<Step>, s: Step): (n: nat)
    ensures n <= |steps| && (n < |steps| <==> s in steps)
    ensures n < |steps| ==> steps[n] == s
    ensures forall i :: 0 <= i < n ==> steps[i] != s
  {
    if steps == [] || steps[0] == s then 0 else 1 + Place(steps[1..], s)
  }

  ghost predicate ComesBefore(steps: seq<Step>, a: seq<Step>, b: seq<Step>) {
    exists i :: DiffersAt(steps, a, b, i)
  }

  ghost predicate DiffersAt(steps: seq<Step>, a: seq<Step>, b: seq<Step>, i: int) {
    0 <= i < |a| && i < |b| && a[..i] == b[..i] && Place(steps, a[i]) < Place(steps, b[i])
  }

  ghost predicate NotAfter(steps: seq<Step>, a: seq<Step>, b: seq<Step>) {
    a == b || ComesBefore(steps, a, b)
  }

  ghost predicate Rivals(steps: seq<Step>, other: seq<Step>, from: string, to: string, c: seq<Step>) {
    Chain(steps, other, from, to) && |other| == |c|
  }

  // No chain of the same length between the same versions comes before it.
  ghost predicate FirstChain(steps: seq<Step>, from: string, to: string, c: seq<Step>) {
    forall other {:trigger Rivals(steps, other, from, to, c)} ::
      Rivals(steps, other, from, to, c) ==> NotAfter(steps, c, other)
  }

  lemma Transitive(steps: seq<Step>, a: seq<Step>, b: seq<Step>, c: seq<Step>)
    requires ComesBefore(steps, a, b) && NotAfter(steps, b, c)
    ensures ComesBefore(steps, a, c)
  {
    var i :| DiffersAt(steps, a, b, i);
    if b != c {
      var j :| DiffersAt(steps, b, c, j);
      var k := if i < j then i else j;
      SameFront(a, b, i, k);
      SameFront(b, c, j, k);
      assert DiffersAt(steps, a, c, k);
    }
  }

  lemma SameFront(a: seq<Step>, b: seq<Step>, i: nat, k: nat)
    requires k <= i < |a| && i < |b| && a[..i] == b[..i]
    ensures a[..k] == b[..k] && (k < i ==> a[k] == b[k])
  {
    assert a[..k] == a[..i][..k] && b[..k] == b[..i][..k];
    if k < i {
      assert a[k] == a[..i][k] && b[k] == b[..i][k];
    }
  }

  lemma BeforeSnoc(steps: seq<Step>, a: seq<Step>, b: seq<Step>, x: Step, y: Step)
    requires ComesBefore(steps, a, b)
    ensures ComesBefore(steps, a + [x], b + [y])
  {
    var i :| DiffersAt(steps, a, b, i);
    assert (a + [x])[..i] == a[..i] && (b + [y])[..i] == b[..i];
    assert DiffersAt(steps, a + [x], b + [y], i);
  }

  lemma LastDecides(steps: seq<Step>, a: seq<Step>, x: Step, y: Step)
    requires Place(steps, x) < Place(steps, y)
    ensures ComesBefore(steps, a + [x], a + [y])
  {
    assert (a + [x])[..|a|] == (a + [y])[..|a|] == a;
    assert DiffersAt(steps, a + [x], a + [y], |a|);
  }

  lemma {:induction false} PlaceSnoc(steps: seq<Step>, last: Step, s: Step)
    ensures Place(steps + [last], s) ==
            if s in steps then Place(steps, s) else if s == last then |steps| else |steps| + 1
  {
    var n, m := Place(steps + [last], s), Place(steps, s);
    if s in steps {
      assert (steps + [last])[m] == s;
      assert forall i :: 0 <= i < m ==> (steps + [last])[i] == steps[i];
    } else {
      assert (steps + [last])[|steps|] == last;
      assert forall i :: 0 <= i < |steps| ==> (steps + [last])[i] == steps[i];
    }
  }

  // A selection from the steps that keeps their order.
  ghost predicate SameOrder(steps: seq<Step>, some: seq<Step>) {
    forall x, y :: x in some && y in some ==> (Place(some, x) <= Place(some, y) <==> Place(steps, x) <= Place(steps, y))
  }

  lemma SameOrderSnoc(steps: seq<Step>, some: seq<Step>, last: Step, kept: bool)
    requires SameOrder(steps, some) && (forall s :: s in some ==> s in steps)
    requires kept && last in steps ==> last in some
    ensures SameOrder(steps + [last], if kept then some + [last] else some)
  {
    var longer := if kept then some + [last] else some;
    forall x, y | x in longer && y in longer
      ensures Place(longer, x) <= Place(longer, y) <==> Place(steps + [last], x) <= Place(steps + [last], y)
    {
      PlaceSnoc(steps, last, x);
      PlaceSnoc(steps, last, y);
      PlaceSnoc(some, last, x);
      PlaceSnoc(some, last, y);
      assert Place(some, x) <= Place(some, y) <==> Place(steps, x) <= Place(steps, y);
    }
  }
}
