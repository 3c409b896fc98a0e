// src/types/migration.ts: the steps, plans and reports shared by the migration
// registry and the migration runner.
module Migrations {
  import opened OrderedSets

  // A registered step. Within one contract its id names it, and with it the
  // functions that migrate and roll back states.
  datatype Step = Step(id: string, fromVersion: string, toVersion: string)

  datatype Plan = Plan(contractId: string, fromVersion: string, toVersion: string, steps: seq<Step>)

  // A chain of registered steps, each starting where the one before ended.
  ghost predicate Chain(steps: seq<Step>, c: seq<Step>, u: string, v: string) {
    if c == [] then u == v
    else
      var last := c[|c| - 1];
      last in steps && last.toVersion == v && Chain(steps, c[..|c| - 1], u, last.fromVersion)
  }

  // The versions a chain from u passes through, u included.
  function Versions(c: seq<Step>, u: string): seq<string> {
    if c == [] then [u] else Versions(c[..|c| - 1], u) + [c[|c| - 1].toVersion]
  }

  ghost function VersionSet(c: seq<Step>, u: string): set<string> {
    if c == [] then {u} else VersionSet(c[..|c| - 1], u) + {c[|c| - 1].toVersion}
  }

  // No step leads back to a version passed before.
  ghost predicate Simple(c: seq<Step>, u: string) {
    c == [] || (Simple(c[..|c| - 1], u) && c[|c| - 1].toVersion !in VersionSet(c[..|c| - 1], u))
  }

  lemma ChainSnoc(steps: seq<Step>, c: seq<Step>, u: string, s: Step)
    requires s in steps && Chain(steps, c, u, s.fromVersion)
    ensures Chain(steps, c + [s], u, s.toVersion)
    ensures VersionSet(c + [s], u) == VersionSet(c, u) + {s.toVersion}
    ensures Simple(c, u) && s.toVersion !in VersionSet(c, u) ==> Simple(c + [s], u)
  {
    assert (c + [s])[..|c|] == c;
  }

  lemma {:induction false} SimpleMeansNoVersionTwice(c: seq<Step>, u: string)
    requires Simple(c, u)
    ensures NoDuplicates(Versions(c, u))
    ensures forall v :: v in Versions(c, u) <==> v in VersionSet(c, u)
  {
    if c != [] {
      SimpleMeansNoVersionTwice(c[..|c| - 1], u);
    }
  }
}
