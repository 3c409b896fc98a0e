// axionvera-abi-versioning/src/registry/abiVersionRegistry.ts: ABI versions of
// contracts in registration order, and detection of the version a contract runs.
module AbiVersionRegistry {
  import opened Wrappers
  import opened OrderedSets

  // fingerprint is None when the optional field is absent; rawMethods lists the raw
  // method of every logical method.
  datatype Descriptor = Descriptor(contractId: string, version: string, fingerprint: Option<seq<string>>,
                                   rawMethods: seq<string>)

  // The explicit reader's answer (None when there is no reader or it has no answer) and
  // the methods present on the deployed contract.
  datatype Probe = Probe(explicit: Option<string>, hasMethod: string -> bool)

  datatype Detection = Explicit(version: string) | Inferred(version: string, matched: seq<string>) | Unknown

  // The two maps of a registry.
  datatype Catalog = Catalog(versions: map<string, map<string, Descriptor>>, order: map<string, seq<string>>)

  const EMPTY := Catalog(map[], map[])

  function VersionsOf(cat: Catalog, c: string): map<string, Descriptor> {
    if c in cat.versions then cat.versions[c] else map[]
  }

  function OrderOf(cat: Catalog, c: string): seq<string> {
    if c in cat.order then cat.order[c] else []
  }

  function Registering(cat: Catalog, d: Descriptor): Catalog {
    var order := OrderOf(cat, d.contractId);
    Catalog(cat.versions[d.contractId := VersionsOf(cat, d.contractId)[d.version := d]],
            if d.version in order then cat.order else cat.order[d.contractId := order + [d.version]])
  }

  function Unregistering(cat: Catalog, c: string, v: string): Catalog {
    if v !in VersionsOf(cat, c) then cat
    else Catalog(cat.versions[c := VersionsOf(cat, c) - {v}], cat.order[c := Remove(OrderOf(cat, c), v)])
  }

  // The order lists every registered version once and nothing else.
  ghost predicate Consistent(cat: Catalog) {
    forall c ::
      && NoDuplicates(OrderOf(cat, c))
      && forall v :: v in OrderOf(cat, c) <==> v in VersionsOf(cat, c)
  }

  // ---------- Histories ----------

  datatype Call = Register(d: Descriptor) | Unregister(contractId: string, version: string)

  function After(history: seq<Call>): Catalog {
    if history == [] then EMPTY
    else
      var before := After(history[..|history| - 1]);
      match history[|history| - 1]
      case Register(d) => Registering(before, d)
      case Unregister(c, v) => Unregistering(before, c, v)
  }

  // A version's registration: the call that introduced it, the latest call that
  // registered it, and the descriptor this one gave.
  datatype Standing = Standing(birth: nat, latest: nat, descriptor: Descriptor)

  function StandingOf(history: seq<Call>, c: string, v: string): (r: Option<Standing>)
    ensures r.Some? ==> r.value.birth <= r.value.latest < |history|
  {
    if history == [] then None
    else
      var last := |history| - 1;
      var before := StandingOf(history[..last], c, v);
      match history[last]
      case Register(d) =>
        if d.contractId != c || d.version != v then before
        else Some(Standing(if before.Some? then before.value.birth else last, last, d))
      case Unregister(c', v') => if c' == c && v' == v then None else before
  }

  ghost predicate SameVersions(history: seq<Call>, versions: map<string, Descriptor>, c: string) {
    forall v ::
      && (v in versions <==> StandingOf(history, c, v).Some?)
      && (v in versions ==> StandingOf(history, c, v).value.descriptor == versions[v])
  }

  ghost predicate BornBefore(history: seq<Call>, c: string, v: string, w: string) {
    var x, y := StandingOf(history, c, v), StandingOf(history, c, w);
    x.Some? && y.Some? && x.value.birth < y.value.birth
  }

  ghost predicate ByBirth(history: seq<Call>, order: seq<string>, c: string) {
    forall i, j :: 0 <= i < j < |order| ==> BornBefore(history, c, order[i], order[j])
  }

  ghost predicate SameMembers(order: seq<string>, versions: map<string, Descriptor>) {
    forall v :: v in order <==> v in versions
  }

  // After any calls a contract's versions are the ones registered and not unregistered
  // since, each with its latest descriptor, listed by when they were introduced:
  // replacing a descriptor keeps its place, unregistering gives the place up.
  lemma {:induction false} RegistryFollowsHistory(history: seq<Call>, c: string)
    ensures SameVersions(history, VersionsOf(After(history), c), c)
    ensures SameMembers(OrderOf(After(history), c), VersionsOf(After(history), c))
    ensures ByBirth(history, OrderOf(After(history), c), c)
    decreases |history|
  {
    if history != [] {
      var before := history[..|history| - 1];
      RegistryFollowsHistory(before, c);
      CallKeepsVersions(history, c);
      CallKeepsMembers(history, c);
      match history[|history| - 1]
      case Register(d) => RegisterKeepsOrder(history, c, d);
      case Unregister(c', v) => UnregisterKeepsOrder(history, c, c', v);
    }
  }

  lemma CallKeepsVersions(history: seq<Call>, c: string)
    requires history != []
    requires var before := history[..|history| - 1];
      SameVersions(before, VersionsOf(After(before), c), c)
    ensures SameVersions(history, VersionsOf(After(history), c), c)
  {
    var before := history[..|history| - 1];
    forall v
      ensures v in VersionsOf(After(history), c) <==> StandingOf(history, c, v).Some?
      ensures v in VersionsOf(After(history), c) ==>
                StandingOf(history, c, v).value.descriptor == VersionsOf(After(history), c)[v]
    {
      assert v in VersionsOf(After(before), c) <==> StandingOf(before, c, v).Some?;
    }
  }

  lemma CallKeepsMembers(history: seq<Call>, c: string)
    requires history != []
    requires var before := history[..|history| - 1];
      SameMembers(OrderOf(After(before), c), VersionsOf(After(before), c))
    ensures SameMembers(OrderOf(After(history), c), VersionsOf(After(history), c))
  {
  }

  lemma RegisterKeepsOrder(history: seq<Call>, c: string, d: Descriptor)
    requires history != [] && history[|history| - 1] == Register(d)
    requires var before := history[..|history| - 1];
      && SameVersions(before, VersionsOf(After(before), c), c)
      && SameMembers(OrderOf(After(before), c), VersionsOf(After(before), c))
      && ByBirth(before, OrderOf(After(before), c), c)
    ensures ByBirth(history, OrderOf(After(history), c), c)
  {
    var before := history[..|history| - 1];
    var was := OrderOf(After(before), c);
    Transfer(before, history, was, c);
    if d.contractId == c && d.version !in was {
      assert StandingOf(before, c, d.version).None?;
      Snoc(history, was, d.version, c);
    }
  }

  lemma UnregisterKeepsOrder(history: seq<Call>, c: string, c': string, v: string)
    requires history != [] && history[|history| - 1] == Unregister(c', v)
    requires var before := history[..|history| - 1];
      && SameVersions(before, VersionsOf(After(before), c), c)
      && SameMembers(OrderOf(After(before), c), VersionsOf(After(before), c))
      && ByBirth(before, OrderOf(After(before), c), c)
    ensures ByBirth(history, OrderOf(After(history), c), c)
  {
    var before := history[..|history| - 1];
    var was, now := OrderOf(After(before), c), OrderOf(After(history), c);
    if c' == c && v in VersionsOf(After(before), c) {
      RemoveKeepsBirths(before, was, v, c);
    }
    assert forall w :: w in now ==> !(c' == c && w == v);
    Transfer(before, history, now, c);
  }

  lemma Transfer(before: seq<Call>, history: seq<Call>, order: seq<string>, c: string)
    requires ByBirth(before, order, c)
    requires forall v :: v in order && StandingOf(before, c, v).Some? ==>
      && StandingOf(history, c, v).Some?
      && StandingOf(history, c, v).value.birth == StandingOf(before, c, v).value.birth
    ensures ByBirth(history, order, c)
  {
    forall i, j | 0 <= i < j < |order|
      ensures BornBefore(history, c, order[i], order[j])
    {
      assert BornBefore(before, c, order[i], order[j]);
    }
  }

  lemma Snoc(history: seq<Call>, order: seq<string>, v: string, c: string)
    requires ByBirth(history, order, c) && forall w :: w in order ==> BornBefore(history, c, w, v)
    ensures ByBirth(history, order + [v], c)
  {
  }

  lemma {:induction false} RemoveKeepsBirths(history: seq<Call>, order: seq<string>, v: string, c: string)
    requires ByBirth(history, order, c)
    ensures ByBirth(history, Remove(order, v), c)
  {
    if order != [] {
      var rest := order[1..];
      forall i, j | 0 <= i < j < |rest|
        ensures BornBefore(history, c, rest[i], rest[j])
      {
        assert rest[i] == order[i + 1] && rest[j] == order[j + 1];
      }
      RemoveKeepsBirths(history, rest, v, c);
      var kept := Remove(rest, v);
      forall j | 0 <= j < |kept|
        ensures BornBefore(history, c, order[0], kept[j])
      {
        assert kept[j] in rest;
        var k :| 0 <= k < |rest| && rest[k] == kept[j];
        assert order[k + 1] == kept[j];
      }
      Cons(history, order[0], kept, c);
    }
  }

  lemma Cons(history: seq<Call>, v: string, order: seq<string>, c: string)
    requires ByBirth(history, order, c) && forall j :: 0 <= j < |order| ==> BornBefore(history, c, v, order[j])
    ensures ByBirth(history, [v] + order, c)
  {
  }

  // So after any calls the two maps agree.
  lemma HistoriesAreConsistent(history: seq<Call>)
    ensures Consistent(After(history))
  {
    forall c
      ensures NoDuplicates(OrderOf(After(history), c))
      ensures forall v :: v in OrderOf(After(history), c) <==> v in VersionsOf(After(history), c)
    {
      RegistryFollowsHistory(history, c);
      var order := OrderOf(After(history), c);
      assert forall i, j :: 0 <= i < j < |order| ==> BornBefore(history, c, order[i], order[j]);
    }
  }

  // Hence the last version listed need not be the most recently registered one.
  lemma LatestNeedNotBeMostRecent()
    ensures OrderOf(After([Register(Vault("v1")), Register(Vault("v2")), Register(Vault("v1"))]), "Vault")
            == ["v1", "v2"]
  {
    var h1 := [Register(Vault("v1"))];
    var h2 := h1 + [Register(Vault("v2"))];
    assert [] + h1 == h1 && h2 + h1 == [Register(Vault("v1")), Register(Vault("v2")), Register(Vault("v1"))];
    OneMoreCall([], Register(Vault("v1")), "v1");
    OneMoreCall(h1, Register(Vault("v2")), "v1");
    OneMoreCall(h2, Register(Vault("v1")), "v1");
  }

  // v is the standing version whose registration is the most recent.
  ghost predicate MostRecent(history: seq<Call>, c: string, v: string) {
    && StandingOf(history, c, v).Some?
    && forall w :: StandingOf(history, c, w).Some? && w != v ==>
         StandingOf(history, c, w).value.latest < StandingOf(history, c, v).value.latest
  }

  // v is the standing version introduced last.
  ghost predicate Youngest(history: seq<Call>, c: string, v: string) {
    StandingOf(history, c, v).Some? &&
    forall w :: StandingOf(history, c, w).Some? && w != v ==> BornBefore(history, c, w, v)
  }

  // No two standing versions have the same latest registration.
  lemma {:induction false} LatestIsItsOwn(history: seq<Call>, c: string, v: string)
    requires StandingOf(history, c, v).Some?
    ensures history[StandingOf(history, c, v).value.latest] == Register(StandingOf(history, c, v).value.descriptor)
    ensures StandingOf(history, c, v).value.descriptor.version == v
    decreases |history|
  {
    var last := |history| - 1;
    var before := history[..last];
    if history[last].Register? && history[last].d.contractId == c && history[last].d.version == v {
    } else {
      LatestIsItsOwn(before, c, v);
    }
  }

  // There is a most recently registered version whenever any stands.
  lemma {:induction false} SomeMostRecent(history: seq<Call>, c: string, order: seq<string>) returns (v: string)
    requires order != [] && forall w :: w in order ==> StandingOf(history, c, w).Some?
    ensures v in order
    ensures forall w :: w in order && w != v ==>
      StandingOf(history, c, w).value.latest < StandingOf(history, c, v).value.latest
  {
    var n := |order| - 1;
    v := order[n];
    if n > 0 {
      var u := SomeMostRecent(history, c, order[..n]);
      assert forall w :: w in order <==> w in order[..n] || w == order[n];
      LatestIsItsOwn(history, c, u);
      LatestIsItsOwn(history, c, order[n]);
      if StandingOf(history, c, order[n]).value.latest <= StandingOf(history, c, u).value.latest {
        v := u;
      }
    }
  }

  // Over every history, the last version listed is the youngest one, and it is the
  // most recently registered one exactly when no version was registered again after
  // the youngest was last registered.
  lemma LatestIsMostRecentIff(history: seq<Call>, c: string)
    requires OrderOf(After(history), c) != []
    ensures var order := OrderOf(After(history), c);
      var last := order[|order| - 1];
      && Youngest(history, c, last)
      && (exists v :: MostRecent(history, c, v))
      && (MostRecent(history, c, last) <==> exists v :: MostRecent(history, c, v) && Youngest(history, c, v))
  {
    var order := OrderOf(After(history), c);
    var last := order[|order| - 1];
    LastIsYoungest(history, c);
    RegistryFollowsHistory(history, c);
    var v := SomeMostRecent(history, c, order);
    assert MostRecent(history, c, v);
    forall u | MostRecent(history, c, u) && Youngest(history, c, u)
      ensures u == last
    {
      YoungestIsUnique(history, c, u, last);
    }
  }

  lemma LastIsYoungest(history: seq<Call>, c: string)
    requires OrderOf(After(history), c) != []
    ensures var order := OrderOf(After(history), c); Youngest(history, c, order[|order| - 1])
  {
    var order := OrderOf(After(history), c);
    var n := |order| - 1;
    RegistryFollowsHistory(history, c);
    assert order[n] in order;
    forall w | StandingOf(history, c, w).Some? && w != order[n]
      ensures BornBefore(history, c, w, order[n])
    {
      var i :| 0 <= i < |order| && order[i] == w;
    }
  }

  lemma YoungestIsUnique(history: seq<Call>, c: string, v: string, w: string)
    requires Youngest(history, c, v) && Youngest(history, c, w)
    ensures v == w
  {
  }

  function Vault(version: string): Descriptor {
    Descriptor("Vault", version, None, [])
  }

  lemma OneMoreCall(history: seq<Call>, call: Call, v: string)
    ensures var before := StandingOf(history, "Vault", v);
      StandingOf(history + [call], "Vault", v) ==
      match call
      case Register(d) =>
        if d.contractId != "Vault" || d.version != v then before
        else Some(Standing(if before.Some? then before.value.birth else |history|, |history|, d))
      case Unregister(c, w) => if c == "Vault" && w == v then None else before
    ensures After(history + [call]) ==
      match call
      case Register(d) => Registering(After(history), d)
      case Unregister(c, w) => Unregistering(After(history), c, w)
  {
    assert (history + [call])[..|history|] == history;
  }

  // An unregistration can bring it about too: of v1, v2, v1 and v3, with v3 gone
  // again, v2 is the last one listed and v1 the most recently registered.
  lemma LatestAfterUnregisteringExample()
    ensures var h := [Register(Vault("v1")), Register(Vault("v2")), Register(Vault("v1"))];
      var history := h + [Register(Vault("v3"))] + [Unregister("Vault", "v3")];
      OrderOf(After(history), "Vault") == ["v1", "v2"] && MostRecent(history, "Vault", "v1")
  {
    var h := [Register(Vault("v1")), Register(Vault("v2")), Register(Vault("v1"))];
    var longer := h + [Register(Vault("v3"))];
    var history := longer + [Unregister("Vault", "v3")];
    OrderInExample();
    StandingInExample();
    forall v
      ensures StandingOf(history, "Vault", v) == if v == "v3" then None else StandingOf(h, "Vault", v)
    {
      OneMoreCall(h, Register(Vault("v3")), v);
      OneMoreCall(longer, Unregister("Vault", "v3"), v);
    }
  }

  lemma OrderInExample()
    ensures var h := [Register(Vault("v1")), Register(Vault("v2")), Register(Vault("v1"))];
      OrderOf(After(h + [Register(Vault("v3"))] + [Unregister("Vault", "v3")]), "Vault") == ["v1", "v2"]
  {
    var h := [Register(Vault("v1")), Register(Vault("v2")), Register(Vault("v1"))];
    var longer := h + [Register(Vault("v3"))];
    LatestNeedNotBeMostRecent();
    OneMoreCall(h, Register(Vault("v3")), "v3");
    OneMoreCall(longer, Unregister("Vault", "v3"), "v3");
    assert OrderOf(After(longer), "Vault") == ["v1", "v2"] + ["v3"];
    RemoveLast(["v1", "v2"], "v3");
  }

  lemma StandingInExample()
    ensures var h := [Register(Vault("v1")), Register(Vault("v2")), Register(Vault("v1"))];
      && StandingOf(h, "Vault", "v1") == Some(Standing(0, 2, Vault("v1")))
      && StandingOf(h, "Vault", "v2") == Some(Standing(1, 1, Vault("v2")))
      && forall v :: StandingOf(h, "Vault", v).Some? ==> v in ["v1", "v2"]
  {
    var h1 := [Register(Vault("v1"))];
    var h2 := h1 + [Register(Vault("v2"))];
    assert [] + h1 == h1 && h2 + h1 == [Register(Vault("v1")), Register(Vault("v2")), Register(Vault("v1"))];
    forall v
      ensures StandingOf(h2 + h1, "Vault", v) ==
              if v == "v1" then Some(Standing(0, 2, Vault("v1")))
              else if v == "v2" then Some(Standing(1, 1, Vault("v2"))) else None
    {
      OneMoreCall([], Register(Vault("v1")), v);
      OneMoreCall(h1, Register(Vault("v2")), v);
      OneMoreCall(h2, Register(Vault("v1")), v);
    }
  }

  // Registering a version leaves it last exactly when it was new or already last.
  lemma RegisteredIsLastIff(history: seq<Call>, d: Descriptor)
    ensures var was := OrderOf(After(history), d.contractId);
      var now := OrderOf(After(history + [Register(d)]), d.contractId);
      && now != []
      && (now[|now| - 1] == d.version <==> d.version !in was || was[|was| - 1] == d.version)
  {
    assert (history + [Register(d)])[..|history|] == history;
  }

  // ---------- Detection ----------

  function Distinct(s: seq<string>): (r: seq<string>)
    ensures NoDuplicates(r) && (forall x :: x in r <==> x in s)
    ensures r == [] <==> s == []
  {
    if s == [] then [] else Insert(Distinct(s[..|s| - 1]), s[|s| - 1])
  }

  // Each member at its first occurrence.
  lemma {:induction false} DistinctKeepsFirst(s: seq<string>) returns (places: seq<nat>)
    ensures PickedFrom(s, Distinct(s), places)
    ensures forall k :: 0 <= k < |places| ==> s[places[k]] !in s[..places[k]]
  {
    places := [];
    if s != [] {
      var n: nat := |s| - 1;
      places := DistinctKeepsFirst(s[..n]);
      var before := places;
      PickedSnoc(s[..n], Distinct(s[..n]), before, s[n]);
      assert s == s[..n] + [s[n]];
      if s[n] !in s[..n] {
        places := before + [n];
      }
      forall k | 0 <= k < |places|
        ensures s[places[k]] !in s[..places[k]]
      {
        if k < |before| {
          assert s[..places[k]] == s[..n][..places[k]];
        }
      }
    }
  }

  // The methods that tell a version: its fingerprint, or else all its raw methods.
  function Telling(d: Descriptor): seq<string> {
    if d.fingerprint.Some? && d.fingerprint.value != [] then d.fingerprint.value else d.rawMethods
  }

  ghost predicate Matches(d: Descriptor, hasMethod: string -> bool) {
    Telling(d) != [] && forall m :: m in Telling(d) ==> hasMethod(m)
  }

  // A version matches when its fingerprint methods are all present or, without any
  // fingerprint, all its raw methods, of which there have to be some.
  lemma MatchesIff(d: Descriptor, hasMethod: string -> bool)
    ensures d.fingerprint.Some? && d.fingerprint.value != [] ==>
      (Matches(d, hasMethod) <==> forall m :: m in d.fingerprint.value ==> hasMethod(m))
    ensures d.fingerprint.None? || d.fingerprint.value == [] ==>
      (Matches(d, hasMethod) <==> d.rawMethods != [] && forall m :: m in d.rawMethods ==> hasMethod(m))
  {
  }

  ghost predicate MatchAt(cat: Catalog, c: string, hasMethod: string -> bool, i: int)
    requires 0 <= i < |OrderOf(cat, c)|
  {
    var v := OrderOf(cat, c)[i];
    v in VersionsOf(cat, c) && Matches(VersionsOf(cat, c)[v], hasMethod)
  }

  ghost predicate IsDetection(cat: Catalog, c: string, p: Probe, r: Detection) {
    var versions := VersionsOf(cat, c);
    if p.explicit.Some? && p.explicit.value != "" && p.explicit.value in versions then r == Explicit(p.explicit.value)
    else IsInference(cat, c, p.hasMethod, r)
  }

  // The newest version listed whose telling methods are all present, if any.
  ghost predicate IsInference(cat: Catalog, c: string, hasMethod: string -> bool, r: Detection) {
    var order := OrderOf(cat, c);
    match r
    case Explicit(_) => false
    case Inferred(v, matched) =>
      exists i :: 0 <= i < |order| && order[i] == v
                  && MatchAt(cat, c, hasMethod, i)
                  && (forall j :: i < j < |order| ==> !MatchAt(cat, c, hasMethod, j))
                  && matched == Distinct(Telling(VersionsOf(cat, c)[v]))
    case Unknown =>
      forall i :: 0 <= i < |order| ==> !MatchAt(cat, c, hasMethod, i)
  }

  // The version found by a registry with this history: of the registered versions whose
  // methods are all present, the one introduced last.
  ghost predicate YoungestMatch(history: seq<Call>, c: string, hasMethod: string -> bool, v: string) {
    && IsMatch(history, c, hasMethod, v)
    && forall w :: IsMatch(history, c, hasMethod, w) && w != v ==> BornBefore(history, c, w, v)
  }

  ghost predicate IsMatch(history: seq<Call>, c: string, hasMethod: string -> bool, v: string) {
    StandingOf(history, c, v).Some? && Matches(StandingOf(history, c, v).value.descriptor, hasMethod)
  }

  // Detection over any history: the explicit version when it is registered, else the
  // youngest match, else nothing; and it is unknown only if nothing matches.
  lemma DetectionOverHistories(history: seq<Call>, c: string, p: Probe, r: Detection)
    requires IsDetection(After(history), c, p, r)
    ensures r.Explicit? <==>
            p.explicit.Some? && p.explicit.value != "" && StandingOf(history, c, p.explicit.value).Some?
    ensures r.Explicit? ==> r.version == p.explicit.value
    ensures r.Inferred? ==> YoungestMatch(history, c, p.hasMethod, r.version)
    ensures r.Unknown? ==> forall v :: !IsMatch(history, c, p.hasMethod, v)
  {
    RegistryFollowsHistory(history, c);
    if !r.Explicit? {
      InferenceOverHistories(history, c, p.hasMethod, r);
    }
  }

  lemma InferenceOverHistories(history: seq<Call>, c: string, hasMethod: string -> bool, r: Detection)
    requires IsInference(After(history), c, hasMethod, r)
    ensures r.Inferred? ==> YoungestMatch(history, c, hasMethod, r.version)
    ensures r.Unknown? ==> forall v :: !IsMatch(history, c, hasMethod, v)
  {
    if r.Inferred? {
      var order := OrderOf(After(history), c);
      var i :| 0 <= i < |order| && order[i] == r.version && MatchAt(After(history), c, hasMethod, i)
               && (forall j :: i < j < |order| ==> !MatchAt(After(history), c, hasMethod, j));
      LastMatchIsYoungest(history, c, hasMethod, i);
    } else {
      forall w
        ensures !IsMatch(history, c, hasMethod, w)
      {
        if IsMatch(history, c, hasMethod, w) {
          var j := PlaceOf(history, c, hasMethod, w);
        }
      }
    }
  }

  lemma LastMatchIsYoungest(history: seq<Call>, c: string, hasMethod: string -> bool, i: nat)
    requires i < |OrderOf(After(history), c)| && MatchAt(After(history), c, hasMethod, i)
    requires forall j :: i < j < |OrderOf(After(history), c)| ==> !MatchAt(After(history), c, hasMethod, j)
    ensures YoungestMatch(history, c, hasMethod, OrderOf(After(history), c)[i])
  {
    var order := OrderOf(After(history), c);
    PlacedIsMatch(history, c, hasMethod, i);
    forall w | IsMatch(history, c, hasMethod, w) && w != order[i]
      ensures BornBefore(history, c, w, order[i])
    {
      var j := PlaceOf(history, c, hasMethod, w);
      BornInOrder(history, c, j, i);
    }
  }

  lemma BornInOrder(history: seq<Call>, c: string, i: nat, j: nat)
    requires i < j < |OrderOf(After(history), c)|
    ensures BornBefore(history, c, OrderOf(After(history), c)[i], OrderOf(After(history), c)[j])
  {
    RegistryFollowsHistory(history, c);
  }

  lemma PlacedIsMatch(history: seq<Call>, c: string, hasMethod: string -> bool, i: nat)
    requires i < |OrderOf(After(history), c)| && MatchAt(After(history), c, hasMethod, i)
    ensures IsMatch(history, c, hasMethod, OrderOf(After(history), c)[i])
  {
    RegistryFollowsHistory(history, c);
  }

  lemma PlaceOf(history: seq<Call>, c: string, hasMethod: string -> bool, w: string) returns (j: nat)
    requires IsMatch(history, c, hasMethod, w)
    ensures var order := OrderOf(After(history), c);
      j < |order| && order[j] == w && MatchAt(After(history), c, hasMethod, j)
  {
    RegistryFollowsHistory(history, c);
    var order := OrderOf(After(history), c);
    assert w in order;
    j :| j < |order| && order[j] == w;
  }

  // ---------- The registry ----------

  class AbiVersionRegistry {
    var versionsByContract: map<string, map<string, Descriptor>>
    var orderByContract: map<string, seq<string>>

    ghost function Now(): Catalog
      reads this
    {
      Catalog(versionsByContract, orderByContract)
    }

    ghost predicate Valid()
      reads this
    {
      Consistent(Now())
    }

    constructor ()
      ensures Valid() && Now() == EMPTY
    {
      versionsByContract, orderByContract := map[], map[];
    }

    method Register(d: Descriptor)
      requires Valid()
      modifies this
      ensures Valid() && Now() == Registering(old(Now()), d)
    {
      RegisteringKeeps(Now(), d);
      var versions := if d.contractId in versionsByContract then versionsByContract[d.contractId] else map[];
      versionsByContract := versionsByContract[d.contractId := versions[d.version := d]];
      var order := ListVersions(d.contractId);
      if d.version !in order {
        orderByContract := orderByContract[d.contractId := order + [d.version]];
      }
    }

    method Unregister(c: string, v: string) returns (removed: bool)
      requires Valid()
      modifies this
      ensures Valid() && Now() == Unregistering(old(Now()), c, v)
      ensures removed <==> v in VersionsOf(old(Now()), c)
    {
      UnregisteringKeeps(Now(), c, v);
      if c !in versionsByContract {
        return false;
      }
      var versions := versionsByContract[c];
      removed := v in versions;
      if removed {
        versionsByContract := versionsByContract[c := versions - {v}];
        var order := ListVersions(c);
        orderByContract := orderByContract[c := Remove(order, v)];
      }
    }

    method ListVersions(c: string) returns (r: seq<string>)
      ensures r == OrderOf(Now(), c)
    {
      return if c in orderByContract then orderByContract[c] else [];
    }

    method Get(c: string, v: string) returns (r: Option<Descriptor>)
      ensures r == if v in VersionsOf(Now(), c) then Some(VersionsOf(Now(), c)[v]) else None
    {
      return if c in versionsByContract && v in versionsByContract[c] then Some(versionsByContract[c][v]) else None;
    }

    // No listed version is skipped for want of a descriptor.
    method List(c: string) returns (r: seq<Descriptor>)
      requires Valid()
      ensures var order := OrderOf(Now(), c);
        |r| == |order| &&
        forall i :: 0 <= i < |r| ==> order[i] in VersionsOf(Now(), c) && r[i] == VersionsOf(Now(), c)[order[i]]
    {
      r := [];
      var order := ListVersions(c);
      for i := 0 to |order|
        invariant |r| == i
        invariant forall j :: 0 <= j < i ==> order[j] in VersionsOf(Now(), c) && r[j] == VersionsOf(Now(), c)[order[j]]
      {
        assert order[i] in order;
        var d := Get(c, order[i]);
        if d.Some? {
          r := r + [d.value];
        }
      }
    }

    method GetLatestVersion(c: string) returns (r: Option<string>)
      ensures var order := OrderOf(Now(), c);
        r == if order == [] then None else Some(order[|order| - 1])
    {
      var order := ListVersions(c);
      return if order == [] then None else Some(order[|order| - 1]);
    }

    method DetectVersion(c: string, p: Probe) returns (r: Detection)
      requires Valid()
      ensures IsDetection(Now(), c, p, r)
    {
      if p.explicit.Some? && p.explicit.value != "" {
        var known := Get(c, p.explicit.value);
        if known.Some? {
          return Explicit(p.explicit.value);
        }
      }
      r := Infer(c, p.hasMethod);
    }

    // Tries the versions newest first.
    method Infer(c: string, hasMethod: string -> bool) returns (r: Detection)
      ensures IsInference(Now(), c, hasMethod, r)
    {
      var order := ListVersions(c);
      var i := |order|;
      while i > 0
        invariant 0 <= i <= |order|
        invariant forall j :: i <= j < |order| ==> !MatchAt(Now(), c, hasMethod, j)
      {
        i := i - 1;
        var d := Get(c, order[i]);
        if d.Some? {
          var matched := MatchedMethods(d.value, hasMethod);
          if matched.Some? {
            assert MatchAt(Now(), c, hasMethod, i);
            return Inferred(order[i], matched.value);
          }
        }
      }
      return Unknown;
    }
  }

  // The distinct telling methods when there are any and all are present; probing stops
  // at the first that is missing.
  method MatchedMethods(d: Descriptor, hasMethod: string -> bool) returns (r: Option<seq<string>>)
    ensures r.Some? <==> Matches(d, hasMethod)
    ensures r.Some? ==> r.value == Distinct(Telling(d))
  {
    var candidates := Distinct(Telling(d));
    if candidates == [] {
      return None;
    }
    var matched: seq<string> := [];
    for i := 0 to |candidates|
      invariant matched == candidates[..i]
      invariant forall j :: 0 <= j < i ==> hasMethod(candidates[j])
    {
      if !hasMethod(candidates[i]) {
        assert candidates[i] in Telling(d);
        return None;
      }
      matched := matched + [candidates[i]];
    }
    assert candidates[0] in Telling(d);
    return Some(matched);
  }

  lemma RegisteringKeeps(cat: Catalog, d: Descriptor)
    requires Consistent(cat)
    ensures Consistent(Registering(cat, d))
  {
    forall c
      ensures NoDuplicates(OrderOf(Registering(cat, d), c))
      ensures forall v :: v in OrderOf(Registering(cat, d), c) <==> v in VersionsOf(Registering(cat, d), c)
    {
      assert NoDuplicates(OrderOf(cat, c));
    }
  }

  lemma UnregisteringKeeps(cat: Catalog, c: string, v: string)
    requires Consistent(cat)
    ensures Consistent(Unregistering(cat, c, v))
  {
    RemoveKeepsDistinct(OrderOf(cat, c), v);
    forall k
      ensures NoDuplicates(OrderOf(Unregistering(cat, c, v), k))
      ensures forall w :: w in OrderOf(Unregistering(cat, c, v), k) <==> w in VersionsOf(Unregistering(cat, c, v), k)
    {
      assert NoDuplicates(OrderOf(cat, k));
    }
  }
}
