// src/network/rpcEndpointManager.ts: load balancing and failover over RPC endpoints.
module RpcEndpointManager {
  import opened Wrappers
  import opened OrderedSets

  datatype Endpoint = Endpoint(id: string, url: string, weight: real, priority: real, enabled: bool)

  datatype EndpointConfig =
    EndpointConfig(id: Option<string>, url: string, weight: Option<real>, priority: Option<real>)

  datatype Policy = RoundRobin | Weighted | LeastLatency | PrimaryFallback

  // What the health monitor knows at one moment, by endpoint id.
  datatype Health = Health(unhealthy: string -> bool, latency: string -> Option<real>)

  // What the environment answers at the attempts of one execute, counted from 0.
  datatype World<!T, !E> = World(health: nat -> Health, draw: nat -> real, call: (nat, string) -> Result<T, E>)

  datatype Failure<E> = NoEndpoints | LastError(error: E)

  // The endpoints one execute has tried, what it gave, and the round-robin index it left.
  datatype Run<T, E> = Run(tried: seq<Endpoint>, result: Result<T, Failure<E>>, rrIndex: nat)

  function EntriesOf(configs: seq<EndpointConfig>): (r: seq<Endpoint>)
    ensures |r| == |configs|
  {
    seq(|configs|, i requires 0 <= i < |configs| =>
      var c := configs[i];
      Endpoint(if c.id.Some? then c.id.value else c.url, c.url,
               if c.weight.Some? then c.weight.value else 1.0,
               if c.priority.Some? then c.priority.value else i as real,
               true))
  }

  // Without weights and priorities in the configuration, all weigh the same, and those
  // listed first come first.
  lemma DefaultsAre(configs: seq<EndpointConfig>, i: nat)
    requires i < |configs|
    ensures var e, c := EntriesOf(configs)[i], configs[i];
      && e.enabled && e.url == c.url
      && e.id == (if c.id.Some? then c.id.value else c.url)
      && e.weight == (if c.weight.Some? then c.weight.value else 1.0)
      && (c.priority.Some? ==> e.priority == c.priority.value)
    ensures (forall c :: c in configs ==> c.priority.None?) ==>
      forall j :: i < j < |configs| ==> EntriesOf(configs)[i].priority < EntriesOf(configs)[j].priority
  {
    assert forall k :: 0 <= k < |configs| ==> configs[k] in configs;
  }

  function Ids(entries: seq<Endpoint>): (r: seq<string>)
    ensures |r| == |entries| && forall i :: 0 <= i < |r| ==> r[i] == entries[i].id
  {
    seq(|entries|, i requires 0 <= i < |entries| => entries[i].id)
  }

  function IdSet(entries: seq<Endpoint>): set<string> {
    set e | e in entries :: e.id
  }

  // ---------- Candidates ----------

  predicate IsCandidate(e: Endpoint, h: Health, skipped: set<string>) {
    e.enabled && e.id !in skipped && !h.unhealthy(e.id)
  }

  function Candidates(entries: seq<Endpoint>, h: Health, skipped: set<string>): seq<Endpoint> {
    if entries == [] then []
    else if IsCandidate(entries[0], h, skipped) then [entries[0]] + Candidates(entries[1..], h, skipped)
    else Candidates(entries[1..], h, skipped)
  }

  lemma {:induction false} CandidatesAre(entries: seq<Endpoint>, h: Health, skipped: set<string>, e: Endpoint)
    ensures e in Candidates(entries, h, skipped) <==> e in entries && IsCandidate(e, h, skipped)
  {
    if entries != [] {
      CandidatesAre(entries[1..], h, skipped, e);
      assert e in entries <==> e == entries[0] || e in entries[1..];
    }
  }

  // They keep the order of the entries.
  lemma {:induction false} CandidatesInOrder(entries: seq<Endpoint>, h: Health, skipped: set<string>)
    returns (places: seq<nat>)
    ensures PickedFrom(entries, Candidates(entries, h, skipped), places)
    ensures forall i: nat :: i in places <==> i < |entries| && IsCandidate(entries[i], h, skipped)
  {
    places := [];
    if entries != [] {
      var n: nat := |entries| - 1;
      var front := Candidates(entries[..n], h, skipped);
      places := CandidatesInOrder(entries[..n], h, skipped);
      assert entries == entries[..n] + [entries[n]];
      CandidatesConcat(entries[..n], [entries[n]], h, skipped);
      PickedSnoc(entries[..n], front, places, entries[n]);
      if IsCandidate(entries[n], h, skipped) {
        places := places + [n];
      } else {
        assert front + [] == front;
      }
    }
  }

  lemma {:induction false} CandidatesConcat(a: seq<Endpoint>, b: seq<Endpoint>, h: Health, skipped: set<string>)
    ensures Candidates(a + b, h, skipped) == Candidates(a, h, skipped) + Candidates(b, h, skipped)
  {
    if a == [] {
      assert a + b == b;
    } else {
      assert (a + b)[0] == a[0] && (a + b)[1..] == a[1..] + b;
      CandidatesConcat(a[1..], b, h, skipped);
    }
  }

  function Without(pool: seq<Endpoint>, id: string): (r: seq<Endpoint>)
    ensures |r| <= |pool|
  {
    if pool == [] then []
    else if pool[0].id == id then Without(pool[1..], id)
    else [pool[0]] + Without(pool[1..], id)
  }

  lemma {:induction false} SkippingOneMore(entries: seq<Endpoint>, h: Health, skipped: set<string>, id: string)
    ensures Candidates(entries, h, skipped + {id}) == Without(Candidates(entries, h, skipped), id)
  {
    if entries != [] {
      var rest := Candidates(entries[1..], h, skipped);
      SkippingOneMore(entries[1..], h, skipped, id);
      if IsCandidate(entries[0], h, skipped) {
        WithoutCons(entries[0], rest, id);
      }
    }
  }

  lemma WithoutCons(e: Endpoint, rest: seq<Endpoint>, id: string)
    ensures Without([e] + rest, id) == if e.id == id then Without(rest, id) else [e] + Without(rest, id)
  {
    assert ([e] + rest)[1..] == rest;
  }

  // ---------- Picking ----------

  // The first endpoint of lowest priority, as the head of the stable sort.
  function PrimaryIndex(pool: seq<Endpoint>): (r: nat)
    requires pool != []
    ensures r < |pool|
    ensures forall i :: 0 <= i < |pool| ==> pool[r].priority <= pool[i].priority
    ensures forall i :: 0 <= i < r ==> pool[r].priority < pool[i].priority
  {
    var last := |pool| - 1;
    if last == 0 then 0
    else
      var best := PrimaryIndex(pool[..last]);
      if pool[last].priority < pool[best].priority then last else best
  }

  // The first endpoint of lowest measured latency, if any was measured.
  function FastestIndex(pool: seq<Endpoint>, latency: string -> Option<real>): (r: Option<nat>)
    ensures r.None? <==> forall i :: 0 <= i < |pool| ==> latency(pool[i].id).None?
    ensures r.Some? ==> r.value < |pool| && latency(pool[r.value].id).Some?
    ensures r.Some? ==> forall i :: 0 <= i < |pool| && latency(pool[i].id).Some? ==>
      && latency(pool[r.value].id).value <= latency(pool[i].id).value
      && (i < r.value ==> latency(pool[r.value].id).value < latency(pool[i].id).value)
  {
    if pool == [] then None
    else
      var last := |pool| - 1;
      var best := FastestIndex(pool[..last], latency);
      if latency(pool[last].id).None? then best
      else if best.None? || latency(pool[last].id).value < latency(pool[best.value].id).value then Some(last)
      else best
  }

  // The best measured endpoint, or the first when none was measured.
  function FastestOrFirst(pool: seq<Endpoint>, latency: string -> Option<real>): (r: nat)
    requires pool != []
    ensures r < |pool|
  {
    var best := FastestIndex(pool, latency);
    if best.None? then 0 else best.value
  }

  // The weight of the first n endpoints.
  function Cumulative(pool: seq<Endpoint>, n: nat): real
    requires n <= |pool|
  {
    if n == 0 then 0.0 else Cumulative(pool, n - 1) + pool[n - 1].weight
  }

  function TotalWeight(pool: seq<Endpoint>): real {
    Cumulative(pool, |pool|)
  }

  // The first endpoint, from i on, at which the cumulative weight covers the drawn one.
  function WeightedIndex(pool: seq<Endpoint>, drawn: real, i: nat): (r: nat)
    requires i < |pool|
    ensures i <= r < |pool|
    ensures forall j :: i < j <= r ==> Cumulative(pool, j) < drawn
    ensures r < |pool| - 1 ==> drawn <= Cumulative(pool, r + 1)
    decreases |pool| - i
  {
    if i == |pool| - 1 || drawn <= Cumulative(pool, i + 1) then i else WeightedIndex(pool, drawn, i + 1)
  }

  function PickIndex(policy: Policy, rrIndex: nat, pool: seq<Endpoint>,
                     latency: string -> Option<real>, draw: real): (r: nat)
    requires pool != []
    ensures r < |pool|
  {
    match policy
    case RoundRobin => rrIndex % |pool|
    case Weighted => WeightedIndex(pool, draw * TotalWeight(pool), 0)
    case LeastLatency => FastestOrFirst(pool, latency)
    case PrimaryFallback => PrimaryIndex(pool)
  }

  function NextIndex(policy: Policy, rrIndex: nat): nat {
    if policy.RoundRobin? then rrIndex + 1 else rrIndex
  }

  // With no negative weight, an endpoint is picked exactly when the drawn weight falls
  // in its share of the total.
  lemma WeightedDrawFallsInShare(pool: seq<Endpoint>, drawn: real, i: nat)
    requires i < |pool| && drawn <= TotalWeight(pool)
    requires forall k :: 0 <= k < |pool| ==> pool[k].weight >= 0.0
    ensures WeightedIndex(pool, drawn, 0) == i
            <==> (i == 0 || Cumulative(pool, i) < drawn) && drawn <= Cumulative(pool, i + 1)
  {
    var r := WeightedIndex(pool, drawn, 0);
    if i < r {
      assert Cumulative(pool, i + 1) < drawn;
    } else if r < i {
      CumulativeGrows(pool, r + 1, i);
    }
  }

  lemma {:induction false} CumulativeGrows(pool: seq<Endpoint>, i: nat, j: nat)
    requires i <= j <= |pool|
    requires forall k :: 0 <= k < |pool| ==> pool[k].weight >= 0.0
    ensures Cumulative(pool, i) <= Cumulative(pool, j)
    decreases j
  {
    if i < j {
      CumulativeGrows(pool, i, j - 1);
    }
  }

  // Whether a place of the pool is the policy's choice. A weighted draw chooses by the
  // shares of the weights, the least latency is that of the first fastest endpoint
  // among the measured ones or the first of all, and the primary is the first of
  // lowest priority.
  ghost predicate Chosen(policy: Policy, rrIndex: nat, pool: seq<Endpoint>, latency: string -> Option<real>,
                         draw: real, k: nat)
    requires k < |pool|
  {
    match policy
    case RoundRobin => k == rrIndex % |pool|
    case Weighted => NoNegativeWeights(pool) && 0.0 <= draw <= 1.0 ==> InShare(pool, draw * TotalWeight(pool), k)
    case LeastLatency => if NoneMeasured(pool, latency) then k == 0 else FirstFastest(pool, latency, k)
    case PrimaryFallback => FirstPrimary(pool, k)
  }

  ghost predicate NoNegativeWeights(pool: seq<Endpoint>) {
    forall i :: 0 <= i < |pool| ==> pool[i].weight >= 0.0
  }

  ghost predicate NoneMeasured(pool: seq<Endpoint>, latency: string -> Option<real>) {
    forall i :: 0 <= i < |pool| ==> latency(pool[i].id).None?
  }

  ghost predicate FirstFastest(pool: seq<Endpoint>, latency: string -> Option<real>, k: nat)
    requires k < |pool|
  {
    && latency(pool[k].id).Some?
    && forall i :: 0 <= i < |pool| && latency(pool[i].id).Some? ==>
         && latency(pool[k].id).value <= latency(pool[i].id).value
         && (i < k ==> latency(pool[k].id).value < latency(pool[i].id).value)
  }

  ghost predicate FirstPrimary(pool: seq<Endpoint>, k: nat)
    requires k < |pool|
  {
    && (forall i :: 0 <= i < |pool| ==> pool[k].priority <= pool[i].priority)
    && (forall i :: 0 <= i < k ==> pool[k].priority < pool[i].priority)
  }

  // The drawn weight falls between the weights of those before and those up to k.
  ghost predicate InShare(pool: seq<Endpoint>, drawn: real, k: nat)
    requires k < |pool|
  {
    (k == 0 || Cumulative(pool, k) < drawn) && drawn <= Cumulative(pool, k + 1)
  }

  lemma PickIsChosen(policy: Policy, rrIndex: nat, pool: seq<Endpoint>, latency: string -> Option<real>, draw: real)
    requires pool != []
    ensures Chosen(policy, rrIndex, pool, latency, draw, PickIndex(policy, rrIndex, pool, latency, draw))
  {
    match policy
    case RoundRobin =>
    case Weighted =>
      if NoNegativeWeights(pool) && 0.0 <= draw <= 1.0 {
        WeightedIsInShare(pool, draw);
      }
    case LeastLatency => FastestIsFirst(pool, latency);
    case PrimaryFallback => assert FirstPrimary(pool, PrimaryIndex(pool));
  }

  lemma WeightedIsInShare(pool: seq<Endpoint>, draw: real)
    requires pool != [] && NoNegativeWeights(pool) && 0.0 <= draw <= 1.0
    ensures InShare(pool, draw * TotalWeight(pool), WeightedIndex(pool, draw * TotalWeight(pool), 0))
  {
    CumulativeGrows(pool, 0, |pool|);
    assert Cumulative(pool, 0) == 0.0 <= TotalWeight(pool);
    var drawn := draw * TotalWeight(pool);
    PartOfTotal(draw, TotalWeight(pool), drawn);
    WeightedDrawFallsInShare(pool, drawn, WeightedIndex(pool, drawn, 0));
  }

  lemma FastestIsFirst(pool: seq<Endpoint>, latency: string -> Option<real>)
    requires pool != []
    ensures var k := FastestOrFirst(pool, latency);
      if NoneMeasured(pool, latency) then k == 0 else FirstFastest(pool, latency, k)
  {
  }

  lemma PartOfTotal(draw: real, total: real, part: real)
    requires 0.0 <= draw <= 1.0 && total >= 0.0 && part == draw * total
    ensures part <= total
  {
  }

  // ---------- One execute ----------

  function Outcome<T, E>(w: World<T, E>, tried: seq<Endpoint>): Result<T, Failure<E>> {
    if tried == [] then Err(NoEndpoints)
    else
      match w.call(|tried| - 1, tried[|tried| - 1].url)
      case Ok(v) => Ok(v)
      case Err(e) => Err(LastError(e))
  }

  // The rest of an execute after the given endpoints have been tried in vain.
  function Failover<T, E>(entries: seq<Endpoint>, policy: Policy, maxRetries: int, w: World<T, E>, tried: seq<Endpoint>,
                          rrIndex: nat): Run<T, E>
    decreases maxRetries - |tried|
  {
    var attempt := |tried|;
    var pool := Candidates(entries, w.health(attempt), IdSet(tried));
    if attempt > maxRetries || pool == [] then Run(tried, Outcome(w, tried), rrIndex)
    else
      var e := pool[PickIndex(policy, rrIndex, pool, w.health(attempt).latency, w.draw(attempt))];
      var next := NextIndex(policy, rrIndex);
      if w.call(attempt, e.url).Ok? then Run(tried + [e], Outcome(w, tried + [e]), next)
      else Failover(entries, policy, maxRetries, w, tried + [e], next)
  }

  ghost predicate Eligible<T, E>(entries: seq<Endpoint>, w: World<T, E>, tried: seq<Endpoint>) {
    forall i :: 0 <= i < |tried| ==> tried[i] in entries && IsCandidate(tried[i], w.health(i), IdSet(tried[..i]))
  }

  ghost predicate AllFailed<T, E>(w: World<T, E>, tried: seq<Endpoint>) {
    forall i :: 0 <= i < |tried| ==> w.call(i, tried[i].url).Err?
  }

  // The shape of every execute: candidates of their moment, all failing but perhaps the
  // last, within the retry budget, and giving up early only when no candidate is left.
  ghost predicate IsFailover<T, E>(entries: seq<Endpoint>, maxRetries: int, w: World<T, E>, run: Run<T, E>) {
    && Eligible(entries, w, run.tried)
    && |run.tried| <= (if maxRetries < 0 then 0 else maxRetries + 1)
    && run.result == Outcome(w, run.tried)
    && (run.tried != [] ==> AllFailed(w, run.tried[..|run.tried| - 1]))
    && (run.result.Err? && |run.tried| <= maxRetries ==>
          Candidates(entries, w.health(|run.tried|), IdSet(run.tried)) == [])
  }

  lemma {:induction false} FailoverShape<T, E>(entries: seq<Endpoint>, policy: Policy, maxRetries: int, w: World<T, E>,
                                               tried: seq<Endpoint>, rrIndex: nat)
    requires Eligible(entries, w, tried) && AllFailed(w, tried)
    requires |tried| <= (if maxRetries < 0 then 0 else maxRetries + 1)
    ensures IsFailover(entries, maxRetries, w, Failover(entries, policy, maxRetries, w, tried, rrIndex))
    decreases maxRetries - |tried|
  {
    var attempt := |tried|;
    var pool := Candidates(entries, w.health(attempt), IdSet(tried));
    if attempt > maxRetries || pool == [] {
      GivingUpShape(entries, maxRetries, w, tried, rrIndex);
    } else {
      var e := pool[PickIndex(policy, rrIndex, pool, w.health(attempt).latency, w.draw(attempt))];
      var next := NextIndex(policy, rrIndex);
      CandidatesAre(entries, w.health(attempt), IdSet(tried), e);
      OneMoreEligible(entries, w, tried, e);
      if w.call(attempt, e.url).Ok? {
        SuccessShape(entries, maxRetries, w, tried, e, next);
      } else {
        OneMoreFailed(w, tried, e);
        FailoverShape(entries, policy, maxRetries, w, tried + [e], next);
      }
    }
  }

  lemma OneMoreEligible<T, E>(entries: seq<Endpoint>, w: World<T, E>, tried: seq<Endpoint>, e: Endpoint)
    requires Eligible(entries, w, tried)
    requires e in entries && IsCandidate(e, w.health(|tried|), IdSet(tried))
    ensures Eligible(entries, w, tried + [e])
  {
    var more := tried + [e];
    forall i | 0 <= i < |more|
      ensures more[i] in entries && IsCandidate(more[i], w.health(i), IdSet(more[..i]))
    {
      assert more[..i] == tried[..i];
      if i == |tried| {
        assert tried[..i] == tried;
      }
    }
  }

  lemma OneMoreFailed<T, E>(w: World<T, E>, tried: seq<Endpoint>, e: Endpoint)
    requires AllFailed(w, tried) && w.call(|tried|, e.url).Err?
    ensures AllFailed(w, tried + [e])
  {
  }

  lemma GivingUpShape<T, E>(entries: seq<Endpoint>, maxRetries: int, w: World<T, E>, tried: seq<Endpoint>, rrIndex: nat)
    requires Eligible(entries, w, tried) && AllFailed(w, tried)
    requires |tried| <= (if maxRetries < 0 then 0 else maxRetries + 1)
    requires |tried| > maxRetries || Candidates(entries, w.health(|tried|), IdSet(tried)) == []
    ensures IsFailover(entries, maxRetries, w, Run(tried, Outcome(w, tried), rrIndex))
  {
  }

  lemma SuccessShape<T, E>(entries: seq<Endpoint>, maxRetries: int, w: World<T, E>,
                           tried: seq<Endpoint>, e: Endpoint, rrIndex: nat)
    requires Eligible(entries, w, tried + [e]) && AllFailed(w, tried)
    requires |tried| <= maxRetries && w.call(|tried|, e.url).Ok?
    ensures IsFailover(entries, maxRetries, w, Run(tried + [e], Outcome(w, tried + [e]), rrIndex))
  {
    assert (tried + [e])[..|tried|] == tried;
  }

  function Executed<T, E>(entries: seq<Endpoint>, policy: Policy, maxRetries: int, w: World<T, E>,
                          rrIndex: nat): Run<T, E> {
    Failover(entries, policy, maxRetries, w, [], rrIndex)
  }

  lemma ExecutedShape<T, E>(entries: seq<Endpoint>, policy: Policy, maxRetries: int, w: World<T, E>, rrIndex: nat)
    ensures IsFailover(entries, maxRetries, w, Executed(entries, policy, maxRetries, w, rrIndex))
  {
    FailoverShape(entries, policy, maxRetries, w, [], rrIndex);
  }

  // What an execute gives: the answer of its last attempt, or that there was no endpoint.
  lemma ResultIs<T, E>(entries: seq<Endpoint>, policy: Policy, maxRetries: int, w: World<T, E>, rrIndex: nat)
    ensures var run := Executed(entries, policy, maxRetries, w, rrIndex);
      && (run.result == Err(NoEndpoints) <==> run.tried == [])
      && (run.tried != [] ==>
            var last := |run.tried| - 1;
            var answer := w.call(last, run.tried[last].url);
            if answer.Ok? then run.result == Ok(answer.value) else run.result == Err(LastError(answer.error)))
  {
    ExecutedShape(entries, policy, maxRetries, w, rrIndex);
  }

  // Whatever the health and the answers do between attempts, no endpoint is tried twice,
  // and only enabled endpoints that were not unhealthy at their attempt are tried.
  lemma NeverTriesTwice<T, E>(entries: seq<Endpoint>, policy: Policy, maxRetries: int, w: World<T, E>, rrIndex: nat)
    ensures var tried := Executed(entries, policy, maxRetries, w, rrIndex).tried;
      && NoDuplicates(Ids(tried))
      && forall i :: 0 <= i < |tried| ==>
           tried[i] in entries && tried[i].enabled && !w.health(i).unhealthy(tried[i].id)
  {
    ExecutedShape(entries, policy, maxRetries, w, rrIndex);
    EligibleDistinct(entries, w, Executed(entries, policy, maxRetries, w, rrIndex).tried);
  }

  // Before its i-th attempt the round-robin index of an execute.
  function IndexAt(policy: Policy, rrIndex: nat, i: nat): nat {
    if policy.RoundRobin? then rrIndex + i else rrIndex
  }

  // What was tried i-th is the policy's choice among the candidates of that moment.
  ghost predicate ChosenAt<T, E>(entries: seq<Endpoint>, policy: Policy, w: World<T, E>, tried: seq<Endpoint>,
                                 rrIndex: nat, i: nat)
    requires i < |tried|
  {
    var pool, h := Candidates(entries, w.health(i), IdSet(tried[..i])), w.health(i);
    exists k: nat :: k < |pool| && tried[i] == pool[k]
      && Chosen(policy, IndexAt(policy, rrIndex, i), pool, h.latency, w.draw(i), k)
  }

  ghost predicate AllChosen<T, E>(entries: seq<Endpoint>, policy: Policy, w: World<T, E>, tried: seq<Endpoint>,
                                  rrIndex: nat) {
    forall i: nat :: i < |tried| ==> ChosenAt(entries, policy, w, tried, rrIndex, i)
  }

  lemma OneMoreChosen<T, E>(entries: seq<Endpoint>, policy: Policy, w: World<T, E>, tried: seq<Endpoint>,
                            rrIndex: nat, k: nat)
    requires AllChosen(entries, policy, w, tried, rrIndex)
    requires
      var pool, h := Candidates(entries, w.health(|tried|), IdSet(tried)), w.health(|tried|);
      k < |pool| && Chosen(policy, IndexAt(policy, rrIndex, |tried|), pool, h.latency, w.draw(|tried|), k)
    ensures
      var pool := Candidates(entries, w.health(|tried|), IdSet(tried));
      AllChosen(entries, policy, w, tried + [pool[k]], rrIndex)
  {
    var pool := Candidates(entries, w.health(|tried|), IdSet(tried));
    var more := tried + [pool[k]];
    forall i: nat | i < |more|
      ensures ChosenAt(entries, policy, w, more, rrIndex, i)
    {
      assert more[..i] == tried[..i];
      if i < |tried| {
        assert ChosenAt(entries, policy, w, tried, rrIndex, i);
      } else {
        assert tried[..i] == tried;
      }
    }
  }

  lemma {:induction false} FailoverChooses<T, E>(entries: seq<Endpoint>, policy: Policy, maxRetries: int,
                                                 w: World<T, E>, tried: seq<Endpoint>, rrIndex: nat)
    requires AllChosen(entries, policy, w, tried, rrIndex)
    ensures
      var run := Failover(entries, policy, maxRetries, w, tried, IndexAt(policy, rrIndex, |tried|));
      AllChosen(entries, policy, w, run.tried, rrIndex) && run.rrIndex == IndexAt(policy, rrIndex, |run.tried|)
    decreases maxRetries - |tried|
  {
    var attempt, index := |tried|, IndexAt(policy, rrIndex, |tried|);
    var pool, h := Candidates(entries, w.health(attempt), IdSet(tried)), w.health(attempt);
    if attempt <= maxRetries && pool != [] {
      var k := PickIndex(policy, index, pool, h.latency, w.draw(attempt));
      PickIsChosen(policy, index, pool, h.latency, w.draw(attempt));
      OneMoreChosen(entries, policy, w, tried, rrIndex, k);
      if w.call(attempt, pool[k].url).Err? {
        FailoverChooses(entries, policy, maxRetries, w, tried + [pool[k]], rrIndex);
      }
    }
  }

  // Every attempt of an execute follows the policy, and round-robin goes on by one at
  // each of them.
  lemma ExecutedByPolicy<T, E>(entries: seq<Endpoint>, policy: Policy, maxRetries: int, w: World<T, E>, rrIndex: nat)
    ensures
      var run := Executed(entries, policy, maxRetries, w, rrIndex);
      && AllChosen(entries, policy, w, run.tried, rrIndex)
      && run.rrIndex == if policy.RoundRobin? then rrIndex + |run.tried| else rrIndex
  {
    FailoverChooses(entries, policy, maxRetries, w, [], rrIndex);
  }

  lemma EligibleDistinct<T, E>(entries: seq<Endpoint>, w: World<T, E>, tried: seq<Endpoint>)
    requires Eligible(entries, w, tried)
    ensures NoDuplicates(Ids(tried))
  {
    forall i, j | 0 <= i < j < |tried|
      ensures tried[i].id != tried[j].id
    {
      assert tried[..j][i] in tried[..j];
      assert tried[j].id !in IdSet(tried[..j]);
    }
  }

  // ---------- Fixed health and fixed answers ----------

  function Steady<T, E>(h: Health, draw: nat -> real, call: string -> Result<T, E>): World<T, E> {
    World(_ => h, draw, (_, url) => call(url))
  }

  lemma {:induction false} IdSetSize(s: seq<Endpoint>)
    ensures |IdSet(s)| <= |s|
    ensures NoDuplicates(Ids(s)) ==> |IdSet(s)| == |s|
  {
    if s != [] {
      var init, last := s[..|s| - 1], s[|s| - 1];
      assert s == init + [last];
      IdSetSize(init);
      IdSetSnoc(init, last);
      OneMoreId(IdSet(init), last.id);
    }
  }

  lemma OneMoreId(ids: set<string>, id: string)
    ensures |ids + {id}| == if id in ids then |ids| else |ids| + 1
  {
    if id in ids {
      assert ids + {id} == ids;
    }
  }

  lemma IdSetSnoc(init: seq<Endpoint>, last: Endpoint)
    ensures IdSet(init + [last]) == IdSet(init) + {last.id}
    ensures NoDuplicates(Ids(init + [last])) ==> NoDuplicates(Ids(init)) && last.id !in IdSet(init)
  {
    var s := init + [last];
    if NoDuplicates(Ids(s)) {
      assert forall i :: 0 <= i < |init| ==> Ids(s)[i] == init[i].id && Ids(s)[i] != Ids(s)[|init|];
    }
  }

  // Under fixed health an execute makes at most min(maxRetries + 1, candidates) attempts.
  lemma AttemptsBounded<T, E>(entries: seq<Endpoint>, policy: Policy, maxRetries: int, h: Health, draw: nat -> real,
                              call: string -> Result<T, E>, rrIndex: nat)
    ensures var tried := Executed(entries, policy, maxRetries, Steady(h, draw, call), rrIndex).tried;
      && |tried| <= |Candidates(entries, h, {})|
      && |tried| <= (if maxRetries < 0 then 0 else maxRetries + 1)
      && IdSet(tried) <= IdSet(Candidates(entries, h, {}))
  {
    var w := Steady(h, draw, call);
    var tried := Executed(entries, policy, maxRetries, w, rrIndex).tried;
    ExecutedShape(entries, policy, maxRetries, w, rrIndex);
    EligibleDistinct(entries, w, tried);
    var pool := Candidates(entries, h, {});
    TriedAreCandidates(entries, w, h, tried);
    assert IdSet(tried) <= IdSet(pool);
    IdSetSize(tried);
    IdSetSize(pool);
    SubsetSize(IdSet(tried), IdSet(pool));
  }

  lemma TriedAreCandidates<T, E>(entries: seq<Endpoint>, w: World<T, E>, h: Health, tried: seq<Endpoint>)
    requires Eligible(entries, w, tried) && forall i :: 0 <= i < |tried| ==> w.health(i) == h
    ensures forall e :: e in tried ==> e in Candidates(entries, h, {})
  {
    forall e | e in tried
      ensures e in Candidates(entries, h, {})
    {
      var i :| 0 <= i < |tried| && tried[i] == e;
      assert IsCandidate(e, w.health(i), IdSet(tried[..i]));
      CandidatesAre(entries, h, {}, e);
    }
  }

  lemma SubsetSize<T>(a: set<T>, b: set<T>)
    requires a <= b
    ensures |a| <= |b|
    ensures |a| == |b| ==> a == b
  {
    assert b == a + (b - a);
  }

  // With distinct ids and enough retries, under any policy, an execute throws exactly
  // when every candidate fails.
  lemma FailsIffEveryCandidateFails<T, E>(entries: seq<Endpoint>, policy: Policy, maxRetries: int, h: Health,
                                          draw: nat -> real, call: string -> Result<T, E>, rrIndex: nat)
    requires NoDuplicates(Ids(entries))
    requires maxRetries + 1 >= |Candidates(entries, h, {})|
    ensures Executed(entries, policy, maxRetries, Steady(h, draw, call), rrIndex).result.Err?
            <==> forall e :: e in Candidates(entries, h, {}) ==> call(e.url).Err?
  {
    var w := Steady(h, draw, call);
    var run := Executed(entries, policy, maxRetries, w, rrIndex);
    var tried, pool := run.tried, Candidates(entries, h, {});
    ExecutedShape(entries, policy, maxRetries, w, rrIndex);
    AttemptsBounded(entries, policy, maxRetries, h, draw, call, rrIndex);
    EligibleDistinct(entries, w, tried);
    if run.result.Err? {
      AllTriedFailed(w, tried, run.result);
      EveryCandidateTried(entries, maxRetries, h, tried);
      forall e | e in pool
        ensures call(e.url).Err?
      {
        var i :| 0 <= i < |tried| && tried[i] == e;
        assert w.call(i, tried[i].url).Err?;
      }
    } else {
      TriedAreCandidates(entries, w, h, tried);
      var last := tried[|tried| - 1];
      assert last in pool && call(last.url).Ok?;
    }
  }

  // A failed execute with enough retries has gone through all candidates.
  lemma EveryCandidateTried(entries: seq<Endpoint>, maxRetries: int, h: Health, tried: seq<Endpoint>)
    requires NoDuplicates(Ids(entries)) && NoDuplicates(Ids(tried))
    requires forall e :: e in tried ==> e in entries
    requires IdSet(tried) <= IdSet(Candidates(entries, h, {}))
    requires |tried| <= maxRetries ==> Candidates(entries, h, IdSet(tried)) == []
    requires maxRetries + 1 >= |Candidates(entries, h, {})|
    ensures forall e :: e in Candidates(entries, h, {}) ==> e in tried
  {
    var pool := Candidates(entries, h, {});
    IdSetSize(tried);
    IdSetSize(pool);
    SubsetSize(IdSet(tried), IdSet(pool));
    forall e | e in pool
      ensures e in tried
    {
      CandidatesAre(entries, h, {}, e);
      CandidatesAre(entries, h, IdSet(tried), e);
      assert e.id in IdSet(pool);
      assert e.id in IdSet(tried);
      var t :| t in tried && t.id == e.id;
      SameId(entries, t, e);
    }
  }

  lemma AllTriedFailed<T, E>(w: World<T, E>, tried: seq<Endpoint>, result: Result<T, Failure<E>>)
    requires result == Outcome(w, tried) && result.Err?
    requires tried != [] ==> AllFailed(w, tried[..|tried| - 1])
    ensures AllFailed(w, tried)
  {
    forall i | 0 <= i < |tried|
      ensures w.call(i, tried[i].url).Err?
    {
      if i < |tried| - 1 {
        assert tried[..|tried| - 1][i] == tried[i];
      }
    }
  }

  lemma SameId(entries: seq<Endpoint>, a: Endpoint, b: Endpoint)
    requires NoDuplicates(Ids(entries)) && a in entries && b in entries && a.id == b.id
    ensures a == b
  {
    var i :| 0 <= i < |entries| && entries[i] == a;
    var j :| 0 <= j < |entries| && entries[j] == b;
    assert Ids(entries)[i] == Ids(entries)[j];
  }

  // ---------- Primary-fallback ----------

  // The order in which primary-fallback goes through a pool.
  function FallbackOrder(pool: seq<Endpoint>): (r: seq<Endpoint>)
    decreases |pool|
  {
    if pool == [] then []
    else
      var e := pool[PrimaryIndex(pool)];
      WithoutShrinks(pool, e);
      [e] + FallbackOrder(Without(pool, e.id))
  }

  lemma WithoutShrinks(pool: seq<Endpoint>, e: Endpoint)
    requires e in pool
    ensures |Without(pool, e.id)| < |pool|
  {
  }

  // a comes before b: lower priority number, or the same and earlier in the pool.
  ghost predicate Ahead(pool: seq<Endpoint>, a: Endpoint, b: Endpoint) {
    exists i, j :: 0 <= i < |pool| && 0 <= j < |pool| && pool[i] == a && pool[j] == b
                   && (a.priority < b.priority || (a.priority == b.priority && i < j))
  }

  ghost predicate InOrder(pool: seq<Endpoint>, order: seq<Endpoint>) {
    forall i, j :: 0 <= i < j < |order| ==> Ahead(pool, order[i], order[j])
  }

  // That order is the stable sort of the pool by priority.
  lemma {:induction false} FallbackOrderIsStableSort(pool: seq<Endpoint>)
    requires NoDuplicates(Ids(pool))
    ensures forall e :: e in FallbackOrder(pool) <==> e in pool
    ensures |FallbackOrder(pool)| == |pool|
    ensures InOrder(pool, FallbackOrder(pool))
    decreases |pool|
  {
    if pool != [] {
      var m := PrimaryIndex(pool);
      var rest := pool[..m] + pool[m + 1..];
      WithoutOne(pool, m);
      OthersDistinct(pool, m);
      FallbackOrderIsStableSort(rest);
      PrimaryThenRest(pool, FallbackOrder(rest));
      assert FallbackOrder(pool) == [pool[m]] + FallbackOrder(rest);
      AllButOne(pool, m);
    }
  }

  lemma PrimaryThenRest(pool: seq<Endpoint>, order: seq<Endpoint>)
    requires pool != []
    requires var m := PrimaryIndex(pool);
      var rest := pool[..m] + pool[m + 1..];
      InOrder(rest, order) && forall e :: e in order ==> e in rest
    ensures InOrder(pool, [pool[PrimaryIndex(pool)]] + order)
  {
    var m := PrimaryIndex(pool);
    forall i, j | 0 <= i < j < |order|
      ensures Ahead(pool, order[i], order[j])
    {
      AheadInRest(pool, m, order[i], order[j]);
    }
    forall j | 0 <= j < |order|
      ensures Ahead(pool, pool[m], order[j])
    {
      PrimaryIsAhead(pool, order[j]);
    }
    InOrderCons(pool, pool[m], order);
  }

  lemma InOrderCons(pool: seq<Endpoint>, first: Endpoint, order: seq<Endpoint>)
    requires InOrder(pool, order) && forall j :: 0 <= j < |order| ==> Ahead(pool, first, order[j])
    ensures InOrder(pool, [first] + order)
  {
    var all := [first] + order;
    forall i, j | 0 <= i < j < |all|
      ensures Ahead(pool, all[i], all[j])
    {
      assert all[j] == order[j - 1];
      if i > 0 {
        assert all[i] == order[i - 1];
      }
    }
  }

  lemma OthersDistinct(pool: seq<Endpoint>, m: nat)
    requires NoDuplicates(Ids(pool)) && m < |pool|
    ensures NoDuplicates(Ids(pool[..m] + pool[m + 1..]))
  {
    var rest := pool[..m] + pool[m + 1..];
    forall i, j | 0 <= i < j < |rest|
      ensures rest[i].id != rest[j].id
    {
      assert Ids(pool)[if i < m then i else i + 1] != Ids(pool)[if j < m then j else j + 1];
    }
  }

  lemma AllButOne(pool: seq<Endpoint>, m: nat)
    requires m < |pool|
    ensures forall e :: e in pool <==> e == pool[m] || e in pool[..m] + pool[m + 1..]
  {
    assert pool == pool[..m] + [pool[m]] + pool[m + 1..];
  }

  lemma PrimaryIsAhead(pool: seq<Endpoint>, b: Endpoint)
    requires pool != []
    requires var m := PrimaryIndex(pool); b in pool[..m] + pool[m + 1..]
    ensures Ahead(pool, pool[PrimaryIndex(pool)], b)
  {
    var m := PrimaryIndex(pool);
    assert b in pool[..m] || b in pool[m + 1..];
    var p :| 0 <= p < |pool| && p != m && pool[p] == b;
    assert pool[m].priority < b.priority || (pool[m].priority == b.priority && m < p);
  }

  lemma AheadInRest(pool: seq<Endpoint>, m: nat, a: Endpoint, b: Endpoint)
    requires m < |pool| && Ahead(pool[..m] + pool[m + 1..], a, b)
    ensures Ahead(pool, a, b)
  {
    var rest := pool[..m] + pool[m + 1..];
    var i, j :| 0 <= i < |rest| && 0 <= j < |rest| && rest[i] == a && rest[j] == b
                && (a.priority < b.priority || (a.priority == b.priority && i < j));
    var p, q := if i < m then i else i + 1, if j < m then j else j + 1;
    assert pool[p] == a && pool[q] == b;
  }

  lemma {:induction false} WithoutOne(pool: seq<Endpoint>, m: nat)
    requires NoDuplicates(Ids(pool)) && m < |pool|
    ensures Without(pool, pool[m].id) == pool[..m] + pool[m + 1..]
  {
    var id, tail := pool[m].id, pool[1..];
    TailDistinct(pool);
    if m == 0 {
      WithoutAbsent(tail, id);
    } else {
      assert tail[m - 1] == pool[m] && pool[m] in tail;
      WithoutOne(tail, m - 1);
      SplitAround(pool, m);
    }
  }

  lemma SplitAround(pool: seq<Endpoint>, m: nat)
    requires 0 < m < |pool|
    ensures pool[..m] + pool[m + 1..] == [pool[0]] + (pool[1..][..m - 1] + pool[1..][m..])
  {
  }

  lemma {:induction false} WithoutAbsent(pool: seq<Endpoint>, id: string)
    requires forall e :: e in pool ==> e.id != id
    ensures Without(pool, id) == pool
  {
    if pool != [] {
      WithoutAbsent(pool[1..], id);
    }
  }

  // What was tried is the beginning of the order, up to the first that answers, its
  // end or the end of the retry budget.
  ghost predicate FollowsOrder<T, E>(order: seq<Endpoint>, maxRetries: int, call: string -> Result<T, E>,
                                     run: Run<T, E>) {
    var k := |run.tried|;
    && k <= |order| && run.tried == order[..k]
    && (forall i :: 0 <= i < k - 1 ==> call(order[i].url).Err?)
    && (run.result.Ok? ==> k > 0 && call(order[k - 1].url) == Ok(run.result.value))
    && (run.result.Err? ==>
          && (k == |order| || k == maxRetries + 1 || (k == 0 && maxRetries < 0))
          && (k > 0 ==> call(order[k - 1].url).Err?))
  }

  // Under primary-fallback the candidates are tried in fallback order.
  lemma PrimaryFallbackInOrder<T, E>(entries: seq<Endpoint>, maxRetries: int, h: Health, draw: nat -> real,
                                     call: string -> Result<T, E>, rrIndex: nat)
    ensures FollowsOrder(FallbackOrder(Candidates(entries, h, {})), maxRetries, call,
                         Executed(entries, PrimaryFallback, maxRetries, Steady(h, draw, call), rrIndex))
  {
    var run := Executed(entries, PrimaryFallback, maxRetries, Steady(h, draw, call), rrIndex);
    TriedPrefix(entries, maxRetries, h, draw, call, rrIndex);
    FallbackAnswers(entries, maxRetries, h, draw, call, rrIndex);
    AnswersInOrder(entries, FallbackOrder(Candidates(entries, h, {})), maxRetries, h, call, run);
  }

  // Every attempt but the last failed, and the last gave the result.
  ghost predicate Answered<T, E>(entries: seq<Endpoint>, maxRetries: int, h: Health, call: string -> Result<T, E>,
                                 run: Run<T, E>) {
    && (forall i :: 0 <= i < |run.tried| - 1 ==> call(run.tried[i].url).Err?)
    && (run.result.Ok? ==> run.tried != [] && call(run.tried[|run.tried| - 1].url) == Ok(run.result.value))
    && (run.result.Err? ==> Exhausted(entries, maxRetries, h, run))
    && (run.result.Err? && run.tried != [] ==> call(run.tried[|run.tried| - 1].url).Err?)
  }

  lemma AnswersInOrder<T, E>(entries: seq<Endpoint>, order: seq<Endpoint>, maxRetries: int, h: Health,
                             call: string -> Result<T, E>, run: Run<T, E>)
    requires Answered(entries, maxRetries, h, call, run)
    requires |run.tried| <= |order| && run.tried == order[..|run.tried|]
    requires Candidates(entries, h, IdSet(run.tried)) == [] ==> |run.tried| == |order|
    ensures FollowsOrder(order, maxRetries, call, run)
  {
  }

  // Nothing is left to try: no candidate, or no retry.
  ghost predicate Exhausted<T, E>(entries: seq<Endpoint>, maxRetries: int, h: Health, run: Run<T, E>) {
    || Candidates(entries, h, IdSet(run.tried)) == []
    || |run.tried| == maxRetries + 1
    || (run.tried == [] && maxRetries < 0)
  }

  lemma FallbackAnswers<T, E>(entries: seq<Endpoint>, maxRetries: int, h: Health, draw: nat -> real,
                              call: string -> Result<T, E>, rrIndex: nat)
    ensures Answered(entries, maxRetries, h, call,
                     Executed(entries, PrimaryFallback, maxRetries, Steady(h, draw, call), rrIndex))
  {
    var run := Executed(entries, PrimaryFallback, maxRetries, Steady(h, draw, call), rrIndex);
    ExecutedShape(entries, PrimaryFallback, maxRetries, Steady(h, draw, call), rrIndex);
    FailedBefore(entries, maxRetries, h, draw, call, run);
    LastAnswer(entries, maxRetries, h, draw, call, run);
  }

  lemma LastAnswer<T, E>(entries: seq<Endpoint>, maxRetries: int, h: Health, draw: nat -> real,
                         call: string -> Result<T, E>, run: Run<T, E>)
    requires IsFailover(entries, maxRetries, Steady(h, draw, call), run)
    ensures run.result.Ok? ==> run.tried != [] && call(run.tried[|run.tried| - 1].url) == Ok(run.result.value)
    ensures run.result.Err? ==>
      && (run.tried != [] ==> call(run.tried[|run.tried| - 1].url).Err?)
      && Exhausted(entries, maxRetries, h, run)
  {
  }

  lemma FailedBefore<T, E>(entries: seq<Endpoint>, maxRetries: int, h: Health, draw: nat -> real,
                           call: string -> Result<T, E>, run: Run<T, E>)
    requires IsFailover(entries, maxRetries, Steady(h, draw, call), run)
    ensures forall i :: 0 <= i < |run.tried| - 1 ==> call(run.tried[i].url).Err?
  {
    var w, k := Steady(h, draw, call), |run.tried|;
    forall i | 0 <= i < k - 1
      ensures call(run.tried[i].url).Err?
    {
      assert w.call(i, run.tried[..k - 1][i].url).Err?;
    }
  }

  lemma TriedPrefix<T, E>(entries: seq<Endpoint>, maxRetries: int, h: Health, draw: nat -> real,
                          call: string -> Result<T, E>, rrIndex: nat)
    ensures var tried := Executed(entries, PrimaryFallback, maxRetries, Steady(h, draw, call), rrIndex).tried;
      var order := FallbackOrder(Candidates(entries, h, {}));
      && |tried| <= |order| && tried == order[..|tried|]
      && (Candidates(entries, h, IdSet(tried)) == [] ==> |tried| == |order|)
  {
    TriedInOrder(entries, maxRetries, h, draw, call, [], rrIndex);
    assert IdSet([]) == {};
    Split(Executed(entries, PrimaryFallback, maxRetries, Steady(h, draw, call), rrIndex).tried,
          FallbackOrder(Candidates(entries, h,
            IdSet(Executed(entries, PrimaryFallback, maxRetries, Steady(h, draw, call), rrIndex).tried))),
          FallbackOrder(Candidates(entries, h, {})));
  }

  lemma Split(tried: seq<Endpoint>, left: seq<Endpoint>, order: seq<Endpoint>)
    requires tried + left == [] + order
    ensures |tried| <= |order| && tried == order[..|tried|]
    ensures left == [] ==> |tried| == |order|
  {
    assert [] + order == order;
    assert (tried + left)[..|tried|] == tried;
  }

  lemma {:induction false} TriedInOrder<T, E>(entries: seq<Endpoint>, maxRetries: int, h: Health, draw: nat -> real,
                                              call: string -> Result<T, E>, tried: seq<Endpoint>, rrIndex: nat)
    ensures var run := Failover(entries, PrimaryFallback, maxRetries, Steady(h, draw, call), tried, rrIndex);
      run.tried + FallbackOrder(Candidates(entries, h, IdSet(run.tried)))
      == tried + FallbackOrder(Candidates(entries, h, IdSet(tried)))
    decreases maxRetries - |tried|
  {
    var w := Steady(h, draw, call);
    var pool := Candidates(entries, h, IdSet(tried));
    if |tried| <= maxRetries && pool != [] {
      var e := pool[PrimaryIndex(pool)];
      OneMoreInOrder(entries, h, tried);
      if call(e.url).Err? {
        TriedInOrder(entries, maxRetries, h, draw, call, tried + [e], rrIndex);
      }
    }
  }

  lemma OneMoreInOrder(entries: seq<Endpoint>, h: Health, tried: seq<Endpoint>)
    requires Candidates(entries, h, IdSet(tried)) != []
    ensures var pool := Candidates(entries, h, IdSet(tried));
      var more := tried + [pool[PrimaryIndex(pool)]];
      more + FallbackOrder(Candidates(entries, h, IdSet(more))) == tried + FallbackOrder(pool)
  {
    var pool := Candidates(entries, h, IdSet(tried));
    var e := pool[PrimaryIndex(pool)];
    SkippingOneMore(entries, h, IdSet(tried), e.id);
    assert IdSet(tried + [e]) == IdSet(tried) + {e.id};
    FallbackOrderStep(pool, tried);
  }

  lemma FallbackOrderStep(pool: seq<Endpoint>, tried: seq<Endpoint>)
    requires pool != []
    ensures var e := pool[PrimaryIndex(pool)];
      (tried + [e]) + FallbackOrder(Without(pool, e.id)) == tried + FallbackOrder(pool)
  {
    var e := pool[PrimaryIndex(pool)];
    var rest := FallbackOrder(Without(pool, e.id));
    assert FallbackOrder(pool) == [e] + rest;
    assert (tried + [e]) + rest == tried + ([e] + rest);
  }

  // ---------- Round robin ----------

  // How many of m consecutive round-robin picks from a pool of n serve place i.
  function Served(n: nat, rrIndex: nat, m: nat, i: nat): nat
    requires n > 0
    decreases m
  {
    if m == 0 then 0 else (if rrIndex % n == i then 1 else 0) + Served(n, rrIndex + 1, m - 1, i)
  }

  // The picks themselves, from a pool that stays the same.
  function Picks(pool: seq<Endpoint>, rrIndex: nat, m: nat,
                 latency: string -> Option<real>, draw: real): (r: seq<Endpoint>)
    requires pool != []
    ensures |r| == m
    decreases m
  {
    if m == 0 then []
    else
      [pool[PickIndex(RoundRobin, rrIndex, pool, latency, draw)]]
      + Picks(pool, NextIndex(RoundRobin, rrIndex), m - 1, latency, draw)
  }

  // Picks among the first x of all time that serve place i.
  function ServedBefore(n: nat, x: nat, i: nat): nat
    requires i < n
  {
    x / n + (if x % n > i then 1 else 0)
  }

  lemma NextQuotient(n: nat, x: nat)
    requires n > 0
    ensures (x + 1) / n == x / n + (if x % n == n - 1 then 1 else 0)
    ensures (x + 1) % n == if x % n == n - 1 then 0 else x % n + 1
  {
    var q, r := x / n, x % n;
    if r == n - 1 {
      QuotientIs(n, x + 1, q + 1, 0);
    } else {
      QuotientIs(n, x + 1, q, r + 1);
    }
  }

  lemma QuotientIs(n: nat, x: nat, q: nat, r: nat)
    requires n > 0 && x == n * q + r && r < n
    ensures x / n == q && x % n == r
  {
    var p := x / n;
    assert x == n * p + x % n;
    if p > q {
      Multiples(n, q, p);
      assert false;
    } else if p < q {
      Multiples(n, p, q);
      assert false;
    }
  }

  lemma Multiples(n: nat, a: nat, b: nat)
    requires a < b
    ensures n * a + n <= n * b
  {
    var d: nat := b - a - 1;
    assert n * d >= 0;
    assert n * (a + 1 + d) == n * a + n + n * d;
  }

  lemma {:induction false} ServedIs(n: nat, rrIndex: nat, m: nat, i: nat)
    requires i < n
    ensures Served(n, rrIndex, m, i) == ServedBefore(n, rrIndex + m, i) - ServedBefore(n, rrIndex, i)
    decreases m
  {
    if m > 0 {
      ServedIs(n, rrIndex + 1, m - 1, i);
      NextQuotient(n, rrIndex);
    }
  }

  lemma {:induction false} PicksServe(pool: seq<Endpoint>, rrIndex: nat, m: nat,
                                      latency: string -> Option<real>, draw: real, i: nat)
    requires NoDuplicates(pool) && i < |pool|
    ensures multiset(Picks(pool, rrIndex, m, latency, draw))[pool[i]] == Served(|pool|, rrIndex, m, i)
    decreases m
  {
    if m > 0 {
      var j := rrIndex % |pool|;
      var rest := Picks(pool, rrIndex + 1, m - 1, latency, draw);
      PicksServe(pool, rrIndex + 1, m - 1, latency, draw, i);
      CountCons(pool[j], rest, pool[i]);
    }
  }

  lemma CountCons(e: Endpoint, rest: seq<Endpoint>, x: Endpoint)
    ensures multiset([e] + rest)[x] == (if e == x then 1 else 0) + multiset(rest)[x]
  {
  }

  // Any k·n consecutive picks from a stable pool of n serve every endpoint exactly k
  // times, wherever the index starts.
  lemma RoundRobinIsFair(pool: seq<Endpoint>, rrIndex: nat, k: nat, latency: string -> Option<real>, draw: real, i: nat)
    requires NoDuplicates(pool) && i < |pool|
    ensures multiset(Picks(pool, rrIndex, k * |pool|, latency, draw))[pool[i]] == k
  {
    var n := |pool|;
    PicksServe(pool, rrIndex, k * n, latency, draw, i);
    ServedIs(n, rrIndex, k * n, i);
    TurnsAdded(n, rrIndex, k);
  }

  lemma TurnsAdded(n: nat, x: nat, k: nat)
    requires n > 0
    ensures (x + k * n) / n == x / n + k && (x + k * n) % n == x % n
  {
    assert x == n * (x / n) + x % n;
    assert n * (x / n + k) == n * (x / n) + k * n;
    QuotientIs(n, x + k * n, x / n + k, x % n);
  }

  // Over any number of picks no endpoint is served two times more than another.
  lemma RoundRobinIsBalanced(pool: seq<Endpoint>, rrIndex: nat, m: nat,
                             latency: string -> Option<real>, draw: real, i: nat, j: nat)
    requires NoDuplicates(pool) && i < |pool| && j < |pool|
    ensures var picks := multiset(Picks(pool, rrIndex, m, latency, draw));
      picks[pool[i]] <= picks[pool[j]] + 1
  {
    PicksServe(pool, rrIndex, m, latency, draw, i);
    PicksServe(pool, rrIndex, m, latency, draw, j);
    ServedIs(|pool|, rrIndex, m, i);
    ServedIs(|pool|, rrIndex, m, j);
  }

  // What m successive executes try, each going on where the one before left the index.
  function TriedByAll<T, E>(entries: seq<Endpoint>, maxRetries: int, w: World<T, E>, rrIndex: nat, m: nat)
    : seq<Endpoint>
    decreases m
  {
    if m == 0 then []
    else
      var run := Executed(entries, RoundRobin, maxRetries, w, rrIndex);
      run.tried + TriedByAll(entries, maxRetries, w, run.rrIndex, m - 1)
  }

  lemma OneTurn<T, E>(entries: seq<Endpoint>, maxRetries: nat, h: Health, draw: nat -> real,
                      call: string -> Result<T, E>, rrIndex: nat)
    requires Candidates(entries, h, {}) != []
    requires forall e :: e in Candidates(entries, h, {}) ==> call(e.url).Ok?
    ensures
      var pool := Candidates(entries, h, {});
      var run := Executed(entries, RoundRobin, maxRetries, Steady(h, draw, call), rrIndex);
      run.tried == [pool[rrIndex % |pool|]] && run.rrIndex == rrIndex + 1
  {
    var pool, w := Candidates(entries, h, {}), Steady(h, draw, call);
    assert IdSet([]) == {};
    assert w.health(0) == h;
    var e := pool[rrIndex % |pool|];
    assert e in pool && w.call(0, e.url).Ok?;
  }

  // While calls succeed, successive executes take turns as above.
  lemma {:induction false} ExecutesTakeTurns<T, E>(entries: seq<Endpoint>, maxRetries: nat, h: Health,
                                                   draw: nat -> real, call: string -> Result<T, E>,
                                                   rrIndex: nat, m: nat)
    requires Candidates(entries, h, {}) != []
    requires forall e :: e in Candidates(entries, h, {}) ==> call(e.url).Ok?
    ensures TriedByAll(entries, maxRetries, Steady(h, draw, call), rrIndex, m)
            == Picks(Candidates(entries, h, {}), rrIndex, m, h.latency, draw(0))
    decreases m
  {
    if m > 0 {
      var pool := Candidates(entries, h, {});
      OneTurn(entries, maxRetries, h, draw, call, rrIndex);
      ExecutesTakeTurns(entries, maxRetries, h, draw, call, rrIndex + 1, m - 1);
    }
  }

  // So any k·n successive executes use each of n candidates exactly k times.
  lemma ExecutesAreFair<T, E>(entries: seq<Endpoint>, maxRetries: nat, h: Health, draw: nat -> real,
                              call: string -> Result<T, E>, rrIndex: nat, k: nat, i: nat)
    requires NoDuplicates(Candidates(entries, h, {})) && i < |Candidates(entries, h, {})|
    requires forall e :: e in Candidates(entries, h, {}) ==> call(e.url).Ok?
    ensures var pool := Candidates(entries, h, {});
      multiset(TriedByAll(entries, maxRetries, Steady(h, draw, call), rrIndex, k * |pool|))[pool[i]] == k
  {
    var pool := Candidates(entries, h, {});
    ExecutesTakeTurns(entries, maxRetries, h, draw, call, rrIndex, k * |pool|);
    RoundRobinIsFair(pool, rrIndex, k, h.latency, draw(0), i);
  }

  // ---------- Enabling and disabling ----------

  function Switched(entries: seq<Endpoint>, id: string, enabled: bool): (r: seq<Endpoint>)
    ensures |r| == |entries|
  {
    if entries == [] then []
    else if entries[0].id == id then [entries[0].(enabled := enabled)] + entries[1..]
    else [entries[0]] + Switched(entries[1..], id, enabled)
  }

  // The first entry with the id gets the flag and keeps everything else; the other
  // entries are untouched.
  lemma {:induction false} SwitchedAre(entries: seq<Endpoint>, id: string, enabled: bool, i: nat)
    requires i < |entries|
    ensures Switched(entries, id, enabled)[i] ==
            if FirstWith(entries, id, i) then entries[i].(enabled := enabled) else entries[i]
  {
    if i > 0 {
      assert FirstWith(entries, id, i) <==> entries[0].id != id && FirstWith(entries[1..], id, i - 1);
      SwitchedAre(entries[1..], id, enabled, i - 1);
    }
  }

  ghost predicate FirstWith(entries: seq<Endpoint>, id: string, i: nat)
    requires i < |entries|
  {
    entries[i].id == id && forall j :: 0 <= j < i ==> entries[j].id != id
  }

  // An endpoint switched on again is a candidate unless it is unhealthy or skipped.
  lemma EnabledIsCandidate(entries: seq<Endpoint>, id: string, h: Health, skipped: set<string>, i: nat)
    requires NoDuplicates(Ids(entries)) && i < |entries| && entries[i].id == id
    ensures entries[i].(enabled := true) in Candidates(Switched(entries, id, true), h, skipped)
            <==> id !in skipped && !h.unhealthy(id)
  {
    SwitchedAre(entries, id, true, i);
    assert FirstWith(entries, id, i) by {
      assert forall j :: 0 <= j < i ==> Ids(entries)[j] != Ids(entries)[i];
    }
    assert Switched(entries, id, true)[i] in Switched(entries, id, true);
    CandidatesAre(Switched(entries, id, true), h, skipped, entries[i].(enabled := true));
  }

  lemma {:induction false} SwitchedOff(entries: seq<Endpoint>, id: string, e: Endpoint)
    requires NoDuplicates(Ids(entries)) && e in Switched(entries, id, false) && e.id == id
    ensures !e.enabled
  {
    if entries != [] {
      TailDistinct(entries);
      if entries[0].id != id {
        SwitchedOff(entries[1..], id, e);
      }
    }
  }

  lemma TailDistinct(entries: seq<Endpoint>)
    requires entries != [] && NoDuplicates(Ids(entries))
    ensures NoDuplicates(Ids(entries[1..]))
    ensures forall e :: e in entries[1..] ==> e.id != entries[0].id
  {
    var rest := entries[1..];
    assert forall i :: 0 <= i < |rest| ==> Ids(rest)[i] == Ids(entries)[i + 1];
    forall i | 0 <= i < |rest|
      ensures rest[i].id != entries[0].id
    {
      assert Ids(entries)[0] != Ids(entries)[i + 1];
    }
  }

  // A disabled endpoint is not tried by any execute until it is enabled again, and the
  // candidates are otherwise as they were.
  lemma DisabledIsNeverTried<T, E>(entries: seq<Endpoint>, id: string, policy: Policy, maxRetries: int,
                                   w: World<T, E>, rrIndex: nat)
    requires NoDuplicates(Ids(entries))
    ensures id !in IdSet(Executed(Switched(entries, id, false), policy, maxRetries, w, rrIndex).tried)
  {
    var off := Switched(entries, id, false);
    NeverTriesTwice(off, policy, maxRetries, w, rrIndex);
    var tried := Executed(off, policy, maxRetries, w, rrIndex).tried;
    forall i | 0 <= i < |tried|
      ensures tried[i].id != id
    {
      if tried[i].id == id {
        SwitchedOff(entries, id, tried[i]);
      }
    }
  }

  lemma {:induction false} DisablingOnlyRemoves(entries: seq<Endpoint>, id: string, h: Health, skipped: set<string>)
    requires NoDuplicates(Ids(entries))
    ensures Candidates(Switched(entries, id, false), h, skipped) == Without(Candidates(entries, h, skipped), id)
  {
    if entries != [] {
      var e, rest := entries[0], entries[1..];
      var off := Switched(entries, id, false);
      TailDistinct(entries);
      var pool := Candidates(rest, h, skipped);
      if IsCandidate(e, h, skipped) {
        assert ([e] + pool)[1..] == pool;
      }
      if e.id == id {
        assert off[1..] == rest && !off[0].enabled;
        forall c | c in pool
          ensures c.id != id
        {
          CandidatesAre(rest, h, skipped, c);
        }
        WithoutAbsent(pool, id);
      } else {
        assert off[0] == e && off[1..] == Switched(rest, id, false);
        DisablingOnlyRemoves(rest, id, h, skipped);
      }
    }
  }

  class RpcEndpointManager {
    var entries: seq<Endpoint>
    var policy: Policy
    const maxRetries: int
    var rrIndex: nat

    constructor (configs: seq<EndpointConfig>, policy: Option<Policy>, maxRetries: Option<int>)
      ensures entries == EntriesOf(configs) && rrIndex == 0
      ensures this.policy == if policy.Some? then policy.value else RoundRobin
      ensures this.maxRetries == if maxRetries.Some? then maxRetries.value else 2
    {
      entries := EntriesOf(configs);
      this.policy := if policy.Some? then policy.value else RoundRobin;
      this.maxRetries := if maxRetries.Some? then maxRetries.value else 2;
      rrIndex := 0;
    }

    method Pick(pool: seq<Endpoint>, latency: string -> Option<real>, draw: real) returns (e: Endpoint)
      requires pool != []
      modifies this`rrIndex
      ensures e == pool[PickIndex(policy, old(rrIndex), pool, latency, draw)]
      ensures rrIndex == NextIndex(policy, old(rrIndex))
    {
      match policy
      case RoundRobin =>
        e := pool[rrIndex % |pool|];
        rrIndex := rrIndex + 1;
      case Weighted =>
        e := PickWeighted(pool, draw);
      case LeastLatency =>
        e := PickFastest(pool, latency);
      case PrimaryFallback =>
        e := PickPrimary(pool);
    }

    // The next endpoint, if any is available.
    method GetActiveEndpoint(h: Health, draw: real) returns (r: Option<Endpoint>)
      modifies this`rrIndex
      ensures var pool := Candidates(entries, h, {});
        if pool == [] then r == None && rrIndex == old(rrIndex)
        else
          && r == Some(pool[PickIndex(policy, old(rrIndex), pool, h.latency, draw)])
          && rrIndex == NextIndex(policy, old(rrIndex))
    {
      var pool := Candidates(entries, h, {});
      if pool == [] {
        return None;
      }
      var e := Pick(pool, h.latency, draw);
      return Some(e);
    }

    method Execute<T, E>(w: World<T, E>) returns (r: Result<T, Failure<E>>)
      modifies this`rrIndex
      ensures r == Executed(entries, policy, maxRetries, w, old(rrIndex)).result
      ensures rrIndex == Executed(entries, policy, maxRetries, w, old(rrIndex)).rrIndex
    {
      var skipped: set<string> := {};
      var lastError: Option<E> := None;
      var attempt := 0;
      ghost var tried: seq<Endpoint> := [];
      while attempt <= maxRetries
        invariant attempt == |tried| && skipped == IdSet(tried)
        invariant Outcome(w, tried) == Err(if lastError.None? then NoEndpoints else LastError(lastError.value))
        invariant Failover(entries, policy, maxRetries, w, tried, rrIndex)
                  == Executed(entries, policy, maxRetries, w, old(rrIndex))
        decreases maxRetries - attempt
      {
        var h := w.health(attempt);
        var pool := Candidates(entries, h, skipped);
        if pool == [] {
          break;
        }
        var endpoint := Pick(pool, h.latency, w.draw(attempt));
        var answer := w.call(attempt, endpoint.url);
        tried := tried + [endpoint];
        if answer.Ok? {
          return Ok(answer.value);
        }
        lastError := Some(answer.error);
        skipped := skipped + {endpoint.id};
        attempt := attempt + 1;
      }
      return Err(if lastError.None? then NoEndpoints else LastError(lastError.value));
    }

    method SetPolicy(policy: Policy)
      modifies this`policy, this`rrIndex
      ensures this.policy == policy && rrIndex == 0
    {
      this.policy := policy;
      rrIndex := 0;
    }

    method EnableEndpoint(id: string)
      modifies this`entries
      ensures entries == Switched(old(entries), id, true)
    {
      SwitchFirst(id, true);
    }

    method DisableEndpoint(id: string)
      modifies this`entries
      ensures entries == Switched(old(entries), id, false)
    {
      SwitchFirst(id, false);
    }

    // Finds the first entry with the id and sets its flag.
    method SwitchFirst(id: string, enabled: bool)
      modifies this`entries
      ensures entries == Switched(old(entries), id, enabled)
    {
      var i := 0;
      while i < |entries| && entries[i].id != id
        invariant i <= |entries|
        invariant forall j :: 0 <= j < i ==> entries[j].id != id
      {
        i := i + 1;
      }
      SwitchedFirst(entries, i, id, enabled);
      if i < |entries| {
        entries := entries[i := entries[i].(enabled := enabled)];
      }
    }
  }

  lemma {:induction false} SwitchedFirst(entries: seq<Endpoint>, i: nat, id: string, enabled: bool)
    requires i <= |entries| && forall j :: 0 <= j < i ==> entries[j].id != id
    requires i < |entries| ==> entries[i].id == id
    ensures Switched(entries, id, enabled)
            == if i < |entries| then entries[i := entries[i].(enabled := enabled)] else entries
  {
    if i > 0 {
      SwitchedFirst(entries[1..], i - 1, id, enabled);
      assert entries == [entries[0]] + entries[1..];
    }
  }

  method PickWeighted(pool: seq<Endpoint>, draw: real) returns (e: Endpoint)
    requires pool != []
    ensures e == pool[WeightedIndex(pool, draw * TotalWeight(pool), 0)]
  {
    var drawn := draw * TotalWeight(pool);
    var rand := drawn;
    for i := 0 to |pool| - 1
      invariant rand == drawn - Cumulative(pool, i)
      invariant WeightedIndex(pool, drawn, 0) == WeightedIndex(pool, drawn, i)
    {
      assert Cumulative(pool, i + 1) == Cumulative(pool, i) + pool[i].weight;
      rand := rand - pool[i].weight;
      if rand <= 0.0 {
        return pool[i];
      }
    }
    return pool[|pool| - 1];
  }

  method PickFastest(pool: seq<Endpoint>, latency: string -> Option<real>) returns (e: Endpoint)
    requires pool != []
    ensures e == pool[FastestOrFirst(pool, latency)]
  {
    var best: Option<nat> := None;
    for i := 0 to |pool|
      invariant best == FastestIndex(pool[..i], latency)
    {
      assert pool[..i + 1][..i] == pool[..i];
      var ms := latency(pool[i].id);
      if ms.Some? && (best.None? || ms.value < latency(pool[best.value].id).value) {
        best := Some(i);
      }
    }
    assert pool[..|pool|] == pool;
    return if best.None? then pool[0] else pool[best.value];
  }

  method PickPrimary(pool: seq<Endpoint>) returns (e: Endpoint)
    requires pool != []
    ensures e == pool[PrimaryIndex(pool)]
  {
    var best := 0;
    for i := 1 to |pool|
      invariant best == PrimaryIndex(pool[..i])
    {
      assert pool[..i + 1][..i] == pool[..i];
      if pool[i].priority < pool[best].priority {
        best := i;
      }
    }
    assert pool[..|pool|] == pool;
    return pool[best];
  }
}
