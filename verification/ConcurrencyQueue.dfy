// src/utils/concurrencyQueue.ts: at most maxConcurrentRequests requests run at a
// time, the others wait in a queue with a timeout and an optional rate throttle.
module ConcurrencyQueue {
  import opened IncreasingSequences
  import opened OrderedSets

  datatype Config = Config(
    maxConcurrentRequests: int,
    queueTimeout: nat,
    enableThrottling: bool,
    throttleRate: int,
    throttleInterval: int)

  // The queue's fields, its armed queue timeouts, and the history of what happened.
  // Requests are numbered in the order of their submission.
  datatype State = State(
    active: int,
    queue: seq<nat>,
    timer: bool,
    count: nat,
    lastReset: int,
    armed: set<nat>,
    // history
    submitted: nat,
    running: set<nat>,
    started: seq<nat>,
    startTimes: seq<int>,
    settled: seq<nat>,
    resetMark: nat)

  // What can happen next; the environment chooses the order and the clock.
  datatype Event =
    | Submit(now: int)
    | Complete(id: nat, now: int)
    | QueueTimeout(id: nat)
    | ThrottleTick(now: int)
    | ClearQueue
    | QueueStatus(now: int)

  function Initial(now: int): State {
    State(0, [], false, 0, now, {}, 0, {}, [], [], [], 0)
  }

  ghost predicate Enabled(s: State, e: Event) {
    match e
    case Complete(id, _) => id in s.running
    case QueueTimeout(id) => id in s.armed
    case ThrottleTick(_) => s.timer
    case _ => true
  }

  // ---------- The steps ----------

  function ResetIfDue(cfg: Config, s: State, now: int): State {
    if now - s.lastReset >= cfg.throttleInterval
    then s.(count := 0, lastReset := now, resetMark := |s.started|)
    else s
  }

  predicate Throttled(cfg: Config, s: State, now: int) {
    now - s.lastReset < cfg.throttleInterval && s.count >= cfg.throttleRate
  }

  function StartFirst(s: State, now: int): State
    requires s.queue != []
  {
    var id := s.queue[0];
    s.(active := s.active + 1, queue := s.queue[1..], count := s.count + 1, armed := s.armed - {id},
       running := s.running + {id}, started := s.started + [id], startTimes := s.startTimes + [now])
  }

  function Drain(cfg: Config, s: State, now: int): State
    decreases |s.queue|
  {
    if s.active < cfg.maxConcurrentRequests && |s.queue| > 0 then Drain(cfg, StartFirst(s, now), now) else s
  }

  function Processed(cfg: Config, s: State, now: int): State {
    if cfg.enableThrottling then
      if Throttled(cfg, s, now) then s.(timer := true) else Drain(cfg, ResetIfDue(cfg, s, now), now)
    else
      Drain(cfg, s, now)
  }

  function Enqueue(cfg: Config, s: State): State {
    s.(queue := s.queue + [s.submitted], submitted := s.submitted + 1,
       armed := if cfg.queueTimeout != 0 then s.armed + {s.submitted} else s.armed)
  }

  function Finish(s: State, id: nat): State {
    s.(active := s.active - 1, running := s.running - {id}, settled := s.settled + [id])
  }

  function DropQueued(s: State, id: nat): State {
    s.(queue := Remove(s.queue, id), armed := s.armed - {id}, settled := s.settled + [id])
  }

  function Step(cfg: Config, s: State, e: Event): State {
    match e
    case Submit(now) => Processed(cfg, Enqueue(cfg, s), now)
    case Complete(id, now) => Processed(cfg, Finish(s, id), now)
    case QueueTimeout(id) => DropQueued(s, id)
    case ThrottleTick(now) => Processed(cfg, s.(timer := false), now)
    case ClearQueue => s.(timer := false, queue := [], armed := {}, settled := s.settled + s.queue)
    case QueueStatus(now) => if cfg.enableThrottling then ResetIfDue(cfg, s, now) else s
  }

  // ---------- Runs ----------

  ghost predicate Runnable(cfg: Config, s: State, events: seq<Event>)
    decreases |events|
  {
    events == [] || (Enabled(s, events[0]) && Runnable(cfg, Step(cfg, s, events[0]), events[1..]))
  }

  function Run(cfg: Config, s: State, events: seq<Event>): State
    decreases |events|
  {
    if events == [] then s else Run(cfg, Step(cfg, s, events[0]), events[1..])
  }

  // ---------- Invariants ----------

  // Every submitted request is exactly one of queued, running and settled, and has
  // settled at most once.
  ghost predicate Partitioned(s: State) {
    && (forall x :: x in s.queue ==> x < s.submitted && x !in s.running && x !in s.settled)
    && (forall x :: x in s.running ==> x < s.submitted && x !in s.settled)
    && (forall x :: x in s.settled ==> x < s.submitted)
    && (forall x: nat :: x < s.submitted ==> x in s.queue || x in s.running || x in s.settled)
    && NoDuplicates(s.settled)
  }

  // Requests wait and start in the order of their submission.
  ghost predicate Ordered(s: State) {
    && Increasing(s.queue)
    && Increasing(s.started)
    && (forall x, y :: x in s.started && y in s.queue ==> x < y)
    && (forall x :: x in s.started ==> x < s.submitted)
    && (forall x :: x in s.running ==> x in s.started)
  }

  ghost predicate Counted(cfg: Config, s: State) {
    && s.active == |s.running|
    && (s.active == 0 || s.active <= cfg.maxConcurrentRequests)
    && s.resetMark <= |s.started| && s.count == |s.started| - s.resetMark
    && (forall x :: x in s.armed <==> cfg.queueTimeout != 0 && x in s.queue)
    && (s.timer ==> cfg.enableThrottling)
  }

  // A waiting request and a free slot.
  predicate Starving(cfg: Config, s: State) {
    s.queue != [] && s.active < cfg.maxConcurrentRequests
  }

  function NonNegative(n: int): nat {
    if n < 0 then 0 else n
  }

  function StartBound(cfg: Config): nat {
    Max(NonNegative(cfg.throttleRate), NonNegative(cfg.maxConcurrentRequests))
  }

  // Requests started since the counter was last reset.
  ghost predicate RateBounded(cfg: Config, s: State) {
    cfg.enableThrottling ==>
      && |s.started| - s.resetMark <= StartBound(cfg)
      && (Starving(cfg, s) ==> s.count >= cfg.throttleRate || s.count == 0)
  }

  ghost predicate Inv(cfg: Config, s: State) {
    && Partitioned(s) && Ordered(s) && Counted(cfg, s)
    && (Starving(cfg, s) ==> s.timer)  // no wakeup is lost
    && RateBounded(cfg, s)
  }

  ghost predicate Core(cfg: Config, s: State) {
    Partitioned(s) && Ordered(s) && Counted(cfg, s)
  }

  // ---------- What every step keeps ----------

  lemma IncreasingSnoc(s: seq<nat>, x: nat)
    requires Increasing(s) && forall y :: y in s ==> y < x
    ensures Increasing(s + [x])
  {
    assert forall i :: 0 <= i < |s| ==> s[i] in s;
  }

  lemma HeadIsLeast(s: seq<nat>)
    requires s != [] && Increasing(s)
    ensures s[0] !in s[1..] && forall y :: y in s[1..] ==> s[0] < y
    ensures forall y :: y in s <==> y == s[0] || y in s[1..]
    ensures Increasing(s[1..])
  {
  }

  lemma StartKeepsPartition(s: State, now: int)
    requires Partitioned(s) && s.queue != [] && Increasing(s.queue)
    ensures Partitioned(StartFirst(s, now))
  {
    HeadIsLeast(s.queue);
  }

  lemma StartKeepsOrder(s: State, now: int)
    requires Partitioned(s) && Ordered(s) && s.queue != []
    ensures Ordered(StartFirst(s, now))
  {
    var id := s.queue[0];
    HeadIsLeast(s.queue);
    IncreasingSnoc(s.started, id);
    assert forall x :: x in s.started + [id] <==> x in s.started || x == id;
  }

  lemma StartKeepsCounts(cfg: Config, s: State, now: int)
    requires Partitioned(s) && Increasing(s.queue) && Counted(cfg, s) && Starving(cfg, s)
    ensures Counted(cfg, StartFirst(s, now))
  {
    HeadIsLeast(s.queue);
    var id := s.queue[0];
    assert id in s.queue;
    assert |s.running + {id}| == |s.running| + 1;
  }

  lemma StartKeepsCore(cfg: Config, s: State, now: int)
    requires Core(cfg, s) && Starving(cfg, s)
    ensures Core(cfg, StartFirst(s, now))
  {
    StartKeepsPartition(s, now);
    StartKeepsOrder(s, now);
    StartKeepsCounts(cfg, s, now);
  }

  lemma {:induction false} DrainKeepsCore(cfg: Config, s: State, now: int)
    requires Core(cfg, s)
    ensures var t := Drain(cfg, s, now);
      && Core(cfg, t) && !Starving(cfg, t)
      && t.timer == s.timer && t.resetMark == s.resetMark
      && 0 <= t.count - s.count == t.active - s.active == |s.queue| - |t.queue|
      && s.started <= t.started && t.settled == s.settled && t.submitted == s.submitted
    decreases |s.queue|
  {
    if Starving(cfg, s) {
      StartKeepsCore(cfg, s, now);
      DrainKeepsCore(cfg, StartFirst(s, now), now);
    }
  }

  // Before the queue is processed: starts are within the bound, and several can
  // follow only on a fresh or an exhausted counter.
  ghost predicate Ready(cfg: Config, s: State) {
    cfg.enableThrottling ==>
      && s.count <= StartBound(cfg)
      && (s.count >= cfg.throttleRate || s.count == 0 || |s.queue| <= 1 || s.active >= cfg.maxConcurrentRequests - 1)
  }

  lemma ProcessEstablishesInv(cfg: Config, s: State, now: int)
    requires Core(cfg, s) && Ready(cfg, s)
    ensures Inv(cfg, Processed(cfg, s, now))
  {
    if cfg.enableThrottling {
      if Throttled(cfg, s, now) {
        assert Core(cfg, s.(timer := true));
      } else {
        assert Core(cfg, ResetIfDue(cfg, s, now));
        DrainKeepsCore(cfg, ResetIfDue(cfg, s, now), now);
      }
    } else {
      DrainKeepsCore(cfg, s, now);
    }
  }

  lemma SubmitKeepsInv(cfg: Config, s: State, now: int)
    requires Inv(cfg, s)
    ensures Inv(cfg, Step(cfg, s, Submit(now)))
  {
    EnqueueKeepsCore(cfg, s);
    ProcessEstablishesInv(cfg, Enqueue(cfg, s), now);
  }

  lemma EnqueueKeepsCore(cfg: Config, s: State)
    requires Core(cfg, s)
    ensures Core(cfg, Enqueue(cfg, s))
  {
    IncreasingSnoc(s.queue, s.submitted);
    assert forall x :: x in Enqueue(cfg, s).queue <==> x in s.queue || x == s.submitted;
  }

  lemma CompleteKeepsInv(cfg: Config, s: State, id: nat, now: int)
    requires Inv(cfg, s) && id in s.running
    ensures Inv(cfg, Step(cfg, s, Complete(id, now)))
  {
    FinishKeepsCore(cfg, s, id);
    ProcessEstablishesInv(cfg, Finish(s, id), now);
  }

  lemma FinishKeepsCore(cfg: Config, s: State, id: nat)
    requires Core(cfg, s) && id in s.running
    ensures Core(cfg, Finish(s, id))
  {
    assert forall x :: x in Finish(s, id).settled <==> x in s.settled || x == id;
  }

  lemma TimeoutKeepsInv(cfg: Config, s: State, id: nat)
    requires Inv(cfg, s) && id in s.armed
    ensures Inv(cfg, Step(cfg, s, QueueTimeout(id)))
  {
    var t := DropQueued(s, id);
    assert forall x :: x in t.settled <==> x in s.settled || x == id;
    RemoveKeepsIncreasing(s.queue, id);
    assert Core(cfg, t);
  }

  lemma {:induction false} RemoveKeepsIncreasing(s: seq<nat>, x: nat)
    requires Increasing(s)
    ensures Increasing(Remove(s, x))
  {
    if s != [] {
      HeadIsLeast(s);
      RemoveKeepsIncreasing(s[1..], x);
      var rest := Remove(s[1..], x);
      assert forall i :: 0 <= i < |rest| ==> rest[i] in rest;
    }
  }

  lemma ClearKeepsInv(cfg: Config, s: State)
    requires Inv(cfg, s)
    ensures Inv(cfg, Step(cfg, s, ClearQueue))
  {
    var t := Step(cfg, s, ClearQueue);
    assert forall i :: 0 <= i < |s.queue| ==> s.queue[i] in s.queue;
    assert forall i :: 0 <= i < |s.settled| ==> s.settled[i] in s.settled;
    assert NoDuplicates(t.settled);
    assert forall x :: x in t.settled <==> x in s.settled || x in s.queue;
  }

  lemma StepKeepsInv(cfg: Config, s: State, e: Event)
    requires Inv(cfg, s) && Enabled(s, e)
    ensures Inv(cfg, Step(cfg, s, e))
  {
    match e
    case Submit(now) => SubmitKeepsInv(cfg, s, now);
    case Complete(id, now) => CompleteKeepsInv(cfg, s, id, now);
    case QueueTimeout(id) => TimeoutKeepsInv(cfg, s, id);
    case ThrottleTick(now) => ProcessEstablishesInv(cfg, s.(timer := false), now);
    case ClearQueue => ClearKeepsInv(cfg, s);
    case QueueStatus(now) =>
  }

  // Every interleaving keeps the invariant.
  lemma {:induction false} RunKeepsInv(cfg: Config, s: State, events: seq<Event>)
    requires Inv(cfg, s) && Runnable(cfg, s, events)
    ensures Inv(cfg, Run(cfg, s, events))
    decreases |events|
  {
    if events != [] {
      StepKeepsInv(cfg, s, events[0]);
      RunKeepsInv(cfg, Step(cfg, s, events[0]), events[1..]);
    }
  }

  lemma InitialInv(cfg: Config, now: int)
    ensures Inv(cfg, Initial(now))
  {
  }

  // The theorem over all interleavings, spelled out: requests are never lost and
  // settle at most once, the limit is respected, starts follow submission order,
  // a waiting request with a free slot has a timer to wake it, and the starts
  // since the last reset stay within the larger of rate and limit.
  lemma EveryInterleaving(cfg: Config, now: int, events: seq<Event>)
    requires Runnable(cfg, Initial(now), events)
    ensures var s := Run(cfg, Initial(now), events);
      && (forall x: nat :: x < s.submitted <==> x in s.queue || x in s.running || x in s.settled)
      && (forall x :: x in s.queue ==> x !in s.running && x !in s.settled)
      && (forall x :: x in s.running ==> x !in s.settled)
      && NoDuplicates(s.settled)
      && |s.running| == s.active <= NonNegative(cfg.maxConcurrentRequests)
      && Increasing(s.started) && (forall x, y :: x in s.started && y in s.queue ==> x < y)
      && (s.queue != [] && s.active < cfg.maxConcurrentRequests ==> s.timer)
      && (cfg.enableThrottling ==> |s.started| - s.resetMark <= StartBound(cfg))
  {
    InitialInv(cfg, now);
    RunKeepsInv(cfg, Initial(now), events);
  }

  // The throttle timer does wake the queue: firing once the interval is over, it
  // leaves no request waiting beside a free slot and needs no further timer.
  lemma DueTickDrains(cfg: Config, s: State, now: int)
    requires Inv(cfg, s) && s.timer && now - s.lastReset >= cfg.throttleInterval
    ensures var t := Step(cfg, s, ThrottleTick(now));
      && (t.queue == [] || t.active >= cfg.maxConcurrentRequests) && !t.timer
      && |s.queue| - |t.queue| == t.active - s.active == |t.started| - |s.started|
  {
    var reset := ResetIfDue(cfg, s.(timer := false), now);
    assert Core(cfg, reset);
    DrainKeepsCore(cfg, reset, now);
  }

  // ---------- What single steps do ----------

  // Requests start from the front of the queue, in their order.
  lemma {:induction false} DrainStartsFirst(cfg: Config, s: State, now: int) returns (k: nat)
    ensures k <= |s.queue|
    ensures var t := Drain(cfg, s, now);
      && t.queue == s.queue[k..] && t.started == s.started + s.queue[..k]
      && t.settled == s.settled && t.submitted == s.submitted
    decreases |s.queue|
  {
    k := 0;
    if Starving(cfg, s) {
      var rest := DrainStartsFirst(cfg, StartFirst(s, now), now);
      k := rest + 1;
      assert s.queue == [s.queue[0]] + s.queue[1..];
      assert s.queue[..k] == [s.queue[0]] + s.queue[1..][..rest];
      assert s.started + s.queue[..k] == s.started + [s.queue[0]] + s.queue[1..][..rest];
    }
  }

  lemma ProcessedStartsFirst(cfg: Config, s: State, now: int) returns (k: nat)
    ensures k <= |s.queue|
    ensures var t := Processed(cfg, s, now);
      && t.queue == s.queue[k..] && t.started == s.started + s.queue[..k]
      && t.settled == s.settled && t.submitted == s.submitted
  {
    if !cfg.enableThrottling {
      k := DrainStartsFirst(cfg, s, now);
    } else if Throttled(cfg, s, now) {
      k := 0;
    } else {
      k := DrainStartsFirst(cfg, ResetIfDue(cfg, s, now), now);
    }
  }

  // A queue timeout takes its request out of the queue and settles it; the others
  // keep their order, and nothing else changes.
  lemma TimeoutSettles(cfg: Config, s: State, id: nat) returns (i: nat)
    requires Inv(cfg, s) && id in s.armed
    ensures i < |s.queue| && s.queue[i] == id
    ensures var t := Step(cfg, s, QueueTimeout(id));
      && t.queue == s.queue[..i] + s.queue[i + 1..] && id !in t.queue
      && t.armed == s.armed - {id} && t.settled == s.settled + [id]
      && t.running == s.running && t.started == s.started && t.startTimes == s.startTimes && t.active == s.active
      && t.timer == s.timer && t.count == s.count && t.lastReset == s.lastReset && t.resetMark == s.resetMark
      && t.submitted == s.submitted
  {
    assert id in s.queue;
    i :| i < |s.queue| && s.queue[i] == id;
    RemoveAt(s.queue, i);
  }

  // Clearing settles everything that waits, in its order, and drops all timers; what
  // runs goes on.
  lemma ClearSettles(cfg: Config, s: State)
    ensures var t := Step(cfg, s, ClearQueue);
      && t.queue == [] && t.armed == {} && !t.timer && t.settled == s.settled + s.queue
      && t.running == s.running && t.started == s.started && t.startTimes == s.startTimes && t.active == s.active
      && t.count == s.count && t.lastReset == s.lastReset && t.resetMark == s.resetMark && t.submitted == s.submitted
  {
  }

  // A completion settles its request and starts what it can from the queue.
  lemma CompleteSettles(cfg: Config, s: State, id: nat, now: int) returns (k: nat)
    requires Inv(cfg, s) && id in s.running
    ensures k <= |s.queue|
    ensures var t := Step(cfg, s, Complete(id, now));
      && t.settled == s.settled + [id] && id !in t.running
      && t.queue == s.queue[k..] && t.started == s.started + s.queue[..k]
  {
    k := ProcessedStartsFirst(cfg, Finish(s, id), now);
    CompleteKeepsInv(cfg, s, id, now);
    assert id in Step(cfg, s, Complete(id, now)).settled;
  }

  // ---------- Over whole runs ----------

  lemma StepKeepsSettled(cfg: Config, s: State, e: Event)
    ensures s.settled <= Step(cfg, s, e).settled
  {
    match e
    case Submit(now) => var _ := ProcessedStartsFirst(cfg, Enqueue(cfg, s), now);
    case Complete(id, now) => var _ := ProcessedStartsFirst(cfg, Finish(s, id), now);
    case ThrottleTick(now) => var _ := ProcessedStartsFirst(cfg, s.(timer := false), now);
    case _ =>
  }

  lemma {:induction false} RunKeepsSettled(cfg: Config, s: State, events: seq<Event>)
    ensures s.settled <= Run(cfg, s, events).settled
    decreases |events|
  {
    if events != [] {
      StepKeepsSettled(cfg, s, events[0]);
      RunKeepsSettled(cfg, Step(cfg, s, events[0]), events[1..]);
    }
  }

  // Submitted, and neither waiting nor ever started.
  ghost predicate Dropped(s: State, id: nat) {
    id < s.submitted && id !in s.queue && id !in s.started
  }

  lemma ProcessedKeepsDropped(cfg: Config, s: State, id: nat, now: int)
    requires Dropped(s, id)
    ensures Dropped(Processed(cfg, s, now), id)
  {
    var k := ProcessedStartsFirst(cfg, s, now);
  }

  lemma StepKeepsDropped(cfg: Config, s: State, id: nat, e: Event)
    requires Dropped(s, id)
    ensures Dropped(Step(cfg, s, e), id)
  {
    match e
    case Submit(now) => ProcessedKeepsDropped(cfg, Enqueue(cfg, s), id, now);
    case Complete(done, now) => ProcessedKeepsDropped(cfg, Finish(s, done), id, now);
    case ThrottleTick(now) => ProcessedKeepsDropped(cfg, s.(timer := false), id, now);
    case _ =>
  }

  lemma {:induction false} RunKeepsDropped(cfg: Config, s: State, id: nat, events: seq<Event>)
    requires Dropped(s, id)
    ensures Dropped(Run(cfg, s, events), id)
    decreases |events|
  {
    if events != [] {
      StepKeepsDropped(cfg, s, id, events[0]);
      RunKeepsDropped(cfg, Step(cfg, s, events[0]), id, events[1..]);
    }
  }

  // Whatever follows a queue timeout, its request stays settled and never starts.
  lemma {:induction false} TimedOutForGood(cfg: Config, s: State, events: seq<Event>, i: nat, id: nat)
    requires Inv(cfg, s) && Runnable(cfg, s, events)
    requires i < |events| && events[i] == QueueTimeout(id)
    ensures var t := Run(cfg, s, events); id in t.settled && Dropped(t, id)
    decreases |events|
  {
    var next := Step(cfg, s, events[0]);
    if i == 0 {
      var j := TimeoutSettles(cfg, s, id);
      assert id in next.settled;
      RunKeepsSettled(cfg, next, events[1..]);
      RunKeepsDropped(cfg, next, id, events[1..]);
    } else {
      StepKeepsInv(cfg, s, events[0]);
      TimedOutForGood(cfg, next, events[1..], i - 1, id);
    }
  }

  // Nor do requests that a clearing found waiting.
  lemma {:induction false} ClearedForGood(cfg: Config, s: State, events: seq<Event>, id: nat)
    requires Inv(cfg, s) && id in s.queue
    ensures var t := Run(cfg, s, [ClearQueue] + events); id in t.settled && Dropped(t, id)
  {
    var next := Step(cfg, s, ClearQueue);
    assert ([ClearQueue] + events)[1..] == events;
    assert id in next.settled;
    RunKeepsSettled(cfg, next, events);
    RunKeepsDropped(cfg, next, id, events);
  }

  // ---------- The class ----------

  class ConcurrencyQueue {
    const config: Config
    var activeRequests: int
    var queue: seq<nat>
    var throttleTimer: bool
    var requestsInCurrentInterval: nat
    var lastThrottleReset: int
    var timeouts: set<nat>
    var nextId: nat
    ghost var running: set<nat>
    ghost var started: seq<nat>
    ghost var startTimes: seq<int>
    ghost var settled: seq<nat>
    ghost var resetMark: nat

    ghost function Now(): State
      reads this
    {
      State(activeRequests, queue, throttleTimer, requestsInCurrentInterval, lastThrottleReset, timeouts,
            nextId, running, started, startTimes, settled, resetMark)
    }

    constructor (config: Config, now: int)
      ensures this.config == config && Now() == Initial(now) && Inv(config, Now())
    {
      this.config := config;
      activeRequests, queue, throttleTimer, requestsInCurrentInterval := 0, [], false, 0;
      lastThrottleReset, timeouts, nextId := now, {}, 0;
      running, started, startTimes, settled, resetMark := {}, [], [], [], 0;
    }

    // Queues a request under a fresh number, to be started at once if possible.
    method Execute(now: int) returns (requestId: nat)
      requires Inv(config, Now())
      modifies this
      ensures requestId == old(nextId)
      ensures Now() == Step(config, old(Now()), Submit(now)) && Inv(config, Now())
    {
      SubmitKeepsInv(config, Now(), now);
      requestId := nextId;
      nextId := nextId + 1;
      if config.queueTimeout != 0 {
        timeouts := timeouts + {requestId};
      }
      queue := queue + [requestId];
      assert Now() == Enqueue(config, old(Now()));
      ProcessQueue(now);
    }

    method ProcessQueue(now: int)
      modifies this
      ensures Now() == Processed(config, old(Now()), now)
    {
      if config.enableThrottling {
        var throttled := IsThrottled(now);
        if throttled {
          throttleTimer := true;
          return;
        }
      }
      StartWhileFree(now);
    }

    // The start loop.
    method StartWhileFree(ghost now: int)
      modifies this
      ensures Now() == Drain(config, old(Now()), now)
    {
      ghost var s := Now();
      while activeRequests < config.maxConcurrentRequests && |queue| > 0
        invariant Drain(config, Now(), now) == Drain(config, s, now)
        decreases |queue|
      {
        StartNext(now);
      }
    }

    // Takes the first request out of the queue, clears its timeout and runs it.
    method StartNext(ghost now: int)
      requires queue != []
      modifies this
      ensures Now() == StartFirst(old(Now()), now)
    {
      var request := queue[0];
      queue := queue[1..];
      timeouts := timeouts - {request};
      activeRequests := activeRequests + 1;
      requestsInCurrentInterval := requestsInCurrentInterval + 1;
      running, started, startTimes := running + {request}, started + [request], startTimes + [now];
    }

    // Resets the counter when the interval has passed.
    method IsThrottled(now: int) returns (throttled: bool)
      modifies this
      ensures Now() == ResetIfDue(config, old(Now()), now)
      ensures throttled == Throttled(config, old(Now()), now)
    {
      if now - lastThrottleReset >= config.throttleInterval {
        requestsInCurrentInterval := 0;
        lastThrottleReset := now;
        resetMark := |started|;
        return false;
      }
      throttled := requestsInCurrentInterval >= config.throttleRate;
    }

    // A running request resolved or rejected.
    method OnCompleted(requestId: nat, now: int)
      requires Inv(config, Now()) && requestId in running
      modifies this
      ensures Now() == Step(config, old(Now()), Complete(requestId, now)) && Inv(config, Now())
    {
      CompleteKeepsInv(config, Now(), requestId, now);
      running, settled := running - {requestId}, settled + [requestId];
      activeRequests := activeRequests - 1;
      assert Now() == Finish(old(Now()), requestId);
      ProcessQueue(now);
    }

    // A request's queue timeout fired: it leaves the queue and is rejected.
    method OnQueueTimeout(requestId: nat)
      requires Inv(config, Now()) && requestId in timeouts
      modifies this
      ensures Now() == Step(config, old(Now()), QueueTimeout(requestId)) && Inv(config, Now())
    {
      TimeoutKeepsInv(config, Now(), requestId);
      var index := 0;
      while index < |queue| && queue[index] != requestId
        invariant index <= |queue| && requestId !in queue[..index]
      {
        index := index + 1;
      }
      if index < |queue| {
        RemoveAt(queue, index);
        queue := queue[..index] + queue[index + 1..];
      }
      timeouts := timeouts - {requestId};
      settled := settled + [requestId];
    }

    method OnThrottleTimer(now: int)
      requires Inv(config, Now()) && throttleTimer
      modifies this
      ensures Now() == Step(config, old(Now()), ThrottleTick(now)) && Inv(config, Now())
    {
      StepKeepsInv(config, Now(), ThrottleTick(now));
      throttleTimer := false;
      ProcessQueue(now);
    }

    // Rejects everything still waiting.
    method Clear()
      requires Inv(config, Now())
      modifies this
      ensures Now() == Step(config, old(Now()), ClearQueue) && Inv(config, Now())
    {
      ClearKeepsInv(config, Now());
      throttleTimer := false;
      ghost var before := settled;
      for k := 0 to |queue|
        invariant queue == old(queue)
        invariant settled == before + queue[..k]
        invariant timeouts == old(timeouts) - set x | x in queue[..k]
        invariant Now() == old(Now()).(timer := false, armed := timeouts, settled := settled)
      {
        timeouts := timeouts - {queue[k]};
        settled := settled + [queue[k]];
      }
      assert queue[..|queue|] == queue;
      queue := [];
    }

    // Asking for the status can reset the throttle counter.
    method GetQueueStatus(now: int) returns (isThrottled: bool)
      requires Inv(config, Now())
      modifies this
      ensures Now() == Step(config, old(Now()), QueueStatus(now)) && Inv(config, Now())
      ensures isThrottled == (config.enableThrottling && Throttled(config, old(Now()), now))
    {
      StepKeepsInv(config, Now(), QueueStatus(now));
      isThrottled := false;
      if config.enableThrottling {
        isThrottled := IsThrottled(now);
      }
    }
  }

  lemma RemoveAt(s: seq<nat>, i: nat)
    requires i < |s| && Increasing(s)
    ensures Remove(s, s[i]) == s[..i] + s[i + 1..]
  {
    NotElsewhere(s, i);
    SplitAt(s, i);
    RemoveBetween(s[..i], s[i], s[i + 1..]);
  }

  lemma SplitAt(s: seq<nat>, i: nat)
    requires i < |s|
    ensures s == s[..i] + ([s[i]] + s[i + 1..])
  {
  }

  lemma NotElsewhere(s: seq<nat>, i: nat)
    requires i < |s| && Increasing(s)
    ensures s[i] !in s[..i] && s[i] !in s[i + 1..]
  {
  }

  lemma RemoveBetween(front: seq<nat>, x: nat, back: seq<nat>)
    requires x !in front && x !in back
    ensures Remove(front + ([x] + back), x) == front + back
  {
    RemoveConcat(front, [x] + back, x);
    RemoveAbsent(front, x);
    RemoveConcat([x], back, x);
    RemoveAbsent(back, x);
    assert Remove([x], x) == [] && [] + back == back;
  }
}
