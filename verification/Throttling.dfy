// How sharp the throttle of src/utils/concurrencyQueue.ts is: the most requests that
// can start between two resets of its counter, and within any window of time.
module Throttling {
  import opened IncreasingSequences
  import opened Queue = ConcurrencyQueue

  // ---------- Clocks and windows ----------

  // When an event happens; the queue does not look at the clock for some.
  function TimeOf(e: Event, clock: int): int {
    match e
    case Submit(now) => now
    case Complete(_, now) => now
    case QueueTimeout(_) => clock
    case ThrottleTick(now) => now
    case ClearQueue => clock
    case QueueStatus(now) => now
  }

  // The clock does not run backwards.
  ghost predicate Clocked(clock: int, events: seq<Event>)
    decreases |events|
  {
    events == [] || (clock <= TimeOf(events[0], clock) && Clocked(TimeOf(events[0], clock), events[1..]))
  }

  function ClockAfter(clock: int, events: seq<Event>): int
    decreases |events|
  {
    if events == [] then clock else ClockAfter(TimeOf(events[0], clock), events[1..])
  }

  // How many of the times lie in the half-open window of the given length from a.
  function StartsWithin(times: seq<int>, a: int, length: int): nat {
    if times == [] then 0
    else
      var last := |times| - 1;
      StartsWithin(times[..last], a, length) + if a <= times[last] < a + length then 1 else 0
  }

  // A window of the interval's length can reach over one reset, so twice the bound
  // between resets can start in it. It cannot hold starts of two periods when it is
  // a single instant, or when the rate allows starts at the instants of resets only.
  function MostInAWindow(cfg: Config): nat {
    if cfg.throttleInterval <= 0 || cfg.maxConcurrentRequests <= 0 then 0 else StartBound(cfg) + Carried(cfg)
  }

  // The starts of the period before that a window can hold.
  function Carried(cfg: Config): nat {
    if cfg.throttleInterval == 1 || cfg.throttleRate <= 0 then 0 else StartBound(cfg)
  }

  // ---------- No window holds more ----------

  ghost predicate NoneLater(times: seq<int>, n: nat, t: int) {
    n <= |times| && forall i :: 0 <= i < n ==> times[i] <= t
  }

  // The starts before the mark have left every window that reaches past the reset.
  ghost predicate OutOfReach(cfg: Config, times: seq<int>, lastReset: int, resetMark: nat, mark: nat) {
    && mark <= resetMark && resetMark - mark <= Carried(cfg)
    && NoneLater(times, mark, lastReset - cfg.throttleInterval)
  }

  ghost predicate WindowsBounded(cfg: Config, times: seq<int>) {
    forall a :: StartsWithin(times, a, cfg.throttleInterval) <= MostInAWindow(cfg)
  }

  // What the times of the starts have to do with the last reset.
  ghost predicate Timed(cfg: Config, times: seq<int>, lastReset: int, resetMark: nat) {
    && NoneLater(times, resetMark, lastReset - 1)
    && NoneLater(times, |times|, lastReset + cfg.throttleInterval - 1)
    && (cfg.throttleRate <= 0 ==> NoneLater(times, |times|, lastReset))
    && (cfg.maxConcurrentRequests <= 0 ==> times == [])
    && (exists mark: nat :: OutOfReach(cfg, times, lastReset, resetMark, mark))
    && WindowsBounded(cfg, times)
  }

  ghost predicate TimedState(cfg: Config, s: State, clock: int) {
    |s.startTimes| == |s.started| && s.lastReset <= clock && Timed(cfg, s.startTimes, s.lastReset, s.resetMark)
  }

  lemma {:induction false} DrainTimes(cfg: Config, s: State, now: int, a: int, length: int)
    ensures var t := Drain(cfg, s, now);
      && t.lastReset == s.lastReset && t.resetMark == s.resetMark
      && |t.started| >= |s.started| && |t.startTimes| - |t.started| == |s.startTimes| - |s.started|
      && s.startTimes <= t.startTimes
      && (forall i :: |s.startTimes| <= i < |t.startTimes| ==> t.startTimes[i] == now)
      && StartsWithin(t.startTimes, a, length) == StartsWithin(s.startTimes, a, length)
           + if a <= now < a + length then |t.started| - |s.started| else 0
    decreases |s.queue|
  {
    if Starving(cfg, s) {
      var next := StartFirst(s, now);
      assert next.startTimes[..|s.startTimes|] == s.startTimes;
      DrainTimes(cfg, next, now, a, length);
    }
  }

  // Starts that all lie before the window do not count.
  lemma {:induction false} OnlyLaterCount(times: seq<int>, mark: nat, a: int, length: int)
    requires NoneLater(times, mark, a - 1)
    ensures StartsWithin(times, a, length) <= |times| - mark
  {
    if |times| > mark {
      OnlyLaterCount(times[..|times| - 1], mark, a, length);
    } else if times != [] {
      OnlyLaterCount(times[..mark - 1], mark - 1, a, length);
    }
  }

  lemma {:induction false} EmptyWindow(times: seq<int>, a: int, length: int)
    requires length <= 0
    ensures StartsWithin(times, a, length) == 0
  {
    if times != [] {
      EmptyWindow(times[..|times| - 1], a, length);
    }
  }

  // A reset: all starts so far lie in the past.
  lemma ResetKeepsTimed(cfg: Config, times: seq<int>, lastReset: int, resetMark: nat, now: int)
    requires Timed(cfg, times, lastReset, resetMark) && cfg.throttleInterval > 0
    requires now - lastReset >= cfg.throttleInterval && |times| - resetMark <= StartBound(cfg)
    ensures Timed(cfg, times, now, |times|)
  {
    var mark := if Carried(cfg) == 0 then |times| else resetMark;
    assert OutOfReach(cfg, times, now, |times|, mark);
  }

  // Starts at one instant, within the interval since the reset.
  lemma StartsKeepTimed(cfg: Config, times: seq<int>, times': seq<int>, lastReset: int, resetMark: nat, now: int)
    requires Timed(cfg, times, lastReset, resetMark) && times <= times'
    requires forall i :: |times| <= i < |times'| ==> times'[i] == now
    requires forall a :: StartsWithin(times', a, cfg.throttleInterval) == StartsWithin(times, a, cfg.throttleInterval)
                           + if a <= now < a + cfg.throttleInterval then |times'| - |times| else 0
    requires lastReset <= now < lastReset + cfg.throttleInterval && (cfg.throttleRate <= 0 ==> now == lastReset)
    requires cfg.maxConcurrentRequests > 0 && |times'| - resetMark <= StartBound(cfg)
    ensures Timed(cfg, times', lastReset, resetMark)
  {
    var mark: nat :| OutOfReach(cfg, times, lastReset, resetMark, mark);
    assert OutOfReach(cfg, times', lastReset, resetMark, mark);
    forall a
      ensures StartsWithin(times', a, cfg.throttleInterval) <= MostInAWindow(cfg)
    {
      if a <= now < a + cfg.throttleInterval {
        OnlyLaterCount(times', mark, a, cfg.throttleInterval);
      }
    }
  }

  lemma DrainKeepsTimed(cfg: Config, s: State, now: int)
    requires TimedState(cfg, s, now) && s.active >= 0
    requires now < s.lastReset + cfg.throttleInterval && (cfg.throttleRate <= 0 ==> now == s.lastReset)
    requires |Drain(cfg, s, now).started| - s.resetMark <= StartBound(cfg)
    ensures TimedState(cfg, Drain(cfg, s, now), now)
  {
    var t := Drain(cfg, s, now);
    forall a
      ensures StartsWithin(t.startTimes, a, cfg.throttleInterval) == StartsWithin(s.startTimes, a, cfg.throttleInterval)
                + if a <= now < a + cfg.throttleInterval then |t.startTimes| - |s.startTimes| else 0
    {
      DrainTimes(cfg, s, now, a, cfg.throttleInterval);
    }
    DrainTimes(cfg, s, now, 0, 0);
    if cfg.maxConcurrentRequests > 0 {
      StartsKeepTimed(cfg, s.startTimes, t.startTimes, s.lastReset, s.resetMark, now);
    }
  }

  lemma ProcessKeepsTimed(cfg: Config, s: State, clock: int, now: int)
    requires cfg.enableThrottling && cfg.throttleInterval > 0
    requires TimedState(cfg, s, clock) && clock <= now && Core(cfg, s) && s.count <= StartBound(cfg)
    requires Inv(cfg, Processed(cfg, s, now))
    ensures TimedState(cfg, Processed(cfg, s, now), now)
  {
    if !Throttled(cfg, s, now) {
      var r := ResetIfDue(cfg, s, now);
      if now - s.lastReset >= cfg.throttleInterval {
        ResetKeepsTimed(cfg, s.startTimes, s.lastReset, s.resetMark, now);
      }
      DrainTimes(cfg, r, now, 0, 0);
      DrainKeepsTimed(cfg, r, now);
    }
  }

  lemma StepKeepsTimed(cfg: Config, s: State, clock: int, e: Event)
    requires cfg.enableThrottling && cfg.throttleInterval > 0
    requires Inv(cfg, s) && Enabled(s, e) && TimedState(cfg, s, clock) && clock <= TimeOf(e, clock)
    ensures TimedState(cfg, Step(cfg, s, e), TimeOf(e, clock))
  {
    StepKeepsInv(cfg, s, e);
    match e
    case Submit(now) =>
      EnqueueKeepsCore(cfg, s);
      ProcessKeepsTimed(cfg, Enqueue(cfg, s), clock, now);
    case Complete(id, now) =>
      FinishKeepsCore(cfg, s, id);
      ProcessKeepsTimed(cfg, Finish(s, id), clock, now);
    case ThrottleTick(now) =>
      assert Core(cfg, s.(timer := false));
      ProcessKeepsTimed(cfg, s.(timer := false), clock, now);
    case QueueStatus(now) =>
      if now - s.lastReset >= cfg.throttleInterval {
        ResetKeepsTimed(cfg, s.startTimes, s.lastReset, s.resetMark, now);
      }
    case _ =>
  }

  lemma {:induction false} RunKeepsTimed(cfg: Config, s: State, clock: int, events: seq<Event>)
    requires cfg.enableThrottling && cfg.throttleInterval > 0
    requires Inv(cfg, s) && TimedState(cfg, s, clock) && Runnable(cfg, s, events) && Clocked(clock, events)
    ensures TimedState(cfg, Run(cfg, s, events), ClockAfter(clock, events))
    decreases |events|
  {
    if events != [] {
      StepKeepsTimed(cfg, s, clock, events[0]);
      StepKeepsInv(cfg, s, events[0]);
      RunKeepsTimed(cfg, Step(cfg, s, events[0]), TimeOf(events[0], clock), events[1..]);
    }
  }

  // In every run in real time, no window of the interval's length, wherever it
  // begins, holds more starts.
  lemma WindowBound(cfg: Config, now: int, events: seq<Event>, a: int)
    requires cfg.enableThrottling && Runnable(cfg, Initial(now), events) && Clocked(now, events)
    ensures StartsWithin(Run(cfg, Initial(now), events).startTimes, a, cfg.throttleInterval) <= MostInAWindow(cfg)
    ensures MostInAWindow(cfg) <= 2 * StartBound(cfg)
  {
    var s := Initial(now);
    if cfg.throttleInterval <= 0 {
      EmptyWindow(Run(cfg, s, events).startTimes, a, cfg.throttleInterval);
    } else {
      InitialInv(cfg, now);
      assert OutOfReach(cfg, [], now, 0, 0);
      RunKeepsTimed(cfg, s, now, events);
    }
  }

  // ---------- Runs that reach the bounds ----------

  // A run in real time from the beginning to the state s.
  ghost predicate Drives(cfg: Config, events: seq<Event>, s: State, clock: int) {
    && Runnable(cfg, Initial(0), events) && Clocked(0, events)
    && Run(cfg, Initial(0), events) == s && ClockAfter(0, events) == clock
  }

  lemma {:induction false} RunSnoc(cfg: Config, s: State, clock: int, events: seq<Event>, e: Event)
    requires Runnable(cfg, s, events) && Enabled(Run(cfg, s, events), e)
    requires Clocked(clock, events) && ClockAfter(clock, events) <= TimeOf(e, ClockAfter(clock, events))
    ensures Runnable(cfg, s, events + [e]) && Clocked(clock, events + [e])
    ensures Run(cfg, s, events + [e]) == Step(cfg, Run(cfg, s, events), e)
    ensures ClockAfter(clock, events + [e]) == TimeOf(e, ClockAfter(clock, events))
    decreases |events|
  {
    if events == [] {
      assert [e][1..] == [];
      assert Run(cfg, Step(cfg, s, e), []) == Step(cfg, s, e);
    } else {
      assert (events + [e])[1..] == events[1..] + [e];
      RunSnoc(cfg, Step(cfg, s, events[0]), TimeOf(events[0], clock), events[1..], e);
    }
  }

  lemma DriveOn(cfg: Config, events: seq<Event>, s: State, clock: int, e: Event)
    requires Drives(cfg, events, s, clock) && Enabled(s, e) && clock <= TimeOf(e, clock)
    ensures Drives(cfg, events + [e], Step(cfg, s, e), TimeOf(e, clock))
  {
    RunSnoc(cfg, Initial(0), 0, events, e);
  }

  lemma DrivenInv(cfg: Config, events: seq<Event>, s: State, clock: int)
    requires Drives(cfg, events, s, clock)
    ensures Inv(cfg, s)
  {
    InitialInv(cfg, 0);
    RunKeepsInv(cfg, Initial(0), events);
  }

  ghost predicate Idle(s: State) {
    s.queue == [] && s.active == 0
  }

  // As many requests waiting as can run at a time, none running, and the timer set.
  ghost predicate Loaded(cfg: Config, s: State) {
    |s.queue| == cfg.maxConcurrentRequests && s.active == 0 && s.timer
  }

  function InWindow(cfg: Config, s: State, a: int): nat {
    StartsWithin(s.startTimes, a, cfg.throttleInterval)
  }

  // What n starts at a time add to the window from a.
  function Adds(cfg: Config, a: int, now: int, n: int): int {
    if a <= now < a + cfg.throttleInterval then n else 0
  }

  lemma StartAdds(cfg: Config, s: State, a: int, now: int)
    requires s.queue != []
    ensures InWindow(cfg, StartFirst(s, now), a) == InWindow(cfg, s, a) + Adds(cfg, a, now, 1)
  {
    assert StartFirst(s, now).startTimes[..|s.startTimes|] == s.startTimes;
  }

  // A request that starts at once.
  lemma SubmitStarts(cfg: Config, s: State, now: int, a: int)
    requires Idle(s) && cfg.maxConcurrentRequests > 0 && cfg.enableThrottling
    requires now - s.lastReset < cfg.throttleInterval && s.count < cfg.throttleRate
    ensures var t := Step(cfg, s, Submit(now));
      && t.queue == [] && t.active == 1 && t.count == s.count + 1 && t.lastReset == s.lastReset
      && t.submitted == s.submitted + 1 && s.submitted in t.running && t.startTimes == s.startTimes + [now]
      && InWindow(cfg, t, a) == InWindow(cfg, s, a) + Adds(cfg, a, now, 1)
  {
    var queued := Enqueue(cfg, s);
    assert Drain(cfg, queued, now) == StartFirst(queued, now);
    StartAdds(cfg, queued, a, now);
  }

  lemma SubmitAfterInterval(cfg: Config, s: State, now: int)
    requires Idle(s) && cfg.maxConcurrentRequests > 0 && cfg.enableThrottling
    requires now - s.lastReset >= cfg.throttleInterval
    ensures Step(cfg, s, Submit(now)).startTimes == s.startTimes + [now]
  {
    var reset := ResetIfDue(cfg, Enqueue(cfg, s), now);
    assert Drain(cfg, reset, now) == StartFirst(reset, now);
  }

  // With nothing waiting, a completion starts nothing.
  lemma CompleteOnly(cfg: Config, s: State, id: nat, now: int)
    requires s.queue == [] && cfg.enableThrottling && now - s.lastReset < cfg.throttleInterval
    ensures var t := Step(cfg, s, Complete(id, now));
      && t.queue == [] && t.active == s.active - 1 && t.count == s.count && t.lastReset == s.lastReset
      && t.startTimes == s.startTimes && t.submitted == s.submitted
  {
  }

  // Uses up the rate of a fresh counter at one instant, one request after the other.
  lemma Burst(cfg: Config, events: seq<Event>, s: State, clock: int, now: int, a: int)
    returns (events': seq<Event>, s': State)
    requires cfg.enableThrottling && cfg.maxConcurrentRequests > 0 && cfg.throttleRate > 0
    requires Drives(cfg, events, s, clock) && clock <= now < s.lastReset + cfg.throttleInterval
    requires Idle(s) && s.count == 0
    ensures Drives(cfg, events', s', now) && Idle(s')
    ensures s'.lastReset == s.lastReset && s'.count == cfg.throttleRate
    ensures InWindow(cfg, s', a) == InWindow(cfg, s, a) + Adds(cfg, a, now, cfg.throttleRate)
  {
    events', s' := events, s;
    var clock' := clock;
    while s'.count < cfg.throttleRate
      invariant Drives(cfg, events', s', clock') && clock' <= now && (s'.count > 0 ==> clock' == now)
      invariant Idle(s') && s'.lastReset == s.lastReset && s'.count <= cfg.throttleRate
      invariant InWindow(cfg, s', a) == InWindow(cfg, s, a) + Adds(cfg, a, now, s'.count)
      decreases cfg.throttleRate - s'.count
    {
      DriveOn(cfg, events', s', clock', Submit(now));
      SubmitStarts(cfg, s', now, a);
      var t := Step(cfg, s', Submit(now));
      events' := events' + [Submit(now)];
      var done := Complete(s'.submitted, now);
      DriveOn(cfg, events', t, now, done);
      CompleteOnly(cfg, t, s'.submitted, now);
      events', s', clock' := events' + [done], Step(cfg, t, done), now;
    }
  }

  // While the rate is used up, requests queue up behind the timer and the running
  // ones finish.
  lemma Load(cfg: Config, events: seq<Event>, s: State, clock: int, now: int)
    returns (events': seq<Event>, s': State)
    requires cfg.enableThrottling && cfg.maxConcurrentRequests > 0
    requires Drives(cfg, events, s, clock) && clock <= now && Throttled(cfg, s, now) && s.queue == []
    ensures Drives(cfg, events', s', now) && Loaded(cfg, s')
    ensures s'.lastReset == s.lastReset && s'.startTimes == s.startTimes
  {
    events', s' := FillQueue(cfg, events, s, clock, now);
    events', s' := FinishRunning(cfg, events', s', now);
  }

  lemma FillQueue(cfg: Config, events: seq<Event>, s: State, clock: int, now: int)
    returns (events': seq<Event>, s': State)
    requires cfg.enableThrottling && cfg.maxConcurrentRequests > 0
    requires Drives(cfg, events, s, clock) && clock <= now && Throttled(cfg, s, now) && s.queue == []
    ensures Drives(cfg, events', s', now) && Throttled(cfg, s', now)
    ensures |s'.queue| == cfg.maxConcurrentRequests && s'.timer
    ensures s'.lastReset == s.lastReset && s'.startTimes == s.startTimes
  {
    events', s' := events, s;
    var clock' := clock;
    while |s'.queue| < cfg.maxConcurrentRequests
      invariant Drives(cfg, events', s', clock') && clock' <= now && Throttled(cfg, s', now)
      invariant |s'.queue| <= cfg.maxConcurrentRequests && (s'.queue != [] ==> s'.timer && clock' == now)
      invariant s'.lastReset == s.lastReset && s'.startTimes == s.startTimes
      decreases cfg.maxConcurrentRequests - |s'.queue|
    {
      DriveOn(cfg, events', s', clock', Submit(now));
      events', s', clock' := events' + [Submit(now)], Step(cfg, s', Submit(now)), now;
    }
  }

  lemma FinishRunning(cfg: Config, events: seq<Event>, s: State, now: int)
    returns (events': seq<Event>, s': State)
    requires cfg.enableThrottling
    requires Drives(cfg, events, s, now) && Throttled(cfg, s, now)
    requires |s.queue| == cfg.maxConcurrentRequests && s.timer
    ensures Drives(cfg, events', s', now) && Loaded(cfg, s')
    ensures s'.lastReset == s.lastReset && s'.startTimes == s.startTimes
  {
    events', s' := events, s;
    DrivenInv(cfg, events, s, now);
    while s'.active > 0
      invariant Drives(cfg, events', s', now) && Throttled(cfg, s', now) && s'.active >= 0
      invariant |s'.queue| == cfg.maxConcurrentRequests && s'.timer
      invariant s'.lastReset == s.lastReset && s'.startTimes == s.startTimes
      decreases s'.active
    {
      DrivenInv(cfg, events', s', now);
      var id :| id in s'.running;
      DriveOn(cfg, events', s', now, Complete(id, now));
      events', s' := events' + [Complete(id, now)], Step(cfg, s', Complete(id, now));
    }
  }

  lemma LoadedDrain(cfg: Config, s: State, now: int, a: int)
    requires Core(cfg, s) && |s.queue| == cfg.maxConcurrentRequests && s.active == 0
    ensures var t := Drain(cfg, s, now);
      && t.queue == [] && t.count == s.count + cfg.maxConcurrentRequests && t.lastReset == s.lastReset
      && |t.started| - t.resetMark == t.count
      && InWindow(cfg, t, a) == InWindow(cfg, s, a) + Adds(cfg, a, now, |s.queue|)
  {
    DrainKeepsCore(cfg, s, now);
    DrainTimes(cfg, s, now, a, cfg.throttleInterval);
  }

  // The pass of a timer that finds the queue loaded and the rate not used up: all
  // that waits starts at once.
  lemma LoadedPass(cfg: Config, s: State, now: int, a: int)
    requires cfg.enableThrottling && Core(cfg, s) && Loaded(cfg, s) && !Throttled(cfg, s, now)
    ensures Released(cfg, s, Step(cfg, s, ThrottleTick(now)), now, a)
  {
    var before := ResetIfDue(cfg, s.(timer := false), now);
    assert Core(cfg, before);
    LoadedDrain(cfg, before, now, a);
  }

  ghost predicate Released(cfg: Config, s: State, t: State, now: int, a: int) {
    var due := now - s.lastReset >= cfg.throttleInterval;
    && t.queue == [] && t.count >= cfg.maxConcurrentRequests
    && t.lastReset == (if due then now else s.lastReset)
    && (due ==> |t.started| - t.resetMark == cfg.maxConcurrentRequests)
    && InWindow(cfg, t, a) == InWindow(cfg, s, a) + Adds(cfg, a, now, |s.queue|)
  }

  lemma Release(cfg: Config, events: seq<Event>, s: State, clock: int, now: int, a: int)
    returns (events': seq<Event>, s': State)
    requires cfg.enableThrottling && Drives(cfg, events, s, clock) && clock <= now
    requires Loaded(cfg, s) && !Throttled(cfg, s, now)
    ensures Drives(cfg, events', s', now) && Released(cfg, s, s', now, a)
  {
    DriveOn(cfg, events, s, clock, ThrottleTick(now));
    DrivenInv(cfg, events, s, clock);
    LoadedPass(cfg, s, now, a);
    events', s' := events + [ThrottleTick(now)], Step(cfg, s, ThrottleTick(now));
  }

  // Asking for the status once the interval is over resets the counter alone.
  lemma Ask(cfg: Config, events: seq<Event>, s: State, clock: int, now: int)
    returns (events': seq<Event>, s': State)
    requires cfg.enableThrottling && Drives(cfg, events, s, clock) && clock <= now
    requires now - s.lastReset >= cfg.throttleInterval
    ensures Drives(cfg, events', s', now)
    ensures s' == s.(count := 0, lastReset := now, resetMark := |s.started|)
  {
    DriveOn(cfg, events, s, clock, QueueStatus(now));
    events', s' := events + [QueueStatus(now)], Step(cfg, s, QueueStatus(now));
  }

  // Used up, loaded, and nothing else: the beginning of every run that overshoots.
  lemma LoadFirst(cfg: Config, now: int) returns (events: seq<Event>, s: State)
    requires cfg.enableThrottling && cfg.maxConcurrentRequests > 0 && 0 <= now < cfg.throttleInterval
    ensures Drives(cfg, events, s, now) && Loaded(cfg, s) && s.lastReset == 0
  {
    events, s := [], Initial(0);
    var clock := 0;
    if cfg.throttleRate > 0 {
      events, s := Burst(cfg, events, s, 0, now, 0);
      clock := now;
    }
    events, s := Load(cfg, events, s, clock, now);
  }

  // A run in which maxConcurrentRequests requests start between two resets: use up
  // the rate, let that many requests queue up while the running ones finish, and let
  // the throttle timer fire.
  lemma Overshoot(cfg: Config) returns (events: seq<Event>)
    requires cfg.enableThrottling && 0 <= cfg.throttleRate < cfg.maxConcurrentRequests && cfg.throttleInterval > 0
    ensures Runnable(cfg, Initial(0), events) && Clocked(0, events)
    ensures var s := Run(cfg, Initial(0), events); |s.started| - s.resetMark == cfg.maxConcurrentRequests
  {
    var s: State;
    events, s := LoadFirst(cfg, 0);
    events, s := Release(cfg, events, s, 0, cfg.throttleInterval, 0);
  }

  // The throttle checks the rate once per pass over the queue, not once per start.
  // So no more than throttleRate requests start between two resets, in every run,
  // exactly when the concurrency limit does not exceed the rate.
  lemma ThrottleHoldsIff(cfg: Config)
    requires cfg.enableThrottling && cfg.throttleRate >= 0 && cfg.throttleInterval > 0
    ensures (forall now, events :: Runnable(cfg, Initial(now), events) ==>
              var s := Run(cfg, Initial(now), events); |s.started| - s.resetMark <= cfg.throttleRate)
            <==> cfg.maxConcurrentRequests <= cfg.throttleRate
  {
    if cfg.maxConcurrentRequests <= cfg.throttleRate {
      forall now, events | Runnable(cfg, Initial(now), events)
        ensures var s := Run(cfg, Initial(now), events); |s.started| - s.resetMark <= cfg.throttleRate
      {
        EveryInterleaving(cfg, now, events);
      }
    } else {
      var events := Overshoot(cfg);
    }
  }

  // ---------- The most in a window ----------

  // The rate used up just before a reset and again right after it.
  lemma TwoBursts(cfg: Config) returns (events: seq<Event>, a: int)
    requires cfg.enableThrottling && 0 < cfg.maxConcurrentRequests <= cfg.throttleRate && cfg.throttleInterval > 0
    ensures Runnable(cfg, Initial(0), events) && Clocked(0, events)
    ensures InWindow(cfg, Run(cfg, Initial(0), events), a) >= MostInAWindow(cfg)
  {
    a := cfg.throttleInterval - 1;
    var s: State;
    events, s := Burst(cfg, [], Initial(0), 0, a, a);
    if cfg.throttleInterval > 1 {
      events, s := Ask(cfg, events, s, a, a + 1);
      events, s := Burst(cfg, events, s, a + 1, a + 1, a);
    }
  }

  // The concurrency limit overshot once, or twice in a row.
  lemma Overshoots(cfg: Config) returns (events: seq<Event>, a: int)
    requires cfg.enableThrottling && cfg.throttleRate < cfg.maxConcurrentRequests && 0 < cfg.maxConcurrentRequests
    requires cfg.throttleInterval > 0
    ensures Runnable(cfg, Initial(0), events) && Clocked(0, events)
    ensures InWindow(cfg, Run(cfg, Initial(0), events), a) >= MostInAWindow(cfg)
  {
    var interval := cfg.throttleInterval;
    var s: State;
    events, s := LoadFirst(cfg, interval - 1);
    if interval == 1 || cfg.throttleRate <= 0 {
      a := interval;
      events, s := Release(cfg, events, s, interval - 1, a, a);
    } else {
      a := interval + 1;
      events, s := Ask(cfg, events, s, interval - 1, interval);
      events, s := Release(cfg, events, s, interval, a, a);
      events, s := Load(cfg, events, s, a, 2 * interval - 1);
      events, s := Release(cfg, events, s, 2 * interval - 1, 2 * interval, a);
    }
  }

  // The bound on windows is sharp, for every configuration.
  lemma WindowBoundIsReached(cfg: Config) returns (events: seq<Event>, a: int)
    requires cfg.enableThrottling
    ensures Runnable(cfg, Initial(0), events) && Clocked(0, events)
    ensures StartsWithin(Run(cfg, Initial(0), events).startTimes, a, cfg.throttleInterval) == MostInAWindow(cfg)
  {
    if cfg.throttleInterval <= 0 || cfg.maxConcurrentRequests <= 0 {
      events, a := [], 0;
    } else if cfg.maxConcurrentRequests <= cfg.throttleRate {
      events, a := TwoBursts(cfg);
      WindowBound(cfg, 0, events, a);
    } else {
      events, a := Overshoots(cfg);
      WindowBound(cfg, 0, events, a);
    }
  }

  // At most throttleRate requests start within any interval, in every run in real
  // time, exactly when none start at all, or when an interval is a single instant
  // and the concurrency limit does not exceed the rate.
  lemma RateHoldsIff(cfg: Config)
    requires cfg.enableThrottling && cfg.throttleRate >= 0 && cfg.throttleInterval > 0
    ensures (forall now, events, a :: Runnable(cfg, Initial(now), events) && Clocked(now, events) ==>
              StartsWithin(Run(cfg, Initial(now), events).startTimes, a, cfg.throttleInterval) <= cfg.throttleRate)
            <==> cfg.maxConcurrentRequests <= 0
                 || (cfg.throttleInterval == 1 && cfg.maxConcurrentRequests <= cfg.throttleRate)
  {
    if MostInAWindow(cfg) <= cfg.throttleRate {
      forall now, events, a | Runnable(cfg, Initial(now), events) && Clocked(now, events)
        ensures StartsWithin(Run(cfg, Initial(now), events).startTimes, a, cfg.throttleInterval) <= cfg.throttleRate
      {
        WindowBound(cfg, now, events, a);
      }
    } else {
      var events, a := WindowBoundIsReached(cfg);
    }
  }

  // One request per second and one at a time: two start within two milliseconds.
  lemma TwoInASecondExample(cfg: Config)
    requires cfg == Config(1, 0, true, 1, 1000)
    ensures
      var events := [Submit(999), Complete(0, 999), Submit(1000)];
      && Runnable(cfg, Initial(0), events) && Clocked(0, events)
      && Run(cfg, Initial(0), events).startTimes == [999, 1000]
    ensures StartsWithin([999, 1000], 999, cfg.throttleInterval) == 2
  {
    var s0 := Initial(0);
    var e1, e2, e3 := Submit(999), Complete(0, 999), Submit(1000);
    SubmitStarts(cfg, s0, 999, 0);
    var s1 := Step(cfg, s0, e1);
    CompleteOnly(cfg, s1, 0, 999);
    var s2 := Step(cfg, s1, e2);
    SubmitAfterInterval(cfg, s2, 1000);
    DriveOn(cfg, [], s0, 0, e1);
    DriveOn(cfg, [e1], s1, 999, e2);
    DriveOn(cfg, [e1, e2], s2, 999, e3);
    assert [] + [e1] == [e1] && [e1] + [e2] == [e1, e2] && [e1, e2] + [e3] == [e1, e2, e3];
    assert [] + [999] == [999] && [999] + [1000] == [999, 1000];
    assert [999, 1000][..1] == [999] && [999][..0] == [];
  }
}
