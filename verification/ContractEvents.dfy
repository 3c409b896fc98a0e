// src/client/stellarClient.ts, fetchContractEventsRange: pages through the events of
// a ledger range, halving the range when the server calls the payload too large.
module ContractEvents {
  import opened Wrappers
  import opened IncreasingSequences
  import opened EventServer

  datatype FetchError = PayloadTooLarge | RpcError

  datatype EventsResult = EventsResult(events: seq<Event>, pagingToken: Option<nat>)

  // ---------- What a complete fetch collects ----------

  datatype Stop = Finished(token: Option<nat>) | OversizeAt(pos: nat) | FailedAt(pos: nat)

  // Where paging through a range from a position comes to an end.
  function Paging(server: Server, start: int, end: int, pos: nat): Stop
    decreases Last(server, end) - pos
  {
    var t := Token(server, start, end, pos);
    if server.fails(start, end, pos) then FailedAt(pos)
    else if server.tooLarge(start, end, pos) then OversizeAt(pos)
    else if t.Some? && pos < Last(server, end) then Paging(server, start, end, t.value)
    else Finished(t)
  }

  function Midpoint(start: int, end: int): int {
    (start + end) / 2
  }

  lemma HalvesBounds(server: Server, start: int, end: int)
    requires start < end
    ensures var mid := Midpoint(start, end);
      start <= mid < end && Before(server.log, start) <= Last(server, mid) <= Last(server, end)
  {
    var mid := Midpoint(start, end);
    BeforeMonotonic(server.log, start, mid + 1);
    BeforeMonotonic(server.log, mid + 1, end + 1);
  }

  // The log positions of the events handed back, and the paging token.
  datatype Fetch = Fetch(positions: seq<nat>, token: Option<nat>)

  // On an oversize answer the pages collected so far are given up; the first half
  // resumes where they ended, the second half starts over.
  function Collected(server: Server, start: int, end: int, pos: nat): Result<Fetch, FetchError>
    decreases end - start
  {
    match Paging(server, start, end, pos)
    case Finished(token) => Ok(Fetch(Matching(server, pos, Last(server, end)), token))
    case FailedAt(_) => Err(RpcError)
    case OversizeAt(p) =>
      if start < end then
        var mid := Midpoint(start, end);
        Joined(Collected(server, start, mid, p), Collected(server, mid + 1, end, Last(server, mid)))
      else Err(PayloadTooLarge)
  }

  // The first error, or both halves and the token of the second one, if it has one.
  function Joined(first: Result<Fetch, FetchError>, second: Result<Fetch, FetchError>): Result<Fetch, FetchError> {
    if first.Err? then first
    else if second.Err? then second
    else Ok(Fetch(first.value.positions + second.value.positions,
                  if second.value.token.Some? then second.value.token else first.value.token))
  }

  lemma HalvedCollection(server: Server, start: int, end: int, pos: nat, p: nat)
    returns (first: Result<Fetch, FetchError>, second: Result<Fetch, FetchError>)
    requires Paging(server, start, end, pos) == OversizeAt(p) && start < end
    ensures first == Collected(server, start, Midpoint(start, end), p)
    ensures second == Collected(server, Midpoint(start, end) + 1, end, Last(server, Midpoint(start, end)))
    ensures Collected(server, start, end, pos) == Joined(first, second)
  {
    var mid := Midpoint(start, end);
    first, second := Collected(server, start, mid, p), Collected(server, mid + 1, end, Last(server, mid));
  }

  // A successful fetch of a halved range is made of two successful ones.
  lemma TwoHalves(server: Server, start: int, end: int, pos: nat) returns (first: seq<nat>, second: seq<nat>)
    requires Paging(server, start, end, pos).OversizeAt? && Collected(server, start, end, pos).Ok?
    ensures start < end
    ensures var r := Collected(server, start, Midpoint(start, end), Paging(server, start, end, pos).pos);
      r.Ok? && r.value.positions == first
    ensures var r := Collected(server, Midpoint(start, end) + 1, end, Last(server, Midpoint(start, end)));
      r.Ok? && r.value.positions == second
    ensures Collected(server, start, end, pos).value.positions == first + second
  {
    var x, y := HalvedCollection(server, start, end, pos, Paging(server, start, end, pos).pos);
    first, second := x.value.positions, y.value.positions;
  }

  lemma {:induction false} PagingStopsLater(server: Server, start: int, end: int, pos: nat)
    ensures var stop := Paging(server, start, end, pos); stop.OversizeAt? ==> stop.pos >= pos
    ensures var stop := Paging(server, start, end, pos);
      stop.Finished? && stop.token.Some? ==> stop.token.value >= Last(server, end)
    decreases Last(server, end) - pos
  {
    var t := Token(server, start, end, pos);
    if t.Some? && pos < Last(server, end) {
      PagingStopsLater(server, start, end, t.value);
    }
  }

  lemma HalvesPartition(server: Server, start: int, end: int)
    requires Sorted(server.log) && start < end
    ensures var mid := Midpoint(start, end);
      && start <= mid < end
      && InRange(server, start, end) == InRange(server, start, mid) + InRange(server, mid + 1, end)
  {
    var mid := Midpoint(start, end);
    RangeEvents(server, start, end);
    RangeEvents(server, start, mid);
    RangeEvents(server, mid + 1, end);
    HalvesBounds(server, start, end);
    MatchingSplit(server, Before(server.log, start), Last(server, mid), Last(server, end));
    EventsConcat(server.log, Matching(server, Before(server.log, start), Last(server, mid)),
                 Matching(server, Last(server, mid), Last(server, end)));
  }

  // ---------- In order, and nothing twice ----------

  lemma InOrderConcat(server: Server, a: seq<nat>, b: seq<nat>, from: nat, mid: nat, till: nat)
    requires InOrder(server, a, from, mid) && InOrder(server, b, mid, till) && from <= mid <= till <= |server.log|
    ensures InOrder(server, a + b, from, till)
  {
  }

  // What a complete fetch hands back, from whatever cursor, are matching events of the
  // range, in the order of the log and none of them twice.
  lemma {:induction false} InOrderWithinRange(server: Server, start: int, end: int, pos: nat)
    requires Before(server.log, start) <= pos && Collected(server, start, end, pos).Ok?
    ensures InOrder(server, Collected(server, start, end, pos).value.positions,
                    Before(server.log, start), Last(server, end))
    decreases end - start
  {
    var stop := Paging(server, start, end, pos);
    if stop.OversizeAt? {
      var mid := Midpoint(start, end);
      var a, b := TwoHalves(server, start, end, pos);
      PagingStopsLater(server, start, end, pos);
      HalvesBounds(server, start, end);
      InOrderWithinRange(server, start, mid, stop.pos);
      InOrderWithinRange(server, mid + 1, end, Last(server, mid));
      InOrderConcat(server, a, b, Before(server.log, start), Last(server, mid), Last(server, end));
    } else {
      MatchingMembers(server, pos, Last(server, end));
    }
  }

  // ---------- When nothing is lost or repeated ----------

  ghost predicate NoMatchBetween(server: Server, a: nat, b: nat, last: nat) {
    last <= |server.log| && forall i :: Min(a, b) <= i < Max(a, b) && i < last ==> !server.matches(server.log[i])
  }

  lemma SameMatchesIff(server: Server, a: nat, b: nat, last: nat)
    requires last <= |server.log|
    ensures Matching(server, a, last) == Matching(server, b, last) <==> NoMatchBetween(server, a, b, last)
  {
    SameMatchesOrdered(server, Min(a, b), Max(a, b), last);
  }

  lemma SameMatchesOrdered(server: Server, a: nat, b: nat, last: nat)
    requires a <= b && last <= |server.log|
    ensures Matching(server, a, last) == Matching(server, b, last) <==> NoMatchBetween(server, a, b, last)
  {
    if a <= last {
      var m := Min(b, last);
      MatchingSplit(server, a, m, last);
      MatchingMembers(server, a, m);
      EmptyIffSame(Matching(server, a, m), Matching(server, m, last));
      assert NoMatchBetween(server, a, b, last) <==> forall p :: p !in Matching(server, a, m);
    }
  }

  // Every range that was read without being halved was read from where what is wanted
  // of it begins, want being the first position wanted.
  ghost predicate ReadFrom(server: Server, start: int, end: int, pos: nat, want: nat)
    decreases end - start
  {
    var stop := Paging(server, start, end, pos);
    if stop.OversizeAt? && start < end then
      var mid := Midpoint(start, end);
      var second := Last(server, mid);
      ReadFrom(server, start, mid, stop.pos, want) && ReadFrom(server, mid + 1, end, second, Max(want, second))
    else
      NoMatchBetween(server, pos, want, Last(server, end))
  }

  ghost predicate HandsBackFrom(server: Server, end: int, want: nat, positions: seq<nat>) {
    positions == Matching(server, want, Last(server, end))
  }

  // A successful fetch from a position hands back exactly the matching events from a
  // wanted position to the end of the range just when it read them so. With both
  // positions the same, this is about a fetch resumed from a cursor.
  lemma {:induction false} ExactlyFromIff(server: Server, start: int, end: int, pos: nat, want: nat)
    requires Before(server.log, start) <= pos && Before(server.log, start) <= want
    requires Collected(server, start, end, pos).Ok?
    ensures HandsBackFrom(server, end, want, Collected(server, start, end, pos).value.positions)
            <==> ReadFrom(server, start, end, pos, want)
    decreases end - start
  {
    var stop := Paging(server, start, end, pos);
    if stop.OversizeAt? {
      var mid := Midpoint(start, end);
      var second := Last(server, mid);
      var x, y := HalvedCollection(server, start, end, pos, stop.pos);
      PagingStopsLater(server, start, end, pos);
      HalvesBounds(server, start, end);
      ExactlyFromIff(server, start, mid, stop.pos, want);
      ExactlyFromIff(server, mid + 1, end, second, Max(want, second));
      InOrderWithinRange(server, start, mid, stop.pos);
      InOrderWithinRange(server, mid + 1, end, second);
      ExactlyHalves(server, start, end, want, x.value.positions, y.value.positions);
    } else {
      SameMatchesIff(server, pos, want, Last(server, end));
    }
  }

  lemma ExactlyHalves(server: Server, start: int, end: int, want: nat, a: seq<nat>, b: seq<nat>)
    requires start < end
    requires InOrder(server, a, Before(server.log, start), Last(server, Midpoint(start, end)))
    requires InOrder(server, b, Before(server.log, Midpoint(start, end) + 1), Last(server, end))
    ensures var mid := Midpoint(start, end);
      HandsBackFrom(server, end, want, a + b)
      <==> HandsBackFrom(server, mid, want, a) && HandsBackFrom(server, end, Max(want, Last(server, mid)), b)
  {
    HalvesBounds(server, start, end);
    ExactlyHalvesIff(server, want, Last(server, Midpoint(start, end)), Last(server, end), a, b);
  }

  lemma ExactlyHalvesIff(server: Server, want: nat, mid: nat, last: nat, a: seq<nat>, b: seq<nat>)
    requires mid <= last <= |server.log|
    requires (forall i :: 0 <= i < |a| ==> a[i] < mid) && (forall i :: 0 <= i < |b| ==> mid <= b[i])
    ensures a + b == Matching(server, want, last)
            <==> a == Matching(server, want, mid) && b == Matching(server, Max(want, mid), last)
  {
    WantedSplit(server, want, mid, last);
    MatchingBounds(server, want, mid);
    MatchingBounds(server, Max(want, mid), last);
    HalvesEqualIff(a, Matching(server, want, mid), b, Matching(server, Max(want, mid), last), mid);
  }

  lemma WantedSplit(server: Server, want: nat, mid: nat, last: nat)
    requires mid <= last <= |server.log|
    ensures Matching(server, want, last) == Matching(server, want, mid) + Matching(server, Max(want, mid), last)
  {
    if want <= mid {
      MatchingSplit(server, want, mid, last);
    }
  }

  // A successful complete fetch never returns more than the events of the range, and
  // returns exactly these just when every part was read from its beginning.
  lemma ExactlyTheRangeIff(server: Server, start: int, end: int, pos: nat)
    requires Sorted(server.log) && Before(server.log, start) <= pos && Collected(server, start, end, pos).Ok?
    ensures var got := EventsAt(server.log, Collected(server, start, end, pos).value.positions);
      && |got| <= |InRange(server, start, end)|
      && (got == InRange(server, start, end) <==> ReadFrom(server, start, end, pos, Before(server.log, start)))
  {
    var got, first, last :=
      Collected(server, start, end, pos).value.positions, Before(server.log, start), Last(server, end);
    RangeEvents(server, start, end);
    ExactlyFromIff(server, start, end, pos, first);
    InOrderWithinRange(server, start, end, pos);
    MatchingMembers(server, first, last);
    SubsequenceIsShorter(got, Matching(server, first, last));
    EventsCount(server.log, got);
  }

  // ---------- The token and the errors ----------

  // The tokens of the parts read without halving, in their order.
  function PartTokens(server: Server, start: int, end: int, pos: nat): seq<Option<nat>>
    decreases end - start
  {
    match Paging(server, start, end, pos)
    case Finished(token) => [token]
    case FailedAt(_) => []
    case OversizeAt(p) =>
      if start < end then
        var mid := Midpoint(start, end);
        PartTokens(server, start, mid, p) + PartTokens(server, mid + 1, end, Last(server, mid))
      else []
  }

  function LastGiven(tokens: seq<Option<nat>>): Option<nat> {
    if tokens == [] then None
    else if tokens[|tokens| - 1].Some? then tokens[|tokens| - 1]
    else LastGiven(tokens[..|tokens| - 1])
  }

  lemma {:induction false} LastGivenConcat(a: seq<Option<nat>>, b: seq<Option<nat>>)
    ensures LastGiven(a + b) == if LastGiven(b).Some? then LastGiven(b) else LastGiven(a)
  {
    if b == [] {
      assert a + b == a;
    } else {
      assert (a + b)[..|a + b| - 1] == a + b[..|b| - 1];
      LastGivenConcat(a, b[..|b| - 1]);
    }
  }

  lemma HalvedTokens(server: Server, start: int, end: int, pos: nat, p: nat)
    requires Paging(server, start, end, pos) == OversizeAt(p) && start < end
    ensures var mid := Midpoint(start, end);
      PartTokens(server, start, end, pos)
      == PartTokens(server, start, mid, p) + PartTokens(server, mid + 1, end, Last(server, mid))
  {
  }

  // The token is that of the last part that gave one; one given at the end of the
  // range resumes after it.
  ghost predicate TokenFrom(tokens: seq<Option<nat>>, token: Option<nat>, last: nat) {
    && tokens != [] && token == LastGiven(tokens)
    && (tokens[|tokens| - 1].Some? ==> tokens[|tokens| - 1].value >= last)
  }

  lemma JoinTokens(first: Result<Fetch, FetchError>, second: Result<Fetch, FetchError>, a: seq<Option<nat>>,
                   b: seq<Option<nat>>, mid: nat, last: nat)
    requires first.Ok? && second.Ok?
    requires TokenFrom(a, first.value.token, mid) && TokenFrom(b, second.value.token, last)
    ensures TokenFrom(a + b, Joined(first, second).value.token, last)
  {
    LastGivenConcat(a, b);
  }

  lemma {:induction false} TokenOfLastPart(server: Server, start: int, end: int, pos: nat)
    requires Collected(server, start, end, pos).Ok?
    ensures TokenFrom(PartTokens(server, start, end, pos), Collected(server, start, end, pos).value.token,
                      Last(server, end))
    decreases end - start
  {
    var stop := Paging(server, start, end, pos);
    if stop.OversizeAt? {
      var mid := Midpoint(start, end);
      var second := Last(server, mid);
      var x, y := HalvedCollection(server, start, end, pos, stop.pos);
      HalvedTokens(server, start, end, pos, stop.pos);
      TokenOfLastPart(server, start, mid, stop.pos);
      TokenOfLastPart(server, mid + 1, end, second);
      JoinTokens(x, y, PartTokens(server, start, mid, stop.pos), PartTokens(server, mid + 1, end, second),
                 second, Last(server, end));
    } else {
      PagingStopsLater(server, start, end, pos);
    }
  }

  // A complete fetch fails only because some request within the range failed, or was
  // called too large for a range that cannot be halved; the error tells which.
  lemma {:induction false} FetchFails(server: Server, start: int, end: int, pos: nat)
    returns (s: int, e: int, p: nat)
    requires Collected(server, start, end, pos).Err?
    ensures start <= s && e <= end
    ensures match Collected(server, start, end, pos).error
      case RpcError => server.fails(s, e, p)
      case PayloadTooLarge => s >= e && server.tooLarge(s, e, p) && !server.fails(s, e, p)
    decreases end - start
  {
    var stop := Paging(server, start, end, pos);
    PagingStopsAt(server, start, end, pos);
    s, e := start, end;
    match stop
    case FailedAt(at) => p := at;
    case Finished(_) =>
    case OversizeAt(at) =>
      p := at;
      if start < end {
        var mid := Midpoint(start, end);
        var first, second := HalvedCollection(server, start, end, pos, at);
        if first.Err? {
          s, e, p := FetchFails(server, start, mid, at);
        } else {
          s, e, p := FetchFails(server, mid + 1, end, Last(server, mid));
        }
      }
  }

  lemma {:induction false} PagingStopsAt(server: Server, start: int, end: int, pos: nat)
    ensures match Paging(server, start, end, pos)
      case FailedAt(p) => server.fails(start, end, p)
      case OversizeAt(p) => server.tooLarge(start, end, p) && !server.fails(start, end, p)
      case Finished(_) => true
    decreases Last(server, end) - pos
  {
    var t := Token(server, start, end, pos);
    if t.Some? && pos < Last(server, end) {
      PagingStopsAt(server, start, end, t.value);
    }
  }

  // ---------- Servers that decide from the range ----------

  // The server decides "too large" from the range alone.
  ghost predicate DecidesFromRange(server: Server) {
    forall start, end, p :: server.tooLarge(start, end, p) == server.tooLarge(start, end, 0)
  }

  lemma {:induction false} NeverOversizeLater(server: Server, start: int, end: int, pos: nat)
    requires DecidesFromRange(server) && !server.tooLarge(start, end, pos)
    ensures !Paging(server, start, end, pos).OversizeAt?
    decreases Last(server, end) - pos
  {
    var t := Token(server, start, end, pos);
    if t.Some? && pos < Last(server, end) {
      assert server.tooLarge(start, end, t.value) == server.tooLarge(start, end, 0);
      NeverOversizeLater(server, start, end, t.value);
    }
  }

  // The end of the first part of a range that is small enough.
  function FirstPartEnd(server: Server, start: int, end: int): (e: int)
    ensures e <= end && (start <= end ==> start <= e)
    decreases end - start
  {
    if start < end && server.tooLarge(start, end, 0) then FirstPartEnd(server, start, Midpoint(start, end)) else end
  }

  function FirstPartLast(server: Server, start: int, end: int): nat {
    Last(server, FirstPartEnd(server, start, end))
  }

  // Everything from the cursor on, or from the end of the first part when the cursor
  // lies beyond that.
  ghost predicate FromFirstPart(server: Server, start: int, end: int, pos: nat, positions: seq<nat>) {
    var first := FirstPartLast(server, start, end);
    first <= Last(server, end) && positions == Matching(server, Min(pos, first), Last(server, end))
  }

  // With such a server, this is what a fetch hands back.
  lemma {:induction false} RangeDecisionResult(server: Server, start: int, end: int, pos: nat)
    requires DecidesFromRange(server) && Collected(server, start, end, pos).Ok?
    ensures FromFirstPart(server, start, end, pos, Collected(server, start, end, pos).value.positions)
    decreases end - start
  {
    OversizeAtOnce(server, start, end, pos);
    if Paging(server, start, end, pos).OversizeAt? {
      var mid := Midpoint(start, end);
      var x, y := HalvedCollection(server, start, end, pos, pos);
      RangeDecisionResult(server, start, mid, pos);
      RangeDecisionResult(server, mid + 1, end, Last(server, mid));
      RangeDecisionHalves(server, start, end, pos, x.value.positions, y.value.positions);
    }
  }

  lemma RangeDecisionHalves(server: Server, start: int, end: int, pos: nat, a: seq<nat>, b: seq<nat>)
    requires start < end && FirstPartEnd(server, start, end) == FirstPartEnd(server, start, Midpoint(start, end))
    requires FromFirstPart(server, start, Midpoint(start, end), pos, a)
    requires FromFirstPart(server, Midpoint(start, end) + 1, end, Last(server, Midpoint(start, end)), b)
    ensures FromFirstPart(server, start, end, pos, a + b)
  {
    var mid := Midpoint(start, end);
    HalvesBounds(server, start, end);
    FromTheSecondHalf(server, mid, end, b);
    JoinParts(server, Min(pos, FirstPartLast(server, start, mid)), Last(server, mid), Last(server, end), a, b);
  }

  lemma JoinParts(server: Server, from: nat, mid: nat, last: nat, a: seq<nat>, b: seq<nat>)
    requires from <= mid <= last <= |server.log|
    requires a == Matching(server, from, mid) && b == Matching(server, mid, last)
    ensures a + b == Matching(server, from, last)
  {
    MatchingSplit(server, from, mid, last);
  }

  // Such a server answers oversize at once or never, and then the whole range is the
  // first part.
  lemma OversizeAtOnce(server: Server, start: int, end: int, pos: nat)
    requires DecidesFromRange(server) && Collected(server, start, end, pos).Ok?
    ensures var stop := Paging(server, start, end, pos);
      if stop.OversizeAt? then
        stop.pos == pos && start < end &&
        FirstPartEnd(server, start, end) == FirstPartEnd(server, start, Midpoint(start, end))
      else FirstPartEnd(server, start, end) == end
  {
    assert server.tooLarge(start, end, 0) == server.tooLarge(start, end, pos);
    if !server.tooLarge(start, end, pos) {
      NeverOversizeLater(server, start, end, pos);
    }
  }

  lemma FromTheSecondHalf(server: Server, mid: int, end: int, b: seq<nat>)
    requires mid < end &&
             b == Matching(server, Min(Last(server, mid), FirstPartLast(server, mid + 1, end)), Last(server, end))
    ensures b == Matching(server, Last(server, mid), Last(server, end))
  {
    BeforeMonotonic(server.log, mid + 1, FirstPartEnd(server, mid + 1, end) + 1);
  }

  // With such a server, a fetch of everything without a starting cursor fails or
  // returns exactly the events of the range, in order.
  lemma FetchesExactlyTheRange(server: Server, start: int, end: int)
    requires Sorted(server.log) && DecidesFromRange(server)
    ensures var r := Collected(server, start, end, Before(server.log, start));
      r.Ok? ==> EventsAt(server.log, r.value.positions) == InRange(server, start, end)
  {
    var first := Before(server.log, start);
    if Collected(server, start, end, first).Ok? {
      RangeDecisionResult(server, start, end, first);
      StartsInFirstPart(server, start, end);
      RangeEvents(server, start, end);
    }
  }

  lemma StartsInFirstPart(server: Server, start: int, end: int)
    ensures Matching(server, Min(Before(server.log, start), FirstPartLast(server, start, end)), Last(server, end))
            == Matching(server, Before(server.log, start), Last(server, end))
  {
    if start <= end {
      BeforeMonotonic(server.log, start, FirstPartEnd(server, start, end) + 1);
    } else {
      BeforeMonotonic(server.log, end + 1, start);
    }
  }

  // A fetch resumed from a cursor should hand back the events from the cursor on. Even
  // with such a server it does so exactly when the cursor has left no matching event
  // of the range behind it that lies beyond the first part.
  lemma ResumedFetchIff(server: Server, start: int, end: int, pos: nat)
    requires DecidesFromRange(server) && Collected(server, start, end, pos).Ok?
    ensures Collected(server, start, end, pos).value.positions == Matching(server, pos, Last(server, end)) <==>
            forall i :: FirstPartLast(server, start, end) <= i < pos && i < Last(server, end) ==>
              !server.matches(server.log[i])
  {
    var first := FirstPartLast(server, start, end);
    RangeDecisionResult(server, start, end, pos);
    SameMatchesIff(server, Min(pos, first), pos, Last(server, end));
  }

  // ---------- Examples ----------

  // Two events of ledger 1, one per page; the second request for the range 1 to 2
  // is called too large, and the first event is gone.
  lemma LossExample(server: Server)
    requires server.log == [Event(1, 10), Event(1, 11)] && (forall e :: server.matches(e))
    requires forall s, e, p :: server.scan(s, e, p) == 1 && !server.fails(s, e, p) && !server.ownToken(s, e, p)
    requires forall s, e, p :: server.tooLarge(s, e, p) <==> s < e && p == 1
    ensures Collected(server, 1, 2, 0) == Ok(Fetch([1], None))
    ensures InRange(server, 1, 2) == [Event(1, 10), Event(1, 11)]
  {
    LogOfTwo(server.log);
    OneEventPerPage(server);
    assert Paging(server, 1, 2, 1) == OversizeAt(1);
    assert Paging(server, 1, 2, 0) == OversizeAt(1);
    assert Paging(server, 1, 1, 2) == Finished(None);
    assert Paging(server, 1, 1, 1) == Finished(None);
    assert Last(server, 1) == 2 && Last(server, 2) == 2;
    assert Collected(server, 1, 1, 1) == Ok(Fetch([1], None));
    assert Paging(server, 2, 2, 2) == Finished(None);
    assert Collected(server, 2, 2, 2) == Ok(Fetch([], None));
    assert Midpoint(1, 2) == 1;
    assert Collected(server, 1, 2, 0) == Joined(Ok(Fetch([1], None)), Ok(Fetch([], None)));
    assert [1] + [] == [1];
    assert InRangeOf(server, 1, 2, 1) == [Event(1, 10)];
  }

  lemma OneEventPerPage(server: Server)
    requires server.log == [Event(1, 10), Event(1, 11)] && (forall e :: server.matches(e))
    requires forall s, e, p :: server.scan(s, e, p) == 1 && !server.ownToken(s, e, p)
    ensures Matching(server, 1, 2) == [1] && Matching(server, 2, 2) == []
    ensures Token(server, 1, 2, 0) == Some(1) && Token(server, 1, 1, 1) == Some(2)
    ensures Token(server, 1, 1, 2) == None && Token(server, 2, 2, 2) == None
  {
    LogOfTwo(server.log);
    assert Matching(server, 0, 1) == [0] && Matching(server, 1, 2) == [1];
  }

  lemma LogOfTwo(log: seq<Event>)
    requires log == [Event(1, 10), Event(1, 11)]
    ensures Before(log, 1) == 0 && Before(log, 2) == 2 && Before(log, 3) == 2
  {
    assert log[1..] == [Event(1, 11)] && log[1..][1..] == [];
    assert Before(log[1..], 2) == 1 && Before(log[1..], 3) == 1;
  }

  // Resuming after the first two of three events, the second one is handed back again.
  lemma ResumeExample(server: Server)
    requires server.log == [Event(1, 10), Event(2, 20), Event(2, 21)] && (forall e :: server.matches(e))
    requires forall s, e, p :: !server.fails(s, e, p) && (server.tooLarge(s, e, p) <==> s < e)
    ensures Matching(server, 2, Last(server, 2)) == [2]
    ensures Collected(server, 1, 2, 2).Ok? && Collected(server, 1, 2, 2).value.positions == [1, 2]
  {
    LogOfThree(server.log);
    assert FirstPartEnd(server, 1, 1) == 1 && FirstPartEnd(server, 1, 2) == 1;
    HalvedOnceSucceeds(server, 1, 2);
    RangeDecisionResult(server, 1, 2, 2);
    assert Matching(server, 1, 2) == [1] && Matching(server, 1, 3) == [1] + [2] && Matching(server, 2, 3) == [2];
  }

  lemma {:induction false} PagingFinishes(server: Server, start: int, end: int, pos: nat)
    requires forall p :: !server.fails(start, end, p) && !server.tooLarge(start, end, p)
    ensures Paging(server, start, end, pos).Finished?
    decreases Last(server, end) - pos
  {
    var t := Token(server, start, end, pos);
    if t.Some? && pos < Last(server, end) {
      PagingFinishes(server, start, end, t.value);
    }
  }

  lemma HalvedOnceSucceeds(server: Server, start: int, pos: nat)
    requires forall s, e, p :: !server.fails(s, e, p) && (server.tooLarge(s, e, p) <==> s < e)
    ensures Collected(server, start, start + 1, pos).Ok?
  {
    assert Midpoint(start, start + 1) == start;
    PagingFinishes(server, start, start, pos);
    PagingFinishes(server, start + 1, start + 1, Last(server, start));
    var first, second := HalvedCollection(server, start, start + 1, pos, pos);
  }

  lemma LogOfThree(log: seq<Event>)
    requires log == [Event(1, 10), Event(2, 20), Event(2, 21)]
    ensures Before(log, 2) == 1 && Before(log, 3) == 3
  {
    assert log[1..] == [Event(2, 20), Event(2, 21)] && log[1..][1..] == [Event(2, 21)] && log[1..][1..][1..] == [];
    assert Before(log[1..][1..], 3) == 1 && Before(log[1..], 3) == 2;
    assert Before(log[1..], 2) == 0;
  }

  // ---------- The method ----------

  // Where the loop over the pages of one range ended: with a result, or at a cursor
  // whose request was called too large or failed.
  datatype Paged = Done(result: EventsResult) | Stopped(cursor: Option<nat>, oversize: bool)

  ghost predicate PagedTo(server: Server, start: int, end: int, origin: nat, out: Paged) {
    match Paging(server, start, end, origin)
    case Finished(token) =>
      out == Done(EventsResult(EventsAt(server.log, Matching(server, origin, Last(server, end))), token))
    case OversizeAt(p) => out.Stopped? && out.oversize && From(server, start, out.cursor) == p
    case FailedAt(p) => out.Stopped? && !out.oversize && From(server, start, out.cursor) == p
  }

  // The events so far are those up to the current position, each read once.
  ghost predicate ReadUpTo(server: Server, end: int, origin: nat, pos: nat, events: seq<Event>) {
    origin <= pos && events == EventsAt(server.log, Matching(server, origin, Min(pos, Last(server, end))))
  }

  lemma ReadOn(server: Server, start: int, end: int, origin: nat, pos: nat, events: seq<Event>)
    requires ReadUpTo(server, end, origin, pos, events)
    ensures var more := events + EventsAt(server.log, PagePositions(server, start, end, pos));
      var t := Token(server, start, end, pos);
      && (t.Some? ==> ReadUpTo(server, end, origin, t.value, more))
      && (t.None? || pos >= Last(server, end) ==>
          more == EventsAt(server.log, Matching(server, origin, Last(server, end))))
  {
    var last, t := Last(server, end), Token(server, start, end, pos);
    if t.Some? {
      PageReadsToToken(server, start, end, pos);
    }
    if pos < last {
      MatchingSplit(server, origin, pos, if t.Some? then t.value else last);
    }
    EventsConcat(server.log, Matching(server, origin, Min(pos, last)), PagePositions(server, start, end, pos));
  }

  method PageThrough(server: Server, start: int, end: int, startCursor: Option<nat>) returns (out: Paged)
    ensures PagedTo(server, start, end, From(server, start, startCursor), out)
  {
    var cursor := startCursor;
    var events: seq<Event> := [];
    var seen: set<nat> := {};
    ghost var origin := From(server, start, startCursor);
    ghost var pos := origin;
    while true
      invariant pos == From(server, start, cursor)
      invariant ReadUpTo(server, end, origin, pos, events)
      invariant Paging(server, start, end, origin) == Paging(server, start, end, pos)
      invariant forall t :: t in seen ==> t <= pos
      decreases Last(server, end) - pos, if pos in seen then 0 else 1
    {
      var response := GetEvents(server, start, end, cursor);
      if !response.Page? {
        return Stopped(cursor, response.Oversize?);
      }
      ReadOn(server, start, end, origin, pos, events);
      events := events + response.events;
      var pagingToken := response.token;
      if pagingToken.None? || pagingToken.value in seen {
        return Done(EventsResult(events, pagingToken));
      }
      seen := seen + {pagingToken.value};
      cursor := pagingToken;
      pos := pagingToken.value;
    }
  }

  // The result of a complete fetch is the collection specified above; a fetch of
  // one page gives the first page that is not called too large.
  method FetchContractEventsRange(server: Server, start: int, end: int, startCursor: Option<nat>, fetchAll: bool)
    returns (r: Result<EventsResult, FetchError>)
    ensures fetchAll ==> r == Fetched(server, start, end, From(server, start, startCursor))
    ensures !fetchAll ==> r == FirstPage(server, start, end, startCursor)
    decreases end - start, 1
  {
    var out;
    if fetchAll {
      HandedHalves(server, start, end, From(server, start, startCursor));
      out := PageThrough(server, start, end, startCursor);
    } else {
      var response := GetEvents(server, start, end, startCursor);
      out := if response.Page? then Done(EventsResult(response.events, response.token))
             else Stopped(startCursor, response.Oversize?);
    }
    if out.Done? {
      return Ok(out.result);
    }
    if !out.oversize || start >= end {
      return Err(if out.oversize then PayloadTooLarge else RpcError);
    }
    r := FetchHalves(server, start, end, out.cursor, fetchAll);
  }

  // After an oversize answer at the cursor: the first half from there, and for a
  // complete fetch the second half from its beginning.
  method FetchHalves(server: Server, start: int, end: int, cursor: Option<nat>, fetchAll: bool)
    returns (r: Result<EventsResult, FetchError>)
    requires start < end
    ensures var mid := Midpoint(start, end);
      r == if fetchAll then
             JoinedResults(Fetched(server, start, mid, From(server, start, cursor)),
                           Fetched(server, mid + 1, end, Last(server, mid)))
           else FirstPage(server, start, mid, cursor)
    decreases end - start, 0
  {
    var midpoint := (start + end) / 2;
    var firstHalf := FetchContractEventsRange(server, start, midpoint, cursor, fetchAll);
    if !fetchAll {
      return firstHalf;
    }
    if firstHalf.Err? {
      return firstHalf;
    }
    var secondHalf := FetchContractEventsRange(server, midpoint + 1, end, None, fetchAll);
    r := Join(firstHalf, secondHalf);
  }

  method Join(first: Result<EventsResult, FetchError>, second: Result<EventsResult, FetchError>)
    returns (r: Result<EventsResult, FetchError>)
    requires first.Ok?
    ensures r == JoinedResults(first, second)
  {
    if second.Err? {
      return second;
    }
    var token := if second.value.pagingToken.Some? then second.value.pagingToken else first.value.pagingToken;
    return Ok(EventsResult(first.value.events + second.value.events, token));
  }

  // What the caller sees of a collection.
  function Handed(server: Server, r: Result<Fetch, FetchError>): Result<EventsResult, FetchError>
  {
    if r.Err? then Err(r.error) else Ok(EventsResult(EventsAt(server.log, r.value.positions), r.value.token))
  }

  function Fetched(server: Server, start: int, end: int, pos: nat): Result<EventsResult, FetchError> {
    Handed(server, Collected(server, start, end, pos))
  }

  function JoinedResults(first: Result<EventsResult, FetchError>, second: Result<EventsResult, FetchError>)
    : Result<EventsResult, FetchError>
  {
    if first.Err? then first
    else if second.Err? then second
    else Ok(EventsResult(first.value.events + second.value.events,
                         if second.value.pagingToken.Some? then second.value.pagingToken else first.value.pagingToken))
  }

  lemma HandedHalves(server: Server, start: int, end: int, pos: nat)
    ensures var stop := Paging(server, start, end, pos);
      stop.OversizeAt? && start < end ==>
        var mid := Midpoint(start, end);
        Fetched(server, start, end, pos)
        == JoinedResults(Fetched(server, start, mid, stop.pos), Fetched(server, mid + 1, end, Last(server, mid)))
  {
    var stop := Paging(server, start, end, pos);
    if stop.OversizeAt? && start < end {
      var first, second := HalvedCollection(server, start, end, pos, stop.pos);
      HandedJoined(server, first, second);
    }
  }

  lemma HandedJoined(server: Server, first: Result<Fetch, FetchError>, second: Result<Fetch, FetchError>)
    ensures Handed(server, Joined(first, second)) == JoinedResults(Handed(server, first), Handed(server, second))
  {
    if first.Ok? && second.Ok? {
      EventsConcat(server.log, first.value.positions, second.value.positions);
    }
  }

  function FirstPage(server: Server, start: int, end: int, cursor: Option<nat>): Result<EventsResult, FetchError>
    decreases end - start
  {
    match GetEvents(server, start, end, cursor)
    case Page(events, token) => Ok(EventsResult(events, token))
    case Failure => Err(RpcError)
    case Oversize =>
      if start < end then FirstPage(server, start, Midpoint(start, end), cursor) else Err(PayloadTooLarge)
  }

  // ---------- A fetch of one page ----------

  // The end of the range after halving it k times.
  function HalvedEnd(start: int, end: int, k: nat): int
    decreases k
  {
    if k == 0 then end else HalvedEnd(start, Midpoint(start, end), k - 1)
  }

  // The requests for the first k of these ranges were called too large.
  ghost predicate HalvedTo(server: Server, start: int, end: int, cursor: Option<nat>, k: nat) {
    forall j: nat {:trigger HalvedEnd(start, end, j)} :: j < k ==>
      start < HalvedEnd(start, end, j) && GetEvents(server, start, HalvedEnd(start, end, j), cursor).Oversize?
  }

  lemma {:induction false} HalvedEndBounds(start: int, end: int, k: nat)
    requires forall j: nat {:trigger HalvedEnd(start, end, j)} :: j < k ==> start < HalvedEnd(start, end, j)
    ensures HalvedEnd(start, end, k) <= end && (start <= end ==> start <= HalvedEnd(start, end, k))
    decreases k
  {
    if k > 0 {
      assert start < HalvedEnd(start, end, 0);
      forall j: nat | j < k - 1
        ensures start < HalvedEnd(start, Midpoint(start, end), j)
      {
        assert HalvedEnd(start, end, j + 1) == HalvedEnd(start, Midpoint(start, end), j);
      }
      HalvedEndBounds(start, Midpoint(start, end), k - 1);
    }
  }

  // The answer of a fetch of one page is that to the request for the first of these
  // ranges that is not called too large or cannot be halved.
  lemma {:induction false} FirstPageAnswers(server: Server, start: int, end: int, cursor: Option<nat>)
    returns (k: nat)
    ensures HalvedTo(server, start, end, cursor, k)
    ensures AnsweredBy(server, start, HalvedEnd(start, end, k), cursor, FirstPage(server, start, end, cursor))
    decreases end - start
  {
    k := 0;
    if GetEvents(server, start, end, cursor).Oversize? && start < end {
      var mid := Midpoint(start, end);
      var rest := FirstPageAnswers(server, start, mid, cursor);
      k := rest + 1;
      forall j: nat | j < k
        ensures start < HalvedEnd(start, end, j)
        ensures GetEvents(server, start, HalvedEnd(start, end, j), cursor).Oversize?
      {
        if j > 0 {
          assert HalvedEnd(start, end, j) == HalvedEnd(start, mid, j - 1);
        }
      }
    }
  }

  ghost predicate AnsweredBy(server: Server, start: int, end: int, cursor: Option<nat>,
                             r: Result<EventsResult, FetchError>) {
    match GetEvents(server, start, end, cursor)
    case Page(events, token) => r == Ok(EventsResult(events, token))
    case Failure => r == Err(RpcError)
    case Oversize => start >= end && r == Err(PayloadTooLarge)
  }

  // No request but the last one decides, so there is one such answer only.
  lemma FirstPageIs(server: Server, start: int, end: int, cursor: Option<nat>, k: nat,
                    r: Result<EventsResult, FetchError>)
    requires HalvedTo(server, start, end, cursor, k)
    requires AnsweredBy(server, start, HalvedEnd(start, end, k), cursor, r)
    ensures r == FirstPage(server, start, end, cursor)
  {
    var l := FirstPageAnswers(server, start, end, cursor);
    assert HalvedEnd(start, end, k) == HalvedEnd(start, end, l) by {
      if k != l {
        var lesser := HalvedEnd(start, end, Min(k, l));
      }
    }
  }

  // When it fails, and with which error.
  lemma FirstPageFailsIff(server: Server, start: int, end: int, cursor: Option<nat>)
    ensures FirstPage(server, start, end, cursor) == Err(RpcError) <==>
            exists k: nat :: HalvedTo(server, start, end, cursor, k)
              && GetEvents(server, start, HalvedEnd(start, end, k), cursor).Failure?
    ensures FirstPage(server, start, end, cursor) == Err(PayloadTooLarge) <==>
            exists k: nat :: HalvedTo(server, start, end, cursor, k) && start >= HalvedEnd(start, end, k)
              && GetEvents(server, start, HalvedEnd(start, end, k), cursor).Oversize?
  {
    var l := FirstPageAnswers(server, start, end, cursor);
    forall k: nat | HalvedTo(server, start, end, cursor, k)
        && GetEvents(server, start, HalvedEnd(start, end, k), cursor).Failure?
      ensures FirstPage(server, start, end, cursor) == Err(RpcError)
    {
      FirstPageIs(server, start, end, cursor, k, Err(RpcError));
    }
    forall k: nat | HalvedTo(server, start, end, cursor, k) && start >= HalvedEnd(start, end, k)
        && GetEvents(server, start, HalvedEnd(start, end, k), cursor).Oversize?
      ensures FirstPage(server, start, end, cursor) == Err(PayloadTooLarge)
    {
      FirstPageIs(server, start, end, cursor, k, Err(PayloadTooLarge));
    }
  }

  // The page is that of the range after halving it k times.
  ghost predicate ReadFromPart(server: Server, start: int, end: int, cursor: Option<nat>, k: nat) {
    && HalvedTo(server, start, end, cursor, k)
    && GetEvents(server, start, HalvedEnd(start, end, k), cursor).Page?
  }

  // A page holds the matching events from the position asked for, up to its token or,
  // without one, to the end of the part of the range it was read from.
  lemma FirstPageReads(server: Server, start: int, end: int, cursor: Option<nat>) returns (k: nat)
    requires FirstPage(server, start, end, cursor).Ok?
    ensures ReadFromPart(server, start, end, cursor, k)
    ensures var r, pos := FirstPage(server, start, end, cursor).value, From(server, start, cursor);
      var partEnd, last := HalvedEnd(start, end, k), Last(server, end);
      && r.events <= EventsAt(server.log, Matching(server, pos, last))
      && (r.pagingToken.Some? ==>
            && pos <= r.pagingToken.value
            && r.events == EventsAt(server.log, Matching(server, pos, Min(r.pagingToken.value, last))))
      && (r.pagingToken.None? ==>
            && Last(server, partEnd) <= last
            && r.events == EventsAt(server.log, Matching(server, pos, Last(server, partEnd))))
  {
    k := FirstPageAnswers(server, start, end, cursor);
    var partEnd := HalvedEnd(start, end, k);
    HalvedEndBounds(start, end, k);
    BeforeMonotonic(server.log, partEnd + 1, end + 1);
    PageIsPrefix(server, start, partEnd, From(server, start, cursor), Last(server, end));
  }

  lemma PageIsPrefix(server: Server, start: int, end: int, pos: nat, last: nat)
    requires Last(server, end) <= last <= |server.log|
    ensures var events := EventsAt(server.log, PagePositions(server, start, end, pos));
      var t := Token(server, start, end, pos);
      && events <= EventsAt(server.log, Matching(server, pos, last))
      && (t.Some? ==> pos <= t.value && events == EventsAt(server.log, Matching(server, pos, Min(t.value, last))))
      && (t.None? ==> events == EventsAt(server.log, Matching(server, pos, Last(server, end))))
  {
    var t, upTo := Token(server, start, end, pos), PageEnd(server, start, end, pos);
    if pos <= upTo {
      MatchingSplit(server, pos, upTo, last);
      EventsConcat(server.log, Matching(server, pos, upTo), Matching(server, upTo, last));
    }
    if t.Some? {
      PageReadsToToken(server, start, end, pos);
    }
  }

  // Following the token skips nothing: a page and all that is wanted from its token on
  // make up what was wanted.
  lemma FollowingTheToken(server: Server, start: int, end: int, cursor: Option<nat>)
    requires FirstPage(server, start, end, cursor).Ok?
    requires FirstPage(server, start, end, cursor).value.pagingToken.Some?
    ensures var r, last := FirstPage(server, start, end, cursor).value, Last(server, end);
      && From(server, start, r.pagingToken) == r.pagingToken.value
      && EventsAt(server.log, Matching(server, From(server, start, cursor), last))
         == r.events + EventsAt(server.log, Matching(server, From(server, start, r.pagingToken), last))
  {
    var _ := FirstPageReads(server, start, end, cursor);
    var r, last := FirstPage(server, start, end, cursor).value, Last(server, end);
    var pos, t := From(server, start, cursor), r.pagingToken.value;
    var m := Min(t, last);
    if pos <= m {
      MatchingSplit(server, pos, m, last);
    }
    EventsConcat(server.log, Matching(server, pos, m), Matching(server, t, last));
  }

  // Without a token there is nothing to follow. The page is then all that was wanted
  // exactly when no matching event lies beyond the part it was read from.
  lemma LastPageIff(server: Server, start: int, end: int, cursor: Option<nat>, k: nat)
    requires FirstPage(server, start, end, cursor).Ok?
    requires FirstPage(server, start, end, cursor).value.pagingToken.None?
    requires ReadFromPart(server, start, end, cursor, k)
    ensures var pos, partEnd := From(server, start, cursor), HalvedEnd(start, end, k);
      FirstPage(server, start, end, cursor).value.events
        == EventsAt(server.log, Matching(server, pos, Last(server, end))) <==>
      forall i :: Max(pos, Last(server, partEnd)) <= i < Last(server, end) ==> !server.matches(server.log[i])
  {
    var l := FirstPageReads(server, start, end, cursor);
    assert HalvedEnd(start, end, k) == HalvedEnd(start, end, l) by {
      if k != l {
        var lesser := HalvedEnd(start, end, Min(k, l));
      }
    }
    var pos, part, last := From(server, start, cursor), Last(server, HalvedEnd(start, end, k)), Last(server, end);
    WantedSplit(server, pos, part, last);
    EventsConcat(server.log, Matching(server, pos, part), Matching(server, Max(pos, part), last));
    MatchingMembers(server, Max(pos, part), last);
    EventsCount(server.log, Matching(server, Max(pos, part), last));
    EmptyIffNone(EventsAt(server.log, Matching(server, pos, part)),
                 EventsAt(server.log, Matching(server, Max(pos, part), last)));
  }

  lemma EmptyIffNone(a: seq<Event>, b: seq<Event>)
    ensures a == a + b <==> |b| == 0
  {
  }

  // The only event is one of ledger 2, and the range 1 to 2 is too large: the page of
  // ledger 1 is empty and carries no token, as if there were no events at all.
  lemma EmptyPageExample(server: Server)
    requires server.log == [Event(2, 20)] && server.matches(Event(2, 20))
    requires forall s, e, p :: !server.fails(s, e, p) && !server.ownToken(s, e, p)
    requires forall s, e, p :: server.tooLarge(s, e, p) <==> s < e
    ensures FirstPage(server, 1, 2, None) == Ok(EventsResult([], None))
    ensures InRange(server, 1, 2) == [Event(2, 20)]
  {
    assert Before(server.log, 1) == 0 && Before(server.log, 2) == 0;
    assert Midpoint(1, 2) == 1;
    assert GetEvents(server, 1, 1, None) == Page([], None);
    assert FirstPage(server, 1, 1, None) == Ok(EventsResult([], None));
    assert InRangeOf(server, 1, 2, 0) == [];
  }
}
