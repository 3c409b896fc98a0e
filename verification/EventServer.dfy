// The event server behind src/client/stellarClient.ts, fetchContractEventsRange: an
// event log, positions in it, and the pages a client gets.
module EventServer {
  import opened Wrappers
  import opened IncreasingSequences

  datatype Event = Event(ledger: int, payload: int)

  // A server that scans an event log ordered by ledger for the events that match the
  // filters of the request. A paging token stands for the log position it resumes
  // from; every event carries the token of the position after it. How far a page
  // scans, whether a response carries a token of its own, and when the payload counts
  // as too large or the call fails is up to the server.
  datatype Server = Server(
    log: seq<Event>,
    matches: Event -> bool,
    scan: (int, int, nat) -> nat,
    ownToken: (int, int, nat) -> bool,
    tooLarge: (int, int, nat) -> bool,
    fails: (int, int, nat) -> bool)

  datatype Response = Page(events: seq<Event>, token: Option<nat>) | Oversize | Failure

  predicate Sorted(log: seq<Event>) {
    forall i, j :: 0 <= i < j < |log| ==> log[i].ledger <= log[j].ledger
  }

  // ---------- Positions ----------

  // The number of events before the given ledger, in a sorted log.
  function Before(log: seq<Event>, ledger: int): (n: nat)
    ensures n <= |log|
  {
    if log == [] || log[0].ledger >= ledger then 0 else 1 + Before(log[1..], ledger)
  }

  lemma BeforeMonotonic(log: seq<Event>, a: int, b: int)
    requires a <= b
    ensures Before(log, a) <= Before(log, b)
  {
  }

  lemma {:induction false} BeforeSplits(log: seq<Event>, ledger: int, i: nat)
    requires Sorted(log) && i < |log|
    ensures i < Before(log, ledger) <==> log[i].ledger < ledger
  {
    if i > 0 {
      BeforeSplits(log[1..], ledger, i - 1);
    }
  }

  // The position after the last event of a range.
  function Last(server: Server, end: int): (n: nat)
    ensures n <= |server.log|
  {
    Before(server.log, end + 1)
  }

  // The positions of the matching events between two positions.
  function Matching(server: Server, from: nat, till: nat): seq<nat>
    requires till <= |server.log|
    decreases till
  {
    if from >= till then []
    else Matching(server, from, till - 1) + (if server.matches(server.log[till - 1]) then [till - 1] else [])
  }

  ghost predicate InOrder(server: Server, positions: seq<nat>, from: nat, till: nat) {
    && Increasing(positions)
    && forall i :: 0 <= i < |positions| ==>
         from <= positions[i] < till <= |server.log| && server.matches(server.log[positions[i]])
  }

  lemma {:induction false} MatchingBounds(server: Server, from: nat, till: nat)
    requires till <= |server.log|
    ensures forall i :: 0 <= i < |Matching(server, from, till)| ==> from <= Matching(server, from, till)[i] < till
    decreases till
  {
    if from < till {
      MatchingBounds(server, from, till - 1);
    }
  }

  lemma {:induction false} MatchingMembers(server: Server, from: nat, till: nat)
    requires till <= |server.log|
    ensures forall p :: p in Matching(server, from, till) <==> from <= p < till && server.matches(server.log[p])
    ensures InOrder(server, Matching(server, from, till), from, till)
    decreases till
  {
    if from < till {
      MatchingMembers(server, from, till - 1);
    }
  }

  lemma {:induction false} MatchingSplit(server: Server, from: nat, mid: nat, till: nat)
    requires from <= mid <= till <= |server.log|
    ensures Matching(server, from, till) == Matching(server, from, mid) + Matching(server, mid, till)
    decreases till
  {
    if mid < till {
      MatchingSplit(server, from, mid, till - 1);
      Regroup(Matching(server, from, mid), Matching(server, mid, till - 1),
              if server.matches(server.log[till - 1]) then [till - 1] else []);
    }
  }

  function EventsAt(log: seq<Event>, positions: seq<nat>): seq<Event> {
    if positions == [] then []
    else
      var n := |positions| - 1;
      EventsAt(log, positions[..n]) + (if positions[n] < |log| then [log[positions[n]]] else [])
  }

  lemma {:induction false} EventsConcat(log: seq<Event>, a: seq<nat>, b: seq<nat>)
    ensures EventsAt(log, a + b) == EventsAt(log, a) + EventsAt(log, b)
  {
    if b == [] {
      assert a + b == a;
    } else {
      var n := |b| - 1;
      assert (a + b)[..|a| + n] == a + b[..n];
      EventsConcat(log, a, b[..n]);
    }
  }

  lemma {:induction false} EventsCount(log: seq<Event>, positions: seq<nat>)
    requires forall i :: 0 <= i < |positions| ==> positions[i] < |log|
    ensures |EventsAt(log, positions)| == |positions|
  {
    if positions != [] {
      EventsCount(log, positions[..|positions| - 1]);
    }
  }

  // The matching events of ledgers start to end among the first n, in order.
  function InRangeOf(server: Server, start: int, end: int, n: nat): seq<Event>
    requires n <= |server.log|
  {
    if n == 0 then []
    else
      var e := server.log[n - 1];
      InRangeOf(server, start, end, n - 1) + (if start <= e.ledger <= end && server.matches(e) then [e] else [])
  }

  function InRange(server: Server, start: int, end: int): seq<Event> {
    InRangeOf(server, start, end, |server.log|)
  }

  lemma {:induction false} RangeIsMatching(server: Server, start: int, end: int, n: nat)
    requires Sorted(server.log) && n <= |server.log|
    ensures InRangeOf(server, start, end, n)
            == EventsAt(server.log, Matching(server, Before(server.log, start), Min(n, Last(server, end))))
  {
    if n > 0 {
      RangeIsMatching(server, start, end, n - 1);
      BeforeSplits(server.log, start, n - 1);
      BeforeSplits(server.log, end + 1, n - 1);
      OneMoreEvent(server, Before(server.log, start), n);
    }
  }

  lemma OneMoreEvent(server: Server, from: nat, n: nat)
    requires 0 < n <= |server.log|
    ensures EventsAt(server.log, Matching(server, from, n)) == EventsAt(server.log, Matching(server, from, n - 1))
            + (if from < n && server.matches(server.log[n - 1]) then [server.log[n - 1]] else [])
  {
    var before := Matching(server, from, n - 1);
    EventsConcat(server.log, before, [n - 1]);
    assert before + [] == before;
    assert EventsAt(server.log, [n - 1]) == [server.log[n - 1]] by {
      assert [n - 1][..0] == [];
    }
  }

  lemma RangeEvents(server: Server, start: int, end: int)
    requires Sorted(server.log)
    ensures InRange(server, start, end)
            == EventsAt(server.log, Matching(server, Before(server.log, start), Last(server, end)))
    ensures |InRange(server, start, end)| == |Matching(server, Before(server.log, start), Last(server, end))|
  {
    RangeIsMatching(server, start, end, |server.log|);
    MatchingBounds(server, Before(server.log, start), Last(server, end));
    EventsCount(server.log, Matching(server, Before(server.log, start), Last(server, end)));
  }

  // ---------- The server's answers ----------

  // The position a request reads from.
  function From(server: Server, start: int, cursor: Option<nat>): nat {
    var first := Before(server.log, start);
    if cursor.Some? && cursor.value > first then cursor.value else first
  }

  // Where the scan of a page ends: further on, while there is anything to scan.
  function PageEnd(server: Server, start: int, end: int, pos: nat): (r: nat)
    ensures r <= Last(server, end)
    ensures pos < Last(server, end) ==> pos < r
  {
    var last := Last(server, end);
    if pos >= last then last else Min(last, pos + Max(1, server.scan(start, end, pos)))
  }

  function PagePositions(server: Server, start: int, end: int, pos: nat): seq<nat> {
    Matching(server, pos, PageEnd(server, start, end, pos))
  }

  // A page without events before the end of the range carries a token of its own, so
  // that the client can go on.
  function Token(server: Server, start: int, end: int, pos: nat): (t: Option<nat>)
    ensures t.Some? ==> (if pos < Last(server, end) then pos < t.value <= Last(server, end) else t.value == pos)
    ensures t.None? ==> PageEnd(server, start, end, pos) == Last(server, end)
  {
    var pageEnd, positions := PageEnd(server, start, end, pos), PagePositions(server, start, end, pos);
    MatchingBounds(server, pos, pageEnd);
    if server.ownToken(start, end, pos) || (positions == [] && pageEnd < Last(server, end)) then Some(Max(pos, pageEnd))
    else if positions != [] then Some(positions[|positions| - 1] + 1)
    else None
  }

  function GetEvents(server: Server, start: int, end: int, cursor: Option<nat>): Response {
    var pos := From(server, start, cursor);
    if server.fails(start, end, pos) then Failure
    else if server.tooLarge(start, end, pos) then Oversize
    else Page(EventsAt(server.log, PagePositions(server, start, end, pos)), Token(server, start, end, pos))
  }

  // A page holds all that matches up to its token.
  lemma PageReadsToToken(server: Server, start: int, end: int, pos: nat)
    requires Token(server, start, end, pos).Some?
    ensures PagePositions(server, start, end, pos)
            == Matching(server, pos, Min(Token(server, start, end, pos).value, Last(server, end)))
  {
    if PagePositions(server, start, end, pos) != [] {
      NoneAfterLast(server, pos, PageEnd(server, start, end, pos));
    }
  }

  lemma {:induction false} NoneAfterLast(server: Server, from: nat, till: nat)
    requires till <= |server.log| && Matching(server, from, till) != []
    ensures var m := Matching(server, from, till);
      m[|m| - 1] < till && Matching(server, from, m[|m| - 1] + 1) == m
    decreases till
  {
    assert Matching(server, from, till - 1) + [] == Matching(server, from, till - 1);
    if !server.matches(server.log[till - 1]) {
      NoneAfterLast(server, from, till - 1);
    }
  }
}
