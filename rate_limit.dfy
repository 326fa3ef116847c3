/** The in-process fixed-window rate limiter `simpleRateLimit` of
    src/lib/rate-limit.ts: a table from client identifier to a counter and
    the start of its window. Time is the caller's `now`, in milliseconds. */
module RateLimit {

  /** Length of one window: one minute, in milliseconds. */
  const WindowMs: int := 60 * 1000

  /** Requests allowed per identifier in one window. */
  const MaxRequests: int := 10

  /** The table entry of one identifier. */
  datatype Record = Record(count: int, lastReset: int)

  /** What `simpleRateLimit` returns. */
  datatype Verdict = Verdict(success: bool, remaining: int)

  /** Every stored counter lies in 1..MaxRequests. */
  predicate CountsInRange(requests: map<string, Record>)
  {
    forall id :: id in requests ==> 1 <= requests[id].count <= MaxRequests
  }

  /** The call opens a new window: no entry yet, or strictly more than
      WindowMs has passed since the entry's window began. */
  predicate StartsNewWindow(requests: map<string, Record>, id: string, now: int)
  {
    id !in requests || now - requests[id].lastReset > WindowMs
  }

  /** One call of the limiter: its verdict and the table afterwards. */
  function Step(requests: map<string, Record>, id: string, now: int): (out: (Verdict, map<string, Record>))
    ensures id in out.1 && out.1.Keys == requests.Keys + {id}
    ensures forall k :: k in requests && k != id ==> out.1[k] == requests[k]
    ensures out.0.success ==> out.0.remaining == MaxRequests - out.1[id].count
    ensures !out.0.success ==> out.0.remaining == 0 && out.1 == requests
    ensures CountsInRange(requests) ==> CountsInRange(out.1) && 0 <= out.0.remaining < MaxRequests
  {
    if StartsNewWindow(requests, id, now) then
      (Verdict(true, MaxRequests - 1), requests[id := Record(1, now)])
    else if requests[id].count >= MaxRequests then
      (Verdict(false, 0), requests)
    else
      var record := requests[id].(count := requests[id].count + 1);
      (Verdict(true, MaxRequests - record.count), requests[id := record])
  }

  /** The first call for an identifier is allowed, leaves nine more, and
      opens a window at `now` holding one request. */
  lemma FirstCallAllowed(requests: map<string, Record>, id: string, now: int)
    requires id !in requests
    ensures Step(requests, id, now) == (Verdict(true, 9), requests[id := Record(1, now)])
  {
  }

  /** Once strictly more than WindowMs has passed, the entry starts over. */
  lemma ElapsedWindowResets(requests: map<string, Record>, id: string, now: int)
    requires id in requests && now - requests[id].lastReset > WindowMs
    ensures Step(requests, id, now) == (Verdict(true, MaxRequests - 1), requests[id := Record(1, now)])
  {
  }

  /** Within the window (up to and including exactly WindowMs after its
      start) the window start is kept: there is no reset. */
  lemma WithinWindowKeepsStart(requests: map<string, Record>, id: string, now: int)
    requires id in requests && now - requests[id].lastReset <= WindowMs
    ensures Step(requests, id, now).1[id].lastReset == requests[id].lastReset
    ensures Step(requests, id, now).1[id].count >= requests[id].count
  {
  }

  /** A call exactly one window after the start still counts in the old
      window: a record holding 3 requests from time 0 goes to 4 at time
      60000, not back to 1. */
  lemma BoundaryCallInOldWindow()
    ensures Step(map["ip" := Record(3, 0)], "ip", 60000) == (Verdict(true, 6), map["ip" := Record(4, 0)])
  {
    var before := map["ip" := Record(3, 0)];
    assert !StartsNewWindow(before, "ip", 60000);
    assert before["ip" := Record(4, 0)] == map["ip" := Record(4, 0)];
  }

  /** A full window rejects with nothing remaining and leaves the table
      untouched: the count is checked before it is incremented. */
  lemma FullWindowRejects(requests: map<string, Record>, id: string, now: int)
    requires id in requests && now - requests[id].lastReset <= WindowMs
    requires requests[id].count >= MaxRequests
    ensures Step(requests, id, now) == (Verdict(false, 0), requests)
  {
  }

  /** Otherwise the count rises by exactly one, the window start stays, and
      `remaining` is what is left of the window's capacity. */
  lemma AllowedCallIncrements(requests: map<string, Record>, id: string, now: int)
    requires id in requests && now - requests[id].lastReset <= WindowMs
    requires requests[id].count < MaxRequests
    ensures var r := requests[id];
      Step(requests, id, now) == (Verdict(true, MaxRequests - (r.count + 1)), requests[id := Record(r.count + 1, r.lastReset)])
  {
  }

  /** Successive calls for one identifier at the given times: the verdicts,
      in order, and the table after the last call. */
  function Replay(requests: map<string, Record>, id: string, times: seq<int>): (out: (seq<Verdict>, map<string, Record>))
    ensures |out.0| == |times|
    ensures times != [] ==> id in out.1
    ensures forall k :: k in requests && k != id ==> k in out.1 && out.1[k] == requests[k]
    decreases |times|
  {
    if times == [] then ([], requests)
    else
      var first := Step(requests, id, times[0]);
      var rest := Replay(first.1, id, times[1..]);
      ([first.0] + rest.0, rest.1)
  }

  /** The verdict of a call made when the window already holds `before`
      requests. */
  function Expected(before: int): Verdict
  {
    if before < MaxRequests then Verdict(true, MaxRequests - before - 1) else Verdict(false, 0)
  }

  function Min(a: int, b: int): int
  {
    if a <= b then a else b
  }

  /** Calls that all fall inside an open window holding `c` requests since
      `start`: the i-th call sees c + i earlier requests, and the window
      ends up holding min(c + |times|, MaxRequests) requests. */
  lemma {:induction false} ReplayWithinWindow(requests: map<string, Record>, id: string, times: seq<int>, c: int, start: int)
    requires id in requests && requests[id] == Record(c, start) && 1 <= c <= MaxRequests
    requires forall i :: 0 <= i < |times| ==> times[i] - start <= WindowMs
    ensures var out := Replay(requests, id, times);
      id in out.1 && out.1[id] == Record(Min(c + |times|, MaxRequests), start) &&
      forall i :: 0 <= i < |times| ==> out.0[i] == Expected(c + i)
    decreases |times|
  {
    if times != [] {
      var first := Step(requests, id, times[0]);
      var c' := if c < MaxRequests then c + 1 else c;
      assert first.0 == Expected(c) && first.1[id] == Record(c', start);
      var tail := times[1..];
      assert forall i :: 0 <= i < |tail| ==> tail[i] == times[i + 1];
      ReplayWithinWindow(first.1, id, tail, c', start);
      var rest := Replay(first.1, id, tail);
      var out := Replay(requests, id, times);
      assert out.0 == [first.0] + rest.0;
      forall i | 1 <= i < |times|
        ensures out.0[i] == Expected(c + i)
      {
        assert out.0[i] == rest.0[i - 1] == Expected(c' + i - 1);
      }
    }
  }

  /** A burst from an identifier with no entry, every call within one window
      of the first: the i-th call is allowed with MaxRequests - 1 - i
      remaining while i < MaxRequests, and rejected from then on. */
  lemma {:induction false} FreshBurst(requests: map<string, Record>, id: string, times: seq<int>)
    requires id !in requests && times != []
    requires forall i :: 0 <= i < |times| ==> times[i] - times[0] <= WindowMs
    ensures var vs := Replay(requests, id, times).0;
      forall i :: 0 <= i < |times| ==> vs[i] == Expected(i)
  {
    var first := Step(requests, id, times[0]);
    var tail := times[1..];
    assert forall i :: 0 <= i < |tail| ==> tail[i] == times[i + 1];
    ReplayWithinWindow(first.1, id, tail, 1, times[0]);
    var vs := Replay(requests, id, times).0;
    forall i | 1 <= i < |times|
      ensures vs[i] == Expected(i)
    {
      assert vs[i] == Replay(first.1, id, tail).0[i - 1];
    }
  }

  /** From a fresh identifier, ten calls inside one window are allowed (the
      tenth with nothing remaining) and the eleventh is rejected. */
  lemma TenAllowedThenRejected(requests: map<string, Record>, id: string, times: seq<int>)
    requires id !in requests && |times| == 11
    requires forall i :: 0 <= i < 11 ==> times[i] - times[0] <= WindowMs
    ensures var vs := Replay(requests, id, times).0;
      (forall i :: 0 <= i < 10 ==> vs[i].success) &&
      vs[9] == Verdict(true, 0) && vs[10] == Verdict(false, 0)
  {
    FreshBurst(requests, id, times);
  }

  /** The limiter's table, shared by every call in one process. */
  class SimpleRateLimiter {
    var requests: map<string, Record>

    ghost predicate Valid()
      reads this
    {
      CountsInRange(requests)
    }

    constructor ()
      ensures Valid() && requests == map[]
    {
      requests := map[];
    }

    /** `simpleRateLimit(identifier)` at time `now`. */
    method Allow(identifier: string, now: int) returns (verdict: Verdict)
      requires Valid()
      modifies this
      ensures Valid()
      ensures (verdict, requests) == Step(old(requests), identifier, now)
      ensures 0 <= verdict.remaining < MaxRequests
      ensures !verdict.success ==> verdict.remaining == 0 && requests == old(requests)
      ensures forall k :: k in old(requests) && k != identifier ==> k in requests && requests[k] == old(requests)[k]
    {
      if identifier !in requests || now - requests[identifier].lastReset > WindowMs {
        requests := requests[identifier := Record(1, now)];
        return Verdict(true, MaxRequests - 1);
      }
      var record := requests[identifier];
      if record.count >= MaxRequests {
        return Verdict(false, 0);
      }
      record := record.(count := record.count + 1);
      requests := requests[identifier := record];
      verdict := Verdict(true, MaxRequests - record.count);
    }
  }
}
