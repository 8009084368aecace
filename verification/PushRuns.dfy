/** The Push Service over time: Retry-After over whole runs, and which orders of clock readings
    keep the admission bound (`internal/pushservice/service.go`).

    A request reads the clock before it waits for the mutex, so decisions may see readings out of
    order; a decision is never made before its reading. */
module PushRuns {
  import opened Options
  import opened PushService

  // ---------------------------------------------------------------- Retry-After

  /** An event and the moment at which it held the mutex. */
  datatype Decision = Decision(event: Event, at: real)

  /** Decisions follow one another, and no reading is later than its decision. */
  ghost predicate Timely(from: real, decisions: seq<Decision>)
    decreases |decisions|
  {
    decisions != [] ==>
      && from <= decisions[0].at
      && (decisions[0].event.Request? ==> decisions[0].event.now <= decisions[0].at)
      && Timely(decisions[0].at, decisions[1..])
  }

  function EventsOf(decisions: seq<Decision>): seq<Event> {
    if decisions == [] then [] else [decisions[0].event] + EventsOf(decisions[1..])
  }

  /** The moment of the last decision. */
  function Until(from: real, decisions: seq<Decision>): real
    decreases |decisions|
  {
    if decisions == [] then from else Until(decisions[0].at, decisions[1..])
  }

  /** Whatever the order of the readings, the limiter is never ahead of the last decision. */
  lemma {:induction false} LimiterBehindDecisions(s: State, from: real, decisions: seq<Decision>)
    requires Invariant(s) && Timely(from, decisions) && 0.0 <= from
    requires s.limiter.Some? ==> s.limiter.value.last <= from
    ensures var end := Run(s, EventsOf(decisions));
            end.limiter.Some? ==> end.limiter.value.last <= Until(from, decisions)
    decreases |decisions|
  {
    if decisions != [] {
      var event, at := decisions[0].event, decisions[0].at;
      HandleKeepsInvariant(s, event);
      assert EventsOf(decisions)[1..] == EventsOf(decisions[1..]);
      LimiterBehindDecisions(Handle(s, event).0, at, decisions[1..]);
    }
  }

  /** A request refused at the moment `at` is admitted when retried `retryAfter` seconds later. */
  lemma RetryAfterIsEnough(s: State, now: real, at: real, between: seq<Event>, later: real)
    requires Invariant(s) && Handle(s, Request(true, now)).1.RateLimited?
    requires s.limiter.value.last <= at
    requires RateKept(s, between) && Admitted(s, between) == 0
    requires later >= at + Handle(s, Request(true, now)).1.retryAfter as real
    ensures Handle(Run(s, between), Request(true, later)).1.Allowed?
  {
    var l := s.limiter.value;
    RetryAdmittedIff(s, now, between, later);
    AccruedGrows(l.rps, 0.0, later - l.last);
  }

  /** The promise of Retry-After (section 10.2.3 of RFC 9110), for readings in any order: after
      any run of a new service, a request refused at the moment `at` is admitted if its retry
      reads the clock at least the advised time after that, with no admission and no rate change
      in between. */
  lemma EveryRetryAdmitted(initial: Behaviour, burst: int, start: real, decisions: seq<Decision>,
                           now: real, at: real, between: seq<Event>, later: real)
    requires ValidBehaviour(initial) && initial.latency <= MAX_INT64 && burst >= 1 && 0.0 <= start
    requires Timely(start, decisions) && Until(start, decisions) <= at
    requires var s := Run(NewService(initial, burst), EventsOf(decisions));
             && Handle(s, Request(true, now)).1.RateLimited?
             && RateKept(s, between) && Admitted(s, between) == 0
             && later >= at + Handle(s, Request(true, now)).1.retryAfter as real
    ensures var s := Run(NewService(initial, burst), EventsOf(decisions));
            Handle(Run(s, between), Request(true, later)).1.Allowed?
  {
    var begin := NewService(initial, burst);
    LimiterBehindDecisions(begin, start, decisions);
    RetryAfterIsEnough(Run(begin, EventsOf(decisions)), now, at, between, later);
  }

  // ---------------------------------------------------------------- readings out of order

  function RequestsAt(readings: seq<real>): seq<Event> {
    if readings == [] then [] else [Request(true, readings[0])] + RequestsAt(readings[1..])
  }

  function Repeat(reading: real, n: nat): seq<real> {
    if n == 0 then [] else [reading] + Repeat(reading, n - 1)
  }

  function Final(from: real, readings: seq<real>): real
    decreases |readings|
  {
    if readings == [] then from else Final(readings[0], readings[1..])
  }

  /** The distance the readings move forward, steps back not counted. */
  function Movement(from: real, readings: seq<real>): (d: real)
    ensures d >= 0.0
    decreases |readings|
  {
    if readings == [] then 0.0
    else (if readings[0] > from then readings[0] - from else 0.0) + Movement(readings[0], readings[1..])
  }

  lemma {:induction false} MovementIsForward(from: real, readings: seq<real>)
    ensures Forward(from, RequestsAt(readings)) == Movement(from, readings)
    decreases |readings|
  {
    if readings != [] {
      assert RequestsAt(readings)[1..] == RequestsAt(readings[1..]);
      MovementIsForward(readings[0], readings[1..]);
    }
  }

  lemma {:induction false} RequestsKeepRate(s: State, readings: seq<real>)
    requires Invariant(s)
    ensures RateKept(s, RequestsAt(readings))
    decreases |readings|
  {
    if readings != [] {
      assert RequestsAt(readings)[1..] == RequestsAt(readings[1..]);
      HandleKeepsInvariant(s, Request(true, readings[0]));
      RequestsKeepRate(Handle(s, Request(true, readings[0])).0, readings[1..]);
    }
  }

  /** The first reading decides, then the others. */
  lemma AdmittedFirst(s: State, reading: real, rest: seq<real>)
    requires Invariant(s)
    ensures var (next, verdict) := Handle(s, Request(true, reading));
            && Invariant(next)
            && Admitted(s, RequestsAt([reading] + rest))
               == (if verdict.Allowed? then 1 else 0) + Admitted(next, RequestsAt(rest))
  {
    HandleKeepsInvariant(s, Request(true, reading));
    assert ([reading] + rest)[1..] == rest;
    assert RequestsAt([reading] + rest)[1..] == RequestsAt(rest);
  }

  /** A limited service with this many tokens at its last admission. */
  ghost predicate Bucket(s: State, tokens: real, last: real) {
    Invariant(s) && s.limiter.Some? && s.limiter.value.tokens == tokens && s.limiter.value.last == last
  }

  /** With a token there and no overflow, a request is admitted and the bucket follows exactly. */
  lemma TakesOne(s: State, reading: real)
    requires Invariant(s) && s.limiter.Some?
    requires var l := s.limiter.value;
             1.0 <= l.tokens + Gain(l.rps, l.last, reading) <= l.burst
    ensures var l := s.limiter.value;
            var (next, verdict) := Handle(s, Request(true, reading));
            && verdict.Allowed? && next.behaviour == s.behaviour && next.burst == s.burst
            && Bucket(next, l.tokens + Gain(l.rps, l.last, reading) - 1.0, reading)
  {
    HandleKeepsInvariant(s, Request(true, reading));
    LevelBounds(s.limiter.value, reading);
    AccruedGrows(s.limiter.value.rps, 0.0, 0.0);
  }

  /** Taking whole tokens at one reading. */
  lemma {:induction false} TakesMany(s: State, n: nat, rest: seq<real>) returns (end: State)
    requires Invariant(s) && s.limiter.Some? && s.limiter.value.tokens >= n as real
    ensures var l := s.limiter.value;
            && Bucket(end, l.tokens - n as real, l.last) && end.behaviour == s.behaviour && end.burst == s.burst
            && Admitted(s, RequestsAt(Repeat(l.last, n) + rest)) == n + Admitted(end, RequestsAt(rest))
    decreases n
  {
    end := s;
    if n == 0 {
      assert Repeat(s.limiter.value.last, 0) + rest == rest;
    } else {
      var t := s.limiter.value.last;
      TakesOne(s, t);
      AdmittedFirst(s, t, Repeat(t, n - 1) + rest);
      assert [t] + (Repeat(t, n - 1) + rest) == Repeat(t, n) + rest;
      end := TakesMany(Handle(s, Request(true, t)).0, n - 1, rest);
    }
  }

  /** One request at each reading, with a token for each and room for what gathers. */
  lemma {:induction false} Walks(s: State, readings: seq<real>, rest: seq<real>) returns (end: State)
    requires Invariant(s) && s.limiter.Some? && s.limiter.value.tokens >= |readings| as real
    requires var l := s.limiter.value; l.tokens + Accrued(l.rps, Movement(l.last, readings)) <= l.burst
    ensures var l := s.limiter.value;
            && Bucket(end, l.tokens + Accrued(l.rps, Movement(l.last, readings)) - |readings| as real,
                Final(l.last, readings))
            && end.behaviour == s.behaviour && end.burst == s.burst
            && Admitted(s, RequestsAt(readings + rest)) == |readings| + Admitted(end, RequestsAt(rest))
    decreases |readings|
  {
    end := s;
    var l := s.limiter.value;
    AccruedGrows(l.rps, 0.0, 0.0);
    if readings == [] {
      assert readings + rest == rest;
    } else {
      var first, others := readings[0], readings[1..];
      MovementSplits(l.rps, l.last, readings);
      TakesOne(s, first);
      AdmittedFirst(s, first, others + rest);
      assert [first] + (others + rest) == readings + rest;
      end := Walks(Handle(s, Request(true, first)).0, others, rest);
    }
  }

  lemma MovementSplits(rps: nat, from: real, readings: seq<real>)
    requires readings != []
    ensures Accrued(rps, Movement(from, readings))
            == Gain(rps, from, readings[0]) + Accrued(rps, Movement(readings[0], readings[1..]))
    ensures Gain(rps, from, readings[0]) >= 0.0 && Accrued(rps, Movement(readings[0], readings[1..])) >= 0.0
  {
    var step := if readings[0] > from then readings[0] - from else 0.0;
    AccruedAdds(rps, step, Movement(readings[0], readings[1..]));
    AccruedGrows(rps, 0.0, step);
    AccruedGrows(rps, 0.0, Movement(readings[0], readings[1..]));
  }

  /** A new service without injected failures. */
  function Fresh(rps: nat, burst: nat): (s: State)
    requires rps >= 1 && burst >= 1
    ensures Invariant(s)
  {
    NewService(Behaviour(Finite(0.0), 0, rps), burst)
  }

  /** The readings, with further requests at the first and at the last of them. */
  function Padded(start: real, readings: seq<real>, before: nat, after: nat): seq<real> {
    Repeat(start, before) + (readings + Repeat(Final(start, readings), after))
  }

  /** At most burst + rps * d of these requests are admitted, whatever the rate and the burst. */
  ghost predicate BoundHolds(start: real, readings: seq<real>, d: real) {
    forall rps: nat, burst: nat, before: nat, after: nat | rps >= 1 && burst >= 1 ::
      WithinRate(Admitted(Fresh(rps, burst), RequestsAt(Padded(start, readings, before, after))), burst, rps, d)
  }

  /** The first request of a new service is admitted, whatever its reading. */
  lemma FirstTaken(rps: nat, burst: nat, reading: real, rest: seq<real>) returns (next: State)
    requires rps >= 1 && burst >= 1
    ensures Bucket(next, burst as real - 1.0, reading) && next.behaviour.rps == rps && next.burst == burst
    ensures Admitted(Fresh(rps, burst), RequestsAt([reading] + rest)) == 1 + Admitted(next, RequestsAt(rest))
  {
    var s := Fresh(rps, burst);
    LevelBounds(s.limiter.value, reading);
    AdmittedFirst(s, reading, rest);
    next := Handle(s, Request(true, reading)).0;
  }

  /** One request at each reading, and then the whole tokens gathered on the way. */
  lemma TakesWayAndGathered(s: State, readings: seq<real>, gathered: nat)
    requires Invariant(s) && s.limiter.Some? && s.limiter.value.tokens == |readings| as real
    requires var l := s.limiter.value;
             && |readings| as real + Accrued(l.rps, Movement(l.last, readings)) <= l.burst
             && gathered as real <= Accrued(l.rps, Movement(l.last, readings))
    ensures Admitted(s, RequestsAt(readings + Repeat(Final(s.limiter.value.last, readings),
            gathered))) == |readings| + gathered
  {
    var last := Repeat(Final(s.limiter.value.last, readings), gathered);
    var end := Walks(s, readings, last);
    var empty := TakesMany(end, gathered, []);
    assert last + [] == last;
  }

  /** The first requests leave one token for each reading. */
  lemma TakesRoom(rps: nat, start: real, n: nat, room: nat, rest: seq<real>) returns (s: State)
    requires rps >= 1 && room >= 1
    ensures Bucket(s, n as real, start) && s.limiter.value.rps == rps && s.limiter.value.burst == (n + room) as real
    ensures Admitted(Fresh(rps, n + room), RequestsAt(Repeat(start, room) + rest)) == room + Admitted(s,
            RequestsAt(rest))
  {
    var first := FirstTaken(rps, n + room, start, Repeat(start, room - 1) + rest);
    s := TakesMany(first, room - 1, rest);
    assert [start] + (Repeat(start, room - 1) + rest) == Repeat(start, room) + rest;
  }

  /** All tokens there are: the burst, and the whole tokens gathered on the way. */
  lemma TakesAll(rps: nat, start: real, readings: seq<real>, room: nat, gathered: nat)
    requires rps >= 1 && room >= 1
    requires gathered as real <= Accrued(rps, Movement(start, readings)) <= room as real
    ensures Admitted(Fresh(rps, |readings| + room), RequestsAt(Padded(start, readings, room, gathered)))
            == |readings| + room + gathered
  {
    var s := TakesRoom(rps, start, |readings|, room, readings + Repeat(Final(start, readings), gathered));
    TakesWayAndGathered(s, readings, gathered);
  }

  /** A rate at which a distance gathers a whole token. */
  lemma FastEnough(x: real) returns (rps: nat)
    requires x > 0.0
    ensures rps >= 1 && Accrued(rps, x) >= 1.0
  {
    rps := (1.0 / x).Floor + 1;
    AccruedIsProduct(rps, x);
    assert rps as real * x >= (1.0 / x) * x == 1.0;
  }

  lemma BeyondRate(admitted: nat, burst: nat, rps: nat, d: real)
    requires admitted as real > burst as real + Accrued(rps, d)
    ensures !WithinRate(admitted, burst, rps, d)
  {
    AccruedIsProduct(rps, d);
  }

  lemma MovementExceedsBound(start: real, readings: seq<real>, d: real)
    requires Movement(start, readings) > d
    ensures !BoundHolds(start, readings, d)
  {
    var moved := Movement(start, readings);
    var rps := FastEnough(moved - d);
    AccruedAdds(rps, d, moved - d);
    AccruedGrows(rps, 0.0, moved);
    var gathered: nat := Accrued(rps, moved).Floor;
    var burst := |readings| + (gathered + 1);
    TakesAll(rps, start, readings, gathered + 1, gathered);
    var admitted := Admitted(Fresh(rps, burst), RequestsAt(Padded(start, readings, gathered + 1, gathered)));
    BeyondRate(admitted, burst, rps, d);
  }

  lemma {:induction false} MovementRepeats(start: real, n: nat, rest: seq<real>)
    ensures Movement(start, Repeat(start, n) + rest) == Movement(start, rest)
    decreases n
  {
    if n == 0 {
      assert Repeat(start, n) + rest == rest;
    } else {
      var all := Repeat(start, n) + rest;
      assert all[0] == start && all[1..] == Repeat(start, n - 1) + rest;
      MovementRepeats(start, n - 1, rest);
    }
  }

  lemma {:induction false} MovementThenRepeats(start: real, readings: seq<real>, n: nat)
    ensures Movement(start, readings + Repeat(Final(start, readings), n)) == Movement(start, readings)
    decreases |readings|
  {
    if readings == [] {
      assert readings + Repeat(start, n) == Repeat(start, n) + [];
      MovementRepeats(start, n, []);
    } else {
      MovementThenRepeats(readings[0], readings[1..], n);
      var all := readings + Repeat(Final(start, readings), n);
      assert all[0] == readings[0] && all[1..] == readings[1..] + Repeat(Final(start, readings), n);
    }
  }

  /** Readings taken before the mutex may be seen in any order. Whatever the rate, the burst and
      the number of requests at the first and last reading, at most burst + rps * d are admitted,
      exactly when the readings move forward by at most d in all. */
  lemma BoundHoldsIff(start: real, readings: seq<real>, d: real)
    ensures BoundHolds(start, readings, d) <==> Movement(start, readings) <= d
  {
    if Movement(start, readings) > d {
      MovementExceedsBound(start, readings, d);
    } else {
      forall rps: nat, burst: nat, before: nat, after: nat | rps >= 1 && burst >= 1
        ensures WithinRate(Admitted(Fresh(rps, burst), RequestsAt(Padded(start, readings, before, after))), burst,
                rps, d)
      {
        var all := Padded(start, readings, before, after);
        MovementRepeats(start, before, readings + Repeat(Final(start, readings), after));
        MovementThenRepeats(start, readings, after);
        MovementIsForward(start, all);
        RequestsKeepRate(Fresh(rps, burst), all);
        AdmissionsWithinMovement(Fresh(rps, burst), start, RequestsAt(all), d);
      }
    }
  }

  lemma OneTaken(s: State, tokens: real, last: real, reading: real, rest: seq<real>) returns (next: State)
    requires Bucket(s, tokens, last) && s.behaviour.rps == 1 && s.burst == 3
    requires 1.0 <= tokens + Gain(1, last, reading) <= 3.0
    ensures Bucket(next, tokens + Gain(1, last, reading) - 1.0, reading) && next.behaviour.rps == 1 && next.burst == 3
    ensures Admitted(s, RequestsAt([reading] + rest)) == 1 + Admitted(next, RequestsAt(rest))
  {
    TakesOne(s, reading);
    AdmittedFirst(s, reading, rest);
    next := Handle(s, Request(true, reading)).0;
  }

  lemma BackAndForth(s: State, tokens: real, rest: seq<real>) returns (next: State)
    requires Bucket(s, tokens, 1.0) && s.behaviour.rps == 1 && s.burst == 3 && 1.0 <= tokens <= 2.0
    ensures Bucket(next, tokens - 1.0, 1.0) && next.behaviour.rps == 1 && next.burst == 3
    ensures Admitted(s, RequestsAt([0.0, 1.0] + rest)) == 2 + Admitted(next, RequestsAt(rest))
  {
    var back := OneTaken(s, tokens, 1.0, 0.0, [1.0] + rest);
    next := OneTaken(back, tokens - 1.0, 0.0, 1.0, rest);
    assert [0.0] + ([1.0] + rest) == [0.0, 1.0] + rest;
  }

  /** For instance, five requests with the readings 1, 0, 1, 0, 1 s, all within one second, are
      all admitted at one per second with a burst of three. */
  lemma OutOfOrderExceedsBound()
    ensures Admitted(Fresh(1, 3), RequestsAt([1.0, 0.0, 1.0, 0.0, 1.0])) == 5
    ensures !WithinRate(5, 3, 1, 1.0)
  {
    var s := FirstTaken(1, 3, 1.0, [0.0, 1.0, 0.0, 1.0]);
    assert [1.0] + [0.0, 1.0, 0.0, 1.0] == [1.0, 0.0, 1.0, 0.0, 1.0];
    assert [0.0, 1.0] + [0.0, 1.0] == [0.0, 1.0, 0.0, 1.0];
    var t := BackAndForth(s, 2.0, [0.0, 1.0]);
    var end := BackAndForth(t, 1.0, []);
    assert [0.0, 1.0] + [] == [0.0, 1.0];
  }
}
