/** The Push Service's behaviour record and its token bucket (`internal/pushservice/service.go`).

    Time is in seconds and tokens are exact numbers; rounding of `float64` is not modelled. */
module PushService {

  import opened Options

  /** A float64 as far as validation looks at it. */
  datatype Float = NaN | Infinite | Finite(value: real)

  datatype Behaviour = Behaviour(failRate: Float, latency: int, rps: int)

  datatype Patch = Patch(failRate: Option<Float>, latencyMs: Option<int>, rps: Option<int>)

  /** `rate.Limiter`: tokens at the moment `last`. */
  datatype Limiter = Limiter(rps: nat, burst: real, tokens: real, last: real)

  const MAX_INT64: int := 0x7FFF_FFFF_FFFF_FFFF
  const MILLISECOND: int := 1_000_000

  function NewLimiter(rps: nat, burst: int): Limiter { Limiter(rps, burst as real, burst as real, 0.0) }

  /** Tokens gathered in `d` seconds: `rps` times `d`. */
  function Accrued(rps: nat, d: real): real {
    if rps == 0 then 0.0 else d + Accrued(rps - 1, d)
  }

  lemma OneMore(r: real, d: real)
    ensures (r + 1.0) * d == d + r * d
  {
  }

  lemma {:induction false} AccruedIsProduct(rps: nat, d: real)
    ensures Accrued(rps, d) == rps as real * d
  {
    if rps > 0 {
      AccruedIsProduct(rps - 1, d);
      OneMore((rps - 1) as real, d);
    }
  }

  lemma {:induction false} AccruedAdds(rps: nat, x: real, y: real)
    ensures Accrued(rps, x + y) == Accrued(rps, x) + Accrued(rps, y)
  {
    if rps > 0 { AccruedAdds(rps - 1, x, y); }
  }

  lemma {:induction false} AccruedGrows(rps: nat, x: real, y: real)
    requires x <= y
    ensures Accrued(rps, x) <= Accrued(rps, y)
    ensures Accrued(rps, 0.0) == 0.0 && (rps >= 1 && y >= 0.0 ==> Accrued(rps, y) >= y)
  {
    if rps > 0 { AccruedGrows(rps - 1, x, y); }
  }

  function Min(a: real, b: real): real { if a <= b then a else b }

  /** Tokens available at a clock reading: refilled since `last`, never above the burst. A
      reading before `last` refills nothing. */
  function Level(l: Limiter, now: real): real {
    if now < l.last then Min(l.burst, l.tokens) else Min(l.burst, l.tokens + Accrued(l.rps, now - l.last))
  }

  /** `AllowN(now, 1)`: take a token if there is one; a denial leaves the limiter as it was. */
  function Allow(l: Limiter, now: real): (Limiter, bool) {
    if Level(l, now) >= 1.0 then (l.(tokens := Level(l, now) - 1.0, last := now), true) else (l, false)
  }

  predicate ValidBehaviour(b: Behaviour) {
    b.failRate.Finite? && 0.0 <= b.failRate.value <= 1.0 && b.latency >= 0 && b.rps >= 0
  }

  predicate LatencyInRange(ms: int) { 0 <= ms <= MAX_INT64 / MILLISECOND }

  function Patched(b: Behaviour, p: Patch): Behaviour {
    Behaviour(if p.failRate.Some? then p.failRate.value else b.failRate,
              if p.latencyMs.Some? then p.latencyMs.value * MILLISECOND else b.latency,
              if p.rps.Some? then p.rps.value else b.rps)
  }

  predicate PatchAccepted(b: Behaviour, p: Patch) {
    (p.latencyMs.Some? ==> LatencyInRange(p.latencyMs.value)) && ValidBehaviour(Patched(b, p))
  }

  function LimiterFor(rps: nat, burst: int): Option<Limiter> { if rps == 0 then None else Some(NewLimiter(rps, burst)) }

  /** The retry delay in seconds: the ceiling of 1/rps, at least one. */
  function RetryAfter(rps: int): int
    requires rps >= 1
  {
    var ceiling := (1 + rps - 1) / rps;
    if ceiling < 1 then 1 else ceiling
  }

  /** The service state the mutex guards. */
  datatype State = State(behaviour: Behaviour, burst: int, limiter: Option<Limiter>)

  datatype Verdict = Invalid | Allowed | RateLimited(retryAfter: int) | PatchApplied | PatchRejected

  /** One thing that happens to the service: a push request, valid or not, or an admin patch. */
  datatype Event = Request(valid: bool, now: real) | Admin(patch: Patch)

  predicate Invariant(s: State) {
    && s.burst >= 1 && ValidBehaviour(s.behaviour) && s.behaviour.latency <= MAX_INT64
    && (s.limiter.None? <==> s.behaviour.rps == 0)
    && (s.limiter.Some? ==> s.limiter.value.rps == s.behaviour.rps && s.limiter.value.burst == s.burst as real
                            && 0.0 <= s.limiter.value.tokens <= s.limiter.value.burst)
  }

  function Handle(s: State, e: Event): (State, Verdict)
    requires Invariant(s)
  {
    match e
    case Request(valid, now) =>
      if !valid then (s, Invalid)
      else if s.behaviour.rps == 0 then (s, Allowed)
      else
        var (l, ok) := Allow(s.limiter.value, now);
        if ok then (s.(limiter := Some(l)), Allowed) else (s, RateLimited(RetryAfter(s.behaviour.rps)))
    case Admin(patch) =>
      if !PatchAccepted(s.behaviour, patch) then (s, PatchRejected)
      else
        var next := Patched(s.behaviour, patch);
        (State(next, s.burst, if next.rps != s.behaviour.rps then LimiterFor(next.rps, s.burst) else s.limiter),
            PatchApplied)
  }

  /** What a patch may ask for. */
  ghost predicate InRange(patch: Patch) {
    && (patch.failRate.Some? ==> patch.failRate.value.Finite? && 0.0 <= patch.failRate.value.value <= 1.0)
    && (patch.latencyMs.Some? ==> 0 <= patch.latencyMs.value <= 9_223_372_036_854)
    && (patch.rps.Some? ==> patch.rps.value >= 0)
  }

  /** Each value asked for is there afterwards, latency in nanoseconds, and the others are kept. */
  ghost predicate Arrives(patch: Patch, before: Behaviour, after: Behaviour) {
    && after.failRate == patch.failRate.GetOr(before.failRate)
    && (patch.latencyMs.Some? ==> after.latency == 1_000_000 * patch.latencyMs.value <= 0x7FFF_FFFF_FFFF_FFFF)
    && (patch.latencyMs.None? ==> after.latency == before.latency)
    && after.rps == patch.rps.GetOr(before.rps)
  }

  /** No limiter for rate 0, otherwise a new one holding the whole burst. */
  ghost predicate FullBucket(limiter: Option<Limiter>, rps: int, burst: int) {
    if rps == 0 then limiter.None?
    else limiter.Some? && limiter.value.rps == rps && limiter.value.tokens == limiter.value.burst == burst as real
  }

  /** A patch in range arrives, any other changes nothing, and a rate change starts a full bucket. */
  lemma PatchIsExact(s: State, patch: Patch)
    requires Invariant(s)
    ensures var (next, verdict) := Handle(s, Admin(patch));
            && (verdict.PatchApplied? <==> InRange(patch))
            && (InRange(patch) ==> Arrives(patch, s.behaviour, next.behaviour))
            && (!InRange(patch) ==> verdict.PatchRejected? && next == s)
            && (next.behaviour.rps != s.behaviour.rps ==> FullBucket(next.limiter, next.behaviour.rps, next.burst))
  {
  }

  /** The advised delay is the least whole number of seconds, at least one, that gathers a token. */
  lemma RetryAfterIsLeast(rps: int, n: int)
    requires rps >= 1
    ensures RetryAfter(rps) >= 1 && Accrued(rps, RetryAfter(rps) as real) >= 1.0
    ensures n >= 1 && Accrued(rps, n as real) >= 1.0 ==> RetryAfter(rps) <= n
  {
    AccruedGrows(rps, 0.0, RetryAfter(rps) as real);
  }

  lemma HandleKeepsInvariant(s: State, e: Event)
    requires Invariant(s)
    ensures Invariant(Handle(s, e).0)
  {
    if e.Request? && s.limiter.Some? {
      LevelBounds(s.limiter.value, e.now);
    }
  }

  lemma LevelBounds(l: Limiter, now: real)
    requires 0.0 <= l.tokens <= l.burst
    ensures 0.0 <= l.tokens <= Level(l, now) <= l.burst
  {
    if now >= l.last {
      AccruedGrows(l.rps, 0.0, now - l.last);
    }
  }

  // ---------------------------------------------------------------- the imperative service

  class Service {
    var behaviour: Behaviour
    var limiter: Option<Limiter>
    const burst: int

    ghost function View(): State
      reads this
    {
      State(behaviour, burst, limiter)
    }

    constructor (initial: Behaviour, burst: int)
      requires ValidBehaviour(initial) && initial.latency <= MAX_INT64 && burst >= 1
      ensures View() == NewService(initial, burst) && Invariant(View())
    {
      behaviour := initial;
      this.burst := burst;
      limiter := LimiterFor(initial.rps, burst);
    }

    /** `PatchBehaviour`: validate a copy, then install it; a rate change replaces the limiter. */
    method PatchBehaviour(patch: Patch) returns (ok: bool)
      requires Invariant(View())
      modifies this
      ensures Invariant(View())
      ensures View() == Handle(old(View()), Admin(patch)).0
      ensures ok <==> InRange(patch)
      ensures ok ==> Arrives(patch, old(behaviour), behaviour)
      ensures !ok ==> View() == old(View())
      ensures behaviour.rps == old(behaviour.rps) ==> limiter == old(limiter)
      ensures behaviour.rps != old(behaviour.rps) ==> FullBucket(limiter, behaviour.rps, burst)
    {
      var next := behaviour;
      if patch.failRate.Some? {
        next := next.(failRate := patch.failRate.value);
      }
      if patch.latencyMs.Some? {
        if patch.latencyMs.value < 0 || patch.latencyMs.value > MAX_INT64 / MILLISECOND {
          return false;
        }
        next := next.(latency := patch.latencyMs.value * MILLISECOND);
      }
      if patch.rps.Some? {
        next := next.(rps := patch.rps.value);
      }
      if !ValidBehaviour(next) {
        return false;
      }
      var rateChanged := next.rps != behaviour.rps;
      behaviour := next;
      if rateChanged {
        limiter := LimiterFor(behaviour.rps, burst);
      }
      ok := true;
    }

    /** `snapshotAndAllow`, with the reading taken before the mutex. */
    method SnapshotAndAllow(now: real) returns (snapshot: Behaviour, allowed: bool, retryAfter: int)
      requires Invariant(View())
      modifies this
      ensures Invariant(View()) && behaviour == old(behaviour) && snapshot == behaviour
      ensures View() == Handle(old(View()), Request(true, now)).0
      ensures Handle(old(View()), Request(true, now)).1 == if allowed then Allowed else RateLimited(retryAfter)
      ensures !allowed ==> limiter == old(limiter) && retryAfter == RetryAfter(behaviour.rps)
    {
      HandleKeepsInvariant(View(), Request(true, now));
      snapshot := behaviour;
      if snapshot.rps == 0 {
        return snapshot, true, 0;
      }
      var (next, ok) := Allow(limiter.value, now);
      limiter := Some(next);
      if ok {
        return snapshot, true, 0;
      }
      retryAfter := (1 + snapshot.rps - 1) / snapshot.rps;
      if retryAfter < 1 {
        retryAfter := 1;
      }
      allowed := false;
    }
  }

  // ---------------------------------------------------------------- whole runs

  /** A run of events. In every reachable state the limiter is nil exactly when the rate is 0,
      and the bucket holds between nothing and the burst. */
  function Run(s: State, events: seq<Event>): (end: State)
    requires Invariant(s)
    ensures Invariant(end)
    decreases |events|
  {
    if events == [] then s
    else
      HandleKeepsInvariant(s, events[0]);
      Run(Handle(s, events[0]).0, events[1..])
  }

  /** Requests let through by the limiter, with no accepted patch changing the rate meanwhile. */
  function Admitted(s: State, events: seq<Event>): nat
    requires Invariant(s)
    decreases |events|
  {
    if events == [] then 0
    else
      HandleKeepsInvariant(s, events[0]);
      var (next, verdict) := Handle(s, events[0]);
      (if verdict.Allowed? then 1 else 0) + Admitted(next, events[1..])
  }

  predicate RateKept(s: State, events: seq<Event>)
    requires Invariant(s)
    decreases |events|
  {
    events == [] ||
    (HandleKeepsInvariant(s, events[0]);
     var next := Handle(s, events[0]).0;
     next.behaviour.rps == s.behaviour.rps && RateKept(next, events[1..]))
  }

  /** How far the clock moves forward over the readings of valid requests. */
  function Forward(from: real, events: seq<Event>): (d: real)
    ensures d >= 0.0
    decreases |events|
  {
    if events == [] then 0.0
    else if events[0].Request? && events[0].valid
    then (if events[0].now > from then events[0].now - from else 0.0) + Forward(events[0].now, events[1..])
    else Forward(from, events[1..])
  }

  /** Invalid requests, refused requests and patches that keep the rate leave the bucket alone. */
  lemma OnlyAdmissionsAndRateChangesTouchBucket(s: State, e: Event)
    requires Invariant(s)
    ensures var (next, verdict) := Handle(s, e);
            && (!verdict.Allowed? && next.behaviour.rps == s.behaviour.rps ==> next.limiter == s.limiter)
            && (verdict.PatchRejected? || verdict.Invalid? || verdict.RateLimited? ==> next == s)
            && (next.behaviour.rps != s.behaviour.rps ==> next.limiter == LimiterFor(next.behaviour.rps, s.burst))
  {
  }

  function Gain(rps: nat, from: real, to: real): real { if to > from then Accrued(rps, to - from) else 0.0 }

  /** The refill of the clock's forward movement, reading by reading. */
  function Refill(rps: nat, from: real, events: seq<Event>): real
    decreases |events|
  {
    if events == [] then 0.0
    else if events[0].Request? && events[0].valid
    then Gain(rps, from, events[0].now) + Refill(rps, events[0].now, events[1..])
    else Refill(rps, from, events[1..])
  }

  lemma {:induction false} RefillIsAccrued(rps: nat, from: real, events: seq<Event>)
    ensures Refill(rps, from, events) == Accrued(rps, Forward(from, events))
    decreases |events|
  {
    AccruedGrows(rps, 0.0, 0.0);
    if events != [] {
      var e, rest := events[0], events[1..];
      if e.Request? && e.valid {
        RefillIsAccrued(rps, e.now, rest);
        AccruedAdds(rps, if e.now > from then e.now - from else 0.0, Forward(e.now, rest));
      } else {
        RefillIsAccrued(rps, from, rest);
      }
    }
  }

  lemma LevelRises(l: Limiter, from: real, to: real)
    ensures Level(l, to) <= Level(l, from) + Gain(l.rps, from, to)
  {
    if to <= from {
      if from >= l.last { AccruedGrows(l.rps, if to >= l.last then to - l.last else 0.0, from - l.last); }
    } else if to < l.last {
      AccruedGrows(l.rps, 0.0, to - from);
    } else if from < l.last {
      AccruedGrows(l.rps, to - l.last, to - from);
      AccruedGrows(l.rps, 0.0, to - l.last);
    } else {
      AccruedAdds(l.rps, from - l.last, to - from);
      assert (from - l.last) + (to - from) == to - l.last;
      AccruedGrows(l.rps, 0.0, to - from);
    }
  }

  /** A limited request takes a whole token or nothing. */
  lemma RequestTakesToken(s: State, now: real)
    requires Invariant(s) && s.limiter.Some?
    ensures var (next, verdict) := Handle(s, Request(true, now));
            next.limiter.Some? && Level(next.limiter.value, now) == Level(s.limiter.value, now) - if verdict.Allowed?
                then 1.0 else 0.0
  {
    LevelBounds(s.limiter.value, now);
    AccruedGrows(s.limiter.value.rps, 0.0, 0.0);
  }

  /** For all readings, even decreasing ones: no more admissions than the tokens at hand plus the
      refill of the clock's forward movement. */
  lemma {:induction false} AdmissionsBounded(s: State, from: real, events: seq<Event>)
    requires Invariant(s) && s.limiter.Some? && RateKept(s, events)
    ensures Admitted(s, events) as real <= Level(s.limiter.value, from) + Refill(s.behaviour.rps, from, events)
    decreases |events|
  {
    LevelBounds(s.limiter.value, from);
    if events != [] {
      var e, rest := events[0], events[1..];
      HandleKeepsInvariant(s, e);
      var next := Handle(s, e).0;
      if e.Request? && e.valid {
        LevelRises(s.limiter.value, from, e.now);
        RequestTakesToken(s, e.now);
        AdmissionsBounded(next, e.now, rest);
      } else {
        OnlyAdmissionsAndRateChangesTouchBucket(s, e);
        AdmissionsBounded(next, from, rest);
      }
    }
  }

  ghost predicate NonDecreasing(from: real, events: seq<Event>)
    decreases |events|
  {
    events == [] ||
    if events[0].Request? && events[0].valid then from <= events[0].now && NonDecreasing(events[0].now, events[1..])
    else NonDecreasing(from, events[1..])
  }

  /** The latest reading of a run. */
  function Latest(from: real, events: seq<Event>): real
    decreases |events|
  {
    if events == [] then from
    else Latest(if events[0].Request? && events[0].valid then events[0].now else from, events[1..])
  }

  lemma {:induction false} ForwardIsSpan(from: real, events: seq<Event>)
    requires NonDecreasing(from, events)
    ensures Forward(from, events) == Latest(from, events) - from
    decreases |events|
  {
    if events != [] {
      ForwardIsSpan(if events[0].Request? && events[0].valid then events[0].now else from, events[1..]);
    }
  }

  lemma AdmissionsWithinAccrued(s: State, start: real, events: seq<Event>, d: real)
    requires Invariant(s) && s.limiter.Some? && RateKept(s, events) && Forward(start, events) <= d
    ensures Admitted(s, events) as real <= s.burst as real + Accrued(s.behaviour.rps, d)
  {
    AdmissionsBounded(s, start, events);
    RefillIsAccrued(s.behaviour.rps, start, events);
    LevelBounds(s.limiter.value, start);
    AccruedGrows(s.behaviour.rps, Forward(start, events), d);
  }

  /** At most burst + rps * d admissions. */
  predicate WithinRate(admitted: nat, burst: int, rps: int, d: real) {
    admitted as real <= burst as real + rps as real * d
  }

  lemma WithinRateByAccrual(admitted: nat, burst: int, rps: nat, d: real)
    requires admitted as real <= burst as real + Accrued(rps, d)
    ensures WithinRate(admitted, burst, rps, d)
  {
    AccruedIsProduct(rps, d);
  }

  /** Between two rate changes, readings in any order that move forward by at most d in all let
      through at most burst + rps * d. */
  lemma AdmissionsWithinMovement(s: State, start: real, events: seq<Event>, d: real)
    requires Invariant(s) && s.limiter.Some? && RateKept(s, events) && Forward(start, events) <= d
    ensures WithinRate(Admitted(s, events), s.burst, s.behaviour.rps, d)
  {
    AdmissionsWithinAccrued(s, start, events, d);
    WithinRateByAccrual(Admitted(s, events), s.burst, s.behaviour.rps, d);
  }

  /** So do nondecreasing readings within a span d. */
  lemma AdmissionsWithinSpan(s: State, start: real, events: seq<Event>, d: real)
    requires Invariant(s) && s.limiter.Some? && RateKept(s, events) && NonDecreasing(start, events)
    requires Latest(start, events) <= start + d
    ensures WithinRate(Admitted(s, events), s.burst, s.behaviour.rps, d)
  {
    ForwardIsSpan(start, events);
    AdmissionsWithinMovement(s, start, events, d);
  }

  lemma {:induction false} NoAdmissionKeepsLimiter(s: State, events: seq<Event>)
    requires Invariant(s) && RateKept(s, events) && Admitted(s, events) == 0
    ensures var end := Run(s, events);
            end.limiter == s.limiter && end.behaviour.rps == s.behaviour.rps && end.burst == s.burst
    decreases |events|
  {
    if events != [] {
      HandleKeepsInvariant(s, events[0]);
      OnlyAdmissionsAndRateChangesTouchBucket(s, events[0]);
      NoAdmissionKeepsLimiter(Handle(s, events[0]).0, events[1..]);
    }
  }

  /** One whole token is there at a reading: the reading is not before the limiter's last
      admission, and enough has gathered since. */
  predicate TokenAt(l: Limiter, reading: real) {
    reading >= l.last && l.tokens + Accrued(l.rps, reading - l.last) >= 1.0
  }

  /** After a refusal at `now`, with no admission and no rate change in between, a request at any
      reading is admitted exactly when a whole token is there. */
  lemma RetryAdmittedIff(s: State, now: real, between: seq<Event>, later: real)
    requires Invariant(s) && Handle(s, Request(true, now)).1.RateLimited?
    requires RateKept(s, between) && Admitted(s, between) == 0
    ensures Handle(Run(s, between), Request(true, later)).1.Allowed? <==> TokenAt(s.limiter.value, later)
  {
    NoAdmissionKeepsLimiter(s, between);
    LevelBounds(s.limiter.value, now);
  }

  function NewService(initial: Behaviour, burst: int): (s: State)
    requires ValidBehaviour(initial) && initial.latency <= MAX_INT64 && burst >= 1
    ensures Invariant(s)
  {
    State(initial, burst, LimiterFor(initial.rps, burst))
  }
}
