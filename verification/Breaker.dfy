/**
 * The circuit breaker of one deployment. Admissions and results are atomic steps
 * that interleave arbitrarily: a result may be recorded long after its admission,
 * and for a breaker that has moved on since.
 */
module Breaker {
  import opened Prelude

  datatype Circuit = Closed | Open | HalfOpen

  datatype Config = Config(failThreshold: nat, windowMs: int, cooldownMs: int)

  datatype State = State(circuit: Circuit, failures: seq<int>, openedAt: Option<int>, probeInFlight: bool)

  const INITIAL := State(Closed, [], None, false)

  // ----- the steps as functions

  function Admitted(s: State, now: int, cfg: Config): bool {
    match s.circuit
    case Closed => true
    case Open => s.openedAt.Some? && now - s.openedAt.value >= cfg.cooldownMs && !s.probeInFlight
    case HalfOpen => !s.probeInFlight
  }

  function AfterAdmission(s: State, now: int, cfg: Config): State {
    if s.circuit == Closed || !Admitted(s, now, cfg) then s else s.(circuit := HalfOpen, probeInFlight := true)
  }

  function AfterSuccess(s: State): State {
    INITIAL
  }

  function Recent(times: seq<int>, now: int, windowMs: int): seq<int> {
    if times == [] then []
    else
      var last := times[|times| - 1];
      Recent(times[..|times| - 1], now, windowMs) + if now - last < windowMs then [last] else []
  }

  function AfterFailure(s: State, now: int, cfg: Config): State {
    var failures := Recent(s.failures, now, cfg.windowMs) + [now];
    if s.circuit == HalfOpen || |failures| >= cfg.failThreshold
    then State(Open, failures, Some(now), if s.circuit == HalfOpen then false else s.probeInFlight)
    else s.(failures := failures)
  }

  // ----- the deployment record, updated in place

  datatype DeploymentId = Orchestrator | Coder | General | Fast | Cloud

  class Deployment {
    const id: DeploymentId
    const contextWindow: nat
    const isCloud: bool
    var circuit: Circuit
    var failures: seq<int>
    var openedAt: Option<int>
    var probeInFlight: bool

    constructor (id: DeploymentId, contextWindow: nat, isCloud: bool)
      ensures this.id == id && this.contextWindow == contextWindow && this.isCloud == isCloud && Breaker() == INITIAL
    {
      this.id, this.contextWindow, this.isCloud := id, contextWindow, isCloud;
      circuit, failures, openedAt, probeInFlight := Closed, [], None, false;
    }

    function Breaker(): State
      reads this
    {
      State(circuit, failures, openedAt, probeInFlight)
    }

    method IsAvailable(now: int, cfg: Config) returns (available: bool)
      modifies this
      ensures available == Admitted(old(Breaker()), now, cfg)
      ensures Breaker() == AfterAdmission(old(Breaker()), now, cfg)
    {
      if circuit == Closed {
        return true;
      }
      if circuit == Open {
        if openedAt.Some? && now - openedAt.value >= cfg.cooldownMs {
          if probeInFlight {
            return false;
          }
          circuit := HalfOpen;
          probeInFlight := true;
          return true;
        }
        return false;
      }
      if probeInFlight {
        return false;
      }
      probeInFlight := true;
      return true;
    }

    method RecordProbeResult(success: bool, now: int)
      modifies this
      ensures old(circuit) != HalfOpen ==> Breaker() == old(Breaker()).(probeInFlight := false)
      ensures old(circuit) == HalfOpen ==>
                Breaker() == if success then INITIAL else State(Open, old(failures), Some(now), false)
    {
      probeInFlight := false;
      if circuit != HalfOpen {
        return;
      }
      if success {
        circuit, openedAt, failures := Closed, None, [];
      } else {
        circuit, openedAt := Open, Some(now);
      }
    }

    method RecordSuccess(now: int)
      modifies this
      ensures Breaker() == AfterSuccess(old(Breaker()))
    {
      if circuit == HalfOpen {
        RecordProbeResult(true, now);
        return;
      }
      circuit, failures, openedAt, probeInFlight := Closed, [], None, false;
    }

    method RecordFailure(now: int, cfg: Config)
      modifies this
      ensures Breaker() == AfterFailure(old(Breaker()), now, cfg)
    {
      var kept := FilterRecent(failures, now, cfg.windowMs);
      failures := kept + [now];
      if circuit == HalfOpen {
        RecordProbeResult(false, now);
        return;
      }
      if |failures| >= cfg.failThreshold {
        circuit, openedAt := Open, Some(now);
      }
    }
  }

  method FilterRecent(times: seq<int>, now: int, windowMs: int) returns (kept: seq<int>)
    ensures kept == Recent(times, now, windowMs)
  {
    kept := [];
    for i := 0 to |times|
      invariant kept == Recent(times[..i], now, windowMs)
    {
      assert times[..i + 1][..i] == times[..i];
      if now - times[i] < windowMs {
        kept := kept + [times[i]];
      }
    }
    assert times[..|times|] == times;
  }

  // ----- every interleaving of steps

  datatype Event = Admission(now: int) | Success | Failure(now: int)

  function Step(s: State, e: Event, cfg: Config): State {
    match e
    case Admission(now) => AfterAdmission(s, now, cfg)
    case Success => AfterSuccess(s)
    case Failure(now) => AfterFailure(s, now, cfg)
  }

  function After(events: seq<Event>, cfg: Config): State {
    if events == [] then INITIAL else Step(After(events[..|events| - 1], cfg), events[|events| - 1], cfg)
  }

  lemma AfterExtend(events: seq<Event>, i: nat, cfg: Config)
    requires i < |events|
    ensures After(events[..i + 1], cfg) == Step(After(events[..i], cfg), events[i], cfg)
  {
    assert events[..i + 1][..i] == events[..i];
  }

  /** Event `i` is an admission, and it is granted. */
  predicate Granted(events: seq<Event>, i: nat, cfg: Config)
    requires i < |events|
  {
    events[i].Admission? && Admitted(After(events[..i], cfg), events[i].now, cfg)
  }

  predicate Consistent(s: State, cfg: Config) {
    && (s.probeInFlight <==> s.circuit == HalfOpen)
    && (s.openedAt.Some? <==> s.circuit != Closed)
    && (s.circuit == Closed ==> |s.failures| < cfg.failThreshold)
  }

  lemma {:induction false} AlwaysConsistent(events: seq<Event>, cfg: Config)
    requires cfg.failThreshold > 0
    ensures Consistent(After(events, cfg), cfg)
  {
    if events != [] {
      AlwaysConsistent(events[..|events| - 1], cfg);
    }
  }

  /** While a probe is out and no result comes in, nothing changes. */
  lemma {:induction false} ProbePending(events: seq<Event>, i: nat, j: nat, cfg: Config)
    requires i <= j <= |events|
    requires After(events[..i], cfg).circuit == HalfOpen && After(events[..i], cfg).probeInFlight
    requires forall k :: i <= k < j ==> events[k].Admission?
    ensures After(events[..j], cfg) == After(events[..i], cfg)
    decreases j
  {
    if i < j {
      ProbePending(events, i, j - 1, cfg);
      AfterExtend(events, j - 1, cfg);
    }
  }

  /** Between two probes there is a result. */
  lemma SingleProbe(events: seq<Event>, i: nat, j: nat, cfg: Config)
    requires i < j < |events|
    requires Granted(events, i, cfg) && After(events[..i], cfg).circuit != Closed
    requires Granted(events, j, cfg)
    ensures exists k :: i < k < j && !events[k].Admission?
  {
    if forall k :: i < k < j ==> events[k].Admission? {
      AfterExtend(events, i, cfg);
      ProbePending(events, i + 1, j, cfg);
    }
  }

  predicate Timed(e: Event) {
    !e.Success?
  }

  ghost predicate ClockMonotone(events: seq<Event>) {
    forall i, j :: 0 <= i < j < |events| && Timed(events[i]) && Timed(events[j]) ==> events[i].now <= events[j].now
  }

  /** Open or probing, and opened no earlier than `since`. */
  predicate TrippedSince(s: State, since: int) {
    s.circuit != Closed && s.openedAt.Some? && s.openedAt.value >= since && (s.circuit == HalfOpen ==> s.probeInFlight)
  }

  lemma TrippedStep(s: State, e: Event, since: int, cfg: Config)
    requires TrippedSince(s, since) && !e.Success? && (e.Failure? ==> since <= e.now)
    ensures TrippedSince(Step(s, e, cfg), since)
  {
  }

  lemma {:induction false} StaysTripped(events: seq<Event>, i: nat, j: nat, cfg: Config)
    requires ClockMonotone(events) && i < j <= |events| && cfg.failThreshold > 0
    requires events[i].Failure? && After(events[..i + 1], cfg).circuit == Open &&
             After(events[..i + 1], cfg).openedAt == Some(events[i].now)
    requires forall k :: i < k < j ==> !events[k].Success?
    ensures TrippedSince(After(events[..j], cfg), events[i].now)
    decreases j
  {
    if i + 1 < j {
      StaysTripped(events, i, j - 1, cfg);
      AfterExtend(events, j - 1, cfg);
      TrippedStep(After(events[..j - 1], cfg), events[j - 1], events[i].now, cfg);
    }
  }

  /**
   * A failure that opens the breaker is followed by a whole cooldown without an
   * admission, unless a success is recorded.
   */
  lemma QuietForCooldown(events: seq<Event>, i: nat, j: nat, cfg: Config)
    requires ClockMonotone(events) && i < j < |events| && cfg.failThreshold > 0
    requires events[i].Failure? && After(events[..i + 1], cfg).circuit == Open &&
             After(events[..i + 1], cfg).openedAt == Some(events[i].now)
    requires forall k :: i < k < j ==> !events[k].Success?
    requires Granted(events, j, cfg)
    ensures events[j].now - events[i].now >= cfg.cooldownMs
  {
    StaysTripped(events, i, j, cfg);
  }

  /** Between events `i` and `j` a breaker that opened at `i` was asked only in vain. */
  ghost predicate OnlyRefused(events: seq<Event>, i: nat, j: nat, cfg: Config) {
    i < j <= |events| && forall k :: i < k < j ==> events[k].Admission? && !Granted(events, k, cfg)
  }

  lemma {:induction false} RefusalsChangeNothing(events: seq<Event>, i: nat, j: nat, cfg: Config)
    requires OnlyRefused(events, i, j, cfg)
    ensures After(events[..j], cfg) == After(events[..i + 1], cfg)
    decreases j
  {
    if i + 1 < j {
      RefusalsChangeNothing(events, i, j - 1, cfg);
      AfterExtend(events, j - 1, cfg);
    }
  }

  /**
   * After a failure that opened the breaker, the first admission that is granted is the
   * first one asked for when the cooldown is over.
   */
  lemma ReadmittedAfterCooldown(events: seq<Event>, i: nat, j: nat, cfg: Config)
    requires cfg.failThreshold > 0 && j < |events| && OnlyRefused(events, i, j, cfg)
    requires events[i].Failure? && events[j].Admission?
    requires After(events[..i], cfg).circuit != Open && After(events[..i + 1], cfg).circuit == Open
    ensures Granted(events, j, cfg) <==> events[j].now - events[i].now >= cfg.cooldownMs
  {
    AlwaysConsistent(events[..i], cfg);
    AlwaysConsistent(events[..i + 1], cfg);
    AfterExtend(events, i, cfg);
    RefusalsChangeNothing(events, i, j, cfg);
  }

  /** The failure times recorded since the last success. */
  function FailuresSinceSuccess(events: seq<Event>): seq<int> {
    if events == [] then []
    else match events[|events| - 1]
      case Success => []
      case Failure(now) => FailuresSinceSuccess(events[..|events| - 1]) + [now]
      case Admission(_) => FailuresSinceSuccess(events[..|events| - 1])
  }

  lemma {:induction false} RecentTwice(times: seq<int>, earlier: int, now: int, windowMs: int)
    requires earlier <= now
    ensures Recent(Recent(times, earlier, windowMs), now, windowMs) == Recent(times, now, windowMs)
  {
    if times != [] {
      var init, last := times[..|times| - 1], times[|times| - 1];
      RecentTwice(init, earlier, now, windowMs);
      if earlier - last < windowMs {
        RecentAppend(Recent(init, earlier, windowMs), last, now, windowMs);
      } else {
        assert Recent(times, earlier, windowMs) == Recent(init, earlier, windowMs);
      }
    }
  }

  lemma RecentAppend(times: seq<int>, last: int, now: int, windowMs: int)
    ensures Recent(times + [last], now, windowMs) ==
            Recent(times, now, windowMs) + if now - last < windowMs then [last] else []
  {
    assert (times + [last])[..|times|] == times;
  }

  /** What the rolling window will keep at any later time is what the whole history since the last success would. */
  lemma {:induction false} WindowIsHistory(events: seq<Event>, now: int, cfg: Config)
    requires ClockMonotone(events) && forall i :: 0 <= i < |events| && Timed(events[i]) ==> events[i].now <= now
    ensures Recent(After(events, cfg).failures, now, cfg.windowMs) ==
            Recent(FailuresSinceSuccess(events), now, cfg.windowMs)
  {
    if events != [] {
      var init, e := events[..|events| - 1], events[|events| - 1];
      WindowIsHistory(init, now, cfg);
      if e.Failure? {
        WindowIsHistory(init, e.now, cfg);
        var before := After(init, cfg).failures;
        RecentAppend(Recent(before, e.now, cfg.windowMs), e.now, now, cfg.windowMs);
        RecentAppend(FailuresSinceSuccess(init), e.now, now, cfg.windowMs);
        RecentTwice(before, e.now, now, cfg.windowMs);
      }
    }
  }

  /** The failures among the events that no success follows and that lie in the window. */
  ghost function RecentFailures(events: seq<Event>, now: int, windowMs: int): set<nat> {
    set i: nat | i < |events| && events[i].Failure? && now - events[i].now < windowMs
              && forall k :: i < k < |events| ==> !events[k].Success?
  }

  lemma RecentFailuresStep(events: seq<Event>, e: Event, now: int, windowMs: int)
    ensures RecentFailures(events + [e], now, windowMs) ==
            if e.Success? then {}
            else if e.Failure? && now - e.now < windowMs then RecentFailures(events, now, windowMs) + {|events|}
            else RecentFailures(events, now, windowMs)
    ensures RecentFailures([], now, windowMs) == {}
  {
    var all := events + [e];
    assert all[|events|] == e;
    assert forall i :: 0 <= i < |events| ==> all[i] == events[i];
  }

  lemma {:induction false} RecentCount(events: seq<Event>, now: int, windowMs: int)
    ensures |Recent(FailuresSinceSuccess(events), now, windowMs)| == |RecentFailures(events, now, windowMs)|
  {
    if events == [] {
      RecentFailuresStep([], Success, now, windowMs);
    } else {
      var init, e := events[..|events| - 1], events[|events| - 1];
      assert events == init + [e];
      RecentCount(init, now, windowMs);
      RecentFailuresStep(init, e, now, windowMs);
      if e.Failure? {
        RecentAppend(FailuresSinceSuccess(init), e.now, now, windowMs);
      }
    }
  }

  /**
   * A failure opens the breaker at that time, for the first time or anew, exactly when a
   * probe was out or when, with it, enough failures since the last success lie in the
   * window; otherwise circuit and opening time stay.
   */
  lemma TripsIff(events: seq<Event>, now: int, cfg: Config)
    requires ClockMonotone(events + [Failure(now)])
    ensures var before, after := After(events, cfg), After(events + [Failure(now)], cfg);
            if before.circuit == HalfOpen || |RecentFailures(events, now, cfg.windowMs)| + 1 >= cfg.failThreshold
            then after.circuit == Open && after.openedAt == Some(now)
            else after.circuit == before.circuit && after.openedAt == before.openedAt
  {
    var all := events + [Failure(now)];
    assert all[..|events|] == events;
    forall i, j | 0 <= i < j < |events| && Timed(events[i]) && Timed(events[j])
      ensures events[i].now <= events[j].now
    {
      assert all[i] == events[i] && all[j] == events[j];
    }
    forall i | 0 <= i < |events| && Timed(events[i])
      ensures events[i].now <= now
    {
      assert all[i] == events[i] && all[|events|] == Failure(now);
    }
    WindowIsHistory(events, now, cfg);
    RecentCount(events, now, cfg.windowMs);
  }
}
