/** The in-memory circuit breaker: its methods, and what holds over every run of them. */
module Circuit {
  import opened Text

  datatype CircuitState = CLOSED | OPEN | HALF_OPEN

  datatype Settings = Settings(threshold: int, cooldown: int, halfOpenMax: int)

  predicate ValidSettings(c: Settings) { c.threshold >= 1 && c.cooldown >= 0 && c.halfOpenMax >= 1 }

  /** The breaker's mutable fields. */
  datatype Snapshot = Snapshot(state: CircuitState, failures: int, openedAt: Option<int>, halfOpenCalls: int)

  const INITIAL := Snapshot(CLOSED, 0, None, 0)

  /** Time-based transition from OPEN to HALF_OPEN. */
  function MaybeHalfOpen(c: Settings, s: Snapshot, now: int): Snapshot
  {
    if s.state.OPEN? && s.openedAt.Some? && now - s.openedAt.value >= c.cooldown
    then s.(state := HALF_OPEN, halfOpenCalls := 0) else s
  }

  /** Whether a call is let through at `now`. */
  predicate Grants(c: Settings, s: Snapshot, now: int)
  {
    var t := MaybeHalfOpen(c, s, now);
    !t.state.OPEN? && (t.state.HALF_OPEN? ==> t.halfOpenCalls < c.halfOpenMax)
  }

  function AfterAllow(c: Settings, s: Snapshot, now: int): Snapshot
  {
    var t := MaybeHalfOpen(c, s, now);
    if t.state.HALF_OPEN? && t.halfOpenCalls < c.halfOpenMax then t.(halfOpenCalls := t.halfOpenCalls + 1) else t
  }

  /** The wait reported at `now`, the elapsed time being measured at a second clock reading `now'`. */
  function RetryAfter(c: Settings, s: Snapshot, now: int, now': int): int
  {
    var t := MaybeHalfOpen(c, s, now);
    if !t.state.OPEN? || t.openedAt.None? then 0
    else
      var remaining := c.cooldown - (now' - t.openedAt.value);
      if remaining > 0 then remaining else 0
  }

  function TripOpen(s: Snapshot, now: int): Snapshot
  {
    s.(state := OPEN, openedAt := Some(now), halfOpenCalls := 0)
  }

  function AfterFailure(c: Settings, s: Snapshot, now: int): Snapshot
  {
    if s.state.HALF_OPEN? then TripOpen(s, now)
    else
      var t := s.(failures := s.failures + 1);
      if t.failures >= c.threshold then TripOpen(t, now) else t
  }

  class CircuitBreaker {
    const settings: Settings
    var state: CircuitState
    var failureCount: int
    var openedAt: Option<int>
    var halfOpenCalls: int

    function Snap(): Snapshot
      reads this
    {
      Snapshot(state, failureCount, openedAt, halfOpenCalls)
    }

    constructor (settings: Settings)
      requires ValidSettings(settings)
      ensures this.settings == settings && Snap() == INITIAL
    {
      this.settings := settings;
      state, failureCount, openedAt, halfOpenCalls := CLOSED, 0, None, 0;
    }

    /** Construction as the source does it, refusing bad settings. */
    static method Create(settings: Settings) returns (breaker: Option<CircuitBreaker>)
      ensures breaker.Some? <==> ValidSettings(settings)
      ensures breaker.Some? ==> fresh(breaker.value) && breaker.value.settings == settings && breaker.value.Snap() == INITIAL
    {
      if settings.threshold < 1 || settings.cooldown < 0 || settings.halfOpenMax < 1 { return None; }
      var b := new CircuitBreaker(settings);
      breaker := Some(b);
    }

    method Refresh(now: int)
      modifies this
      ensures Snap() == MaybeHalfOpen(settings, old(Snap()), now)
    {
      if state == OPEN && openedAt.Some? && now - openedAt.value >= settings.cooldown {
        state := HALF_OPEN;
        halfOpenCalls := 0;
      }
    }

    method Allow(now: int) returns (granted: bool)
      modifies this
      ensures granted == Grants(settings, old(Snap()), now)
      ensures Snap() == AfterAllow(settings, old(Snap()), now)
    {
      Refresh(now);
      if state == OPEN { return false; }
      if state == HALF_OPEN {
        if halfOpenCalls >= settings.halfOpenMax { return false; }
        halfOpenCalls := halfOpenCalls + 1;
      }
      granted := true;
    }

    method GetRetryAfter(now: int, now': int) returns (wait: int)
      modifies this
      ensures wait == RetryAfter(settings, old(Snap()), now, now')
      ensures Snap() == MaybeHalfOpen(settings, old(Snap()), now)
    {
      Refresh(now);
      if state != OPEN || openedAt.None? { return 0; }
      var remaining := settings.cooldown - (now' - openedAt.value);
      wait := if remaining > 0 then remaining else 0;
    }

    method RecordSuccess()
      modifies this
      ensures Snap() == INITIAL
    {
      failureCount := 0;
      halfOpenCalls := 0;
      openedAt := None;
      state := CLOSED;
    }

    method Trip(now: int)
      modifies this
      ensures Snap() == TripOpen(old(Snap()), now)
    {
      state := OPEN;
      openedAt := Some(now);
      halfOpenCalls := 0;
    }

    method RecordFailure(now: int)
      modifies this
      ensures Snap() == AfterFailure(settings, old(Snap()), now)
    {
      if state == HALF_OPEN {
        Trip(now);
        return;
      }
      failureCount := failureCount + 1;
      if failureCount >= settings.threshold { Trip(now); }
    }

    method Reset()
      modifies this
      ensures Snap() == INITIAL
    {
      state := CLOSED;
      failureCount := 0;
      openedAt := None;
      halfOpenCalls := 0;
    }

    /** `None` when the call may proceed, otherwise the wait carried by the raised error. */
    method Guard(gate: int, look: int, look': int) returns (rejected: Option<int>)
      modifies this
      ensures rejected.None? <==> Grants(settings, old(Snap()), gate)
      ensures Snap() == AfterGuard(settings, old(Snap()), gate, look)
      ensures rejected.Some? ==> rejected.value == RetryAfter(settings, AfterAllow(settings, old(Snap()), gate), look, look')
    {
      var granted := Allow(gate);
      if granted { return None; }
      var wait := GetRetryAfter(look, look');
      rejected := Some(wait);
    }
  }

  function AfterGuard(c: Settings, s: Snapshot, gate: int, look: int): Snapshot
  {
    var t := AfterAllow(c, s, gate);
    if Grants(c, s, gate) then t else MaybeHalfOpen(c, t, look)
  }

  // -------------------------------------------------------------------------- runs

  datatype Event = Allow(now: int) | Look(now: int) | Success | Failure(now: int) | Reset

  function Step(c: Settings, s: Snapshot, e: Event): Snapshot
  {
    match e
    case Allow(now) => AfterAllow(c, s, now)
    case Look(now) => MaybeHalfOpen(c, s, now)
    case Success => INITIAL
    case Failure(now) => AfterFailure(c, s, now)
    case Reset => INITIAL
  }

  function Run(c: Settings, s: Snapshot, es: seq<Event>): Snapshot
    decreases |es|
  {
    if es == [] then s else Run(c, Step(c, s, es[0]), es[1..])
  }

  /** The state is CLOSED exactly while the count is below the threshold, exactly while no opening time is set. */
  ghost predicate Consistent(c: Settings, s: Snapshot)
  {
    s.failures >= 0 && 0 <= s.halfOpenCalls <= c.halfOpenMax &&
    (s.state.CLOSED? <==> s.failures < c.threshold) &&
    (s.state.CLOSED? <==> s.openedAt.None?) &&
    (s.halfOpenCalls > 0 ==> s.state.HALF_OPEN?)
  }

  /** MAIN: every run from a new breaker stays consistent, whatever the clock does. */
  lemma {:induction false} RunsConsistent(c: Settings, s: Snapshot, es: seq<Event>)
    requires ValidSettings(c) && Consistent(c, s)
    ensures Consistent(c, Run(c, s, es))
    decreases |es|
  {
    if es != [] { RunsConsistent(c, Step(c, s, es[0]), es[1..]); }
  }

  /** A failure of a trial call, or one that brings the count to the threshold, trips the breaker. */
  predicate TripsNow(c: Settings, s: Snapshot) { s.state.HALF_OPEN? || s.failures + 1 >= c.threshold }

  /**
   MAIN: a failure opens the breaker, from then on and with no trial slot taken, exactly if it is that of a
   trial call or the count, this failure included, reaches the threshold; otherwise it is only counted.
   */
  lemma FailureTrips(c: Settings, s: Snapshot, now: int)
    requires ValidSettings(c) && Consistent(c, s)
    ensures var t := AfterFailure(c, s, now);
            (t.state.OPEN? <==> s.state.HALF_OPEN? || s.failures + 1 >= c.threshold) &&
            (t.state.OPEN? ==> t.openedAt == Some(now) && t.halfOpenCalls == 0) &&
            (!t.state.OPEN? ==> t == s.(failures := s.failures + 1)) &&
            t.failures == if s.state.HALF_OPEN? then s.failures else s.failures + 1
  {
  }

  /** A breaker that has had `n` failures and nothing else, the last one at `now`. */
  function FailedTimes(c: Settings, n: nat, now: int): Snapshot
  {
    if n < c.threshold then Snapshot(CLOSED, n, None, 0) else Snapshot(OPEN, n, Some(now), 0)
  }

  /** Consecutive failures trip the breaker at the threshold; later ones only move the opening time. */
  lemma {:induction false} FailuresTrip(c: Settings, n: nat, now: int, es: seq<Event>)
    requires ValidSettings(c) && forall i :: 0 <= i < |es| ==> es[i].Failure?
    ensures Run(c, FailedTimes(c, n, now), es)
         == FailedTimes(c, n + |es|, if es == [] then now else es[|es| - 1].now)
    decreases |es|
  {
    if es != [] {
      assert Step(c, FailedTimes(c, n, now), es[0]) == FailedTimes(c, n + 1, es[0].now);
      FailuresTrip(c, n + 1, es[0].now, es[1..]);
    }
  }

  // ------------------------------------------------------------------ trial calls

  /** Only gate checks and looks, with clock readings that never go back and start at `from`. */
  ghost predicate Probing(es: seq<Event>, from: int)
  {
    (forall i :: 0 <= i < |es| ==> (es[i].Allow? || es[i].Look?) && es[i].now >= from) &&
    forall i, j :: 0 <= i < j < |es| ==> es[i].now <= es[j].now
  }

  /** How many of the gate checks are let through. */
  function GrantedCount(c: Settings, s: Snapshot, es: seq<Event>): nat
    decreases |es|
  {
    if es == [] then 0
    else (if es[0].Allow? && Grants(c, s, es[0].now) then 1 else 0) + GrantedCount(c, Step(c, s, es[0]), es[1..])
  }

  /** How many gate checks are made at or after `due`. */
  function DueCount(es: seq<Event>, due: int): nat
    requires forall i :: 0 <= i < |es| ==> es[i].Allow? || es[i].Look?
  {
    if es == [] then 0 else (if es[0].Allow? && es[0].now >= due then 1 else 0) + DueCount(es[1..], due)
  }

  function Min(a: int, b: int): int { if a <= b then a else b }

  lemma {:induction false} HalfOpenBudget(c: Settings, s: Snapshot, es: seq<Event>, from: int, due: int)
    requires ValidSettings(c) && s.state.HALF_OPEN? && 0 <= s.halfOpenCalls <= c.halfOpenMax
    requires Probing(es, from) && from >= due
    ensures GrantedCount(c, s, es) == Min(c.halfOpenMax - s.halfOpenCalls, DueCount(es, due))
    decreases |es|
  {
    if es != [] { HalfOpenBudget(c, Step(c, s, es[0]), es[1..], es[0].now, due); }
  }

  lemma {:induction false} OpenBudget(c: Settings, s: Snapshot, es: seq<Event>, from: int)
    requires ValidSettings(c) && s.state.OPEN? && s.openedAt.Some? && Probing(es, from)
    ensures GrantedCount(c, s, es) == Min(c.halfOpenMax, DueCount(es, s.openedAt.value + c.cooldown))
    decreases |es|
  {
    if es != [] {
      var due := s.openedAt.value + c.cooldown;
      if es[0].now < due {
        assert Step(c, s, es[0]) == s;
        OpenBudget(c, s, es[1..], es[0].now);
      } else {
        HalfOpenBudget(c, Step(c, s, es[0]), es[1..], es[0].now, due);
      }
    }
  }

  /**
   MAIN: between a failure at `now` that trips the breaker and the next recorded outcome or reset, the gate lets
   through exactly the first `halfOpenMax` of the calls made once the cooldown has passed, and none before.
   */
  lemma TrialBudget(c: Settings, s: Snapshot, now: int, es: seq<Event>)
    requires ValidSettings(c) && Consistent(c, s) && TripsNow(c, s) && Probing(es, now)
    ensures GrantedCount(c, AfterFailure(c, s, now), es) == Min(c.halfOpenMax, DueCount(es, now + c.cooldown))
  {
    OpenBudget(c, AfterFailure(c, s, now), es, now);
  }

  /** No call is let through before the cooldown has passed. */
  lemma {:induction false} NoEarlyGrant(c: Settings, s: Snapshot, es: seq<Event>, from: int, i: nat)
    requires ValidSettings(c) && s.state.OPEN? && s.openedAt.Some? && Probing(es, from)
    requires i < |es| && es[i].now < s.openedAt.value + c.cooldown
    ensures Run(c, s, es[..i]) == s && !Grants(c, s, es[i].now)
    decreases i
  {
    if i > 0 {
      assert es[0].now <= es[i].now;
      assert Step(c, s, es[0]) == s;
      NoEarlyGrant(c, s, es[1..], es[0].now, i - 1);
      assert es[..i][1..] == es[1..][..i - 1];
    }
  }

  // ------------------------------------------------------- the documented diagram

  /** The four arrows of the documented state machine, and staying put. */
  predicate Documented(a: CircuitState, b: CircuitState)
  {
    a == b || (a.CLOSED? && b.OPEN?) || (a.OPEN? && b.HALF_OPEN?) || (a.HALF_OPEN? && b.CLOSED?) ||
    (a.HALF_OPEN? && b.OPEN?)
  }

  /**
   MAIN: a step leaves the documented diagram exactly when a success or a reset arrives while the breaker
   is OPEN: a late success of an earlier call closes it at once.
   */
  lemma DiagramHolds(c: Settings, s: Snapshot, e: Event)
    requires ValidSettings(c) && Consistent(c, s)
    ensures Documented(s.state, Step(c, s, e).state) <==> !(s.state.OPEN? && (e.Success? || e.Reset?))
  {
  }

  /**
   MAIN: a zero wait is documented to mean that a call is allowed. That holds exactly when the first of the
   two clock readings does not find the breaker half-open with all trial slots taken; a positive wait is
   always exact, from the second reading on.
   */
  lemma RetryAfterMeaning(c: Settings, s: Snapshot, now: int, now': int, later: int)
    requires ValidSettings(c) && Consistent(c, s) && now <= now' <= later
    ensures var wait := RetryAfter(c, s, now, now');
            var t := MaybeHalfOpen(c, s, now);
            ((wait == 0 <==> Grants(c, t, now')) <==> !(t.state.HALF_OPEN? && t.halfOpenCalls >= c.halfOpenMax)) &&
            (Grants(c, t, now') <==> Grants(c, s, now')) &&
            (wait > 0 ==> (Grants(c, t, later) <==> later >= now' + wait))
  {
  }
}
