/** The synchronous retry driver around the circuit breaker: every granted slot gets exactly one outcome. */
module RetrySync {
  import opened Text
  import opened Circuit

  /** What one call of the wrapped function does: it returns in time or too late, or it raises. */
  datatype Attempt = Returned(slow: bool) | Raised(retryable: bool)

  /** Clock readings of one attempt: at the gate, twice for a rejection's wait, and when recording. */
  datatype Readings = Readings(gate: int, look: int, look': int, record: int)

  datatype Result =
    | Value(index: nat)              // the result of attempt `index`
    | Original(index: nat)           // the exception raised by attempt `index`
    | TimedOut(index: nat)           // attempt `index` was too slow
    | Rejected(retryAfter: int)      // the breaker refused an attempt
    | Exhausted                      // falling out of the loop

  /** How the run ended, the calls made, the outcomes recorded, and the breaker's final fields. */
  datatype Report = Report(result: Result, calls: nat, successes: nat, failures: nat, breaker: Option<Snapshot>)

  datatype World = World(attempt: nat -> Attempt, clock: nat -> Readings)

  /** The driver from attempt `k` on. */
  function Drive(c: Settings, max: nat, w: World, breaker: Option<Snapshot>, k: nat): Report
    decreases max - k
  {
    if k >= max then Report(Exhausted, 0, 0, 0, breaker)
    else
      var r := w.clock(k);
      if breaker.Some? && !Grants(c, breaker.value, r.gate) then
        var t := AfterAllow(c, breaker.value, r.gate);
        Report(Rejected(RetryAfter(c, t, r.look, r.look')), 0, 0, 0,
               Some(AfterGuard(c, breaker.value, r.gate, r.look)))
      else
        var open := if breaker.Some? then Some(AfterAllow(c, breaker.value, r.gate)) else None;
        var failed := if open.Some? then Some(AfterFailure(c, open.value, r.record)) else None;
        match w.attempt(k)
        case Returned(false) =>
          Report(Value(k), 1, 1, 0, if open.Some? then Some(INITIAL) else None)
        case Returned(true) =>
          if k == max - 1 then Report(TimedOut(k), 1, 0, 1, failed) else OneMore(Drive(c, max, w, failed, k + 1))
        case Raised(retryable) =>
          if !retryable || k == max - 1 then Report(Original(k), 1, 0, 1, failed)
          else OneMore(Drive(c, max, w, failed, k + 1))
  }

  /** One failed call in front of the rest of the run. */
  function OneMore(r: Report): Report { r.(calls := r.calls + 1, failures := r.failures + 1) }

  function Earlier(r: Report, n: nat): Report { r.(calls := r.calls + n, failures := r.failures + n) }

  function SnapOf(b: CircuitBreaker?): Option<Snapshot>
    reads b
  {
    if b == null then None else Some(b.Snap())
  }

  /** The attempt loop; `max` is the configured attempt budget, checked to be at least one. */
  method RunSync(max: nat, cb: CircuitBreaker?, w: World, c: Settings) returns (report: Report)
    requires max >= 1
    requires cb != null ==> cb.settings == c
    modifies cb
    ensures report == Drive(c, max, w, old(SnapOf(cb)), 0)
    ensures SnapOf(cb) == report.breaker
  {
    var attempt := 0;
    while attempt < max
      invariant 0 <= attempt <= max
      invariant old(SnapOf(cb)).Some? <==> cb != null
      invariant Drive(c, max, w, old(SnapOf(cb)), 0) == Earlier(Drive(c, max, w, SnapOf(cb), attempt), attempt)
    {
      var r := w.clock(attempt);
      if cb != null {
        var rejected := cb.Guard(r.gate, r.look, r.look');
        if rejected.Some? {
          return Report(Rejected(rejected.value), attempt, 0, attempt, SnapOf(cb));
        }
      }
      var outcome := w.attempt(attempt);
      if outcome == Returned(false) {
        if cb != null { cb.RecordSuccess(); }
        return Report(Value(attempt), attempt + 1, 1, attempt, SnapOf(cb));
      }
      if cb != null { cb.RecordFailure(r.record); }
      if outcome == Returned(true) {
        if attempt == max - 1 { return Report(TimedOut(attempt), attempt + 1, 0, attempt + 1, SnapOf(cb)); }
      } else if !outcome.retryable || attempt == max - 1 {
        return Report(Original(attempt), attempt + 1, 0, attempt + 1, SnapOf(cb));
      }
      attempt := attempt + 1;
    }
    report := Report(Exhausted, attempt, 0, attempt, SnapOf(cb));
  }

  // ------------------------------------------------------------------- what a run does

  /** Attempt `k` ends the run whatever the breaker says. */
  predicate Final(w: World, max: nat, k: nat)
  {
    match w.attempt(k)
    case Returned(slow) => !slow || k + 1 == max
    case Raised(retryable) => !retryable || k + 1 == max
  }

  /** The result owed to the caller when attempt `k` ends the run. */
  function Owed(w: World, k: nat): Result
  {
    match w.attempt(k)
    case Returned(slow) => if slow then TimedOut(k) else Value(k)
    case Raised(_) => Original(k)
  }

  /**
   MAIN: at most `max` calls; every call before the last may be retried; the last one ends the run and its
   outcome is what the caller gets, unless the breaker rejects the next attempt; the driver never falls out
   of its loop, so the exhaustion error is never raised; every call is matched by exactly one record.
   */
  lemma {:induction false} DriveMeaning(c: Settings, max: nat, w: World, breaker: Option<Snapshot>, k: nat)
    requires k < max
    ensures var r := Drive(c, max, w, breaker, k);
            r.result != Exhausted && k + r.calls <= max && r.calls == r.successes + r.failures &&
            (r.successes == 1 <==> r.result.Value?) && r.successes <= 1 &&
            (forall i :: k <= i < k + r.calls - 1 ==> !Final(w, max, i)) &&
            (if r.result.Rejected?
             then breaker.Some? && k + r.calls < max && (r.calls > 0 ==> !Final(w, max, k + r.calls - 1))
             else r.calls > 0 && Final(w, max, k + r.calls - 1) && r.result == Owed(w, k + r.calls - 1))
    decreases max - k
  {
    if k + 1 < max {
      var r := w.clock(k);
      var open := if breaker.Some? then Some(AfterAllow(c, breaker.value, r.gate)) else None;
      var failed := if open.Some? then Some(AfterFailure(c, open.value, r.record)) else None;
      DriveMeaning(c, max, w, failed, k + 1);
    }
  }

  /** What call `i` records with the breaker. */
  function Recorded(w: World, i: nat): Event
  {
    if w.attempt(i) == Returned(false) then Success else Failure(w.clock(i).record)
  }

  /** The events of `n` calls from attempt `k` on: each asks the gate and records its outcome. */
  function Trace(w: World, k: nat, n: nat): seq<Event>
    decreases n
  {
    if n == 0 then [] else [Allow(w.clock(k).gate), Recorded(w, k)] + Trace(w, k + 1, n - 1)
  }

  lemma {:induction false} RunConcat(c: Settings, s: Snapshot, a: seq<Event>, b: seq<Event>)
    ensures Run(c, s, a + b) == Run(c, Run(c, s, a), b)
    decreases |a|
  {
    if a == [] {
      assert a + b == b;
    } else {
      assert (a + b)[1..] == a[1..] + b;
      RunConcat(c, Step(c, s, a[0]), a[1..], b);
    }
  }

  lemma RunOne(c: Settings, s: Snapshot, e: Event)
    ensures Run(c, s, [e]) == Step(c, s, e)
  {
    assert Run(c, s, [e]) == Run(c, Step(c, s, e), [e][1..]);
  }

  lemma RunTwo(c: Settings, s: Snapshot, a: Event, b: Event)
    ensures Run(c, s, [a, b]) == Step(c, Step(c, s, a), b)
  {
    assert [a, b] == [a] + [b];
    RunConcat(c, s, [a], [b]);
    RunOne(c, s, a);
    RunOne(c, Step(c, s, a), b);
  }

  lemma TraceFirst(c: Settings, w: World, s: Snapshot, k: nat, n: nat)
    requires n > 0
    ensures Run(c, s, Trace(w, k, n)) ==
            Run(c, Step(c, AfterAllow(c, s, w.clock(k).gate), Recorded(w, k)), Trace(w, k + 1, n - 1))
  {
    RunConcat(c, s, [Allow(w.clock(k).gate), Recorded(w, k)], Trace(w, k + 1, n - 1));
    RunTwo(c, s, Allow(w.clock(k).gate), Recorded(w, k));
  }

  /** What the breaker sees when attempt `i` is rejected. */
  function Rejection(w: World, i: nat): seq<Event> { [Allow(w.clock(i).gate), Look(w.clock(i).look)] }

  lemma RejectionRun(c: Settings, w: World, s: Snapshot, i: nat)
    ensures Run(c, s, Rejection(w, i)) == MaybeHalfOpen(c, AfterAllow(c, s, w.clock(i).gate), w.clock(i).look)
  {
    RunTwo(c, s, Allow(w.clock(i).gate), Look(w.clock(i).look));
  }

  /**
   MAIN: the breaker ends up as if it had seen just this: for each call the gate check that let it through and
   the one record of its outcome, and for a rejection the gate check and the look at the wait.
   */
  lemma {:induction false} DriveTrace(c: Settings, max: nat, w: World, s: Snapshot, k: nat)
    requires k < max
    ensures var r := Drive(c, max, w, Some(s), k);
            var end := Run(c, s, Trace(w, k, r.calls));
            r.breaker == Some(if r.result.Rejected? then Run(c, end, Rejection(w, k + r.calls)) else end)
    decreases max - k
  {
    var r := w.clock(k);
    if !Grants(c, s, r.gate) {
      RejectionRun(c, w, s, k);
    } else {
      TraceFirst(c, w, s, k, Drive(c, max, w, Some(s), k).calls);
      if !Final(w, max, k) { DriveTrace(c, max, w, AfterFailure(c, AfterAllow(c, s, r.gate), r.record), k + 1); }
    }
  }

  /** Call number `i` of a run is let through by the gate, and a rejected one is not. */
  lemma {:induction false} DriveGates(c: Settings, max: nat, w: World, s: Snapshot, k: nat, i: nat)
    requires k < max && i <= Drive(c, max, w, Some(s), k).calls
    ensures var r := Drive(c, max, w, Some(s), k);
            var before := Run(c, s, Trace(w, k, i));
            (i < r.calls ==> Grants(c, before, w.clock(k + i).gate)) &&
            (i == r.calls && r.result.Rejected? ==> !Grants(c, before, w.clock(k + i).gate))
    decreases i
  {
    if i > 0 {
      TraceFirst(c, w, s, k, i);
      if !Final(w, max, k) {
        DriveGates(c, max, w, AfterFailure(c, AfterAllow(c, s, w.clock(k).gate), w.clock(k).record), k + 1, i - 1);
      }
    }
  }

  /**
   MAIN: used serially, a rejected run finds the breaker open with its cooldown not yet over at the gate, and
   the error carries what is left of the cooldown at the second of the two later clock readings, or nothing if it is
   over at the first of them.
   */
  lemma RejectionWait(c: Settings, max: nat, w: World, s: Snapshot, k: nat)
    requires k < max && ValidSettings(c) && Consistent(c, s) && s.halfOpenCalls == 0
    requires Drive(c, max, w, Some(s), k).result.Rejected?
    ensures var r := Drive(c, max, w, Some(s), k);
            var t, at := Run(c, s, Trace(w, k, r.calls)), w.clock(k + r.calls);
            t.state.OPEN? && t.openedAt.Some? && at.gate < t.openedAt.value + c.cooldown &&
            r.result.retryAfter == (if at.look >= t.openedAt.value + c.cooldown || at.look' >= t.openedAt.value + c.cooldown
                                    then 0 else t.openedAt.value + c.cooldown - at.look')
    decreases max - k
  {
    if Grants(c, s, w.clock(k).gate) {
      var t := AfterFailure(c, AfterAllow(c, s, w.clock(k).gate), w.clock(k).record);
      TraceFirst(c, w, s, k, Drive(c, max, w, Some(s), k).calls);
      RejectionWait(c, max, w, t, k + 1);
    }
  }

  /**
   MAIN: used serially, the driver hands back every half-open slot it takes: entered with no slot held, it
   leaves none held, on every way out, and the breaker stays consistent.
   */
  lemma {:induction false} NoSlotHeld(c: Settings, max: nat, w: World, s: Snapshot, k: nat)
    requires ValidSettings(c) && Consistent(c, s) && s.halfOpenCalls == 0
    ensures var end := Drive(c, max, w, Some(s), k).breaker;
            end.Some? && Consistent(c, end.value) && end.value.halfOpenCalls == 0
    decreases max - k
  {
    if k + 1 < max {
      var r := w.clock(k);
      NoSlotHeld(c, max, w, AfterFailure(c, AfterAllow(c, s, r.gate), r.record), k + 1);
    }
  }

  /** A run that trips the breaker while attempts remain is cut short unless the cooldown passes meanwhile. */
  lemma TripCutsShort(c: Settings, max: nat, w: World, s: Snapshot, k: nat)
    requires ValidSettings(c) && Consistent(c, s) && k + 1 < max
    requires Grants(c, s, w.clock(k).gate) && !Final(w, max, k)
    requires TripsNow(c, AfterAllow(c, s, w.clock(k).gate))
    requires w.clock(k + 1).gate < w.clock(k).record + c.cooldown
    ensures Drive(c, max, w, Some(s), k).result.Rejected? && Drive(c, max, w, Some(s), k).calls == 1
  {
    var t := AfterFailure(c, AfterAllow(c, s, w.clock(k).gate), w.clock(k).record);
    assert !Grants(c, t, w.clock(k + 1).gate);
    assert Drive(c, max, w, Some(t), k + 1).result.Rejected?;
  }
}
