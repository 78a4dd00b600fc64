/** The TypeScript retry engine: floored jitter, an abort signal, and the attempt count it reports. */
module TypeScriptRetry {
  import opened Text
  import opened Backoff

  datatype Options = Options(maxAttempts: int, base: nat, cap: nat)

  datatype Outcome<+T, +E> = Returned(value: T) | Thrown(error: E)

  datatype Result<+T, +E> =
    | Value(value: T)
    | Rethrown(error: E)                            // the last error was already a resilience error
    | Aborted(attempts: nat)
    | Exhausted(attempts: nat, cause: Option<E>)

  // -------------------------------------------------------------------- the delay

  /** `computeBackoff`, the attempt counted from one and `random` in [0, 1). */
  function ComputeBackoff(attempt: nat, base: nat, cap: nat, random: real): (d: nat)
    requires 0.0 <= random < 1.0
    ensures d <= Ceiling(base, cap, if attempt >= 1 then attempt - 1 else 0)
  {
    var capped := Ceiling(base, cap, if attempt >= 1 then attempt - 1 else 0);
    Share(random, capped)
  }

  function Share(random: real, capped: nat): (d: nat)
    requires 0.0 <= random < 1.0
    ensures d <= capped && (capped > 0 ==> d < capped)
  {
    FloorWithin(Scale(random, capped as real), capped)
  }

  function Scale(random: real, c: real): (x: real)
    requires 0.0 <= random < 1.0 && 0.0 <= c
    ensures 0.0 <= x <= c && (c > 0.0 ==> x < c)
  {
    ProductSign(random, c);
    ProductSign(1.0 - random, c);
    assert (1.0 - random) * c == c - random * c;
    random * c
  }

  lemma ProductSign(a: real, b: real)
    requires 0.0 <= a && 0.0 <= b
    ensures 0.0 <= a * b && (a > 0.0 && b > 0.0 ==> a * b > 0.0)
  {
  }

  function FloorWithin(x: real, capped: nat): (d: nat)
    requires 0.0 <= x <= capped as real && (capped > 0 ==> x < capped as real)
    ensures d <= capped && (capped > 0 ==> d < capped)
    ensures d as real <= x < d as real + 1.0
  {
    x.Floor
  }

  lemma WholeShare(d: nat, capped: nat)
    requires d < capped
    ensures var r := d as real / capped as real; 0.0 <= r < 1.0 && r * capped as real == d as real
  {
  }

  /** MAIN: the jittered delays are exactly the whole milliseconds below the ceiling, and zero if it is zero. */
  lemma BackoffRange(attempt: nat, base: nat, cap: nat, d: nat)
    requires attempt >= 1
    ensures (exists r: real :: 0.0 <= r < 1.0 && ComputeBackoff(attempt, base, cap, r) == d)
       <==> d < Ceiling(base, cap, attempt - 1) || (d == 0 && Ceiling(base, cap, attempt - 1) == 0)
  {
    var capped := Ceiling(base, cap, attempt - 1);
    if d < capped {
      WholeShare(d, capped);
      var r := d as real / capped as real;
      assert ComputeBackoff(attempt, base, cap, r) == d;
    } else if d == 0 {
      assert ComputeBackoff(attempt, base, cap, 0.0) == 0;
    }
  }

  // ---------------------------------------------------------------------- the loop

  /** Attempt `a` failed in a way the caller wants retried, and is not the last one allowed. */
  predicate GoesOn<T, E>(fn: nat -> Outcome<T, E>, shouldRetry: (E, nat) -> bool, o: Options, a: nat)
  {
    fn(a).Thrown? && a < o.maxAttempts && shouldRetry(fn(a).error, a)
  }

  /** Attempts `1` to `k` are the ones made, none of them after the signal. */
  ghost predicate Made<T, E>(fn: nat -> Outcome<T, E>, shouldRetry: (E, nat) -> bool, aborted: nat -> bool, o: Options, k: nat)
  {
    k <= o.maxAttempts && (forall a: nat | 1 <= a <= k :: !aborted(a)) &&
    (forall a: nat | 1 <= a < k :: GoesOn(fn, shouldRetry, o, a))
  }

  /** Attempt `k` was the last one made, and its outcome ended the run. */
  ghost predicate EndedAt<T, E>(fn: nat -> Outcome<T, E>, shouldRetry: (E, nat) -> bool, aborted: nat -> bool, o: Options, k: nat)
  {
    1 <= k <= o.maxAttempts && Made(fn, shouldRetry, aborted, o, k) &&
    (fn(k).Thrown? && k < o.maxAttempts ==> !shouldRetry(fn(k).error, k))
  }

  /** What the caller gets after attempt `k` ended the run. */
  function Ending<T, E>(fn: nat -> Outcome<T, E>, ours: E -> bool, o: Options, k: nat): Result<T, E>
    requires o.maxAttempts >= 1
  {
    match fn(k)
    case Returned(v) => Value(v)
    case Thrown(e) => if ours(e) then Rethrown(e) else Exhausted(o.maxAttempts, Some(e))
  }

  /** How `calls` attempts and a result belong together. */
  ghost predicate Outcomes<T, E>(fn: nat -> Outcome<T, E>, shouldRetry: (E, nat) -> bool, ours: E -> bool,
                                 aborted: nat -> bool, o: Options, calls: nat, result: Result<T, E>)
  {
    if o.maxAttempts < 1 then calls == 0 && result == Exhausted(0, None)
    else
      Made(fn, shouldRetry, aborted, o, calls) &&
      if result.Aborted? then
        result.attempts == calls < o.maxAttempts && aborted(calls + 1) &&
        (calls >= 1 ==> GoesOn(fn, shouldRetry, o, calls))
      else calls >= 1 && !GoesOn(fn, shouldRetry, o, calls) && result == Ending(fn, ours, o, calls)
  }

  /**
   The attempt loop; `aborted(a)` is the signal as attempt `a` is about to start, and `ours` tells the
   library's own errors. One delay is slept after every attempt that goes on.
   */
  method Retry<T, E>(fn: nat -> Outcome<T, E>, shouldRetry: (E, nat) -> bool, ours: E -> bool,
                     aborted: nat -> bool, o: Options, random: nat -> real)
    returns (result: Result<T, E>, calls: nat, sleeps: seq<nat>)
    requires forall a :: 0.0 <= random(a) < 1.0
    ensures Outcomes(fn, shouldRetry, ours, aborted, o, calls, result)
    ensures forall v :: result == Value(v) <==> EndedAt(fn, shouldRetry, aborted, o, calls) && fn(calls) == Returned(v)
    ensures forall e :: result == Rethrown(e) <==>
                        EndedAt(fn, shouldRetry, aborted, o, calls) && fn(calls) == Thrown(e) && ours(e)
    ensures o.maxAttempts < 1 ==> result == Exhausted(0, None) && calls == 0
    ensures o.maxAttempts >= 1 ==>
              (result.Exhausted? <==> EndedAt(fn, shouldRetry, aborted, o, calls) && fn(calls).Thrown? && !ours(fn(calls).error))
    ensures o.maxAttempts >= 1 && result.Exhausted? ==>
              result.attempts == o.maxAttempts && fn(calls).Thrown? && result.cause == Some(fn(calls).error)
    ensures result.Aborted? <==>
              calls < o.maxAttempts && Made(fn, shouldRetry, aborted, o, calls) && aborted(calls + 1) &&
              (calls >= 1 ==> fn(calls).Thrown? && shouldRetry(fn(calls).error, calls))
    ensures result.Aborted? ==> result.attempts == calls
    ensures |sleeps| == if calls >= 1 && GoesOn(fn, shouldRetry, o, calls) then calls else if calls >= 1 then calls - 1 else 0
    ensures forall i :: 0 <= i < |sleeps| ==> sleeps[i] == ComputeBackoff(i + 1, o.base, o.cap, random(i + 1))
    ensures Sum(sleeps) <= CeilingSum(o.base, o.cap, |sleeps|)
  {
    hide Ceiling, CeilingSum, ComputeBackoff;
    if o.maxAttempts < 1 { return Exhausted(0, None), 0, []; }
    var attempt := 1;
    sleeps := [];
    while true
      invariant 1 <= attempt <= o.maxAttempts && |sleeps| == attempt - 1
      invariant forall a: nat | 1 <= a < attempt :: !aborted(a) && GoesOn(fn, shouldRetry, o, a)
      invariant forall i :: 0 <= i < |sleeps| ==> sleeps[i] == ComputeBackoff(i + 1, o.base, o.cap, random(i + 1))
      decreases o.maxAttempts - attempt
    {
      SumBelow(sleeps, o.base, o.cap);
      if aborted(attempt) { return Aborted(attempt - 1), attempt - 1, sleeps; }
      var outcome := fn(attempt);
      if outcome.Returned? { return Value(outcome.value), attempt, sleeps; }
      if attempt >= o.maxAttempts || !shouldRetry(outcome.error, attempt) {
        if ours(outcome.error) { return Rethrown(outcome.error), attempt, sleeps; }
        return Exhausted(o.maxAttempts, Some(outcome.error)), attempt, sleeps;
      }
      sleeps := sleeps + [ComputeBackoff(attempt, o.base, o.cap, random(attempt))];
      attempt := attempt + 1;
    }
  }

  /** The run from attempt `a` on: its result and the attempts made. */
  function Course<T, E>(fn: nat -> Outcome<T, E>, shouldRetry: (E, nat) -> bool, ours: E -> bool,
                        aborted: nat -> bool, o: Options, a: nat): (Result<T, E>, nat)
    requires 1 <= a <= o.maxAttempts
    decreases o.maxAttempts - a
  {
    if aborted(a) then (Aborted(a - 1), a - 1)
    else if GoesOn(fn, shouldRetry, o, a) then Course(fn, shouldRetry, ours, aborted, o, a + 1)
    else (Ending(fn, ours, o, a), a)
  }

  /** The outcomes and the signal determine the result and the number of attempts. */
  lemma {:induction false} OutcomesDetermined<T, E>(fn: nat -> Outcome<T, E>, shouldRetry: (E, nat) -> bool, ours: E -> bool,
      aborted: nat -> bool, o: Options, a: nat, calls: nat, result: Result<T, E>)
    requires 1 <= a <= o.maxAttempts
    requires forall b: nat | 1 <= b < a :: !aborted(b) && GoesOn(fn, shouldRetry, o, b)
    ensures Outcomes(fn, shouldRetry, ours, aborted, o, calls, result)
       <==> (result, calls) == Course(fn, shouldRetry, ours, aborted, o, a)
    decreases o.maxAttempts - a
  {
    if !aborted(a) && GoesOn(fn, shouldRetry, o, a) {
      OutcomesDetermined(fn, shouldRetry, ours, aborted, o, a + 1, calls, result);
    } else if 1 <= calls < a {
      assert GoesOn(fn, shouldRetry, o, calls);
    }
  }

  /**
   MAIN: an exhausted run reports the attempts it made if and only if every attempt before the last allowed
   one failed and was worth retrying; a run stopped early by the caller's predicate reports too many.
   */
  lemma ReportedAttempts<T, E>(fn: nat -> Outcome<T, E>, shouldRetry: (E, nat) -> bool, ours: E -> bool,
                               aborted: nat -> bool, o: Options, calls: nat, result: Result<T, E>)
    requires Outcomes(fn, shouldRetry, ours, aborted, o, calls, result) && result.Exhausted?
    ensures result.attempts >= calls
    ensures result.attempts == calls <==>
            forall a: nat | 1 <= a < o.maxAttempts :: fn(a).Thrown? && shouldRetry(fn(a).error, a)
  {
    if o.maxAttempts >= 1 && calls < o.maxAttempts {
      assert !GoesOn(fn, shouldRetry, o, calls);
    } else if o.maxAttempts >= 1 {
      forall a: nat | 1 <= a < o.maxAttempts ensures fn(a).Thrown? && shouldRetry(fn(a).error, a) {
        assert GoesOn(fn, shouldRetry, o, a);
      }
    }
  }
}
