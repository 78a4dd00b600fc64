/** The Rust retry engine: its 64-bit capped ceiling, its full jitter, and its attempt loop. */
module RustRetry {
  import opened Backoff

  const U32 := 0x1_0000_0000
  const U64 := 0x1_0000_0000_0000_0000

  /** Nanoseconds in a millisecond. */
  const NANOS := 1_000_000

  /** Delays are durations in nanoseconds, whose milliseconds may exceed 64 bits. */
  datatype Policy = Policy(maxAttempts: nat, base: nat, cap: nat)

  datatype Outcome<+T, +E> = Ok(value: T) | Err(error: E)

  datatype Result<+T, +E> = Done(value: T) | Terminal(error: E) | Exhausted(attempts: nat, source: E)

  // ------------------------------------------------------------------- the ceiling

  /** A checked left shift of one by `attempt`, all ones when the shift is too far. */
  function Factor(attempt: nat): nat { if attempt < 64 then Pow2(attempt) else U64 - 1 }

  function SaturatingMul(a: nat, b: nat): nat { if a * b < U64 then a * b else U64 - 1 }

  function Min(a: nat, b: nat): nat { if a <= b then a else b }

  function Millis(d: nat): nat { d / NANOS }

  /** The ceiling of a base and a cap in milliseconds: casting to 64 bits drops the higher bits of both. */
  function CappedMillis(base: nat, cap: nat, attempt: nat): nat
  {
    Min(SaturatingMul(base % U64, Factor(attempt)), cap % U64)
  }

  /** `capped_ceiling`, in milliseconds. */
  function CappedCeiling(p: Policy, attempt: nat): nat { CappedMillis(Millis(p.base), Millis(p.cap), attempt) }

  /** The delays for which neither the rounding to milliseconds nor the arithmetic loses anything that matters. */
  predicate FitsDelays(p: Policy)
  {
    p.base == 0 ||
    (p.cap % NANOS == 0 && Millis(p.cap) < U64 &&
     ((p.base % NANOS == 0 && Millis(p.base) < U64) || Millis(p.base) % U64 >= Millis(p.cap)))
  }

  lemma Pow64()
    ensures Pow2(64) == U64
  {
    assert Pow2(4) == 16;
    PowAdd(4, 4);
    PowAdd(8, 8);
    PowAdd(16, 16);
    PowAdd(32, 32);
  }

  lemma {:induction false} PowAdd(n: nat, m: nat)
    ensures Pow2(n + m) == Pow2(n) * Pow2(m)
  {
    if m > 0 { PowAdd(n, m - 1); }
  }

  /** Below 2^64 milliseconds nothing is lost for any attempt. */
  lemma MillisExact(base: nat, cap: nat, attempt: nat)
    requires cap < U64 && base < U64
    ensures CappedMillis(base, cap, attempt) == Ceiling(base, cap, attempt)
  {
    if attempt >= 64 && base > 0 {
      Pow64();
      Pow2Grows(64, attempt);
      Product(base, U64, Pow2(attempt));
      Product(base, U64 - 1, U64 - 1);
    }
  }

  lemma Product(k: nat, a: nat, b: nat)
    requires k > 0 && a <= b
    ensures k * b >= a
  {
  }

  lemma FactorBounds(attempt: nat)
    ensures 1 <= Factor(attempt) <= Pow2(attempt)
  {
    Pow2Grows(0, attempt);
    if attempt >= 64 {
      Pow64();
      Pow2Grows(64, attempt);
    }
  }

  /** What is left of a base after the cast reaches the cap: the cap is the ceiling of every attempt. */
  lemma MillisAtCap(base: nat, cap: nat, attempt: nat)
    requires cap < U64 && base % U64 >= cap
    ensures CappedMillis(base, cap, attempt) == cap
  {
    FactorBounds(attempt);
    Scaled(base % U64, 1, Factor(attempt));
  }

  lemma CeilingAtCap(base: nat, cap: nat, attempt: nat)
    requires base >= cap
    ensures Ceiling(base, cap, attempt) == cap
  {
    Pow2Grows(0, attempt);
    Scaled(base, 1, Pow2(attempt));
  }

  /** Whole milliseconds scale. */
  lemma CeilingScales(base: nat, cap: nat, attempt: nat)
    ensures Ceiling(base * NANOS, cap * NANOS, attempt) == Ceiling(base, cap, attempt) * NANOS
  {
    assert (base * NANOS) * Pow2(attempt) == (base * Pow2(attempt)) * NANOS;
  }

  lemma FittingIsExact(p: Policy, attempt: nat)
    requires FitsDelays(p)
    ensures CappedCeiling(p, attempt) * NANOS == Ceiling(p.base, p.cap, attempt)
  {
    var b, c := Millis(p.base), Millis(p.cap);
    if p.base == 0 {
      assert 0 * Pow2(attempt) == 0 && 0 * Factor(attempt) == 0;
    } else if b % U64 >= c {
      MillisAtCap(b, c, attempt);
      CeilingAtCap(p.base, p.cap, attempt);
    } else {
      MillisExact(b, c, attempt);
      CeilingScales(b, c, attempt);
    }
  }

  lemma Pow84()
    ensures Pow2(84) > U64 * NANOS
  {
    Pow64();
    assert Pow2(4) == 16;
    PowAdd(4, 4);
    PowAdd(8, 8);
    PowAdd(16, 4);
    PowAdd(64, 20);
  }

  /** From attempt 84 on any base has reached 2^64 milliseconds. */
  lemma CeilingLate(p: Policy)
    requires p.base > 0
    ensures Ceiling(p.base, p.cap, 84) == p.cap || Ceiling(p.base, p.cap, 84) >= U64 * NANOS
  {
    Pow84();
    Scaled(Pow2(84), 1, p.base);
  }

  lemma CeilingFirst(p: Policy)
    ensures CappedCeiling(p, 0) == Min(Millis(p.base) % U64, Millis(p.cap) % U64)
    ensures Ceiling(p.base, p.cap, 0) == Min(p.base, p.cap)
  {
  }

  lemma CappedBelow(p: Policy, attempt: nat)
    ensures CappedCeiling(p, attempt) < U64
  {
  }

  lemma UnfitCap(p: Policy)
    requires p.base > 0 && (p.cap % NANOS != 0 || Millis(p.cap) >= U64)
    ensures CappedCeiling(p, 84) * NANOS != Ceiling(p.base, p.cap, 84)
  {
    hide CappedCeiling, Ceiling;
    CeilingLate(p);
    CappedBelow(p, 84);
  }

  lemma UnfitBase(p: Policy)
    requires !FitsDelays(p) && p.cap % NANOS == 0 && Millis(p.cap) < U64
    ensures CappedCeiling(p, 0) * NANOS != Ceiling(p.base, p.cap, 0)
  {
    hide CappedCeiling, Ceiling;
    CeilingFirst(p);
  }

  /** Where something is lost, attempt 0 or attempt 84 shows it. */
  lemma UnfitFallsShort(p: Policy)
    requires !FitsDelays(p)
    ensures CappedCeiling(p, 0) * NANOS != Ceiling(p.base, p.cap, 0) || CappedCeiling(p, 84) * NANOS != Ceiling(p.base, p.cap, 84)
  {
    if p.cap % NANOS != 0 || Millis(p.cap) >= U64 { UnfitCap(p); } else { UnfitBase(p); }
  }

  /**
   MAIN: the 64-bit ceiling in whole milliseconds is the documented min(base * 2^attempt, max) for every 32-bit
   attempt exactly when nothing is lost: the base is zero, or the cap is a whole number of milliseconds in 64
   bits and so is the base, or else what is left of the base still reaches the cap.
   */
  lemma CeilingExact(p: Policy)
    ensures (forall attempt: nat | attempt < U32 :: CappedCeiling(p, attempt) * NANOS == Ceiling(p.base, p.cap, attempt))
       <==> FitsDelays(p)
  {
    if FitsDelays(p) {
      forall attempt: nat | attempt < U32 ensures CappedCeiling(p, attempt) * NANOS == Ceiling(p.base, p.cap, attempt) {
        FittingIsExact(p, attempt);
      }
    } else {
      UnfitFallsShort(p);
    }
  }

  lemma MillisBelow(base: nat, cap: nat, attempt: nat)
    ensures CappedMillis(base, cap, attempt) <= Ceiling(base, cap, attempt)
  {
    FactorBounds(attempt);
    Scaled(base % U64, Factor(attempt), Pow2(attempt));
    Scaled(Pow2(attempt), base % U64, base);
  }

  lemma CeilingMonotone(base: nat, cap: nat, base': nat, cap': nat, attempt: nat)
    requires base <= base' && cap <= cap'
    ensures Ceiling(base, cap, attempt) <= Ceiling(base', cap', attempt)
  {
    Scaled(Pow2(attempt), base, base');
  }

  /** Whatever is lost, the ceiling never passes the documented one. */
  lemma CeilingNeverAbove(p: Policy, attempt: nat)
    ensures CappedCeiling(p, attempt) * NANOS <= Ceiling(p.base, p.cap, attempt)
  {
    var b, c := Millis(p.base), Millis(p.cap);
    MillisBelow(b, c, attempt);
    CeilingScales(b, c, attempt);
    CeilingMonotone(b * NANOS, c * NANOS, p.base, p.cap, attempt);
  }

  // ---------------------------------------------------------------------- the loop

  /** A draw from zero to the ceiling, both included. */
  function Pick(ceiling: nat, draw: nat): (d: nat)
    ensures d <= ceiling && (draw <= ceiling ==> d == draw)
  {
    if ceiling == 0 then 0 else draw % (ceiling + 1)
  }

  /** Full jitter: any value up to the ceiling. */
  function JitteredDelay(p: Policy, attempt: nat, draw: nat): nat { Pick(CappedCeiling(p, attempt), draw) }

  function Budget(p: Policy): (n: nat) { if p.maxAttempts >= 1 then p.maxAttempts else 1 }

  /** The run goes on after call `i` unless the budget is spent. */
  predicate Transient<T, E>(op: nat -> Outcome<T, E>, classify: E -> bool, i: nat)
  {
    op(i).Err? && classify(op(i).error)
  }

  /** The first `k` calls are the ones made: all but the last were worth retrying, the last one ends the run. */
  ghost predicate StopsAfter<T, E>(op: nat -> Outcome<T, E>, classify: E -> bool, p: Policy, k: nat)
  {
    1 <= k <= Budget(p) && (forall i: nat | i < k - 1 :: Transient(op, classify, i)) &&
    (k == Budget(p) || !Transient(op, classify, k - 1))
  }

  /**
   MAIN: the calls made are exactly those up to the first success, the first terminal error or the budget. A value
   is returned if and only if the last call returned it, a terminal error if and only if the last call failed
   with it and it is not worth retrying, and the run is exhausted if and only if all the budget's calls failed with
   errors worth retrying: then that number and the last error are reported. There is one pause between two
   calls, full jitter within its ceiling.
   */
  method Retry<T, E>(op: nat -> Outcome<T, E>, classify: E -> bool, p: Policy, draw: nat -> nat)
    returns (result: Result<T, E>, calls: nat, sleeps: seq<nat>)
    requires p.maxAttempts < U32
    ensures StopsAfter(op, classify, p, calls)
    ensures forall v :: result == Done(v) <==> op(calls - 1) == Ok(v)
    ensures forall e :: result == Terminal(e) <==> op(calls - 1) == Err(e) && !classify(e)
    ensures result.Exhausted? <==> forall i: nat | i < Budget(p) :: op(i).Err? && classify(op(i).error)
    ensures result.Exhausted? ==>
              op(calls - 1) == Err(result.source) &&
              result.attempts == calls == (if p.maxAttempts > 1 then p.maxAttempts else 1)
    ensures |sleeps| == calls - 1
    ensures forall i :: 0 <= i < |sleeps| ==>
              sleeps[i] <= CappedCeiling(p, i) && (draw(i) <= CappedCeiling(p, i) ==> sleeps[i] == draw(i))
  {
    var max := Budget(p);
    var attempt := 0;
    sleeps := [];
    while true
      invariant 0 <= attempt < max && |sleeps| == attempt
      invariant forall i: nat | i < attempt :: Transient(op, classify, i)
      invariant forall i :: 0 <= i < |sleeps| ==>
                  sleeps[i] <= CappedCeiling(p, i) && (draw(i) <= CappedCeiling(p, i) ==> sleeps[i] == draw(i))
      decreases max - attempt
    {
      var outcome := op(attempt);
      if outcome.Ok? { return Done(outcome.value), attempt + 1, sleeps; }
      if !classify(outcome.error) { return Terminal(outcome.error), attempt + 1, sleeps; }
      assert Transient(op, classify, attempt);
      attempt := attempt + 1;
      if attempt >= max {
        forall i: nat | i < max ensures op(i).Err? && classify(op(i).error) { assert Transient(op, classify, i); }
        return Exhausted(attempt, outcome.error), attempt, sleeps;
      }
      sleeps := sleeps + [JitteredDelay(p, attempt - 1, draw(attempt - 1))];
    }
  }

  /** Count on from call `i` to the first one that ends the run. */
  function Calls<T, E>(op: nat -> Outcome<T, E>, classify: E -> bool, p: Policy, i: nat): nat
    requires i < Budget(p)
    decreases Budget(p) - i
  {
    if i + 1 < Budget(p) && Transient(op, classify, i) then Calls(op, classify, p, i + 1) else i + 1
  }

  /** The outcomes determine the number of calls. */
  lemma {:induction false} CallsDetermined<T, E>(op: nat -> Outcome<T, E>, classify: E -> bool, p: Policy, i: nat, k: nat)
    requires i < Budget(p) && forall j: nat | j < i :: Transient(op, classify, j)
    ensures StopsAfter(op, classify, p, k) <==> k == Calls(op, classify, p, i)
    decreases Budget(p) - i
  {
    if i + 1 < Budget(p) && Transient(op, classify, i) {
      CallsDetermined(op, classify, p, i + 1, k);
    } else if 1 <= k <= i {
      assert Transient(op, classify, k - 1);
    } else if k == i + 1 {
      assert forall j: nat | j < i :: Transient(op, classify, j);
    }
  }

  lemma {:induction false} PausesSum(p: Policy, sleeps: seq<nat>)
    requires forall i :: 0 <= i < |sleeps| ==> sleeps[i] <= CappedCeiling(p, i)
    ensures Sum(sleeps) * NANOS <= CeilingSum(p.base, p.cap, |sleeps|)
  {
    if sleeps != [] {
      var n := |sleeps| - 1;
      PausesSum(p, sleeps[..n]);
      CeilingNeverAbove(p, n);
      assert sleeps[n] <= CappedCeiling(p, n);
    }
  }

  /** Pauses within the 64-bit ceilings, in milliseconds, stay within the documented sums for every policy. */
  lemma SleepsWithin(p: Policy, sleeps: seq<nat>)
    requires forall i :: 0 <= i < |sleeps| ==> sleeps[i] <= CappedCeiling(p, i)
    ensures Sum(sleeps) * NANOS <= CeilingSum(p.base, p.cap, |sleeps|)
    ensures Sum(sleeps) * NANOS <= |sleeps| * p.cap && Sum(sleeps) * NANOS <= p.base * (Pow2(|sleeps|) - 1)
  {
    PausesSum(p, sleeps);
    CeilingSumBounds(p.base, p.cap, |sleeps|);
  }
}
