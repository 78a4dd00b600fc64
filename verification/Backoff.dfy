/** Exponential backoff: powers of two, the capped delay, and what sums of delays come to. */
module Backoff {

  function Pow2(n: nat): nat { if n == 0 then 1 else 2 * Pow2(n - 1) }

  lemma {:induction false} Pow2Grows(n: nat, m: nat)
    requires n <= m
    ensures 1 <= Pow2(n) <= Pow2(m)
    decreases m
  {
    if n < m { Pow2Grows(n, m - 1); } else if n > 0 { Pow2Grows(n - 1, n - 1); }
  }

  lemma Scaled(k: nat, a: nat, b: nat)
    requires a <= b
    ensures k * a <= k * b
  {
  }

  function Sum(s: seq<nat>): nat { if s == [] then 0 else Sum(s[..|s| - 1]) + s[|s| - 1] }

  lemma Doubled(base: nat, p: nat)
    requires p >= 1
    ensures base * (p - 1) + base * p == base * (2 * p - 1)
  {
  }

  /** Uncapped doubling delays add up to at most base * (2^n - 1). */
  lemma {:induction false} SleepSum(s: seq<nat>, base: nat)
    requires forall i :: 0 <= i < |s| ==> s[i] <= base * Pow2(i)
    ensures Sum(s) <= base * (Pow2(|s|) - 1)
  {
    if s != [] {
      var n := |s| - 1;
      SleepSum(s[..n], base);
      Pow2Grows(0, n);
      assert Pow2(n + 1) == 2 * Pow2(n);
      Doubled(base, Pow2(n));
      Scaled(1, s[n], base * Pow2(n));
    }
  }

  /** The documented ceiling of the delay after attempt `i`, counted from zero: min(base * 2^i, cap). */
  function Ceiling(base: nat, cap: nat, i: nat): nat
  {
    if base * Pow2(i) <= cap then base * Pow2(i) else cap
  }

  function CeilingSum(base: nat, cap: nat, n: nat): nat
  {
    if n == 0 then 0 else CeilingSum(base, cap, n - 1) + Ceiling(base, cap, n - 1)
  }

  lemma {:induction false} SumBelow(s: seq<nat>, base: nat, cap: nat)
    requires forall i :: 0 <= i < |s| ==> s[i] <= Ceiling(base, cap, i)
    ensures Sum(s) <= CeilingSum(base, cap, |s|)
  {
    if s != [] { SumBelow(s[..|s| - 1], base, cap); }
  }

  lemma CapStep(cap: nat, n: nat)
    requires n > 0
    ensures (n - 1) * cap + cap == n * cap
  {
  }

  /** The sum of the ceilings never passes either bound, and is the doubling one while the cap is not reached. */
  lemma {:induction false} CeilingSumBounds(base: nat, cap: nat, n: nat)
    ensures CeilingSum(base, cap, n) <= n * cap
    ensures CeilingSum(base, cap, n) <= base * (Pow2(n) - 1)
    ensures n > 0 && base * Pow2(n - 1) <= cap ==> CeilingSum(base, cap, n) == base * (Pow2(n) - 1)
  {
    if n > 0 {
      CeilingSumBounds(base, cap, n - 1);
      CapStep(cap, n);
      Pow2Grows(0, n - 1);
      Doubled(base, Pow2(n - 1));
      if n > 1 {
        Pow2Grows(n - 2, n - 1);
        Scaled(base, Pow2(n - 2), Pow2(n - 1));
      }
    }
  }
}
