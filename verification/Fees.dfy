/** Fee initialization and bumping, on whole wei with the bump factor scaled by 1000. */
module Fees {
  import opened Text

  datatype Mode = Legacy | Eip1559

  datatype FeeFields = FeeFields(gasPrice: Option<nat>, maxFee: Option<nat>, maxPriorityFee: Option<nat>)

  /** One bump of an amount: scale, round down, add one wei. `k` is round(factor * 1000). */
  function Bump(v: nat, k: nat): nat { v * k / 1000 + 1 }

  /** The fee of the first attempt; `None` is the BAD_FEE error. */
  function InitialFee(mode: Mode, base: FeeFields): Option<FeeFields>
  {
    match mode
    case Legacy => if base.gasPrice.None? then None else Some(FeeFields(base.gasPrice, None, None))
    case Eip1559 =>
      if base.maxFee.None? then None
      else Some(FeeFields(None, base.maxFee, if base.maxPriorityFee.Some? then base.maxPriorityFee else base.maxFee))
  }

  /** The fields an attempt's fee has in its mode. */
  predicate WellFormed(mode: Mode, fee: FeeFields)
  {
    match mode
    case Legacy => fee.gasPrice.Some? && fee.maxFee.None? && fee.maxPriorityFee.None?
    case Eip1559 => fee.gasPrice.None? && fee.maxFee.Some? && fee.maxPriorityFee.Some?
  }

  function BumpFee(mode: Mode, fee: FeeFields, k: nat): FeeFields
    requires WellFormed(mode, fee)
  {
    match mode
    case Legacy => FeeFields(Some(Bump(fee.gasPrice.value, k)), None, None)
    case Eip1559 => FeeFields(None, Some(Bump(fee.maxFee.value, k)), Some(Bump(fee.maxPriorityFee.value, k)))
  }

  /** `n` bumps in a row. */
  function BumpTimes(mode: Mode, fee: FeeFields, k: nat, n: nat): FeeFields
    requires WellFormed(mode, fee)
    ensures WellFormed(mode, BumpTimes(mode, fee, k, n))
  {
    if n == 0 then fee else BumpFee(mode, BumpTimes(mode, fee, k, n - 1), k)
  }

  function Bumps(v: nat, k: nat, n: nat): nat { if n == 0 then v else Bump(Bumps(v, k, n - 1), k) }

  // ------------------------------------------------------------------- amounts

  /** A bump exceeds the scaled amount, and by at most one wei; with k >= 1000 it exceeds the amount. */
  lemma BumpBounds(v: nat, k: nat)
    ensures v * k < 1000 * Bump(v, k) <= v * k + 1000
    ensures k >= 1000 ==> Bump(v, k) > v
  {
    if k >= 1000 { assert v * k >= v * 1000; }
  }

  /** Bumping is strictly monotone, so it neither creates nor removes an order between two amounts. */
  lemma BumpMonotone(v: nat, w: nat, k: nat)
    requires k >= 1000
    ensures v <= w <==> Bump(v, k) <= Bump(w, k)
  {
    if v < w {
      ScaledOrder(v, w, k);
    } else if w < v {
      ScaledOrder(w, v, k);
    }
  }

  lemma ScaledOrder(v: nat, w: nat, k: nat)
    requires k >= 1000 && v < w
    ensures Bump(v, k) < Bump(w, k)
  {
    assert w * k >= (v + 1) * k == v * k + k >= v * k + 1000;
  }

  function Pow(b: nat, n: nat): nat { if n == 0 then 1 else b * Pow(b, n - 1) }

  /** The sum over j < n of k^j * 1000^(n-j). */
  function RoundingSum(k: nat, n: nat): nat
  {
    if n == 0 then 0 else Pow(1000, n) + k * RoundingSum(k, n - 1)
  }

  function SumTerms(k: nat, n: nat, j: nat): nat
    requires j <= n
  {
    if j == 0 then 0 else SumTerms(k, n, j - 1) + Pow(k, j - 1) * Pow(1000, n - (j - 1))
  }

  /** The recurrence above is the sum it is named for. */
  lemma {:induction false} RoundingSumIs(k: nat, n: nat)
    ensures RoundingSum(k, n) == SumTerms(k, n, n)
  {
    if n > 0 {
      RoundingSumIs(k, n - 1);
      ShiftTerms(k, n, n);
    }
  }

  lemma Distribute(k: nat, t: nat, q: nat, p: nat)
    ensures k * (t + q * p) == k * t + (k * q) * p
  {
    assert k * (t + q * p) == k * t + k * (q * p);
    Associate(k, q, p);
  }

  lemma Associate(a: nat, b: nat, c: nat)
    ensures a * (b * c) == (a * b) * c
  {
  }

  lemma {:induction false} ShiftTerms(k: nat, n: nat, j: nat)
    requires 1 <= j <= n
    ensures SumTerms(k, n, j) == Pow(1000, n) + k * SumTerms(k, n - 1, j - 1)
  {
    if j == 1 {
      assert SumTerms(k, n, 1) == SumTerms(k, n, 0) + Pow(k, 0) * Pow(1000, n);
      assert SumTerms(k, n - 1, 0) == 0;
    } else {
      ShiftTerms(k, n, j - 1);
      NextTerm(k, n, j);
    }
  }

  lemma NextTerm(k: nat, n: nat, j: nat)
    requires 2 <= j <= n
    ensures k * SumTerms(k, n - 1, j - 1) == k * SumTerms(k, n - 1, j - 2) + Pow(k, j - 1) * Pow(1000, n - (j - 1))
  {
    Distribute(k, SumTerms(k, n - 1, j - 2), Pow(k, j - 2), Pow(1000, n - (j - 1)));
  }

  /**
   MAIN: after n bumps, 1000^n times the amount exceeds k^n times the first amount (for n > 0), and by no
   more than what one wei a bump can add up to.
   */
  lemma {:induction false} BumpsBounds(v: nat, k: nat, n: nat)
    ensures Pow(k, n) * v <= Pow(1000, n) * Bumps(v, k, n) <= Pow(k, n) * v + RoundingSum(k, n)
    ensures n > 0 && k > 0 ==> Pow(k, n) * v < Pow(1000, n) * Bumps(v, k, n)
  {
    if n > 0 {
      BumpsBounds(v, k, n - 1);
      OneMoreBump(v, k, n);
    }
  }

  lemma OneMoreBump(v: nat, k: nat, n: nat)
    requires n > 0
    requires Pow(k, n - 1) * v <= Pow(1000, n - 1) * Bumps(v, k, n - 1) <= Pow(k, n - 1) * v + RoundingSum(k, n - 1)
    ensures Pow(k, n) * v < Pow(1000, n) * Bumps(v, k, n) <= Pow(k, n) * v + RoundingSum(k, n)
  {
    var f, g, p := Bumps(v, k, n - 1), Bumps(v, k, n), Pow(1000, n - 1);
    BumpBounds(f, k);
    PowPositive(1000, n - 1);
    BumpStep(p, f, g, k, Pow(k, n - 1) * v, RoundingSum(k, n - 1));
    Associate(k, Pow(k, n - 1), v);
    Swap(p, g);
  }

  lemma Swap(p: nat, g: nat)
    ensures p * (1000 * g) == (1000 * p) * g
  {
    Associate(p, 1000, g);
  }

  /** One bump, with the powers abstracted away. */
  lemma BumpStep(p: nat, f: nat, g: nat, k: nat, q: nat, s: nat)
    requires p > 0 && f * k < 1000 * g <= f * k + 1000
    requires q <= p * f <= q + s
    ensures k * q < p * (1000 * g) <= k * q + (1000 * p + k * s)
  {
    Between(p, f * k, 1000 * g);
    Associate(p, f, k);
    Widen(k, q, p * f, q + s);
    assert k * (q + s) == k * q + k * s;
    assert (p * f) * k == k * (p * f);
  }

  lemma Between(p: nat, a: nat, b: nat)
    requires p > 0 && a < b <= a + 1000
    ensures p * a < p * b <= p * a + 1000 * p
  {
    var d := b - a;
    assert p * (a + d) == p * a + p * d;
    Widen(p, 1, d, 1000);
  }

  lemma Widen(k: nat, a: nat, b: nat, c: nat)
    requires a <= b <= c
    ensures k * a <= k * b <= k * c
  {
  }

  lemma PowPositive(b: nat, n: nat)
    requires b > 0
    ensures Pow(b, n) > 0
  {
  }

  // ----------------------------------------------------------------- fee fields

  /** Strictly more in every field the mode uses. */
  predicate StrictlyMore(mode: Mode, a: FeeFields, b: FeeFields)
    requires WellFormed(mode, a) && WellFormed(mode, b)
  {
    match mode
    case Legacy => a.gasPrice.value < b.gasPrice.value
    case Eip1559 => a.maxFee.value < b.maxFee.value && a.maxPriorityFee.value < b.maxPriorityFee.value
  }

  lemma BumpFeeIncreases(mode: Mode, fee: FeeFields, k: nat)
    requires WellFormed(mode, fee) && k >= 1000
    ensures StrictlyMore(mode, fee, BumpFee(mode, fee, k))
  {
    match mode
    case Legacy => BumpBounds(fee.gasPrice.value, k);
    case Eip1559 => BumpBounds(fee.maxFee.value, k); BumpBounds(fee.maxPriorityFee.value, k);
  }

  /** The requirement of EIP-1559: the priority fee does not exceed the fee cap. */
  predicate PriorityWithinCap(fee: FeeFields)
  {
    fee.maxFee.Some? && fee.maxPriorityFee.Some? ==> fee.maxPriorityFee.value <= fee.maxFee.value
  }

  /** Initialization keeps the requirement exactly: it holds of the attempt's fee iff it held of the base. */
  lemma InitialFeePriority(base: FeeFields)
    requires InitialFee(Eip1559, base).Some?
    ensures PriorityWithinCap(InitialFee(Eip1559, base).value) <==> PriorityWithinCap(base)
  {
  }

  /** MAIN: any number of bumps keeps the requirement exactly: it holds afterwards iff it held before. */
  lemma {:induction false} BumpsKeepPriority(fee: FeeFields, k: nat, n: nat)
    requires WellFormed(Eip1559, fee) && k >= 1000
    ensures PriorityWithinCap(BumpTimes(Eip1559, fee, k, n)) <==> PriorityWithinCap(fee)
  {
    if n > 0 {
      BumpsKeepPriority(fee, k, n - 1);
      var before := BumpTimes(Eip1559, fee, k, n - 1);
      BumpMonotone(before.maxPriorityFee.value, before.maxFee.value, k);
    }
  }

  /** Bumping fee fields bumps each amount. */
  lemma {:induction false} BumpTimesAmounts(mode: Mode, fee: FeeFields, k: nat, n: nat)
    requires WellFormed(mode, fee)
    ensures var b := BumpTimes(mode, fee, k, n);
            match mode
            case Legacy => b.gasPrice.value == Bumps(fee.gasPrice.value, k, n)
            case Eip1559 => b.maxFee.value == Bumps(fee.maxFee.value, k, n) &&
                            b.maxPriorityFee.value == Bumps(fee.maxPriorityFee.value, k, n)
  {
    if n > 0 { BumpTimesAmounts(mode, fee, k, n - 1); }
  }
}
