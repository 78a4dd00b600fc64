/** Integers as doubles: rounding to 53 significant bits and the shortest decimal that still rounds there. */
module Doubles {
  import opened Text
  import opened Backoff

  const P52 := 0x10_0000_0000_0000
  const P53 := 0x20_0000_0000_0000

  /** How many low bits of `n` lie beyond the 53 significant ones. */
  function Excess(n: nat): nat { if n < P53 then 0 else 1 + Excess(n / 2) }

  /** `n / u` to the nearest integer, ties to the even one. */
  function Quotient(n: nat, u: nat): nat
    requires u >= 1
  {
    if 2 * (n % u) > u || (2 * (n % u) == u && n / u % 2 == 1) then n / u + 1 else n / u
  }

  /** The double nearest to `n`, ties to an even significand. */
  function RoundDouble(n: nat): nat
  {
    PowPositive(Excess(n));
    Quotient(n, Pow2(Excess(n))) * Pow2(Excess(n))
  }

  /** The largest multiple of `u` up to `x`. */
  function Floor(x: nat, u: nat): (f: nat)
    requires u >= 1
    ensures f <= x < f + u
  {
    DivMod(x, u);
    x / u * u
  }

  /** Of the two neighbours of `x` the nearer one, on a tie the one with an even last digit. */
  predicate LowerWins(x: nat, u: nat)
    requires u >= 1
  {
    2 * (x % u) < u || (2 * (x % u) == u && x / u % 2 == 0)
  }

  /**
   The decimal with the most trailing zeros that `round` takes to `x`, looked for among the neighbours of
   `x` with `j` trailing zeros, then with fewer.
   */
  function Shortest(round: nat -> nat, x: nat, j: nat): nat
  {
    if j == 0 then x
    else
      var u := Pow10(j);
      var below := Floor(x, u);
      var above := below + u;
      if round(below) == x && round(above) == x then if LowerWins(x, u) then below else above
      else if round(below) == x then below
      else if round(above) == x then above
      else Shortest(round, x, j - 1)
  }

  /** The integer whose digits a library prints for the double nearest to `n`. */
  function Printed(n: nat): nat { Shortest(RoundDouble, RoundDouble(n), |Dec(RoundDouble(n))|) }

  // ------------------------------------------------------- division and powers

  lemma PowPositive(e: nat)
    ensures Pow2(e) >= 1
  {
    Pow2Grows(0, e);
  }

  lemma DivMod(n: nat, u: nat)
    requires u >= 1
    ensures n == n / u * u + n % u && n % u < u
  {
  }

  lemma DivUnique(n: nat, u: nat, q: nat, r: nat)
    requires n == q * u + r && r < u
    ensures n / u == q && n % u == r
  {
    DivMod(n, u);
    if n / u > q { Scaled(u, q + 1, n / u); }
    if n / u < q { Scaled(u, n / u + 1, q); }
  }

  lemma Above(a: nat, b: nat, u: nat)
    requires a > b
    ensures a * u >= b * u + u
  {
    Scaled(u, b + 1, a);
  }

  lemma DivMonotone(n: nat, m: nat, u: nat)
    requires n <= m && u >= 1
    ensures n / u <= m / u && (n / u == m / u ==> n % u <= m % u)
  {
    DivMod(n, u);
    DivMod(m, u);
    var a, b := n / u, m / u;
    if a > b { Above(a, b, u); }
  }

  lemma QuotientExact(k: nat, u: nat)
    requires u >= 1
    ensures Quotient(k * u, u) == k
  {
    DivUnique(k * u, u, k, 0);
  }

  lemma QuotientMonotone(n: nat, m: nat, u: nat)
    requires n <= m && u >= 1
    ensures Quotient(n, u) <= Quotient(m, u)
  {
    DivMonotone(n, m, u);
  }

  lemma QuotientBetween(n: nat, u: nat, lo: nat, hi: nat)
    requires u >= 1 && lo * u <= n <= hi * u
    ensures lo <= Quotient(n, u) <= hi
  {
    QuotientMonotone(lo * u, n, u);
    QuotientMonotone(n, hi * u, u);
    QuotientExact(lo, u);
    QuotientExact(hi, u);
  }

  // ------------------------------------------------------------ rounding

  lemma {:induction false} ExcessBounds(n: nat)
    ensures n < P53 * Pow2(Excess(n))
    ensures n >= P53 ==> P52 * Pow2(Excess(n)) <= n && Excess(n) >= 1
  {
    if n >= P53 { ExcessBounds(n / 2); }
  }

  lemma {:induction false} ExcessOf(m: nat, e: nat)
    requires P52 <= m < P53
    ensures Excess(m * Pow2(e)) == e
  {
    if e > 0 {
      ExcessOf(m, e - 1);
      assert m * Pow2(e) == 2 * (m * Pow2(e - 1));
      PowPositive(e - 1);
      Scaled(m, 1, Pow2(e - 1));
    }
  }

  /** 53 significant bits are a double. */
  lemma RoundFixed(m: nat, e: nat)
    requires P52 <= m < P53
    ensures RoundDouble(m * Pow2(e)) == m * Pow2(e)
  {
    ExcessOf(m, e);
    PowPositive(e);
    QuotientExact(m, Pow2(e));
  }

  lemma RoundSmall(n: nat)
    requires n < P53
    ensures RoundDouble(n) == n
  {
    QuotientExact(n, 1);
  }

  /** The significand a large number is rounded to. */
  lemma RoundParts(n: nat) returns (m: nat)
    requires n >= P53
    ensures P52 <= m <= P53 && RoundDouble(n) == m * Pow2(Excess(n)) && Excess(n) >= 1
  {
    ExcessBounds(n);
    PowPositive(Excess(n));
    QuotientBetween(n, Pow2(Excess(n)), P52, P53);
    m := Quotient(n, Pow2(Excess(n)));
  }

  lemma RoundIdempotent(n: nat)
    ensures RoundDouble(RoundDouble(n)) == RoundDouble(n)
  {
    if n < P53 {
      RoundSmall(n);
    } else {
      var m := RoundParts(n);
      if m < P53 {
        RoundFixed(m, Excess(n));
      } else {
        assert P53 * Pow2(Excess(n)) == P52 * Pow2(Excess(n) + 1);
        RoundFixed(P52, Excess(n) + 1);
      }
    }
  }

  lemma RoundWithin(n: nat)
    requires n >= P53
    ensures P52 * Pow2(Excess(n)) <= RoundDouble(n) <= P53 * Pow2(Excess(n)) && Excess(n) >= 1
  {
    var m := RoundParts(n);
    SignificandWithin(RoundDouble(n), m, Pow2(Excess(n)));
  }

  lemma SignificandWithin(r: nat, m: nat, u: nat)
    requires r == m * u && P52 <= m <= P53
    ensures P52 * u <= r <= P53 * u
  {
    Scaled(u, P52, m);
    Scaled(u, m, P53);
  }

  lemma TwiceEven(m: nat, h: nat)
    ensures m * (2 * h) % 2 == 0
  {
    assert m * (2 * h) == 2 * (m * h);
  }

  lemma RoundLarge(n: nat)
    requires n >= P53
    ensures RoundDouble(n) >= P53 && RoundDouble(n) % 2 == 0
  {
    RoundWithin(n);
    PowPositive(Excess(n) - 1);
    var m := RoundParts(n);
    TwiceEven(m, Pow2(Excess(n) - 1));
  }

  lemma {:induction false} ExcessMonotone(n: nat, m: nat)
    requires n <= m
    ensures Excess(n) <= Excess(m)
  {
    if n >= P53 { ExcessMonotone(n / 2, m / 2); }
  }

  /** Rounding keeps the order of integers. */
  lemma RoundMonotone(n: nat, m: nat)
    requires n <= m
    ensures RoundDouble(n) <= RoundDouble(m)
  {
    hide Excess, Quotient, Pow2;
    if n < P53 {
      RoundSmall(n);
      if m < P53 { RoundSmall(m); } else { RoundLarge(m); }
    } else {
      ExcessMonotone(n, m);
      if Excess(n) < Excess(m) {
        RoundAcross(n, m);
      } else {
        PowPositive(Excess(n));
        QuotientMonotone(n, m, Pow2(Excess(n)));
        Scaled(Pow2(Excess(n)), Quotient(n, Pow2(Excess(n))), Quotient(m, Pow2(Excess(n))));
      }
    }
  }

  lemma RoundAcross(n: nat, m: nat)
    requires P53 <= n <= m && Excess(n) < Excess(m)
    ensures RoundDouble(n) <= RoundDouble(m)
  {
    RoundWithin(n);
    RoundWithin(m);
    Pow2Grows(Excess(n) + 1, Excess(m));
  }

  // ------------------------------------------------------------- printing

  lemma {:induction false} ShortestRounds(round: nat -> nat, x: nat, j: nat)
    requires round(x) == x
    ensures round(Shortest(round, x, j)) == x
  {
    if j > 0 { ShortestRounds(round, x, j - 1); }
  }

  /** What is printed denotes the double that was rounded to. */
  lemma PrintedRounds(n: nat)
    ensures RoundDouble(Printed(n)) == RoundDouble(n) && Printed(Printed(n)) == Printed(n)
  {
    RoundIdempotent(n);
    ShortestRounds(RoundDouble, RoundDouble(n), |Dec(RoundDouble(n))|);
  }

  /** Every integer below 2^53 is printed as itself. */
  lemma PrintedSmall(n: nat)
    requires n < P53
    ensures Printed(n) == n
  {
    RoundSmall(n);
    PrintedRounds(n);
    if Printed(n) >= P53 { RoundLarge(Printed(n)); } else { RoundSmall(Printed(n)); }
  }

  lemma TensAround(x: nat, h: nat)
    requires h >= 1
    ensures Floor(x, 10 * h) % 10 == 0 && (Floor(x, 10 * h) + 10 * h) % 10 == 0
  {
    var q := x / (10 * h);
    assert q * (10 * h) == 10 * (q * h);
  }

  lemma {:induction false} ShortestShape(round: nat -> nat, x: nat, j: nat)
    ensures Shortest(round, x, j) == x || Shortest(round, x, j) % 10 == 0
  {
    if j > 0 {
      ShortestShape(round, x, j - 1);
      TensAround(x, Pow10(j - 1));
    }
  }

  lemma EvenShortest(round: nat -> nat, x: nat, j: nat)
    requires x % 2 == 0
    ensures Shortest(round, x, j) % 2 == 0
  {
    hide Shortest;
    ShortestShape(round, x, j);
    var y := Shortest(round, x, j);
    DivMod(y, 10);
    if y % 10 == 0 { assert y == 2 * (5 * (y / 10)); }
  }

  /** No odd integer from 2^53 on is printed as itself. */
  lemma PrintedOdd(n: nat)
    requires n >= P53 && n % 2 == 1
    ensures Printed(n) != n
  {
    RoundLarge(n);
    EvenShortest(RoundDouble, RoundDouble(n), |Dec(RoundDouble(n))|);
  }

  // ------------------------------------------- nothing shorter denotes the double

  ghost predicate Multiple(y: nat, u: nat) { exists k: nat :: y == k * u }

  lemma MultiplesAround(y: nat, x: nat, u: nat)
    requires u >= 1 && Multiple(y, u)
    ensures if y <= x then y <= Floor(x, u) else y >= Floor(x, u) + u
  {
    var k: nat :| y == k * u;
    var q := x / u;
    if k > q { Above(k, q, u); } else { Scaled(u, k, q); }
  }

  lemma FloorMultiple(x: nat, u: nat)
    requires u >= 1
    ensures Multiple(Floor(x, u), u) && Multiple(Floor(x, u) + u, u)
  {
    assert Floor(x, u) + u == (x / u + 1) * u;
  }

  lemma {:induction false} FewerZeros(y: nat, i: nat, j: nat)
    requires i <= j && Multiple(y, Pow10(j))
    ensures Multiple(y, Pow10(i))
  {
    if i < j {
      var k: nat :| y == k * Pow10(j);
      assert y == (10 * k) * Pow10(j - 1);
      FewerZeros(y, i, j - 1);
    }
  }

  ghost predicate Monotone(round: nat -> nat) { forall a: nat, b: nat | a <= b :: round(a) <= round(b) }

  lemma {:induction false} ShortestZeros(round: nat -> nat, x: nat, j: nat, y: nat, i: nat)
    requires Monotone(round) && round(x) == x && round(y) == x
    requires i <= j && Multiple(y, Pow10(i))
    ensures Multiple(Shortest(round, x, j), Pow10(i))
  {
    if j == 0 {
      assert x == x * Pow10(0);
    } else {
      FloorMultiple(x, Pow10(j));
      FewerZeros(Floor(x, Pow10(j)), i, j);
      FewerZeros(Floor(x, Pow10(j)) + Pow10(j), i, j);
      if i < j { ShortestZeros(round, x, j - 1, y, i); } else { MultiplesAround(y, x, Pow10(j)); }
    }
  }

  /** No integer that rounds to the same double has more trailing zeros than the one printed. */
  lemma PrintedIsShortest(n: nat, y: nat, i: nat)
    requires RoundDouble(y) == RoundDouble(n) && Multiple(y, Pow10(i))
    requires i <= |Dec(RoundDouble(n))|
    ensures Multiple(Printed(n), Pow10(i))
  {
    RoundIdempotent(n);
    forall a: nat, b: nat | a <= b ensures RoundDouble(a) <= RoundDouble(b) { RoundMonotone(a, b); }
    ShortestZeros(RoundDouble, RoundDouble(n), |Dec(RoundDouble(n))|, y, i);
  }
}
