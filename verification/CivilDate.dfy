/** The Gregorian calendar conversion behind the ledger's timestamps. */
module CivilDate {

  datatype Date = Date(y: int, m: int, d: int)

  // ----------------------------------------------------------- the conversion

  /** Rust's `/` on i64 truncates toward zero. */
  function TruncDiv(a: int, b: int): int
    requires b > 0
  {
    if a >= 0 then a / b else -((-a) / b)
  }

  /** Days since 1970-01-01 to a date, step by step as the code computes it. */
  function CivilFromDays(days: int): Date
  {
    var z := days + 719_468;
    var era := TruncDiv(if z >= 0 then z else z - 146_096, 146_097);
    var doe := z - era * 146_097;
    var yoe := (doe - doe / 1460 + doe / 36_524 - doe / 146_096) / 365;
    Assemble(yoe + era * 400, doe - (365 * yoe + yoe / 4 - yoe / 100))
  }

  /** First day, within a year that starts in March, of the month `mp` counted from March. */
  function MonthStart(mp: int): int { (153 * mp + 2) / 5 }

  /** The date of day `doy` of the year `y` that starts in March. */
  function Assemble(y: int, doy: int): Date
  {
    var mp := (5 * doy + 2) / 153;
    var d := doy - MonthStart(mp) + 1;
    var m := if mp < 10 then mp + 3 else mp - 9;
    Date(if m <= 2 then y + 1 else y, m, d)
  }

  // ------------------------------------------------- the calendar, independently

  predicate IsLeap(y: int) { y % 4 == 0 && (y % 100 != 0 || y % 400 == 0) }

  function DaysInMonth(y: int, m: int): int
  {
    if m == 2 then if IsLeap(y) then 29 else 28
    else if m == 4 || m == 6 || m == 9 || m == 11 then 30
    else 31
  }

  predicate IsDate(t: Date) { 1 <= t.m <= 12 && 1 <= t.d <= DaysInMonth(t.y, t.m) }

  function NextDay(t: Date): Date
  {
    if t.d < DaysInMonth(t.y, t.m) then Date(t.y, t.m, t.d + 1)
    else if t.m < 12 then Date(t.y, t.m + 1, 1)
    else Date(t.y + 1, 1, 1)
  }

  predicate DateLess(a: Date, b: Date)
  {
    a.y < b.y || (a.y == b.y && (a.m < b.m || (a.m == b.m && a.d < b.d)))
  }

  // ------------------------------------------------- years of an era of 400 years

  /** First day, within its era, of the year `y` that starts in March. */
  function YearStart(y: int): int { 365 * y + y / 4 - y / 100 + y / 400 }

  function YearLength(y: int): int { YearStart(y + 1) - YearStart(y) }

  /** The day count with leap days taken out, as the code estimates it. */
  function Flat(doe: int): int { doe - doe / 1460 + doe / 36_524 - doe / 146_096 }

  lemma FlatStep(doe: int)
    requires 0 <= doe < 146_096
    ensures Flat(doe) <= Flat(doe + 1)
  {
    var a, b := doe / 36_524, (doe + 1) / 36_524;
    assert (doe + 1) / 146_096 == b / 4 && doe / 146_096 == a / 4;
    assert a <= b <= a + 1;
    assert doe / 1460 <= (doe + 1) / 1460 <= doe / 1460 + 1;
  }

  lemma {:induction false} FlatMonotone(a: int, b: int)
    requires 0 <= a <= b <= 146_096
    ensures Flat(a) <= Flat(b)
    decreases b - a
  {
    if a < b {
      FlatMonotone(a, b - 1);
      FlatStep(b - 1);
    }
  }

  lemma YearStartQuotients(y: int)
    requires 0 <= y < 400
    ensures YearStart(y) / 1460 == y / 4 && YearStart(y) / 36_524 == y / 100 && YearStart(y) / 146_096 == 0
    ensures 0 <= YearStart(y) < 146_096
  {
    var q, c := y / 4, y / 100;
    var s := 365 * y + q - c;
    assert y / 400 == 0;
    assert 4 * q <= y <= 4 * q + 3 && 100 * c <= y <= 100 * c + 99;
    assert 25 * c <= q <= 25 * c + 24;
    assert 1460 * q <= s < 1460 * q + 1460;
    assert 36_524 * c <= s < 36_524 * c + 36_524;
  }

  /** At the first day of a year the flat count is 365 days a year; the day before it is less. */
  lemma FlatAtYearStart(y: int)
    requires 0 <= y < 400
    ensures Flat(YearStart(y)) == 365 * y
    ensures y > 0 ==> Flat(YearStart(y) - 1) < 365 * y
  {
    YearStartQuotients(y);
    if y > 0 {
      var s, q, c := YearStart(y), y / 4, y / 100;
      assert s == 365 * y + q - c;
      assert s - 1460 * q == 365 * (y - 4 * q) + (q - c);
      assert q - c > 0 || y - 4 * q > 0;
      assert (s - 1) / 1460 == q;
      assert (s - 1) / 36_524 <= c && (s - 1) / 146_096 == 0;
    }
  }

  lemma EstimateRange(doe: int)
    requires 0 <= doe < 146_097
    ensures 0 <= Flat(doe) < 146_000
  {
    FlatMonotone(0, doe);
    FlatMonotone(doe, 146_096);
    assert Flat(0) == 0 && Flat(146_096) == 145_999;
  }

  /** A day before the first day of year `y` has a smaller flat count, one after it no smaller. */
  lemma FlatSeparatesYears(doe: int, y: int)
    requires 0 <= doe < 146_097 && 0 <= y < 400
    ensures doe < YearStart(y) <==> Flat(doe) < 365 * y
  {
    FlatAtYearStart(y);
    YearStartQuotients(y);
    if doe < YearStart(y) {
      FlatMonotone(doe, YearStart(y) - 1);
    } else {
      FlatMonotone(YearStart(y), doe);
    }
  }

  /** The estimate finds the year that contains the day. */
  lemma YearOfEra(doe: int)
    requires 0 <= doe < 146_097
    ensures var y := Flat(doe) / 365; 0 <= y < 400 && YearStart(y) <= doe < YearStart(y + 1)
  {
    EstimateRange(doe);
    var y := Flat(doe) / 365;
    FlatSeparatesYears(doe, y);
    if y < 399 { FlatSeparatesYears(doe, y + 1); } else { assert YearStart(400) == 146_097; }
  }

  lemma YearStartMonotone(a: int, b: int)
    requires a <= b
    ensures YearStart(a) <= YearStart(b)
  {
    assert a / 4 <= b / 4 && a / 400 <= b / 400;
    assert b / 100 - a / 100 <= b - a;
  }

  lemma YearLengthIs(y: int)
    ensures YearLength(y) == if IsLeap(y + 1) then 366 else 365
  {
    assert (y + 1) / 4 == y / 4 + (if (y + 1) % 4 == 0 then 1 else 0);
    assert (y + 1) / 100 == y / 100 + (if (y + 1) % 100 == 0 then 1 else 0);
    assert (y + 1) / 400 == y / 400 + (if (y + 1) % 400 == 0 then 1 else 0);
  }

  // ------------------------------------------------------------ months of a year

  lemma MonthOfYear(doy: int)
    requires 0 <= doy < 366
    ensures var mp := (5 * doy + 2) / 153; 0 <= mp < 12 && MonthStart(mp) <= doy < MonthStart(mp + 1)
  {
  }

  lemma MonthTable()
    ensures MonthStart(0) == 0 && MonthStart(1) == 31 && MonthStart(2) == 61 && MonthStart(3) == 92
    ensures MonthStart(4) == 122 && MonthStart(5) == 153 && MonthStart(6) == 184 && MonthStart(7) == 214
    ensures MonthStart(8) == 245 && MonthStart(9) == 275 && MonthStart(10) == 306 && MonthStart(11) == 337
  {
  }

  lemma AssembledIsDate(y: int, doy: int)
    requires 0 <= doy < YearLength(y)
    ensures IsDate(Assemble(y, doy))
  {
    YearLengthIs(y);
    MonthOfYear(doy);
    MonthTable();
  }

  lemma AssembleNextInYear(y: int, doy: int)
    requires 0 <= doy && doy + 1 < YearLength(y)
    ensures NextDay(Assemble(y, doy)) == Assemble(y, doy + 1)
  {
    YearLengthIs(y);
    MonthOfYear(doy);
    MonthOfYear(doy + 1);
    MonthTable();
  }

  lemma AssembleYearEnd(y: int)
    ensures NextDay(Assemble(y, YearLength(y) - 1)) == Assemble(y + 1, 0)
  {
    YearLengthIs(y);
    MonthTable();
  }

  // --------------------------------------------------------- decomposing a day

  lemma EraOf(z: int, era: int, doe: int)
    requires z == era * 146_097 + doe && 0 <= doe < 146_097
    ensures TruncDiv(if z >= 0 then z else z - 146_096, 146_097) == era
  {
    if z >= 0 {
      assert z / 146_097 == era;
    } else {
      assert era <= -1;
      var n := 146_096 - z;
      assert n == (-era) * 146_097 + (146_096 - doe);
      assert n / 146_097 == -era;
    }
  }

  lemma YearStartOfEra(era: int, yoe: int)
    requires 0 <= yoe <= 400
    ensures YearStart(400 * era + yoe) == 146_097 * era + YearStart(yoe)
  {
    assert (400 * era + yoe) / 4 == 100 * era + yoe / 4;
    assert (400 * era + yoe) / 100 == 4 * era + yoe / 100;
    assert (400 * era + yoe) / 400 == era + yoe / 400;
  }

  lemma YearFound(doe: int, yoe: int)
    requires 0 <= yoe < 400 && YearStart(yoe) <= doe < YearStart(yoe + 1) && 0 <= doe < 146_097
    ensures Flat(doe) / 365 == yoe
  {
    YearOfEra(doe);
    var found := Flat(doe) / 365;
    if found < yoe { YearStartMonotone(found + 1, yoe); }
    if yoe < found { YearStartMonotone(yoe + 1, found); }
  }

  /** The code's steps, given what its era and year-of-era come to. */
  lemma CivilSteps(days: int, era: int, doe: int, yoe: int)
    requires days + 719_468 == era * 146_097 + doe && 0 <= doe < 146_097
    requires 0 <= yoe < 400 && Flat(doe) / 365 == yoe
    requires TruncDiv(if days + 719_468 >= 0 then days + 719_468 else days + 719_468 - 146_096, 146_097) == era
    ensures CivilFromDays(days) == Assemble(yoe + era * 400, doe - YearStart(yoe))
  {
    assert yoe / 400 == 0;
  }

  lemma YearsOfEraBound(yoe: int)
    requires 0 <= yoe < 400
    ensures 0 <= YearStart(yoe) && YearStart(yoe + 1) <= 146_097
  {
    YearStartMonotone(0, yoe);
    YearStartMonotone(yoe + 1, 400);
    assert YearStart(0) == 0 && YearStart(400) == 146_097;
  }

  /** A day is day `doy` of exactly one March year, and its date is assembled from the two. */
  lemma Decompose(days: int, y: int, doy: int)
    requires 0 <= doy < YearLength(y) && days + 719_468 == YearStart(y) + doy
    ensures CivilFromDays(days) == Assemble(y, doy)
  {
    var era, yoe := y / 400, y % 400;
    var doe := YearStart(yoe) + doy;
    YearStartOfEra(era, yoe);
    YearStartOfEra(era, yoe + 1);
    YearsOfEraBound(yoe);
    YearFound(doe, yoe);
    EraOf(days + 719_468, era, doe);
    CivilSteps(days, era, doe, yoe);
  }

  /** Every day has such a decomposition. */
  lemma Decomposition(days: int) returns (y: int, doy: int)
    ensures 0 <= doy < YearLength(y) && days + 719_468 == YearStart(y) + doy
  {
    var z := days + 719_468;
    var era, doe := z / 146_097, z % 146_097;
    YearOfEra(doe);
    var yoe := Flat(doe) / 365;
    y, doy := 400 * era + yoe, doe - YearStart(yoe);
    YearStartOfEra(era, yoe);
    YearStartOfEra(era, yoe + 1);
  }

  // ---------------------------------------------------------------- the theorems

  lemma EpochDay()
    ensures CivilFromDays(0) == Date(1970, 1, 1)
  {
  }

  lemma NextDayInYear(days: int, y: int, doy: int)
    requires 0 <= doy && doy + 1 < YearLength(y) && days + 719_468 == YearStart(y) + doy
    ensures CivilFromDays(days + 1) == NextDay(Assemble(y, doy))
  {
    Decompose(days + 1, y, doy + 1);
    AssembleNextInYear(y, doy);
  }

  lemma NextDayAtYearEnd(days: int, y: int)
    requires days + 719_468 == YearStart(y) + YearLength(y) - 1
    ensures CivilFromDays(days + 1) == NextDay(Assemble(y, YearLength(y) - 1))
  {
    YearLengthIs(y + 1);
    Decompose(days + 1, y + 1, 0);
    AssembleYearEnd(y);
  }

  /** MAIN: the day after day `z` is the calendar's next day, and every result is a real date. */
  lemma NextDayCorrect(days: int)
    ensures IsDate(CivilFromDays(days))
    ensures CivilFromDays(days + 1) == NextDay(CivilFromDays(days))
  {
    var y, doy := Decomposition(days);
    Decompose(days, y, doy);
    AssembledIsDate(y, doy);
    if doy + 1 < YearLength(y) { NextDayInYear(days, y, doy); } else { NextDayAtYearEnd(days, y); }
  }

  /** The March year and the day in it of a date. */
  function MarchYear(t: Date): int { if t.m <= 2 then t.y - 1 else t.y }

  function DayOfYear(t: Date): int
  {
    MonthStart(if t.m > 2 then t.m - 3 else t.m + 9) + t.d - 1
  }

  /** The explicit inverse: days since 1970-01-01 of a date. */
  function DaysFromCivil(t: Date): int
  {
    YearStart(MarchYear(t)) + DayOfYear(t) - 719_468
  }

  lemma AssembleInverse(t: Date)
    requires IsDate(t)
    ensures 0 <= DayOfYear(t) < YearLength(MarchYear(t)) && Assemble(MarchYear(t), DayOfYear(t)) == t
  {
    YearLengthIs(MarchYear(t));
    MonthTable();
  }

  lemma DaysOfAssembled(y: int, doy: int)
    requires 0 <= doy < YearLength(y)
    ensures MarchYear(Assemble(y, doy)) == y && DayOfYear(Assemble(y, doy)) == doy
  {
    YearLengthIs(y);
    MonthOfYear(doy);
    MonthTable();
  }

  /** MAIN: the conversion is a bijection between days and dates. */
  lemma RoundTripDays(days: int)
    ensures DaysFromCivil(CivilFromDays(days)) == days
  {
    var y, doy := Decomposition(days);
    Decompose(days, y, doy);
    DaysOfAssembled(y, doy);
  }

  lemma RoundTripDate(t: Date)
    requires IsDate(t)
    ensures CivilFromDays(DaysFromCivil(t)) == t
  {
    AssembleInverse(t);
    Decompose(DaysFromCivil(t), MarchYear(t), DayOfYear(t));
  }

  lemma NextDayLater(s: Date, t: Date)
    requires IsDate(t) && (s == t || DateLess(s, t))
    ensures DateLess(s, NextDay(t))
  {
  }

  lemma {:induction false} CalendarOrdered(f: int -> Date, a: int, b: int)
    requires forall z :: IsDate(f(z)) && f(z + 1) == NextDay(f(z))
    requires a < b
    ensures DateLess(f(a), f(b))
    decreases b - a
  {
    if a < b - 1 { CalendarOrdered(f, a, b - 1); }
    assert f(b - 1 + 1) == NextDay(f(b - 1));
    NextDayLater(f(a), f(b - 1));
  }

  /** Later days have later dates. */
  lemma DatesOrdered(a: int, b: int)
    requires a < b
    ensures DateLess(CivilFromDays(a), CivilFromDays(b))
  {
    var f := z => CivilFromDays(z);
    forall z ensures IsDate(f(z)) && f(z + 1) == NextDay(f(z)) { NextDayCorrect(z); }
    CalendarOrdered(f, a, b);
  }
}
