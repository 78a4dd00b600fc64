/** RFC 3339 timestamps as the ledger writes them, a parser for them, and the order of their texts. */
module Timestamp {
  import opened Text
  import opened CivilDate

  // ------------------------------------------------------------ fixed-width digits

  /** The format `{:0w}`: at least `w` digits, padded with zeros. */
  function Pad(n: nat, w: nat): string
  {
    if |Dec(n)| < w then Zeros(w - |Dec(n)|) + Dec(n) else Dec(n)
  }

  /** The last `w` digits of `n`. */
  function Fixed(n: nat, w: nat): (s: string)
    ensures |s| == w && forall i :: 0 <= i < |s| ==> IsDigit(s[i])
  {
    if w == 0 then "" else Fixed(n / 10, w - 1) + [Digit(n % 10)]
  }

  lemma {:induction false} FixedZero(w: nat)
    ensures Fixed(0, w) == Zeros(w)
  {
    if w > 0 {
      FixedZero(w - 1);
      assert Zeros(w) == Zeros(w - 1) + "0";
    }
  }

  /** A number that fits is padded to exactly `w` digits. */
  lemma {:induction false} PadIsFixed(n: nat, w: nat)
    requires w > 0 && n < Pow10(w)
    ensures Pad(n, w) == Fixed(n, w)
  {
    DecLength(n, w);
    if n < 10 {
      FixedZero(w - 1);
      if w > 1 { assert Zeros(w - 1) + Dec(n) == Pad(n, w); }
    } else {
      PadIsFixed(n / 10, w - 1);
      DecLength(n / 10, w - 1);
      if |Dec(n)| < w {
        var k := w - |Dec(n)|;
        assert Zeros(k) + (Dec(n / 10) + [Digit(n % 10)]) == (Zeros(k) + Dec(n / 10)) + [Digit(n % 10)];
      }
    }
  }

  lemma {:induction false} NatOfFixed(n: nat, w: nat)
    requires n < Pow10(w)
    ensures NatOf(Fixed(n, w)) == n
  {
    if w > 0 {
      NatOfFixed(n / 10, w - 1);
      assert Fixed(n, w)[..w - 1] == Fixed(n / 10, w - 1);
    }
  }

  lemma DigitOrdered(a: nat, b: nat)
    requires a < 10 && b < 10
    ensures LexLess([Digit(a)], [Digit(b)]) <==> a < b
  {
    var x, y := Codes([Digit(a)]), Codes([Digit(b)]);
    assert x[1..] == [] && y[1..] == [];
    assert x[0] == '0' as int + a && y[0] == '0' as int + b;
    assert SeqLess(x, y) <==> x[0] < y[0];
  }

  /** Texts of equal width are ordered as their numbers. */
  lemma {:induction false} FixedOrdered(a: nat, b: nat, w: nat)
    requires a < Pow10(w) && b < Pow10(w)
    ensures LexLess(Fixed(a, w), Fixed(b, w)) <==> a < b
    ensures Fixed(a, w) == Fixed(b, w) <==> a == b
  {
    NatOfFixed(a, w);
    NatOfFixed(b, w);
    if w > 0 {
      FixedOrdered(a / 10, b / 10, w - 1);
      DigitOrdered(a % 10, b % 10);
      LexLessConcat(Fixed(a / 10, w - 1), Fixed(b / 10, w - 1), [Digit(a % 10)], [Digit(b % 10)]);
      assert LexLess(Fixed(a, w), Fixed(b, w)) <==> a < b;
    } else {
      assert Fixed(a, w) == "" && Fixed(b, w) == "";
      SeqLessTotal(Codes(""), Codes(""));
    }
  }

  // -------------------------------------------------------------------- formatting

  /** A date and a time of day in UTC. */
  datatype Fields = Fields(t: Date, hh: nat, mm: nat, ss: nat)

  predicate InRange(f: Fields) { IsDate(f.t) && f.t.y >= 0 && f.hh < 24 && f.mm < 60 && f.ss < 60 }

  /** Time of day `secs` seconds after the epoch, on the date `t`. */
  function OnDate(t: Date, secs: nat): Fields
  {
    var rem := secs % 86_400;
    Fields(t, rem / 3600, rem % 3600 / 60, rem % 60)
  }

  /** Seconds since 1970-01-01T00:00:00Z to text, as the code computes it. */
  function FormatEpochUtc(secs: nat): string
  {
    FormatFields(OnDate(CivilFromDays(secs / 86_400), secs))
  }

  function FormatFields(f: Fields): string { FormatYear(f.t) + FormatTail(f) }

  function NatOr0(n: int): nat { if n < 0 then 0 else n }

  function FormatYear(t: Date): string { Pad(NatOr0(t.y), 4) }

  function Colons(f: Fields): string
  {
    Pad(f.hh, 2) + (":" + (Pad(f.mm, 2) + (":" + (Pad(f.ss, 2) + "Z"))))
  }

  /** Everything after the year: sixteen characters. */
  function FormatTail(f: Fields): string
  {
    "-" + (Pad(NatOr0(f.t.m), 2) + ("-" + (Pad(NatOr0(f.t.d), 2) + ("T" + Colons(f)))))
  }

  // ----------------------------------------------------------------------- parsing

  /** The value of two digit characters. */
  function TwoDigits(a: char, b: char): Option<nat>
  {
    if IsDigit(a) && IsDigit(b)
    then Some((a as int - '0' as int) * 10 + (b as int - '0' as int)) else None
  }

  /** `-MM-DDThh:mm:ssZ`. */
  function ParseTail(year: nat, s: string): Option<Fields>
    requires |s| == 16
  {
    if s[0] == '-' && s[3] == '-' && s[6] == 'T' && s[9] == ':' && s[12] == ':' && s[15] == 'Z' then
      match (TwoDigits(s[1], s[2]), TwoDigits(s[4], s[5]), TwoDigits(s[7], s[8]),
             TwoDigits(s[10], s[11]), TwoDigits(s[13], s[14]))
      case (Some(m), Some(d), Some(hh), Some(mm), Some(ss)) => Some(Fields(Date(year, m, d), hh, mm, ss))
      case _ => None
    else None
  }

  /** A timestamp of section 5.6 of RFC 3339 in UTC and whole seconds; longer years are read too. */
  function ParseFields(s: string): Option<Fields>
  {
    if |s| < 20 || !AllDigits(s[..|s| - 16]) then None
    else
      match ParseTail(NatOf(s[..|s| - 16]), s[|s| - 16..])
      case Some(f) => if InRange(f) then Some(f) else None
      case None => None
  }

  function SecondsOf(f: Fields): int { DaysFromCivil(f.t) * 86_400 + f.hh * 3600 + f.mm * 60 + f.ss }

  /** Text to seconds since the epoch. */
  function ParseUtc(s: string): Option<int>
  {
    match ParseFields(s)
    case Some(f) => Some(SecondsOf(f))
    case None => None
  }

  lemma FixedTwo(n: nat)
    requires n < 100
    ensures Pad(n, 2) == [Digit(n / 10), Digit(n % 10)] && TwoDigits(Digit(n / 10), Digit(n % 10)) == Some(n)
  {
    assert Pow10(2) == 100 by { assert Pow10(1) == 10; }
    PadIsFixed(n, 2);
    assert Fixed(n / 10, 1) == Fixed(n / 10 / 10, 0) + [Digit(n / 10 % 10)];
    assert Fixed(n, 2) == [Digit(n / 10), Digit(n % 10)];
  }

  lemma DigitsRead(n: nat)
    requires n < 100
    ensures TwoDigits(Digit(n / 10), Digit(n % 10)) == Some(n)
  {
    FixedTwo(n);
  }

  lemma ColonsText(f: Fields)
    requires InRange(f)
    ensures Colons(f) == [Digit(f.hh / 10), Digit(f.hh % 10), ':', Digit(f.mm / 10), Digit(f.mm % 10), ':',
                          Digit(f.ss / 10), Digit(f.ss % 10), 'Z']
  {
    FixedTwo(f.hh);
    FixedTwo(f.mm);
    FixedTwo(f.ss);
  }

  lemma TailText(f: Fields)
    requires InRange(f)
    ensures FormatTail(f) == ['-', Digit(f.t.m / 10), Digit(f.t.m % 10), '-', Digit(f.t.d / 10), Digit(f.t.d % 10), 'T']
                             + Colons(f)
  {
    hide Pad, Colons;
    FixedTwo(f.t.m);
    FixedTwo(f.t.d);
  }

  lemma TailParses(f: Fields)
    requires InRange(f)
    ensures |FormatTail(f)| == 16 && ParseTail(f.t.y, FormatTail(f)) == Some(f)
  {
    hide Pad, FormatTail, Colons;
    TailText(f);
    ColonsText(f);
    DigitsRead(f.t.m);
    DigitsRead(f.t.d);
    DigitsRead(f.hh);
    DigitsRead(f.mm);
    DigitsRead(f.ss);
  }

  lemma NatOfPad(n: nat, w: nat)
    ensures AllDigits(Pad(n, w)) && NatOf(Pad(n, w)) == n && |Pad(n, w)| >= w
  {
    NatOfDec(n);
    if |Dec(n)| < w {
      NatOfZeros(w - |Dec(n)|, Dec(n));
    }
  }

  /** Dates of days since the epoch have a year from 1970 on. */
  lemma YearNonNegative(days: nat)
    ensures CivilFromDays(days).y >= 1970
  {
    EpochDay();
    if days > 0 { DatesOrdered(0, days); }
  }

  lemma FieldsParse(f: Fields)
    requires InRange(f)
    ensures ParseFields(FormatFields(f)) == Some(f)
  {
    var year, tail := FormatYear(f.t), FormatTail(f);
    var s := year + tail;
    NatOfPad(f.t.y, 4);
    TailParses(f);
    assert s[..|s| - 16] == year && s[|s| - 16..] == tail;
  }

  lemma SecondsBack(t: Date, secs: nat)
    requires DaysFromCivil(t) == secs / 86_400
    ensures SecondsOf(OnDate(t, secs)) == secs
  {
    var rem := secs % 86_400;
    assert rem == rem / 3600 * 3600 + rem % 3600 / 60 * 60 + rem % 60;
  }

  /** The fields formatted for a number of seconds are a real date and time of day. */
  lemma InRangeOnDay(secs: nat)
    ensures InRange(OnDate(CivilFromDays(secs / 86_400), secs))
  {
    NextDayCorrect(secs / 86_400);
    YearNonNegative(secs / 86_400);
  }

  /** MAIN: parsing a formatted timestamp gives the seconds back, for every number of seconds. */
  lemma FormatParses(secs: nat)
    ensures ParseUtc(FormatEpochUtc(secs)) == Some(secs as int)
  {
    InRangeOnDay(secs);
    FieldsParse(OnDate(CivilFromDays(secs / 86_400), secs));
    RoundTripDays(secs / 86_400);
    SecondsBack(CivilFromDays(secs / 86_400), secs);
  }

  // ------------------------------------------------------------------------- order

  /** The first second of the year 10000. */
  const YEAR_10000: nat := 253_402_300_800

  /** Date and time of day, field by field. */
  predicate FieldsLess(f: Fields, g: Fields)
  {
    DateLess(f.t, g.t) ||
    (f.t == g.t && (f.hh < g.hh || (f.hh == g.hh && (f.mm < g.mm || (f.mm == g.mm && f.ss < g.ss)))))
  }

  lemma PadOrdered(a: nat, b: nat, w: nat, x: string, y: string)
    requires w > 0 && a < Pow10(w) && b < Pow10(w)
    ensures LexLess(Pad(a, w) + x, Pad(b, w) + y) <==> a < b || (a == b && LexLess(x, y))
  {
    PadIsFixed(a, w);
    PadIsFixed(b, w);
    FixedOrdered(a, b, w);
    LexLessConcat(Pad(a, w), Pad(b, w), x, y);
  }

  lemma SameHead(c: string, x: string, y: string)
    ensures LexLess(c + x, c + y) <==> LexLess(x, y)
  {
    LexLessConcat(c, c, x, y);
    SeqLessTotal(Codes(c), Codes(c));
  }

  lemma Powers()
    ensures Pow10(2) == 100 && Pow10(4) == 10_000
  {
    assert Pow10(1) == 10;
    assert Pow10(3) == 1000;
  }

  /** The text order of the times of day. */
  lemma TimeOrdered(f: Fields, g: Fields)
    requires InRange(f) && InRange(g)
    ensures LexLess(Colons(f), Colons(g))
       <==> (f.hh < g.hh || (f.hh == g.hh && (f.mm < g.mm || (f.mm == g.mm && f.ss < g.ss))))
  {
    Powers();
    var x3, y3 := Pad(f.ss, 2) + "Z", Pad(g.ss, 2) + "Z";
    PadOrdered(f.ss, g.ss, 2, "Z", "Z");
    SeqLessTotal(Codes("Z"), Codes("Z"));
    SameHead(":", x3, y3);
    var x2, y2 := Pad(f.mm, 2) + (":" + x3), Pad(g.mm, 2) + (":" + y3);
    PadOrdered(f.mm, g.mm, 2, ":" + x3, ":" + y3);
    SameHead(":", x2, y2);
    PadOrdered(f.hh, g.hh, 2, ":" + x2, ":" + y2);
  }

  lemma TailOrdered(f: Fields, g: Fields)
    requires InRange(f) && InRange(g) && f.t.y == g.t.y
    ensures LexLess(FormatTail(f), FormatTail(g)) <==> FieldsLess(f, g)
  {
    Powers();
    TimeOrdered(f, g);
    var x, y := Colons(f), Colons(g);
    SameHead("T", x, y);
    PadOrdered(f.t.d, g.t.d, 2, "T" + x, "T" + y);
    var x2, y2 := Pad(f.t.d, 2) + ("T" + x), Pad(g.t.d, 2) + ("T" + y);
    SameHead("-", x2, y2);
    PadOrdered(f.t.m, g.t.m, 2, "-" + x2, "-" + y2);
    SameHead("-", Pad(f.t.m, 2) + ("-" + x2), Pad(g.t.m, 2) + ("-" + y2));
  }

  /** With four-digit years the texts are ordered as the fields. */
  lemma FieldsOrdered(f: Fields, g: Fields)
    requires InRange(f) && InRange(g) && f.t.y <= 9999 && g.t.y <= 9999
    ensures LexLess(FormatFields(f), FormatFields(g)) <==> FieldsLess(f, g)
  {
    Powers();
    PadOrdered(f.t.y, g.t.y, 4, FormatTail(f), FormatTail(g));
    if f.t.y == g.t.y { TailOrdered(f, g); }
  }

  lemma ClockSplits(r: nat)
    ensures r == 3600 * (r / 3600) + 60 * (r % 3600 / 60) + r % 60
    ensures r % 3600 / 60 < 60 && r % 60 < 60
  {
    assert r % 60 == (r % 3600) % 60;
  }

  lemma ClockOrdered(t: Date, a: nat, b: nat)
    requires a % 86_400 < b % 86_400
    ensures FieldsLess(OnDate(t, a), OnDate(t, b))
  {
    ClockSplits(a % 86_400);
    ClockSplits(b % 86_400);
  }

  lemma SecondsOrdered(a: nat, b: nat, t: Date, u: Date)
    requires a < b
    requires a / 86_400 < b / 86_400 ==> DateLess(t, u)
    requires a / 86_400 == b / 86_400 ==> t == u
    ensures FieldsLess(OnDate(t, a), OnDate(u, b))
  {
    if a / 86_400 == b / 86_400 { ClockOrdered(t, a, b); }
  }

  lemma DayNumbers()
    ensures DaysFromCivil(Date(9999, 12, 31)) == 2_932_896 && DaysFromCivil(Date(10_000, 1, 1)) == 2_932_897
  {
  }

  lemma DayNumberBack(t: Date, n: int)
    requires IsDate(t) && DaysFromCivil(t) == n
    ensures CivilFromDays(n) == t
  {
    RoundTripDate(t);
  }

  lemma LastFourDigitDay()
    ensures CivilFromDays(2_932_896) == Date(9999, 12, 31) && CivilFromDays(2_932_897) == Date(10_000, 1, 1)
  {
    DayNumbers();
    DayNumberBack(Date(9999, 12, 31), 2_932_896);
    DayNumberBack(Date(10_000, 1, 1), 2_932_897);
  }

  lemma FourDigitYear(days: nat)
    requires days <= 2_932_896
    ensures CivilFromDays(days).y <= 9999
  {
    LastFourDigitDay();
    if days < 2_932_896 { DatesOrdered(days, 2_932_896); }
  }

  lemma EarlierIsLess(a: nat, b: nat)
    requires a < b < YEAR_10000
    ensures LexLess(FormatEpochUtc(a), FormatEpochUtc(b))
  {
    var m, n := a / 86_400, b / 86_400;
    FourDigitYear(m);
    FourDigitYear(n);
    InRangeOnDay(a);
    InRangeOnDay(b);
    if m < n { DatesOrdered(m, n); }
    SecondsOrdered(a, b, CivilFromDays(m), CivilFromDays(n));
    FieldsOrdered(OnDate(CivilFromDays(m), a), OnDate(CivilFromDays(n), b));
  }

  /** The text order equals the numeric order on all times up to and including `last`. */
  ghost predicate OrderFaithfulUpTo(last: nat)
  {
    forall a: nat, b: nat :: a <= last && b <= last ==> (LexLess(FormatEpochUtc(a), FormatEpochUtc(b)) <==> a < b)
  }

  lemma TextOrder(a: nat, b: nat)
    requires a < YEAR_10000 && b < YEAR_10000
    ensures LexLess(FormatEpochUtc(a), FormatEpochUtc(b)) <==> a < b
  {
    if a < b { EarlierIsLess(a, b); }
    if b < a { EarlierIsLess(b, a); }
    LexLessTotal(FormatEpochUtc(a), FormatEpochUtc(b));
  }

  lemma YearTexts()
    ensures Pad(1970, 4) == Fixed(1970, 4) && Pad(10_000, 4) == Fixed(1000, 4) + "0"
  {
    Powers();
    PadIsFixed(1970, 4);
    PadIsFixed(1000, 4);
    DecLength(1000, 3);
    assert Pow10(3) == 1000;
    assert Dec(10_000) == Dec(1000) + "0";
  }

  lemma FiveDigitText(x: string, y: string)
    ensures !LexLess(Pad(1970, 4) + x, Pad(10_000, 4) + y)
  {
    YearTexts();
    Powers();
    assert (Fixed(1000, 4) + "0") + y == Fixed(1000, 4) + ("0" + y);
    FixedOrdered(1970, 1000, 4);
    LexLessConcat(Fixed(1970, 4), Fixed(1000, 4), x, "0" + y);
  }

  /** The first timestamp of the year 10000 sorts before that of the epoch. */
  lemma FiveDigitYearSortsFirst()
    ensures !LexLess(FormatEpochUtc(0), FormatEpochUtc(YEAR_10000))
  {
    EpochDay();
    LastFourDigitDay();
    FiveDigitText(FormatTail(OnDate(CivilFromDays(0), 0)), FormatTail(OnDate(CivilFromDays(2_932_897), YEAR_10000)));
  }

  /** MAIN: sorting timestamps as text is sorting them by time exactly up to the end of the year 9999. */
  lemma TextOrderIsTimeOrder(last: nat)
    ensures OrderFaithfulUpTo(last) <==> last < YEAR_10000
  {
    if last < YEAR_10000 {
      forall a: nat, b: nat | a <= last && b <= last
        ensures LexLess(FormatEpochUtc(a), FormatEpochUtc(b)) <==> a < b
      {
        TextOrder(a, b);
      }
    } else {
      FiveDigitYearSortsFirst();
    }
  }
}
