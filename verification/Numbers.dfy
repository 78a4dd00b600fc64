/**
 JSON numbers: integers of any size, and doubles given by their shortest decimal digits, with the texts
 the ports write for them and the number grammar of section 6 of RFC 8259.
 */
module Numbers {
  import opened Text

  /** The number 0.digits * 10^point with its sign. */
  datatype Shape = Shape(neg: bool, digits: string, point: int)

  /** No leading and no trailing zero, so that a number has one shape; zero has no digits. */
  predicate IsDecimal(d: Shape)
  {
    if d.digits == "" then d.point == 0
    else AllDigits(d.digits) && d.digits[0] != '0' && d.digits[|d.digits| - 1] != '0'
  }

  type Decimal = d: Shape | IsDecimal(d) witness Shape(false, "", 0)

  datatype Number = Int(n: int) | Real(d: Decimal)

  /**
   How a library writes doubles: positionally while the decimal point lies within `low < point <= high`,
   otherwise with an exponent, whose plus sign and second digit may or may not be written.
   */
  datatype Notation = Notation(low: int, high: int, plus: bool, padded: bool)

  /** Python's `repr` and JavaScript's `Number::toString`. */
  const REPR := Notation(-4, 16, true, true)
  const ECMA := Notation(-6, 21, true, false)

  /**
   How a library makes a double of a number in a text: of one with a fraction or an exponent, and of an
   integer it has no integer type for. A library that rounds correctly gives every written double back.
   */
  datatype Reader = Reader(double: Decimal -> Decimal, wide: int -> Decimal)

  // -------------------------------------------------------------- writing

  function EncodeInt(n: int): (r: string)
    ensures r != "" && (r[0] == '-' || IsDigit(r[0]))
    ensures forall i :: 0 <= i < |r| ==> r[i] == '-' || IsDigit(r[i])
  {
    if n < 0 then "-" + Dec(-n) else Dec(n)
  }

  /** Whether a double is written without an exponent. */
  predicate Positional(t: Notation, d: Decimal) { d.digits == "" || t.low < d.point <= t.high }

  /** The digits before the point. */
  function WholeOf(t: Notation, d: Decimal): (s: string)
    ensures s != "" && AllDigits(s) && (|s| > 1 ==> s[0] != '0')
  {
    if d.digits == "" then "0"
    else if !Positional(t, d) then d.digits[..1]
    else if d.point <= 0 then "0"
    else if d.point < |d.digits| then d.digits[..d.point]
    else d.digits + Zeros(d.point - |d.digits|)
  }

  /** The digits after the point, which is written only if there are any. */
  function FracOf(t: Notation, d: Decimal): (s: string)
    ensures AllDigits(s) && (Positional(t, d) ==> s != "")
  {
    if d.digits == "" then "0"
    else if !Positional(t, d) then d.digits[1..]
    else if d.point <= 0 then Zeros(-d.point) + d.digits
    else if d.point < |d.digits| then d.digits[d.point..]
    else "0"
  }

  /** The digits of an exponent, padded or not. */
  function ExpDigits(t: Notation, e: int): string
  {
    (if t.padded && -10 < e < 10 then "0" else "") + Dec(if e < 0 then -e else e)
  }

  function ExpSign(t: Notation, e: int): string
  {
    if e < 0 then "e-" else if t.plus then "e+" else "e"
  }

  /** The exponent as it is written. */
  function ExpText(t: Notation, e: int): string { ExpSign(t, e) + ExpDigits(t, e) }

  function PointText(frac: string): string { if frac == "" then "" else "." + frac }

  function DoubleText(t: Notation, d: Decimal): string
  {
    (if d.neg then "-" else "") + (WholeOf(t, d) + Tail(t, d))
  }

  /** What is written after the whole part. */
  function Tail(t: Notation, d: Decimal): string { PointText(FracOf(t, d)) + ExponentOf(t, d) }

  function ExponentOf(t: Notation, d: Decimal): string
  {
    if Positional(t, d) then "" else ExpText(t, d.point - 1)
  }

  function NumberText(t: Notation, x: Number): string
  {
    match x case Int(n) => EncodeInt(n) case Real(d) => DoubleText(t, d)
  }

  // -------------------------------------------------------------- reading

  predicate At(s: string, c: char) { s != "" && s[0] == c }

  /** The text before the trailing zeros. */
  function TrimZeros(s: string): (r: string)
    ensures |r| <= |s| && r == s[..|r|]
    ensures r != "" ==> r[|r| - 1] != '0'
  {
    if s != "" && s[|s| - 1] == '0' then TrimZeros(s[..|s| - 1]) else s
  }

  /** The number of leading zeros. */
  function ZeroRun(s: string): (k: nat)
    ensures k <= |s| && (forall i :: 0 <= i < k ==> s[i] == '0') && (k < |s| ==> s[k] != '0')
  {
    if s == "" || s[0] != '0' then 0 else 1 + ZeroRun(s[1..])
  }

  /** The double written as `whole.frac` times 10^e. */
  function Normal(neg: bool, whole: string, frac: string, e: int): (d: Decimal)
    requires AllDigits(whole) && AllDigits(frac)
  {
    var s := whole + frac;
    var z := ZeroRun(s);
    var digits := TrimZeros(s[z..]);
    assert digits != "" ==> digits[0] == s[z] && AllDigits(digits);
    if digits == "" then Shape(neg, "", 0) else Shape(neg, digits, |whole| - z + e)
  }

  /** An optional point and the digits after it. */
  function ParseFrac(s: string): (r: Option<(string, string)>)
    ensures r.Some? ==> AllDigits(r.value.0) && |r.value.1| <= |s|
  {
    if !At(s, '.') then Some(("", s))
    else
      var k := DigitRun(s[1..]);
      if k == 0 then None else Some((s[1..][..k], s[1..][k..]))
  }

  function ParseExpDigits(minus: bool, digits: string): (r: Option<(Option<int>, string)>)
    ensures r.Some? ==> |r.value.1| <= |digits|
  {
    var k := DigitRun(digits);
    if k == 0 then None
    else
      var e: int := NatOf(digits[..k]);
      Some((Some(if minus then -e else e), digits[k..]))
  }

  /** An optional exponent. */
  function ParseExp(s: string): (r: Option<(Option<int>, string)>)
    ensures r.Some? ==> |r.value.1| <= |s|
  {
    if !At(s, 'e') && !At(s, 'E') then Some((None, s))
    else
      if At(s[1..], '-') then ParseExpDigits(true, s[2..])
      else if At(s[1..], '+') then ParseExpDigits(false, s[2..])
      else ParseExpDigits(false, s[1..])
  }

  /** A number after its sign. */
  function ParseMagnitude(neg: bool, digits: string): (r: Option<(Number, string)>)
    ensures r.Some? ==> |r.value.1| < |digits|
  {
    var k := DigitRun(digits);
    if k == 0 || (k > 1 && digits[0] == '0') then None
    else
      match ParseFrac(digits[k..])
      case None => None
      case Some((frac, more)) =>
        match ParseExp(more)
        case None => None
        case Some((e, rest)) => Some((NumberOf(neg, digits[..k], frac, e), rest))
  }

  /** A number is a double if it has a fraction or an exponent. */
  function NumberOf(neg: bool, whole: string, frac: string, e: Option<int>): Number
    requires AllDigits(whole) && AllDigits(frac)
  {
    if e.Some? then Real(Normal(neg, whole, frac, e.value))
    else if frac != "" then Real(Normal(neg, whole, frac, 0))
    else
      var n: int := NatOf(whole);
      Int(if neg then -n else n)
  }

  /** A number without superfluous leading zeros. */
  function ParseNumber(s: string): (r: Option<(Number, string)>)
    ensures r.Some? ==> |r.value.1| < |s|
  {
    if At(s, '-') then ParseMagnitude(true, s[1..]) else ParseMagnitude(false, s)
  }

  /** A number's text ends here. */
  predicate EndsNumber(rest: string)
  {
    rest == "" || (!IsDigit(rest[0]) && rest[0] != '.' && rest[0] != 'e' && rest[0] != 'E')
  }

  // ------------------------------------------------------------ round trip

  lemma {:induction false} TrimZerosAfter(s: string, n: nat)
    requires s == "" || s[|s| - 1] != '0'
    ensures TrimZeros(s + Zeros(n)) == s
    decreases n
  {
    var t := s + Zeros(n);
    if n == 0 {
      assert t == s;
    } else {
      assert t[..|t| - 1] == s + Zeros(n - 1);
      TrimZerosAfter(s, n - 1);
    }
  }

  lemma ZeroRunBefore(n: nat, s: string)
    requires s == "" || s[0] != '0'
    ensures ZeroRun(Zeros(n) + s) == n
    ensures (Zeros(n) + s)[n..] == s
  {
    var t := Zeros(n) + s;
    assert forall i :: 0 <= i < n ==> t[i] == '0';
    assert s != "" ==> t[n] == s[0];
  }

  /** Leading and trailing zeros around canonical digits do not matter. */
  lemma NormalOfPadded(neg: bool, whole: string, frac: string, e: int, before: nat, digits: string, after: nat)
    requires AllDigits(whole) && AllDigits(frac) && whole + frac == Zeros(before) + (digits + Zeros(after))
    requires digits != "" && digits[0] != '0' && digits[|digits| - 1] != '0' && AllDigits(digits)
    ensures Normal(neg, whole, frac, e) == Shape(neg, digits, |whole| - before + e)
  {
    ZeroRunBefore(before, digits + Zeros(after));
    TrimZerosAfter(digits, after);
  }

  lemma NormalOfZero(neg: bool, e: int)
    ensures Normal(neg, "0", "0", e) == Shape(neg, "", 0)
  {
    assert "0" + "0" == Zeros(2) + "";
    ZeroRunBefore(2, "");
  }

  lemma NoZeros(s: string)
    ensures Zeros(0) + (s + Zeros(0)) == s
  {
  }

  /** Digits split at any place denote themselves. */
  lemma SplitDenotes(d: Decimal, i: nat, e: int)
    requires i <= |d.digits| && d.digits != ""
    ensures Normal(d.neg, d.digits[..i], d.digits[i..], e) == Shape(d.neg, d.digits, i + e)
  {
    NoZeros(d.digits);
    assert d.digits[..i] + d.digits[i..] == d.digits;
    NormalOfPadded(d.neg, d.digits[..i], d.digits[i..], e, 0, d.digits, 0);
  }

  lemma SmallDenotes(d: Decimal, n: nat)
    requires d.digits != ""
    ensures Normal(d.neg, "0", Zeros(n) + d.digits, 0) == Shape(d.neg, d.digits, 0 - n)
  {
    assert "0" + (Zeros(n) + d.digits) == Zeros(n + 1) + (d.digits + Zeros(0));
    NormalOfPadded(d.neg, "0", Zeros(n) + d.digits, 0, n + 1, d.digits, 0);
  }

  lemma WholeDenotes(d: Decimal, n: nat)
    requires d.digits != ""
    ensures Normal(d.neg, d.digits + Zeros(n), "0", 0) == Shape(d.neg, d.digits, |d.digits| + n)
  {
    assert (d.digits + Zeros(n)) + "0" == Zeros(0) + (d.digits + Zeros(n + 1));
    NormalOfPadded(d.neg, d.digits + Zeros(n), "0", 0, 0, d.digits, n + 1);
  }

  /** The parts written for a double denote it. */
  lemma PartsDenote(t: Notation, d: Decimal)
    ensures Normal(d.neg, WholeOf(t, d), FracOf(t, d), if Positional(t, d) then 0 else d.point - 1) == d
  {
    if d.digits == "" {
      NormalOfZero(d.neg, 0);
    } else if !Positional(t, d) {
      SplitDenotes(d, 1, d.point - 1);
    } else if d.point <= 0 {
      SmallDenotes(d, -d.point);
    } else if d.point < |d.digits| {
      SplitDenotes(d, d.point, 0);
    } else {
      WholeDenotes(d, d.point - |d.digits|);
    }
  }

  /** A run of digits is split off at the first character that is none. */
  lemma SplitDigits(d: string, rest: string)
    requires AllDigits(d) && (rest == "" || !IsDigit(rest[0]))
    ensures DigitRun(d + rest) == |d| && (d + rest)[..|d|] == d && (d + rest)[|d|..] == rest
  {
    DigitRunConcat(d, rest);
  }

  lemma FracParses(frac: string, rest: string)
    requires AllDigits(frac) && (rest == "" || !IsDigit(rest[0]))
    requires frac == "" ==> !At(rest, '.')
    ensures var s := PointText(frac) + rest;
            ParseFrac(s) == Some((frac, rest)) && (s == "" || !IsDigit(s[0]))
  {
    var s := PointText(frac) + rest;
    if frac == "" {
      assert s == rest;
    } else {
      assert s[1..] == frac + rest;
      SplitDigits(frac, rest);
    }
  }

  lemma NatOfPadded(n: nat)
    ensures NatOf("0" + Dec(n)) == n && AllDigits("0" + Dec(n))
  {
    NatOfDec(n);
    NatOfZeros(1, Dec(n));
    assert Zeros(1) == "0";
  }

  lemma ExpDigitsRead(t: Notation, e: int, rest: string)
    requires rest == "" || !IsDigit(rest[0])
    ensures var d, s := ExpDigits(t, e), ExpDigits(t, e) + rest;
            s != "" && IsDigit(s[0]) && ParseExpDigits(e < 0, s) == Some((Some(e), rest))
  {
    hide Dec, NatOf, DigitRun;
    var m: nat := if e < 0 then -e else e;
    NatOfDec(m);
    NatOfPadded(m);
    assert ExpDigits(t, e) == if t.padded && -10 < e < 10 then "0" + Dec(m) else Dec(m);
    SplitDigits(ExpDigits(t, e), rest);
  }

  lemma SignSplits(sign: string, digits: string)
    requires sign == "e-" || sign == "e+" || sign == "e"
    requires digits != "" && IsDigit(digits[0])
    ensures ParseExp(sign + digits) == ParseExpDigits(sign == "e-", digits)
    ensures (sign + digits)[0] == 'e'
  {
    var s := sign + digits;
    if |sign| == 2 { assert s[2..] == digits && s[1..][0] == sign[1]; } else { assert s[1..] == digits; }
  }

  lemma ExpParses(t: Notation, e: int, rest: string)
    requires rest == "" || !IsDigit(rest[0])
    ensures ParseExp(ExpText(t, e) + rest) == Some((Some(e), rest))
    ensures (ExpText(t, e) + rest)[0] == 'e'
  {
    ExpDigitsRead(t, e, rest);
    SignSplits(ExpSign(t, e), ExpDigits(t, e) + rest);
    Associative(ExpSign(t, e), ExpDigits(t, e), rest);
  }

  lemma MagnitudeParses(neg: bool, whole: string, frac: string, e: Option<int>, tail: string, after: string, rest: string)
    requires whole != "" && AllDigits(whole) && (|whole| > 1 ==> whole[0] != '0') && AllDigits(frac)
    requires tail == "" || !IsDigit(tail[0])
    requires ParseFrac(tail) == Some((frac, after)) && ParseExp(after) == Some((e, rest))
    ensures ParseMagnitude(neg, whole + tail) == Some((NumberOf(neg, whole, frac, e), rest))
    ensures !At(whole + tail, '-')
  {
    SplitDigits(whole, tail);
    assert (whole + tail)[0] == whole[0];
  }

  lemma SignParses(neg: bool, magnitude: string)
    requires !At(magnitude, '-')
    ensures ParseNumber((if neg then "-" else "") + magnitude) == ParseMagnitude(neg, magnitude)
  {
    if neg { assert ("-" + magnitude)[1..] == magnitude; } else { assert "" + magnitude == magnitude; }
  }

  lemma IntParses(n: int, rest: string)
    requires EndsNumber(rest)
    ensures ParseNumber(EncodeInt(n) + rest) == Some((Int(n), rest))
  {
    var m: nat := if n < 0 then -n else n;
    NatOfDec(m);
    MagnitudeParses(n < 0, Dec(m), "", None, rest, rest, rest);
    SignParses(n < 0, Dec(m) + rest);
    assert EncodeInt(n) + rest == (if n < 0 then "-" else "") + (Dec(m) + rest);
  }

  lemma ExponentParses(t: Notation, d: Decimal, rest: string)
    requires EndsNumber(rest)
    ensures var s := ExponentOf(t, d) + rest;
            ParseExp(s) == Some((if Positional(t, d) then None else Some(d.point - 1), rest)) &&
            !At(s, '.') && (s == "" || !IsDigit(s[0]))
  {
    if Positional(t, d) {
      assert ExponentOf(t, d) + rest == rest;
    } else {
      ExpParses(t, d.point - 1, rest);
    }
  }

  lemma TailParses(t: Notation, d: Decimal, rest: string)
    requires EndsNumber(rest)
    ensures var s := Tail(t, d) + rest;
            (s == "" || !IsDigit(s[0])) && ParseFrac(s) == Some((FracOf(t, d), ExponentOf(t, d) + rest))
  {
    ExponentParses(t, d, rest);
    FracParses(FracOf(t, d), ExponentOf(t, d) + rest);
    Associative(PointText(FracOf(t, d)), ExponentOf(t, d), rest);
  }

  lemma PartsNumber(t: Notation, d: Decimal)
    ensures NumberOf(d.neg, WholeOf(t, d), FracOf(t, d), if Positional(t, d) then None else Some(d.point - 1)) == Real(d)
  {
    PartsDenote(t, d);
  }

  lemma DoubleParses(t: Notation, d: Decimal, rest: string)
    requires EndsNumber(rest)
    ensures ParseNumber(DoubleText(t, d) + rest) == Some((Real(d), rest))
  {
    var e := if Positional(t, d) then None else Some(d.point - 1);
    var sign := if d.neg then "-" else "";
    TailParses(t, d, rest);
    ExponentParses(t, d, rest);
    PartsNumber(t, d);
    MagnitudeParses(d.neg, WholeOf(t, d), FracOf(t, d), e, Tail(t, d) + rest, ExponentOf(t, d) + rest, rest);
    SignParses(d.neg, WholeOf(t, d) + (Tail(t, d) + rest));
    Associative(WholeOf(t, d), Tail(t, d), rest);
    Associative(sign, WholeOf(t, d) + Tail(t, d), rest);
  }

  /** Every number is read back from its text in every notation, and nothing after it is consumed. */
  lemma NumberParses(t: Notation, x: Number, rest: string)
    requires EndsNumber(rest)
    ensures ParseNumber(NumberText(t, x) + rest) == Some((x, rest))
  {
    match x
    case Int(n) => IntParses(n, rest);
    case Real(d) => DoubleParses(t, d, rest);
  }

  lemma NumberTextStarts(t: Notation, x: Number)
    ensures var s := NumberText(t, x); s != "" && (s[0] == '-' || IsDigit(s[0]))
  {
    if x.Real? {
      assert DoubleText(t, x.d)[0] == if x.d.neg then '-' else WholeOf(t, x.d)[0];
    }
  }

  // ---------------------------------------------------- two notations compared

  predicate ExponentsAlike(t: Notation, u: Notation, e: int)
  {
    (e >= 0 ==> t.plus == u.plus) && (-10 < e < 10 ==> t.padded == u.padded)
  }

  /** Both notations write the double positionally, or both with an exponent of the same form. */
  predicate WritesAlike(t: Notation, u: Notation, d: Decimal)
  {
    (Positional(t, d) <==> Positional(u, d)) && (!Positional(t, d) ==> ExponentsAlike(t, u, d.point - 1))
  }

  ghost predicate NoExponent(s: string) { forall i :: 0 <= i < |s| ==> s[i] != 'e' }

  lemma ExponentShows(head: string, tail: string)
    requires NoExponent(head) && (tail == "" || tail[0] == 'e')
    ensures NoExponent(head + tail) <==> tail == ""
  {
    if tail != "" { assert (head + tail)[|head|] == 'e'; }
  }

  lemma PositionalPlain(t: Notation, d: Decimal)
    ensures NoExponent(DoubleText(t, d)) <==> Positional(t, d)
  {
    var head := (if d.neg then "-" else "") + (WholeOf(t, d) + PointText(FracOf(t, d)));
    assert DoubleText(t, d) == head + ExponentOf(t, d);
    ExponentShows(head, ExponentOf(t, d));
  }

  lemma ExponentTextsAlike(t: Notation, u: Notation, e: int)
    ensures ExpText(t, e) == ExpText(u, e) <==> ExponentsAlike(t, u, e)
  {
    var a, b := ExpDigits(t, e), ExpDigits(u, e);
    ExpDigitsRead(t, e, "");
    ExpDigitsRead(u, e, "");
    assert a + "" == a && b + "" == b;
    if e >= 0 && t.plus != u.plus {
      assert ExpText(t, e)[1] != ExpText(u, e)[1];
    } else if !ExponentsAlike(t, u, e) {
      assert |a| != |b|;
    }
  }

  /** Two notations give a double the same text exactly when the condition above holds. */
  lemma DoubleTextsAlike(t: Notation, u: Notation, d: Decimal)
    ensures DoubleText(t, d) == DoubleText(u, d) <==> WritesAlike(t, u, d)
  {
    PositionalPlain(t, d);
    PositionalPlain(u, d);
    if !Positional(t, d) && !Positional(u, d) {
      ExponentTextsAlike(t, u, d.point - 1);
      var head := (if d.neg then "-" else "") + (d.digits[..1] + PointText(d.digits[1..]));
      ExponentSplits(t, d, head);
      ExponentSplits(u, d, head);
      SameAfter(head, ExpText(t, d.point - 1), ExpText(u, d.point - 1));
    }
  }

  lemma ExponentSplits(t: Notation, d: Decimal, head: string)
    requires !Positional(t, d) && head == (if d.neg then "-" else "") + (d.digits[..1] + PointText(d.digits[1..]))
    ensures DoubleText(t, d) == head + ExpText(t, d.point - 1)
  {
    var sign := if d.neg then "-" else "";
    Associative(d.digits[..1], PointText(d.digits[1..]), ExponentOf(t, d));
    Associative(sign, d.digits[..1] + PointText(d.digits[1..]), ExponentOf(t, d));
  }
}
