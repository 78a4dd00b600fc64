/**
 The numbers a port really holds. Rust keeps integers of 64 bits and turns wider ones into doubles, Python
 keeps every number as it is, and in TypeScript every number is a double that is written without a
 fraction when it has none.
 */
module PortValues {
  import opened Text
  import opened Numbers
  import opened Doubles
  import opened Json
  import opened Canonical

  predicate In64(n: int) { -0x8000_0000_0000_0000 <= n < 0x1_0000_0000_0000_0000 }

  function Magnitude(n: int): nat { if n < 0 then -n else n }

  /** The double nearest to an integer. */
  function AsDecimal(n: int): Decimal { Normal(n < 0, Dec(Printed(Magnitude(n))), "", 0) }

  /** A double without a fraction. */
  predicate Whole(d: Decimal) { d.point >= |d.digits| }

  function WholeValue(d: Decimal): int
    requires Whole(d)
  {
    var n: int := NatOf(d.digits + Zeros(d.point - |d.digits|));
    if d.neg then -n else n
  }

  /** JavaScript writes whole numbers of up to 21 digits like integers. */
  function JsNumber(n: int): Number
  {
    var m: int := Printed(Magnitude(n));
    if m >= Pow10(21) then Real(AsDecimal(n)) else Int(if n < 0 then -m else m)
  }

  /** Rust's double for an integer: in 64 bits the nearest one, otherwise what its library reads. */
  function RustDouble(reader: Reader, n: int): Decimal { if In64(n) then AsDecimal(n) else reader.wide(n) }

  /** A given number as a port holds it. */
  function HeldNumber(p: Port, x: Number): Number
  {
    match p
    case Rust(_, reader) => if x.Int? && !In64(x.n) then Real(reader.wide(x.n)) else x
    case Python => x
    case TypeScript =>
      match x
      case Int(n) => JsNumber(n)
      case Real(d) => if Whole(d) && d.point <= 21 then JsNumber(WholeValue(d)) else x
  }

  /** A number as a port holds it after reading it from a text. */
  function ReadNumber(p: Port, x: Number): Number
  {
    if p.Rust? && x.Real? then Real(p.reader.double(x.d)) else HeldNumber(p, x)
  }

  /** A field that is a double in Rust and any number elsewhere. */
  function HeldConfidence(p: Port, x: Number): Number
  {
    if p.Rust? && x.Int? then Real(RustDouble(p.reader, x.n)) else HeldNumber(p, x)
  }

  function ReadConfidence(p: Port, x: Number): Number
  {
    if x.Int? then HeldConfidence(p, x) else ReadNumber(p, x)
  }

  /** A value with `f` applied to all its numbers. */
  function MapNumbers(f: Number -> Number, v: Json): Json
    decreases v
  {
    match v
    case Num(x) => Num(f(x))
    case Arr(items) => Arr(MapItems(f, items))
    case Obj(ms) => Obj(MapMembers(f, ms))
    case _ => v
  }

  function MapItems(f: Number -> Number, items: seq<Json>): (r: seq<Json>)
    ensures |r| == |items|
    ensures forall i :: 0 <= i < |items| ==> r[i] == MapNumbers(f, items[i])
    decreases items
  {
    if items == [] then [] else [MapNumbers(f, items[0])] + MapItems(f, items[1..])
  }

  function MapMembers(f: Number -> Number, ms: seq<Member>): (r: seq<Member>)
    ensures |r| == |ms|
    ensures forall i :: 0 <= i < |ms| ==> r[i] == Member(ms[i].key, MapNumbers(f, ms[i].value))
    decreases ms
  {
    if ms == [] then [] else [Member(ms[0].key, MapNumbers(f, ms[0].value))] + MapMembers(f, ms[1..])
  }

  function Holder(p: Port): Number -> Number { x => HeldNumber(p, x) }

  function ReaderOf(p: Port): Number -> Number { x => ReadNumber(p, x) }

  /** A given value with its numbers as the port holds them. */
  function Held(p: Port, v: Json): Json { MapNumbers(Holder(p), v) }

  /** A value with its numbers as the port holds them after reading its text. */
  function Read(p: Port, v: Json): Json { MapNumbers(ReaderOf(p), v) }

  // ------------------------------------------------- holding twice is holding once

  /** The decimal of a large integer has as many digits before its point as the integer is long. */
  lemma AsDecimalPoint(n: int)
    requires Printed(Magnitude(n)) >= Pow10(21)
    ensures AsDecimal(n).digits != "" && AsDecimal(n).point >= 22
  {
    var m := Printed(Magnitude(n));
    var s := Dec(m);
    DecLength(m, 21);
    NatOfDec(m);
    assert s + "" == s;
    assert s[0] != '0';
    assert ZeroRun(s) == 0;
    assert s[0..] == s;
    if TrimZeros(s) == "" { AllZeros(s); }
  }

  lemma {:induction false} AllZeros(s: string)
    requires s != "" && TrimZeros(s) == ""
    ensures s[0] == '0'
  {
    if |s| > 1 { AllZeros(s[..|s| - 1]); }
  }

  lemma JsIntHeld(n: int)
    requires JsNumber(n).Int?
    ensures JsNumber(JsNumber(n).n) == JsNumber(n)
  {
    PrintedRounds(Magnitude(n));
    assert Magnitude(JsNumber(n).n) == Printed(Magnitude(n));
  }

  lemma JsNumberHeld(n: int)
    ensures HeldNumber(TypeScript, JsNumber(n)) == JsNumber(n)
    ensures JsNumber(n).Real? ==> JsNumber(n).d.point >= 22
  {
    if JsNumber(n).Int? { JsIntHeld(n); } else { AsDecimalPoint(n); }
  }

  lemma HeldNumberTwice(p: Port, x: Number)
    ensures HeldNumber(p, HeldNumber(p, x)) == HeldNumber(p, x)
  {
    if p.TypeScript? {
      match x
      case Int(n) => JsNumberHeld(n);
      case Real(d) => if Whole(d) { JsNumberHeld(WholeValue(d)); }
    }
  }

  lemma HeldConfidenceTwice(p: Port, x: Number)
    ensures HeldConfidence(p, HeldConfidence(p, x)) == HeldConfidence(p, x)
  {
    HeldNumberTwice(p, x);
  }

  lemma {:induction false} MapTwice(f: Number -> Number, g: Number -> Number, v: Json)
    requires forall x :: f(g(x)) == g(x)
    ensures MapNumbers(f, MapNumbers(g, v)) == MapNumbers(g, v)
    decreases v
  {
    match v
    case Arr(items) =>
      forall i | 0 <= i < |items| ensures MapNumbers(f, MapNumbers(g, items[i])) == MapNumbers(g, items[i]) {
        MapTwice(f, g, items[i]);
      }
    case Obj(ms) =>
      forall i | 0 <= i < |ms| ensures MapNumbers(f, MapNumbers(g, ms[i].value)) == MapNumbers(g, ms[i].value) {
        MapTwice(f, g, ms[i].value);
      }
    case _ =>
  }

  lemma HeldTwice(p: Port, v: Json)
    ensures Held(p, Held(p, v)) == Held(p, v)
  {
    forall x ensures Holder(p)(Holder(p)(x)) == Holder(p)(x) { HeldNumberTwice(p, x); }
    MapTwice(Holder(p), Holder(p), v);
  }

  // ------------------------------------------------------------- reading back

  /** Every number is read back as itself. */
  ghost predicate ReadsExactly(p: Port, v: Json)
    decreases v
  {
    match v
    case Num(x) => ReadNumber(p, x) == x
    case Arr(items) => forall i :: 0 <= i < |items| ==> ReadsExactly(p, items[i])
    case Obj(ms) => forall i :: 0 <= i < |ms| ==> ReadsExactly(p, ms[i].value)
    case _ => true
  }

  lemma {:induction false} ReadIsExact(p: Port, v: Json)
    ensures Read(p, v) == v <==> ReadsExactly(p, v)
    decreases v
  {
    match v
    case Arr(items) =>
      forall i | 0 <= i < |items| ensures Read(p, items[i]) == items[i] <==> ReadsExactly(p, items[i]) {
        ReadIsExact(p, items[i]);
      }
    case Obj(ms) =>
      forall i | 0 <= i < |ms| ensures Read(p, ms[i].value) == ms[i].value <==> ReadsExactly(p, ms[i].value) {
        ReadIsExact(p, ms[i].value);
      }
      MembersFixed(ReaderOf(p), ms);
    case _ =>
  }

  lemma MembersFixed(f: Number -> Number, ms: seq<Member>)
    ensures MapMembers(f, ms) == ms <==> forall i :: 0 <= i < |ms| ==> MapNumbers(f, ms[i].value) == ms[i].value
  {
    if MapMembers(f, ms) == ms {
      forall i | 0 <= i < |ms| ensures MapNumbers(f, ms[i].value) == ms[i].value { assert MapMembers(f, ms)[i] == ms[i]; }
    }
  }

  /** Python and TypeScript read back every value they hold. */
  lemma HeldReadsExactly(p: Port, v: Json)
    requires !p.Rust?
    ensures Read(p, Held(p, v)) == Held(p, v)
  {
    forall x ensures ReaderOf(p)(Holder(p)(x)) == Holder(p)(x) { HeldNumberTwice(p, x); }
    MapTwice(ReaderOf(p), Holder(p), v);
  }

  /** A number held by Rust is read back exactly if and only if it is an integer or a double its library gives back. */
  lemma RustReadsExactly(p: Port, x: Number)
    requires p.Rust?
    ensures ReadNumber(p, HeldNumber(p, x)) == HeldNumber(p, x) <==>
            (x.Int? && In64(x.n)) ||
            var d := if x.Int? then p.reader.wide(x.n) else x.d; p.reader.double(d) == d
  {
  }

  // ------------------------------------------------------- two ports, one number

  function NumbersOf(p: Port): Notation { CanonicalStyle(p).numbers }

  /** The port writes the integer's own digits. */
  predicate WritesInt(p: Port, n: int)
  {
    match p
    case Rust(_, _) => In64(n)
    case Python => true
    case TypeScript => Printed(Magnitude(n)) == Magnitude(n) < Pow10(21)
  }

  /** The port writes the integer like a double. */
  predicate WritesRounded(p: Port, n: int)
  {
    match p
    case Rust(_, _) => !In64(n)
    case Python => false
    case TypeScript => Printed(Magnitude(n)) >= Pow10(21)
  }

  /** The double a port makes of an integer. */
  function Rounded(p: Port, n: int): Decimal { if p.Rust? then RustDouble(p.reader, n) else AsDecimal(n) }

  /** The port writes the double like a double. */
  predicate WritesReal(p: Port, d: Decimal) { p.TypeScript? ==> !Whole(d) || d.point > 21 }

  /** Both ports make the same double of the integer and write it alike. */
  predicate RoundedAlike(p: Port, q: Port, n: int)
  {
    Rounded(p, n) == Rounded(q, n) && WritesAlike(NumbersOf(p), NumbersOf(q), Rounded(p, n))
  }

  /** Two different ports write the number alike. */
  predicate NumberAgrees(p: Port, q: Port, x: Number)
  {
    match x
    case Int(n) =>
      (WritesInt(p, n) && WritesInt(q, n)) ||
      (WritesRounded(p, n) && WritesRounded(q, n) && RoundedAlike(p, q, n))
    case Real(d) =>
      WritesReal(p, d) && WritesReal(q, d) && WritesAlike(NumbersOf(p), NumbersOf(q), d)
  }

  /** Two different ports write a confidence alike: for Rust against another port never an integer's own digits. */
  predicate ConfidenceAgrees(p: Port, q: Port, x: Number)
  {
    if x.Int? && (p.Rust? || q.Rust?) then
      !p.Python? && !q.Python? && Printed(Magnitude(x.n)) >= Pow10(21) && RoundedAlike(p, q, x.n)
    else NumberAgrees(p, q, x)
  }

  predicate Different(p: Port, q: Port) { p.Rust? != q.Rust? || p.Python? != q.Python? }

  /** The same number, and if it is a double, written alike. */
  predicate Alike(t: Notation, u: Notation, x: Number, y: Number)
  {
    x == y && (x.Real? ==> WritesAlike(t, u, x.d))
  }

  /** Two number texts are equal exactly for the same number written alike. */
  lemma NumberTextsDecide(t: Notation, u: Notation, x: Number, y: Number)
    ensures NumberText(t, x) == NumberText(u, y) <==> Alike(t, u, x, y)
  {
    NumberParses(t, x, "");
    NumberParses(u, y, "");
    assert NumberText(t, x) + "" == NumberText(t, x) && NumberText(u, y) + "" == NumberText(u, y);
    if x == y && x.Real? { DoubleTextsAlike(t, u, x.d); }
  }

  lemma NumbersAgree(p: Port, q: Port, x: Number)
    requires Different(p, q)
    ensures Alike(NumbersOf(p), NumbersOf(q), HeldNumber(p, x), HeldNumber(q, x)) <==> NumberAgrees(p, q, x)
  {
    hide WritesAlike, AsDecimal, Printed, Pow10;
    match x
    case Int(n) => JsNumberHeld(n);
    case Real(d) => if Whole(d) { JsNumberHeld(WholeValue(d)); }
  }

  lemma ConfidencesAgree(p: Port, q: Port, x: Number)
    requires Different(p, q)
    ensures Alike(NumbersOf(p), NumbersOf(q), HeldConfidence(p, x), HeldConfidence(q, x)) <==> ConfidenceAgrees(p, q, x)
  {
    if x.Int? && (p.Rust? || q.Rust?) { JsNumberHeld(x.n); } else { NumbersAgree(p, q, x); }
  }
}
