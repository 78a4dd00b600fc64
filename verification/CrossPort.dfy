/**
 The scheme is documented as identical across the three ports. This module proves for which values
 the canonical texts of two ports really are the same.
 */
module CrossPort {
  import opened Text
  import opened Numbers
  import opened Json
  import opened JsonRoundTrip
  import opened Canonical
  import opened PortValues

  /** Every character lies between two code points. */
  ghost predicate Within(s: string, lo: int, hi: int)
  {
    forall i :: 0 <= i < |s| ==> lo <= s[i] as int <= hi
  }

  lemma WithinConcat(s: string, t: string, lo: int, hi: int)
    ensures Within(s + t, lo, hi) <==> Within(s, lo, hi) && Within(t, lo, hi)
  {
    if Within(s + t, lo, hi) {
      forall i | 0 <= i < |s| ensures lo <= s[i] as int <= hi { assert (s + t)[i] == s[i]; }
      forall i | 0 <= i < |t| ensures lo <= t[i] as int <= hi { assert (s + t)[|s| + i] == t[i]; }
    }
  }

  lemma WithinMember(q: string, k: string, e: string, t: string, lo: int, hi: int)
    ensures Within(q + (k + (e + t)), lo, hi)
       <==> Within(q, lo, hi) && Within(k, lo, hi) && Within(e, lo, hi) && Within(t, lo, hi)
  {
    WithinConcat(q, k + (e + t), lo, hi);
    WithinConcat(k, e + t, lo, hi);
    WithinConcat(e, t, lo, hi);
  }

  // --------------------------------------------- which characters are written

  function Top(style: Style): int { if style.ascii then 0x7E else 0x10FFFF }

  lemma UnitEscapeWithin(u: nat)
    requires u < 0x10000
    ensures Within(UnitEscape(u), 0x20, 0x7E)
  {
  }

  lemma EscapeCharWithin(style: Style, c: char)
    ensures Within(EscapeChar(style, c), 0x20, Top(style))
  {
    if style.ascii && c as int >= 0x10000 {
      UnitEscapeWithin(HighSurrogate(c));
      UnitEscapeWithin(LowSurrogate(c));
      WithinConcat(UnitEscape(HighSurrogate(c)), UnitEscape(LowSurrogate(c)), 0x20, 0x7E);
    } else if c as int < 0x10000 {
      UnitEscapeWithin(c as int);
    }
  }

  lemma {:induction false} EscapeWithin(style: Style, s: string)
    ensures Within(Escape(style, s), 0x20, Top(style))
  {
    if s != "" {
      EscapeCharWithin(style, s[0]);
      EscapeWithin(style, s[1..]);
      WithinConcat(EscapeChar(style, s[0]), Escape(style, s[1..]), 0x20, Top(style));
    }
  }

  lemma QuoteWithin(style: Style, s: string)
    ensures Within(Quote(style, s), 0x20, Top(style))
  {
    EscapeWithin(style, s);
  }

  lemma DigitsWithin(s: string)
    requires AllDigits(s)
    ensures Within(s, 0x20, 0x7E)
  {
  }

  lemma ExponentWithin(t: Notation, e: int)
    ensures Within(ExpText(t, e), 0x20, 0x7E)
  {
    hide ParseExpDigits, Dec, NatOf, DigitRun;
    ExpDigitsRead(t, e, "");
    DigitsWithin(ExpDigits(t, e));
    WithinConcat(ExpSign(t, e), ExpDigits(t, e), 0x20, 0x7E);
  }

  lemma NumberWithin(t: Notation, x: Number)
    ensures Within(NumberText(t, x), 0x20, 0x7E)
  {
    if x.Real? {
      DigitsWithin(WholeOf(t, x.d));
      TailWithin(t, x.d);
      WithinConcat(WholeOf(t, x.d), Tail(t, x.d), 0x20, 0x7E);
      WithinConcat(if x.d.neg then "-" else "", WholeOf(t, x.d) + Tail(t, x.d), 0x20, 0x7E);
    }
  }

  lemma TailWithin(t: Notation, d: Decimal)
    ensures Within(Tail(t, d), 0x20, 0x7E)
  {
    DigitsWithin(FracOf(t, d));
    WithinConcat(".", FracOf(t, d), 0x20, 0x7E);
    if !Positional(t, d) { ExponentWithin(t, d.point - 1); }
    WithinConcat(PointText(FracOf(t, d)), ExponentOf(t, d), 0x20, 0x7E);
  }

  /** No control character is ever written, and nothing beyond '~' in the ASCII styles. */
  lemma {:induction false} EncodeWithin(style: Style, v: Json)
    ensures Within(Encode(style, v), 0x20, Top(style))
    decreases v, 0
  {
    match v
    case Num(x) => NumberWithin(style.numbers, x);
    case Str(s) => QuoteWithin(style, s);
    case Arr(items) => if items != [] { ItemsWithin(style, items); }
    case Obj(members) => if members != [] { MembersWithin(style, members); }
    case _ =>
  }

  lemma {:induction false} ItemsWithin(style: Style, items: seq<Json>)
    requires items != []
    ensures Within(EncodeItems(style, items), 0x20, Top(style))
    decreases items, 1
  {
    EncodeWithin(style, items[0]);
    if |items| > 1 { ItemsWithin(style, items[1..]); }
  }

  lemma {:induction false} MembersWithin(style: Style, members: seq<Member>)
    requires members != []
    ensures Within(EncodeMembers(style, members), 0x20, Top(style))
    decreases members, 1
  {
    hide Quote, Encode;
    QuoteWithin(style, members[0].key);
    EncodeWithin(style, members[0].value);
    if |members| > 1 {
      MembersWithin(style, members[1..]);
      WithinConcat(ItemSep(style), EncodeMembers(style, members[1..]), 0x20, Top(style));
    }
    WithinMember(Quote(style, members[0].key), KeySep(style), Encode(style, members[0].value),
                 AfterMember(style, members), 0x20, Top(style));
  }

  // ------------------------------------------------------- one text, two styles

  lemma SameSplit(a: string, b: string, x: string, y: string)
    requires a + x == b + y && x == y
    ensures a == b
  {
    assert a == (a + x)[..|a + x| - |x|] && b == (b + y)[..|b + y| - |y|];
  }

  lemma {:induction false} EscapeByAscii(s: Style, t: Style, text: string)
    requires s.ascii == t.ascii
    ensures Escape(s, text) == Escape(t, text)
  {
    if text != "" { EscapeByAscii(s, t, text[1..]); }
  }

  lemma {:induction false} PlainEscapes(s: Style, t: Style, text: string)
    requires Within(text, 0, 0x7E)
    ensures Escape(s, text) == Escape(t, text)
  {
    if text != "" { PlainEscapes(s, t, text[1..]); }
  }

  /** A style without escapes writes every character beyond 0x7E as itself. */
  lemma {:induction false} EscapeKeepsWide(style: Style, s: string)
    requires !style.ascii && Within(Escape(style, s), 0, 0x7E)
    ensures Within(s, 0, 0x7E)
  {
    if s != "" {
      WithinConcat(EscapeChar(style, s[0]), Escape(style, s[1..]), 0, 0x7E);
      EscapeKeepsWide(style, s[1..]);
      assert s == [s[0]] + s[1..];
      assert EscapeChar(style, s[0])[0] as int <= 0x7E;
    }
  }

  /** Two styles write a string alike: they escape the same characters, or none beyond 0x7E occurs. */
  ghost predicate SameEscapes(s: Style, t: Style, text: string) { s.ascii != t.ascii ==> Within(text, 0, 0x7E) }

  lemma EscapesDecide(s: Style, t: Style, text: string)
    ensures Escape(s, text) == Escape(t, text) <==> SameEscapes(s, t, text)
  {
    if s.ascii == t.ascii {
      EscapeByAscii(s, t, text);
    } else {
      if Within(text, 0, 0x7E) { PlainEscapes(s, t, text); }
      EscapeWithin(s, text);
      EscapeWithin(t, text);
      if Escape(s, text) == Escape(t, text) { EscapeKeepsWide(if s.ascii then t else s, text); }
    }
  }

  lemma QuotesDecide(s: Style, t: Style, text: string)
    ensures Quote(s, text) == Quote(t, text) <==> SameEscapes(s, t, text)
  {
    EscapesDecide(s, t, text);
    if Quote(s, text) == Quote(t, text) {
      assert Quote(s, text)[1..] == Escape(s, text) + "\"" && Quote(t, text)[1..] == Escape(t, text) + "\"";
      SameSplit(Escape(s, text), Escape(t, text), "\"", "\"");
    }
  }

  /** Every string and every double in the value is written alike by both styles. */
  ghost predicate Uniform(s: Style, t: Style, v: Json)
    decreases v
  {
    match v
    case Str(text) => SameEscapes(s, t, text)
    case Num(x) => x.Real? ==> WritesAlike(s.numbers, t.numbers, x.d)
    case Arr(items) => forall i :: 0 <= i < |items| ==> Uniform(s, t, items[i])
    case Obj(ms) => UniformMembers(s, t, ms)
    case _ => true
  }

  ghost predicate UniformMembers(s: Style, t: Style, ms: seq<Member>)
    decreases ms
  {
    forall m :: m in ms ==> SameEscapes(s, t, m.key) && Uniform(s, t, m.value)
  }

  /** What comes after a value in a container. */
  predicate Closes(rest: string) { rest != "" && (rest[0] == ',' || rest[0] == ']' || rest[0] == '}') }

  /** Equal texts of one value and what follows it split alike. */
  lemma ValuesSplit(s: Style, t: Style, v: Json, x: string, y: string)
    requires Closes(x) && Closes(y)
    ensures Encode(s, v) + x == Encode(t, v) + y <==> Encode(s, v) == Encode(t, v) && x == y
  {
    EncodeParses(s, v, x);
    EncodeParses(t, v, y);
    if Encode(s, v) + x == Encode(t, v) + y { SameSplit(Encode(s, v), Encode(t, v), x, y); }
  }

  lemma QuotesSplit(s: Style, t: Style, text: string, x: string, y: string)
    ensures Quote(s, text) + x == Quote(t, text) + y <==> Quote(s, text) == Quote(t, text) && x == y
  {
    QuoteParses(s, text, x);
    QuoteParses(t, text, y);
    if Quote(s, text) + x == Quote(t, text) + y { SameSplit(Quote(s, text), Quote(t, text), x, y); }
  }

  lemma {:induction false} EncodesDecide(s: Style, t: Style, v: Json)
    requires !s.spaced && !t.spaced
    ensures Encode(s, v) == Encode(t, v) <==> Uniform(s, t, v)
    decreases v, 0
  {
    match v
    case Str(text) => QuotesDecide(s, t, text);
    case Num(x) => NumberTextsDecide(s.numbers, t.numbers, x, x);
    case Arr(items) =>
      if items != [] {
        ItemsDecide(s, t, items);
        SameAfter("[", EncodeItems(s, items), EncodeItems(t, items));
      }
    case Obj(ms) =>
      if ms != [] {
        MembersDecide(s, t, ms);
        SameAfter("{", EncodeMembers(s, ms), EncodeMembers(t, ms));
      }
    case _ =>
  }

  /** What follows the first item. */
  function AfterItem(style: Style, items: seq<Json>): (r: string)
    requires items != [] && !style.spaced
    ensures Closes(r) && EncodeItems(style, items) == Encode(style, items[0]) + r
  {
    if |items| == 1 then "]" else "," + EncodeItems(style, items[1..])
  }

  lemma {:induction false} ItemsDecide(s: Style, t: Style, items: seq<Json>)
    requires items != [] && !s.spaced && !t.spaced
    ensures EncodeItems(s, items) == EncodeItems(t, items) <==>
            forall i :: 0 <= i < |items| ==> Uniform(s, t, items[i])
    decreases items, 1
  {
    EncodesDecide(s, t, items[0]);
    ValuesSplit(s, t, items[0], AfterItem(s, items), AfterItem(t, items));
    assert items == [items[0]] + items[1..];
    if |items| > 1 {
      ItemsDecide(s, t, items[1..]);
      SameAfter(",", EncodeItems(s, items[1..]), EncodeItems(t, items[1..]));
    }
  }

  lemma {:induction false} MembersDecide(s: Style, t: Style, ms: seq<Member>)
    requires ms != [] && !s.spaced && !t.spaced
    ensures EncodeMembers(s, ms) == EncodeMembers(t, ms) <==> UniformMembers(s, t, ms)
    decreases ms, 1
  {
    var x, y := Encode(s, ms[0].value) + AfterMember(s, ms), Encode(t, ms[0].value) + AfterMember(t, ms);
    QuotesDecide(s, t, ms[0].key);
    EncodesDecide(s, t, ms[0].value);
    QuotesSplit(s, t, ms[0].key, ":" + x, ":" + y);
    SameAfter(":", x, y);
    ValuesSplit(s, t, ms[0].value, AfterMember(s, ms), AfterMember(t, ms));
    UniformSplits(s, t, ms);
    if |ms| > 1 {
      MembersDecide(s, t, ms[1..]);
      SameAfter(",", EncodeMembers(s, ms[1..]), EncodeMembers(t, ms[1..]));
    }
  }

  lemma UniformSplits(s: Style, t: Style, ms: seq<Member>)
    requires ms != []
    ensures UniformMembers(s, t, ms) <==>
            SameEscapes(s, t, ms[0].key) && Uniform(s, t, ms[0].value) && UniformMembers(s, t, ms[1..])
  {
    assert ms == [ms[0]] + ms[1..];
  }

  /** Texts of two styles are equal exactly for one value that both styles write alike. */
  lemma TextsDecide(s: Style, t: Style, v: Json, w: Json)
    requires !s.spaced && !t.spaced
    ensures Encode(s, v) == Encode(t, w) <==> v == w && Uniform(s, t, v)
  {
    ParseEncode(s, v);
    ParseEncode(t, w);
    EncodesDecide(s, t, v);
  }

  // -------------------------------------------------------- two orders of keys

  ghost predicate SameOrder(p: Port, q: Port, ms: seq<Member>)
  {
    forall a, b :: a in ms && b in ms ==> (KeyLess(p, a.key, b.key) <==> KeyLess(q, a.key, b.key))
  }

  ghost predicate SameKeys(a: seq<Member>, b: seq<Member>)
  {
    |a| == |b| && forall i :: 0 <= i < |a| ==> a[i].key == b[i].key
  }

  lemma ConsAlike(x: Member, y: Member, s: seq<Member>, t: seq<Member>)
    ensures [x] + s == [y] + t <==> x == y && s == t
    ensures x.key == y.key && SameKeys(s, t) ==> SameKeys([x] + s, [y] + t)
  {
    assert ([x] + s)[1..] == s && ([y] + t)[1..] == t;
  }

  lemma HeadsAndTails(a: seq<Member>, b: seq<Member>)
    requires SameKeys(a, b) && a != []
    ensures SameKeys(a[1..], b[1..]) && a[0].key == b[0].key
    ensures a == b <==> a[0] == b[0] && a[1..] == b[1..]
  {
    assert a == [a[0]] + a[1..] && b == [b[0]] + b[1..];
  }

  /** The two orders agree on whether a member goes before another. */
  lemma OrderAt(p: Port, q: Port, ms: seq<Member>, a: Member, b: Member)
    requires SameOrder(p, q, ms) && a in ms && b in ms
    ensures KeyLess(p, a.key, b.key) <==> KeyLess(q, a.key, b.key)
  {
  }

  lemma FewerOrdered(p: Port, q: Port, ms: seq<Member>, ns: seq<Member>)
    requires SameOrder(p, q, ms) && forall x :: x in ns ==> x in ms
    ensures SameOrder(p, q, ns)
  {
  }

  /** Where a member goes depends only on keys, so what was inserted can be told from the result. */
  lemma {:induction false} InsertsAlike(p: Port, q: Port, m: Member, n: Member, a: seq<Member>, b: seq<Member>)
    requires SameKeys(a, b) && m.key == n.key && SameOrder(p, q, [m] + a)
    ensures SameKeys(Insert(p, m, a), Insert(q, n, b))
    ensures Insert(p, m, a) == Insert(q, n, b) <==> m == n && a == b
  {
    ConsAlike(m, n, a, b);
    if a != [] {
      OrderAt(p, q, [m] + a, a[0], m);
      HeadsAndTails(a, b);
      FewerOrdered(p, q, [m] + a, [m] + a[1..]);
      InsertsAlike(p, q, m, n, a[1..], b[1..]);
      ConsAlike(a[0], b[0], Insert(p, m, a[1..]), Insert(q, n, b[1..]));
    }
  }

  /** Sorting two lists with the same keys in the same order gives the same list only for the same lists. */
  lemma {:induction false} SortsAlike(p: Port, q: Port, a: seq<Member>, b: seq<Member>)
    requires SameKeys(a, b) && SameOrder(p, q, a)
    ensures SameKeys(SortMembers(p, a), SortMembers(q, b))
    ensures SortMembers(p, a) == SortMembers(q, b) <==> a == b
  {
    if a != [] {
      HeadsAndTails(a, b);
      FewerOrdered(p, q, a, a[1..]);
      SortsAlike(p, q, a[1..], b[1..]);
      SortElements(p, a[1..]);
      FewerOrdered(p, q, a, [a[0]] + SortMembers(p, a[1..]));
      InsertsAlike(p, q, a[0], b[0], SortMembers(p, a[1..]), SortMembers(q, b[1..]));
    }
  }

  /** A list sorted under both orders, with distinct keys, is ordered alike by both. */
  lemma SortedBothWays(p: Port, q: Port, s: seq<Member>)
    requires Sorted(p, s) && Sorted(q, s) && DistinctKeys(s)
    ensures SameOrder(p, q, s)
  {
    forall a, b | a in s && b in s ensures KeyLess(p, a.key, b.key) <==> KeyLess(q, a.key, b.key) {
      var i :| 0 <= i < |s| && s[i] == a;
      var j :| 0 <= j < |s| && s[j] == b;
      KeyLessTotal(p, a.key, b.key);
      KeyLessTotal(q, a.key, b.key);
    }
  }

  /** Lists that sort to one list under two ports, with distinct keys, are ordered alike by both. */
  lemma SortedAlikeOrder(p: Port, q: Port, a: seq<Member>, b: seq<Member>)
    requires DistinctKeys(a) && SortMembers(p, a) == SortMembers(q, b)
    ensures SameOrder(p, q, a)
  {
    SortSorts(p, a);
    SortSorts(q, b);
    DistinctOfSort(p, a);
    SortedBothWays(p, q, SortMembers(p, a));
    SortElements(p, a);
  }

  /** Ports other than TypeScript order keys alike. */
  lemma PlainOrder(p: Port, q: Port, ms: seq<Member>)
    requires !p.TypeScript? && !q.TypeScript?
    ensures SameOrder(p, q, ms)
  {
  }

  // ------------------------------------------------- objects with values of each port

  lemma {:induction false} SortValuesLength(p: Port, ms: seq<Member>)
    ensures |SortValues(p, ms)| <= |ms|
    ensures |SortValues(p, ms)| == |ms| <==> forall i :: 0 <= i < |ms| ==> !Dropped(p, ms[i].key)
    ensures |SortValues(p, ms)| == |ms| ==>
              forall i :: 0 <= i < |ms| ==> SortValues(p, ms)[i] == Member(ms[i].key, SortKeys(p, ms[i].value))
  {
    if ms != [] {
      SortValuesLength(p, ms[1..]);
      assert ms == [ms[0]] + ms[1..];
    }
  }

  /** No key of the list is dropped by either port. */
  ghost predicate NoneDropped(p: Port, q: Port, ms: seq<Member>)
  {
    forall i :: 0 <= i < |ms| ==> !Dropped(p, ms[i].key) && !Dropped(q, ms[i].key)
  }

  /** The member values of two lists sort to the same values, and the ports write those alike. */
  ghost predicate ValuesAgree(p: Port, q: Port, a: seq<Member>, b: seq<Member>)
    requires SameKeys(a, b)
  {
    forall i :: 0 <= i < |a| ==> SignAlike(p, q, a[i].value, b[i].value)
  }

  ghost predicate TextAgrees(p: Port, q: Port, s: string) { SameEscapes(CanonicalStyle(p), CanonicalStyle(q), s) }

  ghost predicate KeysWritten(p: Port, q: Port, ms: seq<Member>)
  {
    forall i :: 0 <= i < |ms| ==> TextAgrees(p, q, ms[i].key)
  }

  /** Two ports order the keys of an object alike, drop none of them and write them alike. */
  ghost predicate KeysAgree(p: Port, q: Port, ms: seq<Member>)
  {
    SameOrder(p, q, ms) && NoneDropped(p, q, ms) && KeysWritten(p, q, ms)
  }

  lemma AgreementByKeys(p: Port, q: Port, a: seq<Member>, b: seq<Member>)
    requires SameKeys(a, b)
    ensures KeysAgree(p, q, a) <==> KeysAgree(p, q, b)
  {
    if SameOrder(p, q, a) { OrderByKeys(p, q, a, b); }
    if SameOrder(p, q, b) { OrderByKeys(p, q, b, a); }
  }

  /** A value of one port and a value of another have the same canonical text. */
  ghost predicate SignAlike(p: Port, q: Port, v: Json, w: Json)
  {
    SortKeys(p, v) == SortKeys(q, w) && Uniform(CanonicalStyle(p), CanonicalStyle(q), SortKeys(p, v))
  }

  lemma SignAlikeMeans(p: Port, q: Port, v: Json, w: Json)
    ensures SignAlike(p, q, v, w) <==> CanonicalText(p, v) == CanonicalText(q, w)
  {
    TextsDecide(CanonicalStyle(p), CanonicalStyle(q), SortKeys(p, v), SortKeys(q, w));
  }

  lemma ObjectValuesAlike(p: Port, q: Port, a: seq<Member>, b: seq<Member>)
    requires SameKeys(a, b) && NoneDropped(p, q, a)
    ensures SameKeys(SortValues(p, a), SortValues(q, b)) && SameKeys(SortValues(p, a), a)
    ensures SortValues(p, a) == SortValues(q, b) <==>
            forall i :: 0 <= i < |a| ==> SortKeys(p, a[i].value) == SortKeys(q, b[i].value)
  {
    SortValuesLength(p, a);
    SortValuesLength(q, b);
    if SortValues(p, a) == SortValues(q, b) {
      forall i | 0 <= i < |a| ensures SortKeys(p, a[i].value) == SortKeys(q, b[i].value) {
        assert SortValues(p, a)[i] == SortValues(q, b)[i];
      }
    }
  }

  lemma OrderByKeys(p: Port, q: Port, a: seq<Member>, b: seq<Member>)
    requires SameKeys(a, b) && SameOrder(p, q, a)
    ensures SameOrder(p, q, b)
  {
    forall x, y | x in b && y in b ensures KeyLess(p, x.key, y.key) <==> KeyLess(q, x.key, y.key) {
      var i :| 0 <= i < |b| && b[i] == x;
      var j :| 0 <= j < |b| && b[j] == y;
      assert a[i] in a && a[j] in a;
    }
  }

  lemma UniformSorted(p: Port, q: Port, a: seq<Member>)
    requires NoneDropped(p, q, a)
    ensures Uniform(CanonicalStyle(p), CanonicalStyle(q), SortKeys(p, Obj(a))) <==>
            forall i :: 0 <= i < |a| ==>
              TextAgrees(p, q, a[i].key) && Uniform(CanonicalStyle(p), CanonicalStyle(q), SortKeys(p, a[i].value))
  {
    var s, t := CanonicalStyle(p), CanonicalStyle(q);
    var vs := SortValues(p, a);
    SortValuesLength(p, a);
    SortElements(p, vs);
    if UniformMembers(s, t, SortMembers(p, vs)) {
      forall i | 0 <= i < |a| ensures TextAgrees(p, q, a[i].key) && Uniform(s, t, SortKeys(p, a[i].value)) {
        assert vs[i] in vs;
      }
    }
  }

  /**
   Two objects with the same keys, holding each port's values, have the same canonical text exactly when
   the ports agree on the keys and the values have the same canonical text.
   */
  lemma ObjectsSignAlike(p: Port, q: Port, a: seq<Member>, b: seq<Member>)
    requires SameKeys(a, b) && Different(p, q)
    requires p.TypeScript? || q.TypeScript? ==> DistinctKeys(a)
    ensures SignAlike(p, q, Obj(a), Obj(b)) <==>
            KeysAgree(p, q, a) && ValuesAgree(p, q, a, b)
  {
    if SignAlike(p, q, Obj(a), Obj(b)) {
      NothingDropped(p, q, a, b);
      ObjectOrder(p, q, a, b);
    }
    if SameOrder(p, q, a) && NoneDropped(p, q, a) { OrderedObjects(p, q, a, b); }
  }

  lemma OrderedSorts(p: Port, q: Port, a: seq<Member>, b: seq<Member>)
    requires SameKeys(a, b) && SameOrder(p, q, a) && NoneDropped(p, q, a)
    ensures SortKeys(p, Obj(a)) == SortKeys(q, Obj(b)) <==>
            forall i :: 0 <= i < |a| ==> SortKeys(p, a[i].value) == SortKeys(q, b[i].value)
  {
    hide SortMembers, SortValues, SameOrder, NoneDropped;
    ObjectValuesAlike(p, q, a, b);
    OrderByKeys(p, q, a, SortValues(p, a));
    SortsAlike(p, q, SortValues(p, a), SortValues(q, b));
  }

  lemma OrderedObjects(p: Port, q: Port, a: seq<Member>, b: seq<Member>)
    requires SameKeys(a, b) && SameOrder(p, q, a) && NoneDropped(p, q, a)
    ensures SignAlike(p, q, Obj(a), Obj(b)) <==> KeysWritten(p, q, a) && ValuesAgree(p, q, a, b)
  {
    OrderedSorts(p, q, a, b);
    UniformSorted(p, q, a);
  }

  lemma NothingDropped(p: Port, q: Port, a: seq<Member>, b: seq<Member>)
    requires SameKeys(a, b) && Different(p, q)
    requires SortKeys(p, Obj(a)) == SortKeys(q, Obj(b))
    ensures NoneDropped(p, q, a)
  {
    SortValuesLength(p, a);
    SortValuesLength(q, b);
    SortElements(p, SortValues(p, a));
    SortElements(q, SortValues(q, b));
  }

  lemma ObjectOrder(p: Port, q: Port, a: seq<Member>, b: seq<Member>)
    requires SameKeys(a, b) && NoneDropped(p, q, a)
    requires p.TypeScript? || q.TypeScript? ==> DistinctKeys(a)
    requires SortKeys(p, Obj(a)) == SortKeys(q, Obj(b))
    ensures SameOrder(p, q, a)
  {
    if !p.TypeScript? && !q.TypeScript? {
      PlainOrder(p, q, a);
    } else {
      ObjectValuesAlike(p, q, a, b);
      SortValuesDistinct(p, a);
      SortedAlikeOrder(p, q, SortValues(p, a), SortValues(q, b));
      OrderByKeys(p, q, SortValues(p, a), a);
    }
  }

  // --------------------------------------------------------------- any value

  /**
   Two different ports treat the value alike: every string and every number is written alike, and in every
   object they agree on the keys.
   */
  ghost predicate Agrees(p: Port, q: Port, v: Json)
    decreases v
  {
    match v
    case Str(s) => TextAgrees(p, q, s)
    case Num(x) => NumberAgrees(p, q, x)
    case Arr(items) => forall i :: 0 <= i < |items| ==> Agrees(p, q, items[i])
    case Obj(ms) =>
      KeysAgree(p, q, ms) && forall i :: 0 <= i < |ms| ==> Agrees(p, q, ms[i].value)
    case _ => true
  }

  lemma {:induction false} ValuesSignAlike(p: Port, q: Port, v: Json)
    requires Different(p, q) && (p.TypeScript? || q.TypeScript? ==> UniqueKeys(v))
    ensures SignAlike(p, q, Held(p, v), Held(q, v)) <==> Agrees(p, q, v)
    decreases v, 0
  {
    match v
    case Arr(items) => ItemsSignAlike(p, q, items);
    case Obj(ms) => MembersSignAlike(p, q, ms);
    case _ => ScalarsSignAlike(p, q, v);
  }

  lemma ScalarsSignAlike(p: Port, q: Port, v: Json)
    requires Different(p, q) && !v.Arr? && !v.Obj?
    ensures SignAlike(p, q, Held(p, v), Held(q, v)) <==> Agrees(p, q, v)
  {
    if v.Num? { NumbersAgree(p, q, v.x); }
  }

  lemma {:induction false} ItemsSignAlike(p: Port, q: Port, items: seq<Json>)
    requires Different(p, q) && (p.TypeScript? || q.TypeScript? ==> forall i :: 0 <= i < |items| ==> UniqueKeys(items[i]))
    ensures SignAlike(p, q, Held(p, Arr(items)), Held(q, Arr(items))) <==> Agrees(p, q, Arr(items))
    decreases items, 1
  {
    forall i | 0 <= i < |items|
      ensures SignAlike(p, q, Held(p, items[i]), Held(q, items[i])) <==> Agrees(p, q, items[i])
    {
      ValuesSignAlike(p, q, items[i]);
    }
    ArraysSignAlike(p, q, MapItems(Holder(p), items), MapItems(Holder(q), items));
  }

  lemma {:induction false} MembersSignAlike(p: Port, q: Port, ms: seq<Member>)
    requires Different(p, q) && (p.TypeScript? || q.TypeScript? ==> UniqueKeys(Obj(ms)))
    ensures SignAlike(p, q, Held(p, Obj(ms)), Held(q, Obj(ms))) <==> Agrees(p, q, Obj(ms))
    decreases ms, 1
  {
    var a, b := MapMembers(Holder(p), ms), MapMembers(Holder(q), ms);
    ObjectsHeldAlike(p, q, ms);
    forall i | 0 <= i < |ms| ensures SignAlike(p, q, a[i].value, b[i].value) <==> Agrees(p, q, ms[i].value) {
      ValuesSignAlike(p, q, ms[i].value);
    }
    AllAgree(p, q, a, b, ms);
  }

  lemma AllAgree(p: Port, q: Port, a: seq<Member>, b: seq<Member>, ms: seq<Member>)
    requires SameKeys(a, b) && |a| == |ms|
    requires forall i :: 0 <= i < |ms| ==> (SignAlike(p, q, a[i].value, b[i].value) <==> Agrees(p, q, ms[i].value))
    ensures ValuesAgree(p, q, a, b) <==> forall i :: 0 <= i < |ms| ==> Agrees(p, q, ms[i].value)
  {
  }

  lemma ObjectsHeldAlike(p: Port, q: Port, ms: seq<Member>)
    requires Different(p, q) && (p.TypeScript? || q.TypeScript? ==> DistinctKeys(ms))
    ensures SameKeys(MapMembers(Holder(p), ms), MapMembers(Holder(q), ms))
    ensures SignAlike(p, q, Held(p, Obj(ms)), Held(q, Obj(ms))) <==>
            KeysAgree(p, q, ms) && ValuesAgree(p, q, MapMembers(Holder(p), ms), MapMembers(Holder(q), ms))
  {
    var a, b := MapMembers(Holder(p), ms), MapMembers(Holder(q), ms);
    ObjectsSignAlike(p, q, a, b);
    AgreementByKeys(p, q, a, ms);
  }

  lemma ArraysSignAlike(p: Port, q: Port, a: seq<Json>, b: seq<Json>)
    requires |a| == |b|
    ensures SignAlike(p, q, Arr(a), Arr(b)) <==> forall i :: 0 <= i < |a| ==> SignAlike(p, q, a[i], b[i])
  {
    if SignAlike(p, q, Arr(a), Arr(b)) {
      forall i | 0 <= i < |a| ensures SignAlike(p, q, a[i], b[i]) {
        assert SortItems(p, a)[i] == SortItems(q, b)[i];
      }
    }
  }

  /** MAIN: two different ports sign a value over the same text exactly when they treat all its parts alike. */
  lemma PortsAgree(p: Port, q: Port, v: Json)
    requires Different(p, q) && (p.TypeScript? || q.TypeScript? ==> UniqueKeys(v))
    ensures CanonicalText(p, Held(p, v)) == CanonicalText(q, Held(q, v)) <==> Agrees(p, q, v)
  {
    ValuesSignAlike(p, q, v);
    SignAlikeMeans(p, q, Held(p, v), Held(q, v));
  }

  /** The keys "9" and "10" are enough to make the texts of TypeScript and another port differ. */
  lemma NumericKeysDisagree(p: Port)
    requires !p.TypeScript?
    ensures var v := Obj([Member("10", Null), Member("9", Null)]);
            UniqueKeys(v) && CanonicalText(p, Held(p, v)) != CanonicalText(TypeScript, Held(TypeScript, v))
  {
    var a, b := Member("10", Null), Member("9", Null);
    var v := Obj([a, b]);
    assert a.key[0] != b.key[0];
    assert Codes("10")[0] == 0x31 && Codes("9")[0] == 0x39;
    assert KeyLess(p, "10", "9");
    assert "10"[..1] == "1" && "10"[..1][..0] == "" && "9"[..0] == "";
    assert NatOf("10"[..1]) == 1;
    assert NatOf("9") == 9 && NatOf("10") == 10;
    assert !KeyLess(TypeScript, "10", "9");
    assert a in v.members && b in v.members;
    PortsAgree(p, TypeScript, v);
  }
}
