/**
 Canonical JSON: the text each port signs. Object keys are sorted recursively, nothing insignificant
 is written. The ports differ in the order they sort keys by and in the characters they escape.
 */
module Canonical {
  import opened Text
  import opened Numbers
  import opened Json

  /** How Rust's JSON library writes doubles that need an exponent, and how exactly it reads doubles, is left open. */
  datatype Port = Rust(numbers: Notation, reader: Reader) | Python | TypeScript

  function CanonicalStyle(p: Port): Style
  {
    match p
    case Rust(numbers, _) => Style(false, false, numbers)
    case Python => COMPACT_ASCII
    case TypeScript => COMPACT
  }

  // ------------------------------------------------------------ key order

  /** A JavaScript array index in canonical form: such keys are enumerated first, in numeric order. */
  predicate IsIndex(k: string)
  {
    k != "" && (forall i :: 0 <= i < |k| ==> IsDigit(k[i])) &&
    (|k| > 1 ==> k[0] != '0') && NatOf(k) < 0xFFFF_FFFF
  }

  function Utf16Char(c: char): (r: seq<int>)
    ensures r != []
  {
    if c as int < 0x10000 then [c as int] else [HighSurrogate(c) as int, LowSurrogate(c) as int]
  }

  function Utf16(s: string): seq<int>
  {
    if s == "" then [] else Utf16Char(s[0]) + Utf16(s[1..])
  }

  /**
   The order in which a port's canonical text lists keys. Rust's `BTreeMap` and Python's `sort_keys`
   use code points; JavaScript sorts UTF-16 units but then enumerates array indices first.
   */
  predicate KeyLess(p: Port, a: string, b: string)
  {
    if !p.TypeScript? then LexLess(a, b)
    else if IsIndex(a) && IsIndex(b) then NatOf(a) < NatOf(b)
    else if IsIndex(a) || IsIndex(b) then IsIndex(a)
    else SeqLess(Utf16(a), Utf16(b))
  }

  // -------------------------------------------------------------- sorting

  /** Assigning to `__proto__` on a JavaScript object does not create a member. */
  predicate Dropped(p: Port, key: string) { p.TypeScript? && key == "__proto__" }

  function Insert(p: Port, m: Member, ms: seq<Member>): seq<Member>
  {
    if ms != [] && KeyLess(p, ms[0].key, m.key) then [ms[0]] + Insert(p, m, ms[1..]) else [m] + ms
  }

  function SortMembers(p: Port, ms: seq<Member>): seq<Member>
  {
    if ms == [] then [] else Insert(p, ms[0], SortMembers(p, ms[1..]))
  }

  function SortKeys(p: Port, v: Json): Json
    decreases v
  {
    match v
    case Arr(items) => Arr(SortItems(p, items))
    case Obj(members) => Obj(SortMembers(p, SortValues(p, members)))
    case _ => v
  }

  function SortItems(p: Port, items: seq<Json>): (r: seq<Json>)
    ensures |r| == |items|
    ensures forall i :: 0 <= i < |items| ==> r[i] == SortKeys(p, items[i])
    decreases items
  {
    if items == [] then [] else [SortKeys(p, items[0])] + SortItems(p, items[1..])
  }

  function SortValues(p: Port, ms: seq<Member>): seq<Member>
    decreases ms
  {
    if ms == [] then []
    else
      (if Dropped(p, ms[0].key) then [] else [Member(ms[0].key, SortKeys(p, ms[0].value))])
      + SortValues(p, ms[1..])
  }

  /** The text a port signs for a value. */
  function CanonicalText(p: Port, v: Json): string
  {
    Encode(CanonicalStyle(p), SortKeys(p, v))
  }

  // -------------------------------------------- the order is strict and total

  lemma Utf16CharPrefix(c: char, d: char, x: seq<int>, y: seq<int>)
    requires Utf16Char(c) + x == Utf16Char(d) + y
    ensures c == d && x == y
  {
    var l, r := Utf16Char(c) + x, Utf16Char(d) + y;
    assert l[0] == Utf16Char(c)[0] && r[0] == Utf16Char(d)[0];
    if |Utf16Char(c)| == 2 {
      assert l[1] == Utf16Char(c)[1] && r[1] == Utf16Char(d)[1];
    }
    assert l[|Utf16Char(c)|..] == x && r[|Utf16Char(d)|..] == y;
  }

  lemma {:induction false} Utf16Injective(s: string, t: string)
    requires Utf16(s) == Utf16(t)
    ensures s == t
  {
    if s != "" && t != "" {
      Utf16CharPrefix(s[0], t[0], Utf16(s[1..]), Utf16(t[1..]));
      Utf16Injective(s[1..], t[1..]);
      assert s == [s[0]] + s[1..] && t == [t[0]] + t[1..];
    }
  }

  lemma {:induction false} NumeralUnique(k: string)
    requires k != "" && (forall i :: 0 <= i < |k| ==> IsDigit(k[i])) && (|k| > 1 ==> k[0] != '0')
    ensures Dec(NatOf(k)) == k
    ensures |k| > 1 ==> NatOf(k) >= 10
  {
    var d := k[|k| - 1] as int - '0' as int;
    if |k| == 1 {
      assert k[..0] == "";
      assert NatOf(k) == d;
      assert k == [Digit(d)];
    } else {
      NumeralUnique(k[..|k| - 1]);
      var n := NatOf(k[..|k| - 1]);
      assert |k| == 2 ==> NatOf(k[..1]) == k[0] as int - '0' as int by {
        if |k| == 2 { assert k[..1][..0] == ""; assert k[..1][0] == k[0]; }
      }
      assert n >= 1;
      assert NatOf(k) == 10 * n + d;
      assert k == k[..|k| - 1] + [Digit(d)];
    }
  }

  lemma KeyLessTotal(p: Port, a: string, b: string)
    ensures !KeyLess(p, a, a)
    ensures KeyLess(p, a, b) || KeyLess(p, b, a) || a == b
    ensures !(KeyLess(p, a, b) && KeyLess(p, b, a))
  {
    SeqLessTotal(Codes(a), Codes(b));
    SeqLessTotal(Utf16(a), Utf16(b));
    if Codes(a) == Codes(b) { CodesInjective(a, b); }
    if Utf16(a) == Utf16(b) { Utf16Injective(a, b); }
    if IsIndex(a) && IsIndex(b) { NumeralUnique(a); NumeralUnique(b); }
  }

  lemma KeyLessTransitive(p: Port, a: string, b: string, c: string)
    requires KeyLess(p, a, b) && KeyLess(p, b, c)
    ensures KeyLess(p, a, c)
  {
    if !p.TypeScript? {
      SeqLessTransitive(Codes(a), Codes(b), Codes(c));
    } else if !IsIndex(a) && !IsIndex(b) && !IsIndex(c) {
      SeqLessTransitive(Utf16(a), Utf16(b), Utf16(c));
    }
  }

  // ------------------------------------------------------- what sorting does

  /** No member's key sorts before the key of an earlier member. */
  ghost predicate Sorted(p: Port, ms: seq<Member>)
  {
    forall i, j :: 0 <= i < j < |ms| ==> !KeyLess(p, ms[j].key, ms[i].key)
  }

  ghost predicate DistinctKeys(ms: seq<Member>)
  {
    forall i, j :: 0 <= i < j < |ms| ==> ms[i].key != ms[j].key
  }

  /** Keys are unique in every object, as in any value read from a dictionary. */
  ghost predicate UniqueKeys(v: Json)
    decreases v
  {
    match v
    case Arr(items) => forall i :: 0 <= i < |items| ==> UniqueKeys(items[i])
    case Obj(ms) => DistinctKeys(ms) && forall i :: 0 <= i < |ms| ==> UniqueKeys(ms[i].value)
    case _ => true
  }

  lemma {:induction false} InsertElements(p: Port, m: Member, ms: seq<Member>)
    ensures |Insert(p, m, ms)| == |ms| + 1
    ensures forall x :: x in Insert(p, m, ms) <==> x == m || x in ms
  {
    if ms != [] && KeyLess(p, ms[0].key, m.key) {
      InsertElements(p, m, ms[1..]);
      assert ms == [ms[0]] + ms[1..];
    }
  }

  lemma {:induction false} SortElements(p: Port, ms: seq<Member>)
    ensures |SortMembers(p, ms)| == |ms|
    ensures forall x :: x in SortMembers(p, ms) <==> x in ms
  {
    if ms != [] {
      SortElements(p, ms[1..]);
      InsertElements(p, ms[0], SortMembers(p, ms[1..]));
      assert ms == [ms[0]] + ms[1..];
    }
  }

  lemma PrependSorted(p: Port, m: Member, ms: seq<Member>)
    requires Sorted(p, ms) && forall x :: x in ms ==> !KeyLess(p, x.key, m.key)
    ensures Sorted(p, [m] + ms)
  {
    var r := [m] + ms;
    forall i, j | 0 <= i < j < |r| ensures !KeyLess(p, r[j].key, r[i].key) {
      assert r[j] == ms[j - 1] && r[j] in ms;
      if i > 0 { assert r[i] == ms[i - 1]; }
    }
  }

  lemma {:induction false} InsertSorted(p: Port, m: Member, ms: seq<Member>)
    requires Sorted(p, ms)
    ensures Sorted(p, Insert(p, m, ms))
  {
    if ms != [] && KeyLess(p, ms[0].key, m.key) {
      InsertSorted(p, m, ms[1..]);
      InsertElements(p, m, ms[1..]);
      KeyLessTotal(p, ms[0].key, m.key);
      PrependSorted(p, ms[0], Insert(p, m, ms[1..]));
    } else {
      forall x | x in ms ensures !KeyLess(p, x.key, m.key) {
        if KeyLess(p, x.key, m.key) { NotBelowHead(p, m, ms, x); }
      }
      PrependSorted(p, m, ms);
    }
  }

  /** A member below `m` would put the head of a sorted list below `m` as well. */
  lemma NotBelowHead(p: Port, m: Member, ms: seq<Member>, x: Member)
    requires Sorted(p, ms) && x in ms && KeyLess(p, x.key, m.key)
    ensures KeyLess(p, ms[0].key, m.key)
  {
    var i :| 0 <= i < |ms| && ms[i] == x;
    KeyLessTotal(p, ms[0].key, x.key);
    if KeyLess(p, ms[0].key, x.key) { KeyLessTransitive(p, ms[0].key, x.key, m.key); }
  }

  lemma {:induction false} SortSorts(p: Port, ms: seq<Member>)
    ensures Sorted(p, SortMembers(p, ms))
  {
    if ms != [] {
      SortSorts(p, ms[1..]);
      InsertSorted(p, ms[0], SortMembers(p, ms[1..]));
    }
  }

  lemma {:induction false} SortOfSorted(p: Port, ms: seq<Member>)
    requires Sorted(p, ms)
    ensures SortMembers(p, ms) == ms
  {
    if ms != [] {
      SortOfSorted(p, ms[1..]);
      assert ms == [ms[0]] + ms[1..];
      if |ms| > 1 { assert !KeyLess(p, ms[1].key, ms[0].key); }
    }
  }

  lemma {:induction false} InsertDistinct(p: Port, m: Member, ms: seq<Member>)
    requires DistinctKeys(ms) && forall x :: x in ms ==> x.key != m.key
    ensures DistinctKeys(Insert(p, m, ms))
  {
    if ms != [] && KeyLess(p, ms[0].key, m.key) {
      InsertDistinct(p, m, ms[1..]);
      InsertElements(p, m, ms[1..]);
      var tail := Insert(p, m, ms[1..]);
      forall k | 0 <= k < |tail| ensures tail[k].key != ms[0].key { assert tail[k] in tail; }
    }
  }

  lemma {:induction false} DistinctOfSort(p: Port, ms: seq<Member>)
    requires DistinctKeys(ms)
    ensures DistinctKeys(SortMembers(p, ms))
  {
    if ms != [] {
      DistinctOfSort(p, ms[1..]);
      SortElements(p, ms[1..]);
      InsertDistinct(p, ms[0], SortMembers(p, ms[1..]));
    }
  }

  /** The first member of a sorted list has the least key. */
  lemma HeadLeast(p: Port, a: seq<Member>, m: Member)
    requires Sorted(p, a) && DistinctKeys(a) && m in a
    ensures m == a[0] || KeyLess(p, a[0].key, m.key)
  {
    var i :| 0 <= i < |a| && a[i] == m;
    KeyLessTotal(p, a[0].key, m.key);
  }

  /** Sorted lists with distinct keys and the same members are the same list. */
  lemma {:induction false} SortedUnique(p: Port, a: seq<Member>, b: seq<Member>)
    requires Sorted(p, a) && Sorted(p, b) && DistinctKeys(a) && DistinctKeys(b)
    requires forall m :: m in a <==> m in b
    ensures a == b
  {
    assert b != [] ==> b[0] in a;
    if a != [] {
      assert a[0] in b;
      HeadLeast(p, a, b[0]);
      HeadLeast(p, b, a[0]);
      KeyLessTotal(p, a[0].key, b[0].key);
      forall m ensures m in a[1..] <==> m in b[1..] {
        TailMembers(a, m);
        TailMembers(b, m);
      }
      SortedUnique(p, a[1..], b[1..]);
      assert a == [a[0]] + a[1..] && b == [b[0]] + b[1..];
    }
  }

  lemma TailMembers(a: seq<Member>, m: Member)
    requires a != [] && DistinctKeys(a)
    ensures m in a[1..] <==> m in a && m != a[0]
  {
    if m in a && m != a[0] {
      var i :| 0 <= i < |a| && a[i] == m;
      assert m == a[1..][i - 1];
    }
    if m in a[1..] {
      var i :| 0 <= i < |a[1..]| && a[1..][i] == m;
      assert a[i + 1] == m;
    }
  }

  /** The members that survive, with their values sorted. */
  lemma {:induction false} SortValuesElements(p: Port, ms: seq<Member>, m: Member)
    ensures m in SortValues(p, ms) <==>
            exists i :: 0 <= i < |ms| && !Dropped(p, ms[i].key) && m == Member(ms[i].key, SortKeys(p, ms[i].value))
  {
    if ms != [] {
      SortValuesElements(p, ms[1..], m);
      var head := if Dropped(p, ms[0].key) then [] else [Member(ms[0].key, SortKeys(p, ms[0].value))];
      assert m in SortValues(p, ms) <==> m in head || m in SortValues(p, ms[1..]);
      if m in SortValues(p, ms[1..]) {
        var i :| 0 <= i < |ms[1..]| && !Dropped(p, ms[1..][i].key)
                 && m == Member(ms[1..][i].key, SortKeys(p, ms[1..][i].value));
        assert ms[i + 1] == ms[1..][i];
      }
      if i :| 0 <= i < |ms| && !Dropped(p, ms[i].key) && m == Member(ms[i].key, SortKeys(p, ms[i].value)) {
        if i > 0 { assert ms[i] == ms[1..][i - 1]; }
      }
    }
  }

  lemma {:induction false} SortValuesDistinct(p: Port, ms: seq<Member>)
    requires DistinctKeys(ms)
    ensures DistinctKeys(SortValues(p, ms))
  {
    if ms != [] {
      SortValuesDistinct(p, ms[1..]);
      var tail := SortValues(p, ms[1..]);
      forall k | 0 <= k < |tail| ensures tail[k].key != ms[0].key {
        SortValuesElements(p, ms[1..], tail[k]);
        var i :| 0 <= i < |ms[1..]| && tail[k] == Member(ms[1..][i].key, SortKeys(p, ms[1..][i].value));
        assert ms[1..][i] == ms[i + 1];
      }
    }
  }

  // ------------------------------------------------------------ idempotence

  /** Sorting keys twice is sorting them once. */
  lemma {:induction false} SortKeysIdempotent(p: Port, v: Json)
    ensures SortKeys(p, SortKeys(p, v)) == SortKeys(p, v)
    decreases v
  {
    match v
    case Arr(items) =>
      forall i | 0 <= i < |items|
        ensures SortKeys(p, SortKeys(p, items[i])) == SortKeys(p, items[i])
      {
        SortKeysIdempotent(p, items[i]);
      }
    case Obj(ms) =>
      var s := SortMembers(p, SortValues(p, ms));
      forall k | 0 <= k < |s| ensures !Dropped(p, s[k].key) && SortKeys(p, s[k].value) == s[k].value {
        SortElements(p, SortValues(p, ms));
        assert s[k] in SortValues(p, ms);
        SortValuesElements(p, ms, s[k]);
        var i :| 0 <= i < |ms| && !Dropped(p, ms[i].key) && s[k] == Member(ms[i].key, SortKeys(p, ms[i].value));
        SortKeysIdempotent(p, ms[i].value);
      }
      SortValuesFixed(p, s);
      SortSorts(p, SortValues(p, ms));
      SortOfSorted(p, s);
    case _ =>
  }

  lemma {:induction false} SortValuesFixed(p: Port, s: seq<Member>)
    requires forall k :: 0 <= k < |s| ==> !Dropped(p, s[k].key) && SortKeys(p, s[k].value) == s[k].value
    ensures SortValues(p, s) == s
  {
    if s != [] {
      forall k | 0 <= k < |s[1..]|
        ensures !Dropped(p, s[1..][k].key) && SortKeys(p, s[1..][k].value) == s[1..][k].value
      {
        assert s[1..][k] == s[k + 1];
      }
      SortValuesFixed(p, s[1..]);
      assert s == [s[0]] + s[1..];
    }
  }
}
