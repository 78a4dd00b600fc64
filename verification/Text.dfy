/** Strings as sequences of characters: lexicographic order, decimal numerals, white space, prefixes. */
module Text {

  datatype Option<+T> = None | Some(value: T)

  // ---------------------------------------------------------------- order

  /** Lexicographic order on sequences of numbers; a proper prefix comes first. */
  predicate SeqLess(a: seq<int>, b: seq<int>)
  {
    if b == [] then false
    else if a == [] then true
    else if a[0] != b[0] then a[0] < b[0]
    else SeqLess(a[1..], b[1..])
  }

  /** The code points of a string. */
  function Codes(s: string): (r: seq<int>)
    ensures |r| == |s|
    ensures forall i :: 0 <= i < |s| ==> r[i] == s[i] as int
  {
    seq(|s|, i requires 0 <= i < |s| => s[i] as int)
  }

  /** Code-point order: Python's `str` order and the byte order of Rust's UTF-8 `String`. */
  predicate LexLess(a: string, b: string)
  {
    SeqLess(Codes(a), Codes(b))
  }

  lemma {:induction false} SeqLessTotal(a: seq<int>, b: seq<int>)
    ensures !SeqLess(a, a)
    ensures SeqLess(a, b) || SeqLess(b, a) || a == b
    ensures !(SeqLess(a, b) && SeqLess(b, a))
  {
    if a == [] || b == [] {
      if a != [] { SeqLessTotal(a[1..], a[1..]); }
    } else {
      SeqLessTotal(a[1..], a[1..]);
      if a[0] == b[0] {
        SeqLessTotal(a[1..], b[1..]);
        assert a == [a[0]] + a[1..] && b == [b[0]] + b[1..];
      }
    }
  }

  lemma {:induction false} SeqLessTransitive(a: seq<int>, b: seq<int>, c: seq<int>)
    requires SeqLess(a, b) && SeqLess(b, c)
    ensures SeqLess(a, c)
  {
    if a != [] && a[0] == b[0] && b[0] == c[0] {
      SeqLessTransitive(a[1..], b[1..], c[1..]);
    }
  }

  lemma CodesInjective(a: string, b: string)
    requires Codes(a) == Codes(b)
    ensures a == b
  {
    assert |a| == |b|;
    forall i | 0 <= i < |a| ensures a[i] == b[i] {
      assert Codes(a)[i] == Codes(b)[i];
    }
  }

  lemma LexLessTotal(a: string, b: string)
    ensures !LexLess(a, a)
    ensures LexLess(a, b) || LexLess(b, a) || a == b
    ensures !(LexLess(a, b) && LexLess(b, a))
  {
    SeqLessTotal(Codes(a), Codes(b));
    if Codes(a) == Codes(b) { CodesInjective(a, b); }
  }

  /** Comparing concatenations of equally long heads compares the heads first. */
  lemma {:induction false} SeqLessConcat(a: seq<int>, b: seq<int>, x: seq<int>, y: seq<int>)
    requires |a| == |b|
    ensures SeqLess(a + x, b + y) <==> SeqLess(a, b) || (a == b && SeqLess(x, y))
  {
    if a == [] {
      assert a + x == x && b + y == y;
    } else {
      assert (a + x)[1..] == a[1..] + x && (b + y)[1..] == b[1..] + y;
      SeqLessConcat(a[1..], b[1..], x, y);
      assert a == [a[0]] + a[1..] && b == [b[0]] + b[1..];
    }
  }

  lemma LexLessConcat(a: string, b: string, x: string, y: string)
    requires |a| == |b|
    ensures LexLess(a + x, b + y) <==> LexLess(a, b) || (a == b && LexLess(x, y))
  {
    assert Codes(a + x) == Codes(a) + Codes(x) && Codes(b + y) == Codes(b) + Codes(y);
    SeqLessConcat(Codes(a), Codes(b), Codes(x), Codes(y));
    if Codes(a) == Codes(b) { CodesInjective(a, b); }
  }

  // ------------------------------------------------------------- numerals

  predicate IsDigit(c: char) { '0' <= c <= '9' }

  function Digit(d: nat): (c: char)
    requires d < 10
    ensures IsDigit(c) && c as int == '0' as int + d
  {
    ('0' as int + d) as char
  }

  /** Decimal numeral without leading zeros. */
  function Dec(n: nat): (s: string)
    ensures s != "" && forall i :: 0 <= i < |s| ==> IsDigit(s[i])
  {
    if n < 10 then [Digit(n)] else Dec(n / 10) + [Digit(n % 10)]
  }

  predicate AllDigits(s: string) { forall i :: 0 <= i < |s| ==> IsDigit(s[i]) }

  function Pow10(w: nat): (r: nat)
    ensures r >= 1
  {
    if w == 0 then 1 else 10 * Pow10(w - 1)
  }

  function Zeros(n: nat): (z: string)
    ensures |z| == n && forall i :: 0 <= i < n ==> z[i] == '0'
  {
    seq(n, i => '0')
  }

  lemma {:induction false} DecLength(n: nat, w: nat)
    requires w > 0
    ensures |Dec(n)| <= w <==> n < Pow10(w)
  {
    if n >= 10 && w > 1 { DecLength(n / 10, w - 1); }
  }

  /** The value of a string of digits. */
  function NatOf(s: string): nat
    requires forall i :: 0 <= i < |s| ==> IsDigit(s[i])
  {
    if s == "" then 0
    else
      assert IsDigit(s[|s| - 1]);
      10 * NatOf(s[..|s| - 1]) + (s[|s| - 1] as int - '0' as int)
  }

  lemma {:induction false} NatOfDec(n: nat)
    ensures NatOf(Dec(n)) == n
    ensures |Dec(n)| > 1 ==> Dec(n)[0] != '0'
  {
    if n >= 10 {
      NatOfDec(n / 10);
      assert Dec(n)[..|Dec(n)| - 1] == Dec(n / 10);
      if n / 10 < 10 { assert Dec(n / 10) == [Digit(n / 10)]; }
    } else {
      assert Dec(n)[..0] == "";
    }
  }

  lemma {:induction false} NatOfZeros(k: nat, s: string)
    requires AllDigits(s)
    ensures AllDigits(Zeros(k) + s) && NatOf(Zeros(k) + s) == NatOf(s)
    decreases k + |s|
  {
    var z := Zeros(k) + s;
    if s == "" {
      if k > 0 {
        assert Zeros(k) == Zeros(k - 1) + "0";
        assert z == Zeros(k - 1) + "0";
        assert z[..|z| - 1] == Zeros(k - 1) + "";
        NatOfZeros(k - 1, "");
      }
    } else {
      NatOfZeros(k, s[..|s| - 1]);
      assert z[..|z| - 1] == Zeros(k) + s[..|s| - 1];
      assert z == z[..|z| - 1] + [s[|s| - 1]];
      assert AllDigits(s[..|s| - 1]);
    }
  }

  /** Length of the longest prefix made of digits. */
  function DigitRun(s: string): (k: nat)
    ensures k <= |s|
    ensures forall i :: 0 <= i < k ==> IsDigit(s[i])
    ensures k < |s| ==> !IsDigit(s[k])
  {
    if s == "" || !IsDigit(s[0]) then 0 else 1 + DigitRun(s[1..])
  }

  lemma DigitRunConcat(d: string, rest: string)
    requires forall i :: 0 <= i < |d| ==> IsDigit(d[i])
    requires rest == "" || !IsDigit(rest[0])
    ensures DigitRun(d + rest) == |d|
  {
    assert forall i :: 0 <= i < |d| ==> (d + rest)[i] == d[i];
    assert rest != "" ==> (d + rest)[|d|] == rest[0];
  }

  // ---------------------------------------------------------- white space

  /** Unicode white space, as `trim` removes it. */
  predicate IsBlankChar(c: char)
  {
    var u := c as int;
    9 <= u <= 13 || u == 0x20 || u == 0x85 || u == 0xA0 || u == 0x1680 || 0x2000 <= u <= 0x200A ||
    u == 0x2028 || u == 0x2029 || u == 0x202F || u == 0x205F || u == 0x3000
  }

  // ------------------------------------------------------------ prefixes

  predicate StartsWith(s: string, p: string) { |p| <= |s| && s[..|p|] == p }

  lemma StartsWithConcat(p: string, rest: string)
    ensures StartsWith(p + rest, p) && (p + rest)[|p|..] == rest
  {
    assert (p + rest)[..|p|] == p;
  }

  lemma SameAfter(head: string, a: string, b: string)
    ensures head + a == head + b <==> a == b
  {
    assert (head + a)[|head|..] == a && (head + b)[|head|..] == b;
  }

  lemma Associative<T>(a: seq<T>, b: seq<T>, c: seq<T>)
    ensures (a + b) + c == a + (b + c)
  {
  }
}
