/** UTF-8 as the ledger file holds it: encoding, strict decoding, and what a cut in the middle leaves. */
module Utf8 {
  import opened Text

  type Byte = b: int | 0 <= b < 256

  type Bytes = seq<Byte>

  function EncodeChar(c: char): (r: Bytes)
    ensures 1 <= |r| <= 4
    ensures |r| == 1 <==> c as int < 0x80
    ensures |r| == 1 ==> r[0] == c as int
    ensures |r| > 1 ==> forall i :: 0 <= i < |r| ==> r[i] >= 0x80
  {
    var u := c as int;
    if u < 0x80 then [u]
    else if u < 0x800 then [0xC0 + u / 0x40, 0x80 + u % 0x40]
    else if u < 0x1_0000 then [0xE0 + u / 0x1000, 0x80 + u / 0x40 % 0x40, 0x80 + u % 0x40]
    else [0xF0 + u / 0x4_0000, 0x80 + u / 0x1000 % 0x40, 0x80 + u / 0x40 % 0x40, 0x80 + u % 0x40]
  }

  function Encode(s: string): Bytes
  {
    if s == "" then [] else EncodeChar(s[0]) + Encode(s[1..])
  }

  /** The length announced by a leading byte; 0 for a byte that cannot lead. */
  function Announced(lead: Byte): nat
  {
    if lead < 0x80 then 1
    else if 0xC2 <= lead <= 0xDF then 2
    else if 0xE0 <= lead <= 0xEF then 3
    else if 0xF0 <= lead <= 0xF4 then 4
    else 0
  }

  predicate Continues(b: Byte) { 0x80 <= b <= 0xBF }

  /** The payload bits of a byte, its marker removed. */
  function Bits(b: Byte, marker: int): int { b as int - marker }

  predicate IsScalar(u: int) { 0 <= u < 0xD800 || 0xE000 <= u < 0x11_0000 }

  /** One character and the remaining bytes; overlong forms, surrogates and short sequences are errors. */
  function DecodeChar(b: Bytes): (r: Option<(char, Bytes)>)
    requires b != []
    ensures r.Some? ==> |r.value.1| < |b|
  {
    var n := Announced(b[0]);
    if n == 0 || |b| < n || exists i :: 1 <= i < n && !Continues(b[i]) then None
    else if n == 1 then Some((b[0] as char, b[1..]))
    else if n == 2 then Some(((Bits(b[0], 0xC0) * 0x40 + Bits(b[1], 0x80)) as char, b[2..]))
    else if n == 3 then
      var u := Bits(b[0], 0xE0) * 0x1000 + Bits(b[1], 0x80) * 0x40 + Bits(b[2], 0x80);
      if u >= 0x800 && IsScalar(u) then Some((u as char, b[3..])) else None
    else
      var u := Bits(b[0], 0xF0) * 0x4_0000 + Bits(b[1], 0x80) * 0x1000 + Bits(b[2], 0x80) * 0x40 + Bits(b[3], 0x80);
      if u >= 0x1_0000 && IsScalar(u) then Some((u as char, b[4..])) else None
  }

  function Decode(b: Bytes): Option<string>
    decreases |b|
  {
    if b == [] then Some("")
    else
      match DecodeChar(b)
      case None => None
      case Some((c, rest)) =>
        match Decode(rest)
        case None => None
        case Some(s) => Some([c] + s)
  }

  lemma DivideTwice(u: nat)
    ensures u / 0x40 / 0x40 == u / 0x1000
    ensures u / 0x1000 / 0x40 == u / 0x4_0000
  {
  }

  /** Six bits are split off. */
  lemma SplitSextet(a: nat)
    ensures a == a / 0x40 * 0x40 + a % 0x40
  {
  }

  lemma Sextets(u: nat)
    ensures u == u / 0x40 * 0x40 + u % 0x40
    ensures u == u / 0x1000 * 0x1000 + u / 0x40 % 0x40 * 0x40 + u % 0x40
    ensures u == u / 0x4_0000 * 0x4_0000 + u / 0x1000 % 0x40 * 0x1000 + u / 0x40 % 0x40 * 0x40 + u % 0x40
  {
    DivideTwice(u);
    SplitSextet(u);
    SplitSextet(u / 0x40);
    SplitSextet(u / 0x1000);
  }

  /** A leading byte announces exactly the length of its character. */
  lemma LeadAnnounces(c: char)
    ensures Announced(EncodeChar(c)[0]) == |EncodeChar(c)|
    ensures forall i :: 1 <= i < |EncodeChar(c)| ==> Continues(EncodeChar(c)[i])
  {
  }

  lemma CharDecodes(c: char, rest: Bytes)
    ensures DecodeChar(EncodeChar(c) + rest) == Some((c, rest))
  {
    var e := EncodeChar(c);
    var b := e + rest;
    LeadAnnounces(c);
    Sextets(c as int);
    assert forall i :: 0 <= i < |e| ==> b[i] == e[i];
    assert b[|e|..] == rest;
  }

  /** The beginning of a multi-byte character is not text. */
  lemma CutCharFails(c: char, m: nat)
    requires 0 < m < |EncodeChar(c)|
    ensures DecodeChar(EncodeChar(c)[..m]).None?
  {
    LeadAnnounces(c);
  }

  /** Decoding a text followed by more bytes depends only on those bytes. */
  lemma {:induction false} DecodeAfter(s: string, more: Bytes)
    ensures Decode(Encode(s) + more) == if Decode(more).Some? then Some(s + Decode(more).value) else None
  {
    if s == "" {
      assert Encode(s) + more == more;
      if Decode(more).Some? { assert "" + Decode(more).value == Decode(more).value; }
    } else {
      assert Encode(s) + more == EncodeChar(s[0]) + (Encode(s[1..]) + more);
      CharDecodes(s[0], Encode(s[1..]) + more);
      DecodeAfter(s[1..], more);
      if Decode(more).Some? { assert [s[0]] + (s[1..] + Decode(more).value) == s + Decode(more).value; }
    }
  }

  lemma DecodeEncode(s: string)
    ensures Decode(Encode(s)) == Some(s)
  {
    DecodeAfter(s, []);
    assert Encode(s) + [] == Encode(s) && s + "" == s;
  }

  lemma CutTextFails(s: string, c: char, m: nat)
    requires 0 < m < |EncodeChar(c)|
    ensures Decode(Encode(s) + EncodeChar(c)[..m]).None?
  {
    CutCharFails(c, m);
    DecodeAfter(s, EncodeChar(c)[..m]);
  }

  lemma {:induction false} EncodeConcat(s: string, t: string)
    ensures Encode(s + t) == Encode(s) + Encode(t)
  {
    if s == "" {
      assert s + t == t;
    } else {
      assert (s + t)[1..] == s[1..] + t;
      EncodeConcat(s[1..], t);
    }
  }

  /** The bytes of `j` whole characters and `m` bytes of the next one. */
  function CutBytes(s: string, j: nat, m: nat): Bytes
    requires j <= |s| && (m == 0 || (j < |s| && m < |EncodeChar(s[j])|))
  {
    Encode(s[..j]) + (if m == 0 then [] else EncodeChar(s[j])[..m])
  }

  lemma CutShifts(s: string, j: nat, m: nat)
    requires s != "" && j < |s| && (m == 0 || (j + 1 < |s| && m < |EncodeChar(s[j + 1])|))
    ensures CutBytes(s, j + 1, m) == EncodeChar(s[0]) + CutBytes(s[1..], j, m)
  {
    assert s[..j + 1][1..] == s[1..][..j];
    var rest := if m == 0 then [] else EncodeChar(s[j + 1])[..m];
    assert EncodeChar(s[0]) + (Encode(s[1..][..j]) + rest) == (EncodeChar(s[0]) + Encode(s[1..][..j])) + rest;
  }

  lemma TakeAfter(e: Bytes, rest: Bytes, n: nat)
    requires |e| <= n <= |e| + |rest|
    ensures (e + rest)[..n] == e + rest[..n - |e|]
  {
  }

  /** Where a cut after `n` bytes falls. */
  lemma {:induction false} CutPosition(s: string, n: nat) returns (j: nat, m: nat)
    requires n <= |Encode(s)|
    ensures j <= |s| && (m == 0 || (j < |s| && m < |EncodeChar(s[j])|))
    ensures Encode(s)[..n] == CutBytes(s, j, m)
  {
    if n == 0 {
      j, m := 0, 0;
    } else {
      var e := EncodeChar(s[0]);
      if n < |e| {
        j, m := 0, n;
        assert Encode(s)[..n] == e[..n];
      } else {
        var j', m' := CutPosition(s[1..], n - |e|);
        j, m := j' + 1, m';
        TakeAfter(e, Encode(s[1..]), n);
        CutShifts(s, j', m);
      }
    }
  }

  /** A cut after whole characters. */
  lemma CutWhole(s: string, j: nat)
    requires j <= |s|
    ensures |Encode(s[..j])| <= |Encode(s)| && Encode(s)[..|Encode(s[..j])|] == Encode(s[..j])
    ensures |Encode(s[..j])| < |Encode(s)| <==> j < |s|
  {
    EncodeConcat(s[..j], s[j..]);
    assert s == s[..j] + s[j..];
    assert j < |s| ==> Encode(s[j..]) != [];
  }

  /** A cut one byte into a multi-byte character. */
  lemma CutInside(s: string, i: nat)
    requires i < |s| && s[i] as int >= 0x80
    ensures var n := |Encode(s[..i])| + 1;
            n < |Encode(s)| && Encode(s)[..n] == CutBytes(s, i, 1)
  {
    var e := EncodeChar(s[i]);
    EncodeConcat(s[..i], s[i..]);
    assert s == s[..i] + s[i..];
    assert Encode(s[i..]) == e + Encode(s[i..][1..]);
  }

  lemma {:induction false} AsciiLength(s: string)
    requires forall i :: 0 <= i < |s| ==> s[i] as int < 0x80
    ensures |Encode(s)| == |s|
  {
    if s != "" { AsciiLength(s[1..]); }
  }

  /** Text without control characters has no newline byte. */
  lemma {:induction false} NoNewlineByte(s: string)
    requires forall i :: 0 <= i < |s| ==> s[i] as int >= 0x20
    ensures forall i :: 0 <= i < |Encode(s)| ==> Encode(s)[i] != 10
  {
    if s != "" { NoNewlineByte(s[1..]); }
  }
}
