/** Parsing is a left inverse of encoding, in every style; hence encoding is injective. */
module JsonRoundTrip {
  import opened Text
  import opened Numbers
  import opened Json

  lemma HexDigitValue(d: nat)
    requires d < 16
    ensures HexValue(HexDigit(d)) == Some(d)
  {
  }

  lemma HexDecomposition(u: nat)
    requires u < 0x10000
    ensures u == u / 4096 * 4096 + u / 256 % 16 * 256 + u / 16 % 16 * 16 + u % 16
  {
    assert u / 16 == u / 256 * 16 + u / 16 % 16;
    assert u / 256 == u / 4096 * 16 + u / 256 % 16;
  }

  /** The four digits of \uXXXX give the code unit back. */
  lemma UnitEscapeParses(u: nat, rest: string)
    requires u < 0x10000
    ensures ParseHex4(UnitEscape(u)[2..] + rest) == Some(u)
    ensures (UnitEscape(u)[2..] + rest)[4..] == rest
  {
    HexDigitValue(u / 4096);
    HexDigitValue(u / 256 % 16);
    HexDigitValue(u / 16 % 16);
    HexDigitValue(u % 16);
    HexDecomposition(u);
  }

  /** One step of the string parser over one escaped character. */
  function ParseChar(s: string): Option<(char, string)>
    requires s != ""
  {
    if s[0] == '\\' then ParseEscape(s[1..]) else Some((s[0], s[1..]))
  }

  /** A surrogate pair gives one character back. */
  lemma SurrogatesParse(high: nat, low: nat, rest: string)
    requires 0xD800 <= high < 0xDC00 <= low < 0xE000
    ensures ParseUnit(UnitEscape(high)[2..] + (UnitEscape(low) + rest))
         == Some(((0x10000 + (high - 0xD800) * 0x400 + (low - 0xDC00)) as char, rest))
  {
    var tail := UnitEscape(low) + rest;
    var s := UnitEscape(high)[2..] + tail;
    UnitEscapeParses(high, tail);
    assert s[4..] == tail;
    UnitEscapeParses(low, rest);
    assert s[6..] == UnitEscape(low)[2..] + rest;
    assert s[10..] == rest;
  }

  lemma PairEscapeParses(high: nat, low: nat, c: char, rest: string)
    requires 0xD800 <= high < 0xDC00 <= low < 0xE000
    requires c as int == 0x10000 + (high - 0xD800) * 0x400 + (low - 0xDC00)
    ensures ParseEscape((UnitEscape(high) + UnitEscape(low) + rest)[1..]) == Some((c, rest))
  {
    var s := (UnitEscape(high) + UnitEscape(low) + rest)[1..];
    assert s[0] == 'u';
    assert s[1..] == UnitEscape(high)[2..] + (UnitEscape(low) + rest);
    SurrogatesParse(high, low, rest);
  }

  lemma UnitCharParses(c: char, rest: string)
    requires c as int < 0x10000
    ensures ParseChar(UnitEscape(c as int) + rest) == Some((c, rest))
  {
    var s := UnitEscape(c as int) + rest;
    UnitEscapeParses(c as int, rest);
    assert s[1..][1..] == UnitEscape(c as int)[2..] + rest;
  }

  lemma AstralCharParses(c: char, rest: string)
    requires c as int >= 0x10000
    ensures var s := UnitEscape(HighSurrogate(c)) + UnitEscape(LowSurrogate(c)) + rest;
            s[0] == '\\' && ParseEscape(s[1..]) == Some((c, rest))
  {
    PairEscapeParses(HighSurrogate(c), LowSurrogate(c), c, rest);
  }

  lemma ShortEscapeParses(style: Style, c: char, rest: string)
    requires |EscapeChar(style, c)| <= 2
    ensures ParseChar(EscapeChar(style, c) + rest) == Some((c, rest))
  {
    var e := EscapeChar(style, c);
    if |e| == 1 {
      assert (e + rest)[1..] == rest;
    } else {
      assert (e + rest)[1..][1..] == rest;
    }
  }

  lemma EscapeCharParses(style: Style, c: char, rest: string)
    ensures var s := EscapeChar(style, c) + rest;
            s[0] != '"' && s[0] as int >= 0x20 && ParseChar(s) == Some((c, rest))
  {
    if |EscapeChar(style, c)| <= 2 {
      ShortEscapeParses(style, c, rest);
    } else if c as int >= 0x10000 {
      AstralCharParses(c, rest);
    } else {
      UnitCharParses(c, rest);
    }
  }

  lemma {:induction false} EscapeParses(style: Style, t: string, rest: string)
    ensures ParseBody(Escape(style, t) + ("\"" + rest)) == Some((t, rest))
  {
    if t == "" {
      assert Escape(style, t) + ("\"" + rest) == "\"" + rest;
      assert ("\"" + rest)[1..] == rest;
    } else {
      var more := Escape(style, t[1..]) + ("\"" + rest);
      assert Escape(style, t) + ("\"" + rest) == EscapeChar(style, t[0]) + more;
      EscapeCharParses(style, t[0], more);
      EscapeParses(style, t[1..], rest);
      assert [t[0]] + t[1..] == t;
    }
  }

  lemma QuoteParses(style: Style, t: string, rest: string)
    ensures var s := Quote(style, t) + rest;
            s[0] == '"' && ParseBody(s[1..]) == Some((t, rest))
  {
    var s := Quote(style, t) + rest;
    assert s[1..] == Escape(style, t) + ("\"" + rest);
    EscapeParses(style, t, rest);
  }

  lemma SkipNoSpace(s: string)
    requires s == "" || !IsSpace(s[0])
    ensures SkipSpace(s) == s
  {
  }

  /** What the encoder writes first tells the kinds of values apart. */
  lemma FirstChar(style: Style, v: Json)
    ensures var c := Encode(style, v)[0];
            !IsSpace(c) && c != ']' && c != '}' &&
            match v
            case Null => c == 'n'
            case Bool(b) => c == (if b then 't' else 'f')
            case Num(_) => c == '-' || IsDigit(c)
            case Str(_) => c == '"'
            case Arr(_) => c == '['
            case Obj(_) => c == '{'
  {
    if v.Num? { NumberTextStarts(style.numbers, v.x); }
  }

  lemma KeywordParses(rest: string)
    ensures ParseToken("null" + rest) == Some((Null, rest))
    ensures ParseToken("true" + rest) == Some((Bool(true), rest))
    ensures ParseToken("false" + rest) == Some((Bool(false), rest))
  {
    StartsWithConcat("null", rest);
    StartsWithConcat("true", rest);
    StartsWithConcat("false", rest);
  }

  lemma NumberToken(s: string)
    requires s != "" && (s[0] == '-' || IsDigit(s[0]))
    ensures ParseToken(s) == ParseNumberToken(s)
  {
  }

  lemma NumberTokenParses(style: Style, x: Number, rest: string)
    requires EndsNumber(rest)
    ensures ParseToken(NumberText(style.numbers, x) + rest) == Some((Num(x), rest))
  {
    var s := NumberText(style.numbers, x) + rest;
    NumberTextStarts(style.numbers, x);
    assert s[0] == NumberText(style.numbers, x)[0];
    NumberToken(s);
    NumberParses(style.numbers, x, rest);
  }

  lemma StringParses(style: Style, t: string, rest: string)
    ensures ParseToken(Quote(style, t) + rest) == Some((Str(t), rest))
  {
    QuoteParses(style, t, rest);
  }

  lemma ScalarParses(style: Style, v: Json, rest: string)
    requires !v.Arr? && !v.Obj?
    requires EndsNumber(rest)
    ensures ParseToken(Encode(style, v) + rest) == Some((v, rest))
  {
    match v
    case Num(x) => NumberTokenParses(style, x, rest);
    case Str(t) => StringParses(style, t, rest);
    case _ => KeywordParses(rest);
  }

  /** A container's text after its opening bracket or brace. */
  function ContainerTail(style: Style, v: Json): string
    requires v.Arr? || v.Obj?
  {
    if v.Arr? then if v.items == [] then "]" else EncodeItems(style, v.items)
    else if v.members == [] then "}" else EncodeMembers(style, v.members)
  }

  lemma BracketOpens(s: string)
    ensures ParseToken("[" + s) == ParseArray(s) && ParseToken("{" + s) == ParseObject(s)
  {
    assert ("[" + s)[1..] == s && ("{" + s)[1..] == s;
  }

  lemma ContainerOpens(style: Style, v: Json, rest: string)
    requires v.Arr? || v.Obj?
    ensures var s := ContainerTail(style, v) + rest;
            ParseToken(Encode(style, v) + rest) == if v.Arr? then ParseArray(s) else ParseObject(s)
  {
    var open, tail := if v.Arr? then "[" else "{", ContainerTail(style, v);
    assert Encode(style, v) == open + tail;
    Associative(open, tail, rest);
    BracketOpens(tail + rest);
  }

  /** The parser reads back exactly the encoded value and stops right after it. */
  lemma {:induction false} EncodeParses(style: Style, v: Json, rest: string)
    requires EndsNumber(rest)
    ensures ParseValue(Encode(style, v) + rest) == Some((v, rest))
    decreases v, 0
  {
    FirstChar(style, v);
    assert (Encode(style, v) + rest)[0] == Encode(style, v)[0];
    SkipNoSpace(Encode(style, v) + rest);
    match v
    case Arr(items) =>
      if items != [] { ItemsParse(style, items, rest); }
      ArrayParses(style, items, rest);
      ContainerOpens(style, v, rest);
    case Obj(members) =>
      if members != [] { MembersParse(style, members, rest); }
      ObjectParses(style, members, rest);
      ContainerOpens(style, v, rest);
    case _ => ScalarParses(style, v, rest);
  }

  lemma ArrayParses(style: Style, items: seq<Json>, rest: string)
    requires items != [] ==> ParseItems(EncodeItems(style, items) + rest) == Some((items, rest))
    ensures ParseArray(ContainerTail(style, Arr(items)) + rest) == Some((Arr(items), rest))
  {
    if items == [] {
      SkipNoSpace("]" + rest);
      assert ("]" + rest)[1..] == rest;
    } else {
      var inner := EncodeItems(style, items) + rest;
      FirstChar(style, items[0]);
      assert inner[0] == Encode(style, items[0])[0];
      SkipNoSpace(inner);
    }
  }

  lemma ObjectParses(style: Style, members: seq<Member>, rest: string)
    requires members != [] ==> ParseMembers(EncodeMembers(style, members) + rest) == Some((members, rest))
    ensures ParseObject(ContainerTail(style, Obj(members)) + rest) == Some((Obj(members), rest))
  {
    if members == [] {
      SkipNoSpace("}" + rest);
      assert ("}" + rest)[1..] == rest;
    } else {
      var inner := EncodeMembers(style, members) + rest;
      assert inner[0] == '"';
      SkipNoSpace(inner);
    }
  }

  /** Skipping the separator and its space in the spaced style. */
  lemma SeparatorSkips(sep: string, spaced: bool, more: string)
    requires |sep| == 1 && !IsSpace(sep[0]) && !IsDigit(sep[0])
    requires more != "" && !IsSpace(more[0])
    ensures var s := (if spaced then sep + " " else sep) + more;
            SkipSpace(s) == s && s[0] == sep[0] && SkipSpace(s[1..]) == more
  {
    var s := (if spaced then sep + " " else sep) + more;
    if spaced {
      assert s[1..] == " " + more;
      assert s[1..][1..] == more;
      SkipNoSpace(more);
    } else {
      assert s[1..] == more;
      SkipNoSpace(more);
    }
  }

  lemma {:induction false} SkipIdempotent(s: string)
    ensures SkipSpace(SkipSpace(s)) == SkipSpace(s)
  {
    SkipNoSpace(SkipSpace(s));
  }

  /** Leading white space does not matter to any of the parsers. */
  lemma LeadingSpaceValue(s: string)
    ensures ParseValue(s) == ParseValue(SkipSpace(s))
  {
    SkipIdempotent(s);
  }

  lemma LeadingSpaceItems(s: string)
    ensures ParseItems(s) == ParseItems(SkipSpace(s))
  {
    LeadingSpaceValue(s);
  }

  lemma LeadingSpaceMembers(s: string)
    ensures ParseMembers(s) == ParseMembers(SkipSpace(s))
  {
    SkipIdempotent(s);
  }

  lemma {:induction false} ItemsParse(style: Style, items: seq<Json>, rest: string)
    requires items != []
    ensures ParseItems(EncodeItems(style, items) + rest) == Some((items, rest))
    decreases items, 1
  {
    var item := Encode(style, items[0]);
    var s := EncodeItems(style, items) + rest;
    if |items| == 1 {
      assert s == item + ("]" + rest);
      EncodeParses(style, items[0], "]" + rest);
      SkipNoSpace("]" + rest);
      assert ("]" + rest)[1..] == rest;
      assert items == [items[0]];
    } else {
      var more := EncodeItems(style, items[1..]) + rest;
      var after := ItemSep(style) + more;
      assert s == item + after;
      FirstChar(style, items[1]);
      assert more[0] == Encode(style, items[1])[0];
      SeparatorSkips(",", style.spaced, more);
      EncodeParses(style, items[0], after);
      LeadingSpaceItems(after[1..]);
      ItemsParse(style, items[1..], rest);
      assert items == [items[0]] + items[1..];
    }
  }

  /** One member's text: its key, then a colon and its value, then `tail`. */
  function KeyTail(style: Style, m: Member, tail: string): string
  {
    KeySep(style) + (Encode(style, m.value) + tail)
  }

  lemma KeyParses(style: Style, m: Member, tail: string)
    ensures var s := Quote(style, m.key) + KeyTail(style, m, tail);
            SkipSpace(s) == s && At(s, '"') && ParseBody(s[1..]) == Some((m.key, KeyTail(style, m, tail)))
  {
    QuoteParses(style, m.key, KeyTail(style, m, tail));
    SkipNoSpace(Quote(style, m.key) + KeyTail(style, m, tail));
  }

  lemma ColonParses(style: Style, m: Member, tail: string)
    ensures var s := KeyTail(style, m, tail);
            SkipSpace(s) == s && At(s, ':') && ParseValue(s[1..]) == ParseValue(Encode(style, m.value) + tail)
  {
    var value := Encode(style, m.value) + tail;
    FirstChar(style, m.value);
    assert value[0] == Encode(style, m.value)[0];
    SeparatorSkips(":", style.spaced, value);
    LeadingSpaceValue(KeyTail(style, m, tail)[1..]);
  }

  lemma Regroup(a: string, b: string, c: string, d: string, e: string)
    ensures (a + (b + (c + d))) + e == a + (b + (c + (d + e)))
  {
  }

  lemma EncodeMembersSplit(style: Style, members: seq<Member>, rest: string)
    requires members != []
    ensures EncodeMembers(style, members) + rest
         == Quote(style, members[0].key) + KeyTail(style, members[0], AfterMember(style, members) + rest)
  {
    Regroup(Quote(style, members[0].key), KeySep(style), Encode(style, members[0].value),
            AfterMember(style, members), rest);
  }

  lemma SeparatedMembersParse(style: Style, members: seq<Member>, rest: string)
    requires |members| > 1
    requires ParseMembers(EncodeMembers(style, members[1..]) + rest) == Some((members[1..], rest))
    ensures var tail := AfterMember(style, members) + rest;
            tail[0] == ',' && ParseMembers(tail[1..]) == Some((members[1..], rest))
  {
    hide ParseMembers, Encode;
    var more := EncodeMembers(style, members[1..]) + rest;
    assert more[0] == '"';
    SeparatorSkips(",", style.spaced, more);
    assert AfterMember(style, members) + rest == ItemSep(style) + more;
    LeadingSpaceMembers((AfterMember(style, members) + rest)[1..]);
  }

  lemma {:induction false} MembersParse(style: Style, members: seq<Member>, rest: string)
    requires members != []
    ensures ParseMembers(EncodeMembers(style, members) + rest) == Some((members, rest))
    decreases members, 1
  {
    var m, tail := members[0], AfterMember(style, members) + rest;
    EncodeParses(style, m.value, tail);
    if |members| > 1 { MembersParse(style, members[1..], rest); }
    FirstMemberParses(style, members, rest);
  }

  lemma FirstMemberParses(style: Style, members: seq<Member>, rest: string)
    requires members != []
    requires var tail := AfterMember(style, members) + rest;
             ParseValue(Encode(style, members[0].value) + tail) == Some((members[0].value, tail))
    requires |members| > 1 ==>
               ParseMembers(EncodeMembers(style, members[1..]) + rest) == Some((members[1..], rest))
    ensures ParseMembers(EncodeMembers(style, members) + rest) == Some((members, rest))
  {
    var m, tail := members[0], AfterMember(style, members) + rest;
    if |members| == 1 {
      LastMemberParses(style, m, rest);
      assert members == [m];
    } else {
      SeparatedMembersParse(style, members, rest);
      NextMemberParses(style, m, tail, members[1..], rest);
      assert members == [m] + members[1..];
    }
    EncodeMembersSplit(style, members, rest);
  }

  lemma LastMemberParses(style: Style, m: Member, rest: string)
    requires ParseValue(Encode(style, m.value) + ("}" + rest)) == Some((m.value, "}" + rest))
    ensures ParseMembers(Quote(style, m.key) + KeyTail(style, m, "}" + rest))
         == Some(([m], rest))
  {
    KeyParses(style, m, "}" + rest);
    ColonParses(style, m, "}" + rest);
    SkipNoSpace("}" + rest);
    assert ("}" + rest)[1..] == rest;
  }

  lemma NextMemberParses(style: Style, m: Member, tail: string, members: seq<Member>, rest: string)
    requires tail != "" && tail[0] == ','
    requires ParseValue(Encode(style, m.value) + tail) == Some((m.value, tail))
    requires ParseMembers(tail[1..]) == Some((members, rest))
    ensures ParseMembers(Quote(style, m.key) + KeyTail(style, m, tail))
         == Some(([m] + members, rest))
  {
    KeyParses(style, m, tail);
    ColonParses(style, m, tail);
    SkipNoSpace(tail);
  }

  /** Every value is read back from its text, whatever the style. */
  lemma ParseEncode(style: Style, v: Json)
    ensures Parse(Encode(style, v)) == Some(v)
  {
    assert Encode(style, v) + "" == Encode(style, v);
    EncodeParses(style, v, "");
  }

  /** Equal texts come from equal values. */
  lemma EncodeInjective(style: Style, v: Json, w: Json)
    ensures Encode(style, v) == Encode(style, w) <==> v == w
  {
    ParseEncode(style, v);
    ParseEncode(style, w);
  }
}
