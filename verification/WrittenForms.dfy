/**
 The characters that are really written: every escape, and the punctuation, numbers, key order and bytes of
 typical texts.
 */
module WrittenForms {
  import opened Text
  import opened Numbers
  import opened Json
  import opened Canonical
  import opened AuditRecords
  import opened LedgerEntry
  import Utf8

  const HEX := "0123456789abcdef"

  /** A code unit as \u and four lower-case hex digits. */
  function Hex4(u: nat): string
    requires u < 0x1_0000
  {
    "\\u" + [HEX[u / 0x1000], HEX[u / 0x100 % 0x10], HEX[u / 0x10 % 0x10], HEX[u % 0x10]]
  }

  lemma HexDigitForm(d: nat)
    requires d < 16
    ensures HexDigit(d) == HEX[d]
  {
  }

  lemma UnitForm(u: nat)
    requires u < 0x1_0000
    ensures UnitEscape(u) == Hex4(u)
  {
    HexDigitForm(u / 0x1000);
    HexDigitForm(u / 0x100 % 0x10);
    HexDigitForm(u / 0x10 % 0x10);
    HexDigitForm(u % 0x10);
  }

  /** The short escapes of section 7 of RFC 8259 that the ports use. */
  const SHORT := map['"' := "\\\"", '\\' := "\\\\", 8 as char := "\\b", 9 as char := "\\t", 10 as char := "\\n",
                     12 as char := "\\f", 13 as char := "\\r"]

  /**
   What each character of a string is written as: its short escape if there is one; otherwise itself, unless it
   is a control character or, in the ASCII styles, lies beyond '~': then its UTF-16 units in hex.
   */
  lemma EscapeForms(style: Style, c: char)
    ensures EscapeChar(style, c) ==
            if c in SHORT then SHORT[c]
            else if ' ' <= c && (c <= '~' || !style.ascii) then [c]
            else if c as int < 0x1_0000 then Hex4(c as int)
            else Hex4(0xD800 + (c as int - 0x1_0000) / 0x400) + Hex4(0xDC00 + (c as int - 0x1_0000) % 0x400)
  {
    if c as int < 0x1_0000 {
      UnitForm(c as int);
    } else {
      UnitForm(HighSurrogate(c));
      UnitForm(LowSurrogate(c));
    }
  }

  /** The texts one after the other, separated by `sep`. */
  function Join(texts: seq<string>, sep: string): string
  {
    if texts == [] then "" else if |texts| == 1 then texts[0] else texts[0] + (sep + Join(texts[1..], sep))
  }

  function ItemTexts(style: Style, items: seq<Json>): seq<string>
  {
    seq(|items|, i requires 0 <= i < |items| => Encode(style, items[i]))
  }

  function MemberTexts(style: Style, ms: seq<Member>): seq<string>
  {
    seq(|ms|, i requires 0 <= i < |ms| => Quote(style, ms[i].key) + (KeySep(style) + Encode(style, ms[i].value)))
  }

  lemma JoinNext(head: string, sep: string, rest: string, end: string)
    ensures head + (sep + (rest + end)) == (head + (sep + rest)) + end
  {
  }

  lemma {:induction false} ItemsJoined(style: Style, items: seq<Json>)
    requires items != []
    ensures EncodeItems(style, items) == Join(ItemTexts(style, items), ItemSep(style)) + "]"
  {
    if |items| > 1 {
      ItemsJoined(style, items[1..]);
      assert ItemTexts(style, items)[1..] == ItemTexts(style, items[1..]);
      JoinNext(Encode(style, items[0]), ItemSep(style), Join(ItemTexts(style, items[1..]), ItemSep(style)), "]");
    }
  }

  lemma MemberNext(key: string, colon: string, value: string, rest: string)
    ensures key + (colon + (value + rest)) == (key + (colon + value)) + rest
  {
  }

  lemma {:induction false} MembersJoined(style: Style, ms: seq<Member>)
    requires ms != []
    ensures EncodeMembers(style, ms) == Join(MemberTexts(style, ms), ItemSep(style)) + "}"
  {
    var first := MemberTexts(style, ms)[0];
    MemberNext(Quote(style, ms[0].key), KeySep(style), Encode(style, ms[0].value), AfterMember(style, ms));
    assert EncodeMembers(style, ms) == first + AfterMember(style, ms);
    if |ms| > 1 {
      MembersJoined(style, ms[1..]);
      assert MemberTexts(style, ms)[1..] == MemberTexts(style, ms[1..]);
      JoinNext(first, ItemSep(style), Join(MemberTexts(style, ms[1..]), ItemSep(style)), "}");
    }
  }

  /** The punctuation of arrays and objects: none but brackets, commas and colons in the compact styles. */
  lemma TextForms(style: Style, items: seq<Json>, ms: seq<Member>)
    ensures var comma, colon := if style.spaced then ", " else ",", if style.spaced then ": " else ":";
            ItemSep(style) == comma && KeySep(style) == colon &&
            Encode(style, Arr(items)) == "[" + (Join(ItemTexts(style, items), comma) + "]") &&
            Encode(style, Obj(ms)) == "{" + (Join(MemberTexts(style, ms), comma) + "}")
  {
    if items != [] { ItemsJoined(style, items); }
    if ms != [] { MembersJoined(style, ms); }
  }

  lemma BracesAround(e: string)
    ensures "{" + ("\"" + ("key" + ("\"" + (":" + ("\"" + (e + "\"}")))))) == "{\"key\":\"" + e + "\"}"
  {
  }

  /** A line of the key file. */
  lemma EntryForm(key: string)
    ensures EntryText(key) == "{\"key\":\"" + Escape(COMPACT, key) + "\"}"
  {
    hide Escape, EntryText;
    EntryParts(key);
    KeyEscapes();
    BracesAround(Escape(COMPACT, key));
  }

  /** Which styles the ports sign in, and which they write lines in. */
  lemma StyleForms(p: Port)
    ensures !CanonicalStyle(p).spaced && (CanonicalStyle(p).ascii <==> p.Python?)
    ensures (LineStyle(p).spaced <==> p.Python?) && (LineStyle(p).ascii <==> p.Python?)
    ensures LineStyle(p).numbers == CanonicalStyle(p).numbers ==
            if p.Rust? then p.numbers else if p.Python? then REPR else ECMA
  {
  }

  /** The keys of a written record, in order. */
  lemma RecordForm(r: AuditRecord)
    ensures seq(|RecordMembers(r)|, i requires 0 <= i < |RecordMembers(r)| => RecordMembers(r)[i].key) ==
            ["ts", "event", "actor", "inputs", "sources"] + (if r.confidence.Some? then ["confidence"] else []) +
            (if r.rationale.Some? then ["rationale"] else []) + ["prev_sig", "sig"]
  {
  }

  lemma DigitForm(n: nat)
    requires n < 100
    ensures Dec(n) == if n < 10 then [Digit(n)] else [Digit(n / 10), Digit(n % 10)]
  {
  }

  /** Where Python's numbers change to an exponent, and what it looks like. */
  lemma PythonForms()
    ensures DoubleText(REPR, Shape(false, "15", 1)) == "1.5" && DoubleText(REPR, Shape(true, "", 0)) == "-0.0"
    ensures DoubleText(REPR, Shape(false, "1", -3)) == "0.0001" && DoubleText(REPR, Shape(false, "1", -4)) == "1e-05"
    ensures DoubleText(REPR, Shape(false, "12", 3)) == "120.0" && DoubleText(REPR, Shape(false, "1", 17)) == "1e+16"
    ensures Positional(REPR, Shape(false, "1", 16))
  {
    DigitForm(5);
    DigitForm(16);
    assert Zeros(3) == "000" && Zeros(1) == "0";
  }

  /** Where JavaScript's do. */
  lemma JavaScriptForms()
    ensures DoubleText(ECMA, Shape(false, "15", 1)) == "1.5"
    ensures DoubleText(ECMA, Shape(false, "1", -5)) == "0.000001" && DoubleText(ECMA, Shape(false, "1", -6)) == "1e-7"
    ensures DoubleText(ECMA, Shape(false, "12", 22)) == "1.2e+21" && Positional(ECMA, Shape(false, "1", 21))
  {
    SmallForms();
    LargeForms();
  }

  lemma SmallForms()
    ensures DoubleText(ECMA, Shape(false, "1", -5)) == "0.000001" && DoubleText(ECMA, Shape(false, "1", -6)) == "1e-7"
  {
    DigitForm(7);
    assert Zeros(5) == "00000";
  }

  lemma LargeForms()
    ensures DoubleText(ECMA, Shape(false, "12", 22)) == "1.2e+21"
  {
    DigitForm(21);
  }

  lemma KeyValues()
    ensures NatOf("2") == 2 && NatOf("10") == 10
  {
    assert "2"[..0] == "" && "10"[..1] == "1" && "1"[..0] == "";
    assert NatOf("1") == 1;
  }

  /**
   TypeScript lists array indices first and by value, then other keys by UTF-16 units; the others compare
   characters: one beyond the basic plane comes last there and before U+E000 to U+FFFF in TypeScript.
   */
  lemma KeyForms(p: Port, low: char, high: char)
    requires !p.TypeScript? && 0xE000 <= low as int < 0x1_0000 <= high as int
    ensures KeyLess(TypeScript, "2", "10") && KeyLess(TypeScript, "10", "01") && KeyLess(TypeScript, "10", "")
    ensures KeyLess(p, "10", "2") && KeyLess(p, "01", "10") && KeyLess(p, "", "10")
    ensures KeyLess(TypeScript, [high], [low]) && KeyLess(p, [low], [high])
  {
    KeyValues();
    assert Codes("10")[0] == 0x31 && Codes("2")[0] == 0x32 && Codes("01")[0] == 0x30;
    assert [low][1..] == "" && [high][1..] == "";
    assert Utf16([low])[0] == low as int && Utf16([high])[0] == HighSurrogate(high);
    assert Codes([low])[0] == low as int && Codes([high])[0] == high as int;
    assert !IsDigit(low) && !IsDigit(high) && [low][0] == low && [high][0] == high;
    assert "01"[0] == '0';
  }

  /** The examples of section 7 of RFC 3629. */
  lemma ByteForms()
    ensures Utf8.EncodeChar('A') == [0x41] && Utf8.EncodeChar(0x391 as char) == [0xCE, 0x91]
    ensures Utf8.EncodeChar(0x2262 as char) == [0xE2, 0x89, 0xA2]
    ensures Utf8.EncodeChar(0x2_33B4 as char) == [0xF0, 0xA3, 0x8E, 0xB4]
  {
  }
}
