/**
 JSON values, their encoding as text in the styles the three ports write, and a parser with the string
 escapes of section 7 and the numbers of section 6 of RFC 8259.
 */
module Json {
  import opened Text
  import opened Numbers

  /** An object keeps its members in insertion order, as the JavaScript and Python encoders do. */
  datatype Json =
    | Null
    | Bool(b: bool)
    | Num(x: Number)
    | Str(s: string)
    | Arr(items: seq<Json>)
    | Obj(members: seq<Member>)

  datatype Member = Member(key: string, value: Json)

  /**
   `ascii` escapes everything outside ' '..'~'; `spaced` writes ", " and ": "; `numbers` is the form of
   doubles.
   */
  datatype Style = Style(ascii: bool, spaced: bool, numbers: Notation)

  const COMPACT := Style(false, false, ECMA)
  const COMPACT_ASCII := Style(true, false, REPR)
  const SPACED_ASCII := Style(true, true, REPR)

  // -------------------------------------------------------------- encoding

  function HexDigit(d: nat): char
    requires d < 16
  {
    if d < 10 then ('0' as int + d) as char else ('a' as int + d - 10) as char
  }

  /** A 16-bit code unit as \uXXXX. */
  function UnitEscape(u: nat): (r: string)
    requires u < 0x10000
    ensures |r| == 6
  {
    ['\\', 'u', HexDigit(u / 4096), HexDigit(u / 256 % 16), HexDigit(u / 16 % 16), HexDigit(u % 16)]
  }

  /** The UTF-16 surrogates of a character outside the basic plane. */
  function HighSurrogate(c: char): (u: nat)
    requires c as int >= 0x10000
    ensures 0xD800 <= u < 0xDC00
  {
    0xD800 + (c as int - 0x10000) / 0x400
  }

  function LowSurrogate(c: char): (u: nat)
    requires c as int >= 0x10000
    ensures 0xDC00 <= u < 0xE000
    ensures c as int == 0x10000 + (HighSurrogate(c) - 0xD800) * 0x400 + (u - 0xDC00)
  {
    0xDC00 + (c as int - 0x10000) % 0x400
  }

  function EscapeChar(style: Style, c: char): (r: string)
    ensures r != ""
  {
    var code := c as int;
    if c == '"' then "\\\""
    else if c == '\\' then "\\\\"
    else if code == 8 then "\\b"
    else if code == 9 then "\\t"
    else if code == 10 then "\\n"
    else if code == 12 then "\\f"
    else if code == 13 then "\\r"
    else if code < 0x20 then UnitEscape(code)
    else if style.ascii && code > 0x7E then
      if code < 0x10000 then UnitEscape(code)
      else UnitEscape(HighSurrogate(c)) + UnitEscape(LowSurrogate(c))
    else [c]
  }

  function Escape(style: Style, s: string): string
  {
    if s == "" then "" else EscapeChar(style, s[0]) + Escape(style, s[1..])
  }

  function Quote(style: Style, s: string): string
  {
    "\"" + (Escape(style, s) + "\"")
  }

  function ItemSep(style: Style): string { if style.spaced then ", " else "," }

  function KeySep(style: Style): string { if style.spaced then ": " else ":" }

  function Encode(style: Style, v: Json): (r: string)
    ensures r != ""
    decreases v, 0
  {
    match v
    case Null => "null"
    case Bool(b) => if b then "true" else "false"
    case Num(x) =>
      NumberTextStarts(style.numbers, x);
      NumberText(style.numbers, x)
    case Str(s) => Quote(style, s)
    case Arr(items) => if items == [] then "[]" else "[" + EncodeItems(style, items)
    case Obj(members) => if members == [] then "{}" else "{" + EncodeMembers(style, members)
  }

  /** The items of a non-empty array and its closing bracket. */
  function EncodeItems(style: Style, items: seq<Json>): string
    requires items != []
    decreases items, 0
  {
    Encode(style, items[0]) +
    (if |items| == 1 then "]" else ItemSep(style) + EncodeItems(style, items[1..]))
  }

  /** The members of a non-empty object and its closing brace. */
  function EncodeMembers(style: Style, members: seq<Member>): string
    requires members != []
    decreases members, 1
  {
    Quote(style, members[0].key) +
    (KeySep(style) + (Encode(style, members[0].value) + AfterMember(style, members)))
  }

  /** What follows the first member. */
  function AfterMember(style: Style, members: seq<Member>): string
    requires members != []
    decreases members, 0
  {
    if |members| == 1 then "}" else ItemSep(style) + EncodeMembers(style, members[1..])
  }

  // --------------------------------------------------------------- parsing

  predicate IsSpace(c: char) { c == ' ' || c == '\t' || c == '\n' || c == '\r' }

  function SkipSpace(s: string): (r: string)
    ensures |r| <= |s|
    ensures r == "" || !IsSpace(r[0])
  {
    if s != "" && IsSpace(s[0]) then SkipSpace(s[1..]) else s
  }

  function HexValue(c: char): Option<nat>
  {
    if '0' <= c <= '9' then Some(c as int - '0' as int)
    else if 'a' <= c <= 'f' then Some(c as int - 'a' as int + 10)
    else if 'A' <= c <= 'F' then Some(c as int - 'A' as int + 10)
    else None
  }

  /** The code unit written by four hex digits. */
  function ParseHex4(s: string): (r: Option<nat>)
    ensures r.Some? ==> r.value < 0x10000 && |s| >= 4
  {
    if |s| < 4 then None
    else
      match (HexValue(s[0]), HexValue(s[1]), HexValue(s[2]), HexValue(s[3]))
      case (Some(a), Some(b), Some(c), Some(d)) =>
        if a < 16 && b < 16 && c < 16 && d < 16 then Some(a * 4096 + b * 256 + c * 16 + d) else None
      case _ => None
  }

  /** What follows a backslash: one escaped character and the remaining text. */
  function ParseEscape(s: string): (r: Option<(char, string)>)
    ensures r.Some? ==> |r.value.1| < |s|
  {
    if s == "" then None
    else if s[0] == '"' || s[0] == '\\' || s[0] == '/' then Some((s[0], s[1..]))
    else if s[0] == 'b' then Some((8 as char, s[1..]))
    else if s[0] == 't' then Some((9 as char, s[1..]))
    else if s[0] == 'n' then Some((10 as char, s[1..]))
    else if s[0] == 'f' then Some((12 as char, s[1..]))
    else if s[0] == 'r' then Some((13 as char, s[1..]))
    else if s[0] == 'u' then ParseUnit(s[1..])
    else None
  }

  /** The hex digits of \uXXXX; a high surrogate must be followed by an escaped low one. */
  function ParseUnit(s: string): (r: Option<(char, string)>)
    ensures r.Some? ==> |r.value.1| < |s|
  {
    match ParseHex4(s)
    case None => None
    case Some(u) =>
      if u < 0xD800 || u >= 0xE000 then Some((u as char, s[4..]))
      else if u >= 0xDC00 || |s| < 10 || s[4] != '\\' || s[5] != 'u' then None
      else
        match ParseHex4(s[6..])
        case None => None
        case Some(w) =>
          if 0xDC00 <= w < 0xE000 then
            Some(((0x10000 + (u - 0xD800) * 0x400 + (w - 0xDC00)) as char, s[10..]))
          else None
  }

  /** The body of a string literal after its opening quote, up to and including the closing one. */
  function ParseBody(s: string): (r: Option<(string, string)>)
    ensures r.Some? ==> |r.value.1| < |s|
    decreases |s|
  {
    if s == "" || s[0] as int < 0x20 then None
    else if s[0] == '"' then Some(("", s[1..]))
    else
      var next := if s[0] == '\\' then ParseEscape(s[1..]) else Some((s[0], s[1..]));
      match next
      case None => None
      case Some((c, rest)) =>
        match ParseBody(rest)
        case None => None
        case Some((t, rest')) => Some(([c] + t, rest'))
  }

  function ParseNumberToken(s: string): (r: Option<(Json, string)>)
    ensures r.Some? ==> |r.value.1| < |s|
  {
    match ParseNumber(s)
    case None => None
    case Some((x, rest)) => Some((Num(x), rest))
  }

  function ParseValue(text: string): (r: Option<(Json, string)>)
    ensures r.Some? ==> |r.value.1| < |text|
    decreases |text|, 1
  {
    ParseToken(SkipSpace(text))
  }

  function ParseKeyword(s: string): (r: Option<(Json, string)>)
    ensures r.Some? ==> |r.value.1| < |s|
  {
    if StartsWith(s, "null") then Some((Null, s[4..]))
    else if StartsWith(s, "true") then Some((Bool(true), s[4..]))
    else if StartsWith(s, "false") then Some((Bool(false), s[5..]))
    else None
  }

  /** A string after its opening quote. */
  function ParseString(s: string): (r: Option<(Json, string)>)
    ensures r.Some? ==> |r.value.1| < |s|
  {
    match ParseBody(s)
    case None => None
    case Some((t, rest)) => Some((Str(t), rest))
  }

  /** A value with no white space in front. */
  function ParseToken(s: string): (r: Option<(Json, string)>)
    ensures r.Some? ==> |r.value.1| < |s|
    decreases |s|, 0
  {
    if s == "" then None
    else if s[0] == '"' then ParseString(s[1..])
    else if s[0] == '[' then ParseArray(s[1..])
    else if s[0] == '{' then ParseObject(s[1..])
    else if s[0] == '-' || IsDigit(s[0]) then ParseNumberToken(s)
    else ParseKeyword(s)
  }

  /** An array after its opening bracket. */
  function ParseArray(s: string): (r: Option<(Json, string)>)
    ensures r.Some? ==> |r.value.1| < |s|
    decreases |s|, 3
  {
    var inner := SkipSpace(s);
    if At(inner, ']') then Some((Arr([]), inner[1..]))
    else
      match ParseItems(inner)
      case None => None
      case Some((items, rest)) => Some((Arr(items), rest))
  }

  /** An object after its opening brace. */
  function ParseObject(s: string): (r: Option<(Json, string)>)
    ensures r.Some? ==> |r.value.1| < |s|
    decreases |s|, 3
  {
    var inner := SkipSpace(s);
    if At(inner, '}') then Some((Obj([]), inner[1..]))
    else
      match ParseMembers(inner)
      case None => None
      case Some((members, rest)) => Some((Obj(members), rest))
  }

  function ParseItems(text: string): (r: Option<(seq<Json>, string)>)
    ensures r.Some? ==> |r.value.1| < |text|
    decreases |text|, 2
  {
    match ParseValue(text)
    case None => None
    case Some((item, more)) =>
      var after := SkipSpace(more);
      if At(after, ']') then Some(([item], after[1..]))
      else if At(after, ',') then
        match ParseItems(after[1..])
        case None => None
        case Some((items, rest)) => Some(([item] + items, rest))
      else None
  }

  function ParseMembers(text: string): (r: Option<(seq<Member>, string)>)
    ensures r.Some? ==> |r.value.1| < |text|
    decreases |text|, 2
  {
    var s := SkipSpace(text);
    if !At(s, '"') then None
    else
      match ParseBody(s[1..])
      case None => None
      case Some((key, more)) =>
        var colon := SkipSpace(more);
        if !At(colon, ':') then None
        else
          match ParseValue(colon[1..])
          case None => None
          case Some((value, more')) =>
            var after := SkipSpace(more');
            if At(after, '}') then Some(([Member(key, value)], after[1..]))
            else if At(after, ',') then
              match ParseMembers(after[1..])
              case None => None
              case Some((members, rest)) => Some(([Member(key, value)] + members, rest))
            else None
  }

  /** A whole text holding one value and nothing else but white space. */
  function Parse(text: string): Option<Json>
  {
    match ParseValue(text)
    case Some((v, rest)) => if SkipSpace(rest) == "" then Some(v) else None
    case None => None
  }

  // --------------------------------------------------------- object members

  predicate HasKey(ms: seq<Member>, key: string)
  {
    exists i :: 0 <= i < |ms| && ms[i].key == key
  }

  /** The value of a field that occurs exactly once; a repeated field is an error. */
  function Field(ms: seq<Member>, key: string): Option<Json>
  {
    if ms == [] then None
    else if ms[0].key != key then Field(ms[1..], key)
    else if HasKey(ms[1..], key) then None
    else Some(ms[0].value)
  }
}
