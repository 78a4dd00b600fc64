/**
 Cut texts: what the parser has read of a text it reads again in every longer one, so no proper beginning
 of the text of a string, an array, an object or a keyword is a value.
 */
module JsonCut {
  import opened Text
  import opened Numbers
  import opened Json
  import opened JsonRoundTrip

  // ---------------------------------------------------- reading a longer text

  lemma {:induction false} SkipExtends(s: string, more: string)
    requires SkipSpace(s) != ""
    ensures SkipSpace(s + more) == SkipSpace(s) + more
  {
    if IsSpace(s[0]) {
      assert (s + more)[1..] == s[1..] + more;
      SkipExtends(s[1..], more);
    }
  }

  lemma {:induction false} DigitsExtend(s: string, more: string)
    requires DigitRun(s) < |s|
    ensures var k := DigitRun(s);
            DigitRun(s + more) == k && (s + more)[..k] == s[..k] && (s + more)[k..] == s[k..] + more
  {
    var k := DigitRun(s);
    assert (s + more)[..k] == s[..k] && (s + more)[k..] == s[k..] + more;
    assert s[k..] + more != "" && !IsDigit((s[k..] + more)[0]);
    DigitRunConcat(s[..k], s[k..] + more);
  }

  lemma TailOf(s: string, more: string)
    requires s != ""
    ensures (s + more)[1..] == s[1..] + more && (s + more)[0] == s[0]
  {
  }

  lemma FracExtends(s: string, more: string)
    requires ParseFrac(s).Some? && ParseFrac(s).value.1 != ""
    ensures ParseFrac(s + more) == Some((ParseFrac(s).value.0, ParseFrac(s).value.1 + more))
  {
    TailOf(s, more);
    if At(s, '.') { DigitsExtend(s[1..], more); }
  }

  lemma ExpDigitsExtend(minus: bool, s: string, more: string)
    requires ParseExpDigits(minus, s).Some? && ParseExpDigits(minus, s).value.1 != ""
    ensures ParseExpDigits(minus, s + more) == Some((ParseExpDigits(minus, s).value.0, ParseExpDigits(minus, s).value.1 + more))
  {
    DigitsExtend(s, more);
  }

  lemma ExpExtends(s: string, more: string)
    requires ParseExp(s).Some? && ParseExp(s).value.1 != ""
    ensures ParseExp(s + more) == Some((ParseExp(s).value.0, ParseExp(s).value.1 + more))
  {
    TailOf(s, more);
    if At(s, 'e') || At(s, 'E') {
      if s[1..] != "" { TailOf(s[1..], more); }
      if At(s[1..], '-') || At(s[1..], '+') {
        assert (s + more)[2..] == s[2..] + more;
        ExpDigitsExtend(At(s[1..], '-'), s[2..], more);
      } else {
        ExpDigitsExtend(false, s[1..], more);
      }
    }
  }

  lemma MagnitudeExtends(neg: bool, s: string, more: string)
    requires ParseMagnitude(neg, s).Some? && ParseMagnitude(neg, s).value.1 != ""
    ensures ParseMagnitude(neg, s + more) == Some((ParseMagnitude(neg, s).value.0, ParseMagnitude(neg, s).value.1 + more))
  {
    var after := s[DigitRun(s)..];
    DigitsExtend(s, more);
    FracExtends(after, more);
    ExpExtends(ParseFrac(after).value.1, more);
    assert (s + more)[0] == s[0];
  }

  lemma NumberExtends(s: string, more: string)
    requires ParseNumber(s).Some? && ParseNumber(s).value.1 != ""
    ensures ParseNumber(s + more) == Some((ParseNumber(s).value.0, ParseNumber(s).value.1 + more))
  {
    TailOf(s, more);
    if At(s, '-') { MagnitudeExtends(true, s[1..], more); } else { MagnitudeExtends(false, s, more); }
  }

  lemma HexExtends(s: string, more: string)
    requires ParseHex4(s).Some?
    ensures ParseHex4(s + more) == ParseHex4(s)
  {
  }

  lemma UnitExtends(s: string, more: string)
    requires ParseUnit(s).Some?
    ensures ParseUnit(s + more) == Some((ParseUnit(s).value.0, ParseUnit(s).value.1 + more))
  {
    HexExtends(s, more);
    assert (s + more)[4..] == s[4..] + more;
    if |s| >= 10 {
      assert (s + more)[6..] == s[6..] + more && (s + more)[10..] == s[10..] + more;
      if ParseHex4(s[6..]).Some? { HexExtends(s[6..], more); }
    }
  }

  lemma EscapeExtends(s: string, more: string)
    requires ParseEscape(s).Some?
    ensures ParseEscape(s + more) == Some((ParseEscape(s).value.0, ParseEscape(s).value.1 + more))
  {
    TailOf(s, more);
    if s[0] == 'u' { UnitExtends(s[1..], more); }
  }

  lemma {:induction false} BodyExtends(s: string, more: string)
    requires ParseBody(s).Some?
    ensures ParseBody(s + more) == Some((ParseBody(s).value.0, ParseBody(s).value.1 + more))
    decreases |s|
  {
    TailOf(s, more);
    if s[0] != '"' {
      if s[0] == '\\' { EscapeExtends(s[1..], more); }
      BodyExtends(ParseChar(s).value.1, more);
    }
  }

  lemma PrefixStays(s: string, more: string, word: string)
    requires StartsWith(s, word)
    ensures StartsWith(s + more, word) && (s + more)[|word|..] == s[|word|..] + more
  {
    assert (s + more)[..|word|] == s[..|word|];
  }

  lemma KeywordExtends(s: string, more: string)
    requires ParseKeyword(s).Some?
    ensures ParseKeyword(s + more) == Some((ParseKeyword(s).value.0, ParseKeyword(s).value.1 + more))
  {
    var word := if StartsWith(s, "null") then "null" else if StartsWith(s, "true") then "true" else "false";
    PrefixStays(s, more, word);
    assert (s + more)[0] == s[0] == word[0];
  }

  /** The remaining text shows where the value ended: a number's end needs something after it. */
  predicate Ended(v: Json, rest: string) { rest != "" || !v.Num? }

  lemma {:induction false} ValueExtends(s: string, more: string)
    requires ParseValue(s).Some? && Ended(ParseValue(s).value.0, ParseValue(s).value.1)
    ensures ParseValue(s + more) == Some((ParseValue(s).value.0, ParseValue(s).value.1 + more))
    decreases |s|, 1
  {
    SkipExtends(s, more);
    TokenExtends(SkipSpace(s), more);
  }

  lemma {:induction false} TokenExtends(s: string, more: string)
    requires ParseToken(s).Some? && Ended(ParseToken(s).value.0, ParseToken(s).value.1)
    ensures ParseToken(s + more) == Some((ParseToken(s).value.0, ParseToken(s).value.1 + more))
    decreases |s|, 0
  {
    TailOf(s, more);
    if s[0] == '"' {
      BodyExtends(s[1..], more);
    } else if s[0] == '[' {
      ArrayExtends(s[1..], more);
    } else if s[0] == '{' {
      ObjectExtends(s[1..], more);
    } else if s[0] == '-' || IsDigit(s[0]) {
      NumberExtends(s, more);
    } else {
      KeywordExtends(s, more);
    }
  }

  lemma {:induction false} ArrayExtends(s: string, more: string)
    requires ParseArray(s).Some?
    ensures ParseArray(s + more) == Some((ParseArray(s).value.0, ParseArray(s).value.1 + more))
    decreases |s|, 3
  {
    var inner := SkipSpace(s);
    SkipExtends(s, more);
    TailOf(inner, more);
    if !At(inner, ']') { ItemsExtend(inner, more); }
  }

  lemma {:induction false} ObjectExtends(s: string, more: string)
    requires ParseObject(s).Some?
    ensures ParseObject(s + more) == Some((ParseObject(s).value.0, ParseObject(s).value.1 + more))
    decreases |s|, 3
  {
    var inner := SkipSpace(s);
    SkipExtends(s, more);
    TailOf(inner, more);
    if !At(inner, '}') { MembersExtend(inner, more); }
  }

  lemma {:induction false} ItemsExtend(s: string, more: string)
    requires ParseItems(s).Some?
    ensures ParseItems(s + more) == Some((ParseItems(s).value.0, ParseItems(s).value.1 + more))
    decreases |s|, 2
  {
    var after := SkipSpace(ParseValue(s).value.1);
    ValueExtends(s, more);
    SkipExtends(ParseValue(s).value.1, more);
    TailOf(after, more);
    if !At(after, ']') { ItemsExtend(after[1..], more); }
  }

  lemma {:induction false} MembersExtend(s: string, more: string)
    requires ParseMembers(s).Some?
    ensures ParseMembers(s + more) == Some((ParseMembers(s).value.0, ParseMembers(s).value.1 + more))
    decreases |s|, 2
  {
    hide ParseBody, ParseValue, SkipSpace;
    var key := SkipSpace(s);
    SkipExtends(s, more);
    TailOf(key, more);
    BodyExtends(key[1..], more);
    var colon := SkipSpace(ParseBody(key[1..]).value.1);
    SkipExtends(ParseBody(key[1..]).value.1, more);
    TailOf(colon, more);
    ValueExtends(colon[1..], more);
    var after := SkipSpace(ParseValue(colon[1..]).value.1);
    SkipExtends(ParseValue(colon[1..]).value.1, more);
    TailOf(after, more);
    if !At(after, '}') { MembersExtend(after[1..], more); }
  }

  // ----------------------------------------------------------------- cut texts

  lemma NumberStarts(s: string)
    requires ParseToken(s).Some? && ParseToken(s).value.0.Num?
    ensures s[0] == '-' || IsDigit(s[0])
  {
  }

  /** No proper beginning of a value's text is a value, unless the value is a number. */
  lemma CutFails(style: Style, v: Json, p: string)
    requires p < Encode(style, v) && !v.Num?
    ensures ParseValue(p).None? && Parse(p).None?
  {
    var full, more := Encode(style, v), Encode(style, v)[|p|..];
    assert full == p + more && full + "" == full;
    EncodeParses(style, v, "");
    if p != "" {
      FirstChar(style, v);
      assert p[0] == full[0];
      SkipNoSpace(p);
      if ParseValue(p).Some? {
        if ParseValue(p).value.0.Num? { NumberStarts(p); }
        ValueExtends(p, more);
      }
    }
  }
}
