/** One line of the idempotency ledger: what a key's line is, and what its beginnings parse to. */
module LedgerEntry {
  import opened Text
  import opened Numbers
  import opened Json
  import opened JsonRoundTrip

  /** The text of a key's entry, `{"key":"..."}`. */
  function EntryText(key: string): string { Encode(COMPACT, Obj([Member("key", Str(key))])) }

  /**
   The typed reader of an entry: an object with exactly one `key` member, which is a string, other members
   being ignored; an array holding just the key is accepted as well.
   */
  function EntryOf(text: string): Option<string>
  {
    match Parse(text)
    case Some(Obj(ms)) => (match Field(ms, "key") case Some(Str(k)) => Some(k) case _ => None)
    case Some(Arr(items)) => if |items| == 1 && items[0].Str? then Some(items[0].s) else None
    case _ => None
  }

  function TrimEnd(s: string): (r: string)
    ensures |r| <= |s| && r == s[..|r|]
  {
    if s != "" && IsBlankChar(s[|s| - 1]) then TrimEnd(s[..|s| - 1]) else s
  }

  function TrimStart(s: string): string
  {
    if s != "" && IsBlankChar(s[0]) then TrimStart(s[1..]) else s
  }

  /** Rust's `trim`: Unicode white space removed at both ends. */
  function Trim(s: string): string { TrimEnd(TrimStart(s)) }

  // ------------------------------------------------------- whole entries

  /** The stages of an entry's text, each from one point on. */
  function ValueBody(key: string): string { Escape(COMPACT, key) + "\"}" }

  function FromColon(key: string): string { ":" + ("\"" + ValueBody(key)) }

  function KeyBody(key: string): string { Escape(COMPACT, "key") + ("\"" + FromColon(key)) }

  function FromKey(key: string): string { "\"" + KeyBody(key) }

  lemma ValueText(key: string)
    ensures Quote(COMPACT, key) + "}" == "\"" + ValueBody(key)
  {
    assert (Escape(COMPACT, key) + "\"") + "}" == Escape(COMPACT, key) + "\"}";
  }

  lemma MemberText(key: string)
    ensures EncodeMembers(COMPACT, [Member("key", Str(key))]) == FromKey(key)
  {
    ValueText(key);
    var v := ":" + (Quote(COMPACT, key) + "}");
    assert EncodeMembers(COMPACT, [Member("key", Str(key))]) == Quote(COMPACT, "key") + v;
    QuoteThen(Escape(COMPACT, "key"), v);
  }

  lemma QuoteThen(body: string, v: string)
    ensures ("\"" + (body + "\"")) + v == "\"" + (body + ("\"" + v))
  {
  }

  lemma EntryParts(key: string)
    ensures EntryText(key) == "{" + FromKey(key)
    ensures EntryText(key)[|EntryText(key)| - 1] == '}'
  {
    MemberText(key);
    ValueText(key);
  }

  lemma KeyEscapes()
    ensures Escape(COMPACT, "key") == "key"
  {
    assert "key"[1..] == "ey" && "ey"[1..] == "y" && "y"[1..] == "";
  }

  lemma EntryReads(key: string)
    ensures EntryOf(EntryText(key)) == Some(key)
  {
    ParseEncode(COMPACT, Obj([Member("key", Str(key))]));
  }

  /** Text that starts with '{' and ends with '}' is left alone by `trim`. */
  lemma TrimBraces(s: string)
    requires s != "" && s[0] == '{' && s[|s| - 1] == '}'
    ensures Trim(s) == s
  {
  }

  /** Text that starts with '{' loses only trailing white space. */
  lemma TrimKeepsStart(s: string)
    requires s != "" && s[0] == '{'
    ensures Trim(s) != "" && Trim(s)[0] == '{' && |Trim(s)| <= |s| && Trim(s) == s[..|Trim(s)|]
  {
    TrimEndNonBlank(s);
  }

  lemma {:induction false} TrimEndNonBlank(s: string)
    requires s != "" && !IsBlankChar(s[0])
    ensures TrimEnd(s) != ""
    decreases |s|
  {
    if IsBlankChar(s[|s| - 1]) { TrimEndNonBlank(s[..|s| - 1]); }
  }

  // ------------------------------------------------- beginnings of string bodies

  lemma Regroup(a: string, c: char, b: string, more: string)
    ensures (a + ([c] + b)) + more == a + ([c] + (b + more))
  {
  }

  lemma ConsConcat(c: char, b: string, more: string)
    ensures ([c] + b) + more == [c] + (b + more)
  {
  }

  /** A prefix of a concatenation ends in the first part or reaches into the second. */
  lemma PrefixCases(p: string, a: string, b: string) returns (rest: string)
    requires p <= a + b
    ensures |p| < |a| ==> p <= a
    ensures |p| >= |a| ==> p == a + rest && rest <= b
  {
    if |p| >= |a| {
      rest := p[|a|..];
      assert p == (a + b)[..|p|];
      assert a == p[..|a|];
      assert rest == b[..|rest|];
    } else {
      rest := "";
      assert p == (a + b)[..|p|] == a[..|p|];
    }
  }

  /** A non-empty prefix of a text with a known first character. */
  lemma PrefixCons(p: string, c: char, b: string) returns (rest: string)
    requires p != "" && p <= [c] + b
    ensures p == [c] + rest && p[0] == c && p[1..] == rest && rest <= b
    ensures rest == b <==> p == [c] + b
  {
    rest := p[1..];
    assert p == ([c] + b)[..|p|];
    assert rest == b[..|rest|];
  }

  /**
   What may follow the cut: nothing, or the text of another entry, of which only this is used: it begins
   with `{"k` and parses as one whole value.
   */
  ghost predicate Follows(more: string)
  {
    more == "" ||
    (|more| > 2 && more[0] == '{' && more[1] == '"' && more[2] == 'k' &&
     ParseValue(more).Some? && ParseValue(more).value.1 == "")
  }

  lemma EntryFollows(key: string)
    ensures Follows(EntryText(key)) && EntryText(key) != ""
  {
    EntryParts(key);
    KeyEscapes();
    assert EntryText(key) + "" == EntryText(key);
    EncodeParses(COMPACT, Obj([Member("key", Str(key))]), "");
  }

  /** A cut inside an escape sequence leaves something that what follows does not repair. */
  lemma CutEscape(c: char, p: string, more: string)
    requires p != "" && p < EscapeChar(COMPACT, c)
    requires more == "" || more[0] == '{'
    ensures ParseBody(p + more).None?
  {
    var e := EscapeChar(COMPACT, c);
    var s := p + more;
    assert p == e[..|p|];
    assert s[0] == '\\';
    if |p| == 1 {
      assert s[1..] == more;
    } else {
      assert s[1..][0] == e[1];
      var hex := s[1..][1..];
      assert hex == e[2..|p|] + more;
      assert |p| - 2 < |hex| ==> hex[|p| - 2] == '{';
      assert ParseHex4(hex).None?;
    }
  }

  /** What follows, without its opening `{"`. */
  function PastQuote(more: string): string { if |more| < 2 then "" else more[2..] }

  lemma BodyOfFollowing(more: string)
    requires Follows(more)
    ensures ParseBody(more).None? || ParseBody(more).value.1 == PastQuote(more)
  {
    if more != "" {
      assert more[1..][0] == '"' && more[1..][1..] == more[2..];
      assert ParseBody(more[1..]) == Some(("", more[2..]));
    }
  }

  /**
   The body of a string literal cut before its closing quote: if it parses at all, its closing quote is the
   first quote of what follows.
   */
  lemma {:induction false} CutBody(t: string, p: string, more: string)
    requires p <= Escape(COMPACT, t) && Follows(more)
    ensures var r := ParseBody(p + more); r.None? || r.value.1 == PastQuote(more)
    decreases |t|
  {
    if p == "" {
      assert p + more == more;
      BodyOfFollowing(more);
    } else {
      var e := EscapeChar(COMPACT, t[0]);
      var rest := PrefixCases(p, e, Escape(COMPACT, t[1..]));
      if |p| >= |e| {
        assert p + more == e + (rest + more);
        EscapeCharParses(COMPACT, t[0], rest + more);
        CutBody(t[1..], rest, more);
      } else {
        CutEscape(t[0], p, more);
      }
    }
  }

  // --------------------------------------------------- beginnings of whole entries

  /** What can be left over after a cut value: never a brace or a comma unless the whole entry was there. */
  ghost predicate Leftover(rest: string, more: string)
  {
    rest == "" || rest == more || rest == PastQuote(more)
  }

  lemma LeftoverStops(rest: string, more: string)
    requires Follows(more) && Leftover(rest, more)
    ensures SkipSpace(rest) == rest && !At(rest, '}') && !At(rest, ',') && !At(rest, ':')
  {
    if rest != "" { SkipNoSpace(rest); }
  }

  /** A cut after the opening quote of the value. */
  lemma CutValueBody(key: string, q: string, more: string)
    requires q <= ValueBody(key) && Follows(more)
    ensures var r := ParseBody(q + more);
            r.None? || Leftover(r.value.1, more) || (q == ValueBody(key) && r == Some((key, "}" + more)))
  {
    var e := Escape(COMPACT, key);
    var rest := PrefixCases(q, e, "\"}");
    if |q| < |e| {
      CutBody(key, q, more);
    } else if rest == "" {
      assert q == e;
      CutBody(key, q, more);
    } else {
      var last := PrefixCons(rest, '"', "}");
      assert last == "" || last == "}";
      Regroup(e, '"', last, more);
      EscapeParses(COMPACT, key, last + more);
      if last == "" { assert last + more == more; }
    }
  }

  /** A cut after the colon. */
  lemma CutValue(key: string, p: string, more: string)
    requires p <= "\"" + ValueBody(key) && Follows(more)
    ensures var r := ParseValue(p + more);
            r.None? || Leftover(r.value.1, more) ||
            (p == "\"" + ValueBody(key) && r == Some((Str(key), "}" + more)))
  {
    if p == "" {
      assert p + more == more;
    } else {
      var q := PrefixCons(p, '"', ValueBody(key));
      assert (p + more)[1..] == q + more;
      SkipNoSpace(p + more);
      CutValueBody(key, q, more);
    }
  }

  /** The members parser after the key, at the place where the colon belongs. */
  function AfterKey(colon: string): Option<string>
  {
    if !At(colon, ':') then None
    else
      match ParseValue(colon[1..])
      case None => None
      case Some((_, rest)) =>
        var after := SkipSpace(rest);
        if At(after, '}') then Some(after[1..])
        else if At(after, ',') then
          (match ParseMembers(after[1..]) case Some((_, end)) => Some(end) case None => None)
        else None
  }

  lemma MembersByKey(s: string, key: string, more: string)
    requires At(s, '"') && ParseBody(s[1..]) == Some((key, more))
    ensures ParseMembers(s).Some? <==> AfterKey(SkipSpace(more)).Some?
    ensures ParseMembers(s).Some? ==> ParseMembers(s).value.1 == AfterKey(SkipSpace(more)).value
  {
    SkipNoSpace(s);
  }

  /** A cut at or after the place of the colon. */
  lemma CutColon(key: string, p: string, more: string)
    requires p <= FromColon(key) && Follows(more)
    ensures var r := AfterKey(SkipSpace(p + more));
            r.None? || (p == FromColon(key) && r == Some(more))
  {
    hide ParseValue, Leftover, ValueBody;
    if p == "" {
      assert p + more == more;
      LeftoverStops(more, more);
    } else {
      var value := PrefixCons(p, ':', "\"" + ValueBody(key));
      assert (p + more)[1..] == value + more;
      SkipNoSpace(p + more);
      CutValue(key, value, more);
      var r := ParseValue(value + more);
      if r.Some? {
        if Leftover(r.value.1, more) {
          LeftoverStops(r.value.1, more);
        } else {
          SkipNoSpace("}" + more);
          assert ("}" + more)[1..] == more;
        }
      }
    }
  }

  /** A cut after the opening quote of the key, when the key's closing quote is there. */
  lemma CutAfterKey(key: string, colon: string, more: string)
    requires colon <= FromColon(key) && Follows(more)
    ensures var s := "\"" + (Escape(COMPACT, "key") + ("\"" + (colon + more)));
            var r := ParseMembers(s);
            r.None? || (colon == FromColon(key) && r.value.1 == more)
  {
    var s := "\"" + (Escape(COMPACT, "key") + ("\"" + (colon + more)));
    assert s[1..] == Escape(COMPACT, "key") + ("\"" + (colon + more));
    EscapeParses(COMPACT, "key", colon + more);
    MembersByKey(s, "key", colon + more);
    CutColon(key, colon, more);
  }

  /** A cut before the key's closing quote. */
  lemma CutInKey(q: string, more: string)
    requires q <= Escape(COMPACT, "key") && Follows(more)
    ensures ParseMembers("\"" + (q + more)).None?
  {
    var s := "\"" + (q + more);
    assert s[1..] == q + more;
    CutBody("key", q, more);
    SkipNoSpace(s);
    var r := ParseBody(q + more);
    if r.Some? {
      MembersByKey(s, r.value.0, r.value.1);
      LeftoverStops(r.value.1, more);
    }
  }

  /** A cut after the opening quote of the key. */
  lemma CutKeyBody(key: string, q: string, more: string)
    requires q <= KeyBody(key) && Follows(more)
    ensures var r := ParseMembers("\"" + (q + more)); r.None? || (q == KeyBody(key) && r.value.1 == more)
  {
    var k := Escape(COMPACT, "key");
    var rest := PrefixCases(q, k, "\"" + FromColon(key));
    if |q| < |k| || rest == "" {
      assert q <= k;
      CutInKey(q, more);
    } else {
      var colon := PrefixCons(rest, '"', FromColon(key));
      Regroup(k, '"', colon, more);
      CutAfterKey(key, colon, more);
    }
  }

  lemma NoMembersIn(more: string)
    requires Follows(more)
    ensures ParseMembers(more).None?
  {
    LeftoverStops(more, more);
  }

  /** A cut anywhere after the opening brace. */
  lemma CutMembers(key: string, p: string, more: string)
    requires p <= FromKey(key) && Follows(more)
    ensures var r := ParseMembers(p + more); r.None? || (p == FromKey(key) && r.value.1 == more)
  {
    if p == "" {
      assert p + more == more;
      NoMembersIn(more);
    } else {
      var q := PrefixCons(p, '"', KeyBody(key));
      ConsConcat('"', q, more);
      CutKeyBody(key, q, more);
    }
  }

  lemma BraceOpensObject(s: string)
    ensures ParseValue("{" + s) == ParseObject(s)
  {
    assert ("{" + s)[1..] == s;
    SkipNoSpace("{" + s);
  }

  /** An object is read through its members unless it is closed at once. */
  lemma ObjectByMembers(s: string)
    requires !At(s, '}') && (s == "" || !IsSpace(s[0]))
    ensures ParseObject(s).Some? <==> ParseMembers(s).Some?
    ensures ParseMembers(s).Some? ==> ParseObject(s).value.1 == ParseMembers(s).value.1
  {
    assert SkipSpace(s) == s by { if s != "" { SkipNoSpace(s); } }
  }

  lemma CutStart(key: string, p: string, more: string)
    requires p <= FromKey(key) && Follows(more)
    ensures !At(p + more, '}') && (p + more == "" || !IsSpace((p + more)[0]))
  {
    if p != "" { var q := PrefixCons(p, '"', KeyBody(key)); }
  }

  /** A cut anywhere in an entry's text: what follows is left over only if nothing was cut. */
  lemma CutEntry(key: string, p: string, more: string)
    requires p != "" && p <= EntryText(key) && Follows(more)
    ensures var r := ParseValue(p + more); r.None? || (p == EntryText(key) && r.value.1 == more)
  {
    EntryParts(key);
    var rest := PrefixCons(p, '{', FromKey(key));
    ConsConcat('{', rest, more);
    CutStart(key, rest, more);
    BraceOpensObject(rest + more);
    ObjectByMembers(rest + more);
    CutMembers(key, rest, more);
  }

  /** MAIN: no proper beginning of an entry's text is an entry. */
  lemma CutEntryUnreadable(key: string, p: string)
    requires p < EntryText(key)
    ensures EntryOf(p).None?
  {
    assert p + "" == p;
    if p != "" { CutEntry(key, p, ""); }
  }

  /** MAIN: an entry glued onto any non-empty beginning of another entry, or onto all of it, is unreadable. */
  lemma GluedEntryUnreadable(key: string, p: string, next: string)
    requires p != "" && p <= EntryText(key)
    ensures EntryOf(p + EntryText(next)).None?
  {
    EntryFollows(next);
    CutEntry(key, p, EntryText(next));
    LeftoverStops(EntryText(next), EntryText(next));
  }
}
