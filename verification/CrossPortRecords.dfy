/** For which audit records the three ports really sign the same text. */
module CrossPortRecords {
  import opened Text
  import opened Numbers
  import opened Doubles
  import opened Json
  import opened Canonical
  import opened PortValues
  import opened CrossPort
  import opened AuditRecords

  // ------------------------------------------------------- keys like the payload's

  /** A key that every port orders by its characters. */
  predicate OrdinaryKey(k: string) { k != "" && !IsDigit(k[0]) && (forall i :: 0 <= i < |k| ==> k[i] as int <= 0x7E) && k != "__proto__" }

  lemma {:induction false} PlainUtf16(s: string)
    requires forall i :: 0 <= i < |s| ==> s[i] as int <= 0x7E
    ensures Utf16(s) == Codes(s)
  {
    if s != "" {
      PlainUtf16(s[1..]);
      assert Codes(s) == [s[0] as int] + Codes(s[1..]);
    }
  }

  lemma OrdinaryKeyOrder(p: Port, a: string, b: string)
    requires OrdinaryKey(a) && OrdinaryKey(b)
    ensures KeyLess(p, a, b) <==> LexLess(a, b)
  {
    PlainUtf16(a);
    PlainUtf16(b);
  }

  ghost predicate OrdinaryKeys(ms: seq<Member>) { forall i :: 0 <= i < |ms| ==> OrdinaryKey(ms[i].key) }

  lemma OrdinaryKeysAgree(p: Port, q: Port, ms: seq<Member>)
    requires OrdinaryKeys(ms)
    ensures KeysAgree(p, q, ms)
  {
    forall a, b | a in ms && b in ms ensures KeyLess(p, a.key, b.key) <==> KeyLess(q, a.key, b.key) {
      OrdinaryKeyOrder(p, a.key, b.key);
      OrdinaryKeyOrder(q, a.key, b.key);
    }
  }

  lemma RequiredKeysOrdinary()
    ensures OrdinaryKey("ts") && OrdinaryKey("event") && OrdinaryKey("actor")
    ensures OrdinaryKey("inputs") && OrdinaryKey("sources") && OrdinaryKey("prev_sig")
  {
  }

  lemma OptionalKeysOrdinary()
    ensures OrdinaryKey("confidence") && OrdinaryKey("rationale")
  {
    assert "rationale"[0] != "__proto__"[0] && "confidence"[0] != "__proto__"[0];
  }

  lemma PayloadKeysOrdinary(r: AuditRecord)
    ensures OrdinaryKeys(PayloadMembers(r))
  {
    RequiredKeysOrdinary();
    OptionalKeysOrdinary();
    forall i | 0 <= i < |PayloadMembers(r)| ensures OrdinaryKey(PayloadMembers(r)[i].key) {
      if i < 6 {
        assert PayloadMembers(r)[i] == RequiredMembers(r)[i];
      } else {
        assert PayloadMembers(r)[i] == OptionalMembers(r)[i - 6];
      }
    }
  }

  // ------------------------------------------------------------------- records

  ghost predicate OptionalAgree(p: Port, q: Port, r: AuditRecord)
  {
    (r.confidence.Some? ==> ConfidenceAgrees(p, q, r.confidence.value)) &&
    (r.rationale.Some? ==> TextAgrees(p, q, r.rationale.value))
  }

  /** Two different ports write every signed field alike. */
  ghost predicate RecordAgrees(p: Port, q: Port, r: AuditRecord)
  {
    TextAgrees(p, q, r.ts) && TextAgrees(p, q, r.event) && TextAgrees(p, q, r.actor) && TextAgrees(p, q, r.prevSig) &&
    Agrees(p, q, r.inputs) && Agrees(p, q, r.sources) && OptionalAgree(p, q, r)
  }

  lemma TextsSignAlike(p: Port, q: Port, s: string)
    ensures SignAlike(p, q, Str(s), Str(s)) <==> TextAgrees(p, q, s)
  {
  }

  lemma ConfidenceSignsAlike(p: Port, q: Port, x: Number)
    requires Different(p, q)
    ensures SignAlike(p, q, Num(HeldConfidence(p, x)), Num(HeldConfidence(q, x))) <==> ConfidenceAgrees(p, q, x)
  {
    ConfidencesAgree(p, q, x);
  }

  /** The two ports write the payload's field number `i` alike. */
  ghost predicate FieldAgrees(p: Port, q: Port, r: AuditRecord, i: nat)
  {
    if i == 0 then TextAgrees(p, q, r.ts)
    else if i == 1 then TextAgrees(p, q, r.event)
    else if i == 2 then TextAgrees(p, q, r.actor)
    else if i == 3 then Agrees(p, q, r.inputs)
    else if i == 4 then Agrees(p, q, r.sources)
    else TextAgrees(p, q, r.prevSig)
  }

  lemma FieldSignsAlike(p: Port, q: Port, r: AuditRecord, i: nat)
    requires Different(p, q) && (p.TypeScript? || q.TypeScript? ==> UniqueKeys(r.inputs) && UniqueKeys(r.sources))
    requires i < 6
    ensures SignAlike(p, q, RequiredMembers(Carried(p, r))[i].value, RequiredMembers(Carried(q, r))[i].value) <==>
            FieldAgrees(p, q, r, i)
  {
    if i == 3 {
      ValuesSignAlike(p, q, r.inputs);
    } else if i == 4 {
      ValuesSignAlike(p, q, r.sources);
    } else {
      TextsSignAlike(p, q, if i == 0 then r.ts else if i == 1 then r.event else if i == 2 then r.actor else r.prevSig);
    }
  }

  lemma RequiredSignAlike(p: Port, q: Port, r: AuditRecord)
    requires Different(p, q) && (p.TypeScript? || q.TypeScript? ==> UniqueKeys(r.inputs) && UniqueKeys(r.sources))
    ensures ValuesAgree(p, q, RequiredMembers(Carried(p, r)), RequiredMembers(Carried(q, r))) <==>
            forall i: nat :: i < 6 ==> FieldAgrees(p, q, r, i)
  {
    var a, b := RequiredMembers(Carried(p, r)), RequiredMembers(Carried(q, r));
    forall i: nat | i < 6 ensures SignAlike(p, q, a[i].value, b[i].value) <==> FieldAgrees(p, q, r, i) {
      FieldSignsAlike(p, q, r, i);
    }
  }

  lemma SixFields(p: Port, q: Port, r: AuditRecord)
    ensures (forall i: nat :: i < 6 ==> FieldAgrees(p, q, r, i)) && OptionalAgree(p, q, r) <==> RecordAgrees(p, q, r)
  {
    if forall i: nat :: i < 6 ==> FieldAgrees(p, q, r, i) {
      assert FieldAgrees(p, q, r, 0) && FieldAgrees(p, q, r, 1) && FieldAgrees(p, q, r, 2);
      assert FieldAgrees(p, q, r, 3) && FieldAgrees(p, q, r, 4) && FieldAgrees(p, q, r, 5);
    }
  }

  lemma OptionalSignAlike(p: Port, q: Port, r: AuditRecord)
    requires Different(p, q)
    ensures var a, b := OptionalMembers(Carried(p, r)), OptionalMembers(Carried(q, r));
            SameKeys(a, b) && (ValuesAgree(p, q, a, b) <==> OptionalAgree(p, q, r))
  {
    var a, b := OptionalMembers(Carried(p, r)), OptionalMembers(Carried(q, r));
    if r.confidence.Some? {
      ConfidenceSignsAlike(p, q, r.confidence.value);
      assert a[0].value == Num(HeldConfidence(p, r.confidence.value)) && b[0].value == Num(HeldConfidence(q, r.confidence.value));
    }
    if r.rationale.Some? {
      TextsSignAlike(p, q, r.rationale.value);
      assert a[|a| - 1].value == b[|b| - 1].value == Str(r.rationale.value);
    }
  }

  lemma ConcatAgrees(p: Port, q: Port, a: seq<Member>, b: seq<Member>, c: seq<Member>, d: seq<Member>)
    requires SameKeys(a, b) && SameKeys(c, d)
    ensures SameKeys(a + c, b + d)
    ensures ValuesAgree(p, q, a + c, b + d) <==> ValuesAgree(p, q, a, b) && ValuesAgree(p, q, c, d)
  {
    if ValuesAgree(p, q, a + c, b + d) {
      forall i | 0 <= i < |a| ensures SignAlike(p, q, a[i].value, b[i].value) {
        assert (a + c)[i] == a[i] && (b + d)[i] == b[i];
      }
      forall i | 0 <= i < |c| ensures SignAlike(p, q, c[i].value, d[i].value) {
        assert (a + c)[|a| + i] == c[i] && (b + d)[|b| + i] == d[i];
      }
    }
  }

  lemma PayloadsSignAlike(p: Port, q: Port, r: AuditRecord)
    requires Different(p, q) && (p.TypeScript? || q.TypeScript? ==> UniqueKeys(r.inputs) && UniqueKeys(r.sources))
    ensures var a, b := PayloadMembers(Carried(p, r)), PayloadMembers(Carried(q, r));
            SameKeys(a, b) && (ValuesAgree(p, q, a, b) <==> RecordAgrees(p, q, r))
  {
    RequiredSignAlike(p, q, r);
    OptionalSignAlike(p, q, r);
    SixFields(p, q, r);
    ConcatAgrees(p, q, RequiredMembers(Carried(p, r)), RequiredMembers(Carried(q, r)),
                 OptionalMembers(Carried(p, r)), OptionalMembers(Carried(q, r)));
  }

  /**
   MAIN: given the same record, two different ports sign the same text exactly when they write every signed
   field alike.
   */
  lemma RecordsSignAlike(sign: (string, string) -> string, key: string, p: Port, q: Port, r: AuditRecord)
    requires Different(p, q) && (p.TypeScript? || q.TypeScript? ==> UniqueKeys(r.inputs) && UniqueKeys(r.sources))
    ensures Scheme(sign, p, key).Message(Carried(p, r)) == Scheme(sign, q, key).Message(Carried(q, r)) <==>
            RecordAgrees(p, q, r)
  {
    var a, b := PayloadMembers(Carried(p, r)), PayloadMembers(Carried(q, r));
    PayloadsSignAlike(p, q, r);
    PayloadShape(Carried(p, r));
    PayloadKeysOrdinary(Carried(p, r));
    OrdinaryKeysAgree(p, q, a);
    ObjectsSignAlike(p, q, a, b);
    SignAlikeMeans(p, q, Obj(a), Obj(b));
  }

  // --------------------------------------------------- where the promise holds and fails

  /** Rust's serializer writes doubles positionally at least where Python does. */
  predicate UsualPort(p: Port) { p.Rust? ==> p.numbers.low <= REPR.low && p.numbers.high >= REPR.high }

  /** A double with a fraction, neither tiny nor huge: 0.97, say. */
  predicate UsualDouble(d: Decimal) { !Whole(d) && REPR.low < d.point <= REPR.high }

  predicate UsualInt(n: int) { -P53 < n < P53 }

  /** Plain text, integers below 2^53, doubles as above, and keys that every port orders alike. */
  ghost predicate Usual(v: Json)
    decreases v
  {
    match v
    case Str(s) => Within(s, 0, 0x7E)
    case Num(x) => if x.Int? then UsualInt(x.n) else UsualDouble(x.d)
    case Arr(items) => forall i :: 0 <= i < |items| ==> Usual(items[i])
    case Obj(ms) => OrdinaryKeys(ms) && forall i :: 0 <= i < |ms| ==> Usual(ms[i].value)
    case _ => true
  }

  ghost predicate UsualRecord(r: AuditRecord)
  {
    Within(r.ts, 0, 0x7E) && Within(r.event, 0, 0x7E) && Within(r.actor, 0, 0x7E) && Within(r.prevSig, 0, 0x7E) &&
    Usual(r.inputs) && Usual(r.sources) &&
    (r.confidence.Some? ==> r.confidence.value.Real? && UsualDouble(r.confidence.value.d)) &&
    (r.rationale.Some? ==> Within(r.rationale.value, 0, 0x7E))
  }

  lemma SafeBelowLimit()
    ensures P53 < Pow10(21)
  {
    assert Pow10(4) == 1_0000;
    assert Pow10(8) == 1_0000_0000;
    assert Pow10(12) == 1_0000_0000_0000;
    assert Pow10(16) == 1_0000_0000_0000_0000;
  }

  lemma UsualNumberAgrees(p: Port, q: Port, x: Number)
    requires UsualPort(p) && UsualPort(q)
    requires if x.Int? then UsualInt(x.n) else UsualDouble(x.d)
    ensures NumberAgrees(p, q, x)
  {
    if x.Int? {
      PrintedSmall(Magnitude(x.n));
      SafeBelowLimit();
    }
  }

  lemma {:induction false} UsualAgrees(p: Port, q: Port, v: Json)
    requires UsualPort(p) && UsualPort(q) && Usual(v)
    ensures Agrees(p, q, v)
    decreases v
  {
    match v
    case Num(x) => UsualNumberAgrees(p, q, x);
    case Arr(items) => forall i | 0 <= i < |items| ensures Agrees(p, q, items[i]) { UsualAgrees(p, q, items[i]); }
    case Obj(ms) =>
      OrdinaryKeysAgree(p, q, ms);
      forall i | 0 <= i < |ms| ensures Agrees(p, q, ms[i].value) { UsualAgrees(p, q, ms[i].value); }
    case _ =>
  }

  /** For usual records the ports do sign the same text. */
  lemma UsualRecordsSignAlike(sign: (string, string) -> string, key: string, p: Port, q: Port, r: AuditRecord)
    requires Different(p, q) && UsualPort(p) && UsualPort(q) && UsualRecord(r)
    requires UniqueKeys(r.inputs) && UniqueKeys(r.sources)
    ensures Scheme(sign, p, key).Message(Carried(p, r)) == Scheme(sign, q, key).Message(Carried(q, r))
  {
    UsualAgrees(p, q, r.inputs);
    UsualAgrees(p, q, r.sources);
    if r.confidence.Some? { UsualNumberAgrees(p, q, r.confidence.value); }
    RecordsSignAlike(sign, key, p, q, r);
  }

  /** A whole confidence, such as 1, keeps Rust and any other port from signing the same text. */
  lemma WholeConfidenceDisagrees(sign: (string, string) -> string, key: string, p: Port, q: Port, r: AuditRecord)
    requires p.Rust? && !q.Rust? && UniqueKeys(r.inputs) && UniqueKeys(r.sources)
    requires r.confidence.Some? && r.confidence.value.Int? && UsualInt(r.confidence.value.n)
    ensures Scheme(sign, p, key).Message(Carried(p, r)) != Scheme(sign, q, key).Message(Carried(q, r))
  {
    PrintedSmall(Magnitude(r.confidence.value.n));
    SafeBelowLimit();
    RecordsSignAlike(sign, key, p, q, r);
  }

  /** So does an odd integer from 2^53 on in 64 bits between TypeScript and any other port. */
  lemma OddIntegersDisagree(p: Port, n: int)
    requires !p.TypeScript? && In64(n) && Magnitude(n) >= P53 && Magnitude(n) % 2 == 1
    ensures CanonicalText(p, Held(p, Num(Int(n)))) != CanonicalText(TypeScript, Held(TypeScript, Num(Int(n))))
  {
    PrintedOdd(Magnitude(n));
    PortsAgree(p, TypeScript, Num(Int(n)));
  }
}
