/** Audit records: what is signed, what is written to the ledger file, and how it is read back. */
module AuditRecords {
  import opened Text
  import opened Numbers
  import opened Json
  import opened JsonRoundTrip
  import opened Canonical
  import opened CanonicalTheorems
  import opened PortValues

  /** Caller-supplied fields; `None` is an omitted field. */
  datatype AuditInput = AuditInput(
    event: string, actor: string, inputs: Option<Json>, sources: Option<Json>,
    confidence: Option<Number>, rationale: Option<string>, ts: Option<string>)

  datatype AuditRecord = AuditRecord(
    ts: string, event: string, actor: string, inputs: Json, sources: Json,
    confidence: Option<Number>, rationale: Option<string>, prevSig: string, sig: string)

  /** The keyed signature function stays abstract: it maps a key and a message to a signature. */
  datatype Scheme = Scheme(sign: (string, string) -> string, port: Port, key: string) {
    /** The canonical text signed for a record. */
    function Message(r: AuditRecord): string
    {
      CanonicalText(port, SigningPayload(r))
    }

    function Sign(r: AuditRecord): string
    {
      sign(key, Message(r))
    }

    /** The line written for a record, without its newline. */
    function Line(r: AuditRecord): string
    {
      Encode(LineStyle(port), RecordJson(r))
    }

    /** The signed record appended after a record with signature `prevSig`, with its values as the port holds them. */
    function Materialize(input: AuditInput, now: string, prevSig: string): AuditRecord
    {
      var ts := if input.ts.None? || (port.Python? && input.ts.value == "") then now else input.ts.value;
      var unsigned := Carried(port, AuditRecord(
        ts, input.event, input.actor,
        if input.inputs.Some? then input.inputs.value else Null,
        if input.sources.Some? then input.sources.value else Null,
        input.confidence, input.rationale, prevSig, ""));
      unsigned.(sig := Sign(unsigned))
    }
  }

  /** A record with its values as a port holds them. */
  function Carried(p: Port, r: AuditRecord): AuditRecord
  {
    r.(inputs := Held(p, r.inputs), sources := Held(p, r.sources), confidence := CarriedConfidence(p, r.confidence))
  }

  function CarriedConfidence(p: Port, c: Option<Number>): Option<Number>
  {
    if c.Some? then Some(HeldConfidence(p, c.value)) else None
  }

  /** A record as a port holds it after reading it from its line. */
  function AsRead(p: Port, r: AuditRecord): AuditRecord
  {
    r.(inputs := Read(p, r.inputs), sources := Read(p, r.sources),
       confidence := if r.confidence.Some? then Some(ReadConfidence(p, r.confidence.value)) else None)
  }

  lemma CarriedTwice(p: Port, r: AuditRecord)
    ensures Carried(p, Carried(p, r)) == Carried(p, r)
  {
    HeldTwice(p, r.inputs);
    HeldTwice(p, r.sources);
    if r.confidence.Some? { HeldConfidenceTwice(p, r.confidence.value); }
  }

  /** Python's `json.dumps` writes spaces; the other ports write lines as compact as what they sign. */
  function LineStyle(p: Port): Style
  {
    if p.Python? then SPACED_ASCII else CanonicalStyle(p)
  }

  function OptionalMembers(r: AuditRecord): seq<Member>
  {
    (if r.confidence.Some? then [Member("confidence", Num(r.confidence.value))] else [])
    + (if r.rationale.Some? then [Member("rationale", Str(r.rationale.value))] else [])
  }

  /** The content fields and `prev_sig`, never `sig`. */
  function PayloadMembers(r: AuditRecord): seq<Member> { RequiredMembers(r) + OptionalMembers(r) }

  function RequiredMembers(r: AuditRecord): seq<Member>
  {
    [Member("ts", Str(r.ts)), Member("event", Str(r.event)), Member("actor", Str(r.actor)),
     Member("inputs", r.inputs), Member("sources", r.sources), Member("prev_sig", Str(r.prevSig))]
  }

  function SigningPayload(r: AuditRecord): Json { Obj(PayloadMembers(r)) }

  /** A record as it is written to the file. */
  function RecordMembers(r: AuditRecord): seq<Member>
  {
    [Member("ts", Str(r.ts)), Member("event", Str(r.event)), Member("actor", Str(r.actor)),
     Member("inputs", r.inputs), Member("sources", r.sources)]
    + OptionalMembers(r) + [Member("prev_sig", Str(r.prevSig)), Member("sig", Str(r.sig))]
  }

  function RecordJson(r: AuditRecord): Json { Obj(RecordMembers(r)) }

  // ---------------------------------------------------------- reading back

  /** The typed reader: text fields are strings, the two optional ones may be absent or null. */
  function RecordOf(p: Port, v: Json): Option<AuditRecord>
  {
    if !v.Obj? then None
    else
      var ms := v.members;
      var confidence := if HasKey(ms, "confidence") then Field(ms, "confidence") else Some(Null);
      var rationale := if HasKey(ms, "rationale") then Field(ms, "rationale") else Some(Null);
      match (Field(ms, "ts"), Field(ms, "event"), Field(ms, "actor"), Field(ms, "inputs"), Field(ms, "sources"))
      case (Some(Str(ts)), Some(Str(event)), Some(Str(actor)), Some(inputs), Some(sources)) =>
        (match (Field(ms, "prev_sig"), Field(ms, "sig"), confidence, rationale)
         case (Some(Str(prevSig)), Some(Str(sig)), Some(c), Some(t)) =>
           if (c.Null? || c.Num?) && (t.Null? || t.Str?) then
             Some(AsRead(p, AuditRecord(ts, event, actor, inputs, sources,
                                        if c.Num? then Some(c.x) else None,
                                        if t.Str? then Some(t.s) else None, prevSig, sig)))
           else None
         case _ => None)
      case _ => None
  }

  lemma {:induction false} FieldAt(ms: seq<Member>, i: nat)
    requires DistinctKeys(ms) && i < |ms|
    ensures Field(ms, ms[i].key) == Some(ms[i].value) && HasKey(ms, ms[i].key)
  {
    if i > 0 {
      FieldAt(ms[1..], i - 1);
    } else {
      forall j | 0 <= j < |ms[1..]| ensures ms[1..][j].key != ms[0].key { assert ms[1..][j] == ms[j + 1]; }
    }
  }

  lemma RecordKeysDistinct(r: AuditRecord)
    ensures DistinctKeys(RecordMembers(r))
  {
    var n := |RecordMembers(r)|;
    assert RecordMembers(r)[n - 1].key == "sig" && RecordMembers(r)[n - 2].key == "prev_sig";
  }

  lemma RequiredFields(r: AuditRecord)
    ensures var ms := RecordMembers(r);
            Field(ms, "ts") == Some(Str(r.ts)) && Field(ms, "event") == Some(Str(r.event)) &&
            Field(ms, "actor") == Some(Str(r.actor)) && Field(ms, "inputs") == Some(r.inputs) &&
            Field(ms, "sources") == Some(r.sources) && Field(ms, "prev_sig") == Some(Str(r.prevSig)) &&
            Field(ms, "sig") == Some(Str(r.sig))
  {
    var ms := RecordMembers(r);
    RecordKeysDistinct(r);
    FieldAt(ms, 0);
    FieldAt(ms, 1);
    FieldAt(ms, 2);
    FieldAt(ms, 3);
    FieldAt(ms, 4);
    FieldAt(ms, |ms| - 2);
    FieldAt(ms, |ms| - 1);
  }

  lemma OptionalFields(r: AuditRecord)
    ensures var ms := RecordMembers(r);
            (HasKey(ms, "confidence") <==> r.confidence.Some?) && (HasKey(ms, "rationale") <==> r.rationale.Some?) &&
            (r.confidence.Some? ==> Field(ms, "confidence") == Some(Num(r.confidence.value))) &&
            (r.rationale.Some? ==> Field(ms, "rationale") == Some(Str(r.rationale.value)))
  {
    var ms := RecordMembers(r);
    RecordKeysDistinct(r);
    if r.confidence.Some? { assert ms[5] == Member("confidence", Num(r.confidence.value)); FieldAt(ms, 5); }
    if r.rationale.Some? {
      assert ms[|ms| - 3] == Member("rationale", Str(r.rationale.value));
      FieldAt(ms, |ms| - 3);
    }
  }

  /** Reading a written record gives the record back, with its numbers as the port reads them. */
  lemma RecordReadsBack(p: Port, r: AuditRecord)
    ensures RecordOf(p, RecordJson(r)) == Some(AsRead(p, r))
  {
    RequiredFields(r);
    OptionalFields(r);
  }

  // -------------------------------------------------- what a message determines

  /** What is signed: these fields under these names, the optional ones only if present, and never `sig`. */
  lemma SignedFields(r: AuditRecord, key: string)
    ensures Field(PayloadMembers(r), key) ==
            if key == "ts" then Some(Str(r.ts))
            else if key == "event" then Some(Str(r.event))
            else if key == "actor" then Some(Str(r.actor))
            else if key == "inputs" then Some(r.inputs)
            else if key == "sources" then Some(r.sources)
            else if key == "prev_sig" then Some(Str(r.prevSig))
            else if key == "confidence" && r.confidence.Some? then Some(Num(r.confidence.value))
            else if key == "rationale" && r.rationale.Some? then Some(Str(r.rationale.value))
            else None
  {
    var ms := PayloadMembers(r);
    PayloadShape(r);
    if i: nat :| i < |ms| && ms[i].key == key {
      FieldAt(ms, i);
    } else {
      assert ms[0].key == "ts" && ms[1].key == "event" && ms[2].key == "actor";
      assert ms[3].key == "inputs" && ms[4].key == "sources" && ms[5].key == "prev_sig";
      assert r.confidence.Some? ==> ms[6].key == "confidence";
      assert r.rationale.Some? ==> ms[|ms| - 1].key == "rationale";
      AbsentField(ms, key);
    }
  }

  lemma {:induction false} AbsentField(ms: seq<Member>, key: string)
    requires !HasKey(ms, key)
    ensures Field(ms, key) == None
  {
    if ms != [] {
      assert forall j :: 0 <= j < |ms[1..]| ==> ms[1..][j] == ms[j + 1];
      AbsentField(ms[1..], key);
    }
  }

  /** Equal in every signed field, up to key order inside `inputs` and `sources`. */
  ghost predicate SameSigned(p: Port, r: AuditRecord, q: AuditRecord)
  {
    r.ts == q.ts && r.event == q.event && r.actor == q.actor && r.prevSig == q.prevSig &&
    r.confidence == q.confidence && r.rationale == q.rationale &&
    SortKeys(p, r.inputs) == SortKeys(p, q.inputs) && SortKeys(p, r.sources) == SortKeys(p, q.sources)
  }

  lemma {:induction false} SortValuesPointwise(p: Port, ms: seq<Member>, ns: seq<Member>)
    requires |ms| == |ns|
    requires forall i :: 0 <= i < |ms| ==>
               ms[i].key == ns[i].key && SortKeys(p, ms[i].value) == SortKeys(p, ns[i].value)
    ensures SortValues(p, ms) == SortValues(p, ns)
  {
    if ms != [] { SortValuesPointwise(p, ms[1..], ns[1..]); }
  }

  /** A payload member with a known key has the same sorted value in any payload that sorts alike. */
  lemma PayloadPins(p: Port, r: AuditRecord, q: AuditRecord, i: nat, j: nat)
    requires i < |PayloadMembers(r)| && j < |PayloadMembers(q)|
    requires PayloadMembers(r)[i].key == PayloadMembers(q)[j].key
    requires DistinctKeys(PayloadMembers(q)) && !Dropped(p, PayloadMembers(r)[i].key)
    requires SortKeys(p, SigningPayload(r)) == SortKeys(p, SigningPayload(q))
    ensures SortKeys(p, PayloadMembers(r)[i].value) == SortKeys(p, PayloadMembers(q)[j].value)
  {
    var k := SortedAlikeFinds(p, PayloadMembers(r), PayloadMembers(q), i);
  }

  lemma PayloadShape(r: AuditRecord)
    ensures DistinctKeys(PayloadMembers(r))
    ensures forall p, i :: 0 <= i < |PayloadMembers(r)| ==> !Dropped(p, PayloadMembers(r)[i].key)
  {
    assert "rationale" != "__proto__" by { assert "rationale"[0] != "__proto__"[0]; }
  }

  /** An optional field present in one payload is present, and equal, in one that sorts alike. */
  lemma OptionalPins(p: Port, r: AuditRecord, q: AuditRecord)
    requires SortKeys(p, SigningPayload(r)) == SortKeys(p, SigningPayload(q))
    ensures r.confidence.Some? ==> r.confidence == q.confidence
    ensures r.rationale.Some? ==> r.rationale == q.rationale
  {
    var ms, ns := PayloadMembers(r), PayloadMembers(q);
    PayloadShape(r);
    PayloadShape(q);
    if r.confidence.Some? {
      assert ms[6] == Member("confidence", Num(r.confidence.value));
      var k := SortedAlikeFinds(p, ms, ns, 6);
    }
    if r.rationale.Some? {
      assert ms[|ms| - 1] == Member("rationale", Str(r.rationale.value));
      var k := SortedAlikeFinds(p, ms, ns, |ms| - 1);
    }
  }

  lemma RequiredPin(p: Port, r: AuditRecord, q: AuditRecord)
    requires SortKeys(p, SigningPayload(r)) == SortKeys(p, SigningPayload(q))
    ensures r.ts == q.ts && r.event == q.event && r.actor == q.actor && r.prevSig == q.prevSig
    ensures SortKeys(p, r.inputs) == SortKeys(p, q.inputs) && SortKeys(p, r.sources) == SortKeys(p, q.sources)
  {
    PayloadShape(r);
    PayloadShape(q);
    forall i: nat | i < 6
      ensures SortKeys(p, PayloadMembers(r)[i].value) == SortKeys(p, PayloadMembers(q)[i].value)
    {
      PayloadPins(p, r, q, i, i);
    }
    assert PayloadMembers(r)[0].value == Str(r.ts) && PayloadMembers(r)[1].value == Str(r.event);
    assert PayloadMembers(r)[2].value == Str(r.actor) && PayloadMembers(r)[3].value == r.inputs;
    assert PayloadMembers(r)[4].value == r.sources && PayloadMembers(r)[5].value == Str(r.prevSig);
  }

  /** MAIN: two records have the same signed text exactly when all their signed fields agree. */
  lemma MessageDecides(s: Scheme, r: AuditRecord, q: AuditRecord)
    ensures s.Message(r) == s.Message(q) <==> SameSigned(s.port, r, q)
  {
    var p := s.port;
    EncodeInjective(CanonicalStyle(p), SortKeys(p, SigningPayload(r)), SortKeys(p, SigningPayload(q)));
    if SameSigned(p, r, q) {
      SortValuesPointwise(p, PayloadMembers(r), PayloadMembers(q));
    }
    if SortKeys(p, SigningPayload(r)) == SortKeys(p, SigningPayload(q)) {
      RequiredPin(p, r, q);
      OptionalPins(p, r, q);
      OptionalPins(p, q, r);
    }
  }
}
