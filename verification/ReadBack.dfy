/**
 When a record that was written to the ledger file still has the signed text it was written with. Python
 and TypeScript give every number back; Rust's JSON library need not give back every double.
 */
module ReadBack {
  import opened Json
  import opened Canonical
  import opened PortValues
  import opened CrossPort
  import opened AuditRecords

  /** In Rust, which drops no key, a misread number anywhere changes the sorted value. */
  lemma {:induction false} SortedReadsExactly(p: Port, v: Json)
    requires p.Rust?
    ensures SortKeys(p, Read(p, v)) == SortKeys(p, v) <==> ReadsExactly(p, v)
    decreases v
  {
    match v
    case Arr(items) =>
      forall i | 0 <= i < |items|
        ensures SortKeys(p, Read(p, items[i])) == SortKeys(p, items[i]) <==> ReadsExactly(p, items[i])
      {
        SortedReadsExactly(p, items[i]);
      }
      ItemsSort(p, MapItems(ReaderOf(p), items), items);
    case Obj(ms) =>
      forall i | 0 <= i < |ms|
        ensures SortKeys(p, Read(p, ms[i].value)) == SortKeys(p, ms[i].value) <==> ReadsExactly(p, ms[i].value)
      {
        SortedReadsExactly(p, ms[i].value);
      }
      OrderedSorts(p, p, MapMembers(ReaderOf(p), ms), ms);
    case _ =>
  }

  lemma ItemsSort(p: Port, a: seq<Json>, b: seq<Json>)
    requires |a| == |b|
    ensures SortKeys(p, Arr(a)) == SortKeys(p, Arr(b)) <==> forall i :: 0 <= i < |a| ==> SortKeys(p, a[i]) == SortKeys(p, b[i])
  {
    if SortItems(p, a) == SortItems(p, b) {
      forall i | 0 <= i < |a| ensures SortKeys(p, a[i]) == SortKeys(p, b[i]) { assert SortItems(p, a)[i] == SortItems(p, b)[i]; }
    }
  }

  /** Every number in the record's signed fields is read back as itself. */
  ghost predicate RecordReadsExactly(p: Port, r: AuditRecord)
  {
    ReadsExactly(p, r.inputs) && ReadsExactly(p, r.sources) &&
    (r.confidence.Some? ==> ReadConfidence(p, r.confidence.value) == r.confidence.value)
  }

  /** A record of values as the port holds them is read back unchanged by Python and TypeScript. */
  lemma OthersReadExactly(p: Port, r: AuditRecord)
    requires !p.Rust? && Carried(p, r) == r
    ensures AsRead(p, r) == r && RecordReadsExactly(p, r)
  {
    HeldReadsExactly(p, r.inputs);
    HeldReadsExactly(p, r.sources);
    ReadIsExact(p, r.inputs);
    ReadIsExact(p, r.sources);
    assert r.confidence.Some? ==> Carried(p, r).confidence.value == r.confidence.value;
  }

  /**
   MAIN: a record of values as the port holds them, read back from its line, has the signed text it was
   written with if and only if every number in its signed fields is read back as itself.
   */
  lemma MessageReadsBack(s: Scheme, r: AuditRecord)
    requires Carried(s.port, r) == r
    ensures s.Message(AsRead(s.port, r)) == s.Message(r) <==> RecordReadsExactly(s.port, r)
  {
    if s.port.Rust? {
      MessageDecides(s, AsRead(s.port, r), r);
      SortedReadsExactly(s.port, r.inputs);
      SortedReadsExactly(s.port, r.sources);
    } else {
      OthersReadExactly(s.port, r);
    }
  }
}
