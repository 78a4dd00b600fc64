/** The ledger file, the object that appends to it, and what every run of appends and reopens leaves behind. */
module AuditLedgers {
  import opened Text
  import opened Json
  import opened JsonRoundTrip
  import opened JsonCut
  import opened Canonical
  import opened PortValues
  import opened CrossPort
  import opened AuditRecords
  import opened ReadBack
  import opened AuditChain

  // --------------------------------------------------------------- lines

  /** Python's `splitlines` breaks at more characters than the newline the other ports split at. */
  predicate IsBreak(p: Port, c: char)
  {
    c == '\n' ||
    (p.Python? && (10 <= c as int <= 13 || 0x1C <= c as int <= 0x1E ||
                   c as int == 0x85 || c as int == 0x2028 || c as int == 0x2029))
  }

  /** Split into lines, `pending` being the part of the current line already read. */
  function LinesFrom(p: Port, pending: string, s: string): seq<string>
    decreases |s|
  {
    if s == "" then if pending == "" then [] else [pending]
    else if IsBreak(p, s[0]) then [pending] + LinesFrom(p, "", s[1..])
    else LinesFrom(p, pending + [s[0]], s[1..])
  }

  function Lines(p: Port, s: string): seq<string> { LinesFrom(p, "", s) }

  predicate Blank(line: string)
  {
    forall i :: 0 <= i < |line| ==> IsBlankChar(line[i])
  }

  function ReadLine(p: Port, line: string): Option<AuditRecord>
  {
    match Parse(line)
    case Some(v) => RecordOf(p, v)
    case None => None
  }

  /** The records of a list of lines; blank lines are skipped, an unreadable line fails the whole read. */
  function ReadLines(p: Port, lines: seq<string>): Option<seq<AuditRecord>>
  {
    if lines == [] then Some([])
    else
      match ReadLines(p, lines[..|lines| - 1])
      case None => None
      case Some(rs) =>
        var line := lines[|lines| - 1];
        if Blank(line) then Some(rs)
        else
          match ReadLine(p, line)
          case Some(r) => Some(rs + [r])
          case None => None
  }

  function ReadText(p: Port, text: string): Option<seq<AuditRecord>> { ReadLines(p, Lines(p, text)) }

  lemma {:induction false} UnreadablePrefix(p: Port, lines: seq<string>, n: nat)
    requires n <= |lines| && ReadLines(p, lines[..n]).None?
    ensures ReadLines(p, lines).None?
    decreases |lines|
  {
    if n < |lines| {
      assert lines[..|lines| - 1][..n] == lines[..n];
      UnreadablePrefix(p, lines[..|lines| - 1], n);
    } else {
      assert lines[..n] == lines;
    }
  }

  lemma ReadLinesNext(p: Port, lines: seq<string>, i: nat)
    requires i < |lines| && ReadLines(p, lines[..i]).Some?
    ensures var rs := ReadLines(p, lines[..i]).value;
            ReadLines(p, lines[..i + 1]) ==
            if Blank(lines[i]) then Some(rs)
            else if ReadLine(p, lines[i]).Some? then Some(rs + [ReadLine(p, lines[i]).value])
            else None
  {
    assert lines[..i + 1][..i] == lines[..i] && lines[..i + 1][i] == lines[i];
  }

  /** The reading loop: it stops with an error at the first line that does not parse. */
  method ReadRecords(p: Port, text: string) returns (result: Option<seq<AuditRecord>>)
    ensures result == ReadText(p, text)
  {
    var lines := Lines(p, text);
    var records := [];
    var i := 0;
    while i < |lines|
      invariant 0 <= i <= |lines|
      invariant ReadLines(p, lines[..i]) == Some(records)
    {
      ReadLinesNext(p, lines, i);
      if !Blank(lines[i]) {
        var r := ReadLine(p, lines[i]);
        if r.None? {
          UnreadablePrefix(p, lines, i + 1);
          return None;
        }
        records := records + [r.value];
      }
      i := i + 1;
    }
    assert lines[..i] == lines;
    result := Some(records);
  }

  // ------------------------------------------------------- written lines

  ghost predicate Unbroken(p: Port, s: string)
  {
    forall i :: 0 <= i < |s| ==> !IsBreak(p, s[i])
  }

  /** A written line contains no line break of its port. */
  lemma LineUnbroken(s: Scheme, r: AuditRecord)
    ensures Unbroken(s.port, s.Line(r)) && s.Line(r)[0] == '{' && !Blank(s.Line(r))
  {
    EncodeWithin(LineStyle(s.port), RecordJson(r));
    FirstChar(LineStyle(s.port), RecordJson(r));
    assert !IsBlankChar(s.Line(r)[0]);
  }

  /** The file is empty or ends with a line break. */
  predicate Terminated(p: Port, s: string)
  {
    s == "" || IsBreak(p, s[|s| - 1])
  }

  /** What follows a terminated text is split on its own. */
  lemma {:induction false} LinesConcat(p: Port, pending: string, s: string, t: string)
    requires s != "" && Terminated(p, s)
    ensures LinesFrom(p, pending, s + t) == LinesFrom(p, pending, s) + Lines(p, t)
    decreases |s|
  {
    assert (s + t)[1..] == s[1..] + t;
    if |s| == 1 {
      assert s[1..] == "" && "" + t == t;
      assert LinesFrom(p, pending, s) == [pending];
    } else if IsBreak(p, s[0]) {
      LinesConcat(p, "", s[1..], t);
      Associative([pending], LinesFrom(p, "", s[1..]), Lines(p, t));
    } else {
      LinesConcat(p, pending + [s[0]], s[1..], t);
    }
  }

  lemma {:induction false} SingleLine(p: Port, pending: string, line: string, end: string)
    requires Unbroken(p, line) && pending + line != "" && (end == "" || end == "\n")
    ensures LinesFrom(p, pending, line + end) == [pending + line]
    decreases |line|
  {
    if line == "" {
      assert line + end == end && pending + line == pending;
      assert end != "" ==> LinesFrom(p, "", end[1..]) == [];
    } else {
      assert (line + end)[1..] == line[1..] + end;
      assert pending + [line[0]] + line[1..] == pending + line;
      SingleLine(p, pending + [line[0]], line[1..], end);
    }
  }

  /** One more line, with or without its newline, after a terminated text. */
  lemma LinesAppend(p: Port, text: string, line: string, end: string)
    requires Terminated(p, text) && Unbroken(p, line) && line != "" && (end == "" || end == "\n")
    ensures Lines(p, text + (line + end)) == Lines(p, text) + [line]
  {
    SingleLine(p, "", line, end);
    assert "" + line == line;
    if text == "" {
      assert text + (line + end) == line + end;
    } else {
      LinesConcat(p, "", text, line + end);
    }
  }

  lemma ReadLinesLast(p: Port, lines: seq<string>, line: string)
    requires ReadLines(p, lines).Some? && !Blank(line)
    ensures ReadLines(p, lines + [line]) == WithLine(p, ReadLines(p, lines).value, line)
  {
    assert (lines + [line])[..|lines|] == lines;
  }

  /** What a readable text reads as with one more line. */
  function WithLine(p: Port, records: seq<AuditRecord>, line: string): Option<seq<AuditRecord>>
  {
    match ReadLine(p, line)
    case Some(r) => Some(records + [r])
    case None => None
  }

  /** A non-blank line added to a readable, terminated text decides how the longer text reads. */
  lemma LastLineReads(p: Port, text: string, line: string, end: string)
    requires Terminated(p, text) && ReadText(p, text).Some?
    requires Unbroken(p, line) && !Blank(line) && (end == "" || end == "\n")
    ensures ReadText(p, text + (line + end)) == WithLine(p, ReadText(p, text).value, line)
  {
    LinesAppend(p, text, line, end);
    ReadLinesLast(p, Lines(p, text), line);
  }

  lemma AnyLineAppends(p: Port, text: string, line: string)
    requires Terminated(p, text) && Unbroken(p, line)
    ensures Lines(p, text + (line + "\n")) == Lines(p, text) + [line]
  {
    if line != "" {
      LinesAppend(p, text, line, "\n");
    } else {
      assert line + "\n" == "\n" && "\n"[1..] == "";
      assert Lines(p, "\n") == [""] + Lines(p, "");
      if text == "" { assert text + "\n" == "\n"; } else { LinesConcat(p, "", text, "\n"); }
    }
  }

  /** A blank line does not change what is read. */
  lemma BlankLineSkipped(p: Port, text: string, line: string)
    requires Terminated(p, text) && Unbroken(p, line) && Blank(line)
    ensures ReadText(p, text + (line + "\n")) == ReadText(p, text)
  {
    AnyLineAppends(p, text, line);
    BlankLast(p, Lines(p, text), line);
  }

  lemma BlankLast(p: Port, lines: seq<string>, line: string)
    requires Blank(line)
    ensures ReadLines(p, lines + [line]) == ReadLines(p, lines)
  {
    assert (lines + [line])[..|lines|] == lines;
  }

  lemma LineReads(s: Scheme, r: AuditRecord)
    ensures ReadLine(s.port, s.Line(r)) == Some(AsRead(s.port, r))
  {
    ParseEncode(LineStyle(s.port), RecordJson(r));
    RecordReadsBack(s.port, r);
  }

  /** Appending a record's line to a terminated file appends the record, as the port reads it, to what is read. */
  lemma AppendReads(s: Scheme, text: string, r: AuditRecord)
    requires Terminated(s.port, text) && ReadText(s.port, text).Some?
    ensures ReadText(s.port, text + (s.Line(r) + "\n")) == Some(ReadText(s.port, text).value + [AsRead(s.port, r)])
    ensures ReadText(s.port, text + s.Line(r)) == Some(ReadText(s.port, text).value + [AsRead(s.port, r)])
    ensures Terminated(s.port, text + (s.Line(r) + "\n"))
  {
    LineUnbroken(s, r);
    LineReads(s, r);
    LastLineReads(s.port, text, s.Line(r), "\n");
    LastLineReads(s.port, text, s.Line(r), "");
    assert s.Line(r) + "" == s.Line(r);
  }

  /** A materialized record already holds the port's values. */
  lemma MaterializedCarried(s: Scheme, input: AuditInput, now: string, prevSig: string)
    ensures var r := s.Materialize(input, now, prevSig); Carried(s.port, r) == r
  {
    var r := s.Materialize(input, now, prevSig);
    var given := r.(inputs := if input.inputs.Some? then input.inputs.value else Null,
                    sources := if input.sources.Some? then input.sources.value else Null,
                    confidence := input.confidence);
    assert r == Carried(s.port, given);
    CarriedTwice(s.port, given);
  }

  // ---------------------------------------------------------- the ledger object

  /** The file on disk, which several ledger objects may have open. */
  class LogFile {
    var text: string

    constructor (text: string)
      ensures this.text == text
    {
      this.text := text;
    }
  }

  class AuditLedger {
    const scheme: Scheme
    const log: LogFile
    var lastSig: string

    /** The file can be read and its last signature is the cached one. */
    ghost predicate Valid()
      reads this, log
    {
      Terminated(scheme.port, log.text) && ReadText(scheme.port, log.text).Some? &&
      lastSig == LastSig(ReadText(scheme.port, log.text).value)
    }

    ghost function Records(): seq<AuditRecord>
      requires Valid()
      reads this, log
    {
      ReadText(scheme.port, log.text).value
    }

    constructor (scheme: Scheme, log: LogFile, lastSig: string)
      ensures this.scheme == scheme && this.log == log && this.lastSig == lastSig
    {
      this.scheme, this.log, this.lastSig := scheme, log, lastSig;
    }

    /** Open a ledger on an existing file; the chain resumes from its last record. */
    static method Open(scheme: Scheme, log: LogFile) returns (ledger: Option<AuditLedger>)
      ensures ledger.Some? <==> ReadText(scheme.port, log.text).Some?
      ensures ledger.Some? ==>
                fresh(ledger.value) && ledger.value.scheme == scheme && ledger.value.log == log &&
                ledger.value.lastSig == LastSig(ReadText(scheme.port, log.text).value)
    {
      var records := ReadRecords(scheme.port, log.text);
      if records.None? { return None; }
      var l := new AuditLedger(scheme, log, LastSig(records.value));
      ledger := Some(l);
    }

    /** Append one record behind the cached signature, whatever the file's last record is by now. */
    method Append(input: AuditInput, now: string) returns (sig: string)
      modifies this, log
      ensures var r := scheme.Materialize(input, now, old(lastSig));
              log.text == old(log.text) + (scheme.Line(r) + "\n") && lastSig == sig == r.sig
      ensures old(Valid()) ==>
                var r := scheme.Materialize(input, now, old(lastSig));
                Valid() && Records() == old(Records()) + [AsRead(scheme.port, r)] &&
                Tells(scheme.port, Records()[|Records()| - 1], input, now) &&
                Records()[|Records()| - 1].prevSig == old(lastSig) &&
                (old(IsChain(scheme, Records())) ==> (IsChain(scheme, Records()) <==> !Misread(scheme, r)))
    {
      var record := scheme.Materialize(input, now, lastSig);
      ghost var before := ReadText(scheme.port, log.text);
      if Terminated(scheme.port, log.text) && ReadText(scheme.port, log.text).Some? {
        AppendReads(scheme, log.text, record);
        ChainWith(scheme, before.value, AsRead(scheme.port, record));
        MaterializedTells(scheme, input, now, lastSig);
      }
      log.text := log.text + (scheme.Line(record) + "\n");
      lastSig := record.sig;
      sig := record.sig;
    }

    /** Re-walk the file. */
    method Verify() returns (v: Option<VerifyResult>)
      ensures v.None? <==> ReadText(scheme.port, log.text).None?
      ensures v.Some? ==> v.value == AuditChain.Verify(scheme, ReadText(scheme.port, log.text).value)
    {
      var records := ReadRecords(scheme.port, log.text);
      if records.None? { return None; }
      var result := VerifyRecords(scheme, records.value);
      v := Some(result);
    }
  }

  /** The record's line, read back, no longer has the text that was signed. */
  predicate Misread(s: Scheme, r: AuditRecord) { s.Sign(AsRead(s.port, r)) != r.sig }

  /** A record extends a chain exactly when it links to its end and carries its own signature. */
  lemma ChainWith(s: Scheme, rs: seq<AuditRecord>, r: AuditRecord)
    ensures IsChain(s, rs + [r]) <==> IsChain(s, rs) && r.prevSig == LastSig(rs) && r.sig == s.Sign(r)
  {
    var all := rs + [r];
    assert all[..|rs|] == rs;
    PrefixIsChain(s, all, |rs|);
    assert LinkedAt(s, all, |rs|) <==> r.prevSig == LastSig(rs) && r.sig == s.Sign(r);
  }

  /** A record as a ledger writes it: its values are those the port holds, its signature is its own. */
  ghost predicate Written(s: Scheme, r: AuditRecord) { Carried(s.port, r) == r && r.sig == s.Sign(r) }

  lemma MaterializedWritten(s: Scheme, input: AuditInput, now: string, prevSig: string)
    ensures var r := s.Materialize(input, now, prevSig); Written(s, r) && r.prevSig == prevSig
  {
    var r := s.Materialize(input, now, prevSig);
    MaterializedCarried(s, input, now, prevSig);
    assert s.Message(r) == s.Message(r.(sig := ""));
  }

  /** A record materialized on a signature extends a chain exactly when that is the chain's last signature. */
  lemma ExtendedChain(s: Scheme, rs: seq<AuditRecord>, input: AuditInput, now: string, prevSig: string)
    ensures var r := s.Materialize(input, now, prevSig);
            IsChain(s, rs + [r]) <==> IsChain(s, rs) && prevSig == LastSig(rs)
  {
    MaterializedWritten(s, input, now, prevSig);
    ChainWith(s, rs, s.Materialize(input, now, prevSig));
  }

  /** Misread means that some number of the signed fields is not read back as itself. */
  lemma MisreadMeans(s: Scheme, r: AuditRecord)
    requires Written(s, r) && Sound(s, {s.Message(r), s.Message(AsRead(s.port, r))})
    ensures Misread(s, r) <==> !RecordReadsExactly(s.port, r)
  {
    MessageReadsBack(s, r);
  }

  /** Python and TypeScript misread nothing they wrote. */
  lemma OthersMisreadNothing(s: Scheme, r: AuditRecord)
    requires !s.port.Rust? && Written(s, r)
    ensures !Misread(s, r) && AsRead(s.port, r) == r
  {
    OthersReadExactly(s.port, r);
  }

  /** A given JSON field as it stands in the file: absent ones are null. */
  function GivenField(p: Port, v: Option<Json>): Json { if v.Some? then Read(p, Held(p, v.value)) else Null }

  /** The record in the file says what the caller's input says, at the clock reading `now` unless a time was given. */
  ghost predicate Tells(p: Port, q: AuditRecord, input: AuditInput, now: string)
  {
    q.event == input.event && q.actor == input.actor && q.rationale == input.rationale &&
    (input.ts.None? || (p.Python? && input.ts == Some("")) ==> q.ts == now) &&
    (input.ts.Some? && (p.Python? ==> input.ts != Some("")) ==> Some(q.ts) == input.ts) &&
    q.inputs == GivenField(p, input.inputs) && q.sources == GivenField(p, input.sources) &&
    (q.confidence.Some? <==> input.confidence.Some?) &&
    (q.confidence.Some? ==> q.confidence.value == ReadConfidence(p, HeldConfidence(p, input.confidence.value)))
  }

  /** What is appended for an input, read back, says what the input says and names the signature before it. */
  lemma MaterializedTells(s: Scheme, input: AuditInput, now: string, prevSig: string)
    ensures var q := AsRead(s.port, s.Materialize(input, now, prevSig));
            Tells(s.port, q, input, now) && q.prevSig == prevSig
  {
  }

  // -------------------------------------------------------------------- runs

  datatype Op = Append(writer: nat, input: AuditInput, now: string) | Open(writer: nat)

  /** The file and the signature cached by each live ledger object. */
  datatype State = State(file: string, cached: map<nat, string>)

  /** One operation, as the methods above perform it; `None` when the file cannot be read or no such ledger is open. */
  function Step(s: Scheme, st: State, op: Op): Option<State>
  {
    match op
    case Append(w, input, now) =>
      if w !in st.cached then None
      else
        var r := s.Materialize(input, now, st.cached[w]);
        Some(State(st.file + (s.Line(r) + "\n"), st.cached[w := r.sig]))
    case Open(w) =>
      match ReadText(s.port, st.file)
      case Some(rs) => Some(State(st.file, st.cached[w := LastSig(rs)]))
      case None => None
  }

  function Run(s: Scheme, st: State, ops: seq<Op>): Option<State>
    decreases |ops|
  {
    if ops == [] then Some(st)
    else
      match Step(s, st, ops[0])
      case Some(next) => Run(s, next, ops[1..])
      case None => None
  }

  function AppendCount(ops: seq<Op>): nat
  {
    if ops == [] then 0 else (if ops[0].Append? then 1 else 0) + AppendCount(ops[1..])
  }

  // ------------------------------------------------- the same runs on records alone

  /** What the operations do to the records of the file, its text left aside. */
  datatype Ledgers = Ledgers(records: seq<AuditRecord>, cached: map<nat, string>)

  function StepRecords(s: Scheme, l: Ledgers, op: Op): Option<Ledgers>
  {
    match op
    case Append(w, input, now) =>
      if w !in l.cached then None
      else
        var r := s.Materialize(input, now, l.cached[w]);
        Some(Ledgers(l.records + [r], l.cached[w := r.sig]))
    case Open(w) => Some(Ledgers(l.records, l.cached[w := LastSig(l.records)]))
  }

  function RunRecords(s: Scheme, l: Ledgers, ops: seq<Op>): Option<Ledgers>
    decreases |ops|
  {
    if ops == [] then Some(l)
    else
      match StepRecords(s, l, ops[0])
      case Some(next) => RunRecords(s, next, ops[1..])
      case None => None
  }

  /** What is read of a file that held the first `n` records and had the others appended to it. */
  function InFile(p: Port, rs: seq<AuditRecord>, n: nat): (r: seq<AuditRecord>)
    ensures |r| == |rs|
    ensures forall i :: 0 <= i < |rs| ==> r[i] == if i < n then rs[i] else AsRead(p, rs[i])
  {
    seq(|rs|, i requires 0 <= i < |rs| => if i < n then rs[i] else AsRead(p, rs[i]))
  }

  lemma InFileLinks(p: Port, rs: seq<AuditRecord>, n: nat, i: nat)
    requires i <= |rs|
    ensures Link(InFile(p, rs, n), i) == Link(rs, i)
  {
  }

  lemma InFileNext(p: Port, rs: seq<AuditRecord>, n: nat, r: AuditRecord)
    requires n <= |rs|
    ensures InFile(p, rs + [r], n) == InFile(p, rs, n) + [AsRead(p, r)]
  {
  }

  /** The file can be read, ends with a line break and holds these records, those after the first `n` as read. */
  ghost predicate Shows(s: Scheme, st: State, l: Ledgers, n: nat)
  {
    n <= |l.records| && Terminated(s.port, st.file) &&
    ReadText(s.port, st.file) == Some(InFile(s.port, l.records, n)) && st.cached == l.cached
  }

  lemma StepShows(s: Scheme, st: State, l: Ledgers, n: nat, op: Op)
    requires Shows(s, st, l, n)
    ensures Step(s, st, op).Some? <==> StepRecords(s, l, op).Some?
    ensures Step(s, st, op).Some? ==> Shows(s, Step(s, st, op).value, StepRecords(s, l, op).value, n)
  {
    if op.Append? && op.writer in st.cached {
      var r := s.Materialize(op.input, op.now, st.cached[op.writer]);
      AppendReads(s, st.file, r);
      InFileNext(s.port, l.records, n, r);
    }
    InFileLinks(s.port, l.records, n, |l.records|);
  }

  /** Every run on the text is that run on records: the file never becomes unreadable. */
  lemma {:induction false} RunShows(s: Scheme, st: State, l: Ledgers, n: nat, ops: seq<Op>)
    requires Shows(s, st, l, n)
    ensures Run(s, st, ops).Some? <==> RunRecords(s, l, ops).Some?
    ensures Run(s, st, ops).Some? ==> Shows(s, Run(s, st, ops).value, RunRecords(s, l, ops).value, n)
    decreases |ops|
  {
    if ops != [] {
      StepShows(s, st, l, n, ops[0]);
      if Step(s, st, ops[0]).Some? { RunShows(s, Step(s, st, ops[0]).value, StepRecords(s, l, ops[0]).value, n, ops[1..]); }
    }
  }

  /** The records that were appended are as a ledger writes them. */
  lemma {:induction false} RunWrites(s: Scheme, l: Ledgers, n: nat, ops: seq<Op>)
    requires RunRecords(s, l, ops).Some?
    requires forall i :: n <= i < |l.records| ==> Written(s, l.records[i])
    ensures var rs := RunRecords(s, l, ops).value.records; forall i :: n <= i < |rs| ==> Written(s, rs[i])
    decreases |ops|
  {
    if ops != [] {
      if ops[0].Append? { MaterializedWritten(s, ops[0].input, ops[0].now, l.cached[ops[0].writer]); }
      RunWrites(s, StepRecords(s, l, ops[0]).value, n, ops[1..]);
    }
  }

  /** The appends of a run, in order. */
  function Appends(ops: seq<Op>): seq<Op>
  {
    if ops == [] then [] else (if ops[0].Append? then [ops[0]] else []) + Appends(ops[1..])
  }

  /** The records from `n` on, as read, say what the inputs of the appends say. */
  ghost predicate TellInputs(p: Port, rs: seq<AuditRecord>, n: nat, appends: seq<Op>)
  {
    |rs| == n + |appends| &&
    forall i :: 0 <= i < |appends| ==>
      appends[i].Append? && Tells(p, AsRead(p, rs[n + i]), appends[i].input, appends[i].now)
  }

  lemma TellNext(p: Port, rs: seq<AuditRecord>, n: nat, op: Op, rest: seq<Op>)
    requires n < |rs| && op.Append? && Tells(p, AsRead(p, rs[n]), op.input, op.now) && TellInputs(p, rs, n + 1, rest)
    ensures TellInputs(p, rs, n, [op] + rest)
  {
    var all := [op] + rest;
    forall i | 0 <= i < |all| ensures all[i].Append? && Tells(p, AsRead(p, rs[n + i]), all[i].input, all[i].now) {
      if i > 0 { assert all[i] == rest[i - 1] && n + i == n + 1 + (i - 1); }
    }
  }

  lemma StepTells(s: Scheme, l: Ledgers, op: Op, rs: seq<AuditRecord>)
    requires op.Append? && StepRecords(s, l, op).Some? && StepRecords(s, l, op).value.records <= rs
    ensures |l.records| < |rs| && Tells(s.port, AsRead(s.port, rs[|l.records|]), op.input, op.now)
  {
    MaterializedTells(s, op.input, op.now, l.cached[op.writer]);
    assert rs[|l.records|] == StepRecords(s, l, op).value.records[|l.records|];
  }

  /**
   MAIN: after any run of several ledgers, the record that the file shows for an append says what that
   append's input says: nothing is lost, added or confused.
   */
  lemma {:induction false} RunTells(s: Scheme, l: Ledgers, ops: seq<Op>, end: Ledgers)
    requires RunRecords(s, l, ops) == Some(end)
    ensures TellInputs(s.port, end.records, |l.records|, Appends(ops))
    decreases |ops|
  {
    if ops != [] {
      hide TellInputs, Tells;
      var next := StepRecords(s, l, ops[0]).value;
      RunTells(s, next, ops[1..], end);
      RunAdds(s, next, ops[1..]);
      if ops[0].Append? {
        StepTells(s, l, ops[0], end.records);
        TellNext(s.port, end.records, |l.records|, ops[0], Appends(ops[1..]));
      }
    }
  }

  /** The append is made behind the last record. */
  predicate InStepNow(l: Ledgers, op: Op)
  {
    op.Append? ==> op.writer in l.cached && l.cached[op.writer] == LastSig(l.records)
  }

  /** At every append of the run the writer's cached signature is that of the last record. */
  predicate InStep(s: Scheme, l: Ledgers, ops: seq<Op>)
    decreases |ops|
  {
    ops == [] ||
    (InStepNow(l, ops[0]) && StepRecords(s, l, ops[0]).Some? && InStep(s, StepRecords(s, l, ops[0]).value, ops[1..]))
  }

  /** The number of appends before the first one that is out of step. */
  function AppendsInStep(s: Scheme, l: Ledgers, ops: seq<Op>): nat
    decreases |ops|
  {
    if ops == [] || !InStepNow(l, ops[0]) || StepRecords(s, l, ops[0]).None? then 0
    else (if ops[0].Append? then 1 else 0) + AppendsInStep(s, StepRecords(s, l, ops[0]).value, ops[1..])
  }

  /** A run only adds records, one per append. */
  lemma {:induction false} RunAdds(s: Scheme, l: Ledgers, ops: seq<Op>)
    requires RunRecords(s, l, ops).Some?
    ensures var end := RunRecords(s, l, ops).value;
            l.records <= end.records && |end.records| == |l.records| + AppendCount(ops)
    decreases |ops|
  {
    if ops != [] { RunAdds(s, StepRecords(s, l, ops[0]).value, ops[1..]); }
  }

  /** An operation leaves a chain behind exactly when it finds one and is in step. */
  lemma StepChain(s: Scheme, l: Ledgers, op: Op)
    requires StepRecords(s, l, op).Some?
    ensures IsChain(s, StepRecords(s, l, op).value.records) <==> IsChain(s, l.records) && InStepNow(l, op)
  {
    if op.Append? { ExtendedChain(s, l.records, op.input, op.now, l.cached[op.writer]); }
  }

  lemma {:induction false} RunChain(s: Scheme, l: Ledgers, ops: seq<Op>)
    requires RunRecords(s, l, ops).Some?
    ensures IsChain(s, RunRecords(s, l, ops).value.records) <==> IsChain(s, l.records) && InStep(s, l, ops)
    decreases |ops|
  {
    if ops != [] {
      StepChain(s, l, ops[0]);
      RunChain(s, StepRecords(s, l, ops[0]).value, ops[1..]);
    }
  }

  /** The records before number `k` are a chain, and if there is a record `k`, it does not carry the signature before it. */
  ghost predicate ChainUpTo(s: Scheme, rs: seq<AuditRecord>, k: nat)
  {
    k <= |rs| && (forall j: nat :: j < k ==> LinkedAt(s, rs, j)) && (k < |rs| ==> rs[k].prevSig != Link(rs, k))
  }

  /** Record `i` is the first one that does not link, and it does not carry the signature before it. */
  ghost predicate BrokenLink(s: Scheme, rs: seq<AuditRecord>, i: nat)
  {
    i < |rs| && ChainUpTo(s, rs, i)
  }

  /** An append that is out of step does not link to the record before it. */
  lemma OutOfStepNow(s: Scheme, l: Ledgers, ops: seq<Op>)
    requires RunRecords(s, l, ops).Some? && IsChain(s, l.records) && ops != [] && !InStepNow(l, ops[0])
    ensures BrokenLink(s, RunRecords(s, l, ops).value.records, |l.records|)
  {
    var all, next := RunRecords(s, l, ops).value.records, StepRecords(s, l, ops[0]).value;
    RunAdds(s, l, ops);
    RunAdds(s, next, ops[1..]);
    forall j: nat | j < |l.records| ensures LinkedAt(s, all, j) { assert LinkedAt(s, l.records, j); }
    assert all[|l.records|] == next.records[|l.records|];
  }

  lemma {:induction false} OutOfStepBreaks(s: Scheme, l: Ledgers, ops: seq<Op>)
    requires RunRecords(s, l, ops).Some? && IsChain(s, l.records) && !InStep(s, l, ops)
    ensures BrokenLink(s, RunRecords(s, l, ops).value.records, |l.records| + AppendsInStep(s, l, ops))
    decreases |ops|
  {
    hide Scheme.Materialize, BrokenLink;
    if InStepNow(l, ops[0]) {
      StepChain(s, l, ops[0]);
      OutOfStepBreaks(s, StepRecords(s, l, ops[0]).value, ops[1..]);
    } else {
      OutOfStepNow(s, l, ops);
    }
  }

  lemma {:induction false} AllInStep(s: Scheme, l: Ledgers, ops: seq<Op>)
    requires InStep(s, l, ops)
    ensures AppendsInStep(s, l, ops) == AppendCount(ops)
    decreases |ops|
  {
    if ops != [] { AllInStep(s, StepRecords(s, l, ops[0]).value, ops[1..]); }
  }

  /** What a run leaves: a chain up to the first append that is out of step. */
  lemma RunLinks(s: Scheme, l: Ledgers, ops: seq<Op>, end: Ledgers)
    requires RunRecords(s, l, ops) == Some(end) && IsChain(s, l.records)
    ensures ChainUpTo(s, end.records, |l.records| + AppendsInStep(s, l, ops))
    ensures |end.records| == |l.records| + AppendCount(ops)
    ensures InStep(s, l, ops) <==> AppendsInStep(s, l, ops) == AppendCount(ops)
  {
    RunAdds(s, l, ops);
    if InStep(s, l, ops) {
      AllInStep(s, l, ops);
      RunChain(s, l, ops);
    } else {
      OutOfStepBreaks(s, l, ops);
    }
  }

  // ------------------------------------------------------------ records misread

  /** The first record from `i` on that is misread. */
  function FirstMisread(s: Scheme, rs: seq<AuditRecord>, i: nat): (m: nat)
    requires i <= |rs|
    ensures i <= m <= |rs| && (m < |rs| ==> Misread(s, rs[m]))
    ensures forall j {:trigger Misread(s, rs[j])} :: i <= j < m ==> !Misread(s, rs[j])
    decreases |rs| - i
  {
    if i == |rs| || Misread(s, rs[i]) then i else FirstMisread(s, rs, i + 1)
  }

  /** A record in the file links exactly if the appended one did and was not misread. */
  lemma InFileLinked(s: Scheme, rs: seq<AuditRecord>, n: nat, i: nat)
    requires i < |rs| && (rs[i].prevSig == Link(rs, i) ==> LinkedAt(s, rs, i))
    ensures InFile(s.port, rs, n)[i].prevSig == rs[i].prevSig
    ensures LinkedAt(s, InFile(s.port, rs, n), i) <==> LinkedAt(s, rs, i) && (i < n || !Misread(s, rs[i]))
  {
    InFileLinks(s.port, rs, n, i);
  }

  /** What the verifier says of a file: the first misread record before the first broken link, or that link. */
  function Verdict(rs: nat, k: nat, m: nat): VerifyResult
  {
    if m < k then Tampered(m, SignatureMismatch) else if k < rs then Tampered(k, PrevSigMismatch) else Intact(rs)
  }

  lemma InFileVerifies(s: Scheme, rs: seq<AuditRecord>, n: nat, k: nat)
    requires n <= k && ChainUpTo(s, rs, k)
    ensures Verify(s, InFile(s.port, rs, n)) == Verdict(|rs|, k, FirstMisread(s, rs, n))
  {
    var file, m := InFile(s.port, rs, n), FirstMisread(s, rs, n);
    forall i: nat | i < k ensures LinkedAt(s, file, i) <==> i < n || !Misread(s, rs[i]) { InFileLinked(s, rs, n, i); }
    if m < k {
      InFileLinks(s.port, rs, n, m);
      assert LinkedAt(s, rs, m);
      VerifyFromReason(s, file, 0, m);
    } else if k < |rs| {
      InFileLinks(s.port, rs, n, k);
      VerifyFromReason(s, file, 0, k);
    } else {
      AcceptedIsChain(s, file);
    }
  }

  lemma RunVerdict(s: Scheme, l: Ledgers, ops: seq<Op>, end: Ledgers)
    requires RunRecords(s, l, ops) == Some(end) && IsChain(s, l.records)
    ensures |end.records| >= |l.records|
    ensures Verify(s, InFile(s.port, end.records, |l.records|)) ==
            Verdict(|end.records|, |l.records| + AppendsInStep(s, l, ops), FirstMisread(s, end.records, |l.records|))
  {
    hide *;
    RunLinks(s, l, ops, end);
    InFileVerifies(s, end.records, |l.records|, |l.records| + AppendsInStep(s, l, ops));
  }

  lemma RunReads(s: Scheme, st: State, l: Ledgers, ops: seq<Op>, end: Ledgers)
    requires Shows(s, st, l, |l.records|) && RunRecords(s, l, ops) == Some(end)
    ensures Run(s, st, ops).Some?
    ensures ReadText(s.port, Run(s, st, ops).value.file) == Some(InFile(s.port, end.records, |l.records|))
  {
    RunShows(s, st, l, |l.records|, ops);
  }

  /**
   MAIN: whatever several live ledgers on one file append and reopen, the file stays readable with one record
   per append. It is accepted exactly when at every append the writer's cached signature was the file's last
   one and no appended record is misread; otherwise the first append out of step is reported as a broken
   link, unless an earlier record is misread: then the first such one is reported as a signature mismatch.
   */
  lemma SharedRunVerifies(s: Scheme, st: State, l: Ledgers, ops: seq<Op>, end: Ledgers)
    requires Shows(s, st, l, |l.records|) && IsChain(s, l.records) && RunRecords(s, l, ops) == Some(end)
    ensures Run(s, st, ops).Some?
    ensures var read := ReadText(s.port, Run(s, st, ops).value.file);
            read.Some? && |read.value| == |end.records| == |l.records| + AppendCount(ops) &&
            (InStep(s, l, ops) <==> AppendsInStep(s, l, ops) == AppendCount(ops)) &&
            Verify(s, read.value) ==
              Verdict(|end.records|, |l.records| + AppendsInStep(s, l, ops), FirstMisread(s, end.records, |l.records|))
  {
    hide *;
    RunReads(s, st, l, ops, end);
    RunLinks(s, l, ops, end);
    RunVerdict(s, l, ops, end);
  }

  // ---------------------------------------------------------- taking turns

  /**
   Every append is made by a writer that has opened the file or appended to it after everybody else's last
   append: `seen` is the number of records at each writer's last operation, `n` the current number.
   */
  predicate TakesTurns(seen: map<nat, nat>, n: nat, ops: seq<Op>)
    decreases |ops|
  {
    ops == [] ||
    match ops[0]
    case Open(w) => TakesTurns(seen[w := n], n, ops[1..])
    case Append(w, _, _) => w in seen && seen[w] == n && TakesTurns(seen[w := n + 1], n + 1, ops[1..])
  }

  /** Each cached signature is that of the last record its writer has seen. */
  ghost predicate Tracks(l: Ledgers, seen: map<nat, nat>)
  {
    l.cached.Keys == seen.Keys &&
    forall w :: w in seen ==> seen[w] <= |l.records| && l.cached[w] == Link(l.records, seen[w])
  }

  lemma MessagesOfPrefix(s: Scheme, rs: seq<AuditRecord>, all: seq<AuditRecord>)
    requires rs <= all && Sound(s, Messages(s, all))
    ensures Sound(s, Messages(s, rs))
  {
    forall m | m in Messages(s, rs) ensures m in Messages(s, all) {
      var r :| r in rs && s.Message(r) == m;
      var i :| 0 <= i < |rs| && rs[i] == r;
      assert all[i] == r;
    }
    SoundSubset(s, Messages(s, rs), Messages(s, all));
  }

  lemma StepTracks(s: Scheme, l: Ledgers, seen: map<nat, nat>, op: Op)
    requires Tracks(l, seen) && StepRecords(s, l, op).Some?
    ensures var next := StepRecords(s, l, op).value; Tracks(next, seen[op.writer := |next.records|])
  {
    var next := StepRecords(s, l, op).value;
    forall w | w in seen ensures Link(next.records, seen[w]) == Link(l.records, seen[w]) {}
  }

  /** In a chain with distinct signatures the cached one is the last exactly if the last record was seen. */
  lemma InStepIfSeen(s: Scheme, l: Ledgers, seen: map<nat, nat>, op: Op)
    requires Tracks(l, seen) && StepRecords(s, l, op).Some?
    requires IsChain(s, l.records) && Sound(s, Messages(s, l.records))
    ensures InStepNow(l, op) <==> (op.Append? ==> op.writer in seen && seen[op.writer] == |l.records|)
  {
    if op.Append? && Link(l.records, seen[op.writer]) == LastSig(l.records) {
      LinksDistinct(s, l.records, seen[op.writer], |l.records|);
    }
  }

  lemma {:induction false} TurnsAreInStep(s: Scheme, l: Ledgers, seen: map<nat, nat>, ops: seq<Op>)
    requires Tracks(l, seen) && IsChain(s, l.records) && RunRecords(s, l, ops).Some?
    requires Sound(s, Messages(s, RunRecords(s, l, ops).value.records))
    ensures InStep(s, l, ops) <==> TakesTurns(seen, |l.records|, ops)
    decreases |ops|
  {
    if ops != [] {
      var next := StepRecords(s, l, ops[0]).value;
      RunAdds(s, l, ops);
      MessagesOfPrefix(s, l.records, RunRecords(s, l, ops).value.records);
      InStepIfSeen(s, l, seen, ops[0]);
      StepTracks(s, l, seen, ops[0]);
      StepChain(s, l, ops[0]);
      if InStepNow(l, ops[0]) { TurnsAreInStep(s, next, seen[ops[0].writer := |next.records|], ops[1..]); }
    }
  }

  /** The texts that were signed and those that are verified. */
  ghost function AllMessages(s: Scheme, written: seq<AuditRecord>): set<string>
  {
    Messages(s, written) + Messages(s, InFile(s.port, written, 0))
  }

  lemma MisreadIsInexact(s: Scheme, written: seq<AuditRecord>, i: nat)
    requires i < |written| && Written(s, written[i]) && Sound(s, AllMessages(s, written))
    ensures Misread(s, written[i]) <==> !RecordReadsExactly(s.port, written[i])
  {
    var file := InFile(s.port, written, 0);
    MessageOf(s, written, i);
    MessageOf(s, file, i);
    SoundSubset(s, {s.Message(written[i]), s.Message(file[i])}, AllMessages(s, written));
    MisreadMeans(s, written[i]);
  }

  /** The first record with a number that is not read back as itself, or the number of records. */
  ghost predicate FirstInexact(p: Port, written: seq<AuditRecord>, i: nat)
  {
    i <= |written| && (i < |written| ==> !RecordReadsExactly(p, written[i])) &&
    forall j: nat :: j < i ==> RecordReadsExactly(p, written[j])
  }

  lemma FirstMisreadMeans(s: Scheme, written: seq<AuditRecord>, i: nat)
    requires forall j :: 0 <= j < |written| ==> Written(s, written[j])
    requires Sound(s, AllMessages(s, written))
    ensures FirstMisread(s, written, 0) == i <==> FirstInexact(s.port, written, i)
  {
    hide Misread, RecordReadsExactly, Sound, AllMessages, Written;
    forall j | 0 <= j < |written| ensures Misread(s, written[j]) <==> !RecordReadsExactly(s.port, written[j]) {
      MisreadIsInexact(s, written, j);
    }
  }

  /**
   MAIN: starting from an absent file, what any number of live ledgers append is accepted exactly when every
   append is made by a ledger that opened the file or appended to it after all other appends, and every
   number in the signed fields of every appended record is read back as itself.
   */
  lemma AcceptedIffTurns(s: Scheme, ops: seq<Op>, end: Ledgers)
    requires RunRecords(s, Ledgers([], map[]), ops) == Some(end) && Sound(s, AllMessages(s, end.records))
    ensures var st := Run(s, State("", map[]), ops);
            st.Some? && ReadText(s.port, st.value.file).Some? &&
            (Verify(s, ReadText(s.port, st.value.file).value) == Intact(AppendCount(ops)) <==>
             TakesTurns(map[], 0, ops) && forall r :: r in end.records ==> RecordReadsExactly(s.port, r))
  {
    hide *;
    var l := Ledgers([], map[]);
    AbsentFile(s, map[], map[]);
    SharedRunVerifies(s, State("", map[]), l, ops, end);
    FewerMessages(s, end.records);
    TurnsAreInStep(s, l, map[], ops);
    AppendedMisread(s, map[], ops, end, |end.records|);
    NoneInexact(s.port, end.records);
    VerdictIntact(|end.records|, AppendsInStep(s, l, ops), FirstMisread(s, end.records, 0));
  }

  lemma VerdictIntact(rs: nat, k: nat, m: nat)
    ensures Verdict(rs, k, m) == Intact(rs) <==> rs <= k <= m
  {
  }

  lemma AbsentFile(s: Scheme, cached: map<nat, string>, seen: map<nat, nat>)
    requires cached.Keys == seen.Keys && forall w :: w in seen ==> seen[w] == 0 && cached[w] == ""
    ensures var l := Ledgers([], cached);
            Shows(s, State("", cached), l, |l.records|) && IsChain(s, l.records) && |l.records| == 0 && Tracks(l, seen)
  {
  }

  lemma FewerMessages(s: Scheme, written: seq<AuditRecord>)
    requires Sound(s, AllMessages(s, written))
    ensures Sound(s, Messages(s, written))
  {
    SoundSubset(s, Messages(s, written), AllMessages(s, written));
  }

  lemma NoneInexact(p: Port, written: seq<AuditRecord>)
    ensures FirstInexact(p, written, |written|) <==> forall r :: r in written ==> RecordReadsExactly(p, r)
  {
  }

  /** What a run appends to an absent file is misread exactly where a number is not read back as itself. */
  lemma AppendedMisread(s: Scheme, cached: map<nat, string>, ops: seq<Op>, end: Ledgers, i: nat)
    requires RunRecords(s, Ledgers([], cached), ops) == Some(end) && Sound(s, AllMessages(s, end.records))
    ensures FirstMisread(s, end.records, 0) == i <==> FirstInexact(s.port, end.records, i)
  {
    RunWrites(s, Ledgers([], cached), 0, ops);
    FirstMisreadMeans(s, end.records, i);
  }

  // ---------------------------------------------------------- one live writer

  /** A single writer that has opened the file is always in step. */
  lemma {:induction false} OneWriterInStep(s: Scheme, l: Ledgers, w: nat, ops: seq<Op>)
    requires w in l.cached && l.cached[w] == LastSig(l.records)
    requires forall i :: 0 <= i < |ops| ==> ops[i].writer == w
    ensures RunRecords(s, l, ops).Some? && InStep(s, l, ops)
    decreases |ops|
  {
    if ops != [] { OneWriterInStep(s, StepRecords(s, l, ops[0]).value, w, ops[1..]); }
  }

  /** The records that one live writer appends to an absent file. */
  function WrittenBy(s: Scheme, w: nat, ops: seq<Op>): seq<AuditRecord>
    requires RunRecords(s, Ledgers([], map[w := ""]), ops).Some?
  {
    RunRecords(s, Ledgers([], map[w := ""]), ops).value.records
  }

  /**
   MAIN: after any sequence of appends and reopens by one live writer, starting from an absent file, the file
   can be read, and the verifier accepts it with exactly as many records as there were appends, unless one
   of them is misread: then the first such one is reported. Python and TypeScript misread none.
   */
  lemma EveryRunVerifies(s: Scheme, w: nat, ops: seq<Op>)
    requires forall i :: 0 <= i < |ops| ==> ops[i].writer == w
    ensures RunRecords(s, Ledgers([], map[w := ""]), ops).Some?
    ensures var end := Run(s, State("", map[w := ""]), ops);
            var m := FirstMisread(s, WrittenBy(s, w, ops), 0);
            end.Some? && ReadText(s.port, end.value.file).Some? &&
            Verify(s, ReadText(s.port, end.value.file).value) ==
              (if m < AppendCount(ops) then Tampered(m, SignatureMismatch) else Intact(AppendCount(ops))) &&
            (!s.port.Rust? ==> m == AppendCount(ops))
  {
    var l := Ledgers([], map[w := ""]);
    OneWriterInStep(s, l, w, ops);
    SingleRunVerifies(s, w, ops, RunRecords(s, l, ops).value);
  }

  lemma SingleRunVerifies(s: Scheme, w: nat, ops: seq<Op>, written: Ledgers)
    requires RunRecords(s, Ledgers([], map[w := ""]), ops) == Some(written)
    requires InStep(s, Ledgers([], map[w := ""]), ops)
    ensures var end := Run(s, State("", map[w := ""]), ops);
            var m := FirstMisread(s, written.records, 0);
            end.Some? && ReadText(s.port, end.value.file).Some? &&
            Verify(s, ReadText(s.port, end.value.file).value) ==
              (if m < AppendCount(ops) then Tampered(m, SignatureMismatch) else Intact(AppendCount(ops))) &&
            (!s.port.Rust? ==> m == AppendCount(ops))
  {
    hide *;
    var l := Ledgers([], map[w := ""]);
    AbsentFile(s, map[w := ""], map[w := 0]);
    SharedRunVerifies(s, State("", map[w := ""]), l, ops, written);
    RunWrites(s, l, 0, ops);
    if !s.port.Rust? { NoneMisread(s, written.records); }
    VerdictAllInStep(|written.records|, FirstMisread(s, written.records, 0));
  }

  lemma VerdictAllInStep(rs: nat, m: nat)
    ensures Verdict(rs, rs, m) == if m < rs then Tampered(m, SignatureMismatch) else Intact(rs)
  {
  }

  lemma NoneMisread(s: Scheme, written: seq<AuditRecord>)
    requires !s.port.Rust? && forall i :: 0 <= i < |written| ==> Written(s, written[i])
    ensures FirstMisread(s, written, 0) == |written|
  {
    var m := FirstMisread(s, written, 0);
    if m < |written| { OthersMisreadNothing(s, written[m]); }
  }

  /**
   MAIN: what one live Rust ledger writes is accepted exactly when every number in the signed fields of every
   record is read back as itself; otherwise the first record with one that is not is reported.
   */
  lemma RustRunVerifies(s: Scheme, w: nat, ops: seq<Op>, i: nat)
    requires forall i :: 0 <= i < |ops| ==> ops[i].writer == w
    requires RunRecords(s, Ledgers([], map[w := ""]), ops).Some? && Sound(s, AllMessages(s, WrittenBy(s, w, ops)))
    requires FirstInexact(s.port, WrittenBy(s, w, ops), i)
    ensures var end := Run(s, State("", map[w := ""]), ops);
            end.Some? && ReadText(s.port, end.value.file).Some? &&
            Verify(s, ReadText(s.port, end.value.file).value) ==
              (if i < AppendCount(ops) then Tampered(i, SignatureMismatch) else Intact(AppendCount(ops)))
  {
    EveryRunVerifies(s, w, ops);
    AppendedMisread(s, map[w := ""], ops, RunRecords(s, Ledgers([], map[w := ""]), ops).value, i);
  }

  // --------------------------------------------------- where the hypotheses matter

  /** One double that Rust's library does not give back is enough to have an untouched file reported. */
  lemma MisreadConfidenceReported(s: Scheme, input: AuditInput, now: string)
    requires s.port.Rust? && input.confidence.Some? && input.confidence.value.Real?
    requires s.port.reader.double(input.confidence.value.d) != input.confidence.value.d
    requires var r := s.Materialize(input, now, ""); Sound(s, {s.Message(r), s.Message(AsRead(s.port, r))})
    ensures var r := s.Materialize(input, now, "");
            Verify(s, [AsRead(s.port, r)]) == Tampered(0, SignatureMismatch)
  {
    MaterializedWritten(s, input, now, "");
    MisreadMeans(s, s.Materialize(input, now, ""));
  }

  /**
   Two live ledgers opened on the same file each cache the same last signature: after one append by
   each, the verifier reports the second of the two records.
   */
  lemma TwoWritersBreakTheChain(s: Scheme, rs: seq<AuditRecord>, in1: AuditInput, now1: string, in2: AuditInput, now2: string)
    requires IsChain(s, rs)
    requires Sound(s, Messages(s, rs + [s.Materialize(in1, now1, LastSig(rs))]))
    ensures var r1 := s.Materialize(in1, now1, LastSig(rs));
            var r2 := s.Materialize(in2, now2, LastSig(rs));
            Verify(s, rs + [r1, r2]) == Tampered(|rs| + 1, PrevSigMismatch)
  {
    var r1 := s.Materialize(in1, now1, LastSig(rs));
    var r2 := s.Materialize(in2, now2, LastSig(rs));
    var qs, all := rs + [r1], rs + [r1, r2];
    ExtendedChain(s, rs, in1, now1, LastSig(rs));
    assert Link(qs, |rs|) == LastSig(rs);
    if Link(qs, |rs|) == Link(qs, |rs| + 1) { LinksDistinct(s, qs, |rs|, |rs| + 1); }
    assert all[..|rs| + 1] == qs;
    forall j: nat | j < |rs| + 1 ensures LinkedAt(s, all, j) {
      PrefixLinked(s, all, |rs| + 1, j);
      assert LinkedAt(s, qs, j);
    }
    assert Link(all, |rs| + 1) == r1.sig == Link(qs, |rs| + 1);
    VerifyFromReason(s, all, 0, |rs| + 1);
  }

  /** A proper beginning of a record's line is not a record. */
  lemma TornLineFails(s: Scheme, r: AuditRecord, p: string)
    requires p < s.Line(r) && p != ""
    ensures Unbroken(s.port, p) && !Blank(p) && ReadLine(s.port, p).None?
  {
    LineUnbroken(s, r);
    CutFails(LineStyle(s.port), RecordJson(r), p);
    assert p[0] == s.Line(r)[0] && !IsBlankChar('{');
    forall i | 0 <= i < |p| ensures !IsBreak(s.port, p[i]) { assert p[i] == s.Line(r)[i]; }
  }

  /**
   MAIN: a last line cut anywhere makes the whole file unreadable, so that opening and verifying fail, unless
   nothing of it was left or only its newline was lost.
   */
  lemma TornFileReads(s: Scheme, text: string, r: AuditRecord, p: string)
    requires Terminated(s.port, text) && ReadText(s.port, text).Some? && p <= s.Line(r)
    ensures ReadText(s.port, text + p) ==
            if p == "" then ReadText(s.port, text)
            else if p == s.Line(r) then Some(ReadText(s.port, text).value + [AsRead(s.port, r)])
            else None
  {
    if p == "" {
      assert text + p == text;
    } else if p == s.Line(r) {
      AppendReads(s, text, r);
    } else {
      TornLineFails(s, r, p);
      LastLineReads(s.port, text, p, "");
      assert p + "" == p;
    }
  }

  /**
   If only the newline of the last line was lost, the file still reads, but the next append glues its
   record onto that line and the file can no longer be read.
   */
  lemma LostNewlineThenAppend(s: Scheme, text: string, r: AuditRecord, next: AuditRecord)
    requires Terminated(s.port, text) && ReadText(s.port, text).Some?
    ensures ReadText(s.port, text + s.Line(r)) == Some(ReadText(s.port, text).value + [AsRead(s.port, r)])
    ensures ReadText(s.port, (text + s.Line(r)) + (s.Line(next) + "\n")).None?
  {
    AppendReads(s, text, r);
    GluedLineFails(s, r, next);
    var glued := s.Line(r) + s.Line(next);
    LastLineReads(s.port, text, glued, "\n");
    Associative(text, s.Line(r), s.Line(next) + "\n");
    Associative(s.Line(r), s.Line(next), "\n");
  }

  lemma GluedLineFails(s: Scheme, r: AuditRecord, next: AuditRecord)
    ensures var glued := s.Line(r) + s.Line(next);
            Unbroken(s.port, glued) && !Blank(glued) && ReadLine(s.port, glued).None?
  {
    LineUnbroken(s, r);
    LineUnbroken(s, next);
    var glued := s.Line(r) + s.Line(next);
    assert glued[0] == s.Line(r)[0] && !IsBlankChar(glued[0]);
    EncodeParses(LineStyle(s.port), RecordJson(r), s.Line(next));
    SkipNoSpace(s.Line(next));
  }
}
