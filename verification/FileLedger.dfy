/** The append-only file of done keys: what a reload finds after clean runs, torn writes and writes after a tear. */
module FileLedgers {
  import opened Text
  import opened Json
  import opened CrossPort
  import opened LedgerEntry
  import Utf8

  type Bytes = Utf8.Bytes

  const NEWLINE: Bytes := [10]

  // --------------------------------------------------------------- loading

  /** Split after every newline byte, `pending` being the part of the current line already read. */
  function SplitFrom(pending: Bytes, b: Bytes): seq<Bytes>
    decreases |b|
  {
    if b == [] then if pending == [] then [] else [pending]
    else if b[0] == 10 then [pending] + SplitFrom([], b[1..])
    else SplitFrom(pending + [b[0]], b[1..])
  }

  function Split(b: Bytes): seq<Bytes> { SplitFrom([], b) }

  /** The keys of one line: an error if it is not UTF-8, nothing if it is blank or not an entry. */
  function LineKeys(line: Bytes): Option<set<string>>
  {
    match Utf8.Decode(line)
    case None => None
    case Some(text) =>
      var trimmed := Trim(text);
      if trimmed == "" then Some({})
      else
        match EntryOf(trimmed)
        case Some(key) => Some({key})
        case None => Some({})
  }

  function KeysIn(lines: seq<Bytes>): Option<set<string>>
  {
    if lines == [] then Some({})
    else
      match (KeysIn(lines[..|lines| - 1]), LineKeys(lines[|lines| - 1]))
      case (Some(before), Some(last)) => Some(before + last)
      case _ => None
  }

  /** What `load_keys` returns for a file; `None` is an error. */
  function Load(file: Bytes): Option<set<string>> { KeysIn(Split(file)) }

  lemma {:induction false} BadLine(lines: seq<Bytes>, n: nat)
    requires n <= |lines| && KeysIn(lines[..n]).None?
    ensures KeysIn(lines).None?
    decreases |lines|
  {
    if n < |lines| {
      assert lines[..|lines| - 1][..n] == lines[..n];
      BadLine(lines[..|lines| - 1], n);
    } else {
      assert lines[..n] == lines;
    }
  }

  /** The loading loop: it inserts into one set and stops at the first line that is not text. */
  method LoadKeys(file: Bytes) returns (result: Option<set<string>>)
    ensures result == Load(file)
  {
    var lines := Split(file);
    var keys: set<string> := {};
    var i := 0;
    while i < |lines|
      invariant 0 <= i <= |lines|
      invariant KeysIn(lines[..i]) == Some(keys)
    {
      assert lines[..i + 1][..i] == lines[..i] && lines[..i + 1][i] == lines[i];
      assert keys + {} == keys;
      var text := Utf8.Decode(lines[i]);
      if text.None? {
        BadLine(lines, i + 1);
        return None;
      }
      var trimmed := Trim(text.value);
      if trimmed != "" {
        var entry := EntryOf(trimmed);
        if entry.Some? { keys := keys + {entry.value}; }
      }
      i := i + 1;
    }
    assert lines[..i] == lines;
    result := Some(keys);
  }

  // ----------------------------------------------------------- written lines

  /** The bytes of a key's entry, without the newline. */
  function EntryBytes(key: string): Bytes { Utf8.Encode(EntryText(key)) }

  function Line(key: string): Bytes { EntryBytes(key) + NEWLINE }

  /** The file after the keys of a list were appended one after the other. */
  function Written(keys: seq<string>): Bytes
  {
    if keys == [] then [] else Written(keys[..|keys| - 1]) + Line(keys[|keys| - 1])
  }

  function KeySet(keys: seq<string>): set<string> { set k | k in keys }

  ghost predicate Unbroken(b: Bytes) { forall i :: 0 <= i < |b| ==> b[i] != 10 }

  predicate Terminated(b: Bytes) { b == [] || b[|b| - 1] == 10 }

  lemma EntryUnbroken(key: string)
    ensures Unbroken(EntryBytes(key)) && EntryBytes(key) != []
  {
    EncodeWithin(COMPACT, Obj([Member("key", Str(key))]));
    Utf8.NoNewlineByte(EntryText(key));
    EntryParts(key);
  }

  /** What follows a terminated file is split on its own. */
  lemma {:induction false} SplitConcat(pending: Bytes, s: Bytes, t: Bytes)
    requires s != [] && Terminated(s)
    ensures SplitFrom(pending, s + t) == SplitFrom(pending, s) + Split(t)
    decreases |s|
  {
    assert (s + t)[1..] == s[1..] + t;
    if |s| == 1 {
      assert s[1..] == [] && [] + t == t;
      assert SplitFrom(pending, s) == [pending];
    } else if s[0] == 10 {
      SplitConcat([], s[1..], t);
      assert [pending] + (SplitFrom([], s[1..]) + Split(t)) == ([pending] + SplitFrom([], s[1..])) + Split(t);
    } else {
      SplitConcat(pending + [s[0]], s[1..], t);
    }
  }

  lemma {:induction false} SingleLine(pending: Bytes, line: Bytes, end: Bytes)
    requires Unbroken(line) && pending + line != [] && (end == [] || end == NEWLINE)
    ensures SplitFrom(pending, line + end) == [pending + line]
    decreases |line|
  {
    if line == [] {
      assert line + end == end && pending + line == pending;
      assert end != [] ==> SplitFrom([], end[1..]) == [];
    } else {
      assert (line + end)[1..] == line[1..] + end;
      assert pending + [line[0]] + line[1..] == pending + line;
      SingleLine(pending + [line[0]], line[1..], end);
    }
  }

  /** One more line, with or without its newline, after a terminated file. */
  lemma SplitAppend(file: Bytes, line: Bytes, end: Bytes)
    requires Terminated(file) && Unbroken(line) && line != [] && (end == [] || end == NEWLINE)
    ensures Split(file + (line + end)) == Split(file) + [line]
  {
    SingleLine([], line, end);
    assert [] + line == line;
    if file == [] {
      assert file + (line + end) == line + end;
    } else {
      SplitConcat([], file, line + end);
    }
  }

  /** How a last line decides the load. */
  function With(before: Option<set<string>>, line: Bytes): Option<set<string>>
  {
    match (before, LineKeys(line))
    case (Some(keys), Some(last)) => Some(keys + last)
    case _ => None
  }

  lemma LoadAppend(file: Bytes, line: Bytes, end: Bytes)
    requires Terminated(file) && Unbroken(line) && line != [] && (end == [] || end == NEWLINE)
    ensures Load(file + (line + end)) == With(Load(file), line)
  {
    SplitAppend(file, line, end);
    var lines := Split(file) + [line];
    assert lines[..|lines| - 1] == Split(file);
  }

  lemma EntryLineReads(key: string)
    ensures LineKeys(EntryBytes(key)) == Some({key})
  {
    Utf8.DecodeEncode(EntryText(key));
    EntryParts(key);
    TrimBraces(EntryText(key));
    EntryReads(key);
  }

  /** A recorded key's line added to a terminated file adds the key to what is loaded. */
  lemma RecordLoads(file: Bytes, key: string)
    requires Terminated(file) && Load(file).Some?
    ensures Load(file + Line(key)) == Some(Load(file).value + {key})
    ensures Terminated(file + Line(key))
  {
    EntryUnbroken(key);
    EntryLineReads(key);
    LoadAppend(file, EntryBytes(key), NEWLINE);
  }

  lemma LastKey(keys: seq<string>)
    requires keys != []
    ensures KeySet(keys) == KeySet(keys[..|keys| - 1]) + {keys[|keys| - 1]}
  {
    assert keys == keys[..|keys| - 1] + [keys[|keys| - 1]];
  }

  lemma {:induction false} WrittenLoads(keys: seq<string>)
    ensures Load(Written(keys)) == Some(KeySet(keys))
    ensures Terminated(Written(keys)) && |Split(Written(keys))| == |keys|
  {
    if keys != [] {
      var before, key := keys[..|keys| - 1], keys[|keys| - 1];
      WrittenLoads(before);
      RecordLoads(Written(before), key);
      EntryUnbroken(key);
      SplitAppend(Written(before), EntryBytes(key), NEWLINE);
      LastKey(keys);
    } else {
      assert KeySet(keys) == {};
    }
  }

  // ----------------------------------------------------------- the ledger object

  class FileLedger {
    var file: Bytes
    var seen: set<string>

    ghost predicate Valid()
      reads this
    {
      Terminated(file) && Load(file) == Some(seen)
    }

    constructor (file: Bytes, seen: set<string>)
      ensures this.file == file && this.seen == seen
    {
      this.file, this.seen := file, seen;
    }

    static method Open(file: Bytes) returns (ledger: Option<FileLedger>)
      ensures ledger.Some? <==> Load(file).Some?
      ensures ledger.Some? ==>
                fresh(ledger.value) && ledger.value.file == file && ledger.value.seen == Load(file).value
    {
      var keys := LoadKeys(file);
      if keys.None? { return None; }
      var l := new FileLedger(file, keys.value);
      ledger := Some(l);
    }

    method Contains(key: string) returns (found: bool)
      ensures found <==> key in seen
      ensures Valid() ==> (found <==> key in Load(file).value)
    {
      found := key in seen;
    }

    /** Recording a key that is already there leaves the file alone. */
    method Record(key: string)
      modifies this
      ensures seen == old(seen) + {key}
      ensures file == if key in old(seen) then old(file) else old(file) + Line(key)
      ensures old(Valid()) ==> Valid()
    {
      if key in seen {
        assert seen == seen + {key};
        return;
      }
      if Terminated(file) && Load(file).Some? { RecordLoads(file, key); }
      file := file + Line(key);
      seen := seen + {key};
    }
  }

  // -------------------------------------------------------------------- runs

  datatype Op = Record(key: string) | Reopen

  datatype State = State(file: Bytes, seen: set<string>)

  function Step(st: State, op: Op): Option<State>
  {
    match op
    case Record(key) => Some(if key in st.seen then st else State(st.file + Line(key), st.seen + {key}))
    case Reopen => match Load(st.file) case Some(keys) => Some(State(st.file, keys)) case None => None
  }

  function Run(st: State, ops: seq<Op>): Option<State>
  {
    if ops == [] then Some(st)
    else
      match Run(st, ops[..|ops| - 1])
      case Some(mid) => Step(mid, ops[|ops| - 1])
      case None => None
  }

  /** The keys noted after one more operation. */
  function Noted(before: seq<string>, op: Op): seq<string>
  {
    if op.Record? && op.key !in before then before + [op.key] else before
  }

  /** The recorded keys in the order in which each was first recorded. */
  function FirstRecords(ops: seq<Op>): seq<string>
  {
    if ops == [] then [] else Noted(FirstRecords(ops[..|ops| - 1]), ops[|ops| - 1])
  }

  ghost predicate NoRepeats(keys: seq<string>)
  {
    forall i, j :: 0 <= i < j < |keys| ==> keys[i] != keys[j]
  }

  lemma {:induction false} FirstRecordsDistinct(ops: seq<Op>)
    ensures NoRepeats(FirstRecords(ops))
    ensures forall k :: k in FirstRecords(ops) <==> Op.Record(k) in ops
  {
    if ops != [] {
      var init, last := ops[..|ops| - 1], ops[|ops| - 1];
      FirstRecordsDistinct(init);
      assert ops == init + [last];
    }
  }

  lemma WrittenAppend(keys: seq<string>, key: string)
    ensures Written(keys + [key]) == Written(keys) + Line(key)
    ensures KeySet(keys + [key]) == KeySet(keys) + {key}
  {
    assert (keys + [key])[..|keys|] == keys;
    LastKey(keys + [key]);
  }

  lemma StepWrites(before: seq<string>, op: Op)
    ensures var keys := Noted(before, op);
            Step(State(Written(before), KeySet(before)), op) == Some(State(Written(keys), KeySet(keys)))
  {
    match op
    case Record(key) => WrittenAppend(before, key);
    case Reopen => WrittenLoads(before);
  }

  lemma {:induction false} RunWrites(ops: seq<Op>)
    ensures var keys := FirstRecords(ops); Run(State([], {}), ops) == Some(State(Written(keys), KeySet(keys)))
  {
    if ops == [] {
      assert KeySet([]) == {};
    } else {
      var init, last := ops[..|ops| - 1], ops[|ops| - 1];
      RunWrites(init);
      StepWrites(FirstRecords(init), last);
    }
  }

  /**
   MAIN: after any run of records and reopens from an absent file, the file is one line per recorded key in
   order of first recording, a load of it succeeds, and finds exactly the keys the live object holds.
   */
  lemma EveryRunLoads(ops: seq<Op>)
    ensures var keys := FirstRecords(ops);
            NoRepeats(keys) && (forall k :: k in keys <==> Op.Record(k) in ops) &&
            Run(State([], {}), ops) == Some(State(Written(keys), KeySet(keys))) &&
            Load(Written(keys)) == Some(KeySet(keys)) && |Split(Written(keys))| == |keys|
  {
    FirstRecordsDistinct(ops);
    RunWrites(ops);
    WrittenLoads(FirstRecords(ops));
  }

  // ------------------------------------------------------------------- torn writes

  /** The file when only the first `n` bytes of the last key's line reached the disk. */
  function Torn(keys: seq<string>, key: string, n: nat): Bytes
    requires n <= |EntryBytes(key)|
  {
    Written(keys) + EntryBytes(key)[..n]
  }

  /** `n` bytes are a whole number of characters. */
  ghost predicate CharBoundary(s: string, n: nat)
  {
    exists j :: 0 <= j <= |s| && n == |Utf8.Encode(s[..j])|
  }

  lemma TornLoads(keys: seq<string>, key: string, n: nat)
    requires 0 < n <= |EntryBytes(key)|
    ensures Load(Torn(keys, key, n)) == With(Some(KeySet(keys)), EntryBytes(key)[..n])
  {
    WrittenLoads(keys);
    EntryUnbroken(key);
    var line := EntryBytes(key)[..n];
    LoadAppend(Written(keys), line, []);
    assert line + [] == line;
  }

  /** A proper beginning of an entry's text holds no key. */
  lemma CutLineKeys(key: string, j: nat)
    requires j < |EntryText(key)|
    ensures LineKeys(Utf8.Encode(EntryText(key)[..j])) == Some({})
  {
    var p := EntryText(key)[..j];
    Utf8.DecodeEncode(p);
    if p != "" {
      EntryParts(key);
      TrimKeepsStart(p);
      assert Trim(p) < EntryText(key);
      CutEntryUnreadable(key, Trim(p));
    }
  }

  lemma CutInsideFails(key: string, n: nat)
    requires n <= |EntryBytes(key)|
    ensures CharBoundary(EntryText(key), n) || LineKeys(EntryBytes(key)[..n]).None?
  {
    var s := EntryText(key);
    var j, m := Utf8.CutPosition(s, n);
    if m == 0 {
      assert n == |Utf8.Encode(s[..j])|;
    } else {
      Utf8.CutTextFails(s[..j], s[j], m);
    }
  }

  /**
   MAIN: the last line cut after any number of bytes. If only its newline was lost the reload finds every
   key; if whole characters are left it finds every key but the last; if a character is cut, it fails.
   */
  lemma TornReload(keys: seq<string>, key: string, n: nat)
    requires n <= |EntryBytes(key)|
    ensures Load(Torn(keys, key, n)) ==
            if n == |EntryBytes(key)| then Some(KeySet(keys) + {key})
            else if CharBoundary(EntryText(key), n) then Some(KeySet(keys))
            else None
  {
    var s := EntryText(key);
    if n == 0 {
      WrittenLoads(keys);
      EntryUnbroken(key);
      assert n == |Utf8.Encode(s[..0])|;
      assert Torn(keys, key, n) == Written(keys);
    } else {
      TornLoads(keys, key, n);
      if n == |EntryBytes(key)| {
        assert EntryBytes(key)[..n] == EntryBytes(key);
        EntryLineReads(key);
      } else if CharBoundary(s, n) {
        var j :| 0 <= j <= |s| && n == |Utf8.Encode(s[..j])|;
        Utf8.CutWhole(s, j);
        CutLineKeys(key, j);
        assert KeySet(keys) + {} == KeySet(keys);
      } else {
        CutInsideFails(key, n);
      }
    }
  }

  ghost predicate Ascii(s: string) { Within(s, 0, 0x7F) }

  lemma AsciiEscapeChar(c: char)
    ensures Ascii(EscapeChar(COMPACT, c)) <==> Ascii([c])
  {
    if c as int < 0x20 { EscapeCharWithin(COMPACT_ASCII, c); }
  }

  lemma {:induction false} AsciiEscape(t: string)
    ensures Ascii(Escape(COMPACT, t)) <==> Ascii(t)
  {
    if t != "" {
      AsciiEscape(t[1..]);
      assert t == [t[0]] + t[1..];
      WithinConcat([t[0]], t[1..], 0, 0x7F);
      WithinConcat(EscapeChar(COMPACT, t[0]), Escape(COMPACT, t[1..]), 0, 0x7F);
      AsciiEscapeChar(t[0]);
    }
  }

  lemma AsciiEntry(key: string)
    ensures Ascii(EntryText(key)) <==> Ascii(key)
  {
    EntryParts(key);
    AsciiEscape(key);
    AsciiEscape("key");
    WithinConcat(Escape(COMPACT, key), "\"}", 0, 0x7F);
    WithinMember(":", "\"", ValueBody(key), "", 0, 0x7F);
    WithinMember("\"", Escape(COMPACT, "key"), "\"", FromColon(key), 0, 0x7F);
    WithinConcat("{", FromKey(key), 0, 0x7F);
    assert ValueBody(key) + "" == ValueBody(key);
  }

  lemma AsciiBoundary(s: string, n: nat)
    requires Ascii(s) && n <= |Utf8.Encode(s)|
    ensures CharBoundary(s, n)
  {
    Utf8.AsciiLength(s);
    Utf8.AsciiLength(s[..n]);
  }

  /**
   MAIN: a partially written last line is ignored wherever the write stopped exactly when its key is ASCII;
   with any other key some cut makes the whole reload fail.
   */
  lemma TornReloadNeverFails(keys: seq<string>, key: string)
    ensures (forall n: nat | n <= |EntryBytes(key)| :: Load(Torn(keys, key, n)).Some?) <==> Ascii(key)
  {
    var s := EntryText(key);
    AsciiEntry(key);
    if Ascii(key) {
      forall n: nat | n <= |EntryBytes(key)| ensures Load(Torn(keys, key, n)).Some? {
        AsciiBoundary(s, n);
        TornReload(keys, key, n);
      }
    } else {
      var i :| 0 <= i < |s| && s[i] as int >= 0x80;
      var n := |Utf8.Encode(s[..i])| + 1;
      Utf8.CutInside(s, i);
      Utf8.CutTextFails(s[..i], s[i], 1);
      TornLoads(keys, key, n);
      assert Load(Torn(keys, key, n)).None?;
    }
  }

  // ------------------------------------------------------------ writes after a tear

  lemma GluedLineKeys(key: string, p: string, next: string)
    requires p != "" && p <= EntryText(key)
    ensures LineKeys(Utf8.Encode(p) + EntryBytes(next)) == Some({})
  {
    var glued := p + EntryText(next);
    EntryParts(key);
    EntryParts(next);
    Utf8.EncodeConcat(p, EntryText(next));
    Utf8.DecodeEncode(glued);
    TrimBraces(glued);
    GluedEntryUnreadable(key, p, next);
  }

  /** The torn file, when whole characters are left. */
  lemma TornByChars(keys: seq<string>, key: string, p: string)
    requires p <= EntryText(key)
    ensures Load(Written(keys) + Utf8.Encode(p)) ==
            Some(if p == EntryText(key) then KeySet(keys) + {key} else KeySet(keys))
  {
    var n := |Utf8.Encode(p)|;
    assert p == EntryText(key)[..|p|];
    Utf8.CutWhole(EntryText(key), |p|);
    TornReload(keys, key, n);
  }

  lemma RegroupLine(file: Bytes, cut: Bytes, entry: Bytes)
    ensures (file + cut) + (entry + NEWLINE) == file + ((cut + entry) + NEWLINE)
  {
  }

  lemma GluedLoads(keys: seq<string>, key: string, p: string, next: string)
    requires p != "" && p <= EntryText(key)
    ensures Load((Written(keys) + Utf8.Encode(p)) + Line(next)) == Some(KeySet(keys))
  {
    var line := Utf8.Encode(p) + EntryBytes(next);
    GluedLineKeys(key, p, next);
    GluedUnbroken(key, p, next);
    WrittenLoads(keys);
    LoadAppend(Written(keys), line, NEWLINE);
    RegroupLine(Written(keys), Utf8.Encode(p), EntryBytes(next));
    assert KeySet(keys) + {} == KeySet(keys);
  }

  lemma GluedUnbroken(key: string, p: string, next: string)
    requires p <= EntryText(key)
    ensures Unbroken(Utf8.Encode(p) + EntryBytes(next)) && Utf8.Encode(p) + EntryBytes(next) != []
  {
    EntryUnbroken(key);
    EntryUnbroken(next);
    assert p == EntryText(key)[..|p|];
    Utf8.CutWhole(EntryText(key), |p|);
    forall i | 0 <= i < |Utf8.Encode(p)| ensures Utf8.Encode(p)[i] != 10 {
      assert Utf8.Encode(p)[i] == EntryBytes(key)[i];
    }
  }

  /**
   MAIN: after a tear that left the characters `p` of the last key's line, a ledger is reopened and records
   any key, the torn one again or another, which it then reports as recorded. The next reload finds that key
   if and only if the file had it already or nothing of the torn line was left; otherwise it is lost with
   the line it was glued to, and with that line's key if only the newline had been missing.
   */
  lemma RecordAfterTear(keys: seq<string>, key: string, p: string, next: string)
    requires p <= EntryText(key)
    ensures var torn := Written(keys) + Utf8.Encode(p);
            Load(torn).Some? &&
            var known := Load(torn).value;
            var after := Step(State(torn, known), Record(next)).value;
            next in after.seen && Load(after.file).Some? &&
            Load(after.file).value == (if next in known then known
                                       else if p == "" then KeySet(keys) + {next} else KeySet(keys)) &&
            (next in Load(after.file).value <==> next in known || p == "")
  {
    TornByChars(keys, key, p);
    if p == "" {
      WrittenLoads(keys);
      assert Written(keys) + Utf8.Encode(p) == Written(keys);
      RecordLoads(Written(keys), next);
    } else {
      GluedLoads(keys, key, p, next);
    }
  }

  /** An operation whose own line was torn is done again, but recording it again does not help. */
  lemma RetryAfterTear(keys: seq<string>, key: string, p: string)
    requires p < EntryText(key) && p != "" && key !in keys
    ensures var torn := Written(keys) + Utf8.Encode(p);
            Load(torn) == Some(KeySet(keys)) && key !in KeySet(keys) &&
            Load(Step(State(torn, KeySet(keys)), Record(key)).value.file) == Some(KeySet(keys))
  {
    TornByChars(keys, key, p);
    RecordAfterTear(keys, key, p, key);
  }
}
