/**
 The file-backed idempotency store over an atomically replaced JSON file, with a process crash possible
 after every disk step.
 */
module IdempotencyStore {
  import opened Text
  import opened Json
  import opened JsonRoundTrip
  import opened Canonical

  // -------------------------------------------------------------- atomic writes

  type Files = map<string, string>

  /**
   How an atomic write goes: it completes, the process dies after a disk step (1 created the temp file,
   2 wrote part of it, 3 wrote all of it, 4 replaced the destination), or an error or an interrupt is raised
   there instead.
   */
  datatype Fate = Completes | CrashesAfter(step: nat, written: nat) | RaisesAfter(step: nat, written: nat)

  datatype WriteEnd = Written | Crashed | Raised

  /** Whether the write gets as far as replacing the destination. */
  predicate Replaces(fate: Fate) { fate.Completes? || fate.step >= 4 }

  /** What an atomic write leaves on disk. */
  function AfterWrite(files: Files, dest: string, tmp: string, payload: string, fate: Fate): Files
  {
    match fate
    case Completes => files[dest := payload]
    case RaisesAfter(step, _) => if step >= 4 then files[dest := payload] else files
    case CrashesAfter(step, written) =>
      if step == 0 then files
      else if step == 1 then files[tmp := ""]
      else if step == 2 then files[tmp := payload[..if written < |payload| then written else |payload|]]
      else if step == 3 then files[tmp := payload]
      else files[dest := payload]
  }

  function WriteEndOf(fate: Fate): WriteEnd
  {
    match fate
    case Completes => Written
    case CrashesAfter(_, _) => Crashed
    case RaisesAfter(_, _) => Raised
  }

  class Disk {
    var files: Files

    constructor (files: Files)
      ensures this.files == files
    {
      this.files := files;
    }

    /** Temp file in the same directory, full write, replace; on an error the temp file is removed. */
    method AtomicWrite(dest: string, tmp: string, payload: string, fate: Fate) returns (end: WriteEnd)
      requires tmp !in files && tmp != dest
      modifies this
      ensures files == AfterWrite(old(files), dest, tmp, payload, fate)
      ensures end == WriteEndOf(fate)
    {
      if fate.RaisesAfter? && fate.step == 0 { return Raised; }
      if fate.CrashesAfter? && fate.step == 0 { return Crashed; }
      files := files[tmp := ""];
      if fate.CrashesAfter? && fate.step == 1 { return Crashed; }
      if (fate.CrashesAfter? || fate.RaisesAfter?) && fate.step == 2 {
        files := files[tmp := payload[..if fate.written < |payload| then fate.written else |payload|]];
        if fate.CrashesAfter? { return Crashed; }
      } else {
        files := files[tmp := payload];
        if fate.CrashesAfter? && fate.step == 3 { return Crashed; }
      }
      if fate.RaisesAfter? && fate.step < 4 {
        files := files - {tmp};
        assert files == old(files);
        return Raised;
      }
      files := (files - {tmp})[dest := payload];
      assert files == old(files)[dest := payload];
      end := WriteEndOf(fate);
    }
  }

  /** MAIN: the destination holds its old content or all of the new one, and no other file but the temp changes. */
  lemma WriteIsAtomic(files: Files, dest: string, tmp: string, payload: string, fate: Fate)
    requires tmp !in files && tmp != dest
    ensures var after := AfterWrite(files, dest, tmp, payload, fate);
            (if Replaces(fate) then dest in after && after[dest] == payload
             else (dest in after <==> dest in files) && (dest in files ==> after[dest] == files[dest])) &&
            (!fate.CrashesAfter? || fate.step == 0 || fate.step >= 4 ==> tmp !in after) &&
            (forall p :: p != dest && p != tmp ==>
               (p in after <==> p in files) && (p in files ==> after[p] == files[p]))
  {
  }

  // ------------------------------------------------------------------- the store

  datatype Loaded = Absent | Dict(data: seq<Member>) | NotDict | Corrupt

  /** A parsed object keeps the last value of a repeated key. */
  function LastWins(ms: seq<Member>): seq<Member>
  {
    if ms == [] then []
    else if HasKey(ms[1..], ms[0].key) then LastWins(ms[1..])
    else [ms[0]] + LastWins(ms[1..])
  }

  predicate BlankText(s: string) { SkipSpace(s) == "" }

  function Load(files: Files, path: string): Loaded
  {
    if path !in files then Absent
    else if BlankText(files[path]) then Dict([])
    else
      match Parse(files[path])
      case Some(Obj(ms)) => Dict(LastWins(ms))
      case Some(_) => NotDict
      case None => Corrupt
  }

  /** The dictionary a newly constructed store starts with; anything unreadable starts it empty. */
  function StartContents(l: Loaded): Contents { Contents(if l.Dict? then l.data else [], map[]) }

  /** The text flushed to disk. */
  function DataText(data: seq<Member>): string { CanonicalText(Python, Obj(data)) }

  function Lookup(data: seq<Member>, key: string): Option<Json>
  {
    if data == [] then None else if data[0].key == key then Some(data[0].value) else Lookup(data[1..], key)
  }

  datatype MarkEnd = Recorded | AlreadyThere | Died | Failed

  /** What a caller records: a JSON value, or some other object, which the encoder cannot write. */
  datatype Outcome = Value(v: Json) | Object(id: nat)

  /** The dictionary in memory: the entries that can be written, in insertion order, and the others. */
  datatype Contents = Contents(data: seq<Member>, objects: map<string, nat>) {
    predicate Known(key: string) { HasKey(data, key) || key in objects }

    function Put(key: string, result: Outcome): Contents
    {
      match result
      case Value(v) => this.(data := data + [Member(key, v)])
      case Object(id) => this.(objects := objects[key := id])
    }

    /** The encoder fails before the disk is touched if there is anything it cannot write. */
    predicate Writable() { objects == map[] }
  }

  /** What flushing the dictionary leaves on disk. */
  function AfterFlush(files: Files, path: string, tmp: string, c: Contents, fate: Fate): Files
  {
    if c.Writable() then AfterWrite(files, path, tmp, DataText(c.data), fate) else files
  }

  /** Whether the flush gets as far as replacing the file. */
  predicate Flushes(c: Contents, fate: Fate) { c.Writable() && Replaces(fate) }

  function FlushEnd(c: Contents, fate: Fate): WriteEnd
  {
    if c.Writable() || fate.CrashesAfter? then WriteEndOf(fate) else Raised
  }

  class FileIdempotencyStore {
    const path: string
    const disk: Disk
    var contents: Contents

    constructor (path: string, disk: Disk)
      ensures this.path == path && this.disk == disk && contents == StartContents(Load(disk.files, path))
    {
      this.path, this.disk := path, disk;
      contents := StartContents(Load(disk.files, path));
    }

    method AlreadyDone(key: string) returns (done: bool)
      ensures done == contents.Known(key)
    {
      done := contents.Known(key);
    }

    /** An absent key and a stored null give the same answer. */
    method GetResult(key: string) returns (result: Outcome)
      ensures !contents.Known(key) ==> result == Value(Null)
      ensures forall r :: DistinctKeys(contents.data) && Holds(contents.data, key, r) ==>
                result.Value? && SortKeys(Python, result.v) == SortKeys(Python, r)
      ensures key in contents.objects && !HasKey(contents.data, key) ==> result == Object(contents.objects[key])
    {
      var found := Lookup(contents.data, key);
      result := if found.Some? then Value(found.value)
                else if key in contents.objects then Object(contents.objects[key]) else Value(Null);
      LookupFinds(contents.data, key);
      forall r | DistinctKeys(contents.data) && Holds(contents.data, key, r)
        ensures found.Some? && SortKeys(Python, found.value) == SortKeys(Python, r)
      {
        HeldIsReturned(contents.data, key, r);
      }
    }

    /** `tmp` is the unique temp name the flush picks; a call that dies leaves no live store behind. */
    method MarkDone(key: string, result: Outcome, tmp: string, fate: Fate) returns (end: MarkEnd)
      requires tmp !in disk.files && tmp != path
      modifies this, disk
      ensures end == MarkEndOf(old(contents), key, result, fate)
      ensures contents == if old(contents).Known(key) then old(contents) else old(contents).Put(key, result)
      ensures disk.files == if old(contents).Known(key) then old(disk.files)
                            else AfterFlush(old(disk.files), path, tmp, old(contents).Put(key, result), fate)
    {
      if contents.Known(key) { return AlreadyThere; }
      contents := contents.Put(key, result);
      if !contents.Writable() { return if fate.CrashesAfter? then Died else Failed; }
      var e := disk.AtomicWrite(path, tmp, DataText(contents.data), fate);
      end := match e case Written => Recorded case Crashed => Died case Raised => Failed;
    }
  }

  function MarkEndOf(c: Contents, key: string, result: Outcome, fate: Fate): MarkEnd
  {
    if c.Known(key) then AlreadyThere
    else match FlushEnd(c.Put(key, result), fate) case Written => Recorded case Crashed => Died case Raised => Failed
  }

  // ------------------------------------------------------------------------ runs

  /** The disk and, while a process is alive, the store's dictionary. */
  datatype System = System(files: Files, live: Option<Contents>)

  datatype Event = MarkDone(key: string, result: Outcome, tmp: string, fate: Fate) | Restart

  function Step(path: string, s: System, e: Event): System
  {
    match e
    case Restart => System(s.files, Some(StartContents(Load(s.files, path))))
    case MarkDone(key, result, tmp, fate) =>
      if s.live.None? || s.live.value.Known(key) then s
      else
        var c := s.live.value.Put(key, result);
        System(AfterFlush(s.files, path, tmp, c, fate), if fate.CrashesAfter? then None else Some(c))
  }

  function Run(path: string, s: System, es: seq<Event>): System
  {
    if es == [] then s else Step(path, Run(path, s, es[..|es| - 1]), es[|es| - 1])
  }

  /** Event `i` is a `mark_done` of `key` that returned True. */
  ghost predicate ReturnedTrue(path: string, s: System, es: seq<Event>, i: nat, key: string, result: Json)
  {
    i < |es| && es[i].MarkDone? && es[i].key == key && es[i].result == Value(result) &&
    var before := Run(path, s, es[..i]);
    before.live.Some? && MarkEndOf(before.live.value, key, es[i].result, es[i].fate) == Recorded
  }

  /** Temp names are unique: none is the store's path or the name of a file that is already there. */
  ghost predicate TempsFresh(path: string, s: System, es: seq<Event>)
  {
    forall i :: 0 <= i < |es| && es[i].MarkDone? ==>
      es[i].tmp != path && es[i].tmp !in Run(path, s, es[..i]).files
  }

  /** The file is absent or holds the flushed text of some dictionary. */
  ghost predicate Flushed(files: Files, path: string)
  {
    path in files ==> exists d :: DistinctKeys(d) && files[path] == DataText(d)
  }

  /** `data` holds `key` with a value equal to `result` up to key order. */
  predicate Holds(data: seq<Member>, key: string, result: Json)
  {
    exists i :: 0 <= i < |data| && data[i].key == key && SortKeys(Python, data[i].value) == SortKeys(Python, result)
  }

  /** What stays true in every run from the moment `mark_done(key, result)` returned True. */
  ghost predicate Kept(path: string, s: System, key: string, result: Json)
  {
    path in s.files && (exists d :: DistinctKeys(d) && s.files[path] == DataText(d) && Holds(d, key, result)) &&
    (s.live.Some? ==> DistinctKeys(s.live.value.data) && Holds(s.live.value.data, key, result))
  }

  ghost predicate Healthy(path: string, s: System)
  {
    Flushed(s.files, path) && (s.live.Some? ==> DistinctKeys(s.live.value.data))
  }

  lemma {:induction false} LastWinsDistinct(ms: seq<Member>)
    requires DistinctKeys(ms)
    ensures LastWins(ms) == ms
  {
    if ms != [] {
      forall j | 0 <= j < |ms[1..]| ensures ms[1..][j].key != ms[0].key { assert ms[1..][j] == ms[j + 1]; }
      LastWinsDistinct(ms[1..]);
      assert ms == [ms[0]] + ms[1..];
    }
  }

  /** Reloading a flushed dictionary gives its sorted form. */
  lemma ReloadFlushed(files: Files, path: string, d: seq<Member>)
    requires path in files && files[path] == DataText(d) && DistinctKeys(d)
    ensures Load(files, path) == Dict(SortMembers(Python, SortValues(Python, d)))
    ensures DistinctKeys(SortMembers(Python, SortValues(Python, d)))
  {
    var v := SortKeys(Python, Obj(d));
    ParseEncode(COMPACT_ASCII, v);
    FirstChar(COMPACT_ASCII, v);
    SkipNoSpace(files[path]);
    SortValuesDistinct(Python, d);
    DistinctOfSort(Python, SortValues(Python, d));
    LastWinsDistinct(v.members);
  }

  lemma SortedHolds(d: seq<Member>, key: string, result: Json)
    requires Holds(d, key, result)
    ensures Holds(SortMembers(Python, SortValues(Python, d)), key, result)
  {
    var i :| 0 <= i < |d| && d[i].key == key && SortKeys(Python, d[i].value) == SortKeys(Python, result);
    var m := Member(key, SortKeys(Python, d[i].value));
    SortValuesElements(Python, d, m);
    SortElements(Python, SortValues(Python, d));
    var s := SortMembers(Python, SortValues(Python, d));
    assert m in s;
    var k :| 0 <= k < |s| && s[k] == m;
    SortKeysIdempotent(Python, d[i].value);
  }

  lemma PutKeepsDistinct(c: Contents, key: string, result: Outcome)
    requires DistinctKeys(c.data) && !c.Known(key)
    ensures DistinctKeys(c.Put(key, result).data)
  {
  }

  lemma HoldsAppend(data: seq<Member>, m: Member, key: string, result: Json)
    ensures Holds(data, key, result) ==> Holds(data + [m], key, result)
    ensures Holds(data + [m], m.key, m.value)
  {
    var all := data + [m];
    if Holds(data, key, result) {
      var i :| 0 <= i < |data| && data[i].key == key && SortKeys(Python, data[i].value) == SortKeys(Python, result);
      assert all[i] == data[i];
    }
    assert all[|data|] == m;
  }

  lemma StepHealthy(path: string, s: System, e: Event)
    requires Healthy(path, s)
    requires e.MarkDone? ==> e.tmp != path && e.tmp !in s.files
    ensures Healthy(path, Step(path, s, e))
  {
    match e
    case Restart =>
      if path in s.files {
        var d :| DistinctKeys(d) && s.files[path] == DataText(d);
        ReloadFlushed(s.files, path, d);
      }
    case MarkDone(key, result, tmp, fate) =>
      if s.live.Some? && !s.live.value.Known(key) {
        PutKeepsDistinct(s.live.value, key, result);
        WriteIsAtomic(s.files, path, tmp, DataText(s.live.value.Put(key, result).data), fate);
      }
  }

  lemma PrefixFresh(path: string, s: System, es: seq<Event>, n: nat)
    requires TempsFresh(path, s, es) && n <= |es|
    ensures TempsFresh(path, s, es[..n])
  {
    forall i | 0 <= i < n && es[..n][i].MarkDone?
      ensures es[..n][i].tmp != path && es[..n][i].tmp !in Run(path, s, es[..n][..i]).files
    {
      assert es[..n][..i] == es[..i] && es[..n][i] == es[i];
    }
  }

  lemma RunStep(path: string, s: System, es: seq<Event>, n: nat)
    requires n < |es|
    ensures Run(path, s, es[..n + 1]) == Step(path, Run(path, s, es[..n]), es[n])
  {
    assert es[..n + 1][..n] == es[..n];
  }

  /** MAIN: in every run with crashes and restarts, a load never meets a corrupt or foreign file. */
  lemma {:induction false} NeverCorrupt(path: string, s: System, es: seq<Event>)
    requires Healthy(path, s) && TempsFresh(path, s, es)
    ensures Healthy(path, Run(path, s, es))
    ensures var l := Load(Run(path, s, es).files, path); l.Absent? || l.Dict?
    decreases |es|
  {
    if es != [] {
      var n := |es| - 1;
      PrefixFresh(path, s, es, n);
      NeverCorrupt(path, s, es[..n]);
      StepHealthy(path, Run(path, s, es[..n]), es[n]);
    }
    var files := Run(path, s, es).files;
    if path in files {
      var d :| DistinctKeys(d) && files[path] == DataText(d);
      ReloadFlushed(files, path, d);
    }
  }

  lemma StepKeeps(path: string, s: System, e: Event, key: string, result: Json)
    requires Healthy(path, s) && Kept(path, s, key, result)
    requires e.MarkDone? ==> e.tmp != path && e.tmp !in s.files
    ensures Kept(path, Step(path, s, e), key, result)
  {
    var d :| DistinctKeys(d) && s.files[path] == DataText(d) && Holds(d, key, result);
    match e
    case Restart =>
      ReloadFlushed(s.files, path, d);
      SortedHolds(d, key, result);
    case MarkDone(k, r, tmp, fate) =>
      if s.live.Some? && !s.live.value.Known(k) {
        PutKeepsDistinct(s.live.value, k, r);
        if r.Value? { HoldsAppend(s.live.value.data, Member(k, r.v), key, result); }
        WriteIsAtomic(s.files, path, tmp, DataText(s.live.value.Put(k, r).data), fate);
      }
  }

  lemma RecordedKept(path: string, s: System, e: Event)
    requires Healthy(path, s) && e.MarkDone? && e.tmp != path && e.tmp !in s.files
    requires s.live.Some? && e.result.Value? && MarkEndOf(s.live.value, e.key, e.result, e.fate) == Recorded
    ensures Kept(path, Step(path, s, e), e.key, e.result.v)
  {
    PutKeepsDistinct(s.live.value, e.key, e.result);
    HoldsAppend(s.live.value.data, Member(e.key, e.result.v), e.key, e.result.v);
  }

  lemma {:induction false} KeptToTheEnd(path: string, s: System, es: seq<Event>, i: nat, j: nat, key: string, result: Json)
    requires Healthy(path, s) && TempsFresh(path, s, es) && ReturnedTrue(path, s, es, i, key, result)
    requires i < j <= |es|
    ensures Kept(path, Run(path, s, es[..j]), key, result)
    decreases j
  {
    hide Step, Kept, Healthy, MarkEndOf;
    var n := j - 1;
    RunStep(path, s, es, n);
    PrefixFresh(path, s, es, n);
    NeverCorrupt(path, s, es[..n]);
    if n == i {
      RecordedKept(path, Run(path, s, es[..n]), es[n]);
    } else {
      KeptToTheEnd(path, s, es, i, n, key, result);
      StepKeeps(path, Run(path, s, es[..n]), es[n], key, result);
    }
  }

  /**
   MAIN: in every run of `mark_done` calls, failed flushes, crashes after any disk step and restarts, a key
   whose `mark_done` returned True stays done with that first result: every live store holds it, every later
   `mark_done` of it is refused, and a restart at any moment reads it back from the file.
   */
  lemma DoneStaysDone(path: string, s: System, es: seq<Event>, i: nat, j: nat, key: string, result: Json)
    requires Healthy(path, s) && TempsFresh(path, s, es) && ReturnedTrue(path, s, es, i, key, result)
    requires i < j <= |es|
    ensures var now := Run(path, s, es[..j]);
            (now.live.Some? ==> Holds(now.live.value.data, key, result) && now.live.value.Known(key)) &&
            (forall other :: !ReturnedTrue(path, s, es, j, key, other)) &&
            Load(now.files, path).Dict? && Holds(Load(now.files, path).data, key, result)
  {
    KeptToTheEnd(path, s, es, i, j, key, result);
    var now := Run(path, s, es[..j]);
    var d :| DistinctKeys(d) && now.files[path] == DataText(d) && Holds(d, key, result);
    ReloadFlushed(now.files, path, d);
    SortedHolds(d, key, result);
  }

  lemma {:induction false} LookupFinds(data: seq<Member>, key: string)
    ensures Lookup(data, key).Some? <==> HasKey(data, key)
  {
    if data != [] {
      LookupFinds(data[1..], key);
      assert data == [data[0]] + data[1..];
    }
  }

  /** In a dictionary with distinct keys, what is held is what is looked up. */
  lemma {:induction false} HeldIsReturned(data: seq<Member>, key: string, result: Json)
    requires DistinctKeys(data) && Holds(data, key, result)
    ensures Lookup(data, key).Some? && SortKeys(Python, Lookup(data, key).value) == SortKeys(Python, result)
  {
    var i :| 0 <= i < |data| && data[i].key == key && SortKeys(Python, data[i].value) == SortKeys(Python, result);
    if i > 0 {
      assert data[1..][i - 1] == data[i];
      HeldIsReturned(data[1..], key, result);
    }
  }

  /** What was put is what a lookup finds, and no other key is affected. */
  lemma PutFinds(c: Contents, key: string, result: Outcome, other: string)
    requires !c.Known(key) && other != key
    ensures var d := c.Put(key, result);
            (result.Value? ==> Lookup(d.data, key) == Some(result.v) && key !in d.objects) &&
            (result.Object? ==> Lookup(d.data, key) == None && key in d.objects && d.objects[key] == result.id) &&
            Lookup(d.data, other) == Lookup(c.data, other) &&
            (other in d.objects <==> other in c.objects) && (other in c.objects ==> d.objects[other] == c.objects[other])
  {
    LookupFinds(c.data, key);
    if result.Value? {
      LookupAppend(c.data, Member(key, result.v), key);
      LookupAppend(c.data, Member(key, result.v), other);
    }
  }

  lemma {:induction false} LookupAppend(data: seq<Member>, m: Member, key: string)
    ensures Lookup(data + [m], key) ==
            if Lookup(data, key).Some? then Lookup(data, key) else if key == m.key then Some(m.value) else None
  {
    if data == [] {
      assert data + [m] == [m] && [m][1..] == [];
    } else {
      assert (data + [m])[1..] == data[1..] + [m];
      LookupAppend(data[1..], m, key);
    }
  }

  /** Of a repeated key, a parsed object keeps the last value, and it keeps every key once. */
  lemma {:induction false} LastWinsMeans(ms: seq<Member>, i: nat)
    requires i < |ms| && !HasKey(ms[i + 1..], ms[i].key)
    ensures Lookup(LastWins(ms), ms[i].key) == Some(ms[i].value)
  {
    if i == 0 {
      assert ms[0 + 1..] == ms[1..];
    } else {
      assert ms[1..][i - 1] == ms[i] && ms[1..][i - 1 + 1..] == ms[i + 1..];
      LastWinsMeans(ms[1..], i - 1);
      if ms[0].key == ms[i].key { assert ms[1..][i - 1].key == ms[0].key; }
    }
  }

  // ------------------------------------------------------- calls that did not return True

  /** A reloaded dictionary has the keys of the flushed one. */
  lemma ReloadedKeys(files: Files, path: string, d: seq<Member>, key: string)
    requires path in files && files[path] == DataText(d) && DistinctKeys(d)
    ensures Load(files, path).Dict? && (HasKey(Load(files, path).data, key) <==> HasKey(d, key))
  {
    ReloadFlushed(files, path, d);
    var s := SortMembers(Python, SortValues(Python, d));
    SortElements(Python, SortValues(Python, d));
    if HasKey(s, key) {
      var k :| 0 <= k < |s| && s[k].key == key;
      assert s[k] in SortValues(Python, d);
      SortValuesElements(Python, d, s[k]);
    }
    if HasKey(d, key) {
      var i :| 0 <= i < |d| && d[i].key == key;
      var m := Member(key, SortKeys(Python, d[i].value));
      SortValuesElements(Python, d, m);
      assert m in s;
    }
  }

  /** The file, if any, holds only keys that the live dictionary holds too. */
  ghost predicate Covered(path: string, s: System)
  {
    Healthy(path, s) &&
    (path in s.files && s.live.Some? ==>
       exists d :: DistinctKeys(d) && s.files[path] == DataText(d) && forall k :: HasKey(d, k) ==> s.live.value.Known(k))
  }

  lemma RestartCovered(path: string, s: System)
    requires Covered(path, s)
    ensures Covered(path, Step(path, s, Restart))
  {
    StepHealthy(path, s, Restart);
    if path in s.files {
      var d :| DistinctKeys(d) && s.files[path] == DataText(d);
      ReloadFlushed(s.files, path, d);
      var live := Step(path, s, Restart).live.value;
      forall k ensures HasKey(d, k) ==> live.Known(k) { ReloadedKeys(s.files, path, d, k); }
    }
  }

  lemma MarkCovered(path: string, s: System, e: Event)
    requires Covered(path, s) && e.MarkDone? && e.tmp != path && e.tmp !in s.files
    requires s.live.Some? && !s.live.value.Known(e.key)
    ensures Covered(path, Step(path, s, e))
  {
    StepHealthy(path, s, e);
    var c := s.live.value.Put(e.key, e.result);
    PutKeepsDistinct(s.live.value, e.key, e.result);
    WriteIsAtomic(s.files, path, e.tmp, DataText(c.data), e.fate);
    if !Flushes(c, e.fate) && path in s.files {
      var d :| DistinctKeys(d) && s.files[path] == DataText(d) && forall k :: HasKey(d, k) ==> s.live.value.Known(k);
      forall k | HasKey(d, k) ensures c.Known(k) { PutKnows(s.live.value, e.key, e.result, k); }
    }
  }

  lemma StepCovered(path: string, s: System, e: Event)
    requires Covered(path, s) && (e.MarkDone? ==> e.tmp != path && e.tmp !in s.files)
    ensures Covered(path, Step(path, s, e))
  {
    if e.Restart? {
      RestartCovered(path, s);
    } else if s.live.Some? && !s.live.value.Known(e.key) {
      MarkCovered(path, s, e);
    }
  }

  lemma PutKnows(c: Contents, key: string, result: Outcome, k: string)
    ensures c.Put(key, result).Known(k) <==> c.Known(k) || k == key
  {
    if result.Value? {
      var all := c.data + [Member(key, result.v)];
      if HasKey(c.data, k) {
        var i :| 0 <= i < |c.data| && c.data[i].key == k;
        assert all[i].key == k;
      }
      assert all[|c.data|] == Member(key, result.v);
    }
  }

  lemma {:induction false} RunCovered(path: string, s: System, es: seq<Event>)
    requires Covered(path, s) && TempsFresh(path, s, es)
    ensures Covered(path, Run(path, s, es))
    decreases |es|
  {
    if es != [] {
      var n := |es| - 1;
      PrefixFresh(path, s, es, n);
      RunCovered(path, s, es[..n]);
      StepCovered(path, Run(path, s, es[..n]), es[n]);
    }
  }

  /** Whether `mark_done` of `key`, going well, returns True after a restart. */
  predicate MarkableAfterRestart(path: string, s: System, key: string)
  {
    MarkEndOf(Step(path, s, Restart).live.value, key, Value(Null), Completes) == Recorded
  }

  /** The event is a `mark_done` that reaches its flush. */
  predicate Effective(s: System, e: Event)
  {
    e.MarkDone? && s.live.Some? && !s.live.value.Known(e.key)
  }

  /** The event replaces the file. */
  predicate ReplacesFile(s: System, e: Event)
  {
    Effective(s, e) && Flushes(s.live.value.Put(e.key, e.result), e.fate)
  }

  ghost predicate FreshTemp(path: string, s: System, e: Event) { e.MarkDone? ==> e.tmp != path && e.tmp !in s.files }

  /** A key the live store does not know can be marked after a restart. */
  lemma UnknownIsMarkable(path: string, s: System, key: string)
    requires Covered(path, s) && s.live.Some? && !s.live.value.Known(key)
    ensures MarkableAfterRestart(path, s, key)
  {
    if path in s.files {
      var d :| DistinctKeys(d) && s.files[path] == DataText(d) && forall k :: HasKey(d, k) ==> s.live.value.Known(k);
      ReloadedKeys(s.files, path, d, key);
    }
  }

  /** Only an event that replaces the file changes what a restart would find. */
  lemma OtherEventsKeep(path: string, s: System, e: Event, key: string)
    requires FreshTemp(path, s, e) && !ReplacesFile(s, e)
    ensures MarkableAfterRestart(path, Step(path, s, e), key) <==> MarkableAfterRestart(path, s, key)
  {
    if Effective(s, e) {
      WriteIsAtomic(s.files, path, e.tmp, DataText(s.live.value.Put(e.key, e.result).data), e.fate);
    }
  }

  /** A replaced file holds exactly the keys of the dictionary that was flushed. */
  lemma FlushedKeys(path: string, s: System, e: Event, key: string)
    requires Healthy(path, s) && FreshTemp(path, s, e) && ReplacesFile(s, e)
    ensures MarkableAfterRestart(path, Step(path, s, e), key) <==> !s.live.value.Put(e.key, e.result).Known(key)
  {
    var c := s.live.value.Put(e.key, e.result);
    PutKeepsDistinct(s.live.value, e.key, e.result);
    WriteIsAtomic(s.files, path, e.tmp, DataText(c.data), e.fate);
    ReloadedKeys(Step(path, s, e).files, path, c.data, key);
  }

  /** The states before each event and after the last one. */
  ghost predicate States(path: string, st: seq<System>, es: seq<Event>)
  {
    |st| == |es| + 1 &&
    forall n :: 0 <= n < |es| ==> st[n + 1] == Step(path, st[n], es[n]) && FreshTemp(path, st[n], es[n]) && Covered(path, st[n])
  }

  ghost function StatesOf(path: string, s: System, es: seq<Event>): (st: seq<System>)
    requires Covered(path, s) && TempsFresh(path, s, es)
    ensures States(path, st, es)
    ensures forall n :: 0 <= n <= |es| ==> st[n] == Run(path, s, es[..n])
  {
    var st := seq(|es| + 1, n requires 0 <= n <= |es| => Run(path, s, es[..n]));
    assert forall n :: 0 <= n < |es| ==>
                         st[n + 1] == Step(path, st[n], es[n]) && FreshTemp(path, st[n], es[n]) && Covered(path, st[n]) by {
      forall n | 0 <= n < |es|
        ensures st[n + 1] == Step(path, st[n], es[n]) && FreshTemp(path, st[n], es[n]) && Covered(path, st[n])
      {
        RunStep(path, s, es, n);
        PrefixFresh(path, s, es, n);
        RunCovered(path, s, es[..n]);
      }
    }
    st
  }

  /** Some event from `i` on before `j` replaces the file. */
  ghost predicate ReplacedBetween(st: seq<System>, es: seq<Event>, i: nat, j: nat)
    requires j <= |es| < |st|
  {
    exists n :: i <= n < j && ReplacesFile(st[n], es[n])
  }

  /** A `mark_done` reached its flush at `i`, and the process, if it still lives at `j`, is the same one. */
  ghost predicate SameProcess(st: seq<System>, es: seq<Event>, i: nat, j: nat)
  {
    i < j <= |es| < |st| && Effective(st[i], es[i]) && forall n :: i < n < j ==> !es[n].Restart?
  }

  lemma StillKnown(path: string, s: System, e: Event, key: string)
    requires !e.Restart? && (s.live.Some? ==> s.live.value.Known(key) || (e.MarkDone? && e.key == key))
    ensures var live := Step(path, s, e).live; live.Some? ==> live.value.Known(key)
  {
    if Effective(s, e) { PutKnows(s.live.value, e.key, e.result, key); }
  }

  lemma {:induction false} KnownMeanwhile(path: string, st: seq<System>, es: seq<Event>, i: nat, j: nat)
    requires States(path, st, es) && SameProcess(st, es, i, j)
    ensures st[j].live.Some? ==> st[j].live.value.Known(es[i].key)
    decreases j
  {
    var n := j - 1;
    if n > i { KnownMeanwhile(path, st, es, i, n); }
    StillKnown(path, st[n], es[n], es[i].key);
  }

  lemma MarkableStep(path: string, s: System, e: Event, key: string)
    requires Healthy(path, s) && FreshTemp(path, s, e)
    requires s.live.Some? ==> s.live.value.Known(key) || (e.MarkDone? && e.key == key)
    ensures MarkableAfterRestart(path, Step(path, s, e), key) <==>
            MarkableAfterRestart(path, s, key) && !ReplacesFile(s, e)
  {
    if ReplacesFile(s, e) {
      FlushedKeys(path, s, e, key);
      PutKnows(s.live.value, e.key, e.result, key);
    } else {
      OtherEventsKeep(path, s, e, key);
    }
  }

  lemma {:induction false} MarkableMeanwhile(path: string, st: seq<System>, es: seq<Event>, i: nat, j: nat)
    requires States(path, st, es) && SameProcess(st, es, i, j)
    ensures MarkableAfterRestart(path, st[j], es[i].key) <==> !ReplacedBetween(st, es, i, j)
    decreases j
  {
    var n := j - 1;
    if n == i {
      UnknownIsMarkable(path, st[i], es[i].key);
    } else {
      KnownMeanwhile(path, st, es, i, n);
      MarkableMeanwhile(path, st, es, i, n);
    }
    MarkableStep(path, st[n], es[n], es[i].key);
  }

  /**
   MAIN: when a live process calls `mark_done` of a new key, at any point of any run and whatever happens in
   its flush, then at every later moment before the next restart: a live store refuses the key, even if no
   call ever returned True; and the key could be marked again after a restart if and only if neither that
   call nor any later one has replaced the file.
   */
  lemma RetryAfterFailure(path: string, s: System, es: seq<Event>, i: nat, j: nat, result: Outcome, retry: Fate)
    requires Covered(path, s) && TempsFresh(path, s, es) && SameProcess(StatesOf(path, s, es), es, i, j)
    ensures var now := Run(path, s, es[..j]);
            (now.live.Some? ==> MarkEndOf(now.live.value, es[i].key, result, retry) == AlreadyThere) &&
            (MarkableAfterRestart(path, now, es[i].key) <==> !ReplacedBetween(StatesOf(path, s, es), es, i, j))
  {
    var st := StatesOf(path, s, es);
    KnownMeanwhile(path, st, es, i, j);
    MarkableMeanwhile(path, st, es, i, j);
  }

  /** The flush of another key writes a key whose own flush raised, so that no restart makes it free again. */
  lemma LaterFlushPersists(path: string, k: string, other: string, r: Json, r2: Json, tmp: string)
    requires tmp != path && k != other
    ensures var first := Step(path, System(map[], Some(Contents([], map[]))), MarkDone(k, Value(r), tmp, RaisesAfter(0, 0)));
            var second := Step(path, first, MarkDone(other, Value(r2), tmp, Completes));
            MarkableAfterRestart(path, first, k) && !MarkableAfterRestart(path, second, k)
  {
    var s := System(map[], Some(Contents([], map[])));
    var e, e2 := MarkDone(k, Value(r), tmp, RaisesAfter(0, 0)), MarkDone(other, Value(r2), tmp, Completes);
    var first := Step(path, s, e);
    MarkableStep(path, s, e, k);
    StillKnown(path, s, e, k);
    StepHealthy(path, s, e);
    assert first.live.value.data == [Member(k, r)];
    MarkableStep(path, first, e2, k);
  }

  lemma NothingFlushed(path: string, s: System, e: Event)
    requires !e.Restart? && (s.live.Some? && s.live.value.Writable() ==> Effective(s, e) && e.result.Object?)
    ensures var after := Step(path, s, e);
            after.files == s.files && (after.live.Some? ==> !after.live.value.Writable())
  {
    if Effective(s, e) {
      var c := s.live.value.Put(e.key, e.result);
      if e.result.Object? { assert e.key in c.objects; }
    }
  }

  lemma UnwritableRefuses(c: Contents, k: string, r: Outcome, fate: Fate)
    requires !c.Writable()
    ensures MarkEndOf(c, k, r, fate) != Recorded
  {
    if r.Object? { assert k in c.Put(k, r).objects; }
  }

  /**
   MAIN: a result the encoder cannot write stops all flushing: until the next restart no call returns True
   and the disk stays as it was before that call.
   */
  lemma ObjectStopsFlushing(path: string, s: System, es: seq<Event>, i: nat, j: nat, k: string, r: Outcome, fate: Fate)
    requires Covered(path, s) && TempsFresh(path, s, es) && SameProcess(StatesOf(path, s, es), es, i, j)
    requires es[i].result.Object?
    ensures var now := Run(path, s, es[..j]);
            now.files == Run(path, s, es[..i]).files &&
            (now.live.Some? ==> MarkEndOf(now.live.value, k, r, fate) != Recorded)
  {
    var st := StatesOf(path, s, es);
    UnwritableMeanwhile(path, st, es, i, j);
    if st[j].live.Some? { UnwritableRefuses(st[j].live.value, k, r, fate); }
  }

  lemma {:induction false} UnwritableMeanwhile(path: string, st: seq<System>, es: seq<Event>, i: nat, j: nat)
    requires States(path, st, es) && SameProcess(st, es, i, j) && es[i].result.Object?
    ensures st[j].files == st[i].files && (st[j].live.Some? ==> !st[j].live.value.Writable())
    decreases j
  {
    if j - 1 > i { UnwritableMeanwhile(path, st, es, i, j - 1); }
    NothingFlushed(path, st[j - 1], es[j - 1]);
  }
}
