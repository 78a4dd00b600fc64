/** The on-chain sender: bounded retry, pinned nonce, fee bumps, backoff, and its off-chain breaker. */
module Onchain {
  import opened Text
  import opened Backoff
  import opened Fees

  // ------------------------------------------------------------------ the breaker

  datatype BreakerSettings = BreakerSettings(threshold: int, cooldown: int)

  datatype Breaker = Breaker(failures: nat, openedAt: Option<int>)

  /** Whether `assert_closed` lets a send through at `now`. */
  predicate Passes(c: BreakerSettings, b: Breaker, now: int)
  {
    b.openedAt.None? || (c.cooldown > 0 && now - b.openedAt.value >= c.cooldown)
  }

  const FRESH := Breaker(0, None)

  function Failed(c: BreakerSettings, b: Breaker, now: int): Breaker
  {
    Breaker(b.failures + 1, if b.failures + 1 >= c.threshold then Some(now) else b.openedAt)
  }

  class CircuitBreaker {
    const settings: BreakerSettings
    var failures: nat
    var openedAt: Option<int>

    function Snap(): Breaker
      reads this
    {
      Breaker(failures, openedAt)
    }

    constructor (settings: BreakerSettings)
      requires settings.threshold >= 1
      ensures this.settings == settings && Snap() == FRESH
    {
      this.settings := settings;
      failures, openedAt := 0, None;
    }

    method AssertClosed(now: int) returns (passes: bool)
      ensures passes == Passes(settings, Snap(), now)
    {
      if openedAt.None? { return true; }
      if settings.cooldown > 0 && now - openedAt.value >= settings.cooldown { return true; }
      passes := false;
    }

    method RecordSuccess()
      modifies this
      ensures Snap() == FRESH
    {
      failures := 0;
      openedAt := None;
    }

    method RecordFailure(now: int)
      modifies this
      ensures Snap() == Failed(settings, old(Snap()), now)
    {
      failures := failures + 1;
      if failures >= settings.threshold { openedAt := Some(now); }
    }
  }

  // ----------------------------------------------------------------- one send

  datatype Options = Options(maxAttempts: int, mode: Mode, bumpFactor: real, backoffBase: nat, alreadySent: bool)

  /** The bump factor in thousandths, rounded. */
  function Milli(factor: real): nat
    requires factor > 1.0
    ensures Milli(factor) >= 1000
    ensures 1000.0 * factor - 0.5 <= Milli(factor) as real <= 1000.0 * factor + 0.5
  {
    (factor * 1000.0 + 0.5).Floor
  }

  /**
   How one attempt ends: a receipt of success, a receipt of failure, the caller's own failed-transaction
   error, or another error, which may look like a stale nonce and may be worth retrying.
   */
  datatype Outcome = Success | Reverted | RaisedTxFailed | Error(nonceLow: bool, retryable: bool)

  datatype Fetched = State(nonce: int, fee: FeeFields) | FetchError

  /** Everything outside the sender: the state fetches, the attempts' outcomes, the clock. */
  datatype World = World(fetch: nat -> Fetched, outcome: nat -> Outcome, gate: int, clock: nat -> int)

  datatype Result =
    | BadConfig | AlreadySent | CircuitOpen | FetchFailed | BadFee
    | Confirmed | TxFailed | NonRetryable | RetryExhausted

  /** `tripped` tells whether the breaker's opening time was set when the submission was made. */
  datatype Submission = Submission(nonce: int, fee: FeeFields, attempt: nat, tripped: bool)

  predicate Tripped(b: Option<Breaker>) { b.Some? && b.value.openedAt.Some? }

  datatype Report = Report(result: Result, subs: seq<Submission>, sleeps: seq<nat>, fetches: nat, counted: nat,
                           breaker: Option<Breaker>)

  /** What a state fetch gives: a nonce and an initial fee, or the error that ends the send. */
  datatype Start = Fresh(nonce: int, fee: FeeFields) | Broken(result: Result)

  function FetchStart(o: Options, w: World, i: nat): (s: Start)
    ensures s.Fresh? ==> WellFormed(o.mode, s.fee)
  {
    match w.fetch(i)
    case FetchError => Broken(FetchFailed)
    case State(nonce, base) =>
      match InitialFee(o.mode, base)
      case None => Broken(BadFee)
      case Some(fee) => Fresh(nonce, fee)
  }

  function FailedOpt(c: BreakerSettings, b: Option<Breaker>, now: int): Option<Breaker>
  {
    if b.Some? then Some(Failed(c, b.value, now)) else None
  }

  /** One attempt in front of the rest of the run. */
  function Then(sub: Submission, sleep: nat, fetches: nat, counted: nat, rest: Report): Report
  {
    Report(rest.result, [sub] + rest.subs, [sleep] + rest.sleeps, rest.fetches + fetches, rest.counted + counted,
           rest.breaker)
  }

  /** The attempt loop from attempt number `a + 1` on, `fetched` states having been fetched. */
  function Loop(o: Options, c: BreakerSettings, w: World, a: nat, nonce: int, fee: FeeFields, fetched: nat,
                b: Option<Breaker>): Report
    requires o.bumpFactor > 1.0 && WellFormed(o.mode, fee)
    decreases o.maxAttempts - a, 1
  {
    if a >= o.maxAttempts then Report(RetryExhausted, [], [], 0, 0, b)
    else
      var sub := Submission(nonce, fee, a + 1, Tripped(b));
      match w.outcome(a)
      case Success => Report(Confirmed, [sub], [], 0, 0, if b.Some? then Some(FRESH) else None)
      case Reverted => Report(TxFailed, [sub], [], 0, 1, FailedOpt(c, b, w.clock(a)))
      case RaisedTxFailed => Report(TxFailed, [sub], [], 0, 0, b)
      case Error(nonceLow, retryable) => AfterError(o, c, w, a, nonce, fee, fetched, b, nonceLow, retryable)
  }

  /** The rest of the run after an error on attempt number `a + 1`: refresh on a stale nonce, else bump the fee. */
  function AfterError(o: Options, c: BreakerSettings, w: World, a: nat, nonce: int, fee: FeeFields, fetched: nat,
                      b: Option<Breaker>, nonceLow: bool, retryable: bool): Report
    requires o.bumpFactor > 1.0 && WellFormed(o.mode, fee) && a < o.maxAttempts
    decreases o.maxAttempts - a, 0
  {
    var sub := Submission(nonce, fee, a + 1, Tripped(b));
    var start := if nonceLow then FetchStart(o, w, fetched) else Fresh(nonce, fee);
    var extra := if nonceLow then 1 else 0;
    if start.Broken? then Report(start.result, [sub], [], 1, 0, b)
    else if nonceLow && a + 1 < o.maxAttempts then
      Then(sub, o.backoffBase, 1, 0, Loop(o, c, w, a + 1, start.nonce, start.fee, fetched + 1, b))
    else
      var b' := FailedOpt(c, b, w.clock(a));
      if !retryable then Report(NonRetryable, [sub], [], extra, 1, b')
      else if a + 1 < o.maxAttempts then
        Then(sub, o.backoffBase * Pow2(a), extra, 1,
             Loop(o, c, w, a + 1, start.nonce, BumpFee(o.mode, start.fee, Milli(o.bumpFactor)), fetched + extra, b'))
      else Report(RetryExhausted, [sub], [], extra, 1, b')
  }

  function Refused(result: Result, fetches: nat, b: Option<Breaker>): Report { Report(result, [], [], fetches, 0, b) }

  /** A whole send, with the checks in the order the code makes them. */
  function Send(o: Options, c: BreakerSettings, w: World, b: Option<Breaker>): Report
  {
    if o.bumpFactor <= 1.0 || o.maxAttempts < 1 then Refused(BadConfig, 0, b)
    else if o.alreadySent then Refused(AlreadySent, 0, b)
    else if b.Some? && !Passes(c, b.value, w.gate) then Refused(CircuitOpen, 0, b)
    else
      match FetchStart(o, w, 0)
      case Broken(result) => Refused(result, 1, b)
      case Fresh(nonce, fee) =>
        var r := Loop(o, c, w, 0, nonce, fee, 1, b);
        r.(fetches := r.fetches + 1)
  }

  function SnapOf(b: CircuitBreaker?): Option<Breaker>
    reads b
  {
    if b == null then None else Some(b.Snap())
  }

  function Prefixed(subs: seq<Submission>, sleeps: seq<nat>, fetches: nat, counted: nat, rest: Report): Report
  {
    Report(rest.result, subs + rest.subs, sleeps + rest.sleeps, fetches + rest.fetches, counted + rest.counted, rest.breaker)
  }

  lemma PrefixThen(subs: seq<Submission>, sleeps: seq<nat>, fetches: nat, counted: nat,
                   sub: Submission, sleep: nat, f: nat, k: nat, rest: Report)
    ensures Prefixed(subs, sleeps, fetches, counted, Then(sub, sleep, f, k, rest))
         == Prefixed(subs + [sub], sleeps + [sleep], fetches + f, counted + k, rest)
  {
    assert subs + ([sub] + rest.subs) == (subs + [sub]) + rest.subs;
    assert sleeps + ([sleep] + rest.sleeps) == (sleeps + [sleep]) + rest.sleeps;
  }

  lemma PrefixEnd(subs: seq<Submission>, sleeps: seq<nat>, fetches: nat, counted: nat,
                  result: Result, sub: Submission, f: nat, k: nat, b: Option<Breaker>)
    ensures Prefixed(subs, sleeps, fetches, counted, Report(result, [sub], [], f, k, b))
         == Report(result, subs + [sub], sleeps, fetches + f, counted + k, b)
  {
  }

  /** What one pass through the loop body decides: to end the send, or to sleep and go on. */
  datatype Verdict =
    | Done(result: Result, fetches: nat, counted: nat)
    | Again(sleep: nat, fetches: nat, counted: nat, nonce: int, fee: FeeFields)

  /** The loop body: one submission, its outcome, the breaker's record, and the decision. */
  method Attempt(o: Options, c: BreakerSettings, w: World, a: nat, nonce: int, fee: FeeFields, fetched: nat,
                 breaker: CircuitBreaker?) returns (v: Verdict)
    requires o.bumpFactor > 1.0 && WellFormed(o.mode, fee) && a < o.maxAttempts
    requires breaker != null ==> breaker.settings == c
    modifies breaker
    ensures v.Again? ==> WellFormed(o.mode, v.fee) && a + 1 < o.maxAttempts
    ensures Loop(o, c, w, a, nonce, fee, fetched, old(SnapOf(breaker))) ==
            var sub := Submission(nonce, fee, a + 1, Tripped(old(SnapOf(breaker))));
            match v
            case Done(result, f, k) => Report(result, [sub], [], f, k, SnapOf(breaker))
            case Again(sleep, f, k, nonce', fee') =>
              Then(sub, sleep, f, k, Loop(o, c, w, a + 1, nonce', fee', fetched + f, SnapOf(breaker)))
  {
    match w.outcome(a)
    case Success =>
      if breaker != null { breaker.RecordSuccess(); }
      v := Done(Confirmed, 0, 0);
    case Reverted =>
      if breaker != null { breaker.RecordFailure(w.clock(a)); }
      v := Done(TxFailed, 0, 1);
    case RaisedTxFailed =>
      v := Done(TxFailed, 0, 0);
    case Error(nonceLow, retryable) =>
      var nonce', fee', extra := nonce, fee, 0;
      if nonceLow {
        var again := FetchStart(o, w, fetched);
        if again.Broken? { return Done(again.result, 1, 0); }
        nonce', fee', extra := again.nonce, again.fee, 1;
        if a + 1 < o.maxAttempts { return Again(o.backoffBase, 1, 0, nonce', fee'); }
      }
      if breaker != null { breaker.RecordFailure(w.clock(a)); }
      if !retryable { return Done(NonRetryable, extra, 1); }
      if a + 1 < o.maxAttempts {
        v := Again(o.backoffBase * Pow2(a), extra, 1, nonce', BumpFee(o.mode, fee', Milli(o.bumpFactor)));
      } else {
        v := Done(RetryExhausted, extra, 1);
      }
  }

  /** The imperative sender, updating nonce, fee and the shared breaker as it goes. */
  method SendWithRetry(o: Options, w: World, breaker: CircuitBreaker?, c: BreakerSettings) returns (report: Report)
    requires breaker != null ==> breaker.settings == c
    modifies breaker
    ensures report == Send(o, c, w, old(SnapOf(breaker)))
    ensures SnapOf(breaker) == report.breaker
  {
    if o.bumpFactor <= 1.0 || o.maxAttempts < 1 { return Refused(BadConfig, 0, SnapOf(breaker)); }
    if o.alreadySent { return Refused(AlreadySent, 0, SnapOf(breaker)); }
    if breaker != null {
      var passes := breaker.AssertClosed(w.gate);
      if !passes { return Refused(CircuitOpen, 0, SnapOf(breaker)); }
    }
    var start := FetchStart(o, w, 0);
    if start.Broken? { return Refused(start.result, 1, SnapOf(breaker)); }
    report := RetryLoop(o, w, breaker, c, start.nonce, start.fee);
  }

  /** The attempt loop, entered with the first nonce and fee. */
  method RetryLoop(o: Options, w: World, breaker: CircuitBreaker?, c: BreakerSettings, firstNonce: int, firstFee: FeeFields)
    returns (report: Report)
    requires o.bumpFactor > 1.0 && o.maxAttempts >= 1 && WellFormed(o.mode, firstFee)
    requires breaker != null ==> breaker.settings == c
    modifies breaker
    ensures var r := Loop(o, c, w, 0, firstNonce, firstFee, 1, old(SnapOf(breaker)));
            report == r.(fetches := r.fetches + 1)
    ensures SnapOf(breaker) == report.breaker
  {
    var nonce, fee := firstNonce, firstFee;
    var subs: seq<Submission>, sleeps: seq<nat> := [], [];
    var fetches: nat, counted: nat := 1, 0;
    var attempt := 0;
    ghost var whole := Loop(o, c, w, 0, nonce, fee, 1, SnapOf(breaker));
    ghost var rest := whole;
    PrefixNone(whole);
    while true
      invariant 0 <= attempt < o.maxAttempts  // the last attempt always ends the send
      invariant WellFormed(o.mode, fee)
      invariant rest == Loop(o, c, w, attempt, nonce, fee, fetches, SnapOf(breaker))
      invariant whole.(fetches := whole.fetches + 1) == Prefixed(subs, sleeps, fetches, counted, rest)
      decreases o.maxAttempts - attempt
    {
      var sub := Submission(nonce, fee, attempt + 1, Tripped(SnapOf(breaker)));
      var v := Attempt(o, c, w, attempt, nonce, fee, fetches, breaker);
      if v.Done? {
        PrefixEnd(subs, sleeps, fetches, counted, v.result, sub, v.fetches, v.counted, SnapOf(breaker));
        return Report(v.result, subs + [sub], sleeps, fetches + v.fetches, counted + v.counted, SnapOf(breaker));
      }
      rest := Loop(o, c, w, attempt + 1, v.nonce, v.fee, fetches + v.fetches, SnapOf(breaker));
      PrefixThen(subs, sleeps, fetches, counted, sub, v.sleep, v.fetches, v.counted, rest);
      subs, sleeps := subs + [sub], sleeps + [v.sleep];
      fetches, counted := fetches + v.fetches, counted + v.counted;
      nonce, fee := v.nonce, v.fee;
      attempt := attempt + 1;
    }
  }

  lemma PrefixNone(r: Report)
    ensures r.(fetches := r.fetches + 1) == Prefixed([], [], 1, 0, r)
  {
    assert [] + r.subs == r.subs && [] + r.sleeps == r.sleeps;
  }
}
