/** What every send does, for every stream of outcomes, and what a shared breaker guarantees over many sends. */
module OnchainTheorems {
  import opened Text
  import opened Backoff
  import opened Fees
  import opened Onchain

  // --------------------------------------------------- reading off the outcome stream

  predicate IsLow(w: World, i: nat) { w.outcome(i).Error? && w.outcome(i).nonceLow }

  /** Nonce-too-low errors among the first `n` attempts. */
  function LowCount(w: World, n: nat): nat
  {
    if n == 0 then 0 else LowCount(w, n - 1) + (if IsLow(w, n - 1) then 1 else 0)
  }

  /** Attempts since the last nonce refresh before attempt `n`: the bumps its fee has had. */
  function BumpCount(w: World, n: nat): nat
  {
    if n == 0 || IsLow(w, n - 1) then 0 else BumpCount(w, n - 1) + 1
  }

  /** Why fetch number `j` ends a send: it fails, or lacks the amount that the fee mode needs. */
  function FetchEnds(o: Options, w: World, j: nat): Option<Result>
  {
    match w.fetch(j)
    case FetchError => Some(FetchFailed)
    case State(_, base) =>
      if (o.mode.Legacy? && base.gasPrice.None?) || (o.mode.Eip1559? && base.maxFee.None?) then Some(BadFee) else None
  }

  /** The fee holds the fetched amounts of its mode, each bumped `n` times; an absent priority is the maximum fee. */
  ghost predicate Paid(mode: Mode, base: FeeFields, k: nat, n: nat, fee: FeeFields)
  {
    match mode
    case Legacy => base.gasPrice.Some? && fee == FeeFields(Some(Bumps(base.gasPrice.value, k, n)), None, None)
    case Eip1559 =>
      base.maxFee.Some? &&
      var priority := if base.maxPriorityFee.Some? then base.maxPriorityFee.value else base.maxFee.value;
      fee == FeeFields(None, Some(Bumps(base.maxFee.value, k, n)), Some(Bumps(priority, k, n)))
  }

  /** Attempt `i` carries the nonce of the latest fetch and that fetch's amounts, bumped once per attempt since. */
  ghost predicate Pinned(o: Options, w: World, i: nat, nonce: int, fee: FeeFields)
    requires o.bumpFactor > 1.0
  {
    var fetched := w.fetch(LowCount(w, i));
    fetched.State? && nonce == fetched.nonce && Paid(o.mode, fetched.fee, Milli(o.bumpFactor), BumpCount(w, i), fee)
  }

  lemma StartIsFetched(o: Options, w: World, j: nat, k: nat)
    ensures var start := FetchStart(o, w, j);
            match FetchEnds(o, w, j)
            case Some(result) => start == Broken(result)
            case None => start.Fresh? && w.fetch(j).State? && start.nonce == w.fetch(j).nonce &&
                         Paid(o.mode, w.fetch(j).fee, k, 0, start.fee)
  {
  }

  lemma PaidBump(mode: Mode, base: FeeFields, k: nat, n: nat, fee: FeeFields)
    requires Paid(mode, base, k, n, fee) && WellFormed(mode, fee)
    ensures Paid(mode, base, k, n + 1, BumpFee(mode, fee, k))
  {
  }

  lemma PaidWellFormed(mode: Mode, base: FeeFields, k: nat, n: nat, fee: FeeFields)
    requires Paid(mode, base, k, n, fee)
    ensures WellFormed(mode, fee)
  {
  }

  /** The result when attempt `i` ends the send; `None` when the sender goes on. */
  function Ending(o: Options, w: World, i: nat): Option<Result>
  {
    match w.outcome(i)
    case Success => Some(Confirmed)
    case Reverted => Some(TxFailed)
    case RaisedTxFailed => Some(TxFailed)
    case Error(nonceLow, retryable) =>
      if nonceLow && FetchEnds(o, w, LowCount(w, i) + 1).Some? then FetchEnds(o, w, LowCount(w, i) + 1)
      else if nonceLow && i + 1 < o.maxAttempts then None
      else if !retryable then Some(NonRetryable)
      else if i + 1 < o.maxAttempts then None
      else Some(RetryExhausted)
  }

  function SleepAfter(o: Options, w: World, i: nat): nat
  {
    if IsLow(w, i) then o.backoffBase else o.backoffBase * Pow2(i)
  }

  /** Attempt `i` ends without a recorded failure and without going on to another attempt. */
  predicate EndsUncounted(o: Options, w: World, i: nat)
  {
    w.outcome(i).Success? || w.outcome(i).RaisedTxFailed? ||
    (IsLow(w, i) && FetchEnds(o, w, LowCount(w, i) + 1).Some?)
  }

  /** Submissions are numbered in order and carry the pinned nonce and fee. */
  ghost predicate Numbered(o: Options, w: World, a: nat, subs: seq<Submission>)
    requires o.bumpFactor > 1.0
  {
    forall i :: 0 <= i < |subs| ==> subs[i].attempt == a + i + 1 && Pinned(o, w, a + i, subs[i].nonce, subs[i].fee)
  }

  /** Each attempt followed by a sleep is one after which the sender goes on, and the sleep is that attempt's. */
  ghost predicate Paced(o: Options, w: World, a: nat, sleeps: seq<nat>)
  {
    forall i :: 0 <= i < |sleeps| ==> sleeps[i] == SleepAfter(o, w, a + i) && Ending(o, w, a + i).None?
  }

  /** The shape of a run of the loop from attempt `a` on. */
  ghost predicate RunShape(o: Options, w: World, a: nat, r: Report)
    requires o.bumpFactor > 1.0
  {
    var n := |r.subs|;
    1 <= n && a + n <= o.maxAttempts && |r.sleeps| == n - 1 &&
    Numbered(o, w, a, r.subs) && Paced(o, w, a, r.sleeps) && Ending(o, w, a + n - 1) == Some(r.result) &&
    r.fetches == LowCount(w, a + n) - LowCount(w, a) &&
    n == r.counted + (LowCount(w, a + n - 1) - LowCount(w, a)) + (if EndsUncounted(o, w, a + n - 1) then 1 else 0)
  }

  lemma EndShape(o: Options, w: World, a: nat, r: Report)
    requires o.bumpFactor > 1.0 && a < o.maxAttempts && |r.subs| == 1 && r.sleeps == []
    requires r.subs[0].attempt == a + 1 && Pinned(o, w, a, r.subs[0].nonce, r.subs[0].fee)
    requires Ending(o, w, a) == Some(r.result)
    requires r.fetches == (if IsLow(w, a) then 1 else 0) && r.counted == (if EndsUncounted(o, w, a) then 0 else 1)
    ensures RunShape(o, w, a, r)
  {
  }

  lemma NumberedNext(o: Options, w: World, a: nat, sub: Submission, rest: seq<Submission>)
    requires o.bumpFactor > 1.0 && Numbered(o, w, a + 1, rest)
    requires sub.attempt == a + 1 && Pinned(o, w, a, sub.nonce, sub.fee)
    ensures Numbered(o, w, a, [sub] + rest)
  {
    var all := [sub] + rest;
    forall i | 0 <= i < |all| ensures all[i].attempt == a + i + 1 && Pinned(o, w, a + i, all[i].nonce, all[i].fee) {
      if i > 0 {
        var j := i - 1;
        assert a + 1 + j == a + i && all[i] == rest[j] && Pinned(o, w, a + 1 + j, rest[j].nonce, rest[j].fee);
      }
    }
  }

  lemma PacedNext(o: Options, w: World, a: nat, sleep: nat, rest: seq<nat>)
    requires Paced(o, w, a + 1, rest) && sleep == SleepAfter(o, w, a) && Ending(o, w, a).None?
    ensures Paced(o, w, a, [sleep] + rest)
  {
    var all := [sleep] + rest;
    forall i | 0 <= i < |all| ensures all[i] == SleepAfter(o, w, a + i) && Ending(o, w, a + i).None? {
      if i > 0 {
        var j := i - 1;
        assert a + 1 + j == a + i && all[i] == rest[j] && rest[j] == SleepAfter(o, w, a + 1 + j);
      }
    }
  }

  lemma NextShape(o: Options, w: World, a: nat, sub: Submission, sleep: nat, f: nat, k: nat, rest: Report)
    requires o.bumpFactor > 1.0 && RunShape(o, w, a + 1, rest)
    requires sub.attempt == a + 1 && Pinned(o, w, a, sub.nonce, sub.fee) && sleep == SleepAfter(o, w, a)
    requires Ending(o, w, a).None? && f == (if IsLow(w, a) then 1 else 0) && k == (if IsLow(w, a) then 0 else 1)
    ensures RunShape(o, w, a, Then(sub, sleep, f, k, rest))
  {
    NumberedNext(o, w, a, sub, rest.subs);
    PacedNext(o, w, a, sleep, rest.sleeps);
    assert LowCount(w, a + 1) == LowCount(w, a) + f;
    assert a + |[sub] + rest.subs| == (a + 1) + |rest.subs|;
  }

  /** At an ending outcome the loop reports one submission and stops. */
  lemma LoopEnds(o: Options, c: BreakerSettings, w: World, a: nat, nonce: int, fee: FeeFields, fetched: nat,
                 b: Option<Breaker>)
    requires o.bumpFactor > 1.0 && a < o.maxAttempts && WellFormed(o.mode, fee)
    requires fetched == LowCount(w, a) + 1 && Ending(o, w, a).Some?
    ensures var r := Loop(o, c, w, a, nonce, fee, fetched, b);
            r.subs == [Submission(nonce, fee, a + 1, Tripped(b))] && r.sleeps == [] && r.result == Ending(o, w, a).value &&
            r.fetches == (if IsLow(w, a) then 1 else 0) && r.counted == (if EndsUncounted(o, w, a) then 0 else 1)
  {
    StartIsFetched(o, w, fetched, 0);
    match w.outcome(a)
    case Error(nonceLow, retryable) =>
      assert Loop(o, c, w, a, nonce, fee, fetched, b) == AfterError(o, c, w, a, nonce, fee, fetched, b, nonceLow, retryable);
    case _ =>
  }

  /** At any other outcome it goes on, with a fresh nonce and fee or with a bumped fee. */
  lemma LoopGoesOn(o: Options, c: BreakerSettings, w: World, a: nat, nonce: int, fee: FeeFields, fetched: nat,
                   b: Option<Breaker>)
    requires o.bumpFactor > 1.0 && a < o.maxAttempts && WellFormed(o.mode, fee)
    requires fetched == LowCount(w, a) + 1 && Ending(o, w, a).None?
    ensures a + 1 < o.maxAttempts && (IsLow(w, a) ==> FetchStart(o, w, fetched).Fresh?)
    ensures Loop(o, c, w, a, nonce, fee, fetched, b) ==
            var sub, start := Submission(nonce, fee, a + 1, Tripped(b)), FetchStart(o, w, fetched);
            if IsLow(w, a) then
              Then(sub, o.backoffBase, 1, 0, Loop(o, c, w, a + 1, start.nonce, start.fee, fetched + 1, b))
            else
              Then(sub, o.backoffBase * Pow2(a), 0, 1,
                   Loop(o, c, w, a + 1, nonce, BumpFee(o.mode, fee, Milli(o.bumpFactor)), fetched,
                        FailedOpt(c, b, w.clock(a))))
  {
    StartIsFetched(o, w, fetched, 0);
    var (nonceLow, retryable) := (w.outcome(a).nonceLow, w.outcome(a).retryable);
    assert Loop(o, c, w, a, nonce, fee, fetched, b) == AfterError(o, c, w, a, nonce, fee, fetched, b, nonceLow, retryable);
  }

  lemma LoopEndShape(o: Options, c: BreakerSettings, w: World, a: nat, nonce: int, fee: FeeFields, fetched: nat,
                     b: Option<Breaker>)
    requires o.bumpFactor > 1.0 && a < o.maxAttempts && WellFormed(o.mode, fee)
    requires Pinned(o, w, a, nonce, fee) && fetched == LowCount(w, a) + 1 && Ending(o, w, a).Some?
    ensures RunShape(o, w, a, Loop(o, c, w, a, nonce, fee, fetched, b))
  {
    LoopEnds(o, c, w, a, nonce, fee, fetched, b);
    EndShape(o, w, a, Loop(o, c, w, a, nonce, fee, fetched, b));
  }

  /** After a stale nonce the next attempt carries what was fetched. */
  lemma RefreshPinned(o: Options, w: World, a: nat)
    requires o.bumpFactor > 1.0 && IsLow(w, a) && FetchStart(o, w, LowCount(w, a) + 1).Fresh?
    ensures var start := FetchStart(o, w, LowCount(w, a) + 1); Pinned(o, w, a + 1, start.nonce, start.fee)
  {
    StartIsFetched(o, w, LowCount(w, a) + 1, Milli(o.bumpFactor));
  }

  /** After any other error it carries the same nonce and a bumped fee. */
  lemma BumpPinned(o: Options, w: World, a: nat, nonce: int, fee: FeeFields)
    requires o.bumpFactor > 1.0 && !IsLow(w, a) && Pinned(o, w, a, nonce, fee) && WellFormed(o.mode, fee)
    ensures Pinned(o, w, a + 1, nonce, BumpFee(o.mode, fee, Milli(o.bumpFactor)))
  {
    PaidBump(o.mode, w.fetch(LowCount(w, a)).fee, Milli(o.bumpFactor), BumpCount(w, a), fee);
  }

  lemma {:induction false} LoopShape(o: Options, c: BreakerSettings, w: World, a: nat, nonce: int, fee: FeeFields,
                                     fetched: nat, b: Option<Breaker>)
    requires o.bumpFactor > 1.0 && a < o.maxAttempts && WellFormed(o.mode, fee)
    requires Pinned(o, w, a, nonce, fee) && fetched == LowCount(w, a) + 1
    ensures RunShape(o, w, a, Loop(o, c, w, a, nonce, fee, fetched, b))
    decreases o.maxAttempts - a
  {
    hide Loop, Pinned, RunShape, Ending, BumpFee, WellFormed;
    var sub := Submission(nonce, fee, a + 1, Tripped(b));
    if Ending(o, w, a).Some? {
      LoopEndShape(o, c, w, a, nonce, fee, fetched, b);
    } else {
      LoopGoesOn(o, c, w, a, nonce, fee, fetched, b);
      if IsLow(w, a) {
        var start := FetchStart(o, w, fetched);
        RefreshPinned(o, w, a);
        LoopShape(o, c, w, a + 1, start.nonce, start.fee, fetched + 1, b);
        NextShape(o, w, a, sub, o.backoffBase, 1, 0, Loop(o, c, w, a + 1, start.nonce, start.fee, fetched + 1, b));
      } else {
        BumpPinned(o, w, a, nonce, fee);
        BumpWellFormed(o.mode, fee, Milli(o.bumpFactor));
        var b', fee' := FailedOpt(c, b, w.clock(a)), BumpFee(o.mode, fee, Milli(o.bumpFactor));
        LoopShape(o, c, w, a + 1, nonce, fee', fetched, b');
        NextShape(o, w, a, sub, o.backoffBase * Pow2(a), 0, 1, Loop(o, c, w, a + 1, nonce, fee', fetched, b'));
      }
    }
  }

  lemma BumpWellFormed(mode: Mode, fee: FeeFields, k: nat)
    requires WellFormed(mode, fee)
    ensures WellFormed(mode, BumpFee(mode, fee, k))
  {
  }

  // ---------------------------------------------------------------------- one send

  /**
   MAIN: for every stream of outcomes, a send that submits at all makes at most `maxAttempts` submissions,
   numbered from 1; each carries the nonce of the latest fetch and that fetch's fee bumped once per attempt
   since; it goes on exactly until the first ending outcome, which decides the result; the fetches are one
   plus the nonce-too-low errors; and attempts are the counted failures, the refreshes that were followed by
   another attempt, and a last attempt that records no failure.
   */
  lemma SendMeaning(o: Options, c: BreakerSettings, w: World, b: Option<Breaker>)
    requires Send(o, c, w, b).subs != []
    ensures o.bumpFactor > 1.0 && o.maxAttempts >= 1 && !o.alreadySent
    ensures var r := Send(o, c, w, b);
            RunShape(o, w, 0, r.(fetches := r.fetches - 1)) && r.fetches == 1 + LowCount(w, |r.subs|)
  {
    var start := FetchStart(o, w, 0);
    StartIsFetched(o, w, 0, Milli(o.bumpFactor));
    LoopShape(o, c, w, 0, start.nonce, start.fee, 1, b);
  }

  /**
   A send submits exactly when it is well configured, not a repeat, let through by the breaker and given a
   nonce and a usable fee by its first fetch; a refused one leaves the breaker as it was.
   */
  lemma SubmitsWhen(o: Options, c: BreakerSettings, w: World, b: Option<Breaker>)
    ensures Send(o, c, w, b).subs != [] <==>
            o.bumpFactor > 1.0 && o.maxAttempts >= 1 && !o.alreadySent &&
            (b.Some? ==> Passes(c, b.value, w.gate)) && FetchEnds(o, w, 0).None?
    ensures Send(o, c, w, b).subs == [] ==>
            Send(o, c, w, b).breaker == b && Send(o, c, w, b).fetches == if Send(o, c, w, b).result in {FetchFailed, BadFee} then 1 else 0
  {
    var start := FetchStart(o, w, 0);
    StartIsFetched(o, w, 0, Milli(if o.bumpFactor > 1.0 then o.bumpFactor else 2.0));
    if o.bumpFactor > 1.0 && o.maxAttempts >= 1 && start.Fresh? { LoopShape(o, c, w, 0, start.nonce, start.fee, 1, b); }
  }

  /** A bad configuration is refused first, then a repeated send, then one that the breaker stops, before any fetch. */
  lemma RefusalMeaning(o: Options, c: BreakerSettings, w: World, b: Option<Breaker>)
    ensures var result := Send(o, c, w, b).result;
            var bad, stopped := o.bumpFactor <= 1.0 || o.maxAttempts < 1, b.Some? && !Passes(c, b.value, w.gate);
            (result.BadConfig? <==> bad) && (result.AlreadySent? <==> !bad && o.alreadySent) &&
            (result.CircuitOpen? <==> !bad && !o.alreadySent && stopped) &&
            (!bad && !o.alreadySent && !stopped && FetchEnds(o, w, 0).Some? ==> result == FetchEnds(o, w, 0).value)
  {
    SubmitsWhen(o, c, w, b);
    StartIsFetched(o, w, 0, 0);
    if Send(o, c, w, b).subs != [] {
      SendMeaning(o, c, w, b);
      assert Ending(o, w, 0 + |Send(o, c, w, b).subs| - 1) == Some(Send(o, c, w, b).result);
    }
  }

  /**
   MAIN: a failed fetch is reported exactly when the fetch that the send depended on last failed, and a bad fee
   exactly when it lacks the amount that the fee mode needs: the first fetch of a send that submits nothing, or
   else the refresh after its last attempt.
   */
  lemma FetchResults(o: Options, c: BreakerSettings, w: World, b: Option<Breaker>)
    requires o.bumpFactor > 1.0 && o.maxAttempts >= 1 && !o.alreadySent && (b.Some? ==> Passes(c, b.value, w.gate))
    ensures var r := Send(o, c, w, b);
            var n := |r.subs|;
            var last := w.fetch(LowCount(w, n));
            var ends := n == 0 || IsLow(w, n - 1);
            var lacks := last.State? && if o.mode.Legacy? then last.fee.gasPrice.None? else last.fee.maxFee.None?;
            (r.result.FetchFailed? <==> ends && last.FetchError?) && (r.result.BadFee? <==> ends && lacks)
  {
    SubmitsWhen(o, c, w, b);
    StartIsFetched(o, w, 0, 0);
    if Send(o, c, w, b).subs != [] {
      var n := |Send(o, c, w, b).subs|;
      SendMeaning(o, c, w, b);
      assert Ending(o, w, 0 + n - 1) == Some(Send(o, c, w, b).result);
      assert LowCount(w, n) == LowCount(w, n - 1) + if IsLow(w, n - 1) then 1 else 0;
    }
  }

  /** MAIN: between refreshes a resubmission keeps the nonce and pays strictly more in every fee field. */
  lemma FeesGrowBetweenRefreshes(o: Options, c: BreakerSettings, w: World, b: Option<Breaker>, i: nat)
    requires i + 1 < |Send(o, c, w, b).subs| && !IsLow(w, i)
    ensures var r := Send(o, c, w, b);
            r.subs[i + 1].nonce == r.subs[i].nonce &&
            WellFormed(o.mode, r.subs[i].fee) && WellFormed(o.mode, r.subs[i + 1].fee) &&
            StrictlyMore(o.mode, r.subs[i].fee, r.subs[i + 1].fee)
  {
    SendMeaning(o, c, w, b);
    var r := Send(o, c, w, b);
    assert Pinned(o, w, 0 + i, r.subs[i].nonce, r.subs[i].fee);
    assert Pinned(o, w, 0 + (i + 1), r.subs[i + 1].nonce, r.subs[i + 1].fee);
    var base, k, n := w.fetch(LowCount(w, i)).fee, Milli(o.bumpFactor), BumpCount(w, i);
    PaidWellFormed(o.mode, base, k, n, r.subs[i].fee);
    PaidBump(o.mode, base, k, n, r.subs[i].fee);
    BumpFeeIncreases(o.mode, r.subs[i].fee, Milli(o.bumpFactor));
  }

  lemma PaidIsBumped(mode: Mode, base: FeeFields, k: nat, n: nat, fee: FeeFields)
    requires Paid(mode, base, k, n, fee)
    ensures InitialFee(mode, base).Some? && WellFormed(mode, InitialFee(mode, base).value)
    ensures fee == BumpTimes(mode, InitialFee(mode, base).value, k, n)
  {
    BumpTimesAmounts(mode, InitialFee(mode, base).value, k, n);
  }

  /** MAIN: in every submission the priority fee is within the fee cap if and only if it was in what was fetched. */
  lemma SentPriority(o: Options, c: BreakerSettings, w: World, b: Option<Breaker>, i: nat)
    requires o.mode.Eip1559? && i < |Send(o, c, w, b).subs|
    ensures w.fetch(LowCount(w, i)).State?
    ensures PriorityWithinCap(Send(o, c, w, b).subs[i].fee) <==> PriorityWithinCap(w.fetch(LowCount(w, i)).fee)
  {
    SendMeaning(o, c, w, b);
    var sub, base := Send(o, c, w, b).subs[i], w.fetch(LowCount(w, i)).fee;
    assert Pinned(o, w, 0 + i, sub.nonce, sub.fee);
    PaidIsBumped(o.mode, base, Milli(o.bumpFactor), BumpCount(w, i), sub.fee);
    InitialFeePriority(base);
    BumpsKeepPriority(InitialFee(o.mode, base).value, Milli(o.bumpFactor), BumpCount(w, i));
  }

  lemma SleepBounded(o: Options, w: World, i: nat)
    ensures SleepAfter(o, w, i) <= o.backoffBase * Pow2(i)
  {
    Pow2Grows(0, i);
    Scaled(o.backoffBase, 1, Pow2(i));
  }

  lemma SleepsAddUp(sleeps: seq<nat>, base: nat, max: nat)
    requires |sleeps| < max && forall i :: 0 <= i < |sleeps| ==> sleeps[i] <= base * Pow2(i)
    ensures Sum(sleeps) <= base * (Pow2(max - 1) - 1)
  {
    SleepSum(sleeps, base);
    Pow2Grows(|sleeps|, max - 1);
    Scaled(base, Pow2(|sleeps|) - 1, Pow2(max - 1) - 1);
  }

  /** MAIN: the sleeps of a send add up to at most base * (2^(maxAttempts - 1) - 1). */
  lemma TotalSleep(o: Options, c: BreakerSettings, w: World, b: Option<Breaker>)
    requires o.maxAttempts >= 1
    ensures Sum(Send(o, c, w, b).sleeps) <= o.backoffBase * (Pow2(o.maxAttempts - 1) - 1)
  {
    hide Send, Ending, Pinned;
    var r := Send(o, c, w, b);
    if r.subs != [] {
      SendMeaning(o, c, w, b);
      forall i | 0 <= i < |r.sleeps| ensures r.sleeps[i] <= o.backoffBase * Pow2(i) {
        assert r.sleeps[i] == SleepAfter(o, w, 0 + i);
        SleepBounded(o, w, i);
      }
    } else {
      NoSubmissionNoSleep(o, c, w, b);
    }
    SleepsAddUp(r.sleeps, o.backoffBase, o.maxAttempts);
  }

  lemma NoSubmissionNoSleep(o: Options, c: BreakerSettings, w: World, b: Option<Breaker>)
    requires Send(o, c, w, b).subs == []
    ensures Send(o, c, w, b).sleeps == [] && Send(o, c, w, b).counted == 0 && Send(o, c, w, b).breaker == b
  {
    var start := FetchStart(o, w, 0);
    if o.bumpFactor > 1.0 && o.maxAttempts >= 1 && start.Fresh? {
      StartIsFetched(o, w, 0, Milli(o.bumpFactor));
      LoopShape(o, c, w, 0, start.nonce, start.fee, 1, b);
    }
  }

  // ------------------------------------------------------------- the shared breaker

  /** A breaker's opening time is set exactly when its failure count has reached the threshold. */
  ghost predicate Coherent(c: BreakerSettings, b: Breaker) { b.openedAt.Some? <==> b.failures >= c.threshold }

  /** The `i`-th attempt of a send of `n` attempts records a failure with the breaker. */
  predicate Counts(o: Options, w: World, i: nat, n: nat)
  {
    if i + 1 < n then !IsLow(w, i) else !EndsUncounted(o, w, i)
  }

  /** The last of the attempts from `a` on, before `n`, that records a failure. */
  function LastCounted(o: Options, w: World, a: nat, n: nat): Option<nat>
    decreases n - a
  {
    if a >= n then None
    else if LastCounted(o, w, a + 1, n).Some? then LastCounted(o, w, a + 1, n)
    else if Counts(o, w, a, n) then Some(a) else None
  }

  /** The opening time after failures were recorded: that of the last one, once the threshold is reached. */
  ghost predicate OpenedBy(o: Options, c: BreakerSettings, w: World, a: nat, b: Breaker, r: Report)
  {
    r.breaker.Some? &&
    r.breaker.value.openedAt ==
      if r.result.Confirmed? then None
      else
        match LastCounted(o, w, a, a + |r.subs|)
        case None => b.openedAt
        case Some(i) => if r.breaker.value.failures >= c.threshold then Some(w.clock(i)) else b.openedAt
  }

  lemma {:induction false} LoopOpens(o: Options, c: BreakerSettings, w: World, a: nat, nonce: int, fee: FeeFields,
                                     fetched: nat, b: Breaker)
    requires o.bumpFactor > 1.0 && a < o.maxAttempts && WellFormed(o.mode, fee) && Coherent(c, b) && c.threshold >= 1
    requires fetched == LowCount(w, a) + 1
    ensures OpenedBy(o, c, w, a, b, Loop(o, c, w, a, nonce, fee, fetched, Some(b)))
    decreases o.maxAttempts - a
  {
    hide Ending, BumpFee, WellFormed, EndsUncounted;
    BumpWellFormed(o.mode, fee, Milli(o.bumpFactor));
    LoopBreaker(o, c, w, a, nonce, fee, fetched, b);
    if Ending(o, w, a).Some? {
      LoopEnds(o, c, w, a, nonce, fee, fetched, Some(b));
      assert LastCounted(o, w, a + 1, a + 1) == None;
    } else {
      LoopGoesOn(o, c, w, a, nonce, fee, fetched, Some(b));
      var start := if IsLow(w, a) then FetchStart(o, w, fetched) else Fresh(nonce, BumpFee(o.mode, fee, Milli(o.bumpFactor)));
      var b' := if IsLow(w, a) then b else Failed(c, b, w.clock(a));
      var f := fetched + if IsLow(w, a) then 1 else 0;
      LoopOpens(o, c, w, a + 1, start.nonce, start.fee, f, b');
      LoopBreaker(o, c, w, a + 1, start.nonce, start.fee, f, b');
      var r := Loop(o, c, w, a + 1, start.nonce, start.fee, f, Some(b'));
      LoopSubmits(o, c, w, a + 1, start.nonce, start.fee, f, Some(b'));
      assert a + 1 + |r.subs| == a + (1 + |r.subs|);
    }
  }

  lemma LoopSubmits(o: Options, c: BreakerSettings, w: World, a: nat, nonce: int, fee: FeeFields, fetched: nat, b: Option<Breaker>)
    requires o.bumpFactor > 1.0 && a < o.maxAttempts && WellFormed(o.mode, fee)
    ensures Loop(o, c, w, a, nonce, fee, fetched, b).subs != []
  {
  }

  /**
   MAIN: a successful send clears the breaker's opening time; any other one that records a failure leaves the
   clock reading of the last failure it recorded if the count has reached the threshold, and the old one if not.
   */
  lemma OpeningTime(o: Options, c: BreakerSettings, w: World, b: Breaker)
    requires Coherent(c, b) && c.threshold >= 1
    ensures OpenedBy(o, c, w, 0, b, Send(o, c, w, Some(b)))
  {
    SubmitsWhen(o, c, w, Some(b));
    StartIsFetched(o, w, 0, 0);
    var start := FetchStart(o, w, 0);
    if Send(o, c, w, Some(b)).subs != [] {
      LoopOpens(o, c, w, 0, start.nonce, start.fee, 1, b);
    } else {
      RefusalMeaning(o, c, w, Some(b));
    }
  }

  /** A run adds its counted failures to the breaker, unless it succeeds, which clears it. */
  lemma {:induction false} LoopBreaker(o: Options, c: BreakerSettings, w: World, a: nat, nonce: int, fee: FeeFields,
                                       fetched: nat, b: Breaker)
    requires o.bumpFactor > 1.0 && WellFormed(o.mode, fee) && Coherent(c, b) && c.threshold >= 1
    ensures var r := Loop(o, c, w, a, nonce, fee, fetched, Some(b));
            r.breaker.Some? && Coherent(c, r.breaker.value) && (a <= o.maxAttempts ==> r.counted <= o.maxAttempts - a) &&
            (a > o.maxAttempts ==> r.counted == 0) &&
            r.breaker.value.failures == (if r.result.Confirmed? then 0 else b.failures + r.counted)
    decreases o.maxAttempts - a
  {
    if a + 1 < o.maxAttempts && w.outcome(a).Error? {
      var start := if IsLow(w, a) then FetchStart(o, w, fetched) else Fresh(nonce, fee);
      if start.Fresh? {
        if IsLow(w, a) {
          LoopBreaker(o, c, w, a + 1, start.nonce, start.fee, fetched + 1, b);
        } else {
          LoopBreaker(o, c, w, a + 1, nonce, BumpFee(o.mode, fee, Milli(o.bumpFactor)), fetched, Failed(c, b, w.clock(a)));
        }
      }
    }
  }

  /**
   One send, whatever the cooldown: while the breaker refuses, nothing happens; otherwise the count grows by
   at most the attempts, and from a closed breaker it ends below threshold + maxAttempts.
   */
  lemma SendBreaker(o: Options, c: BreakerSettings, w: World, b: Breaker)
    requires Coherent(c, b) && c.threshold >= 1
    ensures var r := Send(o, c, w, Some(b));
            r.breaker.Some? && Coherent(c, r.breaker.value) &&
            (!Passes(c, b, w.gate) || o.maxAttempts < 1 ==> r.subs == [] && r.breaker.value == b) &&
            (o.maxAttempts >= 1 ==> r.breaker.value.failures <= b.failures + o.maxAttempts) &&
            (b.openedAt.None? && o.maxAttempts >= 1 ==> r.breaker.value.failures <= c.threshold - 1 + o.maxAttempts)
  {
    var start := FetchStart(o, w, 0);
    if o.bumpFactor > 1.0 && o.maxAttempts >= 1 && start.Fresh? {
      LoopBreaker(o, c, w, 0, start.nonce, start.fee, 1, b);
    }
  }

  /** A send as a caller requests it. */
  datatype Request = Request(options: Options, world: World)

  /** The breaker after one request. */
  function After(c: BreakerSettings, b: Breaker, q: Request): Breaker
  {
    var r := Send(q.options, c, q.world, Some(b));
    if r.breaker.Some? then r.breaker.value else b
  }

  /** The shared breaker after each request in turn. */
  function SendAll(c: BreakerSettings, b: Breaker, reqs: seq<Request>): Breaker
    decreases |reqs|
  {
    if reqs == [] then b else SendAll(c, After(c, b, reqs[0]), reqs[1..])
  }

  /** How many requests are let through although the breaker has tripped, its cooldown being over. */
  function Trials(c: BreakerSettings, b: Breaker, reqs: seq<Request>): nat
    decreases |reqs|
  {
    if reqs == [] then 0
    else (if b.openedAt.Some? && Passes(c, b, reqs[0].world.gate) then 1 else 0)
         + Trials(c, After(c, b, reqs[0]), reqs[1..])
  }

  /** The bound on the failures when `k` requests were let through a tripped breaker. */
  function Bound(c: BreakerSettings, m: nat, k: nat): int { c.threshold - 1 + m * (k + 1) }

  lemma BoundGrows(c: BreakerSettings, m: nat, k: nat)
    ensures Bound(c, m, k + 1) == Bound(c, m, k) + m && Bound(c, m, 0) == c.threshold - 1 + m
    ensures Bound(c, m, k) >= c.threshold - 1 + m
  {
    Scaled(m, 1, k + 1);
  }

  lemma {:induction false} FailuresWithin(c: BreakerSettings, b: Breaker, reqs: seq<Request>, m: nat, k: nat)
    requires c.threshold >= 1 && Coherent(c, b) && b.failures <= Bound(c, m, k)
    requires forall i :: 0 <= i < |reqs| ==> reqs[i].options.maxAttempts <= m
    ensures SendAll(c, b, reqs).failures <= Bound(c, m, k + Trials(c, b, reqs)) && Coherent(c, SendAll(c, b, reqs))
    decreases |reqs|
  {
    if reqs != [] {
      SendBreaker(reqs[0].options, c, reqs[0].world, b);
      BoundGrows(c, m, k);
      var trial := if b.openedAt.Some? && Passes(c, b, reqs[0].world.gate) then 1 else 0;
      FailuresWithin(c, After(c, b, reqs[0]), reqs[1..], m, k + trial);
    }
  }

  /**
   MAIN: over any sequence of sends sharing a breaker, the failures counted since the last success never
   exceed threshold - 1 + m, where m bounds the attempts of every request, plus another m for each request
   that a cooldown let through the tripped breaker; with zero cooldown there is none.
   */
  lemma FailuresBounded(c: BreakerSettings, b: Breaker, reqs: seq<Request>, m: nat)
    requires c.threshold >= 1 && Coherent(c, b) && b.failures <= c.threshold - 1 + m
    requires forall i :: 0 <= i < |reqs| ==> reqs[i].options.maxAttempts <= m
    ensures SendAll(c, b, reqs).failures <= c.threshold - 1 + m * (Trials(c, b, reqs) + 1)
    ensures c.cooldown <= 0 ==> Trials(c, b, reqs) == 0 && SendAll(c, b, reqs).failures <= c.threshold - 1 + m
  {
    BoundGrows(c, m, 0);
    FailuresWithin(c, b, reqs, m, 0);
    if c.cooldown <= 0 { NoTrials(c, b, reqs); }
  }

  lemma {:induction false} NoTrials(c: BreakerSettings, b: Breaker, reqs: seq<Request>)
    requires c.cooldown <= 0
    ensures Trials(c, b, reqs) == 0
    decreases |reqs|
  {
    if reqs != [] { NoTrials(c, After(c, b, reqs[0]), reqs[1..]); }
  }

  /** A request that would submit something through a closed breaker. */
  predicate Ready(o: Options, w: World)
  {
    o.bumpFactor > 1.0 && o.maxAttempts >= 1 && !o.alreadySent && FetchEnds(o, w, 0).None?
  }

  lemma {:induction false} StaysTripped(c: BreakerSettings, b: Breaker, reqs: seq<Request>)
    requires c.threshold >= 1 && Coherent(c, b)
    requires forall j :: 0 <= j < |reqs| ==> !Passes(c, b, reqs[j].world.gate)
    ensures SendAll(c, b, reqs) == b
    decreases |reqs|
  {
    if reqs != [] {
      SendBreaker(reqs[0].options, c, reqs[0].world, b);
      StaysTripped(c, b, reqs[1..]);
    }
  }

  /**
   MAIN: once the breaker has tripped, it and its clock stay as they are until a request comes at or after the
   end of the cooldown: request `i`, earlier ones having come too soon, submits something if and only if it is
   ready and its gate reading is at least the opening time plus a positive cooldown.
   */
  lemma NothingAfterOpen(c: BreakerSettings, b: Breaker, reqs: seq<Request>, i: nat)
    requires c.threshold >= 1 && Coherent(c, b) && b.openedAt.Some? && i < |reqs|
    requires forall j :: 0 <= j < i ==> c.cooldown <= 0 || reqs[j].world.gate < b.openedAt.value + c.cooldown
    ensures SendAll(c, b, reqs[..i]) == b
    ensures Send(reqs[i].options, c, reqs[i].world, Some(b)).subs != [] <==>
            Ready(reqs[i].options, reqs[i].world) &&
            c.cooldown > 0 && reqs[i].world.gate >= b.openedAt.value + c.cooldown
  {
    StaysTripped(c, b, reqs[..i]);
    SubmitsWhen(reqs[i].options, c, reqs[i].world, Some(b));
  }

  // ------------------------------------------------- submitting through a tripped breaker

  /** Failures recorded by the `i` attempts from attempt `a` on, none of which ended the send. */
  function CountedBefore(w: World, a: nat, i: nat): int { i - (LowCount(w, a + i) - LowCount(w, a)) }

  ghost predicate TrippedFrom(c: BreakerSettings, w: World, a: nat, failures: nat, subs: seq<Submission>)
  {
    forall i :: 0 <= i < |subs| ==> (subs[i].tripped <==> failures + CountedBefore(w, a, i) >= c.threshold)
  }

  lemma TrippedNext(c: BreakerSettings, w: World, a: nat, failures: nat, sub: Submission, rest: seq<Submission>)
    requires sub.tripped <==> failures >= c.threshold
    requires TrippedFrom(c, w, a + 1, failures + if IsLow(w, a) then 0 else 1, rest)
    ensures TrippedFrom(c, w, a, failures, [sub] + rest)
  {
    var all := [sub] + rest;
    forall i | 0 <= i < |all| ensures all[i].tripped <==> failures + CountedBefore(w, a, i) >= c.threshold {
      if i > 0 {
        var j := i - 1;
        assert a + 1 + j == a + i && all[i] == rest[j];
        assert LowCount(w, a + 1) == LowCount(w, a) + if IsLow(w, a) then 1 else 0;
      }
    }
  }

  lemma {:induction false} LoopTripped(o: Options, c: BreakerSettings, w: World, a: nat, nonce: int, fee: FeeFields,
                                       fetched: nat, b: Breaker)
    requires o.bumpFactor > 1.0 && a < o.maxAttempts && WellFormed(o.mode, fee) && Coherent(c, b)
    requires fetched == LowCount(w, a) + 1
    ensures TrippedFrom(c, w, a, b.failures, Loop(o, c, w, a, nonce, fee, fetched, Some(b)).subs)
    decreases o.maxAttempts - a
  {
    if Ending(o, w, a).Some? {
      LoopEnds(o, c, w, a, nonce, fee, fetched, Some(b));
    } else {
      LoopGoesOn(o, c, w, a, nonce, fee, fetched, Some(b));
      var start := if IsLow(w, a) then FetchStart(o, w, fetched) else Fresh(nonce, BumpFee(o.mode, fee, Milli(o.bumpFactor)));
      var b' := if IsLow(w, a) then b else Failed(c, b, w.clock(a));
      var f := fetched + if IsLow(w, a) then 1 else 0;
      LoopTripped(o, c, w, a + 1, start.nonce, start.fee, f, b');
      TrippedNext(c, w, a, b.failures, Submission(nonce, fee, a + 1, Tripped(Some(b))),
                  Loop(o, c, w, a + 1, start.nonce, start.fee, f, Some(b')).subs);
    }
  }

  /**
   MAIN: the sender looks at its breaker once, before the first attempt; submission `i` of a send goes through
   a breaker that has tripped if and only if the count at the start plus the failures of the `i` attempts
   before it, nonce refreshes not counted, has reached the threshold.
   */
  lemma SubmitsThroughTripped(o: Options, c: BreakerSettings, w: World, b: Breaker, i: nat)
    requires Coherent(c, b) && i < |Send(o, c, w, Some(b)).subs|
    ensures Send(o, c, w, Some(b)).subs[i].tripped <==> b.failures + i - LowCount(w, i) >= c.threshold
  {
    var start := FetchStart(o, w, 0);
    SubmitsWhen(o, c, w, Some(b));
    LoopTripped(o, c, w, 0, start.nonce, start.fee, 1, b);
    assert CountedBefore(w, 0, i) == i - LowCount(w, 0 + i);
  }

  /** The bound is attained: the loop does not look at the breaker again, so a send that starts closed may use all its attempts. */
  lemma {:induction false} AllFailing(o: Options, c: BreakerSettings, w: World, a: nat, nonce: int, fee: FeeFields,
                                      fetched: nat, b: Breaker)
    requires o.bumpFactor > 1.0 && WellFormed(o.mode, fee) && a < o.maxAttempts
    requires forall i: nat :: w.outcome(i) == Error(false, true)
    ensures var r := Loop(o, c, w, a, nonce, fee, fetched, Some(b));
            r.counted == o.maxAttempts - a && r.breaker.Some? && r.breaker.value.failures == b.failures + r.counted
    decreases o.maxAttempts - a
  {
    if a + 1 < o.maxAttempts {
      AllFailing(o, c, w, a + 1, nonce, BumpFee(o.mode, fee, Milli(o.bumpFactor)), fetched, Failed(c, b, w.clock(a)));
    }
  }

  lemma BoundAttained(o: Options, c: BreakerSettings, w: World, b: Breaker)
    requires o.bumpFactor > 1.0 && o.maxAttempts >= 1 && !o.alreadySent && FetchEnds(o, w, 0).None?
    requires c.threshold >= 1 && b == Breaker(c.threshold - 1, None)
    requires forall i: nat :: w.outcome(i) == Error(false, true)
    ensures var r := Send(o, c, w, Some(b));
            r.breaker.Some? && r.breaker.value.failures == c.threshold - 1 + o.maxAttempts
  {
    var start := FetchStart(o, w, 0);
    StartIsFetched(o, w, 0, 0);
    AllFailing(o, c, w, 0, start.nonce, start.fee, 1, b);
  }
}
