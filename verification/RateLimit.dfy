/**
 The sliding-window rate limiter: a pruned per-key index of admitted hits, proved to decide exactly
 like a limiter that forgets nothing, and what follows for windows and for waiting clients.
 */
module RateLimit {
  import opened Text

  datatype Config = Config(limit: int, windowMs: int)

  predicate ValidConfig(c: Config) { c.limit >= 1 && c.windowMs > 0 }

  datatype Decision = Decision(allowed: bool, remaining: int, resetAt: int)

  /** Admitted hits per key, oldest first. */
  type Hits = map<string, seq<int>>

  function Times(h: Hits, key: string): seq<int> { if key in h then h[key] else [] }

  /** The hits later than the cutoff. */
  function Recent(times: seq<int>, cutoff: int): seq<int>
  {
    if times == [] then []
    else (if times[0] > cutoff then [times[0]] else []) + Recent(times[1..], cutoff)
  }

  /** The decision on a check at `ts`, given the hits still in the window. */
  function DecisionOn(c: Config, recent: seq<int>, ts: int): Decision
  {
    if |recent| >= c.limit then Decision(false, 0, (if recent == [] then ts else recent[0]) + c.windowMs)
    else Decision(true, c.limit - (|recent| + 1), (recent + [ts])[0] + c.windowMs)
  }

  // ---------------------------------------------------------------- the index

  function Decide(c: Config, h: Hits, key: string, ts: int): Decision
  {
    DecisionOn(c, Recent(Times(h, key), ts - c.windowMs), ts)
  }

  /** The index after a check: the key's list is pruned, and extended when the hit is admitted. */
  function CheckHits(c: Config, h: Hits, key: string, ts: int): Hits
  {
    var recent := Recent(Times(h, key), ts - c.windowMs);
    h[key := if Decide(c, h, key, ts).allowed then recent + [ts] else recent]
  }

  /** The index after a sweep: every list is pruned, empty ones are dropped. */
  function SweepHits(c: Config, h: Hits, ts: int): Hits
  {
    map k | k in h && Recent(h[k], ts - c.windowMs) != [] :: Recent(h[k], ts - c.windowMs)
  }

  /** The index when only the keys in `done` have been pruned. */
  function SweptSome(h: Hits, cutoff: int, done: set<string>): Hits
  {
    map k | k in h && (k in done ==> Recent(h[k], cutoff) != []) :: if k in done then Recent(h[k], cutoff) else h[k]
  }

  lemma SweepOne(h: Hits, cutoff: int, done: set<string>, key: string)
    requires key in h && key !in done
    ensures key in SweptSome(h, cutoff, done) && SweptSome(h, cutoff, done)[key] == h[key]
    ensures Recent(h[key], cutoff) == [] ==>
              SweptSome(h, cutoff, done + {key}) == SweptSome(h, cutoff, done) - {key}
    ensures Recent(h[key], cutoff) != [] ==>
              SweptSome(h, cutoff, done + {key}) == SweptSome(h, cutoff, done)[key := Recent(h[key], cutoff)]
  {
  }

  lemma SweepEnds(c: Config, h: Hits, ts: int)
    ensures SweptSome(h, ts - c.windowMs, {}) == h
    ensures SweptSome(h, ts - c.windowMs, h.Keys) == SweepHits(c, h, ts)
  {
  }

  class SlidingWindowRateLimiter {
    const config: Config
    var hits: Hits

    constructor (config: Config)
      requires ValidConfig(config)
      ensures this.config == config && hits == map[]
    {
      this.config := config;
      hits := map[];
    }

    /** Construction as the source does it, refusing a bad configuration. */
    static method Create(config: Config) returns (limiter: Option<SlidingWindowRateLimiter>)
      ensures limiter.Some? <==> ValidConfig(config)
      ensures limiter.Some? ==> fresh(limiter.value) && limiter.value.config == config && limiter.value.hits == map[]
    {
      if config.limit < 1 || config.windowMs <= 0 { return None; }
      var l := new SlidingWindowRateLimiter(config);
      limiter := Some(l);
    }

    /** `ts` is the clock reading taken by the call. */
    method Check(key: string, ts: int) returns (d: Decision)
      modifies this
      ensures d == Decide(config, old(hits), key, ts)
      ensures hits == CheckHits(config, old(hits), key, ts)
    {
      var cutoff := ts - config.windowMs;
      var recent := Recent(Times(hits, key), cutoff);
      if |recent| >= config.limit {
        hits := hits[key := recent];
        var oldest := if recent == [] then ts else recent[0];
        return Decision(false, 0, oldest + config.windowMs);
      }
      recent := recent + [ts];
      hits := hits[key := recent];
      d := Decision(true, config.limit - |recent|, recent[0] + config.windowMs);
    }

    method Reset(key: string)
      modifies this
      ensures hits == old(hits) - {key}
    {
      hits := hits - {key};
    }

    /** The sweep visits every key once, in any order. */
    method Sweep(ts: int)
      modifies this
      ensures hits == SweepHits(config, old(hits), ts)
    {
      var cutoff := ts - config.windowMs;
      ghost var start, done := hits, {};
      var todo := hits.Keys;
      SweepEnds(config, start, ts);
      while todo != {}
        invariant done + todo == start.Keys && done !! todo
        invariant hits == SweptSome(start, cutoff, done)
        decreases |todo|
      {
        var key :| key in todo;
        SweepOne(start, cutoff, done, key);
        var recent := Recent(hits[key], cutoff);
        if |recent| == 0 { hits := hits - {key}; } else { hits := hits[key := recent]; }
        todo, done := todo - {key}, done + {key};
      }
      assert done == start.Keys;
    }
  }

  // ---------------------------------------------------------------- runs

  datatype Event = Check(key: string, ts: int) | Sweep(ts: int) | Reset(key: string)

  function Step(c: Config, h: Hits, e: Event): Hits
  {
    match e
    case Check(key, ts) => CheckHits(c, h, key, ts)
    case Sweep(ts) => SweepHits(c, h, ts)
    case Reset(key) => h - {key}
  }

  function After(c: Config, es: seq<Event>): Hits
  {
    if es == [] then map[] else Step(c, After(c, es[..|es| - 1]), es[|es| - 1])
  }

  /** The limiter that keeps every admitted hit since the key was last reset. */
  function LogStep(c: Config, log: Hits, e: Event): Hits
  {
    match e
    case Check(key, ts) => if Decide(c, log, key, ts).allowed then log[key := Times(log, key) + [ts]] else log
    case Sweep(_) => log
    case Reset(key) => log - {key}
  }

  function Log(c: Config, es: seq<Event>): Hits
  {
    if es == [] then map[] else LogStep(c, Log(c, es[..|es| - 1]), es[|es| - 1])
  }

  /** The clock never goes back. */
  ghost predicate Monotone(es: seq<Event>)
  {
    forall i, j :: 0 <= i < j < |es| && !es[i].Reset? && !es[j].Reset? ==> es[i].ts <= es[j].ts
  }

  /** `now` is no earlier than any clock reading so far. */
  ghost predicate NotBefore(now: int, es: seq<Event>)
  {
    forall i :: 0 <= i < |es| && !es[i].Reset? ==> es[i].ts <= now
  }

  // -------------------------------------------------------- facts about Recent

  lemma {:induction false} RecentConcat(a: seq<int>, b: seq<int>, cutoff: int)
    ensures Recent(a + b, cutoff) == Recent(a, cutoff) + Recent(b, cutoff)
  {
    if a == [] {
      assert a + b == b;
    } else {
      assert (a + b)[1..] == a[1..] + b;
      RecentConcat(a[1..], b, cutoff);
    }
  }

  /** Pruning early and filtering later is filtering later. */
  lemma {:induction false} RecentTwice(a: seq<int>, c: int, d: int)
    requires c <= d
    ensures Recent(Recent(a, c), d) == Recent(a, d)
  {
    if a != [] {
      RecentTwice(a[1..], c, d);
      RecentConcat(if a[0] > c then [a[0]] else [], Recent(a[1..], c), d);
    }
  }

  ghost predicate Ordered(a: seq<int>)
  {
    forall i, j :: 0 <= i < j < |a| ==> a[i] <= a[j]
  }

  lemma {:induction false} RecentNone(a: seq<int>, cutoff: int)
    requires forall i :: 0 <= i < |a| ==> a[i] <= cutoff
    ensures Recent(a, cutoff) == []
  {
    if a != [] { RecentNone(a[1..], cutoff); }
  }

  lemma {:induction false} RecentAll(a: seq<int>, cutoff: int)
    requires forall i :: 0 <= i < |a| ==> a[i] > cutoff
    ensures Recent(a, cutoff) == a
  {
    if a != [] {
      RecentAll(a[1..], cutoff);
      assert a == [a[0]] + a[1..];
    }
  }

  /** In an ordered list the recent hits are a suffix. */
  lemma RecentIsSuffix(a: seq<int>, cutoff: int, m: nat)
    requires Ordered(a) && m <= |a|
    requires (m == 0 || a[m - 1] <= cutoff) && (m == |a| || a[m] > cutoff)
    ensures Recent(a, cutoff) == a[m..]
  {
    assert a == a[..m] + a[m..];
    RecentConcat(a[..m], a[m..], cutoff);
    RecentNone(a[..m], cutoff);
    RecentAll(a[m..], cutoff);
  }

  /** Where the recent suffix begins. */
  lemma {:induction false} SuffixStart(a: seq<int>, cutoff: int) returns (m: nat)
    requires Ordered(a)
    ensures m <= |a| && (m == 0 || a[m - 1] <= cutoff) && (m == |a| || a[m] > cutoff)
    ensures Recent(a, cutoff) == a[m..]
  {
    m := |a|;
    while m > 0 && a[m - 1] > cutoff
      invariant m <= |a| && (m == |a| || a[m] > cutoff)
    {
      m := m - 1;
    }
    RecentIsSuffix(a, cutoff, m);
  }

  // ----------------------------------------- pruning never changes a decision

  /** From `now` on, the index and the full log show the same hits in the window. */
  ghost predicate Agree(c: Config, h: Hits, log: Hits, now: int)
  {
    forall k, cutoff :: cutoff >= now - c.windowMs ==> Recent(Times(h, k), cutoff) == Recent(Times(log, k), cutoff)
  }

  lemma AgreeCheck(c: Config, h: Hits, log: Hits, now: int, key: string, ts: int)
    requires Agree(c, h, log, now) && now <= ts
    ensures Agree(c, CheckHits(c, h, key, ts), LogStep(c, log, Check(key, ts)), ts)
  {
    var cut := ts - c.windowMs;
    assert Recent(Times(h, key), cut) == Recent(Times(log, key), cut);
    var h', log' := CheckHits(c, h, key, ts), LogStep(c, log, Check(key, ts));
    forall k, cutoff | cutoff >= cut ensures Recent(Times(h', k), cutoff) == Recent(Times(log', k), cutoff) {
      assert Recent(Times(h, k), cutoff) == Recent(Times(log, k), cutoff);
      if k == key {
        RecentTwice(Times(h, k), cut, cutoff);
        RecentConcat(Recent(Times(h, k), cut), [ts], cutoff);
        RecentConcat(Times(log, k), [ts], cutoff);
      }
    }
  }

  lemma SweepPrunes(c: Config, h: Hits, ts: int, k: string)
    ensures Times(SweepHits(c, h, ts), k) == Recent(Times(h, k), ts - c.windowMs)
  {
  }

  lemma AgreeSweep(c: Config, h: Hits, log: Hits, now: int, ts: int)
    requires Agree(c, h, log, now) && now <= ts
    ensures Agree(c, SweepHits(c, h, ts), log, ts)
  {
    var h' := SweepHits(c, h, ts);
    forall k, cutoff | cutoff >= ts - c.windowMs ensures Recent(Times(h', k), cutoff) == Recent(Times(log, k), cutoff) {
      SweepPrunes(c, h, ts, k);
      RecentTwice(Times(h, k), ts - c.windowMs, cutoff);
      assert Recent(Times(h, k), cutoff) == Recent(Times(log, k), cutoff);
    }
  }

  lemma {:induction false} RunsAgree(c: Config, es: seq<Event>, now: int)
    requires ValidConfig(c) && Monotone(es) && NotBefore(now, es)
    ensures Agree(c, After(c, es), Log(c, es), now)
    decreases |es|
  {
    if es != [] {
      var before, e := es[..|es| - 1], es[|es| - 1];
      assert forall i :: 0 <= i < |before| ==> before[i] == es[i];
      match e
      case Check(key, ts) =>
        RunsAgree(c, before, ts);
        AgreeCheck(c, After(c, before), Log(c, before), ts, key, ts);
      case Sweep(ts) =>
        RunsAgree(c, before, ts);
        AgreeSweep(c, After(c, before), Log(c, before), ts, ts);
      case Reset(key) =>
        RunsAgree(c, before, now);
        AgreeReset(c, After(c, before), Log(c, before), now, key);
    }
  }

  lemma AgreeReset(c: Config, h: Hits, log: Hits, now: int, key: string)
    requires Agree(c, h, log, now)
    ensures Agree(c, h - {key}, log - {key}, now)
  {
    forall k, cutoff | cutoff >= now - c.windowMs
      ensures Recent(Times(h - {key}, k), cutoff) == Recent(Times(log - {key}, k), cutoff)
    {
      assert Recent(Times(h, k), cutoff) == Recent(Times(log, k), cutoff);
    }
  }

  /**
   MAIN: over any interleaving of checks, sweeps and resets with a clock that does not go back, every
   decision (permission, remaining count and reset time) is that of the limiter with full history.
   */
  lemma PruningIsInvisible(c: Config, es: seq<Event>, key: string, ts: int)
    requires ValidConfig(c) && Monotone(es) && NotBefore(ts, es)
    ensures Decide(c, After(c, es), key, ts) == Decide(c, Log(c, es), key, ts)
  {
    RunsAgree(c, es, ts);
    assert Recent(Times(After(c, es), key), ts - c.windowMs) == Recent(Times(Log(c, es), key), ts - c.windowMs);
  }

  // ----------------------------------------------- no window is overfull

  /** Ordered, not later than `now`, and any `limit + 1` consecutive hits span at least a window. */
  ghost predicate Spaced(c: Config, a: seq<int>, now: int)
  {
    Ordered(a) && (forall i :: 0 <= i < |a| ==> a[i] <= now) && Gaps(c, a)
  }

  ghost predicate Gaps(c: Config, a: seq<int>)
  {
    forall i, j :: 0 <= i < j < |a| && j == i + c.limit ==> a[i] + c.windowMs <= a[j]
  }

  lemma OrderedAt(a: seq<int>, i: int, j: int)
    requires Ordered(a) && 0 <= i <= j < |a|
    ensures a[i] <= a[j]
  {
  }

  lemma SpacedAt(c: Config, a: seq<int>, now: int, i: int)
    requires ValidConfig(c) && Spaced(c, a, now) && 0 <= i && i + c.limit < |a|
    ensures a[i] + c.windowMs <= a[i + c.limit]
  {
  }

  /** A suffix of hits inside one window is no longer than the limit. */
  lemma SuffixBound(c: Config, a: seq<int>, now: int, t: int, m: nat)
    requires ValidConfig(c) && Spaced(c, a, now) && m < |a|
    requires t - c.windowMs < a[m] && a[|a| - 1] <= t
    ensures |a| - m <= c.limit
  {
    if |a| - m > c.limit {
      OrderedAt(a, m, |a| - 1 - c.limit);
      SpacedAt(c, a, now, |a| - 1 - c.limit);
    }
  }

  lemma OrderedAppend(a: seq<int>, ts: int)
    requires Ordered(a) && forall i :: 0 <= i < |a| ==> a[i] <= ts
    ensures Ordered(a + [ts])
  {
  }

  lemma GapsAppend(c: Config, a: seq<int>, ts: int)
    requires ValidConfig(c) && Gaps(c, a)
    requires |a| >= c.limit ==> a[|a| - c.limit] + c.windowMs <= ts
    ensures Gaps(c, a + [ts])
  {
  }

  lemma AdmissionKeepsSpaced(c: Config, a: seq<int>, now: int, ts: int)
    requires ValidConfig(c) && Spaced(c, a, now) && now <= ts
    requires |Recent(a, ts - c.windowMs)| < c.limit
    ensures Spaced(c, a + [ts], ts)
  {
    var m := SuffixStart(a, ts - c.windowMs);
    if |a| >= c.limit { OrderedAt(a, |a| - c.limit, m - 1); }
    OrderedAppend(a, ts);
    GapsAppend(c, a, ts);
  }

  lemma {:induction false} LogSpaced(c: Config, es: seq<Event>, now: int, key: string)
    requires ValidConfig(c) && Monotone(es) && NotBefore(now, es)
    ensures Spaced(c, Times(Log(c, es), key), now)
    decreases |es|
  {
    if es != [] {
      var before, e := es[..|es| - 1], es[|es| - 1];
      assert forall i :: 0 <= i < |before| ==> before[i] == es[i];
      LogSpaced(c, before, if e.Reset? then now else e.ts, key);
      if e.Check? && e.key == key && Decide(c, Log(c, before), key, e.ts).allowed {
        AdmissionKeepsSpaced(c, Times(Log(c, before), key), e.ts, e.ts);
      }
    }
  }

  /** The hits in the window (t - windowMs, t]. */
  function InWindow(c: Config, a: seq<int>, t: int): seq<int>
  {
    if a == [] then []
    else (if t - c.windowMs < a[0] <= t then [a[0]] else []) + InWindow(c, a[1..], t)
  }

  lemma {:induction false} InWindowConcat(c: Config, a: seq<int>, b: seq<int>, t: int)
    ensures InWindow(c, a + b, t) == InWindow(c, a, t) + InWindow(c, b, t)
  {
    if a == [] {
      assert a + b == b;
    } else {
      assert (a + b)[1..] == a[1..] + b;
      InWindowConcat(c, a[1..], b, t);
    }
  }

  lemma {:induction false} InWindowSmall(c: Config, a: seq<int>, t: int)
    ensures |InWindow(c, a, t)| <= |Recent(a, t - c.windowMs)|
  {
    if a != [] { InWindowSmall(c, a[1..], t); }
  }

  lemma {:induction false} SpacedWindow(c: Config, a: seq<int>, now: int, t: int)
    requires ValidConfig(c) && Spaced(c, a, now)
    ensures |InWindow(c, a, t)| <= c.limit
    decreases |a|
  {
    if a != [] {
      var n := |a|;
      if a[n - 1] > t {
        SpacedWindow(c, a[..n - 1], now, t);
        assert a == a[..n - 1] + [a[n - 1]];
        InWindowConcat(c, a[..n - 1], [a[n - 1]], t);
      } else {
        LastWindow(c, a, now, t);
      }
    }
  }

  lemma LastWindow(c: Config, a: seq<int>, now: int, t: int)
    requires ValidConfig(c) && Spaced(c, a, now) && a != [] && a[|a| - 1] <= t
    ensures |InWindow(c, a, t)| <= |Recent(a, t - c.windowMs)| <= c.limit
  {
    hide InWindow, Recent;
    var m := SuffixStart(a, t - c.windowMs);
    if m < |a| { SuffixBound(c, a, now, t, m); }
    InWindowSmall(c, a, t);
  }

  /** MAIN: whatever the run, no window of length `windowMs` holds more than `limit` admitted hits of a key. */
  lemma WindowsNeverOverfull(c: Config, es: seq<Event>, now: int, key: string, t: int)
    requires ValidConfig(c) && Monotone(es) && NotBefore(now, es)
    ensures |InWindow(c, Times(Log(c, es), key), t)| <= c.limit
  {
    LogSpaced(c, es, now, key);
    SpacedWindow(c, Times(Log(c, es), key), now, t);
  }

  /** When no hit is later than `t`, the window ending at `t` holds what pruning at `t` keeps. */
  lemma {:induction false} InWindowNow(c: Config, a: seq<int>, t: int)
    requires forall i :: 0 <= i < |a| ==> a[i] <= t
    ensures InWindow(c, a, t) == Recent(a, t - c.windowMs)
  {
    if a != [] { InWindowNow(c, a[1..], t); }
  }

  /**
   MAIN: in every run, a check is admitted exactly when its window holds fewer than `limit` admitted hits; the
   remaining count is the room left after it, and the reset time is when the oldest hit of the window,
   the new one included, leaves it.
   */
  lemma DecisionMeaning(c: Config, es: seq<Event>, key: string, ts: int)
    requires ValidConfig(c) && Monotone(es) && NotBefore(ts, es)
    ensures var d := Decide(c, After(c, es), key, ts);
            var window := InWindow(c, Times(Log(c, es), key), ts);
            (d.allowed <==> |window| < c.limit) &&
            d.remaining == c.limit - |window| - (if d.allowed then 1 else 0) &&
            d.resetAt == (if window == [] then ts else window[0]) + c.windowMs
  {
    PruningIsInvisible(c, es, key, ts);
    LogSpaced(c, es, ts, key);
    InWindowNow(c, Times(Log(c, es), key), ts);
    WindowsNeverOverfull(c, es, ts, key, ts);
  }

  // ------------------------------------------------ denied until the reset time

  /** A denial means the window holds exactly `limit` hits; the reset time is when the first expires. */
  lemma DenialShape(c: Config, a: seq<int>, ts: int) returns (m: nat)
    requires ValidConfig(c) && Spaced(c, a, ts)
    requires !DecisionOn(c, Recent(a, ts - c.windowMs), ts).allowed
    ensures m + c.limit == |a| && (m == 0 || a[m - 1] <= ts - c.windowMs) && a[m] > ts - c.windowMs
    ensures DecisionOn(c, Recent(a, ts - c.windowMs), ts).resetAt == a[m] + c.windowMs
  {
    m := SuffixStart(a, ts - c.windowMs);
    SuffixBound(c, a, ts, ts, m);
  }

  /** On a full log, a denial at `ts` fixes exactly which later times are still denied. */
  lemma DenialFixesReset(c: Config, a: seq<int>, ts: int, later: int)
    requires ValidConfig(c) && Spaced(c, a, ts) && ts <= later
    requires !DecisionOn(c, Recent(a, ts - c.windowMs), ts).allowed
    ensures var d := DecisionOn(c, Recent(a, ts - c.windowMs), ts);
            DecisionOn(c, Recent(a, later - c.windowMs), later).allowed <==> later >= d.resetAt
  {
    var m := DenialShape(c, a, ts);
    var m' := SuffixStart(a, later - c.windowMs);
    SuffixMoves(a, ts - c.windowMs, later - c.windowMs, m, m');
  }

  /** Raising the cutoff moves the suffix exactly when its first hit expires. */
  lemma SuffixMoves(a: seq<int>, cutoff: int, cutoff': int, m: nat, m': nat)
    requires Ordered(a) && cutoff <= cutoff' && m < |a| && m' <= |a|
    requires (m == 0 || a[m - 1] <= cutoff) && a[m] > cutoff
    requires (m' == 0 || a[m' - 1] <= cutoff') && (m' == |a| || a[m'] > cutoff')
    ensures m <= m' && (m' > m <==> a[m] <= cutoff')
  {
    if m' > m { OrderedAt(a, m, m' - 1); }
  }

  /** A run up to its `n`-th event. */
  lemma RunPrefix(run: seq<Event>, n: nat)
    requires Monotone(run) && n <= |run|
    ensures Monotone(run[..n])
    ensures n < |run| && !run[n].Reset? ==> NotBefore(run[n].ts, run[..n])
  {
  }

  /** Event `d` of the run is a denied check of `key`. */
  ghost predicate DeniedAt(c: Config, run: seq<Event>, d: nat, key: string)
  {
    d < |run| && run[d].Check? && run[d].key == key && !Decide(c, After(c, run[..d]), key, run[d].ts).allowed
  }

  function ResetAt(c: Config, run: seq<Event>, d: nat): int
    requires d < |run| && run[d].Check?
  {
    Decide(c, After(c, run[..d]), run[d].key, run[d].ts).resetAt
  }

  /** Strictly between events `d` and `j` the key is not reset, nor checked at or after the reset time. */
  ghost predicate QuietBetween(c: Config, run: seq<Event>, d: nat, j: nat, key: string)
    requires DeniedAt(c, run, d, key) && j <= |run|
  {
    forall i :: d < i < j ==>
      run[i] != Reset(key) && (run[i].Check? && run[i].key == key ==> run[i].ts < ResetAt(c, run, d))
  }

  /** What a check at `ts` sees on the full log as it stood at the denial. */
  lemma CheckAfterDenial(c: Config, run: seq<Event>, d: nat, key: string, log: Hits, ts: int)
    requires ValidConfig(c) && Monotone(run) && DeniedAt(c, run, d, key) && run[d].ts <= ts
    requires Times(log, key) == Times(Log(c, run[..d]), key)
    ensures Decide(c, log, key, ts).allowed <==> ts >= ResetAt(c, run, d)
  {
    RunPrefix(run, d);
    PruningIsInvisible(c, run[..d], key, run[d].ts);
    LogSpaced(c, run[..d], run[d].ts, key);
    DenialFixesReset(c, Times(log, key), run[d].ts, ts);
  }

  lemma LogPrefix(c: Config, run: seq<Event>, n: nat)
    requires n < |run|
    ensures Log(c, run[..n + 1]) == LogStep(c, Log(c, run[..n]), run[n])
  {
    assert run[..n + 1][..n] == run[..n];
  }

  /** Until a check is admitted, the key's log stays what it was at the denial. */
  lemma {:induction false} LogUnchanged(c: Config, run: seq<Event>, d: nat, n: nat, key: string)
    requires ValidConfig(c) && Monotone(run) && DeniedAt(c, run, d, key)
    requires d <= n <= |run| && QuietBetween(c, run, d, n, key)
    ensures Times(Log(c, run[..n]), key) == Times(Log(c, run[..d]), key)
    decreases n
  {
    if n > d {
      LogUnchanged(c, run, d, n - 1, key);
      LogPrefix(c, run, n - 1);
      if run[n - 1].Check? && run[n - 1].key == key {
        CheckAfterDenial(c, run, d, key, Log(c, run[..n - 1]), run[n - 1].ts);
        if n - 1 == d {
          RunPrefix(run, d);
          PruningIsInvisible(c, run[..d], key, run[d].ts);
        }
      }
    }
  }

  /**
   MAIN: after a denied check, and unless the key is reset, a check of the key is denied while the clock
   is before the reported reset time, and the first check not before it is admitted: any check `j` that
   follows only earlier-than-reset checks of the key is admitted exactly when it is not before that time.
   */
  lemma DeniedUntilReset(c: Config, run: seq<Event>, d: nat, j: nat, key: string)
    requires ValidConfig(c) && Monotone(run) && DeniedAt(c, run, d, key)
    requires d < j < |run| && run[j].Check? && run[j].key == key && QuietBetween(c, run, d, j, key)
    ensures Decide(c, After(c, run[..j]), key, run[j].ts).allowed <==> run[j].ts >= ResetAt(c, run, d)
  {
    LogUnchanged(c, run, d, j, key);
    RunPrefix(run, j);
    PruningIsInvisible(c, run[..j], key, run[j].ts);
    CheckAfterDenial(c, run, d, key, Log(c, run[..j]), run[j].ts);
  }
}
