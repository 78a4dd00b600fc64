/** The proxy guard: authentication first, then the shared limiter, and the wait it advertises. */
module ProxyGuards {
  import opened Text
  import opened Numbers
  import opened RateLimit

  /** `BadLimit` is the error raised when a new limiter is asked for with a bad configuration. */
  datatype Outcome =
    | Allowed(clientIp: string)
    | Misconfigured
    | Unauthorized
    | BadLimit
    | TooMany(retryAfterMs: int)

  /** The configured secret, and the limiting options: a configuration to look up or create a limiter for. */
  datatype Options = Options(secret: Option<string>, rateLimit: Option<Config>)

  /** The registry key of a limiter configuration: `limit|windowMs`. */
  function ConfigKey(c: Config): string { EncodeInt(c.limit) + ("|" + EncodeInt(c.windowMs)) }

  /** Distinct configurations never share a limiter. */
  lemma ConfigKeyInjective(a: Config, b: Config)
    ensures ConfigKey(a) == ConfigKey(b) <==> a == b
  {
    IntParses(a.limit, "|" + EncodeInt(a.windowMs));
    IntParses(b.limit, "|" + EncodeInt(b.windowMs));
    assert ("|" + EncodeInt(a.windowMs))[1..] == EncodeInt(a.windowMs);
    assert ("|" + EncodeInt(b.windowMs))[1..] == EncodeInt(b.windowMs);
    assert EncodeInt(a.windowMs) + "" == EncodeInt(a.windowMs) && EncodeInt(b.windowMs) + "" == EncodeInt(b.windowMs);
    IntParses(a.windowMs, "");
    IntParses(b.windowMs, "");
  }

  class ProxyGuard {
    var registry: map<string, SlidingWindowRateLimiter>

    /** Every registered limiter is stored under the key of its own configuration. */
    ghost predicate Valid()
      reads this
    {
      forall k :: k in registry ==> k == ConfigKey(registry[k].config) && ValidConfig(registry[k].config)
    }

    constructor ()
      ensures Valid() && registry == map[]
    {
      registry := map[];
    }

    /**
     The limiter of a configuration: the registered one, or a new one. `None` stands for the error the
     limiter's construction raises on a bad configuration.
     */
    method ResolveLimiter(config: Config) returns (limiter: Option<SlidingWindowRateLimiter>)
      requires Valid()
      modifies this
      ensures Valid()
      ensures limiter.Some? <==> ValidConfig(config)
      ensures limiter.Some? ==> limiter.value.config == config && ConfigKey(config) in registry
      ensures limiter.Some? ==> limiter.value == registry[ConfigKey(config)]
      ensures old(ConfigKey(config) in registry) ==> registry == old(registry)
      ensures old(ConfigKey(config) !in registry) ==>
                if limiter.Some? then
                  registry == old(registry)[ConfigKey(config) := limiter.value] &&
                  fresh(limiter.value) && limiter.value.hits == map[]
                else registry == old(registry)
    {
      var key := ConfigKey(config);
      if key in registry {
        ConfigKeyInjective(registry[key].config, config);
        return Some(registry[key]);
      }
      limiter := SlidingWindowRateLimiter.Create(config);
      if limiter.Some? { registry := registry[key := limiter.value]; }
    }

    /** The part after authentication, with the limiter in use. */
    static method CheckLimited(limiter: SlidingWindowRateLimiter, clientIp: string, ts: int, now: int) returns (o: Outcome)
      modifies limiter
      ensures limiter.hits == CheckHits(limiter.config, old(limiter.hits), clientIp, ts)
      ensures Answers(o, Decide(limiter.config, old(limiter.hits), clientIp, ts), clientIp, now)
    {
      var d := limiter.Check(clientIp, ts);
      if !d.allowed { return TooMany(if d.resetAt - now > 0 then d.resetAt - now else 0); }
      o := Allowed(clientIp);
    }

    /**
     One request. `own` is a limiter passed by the caller, which wins over a configuration; `ts` is the
     clock reading of the check and `now` the later one used for the wait.
     */
    method CheckProxyRequest(options: Options, own: SlidingWindowRateLimiter?, provided: Option<string>,
                             clientIp: string, ts: int, now: int) returns (o: Outcome)
      requires Valid()
      modifies this, own, registry.Values
      ensures Valid()
      // the secret comes first
      ensures o.Misconfigured? <==> options.secret.None? || options.secret == Some("")
      ensures o.Unauthorized? <==> options.secret.Some? && options.secret != Some("") && provided != options.secret
      // a refused caller touches nothing
      ensures o.Misconfigured? || o.Unauthorized? ==> registry == old(registry) && Untouched(old(registry.Values), own)
      // the caller's own limiter
      ensures !o.Misconfigured? && !o.Unauthorized? && own != null ==>
                registry == old(registry) && own.hits == CheckHits(own.config, old(own.hits), clientIp, ts) &&
                Answers(o, Decide(own.config, old(own.hits), clientIp, ts), clientIp, now)
      // no limiting at all
      ensures !o.Misconfigured? && !o.Unauthorized? && own == null && options.rateLimit.None? ==>
                registry == old(registry) && o == Allowed(clientIp) && Untouched(old(registry.Values), own)
      // the registered limiter of the configuration, created on first use
      ensures o.BadLimit? <==>
                !o.Misconfigured? && !o.Unauthorized? && own == null && options.rateLimit.Some? &&
                !ValidConfig(options.rateLimit.value)
      ensures o.BadLimit? ==> registry == old(registry) && Untouched(old(registry.Values), own)
      ensures !o.Misconfigured? && !o.Unauthorized? && !o.BadLimit? && own == null && options.rateLimit.Some? ==>
                var c, key := options.rateLimit.value, ConfigKey(options.rateLimit.value);
                key in registry && registry[key].config == c &&
                (forall k :: k in old(registry) ==> k in registry && registry[k] == old(registry)[k]) &&
                (forall k :: k in old(registry) && k != key ==> registry[k].hits == old(registry[k].hits))
      ensures !o.Misconfigured? && !o.Unauthorized? && !o.BadLimit? && own == null && options.rateLimit.Some? ==>
                var c, key := options.rateLimit.value, ConfigKey(options.rateLimit.value);
                var before := if old(key in registry) then old(registry[key].hits) else map[];
                registry[key].hits == CheckHits(c, before, clientIp, ts) &&
                Answers(o, Decide(c, before, clientIp, ts), clientIp, now)
    {
      hide Decide, CheckHits, Answers, ConfigKey;
      if options.secret.None? || options.secret.value == "" { return Misconfigured; }
      if provided.None? || provided.value == "" || provided.value != options.secret.value { return Unauthorized; }
      if own != null {
        o := CheckLimited(own, clientIp, ts, now);
      } else if options.rateLimit.Some? {
        var limiter := ResolveLimiter(options.rateLimit.value);
        if limiter.None? { return BadLimit; }
        o := CheckLimited(limiter.value, clientIp, ts, now);
      } else {
        o := Allowed(clientIp);
      }
    }
  }

  /** How an authenticated caller is answered: admitted exactly if the limiter admits, else told the wait left. */
  ghost predicate Answers(o: Outcome, d: Decision, clientIp: string, now: int)
  {
    (o == Allowed(clientIp) <==> d.allowed) &&
    (!d.allowed ==> o.TooMany? && o.retryAfterMs >= 0 &&
                    o.retryAfterMs == if now < d.resetAt then d.resetAt - now else 0)
  }

  /**
   MAIN: after any run of its limiter, an authenticated caller is admitted if and only if the window ending at
   the check holds fewer than `limit` of the caller's admitted requests; otherwise it is told how long, from the
   guard's clock reading, the oldest of them stays in the window.
   */
  lemma AnswerMeaning(c: Config, es: seq<Event>, clientIp: string, ts: int, now: int, o: Outcome)
    requires ValidConfig(c) && Monotone(es) && NotBefore(ts, es)
    requires Answers(o, Decide(c, After(c, es), clientIp, ts), clientIp, now)
    ensures var window := InWindow(c, Times(Log(c, es), clientIp), ts);
            (o == Allowed(clientIp) <==> |window| < c.limit) &&
            (o != Allowed(clientIp) ==> o == TooMany(WaitMs(window[0] + c.windowMs, now)))
  {
    DecisionMeaning(c, es, clientIp, ts);
  }

  /** No limiter's index changed. */
  twostate predicate Untouched(limiters: set<SlidingWindowRateLimiter>, own: SlidingWindowRateLimiter?)
    reads limiters, own
  {
    (forall l :: l in limiters ==> l.hits == old(l.hits)) && (own != null ==> own.hits == old(own.hits))
  }

  function WaitMs(resetAt: int, now: int): int { if resetAt - now > 0 then resetAt - now else 0 }

  /** The `retry-after` header: the wait in whole seconds, rounded up. */
  function RetryAfterSeconds(waitMs: int): int
    requires waitMs >= 0
  {
    (waitMs + 999) / 1000
  }

  /** Waiting the advertised seconds reaches the reset time, by less than a second if it lies ahead. */
  lemma AdvertisedWaitReaches(resetAt: int, now: int)
    ensures var reached := now + 1000 * RetryAfterSeconds(WaitMs(resetAt, now));
            resetAt <= reached && (now <= resetAt ==> reached < resetAt + 1000)
  {
  }

  /**
   MAIN: a client that was denied, waits at least the advertised number of seconds from the guard's clock
   reading `now`, and whose key saw only earlier-than-reset checks in between, is admitted.
   */
  lemma WaitingClientAdmitted(c: Config, run: seq<Event>, d: nat, j: nat, key: string, now: int)
    requires ValidConfig(c) && Monotone(run) && DeniedAt(c, run, d, key)
    requires d < j < |run| && run[j].Check? && run[j].key == key && QuietBetween(c, run, d, j, key)
    requires run[j].ts >= now + 1000 * RetryAfterSeconds(WaitMs(ResetAt(c, run, d), now))
    ensures Decide(c, After(c, run[..j]), key, run[j].ts).allowed
  {
    AdvertisedWaitReaches(ResetAt(c, run, d), now);
    DeniedUntilReset(c, run, d, j, key);
  }
}
