/** The node's rate limiter: one bucket per identity, an optional node-wide bucket behind
    them, and a sweeper that drops idle buckets. */
module RateLimiter {
  import opened Wrappers
  import opened TokenBucket

  datatype Config = Config(
    enabled: bool,
    authenticated: Tier,
    anonymous: Tier,
    global: Tier,
    globalEnabled: bool,
    idleTtl: real
  )

  predicate Usable(cfg: Config)
  {
    Sane(cfg.authenticated) && Sane(cfg.anonymous) && Sane(cfg.global) && 0.0 <= cfg.idleTtl
  }

  function DefaultConfig(): (cfg: Config)
    ensures Usable(cfg) && Forgettable(cfg, cfg.authenticated) && Forgettable(cfg, cfg.anonymous)
  {
    Config(true, Tier(50.0, 100.0), Tier(10.0, 20.0), Tier(5000.0, 10000.0), true, 300.0)
  }

  /** A bucket of this tier is full again by the time it may be evicted. */
  predicate Forgettable(cfg: Config, tier: Tier)
  {
    tier.burst <= cfg.idleTtl * tier.rate
  }

  // ---------------------------------------------------------------- identities

  /** Who asks: a verified user, or the peer address of anonymous traffic. */
  datatype Identity = Identity(user: string, peer: string)

  function BucketKey(id: Identity): (key: string)
  {
    if id.user != "" then "u:" + id.user
    else "ip:" + (if id.peer == "" then "unknown" else id.peer)
  }

  function TierOf(cfg: Config, id: Identity): (tier: Tier)
  {
    if id.user != "" then cfg.authenticated else cfg.anonymous
  }

  /** Two callers share a bucket exactly when they are the same verified user, or are
      both anonymous from the same address; then they share the tier as well. */
  lemma BucketsSeparate(cfg: Config, a: Identity, b: Identity)
    ensures BucketKey(a) == BucketKey(b) <==>
              || (a.user != "" && a.user == b.user)
              || (a.user == "" && b.user == "" &&
                  (if a.peer == "" then "unknown" else a.peer) == (if b.peer == "" then "unknown" else b.peer))
    ensures BucketKey(a) == BucketKey(b) ==> TierOf(cfg, a) == TierOf(cfg, b)
  {
    var x, y := BucketKey(a), BucketKey(b);
    if a.user != "" && b.user != "" {
      assert x[2..] == a.user && y[2..] == b.user;
    } else if a.user == "" && b.user == "" {
      assert x[3..] == (if a.peer == "" then "unknown" else a.peer);
      assert y[3..] == (if b.peer == "" then "unknown" else b.peer);
    } else {
      assert x[0] != y[0];
    }
  }

  // ---------------------------------------------------------------- decisions

  datatype Scope = Individual | Global

  datatype Decision = Allowed | Limited(retryAfter: real, scope: Scope)

  predicate OutOfTokens(d: Decision)
  {
    d.Limited? && d.scope.Individual?
  }

  datatype Limiter = Limiter(buckets: map<string, Tank>, global: Tank)

  function New(cfg: Config, now: real): (l: Limiter)
  {
    Limiter(map[], Fresh(cfg.global, now))
  }

  /** The identity's bucket, created full on first use. */
  function BucketOf(cfg: Config, l: Limiter, id: Identity, now: real): (b: Tank)
  {
    if BucketKey(id) in l.buckets then l.buckets[BucketKey(id)] else Fresh(TierOf(cfg, id), now)
  }

  predicate Sound(l: Limiter)
  {
    Valid(l.global) && forall k :: k in l.buckets ==> Valid(l.buckets[k])
  }

  function Decide(cfg: Config, l: Limiter, id: Identity, now: real): (d: Decision)
    requires Usable(cfg) && Sound(l)
  {
    var b := BucketOf(cfg, l, id, now);
    if !cfg.enabled then Allowed
    else if !Admits(b, now) then Limited(RetryAfter(b, now), Individual)
    else if cfg.globalEnabled && !Admits(l.global, now) then Limited(RetryAfter(l.global, now), Global)
    else Allowed
  }

  /** The identity's bucket is charged first, so a request the node-wide bucket rejects
      has still spent its identity's token. */
  function AfterCheck(cfg: Config, l: Limiter, id: Identity, now: real): (l': Limiter)
    requires Usable(cfg) && Sound(l)
    ensures Sound(l')
  {
    var b := BucketOf(cfg, l, id, now);
    if !cfg.enabled then l
    else
      Limiter(l.buckets[BucketKey(id) := AfterAttempt(b, now)],
              if Admits(b, now) && cfg.globalEnabled then AfterAttempt(l.global, now) else l.global)
  }

  function AfterEvict(cfg: Config, l: Limiter, now: real): (l': Limiter)
    requires Sound(l)
    ensures Sound(l')
  {
    l.(buckets := map k | k in l.buckets && !Idle(cfg, l.buckets[k], now) :: l.buckets[k])
  }

  predicate Idle(cfg: Config, b: Tank, now: real)
  {
    cfg.idleTtl <= (if b.lastSeen < now then now - b.lastSeen else 0.0)
  }

  class Service {
    const cfg: Config
    var buckets: map<string, Tank>
    var global: Tank
    var allowed: nat
    var limitedIdentity: nat

    constructor (cfg: Config, now: real)
      requires Usable(cfg)
      ensures this.cfg == cfg && Contents() == New(cfg, now) && Sound(Contents())
      ensures allowed == 0 && limitedIdentity == 0
    {
      this.cfg := cfg;
      buckets, global := map[], Fresh(cfg.global, now);
      allowed, limitedIdentity := 0, 0;
    }

    function Contents(): (l: Limiter)
      reads this
    {
      Limiter(buckets, global)
    }

    method CheckAt(id: Identity, now: real) returns (decision: Decision)
      requires Usable(cfg) && Sound(Contents())
      modifies this
      ensures decision == Decide(cfg, old(Contents()), id, now)
      ensures Contents() == AfterCheck(cfg, old(Contents()), id, now) && Sound(Contents())
      ensures cfg.enabled ==> allowed == old(allowed) + (if decision.Allowed? then 1 else 0)
      ensures limitedIdentity == old(limitedIdentity) + (if OutOfTokens(decision) then 1 else 0)
    {
      hide Balance, AfterAttempt, RetryAfter, BucketKey;
      if !cfg.enabled {
        return Allowed;
      }
      var key := BucketKey(id);
      var entry: Bucket;
      if key in buckets {
        entry := new Bucket.From(buckets[key]);
      } else {
        entry := new Bucket(TierOf(cfg, id), now);
      }
      var own := entry.TryAcquire(now);
      buckets := buckets[key := entry.Fields()];
      if own.Err? {
        limitedIdentity := limitedIdentity + 1;
        return Limited(own.error, Individual);
      }
      if cfg.globalEnabled {
        var shared := new Bucket.From(global);
        var all := shared.TryAcquire(now);
        global := shared.Fields();
        if all.Err? {
          return Limited(all.error, Global);
        }
      }
      allowed := allowed + 1;
      decision := Allowed;
    }

    method EvictIdle(now: real)
      requires Sound(Contents())
      modifies this`buckets
      ensures Contents() == AfterEvict(cfg, old(Contents()), now) && Sound(Contents())
    {
      buckets := map k | k in buckets && !Idle(cfg, buckets[k], now) :: buckets[k];
    }
  }

  // ---------------------------------------------------------------- levels

  /** The limiter has only been used at times up to `now`. */
  ghost predicate SeenBy(cfg: Config, l: Limiter, now: real)
  {
    && Sound(l) && l.global.lastRefill <= now && l.global.tier == cfg.global
    && (forall k :: k in l.buckets ==> l.buckets[k].lastRefill == l.buckets[k].lastSeen <= now)
    && (forall id: Identity :: BucketKey(id) in l.buckets ==> l.buckets[BucketKey(id)].tier == TierOf(cfg, id))
  }

  /** The tokens an identity has at `now`. */
  function Level(cfg: Config, l: Limiter, id: Identity, now: real): (tokens: real)
  {
    Balance(BucketOf(cfg, l, id, now), now)
  }

  lemma FullStaysFull(tier: Tier, elapsed: real)
    requires Sane(tier) && 0.0 <= elapsed
    ensures Min(tier.burst + elapsed * tier.rate, tier.burst) == tier.burst
  {
    RefillAtLeastZero(elapsed, tier.rate);
  }

  lemma LevelLater(cfg: Config, l: Limiter, id: Identity, now: real, t: real)
    requires Usable(cfg) && SeenBy(cfg, l, now) && now <= t
    ensures Level(cfg, l, id, t) == Min(Level(cfg, l, id, now) + (t - now) * TierOf(cfg, id).rate, TierOf(cfg, id).burst)
  {
    hide Balance;
    var tier := TierOf(cfg, id);
    if BucketKey(id) in l.buckets {
      var b := l.buckets[BucketKey(id)];
      assert b.tier == tier && Level(cfg, l, id, now) == Balance(b, now) && Level(cfg, l, id, t) == Balance(b, t);
      BalanceLater(b, now, t);
    } else {
      assert Level(cfg, l, id, now) == tier.burst && Level(cfg, l, id, t) == tier.burst;
      FullStaysFull(tier, t - now);
    }
  }

  /** A check charges the caller's own bucket by the token it was given, and no other's; and
      the node-wide one exactly if it is allowed. */
  lemma CheckLevels(cfg: Config, l: Limiter, id: Identity, now: real, other: Identity)
    requires Usable(cfg) && cfg.enabled && SeenBy(cfg, l, now)
    ensures SeenBy(cfg, AfterCheck(cfg, l, id, now), now)
    ensures var spent := BucketKey(other) == BucketKey(id) && 1.0 <= Level(cfg, l, id, now);
            Level(cfg, AfterCheck(cfg, l, id, now), other, now) == Level(cfg, l, other, now) - (if spent then 1.0 else 0.0)
    ensures OutOfTokens(Decide(cfg, l, id, now)) <==> Level(cfg, l, id, now) < 1.0
    ensures var spent := cfg.globalEnabled && Decide(cfg, l, id, now).Allowed?;
            Balance(AfterCheck(cfg, l, id, now).global, now) == Balance(l.global, now) - (if spent then 1.0 else 0.0)
  {
    var l' := AfterCheck(cfg, l, id, now);
    BucketsSeparate(cfg, id, other);
    AttemptBalance(BucketOf(cfg, l, id, now), now);
    AttemptBalance(l.global, now);
    forall x: Identity | BucketKey(x) in l'.buckets
      ensures l'.buckets[BucketKey(x)].tier == TierOf(cfg, x)
    {
      BucketsSeparate(cfg, id, x);
    }
  }

  /** What a rejected caller is told: which bucket was out of tokens, the caller's own being
      asked first, and how long that bucket takes to have one again, an hour at most. */
  lemma RejectionMeans(cfg: Config, l: Limiter, id: Identity, now: real)
    requires Usable(cfg) && cfg.enabled && SeenBy(cfg, l, now)
    ensures var d, own, all := Decide(cfg, l, id, now), Level(cfg, l, id, now), Balance(l.global, now);
            && (d.Allowed? <==> 1.0 <= own && (cfg.globalEnabled ==> 1.0 <= all))
            && (d.Limited? ==>
                  var (missing, rate) := if own < 1.0 then (1.0 - own, if id.user != "" then cfg.authenticated.rate else cfg.anonymous.rate)
                                         else (1.0 - all, cfg.global.rate);
                  && (d.scope.Individual? <==> own < 1.0)
                  && d.retryAfter == (if missing / rate <= 3600.0 then missing / rate else 3600.0))
  {
    hide Balance;
  }
}
