/** The rate limiter over whole sequences of checks and sweeps: forgetting idle buckets is
    invisible exactly when they would be full again, and admissions keep to the
    configured rate in every window. */
module RateLimiterRuns {
  import opened Wrappers
  import opened TokenBucket
  import opened RateLimiter

  datatype Event = Check(id: Identity, at: real) | Evict(at: real)

  /** The events happen at nondecreasing times, none before `from`. */
  predicate Timed(from: real, events: seq<Event>)
    decreases |events|
  {
    events == [] || (from <= events[0].at && Timed(events[0].at, events[1..]))
  }

  function After(cfg: Config, l: Limiter, e: Event): (l': Limiter)
    requires Usable(cfg) && Sound(l)
    ensures Sound(l')
  {
    match e
    case Check(id, at) => AfterCheck(cfg, l, id, at)
    case Evict(at) => AfterEvict(cfg, l, at)
  }

  function AfterAll(cfg: Config, l: Limiter, events: seq<Event>): (l': Limiter)
    requires Usable(cfg) && Sound(l)
    ensures Sound(l')
    decreases |events|
  {
    if events == [] then l else AfterAll(cfg, After(cfg, l, events[0]), events[1..])
  }

  /** The answers the checks get, in order; a sweep answers nothing. */
  function Decisions(cfg: Config, l: Limiter, events: seq<Event>): (ds: seq<Decision>)
    requires Usable(cfg) && Sound(l)
    decreases |events|
  {
    if events == [] then []
    else
      (if events[0].Check? then [RateLimiter.Decide(cfg, l, events[0].id, events[0].at)] else [])
      + Decisions(cfg, After(cfg, l, events[0]), events[1..])
  }

  /** The same calls without the sweeps. */
  function Checks(events: seq<Event>): (checks: seq<Event>)
    decreases |events|
  {
    if events == [] then []
    else (if events[0].Check? then [events[0]] else []) + Checks(events[1..])
  }

  lemma {:induction false} SplitRun(cfg: Config, l: Limiter, first: seq<Event>, rest: seq<Event>)
    requires Usable(cfg) && Sound(l)
    ensures AfterAll(cfg, l, first + rest) == AfterAll(cfg, AfterAll(cfg, l, first), rest)
    ensures Decisions(cfg, l, first + rest) == Decisions(cfg, l, first) + Decisions(cfg, AfterAll(cfg, l, first), rest)
    decreases |first|
  {
    if first == [] {
      assert first + rest == rest;
    } else {
      assert (first + rest)[1..] == first[1..] + rest;
      SplitRun(cfg, After(cfg, l, first[0]), first[1..], rest);
    }
  }

  // ---------------------------------------------------------------- sweeps are invisible

  /** Two limiters no later check can tell apart. */
  ghost predicate Alike(cfg: Config, a: Limiter, b: Limiter, now: real)
  {
    && SeenBy(cfg, a, now) && SeenBy(cfg, b, now)
    && a.global == b.global
    && forall id: Identity :: Level(cfg, a, id, now) == Level(cfg, b, id, now)
  }

  lemma AlikeLater(cfg: Config, a: Limiter, b: Limiter, now: real, t: real)
    requires Usable(cfg) && Alike(cfg, a, b, now) && now <= t
    ensures Alike(cfg, a, b, t)
  {
    forall id: Identity ensures Level(cfg, a, id, t) == Level(cfg, b, id, t) {
      LevelLater(cfg, a, id, now, t);
      LevelLater(cfg, b, id, now, t);
    }
  }

  lemma CheckKeepsAlike(cfg: Config, a: Limiter, b: Limiter, id: Identity, now: real)
    requires Usable(cfg) && cfg.enabled && Alike(cfg, a, b, now)
    ensures RateLimiter.Decide(cfg, a, id, now) == RateLimiter.Decide(cfg, b, id, now)
    ensures Alike(cfg, AfterCheck(cfg, a, id, now), AfterCheck(cfg, b, id, now), now)
  {
    var a', b' := AfterCheck(cfg, a, id, now), AfterCheck(cfg, b, id, now);
    assert Level(cfg, a, id, now) == Level(cfg, b, id, now);
    CheckLevels(cfg, a, id, now, id);
    CheckLevels(cfg, b, id, now, id);
    forall other: Identity ensures Level(cfg, a', other, now) == Level(cfg, b', other, now) {
      CheckLevels(cfg, a, id, now, other);
      CheckLevels(cfg, b, id, now, other);
      assert Level(cfg, a, other, now) == Level(cfg, b, other, now);
    }
  }

  lemma MoreTimeMoreTokens(shorter: real, longer: real, rate: real)
    requires shorter <= longer && 0.0 < rate
    ensures shorter * rate <= longer * rate
  {
    assert 0.0 <= (longer - shorter) * rate;
  }

  /** A bucket that may be swept is one whose level is its whole burst. */
  lemma IdleIsFull(cfg: Config, b: Tank, now: real)
    requires Valid(b) && b.lastRefill == b.lastSeen <= now && 0.0 <= cfg.idleTtl
    requires Forgettable(cfg, b.tier) && Idle(cfg, b, now)
    ensures Balance(b, now) == b.tier.burst
  {
    var elapsed := now - b.lastRefill;
    MoreTimeMoreTokens(cfg.idleTtl, elapsed, b.tier.rate);
    assert elapsed == 0.0 ==> elapsed * b.tier.rate == 0.0;
    assert b.tier.burst <= elapsed * b.tier.rate;
    assert b.lastRefill < now;
  }

  lemma EvictKeepsLevel(cfg: Config, l: Limiter, id: Identity, now: real)
    requires Usable(cfg) && SeenBy(cfg, l, now) && Forgettable(cfg, TierOf(cfg, id))
    ensures SeenBy(cfg, AfterEvict(cfg, l, now), now)
    ensures Level(cfg, AfterEvict(cfg, l, now), id, now) == Level(cfg, l, id, now)
  {
    var key := BucketKey(id);
    if key in l.buckets && Idle(cfg, l.buckets[key], now) {
      IdleIsFull(cfg, l.buckets[key], now);
    }
  }

  /** With both tiers forgettable, sweeps at arbitrary moments change no decision: the
      limiter answers every sequence of checks exactly as one that never sweeps. */
  lemma {:induction false} SweepsAreInvisible(cfg: Config, a: Limiter, b: Limiter, now: real, events: seq<Event>)
    requires Usable(cfg) && cfg.enabled
    requires Forgettable(cfg, cfg.authenticated) && Forgettable(cfg, cfg.anonymous)
    requires Alike(cfg, a, b, now) && Timed(now, events)
    ensures Decisions(cfg, a, events) == Decisions(cfg, b, Checks(events))
    decreases |events|
  {
    if events != [] {
      var e := events[0];
      AlikeLater(cfg, a, b, now, e.at);
      if e.Check? {
        CheckKeepsAlike(cfg, a, b, e.id, e.at);
        SweepsAreInvisible(cfg, After(cfg, a, e), After(cfg, b, e), e.at, events[1..]);
        assert Checks(events)[0] == e && Checks(events)[1..] == Checks(events[1..]);
      } else {
        forall id: Identity ensures Level(cfg, AfterEvict(cfg, a, e.at), id, e.at) == Level(cfg, b, id, e.at) {
          EvictKeepsLevel(cfg, a, id, e.at);
          assert Level(cfg, a, id, e.at) == Level(cfg, b, id, e.at);
        }
        EvictKeepsLevel(cfg, a, Identity("u", ""), e.at);
        SweepsAreInvisible(cfg, After(cfg, a, e), b, e.at, events[1..]);
        assert Checks(events) == Checks(events[1..]);
        assert Decisions(cfg, a, events) == Decisions(cfg, After(cfg, a, e), events[1..]);
      }
    }
  }

  // ---------------------------------------------------------------- and only then

  /** One identity's checks at the given times. */
  function ChecksAt(id: Identity, times: seq<real>): (events: seq<Event>)
    ensures |events| == |times|
  {
    if times == [] then [] else [Check(id, times[0])] + ChecksAt(id, times[1..])
  }

  /** None of these answers says the identity itself was out of tokens. */
  predicate Passed(ds: seq<Decision>)
  {
    forall d :: d in ds ==> !OutOfTokens(d)
  }

  /** One check passes the identity's bucket exactly when the bucket admits it. */
  lemma CheckOfOne(cfg: Config, l: Limiter, id: Identity, now: real)
    requires Usable(cfg) && cfg.enabled && Sound(l)
    ensures var b, l' := BucketOf(cfg, l, id, now), AfterCheck(cfg, l, id, now);
            && (OutOfTokens(RateLimiter.Decide(cfg, l, id, now)) <==> !Admits(b, now))
            && BucketKey(id) in l'.buckets && l'.buckets[BucketKey(id)] == AfterAttempt(b, now)
  {
  }

  lemma PassedCons(d: Decision, ds: seq<Decision>)
    ensures Passed([d] + ds) <==> !OutOfTokens(d) && Passed(ds)
  {
    assert d in [d] + ds;
  }

  lemma {:induction false} AdmissionsAtMost(b: Tank, times: seq<real>)
    ensures Admissions(b, times) <= |times|
    decreases |times|
  {
    hide Balance;
    if times != [] {
      AdmissionsAtMost(AfterAttempt(b, times[0]), times[1..]);
    }
  }

  /** An identity's own checks pass its bucket exactly when the bucket alone would admit
      them all, and leave the bucket as those attempts would. */
  lemma {:induction false} RunOfOne(cfg: Config, l: Limiter, id: Identity, times: seq<real>)
    requires Usable(cfg) && cfg.enabled && Sound(l)
    requires times == [] ==> BucketKey(id) in l.buckets
    ensures var b := BucketOf(cfg, l, id, if times == [] then 0.0 else times[0]);
            var l' := AfterAll(cfg, l, ChecksAt(id, times));
            && (Passed(Decisions(cfg, l, ChecksAt(id, times))) <==> Admissions(b, times) == |times|)
            && BucketKey(id) in l'.buckets
            && l'.buckets[BucketKey(id)] == AfterAttempts(b, times)
    decreases |times|
  {
    hide Admits, AfterAttempt, AfterCheck, RateLimiter.Decide, Sound, Fresh;
    if times != [] {
      var events, now := ChecksAt(id, times), times[0];
      var b, l' := BucketOf(cfg, l, id, now), AfterCheck(cfg, l, id, now);
      assert events[1..] == ChecksAt(id, times[1..]);
      CheckOfOne(cfg, l, id, now);
      RunOfOne(cfg, l', id, times[1..]);
      PassedCons(RateLimiter.Decide(cfg, l, id, now), Decisions(cfg, l', events[1..]));
      AdmissionsAtMost(AfterAttempt(b, now), times[1..]);
    }
  }

  lemma {:induction false} ChecksConcat(a: seq<Event>, b: seq<Event>)
    ensures Checks(a + b) == Checks(a) + Checks(b)
    decreases |a|
  {
    if a == [] {
      assert a + b == b;
    } else {
      assert (a + b)[0] == a[0] && (a + b)[1..] == a[1..] + b;
      ChecksConcat(a[1..], b);
      var head := if a[0].Check? then [a[0]] else [];
      assert head + (Checks(a[1..]) + Checks(b)) == head + Checks(a[1..]) + Checks(b);
    }
  }

  lemma {:induction false} ChecksOfChecksAt(id: Identity, times: seq<real>)
    ensures Checks(ChecksAt(id, times)) == ChecksAt(id, times)
    decreases |times|
  {
    if times != [] {
      assert ChecksAt(id, times)[1..] == ChecksAt(id, times[1..]);
      ChecksOfChecksAt(id, times[1..]);
    }
  }

  lemma ChecksOfSwept(id: Identity, first: seq<real>, sweep: real, second: seq<real>)
    ensures Checks(ChecksAt(id, first) + ([Evict(sweep)] + ChecksAt(id, second))) == ChecksAt(id, first) + ChecksAt(id, second)
  {
    var a, b := ChecksAt(id, first), ChecksAt(id, second);
    var rest := [Evict(sweep)] + b;
    assert rest[1..] == b;
    assert Checks(rest) == Checks(b);
    ChecksConcat(a, rest);
    ChecksOfChecksAt(id, first);
    ChecksOfChecksAt(id, second);
  }

  lemma SweepFirst(cfg: Config, l: Limiter, sweep: real, rest: seq<Event>)
    requires Usable(cfg) && Sound(l)
    ensures Decisions(cfg, l, [Evict(sweep)] + rest) == Decisions(cfg, AfterEvict(cfg, l, sweep), rest)
  {
    hide AfterCheck, AfterEvict, RateLimiter.Decide, Sound;
    var events := [Evict(sweep)] + rest;
    assert events[0] == Evict(sweep) && events[1..] == rest;
  }

  /** A sweep between two series of events acts only on the second. */
  lemma SweepBetween(cfg: Config, l: Limiter, a: seq<Event>, sweep: real, b: seq<Event>)
    requires Usable(cfg) && Sound(l)
    ensures Decisions(cfg, l, a + ([Evict(sweep)] + b))
         == Decisions(cfg, l, a) + Decisions(cfg, AfterEvict(cfg, AfterAll(cfg, l, a), sweep), b)
  {
    hide AfterAll, AfterEvict, Decisions, Sound;
    SplitRun(cfg, l, a, [Evict(sweep)] + b);
    SweepFirst(cfg, AfterAll(cfg, l, a), sweep, b);
  }

  /** A drain, a sweep once the bucket may be forgotten, and another drain. */
  function Telltale(cfg: Config, id: Identity, gap: real): (events: seq<Event>)
    requires Usable(cfg)
  {
    var tier, later := TierOf(cfg, id), gap + cfg.idleTtl;
    ChecksAt(id, Drain(tier, 0.0, gap)) + ([Evict(later)] + ChecksAt(id, Drain(tier, later, gap)))
  }

  /** The bucket a first drain leaves is not full after the idle time of a tier that is
      not forgettable, so a second drain does not go through. */
  lemma DrainedIsNotFull(cfg: Config, tier: Tier, gap: real)
    requires Usable(cfg) && Sane(tier) && IsGap(tier, gap) && !Forgettable(cfg, tier)
    ensures var b := AfterAttempts(Fresh(tier, 0.0), Drain(tier, 0.0, gap));
            var second := Drain(tier, gap + cfg.idleTtl, gap);
            Admissions(b, second) != |second| && b.lastSeen == gap
  {
    hide AfterAttempts, Admissions, Drain;
    var full := Fresh(tier, 0.0);
    var b := AfterAttempts(full, Drain(tier, 0.0, gap));
    DrainTellsFull(full, 0.0, gap);
    assert 0.0 + gap == gap;
    BalanceLater(b, gap, gap + cfg.idleTtl);
    assert gap + cfg.idleTtl - gap == cfg.idleTtl;
    DrainTellsFull(b, gap + cfg.idleTtl, gap);
  }

  lemma SweptIsFresh(cfg: Config, l: Limiter, id: Identity, gap: real)
    requires Usable(cfg) && Sound(l) && BucketKey(id) in l.buckets && l.buckets[BucketKey(id)].lastSeen == gap
    ensures var later := gap + cfg.idleTtl;
            BucketOf(cfg, AfterEvict(cfg, l, later), id, later) == Fresh(TierOf(cfg, id), later)
  {
    hide Balance;
    var later := gap + cfg.idleTtl;
    assert Idle(cfg, l.buckets[BucketKey(id)], later);
  }

  /** The second drain after a sweep, and without one. */
  lemma SecondDrain(cfg: Config, id: Identity, gap: real)
    requires Usable(cfg) && cfg.enabled && IsGap(TierOf(cfg, id), gap) && !Forgettable(cfg, TierOf(cfg, id))
    ensures var tier, later := TierOf(cfg, id), gap + cfg.idleTtl;
            var mid := AfterAll(cfg, New(cfg, 0.0), ChecksAt(id, Drain(tier, 0.0, gap)));
            var second := ChecksAt(id, Drain(tier, later, gap));
            && !Passed(Decisions(cfg, mid, second))
            && Passed(Decisions(cfg, AfterEvict(cfg, mid, later), second))
  {
    hide Balance, Admissions, AfterAttempts, AfterAll, Decisions, Forgettable, IsGap, AfterEvict, ChecksAt, Drain;
    var tier, later, l := TierOf(cfg, id), gap + cfg.idleTtl, New(cfg, 0.0);
    var first, second := Drain(tier, 0.0, gap), Drain(tier, later, gap);
    var mid := AfterAll(cfg, l, ChecksAt(id, first));
    DrainAscends(tier, 0.0, gap);
    DrainAscends(tier, later, gap);
    RunOfOne(cfg, l, id, first);
    DrainedIsNotFull(cfg, tier, gap);
    RunOfOne(cfg, mid, id, second);
    SweptIsFresh(cfg, mid, id, gap);
    RunOfOne(cfg, AfterEvict(cfg, mid, later), id, second);
    DrainTellsFull(Fresh(tier, later), later, gap);
  }

  /** If some identity's tier is not forgettable, a sweep shows: it hands the identity a
      full bucket that would not have been full. */
  lemma SweepShows(cfg: Config, id: Identity, gap: real)
    requires Usable(cfg) && cfg.enabled && IsGap(TierOf(cfg, id), gap) && !Forgettable(cfg, TierOf(cfg, id))
    ensures var l := New(cfg, 0.0);
            Decisions(cfg, l, Telltale(cfg, id, gap)) != Decisions(cfg, l, Checks(Telltale(cfg, id, gap)))
  {
    hide Balance, AfterAll, Decisions, Checks, AfterEvict, ChecksAt, Drain;
    var tier, later, l := TierOf(cfg, id), gap + cfg.idleTtl, New(cfg, 0.0);
    var first, second := Drain(tier, 0.0, gap), Drain(tier, later, gap);
    var a, b := ChecksAt(id, first), ChecksAt(id, second);
    SecondDrain(cfg, id, gap);
    SweepBetween(cfg, l, a, later, b);
    ChecksOfSwept(id, first, later, second);
    SplitRun(cfg, l, a, b);
    var mid := AfterAll(cfg, l, a);
    var same, swept, kept := Decisions(cfg, l, a), Decisions(cfg, AfterEvict(cfg, mid, later), b), Decisions(cfg, mid, b);
    assert (same + swept)[|same|..] == swept && (same + kept)[|same|..] == kept;
  }

  lemma {:induction false} TimedConcat(from: real, a: seq<Event>, mid: real, b: seq<Event>)
    requires Timed(from, a) && Timed(mid, b) && from <= mid
    requires forall i :: 0 <= i < |a| ==> a[i].at <= mid
    ensures Timed(from, a + b)
    decreases |a|
  {
    if a == [] {
      assert a + b == b;
    } else {
      assert (a + b)[1..] == a[1..] + b;
      TimedConcat(a[0].at, a[1..], mid, b);
    }
  }

  lemma {:induction false} ChecksAtTimed(id: Identity, from: real, times: seq<real>)
    requires Ascending(from, times)
    ensures Timed(from, ChecksAt(id, times))
    ensures forall i :: 0 <= i < |times| ==> ChecksAt(id, times)[i].at == times[i]
    decreases |times|
  {
    if times != [] {
      assert ChecksAt(id, times)[1..] == ChecksAt(id, times[1..]);
      ChecksAtTimed(id, times[0], times[1..]);
    }
  }

  lemma TelltaleTimed(cfg: Config, id: Identity, gap: real)
    requires Usable(cfg) && IsGap(TierOf(cfg, id), gap)
    ensures Timed(0.0, Telltale(cfg, id, gap))
  {
    hide ChecksAt, Drain, IsGap;
    var tier, later := TierOf(cfg, id), gap + cfg.idleTtl;
    DrainAscends(tier, 0.0, gap);
    DrainAscends(tier, later, gap);
    ChecksAtTimed(id, 0.0, Drain(tier, 0.0, gap));
    ChecksAtTimed(id, later, Drain(tier, later, gap));
    var rest := [Evict(later)] + ChecksAt(id, Drain(tier, later, gap));
    assert rest[1..] == ChecksAt(id, Drain(tier, later, gap));
    TimedConcat(0.0, ChecksAt(id, Drain(tier, 0.0, gap)), later, rest);
  }

  ghost predicate Invisible(cfg: Config)
    requires Usable(cfg)
  {
    forall events :: Timed(0.0, events) ==>
      Decisions(cfg, New(cfg, 0.0), events) == Decisions(cfg, New(cfg, 0.0), Checks(events))
  }

  /** Sweeping idle buckets is invisible to every sequence of checks if and only if both
      tiers refill their whole burst within the idle time. */
  lemma InvisibleIff(cfg: Config)
    requires Usable(cfg) && cfg.enabled
    ensures Invisible(cfg) <==> Forgettable(cfg, cfg.authenticated) && Forgettable(cfg, cfg.anonymous)
  {
    hide Decisions, Checks, Timed, Telltale, Forgettable, Balance, IsGap;
    if Forgettable(cfg, cfg.authenticated) && Forgettable(cfg, cfg.anonymous) {
      forall events | Timed(0.0, events)
        ensures Decisions(cfg, New(cfg, 0.0), events) == Decisions(cfg, New(cfg, 0.0), Checks(events))
      {
        SweepsAreInvisible(cfg, New(cfg, 0.0), New(cfg, 0.0), 0.0, events);
      }
    } else {
      var id := if Forgettable(cfg, cfg.authenticated) then Identity("", "a") else Identity("a", "");
      var gap := GapExists(TierOf(cfg, id));
      SweepShows(cfg, id, gap);
      TelltaleTimed(cfg, id, gap);
    }
  }

  // ---------------------------------------------------------------- rates

  /** How many checks billed to `id`'s bucket the bucket let through. */
  function Passes(cfg: Config, l: Limiter, id: Identity, events: seq<Event>): (n: nat)
    requires Usable(cfg) && Sound(l)
    decreases |events|
  {
    if events == [] then 0
    else Spent(cfg, l, id, events[0]) + Passes(cfg, After(cfg, l, events[0]), id, events[1..])
  }

  function Spent(cfg: Config, l: Limiter, id: Identity, e: Event): (n: nat)
    requires Usable(cfg) && Sound(l)
  {
    if e.Check? && BucketKey(e.id) == BucketKey(id) && !OutOfTokens(RateLimiter.Decide(cfg, l, e.id, e.at)) then 1 else 0
  }

  /** How many checks, by anyone, were allowed. */
  function Allowances(cfg: Config, l: Limiter, events: seq<Event>): (n: nat)
    requires Usable(cfg) && Sound(l)
    decreases |events|
  {
    if events == [] then 0
    else
      var e := events[0];
      (if e.Check? && RateLimiter.Decide(cfg, l, e.id, e.at).Allowed? then 1 else 0)
      + Allowances(cfg, After(cfg, l, e), events[1..])
  }

  lemma SplitRefill(from: real, mid: real, end: real, rate: real)
    ensures (mid - from) * rate + (end - mid) * rate == (end - from) * rate
  {
  }

  /** One event costs the identity what it let through, and refills at most at its rate. */
  lemma LevelStep(cfg: Config, l: Limiter, id: Identity, now: real, e: Event)
    requires Usable(cfg) && cfg.enabled && SeenBy(cfg, l, now) && now <= e.at
    requires e.Evict? ==> Forgettable(cfg, TierOf(cfg, id))
    ensures SeenBy(cfg, After(cfg, l, e), e.at)
    ensures Level(cfg, After(cfg, l, e), id, e.at) + Spent(cfg, l, id, e) as real
            <= Level(cfg, l, id, now) + (e.at - now) * TierOf(cfg, id).rate
  {
    hide Balance, Level, AfterCheck, AfterEvict, BucketOf, SeenBy, RateLimiter.Decide, Forgettable, Sound, BucketKey;
    LevelAtLeastZero(cfg, l, id, now);
    SeenLater(cfg, l, now, e.at);
    LevelLater(cfg, l, id, now, e.at);
    if e.Check? {
      CheckLevels(cfg, l, e.id, e.at, id);
      SameBucketSameLevel(cfg, l, e.id, id, e.at);
    } else {
      EvictKeepsLevel(cfg, l, id, e.at);
    }
  }

  lemma SameBucketSameLevel(cfg: Config, l: Limiter, a: Identity, b: Identity, now: real)
    ensures BucketKey(a) == BucketKey(b) ==> Level(cfg, l, a, now) == Level(cfg, l, b, now)
  {
    hide Balance;
    BucketsSeparate(cfg, a, b);
  }

  lemma SeenLater(cfg: Config, l: Limiter, now: real, t: real)
    requires SeenBy(cfg, l, now) && now <= t
    ensures SeenBy(cfg, l, t)
  {
  }

  /** What a bucket lets through is what it held plus what it was refilled. */
  lemma {:induction false} PassesAtMost(cfg: Config, l: Limiter, id: Identity, now: real, end: real, events: seq<Event>)
    requires Usable(cfg) && cfg.enabled && SeenBy(cfg, l, now) && Timed(now, events) && now <= end
    requires forall e :: e in events ==> e.at <= end && (e.Evict? ==> Forgettable(cfg, TierOf(cfg, id)))
    ensures Passes(cfg, l, id, events) as real <= Level(cfg, l, id, now) + (end - now) * TierOf(cfg, id).rate
    decreases |events|
  {
    hide Level, SeenBy, After, Forgettable, RateLimiter.Decide, Sound;
    if events == [] {
      LevelAtLeastZero(cfg, l, id, now);
      RefillAtLeastZero(end - now, TierOf(cfg, id).rate);
      assert Passes(cfg, l, id, events) == 0;
      assert 0.0 <= Level(cfg, l, id, now);
      assert 0.0 <= (end - now) * TierOf(cfg, id).rate;
    } else {
      var e := events[0];
      assert e in events;
      LevelAtLeastZero(cfg, l, id, now);
      LevelStep(cfg, l, id, now, e);
      PassesAtMost(cfg, After(cfg, l, e), id, e.at, end, events[1..]);
      SplitRefill(now, e.at, end, TierOf(cfg, id).rate);
    }
  }

  lemma LevelAtLeastZero(cfg: Config, l: Limiter, id: Identity, now: real)
    requires Usable(cfg) && SeenBy(cfg, l, now)
    ensures Sound(l) && 0.0 <= Level(cfg, l, id, now) <= TierOf(cfg, id).burst
  {
  }

  /** The same for the node-wide bucket, which every allowed check is charged to. */
  lemma GlobalStep(cfg: Config, l: Limiter, now: real, e: Event)
    requires Usable(cfg) && cfg.enabled && cfg.globalEnabled && SeenBy(cfg, l, now) && now <= e.at
    ensures SeenBy(cfg, After(cfg, l, e), e.at)
    ensures Balance(After(cfg, l, e).global, e.at)
            + (if e.Check? && RateLimiter.Decide(cfg, l, e.id, e.at).Allowed? then 1.0 else 0.0)
            <= Balance(l.global, now) + (e.at - now) * cfg.global.rate
  {
    SeenLater(cfg, l, now, e.at);
    if e.Check? {
      CheckLevels(cfg, l, e.id, e.at, e.id);
      GlobalCharged(cfg, l, now, e);
    } else {
      BalanceLater(l.global, now, e.at);
    }
  }

  lemma GlobalCharged(cfg: Config, l: Limiter, now: real, e: Event)
    requires Usable(cfg) && cfg.enabled && cfg.globalEnabled && e.Check? && now <= e.at
    requires Sound(l) && l.global.lastRefill <= now && l.global.tier == cfg.global
    ensures Balance(After(cfg, l, e).global, e.at)
            + (if RateLimiter.Decide(cfg, l, e.id, e.at).Allowed? then 1.0 else 0.0)
            <= Balance(l.global, now) + (e.at - now) * cfg.global.rate
  {
    hide Balance, AfterAttempt, RetryAfter, Fresh;
    BalanceLater(l.global, now, e.at);
    AttemptBalance(l.global, e.at);
  }

  lemma {:induction false} AllowancesAtMost(cfg: Config, l: Limiter, now: real, end: real, events: seq<Event>)
    requires Usable(cfg) && cfg.enabled && cfg.globalEnabled && SeenBy(cfg, l, now) && Timed(now, events) && now <= end
    requires forall e :: e in events ==> e.at <= end
    ensures Allowances(cfg, l, events) as real <= Balance(l.global, now) + (end - now) * cfg.global.rate
    decreases |events|
  {
    hide Balance, After, RateLimiter.Decide;
    if events == [] {
      assert Allowances(cfg, l, events) == 0;
      assert 0.0 <= Balance(l.global, now);
      RefillAtLeastZero(end - now, cfg.global.rate);
    } else {
      var e := events[0];
      assert e in events;
      GlobalStep(cfg, l, now, e);
      AllowancesAtMost(cfg, After(cfg, l, e), e.at, end, events[1..]);
      SplitRefill(now, e.at, end, cfg.global.rate);
    }
  }

  lemma EventSeen(cfg: Config, l: Limiter, now: real, e: Event)
    requires Usable(cfg) && cfg.enabled && SeenBy(cfg, l, now) && now <= e.at
    ensures SeenBy(cfg, After(cfg, l, e), e.at)
  {
    SeenLater(cfg, l, now, e.at);
    if e.Check? {
      CheckLevels(cfg, l, e.id, e.at, e.id);
    }
  }

  lemma {:induction false} RunSeen(cfg: Config, l: Limiter, now: real, end: real, events: seq<Event>)
    requires Usable(cfg) && cfg.enabled && SeenBy(cfg, l, now) && Timed(now, events) && now <= end
    requires forall e :: e in events ==> e.at <= end
    ensures SeenBy(cfg, AfterAll(cfg, l, events), end)
    decreases |events|
  {
    hide After;
    if events == [] {
      SeenLater(cfg, l, now, end);
    } else {
      var e := events[0];
      assert e in events;
      EventSeen(cfg, l, now, e);
      RunSeen(cfg, After(cfg, l, e), e.at, end, events[1..]);
    }
  }

  /** What was held was at most the burst, so held and refilled is at most burst and rate. */
  lemma Bounded(got: real, held: real, elapsed: real, span: real, tier: Tier)
    requires got <= held + elapsed * tier.rate && elapsed == span && held <= tier.burst
    ensures got <= tier.burst + span * tier.rate
  {
  }

  lemma OwnBound(cfg: Config, l: Limiter, id: Identity, start: real, span: real, window: seq<Event>)
    requires Usable(cfg) && cfg.enabled && SeenBy(cfg, l, start) && 0.0 <= span && Timed(start, window)
    requires forall e :: e in window ==> e.at <= start + span && (e.Evict? ==> Forgettable(cfg, TierOf(cfg, id)))
    ensures Passes(cfg, l, id, window) as real <= TierOf(cfg, id).burst + span * TierOf(cfg, id).rate
  {
    hide Passes, Level, Timed, Forgettable, SeenBy;
    LevelAtLeastZero(cfg, l, id, start);
    PassesAtMost(cfg, l, id, start, start + span, window);
    Bounded(Passes(cfg, l, id, window) as real, Level(cfg, l, id, start), start + span - start, span, TierOf(cfg, id));
  }

  lemma GateBound(cfg: Config, l: Limiter, start: real, span: real, window: seq<Event>)
    requires Usable(cfg) && cfg.enabled && cfg.globalEnabled && SeenBy(cfg, l, start) && 0.0 <= span && Timed(start, window)
    requires forall e :: e in window ==> e.at <= start + span
    ensures Allowances(cfg, l, window) as real <= cfg.global.burst + span * cfg.global.rate
  {
    hide Allowances, Balance, Timed;
    AllowancesAtMost(cfg, l, start, start + span, window);
    Bounded(Allowances(cfg, l, window) as real, Balance(l.global, start), start + span - start, span, cfg.global);
  }

  /** In every window of length `span`, after any history at all, one identity gets at
      most its burst plus its rate times the window, and with the node-wide gate on all
      identities together get at most the global burst plus the global rate times the
      window. Sweeps may happen throughout when the identity's tier is forgettable, and
      never matter to the node-wide bound. */
  lemma RateBound(cfg: Config, id: Identity, before: seq<Event>, start: real, span: real, window: seq<Event>)
    requires Usable(cfg) && cfg.enabled && 0.0 <= start && 0.0 <= span
    requires Timed(0.0, before) && forall e :: e in before ==> e.at <= start
    requires Timed(start, window) && forall e :: e in window ==> e.at <= start + span
    ensures var l := AfterAll(cfg, New(cfg, 0.0), before);
            && ((forall e :: e in window && e.Evict? ==> Forgettable(cfg, TierOf(cfg, id))) ==>
                  Passes(cfg, l, id, window) as real <= TierOf(cfg, id).burst + span * TierOf(cfg, id).rate)
            && (cfg.globalEnabled ==>
                  Allowances(cfg, l, window) as real <= cfg.global.burst + span * cfg.global.rate)
  {
    RunSeen(cfg, New(cfg, 0.0), 0.0, start, before);
    hide Passes, Allowances, AfterAll, Timed, Forgettable, SeenBy;
    var l := AfterAll(cfg, New(cfg, 0.0), before);
    if forall e :: e in window && e.Evict? ==> Forgettable(cfg, TierOf(cfg, id)) {
      OwnBound(cfg, l, id, start, span, window);
    }
    if cfg.globalEnabled {
      GateBound(cfg, l, start, span, window);
    }
  }

  // ---------------------------------------------------------------- users and addresses

  /** What an identity that is new gets at one moment: a verified user the whole tokens of
      the authenticated burst, an anonymous address those of the anonymous one. */
  lemma NewcomerBurst(cfg: Config, l: Limiter, id: Identity, n: nat, now: real)
    requires Usable(cfg) && cfg.enabled && Sound(l) && BucketKey(id) !in l.buckets && 0 < n
    ensures var whole := if id.user != "" then cfg.authenticated.burst.Floor else cfg.anonymous.burst.Floor;
            Passes(cfg, l, id, ChecksAt(id, Burst(n, now))) == if n <= whole then n else whole
  {
    hide Passes, Admissions, Balance, Sound;
    var b := Fresh(TierOf(cfg, id), now);
    assert Burst(n, now)[0] == now;
    PassesOfOne(cfg, l, id, Burst(n, now));
    BurstAdmits(b, n, now);
  }

  /** The rate bound by who asks: a verified user keeps to the authenticated tier, and an
      anonymous address to the anonymous one. */
  lemma RateByClass(cfg: Config, id: Identity, before: seq<Event>, start: real, span: real, window: seq<Event>)
    requires Usable(cfg) && cfg.enabled && IsWindow(before, start, span, window)
    requires (forall e :: e in window ==> e.Check?)
             || (if id.user != "" then cfg.authenticated.burst <= cfg.idleTtl * cfg.authenticated.rate
                 else cfg.anonymous.burst <= cfg.idleTtl * cfg.anonymous.rate)
    ensures var passes := Passes(cfg, AfterAll(cfg, New(cfg, 0.0), before), id, window) as real;
            && (id.user != "" ==> passes <= cfg.authenticated.burst + span * cfg.authenticated.rate)
            && (id.user == "" ==> passes <= cfg.anonymous.burst + span * cfg.anonymous.rate)
  {
    hide Passes, AfterAll, Timed, Allowances;
    RateBound(cfg, id, before, start, span, window);
  }

  /** The defaults, sweeps and all: a user gets a hundred at once and fifty a second, an
      address twenty at once and ten a second, and everybody together ten thousand at once
      and five thousand a second. */
  lemma DefaultLimits(id: Identity, before: seq<Event>, start: real, span: real, window: seq<Event>)
    requires IsWindow(before, start, span, window)
    ensures var cfg := DefaultConfig();
            var l := AfterAll(cfg, New(cfg, 0.0), before);
            && cfg.enabled
            && (id.user != "" ==> Passes(cfg, l, id, window) as real <= 100.0 + span * 50.0)
            && (id.user == "" ==> Passes(cfg, l, id, window) as real <= 20.0 + span * 10.0)
            && Allowances(cfg, l, window) as real <= 10000.0 + span * 5000.0
  {
    hide Passes, AfterAll, Timed, Allowances;
    var cfg := DefaultConfig();
    RateByClass(cfg, id, before, start, span, window);
    RateBound(cfg, id, before, start, span, window);
  }

  lemma DefaultBurst(id: Identity, now: real)
    ensures var cfg := DefaultConfig();
            && Passes(cfg, New(cfg, 0.0), id, ChecksAt(id, Burst(20_000, now))) == if id.user != "" then 100 else 20
  {
    hide Passes, Burst;
    NewcomerBurst(DefaultConfig(), New(DefaultConfig(), 0.0), id, 20_000, now);
  }

  // ---------------------------------------------------------------- the rate with sweeps

  lemma {:induction false} SplitPasses(cfg: Config, l: Limiter, id: Identity, first: seq<Event>, rest: seq<Event>)
    requires Usable(cfg) && Sound(l)
    ensures Passes(cfg, l, id, first + rest) == Passes(cfg, l, id, first) + Passes(cfg, AfterAll(cfg, l, first), id, rest)
    decreases |first|
  {
    hide After, Spent, Sound;
    if first == [] {
      assert first + rest == rest;
    } else {
      assert (first + rest)[1..] == first[1..] + rest;
      SplitPasses(cfg, After(cfg, l, first[0]), id, first[1..], rest);
    }
  }

  /** An identity's own checks pass as often as its bucket alone would admit them. */
  lemma {:induction false} PassesOfOne(cfg: Config, l: Limiter, id: Identity, times: seq<real>)
    requires Usable(cfg) && cfg.enabled && Sound(l)
    requires times == [] ==> BucketKey(id) in l.buckets
    ensures Passes(cfg, l, id, ChecksAt(id, times))
         == Admissions(BucketOf(cfg, l, id, if times == [] then 0.0 else times[0]), times)
    decreases |times|
  {
    hide Admits, AfterAttempt, AfterCheck, RateLimiter.Decide, Sound, Fresh;
    if times != [] {
      var events, now := ChecksAt(id, times), times[0];
      assert events[1..] == ChecksAt(id, times[1..]);
      CheckOfOne(cfg, l, id, now);
      PassesOfOne(cfg, AfterCheck(cfg, l, id, now), id, times[1..]);
    }
  }

  /** A drain, a sweep and another drain all go through. */
  lemma TelltalePasses(cfg: Config, id: Identity, gap: real)
    requires Usable(cfg) && cfg.enabled && IsGap(TierOf(cfg, id), gap)
    ensures Passes(cfg, New(cfg, 0.0), id, Telltale(cfg, id, gap)) == 2 * (TierOf(cfg, id).burst.Floor + 1)
  {
    hide Balance, Admissions, AfterAttempts, AfterAll, IsGap, AfterEvict, ChecksAt, Passes;
    var tier, later, l := TierOf(cfg, id), gap + cfg.idleTtl, New(cfg, 0.0);
    var first, second := Drain(tier, 0.0, gap), Drain(tier, later, gap);
    var mid := AfterAll(cfg, l, ChecksAt(id, first));
    DrainAscends(tier, 0.0, gap);
    DrainAscends(tier, later, gap);
    DrainTellsFull(Fresh(tier, 0.0), 0.0, gap);
    RunOfOne(cfg, l, id, first);
    PassesOfOne(cfg, l, id, first);
    SweptIsFresh(cfg, mid, id, gap);
    DrainTellsFull(Fresh(tier, later), later, gap);
    PassesOfOne(cfg, AfterEvict(cfg, mid, later), id, second);
    SplitPasses(cfg, l, id, ChecksAt(id, first), [Evict(later)] + ChecksAt(id, second));
    SweepPasses(cfg, mid, id, later, ChecksAt(id, second));
  }

  lemma SweepPasses(cfg: Config, l: Limiter, id: Identity, sweep: real, rest: seq<Event>)
    requires Usable(cfg) && Sound(l)
    ensures Passes(cfg, l, id, [Evict(sweep)] + rest) == Passes(cfg, AfterEvict(cfg, l, sweep), id, rest)
  {
    hide AfterEvict, Sound;
    var events := [Evict(sweep)] + rest;
    assert events[0] == Evict(sweep) && events[1..] == rest;
  }

  lemma TelltaleEnds(cfg: Config, id: Identity, gap: real)
    requires Usable(cfg) && IsGap(TierOf(cfg, id), gap)
    ensures forall e :: e in Telltale(cfg, id, gap) ==> e.at <= gap + cfg.idleTtl + gap
  {
    hide ChecksAt, Drain, IsGap;
    var tier, later := TierOf(cfg, id), gap + cfg.idleTtl;
    DrainAscends(tier, 0.0, gap);
    DrainAscends(tier, later, gap);
    ChecksAtTimed(id, 0.0, Drain(tier, 0.0, gap));
    ChecksAtTimed(id, later, Drain(tier, later, gap));
  }

  lemma DrainsExceed(burst: real, whole: int, gap: real, idle: real, rate: real)
    requires burst - whole as real + gap * rate == 1.0 && idle * rate < burst
    ensures (2 * (whole + 1)) as real > burst + (gap + idle + gap) * rate
  {
    assert (gap + idle + gap) * rate == 2.0 * (gap * rate) + idle * rate;
    assert (2 * (whole + 1)) as real == 2.0 * (whole as real + 1.0);
  }

  /** In every window of every run with sweeps, the identity's own bucket keeps to its rate. */
  ghost predicate KeepsRate(cfg: Config, id: Identity)
    requires Usable(cfg)
  {
    forall before, start, span, window :: IsWindow(before, start, span, window) ==>
      Passes(cfg, AfterAll(cfg, New(cfg, 0.0), before), id, window) as real
      <= TierOf(cfg, id).burst + span * TierOf(cfg, id).rate
  }

  predicate IsWindow(before: seq<Event>, start: real, span: real, window: seq<Event>)
  {
    && 0.0 <= start && 0.0 <= span
    && Timed(0.0, before) && (forall e :: e in before ==> e.at <= start)
    && Timed(start, window) && (forall e :: e in window ==> e.at <= start + span)
  }

  /** What an identity's own bucket lets through keeps to its rate under sweeps if and only
      if the identity's tier refills its whole burst within the idle time. */
  lemma RateSurvivesSweepsIff(cfg: Config, id: Identity)
    requires Usable(cfg) && cfg.enabled
    ensures KeepsRate(cfg, id) <==> Forgettable(cfg, TierOf(cfg, id))
  {
    hide Passes, AfterAll, Timed, Telltale, Allowances;
    var tier := TierOf(cfg, id);
    if Forgettable(cfg, tier) {
      forall before, start, span, window | IsWindow(before, start, span, window)
        ensures Passes(cfg, AfterAll(cfg, New(cfg, 0.0), before), id, window) as real <= tier.burst + span * tier.rate
      {
        RateBound(cfg, id, before, start, span, window);
      }
    } else {
      var gap := GapExists(tier);
      SweptWindow(cfg, id, gap);
    }
  }

  lemma SweptWindow(cfg: Config, id: Identity, gap: real)
    requires Usable(cfg) && cfg.enabled && IsGap(TierOf(cfg, id), gap) && !Forgettable(cfg, TierOf(cfg, id))
    ensures !KeepsRate(cfg, id)
  {
    hide Passes, Telltale;
    var tier, span := TierOf(cfg, id), gap + cfg.idleTtl + gap;
    TelltaleTimed(cfg, id, gap);
    TelltaleEnds(cfg, id, gap);
    TelltalePasses(cfg, id, gap);
    DrainsExceed(tier.burst, tier.burst.Floor, gap, cfg.idleTtl, tier.rate);
    assert AfterAll(cfg, New(cfg, 0.0), []) == New(cfg, 0.0);
    assert IsWindow([], 0.0, span, Telltale(cfg, id, gap));
  }

  // ---------------------------------------------------------------- what is allowed in the end

  /** How many checks billed to `id`'s bucket were allowed, by the node-wide bucket too. */
  function Served(cfg: Config, l: Limiter, id: Identity, events: seq<Event>): (n: nat)
    requires Usable(cfg) && Sound(l)
    decreases |events|
  {
    if events == [] then 0
    else
      var e := events[0];
      (if e.Check? && BucketKey(e.id) == BucketKey(id) && RateLimiter.Decide(cfg, l, e.id, e.at).Allowed? then 1 else 0)
      + Served(cfg, After(cfg, l, e), id, events[1..])
  }

  /** What is allowed an identity passed its own bucket, and without a node-wide gate that
      is all there is to pass. */
  lemma {:induction false} ServedAtMost(cfg: Config, l: Limiter, id: Identity, events: seq<Event>)
    requires Usable(cfg) && Sound(l) && cfg.enabled
    ensures Served(cfg, l, id, events) <= Passes(cfg, l, id, events)
    ensures Served(cfg, l, id, events) <= Allowances(cfg, l, events)
    ensures !cfg.globalEnabled ==> Served(cfg, l, id, events) == Passes(cfg, l, id, events)
    decreases |events|
  {
    hide After, Sound, Admits, RetryAfter;
    if events != [] {
      ServedAtMost(cfg, After(cfg, l, events[0]), id, events[1..]);
    }
  }

  ghost predicate KeepsServedRate(cfg: Config, id: Identity)
    requires Usable(cfg)
  {
    forall before, start, span, window :: IsWindow(before, start, span, window) ==>
      Served(cfg, AfterAll(cfg, New(cfg, 0.0), before), id, window) as real
      <= TierOf(cfg, id).burst + span * TierOf(cfg, id).rate
  }

  /** When the node-wide gate is no wider than the identity's tier. */
  predicate GatedBy(cfg: Config, tier: Tier)
  {
    cfg.globalEnabled && cfg.global.burst <= tier.burst && cfg.global.rate <= tier.rate
  }

  lemma NarrowerGate(served: nat, allowed: nat, gate: Tier, tier: Tier, span: real)
    requires served <= allowed && allowed as real <= gate.burst + span * gate.rate
    requires gate.burst <= tier.burst && gate.rate <= tier.rate && 0.0 <= span
    ensures served as real <= tier.burst + span * tier.rate
  {
    assert 0.0 <= span * (tier.rate - gate.rate);
  }

  /** One window: what is allowed passed the bucket, and keeps to the gate. */
  lemma ServedWindow(cfg: Config, id: Identity, before: seq<Event>, start: real, span: real, window: seq<Event>)
    requires Usable(cfg) && cfg.enabled && IsWindow(before, start, span, window)
    ensures var l := AfterAll(cfg, New(cfg, 0.0), before);
            && Served(cfg, l, id, window) <= Passes(cfg, l, id, window)
            && (!cfg.globalEnabled ==> Served(cfg, l, id, window) == Passes(cfg, l, id, window))
            && (GatedBy(cfg, TierOf(cfg, id)) ==>
                  Served(cfg, l, id, window) as real <= TierOf(cfg, id).burst + span * TierOf(cfg, id).rate)
  {
    hide Passes, Served, AfterAll, Timed, Allowances, Forgettable;
    var l := AfterAll(cfg, New(cfg, 0.0), before);
    ServedAtMost(cfg, l, id, window);
    RateBound(cfg, id, before, start, span, window);
    if GatedBy(cfg, TierOf(cfg, id)) {
      NarrowerGate(Served(cfg, l, id, window), Allowances(cfg, l, window), cfg.global, TierOf(cfg, id), span);
    }
  }

  /** What an identity is allowed keeps to its rate under sweeps if its tier refills its
      burst within the idle time, or if the node-wide gate is narrower than the tier anyway;
      without a gate only if the tier does. */
  lemma ServedRateIff(cfg: Config, id: Identity)
    requires Usable(cfg) && cfg.enabled
    ensures Forgettable(cfg, TierOf(cfg, id)) || GatedBy(cfg, TierOf(cfg, id)) ==> KeepsServedRate(cfg, id)
    ensures !cfg.globalEnabled ==> (KeepsServedRate(cfg, id) <==> Forgettable(cfg, TierOf(cfg, id)))
  {
    hide Passes, Served, AfterAll, IsWindow, Forgettable, GatedBy;
    RateSurvivesSweepsIff(cfg, id);
    forall before, start, span, window | IsWindow(before, start, span, window)
      ensures var l := AfterAll(cfg, New(cfg, 0.0), before);
              && Served(cfg, l, id, window) <= Passes(cfg, l, id, window)
              && (!cfg.globalEnabled ==> Served(cfg, l, id, window) == Passes(cfg, l, id, window))
              && (GatedBy(cfg, TierOf(cfg, id)) ==>
                    Served(cfg, l, id, window) as real <= TierOf(cfg, id).burst + span * TierOf(cfg, id).rate)
    {
      ServedWindow(cfg, id, before, start, span, window);
    }
  }

  /** A rejected check costs its identity nothing, now or later, if and only if the
      identity's own bucket rejected it: a rejection by the node-wide bucket has already
      spent the identity's token. */
  lemma RejectionIsFreeIff(cfg: Config, l: Limiter, id: Identity, now: real)
    requires Usable(cfg) && cfg.enabled && SeenBy(cfg, l, now)
    requires RateLimiter.Decide(cfg, l, id, now).Limited?
    ensures var l' := AfterCheck(cfg, l, id, now);
            OutOfTokens(RateLimiter.Decide(cfg, l, id, now)) <==>
            forall t :: now <= t ==> Level(cfg, l', id, t) == Level(cfg, l, id, t)
  {
    hide Balance, AfterAttempt, RateLimiter.Decide, AfterCheck, SeenBy, Level;
    LevelAtLeastZero(cfg, l, id, now);
    var l' := AfterCheck(cfg, l, id, now);
    CheckLevels(cfg, l, id, now, id);
    if OutOfTokens(RateLimiter.Decide(cfg, l, id, now)) {
      forall t | now <= t ensures Level(cfg, l', id, t) == Level(cfg, l, id, t) {
        LevelLater(cfg, l, id, now, t);
        LevelLater(cfg, l', id, now, t);
      }
    } else {
      assert Level(cfg, l', id, now) != Level(cfg, l, id, now);
    }
  }
}
