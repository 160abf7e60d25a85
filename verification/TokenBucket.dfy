/** One token bucket of the node's rate limiter. Times are seconds and tokens are counted
    in reals; floating-point rounding is not part of the model. */
module TokenBucket {
  import opened Wrappers

  const MAX_WAIT: real := 3600.0

  /** Two to the power 1022: the smallest positive normal double is its inverse. */
  const TWO_POW_1022: real :=
    44942328371557897693232629769725618340449424473557664318357520289433168951375240783177119330601884005280028469967848339414697442203604155623211857659868531094441973356216371319075554900311523529863270738021251442209537670585615720368478277635206809290627627671146574559986811484619929076208839082406056034304.0

  datatype Tier = Tier(rate: real, burst: real)

  predicate Sane(tier: Tier)
  {
    0.0 < tier.rate && 1.0 <= tier.burst
  }

  /** Configured limits, made usable: a refill that eventually happens, and room for at
      least one whole token. */
  function Sanitized(tier: Tier): (usable: Tier)
    ensures Sane(usable)
    ensures Sane(tier) ==> usable == tier
    ensures usable.rate == (if 0.0 < tier.rate then tier.rate else 1.0 / TWO_POW_1022)
    ensures usable.burst == (if 1.0 <= tier.burst then tier.burst else 1.0)
  {
    Tier(if 0.0 < tier.rate then tier.rate else 1.0 / TWO_POW_1022,
         if 1.0 <= tier.burst then tier.burst else 1.0)
  }

  // ---------------------------------------------------------------- one bucket

  function Min(a: real, b: real): real { if a <= b then a else b }

  /** A bucket's stored fields. */
  datatype Tank = Tank(tokens: real, tier: Tier, lastRefill: real, lastSeen: real)

  predicate Valid(b: Tank)
  {
    Sane(b.tier) && 0.0 <= b.tokens <= b.tier.burst
  }

  function Fresh(tier: Tier, now: real): (b: Tank)
    ensures Sane(tier) ==> Valid(b) && Balance(b, now) == tier.burst
  {
    Tank(tier.burst, tier, now, now)
  }

  /** The tokens a bucket has at `t`, refilled and clamped. */
  function Balance(b: Tank, t: real): (tokens: real)
    ensures Valid(b) ==> 0.0 <= tokens <= b.tier.burst
  {
    if b.lastRefill < t then
      assert Valid(b) ==> 0.0 <= (t - b.lastRefill) * b.tier.rate;
      Min(b.tokens + (t - b.lastRefill) * b.tier.rate, b.tier.burst)
    else b.tokens
  }

  predicate Admits(b: Tank, now: real)
  {
    1.0 <= Balance(b, now)
  }

  function AfterAttempt(b: Tank, now: real): (b': Tank)
    ensures Valid(b) ==> Valid(b')
  {
    var balance := Balance(b, now);
    Tank(if 1.0 <= balance then balance - 1.0 else balance,
         b.tier,
         if b.lastRefill < now then now else b.lastRefill,
         now)
  }

  function RetryAfter(b: Tank, now: real): (wait: real)
    requires 0.0 < b.tier.rate
  {
    Min(Wait(b, now), MAX_WAIT)
  }

  /** How long until a bucket holds one token again. */
  function Wait(b: Tank, now: real): (wait: real)
    requires 0.0 < b.tier.rate
  {
    (1.0 - Balance(b, now)) / b.tier.rate
  }

  class Bucket {
    var tokens: real
    var capacity: real
    var ratePerSec: real
    var lastRefill: real
    var lastSeen: real

    constructor (tier: Tier, now: real)
      ensures Fields() == Fresh(tier, now)
    {
      tokens, capacity, ratePerSec := tier.burst, tier.burst, tier.rate;
      lastRefill, lastSeen := now, now;
    }

    constructor From(b: Tank)
      ensures Fields() == b
    {
      tokens, capacity, ratePerSec := b.tokens, b.tier.burst, b.tier.rate;
      lastRefill, lastSeen := b.lastRefill, b.lastSeen;
    }

    function Fields(): (b: Tank)
      reads this
    {
      Tank(tokens, Tier(ratePerSec, capacity), lastRefill, lastSeen)
    }

    /** Refill for the time elapsed, then spend one token if there is one; otherwise say
        how long until there is. */
    method TryAcquire(now: real) returns (result: Result<int, real>)
      requires Valid(Fields())
      modifies this
      ensures Fields() == AfterAttempt(old(Fields()), now) && Valid(Fields())
      ensures result.Ok? <==> Admits(old(Fields()), now)
      ensures result.Ok? ==> result.value == tokens.Floor
      ensures result.Err? ==> result.error == RetryAfter(old(Fields()), now) > 0.0
    {
      var elapsed := if lastRefill < now then now - lastRefill else 0.0;
      if elapsed > 0.0 {
        tokens := Min(tokens + elapsed * ratePerSec, capacity);
        lastRefill := now;
      }
      lastSeen := now;
      if tokens >= 1.0 {
        tokens := tokens - 1.0;
        return Ok(tokens.Floor);
      }
      var deficit := 1.0 - tokens;
      var secs := deficit / ratePerSec;
      result := Err(Min(secs, MAX_WAIT));
      assert 0.0 < secs;
    }
  }

  lemma AddProducts(a: real, b: real, r: real)
    requires 0.0 <= a && 0.0 <= b && 0.0 < r
    ensures (a + b) * r == a * r + b * r && 0.0 <= a * r && 0.0 <= b * r
  {
  }

  lemma RefillAtLeastZero(elapsed: real, rate: real)
    requires 0.0 <= elapsed && 0.0 < rate
    ensures 0.0 <= elapsed * rate
  {
  }

  /** From any moment a bucket has seen, its balance depends only on the balance then. */
  lemma BalanceLater(b: Tank, now: real, t: real)
    requires Valid(b) && b.lastRefill <= now <= t
    ensures Balance(b, t) == Min(Balance(b, now) + (t - now) * b.tier.rate, b.tier.burst)
  {
    var early, late := now - b.lastRefill, t - now;
    AddProducts(early, late, b.tier.rate);
    assert t - b.lastRefill == early + late;
  }

  /** An attempt takes exactly the token it was given, now and at every later time. */
  lemma AttemptBalance(b: Tank, now: real)
    requires Valid(b) && b.lastRefill <= now
    ensures var b' := AfterAttempt(b, now);
            && b'.lastRefill == now && b'.tier == b.tier
            && Balance(b', now) == Balance(b, now) - (if Admits(b, now) then 1.0 else 0.0)
  {
  }

  // ---------------------------------------------------------------- waiting and probing

  predicate Ascending(from: real, times: seq<real>)
    decreases |times|
  {
    times == [] || (from <= times[0] && Ascending(times[0], times[1..]))
  }

  function AfterAttempts(b: Tank, times: seq<real>): (b': Tank)
    ensures Valid(b) ==> Valid(b')
    decreases |times|
  {
    if times == [] then b else AfterAttempts(AfterAttempt(b, times[0]), times[1..])
  }

  function Admissions(b: Tank, times: seq<real>): (n: nat)
    decreases |times|
  {
    if times == [] then 0
    else (if Admits(b, times[0]) then 1 else 0) + Admissions(AfterAttempt(b, times[0]), times[1..])
  }

  lemma Refills(missing: real, elapsed: real, rate: real)
    requires 0.0 < rate
    ensures missing <= elapsed * rate <==> missing / rate <= elapsed
  {
    var wait := missing / rate;
    assert wait * rate == missing;
    if wait <= elapsed {
      assert 0.0 <= (elapsed - wait) * rate;
    } else {
      assert 0.0 < (wait - elapsed) * rate;
    }
  }

  lemma AdmittedFrom(b: Tank, now: real, t: real)
    requires Valid(b) && b.lastRefill <= now <= t && !Admits(b, now)
    ensures Admits(b, t) <==> now + Wait(b, now) <= t
  {
    hide Balance;
    BalanceLater(b, now, t);
    Refills(1.0 - Balance(b, now), t - now, b.tier.rate);
  }

  /** A rejected probe changes no later balance. */
  lemma ProbeKeepsBalance(b: Tank, probe: real, t: real)
    requires Valid(b) && b.lastRefill <= probe <= t && !Admits(b, probe)
    ensures Balance(AfterAttempt(b, probe), t) == Balance(b, t)
  {
    BalanceLater(b, probe, t);
    BalanceLater(AfterAttempt(b, probe), probe, t);
  }

  /** Nor does it move the deadline. */
  lemma ProbeKeepsDeadline(b: Tank, now: real, probe: real)
    requires Valid(b) && b.lastRefill <= now <= probe
    requires !Admits(b, now) && !Admits(b, probe)
    ensures probe + Wait(AfterAttempt(b, probe), probe) == now + Wait(b, now)
  {
    BalanceLater(b, now, probe);
    ProbeKeepsBalance(b, probe, probe);
    Deadline(Balance(b, now), probe - now, b.tier.rate);
  }

  lemma Deadline(balance: real, spent: real, rate: real)
    requires 0.0 < rate
    ensures (1.0 - (balance + spent * rate)) / rate == (1.0 - balance) / rate - spent
  {
    var wait := (1.0 - balance) / rate;
    assert wait * rate == 1.0 - balance;
    assert (wait - spent) * rate == 1.0 - balance - spent * rate;
  }

  /** The wait is exact and probing is free. After a rejection at `now`, any series of
      further attempts before the wait is up is rejected in full and leaves every later
      balance as if it had not been made; and an attempt at a later `t` is admitted
      exactly when the uncapped wait has passed. */
  lemma {:induction false} WaitIsExact(b: Tank, now: real, times: seq<real>, t: real)
    requires Valid(b) && b.lastRefill <= now <= t && !Admits(b, now)
    requires Ascending(now, times)
    requires forall i :: 0 <= i < |times| ==> times[i] < now + Wait(b, now) && times[i] <= t
    ensures Admissions(b, times) == 0
    ensures Balance(AfterAttempts(b, times), t) == Balance(b, t)
    ensures Admits(AfterAttempts(b, times), t) <==> now + Wait(b, now) <= t
    decreases |times|
  {
    if times == [] {
      AdmittedFrom(b, now, t);
    } else {
      AdmittedFrom(b, now, times[0]);
      ProbeKeepsBalance(b, times[0], t);
      ProbeKeepsDeadline(b, now, times[0]);
      WaitIsExact(AfterAttempt(b, times[0]), times[0], times[1..], t);
    }
  }

  /** What a client is told: nothing succeeds before the reported wait, and an attempt
      exactly that long after a rejection succeeds if and only if the cap of one hour did
      not shorten the wait. */
  lemma ReportedWait(b: Tank, now: real, times: seq<real>)
    requires Valid(b) && b.lastRefill <= now && !Admits(b, now)
    requires Ascending(now, times)
    requires forall i :: 0 <= i < |times| ==> times[i] < now + RetryAfter(b, now)
    ensures Admissions(b, times) == 0
    ensures Admits(AfterAttempts(b, times), now + RetryAfter(b, now)) <==> Wait(b, now) <= MAX_WAIT
  {
    assert 0.0 < Wait(b, now);
    WaitIsExact(b, now, times, now + RetryAfter(b, now));
  }

  // ---------------------------------------------------------------- draining

  /** `n` attempts at one moment. */
  function Burst(n: nat, at: real): (times: seq<real>)
    ensures |times| == n
  {
    if n == 0 then [] else [at] + Burst(n - 1, at)
  }

  lemma {:induction false} SplitAttempts(b: Tank, first: seq<real>, rest: seq<real>)
    ensures AfterAttempts(b, first + rest) == AfterAttempts(AfterAttempts(b, first), rest)
    ensures Admissions(b, first + rest) == Admissions(b, first) + Admissions(AfterAttempts(b, first), rest)
    ensures Admissions(b, first) <= |first|
    decreases |first|
  {
    if first == [] {
      assert first + rest == rest;
    } else {
      assert (first + rest)[1..] == first[1..] + rest;
      SplitAttempts(AfterAttempt(b, first[0]), first[1..], rest);
    }
  }

  /** A burst goes through in full exactly when the bucket holds that many tokens, and
      then costs exactly that many. */
  lemma {:induction false} BurstCosts(b: Tank, n: nat, at: real)
    requires Valid(b) && b.lastRefill <= at
    ensures Admissions(b, Burst(n, at)) <= n
    ensures Admissions(b, Burst(n, at)) == n <==> n as real <= Balance(b, at)
    ensures var b' := AfterAttempts(b, Burst(n, at));
            && b'.tier == b.tier && b'.lastRefill <= at
            && (n as real <= Balance(b, at) ==> Balance(b', at) == Balance(b, at) - n as real)
    decreases n
  {
    if n > 0 {
      AttemptBalance(b, at);
      BurstCosts(AfterAttempt(b, at), n - 1, at);
      assert Burst(n, at)[1..] == Burst(n - 1, at);
      assert (n - 1) as real == n as real - 1.0;
    }
  }

  /** Of a burst exactly as many go through as the bucket holds whole tokens. */
  lemma {:induction false} BurstAdmits(b: Tank, n: nat, at: real)
    requires Valid(b) && b.lastRefill <= at
    ensures Admissions(b, Burst(n, at)) == if n <= Balance(b, at).Floor then n else Balance(b, at).Floor
    decreases n
  {
    hide Balance;
    if n > 0 {
      AttemptBalance(b, at);
      BurstAdmits(AfterAttempt(b, at), n - 1, at);
      assert Burst(n, at)[1..] == Burst(n - 1, at);
    }
  }

  /** Take every whole token of a full bucket, wait until the fraction left has grown to
      one token, and take that. */
  function Drain(tier: Tier, at: real, gap: real): (times: seq<real>)
    requires Sane(tier)
  {
    Burst(tier.burst.Floor, at) + [at + gap]
  }

  predicate IsGap(tier: Tier, gap: real)
  {
    0.0 <= gap && tier.burst - tier.burst.Floor as real + gap * tier.rate == 1.0
  }

  lemma {:induction false} BurstAscends(n: nat, at: real, next: real)
    requires at <= next
    ensures Ascending(at, Burst(n, at) + [next])
    ensures forall i :: 0 <= i < n ==> Burst(n, at)[i] == at
    decreases n
  {
    var times := Burst(n, at) + [next];
    if n > 0 {
      assert times[1..] == Burst(n - 1, at) + [next];
      BurstAscends(n - 1, at, next);
    }
  }

  lemma DrainAscends(tier: Tier, at: real, gap: real)
    requires Sane(tier) && IsGap(tier, gap)
    ensures 0.0 <= gap && Ascending(at, Drain(tier, at, gap))
    ensures Drain(tier, at, gap) != [] && Drain(tier, at, gap)[0] == at
    ensures forall i :: 0 <= i < |Drain(tier, at, gap)| ==> Drain(tier, at, gap)[i] <= at + gap
  {
    BurstAscends(tier.burst.Floor, at, at + gap);
  }

  lemma GapExists(tier: Tier) returns (gap: real)
    requires Sane(tier)
    ensures IsGap(tier, gap)
  {
    var missing := 1.0 - (tier.burst - tier.burst.Floor as real);
    gap := missing / tier.rate;
    assert gap * tier.rate == missing;
  }

  /** After the gap there is one token exactly if the fraction of a full bucket was left. */
  lemma BalanceAfterGap(b: Tank, at: real, gap: real)
    requires Valid(b) && b.lastRefill <= at && IsGap(b.tier, gap)
    ensures var left := b.tier.burst - b.tier.burst.Floor as real;
            && (Admits(b, at + gap) <==> left <= Balance(b, at))
            && (Balance(b, at) == left ==> Balance(b, at + gap) == 1.0)
  {
    BalanceLater(b, at, at + gap);
    var refill := gap * b.tier.rate;
    assert (at + gap - at) * b.tier.rate == refill;
    assert Balance(b, at + gap) == Min(Balance(b, at) + refill, b.tier.burst);
  }

  lemma OneAttempt(b: Tank, at: real)
    ensures AfterAttempts(b, [at]) == AfterAttempt(b, at)
    ensures Admissions(b, [at]) == if Admits(b, at) then 1 else 0
  {
    var one := [at];
    assert one[1..] == [];
    assert AfterAttempts(b, one) == AfterAttempts(AfterAttempt(b, one[0]), one[1..]);
  }

  /** The single attempt that ends a drain. */
  lemma LastToken(b: Tank, at: real, gap: real)
    requires Valid(b) && b.lastRefill <= at && IsGap(b.tier, gap)
    ensures var left := b.tier.burst - b.tier.burst.Floor as real;
            var b' := AfterAttempts(b, [at + gap]);
            && (Admissions(b, [at + gap]) == 1 <==> left <= Balance(b, at))
            && Admissions(b, [at + gap]) <= 1
            && b'.tier == b.tier && b'.lastRefill <= at + gap == b'.lastSeen
            && (Balance(b, at) == left ==> Balance(b', at + gap) == 0.0)
  {
    OneAttempt(b, at + gap);
    BalanceAfterGap(b, at, gap);
    AttemptBalance(b, at + gap);
  }

  /** A drain goes through in full exactly from a full bucket, and empties it. */
  lemma DrainTellsFull(b: Tank, at: real, gap: real)
    requires Valid(b) && b.lastRefill <= at && IsGap(b.tier, gap)
    ensures Admissions(b, Drain(b.tier, at, gap)) == |Drain(b.tier, at, gap)| <==> Balance(b, at) == b.tier.burst
    ensures var b' := AfterAttempts(b, Drain(b.tier, at, gap));
            && b'.tier == b.tier && b'.lastRefill <= at + gap == b'.lastSeen
            && (Balance(b, at) == b.tier.burst ==> Balance(b', at + gap) == 0.0)
  {
    var n := b.tier.burst.Floor;
    SplitAttempts(b, Burst(n, at), [at + gap]);
    BurstCosts(b, n, at);
    LastToken(AfterAttempts(b, Burst(n, at)), at, gap);
  }
}
