/** Fenced singleton coordination: the lease and fence rules, the stored rows, and the
    replica that runs work under a lease. Times are the provider's milliseconds. */
module Coordination {
  import opened Wrappers
  import opened Decide

  const MAX_STORED: int := 0x7FFF_FFFF_FFFF_FFFF   // tokens and times are stored as i64

  datatype Lease = Lease(instance: string, token: nat, acquired: int, expires: int)

  datatype Acquisition = Granted(lease: Lease) | Held(holder: string, expires: int)

  function Max(a: int, b: int): int { if a < b then b else a }

  function Min(a: int, b: int): int { if a < b then a else b }

  /** Whether an acquisition is granted, and the row it writes. A row another instance
      holds unexpired is left alone; anything else is taken at the next token. */
  function AcquireOn(row: Option<Lease>, instance: string, now: int, ttl: int): (decision: Decision<Lease, Acquisition>)
  {
    if ttl <= 0 then Refused(Failed)
    else if row.Some? && now < row.value.expires && row.value.instance != instance then
      Decided(Held(row.value.instance, row.value.expires), Keep)
    else
      var token := if row.Some? then row.value.token + 1 else 1;
      if MAX_STORED < token then Refused(Failed)
      else
        var granted := Lease(instance, token, now, Min(now + ttl, MAX_STORED));
        Decided(Granted(granted), Put(granted))
  }

  /** What an acquisition comes to, in terms of the rows: another's unexpired lease is left
      alone and named; otherwise the caller's lease is the row, at the next token, from now
      on for as long as it lives. */
  ghost predicate Acquired(before: Option<Lease>, instance: string, now: int, ttl: int, after: Option<Lease>,
                           answer: Option<Acquisition>)
  {
    var token := if before.Some? then before.value.token + 1 else 1;
    var taken := before.Some? && before.value.instance != instance && now < before.value.expires;
    if 0 < ttl && taken then
      after == before && answer == Some(Held(before.value.instance, before.value.expires))
    else if 0 < ttl && token <= MAX_STORED then
      && after.Some? && answer == Some(Granted(after.value))
      && after.value.instance == instance && after.value.token == token && after.value.acquired == now
      && after.value.expires == (if now + ttl <= MAX_STORED then now + ttl else MAX_STORED)
    else after == before && answer == None
  }

  lemma AcquisitionMeans(row: Option<Lease>, instance: string, now: int, ttl: int)
    ensures var decision := AcquireOn(row, instance, now, ttl);
            && Acquired(row, instance, now, ttl, Apply(decision, row),
                        if decision.Decided? then Some(decision.answer) else None)
            && (decision.Refused? ==> decision.error == Failed)
  {
  }

  /** A renewal extends the very row it holds, under the same token, while unexpired. */
  function RenewOn(row: Option<Lease>, held: Lease, now: int, ttl: int): (decision: Decision<Lease, Option<Lease>>)
  {
    if ttl <= 0 then Refused(Denied)
    else if row.None? || row.value.instance != held.instance || row.value.token != held.token || row.value.expires <= now then
      Decided(None, Keep)
    else
      var renewed := row.value.(expires := now + ttl);
      Decided(Some(renewed), Put(renewed))
  }

  /** A release expires its own row and keeps it, so the token counter survives. */
  function ReleaseOn(row: Option<Lease>, held: Lease, now: int): (decision: Decision<Lease, ()>)
  {
    if row.Some? && row.value.instance == held.instance && row.value.token == held.token then
      Decided((), Put(row.value.(expires := Max(row.value.acquired, now))))
    else Decided((), Keep)
  }

  /** `after` is the row `before` given up at `now`: the same grant, over as soon as it can
      be. Any other row is left alone. */
  predicate GivenUp(before: Option<Lease>, held: Lease, now: int, after: Option<Lease>)
  {
    if before.Some? && before.value.instance == held.instance && before.value.token == held.token then
      && after.Some?
      && after.value.instance == before.value.instance && after.value.token == before.value.token
      && after.value.acquired == before.value.acquired
      && after.value.expires == (if before.value.acquired < now then now else before.value.acquired)
    else after == before
  }

  lemma ReleaseGivesUp(row: Option<Lease>, held: Lease, now: int)
    ensures GivenUp(row, held, now, Apply(ReleaseOn(row, held, now), row))
  {
  }

  /** From the moment a lease was given up, any instance that asks gets the next token. */
  lemma ReleasedThenTaken(row: Lease, now: int, after: Option<Lease>, instance: string, later: int, ttl: int)
    requires GivenUp(Some(row), row, now, after) && now <= later && row.acquired <= later
    requires 0 < ttl && row.token < MAX_STORED
    ensures AcquireOn(after, instance, later, ttl) ==
            var granted := Lease(instance, row.token + 1, later, FreshExpiry(later, ttl, true));
            Decided(Granted(granted), Put(granted))
  {
  }

  /** A destination moves its fence forward or stays; moving it back is refused. */
  function AcceptOn(fence: Option<nat>, token: nat): (decision: Decision<nat, ()>)
  {
    if fence.Some? && token < fence.value then Refused(Conflict)
    else Decided((), Put(token))
  }

  datatype Standing = Keeping | Renewing | Stopping

  /** Where a holder stands at the provider's time: stop inside the margin, renew once
      more than half spent. */
  function StandingOf(lease: Lease, margin: int, now: int): (standing: Standing)
  {
    var deadline := lease.expires - margin;
    if deadline <= now then Stopping
    else if lease.acquired + (deadline - lease.acquired) / 2 <= now then Renewing
    else Keeping
  }

  /** A holder that may work at `now` is at least the margin away from its expiry. */
  lemma WorkingIsInsideTheMargin(lease: Lease, margin: int, now: int)
    requires 0 < margin
    ensures StandingOf(lease, margin, now) != Stopping <==> now + margin < lease.expires
  {
  }

  /** A holder renews from half of the time it may work on, and not before. */
  lemma RenewsFromHalf(lease: Lease, margin: int, now: int)
    requires 0 < margin
    ensures StandingOf(lease, margin, now) == Renewing <==> now + margin < lease.expires && HalfSpent(lease, margin, now)
    ensures StandingOf(lease, margin, now) == Keeping <==> now + margin < lease.expires && !HalfSpent(lease, margin, now)
  {
    WorkingIsInsideTheMargin(lease, margin, now);
  }

  /** At least half of the time from the acquisition to the margin has passed, to the
      millisecond. */
  predicate HalfSpent(lease: Lease, margin: int, now: int)
  {
    (lease.expires - margin) - lease.acquired <= 2 * (now - lease.acquired) + 1
  }

  /** A lease taken or renewed at `now` is worked under at once, without a look at the
      margin. By the margin its holder should already stop exactly when the time to live
      does not exceed the margin, or an acquisition runs into the largest storable time. */
  lemma FreshWorkInsideMarginIff(lease: Lease, margin: int, ttl: int, now: int, acquired: bool)
    requires 0 < margin && lease.expires == FreshExpiry(now, ttl, acquired)
    ensures StandingOf(lease, margin, now) == Stopping <==> ttl <= margin || (acquired && MAX_STORED <= now + margin)
  {
  }

  function FreshExpiry(now: int, ttl: int, acquired: bool): (expires: int)
  {
    if acquired then Min(now + ttl, MAX_STORED) else now + ttl
  }

  /** What the storage does with one call. */
  datatype Delivery =
    | Reached(now: int)         // the clock answered and the transaction settled
    | Unreachable               // nothing was decided
    | Unacknowledged(now: int)  // decided and committed, but reported as an error

  /** A renewal that reaches the storage extends the row: it is still the holder's, under the
      same token and unexpired. */
  predicate Renews(row: Option<Lease>, held: Lease, ttl: int, delivery: Delivery)
  {
    && 0 < ttl && !delivery.Unreachable? && row.Some?
    && row.value.instance == held.instance && row.value.token == held.token && delivery.now < row.value.expires
  }

  /** The lease and fence rows of the node's storage. */
  class StorageCoordination {
    var leases: map<string, Lease>
    var fences: map<string, nat>

    constructor ()
      ensures leases == map[] && fences == map[]
    {
      leases, fences := map[], map[];
    }

    function Row(name: string): (row: Option<Lease>)
      reads this
      ensures row.Some? <==> name in leases
    {
      if name in leases then Some(leases[name]) else None
    }

    function Fence(name: string): (fence: Option<nat>)
      reads this
      ensures fence.Some? <==> name in fences
    {
      if name in fences then Some(fences[name]) else None
    }

    /** Only `name`'s lease row may differ, and it is what `decision` writes. */
    twostate predicate Wrote<A(!new)>(name: string, decision: Decision<Lease, A>)
      reads this
    {
      && leases == (match decision
                    case Decided(_, Put(row)) => old(leases)[name := row]
                    case _ => old(leases))
      && fences == old(fences)
    }

    method Acquire(name: string, instance: string, ttl: int, delivery: Delivery) returns (answer: Result<Acquisition, PortError>)
      modifies this
      ensures delivery.Unreachable? ==> answer.Err? && leases == old(leases) && fences == old(fences)
      ensures !delivery.Unreachable? ==>
                var decision := AcquireOn(old(Row(name)), instance, delivery.now, ttl);
                && Wrote(name, decision)
                && (decision.Refused? ==> answer == Err(decision.error))
                && (decision.Decided? && delivery.Reached? ==> answer == Ok(decision.answer))
                && (decision.Decided? && delivery.Unacknowledged? ==> answer.Err?)
      ensures delivery.Reached? ==>
                Acquired(old(Row(name)), instance, delivery.now, ttl, Row(name), if answer.Ok? then Some(answer.value) else None)
    {
      if delivery.Unreachable? {
        return Err(Unavailable);
      }
      AcquisitionMeans(Row(name), instance, delivery.now, ttl);
      if ttl <= 0 {
        return Err(Failed);
      }
      var now := delivery.now;
      var token := 1;
      if name in leases {
        var current := leases[name];
        if now < current.expires && current.instance != instance {
          return if delivery.Reached? then Ok(Held(current.instance, current.expires)) else Err(Unavailable);
        }
        token := current.token + 1;
      }
      if MAX_STORED < token {
        return Err(Failed);
      }
      var granted := Lease(instance, token, now, Min(now + ttl, MAX_STORED));
      leases := leases[name := granted];
      answer := if delivery.Reached? then Ok(Granted(granted)) else Err(Unavailable);
    }

    method Renew(name: string, held: Lease, ttl: int, delivery: Delivery) returns (answer: Result<Option<Lease>, PortError>)
      modifies this
      ensures delivery.Unreachable? ==> answer.Err? && leases == old(leases) && fences == old(fences)
      ensures !delivery.Unreachable? ==>
                var decision := RenewOn(old(Row(name)), held, delivery.now, ttl);
                && Wrote(name, decision)
                && (decision.Refused? ==> answer == Err(decision.error))
                && (decision.Decided? && delivery.Reached? ==> answer == Ok(decision.answer))
                && (decision.Decided? && delivery.Unacknowledged? ==> answer.Err?)
      ensures var was := old(Row(name));
              if Renews(was, held, ttl, delivery) then
                && Row(name).Some? && Row(name).value.expires == delivery.now + ttl
                && Row(name).value.instance == held.instance && Row(name).value.token == held.token
                && Row(name).value.acquired == was.value.acquired
                && (delivery.Reached? ==> answer == Ok(Row(name)))
              else Row(name) == was && (delivery.Reached? && 0 < ttl ==> answer == Ok(None)) && (ttl <= 0 ==> answer == Err(Denied))
    {
      if ttl <= 0 {
        return Err(Denied);
      }
      if delivery.Unreachable? {
        return Err(Unavailable);
      }
      var now := delivery.now;
      if name !in leases {
        return if delivery.Reached? then Ok(None) else Err(Unavailable);
      }
      var row := leases[name];
      if row.instance != held.instance || row.token != held.token || row.expires <= now {
        return if delivery.Reached? then Ok(None) else Err(Unavailable);
      }
      var renewed := row.(expires := now + ttl);
      leases := leases[name := renewed];
      answer := if delivery.Reached? then Ok(Some(renewed)) else Err(Unavailable);
    }

    method Release(name: string, held: Lease, delivery: Delivery) returns (answer: Result<(), PortError>)
      modifies this
      ensures delivery.Unreachable? ==> answer.Err? && leases == old(leases) && fences == old(fences)
      ensures !delivery.Unreachable? ==>
                && GivenUp(old(Row(name)), held, delivery.now, Row(name))
                && (forall other :: other != name ==> Row(other) == old(Row(other))) && fences == old(fences)
                && answer.Ok? == delivery.Reached?
    {
      if delivery.Unreachable? {
        return Err(Unavailable);
      }
      if name in leases {
        var row := leases[name];
        if row.instance == held.instance && row.token == held.token {
          leases := leases[name := row.(expires := Max(row.acquired, delivery.now))];
        }
      }
      answer := if delivery.Reached? then Ok(()) else Err(Unavailable);
    }

    method Accept(name: string, token: nat) returns (answer: Result<(), PortError>)
      modifies this
      ensures leases == old(leases)
      ensures answer.Ok? <==> old(Fence(name)).None? || old(fences[name]) <= token
      ensures fences == if answer.Ok? then old(fences)[name := token] else old(fences)
      ensures answer.Ok? <==> AcceptOn(old(Fence(name)), token).Decided?
    {
      if name in fences && token < fences[name] {
        return Err(Conflict);
      }
      fences := fences[name := token];
      answer := Ok(());
    }
  }

  datatype Pass = Ran(token: nat) | Standby(holder: string) | Yielded

  /** What a replica remembers about a job that only one of them may run: the lease it last
      got, if any. */
  class Singleton {
    const coordination: StorageCoordination
    const name: string
    const instance: string
    const ttl: int
    const margin: int
    var held: Option<Lease>

    constructor (coordination: StorageCoordination, name: string, instance: string, ttl: int, margin: int)
      requires 0 < margin
      ensures this.coordination == coordination && this.name == name && this.instance == instance
      ensures this.ttl == ttl && this.margin == margin && held == None
    {
      this.coordination, this.name, this.instance := coordination, name, instance;
      this.ttl, this.margin := ttl, margin;
      held := None;
    }

    /** The lease a replica may believe in after a pass: the one it had, or one the
        storage just recorded for it. It never believes in a later expiry than that. */
    twostate predicate Believes()
      reads this, coordination
    {
      held.None? || held == old(held) || held == coordination.Row(name)
    }

    /** Stop being the holder. Nothing is believed any more, even if releasing the row fails. */
    method Resign(delivery: Delivery) returns (answer: Result<(), PortError>)
      modifies this, coordination
      ensures held == None
      ensures coordination.fences == old(coordination.fences)
      ensures old(held).None? ==> answer == Ok(()) && coordination.leases == old(coordination.leases)
      ensures old(held).Some? && !delivery.Unreachable? ==>
                && GivenUp(old(coordination.Row(name)), old(held).value, delivery.now, coordination.Row(name))
                && forall other :: other != name ==> coordination.Row(other) == old(coordination.Row(other))
      ensures old(held).Some? && delivery.Unreachable? ==> coordination.leases == old(coordination.leases)
    {
      answer := Ok(());
      if held.Some? {
        var lease := held.value;
        held := None;
        answer := coordination.Release(name, lease, delivery);
      }
    }

    /** One pass: acquire, keep, renew, or stop. Work runs only under the token of the
        lease held at the end of the pass. A lease kept as it is is worked under only at a
        provider time more than the margin before its expiry; one just acquired or renewed
        is worked under in any case, for as long as it was just given. A replica that cannot
        read the provider's clock drops its lease; one whose renewal merely reports an
        error keeps the lease it had, expiry and all. */
    method StandingPass(clock: Result<int, PortError>, delivery: Delivery) returns (pass: Result<Pass, PortError>)
      requires 0 < margin
      modifies this, coordination
      ensures Believes()
      ensures coordination.fences == old(coordination.fences)
      ensures pass.Ok? && pass.value.Ran? ==> held.Some? && held.value.token == pass.value.token
      ensures pass.Ok? && pass.value.Ran? && held == old(held) && coordination.leases == old(coordination.leases) ==>
                clock.Ok? && clock.value + margin < held.value.expires
      ensures pass.Ok? && pass.value.Ran? && !(held == old(held) && coordination.leases == old(coordination.leases)) ==>
                && delivery.Reached? && held.value.expires == FreshExpiry(delivery.now, ttl, old(held).None?)
                && (StandingOf(held.value, margin, delivery.now) == Stopping <==>
                      ttl <= margin || (old(held).None? && MAX_STORED <= delivery.now + margin))
      ensures pass.Ok? && !pass.value.Ran? ==> held == None
      ensures clock.Err? ==> pass == Err(clock.error) && held == None && coordination.leases == old(coordination.leases)
      ensures clock.Ok? && old(held).Some? && pass.Err? ==> held == old(held)
      ensures clock.Ok? && old(held).Some? && clock.value + margin >= old(held).value.expires ==>
                && pass == Ok(Yielded)
                && (!delivery.Unreachable? ==>
                      GivenUp(old(coordination.Row(name)), old(held).value, delivery.now, coordination.Row(name)))
      ensures clock.Ok? && old(held).Some? && clock.value + margin < old(held).value.expires ==>
                if HalfSpent(old(held).value, margin, clock.value) then
                  && coordination.leases == (if Renews(old(coordination.Row(name)), old(held).value, ttl, delivery)
                                             then old(coordination.leases)[name := old(coordination.leases)[name].(expires := delivery.now + ttl)]
                                             else old(coordination.leases))
                  && (pass.Ok? && pass.value.Ran? <==>
                        delivery.Reached? && Renews(old(coordination.Row(name)), old(held).value, ttl, delivery))
                else pass == Ok(Ran(old(held).value.token)) && held == old(held) && coordination.leases == old(coordination.leases)
    {
      if clock.Err? {
        held := None;
        return Err(clock.error);
      }
      if held.None? {
        pass := AcquirePass(delivery);
        return;
      }
      var lease := held.value;
      RenewsFromHalf(lease, margin, clock.value);
      match StandingOf(lease, margin, clock.value) {
        case Keeping =>
          pass := Ok(Ran(lease.token));
        case Renewing =>
          var renewed := coordination.Renew(name, lease, ttl, delivery);
          match renewed {
            case Err(error) =>
              pass := Err(error);
            case Ok(Some(next)) =>
              held := Some(next);
              pass := Ok(Ran(next.token));
            case Ok(None) =>
              held := None;
              pass := Ok(Yielded);
          }
        case Stopping =>
          held := None;
          var _ := coordination.Release(name, lease, delivery);
          pass := Ok(Yielded);
      }
    }

    method AcquirePass(delivery: Delivery) returns (pass: Result<Pass, PortError>)
      requires held == None
      modifies this, coordination
      ensures held.None? || held == coordination.Row(name)
      ensures coordination.fences == old(coordination.fences)
      ensures pass.Ok? && pass.value.Ran? <==> held.Some?
      ensures held.Some? ==>
                && delivery.Reached? && held.value.expires == FreshExpiry(delivery.now, ttl, true)
                && held.value.instance == instance && held.value.token == pass.value.token
                && (old(coordination.Row(name)).Some? ==>
                      && old(coordination.leases[name]).token < held.value.token
                      && (old(coordination.leases[name]).instance != instance ==>
                            old(coordination.leases[name]).expires <= held.value.acquired))
    {
      var answer := coordination.Acquire(name, instance, ttl, delivery);
      match answer
      case Err(error) =>
        pass := Err(error);
      case Ok(Granted(lease)) =>
        held := Some(lease);
        pass := Ok(Ran(lease.token));
      case Ok(Held(holder, _)) =>
        pass := Ok(Standby(holder));
    }
  }
}
