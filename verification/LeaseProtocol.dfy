/** Any number of replicas racing for one lease name, and a fenced destination receiving
    the effects of all of them, interleaved one storage step at a time.

    A replica reads the provider's clock, then the row, decides, and commits only if the
    row is unchanged. Answers may be lost after the commit, a transaction whose replica
    gave up may still commit later, replicas may crash, and a replica keeps working under
    any token it was ever granted. Replicas have distinct instance names and one ttl. */
module LeaseProtocol {
  import opened Wrappers
  import opened Decide
  import opened Coordination

  datatype Intent = ToAcquire | ToRenew(held: Lease) | ToRelease(held: Lease)

  /** A transaction that has read the row. */
  datatype Trx = Trx(who: string, intent: Intent, now: int, read: Option<Lease>, seen: nat)

  datatype Call =
    | Idle
    | Clocked(intent: Intent, now: int)
    | Waiting(trx: Trx)
    | Answered(trx: Trx)

  /** An effect on its way to the destination: the fence it read, and when. */
  datatype Effect = Effect(who: string, token: nat, read: Option<nat>, seen: nat)

  datatype System = System(
    ttl: int,
    clock: int,
    row: Option<Lease>,
    revision: nat,
    held: map<string, Lease>,
    calls: map<string, Call>,
    zombies: set<Trx>,          // transactions whose replica stopped waiting
    grants: seq<Lease>,         // every lease ever granted, in commit order
    released: Option<int>,      // when the row was given up, if that was the last write to it
    fence: Option<nat>,
    fenceRevision: nat,
    effects: set<Effect>,       // effects not yet settled
    landed: seq<Effect>         // effects the destination accepted, in order
  )

  function WriteOf(t: Trx, ttl: int): (write: Write<Lease>)
  {
    match t.intent
    case ToAcquire =>
      (match AcquireOn(t.read, t.who, t.now, ttl) case Decided(_, w) => w case Refused(_) => Keep)
    case ToRenew(held) =>
      (match RenewOn(t.read, held, t.now, ttl) case Decided(_, w) => w case Refused(_) => Keep)
    case ToRelease(held) =>
      (match ReleaseOn(t.read, held, t.now) case Decided(_, w) => w case Refused(_) => Keep)
  }

  /** The lease a transaction's answer hands its replica, if it hands it one. */
  function LeaseFrom(t: Trx, ttl: int): (lease: Option<Lease>)
  {
    if t.intent.ToRelease? then None
    else match WriteOf(t, ttl) case Put(row) => Some(row) case Keep => None
  }

  function CallOf(s: System, r: string): (call: Call)
  {
    if r in s.calls then s.calls[r] else Idle
  }

  datatype Move =
    | Tick(later: int)
    | ReadClock(r: string, intent: Intent)
    | ReadRow(r: string)
    | Commit(r: string)
    | LoseRace(r: string, again: bool)
    | Abandon(r: string)
    | LateCommit(t: Trx)
    | Deliver(r: string)
    | LoseAnswer(r: string)
    | DropLease(r: string)
    | Send(r: string, token: nat)
    | Settle(e: Effect)

  function Stored(s: System, row: Lease, t: Trx): (s': System)
  {
    s.(row := Some(row),
       revision := s.revision + 1,
       grants := if t.intent.ToAcquire? then s.grants + [row] else s.grants,
       released := if t.intent.ToRelease? then Some(t.now) else None)
  }

  /** The destination settles an effect: it refuses it, records it, or, having lost a
      race on the fence, reads the fence again. */
  predicate Settles(s: System, e: Effect, s': System)
  {
    && e in s.effects
    && var settled := s.(effects := s.effects - {e});
    && if AcceptOn(e.read, e.token).Refused? then s' == settled
       else if e.seen == s.fenceRevision then
         s' == settled.(fence := Some(e.token), fenceRevision := s.fenceRevision + 1, landed := s.landed + [e])
       else
         s' == settled.(effects := settled.effects + {e.(read := s.fence, seen := s.fenceRevision)})
  }

  ghost predicate Step(s: System, move: Move, s': System)
  {
    match move
    case Tick(later) =>
      s.clock <= later && s' == s.(clock := later)
    // A replica acquires only without a lease, renews the one it has, and forgets the
    // lease before releasing it.
    case ReadClock(r, intent) =>
      && CallOf(s, r).Idle?
      && (intent.ToAcquire? <==> r !in s.held)
      && (!intent.ToAcquire? ==> s.held[r] == intent.held)
      && s' == s.(calls := s.calls[r := Clocked(intent, s.clock)],
                  held := if intent.ToRelease? then s.held - {r} else s.held)
    case ReadRow(r) =>
      && CallOf(s, r).Clocked?
      && var c := CallOf(s, r);
      && s' == s.(calls := s.calls[r := Waiting(Trx(r, c.intent, c.now, s.row, s.revision))])
    case Commit(r) =>
      && CallOf(s, r).Waiting?
      && var t := CallOf(s, r).trx;
      && var answered := s.(calls := s.calls[r := Answered(t)]);
      && (match WriteOf(t, s.ttl)
          case Keep => s' == answered
          case Put(row) => t.seen == s.revision && s' == Stored(answered, row, t))
    case LoseRace(r, again) =>
      && CallOf(s, r).Waiting?
      && var t := CallOf(s, r).trx;
      && t.seen != s.revision
      && s' == s.(calls := s.calls[r := if again then Clocked(t.intent, s.clock) else Idle])
    case Abandon(r) =>
      && CallOf(s, r).Waiting?
      && s' == s.(calls := s.calls[r := Idle], zombies := s.zombies + {CallOf(s, r).trx})
    case LateCommit(t) =>
      && t in s.zombies && t.seen == s.revision
      && WriteOf(t, s.ttl).Put?
      && s' == Stored(s.(zombies := s.zombies - {t}), WriteOf(t, s.ttl).row, t)
    case Deliver(r) =>
      && CallOf(s, r).Answered?
      && var t := CallOf(s, r).trx;
      && var lease := LeaseFrom(t, s.ttl);
      && s' == s.(calls := s.calls[r := Idle],
                  held := if lease.Some? then s.held[r := lease.value]
                          else if t.intent.ToRenew? then s.held - {r} else s.held)
    // The commit landed but the replica is told it failed: it keeps what it had.
    case LoseAnswer(r) =>
      && CallOf(s, r).Answered?
      && s' == s.(calls := s.calls[r := Idle])
    case DropLease(r) =>
      s' == s.(held := s.held - {r})
    // Work runs under any token the replica was ever granted, however stale.
    case Send(r, token) =>
      && 1 <= token <= |s.grants| && s.grants[token - 1].instance == r
      && s' == s.(effects := s.effects + {Effect(r, token, s.fence, s.fenceRevision)})
    case Settle(e) => Settles(s, e, s')
  }

  ghost predicate Next(s: System, s': System)
  {
    exists move :: Step(s, move, s')
  }

  ghost predicate Init(s: System)
  {
    && 0 < s.ttl
    && s.row == None && s.held == map[] && s.calls == map[] && s.zombies == {} && s.grants == []
    && s.released == None
    && s.fence == None && s.effects == {} && s.landed == []
  }

  ghost predicate IsRun(run: seq<System>)
  {
    && run != [] && Init(run[0])
    && forall i :: Follows(run, i)
  }

  ghost predicate Follows(run: seq<System>, i: int)
  {
    0 < i < |run| ==> Next(run[i - 1], run[i])
  }

  // ---------------------------------------------------------------- the invariant

  /** `r` may believe in `lease`: the row is still that grant and runs at least as long,
      or it has moved on and the lease is already past its expiry. */
  predicate Honest(s: System, r: string, lease: Lease)
  {
    && lease.instance == r
    && s.row.Some?
    && if s.row.value.instance == r && s.row.value.token == lease.token
       then lease.expires <= s.row.value.expires
       else lease.expires <= s.clock
  }

  /** If the row is `r`'s, it was written under clock readings no later than `now`. */
  predicate Unrenewed(s: System, r: string, now: int)
  {
    s.row.Some? && s.row.value.instance == r ==>
      s.row.value.acquired <= now && s.row.value.expires <= now + s.ttl
  }

  predicate HasLease(s: System, r: string)
  {
    || r in s.held
    || (CallOf(s, r).Answered? && LeaseFrom(CallOf(s, r).trx, s.ttl).Some?)
  }

  /** A transaction that could still commit read the current row, and unless it is a
      renewal its replica believes in no lease. */
  predicate Open(s: System, t: Trx)
  {
    && t.now <= s.clock && t.seen <= s.revision
    && (!t.intent.ToAcquire? ==> t.intent.held.instance == t.who)
    && (t.seen == s.revision ==>
          && t.read == s.row
          && Unrenewed(s, t.who, t.now)
          && (!t.intent.ToRenew? ==> !HasLease(s, t.who)))
  }

  predicate RowInv(s: System)
  {
    && 0 < s.ttl
    && (s.row.None? <==> s.grants == [])
    && (s.row.Some? ==>
          && var last := s.grants[|s.grants| - 1];
          && s.row.value.token == |s.grants| && s.row.value.instance == last.instance
          && s.row.value.acquired == last.acquired
          && s.row.value.acquired <= s.clock
          && s.row.value.expires <= s.clock + s.ttl)
  }

  /** Grants are numbered from one, without gaps. */
  predicate GrantsInv(s: System)
  {
    forall i :: 0 <= i < |s.grants| ==> s.grants[i].token == i + 1
  }

  ghost predicate CallInv(s: System, r: string)
  {
    match CallOf(s, r)
    case Idle => true
    case Clocked(intent, now) =>
      && now <= s.clock && Unrenewed(s, r, now)
      && (!intent.ToAcquire? ==> intent.held.instance == r)
      && (!intent.ToRenew? ==> r !in s.held)
      && (forall z :: z in s.zombies && z.who == r ==> z.now <= now)
    case Waiting(t) => t.who == r && Open(s, t) && (!t.intent.ToRenew? ==> r !in s.held)
    case Answered(t) =>
      && t.who == r
      && (!t.intent.ToRenew? ==> r !in s.held)
      && (LeaseFrom(t, s.ttl).Some? ==> Honest(s, r, LeaseFrom(t, s.ttl).value))
  }

  ghost predicate LeaseInv(s: System)
  {
    && RowInv(s) && GrantsInv(s)
    && (forall r :: r in s.held ==> Honest(s, r, s.held[r]))
    && (forall r :: r in s.calls ==> CallInv(s, r))
    && (forall z :: z in s.zombies ==> Open(s, z))
  }

  predicate GrantedTo(grants: seq<Lease>, e: Effect)
  {
    1 <= e.token <= |grants| && grants[e.token - 1].instance == e.who
  }

  predicate Ascending(landed: seq<Effect>)
  {
    forall i, j :: 0 <= i < j < |landed| ==> landed[i].token <= landed[j].token
  }

  predicate Current(s: System, e: Effect)
  {
    e.seen <= s.fenceRevision && (e.seen == s.fenceRevision ==> e.read == s.fence)
  }

  ghost predicate FenceInv(s: System)
  {
    && s.fence == (if s.landed == [] then None else Some(s.landed[|s.landed| - 1].token))
    && Ascending(s.landed)
    && (forall e :: e in s.landed ==> GrantedTo(s.grants, e))
    && (forall e :: e in s.effects ==> GrantedTo(s.grants, e) && Current(s, e))
  }

  // ---------------------------------------------------------------- steps keep it

  /** Whatever a current transaction writes keeps every other belief honest. */
  lemma StoreKeepsBeliefs(s: System, t: Trx, s': System)
    requires LeaseInv(s) && Open(s, t) && t.seen == s.revision
    requires WriteOf(t, s.ttl).Put?
    requires s'.row == Some(WriteOf(t, s.ttl).row) && s'.revision == s.revision + 1
    requires s'.ttl == s.ttl && s'.clock == s.clock
    requires s'.grants == if t.intent.ToAcquire? then s.grants + [s'.row.value] else s.grants
    ensures RowInv(s') && GrantsInv(s')
    ensures Honest(s', t.who, s'.row.value)
    ensures forall r, lease :: Honest(s, r, lease) && (r == t.who ==> t.intent.ToRenew?) ==> Honest(s', r, lease)
    ensures s'.row.value.instance == t.who
  {
  }

  lemma StoreKeepsInv(s: System, t: Trx, mid: System, s': System)
    requires LeaseInv(s) && Open(s, t) && t.seen == s.revision
    requires WriteOf(t, s.ttl).Put?
    requires || (t in s.zombies && mid == s.(zombies := s.zombies - {t}))
             || (t.who in s.calls && s.calls[t.who] == Waiting(t) && mid == s.(calls := s.calls[t.who := Answered(t)]))
    requires s' == Stored(mid, WriteOf(t, s.ttl).row, t)
    ensures LeaseInv(s')
  {
    StoreKeepsBeliefs(s, t, s');
    forall r | r in s'.held ensures Honest(s', r, s'.held[r]) {
      assert r == t.who ==> t.intent.ToRenew?;
    }
    forall z | z in s'.zombies ensures Open(s', z) {
    }
    forall r | r in s'.calls ensures CallInv(s', r) {
      assert r != t.who ==> CallOf(s', r) == CallOf(s, r);
      assert CallInv(s, r);
      var c := CallOf(s', r);
      if c.Answered? && r == t.who && CallOf(s, r) == c {
        assert LeaseFrom(c.trx, s.ttl).Some? ==> t.intent.ToRenew?;
      }
      if c.Clocked? && r == t.who {
        assert t.now <= c.now;
      }
    }
  }

  /** A step of replica `r` that leaves the row alone and gives `r` no new lease. */
  ghost predicate Quiet(s: System, r: string, s': System)
  {
    && s'.ttl == s.ttl && s'.clock == s.clock && s'.row == s.row && s'.revision == s.revision
    && s'.grants == s.grants
    && (forall q :: q != r ==> CallOf(s', q) == CallOf(s, q))
    && s'.held - {r} == s.held - {r}
    && s.zombies <= s'.zombies
    && (forall z :: z in s'.zombies && z !in s.zombies ==> CallOf(s, r) == Waiting(z))
    && (HasLease(s', r) ==> HasLease(s, r))
  }

  lemma QuietKeepsInv(s: System, r: string, s': System)
    requires LeaseInv(s) && Quiet(s, r, s')
    requires r in s.calls ==> CallInv(s, r)
    requires r in s'.calls ==> CallInv(s', r)
    requires r in s'.held ==> Honest(s', r, s'.held[r])
    ensures LeaseInv(s')
  {
    forall q | q in s'.held ensures Honest(s', q, s'.held[q]) {
      if q != r {
        assert q in s'.held - {r} && q in s.held - {r};
        assert (s.held - {r})[q] == s.held[q];
      }
    }
    forall q | q != r ensures HasLease(s', q) == HasLease(s, q) {
      assert q in s'.held <==> q in s'.held - {r};
      assert q in s.held <==> q in s.held - {r};
    }
    forall q | q in s'.calls ensures CallInv(s', q) {
      if q != r {
        assert q in s.calls || CallOf(s', q).Idle?;
        assert q in s'.held <==> q in s'.held - {r};
        assert q in s.held <==> q in s.held - {r};
      }
    }
  }

  lemma About(s: System, r: string)
    requires LeaseInv(s)
    ensures r in s.calls ==> CallInv(s, r)
    ensures r in s.held ==> Honest(s, r, s.held[r])
  {
  }

  /** Reading the clock or the row, and losing a race. */
  lemma ReadKeepsInv(s: System, r: string, move: Move, s': System)
    requires LeaseInv(s) && Step(s, move, s')
    requires || (move.ReadClock? && move.r == r) || (move.ReadRow? && move.r == r)
             || (move.LoseRace? && move.r == r)
    ensures LeaseInv(s')
  {
    About(s, r);
    hide LeaseInv;
    QuietKeepsInv(s, r, s');
  }

  /** Giving a transaction up, taking its answer, or losing either. */
  lemma AnswerKeepsInv(s: System, r: string, move: Move, s': System)
    requires LeaseInv(s) && Step(s, move, s')
    requires || (move.Abandon? && move.r == r) || (move.Deliver? && move.r == r)
             || (move.LoseAnswer? && move.r == r) || (move.DropLease? && move.r == r)
    ensures LeaseInv(s')
  {
    About(s, r);
    hide LeaseInv;
    QuietKeepsInv(s, r, s');
  }

  lemma CommitKeepsInv(s: System, r: string, s': System)
    requires LeaseInv(s) && Step(s, Commit(r), s')
    ensures LeaseInv(s')
  {
    var t := CallOf(s, r).trx;
    assert CallInv(s, r);
    if WriteOf(t, s.ttl).Put? {
      StoreKeepsInv(s, t, s.(calls := s.calls[r := Answered(t)]), s');
    } else {
      QuietKeepsInv(s, r, s');
    }
  }

  /** Time passing and effects settling touch no lease. */
  lemma ElsewhereKeepsInv(s: System, s': System)
    requires LeaseInv(s)
    requires s.clock <= s'.clock && s'.ttl == s.ttl && s'.row == s.row && s'.revision == s.revision
    requires s'.held == s.held && s'.calls == s.calls && s'.zombies == s.zombies && s'.grants == s.grants
    ensures LeaseInv(s')
  {
    forall r | r in s'.calls ensures CallInv(s', r) {
      assert CallInv(s, r);
    }
  }

  lemma StepKeepsLeases(s: System, move: Move, s': System)
    requires LeaseInv(s) && Step(s, move, s')
    ensures LeaseInv(s')
  {
    match move
    case Tick(_) => ElsewhereKeepsInv(s, s');
    case Send(_, _) => ElsewhereKeepsInv(s, s');
    case Settle(_) => ElsewhereKeepsInv(s, s');
    case ReadClock(r, _) => ReadKeepsInv(s, r, move, s');
    case ReadRow(r) => ReadKeepsInv(s, r, move, s');
    case LoseRace(r, _) => ReadKeepsInv(s, r, move, s');
    case Abandon(r) => AnswerKeepsInv(s, r, move, s');
    case Deliver(r) => AnswerKeepsInv(s, r, move, s');
    case LoseAnswer(r) => AnswerKeepsInv(s, r, move, s');
    case DropLease(r) => AnswerKeepsInv(s, r, move, s');
    case Commit(r) => CommitKeepsInv(s, r, s');
    case LateCommit(t) => StoreKeepsInv(s, t, s.(zombies := s.zombies - {t}), s');
  }

  lemma SettleKeepsFence(s: System, e: Effect, s': System)
    requires FenceInv(s) && Settles(s, e, s')
    ensures FenceInv(s')
  {
    assert GrantedTo(s.grants, e) && Current(s, e);
    forall x | x in s'.effects ensures GrantedTo(s'.grants, x) && Current(s', x) {
      assert x in s.effects || x == e.(read := s.fence, seen := s.fenceRevision);
    }
    if s'.landed != s.landed {
      assert s.landed != [] ==> s.landed[|s.landed| - 1].token <= e.token;
    }
  }

  lemma StepKeepsFence(s: System, move: Move, s': System)
    requires FenceInv(s) && Step(s, move, s')
    ensures FenceInv(s')
  {
    hide FenceInv;
    if move.Settle? {
      SettleKeepsFence(s, move.e, s');
    } else {
      SendingKeepsFence(s, s') by {
        assert s.grants <= s'.grants;
      }
    }
  }

  /** Steps that land nothing, and send at most under a token that was granted. */
  lemma SendingKeepsFence(s: System, s': System)
    requires FenceInv(s)
    requires s'.landed == s.landed && s'.fence == s.fence && s'.fenceRevision == s.fenceRevision
    requires s.grants <= s'.grants
    requires forall e :: e in s'.effects && e !in s.effects ==> GrantedTo(s.grants, e) && Current(s, e)
    ensures FenceInv(s')
  {
  }

  // ---------------------------------------------------------------- over whole runs

  lemma {:induction false} RunKeepsInv(run: seq<System>, i: nat)
    requires IsRun(run) && i < |run|
    ensures LeaseInv(run[i]) && FenceInv(run[i])
  {
    if i > 0 {
      RunKeepsInv(run, i - 1);
      assert Follows(run, i);
      var move :| Step(run[i - 1], move, run[i]);
      StepKeepsLeases(run[i - 1], move, run[i]);
      StepKeepsFence(run[i - 1], move, run[i]);
    }
  }

  /** In every reachable state a replica whose lease is unexpired by the provider's clock
      still owns the stored row under the same token, so no two replicas hold unexpired
      leases, whatever answers were lost and whatever commits landed late. */
  lemma Exclusion(run: seq<System>, i: nat, r: string)
    requires IsRun(run) && i < |run|
    requires r in run[i].held && run[i].clock < run[i].held[r].expires
    ensures var s := run[i];
            && s.row.Some? && s.row.value.instance == r && s.row.value.token == s.held[r].token
            && s.held[r].expires <= s.row.value.expires
            && forall q :: q in s.held && s.clock < s.held[q].expires ==> q == r
  {
    RunKeepsInv(run, i);
  }

  lemma StepExtendsGrants(s: System, move: Move, s': System)
    requires Step(s, move, s')
    ensures s.grants <= s'.grants && s.landed <= s'.landed && s.clock <= s'.clock
  {
  }

  lemma {:induction false} RunExtends(run: seq<System>, i: nat, j: nat)
    requires IsRun(run) && i <= j < |run|
    ensures run[i].grants <= run[j].grants && run[i].landed <= run[j].landed && run[i].clock <= run[j].clock
    decreases j
  {
    if i < j {
      RunExtends(run, i, j - 1);
      assert Follows(run, j);
      var move :| Step(run[j - 1], move, run[j]);
      StepExtendsGrants(run[j - 1], move, run[j]);
    }
  }

  /** A transaction that would hand the row to another instance found it expired. */
  lemma HandoverNeedsExpiry(s: System, t: Trx)
    requires RowInv(s) && Open(s, t) && t.seen == s.revision && WriteOf(t, s.ttl).Put?
    requires s.row.Some? && s.row.value.instance != WriteOf(t, s.ttl).row.instance
    ensures s.row.value.expires <= s.clock && WriteOf(t, s.ttl).row.token == s.row.value.token + 1
  {
  }

  lemma StepHandover(s: System, move: Move, s': System)
    requires LeaseInv(s) && Step(s, move, s')
    requires s.row.Some? && s'.row.Some? && s'.row.value.instance != s.row.value.instance
    ensures s.row.value.expires <= s'.clock && s'.row.value.token == s.row.value.token + 1
  {
    if move.Commit? {
      assert CallInv(s, move.r);
      HandoverNeedsExpiry(s, CallOf(s, move.r).trx);
    } else {
      assert move.LateCommit?;
      HandoverNeedsExpiry(s, move.t);
    }
  }

  /** A lease changes hands only once the provider's clock has passed its expiry, and
      always at the next token. */
  lemma TakeoverAfterExpiry(run: seq<System>, i: nat)
    requires IsRun(run) && 0 < i < |run|
    requires run[i - 1].row.Some? && run[i].row.Some?
    requires run[i - 1].row.value.instance != run[i].row.value.instance
    ensures run[i - 1].row.value.expires <= run[i].clock
    ensures run[i].row.value.token == run[i - 1].row.value.token + 1
  {
    RunKeepsInv(run, i - 1);
    var s, s' := run[i - 1], run[i];
    assert Follows(run, i);
    var move :| Step(s, move, s');
    StepHandover(s, move, s');
  }

  /** Tokens never go back and never change owner: the row at any later time carries a
      token at least as high, strictly higher if the instance differs, and the grant
      behind a token is the same one for ever. */
  lemma TokensRise(run: seq<System>, i: nat, j: nat)
    requires IsRun(run) && i <= j < |run| && run[i].row.Some?
    ensures run[j].row.Some? && |run[i].grants| <= |run[j].grants|
    ensures run[i].row.value.token <= run[j].row.value.token
    ensures run[i].row.value.instance != run[j].row.value.instance ==>
              run[i].row.value.token < run[j].row.value.token
    ensures forall k :: 0 <= k < |run[i].grants| ==>
              run[j].grants[k] == run[i].grants[k] && run[i].grants[k].token == k + 1
  {
    RunKeepsInv(run, i);
    RunKeepsInv(run, j);
    RunExtends(run, i, j);
  }

  /** Once a destination accepted an effect, nothing under a smaller token lands after
      it, in this state or any later one; and of two effects from different replicas the
      later to land carries the strictly later grant. */
  lemma FencedOrder(run: seq<System>, i: nat, j: nat, a: nat, b: nat)
    requires IsRun(run) && i <= j < |run|
    requires a < |run[i].landed| && a < b < |run[j].landed|
    ensures run[j].landed[a] == run[i].landed[a]
    ensures run[i].landed[a].token <= run[j].landed[b].token
    ensures run[i].landed[a].who != run[j].landed[b].who ==> run[i].landed[a].token < run[j].landed[b].token
    ensures GrantedTo(run[j].grants, run[j].landed[a]) && GrantedTo(run[j].grants, run[j].landed[b])
  {
    RunKeepsInv(run, j);
    RunExtends(run, i, j);
    var first, second := run[j].landed[a], run[j].landed[b];
    assert first in run[j].landed && second in run[j].landed;
    assert first.token <= second.token;
  }

  // ---------------------------------------------------------------- giving a lease up

  predicate Renewing(s: System, r: string)
  {
    match CallOf(s, r)
    case Clocked(intent, _) => intent.ToRenew?
    case Waiting(t) => t.intent.ToRenew?
    case _ => false
  }

  /** A transaction that may yet commit. */
  predicate Pending(s: System, t: Trx)
  {
    t in s.zombies || (t.who in s.calls && s.calls[t.who] == Waiting(t))
  }

  /** Nobody is about to release a row and renew it as well. */
  ghost predicate ReleasersInv(s: System)
  {
    forall t :: Pending(s, t) && t.intent.ToRelease? && t.seen == s.revision ==> !Renewing(s, t.who)
  }

  /** A row that was given up is over, and nobody believes in it or can renew it. */
  ghost predicate ReleasedInv(s: System)
  {
    s.released.Some? ==>
      && s.row.Some? && s.released.value <= s.clock
      && s.row.value.expires == (if s.row.value.acquired < s.released.value then s.released.value else s.row.value.acquired)
      && !HasLease(s, s.row.value.instance) && !Renewing(s, s.row.value.instance)
      && forall z :: z in s.zombies && z.intent.ToRenew? && z.seen == s.revision ==> z.who != s.row.value.instance
  }

  /** What a transaction that commits makes of the row and of the release before it. */
  lemma StoreKeepsReleased(s: System, t: Trx, s': System)
    requires LeaseInv(s) && ReleasersInv(s) && ReleasedInv(s) && Open(s, t) && Pending(s, t) && t.seen == s.revision
    requires WriteOf(t, s.ttl).Put?
    requires s'.row == Some(WriteOf(t, s.ttl).row) && s'.revision == s.revision + 1 && s'.clock == s.clock
    requires s'.released == if t.intent.ToRelease? then Some(t.now) else None
    requires s'.held == s.held && s'.zombies <= s.zombies
    requires forall q :: CallOf(s', q) == CallOf(s, q) || (q == t.who && CallOf(s', q) == Answered(t))
    ensures ReleasedInv(s')
    ensures s.released.Some? ==> !t.intent.ToRenew?
  {
    assert forall z :: z in s.zombies ==> Open(s, z);
    if t.intent.ToRelease? {
      ReleaseGivesUp(t.read, t.intent.held, t.now);
    }
  }

  lemma CommitKeepsReleased(s: System, move: Move, s': System)
    requires LeaseInv(s) && ReleasersInv(s) && ReleasedInv(s) && Step(s, move, s') && (move.Commit? || move.LateCommit?)
    ensures ReleasersInv(s') && ReleasedInv(s')
    ensures s.released.Some? ==> s'.released.Some? || |s.grants| < |s'.grants|
  {
    StepKeepsLeases(s, move, s');
    var t := if move.Commit? then CallOf(s, move.r).trx else move.t;
    assert Open(s, t) by {
      assert move.Commit? ==> CallInv(s, move.r);
    }
    hide LeaseInv;
    if WriteOf(t, s.ttl).Put? {
      StoreKeepsReleased(s, t, s');
      forall x | Pending(s', x) ensures x.seen < s'.revision {
        PendingIsOpen(s, x);
      }
    } else {
      SettledQuietly(s, move.r, s');
    }
  }

  lemma PendingIsOpen(s: System, t: Trx)
    requires LeaseInv(s) && Pending(s, t)
    ensures Open(s, t)
  {
    if t !in s.zombies {
      assert CallInv(s, t.who);
    }
  }

  /** An answer that changed nothing. */
  lemma SettledQuietly(s: System, r: string, s': System)
    requires ReleasersInv(s) && ReleasedInv(s) && CallOf(s, r).Waiting?
    requires WriteOf(CallOf(s, r).trx, s.ttl).Keep? && s' == s.(calls := s.calls[r := Answered(CallOf(s, r).trx)])
    ensures ReleasersInv(s') && ReleasedInv(s')
  {
    forall x | Pending(s', x) && x.intent.ToRelease? && x.seen == s'.revision ensures !Renewing(s', x.who) {
      assert Pending(s, x);
    }
  }

  /** A step of `r` alone that writes no row, hands out no lease, and begins no renewal but
      of a lease held. */
  ghost predicate Still(s: System, r: string, s': System)
  {
    && s'.row == s.row && s'.revision == s.revision && s'.released == s.released && s.clock <= s'.clock && s'.ttl == s.ttl
    && (forall q :: q != r ==> CallOf(s', q) == CallOf(s, q))
    && (forall q :: HasLease(s', q) ==> HasLease(s, q))
    && (Renewing(s', r) ==> Renewing(s, r) || r in s.held)
    && (forall z :: z in s'.zombies && z !in s.zombies ==> CallOf(s, r) == Waiting(z) && z.who == r)
  }

  lemma StillKeepsReleased(s: System, r: string, s': System)
    requires LeaseInv(s) && ReleasersInv(s) && ReleasedInv(s) && Still(s, r, s')
    requires CallOf(s', r).Waiting? && CallOf(s', r) != CallOf(s, r) ==> CallOf(s', r).trx.who == r
    ensures ReleasersInv(s') && ReleasedInv(s')
  {
    forall x | Pending(s', x) && x.intent.ToRelease? && x.seen == s'.revision ensures !Renewing(s', x.who) {
      if Pending(s, x) {
        PendingIsOpen(s, x);
      }
    }
  }

  lemma ReadsStill(s: System, move: Move, s': System)
    requires LeaseInv(s) && Step(s, move, s') && (move.ReadClock? || move.ReadRow? || move.LoseRace?)
    ensures Still(s, move.r, s')
    ensures CallOf(s', move.r).Waiting? ==> CallOf(s', move.r).trx.who == move.r
  {
    About(s, move.r);
    hide LeaseInv, WriteOf;
  }

  lemma DeliversStill(s: System, move: Move, s': System)
    requires LeaseInv(s) && Step(s, move, s') && move.Deliver?
    ensures Still(s, move.r, s') && !CallOf(s', move.r).Waiting?
  {
    About(s, move.r);
    hide LeaseInv, WriteOf;
  }

  lemma AnswersStill(s: System, move: Move, s': System)
    requires LeaseInv(s) && Step(s, move, s')
    requires move.Abandon? || move.LoseAnswer? || move.DropLease?
    ensures Still(s, move.r, s')
    ensures CallOf(s', move.r).Waiting? ==> CallOf(s', move.r) == CallOf(s, move.r)
  {
    About(s, move.r);
    hide LeaseInv, WriteOf;
  }

  /** Steps that write no row. */
  lemma QuietKeepsReleased(s: System, move: Move, s': System)
    requires LeaseInv(s) && ReleasersInv(s) && ReleasedInv(s) && Step(s, move, s')
    requires !move.Commit? && !move.LateCommit?
    ensures ReleasersInv(s') && ReleasedInv(s') && s'.released == s.released
  {
    hide LeaseInv, ReleasersInv, ReleasedInv, WriteOf;
    match move
    case Tick(_) => StillKeepsReleased(s, "", s');
    case Send(_, _) => StillKeepsReleased(s, "", s');
    case Settle(_) => StillKeepsReleased(s, "", s');
    case ReadClock(r, _) => ReadsStill(s, move, s'); StillKeepsReleased(s, r, s');
    case ReadRow(r) => ReadsStill(s, move, s'); StillKeepsReleased(s, r, s');
    case LoseRace(r, _) => ReadsStill(s, move, s'); StillKeepsReleased(s, r, s');
    case Abandon(r) => AnswersStill(s, move, s'); StillKeepsReleased(s, r, s');
    case Deliver(r) => DeliversStill(s, move, s'); StillKeepsReleased(s, r, s');
    case LoseAnswer(r) => AnswersStill(s, move, s'); StillKeepsReleased(s, r, s');
    case DropLease(r) => AnswersStill(s, move, s'); StillKeepsReleased(s, r, s');
  }

  lemma StepKeepsReleased(s: System, move: Move, s': System)
    requires LeaseInv(s) && ReleasersInv(s) && ReleasedInv(s) && Step(s, move, s')
    ensures ReleasersInv(s') && ReleasedInv(s')
    ensures s.released.Some? ==> s'.released.Some? || |s.grants| < |s'.grants|
  {
    hide LeaseInv, ReleasersInv, ReleasedInv, Step;
    if move.Commit? || move.LateCommit? {
      CommitKeepsReleased(s, move, s');
    } else {
      QuietKeepsReleased(s, move, s');
    }
  }

  lemma {:induction false} RunKeepsReleased(run: seq<System>, i: nat)
    requires IsRun(run) && i < |run|
    ensures ReleasersInv(run[i]) && ReleasedInv(run[i])
  {
    if i > 0 {
      RunKeepsReleased(run, i - 1);
      RunKeepsInv(run, i - 1);
      assert Follows(run, i);
      var move :| Step(run[i - 1], move, run[i]);
      hide Step;
      StepKeepsReleased(run[i - 1], move, run[i]);
    }
  }

  lemma {:induction false} ReleasedLasts(run: seq<System>, i: nat, j: nat)
    requires IsRun(run) && i <= j < |run| && run[i].released.Some? && |run[j].grants| == |run[i].grants|
    ensures run[j].released.Some?
    decreases j - i
  {
    hide LeaseInv, FenceInv, ReleasersInv, ReleasedInv;
    if i < j {
      RunExtends(run, i, j - 1);
      RunExtends(run, j - 1, j);
      ReleasedLasts(run, i, j - 1);
      RunKeepsInv(run, j - 1);
      RunKeepsReleased(run, j - 1);
      assert Follows(run, j);
      var move :| Step(run[j - 1], move, run[j]);
      hide Step;
      StepKeepsReleased(run[j - 1], move, run[j]);
    }
  }

  /** A lease released and not taken since is free: it stays given up until somebody is
      granted the next token, it is over by the provider's clock, and whoever asks from then
      on is granted that token. */
  lemma ReleasedIsFree(run: seq<System>, i: nat, j: nat, q: string, now: int)
    requires IsRun(run) && i <= j < |run| && run[i].released.Some? && |run[j].grants| == |run[i].grants|
    requires run[j].clock <= now
    ensures var s := run[j];
            && s.released.Some? && s.row.Some? && s.row.value.expires <= s.clock
            && s.row.value.token == |s.grants|
            && (|s.grants| < MAX_STORED ==>
                  var granted := Lease(q, |s.grants| + 1, now, FreshExpiry(now, s.ttl, true));
                  AcquireOn(s.row, q, now, s.ttl) == Decided(Granted(granted), Put(granted)))
  {
    RunKeepsInv(run, j);
    RunKeepsReleased(run, j);
    ReleasedLasts(run, i, j);
    hide Follows, FenceInv, ReleasersInv, HasLease, Renewing;
  }

  /** And a release that commits on its own row does give it up: same grant, over at the
      later of its acquisition and the time the release read. */
  lemma ReleaseCommits(s: System, t: Trx, s': System)
    requires LeaseInv(s) && t.intent.ToRelease? && t.seen == s.revision && s.row.Some?
    requires t.intent.held.instance == s.row.value.instance && t.intent.held.token == s.row.value.token
    requires || (CallOf(s, t.who) == Waiting(t) && Step(s, Commit(t.who), s'))
             || Step(s, LateCommit(t), s')
    ensures s'.released == Some(t.now) && GivenUp(s.row, t.intent.held, t.now, s'.row)
  {
    if CallOf(s, t.who) == Waiting(t) {
      assert CallInv(s, t.who);
    }
  }
}
