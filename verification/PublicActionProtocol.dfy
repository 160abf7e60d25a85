/** Any number of public mutations at once, under any keys, one storage step or effect at a
    time. The executor may fail, a commit may be refused or may land without being
    acknowledged, a request may stall anywhere for any time, and any request may crash. */
module PublicActionProtocol {
  import opened Wrappers
  import opened PublicAction

  /** A stored claim: the request that made it, and a revision no other write had. */
  datatype Row = Row(entry: Entry, owner: nat, revision: nat)

  datatype Phase =
    | Fresh
    | Classifying                              // the claim was taken
    | Holding                                  // the claim is this request's
    | Executed(body: Bytes)                    // the effect happened
    | Failing                                  // the effect failed
    | Releasing(seen: Option<Row>)             // read the row, about to delete it
    | Done

  datatype Call = Call(subject: string, key: string, digest: Digest, phase: Phase)
  {
    function Key(): (row: string)
    {
      ClaimKey(subject, key)
    }
  }

  /** An effect that succeeded, or a response with status 200. */
  datatype Deed = Deed(call: nat, body: Bytes)

  datatype System = System(
    calls: seq<Call>,
    table: map<string, Row>,
    writes: nat,
    effects: seq<Deed>,
    answers: seq<Deed>
  )

  datatype Move =
    | Arrive(subject: string, key: string, digest: Digest)
    | Create(r: nat, acknowledged: bool)
    | Conflict(r: nat)
    | Read(r: nat)
    | Execute(r: nat, outcome: Option<Bytes>)
    | Complete(r: nat, acknowledged: bool)
    | ReadClaim(r: nat)
    | Delete(r: nat)
    | Crash(r: nat)

  function At(s: System, r: nat, phase: Phase): (s': System)
    requires r < |s.calls|
  {
    s.(calls := s.calls[r := s.calls[r].(phase := phase)])
  }

  /** Write a row under a new revision. */
  function Put(s: System, row: string, entry: Entry, owner: nat): (s': System)
  {
    s.(table := s.table[row := Row(entry, owner, s.writes + 1)], writes := s.writes + 1)
  }

  /** The response a call is replayed, if its row is there and completed for the same
      request. */
  function Replay(s: System, c: Call): (response: Option<Bytes>)
  {
    if c.Key() !in s.table then None
    else match Classify(s.table[c.Key()].entry, c.digest)
      case Completed(body) => Some(body)
      case _ => None
  }

  ghost predicate Moves(s: System, move: Move, s': System)
  {
    if move.Arrive? then
      s' == s.(calls := s.calls + [Call(move.subject, move.key, move.digest, Fresh)])
    else
      && move.r < |s.calls|
      && var r, c := move.r, s.calls[move.r];
      && match move
         case Create(_, acknowledged) =>
           && c.phase.Fresh? && c.Key() !in s.table
           && s' == Put(At(s, r, if acknowledged then Holding else Done), c.Key(), Entry(c.digest, None, false), r)
         case Conflict(_) =>
           c.phase.Fresh? && c.Key() in s.table && s' == At(s, r, Classifying)
         // The row may be gone again by the time it is classified: that is an error.
         case Read(_) =>
           && c.phase.Classifying?
           && s' == At(s, r, Done).(answers := match Replay(s, c)
                                               case Some(body) => s.answers + [Deed(r, body)]
                                               case None => s.answers)
         case Execute(_, outcome) =>
           && c.phase.Holding?
           && s' == (match outcome
                     case Some(body) => At(s, r, Executed(body)).(effects := s.effects + [Deed(r, body)])
                     case None => At(s, r, Failing))
         // The update names the key alone; it fails only if there is no row at all.
         case Complete(_, acknowledged) =>
           && c.phase.Executed? && c.Key() in s.table
           && var row, body := s.table[c.Key()], c.phase.body;
           && s' == Put(At(s, r, Done), c.Key(), row.entry.(response := Some(body), completed := true), row.owner)
                    .(answers := if acknowledged then s.answers + [Deed(r, body)] else s.answers)
         case ReadClaim(_) =>
           && c.phase.Failing?
           && s' == At(s, r, Releasing(if c.Key() in s.table then Some(s.table[c.Key()]) else None))
         // The delete commits only if the row is still the one read, and not completed.
         case Delete(_) =>
           && c.phase.Releasing? && c.phase.seen.Some? && !c.phase.seen.value.entry.completed
           && c.Key() in s.table && s.table[c.Key()].revision == c.phase.seen.value.revision
           && s' == At(s, r, Done).(table := s.table - {c.Key()})
         case Crash(_) => s' == At(s, r, Done)
  }

  ghost predicate Next(s: System, s': System)
  {
    exists move :: Moves(s, move, s')
  }

  ghost predicate Init(s: System)
  {
    s.calls == [] && s.table == map[] && s.writes == 0 && s.effects == [] && s.answers == []
  }

  ghost predicate IsRun(run: seq<System>)
  {
    && run != [] && Init(run[0])
    && forall i :: Follows(run, i)
  }

  ghost predicate Follows(run: seq<System>, i: int)
  {
    0 < i < |run| ==> Next(run[i - 1], run[i])
  }

  // ---------------------------------------------------------------- the invariant

  predicate Owns(s: System, r: nat)
    requires r < |s.calls|
  {
    var k := s.calls[r].Key();
    k in s.table && s.table[k].owner == r
  }

  predicate InFlight(phase: Phase)
  {
    phase.Holding? || phase.Executed? || phase.Failing? || phase.Releasing?
  }

  /** A request past its claim still owns the row, and the row is still in progress. */
  predicate CallInv(s: System, r: nat)
    requires r < |s.calls|
  {
    var c := s.calls[r];
    InFlight(c.phase) ==>
      && Owns(s, r) && !s.table[c.Key()].entry.completed
      && (c.phase.Executed? ==> Deed(r, c.phase.body) in s.effects)
      && (c.phase.Releasing? ==> c.phase.seen == Some(s.table[c.Key()]))
  }

  /** A row belongs to a request with that key, and is completed only with the body of
      its owner's effect. */
  predicate RowInv(s: System, k: string)
    requires k in s.table
  {
    var row := s.table[k];
    && row.owner < |s.calls|
    && var c := s.calls[row.owner];
    && c.Key() == k && row.entry.digest == c.digest
    && !c.phase.Fresh? && !c.phase.Classifying?
    && (row.entry.completed ==>
          row.entry.response.Some? && Deed(row.owner, row.entry.response.value) in s.effects)
  }

  /** A request whose effect succeeded owns its row for good, and will not execute again. */
  predicate EffectInv(s: System, e: Deed)
  {
    && e.call < |s.calls| && Owns(s, e.call)
    && (s.calls[e.call].phase == Done || s.calls[e.call].phase == Executed(e.body))
  }

  /** Every 200 is the completed response of its row, given for the same request. */
  predicate AnswerInv(s: System, a: Deed)
  {
    && a.call < |s.calls|
    && var c := s.calls[a.call];
    && c.Key() in s.table
    && var entry := s.table[c.Key()].entry;
    && entry.completed && entry.response == Some(a.body) && entry.digest == c.digest
  }

  ghost predicate Inv(s: System)
  {
    && (forall r :: 0 <= r < |s.calls| ==> CallInv(s, r))
    && (forall k :: k in s.table ==> RowInv(s, k))
    && (forall e :: e in s.effects ==> EffectInv(s, e))
    && EffectsDistinct(s)
    && (forall a :: a in s.answers ==> AnswerInv(s, a))
  }

  // ---------------------------------------------------------------- every step keeps it

  ghost predicate SameRow(s: System, s': System, k: string)
  {
    if k in s.table then k in s'.table && s'.table[k] == s.table[k] else k !in s'.table
  }

  /** A step of call `r`: it moves that call on, touches no row but its own, and that one
      only if it is free or its own. */
  ghost predicate OwnStep(s: System, r: nat, s': System)
  {
    && r < |s.calls| && |s'.calls| == |s.calls|
    && s'.calls == s.calls[r := s.calls[r].(phase := s'.calls[r].phase)]
    && var key := s.calls[r].Key();
    && (forall k :: k != key ==> SameRow(s, s', k))
    && (SameRow(s, s', key) || key !in s.table || s.table[key].owner == r)
    && s.effects <= s'.effects
    && (forall d :: d in s'.effects && d !in s.effects ==> d.call == r)
    && (forall d :: d in s'.answers && d !in s.answers ==> d.call == r)
  }

  /** The call's own row and what was done and said under it. */
  ghost predicate RowsideInv(s: System, k: string)
  {
    && (k in s.table ==> RowInv(s, k))
    && (forall e :: e in s.effects && e.call < |s.calls| && s.calls[e.call].Key() == k ==> EffectInv(s, e))
    && (forall a :: a in s.answers && a.call < |s.calls| && s.calls[a.call].Key() == k ==> AnswerInv(s, a))
  }

  ghost predicate EffectsDistinct(s: System)
  {
    forall i, j :: 0 <= i < j < |s.effects| ==> s.effects[i].call != s.effects[j].call
  }

  /** A call's own step keeps the invariant if it keeps it for the call and its row. */
  lemma OwnStepKeepsInv(s: System, r: nat, s': System)
    requires Inv(s) && OwnStep(s, r, s')
    requires CallInv(s', r) && RowsideInv(s', s.calls[r].Key()) && EffectsDistinct(s')
    ensures Inv(s')
  {
    hide ClaimKey;
    var key := s.calls[r].Key();
    forall i | 0 <= i < |s'.calls| ensures CallInv(s', i) {
      assert CallInv(s, i) && (s.calls[i].Key() == key || SameRow(s, s', s.calls[i].Key()));
    }
    forall k | k in s'.table ensures RowInv(s', k) {
      assert k != key ==> SameRow(s, s', k) && RowInv(s, k);
    }
    forall e | e in s'.effects ensures EffectInv(s', e) {
      assert e in s.effects ==> EffectInv(s, e);
      assert e.call < |s.calls| && (s.calls[e.call].Key() == key || SameRow(s, s', s.calls[e.call].Key()));
    }
    forall a | a in s'.answers ensures AnswerInv(s', a) {
      assert a in s.answers ==> AnswerInv(s, a);
      assert a.call < |s.calls| && (s.calls[a.call].Key() == key || SameRow(s, s', s.calls[a.call].Key()));
    }
  }

  lemma ArriveKeepsInv(s: System, move: Move, s': System)
    requires Inv(s) && Moves(s, move, s') && move.Arrive?
    ensures Inv(s')
  {
    hide ClaimKey;
    forall i | 0 <= i < |s'.calls| ensures CallInv(s', i) {
      assert i < |s.calls| ==> CallInv(s, i);
    }
    assert forall k :: k in s'.table ==> RowInv(s, k) && RowInv(s', k);
    assert forall e :: e in s'.effects ==> EffectInv(s, e) && EffectInv(s', e);
    assert forall a :: a in s'.answers ==> AnswerInv(s, a) && AnswerInv(s', a);
  }

  lemma StepIsOwn(s: System, move: Move, s': System)
    requires Moves(s, move, s') && !move.Arrive? && CallInv(s, move.r)
    ensures OwnStep(s, move.r, s')
  {
    hide ClaimKey, Classify;
  }

  /** What was true of the call's row, its effects and its answers before the step. */
  lemma Before(s: System, r: nat)
    requires Inv(s) && r < |s.calls|
    ensures CallInv(s, r)
    ensures s.calls[r].Key() in s.table ==> RowInv(s, s.calls[r].Key())
    ensures forall e :: e in s.effects ==> EffectInv(s, e)
    ensures forall a :: a in s.answers ==> AnswerInv(s, a)
    ensures EffectsDistinct(s)
  {
  }

  /** Steps that leave the table alone. */
  lemma PhaseKeepsInv(s: System, move: Move, s': System)
    requires Inv(s) && Moves(s, move, s')
    requires move.Conflict? || move.ReadClaim? || move.Crash?
    ensures Inv(s')
  {
    hide ClaimKey, OwnStep, Inv;
    Before(s, move.r);
    StepIsOwn(s, move, s');
    OwnStepKeepsInv(s, move.r, s');
  }

  /** Being told the response of the row. */
  lemma ReadKeepsInv(s: System, move: Move, s': System)
    requires Inv(s) && Moves(s, move, s') && move.Read?
    ensures Inv(s')
  {
    hide ClaimKey, OwnStep, Inv;
    Before(s, move.r);
    StepIsOwn(s, move, s');
    OwnStepKeepsInv(s, move.r, s');
  }

  /** Claiming, completing and releasing. */
  lemma TableKeepsInv(s: System, move: Move, s': System)
    requires Inv(s) && Moves(s, move, s')
    requires move.Create? || move.Complete? || move.Delete?
    ensures Inv(s')
  {
    hide ClaimKey, OwnStep, Classify, Inv;
    Before(s, move.r);
    StepIsOwn(s, move, s');
    OwnStepKeepsInv(s, move.r, s');
  }

  lemma ExecuteKeepsInv(s: System, move: Move, s': System)
    requires Inv(s) && Moves(s, move, s') && move.Execute?
    ensures Inv(s')
  {
    hide ClaimKey, OwnStep, Classify;
    Before(s, move.r);
    StepIsOwn(s, move, s');
    forall i | 0 <= i < |s.effects| ensures s.effects[i].call != move.r {
      assert EffectInv(s, s.effects[i]);
    }
    OwnStepKeepsInv(s, move.r, s');
  }

  lemma StepKeepsInv(s: System, move: Move, s': System)
    requires Inv(s) && Moves(s, move, s')
    ensures Inv(s')
  {
    hide Inv, Moves;
    match move
    case Arrive(_, _, _) => ArriveKeepsInv(s, move, s');
    case Execute(_, _) => ExecuteKeepsInv(s, move, s');
    case Read(_) => ReadKeepsInv(s, move, s');
    case Create(_, _) => TableKeepsInv(s, move, s');
    case Complete(_, _) => TableKeepsInv(s, move, s');
    case Delete(_) => TableKeepsInv(s, move, s');
    case _ => PhaseKeepsInv(s, move, s');
  }

  // ---------------------------------------------------------------- whole runs

  lemma {:induction false} RunKeepsInv(run: seq<System>, i: nat)
    requires IsRun(run) && i < |run|
    ensures Inv(run[i])
  {
    hide Moves;
    if i > 0 {
      RunKeepsInv(run, i - 1);
      hide Inv;
      assert Follows(run, i);
      var move :| Moves(run[i - 1], move, run[i]);
      StepKeepsInv(run[i - 1], move, run[i]);
    }
  }

  /** At most one effect succeeds under one subject and idempotency key, however many
      requests carry it. */
  lemma AtMostOnce(run: seq<System>, i: nat, a: nat, b: nat)
    requires IsRun(run) && i < |run| && a < |run[i].effects| && b < |run[i].effects|
    ensures var s := run[i];
            && s.effects[a].call < |s.calls| && s.effects[b].call < |s.calls|
            && (s.calls[s.effects[a].call].Key() == s.calls[s.effects[b].call].Key() ==> a == b)
  {
    RunKeepsInv(run, i);
    var s := run[i];
    assert EffectInv(s, s.effects[a]) && EffectInv(s, s.effects[b]);
  }

  /** Every response with status 200 carries the bytes of an effect that happened under
      its key, for a request with the same digest. */
  lemma AnswersAreEffects(run: seq<System>, i: nat, a: nat) returns (e: nat)
    requires IsRun(run) && i < |run| && a < |run[i].answers|
    ensures var s := run[i];
            && e < |s.effects| && s.effects[e].call < |s.calls| && s.answers[a].call < |s.calls|
            && var told, did := s.calls[s.answers[a].call], s.calls[s.effects[e].call];
            && told.Key() == did.Key() && told.digest == did.digest
            && s.answers[a].body == s.effects[e].body
  {
    RunKeepsInv(run, i);
    var s := run[i];
    assert AnswerInv(s, s.answers[a]);
    var k := s.calls[s.answers[a].call].Key();
    assert RowInv(s, k);
    e :| 0 <= e < |s.effects| && s.effects[e] == Deed(s.table[k].owner, s.answers[a].body);
  }

  /** All responses with status 200 under one key are identical. */
  lemma SameResponse(run: seq<System>, i: nat, a: nat, b: nat)
    requires IsRun(run) && i < |run| && a < |run[i].answers| && b < |run[i].answers|
    ensures var s := run[i];
            && s.answers[a].call < |s.calls| && s.answers[b].call < |s.calls|
            && var one, other := s.calls[s.answers[a].call], s.calls[s.answers[b].call];
            one.Key() == other.Key() ==> s.answers[a].body == s.answers[b].body && one.digest == other.digest
  {
    var e := AnswersAreEffects(run, i, a);
    var f := AnswersAreEffects(run, i, b);
    AtMostOnce(run, i, e, f);
  }

  /** What a single step may do to the table: the call whose step it is touches only its
      own row, a row disappears only when its own request releases it after a failed
      effect, and a completed row stays as it is. */
  lemma StepTouchesOwnRow(s: System, move: Move, s': System, k: string)
    requires Inv(s) && Moves(s, move, s')
    ensures k in s.table && k !in s'.table ==>
              && move == Delete(s.table[k].owner) && !s.table[k].entry.completed
              && forall e :: e in s.effects && e.call < |s.calls| ==> s.calls[e.call].Key() != k
    ensures k in s.table && s.table[k].entry.completed ==> k in s'.table && s'.table[k] == s.table[k]
    ensures !(k in s.table && k in s'.table && s.table[k] == s'.table[k]) && !(k !in s.table && k !in s'.table) ==>
              !move.Arrive? && move.r < |s.calls| && s.calls[move.r].Key() == k
  {
    hide ClaimKey;
    if !move.Arrive? {
      assert CallInv(s, move.r);
    }
    assert k in s.table ==> RowInv(s, k);
    assert forall e :: e in s.effects ==> EffectInv(s, e);
  }

  /** Whatever happens after a claim completed, its row stays as it is. */
  lemma {:induction false} CompletedStands(run: seq<System>, i: nat, j: nat, k: string)
    requires IsRun(run) && i <= j < |run|
    requires k in run[i].table && run[i].table[k].entry.completed
    ensures k in run[j].table && run[j].table[k] == run[i].table[k]
    decreases j - i
  {
    hide Moves, Inv;
    if i < j {
      CompletedStands(run, i, j - 1, k);
      RunKeepsInv(run, j - 1);
      assert Follows(run, j);
      var move :| Moves(run[j - 1], move, run[j]);
      StepTouchesOwnRow(run[j - 1], move, run[j], k);
    }
  }
}
