/** All uses of one nonce at one verifier: any number of overlapping calls presenting the
    same or different proofs that carry it, and purges of expired nonces.

    A call reads the clock once, when it starts. Recording the nonce is one attempt at a
    transaction: it reads the record, and its commit succeeds only if nothing was written
    in between; a lost race counts as a replay. */
module ProofProtocol {
  import opened Wrappers
  import opened Proofs

  datatype Phase =
    | Checking(proof: Proof, now: int)
    | Deciding(proof: Proof, now: int, seen: nat)  // found the nonce not live
    | Done

  datatype State = State(
    policy: Policy,
    clock: int,
    retained: Option<int>,        // the nonce record
    revision: nat,
    calls: seq<Phase>,
    accepted: seq<Proof>          // proofs authenticated, in order
  )

  datatype Move =
    | Tick(later: int)
    | Start(proof: Proof)
    | Fail(call: nat)             // an earlier check, an error, or a crash
    | Read(call: nat)
    | Commit(call: nat, acknowledged: bool)
    | Lose(call: nat)
    | Purge(cutoff: int)

  function Retain(s: State, p: Proof): (until: int)
  {
    RetainUntil(p.window, s.policy)
  }

  /** The proof is inside its window for a call that started at `now`. */
  predicate InWindow(s: State, p: Proof, now: int): (yes: bool)
    ensures yes ==> now < Retain(s, p)
  {
    CheckWindow(p.window, now, s.policy).None?
  }

  predicate Live(s: State, now: int)
  {
    s.retained.Some? && now < s.retained.value
  }

  function At(s: State, call: nat, phase: Phase): (s': State)
    requires call < |s.calls|
  {
    s.(calls := s.calls[call := phase])
  }

  function Purged(s: State, cutoff: int): (s': State)
  {
    if s.retained.Some? && s.retained.value <= cutoff
    then s.(retained := None, revision := s.revision + 1)
    else s
  }

  ghost predicate Moves(s: State, move: Move, s': State)
  {
    match move
    case Tick(later) => s.clock <= later && s' == s.(clock := later)
    case Start(proof) => s' == s.(calls := s.calls + [Checking(proof, s.clock)])
    case Fail(call) => call < |s.calls| && s' == At(s, call, Done)
    // Only a proof inside its window gets as far as its nonce.
    case Read(call) =>
      && call < |s.calls| && s.calls[call].Checking?
      && var c := s.calls[call];
      && InWindow(s, c.proof, c.now)
      && s' == At(s, call, if Live(s, c.now) then Done else Deciding(c.proof, c.now, s.revision))
    case Commit(call, acknowledged) =>
      && call < |s.calls| && s.calls[call].Deciding?
      && var c := s.calls[call];
      && c.seen == s.revision
      && s' == At(s, call, Done).(retained := Some(Retain(s, c.proof)), revision := s.revision + 1,
                                  accepted := if acknowledged then s.accepted + [c.proof] else s.accepted)
    case Lose(call) =>
      && call < |s.calls| && s.calls[call].Deciding? && s.calls[call].seen != s.revision
      && s' == At(s, call, Done)
    case Purge(cutoff) => cutoff <= s.clock && s' == Purged(s, cutoff)
  }

  ghost predicate Init(s: State)
  {
    s.retained == None && s.calls == [] && s.accepted == []
  }

  // ---------------------------------------------------------------- harmful purges

  /** The call has yet to look at the nonce, and will authenticate if it finds none. */
  predicate Able(s: State, call: nat)
    requires call < |s.calls|
  {
    s.calls[call].Checking? && InWindow(s, s.calls[call].proof, s.calls[call].now)
  }

  /** A purge that removes the nonce while a delayed copy of an accepted proof is still on
      its way. */
  ghost predicate Harmful(s: State, move: Move)
  {
    && move.Purge? && s.retained.Some? && s.retained.value <= move.cutoff
    && exists c :: 0 <= c < |s.calls| && Able(s, c) && s.calls[c].proof in s.accepted
  }

  ghost predicate Next(s: State, s': State)
  {
    exists move :: Moves(s, move, s') && !Harmful(s, move)
  }

  ghost predicate IsRun(run: seq<State>)
  {
    && run != [] && Init(run[0])
    && forall i :: Follows(run, i)
  }

  ghost predicate Follows(run: seq<State>, i: int)
  {
    0 < i < |run| ==> Next(run[i - 1], run[i])
  }

  // ---------------------------------------------------------------- the invariant

  /** The proof cannot authenticate again: its nonce is retained at least as long as it
      needs to be, or nobody who could use it is left and nobody who could will come. */
  ghost predicate Spent(s: State, p: Proof)
  {
    || (s.retained.Some? && Retain(s, p) <= s.retained.value)
    || (Retain(s, p) <= s.clock && forall c :: 0 <= c < |s.calls| ==> Able(s, c) ==> s.calls[c].proof != p)
  }

  ghost predicate Distinct(accepted: seq<Proof>)
  {
    forall i, j :: 0 <= i < j < |accepted| ==> accepted[i] != accepted[j]
  }

  /** A decision that can still commit was made on the record as it is, and is not for a
      proof already accepted. */
  ghost predicate CallInv(s: State, call: nat)
    requires call < |s.calls|
  {
    var c := s.calls[call];
    c.Deciding? ==>
      && c.now < Retain(s, c.proof) && c.seen <= s.revision
      && (c.seen == s.revision ==> !Live(s, c.now) && c.proof !in s.accepted)
  }

  ghost predicate Inv(s: State)
  {
    && Distinct(s.accepted)
    && (forall c :: 0 <= c < |s.calls| ==> CallInv(s, c))
    && (forall p :: p in s.accepted ==> Spent(s, p))
  }

  lemma CommitKeepsInv(s: State, move: Move, s': State)
    requires Inv(s) && Moves(s, move, s') && move.Commit?
    ensures Inv(s')
  {
    assert CallInv(s, move.call);
    forall c | 0 <= c < |s'.calls| ensures CallInv(s', c) {
      assert CallInv(s, c);
    }
    forall p | p in s'.accepted ensures Spent(s', p) {
      assert p in s.accepted ==> Spent(s, p);
      assert forall c :: 0 <= c < |s'.calls| && Able(s', c) ==> Able(s, c);
    }
  }

  lemma ReadKeepsInv(s: State, move: Move, s': State)
    requires Inv(s) && Moves(s, move, s') && move.Read?
    ensures Inv(s')
  {
    assert Able(s, move.call);
    if s.calls[move.call].proof in s.accepted {
      assert Spent(s, s.calls[move.call].proof);
    }
    forall c | 0 <= c < |s'.calls| ensures CallInv(s', c) {
      assert CallInv(s, c);
    }
    forall p | p in s'.accepted ensures Spent(s', p) {
      assert Spent(s, p);
      assert forall c :: 0 <= c < |s'.calls| && Able(s', c) ==> Able(s, c);
    }
  }

  lemma OtherStepKeepsInv(s: State, move: Move, s': State)
    requires Inv(s) && Moves(s, move, s') && !Harmful(s, move) && !move.Read? && !move.Commit?
    ensures Inv(s')
  {
    forall c | 0 <= c < |s'.calls| ensures CallInv(s', c) {
      assert c < |s.calls| ==> CallInv(s, c);
    }
    forall p | p in s'.accepted ensures Spent(s', p) {
      assert Spent(s, p);
      assert forall c :: 0 <= c < |s.calls| && Able(s', c) ==> Able(s, c);
    }
  }

  /** Every step but a harmful purge keeps the invariant. */
  lemma StepKeepsInv(s: State, move: Move, s': State)
    requires Inv(s) && Moves(s, move, s') && !Harmful(s, move)
    ensures Inv(s')
  {
    hide Inv, Moves, Harmful;
    if move.Read? {
      ReadKeepsInv(s, move, s');
    } else if move.Commit? {
      CommitKeepsInv(s, move, s');
    } else {
      OtherStepKeepsInv(s, move, s');
    }
  }

  // ---------------------------------------------------------------- runs without harmful purges

  /** Steps without further harmful purges, from any state. */
  ghost predicate Continues(run: seq<State>)
  {
    run != [] && forall i :: Follows(run, i)
  }

  lemma {:induction false} ContinuationKeepsInv(run: seq<State>, i: nat)
    requires Continues(run) && Inv(run[0]) && i < |run|
    ensures Inv(run[i])
  {
    hide Inv, Moves, Harmful;
    if i > 0 {
      ContinuationKeepsInv(run, i - 1);
      assert Follows(run, i);
      var move :| Moves(run[i - 1], move, run[i]) && !Harmful(run[i - 1], move);
      StepKeepsInv(run[i - 1], move, run[i]);
    }
  }

  /** No proof authenticates twice, whatever else carries its nonce and however first uses
      race, as long as no purge is harmful. */
  lemma ProofAtMostOnce(run: seq<State>, i: nat)
    requires IsRun(run) && i < |run|
    ensures Distinct(run[i].accepted)
  {
    ContinuationKeepsInv(run, i);
  }

  /** A purge that reaches no further than the start of any call still at work. */
  ghost predicate Prompt(s: State, move: Move)
  {
    move.Purge? ==> forall c :: 0 <= c < |s.calls| && !s.calls[c].Done? ==> move.cutoff <= s.calls[c].now
  }

  /** A prompt purge is not harmful. */
  lemma PromptPurgeIsHarmless(s: State, cutoff: int)
    requires Inv(s) && Prompt(s, Purge(cutoff))
    ensures !Harmful(s, Purge(cutoff))
  {
    if s.retained.Some? && s.retained.value <= cutoff {
      forall c | 0 <= c < |s.calls| && Able(s, c) ensures s.calls[c].proof !in s.accepted {
        assert s.calls[c].proof in s.accepted ==> Spent(s, s.calls[c].proof);
      }
    }
  }

  ghost predicate Promptly(s: State, s': State)
  {
    exists move :: Moves(s, move, s') && Prompt(s, move)
  }

  ghost predicate Advances(run: seq<State>, i: int)
  {
    0 < i < |run| ==> Promptly(run[i - 1], run[i])
  }

  /** A run whose purges are all prompt. */
  ghost predicate IsPrompt(run: seq<State>)
  {
    run != [] && Init(run[0]) && forall i :: Advances(run, i)
  }

  /** With prompt purges no proof ever authenticates twice. */
  lemma {:induction false} PromptRunAtMostOnce(run: seq<State>, i: nat)
    requires IsPrompt(run) && i < |run|
    ensures Inv(run[i]) && Distinct(run[i].accepted)
  {
    hide Moves, Prompt, Harmful, CallInv, Spent;
    if i > 0 {
      PromptRunAtMostOnce(run, i - 1);
      assert Advances(run, i);
      var move :| Moves(run[i - 1], move, run[i]) && Prompt(run[i - 1], move);
      PromptIsHarmless(run[i - 1], move);
      StepKeepsInv(run[i - 1], move, run[i]);
    }
  }

  lemma PromptIsHarmless(s: State, move: Move)
    requires Inv(s) && Prompt(s, move)
    ensures !Harmful(s, move)
  {
    hide Inv, Prompt;
    if move.Purge? {
      PromptPurgeIsHarmless(s, move.cutoff);
    }
  }

  // ---------------------------------------------------------------- what a harmful purge does

  lemma AuthenticatesAgain(s: State, c: nat) returns (run: seq<State>)
    requires c < |s.calls| && Able(s, c) && s.calls[c].proof in s.accepted && s.retained == None
    ensures Continues(run) && run[0] == s && !Distinct(run[|run| - 1].accepted)
  {
    var p, now := s.calls[c].proof, s.calls[c].now;
    var s1 := At(s, c, Deciding(p, now, s.revision));
    assert Moves(s, Read(c), s1);
    var s2 := At(s1, c, Done).(retained := Some(Retain(s, p)), revision := s.revision + 1, accepted := s.accepted + [p]);
    assert Moves(s1, Commit(c, true), s2);
    var i :| 0 <= i < |s.accepted| && s.accepted[i] == p;
    assert s2.accepted[i] == s2.accepted[|s.accepted|];
    run := [s, s1, s2];
  }

  /** Exactly when the promise survives a purge: in any state reached so far, it holds in
      every continuation without further harmful purges if and only if this one is not
      harmful. */
  lemma SafeIffNotHarmful(s: State, cutoff: int)
    requires Inv(s) && cutoff <= s.clock
    ensures !Harmful(s, Purge(cutoff)) <==>
            forall run: seq<State> :: Continues(run) && run[0] == Purged(s, cutoff) ==> Distinct(run[|run| - 1].accepted)
  {
    var s' := Purged(s, cutoff);
    if Harmful(s, Purge(cutoff)) {
      var c :| 0 <= c < |s.calls| && Able(s, c) && s.calls[c].proof in s.accepted;
      var run := AuthenticatesAgain(s', c);
    } else {
      StepKeepsInv(s, Purge(cutoff), s');
      forall run: seq<State> | Continues(run) && run[0] == s' ensures Distinct(run[|run| - 1].accepted) {
        ContinuationKeepsInv(run, |run| - 1);
      }
    }
  }

  // ---------------------------------------------------------------- it does happen

  /** Two copies of a proof arrive in time; the second is delayed until the first has
      authenticated and its nonce has been purged. */
  function Scene(policy: Policy, p: Proof, now: int, k: nat): (s: State)
  {
    var until := RetainUntil(p.window, policy);
    var start := State(policy, now, None, 0, [], []);
    var used := State(policy, now, Some(until), 1, [Done, Checking(p, now)], [p]);
    var purged := used.(clock := until, retained := None, revision := 2);
    if k == 0 then start
    else if k == 1 then start.(calls := [Checking(p, now)])
    else if k == 2 then start.(calls := [Checking(p, now), Checking(p, now)])
    else if k == 3 then start.(calls := [Deciding(p, now, 0), Checking(p, now)])
    else if k == 4 then used
    else if k == 5 then used.(clock := until)
    else if k == 6 then purged
    else if k == 7 then purged.(calls := [Done, Deciding(p, now, 2)])
    else State(policy, until, Some(until), 3, [Done, Done], [p, p])
  }

  function SceneMove(policy: Policy, p: Proof, k: nat): (move: Move)
  {
    var until := RetainUntil(p.window, policy);
    if k <= 1 then Start(p)
    else if k == 2 then Read(0)
    else if k == 3 then Commit(0, true)
    else if k == 4 then Tick(until)
    else if k == 5 then Purge(until)
    else if k == 6 then Read(1)
    else Commit(1, true)
  }

  /** It happens to every proof that is inside its window, so the condition is needed. */
  lemma DelayedCopyAuthenticatesTwice(policy: Policy, p: Proof, now: int, k: nat)
    requires CheckWindow(p.window, now, policy).None? && k < 8
    ensures Init(Scene(policy, p, now, 0))
    ensures Moves(Scene(policy, p, now, k), SceneMove(policy, p, k), Scene(policy, p, now, k + 1))
    ensures !Distinct(Scene(policy, p, now, 8).accepted)
  {
    assert Scene(policy, p, now, 8).accepted[0] == Scene(policy, p, now, 8).accepted[1];
  }
}
