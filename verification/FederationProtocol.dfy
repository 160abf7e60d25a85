/** A node serving any envelopes its peers sign, in any number of overlapping calls:
    duplicates, retries, one nonce under several envelopes, one request id under several
    nonces, effects that fail, answers that are lost, crashes, and purges of expired
    records.

    Nonces are recorded by source and nonce until the envelope that recorded them
    expires, answers by request id alone. A call reads the clock once, when it starts,
    and judges expiry by that reading however long it is delayed. */
module FederationProtocol {
  import opened Wrappers
  import opened Federation

  datatype Phase =
    | Started
    | Remembering                  // found no recorded answer
    | Holding                      // recorded the nonce and was accepted
    | Recording(answer: string)    // executed, about to record the answer
    | Forgetting                   // the effect failed, about to forget the nonce
    | Done(served: Outcome)

  datatype Outcome =
    | Repeated(answer: string)
    | Ran(answer: string)
    | Turned                       // refused
    | Broken                       // an error, or a crash

  /** `now` is the clock the call read when it started. */
  datatype Call = Call(envelope: Envelope, now: int, phase: Phase)

  datatype Nonce = Nonce(expires: int, owner: nat)

  datatype Execution = Execution(call: nat, answer: string)

  datatype State = State(
    node: string,
    issued: iset<Envelope>,        // what may ever arrive
    clock: int,
    nonces: map<string, Nonce>,
    answers: map<string, Recorded>,
    calls: seq<Call>,
    executions: seq<Execution>,    // successful effects, in order
    forgotten: seq<(nat, nat)>     // who forgot whose nonce
  )

  datatype Move =
    | Tick(later: int)
    | Start(envelope: Envelope)
    | LookUp(call: nat)
    | Remember(call: nat, acknowledged: bool)
    | Deny(call: nat)
    | Execute(call: nat, outcome: Option<string>)
    | Forget(call: nat)
    | Record(call: nat, acknowledged: bool)
    | Crash(call: nat)
    | Purge(cutoff: int)

  function KeyOf(e: Envelope): (key: string)
  {
    NonceKey(e.source, e.nonce)
  }

  /** The envelope, first seen, passes every check of a call that started at `now`. */
  predicate Acceptable(e: Envelope, node: string, now: int): (yes: bool)
    ensures yes <==> WellFormed(e, node) && now < e.expires
  {
    AcceptedIff(e, node, now, false);
    Check(e, node, now, false).None?
  }

  ghost function At(s: State, call: nat, phase: Phase): (s': State)
    requires call < |s.calls|
  {
    s.(calls := s.calls[call := s.calls[call].(phase := phase)])
  }

  ghost predicate CallMoves(s: State, move: Move, call: nat, s': State)
    requires call < |s.calls|
  {
    var c := s.calls[call];
    var key, id := KeyOf(c.envelope), c.envelope.requestId;
    match move
    case LookUp(_) =>
      && c.phase.Started?
      && s' == At(s, call, if id in s.answers then Done(Repeated(s.answers[id].answer)) else Remembering)
    // An envelope refused for any other reason than its nonce still has it recorded.
    case Remember(_, acknowledged) =>
      && c.phase.Remembering?
      && s' == (if key in s.nonces then At(s, call, Done(Turned))
                else At(s, call, if !acknowledged then Done(Broken)
                                 else if Acceptable(c.envelope, s.node, c.now) then Holding
                                 else Done(Turned))
                     .(nonces := s.nonces[key := Nonce(c.envelope.expires, call)]))
    // An unknown peer, subject or target, or a policy that says no.
    case Deny(_) => c.phase.Holding? && s' == At(s, call, Done(Turned))
    case Execute(_, outcome) =>
      && c.phase.Holding?
      && s' == (match outcome
                case Some(answer) => At(s, call, Recording(answer)).(executions := s.executions + [Execution(call, answer)])
                case None => At(s, call, Forgetting))
    // The delete names the key alone.
    case Forget(_) =>
      && c.phase.Forgetting?
      && s' == At(s, call, Done(Broken)).(nonces := s.nonces - {key},
                                          forgotten := if key in s.nonces then s.forgotten + [(call, s.nonces[key].owner)]
                                                       else s.forgotten)
    // The first answer recorded stands.
    case Record(_, acknowledged) =>
      && c.phase.Recording?
      && s' == At(s, call, Done(if acknowledged then Ran(c.phase.answer) else Broken))
               .(answers := if id in s.answers then s.answers
                            else s.answers[id := Recorded(c.phase.answer, c.envelope.expires)])
    case Crash(_) => s' == At(s, call, Done(Broken))
    case _ => false
  }

  ghost function Purged(s: State, cutoff: int): (s': State)
  {
    s.(nonces := map k | k in s.nonces && cutoff <= s.nonces[k].expires :: s.nonces[k],
       answers := map r | r in s.answers && cutoff <= s.answers[r].expires :: s.answers[r])
  }

  ghost predicate Moves(s: State, move: Move, s': State)
  {
    match move
    case Tick(later) => s.clock <= later && s' == s.(clock := later)
    case Start(envelope) => envelope in s.issued && s' == s.(calls := s.calls + [Call(envelope, s.clock, Started)])
    case Purge(cutoff) => cutoff <= s.clock && s' == Purged(s, cutoff)
    case _ => move.call < |s.calls| && CallMoves(s, move, move.call, s')
  }

  ghost predicate Init(s: State)
  {
    s.nonces == map[] && s.answers == map[] && s.calls == [] && s.executions == [] && s.forgotten == []
  }

  ghost predicate Next(s: State, s': State)
  {
    exists move :: Moves(s, move, s')
  }

  /** Any run at all. */
  ghost predicate IsRun(run: seq<State>)
  {
    && run != [] && Init(run[0])
    && forall i :: Follows(run, i)
  }

  ghost predicate Follows(run: seq<State>, i: int)
  {
    0 < i < |run| ==> Next(run[i - 1], run[i])
  }

  // ---------------------------------------------------------------- harmful purges

  /** The call has not recorded the nonce yet, and will be accepted if it does. */
  predicate Able(s: State, call: nat)
    requires call < |s.calls|
  {
    var c := s.calls[call];
    (c.phase.Started? || c.phase.Remembering?) && Acceptable(c.envelope, s.node, c.now)
  }

  /** The call recorded the nonce and may still forget it. */
  predicate Engaged(s: State, call: nat)
    requires call < |s.calls|
  {
    s.calls[call].phase.Holding? || s.calls[call].phase.Forgetting?
  }

  ghost predicate Used(s: State, key: string)
  {
    exists e :: e in s.executions && e.call < |s.calls| && KeyOf(s.calls[e.call].envelope) == key
  }

  /** A call on its way, or an envelope yet to come, would be accepted under this nonce. */
  ghost predicate Usable(s: State, key: string)
  {
    || (exists c :: 0 <= c < |s.calls| && Able(s, c) && KeyOf(s.calls[c].envelope) == key)
    || (exists e :: e in s.issued && KeyOf(e) == key && Acceptable(e, s.node, s.clock))
  }

  /** The call that recorded this nonce is still at work. */
  ghost predicate Busy(s: State, key: string)
  {
    exists c :: 0 <= c < |s.calls| && Engaged(s, c) && KeyOf(s.calls[c].envelope) == key
  }

  /** A purge that takes a nonce from a call still at work, or the nonce of an executed
      envelope while something can still be accepted under it. */
  ghost predicate Harmful(s: State, move: Move)
  {
    && move.Purge?
    && exists k :: k in s.nonces && s.nonces[k].expires < move.cutoff && (Busy(s, k) || (Used(s, k) && Usable(s, k)))
  }

  ghost predicate Carefully(s: State, s': State)
  {
    exists move :: Moves(s, move, s') && !Harmful(s, move)
  }

  ghost predicate Proceeds(run: seq<State>, i: int)
  {
    0 < i < |run| ==> Carefully(run[i - 1], run[i])
  }

  /** Steps without harmful purges, from any state. */
  ghost predicate Continues(run: seq<State>)
  {
    run != [] && forall i :: Proceeds(run, i)
  }

  // ---------------------------------------------------------------- the invariants

  /** Nothing will be executed under this nonce again: it is recorded by the call that
      was, or nothing that could be accepted is left or will come. */
  ghost predicate Closed(s: State, e: Execution)
    requires e.call < |s.calls|
  {
    var key := KeyOf(s.calls[e.call].envelope);
    || (key in s.nonces && s.nonces[key].owner == e.call)
    || !Usable(s, key)
  }

  /** What a call at work holds is its own, and nothing was executed under it. */
  ghost predicate CallInv(s: State, call: nat)
    requires call < |s.calls|
  {
    var c := s.calls[call];
    && c.envelope in s.issued && c.now <= s.clock
    && (Engaged(s, call) ==>
          && KeyOf(c.envelope) in s.nonces && s.nonces[KeyOf(c.envelope)].owner == call
          && !Used(s, KeyOf(c.envelope)))
  }

  ghost predicate ExecutionInv(s: State, e: Execution)
  {
    && e.call < |s.calls| && Closed(s, e)
    && (s.calls[e.call].phase.Done? || s.calls[e.call].phase.Recording?)
  }

  /** No two executions under one source and nonce. */
  ghost predicate OncePerNonce(s: State)
  {
    && (forall e :: e in s.executions ==> e.call < |s.calls|)
    && forall i, j :: 0 <= i < j < |s.executions| ==>
         KeyOf(s.calls[s.executions[i].call].envelope) != KeyOf(s.calls[s.executions[j].call].envelope)
  }

  ghost predicate OwnForgotten(s: State)
  {
    forall f :: f in s.forgotten ==> f.0 == f.1
  }

  ghost predicate OnceInv(s: State)
  {
    && OncePerNonce(s) && OwnForgotten(s)
    && (forall c :: 0 <= c < |s.calls| ==> CallInv(s, c))
    && (forall e :: e in s.executions ==> ExecutionInv(s, e))
  }

  // ---------------------------------------------------------------- every step keeps them

  lemma AbleBefore(s: State, move: Move, s': State, c: nat)
    requires Moves(s, move, s') && c < |s'.calls| && Able(s', c)
    ensures if c < |s.calls| then Able(s, c) && s'.calls[c].envelope == s.calls[c].envelope
            else s'.calls[c].envelope in s.issued && Acceptable(s'.calls[c].envelope, s.node, s.clock)
  {
    hide NonceKey, Check, Acceptable;
  }

  lemma UsableShrinks(s: State, move: Move, s': State, key: string)
    requires Moves(s, move, s') && Usable(s', key)
    ensures Usable(s, key)
  {
    hide NonceKey, Check, CallMoves;
    if c :| 0 <= c < |s'.calls| && Able(s', c) && KeyOf(s'.calls[c].envelope) == key {
      AbleBefore(s, move, s', c);
    } else {
      var e :| e in s'.issued && KeyOf(e) == key && Acceptable(e, s'.node, s'.clock);
      ClockOnly(s, move, s');
      assert Acceptable(e, s.node, s.clock);
    }
  }

  lemma ClockOnly(s: State, move: Move, s': State)
    requires Moves(s, move, s')
    ensures s'.issued == s.issued && s'.node == s.node && s.clock <= s'.clock
  {
    hide Acceptable, NonceKey;
  }

  /** The same calls and executions, wherever the calls have got to. */
  ghost predicate SameDeeds(s: State, s': State)
  {
    && |s.calls| <= |s'.calls| && s'.executions == s.executions
    && (forall c :: 0 <= c < |s.calls| ==> s'.calls[c].envelope == s.calls[c].envelope)
    && (forall e :: e in s.executions ==> e.call < |s.calls|)
  }

  lemma UsedAlike(s: State, s': State, key: string)
    requires SameDeeds(s, s')
    ensures Used(s', key) <==> Used(s, key)
  {
    hide NonceKey;
  }

  lemma OnceAlike(s: State, s': State)
    requires SameDeeds(s, s') && OncePerNonce(s)
    ensures OncePerNonce(s')
  {
    hide NonceKey;
  }

  /** Looking up, being denied, recording the answer and crashing. */
  lemma QuietKeepsOnce(s: State, move: Move, s': State)
    requires OnceInv(s) && Moves(s, move, s')
    requires move.LookUp? || move.Deny? || move.Record? || move.Crash?
    ensures OnceInv(s')
  {
    hide NonceKey, Check, Usable, OncePerNonce;
    assert forall e :: e in s.executions ==> ExecutionInv(s, e);
    assert SameDeeds(s, s') by { hide CallInv, Used, Closed; }
    OnceAlike(s, s');
    forall c | 0 <= c < |s'.calls| ensures CallInv(s', c) {
      assert CallInv(s, c);
      UsedAlike(s, s', KeyOf(s.calls[c].envelope));
    }
    forall e | e in s.executions ensures ExecutionInv(s', e) {
      assert ExecutionInv(s, e);
      ClosedStays(s, move, s', e);
    }
  }

  lemma ClosedStays(s: State, move: Move, s': State, e: Execution)
    requires Moves(s, move, s') && e.call < |s.calls| && Closed(s, e)
    requires var key := KeyOf(s.calls[e.call].envelope);
             key in s.nonces && s.nonces[key].owner == e.call ==>
               (key in s'.nonces && s'.nonces[key].owner == e.call) || !Usable(s, key)
    ensures e.call < |s'.calls| && s'.calls[e.call].envelope == s.calls[e.call].envelope && Closed(s', e)
  {
    hide NonceKey, Check, Usable;
    var key := KeyOf(s.calls[e.call].envelope);
    if Usable(s', key) {
      UsableShrinks(s, move, s', key);
    }
  }

  lemma RememberKeepsOnce(s: State, move: Move, s': State)
    requires OnceInv(s) && Moves(s, move, s') && move.Remember?
    ensures OnceInv(s')
  {
    hide NonceKey, Check, Usable, OncePerNonce;
    var call := move.call;
    var key := KeyOf(s.calls[call].envelope);
    assert forall e :: e in s.executions ==> ExecutionInv(s, e);
    assert SameDeeds(s, s') by { hide CallInv, Used, Closed; }
    OnceAlike(s, s');
    assert CallInv(s, call);
    if Used(s, key) && key !in s.nonces {
      NotAbleOnceUsed(s, call);
    }
    forall c | 0 <= c < |s'.calls| ensures CallInv(s', c) {
      assert CallInv(s, c);
      UsedAlike(s, s', KeyOf(s.calls[c].envelope));
    }
    forall e | e in s.executions ensures ExecutionInv(s', e) {
      assert ExecutionInv(s, e);
      assert KeyOf(s.calls[e.call].envelope) == key ==> Used(s, key);
      ClosedStays(s, move, s', e);
    }
  }

  lemma ForgetKeepsOnce(s: State, move: Move, s': State)
    requires OnceInv(s) && Moves(s, move, s') && move.Forget?
    ensures OnceInv(s')
  {
    hide NonceKey, Check, Usable;
    var call := move.call;
    var key := KeyOf(s.calls[call].envelope);
    assert CallInv(s, call) && Engaged(s, call);
    forall c | 0 <= c < |s'.calls| ensures CallInv(s', c) {
      assert CallInv(s, c);
      UsedAlike(s, s', KeyOf(s.calls[c].envelope));
    }
    forall e | e in s.executions ensures ExecutionInv(s', e) {
      assert ExecutionInv(s, e);
      assert KeyOf(s.calls[e.call].envelope) == key ==> Used(s, key);
      ClosedStays(s, move, s', e);
    }
  }

  lemma NotAbleOnceUsed(s: State, call: nat)
    requires OnceInv(s) && call < |s.calls|
    requires var key := KeyOf(s.calls[call].envelope); Used(s, key) && key !in s.nonces
    ensures !Able(s, call)
  {
    hide NonceKey, Check, Able;
    var key := KeyOf(s.calls[call].envelope);
    var e :| e in s.executions && e.call < |s.calls| && KeyOf(s.calls[e.call].envelope) == key;
    assert ExecutionInv(s, e);
  }

  lemma ExecuteKeepsOnce(s: State, move: Move, s': State)
    requires OnceInv(s) && Moves(s, move, s') && move.Execute?
    ensures OnceInv(s')
  {
    hide NonceKey, Check, Usable;
    var call := move.call;
    var key := KeyOf(s.calls[call].envelope);
    assert CallInv(s, call) && Engaged(s, call);
    forall c | 0 <= c < |s'.calls| ensures CallInv(s', c) {
      assert CallInv(s, c);
      UsedNow(s, move, s', KeyOf(s.calls[c].envelope));
    }
    forall e | e in s'.executions ensures ExecutionInv(s', e) {
      if e in s.executions {
        assert ExecutionInv(s, e);
        ClosedStays(s, move, s', e);
      }
    }
    forall i | 0 <= i < |s.executions| ensures KeyOf(s.calls[s.executions[i].call].envelope) != key {
      assert s.executions[i] in s.executions;
    }
  }

  lemma UsedNow(s: State, move: Move, s': State, key: string)
    requires OnceInv(s) && Moves(s, move, s') && move.Execute?
    ensures Used(s', key) ==> Used(s, key) || key == KeyOf(s.calls[move.call].envelope)
    ensures move.outcome.None? ==> (Used(s', key) <==> Used(s, key))
  {
    hide NonceKey, Check, Usable;
    if move.outcome.None? {
      UsedAlike(s, s', key);
    }
  }

  /** Time passing, envelopes arriving, and purges that are not harmful. */
  lemma WorldKeepsOnce(s: State, move: Move, s': State)
    requires OnceInv(s) && Moves(s, move, s') && !Harmful(s, move)
    requires move.Tick? || move.Start? || move.Purge?
    ensures OnceInv(s')
  {
    hide NonceKey, Check, Usable;
    forall c | 0 <= c < |s'.calls| ensures CallInv(s', c) {
      if c < |s.calls| {
        assert CallInv(s, c);
        assert Engaged(s', c) == Engaged(s, c);
        assert Engaged(s, c) ==> Busy(s, KeyOf(s.calls[c].envelope));
        UsedAlike(s, s', KeyOf(s.calls[c].envelope));
      }
    }
    forall e | e in s.executions ensures ExecutionInv(s', e) {
      assert ExecutionInv(s, e);
      assert Used(s, KeyOf(s.calls[e.call].envelope));
      ClosedStays(s, move, s', e);
    }
  }

  /** Every step but a harmful purge keeps executions single and nonces with their owner. */
  lemma StepKeepsOnce(s: State, move: Move, s': State)
    requires OnceInv(s) && Moves(s, move, s') && !Harmful(s, move)
    ensures OnceInv(s')
  {
    hide OnceInv, Moves, Harmful;
    match move
    case Remember(_, _) => RememberKeepsOnce(s, move, s');
    case Forget(_) => ForgetKeepsOnce(s, move, s');
    case Execute(_, _) => ExecuteKeepsOnce(s, move, s');
    case Tick(_) => WorldKeepsOnce(s, move, s');
    case Start(_) => WorldKeepsOnce(s, move, s');
    case Purge(_) => WorldKeepsOnce(s, move, s');
    case _ => QuietKeepsOnce(s, move, s');
  }

  // ---------------------------------------------------------------- where answers come from

  /** Some execution of a request with this id gave this answer. */
  ghost predicate Given(s: State, id: string, answer: string)
  {
    exists e :: e in s.executions && e.call < |s.calls| && s.calls[e.call].envelope.requestId == id && e.answer == answer
  }

  ghost predicate AnswerInv(s: State, id: string)
    requires id in s.answers
  {
    exists e :: e in s.executions && e.call < |s.calls|
                && s.calls[e.call].envelope.requestId == id && e.answer == s.answers[id].answer
                && s.calls[e.call].envelope.expires == s.answers[id].expires
  }

  predicate Accepted(c: Call, node: string)
  {
    Acceptable(c.envelope, node, c.now)
  }

  ghost predicate ToldInv(s: State, call: nat)
    requires call < |s.calls|
  {
    var c := s.calls[call];
    && c.envelope in s.issued
    && (Engaged(s, call) || c.phase.Recording? ==> Accepted(c, s.node))
    && (c.phase.Recording? ==> Execution(call, c.phase.answer) in s.executions)
    && (c.phase.Done? && c.phase.served.Ran? ==> Execution(call, c.phase.served.answer) in s.executions)
    && (c.phase.Done? && c.phase.served.Repeated? ==> Given(s, c.envelope.requestId, c.phase.served.answer))
  }

  /** A nonce is recorded until the envelope of the call that recorded it expires. */
  ghost predicate NonceInv(s: State, key: string)
    requires key in s.nonces
  {
    var n := s.nonces[key];
    n.owner < |s.calls| && KeyOf(s.calls[n.owner].envelope) == key && n.expires == s.calls[n.owner].envelope.expires
  }

  ghost predicate RecordInv(s: State)
  {
    && (forall c :: 0 <= c < |s.calls| ==> ToldInv(s, c))
    && (forall e :: e in s.executions ==> e.call < |s.calls| && Accepted(s.calls[e.call], s.node))
    && (forall id :: id in s.answers ==> AnswerInv(s, id))
    && (forall k :: k in s.nonces ==> NonceInv(s, k))
  }

  /** Calls and executions are only added, and keep what they are about. */
  ghost predicate Extends(s: State, s': State)
  {
    && s'.node == s.node && s'.issued == s.issued
    && |s.calls| <= |s'.calls| && s.executions <= s'.executions
    && (forall c :: 0 <= c < |s.calls| ==> s'.calls[c].envelope == s.calls[c].envelope && s'.calls[c].now == s.calls[c].now)
  }

  lemma StepExtends(s: State, move: Move, s': State)
    requires Moves(s, move, s')
    ensures Extends(s, s')
  {
    hide Acceptable, NonceKey;
  }

  lemma GivenStays(s: State, s': State, id: string, answer: string)
    requires Extends(s, s') && Given(s, id, answer)
    ensures Given(s', id, answer)
  {
    var e :| e in s.executions && e.call < |s.calls| && s.calls[e.call].envelope.requestId == id && e.answer == answer;
    assert e in s'.executions;
  }

  lemma AnswerStays(s: State, s': State, id: string)
    requires Extends(s, s') && id in s.answers && AnswerInv(s, id)
    requires id in s'.answers && s'.answers[id] == s.answers[id]
    ensures AnswerInv(s', id)
  {
    var e :| e in s.executions && e.call < |s.calls|
             && s.calls[e.call].envelope.requestId == id && e.answer == s.answers[id].answer
             && s.calls[e.call].envelope.expires == s.answers[id].expires;
    assert e in s'.executions;
  }

  lemma ToldStays(s: State, s': State, c: nat)
    requires Extends(s, s') && c < |s.calls| && ToldInv(s, c) && s'.calls[c] == s.calls[c]
    ensures ToldInv(s', c)
  {
    hide Acceptable, Given;
    if s.calls[c].phase.Done? && s.calls[c].phase.served.Repeated? {
      GivenStays(s, s', s.calls[c].envelope.requestId, s.calls[c].phase.served.answer);
    }
  }

  lemma MoveKeepsTold(s: State, move: Move, s': State, c: nat)
    requires RecordInv(s) && c < |s.calls| && CallMoves(s, move, c, s')
    ensures c < |s'.calls| && ToldInv(s', c)
  {
    hide Acceptable, NonceKey, AnswerInv, NonceInv, Given;
    assert ToldInv(s, c);
    var id := s.calls[c].envelope.requestId;
    if move.LookUp? && id in s.answers {
      AnswerGives(s, id);
      GivenStays(s, s', id, s.answers[id].answer);
    }
  }

  lemma StepKeepsTold(s: State, move: Move, s': State, c: nat)
    requires RecordInv(s) && Moves(s, move, s') && c < |s'.calls|
    ensures ToldInv(s', c)
  {
    StepExtends(s, move, s');
    if !move.Tick? && !move.Start? && !move.Purge? && move.call == c {
      MoveKeepsTold(s, move, s', c);
    } else if c < |s.calls| {
      OthersStay(s, move, s', c);
      ToldStays(s, s', c);
    }
  }

  lemma OthersStay(s: State, move: Move, s': State, c: nat)
    requires Moves(s, move, s') && c < |s.calls|
    requires move.Tick? || move.Start? || move.Purge? || move.call != c
    ensures c < |s'.calls| && s'.calls[c] == s.calls[c]
  {
    hide Acceptable, NonceKey;
  }

  lemma AnswerGives(s: State, id: string)
    requires id in s.answers && AnswerInv(s, id)
    ensures Given(s, id, s.answers[id].answer)
  {
  }

  lemma StepKeepsAnswers(s: State, move: Move, s': State, id: string)
    requires RecordInv(s) && Moves(s, move, s') && id in s'.answers
    ensures AnswerInv(s', id)
  {
    hide Acceptable, NonceKey, NonceInv, Given;
    StepExtends(s, move, s');
    if id in s.answers {
      AnswerStays(s, s', id);
    } else {
      assert move.Record? && ToldInv(s, move.call);
      var e := Execution(move.call, s.calls[move.call].phase.answer);
      assert e in s'.executions;
    }
  }

  /** Where a nonce is from: it was there, or the call that recorded it did just now. */
  lemma NonceFrom(s: State, move: Move, s': State, k: string)
    requires Moves(s, move, s') && k in s'.nonces
    ensures || (k in s.nonces && s'.nonces[k] == s.nonces[k])
            || (&& move.Remember? && move.call < |s.calls|
                && k == KeyOf(s.calls[move.call].envelope)
                && s'.nonces[k] == Nonce(s.calls[move.call].envelope.expires, move.call))
  {
    hide Acceptable, NonceKey;
  }

  lemma StepKeepsNonce(s: State, move: Move, s': State, k: string)
    requires RecordInv(s) && Moves(s, move, s') && k in s'.nonces
    ensures NonceInv(s', k)
  {
    assert k in s.nonces ==> NonceInv(s, k);
    StepExtends(s, move, s');
    NonceFrom(s, move, s', k);
    hide Moves, NonceKey, RecordInv;
  }

  lemma StepKeepsAccepted(s: State, move: Move, s': State, e: Execution)
    requires RecordInv(s) && Moves(s, move, s') && e in s'.executions
    ensures e.call < |s'.calls| && Accepted(s'.calls[e.call], s'.node)
  {
    hide Acceptable, NonceKey, AnswerInv, Given, NonceInv;
    StepExtends(s, move, s');
    if e !in s.executions {
      assert ToldInv(s, move.call) && Engaged(s, move.call);
    }
  }

  /** Every step keeps what was recorded and told true, harmful purges included. */
  lemma StepKeepsRecords(s: State, move: Move, s': State)
    requires RecordInv(s) && Moves(s, move, s')
    ensures RecordInv(s')
  {
    hide Moves, ToldInv, AnswerInv, NonceInv, Accepted;
    forall c | 0 <= c < |s'.calls| ensures ToldInv(s', c) {
      StepKeepsTold(s, move, s', c);
    }
    forall id | id in s'.answers ensures AnswerInv(s', id) {
      StepKeepsAnswers(s, move, s', id);
    }
    forall e | e in s'.executions ensures e.call < |s'.calls| && Accepted(s'.calls[e.call], s'.node) {
      StepKeepsAccepted(s, move, s', e);
    }
    forall k | k in s'.nonces ensures NonceInv(s', k) {
      StepKeepsNonce(s, move, s', k);
    }
  }

  // ---------------------------------------------------------------- whole runs

  lemma {:induction false} RunKeepsRecords(run: seq<State>, i: nat)
    requires IsRun(run) && i < |run|
    ensures RecordInv(run[i]) && run[i].node == run[0].node && run[i].issued == run[0].issued
  {
    hide Moves;
    if i > 0 {
      RunKeepsRecords(run, i - 1);
      hide RecordInv;
      assert Follows(run, i);
      var move :| Moves(run[i - 1], move, run[i]);
      StepKeepsRecords(run[i - 1], move, run[i]);
      StepExtends(run[i - 1], move, run[i]);
    }
  }

  /** Without harmful purges, from a good state on: both invariants, and so at most one
      execution per source and nonce, and nobody's nonce forgotten by another. */
  lemma {:induction false} ContinuationKeepsInv(run: seq<State>, i: nat)
    requires Continues(run) && OnceInv(run[0]) && RecordInv(run[0]) && i < |run|
    ensures OnceInv(run[i]) && RecordInv(run[i])
  {
    hide OnceInv, RecordInv, Moves, Harmful;
    if i > 0 {
      ContinuationKeepsInv(run, i - 1);
      assert Proceeds(run, i);
      var move :| Moves(run[i - 1], move, run[i]) && !Harmful(run[i - 1], move);
      StepKeepsOnce(run[i - 1], move, run[i]);
      StepKeepsRecords(run[i - 1], move, run[i]);
    }
  }

  /** No two executions under one source and nonce, and only the call that recorded a nonce
      ever forgot it. */
  ghost predicate Guarantee(s: State)
  {
    OncePerNonce(s) && OwnForgotten(s)
  }

  /** Federated at-most-once: over every interleaving, failure and crash, and every purge
      but a harmful one. */
  lemma FederatedAtMostOnce(run: seq<State>, i: nat)
    requires Continues(run) && Init(run[0]) && i < |run|
    ensures Guarantee(run[i])
  {
    ContinuationKeepsInv(run, i);
  }

  /** In the peers' own terms: two executions for one source and nonce are the same one. */
  lemma OncePerSourceAndNonce(run: seq<State>, i: nat, a: nat, b: nat)
    requires Continues(run) && Init(run[0]) && i < |run|
    requires a < |run[i].executions| && b < |run[i].executions|
    ensures var s := run[i];
            && s.executions[a].call < |s.calls| && s.executions[b].call < |s.calls|
            && var one, other := s.calls[s.executions[a].call].envelope, s.calls[s.executions[b].call].envelope;
            one.source == other.source && one.nonce == other.nonce ==> a == b
  {
    FederatedAtMostOnce(run, i);
    var s := run[i];
    assert s.executions[a] in s.executions && s.executions[b] in s.executions;
  }

  // ---------------------------------------------------------------- answers

  ghost predicate PurgesPast(s: State, s': State, expires: int)
  {
    exists cutoff :: expires < cutoff <= s.clock && s' == Purged(s, cutoff)
  }

  lemma StepKeepsAnswer(s: State, move: Move, s': State, id: string)
    requires Moves(s, move, s') && id in s.answers && !PurgesPast(s, s', s.answers[id].expires)
    ensures id in s'.answers && s'.answers[id] == s.answers[id]
  {
    hide Acceptable, NonceKey;
    if move.Purge? {
      assert s' == Purged(s, move.cutoff);
    }
  }

  /** Answers are not overwritten: from the moment an answer is recorded, and
      as long as no purge reached past its expiry, it is the one recorded, and every call
      with that request id that looks it up is told it. */
  lemma {:induction false} AnswerStands(run: seq<State>, i: nat, j: nat, id: string, c: nat)
    requires IsRun(run) && i <= j < |run| && id in run[i].answers
    requires forall k :: i < k <= j ==> !PurgesPast(run[k - 1], run[k], run[i].answers[id].expires)
    ensures id in run[j].answers && run[j].answers[id] == run[i].answers[id]
    ensures j + 1 < |run| && c < |run[j].calls| && run[j].calls[c].envelope.requestId == id
            && Moves(run[j], LookUp(c), run[j + 1]) ==>
              run[j + 1].calls[c].phase == Done(Repeated(run[i].answers[id].answer))
    decreases j - i
  {
    if i < j {
      AnswerStands(run, i, j - 1, id, c);
      hide Moves, PurgesPast;
      assert Follows(run, j);
      var move :| Moves(run[j - 1], move, run[j]);
      StepKeepsAnswer(run[j - 1], move, run[j], id);
    }
  }

  /** In particular it stands while the clock has not passed its expiry. */
  lemma {:induction false} AnswerStandsUnexpired(run: seq<State>, i: nat, j: nat, id: string)
    requires IsRun(run) && i <= j < |run| && id in run[i].answers && run[j].clock <= run[i].answers[id].expires
    ensures id in run[j].answers && run[j].answers[id] == run[i].answers[id]
    decreases j - i
  {
    if i < j {
      assert Follows(run, j);
      var move :| Moves(run[j - 1], move, run[j]);
      ClockOnly(run[j - 1], move, run[j]);
      AnswerStandsUnexpired(run, i, j - 1, id);
      hide Moves;
      StepKeepsAnswer(run[j - 1], move, run[j], id);
    }
  }

  /** Everything peers were told is the answer of an execution under the same source and
      nonce as the envelope they sent. */
  ghost predicate Truthful(s: State)
  {
    forall c :: 0 <= c < |s.calls| && s.calls[c].phase.Done? &&
                (s.calls[c].phase.served.Ran? || s.calls[c].phase.served.Repeated?) ==>
      Answers(s, KeyOf(s.calls[c].envelope), s.calls[c].phase.served.answer)
  }

  ghost predicate Answers(s: State, key: string, answer: string)
  {
    exists e :: e in s.executions && e.call < |s.calls| && KeyOf(s.calls[e.call].envelope) == key && e.answer == answer
  }

  /** No request id of an envelope that could be executed is used under another nonce. */
  ghost predicate Paired(node: string, issued: iset<Envelope>)
  {
    forall e, f :: e in issued && f in issued && WellFormed(e, node) && e.requestId == f.requestId ==> KeyOf(e) == KeyOf(f)
  }

  lemma PairedIsTruthful(s: State)
    requires RecordInv(s) && Paired(s.node, s.issued)
    ensures Truthful(s)
  {
    hide NonceKey, WellFormed, AnswerInv, NonceInv;
    forall c | 0 <= c < |s.calls| && s.calls[c].phase.Done? &&
               (s.calls[c].phase.served.Ran? || s.calls[c].phase.served.Repeated?)
      ensures Answers(s, KeyOf(s.calls[c].envelope), s.calls[c].phase.served.answer)
    {
      assert ToldInv(s, c);
      var call, told := s.calls[c], s.calls[c].phase.served.answer;
      if call.phase.served.Repeated? {
        var e :| e in s.executions && e.call < |s.calls|
                 && s.calls[e.call].envelope.requestId == call.envelope.requestId && e.answer == told;
        assert ToldInv(s, e.call) && Accepted(s.calls[e.call], s.node);
      } else {
        assert Execution(c, told) in s.executions;
      }
    }
  }

  /** One envelope is executed and answered; another with the same request id is told its
      answer. */
  ghost function Mixed(node: string, issued: iset<Envelope>, e: Envelope, f: Envelope, k: nat): (s: State)
  {
    var start := State(node, issued, e.issued, map[], map[], [], [], []);
    var now, noted := e.issued, map[KeyOf(e) := Nonce(e.expires, 0)];
    var did := start.(nonces := noted, executions := [Execution(0, "a")]);
    var told := did.(answers := map[e.requestId := Recorded("a", e.expires)]);
    var first := Call(e, now, Done(Ran("a")));
    if k == 0 then start
    else if k == 1 then start.(calls := [Call(e, now, Started)])
    else if k == 2 then start.(calls := [Call(e, now, Remembering)])
    else if k == 3 then start.(nonces := noted, calls := [Call(e, now, Holding)])
    else if k == 4 then did.(calls := [Call(e, now, Recording("a"))])
    else if k == 5 then told.(calls := [first])
    else if k == 6 then told.(calls := [first, Call(f, now, Started)])
    else told.(calls := [first, Call(f, now, Done(Repeated("a")))])
  }

  function MixedMove(e: Envelope, f: Envelope, k: nat): (move: Move)
  {
    if k == 0 then Start(e)
    else if k == 1 then LookUp(0)
    else if k == 2 then Remember(0, true)
    else if k == 3 then Execute(0, Some("a"))
    else if k == 4 then Record(0, true)
    else if k == 5 then Start(f)
    else LookUp(1)
  }

  lemma MixedSteps(node: string, issued: iset<Envelope>, e: Envelope, f: Envelope, k: nat)
    requires e in issued && f in issued && WellFormed(e, node) && e.requestId == f.requestId && k < 7
    ensures Init(Mixed(node, issued, e, f, 0))
    ensures Moves(Mixed(node, issued, e, f, k), MixedMove(e, f, k), Mixed(node, issued, e, f, k + 1))
  {
    hide NonceKey, Check;
    assert Acceptable(e, node, e.issued);
  }

  /** Another nonce under the same request id is told an answer that is not its own. */
  lemma UnpairedIsMisled(node: string, issued: iset<Envelope>, e: Envelope, f: Envelope) returns (run: seq<State>)
    requires e in issued && f in issued && WellFormed(e, node) && e.requestId == f.requestId && KeyOf(e) != KeyOf(f)
    ensures IsRun(run) && run[0].node == node && run[0].issued == issued && !Truthful(run[|run| - 1])
  {
    run := seq(8, k requires 0 <= k => Mixed(node, issued, e, f, k));
    forall i ensures Follows(run, i) {
      if 0 < i < |run| {
        MixedSteps(node, issued, e, f, i - 1);
      }
    }
    MixedSteps(node, issued, e, f, 0);
    hide NonceKey;
    var last := run[7];
    assert last.calls[1].phase == Done(Repeated("a")) && last.executions == [Execution(0, "a")];
  }

  /** Exactly when answers can be trusted: in every run, whatever is purged, everybody is
      told the answer of their own request if and only if no request id is used under two
      nonces. */
  lemma TruthfulIff(node: string, issued: iset<Envelope>)
    ensures Paired(node, issued) <==>
            forall run: seq<State> :: IsRun(run) && run[0].node == node && run[0].issued == issued ==> Truthful(run[|run| - 1])
  {
    hide Truthful, Follows, NonceKey, WellFormed;
    if Paired(node, issued) {
      forall run: seq<State> | IsRun(run) && run[0].node == node && run[0].issued == issued ensures Truthful(run[|run| - 1]) {
        RunKeepsRecords(run, |run| - 1);
        PairedIsTruthful(run[|run| - 1]);
      }
    } else {
      var e, f :| e in issued && f in issued && WellFormed(e, node) && e.requestId == f.requestId && KeyOf(e) != KeyOf(f);
      var run := UnpairedIsMisled(node, issued, e, f);
    }
  }

  // ---------------------------------------------------------------- what purges do

  /** A nonce always stands for the same expiry, to the tick. */
  ghost predicate Steady(node: string, issued: iset<Envelope>)
  {
    forall e, f :: e in issued && f in issued && WellFormed(e, node) && WellFormed(f, node) && KeyOf(e) == KeyOf(f) ==>
      f.expires <= e.expires + 1
  }

  /** A purge that reaches no further back than the start of any call still at work. */
  ghost predicate Prompt(s: State, move: Move)
  {
    move.Purge? ==> forall c :: 0 <= c < |s.calls| && !s.calls[c].phase.Done? ==> move.cutoff <= s.calls[c].now
  }

  lemma ExpiredIsNotUsable(s: State, k: string, cutoff: int)
    requires RecordInv(s) && Steady(s.node, s.issued) && cutoff <= s.clock
    requires k in s.nonces && s.nonces[k].expires < cutoff
    requires Accepted(s.calls[s.nonces[k].owner], s.node)
    requires Prompt(s, Purge(cutoff))
    ensures !Usable(s, k)
  {
    hide NonceKey, WellFormed, AnswerInv, Given;
    assert NonceInv(s, k);
    var owner := s.nonces[k].owner;
    assert ToldInv(s, owner);
    forall c | 0 <= c < |s.calls| && Able(s, c) ensures KeyOf(s.calls[c].envelope) != k {
      assert ToldInv(s, c);
    }
  }

  /** A prompt purge is harmless as long as a nonce always stands for the same expiry. */
  lemma PromptPurgeIsHarmless(s: State, cutoff: int)
    requires OnceInv(s) && RecordInv(s) && Steady(s.node, s.issued) && cutoff <= s.clock
    requires Prompt(s, Purge(cutoff))
    ensures !Harmful(s, Purge(cutoff))
  {
    hide NonceKey, WellFormed, AnswerInv, Given, Usable, Steady;
    forall k | k in s.nonces && s.nonces[k].expires < cutoff ensures !Busy(s, k) && !(Used(s, k) && Usable(s, k)) {
      assert NonceInv(s, k);
      forall c | 0 <= c < |s.calls| && Engaged(s, c) ensures KeyOf(s.calls[c].envelope) != k {
        assert CallInv(s, c) && ToldInv(s, c);
      }
      if Used(s, k) {
        var e :| e in s.executions && e.call < |s.calls| && KeyOf(s.calls[e.call].envelope) == k;
        assert ExecutionInv(s, e);
        if s.nonces[k].owner == e.call {
          ExpiredIsNotUsable(s, k, cutoff);
        }
      }
    }
  }

  /** The nonce was taken from call `c` at work: a new call records it again, and `c`
      forgets it for the other. */
  lemma ForgetsAnother(s: State, c: nat) returns (run: seq<State>)
    requires c < |s.calls| && Engaged(s, c) && s.calls[c].envelope in s.issued
    requires KeyOf(s.calls[c].envelope) !in s.nonces && s.calls[c].envelope.requestId !in s.answers
    ensures Continues(run) && run[0] == s && !Guarantee(run[|run| - 1])
  {
    hide NonceKey, Check, OncePerNonce;
    var d, e := |s.calls|, s.calls[c].envelope;
    var s1 := s.(calls := s.calls + [Call(e, s.clock, Started)]);
    assert Moves(s, Start(e), s1);
    var s2 := At(s1, d, Remembering);
    assert Moves(s1, LookUp(d), s2);
    var s3 := At(s2, d, Done(Broken)).(nonces := s2.nonces[KeyOf(e) := Nonce(e.expires, d)]);
    assert Moves(s2, Remember(d, false), s3);
    var s4 := s3;
    if s3.calls[c].phase.Holding? {
      s4 := At(s3, c, Forgetting);
      assert Moves(s3, Execute(c, None), s4);
    } else {
      assert Moves(s3, Tick(s3.clock), s4);
    }
    var s5 := At(s4, c, Done(Broken)).(nonces := s4.nonces - {KeyOf(e)}, forgotten := s4.forgotten + [(c, d)]);
    assert Moves(s4, Forget(c), s5);
    run := [s, s1, s2, s3, s4, s5];
    assert (c, d) in s5.forgotten;
  }

  /** The call has looked for an answer, now or before. */
  lemma LooksUp(s: State, c: nat)
    requires c < |s.calls| && Able(s, c) && s.calls[c].envelope.requestId !in s.answers
    ensures Carefully(s, At(s, c, Remembering))
  {
    hide NonceKey, Check, Acceptable;
    var s' := At(s, c, Remembering);
    if s.calls[c].phase.Started? {
      assert Moves(s, LookUp(c), s') && !Harmful(s, LookUp(c));
    } else {
      assert s'.calls == s.calls;
      assert Moves(s, Tick(s.clock), s') && !Harmful(s, Tick(s.clock));
    }
  }

  lemma GoesThrough(s: State, c: nat) returns (held: State, ran: State)
    requires c < |s.calls| && s.calls[c].phase.Remembering? && Acceptable(s.calls[c].envelope, s.node, s.calls[c].now)
    requires KeyOf(s.calls[c].envelope) !in s.nonces
    ensures Carefully(s, held) && Carefully(held, ran)
    ensures |ran.calls| == |s.calls| && ran.executions == s.executions + [Execution(c, "")]
    ensures forall i :: 0 <= i < |s.calls| ==> ran.calls[i].envelope == s.calls[i].envelope
  {
    hide NonceKey, Check;
    var e := s.calls[c].envelope;
    held := At(s, c, Holding).(nonces := s.nonces[KeyOf(e) := Nonce(e.expires, c)]);
    assert Moves(s, Remember(c, true), held) && !Harmful(s, Remember(c, true));
    ran := At(held, c, Recording("")).(executions := held.executions + [Execution(c, "")]);
    assert Moves(held, Execute(c, Some("")), ran) && !Harmful(held, Execute(c, Some("")));
  }

  /** A call that finds neither answer nor nonce executes what was executed before. */
  lemma ExecutesAgain(s: State, c: nat) returns (run: seq<State>)
    requires c < |s.calls| && Able(s, c)
    requires Used(s, KeyOf(s.calls[c].envelope))
    requires KeyOf(s.calls[c].envelope) !in s.nonces && s.calls[c].envelope.requestId !in s.answers
    ensures Continues(run) && run[0] == s && !Guarantee(run[|run| - 1])
  {
    hide NonceKey, Check, OwnForgotten, OncePerNonce, Used, Carefully;
    LooksUp(s, c);
    var s1 := At(s, c, Remembering);
    var s2, s3 := GoesThrough(s1, c);
    run := [s, s1, s2, s3];
    TwiceUnder(s, c, s3);
  }

  lemma TwiceUnder(s: State, c: nat, s': State)
    requires c < |s.calls| && Used(s, KeyOf(s.calls[c].envelope))
    requires |s'.calls| == |s.calls| && s'.executions == s.executions + [Execution(c, "")]
    requires forall i :: 0 <= i < |s.calls| ==> s'.calls[i].envelope == s.calls[i].envelope
    ensures !OncePerNonce(s')
  {
    hide NonceKey;
    var e :| e in s.executions && e.call < |s.calls| && KeyOf(s.calls[e.call].envelope) == KeyOf(s.calls[c].envelope);
    var i :| 0 <= i < |s.executions| && s.executions[i] == e;
    assert s'.executions[i] == e && s'.executions[|s.executions|] == Execution(c, "");
  }

  /** An envelope yet to come does the same. */
  lemma ExecutesReissue(s: State, e: Envelope) returns (run: seq<State>)
    requires e in s.issued && Acceptable(e, s.node, s.clock) && Used(s, KeyOf(e))
    requires KeyOf(e) !in s.nonces && e.requestId !in s.answers
    ensures Continues(run) && run[0] == s && !Guarantee(run[|run| - 1])
  {
    hide NonceKey, Check, Guarantee;
    var s1 := s.(calls := s.calls + [Call(e, s.clock, Started)]);
    assert Moves(s, Start(e), s1);
    var x :| x in s.executions && x.call < |s.calls| && KeyOf(s.calls[x.call].envelope) == KeyOf(e);
    assert Used(s1, KeyOf(e));
    var rest := ExecutesAgain(s1, |s.calls|);
    run := [s] + rest;
    forall i ensures Proceeds(run, i) {
      assert i > 1 ==> Proceeds(rest, i - 1);
    }
  }

  lemma BusyIsNotUsed(s: State, k: string)
    requires OnceInv(s) && Busy(s, k)
    ensures !Used(s, k)
  {
    hide NonceKey, Used, ExecutionInv, OncePerNonce;
    var c :| 0 <= c < |s.calls| && Engaged(s, c) && KeyOf(s.calls[c].envelope) == k;
    assert CallInv(s, c);
  }

  /** Where a recorded answer came from: the same nonce, and the same expiry. */
  lemma AnswerFrom(s: State, e: Envelope) returns (x: Execution)
    requires RecordInv(s) && Paired(s.node, s.issued) && e in s.issued && e.requestId in s.answers
    ensures x in s.executions && x.call < |s.calls| && KeyOf(s.calls[x.call].envelope) == KeyOf(e)
    ensures s.calls[x.call].envelope.expires == s.answers[e.requestId].expires
  {
    hide NonceKey, Check, WellFormed, Given, NonceInv;
    var id := e.requestId;
    assert AnswerInv(s, id);
    x :| x in s.executions && x.call < |s.calls|
         && s.calls[x.call].envelope.requestId == id && x.answer == s.answers[id].answer
         && s.calls[x.call].envelope.expires == s.answers[id].expires;
    assert ToldInv(s, x.call) && Accepted(s.calls[x.call], s.node);
  }

  /** A harmful purge takes the answer along with the nonce. */
  lemma AnswerGone(s: State, k: string, e: Envelope, cutoff: int)
    requires OnceInv(s) && RecordInv(s) && Paired(s.node, s.issued)
    requires k in s.nonces && s.nonces[k].expires < cutoff && (Busy(s, k) || (Used(s, k) && Usable(s, k)))
    requires e in s.issued && KeyOf(e) == k
    ensures e.requestId !in Purged(s, cutoff).answers
  {
    hide NonceKey, Given, Usable, Busy, Paired, ToldInv, AnswerInv, Accepted, CallInv, OncePerNonce;
    var id := e.requestId;
    if id in s.answers && cutoff <= s.answers[id].expires {
      var x := AnswerFrom(s, e);
      assert NonceInv(s, k) && ExecutionInv(s, x);
      assert Used(s, k);
      if Busy(s, k) {
        BusyIsNotUsed(s, k);
      }
    }
  }

  lemma HarmfulBreaks(s: State, k: string, cutoff: int) returns (run: seq<State>)
    requires OnceInv(s) && RecordInv(s) && Paired(s.node, s.issued)
    requires k in s.nonces && s.nonces[k].expires < cutoff && (Busy(s, k) || (Used(s, k) && Usable(s, k)))
    ensures Continues(run) && run[0] == Purged(s, cutoff) && !Guarantee(run[|run| - 1])
  {
    hide NonceKey, Check, Guarantee, Continues, Paired, AnswerInv, NonceInv;
    var s' := Purged(s, cutoff);
    assert SameDeeds(s, s');
    UsedAlike(s, s', k);
    if c :| 0 <= c < |s.calls| && Engaged(s, c) && KeyOf(s.calls[c].envelope) == k {
      assert ToldInv(s, c);
      AnswerGone(s, k, s.calls[c].envelope, cutoff);
      run := ForgetsAnother(s', c);
    } else if c :| 0 <= c < |s.calls| && Able(s, c) && KeyOf(s.calls[c].envelope) == k {
      assert ToldInv(s, c) && Able(s', c);
      AnswerGone(s, k, s.calls[c].envelope, cutoff);
      run := ExecutesAgain(s', c);
    } else {
      var e :| e in s.issued && KeyOf(e) == k && Acceptable(e, s.node, s.clock);
      AnswerGone(s, k, e, cutoff);
      run := ExecutesReissue(s', e);
    }
  }

  /** Exactly when the promises survive a purge: in any state reached so far they hold in
      every continuation without further harmful purges if and only if this one is not
      harmful. */
  lemma SafeIffNotHarmful(s: State, cutoff: int)
    requires OnceInv(s) && RecordInv(s) && Paired(s.node, s.issued) && cutoff <= s.clock
    ensures !Harmful(s, Purge(cutoff)) <==>
            forall run: seq<State> :: Continues(run) && run[0] == Purged(s, cutoff) ==> Guarantee(run[|run| - 1])
  {
    hide NonceKey, Paired, Busy, Used, Usable;
    var s' := Purged(s, cutoff);
    if Harmful(s, Purge(cutoff)) {
      var k :| k in s.nonces && s.nonces[k].expires < cutoff && (Busy(s, k) || (Used(s, k) && Usable(s, k)));
      var run := HarmfulBreaks(s, k, cutoff);
    } else {
      assert Moves(s, Purge(cutoff), s');
      StepKeepsOnce(s, Purge(cutoff), s');
      StepKeepsRecords(s, Purge(cutoff), s');
      forall run: seq<State> | Continues(run) && run[0] == s' ensures Guarantee(run[|run| - 1]) {
        ContinuationKeepsInv(run, |run| - 1);
      }
    }
  }

  // ---------------------------------------------------------------- inputs that fail

  /** Two copies of an envelope arrive in time; the second is delayed until the first has
      executed and its nonce, by then expired, has been purged. */
  ghost function Delayed(node: string, issued: iset<Envelope>, e: Envelope, k: nat): (s: State)
  {
    var now, noted := e.issued, map[KeyOf(e) := Nonce(e.expires, 0)];
    var start := State(node, issued, now, map[], map[], [], [], []);
    var late := Call(e, now, Remembering);
    var did := start.(nonces := noted, calls := [Call(e, now, Recording("a")), late], executions := [Execution(0, "a")]);
    var purged := did.(clock := e.expires + 1, nonces := map[]);
    if k == 0 then start
    else if k == 1 then start.(calls := [Call(e, now, Started)])
    else if k == 2 then start.(calls := [Call(e, now, Started), Call(e, now, Started)])
    else if k == 3 then start.(calls := [Call(e, now, Remembering), Call(e, now, Started)])
    else if k == 4 then start.(calls := [Call(e, now, Remembering), late])
    else if k == 5 then start.(nonces := noted, calls := [Call(e, now, Holding), late])
    else if k == 6 then did
    else if k == 7 then did.(clock := e.expires + 1)
    else if k == 8 then purged
    else if k == 9 then purged.(nonces := map[KeyOf(e) := Nonce(e.expires, 1)],
                                calls := [Call(e, now, Recording("a")), Call(e, now, Holding)])
    else purged.(nonces := map[KeyOf(e) := Nonce(e.expires, 1)],
                 calls := [Call(e, now, Recording("a")), Call(e, now, Recording("b"))],
                 executions := [Execution(0, "a"), Execution(1, "b")])
  }

  function DelayedMove(e: Envelope, k: nat): (move: Move)
  {
    if k <= 1 then Start(e)
    else if k == 2 then LookUp(0)
    else if k == 3 then LookUp(1)
    else if k == 4 then Remember(0, true)
    else if k == 5 then Execute(0, Some("a"))
    else if k == 6 then Tick(e.expires + 1)
    else if k == 7 then Purge(e.expires + 1)
    else if k == 8 then Remember(1, true)
    else Execute(1, Some("b"))
  }

  lemma DelayedBegins(node: string, issued: iset<Envelope>, e: Envelope, k: nat)
    requires e in issued && WellFormed(e, node) && k < 5
    ensures Moves(Delayed(node, issued, e, k), DelayedMove(e, k), Delayed(node, issued, e, k + 1))
  {
    hide NonceKey, Check;
    assert Acceptable(e, node, e.issued);
  }

  lemma DelayedEnds(node: string, issued: iset<Envelope>, e: Envelope, k: nat)
    requires e in issued && WellFormed(e, node) && 5 <= k < 10
    ensures Moves(Delayed(node, issued, e, k), DelayedMove(e, k), Delayed(node, issued, e, k + 1))
  {
    hide NonceKey, Check;
    assert Acceptable(e, node, e.issued);
    if k == 7 {
      assert Purged(Delayed(node, issued, e, 7), e.expires + 1).nonces == map[];
    }
  }

  /** A purge under a delayed call: it happens to every well-formed envelope. */
  lemma DelayedDuplicateExecutesTwice(node: string, issued: iset<Envelope>, e: Envelope, k: nat)
    requires e in issued && WellFormed(e, node) && k < 10
    ensures Init(Delayed(node, issued, e, 0))
    ensures Moves(Delayed(node, issued, e, k), DelayedMove(e, k), Delayed(node, issued, e, k + 1))
    ensures !OncePerNonce(Delayed(node, issued, e, 10))
  {
    hide NonceKey, Check, Moves;
    if k < 5 {
      DelayedBegins(node, issued, e, k);
    } else {
      DelayedEnds(node, issued, e, k);
    }
    var last := Delayed(node, issued, e, 10);
    assert last.executions[0].call == 0 && last.executions[1].call == 1;
  }

  /** One envelope is served to the end and its records purged; another of the same source
      and nonce, which expires later, comes after that. */
  ghost function Reissued(node: string, issued: iset<Envelope>, e: Envelope, f: Envelope, k: nat): (s: State)
    requires k <= 11
  {
    var after, noted := e.expires + 1, map[KeyOf(f) := Nonce(f.expires, 1)];
    var served := Mixed(node, issued, e, e, 5);
    var purged := served.(clock := after, nonces := map[], answers := map[]);
    var first := served.calls[0];
    if k <= 5 then Mixed(node, issued, e, e, k)
    else if k == 6 then served.(clock := after)
    else if k == 7 then purged
    else if k == 8 then purged.(calls := [first, Call(f, after, Started)])
    else if k == 9 then purged.(calls := [first, Call(f, after, Remembering)])
    else if k == 10 then purged.(nonces := noted, calls := [first, Call(f, after, Holding)])
    else purged.(nonces := noted, calls := [first, Call(f, after, Recording("b"))],
                 executions := [Execution(0, "a"), Execution(1, "b")])
  }

  function ReissuedMove(e: Envelope, f: Envelope, k: nat): (move: Move)
  {
    if k < 5 then MixedMove(e, e, k)
    else if k == 5 then Tick(e.expires + 1)
    else if k == 6 then Purge(e.expires + 1)
    else if k == 7 then Start(f)
    else if k == 8 then LookUp(1)
    else if k == 9 then Remember(1, true)
    else Execute(1, Some("b"))
  }

  lemma ReissuedPurges(node: string, issued: iset<Envelope>, e: Envelope, f: Envelope, k: nat)
    requires e in issued && f in issued && WellFormed(e, node) && WellFormed(f, node) && 5 <= k < 8
    ensures Moves(Reissued(node, issued, e, f, k), ReissuedMove(e, f, k), Reissued(node, issued, e, f, k + 1))
  {
    hide NonceKey, Check;
    if k == 6 {
      var done := Purged(Reissued(node, issued, e, f, 6), e.expires + 1);
      assert done.nonces == map[] && done.answers == map[];
    }
  }

  lemma ReissuedEnds(node: string, issued: iset<Envelope>, e: Envelope, f: Envelope, k: nat)
    requires e in issued && f in issued && WellFormed(e, node) && WellFormed(f, node)
    requires KeyOf(e) == KeyOf(f) && e.expires + 1 < f.expires && 8 <= k < 11
    ensures Moves(Reissued(node, issued, e, f, k), ReissuedMove(e, f, k), Reissued(node, issued, e, f, k + 1))
  {
    hide NonceKey, Check;
    assert Acceptable(f, node, e.expires + 1);
  }

  /** A nonce issued again: no call is at work when the purge happens, and the source and
      nonce are executed twice. */
  lemma ReissuedNonceExecutesTwice(node: string, issued: iset<Envelope>, e: Envelope, f: Envelope, k: nat)
    requires e in issued && f in issued && WellFormed(e, node) && WellFormed(f, node)
    requires KeyOf(e) == KeyOf(f) && e.expires + 1 < f.expires && k < 11
    ensures Init(Reissued(node, issued, e, f, 0))
    ensures Moves(Reissued(node, issued, e, f, k), ReissuedMove(e, f, k), Reissued(node, issued, e, f, k + 1))
    ensures forall c :: 0 <= c < |Reissued(node, issued, e, f, 6).calls| ==> Reissued(node, issued, e, f, 6).calls[c].phase.Done?
    ensures !OncePerNonce(Reissued(node, issued, e, f, 11))
  {
    hide NonceKey, Check, Moves;
    if k < 5 {
      MixedSteps(node, issued, e, e, k);
    } else if k < 8 {
      ReissuedPurges(node, issued, e, f, k);
    } else {
      ReissuedEnds(node, issued, e, f, k);
    }
    var last := Reissued(node, issued, e, f, 11);
    assert last.executions[0].call == 0 && last.executions[1].call == 1;
  }

  /** What `send` makes cannot fail either way: if no request id is used twice, it pairs
      with its nonce, and the nonce with its expiry. */
  lemma SentAreSound(node: string, issued: iset<Envelope>)
    requires forall e :: e in issued ==> e.nonce == e.requestId
    requires forall e, f :: e in issued && f in issued && e.requestId == f.requestId ==> e == f
    requires forall e :: e in issued ==> ':' !in e.source
    ensures Paired(node, issued) && Steady(node, issued)
  {
    hide WellFormed, NonceKey;
    forall e, f | e in issued && f in issued && KeyOf(e) == KeyOf(f) ensures e == f {
      NonceKeysSeparate(e.source, e.nonce, f.source, f.nonce);
    }
  }

  // ---------------------------------------------------------------- prompt purging

  ghost predicate Promptly(s: State, s': State)
  {
    exists move :: Moves(s, move, s') && Prompt(s, move)
  }

  ghost predicate Advances(run: seq<State>, i: int)
  {
    0 < i < |run| ==> Promptly(run[i - 1], run[i])
  }

  /** A run whose purges are all prompt. */
  ghost predicate IsPrompt(run: seq<State>)
  {
    run != [] && Init(run[0]) && forall i :: Advances(run, i)
  }

  lemma {:induction false} PromptRunKeepsInv(run: seq<State>, i: nat)
    requires IsPrompt(run) && Steady(run[0].node, run[0].issued) && i < |run|
    ensures OnceInv(run[i]) && RecordInv(run[i]) && run[i].node == run[0].node && run[i].issued == run[0].issued
  {
    hide Moves, Prompt, Steady, Harmful;
    if i > 0 {
      PromptRunKeepsInv(run, i - 1);
      hide OnceInv, RecordInv;
      assert Advances(run, i);
      var move :| Moves(run[i - 1], move, run[i]) && Prompt(run[i - 1], move);
      PromptIsHarmless(run[i - 1], move, run[i]);
      StepKeepsOnce(run[i - 1], move, run[i]);
      StepKeepsRecords(run[i - 1], move, run[i]);
      StepExtends(run[i - 1], move, run[i]);
    }
  }

  lemma PromptIsHarmless(s: State, move: Move, s': State)
    requires OnceInv(s) && RecordInv(s) && Steady(s.node, s.issued) && Moves(s, move, s') && Prompt(s, move)
    ensures !Harmful(s, move)
  {
    hide OnceInv, RecordInv, Steady, Prompt;
    if move.Purge? {
      PromptPurgeIsHarmless(s, move.cutoff);
    }
  }

  /** Exactly what prompt purging needs of the peers: every run with prompt purges keeps the
      promises if and only if no nonce is issued again with an expiry more than a tick
      later. */
  lemma PromptSafeIff(node: string, issued: iset<Envelope>)
    ensures Steady(node, issued) <==>
            forall run: seq<State> :: IsPrompt(run) && run[0].node == node && run[0].issued == issued ==> Guarantee(run[|run| - 1])
  {
    hide NonceKey, WellFormed, Advances;
    if Steady(node, issued) {
      forall run: seq<State> | IsPrompt(run) && run[0].node == node && run[0].issued == issued
        ensures Guarantee(run[|run| - 1])
      {
        PromptRunKeepsInv(run, |run| - 1);
      }
    } else {
      var e, f :| e in issued && f in issued && WellFormed(e, node) && WellFormed(f, node)
                  && KeyOf(e) == KeyOf(f) && e.expires + 1 < f.expires;
      var run := ReissuedRun(node, issued, e, f);
    }
  }

  lemma ReissuedRun(node: string, issued: iset<Envelope>, e: Envelope, f: Envelope) returns (run: seq<State>)
    requires e in issued && f in issued && WellFormed(e, node) && WellFormed(f, node)
    requires KeyOf(e) == KeyOf(f) && e.expires + 1 < f.expires
    ensures IsPrompt(run) && run[0].node == node && run[0].issued == issued && !Guarantee(run[|run| - 1])
  {
    hide NonceKey, WellFormed, OncePerNonce, Moves;
    run := seq(12, k requires 0 <= k < 12 => Reissued(node, issued, e, f, k));
    forall i ensures Advances(run, i) {
      if 0 < i < |run| {
        ReissuedNonceExecutesTwice(node, issued, e, f, i - 1);
      }
    }
    ReissuedNonceExecutesTwice(node, issued, e, f, 0);
  }
}
