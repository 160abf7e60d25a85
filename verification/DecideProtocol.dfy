/** Any number of `AutoCommit.decide` calls on one row, interleaved step by step, and the
    proof that they are linearizable. */
module DecideProtocol {
  import opened Wrappers
  import opened Decide

  /** A decision taken at a point of the serial order: who took it, and at what time. */
  datatype Point = Point(call: nat, now: int)

  datatype Outcome<+A> =
    | Answer(at: nat, value: A)
    | Refusal(at: nat, error: PortError)
    | Failure(landed: Option<nat>)  // an error; the point its write landed at, if it did

  /** Where a call is. `since` and `until` are how much of the serial order existed when
      it started and when it returned. */
  datatype Phase<+S, +A> =
    | Fresh(since: nat, tries: nat)
    | Pending(since: nat, tries: nat, now: int, read: Option<S>, seen: nat)
    | Returned(since: nat, until: nat, outcome: Outcome<A>)

  datatype State<+S, +A> = State(
    row: Option<S>,
    revision: nat,
    clock: int,
    calls: seq<Phase<S, A>>,
    order: seq<Point>
  )

  datatype Move =
    | Tick(later: int)
    | Begin
    | Read(call: nat, fails: bool)
    | Commit(call: nat, acknowledged: bool)
    | LoseRace(call: nat)
    | Fail(call: nat)
    | Retry(call: nat)

  function Again<S, A>(phase: Phase<S, A>, now: nat): (next: Phase<S, A>)
    requires !phase.Returned?
  {
    if phase.tries + 1 < MAX_CAS_ATTEMPTS then Fresh(phase.since, phase.tries + 1)
    else Returned(phase.since, now, Failure(None))
  }

  /** `call` takes its point in the serial order at the current clock, and returns. */
  function Return<S, A>(s: State<S, A>, call: nat, outcome: Outcome<A>): (s': State<S, A>)
    requires call < |s.calls| && !s.calls[call].Returned?
  {
    s.(order := s.order + [Point(call, s.clock)],
       calls := s.calls[call := Returned(s.calls[call].since, |s.order| + 1, outcome)])
  }

  /** What `call` does once its operation has decided `decision` on the current row: a
      decision that writes nothing is over, one that writes waits for its commit. */
  ghost predicate Decides<S(!new), A(!new)>(s: State<S, A>, call: nat, decision: Decision<S, A>, fails: bool, s': State<S, A>)
    requires call < |s.calls| && s.calls[call].Fresh?
  {
    match decision
    case Refused(error) => s' == Return(s, call, if fails then Failure(Some(|s.order|)) else Refusal(|s.order|, error))
    case Decided(answer, Keep) => s' == Return(s, call, if fails then Failure(Some(|s.order|)) else Answer(|s.order|, answer))
    case Decided(_, Put(_)) =>
      s' == s.(calls := s.calls[call := Pending(s.calls[call].since, s.calls[call].tries, s.clock, s.row, s.revision)])
  }

  ghost predicate Commits<S(!new), A(!new)>(operations: nat -> Operation<S, A>, s: State<S, A>, call: nat, acknowledged: bool, s': State<S, A>)
    requires call < |s.calls| && s.calls[call].Pending?
  {
    var c, at := s.calls[call], |s.order|;
    && c.seen == s.revision
    && var decision := operations(call)(c.now, c.read);
    && decision.Decided? && decision.write.Put?
    && s' == s.(row := Some(decision.write.row),
                revision := s.revision + 1,
                order := s.order + [Point(call, c.now)],
                calls := s.calls[call := Returned(c.since, at + 1,
                                                  if acknowledged then Answer(at, decision.answer)
                                                  else Failure(Some(at)))])
  }

  ghost predicate Step<S(!new), A(!new)>(operations: nat -> Operation<S, A>, s: State<S, A>, move: Move, s': State<S, A>)
  {
    match move
    case Tick(later) => s.clock <= later && s' == s.(clock := later)
    case Begin => s' == s.(calls := s.calls + [Fresh(|s.order|, 0)])
    case Read(call, fails) =>
      && call < |s.calls| && s.calls[call].Fresh?
      && Decides(s, call, operations(call)(s.clock, s.row), fails, s')
    case Commit(call, acknowledged) =>
      && call < |s.calls| && s.calls[call].Pending?
      && Commits(operations, s, call, acknowledged, s')
    case LoseRace(call) =>
      && call < |s.calls| && s.calls[call].Pending? && s.calls[call].seen != s.revision
      && s' == s.(calls := s.calls[call := Again(s.calls[call], |s.order|)])
    case Fail(call) =>
      && call < |s.calls| && !s.calls[call].Returned?
      && s' == s.(calls := s.calls[call := Returned(s.calls[call].since, |s.order|, Failure(None))])
    case Retry(call) =>
      && call < |s.calls| && !s.calls[call].Returned?
      && s' == s.(calls := s.calls[call := Again(s.calls[call], |s.order|)])
  }

  ghost predicate Next<S(!new), A(!new)>(operations: nat -> Operation<S, A>, s: State<S, A>, s': State<S, A>)
  {
    exists move :: Step(operations, s, move, s')
  }

  ghost predicate IsRun<S(!new), A(!new)>(operations: nat -> Operation<S, A>, initial: Option<S>, run: seq<State<S, A>>)
  {
    && run != []
    && run[0].row == initial && run[0].calls == [] && run[0].order == []
    && forall i :: Follows(operations, run, i)
  }

  ghost predicate Follows<S(!new), A(!new)>(operations: nat -> Operation<S, A>, run: seq<State<S, A>>, i: int)
  {
    0 < i < |run| ==> Next(operations, run[i - 1], run[i])
  }

  /** The row after taking the decisions of `order` one at a time. */
  function Replay<S, A>(operations: nat -> Operation<S, A>, initial: Option<S>, order: seq<Point>): (row: Option<S>)
  {
    if order == [] then initial
    else
      var last := order[|order| - 1];
      var before := Replay(operations, initial, order[..|order| - 1]);
      Apply(operations(last.call)(last.now, before), before)
  }

  /** The decision `order` takes at position `at`, on the row the earlier ones left. */
  function DecisionAt<S, A>(operations: nat -> Operation<S, A>, initial: Option<S>, order: seq<Point>, at: nat): (decision: Decision<S, A>)
    requires at < |order|
  {
    operations(order[at].call)(order[at].now, Replay(operations, initial, order[..at]))
  }

  predicate Distinct(order: seq<Point>)
  {
    forall i, j :: 0 <= i < j < |order| ==> order[i].call != order[j].call
  }

  predicate Absent(order: seq<Point>, call: nat)
  {
    forall i :: 0 <= i < |order| ==> order[i].call != call
  }

  /** A call's outcome is the one `order` gives it, at a point inside the call. */
  ghost predicate Explained<S(!new), A(!new)>(operations: nat -> Operation<S, A>, initial: Option<S>, order: seq<Point>, call: nat, phase: Phase<S, A>)
  {
    match phase
    case Fresh(since, _) => since <= |order| && Absent(order, call)
    case Pending(since, _, _, _, _) => since <= |order| && Absent(order, call)
    case Returned(since, until, Failure(None)) => since <= until <= |order| && Absent(order, call)
    case Returned(since, until, Failure(Some(at))) =>
      since <= at < until <= |order| && order[at].call == call
    case Returned(since, until, Answer(at, value)) =>
      && since <= at < until <= |order| && order[at].call == call
      && var decision := DecisionAt(operations, initial, order, at);
      && decision.Decided? && decision.answer == value
    case Returned(since, until, Refusal(at, error)) =>
      && since <= at < until <= |order| && order[at].call == call
      && DecisionAt(operations, initial, order, at) == Refused(error)
  }

  /** `order` is a serial execution with the same answers and the same final row. */
  ghost predicate Serializes<S(!new), A(!new)>(operations: nat -> Operation<S, A>, initial: Option<S>, s: State<S, A>, order: seq<Point>)
  {
    && Distinct(order)
    && (forall i :: 0 <= i < |order| ==> order[i].call < |s.calls|)
    && Replay(operations, initial, order) == s.row
    && forall c :: 0 <= c < |s.calls| ==> Explained(operations, initial, order, c, s.calls[c])
  }

  ghost predicate Fits<S(!new), A(!new)>(s: State<S, A>, phase: Phase<S, A>)
  {
    phase.Pending? ==> phase.seen <= s.revision && (phase.seen == s.revision ==> phase.read == s.row)
  }

  ghost predicate Inv<S(!new), A(!new)>(operations: nat -> Operation<S, A>, initial: Option<S>, s: State<S, A>)
  {
    && Serializes(operations, initial, s, s.order)
    && forall c :: 0 <= c < |s.calls| ==> Fits(s, s.calls[c])
  }

  /** Appending a decision leaves everything already explained as it was. */
  lemma ExplainedExtends<S(!new), A(!new)>(operations: nat -> Operation<S, A>, initial: Option<S>, order: seq<Point>, point: Point, call: nat, phase: Phase<S, A>)
    requires Explained(operations, initial, order, call, phase) && call != point.call
    ensures Explained(operations, initial, order + [point], call, phase)
  {
    if phase.Returned? && !phase.outcome.Failure? {
      var at := phase.outcome.at;
      assert (order + [point])[..at] == order[..at];
    }
  }

  lemma ReplayExtends<S, A>(operations: nat -> Operation<S, A>, initial: Option<S>, order: seq<Point>, point: Point)
    ensures var row := Replay(operations, initial, order);
            var decision := operations(point.call)(point.now, row);
            && Replay(operations, initial, order + [point]) == Apply(decision, row)
            && DecisionAt(operations, initial, order + [point], |order|) == decision
  {
    assert (order + [point])[..|order|] == order;
  }

  /** A call takes its point in the order: its decision on the current row is appended,
      the row becomes what the decision writes, and the call returns. */
  lemma PointKeepsInv<S(!new), A(!new)>(operations: nat -> Operation<S, A>, initial: Option<S>, s: State<S, A>, call: nat, now: int, outcome: Outcome<A>, s': State<S, A>)
    requires Inv(operations, initial, s)
    requires call < |s.calls| && !s.calls[call].Returned?
    requires s'.order == s.order + [Point(call, now)]
    requires s'.calls == s.calls[call := Returned(s.calls[call].since, |s.order| + 1, outcome)]
    requires var decision := operations(call)(now, s.row);
             && s'.row == Apply(decision, s.row)
             && match outcome
                case Answer(at, value) => at == |s.order| && decision.Decided? && decision.answer == value
                case Refusal(at, error) => at == |s.order| && decision == Refused(error)
                case Failure(landed) => landed == Some(|s.order|)
    requires if s'.row == s.row then s'.revision == s.revision || s'.revision == s.revision + 1
             else s'.revision == s.revision + 1
    ensures Inv(operations, initial, s')
  {
    var point := Point(call, now);
    ReplayExtends(operations, initial, s.order, point);
    forall c | 0 <= c < |s'.calls|
      ensures Explained(operations, initial, s'.order, c, s'.calls[c])
    {
      if c != call {
        assert s'.calls[c] == s.calls[c];
        ExplainedExtends(operations, initial, s.order, point, c, s.calls[c]);
      }
    }
  }

  /** A call without a point moves on without taking one. */
  lemma RephaseKeepsInv<S(!new), A(!new)>(operations: nat -> Operation<S, A>, initial: Option<S>, s: State<S, A>, call: nat, s': State<S, A>)
    requires Inv(operations, initial, s)
    requires call < |s.calls| && !s.calls[call].Returned? && call < |s'.calls|
    requires s' == s.(calls := s.calls[call := s'.calls[call]])
    requires var next := s'.calls[call];
             && next.since == s.calls[call].since && Fits(s, next)
             && (next.Returned? ==> next.outcome == Failure(None) && next.until == |s.order|)
    ensures Inv(operations, initial, s')
  {
    assert Explained(operations, initial, s.order, call, s.calls[call]);
    forall c | 0 <= c < |s'.calls|
      ensures Explained(operations, initial, s'.order, c, s'.calls[c]) && Fits(s', s'.calls[c])
    {
      if c != call {
        assert Explained(operations, initial, s.order, c, s.calls[c]) && Fits(s, s.calls[c]);
      }
    }
  }

  lemma StepKeepsInv<S(!new), A(!new)>(operations: nat -> Operation<S, A>, initial: Option<S>, s: State<S, A>, move: Move, s': State<S, A>)
    requires Inv(operations, initial, s)
    requires Step(operations, s, move, s')
    ensures Inv(operations, initial, s')
  {
    match move
    case Tick(_) =>
    case Begin =>
      forall c | 0 <= c < |s'.calls|
        ensures Explained(operations, initial, s'.order, c, s'.calls[c]) && Fits(s', s'.calls[c])
      {
        assert c < |s.calls| ==> s'.calls[c] == s.calls[c];
      }
    case Read(call, fails) =>
      if s'.calls[call].Returned? {
        PointKeepsInv(operations, initial, s, call, s.clock, s'.calls[call].outcome, s');
      } else {
        RephaseKeepsInv(operations, initial, s, call, s');
      }
    case Commit(call, _) =>
      PointKeepsInv(operations, initial, s, call, s.calls[call].now, s'.calls[call].outcome, s');
    case LoseRace(call) => RephaseKeepsInv(operations, initial, s, call, s');
    case Fail(call) => RephaseKeepsInv(operations, initial, s, call, s');
    case Retry(call) => RephaseKeepsInv(operations, initial, s, call, s');
  }

  lemma {:induction false} RunKeepsInv<S(!new), A(!new)>(operations: nat -> Operation<S, A>, initial: Option<S>, run: seq<State<S, A>>)
    requires IsRun(operations, initial, run)
    ensures Inv(operations, initial, run[|run| - 1])
  {
    if |run| > 1 {
      var before := run[..|run| - 1];
      forall i ensures Follows(operations, before, i) {
        assert Follows(operations, run, i);
      }
      RunKeepsInv(operations, initial, before);
      assert Follows(operations, run, |run| - 1);
      var move :| Step(operations, run[|run| - 2], move, run[|run| - 1]);
      StepKeepsInv(operations, initial, run[|run| - 2], move, run[|run| - 1]);
    }
  }

  /** Any set of concurrent decisions is equivalent to a serial order of them: every
      answer and refusal is the operation's own on the row the earlier decisions left,
      the final row is the one that order produces, each call has at most one point in
      it, and a call that failed without landing has none. The order respects real time. */
  lemma Linearizable<S(!new), A(!new)>(operations: nat -> Operation<S, A>, initial: Option<S>, run: seq<State<S, A>>)
    requires IsRun(operations, initial, run)
    ensures var s := run[|run| - 1];
            exists order :: Serializes(operations, initial, s, order) && RespectsRealTime(s)
  {
    RunKeepsInv(operations, initial, run);
    var s := run[|run| - 1];
    assert Serializes(operations, initial, s, s.order);
    forall a, b | 0 <= a < |s.calls| && 0 <= b < |s.calls| && Precedes(s, a, b)
      ensures s.calls[a].outcome.at < s.calls[b].outcome.at
    {
      assert Explained(operations, initial, s.order, a, s.calls[a]);
      assert Explained(operations, initial, s.order, b, s.calls[b]);
    }
  }

  /** Both calls were answered, and `a` had returned before `b` started. */
  predicate Precedes<S, A>(s: State<S, A>, a: nat, b: nat)
    requires a < |s.calls| && b < |s.calls|
  {
    && s.calls[a].Returned? && !s.calls[a].outcome.Failure?
    && s.calls[b].Returned? && !s.calls[b].outcome.Failure?
    && s.calls[a].until <= s.calls[b].since
  }

  predicate RespectsRealTime<S, A>(s: State<S, A>)
  {
    forall a, b :: 0 <= a < |s.calls| && 0 <= b < |s.calls| && Precedes(s, a, b) ==>
                     s.calls[a].outcome.at < s.calls[b].outcome.at
  }

  // ------------------------------------------------- what the storage profile is for

  /** A provider whose write check covers only a second read of the row, taken after the
      operation decided on the first one. */
  ghost predicate WeakNext<S(!new), A(!new)>(operations: nat -> Operation<S, A>, s: State<S, A>, s': State<S, A>)
  {
    || Next(operations, s, s')
    || exists call :: Restages(s, call, s')
  }

  predicate Restages<S(==), A(==)>(s: State<S, A>, call: nat, s': State<S, A>)
  {
    && call < |s.calls| && s.calls[call].Pending?
    && s' == s.(calls := s.calls[call := s.calls[call].(seen := s.revision)])
  }

  function Increment(call: nat): (operation: Operation<nat, nat>)
  {
    (now: int, row: Option<nat>) =>
      var next := if row.Some? then row.value + 1 else 1;
      Decided(next, Put(next))
  }

  lemma {:induction false} IncrementsCount(order: seq<Point>)
    ensures Replay(Increment, None, order) == if order == [] then None else Some(|order|)
  {
    if order != [] {
      IncrementsCount(order[..|order| - 1]);
    }
  }

  /** Somewhere in `order` the call decides, and answers `value`. */
  ghost predicate Gives<S(!new), A(!new)>(operations: nat -> Operation<S, A>, initial: Option<S>, order: seq<Point>, call: nat, value: A)
  {
    exists at :: 0 <= at < |order| && order[at].call == call
                 && DecisionAt(operations, initial, order, at).Decided?
                 && DecisionAt(operations, initial, order, at).answer == value
  }

  /** Every answer of a serial execution is given somewhere in it. */
  lemma SerialGives<S(!new), A(!new)>(operations: nat -> Operation<S, A>, initial: Option<S>, s: State<S, A>, order: seq<Point>, call: nat)
    requires Serializes(operations, initial, s, order) && call < |s.calls|
    requires s.calls[call].Returned? && s.calls[call].outcome.Answer?
    ensures Gives(operations, initial, order, call, s.calls[call].outcome.value)
  {
    assert Explained(operations, initial, order, call, s.calls[call]);
    var at := s.calls[call].outcome.at;
    assert order[at].call == call;
  }

  /** On such a provider two increments can both answer 1, which no serial order does,
      wherever it puts them: the `serializable` profile the coordination and workload
      kinds declare is needed. */
  lemma SplitReadIsNotSerializable(a: nat, b: nat, order: seq<Point>)
    requires a != b
    ensures !(Gives(Increment, None, order, a, 1) && Gives(Increment, None, order, b, 1))
  {
    forall at | 0 <= at < |order| && DecisionAt(Increment, None, order, at).answer == 1 ensures at == 0 {
      IncrementsCount(order[..at]);
    }
  }

  /** Two increments, racing: both read no row, the first commits, the second is let
      through. */
  function Raced(i: nat): (s: State<nat, nat>)
    requires i < 8
  {
    var racing := Pending(0, 0, 0, None, 0);
    var first := Returned(0, 1, Answer(0, 1));
    if i == 0 then State(None, 0, 0, [], [])
    else if i == 1 then State(None, 0, 0, [Fresh(0, 0)], [])
    else if i == 2 then State(None, 0, 0, [Fresh(0, 0), Fresh(0, 0)], [])
    else if i == 3 then State(None, 0, 0, [racing, Fresh(0, 0)], [])
    else if i == 4 then State(None, 0, 0, [racing, racing], [])
    else if i == 5 then State(Some(1), 1, 0, [first, racing], [Point(0, 0)])
    else if i == 6 then State(Some(1), 1, 0, [first, racing.(seen := 1)], [Point(0, 0)])
    else State(Some(1), 2, 0, [first, Returned(0, 2, Answer(1, 1))], [Point(0, 0), Point(1, 0)])
  }

  lemma BothRead(i: nat)
    requires i < 4
    ensures WeakNext(Increment, Raced(i), Raced(i + 1))
  {
    if i < 2 {
      assert Step(Increment, Raced(i), Begin, Raced(i + 1));
    } else {
      assert Step(Increment, Raced(i), Read(i - 2, false), Raced(i + 1));
    }
  }

  lemma SplitReadReachesIt(i: nat)
    requires i < 7
    ensures WeakNext(Increment, Raced(i), Raced(i + 1))
    ensures var s := Raced(7);
            && s.calls[0].Returned? && s.calls[0].outcome == Answer(0, 1)
            && s.calls[1].Returned? && s.calls[1].outcome == Answer(1, 1)
  {
    if i < 4 {
      BothRead(i);
    } else if i == 4 {
      assert Step(Increment, Raced(4), Commit(0, true), Raced(5));
    } else if i == 5 {
      assert Restages(Raced(5), 1, Raced(6));
    } else {
      assert Step(Increment, Raced(6), Commit(1, true), Raced(7));
    }
  }
}
