/** One VMM operation record with any number of executors and cancellers on it at once.

    The store replaces a record only if its state is still the one the caller names; it
    does not compare the rest. An executor claims a pending operation, works on it for as
    long as it likes, and finishes it from its own copy; a canceller cancels whatever it
    read. Commits may land without being acknowledged, and calls may stop anywhere. */
module OperationProtocol {
  import opened Wrappers
  import opened Operations

  datatype Phase =
    | Claiming(copy: Operation)            // read as pending, about to claim it
    | Working(copy: Operation)             // running, by this call's copy
    | Finishing(copy: Operation)           // finished, by this call's copy
    | Cancelling(copy: Operation, expected: OperationState)
    | Rereading                            // lost a race, about to read what stands
    | Answered(operation: Operation)

  datatype System = System(
    history: seq<Operation>,               // every record stored; the last one stands
    calls: map<nat, Phase>,
    outcomes: set<Outcome>                 // what executors came to
  )

  datatype Move =
    | Execute(id: nat)
    | Claim(id: nat, acknowledged: bool)
    | Rest(id: nat)
    | Finish(id: nat, outcome: Outcome)
    | SaveFinish(id: nat, acknowledged: bool)
    | Cancel(id: nat)
    | SaveCancel(id: nat, acknowledged: bool)
    | Lose(id: nat)
    | Reread(id: nat)
    | Drop(id: nat)

  function Stands(s: System): (operation: Operation)
    requires s.history != []
  {
    s.history[|s.history| - 1]
  }

  /** Replace the record by the call's copy, provided it still stands in `expected`. */
  ghost predicate Replaces(s: System, id: nat, copy: Operation, expected: OperationState, next: Phase, acknowledged: bool, s': System)
  {
    && s.history != [] && Stands(s).state == expected
    && s' == s.(history := s.history + [copy],
                calls := if acknowledged then s.calls[id := next] else s.calls - {id})
  }

  ghost predicate Moves(s: System, move: Move, s': System)
  {
    match move
    case Execute(id) =>
      && id !in s.calls && s.history != []
      && var read := Stands(s);
      && s' == s.(calls := s.calls[id := if read.state == Pending then Claiming(Transitioned(read, Running))
                                         else if read.state == Running then Working(read)
                                         else Answered(read)])
    case Claim(id, acknowledged) =>
      && id in s.calls && s.calls[id].Claiming?
      && Replaces(s, id, s.calls[id].copy, Pending, Working(s.calls[id].copy), acknowledged, s')
    // The workload has not converged yet: the operation is left running.
    case Rest(id) =>
      && id in s.calls && s.calls[id].Working?
      && s' == s.(calls := s.calls[id := Answered(s.calls[id].copy)])
    case Finish(id, outcome) =>
      && id in s.calls && s.calls[id].Working?
      && s' == s.(calls := s.calls[id := Finishing(Finished(s.calls[id].copy, outcome))],
                  outcomes := s.outcomes + {outcome})
    case SaveFinish(id, acknowledged) =>
      && id in s.calls && s.calls[id].Finishing?
      && Replaces(s, id, s.calls[id].copy, Running, Answered(s.calls[id].copy), acknowledged, s')
    case Cancel(id) =>
      && id !in s.calls && s.history != [] && MayBecome(Stands(s).state, Cancelled)
      && s' == s.(calls := s.calls[id := Cancelling(Transitioned(Stands(s), Cancelled), Stands(s).state)])
    case SaveCancel(id, acknowledged) =>
      && id in s.calls && s.calls[id].Cancelling?
      && Replaces(s, id, s.calls[id].copy, s.calls[id].expected, Answered(s.calls[id].copy), acknowledged, s')
    // A claim or a finish that lost its race reads what stands; a canceller tries again.
    case Lose(id) =>
      && id in s.calls && s.history != []
      && (s.calls[id].Claiming? || s.calls[id].Finishing?)
      && Stands(s).state != (if s.calls[id].Claiming? then Pending else Running)
      && s' == s.(calls := s.calls[id := Rereading])
    case Reread(id) =>
      && id in s.calls && s.calls[id].Rereading? && s.history != []
      && s' == s.(calls := s.calls[id := Answered(Stands(s))])
    case Drop(id) => s' == s.(calls := s.calls - {id})
  }

  ghost predicate Next(s: System, s': System)
  {
    exists move :: Moves(s, move, s')
  }

  ghost predicate Init(s: System)
  {
    && |s.history| == 1 && s.calls == map[] && s.outcomes == {}
    && s.history[0].state == Pending && s.history[0].result == None && s.history[0].error == None
  }

  ghost predicate IsRun(run: seq<System>)
  {
    && run != [] && Init(run[0])
    && forall i :: Follows(run, i)
  }

  ghost predicate Follows(run: seq<System>, i: int)
  {
    0 < i < |run| ==> Next(run[i - 1], run[i])
  }

  // ---------------------------------------------------------------- the invariant

  /** The same operation in another state. */
  predicate Same(a: Operation, b: Operation)
  {
    a.(state := b.state, result := b.result, error := b.error) == b
  }

  /** A result is stored only with success and an error only with failure. */
  predicate Settled(o: Operation)
  {
    && (o.result.Some? ==> o.state == Succeeded)
    && (o.error.Some? <==> o.state.Failed?)
  }

  /** The whole life of an operation: claimed, then finished or cancelled once; or
      cancelled before it was claimed. Nothing follows a terminal state. */
  predicate Life(history: seq<Operation>)
  {
    && 1 <= |history| <= 3
    && history[0].state == Pending
    && (|history| == 2 ==> history[1].state == Running || history[1].state == Cancelled)
    && (|history| == 3 ==> history[1].state == Running && Terminal(history[2].state))
    && (forall i :: 0 <= i < |history| ==> Same(history[0], history[i]) && Settled(history[i]))
  }

  predicate PhaseInv(history: seq<Operation>, phase: Phase)
    requires history != []
  {
    match phase
    case Claiming(copy) => Same(history[0], copy) && Settled(copy) && copy.state == Running
    case Working(copy) => copy in history && copy.state == Running
    case Finishing(copy) =>
      && Same(history[0], copy) && Settled(copy)
      && (copy.state == Succeeded || copy.state.Failed?)
      && |history| >= 2 && history[1].state == Running
    case Cancelling(copy, expected) =>
      && Same(history[0], copy) && Settled(copy) && copy.state == Cancelled
      && (expected == Pending || expected == Running)
    case Rereading => |history| >= 2
    case Answered(operation) => operation in history
  }

  ghost predicate Inv(s: System)
  {
    && Life(s.history)
    && forall id :: id in s.calls ==> PhaseInv(s.history, s.calls[id])
  }

  lemma StoreKeepsPhase(history: seq<Operation>, next: Operation, phase: Phase)
    requires history != [] && PhaseInv(history, phase)
    ensures PhaseInv(history + [next], phase)
  {
  }

  /** A replacement the store lets through continues the operation's life: naming the
      state is as good as naming the whole record. */
  lemma StoreKeepsInv(s: System, id: nat, copy: Operation, expected: OperationState, next: Phase, acknowledged: bool, s': System)
    requires Inv(s) && Replaces(s, id, copy, expected, next, acknowledged, s')
    requires Same(s.history[0], copy) && Settled(copy)
    requires match expected
             case Pending => copy.state == Running || copy.state == Cancelled
             case Running => Terminal(copy.state)
             case _ => false
    requires acknowledged ==> PhaseInv(s'.history, next)
    ensures Inv(s')
  {
    forall i | i in s'.calls ensures PhaseInv(s'.history, s'.calls[i]) {
      if i != id {
        StoreKeepsPhase(s.history, copy, s.calls[i]);
      }
    }
  }

  lemma StepKeepsInv(s: System, move: Move, s': System)
    requires Inv(s) && Moves(s, move, s')
    ensures Inv(s') && s.history <= s'.history
  {
    match move
    case Claim(id, acknowledged) =>
      assert PhaseInv(s.history, s.calls[id]);
      StoreKeepsInv(s, id, s.calls[id].copy, Pending, Working(s.calls[id].copy), acknowledged, s');
    case SaveFinish(id, acknowledged) =>
      assert PhaseInv(s.history, s.calls[id]);
      StoreKeepsInv(s, id, s.calls[id].copy, Running, Answered(s.calls[id].copy), acknowledged, s');
    case SaveCancel(id, acknowledged) =>
      assert PhaseInv(s.history, s.calls[id]);
      StoreKeepsInv(s, id, s.calls[id].copy, s.calls[id].expected, Answered(s.calls[id].copy), acknowledged, s');
    case _ => QuietStepKeepsInv(s, move, s');
  }

  lemma QuietStepKeepsInv(s: System, move: Move, s': System)
    requires Inv(s) && Moves(s, move, s') && !(move.Claim? || move.SaveFinish? || move.SaveCancel?)
    ensures Inv(s') && s'.history == s.history
  {
    if move.id in s.calls {
      assert PhaseInv(s.history, s.calls[move.id]);
    }
  }

  // ---------------------------------------------------------------- where results come from

  /** Some executor came to this: the operation `first` was, with that outcome. */
  ghost predicate Reported(first: Operation, outcomes: set<Outcome>, o: Operation)
  {
    exists outcome :: outcome in outcomes && Reports(outcome, first, o)
  }

  /** Whatever is finished, or about to be, holds what an executor came to. */
  ghost predicate OutcomesInv(s: System)
  {
    && s.history != []
    && (forall k :: 0 <= k < |s.history| && (s.history[k].state == Succeeded || s.history[k].state.Failed?) ==>
          Reported(s.history[0], s.outcomes, s.history[k]))
    && forall id :: id in s.calls && s.calls[id].Finishing? ==> Reported(s.history[0], s.outcomes, s.calls[id].copy)
  }

  lemma StepKeepsOutcomes(s: System, move: Move, s': System)
    requires Inv(s) && OutcomesInv(s) && Moves(s, move, s')
    ensures OutcomesInv(s')
  {
    hide Reports;
    StepKeepsInv(s, move, s');
    assert move.id in s.calls ==> PhaseInv(s.history, s.calls[move.id]);
    forall o | Reported(s.history[0], s.outcomes, o) ensures Reported(s'.history[0], s'.outcomes, o) {
      var outcome :| outcome in s.outcomes && Reports(outcome, s.history[0], o);
      assert outcome in s'.outcomes;
    }
    if move.Finish? {
      FinishReports(s, move.id, move.outcome, s');
    }
  }

  lemma FinishReports(s: System, id: nat, outcome: Outcome, s': System)
    requires Inv(s) && Moves(s, Finish(id, outcome), s')
    ensures s'.calls[id].Finishing? && Reported(s'.history[0], s'.outcomes, s'.calls[id].copy)
  {
    var copy := s.calls[id].copy;
    assert PhaseInv(s.history, s.calls[id]);
    FinishedReports(copy, outcome);
    assert Reports(outcome, s.history[0], Finished(copy, outcome));
  }

  // ---------------------------------------------------------------- whole runs

  lemma {:induction false} RunKeepsInv(run: seq<System>, i: nat)
    requires IsRun(run) && i < |run|
    ensures Inv(run[i]) && OutcomesInv(run[i])
  {
    hide Moves;
    if i > 0 {
      RunKeepsInv(run, i - 1);
      hide Inv, OutcomesInv;
      assert Follows(run, i);
      var move :| Moves(run[i - 1], move, run[i]);
      StepKeepsInv(run[i - 1], move, run[i]);
      StepKeepsOutcomes(run[i - 1], move, run[i]);
    }
  }

  lemma {:induction false} HistoryOnlyGrows(run: seq<System>, i: nat, j: nat)
    requires IsRun(run) && i <= j < |run|
    ensures run[i].history <= run[j].history
    decreases j - i
  {
    hide Moves, Inv;
    if i < j {
      HistoryOnlyGrows(run, i, j - 1);
      RunKeepsInv(run, j - 1);
      assert Follows(run, j);
      var move :| Moves(run[j - 1], move, run[j]);
      StepKeepsInv(run[j - 1], move, run[j]);
    }
  }

  /** Operation finality. In every run: the stored record passes through at most one
      terminal state and is never touched again, so no late result replaces a
      cancellation; it stays the same operation throughout; it holds a result only once it
      succeeded and an error exactly when it failed; and that result or error is the one
      some executor came to. */
  lemma Finality(run: seq<System>, i: nat, j: nat)
    requires IsRun(run) && i <= j < |run|
    ensures run[i].history != [] && run[j].history != []
    ensures Terminal(Stands(run[i]).state) ==> Stands(run[j]) == Stands(run[i]) && run[j].history == run[i].history
    ensures Life(run[j].history) && run[i].history <= run[j].history
    ensures var o := Stands(run[j]);
            o.state == Succeeded || o.state.Failed? ==> Reported(run[j].history[0], run[j].outcomes, o)
  {
    RunKeepsInv(run, i);
    RunKeepsInv(run, j);
    HistoryOnlyGrows(run, i, j);
  }

  /** What callers are told is true: every record answered was stored, and one answered
      in a terminal state stands from then on. In particular an executor that finishes
      after a cancellation is answered with the cancelled record. */
  lemma AnswersStand(run: seq<System>, i: nat, j: nat, id: nat)
    requires IsRun(run) && i <= j < |run|
    requires id in run[i].calls && run[i].calls[id].Answered?
    ensures var told := run[i].calls[id].operation;
            && told in run[i].history
            && (Terminal(told.state) ==> run[j].history != [] && Stands(run[j]) == told)
  {
    RunKeepsInv(run, i);
    Finality(run, i, j);
    assert PhaseInv(run[i].history, run[i].calls[id]);
  }
}
