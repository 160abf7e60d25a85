/** VMM operation records: their states, how a call's copy moves between them, and the
    service's cancel and finish. */
module Operations {
  import opened Wrappers

  datatype OperationState = Pending | Running | Succeeded | Failed | Cancelled

  datatype Operation = Operation(
    id: nat,
    kind: string,
    generation: Option<nat>,
    request: Option<string>,
    state: OperationState,
    result: Option<string>,
    error: Option<string>
  )

  /** What an attempt at an operation came to. */
  datatype Outcome = Done(result: Option<string>) | Refused(error: string)

  predicate Terminal(state: OperationState)
  {
    state == Succeeded || state.Failed? || state == Cancelled
  }

  predicate MayBecome(from: OperationState, to: OperationState)
  {
    match from
    case Pending => to == Running || to == Cancelled || to.Failed?
    case Running => Terminal(to)
    case _ => false
  }

  function Transitioned(o: Operation, state: OperationState): (next: Operation)
  {
    o.(state := state)
  }

  function Finished(o: Operation, outcome: Outcome): (next: Operation)
  {
    match outcome
    case Done(result) => Transitioned(o, Succeeded).(result := result)
    case Refused(error) => Transitioned(o, OperationState.Failed).(error := Some(error))
  }

  /** `o` is `copy` as an outcome leaves it: succeeded with that very result, or failed
      with that very error, and otherwise the same. */
  predicate Reports(outcome: Outcome, copy: Operation, o: Operation)
  {
    && o.id == copy.id && o.kind == copy.kind && o.generation == copy.generation && o.request == copy.request
    && match outcome
       case Done(result) => o.state == Succeeded && o.result == result && o.error == copy.error
       case Refused(error) => o.state.Failed? && o.error == Some(error) && o.result == copy.result
  }

  lemma FinishedReports(copy: Operation, outcome: Outcome)
    ensures Reports(outcome, copy, Finished(copy, outcome))
  {
  }

  // ---------------------------------------------------------------- cancel and finish

  const CAS_ATTEMPTS: nat := 5

  /** How many changes an operation can still go through. */
  function Left(state: OperationState): (n: nat)
  {
    match state case Pending => 2 case Running => 1 case _ => 0
  }

  /** Rival writers move the record along its states, one legal change at a time. */
  ghost predicate Evolves(from: OperationState, rivals: seq<Operation>)
    decreases |rivals|
  {
    rivals == [] || (MayBecome(from, rivals[0].state) && Evolves(rivals[0].state, rivals[1..]))
  }

  lemma {:induction false} EvolvingUsesUp(from: OperationState, rivals: seq<Operation>)
    requires Evolves(from, rivals)
    ensures rivals != [] ==> Left(rivals[|rivals| - 1].state) + |rivals| <= Left(from)
    decreases |rivals|
  {
    if |rivals| > 1 {
      EvolvingUsesUp(rivals[0].state, rivals[1..]);
    }
  }

  function AfterRivals(o: Operation, rivals: seq<Operation>): (next: Operation)
  {
    if rivals == [] then o else rivals[|rivals| - 1]
  }

  /** The record once the rivals of each attempt have committed. */
  function AfterBatches(o: Operation, attempts: seq<seq<Operation>>): (next: Operation)
  {
    if attempts == [] then o
    else AfterRivals(AfterBatches(o, attempts[..|attempts| - 1]), attempts[|attempts| - 1])
  }

  ghost predicate AllEvolve(o: Operation, attempts: seq<seq<Operation>>)
  {
    forall k :: 0 <= k < |attempts| ==> Evolves(AfterBatches(o, attempts[..k]).state, attempts[k])
  }

  class Row {
    var stored: Operation

    /** Replace the record if its state is still `expected`. */
    method Replace(next: Operation, expected: OperationState) returns (replaced: bool)
      modifies this
      ensures replaced == (old(stored).state == expected)
      ensures stored == if replaced then next else old(stored)
    {
      replaced := stored.state == expected;
      if replaced {
        stored := next;
      }
    }

    /** Cancel whatever is there, reading again after every lost race. The call cancels
        the record of an attempt nobody interfered with, or finds it finished; an
        operation has too few states left for five lost races, so there is no third
        ending. */
    method Cancel(attempts: seq<seq<Operation>>) returns (answer: Option<Operation>, ghost attempt: nat)
      requires |attempts| == CAS_ATTEMPTS && AllEvolve(stored, attempts)
      modifies this
      ensures attempt < CAS_ATTEMPTS
      ensures var onto := AfterBatches(old(stored), attempts[..attempt]);
              if answer.Some? then
                && !Terminal(onto.state) && attempts[attempt] == []
                && answer.value == onto.(state := Cancelled) && stored == answer.value
              else
                && Terminal(onto.state)
                && stored == AfterBatches(old(stored), attempts[..attempt + 1])
    {
      hide Evolves;
      attempt := 0;
      for i := 0 to CAS_ATTEMPTS
        invariant stored == AfterBatches(old(stored), attempts[..i])
        invariant Left(stored.state) + i <= 2
      {
        attempt := i;
        assert attempts[..i + 1][..i] == attempts[..i];
        EvolvingUsesUp(stored.state, attempts[i]);
        var read := stored;
        stored := AfterRivals(stored, attempts[i]);
        if !MayBecome(read.state, Cancelled) {
          return None, attempt;
        }
        var replaced := Replace(Transitioned(read, Cancelled), read.state);
        if replaced {
          return Some(Transitioned(read, Cancelled)), attempt;
        }
      }
      assert false;
      answer := None;
    }

    /** Finish a running operation from the caller's copy. The result is stored only if
        the operation is still running; otherwise what stands is kept and answered. */
    method Finish(copy: Operation, outcome: Outcome, rivals: seq<Operation>) returns (answer: Operation)
      requires copy.state == Running && stored == copy && Evolves(copy.state, rivals)
      modifies this
      ensures answer == stored
      ensures if rivals == [] then Reports(outcome, copy, stored) else stored == rivals[|rivals| - 1]
      ensures Terminal(stored.state)
    {
      EvolvingUsesUp(copy.state, rivals);
      stored := AfterRivals(stored, rivals);
      var replaced := Replace(Finished(copy, outcome), Running);
      answer := stored;
    }
  }
}
