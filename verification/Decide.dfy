/** `AutoCommit.decide`: an operation reads one row, decides, and commits only if nobody
    changed the row meanwhile. Otherwise it starts over from a new read, up to a limit.

    This is the retry loop itself, run against arbitrary interference. */
module Decide {
  import opened Wrappers

  const MAX_CAS_ATTEMPTS: nat := 8

  /** What an operation writes: nothing, or a new value for its row. */
  datatype Write<+S> = Keep | Put(row: S)

  datatype Decision<+S, +A> =
    | Refused(error: PortError)
    | Decided(answer: A, write: Write<S>)

  /** An operation decides on the provider's clock and the row as it reads it. */
  type Operation<!S, +A> = (int, Option<S>) -> Decision<S, A>

  function Apply<S, A>(decision: Decision<S, A>, row: Option<S>): (next: Option<S>)
  {
    match decision
    case Decided(_, Put(written)) => Some(written)
    case _ => row
  }

  // ---------------------------------------------------------------- the retry loop

  datatype CommitFault =
    | Acknowledged
    | Lost(error: PortError)  // not applied, and reported as an error
    | Unacknowledged          // applied, but reported as a failure

  /** Everything outside this process that shapes one attempt. */
  datatype Attempt<+S> = Attempt(
    unreachable: Option<PortError>,     // beginning the transaction fails
    now: int,
    operationFault: Option<PortError>,  // the operation itself fails in storage
    rivals: seq<S>,                     // rows other writers commit before this commit
    commit: CommitFault
  )

  function AfterRivals<S>(row: Option<S>, rivals: seq<S>): (next: Option<S>)
  {
    if rivals == [] then row else Some(rivals[|rivals| - 1])
  }

  /** The row once every attempt in `attempts` has seen its rivals commit. */
  function AfterAttempts<S>(row: Option<S>, attempts: seq<Attempt<S>>): (next: Option<S>)
  {
    if attempts == [] then row
    else AfterRivals(AfterAttempts(row, attempts[..|attempts| - 1]), attempts[|attempts| - 1].rivals)
  }

  /** What one call did: how many of its own commits landed, the attempt that ended it,
      and the row that attempt read. */
  datatype Trace<+S> = Trace(landed: nat, attempt: nat, onto: Option<S>)

  class Row<S(==)> {
    var value: Option<S>
    var revision: nat

    constructor (initial: Option<S>)
      ensures value == initial && revision == 0
    {
      value := initial;
      revision := 0;
    }

    method Store(next: S)
      modifies this
      ensures value == Some(next) && revision == old(revision) + 1
    {
      value := Some(next);
      revision := revision + 1;
    }

    method Interfere(rivals: seq<S>)
      modifies this
      ensures value == AfterRivals(old(value), rivals)
      ensures revision == old(revision) + |rivals|
    {
      for i := 0 to |rivals|
        invariant value == AfterRivals(old(value), rivals[..i])
        invariant revision == old(revision) + i
      {
        Store(rivals[i]);
        assert rivals[..i + 1][i] == rivals[i];
      }
      assert rivals[..|rivals|] == rivals;
    }

    /** One decision against a row others write to. At most one of the call's own
        commits lands. A value answered is the operation's answer on exactly the row it
        was committed onto, with no rival in between; a refusal, an exhausted retry, or
        a commit that did not land leaves the row as the rivals left it. */
    method Decide<A>(operation: Operation<S, A>, attempts: seq<Attempt<S>>)
      returns (answer: Result<A, PortError>, ghost trace: Trace<S>)
      requires |attempts| == MAX_CAS_ATTEMPTS
      modifies this
      ensures trace.landed <= 1 && trace.attempt <= MAX_CAS_ATTEMPTS
      ensures answer.Ok? ==>
                && trace.attempt < MAX_CAS_ATTEMPTS
                && trace.onto == AfterAttempts(old(value), attempts[..trace.attempt])
                && var decision := operation(attempts[trace.attempt].now, trace.onto);
                && decision.Decided? && decision.answer == answer.value
                && (decision.write.Put? ==>
                      && trace.landed == 1
                      && attempts[trace.attempt].rivals == []
                      && value == Some(decision.write.row))
                && (decision.write.Keep? ==>
                      && trace.landed == 0
                      && value == AfterAttempts(old(value), attempts[..trace.attempt + 1]))
      ensures answer.Err? && trace.landed == 0 ==>
                value == AfterAttempts(old(value),
                                       attempts[..if trace.attempt < MAX_CAS_ATTEMPTS
                                                  then trace.attempt + 1 else MAX_CAS_ATTEMPTS])
      ensures answer.Err? && trace.landed == 1 ==>
                && trace.attempt < MAX_CAS_ATTEMPTS
                && attempts[trace.attempt].commit.Unacknowledged?
                && value == Apply(operation(attempts[trace.attempt].now, trace.onto), trace.onto)
    {
      trace := Trace(0, 0, value);
      for i := 0 to MAX_CAS_ATTEMPTS
        invariant trace.landed == 0
        invariant value == AfterAttempts(old(value), attempts[..i])
      {
        var attempt := attempts[i];
        trace := Trace(0, i, value);
        assert attempts[..i + 1][..i] == attempts[..i];
        if attempt.unreachable.Some? {
          Interfere(attempt.rivals);
          return Err(attempt.unreachable.value), trace;
        }
        var read, seen := value, revision;
        if attempt.operationFault.Some? {
          Interfere(attempt.rivals);
          if attempt.operationFault.value == Conflict {
            continue;
          }
          return Err(attempt.operationFault.value), trace;
        }
        var decision := operation(attempt.now, read);
        Interfere(attempt.rivals);
        if decision.Refused? {
          return Err(decision.error), trace;
        }
        if decision.write.Put? && revision != seen {
          continue;
        }
        if attempt.commit.Lost? {
          if attempt.commit.error == Conflict {
            continue;
          }
          return Err(attempt.commit.error), trace;
        }
        if decision.write.Put? {
          Store(decision.write.row);
          trace := trace.(landed := 1);
        }
        if attempt.commit.Unacknowledged? {
          return Err(Failed), trace;
        }
        return Ok(decision.answer), trace;
      }
      trace := Trace(0, MAX_CAS_ATTEMPTS, value);
      assert attempts[..MAX_CAS_ATTEMPTS] == attempts;
      answer := Err(Conflict);
    }
  }
}
