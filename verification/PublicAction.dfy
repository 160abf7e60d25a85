/** Public mutations under an idempotency key: the claim table, the use case that wraps an
    effect in a claim, and the two framings it relies on. */
module PublicAction {
  import opened Wrappers
  import opened Collections

  type Bytes = seq<int>
  type Digest = string

  datatype Entry = Entry(digest: Digest, response: Option<Bytes>, completed: bool)

  datatype Classified = Claimed | InProgress | Mismatch | Completed(response: Bytes)

  /** How a claim that is already there answers a request. */
  function Classify(claim: Entry, digest: Digest): (answer: Classified)
  {
    if claim.digest != digest then Mismatch
    else if claim.completed then Completed(if claim.response.Some? then claim.response.value else [])
    else InProgress
  }

  // ---------------------------------------------------------------- framings

  const UNIT_SEPARATOR: char := 31 as char

  /** The row key of a subject's idempotency key. */
  function ClaimKey(subject: string, key: string): (row: string)
  {
    subject + [UNIT_SEPARATOR] + key
  }

  /** What the request digest covers: route, action and body, each part closed by NUL. */
  function Framed(route: seq<int>, action: seq<int>, body: seq<int>): (buffer: seq<int>)
  {
    route + [0] + action + [0] + body
  }

  /** Different subjects and keys never share a row: subjects are written as a kind and an
      identifier, without separators. */
  lemma ClaimKeysSeparate(s1: string, k1: string, s2: string, k2: string)
    requires UNIT_SEPARATOR !in s1 && UNIT_SEPARATOR !in s2
    ensures ClaimKey(s1, k1) == ClaimKey(s2, k2) <==> s1 == s2 && k1 == k2
  {
    if ClaimKey(s1, k1) == ClaimKey(s2, k2) {
      SplitAtSeparator(UNIT_SEPARATOR, s1, k1, s2, k2);
    }
  }

  /** The digested bytes determine the request: the body may hold anything. */
  lemma FramingSeparates(r1: seq<int>, a1: seq<int>, b1: seq<int>, r2: seq<int>, a2: seq<int>, b2: seq<int>)
    requires 0 !in r1 && 0 !in a1 && 0 !in r2 && 0 !in a2
    ensures Framed(r1, a1, b1) == Framed(r2, a2, b2) <==> r1 == r2 && a1 == a2 && b1 == b2
  {
    if Framed(r1, a1, b1) == Framed(r2, a2, b2) {
      assert Framed(r1, a1, b1) == r1 + [0] + (a1 + [0] + b1);
      assert Framed(r2, a2, b2) == r2 + [0] + (a2 + [0] + b2);
      SplitAtSeparator(0, r1, a1 + [0] + b1, r2, a2 + [0] + b2);
      SplitAtSeparator(0, a1, b1, a2, b2);
    }
  }

  // ---------------------------------------------------------------- the table and the use case

  datatype Failure =
    | Busy                    // the first request is still in progress
    | DifferentRequest        // the stored claim has another digest
    | Unavailable

  class Idempotency {
    var rows: map<string, Entry>

    /** Take the claim if nobody has it; otherwise say how it stands. */
    method Claim(subject: string, key: string, digest: Digest) returns (answer: Classified)
      modifies this
      ensures var row := ClaimKey(subject, key);
              if row !in old(rows) then
                answer == Claimed && rows == old(rows)[row := Entry(digest, None, false)]
              else
                && rows == old(rows) && answer != Claimed
                && var claim := old(rows)[row];
                && (answer == Mismatch <==> claim.digest != digest)
                && (answer == InProgress <==> claim.digest == digest && !claim.completed)
                && (answer.Completed? ==> answer.response == if claim.response.Some? then claim.response.value else [])
    {
      var row := ClaimKey(subject, key);
      if row !in rows {
        rows := rows[row := Entry(digest, None, false)];
        return Claimed;
      }
      answer := Classify(rows[row], digest);
    }

    method Complete(subject: string, key: string, response: Bytes) returns (found: bool)
      modifies this
      ensures var row := ClaimKey(subject, key);
              && found == (row in old(rows))
              && rows == if found then old(rows)[row := old(rows)[row].(response := Some(response), completed := true)]
                         else old(rows)
    {
      var row := ClaimKey(subject, key);
      found := row in rows;
      if found {
        rows := rows[row := rows[row].(response := Some(response), completed := true)];
      }
    }

    method Release(subject: string, key: string)
      modifies this
      ensures var row := ClaimKey(subject, key);
              rows == if row in old(rows) && !old(rows)[row].completed then old(rows) - {row} else old(rows)
    {
      var row := ClaimKey(subject, key);
      if row in rows && !rows[row].completed {
        rows := rows - {row};
      }
    }

    /** Run an effect under its claim. `effect` is what the executor would answer; the
        effect runs only if the claim was free. A success is remembered and answered from
        then on, a failure leaves the table as if the request had never been made, and
        nobody else's row is touched. */
    method ExecuteMutation(subject: string, key: string, digest: Digest, effect: Result<Bytes, Failure>)
      returns (answer: Result<Bytes, Failure>, ran: bool)
      modifies this
      ensures ran == (ClaimKey(subject, key) !in old(rows))
      ensures forall row :: row != ClaimKey(subject, key) ==>
                (row in rows <==> row in old(rows)) && (row in rows ==> rows[row] == old(rows)[row])
      ensures ran && effect.Ok? ==>
                && answer == Ok(effect.value)
                && ClaimKey(subject, key) in rows
                && rows[ClaimKey(subject, key)] == Entry(digest, Some(effect.value), true)
      ensures ran && effect.Err? ==> answer == Err(Failure.Unavailable) && rows == old(rows)
      ensures !ran ==>
                && rows == old(rows)
                && var seen := old(rows)[ClaimKey(subject, key)];
                && (answer.Ok? <==> seen.digest == digest && seen.completed)
                && (answer.Ok? ==> answer.value == if seen.response.Some? then seen.response.value else [])
                && (answer == Err(Busy) <==> seen.digest == digest && !seen.completed)
                && (answer == Err(DifferentRequest) <==> seen.digest != digest)
    {
      var claimed := Claim(subject, key, digest);
      ran := claimed == Claimed;
      match claimed {
        case Completed(body) => return Ok(body), ran;
        case InProgress => return Err(Busy), ran;
        case Mismatch => return Err(DifferentRequest), ran;
        case Claimed =>
      }
      match effect
      case Ok(body) =>
        var found := Complete(subject, key, body);
        answer := Ok(body);
      case Err(_) =>
        Release(subject, key);
        assert rows == old(rows);
        answer := Err(Failure.Unavailable);
    }
  }
}
