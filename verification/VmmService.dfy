/** The VMM service's own code against rival writers: desired changes and the observation
    retry loop on one workload, the paged search for a replayed operation, and the pass
    that records what a backend reports about every workload. */
module VmmService {
  import opened Wrappers
  import opened Vmm
  import Operations
  import opened Decide
  import opened ByteOrder

  type Operation = Operations.Operation

  const PAGE: nat := 200

  /** A page holds at least one item. */
  function Size(limit: nat): (size: nat)
  {
    if limit == 0 then 1 else limit
  }

  /** Rival commits raise the version, as every commit does. */
  ghost predicate Rising(record: Option<Record>, rivals: seq<Record>)
  {
    record.Some? ==> forall r :: r in rivals ==> record.value.version < r.version
  }

  /** The record once each attempt in `attempts` has seen its rivals commit. */
  function AfterBatches(record: Option<Record>, attempts: seq<seq<Record>>): (next: Option<Record>)
  {
    if attempts == [] then record
    else AfterRivals(AfterBatches(record, attempts[..|attempts| - 1]), attempts[|attempts| - 1])
  }

  ghost predicate AllRising(record: Option<Record>, attempts: seq<seq<Record>>)
  {
    forall k :: 0 <= k < |attempts| ==> Rising(AfterBatches(record, attempts[..k]), attempts[k])
  }

  predicate HasGeneration(o: Operation, generation: nat)
  {
    o.generation == Some(generation)
  }

  predicate Distinct(operations: seq<Operation>)
  {
    forall i, j :: 0 <= i < j < |operations| ==> operations[i].id != operations[j].id
  }

  /** A page after `cursor` begins at `start`: behind the operation it names, if there is
      one, and otherwise behind all of them. */
  ghost predicate Starts(start: nat, operations: seq<Operation>, cursor: Option<nat>)
  {
    && start <= |operations|
    && (cursor.None? ==> start == 0)
    && (cursor.Some? ==>
          if exists i :: 0 <= i < |operations| && operations[i].id == cursor.value
          then 0 < start && operations[start - 1].id == cursor.value
          else start == |operations|)
  }

  /** The page that begins at `start`, and the cursor to go on from if there is more. */
  ghost predicate IsPage(items: seq<Operation>, next: Option<nat>, start: nat, operations: seq<Operation>, limit: nat)
  {
    && start + |items| <= |operations| && items == operations[start..start + |items|]
    && (next.None? <==> start + |items| == |operations|)
    && (next.Some? ==> |items| == Size(limit) && next.value == operations[start + |items| - 1].id)
  }

  /** `o` is the newest operation of its generation in `operations`. */
  ghost predicate IsNewest(o: Operation, operations: seq<Operation>, generation: nat)
  {
    exists i :: 0 <= i < |operations| && operations[i] == o && HasGeneration(o, generation)
                && NoneHas(operations[..i], generation)
  }

  predicate NoneHas(operations: seq<Operation>, generation: nat)
  {
    forall i :: 0 <= i < |operations| ==> !HasGeneration(operations[i], generation)
  }

  /** The first of its generation among the items of one page. */
  function FirstOf(items: seq<Operation>, generation: nat): (found: Option<Operation>)
    ensures found.None? ==> NoneHas(items, generation)
    ensures found.Some? ==> IsNewest(found.value, items, generation)
  {
    if items == [] then None
    else if HasGeneration(items[0], generation) then
      assert NoneHas(items[..0], generation);
      Some(items[0])
    else
      var found := FirstOf(items[1..], generation);
      NewestBehind(items[..1], items[1..], generation);
      assert items == items[..1] + items[1..];
      found
  }

  /** Behind operations of other generations, the newest is the newest of all. */
  lemma NewestBehind(front: seq<Operation>, rest: seq<Operation>, generation: nat)
    requires NoneHas(front, generation)
    ensures NoneHas(rest, generation) ==> NoneHas(front + rest, generation)
    ensures forall o :: IsNewest(o, rest, generation) ==> IsNewest(o, front + rest, generation)
  {
    forall o | IsNewest(o, rest, generation) ensures IsNewest(o, front + rest, generation) {
      var i :| 0 <= i < |rest| && rest[i] == o && HasGeneration(o, generation) && NoneHas(rest[..i], generation);
      assert (front + rest)[..|front| + i] == front + rest[..i];
      assert (front + rest)[|front| + i] == o;
    }
  }

  // ---------------------------------------------------------------- searching a growing store

  /** Where an operation sorts: by the time it was created, then by its key. The time is
      read before the operation is recorded, so a new one can sort anywhere. */
  type Rank = nat -> int

  ghost predicate Ordered(rank: Rank, operations: seq<Operation>)
  {
    forall i, j :: 0 <= i < j < |operations| ==> rank(operations[j].id) < rank(operations[i].id)
  }

  ghost predicate Holds(operations: seq<Operation>, o: Operation)
  {
    exists i :: 0 <= i < |operations| && operations[i].id == o.id && operations[i].generation == o.generation
  }

  /** Operations are added and go through their states; none is removed, and none changes
      its generation. */
  ghost predicate Keeps(before: seq<Operation>, after: seq<Operation>)
  {
    forall o :: o in before ==> Holds(after, o)
  }

  /** What the pages of a search see: a store that only grows, and is `settled` at last. */
  ghost predicate Growing(rank: Rank, views: nat -> seq<Operation>, settled: nat)
  {
    && (forall k: nat :: Ordered(rank, views(k)))
    && (forall k: nat :: Keeps(views(k), views(k + 1)))
    && forall k: nat :: settled <= k ==> views(k) == views(settled)
  }

  /** `o` is recorded for the generation, and nothing recorded for it at the start is newer. */
  ghost predicate Finds(rank: Rank, o: Operation, was: seq<Operation>, now: seq<Operation>, generation: nat)
  {
    && o in now && HasGeneration(o, generation)
    && forall x :: x in was && HasGeneration(x, generation) ==> rank(x.id) <= rank(o.id)
  }

  /** What is still to be found sorts behind the cursor. */
  ghost predicate Searching(rank: Rank, was: seq<Operation>, now: seq<Operation>, cursor: Option<nat>, done: nat, generation: nat)
  {
    && Ordered(rank, now) && Keeps(was, now) && Starts(done, now, cursor)
    && (cursor.Some? ==> exists i :: 0 <= i < |now| && now[i].id == cursor.value)
    && forall o :: o in was && HasGeneration(o, generation) ==> cursor.None? || rank(o.id) < rank(cursor.value)
  }

  lemma OrderedIsDistinct(rank: Rank, operations: seq<Operation>)
    requires Ordered(rank, operations)
    ensures Distinct(operations)
  {
  }

  lemma StartsOnce(a: nat, b: nat, operations: seq<Operation>, cursor: Option<nat>)
    requires Distinct(operations) && Starts(a, operations, cursor) && Starts(b, operations, cursor)
    ensures a == b
  {
  }

  /** Every operation still to be found is on the page or behind it. */
  lemma Ahead(rank: Rank, was: seq<Operation>, now: seq<Operation>, cursor: Option<nat>, done: nat, generation: nat, o: Operation) returns (at: nat)
    requires Searching(rank, was, now, cursor, done, generation) && o in was && HasGeneration(o, generation)
    ensures done <= at < |now| && now[at].id == o.id && HasGeneration(now[at], generation)
  {
    assert Holds(now, o);
    at :| 0 <= at < |now| && now[at].id == o.id && now[at].generation == o.generation;
    if cursor.Some? {
      assert now[done - 1].id == cursor.value;
    }
  }

  /** The page holds one of the generation: nothing to be found comes before it. */
  lemma FoundOnPage(rank: Rank, was: seq<Operation>, now: seq<Operation>, cursor: Option<nat>, done: nat, generation: nat,
                    items: seq<Operation>, found: Operation)
    requires Searching(rank, was, now, cursor, done, generation)
    requires done + |items| <= |now| && items == now[done..done + |items|] && IsNewest(found, items, generation)
    ensures Finds(rank, found, was, now, generation)
  {
    SearchingOrdered(rank, was, now, cursor, done, generation);
    hide Searching;
    var i :| 0 <= i < |items| && items[i] == found && HasGeneration(found, generation) && NoneHas(items[..i], generation);
    assert now[done + i] == found;
    forall at | done <= at < done + i ensures !HasGeneration(now[at], generation) {
      assert now[at] == items[at - done] == items[..i][at - done];
    }
    forall o | o in was && HasGeneration(o, generation) ensures rank(o.id) <= rank(found.id) {
      var at := Ahead(rank, was, now, cursor, done, generation, o);
    }
  }

  /** The page holds none: what is to be found comes after it. */
  lemma NotOnPage(rank: Rank, was: seq<Operation>, now: seq<Operation>, cursor: Option<nat>, done: nat, generation: nat,
                  items: seq<Operation>, o: Operation)
    requires Searching(rank, was, now, cursor, done, generation) && o in was && HasGeneration(o, generation)
    requires done + |items| <= |now| && items == now[done..done + |items|] && NoneHas(items, generation)
    ensures done + |items| < |now| && (items != [] ==> rank(o.id) < rank(now[done + |items| - 1].id))
  {
    SearchingOrdered(rank, was, now, cursor, done, generation);
    var at := Ahead(rank, was, now, cursor, done, generation, o);
    hide Searching;
    forall k | done <= k < done + |items| ensures !HasGeneration(now[k], generation) {
      assert now[k] == items[k - done];
    }
  }

  /** Going through one page: what is found is the answer, and otherwise what is left lies
      behind the page. */
  lemma PageSearched(rank: Rank, was: seq<Operation>, now: seq<Operation>, cursor: Option<nat>, done: nat, generation: nat,
                     items: seq<Operation>, next: Option<nat>)
    requires Searching(rank, was, now, cursor, done, generation) && IsPage(items, next, done, now, PAGE)
    ensures var found := FirstOf(items, generation);
            && (found.Some? ==> Finds(rank, found.value, was, now, generation))
            && (found.None? && next.None? ==> NoneHas(was, generation))
            && (found.None? && next.Some? ==>
                  && items != [] && done + |items| <= |now| && now[done + |items| - 1].id == next.value
                  && forall o :: o in was && HasGeneration(o, generation) ==> rank(o.id) < rank(next.value))
  {
    hide FirstOf, Searching, Finds, IsNewest;
    var found := FirstOf(items, generation);
    if found.Some? {
      FoundOnPage(rank, was, now, cursor, done, generation, items, found.value);
    } else {
      forall o | o in was && HasGeneration(o, generation)
        ensures next.Some? && rank(o.id) < rank(next.value)
      {
        NotOnPage(rank, was, now, cursor, done, generation, items, o);
      }
    }
  }

  lemma SearchingOrdered(rank: Rank, was: seq<Operation>, now: seq<Operation>, cursor: Option<nat>, done: nat, generation: nat)
    requires Searching(rank, was, now, cursor, done, generation)
    ensures Ordered(rank, now) && Keeps(was, now) && Starts(done, now, cursor)
  {
  }

  /** The next page, on the store as it is by then. */
  lemma SearchOn(rank: Rank, was: seq<Operation>, now: seq<Operation>, later: seq<Operation>, cursor: nat, place: nat, generation: nat)
    returns (done: nat)
    requires Keeps(was, now) && Keeps(now, later) && Ordered(rank, later)
    requires 0 < place <= |now| && now[place - 1].id == cursor
    requires forall o :: o in was && HasGeneration(o, generation) ==> rank(o.id) < rank(cursor)
    ensures Searching(rank, was, later, Some(cursor), done, generation)
    ensures now == later ==> done == place
  {
    assert Holds(later, now[place - 1]);
    var i :| 0 <= i < |later| && later[i].id == cursor;
    done := if now == later then place else i + 1;
    forall o | o in was ensures Holds(later, o) {
      assert Holds(now, o);
      var k :| 0 <= k < |now| && now[k].id == o.id && now[k].generation == o.generation;
      assert Holds(later, now[k]);
    }
  }

  lemma SearchStarts(rank: Rank, was: seq<Operation>, generation: nat)
    requires Ordered(rank, was)
    ensures Searching(rank, was, was, None, 0, generation)
  {
  }

  // ---------------------------------------------------------------- recording an operation

  /** The operation put where it sorts. */
  function Placed(rank: Rank, operations: seq<Operation>, o: Operation): (after: seq<Operation>)
  {
    if operations == [] || rank(operations[0].id) < rank(o.id) then [o] + operations
    else [operations[0]] + Placed(rank, operations[1..], o)
  }

  lemma OrderedFrom(rank: Rank, first: Operation, rest: seq<Operation>)
    requires Ordered(rank, rest) && forall x :: x in rest ==> rank(x.id) < rank(first.id)
    ensures Ordered(rank, [first] + rest)
  {
    var all := [first] + rest;
    forall i, j | 0 <= i < j < |all| ensures rank(all[j].id) < rank(all[i].id) {
      assert all[j] == rest[j - 1] && rest[j - 1] in rest;
      assert i > 0 ==> all[i] == rest[i - 1];
    }
  }

  lemma OrderedRest(rank: Rank, operations: seq<Operation>)
    requires Ordered(rank, operations) && operations != []
    ensures Ordered(rank, operations[1..]) && forall x :: x in operations[1..] ==> rank(x.id) < rank(operations[0].id)
  {
  }

  /** The operation is added, nothing else is lost, and the store stays in order. */
  lemma {:induction false} PlacedInOrder(rank: Rank, operations: seq<Operation>, o: Operation)
    requires Ordered(rank, operations) && forall x :: x in operations ==> rank(x.id) != rank(o.id)
    ensures Ordered(rank, Placed(rank, operations, o))
    ensures forall x :: x in Placed(rank, operations, o) <==> x == o || x in operations
    decreases |operations|
  {
    if operations == [] {
      assert Placed(rank, operations, o) == [o];
    } else {
      OrderedRest(rank, operations);
      hide Ordered;
      var first, rest := operations[0], operations[1..];
      assert operations == [first] + rest;
      if rank(first.id) < rank(o.id) {
        OrderedFrom(rank, o, operations);
      } else {
        assert first in operations;
        PlacedInOrder(rank, rest, o);
        OrderedFrom(rank, first, Placed(rank, rest, o));
      }
    }
  }

  /** How a committed change ends: answered; committed without its operation being recorded;
      or recorded without the caller being told, as when the event log fails. */
  datatype Fate = Answered | Unrecorded | Unanswered

  class Service {
    var record: Option<Record>
    var operations: seq<Operation>  // newest first

    method Save(next: Record, expected: nat) returns (answer: Result<Record, Failure>)
      modifies this`record
      ensures answer.Ok? <==> old(record).Some? && old(record).value.version == expected
      ensures answer.Ok? ==> record == Some(answer.value) && answer.value == next.(version := expected + 1)
      ensures answer.Err? ==> record == old(record) && (answer.error == VersionMismatch <==> old(record).Some?)
    {
      if record.None? {
        return Err(Missing);
      }
      if record.value.version != expected {
        return Err(VersionMismatch);
      }
      record := Some(next.(version := expected + 1));
      answer := Ok(record.value);
    }

    /** The page of operations after `cursor`, newest first, and where the next begins. A
        cursor that names no operation has nothing after it. */
    method Page(cursor: Option<nat>, limit: nat) returns (items: seq<Operation>, next: Option<nat>, start: nat)
      requires Distinct(operations)
      ensures Starts(start, operations, cursor) && IsPage(items, next, start, operations, limit)
    {
      var from := 0;
      if cursor.Some? {
        while from < |operations| && operations[from].id != cursor.value
          invariant 0 <= from <= |operations|
          invariant forall i :: 0 <= i < from ==> operations[i].id != cursor.value
        {
          from := from + 1;
        }
        if from < |operations| {
          from := from + 1;
        }
      }
      start := from;
      var end := if from + Size(limit) <= |operations| then from + Size(limit) else |operations|;
      items := operations[from..end];
      next := if end < |operations| then Some(operations[end - 1].id) else None;
    }

    /** The search for the operation of a generation, page by page while others record new
        ones, which may sort anywhere. It finds one that is not older than any recorded
        for the generation at the start, and fails only if there was none. */
    method OperationFor(generation: nat, ghost rank: Rank, views: nat -> seq<Operation>, ghost settled: nat)
      returns (answer: Result<Operation, Failure>, ghost pages: nat)
      requires operations == views(0) && Growing(rank, views, settled)
      modifies this`operations
      ensures operations == views(pages)
      ensures answer.Ok? ==> Finds(rank, answer.value, old(operations), operations, generation)
      ensures answer.Err? ==> answer.error == Missing && NoneHas(old(operations), generation)
    {
      hide Searching, Finds, NoneHas, Ordered, Keeps, Starts, IsPage, FirstOf, Distinct;
      var cursor: Option<nat> := None;
      var k := 0;
      ghost var was, done: nat := operations, 0;
      assert Ordered(rank, views(0));
      SearchStarts(rank, was, generation);
      while true
        invariant operations == views(k) && Searching(rank, was, operations, cursor, done, generation)
        decreases if k < settled then settled - k else 0, |operations| - done
      {
        SearchingOrdered(rank, was, operations, cursor, done, generation);
        OrderedIsDistinct(rank, operations);
        var items, next, start := Page(cursor, PAGE);
        StartsOnce(start, done, operations, cursor);
        PageSearched(rank, was, operations, cursor, done, generation, items, next);
        var found := FirstOf(items, generation);
        if found.Some? {
          return Ok(found.value), k;
        }
        if next.None? {
          return Err(Missing), k;
        }
        assert Keeps(views(k), views(k + 1)) && Ordered(rank, views(k + 1));
        ghost var place := done + |items|;
        done := SearchOn(rank, was, operations, views(k + 1), next.value, place, generation);
        cursor := next;
        operations, k := views(k + 1), k + 1;
      }
    }

    /** A lifecycle command, a spec update or a restore. It commits exactly when it is
        newer than the record, nothing refuses it and no rival commits in between; the
        record then differs in its desired side only. Recording the operation and answering
        are steps of their own and can fail after that. The same generation again answers
        with an operation recorded for it, if there was one, and an older one with the
        current generation, changing nothing. */
    method Change(change: Change, generation: nat, ifMatch: Option<nat>, supported: bool, rivals: seq<Record>,
                  rank: Rank, views: nat -> seq<Operation>, ghost settled: nat, receipt: Operation, fate: Fate)
      returns (answer: Result<Operation, Failure>, ghost pages: nat)
      requires operations == views(0) && Growing(rank, views, settled) && Rising(record, rivals)
      modifies this
      ensures var was := old(record);
              if Commits(was, change, generation, ifMatch, supported, rivals) then
                && record.Some? && IsChange(was.value, record.value) && Carries(was.value, change, generation, record.value)
                && answer == (if fate.Answered? then Ok(receipt) else Err(StoreFailed))
                && operations == (if fate.Unrecorded? then old(operations) else Placed(rank, old(operations), receipt))
              else
                && record == AfterRivals(was, rivals)
                && operations == views(pages)
                && answer == match Denial(was, change, generation, ifMatch, supported)
                             case Some(error) => Err(error)
                             case None => if generation == was.value.desired.generation then answer else Err(VersionMismatch)
      ensures old(record).None? ==> answer == Err(Missing)
      ensures old(record).Some? && generation < old(record).value.desired.generation ==>
                answer == Err(Stale(old(record).value.desired.generation))
      ensures old(record).Some? && generation == old(record).value.desired.generation ==>
                && (answer.Ok? ==> Finds(rank, answer.value, old(operations), operations, generation))
                && (answer.Err? ==> answer.error == Missing && NoneHas(old(operations), generation))
    {
      hide Finds, NoneHas, Growing, Placed;
      pages := 0;
      var loaded := record;
      if rivals != [] {
        record := Some(rivals[|rivals| - 1]);
      }
      if loaded.None? {
        return Err(Missing), pages;
      }
      var r := loaded.value;
      if generation < r.desired.generation {
        return Err(Stale(r.desired.generation)), pages;
      }
      if generation == r.desired.generation {
        answer, pages := OperationFor(generation, rank, views, settled);
        return;
      }
      var refusal := Refusal(r, change, ifMatch);
      if refusal.Some? {
        return Err(refusal.value), pages;
      }
      if !supported {
        return Err(Unsupported), pages;
      }
      var saved := Save(Changed(r, change, generation), r.version);
      if saved.Err? {
        return Err(VersionMismatch), pages;
      }
      if fate.Unrecorded? {
        return Err(StoreFailed), pages;
      }
      operations := Placed(rank, operations, receipt);
      answer := if fate.Answered? then Ok(receipt) else Err(StoreFailed);
    }

    /** One load, decision and save. */
    method TryObservation(observation: Observation, applied: Option<nat>, rivals: seq<Record>)
      returns (tried: Try)
      requires Rising(record, rivals)
      modifies this`record
      ensures (record, tried) == TryOnce(old(record), observation, applied, rivals)
    {
      var loaded := record;
      if rivals != [] {
        record := Some(rivals[|rivals| - 1]);
      }
      if loaded.None? {
        return Try.Refused(Missing);
      }
      if observation.generation > loaded.value.desired.generation {
        return Try.Refused(FutureObservation);
      }
      if loaded.value.observed.Some? && !Older(loaded.value.observed.value, observation) {
        return Try.Refused(StaleObservation);
      }
      var next := loaded.value.(observed := Some(observation),
                                applied := if applied.Some? then applied else loaded.value.applied);
      var saved := Save(next, loaded.value.version);
      tried := if saved.Ok? then Landed(saved.value) else Raced;
    }

    /** Record an observation, loading and deciding again after every lost race, five times
        at most. */
    method RecordObservation(observation: Observation, applied: Option<nat>, attempts: seq<seq<Record>>)
      returns (tried: Try)
      requires |attempts| == Operations.CAS_ATTEMPTS && AllRising(record, attempts)
      modifies this`record
      ensures (record, tried) == Tried(old(record), observation, applied, attempts)
    {
      hide Rising, TryOnce;
      ghost var was := record;
      assert attempts[0..] == attempts;
      for i := 0 to Operations.CAS_ATTEMPTS
        invariant record == AfterBatches(was, attempts[..i])
        invariant Tried(was, observation, applied, attempts) == Tried(record, observation, applied, attempts[i..])
      {
        assert attempts[..i + 1][..i] == attempts[..i];
        assert attempts[i..][0] == attempts[i] && attempts[i..][1..] == attempts[i + 1..];
        ghost var before := record;
        tried := TryObservation(observation, applied, attempts[i]);
        if !tried.Raced? {
          return;
        }
        RacedLeavesRivals(before, observation, applied, attempts[i]);
      }
      assert attempts[Operations.CAS_ATTEMPTS..] == [];
      tried := Raced;
    }
  }

  predicate Commits(was: Option<Record>, change: Change, generation: nat, ifMatch: Option<nat>, supported: bool, rivals: seq<Record>)
  {
    && was.Some? && was.value.desired.generation < generation
    && Refusal(was.value, change, ifMatch).None? && supported && rivals == []
  }

  /** Why a change is turned away, if it is neither a replay nor a lost race. */
  function Denial(was: Option<Record>, change: Change, generation: nat, ifMatch: Option<nat>, supported: bool): (error: Option<Failure>)
    ensures error.None? ==> was.Some? && was.value.desired.generation <= generation
  {
    if was.None? then Some(Missing)
    else if generation < was.value.desired.generation then Some(Stale(was.value.desired.generation))
    else if generation == was.value.desired.generation then None
    else if Refusal(was.value, change, ifMatch).Some? then Refusal(was.value, change, ifMatch)
    else if !supported then Some(Unsupported)
    else None
  }

  // ---------------------------------------------------------------- recording an observation

  datatype Try = Landed(record: Record) | Refused(error: Failure) | Raced

  /** One attempt: the record it leaves, and how it ended. */
  function TryOnce(record: Option<Record>, o: Observation, applied: Option<nat>, rivals: seq<Record>): (end: (Option<Record>, Try))
  {
    var after := AfterRivals(record, rivals);
    if record.None? then (after, Try.Refused(Missing))
    else if record.value.desired.generation < o.generation then (after, Try.Refused(FutureObservation))
    else if !Accepts(record.value, o) then (after, Try.Refused(StaleObservation))
    else if rivals != [] then (after, Raced)
    else (Some(Observed(record.value, o, applied)), Landed(Observed(record.value, o, applied)))
  }

  lemma RacedLeavesRivals(record: Option<Record>, o: Observation, applied: Option<nat>, rivals: seq<Record>)
    ensures TryOnce(record, o, applied, rivals).1.Raced? ==> TryOnce(record, o, applied, rivals).0 == AfterRivals(record, rivals)
  {
  }

  /** Attempt after attempt, as long as races are lost. */
  function Tried(record: Option<Record>, o: Observation, applied: Option<nat>, attempts: seq<seq<Record>>): (end: (Option<Record>, Try))
    decreases |attempts|
  {
    if attempts == [] then (record, Raced)
    else
      var once := TryOnce(record, o, applied, attempts[0]);
      if once.1.Raced? then Tried(once.0, o, applied, attempts[1..]) else once
  }

  /** What the loop comes to. There is an attempt that ended it, every one before it lost a
      race, and then: it landed, with no rival, on a record that accepts the observation,
      and kept what that record desires; or that record refuses it, and nothing of it was
      written; or all attempts lost their race. */
  lemma {:induction false} TriedMeans(record: Option<Record>, o: Observation, applied: Option<nat>, attempts: seq<seq<Record>>)
    returns (n: nat, onto: Option<Record>)
    ensures n <= |attempts| && (forall k :: 0 <= k < n ==> attempts[k] != [])
    ensures onto == AfterAll(record, attempts[..n])
    ensures var end := Tried(record, o, applied, attempts);
            match end.1
            case Landed(landed) =>
              && n < |attempts| && attempts[n] == [] && onto.Some? && Accepts(onto.value, o)
              && Notes(onto.value, o, applied, landed) && landed.version == onto.value.version + 1 && end.0 == Some(landed)
              && landed.desired == onto.value.desired && landed.spec == onto.value.spec
            case Refused(error) =>
              && n < |attempts| && (onto.None? || !Accepts(onto.value, o)) && end.0 == AfterRivals(onto, attempts[n])
              && (error == Missing <==> onto.None?)
              && (error == FutureObservation <==> onto.Some? && onto.value.desired.generation < o.generation)
              && (error == StaleObservation <==>
                    && onto.Some? && o.generation <= onto.value.desired.generation
                    && onto.value.observed.Some? && !Older(onto.value.observed.value, o))
            case Raced => n == |attempts| && end.0 == onto
    decreases |attempts|
  {
    if attempts == [] {
      n, onto := 0, record;
    } else {
      var once := TryOnce(record, o, applied, attempts[0]);
      if once.1.Raced? {
        var m;
        m, onto := TriedMeans(once.0, o, applied, attempts[1..]);
        n := m + 1;
        assert attempts[..n][1..] == attempts[1..][..m];
        assert forall k :: 0 < k < n ==> attempts[k] == attempts[1..][k - 1];
      } else {
        n, onto := 0, record;
      }
    }
  }

  /** The record after all of these rivals, first attempt first. */
  function AfterAll(record: Option<Record>, attempts: seq<seq<Record>>): (next: Option<Record>)
    decreases |attempts|
  {
    if attempts == [] then record else AfterAll(AfterRivals(record, attempts[0]), attempts[1..])
  }

  // ---------------------------------------------------------------- the observation pass

  /** What a pass has to say about a workload: what the backend reports, or that a live
      instance is no longer reported. */
  function News(record: Record, reported: Option<Observation>): (news: Option<Observation>)
  {
    if reported.Some? then reported
    else if record.observed.Some? && record.observed.value.health in {Pending, Up, Suspended}
            && record.desired.state != Deleted
    then Some(Observation(Health.Lost, record.observed.value.generation, record.observed.value.sequence + 1))
    else None
  }

  /** What others commit to one workload: before the pass comes to it, after its page was
      read, and during each attempt to record the news. */
  datatype Meddling = Meddling(early: seq<Record>, attempts: seq<seq<Record>>)

  ghost predicate Plausible(record: Record, m: Meddling)
  {
    && |m.attempts| == Operations.CAS_ATTEMPTS
    && Rising(Some(record), m.early)
    && AllRising(AfterRivals(Some(record), m.early), m.attempts)
  }

  /** How the visit to one workload ends. */
  datatype Outcome = Outcome(record: Record, recorded: bool, lost: bool, abandoned: bool)

  function Visited(record: Record, reported: Option<Observation>, m: Meddling): (outcome: Outcome)
  {
    var news, now := News(record, reported), AfterRivals(Some(record), m.early);
    if news.None? then Outcome(now.value, false, false, false)
    else
      var end := Tried(now, news.value, None, m.attempts);
      TriedStays(now, news.value, None, m.attempts);
      Outcome(end.0.value, end.1.Landed?, reported.None?, end.1.Raced?)
  }

  lemma {:induction false} TriedStays(record: Option<Record>, o: Observation, applied: Option<nat>, attempts: seq<seq<Record>>)
    requires record.Some?
    ensures var end := Tried(record, o, applied, attempts);
            end.0.Some? && end.1 != Try.Refused(Missing)
    decreases |attempts|
  {
    if attempts != [] && TryOnce(record, o, applied, attempts[0]).1.Raced? {
      TriedStays(TryOnce(record, o, applied, attempts[0]).0, o, applied, attempts[1..]);
    }
  }

  /** Without rivals, a visit records what the backend reports unless it is old. What it does
      not report any more, though it was last seen on its way, up or paused and is not to be
      deleted, is recorded as lost at the same generation and the next sequence, unless that
      generation is not desired yet. Nothing else changes, and nothing desired or applied. */
  lemma QuietVisit(record: Record, reported: Option<Observation>, m: Meddling)
    requires m.early == [] && |m.attempts| == Operations.CAS_ATTEMPTS && m.attempts[0] == []
    ensures var outcome := Visited(record, reported, m);
            if reported.Some? then
              && !outcome.lost
              && outcome.record.observed == (if Accepts(record, reported.value) then reported else record.observed)
            else if record.observed.Some? && record.desired.state != Deleted
                    && (record.observed.value.health == Pending || record.observed.value.health == Up
                        || record.observed.value.health == Suspended) then
              && outcome.lost && (outcome.recorded <==> record.observed.value.generation <= record.desired.generation)
              && outcome.record.observed.Some?
              && var now, seen := outcome.record.observed.value, record.observed.value;
              && (outcome.recorded ==>
                    now.health == Health.Lost && now.generation == seen.generation && now.sequence == seen.sequence + 1)
            else !outcome.lost && !outcome.recorded && outcome.record == record
    ensures var outcome, news := Visited(record, reported, m), News(record, reported);
            && outcome.recorded == (news.Some? && Accepts(record, news.value))
            && outcome.record == (if outcome.recorded then Observed(record, news.value, None) else record)
            && outcome.record.desired == record.desired && outcome.record.spec == record.spec
            && outcome.record.applied == record.applied && !outcome.abandoned
  {
  }

  function Find(m: map<string, Observation>, id: string): (found: Option<Observation>)
  {
    if id in m then Some(m[id]) else None
  }

  datatype Report = Report(recorded: nat, lost: nat, undesired: set<string>)

  /** One pass as seen from its start: the records, what the backend reports, and who
      meddles with which workload. */
  datatype Pass = Pass(was: map<string, Record>, reported: map<string, Observation>, meddling: string -> Meddling)
  {
    ghost predicate Valid()
    {
      forall id :: id in was ==> Plausible(was[id], meddling(id))
    }

    ghost function End(id: string): (outcome: Outcome)
      requires id in was
    {
      Visited(was[id], Find(reported, id), meddling(id))
    }

    /** The records once every workload outside `todo` has been visited. */
    ghost function Records(todo: set<string>): (now: map<string, Record>)
    {
      map id | id in was :: if id in todo then was[id] else End(id).record
    }

    ghost function Heard(todo: set<string>): (ids: set<string>)
    {
      set id | id in was && id !in todo && End(id).recorded
    }

    ghost function Missed(todo: set<string>): (ids: set<string>)
    {
      set id | id in was && id !in todo && End(id).lost
    }

    /** The reports nobody has claimed yet. */
    ghost function Unclaimed(todo: set<string>): (left: map<string, Observation>)
    {
      reported - (was.Keys - todo)
    }
  }

  lemma VisitOne(p: Pass, todo: set<string>, id: string)
    requires id in p.was && id in todo
    ensures id in p.Records(todo) && p.Records(todo)[id] == p.was[id]
    ensures p.Records(todo - {id}) == p.Records(todo)[id := p.End(id).record]
    ensures Find(p.Unclaimed(todo), id) == Find(p.reported, id)
    ensures p.Unclaimed(todo) - {id} == p.Unclaimed(todo - {id})
  {
    hide Visited;
  }

  lemma CountHeard(p: Pass, todo: set<string>, id: string)
    requires id in p.was && id in todo
    ensures |p.Heard(todo - {id})| == |p.Heard(todo)| + (if p.End(id).recorded then 1 else 0)
  {
    hide Visited, Find;
    assert p.Heard(todo - {id}) == if p.End(id).recorded then p.Heard(todo) + {id} else p.Heard(todo);
  }

  lemma CountMissed(p: Pass, todo: set<string>, id: string)
    requires id in p.was && id in todo
    ensures |p.Missed(todo - {id})| == |p.Missed(todo)| + (if p.End(id).lost then 1 else 0)
  {
    hide Visited, Find;
    assert p.Missed(todo - {id}) == if p.End(id).lost then p.Missed(todo) + {id} else p.Missed(todo);
  }

  // ---------------------------------------------------------------- pages of workloads

  predicate After(id: string, cursor: Option<string>)
  {
    cursor.Some? ==> AtMost(cursor.value, id) && id != cursor.value
  }

  function Beyond(ids: set<string>, cursor: Option<string>): (rest: set<string>)
  {
    set id | id in ids && After(id, cursor)
  }

  lemma AllBeyondNone(ids: set<string>)
    ensures Beyond(ids, None) == ids
  {
  }

  /** What is beyond a page is what is beyond the cursor it hands out. */
  lemma PageAdvances(ids: set<string>, cursor: Option<string>, page: seq<string>, limit: nat)
    requires Lists(page, Beyond(ids, cursor), limit) && page != []
    ensures Beyond(ids, Some(page[|page| - 1])) == Beyond(ids, cursor) - Members(page)
    ensures Beyond(ids, Some(page[|page| - 1])) < Beyond(ids, cursor)
  {
    hide AtMost;
    var last := page[|page| - 1];
    assert last in Members(page);
    forall id | id in ids
      ensures After(id, Some(last)) <==> After(id, cursor) && id !in page
    {
      OrderTotal(last, id);
      if id in page {
        var i :| 0 <= i < |page| && page[i] == id;
        assert i < |page| - 1 ==> AtMost(page[i], page[|page| - 1]);
      } else if After(id, cursor) {
        assert id in Beyond(ids, cursor);
      } else if AtMost(last, id) {
        OrderTotal(cursor.value, last);
        OrderTransitive(cursor.value, last, id);
      }
    }
  }

  class Workloads {
    var records: map<string, Record>

    /** The page of workloads after `cursor`, in byte order of their ids. */
    method Page(cursor: Option<string>, limit: nat) returns (ids: seq<string>, next: Option<string>)
      ensures Lists(ids, Beyond(records.Keys, cursor), Size(limit))
      ensures next.None? <==> Members(ids) == Beyond(records.Keys, cursor)
      ensures next.Some? ==> ids != [] && next.value == ids[|ids| - 1]
    {
      var probed := First(Beyond(records.Keys, cursor), Size(limit) + 1);
      Truncated(probed, Beyond(records.Keys, cursor), Size(limit));
      if |probed| > Size(limit) {
        ids := probed[..Size(limit)];
        next := Some(ids[|ids| - 1]);
      } else {
        ids, next := probed, None;
      }
    }

    /** Record the news about one workload, as its page showed it, while others write. */
    method Visit(id: string, reported: Option<Observation>, m: Meddling) returns (recorded: bool, lost: bool, abandoned: bool)
      requires id in records && Plausible(records[id], m)
      modifies this
      ensures records == old(records)[id := Visited(old(records)[id], reported, m).record]
      ensures Visited(old(records)[id], reported, m) == Outcome(records[id], recorded, lost, abandoned)
    {
      var record := records[id];
      var row := new Service;
      row.record := if m.early == [] then Some(record) else Some(m.early[|m.early| - 1]);
      var news := reported;
      recorded, lost, abandoned := false, false, false;
      if news.None? && record.observed.Some? && record.observed.value.health in {Pending, Up, Suspended}
         && record.desired.state != Deleted {
        lost := true;
        news := Some(Observation(Health.Lost, record.observed.value.generation, record.observed.value.sequence + 1));
      }
      if news.Some? {
        TriedStays(row.record, news.value, None, m.attempts);
        var tried := row.RecordObservation(news.value, None, m.attempts);
        recorded, abandoned := tried.Landed?, tried.Raced?;
      }
      records := records[id := row.record.value];
    }

    /** A pass over every workload, page by page in byte order. Each record ends as its
        own visit leaves it. An instance that no workload desires is named and left alone.
        A workload that keeps changing abandons the pass; the visits before it stand, and
        the workloads after it are as they were. */
    method Observe(reported: map<string, Observation>, meddling: string -> Meddling)
      returns (report: Result<Report, Failure>, ghost todo: set<string>)
      requires Pass(records, reported, meddling).Valid()
      modifies this
      ensures PassEnds(Pass(old(records), reported, meddling), todo, records, report)
    {
      hide Visited, AtMost, Find, Plausible, Beyond, Lists, Members;
      ghost var p := Pass(records, reported, meddling);
      var left, recordedCount, lostCount := reported, 0, 0;
      var cursor: Option<string> := None;
      todo := records.Keys;
      hide Swept, Tallied, PassEnds;
      PassStarts(p);
      AllBeyondNone(p.was.Keys);
      while true
        invariant todo == Beyond(p.was.Keys, cursor)
        invariant Swept(p, todo, records, left) && Tallied(p, todo, recordedCount, lostCount)
        decreases todo
      {
        SweptSizes(p, todo, records, left);
        var ids, next := Page(cursor, PAGE);
        ghost var before := todo;
        var i := 0;
        assert ids[..0] == [] && Members([]) == {} by { NoneListed(); }
        while i < |ids|
          invariant i <= |ids| && todo == before - Members(ids[..i])
          invariant Swept(p, todo, records, left) && Tallied(p, todo, recordedCount, lostCount)
        {
          var id := ids[i];
          NextInOrder(ids, before, PAGE, i);
          SweepOne(p, todo, records, left, id);
          TallyOne(p, todo, recordedCount, lostCount, id);
          var news := Find(left, id);
          left := left - {id};
          var recorded, lost, abandoned := Visit(id, news, meddling(id));
          todo := todo - {id};
          if abandoned {
            PassAbandoned(p, todo, records, left, id);
            return Err(KeepsChanging), todo;
          }
          if recorded {
            recordedCount := recordedCount + 1;
          }
          if lost {
            lostCount := lostCount + 1;
          }
          i := i + 1;
        }
        assert ids[..i] == ids;
        if next.None? {
          assert todo == {};
          PassFinished(p, records, left, recordedCount, lostCount);
          return Ok(Report(recordedCount, lostCount, left.Keys)), todo;
        }
        PageAdvances(p.was.Keys, cursor, ids, PAGE);
        cursor := next;
      }
    }
  }

  /** How a pass may end: each record outside `todo` is as its own visit leaves it, the
      others are untouched and come later in byte order. The pass is reported exactly when
      no visit was abandoned, and then it visited everything. */
  ghost predicate PassEnds(p: Pass, todo: set<string>, records: map<string, Record>, report: Result<Report, Failure>)
  {
    && todo <= p.was.Keys && records == p.Records(todo)
    && (forall a, b :: a in p.was.Keys - todo && b in todo ==> AtMost(a, b))
    && (report.Ok? <==> forall id :: id in p.was.Keys - todo ==> !p.End(id).abandoned)
    && match report
       case Ok(r) =>
         && todo == {} && r.undesired == p.reported.Keys - p.was.Keys
         && r.recorded == |p.Heard({})| && r.lost == |p.Missed({})|
       case Err(error) => error == KeepsChanging
  }

  /** Everything outside `todo` has been visited, in byte order. */
  ghost predicate Swept(p: Pass, todo: set<string>, records: map<string, Record>, left: map<string, Observation>)
  {
    && todo <= p.was.Keys && records == p.Records(todo) && left == p.Unclaimed(todo)
    && forall a, b :: a in p.was.Keys - todo && b in todo ==> AtMost(a, b)
  }

  /** The counts are right so far, and nothing outside `todo` was abandoned. */
  ghost predicate Tallied(p: Pass, todo: set<string>, recorded: nat, lost: nat)
  {
    && recorded == |p.Heard(todo)| && lost == |p.Missed(todo)|
    && forall id :: id in p.was.Keys - todo ==> !p.End(id).abandoned
  }

  lemma SweptSizes(p: Pass, todo: set<string>, records: map<string, Record>, left: map<string, Observation>)
    requires Swept(p, todo, records, left)
    ensures todo <= p.was.Keys == records.Keys
  {
    hide AtMost, Visited;
  }

  lemma SweepOne(p: Pass, todo: set<string>, records: map<string, Record>, left: map<string, Observation>, id: string)
    requires p.Valid() && Swept(p, todo, records, left) && id in todo
    requires forall b :: b in todo - {id} ==> AtMost(id, b)
    ensures id in records && records[id] == p.was[id] && Plausible(records[id], p.meddling(id))
    ensures Visited(records[id], Find(left, id), p.meddling(id)) == p.End(id)
    ensures Swept(p, todo - {id}, records[id := p.End(id).record], left - {id})
  {
    hide AtMost, Visited, Plausible;
    VisitOne(p, todo, id);
  }

  lemma TallyOne(p: Pass, todo: set<string>, recorded: nat, lost: nat, id: string)
    requires todo <= p.was.Keys && id in todo && Tallied(p, todo, recorded, lost)
    ensures Tallied(p, todo - {id}, recorded + (if p.End(id).recorded then 1 else 0), lost + (if p.End(id).lost then 1 else 0))
            <==> !p.End(id).abandoned
  {
    hide Visited;
    CountHeard(p, todo, id);
    CountMissed(p, todo, id);
    assert id in p.was.Keys - (todo - {id});
  }

  lemma PassStarts(p: Pass)
    ensures Swept(p, p.was.Keys, p.was, p.reported) && Tallied(p, p.was.Keys, 0, 0)
  {
    hide AtMost, Visited;
    assert p.Records(p.was.Keys) == p.was;
    assert p.Heard(p.was.Keys) == {} == p.Missed(p.was.Keys);
    assert p.Unclaimed(p.was.Keys) == p.reported;
  }

  lemma PassFinished(p: Pass, records: map<string, Record>, left: map<string, Observation>, recorded: nat, lost: nat)
    requires Swept(p, {}, records, left) && Tallied(p, {}, recorded, lost)
    ensures PassEnds(p, {}, records, Ok(Report(recorded, lost, left.Keys)))
  {
    hide AtMost, Visited;
  }

  lemma PassAbandoned(p: Pass, todo: set<string>, records: map<string, Record>, left: map<string, Observation>, id: string)
    requires Swept(p, todo, records, left) && id in p.was.Keys - todo && p.End(id).abandoned
    ensures PassEnds(p, todo, records, Err(KeepsChanging))
  {
    hide AtMost, Visited;
  }
}
