/** Walking grants up to their root and down to everything a revocation voids, over a
    store in which grants are never deleted and never change parent. */
module Revocation {
  import opened Wrappers
  import opened Collections
  import opened Capability
  import Decide

  type Store = map<Id, Grant>

  /** A store is keyed by grant id. */
  predicate Keyed(store: Store)
  {
    forall x :: x in store ==> store[x].id == x
  }

  predicate IsChild(store: Store, x: Id, parent: Id)
  {
    x in store && store[x].parent == Some(parent)
  }

  /** The `n`th ancestor of `x`: itself, its parent, its parent's parent, ... */
  function Up(store: Store, x: Id, n: nat): (ancestor: Option<Id>)
    decreases n
  {
    if n == 0 then Some(x)
    else if x in store && store[x].parent.Some? then Up(store, store[x].parent.value, n - 1)
    else None
  }

  /** `x` is `id` or one of its descendants. */
  ghost predicate Descends(store: Store, id: Id, x: Id)
  {
    exists n: nat :: Up(store, x, n) == Some(id)
  }

  /** Time passed: grants were added, and revocations moved earlier or were added. */
  ghost predicate Grew(before: Store, after: Store)
  {
    forall x :: x in before ==>
      && x in after && after[x].parent == before[x].parent && after[x].id == before[x].id
      && (before[x].revoked.Some? ==> after[x].revoked.Some? && after[x].revoked.value <= before[x].revoked.value)
  }

  // ---------------------------------------------------------------- the chain of a grant

  /** The grant and its ancestors up to the root, if every link is there and there are at
      most `room` of them. */
  function Chain(store: Store, x: Id, room: nat): (chain: Option<seq<Grant>>)
    requires x in store
    ensures chain.Some? ==> 0 < |chain.value| <= room && chain.value[0] == store[x]
    decreases room
  {
    if room == 0 then None
    else match store[x].parent
      case None => Some([store[x]])
      case Some(parent) =>
        if parent !in store then None
        else match Chain(store, parent, room - 1)
          case Some(rest) => Some([store[x]] + rest)
          case None => None
  }

  function Behind(front: seq<Grant>, rest: Option<seq<Grant>>): (chain: Option<seq<Grant>>)
  {
    match rest case Some(grants) => Some(front + grants) case None => None
  }

  lemma PushParent(store: Store, front: seq<Grant>, x: Id, room: nat)
    requires x in store && store[x].parent.Some? && 0 < room
    ensures var parent := store[x].parent.value;
            Behind(front, Chain(store, x, room)) ==
            if parent in store then Behind(front + [store[x]], Chain(store, parent, room - 1)) else None
  {
    var parent := store[x].parent.value;
    if parent in store && Chain(store, parent, room - 1).Some? {
      var rest := Chain(store, parent, room - 1).value;
      assert front + ([store[x]] + rest) == (front + [store[x]]) + rest;
    }
  }

  /** The upward walk: push parents until the root, a missing link, or sixteen grants. */
  method ChainOf(store: Store, x: Id) returns (chain: Option<seq<Grant>>)
    requires x in store
    ensures chain == Chain(store, x, MAX_CHAIN_LENGTH)
  {
    hide Chain;
    var front: seq<Grant>, last := [], store[x];
    ghost var at := x;
    NothingInFront(Chain(store, x, MAX_CHAIN_LENGTH));
    while last.parent.Some?
      invariant |front| < MAX_CHAIN_LENGTH
      invariant at in store && last == store[at]
      invariant Chain(store, x, MAX_CHAIN_LENGTH) == Behind(front, Chain(store, at, MAX_CHAIN_LENGTH - |front|))
      decreases MAX_CHAIN_LENGTH - |front|
    {
      PushParent(store, front, at, MAX_CHAIN_LENGTH - |front|);
      if |front| + 1 >= MAX_CHAIN_LENGTH {
        NoRoom(store, last.parent.value);
        return None;
      }
      var parent := last.parent.value;
      if parent !in store {
        return None;
      }
      front, last := front + [last], store[parent];
      at := parent;
    }
    RootChain(store, at, MAX_CHAIN_LENGTH - |front|);
    chain := Some(front + [last]);
  }

  lemma NothingInFront(rest: Option<seq<Grant>>)
    ensures Behind([], rest) == rest
  {
    if rest.Some? {
      assert [] + rest.value == rest.value;
    }
  }

  lemma NoRoom(store: Store, x: Id)
    ensures x in store ==> Chain(store, x, 0).None?
  {
  }

  lemma RootChain(store: Store, x: Id, room: nat)
    requires x in store && store[x].parent.None? && 0 < room
    ensures Chain(store, x, room) == Some([store[x]])
  {
  }

  lemma {:induction false} ChainClimbs(store: Store, x: Id, room: nat, i: nat)
    requires Keyed(store) && x in store && Chain(store, x, room).Some?
    requires i < |Chain(store, x, room).value|
    ensures Up(store, x, i) == Some(Chain(store, x, room).value[i].id)
    ensures Chain(store, x, room).value[i].id in store
    ensures Chain(store, x, room).value[i] == store[Chain(store, x, room).value[i].id]
    decreases room
  {
    if i > 0 {
      ChainClimbs(store, store[x].parent.value, room - 1, i - 1);
    }
  }

  lemma {:induction false} ChainIsAll(store: Store, x: Id, room: nat, n: nat)
    requires x in store && Chain(store, x, room).Some? && |Chain(store, x, room).value| <= n
    ensures Up(store, x, n) == None
    decreases room
  {
    if store[x].parent.Some? {
      ChainIsAll(store, store[x].parent.value, room - 1, n - 1);
    }
  }

  /** A grant with a loadable chain descends from `id` exactly when `id` is on its chain. */
  lemma OnChainIffDescends(store: Store, x: Id, id: Id)
    requires Keyed(store) && x in store && Chain(store, x, MAX_CHAIN_LENGTH).Some?
    ensures Descends(store, id, x) <==> exists g :: g in Chain(store, x, MAX_CHAIN_LENGTH).value && g.id == id
  {
    var chain := Chain(store, x, MAX_CHAIN_LENGTH).value;
    if Descends(store, id, x) {
      var n: nat :| Up(store, x, n) == Some(id);
      if n >= |chain| {
        ChainIsAll(store, x, MAX_CHAIN_LENGTH, n);
      }
      ChainClimbs(store, x, MAX_CHAIN_LENGTH, n);
      assert chain[n] in chain;
    }
    if g :| g in chain && g.id == id {
      var i :| 0 <= i < |chain| && chain[i] == g;
      ChainClimbs(store, x, MAX_CHAIN_LENGTH, i);
    }
  }

  /** The grant is stored, its ancestors can be walked to a root, and they are in order now. */
  predicate IsLive(store: Store, x: Id, now: int)
  {
    && x in store
    && Chain(store, x, MAX_CHAIN_LENGTH).Some?
    && ChainOk(Chain(store, x, MAX_CHAIN_LENGTH).value, now)
  }

  // ---------------------------------------------------------------- revocation

  /** After `id` is revoked at `at`, no grant that descends from it, now or in any later
      store, whether it existed at the time or was delegated afterwards, is live at `at`
      or later. */
  lemma RevokedForGood(store: Store, later: Store, id: Id, at: int, x: Id, now: int)
    requires id in store && store[id].revoked.Some? && store[id].revoked.value <= at <= now
    requires Grew(store, later) && Keyed(later) && Descends(later, id, x)
    ensures !IsLive(later, x, now)
  {
    if x in later && Chain(later, x, MAX_CHAIN_LENGTH).Some? {
      OnChainIffDescends(later, x, id);
      var chain := Chain(later, x, MAX_CHAIN_LENGTH).value;
      var g :| g in chain && g.id == id;
      var i :| 0 <= i < |chain| && chain[i] == g;
      ChainClimbs(later, x, MAX_CHAIN_LENGTH, i);
      assert !LiveAt(chain[i], now);
    }
  }

  /** The same grant, revoked no later than before. */
  predicate Revises(before: Grant, after: Grant)
  {
    && after == before.(revoked := after.revoked)
    && (before.revoked.Some? ==> after.revoked.Some? && after.revoked.value <= before.revoked.value)
  }

  /** The earlier of the time a grant was revoked, if it was, and `at`. */
  function Earlier(revoked: Option<int>, at: int): (time: int)
    ensures time <= at && (revoked.Some? ==> time <= revoked.value)
    ensures time == at || revoked == Some(time)
  {
    if revoked.Some? && revoked.value <= at then revoked.value else at
  }

  function RevokedAt(g: Grant, at: int): (next: Grant)
    ensures Revises(g, next) && next.revoked == Some(Earlier(g.revoked, at))
  {
    if g.revoked.Some? && g.revoked.value <= at then g else g.(revoked := Some(at))
  }

  /** The grant after rivals revoked it at each of `times`. */
  function AfterRivals(g: Grant, times: seq<int>): (next: Grant)
    ensures Revises(g, next)
  {
    if times == [] then g else RevokedAt(AfterRivals(g, times[..|times| - 1]), times[|times| - 1])
  }

  lemma RevisionGrows(store: Store, id: Id, g: Grant)
    requires id in store && Revises(store[id], g)
    ensures Grew(store, store[id := g])
  {
  }

  class Grants {
    var stored: Store

    /** Revoke a grant, reading it again after every lost race with another revocation.
        When it succeeds the grant is revoked at `at` or earlier; whatever happens, no
        revocation is undone and nothing else changes. */
    method Revoke(id: Id, at: int, attempts: seq<seq<int>>) returns (answer: Result<bool, PortError>)
      requires |attempts| == Decide.MAX_CAS_ATTEMPTS
      modifies this
      ensures id !in old(stored) ==> answer == Err(NotFound) && stored == old(stored)
      ensures id in old(stored) ==>
                && id in stored && stored == old(stored)[id := stored[id]]
                && Revises(old(stored)[id], stored[id]) && Grew(old(stored), stored)
      ensures answer.Ok? ==> id in stored && stored[id].revoked.Some? && stored[id].revoked.value <= at
      ensures id in old(stored) && attempts[0] == [] ==>
                answer == Ok(true) && stored[id].revoked == Some(Earlier(old(stored)[id].revoked, at))
      ensures id in old(stored) && stored[id].revoked.Some? ==> Asked(stored[id].revoked.value, old(stored)[id], at, attempts)
      ensures answer.Err? && id in old(stored) ==> answer.error == Conflict && forall k :: 0 <= k < |attempts| ==> attempts[k] != []
    {
      if id !in stored {
        return Err(NotFound);
      }
      hide AfterRivals, Grew;
      ghost var was := stored;
      var current := stored[id];
      var done := false;
      var i := 0;
      while i < Decide.MAX_CAS_ATTEMPTS && !done
        invariant i <= Decide.MAX_CAS_ATTEMPTS
        invariant Revises(was[id], current) && stored == was[id := current]
        invariant done ==> current.revoked.Some? && current.revoked.value <= at
        invariant current.revoked.Some? ==> Asked(current.revoked.value, was[id], at, attempts)
        invariant i == 0 ==> current == was[id] && !done
        invariant i > 0 && attempts[0] == [] ==> done && current.revoked == Some(Earlier(was[id].revoked, at))
        invariant !done ==> forall k :: 0 <= k < i ==> attempts[k] != []
      {
        var after := AfterRivals(current, attempts[i]);
        RivalsAsked(current, attempts[i]);
        assert attempts[i] in attempts;
        done := (current.revoked.Some? && current.revoked.value <= at) || after == current;
        assert attempts[i] == [] ==> done by { NoRivals(current, attempts[i]); }
        current := if after == current then RevokedAt(current, at) else after;
        stored := stored[id := current];
        i := i + 1;
      }
      RevisionGrows(was, id, current);
      answer := if done then Ok(true) else Err(Conflict);
    }
  }

  /** Somebody asked for the grant to be revoked at this time. */
  predicate Asked(time: int, was: Grant, at: int, attempts: seq<seq<int>>)
  {
    time == at || was.revoked == Some(time) || exists times :: times in attempts && time in times
  }

  lemma {:induction false} RivalsAsked(g: Grant, times: seq<int>)
    ensures var after := AfterRivals(g, times);
            after.revoked == g.revoked || (after.revoked.Some? && after.revoked.value in times)
    decreases |times|
  {
    if times != [] {
      RivalsAsked(g, times[..|times| - 1]);
    }
  }

  lemma NoRivals(g: Grant, times: seq<int>)
    ensures times == [] ==> AfterRivals(g, times) == g
  {
  }

  lemma {:induction false} DescendsLater(before: Store, after: Store, x: Id, n: nat)
    requires Grew(before, after) && Up(before, x, n).Some?
    ensures Up(after, x, n) == Up(before, x, n)
    decreases n
  {
    if n > 0 {
      DescendsLater(before, after, before[x].parent.value, n - 1);
    }
  }

  // ---------------------------------------------------------------- the closure

  predicate Distinct(ids: seq<Id>)
  {
    forall i, j :: 0 <= i < j < |ids| ==> ids[i] != ids[j]
  }

  /** What a query for the children of `parent` answers: children, each once, and all of
      them unless it reached the query limit. */
  ghost predicate Lists(list: seq<Id>, store: Store, parent: Id)
  {
    && Distinct(list) && |list| <= MAX_QUERY_LIMIT
    && (forall x :: x in list ==> IsChild(store, x, parent))
    && (|list| < MAX_QUERY_LIMIT ==> forall x :: IsChild(store, x, parent) ==> x in list)
  }

  /** Every node whose children were read has them in `ids`, as of the store `store`. */
  ghost predicate Expanded(ids: seq<Id>, pending: seq<Id>, store: Store)
  {
    forall p, x :: p in ids && p !in pending && IsChild(store, x, p) ==> x in ids
  }

  /** Everything found descends from the root of the search. */
  ghost predicate AllDescend(ids: seq<Id>, store: Store, id: Id)
  {
    forall x :: x in ids ==> Descends(store, id, x)
  }

  lemma ChildDescends(store: Store, id: Id, p: Id, x: Id)
    requires Descends(store, id, p) && IsChild(store, x, p)
    ensures Descends(store, id, x)
  {
    var n: nat :| Up(store, p, n) == Some(id);
    assert Up(store, x, n + 1) == Some(id);
  }

  lemma AllDescendLater(ids: seq<Id>, before: Store, after: Store, id: Id)
    requires Grew(before, after) && AllDescend(ids, before, id)
    ensures AllDescend(ids, after, id)
  {
    forall x | x in ids ensures Descends(after, id, x) {
      var n: nat :| Up(before, x, n) == Some(id);
      DescendsLater(before, after, x, n);
    }
  }

  /** A set that holds the root and all children of its members holds every descendant. */
  lemma {:induction false} ClosedHoldsDescendant(ids: seq<Id>, store: Store, id: Id, x: Id, n: nat)
    requires id in ids && Expanded(ids, [], store) && Up(store, x, n) == Some(id)
    ensures x in ids
    decreases n
  {
    if n > 0 {
      var parent := store[x].parent.value;
      ClosedHoldsDescendant(ids, store, id, parent, n - 1);
      assert IsChild(store, x, parent);
    }
  }

  /** Add the children in `list` that are new, stopping at the cap. */
  method AddChildren(ids: seq<Id>, pending: seq<Id>, list: seq<Id>)
    returns (ids': seq<Id>, pending': seq<Id>, full: bool)
    requires Distinct(ids) && Distinct(pending) && |ids| <= MAX_REVOCATION_CLOSURE
    requires forall x :: x in pending ==> x in ids
    ensures Distinct(ids') && Distinct(pending') && |ids'| <= MAX_REVOCATION_CLOSURE
    ensures forall x :: x in pending' ==> x in ids'
    ensures ids <= ids' && (forall x :: x in ids' ==> x in ids || x in list)
    ensures pending <= pending' && (forall x :: x in ids' && x !in ids ==> x in pending')
    ensures |pending'| - |pending| == |ids'| - |ids|
    ensures full ==> |ids'| == MAX_REVOCATION_CLOSURE
    ensures !full ==> forall x :: x in list ==> x in ids'
  {
    ids', pending', full := ids, pending, false;
    for i := 0 to |list|
      invariant Distinct(ids') && Distinct(pending') && |ids'| <= MAX_REVOCATION_CLOSURE
      invariant forall x :: x in pending' ==> x in ids'
      invariant ids <= ids' && (forall x :: x in ids' ==> x in ids || x in list)
      invariant pending <= pending' && (forall x :: x in ids' && x !in ids ==> x in pending')
      invariant |pending'| - |pending| == |ids'| - |ids|
      invariant forall k :: 0 <= k < i ==> list[k] in ids'
    {
      if |ids'| >= MAX_REVOCATION_CLOSURE {
        full := true;
        return;
      }
      if list[i] !in ids' {
        ids' := ids' + [list[i]];
        pending' := pending' + [list[i]];
      }
    }
  }

  function Members(ids: seq<Id>): (members: set<Id>)
  {
    set x | x in ids
  }

  lemma {:induction false} DistinctSize(ids: seq<Id>)
    requires Distinct(ids)
    ensures |Members(ids)| == |ids|
    decreases |ids|
  {
    if ids != [] {
      var front, last := ids[..|ids| - 1], ids[|ids| - 1];
      DistinctSize(front);
      assert Members(ids) == Members(front) + {last};
      assert last !in front;
    }
  }

  lemma DistinctFits(part: seq<Id>, whole: seq<Id>)
    requires Distinct(part) && Distinct(whole) && forall x :: x in part ==> x in whole
    ensures |part| <= |whole|
  {
    DistinctSize(part);
    DistinctSize(whole);
    SubsetSize(Members(part), Members(whole));
  }

  /** Reading the children of `p` and adding them keeps what was expanded expanded, unless
      the closure is full. */
  lemma ExpandOne(ids: seq<Id>, p: Id, rest: seq<Id>, list: seq<Id>, ids': seq<Id>, pending': seq<Id>, first: Store, now: Store)
    requires Grew(first, now) && Lists(list, now, p)
    requires Expanded(ids, [p] + rest, first)
    requires ids <= ids' && Distinct(ids') && rest <= pending'
    requires forall x :: x in ids' && x !in ids ==> x in pending'
    requires forall x :: x in list ==> x in ids'
    requires |ids'| < MAX_REVOCATION_CLOSURE
    ensures Expanded(ids', pending', first)
  {
    DistinctFits(list, ids');
    forall q, x | q in ids' && q !in pending' && IsChild(first, x, q) ensures x in ids' {
      if q == p {
        assert IsChild(now, x, p);
      } else {
        assert q in ids && q !in [p] + rest;
      }
    }
  }

  /** The downward walk, breadth first, while the store may grow under it: `views(k)` is
      the store at the `k`th query and `listing(k, p)` its answer. The result holds no id
      twice, starts with `id`, and names only descendants; below the cap it names every
      descendant there was when the walk began. */
  method RevocationClosure(id: Id, views: nat -> Store, listing: (nat, Id) -> seq<Id>)
    returns (ids: seq<Id>, ghost queries: nat)
    requires forall k: nat :: Grew(views(k), views(k + 1))
    requires forall k: nat, p :: Lists(listing(k, p), views(k), p)
    ensures Distinct(ids) && ids != [] && ids[0] == id && |ids| <= MAX_REVOCATION_CLOSURE
    ensures AllDescend(ids, views(queries), id)
    ensures |ids| < MAX_REVOCATION_CLOSURE ==> forall x :: Descends(views(0), id, x) ==> x in ids
  {
    hide AllDescend, Expanded, Lists;
    ids := [id];
    var pending := [id];
    queries := 0;
    var k := 0;
    SearchStarts(id, views(0));
    while pending != []
      invariant queries == k
      invariant Distinct(ids) && Distinct(pending) && ids != [] && ids[0] == id && |ids| <= MAX_REVOCATION_CLOSURE
      invariant forall x :: x in pending ==> x in ids
      invariant Grew(views(0), views(k)) && AllDescend(ids, views(k), id)
      invariant |ids| < MAX_REVOCATION_CLOSURE ==> Expanded(ids, pending, views(0))
      decreases MAX_REVOCATION_CLOSURE - |ids|, |pending|
    {
      var p, rest := pending[0], pending[1..];
      assert pending == [p] + rest;
      assert p in ids;
      var list := listing(k, p);
      assert Lists(list, views(k), p);
      var ids', pending', full := AddChildren(ids, rest, list);
      FoundDescend(ids, p, list, ids', views(k), id);
      if full {
        return ids', queries;
      }
      if |ids'| < MAX_REVOCATION_CLOSURE {
        ExpandOne(ids, p, rest, list, ids', pending', views(0), views(k));
      }
      AllDescendLater(ids', views(k), views(k + 1), id);
      ids, pending := ids', pending';
      k := k + 1;
      queries := k;
    }
    if |ids| < MAX_REVOCATION_CLOSURE {
      forall x | Descends(views(0), id, x) ensures x in ids {
        var n: nat :| Up(views(0), x, n) == Some(id);
        ClosedHoldsDescendant(ids, views(0), id, x, n);
      }
    }
  }

  lemma SearchStarts(id: Id, store: Store)
    ensures AllDescend([id], store, id) && Expanded([id], [id], store) && Grew(store, store)
  {
    assert Up(store, id, 0) == Some(id);
  }

  lemma FoundDescend(ids: seq<Id>, p: Id, list: seq<Id>, ids': seq<Id>, store: Store, id: Id)
    requires AllDescend(ids, store, id) && p in ids && Lists(list, store, p)
    requires forall x :: x in ids' ==> x in ids || x in list
    ensures AllDescend(ids', store, id)
  {
    forall x | x in ids' ensures Descends(store, id, x) {
      if x !in ids {
        ChildDescends(store, id, p, x);
      }
    }
  }

  /** With the store at rest, `found` is what the walk returns: it is exactly the grant and
      its descendants if and only if there are at most ten thousand of them. */
  lemma ClosureExactIff(store: Store, id: Id, found: seq<Id>, all: set<Id>)
    requires forall x :: x in all <==> Descends(store, id, x)
    requires Distinct(found) && |found| <= MAX_REVOCATION_CLOSURE && AllDescend(found, store, id)
    requires |found| < MAX_REVOCATION_CLOSURE ==> forall x :: Descends(store, id, x) ==> x in found
    ensures (forall x :: x in all <==> x in found) <==> |all| <= MAX_REVOCATION_CLOSURE
  {
    DistinctSize(found);
    var named := Members(found);
    assert named <= all;
    assert (forall x :: x in all <==> x in found) ==> named == all;
    if |all| <= MAX_REVOCATION_CLOSURE && |found| == MAX_REVOCATION_CLOSURE {
      SubsetOfSameSize(named, all);
    }
  }

  /** Down and up agree. With the store at rest and no more than ten thousand descendants,
      a grant whose chain can be loaded is in the closure of `id` exactly when `id` is on
      that chain; and once `id` is revoked at `at`, nothing in the closure is live at `at`
      or later, in this store or any later one. */
  lemma RevocationDuality(store: Store, id: Id, found: seq<Id>, all: set<Id>, x: Id)
    requires Keyed(store) && x in store && Chain(store, x, MAX_CHAIN_LENGTH).Some?
    requires forall y :: y in all <==> Descends(store, id, y)
    requires |all| <= MAX_REVOCATION_CLOSURE
    requires Distinct(found) && |found| <= MAX_REVOCATION_CLOSURE && AllDescend(found, store, id)
    requires |found| < MAX_REVOCATION_CLOSURE ==> forall y :: Descends(store, id, y) ==> y in found
    ensures x in found <==> exists g :: g in Chain(store, x, MAX_CHAIN_LENGTH).value && g.id == id
    ensures x in found && id in store && store[id].revoked.Some? ==>
              forall later, now :: Grew(store, later) && Keyed(later) && store[id].revoked.value <= now ==>
                !IsLive(later, x, now)
  {
    ClosureExactIff(store, id, found, all);
    OnChainIffDescends(store, x, id);
    if x in found && id in store && store[id].revoked.Some? {
      forall later, now | Grew(store, later) && Keyed(later) && store[id].revoked.value <= now
        ensures !IsLive(later, x, now)
      {
        var n: nat :| Up(store, x, n) == Some(id);
        DescendsLater(store, later, x, n);
        RevokedForGood(store, later, id, store[id].revoked.value, x, now);
      }
    }
  }
}
