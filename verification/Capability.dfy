/** Capability grants: parent chains, what a chain authorizes, delegation, and revocation
    with its closure. */
module Capability {
  import opened Wrappers
  import opened ByteOrder

  const MAX_CHAIN_LENGTH: nat := 16
  const MAX_REVOCATION_CLOSURE: nat := 10_000
  const MAX_QUERY_LIMIT: nat := 10_000

  newtype Byte = b: int | 0 <= b < 256

  /** An identifier is sixteen bytes. */
  type Id = bytes: seq<Byte> | |bytes| == 16 witness seq(16, _ => 0)
  type Action = string

  datatype SubjectKind = User | Creature | Node | Service | Workload | ModulePublisher

  datatype Subject = Subject(kind: SubjectKind, id: Id)

  datatype Selector = Exact(kind: string, id: string) | AnyOfKind(kind: string)

  predicate Covers(s: Selector, kind: string, id: string)
  {
    s.kind == kind && (s.Exact? ==> s.id == id)
  }

  function Intersect(a: Selector, b: Selector): (both: Option<Selector>)
  {
    if a.kind != b.kind then None
    else if a.AnyOfKind? then Some(b)
    else if b.AnyOfKind? || a == b then Some(a)
    else None
  }

  predicate Within(inner: Selector, outer: Selector)
  {
    Intersect(inner, outer) == Some(inner)
  }

  /** The intersection covers exactly what both cover, and lies within both. */
  lemma IntersectionIsMeet(a: Selector, b: Selector, kind: string, id: string)
    ensures var both := Intersect(a, b);
            && (both.Some? ==> Within(both.value, a) && Within(both.value, b))
            && (Covers(a, kind, id) && Covers(b, kind, id) <==> both.Some? && Covers(both.value, kind, id))
  {
  }

  datatype Grant = Grant(
    id: Id,
    subject: Subject,
    issuer: Subject,
    actions: set<Action>,
    resource: Selector,
    delegable: set<Action>,
    maxDepth: nat,
    parent: Option<Id>,
    notBefore: int,
    expires: Option<int>,
    revoked: Option<int>,
    policyVersion: string
  )

  predicate LiveAt(g: Grant, now: int)
  {
    && g.notBefore <= now
    && (g.expires.Some? ==> now < g.expires.value)
    && (g.revoked.Some? ==> now < g.revoked.value)
  }

  predicate Attenuates(child: Grant, parent: Grant)
  {
    && child.parent == Some(parent.id)
    && child.issuer == parent.subject
    && child.actions <= parent.delegable
    && child.delegable <= child.actions
    && Within(child.resource, parent.resource)
    && parent.notBefore <= child.notBefore
    && (parent.expires.Some? ==> child.expires.Some? && child.expires.value <= parent.expires.value)
    && child.maxDepth < parent.maxDepth
  }

  /** `chain[0]` can be relied on: each grant narrows the next, the last one stands on its
      own, and all are live. */
  predicate ChainOk(chain: seq<Grant>, now: int)
  {
    && chain != []
    && chain[|chain| - 1].parent.None?
    && chain[|chain| - 1].delegable <= chain[|chain| - 1].actions
    && (forall i :: 0 <= i < |chain| ==> LiveAt(chain[i], now))
    && (forall i :: 0 <= i < |chain| - 1 ==> Attenuates(chain[i], chain[i + 1]))
  }

  predicate Authorizes(chain: seq<Grant>, subject: Subject, action: Action, kind: string, id: string, now: int)
  {
    && chain != []
    && chain[0].subject == subject && action in chain[0].actions && Covers(chain[0].resource, kind, id)
    && ChainOk(chain, now)
  }

  // ---------------------------------------------------------------- no amplification

  lemma {:induction false} LinksOnlyNarrow(chain: seq<Grant>, i: nat, action: Action, kind: string, id: string, now: int)
    requires ChainOk(chain, now) && i < |chain|
    requires action in chain[0].actions && Covers(chain[0].resource, kind, id)
    ensures action in chain[i].actions && Covers(chain[i].resource, kind, id)
    ensures chain[0].maxDepth + i <= chain[i].maxDepth
    ensures 0 < i ==> action in chain[i].delegable
    ensures chain[i].notBefore <= chain[0].notBefore
    ensures chain[i].expires.Some? ==> chain[0].expires.Some? && chain[0].expires.value <= chain[i].expires.value
  {
    if i > 0 {
      LinksOnlyNarrow(chain, i - 1, action, kind, id, now);
      assert Attenuates(chain[i - 1], chain[i]);
      if i < |chain| - 1 {
        assert Attenuates(chain[i], chain[i + 1]);
      }
    }
  }

  /** Whatever a chain authorizes, every ancestor was itself granted, allowed to delegate
      and is live for, each was issued by the holder of the next, whose window is no narrower
      than the first one's; and no chain is longer than its root's depth budget allows. */
  lemma NeverAmplifies(chain: seq<Grant>, subject: Subject, action: Action, kind: string, id: string, now: int)
    requires Authorizes(chain, subject, action, kind, id, now)
    ensures forall i :: 0 <= i < |chain| ==>
              action in chain[i].actions && Covers(chain[i].resource, kind, id) && LiveAt(chain[i], now)
    ensures forall i :: 0 < i < |chain| ==> action in chain[i].delegable
    ensures |chain| - 1 <= chain[|chain| - 1].maxDepth
    ensures chain[0].subject == subject && chain[|chain| - 1].parent == None
    ensures forall i :: 0 < i < |chain| ==>
              && chain[i - 1].parent == Some(chain[i].id) && chain[i - 1].issuer == chain[i].subject
              && chain[i].notBefore <= chain[0].notBefore
              && (chain[i].expires.Some? ==> chain[0].expires.Some? && chain[0].expires.value <= chain[i].expires.value)
    ensures forall i, a :: 0 <= i < |chain| && a in chain[i].delegable ==> a in chain[i].actions
  {
    forall i | 0 <= i < |chain|
      ensures action in chain[i].actions && Covers(chain[i].resource, kind, id)
      ensures 0 < i ==> action in chain[i].delegable
      ensures chain[i].notBefore <= chain[0].notBefore
      ensures chain[i].expires.Some? ==> chain[0].expires.Some? && chain[0].expires.value <= chain[i].expires.value
    {
      LinksOnlyNarrow(chain, i, action, kind, id, now);
    }
    LinksOnlyNarrow(chain, |chain| - 1, action, kind, id, now);
    forall i | 0 < i < |chain| ensures chain[i - 1].parent == Some(chain[i].id) && chain[i - 1].issuer == chain[i].subject {
      assert Attenuates(chain[i - 1], chain[i]);
    }
    forall i, a | 0 <= i < |chain| && a in chain[i].delegable ensures a in chain[i].actions {
      assert i < |chain| - 1 ==> Attenuates(chain[i], chain[i + 1]);
    }
  }

  // ---------------------------------------------------------------- checking a chain

  datatype Refusal =
    | BrokenChain
    | NotLive
    | Amplifies
    | NotHolder
    | DepthExhausted
    | ResourceOutside
    | UnknownAction
    | SubjectNotAllowed
    | NothingDelegable

  predicate Rooted(chain: seq<Grant>)
  {
    && chain != []
    && chain[|chain| - 1].parent.None?
    && chain[|chain| - 1].delegable <= chain[|chain| - 1].actions
  }

  predicate AllLive(chain: seq<Grant>, now: int)
  {
    forall i :: 0 <= i < |chain| ==> LiveAt(chain[i], now)
  }

  predicate Linked(chain: seq<Grant>, upTo: nat)
    requires upTo < |chain|
  {
    forall i :: 0 <= i < upTo ==> Attenuates(chain[i], chain[i + 1])
  }

  /** The fault a chain is refused for: no root, else something that is not live, else the
      first link that goes to the wrong parent or widens its parent. */
  ghost predicate IsFault(fault: Refusal, chain: seq<Grant>, now: int)
  {
    if !Rooted(chain) then fault == BrokenChain
    else if !AllLive(chain, now) then fault == NotLive
    else exists i :: 0 <= i < |chain| - 1 && Linked(chain, i) && BadLink(fault, chain[i], chain[i + 1])
  }

  predicate BadLink(fault: Refusal, child: Grant, parent: Grant)
  {
    if child.parent != Some(parent.id) then fault == BrokenChain
    else !Attenuates(child, parent) && fault == Amplifies
  }

  /** A chain passes exactly when it is in order, and otherwise the fault is named. */
  method CheckChain(chain: seq<Grant>, now: int) returns (fault: Option<Refusal>)
    ensures fault.None? <==> ChainOk(chain, now)
    ensures fault.Some? ==> IsFault(fault.value, chain, now)
  {
    hide LiveAt, Attenuates;
    if !Rooted(chain) {
      return Some(BrokenChain);
    }
    for i := 0 to |chain|
      invariant forall j :: 0 <= j < i ==> LiveAt(chain[j], now)
    {
      if !LiveAt(chain[i], now) {
        return Some(NotLive);
      }
    }
    for i := 0 to |chain| - 1
      invariant Linked(chain, i)
    {
      AttenuationNamesParent(chain[i], chain[i + 1]);
      if chain[i].parent != Some(chain[i + 1].id) {
        assert BadLink(BrokenChain, chain[i], chain[i + 1]);
        return Some(BrokenChain);
      }
      if !Attenuates(chain[i], chain[i + 1]) {
        assert BadLink(Amplifies, chain[i], chain[i + 1]);
        return Some(Amplifies);
      }
    }
    fault := None;
  }

  lemma AttenuationNamesParent(child: Grant, parent: Grant)
    ensures Attenuates(child, parent) ==> child.parent == Some(parent.id)
  {
  }

  // ---------------------------------------------------------------- delegation

  datatype Registered = Registered(delegable: bool, resource: string, subjects: set<SubjectKind>)

  datatype Request = Request(
    id: Id,
    subject: Subject,
    actions: set<Action>,
    resource: Selector,
    delegable: set<Action>,
    maxDepth: nat,
    notBefore: int,
    expires: Option<int>
  )

  function Min(a: int, b: int): int { if a <= b then a else b }

  function Earliest(requested: Option<int>, limit: Option<int>): (expires: Option<int>)
  {
    if requested.Some? && limit.Some? then Some(Min(requested.value, limit.value))
    else if limit.None? then requested
    else limit
  }

  /** The actions of a request that can be delegated on a resource of `kind`. */
  function Delegable(registry: map<Action, Registered>, actions: set<Action>, kind: string): (some: set<Action>)
  {
    set a | a in actions && a in registry && registry[a].delegable && registry[a].resource == kind
  }

  /** Why one action stops a delegation. */
  function Offence(registry: map<Action, Registered>, action: Action, kind: string, holder: SubjectKind): (refusal: Option<Refusal>)
  {
    if action !in registry then Some(UnknownAction)
    else if registry[action].delegable && registry[action].resource == kind && holder !in registry[action].subjects
    then Some(SubjectNotAllowed)
    else None
  }

  /** `refusal` is the offence of the first offending action in byte order. */
  ghost predicate IsFirstOffence(refusal: Refusal, registry: map<Action, Registered>, actions: set<Action>, kind: string, holder: SubjectKind)
  {
    exists a :: a in actions && Offence(registry, a, kind, holder) == Some(refusal)
                && forall b :: b in actions && Offence(registry, b, kind, holder).Some? ==> AtMost(a, b)
  }

  predicate NoOffence(registry: map<Action, Registered>, actions: set<Action>, kind: string, holder: SubjectKind)
  {
    forall a :: a in actions ==> Offence(registry, a, kind, holder).None?
  }

  function Child(request: Request, parent: Grant, resource: Selector, actions: set<Action>, policyVersion: string): (child: Grant)
    requires 0 < parent.maxDepth
  {
    Grant(request.id, request.subject, parent.subject, actions, resource,
          request.delegable * actions,
          Min(request.maxDepth, parent.maxDepth - 1),
          Some(parent.id),
          if request.notBefore >= parent.notBefore then request.notBefore else parent.notBefore,
          Earliest(request.expires, parent.expires),
          None, policyVersion)
  }

  /** A child is live exactly while both the request and the parent's window allow. */
  lemma ChildWindow(request: Request, parent: Grant, resource: Selector, actions: set<Action>, policyVersion: string, now: int)
    requires 0 < parent.maxDepth
    ensures LiveAt(Child(request, parent, resource, actions, policyVersion), now) <==>
            && request.notBefore <= now && (request.expires.Some? ==> now < request.expires.value)
            && parent.notBefore <= now && (parent.expires.Some? ==> now < parent.expires.value)
  {
  }

  /** Why there is nothing to delegate from: the chain is faulty, held by somebody else,
      used up, or about other resources. */
  ghost predicate IsRefused(refusal: Refusal, chain: seq<Grant>, delegator: Subject, request: Request, now: int)
  {
    if !ChainOk(chain, now) then IsFault(refusal, chain, now)
    else if chain[0].subject != delegator then refusal == NotHolder
    else if chain[0].maxDepth == 0 then refusal == DepthExhausted
    else Intersect(request.resource, chain[0].resource).None? && refusal == ResourceOutside
  }

  predicate Reaches(chain: seq<Grant>, delegator: Subject, request: Request, now: int)
  {
    && ChainOk(chain, now) && chain[0].subject == delegator && 0 < chain[0].maxDepth
    && Intersect(request.resource, chain[0].resource).Some?
  }

  /** `child` is what the holder of `parent` bestows on request: to the subject asked for,
      exactly the requested actions that the parent may pass on and the registry lets pass on
      this resource, of them exactly those asked for may be passed on again, on what both the
      request and the parent cover, and one level less deep than the parent at most. */
  ghost predicate Bestowed(child: Grant, registry: map<Action, Registered>, parent: Grant, request: Request, policyVersion: string)
  {
    && child.id == request.id && child.subject == request.subject && child.policyVersion == policyVersion
    && child.issuer == parent.subject && child.parent == Some(parent.id) && child.revoked == None
    && (forall a :: a in child.actions <==>
          && a in request.actions && a in parent.delegable
          && a in registry && registry[a].delegable && registry[a].resource == child.resource.kind)
    && (forall a :: a in child.delegable <==> a in request.delegable && a in child.actions)
    && (forall kind, id :: Covers(child.resource, kind, id) <==>
          Covers(request.resource, kind, id) && Covers(parent.resource, kind, id))
    && child.maxDepth < parent.maxDepth && child.maxDepth <= request.maxDepth
    && (child.maxDepth == request.maxDepth || child.maxDepth + 1 == parent.maxDepth)
    && forall now :: LiveAt(child, now) <==>
         && request.notBefore <= now && (request.expires.Some? ==> now < request.expires.value)
         && parent.notBefore <= now && (parent.expires.Some? ==> now < parent.expires.value)
  }

  /** What a delegation answers, for every request. */
  ghost predicate IsAnswer(answer: Result<Grant, Refusal>, registry: map<Action, Registered>, chain: seq<Grant>,
                           delegator: Subject, request: Request, policyVersion: string, now: int)
  {
    if !Reaches(chain, delegator, request, now) then answer.Err? && IsRefused(answer.error, chain, delegator, request, now)
    else
      var parent, resource := chain[0], Intersect(request.resource, chain[0].resource).value;
      var offered, holder := request.actions * parent.delegable, request.subject.kind;
      var actions := Delegable(registry, offered, resource.kind);
      if !NoOffence(registry, offered, resource.kind, holder)
      then answer.Err? && IsFirstOffence(answer.error, registry, offered, resource.kind, holder)
      else if actions == {} then answer == Err(NothingDelegable)
      else answer.Ok? && Bestowed(answer.value, registry, parent, request, policyVersion)
  }

  lemma ChildIsBestowed(registry: map<Action, Registered>, parent: Grant, request: Request, resource: Selector, policyVersion: string)
    requires 0 < parent.maxDepth && Intersect(request.resource, parent.resource) == Some(resource)
    ensures var actions := Delegable(registry, request.actions * parent.delegable, resource.kind);
            Bestowed(Child(request, parent, resource, actions, policyVersion), registry, parent, request, policyVersion)
  {
    var actions := Delegable(registry, request.actions * parent.delegable, resource.kind);
    var child := Child(request, parent, resource, actions, policyVersion);
    forall kind, id ensures Covers(child.resource, kind, id) <==>
                            Covers(request.resource, kind, id) && Covers(parent.resource, kind, id) {
      IntersectionIsMeet(request.resource, parent.resource, kind, id);
    }
    forall now ensures LiveAt(child, now) <==>
                       && request.notBefore <= now && (request.expires.Some? ==> now < request.expires.value)
                       && parent.notBefore <= now && (parent.expires.Some? ==> now < parent.expires.value) {
      ChildWindow(request, parent, resource, actions, policyVersion, now);
    }
  }

  /** The loop over offered actions, in byte order. */
  method Collect(registry: map<Action, Registered>, offered: set<Action>, kind: string, holder: SubjectKind)
    returns (answer: Result<set<Action>, Refusal>)
    ensures answer.Ok? <==> NoOffence(registry, offered, kind, holder)
    ensures answer.Ok? ==> answer.value == Delegable(registry, offered, kind)
    ensures answer.Err? ==> IsFirstOffence(answer.error, registry, offered, kind, holder)
  {
    hide AtMost, Offence, Delegable, NoOffence, IsFirstOffence;
    var todo, actions: set<Action> := offered, {};
    NothingYet(registry, offered, kind, holder);
    while todo != {}
      invariant todo <= offered
      invariant actions == Delegable(registry, offered - todo, kind)
      invariant NoOffence(registry, offered - todo, kind, holder)
      decreases |todo|
    {
      var action := Least(todo);
      CollectOne(registry, offered, todo, action, kind, holder);
      todo := todo - {action};
      if action !in registry {
        return Err(UnknownAction);
      }
      if registry[action].delegable && registry[action].resource == kind {
        if holder !in registry[action].subjects {
          return Err(SubjectNotAllowed);
        }
        actions := actions + {action};
      }
    }
    assert offered - {} == offered;
    answer := Ok(actions);
  }

  lemma NothingYet(registry: map<Action, Registered>, offered: set<Action>, kind: string, holder: SubjectKind)
    ensures Delegable(registry, offered - offered, kind) == {} && NoOffence(registry, offered - offered, kind, holder)
  {
  }

  lemma CollectOne(registry: map<Action, Registered>, offered: set<Action>, todo: set<Action>, action: Action, kind: string, holder: SubjectKind)
    requires todo <= offered && IsLeast(action, todo) && NoOffence(registry, offered - todo, kind, holder)
    ensures match Offence(registry, action, kind, holder)
            case Some(refusal) =>
              IsFirstOffence(refusal, registry, offered, kind, holder) && !NoOffence(registry, offered, kind, holder)
            case None => NoOffence(registry, offered - (todo - {action}), kind, holder)
    ensures Offence(registry, action, kind, holder) ==
            if action !in registry then Some(UnknownAction)
            else if registry[action].delegable && registry[action].resource == kind && holder !in registry[action].subjects
            then Some(SubjectNotAllowed) else None
    ensures Delegable(registry, offered - (todo - {action}), kind) ==
            Delegable(registry, offered - todo, kind) +
            if action in registry && registry[action].delegable && registry[action].resource == kind then {action} else {}
  {
    hide AtMost;
  }

  /** Make a narrower grant out of `chain[0]` for the requested subject, or say why not. */
  method Delegate(registry: map<Action, Registered>, chain: seq<Grant>, delegator: Subject, request: Request, policyVersion: string, now: int)
    returns (answer: Result<Grant, Refusal>)
    ensures IsAnswer(answer, registry, chain, delegator, request, policyVersion, now)
    ensures answer.Ok? ==> ChainOk(chain, now) && Attenuates(answer.value, chain[0])
    ensures answer.Ok? ==> (ChainOk([answer.value] + chain, now) <==> LiveAt(answer.value, now))
  {
    hide Attenuates, LiveAt, Intersect, ChainOk, IsFault, NoOffence, IsFirstOffence, Delegable;
    var fault := CheckChain(chain, now);
    if fault.Some? {
      return Err(fault.value);
    }
    ChainHasHead(chain, now);
    var parent := chain[0];
    if parent.subject != delegator {
      return Err(NotHolder);
    }
    if parent.maxDepth == 0 {
      return Err(DepthExhausted);
    }
    var both := Intersect(request.resource, parent.resource);
    if both.None? {
      return Err(ResourceOutside);
    }
    var offered := request.actions * parent.delegable;
    var collected := Collect(registry, offered, both.value.kind, request.subject.kind);
    if collected.Err? {
      return Err(collected.error);
    }
    if collected.value == {} {
      return Err(NothingDelegable);
    }
    var child := Child(request, parent, both.value, collected.value, policyVersion);
    DelegableIsOffered(registry, offered, both.value.kind);
    ChildIsBestowed(registry, parent, request, both.value, policyVersion);
    hide Bestowed;
    DelegationAttenuates(request, parent, collected.value, policyVersion);
    ExtendChain(child, chain, now);
    answer := Ok(child);
  }

  lemma ChainHasHead(chain: seq<Grant>, now: int)
    ensures ChainOk(chain, now) ==> chain != []
  {
  }

  lemma DelegableIsOffered(registry: map<Action, Registered>, offered: set<Action>, kind: string)
    ensures Delegable(registry, offered, kind) <= offered
  {
  }

  lemma DelegationAttenuates(request: Request, parent: Grant, actions: set<Action>, policyVersion: string)
    requires 0 < parent.maxDepth && actions <= parent.delegable
    requires Intersect(request.resource, parent.resource).Some?
    ensures Attenuates(Child(request, parent, Intersect(request.resource, parent.resource).value, actions, policyVersion), parent)
  {
    IntersectionIsMeet(request.resource, parent.resource, "", "");
  }

  lemma ExtendChain(child: Grant, chain: seq<Grant>, now: int)
    requires ChainOk(chain, now) && Attenuates(child, chain[0])
    ensures ChainOk([child] + chain, now) <==> LiveAt(child, now)
  {
    var longer := [child] + chain;
    if LiveAt(child, now) {
      forall i | 0 <= i < |longer| - 1 ensures Attenuates(longer[i], longer[i + 1]) {
        assert i > 0 ==> Attenuates(chain[i - 1], chain[i]);
      }
    } else {
      assert longer[0] == child;
    }
  }
}
