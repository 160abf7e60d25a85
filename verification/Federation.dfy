/** Serving one federated request: the destination's own check of the envelope, the nonce
    and answer records, and the order in which `serve` uses them. */
module Federation {
  import opened Wrappers
  import opened Collections

  const MAX_HOP_LIMIT: nat := 4
  const MAX_LIFETIME: int := 60_000

  datatype Envelope = Envelope(
    requestId: string,
    source: string,
    destination: string,
    subject: string,
    target: string,
    action: string,
    payloadDigest: string,
    issued: int,
    expires: int,
    nonce: string,
    hopLimit: nat,
    version: string
  )

  datatype EnvelopeError =
    | UnknownVersion
    | WrongDestination
    | SelfAddressed
    | Expired
    | LifetimeTooLong
    | HopLimitTooHigh
    | InvalidNonce
    | Replay
    | InvalidDigest
    | Incomplete

  predicate IsHex(c: char)
  {
    '0' <= c <= '9' || 'a' <= c <= 'f' || 'A' <= c <= 'F'
  }

  predicate IsDigest(text: string)
  {
    |text| == 71 && text[..7] == "sha256:" && forall i :: 7 <= i < |text| ==> IsHex(text[i])
  }

  /** Why this node refuses an envelope, in the order the checks are made. */
  function Check(e: Envelope, node: string, now: int, seen: bool): (error: Option<EnvelopeError>)
  {
    if e.version != "1" then Some(UnknownVersion)
    else if e.destination != node then Some(WrongDestination)
    else if e.source == e.destination then Some(SelfAddressed)
    else if e.expires <= e.issued then Some(Expired)
    else if e.expires - e.issued > MAX_LIFETIME then Some(LifetimeTooLong)
    else if now >= e.expires then Some(Expired)
    else if e.hopLimit > MAX_HOP_LIMIT then Some(HopLimitTooHigh)
    else if e.nonce == "" || |e.nonce| > 128 then Some(InvalidNonce)
    else if seen then Some(Replay)
    else if !IsDigest(e.payloadDigest) then Some(InvalidDigest)
    else if e.action == "" || e.subject == "" || e.target == "" then Some(Incomplete)
    else None
  }

  /** Everything about an envelope that does not depend on when or how often it comes. */
  predicate WellFormed(e: Envelope, node: string)
  {
    && e.version == "1" && e.destination == node && e.source != node
    && e.issued < e.expires <= e.issued + MAX_LIFETIME
    && e.hopLimit <= MAX_HOP_LIMIT && 0 < |e.nonce| <= 128
    && IsDigest(e.payloadDigest)
    && e.action != "" && e.subject != "" && e.target != ""
  }

  /** An envelope is accepted exactly when it is well formed, unseen and not expired. */
  lemma AcceptedIff(e: Envelope, node: string, now: int, seen: bool)
    ensures Check(e, node, now, seen).None? <==> WellFormed(e, node) && !seen && now < e.expires
    ensures seen && WellFormed(e, node) && now < e.expires ==> Check(e, node, now, seen) == Some(Replay)
  {
  }

  /** The checks in their order: what each is about, and whether the envelope passes it. */
  function Checks(e: Envelope, node: string, now: int, seen: bool): (checks: seq<(EnvelopeError, bool)>)
  {
    [(UnknownVersion, e.version == "1"),
     (WrongDestination, e.destination == node),
     (SelfAddressed, e.source != e.destination),
     (Expired, e.issued < e.expires),
     (LifetimeTooLong, e.expires <= e.issued + MAX_LIFETIME),
     (Expired, now < e.expires),
     (HopLimitTooHigh, e.hopLimit <= MAX_HOP_LIMIT),
     (InvalidNonce, 1 <= |e.nonce| <= 128),
     (Replay, !seen),
     (InvalidDigest, IsDigest(e.payloadDigest)),
     (Incomplete, |e.action| > 0 && |e.subject| > 0 && |e.target| > 0)]
  }

  lemma CheckIsFirstFailed(e: Envelope, node: string, now: int, seen: bool)
    ensures FirstFailed(Checks(e, node, now, seen), Check(e, node, now, seen))
  {
    hide IsDigest;
    var checks, error := Checks(e, node, now, seen), Check(e, node, now, seen);
    var c := checks;
    var i := if !c[0].1 then 0 else if !c[1].1 then 1 else if !c[2].1 then 2 else if !c[3].1 then 3
             else if !c[4].1 then 4 else if !c[5].1 then 5 else if !c[6].1 then 6 else if !c[7].1 then 7
             else if !c[8].1 then 8 else if !c[9].1 then 9 else if !c[10].1 then 10 else 11;
    assert error == if i < 11 then Some(checks[i].0) else None;
  }

  // ---------------------------------------------------------------- keys and names

  function NonceKey(source: string, nonce: string): (key: string)
  {
    source + "::" + nonce
  }

  /** Two envelopes share a nonce record only if source and nonce agree: a source is a
      node identifier, which has no colon. */
  lemma NonceKeysSeparate(s1: string, n1: string, s2: string, n2: string)
    requires ':' !in s1 && ':' !in s2
    ensures NonceKey(s1, n1) == NonceKey(s2, n2) <==> s1 == s2 && n1 == n2
  {
    if NonceKey(s1, n1) == NonceKey(s2, n2) {
      assert NonceKey(s1, n1) == s1 + [':'] + (":" + n1) && NonceKey(s2, n2) == s2 + [':'] + (":" + n2);
      SplitAtSeparator(':', s1, ":" + n1, s2, ":" + n2);
      assert n1 == (":" + n1)[1..] && n2 == (":" + n2)[1..];
    }
  }

  predicate NamesTarget(text: string)
  {
    IndexOf(text, ':') < |text|
  }

  /** The text before the colon is one of the two kinds that may act through a federation,
      and an identifier follows. */
  predicate NamesSubject(text: string, isId: string -> bool)
  {
    var at := IndexOf(text, ':');
    at < |text| && (text[..at] == "workload" || text[..at] == "creature") && isId(text[at + 1..])
  }

  /** Texts that name a target hold a colon; those that name a subject are a workload or a
      creature, a colon and an identifier. */
  lemma NamesMean(text: string, isId: string -> bool)
    ensures NamesTarget(text) <==> ':' in text
    ensures NamesSubject(text, isId) <==>
            exists id :: isId(id) && (text == "workload" + ":" + id || text == "creature" + ":" + id)
  {
    hide IndexOf;
    var at := IndexOf(text, ':');
    if NamesSubject(text, isId) {
      assert text == text[..at] + ":" + text[at + 1..];
    }
    forall id | isId(id) && (text == "workload" + ":" + id || text == "creature" + ":" + id) ensures NamesSubject(text, isId) {
      if text == "workload" + ":" + id {
        SubjectNamed("workload", id, isId);
      } else {
        SubjectNamed("creature", id, isId);
      }
    }
  }

  lemma SubjectNamed(kind: string, id: string, isId: string -> bool)
    requires (kind == "workload" || kind == "creature") && isId(id)
    ensures NamesSubject(kind + ":" + id, isId)
  {
    hide IndexOf;
    ColonAfter(kind, id);
  }

  // ---------------------------------------------------------------- sending

  /** The envelope a node sends. The request id is also its nonce. */
  function Outgoing(requestId: string, source: string, destination: string, kind: string, id: string,
                    targetKind: string, targetId: string, action: string, digest: string, now: int): (e: Envelope)
  {
    Envelope(requestId, source, destination, kind + ":" + id, targetKind + ":" + targetId, action,
             "sha256:" + digest, now, now + MAX_LIFETIME, requestId, 0, "1")
  }

  lemma ColonAfter(kind: string, id: string)
    requires ':' !in kind
    ensures IndexOf(kind + ":" + id, ':') == |kind|
    ensures (kind + ":" + id)[..|kind|] == kind && (kind + ":" + id)[|kind| + 1..] == id
  {
    var text := kind + ":" + id;
    assert text[|kind|] == ':' && forall i :: 0 <= i < |kind| ==> text[i] == kind[i];
    hide IndexOf;
    assert IndexOf(text, ':') <= |kind| <= IndexOf(text, ':');
  }

  /** What one node sends the other accepts: on first sight, from any clock that is not yet
      a minute past the sender's, exactly when an action is named; and it names a subject
      and a target the other side can read. */
  lemma SentIsAccepted(requestId: string, source: string, destination: string, kind: string, id: string,
                       targetKind: string, targetId: string, action: string, digest: string, now: int,
                       at: int, isId: string -> bool)
    requires source != destination && 0 < |requestId| <= 128
    requires kind == "workload" || kind == "creature"
    requires |digest| == 64 && forall i :: 0 <= i < 64 ==> IsHex(digest[i])
    ensures var e := Outgoing(requestId, source, destination, kind, id, targetKind, targetId, action, digest, now);
            && (Check(e, destination, at, false).None? <==> action != "" && at < now + MAX_LIFETIME)
            && e.source == source && e.action == action && e.nonce == e.requestId == requestId
            && NamesTarget(e.target)
            && (NamesSubject(e.subject, isId) <==> isId(id))
  {
    var e := Outgoing(requestId, source, destination, kind, id, targetKind, targetId, action, digest, now);
    var text := "sha256:" + digest;
    assert text[..7] == "sha256:" && forall i :: 7 <= i < 71 ==> text[i] == digest[i - 7];
    AcceptedIff(e, destination, at, false);
    ColonAfter(kind, id);
    assert e.target[|targetKind|] == ':';
  }

  /** Whatever is different about two requests shows in their envelopes. */
  lemma OutgoingSeparates(r1: string, s1: string, d1: string, kind1: string, id1: string, tk1: string, ti1: string,
                          a1: string, g1: string, n1: int,
                          r2: string, s2: string, d2: string, kind2: string, id2: string, tk2: string, ti2: string,
                          a2: string, g2: string, n2: int)
    requires ':' !in kind1 && ':' !in kind2 && ':' !in tk1 && ':' !in tk2
    requires Outgoing(r1, s1, d1, kind1, id1, tk1, ti1, a1, g1, n1) == Outgoing(r2, s2, d2, kind2, id2, tk2, ti2, a2, g2, n2)
    ensures r1 == r2 && s1 == s2 && d1 == d2 && kind1 == kind2 && id1 == id2 && tk1 == tk2 && ti1 == ti2
    ensures a1 == a2 && g1 == g2 && n1 == n2
  {
    hide IndexOf;
    ColonAfter(kind1, id1);
    ColonAfter(kind2, id2);
    ColonAfter(tk1, ti1);
    ColonAfter(tk2, ti2);
    assert g1 == ("sha256:" + g1)[7..] && g2 == ("sha256:" + g2)[7..];
  }

  // ---------------------------------------------------------------- descriptors

  datatype Descriptor = Descriptor(sequence: nat, keyEpoch: nat, revokedEpochs: set<nat>, text: string)

  predicate SelfRevoked(d: Descriptor)
  {
    d.keyEpoch in d.revokedEpochs
  }

  /** The cached descriptor after one more is received: it only ever moves forward. */
  function Cached(cached: Option<Descriptor>, received: Descriptor): (next: Option<Descriptor>)
  {
    if SelfRevoked(received) then cached
    else if cached.Some? && received.sequence <= cached.value.sequence then cached
    else Some(received)
  }

  function CachedAll(received: seq<Descriptor>): (cached: Option<Descriptor>)
  {
    if received == [] then None else Cached(CachedAll(received[..|received| - 1]), received[|received| - 1])
  }

  /** `received[k]` does not revoke itself, none received is newer, and it is the first to
      arrive of its sequence. */
  predicate Stands(received: seq<Descriptor>, k: nat)
  {
    && k < |received| && !SelfRevoked(received[k])
    && (forall i :: 0 <= i < |received| && !SelfRevoked(received[i]) ==> received[i].sequence <= received[k].sequence)
    && (forall i :: 0 <= i < k && !SelfRevoked(received[i]) ==> received[i].sequence < received[k].sequence)
  }

  lemma StandsOn(before: seq<Descriptor>, k: nat, last: Descriptor)
    requires Stands(before, k)
    ensures Stands(before + [last], if SelfRevoked(last) || last.sequence <= before[k].sequence then k else |before|)
  {
    var received := before + [last];
    assert forall i :: 0 <= i < |before| ==> received[i] == before[i];
  }

  lemma StandsFirst(before: seq<Descriptor>, last: Descriptor)
    requires (forall i :: 0 <= i < |before| ==> SelfRevoked(before[i])) && !SelfRevoked(last)
    ensures Stands(before + [last], |before|)
  {
    assert forall i :: 0 <= i < |before| ==> (before + [last])[i] == before[i];
  }

  /** However descriptors are delayed, repeated and reordered, what is cached is one of
      those received that do not revoke themselves, none received was newer, and the
      first to arrive of its sequence stands. */
  lemma {:induction false} NewestStands(received: seq<Descriptor>)
    ensures CachedAll(received).None? <==> forall i :: 0 <= i < |received| ==> SelfRevoked(received[i])
    ensures CachedAll(received).Some? ==> exists k: nat :: Stands(received, k) && received[k] == CachedAll(received).value
    decreases |received|
  {
    hide SelfRevoked;
    if received != [] {
      var before, last := received[..|received| - 1], received[|received| - 1];
      NewestStands(before);
      assert received == before + [last];
      assert forall i :: 0 <= i < |before| ==> received[i] == before[i];
      if CachedAll(before).Some? {
        var k: nat :| Stands(before, k) && before[k] == CachedAll(before).value;
        StandsOn(before, k, last);
      } else if !SelfRevoked(last) {
        StandsFirst(before, last);
      }
    }
  }

  // ---------------------------------------------------------------- the guard and serving

  datatype Recorded = Recorded(answer: string, expires: int)

  datatype Refusal =
    | BadEnvelope(error: EnvelopeError)
    | UnknownPeer
    | UnknownSubject
    | UnknownTarget
    | Denied

  datatype Served =
    | Replayed(answer: string)
    | Refused(refusal: Refusal)
    | Executed(answer: string)
    | EffectFailed

  /** What the rest of the node says about a request. */
  datatype World = World(peerKnown: bool, isId: string -> bool, allowed: bool, effect: Option<string>)

  predicate Admitted(e: Envelope, world: World)
  {
    world.peerKnown && NamesSubject(e.subject, world.isId) && NamesTarget(e.target) && world.allowed
  }

  class Guard {
    var nonces: map<string, int>
    var answers: map<string, Recorded>

    method RememberNonce(e: Envelope) returns (first: bool)
      modifies this`nonces
      ensures var key := NonceKey(e.source, e.nonce);
              && first == (key !in old(nonces))
              && nonces == if first then old(nonces)[key := e.expires] else old(nonces)
    {
      var key := NonceKey(e.source, e.nonce);
      first := key !in nonces;
      if first {
        nonces := nonces[key := e.expires];
      }
    }

    method ForgetNonce(e: Envelope)
      modifies this`nonces
      ensures nonces == old(nonces) - {NonceKey(e.source, e.nonce)}
    {
      nonces := nonces - {NonceKey(e.source, e.nonce)};
    }

    /** The first answer recorded stands. */
    method RecordAnswer(requestId: string, answer: string, expires: int)
      modifies this`answers
      ensures answers == if requestId in old(answers) then old(answers)
                         else old(answers)[requestId := Recorded(answer, expires)]
    {
      if requestId !in answers {
        answers := answers[requestId := Recorded(answer, expires)];
      }
    }

    /** Remove exactly what expired before `now`. */
    method PurgeExpired(now: int) returns (removed: nat)
      modifies this
      ensures nonces == map k | k in old(nonces) && now <= old(nonces)[k] :: old(nonces)[k]
      ensures answers == map k | k in old(answers) && now <= old(answers)[k].expires :: old(answers)[k]
      ensures removed == |old(nonces)| - |nonces| + |old(answers)| - |answers|
    {
      var n, a := |nonces|, |answers|;
      var keptNonces := map k | k in nonces && now <= nonces[k] :: nonces[k];
      var keptAnswers := map k | k in answers && now <= answers[k].expires :: answers[k];
      Fewer(keptNonces, nonces);
      Fewer(keptAnswers, answers);
      nonces, answers := keptNonces, keptAnswers;
      removed := n - |nonces| + a - |answers|;
    }

    /** Serve one request: answer from the record, else check, authorize and execute. The
        effect runs only for an envelope accepted at `now`, first seen now, from a known
        peer, for a subject the policy allows. Its answer is recorded; a failed effect
        leaves no trace; a refusal keeps the nonce. */
    method Serve(e: Envelope, node: string, now: int, world: World) returns (served: Served, ran: bool)
      modifies this
      ensures ran <==>
              && e.requestId !in old(answers)
              && WellFormed(e, node) && now < e.expires
              && NonceKey(e.source, e.nonce) !in old(nonces)
              && Admitted(e, world)
      ensures e.requestId in old(answers) ==>
                served == Replayed(old(answers)[e.requestId].answer) && nonces == old(nonces) && answers == old(answers)
      ensures ran && world.effect.Some? ==>
                && served == Executed(world.effect.value)
                && answers == old(answers)[e.requestId := Recorded(world.effect.value, e.expires)]
                && nonces == old(nonces)[NonceKey(e.source, e.nonce) := e.expires]
      ensures ran && world.effect.None? ==> served == EffectFailed && nonces == old(nonces) && answers == old(answers)
      ensures !ran && e.requestId !in old(answers) ==>
                && served.Refused? && answers == old(answers)
                && var sound := WellFormed(e, node) && now < e.expires && NonceKey(e.source, e.nonce) !in old(nonces);
                && (served.refusal.BadEnvelope? <==> !sound)
                && (served.refusal.BadEnvelope? ==>
                      FirstFailed(Checks(e, node, now, NonceKey(e.source, e.nonce) in old(nonces)), Some(served.refusal.error)))
                && (served.refusal == UnknownPeer <==> sound && !world.peerKnown)
                && (served.refusal == UnknownSubject <==> sound && world.peerKnown && !NamesSubject(e.subject, world.isId))
                && (served.refusal == UnknownTarget <==>
                      sound && world.peerKnown && NamesSubject(e.subject, world.isId) && !NamesTarget(e.target))
                && (served.refusal == Refusal.Denied ==> !world.allowed)
                && nonces == if NonceKey(e.source, e.nonce) in old(nonces) then old(nonces)
                             else old(nonces)[NonceKey(e.source, e.nonce) := e.expires]
    {
      ran := false;
      if e.requestId in answers {
        return Replayed(answers[e.requestId].answer), ran;
      }
      var first := RememberNonce(e);
      var error := Check(e, node, now, !first);
      AcceptedIff(e, node, now, !first);
      CheckIsFirstFailed(e, node, now, !first);
      hide Check, Checks, FirstFailed, WellFormed, NamesSubject, NamesTarget;
      if error.Some? {
        return Refused(BadEnvelope(error.value)), ran;
      }
      if !world.peerKnown {
        return Refused(UnknownPeer), ran;
      }
      if !NamesSubject(e.subject, world.isId) {
        return Refused(UnknownSubject), ran;
      }
      if !NamesTarget(e.target) {
        return Refused(UnknownTarget), ran;
      }
      if !world.allowed {
        return Refused(Refusal.Denied), ran;
      }
      ran := true;
      if world.effect.None? {
        ForgetNonce(e);
        assert nonces == old(nonces);
        return EffectFailed, ran;
      }
      RecordAnswer(e.requestId, world.effect.value, e.expires);
      served := Executed(world.effect.value);
    }
  }

  lemma Fewer<K, V>(part: map<K, V>, whole: map<K, V>)
    requires part.Keys <= whole.Keys
    ensures |part| <= |whole|
  {
    assert |part.Keys| <= |whole.Keys| by {
      SubsetSize(part.Keys, whole.Keys);
    }
  }
}
