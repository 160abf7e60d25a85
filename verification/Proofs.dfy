/** Authenticating a signed-request proof: the checks in their order, and the nonce record
    that makes a proof good for one use. */
module Proofs {
  import opened Wrappers
  import opened Collections

  datatype Policy = Policy(audience: string, skew: int, maxLifetime: int)

  datatype Window = Window(issued: int, notBefore: int, expires: int)

  datatype AuthenticationError =
    | Malformed
    | UnknownKey
    | KeySubjectMismatch
    | EpochNotAccepted
    | EpochRefused
    | AudienceMismatch
    | NotYetValid
    | Expired
    | LifetimeTooLong
    | BodyDigestMismatch
    | BadSignature
    | Replayed

  /** The window a proof claims, against the verifier's clock. */
  function CheckWindow(w: Window, now: int, policy: Policy): (error: Option<AuthenticationError>)
  {
    if w.issued > w.notBefore || w.notBefore >= w.expires then Some(Malformed)
    else if w.expires - w.issued > policy.maxLifetime then Some(LifetimeTooLong)
    else if w.notBefore > now + policy.skew then Some(NotYetValid)
    else if now >= w.expires + policy.skew then Some(Expired)
    else None
  }

  /** How long the nonce of a proof must be remembered. */
  function RetainUntil(w: Window, policy: Policy): (until: int)
  {
    w.expires + policy.skew
  }

  /** A nonce is remembered for exactly as long as its proof could still pass: a proof that
      passes is inside its retention, and from its end on no later clock lets it pass. */
  lemma RetentionCoversWindow(w: Window, now: int, policy: Policy)
    ensures CheckWindow(w, now, policy).None? ==> now < RetainUntil(w, policy)
    ensures RetainUntil(w, policy) <= now ==> CheckWindow(w, now, policy).Some?
    ensures CheckWindow(w, now, policy).None? ==>
              forall t :: now <= t < RetainUntil(w, policy) ==> CheckWindow(w, t, policy).None?
  {
  }

  datatype Proof = Proof(
    keyId: string,
    keyEpoch: nat,
    subject: string,
    audience: string,
    window: Window,
    nonce: string,
    bodyDigest: string
  )

  datatype Key = Key(subject: string, epoch: nat)

  /** What the key directory and the verifier's cryptography say about a request. */
  datatype World = World(
    key: Option<Key>,
    epochAccepted: bool,     // purpose, revocation, validity and rotation of the epoch
    digest: string,          // of the body as received
    signed: bool
  )

  /** The first of the checks before replay that fails. */
  function FirstFailure(p: Proof, world: World, now: int, policy: Policy): (error: Option<AuthenticationError>)
  {
    if world.key.None? then Some(UnknownKey)
    else if world.key.value.subject != p.subject then Some(KeySubjectMismatch)
    else if world.key.value.epoch != p.keyEpoch then Some(EpochNotAccepted)
    else if !world.epochAccepted then Some(EpochRefused)
    else if p.audience != policy.audience then Some(AudienceMismatch)
    else if CheckWindow(p.window, now, policy).Some? then CheckWindow(p.window, now, policy)
    else if world.digest != p.bodyDigest then Some(BodyDigestMismatch)
    else if !world.signed then Some(BadSignature)
    else None
  }

  /** A proof gets as far as its nonce exactly when the key is the subject's, at the epoch
      the proof claims and accepted for it; the proof is for this verifier, inside its
      window, about this body, and signed. */
  lemma PassesIff(p: Proof, world: World, now: int, policy: Policy)
    ensures FirstFailure(p, world, now, policy).None? <==>
            && world.key == Some(Key(p.subject, p.keyEpoch)) && world.epochAccepted
            && p.audience == policy.audience
            && p.window.issued <= p.window.notBefore < p.window.expires <= p.window.issued + policy.maxLifetime
            && p.window.notBefore - policy.skew <= now < p.window.expires + policy.skew
            && world.digest == p.bodyDigest && world.signed
  {
  }

  /** The checks in their order: what each is about, and whether the proof passes it. */
  function Checks(p: Proof, world: World, now: int, policy: Policy): (checks: seq<(AuthenticationError, bool)>)
  {
    var w := p.window;
    [(UnknownKey, world.key.Some?),
     (KeySubjectMismatch, world.key.Some? && world.key.value.subject == p.subject),
     (EpochNotAccepted, world.key.Some? && world.key.value.epoch == p.keyEpoch),
     (EpochRefused, world.epochAccepted),
     (AudienceMismatch, p.audience == policy.audience),
     (Malformed, w.issued <= w.notBefore < w.expires),
     (LifetimeTooLong, w.expires <= w.issued + policy.maxLifetime),
     (NotYetValid, w.notBefore - policy.skew <= now),
     (Expired, now < w.expires + policy.skew),
     (BodyDigestMismatch, world.digest == p.bodyDigest),
     (BadSignature, world.signed)]
  }

  /** Among the window's checks alone. */
  lemma WindowFailure(w: Window, now: int, policy: Policy)
    ensures var error := CheckWindow(w, now, policy);
            && (error == Some(Malformed) <==> !(w.issued <= w.notBefore < w.expires))
            && (error == Some(LifetimeTooLong) <==>
                  w.issued <= w.notBefore < w.expires && w.issued + policy.maxLifetime < w.expires)
            && (error == Some(NotYetValid) <==>
                  && w.issued <= w.notBefore < w.expires <= w.issued + policy.maxLifetime
                  && now < w.notBefore - policy.skew)
            && (error == Some(Expired) <==>
                  && w.issued <= w.notBefore < w.expires <= w.issued + policy.maxLifetime
                  && w.notBefore - policy.skew <= now && w.expires + policy.skew <= now)
            && (error.Some? ==> error.value in {Malformed, LifetimeTooLong, NotYetValid, Expired})
  {
  }

  lemma FailureIsFirst(p: Proof, world: World, now: int, policy: Policy)
    ensures FirstFailed(Checks(p, world, now, policy), FirstFailure(p, world, now, policy))
  {
    var checks, error := Checks(p, world, now, policy), FirstFailure(p, world, now, policy);
    WindowFailure(p.window, now, policy);
    hide CheckWindow;
    var c := checks;
    var i := if !c[0].1 then 0 else if !c[1].1 then 1 else if !c[2].1 then 2 else if !c[3].1 then 3
             else if !c[4].1 then 4 else if !c[5].1 then 5 else if !c[6].1 then 6 else if !c[7].1 then 7
             else if !c[8].1 then 8 else if !c[9].1 then 9 else if !c[10].1 then 10 else 11;
    assert error == if i < 11 then Some(checks[i].0) else None;
  }

  function NonceKey(keyId: string, nonce: string): (key: string)
  {
    keyId + "|" + nonce
  }

  /** Nonces are written in hexadecimal, so the record key determines both parts. */
  lemma NonceKeysSeparate(k1: string, n1: string, k2: string, n2: string)
    requires '|' !in n1 && '|' !in n2
    ensures NonceKey(k1, n1) == NonceKey(k2, n2) <==> k1 == k2 && n1 == n2
  {
    if NonceKey(k1, n1) == NonceKey(k2, n2) {
      var whole, other := NonceKey(k1, n1), NonceKey(k2, n2);
      assert |whole| - |n1| - 1 == |k1| && |other| - |n2| - 1 == |k2|;
      assert whole[|k1|] == '|' && other[|k2|] == '|';
      assert n1 == whole[|k1| + 1..] && n2 == other[|k2| + 1..];
      assert k1 == whole[..|k1|] && k2 == other[..|k2|];
    }
  }

  class Authenticator {
    var nonces: map<string, int>  // retained until

    /** Record a nonce unless it is live at `now`. The retention of a nonce recorded in time
        only ever rises. */
    method RecordNonce(keyId: string, nonce: string, retainUntil: int, now: int) returns (recorded: bool)
      modifies this
      ensures var key := NonceKey(keyId, nonce);
              && recorded == !(key in old(nonces) && now < old(nonces)[key])
              && nonces == (if recorded then old(nonces)[key := retainUntil] else old(nonces))
              && (now < retainUntil ==> key in nonces && now < nonces[key])
              && (now < retainUntil && key in old(nonces) ==> old(nonces)[key] <= nonces[key])
    {
      var key := NonceKey(keyId, nonce);
      if key in nonces && now < nonces[key] {
        return false;
      }
      nonces := nonces[key := retainUntil];
      recorded := true;
    }

    method PurgeExpired(now: int)
      modifies this
      ensures nonces == map k | k in old(nonces) && now < old(nonces)[k] :: old(nonces)[k]
    {
      nonces := map k | k in nonces && now < nonces[k] :: nonces[k];
    }

    /** Authenticate a proof. It succeeds exactly when every check passes and its nonce is
        not live, and the answer to a failure is the first check that failed. Only a proof
        that passes everything else consumes its nonce, and afterwards the same proof is
        a replay at every time at which it could still pass. */
    method Authenticate(p: Proof, world: World, now: int, policy: Policy)
      returns (answer: Result<string, AuthenticationError>)
      modifies this
      ensures var failure := FirstFailure(p, world, now, policy);
              var key := NonceKey(p.keyId, p.nonce);
              && (failure.Some? ==>
                    answer.Err? && FirstFailed(Checks(p, world, now, policy), Some(answer.error)) && nonces == old(nonces))
              && (failure.None? && key in old(nonces) && now < old(nonces)[key] ==>
                    answer == Err(Replayed) && nonces == old(nonces))
              && (failure.None? && !(key in old(nonces) && now < old(nonces)[key]) ==>
                    && answer == Ok(p.subject)
                    && nonces == old(nonces)[key := p.window.expires + policy.skew])
      ensures answer.Ok? ==>
                forall t, w: World :: now <= t && FirstFailure(p, w, t, policy).None? ==>
                  t < nonces[NonceKey(p.keyId, p.nonce)]
    {
      var failure := FirstFailure(p, world, now, policy);
      FailureIsFirst(p, world, now, policy);
      if failure.Some? {
        return Err(failure.value);
      }
      var recorded := RecordNonce(p.keyId, p.nonce, RetainUntil(p.window, policy), now);
      if !recorded {
        return Err(Replayed);
      }
      answer := Ok(p.subject);
    }
  }
}
