/** Whose requests the agent handlers accept (controller/guardian/agent_security.py:124-184 and
    controller/guardian/api.py:4962-5596), stated on the stored rows alone. */
module IdentityAuthentication {
  import opened Base
  import opened IdentityLifecycle

  // ---------------------------------------------------------------- one certificate, one identity

  /** No two identities of the agent share a certificate, a serial number or a rotation. */
  ghost predicate Distinct(identities: seq<Identity>) {
    forall i, j | 0 <= i < j < |identities| ::
      && identities[i].credentials.fingerprint != identities[j].credentials.fingerprint
      && (identities[j].credentials.serial.Some? ==>
            identities[i].credentials.serial != identities[j].credentials.serial)
      && (identities[j].rotation.Some? ==> identities[i].rotation != identities[j].rotation)
  }

  /** The request brings a certificate whose fingerprint or serial number some identity has. */
  ghost predicate InUse(identities: seq<Identity>, c: Credentials) {
    exists id <- identities ::
      id.credentials.fingerprint == c.fingerprint || (c.serial.Some? && id.credentials.serial == c.serial)
  }

  lemma EnrolledIff(identities: seq<Identity>, c: Credentials)
    ensures Enrolled(identities, c) <==> InUse(identities, c)
  {
  }

  /** The rows after a step are the rows before it, with the same keys, and at most one more. */
  lemma StepGrows(a: Account, r: Request)
    ensures var b := Step(a, r);
            && |a.identities| <= |b.identities| <= |a.identities| + 1
            && forall i | 0 <= i < |a.identities| ::
                 b.identities[i].credentials == a.identities[i].credentials
                 && b.identities[i].rotation == a.identities[i].rotation
                 && b.identities[i].expiresAt == a.identities[i].expiresAt
  {
  }

  lemma NewIsDistinct(a: Account, r: Request)
    requires |Step(a, r).identities| == |a.identities| + 1
    ensures var id := Step(a, r).identities[|a.identities|];
            && !Enrolled(a.identities, id.credentials)
            && (id.rotation.Some? ==> FindRotation(a.identities, id.rotation.value).None?)
  {
  }

  lemma StepDistinct(a: Account, r: Request)
    requires Distinct(a.identities)
    ensures Distinct(Step(a, r).identities)
  {
    StepGrows(a, r);
    if |Step(a, r).identities| > |a.identities| {
      NewIsDistinct(a, r);
    }
  }

  /** Main result: over every run, a fingerprint, a serial number and a rotation each name at most
      one identity of the agent. */
  lemma {:induction false} DistinctOverRuns(first: Account, requests: seq<Request>)
    requires Distinct(first.identities)
    ensures Distinct(After(first, requests).identities)
  {
    if requests != [] {
      DistinctOverRuns(first, requests[..|requests| - 1]);
      StepDistinct(After(first, requests[..|requests| - 1]), requests[|requests| - 1]);
    }
  }

  // ---------------------------------------------------------------- who is accepted

  /** Active, retiring, or pending before its expiry. */
  predicate Live(id: Identity, now: int) {
    || id.state == Active
    || id.state == Retiring
    || (id.state == Pending && id.expiresAt.Some? && now < id.expiresAt.value)
  }

  lemma {:induction false} NobodyElse(identities: seq<Identity>, fingerprint: string, now: int, i: nat)
    requires i < |identities| && identities[i].credentials.fingerprint == fingerprint && Live(identities[i], now)
    ensures FindAuthenticated(identities, fingerprint, now).Some?
  {
    if i < |identities| - 1 && !Authenticates(identities[|identities| - 1], fingerprint, now) {
      NobodyElse(identities[..|identities| - 1], fingerprint, now, i);
    }
  }

  /** The look-up finds identity `i` exactly when its fingerprint is the one asked for and it is
      live. */
  lemma FoundIff(identities: seq<Identity>, fingerprint: string, now: int, i: nat)
    requires Distinct(identities) && i < |identities|
    ensures FindAuthenticated(identities, fingerprint, now) == Some(i)
       <==> identities[i].credentials.fingerprint == fingerprint && Live(identities[i], now)
  {
    if identities[i].credentials.fingerprint == fingerprint && Live(identities[i], now) {
      NobodyElse(identities, fingerprint, now, i);
    }
  }

  lemma FoundIsOwn(identities: seq<Identity>, fingerprint: string, now: int, i: nat)
    requires Distinct(identities) && i < |identities| && identities[i].credentials.fingerprint == fingerprint
    ensures FindAuthenticated(identities, fingerprint, now) in {None, Some(i)}
  {
  }

  /** Main result: a heartbeat is accepted if and only if the agent is not revoked and the
      fingerprint is that of a live identity, and it counts for that identity while pending. */
  lemma HeartbeatAcceptedIff(a: Account, i: nat, now: int)
    requires Distinct(a.identities) && i < |a.identities|
    ensures var id := a.identities[i];
            var h := Handle(a, Heartbeat(id.credentials.fingerprint, now));
            && (h.Some? <==> !a.agent.revoked && Live(id, now))
            && (h.Some? ==> h.value == a.(identities := a.identities[i :=
                 if id.state == Pending then id.(heartbeats := id.heartbeats + 1, verified := true) else id]))
  {
    var fingerprint := a.identities[i].credentials.fingerprint;
    FoundIff(a.identities, fingerprint, now, i);
    FoundIsOwn(a.identities, fingerprint, now, i);
    assert a.identities[i := a.identities[i]] == a.identities;
  }

  lemma UnknownHeartbeat(a: Account, fingerprint: string, now: int)
    requires forall id <- a.identities :: id.credentials.fingerprint != fingerprint
    ensures Handle(a, Heartbeat(fingerprint, now)).None?
  {
  }

  /** A validation needs the pending identity's own certificate, before its expiry. */
  lemma ValidateAcceptedIff(a: Account, i: nat, expected: nat, fingerprint: string, now: int)
    requires Distinct(a.identities) && i < |a.identities|
    ensures var id := a.identities[i];
            var h := Handle(a, Validate(i, expected, fingerprint, now));
            && (h.Some? <==>
                  !a.agent.revoked && expected == a.agent.version && id.state == Pending
                  && Live(id, now) && id.credentials.fingerprint == fingerprint)
            && (h.Some? ==> h.value == a.(identities := a.identities[i := id.(verified := true)]))
  {
    FoundIff(a.identities, fingerprint, now, i);
  }

  /** A renewal needs the active identity's own certificate, an unused rotation and an unused
      certificate. */
  lemma RenewAcceptedIff(a: Account, i: nat, r: Request)
    requires Distinct(a.identities) && i < |a.identities|
    requires r.Renew? && r.fingerprint == a.identities[i].credentials.fingerprint
    ensures Handle(a, r).Some? <==>
      && !a.agent.revoked && a.identities[i].state == Active && r.expected == a.agent.version
      && (forall id <- a.identities :: id.rotation != Some(r.rotation))
      && !InUse(a.identities, r.c) && !r.foreign
    ensures Handle(a, r).Some? ==>
      Handle(a, r).value.identities ==
        a.identities[i := a.identities[i].(state := Retiring, activated := a.identities[i].activated)]
        + [Identity(a.agent.version + 1, Some(r.rotation), Active, r.c, r.expiresAt, true, 0, true)]
  {
    FoundIff(a.identities, r.fingerprint, r.now, i);
    FoundIsOwn(a.identities, r.fingerprint, r.now, i);
    EnrolledIff(a.identities, r.c);
  }

  /** An activation needs a pending identity. Before its expiry it must have proved its certificate
      and been heard twice, and it takes over from the active one. After, it is retired. */
  lemma ActivateAcceptedIff(a: Account, i: nat, expected: nat, now: int)
    requires Sound(a) && i < |a.identities|
    ensures var id := a.identities[i];
            var h := Handle(a, Activate(i, expected, now));
            && (h.Some? <==>
                  !a.agent.revoked && id.state == Pending && expected == a.agent.version
                  && (Live(id, now) ==> id.verified && id.heartbeats >= 2))
            && (h.Some? ==>
                  h.value.agent.version == a.agent.version + 1
                  && |h.value.identities| == |a.identities|
                  && h.value.agent.mirror == (if Live(id, now) then id.credentials else a.agent.mirror)
                  && forall k | 0 <= k < |a.identities| ::
                       h.value.identities[k].state ==
                         if k == i then (if Live(id, now) then Active else Retired)
                         else if a.identities[k].state == Active && Live(id, now) then Retiring
                         else a.identities[k].state)
  {
    if !a.agent.revoked {
      ActiveIsMirrored(a);
    }
  }

  /** A new pending identity needs an unused certificate, and an earlier pending one that has
      expired, which it retires. Asking again for a known rotation with its own certificate is
      accepted and changes nothing. */
  lemma PrepareAcceptedIff(a: Account, r: Request)
    requires Sound(a) && Distinct(a.identities) && r.Prepare?
    ensures Handle(a, r).Some? <==>
      && !a.agent.revoked
      && if exists id <- a.identities :: id.rotation == Some(r.rotation)
         then exists id <- a.identities :: id.rotation == Some(r.rotation) && id.credentials == r.c
         else !InUse(a.identities, r.c) && !r.foreign && r.expected == a.agent.version
              && forall id <- a.identities :: !(id.state == Pending && Live(id, r.now))
    ensures Handle(a, r).Some? && Handle(a, r).value != a ==>
      && |Handle(a, r).value.identities| == |a.identities| + 1
      && Handle(a, r).value.identities[|a.identities|] ==
           Identity(a.agent.version + 1, Some(r.rotation), Pending, r.c, Some(r.now + r.ttl), false, 0, false)
      && forall k | 0 <= k < |a.identities| :: Handle(a, r).value.identities[k].state ==
           if a.identities[k].state == Pending then Retired else a.identities[k].state
  {
    EnrolledIff(a.identities, r.c);
    var known := FindRotation(a.identities, r.rotation);
    if known.Some? {
      assert a.identities[known.value].rotation == Some(r.rotation);
    }
  }

  /** A revoked agent without an active identity is enrolled with any unused certificate. */
  lemma EnrollAcceptedIff(a: Account, c: Credentials, expiresAt: Option<int>, foreign: bool)
    ensures Handle(a, Enroll(c, expiresAt, foreign)).Some? <==>
      && a.agent.revoked && !InUse(a.identities, c) && !foreign
      && forall id <- a.identities :: id.state != Active
  {
    EnrolledIff(a.identities, c);
    var active := FindState(a.identities, Active);
    if active.Some? {
      assert a.identities[active.value] in a.identities;
    }
  }

  // ---------------------------------------------------------------- who is refused for good

  /** The request does not come before this time. */
  predicate NotBefore(r: Request, now: int) {
    r.Prepare? || r.Heartbeat? || r.Validate? || r.Renew? || r.Activate? ==> now <= r.now
  }

  /** Revoked, retired, or pending and past its expiry at this time. */
  predicate Dead(id: Identity, now: int) {
    || id.state == Revoked
    || id.state == Retired
    || (id.state == Pending && (id.expiresAt == None || id.expiresAt.value <= now))
  }

  lemma DeadStays(a: Account, r: Request, i: nat, now: int)
    requires Sound(a) && i < |a.identities| && Dead(a.identities[i], now)
    requires NotBefore(r, now) || a.identities[i].state in {Revoked, Retired}
    ensures i < |Step(a, r).identities| && Dead(Step(a, r).identities[i], now)
    ensures a.identities[i].state in {Revoked, Retired} ==> Step(a, r).identities[i].state == a.identities[i].state
    ensures Step(a, r).identities[i].credentials == a.identities[i].credentials
  {
    StepForward(a, r, i);
  }

  lemma DeadIsRefused(a: Account, r: Request, i: nat, now: int)
    requires Distinct(a.identities) && i < |a.identities| && Dead(a.identities[i], now)
    requires NotBefore(r, now) || a.identities[i].state in {Revoked, Retired}
    requires r.Heartbeat? || r.Validate? || r.Renew?
    requires r.fingerprint == a.identities[i].credentials.fingerprint
    ensures Handle(a, r).None?
  {
    FoundIsOwn(a.identities, r.fingerprint, r.now, i);
  }

  /** Once revoked or retired, an identity stays so. */
  lemma {:induction false} FinishedStays(first: Account, requests: seq<Request>, k: nat, i: nat)
    requires Sound(first) && k <= |requests| && i < |After(first, requests[..k]).identities|
    requires After(first, requests[..k]).identities[i].state in {Revoked, Retired}
    ensures i < |After(first, requests).identities|
    ensures After(first, requests).identities[i].state == After(first, requests[..k]).identities[i].state
    ensures After(first, requests).identities[i].credentials == After(first, requests[..k]).identities[i].credentials
  {
    if k == |requests| {
      assert requests[..k] == requests;
    } else {
      var init := requests[..|requests| - 1];
      assert init[..k] == requests[..k];
      FinishedStays(first, init, k, i);
      LifecycleOverRuns(first, init);
      DeadStays(After(first, init), requests[|requests| - 1], i, 0);
    }
  }

  /** Main result: once an identity is revoked or retired, no heartbeat, validation or renewal with
      its certificate is accepted ever again, whatever the clocks say. */
  lemma FinishedIsRefusedForGood(first: Account, requests: seq<Request>, k: nat, i: nat, r: Request)
    requires Sound(first) && Distinct(first.identities)
    requires k <= |requests| && i < |After(first, requests[..k]).identities|
    requires After(first, requests[..k]).identities[i].state in {Revoked, Retired}
    requires r.Heartbeat? || r.Validate? || r.Renew?
    requires r.fingerprint == After(first, requests[..k]).identities[i].credentials.fingerprint
    ensures Handle(After(first, requests), r).None?
  {
    FinishedStays(first, requests, k, i);
    DistinctOverRuns(first, requests);
    DeadIsRefused(After(first, requests), r, i, 0);
  }

  lemma {:induction false} ExpiredStays(first: Account, requests: seq<Request>, k: nat, i: nat, now: int)
    requires Sound(first) && k <= |requests| && i < |After(first, requests[..k]).identities|
    requires Dead(After(first, requests[..k]).identities[i], now)
    requires forall j | k <= j < |requests| :: NotBefore(requests[j], now)
    ensures i < |After(first, requests).identities| && Dead(After(first, requests).identities[i], now)
    ensures After(first, requests).identities[i].credentials == After(first, requests[..k]).identities[i].credentials
  {
    if k == |requests| {
      assert requests[..k] == requests;
    } else {
      var init := requests[..|requests| - 1];
      assert init[..k] == requests[..k];
      ExpiredStays(first, init, k, i, now);
      LifecycleOverRuns(first, init);
      DeadStays(After(first, init), requests[|requests| - 1], i, now);
    }
  }

  /** Main result: once a pending identity is past its expiry, no later heartbeat, validation or
      renewal with its certificate is accepted, and it never becomes active. */
  lemma ExpiredIsRefusedForGood(first: Account, requests: seq<Request>, k: nat, i: nat, now: int, r: Request)
    requires Sound(first) && Distinct(first.identities)
    requires k <= |requests| && i < |After(first, requests[..k]).identities|
    requires Dead(After(first, requests[..k]).identities[i], now)
    requires forall j | k <= j < |requests| :: NotBefore(requests[j], now)
    requires (r.Heartbeat? || r.Validate? || r.Renew?) && NotBefore(r, now)
    requires r.fingerprint == After(first, requests[..k]).identities[i].credentials.fingerprint
    ensures Handle(After(first, requests), r).None?
    ensures i < |After(first, requests).identities|
    ensures After(first, requests).identities[i].state !in {Active, Retiring}
  {
    ExpiredStays(first, requests, k, i, now);
    DistinctOverRuns(first, requests);
    DeadIsRefused(After(first, requests), r, i, now);
  }

  /** Main result: over every run of an agent, the certificates that a heartbeat is accepted with
      are exactly those of the live identities of an unrevoked agent. */
  lemma AcceptedOverRuns(c: Credentials, expiresAt: Option<int>, requests: seq<Request>, fingerprint: string, now: int)
    ensures var a := After(FirstAccount(c, expiresAt), requests);
            Handle(a, Heartbeat(fingerprint, now)).Some? <==>
              && !a.agent.revoked
              && exists id <- a.identities :: id.credentials.fingerprint == fingerprint && Live(id, now)
  {
    var a := After(FirstAccount(c, expiresAt), requests);
    DistinctOverRuns(FirstAccount(c, expiresAt), requests);
    if i: nat :| i < |a.identities| && a.identities[i].credentials.fingerprint == fingerprint {
      HeartbeatAcceptedIff(a, i, now);
      assert forall id <- a.identities :: id.credentials.fingerprint == fingerprint ==> id == a.identities[i];
    } else {
      UnknownHeartbeat(a, fingerprint, now);
    }
  }

  // ---------------------------------------------------------------- where changes come from

  /** Every change of an identity's state has its own request. */
  lemma MoveComesFrom(a: Account, r: Request, i: nat)
    requires Sound(a) && i < |a.identities| && Step(a, r).identities[i].state != a.identities[i].state
    ensures var id, state := a.identities[i], Step(a, r).identities[i].state;
            || (r.Activate? && r.index == i && id.state == Pending
                && state == if Live(id, r.now) then Active else Retired)
            || (r.Activate? && r.index != i && id.state == Active && state == Retiring)
            || (r.Renew? && id.state == Active && state == Retiring && id.credentials.fingerprint == r.fingerprint)
            || (r.Prepare? && id.state == Pending && !Live(id, r.now) && state == Retired)
            || (r.Retire? && r.index == i && id.state == Pending && state == Retired)
            || (r.RevokeIdentity? && r.index == i && id.state == Retiring && state == Revoked && r.crlMatches)
            || (r.RevokeAgent? && id.state == Active && state == Revoked && r.crlMatches)
            || (r.Decommission? && r.index == i && id.state in {Active, Retiring} && state == Revoked && r.crlMatches)
  {
  }

  /** An identity is marked as having proved its certificate only by a request made with it, while
      pending and before its expiry. */
  lemma ProofComesFrom(a: Account, r: Request, i: nat)
    requires i < |a.identities| && !a.identities[i].verified && Step(a, r).identities[i].verified
    ensures (r.Heartbeat? || r.Validate?) && r.fingerprint == a.identities[i].credentials.fingerprint
    ensures a.identities[i].state == Pending && Live(a.identities[i], r.now) && !a.agent.revoked
  {
  }
}
