/** The rows behind the identity lifecycle, and the handlers that assign them step by step
    (controller/guardian/api.py:4962-5596). */
module IdentityStore {
  import opened Base
  import opened IdentityLifecycle

  class AgentRecord {
    var version: nat
    var mirror: Credentials
    var revoked: bool
    var identities: seq<Identity>

    ghost function Contents(): Account
      reads this
    {
      Account(Agent(version, mirror, revoked), identities)
    }

    /** The first enrollment of a host. */
    constructor (c: Credentials, expiresAt: Option<int>)
      ensures Contents() == FirstAccount(c, expiresAt) && Sound(Contents())
    {
      version := 1;
      mirror := c;
      revoked := false;
      identities := [Identity(1, None, Active, c, expiresAt, true, 0, true)];
      new;
      FirstSound(c, expiresAt);
    }

    /** The compare-and-set on the version column: it wins only on the expected version. */
    method ClaimVersion(expected: nat) returns (claimed: bool)
      modifies this`version
      ensures claimed <==> old(version) == expected && !revoked
      ensures version == if claimed then old(version) + 1 else old(version)
    {
      claimed := version == expected && !revoked;
      if claimed {
        version := version + 1;
      }
    }

    method SetState(i: nat, s: State)
      requires i < |identities|
      modifies this`identities
      ensures identities == WithState(old(identities), i, s)
    {
      var id := identities[i];
      if s.Active? {
        id := id.(activated := true);
      }
      id := id.(state := s);
      identities := identities[i := id];
    }

    method Bootstrap(c: Credentials, expiresAt: Option<int>, foreign: bool) returns (ok: bool)
      requires Sound(Contents())
      modifies this
      ensures Contents() == Step(old(Contents()), Enroll(c, expiresAt, foreign)) && Sound(Contents())
      ensures ok <==> Handle(old(Contents()), Enroll(c, expiresAt, foreign)).Some?
    {
      StepSound(Contents(), Enroll(c, expiresAt, foreign));
      if !revoked {
        return false;
      }
      // The unique indexes refuse a second active identity and a known certificate.
      if Enrolled(identities, c) || foreign || FindState(identities, Active).Some? {
        return false;
      }
      version := version + 1;
      mirror := c;
      revoked := false;
      identities := identities + [Identity(version, None, Active, c, expiresAt, true, 0, true)];
      return true;
    }

    method PrepareIdentity(rotation: string, c: Credentials, expected: nat, now: int, ttl: int, foreign: bool)
      returns (ok: bool)
      requires Sound(Contents())
      modifies this
      ensures Contents() == Step(old(Contents()), Prepare(rotation, c, expected, now, ttl, foreign))
      ensures Sound(Contents())
      ensures ok <==> Handle(old(Contents()), Prepare(rotation, c, expected, now, ttl, foreign)).Some?
    {
      StepSound(Contents(), Prepare(rotation, c, expected, now, ttl, foreign));
      if revoked {
        return false;
      }
      var known := FindRotation(identities, rotation);
      if known.Some? {
        return identities[known.value].credentials == c;
      }
      if Enrolled(identities, c) || foreign {
        return false;
      }
      var pending := FindState(identities, Pending);
      if pending.Some? && !PendingExpired(identities[pending.value], now) {
        return false;
      }
      var claimed := ClaimVersion(expected);
      if !claimed {
        return false;
      }
      if pending.Some? {
        SetState(pending.value, Retired);
      }
      identities := identities + [Identity(version, Some(rotation), Pending, c, Some(now + ttl), false, 0, false)];
      return true;
    }

    /** The identity part of a heartbeat. A host whose monitoring is disabled is turned away. */
    method RecordHeartbeat(fingerprint: string, now: int, hostEnabled: bool) returns (ok: bool)
      requires Sound(Contents())
      modifies this
      ensures Sound(Contents())
      ensures Contents() == if hostEnabled then Step(old(Contents()), Heartbeat(fingerprint, now)) else old(Contents())
      ensures ok <==> hostEnabled && Handle(old(Contents()), Heartbeat(fingerprint, now)).Some?
    {
      StepSound(Contents(), Heartbeat(fingerprint, now));
      if revoked {
        return false;
      }
      if !hostEnabled {
        return false;
      }
      var i := FindAuthenticated(identities, fingerprint, now);
      if i.None? {
        return false;
      }
      if identities[i.value].state.Pending? {
        var id := identities[i.value];
        id := id.(heartbeats := id.heartbeats + 1);
        if !id.verified {
          id := id.(verified := true);
        }
        identities := identities[i.value := id];
      }
      return true;
    }

    /** A proof of possession outside a heartbeat; it counts no heartbeat. */
    method ValidateIdentity(index: nat, expected: nat, fingerprint: string, now: int) returns (ok: bool)
      requires Sound(Contents())
      modifies this
      ensures Contents() == Step(old(Contents()), Validate(index, expected, fingerprint, now)) && Sound(Contents())
      ensures ok <==> Handle(old(Contents()), Validate(index, expected, fingerprint, now)).Some?
    {
      StepSound(Contents(), Validate(index, expected, fingerprint, now));
      if revoked || index >= |identities| || !identities[index].state.Pending? {
        return false;
      }
      if PendingExpired(identities[index], now) || expected != version {
        return false;
      }
      if FindAuthenticated(identities, fingerprint, now) != Some(index) {
        return false;
      }
      if !identities[index].verified {
        identities := identities[index := identities[index].(verified := true)];
      }
      return true;
    }

    method RenewCertificate(fingerprint: string, rotation: string, c: Credentials, expiresAt: Option<int>,
                            expected: nat, now: int, foreign: bool) returns (ok: bool)
      requires Sound(Contents())
      modifies this
      ensures Contents() == Step(old(Contents()), Renew(fingerprint, rotation, c, expiresAt, expected, now, foreign))
      ensures Sound(Contents())
      ensures ok <==> Handle(old(Contents()), Renew(fingerprint, rotation, c, expiresAt, expected, now, foreign)).Some?
    {
      StepSound(Contents(), Renew(fingerprint, rotation, c, expiresAt, expected, now, foreign));
      if revoked {
        return false;
      }
      var i := FindAuthenticated(identities, fingerprint, now);
      if i.None? || !identities[i.value].state.Active? {
        return false;
      }
      if FindRotation(identities, rotation).Some? || Enrolled(identities, c) || foreign {
        return false;
      }
      var claimed := ClaimVersion(expected);
      if !claimed {
        return false;
      }
      SetState(i.value, Retiring);
      identities := identities + [Identity(version, Some(rotation), Active, c, expiresAt, true, 0, true)];
      mirror := c;
      return true;
    }

    /** Activation, or retirement of a pending identity found expired. */
    method ActivateIdentity(index: nat, expected: nat, now: int) returns (ok: bool)
      requires Sound(Contents())
      modifies this
      ensures Contents() == Step(old(Contents()), Activate(index, expected, now)) && Sound(Contents())
      ensures ok <==>
                index < |old(identities)| && old(identities)[index].state.Pending? && identities[index].state.Active?
    {
      StepSound(Contents(), Activate(index, expected, now));
      if revoked || index >= |identities| || !identities[index].state.Pending? {
        return false;
      }
      if PendingExpired(identities[index], now) {
        var claimed := ClaimVersion(expected);
        if claimed {
          SetState(index, Retired);
        }
        return false;
      }
      if !identities[index].verified || identities[index].heartbeats < 2 {
        return false;
      }
      var active := FindState(identities, Active);
      if active.None? {
        return false;
      }
      var claimed := ClaimVersion(expected);
      if !claimed {
        return false;
      }
      SetState(active.value, Retiring);
      SetState(index, Active);
      mirror := identities[index].credentials;
      return true;
    }

    method RetirePending(index: nat, expected: nat) returns (ok: bool)
      requires Sound(Contents())
      modifies this
      ensures Contents() == Step(old(Contents()), Retire(index, expected)) && Sound(Contents())
      ensures ok <==> Handle(old(Contents()), Retire(index, expected)).Some?
    {
      StepSound(Contents(), Retire(index, expected));
      if revoked || index >= |identities| || !identities[index].state.Pending? {
        return false;
      }
      ok := ClaimVersion(expected);
      if ok {
        SetState(index, Retired);
      }
    }

    method RevokeRetiring(index: nat, expected: nat, crlMatches: bool) returns (ok: bool)
      requires Sound(Contents())
      modifies this
      ensures Contents() == Step(old(Contents()), RevokeIdentity(index, expected, crlMatches)) && Sound(Contents())
      ensures ok <==> Handle(old(Contents()), RevokeIdentity(index, expected, crlMatches)).Some?
    {
      StepSound(Contents(), RevokeIdentity(index, expected, crlMatches));
      if revoked || index >= |identities| {
        return false;
      }
      if identities[index].state.Revoked? {
        return true;
      }
      if !identities[index].state.Retiring? || !crlMatches {
        return false;
      }
      ok := ClaimVersion(expected);
      if ok {
        SetState(index, Revoked);
      }
    }

    method Revoke(expected: nat, crlMatches: bool) returns (ok: bool)
      requires Sound(Contents())
      modifies this
      ensures Contents() == Step(old(Contents()), RevokeAgent(expected, crlMatches)) && Sound(Contents())
      ensures ok <==> Handle(old(Contents()), RevokeAgent(expected, crlMatches)).Some?
    {
      StepSound(Contents(), RevokeAgent(expected, crlMatches));
      if revoked {
        return false;
      }
      var active := FindState(identities, Active);
      if active.None? || !crlMatches {
        return false;
      }
      ok := ClaimVersion(expected);
      if ok {
        SetState(active.value, Revoked);
        revoked := true;
      }
    }

    /** The last step of a decommission session, for the identity that was active when the
        session was created. */
    method FinalizeDecommission(index: nat, expected: nat, crlMatches: bool) returns (ok: bool)
      requires Sound(Contents())
      modifies this
      ensures Contents() == Step(old(Contents()), Decommission(index, expected, crlMatches)) && Sound(Contents())
      ensures ok <==> Handle(old(Contents()), Decommission(index, expected, crlMatches)).Some?
    {
      StepSound(Contents(), Decommission(index, expected, crlMatches));
      if version != expected || index >= |identities| || !identities[index].activated || !crlMatches {
        return false;
      }
      SetState(index, Revoked);
      revoked := true;
      return true;
    }
  }
}
