/** The agent identity lifecycle (controller/guardian/api.py:3064-3096, 4962-5596, 5942-5988,
    6025-6104 and 6153-6198).

    Every handler runs under the agent's row lock and is one atomic step. A handler that
    refuses changes nothing. */
module IdentityLifecycle {
  import opened Base

  datatype State = Pending | Active | Retiring | Revoked | Retired

  datatype Credentials = Credentials(key: string, fingerprint: string, serial: Option<string>)

  datatype Identity = Identity(
    generation: nat,
    rotation: Option<string>,
    state: State,
    credentials: Credentials,
    expiresAt: Option<int>,
    verified: bool,
    heartbeats: nat,
    activated: bool)

  /** The agent row; it mirrors the credentials of the active identity. */
  datatype Agent = Agent(version: nat, mirror: Credentials, revoked: bool)

  datatype Account = Account(agent: Agent, identities: seq<Identity>)

  // ---------------------------------------------------------------- look-ups

  function FindState(identities: seq<Identity>, s: State): (r: Option<nat>)
    ensures r.Some? ==> r.value < |identities| && identities[r.value].state == s
    ensures r.None? ==> forall i | 0 <= i < |identities| :: identities[i].state != s
  {
    if identities == [] then None
    else if identities[|identities| - 1].state == s then Some(|identities| - 1)
    else FindState(identities[..|identities| - 1], s)
  }

  function FindRotation(identities: seq<Identity>, rotation: string): (r: Option<nat>)
    ensures r.Some? ==> r.value < |identities| && identities[r.value].rotation == Some(rotation)
    ensures r.None? ==> forall i | 0 <= i < |identities| :: identities[i].rotation != Some(rotation)
  {
    if identities == [] then None
    else if identities[|identities| - 1].rotation == Some(rotation) then Some(|identities| - 1)
    else FindRotation(identities[..|identities| - 1], rotation)
  }

  /** The certificate, or its serial, is already in use by this agent. */
  predicate Enrolled(identities: seq<Identity>, c: Credentials) {
    exists i :: 0 <= i < |identities| &&
      (identities[i].credentials.fingerprint == c.fingerprint
       || (c.serial.Some? && identities[i].credentials.serial == c.serial))
  }

  predicate PendingExpired(id: Identity, now: int) {
    id.expiresAt.None? || id.expiresAt.value <= now
  }

  /** The identity a request authenticates as: the fingerprint's, while its state allows it. */
  predicate Authenticates(id: Identity, fingerprint: string, now: int) {
    id.credentials.fingerprint == fingerprint &&
    (id.state.Active? || id.state.Retiring?
     || (id.state.Pending? && id.expiresAt.Some? && id.expiresAt.value > now))
  }

  function FindAuthenticated(identities: seq<Identity>, fingerprint: string, now: int): (r: Option<nat>)
    ensures r.Some? ==> r.value < |identities| && Authenticates(identities[r.value], fingerprint, now)
  {
    if identities == [] then None
    else if Authenticates(identities[|identities| - 1], fingerprint, now) then Some(|identities| - 1)
    else FindAuthenticated(identities[..|identities| - 1], fingerprint, now)
  }

  // ---------------------------------------------------------------- the handlers

  datatype Request =
    | Enroll(c: Credentials, expiresAt: Option<int>, foreign: bool)
    | Prepare(rotation: string, c: Credentials, expected: nat, now: int, ttl: int, foreign: bool)
    | Heartbeat(fingerprint: string, now: int)
    | Validate(index: nat, expected: nat, fingerprint: string, now: int)
    | Renew(fingerprint: string, rotation: string, c: Credentials, expiresAt: Option<int>, expected: nat, now: int,
            foreign: bool)
    | Activate(index: nat, expected: nat, now: int)
    | Retire(index: nat, expected: nat)
    | RevokeIdentity(index: nat, expected: nat, crlMatches: bool)
    | RevokeAgent(expected: nat, crlMatches: bool)
    | Decommission(index: nat, expected: nat, crlMatches: bool)

  /** The agent's first identity. */
  function FirstAccount(c: Credentials, expiresAt: Option<int>): Account {
    Account(Agent(1, c, false), [Identity(1, None, Active, c, expiresAt, true, 0, true)])
  }

  function WithState(identities: seq<Identity>, i: nat, s: State): seq<Identity>
    requires i < |identities|
  {
    identities[i := identities[i].(state := s, activated := identities[i].activated || s.Active?)]
  }

  /** `foreign` says whether the database's unique indexes find the certificate with another
      agent. */
  function Handle(a: Account, r: Request): Option<Account> {
    match r
    case Enroll(c, expiresAt, foreign) =>
      if !a.agent.revoked || Enrolled(a.identities, c) || foreign || FindState(a.identities, Active).Some? then None
      else
        var version := a.agent.version + 1;
        Some(Account(Agent(version, c, false),
                     a.identities + [Identity(version, None, Active, c, expiresAt, true, 0, true)]))
    case Prepare(rotation, c, expected, now, ttl, foreign) =>
      if a.agent.revoked then None
      else
        var known := FindRotation(a.identities, rotation);
        if known.Some? then
          if a.identities[known.value].credentials == c then Some(a) else None
        else
          var pending := FindState(a.identities, Pending);
          if Enrolled(a.identities, c) || foreign
            || (pending.Some? && !PendingExpired(a.identities[pending.value], now))
            || expected != a.agent.version then None
          else
            var version := a.agent.version + 1;
            var kept := if pending.Some? then WithState(a.identities, pending.value, Retired) else a.identities;
            Some(Account(a.agent.(version := version),
                         kept + [Identity(version, Some(rotation), Pending, c, Some(now + ttl), false, 0, false)]))
    case Heartbeat(fingerprint, now) =>
      if a.agent.revoked then None
      else
        var i := FindAuthenticated(a.identities, fingerprint, now);
        if i.None? then None
        else
          var id := a.identities[i.value];
          if id.state.Pending? then
            Some(a.(identities := a.identities[i.value := id.(heartbeats := id.heartbeats + 1, verified := true)]))
          else Some(a)
    case Validate(index, expected, fingerprint, now) =>
      if a.agent.revoked || index >= |a.identities| then None
      else
        var id := a.identities[index];
        if !id.state.Pending? || PendingExpired(id, now) || expected != a.agent.version
          || FindAuthenticated(a.identities, fingerprint, now) != Some(index) then None
        else Some(a.(identities := a.identities[index := id.(verified := true)]))
    case Renew(fingerprint, rotation, c, expiresAt, expected, now, foreign) =>
      if a.agent.revoked then None
      else
        var i := FindAuthenticated(a.identities, fingerprint, now);
        if i.None? || !a.identities[i.value].state.Active?
          || FindRotation(a.identities, rotation).Some? || Enrolled(a.identities, c) || foreign
          || expected != a.agent.version then None
        else
          var version := a.agent.version + 1;
          Some(Account(Agent(version, c, false),
                       WithState(a.identities, i.value, Retiring)
                       + [Identity(version, Some(rotation), Active, c, expiresAt, true, 0, true)]))
    case Activate(index, expected, now) =>
      if a.agent.revoked || index >= |a.identities| then None
      else
        var id := a.identities[index];
        if !id.state.Pending? then None
        else if PendingExpired(id, now) then
          if expected != a.agent.version then None
          else Some(Account(a.agent.(version := a.agent.version + 1), WithState(a.identities, index, Retired)))
        else
          var active := FindState(a.identities, Active);
          if !id.verified || id.heartbeats < 2 || active.None? || expected != a.agent.version then None
          else
            Some(Account(Agent(a.agent.version + 1, id.credentials, false),
                         WithState(WithState(a.identities, active.value, Retiring), index, Active)))
    case Retire(index, expected) =>
      if a.agent.revoked || index >= |a.identities| || !a.identities[index].state.Pending?
        || expected != a.agent.version then None
      else Some(Account(a.agent.(version := a.agent.version + 1), WithState(a.identities, index, Retired)))
    case RevokeIdentity(index, expected, crlMatches) =>
      if a.agent.revoked || index >= |a.identities| then None
      else if a.identities[index].state.Revoked? then Some(a)
      else if !a.identities[index].state.Retiring? || !crlMatches || expected != a.agent.version then None
      else Some(Account(a.agent.(version := a.agent.version + 1), WithState(a.identities, index, Revoked)))
    case RevokeAgent(expected, crlMatches) =>
      var active := FindState(a.identities, Active);
      if a.agent.revoked || active.None? || !crlMatches || expected != a.agent.version then None
      else
        Some(Account(a.agent.(version := a.agent.version + 1, revoked := true),
                     WithState(a.identities, active.value, Revoked)))
    case Decommission(index, expected, crlMatches) =>
      // The index is the identity that was active when the maintenance session was created.
      if index >= |a.identities| || !a.identities[index].activated
        || !crlMatches || expected != a.agent.version then None
      else Some(Account(a.agent.(revoked := true), WithState(a.identities, index, Revoked)))
  }

  function Step(a: Account, r: Request): Account {
    var h := Handle(a, r);
    if h.None? then a else h.value
  }

  // ---------------------------------------------------------------- the invariant

  ghost predicate Generations(a: Account) {
    && 1 <= a.agent.version
    && (forall i | 0 <= i < |a.identities| :: 1 <= a.identities[i].generation <= a.agent.version)
    && (forall i, j | 0 <= i < j < |a.identities| :: a.identities[i].generation < a.identities[j].generation)
  }

  ghost predicate AtMostOne(identities: seq<Identity>, s: State) {
    forall i, j | 0 <= i < |identities| && 0 <= j < |identities|
        && identities[i].state == s && identities[j].state == s :: i == j
  }

  ghost predicate Mirrors(a: Account) {
    exists i :: 0 <= i < |a.identities| &&
      a.identities[i].state == Active && a.identities[i].credentials == a.agent.mirror
  }

  /** An identity that was ever active says so, and one that never was does not. */
  ghost predicate ActivationRecorded(identities: seq<Identity>) {
    forall i | 0 <= i < |identities| ::
      identities[i].activated <==> identities[i].state in {Active, Retiring, Revoked}
  }

  ghost predicate Sound(a: Account) {
    && Generations(a)
    && AtMostOne(a.identities, Active)
    && AtMostOne(a.identities, Pending)
    && (!a.agent.revoked ==> Mirrors(a))
    && ActivationRecorded(a.identities)
  }

  lemma FirstSound(c: Credentials, expiresAt: Option<int>)
    ensures Sound(FirstAccount(c, expiresAt))
  {
    assert FirstAccount(c, expiresAt).identities[0].state == Active;
  }

  lemma MirrorAt(a: Account, i: nat)
    requires i < |a.identities| && a.identities[i].state == Active && a.identities[i].credentials == a.agent.mirror
    ensures Mirrors(a)
  {
  }

  /** The active identity of an unrevoked agent. */
  lemma ActiveIsMirrored(a: Account)
    requires Sound(a) && !a.agent.revoked
    ensures FindState(a.identities, Active).Some?
    ensures a.identities[FindState(a.identities, Active).value].credentials == a.agent.mirror
  {
    var i :| 0 <= i < |a.identities| && a.identities[i].state == Active
             && a.identities[i].credentials == a.agent.mirror;
  }

  lemma AppendAtMostOne(kept: seq<Identity>, id: Identity, s: State)
    requires AtMostOne(kept, s) && (id.state == s ==> FindState(kept, s).None?)
    ensures AtMostOne(kept + [id], s)
  {
  }

  lemma AppendGenerations(a: Account, kept: seq<Identity>, id: Identity, agent: Agent)
    requires Generations(a) && |kept| == |a.identities|
    requires forall i | 0 <= i < |kept| :: kept[i].generation == a.identities[i].generation
    requires id.generation == agent.version == a.agent.version + 1
    ensures Generations(Account(agent, kept + [id]))
  {
  }

  lemma AppendRecorded(kept: seq<Identity>, id: Identity)
    requires ActivationRecorded(kept) && (id.activated <==> id.state in {Active, Retiring, Revoked})
    ensures ActivationRecorded(kept + [id])
  {
  }

  /** A new identity, active or pending, appended to a list that has none in its state. */
  lemma AppendSound(a: Account, kept: seq<Identity>, id: Identity, mirror: Credentials, revoked: bool)
    requires Sound(a) && |kept| == |a.identities|
    requires forall i | 0 <= i < |kept| :: kept[i].generation == a.identities[i].generation
    requires AtMostOne(kept, Active) && AtMostOne(kept, Pending) && ActivationRecorded(kept)
    requires id.generation == a.agent.version + 1
    requires id.state in {Active, Pending} && (id.activated <==> id.state.Active?)
    requires FindState(kept, id.state).None?
    requires !revoked ==> Mirrors(Account(Agent(a.agent.version + 1, mirror, revoked), kept + [id]))
    ensures Sound(Account(Agent(a.agent.version + 1, mirror, revoked), kept + [id]))
  {
    AppendAtMostOne(kept, id, Active);
    AppendAtMostOne(kept, id, Pending);
    AppendRecorded(kept, id);
    AppendGenerations(a, kept, id, Agent(a.agent.version + 1, mirror, revoked));
  }

  /** Moving one identity to a later state keeps everything but, perhaps, the mirror. */
  lemma MoveKeeps(a: Account, i: nat, s: State)
    requires Sound(a) && i < |a.identities|
    requires s.Retiring? || s.Revoked? || s.Retired?
    requires s.Retired? <==> !a.identities[i].activated
    ensures var moved := WithState(a.identities, i, s);
            && |moved| == |a.identities|
            && (forall k | 0 <= k < |moved| :: moved[k].generation == a.identities[k].generation)
            && AtMostOne(moved, Active) && AtMostOne(moved, Pending) && ActivationRecorded(moved)
            && (a.identities[i].state in {Active, Pending} ==> FindState(moved, a.identities[i].state).None?)
  {
  }

  lemma MirrorSurvives(a: Account, b: Account, i: nat)
    requires Sound(a) && !a.agent.revoked && i < |a.identities| && !a.identities[i].state.Active?
    requires |b.identities| >= |a.identities| && b.agent.mirror == a.agent.mirror
    requires forall k | 0 <= k < |a.identities| && k != i :: b.identities[k] == a.identities[k]
    ensures Mirrors(b)
  {
    ActiveIsMirrored(a);
    MirrorAt(b, FindState(a.identities, Active).value);
  }

  lemma EnrollSound(a: Account, r: Request)
    requires Sound(a) && r.Enroll? && Handle(a, r).Some?
    ensures Sound(Handle(a, r).value)
  {
    var id := Identity(a.agent.version + 1, None, Active, r.c, r.expiresAt, true, 0, true);
    var b := Handle(a, r).value;
    assert b.identities[|a.identities|] == id;
    MirrorAt(b, |a.identities|);
    AppendSound(a, a.identities, id, r.c, false);
  }

  lemma PrepareSound(a: Account, r: Request)
    requires Sound(a) && r.Prepare? && Handle(a, r).Some?
    ensures Sound(Handle(a, r).value)
  {
    if FindRotation(a.identities, r.rotation).None? {
      var b := Handle(a, r).value;
      var id := b.identities[|a.identities|];
      var pending := FindState(a.identities, Pending);
      ActiveIsMirrored(a);
      var kept := if pending.Some? then WithState(a.identities, pending.value, Retired) else a.identities;
      if pending.Some? {
        MoveKeeps(a, pending.value, Retired);
      }
      assert b.identities == kept + [id];
      MirrorAt(b, FindState(a.identities, Active).value);
      AppendSound(a, kept, id, a.agent.mirror, false);
    }
  }

  lemma RenewSound(a: Account, r: Request)
    requires Sound(a) && r.Renew? && Handle(a, r).Some?
    ensures Sound(Handle(a, r).value)
  {
    var b := Handle(a, r).value;
    var i := FindAuthenticated(a.identities, r.fingerprint, r.now).value;
    var id := b.identities[|a.identities|];
    MoveKeeps(a, i, Retiring);
    MirrorAt(b, |a.identities|);
    AppendSound(a, WithState(a.identities, i, Retiring), id, r.c, false);
  }

  lemma ActivateSound(a: Account, r: Request)
    requires Sound(a) && r.Activate? && Handle(a, r).Some?
    ensures Sound(Handle(a, r).value)
  {
    var b := Handle(a, r).value;
    if PendingExpired(a.identities[r.index], r.now) {
      MoveKeeps(a, r.index, Retired);
      MirrorSurvives(a, b, r.index);
    } else {
      SwitchSound(a, r);
    }
  }

  /** Making the one pending identity active, where none is. */
  lemma PromoteKeeps(identities: seq<Identity>, i: nat)
    requires i < |identities| && identities[i].state.Pending?
    requires AtMostOne(identities, Pending) && FindState(identities, Active).None? && ActivationRecorded(identities)
    ensures var promoted := WithState(identities, i, Active);
            && AtMostOne(promoted, Active) && AtMostOne(promoted, Pending) && ActivationRecorded(promoted)
            && |promoted| == |identities| && promoted[i].state == Active
            && promoted[i].credentials == identities[i].credentials
            && (forall k | 0 <= k < |promoted| :: promoted[k].generation == identities[k].generation)
  {
    var promoted := WithState(identities, i, Active);
    assert forall k | 0 <= k < |identities| && k != i :: promoted[k] == identities[k];
    assert forall k | 0 <= k < |identities| && k != i :: !identities[k].state.Pending?;
  }

  /** The switch to the pending identity. */
  lemma SwitchSound(a: Account, r: Request)
    requires Sound(a) && r.Activate? && Handle(a, r).Some? && !PendingExpired(a.identities[r.index], r.now)
    ensures Sound(Handle(a, r).value)
  {
    var active := FindState(a.identities, Active).value;
    MoveKeeps(a, active, Retiring);
    PromoteKeeps(WithState(a.identities, active, Retiring), r.index);
    MirrorAt(Handle(a, r).value, r.index);
  }

  lemma RetireSound(a: Account, r: Request)
    requires Sound(a) && r.Retire? && Handle(a, r).Some?
    ensures Sound(Handle(a, r).value)
  {
    MoveKeeps(a, r.index, Retired);
    MirrorSurvives(a, Handle(a, r).value, r.index);
  }

  lemma RevokeIdentitySound(a: Account, r: Request)
    requires Sound(a) && r.RevokeIdentity? && Handle(a, r).Some?
    ensures Sound(Handle(a, r).value)
  {
    if !a.identities[r.index].state.Revoked? {
      MoveKeeps(a, r.index, Revoked);
      MirrorSurvives(a, Handle(a, r).value, r.index);
    }
  }

  lemma MoveSound(a: Account, r: Request)
    requires Sound(a) && (r.Retire? || r.RevokeIdentity? || r.RevokeAgent? || r.Decommission?) && Handle(a, r).Some?
    ensures Sound(Handle(a, r).value)
  {
    match r
    case Retire(_, _) => RetireSound(a, r);
    case RevokeIdentity(_, _, _) => RevokeIdentitySound(a, r);
    case RevokeAgent(_, _) => MoveKeeps(a, FindState(a.identities, Active).value, Revoked);
    case Decommission(index, _, _) => MoveKeeps(a, index, Revoked);
  }

  /** Recording a proof of possession touches nothing the invariant speaks of. */
  lemma ProofKeeps(a: Account, i: nat, heartbeats: nat, verified: bool)
    requires Sound(a) && i < |a.identities|
    ensures Sound(a.(identities := a.identities[i := a.identities[i].(heartbeats := heartbeats, verified := verified)]))
  {
    var b := a.(identities := a.identities[i := a.identities[i].(heartbeats := heartbeats, verified := verified)]);
    assert forall k | 0 <= k < |b.identities| ::
        b.identities[k].state == a.identities[k].state && b.identities[k].generation == a.identities[k].generation
        && b.identities[k].activated == a.identities[k].activated;
    if !a.agent.revoked {
      ActiveIsMirrored(a);
      MirrorAt(b, FindState(a.identities, Active).value);
    }
  }

  lemma ProofSound(a: Account, r: Request)
    requires Sound(a) && (r.Heartbeat? || r.Validate?) && Handle(a, r).Some?
    ensures Sound(Handle(a, r).value)
  {
    if r.Heartbeat? {
      var i := FindAuthenticated(a.identities, r.fingerprint, r.now).value;
      ProofKeeps(a, i, a.identities[i].heartbeats + 1, true);
    } else {
      ProofKeeps(a, r.index, a.identities[r.index].heartbeats, true);
    }
  }

  /** Main step: no handler breaks the lifecycle invariant. */
  lemma StepSound(a: Account, r: Request)
    requires Sound(a)
    ensures Sound(Step(a, r))
  {
    if Handle(a, r).Some? {
      match r
      case Enroll(_, _, _) => EnrollSound(a, r);
      case Prepare(_, _, _, _, _, _) => PrepareSound(a, r);
      case Heartbeat(_, _) => ProofSound(a, r);
      case Validate(_, _, _, _) => ProofSound(a, r);
      case Renew(_, _, _, _, _, _, _) => RenewSound(a, r);
      case Activate(_, _, _) => ActivateSound(a, r);
      case Retire(_, _) => MoveSound(a, r);
      case RevokeIdentity(_, _, _) => MoveSound(a, r);
      case RevokeAgent(_, _) => MoveSound(a, r);
      case Decommission(_, _, _) => MoveSound(a, r);
    }
  }

  /** The only moves there are. */
  predicate Forward(s: State, t: State) {
    || s == t
    || (s.Pending? && (t.Active? || t.Retired?))
    || (s.Active? && (t.Retiring? || t.Revoked?))
    || (s.Retiring? && t.Revoked?)
  }

  /** Identity states only move forward; generations and credentials never change. */
  lemma StepForward(a: Account, r: Request, i: nat)
    requires Sound(a) && i < |a.identities|
    ensures i < |Step(a, r).identities|
    ensures var x, y := a.identities[i], Step(a, r).identities[i];
            Forward(x.state, y.state) && y.generation == x.generation && y.credentials == x.credentials
            && y.rotation == x.rotation && x.heartbeats <= y.heartbeats
  {
  }

  // ---------------------------------------------------------------- runs

  function After(first: Account, requests: seq<Request>): Account {
    if requests == [] then first else Step(After(first, requests[..|requests| - 1]), requests[|requests| - 1])
  }

  /** Main result: over every run, from an agent's first identity on, generations are distinct
      and at most the agent's version, at most one identity is active and at most one pending,
      and an unrevoked agent has exactly one active identity, whose credentials its row mirrors. */
  lemma {:induction false} LifecycleOverRuns(first: Account, requests: seq<Request>)
    requires Sound(first)
    ensures Sound(After(first, requests))
  {
    if requests != [] {
      LifecycleOverRuns(first, requests[..|requests| - 1]);
      StepSound(After(first, requests[..|requests| - 1]), requests[|requests| - 1]);
    }
  }

  /** The version a request must name, if it is one that must name a version. */
  function Expected(r: Request): Option<nat> {
    match r
    case Enroll(_, _, _) => None
    case Heartbeat(_, _) => None
    case Validate(_, _, _, _) => None
    case Decommission(_, expected, _) => Some(expected)
    case Prepare(_, _, expected, _, _, _) => Some(expected)
    case Renew(_, _, _, _, expected, _, _) => Some(expected)
    case Activate(_, expected, _) => Some(expected)
    case Retire(_, expected) => Some(expected)
    case RevokeIdentity(_, expected, _) => Some(expected)
    case RevokeAgent(expected, _) => Some(expected)
  }

  /** The request named a version and took effect. */
  predicate Wins(a: Account, r: Request) {
    Expected(r).Some? && Handle(a, r).Some? && Handle(a, r).value != a
  }

  /** A winner found the version it named, and claimed it or, decommissioning, closed the agent. */
  lemma WinClaims(a: Account, r: Request)
    ensures a.agent.version <= Step(a, r).agent.version
    ensures Wins(a, r) ==> Expected(r) == Some(a.agent.version)
    ensures Wins(a, r) && !r.Decommission? ==> Step(a, r).agent.version == a.agent.version + 1
    ensures Wins(a, r) && r.Decommission? ==> Step(a, r).agent == a.agent.(revoked := true)
  {
  }

  lemma {:induction false} VersionsGrow(first: Account, requests: seq<Request>, k: nat)
    requires k <= |requests|
    ensures After(first, requests[..k]).agent.version <= After(first, requests).agent.version
  {
    if k == |requests| {
      assert requests[..k] == requests;
    } else {
      var init := requests[..|requests| - 1];
      VersionsGrow(first, init, k);
      assert init[..k] == requests[..k];
      WinClaims(After(first, init), requests[|requests| - 1]);
    }
  }

  /** Nothing but a decommission takes effect at this version any more. */
  predicate Spent(a: Account, version: nat) {
    a.agent.version > version || (a.agent.version == version && a.agent.revoked)
  }

  lemma SpentStays(a: Account, r: Request, version: nat)
    requires Spent(a, version)
    ensures Spent(Step(a, r), version)
    ensures Wins(a, r) && Expected(r) == Some(version) ==> r.Decommission?
  {
  }

  lemma {:induction false} SpentForGood(first: Account, requests: seq<Request>, k: nat, version: nat)
    requires k <= |requests| && Spent(After(first, requests[..k]), version)
    ensures Spent(After(first, requests), version)
  {
    if k == |requests| {
      assert requests[..k] == requests;
    } else {
      var init := requests[..|requests| - 1];
      assert init[..k] == requests[..k];
      SpentForGood(first, init, k, version);
      SpentStays(After(first, init), requests[|requests| - 1], version);
    }
  }

  /** No two requests that name the same version both take effect, unless both finalize a
      decommission. */
  lemma OneWinnerPerVersion(first: Account, requests: seq<Request>, i: nat, j: nat)
    requires i < j < |requests|
    requires Wins(After(first, requests[..i]), requests[i]) && Wins(After(first, requests[..j]), requests[j])
    ensures Expected(requests[i]) != Expected(requests[j]) || (requests[i].Decommission? && requests[j].Decommission?)
  {
    var version := Expected(requests[i]).value;
    WinClaims(After(first, requests[..i]), requests[i]);
    assert requests[..i + 1][..i] == requests[..i];
    assert requests[..j][..i + 1] == requests[..i + 1];
    VersionsGrow(first, requests[..j], i + 1);
    SpentForGood(first, requests[..j], i + 1, version);
    SpentStays(After(first, requests[..j]), requests[j], version);
    WinClaims(After(first, requests[..j]), requests[j]);
  }

  /** The authenticated heartbeats of a pending identity in a run. */
  function Beats(first: Account, requests: seq<Request>, i: nat): nat {
    if requests == [] then 0
    else
      var before, r := After(first, requests[..|requests| - 1]), requests[|requests| - 1];
      Beats(first, requests[..|requests| - 1], i) + if IsBeat(before, r, i) then 1 else 0
  }

  /** An authenticated heartbeat of identity `i` while it is pending. */
  predicate IsBeat(a: Account, r: Request, i: nat) {
    r.Heartbeat? && !a.agent.revoked && FindAuthenticated(a.identities, r.fingerprint, r.now) == Some(i)
    && a.identities[i].state.Pending?
  }

  /** Identity `i` was pending at some point of the run. */
  ghost predicate WasPending(first: Account, requests: seq<Request>, i: nat) {
    exists k :: 0 <= k <= |requests| && i < |After(first, requests[..k]).identities|
      && After(first, requests[..k]).identities[i].state.Pending?
  }

  lemma WasPendingBefore(first: Account, requests: seq<Request>, i: nat)
    requires requests != [] && WasPending(first, requests, i)
    ensures WasPending(first, requests[..|requests| - 1], i)
         || (i < |After(first, requests).identities| && After(first, requests).identities[i].state.Pending?)
  {
    var init := requests[..|requests| - 1];
    var k :| 0 <= k <= |requests| && i < |After(first, requests[..k]).identities|
      && After(first, requests[..k]).identities[i].state.Pending?;
    if k == |requests| {
      assert requests[..k] == requests;
    } else {
      assert init[..k] == requests[..k];
    }
  }

  /** Identities of a host's first account: none is pending, none has a heartbeat. */
  predicate Fresh(identities: seq<Identity>) {
    forall k | 0 <= k < |identities| :: !identities[k].state.Pending? && identities[k].heartbeats == 0
  }

  /** The counter of an identity is the number of its heartbeats while pending, and only two of
      them open the way to activation. */
  lemma {:induction false} HeartbeatsCounted(first: Account, requests: seq<Request>, i: nat)
    requires Sound(first) && Fresh(first.identities)
    requires i < |After(first, requests).identities|
    ensures After(first, requests).identities[i].heartbeats == Beats(first, requests, i)
    ensures WasPending(first, requests, i) && After(first, requests).identities[i].activated ==>
              Beats(first, requests, i) >= 2
  {
    if requests == [] {
      assert requests[..0] == [];
    } else {
      var init, r := requests[..|requests| - 1], requests[|requests| - 1];
      var before, after := After(first, init), After(first, requests);
      LifecycleOverRuns(first, init);
      if i < |before.identities| {
        HeartbeatsCounted(first, init, i);
        StepForward(before, r, i);
        StepBeats(before, r, i);
        if WasPending(first, requests, i) && after.identities[i].activated {
          StepSound(before, r);
          WasPendingBefore(first, requests, i);
        }
      } else {
        NewIdentity(before, r, i);
        NoBeatsYet(first, init, i);
        if WasPending(first, requests, i) {
          WasPendingBefore(first, requests, i);
          NotYetThere(first, init, i);
          StepSound(before, r);
        }
      }
    }
  }

  lemma StepBeats(a: Account, r: Request, i: nat)
    requires Sound(a) && i < |a.identities| && i < |Step(a, r).identities|
    ensures Step(a, r).identities[i].heartbeats == a.identities[i].heartbeats + if IsBeat(a, r, i) then 1 else 0
    ensures !a.identities[i].activated && Step(a, r).identities[i].activated ==> a.identities[i].heartbeats >= 2
  {
  }

  lemma {:induction false} NoBeatsYet(first: Account, requests: seq<Request>, i: nat)
    requires |After(first, requests).identities| <= i
    ensures Beats(first, requests, i) == 0
  {
    if requests != [] {
      StepKeepsIdentities(After(first, requests[..|requests| - 1]), requests[|requests| - 1]);
      NoBeatsYet(first, requests[..|requests| - 1], i);
    }
  }

  lemma NewIdentity(a: Account, r: Request, i: nat)
    requires |a.identities| <= i < |Step(a, r).identities|
    ensures i == |a.identities| && Step(a, r).identities[i].heartbeats == 0
  {
  }

  lemma {:induction false} NotYetThere(first: Account, requests: seq<Request>, i: nat)
    requires Sound(first) && |After(first, requests).identities| <= i
    ensures !WasPending(first, requests, i)
  {
    forall k | 0 <= k <= |requests|
      ensures |After(first, requests[..k]).identities| <= i
    {
      IdentitiesGrow(first, requests, k);
    }
  }

  lemma StepKeepsIdentities(a: Account, r: Request)
    ensures |a.identities| <= |Step(a, r).identities|
  {
  }

  lemma {:induction false} IdentitiesGrow(first: Account, requests: seq<Request>, k: nat)
    requires k <= |requests|
    ensures |After(first, requests[..k]).identities| <= |After(first, requests).identities|
  {
    if k == |requests| {
      assert requests[..k] == requests;
    } else {
      var init := requests[..|requests| - 1];
      IdentitiesGrow(first, init, k);
      assert init[..k] == requests[..k];
      StepKeepsIdentities(After(first, init), requests[|requests| - 1]);
    }
  }

  /** Main result: a prepared identity is active only after at least two of its own
      authenticated heartbeats arrived while it was pending. */
  lemma TwoHeartbeatsBeforeActivation(c: Credentials, expiresAt: Option<int>, requests: seq<Request>, i: nat)
    requires i < |After(FirstAccount(c, expiresAt), requests).identities|
    requires WasPending(FirstAccount(c, expiresAt), requests, i)
    requires After(FirstAccount(c, expiresAt), requests).identities[i].state.Active?
    ensures Beats(FirstAccount(c, expiresAt), requests, i) >= 2
  {
    FirstSound(c, expiresAt);
    LifecycleOverRuns(FirstAccount(c, expiresAt), requests);
    HeartbeatsCounted(FirstAccount(c, expiresAt), requests, i);
  }

  // ---------------------------------------------------------------- decommissioning

  /** Exactly when a decommission leaves no active identity behind: the identity its session
      names must still be the active one. Its version check does not say so. */
  lemma DecommissionIsCleanIff(a: Account, index: nat, expected: nat, crlMatches: bool)
    requires Sound(a) && !a.agent.revoked && Handle(a, Decommission(index, expected, crlMatches)).Some?
    ensures FindState(Step(a, Decommission(index, expected, crlMatches)).identities, Active).None?
       <==> a.identities[index].state.Active?
  {
    ActiveIsMirrored(a);
    var active := FindState(a.identities, Active).value;
    var b := Step(a, Decommission(index, expected, crlMatches));
    if index != active {
      assert b.identities[active].state == Active;
    }
  }

  /** A decommission whose session was created before a renewal: it is accepted at the current
      version, closes the agent, and leaves the renewed identity active. */
  lemma DecommissionLeavesActive(c: Credentials, d: Credentials, now: int)
    requires c.fingerprint != d.fingerprint && (d.serial.Some? ==> c.serial != d.serial)
    ensures var renewed := After(FirstAccount(c, None), [Renew(c.fingerprint, "rotation", d, None, 1, now, false)]);
            && Handle(renewed, Decommission(0, 2, true)).Some?
            && Step(renewed, Decommission(0, 2, true)).agent.revoked
            && FindState(Step(renewed, Decommission(0, 2, true)).identities, Active) == Some(1)
  {
    var renew := Renew(c.fingerprint, "rotation", d, None, 1, now, false);
    assert [renew][..0] == [];
    var first := FirstAccount(c, None);
    assert first.identities[..0] == [];
    assert FindAuthenticated(first.identities, c.fingerprint, now) == Some(0);
    var renewed := Step(first, renew);
    assert After(first, [renew]) == renewed;
    assert renewed.identities[1].state == Active && renewed.agent.version == 2;
  }

  /** A revoked agent that kept an active identity can never be enrolled again by any handler
      but another decommission. */
  lemma StuckWhileActiveRemains(a: Account, r: Request)
    requires Sound(a) && a.agent.revoked && FindState(a.identities, Active).Some? && !r.Decommission?
    ensures Step(a, r) == a
  {
  }

  /** A revoked agent without an active identity can be enrolled with any new certificate. */
  lemma CleanAgentCanEnroll(a: Account, c: Credentials, expiresAt: Option<int>)
    requires Sound(a) && a.agent.revoked && !Enrolled(a.identities, c)
    ensures Handle(a, Enroll(c, expiresAt, false)).Some? <==> FindState(a.identities, Active).None?
  {
  }
}
