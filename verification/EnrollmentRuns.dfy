/** Whole runs of the enrollment protocol, under any interleaving of its operations
    (controller/guardian/enrollment.py:150-497). */
module EnrollmentRuns {
  import opened Base
  import opened Enrollment

  datatype Event =
    | Issue(host: string, ttl: int, activeAgent: bool, wellFormed: bool, now: int)
    | Report(i: nat, credential: Credential, status: Status, explained: bool, allowed: bool, now: int)
    | Bootstrap(i: nat, allowed: bool, succeeds: bool, now: int)
    | LegacyEnroll(i: nat, allowed: bool, succeeds: bool, now: int)
    | Revoke(i: nat, host: string, now: int)
    | Heartbeat(host: string, now: int)

  predicate IssueAccepted(e: Event)
    requires e.Issue?
  {
    60 <= e.ttl <= 86400 && !e.activeAgent && e.wellFormed
  }

  /** The event consumes session `k`. */
  predicate Consumes(rows: seq<Session>, e: Event, k: nat) {
    && (e.Bootstrap? || e.LegacyEnroll?) && e.i == k && k < |rows| && e.succeeds
    && TokenAccepted(rows[k], e.allowed, e.now)
  }

  /** The session a heartbeat completes. */
  function Completes(rows: seq<Session>, host: string): Option<nat> {
    var k := Newest(rows, host);
    if k.Some? && k.value < |rows| && !rows[k.value].status.Failed? then k else None
  }

  /** What the event does to session `k`. */
  function Changed(rows: seq<Session>, e: Event, k: nat): Session
    requires k < |rows|
  {
    var s := rows[k];
    match e
    case Issue(host, _, _, _, now) => if IssueAccepted(e) then RevokedIfLive(s, host, now) else s
    case Report(i, c, status, explained, allowed, now) =>
      if i == k && ReportAccepted(s, c, status, explained, allowed, now) then Reported(s, status, now) else s
    case Bootstrap(_, _, _, now) => if Consumes(rows, e, k) then Bootstrapped(s, now) else s
    case LegacyEnroll(_, _, _, now) => if Consumes(rows, e, k) then Consumed(s, now) else s
    case Revoke(i, host, now) =>
      if i == k && s.host == host && s.usedAt.None? && s.revokedAt.None? then RevokedSession(s, now) else s
    case Heartbeat(host, now) => if Completes(rows, host) == Some(k) then CompletedSession(s, now) else s
  }

  /** One committed request; a refused one is rolled back. */
  function Step(rows: seq<Session>, e: Event): (r: seq<Session>)
    ensures |rows| <= |r|
    ensures forall k | 0 <= k < |rows| :: r[k] == Changed(rows, e, k)
  {
    seq(|rows|, k requires 0 <= k < |rows| => Changed(rows, e, k))
    + if e.Issue? && IssueAccepted(e) then [Issued(e.host, e.now + e.ttl, e.now)] else []
  }

  function After(events: seq<Event>): seq<Session> {
    if events == [] then [] else Step(After(events[..|events| - 1]), events[|events| - 1])
  }

  /** The stored form of a run: every operation of the store is a step. */
  method Perform(store: EnrollmentStore, e: Event)
    requires store.Valid()
    modifies store
    ensures store.Valid()
    ensures store.rows == Step(old(store.rows), e)
  {
    match e
    case Issue(host, ttl, activeAgent, wellFormed, now) =>
      var _ := store.Issue(host, ttl, activeAgent, wellFormed, now);
    case Report(i, c, status, explained, allowed, now) =>
      ChangesOne(store.rows, e, i);
      if i < |store.rows| {
        var _ := store.Report(i, c, status, explained, allowed, now);
      }
    case Bootstrap(i, allowed, succeeds, now) =>
      ChangesOne(store.rows, e, i);
      if i < |store.rows| {
        var _ := store.Bootstrap(i, allowed, succeeds, now);
      }
    case LegacyEnroll(i, allowed, succeeds, now) =>
      ChangesOne(store.rows, e, i);
      if i < |store.rows| {
        var before := store.rows;
        var _ := store.Consume(i, allowed, now);
        if !succeeds {
          store.rows := before;
        }
      }
    case Revoke(i, host, now) =>
      ChangesOne(store.rows, e, i);
      var _ := store.Revoke(i, host, now);
    case Heartbeat(host, now) =>
      NewestInRange(store.rows, e);
      var k := Newest(store.rows, host);
      ChangesOne(store.rows, e, if k.Some? then k.value else 0);
      var _ := store.Complete(host, now);
  }

  /** Every event but an issue changes at most one session. */
  lemma ChangesOne(rows: seq<Session>, e: Event, i: nat)
    requires !e.Issue?
    requires if e.Heartbeat? then Newest(rows, e.host) in {Some(i), None} else e.i == i
    ensures Step(rows, e) == if i < |rows| then rows[i := Changed(rows, e, i)] else rows
  {
    var next := Step(rows, e);
    assert |next| == |rows|;
    forall k | 0 <= k < |rows| && k != i ensures next[k] == rows[k] {
      OthersKeep(rows, e, i, k);
    }
  }

  lemma OthersKeep(rows: seq<Session>, e: Event, i: nat, k: nat)
    requires !e.Issue? && k < |rows| && k != i
    requires if e.Heartbeat? then Newest(rows, e.host) in {Some(i), None} else e.i == i
    ensures Changed(rows, e, k) == rows[k]
  {
  }

  lemma NewestInRange(rows: seq<Session>, e: Event)
    ensures e.Heartbeat? && Newest(rows, e.host).Some? ==> Newest(rows, e.host).value < |rows|
  {
    if e.Heartbeat? {
      NewestIsNewest(rows, e.host);
    }
  }

  // ---------------------------------------------------------------- how a session evolves

  /** A session only moves on: its log grows, its step never falls, consumption happens once;
      completed and revoked are final, and failed can only become revoked, while unused. */
  predicate Evolves(a: Session, b: Session) {
    && a.host == b.host && a.createdAt == b.createdAt && a.expiresAt == b.expiresAt
    && a.log <= b.log && a.sequence <= b.sequence
    && (a.usedAt.Some? ==> b.usedAt == a.usedAt)
    && (a.completedAt.Some? || a.status.Revoked? ==> b == a)
    && (a.status.Failed? ==> b == a || (b.status.Revoked? && b.usedAt.None?))
  }

  lemma EvolvesTransitively(a: Session, b: Session, c: Session)
    requires Evolves(a, b) && Evolves(b, c)
    ensures Evolves(a, c)
  {
  }

  lemma ConsumptionEvolves(s: Session, allowed: bool, now: int)
    requires Sound(s) && TokenAccepted(s, allowed, now)
    ensures Sound(Consumed(s, now)) && Evolves(s, Consumed(s, now))
    ensures Sound(Bootstrapped(s, now)) && Evolves(s, Bootstrapped(s, now))
  {
    ConsumedSound(s, allowed, now);
    BootstrappedSound(s, allowed, now);
    ThroughSound(s, 7, now);
  }

  lemma ReportEvolves(s: Session, c: Credential, status: Status, explained: bool, allowed: bool, now: int)
    requires Sound(s) && ReportAccepted(s, c, status, explained, allowed, now)
    ensures Sound(Reported(s, status, now)) && Evolves(s, Reported(s, status, now))
  {
    if status.Failed? {
      EndingsSound(s, now);
    } else if status.step > s.sequence {
      StepToSound(s, status.step, now);
    }
  }

  lemma StepEvolves(rows: seq<Session>, e: Event, k: nat)
    requires k < |rows| && Sound(rows[k])
    ensures Sound(Changed(rows, e, k)) && Evolves(rows[k], Changed(rows, e, k))
  {
    var s := rows[k];
    match e
    case Issue(_, _, _, _, now) => EndingsSound(s, now);
    case Report(i, c, status, explained, allowed, now) =>
      if i == k && ReportAccepted(s, c, status, explained, allowed, now) {
        ReportEvolves(s, c, status, explained, allowed, now);
      }
    case Bootstrap(_, allowed, _, now) => if Consumes(rows, e, k) { ConsumptionEvolves(s, allowed, now); }
    case LegacyEnroll(_, allowed, _, now) => if Consumes(rows, e, k) { ConsumptionEvolves(s, allowed, now); }
    case Revoke(_, _, now) => EndingsSound(s, now);
    case Heartbeat(host, now) =>
      if Completes(rows, host) == Some(k) {
        NewestIsNewest(rows, host);
        ThroughSound(s, 12, now);
      }
  }

  /** Main result: in every run each session's log climbs strictly, so no status is logged
      twice and the step never falls; a completed session was consumed first, and before it
      expired. */
  lemma {:induction false} SessionsStaySound(events: seq<Event>, k: nat)
    requires k < |After(events)|
    ensures Sound(After(events)[k])
    ensures var s := After(events)[k];
            && (forall i, j | 0 <= i < j < |s.log| :: Rank(s.log[i].status) < Rank(s.log[j].status))
            && (s.completedAt.Some? ==> s.usedAt.Some? && s.usedAt.value < s.expiresAt)
  {
    var init, e := events[..|events| - 1], events[|events| - 1];
    if k < |After(init)| {
      SessionsStaySound(init, k);
      StepEvolves(After(init), e, k);
    }
  }

  /** Main result: from any point of a run to its end, a session only evolves. */
  lemma {:induction false} SessionsOnlyEvolve(events: seq<Event>, n: nat, k: nat)
    requires n <= |events| && k < |After(events[..n])|
    ensures k < |After(events)| && Evolves(After(events[..n])[k], After(events)[k])
  {
    if n == |events| {
      assert events[..n] == events;
    } else {
      var init, e := events[..|events| - 1], events[|events| - 1];
      assert init[..n] == events[..n];
      SessionsOnlyEvolve(init, n, k);
      SessionsStaySound(init, k);
      StepEvolves(After(init), e, k);
      EvolvesTransitively(After(events[..n])[k], After(init)[k], After(events)[k]);
    }
  }

  lemma ConsumptionStamps(rows: seq<Session>, e: Event, k: nat)
    requires Consumes(rows, e, k) && Sound(rows[k])
    ensures Changed(rows, e, k).usedAt == Some(e.now)
  {
    ConsumedSound(rows[k], e.allowed, e.now);
  }

  /** Main result: a session is consumed at most once, whoever holds its token. */
  lemma ConsumedAtMostOnce(events: seq<Event>, n: nat, m: nat, k: nat)
    requires n < m < |events|
    requires Consumes(After(events[..n]), events[n], k)
    ensures !Consumes(After(events[..m]), events[m], k)
  {
    SessionsStaySound(events[..n], k);
    ConsumptionStamps(After(events[..n]), events[n], k);
    assert events[..n + 1][..n] == events[..n];
    assert events[..m][..n + 1] == events[..n + 1];
    SessionsOnlyEvolve(events[..m], n + 1, k);
  }

  // ---------------------------------------------------------------- one live session per host

  ghost predicate ClockRuns(events: seq<Event>) {
    forall i, j | 0 <= i < j < |events| :: events[i].now <= events[j].now
  }

  /** No host has two sessions that can still be consumed at or after an instant. */
  ghost predicate OneLive(rows: seq<Session>, now: int) {
    forall i, j | 0 <= i < j < |rows| && Live(rows[i], now) && Live(rows[j], now) :: rows[i].host != rows[j].host
  }

  /** A session that can be consumed could be consumed before. */
  lemma LiveWasLive(rows: seq<Session>, e: Event, k: nat, now: int)
    requires k < |rows| && Sound(rows[k]) && Live(Changed(rows, e, k), now)
    ensures Live(rows[k], now) && Changed(rows, e, k).host == rows[k].host
    ensures e.Issue? && IssueAccepted(e) && e.now <= now ==> rows[k].host != e.host
  {
    StepEvolves(rows, e, k);
  }

  lemma StepKeepsOneLive(rows: seq<Session>, e: Event, now: int)
    requires OneLive(rows, now) && e.now <= now
    requires forall k | 0 <= k < |rows| :: Sound(rows[k])
    ensures OneLive(Step(rows, e), now)
  {
    var next := Step(rows, e);
    forall i, j | 0 <= i < j < |next| && Live(next[i], now) && Live(next[j], now)
      ensures next[i].host != next[j].host
    {
      LiveWasLive(rows, e, i, now);
      if j < |rows| {
        LiveWasLive(rows, e, j, now);
      }
    }
  }

  /** Main result: at any instant a host has at most one session that can be consumed. */
  lemma {:induction false} OneLivePerHost(events: seq<Event>, now: int)
    requires ClockRuns(events) && forall i | 0 <= i < |events| :: events[i].now <= now
    ensures OneLive(After(events), now)
  {
    if events != [] {
      var init, e := events[..|events| - 1], events[|events| - 1];
      assert forall i | 0 <= i < |init| :: init[i] == events[i];
      OneLivePerHost(init, now);
      forall k | 0 <= k < |After(init)| ensures Sound(After(init)[k]) {
        SessionsStaySound(init, k);
      }
      StepKeepsOneLive(After(init), e, now);
    }
  }

  // ---------------------------------------------------------------- completion

  /** Completion is exact: a heartbeat completes a session if and only if the session is the
      newest open one of its host and has not failed. So a failed newest session blocks the
      older ones, and each heartbeat completes at most one. */
  lemma HeartbeatCompletesIff(events: seq<Event>, host: string, now: int, k: nat)
    requires k < |After(events)|
    ensures var before := After(events);
            var after := After(events + [Heartbeat(host, now)]);
            before[k].completedAt.None? && after[k].completedAt.Some? <==>
            Newest(before, host) == Some(k) && !before[k].status.Failed?
  {
    assert (events + [Heartbeat(host, now)])[..|events|] == events;
    var rows := After(events);
    NewestIsNewest(rows, host);
    SessionsStaySound(events, k);
    if Newest(rows, host) == Some(k) && !rows[k].status.Failed? {
      ThroughSound(rows[k], 12, now);
      StepEvolves(rows, Heartbeat(host, now), k);
    }
  }
}
