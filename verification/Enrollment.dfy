/** One-time enrollment sessions: issue, report, consume, complete, revoke
    (controller/guardian/enrollment.py:57-90 and 150-497 with their handlers
    controller/guardian/api.py:2687, 2755, 2911-2939, 3031-3104, 6038, 6214).
    A session is known by its position, which stands for its unguessable token. */
module Enrollment {
  import opened Base

  /** The ordered steps run from 0 (waiting) to 12 (completed). */
  datatype Status = At(step: nat) | Failed | Revoked

  const CSR_SUBMITTED := 7
  const CERTIFICATE_ISSUED := 8
  const COMPLETED := 12

  datatype Entry = Entry(status: Status, sequence: nat, at: int)

  datatype Session = Session(
    host: string, createdAt: int, expiresAt: int,
    usedAt: Option<int>, revokedAt: Option<int>, completedAt: Option<int>,
    status: Status, sequence: nat, progress: bool, log: seq<Entry>)

  predicate Terminal(status: Status) {
    status.Failed? || status.Revoked? || status == At(COMPLETED)
  }

  // ---------------------------------------------------------------- one session

  function Logged(s: Session, now: int): Session {
    s.(log := s.log + [Entry(s.status, s.sequence, now)])
  }

  function Issued(host: string, expiresAt: int, now: int): Session {
    Logged(Session(host, now, expiresAt, None, None, None, At(0), 0, false, []), now)
  }

  function StepTo(s: Session, n: nat, now: int): Session {
    Logged(s.(status := At(n), sequence := n, completedAt := if n == COMPLETED then Some(now) else s.completedAt), now)
  }

  /** One step at a time, up to a step; nothing when it is already reached. */
  function Through(s: Session, n: nat, now: int): Session
    decreases n
  {
    if n <= s.sequence then s else StepTo(Through(s, n - 1, now), n, now)
  }

  function FailedSession(s: Session, now: int): Session {
    Logged(s.(status := Failed, progress := false), now)
  }

  function RevokedSession(s: Session, now: int): Session {
    Logged(s.(status := Revoked, revokedAt := Some(now)), now)
  }

  /** The enrollment credential is accepted. */
  predicate TokenAccepted(s: Session, allowed: bool, now: int) {
    s.usedAt.None? && s.revokedAt.None? && !s.status.Failed? && now < s.expiresAt && allowed
  }

  /** The progress credential is accepted. */
  predicate ProgressAccepted(s: Session, allowed: bool, now: int) {
    s.progress && s.revokedAt.None? && !Terminal(s.status) && now < s.expiresAt && allowed
  }

  /** Consuming the session, which also catches up with the steps before the request. */
  function Consumed(s: Session, now: int): Session {
    Through(s.(usedAt := Some(now)), CSR_SUBMITTED, now)
  }

  /** The whole bootstrap: consume, reach the certificate, hand out the progress credential. */
  function Bootstrapped(s: Session, now: int): Session {
    StepTo(Consumed(s, now), CERTIFICATE_ISSUED, now).(progress := true)
  }

  function CompletedSession(s: Session, now: int): Session {
    Through(s, COMPLETED, now).(progress := false)
  }

  /** Unused, unrevoked and unexpired: what issuing a new session revokes. */
  predicate Live(s: Session, now: int) {
    s.usedAt.None? && s.revokedAt.None? && now < s.expiresAt
  }

  /** Used, unrevoked and not completed: what an authenticated heartbeat looks for. */
  predicate Open(s: Session, host: string) {
    s.host == host && s.usedAt.Some? && s.revokedAt.None? && s.completedAt.None?
  }

  // ---------------------------------------------------------------- what every session keeps

  function Rank(status: Status): int {
    match status
    case At(n) => n
    case Failed => 13
    case Revoked => 14
  }

  /** The log's statuses climb strictly, and the last is the current one. */
  ghost predicate Climbs(log: seq<Entry>) {
    forall i, j | 0 <= i < j < |log| :: Rank(log[i].status) < Rank(log[j].status)
  }

  ghost predicate Sound(s: Session) {
    && s.sequence <= COMPLETED
    && (s.status.At? ==> s.status.step == s.sequence)
    && (s.sequence == COMPLETED ==> s.status.At?)
    && (s.completedAt.Some? <==> s.sequence == COMPLETED)
    && (s.revokedAt.Some? <==> s.status.Revoked?)
    && (s.usedAt.None? ==> s.sequence <= CSR_SUBMITTED)
    && (s.usedAt.Some? ==> s.sequence >= CSR_SUBMITTED && s.revokedAt.None? && s.usedAt.value < s.expiresAt)
    && (s.progress ==> s.usedAt.Some? && s.status.At?)
    && s.log != [] && s.log[|s.log| - 1].status == s.status && s.log[|s.log| - 1].sequence == s.sequence
    && s.log[0].status == At(0) && Climbs(s.log)
    && (forall i | 0 <= i < |s.log| - 1 :: s.log[i].status != At(COMPLETED) && !s.log[i].status.Revoked?)
    && (forall i | 0 <= i < |s.log| :: s.log[i].sequence <= s.sequence)
  }

  lemma StepToSound(s: Session, n: nat, now: int)
    requires Sound(s) && s.status.At? && s.sequence < n <= COMPLETED
    requires s.usedAt.None? ==> n <= CSR_SUBMITTED
    ensures Sound(StepTo(s, n, now))
  {
    assert s.log[|s.log| - 1].status == At(s.sequence);
  }

  lemma {:induction false} ThroughSound(s: Session, n: nat, now: int)
    requires Sound(s) && s.status.At? && n <= COMPLETED
    requires s.usedAt.None? ==> n <= CSR_SUBMITTED
    ensures var t := Through(s, n, now);
            Sound(t) && t.status == At(Max(n, s.sequence)) && t.host == s.host && t.usedAt == s.usedAt
            && t.expiresAt == s.expiresAt && t.createdAt == s.createdAt && t.progress == s.progress
            && s.log <= t.log
    decreases n
  {
    if n > s.sequence {
      ThroughSound(s, n - 1, now);
      StepToSound(Through(s, n - 1, now), n, now);
    }
  }

  lemma {:induction false} ThroughAt(s: Session, n: nat, now: int)
    requires s.status == At(s.sequence)
    ensures Through(s, n, now).status == At(Max(n, s.sequence)) && Through(s, n, now).sequence == Max(n, s.sequence)
    decreases n
  {
    if n > s.sequence {
      ThroughAt(s, n - 1, now);
    }
  }

  lemma {:induction false} StampCommutes(s: Session, n: nat, now: int)
    requires n < COMPLETED
    ensures Through(s.(usedAt := Some(now)), n, now) == Through(s, n, now).(usedAt := Some(now))
    decreases n
  {
    if n > s.sequence {
      StampCommutes(s, n - 1, now);
    }
  }

  lemma ConsumedSound(s: Session, allowed: bool, now: int)
    requires Sound(s) && TokenAccepted(s, allowed, now)
    ensures Sound(Consumed(s, now)) && Consumed(s, now).status == At(CSR_SUBMITTED)
    ensures Consumed(s, now).usedAt == Some(now) && s.log <= Consumed(s, now).log
    ensures Consumed(s, now) == Through(s, CSR_SUBMITTED, now).(usedAt := Some(now))
  {
    ThroughSound(s, CSR_SUBMITTED, now);
    StampCommutes(s, CSR_SUBMITTED, now);
  }

  lemma BootstrappedSound(s: Session, allowed: bool, now: int)
    requires Sound(s) && TokenAccepted(s, allowed, now)
    ensures Sound(Bootstrapped(s, now)) && s.log <= Bootstrapped(s, now).log
  {
    ConsumedSound(s, allowed, now);
    StepToSound(Consumed(s, now), CERTIFICATE_ISSUED, now);
  }

  /** No entry of the log ends the session this way. */
  predicate NeverLogged(s: Session, status: Status) {
    forall e <- s.log :: e.status != status
  }

  /** Main result: the enrollment token is accepted if and only if the caller is allowed, the session
      has not expired and was never consumed, and nothing in its log fails or revokes it. */
  lemma TokenAcceptedIff(s: Session, allowed: bool, now: int)
    requires Sound(s)
    ensures TokenAccepted(s, allowed, now) <==>
      && allowed && now < s.expiresAt && s.usedAt == None && NeverLogged(s, Failed) && NeverLogged(s, Revoked)
  {
    EndingIsLast(s, Failed);
    EndingIsLast(s, Revoked);
  }

  /** The progress credential is accepted if and only if it was handed out and not taken back, the
      session has not expired, and nothing in its log ends it. */
  lemma ProgressAcceptedIff(s: Session, allowed: bool, now: int)
    requires Sound(s)
    ensures ProgressAccepted(s, allowed, now) <==>
      && allowed && now < s.expiresAt && s.progress
      && NeverLogged(s, Failed) && NeverLogged(s, Revoked) && NeverLogged(s, At(12))
  {
    EndingIsLast(s, Failed);
    EndingIsLast(s, Revoked);
    EndingIsLast(s, At(12));
  }

  /** A status that ends a session is logged if and only if the session is in it now, or failed before
      it was revoked. */
  lemma EndingIsLast(s: Session, status: Status)
    requires Sound(s) && status in {Failed, Revoked, At(12)}
    ensures s.status == status ==> !NeverLogged(s, status)
    ensures !NeverLogged(s, status) ==> s.status == status || (status == Failed && s.status == Revoked)
  {
    var last := s.log[|s.log| - 1];
    assert last in s.log;
    if e :| e in s.log && e.status == status {
      var i :| 0 <= i < |s.log| && s.log[i] == e;
      if i < |s.log| - 1 {
        assert Rank(s.log[i].status) < Rank(last.status);
      }
    }
  }

  /** The log goes on from that of the session to a step: one entry for every step not yet reached,
      in order, all at the same instant. */
  ghost predicate Walks(s: Session, log: seq<Entry>, n: int, now: int) {
    && |log| == |s.log| + n - s.sequence && s.log <= log
    && forall i | |s.log| <= i < |log| ::
         log[i].status == At(log[i].sequence) && log[i].sequence == s.sequence + 1 + i - |s.log| && log[i].at == now
  }

  lemma WalksOn(s: Session, log: seq<Entry>, n: int, now: int)
    requires s.sequence <= n && Walks(s, log, n, now)
    ensures Walks(s, log + [Entry(At(n + 1), n + 1, now)], n + 1, now)
  {
  }

  /** What walking to a step writes: its log, and the time of completion if it gets there. */
  lemma {:induction false} ThroughPlainly(s: Session, n: nat, now: int)
    requires s.sequence <= n <= 12
    ensures var t := Through(s, n, now);
            && Walks(s, t.log, n, now)
            && t == s.(log := t.log, sequence := n, status := if n > s.sequence then At(n) else s.status,
                       completedAt := if n > s.sequence && n == 12 then Some(now) else s.completedAt)
    decreases n
  {
    if n > s.sequence {
      ThroughPlainly(s, n - 1, now);
      WalksOn(s, Through(s, n - 1, now).log, n - 1, now);
    }
  }

  /** What a bootstrap writes: the session is used now, its log goes on to the issued certificate, and
      the progress credential is handed out. */
  lemma BootstrapPlainly(s: Session, now: int)
    requires s.sequence <= 7
    ensures var t := Bootstrapped(s, now);
            && Walks(s, t.log, 8, now)
            && t == s.(usedAt := Some(now), log := t.log, sequence := 8, status := At(8), progress := true)
  {
    var used := s.(usedAt := Some(now));
    ThroughPlainly(used, 7, now);
    assert Walks(s, Consumed(s, now).log, 7, now);
    WalksOn(s, Consumed(s, now).log, 7, now);
  }

  lemma EndingsSound(s: Session, now: int)
    requires Sound(s)
    ensures s.status.At? && s.completedAt.None? ==> Sound(FailedSession(s, now))
    ensures s.usedAt.None? && s.revokedAt.None? ==> Sound(RevokedSession(s, now))
  {
  }

  // ---------------------------------------------------------------- the stored sessions

  datatype Error = InvalidState | Inactive | Backwards | Rejected | NotFound | AlreadyUsed | OutOfRange | ActiveAgent

  function AdvanceError(s: Session, status: Status, allowCompletion: bool): Option<Error> {
    if !status.At? || status.step > COMPLETED then Some(InvalidState)
    else if status == At(COMPLETED) && !allowCompletion then Some(InvalidState)
    else if Terminal(s.status) then Some(Inactive)
    else if status.step < s.sequence then Some(Backwards)
    else None
  }

  /** The session an authenticated heartbeat of a host selects: the newest open one. */
  function Newest(rows: seq<Session>, host: string): Option<nat> {
    if rows == [] then None
    else
      var k := |rows| - 1;
      var earlier := Newest(rows[..k], host);
      if Open(rows[k], host)
         && (earlier.None? || earlier.value >= k || rows[earlier.value].createdAt <= rows[k].createdAt)
      then Some(k) else earlier
  }

  lemma {:induction false} NewestIsNewest(rows: seq<Session>, host: string)
    ensures Newest(rows, host).None? <==> forall i | 0 <= i < |rows| :: !Open(rows[i], host)
    ensures Newest(rows, host).Some? ==> Newest(rows, host).value < |rows| && Open(rows[Newest(rows, host).value], host)
    ensures Newest(rows, host).Some? ==> forall i | 0 <= i < |rows| && Open(rows[i], host) ::
              rows[i].createdAt <= rows[Newest(rows, host).value].createdAt
  {
    if rows != [] {
      var k := |rows| - 1;
      NewestIsNewest(rows[..k], host);
      forall i | 0 <= i < |rows| && Open(rows[i], host)
        ensures Newest(rows, host).Some?
        ensures Newest(rows, host).value < |rows| && rows[i].createdAt <= rows[Newest(rows, host).value].createdAt
      {
        if i < k {
          assert rows[..k][i] == rows[i];
        }
      }
      if Newest(rows[..k], host).Some? {
        assert rows[..k][Newest(rows[..k], host).value] == rows[Newest(rows[..k], host).value];
        assert Open(rows[Newest(rows[..k], host).value], host);
      }
    }
  }

  /** Main result: a heartbeat selects a session if and only if the session is of its host, consumed,
      neither revoked nor completed, and no such session is newer, nor as new and stored later. */
  lemma {:induction false} NewestIff(rows: seq<Session>, host: string, k: nat)
    requires k < |rows|
    ensures Newest(rows, host) == Some(k) <==>
      && rows[k].host == host && rows[k].usedAt != None && rows[k].revokedAt == None && rows[k].completedAt == None
      && forall i | 0 <= i < |rows| && i != k && rows[i].host == host && rows[i].usedAt != None
             && rows[i].revokedAt == None && rows[i].completedAt == None ::
           rows[i].createdAt < rows[k].createdAt || (rows[i].createdAt == rows[k].createdAt && i < k)
  {
    NewestIsNewest(rows, host);
    if Newest(rows, host).Some? {
      NewestIsLast(rows, host);
      assert Open(rows[Newest(rows, host).value], host);
    }
  }

  lemma {:induction false} NewestIsLast(rows: seq<Session>, host: string)
    requires Newest(rows, host).Some?
    ensures var k := Newest(rows, host).value;
            k < |rows| && forall i | k < i < |rows| && Open(rows[i], host) :: rows[i].createdAt < rows[k].createdAt
  {
    var k := |rows| - 1;
    NewestIsNewest(rows, host);
    if Newest(rows[..k], host).Some? {
      NewestIsLast(rows[..k], host);
      NewestIsNewest(rows[..k], host);
    }
  }

  class EnrollmentStore {
    var rows: seq<Session>

    ghost predicate Valid()
      reads this
    {
      forall i | 0 <= i < |rows| :: Sound(rows[i])
    }

    constructor ()
      ensures rows == [] && Valid()
    {
      rows := [];
    }

    method Advance(i: nat, status: Status, now: int, allowCompletion: bool) returns (r: Result<bool, Error>)
      requires i < |rows|
      modifies this
      ensures var s := old(rows)[i];
              match AdvanceError(s, status, allowCompletion)
              case Some(error) => r == Err(error) && rows == old(rows)
              case None => r == Ok(status.step > s.sequence)
                           && rows == old(rows)[i :=
                                if status.step > s.sequence then StepTo(s, status.step, now) else s]
    {
      var s := rows[i];
      if !status.At? || status.step > COMPLETED {
        return Err(InvalidState);
      }
      if status == At(COMPLETED) && !allowCompletion {
        return Err(InvalidState);
      }
      if Terminal(s.status) {
        return Err(Inactive);
      }
      if status.step < s.sequence {
        return Err(Backwards);
      }
      if status.step == s.sequence {
        return Ok(false);
      }
      s := s.(status := status, sequence := status.step);
      if status == At(COMPLETED) {
        s := s.(completedAt := Some(now));
      }
      rows := rows[i := Logged(s, now)];
      return Ok(true);
    }

    /** Advance a session to every step of a range it has not reached, one logged step at a time;
        no step is refused. */
    method Walk(i: nat, first: nat, last: nat, now: int)
      requires i < |rows| && rows[i].status == At(rows[i].sequence)
      requires first <= rows[i].sequence + 1 && last <= COMPLETED
      modifies this
      ensures rows == old(rows)[i := Through(old(rows)[i], last, now)]
    {
      ghost var s := rows[i];
      var n := first;
      while n <= last
        invariant first <= n && (n <= last + 1 || n == first)
        invariant |rows| == |old(rows)|
        invariant rows == old(rows)[i := Through(s, if n == 0 then 0 else n - 1, now)]
      {
        ThroughAt(s, if n == 0 then 0 else n - 1, now);
        if n > rows[i].sequence {
          var step := Advance(i, At(n), now, n == COMPLETED);
          assert step == Ok(true);
        }
        n := n + 1;
      }
    }

    /** Mark the session used and catch up with the steps before the request. */
    method Consume(i: nat, allowed: bool, now: int) returns (r: Result<(), Error>)
      requires Valid() && i < |rows|
      modifies this
      ensures Valid()
      ensures r.Ok? <==> TokenAccepted(old(rows)[i], allowed, now)
      ensures rows == if r.Ok? then old(rows)[i := Consumed(old(rows)[i], now)] else old(rows)
    {
      var s := rows[i];
      if !TokenAccepted(s, allowed, now) {
        return Err(Rejected);
      }
      ConsumedSound(s, allowed, now);
      rows := rows[i := s.(usedAt := Some(now))];
      Walk(i, s.sequence + 1, CSR_SUBMITTED, now);
      return Ok(());
    }

    method Bootstrap(i: nat, allowed: bool, succeeds: bool, now: int) returns (ok: bool)
      requires Valid() && i < |rows|
      modifies this
      ensures Valid()
      ensures ok <==> TokenAccepted(old(rows)[i], allowed, now) && succeeds
      ensures rows == if ok then old(rows)[i := Bootstrapped(old(rows)[i], now)] else old(rows)
    {
      var before := rows;
      var consumed := Consume(i, allowed, now);
      if consumed.Err? {
        return false;
      }
      ConsumedSound(before[i], allowed, now);
      BootstrappedSound(before[i], allowed, now);
      if !succeeds {
        rows := before;
        return false;
      }
      var step := Advance(i, At(CERTIFICATE_ISSUED), now, false);
      assert step == Ok(true);
      rows := rows[i := rows[i].(progress := true)];
      return true;
    }

    method Fail(i: nat, now: int) returns (r: Result<(), Error>)
      requires i < |rows|
      modifies this
      ensures r.Ok? <==> old(rows)[i].status != At(COMPLETED) && !old(rows)[i].status.Revoked?
      ensures rows == if r.Ok? then old(rows)[i := FailedSession(old(rows)[i], now)] else old(rows)
    {
      var s := rows[i];
      if s.status == At(COMPLETED) || s.status.Revoked? {
        return Err(Inactive);
      }
      rows := rows[i := Logged(s.(status := Failed, progress := false), now)];
      return Ok(());
    }

    /** A heartbeat completes the newest open session of its host, unless that one failed. The
        steps it takes can never be refused. */
    method Complete(host: string, now: int) returns (done: Option<nat>)
      requires Valid()
      modifies this
      ensures Valid()
      ensures done == match Newest(old(rows), host)
                      case Some(k) => if k < |old(rows)| && !old(rows)[k].status.Failed? then Some(k) else None
                      case None => None
      ensures rows == match done
                      case Some(k) => old(rows)[k := CompletedSession(old(rows)[k], now)]
                      case None => old(rows)
    {
      NewestIsNewest(rows, host);
      var found := Newest(rows, host);
      if found.None? || rows[found.value].status.Failed? {
        return None;
      }
      var k := found.value;
      ThroughSound(rows[k], COMPLETED, now);
      Walk(k, CERTIFICATE_ISSUED, COMPLETED, now);
      rows := rows[k := rows[k].(progress := false)];
      return Some(k);
    }

    /** Revoke every live session of the host, then add the new one. */
    method Issue(host: string, ttl: int, activeAgent: bool, wellFormed: bool, now: int) returns (r: Result<nat, Error>)
      requires Valid()
      modifies this
      ensures Valid()
      ensures r.Ok? <==> 60 <= ttl <= 86400 && !activeAgent && wellFormed
      ensures r.Ok? ==>
                r.value == |old(rows)| && rows == RevokedLive(old(rows), host, now) + [Issued(host, now + ttl, now)]
      ensures r.Err? ==> rows == old(rows)
    {
      if ttl < 60 || ttl > 86400 {
        return Err(OutOfRange);
      }
      if activeAgent {
        return Err(ActiveAgent);
      }
      if !wellFormed {
        return Err(OutOfRange);
      }
      ghost var before := rows;
      var i := 0;
      while i < |rows|
        invariant i <= |rows| == |before|
        invariant forall j | 0 <= j < i :: rows[j] == RevokedIfLive(before[j], host, now)
        invariant forall j | i <= j < |rows| :: rows[j] == before[j]
      {
        if rows[i].host == host && Live(rows[i], now) {
          rows := rows[i := Logged(rows[i].(revokedAt := Some(now), status := Revoked), now)];
        }
        i := i + 1;
      }
      assert rows == RevokedLive(before, host, now);
      forall j | 0 <= j < |rows| ensures Sound(rows[j]) {
        EndingsSound(before[j], now);
      }
      rows := rows + [Issued(host, now + ttl, now)];
      return Ok(|rows| - 1);
    }

    method Revoke(i: nat, host: string, now: int) returns (r: Result<(), Error>)
      requires Valid()
      modifies this
      ensures Valid()
      ensures r.Ok? <==> i < |old(rows)| && old(rows)[i].host == host && old(rows)[i].usedAt.None?
      ensures rows == if r.Ok? && old(rows)[i].revokedAt.None? then old(rows)[i := RevokedSession(old(rows)[i], now)]
                      else old(rows)
    {
      if i >= |rows| || rows[i].host != host {
        return Err(NotFound);
      }
      if rows[i].usedAt.Some? {
        return Err(AlreadyUsed);
      }
      if rows[i].revokedAt.None? {
        EndingsSound(rows[i], now);
        rows := rows[i := Logged(rows[i].(revokedAt := Some(now), status := Revoked), now)];
      }
      return Ok(());
    }

    /** A progress report under the enrollment credential or the progress one. */
    method Report(i: nat, credential: Credential, status: Status, explained: bool, allowed: bool, now: int)
      returns (accepted: bool)
      requires Valid() && i < |rows|
      modifies this
      ensures Valid()
      ensures accepted <==> ReportAccepted(old(rows)[i], credential, status, explained, allowed, now)
      ensures rows == if accepted then old(rows)[i := Reported(old(rows)[i], status, now)] else old(rows)
    {
      var s := rows[i];
      if !Authenticates(s, credential, allowed, now) {
        return false;
      }
      if status.Failed? {
        if !explained {
          return false;
        }
        EndingsSound(s, now);
        var r := Fail(i, now);
        return r.Ok?;
      } else if Reportable(credential, status) {
        ghost var before := rows;
        if s.sequence < status.step {
          StepToSound(s, status.step, now);
        }
        var r := Advance(i, status, now, false);
        assert r.Ok? ==> rows == before[i := Reported(s, status, now)];
        return r.Ok?;
      }
      return false;
    }
  }

  function RevokedIfLive(s: Session, host: string, now: int): Session {
    if s.host == host && Live(s, now) then RevokedSession(s, now) else s
  }

  function RevokedLive(rows: seq<Session>, host: string, now: int): (r: seq<Session>)
    ensures |r| == |rows|
    ensures forall j | 0 <= j < |rows| :: r[j] == RevokedIfLive(rows[j], host, now)
  {
    seq(|rows|, j requires 0 <= j < |rows| => RevokedIfLive(rows[j], host, now))
  }

  /** Afterwards the host has no session left that could be consumed, now or later; every
      session that could not be consumed, or is another host's, is as it was. */
  lemma NoneStaysLive(rows: seq<Session>, host: string, now: int, later: int)
    requires now <= later
    ensures var next := RevokedLive(rows, host, now);
            && |next| == |rows|
            && (forall k | 0 <= k < |next| && next[k].host == host :: !Live(next[k], later))
            && (forall k | 0 <= k < |rows| && !(rows[k].host == host && Live(rows[k], now)) :: next[k] == rows[k])
  {
  }

  datatype Credential = Installer | Progress

  predicate Authenticates(s: Session, c: Credential, allowed: bool, now: int) {
    if c == Progress then ProgressAccepted(s, allowed, now) else TokenAccepted(s, allowed, now)
  }

  /** The steps each credential may report. */
  predicate Reportable(c: Credential, status: Status) {
    status.At? && if c == Progress then 9 <= status.step <= 10 else 1 <= status.step <= 7
  }

  predicate ReportAccepted(s: Session, c: Credential, status: Status, explained: bool, allowed: bool, now: int) {
    && Authenticates(s, c, allowed, now)
    && ((status.Failed? && explained) || (Reportable(c, status) && s.sequence <= status.step))
  }

  function Reported(s: Session, status: Status, now: int): Session {
    if status.Failed? then FailedSession(s, now)
    else if status.At? && status.step > s.sequence then StepTo(s, status.step, now)
    else s
  }

  /** Main result: which reports are accepted. The installer's token reports steps 1 to 7 until it is
      used, the progress credential steps 9 and 10; neither goes back, a failure needs an explanation,
      and nothing is accepted of a session that has ended or expired. */
  lemma ReportAcceptedIff(
    s: Session, c: Credential, status: Status, explained: bool, allowed: bool, now: int)
    requires Sound(s)
    ensures ReportAccepted(s, c, status, explained, allowed, now) <==>
      && allowed && now < s.expiresAt && NeverLogged(s, Failed) && NeverLogged(s, Revoked)
      && (match c
          case Installer => s.usedAt == None
          case Progress => s.progress && NeverLogged(s, At(12)))
      && (match status
          case Failed => explained
          case Revoked => false
          case At(n) => s.sequence <= n && if c == Installer then 1 <= n <= 7 else 9 <= n <= 10)
  {
    TokenAcceptedIff(s, allowed, now);
    ProgressAcceptedIff(s, allowed, now);
  }

  /** Exactly which sessions a new one revokes: those of its host that were not consumed, not revoked
      and have not expired. The revocation is logged, and nothing else changes. */
  lemma IssueRevokesIff(s: Session, host: string, now: int)
    requires Sound(s)
    ensures RevokedIfLive(s, host, now) ==
            if s.host == host && s.usedAt == None && NeverLogged(s, Revoked) && now < s.expiresAt then
              s.(status := Revoked, revokedAt := Some(now), log := s.log + [Entry(Revoked, s.sequence, now)])
            else s
  {
    EndingIsLast(s, Revoked);
  }
}
