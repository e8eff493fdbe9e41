/** The controller's replay protection for signed agent requests: a timestamp window and
    nonces kept for as long as the window needs them
    (controller/guardian/agent_security.py:99-184). Times are microseconds. */
module AgentReplay {
  import opened Base

  /** Stored nonces and when they may be forgotten. */
  type Nonces = map<string, int>

  /** A signed request as it arrives. `sound` stands for the accepted identity and the valid
      signature; `ttl` is the configured lifetime in force. */
  datatype Request = Request(nonce: string, signedAt: int, sound: bool)
  datatype Arrival = Arrival(q: Request, now: int, ttl: nat)

  function Kept(rows: Nonces, now: int): Nonces {
    map n | n in rows && rows[n] >= now :: rows[n]
  }

  predicate InWindow(a: Arrival) {
    a.q.signedAt - a.ttl <= a.now <= a.q.signedAt + a.ttl
  }

  predicate Accepts(rows: Nonces, a: Arrival) {
    a.q.sound && 16 <= |a.q.nonce| <= 128 && InWindow(a) && a.q.nonce !in Kept(rows, a.now)
  }

  /** How long a nonce is kept: past the later of now and the timestamp. */
  function ExpiryOf(a: Arrival): int {
    Max(a.now, a.q.signedAt) + a.ttl
  }

  function Recorded(rows: Nonces, a: Arrival): Nonces {
    Kept(rows, a.now)[a.q.nonce := ExpiryOf(a)]
  }

  class NonceTable {
    var rows: Nonces

    constructor ()
      ensures rows == map[]
    {
      rows := map[];
    }

    /** Verification inside one transaction. A rejected request, or one whose handler rolls
        back, leaves the table as it was. */
    method VerifyRequest(a: Arrival, commits: bool) returns (accepted: bool)
      modifies this
      ensures accepted <==> Accepts(old(rows), a)
      ensures rows == if accepted && commits then Recorded(old(rows), a) else old(rows)
    {
      if |a.q.nonce| < 16 || |a.q.nonce| > 128 {
        return false;
      }
      var distance := if a.now < a.q.signedAt then a.q.signedAt - a.now else a.now - a.q.signedAt;
      if distance > a.ttl {
        return false;
      }
      var current := Kept(rows, a.now);
      if a.q.nonce in current || !a.q.sound {
        return false;
      }
      current := current[a.q.nonce := ExpiryOf(a)];
      if commits {
        rows := current;
      }
      return true;
    }

    /** Any other purge of expired rows. */
    method Purge(now: int)
      modifies this
      ensures rows == Kept(old(rows), now)
    {
      rows := Kept(rows, now);
    }
  }

  // ---------------------------------------------------------------- runs

  /** Requests of any agent, committed or rolled back, and purges, in any order. */
  datatype Event = Verify(a: Arrival, commits: bool) | Purge(now: int)

  function TimeOf(e: Event): int {
    match e
    case Verify(a, _) => a.now
    case Purge(now) => now
  }

  function Step(rows: Nonces, e: Event): Nonces {
    match e
    case Verify(a, commits) => if Accepts(rows, a) && commits then Recorded(rows, a) else rows
    case Purge(now) => Kept(rows, now)
  }

  function After(events: seq<Event>): Nonces {
    if events == [] then map[] else Step(After(events[..|events| - 1]), events[|events| - 1])
  }

  ghost predicate ClockRuns(events: seq<Event>) {
    forall i, j | 0 <= i < j < |events| :: TimeOf(events[i]) <= TimeOf(events[j])
  }

  /** Event `i` accepted a request for good. */
  ghost predicate Committed(events: seq<Event>, i: nat) {
    i < |events| && events[i].Verify? && events[i].commits && Accepts(After(events[..i]), events[i].a)
  }

  lemma CommittedInit(events: seq<Event>, i: nat)
    requires i < |events| - 1 && Committed(events, i)
    ensures Committed(events[..|events| - 1], i)
  {
    assert events[..|events| - 1][..i] == events[..i];
  }

  /** A committed nonce stays stored, with its expiry, until the clock passes that expiry. */
  lemma {:induction false} NonceStays(events: seq<Event>, i: nat)
    requires ClockRuns(events) && Committed(events, i)
    requires TimeOf(events[|events| - 1]) <= ExpiryOf(events[i].a)
    ensures events[i].a.q.nonce in After(events)
    ensures After(events)[events[i].a.q.nonce] == ExpiryOf(events[i].a)
  {
    var init, e := events[..|events| - 1], events[|events| - 1];
    if i < |init| {
      CommittedInit(events, i);
      assert TimeOf(events[|init| - 1]) <= TimeOf(events[|events| - 1]);
      NonceStays(init, i);
      assert events[i].a.q.nonce in Kept(After(init), TimeOf(e));
    }
  }

  /** Main result: under a clock that does not go back, no request is accepted for good and
      then accepted again, for any lifetime and any interleaving of requests and purges, as long
      as the later check does not use a longer lifetime than the earlier one. */
  lemma NoReplay(events: seq<Event>, i: nat, a: Arrival)
    requires ClockRuns(events) && Committed(events, i)
    requires a.q == events[i].a.q && a.ttl <= events[i].a.ttl
    requires TimeOf(events[|events| - 1]) <= a.now
    ensures !Accepts(After(events), a)
  {
    if InWindow(a) {
      NonceStays(events, i);
    }
  }

  /** A purge decides nothing: no request that arrives at or after it is answered differently
      because of it. */
  lemma PurgeDecidesNothing(rows: Nonces, now: int, a: Arrival)
    requires now <= a.now
    ensures Accepts(Kept(rows, now), a) <==> Accepts(rows, a)
    ensures Recorded(Kept(rows, now), a) == Recorded(rows, a)
  {
    assert Kept(Kept(rows, now), a.now) == Kept(rows, a.now);
  }

  /** Event `i` was the last to accept its nonce for good. */
  ghost predicate LastCommit(events: seq<Event>, i: nat) {
    && Committed(events, i)
    && forall k | i < k < |events| && Committed(events, k) :: events[k].a.q.nonce != events[i].a.q.nonce
  }

  lemma LastCommitInit(events: seq<Event>, i: nat)
    requires i < |events| - 1 && LastCommit(events, i)
    ensures LastCommit(events[..|events| - 1], i)
  {
    var init := events[..|events| - 1];
    CommittedInit(events, i);
    forall k | i < k < |init| && Committed(init, k)
      ensures init[k].a.q.nonce != init[i].a.q.nonce
    {
      assert init[..k] == events[..k];
      assert Committed(events, k);
    }
  }

  /** As long as a nonce is stored, it is stored with the expiry of its last commit. */
  lemma {:induction false} StoredWithItsExpiry(events: seq<Event>, i: nat)
    requires LastCommit(events, i)
    ensures events[i].a.q.nonce in After(events) ==> After(events)[events[i].a.q.nonce] == ExpiryOf(events[i].a)
  {
    var init, e := events[..|events| - 1], events[|events| - 1];
    if i < |init| {
      LastCommitInit(events, i);
      StoredWithItsExpiry(init, i);
      assert e.Verify? && e.commits && Accepts(After(init), e.a) ==> Committed(events, |init|);
    }
  }

  /** Main result: exactly when an accepted request gets in again, over every run. A later copy is
      accepted if and only if the nonce's expiry has passed while the window in force still
      reaches the timestamp, which takes a longer lifetime than the first time. */
  lemma ReplayIff(events: seq<Event>, i: nat, a: Arrival)
    requires ClockRuns(events) && LastCommit(events, i)
    requires a.q == events[i].a.q && TimeOf(events[|events| - 1]) <= a.now
    ensures Accepts(After(events), a) <==> InWindow(a) && ExpiryOf(events[i].a) < a.now
    ensures Accepts(After(events), a) ==> a.ttl > events[i].a.ttl
  {
    if ExpiryOf(events[i].a) < a.now {
      StoredWithItsExpiry(events, i);
    } else {
      NonceStays(events, i);
    }
  }

  /** Where a stored nonce comes from. */
  lemma {:induction false} StoredWasCommitted(events: seq<Event>, nonce: string)
    requires nonce in After(events)
    ensures exists i: nat :: Committed(events, i) && events[i].a.q.nonce == nonce
              && After(events)[nonce] == ExpiryOf(events[i].a)
  {
    var init, e := events[..|events| - 1], events[|events| - 1];
    if e.Verify? && e.commits && Accepts(After(init), e.a) && e.a.q.nonce == nonce {
      assert Committed(events, |init|);
    } else {
      StoredWasCommitted(init, nonce);
      var i: nat :| Committed(init, i) && init[i].a.q.nonce == nonce && After(init)[nonce] == ExpiryOf(init[i].a);
      assert init[..i] == events[..i];
      assert Committed(events, i);
    }
  }

  /** Main result: over every run, a request is accepted if and only if it is sound, its nonce has
      16 to 128 characters, its timestamp is at most the lifetime away, and since every request
      accepted for good with the same nonce, more than that one's lifetime has passed, counted from
      its arrival and from its timestamp. */
  lemma AcceptedIff(events: seq<Event>, a: Arrival)
    requires ClockRuns(events) && (events != [] ==> TimeOf(events[|events| - 1]) <= a.now)
    ensures Accepts(After(events), a) <==>
      && a.q.sound && 16 <= |a.q.nonce| <= 128
      && a.now - a.q.signedAt <= a.ttl && a.q.signedAt - a.now <= a.ttl
      && forall i: nat | Committed(events, i) && events[i].a.q.nonce == a.q.nonce ::
           a.now > events[i].a.now + events[i].a.ttl && a.now > events[i].a.q.signedAt + events[i].a.ttl
  {
    forall i: nat | Committed(events, i) && events[i].a.q.nonce == a.q.nonce && ExpiryOf(events[i].a) >= a.now
      ensures !Accepts(After(events), a)
    {
      NonceStays(events, i);
    }
    if a.q.nonce in Kept(After(events), a.now) {
      StoredWasCommitted(events, a.q.nonce);
    }
  }

  /** A request accepted, and accepted again two microseconds later under a longer lifetime. */
  lemma LongerLifetimeReopens(q: Request)
    requires q.sound && 16 <= |q.nonce| <= 128
    ensures Committed([Verify(Arrival(q, q.signedAt, 1), true)], 0)
    ensures Accepts(After([Verify(Arrival(q, q.signedAt, 1), true)]), Arrival(q, q.signedAt + 2, 2))
  {
    var events := [Verify(Arrival(q, q.signedAt, 1), true)];
    assert events[..0] == [];
    ReplayIff(events, 0, Arrival(q, q.signedAt + 2, 2));
  }
}
