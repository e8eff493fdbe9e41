/** The sliding-window limiter in front of enrollment (controller/guardian/enrollment.py:33-54).
    Instants are seconds of a clock that never goes back; the window is 600 seconds. */
module EnrollmentLimiter {
  import opened Base

  /** What is left when the attempts no later than `cutoff` leave the front. */
  function Pruned(attempts: seq<real>, cutoff: real): seq<real> {
    if attempts == [] || attempts[0] > cutoff then attempts else Pruned(attempts[1..], cutoff)
  }

  function AttemptsOf(attempts: map<string, seq<real>>, key: string): seq<real> {
    if key in attempts then attempts[key] else []
  }

  class RateLimiter {
    var attempts: map<string, seq<real>>

    constructor ()
      ensures attempts == map[]
    {
      attempts := map[];
    }

    method Check(key: string, limit: int, now: real) returns (allowed: bool)
      modifies this
      ensures var kept := Pruned(AttemptsOf(old(attempts), key), now - 600.0);
              && allowed == (|kept| < limit)
              && attempts == old(attempts)[key := if allowed then kept + [now] else kept]
    {
      var queue := AttemptsOf(attempts, key);
      while queue != [] && queue[0] <= now - 600.0
        invariant Pruned(queue, now - 600.0) == Pruned(AttemptsOf(attempts, key), now - 600.0)
        decreases |queue|
      {
        queue := queue[1..];
      }
      if |queue| >= limit {
        attempts := attempts[key := queue];
        return false;
      }
      attempts := attempts[key := queue + [now]];
      return true;
    }

    method Reset(key: string)
      modifies this
      ensures attempts == old(attempts) - {key}
    {
      attempts := attempts - {key};
    }

    method Clear()
      modifies this
      ensures attempts == map[]
    {
      attempts := map[];
    }
  }

  // ---------------------------------------------------------------- runs

  datatype Event = Check(key: string, limit: int, now: real) | Reset(key: string) | Clear

  function Step(attempts: map<string, seq<real>>, e: Event): map<string, seq<real>> {
    match e
    case Check(key, limit, now) =>
      var kept := Pruned(AttemptsOf(attempts, key), now - 600.0);
      attempts[key := if |kept| < limit then kept + [now] else kept]
    case Reset(key) => attempts - {key}
    case Clear => map[]
  }

  function After(events: seq<Event>): map<string, seq<real>> {
    if events == [] then map[] else Step(After(events[..|events| - 1]), events[|events| - 1])
  }

  /** The last event is a check that was allowed. */
  predicate Allowed(events: seq<Event>)
    requires events != [] && events[|events| - 1].Check?
  {
    var e := events[|events| - 1];
    |Pruned(AttemptsOf(After(events[..|events| - 1]), e.key), e.now - 600.0)| < e.limit
  }

  /** Every attempt allowed for a key since its last reset, oldest first, nothing forgotten. */
  function History(events: seq<Event>, key: string): seq<real> {
    if events == [] then []
    else
      var earlier := History(events[..|events| - 1], key);
      match events[|events| - 1]
      case Check(k, _, now) => if k == key && Allowed(events) then earlier + [now] else earlier
      case Reset(k) => if k == key then [] else earlier
      case Clear => []
  }

  /** When a key was last checked. */
  function LastCheck(events: seq<Event>, key: string): real {
    if events == [] then 0.0
    else
      var earlier := LastCheck(events[..|events| - 1], key);
      match events[|events| - 1]
      case Check(k, _, now) => if k == key then now else earlier
      case Reset(_) => earlier
      case Clear => earlier
  }

  ghost predicate ClockRuns(events: seq<Event>) {
    && (forall i | 0 <= i < |events| && events[i].Check? :: 0.0 <= events[i].now)
    && (forall i, j | 0 <= i < j < |events| && events[i].Check? && events[j].Check? :: events[i].now <= events[j].now)
  }

  ghost predicate Sorted(s: seq<real>) {
    forall i, j | 0 <= i < j < |s| :: s[i] <= s[j]
  }

  /** Pruning a sorted history cuts it exactly at the window: a suffix, all of it inside, and
      all before it outside. */
  lemma {:induction false} PrunedIsTheWindow(s: seq<real>, cutoff: real)
    requires Sorted(s)
    ensures var p := Pruned(s, cutoff);
            && |p| <= |s| && p == s[|s| - |p|..]
            && (forall i | 0 <= i < |s| - |p| :: s[i] <= cutoff)
            && (forall i | |s| - |p| <= i < |s| :: s[i] > cutoff)
  {
    if s != [] && s[0] <= cutoff {
      var rest := s[1..];
      PrunedIsTheWindow(rest, cutoff);
      var p := Pruned(s, cutoff);
      assert rest[|rest| - |p|..] == s[|s| - |p|..];
      forall i | 0 <= i < |s| - |p| ensures s[i] <= cutoff {
        if i > 0 {
          assert s[i] == rest[i - 1];
        }
      }
      forall i | |s| - |p| <= i < |s| ensures s[i] > cutoff {
        assert s[i] == rest[i - 1];
      }
    }
  }

  /** Pruning twice is pruning once at the later instant. */
  lemma {:induction false} PrunedTwice(s: seq<real>, early: real, late: real)
    requires early <= late
    ensures Pruned(Pruned(s, early), late) == Pruned(s, late)
  {
    if s != [] && s[0] <= early {
      PrunedTwice(s[1..], early, late);
    }
  }

  lemma {:induction false} PrunedAppend(s: seq<real>, x: real, cutoff: real)
    requires x > cutoff
    ensures Pruned(s + [x], cutoff) == Pruned(s, cutoff) + [x]
  {
    if s != [] && s[0] <= cutoff {
      assert (s + [x])[1..] == s[1..] + [x];
      PrunedAppend(s[1..], x, cutoff);
    }
  }

  /** The limiter's queue is the history cut at the last check, and nothing in it is later. */
  ghost predicate Tracks(events: seq<Event>, key: string, now: real) {
    && AttemptsOf(After(events), key) == Pruned(History(events, key), LastCheck(events, key) - 600.0)
    && Sorted(History(events, key))
    && LastCheck(events, key) <= now
    && (forall i | 0 <= i < |History(events, key)| :: History(events, key)[i] <= LastCheck(events, key))
  }

  lemma CheckTracks(events: seq<Event>, now: real)
    requires events != [] && events[|events| - 1].Check? && events[|events| - 1].now <= now
    requires Tracks(events[..|events| - 1], events[|events| - 1].key, events[|events| - 1].now)
    ensures Tracks(events, events[|events| - 1].key, now)
  {
    var init, e := events[..|events| - 1], events[|events| - 1];
    var h := History(init, e.key);
    PrunedTwice(h, LastCheck(init, e.key) - 600.0, e.now - 600.0);
    PrunedAppend(h, e.now, e.now - 600.0);
  }

  /** Main result: at every moment the queue of a key is exactly the in-window suffix of the
      full history since the last reset. */
  lemma {:induction false} QueueIsTheWindow(events: seq<Event>, key: string, now: real)
    requires ClockRuns(events) && 0.0 <= now
    requires forall i | 0 <= i < |events| && events[i].Check? :: events[i].now <= now
    ensures Tracks(events, key, now)
  {
    if events != [] {
      var init, e := events[..|events| - 1], events[|events| - 1];
      assert forall i | 0 <= i < |init| :: init[i] == events[i];
      assert e == events[|init|];
      QueueIsTheWindow(init, key, if e.Check? then e.now else now);
      if e.Check? && e.key == key {
        CheckTracks(events, now);
      }
    }
  }

  // ---------------------------------------------------------------- counting

  predicate Inside(t: real, from: real, to: real) {
    from < t <= to
  }

  function CountIn(s: seq<real>, from: real, to: real): nat {
    if s == [] then 0
    else CountIn(s[..|s| - 1], from, to) + if Inside(s[|s| - 1], from, to) then 1 else 0
  }

  lemma {:induction false} CountAfter(s: seq<real>, k: nat, from: real, to: real)
    requires k <= |s| && forall i | 0 <= i < k :: !Inside(s[i], from, to)
    ensures CountIn(s, from, to) <= |s| - k
    ensures (forall i | k <= i < |s| :: Inside(s[i], from, to)) ==> CountIn(s, from, to) == |s| - k
  {
    if |s| > k {
      CountAfter(s[..|s| - 1], k, from, to);
    } else if k > 0 {
      CountAfter(s[..|s| - 1], k - 1, from, to);
    }
  }

  /** Any `limit + 1` consecutive attempts span the whole window. */
  ghost predicate Spaced(s: seq<real>, limit: nat) {
    forall i, j | 0 <= i && j == i + limit && j < |s| :: s[j] - s[i] >= 600.0
  }

  lemma {:induction false} SpacedCounts(s: seq<real>, limit: nat, from: real)
    requires Sorted(s) && Spaced(s, limit)
    ensures CountIn(s, from, from + 600.0) <= limit
  {
    if s != [] {
      var last := s[|s| - 1];
      if Inside(last, from, from + 600.0) {
        var k := Pos(|s| - limit);
        if limit < |s| {
          assert s[|s| - 1] - s[|s| - 1 - limit] >= 600.0;
        }
        CountAfter(s, k, from, from + 600.0);
      } else {
        SpacedCounts(s[..|s| - 1], limit, from);
      }
    }
  }

  /** What a check at `now` keeps is the history of its key cut at `now`. */
  lemma KeptIsTheWindow(events: seq<Event>, key: string, now: real)
    requires ClockRuns(events) && 0.0 <= now
    requires forall i | 0 <= i < |events| && events[i].Check? :: events[i].now <= now
    ensures var h := History(events, key);
            var kept := Pruned(AttemptsOf(After(events), key), now - 600.0);
            && kept == Pruned(h, now - 600.0) && Sorted(h) && |kept| <= |h|
            && (forall i | 0 <= i < |h| :: h[i] <= now)
            && (forall i | 0 <= i < |h| - |kept| :: h[i] <= now - 600.0)
            && (forall i | |h| - |kept| <= i < |h| :: h[i] > now - 600.0)
  {
    QueueIsTheWindow(events, key, now);
    var h := History(events, key);
    PrunedTwice(h, LastCheck(events, key) - 600.0, now - 600.0);
    PrunedIsTheWindow(h, now - 600.0);
  }

  lemma BeforeTheLast(events: seq<Event>)
    requires events != [] && events[|events| - 1].Check? && ClockRuns(events)
    ensures var e := events[|events| - 1];
            var init := events[..|events| - 1];
            ClockRuns(init) && 0.0 <= e.now && forall i | 0 <= i < |init| && init[i].Check? :: init[i].now <= e.now
  {
    var init, e := events[..|events| - 1], events[|events| - 1];
    assert e == events[|init|];
    assert forall i | 0 <= i < |init| :: init[i] == events[i];
  }

  /** A check is allowed exactly when fewer than `limit` attempts were allowed in the 600
      seconds up to it. */
  lemma AllowedIff(events: seq<Event>)
    requires events != [] && events[|events| - 1].Check? && ClockRuns(events)
    ensures var e := events[|events| - 1];
            Allowed(events) <==>
            CountIn(History(events[..|events| - 1], e.key), e.now - 600.0, e.now) < e.limit
  {
    var init, e := events[..|events| - 1], events[|events| - 1];
    BeforeTheLast(events);
    KeptIsTheWindow(init, e.key, e.now);
    var h := History(init, e.key);
    CountAfter(h, |h| - |Pruned(AttemptsOf(After(init), e.key), e.now - 600.0)|, e.now - 600.0, e.now);
  }

  ghost predicate LimitIs(events: seq<Event>, key: string, limit: nat) {
    forall i | 0 <= i < |events| && events[i].Check? && events[i].key == key :: events[i].limit == limit
  }

  /** One more allowed attempt keeps the spacing. */
  lemma AllowedIsSpaced(h: seq<real>, now: real, kept: nat, limit: nat)
    requires Sorted(h) && Spaced(h, limit) && kept <= |h| && kept < limit
    requires forall i | 0 <= i < |h| :: h[i] <= now
    requires forall i | 0 <= i < |h| - kept :: h[i] <= now - 600.0
    ensures Sorted(h + [now]) && Spaced(h + [now], limit)
  {
  }

  lemma {:induction false} HistoryIsSpaced(events: seq<Event>, key: string, limit: nat)
    requires ClockRuns(events) && LimitIs(events, key, limit)
    ensures Sorted(History(events, key)) && Spaced(History(events, key), limit)
  {
    if events != [] {
      var init, e := events[..|events| - 1], events[|events| - 1];
      assert forall i | 0 <= i < |init| :: init[i] == events[i];
      HistoryIsSpaced(init, key, limit);
      if e.Check? && e.key == key && Allowed(events) {
        BeforeTheLast(events);
        KeptIsTheWindow(init, key, e.now);
        AllowedIsSpaced(History(init, key), e.now, |Pruned(AttemptsOf(After(init), key), e.now - 600.0)|, limit);
      }
    }
  }

  /** Main result: no half-open window of 600 seconds holds more allowed attempts of a key, since
      its last reset, than the key's limit; any `limit + 1` consecutive ones span at least 600 seconds. */
  lemma NoWindowExceedsTheLimit(events: seq<Event>, key: string, limit: nat, from: real)
    requires ClockRuns(events) && LimitIs(events, key, limit)
    ensures CountIn(History(events, key), from, from + 600.0) <= limit
    ensures Spaced(History(events, key), limit)
  {
    HistoryIsSpaced(events, key, limit);
    SpacedCounts(History(events, key), limit, from);
  }

  /** A reset touches no other key: neither its history nor the answer to its next check. */
  lemma ResetIsLocal(events: seq<Event>, key: string, other: string, limit: int, now: real)
    requires other != key
    ensures History(events + [Reset(key)], other) == History(events, other)
    ensures Allowed(events + [Reset(key)] + [Check(other, limit, now)])
       <==> Allowed(events + [Check(other, limit, now)])
  {
    var reset, check := events + [Reset(key)], Check(other, limit, now);
    assert reset[..|events|] == events;
    assert (reset + [check])[..|reset|] == reset;
    assert (events + [check])[..|events|] == events;
  }

  /** A reset forgets the window: right after it a key with a positive limit is allowed again. */
  lemma ResetReopens(events: seq<Event>, key: string, limit: nat, now: real)
    requires limit > 0
    ensures Allowed(events + [Reset(key)] + [Check(key, limit, now)])
    ensures History(events + [Reset(key)] + [Check(key, limit, now)], key) == [now]
  {
    var reset := events + [Reset(key)];
    assert reset[..|events|] == events;
    assert (reset + [Check(key, limit, now)])[..|reset|] == reset;
  }
}
