/** Delivering queued notifications: rate limit, backoff and dead letters
    (controller/guardian/notifications.py:176-241, controller/guardian/api.py:3808-3812).
    Instants are seconds. */
module NotificationDelivery {
  import opened Base

  datatype Status = Waiting | Retrying | Delivered | DeadLetter | Cancelled

  datatype Delivery = Delivery(
    channel: string, status: Status, attempts: nat, nextAt: int, deliveredAt: int, createdAt: int)

  /** A channel's settings; an absent number stands for a missing or non-integer one. */
  datatype Policy = Policy(ratePerMinute: nat, maxAttempts: Option<int>, baseDelay: Option<int>)

  function Clamp(low: int, high: int, n: int): int {
    Max(low, Min(high, n))
  }

  function Attempts(p: Policy): (n: nat)
    ensures 1 <= n <= 10
  {
    if p.maxAttempts.Some? then Clamp(1, 10, p.maxAttempts.value) else 5
  }

  function BaseDelay(p: Policy): (n: nat)
    ensures 5 <= n <= 3600
  {
    if p.baseDelay.Some? then Clamp(5, 3600, p.baseDelay.value) else 30
  }

  function Pow2(n: nat): (r: nat)
    ensures r >= 1
  {
    if n == 0 then 1 else 2 * Pow2(n - 1)
  }

  /** The pause after attempt number `attempt` failed. */
  function Delay(p: Policy, attempt: nat): int
    requires attempt >= 1
  {
    Min(3600, Pow2(attempt - 1) * BaseDelay(p))
  }

  lemma {:induction false} Pow2Grows(a: nat, b: nat)
    requires a <= b
    ensures Pow2(a) <= Pow2(b)
  {
    if a < b {
      Pow2Grows(a, b - 1);
    }
  }

  lemma TimesGrows(a: nat, b: nat, c: nat)
    requires a <= b
    ensures a * c <= b * c
  {
  }

  /** The backoff never shortens, starts at the clamped base delay and is at most an hour. */
  lemma BackoffGrows(p: Policy, a: nat, b: nat)
    requires 1 <= a <= b
    ensures 5 <= Delay(p, a) <= Delay(p, b) <= 3600
    ensures Delay(p, 1) == BaseDelay(p)
  {
    Pow2Grows(a - 1, b - 1);
    TimesGrows(Pow2(a - 1), Pow2(b - 1), BaseDelay(p));
    TimesGrows(1, Pow2(a - 1), BaseDelay(p));
  }

  /** What the settings come to: 5 tries and 30 seconds unless given, within 1 to 10 and 5 to 3600. */
  lemma SettingsPlainly(p: Policy)
    ensures Attempts(p) == match p.maxAttempts
                           case None => 5
                           case Some(n) => if n < 1 then 1 else if n > 10 then 10 else n
    ensures BaseDelay(p) == match p.baseDelay
                            case None => 30
                            case Some(n) => if n < 5 then 5 else if n > 3600 then 3600 else n
  {
  }

  /** The pause doubles with every failed try until it is an hour. */
  lemma DelayDoubles(p: Policy, attempt: nat)
    requires attempt >= 1
    ensures Delay(p, 1) == BaseDelay(p)
    ensures Delay(p, attempt + 1) == if Delay(p, attempt) <= 1800 then 2 * Delay(p, attempt) else 3600
  {
    BackoffGrows(p, 1, attempt);
    assert Pow2(attempt) * BaseDelay(p) == 2 * (Pow2(attempt - 1) * BaseDelay(p));
  }

  // ---------------------------------------------------------------- one delivery

  /** A tick: its instant, the deliveries whose channel is enabled and whose alert exists, and
      those whose sending would succeed. */
  datatype Tick = Tick(now: int, usable: set<nat>, succeeds: set<nat>)

  predicate Active(d: Delivery) {
    d.status == Waiting || d.status == Retrying
  }

  predicate SentSince(d: Delivery, channel: string, from: int) {
    d.status == Delivered && d.channel == channel && d.deliveredAt >= from
  }

  function CountSince(rows: seq<Delivery>, channel: string, from: int): nat {
    if rows == [] then 0
    else CountSince(rows[..|rows| - 1], channel, from) + if SentSince(rows[|rows| - 1], channel, from) then 1 else 0
  }

  function Attempted(d: Delivery, p: Policy, now: int, succeeds: bool): Delivery {
    var n := d.attempts + 1;
    if succeeds then d.(attempts := n, status := Delivered, deliveredAt := now)
    else if n >= Attempts(p) then d.(attempts := n, status := DeadLetter)
    else d.(attempts := n, status := Retrying, nextAt := now + Delay(p, n))
  }

  /** The channel has used up its last minute. */
  predicate Limited(rows: seq<Delivery>, i: nat, p: Policy, now: int)
    requires i < |rows|
  {
    CountSince(rows, rows[i].channel, now - 60) >= p.ratePerMinute
  }

  function Processed(rows: seq<Delivery>, i: nat, p: Policy, t: Tick): Delivery
    requires i < |rows|
  {
    var d := rows[i];
    if i !in t.usable then d.(status := Cancelled)
    else if Limited(rows, i, p, t.now) then d.(nextAt := t.now + 60, status := Retrying)
    else Attempted(d, p, t.now, i in t.succeeds)
  }

  /** Sending was tried. */
  predicate Tried(rows: seq<Delivery>, i: nat, p: Policy, t: Tick)
    requires i < |rows|
  {
    i in t.usable && !Limited(rows, i, p, t.now)
  }

  /** The positions of the due deliveries, oldest first, without the batch limit. */
  function AllDue(rows: seq<Delivery>, now: int): (due: seq<nat>)
    ensures forall k | 0 <= k < |due| :: due[k] < |rows| && Active(rows[due[k]]) && rows[due[k]].nextAt <= now
    ensures forall j, k | 0 <= j < k < |due| :: due[j] < due[k]
  {
    if rows == [] then []
    else
      var k := |rows| - 1;
      AllDue(rows[..k], now) + if Active(rows[k]) && rows[k].nextAt <= now then [k] else []
  }

  function Due(rows: seq<Delivery>, now: int): (due: seq<nat>)
    ensures forall k | 0 <= k < |due| :: due[k] < |rows| && Active(rows[due[k]]) && rows[due[k]].nextAt <= now
    ensures forall j, k | 0 <= j < k < |due| :: due[j] < due[k]
  {
    var all := AllDue(rows, now);
    if |all| > 100 then all[..100] else all
  }

  /** The delivery waits, and its time has come. */
  predicate IsDue(d: Delivery, now: int) {
    d.status in {Waiting, Retrying} && d.nextAt <= now
  }

  function DuePositions(rows: seq<Delivery>, now: int): set<nat> {
    set i: nat | i < |rows| && IsDue(rows[i], now)
  }

  lemma DuePositionsGrow(rows: seq<Delivery>, now: int)
    requires rows != []
    ensures var k: nat := |rows| - 1;
            DuePositions(rows, now) == DuePositions(rows[..k], now) + if IsDue(rows[k], now) then {k} else {}
    ensures |DuePositions(rows, now)| == |DuePositions(rows[..|rows| - 1], now)| +
              if IsDue(rows[|rows| - 1], now) then 1 else 0
  {
    var k: nat := |rows| - 1;
    var earlier := DuePositions(rows[..k], now);
    assert k !in earlier;
    assert DuePositions(rows, now) == earlier + if IsDue(rows[k], now) then {k} else {};
  }

  lemma {:induction false} AllDueHas(rows: seq<Delivery>, now: int, i: nat)
    requires i < |rows| && IsDue(rows[i], now)
    ensures i in AllDue(rows, now)
  {
    if i < |rows| - 1 {
      AllDueHas(rows[..|rows| - 1], now, i);
    }
  }

  lemma {:induction false} AllDueCount(rows: seq<Delivery>, now: int)
    ensures |AllDue(rows, now)| == |DuePositions(rows, now)|
  {
    if rows != [] {
      AllDueCount(rows[..|rows| - 1], now);
      DuePositionsGrow(rows, now);
    }
  }

  /** How many older deliveries are due. */
  function DueBefore(rows: seq<Delivery>, now: int, i: nat): nat
    requires i <= |rows|
  {
    |DuePositions(rows[..i], now)|
  }

  lemma DueBeforeInit(rows: seq<Delivery>, now: int, i: nat)
    requires i < |rows|
    ensures DueBefore(rows[..|rows| - 1], now, i) == DueBefore(rows, now, i)
    ensures DueBefore(rows, now, |rows| - 1) == |AllDue(rows[..|rows| - 1], now)|
  {
    assert rows[..|rows| - 1][..i] == rows[..i];
    AllDueCount(rows[..|rows| - 1], now);
  }

  lemma {:induction false} AllDueBefore(rows: seq<Delivery>, now: int, j: nat, i: nat)
    requires j < |AllDue(rows, now)| && AllDue(rows, now)[j] == i
    ensures i < |rows| && DueBefore(rows, now, i) == j
  {
    DueBeforeInit(rows, now, i);
    if j < |AllDue(rows[..|rows| - 1], now)| {
      AllDueBefore(rows[..|rows| - 1], now, j, i);
    }
  }

  /** Main result: a batch takes a delivery if and only if it is due and fewer than 100 older ones
      are. */
  lemma DueIff(rows: seq<Delivery>, now: int, i: nat)
    ensures i in Due(rows, now) <==>
            i < |rows| && IsDue(rows[i], now) && DueBefore(rows, now, i) < 100
  {
    var all := AllDue(rows, now);
    if i < |rows| && IsDue(rows[i], now) {
      AllDueHas(rows, now, i);
    }
    if j: nat :| j < |all| && all[j] == i {
      AllDueBefore(rows, now, j, i);
      if |all| > 100 {
        OnlyAt(all, j, i);
      }
    }
  }

  lemma OnlyAt(s: seq<nat>, j: nat, i: nat)
    requires 100 <= |s| && j < |s| && s[j] == i && forall a, b | 0 <= a < b < |s| :: s[a] < s[b]
    ensures i in s[..100] <==> j < 100
  {
    if j < 100 {
      assert s[..100][j] == i;
    }
  }

  /** The deliveries of a channel that were sent in the last minute. */
  function SentLastMinute(rows: seq<Delivery>, channel: string, now: int): set<nat> {
    set k: nat | k < |rows| && rows[k].status == Delivered && rows[k].channel == channel
      && now - 60 <= rows[k].deliveredAt
  }

  lemma {:induction false} CountsLastMinute(rows: seq<Delivery>, channel: string, now: int)
    ensures CountSince(rows, channel, now - 60) == |SentLastMinute(rows, channel, now)|
  {
    if rows != [] {
      var k: nat := |rows| - 1;
      CountsLastMinute(rows[..k], channel, now);
      if SentSince(rows[k], channel, now - 60) {
        assert SentLastMinute(rows, channel, now) == SentLastMinute(rows[..k], channel, now) + {k};
      } else {
        assert SentLastMinute(rows, channel, now) == SentLastMinute(rows[..k], channel, now);
      }
    }
  }

  /** Main result: what becomes of a delivery that a batch takes. It is cancelled without its channel
      or alert, put off by a minute without a try if the channel has used up its last minute, and
      otherwise tried: then delivered, given up at the last allowed try, or retried after the pause. */
  lemma OutcomeIff(rows: seq<Delivery>, i: nat, p: Policy, t: Tick)
    requires i < |rows|
    ensures var d, r := rows[i], Processed(rows, i, p, t);
            var full := |SentLastMinute(rows, d.channel, t.now)| >= p.ratePerMinute;
            && r.channel == d.channel && r.createdAt == d.createdAt
            && (if i !in t.usable then r == d.(status := Cancelled)
                else if full then r == d.(status := Retrying, nextAt := t.now + 60)
                else
                  && r.attempts == d.attempts + 1
                  && (r.status == Delivered <==> i in t.succeeds)
                  && (r.status == DeadLetter <==> i !in t.succeeds && r.attempts >= Attempts(p))
                  && (r.status == Retrying <==> i !in t.succeeds && r.attempts < Attempts(p))
                  && r.deliveredAt == (if i in t.succeeds then t.now else d.deliveredAt)
                  && r.nextAt == if r.status == Retrying then t.now + Delay(p, r.attempts) else d.nextAt)
  {
    CountsLastMinute(rows, rows[i].channel, t.now);
  }

  /** The deliveries after the first entries of a batch were processed, each seeing the
      deliveries the earlier ones sent. */
  function Batch(rows: seq<Delivery>, due: seq<nat>, policies: map<string, Policy>, t: Tick): (r: seq<Delivery>)
    requires forall k | 0 <= k < |due| :: due[k] < |rows|
    ensures |r| == |rows|
  {
    if due == [] then rows
    else
      var earlier := Batch(rows, due[..|due| - 1], policies, t);
      var i := due[|due| - 1];
      earlier[i := Processed(earlier, i, PolicyOf(policies, earlier[i].channel), t)]
  }

  /** Sending is tried and succeeds. */
  predicate Sends(rows: seq<Delivery>, i: nat, p: Policy, t: Tick)
    requires i < |rows|
  {
    Tried(rows, i, p, t) && i in t.succeeds
  }

  /** How many deliveries of a batch are sent. */
  function SentInBatch(rows: seq<Delivery>, due: seq<nat>, policies: map<string, Policy>, t: Tick): nat
    requires forall k | 0 <= k < |due| :: due[k] < |rows|
  {
    if due == [] then 0
    else
      var earlier, i := Batch(rows, due[..|due| - 1], policies, t), due[|due| - 1];
      SentInBatch(rows, due[..|due| - 1], policies, t)
      + if Sends(earlier, i, PolicyOf(policies, earlier[i].channel), t) then 1 else 0
  }

  function PolicyOf(policies: map<string, Policy>, channel: string): Policy {
    if channel in policies then policies[channel] else Policy(30, None, None)
  }

  class Outbox {
    const policies: map<string, Policy>
    var rows: seq<Delivery>

    constructor (policies: map<string, Policy>)
      ensures this.policies == policies && rows == []
    {
      this.policies := policies;
      rows := [];
    }

    /** One delivery of a batch. */
    method DeliverOne(i: nat, t: Tick) returns (sent: bool)
      requires i < |rows|
      modifies this`rows
      ensures rows == old(rows)[i := Processed(old(rows), i, PolicyOf(policies, old(rows)[i].channel), t)]
      ensures sent <==> Sends(old(rows), i, PolicyOf(policies, old(rows)[i].channel), t)
    {
      var d := rows[i];
      if i !in t.usable {
        rows := rows[i := d.(status := Cancelled)];
        return false;
      }
      var p := PolicyOf(policies, d.channel);
      var sentLastMinute := CountSince(rows, d.channel, t.now - 60);
      if sentLastMinute >= p.ratePerMinute {
        rows := rows[i := d.(nextAt := t.now + 60, status := Retrying)];
        return false;
      }
      d := d.(attempts := d.attempts + 1);
      sent := i in t.succeeds;
      if sent {
        d := d.(status := Delivered, deliveredAt := t.now);
      } else if d.attempts >= Attempts(p) {
        d := d.(status := DeadLetter);
      } else {
        d := d.(status := Retrying, nextAt := t.now + Delay(p, d.attempts));
      }
      rows := rows[i := d];
    }

    method DeliverPending(t: Tick) returns (delivered: nat)
      modifies this`rows
      ensures rows == Batch(old(rows), Due(old(rows), t.now), policies, t)
      ensures delivered == SentInBatch(old(rows), Due(old(rows), t.now), policies, t)
    {
      var due := Due(rows, t.now);
      delivered := 0;
      for k := 0 to |due|
        invariant |rows| == |old(rows)|
        invariant rows == Batch(old(rows), due[..k], policies, t)
        invariant delivered == SentInBatch(old(rows), due[..k], policies, t)
      {
        assert due[..k + 1][..k] == due[..k];
        var sent := DeliverOne(due[k], t);
        if sent {
          delivered := delivered + 1;
        }
      }
      assert due[..|due|] == due;
    }

    method Retry(i: nat, now: int) returns (ok: bool)
      requires i < |rows|
      modifies this`rows
      ensures ok <==> old(rows)[i].status == DeadLetter
      ensures rows == if ok then old(rows)[i := old(rows)[i].(status := Waiting, nextAt := now)] else old(rows)
    {
      if rows[i].status != DeadLetter {
        return false;
      }
      rows := rows[i := rows[i].(status := Waiting, nextAt := now)];
      return true;
    }
  }

  // ---------------------------------------------------------------- runs

  /** One delivery of a batch, one queued notification, or one manual retry. */
  datatype Event =
    | Process(i: nat, t: Tick)
    | Queue(channel: string, now: int)
    | Retry(i: nat, now: int)

  function TimeOf(e: Event): int {
    match e
    case Process(_, t) => t.now
    case Queue(_, now) => now
    case Retry(_, now) => now
  }

  /** The delivery is selected by a tick. */
  predicate Selected(rows: seq<Delivery>, e: Event) {
    e.Process? && e.i < |rows| && Active(rows[e.i]) && rows[e.i].nextAt <= e.t.now
  }

  predicate Retried(rows: seq<Delivery>, e: Event) {
    e.Retry? && e.i < |rows| && rows[e.i].status == DeadLetter
  }

  function Step(rows: seq<Delivery>, e: Event, policies: map<string, Policy>): (r: seq<Delivery>)
    ensures |rows| <= |r|
  {
    match e
    case Process(i, t) =>
      if Selected(rows, e) then rows[i := Processed(rows, i, PolicyOf(policies, rows[i].channel), t)] else rows
    case Queue(channel, now) => rows + [Delivery(channel, Waiting, 0, now, 0, now)]
    case Retry(i, now) => if Retried(rows, e) then rows[i := rows[i].(status := Waiting, nextAt := now)] else rows
  }

  function After(events: seq<Event>, policies: map<string, Policy>): seq<Delivery> {
    if events == [] then []
    else Step(After(events[..|events| - 1], policies), events[|events| - 1], policies)
  }

  ghost predicate ClockRuns(events: seq<Event>) {
    forall i, j | 0 <= i < j < |events| :: TimeOf(events[i]) <= TimeOf(events[j])
  }

  /** A batch is a run of single deliveries: no entry disturbs a later one. */
  function Singles(due: seq<nat>, t: Tick): (r: seq<Event>)
    ensures |r| == |due|
  {
    if due == [] then [] else Singles(due[..|due| - 1], t) + [Process(due[|due| - 1], t)]
  }

  function Run(rows: seq<Delivery>, events: seq<Event>, policies: map<string, Policy>): seq<Delivery> {
    if events == [] then rows
    else Step(Run(rows, events[..|events| - 1], policies), events[|events| - 1], policies)
  }

  /** Positions in increasing order, of deliveries that are due. */
  ghost predicate AreDue(due: seq<nat>, rows: seq<Delivery>, now: int) {
    && (forall k | 0 <= k < |due| :: due[k] < |rows| && Active(rows[due[k]]) && rows[due[k]].nextAt <= now)
    && (forall j, k | 0 <= j < k < |due| :: due[j] < due[k])
  }

  lemma LastIsNew(due: seq<nat>, rows: seq<Delivery>, now: int)
    requires AreDue(due, rows, now) && due != []
    ensures AreDue(due[..|due| - 1], rows, now) && due[|due| - 1] !in due[..|due| - 1]
  {
    var init := due[..|due| - 1];
    forall k | 0 <= k < |init| ensures init[k] != due[|due| - 1] {
      assert due[k] < due[|init|];
    }
  }

  lemma {:induction false} BatchLeaves(
    rows: seq<Delivery>, due: seq<nat>, policies: map<string, Policy>, t: Tick, i: nat)
    requires forall k | 0 <= k < |due| :: due[k] < |rows|
    requires i < |rows| && i !in due
    ensures Batch(rows, due, policies, t)[i] == rows[i]
  {
    if due != [] {
      BatchLeaves(rows, due[..|due| - 1], policies, t, i);
      assert due[|due| - 1] in due;
    }
  }

  /** A batch is a run of single deliveries, and leaves every other delivery as it was. */
  lemma {:induction false} BatchIsARun(rows: seq<Delivery>, due: seq<nat>, policies: map<string, Policy>, t: Tick)
    requires AreDue(due, rows, t.now)
    ensures Run(rows, Singles(due, t), policies) == Batch(rows, due, policies, t)
    ensures forall i | 0 <= i < |rows| && i !in due :: Batch(rows, due, policies, t)[i] == rows[i]
  {
    if due != [] {
      var init, i := due[..|due| - 1], due[|due| - 1];
      LastIsNew(due, rows, t.now);
      BatchIsARun(rows, init, policies, t);
      BatchLeaves(rows, init, policies, t, i);
      assert Singles(due, t)[..|due| - 1] == Singles(init, t);
    }
    forall i | 0 <= i < |rows| && i !in due ensures Batch(rows, due, policies, t)[i] == rows[i] {
      BatchLeaves(rows, due, policies, t, i);
    }
  }

  function CountDelivered(rows: seq<Delivery>): nat {
    if rows == [] then 0
    else CountDelivered(rows[..|rows| - 1]) + if rows[|rows| - 1].status == Delivered then 1 else 0
  }

  lemma {:induction false} DeliveredUpdate(rows: seq<Delivery>, i: nat, d: Delivery)
    requires i < |rows| && rows[i].status != Delivered
    ensures CountDelivered(rows[i := d]) == CountDelivered(rows) + if d.status == Delivered then 1 else 0
  {
    var k := |rows| - 1;
    if i < k {
      DeliveredUpdate(rows[..k], i, d);
      assert rows[i := d][..k] == rows[..k][i := d];
    } else {
      assert rows[i := d][..k] == rows[..k];
    }
  }

  /** What a batch counts is exactly how many more deliveries are delivered after it. */
  lemma {:induction false} BatchCountsDelivered(
    rows: seq<Delivery>, due: seq<nat>, policies: map<string, Policy>, t: Tick)
    requires AreDue(due, rows, t.now)
    ensures CountDelivered(Batch(rows, due, policies, t)) == CountDelivered(rows) + SentInBatch(rows, due, policies, t)
  {
    if due != [] {
      var init, i := due[..|due| - 1], due[|due| - 1];
      LastIsNew(due, rows, t.now);
      BatchCountsDelivered(rows, init, policies, t);
      BatchLeaves(rows, init, policies, t, i);
      var earlier := Batch(rows, init, policies, t);
      ProcessedIsDelivered(earlier, i, PolicyOf(policies, earlier[i].channel), t);
      DeliveredUpdate(earlier, i, Processed(earlier, i, PolicyOf(policies, earlier[i].channel), t));
    }
  }

  lemma ProcessedIsDelivered(rows: seq<Delivery>, i: nat, p: Policy, t: Tick)
    requires i < |rows| && Active(rows[i])
    ensures Processed(rows, i, p, t).status == Delivered <==> Sends(rows, i, p, t)
  {
  }

  // ---------------------------------------------------------------- the rate limit

  /** Delivered on the channel in the closed interval. */
  predicate SentIn(d: Delivery, channel: string, from: int, to: int) {
    d.status == Delivered && d.channel == channel && from <= d.deliveredAt <= to
  }

  function CountSent(rows: seq<Delivery>, channel: string, from: int, to: int): nat {
    if rows == [] then 0
    else CountSent(rows[..|rows| - 1], channel, from, to) + if SentIn(rows[|rows| - 1], channel, from, to) then 1 else 0
  }

  lemma {:induction false} CountUpdate(rows: seq<Delivery>, i: nat, d: Delivery, channel: string, from: int, to: int)
    requires i < |rows| && !SentIn(rows[i], channel, from, to)
    ensures CountSent(rows[i := d], channel, from, to) ==
            CountSent(rows, channel, from, to) + if SentIn(d, channel, from, to) then 1 else 0
  {
    var k := |rows| - 1;
    if i < k {
      CountUpdate(rows[..k], i, d, channel, from, to);
      assert rows[i := d][..k] == rows[..k][i := d];
    } else {
      assert rows[i := d][..k] == rows[..k];
    }
  }

  lemma {:induction false} CountWithinSince(rows: seq<Delivery>, channel: string, from: int, to: int, since: int)
    requires since <= from
    ensures CountSent(rows, channel, from, to) <= CountSince(rows, channel, since)
  {
    if rows != [] {
      CountWithinSince(rows[..|rows| - 1], channel, from, to, since);
    }
  }

  /** The deliveries of a channel in the minute that starts at `from`, both ends included. */
  function InMinute(rows: seq<Delivery>, channel: string, from: int): nat {
    CountSent(rows, channel, from, from + 60)
  }

  ghost predicate Under(rows: seq<Delivery>, channel: string, rate: nat) {
    forall from :: InMinute(rows, channel, from) <= rate
  }

  lemma ProcessKeepsUnder(rows: seq<Delivery>, e: Event, policies: map<string, Policy>, channel: string)
    requires Selected(rows, e) && Under(rows, channel, PolicyOf(policies, channel).ratePerMinute)
    ensures Under(Step(rows, e, policies), channel, PolicyOf(policies, channel).ratePerMinute)
  {
    var p := PolicyOf(policies, rows[e.i].channel);
    var d := Processed(rows, e.i, p, e.t);
    var next := rows[e.i := d];
    forall from ensures InMinute(next, channel, from) <= PolicyOf(policies, channel).ratePerMinute {
      assert InMinute(rows, channel, from) <= PolicyOf(policies, channel).ratePerMinute;
      CountUpdate(rows, e.i, d, channel, from, from + 60);
      if SentIn(d, channel, from, from + 60) {
        CountWithinSince(rows, channel, from, from + 60, e.t.now - 60);
      }
    }
  }

  lemma AppendKeepsUnder(rows: seq<Delivery>, d: Delivery, channel: string, rate: nat)
    requires Under(rows, channel, rate) && d.status == Waiting
    ensures Under(rows + [d], channel, rate)
  {
    var next := rows + [d];
    forall from ensures InMinute(next, channel, from) <= rate {
      assert next[..|rows|] == rows;
      assert InMinute(rows, channel, from) <= rate;
    }
  }

  lemma RetryKeepsUnder(rows: seq<Delivery>, i: nat, d: Delivery, channel: string, rate: nat)
    requires i < |rows| && rows[i].status == DeadLetter && d.status == Waiting && Under(rows, channel, rate)
    ensures Under(rows[i := d], channel, rate)
  {
    var next := rows[i := d];
    forall from ensures InMinute(next, channel, from) <= rate {
      assert InMinute(rows, channel, from) <= rate;
      CountUpdate(rows, i, d, channel, from, from + 60);
    }
  }

  /** Main result: no closed window of 60 seconds holds more deliveries of a channel than its
      limit per minute, in every run. */
  lemma {:induction false} NoMinuteExceedsTheRate(events: seq<Event>, policies: map<string, Policy>, channel: string)
    ensures Under(After(events, policies), channel, PolicyOf(policies, channel).ratePerMinute)
  {
    if events != [] {
      var init, e := events[..|events| - 1], events[|events| - 1];
      NoMinuteExceedsTheRate(init, policies, channel);
      var rows := After(init, policies);
      if Selected(rows, e) {
        ProcessKeepsUnder(rows, e, policies, channel);
      } else if e.Queue? {
        AppendKeepsUnder(rows, Delivery(e.channel, Waiting, 0, e.now, 0, e.now), channel,
                         PolicyOf(policies, channel).ratePerMinute);
      } else if Retried(rows, e) {
        RetryKeepsUnder(rows, e.i, rows[e.i].(status := Waiting, nextAt := e.now), channel,
                        PolicyOf(policies, channel).ratePerMinute);
      }
    }
  }

  // ---------------------------------------------------------------- attempts

  /** How often an operator revived delivery `i`. */
  function Revivals(events: seq<Event>, policies: map<string, Policy>, i: nat): nat {
    if events == [] then 0
    else
      var e := events[|events| - 1];
      Revivals(events[..|events| - 1], policies, i)
      + if Retried(After(events[..|events| - 1], policies), e) && e.i == i then 1 else 0
  }

  /** When sending delivery `i` was tried, oldest first. */
  function Tries(events: seq<Event>, policies: map<string, Policy>, i: nat): seq<int> {
    if events == [] then []
    else
      var e := events[|events| - 1];
      var rows := After(events[..|events| - 1], policies);
      Tries(events[..|events| - 1], policies, i)
      + if Selected(rows, e) && e.i == i && Tried(rows, i, PolicyOf(policies, rows[i].channel), e.t)
        then [e.t.now] else []
  }

  /** A delivery agrees with its tries: as many as it counted, no more than allowed, fewer while
      it is active. */
  predicate Bounded(d: Delivery, p: Policy, tries: nat, revivals: nat) {
    && d.attempts == tries <= Attempts(p) + revivals
    && (Active(d) ==> tries < Attempts(p) + revivals)
    && (d.status == DeadLetter ==> tries >= Attempts(p))
  }

  lemma StepBounded(rows: seq<Delivery>, e: Event, policies: map<string, Policy>, i: nat, tries: nat, revivals: nat)
    requires i < |rows| && Bounded(rows[i], PolicyOf(policies, rows[i].channel), tries, revivals)
    ensures var p := PolicyOf(policies, rows[i].channel);
            Step(rows, e, policies)[i].channel == rows[i].channel
            && Bounded(Step(rows, e, policies)[i], p,
                       tries + (if Selected(rows, e) && e.i == i && Tried(rows, i, p, e.t) then 1 else 0),
                       revivals + if Retried(rows, e) && e.i == i then 1 else 0)
  {
  }

  lemma {:induction false} NotYetTried(events: seq<Event>, policies: map<string, Policy>, i: nat)
    requires i >= |After(events, policies)|
    ensures Tries(events, policies, i) == [] && Revivals(events, policies, i) == 0
  {
    if events != [] {
      NotYetTried(events[..|events| - 1], policies, i);
    }
  }

  /** Main result: a delivery is tried at most its clamped maximum plus once for every manual
      retry; and a dead letter nobody revived was tried exactly the maximum. */
  lemma {:induction false} AttemptsAreBounded(events: seq<Event>, policies: map<string, Policy>, i: nat)
    requires i < |After(events, policies)|
    ensures var d := After(events, policies)[i];
            var p := PolicyOf(policies, d.channel);
            var n := |Tries(events, policies, i)|;
            && Bounded(d, p, n, Revivals(events, policies, i))
            && (d.status == DeadLetter && Revivals(events, policies, i) == 0 ==> n == Attempts(p))
  {
    var init, e := events[..|events| - 1], events[|events| - 1];
    if i < |After(init, policies)| {
      AttemptsAreBounded(init, policies, i);
      StepBounded(After(init, policies), e, policies, i, |Tries(init, policies, i)|, Revivals(init, policies, i));
    } else {
      NotYetTried(init, policies, i);
    }
  }

  /** Each try comes at least the backoff after the one before. */
  predicate BackedOff(p: Policy, tries: seq<int>) {
    |tries| <= 1 ||
    (tries[|tries| - 1] >= tries[|tries| - 2] + Delay(p, |tries| - 1) && BackedOff(p, tries[..|tries| - 1]))
  }

  lemma {:induction false} BackedOffAt(p: Policy, tries: seq<int>, k: nat)
    requires BackedOff(p, tries) && 0 < k < |tries|
    ensures tries[k] >= tries[k - 1] + Delay(p, k)
  {
    if k < |tries| - 1 {
      BackedOffAt(p, tries[..|tries| - 1], k);
    }
  }

  /** The tries of a delivery are apart by the backoff, and it waits out the last pause. */
  predicate Apart(d: Delivery, p: Policy, tries: seq<int>) {
    && BackedOff(p, tries)
    && (tries != [] && Active(d) ==> d.nextAt >= tries[|tries| - 1] + Delay(p, |tries|))
    && d.attempts == |tries|
  }

  lemma StepApart(rows: seq<Delivery>, e: Event, policies: map<string, Policy>, i: nat, tries: seq<int>)
    requires i < |rows| && Apart(rows[i], PolicyOf(policies, rows[i].channel), tries)
    requires !(Retried(rows, e) && e.i == i)
    ensures var p := PolicyOf(policies, rows[i].channel);
            Step(rows, e, policies)[i].channel == rows[i].channel
            && Apart(Step(rows, e, policies)[i], p,
                     tries + if Selected(rows, e) && e.i == i && Tried(rows, i, p, e.t) then [e.t.now] else [])
  {
    var p := PolicyOf(policies, rows[i].channel);
    if Selected(rows, e) && e.i == i && Tried(rows, i, p, e.t) {
      assert (tries + [e.t.now])[..|tries|] == tries;
    } else {
      assert tries + [] == tries;
    }
  }

  /** Main result: without manual retries, consecutive tries of a delivery are at least the
      backoff apart. */
  lemma TriesAreApart(events: seq<Event>, policies: map<string, Policy>, i: nat)
    requires i < |After(events, policies)| && Revivals(events, policies, i) == 0
    ensures var d := After(events, policies)[i];
            var p, tries := PolicyOf(policies, d.channel), Tries(events, policies, i);
            Apart(d, p, tries) && forall k | 0 < k < |tries| :: tries[k] >= tries[k - 1] + Delay(p, k)
  {
    TriesBackOff(events, policies, i);
    var d := After(events, policies)[i];
    var p, tries := PolicyOf(policies, d.channel), Tries(events, policies, i);
    forall k | 0 < k < |tries| ensures tries[k] >= tries[k - 1] + Delay(p, k) {
      BackedOffAt(p, tries, k);
    }
  }

  lemma {:induction false} TriesBackOff(events: seq<Event>, policies: map<string, Policy>, i: nat)
    requires i < |After(events, policies)| && Revivals(events, policies, i) == 0
    ensures var d := After(events, policies)[i];
            Apart(d, PolicyOf(policies, d.channel), Tries(events, policies, i))
  {
    var init, e := events[..|events| - 1], events[|events| - 1];
    if i < |After(init, policies)| {
      TriesBackOff(init, policies, i);
      StepApart(After(init, policies), e, policies, i, Tries(init, policies, i));
    } else {
      NotYetTried(init, policies, i);
      assert Tries(events, policies, i) == [];
    }
  }
}
