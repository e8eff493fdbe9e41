/** Ingesting cumulative counters into samples, hourly and daily rollups
    (controller/guardian/port_traffic.py:434-572). Times are microseconds. */
module TrafficRollups {
  import opened Base

  datatype Observation = Observation(policyId: string, rx: int, tx: int, generation: int, reason: Option<string>)

  datatype Sample = Sample(at: int, rx: int, tx: int, generation: int, reason: Option<string>)

  /** One row of either rollup table. */
  datatype Bucket = Bucket(rx: int, tx: int, samples: int, missing: int, discontinuities: int)

  const NOTHING := Bucket(0, 0, 0, 0, 0)

  function Plus(a: Bucket, b: Bucket): Bucket {
    Bucket(a.rx + b.rx, a.tx + b.tx, a.samples + b.samples,
           a.missing + b.missing, a.discontinuities + b.discontinuities)
  }

  lemma PlusNothing(a: Bucket)
    ensures Plus(a, NOTHING) == a == Plus(NOTHING, a)
  {
  }

  lemma PlusPairs(a: Bucket, b: Bucket, c: Bucket, d: Bucket)
    ensures Plus(Plus(a, b), Plus(c, d)) == Plus(Plus(a, c), Plus(b, d))
  {
  }

  /** The rows of one policy. Buckets are named by hours, and days, since the epoch. */
  datatype Traffic = Traffic(samples: seq<Sample>, hourly: map<int, Bucket>, daily: map<int, Bucket>)

  const NO_TRAFFIC := Traffic([], map[], map[])

  function HourOf(at: int): int {
    at / 3_600_000_000
  }

  function DayOf(at: int): int {
    at / 86_400_000_000
  }

  function Last(s: seq<Sample>): Option<Sample> {
    if s == [] then None else Some(s[|s| - 1])
  }

  // ---------------------------------------------------------------- one interval

  /** The counters of two consecutive samples can be subtracted. */
  predicate Continues(previous: Sample, current: Sample) {
    previous.generation == current.generation && previous.rx <= current.rx && previous.tx <= current.tx
  }

  function ElapsedSeconds(previous: Sample, at: int): nat {
    if at < previous.at then 0 else (at - previous.at) / 1_000_000
  }

  /** Samples are expected every 60 seconds. */
  function MissingIntervals(previous: Sample, at: int): nat {
    Max(0, ElapsedSeconds(previous, at) / 60 - 1)
  }

  /** What one stored sample adds to the buckets it falls in, given the sample before it. */
  function Contribution(previous: Option<Sample>, s: Sample): Bucket {
    var disc := if s.reason.Some? then 1 else 0;
    match previous
    case None => Bucket(0, 0, 0, 0, disc)
    case Some(p) =>
      Bucket(if Continues(p, s) then s.rx - p.rx else 0,
             if Continues(p, s) then s.tx - p.tx else 0,
             1 - disc,
             MissingIntervals(p, s.at),
             disc)
  }

  /** The reason stored with a sample: the reported one unless it is absent or empty and the
      counters cannot be subtracted. */
  function StoredReason(previous: Option<Sample>, o: Observation): Option<string> {
    if previous.None? then o.reason
    else
      var p := previous.value;
      var reported := o.reason.Some? && o.reason.value != "";
      if o.generation != p.generation then if reported then o.reason else Some("counter_reset")
      else if o.rx < p.rx || o.tx < p.tx then if reported then o.reason else Some("counter_wrap")
      else o.reason
  }

  // ---------------------------------------------------------------- reference definition

  /** What a sample contributes, and when. */
  datatype Entry = Entry(at: int, c: Bucket)

  function Entries(samples: seq<Sample>): seq<Entry> {
    if samples == [] then []
    else
      var init, s := samples[..|samples| - 1], samples[|samples| - 1];
      Entries(init) + [Entry(s.at, Contribution(Last(init), s))]
  }

  /** The sum of the entries of one bucket. */
  function BucketSum(entries: seq<Entry>, bucketOf: int -> int, bucket: int): Bucket {
    if entries == [] then NOTHING
    else
      var e := entries[|entries| - 1];
      Plus(BucketSum(entries[..|entries| - 1], bucketOf, bucket), if bucketOf(e.at) == bucket then e.c else NOTHING)
  }

  ghost predicate HasEntry(entries: seq<Entry>, bucketOf: int -> int, bucket: int) {
    exists i :: 0 <= i < |entries| && bucketOf(entries[i].at) == bucket
  }

  /** A rollup table is exactly the grouping of the samples. */
  ghost predicate Rolls(table: map<int, Bucket>, entries: seq<Entry>, bucketOf: int -> int) {
    && (forall b :: b in table <==> HasEntry(entries, bucketOf, b))
    && (forall b | b in table :: table[b] == BucketSum(entries, bucketOf, b))
  }

  ghost predicate Increasing(samples: seq<Sample>) {
    forall i, j | 0 <= i < j < |samples| :: samples[i].at < samples[j].at
  }

  ghost predicate Consistent(t: Traffic) {
    Increasing(t.samples) && Rolls(t.hourly, Entries(t.samples), HourOf) && Rolls(t.daily, Entries(t.samples), DayOf)
  }

  // ---------------------------------------------------------------- ingestion

  function Added(table: map<int, Bucket>, bucket: int, c: Bucket): map<int, Bucket> {
    table[bucket := Plus(if bucket in table then table[bucket] else NOTHING, c)]
  }

  function Ingested(t: Traffic, at: int, o: Observation): Traffic {
    var previous := Last(t.samples);
    if previous.Some? && at <= previous.value.at then t
    else
      var s := Sample(at, o.rx, o.tx, o.generation, StoredReason(previous, o));
      Stored(t, s, Contribution(previous, s))
  }

  /** The sample appended, and its row added to both rollups. */
  function Stored(t: Traffic, s: Sample, c: Bucket): Traffic {
    Traffic(t.samples + [s], Added(t.hourly, HourOf(s.at), c), Added(t.daily, DayOf(s.at), c))
  }

  type Tables = map<string, Traffic>

  function TrafficOf(tables: Tables, id: string): Traffic {
    if id in tables then tables[id] else NO_TRAFFIC
  }

  function IngestedAll(tables: Tables, enabled: set<string>, at: int, observations: seq<Observation>): Tables {
    if observations == [] then tables
    else
      var before := IngestedAll(tables, enabled, at, observations[..|observations| - 1]);
      var o := observations[|observations| - 1];
      if o.policyId !in enabled then before
      else before[o.policyId := Ingested(TrafficOf(before, o.policyId), at, o)]
  }

  /** A batch holds an observation of the policy. */
  predicate Names(observations: seq<Observation>, id: string) {
    exists o <- observations :: o.policyId == id
  }

  lemma NamesOneMore(observations: seq<Observation>, k: nat)
    requires k < |observations|
    ensures forall id :: Names(observations[..k + 1], id) <==>
              Names(observations[..k], id) || observations[k].policyId == id
  {
    assert observations[..k + 1] == observations[..k] + [observations[k]];
  }

  /** The latest sample is of this time. */
  predicate IsCurrent(t: Traffic, at: int) {
    Last(t.samples).Some? && Last(t.samples).value.at == at
  }

  /** The observed policies: the enabled ones the batch names whose latest sample is of its time. */
  ghost predicate Observes(
    observed: set<string>, enabled: set<string>, observations: seq<Observation>, tables: Tables, at: int)
  {
    forall id :: id in observed <==>
      id in enabled && Names(observations, id) && IsCurrent(TrafficOf(tables, id), at)
  }

  lemma StaysCurrent(t: Traffic, at: int, o: Observation)
    ensures IsCurrent(t, at) ==> IsCurrent(Ingested(t, at, o), at)
  {
  }

  lemma ObservesOneMore(observed: set<string>, enabled: set<string>, observations: seq<Observation>, k: nat,
                        tables: Tables, next: Traffic, at: int)
    requires k < |observations| && Observes(observed, enabled, observations[..k], tables, at)
    requires observations[k].policyId in enabled
    requires IsCurrent(TrafficOf(tables, observations[k].policyId), at) ==> IsCurrent(next, at)
    ensures var id := observations[k].policyId;
            Observes(if IsCurrent(next, at) then observed + {id} else observed,
                     enabled, observations[..k + 1], tables[id := next], at)
  {
    NamesOneMore(observations, k);
  }

  class TrafficStore {
    var tables: Tables

    constructor ()
      ensures tables == map[]
    {
      tables := map[];
    }

    /** One heartbeat's observations. Returns the policies that count as observed: exactly the
        enabled ones it names whose latest sample is of this time, stored now or before. */
    method IngestObservations(enabled: set<string>, at: int, observations: seq<Observation>)
      returns (observed: set<string>)
      requires forall id | id in tables :: Consistent(tables[id])
      modifies this
      ensures tables == IngestedAll(old(tables), enabled, at, observations)
      ensures forall id | id in tables :: Consistent(tables[id])
      ensures Observes(observed, enabled, observations, tables, at)
    {
      observed := {};
      for k := 0 to |observations|
        invariant tables == IngestedAll(old(tables), enabled, at, observations[..k])
        invariant forall id | id in tables :: Consistent(tables[id])
        invariant Observes(observed, enabled, observations[..k], tables, at)
      {
        var o := observations[k];
        assert observations[..k + 1][..k] == observations[..k];
        NamesOneMore(observations, k);
        if o.policyId in enabled {
          var t := TrafficOf(tables, o.policyId);
          NoTrafficConsistent();
          var stored, next := IngestOne(t, at, o);
          IngestedConsistent(t, at, o);
          StaysCurrent(t, at, o);
          ObservesOneMore(observed, enabled, observations, k, tables, next, at);
          tables := tables[o.policyId := next];
          if stored {
            observed := observed + {o.policyId};
          }
        }
      }
      assert observations[..|observations|] == observations;
    }
  }

  /** The part of the loop that compares a new observation with the sample before it. */
  method MeasureInterval(previous: Option<Sample>, at: int, o: Observation)
    returns (reason: Option<string>, row: Bucket)
    requires previous.Some? ==> previous.value.at < at
    ensures reason == StoredReason(previous, o)
    ensures row == Contribution(previous, Sample(at, o.rx, o.tx, o.generation, reason))
  {
    reason := o.reason;
    var deltaRx, deltaTx, missing := 0, 0, 0;
    if previous.Some? {
      var p := previous.value;
      var elapsed := Max(0, (at - p.at) / 1_000_000);
      missing := Max(0, elapsed / 60 - 1);
      var reported := reason.Some? && reason.value != "";
      if o.generation != p.generation {
        reason := if reported then reason else Some("counter_reset");
      } else if o.rx < p.rx || o.tx < p.tx {
        reason := if reported then reason else Some("counter_wrap");
      } else {
        deltaRx := o.rx - p.rx;
        deltaTx := o.tx - p.tx;
      }
    }
    row := Bucket(deltaRx, deltaTx, if previous.Some? && reason.None? then 1 else 0, missing,
                  if reason.Some? then 1 else 0);
  }

  /** The body of the loop, on the rows of one policy. */
  method IngestOne(t: Traffic, at: int, o: Observation) returns (current: bool, next: Traffic)
    ensures next == Ingested(t, at, o)
    ensures current <==> IsCurrent(next, at)
  {
    var previous := Last(t.samples);
    if previous.Some? {
      var order := at - previous.value.at;
      if order == 0 {
        return true, t;
      }
      if order < 0 {
        return false, t;
      }
    }
    var reason, row := MeasureInterval(previous, at, o);
    var s := Sample(at, o.rx, o.tx, o.generation, reason);
    next := StoreSample(t, s, row);
    current := true;
    LaterIsStored(t, at, o, s, row);
  }

  lemma LaterIsStored(t: Traffic, at: int, o: Observation, s: Sample, row: Bucket)
    requires Last(t.samples).Some? ==> Last(t.samples).value.at < at
    requires s == Sample(at, o.rx, o.tx, o.generation, StoredReason(Last(t.samples), o))
    requires row == Contribution(Last(t.samples), s)
    ensures Ingested(t, at, o) == Stored(t, s, row) && IsCurrent(Stored(t, s, row), at)
  {
    assert (t.samples + [s])[|t.samples|] == s;
  }

  /** Append the sample and add its row to both rollups. */
  method StoreSample(t: Traffic, s: Sample, row: Bucket) returns (next: Traffic)
    ensures next == Stored(t, s, row)
  {
    var hourly := UpdateRollup(t.hourly, HourOf(s.at), row);
    var daily := UpdateRollup(t.daily, DayOf(s.at), row);
    next := Traffic(t.samples + [s], hourly, daily);
  }

  /** Find the row or create an empty one, then add to each of its fields. */
  method UpdateRollup(table: map<int, Bucket>, bucket: int, c: Bucket) returns (next: map<int, Bucket>)
    ensures next == Added(table, bucket, c)
  {
    next := table;
    if bucket !in next {
      next := next[bucket := NOTHING];
    }
    var row := next[bucket];
    row := row.(rx := row.rx + c.rx, tx := row.tx + c.tx);
    row := row.(samples := row.samples + c.samples);
    row := row.(missing := row.missing + c.missing);
    row := row.(discontinuities := row.discontinuities + c.discontinuities);
    next := next[bucket := row];
  }

  lemma NoTrafficConsistent()
    ensures Consistent(NO_TRAFFIC)
  {
  }

  lemma {:induction false} NoEntrySumsToNothing(entries: seq<Entry>, bucketOf: int -> int, bucket: int)
    requires !HasEntry(entries, bucketOf, bucket)
    ensures BucketSum(entries, bucketOf, bucket) == NOTHING
  {
    if entries != [] {
      var init := entries[..|entries| - 1];
      forall i | 0 <= i < |init|
        ensures bucketOf(init[i].at) != bucket
      {
        assert init[i] == entries[i];
      }
      NoEntrySumsToNothing(init, bucketOf, bucket);
      assert bucketOf(entries[|entries| - 1].at) != bucket;
    }
  }

  lemma HasEntryExtends(entries: seq<Entry>, e: Entry, bucketOf: int -> int, b: int)
    ensures HasEntry(entries + [e], bucketOf, b) <==> HasEntry(entries, bucketOf, b) || bucketOf(e.at) == b
  {
    var longer := entries + [e];
    if HasEntry(entries, bucketOf, b) {
      var i :| 0 <= i < |entries| && bucketOf(entries[i].at) == b;
      assert bucketOf(longer[i].at) == b;
    }
    assert longer[|entries|] == e;
    if HasEntry(longer, bucketOf, b) {
      var i :| 0 <= i < |longer| && bucketOf(longer[i].at) == b;
      assert i < |entries| ==> bucketOf(entries[i].at) == b;
    }
  }

  lemma SumGrows(entries: seq<Entry>, e: Entry, bucketOf: int -> int, b: int)
    ensures BucketSum(entries + [e], bucketOf, b)
         == Plus(BucketSum(entries, bucketOf, b), if bucketOf(e.at) == b then e.c else NOTHING)
  {
    assert (entries + [e])[..|entries|] == entries;
  }

  lemma AddedRow(table: map<int, Bucket>, entries: seq<Entry>, e: Entry, bucketOf: int -> int, b: int)
    requires b in table ==> table[b] == BucketSum(entries, bucketOf, b)
    requires b !in table ==> !HasEntry(entries, bucketOf, b)
    requires b in Added(table, bucketOf(e.at), e.c)
    ensures Added(table, bucketOf(e.at), e.c)[b] == BucketSum(entries + [e], bucketOf, b)
  {
    SumGrows(entries, e, bucketOf, b);
    if b == bucketOf(e.at) {
      var before := if b in table then table[b] else NOTHING;
      if b !in table {
        NoEntrySumsToNothing(entries, bucketOf, b);
      }
      assert before == BucketSum(entries, bucketOf, b);
      assert Added(table, b, e.c)[b] == Plus(before, e.c);
    } else {
      assert Added(table, bucketOf(e.at), e.c)[b] == table[b];
      PlusNothing(table[b]);
    }
  }

  lemma RollsExtends(table: map<int, Bucket>, entries: seq<Entry>, e: Entry, bucketOf: int -> int)
    requires Rolls(table, entries, bucketOf)
    ensures Rolls(Added(table, bucketOf(e.at), e.c), entries + [e], bucketOf)
  {
    var longer, next := entries + [e], Added(table, bucketOf(e.at), e.c);
    forall b
      ensures b in next <==> HasEntry(longer, bucketOf, b)
      ensures b in next ==> next[b] == BucketSum(longer, bucketOf, b)
    {
      HasEntryExtends(entries, e, bucketOf, b);
      if b in next {
        AddedRow(table, entries, e, bucketOf, b);
      }
    }
  }

  lemma IncreasingExtends(samples: seq<Sample>, s: Sample)
    requires Increasing(samples) && (samples == [] || samples[|samples| - 1].at < s.at)
    ensures Increasing(samples + [s])
  {
    forall i, j | 0 <= i < j < |samples + [s]|
      ensures (samples + [s])[i].at < (samples + [s])[j].at
    {
      if j == |samples| && i < |samples| - 1 {
        assert samples[i].at < samples[|samples| - 1].at;
      }
    }
  }

  lemma EntriesGrow(samples: seq<Sample>, s: Sample)
    ensures Entries(samples + [s]) == Entries(samples) + [Entry(s.at, Contribution(Last(samples), s))]
  {
    assert (samples + [s])[..|samples|] == samples;
  }

  /** Storing a later sample. */
  lemma StoredConsistent(t: Traffic, s: Sample, c: Bucket)
    requires Consistent(t) && (t.samples == [] || t.samples[|t.samples| - 1].at < s.at)
    requires c == Contribution(Last(t.samples), s)
    ensures Consistent(Stored(t, s, c))
  {
    IncreasingExtends(t.samples, s);
    EntriesGrow(t.samples, s);
    RollsExtends(t.hourly, Entries(t.samples), Entry(s.at, c), HourOf);
    RollsExtends(t.daily, Entries(t.samples), Entry(s.at, c), DayOf);
  }

  /** Ingesting keeps the rollups equal to the grouping of the samples, and sample times
      strictly increasing. */
  lemma IngestedConsistent(t: Traffic, at: int, o: Observation)
    requires Consistent(t)
    ensures Consistent(Ingested(t, at, o))
  {
    var previous := Last(t.samples);
    if previous.None? || at > previous.value.at {
      var s := Sample(at, o.rx, o.tx, o.generation, StoredReason(previous, o));
      StoredConsistent(t, s, Contribution(previous, s));
    }
  }

  // ---------------------------------------------------------------- runs

  datatype Arrival = Arrival(at: int, o: Observation)

  function After(arrivals: seq<Arrival>): Traffic {
    if arrivals == [] then NO_TRAFFIC
    else
      var a := arrivals[|arrivals| - 1];
      Ingested(After(arrivals[..|arrivals| - 1]), a.at, a.o)
  }

  /** Main result: whatever arrives, in whatever order, the incremental rollups equal the
      grouping of the stored samples. */
  lemma {:induction false} RollupsRefineSamples(arrivals: seq<Arrival>)
    ensures Consistent(After(arrivals))
  {
    if arrivals == [] {
      NoTrafficConsistent();
    } else {
      RollupsRefineSamples(arrivals[..|arrivals| - 1]);
      var a := arrivals[|arrivals| - 1];
      IngestedConsistent(After(arrivals[..|arrivals| - 1]), a.at, a.o);
    }
  }

  /** A replayed or late observation changes nothing, and a sample once stored stays. */
  lemma LateArrivalsChangeNothing(arrivals: seq<Arrival>, i: nat, a: Arrival)
    requires i < |After(arrivals).samples| && a.at <= After(arrivals).samples[i].at
    ensures After(arrivals + [a]) == After(arrivals)
  {
    RollupsRefineSamples(arrivals);
    assert (arrivals + [a])[..|arrivals|] == arrivals;
    var t := After(arrivals);
    assert i < |t.samples| - 1 ==> t.samples[i].at < t.samples[|t.samples| - 1].at;
  }

  // ---------------------------------------------------------------- what one arrival adds

  /** A row, or an empty one where there is none. */
  function RowAt(table: map<int, Bucket>, bucket: int): Bucket {
    if bucket in table then table[bucket] else NOTHING
  }

  function Minus(a: Bucket, b: Bucket): Bucket {
    Bucket(a.rx - b.rx, a.tx - b.tx, a.samples - b.samples, a.missing - b.missing,
           a.discontinuities - b.discontinuities)
  }

  /** What a row gains from the observation `o` at time `at` that follows the sample `p`: both
      counter differences if the generation is the same and neither counter fell, and nothing
      otherwise; one interval or one discontinuity; and the whole minutes between them but one. */
  predicate Gains(row: Bucket, p: Sample, at: int, o: Observation) {
    var broken := o.generation != p.generation || o.rx < p.rx || o.tx < p.tx;
    && row.rx == (if broken then 0 else o.rx - p.rx)
    && row.tx == (if broken then 0 else o.tx - p.tx)
    && row.discontinuities == (if broken || o.reason.Some? then 1 else 0)
    && row.samples == 1 - row.discontinuities
    && 0 <= row.missing
    && (row.missing > 0 ==> (row.missing + 1) * 60_000_000 <= at - p.at)
    && at - p.at < (row.missing + 2) * 60_000_000
  }

  /** The reason stored: the reported one, or for a break that reports none, what broke. */
  predicate IsReason(reason: Option<string>, p: Sample, o: Observation) {
    var silent := o.reason == None || o.reason == Some("");
    if silent && o.generation != p.generation then reason == Some("counter_reset")
    else if silent && (o.rx < p.rx || o.tx < p.tx) then reason == Some("counter_wrap")
    else reason == o.reason
  }

  lemma ContributionGains(p: Sample, at: int, o: Observation)
    requires p.at < at
    ensures Gains(Contribution(Some(p), Sample(at, o.rx, o.tx, o.generation, StoredReason(Some(p), o))), p, at, o)
    ensures IsReason(StoredReason(Some(p), o), p, o)
  {
    MissingPlainly(p, at);
  }

  lemma MissingPlainly(p: Sample, at: int)
    requires p.at < at
    ensures var m := MissingIntervals(p, at);
            (m > 0 ==> (m + 1) * 60_000_000 <= at - p.at) && at - p.at < (m + 2) * 60_000_000
  {
    var seconds := (at - p.at) / 1_000_000;
    assert seconds * 1_000_000 <= at - p.at < (seconds + 1) * 1_000_000;
    assert seconds / 60 * 60 <= seconds < (seconds / 60 + 1) * 60;
  }

  /** Main result: in every run, a later observation adds exactly its share to the row of its hour
      and to the row of its day, changes no other row, and is stored as the latest sample. */
  lemma LaterArrivalAdds(arrivals: seq<Arrival>, a: Arrival, hour: int, day: int)
    requires var samples := After(arrivals).samples; samples != [] && samples[|samples| - 1].at < a.at
    requires 3_600_000_000 * hour <= a.at < 3_600_000_000 * (hour + 1)
    requires 86_400_000_000 * day <= a.at < 86_400_000_000 * (day + 1)
    ensures var before, after := After(arrivals), After(arrivals + [a]);
            var p := before.samples[|before.samples| - 1];
            && Gains(Minus(RowAt(after.hourly, hour), RowAt(before.hourly, hour)), p, a.at, a.o)
            && Gains(Minus(RowAt(after.daily, day), RowAt(before.daily, day)), p, a.at, a.o)
            && (forall b | b != hour :: RowAt(after.hourly, b) == RowAt(before.hourly, b))
            && (forall b | b != day :: RowAt(after.daily, b) == RowAt(before.daily, b))
            && |after.samples| == |before.samples| + 1 && before.samples <= after.samples
            && var s := after.samples[|before.samples|];
               s.at == a.at && s.rx == a.o.rx && s.tx == a.o.tx && s.generation == a.o.generation
               && IsReason(s.reason, p, a.o)
  {
    var before := After(arrivals);
    var p := before.samples[|before.samples| - 1];
    assert (arrivals + [a])[..|arrivals|] == arrivals;
    HourPlainly(a.at, hour);
    DayPlainly(a.at, day);
    ContributionGains(p, a.at, a.o);
    var s := Sample(a.at, a.o.rx, a.o.tx, a.o.generation, StoredReason(Some(p), a.o));
    AddedPlainly(before.hourly, hour, Contribution(Some(p), s));
    AddedPlainly(before.daily, day, Contribution(Some(p), s));
  }

  lemma AddedPlainly(table: map<int, Bucket>, bucket: int, c: Bucket)
    ensures Minus(RowAt(Added(table, bucket, c), bucket), RowAt(table, bucket)) == c
    ensures forall b | b != bucket :: RowAt(Added(table, bucket, c), b) == RowAt(table, b)
  {
  }

  /** The first observation of a policy adds no bytes, no interval and no gap. */
  lemma FirstArrivalAdds(a: Arrival, hour: int, day: int)
    requires 3_600_000_000 * hour <= a.at < 3_600_000_000 * (hour + 1)
    requires 86_400_000_000 * day <= a.at < 86_400_000_000 * (day + 1)
    ensures After([a]).samples == [Sample(a.at, a.o.rx, a.o.tx, a.o.generation, a.o.reason)]
    ensures After([a]).hourly == map[hour := Bucket(0, 0, 0, 0, if a.o.reason.Some? then 1 else 0)]
    ensures After([a]).daily == map[day := Bucket(0, 0, 0, 0, if a.o.reason.Some? then 1 else 0)]
  {
    assert [a][..0] == [];
    HourPlainly(a.at, hour);
    DayPlainly(a.at, day);
    FirstIsStored(After([]), a.at, a.o, hour, day);
  }

  lemma HourPlainly(at: int, hour: int)
    requires 3_600_000_000 * hour <= at < 3_600_000_000 * (hour + 1)
    ensures HourOf(at) == hour
  {
  }

  lemma DayPlainly(at: int, day: int)
    requires 86_400_000_000 * day <= at < 86_400_000_000 * (day + 1)
    ensures DayOf(at) == day
  {
  }

  lemma FirstIsStored(t: Traffic, at: int, o: Observation, hour: int, day: int)
    requires t.samples == [] && t.hourly == map[] && t.daily == map[] && HourOf(at) == hour && DayOf(at) == day
    ensures var s := Sample(at, o.rx, o.tx, o.generation, o.reason);
            var row := Bucket(0, 0, 0, 0, if o.reason.Some? then 1 else 0);
            && Ingested(t, at, o).samples == [s]
            && Ingested(t, at, o).hourly == map[hour := row]
            && Ingested(t, at, o).daily == map[day := row]
  {
    var s := Sample(at, o.rx, o.tx, o.generation, o.reason);
    var row := Bucket(0, 0, 0, 0, if o.reason.Some? then 1 else 0);
    assert Contribution(Last(t.samples), s) == row;
    assert Ingested(t, at, o) == Stored(t, s, row);
    FirstRow(t.hourly, hour, row);
    FirstRow(t.daily, day, row);
  }

  lemma FirstRow(table: map<int, Bucket>, bucket: int, c: Bucket)
    requires table == map[]
    ensures Added(table, bucket, c) == map[bucket := c]
  {
    PlusNothing(c);
  }

  ghost predicate NoneNegative(table: map<int, Bucket>) {
    forall b | b in table :: table[b].rx >= 0 && table[b].tx >= 0 && table[b].missing >= 0
  }

  /** Main result: in every run no row has negative bytes, whatever the counters do. */
  lemma {:induction false} RowsNeverNegative(arrivals: seq<Arrival>)
    ensures NoneNegative(After(arrivals).hourly) && NoneNegative(After(arrivals).daily)
  {
    if arrivals != [] {
      var init, a := arrivals[..|arrivals| - 1], arrivals[|arrivals| - 1];
      RowsNeverNegative(init);
      IngestedNeverNegative(After(init), a.at, a.o);
    }
  }

  lemma AddedNeverNegative(table: map<int, Bucket>, bucket: int, c: Bucket)
    requires NoneNegative(table) && c.rx >= 0 && c.tx >= 0 && c.missing >= 0
    ensures NoneNegative(Added(table, bucket, c))
  {
  }

  lemma IngestedNeverNegative(t: Traffic, at: int, o: Observation)
    requires NoneNegative(t.hourly) && NoneNegative(t.daily)
    ensures NoneNegative(Ingested(t, at, o).hourly) && NoneNegative(Ingested(t, at, o).daily)
  {
    var previous := Last(t.samples);
    if previous.None? || previous.value.at < at {
      var s := Sample(at, o.rx, o.tx, o.generation, StoredReason(previous, o));
      ContributionNeverNegative(previous, s);
      StoredNeverNegative(t, s, Contribution(previous, s));
    }
  }

  lemma ContributionNeverNegative(previous: Option<Sample>, s: Sample)
    ensures var c := Contribution(previous, s); c.rx >= 0 && c.tx >= 0 && c.missing >= 0
  {
  }

  lemma StoredNeverNegative(t: Traffic, s: Sample, c: Bucket)
    requires NoneNegative(t.hourly) && NoneNegative(t.daily) && c.rx >= 0 && c.tx >= 0 && c.missing >= 0
    ensures NoneNegative(Stored(t, s, c).hourly) && NoneNegative(Stored(t, s, c).daily)
  {
    AddedNeverNegative(t.hourly, HourOf(s.at), c);
    AddedNeverNegative(t.daily, DayOf(s.at), c);
  }

  /** A batch seen by one policy alone. */
  function Batch(t: Traffic, at: int, observations: seq<Observation>, id: string): Traffic {
    if observations == [] then t
    else
      var before, o := Batch(t, at, observations[..|observations| - 1], id), observations[|observations| - 1];
      if o.policyId == id then Ingested(before, at, o) else before
  }

  /** A heartbeat's batch treats every enabled policy as if it were alone, and leaves the rows
      of every other policy as they were. */
  lemma {:induction false} BatchIsPerPolicy(
    tables: Tables, enabled: set<string>, at: int, observations: seq<Observation>, id: string)
    ensures TrafficOf(IngestedAll(tables, enabled, at, observations), id)
         == if id in enabled then Batch(TrafficOf(tables, id), at, observations, id) else TrafficOf(tables, id)
  {
    if observations != [] {
      BatchIsPerPolicy(tables, enabled, at, observations[..|observations| - 1], id);
    }
  }

  lemma LateIsIgnored(t: Traffic, at: int, o: Observation)
    requires t.samples != [] && at <= t.samples[|t.samples| - 1].at
    ensures Ingested(t, at, o) == t
  {
  }

  lemma LeavesCurrent(t: Traffic, at: int, o: Observation)
    ensures var after := Ingested(t, at, o).samples; after != [] && at <= after[|after| - 1].at
  {
  }

  lemma SameTimeAgain(t: Traffic, at: int, o: Observation, again: Observation)
    ensures Ingested(Ingested(t, at, o), at, again) == Ingested(t, at, o)
  {
    LeavesCurrent(t, at, o);
    LateIsIgnored(Ingested(t, at, o), at, again);
  }

  /** Of several observations of a policy in one batch only the first can count. */
  lemma {:induction false} FirstOfBatchWins(t: Traffic, at: int, observations: seq<Observation>, id: string, first: nat)
    requires first < |observations| && observations[first].policyId == id
    requires forall k | 0 <= k < first :: observations[k].policyId != id
    ensures Batch(t, at, observations, id) == Ingested(t, at, observations[first])
  {
    var init := observations[..|observations| - 1];
    if first < |init| {
      FirstOfBatchWins(t, at, init, id, first);
      SameTimeAgain(t, at, observations[first], observations[|init|]);
    } else {
      NoneOfBatch(t, at, init, id);
    }
  }

  lemma {:induction false} NoneOfBatch(t: Traffic, at: int, observations: seq<Observation>, id: string)
    requires forall k | 0 <= k < |observations| :: observations[k].policyId != id
    ensures Batch(t, at, observations, id) == t
  {
    if observations != [] {
      NoneOfBatch(t, at, observations[..|observations| - 1], id);
    }
  }

  // ---------------------------------------------------------------- hours, days and totals

  /** The sum of the rows from bucket `low` up to, but not including, `high`. */
  function SumRows(table: map<int, Bucket>, low: int, high: int): Bucket
    decreases high - low
  {
    if high <= low then NOTHING
    else Plus(SumRows(table, low, high - 1), if high - 1 in table then table[high - 1] else NOTHING)
  }

  /** What the entries of a range of buckets add up to. */
  function RangeSum(entries: seq<Entry>, bucketOf: int -> int, low: int, high: int): Bucket {
    if entries == [] then NOTHING
    else
      var e := entries[|entries| - 1];
      Plus(RangeSum(entries[..|entries| - 1], bucketOf, low, high),
           if low <= bucketOf(e.at) < high then e.c else NOTHING)
  }

  lemma {:induction false} RangeGrows(entries: seq<Entry>, bucketOf: int -> int, low: int, high: int)
    requires low < high
    ensures RangeSum(entries, bucketOf, low, high)
         == Plus(RangeSum(entries, bucketOf, low, high - 1), BucketSum(entries, bucketOf, high - 1))
  {
    if entries != [] {
      var init, e := entries[..|entries| - 1], entries[|entries| - 1];
      RangeGrows(init, bucketOf, low, high);
      var b := bucketOf(e.at);
      var below := if low <= b < high - 1 then e.c else NOTHING;
      var top := if b == high - 1 then e.c else NOTHING;
      PlusNothing(e.c);
      PlusPairs(RangeSum(init, bucketOf, low, high - 1), BucketSum(init, bucketOf, high - 1), below, top);
    }
  }

  lemma {:induction false} EmptyRange(entries: seq<Entry>, bucketOf: int -> int, low: int)
    ensures RangeSum(entries, bucketOf, low, low) == NOTHING
  {
    if entries != [] {
      EmptyRange(entries[..|entries| - 1], bucketOf, low);
    }
  }

  lemma {:induction false} RowsAreRange(
    table: map<int, Bucket>, entries: seq<Entry>, bucketOf: int -> int, low: int, high: int)
    requires Rolls(table, entries, bucketOf) && low <= high
    ensures SumRows(table, low, high) == RangeSum(entries, bucketOf, low, high)
    decreases high - low
  {
    if low == high {
      EmptyRange(entries, bucketOf, low);
    } else {
      RowsAreRange(table, entries, bucketOf, low, high - 1);
      RangeGrows(entries, bucketOf, low, high);
      if high - 1 !in table {
        NoEntrySumsToNothing(entries, bucketOf, high - 1);
      }
    }
  }

  lemma HoursOfADay(at: int, day: int)
    ensures DayOf(at) == day <==> 24 * day <= HourOf(at) < 24 * day + 24
  {
  }

  lemma {:induction false} DayIsRange(entries: seq<Entry>, day: int)
    ensures BucketSum(entries, DayOf, day) == RangeSum(entries, HourOf, 24 * day, 24 * day + 24)
  {
    if entries != [] {
      DayIsRange(entries[..|entries| - 1], day);
      HoursOfADay(entries[|entries| - 1].at, day);
    }
  }

  /** Main result: in every run each daily row is the sum of that day's hourly rows, in every
      field. */
  lemma DailyIsSumOfHourly(arrivals: seq<Arrival>, day: int)
    requires day in After(arrivals).daily
    ensures After(arrivals).daily[day] == SumRows(After(arrivals).hourly, 24 * day, 24 * day + 24)
  {
    RollupsRefineSamples(arrivals);
    var t := After(arrivals);
    DayIsRange(Entries(t.samples), day);
    RowsAreRange(t.hourly, Entries(t.samples), HourOf, 24 * day, 24 * day + 24);
  }

  /** Where the last maximal stretch of subtractable samples begins. */
  function StretchStart(samples: seq<Sample>): (k: nat)
    requires samples != []
    ensures k < |samples|
  {
    var n := |samples|;
    if n == 1 then 0
    else if Continues(samples[n - 2], samples[n - 1]) then StretchStart(samples[..n - 1])
    else n - 1
  }

  /** Bytes by telescoping: last counter minus first counter, over the maximal stretches. */
  function Telescoped(samples: seq<Sample>): (int, int) {
    if samples == [] then (0, 0)
    else
      var k, n := StretchStart(samples), |samples|;
      var before := Telescoped(samples[..k]);
      (before.0 + samples[n - 1].rx - samples[k].rx, before.1 + samples[n - 1].tx - samples[k].tx)
  }

  lemma {:induction false} StretchContinues(samples: seq<Sample>, i: nat)
    requires samples != [] && StretchStart(samples) < i < |samples|
    ensures Continues(samples[i - 1], samples[i])
  {
    var n := |samples|;
    if i < n - 1 {
      StretchContinues(samples[..n - 1], i);
    }
  }

  lemma {:induction false} StretchStarts(samples: seq<Sample>)
    requires samples != [] && StretchStart(samples) > 0
    ensures var k := StretchStart(samples); !Continues(samples[k - 1], samples[k])
  {
    var n := |samples|;
    if n > 1 && Continues(samples[n - 2], samples[n - 1]) {
      StretchStarts(samples[..n - 1]);
    }
  }

  /** The stretch really is one: within it the generation stays and no counter falls. And it cannot
      be extended backwards: at its start the generation changed or a counter fell. */
  lemma StretchIsMaximal(samples: seq<Sample>, i: nat)
    requires samples != [] && StretchStart(samples) <= i < |samples| && i > 0
    ensures var p, s := samples[i - 1], samples[i];
            i > StretchStart(samples) <==> s.generation == p.generation && s.rx >= p.rx && s.tx >= p.tx
  {
    if i > StretchStart(samples) {
      StretchContinues(samples, i);
    } else {
      StretchStarts(samples);
    }
  }

  function AllBytes(entries: seq<Entry>): (int, int) {
    if entries == [] then (0, 0)
    else
      var init, e := AllBytes(entries[..|entries| - 1]), entries[|entries| - 1];
      (init.0 + e.c.rx, init.1 + e.c.tx)
  }

  predicate Joined(samples: seq<Sample>) {
    |samples| > 1 && Continues(samples[|samples| - 2], samples[|samples| - 1])
  }

  lemma JoinedTelescopes(samples: seq<Sample>)
    requires Joined(samples)
    ensures var n, init := |samples|, samples[..|samples| - 1];
            && Telescoped(samples).0 == Telescoped(init).0 + samples[n - 1].rx - samples[n - 2].rx
            && Telescoped(samples).1 == Telescoped(init).1 + samples[n - 1].tx - samples[n - 2].tx
  {
    var init := samples[..|samples| - 1];
    var k := StretchStart(init);
    assert StretchStart(samples) == k;
    assert init[..k] == samples[..k] && init[k] == samples[k];
  }

  lemma BrokenTelescopes(samples: seq<Sample>)
    requires samples != [] && !Joined(samples)
    ensures Telescoped(samples) == Telescoped(samples[..|samples| - 1])
  {
    assert StretchStart(samples) == |samples| - 1;
  }

  lemma BytesStep(samples: seq<Sample>)
    requires samples != []
    ensures var init := samples[..|samples| - 1];
            var c := Contribution(Last(init), samples[|samples| - 1]);
            AllBytes(Entries(samples)) == (AllBytes(Entries(init)).0 + c.rx, AllBytes(Entries(init)).1 + c.tx)
  {
    assert Entries(samples)[..|Entries(samples)| - 1] == Entries(samples[..|samples| - 1]);
  }

  lemma {:induction false} IntervalsTelescope(samples: seq<Sample>)
    ensures AllBytes(Entries(samples)) == Telescoped(samples)
  {
    if samples != [] {
      IntervalsTelescope(samples[..|samples| - 1]);
      BytesStep(samples);
      if Joined(samples) {
        JoinedTelescopes(samples);
      } else {
        BrokenTelescopes(samples);
      }
    }
  }

  ghost predicate Covered(entries: seq<Entry>, bucketOf: int -> int, low: int, high: int) {
    forall i | 0 <= i < |entries| :: low <= bucketOf(entries[i].at) < high
  }

  lemma {:induction false} FullRange(entries: seq<Entry>, bucketOf: int -> int, low: int, high: int)
    requires Covered(entries, bucketOf, low, high)
    ensures (RangeSum(entries, bucketOf, low, high).rx, RangeSum(entries, bucketOf, low, high).tx) == AllBytes(entries)
  {
    if entries != [] {
      var init := entries[..|entries| - 1];
      forall i | 0 <= i < |init|
        ensures low <= bucketOf(init[i].at) < high
      {
        assert init[i] == entries[i];
      }
      FullRange(init, bucketOf, low, high);
      assert low <= bucketOf(entries[|entries| - 1].at) < high;
    }
  }

  lemma {:induction false} EntryTimes(samples: seq<Sample>)
    ensures |Entries(samples)| == |samples|
    ensures forall i | 0 <= i < |samples| :: Entries(samples)[i].at == samples[i].at
  {
    if samples != [] {
      EntryTimes(samples[..|samples| - 1]);
    }
  }

  /** Main result: over any range of hours that covers the samples, the rolled-up bytes are the
      telescoped counter differences, so no byte is lost or counted twice between rows. */
  lemma RollupsConserveBytes(arrivals: seq<Arrival>, low: int, high: int)
    requires low <= high
    requires forall i | 0 <= i < |After(arrivals).samples| :: low <= HourOf(After(arrivals).samples[i].at) < high
    ensures var rows := SumRows(After(arrivals).hourly, low, high);
            (rows.rx, rows.tx) == Telescoped(After(arrivals).samples)
  {
    var samples := After(arrivals).samples;
    RollupsRefineSamples(arrivals);
    RowsAreRange(After(arrivals).hourly, Entries(samples), HourOf, low, high);
    EntryTimes(samples);
    FullRange(Entries(samples), HourOf, low, high);
    IntervalsTelescope(samples);
  }
}
