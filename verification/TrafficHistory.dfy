/** Reading history back at raw resolution (controller/guardian/port_traffic.py:699-744). */
module TrafficHistory {
  import opened Base
  import opened TrafficRollups

  datatype Point = Point(at: int, bytes: Option<(int, int)>, missing: int, discontinuities: int)

  predicate Inside(s: Sample, starts: int, ends: int) {
    starts <= s.at <= ends
  }

  /** The samples of a window, in time order. */
  function Window(samples: seq<Sample>, starts: int, ends: int): seq<Sample> {
    if samples == [] then []
    else
      var init, s := samples[..|samples| - 1], samples[|samples| - 1];
      Window(init, starts, ends) + if Inside(s, starts, ends) then [s] else []
  }

  function PointOf(previous: Sample, s: Sample): Point {
    var c := Contribution(Some(previous), s);
    Point(s.at, if Continues(previous, s) then Some((c.rx, c.tx)) else None, c.missing, c.discontinuities)
  }

  /** One point for every row but the first, which is only a baseline. */
  function Points(rows: seq<Sample>): seq<Point> {
    if |rows| <= 1 then []
    else Points(rows[..|rows| - 1]) + [PointOf(rows[|rows| - 2], rows[|rows| - 1])]
  }

  /** The window holds exactly the samples between its ends, both included. */
  lemma {:induction false} WindowHolds(samples: seq<Sample>, starts: int, ends: int, s: Sample)
    ensures s in Window(samples, starts, ends) <==> s in samples && starts <= s.at <= ends
  {
    if samples != [] {
      WindowHolds(samples[..|samples| - 1], starts, ends, s);
      assert samples == samples[..|samples| - 1] + [samples[|samples| - 1]];
    }
  }

  /** Main result: the raw query answers, for every row but the first, with both counter
      differences to the row before it if the generation is the same and neither counter fell,
      and with no bytes otherwise; and with the whole minutes between them but one. */
  lemma {:induction false} PointsPlainly(rows: seq<Sample>, k: nat)
    requires 0 < k < |rows|
    ensures |Points(rows)| == |rows| - 1
    ensures var point, p, s := Points(rows)[k - 1], rows[k - 1], rows[k];
            && point.at == s.at
            && point.bytes == (if s.generation == p.generation && s.rx >= p.rx && s.tx >= p.tx
                               then Some((s.rx - p.rx, s.tx - p.tx)) else None)
            && point.discontinuities == (if s.reason.Some? then 1 else 0)
            && 0 <= point.missing
            && (p.at < s.at ==>
                  && (point.missing > 0 ==> (point.missing + 1) * 60_000_000 <= s.at - p.at)
                  && s.at - p.at < (point.missing + 2) * 60_000_000)
  {
    PointsLength(rows);
    if rows[k - 1].at < rows[k].at {
      MissingPlainly(rows[k - 1], rows[k].at);
    }
    if k < |rows| - 1 {
      PointsPlainly(rows[..|rows| - 1], k);
    }
  }

  lemma {:induction false} PointsLength(rows: seq<Sample>)
    ensures |Points(rows)| == if rows == [] then 0 else |rows| - 1
  {
    if |rows| > 1 {
      PointsLength(rows[..|rows| - 1]);
    }
  }

  /** The raw query: select, order, limit, then walk the rows with a baseline. */
  method QueryRaw(samples: seq<Sample>, starts: int, ends: int, limit: nat) returns (points: seq<Point>)
    requires Increasing(samples)
    ensures var rows := Window(samples, starts, ends);
            points == Points(if |rows| <= limit then rows else rows[..limit])
  {
    var selected := Window(samples, starts, ends);
    var rows := if |selected| <= limit then selected else selected[..limit];
    points := [];
    var previous := None;
    for k := 0 to |rows|
      invariant previous == Last(rows[..k])
      invariant points == Points(rows[..k])
    {
      var row := rows[k];
      assert rows[..k + 1][..k] == rows[..k];
      if previous.Some? {
        var p := previous.value;
        var bytes := None;
        if row.generation == p.generation && row.rx >= p.rx && row.tx >= p.tx {
          bytes := Some((row.rx - p.rx, row.tx - p.tx));
        }
        var missing := MissingIntervals(p, row.at);
        points := points + [Point(row.at, bytes, missing, if row.reason.Some? then 1 else 0)];
      }
      previous := Some(row);
    }
    assert rows[..|rows|] == rows;
  }

  /** What one point says, in the terms of a rollup row. */
  function Weight(p: Point): Bucket {
    Bucket(if p.bytes.Some? then p.bytes.value.0 else 0, if p.bytes.Some? then p.bytes.value.1 else 0,
           1 - p.discontinuities, p.missing, p.discontinuities)
  }

  /** What the points of one hour add up to. */
  function HourTotal(points: seq<Point>, hourOf: int -> int, hour: int): Bucket {
    if points == [] then NOTHING
    else
      var p := points[|points| - 1];
      Plus(HourTotal(points[..|points| - 1], hourOf, hour), if hourOf(p.at) == hour then Weight(p) else NOTHING)
  }

  lemma PointWeighsItsContribution(previous: Sample, s: Sample)
    ensures Weight(PointOf(previous, s)) == Contribution(Some(previous), s)
  {
  }

  /** The window holds every sample of the hour, and the sample before each of them. */
  ghost predicate Covers(samples: seq<Sample>, starts: int, ends: int, hourOf: int -> int, hour: int) {
    forall i {:trigger hourOf(samples[i].at)} | 0 <= i < |samples| && hourOf(samples[i].at) == hour ::
      Inside(samples[i], starts, ends) && (i > 0 ==> Inside(samples[i - 1], starts, ends))
  }

  /** The very first sample has no point; all it can add to its hour is a discontinuity. */
  function Baseline(samples: seq<Sample>, hourOf: int -> int, hour: int): Bucket {
    if samples != [] && hourOf(samples[0].at) == hour then Contribution(None, samples[0]) else NOTHING
  }

  lemma CoversInit(samples: seq<Sample>, starts: int, ends: int, hourOf: int -> int, hour: int)
    requires samples != [] && Covers(samples, starts, ends, hourOf, hour)
    ensures Covers(samples[..|samples| - 1], starts, ends, hourOf, hour)
    ensures hourOf(samples[|samples| - 1].at) == hour ==>
              && Inside(samples[|samples| - 1], starts, ends)
              && (|samples| > 1 ==> Inside(samples[|samples| - 2], starts, ends))
  {
    var init := samples[..|samples| - 1];
    forall i {:trigger hourOf(init[i].at)} | 0 <= i < |init| && hourOf(init[i].at) == hour
      ensures Inside(init[i], starts, ends) && (i > 0 ==> Inside(init[i - 1], starts, ends))
    {
      assert hourOf(samples[i].at) == hour;
    }
  }

  lemma PointsExtend(rows: seq<Sample>, s: Sample, hourOf: int -> int, hour: int)
    ensures HourTotal(Points(rows + [s]), hourOf, hour)
         == Plus(HourTotal(Points(rows), hourOf, hour),
                 if Last(rows).Some? && hourOf(s.at) == hour then Contribution(Last(rows), s) else NOTHING)
  {
    var longer := rows + [s];
    if rows != [] {
      var p := PointOf(rows[|rows| - 1], s);
      assert longer[..|longer| - 1] == rows;
      assert Points(longer) == Points(rows) + [p];
      assert (Points(rows) + [p])[..|Points(rows)|] == Points(rows);
      PointWeighsItsContribution(rows[|rows| - 1], s);
    }
  }

  lemma SumExtends(samples: seq<Sample>, hourOf: int -> int, hour: int)
    requires samples != []
    ensures var init := samples[..|samples| - 1];
            Rolled(samples, hourOf, hour) == Plus(Rolled(init, hourOf, hour), Share(samples, hourOf, hour))
  {
    var init := samples[..|samples| - 1];
    assert Entries(samples)[..|Entries(samples)| - 1] == Entries(init);
  }

  lemma WindowKeepsLast(samples: seq<Sample>, starts: int, ends: int)
    requires samples != [] && Inside(samples[|samples| - 1], starts, ends)
    ensures Last(Window(samples, starts, ends)) == Last(samples)
  {
  }

  lemma WindowStep(samples: seq<Sample>, starts: int, ends: int)
    requires samples != []
    ensures var init, s := samples[..|samples| - 1], samples[|samples| - 1];
            Window(samples, starts, ends) ==
            if Inside(s, starts, ends) then Window(init, starts, ends) + [s] else Window(init, starts, ends)
  {
  }

  /** The hour's bytes as the raw points of the window show them. */
  function Seen(samples: seq<Sample>, starts: int, ends: int, hourOf: int -> int, hour: int): Bucket {
    HourTotal(Points(Window(samples, starts, ends)), hourOf, hour)
  }

  /** The hour's row as the samples make it. */
  function Rolled(samples: seq<Sample>, hourOf: int -> int, hour: int): Bucket {
    BucketSum(Entries(samples), hourOf, hour)
  }

  ghost predicate Agrees(samples: seq<Sample>, starts: int, ends: int, hourOf: int -> int, hour: int) {
    Rolled(samples, hourOf, hour) == Plus(Seen(samples, starts, ends, hourOf, hour), Baseline(samples, hourOf, hour))
  }

  /** A sample outside the hour shows nothing of it. */
  lemma OutsideTheHour(samples: seq<Sample>, starts: int, ends: int, hourOf: int -> int, hour: int)
    requires samples != [] && hourOf(samples[|samples| - 1].at) != hour
    ensures Seen(samples, starts, ends, hourOf, hour) == Seen(samples[..|samples| - 1], starts, ends, hourOf, hour)
  {
    var init, s := samples[..|samples| - 1], samples[|samples| - 1];
    WindowStep(samples, starts, ends);
    if Inside(s, starts, ends) {
      PointsExtend(Window(init, starts, ends), s, hourOf, hour);
      PlusNothing(Seen(init, starts, ends, hourOf, hour));
    }
  }

  /** A sample of the hour shows its share, when the sample before it is in the window. */
  lemma InsideTheHour(samples: seq<Sample>, starts: int, ends: int, hourOf: int -> int, hour: int)
    requires |samples| > 1 && hourOf(samples[|samples| - 1].at) == hour
    requires Inside(samples[|samples| - 1], starts, ends) && Inside(samples[|samples| - 2], starts, ends)
    ensures Seen(samples, starts, ends, hourOf, hour)
         == Plus(Seen(samples[..|samples| - 1], starts, ends, hourOf, hour), Share(samples, hourOf, hour))
  {
    var init, s := samples[..|samples| - 1], samples[|samples| - 1];
    WindowStep(samples, starts, ends);
    WindowKeepsLast(init, starts, ends);
    PointsExtend(Window(init, starts, ends), s, hourOf, hour);
  }

  /** What the last sample adds to its hour's row. */
  function Share(samples: seq<Sample>, hourOf: int -> int, hour: int): Bucket
    requires samples != []
  {
    var s := samples[|samples| - 1];
    if hourOf(s.at) == hour then Contribution(Last(samples[..|samples| - 1]), s) else NOTHING
  }

  lemma OneSample(samples: seq<Sample>, starts: int, ends: int, hourOf: int -> int, hour: int)
    requires |samples| == 1
    ensures Agrees(samples, starts, ends, hourOf, hour)
  {
    var s := samples[0];
    assert samples[..0] == [];
    WindowStep(samples, starts, ends);
    assert Window([], starts, ends) == [];
    assert Points(Window(samples, starts, ends)) == [];
    SumExtends(samples, hourOf, hour);
    PlusNothing(Share(samples, hourOf, hour));
    assert Entries([]) == [];
  }

  lemma OneMore(samples: seq<Sample>, starts: int, ends: int, hourOf: int -> int, hour: int)
    requires |samples| > 1
    requires hourOf(samples[|samples| - 1].at) == hour ==>
               && Inside(samples[|samples| - 1], starts, ends)
               && Inside(samples[|samples| - 2], starts, ends)
    requires Agrees(samples[..|samples| - 1], starts, ends, hourOf, hour)
    ensures Agrees(samples, starts, ends, hourOf, hour)
  {
    var init, c := samples[..|samples| - 1], Share(samples, hourOf, hour);
    SumExtends(samples, hourOf, hour);
    PlusNothing(Rolled(init, hourOf, hour));
    if hourOf(samples[|samples| - 1].at) == hour {
      InsideTheHour(samples, starts, ends, hourOf, hour);
      PlusSwap(Seen(init, starts, ends, hourOf, hour), Baseline(init, hourOf, hour), c);
    } else {
      OutsideTheHour(samples, starts, ends, hourOf, hour);
    }
  }

  lemma {:induction false} PointsOfWindow(samples: seq<Sample>, starts: int, ends: int, hourOf: int -> int, hour: int)
    requires Covers(samples, starts, ends, hourOf, hour)
    ensures Agrees(samples, starts, ends, hourOf, hour)
  {
    if |samples| > 1 {
      CoversInit(samples, starts, ends, hourOf, hour);
      PointsOfWindow(samples[..|samples| - 1], starts, ends, hourOf, hour);
      OneMore(samples, starts, ends, hourOf, hour);
    } else if samples != [] {
      OneSample(samples, starts, ends, hourOf, hour);
    } else {
      NoSample(samples, starts, ends, hourOf, hour);
    }
  }

  lemma NoSample(samples: seq<Sample>, starts: int, ends: int, hourOf: int -> int, hour: int)
    requires samples == []
    ensures Agrees(samples, starts, ends, hourOf, hour)
  {
    assert Entries(samples) == [];
    assert Window(samples, starts, ends) == [];
    assert Points([]) == [];
  }

  lemma PlusSwap(a: Bucket, b: Bucket, c: Bucket)
    ensures Plus(Plus(a, b), c) == Plus(Plus(a, c), b)
  {
  }

  /** Main result: for every run and every raw window that holds an hour's samples and the
      sample before them, the hour's raw points add up to the hour's rollup row, field by field;
      only the very first sample, which has no point, may hold one more discontinuity. */
  lemma RawHistoryAgreesWithRollup(arrivals: seq<Arrival>, starts: int, ends: int, hour: int)
    requires Covers(After(arrivals).samples, starts, ends, HourOf, hour)
    ensures var t := After(arrivals);
            var raw := HourTotal(Points(Window(t.samples, starts, ends)), HourOf, hour);
            var rolled := if hour in t.hourly then t.hourly[hour] else NOTHING;
            && raw.rx == rolled.rx && raw.tx == rolled.tx
            && raw.missing == rolled.missing && raw.samples == rolled.samples
            && raw.discontinuities ==
               rolled.discontinuities
               - (if t.samples != [] && HourOf(t.samples[0].at) == hour && t.samples[0].reason.Some? then 1 else 0)
  {
    var t := After(arrivals);
    RollupsRefineSamples(arrivals);
    PointsOfWindow(t.samples, starts, ends, HourOf, hour);
    if hour !in t.hourly {
      NoEntrySumsToNothing(Entries(t.samples), HourOf, hour);
    }
  }
}
