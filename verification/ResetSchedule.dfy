/** When a policy's traffic period resets next (controller/guardian/port_traffic.py:158-218).

    The schedule of a reset policy is stated on its own, as a set of dates; the computation is
    proved to return its least member after the local day. */
module ResetSchedule {
  import opened Base
  import opened Calendar

  datatype ResetPolicy =
    | Manual
    | Monthly(day: int)
    | Yearly(month: int, day: int)
    | FixedDate(date: Date)
    | IntervalDays(anchor: Date, every: int)
    | IntervalMonths(anchor: Date, every: int, day: int)

  predicate Representable(d: Date) {
    Valid(d) && d.year <= MAX_YEAR
  }

  /** What validation guarantees of a normalized policy. */
  predicate Normalized(p: ResetPolicy) {
    match p
    case Manual => true
    case Monthly(day) => 1 <= day <= 31
    case Yearly(month, day) => 1 <= month <= 12 && 1 <= day <= 31
    case FixedDate(date) => Representable(date)
    case IntervalDays(anchor, every) => Representable(anchor) && 1 <= every <= 366
    case IntervalMonths(anchor, every, day) => Representable(anchor) && 1 <= every <= 120 && 1 <= day <= 31
  }

  /** Step `k` of a monthly interval: the anchor itself, then the clamped day in month
      anchor + k * every, however short the months in between were. */
  function MonthStep(anchor: Date, every: int, day: int, k: nat): Date {
    if k == 0 then anchor else AddMonths(anchor, k * every, day)
  }

  /** The dates of a schedule. */
  ghost predicate OnSchedule(p: ResetPolicy, d: Date) {
    Valid(d) &&
    match p
    case Manual => false
    case Monthly(day) => d.day == Min(day, DaysInMonth(d.year, d.month))
    case Yearly(month, day) => d.month == month && d.day == Min(day, DaysInMonth(d.year, month))
    case FixedDate(date) => d == date
    case IntervalDays(anchor, every) => exists k: nat :: DayNumber(d) == DayNumber(anchor) + k * every
    case IntervalMonths(anchor, every, day) => exists k: nat :: d == MonthStep(anchor, every, day, k)
  }

  ghost predicate LeastAfter(p: ResetPolicy, today: Date, d: Date) {
    && OnSchedule(p, d) && Before(today, d)
    && forall e :: OnSchedule(p, e) && Before(today, e) ==> !Before(e, d)
  }

  /** The next reset: none, a date, or a date Python cannot represent. */
  datatype Next = Never | On(date: Date) | OutOfRange

  ghost predicate NextIs(p: ResetPolicy, today: Date, r: Next) {
    match r
    case Never => forall e :: OnSchedule(p, e) ==> !Before(today, e)
    case On(d) => LeastAfter(p, today, d) && d.year <= MAX_YEAR
    case OutOfRange => exists d :: LeastAfter(p, today, d) && d.year > MAX_YEAR
  }

  // ---------------------------------------------------------------- the schedule in plain terms

  /** The day asked for, or the last one of a month that is too short for it. */
  predicate DayFits(d: Date, day: int) {
    d.day == day || (d.day < day && d.day == DaysInMonth(d.year, d.month))
  }

  /** What each policy type schedules: every month; one month of every year; one date; every so many
      days from the anchor; and the anchor with every so many months from it. */
  lemma SchedulePlainly(p: ResetPolicy, d: Date)
    requires Normalized(p) && Valid(d)
    ensures OnSchedule(p, d) <==>
      match p
      case Manual => false
      case Monthly(day) => DayFits(d, day)
      case Yearly(month, day) => d.month == month && DayFits(d, day)
      case FixedDate(date) => d == date
      case IntervalDays(anchor, every) =>
        DayNumber(d) >= DayNumber(anchor) && (DayNumber(d) - DayNumber(anchor)) % every == 0
      case IntervalMonths(anchor, every, day) =>
        var months := 12 * (d.year - anchor.year) + d.month - anchor.month;
        d == anchor || (months > 0 && months % every == 0 && DayFits(d, day))
  {
    match p
    case IntervalDays(anchor, every) =>
      MultipleIff(DayNumber(d) - DayNumber(anchor), every);
    case IntervalMonths(anchor, every, day) =>
      IntervalMonthsPlainly(p, d);
    case _ =>
  }

  ghost predicate IsMultiple(n: int, every: int) {
    exists k: nat :: n == k * every
  }

  lemma MultipleIff(n: int, every: int)
    requires every >= 1
    ensures IsMultiple(n, every) <==> n >= 0 && n % every == 0
  {
    if k: nat :| n == k * every {
      MulMonotone(0, k, every);
      ExactDivision(k, every);
    }
    if n >= 0 && n % every == 0 {
      assert n == (n / every) * every;
    }
  }

  lemma ExactDivision(k: nat, every: int)
    requires every >= 1
    ensures (k * every) % every == 0
  {
    MulMonotone(0, k, every);
    var q := (k * every) / every;
    FloorBounds(k * every, every);
    if k < q {
      MulMonotone(k + 1, q, every);
      assert false;
    } else if k > q {
      MulMonotone(q + 1, k, every);
      assert false;
    }
  }

  lemma IntervalMonthsPlainly(p: ResetPolicy, d: Date)
    requires p.IntervalMonths? && Normalized(p) && Valid(d)
    ensures var months := MonthIndex(d) - MonthIndex(p.anchor);
            OnSchedule(p, d) <==> d == p.anchor || (months > 0 && months % p.every == 0 && DayFits(d, p.day))
  {
    var months := MonthIndex(d) - MonthIndex(p.anchor);
    MultipleIff(months, p.every);
    if k: nat :| d == MonthStep(p.anchor, p.every, p.day, k) {
      StepFits(p.anchor, p.every, p.day, k);
    }
    if d == p.anchor {
      assert d == MonthStep(p.anchor, p.every, p.day, 0);
    }
    if months > 0 && months % p.every == 0 && DayFits(d, p.day) {
      var k: nat :| months == k * p.every;
      FittingIsStep(p.anchor, p.every, p.day, k, d);
    }
  }

  lemma StepFits(anchor: Date, every: int, day: int, k: nat)
    requires Valid(anchor) && every >= 1 && day >= 1
    ensures var d := MonthStep(anchor, every, day, k);
            k > 0 ==> MonthIndex(d) > MonthIndex(anchor) && DayFits(d, day)
    ensures IsMultiple(MonthIndex(MonthStep(anchor, every, day, k)) - MonthIndex(anchor), every)
  {
    MonthStepIndex(anchor, every, day, k);
    if k > 0 {
      MulMonotone(1, k, every);
    }
  }

  lemma FittingIsStep(anchor: Date, every: int, day: int, k: nat, d: Date)
    requires Valid(anchor) && Valid(d) && every >= 1 && day >= 1
    requires MonthIndex(d) == MonthIndex(anchor) + k * every > MonthIndex(anchor) && DayFits(d, day)
    ensures d == MonthStep(anchor, every, day, k)
  {
    MonthStepIndex(anchor, every, day, k);
    SameMonth(d, MonthStep(anchor, every, day, k));
  }

  // ---------------------------------------------------------------- least dates

  lemma MonthlyLeast(p: ResetPolicy, today: Date, d: Date)
    requires p.Monthly? && Normalized(p) && Valid(today)
    requires var c := Clamp(today.year, today.month, p.day);
             d == if Before(today, c) then c else AddMonths(c, 1, p.day)
    ensures LeastAfter(p, today, d)
  {
    var c := Clamp(today.year, today.month, p.day);
    AtIndexValid(MonthIndex(c) + 1, p.day);
    forall e | OnSchedule(p, e) && Before(today, e)
      ensures !Before(e, d)
    {
      if MonthIndex(e) < MonthIndex(d) {
        if MonthIndex(e) == MonthIndex(today) {
          SameMonth(e, today);
        } else {
          LaterMonthIsLater(e, today);
        }
      } else if MonthIndex(e) == MonthIndex(d) {
        SameMonth(e, d);
      } else {
        LaterMonthIsLater(d, e);
      }
    }
  }

  lemma YearlyLeast(p: ResetPolicy, today: Date, d: Date)
    requires p.Yearly? && Normalized(p) && Valid(today)
    requires var c := Clamp(today.year, p.month, p.day);
             d == if Before(today, c) then c else Clamp(today.year + 1, p.month, p.day)
    ensures LeastAfter(p, today, d)
  {
  }

  lemma MulMonotone(a: int, b: int, every: int)
    requires a <= b && 0 <= every
    ensures a * every <= b * every
  {
  }

  /** A step of a day interval is the least after `today` when it is after and the step
      before it is not. */
  lemma DayStepLeast(p: ResetPolicy, today: Date, d: Date, k: nat)
    requires p.IntervalDays? && Normalized(p) && Valid(today) && Valid(d)
    requires DayNumber(d) == DayNumber(p.anchor) + k * p.every
    requires DayNumber(today) < DayNumber(d)
    requires k > 0 ==> DayNumber(p.anchor) + (k - 1) * p.every <= DayNumber(today)
    ensures LeastAfter(p, today, d)
  {
    BeforeByNumber(today, d);
    forall e | OnSchedule(p, e) && Before(today, e)
      ensures !Before(e, d)
    {
      var j: nat :| DayNumber(e) == DayNumber(p.anchor) + j * p.every;
      BeforeByNumber(today, e);
      BeforeByNumber(e, d);
      StepsCannotPass(j, k, p.every, DayNumber(today) - DayNumber(p.anchor));
    }
  }

  lemma StepsCannotPass(j: nat, k: nat, every: int, elapsed: int)
    requires every >= 1 && elapsed < j * every
    requires k > 0 ==> (k - 1) * every <= elapsed
    ensures k * every <= j * every
  {
    if j < k {
      MulMonotone(j, k - 1, every);
      assert false;
    }
    MulMonotone(k, j, every);
  }

  lemma AnchorLeast(p: ResetPolicy, today: Date)
    requires p.IntervalDays? && Normalized(p) && Valid(today) && Before(today, p.anchor)
    ensures LeastAfter(p, today, p.anchor)
  {
    BeforeByNumber(today, p.anchor);
    DayStepLeast(p, today, p.anchor, 0);
  }

  /** The days from the anchor to the next boundary: the whole intervals elapsed, and one more. */
  function ClosedForm(elapsed: nat, every: int): (days: nat)
    requires every >= 1
    ensures days > elapsed
  {
    FloorBounds(elapsed, every);
    (elapsed / every + 1) * every
  }

  lemma ClosedFormLeast(p: ResetPolicy, today: Date, elapsed: nat)
    requires p.IntervalDays? && Normalized(p) && Valid(today)
    requires elapsed == DayNumber(today) - DayNumber(p.anchor)
    ensures LeastAfter(p, today, AddDays(p.anchor, ClosedForm(elapsed, p.every)))
  {
    var k := elapsed / p.every + 1;
    FloorBounds(elapsed, p.every);
    AddDaysNumber(p.anchor, ClosedForm(elapsed, p.every));
    DayStepLeast(p, today, AddDays(p.anchor, ClosedForm(elapsed, p.every)), k);
  }

  lemma FloorBounds(elapsed: int, every: int)
    requires every >= 1 && elapsed >= 0
    ensures (elapsed / every) * every <= elapsed < (elapsed / every + 1) * every
  {
    assert elapsed == (elapsed / every) * every + elapsed % every;
    assert (elapsed / every + 1) * every == (elapsed / every) * every + every;
  }

  /** Every step lands in its own month, later than the steps before. */
  lemma MonthStepIndex(anchor: Date, every: int, day: int, k: nat)
    requires Valid(anchor) && every >= 1 && day >= 1
    ensures Valid(MonthStep(anchor, every, day, k))
    ensures MonthIndex(MonthStep(anchor, every, day, k)) == MonthIndex(anchor) + k * every
  {
    MulMonotone(0, k, every);
    if k > 0 {
      AtIndexValid(MonthIndex(anchor) + k * every, day);
    }
  }

  /** Stepping from a step gives the next step: a short month in between leaves no trace. */
  lemma NoMonthEndDrift(anchor: Date, every: int, day: int, k: nat)
    requires Valid(anchor) && every >= 1 && day >= 1
    ensures AddMonths(MonthStep(anchor, every, day, k), every, day) == MonthStep(anchor, every, day, k + 1)
  {
    MonthStepIndex(anchor, every, day, k);
    assert k * every + every == (k + 1) * every;
  }

  lemma MonthStepsGrow(anchor: Date, every: int, day: int, j: nat, k: nat)
    requires Valid(anchor) && every >= 1 && day >= 1 && j < k
    ensures Before(MonthStep(anchor, every, day, j), MonthStep(anchor, every, day, k))
  {
    MonthStepIndex(anchor, every, day, j);
    MonthStepIndex(anchor, every, day, k);
    MulMonotone(j + 1, k, every);
    assert (j + 1) * every == j * every + every;
    LaterMonthIsLater(MonthStep(anchor, every, day, j), MonthStep(anchor, every, day, k));
  }

  lemma MonthsLeast(p: ResetPolicy, today: Date, k: nat)
    requires p.IntervalMonths? && Normalized(p)
    requires Before(today, MonthStep(p.anchor, p.every, p.day, k))
    requires k > 0 ==> !Before(today, MonthStep(p.anchor, p.every, p.day, k - 1))
    ensures LeastAfter(p, today, MonthStep(p.anchor, p.every, p.day, k))
  {
    var d := MonthStep(p.anchor, p.every, p.day, k);
    MonthStepIndex(p.anchor, p.every, p.day, k);
    forall e | OnSchedule(p, e) && Before(today, e)
      ensures !Before(e, d)
    {
      var j: nat :| e == MonthStep(p.anchor, p.every, p.day, j);
      if j < k {
        if j < k - 1 {
          MonthStepsGrow(p.anchor, p.every, p.day, j, k - 1);
        }
        assert false;
      } else if k < j {
        MonthStepsGrow(p.anchor, p.every, p.day, k, j);
      }
    }
  }

  // ---------------------------------------------------------------- the computation

  /** A candidate that is the least date of the schedule: returned if it exists in Python. */
  function Answer(candidate: Date): Next {
    if candidate.year > MAX_YEAR then OutOfRange else On(candidate)
  }

  lemma AnswerIsNext(p: ResetPolicy, today: Date, candidate: Date)
    requires LeastAfter(p, today, candidate)
    ensures NextIs(p, today, Answer(candidate))
  {
  }

  /** The next reset date after the local day `today`. */
  method NextReset(p: ResetPolicy, today: Date) returns (r: Next)
    requires Normalized(p) && Representable(today)
    ensures NextIs(p, today, r)
    ensures r.Never? ==> p.Manual? || p.FixedDate?
  {
    var candidate: Date;
    match p {
      case Manual =>
        return Never;
      case Monthly(day) =>
        candidate := Clamp(today.year, today.month, day);
        if !Before(today, candidate) {
          candidate := AddMonths(candidate, 1, day);
        }
        MonthlyLeast(p, today, candidate);
      case Yearly(month, day) =>
        candidate := Clamp(today.year, month, day);
        if !Before(today, candidate) {
          candidate := Clamp(today.year + 1, month, day);
        }
        YearlyLeast(p, today, candidate);
      case FixedDate(date) =>
        candidate := date;
        if !Before(today, candidate) {
          return Never;
        }
        assert LeastAfter(p, today, candidate);
      case IntervalDays(_, _) =>
        candidate := JumpDays(p, today);
      case IntervalMonths(_, _, _) =>
        r := StepMonths(p, today);
        return;
    }
    AnswerIsNext(p, today, candidate);
    return Answer(candidate);
  }

  method JumpDays(p: ResetPolicy, today: Date) returns (candidate: Date)
    requires p.IntervalDays? && Normalized(p) && Representable(today)
    ensures LeastAfter(p, today, candidate)
  {
    candidate := p.anchor;
    if Before(today, candidate) {
      AnchorLeast(p, today);
    } else {
      BeforeByNumber(today, candidate);
      var elapsed := DayNumber(today) - DayNumber(candidate);
      ClosedFormLeast(p, today, elapsed);
      candidate := AddDays(candidate, ClosedForm(elapsed, p.every));
    }
  }

  /** The stepping loop. A step past the last representable year ends it with an error. */
  method StepMonths(p: ResetPolicy, today: Date) returns (r: Next)
    requires p.IntervalMonths? && Normalized(p) && Representable(today)
    ensures NextIs(p, today, r) && !r.Never?
  {
    var candidate := p.anchor;
    ghost var k: nat := 0;
    while !Before(today, candidate)
      invariant candidate == MonthStep(p.anchor, p.every, p.day, k)
      invariant Valid(candidate) && candidate.year <= MAX_YEAR
      invariant k > 0 ==> !Before(today, MonthStep(p.anchor, p.every, p.day, k - 1))
      decreases 12 * MAX_YEAR + 12 - MonthIndex(candidate)
    {
      NoMonthEndDrift(p.anchor, p.every, p.day, k);
      MonthStepIndex(p.anchor, p.every, p.day, k + 1);
      MonthStepsGrow(p.anchor, p.every, p.day, k, k + 1);
      candidate := AddMonths(candidate, p.every, p.day);
      k := k + 1;
      if candidate.year > MAX_YEAR {
        LaterYear(today, candidate);
        MonthsLeast(p, today, k);
        AnswerIsNext(p, today, candidate);
        return OutOfRange;
      }
    }
    MonthsLeast(p, today, k);
    AnswerIsNext(p, today, candidate);
    return On(candidate);
  }

  lemma LaterYear(a: Date, b: Date)
    requires a.year < b.year
    ensures Before(a, b)
  {
  }

  /** The answer is unique, so the computation is determined by the schedule alone. */
  lemma NextIsUnique(p: ResetPolicy, today: Date, r: Next, s: Next)
    requires NextIs(p, today, r) && NextIs(p, today, s)
    ensures r == s
  {
    if r.On? && s.On? {
      LeastUnique(p, today, r.date, s.date);
    }
  }

  lemma LeastUnique(p: ResetPolicy, today: Date, d: Date, e: Date)
    requires LeastAfter(p, today, d) && LeastAfter(p, today, e)
    ensures d == e
  {
    assert !Before(d, e) && !Before(e, d);
  }

  // ---------------------------------------------------------------- enumerating the schedule

  /** Each date is the next reset after the one before. */
  ghost predicate Chain(p: ResetPolicy, dates: seq<Date>) {
    forall i | 0 <= i < |dates| - 1 :: NextIs(p, dates[i], On(dates[i + 1]))
  }

  /** Main result: computing each boundary from the previous one goes through the schedule in
      strictly increasing order and skips none of its dates. */
  lemma {:induction false} ChainSkipsNothing(p: ResetPolicy, dates: seq<Date>, e: Date)
    requires |dates| >= 1 && Chain(p, dates)
    requires forall i | 0 <= i < |dates| :: Valid(dates[i])
    ensures forall i, j | 0 <= i < j < |dates| :: Before(dates[i], dates[j])
    ensures OnSchedule(p, e) && Before(dates[0], e) && !Before(dates[|dates| - 1], e) ==> e in dates
  {
    if |dates| > 1 {
      var init, last := dates[..|dates| - 1], dates[|dates| - 1];
      var previous := init[|init| - 1];
      ChainSkipsNothing(p, init, e);
      assert dates[|init| - 1] == previous;
      assert NextIs(p, dates[|init| - 1], On(dates[|init| - 1 + 1]));
      forall i, j | 0 <= i < j < |dates|
        ensures Before(dates[i], dates[j])
      {
        if j == |init| && i < |init| - 1 {
          assert Before(init[i], previous);
        }
      }
      if OnSchedule(p, e) && Before(dates[0], e) && !Before(last, e) {
        if Before(previous, e) {
          assert !Before(e, last);
          assert e == last;
        } else {
          assert e in init;
        }
      }
    }
  }

  // ---------------------------------------------------------------- instants

  /** The local day of an instant, in a zone of fixed offset. Instants and offsets are
      microseconds; instant 0 is the start of 0001-01-01 in UTC. */
  function LocalDay(instant: int, offset: int): int {
    (instant + offset) / 86_400_000_000 + 1
  }

  function LocalDate(instant: int, offset: int): Date
    requires 0 <= instant + offset
  {
    FromNumber(LocalDay(instant, offset))
  }

  /** Local midnight of a date, as an instant. */
  function Midnight(d: Date, offset: int): int {
    (DayNumber(d) - 1) * 86_400_000_000 - offset
  }

  lemma MidnightDay(d: Date, offset: int)
    requires Valid(d)
    ensures 0 <= Midnight(d, offset) + offset
    ensures LocalDay(Midnight(d, offset), offset) == DayNumber(d)
  {
  }

  lemma DateOfNumber(d: Date)
    requires Valid(d)
    ensures FromNumber(DayNumber(d)) == d
  {
    FromNumberInverse(DayNumber(d));
    BeforeByNumber(FromNumber(DayNumber(d)), d);
  }

  /** Local midnight falls on its own date. */
  lemma MidnightIsOnItsDate(d: Date, offset: int)
    requires Valid(d)
    ensures 0 <= Midnight(d, offset) + offset
    ensures LocalDate(Midnight(d, offset), offset) == d
  {
    MidnightDay(d, offset);
    DateOfNumber(d);
  }

  /** Main result: an instant is on a local date exactly when it lies within the 24 hours that begin
      at its midnight, counted from 0001-01-01 by the rules of the calendar. */
  lemma LocalDatePlainly(instant: int, offset: int, d: Date)
    requires 0 <= instant + offset && Valid(d)
    ensures var n := d.year - 1;
            var days := 365 * n + n / 4 - n / 100 + n / 400 + CUMULATIVE[d.month - 1] + d.day - 1 +
              if d.month > 2 && d.year % 4 == 0 && (d.year % 100 != 0 || d.year % 400 == 0) then 1 else 0;
            && Midnight(d, offset) == days * 86_400_000_000 - offset
            && (LocalDate(instant, offset) == d <==>
                  days * 86_400_000_000 <= instant + offset < (days + 1) * 86_400_000_000)
  {
    DayNumberPlainly(d);
    LocalDateValid(instant, offset);
    DateOfNumber(d);
    LocalDayIff(instant, offset, DayNumber(d));
  }

  lemma LocalDayIff(instant: int, offset: int, number: int)
    ensures LocalDay(instant, offset) == number
       <==> (number - 1) * 86_400_000_000 <= instant + offset < number * 86_400_000_000
  {
  }

  lemma LocalDateValid(instant: int, offset: int)
    requires 0 <= instant + offset
    ensures Valid(LocalDate(instant, offset)) && DayNumber(LocalDate(instant, offset)) == LocalDay(instant, offset)
  {
    FromNumberInverse(LocalDay(instant, offset));
  }

  /** The midnight of a later date is a later instant, and one that UTC can represent. */
  lemma MidnightIsLater(instant: int, offset: int, d: Date)
    requires 0 <= instant + offset && -86_400_000_000 < offset < 86_400_000_000
    requires Valid(d) && Before(LocalDate(instant, offset), d)
    ensures instant < Midnight(d, offset) && 0 <= Midnight(d, offset)
  {
    LocalDateValid(instant, offset);
    BeforeByNumber(LocalDate(instant, offset), d);
  }

  /** The computation on instants. */
  method NextResetAt(p: ResetPolicy, after: int, offset: int) returns (r: Option<int>, next: Next)
    requires Normalized(p)
    requires 0 <= after + offset && LocalDate(after, offset).year <= MAX_YEAR
    requires -86_400_000_000 < offset < 86_400_000_000
    ensures NextIs(p, LocalDate(after, offset), next)
    ensures r == if next.On? then Some(Midnight(next.date, offset)) else None
    ensures r.Some? ==> 0 <= r.value && after < r.value
  {
    LocalDateValid(after, offset);
    next := NextReset(p, LocalDate(after, offset));
    r := None;
    if next.On? {
      MidnightIsLater(after, offset, next.date);
      r := Some(Midnight(next.date, offset));
    }
  }

  /** Started from a due boundary, the computation yields the boundary after it: the local day
      of a boundary is the boundary's date. */
  lemma NextAfterBoundary(p: ResetPolicy, d: Date, offset: int, next: Next)
    requires Valid(d) && NextIs(p, LocalDate(Midnight(d, offset), offset), next)
    requires 0 <= Midnight(d, offset) + offset
    ensures NextIs(p, d, next)
  {
    MidnightIsOnItsDate(d, offset);
  }
}
