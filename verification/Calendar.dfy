/** Civil dates of the proleptic Gregorian calendar, their order and their day numbers. */
module Calendar {
  import opened Base

  const MAX_YEAR := 9999

  datatype Date = Date(year: int, month: int, day: int)

  predicate IsLeap(year: int) {
    year % 4 == 0 && (year % 100 != 0 || year % 400 == 0)
  }

  function DaysInMonth(year: int, month: int): nat {
    if month == 2 then if IsLeap(year) then 29 else 28
    else if month == 4 || month == 6 || month == 9 || month == 11 then 30
    else 31
  }

  predicate Valid(d: Date) {
    1 <= d.year && 1 <= d.month <= 12 && 1 <= d.day <= DaysInMonth(d.year, d.month)
  }

  predicate Before(a: Date, b: Date) {
    a.year < b.year || (a.year == b.year && (a.month < b.month || (a.month == b.month && a.day < b.day)))
  }

  function DaysBeforeMonth(year: int, month: int): nat {
    if month <= 1 then 0 else DaysBeforeMonth(year, month - 1) + DaysInMonth(year, month - 1)
  }

  function DaysBeforeYear(year: int): nat {
    if year <= 1 then 0 else DaysBeforeYear(year - 1) + DaysBeforeMonth(year - 1, 13)
  }

  /** The number of a day, counting 0001-01-01 as 1. */
  function DayNumber(d: Date): int {
    DaysBeforeYear(d.year) + DaysBeforeMonth(d.year, d.month) + d.day
  }

  function NextDay(d: Date): Date {
    if d.day < DaysInMonth(d.year, d.month) then d.(day := d.day + 1)
    else if d.month < 12 then Date(d.year, d.month + 1, 1)
    else Date(d.year + 1, 1, 1)
  }

  function AddDays(d: Date, days: nat): Date {
    if days == 0 then d else NextDay(AddDays(d, days - 1))
  }

  lemma NextDayNumber(d: Date)
    requires Valid(d)
    ensures Valid(NextDay(d)) && DayNumber(NextDay(d)) == DayNumber(d) + 1
  {
    if d.month == 12 && d.day == DaysInMonth(d.year, d.month) {
      assert DaysBeforeMonth(d.year, 13) == DaysBeforeMonth(d.year, 12) + DaysInMonth(d.year, 12);
      assert DaysBeforeMonth(d.year + 1, 1) == 0;
    }
  }

  lemma {:induction false} AddDaysNumber(d: Date, days: nat)
    requires Valid(d)
    ensures Valid(AddDays(d, days)) && DayNumber(AddDays(d, days)) == DayNumber(d) + days
  {
    if days > 0 {
      AddDaysNumber(d, days - 1);
      NextDayNumber(AddDays(d, days - 1));
    }
  }

  lemma {:induction false} MonthsGrow(year: int, m: int, n: int)
    requires 1 <= m < n
    ensures DaysBeforeMonth(year, m) + DaysInMonth(year, m) <= DaysBeforeMonth(year, n)
  {
    if m + 1 < n {
      MonthsGrow(year, m, n - 1);
    }
  }

  lemma {:induction false} YearsGrow(y: int, z: int)
    requires 1 <= y < z
    ensures DaysBeforeYear(y) + DaysBeforeMonth(y, 13) <= DaysBeforeYear(z)
  {
    if y + 1 == z {
      YearLength(y);
    } else {
      YearsGrow(y, z - 1);
      YearLength(z - 1);
    }
  }

  /** A year is as long as its twelve months. */
  lemma YearLength(y: int)
    requires y >= 1
    ensures 0 <= DaysBeforeMonth(y, 13) <= DaysBeforeYear(y + 1) - DaysBeforeYear(y)
  {
  }

  /** The order of dates is the order of their numbers. */
  lemma BeforeByNumber(a: Date, b: Date)
    requires Valid(a) && Valid(b)
    ensures Before(a, b) <==> DayNumber(a) < DayNumber(b)
    ensures DayNumber(a) == DayNumber(b) ==> a == b
  {
    if Before(a, b) {
      BeforeGrows(a, b);
    } else if a != b {
      BeforeGrows(b, a);
    }
  }

  lemma BeforeGrows(a: Date, b: Date)
    requires Valid(a) && Valid(b) && Before(a, b)
    ensures DayNumber(a) < DayNumber(b)
  {
    if a.year < b.year {
      YearsGrow(a.year, b.year);
      MonthsGrow(a.year, a.month, 13);
    } else if a.month < b.month {
      MonthsGrow(a.year, a.month, b.month);
    }
  }

  /** The date with a given number. */
  function FromNumber(n: int): Date
    requires n >= 1
  {
    if n == 1 then Date(1, 1, 1) else NextDay(FromNumber(n - 1))
  }

  lemma {:induction false} FromNumberInverse(n: int)
    requires n >= 1
    ensures Valid(FromNumber(n)) && DayNumber(FromNumber(n)) == n
  {
    if n == 1 {
      assert DaysBeforeYear(1) == 0;
    } else {
      FromNumberInverse(n - 1);
      NextDayNumber(FromNumber(n - 1));
    }
  }

  // ---------------------------------------------------------------- day numbers in closed form

  /** The days before a year: 365 each, one more every fourth, except centuries not divisible
      by 400. */
  lemma {:induction false} YearsPlainly(year: int)
    requires year >= 1
    ensures var n := year - 1; DaysBeforeYear(year) == 365 * n + n / 4 - n / 100 + n / 400
  {
    if year > 1 {
      YearsPlainly(year - 1);
      MonthsPlainly(year - 1, 13);
      LeapSteps(year - 2);
    }
  }

  lemma LeapSteps(n: int)
    requires n >= 0
    ensures var m := n + 1;
            m / 4 - m / 100 + m / 400 - (n / 4 - n / 100 + n / 400)
              == if m % 4 == 0 && (m % 100 != 0 || m % 400 == 0) then 1 else 0
  {
    StepBy(n, 4);
    StepBy(n, 100);
    StepBy(n, 400);
  }

  lemma StepBy(n: int, d: int)
    requires n >= 0 && d in {4, 100, 400}
    ensures (n + 1) / d - n / d == if (n + 1) % d == 0 then 1 else 0
  {
  }

  /** The days of a common year before each month, and before the next year. */
  const CUMULATIVE: seq<int> := [0, 31, 59, 90, 120, 151, 181, 212, 243, 273, 304, 334, 365]

  lemma {:induction false} MonthsPlainly(year: int, month: int)
    requires 1 <= month <= 13
    ensures DaysBeforeMonth(year, month) == CUMULATIVE[month - 1] +
              if month > 2 && year % 4 == 0 && (year % 100 != 0 || year % 400 == 0) then 1 else 0
  {
    if month > 1 {
      MonthsPlainly(year, month - 1);
    }
  }

  /** Main result: day numbers count the days of the proleptic Gregorian calendar from
      0001-01-01. */
  lemma DayNumberPlainly(d: Date)
    requires Valid(d)
    ensures var n := d.year - 1;
            DayNumber(d) == 365 * n + n / 4 - n / 100 + n / 400 + CUMULATIVE[d.month - 1] + d.day +
              if d.month > 2 && d.year % 4 == 0 && (d.year % 100 != 0 || d.year % 400 == 0) then 1 else 0
  {
    YearsPlainly(d.year);
    MonthsPlainly(d.year, d.month);
  }

  // ---------------------------------------------------------------- months

  /** Months since the start of year 0. */
  function MonthIndex(d: Date): int {
    d.year * 12 + d.month - 1
  }

  /** The day of the month if the month has it, else the month's last day. */
  function Clamp(year: int, month: int, day: int): Date {
    Date(year, month, Min(day, DaysInMonth(year, month)))
  }

  function AtIndex(index: int, day: int): Date {
    Clamp(index / 12, index % 12 + 1, day)
  }

  function AddMonths(d: Date, months: int, day: int): Date {
    AtIndex(MonthIndex(d) + months, day)
  }

  lemma AtIndexValid(index: int, day: int)
    requires 12 <= index && 1 <= day
    ensures Valid(AtIndex(index, day)) && MonthIndex(AtIndex(index, day)) == index
  {
  }

  lemma LaterMonthIsLater(a: Date, b: Date)
    requires Valid(a) && Valid(b) && MonthIndex(a) < MonthIndex(b)
    ensures Before(a, b)
  {
  }

  lemma SameMonth(a: Date, b: Date)
    requires Valid(a) && Valid(b) && MonthIndex(a) == MonthIndex(b)
    ensures a.year == b.year && a.month == b.month
  {
  }
}
