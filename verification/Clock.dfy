/** UTC time. An instant counts nanoseconds, a bucket is the number of its minute, all from 1970-01-01T00:00Z. */
module Clock {
  type Instant = int
  type Minute = int
  type Hour = int
  type Day = int
  type Month = int

  function MinuteOf(t: Instant): Minute { t / 60_000_000_000 }

  function HourOf(t: Instant): Hour { t / 3_600_000_000_000 }

  function DayOf(t: Instant): Day { t / 86_400_000_000_000 }

  function HourStart(h: Hour): Instant { h * 3_600_000_000_000 }

  function Minutes(n: int): int { n * 60_000_000_000 }

  function Hours(n: int): int { n * 3_600_000_000_000 }

  function Days(n: int): int { n * 86_400_000_000_000 }

  function HourOfMinute(m: Minute): Hour { m / 60 }

  function DayOfMinute(m: Minute): Day { m / 1440 }

  function DayOfHour(h: Hour): Day { h / 24 }

  /** Truncating an instant to its minute loses neither its hour nor its day. */
  lemma BucketKeepsHourAndDay(t: Instant)
    ensures HourOfMinute(MinuteOf(t)) == HourOf(t)
    ensures DayOfMinute(MinuteOf(t)) == DayOf(t)
    ensures DayOfHour(HourOf(t)) == DayOf(t)
  {}

  predicate LeapYear(year: int) {
    year % 4 == 0 && (year % 100 != 0 || year % 400 == 0)
  }

  /** Days of month number `m`, where month 0 is January 1970. */
  function DaysIn(m: Month): (n: int)
    ensures 28 <= n <= 31
  {
    var month := m % 12;
    if month == 1 then (if LeapYear(1970 + m / 12) then 29 else 28)
    else if month == 3 || month == 5 || month == 8 || month == 10 then 30
    else 31
  }

  /** First day of a month. */
  function MonthStart(m: Month): Day
    decreases if m < 0 then -m else m
  {
    if m == 0 then 0
    else if m > 0 then MonthStart(m - 1) + DaysIn(m - 1)
    else MonthStart(m + 1) - DaysIn(m)
  }

  lemma {:induction false} MonthStartStep(m: Month)
    ensures MonthStart(m + 1) == MonthStart(m) + DaysIn(m)
  {}

  ghost predicate InMonth(d: Day, m: Month) {
    MonthStart(m) <= d < MonthStart(m + 1)
  }

  /** The month a day falls in, searched outwards from January 1970. */
  function MonthOfDay(d: Day): (m: Month)
    ensures InMonth(d, m)
  {
    if d >= 0 then SearchUp(d, 0) else SearchDown(d, -1)
  }

  function SearchUp(d: Day, m: Month): (r: Month)
    requires MonthStart(m) <= d
    ensures InMonth(d, r)
    decreases d - MonthStart(m)
  {
    MonthStartStep(m);
    if d < MonthStart(m + 1) then m else SearchUp(d, m + 1)
  }

  function SearchDown(d: Day, m: Month): (r: Month)
    requires d < MonthStart(m + 1)
    ensures InMonth(d, r)
    decreases MonthStart(m + 1) - d
  {
    MonthStartStep(m);
    if MonthStart(m) <= d then m else SearchDown(d, m - 1)
  }

  function MonthOf(t: Instant): Month { MonthOfDay(DayOf(t)) }

  function MonthOfHour(h: Hour): Month { MonthOfDay(DayOfHour(h)) }

  // ---- the calendar ----

  /** The leap years up to and including this one. */
  function LeapsUpTo(year: int): int {
    year / 4 - year / 100 + year / 400
  }

  lemma OneMoreYear(year: int)
    ensures LeapsUpTo(year) == LeapsUpTo(year - 1) + if LeapYear(year) then 1 else 0
  {
    FourDivides(year);
    HundredDivides(year);
    Multiples(year, 4);
    Multiples(year, 100);
    Multiples(year, 400);
    YearCases(year / 4, year / 100, year / 400, (year - 1) / 4, (year - 1) / 100, (year - 1) / 400, year % 4 == 0, year % 100 == 0, year % 400 == 0);
  }

  lemma YearCases(a: int, b: int, c: int, x: int, y: int, z: int, four: bool, hundred: bool, all: bool)
    requires a == x + if four then 1 else 0
    requires b == y + if hundred then 1 else 0
    requires c == z + if all then 1 else 0
    requires (all ==> hundred) && (hundred ==> four)
    ensures a - b + c == x - y + z + if four && (!hundred || all) then 1 else 0
  {}

  lemma FourDivides(n: int)
    ensures n % 100 == 0 ==> n % 4 == 0
  {}

  lemma HundredDivides(n: int)
    ensures n % 400 == 0 ==> n % 100 == 0
  {}

  lemma Multiples(n: int, k: int)
    requires k in {4, 100, 400}
    ensures n / k == (n - 1) / k + if n % k == 0 then 1 else 0
  {}

  lemma YearLength(m: Month)
    requires m % 12 == 0
    ensures MonthStart(m + 12) == MonthStart(m) + 365 + if LeapYear(1970 + m / 12) then 1 else 0
  {
    hide MonthStart, LeapYear;
    MonthStartStep(m);
    MonthStartStep(m + 1);
    MonthStartStep(m + 2);
    MonthStartStep(m + 3);
    MonthStartStep(m + 4);
    MonthStartStep(m + 5);
    MonthStartStep(m + 6);
    MonthStartStep(m + 7);
    MonthStartStep(m + 8);
    MonthStartStep(m + 9);
    MonthStartStep(m + 10);
    MonthStartStep(m + 11);
  }

  /** Each year starts 365 days after the one before, and one for every leap year of the Gregorian rule in between. */
  lemma {:induction false} YearStart(year: int)
    ensures MonthStart(12 * (year - 1970)) == 365 * (year - 1970) + LeapsUpTo(year - 1) - LeapsUpTo(1969)
    decreases if year >= 1970 then year - 1970 else 1970 - year
  {
    hide LeapsUpTo, LeapYear;
    if year > 1970 {
      YearStart(year - 1);
      YearLength(12 * (year - 1 - 1970));
      OneMoreYear(year - 1);
    } else if year < 1970 {
      YearStart(year + 1);
      YearLength(12 * (year - 1970));
      OneMoreYear(year);
    }
  }

  const DAYS_BEFORE := [0, 31, 59, 90, 120, 151, 181, 212, 243, 273, 304, 334]

  /** Within a year, every month starts where the calendar has it; from March on a day later in leap years. */
  lemma MonthStartInYear(year: int, month: nat)
    requires month < 12
    ensures MonthStart(12 * (year - 1970) + month)
            == MonthStart(12 * (year - 1970)) + DAYS_BEFORE[month] + if month >= 2 && LeapYear(year) then 1 else 0
  {
    hide MonthStart, LeapYear;
    if month > 0 {
      MonthStartInYear(year, month - 1);
      MonthStartStep(12 * (year - 1970) + month - 1);
    }
  }
}
