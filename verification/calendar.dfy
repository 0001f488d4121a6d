/** The part of the civil-time library (cctz) the bot relies on: civil days of
    the proleptic Gregorian calendar, their normalising constructor, the
    conversion from an absolute instant to a local civil day and back, and a
    time zone reduced to a fixed offset from UTC.

    A civil day is represented by its day number: the count of days since
    1970-01-01. An instant is a count of seconds since 1970-01-01T00:00:00Z. */
module Calendar {

  type Day = int
  type Instant = int

  const SecondsPerDay: int := 86400

  /** A civil date given by its fields. */
  datatype CivilDate = CivilDate(year: int, month: int, day: int)

  /** A time zone with a fixed offset east of UTC, in seconds. */
  datatype TimeZone = FixedOffset(utcOffset: int)

  /** Gregorian leap rule: divisible by 4, except centuries not divisible
      by 400. */
  predicate IsLeapYear(y: int) {
    y % 4 == 0 && (y % 100 != 0 || y % 400 == 0)
  }

  function DaysInMonth(y: int, m: int): (n: int)
    requires 1 <= m <= 12
    ensures 28 <= n <= 31
    ensures n == 29 <==> m == 2 && IsLeapYear(y)
    ensures m < 12 ==> n == DaysBeforeMonth(y, m + 1) - DaysBeforeMonth(y, m)
    ensures m == 12 ==> n == YearLength(y) - DaysBeforeMonth(y, 12)
  {
    if m == 2 then (if IsLeapYear(y) then 29 else 28)
    else if m == 4 || m == 6 || m == 9 || m == 11 then 30
    else 31
  }

  predicate IsValidCivil(c: CivilDate) {
    1 <= c.month <= 12 && 1 <= c.day <= DaysInMonth(c.year, c.month)
  }

  function YearLength(y: int): int {
    if IsLeapYear(y) then 366 else 365
  }

  /** The number of leap years in [0, y), counted with a sign for negative y. */
  function LeapYearsBefore(y: int): int {
    (y + 3) / 4 - (y + 99) / 100 + (y + 399) / 400
  }

  /** Day number of January 1st of year y. */
  function DaysBeforeYear(y: int): Day {
    365 * (y - 1970) + LeapYearsBefore(y) - 478
  }

  /** Days from January 1st to the first day of month m of year y. */
  function DaysBeforeMonth(y: int, m: int): int
    requires 1 <= m <= 12
  {
    var common :=
      if m == 1 then 0 else if m == 2 then 31 else if m == 3 then 59
      else if m == 4 then 90 else if m == 5 then 120 else if m == 6 then 151
      else if m == 7 then 181 else if m == 8 then 212 else if m == 9 then 243
      else if m == 10 then 273 else if m == 11 then 304 else 334;
    common + (if m > 2 && IsLeapYear(y) then 1 else 0)
  }

  /** The first day of the month `m - 1` months after January of year y, as
      cctz computes `civil_day(civil_month(y) + m - 1)`: months outside 1..12
      carry into neighbouring years. */
  function FirstDayOfMonth(y: int, m: int): Day {
    var year := y + (m - 1) / 12;
    var month := (m - 1) % 12 + 1;
    DaysBeforeYear(year) + DaysBeforeMonth(year, month)
  }

  /** The normalising civil-day constructor: `civil_day(civil_month(y) + m - 1) + d - 1`.
      Days outside the month carry into neighbouring months, so 29 February of
      a common year is 1 March. */
  function DayOf(y: int, m: int, d: int): Day {
    FirstDayOfMonth(y, m) + d - 1
  }

  function DayOfDate(c: CivilDate): Day {
    DayOf(c.year, c.month, c.day)
  }

  /** Lexicographic order of dates. */
  predicate DateLess(a: CivilDate, b: CivilDate) {
    a.year < b.year ||
    (a.year == b.year && (a.month < b.month || (a.month == b.month && a.day < b.day)))
  }

  // ---------------------------------------------------------------------
  // Structure of the day numbering

  lemma YearStep(y: int)
    ensures DaysBeforeYear(y + 1) == DaysBeforeYear(y) + YearLength(y)
  {
    StepOver4(y);
    StepOver100(y);
    StepOver400(y);
    Divisors(y);
  }

  lemma StepOver4(y: int)
    ensures (y + 4) / 4 - (y + 3) / 4 == if y % 4 == 0 then 1 else 0
  {
  }

  lemma StepOver100(y: int)
    ensures (y + 100) / 100 - (y + 99) / 100 == if y % 100 == 0 then 1 else 0
  {
  }

  lemma StepOver400(y: int)
    ensures (y + 400) / 400 - (y + 399) / 400 == if y % 400 == 0 then 1 else 0
  {
  }

  lemma Divisors(y: int)
    ensures y % 400 == 0 ==> y % 100 == 0
    ensures y % 100 == 0 ==> y % 4 == 0
  {
    if y % 400 == 0 {
      var k := 4 * (y / 400);
      assert y == 100 * k;
      MultipleOf100(k);
    }
    if y % 100 == 0 {
      var k := 25 * (y / 100);
      assert y == 4 * k;
      MultipleOf4(k);
    }
  }

  lemma MultipleOf100(k: int)
    ensures (100 * k) % 100 == 0
  {
  }

  lemma MultipleOf4(k: int)
    ensures (4 * k) % 4 == 0
  {
  }

  lemma {:induction false} DaysBeforeYearGrows(y1: int, y2: int)
    requires y1 <= y2
    ensures DaysBeforeYear(y1) + 365 * (y2 - y1) <= DaysBeforeYear(y2)
    decreases y2 - y1
  {
    if y1 < y2 {
      YearStep(y1);
      DaysBeforeYearGrows(y1 + 1, y2);
    }
  }

  /** Every 400 years hold exactly 146097 days. */
  lemma Cycle(q: int)
    ensures DaysBeforeYear(1970 + 400 * q) == 146097 * q
    ensures DaysBeforeYear(1970 + 400 * q + 400) == 146097 * q + 146097
  {
    assert (1973 + 400 * q) / 4 == 493 + 100 * q;
    assert (2069 + 400 * q) / 100 == 20 + 4 * q;
    assert (2369 + 400 * q) / 400 == 5 + q;
    assert (2373 + 400 * q) / 4 == 593 + 100 * q;
    assert (2469 + 400 * q) / 100 == 24 + 4 * q;
    assert (2769 + 400 * q) / 400 == 6 + q;
  }

  lemma MonthStep(y: int, m: int)
    requires 1 <= m <= 12
    ensures m < 12 ==> DaysBeforeMonth(y, m + 1) == DaysBeforeMonth(y, m) + DaysInMonth(y, m)
    ensures m == 12 ==> DaysBeforeMonth(y, m) + DaysInMonth(y, m) == YearLength(y)
  {
  }

  lemma {:induction false} DaysBeforeMonthGrows(y: int, m1: int, m2: int)
    requires 1 <= m1 < m2 <= 12
    ensures DaysBeforeMonth(y, m1) + DaysInMonth(y, m1) <= DaysBeforeMonth(y, m2)
    decreases m2 - m1
  {
    MonthStep(y, m1);
    if m1 + 1 < m2 {
      DaysBeforeMonthGrows(y, m1 + 1, m2);
    }
  }

  /** For an in-range month the constructor is the plain sum of its parts. */
  lemma DayOfInRange(y: int, m: int, d: int)
    requires 1 <= m <= 12
    ensures DayOf(y, m, d) == DaysBeforeYear(y) + DaysBeforeMonth(y, m) + d - 1
  {
    assert (m - 1) / 12 == 0 && (m - 1) % 12 == m - 1;
  }

  /** A valid date lies inside its year. */
  lemma DateInYear(c: CivilDate)
    requires IsValidCivil(c)
    ensures DaysBeforeYear(c.year) <= DayOfDate(c) < DaysBeforeYear(c.year + 1)
    ensures DayOfDate(c) == DaysBeforeYear(c.year) + DaysBeforeMonth(c.year, c.month) + c.day - 1
  {
    DayOfInRange(c.year, c.month, c.day);
    YearStep(c.year);
    MonthStep(c.year, c.month);
    if c.month < 12 {
      DaysBeforeMonthGrows(c.year, c.month, 12);
      MonthStep(c.year, 12);
    }
  }

  lemma DayOfAcrossYears(a: CivilDate, b: CivilDate)
    requires IsValidCivil(a) && IsValidCivil(b)
    requires a.year < b.year
    ensures DayOfDate(a) < DayOfDate(b)
  {
    DateInYear(a);
    DateInYear(b);
    DaysBeforeYearGrows(a.year + 1, b.year);
  }

  lemma DayOfWithinYear(a: CivilDate, b: CivilDate)
    requires IsValidCivil(a) && IsValidCivil(b)
    requires a.year == b.year && a.month < b.month
    ensures DayOfDate(a) < DayOfDate(b)
  {
    DateInYear(a);
    DateInYear(b);
    DaysBeforeMonthGrows(a.year, a.month, b.month);
  }

  /** The day numbering is strictly increasing in the order of valid dates. */
  lemma DayOfMonotone(a: CivilDate, b: CivilDate)
    requires IsValidCivil(a) && IsValidCivil(b)
    requires DateLess(a, b)
    ensures DayOfDate(a) < DayOfDate(b)
  {
    if a.year < b.year {
      DayOfAcrossYears(a, b);
    } else if a.month < b.month {
      DayOfWithinYear(a, b);
    } else {
      DayOfInRange(a.year, a.month, a.day);
      DayOfInRange(b.year, b.month, b.day);
    }
  }

  /** Distinct valid dates have distinct day numbers. */
  lemma DayOfInjective(a: CivilDate, b: CivilDate)
    requires IsValidCivil(a) && IsValidCivil(b)
    requires DayOfDate(a) == DayOfDate(b)
    ensures a == b
  {
    if DateLess(a, b) {
      DayOfMonotone(a, b);
    } else if DateLess(b, a) {
      DayOfMonotone(b, a);
    }
  }

  // ---------------------------------------------------------------------
  // From a day number back to its date

  function YearSearch(n: Day, y: int, bound: int): (r: int)
    requires y < bound
    requires DaysBeforeYear(y) <= n < DaysBeforeYear(bound)
    ensures y <= r < bound
    ensures DaysBeforeYear(r) <= n < DaysBeforeYear(r + 1)
    decreases bound - y
  {
    if n < DaysBeforeYear(y + 1) then y
    else YearSearch(n, y + 1, bound)
  }

  /** The year whose days include day n. */
  function YearOfDay(n: Day): (y: int)
    ensures DaysBeforeYear(y) <= n < DaysBeforeYear(y + 1)
  {
    var q := n / 146097;
    Cycle(q);
    YearSearch(n, 1970 + 400 * q, 1970 + 400 * q + 400)
  }

  function MonthSearch(y: int, r: int, m: int): (res: int)
    requires 1 <= m <= 12
    requires DaysBeforeMonth(y, m) <= r < YearLength(y)
    ensures m <= res <= 12
    ensures DaysBeforeMonth(y, res) <= r < DaysBeforeMonth(y, res) + DaysInMonth(y, res)
    decreases 12 - m
  {
    MonthStep(y, m);
    if m == 12 || r < DaysBeforeMonth(y, m + 1) then m
    else MonthSearch(y, r, m + 1)
  }

  /** The civil date of day n (cctz's field accessors of a civil_day). */
  function FromDay(n: Day): (c: CivilDate)
    ensures IsValidCivil(c)
    ensures DayOfDate(c) == n
  {
    var y := YearOfDay(n);
    YearStep(y);
    var r := n - DaysBeforeYear(y);
    var m := MonthSearch(y, r, 1);
    var c := CivilDate(y, m, r - DaysBeforeMonth(y, m) + 1);
    DayOfInRange(y, m, c.day);
    c
  }

  /** FromDay and DayOfDate are inverse on valid dates. */
  lemma FromDayOfValid(c: CivilDate)
    requires IsValidCivil(c)
    ensures FromDay(DayOfDate(c)) == c
  {
    DayOfInjective(FromDay(DayOfDate(c)), c);
  }

  // ---------------------------------------------------------------------
  // Instants and local time

  /** The local civil day of instant t in zone tz. */
  function LocalDayOf(t: Instant, tz: TimeZone): (d: Day)
    ensures LocalMidnight(d, tz) <= t < LocalMidnight(d + 1, tz)
  {
    (t + tz.utcOffset) / SecondsPerDay
  }

  /** The instant at which local day d begins in zone tz
      (`cctz::convert(civil_day, tz)`). */
  function LocalMidnight(d: Day, tz: TimeZone): Instant {
    d * SecondsPerDay - tz.utcOffset
  }

  /** Seconds since local midnight of the local day of t. */
  function LocalSecondOfDay(t: Instant, tz: TimeZone): (s: int)
    ensures 0 <= s < SecondsPerDay
    ensures t == LocalMidnight(LocalDayOf(t, tz), tz) + s
  {
    (t + tz.utcOffset) % SecondsPerDay
  }

  lemma {:induction false} LocalMidnightMonotone(d1: Day, d2: Day, tz: TimeZone)
    requires d1 <= d2
    ensures LocalMidnight(d1, tz) + (d2 - d1) * SecondsPerDay == LocalMidnight(d2, tz)
  {
  }
}
