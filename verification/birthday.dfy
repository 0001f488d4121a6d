/** The stored birthday record and the calendar-validity check applied when a
    birthday is added (src/models/birthday.hpp, src/models/birthday.cpp). */
module BirthdayModel {
  import opened Wrappers
  import opened Calendar

  /** Strong identifier types: distinct nominal types over the database's
      integer widths. */
  newtype BirthdayId = x: int | -0x8000_0000 <= x < 0x8000_0000
  newtype UserId = x: int | -0x8000_0000 <= x < 0x8000_0000
  newtype ChatId = x: int | -0x8000_0000_0000_0000 <= x < 0x8000_0000_0000_0000

  /** One row of the birthdays table. `userId` is the owning user; the
      notificator groups its results by it. */
  datatype Birthday = Birthday(
    id: BirthdayId,
    person: string,
    year: Option<int>,
    month: int,
    day: int,
    notificationEnabled: bool,
    lastNotificationTime: Option<Instant>,
    userId: UserId)

  /** `std::chrono::year::ok()`. */
  predicate YearInRange(y: int) {
    -32767 <= y <= 32767
  }

  /** Days in month m when no year is known: February counts 29 days, as in
      `std::chrono::month_day::ok()`. */
  function MaxDayWithoutYear(m: int): (n: int)
    requires 1 <= m <= 12
    ensures n == DaysInMonth(2000, m)
  {
    if m == 2 then 29 else DaysInMonth(2001, m)
  }

  /** `IsValidDate(y, m, d)`: negative fields are rejected first; otherwise a
      full date must satisfy `year_month_day::ok()` and a month and day alone
      `month_day::ok()`. */
  function IsValidDate(y: Option<int>, m: int, d: int): (ok: bool)
    ensures m < 0 || d < 0 ==> !ok
    ensures ok ==> 1 <= m <= 12 && 1 <= d <= 31
    ensures ok && y.Some? ==> YearInRange(y.value)
  {
    if m < 0 || d < 0 then false
    else if y.Some? then
      YearInRange(y.value) && 1 <= m <= 12 && 1 <= d <= DaysInMonth(y.value, m)
    else
      1 <= m <= 12 && 1 <= d <= MaxDayWithoutYear(m)
  }

  // ---------------------------------------------------------------------

  /** With a year, a date is valid exactly when the year is in range and the
      civil-day constructor leaves the date where it is (no day or month
      carries over). */
  lemma ValidWithYearIffNormalised(y: int, m: int, d: int)
    ensures IsValidDate(Some(y), m, d) <==>
            YearInRange(y) && FromDay(DayOf(y, m, d)) == CivilDate(y, m, d)
  {
    if IsValidDate(Some(y), m, d) {
      FromDayOfValid(CivilDate(y, m, d));
    }
  }

  /** Without a year, a month and day are valid exactly when they exist in a
      leap year. */
  lemma ValidWithoutYearIffInLeapYear(m: int, d: int)
    ensures IsValidDate(None, m, d) <==> IsValidDate(Some(2000), m, d)
  {
  }

  /** For years in range, supplying the year changes the verdict only for
      29 February of a common year. */
  lemma YearMattersOnlyForLeapDay(y: int, m: int, d: int)
    requires YearInRange(y)
    ensures IsValidDate(Some(y), m, d) != IsValidDate(None, m, d) <==>
            m == 2 && d == 29 && !IsLeapYear(y)
  {
  }

  /** A date valid with its year is valid as a month and day alone. */
  lemma ValidDateHasValidMonthDay(y: Option<int>, m: int, d: int)
    requires IsValidDate(y, m, d)
    ensures IsValidDate(None, m, d)
  {
  }
}
