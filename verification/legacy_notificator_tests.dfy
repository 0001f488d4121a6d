/** The scenarios of src/birthday_notificator_test.cpp: the same tables as
    the per-user scenarios, judged by the single-recipient matcher. Each one
    follows from its per-user counterpart, because every row of these tables
    has one owner. */
module LegacyNotificatorTests {
  import opened Wrappers
  import opened Calendar
  import opened BirthdayModel
  import opened Matching
  import opened LegacyNotificator
  import Notificator
  import NotificatorTests

  /** A per-user report holding only u's entry `b` is the single-recipient
      result `b`. */
  lemma FromSingleOwnerReport(rows: seq<Birthday>, tz: TimeZone, localDay: Day, u: UserId, b: BirthdaysToNotify)
    requires OwnedByOne(rows, u)
    requires b != NothingToNotify
    requires Notificator.FindSpec(rows, tz, localDay) == map[u := b]
    ensures Collect(rows, tz, localDay) == b
  {
    SingleOwnerReport(rows, tz, localDay, u);
    var report := Notificator.FindSpec(rows, tz, localDay);
    assert u in report && report[u] == b;
    assert report == map[u := Collect(rows, tz, localDay)];
  }

  lemma BasicRowsOwned(s1: Instant, s3: Instant, s4: Instant, s5: Instant)
    ensures OwnedByOne(NotificatorTests.BasicRows(s1, s3, s4, s5, 1, 1), 1)
  {
  }

  lemma MonthRowsOwned(s1: Instant, s2: Instant, s3: Instant)
    ensures OwnedByOne(NotificatorTests.MonthRows(s1, s2, s3), 1)
  {
  }

  lemma YearRowsOwned(s1: Instant, s2: Instant, s3: Instant, s4: Instant)
    ensures OwnedByOne(NotificatorTests.YearRows(s1, s2, s3, s4), 1)
  {
  }

  lemma ZoneRowsOwned(s1: Instant, s2: Instant)
    ensures OwnedByOne(NotificatorTests.ZoneRows(s1, s2), 1)
  {
  }

  /** BasicChecks on 16 February of any year, in any fixed-offset zone. */
  lemma LegacyBasicChecks(y: int, tz: TimeZone)
    ensures var rows := NotificatorTests.BasicRows(
                          NotificatorTests.At(y - 1, 2, 16, 15, 0, tz), NotificatorTests.At(y, 2, 16, 15, 0, tz),
                          NotificatorTests.At(y - 1, 2, 15, 15, 0, tz), NotificatorTests.At(y - 1, 2, 12, 15, 0, tz), 1, 1);
            Collect(rows, tz, LocalDayOf(NotificatorTests.At(y, 2, 16, 20, 30, tz), tz)) ==
            BirthdaysToNotify([1, 2, 4], ["person1", "person2"], ["person4 on 15.02"])
  {
    var rows := NotificatorTests.BasicRows(
                  NotificatorTests.At(y - 1, 2, 16, 15, 0, tz), NotificatorTests.At(y, 2, 16, 15, 0, tz),
                  NotificatorTests.At(y - 1, 2, 15, 15, 0, tz), NotificatorTests.At(y - 1, 2, 12, 15, 0, tz), 1, 1);
    BasicRowsOwned(NotificatorTests.At(y - 1, 2, 16, 15, 0, tz), NotificatorTests.At(y, 2, 16, 15, 0, tz),
                   NotificatorTests.At(y - 1, 2, 15, 15, 0, tz), NotificatorTests.At(y - 1, 2, 12, 15, 0, tz));
    NotificatorTests.BasicChecks(y, tz);
    FromSingleOwnerReport(rows, tz, LocalDayOf(NotificatorTests.At(y, 2, 16, 20, 30, tz), tz), 1,
                          BirthdaysToNotify([1, 2, 4], ["person1", "person2"], ["person4 on 15.02"]));
  }

  /** MonthBorder on 1 February of any year. */
  lemma LegacyMonthBorder(y: int, tz: TimeZone)
    ensures var rows := NotificatorTests.MonthRows(
                          NotificatorTests.At(y - 1, 2, 1, 15, 0, tz), NotificatorTests.At(y - 1, 1, 31, 15, 0, tz),
                          NotificatorTests.At(y - 1, 1, 28, 15, 0, tz));
            Collect(rows, tz, LocalDayOf(NotificatorTests.At(y, 2, 1, 20, 30, tz), tz)) ==
            BirthdaysToNotify([1, 2], ["person1"], ["person2 on 31.01"])
  {
    var rows := NotificatorTests.MonthRows(
                  NotificatorTests.At(y - 1, 2, 1, 15, 0, tz), NotificatorTests.At(y - 1, 1, 31, 15, 0, tz),
                  NotificatorTests.At(y - 1, 1, 28, 15, 0, tz));
    MonthRowsOwned(NotificatorTests.At(y - 1, 2, 1, 15, 0, tz), NotificatorTests.At(y - 1, 1, 31, 15, 0, tz),
                   NotificatorTests.At(y - 1, 1, 28, 15, 0, tz));
    NotificatorTests.MonthBorder(y, tz);
    FromSingleOwnerReport(rows, tz, LocalDayOf(NotificatorTests.At(y, 2, 1, 20, 30, tz), tz), 1,
                          BirthdaysToNotify([1, 2], ["person1"], ["person2 on 31.01"]));
  }

  /** YearBorder on 1 January of any year. */
  lemma LegacyYearBorder(y: int, tz: TimeZone)
    ensures var rows := NotificatorTests.YearRows(
                          NotificatorTests.At(y - 1, 1, 1, 15, 0, tz), NotificatorTests.At(y - 2, 12, 31, 15, 0, tz),
                          NotificatorTests.At(y - 2, 12, 28, 15, 0, tz), NotificatorTests.At(y - 1, 12, 31, 15, 0, tz));
            Collect(rows, tz, LocalDayOf(NotificatorTests.At(y, 1, 1, 20, 30, tz), tz)) ==
            BirthdaysToNotify([1, 2], ["person1"], ["person2 on 31.12"])
  {
    var rows := NotificatorTests.YearRows(
                  NotificatorTests.At(y - 1, 1, 1, 15, 0, tz), NotificatorTests.At(y - 2, 12, 31, 15, 0, tz),
                  NotificatorTests.At(y - 2, 12, 28, 15, 0, tz), NotificatorTests.At(y - 1, 12, 31, 15, 0, tz));
    YearRowsOwned(NotificatorTests.At(y - 1, 1, 1, 15, 0, tz), NotificatorTests.At(y - 2, 12, 31, 15, 0, tz),
                  NotificatorTests.At(y - 2, 12, 28, 15, 0, tz), NotificatorTests.At(y - 1, 12, 31, 15, 0, tz));
    NotificatorTests.YearBorder(y, tz);
    FromSingleOwnerReport(rows, tz, LocalDayOf(NotificatorTests.At(y, 1, 1, 20, 30, tz), tz), 1,
                          BirthdaysToNotify([1, 2], ["person1"], ["person2 on 31.12"]));
  }

  /** TimezoneApplication: Moscow stamps judged in Vladivostok. */
  lemma LegacyTimezoneApplication(y: int)
    ensures var rows := NotificatorTests.ZoneRows(
                          NotificatorTests.At(y - 1, 1, 1, 15, 0, NotificatorTests.Moscow),
                          NotificatorTests.At(y - 1, 1, 2, 15, 0, NotificatorTests.Moscow));
            Collect(rows, NotificatorTests.Vladivostok,
                    LocalDayOf(NotificatorTests.At(y, 1, 1, 20, 30, NotificatorTests.Moscow), NotificatorTests.Vladivostok)) ==
            BirthdaysToNotify([1, 2], ["person2"], ["person1 on 01.01"])
  {
    var rows := NotificatorTests.ZoneRows(
                  NotificatorTests.At(y - 1, 1, 1, 15, 0, NotificatorTests.Moscow),
                  NotificatorTests.At(y - 1, 1, 2, 15, 0, NotificatorTests.Moscow));
    ZoneRowsOwned(NotificatorTests.At(y - 1, 1, 1, 15, 0, NotificatorTests.Moscow),
                  NotificatorTests.At(y - 1, 1, 2, 15, 0, NotificatorTests.Moscow));
    NotificatorTests.TimezoneApplication(y);
    FromSingleOwnerReport(rows, NotificatorTests.Vladivostok,
                          LocalDayOf(NotificatorTests.At(y, 1, 1, 20, 30, NotificatorTests.Moscow), NotificatorTests.Vladivostok), 1,
                          BirthdaysToNotify([1, 2], ["person2"], ["person1 on 01.01"]));
  }
}
