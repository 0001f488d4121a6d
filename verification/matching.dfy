/** The per-row rule of `impl::FindBirthdaysToNotify`, which both notificator
    versions apply to every stored birthday: skip disabled rows, find the most
    recent occurrence of the birthday, skip occurrences older than three days,
    skip rows already stamped after local midnight of the occurrence, and file
    the rest as "celebrate today" or as a forgotten "person on DD.MM" entry. */
module Matching {
  import opened Wrappers
  import opened Calendar
  import opened Format
  import opened BirthdayModel

  /** `kForgottenBirthdaySearchDistance`. */
  const ForgottenSearchDistance: int := 3

  /** `std::tuple(m1, d1) <= std::tuple(m2, d2)`. */
  predicate MonthDayLe(m1: int, d1: int, m2: int, d2: int) {
    m1 < m2 || (m1 == m2 && d1 <= d2)
  }

  /** This year if (m, d) is not later than today's month and day, else last year. */
  function OccurrenceYear(m: int, d: int, localDay: Day): int {
    var today := FromDay(localDay);
    today.year - (if MonthDayLe(m, d, today.month, today.day) then 0 else 1)
  }

  /** The most recent occurrence of the birthday (m, d), built with the
      normalising civil-day constructor. */
  function Occurrence(m: int, d: int, localDay: Day): Day {
    DayOf(OccurrenceYear(m, d, localDay), m, d)
  }

  datatype Verdict = Disabled | TooOld | AlreadyNotified | CelebrateToday | Forgotten {
    predicate IsReported() {
      this == CelebrateToday || this == Forgotten
    }
  }

  /** What the matcher does with one row, in the order the source tests it. */
  function Judge(enabled: bool, m: int, d: int, last: Option<Instant>, tz: TimeZone, localDay: Day): Verdict {
    if !enabled then Disabled
    else
      var birthday := Occurrence(m, d, localDay);
      if birthday < localDay - ForgottenSearchDistance then TooOld
      else if last.Some? && last.value > LocalMidnight(birthday, tz) then AlreadyNotified
      else if birthday == localDay then CelebrateToday
      else Forgotten
  }

  function JudgeRow(row: Birthday, tz: TimeZone, localDay: Day): Verdict {
    Judge(row.notificationEnabled, row.month, row.day, row.lastNotificationTime, tz, localDay)
  }

  /** `BirthdaysToNotify`: ids to stamp, names to celebrate, forgotten entries. */
  datatype BirthdaysToNotify = BirthdaysToNotify(
    ids: seq<BirthdayId>,
    celebrateToday: seq<string>,
    forgotten: seq<string>)

  const NothingToNotify := BirthdaysToNotify([], [], [])

  /** The `push_back`s for one row with verdict v; `entry` is the row's
      "person on DD.MM" text. */
  function Push(acc: BirthdaysToNotify, id: BirthdayId, person: string, entry: string, v: Verdict): BirthdaysToNotify {
    match v
    case CelebrateToday =>
      acc.(ids := acc.ids + [id], celebrateToday := acc.celebrateToday + [person])
    case Forgotten =>
      acc.(ids := acc.ids + [id], forgotten := acc.forgotten + [entry])
    case _ => acc
  }

  /** The "person on DD.MM" text of each row. */
  function Entries(rows: seq<Birthday>): (es: seq<string>)
    ensures |es| == |rows|
    ensures forall i :: 0 <= i < |rows| ==> es[i] == OnDate(rows[i].person, rows[i].day, rows[i].month)
  {
    seq(|rows|, i requires 0 <= i < |rows| => OnDate(rows[i].person, rows[i].day, rows[i].month))
  }

  /** The matcher's loop over the first k rows into one `BirthdaysToNotify`,
      in row order, given the verdict and the entry text of each row. */
  function CollectPrefix(rows: seq<Birthday>, vs: seq<Verdict>, es: seq<string>, k: nat): BirthdaysToNotify
    requires |vs| == |rows| && |es| == |rows| && k <= |rows|
  {
    if k == 0 then NothingToNotify
    else Push(CollectPrefix(rows, vs, es, k - 1), rows[k - 1].id, rows[k - 1].person, es[k - 1], vs[k - 1])
  }

  /** The verdict on each row. */
  function Verdicts(rows: seq<Birthday>, tz: TimeZone, localDay: Day): (vs: seq<Verdict>)
    ensures |vs| == |rows|
    ensures forall i :: 0 <= i < |rows| ==> vs[i] == JudgeRow(rows[i], tz, localDay)
  {
    seq(|rows|, i requires 0 <= i < |rows| => JudgeRow(rows[i], tz, localDay))
  }

  /** The matcher's loop over rows into one `BirthdaysToNotify`, in row order. */
  function Collect(rows: seq<Birthday>, tz: TimeZone, localDay: Day): BirthdaysToNotify {
    CollectPrefix(rows, Verdicts(rows, tz, localDay), Entries(rows), |rows|)
  }

  predicate AnyReported(rows: seq<Birthday>, tz: TimeZone, localDay: Day) {
    exists i :: 0 <= i < |rows| && JudgeRow(rows[i], tz, localDay).IsReported()
  }

  /** 29 February, whose occurrence in a common year is 1 March. */
  predicate IsLeapDayOnMarchFirst(m: int, d: int, localDay: Day) {
    var today := FromDay(localDay);
    m == 2 && d == 29 && today.month == 3 && today.day == 1 && !IsLeapYear(today.year)
  }

  // ---------------------------------------------------------------------

  /** The date `DayOf(y, m, d)` lands on: 29 February of a common year rolls
      over to 1 March, any other valid month and day stays as it is. */
  function Normalised(y: int, m: int, d: int): CivilDate {
    if m == 2 && d == 29 && !IsLeapYear(y) then CivilDate(y, 3, 1) else CivilDate(y, m, d)
  }

  lemma NormalisedValid(y: int, m: int, d: int)
    requires IsValidDate(None, m, d)
    ensures IsValidCivil(Normalised(y, m, d)) && Normalised(y, m, d).year == y
    ensures DayOf(y, m, d) == DayOfDate(Normalised(y, m, d))
  {
    if m == 2 && d == 29 && !IsLeapYear(y) {
      DayOfInRange(y, 2, 29);
      DayOfInRange(y, 3, 1);
      MonthStep(y, 2);
    }
  }

  /** A stored (month, day) that passed `IsValidDate` recurs within the year. */
  lemma OccurrenceInYear(m: int, d: int, y: int)
    requires IsValidDate(None, m, d)
    ensures DaysBeforeYear(y) <= DayOf(y, m, d) < DaysBeforeYear(y + 1)
    ensures m == 2 && d == 29 && !IsLeapYear(y) ==> DayOf(y, m, d) == DayOf(y, 3, 1)
  {
    NormalisedValid(y, m, d);
    DateInYear(Normalised(y, m, d));
  }

  /** The most recent occurrence is never after today. */
  lemma OccurrenceNotAfter(m: int, d: int, localDay: Day)
    requires IsValidDate(None, m, d)
    ensures Occurrence(m, d, localDay) <= localDay
  {
    var t := FromDay(localDay);
    var y := OccurrenceYear(m, d, localDay);
    var c := Normalised(y, m, d);
    NormalisedValid(y, m, d);
    assert Occurrence(m, d, localDay) == DayOfDate(c);
    if y == t.year {
      assert MonthDayLe(m, d, t.month, t.day);
      assert !DateLess(t, c);
    }
    if c != t {
      assert DateLess(c, t);
      DayOfMonotone(c, t);
    }
  }

  /** The occurrence is today exactly when (m, d) is today's month and day, or
      when it is 29 February and today is 1 March of a common year. */
  lemma OccurrenceIsTodayIff(m: int, d: int, localDay: Day)
    requires IsValidDate(None, m, d)
    ensures Occurrence(m, d, localDay) == localDay <==>
            (m == FromDay(localDay).month && d == FromDay(localDay).day) ||
            IsLeapDayOnMarchFirst(m, d, localDay)
  {
    var t := FromDay(localDay);
    var y := OccurrenceYear(m, d, localDay);
    var c := Normalised(y, m, d);
    NormalisedValid(y, m, d);
    assert Occurrence(m, d, localDay) == DayOfDate(c);
    if (m == t.month && d == t.day) || IsLeapDayOnMarchFirst(m, d, localDay) {
      assert y == t.year;
      assert c == t;
    }
    if Occurrence(m, d, localDay) == localDay {
      if y != t.year {
        DateInYear(c);
        DateInYear(t);
      }
      DayOfInjective(c, t);
    }
  }

  /** A reported row's occurrence lies in the window [today - 3, today]. */
  lemma ReportedInWindow(row: Birthday, tz: TimeZone, localDay: Day)
    requires IsValidDate(None, row.month, row.day)
    requires JudgeRow(row, tz, localDay).IsReported()
    ensures localDay - ForgottenSearchDistance <= Occurrence(row.month, row.day, localDay) <= localDay
  {
    OccurrenceNotAfter(row.month, row.day, localDay);
  }

  /** Celebrated today exactly when enabled, the birthday falls on today and
      the row was not stamped after today's local midnight. */
  lemma CelebrateTodayIff(row: Birthday, tz: TimeZone, localDay: Day)
    requires IsValidDate(None, row.month, row.day)
    ensures JudgeRow(row, tz, localDay) == CelebrateToday <==>
            && row.notificationEnabled
            && ((row.month == FromDay(localDay).month && row.day == FromDay(localDay).day) ||
                IsLeapDayOnMarchFirst(row.month, row.day, localDay))
            && (row.lastNotificationTime.None? || row.lastNotificationTime.value <= LocalMidnight(localDay, tz))
  {
    OccurrenceIsTodayIff(row.month, row.day, localDay);
  }

  /** Filed as forgotten exactly when enabled, the occurrence is one to three
      days back and the row was not stamped after that day's local midnight. */
  lemma ForgottenIff(row: Birthday, tz: TimeZone, localDay: Day)
    requires IsValidDate(None, row.month, row.day)
    ensures JudgeRow(row, tz, localDay) == Forgotten <==>
            var b := Occurrence(row.month, row.day, localDay);
            && row.notificationEnabled
            && localDay - ForgottenSearchDistance <= b < localDay
            && (row.lastNotificationTime.None? || row.lastNotificationTime.value <= LocalMidnight(b, tz))
  {
    OccurrenceNotAfter(row.month, row.day, localDay);
  }

  /** A row stamped at an instant after today's local midnight is not
      reported again on the same local day. */
  lemma StampedRowNotReported(row: Birthday, tz: TimeZone, localDay: Day)
    requires IsValidDate(None, row.month, row.day)
    requires row.lastNotificationTime.Some?
    requires row.lastNotificationTime.value > LocalMidnight(localDay, tz)
    ensures !JudgeRow(row, tz, localDay).IsReported()
  {
    var b := Occurrence(row.month, row.day, localDay);
    OccurrenceNotAfter(row.month, row.day, localDay);
    LocalMidnightMonotone(b, localDay, tz);
  }

  /** The strict comparison: a row stamped exactly at local midnight of the
      occurrence day still counts as not yet notified. */
  lemma StampAtMidnightStillReported(row: Birthday, tz: TimeZone, localDay: Day)
    requires IsValidDate(None, row.month, row.day)
    requires row.notificationEnabled
    requires row.month == FromDay(localDay).month && row.day == FromDay(localDay).day
    requires row.lastNotificationTime == Some(LocalMidnight(localDay, tz))
    ensures JudgeRow(row, tz, localDay) == CelebrateToday
  {
    OccurrenceIsTodayIff(row.month, row.day, localDay);
  }

  /** What the k-th row adds to each list. */
  lemma PrefixStep(rows: seq<Birthday>, vs: seq<Verdict>, es: seq<string>, k: nat)
    requires |vs| == |rows| && |es| == |rows| && 0 < k <= |rows|
    ensures var prev, r := CollectPrefix(rows, vs, es, k - 1), CollectPrefix(rows, vs, es, k);
            && r.ids == (if vs[k - 1].IsReported() then prev.ids + [rows[k - 1].id] else prev.ids)
            && r.celebrateToday == (if vs[k - 1] == CelebrateToday then prev.celebrateToday + [rows[k - 1].person]
                                    else prev.celebrateToday)
            && r.forgotten == (if vs[k - 1] == Forgotten then prev.forgotten + [es[k - 1]] else prev.forgotten)
  {
  }

  /** Only the first k rows, verdicts and entries matter. */
  lemma {:induction false} PrefixOfLonger(rows: seq<Birthday>, vs: seq<Verdict>, es: seq<string>,
                                          rows': seq<Birthday>, vs': seq<Verdict>, es': seq<string>, k: nat)
    requires |vs| == |rows| && |es| == |rows| && k <= |rows|
    requires |vs'| == |rows'| && |es'| == |rows'| && k <= |rows'|
    requires forall i :: 0 <= i < k ==> rows[i] == rows'[i] && vs[i] == vs'[i] && es[i] == es'[i]
    ensures CollectPrefix(rows, vs, es, k) == CollectPrefix(rows', vs', es', k)
  {
    if k > 0 {
      PrefixOfLonger(rows, vs, es, rows', vs', es', k - 1);
    }
  }

  /** The loop handles rows one at a time: one more row pushes its verdict
      onto what the earlier rows collected. */
  lemma CollectSnoc(rows: seq<Birthday>, row: Birthday, tz: TimeZone, localDay: Day)
    ensures Collect(rows + [row], tz, localDay) ==
            Push(Collect(rows, tz, localDay), row.id, row.person, OnDate(row.person, row.day, row.month),
                 JudgeRow(row, tz, localDay))
  {
    var all := rows + [row];
    PrefixOfLonger(rows, Verdicts(rows, tz, localDay), Entries(rows),
                   all, Verdicts(all, tz, localDay), Entries(all), |rows|);
    assert all[|rows|] == row;
  }

  lemma {:induction false} PrefixCounts(rows: seq<Birthday>, vs: seq<Verdict>, es: seq<string>, k: nat)
    requires |vs| == |rows| && |es| == |rows| && k <= |rows|
    ensures var r := CollectPrefix(rows, vs, es, k);
            |r.ids| == |r.celebrateToday| + |r.forgotten|
  {
    if k > 0 {
      PrefixCounts(rows, vs, es, k - 1);
      PrefixStep(rows, vs, es, k);
    }
  }

  lemma {:induction false} PrefixIds(rows: seq<Birthday>, vs: seq<Verdict>, es: seq<string>, k: nat)
    requires |vs| == |rows| && |es| == |rows| && k <= |rows|
    ensures forall id :: id in CollectPrefix(rows, vs, es, k).ids <==>
              exists i :: 0 <= i < k && rows[i].id == id && vs[i].IsReported()
  {
    if k > 0 {
      PrefixIds(rows, vs, es, k - 1);
      PrefixStep(rows, vs, es, k);
    }
  }

  lemma {:induction false} PrefixCelebrated(rows: seq<Birthday>, vs: seq<Verdict>, es: seq<string>, k: nat)
    requires |vs| == |rows| && |es| == |rows| && k <= |rows|
    ensures forall p :: p in CollectPrefix(rows, vs, es, k).celebrateToday <==>
              exists i :: 0 <= i < k && rows[i].person == p && vs[i] == CelebrateToday
  {
    if k > 0 {
      PrefixCelebrated(rows, vs, es, k - 1);
      PrefixStep(rows, vs, es, k);
    }
  }

  lemma {:induction false} PrefixForgotten(rows: seq<Birthday>, vs: seq<Verdict>, es: seq<string>, k: nat)
    requires |vs| == |rows| && |es| == |rows| && k <= |rows|
    ensures forall e :: e in CollectPrefix(rows, vs, es, k).forgotten <==>
              exists i :: 0 <= i < k && es[i] == e && vs[i] == Forgotten
  {
    if k > 0 {
      PrefixForgotten(rows, vs, es, k - 1);
      PrefixStep(rows, vs, es, k);
    }
  }

  /** One id per reported row: as many ids as names and entries together. */
  lemma CollectCounts(rows: seq<Birthday>, tz: TimeZone, localDay: Day)
    ensures var r := Collect(rows, tz, localDay);
            |r.ids| == |r.celebrateToday| + |r.forgotten|
  {
    PrefixCounts(rows, Verdicts(rows, tz, localDay), Entries(rows), |rows|);
  }

  /** The collected ids are exactly the ids of the reported rows. */
  lemma CollectIds(rows: seq<Birthday>, tz: TimeZone, localDay: Day)
    ensures forall id :: id in Collect(rows, tz, localDay).ids <==>
              exists i :: 0 <= i < |rows| && rows[i].id == id && JudgeRow(rows[i], tz, localDay).IsReported()
  {
    PrefixIds(rows, Verdicts(rows, tz, localDay), Entries(rows), |rows|);
  }

  /** A reported row's id is collected. */
  lemma CollectHasRow(rows: seq<Birthday>, tz: TimeZone, localDay: Day, x: Birthday)
    requires x in rows && JudgeRow(x, tz, localDay).IsReported()
    ensures x.id in Collect(rows, tz, localDay).ids
  {
    CollectIds(rows, tz, localDay);
    var i :| 0 <= i < |rows| && rows[i] == x;
  }

  /** The names to celebrate are exactly the names of the rows celebrated today. */
  lemma CollectCelebrated(rows: seq<Birthday>, tz: TimeZone, localDay: Day)
    ensures forall p :: p in Collect(rows, tz, localDay).celebrateToday <==>
              exists i :: 0 <= i < |rows| && rows[i].person == p && JudgeRow(rows[i], tz, localDay) == CelebrateToday
  {
    PrefixCelebrated(rows, Verdicts(rows, tz, localDay), Entries(rows), |rows|);
  }

  /** The forgotten entries are exactly the "person on DD.MM" entries of the
      rows filed as forgotten. */
  lemma CollectForgotten(rows: seq<Birthday>, tz: TimeZone, localDay: Day)
    ensures forall e :: e in Collect(rows, tz, localDay).forgotten <==>
              exists i :: 0 <= i < |rows| && OnDate(rows[i].person, rows[i].day, rows[i].month) == e &&
                          JudgeRow(rows[i], tz, localDay) == Forgotten
  {
    var vs := Verdicts(rows, tz, localDay);
    var es := Entries(rows);
    PrefixForgotten(rows, vs, es, |rows|);
    forall e ensures (e in Collect(rows, tz, localDay).forgotten) ==
                     exists i :: 0 <= i < |rows| && OnDate(rows[i].person, rows[i].day, rows[i].month) == e &&
                                 JudgeRow(rows[i], tz, localDay) == Forgotten
    {
      if e in Collect(rows, tz, localDay).forgotten {
        var i :| 0 <= i < |rows| && es[i] == e && vs[i] == Forgotten;
        assert OnDate(rows[i].person, rows[i].day, rows[i].month) == e && JudgeRow(rows[i], tz, localDay) == Forgotten;
      }
      if exists i :: 0 <= i < |rows| && OnDate(rows[i].person, rows[i].day, rows[i].month) == e &&
                     JudgeRow(rows[i], tz, localDay) == Forgotten {
        var i :| 0 <= i < |rows| && OnDate(rows[i].person, rows[i].day, rows[i].month) == e &&
                 JudgeRow(rows[i], tz, localDay) == Forgotten;
        assert es[i] == e && vs[i] == Forgotten;
      }
    }
  }

  /** Nothing is collected exactly when no row is reported. */
  lemma CollectEmptyIff(rows: seq<Birthday>, tz: TimeZone, localDay: Day)
    ensures Collect(rows, tz, localDay) == NothingToNotify <==> !AnyReported(rows, tz, localDay)
  {
    CollectIds(rows, tz, localDay);
    CollectCounts(rows, tz, localDay);
    var r := Collect(rows, tz, localDay);
    if AnyReported(rows, tz, localDay) {
      var i :| 0 <= i < |rows| && JudgeRow(rows[i], tz, localDay).IsReported();
      assert rows[i].id in r.ids;
    }
    if |r.ids| > 0 {
      assert r.ids[0] in r.ids;
    }
  }

  /** Disabled rows are never reported. */
  lemma DisabledNeverReported(row: Birthday, tz: TimeZone, localDay: Day)
    requires !row.notificationEnabled
    ensures !JudgeRow(row, tz, localDay).IsReported()
  {
  }
}
