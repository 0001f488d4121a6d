/** The scenarios of src/components/birthday_notificator_test.cpp, stated as
    facts about the model of the per-user matcher. Instants are written as
    a local date and time in the zone of the scenario; Moscow is UTC+3 and
    Vladivostok UTC+10 all year round since 2014. */
module NotificatorTests {
  import opened Wrappers
  import opened Calendar
  import opened Format
  import opened BirthdayModel
  import opened Matching
  import opened Notificator

  const Moscow := FixedOffset(3 * 3600)
  const Vladivostok := FixedOffset(10 * 3600)

  /** The instant of local time y-m-d h:min in zone tz. */
  function At(y: int, m: int, d: int, h: int, min: int, tz: TimeZone): Instant {
    LocalMidnight(DayOf(y, m, d), tz) + h * 3600 + min * 60
  }

  /** A row without a birth year. */
  function Row(id: BirthdayId, person: string, m: int, d: int, enabled: bool, last: Option<Instant>, user: UserId): Birthday {
    Birthday(id, person, None, m, d, enabled, last, user)
  }

  /** A stamp taken at least two days before day b, in a zone at most a day
      west of tz, is before local midnight of b in tz. */
  lemma StampBefore(a: CivilDate, h: int, min: int, stz: TimeZone, b: Day, tz: TimeZone)
    requires DayOfDate(a) + 2 <= b
    requires 0 <= h * 3600 + min * 60 < SecondsPerDay
    requires tz.utcOffset - stz.utcOffset < SecondsPerDay
    ensures At(a.year, a.month, a.day, h, min, stz) < LocalMidnight(b, tz)
  {
    LocalMidnightMonotone(DayOfDate(a) + 2, b, tz);
  }

  /** An instant in the local day of a date has that local day. */
  lemma LocalDayAt(y: int, m: int, d: int, h: int, min: int, tz: TimeZone)
    requires 0 <= h * 3600 + min * 60 < SecondsPerDay
    ensures LocalDayOf(At(y, m, d, h, min, tz), tz) == DayOf(y, m, d)
  {
    var n := LocalDayOf(At(y, m, d, h, min, tz), tz);
    if n < DayOf(y, m, d) {
      LocalMidnightMonotone(n + 1, DayOf(y, m, d), tz);
    } else if n > DayOf(y, m, d) {
      LocalMidnightMonotone(DayOf(y, m, d) + 1, n, tz);
    }
  }

  /** The verdicts of an enabled row, each from where its most recent
      occurrence lies. */
  lemma JudgeTooOld(m: int, d: int, last: Option<Instant>, tz: TimeZone, day: Day)
    requires Occurrence(m, d, day) < day - ForgottenSearchDistance
    ensures Judge(true, m, d, last, tz, day) == TooOld
  {
  }

  lemma JudgeAlreadyNotified(m: int, d: int, last: Option<Instant>, tz: TimeZone, day: Day)
    requires day - ForgottenSearchDistance <= Occurrence(m, d, day)
    requires last.Some? && last.value > LocalMidnight(Occurrence(m, d, day), tz)
    ensures Judge(true, m, d, last, tz, day) == AlreadyNotified
  {
  }

  lemma JudgeCelebrate(m: int, d: int, last: Option<Instant>, tz: TimeZone, day: Day)
    requires Occurrence(m, d, day) == day
    requires last.None? || last.value <= LocalMidnight(day, tz)
    ensures Judge(true, m, d, last, tz, day) == CelebrateToday
  {
  }

  lemma JudgeForgotten(m: int, d: int, last: Option<Instant>, tz: TimeZone, day: Day)
    requires day - ForgottenSearchDistance <= Occurrence(m, d, day) < day
    requires last.None? || last.value <= LocalMidnight(Occurrence(m, d, day), tz)
    ensures Judge(true, m, d, last, tz, day) == Forgotten
  {
  }

  // ---------------------------------------------------------------------
  // The matcher with its verdicts given

  /** The grouping loop of the matcher when vs[i] is the verdict on rows[i]. */
  function FoldV(rows: seq<Birthday>, vs: seq<Verdict>): Report
    requires |vs| == |rows|
    decreases |rows|
  {
    if rows == [] then map[]
    else
      var report := FoldV(rows[..|rows| - 1], vs[..|rows| - 1]);
      var row, v := rows[|rows| - 1], vs[|rows| - 1];
      if v.IsReported() then
        report[row.userId := Push(Get(report, row.userId), row.id, row.person, OnDate(row.person, row.day, row.month), v)]
      else report
  }

  lemma FoldVSnoc(rows: seq<Birthday>, vs: seq<Verdict>, row: Birthday, v: Verdict)
    requires |vs| == |rows|
    ensures var prev := FoldV(rows, vs);
            FoldV(rows + [row], vs + [v]) ==
            if v.IsReported() then prev[row.userId := Push(Get(prev, row.userId), row.id, row.person, OnDate(row.person, row.day, row.month), v)]
            else prev
  {
    assert (rows + [row])[..|rows|] == rows;
    assert (vs + [v])[..|rows|] == vs;
  }

  /** A row celebrated today goes onto the end of its owner's ids and names. */
  lemma FoldVCelebrated(rows: seq<Birthday>, vs: seq<Verdict>, row: Birthday, prev: Report, b: BirthdaysToNotify)
    requires |vs| == |rows|
    requires FoldV(rows, vs) == prev && Get(prev, row.userId) == b
    ensures FoldV(rows + [row], vs + [CelebrateToday]) ==
            prev[row.userId := BirthdaysToNotify(b.ids + [row.id], b.celebrateToday + [row.person], b.forgotten)]
  {
    FoldVSnoc(rows, vs, row, CelebrateToday);
  }

  /** A forgotten row goes onto the end of its owner's ids and entries. */
  lemma FoldVForgotten(rows: seq<Birthday>, vs: seq<Verdict>, row: Birthday, prev: Report, b: BirthdaysToNotify)
    requires |vs| == |rows|
    requires FoldV(rows, vs) == prev && Get(prev, row.userId) == b
    ensures FoldV(rows + [row], vs + [Forgotten]) ==
            prev[row.userId := BirthdaysToNotify(b.ids + [row.id], b.celebrateToday, b.forgotten + [OnDate(row.person, row.day, row.month)])]
  {
    FoldVSnoc(rows, vs, row, Forgotten);
  }

  /** A row that is not reported leaves the fold as it is. */
  lemma FoldVSkipped(rows: seq<Birthday>, vs: seq<Verdict>, row: Birthday, v: Verdict)
    requires |vs| == |rows| && !v.IsReported()
    ensures FoldV(rows + [row], vs + [v]) == FoldV(rows, vs)
  {
    FoldVSnoc(rows, vs, row, v);
  }

  /** vs lists the verdicts on rows. */
  predicate AllJudged(rows: seq<Birthday>, vs: seq<Verdict>, tz: TimeZone, day: Day) {
    |vs| == |rows| && forall i :: 0 <= i < |rows| ==> JudgeRow(rows[i], tz, day) == vs[i]
  }

  lemma JudgedSnoc(rows: seq<Birthday>, vs: seq<Verdict>, row: Birthday, v: Verdict, tz: TimeZone, day: Day)
    requires AllJudged(rows, vs, tz, day)
    requires JudgeRow(row, tz, day) == v
    ensures AllJudged(rows + [row], vs + [v], tz, day)
  {
  }

  lemma FindSpecSnoc(rows: seq<Birthday>, row: Birthday, tz: TimeZone, day: Day)
    ensures var prev, v := FindSpec(rows, tz, day), JudgeRow(row, tz, day);
            FindSpec(rows + [row], tz, day) ==
            if v.IsReported() then prev[row.userId := Push(Get(prev, row.userId), row.id, row.person, OnDate(row.person, row.day, row.month), v)]
            else prev
  {
    assert (rows + [row])[..|rows|] == rows;
  }

  /** The matcher and the fold take the same step on a row whose verdict is v. */
  lemma FindSpecStepV(rows: seq<Birthday>, vs: seq<Verdict>, row: Birthday, v: Verdict, tz: TimeZone, day: Day)
    requires |vs| == |rows| && FindSpec(rows, tz, day) == FoldV(rows, vs)
    requires JudgeRow(row, tz, day) == v
    ensures FindSpec(rows + [row], tz, day) == FoldV(rows + [row], vs + [v])
  {
    FindSpecSnoc(rows, row, tz, day);
    FoldVSnoc(rows, vs, row, v);
  }

  /** With the verdicts known, the matcher is the fold over them. */
  lemma {:induction false} FindSpecByVerdicts(rows: seq<Birthday>, vs: seq<Verdict>, tz: TimeZone, day: Day)
    requires AllJudged(rows, vs, tz, day)
    ensures FindSpec(rows, tz, day) == FoldV(rows, vs)
    decreases |rows|
  {
    if rows != [] {
      var n := |rows|;
      var init, vinit := rows[..n - 1], vs[..n - 1];
      assert forall i :: 0 <= i < n - 1 ==> init[i] == rows[i] && vinit[i] == vs[i];
      assert AllJudged(init, vinit, tz, day);
      FindSpecByVerdicts(init, vinit, tz, day);
      assert rows == init + [rows[n - 1]] && vs == vinit + [vs[n - 1]];
      FindSpecStepV(init, vinit, rows[n - 1], vs[n - 1], tz, day);
    }
  }

  /** Two rows of one owner, reported one after the other. */
  lemma FoldTwoCelebrated(r1: Birthday, r2: Birthday)
    requires r1.userId == r2.userId
    ensures FoldV([r1] + [r2], [CelebrateToday] + [CelebrateToday]) ==
            map[r1.userId := BirthdaysToNotify([r1.id, r2.id], [r1.person, r2.person], [])]
  {
    var one := BirthdaysToNotify([r1.id], [r1.person], []);
    assert [] + [r1] == [r1] && [] + [CelebrateToday] == [CelebrateToday];
    FoldVCelebrated([], [], r1, map[], NothingToNotify);
    assert [] + [r1.id] == [r1.id] && [] + [r1.person] == [r1.person];
    FoldVCelebrated([r1], [CelebrateToday], r2, map[r1.userId := one], one);
    assert [r1.id] + [r2.id] == [r1.id, r2.id] && [r1.person] + [r2.person] == [r1.person, r2.person];
  }

  lemma FoldCelebratedForgotten(r1: Birthday, r2: Birthday)
    requires r1.userId == r2.userId
    ensures FoldV([r1] + [r2], [CelebrateToday] + [Forgotten]) ==
            map[r1.userId := BirthdaysToNotify([r1.id, r2.id], [r1.person], [OnDate(r2.person, r2.day, r2.month)])]
  {
    var one := BirthdaysToNotify([r1.id], [r1.person], []);
    var e := OnDate(r2.person, r2.day, r2.month);
    assert [] + [r1] == [r1] && [] + [CelebrateToday] == [CelebrateToday];
    FoldVCelebrated([], [], r1, map[], NothingToNotify);
    assert [] + [r1.id] == [r1.id] && [] + [r1.person] == [r1.person];
    FoldVForgotten([r1], [CelebrateToday], r2, map[r1.userId := one], one);
    assert [r1.id] + [r2.id] == [r1.id, r2.id] && [] + [e] == [e];
  }

  lemma FoldForgottenCelebrated(r1: Birthday, r2: Birthday)
    requires r1.userId == r2.userId
    ensures FoldV([r1] + [r2], [Forgotten] + [CelebrateToday]) ==
            map[r1.userId := BirthdaysToNotify([r1.id, r2.id], [r2.person], [OnDate(r1.person, r1.day, r1.month)])]
  {
    var e := OnDate(r1.person, r1.day, r1.month);
    var one := BirthdaysToNotify([r1.id], [], [e]);
    assert [] + [r1] == [r1] && [] + [Forgotten] == [Forgotten];
    FoldVForgotten([], [], r1, map[], NothingToNotify);
    assert [] + [r1.id] == [r1.id] && [] + [e] == [e];
    FoldVCelebrated([r1], [Forgotten], r2, map[r1.userId := one], one);
    assert [r1.id] + [r2.id] == [r1.id, r2.id] && [] + [r2.person] == [r2.person];
  }

  /** Two rows of different owners, both celebrated. */
  lemma FoldTwoOwners(r1: Birthday, r2: Birthday)
    requires r1.userId != r2.userId
    ensures FoldV([r1] + [r2], [CelebrateToday] + [CelebrateToday]) ==
            map[r1.userId := BirthdaysToNotify([r1.id], [r1.person], []),
                r2.userId := BirthdaysToNotify([r2.id], [r2.person], [])]
  {
    var one := BirthdaysToNotify([r1.id], [r1.person], []);
    assert [] + [r1] == [r1] && [] + [CelebrateToday] == [CelebrateToday];
    FoldVCelebrated([], [], r1, map[], NothingToNotify);
    assert [] + [r1.id] == [r1.id] && [] + [r1.person] == [r1.person];
    FoldVCelebrated([r1], [CelebrateToday], r2, map[r1.userId := one], NothingToNotify);
    assert [] + [r2.id] == [r2.id] && [] + [r2.person] == [r2.person];
  }

  // ---------------------------------------------------------------------
  // Calendar facts the scenarios rely on

  /** A birthday not later in the year than today last occurred this year. */
  lemma OccurrenceThisYear(y: int, m: int, d: int, tm: int, td: int)
    requires IsValidCivil(CivilDate(y, tm, td)) && MonthDayLe(m, d, tm, td)
    ensures Occurrence(m, d, DayOf(y, tm, td)) == DayOf(y, m, d)
  {
    FromDayOfValid(CivilDate(y, tm, td));
    assert OccurrenceYear(m, d, DayOf(y, tm, td)) == y;
  }

  /** A birthday later in the year than today last occurred a year ago. */
  lemma OccurrenceLastYear(y: int, m: int, d: int, tm: int, td: int)
    requires IsValidCivil(CivilDate(y, tm, td)) && !MonthDayLe(m, d, tm, td)
    ensures Occurrence(m, d, DayOf(y, tm, td)) == DayOf(y - 1, m, d)
  {
    FromDayOfValid(CivilDate(y, tm, td));
    assert OccurrenceYear(m, d, DayOf(y, tm, td)) == y - 1;
  }

  /** The same month and day a year earlier is at least 364 days back. */
  lemma YearAgo(y: int, m: int, d: int)
    requires 1 <= m <= 12
    ensures DayOf(y - 1, m, d) + 364 <= DayOf(y, m, d)
  {
    DayOfInRange(y - 1, m, d);
    DayOfInRange(y, m, d);
    YearStep(y - 1);
  }

  lemma LastOfJanuary(y: int)
    ensures DayOf(y, 1, 31) + 1 == DayOf(y, 2, 1)
  {
    DayOfInRange(y, 1, 31);
    DayOfInRange(y, 2, 1);
    MonthStep(y, 1);
  }

  lemma MarchAfterFebruary(y: int)
    ensures DayOf(y, 3, 1) <= DayOf(y, 2, 1) + 29
  {
    DayOfInRange(y, 2, 1);
    DayOfInRange(y, 3, 1);
    MonthStep(y, 2);
  }

  lemma NewYearsEve(y: int)
    ensures DayOf(y - 1, 12, 31) + 1 == DayOf(y, 1, 1)
  {
    DayOfInRange(y - 1, 12, 31);
    DayOfInRange(y, 1, 1);
    MonthStep(y - 1, 12);
    YearStep(y - 1);
  }

  // ---------------------------------------------------------------------
  // BasicChecks

  /** The rows of BasicChecks; in SplitUsers the odd rows belong to u1 and
      the even ones to u2. */
  function BasicRows(s1: Instant, s3: Instant, s4: Instant, s5: Instant, u1: UserId, u2: UserId): seq<Birthday> {
    [Row(1, "person1", 2, 16, true, Some(s1), u1)] +
    [Row(2, "person2", 2, 16, true, None, u2)] +
    [Row(3, "person3", 2, 16, true, Some(s3), u1)] +
    [Row(4, "person4", 2, 15, true, Some(s4), u2)] +
    [Row(5, "person5", 2, 12, true, Some(s5), u1)] +
    [Row(6, "person6", 2, 16, false, None, u2)] +
    [Row(7, "person7", 2, 17, true, None, u1)] +
    [Row(8, "person8", 3, 16, true, None, u2)] +
    [Row(9, "person9", 1, 16, true, None, u1)]
  }

  const BasicVerdicts := [CelebrateToday] + [CelebrateToday] + [AlreadyNotified] + [Forgotten] + [TooOld] +
                        [Disabled] + [TooOld] + [TooOld] + [TooOld]

  /** The verdicts of BasicChecks, on 16 February of any year y. */
  lemma BasicStampedLastYear(y: int, tz: TimeZone)
    ensures Judge(true, 2, 16, Some(At(y - 1, 2, 16, 15, 0, tz)), tz, DayOf(y, 2, 16)) == CelebrateToday
  {
    OccurrenceThisYear(y, 2, 16, 2, 16);
    YearAgo(y, 2, 16);
    StampBefore(CivilDate(y - 1, 2, 16), 15, 0, tz, DayOf(y, 2, 16), tz);
    JudgeCelebrate(2, 16, Some(At(y - 1, 2, 16, 15, 0, tz)), tz, DayOf(y, 2, 16));
  }

  lemma BasicNeverStamped(y: int, tz: TimeZone)
    ensures Judge(true, 2, 16, None, tz, DayOf(y, 2, 16)) == CelebrateToday
  {
    OccurrenceThisYear(y, 2, 16, 2, 16);
    JudgeCelebrate(2, 16, None, tz, DayOf(y, 2, 16));
  }

  lemma BasicStampedToday(y: int, tz: TimeZone)
    ensures Judge(true, 2, 16, Some(At(y, 2, 16, 15, 0, tz)), tz, DayOf(y, 2, 16)) == AlreadyNotified
  {
    OccurrenceThisYear(y, 2, 16, 2, 16);
    JudgeAlreadyNotified(2, 16, Some(At(y, 2, 16, 15, 0, tz)), tz, DayOf(y, 2, 16));
  }

  lemma BasicYesterday(y: int, tz: TimeZone)
    ensures Judge(true, 2, 15, Some(At(y - 1, 2, 15, 15, 0, tz)), tz, DayOf(y, 2, 16)) == Forgotten
  {
    OccurrenceThisYear(y, 2, 15, 2, 16);
    YearAgo(y, 2, 15);
    StampBefore(CivilDate(y - 1, 2, 15), 15, 0, tz, DayOf(y, 2, 15), tz);
    JudgeForgotten(2, 15, Some(At(y - 1, 2, 15, 15, 0, tz)), tz, DayOf(y, 2, 16));
  }

  lemma BasicFourDaysBack(y: int, tz: TimeZone)
    ensures Judge(true, 2, 12, Some(At(y - 1, 2, 12, 15, 0, tz)), tz, DayOf(y, 2, 16)) == TooOld
  {
    OccurrenceThisYear(y, 2, 12, 2, 16);
    JudgeTooOld(2, 12, Some(At(y - 1, 2, 12, 15, 0, tz)), tz, DayOf(y, 2, 16));
  }

  lemma BasicNextDay(y: int, tz: TimeZone)
    ensures Judge(true, 2, 17, None, tz, DayOf(y, 2, 16)) == TooOld
  {
    OccurrenceLastYear(y, 2, 17, 2, 16);
    YearAgo(y, 2, 17);
    JudgeTooOld(2, 17, None, tz, DayOf(y, 2, 16));
  }

  lemma BasicNextMonth(y: int, tz: TimeZone)
    ensures Judge(true, 3, 16, None, tz, DayOf(y, 2, 16)) == TooOld
  {
    OccurrenceLastYear(y, 3, 16, 2, 16);
    YearAgo(y, 3, 16);
    MarchAfterFebruary(y);
    JudgeTooOld(3, 16, None, tz, DayOf(y, 2, 16));
  }

  lemma BasicLastMonth(y: int, tz: TimeZone)
    ensures Judge(true, 1, 16, None, tz, DayOf(y, 2, 16)) == TooOld
  {
    OccurrenceThisYear(y, 1, 16, 2, 16);
    LastOfJanuary(y);
    JudgeTooOld(1, 16, None, tz, DayOf(y, 2, 16));
  }

  lemma BasicJudged(y: int, tz: TimeZone, u1: UserId, u2: UserId)
    ensures AllJudged(BasicRows(At(y - 1, 2, 16, 15, 0, tz), At(y, 2, 16, 15, 0, tz),
                                At(y - 1, 2, 15, 15, 0, tz), At(y - 1, 2, 12, 15, 0, tz), u1, u2),
                      BasicVerdicts, tz, DayOf(y, 2, 16))
  {
    var s1, s3, s4, s5 := At(y - 1, 2, 16, 15, 0, tz), At(y, 2, 16, 15, 0, tz),
                          At(y - 1, 2, 15, 15, 0, tz), At(y - 1, 2, 12, 15, 0, tz);
    var day := DayOf(y, 2, 16);
    var r1 := Row(1, "person1", 2, 16, true, Some(s1), u1);
    var r2 := Row(2, "person2", 2, 16, true, None, u2);
    var r3 := Row(3, "person3", 2, 16, true, Some(s3), u1);
    var r4 := Row(4, "person4", 2, 15, true, Some(s4), u2);
    var r5 := Row(5, "person5", 2, 12, true, Some(s5), u1);
    var r6 := Row(6, "person6", 2, 16, false, None, u2);
    var r7 := Row(7, "person7", 2, 17, true, None, u1);
    var r8 := Row(8, "person8", 3, 16, true, None, u2);
    var r9 := Row(9, "person9", 1, 16, true, None, u1);
    var p1, v1 := [r1], [CelebrateToday];
    var p2, v2 := p1 + [r2], v1 + [CelebrateToday];
    var p3, v3 := p2 + [r3], v2 + [AlreadyNotified];
    var p4, v4 := p3 + [r4], v3 + [Forgotten];
    var p5, v5 := p4 + [r5], v4 + [TooOld];
    var p6, v6 := p5 + [r6], v5 + [Disabled];
    var p7, v7 := p6 + [r7], v6 + [TooOld];
    var p8, v8 := p7 + [r8], v7 + [TooOld];
    assert [] + [r1] == p1 && [] + [CelebrateToday] == v1;
    BasicStampedLastYear(y, tz);
    JudgedSnoc([], [], r1, CelebrateToday, tz, day);
    BasicNeverStamped(y, tz);
    JudgedSnoc(p1, v1, r2, CelebrateToday, tz, day);
    BasicStampedToday(y, tz);
    JudgedSnoc(p2, v2, r3, AlreadyNotified, tz, day);
    BasicYesterday(y, tz);
    JudgedSnoc(p3, v3, r4, Forgotten, tz, day);
    BasicFourDaysBack(y, tz);
    JudgedSnoc(p4, v4, r5, TooOld, tz, day);
    JudgedSnoc(p5, v5, r6, Disabled, tz, day);
    BasicNextDay(y, tz);
    JudgedSnoc(p6, v6, r7, TooOld, tz, day);
    BasicNextMonth(y, tz);
    JudgedSnoc(p7, v7, r8, TooOld, tz, day);
    BasicLastMonth(y, tz);
    JudgedSnoc(p8, v8, r9, TooOld, tz, day);
  }

  lemma BasicFold(s1: Instant, s3: Instant, s4: Instant, s5: Instant)
    ensures FoldV(BasicRows(s1, s3, s4, s5, 1, 1), BasicVerdicts) ==
            map[1 := BirthdaysToNotify([1, 2, 4], ["person1", "person2"], [OnDate("person4", 15, 2)])]
  {
    var r1 := Row(1, "person1", 2, 16, true, Some(s1), 1);
    var r2 := Row(2, "person2", 2, 16, true, None, 1);
    var r3 := Row(3, "person3", 2, 16, true, Some(s3), 1);
    var r4 := Row(4, "person4", 2, 15, true, Some(s4), 1);
    var p2, v2 := [r1] + [r2], [CelebrateToday] + [CelebrateToday];
    var p4, v4 := p2 + [r3] + [r4], v2 + [AlreadyNotified] + [Forgotten];
    var two := BirthdaysToNotify([1, 2], ["person1", "person2"], []);
    FoldTwoCelebrated(r1, r2);
    FoldVSkipped(p2, v2, r3, AlreadyNotified);
    FoldVForgotten(p2 + [r3], v2 + [AlreadyNotified], r4, map[1 := two], two);
    var e := OnDate(r4.person, r4.day, r4.month);
    assert [1 as BirthdayId, 2] + [4] == [1, 2, 4] && [] + [e] == [e];
    BasicFoldTail(p4, v4, s5, 1, 1);
  }

  /** Rows 5 to 9 of BasicChecks are not reported. */
  lemma BasicFoldTail(p4: seq<Birthday>, v4: seq<Verdict>, s5: Instant, u1: UserId, u2: UserId)
    requires |p4| == |v4|
    ensures FoldV(p4 + [Row(5, "person5", 2, 12, true, Some(s5), u1)] +
                  [Row(6, "person6", 2, 16, false, None, u2)] +
                  [Row(7, "person7", 2, 17, true, None, u1)] +
                  [Row(8, "person8", 3, 16, true, None, u2)] +
                  [Row(9, "person9", 1, 16, true, None, u1)],
                  v4 + [TooOld] + [Disabled] + [TooOld] + [TooOld] + [TooOld]) == FoldV(p4, v4)
  {
    var r5 := Row(5, "person5", 2, 12, true, Some(s5), u1);
    var r6 := Row(6, "person6", 2, 16, false, None, u2);
    var r7 := Row(7, "person7", 2, 17, true, None, u1);
    var r8 := Row(8, "person8", 3, 16, true, None, u2);
    var r9 := Row(9, "person9", 1, 16, true, None, u1);
    FoldVSkipped(p4, v4, r5, TooOld);
    FoldVSkipped(p4 + [r5], v4 + [TooOld], r6, Disabled);
    FoldVSkipped(p4 + [r5] + [r6], v4 + [TooOld] + [Disabled], r7, TooOld);
    FoldVSkipped(p4 + [r5] + [r6] + [r7], v4 + [TooOld] + [Disabled] + [TooOld], r8, TooOld);
    FoldVSkipped(p4 + [r5] + [r6] + [r7] + [r8], v4 + [TooOld] + [Disabled] + [TooOld] + [TooOld], r9, TooOld);
  }

  /** BasicChecks: on 16 February at 20:30 local time, person1 (stamped a year
      ago) and person2 (never stamped) are celebrated, person3 was stamped
      earlier today, person4 was one day ago, person5 four days ago, person6
      is disabled, and persons 7 to 9 are outside the window. Every row
      belongs to user 1, the only key of the result. The scenario holds in
      every year and every fixed-offset zone. */
  lemma BasicChecks(y: int, tz: TimeZone)
    ensures var rows := BasicRows(At(y - 1, 2, 16, 15, 0, tz), At(y, 2, 16, 15, 0, tz),
                                  At(y - 1, 2, 15, 15, 0, tz), At(y - 1, 2, 12, 15, 0, tz), 1, 1);
            FindSpec(rows, tz, LocalDayOf(At(y, 2, 16, 20, 30, tz), tz)) ==
            map[1 := BirthdaysToNotify([1, 2, 4], ["person1", "person2"], ["person4 on 15.02"])]
  {
    var s1, s3, s4, s5 := At(y - 1, 2, 16, 15, 0, tz), At(y, 2, 16, 15, 0, tz),
                          At(y - 1, 2, 15, 15, 0, tz), At(y - 1, 2, 12, 15, 0, tz);
    LocalDayAt(y, 2, 16, 20, 30, tz);
    BasicJudged(y, tz, 1, 1);
    FindSpecByVerdicts(BasicRows(s1, s3, s4, s5, 1, 1), BasicVerdicts, tz, DayOf(y, 2, 16));
    BasicFold(s1, s3, s4, s5);
    EntryOn1502();
  }

  // ---------------------------------------------------------------------
  // SplitUsers

  lemma SplitFold(s1: Instant, s3: Instant, s4: Instant, s5: Instant)
    ensures FoldV(BasicRows(s1, s3, s4, s5, 1, 2), BasicVerdicts) ==
            map[1 := BirthdaysToNotify([1], ["person1"], []),
                2 := BirthdaysToNotify([2, 4], ["person2"], [OnDate("person4", 15, 2)])]
  {
    var r1 := Row(1, "person1", 2, 16, true, Some(s1), 1);
    var r2 := Row(2, "person2", 2, 16, true, None, 2);
    var r3 := Row(3, "person3", 2, 16, true, Some(s3), 1);
    var r4 := Row(4, "person4", 2, 15, true, Some(s4), 2);
    var p2, v2 := [r1] + [r2], [CelebrateToday] + [CelebrateToday];
    var p4, v4 := p2 + [r3] + [r4], v2 + [AlreadyNotified] + [Forgotten];
    var one := BirthdaysToNotify([1], ["person1"], []);
    var two := BirthdaysToNotify([2], ["person2"], []);
    FoldTwoOwners(r1, r2);
    FoldVSkipped(p2, v2, r3, AlreadyNotified);
    FoldVForgotten(p2 + [r3], v2 + [AlreadyNotified], r4, map[1 := one, 2 := two], two);
    var e := OnDate(r4.person, r4.day, r4.month);
    assert [2 as BirthdayId] + [4] == [2, 4] && [] + [e] == [e];
    BasicFoldTail(p4, v4, s5, 1, 2);
  }

  /** SplitUsers: the rows of BasicChecks, odd ones owned by user 1 and even
      ones by user 2; each user gets exactly their own reported rows. */
  lemma SplitUsers(y: int, tz: TimeZone)
    ensures var rows := BasicRows(At(y - 1, 2, 16, 15, 0, tz), At(y, 2, 16, 15, 0, tz),
                                  At(y - 1, 2, 15, 15, 0, tz), At(y - 1, 2, 12, 15, 0, tz), 1, 2);
            FindSpec(rows, tz, LocalDayOf(At(y, 2, 16, 20, 30, tz), tz)) ==
            map[1 := BirthdaysToNotify([1], ["person1"], []),
                2 := BirthdaysToNotify([2, 4], ["person2"], ["person4 on 15.02"])]
  {
    var s1, s3, s4, s5 := At(y - 1, 2, 16, 15, 0, tz), At(y, 2, 16, 15, 0, tz),
                          At(y - 1, 2, 15, 15, 0, tz), At(y - 1, 2, 12, 15, 0, tz);
    LocalDayAt(y, 2, 16, 20, 30, tz);
    BasicJudged(y, tz, 1, 2);
    FindSpecByVerdicts(BasicRows(s1, s3, s4, s5, 1, 2), BasicVerdicts, tz, DayOf(y, 2, 16));
    SplitFold(s1, s3, s4, s5);
    EntryOn1502();
  }

  // ---------------------------------------------------------------------
  // MonthBorder

  function MonthRows(s1: Instant, s2: Instant, s3: Instant): seq<Birthday> {
    [Row(1, "person1", 2, 1, true, Some(s1), 1)] +
    [Row(2, "person2", 1, 31, true, Some(s2), 1)] +
    [Row(3, "person3", 1, 28, true, Some(s3), 1)]
  }

  const MonthVerdicts := [CelebrateToday] + [Forgotten] + [TooOld]

  /** The verdicts of MonthBorder, on 1 February of any year y. */
  lemma MonthToday(y: int, tz: TimeZone)
    ensures Judge(true, 2, 1, Some(At(y - 1, 2, 1, 15, 0, tz)), tz, DayOf(y, 2, 1)) == CelebrateToday
  {
    OccurrenceThisYear(y, 2, 1, 2, 1);
    YearAgo(y, 2, 1);
    StampBefore(CivilDate(y - 1, 2, 1), 15, 0, tz, DayOf(y, 2, 1), tz);
    JudgeCelebrate(2, 1, Some(At(y - 1, 2, 1, 15, 0, tz)), tz, DayOf(y, 2, 1));
  }

  lemma MonthEve(y: int, tz: TimeZone)
    ensures Judge(true, 1, 31, Some(At(y - 1, 1, 31, 15, 0, tz)), tz, DayOf(y, 2, 1)) == Forgotten
  {
    OccurrenceThisYear(y, 1, 31, 2, 1);
    LastOfJanuary(y);
    YearAgo(y, 1, 31);
    StampBefore(CivilDate(y - 1, 1, 31), 15, 0, tz, DayOf(y, 1, 31), tz);
    JudgeForgotten(1, 31, Some(At(y - 1, 1, 31, 15, 0, tz)), tz, DayOf(y, 2, 1));
  }

  lemma MonthOld(y: int, tz: TimeZone)
    ensures Judge(true, 1, 28, Some(At(y - 1, 1, 28, 15, 0, tz)), tz, DayOf(y, 2, 1)) == TooOld
  {
    OccurrenceThisYear(y, 1, 28, 2, 1);
    LastOfJanuary(y);
    JudgeTooOld(1, 28, Some(At(y - 1, 1, 28, 15, 0, tz)), tz, DayOf(y, 2, 1));
  }

  lemma MonthJudged(y: int, tz: TimeZone)
    ensures AllJudged(MonthRows(At(y - 1, 2, 1, 15, 0, tz), At(y - 1, 1, 31, 15, 0, tz), At(y - 1, 1, 28, 15, 0, tz)),
                      MonthVerdicts, tz, DayOf(y, 2, 1))
  {
    var day := DayOf(y, 2, 1);
    var r1 := Row(1, "person1", 2, 1, true, Some(At(y - 1, 2, 1, 15, 0, tz)), 1);
    var r2 := Row(2, "person2", 1, 31, true, Some(At(y - 1, 1, 31, 15, 0, tz)), 1);
    var r3 := Row(3, "person3", 1, 28, true, Some(At(y - 1, 1, 28, 15, 0, tz)), 1);
    assert [] + [r1] == [r1] && [] + [CelebrateToday] == [CelebrateToday];
    MonthToday(y, tz);
    JudgedSnoc([], [], r1, CelebrateToday, tz, day);
    MonthEve(y, tz);
    JudgedSnoc([r1], [CelebrateToday], r2, Forgotten, tz, day);
    MonthOld(y, tz);
    JudgedSnoc([r1] + [r2], [CelebrateToday] + [Forgotten], r3, TooOld, tz, day);
  }

  lemma MonthFold(s1: Instant, s2: Instant, s3: Instant)
    ensures FoldV(MonthRows(s1, s2, s3), MonthVerdicts) ==
            map[1 := BirthdaysToNotify([1, 2], ["person1"], [OnDate("person2", 31, 1)])]
  {
    var r1 := Row(1, "person1", 2, 1, true, Some(s1), 1);
    var r2 := Row(2, "person2", 1, 31, true, Some(s2), 1);
    var r3 := Row(3, "person3", 1, 28, true, Some(s3), 1);
    FoldCelebratedForgotten(r1, r2);
    FoldVSkipped([r1] + [r2], [CelebrateToday] + [Forgotten], r3, TooOld);
  }

  /** MonthBorder: on 1 February, person1 is celebrated, person2 (31 January)
      is reported as forgotten across the month border, and person3
      (28 January) is four days back. */
  lemma MonthBorder(y: int, tz: TimeZone)
    ensures var rows := MonthRows(At(y - 1, 2, 1, 15, 0, tz), At(y - 1, 1, 31, 15, 0, tz), At(y - 1, 1, 28, 15, 0, tz));
            FindSpec(rows, tz, LocalDayOf(At(y, 2, 1, 20, 30, tz), tz)) ==
            map[1 := BirthdaysToNotify([1, 2], ["person1"], ["person2 on 31.01"])]
  {
    var s1, s2, s3 := At(y - 1, 2, 1, 15, 0, tz), At(y - 1, 1, 31, 15, 0, tz), At(y - 1, 1, 28, 15, 0, tz);
    LocalDayAt(y, 2, 1, 20, 30, tz);
    MonthJudged(y, tz);
    FindSpecByVerdicts(MonthRows(s1, s2, s3), MonthVerdicts, tz, DayOf(y, 2, 1));
    MonthFold(s1, s2, s3);
    EntryOn3101();
  }

  // ---------------------------------------------------------------------
  // YearBorder

  function YearRows(s1: Instant, s2: Instant, s3: Instant, s4: Instant): seq<Birthday> {
    [Row(1, "person1", 1, 1, true, Some(s1), 1)] +
    [Row(2, "person2", 12, 31, true, Some(s2), 1)] +
    [Row(3, "person3", 12, 28, true, Some(s3), 1)] +
    [Row(4, "person4", 12, 31, true, Some(s4), 1)]
  }

  const YearVerdicts := [CelebrateToday] + [Forgotten] + [TooOld] + [AlreadyNotified]

  /** The verdicts of YearBorder, on 1 January of any year y. */
  lemma YearToday(y: int, tz: TimeZone)
    ensures Judge(true, 1, 1, Some(At(y - 1, 1, 1, 15, 0, tz)), tz, DayOf(y, 1, 1)) == CelebrateToday
  {
    OccurrenceThisYear(y, 1, 1, 1, 1);
    YearAgo(y, 1, 1);
    StampBefore(CivilDate(y - 1, 1, 1), 15, 0, tz, DayOf(y, 1, 1), tz);
    JudgeCelebrate(1, 1, Some(At(y - 1, 1, 1, 15, 0, tz)), tz, DayOf(y, 1, 1));
  }

  lemma YearEve(y: int, tz: TimeZone)
    ensures Judge(true, 12, 31, Some(At(y - 2, 12, 31, 15, 0, tz)), tz, DayOf(y, 1, 1)) == Forgotten
  {
    OccurrenceLastYear(y, 12, 31, 1, 1);
    NewYearsEve(y);
    YearAgo(y - 1, 12, 31);
    StampBefore(CivilDate(y - 2, 12, 31), 15, 0, tz, DayOf(y - 1, 12, 31), tz);
    JudgeForgotten(12, 31, Some(At(y - 2, 12, 31, 15, 0, tz)), tz, DayOf(y, 1, 1));
  }

  lemma YearOld(y: int, tz: TimeZone)
    ensures Judge(true, 12, 28, Some(At(y - 2, 12, 28, 15, 0, tz)), tz, DayOf(y, 1, 1)) == TooOld
  {
    OccurrenceLastYear(y, 12, 28, 1, 1);
    NewYearsEve(y);
    JudgeTooOld(12, 28, Some(At(y - 2, 12, 28, 15, 0, tz)), tz, DayOf(y, 1, 1));
  }

  lemma YearStamped(y: int, tz: TimeZone)
    ensures Judge(true, 12, 31, Some(At(y - 1, 12, 31, 15, 0, tz)), tz, DayOf(y, 1, 1)) == AlreadyNotified
  {
    OccurrenceLastYear(y, 12, 31, 1, 1);
    NewYearsEve(y);
    JudgeAlreadyNotified(12, 31, Some(At(y - 1, 12, 31, 15, 0, tz)), tz, DayOf(y, 1, 1));
  }

  lemma YearJudged(y: int, tz: TimeZone)
    ensures AllJudged(YearRows(At(y - 1, 1, 1, 15, 0, tz), At(y - 2, 12, 31, 15, 0, tz),
                               At(y - 2, 12, 28, 15, 0, tz), At(y - 1, 12, 31, 15, 0, tz)),
                      YearVerdicts, tz, DayOf(y, 1, 1))
  {
    var day := DayOf(y, 1, 1);
    var r1 := Row(1, "person1", 1, 1, true, Some(At(y - 1, 1, 1, 15, 0, tz)), 1);
    var r2 := Row(2, "person2", 12, 31, true, Some(At(y - 2, 12, 31, 15, 0, tz)), 1);
    var r3 := Row(3, "person3", 12, 28, true, Some(At(y - 2, 12, 28, 15, 0, tz)), 1);
    var r4 := Row(4, "person4", 12, 31, true, Some(At(y - 1, 12, 31, 15, 0, tz)), 1);
    assert [] + [r1] == [r1] && [] + [CelebrateToday] == [CelebrateToday];
    YearToday(y, tz);
    JudgedSnoc([], [], r1, CelebrateToday, tz, day);
    YearEve(y, tz);
    JudgedSnoc([r1], [CelebrateToday], r2, Forgotten, tz, day);
    YearOld(y, tz);
    JudgedSnoc([r1] + [r2], [CelebrateToday] + [Forgotten], r3, TooOld, tz, day);
    YearStamped(y, tz);
    JudgedSnoc([r1] + [r2] + [r3], [CelebrateToday] + [Forgotten] + [TooOld], r4, AlreadyNotified, tz, day);
  }

  lemma YearFold(s1: Instant, s2: Instant, s3: Instant, s4: Instant)
    ensures FoldV(YearRows(s1, s2, s3, s4), YearVerdicts) ==
            map[1 := BirthdaysToNotify([1, 2], ["person1"], [OnDate("person2", 31, 12)])]
  {
    var r1 := Row(1, "person1", 1, 1, true, Some(s1), 1);
    var r2 := Row(2, "person2", 12, 31, true, Some(s2), 1);
    var r3 := Row(3, "person3", 12, 28, true, Some(s3), 1);
    var r4 := Row(4, "person4", 12, 31, true, Some(s4), 1);
    FoldCelebratedForgotten(r1, r2);
    FoldVSkipped([r1] + [r2], [CelebrateToday] + [Forgotten], r3, TooOld);
    FoldVSkipped([r1] + [r2] + [r3], [CelebrateToday] + [Forgotten] + [TooOld], r4, AlreadyNotified);
  }

  /** YearBorder: on 1 January, person1 is celebrated, person2 (31 December,
      stamped two years back) is forgotten across the year border, person3
      (28 December) is four days back, and person4 was stamped last year on
      its day. */
  lemma YearBorder(y: int, tz: TimeZone)
    ensures var rows := YearRows(At(y - 1, 1, 1, 15, 0, tz), At(y - 2, 12, 31, 15, 0, tz),
                                 At(y - 2, 12, 28, 15, 0, tz), At(y - 1, 12, 31, 15, 0, tz));
            FindSpec(rows, tz, LocalDayOf(At(y, 1, 1, 20, 30, tz), tz)) ==
            map[1 := BirthdaysToNotify([1, 2], ["person1"], ["person2 on 31.12"])]
  {
    var s1, s2, s3, s4 := At(y - 1, 1, 1, 15, 0, tz), At(y - 2, 12, 31, 15, 0, tz),
                          At(y - 2, 12, 28, 15, 0, tz), At(y - 1, 12, 31, 15, 0, tz);
    LocalDayAt(y, 1, 1, 20, 30, tz);
    YearJudged(y, tz);
    FindSpecByVerdicts(YearRows(s1, s2, s3, s4), YearVerdicts, tz, DayOf(y, 1, 1));
    YearFold(s1, s2, s3, s4);
    EntryOn3112();
  }

  // ---------------------------------------------------------------------
  // TimezoneApplication

  /** 20:30 on 1 January in Moscow is 03:30 on 2 January in Vladivostok. */
  lemma MoscowEveningInVladivostok(y: int)
    ensures At(y, 1, 1, 20, 30, Moscow) == At(y, 1, 2, 3, 30, Vladivostok)
  {
  }

  function ZoneRows(s1: Instant, s2: Instant): seq<Birthday> {
    [Row(1, "person1", 1, 1, true, Some(s1), 1)] +
    [Row(2, "person2", 1, 2, true, Some(s2), 1)]
  }

  const ZoneVerdicts := [Forgotten] + [CelebrateToday]

  /** The verdicts of TimezoneApplication: stamps taken in Moscow, judged on
      2 January in Vladivostok. */
  lemma ZoneYesterday(y: int)
    ensures Judge(true, 1, 1, Some(At(y - 1, 1, 1, 15, 0, Moscow)), Vladivostok, DayOf(y, 1, 2)) == Forgotten
  {
    OccurrenceThisYear(y, 1, 1, 1, 2);
    YearAgo(y, 1, 1);
    StampBefore(CivilDate(y - 1, 1, 1), 15, 0, Moscow, DayOf(y, 1, 1), Vladivostok);
    JudgeForgotten(1, 1, Some(At(y - 1, 1, 1, 15, 0, Moscow)), Vladivostok, DayOf(y, 1, 2));
  }

  lemma ZoneToday(y: int)
    ensures Judge(true, 1, 2, Some(At(y - 1, 1, 2, 15, 0, Moscow)), Vladivostok, DayOf(y, 1, 2)) == CelebrateToday
  {
    OccurrenceThisYear(y, 1, 2, 1, 2);
    YearAgo(y, 1, 2);
    StampBefore(CivilDate(y - 1, 1, 2), 15, 0, Moscow, DayOf(y, 1, 2), Vladivostok);
    JudgeCelebrate(1, 2, Some(At(y - 1, 1, 2, 15, 0, Moscow)), Vladivostok, DayOf(y, 1, 2));
  }

  lemma ZoneJudged(y: int)
    ensures AllJudged(ZoneRows(At(y - 1, 1, 1, 15, 0, Moscow), At(y - 1, 1, 2, 15, 0, Moscow)),
                      ZoneVerdicts, Vladivostok, DayOf(y, 1, 2))
  {
    var day := DayOf(y, 1, 2);
    var r1 := Row(1, "person1", 1, 1, true, Some(At(y - 1, 1, 1, 15, 0, Moscow)), 1);
    var r2 := Row(2, "person2", 1, 2, true, Some(At(y - 1, 1, 2, 15, 0, Moscow)), 1);
    assert [] + [r1] == [r1] && [] + [Forgotten] == [Forgotten];
    ZoneYesterday(y);
    JudgedSnoc([], [], r1, Forgotten, Vladivostok, day);
    ZoneToday(y);
    JudgedSnoc([r1], [Forgotten], r2, CelebrateToday, Vladivostok, day);
  }

  /** TimezoneApplication: at 20:30 on 1 January in Moscow it is already
      2 January in Vladivostok, the zone the rows are judged in, so person2
      is celebrated and person1 is a day late. */
  lemma TimezoneApplication(y: int)
    ensures var rows := ZoneRows(At(y - 1, 1, 1, 15, 0, Moscow), At(y - 1, 1, 2, 15, 0, Moscow));
            FindSpec(rows, Vladivostok, LocalDayOf(At(y, 1, 1, 20, 30, Moscow), Vladivostok)) ==
            map[1 := BirthdaysToNotify([1, 2], ["person2"], ["person1 on 01.01"])]
  {
    var s1, s2 := At(y - 1, 1, 1, 15, 0, Moscow), At(y - 1, 1, 2, 15, 0, Moscow);
    MoscowEveningInVladivostok(y);
    LocalDayAt(y, 1, 2, 3, 30, Vladivostok);
    ZoneJudged(y);
    FindSpecByVerdicts(ZoneRows(s1, s2), ZoneVerdicts, Vladivostok, DayOf(y, 1, 2));
    FoldForgottenCelebrated(Row(1, "person1", 1, 1, true, Some(s1), 1), Row(2, "person2", 1, 2, true, Some(s2), 1));
    EntryOn0101();
  }

  // ---------------------------------------------------------------------
  // The forgotten entries the scenarios expect

  lemma EntryOn1502()
    ensures OnDate("person4", 15, 2) == "person4 on 15.02"
  {
    Pad2TwoDigits(15);
    Pad2TwoDigits(2);
  }

  lemma EntryOn3101()
    ensures OnDate("person2", 31, 1) == "person2 on 31.01"
  {
    Pad2TwoDigits(31);
    Pad2TwoDigits(1);
  }

  lemma EntryOn3112()
    ensures OnDate("person2", 31, 12) == "person2 on 31.12"
  {
    Pad2TwoDigits(31);
    Pad2TwoDigits(12);
  }

  lemma EntryOn0101()
    ensures OnDate("person1", 1, 1) == "person1 on 01.01"
  {
    Pad2TwoDigits(1);
  }
}
