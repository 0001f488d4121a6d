/** The per-user birthday notificator (src/components/birthday_notificator.cpp):
    the matcher that groups reported rows by their owner, the message built for
    each owner, and the notification pass that sends those messages and then
    stamps the reported rows. */
module Notificator {
  import opened Wrappers
  import opened Calendar
  import opened Format
  import opened BirthdayModel
  import opened Matching
  import opened Services

  /** `std::unordered_map<UserId, BirthdaysToNotify>`. */
  type Report = map<UserId, BirthdaysToNotify>

  /** `result[user_id]`: a missing entry reads as an empty one. */
  function Get(report: Report, u: UserId): BirthdaysToNotify {
    if u in report then report[u] else NothingToNotify
  }

  /** What `impl::FindBirthdaysToNotify` returns: each reported row is pushed
      onto the entry of its owner, in row order. */
  function FindSpec(rows: seq<Birthday>, tz: TimeZone, localDay: Day): Report
    decreases |rows|
  {
    if rows == [] then map[]
    else
      var report := FindSpec(rows[..|rows| - 1], tz, localDay);
      var row := rows[|rows| - 1];
      var v := JudgeRow(row, tz, localDay);
      if v.IsReported() then
        report[row.userId := Push(Get(report, row.userId), row.id, row.person, OnDate(row.person, row.day, row.month), v)]
      else report
  }

  /** The rows owned by user u, in their order. */
  function RowsOf(rows: seq<Birthday>, u: UserId): (owned: seq<Birthday>)
    ensures |owned| <= |rows|
    ensures forall x :: x in owned <==> x in rows && x.userId == u
    decreases |rows|
  {
    if rows == [] then []
    else
      var init := RowsOf(rows[..|rows| - 1], u);
      var row := rows[|rows| - 1];
      assert forall x :: x in rows <==> x in rows[..|rows| - 1] || x == row;
      if row.userId == u then init + [row] else init
  }

  /** Selecting the owned rows distributes over concatenation, so the owned
      rows keep the order they have in the table. */
  lemma {:induction false} RowsOfAppend(a: seq<Birthday>, b: seq<Birthday>, u: UserId)
    ensures RowsOf(a + b, u) == RowsOf(a, u) + RowsOf(b, u)
    decreases |b|
  {
    if b == [] {
      assert a + b == a;
    } else {
      var init := b[..|b| - 1];
      var row := b[|b| - 1];
      assert (a + b)[..|a + b| - 1] == a + init;
      assert (a + b)[|a + b| - 1] == row;
      RowsOfAppend(a, init, u);
    }
  }

  /** `impl::FindBirthdaysToNotify`. */
  method FindBirthdaysToNotify(rows: seq<Birthday>, tz: TimeZone, localDay: Day) returns (result: Report)
    ensures result == FindSpec(rows, tz, localDay)
  {
    var farthestForgottenDay := localDay - ForgottenSearchDistance;
    result := map[];
    var i := 0;
    while i < |rows|
      invariant 0 <= i <= |rows|
      invariant result == FindSpec(rows[..i], tz, localDay)
    {
      assert rows[..i + 1][..i] == rows[..i];
      var row := rows[i];
      i := i + 1;
      if !row.notificationEnabled {
        continue;
      }
      var birthday := DayOf(OccurrenceYear(row.month, row.day, localDay), row.month, row.day);
      if birthday < farthestForgottenDay {
        continue;
      }
      if row.lastNotificationTime.Some? && row.lastNotificationTime.value > LocalMidnight(birthday, tz) {
        continue;
      }
      var entry := Get(result, row.userId);
      if birthday == localDay {
        entry := entry.(ids := entry.ids + [row.id], celebrateToday := entry.celebrateToday + [row.person]);
      } else {
        entry := entry.(ids := entry.ids + [row.id], forgotten := entry.forgotten + [OnDate(row.person, row.day, row.month)]);
      }
      result := result[row.userId := entry];
    }
    assert rows[..|rows|] == rows;
  }

  // ---------------------------------------------------------------------
  // The message for one user

  /** The `lines` of the message: a "Today is birthday of" line naming the
      people celebrated today, then a "You forgot about birthdays" section with
      one entry per line. */
  function MessageLines(b: BirthdaysToNotify): seq<string> {
    (if |b.celebrateToday| > 0 then ["Today is birthday of " + Join(b.celebrateToday, ", ")] else []) +
    (if |b.forgotten| > 0 then ["You forgot about birthdays: \n" + Join(b.forgotten, "\n")] else [])
  }

  /** The text sent to one user, or nothing when there are no lines. */
  function Message(b: BirthdaysToNotify): Option<string> {
    var lines := MessageLines(b);
    if |lines| == 0 then None else Some(Join(lines, "\n"))
  }

  /** `local_time < local_notification_time` is false: the local clock reads
      at least the configured hour and minute. */
  datatype TimeOfDay = TimeOfDay(hours: int, minutes: int)

  function NotificationTimeReached(now: Instant, tz: TimeZone, tod: TimeOfDay): (reached: bool)
    ensures reached <==> now >= LocalMidnight(LocalDayOf(now, tz), tz) + tod.hours * 3600 + tod.minutes * 60
  {
    LocalSecondOfDay(now, tz) >= tod.hours * 3600 + tod.minutes * 60
  }

  // ---------------------------------------------------------------------
  // The notification pass

  function IdSet(ids: seq<BirthdayId>): set<BirthdayId> {
    set k | 0 <= k < |ids| :: ids[k]
  }

  /** The ids in the entries of the given users. */
  function StampedIds(report: Report, users: seq<UserId>): set<BirthdayId>
    decreases |users|
  {
    if users == [] then {}
    else StampedIds(report, users[..|users| - 1]) + IdSet(Get(report, users[|users| - 1]).ids)
  }

  /** The ids in every entry of the report. */
  function AllIds(report: Report): set<BirthdayId> {
    set u, id | u in report && id in report[u].ids :: id
  }

  /** The messages delivered to the given users, in order. */
  function Deliveries(report: Report, users: seq<UserId>, chats: map<UserId, ChatId>): seq<Outgoing>
    requires forall k :: 0 <= k < |users| ==> users[k] in chats
    decreases |users|
  {
    if users == [] then []
    else
      var u := users[|users| - 1];
      Deliveries(report, users[..|users| - 1], chats) + [Sent(chats[u], Message(Get(report, u)).GetOr(""), None)]
  }

  /** Progress of the loop over the users of a report: the users still
      pending and the users notified so far, each once and each with a chat;
      while no delivery has failed, the two together are all the users. */
  ghost predicate Visiting(report: Report, pending: set<UserId>, notified: seq<UserId>,
                           chats: map<UserId, ChatId>, completed: bool) {
    && pending <= report.Keys
    && (forall k :: 0 <= k < |notified| ==> notified[k] in report && notified[k] !in pending && notified[k] in chats)
    && (forall i, j :: 0 <= i < j < |notified| ==> notified[i] != notified[j])
    && (completed ==> forall u :: u in report ==> u in pending || u in notified)
  }

  lemma VisitStep(report: Report, pending: set<UserId>, notified: seq<UserId>, chats: map<UserId, ChatId>, u: UserId)
    requires Visiting(report, pending, notified, chats, true)
    requires u in pending && u in chats
    ensures Visiting(report, pending - {u}, notified + [u], chats, true)
  {
  }

  lemma VisitDone(report: Report, pending: set<UserId>, notified: seq<UserId>, chats: map<UserId, ChatId>, completed: bool)
    requires Visiting(report, pending, notified, chats, completed)
    requires completed ==> pending == {}
    ensures forall i, j :: 0 <= i < j < |notified| ==> notified[i] != notified[j]
    ensures forall k :: 0 <= k < |notified| ==> notified[k] in report && notified[k] in chats
    ensures completed ==> forall u :: u in report <==> u in notified
  {
  }

  /** One more notified user adds their ids to the stamped ones and their
      message to the deliveries. */
  lemma DeliverStep(store: map<BirthdayId, Birthday>, log: seq<Outgoing>, report: Report, users: seq<UserId>,
                    chats: map<UserId, ChatId>, u: UserId, t: Instant)
    requires forall k :: 0 <= k < |users| ==> users[k] in chats
    requires u in report && u in chats
    ensures StampAll(StampAll(store, StampedIds(report, users), t), IdSet(report[u].ids), t) ==
            StampAll(store, StampedIds(report, users + [u]), t)
    ensures log + Deliveries(report, users + [u], chats) ==
            log + Deliveries(report, users, chats) + [Sent(chats[u], Message(report[u]).GetOr(""), None)]
  {
    var next := users + [u];
    assert next[..|users|] == users;
    StampAllTwice(store, StampedIds(report, users), IdSet(report[u].ids), t);
  }

  datatype Outcome =
    | NotYetTime  // the configured time of day has not come yet
    | Completed   // every user in the report was notified and stamped
    | Failed      // a chat lookup or a send failed; the pass stopped there

  class BirthdayNotificator {
    const storage: Storage
    const bot: Transport
    const timezone: TimeZone
    const timeOfDay: TimeOfDay

    constructor(storage: Storage, bot: Transport, timezone: TimeZone, timeOfDay: TimeOfDay)
      ensures this.storage == storage && this.bot == bot
      ensures this.timezone == timezone && this.timeOfDay == timeOfDay
    {
      this.storage := storage;
      this.bot := bot;
      this.timezone := timezone;
      this.timeOfDay := timeOfDay;
    }

    /** The body of the loop over users: look up the chat, send the message,
        then stamp the user's rows. A failed lookup or send throws out of the
        pass before anything is stamped. */
    method NotifyUser(u: UserId, b: BirthdaysToNotify, text: string, now: Instant) returns (ok: bool)
      requires storage.Valid()
      modifies storage, bot
      ensures storage.Valid()
      ensures storage.userOfChat == old(storage.userOfChat) && storage.chatOfUser == old(storage.chatOfUser)
      ensures bot.unreachable == old(bot.unreachable)
      ensures ok ==> u in storage.chatOfUser
      ensures ok <==> u in storage.chatOfUser && storage.chatOfUser[u] !in bot.unreachable
      ensures storage.birthdays == if ok then StampAll(old(storage.birthdays), IdSet(b.ids), now) else old(storage.birthdays)
      ensures bot.log == if ok then old(bot.log) + [Sent(storage.chatOfUser[u], text, None)] else old(bot.log)
    {
      var chat := storage.GetChatId(u);
      if chat.Err? {
        return false;
      }
      ok := bot.SendMessage(chat.value, text, None);
      if !ok {
        return;
      }
      storage.StampEach(b.ids, now);
    }

    /** The loop over the users of a report, in an unspecified order (the
        iteration order of an unordered map). It stops at the first failure;
        `notified` lists the users whose message went out, in order. */
    method NotifyUsers(report: Report, now: Instant) returns (completed: bool, ghost notified: seq<UserId>)
      requires storage.Valid()
      requires forall u :: u in report ==> Message(report[u]).Some?
      modifies storage, bot
      ensures storage.Valid()
      ensures storage.userOfChat == old(storage.userOfChat) && storage.chatOfUser == old(storage.chatOfUser)
      ensures bot.unreachable == old(bot.unreachable)
      ensures forall i, j :: 0 <= i < j < |notified| ==> notified[i] != notified[j]
      ensures forall k :: 0 <= k < |notified| ==> notified[k] in report && notified[k] in storage.chatOfUser
      ensures storage.birthdays == StampAll(old(storage.birthdays), StampedIds(report, notified), now)
      ensures bot.log == old(bot.log) + Deliveries(report, notified, storage.chatOfUser)
      ensures completed ==> forall u :: u in report <==> u in notified
    {
      notified := [];
      completed := true;
      ghost var store0 := storage.birthdays;
      ghost var log0 := bot.log;
      ghost var chats := storage.chatOfUser;
      var pending := report.Keys;
      while pending != {} && completed
        invariant Visiting(report, pending, notified, chats, completed)
        invariant storage.Valid()
        invariant storage.userOfChat == old(storage.userOfChat) && storage.chatOfUser == chats
        invariant bot.unreachable == old(bot.unreachable)
        invariant storage.birthdays == StampAll(store0, StampedIds(report, notified), now)
        invariant bot.log == log0 + Deliveries(report, notified, chats)
        decreases pending
      {
        var u :| u in pending;
        var text := Message(report[u]);
        var ok := NotifyUser(u, report[u], text.value, now);
        if ok {
          VisitStep(report, pending, notified, chats, u);
          DeliverStep(store0, log0, report, notified, chats, u, now);
          notified := notified + [u];
        } else {
          completed := false;
        }
        pending := pending - {u};
      }
      VisitDone(report, pending, notified, chats, completed);
    }

    /** `RunIteration` at instant `now`: before the configured time nothing
        happens; otherwise every row is fetched and matched, and each user of
        the report gets their message before their rows are stamped with `now`. */
    method RunIteration(now: Instant) returns (outcome: Outcome, rows: seq<Birthday>, report: Report, ghost notified: seq<UserId>)
      requires storage.Valid()
      modifies storage, bot
      ensures storage.Valid()
      ensures storage.userOfChat == old(storage.userOfChat) && storage.chatOfUser == old(storage.chatOfUser)
      ensures bot.unreachable == old(bot.unreachable)
      ensures outcome == NotYetTime <==> !NotificationTimeReached(now, timezone, timeOfDay)
      ensures outcome != NotYetTime ==>
                && Enumerates(rows, old(storage.birthdays))
                && report == FindSpec(rows, timezone, LocalDayOf(now, timezone))
      ensures forall i, j :: 0 <= i < j < |notified| ==> notified[i] != notified[j]
      ensures forall k :: 0 <= k < |notified| ==> notified[k] in report && notified[k] in storage.chatOfUser
      ensures storage.birthdays == StampAll(old(storage.birthdays), StampedIds(report, notified), now)
      ensures bot.log == old(bot.log) + Deliveries(report, notified, storage.chatOfUser)
      ensures outcome == Completed ==> forall u :: u in report <==> u in notified
      ensures outcome == Completed ==> storage.birthdays == StampAll(old(storage.birthdays), AllIds(report), now)
    {
      notified := [];
      report := map[];
      rows := [];
      if !NotificationTimeReached(now, timezone, timeOfDay) {
        return NotYetTime, rows, report, notified;
      }
      var localDay := LocalDayOf(now, timezone);
      rows := storage.FetchAllBirthdays();
      report := FindBirthdaysToNotify(rows, timezone, localDay);
      forall u | u in report
        ensures Message(report[u]).Some?
      {
        ReportEntryNonEmpty(rows, timezone, localDay, u);
      }
      var completed;
      completed, notified := NotifyUsers(report, now);
      if !completed {
        return Failed, rows, report, notified;
      }
      StampedIdsCoverAll(report, notified);
      return Completed, rows, report, notified;
    }
  }

  // ---------------------------------------------------------------------
  // Properties of the matcher

  lemma AnyReportedSnoc(rows: seq<Birthday>, row: Birthday, tz: TimeZone, localDay: Day)
    ensures AnyReported(rows + [row], tz, localDay) <==>
            AnyReported(rows, tz, localDay) || JudgeRow(row, tz, localDay).IsReported()
  {
    var all := rows + [row];
    if AnyReported(all, tz, localDay) {
      var i :| 0 <= i < |all| && JudgeRow(all[i], tz, localDay).IsReported();
      if i < |rows| {
        assert all[i] == rows[i];
      }
    }
    if AnyReported(rows, tz, localDay) {
      var i :| 0 <= i < |rows| && JudgeRow(rows[i], tz, localDay).IsReported();
      assert all[i] == rows[i];
    }
    assert all[|rows|] == row;
  }

  /** Each user's entry is exactly what the single-list matcher collects from
      that user's rows alone, and a user has an entry exactly when one of their
      rows is reported. */
  lemma {:induction false} FindSpecPerUser(rows: seq<Birthday>, tz: TimeZone, localDay: Day, u: UserId)
    ensures Get(FindSpec(rows, tz, localDay), u) == Collect(RowsOf(rows, u), tz, localDay)
    ensures u in FindSpec(rows, tz, localDay) <==> AnyReported(RowsOf(rows, u), tz, localDay)
    decreases |rows|
  {
    if rows != [] {
      var init := rows[..|rows| - 1];
      var row := rows[|rows| - 1];
      FindSpecPerUser(init, tz, localDay, u);
      var owned := RowsOf(init, u);
      if row.userId == u {
        assert RowsOf(rows, u) == owned + [row];
        CollectSnoc(owned, row, tz, localDay);
        AnyReportedSnoc(owned, row, tz, localDay);
      } else {
        assert RowsOf(rows, u) == owned;
      }
    }
  }

  /** Every entry names someone: it holds an id and a name or a forgotten
      entry, so its message is never empty. */
  lemma ReportEntryNonEmpty(rows: seq<Birthday>, tz: TimeZone, localDay: Day, u: UserId)
    requires u in FindSpec(rows, tz, localDay)
    ensures var b := FindSpec(rows, tz, localDay)[u];
            && |b.ids| == |b.celebrateToday| + |b.forgotten|
            && |b.ids| > 0
            && Message(b).Some?
  {
    FindSpecPerUser(rows, tz, localDay, u);
    CollectCounts(RowsOf(rows, u), tz, localDay);
    CollectEmptyIff(RowsOf(rows, u), tz, localDay);
  }

  /** Rows never land under another user's key: every id in a user's entry
      is the id of a reported row of that user, and every reported row's id is
      in its owner's entry. */
  lemma ReportIdsOfOwner(rows: seq<Birthday>, tz: TimeZone, localDay: Day, u: UserId)
    ensures forall id :: id in Get(FindSpec(rows, tz, localDay), u).ids <==>
              exists x :: x in rows && x.userId == u && x.id == id && JudgeRow(x, tz, localDay).IsReported()
  {
    FindSpecPerUser(rows, tz, localDay, u);
    var owned := RowsOf(rows, u);
    var ids := Get(FindSpec(rows, tz, localDay), u).ids;
    CollectIds(owned, tz, localDay);
    assert ids == Collect(owned, tz, localDay).ids;
    forall id ensures id in ids <==>
              exists x :: x in rows && x.userId == u && x.id == id && JudgeRow(x, tz, localDay).IsReported()
    {
      if id in ids {
        var i :| 0 <= i < |owned| && owned[i].id == id && JudgeRow(owned[i], tz, localDay).IsReported();
        assert owned[i] in owned;
      }
      if exists x :: x in rows && x.userId == u && x.id == id && JudgeRow(x, tz, localDay).IsReported() {
        var x :| x in rows && x.userId == u && x.id == id && JudgeRow(x, tz, localDay).IsReported();
        CollectHasRow(owned, tz, localDay, x);
      }
    }
  }

  /** Nothing is reported to anyone exactly when no row is reported. */
  lemma FindSpecEmptyIff(rows: seq<Birthday>, tz: TimeZone, localDay: Day)
    ensures FindSpec(rows, tz, localDay) == map[] <==> !AnyReported(rows, tz, localDay)
  {
    var report := FindSpec(rows, tz, localDay);
    if AnyReported(rows, tz, localDay) {
      var i :| 0 <= i < |rows| && JudgeRow(rows[i], tz, localDay).IsReported();
      var u := rows[i].userId;
      ReportIdsOfOwner(rows, tz, localDay, u);
      assert rows[i].id in Get(report, u).ids;
    }
    if report != map[] {
      var u :| u in report;
      ReportEntryNonEmpty(rows, tz, localDay, u);
      ReportIdsOfOwner(rows, tz, localDay, u);
      var id := report[u].ids[0];
      assert id in Get(report, u).ids;
      var x :| x in rows && x.userId == u && x.id == id && JudgeRow(x, tz, localDay).IsReported();
      var i :| 0 <= i < |rows| && rows[i] == x;
      assert JudgeRow(rows[i], tz, localDay).IsReported();
    }
  }

  // ---------------------------------------------------------------------
  // Properties of the message

  /** No message exactly when there is nobody to celebrate and nothing forgotten. */
  lemma MessageNoneIff(b: BirthdaysToNotify)
    ensures Message(b).None? <==> |b.celebrateToday| == 0 && |b.forgotten| == 0
  {
  }

  /** A line of the message occurs in the message. */
  lemma LineInMessage(b: BirthdaysToNotify, j: int)
    requires 0 <= j < |MessageLines(b)|
    ensures Message(b).Some? && Occurs(MessageLines(b)[j], Message(b).value)
  {
    JoinContains(MessageLines(b), "\n", j);
  }

  /** The message names every person celebrated today and carries every
      forgotten entry. */
  lemma MessageMentionsAll(b: BirthdaysToNotify)
    requires Message(b).Some?
    ensures forall i :: 0 <= i < |b.celebrateToday| ==> Occurs(b.celebrateToday[i], Message(b).value)
    ensures forall i :: 0 <= i < |b.forgotten| ==> Occurs(b.forgotten[i], Message(b).value)
  {
    var lines := MessageLines(b);
    var text := Message(b).value;
    forall i | 0 <= i < |b.celebrateToday|
      ensures Occurs(b.celebrateToday[i], text)
    {
      var head := "Today is birthday of ";
      JoinContains(b.celebrateToday, ", ", i);
      OccursInContext(b.celebrateToday[i], head, Join(b.celebrateToday, ", "), "");
      assert head + Join(b.celebrateToday, ", ") + "" == lines[0];
      LineInMessage(b, 0);
      OccursTrans(b.celebrateToday[i], lines[0], text);
    }
    forall i | 0 <= i < |b.forgotten|
      ensures Occurs(b.forgotten[i], text)
    {
      var head := "You forgot about birthdays: \n";
      var j := |lines| - 1;
      JoinContains(b.forgotten, "\n", i);
      OccursInContext(b.forgotten[i], head, Join(b.forgotten, "\n"), "");
      assert head + Join(b.forgotten, "\n") + "" == lines[j];
      LineInMessage(b, j);
      OccursTrans(b.forgotten[i], lines[j], text);
    }
  }

  /** With the configured time after midnight, a pass that gets past the time
      gate runs strictly after local midnight. */
  lemma GateAfterMidnight(now: Instant, tz: TimeZone, tod: TimeOfDay)
    requires NotificationTimeReached(now, tz, tod)
    requires tod.hours * 3600 + tod.minutes * 60 > 0
    ensures now > LocalMidnight(LocalDayOf(now, tz), tz)
  {
  }

  // ---------------------------------------------------------------------
  // Stamping

  /** An id is stamped exactly when it is in the entry of a listed user. */
  lemma {:induction false} StampedIdsMembership(report: Report, users: seq<UserId>, id: BirthdayId)
    ensures id in StampedIds(report, users) <==> exists k :: 0 <= k < |users| && id in Get(report, users[k]).ids
    decreases |users|
  {
    if users != [] {
      var init := users[..|users| - 1];
      StampedIdsMembership(report, init, id);
      if exists k :: 0 <= k < |users| && id in Get(report, users[k]).ids {
        var k :| 0 <= k < |users| && id in Get(report, users[k]).ids;
        if k < |init| {
          assert init[k] == users[k];
        } else {
          var ids := Get(report, users[k]).ids;
          var n :| 0 <= n < |ids| && ids[n] == id;
          assert id in IdSet(ids);
        }
      }
      if id in StampedIds(report, init) {
        var k :| 0 <= k < |init| && id in Get(report, init[k]).ids;
        assert users[k] == init[k];
      }
    }
  }

  /** Once every user of the report is listed, every id of the report is stamped. */
  lemma StampedIdsCoverAll(report: Report, users: seq<UserId>)
    requires forall u :: u in report ==> u in users
    requires forall k :: 0 <= k < |users| ==> users[k] in report
    ensures StampedIds(report, users) == AllIds(report)
  {
    forall id ensures id in StampedIds(report, users) <==> id in AllIds(report) {
      StampedIdsMembership(report, users, id);
      if id in AllIds(report) {
        var u :| u in report && id in report[u].ids;
        var k :| 0 <= k < |users| && users[k] == u;
      }
    }
  }

  lemma StampAllTwice(store: map<BirthdayId, Birthday>, a: set<BirthdayId>, b: set<BirthdayId>, t: Instant)
    ensures StampAll(StampAll(store, a, t), b, t) == StampAll(store, a + b, t)
  {
  }

  /** A reported row's id is among the ids of the report. */
  lemma ReportedRowInAllIds(rows: seq<Birthday>, tz: TimeZone, localDay: Day, row: Birthday)
    requires row in rows
    ensures JudgeRow(row, tz, localDay).IsReported() ==> row.id in AllIds(FindSpec(rows, tz, localDay))
  {
    ReportIdsOfOwner(rows, tz, localDay, row.userId);
    if JudgeRow(row, tz, localDay).IsReported() {
      assert row.id in Get(FindSpec(rows, tz, localDay), row.userId).ids;
    }
  }

  /** Idempotence: once the rows a pass reported are stamped with an instant
      after local midnight, a pass on the same local day over the stamped
      table reports nothing, whatever order the rows come back in. */
  lemma RerunReportsNothing(store: map<BirthdayId, Birthday>, rows: seq<Birthday>, rows2: seq<Birthday>,
                            tz: TimeZone, localDay: Day, now: Instant)
    requires forall id :: id in store ==> IsValidDate(store[id].year, store[id].month, store[id].day)
    requires Enumerates(rows, store)
    requires now > LocalMidnight(localDay, tz)
    requires Enumerates(rows2, StampAll(store, AllIds(FindSpec(rows, tz, localDay)), now))
    ensures FindSpec(rows2, tz, localDay) == map[]
  {
    var report := FindSpec(rows, tz, localDay);
    forall i | 0 <= i < |rows2|
      ensures !JudgeRow(rows2[i], tz, localDay).IsReported()
    {
      var id := rows2[i].id;
      var row0 := store[id];
      ValidDateHasValidMonthDay(row0.year, row0.month, row0.day);
      EnumeratesInRows(rows, store, id);
      ReportedRowInAllIds(rows, tz, localDay, row0);
      if id in AllIds(report) {
        StampedRowNotReported(rows2[i], tz, localDay);
      }
    }
    FindSpecEmptyIff(rows2, tz, localDay);
  }
}
