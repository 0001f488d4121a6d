/** The single-recipient notificator (src/birthday_notificator.cpp): the
    older matcher, which collects every reported row into one
    `BirthdaysToNotify`, and the pass that queues one message for the bot's
    configured chat and then stamps the reported rows. */
module LegacyNotificator {
  import opened Wrappers
  import opened Calendar
  import opened Format
  import opened BirthdayModel
  import opened Matching
  import opened Services
  import Notificator
  import LegacyBot

  /** The (i+1)-th row pushes its verdict onto what the first i rows
      collected. */
  lemma CollectStep(rows: seq<Birthday>, i: int, tz: TimeZone, localDay: Day)
    requires 0 <= i < |rows|
    ensures Collect(rows[..i + 1], tz, localDay) ==
            Push(Collect(rows[..i], tz, localDay), rows[i].id, rows[i].person,
                 OnDate(rows[i].person, rows[i].day, rows[i].month), JudgeRow(rows[i], tz, localDay))
  {
    assert rows[..i + 1] == rows[..i] + [rows[i]];
    CollectSnoc(rows[..i], rows[i], tz, localDay);
  }

  /** `impl::FindBirthdaysToNotify`. The rows of this version carry no owner;
      the model's rows have one, and this matcher ignores it. */
  method FindBirthdaysToNotify(rows: seq<Birthday>, tz: TimeZone, localDay: Day) returns (result: BirthdaysToNotify)
    ensures result == Collect(rows, tz, localDay)
  {
    var farthestForgottenDay := localDay - ForgottenSearchDistance;
    result := NothingToNotify;
    var i := 0;
    while i < |rows|
      invariant 0 <= i <= |rows|
      invariant result == Collect(rows[..i], tz, localDay)
    {
      var row := rows[i];
      CollectStep(rows, i, tz, localDay);
      i := i + 1;
      if !row.notificationEnabled {
        continue;
      }
      var birthday := DayOf(OccurrenceYear(row.month, row.day, localDay), row.month, row.day);
      if birthday < farthestForgottenDay {
        continue;
      }
      if row.lastNotificationTime.Some? && row.lastNotificationTime.value > LocalMidnight(birthday, tz) {
        continue;
      }
      if birthday == localDay {
        result := result.(ids := result.ids + [row.id], celebrateToday := result.celebrateToday + [row.person]);
      } else {
        result := result.(ids := result.ids + [row.id], forgotten := result.forgotten + [OnDate(row.person, row.day, row.month)]);
      }
    }
    assert rows[..|rows|] == rows;
  }

  datatype Outcome =
    | NotYetTime     // the configured time of day has not come yet
    | NothingToSend  // no line to send: nothing is queued and nothing stamped
    | Notified       // the message was queued and the reported rows were stamped
    | Failed         // the push onto the queue timed out and threw; nothing was stamped

  class BirthdayNotificator {
    const storage: Storage
    /** The bot component; its own configured chat receives the message. */
    const bot: LegacyBot.Bot
    const timezone: TimeZone
    const timeOfDay: Notificator.TimeOfDay

    constructor(storage: Storage, bot: LegacyBot.Bot, timezone: TimeZone, timeOfDay: Notificator.TimeOfDay)
      ensures this.storage == storage && this.bot == bot
      ensures this.timezone == timezone && this.timeOfDay == timeOfDay
    {
      this.storage := storage;
      this.bot := bot;
      this.timezone := timezone;
      this.timeOfDay := timeOfDay;
    }

    /** The tail of `RunIteration` once the rows are matched: without a line
        nothing happens; otherwise the message is queued and, when the push
        succeeds, every reported row is stamped with `now`. */
    method QueueAndStamp(found: BirthdaysToNotify, now: Instant, pushed: bool) returns (outcome: Outcome)
      requires storage.Valid()
      modifies storage, bot
      ensures storage.Valid()
      ensures storage.userOfChat == old(storage.userOfChat) && storage.chatOfUser == old(storage.chatOfUser)
      ensures outcome != NotYetTime
      ensures outcome == NothingToSend <==> Notificator.Message(found).None?
      ensures outcome == Failed <==> Notificator.Message(found).Some? && !pushed
      ensures storage.birthdays == if outcome == Notified then StampAll(old(storage.birthdays), Notificator.IdSet(found.ids), now)
                                   else old(storage.birthdays)
      ensures bot.pending == if outcome == Notified then old(bot.pending) + [Notificator.Message(found).value]
                             else old(bot.pending)
      ensures bot.bot.log == old(bot.bot.log) && bot.bot.unreachable == old(bot.bot.unreachable)
    {
      var text := Notificator.Message(found);
      if text.None? {
        return NothingToSend;
      }
      var ok := bot.SendMessage(text.value, pushed);
      if !ok {
        return Failed;
      }
      storage.StampEach(found.ids, now);
      outcome := Notified;
    }

    /** `RunIteration` at instant `now`: before the configured time nothing
        happens; otherwise every row is fetched and matched, and when there is
        something to say the message is queued and every reported row is
        stamped with `now`. Delivery happens later and does not affect the
        stamps; `pushed` is whether the push met its deadline. */
    method RunIteration(now: Instant, pushed: bool) returns (outcome: Outcome, rows: seq<Birthday>, found: BirthdaysToNotify)
      requires storage.Valid()
      modifies storage, bot
      ensures storage.Valid()
      ensures storage.userOfChat == old(storage.userOfChat) && storage.chatOfUser == old(storage.chatOfUser)
      ensures outcome == NotYetTime <==> !Notificator.NotificationTimeReached(now, timezone, timeOfDay)
      ensures outcome != NotYetTime ==>
                && Enumerates(rows, old(storage.birthdays))
                && found == Collect(rows, timezone, LocalDayOf(now, timezone))
      ensures outcome == NothingToSend <==> outcome != NotYetTime && Notificator.Message(found).None?
      ensures outcome == Failed <==> outcome != NotYetTime && Notificator.Message(found).Some? && !pushed
      ensures storage.birthdays == if outcome == Notified then StampAll(old(storage.birthdays), Notificator.IdSet(found.ids), now)
                                   else old(storage.birthdays)
      ensures bot.pending == if outcome == Notified then old(bot.pending) + [Notificator.Message(found).value]
                             else old(bot.pending)
      ensures bot.bot.log == old(bot.bot.log) && bot.bot.unreachable == old(bot.bot.unreachable)
    {
      rows := [];
      found := NothingToNotify;
      if !Notificator.NotificationTimeReached(now, timezone, timeOfDay) {
        return NotYetTime, rows, found;
      }
      rows := storage.FetchAllBirthdays();
      found := FindBirthdaysToNotify(rows, timezone, LocalDayOf(now, timezone));
      outcome := QueueAndStamp(found, now, pushed);
    }
  }

  /** A pass followed by the consumer draining the queue: the rows are stamped
      whenever the message was queued, whether or not the configured chat can
      be reached; an unreachable chat simply never gets the message. */
  method IterationThenDelivery(n: BirthdayNotificator, now: Instant, pushed: bool)
    returns (outcome: Outcome, rows: seq<Birthday>, found: BirthdaysToNotify)
    requires n.storage.Valid()
    modifies n.storage, n.bot, n.bot.bot
    ensures outcome == Notified <==> Notificator.NotificationTimeReached(now, n.timezone, n.timeOfDay) &&
                                     Notificator.Message(found).Some? && pushed
    ensures n.storage.birthdays == if outcome == Notified then StampAll(old(n.storage.birthdays), Notificator.IdSet(found.ids), now)
                                   else old(n.storage.birthdays)
    ensures n.bot.pending == []
    ensures n.bot.bot.log ==
            old(n.bot.bot.log) +
            LegacyBot.Delivered(n.bot.allowedChat !in n.bot.bot.unreachable, n.bot.allowedChat,
                                old(n.bot.pending) + (if outcome == Notified then [Notificator.Message(found).value] else []))
  {
    outcome, rows, found := n.RunIteration(now, pushed);
    n.bot.Consume();
  }

  // ---------------------------------------------------------------------
  // The two matchers agree

  /** All rows belong to u. */
  predicate OwnedByOne(rows: seq<Birthday>, u: UserId) {
    forall i :: 0 <= i < |rows| ==> rows[i].userId == u
  }

  lemma {:induction false} RowsOfSingleOwner(rows: seq<Birthday>, u: UserId)
    requires OwnedByOne(rows, u)
    ensures Notificator.RowsOf(rows, u) == rows
    decreases |rows|
  {
    if rows != [] {
      var init := rows[..|rows| - 1];
      assert OwnedByOne(init, u);
      RowsOfSingleOwner(init, u);
      assert rows == init + [rows[|rows| - 1]];
    }
  }

  /** A map whose only key is k is the one-entry map at k. */
  lemma OnlyKey<K, V>(m: map<K, V>, k: K)
    requires forall x :: x in m ==> x == k
    ensures k in m ==> m == map[k := m[k]]
    ensures k !in m ==> m == map[]
  {
  }

  /** No other user has an entry in the report of a single owner's rows. */
  lemma OthersAbsent(rows: seq<Birthday>, tz: TimeZone, localDay: Day, u: UserId, v: UserId)
    requires OwnedByOne(rows, u)
    requires v != u
    ensures v !in Notificator.FindSpec(rows, tz, localDay)
  {
    Notificator.FindSpecPerUser(rows, tz, localDay, v);
    var owned := Notificator.RowsOf(rows, v);
    if |owned| > 0 {
      assert false;
    }
  }

  /** On the rows of a single owner the per-user matcher yields the result of
      the single-recipient matcher under that owner's key, and no key at all
      when nothing is reported. */
  lemma SingleOwnerReport(rows: seq<Birthday>, tz: TimeZone, localDay: Day, u: UserId)
    requires OwnedByOne(rows, u)
    ensures Notificator.FindSpec(rows, tz, localDay) ==
            if Collect(rows, tz, localDay) == NothingToNotify then map[] else map[u := Collect(rows, tz, localDay)]
  {
    var report := Notificator.FindSpec(rows, tz, localDay);
    Notificator.FindSpecPerUser(rows, tz, localDay, u);
    RowsOfSingleOwner(rows, u);
    CollectEmptyIff(rows, tz, localDay);
    forall v | v in report
      ensures v == u
    {
      if v != u {
        OthersAbsent(rows, tz, localDay, u, v);
      }
    }
    OnlyKey(report, u);
  }

  // ---------------------------------------------------------------------
  // Running twice

  /** Idempotence: once the rows a pass collected are stamped with an instant
      after local midnight, a pass on the same local day over the stamped
      table collects nothing, so it sends nothing. */
  lemma RerunCollectsNothing(store: map<BirthdayId, Birthday>, rows: seq<Birthday>, rows2: seq<Birthday>,
                             tz: TimeZone, localDay: Day, now: Instant)
    requires forall id :: id in store ==> IsValidDate(store[id].year, store[id].month, store[id].day)
    requires Enumerates(rows, store)
    requires now > LocalMidnight(localDay, tz)
    requires Enumerates(rows2, StampAll(store, Notificator.IdSet(Collect(rows, tz, localDay).ids), now))
    ensures Collect(rows2, tz, localDay) == NothingToNotify
    ensures Notificator.Message(Collect(rows2, tz, localDay)).None?
  {
    var found := Collect(rows, tz, localDay);
    forall i | 0 <= i < |rows2|
      ensures !JudgeRow(rows2[i], tz, localDay).IsReported()
    {
      var id := rows2[i].id;
      var row0 := store[id];
      ValidDateHasValidMonthDay(row0.year, row0.month, row0.day);
      EnumeratesInRows(rows, store, id);
      if JudgeRow(row0, tz, localDay).IsReported() {
        CollectHasRow(rows, tz, localDay, row0);
        var k :| 0 <= k < |found.ids| && found.ids[k] == id;
        assert id in Notificator.IdSet(found.ids);
        StampedRowNotReported(rows2[i], tz, localDay);
      } else if id in Notificator.IdSet(found.ids) {
        StampedRowNotReported(rows2[i], tz, localDay);
      }
    }
    CollectEmptyIff(rows2, tz, localDay);
  }
}
