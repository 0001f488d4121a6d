/** The single-chat bot of src/bot.cpp: its "next birthdays" listing, which
    answers only the configured chat and lists every stored birthday, and the
    reply to messages that are not one of its commands. */
module LegacyBot {
  import opened Wrappers
  import opened Calendar
  import opened Format
  import opened BirthdayModel
  import opened Services
  import opened NextOrder
  import BotComponent

  /** `NextBirthday`: the three columns the listing query reads. */
  datatype NextBirthday = NextBirthday(person: string, m: int, d: int)

  function NextOf(b: Birthday): NextBirthday {
    NextBirthday(b.person, b.month, b.day)
  }

  function MonthDayOfNext(b: NextBirthday): (int, int) {
    (b.m, b.d)
  }

  /** The rows as the query returns them, in the same order. */
  function Listed(rows: seq<Birthday>): seq<NextBirthday> {
    seq(|rows|, i requires 0 <= i < |rows| => NextOf(rows[i]))
  }

  const ListingLimit := 5
  const Header := "Next birthdays:"

  /** The "{} on {:02}.{:02}" line of a listed birthday. */
  function Line(b: NextBirthday): string {
    OnDate(b.person, b.d, b.m)
  }

  function MapSeq<A, B>(f: A -> B, s: seq<A>): seq<B> {
    seq(|s|, i requires 0 <= i < |s| => f(s[i]))
  }

  function Lines(shown: seq<NextBirthday>): seq<string> {
    MapSeq(Line, shown)
  }

  /** The listing: the header, then one line per entry, separated by line
      feeds. */
  function ListingText(shown: seq<NextBirthday>): string {
    Join([Header] + Lines(shown), "\n")
  }

  /** The reply of `GetNextBirthdaysMessage` to `sender` when the bot serves
      `allowed`, the table holds `store` and the clock reads `now`: `rows` is
      what the query returned and `shown` the listed entries. */
  predicate IsListingReply(text: string, sender: ChatId, allowed: ChatId, store: map<BirthdayId, Birthday>,
                           now: Instant, rows: seq<Birthday>, shown: seq<NextBirthday>)
  {
    if sender != allowed then text == "No birthdays for you, sorry" && rows == [] && shown == []
    else
      && Enumerates(rows, store)
      && if rows == [] then text == "There are no birthdays" && shown == []
         else
           var today := FromDay(LocalDayOf(now, BotComponent.ListingZone));
           && |shown| == (if |rows| < ListingLimit then |rows| else ListingLimit)
           && SortedForDay(shown, MonthDayOfNext, today.month, today.day)
           && multiset(shown) <= multiset(Listed(rows))
           && (forall x, y :: x in shown && y in Listed(rows) && y !in shown ==>
                 InOrder(x, y, MonthDayOfNext, today.month, today.day))
           && text == ListingText(shown)
  }

  lemma JoinSnoc(xs: seq<string>, e: string, sep: string)
    requires |xs| > 0
    ensures Join(xs + [e], sep) == Join(xs, sep) + sep + e
  {
    JoinAppend(xs, [e], sep);
  }

  lemma MapSnoc<A, B>(h: B, f: A -> B, s: seq<A>, i: int)
    requires 0 <= i < |s|
    ensures [h] + MapSeq(f, s[..i + 1]) == ([h] + MapSeq(f, s[..i])) + [f(s[i])]
  {
    assert MapSeq(f, s[..i + 1]) == MapSeq(f, s[..i]) + [f(s[i])];
  }

  /** The loop appending "\n{} on {:02}.{:02}" per entry. */
  method BuildListing(shown: seq<NextBirthday>) returns (text: string)
    ensures text == ListingText(shown)
  {
    text := Header;
    var i := 0;
    assert [Header] + Lines(shown[..0]) == [Header];
    while i < |shown|
      invariant 0 <= i <= |shown|
      invariant text == Join([Header] + Lines(shown[..i]), "\n")
    {
      var line := Line(shown[i]);
      MapSnoc(Header, Line, shown, i);
      JoinSnoc([Header] + Lines(shown[..i]), line, "\n");
      text := text + "\n" + line;
      i := i + 1;
    }
    assert shown[..|shown|] == shown;
  }

  /** `GetNextBirthdaysMessage`: a stranger gets a refusal and the table is
      not read; otherwise every stored birthday is fetched, sorted for today
      in Moscow and cut to five. */
  method GetNextBirthdaysMessage(sender: ChatId, allowed: ChatId, storage: Storage, now: Instant)
    returns (text: string, rows: seq<Birthday>, shown: seq<NextBirthday>)
    requires storage.Valid()
    ensures IsListingReply(text, sender, allowed, storage.birthdays, now, rows, shown)
  {
    rows := [];
    shown := [];
    if sender != allowed {
      return "No birthdays for you, sorry", rows, shown;
    }
    rows := storage.FetchAllBirthdays();
    if |rows| == 0 {
      return "There are no birthdays", rows, shown;
    }
    var list := Listed(rows);
    var today := FromDay(LocalDayOf(now, BotComponent.ListingZone));
    shown := SortAndTruncate(list, ListingLimit, MonthDayOfNext, today.month, today.day);
    text := BuildListing(shown);
  }

  // ---------------------------------------------------------------------
  // What the listing says

  lemma JoinStartsWithFirst(xs: seq<string>, sep: string)
    requires |xs| > 0
    ensures xs[0] <= Join(xs, sep)
  {
    if |xs| > 1 {
      assert Join(xs, sep) == xs[0] + (sep + Join(xs[1..], sep));
    }
  }

  lemma HeadAndEach(h: string, lines: seq<string>, sep: string, i: int)
    requires 0 <= i < |lines|
    ensures h <= Join([h] + lines, sep)
    ensures Occurs(lines[i], Join([h] + lines, sep))
  {
    JoinStartsWithFirst([h] + lines, sep);
    assert ([h] + lines)[i + 1] == lines[i];
    JoinContains([h] + lines, sep, i + 1);
  }

  /** The listing opens with its header and holds the line of every listed
      birthday. */
  lemma ListingMentionsEach(shown: seq<NextBirthday>, i: int)
    requires 0 <= i < |shown|
    ensures Header <= ListingText(shown)
    ensures Occurs(OnDate(shown[i].person, shown[i].d, shown[i].m), ListingText(shown))
  {
    HeadAndEach(Header, Lines(shown), "\n", i);
    assert Lines(shown)[i] == Line(shown[i]);
  }

  // ---------------------------------------------------------------------
  // Commands

  /** `bot_commands`. */
  const BotCommands := ["start", "chat_id", "next_birthdays"]

  predicate IsKnownCommand(text: string) {
    exists k :: 0 <= k < |BotCommands| && "/" + BotCommands[k] == text
  }

  /** Only the three bare commands are known: no arguments, no `@botname`
      suffix. */
  lemma KnownCommandsExactly(text: string)
    ensures IsKnownCommand(text) <==> text == "/start" || text == "/chat_id" || text == "/next_birthdays"
  {
    if text == "/start" {
      assert "/" + BotCommands[0] == text;
    } else if text == "/chat_id" {
      assert "/" + BotCommands[1] == text;
    } else if text == "/next_birthdays" {
      assert "/" + BotCommands[2] == text;
    }
  }

  /** What the consumer delivers for the queued texts: each goes to `chat`
      without markup, in queue order. */
  function Deliveries(chat: ChatId, texts: seq<string>): seq<Outgoing> {
    seq(|texts|, i requires 0 <= i < |texts| => Sent(chat, texts[i], None))
  }

  /** What reaches the Bot API for the queued texts: nothing when the chat
      cannot be reached. */
  function Delivered(reachable: bool, chat: ChatId, texts: seq<string>): seq<Outgoing> {
    if reachable then Deliveries(chat, texts) else []
  }

  /** Popping the head of the queue moves it to the delivered texts. */
  lemma PopStep(queued: seq<string>, done: seq<string>, rest: seq<string>, reachable: bool, chat: ChatId)
    requires queued == done + rest && rest != []
    ensures queued == (done + [rest[0]]) + rest[1..]
    ensures Delivered(reachable, chat, done + [rest[0]]) ==
            Delivered(reachable, chat, done) + (if reachable then [Sent(chat, rest[0], None)] else [])
  {
    assert rest == [rest[0]] + rest[1..];
    assert Deliveries(chat, done + [rest[0]]) == Deliveries(chat, done) + [Sent(chat, rest[0], None)];
  }

  class Bot {
    const storage: Storage
    const bot: Transport
    /** `chat_id_`, the one chat the listing and the queued messages are for. */
    const allowedChat: ChatId
    /** The texts waiting in the `MpscQueue`, oldest first. */
    var pending: seq<string>

    constructor(storage: Storage, bot: Transport, allowedChat: ChatId)
      ensures this.storage == storage && this.bot == bot && this.allowedChat == allowedChat
      ensures pending == []
    {
      this.storage := storage;
      this.bot := bot;
      this.allowedChat := allowedChat;
      pending := [];
    }

    /** `Bot::SendMessage`: the producer pushes the text onto the queue and
        returns; nothing is delivered yet. `pushed` says whether the push met
        its sixty-second deadline; when it did not, the producer throws and
        the queue is unchanged. */
    method SendMessage(text: string, pushed: bool) returns (ok: bool)
      modifies this
      ensures ok == pushed
      ensures pending == if pushed then old(pending) + [text] else old(pending)
    {
      ok := pushed;
      if pushed {
        pending := pending + [text];
      }
    }

    /** The consumer task of `Run`: it pops every queued text and sends it to
        the configured chat. A send that throws loses the text it popped (the
        error is only logged), so an unreachable chat receives nothing and
        the queue still ends up empty. */
    method Consume()
      modifies this, bot
      ensures pending == []
      ensures bot.log == old(bot.log) + Delivered(allowedChat !in bot.unreachable, allowedChat, old(pending))
      ensures bot.unreachable == old(bot.unreachable)
    {
      ghost var queued := pending;
      ghost var start := bot.log;
      ghost var reachable := allowedChat !in bot.unreachable;
      ghost var done: seq<string> := [];
      while pending != []
        invariant queued == done + pending
        invariant bot.unreachable == old(bot.unreachable)
        invariant bot.log == start + Delivered(reachable, allowedChat, done)
        decreases |pending|
      {
        PopStep(queued, done, pending, reachable, allowedChat);
        var text := pending[0];
        done := done + [text];
        pending := pending[1..];
        var ok := bot.SendMessage(allowedChat, text, None);
      }
    }

    /** The `start` handler. */
    method OnStart(chat: ChatId) returns (ok: bool)
      modifies bot
      ensures ok <==> chat !in bot.unreachable
      ensures bot.log == if ok then old(bot.log) + [Sent(chat, "Hi!", None)] else old(bot.log)
      ensures bot.unreachable == old(bot.unreachable)
    {
      ok := bot.SendMessage(chat, "Hi!", None);
    }

    /** The `chat_id` handler: the sender's own chat id in decimal. */
    method OnChatId(chat: ChatId) returns (ok: bool)
      modifies bot
      ensures ok <==> chat !in bot.unreachable
      ensures bot.log == if ok then old(bot.log) + [Sent(chat, "Your chat id is " + IntToDecimal(chat as int), None)]
                         else old(bot.log)
      ensures bot.unreachable == old(bot.unreachable)
    {
      ok := bot.SendMessage(chat, "Your chat id is " + IntToDecimal(chat as int), None);
    }

    /** The `next_birthdays` handler: the listing goes back to the sender. */
    method OnNextBirthdays(chat: ChatId, now: Instant) returns (ok: bool, text: string, rows: seq<Birthday>, shown: seq<NextBirthday>)
      requires storage.Valid()
      modifies bot
      ensures IsListingReply(text, chat, allowedChat, storage.birthdays, now, rows, shown)
      ensures ok <==> chat !in bot.unreachable
      ensures bot.log == if ok then old(bot.log) + [Sent(chat, text, None)] else old(bot.log)
      ensures bot.unreachable == old(bot.unreachable)
    {
      text, rows, shown := GetNextBirthdaysMessage(chat, allowedChat, storage, now);
      ok := bot.SendMessage(chat, text, None);
    }

    /** The `onAnyMessage` handler: a text that is not exactly one of the
        commands gets "Unknown command". */
    method OnAnyMessage(chat: ChatId, text: string) returns (unknown: bool)
      modifies bot
      ensures unknown <==> !IsKnownCommand(text)
      ensures bot.log == if unknown && chat !in bot.unreachable then old(bot.log) + [Sent(chat, "Unknown command", None)]
                         else old(bot.log)
      ensures bot.unreachable == old(bot.unreachable)
    {
      var k := 0;
      while k < |BotCommands|
        invariant 0 <= k <= |BotCommands|
        invariant forall l :: 0 <= l < k ==> "/" + BotCommands[l] != text
      {
        if "/" + BotCommands[k] == text {
          return false;
        }
        k := k + 1;
      }
      unknown := true;
      var ok := bot.SendMessage(chat, "Unknown command", None);
    }
  }
}
