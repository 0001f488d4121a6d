/** The chat side of the multi-user bot (src/components/bot/impl/component.cpp):
    the "next birthdays" listing with its edit buttons, the `/add_birthday`
    command, and the inline-button callbacks that edit, delete or cancel. */
module BotComponent {
  import opened Wrappers
  import opened Calendar
  import opened Format
  import opened BirthdayModel
  import opened ButtonModel
  import opened ReplyMarkup
  import opened Services
  import opened NextOrder
  import opened AddCommand

  /** `kNextBirthdaysLimitNew`. */
  const NextBirthdaysLimit := 6

  /** Europe/Moscow, the zone the listing is computed in: UTC+3 all year
      round since 2014. */
  const ListingZone := FixedOffset(3 * 3600)

  /** `MessageWithOptionalKeyboard`. */
  datatype Reply = Reply(text: string, keyboard: Option<Keyboard>)

  function MonthDayOf(b: Birthday): (int, int) {
    (b.month, b.day)
  }

  /** The one-button row of a listed birthday: "person on DD.MM", opening
      its edit menu. */
  function EditRow(b: Birthday): seq<Button> {
    [Button(OnDate(b.person, b.day, b.month), ButtonData(EditBirthday, NextBirthdays, Some(b.id)))]
  }

  function ListingKeyboard(shown: seq<Birthday>): Keyboard {
    seq(|shown|, i requires 0 <= i < |shown| => EditRow(shown[i]))
  }

  /** The reply to `/next_birthdays` for the chat's user (None when the chat
      is not registered), given the rows fetched for that user and the
      entries listed: the user's birthdays in listing order for today in
      Moscow, truncated to the limit, one edit button per entry. */
  predicate IsNextBirthdaysReply(reply: Reply, user: Option<UserId>, store: map<BirthdayId, Birthday>,
                                 now: Instant, rows: seq<Birthday>, shown: seq<Birthday>) {
    if user.None? then reply == Reply("You are not registered yet", None)
    else
      && Enumerates(rows, OwnedBy(store, user.value))
      && if rows == [] then reply == Reply("There are no birthdays", None)
         else
           var today := FromDay(LocalDayOf(now, ListingZone));
           && |shown| == (if |rows| < NextBirthdaysLimit then |rows| else NextBirthdaysLimit)
           && SortedForDay(shown, MonthDayOf, today.month, today.day)
           && multiset(shown) <= multiset(rows)
           && (forall x, y :: x in shown && y in rows && y !in shown ==> InOrder(x, y, MonthDayOf, today.month, today.day))
           && reply == Reply("Next " + IntToDecimal(|shown|) + " birthdays:", Some(ListingKeyboard(shown)))
  }

  /** The loop pushing one button row per listed birthday. */
  method BuildKeyboard(shown: seq<Birthday>) returns (keyboard: Keyboard)
    ensures |keyboard| == |shown|
    ensures forall i :: 0 <= i < |shown| ==> keyboard[i] == EditRow(shown[i])
  {
    keyboard := [];
    var i := 0;
    while i < |shown|
      invariant 0 <= i <= |shown|
      invariant |keyboard| == i
      invariant forall k :: 0 <= k < i ==> keyboard[k] == EditRow(shown[k])
    {
      keyboard := keyboard + [EditRow(shown[i])];
      i := i + 1;
    }
  }

  /** `GetNextBirthdaysMessage`: looks the user up, fetches their birthdays,
      sorts them, keeps the first six and builds one button row per entry. */
  method GetNextBirthdaysMessage(chat: ChatId, storage: Storage, now: Instant)
    returns (reply: Reply, rows: seq<Birthday>, shown: seq<Birthday>)
    requires storage.Valid()
    ensures IsNextBirthdaysReply(reply, storage.FindUser(chat), storage.birthdays, now, rows, shown)
  {
    rows := [];
    shown := [];
    var user := storage.FindUser(chat);
    if user.None? {
      return Reply("You are not registered yet", None), rows, shown;
    }
    rows := storage.FetchBirthdays(user.value);
    if |rows| == 0 {
      return Reply("There are no birthdays", None), rows, shown;
    }
    var today := FromDay(LocalDayOf(now, ListingZone));
    shown := SortAndTruncate(rows, NextBirthdaysLimit, MonthDayOf, today.month, today.day);
    var keyboard := BuildKeyboard(shown);
    assert keyboard == ListingKeyboard(shown);
    reply := Reply("Next " + IntToDecimal(|shown|) + " birthdays:", Some(keyboard));
  }

  // ---------------------------------------------------------------------
  // `/add_birthday`

  /** The longest name `/add_birthday` accepts, in bytes. */
  const MaxNameLength := 128

  /** The checks of `OnAddBirthdayCommand`, in the order the handler runs
      them. */
  datatype AddDecision =
    | NotRegistered
    | Usage
    | InvalidDate
    | NameTooLong
    | Insert(user: UserId, request: AddRequest)

  function DecideAdd(user: Option<UserId>, text: string): AddDecision {
    if user.None? then NotRegistered
    else
      var parsed := ParseAddBirthday(text);
      if parsed.None? then Usage
      else if !IsValidDate(parsed.value.year, parsed.value.month, parsed.value.day) then InvalidDate
      else if |parsed.value.person| > MaxNameLength then NameTooLong
      else Insert(user.value, parsed.value)
  }

  function AddReply(decision: AddDecision): string {
    match decision
    case NotRegistered => "Not registered yet, try to /register"
    case Usage => "Usage: /add_birthday DD.MM[.YYYY] Person Name"
    case InvalidDate => "Invalid date"
    case NameTooLong => "Too long name, provide up to 128 characters please"
    case Insert(_, r) => "Inserted the birthday of " + OnDate(r.person, r.day, r.month)
  }

  /** The row an accepted command inserts under the id `id`. */
  function NewRow(id: BirthdayId, user: UserId, r: AddRequest): Birthday {
    Birthday(id, r.person, r.year, r.month, r.day, true, None, user)
  }

  /** A birthday is inserted exactly when the chat is registered, the text
      matches the command pattern, the date is valid and the name fits. */
  lemma AddInsertsIff(user: Option<UserId>, text: string)
    ensures DecideAdd(user, text).Insert? <==>
              && user.Some?
              && ParseAddBirthday(text).Some?
              && IsValidDate(ParseAddBirthday(text).value.year, ParseAddBirthday(text).value.month, ParseAddBirthday(text).value.day)
              && |ParseAddBirthday(text).value.person| <= MaxNameLength
    ensures DecideAdd(user, text).Insert? ==>
              DecideAdd(user, text) == Insert(user.value, ParseAddBirthday(text).value)
  {
  }

  lemma EchoText(person: string, ds: string, ms: string)
    requires |ds| == 2 && AllDigits(ds) && |ms| == 2 && AllDigits(ms)
    ensures "Inserted the birthday of " + OnDate(person, DigitsValue(ds), DigitsValue(ms)) ==
            "Inserted the birthday of " + person + " on " + ds + "." + ms
  {
    Pad2OfTwoDigits(ds);
    Pad2OfTwoDigits(ms);
  }

  /** The confirmation repeats the day and month exactly as typed. */
  lemma AddEchoesDate(user: UserId, ds: string, ms: string, person: string)
    requires |ds| == 2 && AllDigits(ds) && |ms| == 2 && AllDigits(ms)
    requires NoLineBreak(person) && (person == [] || (!IsSpace(person[0]) && !IsDigit(person[0])))
    requires |person| <= MaxNameLength
    requires IsValidDate(None, DigitsValue(ms), DigitsValue(ds))
    ensures AddReply(DecideAdd(Some(user), Command + " " + ds + "." + ms + " " + person)) ==
            "Inserted the birthday of " + person + " on " + ds + "." + ms
  {
    ParseWithoutYear(ds, ms, person);
    EchoText(person, ds, ms);
  }

  // ---------------------------------------------------------------------
  // Inline buttons

  /** The edit menu of a listed birthday, or "Canceled" without buttons when
      the button carries no birthday id. */
  function EditReply(data: ButtonData): Reply {
    if data.birthdayId.Some? then
      Reply("Select option", Some([
        [Button("Delete", ButtonData(DeleteBirthday, NextBirthdaysEditBirthday, data.birthdayId))],
        [Button("Cancel", ButtonData(Cancel, NextBirthdaysEditBirthday, data.birthdayId))]]))
    else Reply("Canceled", Some([]))
  }

  /** A callback: its id, the message its button belongs to (if Telegram
      sent it) and the button's data. */
  datatype CallbackMessage = CallbackMessage(chat: ChatId, messageId: Int32)
  datatype CallbackQuery = CallbackQuery(id: string, message: Option<CallbackMessage>, data: string)

  /** The button data a callback carries, when it has a message and data
      that decode. */
  function Pressed(q: CallbackQuery): Option<ButtonData> {
    if q.message.None? || q.data == "" then None
    else
      var decoded := FromBase64Serialized(q.data);
      if decoded.Err? then None else Some(decoded.value)
  }

  class Component {
    const storage: Storage
    const bot: Transport

    constructor(storage: Storage, bot: Transport)
      ensures this.storage == storage && this.bot == bot
    {
      this.storage := storage;
      this.bot := bot;
    }

    /** `OnNextBirthdaysCommand`: sends the listing, with its buttons when it
        has any. */
    method OnNextBirthdaysCommand(chat: ChatId, now: Instant)
      returns (reply: Reply, rows: seq<Birthday>, shown: seq<Birthday>, markup: Option<InlineKeyboard>)
      requires storage.Valid()
      modifies bot
      ensures IsNextBirthdaysReply(reply, storage.FindUser(chat), storage.birthdays, now, rows, shown)
      ensures IsMarkupOf(markup, reply.keyboard)
      ensures reply.keyboard.Some? ==> markup.Some?
      ensures bot.log == if chat in bot.unreachable then old(bot.log) else old(bot.log) + [Sent(chat, reply.text, markup)]
      ensures bot.unreachable == old(bot.unreachable)
    {
      reply, rows, shown := GetNextBirthdaysMessage(chat, storage, now);
      markup := MakeReplyMarkup(reply.keyboard);
      var _ := bot.SendMessage(chat, reply.text, markup);
    }

    /** `OnAddBirthdayCommand` with `id` the next value of the table's serial:
        the checks, then the insert, then the confirmation. A failed insert
        throws before anything is sent. */
    method OnAddBirthdayCommand(chat: ChatId, text: string, id: BirthdayId)
      returns (decision: AddDecision, inserted: bool)
      requires storage.Valid()
      modifies storage, bot
      ensures decision == DecideAdd(old(storage.FindUser(chat)), text)
      ensures inserted <==> decision.Insert? && id !in old(storage.birthdays)
      ensures storage.birthdays == if inserted then old(storage.birthdays)[id := NewRow(id, decision.user, decision.request)]
                                   else old(storage.birthdays)
      ensures storage.userOfChat == old(storage.userOfChat) && storage.chatOfUser == old(storage.chatOfUser)
      ensures storage.Valid()
      ensures old(storage.DatesValid()) ==> storage.DatesValid()
      ensures bot.log == if (decision.Insert? && !inserted) || chat in bot.unreachable then old(bot.log)
                         else old(bot.log) + [Sent(chat, AddReply(decision), None)]
      ensures bot.unreachable == old(bot.unreachable)
    {
      decision := DecideAdd(storage.FindUser(chat), text);
      inserted := false;
      if decision.Insert? {
        var r := decision.request;
        inserted := storage.InsertBirthday(id, r.month, r.day, r.year, r.person, decision.user);
        if !inserted {
          return;
        }
      }
      var _ := bot.SendMessage(chat, AddReply(decision), None);
    }

    /** `OnEditBirthdayButton`: replaces the listing message with the edit
        menu. Returns whether the edit went through. */
    method OnEditBirthdayButton(chat: ChatId, messageId: Int32, data: ButtonData) returns (ok: bool, markup: Option<InlineKeyboard>)
      modifies bot
      ensures IsMarkupOf(markup, EditReply(data).keyboard)
      ensures markup.Some? <==> data.birthdayId.Some?
      ensures ok <==> chat !in bot.unreachable
      ensures bot.log == if ok then old(bot.log) + [Edited(chat, messageId, EditReply(data).text, markup)] else old(bot.log)
      ensures bot.unreachable == old(bot.unreachable)
    {
      var reply := EditReply(data);
      markup := MakeReplyMarkup(reply.keyboard);
      ok := bot.EditMessageText(chat, messageId, reply.text, markup);
    }

    /** `OnDeleteBirthdayButton`: deletes the birthday only when the button
        names one, the chat is registered and its user owns it; the message
        then reads "Deleted", and "Canceled" on every other path. */
    method OnDeleteBirthdayButton(chat: ChatId, messageId: Int32, data: ButtonData) returns (deleted: bool, ok: bool)
      requires storage.Valid()
      modifies storage, bot
      ensures deleted <==>
                && data.birthdayId.Some?
                && old(storage.FindUser(chat)).Some?
                && old(storage.IsOwnerOfBirthday(storage.FindUser(chat).value, data.birthdayId.value))
      ensures storage.birthdays == if deleted then old(storage.birthdays) - {data.birthdayId.value} else old(storage.birthdays)
      ensures storage.userOfChat == old(storage.userOfChat) && storage.chatOfUser == old(storage.chatOfUser)
      ensures storage.Valid()
      ensures old(storage.DatesValid()) ==> storage.DatesValid()
      ensures ok <==> chat !in bot.unreachable
      ensures bot.log == if ok then old(bot.log) + [Edited(chat, messageId, if deleted then "Deleted" else "Canceled", None)]
                         else old(bot.log)
      ensures bot.unreachable == old(bot.unreachable)
    {
      deleted := false;
      if data.birthdayId.None? {
        ok := bot.EditMessageText(chat, messageId, "Canceled", None);
        return;
      }
      var user := storage.FindUser(chat);
      if user.None? {
        ok := bot.EditMessageText(chat, messageId, "Canceled", None);
        return;
      }
      if !storage.IsOwnerOfBirthday(user.value, data.birthdayId.value) {
        ok := bot.EditMessageText(chat, messageId, "Canceled", None);
        return;
      }
      storage.DeleteBirthday(data.birthdayId.value);
      deleted := true;
      ok := bot.EditMessageText(chat, messageId, "Deleted", None);
    }

    /** `OnCancelButton`. */
    method OnCancelButton(chat: ChatId, messageId: Int32) returns (ok: bool)
      modifies bot
      ensures ok <==> chat !in bot.unreachable
      ensures bot.log == if ok then old(bot.log) + [Edited(chat, messageId, "Canceled", None)] else old(bot.log)
      ensures bot.unreachable == old(bot.unreachable)
    {
      ok := bot.EditMessageText(chat, messageId, "Canceled", None);
    }

    /** The Delete button removes its birthday: it names one, the chat is
        registered and that user owns it. */
    predicate MayDelete(chat: ChatId, data: ButtonData)
      reads storage
      requires storage.Valid()
    {
      && data.birthdayId.Some?
      && storage.FindUser(chat).Some?
      && storage.IsOwnerOfBirthday(storage.FindUser(chat).value, data.birthdayId.value)
    }

    /** `OnCallbackQuery`: dispatches on the decoded button type (a type
        outside the enumeration matches no case), swallows whatever the
        decoding or the handler throws, and always answers the query. `edit`
        is the message edit the handler made, if any. */
    method OnCallbackQuery(q: CallbackQuery) returns (handled: Option<ButtonData>, edit: Option<Outgoing>)
      requires storage.Valid()
      modifies storage, bot
      ensures handled == Pressed(q)
      ensures bot.log == old(bot.log) + (if edit.Some? then [edit.value] else []) + [Answered(q.id)]
      ensures edit.Some? <==>
                && handled.Some?
                && handled.value.buttonType in {EditBirthday, DeleteBirthday, Cancel}
                && q.message.value.chat !in bot.unreachable
      ensures edit.Some? && handled.value.buttonType == EditBirthday ==>
                && edit.value.Edited?
                && edit.value.chat == q.message.value.chat && edit.value.messageId == q.message.value.messageId
                && edit.value.text == EditReply(handled.value).text
                && IsMarkupOf(edit.value.markup, EditReply(handled.value).keyboard)
      ensures edit.Some? && handled.value.buttonType == DeleteBirthday ==>
                edit.value == Edited(q.message.value.chat, q.message.value.messageId,
                                     if old(MayDelete(q.message.value.chat, handled.value)) then "Deleted" else "Canceled", None)
      ensures edit.Some? && handled.value.buttonType == Cancel ==>
                edit.value == Edited(q.message.value.chat, q.message.value.messageId, "Canceled", None)
      ensures storage.birthdays ==
                if handled.Some? && handled.value.buttonType == DeleteBirthday
                   && old(MayDelete(q.message.value.chat, handled.value))
                then old(storage.birthdays) - {handled.value.birthdayId.value}
                else old(storage.birthdays)
      ensures storage.userOfChat == old(storage.userOfChat) && storage.chatOfUser == old(storage.chatOfUser)
      ensures storage.Valid()
      ensures old(storage.DatesValid()) ==> storage.DatesValid()
      ensures bot.unreachable == old(bot.unreachable)
    {
      handled := Pressed(q);
      edit := None;
      if handled.Some? {
        var chat := q.message.value.chat;
        var messageId := q.message.value.messageId;
        var data := handled.value;
        if data.buttonType == EditBirthday {
          var ok, markup := OnEditBirthdayButton(chat, messageId, data);
          if ok {
            edit := Some(Edited(chat, messageId, EditReply(data).text, markup));
          }
        } else if data.buttonType == DeleteBirthday {
          var deleted, ok := OnDeleteBirthdayButton(chat, messageId, data);
          if ok {
            edit := Some(Edited(chat, messageId, if deleted then "Deleted" else "Canceled", None));
          }
        } else if data.buttonType == Cancel {
          var ok := OnCancelButton(chat, messageId);
          if ok {
            edit := Some(Edited(chat, messageId, "Canceled", None));
          }
        }
      }
      bot.AnswerCallbackQuery(q.id);
    }
  }
}
