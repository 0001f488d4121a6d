/** The two services the bot talks to, reduced to their state: the database
    (the `birthday.birthdays` and `birthday.users` tables behind src/db/) and the
    Telegram Bot API (the messages the bot has delivered). */
module Services {
  import opened Wrappers
  import opened Calendar
  import opened BirthdayModel
  import opened ButtonModel
  import opened ReplyMarkup

  /** Every key of m exactly once, in some order (a `SELECT` without `ORDER BY`). */
  predicate EnumeratesKeys<T>(keys: seq<BirthdayId>, m: map<BirthdayId, T>) {
    && (forall i :: 0 <= i < |keys| ==> keys[i] in m)
    && (forall i, j :: 0 <= i < j < |keys| ==> keys[i] != keys[j])
    && (forall id :: id in m ==> id in keys)
  }

  /** The rows of a result set listing the records of m, each once. */
  predicate Enumerates(rows: seq<Birthday>, m: map<BirthdayId, Birthday>) {
    && (forall i :: 0 <= i < |rows| ==> rows[i].id in m && m[rows[i].id] == rows[i])
    && (forall i, j :: 0 <= i < j < |rows| ==> rows[i].id != rows[j].id)
    && (forall id :: id in m ==> exists i :: 0 <= i < |rows| && rows[i].id == id)
  }

  /** Lists the keys of a table in an order the model leaves open. */
  method EnumerateKeys<T>(m: map<BirthdayId, T>) returns (keys: seq<BirthdayId>)
    ensures EnumeratesKeys(keys, m)
  {
    keys := [];
    var remaining := m.Keys;
    while remaining != {}
      invariant remaining <= m.Keys
      invariant forall i :: 0 <= i < |keys| ==> keys[i] in m && keys[i] !in remaining
      invariant forall i, j :: 0 <= i < j < |keys| ==> keys[i] != keys[j]
      invariant forall id :: id in m ==> id in remaining || id in keys
      decreases remaining
    {
      var id :| id in remaining;
      keys := keys + [id];
      remaining := remaining - {id};
    }
  }

  /** The store after `UPDATE ... SET last_notification_time = t` for every id
      in ids; ids with no row change nothing. */
  function StampAll(store: map<BirthdayId, Birthday>, ids: set<BirthdayId>, t: Instant): (r: map<BirthdayId, Birthday>)
    ensures r.Keys == store.Keys
  {
    map id | id in store :: if id in ids then store[id].(lastNotificationTime := Some(t)) else store[id]
  }

  /** The database. */
  class Storage {
    /** `birthday.birthdays`, keyed by id. */
    var birthdays: map<BirthdayId, Birthday>
    /** `birthday.users`, looked up by chat id ... */
    var userOfChat: map<ChatId, UserId>
    /** ... and by user id. */
    var chatOfUser: map<UserId, ChatId>

    /** Each row is stored under its own id, and the two views of the users
        table agree (chat ids are unique). */
    predicate Valid()
      reads this
    {
      && (forall id :: id in birthdays ==> birthdays[id].id == id)
      && (forall c :: c in userOfChat ==> userOfChat[c] in chatOfUser && chatOfUser[userOfChat[c]] == c)
      && (forall u :: u in chatOfUser ==> chatOfUser[u] in userOfChat && userOfChat[chatOfUser[u]] == u)
    }

    /** Every stored date passed `IsValidDate`, as the add command ensures. */
    predicate DatesValid()
      reads this
    {
      forall id :: id in birthdays ==> IsValidDate(birthdays[id].year, birthdays[id].month, birthdays[id].day)
    }

    /** A database with the given registered users and no birthdays. */
    constructor(byChat: map<ChatId, UserId>, byUser: map<UserId, ChatId>)
      requires forall c :: c in byChat ==> byChat[c] in byUser && byUser[byChat[c]] == c
      requires forall u :: u in byUser ==> byUser[u] in byChat && byChat[byUser[u]] == u
      ensures Valid() && DatesValid()
      ensures birthdays == map[] && userOfChat == byChat && chatOfUser == byUser
    {
      birthdays := map[];
      userOfChat := byChat;
      chatOfUser := byUser;
    }

    /** `db::FindUser`: the user registered with the chat, if any. */
    function FindUser(chat: ChatId): (r: Option<UserId>)
      reads this
      requires Valid()
      ensures r.Some? ==> r.value in chatOfUser && chatOfUser[r.value] == chat
      ensures r.None? ==> forall u :: u in chatOfUser ==> chatOfUser[u] != chat
    {
      if chat in userOfChat then Some(userOfChat[chat]) else None
    }

    /** `db::GetChatId`: fails (the single-row read throws) for an unknown user. */
    function GetChatId(user: UserId): (r: Result<ChatId>)
      reads this
      requires Valid()
      ensures r.Ok? <==> user in chatOfUser
      ensures r.Ok? ==> FindUser(r.value) == Some(user)
    {
      if user in chatOfUser then Ok(chatOfUser[user]) else Err("no user with this id")
    }

    /** `db::IsOwnerOfBirthday`. */
    predicate IsOwnerOfBirthday(user: UserId, id: BirthdayId)
      reads this
    {
      id in birthdays && birthdays[id].userId == user
    }

    /** `db::FetchAllBirthdays`. */
    method FetchAllBirthdays() returns (rows: seq<Birthday>)
      requires Valid()
      ensures Enumerates(rows, birthdays)
    {
      var store := birthdays;
      var keys := EnumerateKeys(store);
      rows := seq(|keys|, i requires 0 <= i < |keys| => store[keys[i]]);
      forall id | id in store
        ensures exists i :: 0 <= i < |rows| && rows[i].id == id
      {
        var i :| 0 <= i < |keys| && keys[i] == id;
        assert rows[i].id == id;
      }
    }

    /** `db::FetchBirthdays(user_id)`: the user's rows. */
    method FetchBirthdays(user: UserId) returns (rows: seq<Birthday>)
      requires Valid()
      ensures Enumerates(rows, OwnedBy(birthdays, user))
    {
      var owned := OwnedBy(birthdays, user);
      var keys := EnumerateKeys(owned);
      rows := seq(|keys|, i requires 0 <= i < |keys| => owned[keys[i]]);
      forall id | id in owned
        ensures exists i :: 0 <= i < |rows| && rows[i].id == id
      {
        var i :| 0 <= i < |keys| && keys[i] == id;
        assert rows[i].id == id;
      }
    }

    /** `db::UpdateBirthdayLastNotificationTime`. */
    method Stamp(id: BirthdayId, t: Instant)
      modifies this
      ensures birthdays == StampAll(old(birthdays), {id}, t)
      ensures userOfChat == old(userOfChat) && chatOfUser == old(chatOfUser)
    {
      if id in birthdays {
        birthdays := birthdays[id := birthdays[id].(lastNotificationTime := Some(t))];
      }
    }

    /** The stamping loop: one UPDATE per id, all with the same instant. */
    method StampEach(ids: seq<BirthdayId>, t: Instant)
      modifies this
      ensures birthdays == StampAll(old(birthdays), set i | 0 <= i < |ids| :: ids[i], t)
      ensures userOfChat == old(userOfChat) && chatOfUser == old(chatOfUser)
    {
      var k := 0;
      while k < |ids|
        invariant 0 <= k <= |ids|
        invariant birthdays == StampAll(old(birthdays), set i | 0 <= i < k :: ids[i], t)
        invariant userOfChat == old(userOfChat) && chatOfUser == old(chatOfUser)
      {
        Stamp(ids[k], t);
        k := k + 1;
      }
    }

    /** `db::InsertBirthday`: a new enabled, never-notified row under the id
        the table's serial hands out; a taken id violates the primary key and
        inserts nothing. */
    method InsertBirthday(id: BirthdayId, m: int, d: int, y: Option<int>, person: string, user: UserId)
      returns (ok: bool)
      modifies this
      ensures ok <==> id !in old(birthdays)
      ensures birthdays == if ok then old(birthdays)[id := Birthday(id, person, y, m, d, true, None, user)]
                           else old(birthdays)
      ensures userOfChat == old(userOfChat) && chatOfUser == old(chatOfUser)
    {
      ok := id !in birthdays;
      if ok {
        birthdays := birthdays[id := Birthday(id, person, y, m, d, true, None, user)];
      }
    }

    /** `db::DeleteBirthday`. */
    method DeleteBirthday(id: BirthdayId)
      modifies this
      ensures birthdays == old(birthdays) - {id}
      ensures userOfChat == old(userOfChat) && chatOfUser == old(chatOfUser)
    {
      birthdays := birthdays - {id};
    }
  }

  function OwnedBy(store: map<BirthdayId, Birthday>, user: UserId): map<BirthdayId, Birthday> {
    map id | id in store && store[id].userId == user :: store[id]
  }

  // ---------------------------------------------------------------------

  /** A request the Bot API accepted. */
  datatype Outgoing =
    | Sent(chat: ChatId, text: string, markup: Option<InlineKeyboard>)
    | Edited(chat: ChatId, messageId: Int32, text: string, markup: Option<InlineKeyboard>)
    | Answered(callbackId: string)

  /** The Telegram Bot API as seen by the bot: the requests it accepted, in
      order, and the chats it cannot reach (a request to them fails, which the
      client reports by throwing). */
  class Transport {
    var log: seq<Outgoing>
    var unreachable: set<ChatId>

    constructor(unreachable: set<ChatId>)
      ensures log == [] && this.unreachable == unreachable
    {
      log := [];
      this.unreachable := unreachable;
    }

    /** `sendMessage`. */
    method SendMessage(chat: ChatId, text: string, markup: Option<InlineKeyboard>) returns (ok: bool)
      modifies this
      ensures ok <==> chat !in unreachable
      ensures log == if ok then old(log) + [Sent(chat, text, markup)] else old(log)
      ensures unreachable == old(unreachable)
    {
      ok := chat !in unreachable;
      if ok {
        log := log + [Sent(chat, text, markup)];
      }
    }

    /** `editMessageText`. */
    method EditMessageText(chat: ChatId, messageId: Int32, text: string, markup: Option<InlineKeyboard>)
      returns (ok: bool)
      modifies this
      ensures ok <==> chat !in unreachable
      ensures log == if ok then old(log) + [Edited(chat, messageId, text, markup)] else old(log)
      ensures unreachable == old(unreachable)
    {
      ok := chat !in unreachable;
      if ok {
        log := log + [Edited(chat, messageId, text, markup)];
      }
    }

    /** `answerCallbackQuery`. */
    method AnswerCallbackQuery(callbackId: string)
      modifies this
      ensures log == old(log) + [Answered(callbackId)]
      ensures unreachable == old(unreachable)
    {
      log := log + [Answered(callbackId)];
    }
  }

  // ---------------------------------------------------------------------

  /** Keys of an enumeration stand for their records. */
  lemma EnumeratesInRows(rows: seq<Birthday>, m: map<BirthdayId, Birthday>, id: BirthdayId)
    requires Enumerates(rows, m)
    requires id in m
    ensures m[id] in rows
  {
    var i :| 0 <= i < |rows| && rows[i].id == id;
  }

  /** Stamping keeps every row's id, person, date, flag and owner. */
  lemma StampAllKeepsRows(store: map<BirthdayId, Birthday>, ids: set<BirthdayId>, t: Instant, id: BirthdayId)
    requires id in store
    ensures var r := StampAll(store, ids, t)[id];
            r == store[id].(lastNotificationTime := r.lastNotificationTime)
    ensures StampAll(store, ids, t)[id].lastNotificationTime ==
            if id in ids then Some(t) else store[id].lastNotificationTime
  {
  }
}
