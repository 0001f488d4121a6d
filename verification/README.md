# Birthday notificator — a Dafny model

This project models the core of the birthday-notificator Telegram bot. Users
register their chat and store birthdays (a person's name, a day and month,
optionally a year).

- Once a day, after a configured local time of day, a background pass sends
  each user one message. The message names the people whose birthday is today
  and lists, as forgotten, the birthdays of the last three days that were not
  announced yet.
- After sending, the pass stamps every reported row with the current instant,
  so a later pass on the same day reports nothing again.
- In the chat, `/next_birthdays` lists the user's next birthdays. The list is
  ordered from today through the end of the year, then wrapping around, and
  each entry carries an inline "edit" button.
- `/add_birthday DD.MM[.YYYY] Name` stores a birthday.
- The inline buttons lead to a delete/cancel menu. Their callback data is a
  serialised `ButtonData`.

Two generations of the bot are modelled:
- the multi-user one, src/components/...;
- the older single-chat one, src/bot.cpp and src/birthday_notificator.cpp. It
  queues every notification for one configured chat, which a consumer task
  later delivers, and answers the listing command only for that chat.

The modules, one per concern:

| file | module | models |
|---|---|---|
| calendar.dfy | Calendar | the part of cctz the bot uses: proleptic Gregorian civil days, the normalising `civil_day(civil_month(y) + m - 1) + d - 1` constructor and its inverse, local day and local midnight in a fixed-offset zone |
| birthday.dfy | BirthdayModel | the birthday row and `models::IsValidDate` |
| format.dfy | Format | fmt's `{}`, `{:02}`, `fmt::join` and `std::stoi` on digit strings |
| matching.dfy | Matching | the per-row rule of `impl::FindBirthdaysToNotify` (skip disabled, compute the last occurrence, skip older than three days, skip already notified, celebrate today or file as forgotten) and the row-order collection into one `BirthdaysToNotify` |
| notificator.dfy | Notificator | the per-user matcher and `RunIteration` of src/components/birthday_notificator.cpp |
| notificator_tests.dfy | NotificatorTests | the unit scenarios of src/components/birthday_notificator_test.cpp, for any year and any fixed-offset zone |
| legacy_notificator.dfy | LegacyNotificator | the single-recipient matcher and `RunIteration` of src/birthday_notificator.cpp, and how they relate to the per-user ones |
| legacy_notificator_tests.dfy | LegacyNotificatorTests | the unit scenarios of src/birthday_notificator_test.cpp |
| services.dfy | Services | the database (birthdays and users tables) and the Bot API, as classes holding their state |
| button.dfy | ButtonModel | `Button`, `SerializedButton` and `ButtonData` serialisation, with a stand-in wire format |
| reply_markup.dfy | ReplyMarkup | `MakeReplyMarkup` |
| next_order.dfy | NextOrder | the "next birthdays" order shared by both bots, as an in-place sort, and truncation |
| add_command.dfy | AddCommand | the `/add_birthday` pattern as a scanner |
| bot_component.dfy | BotComponent | the chat handlers of src/components/bot/impl/component.cpp |
| legacy_bot.dfy | LegacyBot | the listing and the unknown-command reply of src/bot.cpp |

Where the code modifies state, the model has classes:
- `Storage` and `Transport`;
- the two notificators;
- the bot component and the legacy bot.

Their methods carry `modifies` clauses and state the new state in terms of
specification functions. The matchers, the message texts, the calendar and
the serialisation are pure functions with lemmas.

The source of the database layer in this repository is an older revision of
src/db/birthdays.cpp. Its `FetchBirthdays` takes no user, and
`InsertBirthday` takes no owner. The component calls a per-user
`FetchBirthdays(user)`, an `InsertBirthday(..., user)` and
`IsOwnerOfBirthday(user, id)`, none of which exists in that file. The model
follows the calls the component makes.

## Model

| member | source | states |
|---|---|---|
| Calendar.DaysInMonth | src/models/birthday.cpp:17-24 | a month has 28 to 31 days, 29 exactly for February of a leap year, and as many as the cumulative month table puts between its first day and the next month's |
| Calendar.DayOfMonotone | src/components/birthday_notificator.cpp:193-196 | the day numbering strictly increases with the date, so comparing day numbers compares dates |
| Calendar.DayOfInjective | src/components/birthday_notificator.cpp:210 | distinct valid dates get distinct day numbers, so `birthday == local_day` is equality of dates |
| Calendar.FromDay | src/components/birthday_notificator.cpp:186-190 | the civil date read back from a day number is a valid date with that day number |
| Calendar.FromDayOfValid | src/components/birthday_notificator.cpp:186-195 | reading a valid date back from its day number gives the same date |
| Calendar.LocalDayOf | src/components/birthday_notificator.cpp:113-114 | an instant lies between the local midnight of its local day and the next one |
| Calendar.LocalSecondOfDay | src/components/birthday_notificator.cpp:113-126 | the local time of day is between 0 and 86399 seconds past local midnight, and adding it to midnight gives the instant back |
| Calendar.LocalMidnightMonotone | src/components/birthday_notificator.cpp:203-205 | local midnights of later days are later, by exactly a day each |
| BirthdayModel.IsValidDate | src/models/birthday.cpp:7-25 | a negative month or day is rejected; an accepted date has month 1..12, day 1..31 and, when given, a year within `std::chrono::year`'s range |
| BirthdayModel.MaxDayWithoutYear | src/models/birthday.cpp:23-24 | without a year, a month has as many days as in a leap year |
| BirthdayModel.ValidWithYearIffNormalised | src/models/birthday.cpp:17-21 | with a year, a date is valid exactly when the year is in range and the date survives the round trip through its day number |
| BirthdayModel.ValidWithoutYearIffInLeapYear | src/models/birthday.cpp:23-24 | without a year, a month and day are valid exactly when they exist in the year 2000 |
| BirthdayModel.YearMattersOnlyForLeapDay | src/models/birthday.cpp:17-24 | giving an in-range year changes the verdict exactly for 29 February of a common year |
| BirthdayModel.ValidDateHasValidMonthDay | src/models/birthday.cpp:17-24 | a date valid with its year is valid as a month and day alone |
| Format.DecimalRoundTrip | src/components/bot/impl/component.cpp:185-186 | `std::stoi` of the decimal rendering of a natural number is that number |
| Format.Pad2TwoDigits | src/components/bot/impl/component.cpp:204-205 | `{:02}` of 0..99 is exactly its two decimal digits |
| Format.Pad2OfTwoDigits | src/components/bot/impl/component.cpp:185-205 | two digits read by `std::stoi` and printed by `{:02}` come back unchanged |
| Format.JoinAppend | src/components/birthday_notificator.cpp:148-163 | joining a concatenation of two non-empty lists joins the two joins with the separator |
| Format.JoinContains | src/components/birthday_notificator.cpp:150-155 | every item of a join occurs in the joined text |
| Matching.NormalisedValid | src/components/birthday_notificator.cpp:193-195 | the constructor lands a valid month and day on a valid date of the same year |
| Matching.OccurrenceInYear | src/components/birthday_notificator.cpp:186-195 | the occurrence of a valid month and day in year y lies within year y |
| Matching.OccurrenceNotAfter | src/components/birthday_notificator.cpp:186-195 | the year choice makes the most recent occurrence never later than today |
| Matching.OccurrenceIsTodayIff | src/components/birthday_notificator.cpp:186-210 | the occurrence is today exactly when the month and day are today's, or for 29 February on 1 March of a common year |
| Matching.ReportedInWindow | src/components/birthday_notificator.cpp:177-199 | a reported row's occurrence is between three days ago and today |
| Matching.CelebrateTodayIff | src/components/birthday_notificator.cpp:181-212 | a row is celebrated today exactly when enabled, falling on today, and not stamped after today's local midnight |
| Matching.ForgottenIff | src/components/birthday_notificator.cpp:181-216 | a row is filed as forgotten exactly when enabled, its occurrence is one to three days back, and it was not stamped after that day's local midnight |
| Matching.DisabledNeverReported | src/components/birthday_notificator.cpp:182-185 | a row with notifications disabled is never reported |
| Matching.StampedRowNotReported | src/components/birthday_notificator.cpp:203-208 | a row stamped after today's local midnight is not reported today |
| Matching.StampAtMidnightStillReported | src/components/birthday_notificator.cpp:203-205 | the comparison is strict: a stamp exactly at local midnight does not suppress today's celebration |
| Matching.CollectSnoc | src/birthday_notificator.cpp:197-233 | the loop handles rows one at a time: one more row pushes according to its verdict |
| Matching.CollectCounts | src/birthday_notificator.cpp:225-231 | one id per reported row: as many ids as names and forgotten entries together |
| Matching.CollectIds | src/birthday_notificator.cpp:225-231 | the collected ids are exactly the ids of the reported rows |
| Matching.CollectHasRow | src/birthday_notificator.cpp:225-231 | every reported row's id is collected |
| Matching.CollectCelebrated | src/birthday_notificator.cpp:225-227 | the names to celebrate are exactly the names of the rows celebrated today |
| Matching.CollectForgotten | src/birthday_notificator.cpp:228-231 | the forgotten entries are exactly the "person on DD.MM" entries of the rows filed as forgotten |
| Matching.CollectEmptyIff | src/birthday_notificator.cpp:196-234 | nothing is collected exactly when no row is reported |
| Notificator.RowsOf | src/components/birthday_notificator.cpp:211-215 | the rows of one user are exactly the rows it owns, and no more rows than the table has |
| Notificator.RowsOfAppend | src/components/birthday_notificator.cpp:211-215 | selecting a user's rows distributes over concatenation, so they keep their table order |
| Notificator.FindBirthdaysToNotify | src/components/birthday_notificator.cpp:173-220 | the loop over rows builds exactly the per-user report of the specification function |
| Notificator.FindSpecPerUser | src/components/birthday_notificator.cpp:173-220 | each user's entry is what the single-list matcher collects from that user's rows, and a user has an entry exactly when one of their rows is reported |
| Notificator.ReportEntryNonEmpty | src/components/birthday_notificator.cpp:210-216 | every entry of the report names someone to celebrate or forgotten, with one id per name |
| Notificator.ReportIdsOfOwner | src/components/birthday_notificator.cpp:211-215 | the ids under a user's key are exactly the ids of that user's reported rows |
| Notificator.FindSpecEmptyIff | src/components/birthday_notificator.cpp:173-220 | the report is empty exactly when no row is reported |
| Notificator.MessageNoneIff | src/components/birthday_notificator.cpp:148-160 | no message is sent exactly when nobody is celebrated and nothing is forgotten |
| Notificator.LineInMessage | src/components/birthday_notificator.cpp:148-163 | every line occurs in the message |
| Notificator.MessageMentionsAll | src/components/birthday_notificator.cpp:148-163 | the message names every person celebrated today and carries every forgotten entry |
| Notificator.NotificationTimeReached | src/components/birthday_notificator.cpp:113-129 | the gate opens exactly when the instant is at or after local midnight plus the configured hours and minutes |
| Notificator.GateAfterMidnight | src/components/birthday_notificator.cpp:115-129 | with a configured time after midnight, a pass past the gate runs strictly after local midnight |
| Notificator.StampedIdsMembership | src/components/birthday_notificator.cpp:165-167 | an id is stamped exactly when it is in the entry of a notified user |
| Notificator.StampedIdsCoverAll | src/components/birthday_notificator.cpp:147-168 | once every user of the report is notified, every id of the report is stamped |
| Notificator.StampAllTwice | src/components/birthday_notificator.cpp:165-167 | stamping two id sets with the same instant is stamping their union |
| Notificator.ReportedRowInAllIds | src/components/birthday_notificator.cpp:210-216 | a reported row's id is among the report's ids |
| Notificator.RerunReportsNothing | src/components/birthday_notificator.cpp:165-167 | once the reported rows are stamped after local midnight, a second pass on the same local day reports nothing |
| Notificator.VisitDone | src/components/birthday_notificator.cpp:147 | the users visited are distinct members of the report, and all of them once the loop completes |
| Notificator.BirthdayNotificator.constructor | src/components/birthday_notificator.cpp:70-89 | the notificator keeps its database, bot, zone and time of day |
| Notificator.BirthdayNotificator.NotifyUser | src/components/birthday_notificator.cpp:162-167 | the message goes to the user's chat and only then are the user's rows stamped; an unknown user or a failed send changes nothing |
| Notificator.BirthdayNotificator.NotifyUsers | src/components/birthday_notificator.cpp:147-168 | the users notified are distinct, the log gains their messages in order, exactly their ids are stamped, and all users are notified unless a send fails |
| Notificator.BirthdayNotificator.RunIteration | src/components/birthday_notificator.cpp:108-169 | nothing happens before the configured time; otherwise the report is the matcher's result over every row, and each user gets one message and has their rows stamped |
| NotificatorTests.BasicChecks | src/components/birthday_notificator_test.cpp:15-99 | on 16 February any year, any zone: persons 1 and 2 celebrated, person 4 forgotten, ids 1, 2, 4 |
| NotificatorTests.MonthBorder | src/components/birthday_notificator_test.cpp:101-146 | on 1 February: person 1 celebrated, person 2 forgotten on 31.01 |
| NotificatorTests.YearBorder | src/components/birthday_notificator_test.cpp:148-201 | on 1 January: person 1 celebrated, person 2 forgotten on 31.12 |
| NotificatorTests.TimezoneApplication | src/components/birthday_notificator_test.cpp:203-240 | Moscow stamps judged in Vladivostok: person 2 celebrated, person 1 forgotten on 01.01 |
| NotificatorTests.SplitUsers | src/components/birthday_notificator_test.cpp:242-329 | the BasicChecks rows split between two users give each user their own entry |
| LegacyNotificator.FindBirthdaysToNotify | src/birthday_notificator.cpp:189-235 | the loop builds exactly the row-order collection of every reported row |
| LegacyNotificator.BirthdayNotificator.constructor | src/birthday_notificator.cpp:84-103 | the notificator keeps its database, bot, zone and time of day; the chat is the bot's own |
| LegacyNotificator.BirthdayNotificator.QueueAndStamp | src/birthday_notificator.cpp:162-184 | no lines means nothing queued and nothing stamped; a push that times out stamps nothing; otherwise the message joins the bot's queue and every reported row is stamped, with nothing delivered yet |
| LegacyNotificator.BirthdayNotificator.RunIteration | src/birthday_notificator.cpp:122-185 | nothing happens before the configured time; otherwise the matcher's result over every row is queued and stamped as above, whether or not the configured chat can be reached |
| LegacyNotificator.IterationThenDelivery | src/birthday_notificator.cpp:178-184 | a pass followed by the consumer: the rows are stamped whenever the message was queued, and the configured chat receives it only when reachable, so an unreachable chat loses it |
| LegacyNotificator.RowsOfSingleOwner | src/birthday_notificator.cpp:189-235 | the rows of the sole owner are all the rows |
| LegacyNotificator.SingleOwnerReport | src/birthday_notificator.cpp:189-235 | on the rows of one user, the per-user matcher gives the single-recipient result under that user's key, or no key when it is empty |
| LegacyNotificator.RerunCollectsNothing | src/birthday_notificator.cpp:178-184 | once the collected rows are stamped after local midnight, a second pass on the same local day collects nothing and sends nothing |
| LegacyNotificatorTests.FromSingleOwnerReport | src/birthday_notificator_test.cpp:7-85 | a single-owner per-user report holding one entry gives that entry as the single-recipient result |
| LegacyNotificatorTests.LegacyBasicChecks | src/birthday_notificator_test.cpp:7-85 | on 16 February: persons 1 and 2 celebrated, person 4 forgotten on 15.02, ids 1, 2, 4 |
| LegacyNotificatorTests.LegacyMonthBorder | src/birthday_notificator_test.cpp:87-127 | on 1 February: person 1 celebrated, person 2 forgotten on 31.01 |
| LegacyNotificatorTests.LegacyYearBorder | src/birthday_notificator_test.cpp:129-176 | on 1 January: person 1 celebrated, person 2 forgotten on 31.12 |
| LegacyNotificatorTests.LegacyTimezoneApplication | src/birthday_notificator_test.cpp:178-211 | Moscow stamps judged in Vladivostok: person 2 celebrated, person 1 forgotten on 01.01 |
| Services.EnumerateKeys | src/db/birthdays.cpp:56-64 | a result set lists every key of the table exactly once |
| Services.StampAll | src/db/birthdays.cpp:73-80 | stamping keeps the table's keys |
| Services.EnumeratesInRows | src/db/birthdays.cpp:56-64 | every stored record is among the fetched rows |
| Services.StampAllKeepsRows | src/db/birthdays.cpp:29-33 | stamping changes only the last-notification time, and only of the given ids |
| Services.Storage.constructor | src/db/users.cpp:40-44 | a database with the given registered users and no birthdays |
| Services.Storage.FindUser | src/db/users.cpp:46-57 | the user registered with the chat, or none when no user has that chat |
| Services.Storage.GetChatId | src/db/users.cpp:59-66 | fails exactly for an unregistered user; otherwise the chat maps back to the user |
| Services.Storage.FetchAllBirthdays | src/db/birthdays.cpp:56-64 | the rows are every stored birthday, each once |
| Services.Storage.FetchBirthdays | src/components/bot/impl/component.cpp:64 | the rows are every birthday the user owns, each once |
| Services.Storage.Stamp | src/db/birthdays.cpp:73-80 | the row's last-notification time becomes the instant; users are unchanged |
| Services.Storage.StampEach | src/birthday_notificator.cpp:180-184 | every listed id is stamped with the same instant |
| Services.Storage.InsertBirthday | src/db/birthdays.cpp:82-88 | a fresh id gets an enabled, never-notified row with the given fields and owner |
| Services.Storage.DeleteBirthday | src/db/birthdays.cpp:66-71 | the row is gone and nothing else changes |
| Services.Transport.constructor | src/components/bot/impl/component.cpp:108-117 | a Bot API with no requests yet |
| Services.Transport.SendMessage | src/components/bot/impl/component.cpp:377-385 | the message is accepted exactly when the chat is reachable, and logged with its markup |
| Services.Transport.EditMessageText | src/components/bot/impl/component.cpp:387-396 | the edit is accepted exactly when the chat is reachable, and logged with its markup |
| Services.Transport.AnswerCallbackQuery | src/components/bot/impl/component.cpp:324 | the answer is always logged |
| ButtonModel.MakeSerializedButton | src/models/button.cpp:31-37 | building succeeds exactly for 1 to 64 bytes of data, keeping title and data |
| ButtonModel.EncodeInt32 | src/models/button.cpp:12-23 | an int32 field is four bytes |
| ButtonModel.Int32RoundTrip | src/models/button.cpp:12-23 | decoding an encoded int32 gives it back |
| ButtonModel.ParseSerialize | src/models/button.cpp:20-22 | parsing a serialised message gives the message back, optional fields included |
| ButtonModel.ButtonDataRoundTrip | src/models/button.cpp:44-67 | decoding the callback data of a button gives back its type, context and birthday id |
| ButtonModel.SerializeButtonSucceeds | src/models/button.cpp:39-42 | serialised button data always fits the 1..64-byte bound, so building a button never fails |
| ButtonModel.MissingTypeRejected | src/models/button.cpp:50-54 | a message without `button_type` is rejected with its error text |
| ButtonModel.MissingContextRejected | src/models/button.cpp:56-60 | a message with a type but without `context` is rejected with its error text |
| ButtonModel.BirthdayIdPresence | src/models/button.cpp:62-64 | an absent `bd_id` decodes to no birthday id, a present one to its value |
| ReplyMarkup.MakeReplyMarkup | src/components/bot/impl/reply_markup.cpp:10-46 | no markup for an absent, empty or empty-row keyboard; otherwise one inline button per button, same shape, title and serialised data, no payment |
| NextOrder.InsertLast | src/components/bot/impl/component.cpp:78-89 | one insertion step: the prefix including the new entry is in listing order, and the entries are permuted |
| NextOrder.SortForDay | src/components/bot/impl/component.cpp:78-89 | the array ends in listing order for the day and is a permutation of what it held |
| NextOrder.SortAndTruncate | src/components/bot/impl/component.cpp:78-92 | the listing holds min(n, limit) entries, in order, drawn from the rows, and no entry left out comes before a listed one |
| NextOrder.TruncatedListing | src/components/bot/impl/component.cpp:90-92 | cutting a sorted permutation of the rows keeps the first entries, in order |
| NextOrder.KeptAreFirst | src/components/bot/impl/component.cpp:90-92 | truncating a sorted listing keeps entries no later than any dropped one |
| NextOrder.TodayFirst | src/components/bot/impl/component.cpp:81-88 | a birthday falling today heads the listing |
| NextOrder.UpcomingBeforePassed | src/components/bot/impl/component.cpp:81-88 | every birthday still ahead this year, today included, is listed before every birthday already passed |
| NextOrder.CalendarOrderWithinSide | src/components/bot/impl/component.cpp:87-88 | among the birthdays on the same side of today, the listing follows the calendar |
| AddCommand.SkipNonSpace | src/components/bot/impl/component.cpp:177 | `[^\s]*` consumes exactly the run of non-space characters |
| AddCommand.SkipSpace | src/components/bot/impl/component.cpp:177 | `\s+` consumes exactly the run of space characters |
| AddCommand.NameFrom | src/components/bot/impl/component.cpp:177 | a captured name holds no line break and does not start with a space |
| AddCommand.ParseAddBirthday | src/components/bot/impl/component.cpp:177-191 | a match needs the command prefix and captures a name without line breaks or leading space |
| AddCommand.ParseWithoutYear | src/components/bot/impl/component.cpp:177-191 | "/add_birthday DD.MM Name" gives back day, month and name, with no year |
| AddCommand.ParseWithYear | src/components/bot/impl/component.cpp:177-191 | "/add_birthday DD.MM?YYYY Name" with any separator but a line break gives back day, month, year and name |
| AddCommand.NameRequired | src/components/bot/impl/component.cpp:177-182 | without a name the pattern does not match |
| BotComponent.BuildKeyboard | src/components/bot/impl/component.cpp:95-102 | one row per listed birthday, holding its edit button |
| BotComponent.GetNextBirthdaysMessage | src/components/bot/impl/component.cpp:56-104 | unregistered: "You are not registered yet"; no rows: "There are no birthdays"; otherwise "Next n birthdays:" with the first six of the user's birthdays in listing order for today in Moscow, one edit button each |
| BotComponent.AddInsertsIff | src/components/bot/impl/component.cpp:167-206 | a birthday is inserted exactly when the chat is registered, the text matches, the date is valid and the name is at most 128 bytes |
| BotComponent.AddEchoesDate | src/components/bot/impl/component.cpp:204-205 | the confirmation repeats the name and the day and month as typed |
| BotComponent.Component.constructor | src/components/bot/impl/component.cpp:108-132 | the component keeps its database and bot |
| BotComponent.Component.OnNextBirthdaysCommand | src/components/bot/impl/component.cpp:155-165 | the listing goes to the chat, with the inline markup of its keyboard when it has one |
| BotComponent.Component.OnAddBirthdayCommand | src/components/bot/impl/component.cpp:167-206 | the reply follows the checks in order; only an accepted command inserts a row, owned by the chat's user; stored dates stay valid |
| BotComponent.Component.OnEditBirthdayButton | src/components/bot/impl/component.cpp:208-226 | the message becomes "Select option" with Delete and Cancel buttons for the birthday, or "Canceled" without buttons when the data names none |
| BotComponent.Component.OnDeleteBirthdayButton | src/components/bot/impl/component.cpp:228-253 | the birthday is deleted exactly when the data names one, the chat is registered and its user owns it; the message says "Deleted" or "Canceled" |
| BotComponent.Component.OnCancelButton | src/components/bot/impl/component.cpp:255-259 | the message becomes "Canceled" |
| BotComponent.Component.OnCallbackQuery | src/components/bot/impl/component.cpp:293-325 | the button is handled only when the callback has a message and decodable data; an Edit press edits to the edit menu with its markup, a Delete press to "Deleted" (owner) or "Canceled", a Cancel press to "Canceled"; a type outside the enumeration or an unreachable chat edits nothing; only a Delete press by the owner changes the table; the query is always answered last |
| LegacyBot.BuildListing | src/bot.cpp:153-158 | the text is "Next birthdays:" followed by one "\nperson on DD.MM" line per listed birthday |
| LegacyBot.GetNextBirthdaysMessage | src/bot.cpp:115-159 | a stranger gets "No birthdays for you, sorry" without a query; no rows: "There are no birthdays"; otherwise the first five stored birthdays in listing order for today in Moscow |
| LegacyBot.ListingMentionsEach | src/bot.cpp:153-158 | the listing opens with its header and holds the line of every listed birthday |
| LegacyBot.KnownCommandsExactly | src/bot.cpp:41 | the known texts are exactly "/start", "/chat_id" and "/next_birthdays" |
| LegacyBot.Bot.constructor | src/bot.cpp:170-185 | the bot keeps its database, transport and allowed chat, with an empty queue |
| LegacyBot.Bot.SendMessage | src/bot.cpp:263-275 | the producer appends the text to the queue when the push meets its deadline and fails otherwise; nothing is sent yet |
| LegacyBot.Bot.Consume | src/bot.cpp:240-254 | the consumer empties the queue, sending every queued text in order to the configured chat, or nothing when that chat cannot be reached |
| LegacyBot.Bot.OnStart | src/bot.cpp:205-207 | "Hi!" goes to the sender |
| LegacyBot.Bot.OnChatId | src/bot.cpp:209-213 | the sender gets its chat id in decimal |
| LegacyBot.Bot.OnNextBirthdays | src/bot.cpp:215-220 | the listing goes back to the sender |
| LegacyBot.Bot.OnAnyMessage | src/bot.cpp:222-230 | "Unknown command" is sent exactly when the text is not one of the commands exactly |

## Left out

- Time zones: cctz's zone database is replaced by a fixed UTC offset. Moscow is UTC+3 all year, which is what the listing uses; daylight-saving transitions are not modelled.
- Instants are whole seconds since the epoch. Sub-second precision and `TimeOfDay` parsing from the configuration string are not modelled.
- The database is two maps and the Bot API is a request log. SQL, HTTP, long polling, webhooks, retries and the tgbot library are not modelled. A failing request is modelled by a set of unreachable chats; other exceptions are not.
- `AnswerCallbackQuery` always succeeds in the model.
- Services.Storage.InsertBirthday: the serial id the database assigns is passed in as a parameter.
- The scenarios number the rows 1 to n themselves.
- The legacy rows carry no owner. The model's rows have one, and the legacy matcher ignores it.
- The legacy bot's `MpscQueue` is a sequence of texts. Whether a push meets its sixty-second deadline is a parameter. The consumer runs as one `Consume` call, which models no interleaving with the producers. A send that throws in the consumer loses its text. The model does not capture the long-poll restart the exception causes. The distributed lock, `DoWork`'s ten-minute loop and the `TESTPOINT` are not modelled.
- Metrics and logging are not modelled.
- The multi-user component's `OnStartCommand`, `OnChatIdCommand`, `OnRegisterCommand`, `OnUnregisterCommand`, `RegisterCommand` and `Run` are not modelled. They are single database calls and plain sends outside the core. The legacy bot's equivalents are modelled.
- Base64 and protobuf are replaced by a stand-in format: tagged fixed-width int32 records, no base64. Every message this model serialises fits in 15 bytes. The real encoding also fits the 64-byte bound, but its exact bytes differ.
- `std::sort` is not stable, and its order among entries with equal month and day is unspecified. The model sorts by insertion. Every proved property holds for any order of equal entries.
- The `/add_birthday` regular expression is modelled as a scanner over its one possible match. Digits are ASCII and `\s` is the six C whitespace characters. `std::stoi` of two or four ASCII digits cannot throw; overflow and locale are not modelled.
- BirthdayModel.IsValidDate: for a month or day of 256 or more, `std::chrono::month` and `std::chrono::day` hold an unspecified value, and so does `std::chrono::year` for a year outside -32767..32767. The model rejects all such fields. It agrees with the source for every month and day below 256 and every year in range. That covers everything `std::stoi` can read from the two-digit day and month and the four-digit year of `/add_birthday`.
- BotComponent.Component.OnAddBirthdayCommand: the 128-byte limit is measured in characters. The model's strings are characters, not UTF-8 bytes.
