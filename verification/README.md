# odin_bot core in Dafny

A model of the core of odin_bot, a Telegram assistant that serves one admin. The model covers:

- **Access rules** (`Access`, from `app/access.py`). Only the admin is answered. In a group, the admin must also mention the bot or reply to it. The bot leaves any chat someone else added it to.
- **Chat handlers** (`Handlers`, from `app/handlers.py`):
  - An admin message goes to the language model, with the recent history as context. The question and the answer are both logged.
  - A membership update decides whether the bot leaves.
- **In-memory conversation store** (`MemoryStore`, from `app/services/memory_store.py`). Each user has an append-only log. Turns older than the time-to-live are dropped on every access.
- **Reminder scheduling arithmetic** (`Reminders` and `TimezoneNames`, from `app/reminders.py`):
  - reading an ISO local time;
  - resolving a timezone name from free text, either an `Area/City` token or a city alias;
  - converting local time to UTC;
  - calendar-month arithmetic, with the day clamped to the end of the month;
  - the next occurrence of a repeating reminder.
- **Cloud Tasks endpoints** (`Tasks`, from `app/tasks.py`):
  - the shared-token check;
  - building a task;
  - `POST /tasks/remind`, which delivers one reminder;
  - `POST /tasks/sweep`, which delivers every listed due reminder;
  - each delivery marks the row sent and, for a repeating reminder, stores and arms the next occurrence.
- **Webhook address** (`Webhook`, from `build_webhook_url` in `app/main.py`).

Supporting modules:

- `Wrappers`: `Option` and `Result`.
- `Text`: the Python `str` behaviour the code relies on, namely `strip`, `rstrip('/')`, `lower`, substring `in`, and the regular-expression character classes.
- `Calendar`: the part of Python's `datetime` the code relies on. It covers valid date-times for years 1 to 9999, day ordinals, and adding days or one hour with overflow.

How Python is mapped:

- Instants are integer microseconds since 0001-01-01 UTC.
- A Python exception becomes an error value. At an HTTP handler that value is a 500 response.
- Clocks, the timezone database, the language model, `datetime.fromisoformat`, the document store's id generator and its due-reminder query are all parameters.

Two behaviours of the code worth knowing:

- `app/tasks.py` catches no error from `compute_next_schedule` or `build_task`. The request fails after the message was sent and the row marked. `Tasks.Deliver` and `Tasks.HandleRemind` model this as a 500 response that keeps the effects already done. `Tasks.UnconfiguredQueueStrandsFollowUp` states the consequence.
- `app/handlers.py` has no fallback reply. An exception from `generate_reply` propagates: nothing is answered, and the history read has already pruned the log. `Handlers.HandleMessage` models exactly that.

## Model

| member | source | states |
|---|---|---|
| Text.Strip | app/reminders.py:45 | the result, when not empty, starts and ends with a non-whitespace character |
| Text.StripCutsOnlySpace | app/reminders.py:45 | `strip` returns a contiguous slice of its input, and everything cut off on either side is whitespace |
| Text.RStripSlashes | app/main.py:26 | the result is a prefix of `s` that does not end in `/`, and only `/` characters were removed |
| Text.LowerChar | app/access.py:39 | `str.lower()` on one character: ASCII capitals become ASCII small letters, nothing else becomes an ASCII letter, and word characters stay word characters |
| Text.LowerCharIdempotent | app/access.py:39 | lower-casing a character twice is lower-casing it once, including the Cyrillic capitals U+0400–U+04FF |
| Text.Lower | app/access.py:39 | `str.lower()`: same length, each character lower-cased on its own |
| Text.Contains | app/access.py:39 | Python's `needle in hay`: true iff the needle occurs at some position |
| Text.TrimEndIgnoresSuffix | app/main.py:26 | appending characters that are trimmed does not change the trimmed result |
| Access.IsAdmin | app/access.py:28-29 | true exactly when a sender id is present and equals the admin id |
| Access.IsGroupChat | app/access.py:32-33 | true exactly for "group" and "supergroup" |
| Access.IsMention | app/access.py:36-39 | false when text or username is missing or empty; otherwise true iff `@username` occurs in the text, both lower-cased |
| Access.IsReplyToBot | app/access.py:42-46 | true iff the bot username is non-empty and the replied-to message's sender has exactly that username |
| Access.ShouldRespond | app/access.py:49-59 | never for a non-admin; always for the admin outside groups; in a group iff mention or reply; a true verdict implies the sender is the admin |
| Access.ShouldLeaveChat | app/access.py:62-64 | leave iff the actor is missing or is not the admin |
| Access.MentionIgnoresTextCase | app/access.py:39 | lower-casing the text first never changes the mention verdict |
| Access.MentionOfMixedCaseName | app/access.py:39 | "Hi @MyBot" mentions the bot named "mybot" |
| Access.NonAdminNeverServed | app/access.py:49-52 | a message with no sender, or from anyone but the admin, is never answered |
| Access.GroupNeedsMentionOrReply | app/access.py:54-57 | an admin "hello" in a group, with no mention and no reply, is ignored |
| MemoryStore.KeepSince | app/services/memory_store.py:35-37 | an entry survives iff it was in the log and is not older than the cutoff; nothing is added |
| MemoryStore.KeepSinceConcat | app/services/memory_store.py:35-37 | filtering a concatenation gives the concatenation of the filtered parts, in order |
| MemoryStore.KeepSinceIdempotent | app/services/memory_store.py:35-37 | filtering twice with one cutoff is filtering once |
| MemoryStore.Prune | app/services/memory_store.py:33-37 | the user's log becomes `KeepSince` of the old log: exactly its entries at or after `now - ttl`, in their original order; the key then exists, as with `defaultdict`; other users are untouched |
| MemoryStore.PruneIdempotent | app/services/memory_store.py:33-37 | pruning again at the same instant changes nothing |
| MemoryStore.AppendMessage | app/services/memory_store.py:17-23 | the user's log becomes its surviving entries plus the new entry, which survives iff the TTL is not negative; other users are untouched |
| MemoryStore.FreshIffTtlNotNegative | app/services/memory_store.py:18-23 | an entry stamped `now` passes the cutoff iff `ttl_hours >= 0` |
| MemoryStore.TwoAppendsAfterPrune | app/services/memory_store.py:17-37 | after a prune, two appends at one instant leave the surviving entries plus both new entries in call order |
| MemoryStore.GetRecentHistory | app/services/memory_store.py:25-31 | the store afterwards is the prune of the user's log; the turns are the pruned log's role and content in insertion order; each comes from the old log and is within the TTL |
| MemoryStore.HistoryReadIsStable | app/services/memory_store.py:25-31 | reading the history twice at one instant gives the same store and turns |
| MemoryStore.ExpiredTurnIsForgotten | app/services/memory_store.py:33-37 | with a 1-hour TTL, a turn logged 2 hours ago is not returned |
| Handlers.HandleMessage | app/handlers.py:23-36 | nothing happens unless `should_respond`; otherwise the model sees the history plus the user turn, a model failure leaves only the prune, and a reply is sent once and logged after the question |
| Handlers.IgnoredMessageTouchesNothing | app/handlers.py:25-26 | a message not from the admin leaves the store as it was, reaches no model and gets no answer |
| Handlers.ServedExchangeIsLogged | app/handlers.py:28-34 | with a non-negative TTL, the admin's log ends up as surviving entries + user turn + assistant turn, and no other log changes |
| Handlers.HandleMyChatMember | app/handlers.py:39-50 | leaves chat `chat.id` iff the bot became member or administrator and the actor is not the admin |
| Handlers.AddedByStrangerLeaves | app/handlers.py:39-50 | user 999 adding the bot to group 55 makes it leave 55 |
| Webhook.BuildWebhookUrl | app/main.py:25-26 | the URL ends with the path; before it is the base minus exactly its trailing slashes |
| Webhook.TrailingSlashesIgnored | app/main.py:25-26 | any number of trailing slashes on the base gives the same URL |
| Webhook.PlainBaseIsConcatenated | app/main.py:25-26 | a base not ending in `/` is joined to the path unchanged |
| Webhook.ExampleComAddresses | app/main.py:25-26 | "https://example.com/" and "https://example.com" both give "https://example.com/webhook" |
| TimezoneNames.MatchAt | app/reminders.py:48 | `\b[A-Za-z]+/[A-Za-z_]+\b` matches at `i` ending at `k` iff the result is `Some(k)` |
| TimezoneNames.OnlyGreedyMatch | app/reminders.py:48 | a match at a position is unique and consists of the maximal letter run and the maximal tail run |
| TimezoneNames.FindZoneToken | app/reminders.py:48-50 | `re.search`: the leftmost match; `None` iff no position matches |
| TimezoneNames.SquashRuns | app/reminders.py:51 | `re.sub(r"[^0-9a-zа-я]+", " ", …)`: the result is empty iff the input is, and starts with a space iff the input starts outside the class |
| TimezoneNames.SquashOutsiderRun | app/reminders.py:51 | a class word followed by a non-empty run outside the class becomes the word and exactly one space, whatever follows from the next class character on |
| TimezoneNames.SquashAlphabet | app/reminders.py:51 | after `re.sub(r"[^0-9a-zа-я]+", " ", …)` every character is a class character or a space |
| TimezoneNames.SquashKeepsClassChars | app/reminders.py:51 | the class characters of the result are exactly those of the input, in order: only runs outside the class are rewritten |
| TimezoneNames.SquashLeavesSingleSpaces | app/reminders.py:51 | no two spaces are adjacent after squashing |
| TimezoneNames.SquashTwoWords | app/reminders.py:51 | two class words each followed by one non-class character become the words each followed by one space |
| TimezoneNames.Normalize | app/reminders.py:51 | the normalized text holds only class characters and spaces, neither starts nor ends with a space (so stripping it again changes nothing), and has no two adjacent spaces |
| TimezoneNames.AnyAliasIn | app/reminders.py:55-57 | true iff some alias of the list occurs in the text |
| TimezoneNames.LookupAlias | app/reminders.py:54-58 | the first zone with an alias contained in the text, or `None` iff no alias of any zone is contained |
| TimezoneNames.Candidate | app/reminders.py:45 | `(user_text or "").strip()`: empty for `None`; otherwise a slice of the text with only whitespace cut on either side, neither end being whitespace |
| TimezoneNames.ResolveTimezoneName | app/reminders.py:44-58 | empty or blank input gives `None`; a zone token is returned verbatim; otherwise the result is `Some` iff an alias occurs in the normalized text, and the zone returned is one the table knows |
| TimezoneNames.WholeTokenReturnedVerbatim | app/reminders.py:48-50 | input that is exactly a zone token, after stripping, is returned as is |
| TimezoneNames.HyphenatedAliasNeverMatches | app/reminders.py:35 | the alias "tel aviv-yafo" can never be found, because normalization removes every hyphen |
| TimezoneNames.NormalizePunctuated | app/reminders.py:51 | two words in any letter case, with a character that is not a class character after lower-casing between them and after them, normalize to the lower-cased words joined by one space |
| TimezoneNames.PunctuatedAliasResolves | app/reminders.py:44-57 | a two-word alias of the table written in any letter case, with any punctuation in place of its space and after it, resolves to "Asia/Jerusalem" |
| TimezoneNames.TelAvivWithPunctuation | app/reminders.py:44-57 | "Tel-Aviv!" resolves to "Asia/Jerusalem" |
| Calendar.NextDay | app/reminders.py:92-93 | `+ timedelta(days=1)`: the ordinal advances by 1 with the same time of day; fails iff the date is 9999-12-31 |
| Calendar.PrevDay | app/reminders.py:80 | `- timedelta(days=1)`: the ordinal goes back by 1 with the same time of day; fails iff the date is 0001-01-01 |
| Calendar.AddDaysAdvancesOrdinal | app/reminders.py:92-95 | adding `n` days, when it succeeds, advances the ordinal by `n` and keeps the time of day |
| Calendar.AddDaysFailsOnlyPastLastDay | app/reminders.py:92-95 | adding days fails only when 9999-12-31 is reached within fewer than `n` days |
| Calendar.PastLastDayFails | app/reminders.py:92-95 | once 9999-12-31 is reached within the first `n - 1` days, adding `n` days fails |
| Calendar.AddDaysFailsIffPastLastDay | app/reminders.py:92-95 | adding `n` days fails iff 9999-12-31 is reached within the first `n - 1` days |
| Calendar.AddHourAdvancesOneHour | app/reminders.py:90-91 | `+ timedelta(hours=1)` moves the wall clock by exactly one hour |
| Calendar.AddHourFailsOnlyInLastHour | app/reminders.py:90-91 | adding an hour fails iff it is the last hour of 9999-12-31 |
| Reminders.ParseDatetimeLocal | app/reminders.py:19-25 | empty text gives `None`; any other text gets exactly the ISO parser's verdict, a rejection giving `None` |
| Reminders.ToUtc | app/reminders.py:61-65 | an unknown zone fails even for aware input; naive input is read in the zone and fails iff the zone's conversion does; aware input keeps its own offset and fails iff the resulting instant is outside years 1..9999 |
| Reminders.AwareStampIgnoresZone | app/reminders.py:61-65 | aware input converts to the same instant under any known zone |
| Reminders.DaysInMonthAsWritten | app/reminders.py:75-80 | defined exactly for years 1..9999 except December 9999; when defined it is the Gregorian month length |
| Reminders.DaysInMonth | app/reminders.py:75-80 | the Gregorian month length (28/29 by leap year for February, 30 or 31 otherwise); agrees with the as-written version wherever that is defined |
| Reminders.AddMonths | app/reminders.py:68-72 | succeeds iff the target year is in 1..9999; the month index moves by exactly `months`; the day is clamped to the target month's length; the time of day is kept |
| Reminders.AddMonthsAsWritten | app/reminders.py:68-80 | any result is the corrected result; it fails iff the corrected version fails or the target is December 9999 |
| Reminders.AddMonthsAsWrittenAgrees | app/reminders.py:68-80 | the as-written and corrected versions differ exactly when the target is December 9999 |
| Reminders.AddMonthsAsWrittenFailsIntoLastDecember | app/reminders.py:75-80 | 9999-11-15 plus one month raises as written, although 9999-12-15 exists |
| Reminders.EndOfJanuaryPlusOneMonth | app/reminders.py:68-72 | January 31 + 1 month gives February 28 in 2023 and February 29 in 2024 |
| Reminders.LeapDayPlusOneYear | app/reminders.py:68-72 | 2024-02-29 + 12 months gives 2025-02-28 |
| Reminders.StepLocal | app/reminders.py:90-99 | each repeat value advances the local wall clock by its unit: one hour, 1 or 7 days with the time kept, or 1 or 12 months clamped by `add_months` as written; it fails iff the calendar ends first or the target is December 9999: hourly in the last hour of 9999-12-31, daily on that day, weekly when that day comes within six days, monthly in November or December 9999, yearly in 9999 or in December 9998 |
| Reminders.ComputeNextSchedule | app/reminders.py:83-102 | "none" gives no time before any zone lookup; an unknown zone fails; so does an instant the zone cannot show; an unrecognised repeat gives no time; for a recurrence the result is the UTC of the local step, failing iff the step or the conversion back fails; a result is the UTC of a proper next occurrence of the instant's local time |
| Reminders.MonthlyIntoLastDecemberFails | app/reminders.py:75-99 | a reminder read as 9999-11-15 08:00 local gets an error for a monthly and for a yearly repeat, as `compute_next_schedule` raises there |
| Reminders.MonthlyFromEndOfJanuary | app/reminders.py:96-97 | a monthly reminder at 2023-01-31 12:00 local next fires at 2023-02-28 12:00 local |
| Tasks.HeaderGet | app/tasks.py:28 | `None` iff no header name matches case-insensitively; otherwise the value of the first matching header |
| Tasks.VerifyTasksAuth | app/tasks.py:25-29 | with no token configured, every request passes; otherwise the first `X-Tasks-Token` header must equal the token |
| Tasks.BuildTask | app/tasks.py:36-63 | fails with "config missing" iff project, location or queue is empty, and with "TASKS_BASE is required" iff only the base is; a built task has the queue path, base minus trailing slashes plus path, JSON content type, the token header iff configured, and the schedule time |
| Tasks.BuiltTaskIsAuthorized | app/tasks.py:58-59 | every task built from a configuration passes that configuration's token check |
| Tasks.DeliveredText | app/tasks.py:89-98 | the row's text unchanged unless the row is strictly late; a late row's text is preceded by the overdue notice and a line break, and the notice names the original time phrase exactly when there is one |
| Tasks.MarkSent | app/tasks.py:101-104 | the row gets status "sent" and `sent_at` now; its other fields and every other row are unchanged |
| Tasks.FollowUp | app/tasks.py:111-121 | the next-occurrence row keeps recipient, text, zone, repetition and time phrase, is created now, and is "scheduled" at the new time with no sent time |
| Tasks.Deliver | app/tasks.py:89-128 | one message goes to the row's chat; the row is marked sent at `now` with every other field kept; no other stored row changes; a follow-up row exists iff the row repeats and a next time was computed, and it is the row's copy at that time, scheduled again; at most one task is armed, only for the follow-up, and it is exactly the task built for `/tasks/remind` with that row's id and time (so its queue, URL and credentials are the configured ones); it raises iff the computation or task building fails |
| Tasks.HandleRemind | app/tasks.py:66-130 | 401, 500 (unparsable body), 400, 404 (no row, or an empty document), "already handled" and "not due" leave everything unchanged; a stored, scheduled, due row is delivered, answering 500 iff the delivery raises and "ok" otherwise; a message is sent only for such a row, which is then marked sent with its other fields kept, and the only tasks armed are the follow-up's remind task |
| Tasks.RemindIsIdempotent | app/tasks.py:81-104 | after a remind that sent a message, whatever its outcome, repeating it sends nothing and answers "already handled" |
| Tasks.RescheduledReminderIsArmed | app/tasks.py:108-128 | when a remind succeeds and stores a follow-up, exactly one task is armed, for that row, at its schedule, in the configured queue, aimed at the public `/tasks/remind` URL, with credentials the endpoint accepts |
| Tasks.UnconfiguredQueueStrandsFollowUp | app/tasks.py:122-128 | with no queue configured, a due repeating reminder is sent and its follow-up stored "scheduled", but no task is armed and the response is 500 |
| Tasks.SentMessagesCount | app/tasks.py:143-148 | a complete sweep sends one message per listed row with an id and status "scheduled" |
| Tasks.HandledStopsAtFirstRaise | app/tasks.py:149-188 | the rows a sweep gets through are a prefix of the listing: all of it when no eligible row raises, otherwise ending at an eligible row that raises with no earlier eligible row raising |
| Tasks.SweepLoop | app/tasks.py:143-190 | the loop completes iff no eligible row raises; then the count is the number of eligible rows; whether or not it completes, over the rows it got through: the eligible rows' messages are sent in listing order; each is marked sent with its other fields kept; the i-th row's follow-up is stored under the i-th fresh id exactly when it is eligible and reschedules, as that row's copy at its next time; no other key appears; the remind tasks of those follow-ups are armed in listing order; no other stored row changes |
| Tasks.SweepDelivered | app/tasks.py:149-188 | the same, for a listing whose first row is eligible: it is delivered first (under the first fresh id), and a raise stops the loop with the messages, marks, follow-ups and tasks up to and including the raising row kept |
| Tasks.HandleSweep | app/tasks.py:133-192 | 401 without valid credentials; otherwise `{"sent": n}` iff no eligible row raises, with `n` the eligible count, and 500 otherwise, the rows handled then being those up to and including the first raising eligible row, and nothing after it; over the rows handled (the whole listing on success): the eligible rows' messages are sent in order; each eligible row is marked sent with its other fields kept; follow-ups are stored under the fresh ids exactly for the eligible rows that reschedule, and their tasks are armed in order; no other stored row changes |
| Tasks.SweepOfHandledRowsSendsNothing | app/tasks.py:143-148 | a listing with no eligible rows sends nothing, changes nothing and reports 0 |

## Left out

- Unicode coverage. `str.lower()` and the regular-expression `\w` are modelled for ASCII, Latin-1 (letters and the numerics ² ³ ¹ ¼ ½ ¾) and Cyrillic (U+0400–U+04FF, with every case pair of the block). Other blocks (Latin Extended from U+0100, Greek, and the rest) are treated as non-letters and are not lower-cased.
- The IANA timezone database. `ZoneInfo` lookups and conversions are the function fields of `Reminders.Zones`. DST folds and gaps are therefore whatever that parameter says.
- ISO parsing. `datetime.fromisoformat` is a parameter of `Reminders.ParseDatetimeLocal`: the ISO grammar is not modelled.
- Clock reads. `MemoryStore` reads the clock separately for the timestamp and for each prune; the model uses one `now` per operation. The Tasks handlers likewise use one `now` for the due check, `sent_at` and `created_at`.
- The lock in `MemoryStore` and concurrent requests. Every operation is atomic in the model, so races between two deliveries of the same row are not modelled.
- Task submission. `create_task` and the task's JSON body serialisation are not modelled. A built task is appended to the armed queue, and its body is the reminder id it carries.
- Document store. `get_reminder`, `update_reminder`, `create_reminder` and `list_due_reminders` are not part of this model. The store is a map from id to row. An update merges fields into the stored row. New ids are parameters required to be fresh. The due listing is a parameter whose ids are required to name stored rows.
- Null fields. A document field stored as null is treated like a missing field. For `repeat` this differs from the code: `reminder.get("repeat", "none")` gives `None` for a null field, which is not `"none"`, so the code still looks up the zone (and fails on an unknown one) where the model sees no repetition. `text` diverges too; see the Tasks.DeliveredText and Tasks.FollowUp lines.
- Tasks.DeliveredText: a null `text` is read as `""`. `reminder.get("text", "")` gives `None` for a null field, so the code sends "Просроченное напоминание.\nNone" for a late row and passes `None` to `send_message` for an on-time row.
- Tasks.FollowUp: a null `text` is stored as `""` in the follow-up row, where the code copies the null.
- Sending and leaving. `send_message`, `answer` and `leave_chat` are recorded as data (outbox entries, answers, the chat id to leave). Their own failures are not modelled.
- `ReminderParseResult`, `openai_client` and `config` are not modelled: the first is unused by the modelled code and the others are an external client and environment reading.
- Handlers.HandleMessage: only the in-memory history store is modelled. `app/main.py:41-44` uses `FirestoreClient` unless `FIRESTORE_DISABLED` is set, and that client's `append_message` and `get_recent_history` never drop old turns (they write an `expires_at` field instead), so with the default backend the history is not pruned as the model states.
- Tasks.HandleRemind: a `reminder_id` is modelled as a string. A truthy non-string id, such as the number 42, cannot be represented.
- Tasks.QueuePath: the Cloud Tasks client's `queue_path` is modelled as the documented `projects/…/locations/…/queues/…` format.
- `create_app` and the aiohttp/aiogram wiring in `app/main.py` are not modelled; only `build_webhook_url` is. (`create_app` also passes `AppContext` keyword arguments its dataclass does not declare.)
- Reminders.ToUtc: an aware input's range check uses the instant range of `datetime`, not the exact overflow behaviour of `astimezone` near the ends of that range.
- Handlers.HandleMessage: `user_id` falls back to 0 when the sender is missing, but `should_respond` already rules that case out, so the fallback is never reached in the model.

## Findings

| source | as written | input that shows it | evidently intended | confidence | as-written member | corrected member |
|---|---|---|---|---|---|---|
| app/reminders.py:75-80 | `_days_in_month` builds `datetime(year + 1, 1, 1)` for December, which raises `ValueError` when `year` is 9999; `add_months` therefore raises for any target in December 9999 | `add_months(datetime(9999, 11, 15, 8, 0), 1)` | return 31 for December 9999, so the result is 9999-12-15 08:00 | not executed | Reminders.AddMonthsAsWrittenFailsIntoLastDecember | Reminders.AddMonths |

The recurrence step (`Reminders.StepLocal`, and so `Reminders.ComputeNextSchedule` and the Tasks handlers) follows the code and calls `Reminders.AddMonthsAsWritten`, so a monthly or yearly reminder whose next occurrence falls in December 9999 fails there as it does in the code (`Reminders.MonthlyIntoLastDecemberFails`). `Reminders.AddMonths` is the corrected definition, and `Reminders.AddMonthsAsWrittenAgrees` proves the two differ only on that month.
