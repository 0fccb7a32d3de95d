# Reminder bot core, modelled in Dafny

This project models the two moving parts of a Telegram reminder bot.

- **Intake** (`TelegramBotUpdatesListener.process`). It reads each incoming chat message:
  - To `/start` it answers with a welcome text.
  - Otherwise it looks for a date-time in the layout `dd.MM.yyyy HH:mm`, one whitespace character and a message (`PATTERN`). It parses the date-time with `FORMATTER`.
  - When both succeed, it stores a reminder (chat, message, due time) and confirms it.
  - Otherwise it replies that the format is wrong.
  - An update without a message or without text throws. That ends the batch, because the `try` surrounds the whole `forEach`.
  - The batch is always acknowledged as a whole (`CONFIRMED_UPDATES_ALL`).
- **Dispatch** (`NotificationTaskTimer.task`). Once a minute it reads the clock truncated to the minute. It asks the repository for the reminders due at exactly that minute. One by one, it sends each reminder's text to its user and then deletes the reminder.

Files:

- `wrappers.dfy`: `Option`.
- `time.dfy`: `LocalDateTime` as a record of calendar fields, `truncatedTo(MINUTES)`, month lengths and the next day.
- `date_format.dfy`: `FORMATTER` and the listener's private `parse`.
  - Parsing is strict on the layout.
  - It resolves fields the way java.time's SMART resolver does.
  - It returns `None` where Java throws `DateTimeParseException`.
- `pattern.dfy`: `PATTERN` and `Matcher.find()` as a leftmost-match search, with the three groups.
- `store.dfy`: the collaborators.
  - The repository is a class over a map from store-assigned ids to tasks.
  - `SendHelper` records what it sends in a sequence of outgoing messages.
  - Both collaborators append to one shared ghost effect log: a send records `Sent`, a delete records `Deleted`. The log therefore fixes the order of their calls.
- `timer.dfy`: `task()` as a method over those objects.
  - It is proved against specification functions: which tasks are gone, which messages were sent.
  - The order of sends and deletes is stated on the shared effect log, which only the collaborators write.
- `listener.dfy`: `process()` as a method over those objects.
  - It is proved against a pure description of a batch: decide every update (`Classify`), then act on the decisions in order.
  - Lemmas about that description cover replies, stored reminders and the abort on the first failing update.

`LocalDateTime.now()` becomes the parameter `now` of `Task`. The transport becomes the `outbox` sequence.

## Model

| member | source | states |
|---|---|---|
| Time.DaysInMonth | src/main/java/pro/sky/telegrambot/listener/TelegramBotUpdatesListener.java:79 | The month lengths `LocalDateTime.parse` resolves against: 31 days exactly for months 1, 3, 5, 7, 8, 10 and 12; 30 days exactly for months 4, 6, 9 and 11; February has 29 days exactly in leap years. |
| Time.TruncatedToMinutes | src/main/java/pro/sky/telegrambot/component/NotificationTaskTimer.java:25 | `truncatedTo(MINUTES)` gives a minute-aligned instant (zero seconds and nanos) in the same minute as the clock, and keeps a valid date-time valid. |
| Time.TruncationMatchesOnlyItsMinute | src/main/java/pro/sky/telegrambot/component/NotificationTaskTimer.java:24-25 | A minute-aligned due time equals the truncated clock exactly when the clock reads that minute. So the lookup matches neither overdue nor future reminders. |
| Time.TruncationIdempotent | src/main/java/pro/sky/telegrambot/component/NotificationTaskTimer.java:25 | Truncating twice equals truncating once. An instant is minute-aligned exactly when truncation leaves it unchanged. |
| Time.PlusOneDay | src/main/java/pro/sky/telegrambot/listener/TelegramBotUpdatesListener.java:79 | The next day, which is where "24:00" resolves to. The result is valid and keeps the time of day. Either the day advances within the month, or the last day of a month rolls over to the 1st of the next month, or 31 December rolls over to 1 January of the next year. |
| DateFormat.Resolve | src/main/java/pro/sky/telegrambot/listener/TelegramBotUpdatesListener.java:79 | The fields resolve exactly when year-of-era ≥ 1, month 1..12, day 1..31, minute 0..59 and hour 0..23 (or 24:00). The day is clamped to the month's length. 24:00 becomes midnight of the next day. Every result is valid and minute-aligned. |
| DateFormat.Parse | src/main/java/pro/sky/telegrambot/listener/TelegramBotUpdatesListener.java:77-83 | `parse` yields a date-time only for a text of the exact 16-character `dd.MM.yyyy HH:mm` layout. The result is always a valid, minute-aligned date-time with year 1..10000. Every other text gives `None`, where Java returns null. |
| DateFormat.Format | src/main/java/pro/sky/telegrambot/listener/TelegramBotUpdatesListener.java:28 | `FORMATTER.format` of a date-time with a four-digit year has the `dd.MM.yyyy HH:mm` layout. |
| DateFormat.FormatFields | src/main/java/pro/sky/telegrambot/listener/TelegramBotUpdatesListener.java:28 | The day, month, year, hour and minute fields of the formatted text read back as the date-time's own fields. |
| DateFormat.ParseFormatRoundTrip | src/main/java/pro/sky/telegrambot/listener/TelegramBotUpdatesListener.java:28 | Parsing the formatted text of any valid, minute-aligned date-time with year 1..9999 gives back that date-time. |
| DateFormat.FormatParseRoundTrip | src/main/java/pro/sky/telegrambot/listener/TelegramBotUpdatesListener.java:77-83 | A text in canonical ranges parses, and formatting the result gives back the text. Canonical ranges need no clamping and no 24:00. |
| DateFormat.FormatExample | src/main/java/pro/sky/telegrambot/listener/TelegramBotUpdatesListener.java:25-26 | The date-time of the welcome text's example formats as "01.01.2023 00:00". |
| Pattern.TextClassIsNonWord | src/main/java/pro/sky/telegrambot/listener/TelegramBotUpdatesListener.java:27 | The class `[\W+]` of group 3 is exactly the non-word characters. |
| Pattern.RunEnd | src/main/java/pro/sky/telegrambot/listener/TelegramBotUpdatesListener.java:27 | Greedy `[\W+]+` stops at the first character outside the class, or at the end of the text. Everything it passes over is in the class. |
| Pattern.MatchAt | src/main/java/pro/sky/telegrambot/listener/TelegramBotUpdatesListener.java:27 | PATTERN matches at position i exactly when there are 16 characters of `[0-9.:\s]`, then one `\s`, then a non-word character. Group 1 is the 16 characters and group 2 the separator. Group 3 is the longest non-empty run of non-word characters: the match ends at the end of the text or before a word character. |
| Pattern.FindFrom | src/main/java/pro/sky/telegrambot/listener/TelegramBotUpdatesListener.java:58-61 | Searching from i finds the first position at or after i where PATTERN matches. No position before it matches. `None` means no position matches. |
| Pattern.Find | src/main/java/pro/sky/telegrambot/listener/TelegramBotUpdatesListener.java:58-61 | `matcher.find()` returns the leftmost match, or none when PATTERN matches nowhere in the text. |
| Pattern.WholeTextMatch | src/main/java/pro/sky/telegrambot/listener/TelegramBotUpdatesListener.java:27 | A text made of 16 date-class characters, one whitespace and a run of non-word characters is matched whole from position 0. The groups are exactly those three parts. |
| Pattern.TextClassRunReachesEnd | src/main/java/pro/sky/telegrambot/listener/TelegramBotUpdatesListener.java:27 | A run of group 3's class that lasts to the end of the text is consumed to the end. |
| Pattern.ShortTextHasNoMatch | src/main/java/pro/sky/telegrambot/listener/TelegramBotUpdatesListener.java:58-61 | A text shorter than 18 characters never matches. |
| Store.DueAtTickAreThisMinute | src/main/java/pro/sky/telegrambot/component/NotificationTaskTimer.java:24-25 | Among stored tasks with a whole-minute due time, a task is selected by the truncated clock exactly when it is due in the clock's current minute. Overdue and later tasks are never selected. |
| Store.NotificationTaskRepository.constructor | src/main/java/pro/sky/telegrambot/component/NotificationTaskTimer.java:14 | A new repository is empty, and ids start at 0. |
| Store.NotificationTaskRepository.Save | src/main/java/pro/sky/telegrambot/listener/TelegramBotUpdatesListener.java:63 | `create` stores the task under a fresh id that was never used. Every other entry is unchanged. |
| Store.NotificationTaskRepository.FindAllByNotificationDateTime | src/main/java/pro/sky/telegrambot/component/NotificationTaskTimer.java:24-26 | Returns the ids of exactly the tasks due at t, each once, in an order the repository chooses. The store is unchanged. |
| Store.NotificationTaskRepository.Delete | src/main/java/pro/sky/telegrambot/component/NotificationTaskTimer.java:28 | `delete` removes that task and nothing else. It appends one `Deleted` entry for that id to the shared effect log. |
| Store.SendHelper.constructor | src/main/java/pro/sky/telegrambot/component/NotificationTaskTimer.java:15 | A new transport has sent nothing. It writes to the given effect log. |
| Store.SendHelper.SendMessage | src/main/java/pro/sky/telegrambot/component/NotificationTaskTimer.java:27 | `sendMessage` appends one message with that chat and text to what was sent. It appends one `Sent` entry with the same chat and text to the shared effect log. |
| Store.SentOf | src/main/java/pro/sky/telegrambot/listener/TelegramBotUpdatesListener.java:56-66 | The effects of sending a sequence of messages: one `Sent` per message, in the same order, with the same chat and text. |
| Store.SentOfGrows | src/main/java/pro/sky/telegrambot/listener/TelegramBotUpdatesListener.java:51 | Sending one more message extends the recorded effects by that message's `Sent`. |
| Timer.NotDue | src/main/java/pro/sky/telegrambot/component/NotificationTaskTimer.java:24-29 | The store after a tick: an id remains exactly when it was stored and not due. Remaining entries are unchanged, and nothing due at t remains. |
| Timer.DeliveriesOnePerTask | src/main/java/pro/sky/telegrambot/component/NotificationTaskTimer.java:26-27 | Exactly one message is sent per handled task, in the handling order, with that task's text and addressed to that task's user. |
| Timer.SendPrecedesDelete | src/main/java/pro/sky/telegrambot/component/NotificationTaskTimer.java:26-29 | In the effects of handling tasks in order, the k-th task is sent at position 2k and deleted at 2k+1. So each send comes right before its delete, and no other task's effect falls between them. `Task` proves that its calls produce exactly these effects in the shared log. |
| Timer.DeletedExactlyOnce | src/main/java/pro/sky/telegrambot/component/NotificationTaskTimer.java:28 | With distinct ids, the only delete of the k-th task is effect 2k+1. |
| Timer.IdleTick | src/main/java/pro/sky/telegrambot/component/NotificationTaskTimer.java:24-29 | When nothing is due, the tick handles no task, sends nothing, deletes nothing and leaves the store as it was. |
| Timer.PrefixStep | src/main/java/pro/sky/telegrambot/component/NotificationTaskTimer.java:26-29 | Handling the next task of a distinct order finds it still stored and unchanged. It removes just that id and appends its message and its two effects. |
| Timer.WithoutKeeps | src/main/java/pro/sky/telegrambot/component/NotificationTaskTimer.java:28 | Deleting ids one after another removes exactly those ids and changes no other entry. |
| Timer.RemovedAllDue | src/main/java/pro/sky/telegrambot/component/NotificationTaskTimer.java:24-29 | Deleting exactly the due ids, in any order, leaves exactly the not-due part of the store. |
| Timer.NotificationTaskTimer.constructor | src/main/java/pro/sky/telegrambot/component/NotificationTaskTimer.java:17-20 | The timer holds the given repository and transport. |
| Timer.NotificationTaskTimer.Task | src/main/java/pro/sky/telegrambot/component/NotificationTaskTimer.java:23-31 | A tick at `now` handles each task due at the truncated minute exactly once. Afterwards the store is the not-due part of the old store and the id counter is unchanged. The outbox is extended by one reminder per due task, in handling order. The repository and transport share one effect log, and their own calls extend it by a send and then a delete for each task, in handling order. |
| Listener.Classify | src/main/java/pro/sky/telegrambot/listener/TelegramBotUpdatesListener.java:55-66 | The reaction is the welcome exactly for "/start". A reminder is scheduled exactly when the text is not "/start", PATTERN finds a match, and its group 1 parses. A reminder is scheduled only from a text that holds, at some position, a date-time that parses to its due time, one whitespace and then its message. The due time is valid and minute-aligned. The message is non-empty and has no word characters. |
| Listener.WelcomeExampleSchedules | src/main/java/pro/sky/telegrambot/listener/TelegramBotUpdatesListener.java:25-26 | The example in the welcome text, "01.01.2023 00:00 Текст события", schedules "Текст события" for 1 January 2023 at 00:00. |
| Listener.ScheduleRoundTrip | src/main/java/pro/sky/telegrambot/listener/TelegramBotUpdatesListener.java:58-64 | A formatted date-time, a space and a message of non-word characters schedules exactly that message at exactly that date-time. |
| Listener.StartRepliesWelcome | src/main/java/pro/sky/telegrambot/listener/TelegramBotUpdatesListener.java:55-56 | "/start" gets exactly one reply, the welcome text, to its chat. It creates no reminder. |
| Listener.MatchCreatesReminder | src/main/java/pro/sky/telegrambot/listener/TelegramBotUpdatesListener.java:58-64 | When the leftmost match's group 1 parses, exactly one reminder is created under the next fresh id, with the sender's chat, group 3 and the parsed date-time. Then exactly one confirmation goes to the same chat. |
| Listener.OtherTextIsFormatError | src/main/java/pro/sky/telegrambot/listener/TelegramBotUpdatesListener.java:58-66 | Any other text, with no match or with a group 1 that does not parse, gets exactly one format-error reply to its chat. It creates no reminder. |
| Listener.FirstFailure | src/main/java/pro/sky/telegrambot/listener/TelegramBotUpdatesListener.java:50-53 | The position of the first update without a message or text, or the batch length. Every update before it has a message with text. |
| Listener.OneReplyPerDecision | src/main/java/pro/sky/telegrambot/listener/TelegramBotUpdatesListener.java:55-67 | Acting on decisions sends exactly one reply per decision, in order, to its chat and with its reaction's text. Earlier messages stay. |
| Listener.StoreGrowsByScheduled | src/main/java/pro/sky/telegrambot/listener/TelegramBotUpdatesListener.java:61-63 | The store only grows. The id counter advances by the number of scheduled reminders, and old entries stay unchanged. New entries take exactly the fresh ids, and every id stays below the counter. |
| Listener.ScheduledTaskStored | src/main/java/pro/sky/telegrambot/listener/TelegramBotUpdatesListener.java:61-63 | The reminder of a scheduling decision is stored under the counter plus the number of earlier scheduling decisions, with that decision's chat, message and due time. |
| Listener.ActKeepsStoreAligned | src/main/java/pro/sky/telegrambot/listener/TelegramBotUpdatesListener.java:61-63 | Decisions whose due times are valid and minute-aligned keep every stored due time so. |
| Listener.BatchReplies | src/main/java/pro/sky/telegrambot/listener/TelegramBotUpdatesListener.java:49-74 | A batch sends exactly one reply per update before the first that throws, and none after it. Each reply goes to that update's chat with the text its classification calls for. |
| Listener.BatchKeepsStoreAligned | src/main/java/pro/sky/telegrambot/listener/TelegramBotUpdatesListener.java:61-63 | A batch stores only due times the timer can match: valid and minute-aligned. |
| Listener.AbortIgnoresTheRest | src/main/java/pro/sky/telegrambot/listener/TelegramBotUpdatesListener.java:50-72 | Two batches that agree up to and including their first throwing update end in the same state, whatever follows. |
| Listener.AgreeUpToFailure | src/main/java/pro/sky/telegrambot/listener/TelegramBotUpdatesListener.java:50-72 | Batches that agree up to and including the first throwing update of one fail at the same position and agree before it. |
| Listener.FirstFailureIsFirst | src/main/java/pro/sky/telegrambot/listener/TelegramBotUpdatesListener.java:50-53 | The first failure position is the only position with no failure before it and a failure, or the end of the batch, at it. |
| Listener.DecisionsStep | src/main/java/pro/sky/telegrambot/listener/TelegramBotUpdatesListener.java:51 | Deciding one more update appends that update's decision. |
| Listener.TelegramBotUpdatesListener.constructor | src/main/java/pro/sky/telegrambot/listener/TelegramBotUpdatesListener.java:25-40 | The listener holds the welcome text of its field and the given service and transport, as its constructor stores them. |
| Listener.TelegramBotUpdatesListener.Handle | src/main/java/pro/sky/telegrambot/listener/TelegramBotUpdatesListener.java:52-68 | For one update with text, the new store and outbox are what the description of the update's decision says. Exactly one reply is sent, and it is recorded in the effect log. |
| Listener.TelegramBotUpdatesListener.Process | src/main/java/pro/sky/telegrambot/listener/TelegramBotUpdatesListener.java:48-74 | `process` returns `CONFIRMED_UPDATES_ALL`. Its store and outbox end as the batch description says: updates up to the first throwing one are handled in order, and the rest are ignored. The repository's id invariant is kept. The effect log grows by exactly the sends of the new outbox messages, in order. |

## Left out

- Spring wiring is not modelled: `@Scheduled`, `@Transactional`, `@PostConstruct init()` and the listener registration. The timer's minute cadence is a caller that invokes `Task` once a minute.
- A tick is not modelled as a transaction.
- Concurrency between a tick and a batch is not modelled.
- Failures of the transport are not modelled: `SendMessage` always succeeds. A send failure inside a tick would roll back or abort, and that is not modelled.
- Logging in the `catch` block is not modelled; the catch only ends the batch.
- The service and repository internals are not part of this model.
  - `notificationTaskService.create` is modelled as saving a new task under a fresh id.
  - The JPA query is modelled as a filter on exact due-time equality.
  - The order in which the repository returns due tasks is left arbitrary.
- `update.message().chat()` is taken to be present whenever the message is.
- An update without a message or without text is modelled as the `NullPointerException` that ends the batch. No other exception inside the loop is modelled.
- `CONFIRMED_UPDATES_ALL` is the chat library's constant -1. That library is not part of this model.
- Texts are sequences of Unicode code points, whereas Java strings are UTF-16 code units.
  - For characters outside the Basic Multilingual Plane, a regex over code points and `length()` over code units could disagree.
  - Such characters are taken as single characters here.
- DateFormat.Parse: a year field with a sign or more than four digits cannot occur in 16 characters that also hold the fixed separators, so it is not modelled.
- DateFormat.Parse: digits outside ASCII are rejected. This matches the formatter's default decimal style.
- The welcome text is the listener's field `welcomeMessage`. The batch description takes it as a parameter rather than repeating the literal.
