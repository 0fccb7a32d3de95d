/**
 * TelegramBotUpdatesListener.process(): for each incoming update, reply to
 * "/start" with the welcome text; otherwise look for PATTERN in the text and,
 * when its first group parses as a date-time, store a new reminder and
 * confirm it; otherwise reply that the format is wrong. An update without a
 * message or without text makes the handler throw, which ends the batch.
 */
module Listener {
  import opened Wrappers
  import opened Time
  import opened DateFormat
  import opened Pattern
  import opened Store

  const StartCommand: string := "/start"
  const WelcomeMessage: string :=
    "Привет! Я помогу тебе напомнить о запланированном событии! "
    + "Отправь сообщение в формате: 01.01.2023 00:00 Текст события"
  const ScheduledReply: string := "Событие запланировано."
  const FormatErrorReply: string := "Некорректный формат сообщения!"
  /** UpdatesListener.CONFIRMED_UPDATES_ALL: every update of the batch is acknowledged. */
  const ConfirmedUpdatesAll: int := -1

  /** An incoming chat message; its text is absent for stickers, photos and the like. */
  datatype Message = Message(chatId: int, text: Option<string>)

  /** An update from the chat transport; its message is absent for other kinds of update. */
  datatype Update = Update(message: Option<Message>)

  /**
   * Handling this update throws a NullPointerException: reading the text of
   * a missing message, or matching PATTERN against a missing text (which is
   * not "/start", since equals(null) is false).
   */
  predicate Throws(u: Update)
  {
    u.message.None? || u.message.value.text.None?
  }

  function ChatOf(u: Update): int
    requires !Throws(u)
  {
    u.message.value.chatId
  }

  function TextOf(u: Update): string
    requires !Throws(u)
  {
    u.message.value.text.value
  }

  /** What the listener decides for one text. */
  datatype Reaction = Welcome | Schedule(dueAt: LocalDateTime, message: string) | FormatError

  /**
   * The decision for one text. A reminder is scheduled only from the
   * leftmost match of PATTERN whose first group parses; its message is the
   * third group and its due time is what the first group denotes.
   */
  function Classify(text: string): (r: Reaction)
    ensures r.Welcome? <==> text == StartCommand
    ensures r.Schedule? <==> text != StartCommand && Find(text).Some? && Parse(Find(text).value.group1).Some?
    ensures r.Schedule? ==>
      && Valid(r.dueAt) && MinuteAligned(r.dueAt)
      && r.message != [] && (forall c <- r.message :: !IsWordChar(c))
    ensures r.Schedule? ==> exists i :: WrittenAt(text, i, r.dueAt, r.message)
  {
    if text == StartCommand then Welcome
    else
      var found := Find(text);
      if found.None? then FormatError
      else
        var m := found.value;
        var parsed := Parse(m.group1);
        if parsed.None? then FormatError
        else
          assert WrittenAt(text, m.start, parsed.value, m.group3);
          Schedule(parsed.value, m.group3)
  }

  /**
   * At position i the text holds a date-time that parses to dueAt, one
   * whitespace character, and then the message.
   */
  predicate WrittenAt(text: string, i: int, dueAt: LocalDateTime, message: string)
  {
    && 0 <= i && i + 17 + |message| <= |text|
    && Parse(text[i..i + 16]) == Some(dueAt)
    && IsSpace(text[i + 16])
    && text[i + 17..i + 17 + |message|] == message
  }

  /** The reply to a reaction; the welcome text is the listener's own field. */
  function ReplyText(r: Reaction, welcome: string): string
  {
    match r
    case Welcome => welcome
    case Schedule(_, _) => ScheduledReply
    case FormatError => FormatErrorReply
  }

  /** The reminder the welcome message shows as an example is scheduled as such. */
  lemma WelcomeExampleSchedules(text: string)
    requires text == "01.01.2023 00:00 Текст события"
    ensures Classify(text) == Schedule(LocalDateTime(2023, 1, 1, 0, 0, 0, 0), "Текст события")
  {
    var t := LocalDateTime(2023, 1, 1, 0, 0, 0, 0);
    FormatExample();
    ScheduleRoundTrip(t, "Текст события");
    ExampleTextSplits(Format(t), text);
  }

  lemma ExampleTextSplits(date: string, text: string)
    requires date == "01.01.2023 00:00" && text == "01.01.2023 00:00 Текст события"
    ensures text == date + " " + "Текст события"
  {
  }

  /**
   * Intake accepts what it asks for: a date-time in the "dd.MM.yyyy HH:mm"
   * layout, one space, and a message of non-word characters is scheduled
   * with exactly that due time and that message.
   */
  lemma ScheduleRoundTrip(t: LocalDateTime, message: string)
    requires Valid(t) && MinuteAligned(t) && 1 <= t.year <= 9999
    requires message != [] && forall c <- message :: !IsWordChar(c)
    ensures Classify(Format(t) + " " + message) == Schedule(t, message)
  {
    var f := Format(t);
    var text := f + " " + message;
    forall j | 0 <= j < 16 ensures InDateClass(text[j]) {
      assert text[j] == f[j];
    }
    forall j | 17 <= j < |text| ensures !IsWordChar(text[j]) {
      assert text[j] == message[j - 17];
    }
    WholeTextMatch(text);
    assert text[..16] == f && text[17..] == message;
    ParseFormatRoundTrip(t);
  }

  /** The state a batch acts on: the store and the messages sent so far. */
  datatype Snapshot = Snapshot(tasks: map<Id, NotificationTask>, nextId: Id, outbox: seq<OutMessage>)

  /** NotificationTaskRepository.Valid, read off a snapshot: every id was handed out. */
  predicate StoreValid(s: Snapshot)
  {
    forall id | id in s.tasks :: id < s.nextId
  }

  /** Every stored due time is a valid, minute-aligned date-time. */
  predicate StoreAligned(s: Snapshot)
  {
    forall id | id in s.tasks :: Valid(s.tasks[id].dueAt) && MinuteAligned(s.tasks[id].dueAt)
  }

  /** What the listener decided for one update: the chat to answer and the reaction. */
  datatype Decision = Decision(chatId: int, reaction: Reaction)

  function Decide(u: Update): Decision
    requires !Throws(u)
  {
    Decision(ChatOf(u), Classify(TextOf(u)))
  }

  /** The decisions for updates that do not throw, in order. */
  function Decisions(updates: seq<Update>): seq<Decision>
    requires forall u <- updates :: !Throws(u)
  {
    seq(|updates|, k requires 0 <= k < |updates| => Decide(updates[k]))
  }

  /** Carrying out one decision: at most one new task, then exactly one reply to its chat. */
  function Act(s: Snapshot, welcome: string, d: Decision): Snapshot
  {
    var stored :=
      if d.reaction.Schedule? then
        s.(tasks := s.tasks[s.nextId := NotificationTask(d.chatId, d.reaction.message, d.reaction.dueAt)],
           nextId := s.nextId + 1)
      else s;
    stored.(outbox := stored.outbox + [OutMessage(d.chatId, ReplyText(d.reaction, welcome))])
  }

  /** Carrying out decisions one after the other. */
  function ActAll(s: Snapshot, welcome: string, ds: seq<Decision>): Snapshot
  {
    if ds == [] then s else Act(ActAll(s, welcome, ds[..|ds| - 1]), welcome, ds[|ds| - 1])
  }

  /** The position of the first update that throws, or the length when none does. */
  function FirstFailure(updates: seq<Update>): (n: nat)
    ensures n <= |updates|
    ensures forall j | 0 <= j < n :: !Throws(updates[j])
    ensures n < |updates| ==> Throws(updates[n])
  {
    if updates == [] || Throws(updates[0]) then 0 else 1 + FirstFailure(updates[1..])
  }

  /** A batch: the updates before the first one that throws are handled; the rest are not. */
  function HandleAll(s: Snapshot, welcome: string, updates: seq<Update>): Snapshot
  {
    ActAll(s, welcome, Decisions(updates[..FirstFailure(updates)]))
  }

  /** "/start" gets exactly the welcome text, to its chat, and creates no reminder. */
  lemma StartRepliesWelcome(s: Snapshot, welcome: string, chatId: int, text: string)
    requires text == StartCommand
    ensures Act(s, welcome, Decision(chatId, Classify(text))) == s.(outbox := s.outbox + [OutMessage(chatId, welcome)])
  {
  }

  /**
   * A text whose leftmost match has a first group that parses creates one
   * reminder under the next fresh id, carrying the chat, the third group and
   * the parsed date-time, and is then confirmed to the same chat.
   */
  lemma MatchCreatesReminder(s: Snapshot, welcome: string, chatId: int, text: string)
    requires text != StartCommand && Find(text).Some? && Parse(Find(text).value.group1).Some?
    ensures var r, m := Act(s, welcome, Decision(chatId, Classify(text))), Find(text).value;
      && r.tasks == s.tasks[s.nextId := NotificationTask(chatId, m.group3, Parse(m.group1).value)]
      && r.nextId == s.nextId + 1
      && r.outbox == s.outbox + [OutMessage(chatId, ScheduledReply)]
  {
  }

  /** Any other text gets exactly the format error, to its chat, and creates no reminder. */
  lemma OtherTextIsFormatError(s: Snapshot, welcome: string, chatId: int, text: string)
    requires text != StartCommand && (Find(text).None? || Parse(Find(text).value.group1).None?)
    ensures Act(s, welcome, Decision(chatId, Classify(text))) == s.(outbox := s.outbox + [OutMessage(chatId, FormatErrorReply)])
  {
  }

  /** How many of the decisions schedule a reminder. */
  function CountScheduled(ds: seq<Decision>): nat
  {
    if ds == [] then 0
    else CountScheduled(ds[..|ds| - 1]) + (if ds[|ds| - 1].reaction.Schedule? then 1 else 0)
  }

  /**
   * Every decision is answered by exactly one reply, to its own chat, with
   * the text its reaction calls for, in order; earlier messages stay.
   */
  lemma {:induction false} OneReplyPerDecision(s: Snapshot, welcome: string, ds: seq<Decision>)
    ensures |ActAll(s, welcome, ds).outbox| == |s.outbox| + |ds|
    ensures ActAll(s, welcome, ds).outbox[..|s.outbox|] == s.outbox
    ensures forall k | 0 <= k < |ds| ::
      ActAll(s, welcome, ds).outbox[|s.outbox| + k] == OutMessage(ds[k].chatId, ReplyText(ds[k].reaction, welcome))
  {
    if ds != [] {
      var init := ds[..|ds| - 1];
      OneReplyPerDecision(s, welcome, init);
      forall k | 0 <= k < |init| ensures init[k] == ds[k] { }
    }
  }

  /**
   * The store only grows, and only by scheduled reminders: old entries stay,
   * the k-th decision that schedules creates the entry with the next fresh
   * id, carrying that decision's chat, message and due time; no other entry
   * is created.
   */
  lemma {:induction false} StoreGrowsByScheduled(s: Snapshot, welcome: string, ds: seq<Decision>)
    requires StoreValid(s)
    ensures var r := ActAll(s, welcome, ds);
      && StoreValid(r)
      && r.nextId == s.nextId + CountScheduled(ds)
      && (forall id | id in s.tasks :: id in r.tasks && r.tasks[id] == s.tasks[id])
      && (forall id | id in r.tasks :: id in s.tasks || s.nextId <= id)
      && (forall id | s.nextId <= id < r.nextId :: id in r.tasks)
  {
    if ds != [] {
      StoreGrowsByScheduled(s, welcome, ds[..|ds| - 1]);
    }
  }

  /** Where the k-th decision's reminder is stored, if it schedules one. */
  lemma {:induction false} ScheduledTaskStored(s: Snapshot, welcome: string, ds: seq<Decision>, k: nat)
    requires StoreValid(s) && k < |ds| && ds[k].reaction.Schedule?
    ensures var id := s.nextId + CountScheduled(ds[..k]);
      && id in ActAll(s, welcome, ds).tasks
      && ActAll(s, welcome, ds).tasks[id] == NotificationTask(ds[k].chatId, ds[k].reaction.message, ds[k].reaction.dueAt)
  {
    var n := |ds| - 1;
    var init := ds[..n];
    StoreGrowsByScheduled(s, welcome, init);
    if k < n {
      assert ds[..k] == init[..k];
      ScheduledTaskStored(s, welcome, init, k);
    } else {
      assert ds[..k] == init;
    }
  }

  /** Decisions whose reminders have valid, minute-aligned due times keep the store so. */
  lemma {:induction false} ActKeepsStoreAligned(s: Snapshot, welcome: string, ds: seq<Decision>)
    requires StoreAligned(s)
    requires forall d <- ds :: d.reaction.Schedule? ==> Valid(d.reaction.dueAt) && MinuteAligned(d.reaction.dueAt)
    ensures StoreAligned(ActAll(s, welcome, ds))
  {
    if ds != [] {
      ActKeepsStoreAligned(s, welcome, ds[..|ds| - 1]);
    }
  }

  /**
   * A batch replies once to each update before the first that throws, to
   * that update's chat and with the reply its text calls for; earlier
   * messages stay.
   */
  lemma BatchReplies(s: Snapshot, welcome: string, updates: seq<Update>)
    ensures var n, r := FirstFailure(updates), HandleAll(s, welcome, updates);
      && |r.outbox| == |s.outbox| + n
      && r.outbox[..|s.outbox|] == s.outbox
      && (forall k | 0 <= k < n ::
            r.outbox[|s.outbox| + k] == OutMessage(ChatOf(updates[k]), ReplyText(Classify(TextOf(updates[k])), welcome)))
  {
    var n := FirstFailure(updates);
    var prefix := updates[..n];
    var ds := Decisions(prefix);
    OneReplyPerDecision(s, welcome, ds);
    forall k | 0 <= k < n ensures ds[k] == Decide(updates[k]) {
      assert prefix[k] == updates[k];
    }
  }

  /** A batch stores only reminders due at a valid, whole minute. */
  lemma BatchKeepsStoreAligned(s: Snapshot, welcome: string, updates: seq<Update>)
    requires StoreAligned(s)
    ensures StoreAligned(HandleAll(s, welcome, updates))
  {
    var ds := Decisions(updates[..FirstFailure(updates)]);
    forall d <- ds ensures d.reaction.Schedule? ==> Valid(d.reaction.dueAt) && MinuteAligned(d.reaction.dueAt) {
    }
    ActKeepsStoreAligned(s, welcome, ds);
  }

  /**
   * An update that throws ends the batch: two batches that agree up to and
   * including the first update that throws end in the same state, whatever
   * follows it.
   */
  lemma AbortIgnoresTheRest(s: Snapshot, welcome: string, a: seq<Update>, b: seq<Update>)
    requires FirstFailure(a) < |a| && FirstFailure(a) < |b|
    requires a[..FirstFailure(a) + 1] == b[..FirstFailure(a) + 1]
    ensures HandleAll(s, welcome, a) == HandleAll(s, welcome, b)
  {
    AgreeUpToFailure(a, b);
  }

  /** Batches that agree up to the first failure of one fail at the same place. */
  lemma AgreeUpToFailure(a: seq<Update>, b: seq<Update>)
    requires FirstFailure(a) < |a| && FirstFailure(a) < |b|
    requires a[..FirstFailure(a) + 1] == b[..FirstFailure(a) + 1]
    ensures FirstFailure(b) == FirstFailure(a)
    ensures a[..FirstFailure(a)] == b[..FirstFailure(a)]
  {
    var n := FirstFailure(a);
    forall j | 0 <= j <= n ensures a[j] == b[j] {
      assert a[..n + 1][j] == b[..n + 1][j];
    }
    FirstFailureIsFirst(b, n);
    assert a[..n] == b[..n];
  }

  /** FirstFailure is the only position with no failure before it and a failure (or the end) at it. */
  lemma {:induction false} FirstFailureIsFirst(updates: seq<Update>, n: nat)
    requires n <= |updates|
    requires forall j | 0 <= j < n :: !Throws(updates[j])
    requires n < |updates| ==> Throws(updates[n])
    ensures FirstFailure(updates) == n
  {
    if n > 0 {
      assert !Throws(updates[0]);
      FirstFailureIsFirst(updates[1..], n - 1);
    }
  }

  /** Deciding one more update appends its decision. */
  lemma DecisionsStep(updates: seq<Update>, i: nat)
    requires i < |updates| && forall j | 0 <= j <= i :: !Throws(updates[j])
    ensures Decisions(updates[..i + 1]) == Decisions(updates[..i]) + [Decide(updates[i])]
  {
  }

  class TelegramBotUpdatesListener {
    const welcomeMessage: string
    /** The service is modelled by the repository it writes to: create is Save. */
    const notificationTaskService: NotificationTaskRepository
    const sendHelper: SendHelper

    constructor (notificationTaskService: NotificationTaskRepository, sendHelper: SendHelper)
      ensures welcomeMessage == WelcomeMessage
      ensures this.notificationTaskService == notificationTaskService && this.sendHelper == sendHelper
    {
      welcomeMessage := WelcomeMessage;
      this.notificationTaskService := notificationTaskService;
      this.sendHelper := sendHelper;
    }

    function State(): Snapshot
      reads notificationTaskService, sendHelper
    {
      Snapshot(notificationTaskService.tasks, notificationTaskService.nextId, sendHelper.outbox)
    }

    /** The body of process's forEach for an update that has a message with text. */
    method Handle(chatId: int, text: string)
      requires notificationTaskService.Valid()
      modifies notificationTaskService, sendHelper, sendHelper.log
      ensures notificationTaskService.Valid()
      ensures State() == Act(old(State()), welcomeMessage, Decision(chatId, Classify(text)))
      ensures sendHelper.outbox == old(sendHelper.outbox) + [OutMessage(chatId, ReplyText(Classify(text), welcomeMessage))]
      ensures sendHelper.log.effects == old(sendHelper.log.effects) + [Sent(chatId, ReplyText(Classify(text), welcomeMessage))]
    {
      if text == StartCommand {
        sendHelper.SendMessage(chatId, welcomeMessage);
      } else {
        var matcher := Find(text);
        var dueAt := if matcher.Some? then Parse(matcher.value.group1) else None;
        if matcher.Some? && dueAt.Some? {
          var _ := notificationTaskService.Save(NotificationTask(chatId, matcher.value.group3, dueAt.value));
          sendHelper.SendMessage(chatId, ScheduledReply);
        } else {
          sendHelper.SendMessage(chatId, FormatErrorReply);
        }
      }
    }

    /** process(updates): handle the batch in order, stopping at the first update that throws. */
    method Process(updates: seq<Update>) returns (r: int)
      requires notificationTaskService.Valid()
      modifies notificationTaskService, sendHelper, sendHelper.log
      ensures notificationTaskService.Valid()
      ensures r == ConfirmedUpdatesAll
      ensures State() == HandleAll(old(State()), welcomeMessage, updates)
      ensures |old(sendHelper.outbox)| <= |sendHelper.outbox|
      ensures sendHelper.log.effects == old(sendHelper.log.effects) + SentOf(sendHelper.outbox[|old(sendHelper.outbox)|..])
    {
      ghost var s0, effects0 := State(), sendHelper.log.effects;
      var i := 0;
      while i < |updates|
        invariant 0 <= i <= |updates|
        invariant forall j | 0 <= j < i :: !Throws(updates[j])
        invariant notificationTaskService.Valid()
        invariant State() == ActAll(s0, welcomeMessage, Decisions(updates[..i]))
        invariant |s0.outbox| <= |sendHelper.outbox|
        invariant sendHelper.log.effects == effects0 + SentOf(sendHelper.outbox[|s0.outbox|..])
      {
        var update := updates[i];
        if update.message.None? || update.message.value.text.None? {
          // the NullPointerException leaves forEach and is logged by the catch
          break;
        }
        DecisionsStep(updates, i);
        var chatId, text := update.message.value.chatId, update.message.value.text.value;
        ghost var before := sendHelper.outbox;
        ghost var m := OutMessage(chatId, ReplyText(Classify(text), welcomeMessage));
        SentOfGrows(effects0, |s0.outbox|, before, m);
        Handle(chatId, text);
        i := i + 1;
      }
      FirstFailureIsFirst(updates, i);
      r := ConfirmedUpdatesAll;
    }
  }
}
