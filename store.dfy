/**
 * The collaborators both components share: the notification repository
 * (a table of tasks keyed by a store-assigned id) and SendHelper (the chat
 * transport, recorded as the sequence of messages it was asked to send).
 */
module Store {
  import opened Time

  type Id = nat

  /** A stored reminder: who gets it, what it says and when it is due. */
  datatype NotificationTask = NotificationTask(userId: int, message: string, dueAt: LocalDateTime)

  /** One outgoing chat message. */
  datatype OutMessage = OutMessage(chatId: int, text: string)

  /** What the collaborators do to the outside world, in the order they do it. */
  datatype Effect = Sent(chatId: int, text: string) | Deleted(id: Id)

  /**
   * The shared record of sends and deletes. The repository and the
   * transport each append to it, so it fixes the order of their calls.
   */
  class EffectLog {
    ghost var effects: seq<Effect>

    constructor ()
      ensures effects == []
    {
      effects := [];
    }
  }

  /** The effects of sending these messages, one after the other. */
  function SentOf(msgs: seq<OutMessage>): (r: seq<Effect>)
    ensures |r| == |msgs|
    ensures forall k | 0 <= k < |msgs| :: r[k] == Sent(msgs[k].chatId, msgs[k].text)
  {
    if msgs == [] then []
    else SentOf(msgs[..|msgs| - 1]) + [Sent(msgs[|msgs| - 1].chatId, msgs[|msgs| - 1].text)]
  }

  /**
   * A log that records the sends of the messages from position start on
   * keeps doing so when one more message is sent.
   */
  lemma SentOfGrows(effects0: seq<Effect>, start: nat, before: seq<OutMessage>, m: OutMessage)
    requires start <= |before|
    ensures effects0 + SentOf((before + [m])[start..]) == effects0 + SentOf(before[start..]) + [Sent(m.chatId, m.text)]
  {
    var tail := (before + [m])[start..];
    assert tail[..|tail| - 1] == before[start..];
  }

  /** No id occurs twice in the sequence. */
  predicate Distinct(ids: seq<Id>)
  {
    forall i, j | 0 <= i < j < |ids| :: ids[i] != ids[j]
  }

  /** The ids of the tasks due at exactly t: what findAllByNotificationDateTime(t) selects. */
  function DueIds(tasks: map<Id, NotificationTask>, t: LocalDateTime): set<Id>
  {
    set id | id in tasks && tasks[id].dueAt == t
  }

  /**
   * The tick's selection key is the clock truncated to the minute, so of the
   * tasks whose due time is a whole minute it selects exactly those due in
   * the clock's current minute: none that is overdue, none that is later.
   */
  lemma DueAtTickAreThisMinute(tasks: map<Id, NotificationTask>, now: LocalDateTime)
    ensures forall id | id in tasks && MinuteAligned(tasks[id].dueAt) ::
      id in DueIds(tasks, TruncatedToMinutes(now)) <==> SameMinute(now, tasks[id].dueAt)
  {
    forall id | id in tasks && MinuteAligned(tasks[id].dueAt)
      ensures id in DueIds(tasks, TruncatedToMinutes(now)) <==> SameMinute(now, tasks[id].dueAt)
    {
      TruncationMatchesOnlyItsMinute(now, tasks[id].dueAt);
    }
  }

  class NotificationTaskRepository {
    var tasks: map<Id, NotificationTask>
    var nextId: Id
    const log: EffectLog

    /** Every stored id was handed out before nextId. */
    ghost predicate Valid()
      reads this
    {
      forall id | id in tasks :: id < nextId
    }

    constructor (log: EffectLog)
      ensures Valid() && tasks == map[] && nextId == 0 && this.log == log
    {
      tasks := map[];
      nextId := 0;
      this.log := log;
    }

    /** Insert a new task under a fresh id. */
    method Save(task: NotificationTask) returns (id: Id)
      requires Valid()
      modifies this
      ensures Valid()
      ensures id == old(nextId) && id !in old(tasks)
      ensures tasks == old(tasks)[id := task] && nextId == old(nextId) + 1
    {
      id := nextId;
      tasks := tasks[id := task];
      nextId := nextId + 1;
    }

    /**
     * findAllByNotificationDateTime(t): the tasks due at exactly t, each
     * once, in an order the repository chooses.
     */
    method FindAllByNotificationDateTime(t: LocalDateTime) returns (due: seq<Id>)
      ensures Distinct(due)
      ensures forall id :: id in due <==> id in DueIds(tasks, t)
    {
      due := [];
      var rest := tasks.Keys;
      while rest != {}
        invariant rest <= tasks.Keys
        invariant Distinct(due)
        invariant forall id :: id in due <==> id in tasks.Keys - rest && tasks[id].dueAt == t
        decreases rest
      {
        var id :| id in rest;
        if tasks[id].dueAt == t {
          due := due + [id];
        }
        rest := rest - {id};
      }
    }

    /** delete(task): remove the task with this id; an absent id is no error. */
    method Delete(id: Id)
      requires Valid()
      modifies this, log
      ensures Valid()
      ensures tasks == old(tasks) - {id} && nextId == old(nextId)
      ensures log.effects == old(log.effects) + [Deleted(id)]
    {
      tasks := tasks - {id};
      log.effects := log.effects + [Deleted(id)];
    }
  }

  class SendHelper {
    var outbox: seq<OutMessage>
    const log: EffectLog

    constructor (log: EffectLog)
      ensures outbox == [] && this.log == log
    {
      outbox := [];
      this.log := log;
    }

    /** sendMessage(chatId, text), which always succeeds in this model. */
    method SendMessage(chatId: int, text: string)
      modifies this, log
      ensures outbox == old(outbox) + [OutMessage(chatId, text)]
      ensures log.effects == old(log.effects) + [Sent(chatId, text)]
    {
      outbox := outbox + [OutMessage(chatId, text)];
      log.effects := log.effects + [Sent(chatId, text)];
    }
  }
}
