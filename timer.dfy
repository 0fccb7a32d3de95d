/**
 * NotificationTaskTimer.task(): one tick of the dispatch loop. It reads the
 * clock truncated to the minute, asks the repository for the tasks due at
 * exactly that minute and, one task at a time in the repository's order,
 * sends the task's message to its user and then deletes the task.
 */
module Timer {
  import opened Time
  import opened Store

  /** The sequence lists every id of the set, each exactly once. */
  predicate Enumerates(order: seq<Id>, ids: set<Id>)
  {
    Distinct(order) && (forall id <- order :: id in ids) && (forall id <- ids :: id in order)
  }

  /** The store once every task due at t is gone: all other entries unchanged. */
  function NotDue(tasks: map<Id, NotificationTask>, t: LocalDateTime): (r: map<Id, NotificationTask>)
    ensures forall id :: id in r <==> id in tasks && id !in DueIds(tasks, t)
    ensures forall id | id in r :: r[id] == tasks[id]
    ensures DueIds(r, t) == {}
  {
    map id | id in tasks && tasks[id].dueAt != t :: tasks[id]
  }

  /** The message that delivers a task: its text, to its user. */
  function Reminder(task: NotificationTask): OutMessage
  {
    OutMessage(task.userId, task.message)
  }

  /** The messages sent for the tasks in this order. */
  function Deliveries(tasks: map<Id, NotificationTask>, order: seq<Id>): seq<OutMessage>
    requires forall id <- order :: id in tasks
  {
    if order == [] then []
    else Deliveries(tasks, order[..|order| - 1]) + [Reminder(tasks[order[|order| - 1]])]
  }

  /** The effects of handling the tasks in this order: per task, a send and then a delete. */
  function DispatchEffects(tasks: map<Id, NotificationTask>, order: seq<Id>): seq<Effect>
    requires forall id <- order :: id in tasks
  {
    if order == [] then []
    else
      var id := order[|order| - 1];
      DispatchEffects(tasks, order[..|order| - 1]) + [Sent(tasks[id].userId, tasks[id].message), Deleted(id)]
  }

  /** Exactly one message per handled task, carrying that task's text to that task's user, in order. */
  lemma {:induction false} DeliveriesOnePerTask(tasks: map<Id, NotificationTask>, order: seq<Id>)
    requires forall id <- order :: id in tasks
    ensures |Deliveries(tasks, order)| == |order|
    ensures forall k | 0 <= k < |order| :: Deliveries(tasks, order)[k] == Reminder(tasks[order[k]])
  {
    if order != [] {
      DeliveriesOnePerTask(tasks, order[..|order| - 1]);
    }
  }

  /**
   * The k-th handled task is sent at position 2k and deleted right after,
   * at 2k + 1: every send precedes its delete, and no other task's effect
   * comes between them.
   */
  lemma {:induction false} SendPrecedesDelete(tasks: map<Id, NotificationTask>, order: seq<Id>)
    requires forall id <- order :: id in tasks
    ensures |DispatchEffects(tasks, order)| == 2 * |order|
    ensures forall k | 0 <= k < |order| ::
      && DispatchEffects(tasks, order)[2 * k] == Sent(tasks[order[k]].userId, tasks[order[k]].message)
      && DispatchEffects(tasks, order)[2 * k + 1] == Deleted(order[k])
  {
    if order != [] {
      SendPrecedesDelete(tasks, order[..|order| - 1]);
    }
  }

  /** When the order lists ids without repetition, each of them is deleted exactly once. */
  lemma DeletedExactlyOnce(tasks: map<Id, NotificationTask>, order: seq<Id>, k: nat, l: nat)
    requires forall id <- order :: id in tasks
    requires Distinct(order) && k < |order| && l < |DispatchEffects(tasks, order)|
    requires DispatchEffects(tasks, order)[l] == Deleted(order[k])
    ensures l == 2 * k + 1
  {
    SendPrecedesDelete(tasks, order);
    var q := l / 2;
    assert l == 2 * q || l == 2 * q + 1;
    assert q < |order|;
    assert DispatchEffects(tasks, order)[2 * q] == Sent(tasks[order[q]].userId, tasks[order[q]].message);
  }

  lemma HeadIn(s: seq<Id>)
    requires s != []
    ensures s[0] in s
  {
  }

  /** A tick with nothing due sends nothing and leaves the store as it was. */
  lemma IdleTick(tasks: map<Id, NotificationTask>, t: LocalDateTime, order: seq<Id>)
    requires DueIds(tasks, t) == {} && Enumerates(order, DueIds(tasks, t))
    ensures order == []
    ensures NotDue(tasks, t) == tasks
    ensures Deliveries(tasks, order) == [] && DispatchEffects(tasks, order) == []
  {
    if order != [] {
      HeadIn(order);
      assert false;
    }
    assert NotDue(tasks, t).Keys == tasks.Keys;
  }

  /** Handling one more task extends the messages and the effects by that task's. */
  lemma PrefixStep(tasks: map<Id, NotificationTask>, order: seq<Id>, i: nat)
    requires forall id <- order :: id in tasks
    requires Distinct(order) && i < |order|
    ensures order[i] in Without(tasks, order[..i]) && Without(tasks, order[..i])[order[i]] == tasks[order[i]]
    ensures Without(tasks, order[..i + 1]) == Without(tasks, order[..i]) - {order[i]}
    ensures Deliveries(tasks, order[..i + 1]) == Deliveries(tasks, order[..i]) + [Reminder(tasks[order[i]])]
    ensures DispatchEffects(tasks, order[..i + 1]) ==
      DispatchEffects(tasks, order[..i]) + [Sent(tasks[order[i]].userId, tasks[order[i]].message), Deleted(order[i])]
  {
    assert order[..i + 1][..i] == order[..i];
    WithoutKeeps(tasks, order[..i]);
  }

  /** The store after deleting these ids, one after the other. */
  function Without(tasks: map<Id, NotificationTask>, order: seq<Id>): map<Id, NotificationTask>
  {
    if order == [] then tasks else Without(tasks, order[..|order| - 1]) - {order[|order| - 1]}
  }

  /** Deleting ids one by one removes exactly those ids and touches no other entry. */
  lemma {:induction false} WithoutKeeps(tasks: map<Id, NotificationTask>, order: seq<Id>)
    ensures forall id :: id in Without(tasks, order) <==> id in tasks && id !in order
    ensures forall id | id in Without(tasks, order) :: Without(tasks, order)[id] == tasks[id]
  {
    if order != [] {
      var init := order[..|order| - 1];
      WithoutKeeps(tasks, init);
      assert order == init + [order[|order| - 1]];
    }
  }

  /** Deleting exactly the listed due ids one by one leaves the not-due part of the store. */
  lemma RemovedAllDue(tasks: map<Id, NotificationTask>, order: seq<Id>, t: LocalDateTime)
    requires Enumerates(order, DueIds(tasks, t))
    ensures Without(tasks, order) == NotDue(tasks, t)
  {
    WithoutKeeps(tasks, order);
    assert Without(tasks, order).Keys == NotDue(tasks, t).Keys;
  }

  class NotificationTaskTimer {
    const repository: NotificationTaskRepository
    const sendHelper: SendHelper

    constructor (repository: NotificationTaskRepository, sendHelper: SendHelper)
      ensures this.repository == repository && this.sendHelper == sendHelper
    {
      this.repository := repository;
      this.sendHelper := sendHelper;
    }

    /**
     * task(), run at clock reading now. The ghost result is the order in
     * which the repository returned the due tasks. The repository and the
     * transport share one effect log, so its growth is the order in which
     * the sends and deletes were carried out.
     */
    method Task(now: LocalDateTime) returns (ghost order: seq<Id>)
      requires repository.Valid() && repository.log == sendHelper.log
      modifies repository, sendHelper, repository.log
      ensures repository.Valid() && repository.nextId == old(repository.nextId)
      ensures Enumerates(order, DueIds(old(repository.tasks), TruncatedToMinutes(now)))
      ensures repository.tasks == NotDue(old(repository.tasks), TruncatedToMinutes(now))
      ensures sendHelper.outbox == old(sendHelper.outbox) + Deliveries(old(repository.tasks), order)
      ensures repository.log.effects == old(repository.log.effects) + DispatchEffects(old(repository.tasks), order)
    {
      var key := TruncatedToMinutes(now);
      var due := repository.FindAllByNotificationDateTime(key);
      ghost var tasks0, outbox0, effects0 := repository.tasks, sendHelper.outbox, repository.log.effects;
      var i := 0;
      while i < |due|
        invariant 0 <= i <= |due|
        invariant forall id <- due :: id in tasks0
        invariant repository.Valid() && repository.nextId == old(repository.nextId)
        invariant repository.tasks == Without(tasks0, due[..i])
        invariant sendHelper.outbox == outbox0 + Deliveries(tasks0, due[..i])
        invariant repository.log.effects == effects0 + DispatchEffects(tasks0, due[..i])
      {
        var id := due[i];
        PrefixStep(tasks0, due, i);
        var task := repository.tasks[id];
        sendHelper.SendMessage(task.userId, task.message);
        repository.Delete(id);
        i := i + 1;
      }
      assert due[..|due|] == due;
      order := due;
      RemovedAllDue(tasks0, due, key);
    }
  }
}
