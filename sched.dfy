/**
 * The bot's event queue, Python's `sched.scheduler` as the bot uses it: a
 * list of `(time, priority, action)` entries that `enterabs` and `enter`
 * append to. Which entry runs when is the scheduler's business and is not
 * part of this model; the entries are kept in the order they were entered.
 *
 * Times are seconds on the local wall clock.
 */
module Sched {
  import opened Common
  import opened Dishes
  import opened Chats

  /** The keyword arguments of a queued `sendMessage` call. */
  datatype SendArgs = SendArgs(chatId: int, text: string, retries: Option<nat>, callback: Option<nat>)

  /** The calls the bot puts on the queue, with their arguments. */
  datatype Action =
    | ScheduleNotification(now: int)
    | SendMenu(dt: int, chat: ChatRow)
    | UpdateMenu
    | ClearCache
    | ClearMensaNotifications
    | SendMessage(args: SendArgs)
    | NotifyDiff(week: int, before: seq<Dish>, after: seq<Dish>)
    | CommitDiff(week: int, before: seq<Dish>, after: seq<Dish>)

  datatype Job = Job(time: int, priority: int, action: Action)

  class Scheduler {
    var queue: seq<Job>

    constructor()
      ensures queue == []
    {
      queue := [];
    }

    /** `enterabs(time, priority, action)`; the event's handle is its position. */
    method EnterAbs(time: int, priority: int, action: Action) returns (id: nat)
      modifies this
      ensures queue == old(queue) + [Job(time, priority, action)]
      ensures id == |old(queue)|
    {
      id := |queue|;
      queue := queue + [Job(time, priority, action)];
    }

    /** `enter(delay, priority, action)`: relative to the clock reading `now`. */
    method Enter(now: int, delay: int, priority: int, action: Action) returns (id: nat)
      modifies this
      ensures queue == old(queue) + [Job(now + delay, priority, action)]
      ensures id == |old(queue)|
    {
      id := EnterAbs(now + delay, priority, action);
    }
  }
}
