/**
 * The bot's own `Bot` subclass (`mensabot/bot/ext.py`, `stwno-bot/stwno_bot/ext.py`):
 * the time of the last poll, and what `send_message` does when Telegram
 * refuses a message: tell the caller's callback and give up, try again
 * later through the event queue, follow a group to its new chat id, or
 * forget a chat that blocked the bot.
 *
 * The Telegram call is a parameter: the message it returns or the error it
 * raises. A callback is known by a number, and its calls are logged.
 */
module Ext {
  import opened Common
  import opened Chats
  import opened Sched

  // ---------------------------------------------------------------------------
  // Telegram's answer

  /**
   * The errors `send_message` tells apart, in the order its handlers test
   * them; `BadRequest` is tested before the network errors it belongs to.
   * `OtherError` is any error no handler catches.
   */
  datatype SendError =
    | InvalidToken
    | BadRequest
    | RetryAfter(retryAfter: int)
    | TimedOut
    | NetworkError
    | ChatMigrated(newChatId: int)
    | Unauthorized
    | OtherError

  /** What the Telegram call did. */
  datatype Attempt = Delivered(msg: Message) | Failed(error: SendError)

  /** The priority of a queued retry. */
  const RetryPriority: int := 120

  /** The last retry count at which a network error is still retried. */
  const MaxBackoffRetries: nat := 8

  function Pow2(n: nat): (r: nat)
    ensures r >= 1
  {
    if n == 0 then 1 else 2 * Pow2(n - 1)
  }

  // ---------------------------------------------------------------------------
  // The decision

  /** What `send_message` does about an attempt. */
  datatype Handling =
      /** Tell the callback about the message and return it. */
    | Succeed
      /** Raise the error again, after telling the callback and deleting the chat's row if so marked. */
    | Reraise(callback: bool, deleteChat: bool)
      /** Queue the send again after `delay` seconds with the given retry count, in the new chat if the group moved. */
    | Retry(delay: int, retries: Option<nat>, newChat: Option<int>)

  /**
   * The handlers, first match wins. Every retry is queued without the
   * callback; a rate limit and a network error count the retry, a moved
   * group starts counting afresh.
   */
  function Classify(attempt: Attempt, retries: nat): (h: Handling)
    ensures attempt.Delivered? <==> h.Succeed?
    ensures h.Reraise? && h.deleteChat <==> attempt == Failed(Unauthorized)
    ensures h.Reraise? && !h.callback <==> attempt == Failed(OtherError)
    ensures h.Retry? && h.newChat.Some? <==> attempt.Failed? && attempt.error.ChatMigrated?
    ensures h.Retry? && h.newChat.None? ==> h.retries == Some(retries + 1)
    ensures h.Retry? && h.newChat.Some? ==> h.retries.None? && h.delay == 1 && h.newChat.value == attempt.error.newChatId
    ensures attempt == Failed(TimedOut) || attempt == Failed(NetworkError) ==>
      (h.Retry? <==> retries <= MaxBackoffRetries) && (h.Retry? ==> h.delay == Pow2(retries))
  {
    match attempt
    case Delivered(_) => Succeed
    case Failed(e) =>
      match e
      case InvalidToken => Reraise(true, false)
      case BadRequest => Reraise(true, false)
      case RetryAfter(d) => Retry(d, Some(retries + 1), None)
      case TimedOut =>
        if retries <= MaxBackoffRetries then Retry(Pow2(retries), Some(retries + 1), None) else Reraise(true, false)
      case NetworkError =>
        if retries <= MaxBackoffRetries then Retry(Pow2(retries), Some(retries + 1), None) else Reraise(true, false)
      case ChatMigrated(n) => Retry(1, None, Some(n))
      case Unauthorized => Reraise(true, true)
      case OtherError => Reraise(false, false)
  }

  /** A rate limit is retried after the time Telegram asks for, however many times it happened before. */
  lemma RateLimitAlwaysRetried(d: int, retries: nat)
    ensures Classify(Failed(RetryAfter(d)), retries) == Retry(d, Some(retries + 1), None)
  {
  }

  // ---------------------------------------------------------------------------
  // The network back-off

  /**
   * The waits of a send that keeps failing with network errors, starting
   * with retry count `retries`, until it gives up.
   */
  function Backoff(retries: nat): (r: seq<nat>)
    decreases MaxBackoffRetries + 1 - retries
  {
    if retries > MaxBackoffRetries then [] else [Pow2(retries)] + Backoff(retries + 1)
  }

  /** The waits are the ones `Classify` chooses, one after the other, and after the last one the send gives up. */
  lemma BackoffFollowsClassify(retries: nat, e: SendError)
    requires e == TimedOut || e == NetworkError
    ensures forall i :: 0 <= i < |Backoff(retries)| ==>
      Classify(Failed(e), retries + i) == Retry(Backoff(retries)[i], Some(retries + i + 1), None)
    ensures Classify(Failed(e), retries + |Backoff(retries)|) == Reraise(true, false)
  {
    var b := Backoff(retries);
    forall i | 0 <= i < |b|
      ensures Classify(Failed(e), retries + i) == Retry(b[i], Some(retries + i + 1), None)
    {
      BackoffAt(retries, i);
    }
    BackoffLength(retries);
  }

  /** The `i`-th wait doubles the first one `i` times, and is still within the retry limit. */
  lemma {:induction false} BackoffAt(retries: nat, i: nat)
    requires i < |Backoff(retries)|
    ensures Backoff(retries)[i] == Pow2(retries + i) && retries + i <= MaxBackoffRetries
    decreases i
  {
    assert retries <= MaxBackoffRetries;
    var rest := Backoff(retries + 1);
    assert Backoff(retries) == [Pow2(retries)] + rest;
    if i > 0 {
      BackoffAt(retries + 1, i - 1);
      assert (retries + 1) + (i - 1) == retries + i;
      assert Backoff(retries)[i] == rest[i - 1];
    }
  }

  /** How many waits are left from a retry count. */
  lemma {:induction false} BackoffLength(retries: nat)
    ensures |Backoff(retries)| == if retries <= MaxBackoffRetries then MaxBackoffRetries + 1 - retries else 0
    decreases MaxBackoffRetries + 1 - retries
  {
    if retries <= MaxBackoffRetries {
      BackoffLength(retries + 1);
    }
  }

  function Sum(s: seq<nat>): nat
  {
    if s == [] then 0 else s[0] + Sum(s[1..])
  }

  /** From a fresh send there are nine retries, and they wait 511 seconds in all. */
  lemma {:induction false} BackoffTotal(retries: nat)
    requires retries <= MaxBackoffRetries + 1
    ensures |Backoff(retries)| == MaxBackoffRetries + 1 - retries
    ensures Sum(Backoff(retries)) + Pow2(retries) == Pow2(MaxBackoffRetries + 1)
    decreases MaxBackoffRetries + 1 - retries
  {
    if retries <= MaxBackoffRetries {
      BackoffTotal(retries + 1);
    }
  }

  lemma BackoffFromZero()
    ensures |Backoff(0)| == 9 && Sum(Backoff(0)) == 511
  {
    BackoffTotal(0);
    assert Pow2(9) == 512 by {
      assert Pow2(1) == 2 && Pow2(2) == 4 && Pow2(3) == 8 && Pow2(4) == 16;
      assert Pow2(5) == 32 && Pow2(6) == 64 && Pow2(7) == 128 && Pow2(8) == 256;
    }
  }

  // ---------------------------------------------------------------------------
  // The bot

  /** How a `send_message` call ended: the message, the handle of a queued retry, or an exception. */
  datatype Outcome = Sent(msg: Message) | Retrying(error: SendError, id: nat) | Raised(error: SendError) | DbFailed(dbError: Error)

  /** How a poll for updates ended. */
  datatype Poll = Polled | PollTimedOut | PollFailed

  class MensaBot {
    /** `last_update`: when the bot last heard from Telegram. */
    var lastUpdate: int
    /** The callbacks' calls: the callback and what it was called with. */
    var callbackLog: seq<(nat, Attempt)>

    /** A new bot has heard nothing since the epoch. */
    constructor()
      ensures lastUpdate == 0 && callbackLog == []
    {
      lastUpdate := 0;
      callbackLog := [];
    }

    /**
     * `get_updates`: a successful poll sets the time of the last update.
     * The older bot also sets it when the poll timed out, before raising.
     */
    method GetUpdates(poll: Poll, now: int, countTimeouts: bool) returns (ok: bool)
      modifies this
      ensures ok <==> poll == Polled
      ensures lastUpdate == (if poll == Polled || (countTimeouts && poll == PollTimedOut) then now else old(lastUpdate))
      ensures callbackLog == old(callbackLog)
    {
      if poll == Polled {
        lastUpdate := now;
        return true;
      }
      if countTimeouts && poll == PollTimedOut {
        lastUpdate := now;
      }
      return false;
    }

    /** Calls the callback, when the caller gave one; the default callback does nothing. */
    method Callback(cb: Option<nat>, arg: Attempt)
      modifies this
      ensures callbackLog == old(callbackLog) + (if cb.Some? then [(cb.value, arg)] else [])
      ensures lastUpdate == old(lastUpdate)
    {
      if cb.Some? {
        callbackLog := callbackLog + [(cb.value, arg)];
      }
    }

    /**
     * `send_message`, as `Classify` decides it: the callback hears of a
     * delivered message and of every error it re-raises except an uncaught
     * one; a retry is queued at priority 120; a moved group's row is moved
     * to its new id first (which fails if that id already has a row); a
     * blocked bot's chat row is deleted.
     */
    method SendMessage(sched: Scheduler, chats: ChatTable, now: int, args: SendArgs, attempt: Attempt)
      returns (r: Outcome)
      modifies this, sched, chats
      ensures var retries := if args.retries.Some? then args.retries.value else 0;
        var h := Classify(attempt, retries);
        match h
        case Succeed =>
          r == Sent(attempt.msg) && callbackLog == old(callbackLog) + (if args.callback.Some? then [(args.callback.value, attempt)] else []) &&
          sched.queue == old(sched.queue) && chats.rows == old(chats.rows)
        case Reraise(callback, deleteChat) =>
          r == Raised(attempt.error) &&
          callbackLog == old(callbackLog) + (if callback && args.callback.Some? then [(args.callback.value, attempt)] else []) &&
          sched.queue == old(sched.queue) &&
          chats.rows == (if deleteChat then old(chats.rows) - {args.chatId} else old(chats.rows))
        case Retry(delay, count, newChat) =>
          callbackLog == old(callbackLog) &&
          if newChat.Some? && args.chatId in old(chats.rows) && newChat.value in old(chats.rows) && args.chatId != newChat.value then
            r == DbFailed(IntegrityError) && sched.queue == old(sched.queue) && chats.rows == old(chats.rows)
          else
            r == Retrying(attempt.error, |old(sched.queue)|) &&
            sched.queue == old(sched.queue) + [Job(now + delay, RetryPriority,
              Action.SendMessage(SendArgs(if newChat.Some? then newChat.value else args.chatId, args.text, count, None)))] &&
            chats.rows == (if newChat.Some? && args.chatId in old(chats.rows)
              then (old(chats.rows) - {args.chatId})[newChat.value := old(chats.rows)[args.chatId].(id := newChat.value)]
              else old(chats.rows))
      ensures lastUpdate == old(lastUpdate)
    {
      var retries := if args.retries.Some? then args.retries.value else 0;
      var cb := args.callback;
      match attempt {
        case Delivered(msg) =>
          Callback(cb, attempt);
          return Sent(msg);
        case Failed(e) =>
          match e {
            case InvalidToken =>
              Callback(cb, attempt);
              return Raised(e);
            case BadRequest =>
              Callback(cb, attempt);
              return Raised(e);
            case RetryAfter(d) =>
              var id := sched.Enter(now, d, RetryPriority, Action.SendMessage(args.(retries := Some(retries + 1), callback := None)));
              return Retrying(e, id);
            case TimedOut =>
              r := NetworkFailure(sched, now, args, retries, e);
            case NetworkError =>
              r := NetworkFailure(sched, now, args, retries, e);
            case ChatMigrated(n) =>
              var moved := chats.Rekey(args.chatId, n);
              if moved.Err? {
                return DbFailed(moved.error);
              }
              var id := sched.Enter(now, 1, RetryPriority, Action.SendMessage(args.(chatId := n, retries := None, callback := None)));
              return Retrying(e, id);
            case Unauthorized =>
              chats.Delete(args.chatId);
              Callback(cb, attempt);
              return Raised(e);
            case OtherError =>
              return Raised(e);
          }
      }
    }

    /** The network-error handler: back off while the retry count allows it, then give up. */
    method NetworkFailure(sched: Scheduler, now: int, args: SendArgs, retries: nat, e: SendError) returns (r: Outcome)
      requires e == TimedOut || e == NetworkError
      modifies this, sched
      ensures retries <= MaxBackoffRetries ==>
        r == Retrying(e, |old(sched.queue)|) && callbackLog == old(callbackLog) &&
        sched.queue == old(sched.queue) + [Job(now + Pow2(retries), RetryPriority,
          Action.SendMessage(SendArgs(args.chatId, args.text, Some(retries + 1), None)))]
      ensures retries > MaxBackoffRetries ==>
        r == Raised(e) && sched.queue == old(sched.queue) &&
        callbackLog == old(callbackLog) + (if args.callback.Some? then [(args.callback.value, Failed(e))] else [])
      ensures lastUpdate == old(lastUpdate)
    {
      if retries <= MaxBackoffRetries {
        var delay := Pow2(retries);
        var id := sched.Enter(now, delay, RetryPriority, Action.SendMessage(args.(retries := Some(retries + 1), callback := None)));
        return Retrying(e, id);
      }
      Callback(args.callback, Failed(e));
      return Raised(e);
    }
  }

  // ---------------------------------------------------------------------------
  // The handlers as written

  /** What happens to a failed send in the code as it stands. */
  datatype Written = AsIntended(h: Handling) | NameErrorRaised(callback: bool)

  /**
   * The older bot imports only `InvalidToken`, `RetryAfter`, `TimedOut` and
   * `Unauthorized`. The first handler names `BadRequest`, so testing it
   * raises `NameError` for every error: nothing is retried, no callback
   * hears of it, no row changes.
   */
  function OlderHandlerAsWritten(attempt: Attempt, retries: nat): (w: Written)
    ensures attempt.Failed? <==> w.NameErrorRaised?
    ensures w.NameErrorRaised? ==> !w.callback
  {
    if attempt.Delivered? then AsIntended(Classify(attempt, retries)) else NameErrorRaised(false)
  }

  /** A rate-limited message of the older bot is lost instead of retried. */
  lemma OlderRateLimitLost(d: int, retries: nat)
    ensures OlderHandlerAsWritten(Failed(RetryAfter(d)), retries) == NameErrorRaised(false)
    ensures Classify(Failed(RetryAfter(d)), retries).Retry?
  {
  }

  /**
   * The newer bot defines no module-level `logger`, `SCHED` or `updater`,
   * and each handler that queues a retry or deletes a row starts by logging:
   * those raise `NameError` before doing anything. The handlers that only
   * call back and re-raise work as intended.
   */
  function NewerHandlerAsWritten(attempt: Attempt, retries: nat): (w: Written)
    ensures w.NameErrorRaised? <==> Classify(attempt, retries).Retry? || attempt == Failed(Unauthorized)
    ensures w.AsIntended? ==> w.h == Classify(attempt, retries)
    ensures w.NameErrorRaised? ==> !w.callback
  {
    var h := Classify(attempt, retries);
    if h.Retry? || attempt == Failed(Unauthorized) then NameErrorRaised(false) else AsIntended(h)
  }

  /** A blocked newer bot keeps the chat's row, and a slow network loses the message at once. */
  lemma NewerUnauthorizedKeepsChat(retries: nat)
    ensures NewerHandlerAsWritten(Failed(Unauthorized), retries) == NameErrorRaised(false)
    ensures Classify(Failed(Unauthorized), retries) == Reraise(true, true)
    ensures NewerHandlerAsWritten(Failed(TimedOut), 0) == NameErrorRaised(false)
    ensures Classify(Failed(TimedOut), 0) == Retry(1, Some(1), None)
  {
  }
}
