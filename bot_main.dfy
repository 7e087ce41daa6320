/**
 * The older, single-file bot (`mensabot/bot.py`): its own notification job,
 * its weekly cache clean-up, and the default date of its `/mensa` command.
 * Its `/set` command is `Config.BotSetConfig`.
 */
module MainBot {
  import opened Common
  import opened Dishes
  import opened Opening
  import opened Chats
  import opened Sched
  import Parse
  import MensaCommand
  import Tasks

  // ---------------------------------------------------------------------------
  // schedule_notification

  /**
   * The time of the next run: one interval on; when there is no menu for
   * `now`, midnight of the day after that, keeping the seconds.
   */
  function NextCheck(now: int, hasMenu: bool): (r: int)
    ensures hasMenu ==> r == now + Tasks.IntervalSeconds
    ensures !hasMenu ==> DayOf(r) == DayOf(now + Tasks.IntervalSeconds) + 1
    ensures !hasMenu ==> TimeOf(r) == TimeOf(now) % 60
    ensures r > now
  {
    var later := now + Tasks.IntervalSeconds;
    if hasMenu then later
    else
      assert later == DayOf(later) * DaySeconds + TimeOf(later);
      assert TimeOf(later) % 60 == TimeOf(now) % 60 by {
        assert now == DayOf(now) * DaySeconds + TimeOf(now);
        if TimeOf(now) < DaySeconds - 60 {
          assert later == DayOf(now) * DaySeconds + (TimeOf(now) + 60);
        } else {
          assert later == (DayOf(now) + 1) * DaySeconds + (TimeOf(now) + 60 - DaySeconds);
        }
      }
      (DayOf(later) + 1) * DaySeconds + TimeOf(later) % 60
  }

  /**
   * For a minute-aligned `now` and no menu, the next run is the coming
   * midnight, except from the day's last minute, where `later` is already
   * past midnight and a whole day is passed over.
   */
  lemma NoMenuWakesAtMidnight(now: int)
    requires now % 60 == 0
    ensures TimeOf(NextCheck(now, false)) == 0
    ensures TimeOf(now) < DaySeconds - 60 ==> DayOf(NextCheck(now, false)) == DayOf(now) + 1
    ensures TimeOf(now) == DaySeconds - 60 ==> DayOf(NextCheck(now, false)) == DayOf(now) + 2
  {
    var q, t := DayOf(now), TimeOf(now);
    assert now == q * DaySeconds + t;
    assert t % 60 == 0 by {
      MinuteAligned(now, q);
    }
    if t < DaySeconds - 60 {
      Split(q, t + 60);
    } else {
      assert t == DaySeconds - 60;
      Split(q + 1, 0);
    }
  }

  /** Taking whole days off keeps a moment minute-aligned. */
  lemma MinuteAligned(now: int, q: int)
    requires now % 60 == 0
    ensures (now - q * DaySeconds) % 60 == 0
  {
    assert now - q * DaySeconds == now - 60 * (1440 * q);
  }

  /** A moment written as a day and a time of day. */
  lemma Split(q: int, t: int)
    requires 0 <= t < DaySeconds
    ensures DayOf(q * DaySeconds + t) == q && TimeOf(q * DaySeconds + t) == t
  {
  }

  /**
   * Without a menu the window `[now.time(), later.time())` is empty:
   * `later.time()` is only the leftover seconds. So no chat is selected.
   */
  lemma NoMenuNoSends(rows: map<int, ChatRow>, ids: seq<int>, now: int)
    ensures Tasks.Due(rows, ids, now, NextCheck(now, false)) == []
  {
    var later := NextCheck(now, false);
    var due := Tasks.Due(rows, ids, now, later);
    assert TimeOf(later) <= TimeOf(now);
    forall x ensures x !in due {
    }
    NoMembers(due);
  }

  /**
   * `schedule_notification` of the older bot: a failing menu query raises
   * before anything is queued. Otherwise the job re-arms itself at `later`
   * with priority 10 and queues, at priority 100 and in ascending push-time
   * order, one send per chat whose push time is in the window, each with
   * its own notification time bound as an argument.
   */
  method BotScheduleNotification(sched: Scheduler, nowArg: Option<int>, clock: int,
                                 menuOfDay: int -> Result<seq<Dish>>, chats: ChatTable, ids: seq<int>)
    returns (r: Result<int>)
    modifies sched
    ensures var now := Tasks.NotifyNow(nowArg, clock);
      menuOfDay(now).Err? ==> r == Err(menuOfDay(now).error) && sched.queue == old(sched.queue)
    ensures var now := Tasks.NotifyNow(nowArg, clock);
      menuOfDay(now).Ok? ==>
        var later := NextCheck(now, menuOfDay(now).value != []);
        r == Ok(later) &&
        sched.queue == old(sched.queue) + [Job(later, 10, Action.ScheduleNotification(later))] +
          Tasks.SendJobs(Tasks.Due(chats.rows, ids, now, later), now)
  {
    var now := if nowArg.Some? then nowArg.value else Tasks.FloorToInterval(clock);
    assert now == Tasks.NotifyNow(nowArg, clock);
    var menu := menuOfDay(now);
    if menu.Err? {
      return Err(menu.error);
    }
    var later := NextCheck(now, menu.value != []);
    var _ := sched.EnterAbs(later, 10, Action.ScheduleNotification(later));
    var res := Tasks.Due(chats.rows, ids, now, later);
    EnterSends(sched, res, now);
    return Ok(later);
  }

  /** The loop over the due chats: one send each, in order, for the chat's own notification time. */
  method EnterSends(sched: Scheduler, due: seq<ChatRow>, now: int)
    requires forall x :: x in due ==> x.pushTime.Some?
    modifies sched
    ensures sched.queue == old(sched.queue) + Tasks.SendJobs(due, now)
  {
    ghost var start := sched.queue;
    ghost var jobs := Tasks.SendJobs(due, now);
    for i := 0 to |due|
      invariant sched.queue == start + jobs[..i]
    {
      assert due[i] in due;
      var notifyTime := DayOf(now) * DaySeconds + due[i].pushTime.value;
      assert jobs[i] == Job(notifyTime, 100, SendMenu(notifyTime, due[i]));
      var _ := sched.EnterAbs(notifyTime, 100, SendMenu(notifyTime, due[i]));
      assert jobs[..i + 1] == jobs[..i] + [jobs[i]];
    }
    assert jobs[..|due|] == jobs;
  }

  /** Here every send is rendered for the very time it runs at. */
  lemma BotSendsOwnTime(due: seq<ChatRow>, now: int)
    ensures forall j :: 0 <= j < |Tasks.SendJobs(due, now)| ==>
      Tasks.SendJobs(due, now)[j].action.dt == Tasks.SendJobs(due, now)[j].time
  {
  }

  // ---------------------------------------------------------------------------
  // schedule_clear_cache

  /** `combine((now + timedelta(days=7 - now.weekday())).date(), time(1, 0))`. */
  function NextMondayOneAm(now: int): (r: int)
    ensures Weekday(DayOf(r)) == 0
    ensures DayOf(now) < DayOf(r) <= DayOf(now) + 7
    ensures TimeOf(r) == 3600
    ensures r > now
  {
    var day := DayOf(now) + 7 - Weekday(DayOf(now));
    WeekdayShift(DayOf(now), 7 - Weekday(DayOf(now)));
    assert now == DayOf(now) * DaySeconds + TimeOf(now);
    day * DaySeconds + 3600
  }

  /** The clean-up runs weekly: from a Monday 01:00 the next one is exactly a week later. */
  lemma ClearCacheWeekly(now: int)
    requires Weekday(DayOf(now)) == 0 && TimeOf(now) == 3600
    ensures NextMondayOneAm(now) == now + 7 * DaySeconds
  {
    assert now == DayOf(now) * DaySeconds + TimeOf(now);
  }

  /**
   * `schedule_clear_cache` of the older bot: re-arm at the next Monday,
   * 01:00, with priority 1000, before clearing the caches (which are not
   * part of this model).
   */
  method BotScheduleClearCache(sched: Scheduler, now: int)
    modifies sched
    ensures sched.queue == old(sched.queue) + [Job(NextMondayOneAm(now), 1000, ClearCache)]
  {
    var day := DayOf(now) + 7 - Weekday(DayOf(now));
    var _ := sched.EnterAbs(day * DaySeconds + 3600, 1000, ClearCache);
  }

  // ---------------------------------------------------------------------------
  // /mensa

  /**
   * The older bot's `/mensa`: the message text with every "/mensa" removed
   * and stripped is read for a location and a date, and answered as the
   * newer command answers.
   */
  function BotMensa(text: string, now: int, parse: string -> Option<int>, nextMenuDate: int -> int)
    : (r: Result<MensaCommand.Reply>)
    ensures r.Ok? && r.value.ShowMenu? ==>
      var p := Parse.ParseLocDate(Strip(RemoveAll(text, "/mensa")), parse);
      p.Ok? && p.value.0.None?
  {
    MensaCommand.Respond(Parse.ParseLocDate(Strip(RemoveAll(text, "/mensa")), parse), now, nextMenuDate)
  }

  /** The bare command shows the next menu day from now, or from tomorrow after 15:59. */
  lemma BareMensaShowsNextMenu(now: int, parse: string -> Option<int>, nextMenuDate: int -> int)
    ensures BotMensa("/mensa", now, parse, nextMenuDate) ==
      Ok(MensaCommand.ShowMenu(nextMenuDate(MensaCommand.MenuMoment(now))))
  {
    assert StartsWith("/mensa", "/mensa");
    assert RemoveAll("/mensa", "/mensa") == "" by {
      assert "/mensa"[6..] == [];
    }
    Parse.ParseLocDateEmpty(parse);
  }
}
