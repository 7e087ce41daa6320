/**
 * The bot's recurring jobs (mensabot/bot/tasks.py): the minute-by-minute
 * notification job that queues menu messages for the chats whose push time
 * falls into the coming minute, the menu refresh, the cache clean-up, the
 * reset of the registry of today's menu messages, and the loop that drives
 * the queue.
 *
 * The clock, the next-opening query and the database scan order are
 * parameters. Every job enters its successor before it does its own work.
 */
module Tasks {
  import opened Common
  import opened Dishes
  import opened Sorting
  import opened Opening
  import opened Chats
  import opened Sched
  import opened NameScanner
  import Mensa
  import MensaCommand

  /** `SCHED_INTERVAL`, in minutes. */
  const SchedInterval: int := 1

  /** The interval in seconds. */
  const IntervalSeconds: int := SchedInterval * 60

  // ---------------------------------------------------------------------------
  // schedule_notification

  /** `now.replace(minute=floor(now.minute / SCHED_INTERVAL) * SCHED_INTERVAL, second=0)`. */
  function FloorToInterval(t: int): (r: int)
    ensures r <= t < r + IntervalSeconds
    ensures DayOf(r) == DayOf(t)
    ensures r % 60 == 0 && (TimeOf(r) / 60 % 60) % SchedInterval == 0
  {
    var minute := TimeOf(t) / 60 % 60;
    var r := t - TimeOf(t) % 60 - (minute % SchedInterval) * 60;
    assert TimeOf(r) == TimeOf(t) - TimeOf(t) % 60;
    r
  }

  /** Flooring an already floored time changes nothing. */
  lemma FloorIdempotent(t: int)
    ensures FloorToInterval(FloorToInterval(t)) == FloorToInterval(t)
  {
    var r := FloorToInterval(t);
    assert TimeOf(r) % 60 == 0 by {
      assert r == DayOf(r) * DaySeconds + TimeOf(r);
    }
  }

  /** The moment the job works from: its argument, or the floored clock when it has none. */
  function NotifyNow(nowArg: Option<int>, clock: int): (r: int)
    ensures nowArg.Some? ==> r == nowArg.value
    ensures nowArg.None? ==> r == FloorToInterval(clock)
  {
    if nowArg.Some? then nowArg.value else FloorToInterval(clock)
  }

  /** `datetime.combine(day.date(), close)`: the closing time on the day of the next opening. */
  function NextClose(info: OpenInfo): int
  {
    DayOf(info.day) * DaySeconds + info.close
  }

  /**
   * The time of the next run: one interval on, unless the next closing
   * time is more than a day away, in which case the job sleeps until one
   * day before it. Either way it lies in the future, and never more than a
   * day before that closing time.
   */
  function Later(now: int, nextClose: int): (r: int)
    ensures r > now
    ensures nextClose - r <= DaySeconds
    ensures r == now + IntervalSeconds || (r == nextClose - DaySeconds && nextClose - now > DaySeconds)
    ensures nextClose - now <= DaySeconds ==> r == now + IntervalSeconds
  {
    if nextClose - now > DaySeconds then nextClose - DaySeconds else now + IntervalSeconds
  }

  /** `now.time() <= push_time < later.time()`; a chat without a push time never matches. */
  predicate InWindow(row: ChatRow, now: int, later: int)
  {
    row.pushTime.Some? && TimeOf(now) <= row.pushTime.value < TimeOf(later)
  }

  /** The rows of the table in the order `ids` lists them, as the database scans them. */
  function TableRows(rows: map<int, ChatRow>, ids: seq<int>): (r: seq<ChatRow>)
    ensures forall id :: id in ids && id in rows ==> rows[id] in r
    ensures forall x :: x in r ==> exists id :: id in ids && id in rows && rows[id] == x
  {
    if ids == [] then []
    else
      var rest := TableRows(rows, ids[1..]);
      assert forall id :: id in ids <==> id == ids[0] || id in ids[1..];
      if ids[0] in rows then [rows[ids[0]]] + rest else rest
  }

  /** The sort key of `order_by(push_time.asc())`; rows without a push time are never selected. */
  function PushKey(row: ChatRow): int
  {
    if row.pushTime.Some? then row.pushTime.value else -1
  }

  predicate ByPushTime(a: ChatRow, b: ChatRow)
  {
    PushKey(a) <= PushKey(b)
  }

  lemma ByPushTimePreorder()
    ensures TotalPreorder(ByPushTime)
  {
  }

  /** The rows the notification query returns: those in the window, by ascending push time. */
  function Due(rows: map<int, ChatRow>, ids: seq<int>, now: int, later: int): (r: seq<ChatRow>)
    ensures SortedBy(r, ByPushTime)
    ensures forall x :: x in r <==> x in TableRows(rows, ids) && InWindow(x, now, later)
  {
    ByPushTimePreorder();
    var selected := Filter(TableRows(rows, ids), x => InWindow(x, now, later));
    forall x ensures x in Sort(selected, ByPushTime) <==> x in selected {
      SortedSameElements(selected, ByPushTime, x);
    }
    Sort(selected, ByPushTime)
  }

  /** `datetime.combine(now.date(), row.push_time)`. */
  function NotifyTime(now: int, row: ChatRow): int
  {
    DayOf(now) * DaySeconds + PushKey(row)
  }

  /** The sends of one wave as intended: each chat's message for its own notification time. */
  function SendJobs(due: seq<ChatRow>, now: int): (r: seq<Job>)
    ensures |r| == |due|
    ensures forall i :: 0 <= i < |due| ==>
      r[i] == Job(NotifyTime(now, due[i]), 100, SendMenu(NotifyTime(now, due[i]), due[i]))
  {
    seq(|due|, i requires 0 <= i < |due| => Job(NotifyTime(now, due[i]), 100, SendMenu(NotifyTime(now, due[i]), due[i])))
  }

  /** The value `notify_time` holds once the loop is over: the last row's notification time. */
  function FinalNotifyTime(due: seq<ChatRow>, now: int): int
  {
    if due == [] then 0 else NotifyTime(now, due[|due| - 1])
  }

  /**
   * The sends of one wave as written: each runs at its chat's time, but the
   * closure reads `notify_time` only when it runs, after the loop is over,
   * so every message is rendered for the last row's time.
   */
  function SendJobsAsWritten(due: seq<ChatRow>, now: int): (r: seq<Job>)
    ensures |r| == |due|
    ensures forall i :: 0 <= i < |due| ==>
      r[i] == Job(NotifyTime(now, due[i]), 100, SendMenu(FinalNotifyTime(due, now), due[i]))
  {
    seq(|due|, i requires 0 <= i < |due| => Job(NotifyTime(now, due[i]), 100, SendMenu(FinalNotifyTime(due, now), due[i])))
  }

  /**
   * `schedule_notification` with `get_next_mensa_open` as `mensaOpen`. A
   * failing query raises before anything is queued, which ends the chain
   * of notification jobs. Otherwise the job first re-arms itself at
   * `later`, priority 10, and then queues one send per due chat, priority
   * 100, in ascending push-time order.
   */
  method ScheduleNotification(sched: Scheduler, nowArg: Option<int>, clock: int,
                              mensaOpen: int -> Result<(OpenInfo, seq<Dish>)>, chats: ChatTable, ids: seq<int>)
    returns (r: Result<int>)
    modifies sched
    ensures var now := NotifyNow(nowArg, clock);
      mensaOpen(now).Err? ==> r == Err(mensaOpen(now).error) && sched.queue == old(sched.queue)
    ensures var now := NotifyNow(nowArg, clock);
      mensaOpen(now).Ok? ==>
        var later := Later(now, NextClose(mensaOpen(now).value.0));
        r == Ok(later) &&
        sched.queue == old(sched.queue) + [Job(later, 10, Action.ScheduleNotification(later))] +
          SendJobsAsWritten(Due(chats.rows, ids, now, later), now)
  {
    var now := if nowArg.Some? then nowArg.value else FloorToInterval(clock);
    assert now == NotifyNow(nowArg, clock);
    var later := now + IntervalSeconds;
    var next := mensaOpen(now);
    if next.Err? {
      return Err(next.error);
    }
    var (info, _) := next.value;
    var nextClose := DayOf(info.day) * DaySeconds + info.close;
    assert nextClose == NextClose(mensaOpen(now).value.0);
    if nextClose - now > DaySeconds {
      later := nextClose - DaySeconds;
    }
    assert later == Later(now, nextClose);
    var _ := sched.EnterAbs(later, 10, Action.ScheduleNotification(later));
    var res := Due(chats.rows, ids, now, later);
    EnterSendsAsWritten(sched, res, now);
    return Ok(later);
  }

  /** The loop over the due chats: one send each, in order, all reading the last row's time. */
  method EnterSendsAsWritten(sched: Scheduler, due: seq<ChatRow>, now: int)
    requires forall x :: x in due ==> x.pushTime.Some?
    modifies sched
    ensures sched.queue == old(sched.queue) + SendJobsAsWritten(due, now)
  {
    // The value each queued closure will read for `notify_time`.
    var last := FinalNotifyTime(due, now);
    ghost var start := sched.queue;
    ghost var jobs := SendJobsAsWritten(due, now);
    for i := 0 to |due|
      invariant sched.queue == start + jobs[..i]
    {
      assert due[i] in due;
      var notifyTime := DayOf(now) * DaySeconds + due[i].pushTime.value;
      assert jobs[i] == Job(notifyTime, 100, SendMenu(last, due[i]));
      var _ := sched.EnterAbs(notifyTime, 100, SendMenu(last, due[i]));
      assert jobs[..i + 1] == jobs[..i] + [jobs[i]];
    }
    assert jobs[..|due|] == jobs;
  }

  /**
   * A chat of the table gets a send in a wave exactly when its push time
   * is in the window; the sends are in ascending time order and, when the
   * window stays within the day, fall between `now` and `later`.
   */
  lemma SendsExactlyDue(rows: map<int, ChatRow>, ids: seq<int>, now: int, later: int)
    requires forall id :: id in rows ==> id in ids
    ensures var jobs := SendJobs(Due(rows, ids, now, later), now);
      forall id :: id in rows ==>
        (InWindow(rows[id], now, later) <==> exists j :: 0 <= j < |jobs| && jobs[j].action == SendMenu(jobs[j].time, rows[id]))
    ensures var jobs := SendJobs(Due(rows, ids, now, later), now);
      forall i, j :: 0 <= i < j < |jobs| ==> jobs[i].time <= jobs[j].time
    ensures var jobs := SendJobs(Due(rows, ids, now, later), now);
      DayOf(later) == DayOf(now) ==> forall j :: 0 <= j < |jobs| ==> now <= jobs[j].time < later
  {
    var due := Due(rows, ids, now, later);
    var jobs := SendJobs(due, now);
    forall id | id in rows
      ensures InWindow(rows[id], now, later) <==> exists j :: 0 <= j < |jobs| && jobs[j].action == SendMenu(jobs[j].time, rows[id])
    {
      if InWindow(rows[id], now, later) {
        assert rows[id] in TableRows(rows, ids);
        assert rows[id] in due;
        var j :| 0 <= j < |due| && due[j] == rows[id];
        assert jobs[j].action == SendMenu(jobs[j].time, rows[id]);
      }
      if exists j :: 0 <= j < |jobs| && jobs[j].action == SendMenu(jobs[j].time, rows[id]) {
        var j :| 0 <= j < |jobs| && jobs[j].action == SendMenu(jobs[j].time, rows[id]);
        assert due[j] == rows[id] && due[j] in due;
      }
    }
    forall j | 0 <= j < |jobs| && DayOf(later) == DayOf(now) ensures now <= jobs[j].time < later {
      assert due[j] in due;
      assert now == DayOf(now) * DaySeconds + TimeOf(now);
      assert later == DayOf(later) * DaySeconds + TimeOf(later);
    }
  }

  /**
   * With a minute-aligned `now` before 23:59 and `later` one minute on, a
   * chat is in the window exactly when its push time falls in that minute:
   * successive waves of one day partition the chats by minute.
   */
  lemma WindowIsMinute(row: ChatRow, now: int)
    requires now % 60 == 0 && TimeOf(now) < DaySeconds - 60
    ensures InWindow(row, now, now + IntervalSeconds) <==>
      row.pushTime.Some? && row.pushTime.value / 60 == TimeOf(now) / 60
  {
    NextMinuteSameDay(now);
    MinuteAlignedTime(now);
    if row.pushTime.Some? {
      MinuteOf(row.pushTime.value, TimeOf(now) / 60);
    }
  }

  /** Before the day's last minute, one minute on is the same day. */
  lemma NextMinuteSameDay(now: int)
    requires TimeOf(now) < DaySeconds - 60
    ensures TimeOf(now + 60) == TimeOf(now) + 60
  {
    assert now + 60 == DayOf(now) * DaySeconds + (TimeOf(now) + 60);
  }

  /** A minute-aligned moment has a minute-aligned time of day. */
  lemma MinuteAlignedTime(now: int)
    requires now % 60 == 0
    ensures TimeOf(now) % 60 == 0
  {
    var q, t := DayOf(now), TimeOf(now);
    var a := now / 60;
    assert now == 60 * a;
    assert now == q * DaySeconds + t;
    assert t == 60 * (a - 1440 * q);
    assert (60 * (a - 1440 * q)) % 60 == 0;
  }

  /** The seconds of minute `q` are exactly those with `q` as their minute. */
  lemma MinuteOf(p: int, q: int)
    ensures p / 60 == q <==> 60 * q <= p < 60 * q + 60
  {
  }

  /** The wave at 23:59 selects nobody: `later.time()` is midnight, so the window is empty. */
  lemma LastMinuteSelectsNobody(row: ChatRow, now: int)
    requires TimeOf(now) == DaySeconds - 60
    ensures !InWindow(row, now, now + IntervalSeconds)
  {
    assert now + 60 == (DayOf(now) + 1) * DaySeconds by {
      assert now == DayOf(now) * DaySeconds + TimeOf(now);
    }
  }

  /**
   * As written, a wave of two chats with different push times renders the
   * first chat's message for the second chat's time: its send runs at one
   * time and carries another.
   */
  lemma LateBindingExample(a: ChatRow, b: ChatRow, now: int)
    requires PushKey(a) != PushKey(b)
    ensures SendJobsAsWritten([a, b], now)[0].action.dt != SendJobsAsWritten([a, b], now)[0].time
    ensures SendJobs([a, b], now)[0].action.dt == SendJobs([a, b], now)[0].time
  {
  }

  /**
   * Both versions queue the same sends at the same times for the same
   * chats; only the rendered time differs, and for push times within a day
   * it lies on the same date, so a message counts as today's in both or in
   * neither.
   */
  lemma LateBindingSameDay(due: seq<ChatRow>, now: int)
    requires forall x :: x in due ==> 0 <= PushKey(x) < DaySeconds
    ensures var w, c := SendJobsAsWritten(due, now), SendJobs(due, now);
      |w| == |c| &&
      forall i :: 0 <= i < |w| ==>
        w[i].time == c[i].time && w[i].priority == c[i].priority && w[i].action.chat == c[i].action.chat &&
        DayOf(w[i].action.dt) == DayOf(c[i].action.dt) == DayOf(now)
  {
    var w, c := SendJobsAsWritten(due, now), SendJobs(due, now);
    forall i | 0 <= i < |w|
      ensures DayOf(w[i].action.dt) == DayOf(c[i].action.dt) == DayOf(now)
    {
      assert due[i] in due && due[|due| - 1] in due;
      SameDay(now, PushKey(due[i]));
      SameDay(now, PushKey(due[|due| - 1]));
    }
  }

  lemma SameDay(now: int, p: int)
    requires 0 <= p < DaySeconds
    ensures DayOf(DayOf(now) * DaySeconds + p) == DayOf(now)
  {
  }

  // ---------------------------------------------------------------------------
  // The other recurring jobs

  /**
   * `schedule_update_menu`: re-arm in five minutes at priority 11, then
   * fetch this week's menu past the cache, which refreshes the cache entry
   * and reports a changed week to the listeners.
   */
  method ScheduleUpdateMenu(sched: Scheduler, store: Mensa.MenuStore, now: int, isoWeek: int -> int,
                            lines: seq<Mensa.Line>, search: string -> Option<KennzMatch>)
    returns (r: seq<Dish>)
    requires KennzSearchSound(search)
    modifies sched, store
    ensures sched.queue == old(sched.queue) + [Job(now + 300, 11, UpdateMenu)]
    ensures var week := isoWeek(DayOf(now));
      r == Mensa.ParsedRows(lines, search) &&
      store.cache == old(store.cache)[week := (now, r)] &&
      Mensa.ParsedRows(store.Stored(week), search) == r
    ensures store.listeners == old(store.listeners)
  {
    var _ := sched.Enter(now, 5 * 60, 11, UpdateMenu);
    r := store.GetMenuWeek(isoWeek(DayOf(now)), true, now, lines, search);
  }

  /** 02:00 on the day after `now`. */
  function NextCacheClear(now: int): (r: int)
    ensures DayOf(r) == DayOf(now) + 1 && TimeOf(r) == 2 * 3600
    ensures now < r <= now + DaySeconds + 2 * 3600
  {
    assert now == DayOf(now) * DaySeconds + TimeOf(now);
    (DayOf(now) + 1) * DaySeconds + 2 * 3600
  }

  /**
   * `schedule_clear_cache`: re-arm for tomorrow 02:00 at priority 1000.
   * The caches it clears are not part of this model.
   */
  method ScheduleClearCache(sched: Scheduler, now: int)
    modifies sched
    ensures sched.queue == old(sched.queue) + [Job(NextCacheClear(now), 1000, ClearCache)]
  {
    var next := (DayOf(now) + 1) * DaySeconds + 2 * 3600;
    var _ := sched.EnterAbs(next, 1000, ClearCache);
  }

  /**
   * `schedule_clear_mensa_notifications`: re-arm one minute after the next
   * closing time at priority 1000; then, if the registry tracks another
   * day than the next opening's, empty it and track that day. Afterwards
   * the registry always tracks the next opening's day, so running the job
   * again for the same opening leaves the registry alone.
   */
  method ScheduleClearMensaNotifications(sched: Scheduler, reg: MensaCommand.Registry, next: Result<(OpenInfo, seq<Dish>)>)
    returns (r: Result<()>)
    modifies sched, reg
    ensures r.Ok? <==> next.Ok?
    ensures next.Err? ==>
      r == Err(next.error) && sched.queue == old(sched.queue) &&
      reg.notifications == old(reg.notifications) && reg.date == old(reg.date)
    ensures next.Ok? ==>
      var day := DayOf(next.value.0.day);
      sched.queue == old(sched.queue) + [Job(NextClose(next.value.0) + 60, 1000, ClearMensaNotifications)] &&
      reg.date == Some(day) &&
      reg.notifications == (if old(reg.date) == Some(day) then old(reg.notifications) else [])
  {
    if next.Err? {
      return Err(next.error);
    }
    var (info, _) := next.value;
    var nextClose := DayOf(info.day) * DaySeconds + info.close;
    var _ := sched.EnterAbs(nextClose + 60, 1000, ClearMensaNotifications);
    if reg.date != Some(DayOf(info.day)) {
      reg.notifications := [];
      reg.date := Some(DayOf(info.day));
    }
    return Ok(());
  }

  // ---------------------------------------------------------------------------
  // run_sched

  /**
   * What one `SCHED.run(blocking=False)` round ends with: the delay until
   * the next job (`None` for an empty queue), a `KeyboardInterrupt`, or
   * any other exception.
   */
  datatype RunOutcome = Ran(delay: Option<real>) | Interrupted | Failed

  /** What the loop did: the sleeps it made, the exceptions it logged, whether it stopped. */
  datatype RunTrace = RunTrace(sleeps: seq<real>, logged: nat, stopped: bool)

  function Min(a: real, b: real): real { if a <= b then a else b }

  /**
   * The loop over a sequence of round outcomes. `min(None, 1)` raises a
   * `TypeError` and `sleep` of a negative time a `ValueError`; both are
   * logged like any failure and the loop goes on. Only an interrupt stops
   * it.
   */
  function Run(outcomes: seq<RunOutcome>): RunTrace
  {
    if outcomes == [] then RunTrace([], 0, false)
    else
      var rest := Run(outcomes[1..]);
      match outcomes[0]
      case Interrupted => RunTrace([], 0, true)
      case Failed => rest.(logged := rest.logged + 1)
      case Ran(None) => rest.(logged := rest.logged + 1)
      case Ran(Some(d)) =>
        if Min(d, 1.0) < 0.0 then rest.(logged := rest.logged + 1)
        else rest.(sleeps := [Min(d, 1.0)] + rest.sleeps)
  }

  /** `run_sched`'s loop, after the four jobs have been started. */
  method RunSched(outcomes: seq<RunOutcome>) returns (sleeps: seq<real>, logged: nat, stopped: bool)
    ensures RunTrace(sleeps, logged, stopped) == Run(outcomes)
  {
    var running := true;
    var i := 0;
    sleeps, logged := [], 0;
    while running && i < |outcomes|
      invariant 0 <= i <= |outcomes|
      invariant running ==>
        Run(outcomes) == RunTrace(sleeps + Run(outcomes[i..]).sleeps, logged + Run(outcomes[i..]).logged, Run(outcomes[i..]).stopped)
      invariant !running ==> Run(outcomes) == RunTrace(sleeps, logged, true)
    {
      assert outcomes[i..][1..] == outcomes[i + 1..];
      match outcomes[i] {
        case Interrupted =>
          running := false;
        case Failed =>
          logged := logged + 1;
        case Ran(None) =>
          logged := logged + 1;
        case Ran(Some(d)) =>
          var s := Min(d, 1.0);
          if s < 0.0 {
            logged := logged + 1;
          } else {
            assert sleeps + ([s] + Run(outcomes[i + 1..]).sleeps) == (sleeps + [s]) + Run(outcomes[i + 1..]).sleeps;
            sleeps := sleeps + [s];
          }
      }
      i := i + 1;
    }
    if running {
      assert outcomes[i..] == [];
      assert sleeps + [] == sleeps;
    }
    stopped := !running;
  }

  /** The loop stops exactly when an interrupt arrives. */
  lemma {:induction false} RunStopsOnlyOnInterrupt(outcomes: seq<RunOutcome>)
    ensures Run(outcomes).stopped <==> Interrupted in outcomes
  {
    if outcomes != [] {
      RunStopsOnlyOnInterrupt(outcomes[1..]);
      assert forall o :: o in outcomes <==> o == outcomes[0] || o in outcomes[1..];
    }
  }

  /** Every sleep lasts between zero and one second. */
  lemma {:induction false} RunSleepsAtMostOne(outcomes: seq<RunOutcome>)
    ensures forall s :: s in Run(outcomes).sleeps ==> 0.0 <= s <= 1.0
  {
    if outcomes != [] {
      RunSleepsAtMostOne(outcomes[1..]);
    }
  }

  /** Nothing after an interrupt happens. */
  lemma {:induction false} RunIgnoresAfterInterrupt(before: seq<RunOutcome>, after: seq<RunOutcome>)
    ensures Run(before + [Interrupted] + after) == Run(before + [Interrupted])
  {
    if before == [] {
      assert (before + [Interrupted] + after)[0] == Interrupted;
      assert (before + [Interrupted])[0] == Interrupted;
    } else {
      RunIgnoresAfterInterrupt(before[1..], after);
      assert (before + [Interrupted] + after)[1..] == before[1..] + [Interrupted] + after;
      assert (before + [Interrupted])[1..] == before[1..] + [Interrupted];
    }
  }

  /** A round on an empty queue is logged and followed by no sleep: the loop spins. */
  lemma EmptyQueueSpins(rest: seq<RunOutcome>)
    ensures Run([Ran(None)] + rest).sleeps == Run(rest).sleeps
    ensures Run([Ran(None)] + rest).logged == Run(rest).logged + 1
  {
    assert ([Ran(None)] + rest)[1..] == rest;
  }
}
