/**
 * The queries of `StwnoApi` (stwno_api/api.py) on top of the menu and
 * opening-time models: the menu of a day, the next opening of the mensa
 * together with its menu, and the storing variant that compares a fetched
 * week with the stored one and tells its listeners about changes.
 *
 * HTTP, the CSV reader and the clock are parameters: `weekMenu` fetches the
 * dishes of an ISO week, `isoWeek` gives a day's ISO week number,
 * `nextOpen` is the next-opening search from a point in time, and
 * `menuOfDay` the menu of the day containing a point in time.
 */
module StwnoApi {
  import opened Common
  import opened Dishes
  import opened Menus
  import opened DayMenu
  import opened Opening
  import opened DateUtil

  /**
   * `get_menu_of_day`: the day's menu from the dishes of its ISO week; a
   * missing or empty day is today.
   */
  function GetMenuOfDay(day: Option<Moment>, today: int, isoWeek: int -> int, weekMenu: int -> Result<seq<Dish>>)
    : (r: Result<seq<Dish>>)
    ensures var m := OrToday(day, today);
      m.Other? ==> r.Err? && r.error.ValueError?
    ensures r.Ok? ==> !OrToday(day, today).Other? && weekMenu(isoWeek(DayOfMoment(OrToday(day, today)).value)).Ok?
    ensures !(day.Some? && Truthy(day.value)) && r.Ok? ==> forall d :: d in r.value ==> d.datum == today
    ensures r.Ok? ==>
      var date := DayOfMoment(OrToday(day, today)).value;
      var week := weekMenu(isoWeek(date)).value;
      (forall d :: d in r.value ==> d in week && d.datum == date) &&
      (forall i, j :: 0 <= i < j < |r.value| ==> r.value[i].name != r.value[j].name) &&
      (forall d :: d in week && d.datum == date ==> exists e :: e in r.value && e.name == d.name)
  {
    match DayOfMoment(OrToday(day, today))
    case Err(e) => Err(e)
    case Ok(date) =>
      match weekMenu(isoWeek(date))
      case Err(e) => Err(e)
      case Ok(week) =>
        MenuOfDayContents(week, date);
        MenuOfDay(week, date)
  }

  /**
   * What `get_next_mensa_open` returns, its loop taken once: nothing when
   * there is no next opening or its offset exceeds 31 days, otherwise the
   * opening with the menu of its day.
   */
  function MensaOpenOnce(nextOpen: int -> Result<Option<OpenInfo>>, menuOfDay: int -> Result<seq<Dish>>, start: int)
    : Result<Option<(OpenInfo, seq<Dish>)>>
  {
    match nextOpen(start)
    case Err(e) => Err(e)
    case Ok(None) => Ok(None)
    case Ok(Some(info)) =>
      if info.offset > 31 then Ok(None)
      else
        match menuOfDay(info.day)
        case Err(e) => Err(e)
        case Ok(menu) => Ok(Some((info, menu)))
  }

  /**
   * `StwnoApi.get_next_mensa_open`. The menu of a day is always a list,
   * never `None`, so the loop body runs exactly once.
   */
  method NextMensaOpen(nextOpen: int -> Result<Option<OpenInfo>>, menuOfDay: int -> Result<seq<Dish>>, start: int)
    returns (r: Result<Option<(OpenInfo, seq<Dish>)>>)
    ensures r == MensaOpenOnce(nextOpen, menuOfDay, start)
  {
    var menu: Option<seq<Dish>> := None;
    var offset := 0;
    var from := start;
    var info := OpenInfo(0, 0, 0, 0);
    while menu.None?
      invariant menu.None? ==> from == start && offset == 0
      invariant menu.Some? ==>
        nextOpen(start).Ok? && nextOpen(start).value == Some(info) &&
        offset == info.offset <= 31 && menuOfDay(info.day) == Ok(menu.value)
      decreases if menu.None? then 1 else 0
    {
      var next := nextOpen(from);
      if next.Err? {
        return Err(next.error);
      }
      if next.value.None? {
        return Ok(None);
      }
      offset := offset + next.value.value.offset;
      if offset > 31 {
        return Ok(None);
      }
      info := next.value.value;
      var m := menuOfDay(info.day);
      if m.Err? {
        return Err(m.error);
      }
      menu := Some(m.value);
      from := info.day + DaySeconds;
    }
    return Ok(Some((OpenInfo(info.open, info.close, info.day, offset), menu.value)));
  }

  /**
   * With the real next-opening search, the 31-day cut-off never applies:
   * the search only looks five days ahead. There is no opening with a menu
   * exactly when the search finds none, and otherwise the opening is the
   * one the search finds.
   */
  lemma NextMensaOpenNoCutoff(times: Table, holiday: int -> Result<bool>, menuOfDay: int -> Result<seq<Dish>>, start: int)
    requires FullTable(times)
    ensures MensaOpenOnce(t => NextOpen(times, holiday, t), menuOfDay, start) == Ok(None) <==>
      NextOpen(times, holiday, start) == Ok(None)
    ensures var r := MensaOpenOnce(t => NextOpen(times, holiday, t), menuOfDay, start);
      r.Ok? && r.value.Some? ==>
        NextOpen(times, holiday, start) == Ok(Some(r.value.value.0)) && r.value.value.0.offset < 6 &&
        menuOfDay(r.value.value.0.day) == Ok(r.value.value.1)
  {
    NextOpenFirst(times, holiday, start);
  }

  // ---------------------------------------------------------------------------
  // StoringStwnoApi

  /** One comparison of the stored week with the fetched one: the result, the stored file afterwards, and whether the listeners run. */
  datatype StoreStep = StoreStep(result: Result<seq<Dish>>, file: seq<Dish>, notify: bool)

  /**
   * `StoringStwnoApi.get_menu_of_week` as written: an unchanged week returns
   * the stored dishes; otherwise the file is emptied and `writelines` is
   * handed the list of `Dish` tuples, which raises a `TypeError` for any
   * non-empty list, before the listeners are reached.
   */
  function StoreAsWritten(stored: seq<Dish>, fetched: seq<Dish>): StoreStep
  {
    if stored == fetched then StoreStep(Ok(stored), stored, false)
    else if fetched != [] then StoreStep(Err(TypeError), [], false)
    else StoreStep(Ok(fetched), [], true)
  }

  /** The intended behaviour: a changed week is stored and reported to the listeners. */
  function StoreCorrected(stored: seq<Dish>, fetched: seq<Dish>): StoreStep
  {
    if stored == fetched then StoreStep(Ok(stored), stored, false) else StoreStep(Ok(fetched), fetched, true)
  }

  /**
   * As written, a changed non-empty week is never stored and never reported:
   * the call fails and leaves an empty file, so the next call finds the
   * week changed again and fails the same way. Listeners only ever hear of
   * a week that became empty.
   */
  lemma StoreAsWrittenNeverStores(stored: seq<Dish>, fetched: seq<Dish>)
    ensures stored != fetched && fetched != [] ==> StoreAsWritten(stored, fetched) == StoreStep(Err(TypeError), [], false)
    ensures stored != fetched && fetched != [] ==> StoreAsWritten(StoreAsWritten(stored, fetched).file, fetched).result == Err(TypeError)
    ensures StoreAsWritten(stored, fetched).notify ==> fetched == []
  {
  }

  /**
   * Corrected, the listeners run exactly when the week changed, the call
   * never fails, and afterwards the store holds the fetched week, so the
   * same fetch again reports nothing.
   */
  lemma StoreCorrectedReportsChanges(stored: seq<Dish>, fetched: seq<Dish>)
    ensures StoreCorrected(stored, fetched).notify <==> stored != fetched
    ensures StoreCorrected(stored, fetched).result == Ok(fetched)
    ensures StoreCorrected(stored, fetched).file == fetched
    ensures !StoreCorrected(StoreCorrected(stored, fetched).file, fetched).notify
  {
  }

  /** `StoringStwnoApi`: the store directory's week files, the change listeners, and the calls they received. */
  class StoringApi {
    /** What each week's file in the store directory reads back as; a missing file reads as no dishes. */
    var files: map<int, seq<Dish>>
    var listeners: seq<nat>
    var calls: seq<ListenerCall>

    constructor(listeners: seq<nat>)
      ensures this.files == map[] && this.listeners == listeners && this.calls == []
    {
      this.files := map[];
      this.listeners := listeners;
      this.calls := [];
    }

    function Stored(week: int): seq<Dish>
      reads this
    {
      if week in files then files[week] else []
    }

    /** `for l in self.change_listeners: l(week, old, new)`. */
    method Notify(week: int, before: seq<Dish>, after: seq<Dish>)
      modifies this
      ensures files == old(files) && listeners == old(listeners)
      ensures calls == old(calls) + CallsFor(listeners, week, before, after)
    {
      for i := 0 to |listeners|
        invariant files == old(files) && listeners == old(listeners)
        invariant calls == old(calls) + CallsFor(listeners[..i], week, before, after)
      {
        assert listeners[..i + 1] == listeners[..i] + [listeners[i]];
        calls := calls + [ListenerCall(listeners[i], week, before, after)];
      }
      assert listeners[..|listeners|] == listeners;
    }

    /** `StoringStwnoApi.get_menu_of_week` as written, for the fetched dishes of `week`. */
    method GetMenuOfWeekAsWritten(week: int, fetched: seq<Dish>) returns (r: Result<seq<Dish>>)
      modifies this
      ensures var step := StoreAsWritten(old(Stored(week)), fetched);
        r == step.result &&
        files == (if old(Stored(week)) == fetched then old(files) else old(files)[week := step.file]) &&
        calls == old(calls) + (if step.notify then CallsFor(listeners, week, old(Stored(week)), fetched) else [])
      ensures listeners == old(listeners)
    {
      var stored := Stored(week);
      if stored == fetched {
        return Ok(stored);
      }
      files := files[week := []];
      if fetched != [] {
        return Err(TypeError);
      }
      Notify(week, stored, fetched);
      return Ok(fetched);
    }

    /** `StoringStwnoApi.get_menu_of_week` as intended: a changed week is written, then every listener is told. */
    method GetMenuOfWeek(week: int, fetched: seq<Dish>) returns (r: seq<Dish>)
      modifies this
      ensures r == fetched && Stored(week) == fetched
      ensures var step := StoreCorrected(old(Stored(week)), fetched);
        files == (if old(Stored(week)) == fetched then old(files) else old(files)[week := fetched]) &&
        calls == old(calls) + (if step.notify then CallsFor(listeners, week, old(Stored(week)), fetched) else [])
      ensures listeners == old(listeners)
    {
      var stored := Stored(week);
      if stored == fetched {
        return stored;
      }
      files := files[week := fetched];
      Notify(week, stored, fetched);
      return fetched;
    }
  }
}
