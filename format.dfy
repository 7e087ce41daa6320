/**
 * The argument handling around template rendering (`mensabot/format.py`,
 * `stwno-cmds/stwno_cmds/format.py`): which template a reply uses, the
 * defaults every rendering receives, and the seven days of the weekly
 * opening-times schedule. The rendering itself is not modelled.
 */
module Format {
  import opened Common
  import opened Opening
  import DateUtil
  import Parse
  import Mensa

  // ---------------------------------------------------------------------------
  // Template choice (older bot)

  /** A missing or empty template name falls back to the locale's own templates. */
  function TemplateFor(template: Option<string>, locale: string): (r: string)
    ensures template.Some? && template.value != "" ==> r == template.value
    ensures template.None? || template.value == "" ==> r == locale
  {
    if template.None? || template.value == "" then locale else template.value
  }

  // ---------------------------------------------------------------------------
  // Rendering defaults (command-line front end)

  /** The keyword values a rendering receives. */
  datatype Kw = Text(text: string) | Time(seconds: int)

  /** `kwargs.setdefault(key, value)`: the value a key ends up with, and the dictionary after it. */
  function SetDefault(kwargs: map<string, Kw>, key: string, value: Kw): (r: (Kw, map<string, Kw>))
    ensures key in kwargs ==> r == (kwargs[key], kwargs)
    ensures key !in kwargs ==> r == (value, kwargs[key := value])
  {
    if key in kwargs then (kwargs[key], kwargs) else (value, kwargs[key := value])
  }

  /** The four keys `user_config_defaults` fills in. */
  const DefaultedKeys: set<string> := {"locale", "template", "price_category", "now"}

  /**
   * `user_config_defaults`: the locale defaults to the first language, the
   * template to the (possibly defaulted) locale, the price category to the
   * first one, `now` to the clock; keys the caller gave are never replaced.
   */
  function ConfigDefaults(kwargs: map<string, Kw>, now: int): (r: map<string, Kw>)
    ensures r.Keys == kwargs.Keys + DefaultedKeys
    ensures forall k :: k in kwargs ==> r[k] == kwargs[k]
    ensures "locale" !in kwargs ==> r["locale"] == Text(Parse.Lang[0])
    ensures "template" !in kwargs ==> r["template"] == r["locale"]
    ensures "price_category" !in kwargs ==> r["price_category"] == Text(Mensa.PricesCategories[0])
    ensures "now" !in kwargs ==> r["now"] == Time(now)
  {
    var (locale, k1) := SetDefault(kwargs, "locale", Text(Parse.Lang[0]));
    var (_, k2) := SetDefault(k1, "template", locale);
    var (_, k3) := SetDefault(k2, "price_category", Text(Mensa.PricesCategories[0]));
    var (_, k4) := SetDefault(k3, "now", Time(now));
    k4
  }

  /** Filling in the defaults a second time, even at a later moment, changes nothing. */
  lemma ConfigDefaultsIdempotent(kwargs: map<string, Kw>, now: int, later: int)
    ensures ConfigDefaults(ConfigDefaults(kwargs, now), later) == ConfigDefaults(kwargs, now)
  {
  }

  /** The keyword dictionary is updated in place, one `setdefault` after the other. */
  method UserConfigDefaults(kwargs: map<string, Kw>, now: int) returns (r: map<string, Kw>)
    ensures r == ConfigDefaults(kwargs, now)
  {
    r := kwargs;
    if "locale" !in r {
      r := r["locale" := Text(Parse.Lang[0])];
    }
    var locale := r["locale"];
    if "template" !in r {
      r := r["template" := locale];
    }
    if "price_category" !in r {
      r := r["price_category" := Text(Mensa.PricesCategories[0])];
    }
    if "now" !in r {
      r := r["now" := Time(now)];
    }
  }

  /**
   * The day and location of a menu rendering: a missing or empty day is
   * today, and it is converted to a plain date (anything else that is not a
   * date is a `ValueError`); a missing location is the institution's default
   * dining hall.
   */
  function MenuArgs<L>(day: Option<DateUtil.Moment>, location: Option<L>, defaultMensa: L, today: int)
    : (r: Result<(int, L)>)
    ensures !(day.Some? && DateUtil.Truthy(day.value)) ==> r.Ok? && r.value.0 == today
    ensures day.Some? && DateUtil.Truthy(day.value) ==> (r.Ok? <==> !day.value.Other?)
    ensures r.Ok? && day.Some? && day.value.Date? ==> r.value.0 == day.value.day
    ensures day.Some? && day.value.DateTime? ==> r.Ok? && r.value.0 == Opening.DayOf(day.value.seconds)
    ensures r.Ok? ==> r.value.1 == (if location.Some? then location.value else defaultMensa)
  {
    match DateUtil.DayOfMoment(DateUtil.OrToday(day, today))
    case Err(e) => Err(e)
    case Ok(d) => Ok((d, if location.Some? then location.value else defaultMensa))
  }

  /** The moment and location of an opening-times rendering; the location defaults to the default cafeteria. */
  function OpeningArgs<L>(dt: Option<int>, location: Option<L>, defaultCafeteria: L, now: int): (r: (int, L))
    ensures r.0 == (if dt.Some? then dt.value else now)
    ensures r.1 == (if location.Some? then location.value else defaultCafeteria)
  {
    (if dt.Some? then dt.value else now, if location.Some? then location.value else defaultCafeteria)
  }

  // ---------------------------------------------------------------------------
  // The weekly schedule

  /** `[dt + timedelta(days=i - dt.weekday()) for i in range(7)]`. */
  function WeekDays(dt: int): (r: seq<int>)
    ensures |r| == 7
    ensures forall i :: 0 <= i < 7 ==> r[i] == dt + (i - Weekday(DayOf(dt))) * DaySeconds
  {
    seq(7, i => dt + (i - Weekday(DayOf(dt))) * DaySeconds)
  }

  /**
   * The seven days are Monday to Sunday of `dt`'s own week, one day apart,
   * each at `dt`'s time of day, and `dt` is among them.
   */
  lemma WeekDaysAreTheWeek(dt: int)
    ensures forall i :: 0 <= i < 7 ==> Weekday(DayOf(WeekDays(dt)[i])) == i
    ensures forall i :: 0 <= i < 7 ==> TimeOf(WeekDays(dt)[i]) == TimeOf(dt)
    ensures forall i :: 0 <= i < 6 ==> WeekDays(dt)[i + 1] == WeekDays(dt)[i] + DaySeconds
    ensures WeekDays(dt)[Weekday(DayOf(dt))] == dt
  {
    var w := Weekday(DayOf(dt));
    forall i | 0 <= i < 7
      ensures Weekday(DayOf(WeekDays(dt)[i])) == i
      ensures TimeOf(WeekDays(dt)[i]) == TimeOf(dt)
    {
      DayOfShift(dt, i - w);
      WeekdayShift(DayOf(dt), i - w);
      assert (w + (i - w)) % 7 == i;
      var q, s := dt / DaySeconds, dt % DaySeconds;
      assert WeekDays(dt)[i] == (q + i - w) * DaySeconds + s;
    }
  }

  /** The table's slot for a day, given whether it is a holiday. */
  function SlotOn(times: Table, holiday: bool, day: int): Slot
    requires FullTable(times)
  {
    assert (holiday, Weekday(day)) in times;
    times[(holiday, Weekday(day))]
  }

  /**
   * The schedule for a list of days: for each, the table's slot for that
   * day's holiday status and weekday. The holiday test's error escapes for
   * the first day it fails on.
   */
  function WeekSchedule(times: Table, holiday: int -> Result<bool>, days: seq<int>): (r: Result<seq<(Slot, int)>>)
    requires FullTable(times)
    ensures r.Ok? ==> |r.value| == |days|
    ensures r.Ok? ==> forall i :: 0 <= i < |days| ==>
      holiday(DayOf(days[i])).Ok? &&
      r.value[i] == (SlotOn(times, holiday(DayOf(days[i])).value, DayOf(days[i])), days[i])
    ensures r.Err? <==> exists i :: 0 <= i < |days| && holiday(DayOf(days[i])).Err?
  {
    if days == [] then Ok([])
    else
      match holiday(DayOf(days[0]))
      case Err(e) => Err(e)
      case Ok(h) =>
        var first := (SlotOn(times, h, DayOf(days[0])), days[0]);
        match WeekSchedule(times, holiday, days[1..])
        case Err(e) =>
          assert forall i :: 1 <= i < |days| ==> days[1..][i - 1] == days[i];
          Err(e)
        case Ok(rest) =>
          assert forall i :: 1 <= i < |days| ==> days[1..][i - 1] == days[i];
          Ok([first] + rest)
  }

  /** For `dt`'s week, the schedule's entries are Monday to Sunday, in order. */
  lemma WeekScheduleInOrder(times: Table, holiday: int -> Result<bool>, dt: int)
    requires FullTable(times)
    ensures var r := WeekSchedule(times, holiday, WeekDays(dt));
      r.Ok? ==> |r.value| == 7 && forall i :: 0 <= i < 7 ==>
        r.value[i].0 == times[(holiday(DayOf(WeekDays(dt)[i])).value, i)]
  {
    var days := WeekDays(dt);
    var r := WeekSchedule(times, holiday, days);
    WeekDaysAreTheWeek(dt);
    if r.Ok? {
      forall i | 0 <= i < 7
        ensures r.value[i].0 == times[(holiday(DayOf(days[i])).value, i)]
      {
        assert r.value[i].0 == SlotOn(times, holiday(DayOf(days[i])).value, DayOf(days[i]));
      }
    }
  }
}
