/**
 * Opening times, as both `get_opening_times` and `get_next_open` compute them
 * (stwno_api/api.py and mensabot/mensa.py hold the same code): a table from
 * (lecture-free period?, weekday) to an (open, close) pair, filled from the
 * rows of the web page's table, and the search for the next day on which a
 * location opens.
 *
 * Times of day are seconds since midnight; points in time are seconds since
 * 1970-01-01 00:00 local time, whose day number is `t / 86400` and whose
 * weekday (Monday = 0) is `(day + 3) % 7`, day 0 being a Thursday.
 */
module Opening {
  import opened Common

  const DaySeconds: int := 86400

  function DayOf(t: int): int { t / DaySeconds }

  /** `t.time()`, in seconds since midnight. */
  function TimeOf(t: int): (r: int)
    ensures 0 <= r < DaySeconds
  {
    t % DaySeconds
  }

  /** `isoweekday() - 1` of a day number. */
  function Weekday(day: int): (r: int)
    ensures 0 <= r < 7
  {
    (day + 3) % 7
  }

  /** `t + timedelta(days=i)` lies on the `i`-th day after `t`'s day. */
  lemma DayOfShift(t: int, i: int)
    ensures DayOf(t + i * DaySeconds) == DayOf(t) + i
  {
    var q, r := t / DaySeconds, t % DaySeconds;
    assert t + i * DaySeconds == (q + i) * DaySeconds + r;
  }

  /** The weekday `j` days later. */
  lemma WeekdayShift(day: int, j: int)
    ensures Weekday(day + j) == (Weekday(day) + j) % 7
  {
    var q := (day + 3) / 7;
    assert day + 3 == 7 * q + Weekday(day);
    assert day + j + 3 == 7 * q + (Weekday(day) + j);
  }

  /** `OPENING_DAYS`. */
  const OpeningDays: seq<string> := ["Mo", "Di", "Mi", "Do", "Fr", "Sa", "So"]

  /** An (open, close) pair of times of day. */
  type Slot = (int, int)

  /** `NOT_OPEN`: open and close at midnight. */
  const NotOpen: Slot := (0, 0)

  type Table = map<(bool, int), Slot>

  /** Exactly the 14 keys (holiday, weekday) of the table `get_opening_times` starts from. */
  predicate FullTable(t: Table)
  {
    (forall h: bool, d: int :: 0 <= d < 7 ==> (h, d) in t) &&
    (forall k :: k in t ==> 0 <= k.1 < 7)
  }

  /** `{(t, d): NOT_OPEN for d in range(7) for t in [True, False]}`. */
  function InitialTable(): (r: Table)
    ensures FullTable(r)
    ensures forall k :: k in r ==> r[k] == NotOpen
  {
    map h: bool, d: int | 0 <= d < 7 :: (h, d) := NotOpen
  }

  /** `OPENING_TIMEFRAME_HOLIDAY`: which heading names the lecture-free period. */
  function Timeframe(name: string): (r: Option<bool>)
    ensures r == Some(false) <==> name == "vorlesungszeit"
    ensures r == Some(true) <==> name == "vorlesungsfreie zeit"
  {
    if name == "vorlesungszeit" then Some(false)
    else if name == "vorlesungsfreie zeit" then Some(true)
    else None
  }

  // ---------------------------------------------------------------------------
  // The day cell

  /** `OPENING_DAYS.index(s)`, for a text that is one of the day abbreviations. */
  function DayIndex(s: string): (r: Option<nat>)
    ensures r.Some? <==> s in OpeningDays
    ensures r.Some? ==> r.value < 7 && OpeningDays[r.value] == s
  {
    if s in OpeningDays then Some(IndexOf(OpeningDays, s).value) else None
  }

  /** No day abbreviation is empty. */
  lemma NoEmptyDay()
    ensures "" !in OpeningDays
  {
  }

  /** The day abbreviation at position `i`, as an index into `OPENING_DAYS`. */
  function DayAt(s: string, i: nat): (r: Option<nat>)
    ensures r.Some? ==> i + 2 <= |s| && r.value < 7 && OpeningDays[r.value] == s[i..i + 2]
  {
    if i + 2 <= |s| then DayIndex(s[i..i + 2]) else None
  }

  /**
   * `re.match("(Mo|Di|...) ?- ?(Mo|Di|...)", s)`: a day, an optional space,
   * a dash, an optional space and a day, at the start of `s` (anything may
   * follow). Every alternative is two letters long and a day never starts
   * with a space, so the optional spaces need no backtracking.
   */
  function DayRange(s: string): (r: Option<(nat, nat)>)
    ensures r.Some? ==> r.value.0 < 7 && r.value.1 < 7
  {
    match DayAt(s, 0)
    case None => None
    case Some(first) =>
      var k := if |s| > 2 && s[2] == ' ' then 3 else 2;
      if k < |s| && s[k] == '-' then
        var k2 := if k + 1 < |s| && s[k + 1] == ' ' then k + 2 else k + 1;
        match DayAt(s, k2)
        case None => None
        case Some(last) => Some((first, last))
      else None
  }

  /** `[i for i in range(first, last)]`. */
  function Range(first: int, last: int): (r: seq<int>)
    ensures |r| == if first < last then last - first else 0
    ensures forall i :: 0 <= i < |r| ==> r[i] == first + i
    ensures forall d :: d in r <==> first <= d < last
    decreases last - first
  {
    if first >= last then [] else [first] + Range(first + 1, last)
  }

  /**
   * The weekdays a day cell names: an inclusive range, all seven days for an
   * empty cell, or one day; `None` when the row is to be skipped.
   */
  function ParseDays(cell: string): (r: Option<seq<int>>)
    ensures r.Some? ==> forall d :: d in r.value ==> 0 <= d < 7
    ensures var s := Strip(cell);
      (s == "" ==> r == Some(Range(0, 7))) &&
      (DayRange(s).Some? ==> r == Some(Range(DayRange(s).value.0, DayRange(s).value.1 + 1))) &&
      (r.None? <==> DayRange(s).None? && s != "" && s !in OpeningDays)
  {
    var s := Strip(cell);
    match DayRange(s)
    case Some((first, last)) => Some(Range(first, last + 1))
    case None => AllOrOneDay(s)
  }

  /** A cell holding one day's abbreviation, and no range, names that day alone. */
  lemma ParseOneDay(cell: string)
    requires DayRange(Strip(cell)).None? && Strip(cell) in OpeningDays
    ensures var r := ParseDays(cell);
      r.Some? && |r.value| == 1 && 0 <= r.value[0] < 7 && OpeningDays[r.value[0]] == Strip(cell)
  {
    assert ParseDays(cell) == AllOrOneDay(Strip(cell));
  }

  /** A day cell that is not a range: empty for the whole week, or one day's abbreviation. */
  function AllOrOneDay(s: string): (r: Option<seq<int>>)
    ensures r.Some? ==> forall d :: d in r.value ==> 0 <= d < 7
    ensures s == "" ==> r == Some(Range(0, 7))
    ensures s in OpeningDays ==> r.Some? && |r.value| == 1 && 0 <= r.value[0] < 7 && OpeningDays[r.value[0]] == s
    ensures r.None? <==> s != "" && s !in OpeningDays
  {
    if s == "" then NoEmptyDay(); Some(Range(0, 7))
    else
      match DayIndex(s)
      case Some(i) => Some([i])
      case None => None
  }

  // ---------------------------------------------------------------------------
  // The time cell

  function DigitValue(c: char): int { c as int - '0' as int }

  /**
   * `[0-9]{1,2}` at position `i`, greedily. In the time pattern every such
   * group is followed by a non-digit, so the one-digit alternative can only
   * succeed where the greedy one does not apply, and the greedy choice is the
   * only one to try.
   */
  function Number(s: string, i: nat): (r: Option<(int, nat)>)
    ensures r.Some? ==> i < r.value.1 <= |s| && r.value.1 <= i + 2 && 0 <= r.value.0 <= 99
  {
    if i + 2 <= |s| && IsDigit(s[i]) && IsDigit(s[i + 1]) then Some((10 * DigitValue(s[i]) + DigitValue(s[i + 1]), i + 2))
    else if i < |s| && IsDigit(s[i]) then Some((DigitValue(s[i]), i + 1))
    else None
  }

  /** `h:m`, starting at position `i`. */
  function HourMinute(s: string, i: nat): (r: Option<(int, int, nat)>)
    ensures r.Some? ==> i < r.value.2 <= |s| && 0 <= r.value.0 <= 99 && 0 <= r.value.1 <= 99
  {
    match Number(s, i)
    case None => None
    case Some((h, j)) =>
      if j < |s| && s[j] == ':' then
        match Number(s, j + 1)
        case None => None
        case Some((m, k)) => Some((h, m, k))
      else None
  }

  /** `re.match("([0-9]{1,2}):([0-9]{1,2}) ?- ?([0-9]{1,2}):([0-9]{1,2}) ?(Uhr)?", s)`: the four numbers. */
  function TimeRange(s: string): (r: Option<(int, int, int, int)>)
    ensures r.Some? ==> 0 <= r.value.0 <= 99 && 0 <= r.value.1 <= 99 && 0 <= r.value.2 <= 99 && 0 <= r.value.3 <= 99
  {
    match HourMinute(s, 0)
    case None => None
    case Some((h1, m1, j)) =>
      var dash :=
        if j < |s| && s[j] == '-' then Some(j + 1)
        else if j + 1 < |s| && s[j] == ' ' && s[j + 1] == '-' then Some(j + 2)
        else None;
      match dash
      case None => None
      case Some(k) =>
        var k2 := if k < |s| && s[k] == ' ' then k + 1 else k;
        match HourMinute(s, k2)
        case None => None
        case Some((h2, m2, _)) => Some((h1, m1, h2, m2))
  }

  /** The four numbers of a time cell: a range, all zero for a closed day, or `None` to skip the row. */
  function ParseHours(cell: string): (r: Option<(int, int, int, int)>)
    ensures TimeRange(Strip(cell)).Some? ==> r == TimeRange(Strip(cell))
    ensures TimeRange(Strip(cell)).None? && Contains(Strip(cell), "geschlossen") ==> r == Some((0, 0, 0, 0))
    ensures r.None? <==> TimeRange(Strip(cell)).None? && !Contains(Strip(cell), "geschlossen")
  {
    var s := Strip(cell);
    if TimeRange(s).Some? then TimeRange(s)
    else if Contains(s, "geschlossen") then Some((0, 0, 0, 0))
    else None
  }

  /** `dtm.time(h, m)`, which rejects an hour above 23 or a minute above 59. */
  function Clock(h: int, m: int): (r: Result<int>)
    requires h >= 0 && m >= 0
    ensures r.Ok? <==> h <= 23 && m <= 59
    ensures r.Ok? ==> r.value == h * 3600 + m * 60 && 0 <= r.value < DaySeconds
    ensures r.Err? ==> r.error.ValueError?
  {
    if h > 23 then Err(ValueError("hour must be in 0..23"))
    else if m > 59 then Err(ValueError("minute must be in 0..59"))
    else Ok(h * 3600 + m * 60)
  }

  // ---------------------------------------------------------------------------
  // The rows

  /** The state the row loop carries: the last timeframe heading seen and the table. */
  datatype Scan = Scan(timeframe: Option<string>, table: Table)

  /** `for day in days: dates[(holidays, day)] = (open, close)`. */
  function Assign(t: Table, holidays: bool, days: seq<int>, slot: Slot): (r: Table)
    ensures forall k :: k in r <==> k in t || (k.0 == holidays && k.1 in days)
    ensures forall k :: k in r ==> r[k] == if k.0 == holidays && k.1 in days then slot else t[k]
    decreases |days|
  {
    if days == [] then t
    else
      assert forall d :: d in days <==> d == days[0] || d in days[1..];
      Assign(t[(holidays, days[0]) := slot], holidays, days[1..], slot)
  }

  /** The heading of a row: lower-cased, stripped of spaces, then of colons. */
  function Heading(cell: string): string
  {
    StripChar(Strip(Lower(cell)), ':')
  }

  /** The timeframe a row of three cells is read under: its own non-empty heading, or the previous one. */
  function RowTimeframe(st: Scan, heading: string): Option<string>
  {
    if Heading(heading) != "" then Some(Heading(heading)) else st.timeframe
  }

  /** What a day cell may read as: weekdays only. */
  predicate ValidDays(days: Option<seq<int>>)
  {
    days.Some? ==> forall d :: d in days.value ==> 0 <= d < 7
  }

  /** What a time cell may read as: four non-negative numbers. */
  predicate ValidHours(hours: Option<(int, int, int, int)>)
  {
    hours.Some? ==> hours.value.0 >= 0 && hours.value.1 >= 0 && hours.value.2 >= 0 && hours.value.3 >= 0
  }

  /** A row under timeframe `tf`, given what its day and time cells read as. */
  function ApplyRow(st: Scan, tf: Option<string>, days: Option<seq<int>>, hours: Option<(int, int, int, int)>): Result<Scan>
    requires ValidDays(days) && ValidHours(hours)
  {
    if tf.None? || Timeframe(tf.value).None? || days.None? || hours.None? then Ok(st.(timeframe := tf))
    else SetSlot(st, tf, Timeframe(tf.value).value, days.value, hours.value)
  }

  /** A row whose cells were read: build the two times, then write the slot of each listed day. */
  function SetSlot(st: Scan, tf: Option<string>, holidays: bool, days: seq<int>, hours: (int, int, int, int)): Result<Scan>
    requires hours.0 >= 0 && hours.1 >= 0 && hours.2 >= 0 && hours.3 >= 0
  {
    var (h1, m1, h2, m2) := hours;
    match Clock(h1, m1)
    case Err(e) => Err(e)
    case Ok(open) =>
      match Clock(h2, m2)
      case Err(e) => Err(e)
      case Ok(close) => Ok(Scan(tf, Assign(st.table, holidays, days, (open, close))))
  }

  /** What writing a read row does: both times valid, and exactly the listed days' slots of that timeframe replaced. */
  lemma SetSlotEffect(st: Scan, tf: Option<string>, holidays: bool, days: seq<int>, hours: (int, int, int, int))
    requires hours.0 >= 0 && hours.1 >= 0 && hours.2 >= 0 && hours.3 >= 0
    requires forall d :: d in days ==> 0 <= d < 7
    ensures var r := SetSlot(st, tf, holidays, days, hours);
      var (h1, m1, h2, m2) := hours;
      (r.Ok? <==> h1 <= 23 && m1 <= 59 && h2 <= 23 && m2 <= 59) &&
      (r.Err? ==> r.error.ValueError?) &&
      (r.Ok? ==>
        r.value.timeframe == tf && (FullTable(st.table) ==> FullTable(r.value.table)) &&
        (forall k :: k in st.table ==>
          r.value.table[k] ==
            if k.0 == holidays && k.1 in days then (h1 * 3600 + m1 * 60, h2 * 3600 + m2 * 60) else st.table[k]))
  {
    var (h1, m1, h2, m2) := hours;
    if Clock(h1, m1).Ok? && Clock(h2, m2).Ok? {
      var slot := (Clock(h1, m1).value, Clock(h2, m2).value);
      var t := Assign(st.table, holidays, days, slot);
      assert SetSlot(st, tf, holidays, days, hours) == Ok(Scan(tf, t));
      assert slot == (h1 * 3600 + m1 * 60, h2 * 3600 + m2 * 60);
    }
  }

  /** The cells of a row read as the two parsers read them. */
  lemma CellsValid(dayCell: string, timeCell: string)
    ensures ValidDays(ParseDays(dayCell)) && ValidHours(ParseHours(timeCell))
  {
  }

  /** One row of the opening-times table. */
  function RowStep(st: Scan, cells: seq<string>): Result<Scan>
  {
    if |cells| != 3 then Ok(st)
    else
      CellsValid(cells[1], cells[2]);
      ApplyRow(st, RowTimeframe(st, cells[0]), ParseDays(cells[1]), ParseHours(cells[2]))
  }

  /** The shape of `ApplyRow`: it sets the timeframe, keeps the 14 keys, and fails only with a `ValueError`. */
  lemma ApplyRowShape(st: Scan, tf: Option<string>, days: Option<seq<int>>, hours: Option<(int, int, int, int)>)
    requires ValidDays(days) && ValidHours(hours)
    requires FullTable(st.table)
    ensures ApplyRow(st, tf, days, hours).Ok? ==>
      ApplyRow(st, tf, days, hours).value.timeframe == tf && FullTable(ApplyRow(st, tf, days, hours).value.table)
    ensures ApplyRow(st, tf, days, hours).Err? ==> ApplyRow(st, tf, days, hours).error.ValueError?
  {
    if tf.Some? && Timeframe(tf.value).Some? && days.Some? && hours.Some? {
      SetSlotEffect(st, tf, Timeframe(tf.value).value, days.value, hours.value);
    }
  }

  /**
   * The shape of one row's step: a row without exactly three cells changes
   * nothing; any other row sets the timeframe from its non-empty heading or
   * keeps the previous one; the table keeps its 14 keys, and the only
   * failure is a `ValueError`.
   */
  lemma RowStepShape(st: Scan, cells: seq<string>)
    requires FullTable(st.table)
    ensures |cells| != 3 ==> RowStep(st, cells) == Ok(st)
    ensures |cells| == 3 && RowStep(st, cells).Ok? ==>
      RowStep(st, cells).value.timeframe == (if Heading(cells[0]) != "" then Some(Heading(cells[0])) else st.timeframe)
    ensures RowStep(st, cells).Ok? ==> FullTable(RowStep(st, cells).value.table)
    ensures RowStep(st, cells).Err? ==> RowStep(st, cells).error.ValueError?
  {
    if |cells| == 3 {
      CellsValid(cells[1], cells[2]);
      ApplyRowShape(st, RowTimeframe(st, cells[0]), ParseDays(cells[1]), ParseHours(cells[2]));
    }
  }

  /**
   * What one row writes: under a known timeframe, a readable day cell and a
   * readable time cell set exactly the slots of those days in that
   * timeframe, or the row fails on an hour above 23 or a minute above 59;
   * every other row leaves the table as it was.
   */
  lemma ApplyRowEffect(st: Scan, tf: Option<string>, days: Option<seq<int>>, hours: Option<(int, int, int, int)>)
    requires ValidDays(days) && ValidHours(hours)
    ensures
      var r := ApplyRow(st, tf, days, hours);
      if tf.Some? && Timeframe(tf.value).Some? && days.Some? && hours.Some? then
        var (h1, m1, h2, m2) := hours.value;
        (r.Ok? <==> h1 <= 23 && m1 <= 59 && h2 <= 23 && m2 <= 59) &&
        (r.Ok? ==> forall k :: k in st.table ==>
          r.value.table[k] ==
            if k.0 == Timeframe(tf.value).value && k.1 in days.value then (h1 * 3600 + m1 * 60, h2 * 3600 + m2 * 60)
            else st.table[k])
      else r.Ok? && r.value.table == st.table
  {
    if tf.Some? && Timeframe(tf.value).Some? && days.Some? && hours.Some? {
      SetSlotEffect(st, tf, Timeframe(tf.value).value, days.value, hours.value);
    }
  }

  /** The loop over the rows, from a given state. */
  function Rows(st: Scan, rows: seq<seq<string>>): Result<Scan>
    decreases |rows|
  {
    if rows == [] then Ok(st)
    else
      match RowStep(st, rows[0])
      case Err(e) => Err(e)
      case Ok(next) => Rows(next, rows[1..])
  }

  /** The table `get_opening_times` returns for the rows of the page. */
  function OpeningTable(rows: seq<seq<string>>): Result<Table>
  {
    match Rows(Scan(None, InitialTable()), rows)
    case Err(e) => Err(e)
    case Ok(st) => Ok(st.table)
  }

  lemma {:induction false} RowsKeepKeys(st: Scan, rows: seq<seq<string>>)
    requires FullTable(st.table)
    ensures Rows(st, rows).Ok? ==> FullTable(Rows(st, rows).value.table)
    ensures Rows(st, rows).Err? ==> Rows(st, rows).error.ValueError?
    decreases |rows|
  {
    if rows != [] {
      RowStepShape(st, rows[0]);
      if RowStep(st, rows[0]).Ok? {
        RowsKeepKeys(RowStep(st, rows[0]).value, rows[1..]);
      }
    }
  }

  /**
   * The table always has exactly the 14 keys, so looking up any
   * (holiday, weekday) pair in it cannot fail; the only failure is a
   * `ValueError` from an impossible clock time.
   */
  lemma OpeningTableKeys(rows: seq<seq<string>>)
    ensures OpeningTable(rows).Ok? ==> FullTable(OpeningTable(rows).value)
    ensures OpeningTable(rows).Err? ==> OpeningTable(rows).error.ValueError?
  {
    RowsKeepKeys(Scan(None, InitialTable()), rows);
  }

  /** `get_opening_times`' loop over the rows of the page's table. */
  method ParseTable(rows: seq<seq<string>>) returns (r: Result<Table>)
    ensures r == OpeningTable(rows)
  {
    var timeframe: Option<string> := None;
    var dates := InitialTable();
    for i := 0 to |rows|
      invariant Rows(Scan(None, InitialTable()), rows) == Rows(Scan(timeframe, dates), rows[i..])
    {
      assert rows[i..][0] == rows[i] && rows[i..][1..] == rows[i + 1..];
      var step := RowStep(Scan(timeframe, dates), rows[i]);
      if step.Err? {
        return Err(step.error);
      }
      timeframe, dates := step.value.timeframe, step.value.table;
    }
    assert rows[|rows|..] == [];
    return Ok(dates);
  }

  // ---------------------------------------------------------------------------
  // The next opening

  /** `OpenInfo(open, close, day, offset)`. */
  datatype OpenInfo = OpenInfo(open: int, close: int, day: int, offset: nat)

  /** The slot of the day `i` days after `start`, or the error the holiday test raises. */
  function SlotAt(times: Table, holiday: int -> Result<bool>, start: int, i: nat): (r: Result<Slot>)
    requires FullTable(times)
  {
    var d := DayOf(start + i * DaySeconds);
    match holiday(d)
    case Err(e) => Err(e)
    case Ok(h) => Ok(times[(h, Weekday(d))])
  }

  /** Offset 0 counts while the current time is before today's close; a later day counts when it opens after midnight. */
  predicate Counts(slot: Slot, start: int, i: nat)
  {
    if i == 0 then TimeOf(start) < slot.1 else slot.0 > 0
  }

  /** The search over offsets `i` to 5. */
  function NextOpenFrom(times: Table, holiday: int -> Result<bool>, start: int, i: nat): Result<Option<OpenInfo>>
    requires FullTable(times)
    decreases 6 - i
  {
    if i >= 6 then Ok(None)
    else
      match SlotAt(times, holiday, start, i)
      case Err(e) => Err(e)
      case Ok(slot) =>
        if Counts(slot, start, i) then Ok(Some(OpenInfo(slot.0, slot.1, start + i * DaySeconds, i)))
        else NextOpenFrom(times, holiday, start, i + 1)
  }

  /** `get_next_open`'s search over today and the next five days. */
  function NextOpen(times: Table, holiday: int -> Result<bool>, start: int): Result<Option<OpenInfo>>
    requires FullTable(times)
  {
    NextOpenFrom(times, holiday, start, 0)
  }

  lemma {:induction false} NextOpenFromFirst(times: Table, holiday: int -> Result<bool>, start: int, i: nat)
    requires FullTable(times)
    requires i <= 6
    ensures var r := NextOpenFrom(times, holiday, start, i);
      (r.Ok? && r.value.Some? ==>
        var info := r.value.value;
        i <= info.offset < 6 && SlotAt(times, holiday, start, info.offset) == Ok((info.open, info.close)) &&
        Counts((info.open, info.close), start, info.offset) && info.day == start + info.offset * DaySeconds &&
        forall j :: i <= j < info.offset ==> SlotAt(times, holiday, start, j).Ok? && !Counts(SlotAt(times, holiday, start, j).value, start, j)) &&
      (r.Ok? && r.value.None? ==>
        forall j :: i <= j < 6 ==> SlotAt(times, holiday, start, j).Ok? && !Counts(SlotAt(times, holiday, start, j).value, start, j)) &&
      (r.Err? ==> exists j :: i <= j < 6 && SlotAt(times, holiday, start, j) == Err(r.error))
    decreases 6 - i
  {
    if i < 6 && SlotAt(times, holiday, start, i).Ok? && !Counts(SlotAt(times, holiday, start, i).value, start, i) {
      NextOpenFromFirst(times, holiday, start, i + 1);
    }
  }

  /**
   * `get_next_open` finds the FIRST offset in 0..5 that counts: today while
   * it is still before closing time, a later day when it opens after
   * midnight at all; `None` when no offset counts. The holiday test's error
   * escapes, for the first day whose test fails before one counts.
   */
  lemma NextOpenFirst(times: Table, holiday: int -> Result<bool>, start: int)
    requires FullTable(times)
    ensures var r := NextOpen(times, holiday, start);
      (r.Ok? && r.value.Some? ==>
        var info := r.value.value;
        info.offset < 6 && SlotAt(times, holiday, start, info.offset) == Ok((info.open, info.close)) &&
        Counts((info.open, info.close), start, info.offset) && info.day == start + info.offset * DaySeconds &&
        forall j :: 0 <= j < info.offset ==> SlotAt(times, holiday, start, j).Ok? && !Counts(SlotAt(times, holiday, start, j).value, start, j)) &&
      (r.Ok? && r.value.None? ==>
        forall j :: 0 <= j < 6 ==> SlotAt(times, holiday, start, j).Ok? && !Counts(SlotAt(times, holiday, start, j).value, start, j)) &&
      (r.Err? ==> exists j :: 0 <= j < 6 && SlotAt(times, holiday, start, j) == Err(r.error))
  {
    NextOpenFromFirst(times, holiday, start, 0);
  }
}
