/**
 * The bot's own queries (mensabot/mensa.py): the week cache with a five
 * minute lifetime, the menu store that reports changed weeks to listeners,
 * the mensa's hard-coded opening table, the next-opening search that fails
 * instead of answering "never", and the clean-up of the semester table's
 * headings.
 *
 * HTTP, the CSV reader and the clock are parameters: a fetch hands over the
 * CSV rows of the fixed-up text and the current time in seconds.
 */
module Mensa {
  import opened Common
  import opened Dishes
  import opened Menus
  import opened NameScanner
  import opened MensaMenu
  import opened Opening

  // ---------------------------------------------------------------------------
  // The week cache and the menu store

  /** One CSV row: its raw `datum` cell, and its fields as `parse_dish` reads them. */
  datatype Line = Line(datum: string, row: Row)

  /** `[parse_dish(row) for row in rows if row['datum'].strip()]`. */
  function ParsedRows(lines: seq<Line>, search: string -> Option<KennzMatch>): (r: seq<Dish>)
    requires KennzSearchSound(search)
    ensures |r| <= |lines|
  {
    if lines == [] then []
    else
      var rest := ParsedRows(lines[1..], search);
      if Strip(lines[0].datum) != "" then [ParseDish(lines[0].row, search)] + rest else rest
  }

  /** Every dish read back is the parse of a row whose date cell is not blank. */
  lemma {:induction false} ParsedRowsSound(lines: seq<Line>, search: string -> Option<KennzMatch>)
    requires KennzSearchSound(search)
    ensures forall d :: d in ParsedRows(lines, search) ==>
      exists l :: l in lines && Strip(l.datum) != "" && d == ParseDish(l.row, search)
  {
    if lines != [] {
      var rest := ParsedRows(lines[1..], search);
      ParsedRowsSound(lines[1..], search);
      forall d | d in ParsedRows(lines, search)
        ensures exists l :: l in lines && Strip(l.datum) != "" && d == ParseDish(l.row, search)
      {
        if Strip(lines[0].datum) != "" && d == ParseDish(lines[0].row, search) {
          assert lines[0] in lines;
        } else {
          assert d in rest;
          var l :| l in lines[1..] && Strip(l.datum) != "" && d == ParseDish(l.row, search);
          assert l in lines;
        }
      }
    }
  }

  /** Every row whose date cell is not blank is read back. */
  lemma {:induction false} ParsedRowsComplete(lines: seq<Line>, search: string -> Option<KennzMatch>)
    requires KennzSearchSound(search)
    ensures forall l :: l in lines && Strip(l.datum) != "" ==> ParseDish(l.row, search) in ParsedRows(lines, search)
  {
    if lines != [] {
      ParsedRowsComplete(lines[1..], search);
      assert forall l :: l in lines ==> l == lines[0] || l in lines[1..];
    }
  }

  /** How long a cached week stays valid, in seconds: five minutes. */
  const CacheTtl: int := 300

  /** `PRICES_CATEGORIES`: the price columns a chat can choose, students first. */
  const PricesCategories: seq<string> := ["stud", "bed", "gast"]

  /** `week in cache and not disable_cache` and the entry is younger than five minutes. */
  predicate Fresh(cache: map<int, (int, seq<Dish>)>, week: int, disableCache: bool, now: int)
  {
    week in cache && !disableCache && now - cache[week].0 < CacheTtl
  }

  /** The module's `cache`, the menu store directory `MENU_STORE`, and `change_listeners` with the calls they received. */
  class MenuStore {
    var cache: map<int, (int, seq<Dish>)>
    /** The rows each week's file in the store reads back as; a missing file has none. */
    var files: map<int, seq<Line>>
    var listeners: seq<nat>
    var calls: seq<ListenerCall>

    constructor(listeners: seq<nat>)
      ensures cache == map[] && files == map[] && this.listeners == listeners && calls == []
    {
      cache := map[];
      files := map[];
      this.listeners := listeners;
      calls := [];
    }

    function Stored(week: int): seq<Line>
      reads this
    {
      if week in files then files[week] else []
    }

    /** `for l in change_listeners: l(week, old, new)`. */
    method Notify(week: int, before: seq<Dish>, after: seq<Dish>)
      modifies this
      ensures cache == old(cache) && files == old(files) && listeners == old(listeners)
      ensures calls == old(calls) + CallsFor(listeners, week, before, after)
    {
      for i := 0 to |listeners|
        invariant cache == old(cache) && files == old(files) && listeners == old(listeners)
        invariant calls == old(calls) + CallsFor(listeners[..i], week, before, after)
      {
        assert listeners[..i + 1] == listeners[..i] + [listeners[i]];
        calls := calls + [ListenerCall(listeners[i], week, before, after)];
      }
      assert listeners[..|listeners|] == listeners;
    }

    /**
     * `fetch_menu_week`, given the rows of the fetched text: an unchanged
     * week returns the stored dishes and tells nobody; a changed one is
     * written to the store and every listener is called once with the old
     * and the new dishes. Either way the store then parses to the fetched
     * dishes, so fetching the same rows again tells nobody.
     */
    method FetchMenuWeek(week: int, lines: seq<Line>, search: string -> Option<KennzMatch>) returns (r: seq<Dish>)
      requires KennzSearchSound(search)
      modifies this
      ensures r == ParsedRows(lines, search)
      ensures ParsedRows(Stored(week), search) == ParsedRows(lines, search)
      ensures var before := ParsedRows(old(Stored(week)), search);
        if before == r then files == old(files) && calls == old(calls)
        else files == old(files)[week := lines] && calls == old(calls) + CallsFor(listeners, week, before, r)
      ensures cache == old(cache) && listeners == old(listeners)
    {
      var before := ParsedRows(Stored(week), search);
      var after := ParsedRows(lines, search);
      if before == after {
        return before;
      }
      files := files[week := lines];
      Notify(week, before, after);
      return after;
    }

    /**
     * `get_menu_week`: a fresh cache entry is returned as it is; otherwise
     * the week is fetched and cached with the current time, and stays fresh
     * for the next five minutes.
     */
    method GetMenuWeek(week: int, disableCache: bool, now: int, lines: seq<Line>, search: string -> Option<KennzMatch>)
      returns (r: seq<Dish>)
      requires KennzSearchSound(search)
      modifies this
      ensures Fresh(old(cache), week, disableCache, now) ==>
        r == old(cache)[week].1 && cache == old(cache) && files == old(files) && calls == old(calls)
      ensures !Fresh(old(cache), week, disableCache, now) ==>
        r == ParsedRows(lines, search) && cache == old(cache)[week := (now, r)] &&
        ParsedRows(Stored(week), search) == r &&
        forall later :: now <= later < now + CacheTtl ==> Fresh(cache, week, false, later)
      ensures listeners == old(listeners)
    {
      if week in cache && !disableCache {
        var (at, list) := cache[week];
        if now - at < CacheTtl {
          return list;
        }
      }
      r := FetchMenuWeek(week, lines, search);
      cache := cache[week := (now, r)];
    }
  }

  // ---------------------------------------------------------------------------
  // Opening times

  /** The URL part of the mensa, whose table is not read from the web. */
  const MensaLocation: string := "mensen/mensa-uni-passau"

  /** 11:00 to 14:15. */
  const Lunch: Slot := (11 * 3600, 14 * 3600 + 15 * 60)

  /** The mensa's table: Monday to Friday at lunch time in both timeframes, closed otherwise. */
  function MensaTable(): (r: Table)
    ensures FullTable(r)
  {
    var keys := InitialTable().Keys;
    map k | k in keys :: if k.1 < 5 then Lunch else NotOpen
  }

  /** The hard-coded branch of `get_opening_times`. */
  method MensaTimes() returns (t: Table)
    ensures t == MensaTable()
  {
    t := InitialTable();
    for d := 0 to 5
      invariant FullTable(t)
      invariant forall k :: k in t ==> t[k] == if k.1 < d then Lunch else NotOpen
    {
      LunchOn(t, d);
      t := t[(true, d) := Lunch][(false, d) := Lunch];
    }
    MensaTableOf(t);
  }

  /** Opening one more weekday at lunch in both timeframes. */
  lemma LunchOn(t: Table, d: int)
    requires 0 <= d < 5 && FullTable(t)
    requires forall k :: k in t ==> t[k] == if k.1 < d then Lunch else NotOpen
    ensures var u := t[(true, d) := Lunch][(false, d) := Lunch];
      FullTable(u) && forall k :: k in u ==> u[k] == if k.1 < d + 1 then Lunch else NotOpen
  {
    var u1 := t[(true, d) := Lunch];
    SetKeepsFull(t, (true, d), Lunch);
    var u := u1[(false, d) := Lunch];
    SetKeepsFull(u1, (false, d), Lunch);
    forall k | k in u
      ensures u[k] == if k.1 < d + 1 then Lunch else NotOpen
    {
      if k == (false, d) || k == (true, d) {
      } else {
        assert u[k] == t[k];
        assert k.1 != d by {
          var (h, e) := k;
          assert k == (h, e);
        }
      }
    }
  }

  /** Setting a weekday's slot keeps a table full. */
  lemma SetKeepsFull(t: Table, k: (bool, int), v: Slot)
    requires FullTable(t) && 0 <= k.1 < 7
    ensures FullTable(t[k := v])
  {
  }

  /** A full table that is open at lunch exactly from Monday to Friday is the mensa's table. */
  lemma MensaTableOf(t: Table)
    requires FullTable(t)
    requires forall k :: k in t ==> t[k] == if k.1 < 5 then Lunch else NotOpen
    ensures t == MensaTable()
  {
    var m := MensaTable();
    forall k | k in m ensures m[k] == if k.1 < 5 then Lunch else NotOpen {
      MensaTableAt(k.0, k.1);
    }
    SameWeekTables(t, m);
  }

  /** Two full tables with the same slot for every weekday are equal. */
  lemma SameWeekTables(a: Table, b: Table)
    requires FullTable(a) && FullTable(b)
    requires forall k :: k in a ==> a[k] == if k.1 < 5 then Lunch else NotOpen
    requires forall k :: k in b ==> b[k] == if k.1 < 5 then Lunch else NotOpen
    ensures a == b
  {
    FullTablesSameKeys(a, b);
  }

  /** All full tables have the same 14 keys. */
  lemma FullTablesSameKeys(a: Table, b: Table)
    requires FullTable(a) && FullTable(b)
    ensures a.Keys == b.Keys
  {
    forall k | k in a ensures k in b {
      var (h, d) := k;
      assert 0 <= d < 7;
      assert (h, d) in b;
    }
    forall k | k in b ensures k in a {
      var (h, d) := k;
      assert 0 <= d < 7;
      assert (h, d) in a;
    }
  }

  /** `get_opening_times(loc)`: the mensa's fixed table, any other location's table from the rows of its page. */
  method OpeningTimes(loc: string, rows: seq<seq<string>>) returns (r: Result<Table>)
    ensures loc == MensaLocation ==> r == Ok(MensaTable())
    ensures loc != MensaLocation ==> r == OpeningTable(rows)
  {
    if loc == MensaLocation {
      var t := MensaTimes();
      return Ok(t);
    }
    r := ParseTable(rows);
  }

  /** `get_next_open`: the shared search, with an `AssertionError` where the other version answers `None`. */
  function MensaNextOpen(times: Table, holiday: int -> Result<bool>, start: int): (r: Result<OpenInfo>)
    requires FullTable(times)
    ensures r == Err(AssertionError) <==>
      NextOpen(times, holiday, start) == Ok(None) || NextOpen(times, holiday, start) == Err(AssertionError)
    ensures r.Ok? <==> NextOpen(times, holiday, start).Ok? && NextOpen(times, holiday, start).value.Some?
    ensures r.Ok? ==> NextOpen(times, holiday, start) == Ok(Some(r.value))
  {
    match NextOpen(times, holiday, start)
    case Err(e) => Err(e)
    case Ok(None) => Err(AssertionError)
    case Ok(Some(info)) => Ok(info)
  }

  /** A weekday from which one to three days ahead reaches a day from Monday to Friday. */
  function WorkdayAhead(w: int): (j: int)
    requires 0 <= w < 7
    ensures 1 <= j <= 3 && (w + j) % 7 < 5
  {
    if w <= 3 then 1 else 7 - w
  }

  /**
   * For the mensa's own table, the search always finds an opening within
   * three days, so the assertion that no opening is in sight never fails
   * when the holiday test answers: there is a weekday among any three
   * consecutive days.
   */
  lemma MensaAlwaysOpens(holiday: int -> Result<bool>, start: int)
    requires forall day :: holiday(day).Ok?
    ensures MensaNextOpen(MensaTable(), holiday, start).Ok?
    ensures MensaNextOpen(MensaTable(), holiday, start).value.offset <= 3
  {
    var times := MensaTable();
    var j := LunchAhead(holiday, start);
    NextOpenFirst(times, holiday, start);
    assert Counts(SlotAt(times, holiday, start, j).value, start, j);
    assert forall i :: 0 <= i < 6 ==> SlotAt(times, holiday, start, i).Ok?;
  }

  /** The offset, one to three days ahead, of a day on which the mensa serves lunch. */
  lemma LunchAhead(holiday: int -> Result<bool>, start: int) returns (j: nat)
    requires forall day :: holiday(day).Ok?
    ensures 1 <= j <= 3 && SlotAt(MensaTable(), holiday, start, j) == Ok(Lunch)
  {
    j := WorkdayAhead(Weekday(DayOf(start)));
    DayOfShift(start, j);
    WeekdayShift(DayOf(start), j);
    assert Weekday(DayOf(start + j * DaySeconds)) < 5;
    LunchOnWorkday(holiday, start, j);
  }

  /** On a working day the mensa's table gives lunch, whether or not the day is a holiday. */
  lemma LunchOnWorkday(holiday: int -> Result<bool>, start: int, j: nat)
    requires forall day :: holiday(day).Ok?
    requires Weekday(DayOf(start + j * DaySeconds)) < 5
    ensures SlotAt(MensaTable(), holiday, start, j) == Ok(Lunch)
  {
    var d := DayOf(start + j * DaySeconds);
    MensaTableAt(holiday(d).value, Weekday(d));
  }

  /** The mensa's table, slot by slot: lunch from Monday to Friday, closed at the weekend, in both timeframes. */
  lemma MensaTableAt(h: bool, w: int)
    requires 0 <= w < 7
    ensures (h, w) in MensaTable() && MensaTable()[(h, w)] == if w < 5 then Lunch else NotOpen
  {
  }

  /**
   * What `get_next_mensa_open` returns, its loop taken once: the next
   * opening with the menu of its day, or an `AssertionError` when the
   * offset exceeds 31 days.
   */
  function MensaOpenOnce(nextOpen: int -> Result<OpenInfo>, menuOfDay: int -> Result<seq<Dish>>, start: int)
    : Result<(OpenInfo, seq<Dish>)>
  {
    match nextOpen(start)
    case Err(e) => Err(e)
    case Ok(info) =>
      if info.offset > 31 then Err(AssertionError)
      else
        match menuOfDay(info.day)
        case Err(e) => Err(e)
        case Ok(menu) => Ok((info, menu))
  }

  /** `get_next_mensa_open`: the menu is always a list, so the loop body runs exactly once. */
  method NextMensaOpen(nextOpen: int -> Result<OpenInfo>, menuOfDay: int -> Result<seq<Dish>>, start: int)
    returns (r: Result<(OpenInfo, seq<Dish>)>)
    ensures r == MensaOpenOnce(nextOpen, menuOfDay, start)
  {
    var menu: Option<seq<Dish>> := None;
    var offset := 0;
    var from := start;
    var info := OpenInfo(0, 0, 0, 0);
    while menu.None?
      invariant menu.None? ==> from == start && offset == 0
      invariant menu.Some? ==>
        nextOpen(start) == Ok(info) && offset == info.offset <= 31 && menuOfDay(info.day) == Ok(menu.value)
      decreases if menu.None? then 1 else 0
    {
      var next := nextOpen(from);
      if next.Err? {
        return Err(next.error);
      }
      offset := offset + next.value.offset;
      if offset > 31 {
        return Err(AssertionError);
      }
      info := next.value;
      var m := menuOfDay(info.day);
      if m.Err? {
        return Err(m.error);
      }
      menu := Some(m.value);
      from := info.day + DaySeconds;
    }
    return Ok((OpenInfo(info.open, info.close, info.day, offset), menu.value));
  }

  /**
   * With the mensa's table, a holiday test that answers and a menu that can
   * be fetched, the next opening with its menu is always found, at most
   * three days ahead.
   */
  lemma MensaOpenOnceSucceeds(holiday: int -> Result<bool>, menuOfDay: int -> Result<seq<Dish>>, start: int)
    requires forall day :: holiday(day).Ok?
    requires forall t :: menuOfDay(t).Ok?
    ensures MensaOpenOnce(t => MensaNextOpen(MensaTable(), holiday, t), menuOfDay, start).Ok?
    ensures MensaOpenOnce(t => MensaNextOpen(MensaTable(), holiday, t), menuOfDay, start).value.0.offset <= 3
  {
    var next := t => MensaNextOpen(MensaTable(), holiday, t);
    MensaAlwaysOpens(holiday, start);
    var info := next(start).value;
    assert next(start) == Ok(info) && info.offset <= 3;
    assert menuOfDay(info.day).Ok?;
    assert MensaOpenOnce(next, menuOfDay, start) == Ok((info, menuOfDay(info.day).value));
  }

  // ---------------------------------------------------------------------------
  // sanitize_semester_dates_table_heads

  /** `x.replace('\xad', '').replace('\t', '')`. */
  function Cleaned(x: string): string
  {
    Without(Without(x, '\U{00AD}'), '\t')
  }

  /**
   * `x.replace('\xad', '').replace('\t', '').split(' ')[0]`: the cleaned
   * text up to its first space.
   */
  function Head(x: string): (r: string)
    ensures ' ' !in r && '\t' !in r && '\U{00AD}' !in r
    ensures forall c :: c in r ==> c in x
  {
    var cleaned := Cleaned(x);
    SplitHeadChars(cleaned, ' ');
    Split(cleaned, ' ')[0]
  }

  /** The heading is the cleaned text up to, and without, its first space. */
  lemma HeadIsFirstWord(x: string)
    ensures Head(x) <= Cleaned(x) && ' ' !in Head(x)
    ensures |Head(x)| == |Cleaned(x)| || Cleaned(x)[|Head(x)|] == ' '
  {
    SplitHeadPrefix(Cleaned(x), ' ');
  }

  lemma {:induction false} SplitHeadChars(s: string, c: char)
    ensures forall x :: x in Split(s, c)[0] ==> x in s
  {
    if s != [] && s[0] != c {
      SplitHeadChars(s[1..], c);
    }
  }

  /** The first piece of a split is the text up to the first separator. */
  lemma {:induction false} SplitHeadPrefix(s: string, c: char)
    ensures Split(s, c)[0] <= s
    ensures |Split(s, c)[0]| == |s| || s[|Split(s, c)[0]|] == c
  {
    if s != [] && s[0] != c {
      SplitHeadPrefix(s[1..], c);
      assert s == [s[0]] + s[1..];
    }
  }

  /** A string the clean-up leaves alone: one word without soft hyphens or tabs. */
  predicate PlainWord(x: string)
  {
    x != "" && ' ' !in x && '\t' !in x && '\U{00AD}' !in x
  }

  /** `x != ''`, the test that drops empty headings. */
  predicate NonEmpty(x: string)
  {
    x != ""
  }

  /** How many of the first `i` strings have a non-empty heading. */
  function HeadsBefore(strings: seq<string>, i: nat): nat
    requires i <= |strings|
  {
    |Filter(Mapped(strings[..i]), NonEmpty)|
  }

  /**
   * `sanitize_semester_dates_table_heads`: the non-empty headings, in order,
   * and at most the first four of them.
   */
  function SanitizeHeads(strings: seq<string>): (r: seq<string>)
    ensures |r| == if HeadsBefore(strings, |strings|) <= 4 then HeadsBefore(strings, |strings|) else 4
    ensures forall i :: 0 <= i < |r| ==> PlainWord(r[i])
  {
    var heads := Filter(Mapped(strings), NonEmpty);
    assert strings[..|strings|] == strings;
    assert forall i :: 0 <= i < |heads| ==> PlainWord(heads[i]) by {
      forall i | 0 <= i < |heads| ensures PlainWord(heads[i]) {
        assert heads[i] in Mapped(strings);
      }
    }
    if |heads| <= 4 then heads else heads[..4]
  }

  /** `[head(x) for x in strings]`. */
  function Mapped(strings: seq<string>): (r: seq<string>)
    ensures |r| == |strings|
    ensures forall i :: 0 <= i < |r| ==> r[i] == Head(strings[i])
  {
    MapSeq(strings, Head)
  }

  /**
   * The heading of string `i`, when it is not empty and fewer than four
   * non-empty headings come before it, is kept, at the place that counts
   * those earlier headings.
   */
  lemma SanitizeHeadsAt(strings: seq<string>, i: nat)
    requires i < |strings| && Head(strings[i]) != "" && HeadsBefore(strings, i) < 4
    ensures HeadsBefore(strings, i) < |SanitizeHeads(strings)|
    ensures SanitizeHeads(strings)[HeadsBefore(strings, i)] == Head(strings[i])
  {
    var h, ma, mb := Head(strings[i]), Mapped(strings[..i]), Mapped(strings[i + 1..]);
    MappedSplit(strings, i);
    KeptAt(ma, h, mb, NonEmpty);
    TakeFourAt(Filter(Mapped(strings), NonEmpty), |Filter(ma, NonEmpty)|, h);
  }

  /** An element among the first four is kept by the cut-off. */
  lemma TakeFourAt(heads: seq<string>, k: nat, h: string)
    requires k < |heads| && k < 4 && heads[k] == h
    ensures var r := if |heads| <= 4 then heads else heads[..4]; k < |r| && r[k] == h
  {
  }

  /** The headings of a list, split around string `i`. */
  lemma MappedSplit(strings: seq<string>, i: nat)
    requires i < |strings|
    ensures Mapped(strings) == Mapped(strings[..i]) + ([Head(strings[i])] + Mapped(strings[i + 1..]))
  {
    MapSeqSplit(strings, i, Head);
  }

  /** An element that passes the test lands in the filter right after what passed before it. */
  lemma KeptAt<T(!new)>(a: seq<T>, x: T, b: seq<T>, p: T -> bool)
    requires p(x)
    ensures |Filter(a, p)| < |Filter(a + ([x] + b), p)|
    ensures Filter(a + ([x] + b), p)[|Filter(a, p)|] == x
  {
    FilterConcat(a, [x] + b, p);
    FilterCons([x] + b, p);
  }

  lemma HeadOfPlainWord(x: string)
    requires PlainWord(x)
    ensures Head(x) == x
  {
    SplitWithout(x, ' ');
  }

  lemma {:induction false} FilterKeepsAll(s: seq<string>)
    requires forall i :: 0 <= i < |s| ==> s[i] != ""
    ensures Filter(s, NonEmpty) == s
  {
    if s != [] {
      FilterKeepsAll(s[1..]);
    }
  }

  lemma {:induction false} MappedPlain(s: seq<string>)
    requires forall i :: 0 <= i < |s| ==> PlainWord(s[i])
    ensures Mapped(s) == s
  {
    if s != [] {
      MappedPlain(s[1..]);
      HeadOfPlainWord(s[0]);
    }
  }

  /** Cleaning the cleaned headings again changes nothing. */
  lemma SanitizeHeadsIdempotent(strings: seq<string>)
    ensures SanitizeHeads(SanitizeHeads(strings)) == SanitizeHeads(strings)
  {
    var r := SanitizeHeads(strings);
    MappedPlain(r);
    FilterKeepsAll(r);
  }
}
