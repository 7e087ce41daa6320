/**
 * An institution's locations and semesters (stwno_api/institution.py): the
 * aliases each location answers to, the lookup of a location by name, and
 * whether a day falls into the lecture-free period.
 *
 * Dates are day numbers.
 */
module Institution {
  import opened Common

  datatype LocationType = Cafeteria | Mensa

  /** `Location(name, type, url, menu_url, aliases)`; the aliases are handled apart. */
  datatype Location = Location(name: string, kind: LocationType, url: string, menuUrl: string)

  /** One alias as configured: a pattern string, a compiled pattern, a callable, or anything else. */
  datatype Alias = Pattern(text: string) | Compiled(fullmatch: string -> bool) | Callable(call: string -> bool) | Other(repr: string)

  /** The `aliases` field: `None`, a single alias, or a list of them. */
  datatype Aliases = NoAliases | Single(alias: Alias) | AliasList(list: seq<Alias>)

  /** The list `parse_aliases` walks: nothing for `None`, a single alias wrapped in a list. */
  function AliasesOf(patterns: Aliases): (r: seq<Alias>)
    ensures patterns.NoAliases? ==> r == []
    ensures patterns.Single? ==> r == [patterns.alias]
    ensures patterns.AliasList? ==> r == patterns.list
  {
    match patterns
    case NoAliases => []
    case Single(a) => [a]
    case AliasList(list) => list
  }

  /** The decimal digits of `n`, as `%d` prints them. */
  function Decimal(n: nat): (r: string)
    ensures |r| > 0 && forall i :: 0 <= i < |r| ==> IsDigit(r[i])
  {
    var digit := ['0' + (n % 10) as char];
    if n < 10 then digit else Decimal(n / 10) + digit
  }

  function AliasError(index: nat, repr: string): Error
  {
    ValueError("Alias #" + Decimal(index) + ": '" + repr + "' can't be converted to a string matcher")
  }

  /**
   * The matcher for one alias: the case-insensitive full match of a pattern
   * string (`compile` stands for `re.compile(p, re.IGNORECASE).fullmatch`),
   * the full match of a compiled pattern, or the callable itself.
   */
  function MatcherOf(a: Alias, compile: string -> (string -> bool)): (r: Option<string -> bool>)
    ensures r.None? <==> a.Other?
  {
    match a
    case Pattern(p) => Some(compile(p))
    case Compiled(m) => Some(m)
    case Callable(c) => Some(c)
    case Other(_) => None
  }

  /** `Institution.parse_aliases`. */
  method ParseAliases(patterns: Aliases, compile: string -> (string -> bool)) returns (r: Result<seq<string -> bool>>)
    ensures patterns.NoAliases? ==> r == Ok([])
    ensures r.Ok? <==> forall i :: 0 <= i < |AliasesOf(patterns)| ==> !AliasesOf(patterns)[i].Other?
    ensures r.Ok? ==> (|r.value| == |AliasesOf(patterns)| &&
      forall i :: 0 <= i < |r.value| ==> Some(r.value[i]) == MatcherOf(AliasesOf(patterns)[i], compile))
    ensures r.Err? ==>
      exists i :: 0 <= i < |AliasesOf(patterns)| && AliasesOf(patterns)[i].Other? &&
        (forall j :: 0 <= j < i ==> !AliasesOf(patterns)[j].Other?) &&
        r.error == AliasError(i, AliasesOf(patterns)[i].repr)
  {
    var list := AliasesOf(patterns);
    var matchers: seq<string -> bool> := [];
    for idx := 0 to |list|
      invariant |matchers| == idx
      invariant forall i :: 0 <= i < idx ==> !list[i].Other? && Some(matchers[i]) == MatcherOf(list[i], compile)
    {
      var p := list[idx];
      match p {
        case Pattern(text) =>
          matchers := matchers + [compile(text)];
        case Compiled(m) =>
          matchers := matchers + [m];
        case Callable(c) =>
          matchers := matchers + [c];
        case Other(repr) =>
          return Err(AliasError(idx, repr));
      }
    }
    return Ok(matchers);
  }

  /** A location answers to a name equal to its own or accepted by one of its matchers. */
  predicate Answers(entry: (Location, seq<string -> bool>), name: string)
  {
    name == entry.0.name || exists i :: 0 <= i < |entry.1| && entry.1[i](name)
  }

  /**
   * `Institution.find_location` over the location patterns in their
   * iteration order: the first location that answers to the name, or
   * `None` exactly when none does.
   */
  method FindLocation(patterns: seq<(Location, seq<string -> bool>)>, name: string) returns (r: Option<Location>)
    ensures r.None? <==> forall k :: 0 <= k < |patterns| ==> !Answers(patterns[k], name)
    ensures r.Some? ==>
      exists k :: 0 <= k < |patterns| && patterns[k].0 == r.value && Answers(patterns[k], name) &&
        forall j :: 0 <= j < k ==> !Answers(patterns[j], name)
  {
    for k := 0 to |patterns|
      invariant forall j :: 0 <= j < k ==> !Answers(patterns[j], name)
    {
      var (loc, matchers) := patterns[k];
      if name == loc.name {
        return Some(loc);
      }
      for i := 0 to |matchers|
        invariant forall j :: 0 <= j < i ==> !matchers[j](name)
      {
        if matchers[i](name) {
          return Some(loc);
        }
      }
    }
    return None;
  }

  /** `Semester(name, is_winter, start, end, holidays)`. */
  datatype Semester = Semester(name: string, isWinter: bool, start: int, end: int, holidays: seq<(int, int)>)

  /** The position of the last semester in list order that has started by `day`. */
  function CurrentSemester(semesters: seq<Semester>, day: int): (r: Option<nat>)
    ensures r.None? <==> forall i :: 0 <= i < |semesters| ==> semesters[i].start > day
    ensures r.Some? ==> (r.value < |semesters| && semesters[r.value].start <= day &&
      forall j :: r.value < j < |semesters| ==> semesters[j].start > day)
  {
    if semesters == [] then None
    else if semesters[|semesters| - 1].start <= day then Some(|semesters| - 1)
    else CurrentSemester(semesters[..|semesters| - 1], day)
  }

  /** `any(start <= dt <= end for start, end in holidays)`. */
  predicate InHolidays(holidays: seq<(int, int)>, day: int)
  {
    exists i :: 0 <= i < |holidays| && holidays[i].0 <= day <= holidays[i].1
  }

  /** `Institution.is_holiday`. */
  function IsHoliday(semesters: seq<Semester>, day: int): Result<bool>
  {
    match CurrentSemester(semesters, day)
    case None => Err(AssertionError)
    case Some(i) => Ok(semesters[i].end < day || InHolidays(semesters[i].holidays, day))
  }

  /**
   * The test fails an assertion exactly when no semester has started by that
   * day; otherwise the day is a holiday exactly when it lies after the end
   * of the LAST semester in list order that has started, or inside one of
   * that semester's holiday ranges (both ends included).
   */
  lemma IsHolidayMeaning(semesters: seq<Semester>, day: int)
    ensures IsHoliday(semesters, day).Err? <==> forall i :: 0 <= i < |semesters| ==> semesters[i].start > day
    ensures IsHoliday(semesters, day).Err? ==> IsHoliday(semesters, day).error == AssertionError
    ensures IsHoliday(semesters, day).Ok? ==>
      exists i :: 0 <= i < |semesters| && semesters[i].start <= day &&
        (forall j :: i < j < |semesters| ==> semesters[j].start > day) &&
        (IsHoliday(semesters, day).value <==>
          semesters[i].end < day || exists h :: h in semesters[i].holidays && h.0 <= day <= h.1)
  {
    if CurrentSemester(semesters, day).Some? {
      var i := CurrentSemester(semesters, day).value;
      var hs := semesters[i].holidays;
      assert InHolidays(hs, day) <==> exists h :: h in hs && h.0 <= day <= h.1 by {
        if InHolidays(hs, day) {
          var k :| 0 <= k < |hs| && hs[k].0 <= day <= hs[k].1;
          assert hs[k] in hs;
        }
      }
    }
  }

  /** Semesters appended after the list that start after the day do not change its verdict. */
  lemma IsHolidayIgnoresLaterSemesters(semesters: seq<Semester>, later: seq<Semester>, day: int)
    requires forall j :: 0 <= j < |later| ==> later[j].start > day
    ensures IsHoliday(semesters + later, day) == IsHoliday(semesters, day)
  {
    var all := semesters + later;
    assert forall i :: 0 <= i < |semesters| ==> all[i] == semesters[i];
    assert forall j :: 0 <= j < |later| ==> all[|semesters| + j] == later[j];
    assert forall i :: |semesters| <= i < |all| ==> all[i].start > day by {
      forall i | |semesters| <= i < |all| ensures all[i].start > day {
        assert all[i] == later[i - |semesters|];
      }
    }
  }
}
