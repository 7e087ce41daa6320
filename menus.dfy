/**
 * How both diff engines walk two versions of a week's menu: by the dates of
 * the OLD menu, then by the category dict of each date (one dish per
 * category code, later rows winning), then by the digit-stripped category
 * groups whose slots differ. What happens inside a group is a parameter, so
 * the same walk serves the newer engine (stwno_api/menu_parser.py) and the
 * older one (mensabot/mensa_menu.py), each with its own change record `C`.
 */
module Menus {
  import opened Common
  import opened Dishes
  import opened Dicts
  import opened Sorting

  function NameOf(d: Dish): string { d.name }

  function DatumOf(d: Dish): int { d.datum }

  function CategoryOf(d: Dish): string { d.warengruppe }

  /** The dates a menu covers. */
  function DatesOf(menu: seq<Dish>): set<int>
  {
    set d | d in menu :: d.datum
  }

  /** `{dish.datum for dish in menu}`, in order of first appearance. */
  function Dates(menu: seq<Dish>): (r: seq<int>)
    ensures NoDuplicates(r)
    ensures forall date :: date in r <==> date in DatesOf(menu)
  {
    var keys := KeysOf(menu, DatumOf);
    assert forall date :: date in keys <==> date in DatesOf(menu) by {
      forall date | date in keys ensures date in DatesOf(menu) {
        var j :| 0 <= j < |menu| && keys[j] == date;
        assert menu[j] in menu;
      }
      forall date | date in DatesOf(menu) ensures date in keys {
        var d :| d in menu && d.datum == date;
        var j :| 0 <= j < |menu| && menu[j] == d;
        assert keys[j] == date;
      }
    }
    Dedup(keys)
  }

  /** `[dish for dish in menu if dish.datum == date]`. */
  function OnDate(menu: seq<Dish>, date: int): (r: seq<Dish>)
    ensures forall d :: d in r <==> d in menu && d.datum == date
  {
    if menu == [] then []
    else
      assert forall d :: d in menu <==> d == menu[0] || d in menu[1..];
      (if menu[0].datum == date then [menu[0]] else []) + OnDate(menu[1..], date)
  }

  /** `dict.get(key, None)`. */
  function Get(m: map<string, Dish>, key: string): (r: Option<Dish>)
    ensures r.Some? <==> key in m
    ensures r.Some? ==> r.value == m[key]
  {
    if key in m then Some(m[key]) else None
  }

  /** The categories, old or new, whose slot holds different dishes (or a dish on one side only). */
  function DifferingSlots(day1: seq<Dish>, day2: seq<Dish>): (r: seq<string>)
    ensures forall wg :: wg in r <==> Get(LastBy(day1, CategoryOf), wg) != Get(LastBy(day2, CategoryOf), wg)
  {
    var m1, m2 := LastBy(day1, CategoryOf), LastBy(day2, CategoryOf);
    var keys := Dedup(KeysOf(day1, CategoryOf)) + Dedup(KeysOf(day2, CategoryOf));
    assert forall wg :: wg in m1 || wg in m2 ==> wg in keys;
    Filter(keys, wg => Get(m1, wg) != Get(m2, wg))
  }

  /** The digit-stripped categories of the differing slots. */
  function ChangedGroups(day1: seq<Dish>, day2: seq<Dish>): (r: seq<string>)
    ensures NoDuplicates(r)
    ensures forall g :: g in r <==>
      exists i :: 0 <= i < |DifferingSlots(day1, day2)| && RemoveDigits(DifferingSlots(day1, day2)[i]) == g
  {
    KeysOfMembers(DifferingSlots(day1, day2), RemoveDigits);
    Dedup(KeysOf(DifferingSlots(day1, day2), RemoveDigits))
  }

  /** `[dish for dish in map[date].values() if dish.warengruppe.startswith(group)]`. */
  function InGroup(day: seq<Dish>, group: string): (r: seq<Dish>)
    ensures forall d :: d in r ==> d in day && StartsWith(d.warengruppe, group)
    ensures forall d :: d in r <==> d in ValuesInOrder(day, CategoryOf) && StartsWith(d.warengruppe, group)
  {
    Filter(ValuesInOrder(day, CategoryOf), (d: Dish) => StartsWith(d.warengruppe, group))
  }

  /** The group's dish names, in the order the name dict first sees them. */
  function GroupNames(dishes: seq<Dish>): (r: seq<string>)
    ensures NoDuplicates(r)
    ensures forall n :: n in r ==> n in LastBy(dishes, NameOf)
    ensures forall n :: n in LastBy(dishes, NameOf) ==> n in r
  {
    var keys := KeysOf(dishes, NameOf);
    assert forall n :: n in keys ==> n in LastBy(dishes, NameOf);
    Dedup(keys)
  }

  /** The set of names of a list of dishes. */
  function NameSet(dishes: seq<Dish>): set<string>
  {
    set d | d in dishes :: d.name
  }

  lemma GroupNamesSet(dishes: seq<Dish>)
    ensures SetOf(GroupNames(dishes)) == NameSet(dishes)
  {
    forall n | n in NameSet(dishes) ensures n in SetOf(GroupNames(dishes)) {
      var d :| d in dishes && d.name == n;
      var i :| 0 <= i < |dishes| && dishes[i] == d;
      assert NameOf(dishes[i]) in LastBy(dishes, NameOf);
    }
  }

  /** Category order: `a` sorts no later than `b` when its code is not greater. */
  predicate ByCategory(a: Dish, b: Dish)
  {
    !StrLess(b.warengruppe, a.warengruppe)
  }

  lemma ByCategoryPreorder()
    ensures TotalPreorder(ByCategory)
  {
    forall a: Dish, b: Dish ensures ByCategory(a, b) || ByCategory(b, a) {
      StrLessAsymmetric(a.warengruppe, b.warengruppe);
    }
    forall a: Dish, b: Dish, c: Dish | ByCategory(a, b) && ByCategory(b, c) ensures ByCategory(a, c) {
      StrLessTotal(a.warengruppe, b.warengruppe);
      StrLessTotal(b.warengruppe, c.warengruppe);
      if StrLess(c.warengruppe, a.warengruppe) {
        if a.warengruppe == b.warengruppe {
        } else if b.warengruppe == c.warengruppe {
        } else {
          StrLessTransitive(c.warengruppe, a.warengruppe, b.warengruppe);
          StrLessAsymmetric(c.warengruppe, b.warengruppe);
        }
      }
    }
  }

  /** `dishes.sort(key=lambda x: x.warengruppe)`: stable, ordered by category code. */
  function SortByCategory(dishes: seq<Dish>): (r: seq<Dish>)
    ensures SortedBy(r, ByCategory)
    ensures multiset(r) == multiset(dishes)
    ensures forall x :: TiesOf(r, x, ByCategory) == TiesOf(dishes, x, ByCategory)
  {
    ByCategoryPreorder();
    forall x ensures TiesOf(Sort(dishes, ByCategory), x, ByCategory) == TiesOf(dishes, x, ByCategory) {
      SortStable(dishes, x, ByCategory);
    }
    Sort(dishes, ByCategory)
  }

  /** A group diff, called on the old and new dishes of one group. */
  type GroupDiff<C> = (seq<Dish>, seq<Dish>) -> Result<seq<C>>

  /** `acc` followed by `r`'s records, or `r`'s failure. */
  function Then<C>(acc: seq<C>, r: Result<seq<C>>): (s: Result<seq<C>>)
    ensures s.Err? <==> r.Err?
    ensures s.Err? ==> s.error == r.error
    ensures s.Ok? ==> s.value == acc + r.value
  {
    if r.Err? then r else Ok(acc + r.value)
  }

  lemma ThenNil<C>(r: Result<seq<C>>)
    ensures Then([], r) == r
  {
    if r.Ok? {
      assert [] + r.value == r.value;
    }
  }

  lemma ThenAssoc<C>(a: seq<C>, b: seq<C>, r: Result<seq<C>>)
    ensures Then(a, Then(b, r)) == Then(a + b, r)
  {
    if r.Ok? {
      assert a + (b + r.value) == (a + b) + r.value;
    }
  }

  /** The groups of one date in turn; the first failure ends the walk. */
  function GroupsDiff<C>(groups: seq<string>, day1: seq<Dish>, day2: seq<Dish>, group: GroupDiff<C>): Result<seq<C>>
  {
    if groups == [] then Ok([])
    else
      match group(InGroup(day1, groups[0]), InGroup(day2, groups[0]))
      case Err(e) => Err(e)
      case Ok(cs) => Then(cs, GroupsDiff(groups[1..], day1, day2, group))
  }

  /** One date: nothing when the two category dicts are equal, else the changed groups. */
  function DayDiff<C>(day1: seq<Dish>, day2: seq<Dish>, group: GroupDiff<C>): Result<seq<C>>
  {
    if LastBy(day1, CategoryOf) == LastBy(day2, CategoryOf) then Ok([])
    else GroupsDiff(ChangedGroups(day1, day2), day1, day2, group)
  }

  /** The dates in turn. */
  function DatesDiff<C>(dates: seq<int>, menu1: seq<Dish>, menu2: seq<Dish>, group: GroupDiff<C>): Result<seq<C>>
  {
    if dates == [] then Ok([])
    else
      match DayDiff(OnDate(menu1, dates[0]), OnDate(menu2, dates[0]), group)
      case Err(e) => Err(e)
      case Ok(cs) => Then(cs, DatesDiff(dates[1..], menu1, menu2, group))
  }

  /** One step of a loop over the changed groups: the walk from `j` is group `j`'s records, then the walk from `j + 1`. */
  lemma GroupsDiffStep<C>(groups: seq<string>, j: int, day1: seq<Dish>, day2: seq<Dish>, group: GroupDiff<C>, acc: seq<C>)
    requires 0 <= j < |groups|
    ensures var cs := group(InGroup(day1, groups[j]), InGroup(day2, groups[j]));
      Then(acc, GroupsDiff(groups[j..], day1, day2, group)) ==
      if cs.Err? then Err(cs.error) else Then(acc + cs.value, GroupsDiff(groups[j + 1..], day1, day2, group))
  {
    assert groups[j..][0] == groups[j] && groups[j..][1..] == groups[j + 1..];
    var cs := group(InGroup(day1, groups[j]), InGroup(day2, groups[j]));
    if cs.Ok? {
      ThenAssoc(acc, cs.value, GroupsDiff(groups[j + 1..], day1, day2, group));
    }
  }

  /** One step of a loop over the dates: the walk from `i` is date `i`'s records, then the walk from `i + 1`. */
  lemma DatesDiffStep<C>(dates: seq<int>, i: int, menu1: seq<Dish>, menu2: seq<Dish>, group: GroupDiff<C>, acc: seq<C>)
    requires 0 <= i < |dates|
    ensures var cs := DayDiff(OnDate(menu1, dates[i]), OnDate(menu2, dates[i]), group);
      Then(acc, DatesDiff(dates[i..], menu1, menu2, group)) ==
      if cs.Err? then Err(cs.error) else Then(acc + cs.value, DatesDiff(dates[i + 1..], menu1, menu2, group))
  {
    assert dates[i..][0] == dates[i] && dates[i..][1..] == dates[i + 1..];
    var cs := DayDiff(OnDate(menu1, dates[i]), OnDate(menu2, dates[i]), group);
    if cs.Ok? {
      ThenAssoc(acc, cs.value, DatesDiff(dates[i + 1..], menu1, menu2, group));
    }
  }

  /** The whole walk: nothing for equal menus, otherwise every date of the old menu. */
  function WeekDiff<C>(menu1: seq<Dish>, menu2: seq<Dish>, group: GroupDiff<C>): Result<seq<C>>
  {
    if menu1 == menu2 then Ok([]) else DatesDiff(Dates(menu1), menu1, menu2, group)
  }

  // ---------------------------------------------------------------------------
  // Properties of the walk

  /** The old and the new dish a record is about. */
  type Sides = (Option<Dish>, Option<Dish>)

  /** A record about at least one dish, with its old dish from `a` and its new dish from `b`. */
  predicate DrawnFrom(s: Sides, a: seq<Dish>, b: seq<Dish>)
  {
    (s.0.Some? || s.1.Some?) && (s.0.Some? ==> s.0.value in a) && (s.1.Some? ==> s.1.value in b)
  }

  /** The date of a record: that of its new dish if it has one, else that of its old dish. */
  function SideDate(s: Sides): int
  {
    if s.1.Some? then s.1.value.datum else if s.0.Some? then s.0.value.datum else 0
  }

  /** Both dishes of a record, where present, are of the same date. */
  predicate OneDay(s: Sides)
  {
    (s.0.Some? ==> s.0.value.datum == SideDate(s)) && (s.1.Some? ==> s.1.value.datum == SideDate(s))
  }

  /**
   * A group diff whose records all satisfy `ok` and are about dishes of the
   * two groups it is given.
   */
  ghost predicate GroupSound<C(!new)>(group: GroupDiff<C>, sides: C -> Sides, ok: C -> bool)
  {
    forall a, b, c :: group(a, b).Ok? && c in group(a, b).value ==> ok(c) && DrawnFrom(sides(c), a, b)
  }

  lemma {:induction false} GroupsDiffSound<C(!new)>(groups: seq<string>, day1: seq<Dish>, day2: seq<Dish>,
                                                       group: GroupDiff<C>, sides: C -> Sides, ok: C -> bool)
    requires GroupSound(group, sides, ok)
    ensures GroupsDiff(groups, day1, day2, group).Ok? ==>
      forall c :: c in GroupsDiff(groups, day1, day2, group).value ==> ok(c) && DrawnFrom(sides(c), day1, day2)
  {
    if groups != [] {
      var a, b := InGroup(day1, groups[0]), InGroup(day2, groups[0]);
      var r := group(a, b);
      if r.Ok? {
        GroupsDiffSound(groups[1..], day1, day2, group, sides, ok);
        var rest := GroupsDiff(groups[1..], day1, day2, group);
        if rest.Ok? {
          forall c | c in r.value + rest.value
            ensures ok(c) && DrawnFrom(sides(c), day1, day2)
          {
            if c in r.value {
              assert ok(c) && DrawnFrom(sides(c), a, b);
            }
          }
        }
      }
    }
  }

  lemma DayDiffSound<C(!new)>(menu1: seq<Dish>, menu2: seq<Dish>, date: int,
                                 group: GroupDiff<C>, sides: C -> Sides, ok: C -> bool)
    requires GroupSound(group, sides, ok)
    ensures DayDiff(OnDate(menu1, date), OnDate(menu2, date), group).Ok? ==>
      forall c :: c in DayDiff(OnDate(menu1, date), OnDate(menu2, date), group).value ==>
        ok(c) && DrawnFrom(sides(c), menu1, menu2) && SideDate(sides(c)) == date && OneDay(sides(c))
  {
    var day1, day2 := OnDate(menu1, date), OnDate(menu2, date);
    var r := DayDiff(day1, day2, group);
    if r.Ok? {
      GroupsDiffSound(ChangedGroups(day1, day2), day1, day2, group, sides, ok);
      forall c | c in r.value
        ensures ok(c) && DrawnFrom(sides(c), menu1, menu2) && SideDate(sides(c)) == date && OneDay(sides(c))
      {
        OnDateSides(sides(c), menu1, menu2, date);
      }
    }
  }

  /** A record about dishes of one date of the two menus. */
  lemma OnDateSides(s: Sides, menu1: seq<Dish>, menu2: seq<Dish>, date: int)
    requires DrawnFrom(s, OnDate(menu1, date), OnDate(menu2, date))
    ensures DrawnFrom(s, menu1, menu2) && SideDate(s) == date && OneDay(s)
  {
  }

  lemma {:induction false} DatesDiffSound<C(!new)>(dates: seq<int>, menu1: seq<Dish>, menu2: seq<Dish>,
                                                      group: GroupDiff<C>, sides: C -> Sides, ok: C -> bool)
    requires GroupSound(group, sides, ok)
    ensures DatesDiff(dates, menu1, menu2, group).Ok? ==>
      forall c :: c in DatesDiff(dates, menu1, menu2, group).value ==>
        ok(c) && DrawnFrom(sides(c), menu1, menu2) && SideDate(sides(c)) in dates && OneDay(sides(c))
  {
    if dates != [] {
      DayDiffSound(menu1, menu2, dates[0], group, sides, ok);
      DatesDiffSound(dates[1..], menu1, menu2, group, sides, ok);
    }
  }

  /**
   * Every record of the walk satisfies what the group diff promises, takes
   * its old dish from the old menu and its new dish from the new one, and is
   * about a single date of the OLD menu.
   */
  lemma WeekChanges<C(!new)>(menu1: seq<Dish>, menu2: seq<Dish>, group: GroupDiff<C>, sides: C -> Sides, ok: C -> bool)
    requires GroupSound(group, sides, ok)
    ensures WeekDiff(menu1, menu2, group).Ok? ==>
      forall c :: c in WeekDiff(menu1, menu2, group).value ==>
        ok(c) && DrawnFrom(sides(c), menu1, menu2) && SideDate(sides(c)) in DatesOf(menu1) && OneDay(sides(c))
  {
    DatesDiffSound(Dates(menu1), menu1, menu2, group, sides, ok);
  }

  lemma {:induction false} DatesDiffQuiet<C>(dates: seq<int>, menu1: seq<Dish>, menu2: seq<Dish>, group: GroupDiff<C>)
    requires forall i :: 0 <= i < |dates| ==>
      LastBy(OnDate(menu1, dates[i]), CategoryOf) == LastBy(OnDate(menu2, dates[i]), CategoryOf)
    ensures DatesDiff(dates, menu1, menu2, group) == Ok([])
  {
    if dates != [] {
      DatesDiffQuiet(dates[1..], menu1, menu2, group);
      assert DayDiff(OnDate(menu1, dates[0]), OnDate(menu2, dates[0]), group) == Ok([]);
      var e: seq<C> := [];
      assert e + e == e;
    }
  }

  /**
   * Menus that give every old date the same category dict produce no
   * record, whatever the group diff; in particular equal menus produce none.
   */
  lemma WeekQuietWhenDaysAgree<C>(menu1: seq<Dish>, menu2: seq<Dish>, group: GroupDiff<C>)
    requires forall date :: date in DatesOf(menu1) ==>
      LastBy(OnDate(menu1, date), CategoryOf) == LastBy(OnDate(menu2, date), CategoryOf)
    ensures WeekDiff(menu1, menu2, group) == Ok([])
  {
    DatesDiffQuiet(Dates(menu1), menu1, menu2, group);
  }

  lemma {:induction false} OnDateSnoc(menu: seq<Dish>, d: Dish, date: int)
    requires d.datum != date
    ensures OnDate(menu + [d], date) == OnDate(menu, date)
  {
    if menu != [] {
      assert (menu + [d])[1..] == menu[1..] + [d];
      OnDateSnoc(menu[1..], d, date);
    }
  }

  lemma {:induction false} DatesDiffSnoc<C>(dates: seq<int>, menu1: seq<Dish>, menu2: seq<Dish>, d: Dish, group: GroupDiff<C>)
    requires d.datum !in dates
    ensures DatesDiff(dates, menu1, menu2 + [d], group) == DatesDiff(dates, menu1, menu2, group)
  {
    if dates != [] {
      OnDateSnoc(menu2, d, dates[0]);
      DatesDiffSnoc(dates[1..], menu1, menu2, d, group);
    }
  }

  /**
   * Only the old menu's dates are examined: a new dish on a date the old
   * menu does not cover changes nothing in the walk over two different menus.
   */
  lemma WeekIgnoresNewDates<C>(menu1: seq<Dish>, menu2: seq<Dish>, d: Dish, group: GroupDiff<C>)
    requires d.datum !in DatesOf(menu1)
    requires menu1 != menu2
    ensures WeekDiff(menu1, menu2 + [d], group) == WeekDiff(menu1, menu2, group)
  {
    DatesDiffSnoc(Dates(menu1), menu1, menu2, d, group);
  }

  /** A group diff that never fails. */
  ghost predicate GroupTotal<C>(group: GroupDiff<C>)
  {
    forall a, b :: group(a, b).Ok?
  }

  lemma {:induction false} GroupsDiffTotal<C>(groups: seq<string>, day1: seq<Dish>, day2: seq<Dish>, group: GroupDiff<C>)
    requires GroupTotal(group)
    ensures GroupsDiff(groups, day1, day2, group).Ok?
  {
    if groups != [] {
      GroupsDiffTotal(groups[1..], day1, day2, group);
      assert group(InGroup(day1, groups[0]), InGroup(day2, groups[0])).Ok?;
    }
  }

  lemma {:induction false} DatesDiffTotal<C>(dates: seq<int>, menu1: seq<Dish>, menu2: seq<Dish>, group: GroupDiff<C>)
    requires GroupTotal(group)
    ensures DatesDiff(dates, menu1, menu2, group).Ok?
  {
    if dates != [] {
      var day1, day2 := OnDate(menu1, dates[0]), OnDate(menu2, dates[0]);
      GroupsDiffTotal(ChangedGroups(day1, day2), day1, day2, group);
      DatesDiffTotal(dates[1..], menu1, menu2, group);
    }
  }

  /** With a group diff that never fails, the walk never fails. */
  lemma WeekTotal<C>(menu1: seq<Dish>, menu2: seq<Dish>, group: GroupDiff<C>)
    requires GroupTotal(group)
    ensures WeekDiff(menu1, menu2, group).Ok?
  {
    DatesDiffTotal(Dates(menu1), menu1, menu2, group);
  }

  /** One call `listener(week, old, new)` of a change listener, the listener named by its position. */
  datatype ListenerCall = ListenerCall(listener: nat, week: int, before: seq<Dish>, after: seq<Dish>)

  /** `for l in change_listeners: l(week, old, new)`: one call per listener, in order. */
  function CallsFor(listeners: seq<nat>, week: int, before: seq<Dish>, after: seq<Dish>): (r: seq<ListenerCall>)
    ensures |r| == |listeners|
    ensures forall i :: 0 <= i < |r| ==> r[i] == ListenerCall(listeners[i], week, before, after)
  {
    if listeners == [] then [] else [ListenerCall(listeners[0], week, before, after)] + CallsFor(listeners[1..], week, before, after)
  }
}
