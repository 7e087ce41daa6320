/**
 * The menu of one day, as both `get_menu_of_day` (stwno_api/api.py) and
 * `get_menu_day` (mensabot/mensa.py) compute it from the week's dishes: the
 * dishes of that date, sorted by the rank of their category letter in
 * `MENU_TYPES` and then by category code, then de-duplicated by name through
 * a reversed `OrderedDict`.
 */
module DayMenu {
  import opened Common
  import opened Dishes
  import opened Dicts
  import opened Sorting
  import opened Menus

  /** `MENU_TYPES`: soups, main dishes, side dishes, desserts. */
  const MenuTypes: seq<char> := ['S', 'H', 'B', 'N']

  /** `MENU_TYPES.index(d.warengruppe[0])`: an empty category has no first letter. */
  function Rank(d: Dish): (r: Result<nat>)
    ensures d.warengruppe == "" ==> r == Err(IndexError)
    ensures r.Ok? <==> d.warengruppe != "" && d.warengruppe[0] in MenuTypes
    ensures r.Ok? ==> r.value < |MenuTypes| && MenuTypes[r.value] == d.warengruppe[0]
    ensures r.Err? && d.warengruppe != "" ==> r.error.ValueError?
  {
    if d.warengruppe == "" then Err(IndexError) else IndexOf(MenuTypes, d.warengruppe[0])
  }

  /** The rank as a number, past the end of `MENU_TYPES` for a dish that has none. */
  function RankNum(d: Dish): nat
  {
    match Rank(d)
    case Ok(i) => i
    case Err(_) => |MenuTypes|
  }

  /** The sort key `(rank, warengruppe)`, compared as Python compares tuples. */
  predicate ByRank(a: Dish, b: Dish)
  {
    RankNum(a) < RankNum(b) || (RankNum(a) == RankNum(b) && !StrLess(b.warengruppe, a.warengruppe))
  }

  lemma ByRankPreorder()
    ensures TotalPreorder(ByRank)
  {
    forall a: Dish, b: Dish ensures ByRank(a, b) || ByRank(b, a) {
      StrLessAsymmetric(a.warengruppe, b.warengruppe);
    }
    forall a: Dish, b: Dish, c: Dish | ByRank(a, b) && ByRank(b, c) ensures ByRank(a, c) {
      if RankNum(a) == RankNum(b) == RankNum(c) {
        var x, y, z := a.warengruppe, b.warengruppe, c.warengruppe;
        StrLessTotal(x, y);
        StrLessTotal(y, z);
        if StrLess(z, x) {
          if x == y {
          } else if y == z {
          } else {
            StrLessTransitive(z, x, y);
            StrLessAsymmetric(z, y);
          }
        }
      }
    }
  }

  /** The dish whose key `sorted` fails on first, as it computes the keys in list order. */
  function FirstUnranked(day: seq<Dish>): (r: Option<nat>)
    ensures r.None? <==> forall d :: d in day ==> Rank(d).Ok?
    ensures r.Some? ==> r.value < |day| && Rank(day[r.value]).Err? && forall j :: 0 <= j < r.value ==> Rank(day[j]).Ok?
  {
    if day == [] then None
    else if Rank(day[0]).Err? then Some(0)
    else
      var rest := FirstUnranked(day[1..]);
      assert forall d :: d in day <==> d == day[0] || d in day[1..];
      assert forall j :: 1 <= j < |day| ==> day[1..][j - 1] == day[j];
      if rest.None? then None else Some(rest.value + 1)
  }

  /** `sorted(day, key=lambda d: (MENU_TYPES.index(d.warengruppe[0]), d.warengruppe))`, once every key exists. */
  function SortByRank(day: seq<Dish>): (r: seq<Dish>)
    ensures SortedBy(r, ByRank)
    ensures multiset(r) == multiset(day)
    ensures forall x :: TiesOf(r, x, ByRank) == TiesOf(day, x, ByRank)
  {
    ByRankPreorder();
    forall x ensures TiesOf(Sort(day, ByRank), x, ByRank) == TiesOf(day, x, ByRank) {
      SortStable(day, x, ByRank);
    }
    Sort(day, ByRank)
  }

  /** `d` is the first dish of `s` carrying its name. */
  predicate FirstOfName(s: seq<Dish>, d: Dish)
  {
    exists j :: 0 <= j < |s| && s[j] == d && forall k :: 0 <= k < j ==> s[k].name != d.name
  }

  /** `reversed(OrderedDict((dish.name, dish) for dish in reversed(s)).values())`. */
  function DedupByName(s: seq<Dish>): seq<Dish>
  {
    Reverse(ValuesInOrder(Reverse(s), NameOf))
  }

  /** The de-duplication keeps only dishes of `s`, and every name of `s`. */
  lemma DedupByNameCovers(s: seq<Dish>)
    ensures forall d :: d in DedupByName(s) ==> d in s
    ensures forall d :: d in s ==> exists e :: e in DedupByName(s) && e.name == d.name
  {
    var rs := Reverse(s);
    var v := ValuesInOrder(rs, NameOf);
    ReverseMembers(s);
    ReverseMembers(v);
    forall d | d in s ensures exists e :: e in DedupByName(s) && e.name == d.name {
      var e := ValueOfName(rs, d);
      assert e in DedupByName(s);
    }
  }

  /** Every dish's name has a value in the dict, with that name. */
  lemma ValueOfName(rs: seq<Dish>, d: Dish) returns (e: Dish)
    requires d in rs
    ensures e in ValuesInOrder(rs, NameOf) && e.name == d.name
  {
    var ks := Dedup(KeysOf(rs, NameOf));
    var v := ValuesInOrder(rs, NameOf);
    var i :| 0 <= i < |rs| && rs[i] == d;
    assert NameOf(rs[i]) in KeysOf(rs, NameOf);
    var k :| 0 <= k < |ks| && ks[k] == d.name;
    e := v[k];
  }

  /** No two dishes the de-duplication keeps share a name. */
  lemma DedupByNameDistinct(s: seq<Dish>)
    ensures forall i, j :: 0 <= i < j < |DedupByName(s)| ==> DedupByName(s)[i].name != DedupByName(s)[j].name
  {
    var rs := Reverse(s);
    var ks := Dedup(KeysOf(rs, NameOf));
    var v := ValuesInOrder(rs, NameOf);
    assert forall i :: 0 <= i < |v| ==> v[i].name == ks[i];
    ReversedNamesDistinct(v, ks);
  }

  lemma ReversedNamesDistinct(v: seq<Dish>, ks: seq<string>)
    requires |v| == |ks| && NoDuplicates(ks)
    requires forall i :: 0 <= i < |v| ==> v[i].name == ks[i]
    ensures forall i, j :: 0 <= i < j < |Reverse(v)| ==> Reverse(v)[i].name != Reverse(v)[j].name
  {
    forall i, j | 0 <= i < j < |v| ensures Reverse(v)[i].name != Reverse(v)[j].name {
      ReverseAt(v, i);
      ReverseAt(v, j);
    }
  }

  /** The dish kept for a name is the first dish of `s` carrying it. */
  lemma DedupByNameKeepsFirst(s: seq<Dish>)
    ensures forall d :: d in DedupByName(s) ==> FirstOfName(s, d)
  {
    var v := ValuesInOrder(Reverse(s), NameOf);
    ReverseMembers(v);
    forall d | d in DedupByName(s) ensures FirstOfName(s, d) {
      var k :| 0 <= k < |v| && v[k] == d;
      KeptIsFirst(s, k);
    }
  }

  lemma KeptIsFirst(s: seq<Dish>, k: nat)
    requires k < |ValuesInOrder(Reverse(s), NameOf)|
    ensures FirstOfName(s, ValuesInOrder(Reverse(s), NameOf)[k])
  {
    var rs := Reverse(s);
    var ks := Dedup(KeysOf(rs, NameOf));
    var m := LastBy(rs, NameOf);
    var d := ValuesInOrder(rs, NameOf)[k];
    assert d == m[ks[k]] && NameOf(d) == ks[k];
    var js :| 0 <= js < |rs| && NameOf(rs[js]) == ks[k];
    var last := LastIndexOfName(rs, d.name, js);
    LastByIsLast(rs, NameOf, last);
    assert rs[last] == d;
    LastOfReversedIsFirst(s, last);
  }

  /** The last dish of `reversed(s)` with a given name is the first of `s` with it. */
  lemma LastOfReversedIsFirst(s: seq<Dish>, last: nat)
    requires last < |s|
    requires forall j :: last < j < |s| ==> NameOf(Reverse(s)[j]) != NameOf(Reverse(s)[last])
    ensures FirstOfName(s, Reverse(s)[last])
  {
    var rs := Reverse(s);
    forall i | 0 <= i < |s| ensures rs[i] == s[|s| - 1 - i] {
      ReverseAt(s, i);
    }
    LastOfMirrorIsFirst(s, rs, last);
  }

  /** The same, for any sequence `rs` that holds `s` backwards. */
  lemma LastOfMirrorIsFirst(s: seq<Dish>, rs: seq<Dish>, last: nat)
    requires |rs| == |s| && last < |s|
    requires forall i :: 0 <= i < |s| ==> rs[i] == s[|s| - 1 - i]
    requires forall j :: last < j < |s| ==> NameOf(rs[j]) != NameOf(rs[last])
    ensures FirstOfName(s, rs[last])
  {
    var j := |s| - 1 - last;
    forall k | 0 <= k < j ensures s[k].name != rs[last].name {
      var p := |s| - 1 - k;
      assert rs[p] == s[k];
      assert NameOf(rs[p]) != NameOf(rs[last]);
    }
    assert 0 <= j < |s| && s[j] == rs[last] && forall k :: 0 <= k < j ==> s[k].name != rs[last].name;
  }

  /** The last position of `s` at or after `from` whose dish has the given name. */
  function LastIndexOfName(s: seq<Dish>, name: string, from: nat): (r: nat)
    requires from < |s| && s[from].name == name
    ensures from <= r < |s| && s[r].name == name
    ensures forall j :: r < j < |s| ==> NameOf(s[j]) != NameOf(s[r])
    decreases |s| - from
  {
    if exists j :: from < j < |s| && s[j].name == name then
      var j :| from < j < |s| && s[j].name == name;
      var r := LastIndexOfName(s, name, j);
      r
    else from
  }

  /** `get_menu_of_day` on the week's dishes. */
  function MenuOfDay(week: seq<Dish>, date: int): Result<seq<Dish>>
  {
    var day := OnDate(week, date);
    match FirstUnranked(day)
    case Some(i) => Err(Rank(day[i]).error)
    case None => Ok(DedupByName(SortByRank(day)))
  }

  /**
   * The day's menu fails exactly when a dish of that date has no known
   * category letter, and then with that dish's error.
   */
  lemma MenuOfDayFails(week: seq<Dish>, date: int)
    ensures var m := MenuOfDay(week, date);
      m.Ok? <==> forall d :: d in week && d.datum == date ==> Rank(d).Ok?
    ensures var m := MenuOfDay(week, date);
      m.Err? ==> exists d :: d in week && d.datum == date && Rank(d) == Err(m.error)
  {
    var day := OnDate(week, date);
    if FirstUnranked(day).Some? {
      assert day[FirstUnranked(day).value] in day;
    }
  }

  /**
   * A successful menu of the day holds dishes of that date only, one per
   * name, every name of the date, and for each name the dish that sorts
   * first by (rank, category code).
   */
  lemma MenuOfDayContents(week: seq<Dish>, date: int)
    ensures var m := MenuOfDay(week, date);
      m.Ok? ==>
      var r := m.value;
      (forall d :: d in r ==> d in week && d.datum == date) &&
      (forall i, j :: 0 <= i < j < |r| ==> r[i].name != r[j].name) &&
      (forall d :: d in r ==> FirstOfName(SortByRank(OnDate(week, date)), d)) &&
      (forall d :: d in week && d.datum == date ==> exists e :: e in r && e.name == d.name)
  {
    var day := OnDate(week, date);
    var sorted := SortByRank(day);
    if FirstUnranked(day).None? {
      assert MenuOfDay(week, date) == Ok(DedupByName(sorted));
      assert forall d :: d in sorted <==> d in week && d.datum == date by {
        forall d ensures d in sorted <==> d in day {
          assert d in sorted <==> d in multiset(sorted);
        }
      }
      DedupContents(sorted, week, date);
    }
  }

  /** The de-duplication of the dishes of one date, in terms of that date. */
  lemma DedupContents(sorted: seq<Dish>, week: seq<Dish>, date: int)
    requires forall d :: d in sorted <==> d in week && d.datum == date
    ensures var r := DedupByName(sorted);
      (forall d :: d in r ==> d in week && d.datum == date) &&
      (forall i, j :: 0 <= i < j < |r| ==> r[i].name != r[j].name) &&
      (forall d :: d in r ==> FirstOfName(sorted, d)) &&
      (forall d :: d in week && d.datum == date ==> exists e :: e in r && e.name == d.name)
  {
    DedupByNameCovers(sorted);
    DedupByNameDistinct(sorted);
    DedupByNameKeepsFirst(sorted);
  }

  /**
   * The kept dish takes the position of its name's LAST occurrence, so the
   * result need not stay sorted: with dishes `a`, `b`, `c` in this order
   * and `a` and `c` sharing a name, `b` ends up before `a`.
   */
  lemma DedupByNameReorders(a: Dish, b: Dish, c: Dish)
    requires a.name == c.name && a.name != b.name
    ensures DedupByName([a, b, c]) == [b, a]
  {
    var rs := Reverse([a, b, c]);
    ReverseAt([a, b, c], 0);
    ReverseAt([a, b, c], 1);
    ReverseAt([a, b, c], 2);
    assert rs == [c, b, a];
    var v := ValuesInOrder(rs, NameOf);
    ValuesOfThree(c, b, a);
    assert v == [a, b];
    ReverseAt(v, 0);
    ReverseAt(v, 1);
    assert Reverse(v) == [b, a];
  }

  /** The dict built from `[c, b, a]` with `a` and `c` sharing a name: key order `a`, `b`, values `a` and `b`. */
  lemma ValuesOfThree(c: Dish, b: Dish, a: Dish)
    requires a.name == c.name && a.name != b.name
    ensures ValuesInOrder([c, b, a], NameOf) == [a, b]
  {
    var rs := [c, b, a];
    assert Dedup(KeysOf(rs, NameOf)) == [a.name, b.name] by {
      assert KeysOf(rs, NameOf) == [a.name, b.name, a.name];
      DedupOfThree(a.name, b.name);
    }
    assert a.name in LastBy(rs, NameOf) && LastBy(rs, NameOf)[a.name] == a by {
      LastByIsLast(rs, NameOf, 2);
    }
    assert b.name in LastBy(rs, NameOf) && LastBy(rs, NameOf)[b.name] == b by {
      LastByIsLast(rs, NameOf, 1);
    }
    ValuesOfTwoKeys(rs, a, b);
  }

  /** Two distinct keys, each mapped to its dish: the values in key order. */
  lemma ValuesOfTwoKeys(rs: seq<Dish>, a: Dish, b: Dish)
    requires Dedup(KeysOf(rs, NameOf)) == [a.name, b.name]
    requires a.name in LastBy(rs, NameOf) && LastBy(rs, NameOf)[a.name] == a
    requires b.name in LastBy(rs, NameOf) && LastBy(rs, NameOf)[b.name] == b
    ensures ValuesInOrder(rs, NameOf) == [a, b]
  {
    var v := ValuesInOrder(rs, NameOf);
    assert |v| == 2 && v[0] == a && v[1] == b;
  }

  /** The distinct keys of `x, y, x`. */
  lemma DedupOfThree(x: string, y: string)
    requires x != y
    ensures Dedup([x, y, x]) == [x, y]
  {
    var keys := [x, y, x];
    assert keys[..2] == [x, y] && keys[..1] == [x];
    assert Dedup(keys[..1]) == [x] by {
      assert keys[..1][..0] == [];
    }
    assert Dedup(keys[..2]) == [x, y] by {
      assert keys[..2][..1] == [x];
    }
  }
}
