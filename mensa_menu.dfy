/**
 * The older diff engine of the bot (mensabot/mensa_menu.py): its own
 * `parse_dish`, a `Change` record with a MOVE kind that the constructor may
 * rewrite to ATTR, and a group comparison that pairs dishes by name, then by
 * a unique close match, and finally pairs left-over removals with additions
 * first in, first out.
 */
module MensaMenu {
  import opened Common
  import opened Dishes
  import opened NameScanner
  import opened Dicts
  import opened Menus
  import opened Sorting

  // ---------------------------------------------------------------------------
  // parse_dish

  /** The scanned name fragments joined by single spaces; an aborted scan returns `"??"`, joined as `"? ?"`. */
  function JoinedName(row: Row, search: string -> Option<KennzMatch>): (r: string)
    requires KennzSearchSound(search)
    ensures ScanName(row.name, search).Aborted? ==> r == "? ?"
  {
    match ScanName(row.name, search)
    case Aborted => SpaceJoinChars("??")
    case Parsed(names, _, _) => Join(names, " ")
  }

  /**
   * `parse_dish`: the name is scanned as it is (no collapsing of bracket
   * runs), the tags found are added to the column's tags without dropping
   * empty ones, and only then is a Salatmix name cut, keeping its tags.
   */
  function ParseDish(row: Row, search: string -> Option<KennzMatch>): (d: Dish)
    requires KennzSearchSound(search)
    ensures d.datum == row.datum && d.warengruppe == row.warengruppe
    ensures d.stud == row.stud && d.bed == row.bed && d.gast == row.gast
    ensures ColumnTags(row.kennz) <= d.kennz
    ensures !Alternates(Brackets(row.name), false) ==>
      d.name == "? ?" && d.zusatz == multiset{"??"} && d.kennz == ColumnTags(row.kennz) + multiset{"??"}
    ensures ScanName(row.name, search).Parsed? ==>
      d.zusatz == multiset(ScanName(row.name, search).zusatz) &&
      d.kennz == ColumnTags(row.kennz) + multiset(ScanName(row.name, search).kennz)
    ensures StartsWith(JoinedName(row, search), "Salatmix") ==>
      StartsWith(d.name, "Salatmix") && StartsWith(JoinedName(row, search), d.name)
    ensures !StartsWith(JoinedName(row, search), "Salatmix") ==> d.name == JoinedName(row, search)
  {
    ScanAbortsIff(row.name, search);
    var joined := JoinedName(row, search);
    var name := if StartsWith(joined, "Salatmix") then SalatmixName(joined) else joined;
    var column := ColumnTags(row.kennz);
    match ScanName(row.name, search)
    case Aborted =>
      Dish(row.datum, name, row.warengruppe, column + multiset{"??"}, multiset{"??"}, row.stud, row.bed, row.gast)
    case Parsed(_, zusatz, kennz) =>
      Dish(row.datum, name, row.warengruppe, column + multiset(kennz), multiset(zusatz), row.stud, row.bed, row.gast)
  }

  /** `parse_dish` as the code runs it: the row's fields rewritten one by one. */
  method ParseRow(row: Row, search: string -> Option<KennzMatch>) returns (d: Dish)
    requires KennzSearchSound(search)
    ensures d == ParseDish(row, search)
  {
    var zusatz: multiset<string> := multiset{};
    var kennz := ColumnTags(row.kennz);
    var parsed := ParseName(row.name, search);
    var name;
    if parsed.Aborted? {
      name := SpaceJoinChars("??");
      zusatz := zusatz + multiset{"??"};
      kennz := kennz + multiset{"??"};
    } else {
      name := Join(parsed.names, " ");
      zusatz := zusatz + multiset(parsed.zusatz);
      kennz := kennz + multiset(parsed.kennz);
    }
    if StartsWith(name, "Salatmix") {
      name := SalatmixName(name);
    }
    d := Dish(row.datum, name, row.warengruppe, kennz, zusatz, row.stud, row.bed, row.gast);
  }

  /** A name whose brackets alternate yields tags that are stripped, comma-free pieces. */
  lemma ParseDishTags(row: Row, search: string -> Option<KennzMatch>)
    requires KennzSearchSound(search)
    requires Alternates(Brackets(row.name), false)
    ensures forall t :: t in ParseDish(row, search).zusatz ==> IsTag(t)
    ensures forall t :: t in ParseDish(row, search).kennz ==> t in ColumnTags(row.kennz) || IsTag(t)
  {
    ScanAbortsIff(row.name, search);
    ScanShapes(row.name, search);
    var p := ScanName(row.name, search);
    forall t | t in multiset(p.zusatz) ensures IsTag(t) {
      assert t in p.zusatz;
      var i :| 0 <= i < |p.zusatz| && p.zusatz[i] == t;
    }
    forall t | t in multiset(p.kennz) ensures IsTag(t) {
      assert t in p.kennz;
      var i :| 0 <= i < |p.kennz| && p.kennz[i] == t;
    }
  }

  /**
   * A bracket-free name without a tag suffix is only stripped, and its tags
   * are exactly the pieces of the `kennz` column, empty pieces included.
   */
  lemma ParseDishPlain(row: Row, search: string -> Option<KennzMatch>)
    requires KennzSearchSound(search)
    requires BracketFree(row.name) && search(Strip(row.name)).None?
    requires !StartsWith(Strip(row.name), "Salatmix")
    ensures ParseDish(row, search).name == Strip(row.name)
    ensures ParseDish(row, search).zusatz == multiset{}
    ensures ParseDish(row, search).kennz == ColumnTags(row.kennz)
  {
    PlainScan(row.name, search);
    assert JoinedName(row, search) == Strip(row.name);
  }

  /** A bracket-free name without a tag suffix scans to its stripped self and no tags. */
  lemma PlainScan(s: string, search: string -> Option<KennzMatch>)
    requires KennzSearchSound(search)
    requires BracketFree(s) && search(Strip(s)).None?
    ensures var p := ScanName(s, search);
      p.Parsed? && Join(p.names, " ") == Strip(s) && p.zusatz == [] && p.kennz == []
  {
    ScanWithoutBrackets(s, search);
    if s == [] {
      assert Strip(s) == [];
    } else {
      assert AppendName(Start, s, search).names == [Strip(s)];
    }
  }

  // ---------------------------------------------------------------------------
  // Change

  datatype Kind = Attr | Move | Rename | Replace | Remove | Add

  /** The record; its `diff` is `Diff(from, to)`, and `==` compares kind and both sides. */
  datatype Change = Change(kind: Kind, from: Option<Dish>, to: Option<Dish>)

  /**
   * The constructor: the sides must differ; a MOVE between dishes of the
   * same name and category becomes ATTR (and asserts a non-empty diff), and
   * any other MOVE asserts that the category changed.
   */
  function NewChange(kind: Kind, from: Option<Dish>, to: Option<Dish>): (r: Result<Change>)
    requires kind == Move ==> from.Some? && to.Some?
    ensures r.Ok? <==> (from != to &&
      (kind == Move && from.value.warengruppe == to.value.warengruppe ==> from.value.name == to.value.name))
    ensures r.Err? ==> r.error == AssertionError
    ensures r.Ok? ==> r.value.from == from && r.value.to == to
    ensures r.Ok? ==> (r.value.kind == Attr <==>
      kind == Attr || (kind == Move && from.value.name == to.value.name && from.value.warengruppe == to.value.warengruppe))
    ensures r.Ok? && r.value.kind != Attr ==> r.value.kind == kind
    ensures r.Ok? && r.value.kind == Attr && kind == Move ==> Diff(from, to) != map[]
  {
    if from == to then Err(AssertionError)
    else if kind == Move then
      DiffEmptyIffEqual(from.value, to.value);
      if from.value.name == to.value.name && from.value.warengruppe == to.value.warengruppe then
        if Diff(from, to) != map[] then Ok(Change(Attr, from, to)) else Err(AssertionError)
      else if from.value.warengruppe != to.value.warengruppe then Ok(Change(Move, from, to))
      else Err(AssertionError)
    else Ok(Change(kind, from, to))
  }

  /**
   * What every record of the comparison satisfies: two different sides,
   * REMOVE and ADD exactly for the one-sided records, ATTR and MOVE between
   * dishes of one name (ATTR within a category, MOVE across categories),
   * RENAME and REPLACE between dishes of different names.
   */
  predicate Kinded(c: Change)
  {
    c.from != c.to &&
    (c.kind == Remove <==> c.to.None?) &&
    (c.kind == Add <==> c.from.None?) &&
    (c.kind == Attr ==> c.from.value.name == c.to.value.name && c.from.value.warengruppe == c.to.value.warengruppe) &&
    (c.kind == Move ==> c.from.value.name == c.to.value.name && c.from.value.warengruppe != c.to.value.warengruppe) &&
    (c.kind == Rename || c.kind == Replace ==> c.from.value.name != c.to.value.name)
  }

  function SidesOf(c: Change): Sides
  {
    (c.from, c.to)
  }

  // ---------------------------------------------------------------------------
  // __compare_changed_wg

  /** `difflib.get_close_matches(word, possibilities)`, a parameter of the model. */
  type CloseMatches = (string, seq<string>) -> seq<string>

  /** Close matches are taken from the possibilities. */
  ghost predicate CloseSound(close: CloseMatches)
  {
    forall w, ps, m :: m in close(w, ps) ==> m in ps
  }

  /** The two lists the comparison appends to. */
  datatype Pass = Pass(diff: seq<Change>, removed: seq<Change>)

  /** `diff.append(...)` of a constructed record, or the constructor's failure. */
  function Record(st: Pass, c: Result<Change>): Result<Pass>
  {
    if c.Err? then Err(c.error) else Ok(st.(diff := st.diff + [c.value]))
  }

  /**
   * The first loop, for one old dish: nothing if the same-named new dish is
   * equal, a MOVE if it differs; without a same-named dish a RENAME to the
   * unique close match, or else a pending REMOVE.
   */
  function OldStep(st: Pass, d: Dish, names2: map<string, Dish>, keys2: seq<string>, close: CloseMatches): Result<Pass>
  {
    if d.name in names2 then
      if d == names2[d.name] then Ok(st)
      else Record(st, NewChange(Move, Some(d), Some(names2[d.name])))
    else
      var matches := close(d.name, keys2);
      if |matches| == 1 then
        if matches[0] in names2 then Record(st, NewChange(Rename, Some(d), Some(names2[matches[0]])))
        else Err(KeyError(matches[0]))
      else
        match NewChange(Remove, Some(d), None)
        case Err(e) => Err(e)
        case Ok(c) => Ok(st.(removed := st.removed + [c]))
  }

  function OldLoop(st: Pass, s: seq<Dish>, names2: map<string, Dish>, keys2: seq<string>, close: CloseMatches): Result<Pass>
    decreases s
  {
    if s == [] then Ok(st)
    else
      match OldStep(st, s[0], names2, keys2, close)
      case Err(e) => Err(e)
      case Ok(next) => OldLoop(next, s[1..], names2, keys2, close)
  }

  /**
   * The second loop, for one new dish: nothing if the same-named old dish is
   * equal, else the assertion that the first loop recorded that MOVE; without
   * a same-named dish nothing for a unique close match (only a warning), else
   * a REPLACE of the oldest pending REMOVE, or an ADD.
   */
  function NewStep(st: Pass, d: Dish, names1: map<string, Dish>, keys1: seq<string>, close: CloseMatches): Result<Pass>
  {
    if d.name in names1 then
      if d == names1[d.name] then Ok(st)
      else
        match NewChange(Move, Some(names1[d.name]), Some(d))
        case Err(e) => Err(e)
        case Ok(c) => if c in st.diff then Ok(st) else Err(AssertionError)
    else
      var matches := close(d.name, keys1);
      if |matches| == 1 then
        if matches[0] !in names1 then Err(KeyError(matches[0]))
        else
          match NewChange(Rename, Some(names1[matches[0]]), Some(d))
          case Err(e) => Err(e)
          case Ok(_) => Ok(st)
      else if st.removed != [] then
        match NewChange(Replace, st.removed[0].from, Some(d))
        case Err(e) => Err(e)
        case Ok(c) => Ok(Pass(st.diff + [c], st.removed[1..]))
      else Record(st, NewChange(Add, None, Some(d)))
  }

  function NewLoop(st: Pass, s: seq<Dish>, names1: map<string, Dish>, keys1: seq<string>, close: CloseMatches): Result<Pass>
    decreases s
  {
    if s == [] then Ok(st)
    else
      match NewStep(st, s[0], names1, keys1, close)
      case Err(e) => Err(e)
      case Ok(next) => NewLoop(next, s[1..], names1, keys1, close)
  }

  /** `__compare_changed_wg` as a function of its inputs: both loops, then `diff + removed`. */
  function CompareGroup(wg1: seq<Dish>, wg2: seq<Dish>, close: CloseMatches): Result<seq<Change>>
  {
    var names1, names2 := LastBy(wg1, NameOf), LastBy(wg2, NameOf);
    match OldLoop(Pass([], []), wg1, names2, GroupNames(wg2), close)
    case Err(e) => Err(e)
    case Ok(p) =>
      match NewLoop(p, wg2, names1, GroupNames(wg1), close)
      case Err(e) => Err(e)
      case Ok(q) => Ok(q.diff + q.removed)
  }

  /** `__compare_changed_wg`: two passes appending to `diff` and `removed`, then `diff + removed`. */
  method CompareChangedGroup(wg1: seq<Dish>, wg2: seq<Dish>, close: CloseMatches) returns (r: Result<seq<Change>>)
    ensures r == CompareGroup(wg1, wg2, close)
  {
    var names1, names2 := LastBy(wg1, NameOf), LastBy(wg2, NameOf);
    var keys1, keys2 := GroupNames(wg1), GroupNames(wg2);
    var first := ComparePass1(wg1, names2, keys2, close);
    if first.Err? {
      return Err(first.error);
    }
    var second := ComparePass2(first.value, wg2, names1, keys1, close);
    if second.Err? {
      return Err(second.error);
    }
    r := Ok(second.value.diff + second.value.removed);
  }

  /** The first loop of `__compare_changed_wg`, over the old dishes. */
  method ComparePass1(wg1: seq<Dish>, names2: map<string, Dish>, keys2: seq<string>, close: CloseMatches)
    returns (r: Result<Pass>)
    ensures r == OldLoop(Pass([], []), wg1, names2, keys2, close)
  {
    var diff: seq<Change>, removed: seq<Change> := [], [];
    for i := 0 to |wg1|
      invariant OldLoop(Pass([], []), wg1, names2, keys2, close) == OldLoop(Pass(diff, removed), wg1[i..], names2, keys2, close)
    {
      var dish := wg1[i];
      assert wg1[i..][1..] == wg1[i + 1..];
      if dish.name in names2 {
        if dish == names2[dish.name] {
          continue;
        }
        var c := NewChange(Move, Some(dish), Some(names2[dish.name]));
        if c.Err? {
          return Err(c.error);
        }
        diff := diff + [c.value];
      } else {
        var matches := close(dish.name, keys2);
        if |matches| == 1 {
          if matches[0] !in names2 {
            return Err(KeyError(matches[0]));
          }
          var c := NewChange(Rename, Some(dish), Some(names2[matches[0]]));
          if c.Err? {
            return Err(c.error);
          }
          diff := diff + [c.value];
        } else {
          // a one-sided record: the constructor's assertion holds
          var c := NewChange(Remove, Some(dish), None);
          removed := removed + [c.value];
        }
      }
    }
    r := Ok(Pass(diff, removed));
  }

  /** The second loop of `__compare_changed_wg`, over the new dishes. */
  method ComparePass2(st: Pass, wg2: seq<Dish>, names1: map<string, Dish>, keys1: seq<string>, close: CloseMatches)
    returns (r: Result<Pass>)
    ensures r == NewLoop(st, wg2, names1, keys1, close)
  {
    var diff, removed := st.diff, st.removed;
    for i := 0 to |wg2|
      invariant NewLoop(st, wg2, names1, keys1, close) == NewLoop(Pass(diff, removed), wg2[i..], names1, keys1, close)
    {
      var dish := wg2[i];
      assert wg2[i..][1..] == wg2[i + 1..];
      if dish.name in names1 {
        if dish == names1[dish.name] {
          continue;
        }
        var c := NewChange(Move, Some(names1[dish.name]), Some(dish));
        if c.Err? {
          return Err(c.error);
        }
        if c.value !in diff {
          return Err(AssertionError);
        }
      } else {
        var matches := close(dish.name, keys1);
        if |matches| == 1 {
          if matches[0] !in names1 {
            return Err(KeyError(matches[0]));
          }
          var c := NewChange(Rename, Some(names1[matches[0]]), Some(dish));
          if c.Err? {
            return Err(c.error);
          }
        } else if removed != [] {
          var c := NewChange(Replace, removed[0].from, Some(dish));
          if c.Err? {
            return Err(c.error);
          }
          removed := removed[1..];
          diff := diff + [c.value];
        } else {
          var c := NewChange(Add, None, Some(dish));
          if c.Err? {
            return Err(c.error);
          }
          diff := diff + [c.value];
        }
      }
    }
    r := Ok(Pass(diff, removed));
  }

  // ---------------------------------------------------------------------------
  // What the comparison yields

  /**
   * The comparison's lists so far: every record is kinded and drawn from the
   * two groups, and every pending record is a REMOVE of an old dish whose
   * name the new group lacks.
   */
  ghost predicate PassSound(st: Pass, wg1: seq<Dish>, wg2: seq<Dish>, names2: map<string, Dish>)
  {
    (forall c :: c in st.diff ==> Kinded(c) && DrawnFrom(SidesOf(c), wg1, wg2) && c.kind != Remove) &&
    (forall c :: c in st.removed ==>
      Kinded(c) && DrawnFrom(SidesOf(c), wg1, wg2) && c.kind == Remove && c.from.Some? && c.from.value.name !in names2)
  }

  lemma RecordSound(st: Pass, c: Change, wg1: seq<Dish>, wg2: seq<Dish>, names2: map<string, Dish>)
    requires PassSound(st, wg1, wg2, names2)
    requires Kinded(c) && DrawnFrom(SidesOf(c), wg1, wg2) && c.kind != Remove
    ensures PassSound(st.(diff := st.diff + [c]), wg1, wg2, names2)
  {
    assert forall x :: x in st.diff + [c] ==> x in st.diff || x == c;
  }

  lemma OldStepSound(st: Pass, d: Dish, wg1: seq<Dish>, wg2: seq<Dish>,
                     names2: map<string, Dish>, keys2: seq<string>, close: CloseMatches)
    requires names2 == LastBy(wg2, NameOf)
    requires d in wg1
    requires PassSound(st, wg1, wg2, names2)
    ensures OldStep(st, d, names2, keys2, close).Ok? ==> PassSound(OldStep(st, d, names2, keys2, close).value, wg1, wg2, names2)
  {
    if d.name in names2 {
      OldStepSoundKnown(st, d, wg1, wg2, names2, keys2, close);
    } else {
      OldStepSoundUnknown(st, d, wg1, wg2, names2, keys2, close);
    }
  }

  /** The first loop's step for an old dish whose name the new group has: at most a MOVE. */
  lemma OldStepSoundKnown(st: Pass, d: Dish, wg1: seq<Dish>, wg2: seq<Dish>,
                          names2: map<string, Dish>, keys2: seq<string>, close: CloseMatches)
    requires names2 == LastBy(wg2, NameOf)
    requires d in wg1 && d.name in names2
    requires PassSound(st, wg1, wg2, names2)
    ensures OldStep(st, d, names2, keys2, close).Ok? ==> PassSound(OldStep(st, d, names2, keys2, close).value, wg1, wg2, names2)
  {
    if d != names2[d.name] {
      var c := NewChange(Move, Some(d), Some(names2[d.name]));
      assert names2[d.name] in wg2;
      RecordSound(st, c.value, wg1, wg2, names2);
    }
  }

  /** The first loop's step for an old dish whose name the new group lacks: a RENAME or a pending REMOVE. */
  lemma OldStepSoundUnknown(st: Pass, d: Dish, wg1: seq<Dish>, wg2: seq<Dish>,
                            names2: map<string, Dish>, keys2: seq<string>, close: CloseMatches)
    requires names2 == LastBy(wg2, NameOf)
    requires d in wg1 && d.name !in names2
    requires PassSound(st, wg1, wg2, names2)
    ensures OldStep(st, d, names2, keys2, close).Ok? ==> PassSound(OldStep(st, d, names2, keys2, close).value, wg1, wg2, names2)
  {
    var matches := close(d.name, keys2);
    if |matches| == 1 {
      if matches[0] in names2 {
        var c := NewChange(Rename, Some(d), Some(names2[matches[0]]));
        assert names2[matches[0]] in wg2;
        if c.Ok? {
          RecordSound(st, c.value, wg1, wg2, names2);
        }
      }
    } else {
      PendSound(st, NewChange(Remove, Some(d), None).value, wg1, wg2, names2);
    }
  }

  lemma PendSound(st: Pass, c: Change, wg1: seq<Dish>, wg2: seq<Dish>, names2: map<string, Dish>)
    requires PassSound(st, wg1, wg2, names2)
    requires Kinded(c) && DrawnFrom(SidesOf(c), wg1, wg2) && c.kind == Remove && c.from.Some? && c.from.value.name !in names2
    ensures PassSound(st.(removed := st.removed + [c]), wg1, wg2, names2)
  {
    assert forall x :: x in st.removed + [c] ==> x in st.removed || x == c;
  }

  lemma {:induction false} OldLoopSound(st: Pass, s: seq<Dish>, wg1: seq<Dish>, wg2: seq<Dish>,
                                        names2: map<string, Dish>, keys2: seq<string>, close: CloseMatches)
    requires names2 == LastBy(wg2, NameOf)
    requires forall d :: d in s ==> d in wg1
    requires PassSound(st, wg1, wg2, names2)
    ensures OldLoop(st, s, names2, keys2, close).Ok? ==> PassSound(OldLoop(st, s, names2, keys2, close).value, wg1, wg2, names2)
    decreases s
  {
    if s != [] {
      assert s[0] in s;
      OldStepSound(st, s[0], wg1, wg2, names2, keys2, close);
      var r := OldStep(st, s[0], names2, keys2, close);
      if r.Ok? {
        assert forall d :: d in s[1..] ==> d in s;
        OldLoopSound(r.value, s[1..], wg1, wg2, names2, keys2, close);
      }
    }
  }

  /** Pairing the oldest pending REMOVE with a new dish keeps the lists sound. */
  lemma ReplaceSound(st: Pass, d: Dish, wg1: seq<Dish>, wg2: seq<Dish>, names2: map<string, Dish>)
    requires d in wg2 && d.name in names2
    requires st.removed != []
    requires PassSound(st, wg1, wg2, names2)
    ensures NewChange(Replace, st.removed[0].from, Some(d)).Ok?
    ensures PassSound(Pass(st.diff + [NewChange(Replace, st.removed[0].from, Some(d)).value], st.removed[1..]), wg1, wg2, names2)
  {
    var pending := st.removed[0];
    assert pending in st.removed;
    var c := NewChange(Replace, pending.from, Some(d));
    assert forall x :: x in st.removed[1..] ==> x in st.removed;
    RecordSound(st, c.value, wg1, wg2, names2);
  }

  lemma NewStepSound(st: Pass, d: Dish, wg1: seq<Dish>, wg2: seq<Dish>,
                     names1: map<string, Dish>, names2: map<string, Dish>, keys1: seq<string>, close: CloseMatches)
    requires names1 == LastBy(wg1, NameOf) && names2 == LastBy(wg2, NameOf)
    requires d in wg2
    requires PassSound(st, wg1, wg2, names2)
    ensures NewStep(st, d, names1, keys1, close).Ok? ==> PassSound(NewStep(st, d, names1, keys1, close).value, wg1, wg2, names2)
  {
    if d.name !in names1 && |close(d.name, keys1)| != 1 {
      assert d.name in names2 by {
        var i :| 0 <= i < |wg2| && wg2[i] == d;
      }
      if st.removed != [] {
        ReplaceSound(st, d, wg1, wg2, names2);
      } else {
        var c := NewChange(Add, None, Some(d));
        RecordSound(st, c.value, wg1, wg2, names2);
      }
    } else {
      NewStepKeeps(st, d, names1, keys1, close);
    }
  }

  /** A new dish with a same-named old dish or a unique close match adds nothing. */
  lemma NewStepKeeps(st: Pass, d: Dish, names1: map<string, Dish>, keys1: seq<string>, close: CloseMatches)
    requires d.name in names1 || |close(d.name, keys1)| == 1
    ensures NewStep(st, d, names1, keys1, close).Ok? ==> NewStep(st, d, names1, keys1, close).value == st
  {
  }

  lemma {:induction false} NewLoopSound(st: Pass, s: seq<Dish>, wg1: seq<Dish>, wg2: seq<Dish>,
                                        names1: map<string, Dish>, names2: map<string, Dish>, keys1: seq<string>, close: CloseMatches)
    requires names1 == LastBy(wg1, NameOf) && names2 == LastBy(wg2, NameOf)
    requires forall d :: d in s ==> d in wg2
    requires PassSound(st, wg1, wg2, names2)
    ensures NewLoop(st, s, names1, keys1, close).Ok? ==> PassSound(NewLoop(st, s, names1, keys1, close).value, wg1, wg2, names2)
    decreases s
  {
    if s != [] {
      assert s[0] in s;
      NewStepSound(st, s[0], wg1, wg2, names1, names2, keys1, close);
      var r := NewStep(st, s[0], names1, keys1, close);
      if r.Ok? {
        assert forall d :: d in s[1..] ==> d in s;
        NewLoopSound(r.value, s[1..], wg1, wg2, names1, names2, keys1, close);
      }
    }
  }

  /**
   * Every record of a completed comparison is kinded and takes its old dish
   * from the old group and its new dish from the new group.
   */
  lemma CompareSound(wg1: seq<Dish>, wg2: seq<Dish>, close: CloseMatches)
    ensures CompareGroup(wg1, wg2, close).Ok? ==>
      forall c :: c in CompareGroup(wg1, wg2, close).value ==> Kinded(c) && DrawnFrom(SidesOf(c), wg1, wg2)
  {
    var names1, names2 := LastBy(wg1, NameOf), LastBy(wg2, NameOf);
    var start := Pass([], []);
    OldLoopSound(start, wg1, wg1, wg2, names2, GroupNames(wg2), close);
    var p := OldLoop(start, wg1, names2, GroupNames(wg2), close);
    if p.Ok? {
      NewLoopSound(p.value, wg2, wg1, wg2, names1, names2, GroupNames(wg1), close);
    }
  }

  // ---------------------------------------------------------------------------
  // First in, first out

  /** The old dishes of the records, in order. */
  function Froms(cs: seq<Change>): (r: seq<Option<Dish>>)
    ensures |r| == |cs|
    ensures forall i :: 0 <= i < |cs| ==> r[i] == cs[i].from
  {
    seq(|cs|, i requires 0 <= i < |cs| => cs[i].from)
  }

  lemma FromsConcat(a: seq<Change>, b: seq<Change>)
    ensures Froms(a + b) == Froms(a) + Froms(b)
  {
  }

  /** The records of one kind, in order. */
  function OfKind(cs: seq<Change>, k: Kind): (r: seq<Change>)
    ensures forall c :: c in r ==> c in cs && c.kind == k
  {
    if cs == [] then []
    else (if cs[0].kind == k then [cs[0]] else []) + OfKind(cs[1..], k)
  }

  lemma {:induction false} OfKindConcat(a: seq<Change>, b: seq<Change>, k: Kind)
    ensures OfKind(a + b, k) == OfKind(a, k) + OfKind(b, k)
  {
    if a == [] {
      assert a + b == b;
    } else {
      assert (a + b)[0] == a[0] && (a + b)[1..] == a[1..] + b;
      OfKindConcat(a[1..], b, k);
    }
  }

  lemma {:induction false} OfKindNone(cs: seq<Change>, k: Kind)
    requires forall c :: c in cs ==> c.kind != k
    ensures OfKind(cs, k) == []
  {
    if cs != [] {
      assert forall c :: c in cs[1..] ==> c in cs;
      OfKindNone(cs[1..], k);
    }
  }

  lemma {:induction false} OfKindAll(cs: seq<Change>, k: Kind)
    requires forall c :: c in cs ==> c.kind == k
    ensures OfKind(cs, k) == cs
  {
    if cs != [] {
      assert forall c :: c in cs[1..] ==> c in cs;
      OfKindAll(cs[1..], k);
    }
  }

  lemma OfKindSnoc(cs: seq<Change>, c: Change, k: Kind)
    ensures OfKind(cs + [c], k) == OfKind(cs, k) + (if c.kind == k then [c] else [])
  {
    OfKindConcat(cs, [c], k);
  }

  /** The old dishes the first loop leaves pending: no same-named new dish and no unique close match. */
  function Pending(s: seq<Dish>, names2: map<string, Dish>, keys2: seq<string>, close: CloseMatches): (r: seq<Option<Dish>>)
    ensures forall d :: Some(d) in r ==> d in s && d.name !in names2
  {
    if s == [] then []
    else
      assert forall d :: d in s[1..] ==> d in s;
      (if s[0].name !in names2 && |close(s[0].name, keys2)| != 1 then [Some(s[0])] else []) + Pending(s[1..], names2, keys2, close)
  }

  lemma {:induction false} OldLoopPending(st: Pass, s: seq<Dish>, names2: map<string, Dish>, keys2: seq<string>, close: CloseMatches)
    ensures OldLoop(st, s, names2, keys2, close).Ok? ==>
      var v := OldLoop(st, s, names2, keys2, close).value;
      Froms(v.removed) == Froms(st.removed) + Pending(s, names2, keys2, close) &&
      OfKind(v.diff, Replace) == OfKind(st.diff, Replace) && OfKind(v.diff, Add) == OfKind(st.diff, Add)
    decreases s
  {
    if s != [] {
      var d := s[0];
      var r := OldStep(st, d, names2, keys2, close);
      if r.Ok? {
        var v := r.value;
        OldStepPending(st, d, names2, keys2, close);
        OldLoopPending(v, s[1..], names2, keys2, close);
        var q := OldLoop(v, s[1..], names2, keys2, close);
        assert OldLoop(st, s, names2, keys2, close) == q;
        if q.Ok? {
          var x := if d.name !in names2 && |close(d.name, keys2)| != 1 then [Some(d)] else [];
          assert Pending(s, names2, keys2, close) == x + Pending(s[1..], names2, keys2, close);
          QueueAppend(Froms(st.removed), Froms(v.removed), Froms(q.value.removed), x,
            Pending(s[1..], names2, keys2, close), Pending(s, names2, keys2, close));
        }
      }
    }
  }

  lemma QueueAppend<T>(a0: seq<T>, a1: seq<T>, a2: seq<T>, x: seq<T>, p1: seq<T>, p0: seq<T>)
    requires a1 == a0 + x && a2 == a1 + p1 && p0 == x + p1
    ensures a2 == a0 + p0
  {
  }

  /** One step of the first loop queues its dish exactly when it is pending, and records no REPLACE and no ADD. */
  lemma OldStepPending(st: Pass, d: Dish, names2: map<string, Dish>, keys2: seq<string>, close: CloseMatches)
    requires OldStep(st, d, names2, keys2, close).Ok?
    ensures var v := OldStep(st, d, names2, keys2, close).value;
      Froms(v.removed) == Froms(st.removed) + (if d.name !in names2 && |close(d.name, keys2)| != 1 then [Some(d)] else []) &&
      OfKind(v.diff, Replace) == OfKind(st.diff, Replace) && OfKind(v.diff, Add) == OfKind(st.diff, Add)
  {
    var v := OldStep(st, d, names2, keys2, close).value;
    if v.diff != st.diff {
      assert |v.diff| == |st.diff| + 1 && v.diff == st.diff + [v.diff[|st.diff|]];
      OfKindSnoc(st.diff, v.diff[|st.diff|], Replace);
      OfKindSnoc(st.diff, v.diff[|st.diff|], Add);
    }
    if v.removed != st.removed {
      FromsConcat(st.removed, [v.removed[|st.removed|]]);
    }
  }

  /** What the second loop keeps: the pending REMOVEs move, in order, into REPLACEs; an ADD only once none is pending. */
  ghost predicate FifoKept(st: Pass, v: Pass)
  {
    Froms(OfKind(v.diff, Replace)) + Froms(v.removed) == Froms(OfKind(st.diff, Replace)) + Froms(st.removed) &&
    (OfKind(st.diff, Add) != [] ==> st.removed == []) && (OfKind(v.diff, Add) != [] ==> v.removed == []) &&
    OfKind(v.diff, Remove) == OfKind(st.diff, Remove)
  }

  lemma FromsShift(xs: seq<Change>, c: Change, removed: seq<Change>)
    requires removed != [] && c.from == removed[0].from
    ensures Froms(xs + [c]) + Froms(removed[1..]) == Froms(xs) + Froms(removed)
  {
    var l, r := Froms(xs + [c]) + Froms(removed[1..]), Froms(xs) + Froms(removed);
    assert |l| == |r|;
    forall i | 0 <= i < |l| ensures l[i] == r[i] {
      if i < |xs| {
      } else if i == |xs| {
      } else {
        assert l[i] == Froms(removed[1..])[i - |xs| - 1];
      }
    }
  }

  lemma ReplaceFifo(st: Pass, c: Change)
    requires st.removed != [] && c.kind == Replace && c.from == st.removed[0].from
    requires OfKind(st.diff, Add) != [] ==> st.removed == []
    ensures FifoKept(st, Pass(st.diff + [c], st.removed[1..]))
  {
    OfKindSnoc(st.diff, c, Replace);
    OfKindSnoc(st.diff, c, Add);
    OfKindSnoc(st.diff, c, Remove);
    FromsShift(OfKind(st.diff, Replace), c, st.removed);
  }

  lemma AddFifo(st: Pass, c: Change)
    requires st.removed == [] && c.kind == Add
    ensures FifoKept(st, Pass(st.diff + [c], st.removed))
  {
    OfKindSnoc(st.diff, c, Replace);
    OfKindSnoc(st.diff, c, Remove);
  }

  lemma NewStepFifo(st: Pass, d: Dish, names1: map<string, Dish>, keys1: seq<string>, close: CloseMatches)
    requires OfKind(st.diff, Add) != [] ==> st.removed == []
    ensures NewStep(st, d, names1, keys1, close).Ok? ==> FifoKept(st, NewStep(st, d, names1, keys1, close).value)
  {
    var r := NewStep(st, d, names1, keys1, close);
    if d.name in names1 || |close(d.name, keys1)| == 1 {
      assert r.Ok? ==> r.value == st;
    } else if st.removed != [] {
      var c := NewChange(Replace, st.removed[0].from, Some(d));
      if c.Ok? {
        ReplaceFifo(st, c.value);
      }
    } else {
      AddFifo(st, NewChange(Add, None, Some(d)).value);
    }
  }

  lemma {:induction false} NewLoopFifo(st: Pass, s: seq<Dish>, names1: map<string, Dish>, keys1: seq<string>, close: CloseMatches)
    requires OfKind(st.diff, Add) != [] ==> st.removed == []
    ensures NewLoop(st, s, names1, keys1, close).Ok? ==> FifoKept(st, NewLoop(st, s, names1, keys1, close).value)
    decreases s
  {
    if s != [] {
      NewStepFifo(st, s[0], names1, keys1, close);
      var r := NewStep(st, s[0], names1, keys1, close);
      if r.Ok? {
        NewLoopFifo(r.value, s[1..], names1, keys1, close);
      }
    }
  }

  /** A completed comparison's lists: no REMOVE among the records, only REMOVEs pending. */
  lemma ResultKinds(v: Pass)
    requires forall c :: c in v.diff ==> c.kind != Remove
    requires forall c :: c in v.removed ==> c.kind == Remove
    ensures OfKind(v.diff + v.removed, Replace) == OfKind(v.diff, Replace)
    ensures OfKind(v.diff + v.removed, Add) == OfKind(v.diff, Add)
    ensures OfKind(v.diff + v.removed, Remove) == v.removed
    ensures OfKind(v.diff, Remove) == []
  {
    OfKindConcat(v.diff, v.removed, Replace);
    OfKindConcat(v.diff, v.removed, Add);
    OfKindConcat(v.diff, v.removed, Remove);
    OfKindNone(v.removed, Replace);
    OfKindNone(v.removed, Add);
    OfKindNone(v.diff, Remove);
    OfKindAll(v.removed, Remove);
  }

  lemma RemovesLast(diff: seq<Change>, removed: seq<Change>)
    requires forall c :: c in diff ==> c.kind != Remove
    requires forall c :: c in removed ==> c.kind == Remove
    ensures forall i, j :: 0 <= i < j < |diff + removed| && (diff + removed)[i].kind == Remove ==>
      (diff + removed)[j].kind == Remove
  {
    var r := diff + removed;
    forall i, j | 0 <= i < j < |r| && r[i].kind == Remove ensures r[j].kind == Remove {
      if i >= |diff| {
        assert r[j] == removed[j - |diff|];
      }
    }
  }

  /** The shape of `diff + removed` after both loops. */
  lemma FinalFifo(p: Pass, v: Pass, pending: seq<Option<Dish>>)
    requires Froms(p.removed) == pending && OfKind(p.diff, Replace) == [] && OfKind(p.diff, Add) == []
    requires FifoKept(p, v)
    requires forall c :: c in v.diff ==> c.kind != Remove
    requires forall c :: c in v.removed ==> c.kind == Remove
    ensures Froms(OfKind(v.diff + v.removed, Replace)) + Froms(OfKind(v.diff + v.removed, Remove)) == pending
    ensures OfKind(v.diff + v.removed, Add) != [] ==> OfKind(v.diff + v.removed, Remove) == []
    ensures forall i, j :: 0 <= i < j < |v.diff + v.removed| && (v.diff + v.removed)[i].kind == Remove ==>
      (v.diff + v.removed)[j].kind == Remove
  {
    var r := v.diff + v.removed;
    ResultKinds(v);
    calc {
      Froms(OfKind(r, Replace)) + Froms(OfKind(r, Remove));
      Froms(OfKind(v.diff, Replace)) + Froms(v.removed);
      Froms(OfKind(p.diff, Replace)) + Froms(p.removed);
      { assert Froms([]) == []; }
      pending;
    }
    RemovesLast(v.diff, v.removed);
  }

  /**
   * The REPLACEs take, in order, the first of the old dishes left pending by
   * the first loop, and the REMOVEs at the end are the rest of them: pending
   * removals are paired first in, first out. An ADD is only recorded once no
   * removal is pending, so a result never holds both an ADD and a REMOVE, and
   * the REMOVEs come last.
   */
  lemma CompareFifo(wg1: seq<Dish>, wg2: seq<Dish>, close: CloseMatches)
    ensures CompareGroup(wg1, wg2, close).Ok? ==>
      var r := CompareGroup(wg1, wg2, close).value;
      Froms(OfKind(r, Replace)) + Froms(OfKind(r, Remove)) == Pending(wg1, LastBy(wg2, NameOf), GroupNames(wg2), close) &&
      (OfKind(r, Add) != [] ==> OfKind(r, Remove) == []) &&
      (forall i, j :: 0 <= i < j < |r| && r[i].kind == Remove ==> r[j].kind == Remove)
  {
    var names1, names2 := LastBy(wg1, NameOf), LastBy(wg2, NameOf);
    var start := Pass([], []);
    var p := OldLoop(start, wg1, names2, GroupNames(wg2), close);
    if p.Ok? {
      var q := NewLoop(p.value, wg2, names1, GroupNames(wg1), close);
      if q.Ok? {
        var pending := Pending(wg1, names2, GroupNames(wg2), close);
        assert Froms(p.value.removed) == pending && OfKind(p.value.diff, Replace) == [] && OfKind(p.value.diff, Add) == [] by {
          OldLoopPending(start, wg1, names2, GroupNames(wg2), close);
        }
        assert FifoKept(p.value, q.value) by {
          NewLoopFifo(p.value, wg2, names1, GroupNames(wg1), close);
        }
        PassesSeparateKinds(wg1, wg2, close, p.value, q.value);
        FinalFifo(p.value, q.value, pending);
      }
    }
  }

  /** After both loops the REMOVEs are exactly the entries of `removed`. */
  lemma PassesSeparateKinds(wg1: seq<Dish>, wg2: seq<Dish>, close: CloseMatches, p: Pass, q: Pass)
    requires OldLoop(Pass([], []), wg1, LastBy(wg2, NameOf), GroupNames(wg2), close) == Ok(p)
    requires NewLoop(p, wg2, LastBy(wg1, NameOf), GroupNames(wg1), close) == Ok(q)
    ensures forall c :: c in q.diff ==> c.kind != Remove
    ensures forall c :: c in q.removed ==> c.kind == Remove
  {
    var names1, names2 := LastBy(wg1, NameOf), LastBy(wg2, NameOf);
    OldLoopSound(Pass([], []), wg1, wg1, wg2, names2, GroupNames(wg2), close);
    NewLoopSound(p, wg2, wg1, wg2, names1, names2, GroupNames(wg1), close);
  }

  // ---------------------------------------------------------------------------
  // When the second loop's assertion fails

  /**
   * A new dish that trips the assertion: an old dish of its name exists and
   * differs from it, and it is not the dish the new group's name dict keeps
   * for that name, so the first loop never recorded a MOVE to it.
   */
  predicate Trips(d: Dish, names1: map<string, Dish>, names2: map<string, Dish>)
  {
    d.name in names1 && d.name in names2 && d != names1[d.name] && d != names2[d.name]
  }

  /** The MOVE the first loop records for an old dish whose same-named new dish differs. */
  function MoveTo(d1: Dish, d2: Dish): Change
    requires d1.name == d2.name && d1 != d2
  {
    NewChange(Move, Some(d1), Some(d2)).value
  }

  /** Every MOVE (or ATTR) the first loop owes for the dishes of `xs` is in `diff`. */
  ghost predicate Recorded(diff: seq<Change>, xs: seq<Dish>, names2: map<string, Dish>)
    requires forall k :: k in names2 ==> names2[k].name == k
  {
    forall d1 :: d1 in xs && d1.name in names2 && d1 != names2[d1.name] ==> MoveTo(d1, names2[d1.name]) in diff
  }

  /** Every MOVE or ATTR in `diff` leads to the dish the new group's name dict keeps. */
  ghost predicate MovesToKept(diff: seq<Change>, names2: map<string, Dish>)
  {
    forall c :: c in diff && (c.kind == Attr || c.kind == Move) ==>
      c.from.Some? && c.to.Some? && c.from.value.name in names2 && c.to.value == names2[c.from.value.name]
  }

  lemma OldStepRecords(st: Pass, d: Dish, names2: map<string, Dish>, keys2: seq<string>, close: CloseMatches)
    requires CloseSound(close)
    requires forall k :: k in names2 ==> names2[k].name == k
    requires forall k :: k in keys2 ==> k in names2
    requires MovesToKept(st.diff, names2)
    ensures OldStep(st, d, names2, keys2, close).Ok?
    ensures var v := OldStep(st, d, names2, keys2, close).value;
      MovesToKept(v.diff, names2) && Recorded(v.diff, [d], names2) &&
      (forall c :: c in st.diff ==> c in v.diff) && (forall c :: c in st.removed ==> c in v.removed)
  {
    if d.name !in names2 {
      var matches := close(d.name, keys2);
      if |matches| == 1 {
        assert matches[0] in matches;
      }
    }
    var v := OldStep(st, d, names2, keys2, close).value;
    if v.diff != st.diff {
      assert v.diff == st.diff + [v.diff[|st.diff|]];
    }
  }

  lemma {:induction false} OldLoopRecords(st: Pass, s: seq<Dish>, names2: map<string, Dish>, keys2: seq<string>, close: CloseMatches)
    requires CloseSound(close)
    requires forall k :: k in names2 ==> names2[k].name == k
    requires forall k :: k in keys2 ==> k in names2
    requires MovesToKept(st.diff, names2)
    ensures OldLoop(st, s, names2, keys2, close).Ok?
    ensures var v := OldLoop(st, s, names2, keys2, close).value;
      MovesToKept(v.diff, names2) && Recorded(v.diff, s, names2) && (forall c :: c in st.diff ==> c in v.diff)
    decreases s
  {
    if s != [] {
      OldStepRecords(st, s[0], names2, keys2, close);
      var next := OldStep(st, s[0], names2, keys2, close).value;
      OldLoopRecords(next, s[1..], names2, keys2, close);
      assert forall d1 :: d1 in s ==> d1 == s[0] || d1 in s[1..];
    }
  }

  /** What the second loop relies on, for the old group `wg1`. */
  ghost predicate ReadyForNew(st: Pass, wg1: seq<Dish>, names2: map<string, Dish>)
    requires forall k :: k in names2 ==> names2[k].name == k
  {
    Recorded(st.diff, wg1, names2) && MovesToKept(st.diff, names2) &&
    forall c :: c in st.removed ==> c.from.Some? && c.from.value.name !in names2
  }

  /** The second loop's step for a new dish whose name the old group has. */
  lemma NewStepKnownName(st: Pass, d: Dish, wg1: seq<Dish>, wg2: seq<Dish>, keys1: seq<string>, close: CloseMatches)
    requires d in wg2 && d.name in LastBy(wg1, NameOf)
    requires ReadyForNew(st, wg1, LastBy(wg2, NameOf))
    ensures var r := NewStep(st, d, LastBy(wg1, NameOf), keys1, close);
      (r.Err? <==> Trips(d, LastBy(wg1, NameOf), LastBy(wg2, NameOf))) &&
      (r.Err? ==> r.error == AssertionError) && (r.Ok? ==> r.value == st)
  {
    var names1, names2 := LastBy(wg1, NameOf), LastBy(wg2, NameOf);
    var n := d.name;
    if d != names1[n] {
      var c := MoveTo(names1[n], d);
      if d == names2[n] {
        assert names1[n] in wg1 && names1[n].name == n;
        assert c in st.diff;
      } else {
        assert c !in st.diff;
      }
    }
  }

  /** The second loop's step for a new dish whose name the old group lacks: it never fails. */
  lemma NewStepUnknownName(st: Pass, d: Dish, wg1: seq<Dish>, wg2: seq<Dish>, keys1: seq<string>, close: CloseMatches)
    requires CloseSound(close)
    requires forall k :: k in keys1 ==> k in LastBy(wg1, NameOf)
    requires d in wg2 && d.name !in LastBy(wg1, NameOf)
    requires ReadyForNew(st, wg1, LastBy(wg2, NameOf))
    ensures var r := NewStep(st, d, LastBy(wg1, NameOf), keys1, close);
      r.Ok? && ReadyForNew(r.value, wg1, LastBy(wg2, NameOf))
  {
    var names1, names2 := LastBy(wg1, NameOf), LastBy(wg2, NameOf);
    var r := NewStep(st, d, names1, keys1, close);
    var matches := close(d.name, keys1);
    if |matches| == 1 {
      assert matches[0] in matches;
    } else if st.removed != [] {
      assert st.removed[0] in st.removed;
      var c := NewChange(Replace, st.removed[0].from, Some(d)).value;
      assert r.value == Pass(st.diff + [c], st.removed[1..]);
      AppendKeepsReady(st, c, st.removed[1..], wg1, names2);
    } else {
      var c := NewChange(Add, None, Some(d)).value;
      assert r.value == Pass(st.diff + [c], st.removed);
      AppendKeepsReady(st, c, st.removed, wg1, names2);
    }
  }

  /** Recording a change that is neither a MOVE nor an ATTR, and dropping pending REMOVEs, keeps a pass ready. */
  lemma AppendKeepsReady(st: Pass, c: Change, rest: seq<Change>, wg1: seq<Dish>, names2: map<string, Dish>)
    requires forall k :: k in names2 ==> names2[k].name == k
    requires ReadyForNew(st, wg1, names2)
    requires c.kind != Attr && c.kind != Move
    requires forall x :: x in rest ==> x in st.removed
    ensures ReadyForNew(Pass(st.diff + [c], rest), wg1, names2)
  {
    assert forall x :: x in st.diff + [c] ==> x in st.diff || x == c;
  }

  lemma {:induction false} NewLoopFails(st: Pass, s: seq<Dish>, wg1: seq<Dish>, wg2: seq<Dish>, keys1: seq<string>, close: CloseMatches)
    requires CloseSound(close)
    requires forall k :: k in keys1 ==> k in LastBy(wg1, NameOf)
    requires forall d :: d in s ==> d in wg2
    requires ReadyForNew(st, wg1, LastBy(wg2, NameOf))
    ensures var r := NewLoop(st, s, LastBy(wg1, NameOf), keys1, close);
      (r.Err? <==> exists d :: d in s && Trips(d, LastBy(wg1, NameOf), LastBy(wg2, NameOf))) &&
      (r.Err? ==> r.error == AssertionError)
    decreases s
  {
    if s != [] {
      var names1 := LastBy(wg1, NameOf);
      assert s[0] in s;
      if s[0].name in names1 {
        NewStepKnownName(st, s[0], wg1, wg2, keys1, close);
      } else {
        NewStepUnknownName(st, s[0], wg1, wg2, keys1, close);
      }
      var step := NewStep(st, s[0], names1, keys1, close);
      if step.Ok? {
        NewLoopFails(step.value, s[1..], wg1, wg2, keys1, close);
      }
      assert forall d :: d in s ==> d == s[0] || d in s[1..];
    }
  }

  /**
   * Under a sound close-match search the comparison fails exactly when some
   * new dish trips the second loop's assertion, and then with that
   * assertion: a new group that lists a name twice, with an old dish of that
   * name unequal to both, makes `__compare_changed_wg` raise.
   */
  lemma CompareFailsIff(wg1: seq<Dish>, wg2: seq<Dish>, close: CloseMatches)
    requires CloseSound(close)
    ensures var r := CompareGroup(wg1, wg2, close);
      (r.Err? <==> exists d :: d in wg2 && Trips(d, LastBy(wg1, NameOf), LastBy(wg2, NameOf))) &&
      (r.Err? ==> r.error == AssertionError)
  {
    OldLoopReady(wg1, wg2, close);
    var p := OldLoop(Pass([], []), wg1, LastBy(wg2, NameOf), GroupNames(wg2), close).value;
    var q := NewLoop(p, wg2, LastBy(wg1, NameOf), GroupNames(wg1), close);
    assert CompareGroup(wg1, wg2, close) == if q.Err? then Err(q.error) else Ok(q.value.diff + q.value.removed);
    NewLoopFails(p, wg2, wg1, wg2, GroupNames(wg1), close);
  }

  /** Under a sound close-match search the first loop never fails, and leaves the second loop's precondition. */
  lemma OldLoopReady(wg1: seq<Dish>, wg2: seq<Dish>, close: CloseMatches)
    requires CloseSound(close)
    ensures var p := OldLoop(Pass([], []), wg1, LastBy(wg2, NameOf), GroupNames(wg2), close);
      p.Ok? && ReadyForNew(p.value, wg1, LastBy(wg2, NameOf))
  {
    var names2 := LastBy(wg2, NameOf);
    var keys2 := GroupNames(wg2);
    OldLoopRecords(Pass([], []), wg1, names2, keys2, close);
    OldLoopSound(Pass([], []), wg1, wg1, wg2, names2, keys2, close);
  }

  /** A new group without repeated names never fails the comparison. */
  lemma DistinctNamesCompare(wg1: seq<Dish>, wg2: seq<Dish>, close: CloseMatches)
    requires CloseSound(close)
    requires NoDuplicates(KeysOf(wg2, NameOf))
    ensures CompareGroup(wg1, wg2, close).Ok?
  {
    CompareFailsIff(wg1, wg2, close);
    var names2 := LastBy(wg2, NameOf);
    forall d | d in wg2
      ensures d.name in names2 && d == names2[d.name]
    {
      var i :| 0 <= i < |wg2| && wg2[i] == d;
      LastByIsLast(wg2, NameOf, i);
    }
  }

  /**
   * The smallest failing case: one old dish, and a new group naming it twice
   * with two other versions, the later one in the name dict.
   */
  lemma RepeatedNameFails(a: Dish, b: Dish, c: Dish, close: CloseMatches)
    requires CloseSound(close)
    requires a.name == b.name == c.name && b != a && b != c
    ensures CompareGroup([a], [b, c], close) == Err(AssertionError)
  {
    CompareFailsIff([a], [b, c], close);
    var names1, names2 := LastBy([a], NameOf), LastBy([b, c], NameOf);
    assert names1[a.name] == a;
    assert names2[b.name] == c;
    assert Trips(b, names1, names2);
  }

  // ---------------------------------------------------------------------------
  // generate_diff

  /** The group comparison `generate_diff` runs: both groups sorted by category code first. */
  function SortedCompare(close: CloseMatches): GroupDiff<Change>
  {
    (a, b) => CompareSorted(a, b, close)
  }

  function CompareSorted(wg1: seq<Dish>, wg2: seq<Dish>, close: CloseMatches): Result<seq<Change>>
  {
    CompareGroup(SortByCategory(wg1), SortByCategory(wg2), close)
  }

  /** The records of one changed group are classified and drawn from that group's old and new dishes. */
  lemma SortedCompareSound(close: CloseMatches)
    ensures GroupSound(SortedCompare(close), SidesOf, Kinded)
  {
    forall a, b ensures CompareSorted(a, b, close).Ok? ==>
      forall c :: c in CompareSorted(a, b, close).value ==> Kinded(c) && DrawnFrom(SidesOf(c), a, b)
    {
      CompareSortedSound(a, b, close);
    }
  }

  lemma CompareSortedSound(a: seq<Dish>, b: seq<Dish>, close: CloseMatches)
    ensures CompareSorted(a, b, close).Ok? ==> forall c :: c in CompareSorted(a, b, close).value ==> Kinded(c) && DrawnFrom(SidesOf(c), a, b)
  {
    var sa, sb := SortByCategory(a), SortByCategory(b);
    CompareSound(sa, sb, close);
    if CompareSorted(a, b, close).Ok? {
      forall c | c in CompareSorted(a, b, close).value ensures Kinded(c) && DrawnFrom(SidesOf(c), a, b) {
        assert DrawnFrom(SidesOf(c), sa, sb);
        if c.from.Some? {
          assert c.from.value in multiset(sa);
        }
        if c.to.Some? {
          assert c.to.value in multiset(sb);
        }
      }
    }
  }

  /**
   * `generate_diff`: every record is classified, takes its old dish from the
   * old menu and its new dish from the new one, and is about one date of the
   * old menu.
   */
  lemma DiffChanges(menu1: seq<Dish>, menu2: seq<Dish>, close: CloseMatches)
    ensures var r := WeekDiff(menu1, menu2, SortedCompare(close));
      r.Ok? ==> forall c :: c in r.value ==>
        Kinded(c) && DrawnFrom(SidesOf(c), menu1, menu2) && SideDate(SidesOf(c)) in DatesOf(menu1) && OneDay(SidesOf(c))
  {
    SortedCompareSound(close);
    WeekChanges(menu1, menu2, SortedCompare(close), SidesOf, Kinded);
  }

  /** The inner loop of `generate_diff` for one date: each changed group in turn, `diff +=` its records. */
  method DiffDay(day1: seq<Dish>, day2: seq<Dish>, close: CloseMatches) returns (r: Result<seq<Change>>)
    ensures r == GroupsDiff(ChangedGroups(day1, day2), day1, day2, SortedCompare(close))
  {
    var groups := ChangedGroups(day1, day2);
    var diff: seq<Change> := [];
    assert groups[0..] == groups;
    ThenNil(GroupsDiff(groups, day1, day2, SortedCompare(close)));
    for j := 0 to |groups|
      invariant GroupsDiff(groups, day1, day2, SortedCompare(close)) ==
        Then(diff, GroupsDiff(groups[j..], day1, day2, SortedCompare(close)))
    {
      var wg1 := SortByCategory(InGroup(day1, groups[j]));
      var wg2 := SortByCategory(InGroup(day2, groups[j]));
      var cs := CompareChangedGroup(wg1, wg2, close);
      GroupsDiffStep(groups, j, day1, day2, SortedCompare(close), diff);
      assert cs == SortedCompare(close)(InGroup(day1, groups[j]), InGroup(day2, groups[j]));
      if cs.Err? {
        return Err(cs.error);
      }
      diff := diff + cs.value;
    }
    assert groups[|groups|..] == [];
    assert diff + [] == diff;
    return Ok(diff);
  }

  /** The body of `generate_diff`'s date loop: nothing when the category dicts of the date agree, else its changed groups. */
  method DiffDate(menu1: seq<Dish>, menu2: seq<Dish>, date: int, close: CloseMatches) returns (r: Result<seq<Change>>)
    ensures r == DayDiff(OnDate(menu1, date), OnDate(menu2, date), SortedCompare(close))
  {
    var day1, day2 := OnDate(menu1, date), OnDate(menu2, date);
    if LastBy(day1, CategoryOf) == LastBy(day2, CategoryOf) {
      return Ok([]);
    }
    r := DiffDay(day1, day2, close);
  }

  /**
   * `generate_diff`: nothing for equal menus; otherwise every date of the old
   * menu whose category dicts differ, `diff +=` the records of its changed groups.
   */
  method GenerateDiff(menu1: seq<Dish>, menu2: seq<Dish>, close: CloseMatches) returns (r: Result<seq<Change>>)
    ensures r == WeekDiff(menu1, menu2, SortedCompare(close))
  {
    if menu1 == menu2 {
      return Ok([]);
    }
    var dates := Dates(menu1);
    var diff: seq<Change> := [];
    assert dates[0..] == dates;
    ThenNil(DatesDiff(dates, menu1, menu2, SortedCompare(close)));
    for i := 0 to |dates|
      invariant DatesDiff(dates, menu1, menu2, SortedCompare(close)) ==
        Then(diff, DatesDiff(dates[i..], menu1, menu2, SortedCompare(close)))
    {
      var cs := DiffDate(menu1, menu2, dates[i], close);
      DatesDiffStep(dates, i, menu1, menu2, SortedCompare(close), diff);
      if cs.Err? {
        return Err(cs.error);
      }
      diff := diff + cs.value;
    }
    assert dates[|dates|..] == [];
    assert diff + [] == diff;
    return Ok(diff);
  }
}
