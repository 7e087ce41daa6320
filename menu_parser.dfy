/**
 * The newer diff engine of the menu API (stwno_api/menu_parser.py): parsing a
 * CSV row into a `Dish`, the `Change` record, and the week and group diffs
 * built on the fuzzy name matcher.
 */
module MenuParser {
  import opened Common
  import opened Dishes
  import opened NameScanner
  import opened FuzzyMatch
  import opened Dicts
  import opened Menus

  // ---------------------------------------------------------------------------
  // parse_dish

  /**
   * `parse_dish`: Salatmix names are cut and keep only the column's tags;
   * every other name is scanned after collapsing bracket runs, and a scan
   * that hits a misplaced bracket leaves the name spelled out character by
   * character with `??` tags. Empty tags are dropped from scanned dishes.
   */
  function ParseDish(row: Row, search: string -> Option<KennzMatch>): (d: Dish)
    requires KennzSearchSound(search)
    ensures d.datum == row.datum && d.warengruppe == row.warengruppe
    ensures d.stud == row.stud && d.bed == row.bed && d.gast == row.gast
    ensures StartsWith(row.name, "Salatmix") ==>
      d.name == SalatmixName(row.name) && d.kennz == ColumnTags(row.kennz) && d.zusatz == multiset{}
    ensures !StartsWith(row.name, "Salatmix") ==>
      "" !in d.kennz && "" !in d.zusatz &&
      forall t :: t != "" ==> d.kennz[t] >= ColumnTags(row.kennz)[t]
  {
    var column := ColumnTags(row.kennz);
    if StartsWith(row.name, "Salatmix") then
      Dish(row.datum, SalatmixName(row.name), row.warengruppe, column, multiset{}, row.stud, row.bed, row.gast)
    else
      var s := Collapse(row.name);
      match ScanName(s, search)
      case Aborted =>
        Dish(row.datum, SpaceJoinChars(s), row.warengruppe, (column + multiset{"??"})["" := 0],
          multiset{"??"}, row.stud, row.bed, row.gast)
      case Parsed(names, zusatz, kennz) =>
        Dish(row.datum, Join(names, " "), row.warengruppe, (column + multiset(kennz))["" := 0],
          multiset(zusatz)["" := 0], row.stud, row.bed, row.gast)
  }

  /** `parse_dish` as the code runs it: the row's fields rewritten one by one. */
  method ParseRow(row: Row, search: string -> Option<KennzMatch>) returns (d: Dish)
    requires KennzSearchSound(search)
    ensures d == ParseDish(row, search)
  {
    var kennz := ColumnTags(row.kennz);
    var zusatz: multiset<string> := multiset{};
    var name := row.name;
    if StartsWith(name, "Salatmix") {
      name := SalatmixName(name);
    } else {
      var s := Collapse(name);
      var parsed := ParseName(s, search);
      if parsed.Aborted? {
        name := SpaceJoinChars(s);
        zusatz := zusatz + multiset{"??"};
        kennz := kennz + multiset{"??"};
        ParseDishAborted(row, search);
      } else {
        name := Join(parsed.names, " ");
        zusatz := zusatz + multiset(parsed.zusatz);
        kennz := kennz + multiset(parsed.kennz);
        ParseDishParsed(row, search, parsed.names, parsed.zusatz, parsed.kennz);
      }
      zusatz := zusatz["" := 0];
      kennz := kennz["" := 0];
      assert zusatz == ParseDish(row, search).zusatz;
    }
    d := Dish(row.datum, name, row.warengruppe, kennz, zusatz, row.stud, row.bed, row.gast);
  }

  /**
   * After collapsing, the scan gives up exactly when the brackets do not
   * alternate `(`, `)`, `(`, ...; the dish is then named by the collapsed text
   * spelled out with spaces and carries `??` as its only ingredient tag.
   */
  lemma ParseDishAborts(row: Row, search: string -> Option<KennzMatch>)
    requires KennzSearchSound(search)
    requires !StartsWith(row.name, "Salatmix")
    requires !Alternates(Brackets(Collapse(row.name)), false)
    ensures ParseDish(row, search).name == SpaceJoinChars(Collapse(row.name))
    ensures ParseDish(row, search).zusatz == multiset{"??"}
    ensures "??" in ParseDish(row, search).kennz
  {
    ScanAbortsIff(Collapse(row.name), search);
  }

  /**
   * A name whose brackets alternate is parsed: its ingredient tags are the
   * non-empty stripped pieces the scan found, and every dietary tag is a
   * column tag or such a piece.
   */
  lemma ParseDishTags(row: Row, search: string -> Option<KennzMatch>)
    requires KennzSearchSound(search)
    requires !StartsWith(row.name, "Salatmix")
    requires Alternates(Brackets(Collapse(row.name)), false)
    ensures forall t :: t in ParseDish(row, search).zusatz ==> t != "" && IsTag(t)
    ensures forall t :: t in ParseDish(row, search).kennz ==> t != "" && (t in ColumnTags(row.kennz) || IsTag(t))
  {
    var s := Collapse(row.name);
    ScanAbortsIff(s, search);
    ScanShapes(s, search);
    var p := ScanName(s, search);
    assert forall t :: t in multiset(p.zusatz) ==> IsTag(t) by {
      forall t | t in multiset(p.zusatz) ensures IsTag(t) {
        assert t in p.zusatz;
        var i :| 0 <= i < |p.zusatz| && p.zusatz[i] == t;
      }
    }
    assert forall t :: t in multiset(p.kennz) ==> IsTag(t) by {
      forall t | t in multiset(p.kennz) ensures IsTag(t) {
        assert t in p.kennz;
        var i :| 0 <= i < |p.kennz| && p.kennz[i] == t;
      }
    }
  }

  /**
   * A bracket-free name without a tag suffix is only stripped, and its tags
   * are exactly the non-empty pieces of the `kennz` column.
   */
  lemma ParseDishPlain(row: Row, search: string -> Option<KennzMatch>)
    requires KennzSearchSound(search)
    requires !StartsWith(row.name, "Salatmix")
    requires BracketFree(row.name) && search(Strip(row.name)).None?
    ensures ParseDish(row, search).name == Strip(row.name)
    ensures ParseDish(row, search).zusatz == multiset{}
    ensures ParseDish(row, search).kennz == ColumnTags(row.kennz)["" := 0]
  {
    var names := if row.name == [] then [] else [Strip(row.name)];
    var none: seq<string> := [];
    assert multiset(none) == multiset{};
    PlainScan(row.name, search);
    ParseDishParsed(row, search, names, none, none);
    assert Join(names, " ") == Strip(row.name);
    assert ColumnTags(row.kennz) + multiset(none) == ColumnTags(row.kennz);
  }

  /** A bracket-free name without a tag suffix scans to its stripped self, without tags. */
  lemma PlainScan(s: string, search: string -> Option<KennzMatch>)
    requires KennzSearchSound(search)
    requires BracketFree(s) && search(Strip(s)).None?
    ensures ScanName(Collapse(s), search) == Parsed(if s == [] then [] else [Strip(s)], [], [])
  {
    CollapseBracketFree(s);
    ScanWithoutBrackets(s, search);
    if s != [] {
      assert AppendName(Start, s, search) == Start.(names := [Strip(s)]);
    }
  }

  /** Without brackets there is nothing to collapse. */
  lemma CollapseBracketFree(s: string)
    requires BracketFree(s)
    ensures Collapse(s) == s
  {
    CollapseRunsFixed(s, ')');
    CollapseRunsFixed(s, '(');
  }

  /** The dish of a row the scan parses, outside the `Salatmix` case. */
  lemma ParseDishParsed(row: Row, search: string -> Option<KennzMatch>,
                        names: seq<string>, zusatz: seq<string>, kennz: seq<string>)
    requires KennzSearchSound(search)
    requires !StartsWith(row.name, "Salatmix")
    requires ScanName(Collapse(row.name), search) == Parsed(names, zusatz, kennz)
    ensures ParseDish(row, search).name == Join(names, " ")
    ensures ParseDish(row, search).kennz == (ColumnTags(row.kennz) + multiset(kennz))["" := 0]
    ensures ParseDish(row, search).zusatz == multiset(zusatz)["" := 0]
  {
  }

  /** The dish of a row whose scan gives up, outside the `Salatmix` case. */
  lemma ParseDishAborted(row: Row, search: string -> Option<KennzMatch>)
    requires KennzSearchSound(search)
    requires !StartsWith(row.name, "Salatmix")
    requires ScanName(Collapse(row.name), search) == Aborted
    ensures ParseDish(row, search).name == SpaceJoinChars(Collapse(row.name))
    ensures ParseDish(row, search).kennz == (ColumnTags(row.kennz) + multiset{"??"})["" := 0]
    ensures ParseDish(row, search).zusatz == multiset{"??"}
  {
  }

  // ---------------------------------------------------------------------------
  // Change

  datatype ChangeType = Attr | Rename | Replace | Remove | Add

  /** A change record; `score` is the match ratio, which equality ignores. */
  datatype Change = Change(kind: ChangeType, from: Option<Dish>, to: Option<Dish>, score: int)

  /** The constructor, with its `assert from_dish != to_dish`. */
  function NewChange(kind: ChangeType, from: Option<Dish>, to: Option<Dish>, score: int): (r: Result<Change>)
    ensures r.Err? <==> from == to
    ensures r.Err? ==> r.error == AssertionError
    ensures r.Ok? ==> r.value.kind == kind && r.value.from == from && r.value.to == to && r.value.score == score
  {
    if from == to then Err(AssertionError) else Ok(Change(kind, from, to, score))
  }

  /** Every record the constructor accepts has two different sides, so at least one dish. */
  predicate WellFormed(c: Change)
  {
    c.from != c.to
  }

  /** `diff`: the fields in which the two sides differ, with their old and new values. */
  function ChangeDiff(c: Change): (r: map<Field, (Value, Value)>)
    ensures c.from.Some? && c.to.Some? ==>
      forall f: Field :: f in r <==> FieldOf(c.from.value, f) != FieldOf(c.to.value, f)
    ensures c.from.None? || c.to.None? ==> r == map[]
  {
    Diff(c.from, c.to)
  }

  /** A record of two dishes has an empty diff exactly when they are equal, which the constructor forbids. */
  lemma ChangeDiffNonEmpty(c: Change)
    requires WellFormed(c) && c.from.Some? && c.to.Some?
    ensures ChangeDiff(c) != map[]
  {
    DiffEmptyIffEqual(c.from.value, c.to.value);
  }

  /** `dish()`: the new dish when there is one, otherwise the old one. */
  function ChangeDish(c: Change): (d: Dish)
    requires WellFormed(c)
    ensures c.to.Some? ==> d == c.to.value
    ensures c.to.None? ==> c.from == Some(d)
  {
    if c.to.Some? then c.to.value else c.from.value
  }

  /** `__eq__`: kind and both sides, not the score. */
  predicate SameChange(a: Change, b: Change)
  {
    a.kind == b.kind && a.from == b.from && a.to == b.to
  }

  lemma SameChangeIgnoresScore(a: Change, b: Change)
    ensures SameChange(a, b) <==> a.(score := 0) == b.(score := 0)
  {
  }

  // ---------------------------------------------------------------------------
  // generate_diff_group

  /** The default similarity cutoff between a RENAME and a REPLACE. */
  const Cutoff := 60

  /** Python truthiness of a yielded name: `None` and `""` are both false. */
  predicate Truthy(o: Option<string>)
  {
    o.Some? && o.value != ""
  }

  /** Every name a triple mentions is a key of its side's name dict. */
  ghost predicate Resolves(ms: seq<Match>, names1: map<string, Dish>, names2: map<string, Dish>)
  {
    forall m :: m in ms ==> (m.left.Some? ==> m.left.value in names1) && (m.right.Some? ==> m.right.value in names2)
  }

  /** Two present dishes: unchanged, same name (ATTR), similar name (RENAME), or REPLACE. */
  function Compare(d1: Dish, d2: Dish, score: int, cutoff: int): (r: Option<Change>)
    ensures r.None? <==> d1 == d2
    ensures r.Some? ==> r.value.from == Some(d1) && r.value.to == Some(d2) && r.value.score == score
    ensures r.Some? ==> (r.value.kind == Attr <==> d1.name == d2.name)
    ensures r.Some? ==> (r.value.kind == Rename <==> d1.name != d2.name && score >= cutoff)
    ensures r.Some? ==> (r.value.kind == Replace <==> d1.name != d2.name && score < cutoff)
  {
    if d1 == d2 then None
    else if d1.name == d2.name then Some(Change(Attr, Some(d1), Some(d2), score))
    else if score >= cutoff then Some(Change(Rename, Some(d1), Some(d2), score))
    else Some(Change(Replace, Some(d1), Some(d2), score))
  }

  /**
   * The loop body for one triple, testing names by truthiness: an old name
   * alone is a REMOVE, a new name alone an ADD, and two false names fail the
   * `assert`.
   */
  function Classify(m: Match, names1: map<string, Dish>, names2: map<string, Dish>, cutoff: int): (r: Result<Option<Change>>)
    requires m.left.Some? ==> m.left.value in names1
    requires m.right.Some? ==> m.right.value in names2
    ensures r.Err? <==> !Truthy(m.left) && !Truthy(m.right)
  {
    if Truthy(m.left) && !Truthy(m.right) then Ok(Some(Change(Remove, Some(names1[m.left.value]), None, m.score)))
    else if Truthy(m.right) && !Truthy(m.left) then Ok(Some(Change(Add, None, Some(names2[m.right.value]), m.score)))
    else if !Truthy(m.left) then Err(AssertionError)
    else Ok(Compare(names1[m.left.value], names2[m.right.value], m.score, cutoff))
  }

  function Yielded(c: Option<Change>): seq<Change>
  {
    if c.Some? then [c.value] else []
  }

  /** The loop over all triples; the first failing `assert` ends the generator. */
  function ClassifyAll(ms: seq<Match>, names1: map<string, Dish>, names2: map<string, Dish>, cutoff: int): (r: Result<seq<Change>>)
    requires Resolves(ms, names1, names2)
    ensures r.Err? <==> exists m :: m in ms && !Truthy(m.left) && !Truthy(m.right)
    ensures r.Err? ==> r.error == AssertionError
    ensures r.Ok? ==> |r.value| <= |ms|
  {
    if ms == [] then Ok([])
    else
      assert forall m :: m in ms <==> m == ms[0] || m in ms[1..];
      match Classify(ms[0], names1, names2, cutoff)
      case Err(e) => Err(e)
      case Ok(c) =>
        match ClassifyAll(ms[1..], names1, names2, cutoff)
        case Err(e) => Err(e)
        case Ok(cs) => Ok(Yielded(c) + cs)
  }

  /** `generate_diff_group`: match the two name sets, then classify every triple. */
  function GenerateDiffGroup(dishes1: seq<Dish>, dishes2: seq<Dish>, ratio: (string, string) -> int, cutoff: int): Result<seq<Change>>
  {
    var names1 := LastBy(dishes1, NameOf);
    var names2 := LastBy(dishes2, NameOf);
    var ms := Matching(GroupNames(dishes1), GroupNames(dishes2), ratio);
    MatchingSides(GroupNames(dishes1), GroupNames(dishes2), ratio);
    ClassifyAll(ms, names1, names2, cutoff)
  }

  /** The old and the new dish of a record. */
  function SidesOf(c: Change): Sides
  {
    (c.from, c.to)
  }

  /** A record whose sides differ and whose kind follows the classification table. */
  predicate Kinded(c: Change, cutoff: int)
  {
    WellFormed(c) &&
    (c.kind == Remove <==> c.to.None?) &&
    (c.kind == Add <==> c.from.None?) &&
    (c.kind == Attr ==> c.from.value.name == c.to.value.name) &&
    (c.kind == Rename ==> c.from.value.name != c.to.value.name && c.score >= cutoff) &&
    (c.kind == Replace ==> c.from.value.name != c.to.value.name && c.score < cutoff)
  }

  /** What every yielded record satisfies: classified, with its sides taken from the two groups. */
  ghost predicate Classified(c: Change, dishes1: seq<Dish>, dishes2: seq<Dish>, cutoff: int)
  {
    Kinded(c, cutoff) && DrawnFrom(SidesOf(c), dishes1, dishes2)
  }

  /** Every dish a name dict holds comes from its list. */
  ghost predicate HeldIn(names: map<string, Dish>, dishes: seq<Dish>)
  {
    forall n :: n in names ==> names[n] in dishes
  }

  lemma {:induction false} ClassifyAllClassified(ms: seq<Match>, names1: map<string, Dish>, names2: map<string, Dish>,
                                                 cutoff: int, dishes1: seq<Dish>, dishes2: seq<Dish>)
    requires Resolves(ms, names1, names2)
    requires HeldIn(names1, dishes1) && HeldIn(names2, dishes2)
    ensures ClassifyAll(ms, names1, names2, cutoff).Ok? ==>
      forall c :: c in ClassifyAll(ms, names1, names2, cutoff).value ==> Classified(c, dishes1, dishes2, cutoff)
  {
    if ms != [] {
      ClassifyAllClassified(ms[1..], names1, names2, cutoff, dishes1, dishes2);
    }
  }

  /** Every record of a successful group diff is classified as the table says. */
  lemma GroupChanges(dishes1: seq<Dish>, dishes2: seq<Dish>, ratio: (string, string) -> int, cutoff: int)
    ensures GenerateDiffGroup(dishes1, dishes2, ratio, cutoff).Ok? ==>
      forall c :: c in GenerateDiffGroup(dishes1, dishes2, ratio, cutoff).value ==> Classified(c, dishes1, dishes2, cutoff)
  {
    MatchingSides(GroupNames(dishes1), GroupNames(dishes2), ratio);
    ClassifyAllClassified(Matching(GroupNames(dishes1), GroupNames(dishes2), ratio),
      LastBy(dishes1, NameOf), LastBy(dishes2, NameOf), cutoff, dishes1, dishes2);
  }

  /** The `assert` can only fail when some dish of the group has an empty name. */
  lemma GroupFailsOnlyOnEmptyName(dishes1: seq<Dish>, dishes2: seq<Dish>, ratio: (string, string) -> int, cutoff: int)
    requires "" !in NameSet(dishes1) && "" !in NameSet(dishes2)
    ensures GenerateDiffGroup(dishes1, dishes2, ratio, cutoff).Ok?
  {
    var set1, set2 := GroupNames(dishes1), GroupNames(dishes2);
    MatchingSides(set1, set2, ratio);
    GroupNamesSet(dishes1);
    GroupNamesSet(dishes2);
    forall m | m in Matching(set1, set2, ratio) ensures Truthy(m.left) || Truthy(m.right) {
      assert m.left.Some? ==> m.left.value in SetOf(set1);
      assert m.right.Some? ==> m.right.value in SetOf(set2);
    }
  }

  /**
   * When both groups have the same set of names the matcher yields nothing,
   * so no record is produced, whatever moved or changed price.
   */
  lemma GroupSameNamesNothing(dishes1: seq<Dish>, dishes2: seq<Dish>, ratio: (string, string) -> int, cutoff: int)
    requires NameSet(dishes1) == NameSet(dishes2)
    ensures GenerateDiffGroup(dishes1, dishes2, ratio, cutoff) == Ok([])
  {
    GroupNamesSet(dishes1);
    GroupNamesSet(dishes2);
  }

  /**
   * A dish whose name parsed to the empty string, dropped from the group: the
   * leftover triple `("", None, 0)` has two false names and the generator
   * fails its `assert` instead of reporting a REMOVE.
   */
  lemma EmptyNameRemovalFails(d: Dish, ratio: (string, string) -> int, cutoff: int)
    requires d.name == ""
    ensures GenerateDiffGroup([d], [], ratio, cutoff) == Err(AssertionError)
  {
    var set1 := GroupNames([d]);
    assert NameOf([d][0]) in LastBy([d], NameOf);
    assert "" in SetOf(set1);
    MatchingUsesEachNameOnce(set1, [], ratio);
    var ms := Matching(set1, [], ratio);
    assert "" in multiset(LeftNames(ms));
    LeftNamesMember(ms, "");
    var m :| m in ms && m.left == Some("");
    MatchingSides(set1, [], ratio);
    assert !Truthy(m.left) && !Truthy(m.right);
    var names1, names2 := LastBy([d], NameOf), LastBy([], NameOf);
    assert GenerateDiffGroup([d], [], ratio, cutoff) == ClassifyAll(ms, names1, names2, cutoff);
    NamelessFails(ms, names1, names2, cutoff, m);
  }

  /** A triple with two false names makes the whole loop fail. */
  lemma NamelessFails(ms: seq<Match>, names1: map<string, Dish>, names2: map<string, Dish>, cutoff: int, m: Match)
    requires Resolves(ms, names1, names2)
    requires m in ms && !Truthy(m.left) && !Truthy(m.right)
    ensures ClassifyAll(ms, names1, names2, cutoff) == Err(AssertionError)
  {
  }

  // ---------------------------------------------------------------------------
  // The group diff as evidently intended: the matcher pairs equal name sets
  // name by name, and names are tested for presence rather than truthiness

  /** Every triple names at least one side. */
  ghost predicate Sided(ms: seq<Match>)
  {
    forall m :: m in ms ==> m.left.Some? || m.right.Some?
  }

  /** The loop body with `is not None` tests: a present name is never mistaken for a missing one. */
  function ClassifyIntended(m: Match, names1: map<string, Dish>, names2: map<string, Dish>, cutoff: int): (r: Option<Change>)
    requires m.left.Some? || m.right.Some?
    requires m.left.Some? ==> m.left.value in names1
    requires m.right.Some? ==> m.right.value in names2
    ensures m.right.None? ==> r == Some(Change(Remove, Some(names1[m.left.value]), None, m.score))
    ensures m.left.None? ==> r == Some(Change(Add, None, Some(names2[m.right.value]), m.score))
  {
    if m.right.None? then Some(Change(Remove, Some(names1[m.left.value]), None, m.score))
    else if m.left.None? then Some(Change(Add, None, Some(names2[m.right.value]), m.score))
    else Compare(names1[m.left.value], names2[m.right.value], m.score, cutoff)
  }

  function ClassifyAllIntended(ms: seq<Match>, names1: map<string, Dish>, names2: map<string, Dish>, cutoff: int): (r: seq<Change>)
    requires Sided(ms) && Resolves(ms, names1, names2)
    ensures |r| <= |ms|
  {
    if ms == [] then []
    else Yielded(ClassifyIntended(ms[0], names1, names2, cutoff)) + ClassifyAllIntended(ms[1..], names1, names2, cutoff)
  }

  /** `generate_diff_group` over the intended matcher: it always completes. */
  function GenerateDiffGroupIntended(dishes1: seq<Dish>, dishes2: seq<Dish>, ratio: (string, string) -> int, cutoff: int): seq<Change>
  {
    var set1, set2 := GroupNames(dishes1), GroupNames(dishes2);
    MatchingIntendedSides(set1, set2, ratio);
    ClassifyAllIntended(MatchingIntended(set1, set2, ratio), LastBy(dishes1, NameOf), LastBy(dishes2, NameOf), cutoff)
  }

  lemma {:induction false} ClassifyAllIntendedEmpty(ms: seq<Match>, names1: map<string, Dish>, names2: map<string, Dish>, cutoff: int)
    requires Sided(ms) && Resolves(ms, names1, names2)
    ensures ClassifyAllIntended(ms, names1, names2, cutoff) == [] <==>
      forall m :: m in ms ==> ClassifyIntended(m, names1, names2, cutoff).None?
  {
    if ms != [] {
      ClassifyAllIntendedEmpty(ms[1..], names1, names2, cutoff);
      assert forall m :: m in ms <==> m == ms[0] || m in ms[1..];
    }
  }

  lemma {:induction false} ClassifyAllIntendedClassified(ms: seq<Match>, names1: map<string, Dish>, names2: map<string, Dish>,
                                                         cutoff: int, dishes1: seq<Dish>, dishes2: seq<Dish>)
    requires Sided(ms) && Resolves(ms, names1, names2)
    requires HeldIn(names1, dishes1) && HeldIn(names2, dishes2)
    ensures forall c :: c in ClassifyAllIntended(ms, names1, names2, cutoff) ==> Classified(c, dishes1, dishes2, cutoff)
  {
    if ms != [] {
      ClassifyAllIntendedClassified(ms[1..], names1, names2, cutoff, dishes1, dishes2);
    }
  }

  /** Every record of the intended group diff is classified as the table says. */
  lemma GroupIntendedChanges(dishes1: seq<Dish>, dishes2: seq<Dish>, ratio: (string, string) -> int, cutoff: int)
    ensures forall c :: c in GenerateDiffGroupIntended(dishes1, dishes2, ratio, cutoff) ==> Classified(c, dishes1, dishes2, cutoff)
  {
    var set1, set2 := GroupNames(dishes1), GroupNames(dishes2);
    MatchingIntendedSides(set1, set2, ratio);
    ClassifyAllIntendedClassified(MatchingIntended(set1, set2, ratio),
      LastBy(dishes1, NameOf), LastBy(dishes2, NameOf), cutoff, dishes1, dishes2);
  }

  /** `keys` lists exactly the keys of `names`, and each dish is filed under its own name. */
  ghost predicate Keyed(keys: seq<string>, names: map<string, Dish>)
  {
    (forall n :: n in keys <==> n in names) && (forall n :: n in names ==> names[n].name == n)
  }

  lemma GroupKeyed(dishes: seq<Dish>)
    ensures Keyed(GroupNames(dishes), LastBy(dishes, NameOf))
  {
  }

  /**
   * The intended group diff reports nothing exactly when the two groups map
   * every name to the same dish.
   */
  lemma GroupIntendedComplete(dishes1: seq<Dish>, dishes2: seq<Dish>, ratio: (string, string) -> int, cutoff: int)
    ensures GenerateDiffGroupIntended(dishes1, dishes2, ratio, cutoff) == [] <==>
      LastBy(dishes1, NameOf) == LastBy(dishes2, NameOf)
  {
    var set1, set2 := GroupNames(dishes1), GroupNames(dishes2);
    var names1, names2 := LastBy(dishes1, NameOf), LastBy(dishes2, NameOf);
    GroupKeyed(dishes1);
    GroupKeyed(dishes2);
    MatchingIntendedSides(set1, set2, ratio);
    var ms := MatchingIntended(set1, set2, ratio);
    ClassifyAllIntendedEmpty(ms, names1, names2, cutoff);
    if names1 == names2 {
      SameMapsQuiet(set1, set2, names1, names2, ratio, cutoff);
    } else if SetOf(set1) == SetOf(set2) {
      SameNamesReported(set1, set2, names1, names2, ratio, cutoff);
    } else {
      OtherNamesReported(set1, set2, names1, names2, ratio, cutoff);
    }
  }

  lemma SameMapsQuiet(set1: seq<string>, set2: seq<string>, names1: map<string, Dish>, names2: map<string, Dish>,
                      ratio: (string, string) -> int, cutoff: int)
    requires Keyed(set1, names1) && Keyed(set2, names2) && names1 == names2
    ensures Sided(MatchingIntended(set1, set2, ratio)) && Resolves(MatchingIntended(set1, set2, ratio), names1, names2)
    ensures forall m :: m in MatchingIntended(set1, set2, ratio) ==> ClassifyIntended(m, names1, names2, cutoff).None?
  {
    MatchingIntendedSides(set1, set2, ratio);
    assert SetOf(set1) == SetOf(set2);
    forall m | m in MatchingIntended(set1, set2, ratio)
      ensures ClassifyIntended(m, names1, names2, cutoff).None?
    {
      MemberIdentity(set1, m);
    }
  }

  lemma SameNamesReported(set1: seq<string>, set2: seq<string>, names1: map<string, Dish>, names2: map<string, Dish>,
                          ratio: (string, string) -> int, cutoff: int)
    requires Keyed(set1, names1) && Keyed(set2, names2) && names1 != names2
    requires SetOf(set1) == SetOf(set2)
    ensures Sided(MatchingIntended(set1, set2, ratio)) && Resolves(MatchingIntended(set1, set2, ratio), names1, names2)
    ensures exists m :: m in MatchingIntended(set1, set2, ratio) && ClassifyIntended(m, names1, names2, cutoff).Some?
  {
    MatchingIntendedSides(set1, set2, ratio);
    var ms := MatchingIntended(set1, set2, ratio);
    assert forall n :: n in names1 <==> n in names2 by {
      forall n ensures n in names1 <==> n in names2 {
        assert n in names1 <==> n in SetOf(set1);
        assert n in names2 <==> n in SetOf(set2);
      }
    }
    var n :| n in names1 && names1[n] != names2[n];
    IdentityNames(set1);
    var i :| 0 <= i < |set1| && set1[i] == n;
    assert ms[i] in ms;
  }

  lemma OtherNamesReported(set1: seq<string>, set2: seq<string>, names1: map<string, Dish>, names2: map<string, Dish>,
                           ratio: (string, string) -> int, cutoff: int)
    requires Keyed(set1, names1) && Keyed(set2, names2)
    requires SetOf(set1) != SetOf(set2)
    ensures Sided(MatchingIntended(set1, set2, ratio)) && Resolves(MatchingIntended(set1, set2, ratio), names1, names2)
    ensures exists m :: m in MatchingIntended(set1, set2, ratio) && ClassifyIntended(m, names1, names2, cutoff).Some?
  {
    MatchingIntendedSides(set1, set2, ratio);
    var ms := Matching(set1, set2, ratio);
    var n := DifferingName(set1, set2);
    MatchingUsesEachNameOnce(set1, set2, ratio);
    var m: Match;
    if n in set1 {
      assert n in multiset(LeftNames(ms));
      LeftNamesMember(ms, n);
      m :| m in ms && m.left == Some(n);
    } else {
      assert n in multiset(RightNames(ms));
      RightNamesMember(ms, n);
      m :| m in ms && m.right == Some(n);
    }
    DifferentNamesReported(m, names1, names2, cutoff);
  }

  /** A triple with one side, or with two different names, is always reported. */
  lemma DifferentNamesReported(m: Match, names1: map<string, Dish>, names2: map<string, Dish>, cutoff: int)
    requires m.left.Some? || m.right.Some?
    requires m.left.Some? ==> m.left.value in names1 && names1[m.left.value].name == m.left.value
    requires m.right.Some? ==> m.right.value in names2 && names2[m.right.value].name == m.right.value
    requires m.left.Some? && m.right.Some? ==> m.left.value != m.right.value
    ensures ClassifyIntended(m, names1, names2, cutoff).Some?
  {
  }

  /** A name on exactly one side of two different name sets. */
  lemma DifferingName(set1: seq<string>, set2: seq<string>) returns (n: string)
    requires SetOf(set1) != SetOf(set2)
    ensures (n in set1 && n !in set2) || (n in set2 && n !in set1)
  {
    if exists x :: x in set1 && x !in set2 {
      n :| n in set1 && n !in set2;
    } else {
      n :| n in SetOf(set2) && n !in SetOf(set1);
    }
  }

  /**
   * A dish that keeps its name but changes in any other field (here moving
   * between sibling categories or changing price): as written the group
   * diff reports nothing.
   */
  lemma MovedDishUnreported(a: Dish, b: Dish, ratio: (string, string) -> int, cutoff: int)
    requires a.name == b.name && a != b
    ensures GenerateDiffGroup([a], [b], ratio, cutoff) == Ok([])
  {
    assert NameSet([a]) == {a.name} == NameSet([b]);
    GroupSameNamesNothing([a], [b], ratio, cutoff);
  }

  /** The same dish change, as intended: an ATTR record. */
  lemma MovedDishReportedIntended(a: Dish, b: Dish, ratio: (string, string) -> int, cutoff: int)
    requires a.name == b.name && a != b
    ensures GenerateDiffGroupIntended([a], [b], ratio, cutoff) == [Change(Attr, Some(a), Some(b), 100)]
  {
    assert KeysOf([a], NameOf) == [a.name];
    assert KeysOf([b], NameOf) == [a.name];
    assert LastBy([a], NameOf) == map[a.name := a];
    assert LastBy([b], NameOf) == map[a.name := b];
    IdentityNames([a.name]);
  }

  /** The same empty-named dish, dropped: the intended group diff reports its removal. */
  lemma EmptyNameRemovalIntended(d: Dish, ratio: (string, string) -> int, cutoff: int)
    requires d.name == ""
    ensures GenerateDiffGroupIntended([d], [], ratio, cutoff) == [Change(Remove, Some(d), None, 0)]
  {
    OneDishGroup(d);
    assert GroupNames([]) == [];
    OnlyOldName("", ratio);
    var ms := [Match(Some(""), None, 0)];
    assert ClassifyAllIntended(ms, map["" := d], LastBy([], NameOf), cutoff) == [Change(Remove, Some(d), None, 0)] by {
      assert ms[1..] == [];
    }
  }

  /** A group of one dish has its name as its only name. */
  lemma OneDishGroup(d: Dish)
    ensures GroupNames([d]) == [d.name] && LastBy([d], NameOf) == map[d.name := d]
  {
    assert KeysOf([d], NameOf) == [d.name];
  }

  /** A name with nothing left on the other side is matched with nothing. */
  lemma OnlyOldName(x: string, ratio: (string, string) -> int)
    ensures MatchingIntended([x], [], ratio) == [Match(Some(x), None, 0)]
  {
    var set1, set2: seq<string> := [x], [];
    assert SetOf(set1) != SetOf(set2) by { assert x in SetOf(set1); }
    var ts := Ranked(set1, set2, ratio);
    NoMembers(ts);
    assert Walk(ts, set1, set2) == Walked([], [x], []);
    assert LeftOnly([x]) == [Match(Some(x), None, 0)] + LeftOnly([]);
  }

  // ---------------------------------------------------------------------------
  // generate_diff_week

  /** `generate_diff_week`, with the group diff as written. */
  function GenerateDiffWeek(menu1: seq<Dish>, menu2: seq<Dish>, ratio: (string, string) -> int): Result<seq<Change>>
  {
    WeekDiff(menu1, menu2, (a, b) => GenerateDiffGroup(a, b, ratio, Cutoff))
  }

  /** `generate_diff_week` over the intended group diff. */
  function GenerateDiffWeekIntended(menu1: seq<Dish>, menu2: seq<Dish>, ratio: (string, string) -> int): Result<seq<Change>>
  {
    WeekDiff(menu1, menu2, (a, b) => Ok(GenerateDiffGroupIntended(a, b, ratio, Cutoff)))
  }

  /** Both group diffs yield only classified records drawn from the two groups they are given. */
  lemma GroupDiffsSound(ratio: (string, string) -> int)
    ensures GroupSound((a, b) => GenerateDiffGroup(a, b, ratio, Cutoff), SidesOf, c => Kinded(c, Cutoff))
    ensures GroupSound((a, b) => Ok(GenerateDiffGroupIntended(a, b, ratio, Cutoff)), SidesOf, c => Kinded(c, Cutoff))
  {
    forall a, b ensures GenerateDiffGroup(a, b, ratio, Cutoff).Ok? ==>
      forall c :: c in GenerateDiffGroup(a, b, ratio, Cutoff).value ==> Classified(c, a, b, Cutoff)
    {
      GroupChanges(a, b, ratio, Cutoff);
    }
    forall a, b ensures forall c :: c in GenerateDiffGroupIntended(a, b, ratio, Cutoff) ==> Classified(c, a, b, Cutoff) {
      GroupIntendedChanges(a, b, ratio, Cutoff);
    }
  }

  /**
   * Every record of the week diff is classified, takes its old dish from the
   * old menu and its new dish from the new one, and is about a single date
   * of the OLD menu.
   */
  lemma WeekDiffChanges(menu1: seq<Dish>, menu2: seq<Dish>, ratio: (string, string) -> int)
    ensures GenerateDiffWeek(menu1, menu2, ratio).Ok? ==>
      forall c :: c in GenerateDiffWeek(menu1, menu2, ratio).value ==>
        Classified(c, menu1, menu2, Cutoff) && SideDate(SidesOf(c)) in DatesOf(menu1) && OneDay(SidesOf(c))
  {
    GroupDiffsSound(ratio);
    WeekChanges(menu1, menu2, (a, b) => GenerateDiffGroup(a, b, ratio, Cutoff), SidesOf, c => Kinded(c, Cutoff));
  }

  /** The same holds with the intended group diff, which moreover never fails. */
  lemma WeekIntendedChanges(menu1: seq<Dish>, menu2: seq<Dish>, ratio: (string, string) -> int)
    ensures GenerateDiffWeekIntended(menu1, menu2, ratio).Ok?
    ensures forall c :: c in GenerateDiffWeekIntended(menu1, menu2, ratio).value ==>
      Classified(c, menu1, menu2, Cutoff) && SideDate(SidesOf(c)) in DatesOf(menu1) && OneDay(SidesOf(c))
  {
    var group: GroupDiff<Change> := (a, b) => Ok(GenerateDiffGroupIntended(a, b, ratio, Cutoff));
    GroupDiffsSound(ratio);
    WeekChanges(menu1, menu2, group, SidesOf, c => Kinded(c, Cutoff));
    WeekTotal(menu1, menu2, group);
  }
}
