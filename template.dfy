/**
 * The list filters the menu templates apply to a day's dishes
 * (`stwno-cmds/stwno_cmds/template.py`, `mensabot/format.py`), and the check
 * that a template directory is complete.
 *
 * Every filter keeps, in their order, the dishes that pass a test; each
 * `_not` filter keeps exactly the others.
 */
module Templates {
  import opened Common
  import opened Dishes

  /** A filter's argument as a template passes it: one comma-separated text, or a list. */
  datatype FilterArg = Text(text: string) | Items(items: seq<string>)

  /** A text argument is split on ","; a list is used as it is. */
  function Args(a: FilterArg): (r: seq<string>)
    ensures a.Text? ==> r == Split(a.text, ',') && |r| >= 1
    ensures a.Items? ==> r == a.items
  {
    match a
    case Text(t) => Split(t, ',')
    case Items(l) => l
  }

  // ---------------------------------------------------------------------------
  // The tests

  predicate InGroups(d: Dish, groups: seq<string>)
  {
    exists w :: w in groups && StartsWith(d.warengruppe, w)
  }

  predicate HasAnyTag(tags: multiset<string>, wanted: seq<string>)
  {
    exists k :: k in wanted && tags[k] > 0
  }

  /** Python's `sub in name.lower()` for any of the listed substrings. */
  predicate HasKetchup(d: Dish, words: seq<string>)
  {
    exists w :: w in words && Contains(Lower(d.name), w)
  }

  // ---------------------------------------------------------------------------
  // The filters

  /** `filter_warengruppe`: dishes whose category code starts with one of the prefixes. */
  function FilterWarengruppe(dishes: seq<Dish>, arg: FilterArg): (r: seq<Dish>)
    ensures forall d :: d in r <==> d in dishes && InGroups(d, Args(arg))
    ensures multiset(r) <= multiset(dishes)
  {
    var groups := Args(arg);
    var keep := d => InGroups(d, groups);
    FilterSubMultiset(dishes, keep);
    Filter(dishes, keep)
  }

  /** `filter_warengruppe_not`: the dishes `FilterWarengruppe` drops. */
  function FilterWarengruppeNot(dishes: seq<Dish>, arg: FilterArg): (r: seq<Dish>)
    ensures forall d :: d in r <==> d in dishes && !InGroups(d, Args(arg))
    ensures multiset(r) <= multiset(dishes)
  {
    var groups := Args(arg);
    var keep := d => !InGroups(d, groups);
    FilterSubMultiset(dishes, keep);
    Filter(dishes, keep)
  }

  /** `filter_kennz`: dishes carrying at least one of the dietary tags. */
  function FilterKennz(dishes: seq<Dish>, arg: FilterArg): (r: seq<Dish>)
    ensures forall d :: d in r <==> d in dishes && HasAnyTag(d.kennz, Args(arg))
    ensures multiset(r) <= multiset(dishes)
  {
    var wanted := Args(arg);
    var keep := (d: Dish) => HasAnyTag(d.kennz, wanted);
    FilterSubMultiset(dishes, keep);
    Filter(dishes, keep)
  }

  /** `filter_kennz_not`: dishes carrying none of the dietary tags. */
  function FilterKennzNot(dishes: seq<Dish>, arg: FilterArg): (r: seq<Dish>)
    ensures forall d :: d in r <==> d in dishes && !HasAnyTag(d.kennz, Args(arg))
    ensures multiset(r) <= multiset(dishes)
  {
    var wanted := Args(arg);
    var keep := (d: Dish) => !HasAnyTag(d.kennz, wanted);
    FilterSubMultiset(dishes, keep);
    Filter(dishes, keep)
  }

  /** `filter_zusatz`: dishes carrying at least one of the ingredient tags. */
  function FilterZusatz(dishes: seq<Dish>, arg: FilterArg): (r: seq<Dish>)
    ensures forall d :: d in r <==> d in dishes && HasAnyTag(d.zusatz, Args(arg))
    ensures multiset(r) <= multiset(dishes)
  {
    var wanted := Args(arg);
    var keep := (d: Dish) => HasAnyTag(d.zusatz, wanted);
    FilterSubMultiset(dishes, keep);
    Filter(dishes, keep)
  }

  /** `filter_zusatz_not`: dishes carrying none of the ingredient tags. */
  function FilterZusatzNot(dishes: seq<Dish>, arg: FilterArg): (r: seq<Dish>)
    ensures forall d :: d in r <==> d in dishes && !HasAnyTag(d.zusatz, Args(arg))
    ensures multiset(r) <= multiset(dishes)
  {
    var wanted := Args(arg);
    var keep := (d: Dish) => !HasAnyTag(d.zusatz, wanted);
    FilterSubMultiset(dishes, keep);
    Filter(dishes, keep)
  }

  /** `filter_ketchup`: dishes whose lower-cased name contains one of the words. */
  function FilterKetchup(dishes: seq<Dish>, words: seq<string>): (r: seq<Dish>)
    ensures forall d :: d in r <==> d in dishes && HasKetchup(d, words)
    ensures multiset(r) <= multiset(dishes)
  {
    var keep := d => HasKetchup(d, words);
    FilterSubMultiset(dishes, keep);
    Filter(dishes, keep)
  }

  // ---------------------------------------------------------------------------
  // Each filter keeps the list's order: it works part by part, one dish at a time

  lemma WarengruppeInOrder(a: seq<Dish>, b: seq<Dish>, d: Dish, arg: FilterArg)
    ensures FilterWarengruppe(a + b, arg) == FilterWarengruppe(a, arg) + FilterWarengruppe(b, arg)
    ensures FilterWarengruppe([d], arg) == if InGroups(d, Args(arg)) then [d] else []
  {
    var groups := Args(arg);
    FilterConcat(a, b, x => InGroups(x, groups));
  }

  lemma WarengruppeNotInOrder(a: seq<Dish>, b: seq<Dish>, d: Dish, arg: FilterArg)
    ensures FilterWarengruppeNot(a + b, arg) == FilterWarengruppeNot(a, arg) + FilterWarengruppeNot(b, arg)
    ensures FilterWarengruppeNot([d], arg) == if !InGroups(d, Args(arg)) then [d] else []
  {
    var groups := Args(arg);
    FilterConcat(a, b, x => !InGroups(x, groups));
  }

  lemma KennzInOrder(a: seq<Dish>, b: seq<Dish>, d: Dish, arg: FilterArg)
    ensures FilterKennz(a + b, arg) == FilterKennz(a, arg) + FilterKennz(b, arg)
    ensures FilterKennz([d], arg) == if HasAnyTag(d.kennz, Args(arg)) then [d] else []
  {
    var wanted := Args(arg);
    FilterConcat(a, b, (x: Dish) => HasAnyTag(x.kennz, wanted));
  }

  lemma KennzNotInOrder(a: seq<Dish>, b: seq<Dish>, d: Dish, arg: FilterArg)
    ensures FilterKennzNot(a + b, arg) == FilterKennzNot(a, arg) + FilterKennzNot(b, arg)
    ensures FilterKennzNot([d], arg) == if !HasAnyTag(d.kennz, Args(arg)) then [d] else []
  {
    var wanted := Args(arg);
    FilterConcat(a, b, (x: Dish) => !HasAnyTag(x.kennz, wanted));
  }

  lemma ZusatzInOrder(a: seq<Dish>, b: seq<Dish>, d: Dish, arg: FilterArg)
    ensures FilterZusatz(a + b, arg) == FilterZusatz(a, arg) + FilterZusatz(b, arg)
    ensures FilterZusatz([d], arg) == if HasAnyTag(d.zusatz, Args(arg)) then [d] else []
  {
    var wanted := Args(arg);
    FilterConcat(a, b, (x: Dish) => HasAnyTag(x.zusatz, wanted));
  }

  lemma ZusatzNotInOrder(a: seq<Dish>, b: seq<Dish>, d: Dish, arg: FilterArg)
    ensures FilterZusatzNot(a + b, arg) == FilterZusatzNot(a, arg) + FilterZusatzNot(b, arg)
    ensures FilterZusatzNot([d], arg) == if !HasAnyTag(d.zusatz, Args(arg)) then [d] else []
  {
    var wanted := Args(arg);
    FilterConcat(a, b, (x: Dish) => !HasAnyTag(x.zusatz, wanted));
  }

  lemma KetchupInOrder(a: seq<Dish>, b: seq<Dish>, d: Dish, words: seq<string>)
    ensures FilterKetchup(a + b, words) == FilterKetchup(a, words) + FilterKetchup(b, words)
    ensures FilterKetchup([d], words) == if HasKetchup(d, words) then [d] else []
  {
    FilterConcat(a, b, x => HasKetchup(x, words));
  }

  // ---------------------------------------------------------------------------
  // Each filter and its `_not` twin split the list

  lemma WarengruppePartition(dishes: seq<Dish>, arg: FilterArg)
    ensures |FilterWarengruppe(dishes, arg)| + |FilterWarengruppeNot(dishes, arg)| == |dishes|
    ensures multiset(FilterWarengruppe(dishes, arg)) + multiset(FilterWarengruppeNot(dishes, arg)) == multiset(dishes)
  {
    var groups := Args(arg);
    FilterComplement(dishes, d => InGroups(d, groups), d => !InGroups(d, groups));
  }

  lemma KennzPartition(dishes: seq<Dish>, arg: FilterArg)
    ensures |FilterKennz(dishes, arg)| + |FilterKennzNot(dishes, arg)| == |dishes|
    ensures multiset(FilterKennz(dishes, arg)) + multiset(FilterKennzNot(dishes, arg)) == multiset(dishes)
  {
    var wanted := Args(arg);
    FilterComplement(dishes, (d: Dish) => HasAnyTag(d.kennz, wanted), (d: Dish) => !HasAnyTag(d.kennz, wanted));
  }

  lemma ZusatzPartition(dishes: seq<Dish>, arg: FilterArg)
    ensures |FilterZusatz(dishes, arg)| + |FilterZusatzNot(dishes, arg)| == |dishes|
    ensures multiset(FilterZusatz(dishes, arg)) + multiset(FilterZusatzNot(dishes, arg)) == multiset(dishes)
  {
    var wanted := Args(arg);
    FilterComplement(dishes, (d: Dish) => HasAnyTag(d.zusatz, wanted), (d: Dish) => !HasAnyTag(d.zusatz, wanted));
  }

  /** The empty text is the prefix list `[""]`, which every category starts with. */
  lemma EmptyGroupKeepsAll(dishes: seq<Dish>)
    ensures FilterWarengruppe(dishes, Text("")) == dishes
    ensures FilterWarengruppeNot(dishes, Text("")) == []
  {
    assert Args(Text("")) == [""];
    forall d | d in dishes ensures InGroups(d, [""]) {
      assert StartsWith(d.warengruppe, "");
    }
    FilterAll(dishes, d => InGroups(d, [""]));
    FilterNone(dishes, d => !InGroups(d, [""]));
  }

  // ---------------------------------------------------------------------------
  // The ketchup word lists

  /** The word list of the command-line templates. */
  const KetchupWords: seq<string> :=
    ["kartoffel", "potato", "pommes", "twister", "kroketten", "rösti", "schnitzel", "cordon", "burger", "fries"]

  /**
   * The older bot's list as written: its "rösti" was stored with a broken
   * character encoding and reads "r√∂sti".
   */
  const BotKetchupWordsAsWritten: seq<string> :=
    ["kartoffel", "potato", "pommes", "twister", "kroketten", "r√∂sti", "schnitzel", "cordon"]

  /** The older bot's list with "rösti" spelt as intended. */
  const BotKetchupWords: seq<string> :=
    ["kartoffel", "potato", "pommes", "twister", "kroketten", "rösti", "schnitzel", "cordon"]

  /** A dish called "Rösti" gets no ketchup from the list as written. */
  lemma RoestiMissedAsWritten(d: Dish)
    requires d.name == "Rösti"
    ensures !HasKetchup(d, BotKetchupWordsAsWritten)
    ensures FilterKetchup([d], BotKetchupWordsAsWritten) == []
  {
    forall w | w in BotKetchupWordsAsWritten ensures !Contains(Lower(d.name), w) {
      ContainsLonger(Lower(d.name), w);
    }
    FilterNone([d], e => HasKetchup(e, BotKetchupWordsAsWritten));
  }

  /** With the intended spelling, and in the newer list, it does. */
  lemma RoestiFound(d: Dish)
    requires d.name == "Rösti"
    ensures HasKetchup(d, BotKetchupWords) && HasKetchup(d, KetchupWords)
    ensures FilterKetchup([d], BotKetchupWords) == [d]
  {
    var l := Lower(d.name);
    assert l == "rösti" by {
      assert l[0] == LowerChar('R') == 'r';
    }
    assert StartsWith(l, "rösti");
    assert "rösti" in BotKetchupWords && "rösti" in KetchupWords;
    FilterAll([d], e => HasKetchup(e, BotKetchupWords));
  }

  /** The intended list differs from the one as written only in that word. */
  lemma BotListsDifferInOneWord()
    ensures |BotKetchupWords| == |BotKetchupWordsAsWritten|
    ensures forall i :: 0 <= i < |BotKetchupWords| && i != 5 ==> BotKetchupWords[i] == BotKetchupWordsAsWritten[i]
    ensures BotKetchupWords[5] != BotKetchupWordsAsWritten[5]
  {
    assert |BotKetchupWords[5]| != |BotKetchupWordsAsWritten[5]|;
  }

  // ---------------------------------------------------------------------------
  // Template directories

  const UnknownTemplate: string := "Unknown template '"

  /**
   * `check_legal_template`: no directory is accepted as "none"; a directory
   * is accepted exactly when its menu, opening-times and diff templates all
   * exist (`found` stands for the template loader).
   */
  function CheckLegalTemplate(dir: Option<string>, found: string -> bool): (r: Result<Option<string>>)
    ensures dir.None? ==> r == Ok(None)
    ensures dir.Some? && r.Ok? ==> r.value == dir
    ensures dir.Some? ==>
      (r.Ok? <==> found(dir.value + "/menu.md") && found(dir.value + "/open.md") && found(dir.value + "/diff.md"))
    ensures r.Err? ==> r.error == ValueError(UnknownTemplate + dir.value + "'. Try 'de' or 'en'.")
  {
    match dir
    case None => Ok(None)
    case Some(d) =>
      if found(d + "/menu.md") && found(d + "/open.md") && found(d + "/diff.md") then Ok(Some(d))
      else Err(ValueError(UnknownTemplate + d + "'. Try 'de' or 'en'."))
  }
}
