/**
 * The dish record both diff engines work on, and the field-wise difference
 * between two dishes that every `Change` carries.
 *
 * The date is a day number, prices are integer cents (the feed parses them
 * from decimal text; only their equality matters here), and the two tag
 * lists are `Counter`s, i.e. multisets of strings.
 */
module Dishes {
  import opened Common

  datatype Dish = Dish(
    datum: int,
    name: string,
    warengruppe: string,
    kennz: multiset<string>,
    zusatz: multiset<string>,
    stud: int,
    bed: int,
    gast: int)

  /** The record's field names, in declaration order. */
  datatype Field = Datum | Name | Warengruppe | Kennz | Zusatz | Stud | Bed | Gast

  const AllFields: seq<Field> := [Datum, Name, Warengruppe, Kennz, Zusatz, Stud, Bed, Gast]

  datatype Value = IntValue(i: int) | TextValue(s: string) | TagsValue(tags: multiset<string>)

  /** `dish[idx]` for the index of field `f`. */
  function FieldOf(d: Dish, f: Field): Value
  {
    match f
    case Datum => IntValue(d.datum)
    case Name => TextValue(d.name)
    case Warengruppe => TextValue(d.warengruppe)
    case Kennz => TagsValue(d.kennz)
    case Zusatz => TagsValue(d.zusatz)
    case Stud => IntValue(d.stud)
    case Bed => IntValue(d.bed)
    case Gast => IntValue(d.gast)
  }

  /** Tuple equality: two dishes are equal exactly when all their fields are. */
  lemma DishEquality(a: Dish, b: Dish)
    ensures a == b <==> forall f: Field :: FieldOf(a, f) == FieldOf(b, f)
  {
    if forall f: Field :: FieldOf(a, f) == FieldOf(b, f) {
      assert FieldOf(a, Datum) == FieldOf(b, Datum);
      assert FieldOf(a, Name) == FieldOf(b, Name);
      assert FieldOf(a, Warengruppe) == FieldOf(b, Warengruppe);
      assert FieldOf(a, Kennz) == FieldOf(b, Kennz);
      assert FieldOf(a, Zusatz) == FieldOf(b, Zusatz);
      assert FieldOf(a, Stud) == FieldOf(b, Stud);
      assert FieldOf(a, Bed) == FieldOf(b, Bed);
      assert FieldOf(a, Gast) == FieldOf(b, Gast);
    }
  }

  /**
   * `Change.diff`: empty when either side is absent, otherwise every field in
   * which the two dishes differ, mapped to its (old, new) values.
   */
  function Diff(from: Option<Dish>, to: Option<Dish>): (r: map<Field, (Value, Value)>)
    ensures from.None? || to.None? ==> r == map[]
    ensures from.Some? && to.Some? ==>
      forall f: Field :: (f in r <==> FieldOf(from.value, f) != FieldOf(to.value, f))
    ensures forall f :: f in r ==> r[f] == (FieldOf(from.value, f), FieldOf(to.value, f))
  {
    if from.None? || to.None? then map[]
    else map f: Field | f in AllFields && FieldOf(from.value, f) != FieldOf(to.value, f)
      :: (FieldOf(from.value, f), FieldOf(to.value, f))
  }

  /** A two-sided diff is empty exactly when the two dishes are equal. */
  lemma DiffEmptyIffEqual(a: Dish, b: Dish)
    ensures Diff(Some(a), Some(b)) == map[] <==> a == b
  {
    DishEquality(a, b);
    if a != b {
      var f: Field :| FieldOf(a, f) != FieldOf(b, f);
      assert f in Diff(Some(a), Some(b));
    }
  }

  /**
   * One row of the menu CSV, with the date and the three prices already
   * converted (strptime and float parsing are not part of this model).
   */
  datatype Row = Row(datum: int, name: string, warengruppe: string, kennz: string, stud: int, bed: int, gast: int)

  /** `Counter(row['kennz'].split(",") if row['kennz'] else [])`: the pieces are not stripped. */
  function ColumnTags(column: string): (r: multiset<string>)
    ensures column == "" ==> r == multiset{}
    ensures column != "" ==> |r| == |Split(column, ',')|
    ensures forall t :: t in r ==> ',' !in t
  {
    if column == "" then multiset{} else multiset(Split(column, ','))
  }
}
