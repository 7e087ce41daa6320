/**
 * Python's `sorted(..., key=...)` and `list.sort(key=...)`: a stable sort by a
 * total preorder. Every sort in the modelled code is one of these, either by a
 * key tuple (category rank, category code) or by a score triple.
 */
module Sorting {

  /** `le` is total and transitive, as the comparison of Python key tuples is. */
  ghost predicate TotalPreorder<T(!new)>(le: (T, T) -> bool)
  {
    (forall a, b :: le(a, b) || le(b, a)) &&
    (forall a, b, c :: le(a, b) && le(b, c) ==> le(a, c))
  }

  predicate SortedBy<T>(s: seq<T>, le: (T, T) -> bool)
  {
    forall i, j :: 0 <= i < j < |s| ==> le(s[i], s[j])
  }

  /**
   * Inserts `x` before the first element that is not smaller; `x` lands
   * before every element it ties with.
   */
  function Insert<T>(x: T, s: seq<T>, le: (T, T) -> bool): (r: seq<T>)
    ensures multiset(r) == multiset(s) + multiset{x}
    ensures |r| == |s| + 1
  {
    if s == [] then [x]
    else if le(x, s[0]) then [x] + s
    else
      assert s == [s[0]] + s[1..];
      [s[0]] + Insert(x, s[1..], le)
  }

  lemma {:induction false} InsertSorted<T(!new)>(x: T, s: seq<T>, le: (T, T) -> bool)
    requires TotalPreorder(le)
    requires SortedBy(s, le)
    ensures SortedBy(Insert(x, s, le), le)
    ensures forall y :: y in Insert(x, s, le) ==> y == x || y in s
  {
    if s == [] {
    } else if le(x, s[0]) {
      assert forall j :: 0 <= j < |s| ==> le(s[0], s[j]);
    } else {
      InsertSorted(x, s[1..], le);
      var r := Insert(x, s[1..], le);
      assert forall y :: y in r ==> y == x || y in s[1..];
      assert forall y :: y in r ==> le(s[0], y);
    }
  }

  /** Insertion sort: the head goes before its ties in the sorted tail, so the sort is stable. */
  function Sort<T(!new)>(s: seq<T>, le: (T, T) -> bool): (r: seq<T>)
    requires TotalPreorder(le)
    ensures |r| == |s|
    ensures SortedBy(r, le)
    ensures multiset(r) == multiset(s)
  {
    if s == [] then []
    else
      var t := Sort(s[1..], le);
      InsertSorted(s[0], t, le);
      HeadAdded(s, t, Insert(s[0], t, le));
      Insert(s[0], t, le)
  }

  /** Adding the head back to a permutation of the tail gives a permutation of the whole. */
  lemma HeadAdded<T>(s: seq<T>, t: seq<T>, r: seq<T>)
    requires s != [] && multiset(t) == multiset(s[1..])
    requires multiset(r) == multiset(t) + multiset{s[0]}
    ensures multiset(r) == multiset(s)
  {
    assert s == [s[0]] + s[1..];
  }

  /** Whether `a` and `b` tie: each is at most the other. */
  predicate Tie<T>(a: T, b: T, le: (T, T) -> bool)
  {
    le(a, b) && le(b, a)
  }

  /** The elements of `s` that tie with `x`, in their order in `s`. */
  function TiesOf<T>(s: seq<T>, x: T, le: (T, T) -> bool): seq<T>
  {
    if s == [] then [] else (if Tie(s[0], x, le) then [s[0]] else []) + TiesOf(s[1..], x, le)
  }

  /** Inserting `y` puts it before everything it ties with. */
  lemma {:induction false} InsertTies<T(!new)>(y: T, s: seq<T>, x: T, le: (T, T) -> bool)
    requires TotalPreorder(le)
    ensures TiesOf(Insert(y, s, le), x, le) == (if Tie(y, x, le) then [y] else []) + TiesOf(s, x, le)
  {
    if s != [] && !le(y, s[0]) {
      InsertTies(y, s[1..], x, le);
      assert !(Tie(y, x, le) && Tie(s[0], x, le));
    }
  }

  /** The sort is stable: elements that tie keep the order they had. */
  lemma {:induction false} SortStable<T(!new)>(s: seq<T>, x: T, le: (T, T) -> bool)
    requires TotalPreorder(le)
    ensures TiesOf(Sort(s, le), x, le) == TiesOf(s, x, le)
  {
    if s != [] {
      SortStable(s[1..], x, le);
      InsertTies(s[0], Sort(s[1..], le), x, le);
    }
  }

  lemma SortedSameElements<T(!new)>(s: seq<T>, le: (T, T) -> bool, x: T)
    requires TotalPreorder(le)
    ensures x in Sort(s, le) <==> x in s
  {
    assert x in Sort(s, le) <==> x in multiset(Sort(s, le));
  }
}
