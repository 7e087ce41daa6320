/**
 * `fuzzy_set_match` from stwno_api/menu_parser.py: pairs the dish names of an
 * old and a new category group greedily, highest similarity first.
 *
 * All (old, new) name pairs are scored, sorted by descending
 * (score, old name, new name), and walked once; a pair is taken when both of
 * its names are still free, and the walk stops as soon as either side has run
 * out. Names left over are emitted alone with score 0, old ones first.
 *
 * The similarity `ratio` is a parameter (fuzzywuzzy's `fuzz.ratio` is not part
 * of this model). Python sets have no defined iteration order; the leftovers
 * keep the order of the input here.
 */
module FuzzyMatch {
  import opened Common
  import opened Sorting

  /** One `(ratio(str1, str2), str1, str2)` tuple. */
  datatype Scored = Scored(score: int, left: string, right: string)

  /** One yielded triple `(str1, str2, r)`; `None` stands for Python's `None`. */
  datatype Match = Match(left: Option<string>, right: Option<string>, score: int)

  /** Python's `<` on `(int, str, str)` tuples. */
  predicate ScoredLess(x: Scored, y: Scored)
  {
    x.score < y.score ||
    (x.score == y.score && (StrLess(x.left, y.left) || (x.left == y.left && StrLess(x.right, y.right))))
  }

  /** The order of `sorted(..., reverse=True)`: `x` may precede `y` when `y` is not greater. */
  predicate Descending(x: Scored, y: Scored)
  {
    !ScoredLess(x, y)
  }

  lemma ScoredLessTotal(x: Scored, y: Scored)
    ensures x == y || ScoredLess(x, y) || ScoredLess(y, x)
    ensures !(ScoredLess(x, y) && ScoredLess(y, x))
  {
    StrLessTotal(x.left, y.left);
    StrLessTotal(x.right, y.right);
    StrLessAsymmetric(x.left, y.left);
    StrLessAsymmetric(x.right, y.right);
  }

  lemma DescendingIsTotalPreorder()
    ensures TotalPreorder(Descending)
  {
    forall x, y
      ensures Descending(x, y) || Descending(y, x)
    {
      ScoredLessTotal(x, y);
    }
    forall x, y, z | Descending(x, y) && Descending(y, z)
      ensures Descending(x, z)
    {
      ScoredLessTotal(x, y);
      ScoredLessTotal(y, z);
      ScoredLessTotal(x, z);
      if ScoredLess(x, z) {
        // z > x >= y: then y < z, contradicting Descending(y, z)
        if x == y {
        } else {
          assert ScoredLess(y, x);
          if y.score < x.score || x.score < z.score {
          } else if StrLess(y.left, x.left) && StrLess(x.left, z.left) {
            StrLessTransitive(y.left, x.left, z.left);
          } else if StrLess(y.left, x.left) {
          } else if StrLess(x.left, z.left) {
          } else {
            StrLessTransitive(y.right, x.right, z.right);
          }
        }
      }
    }
  }

  /** `[(ratio(str1, str2), str1, str2) for str1 in set1 for str2 in set2]`. */
  function AllScored(set1: seq<string>, set2: seq<string>, ratio: (string, string) -> int): (r: seq<Scored>)
    ensures forall x :: x in r <==> x.left in set1 && x.right in set2 && x.score == ratio(x.left, x.right)
  {
    if set1 == [] then []
    else
      var row := seq(|set2|, j requires 0 <= j < |set2| => Scored(ratio(set1[0], set2[j]), set1[0], set2[j]));
      assert forall x :: x in row <==> x.left == set1[0] && x.right in set2 && x.score == ratio(x.left, x.right) by {
        forall x: Scored | x.left == set1[0] && x.right in set2 && x.score == ratio(x.left, x.right)
          ensures x in row
        {
          var j :| 0 <= j < |set2| && set2[j] == x.right;
          assert row[j] == x;
        }
      }
      row + AllScored(set1[1..], set2, ratio)
  }

  /** The scored pairs in the order the loop walks them. */
  function Ranked(set1: seq<string>, set2: seq<string>, ratio: (string, string) -> int): (r: seq<Scored>)
    ensures SortedBy(r, Descending)
    ensures forall x :: x in r <==> x.left in set1 && x.right in set2 && x.score == ratio(x.left, x.right)
  {
    DescendingIsTotalPreorder();
    var all := AllScored(set1, set2, ratio);
    var r := Sort(all, Descending);
    assert forall x :: x in r <==> x in multiset(r);
    assert forall x :: x in all <==> x in multiset(all);
    r
  }

  /** `set.remove(x)` on a set held as a sequence without duplicates. */
  function Remove(s: seq<string>, x: string): (r: seq<string>)
    ensures x in s ==> multiset(r) == multiset(s) - multiset{x}
    ensures x !in s ==> r == s
    ensures forall y :: y in r ==> y in s
  {
    if s == [] then []
    else
      assert s == [s[0]] + s[1..];
      if s[0] == x then s[1..] else [s[0]] + Remove(s[1..], x)
  }

  lemma RemoveGone(s: seq<string>, x: string, y: string)
    requires NoDuplicates(s)
    ensures y in Remove(s, x) <==> y in s && y != x
    ensures NoDuplicates(Remove(s, x))
  {
    if x in s {
      assert multiset(Remove(s, x)) == multiset(s) - multiset{x};
      assert multiset(s)[x] == 1 by { DistinctCount(s, x); }
      assert y in Remove(s, x) <==> y in multiset(Remove(s, x));
      DistinctCountBack(Remove(s, x), multiset(s) - multiset{x}, s);
    }
  }

  lemma {:induction false} DistinctCount(s: seq<string>, x: string)
    requires NoDuplicates(s)
    ensures multiset(s)[x] == if x in s then 1 else 0
  {
    if s != [] {
      var t := s[..|s| - 1];
      assert s == t + [s[|s| - 1]];
      DistinctCount(t, x);
      assert x in s <==> x in t || x == s[|s| - 1];
    }
  }

  lemma {:induction false} CountOneDistinct(s: seq<string>)
    requires forall x :: multiset(s)[x] <= 1
    ensures NoDuplicates(s)
  {
    if s != [] {
      var t := s[..|s| - 1];
      assert s == t + [s[|s| - 1]];
      assert multiset(s) == multiset(t) + multiset{s[|s| - 1]};
      forall x ensures multiset(t)[x] <= 1 { assert multiset(s)[x] <= 1; }
      CountOneDistinct(t);
      assert multiset(s)[s[|s| - 1]] <= 1;
      assert s[|s| - 1] !in t;
    }
  }

  lemma DistinctCountBack(r: seq<string>, m: multiset<string>, s: seq<string>)
    requires NoDuplicates(s) && multiset(r) == m && m <= multiset(s)
    ensures NoDuplicates(r)
  {
    forall x ensures multiset(r)[x] <= 1 { DistinctCount(s, x); }
    CountOneDistinct(r);
  }

  /** The state after the sorted walk: the pairs taken and the names still free on each side. */
  datatype Walked = Walked(pairs: seq<Scored>, rest1: seq<string>, rest2: seq<string>)

  /** The `for r, str1, str2 in ratios` loop, from the remaining sorted tuples `ts`. */
  function Walk(ts: seq<Scored>, set1: seq<string>, set2: seq<string>): Walked
  {
    if ts == [] || set1 == [] || set2 == [] then Walked([], set1, set2)
    else if ts[0].left in set1 && ts[0].right in set2 then
      var w := Walk(ts[1..], Remove(set1, ts[0].left), Remove(set2, ts[0].right));
      Prepend([ts[0]], w)
    else Walk(ts[1..], set1, set2)
  }

  /** The walk from some point on, after the pairs `ps` taken before it. */
  function Prepend(ps: seq<Scored>, w: Walked): Walked
  {
    w.(pairs := ps + w.pairs)
  }

  lemma PrependTwice(ps: seq<Scored>, qs: seq<Scored>, w: Walked)
    ensures Prepend(ps, Prepend(qs, w)) == Prepend(ps + qs, w)
  {
    assert ps + (qs + w.pairs) == (ps + qs) + w.pairs;
  }

  function Lefts(ps: seq<Scored>): (r: seq<string>)
    ensures |r| == |ps|
  {
    if ps == [] then [] else [ps[0].left] + Lefts(ps[1..])
  }


  function Rights(ps: seq<Scored>): (r: seq<string>)
    ensures |r| == |ps|
  {
    if ps == [] then [] else [ps[0].right] + Rights(ps[1..])
  }


  /** What the generator yields, written as a function of its inputs. */
  function Matching(set1: seq<string>, set2: seq<string>, ratio: (string, string) -> int): seq<Match>
  {
    if SetOf(set1) == SetOf(set2) then []
    else
      var w := Walk(Ranked(set1, set2, ratio), set1, set2);
      Paired(w.pairs) + LeftOnly(w.rest1) + RightOnly(w.rest2)
  }

  function Paired(ps: seq<Scored>): (r: seq<Match>)
    ensures |r| == |ps|
  {
    if ps == [] then [] else [Match(Some(ps[0].left), Some(ps[0].right), ps[0].score)] + Paired(ps[1..])
  }


  function LeftOnly(names: seq<string>): (r: seq<Match>)
    ensures |r| == |names|
  {
    if names == [] then [] else [Match(Some(names[0]), None, 0)] + LeftOnly(names[1..])
  }


  function RightOnly(names: seq<string>): (r: seq<Match>)
    ensures |r| == |names|
  {
    if names == [] then [] else [Match(None, Some(names[0]), 0)] + RightOnly(names[1..])
  }


  /** `fuzzy_set_match`: the sorted walk with its early exit, then the leftovers. */
  method FuzzySetMatch(set1: seq<string>, set2: seq<string>, ratio: (string, string) -> int) returns (r: seq<Match>)
    ensures r == Matching(set1, set2, ratio)
  {
    if SetOf(set1) == SetOf(set2) {
      // the generator's `return` yields nothing
      return [];
    }
    var w := WalkRatios(Ranked(set1, set2, ratio), set1, set2);
    r := Paired(w.pairs) + LeftOnly(w.rest1) + RightOnly(w.rest2);
  }

  /** The `for r, str1, str2 in ratios` loop, stopping once either side has no name left. */
  method WalkRatios(ratios: seq<Scored>, set1: seq<string>, set2: seq<string>) returns (w: Walked)
    ensures w == Walk(ratios, set1, set2)
  {
    var rest1, rest2 := set1, set2;
    var pairs: seq<Scored> := [];
    var i := 0;
    assert ratios[0..] == ratios;
    while i < |ratios| && rest1 != [] && rest2 != []
      invariant 0 <= i <= |ratios|
      invariant Walk(ratios, set1, set2) == Prepend(pairs, Walk(ratios[i..], rest1, rest2))
    {
      pairs, rest1, rest2 := TakeIfFree(ratios, i, pairs, rest1, rest2);
      i := i + 1;
    }
    WalkStopped(ratios, i, rest1, rest2);
    assert pairs + [] == pairs;
    w := Walked(pairs, rest1, rest2);
  }

  /** The loop body: the tuple at `i` is taken when both its names are still free. */
  method TakeIfFree(ratios: seq<Scored>, i: nat, pairs: seq<Scored>, rest1: seq<string>, rest2: seq<string>)
    returns (pairs': seq<Scored>, rest1': seq<string>, rest2': seq<string>)
    requires i < |ratios| && rest1 != [] && rest2 != []
    ensures Prepend(pairs, Walk(ratios[i..], rest1, rest2)) == Prepend(pairs', Walk(ratios[i + 1..], rest1', rest2'))
  {
    var t := ratios[i];
    WalkAt(ratios, i, rest1, rest2);
    pairs', rest1', rest2' := pairs, rest1, rest2;
    if t.left in rest1 && t.right in rest2 {
      PrependTwice(pairs, [t], Walk(ratios[i + 1..], Remove(rest1, t.left), Remove(rest2, t.right)));
      pairs', rest1', rest2' := pairs + [t], Remove(rest1, t.left), Remove(rest2, t.right);
    }
  }

  /** One step of the walk from position `i`: take the tuple when both its names are still free, else pass it over. */
  lemma WalkAt(ts: seq<Scored>, i: nat, set1: seq<string>, set2: seq<string>)
    requires i < |ts| && set1 != [] && set2 != []
    ensures ts[i].left in set1 && ts[i].right in set2 ==>
      Walk(ts[i..], set1, set2) == Prepend([ts[i]], Walk(ts[i + 1..], Remove(set1, ts[i].left), Remove(set2, ts[i].right)))
    ensures !(ts[i].left in set1 && ts[i].right in set2) ==> Walk(ts[i..], set1, set2) == Walk(ts[i + 1..], set1, set2)
  {
    assert ts[i..][0] == ts[i] && ts[i..][1..] == ts[i + 1..];
  }

  /** The walk ends when the tuples or either side's names run out. */
  lemma WalkStopped(ts: seq<Scored>, i: nat, set1: seq<string>, set2: seq<string>)
    requires i <= |ts|
    requires i == |ts| || set1 == [] || set2 == []
    ensures Walk(ts[i..], set1, set2) == Walked([], set1, set2)
  {
  }

  // ---------------------------------------------------------------------------
  // Properties of the walk

  /** Every name of a side ends up either in a pair or among that side's leftovers, once. */
  lemma WalkAccounts(ts: seq<Scored>, set1: seq<string>, set2: seq<string>)
    ensures multiset(Lefts(Walk(ts, set1, set2).pairs)) + multiset(Walk(ts, set1, set2).rest1) == multiset(set1)
    ensures multiset(Rights(Walk(ts, set1, set2).pairs)) + multiset(Walk(ts, set1, set2).rest2) == multiset(set2)
  {
    WalkAccountsLeft(ts, set1, set2);
    WalkAccountsRight(ts, set1, set2);
  }

  lemma {:induction false} WalkAccountsLeft(ts: seq<Scored>, set1: seq<string>, set2: seq<string>)
    ensures multiset(Lefts(Walk(ts, set1, set2).pairs)) + multiset(Walk(ts, set1, set2).rest1) == multiset(set1)
  {
    if ts == [] || set1 == [] || set2 == [] {
    } else if ts[0].left in set1 && ts[0].right in set2 {
      var x := ts[0];
      var s1 := Remove(set1, x.left);
      var w := Walk(ts[1..], s1, Remove(set2, x.right));
      WalkAccountsLeft(ts[1..], s1, Remove(set2, x.right));
      assert Walk(ts, set1, set2) == Walked([x] + w.pairs, w.rest1, w.rest2);
      assert ([x] + w.pairs)[1..] == w.pairs;
      assert Lefts([x] + w.pairs) == [x.left] + Lefts(w.pairs);
      assert multiset(s1) == multiset(set1) - multiset{x.left};
      assert x.left in multiset(set1);
      assert multiset{x.left} + multiset(s1) == multiset(set1);
      assert multiset([x.left] + Lefts(w.pairs)) == multiset{x.left} + multiset(Lefts(w.pairs));
    } else {
      WalkAccountsLeft(ts[1..], set1, set2);
    }
  }

  lemma {:induction false} WalkAccountsRight(ts: seq<Scored>, set1: seq<string>, set2: seq<string>)
    ensures multiset(Rights(Walk(ts, set1, set2).pairs)) + multiset(Walk(ts, set1, set2).rest2) == multiset(set2)
  {
    if ts == [] || set1 == [] || set2 == [] {
    } else if ts[0].left in set1 && ts[0].right in set2 {
      var x := ts[0];
      var s2 := Remove(set2, x.right);
      var w := Walk(ts[1..], Remove(set1, x.left), s2);
      WalkAccountsRight(ts[1..], Remove(set1, x.left), s2);
      assert Walk(ts, set1, set2) == Walked([x] + w.pairs, w.rest1, w.rest2);
      assert ([x] + w.pairs)[1..] == w.pairs;
      assert Rights([x] + w.pairs) == [x.right] + Rights(w.pairs);
      assert multiset(s2) == multiset(set2) - multiset{x.right};
      assert x.right in multiset(set2);
      assert multiset{x.right} + multiset(s2) == multiset(set2);
      assert multiset([x.right] + Rights(w.pairs)) == multiset{x.right} + multiset(Rights(w.pairs));
    } else {
      WalkAccountsRight(ts[1..], set1, set2);
    }
  }

  /** Every pair the walk takes is one of the tuples it walked over. */
  lemma {:induction false} WalkTakesFrom(ts: seq<Scored>, set1: seq<string>, set2: seq<string>)
    ensures forall x :: x in Walk(ts, set1, set2).pairs ==> x in ts
  {
    if ts == [] || set1 == [] || set2 == [] {
    } else if ts[0].left in set1 && ts[0].right in set2 {
      WalkTakesFrom(ts[1..], Remove(set1, ts[0].left), Remove(set2, ts[0].right));
    } else {
      WalkTakesFrom(ts[1..], set1, set2);
    }
  }

  /** `ts` still holds every scored pair of two names that are both free. */
  ghost predicate Complete(ts: seq<Scored>, set1: seq<string>, set2: seq<string>, ratio: (string, string) -> int)
  {
    forall x, y :: x in set1 && y in set2 ==> Scored(ratio(x, y), x, y) in ts
  }

  /** Taking the head pair keeps the rest of the walk complete for the names still free. */
  lemma CompleteAfterTake(ts: seq<Scored>, set1: seq<string>, set2: seq<string>, ratio: (string, string) -> int)
    requires ts != [] && ts[0].left in set1 && ts[0].right in set2
    requires NoDuplicates(set1) && NoDuplicates(set2)
    requires Complete(ts, set1, set2, ratio)
    ensures Complete(ts[1..], Remove(set1, ts[0].left), Remove(set2, ts[0].right), ratio)
    ensures NoDuplicates(Remove(set1, ts[0].left)) && NoDuplicates(Remove(set2, ts[0].right))
  {
    var x := ts[0];
    var s1, s2 := Remove(set1, x.left), Remove(set2, x.right);
    forall a, b | a in s1 && b in s2
      ensures Scored(ratio(a, b), a, b) in ts[1..]
    {
      RemoveGone(set1, x.left, a);
      RemoveGone(set2, x.right, b);
      assert Scored(ratio(a, b), a, b) in ts;
      assert ts == [x] + ts[1..];
    }
    RemoveGone(set1, x.left, x.left);
    RemoveGone(set2, x.right, x.right);
  }

  /** Skipping a head pair whose names are not both free keeps the walk complete. */
  lemma CompleteAfterSkip(ts: seq<Scored>, set1: seq<string>, set2: seq<string>, ratio: (string, string) -> int)
    requires ts != [] && !(ts[0].left in set1 && ts[0].right in set2)
    requires Complete(ts, set1, set2, ratio)
    ensures Complete(ts[1..], set1, set2, ratio)
  {
    forall a, b | a in set1 && b in set2
      ensures Scored(ratio(a, b), a, b) in ts[1..]
    {
      assert Scored(ratio(a, b), a, b) in ts;
      assert ts == [ts[0]] + ts[1..];
    }
  }

  lemma CompleteNonEmpty(ts: seq<Scored>, set1: seq<string>, set2: seq<string>, ratio: (string, string) -> int)
    requires Complete(ts, set1, set2, ratio) && set1 != [] && set2 != []
    ensures ts != []
  {
    assert Scored(ratio(set1[0], set2[0]), set1[0], set2[0]) in ts;
  }

  /** When the walk ends, one side has no names left. */
  lemma {:induction false} WalkExhausts(ts: seq<Scored>, set1: seq<string>, set2: seq<string>, ratio: (string, string) -> int)
    requires NoDuplicates(set1) && NoDuplicates(set2)
    requires Complete(ts, set1, set2, ratio)
    ensures Walk(ts, set1, set2).rest1 == [] || Walk(ts, set1, set2).rest2 == []
  {
    if set1 == [] || set2 == [] {
    } else if ts == [] {
      CompleteNonEmpty(ts, set1, set2, ratio);
    } else if ts[0].left in set1 && ts[0].right in set2 {
      CompleteAfterTake(ts, set1, set2, ratio);
      WalkExhausts(ts[1..], Remove(set1, ts[0].left), Remove(set2, ts[0].right), ratio);
    } else {
      CompleteAfterSkip(ts, set1, set2, ratio);
      WalkExhausts(ts[1..], set1, set2, ratio);
    }
  }

  /**
   * The `k`-th pair is at least as high, in (score, old name, new name) order,
   * as every scored pair of two names that no earlier pair used.
   */
  ghost predicate GreedyAt(pairs: seq<Scored>, k: nat, set1: seq<string>, set2: seq<string>, ratio: (string, string) -> int)
    requires k < |pairs|
  {
    forall a, b :: a in set1 && b in set2 && a !in Lefts(pairs[..k]) && b !in Rights(pairs[..k]) ==>
      !ScoredLess(pairs[k], Scored(ratio(a, b), a, b))
  }

  /** The head of a descending, complete list beats every pair of free names. */
  lemma GreedyHead(ts: seq<Scored>, set1: seq<string>, set2: seq<string>, ratio: (string, string) -> int, rest: seq<Scored>)
    requires ts != [] && SortedBy(ts, Descending)
    requires Complete(ts, set1, set2, ratio)
    ensures GreedyAt([ts[0]] + rest, 0, set1, set2, ratio)
  {
    forall a, b | a in set1 && b in set2
      ensures !ScoredLess(ts[0], Scored(ratio(a, b), a, b))
    {
      var y := Scored(ratio(a, b), a, b);
      var j :| 0 <= j < |ts| && ts[j] == y;
      if j > 0 {
        assert Descending(ts[0], ts[j]);
      } else {
        ScoredLessTotal(y, y);
      }
    }
  }

  /** After the head pair `x`, the later pairs' greediness over the reduced sides carries over. */
  lemma GreedyShift(x: Scored, rest: seq<Scored>, k: nat, set1: seq<string>, set2: seq<string>, ratio: (string, string) -> int)
    requires NoDuplicates(set1) && NoDuplicates(set2)
    requires 0 < k <= |rest|
    requires GreedyAt(rest, k - 1, Remove(set1, x.left), Remove(set2, x.right), ratio)
    ensures GreedyAt([x] + rest, k, set1, set2, ratio)
  {
    var pairs := [x] + rest;
    assert pairs[..k] == [x] + rest[..k - 1];
    assert pairs[..k][1..] == rest[..k - 1];
    forall a, b | a in set1 && b in set2 && a !in Lefts(pairs[..k]) && b !in Rights(pairs[..k])
      ensures !ScoredLess(pairs[k], Scored(ratio(a, b), a, b))
    {
      RemoveGone(set1, x.left, a);
      RemoveGone(set2, x.right, b);
    }
  }

  lemma {:induction false} WalkGreedy(ts: seq<Scored>, set1: seq<string>, set2: seq<string>, ratio: (string, string) -> int)
    requires NoDuplicates(set1) && NoDuplicates(set2)
    requires SortedBy(ts, Descending)
    requires Complete(ts, set1, set2, ratio)
    ensures forall k :: 0 <= k < |Walk(ts, set1, set2).pairs| ==> GreedyAt(Walk(ts, set1, set2).pairs, k, set1, set2, ratio)
  {
    if ts == [] || set1 == [] || set2 == [] {
    } else if ts[0].left in set1 && ts[0].right in set2 {
      var x := ts[0];
      var s1, s2 := Remove(set1, x.left), Remove(set2, x.right);
      CompleteAfterTake(ts, set1, set2, ratio);
      WalkGreedy(ts[1..], s1, s2, ratio);
      var w := Walk(ts[1..], s1, s2);
      assert Walk(ts, set1, set2).pairs == [x] + w.pairs;
      forall k | 0 <= k < |w.pairs| + 1
        ensures GreedyAt([x] + w.pairs, k, set1, set2, ratio)
      {
        if k == 0 {
          GreedyHead(ts, set1, set2, ratio, w.pairs);
        } else {
          GreedyShift(x, w.pairs, k, set1, set2, ratio);
        }
      }
    } else {
      CompleteAfterSkip(ts, set1, set2, ratio);
      WalkGreedy(ts[1..], set1, set2, ratio);
    }
  }

  // ---------------------------------------------------------------------------
  // Properties of what fuzzy_set_match yields

  function LeftNames(ms: seq<Match>): seq<string>
  {
    if ms == [] then []
    else (if ms[0].left.Some? then [ms[0].left.value] else []) + LeftNames(ms[1..])
  }

  function RightNames(ms: seq<Match>): seq<string>
  {
    if ms == [] then []
    else (if ms[0].right.Some? then [ms[0].right.value] else []) + RightNames(ms[1..])
  }

  lemma {:induction false} NamesOfConcat(a: seq<Match>, b: seq<Match>)
    ensures LeftNames(a + b) == LeftNames(a) + LeftNames(b)
    ensures RightNames(a + b) == RightNames(a) + RightNames(b)
  {
    if a != [] {
      NamesOfConcat(a[1..], b);
      assert (a + b)[0] == a[0];
      assert (a + b)[1..] == a[1..] + b;
      var hl := if a[0].left.Some? then [a[0].left.value] else [];
      var hr := if a[0].right.Some? then [a[0].right.value] else [];
      assert LeftNames(a + b) == hl + LeftNames(a[1..] + b);
      assert RightNames(a + b) == hr + RightNames(a[1..] + b);
      assert hl + (LeftNames(a[1..]) + LeftNames(b)) == (hl + LeftNames(a[1..])) + LeftNames(b);
      assert hr + (RightNames(a[1..]) + RightNames(b)) == (hr + RightNames(a[1..])) + RightNames(b);
    } else {
      assert a + b == b;
    }
  }

  lemma {:induction false} NamesOfPaired(ps: seq<Scored>)
    ensures LeftNames(Paired(ps)) == Lefts(ps) && RightNames(Paired(ps)) == Rights(ps)
  {
    if ps != [] {
      NamesOfPaired(ps[1..]);
      assert Paired(ps)[1..] == Paired(ps[1..]);
    }
  }

  lemma {:induction false} NamesOfLeftOnly(names: seq<string>)
    ensures LeftNames(LeftOnly(names)) == names && RightNames(LeftOnly(names)) == []
  {
    if names != [] {
      NamesOfLeftOnly(names[1..]);
      assert LeftOnly(names)[1..] == LeftOnly(names[1..]);
      assert names == [names[0]] + names[1..];
    }
  }

  lemma {:induction false} NamesOfRightOnly(names: seq<string>)
    ensures LeftNames(RightOnly(names)) == [] && RightNames(RightOnly(names)) == names
  {
    if names != [] {
      NamesOfRightOnly(names[1..]);
      assert RightOnly(names)[1..] == RightOnly(names[1..]);
      assert names == [names[0]] + names[1..];
    }
  }

  /** Equal name sets: the generator's early `return` means nothing at all is yielded. */
  lemma EqualSetsYieldNothing(set1: seq<string>, set2: seq<string>, ratio: (string, string) -> int)
    requires SetOf(set1) == SetOf(set2)
    ensures Matching(set1, set2, ratio) == []
  {
  }

  /**
   * For different name sets, every old name is the left side of exactly one
   * yielded triple and every new name the right side of exactly one.
   */
  lemma MatchingUsesEachNameOnce(set1: seq<string>, set2: seq<string>, ratio: (string, string) -> int)
    requires SetOf(set1) != SetOf(set2)
    ensures multiset(LeftNames(Matching(set1, set2, ratio))) == multiset(set1)
    ensures multiset(RightNames(Matching(set1, set2, ratio))) == multiset(set2)
  {
    var w := Walk(Ranked(set1, set2, ratio), set1, set2);
    WalkAccounts(Ranked(set1, set2, ratio), set1, set2);
    NamesOfConcat(Paired(w.pairs) + LeftOnly(w.rest1), RightOnly(w.rest2));
    NamesOfConcat(Paired(w.pairs), LeftOnly(w.rest1));
    NamesOfPaired(w.pairs);
    NamesOfLeftOnly(w.rest1);
    NamesOfRightOnly(w.rest2);
  }

  /**
   * For different name sets without duplicates: the yield is the pairs, then
   * old names alone, then new names alone, never both kinds of leftover; each
   * pair is scored by `ratio` and is the best-scored pair of still-free names
   * at its turn; leftovers score 0.
   */
  lemma MatchingShape(set1: seq<string>, set2: seq<string>, ratio: (string, string) -> int)
    requires NoDuplicates(set1) && NoDuplicates(set2)
    requires SetOf(set1) != SetOf(set2)
    ensures var w := Walk(Ranked(set1, set2, ratio), set1, set2);
      Matching(set1, set2, ratio) == Paired(w.pairs) + LeftOnly(w.rest1) + RightOnly(w.rest2) &&
      (w.rest1 == [] || w.rest2 == []) &&
      (forall x :: x in w.pairs ==> x.left in set1 && x.right in set2 && x.score == ratio(x.left, x.right)) &&
      (forall k :: 0 <= k < |w.pairs| ==> GreedyAt(w.pairs, k, set1, set2, ratio))
  {
    var ts := Ranked(set1, set2, ratio);
    WalkExhausts(ts, set1, set2, ratio);
    WalkTakesFrom(ts, set1, set2);
    WalkGreedy(ts, set1, set2, ratio);
  }

  /** The number of pairs is the size of the smaller side. */
  lemma MatchingPairCount(set1: seq<string>, set2: seq<string>, ratio: (string, string) -> int)
    requires NoDuplicates(set1) && NoDuplicates(set2)
    requires SetOf(set1) != SetOf(set2)
    ensures var w := Walk(Ranked(set1, set2, ratio), set1, set2);
      |w.pairs| == if |set1| <= |set2| then |set1| else |set2|
  {
    var ts := Ranked(set1, set2, ratio);
    var w := Walk(ts, set1, set2);
    WalkExhausts(ts, set1, set2, ratio);
    WalkAccounts(ts, set1, set2);
    assert |Lefts(w.pairs)| + |w.rest1| == |set1| by {
      assert |multiset(Lefts(w.pairs)) + multiset(w.rest1)| == |multiset(set1)|;
    }
    assert |Rights(w.pairs)| + |w.rest2| == |set2| by {
      assert |multiset(Rights(w.pairs)) + multiset(w.rest2)| == |multiset(set2)|;
    }
  }

  // ---------------------------------------------------------------------------
  // The early exit as evidently intended

  /** `[(str1, str1, 100) for str1 in set1]`: every name paired with itself. */
  function Identity(names: seq<string>): (r: seq<Match>)
    ensures |r| == |names|
  {
    if names == [] then [] else [Match(Some(names[0]), Some(names[0]), 100)] + Identity(names[1..])
  }

  /** The matcher with the early exit returning the identity pairing instead of nothing. */
  function MatchingIntended(set1: seq<string>, set2: seq<string>, ratio: (string, string) -> int): seq<Match>
  {
    if SetOf(set1) == SetOf(set2) then Identity(set1) else Matching(set1, set2, ratio)
  }

  lemma {:induction false} IdentityNames(names: seq<string>)
    ensures LeftNames(Identity(names)) == names && RightNames(Identity(names)) == names
    ensures forall i :: 0 <= i < |names| ==> Identity(names)[i] == Match(Some(names[i]), Some(names[i]), 100)
  {
    if names != [] {
      IdentityNames(names[1..]);
      assert Identity(names)[1..] == Identity(names[1..]);
      assert names == [names[0]] + names[1..];
    }
  }

  /**
   * With the intended early exit, equal name sets pair every name with itself
   * at score 100, and in every case each old and each new name is used once.
   */
  lemma MatchingIntendedUsesEachName(set1: seq<string>, set2: seq<string>, ratio: (string, string) -> int)
    requires NoDuplicates(set1) && NoDuplicates(set2)
    ensures SetOf(set1) == SetOf(set2) ==>
      forall i :: 0 <= i < |set1| ==> MatchingIntended(set1, set2, ratio)[i] == Match(Some(set1[i]), Some(set1[i]), 100)
    ensures multiset(LeftNames(MatchingIntended(set1, set2, ratio))) == multiset(set1)
    ensures SetOf(set1) != SetOf(set2) ==> multiset(RightNames(MatchingIntended(set1, set2, ratio))) == multiset(set2)
    ensures SetOf(RightNames(MatchingIntended(set1, set2, ratio))) == SetOf(set2)
  {
    if SetOf(set1) == SetOf(set2) {
      IdentityNames(set1);
    } else {
      MatchingUsesEachNameOnce(set1, set2, ratio);
      var r := RightNames(MatchingIntended(set1, set2, ratio));
      assert forall x :: x in r <==> x in multiset(r);
      assert forall x :: x in set2 <==> x in multiset(set2);
    }
  }

  // ---------------------------------------------------------------------------
  // Where the names of a yielded triple come from

  lemma {:induction false} MemberPaired(ps: seq<Scored>, m: Match)
    requires m in Paired(ps)
    ensures m.left.Some? && m.right.Some? && Scored(m.score, m.left.value, m.right.value) in ps
    ensures m.left.value in Lefts(ps) && m.right.value in Rights(ps)
  {
    if ps != [] && m != Paired(ps)[0] {
      MemberPaired(ps[1..], m);
    }
  }

  lemma {:induction false} MemberLeftOnly(names: seq<string>, m: Match)
    requires m in LeftOnly(names)
    ensures m.left.Some? && m.right.None? && m.left.value in names
  {
    if names != [] && m != LeftOnly(names)[0] {
      MemberLeftOnly(names[1..], m);
    }
  }

  lemma {:induction false} MemberRightOnly(names: seq<string>, m: Match)
    requires m in RightOnly(names)
    ensures m.left.None? && m.right.Some? && m.right.value in names
  {
    if names != [] && m != RightOnly(names)[0] {
      MemberRightOnly(names[1..], m);
    }
  }

  lemma {:induction false} MemberIdentity(names: seq<string>, m: Match)
    requires m in Identity(names)
    ensures m.left.Some? && m.right == m.left && m.left.value in names
  {
    if names != [] && m != Identity(names)[0] {
      MemberIdentity(names[1..], m);
    }
  }

  /** The triples built from a walk name only names of the walked sides. */
  lemma WalkSide(ts: seq<Scored>, set1: seq<string>, set2: seq<string>, m: Match)
    requires m in Paired(Walk(ts, set1, set2).pairs) + LeftOnly(Walk(ts, set1, set2).rest1) + RightOnly(Walk(ts, set1, set2).rest2)
    ensures m.left.Some? || m.right.Some?
    ensures m.left.Some? ==> m.left.value in set1
    ensures m.right.Some? ==> m.right.value in set2
  {
    WalkAccounts(ts, set1, set2);
    TriplesSide(Walk(ts, set1, set2), set1, set2, m);
  }

  /** The triples of a walk state that accounts for both sides name only names of those sides. */
  lemma TriplesSide(w: Walked, set1: seq<string>, set2: seq<string>, m: Match)
    requires multiset(Lefts(w.pairs)) + multiset(w.rest1) == multiset(set1)
    requires multiset(Rights(w.pairs)) + multiset(w.rest2) == multiset(set2)
    requires m in Paired(w.pairs) + LeftOnly(w.rest1) + RightOnly(w.rest2)
    ensures m.left.Some? || m.right.Some?
    ensures m.left.Some? ==> m.left.value in set1
    ensures m.right.Some? ==> m.right.value in set2
  {
    if m in Paired(w.pairs) {
      MemberPaired(w.pairs, m);
      assert m.left.value in multiset(Lefts(w.pairs));
      assert m.right.value in multiset(Rights(w.pairs));
      assert m.left.value in multiset(set1) && m.right.value in multiset(set2);
    } else if m in LeftOnly(w.rest1) {
      MemberLeftOnly(w.rest1, m);
      assert m.left.value in multiset(w.rest1);
      assert m.left.value in multiset(set1);
    } else {
      MemberRightOnly(w.rest2, m);
      assert m.right.value in multiset(w.rest2);
      assert m.right.value in multiset(set2);
    }
  }

  /** Every yielded triple names at least one side, and only names of the two input sets. */
  lemma MatchingSide(set1: seq<string>, set2: seq<string>, ratio: (string, string) -> int, m: Match)
    requires m in Matching(set1, set2, ratio)
    ensures m.left.Some? || m.right.Some?
    ensures m.left.Some? ==> m.left.value in set1
    ensures m.right.Some? ==> m.right.value in set2
  {
    WalkSide(Ranked(set1, set2, ratio), set1, set2, m);
  }

  lemma MatchingSides(set1: seq<string>, set2: seq<string>, ratio: (string, string) -> int)
    ensures forall m :: m in Matching(set1, set2, ratio) ==>
      (m.left.Some? || m.right.Some?) &&
      (m.left.Some? ==> m.left.value in set1) &&
      (m.right.Some? ==> m.right.value in set2)
  {
    forall m | m in Matching(set1, set2, ratio)
      ensures (m.left.Some? || m.right.Some?) &&
        (m.left.Some? ==> m.left.value in set1) && (m.right.Some? ==> m.right.value in set2)
    {
      MatchingSide(set1, set2, ratio, m);
    }
  }

  lemma MatchingIntendedSides(set1: seq<string>, set2: seq<string>, ratio: (string, string) -> int)
    ensures forall m :: m in MatchingIntended(set1, set2, ratio) ==>
      (m.left.Some? || m.right.Some?) &&
      (m.left.Some? ==> m.left.value in set1) &&
      (m.right.Some? ==> m.right.value in set2)
  {
    if SetOf(set1) == SetOf(set2) {
      forall m | m in Identity(set1)
        ensures m.left.Some? && m.left.value in set1 && m.right == m.left && m.right.value in set2
      {
        MemberIdentity(set1, m);
        assert m.left.value in SetOf(set1);
      }
    } else {
      MatchingSides(set1, set2, ratio);
    }
  }

  /** A name listed by `LeftNames` is the left side of some triple. */
  lemma {:induction false} LeftNamesMember(ms: seq<Match>, n: string)
    requires n in LeftNames(ms)
    ensures exists m :: m in ms && m.left == Some(n)
  {
    if ms[0].left != Some(n) {
      LeftNamesMember(ms[1..], n);
      var m :| m in ms[1..] && m.left == Some(n);
      assert m in ms;
    }
  }

  /** A name listed by `RightNames` is the right side of some triple. */
  lemma {:induction false} RightNamesMember(ms: seq<Match>, n: string)
    requires n in RightNames(ms)
    ensures exists m :: m in ms && m.right == Some(n)
  {
    if ms[0].right != Some(n) {
      RightNamesMember(ms[1..], n);
      var m :| m in ms[1..] && m.right == Some(n);
      assert m in ms;
    }
  }
}
