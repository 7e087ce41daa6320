/**
 * Python dict comprehensions of the form `{key(x): x for x in xs}`.
 *
 * Such a dict maps each key to the LAST element carrying it, and iterates its
 * keys in the order in which they FIRST occur. The mapping is a Dafny `map`
 * (dict equality ignores order); the iteration order is a separate sequence.
 */
module Dicts {
  import opened Common

  /** The keys of `xs`, in order. */
  function KeysOf<K, T>(xs: seq<T>, key: T -> K): (r: seq<K>)
    ensures |r| == |xs|
    ensures forall i :: 0 <= i < |xs| ==> r[i] == key(xs[i])
  {
    seq(|xs|, i requires 0 <= i < |xs| => key(xs[i]))
  }

  /** A key occurs in the list of keys exactly when some element carries it. */
  lemma KeysOfMembers<K, T>(xs: seq<T>, key: T -> K)
    ensures forall k :: k in KeysOf(xs, key) <==> exists i :: 0 <= i < |xs| && key(xs[i]) == k
  {
    var ks := KeysOf(xs, key);
    forall k | k in ks ensures exists i :: 0 <= i < |xs| && key(xs[i]) == k {
      var i :| 0 <= i < |ks| && ks[i] == k;
      assert key(xs[i]) == k;
    }
  }

  /** `{key(x): x for x in xs}` as a mapping: later elements overwrite earlier ones. */
  function LastBy<K(==,!new), T(!new)>(xs: seq<T>, key: T -> K): (r: map<K, T>)
    ensures forall k :: k in r <==> exists i :: 0 <= i < |xs| && key(xs[i]) == k
    ensures forall k :: k in r ==> key(r[k]) == k && r[k] in xs
    ensures forall i :: 0 <= i < |xs| ==> key(xs[i]) in r
  {
    if xs == [] then map[]
    else
      var init := xs[..|xs| - 1];
      var last := xs[|xs| - 1];
      var m := LastBy(init, key);
      assert forall i :: 0 <= i < |init| ==> init[i] == xs[i];
      m[key(last) := last]
  }

  /** The element `LastBy` keeps for a key is the last one in `xs` with that key. */
  lemma {:induction false} LastByIsLast<K(!new), T(!new)>(xs: seq<T>, key: T -> K, i: nat)
    requires i < |xs|
    requires forall j :: i < j < |xs| ==> key(xs[j]) != key(xs[i])
    ensures key(xs[i]) in LastBy(xs, key) && LastBy(xs, key)[key(xs[i])] == xs[i]
  {
    if i < |xs| - 1 {
      var init := xs[..|xs| - 1];
      assert forall j :: i < j < |init| ==> init[j] == xs[j];
      LastByIsLast(init, key, i);
    }
  }

  /** The values of the dict, in iteration order. */
  function ValuesInOrder<K(==,!new), T(!new)>(xs: seq<T>, key: T -> K): (r: seq<T>)
    ensures |r| == |Dedup(KeysOf(xs, key))|
    ensures forall x :: x in r ==> x in xs
    ensures forall i :: 0 <= i < |r| ==>
      Dedup(KeysOf(xs, key))[i] in LastBy(xs, key) && r[i] == LastBy(xs, key)[Dedup(KeysOf(xs, key))[i]]
  {
    var ks := Dedup(KeysOf(xs, key));
    var m := LastBy(xs, key);
    KeysInDict(xs, key);
    var r := seq(|ks|, i requires 0 <= i < |ks| => m[ks[i]]);
    ValuesDrawn(ks, m, xs, r);
    r
  }

  /** Values looked up in a dict whose values come from `xs` come from `xs`. */
  lemma ValuesDrawn<K, T>(ks: seq<K>, m: map<K, T>, xs: seq<T>, r: seq<T>)
    requires forall k :: k in m ==> m[k] in xs
    requires forall k :: k in ks ==> k in m
    requires |r| == |ks| && forall i :: 0 <= i < |ks| ==> r[i] == m[ks[i]]
    ensures forall x :: x in r ==> x in xs
  {
    forall x | x in r ensures x in xs {
      var i :| 0 <= i < |r| && r[i] == x;
      assert ks[i] in ks;
    }
  }

  /** Every key, once duplicates are dropped, is a key of the dict. */
  lemma KeysInDict<K(!new), T(!new)>(xs: seq<T>, key: T -> K)
    ensures forall k :: k in Dedup(KeysOf(xs, key)) ==> k in LastBy(xs, key)
  {
    assert forall k :: k in KeysOf(xs, key) ==> k in LastBy(xs, key);
  }
}
