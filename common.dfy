/**
 * Values and string operations shared by the whole model.
 *
 * Python's `None`, exceptions and the handful of `str` methods that the menu
 * code relies on (`strip`, `split`, `join`, `startswith`, `in`, `lower`,
 * comparison) are written out here once, with the properties the rest of the
 * model needs.
 */
module Common {

  datatype Option<T> = None | Some(value: T)

  /** The exceptions the modelled code raises (or lets escape). */
  datatype Error =
    | ValueError(message: string)
    | AssertionError
    | KeyError(key: string)
    | IndexError
    | TypeError
    | AttributeError
    | IntegrityError

  datatype Result<T> = Ok(value: T) | Err(error: Error)

  // ---------------------------------------------------------------------------
  // Characters

  /**
   * The characters Python's argument-less `str.strip()` removes, those for
   * which `str.isspace()` holds: tab to carriage return, the four ASCII
   * separators, space, next line, no-break space, and the Unicode spaces and
   * line and paragraph separators.
   */
  predicate IsSpace(c: char)
  {
    ('\U{0009}' <= c <= '\U{000D}') || ('\U{001C}' <= c <= '\U{0020}') ||
    c == '\U{0085}' || c == '\U{00A0}' || c == '\U{1680}' || ('\U{2000}' <= c <= '\U{200A}') ||
    c == '\U{2028}' || c == '\U{2029}' || c == '\U{202F}' || c == '\U{205F}' || c == '\U{3000}'
  }

  predicate IsAsciiUpper(c: char) { 'A' <= c <= 'Z' }

  predicate IsDigit(c: char) { '0' <= c <= '9' }

  function LowerChar(c: char): (r: char)
    ensures IsAsciiUpper(c) ==> r as int == c as int + 32
    ensures !IsAsciiUpper(c) ==> r == c
  {
    if IsAsciiUpper(c) then (c as int + 32) as char else c
  }

  /** `str.lower()` on the ASCII letters. */
  function Lower(s: string): (r: string)
    ensures |r| == |s|
    ensures forall i :: 0 <= i < |s| ==> r[i] == LowerChar(s[i])
  {
    if s == [] then [] else [LowerChar(s[0])] + Lower(s[1..])
  }

  /** Lower-casing twice is lower-casing once. */
  lemma LowerIdempotent(s: string)
    ensures Lower(Lower(s)) == Lower(s)
  {
    assert forall i :: 0 <= i < |s| ==> !IsAsciiUpper(Lower(s)[i]);
  }

  // ---------------------------------------------------------------------------
  // strip

  function LStrip(s: string): (r: string)
    ensures |r| <= |s| && r == s[|s| - |r|..]
    ensures r == [] || !IsSpace(r[0])
    ensures forall i :: 0 <= i < |s| - |r| ==> IsSpace(s[i])
  {
    if s != [] && IsSpace(s[0]) then LStrip(s[1..]) else s
  }

  function RStrip(s: string): (r: string)
    ensures |r| <= |s| && r == s[..|r|]
    ensures r == [] || !IsSpace(r[|r| - 1])
    ensures forall i :: |r| <= i < |s| ==> IsSpace(s[i])
  {
    if s != [] && IsSpace(s[|s| - 1]) then RStrip(s[..|s| - 1]) else s
  }

  /** `str.strip()`: leading and trailing white space removed. */
  function Strip(s: string): (r: string)
    ensures |r| <= |s|
    ensures r == [] || (!IsSpace(r[0]) && !IsSpace(r[|r| - 1]))
    ensures s == [] || (!IsSpace(s[0]) && !IsSpace(s[|s| - 1])) ==> r == s
  {
    RStrip(LStrip(s))
  }

  /** Stripping only removes characters. */
  lemma StripKeeps(s: string, c: char)
    ensures c in Strip(s) ==> c in s
  {
    var l := LStrip(s);
    if c in RStrip(l) {
      assert c in l[..|RStrip(l)|];
      assert c in s[|s| - |l|..];
    }
  }

  /** `str.strip(c)` for one character `c`. */
  function StripChar(s: string, c: char): (r: string)
    ensures |r| <= |s|
    ensures r == [] || (r[0] != c && r[|r| - 1] != c)
    decreases |s|
  {
    if s != [] && s[0] == c then StripChar(s[1..], c)
    else if s != [] && s[|s| - 1] == c then StripChar(s[..|s| - 1], c)
    else s
  }

  /** The stripped text is a slice of the text, and only `c` lies outside the slice. */
  lemma {:induction false} StripCharSlice(s: string, c: char) returns (i: nat, j: nat)
    ensures i <= j <= |s| && StripChar(s, c) == s[i..j]
    ensures forall k :: 0 <= k < i || j <= k < |s| ==> s[k] == c
    decreases |s|
  {
    if s != [] && s[0] == c {
      var i', j' := StripCharSlice(s[1..], c);
      i, j := i' + 1, j' + 1;
      assert s[1..][i'..j'] == s[i..j];
      forall k | 0 <= k < i || j <= k < |s| ensures s[k] == c {
        if k > 0 {
          assert s[k] == s[1..][k - 1];
        }
      }
    } else if s != [] && s[|s| - 1] == c {
      var t := s[..|s| - 1];
      i, j := StripCharSlice(t, c);
      assert t[i..j] == s[i..j];
      forall k | 0 <= k < i || j <= k < |s| ensures s[k] == c {
        if k < |s| - 1 {
          assert s[k] == t[k];
        }
      }
    } else {
      i, j := 0, |s|;
    }
  }

  // ---------------------------------------------------------------------------
  // Prefixes and substrings

  predicate StartsWith(s: string, prefix: string)
  {
    |prefix| <= |s| && s[..|prefix|] == prefix
  }

  /** Python's `sub in s`. */
  predicate Contains(s: string, sub: string)
    decreases |s|
  {
    StartsWith(s, sub) || (s != [] && Contains(s[1..], sub))
  }

  /** `s.replace(c, '')`: every `c` removed, the other characters kept in order. */
  function Without(s: string, c: char): (r: string)
    ensures c !in r
    ensures forall x :: x in r ==> x in s
    ensures c !in s ==> r == s
  {
    if s == [] then []
    else (if s[0] == c then [] else [s[0]]) + Without(s[1..], c)
  }

  /** Python's `str.replace(pattern, "")`: each non-overlapping occurrence, left to right, removed. */
  function RemoveAll(s: string, pattern: string): (r: string)
    requires pattern != ""
    ensures |r| <= |s|
    ensures forall x :: x in r ==> x in s
    ensures !Contains(s, pattern) ==> r == s
    decreases |s|
  {
    if s == [] then []
    else if StartsWith(s, pattern) then RemoveAll(s[|pattern|..], pattern)
    else [s[0]] + RemoveAll(s[1..], pattern)
  }

  // ---------------------------------------------------------------------------
  // split and join

  /** `s.split(c)` for a one-character separator: never empty, `"".split(c) == [""]`. */
  function Split(s: string, c: char): (r: seq<string>)
    ensures |r| >= 1
    ensures forall i :: 0 <= i < |r| ==> c !in r[i]
  {
    if s == [] then [""]
    else if s[0] == c then [""] + Split(s[1..], c)
    else
      var rest := Split(s[1..], c);
      [[s[0]] + rest[0]] + rest[1..]
  }

  /** A word without the separator, the separator, then a tail: the word is the first piece. */
  lemma {:induction false} SplitFirst(w: string, c: char, tail: string)
    requires c !in w
    ensures Split(w + [c] + tail, c) == [w] + Split(tail, c)
  {
    var s := w + [c] + tail;
    if w == [] {
      assert s[0] == c && s[1..] == tail;
    } else {
      SplitFirst(w[1..], c, tail);
      assert s[0] == w[0] && s[1..] == w[1..] + [c] + tail;
      assert w == [w[0]] + w[1..];
    }
  }

  /** A head, the separator, then a word without it: the word is the last piece. */
  lemma {:induction false} SplitLast(head: string, c: char, w: string)
    requires c !in w
    ensures Split(head + [c] + w, c) == Split(head, c) + [w]
  {
    var s := head + [c] + w;
    if head == [] {
      assert s[0] == c && s[1..] == w;
      SplitWithout(w, c);
    } else {
      SplitLast(head[1..], c, w);
      assert s[0] == head[0] && s[1..] == head[1..] + [c] + w;
      if head[0] != c {
        SnocPieces(head[0], Split(head[1..], c), w);
      }
    }
  }

  /** Gluing a character to the first piece commutes with appending a last piece. */
  lemma SnocPieces(x: char, r: seq<string>, w: string)
    requires r != []
    ensures [[x] + (r + [w])[0]] + (r + [w])[1..] == ([[x] + r[0]] + r[1..]) + [w]
  {
    assert (r + [w])[1..] == r[1..] + [w];
  }

  /** `sep.join(parts)`. */
  function Join(parts: seq<string>, sep: string): string
  {
    if parts == [] then ""
    else if |parts| == 1 then parts[0]
    else parts[0] + sep + Join(parts[1..], sep)
  }

  /** Splitting and joining again with the same separator gives back the text. */
  lemma {:induction false} JoinSplit(s: string, c: char)
    ensures Join(Split(s, c), [c]) == s
  {
    if s == [] {
    } else if s[0] == c {
      JoinSplit(s[1..], c);
      assert s == [c] + s[1..];
    } else {
      JoinSplit(s[1..], c);
      var rest := Split(s[1..], c);
      if |rest| == 1 {
        assert s == [s[0]] + rest[0];
      } else {
        assert Join(rest, [c]) == rest[0] + [c] + Join(rest[1..], [c]);
        assert s == [s[0]] + s[1..];
      }
    }
  }

  /** A text without the separator splits into itself alone. */
  lemma {:induction false} SplitWithout(s: string, c: char)
    requires c !in s
    ensures Split(s, c) == [s]
  {
    if s != [] {
      SplitWithout(s[1..], c);
      assert s == [s[0]] + s[1..];
    }
  }

  /** `" ".join(s)` where `s` is a string: its characters separated by single spaces. */
  function SpaceJoinChars(s: string): (r: string)
    ensures s == [] ==> r == []
    ensures s != [] ==> |r| == 2 * |s| - 1
    ensures forall i :: 0 <= i < |r| ==> r[i] == if i % 2 == 0 then s[i / 2] else ' '
  {
    if |s| <= 1 then s
    else
      var rest := SpaceJoinChars(s[1..]);
      var r := [s[0], ' '] + rest;
      assert forall i :: 2 <= i < |r| ==> r[i] == rest[i - 2];
      r
  }

  /** `re.sub("[0-9]", "", s)`. */
  function RemoveDigits(s: string): (r: string)
    ensures forall i :: 0 <= i < |r| ==> !IsDigit(r[i])
    ensures forall i :: 0 <= i < |s| && !IsDigit(s[i]) ==> s[i] in r
    ensures |r| <= |s|
  {
    if s == [] then []
    else if IsDigit(s[0]) then RemoveDigits(s[1..])
    else [s[0]] + RemoveDigits(s[1..])
  }

  // ---------------------------------------------------------------------------
  // Python's ordering of str values (by code point, lexicographically)

  predicate StrLess(a: string, b: string)
  {
    if a == [] then b != []
    else if b == [] then false
    else if a[0] != b[0] then a[0] < b[0]
    else StrLess(a[1..], b[1..])
  }

  lemma {:induction false} StrLessIrreflexive(a: string)
    ensures !StrLess(a, a)
  {
    if a != [] { StrLessIrreflexive(a[1..]); }
  }

  lemma {:induction false} StrLessTotal(a: string, b: string)
    ensures a == b || StrLess(a, b) || StrLess(b, a)
  {
    if a != [] && b != [] && a[0] == b[0] {
      StrLessTotal(a[1..], b[1..]);
      if a[1..] == b[1..] {
        assert a == [a[0]] + a[1..] && b == [b[0]] + b[1..];
      }
    }
  }

  lemma {:induction false} StrLessAsymmetric(a: string, b: string)
    ensures !(StrLess(a, b) && StrLess(b, a))
  {
    if a != [] && b != [] && a[0] == b[0] {
      StrLessAsymmetric(a[1..], b[1..]);
    }
  }

  lemma {:induction false} StrLessTransitive(a: string, b: string, c: string)
    requires StrLess(a, b) && StrLess(b, c)
    ensures StrLess(a, c)
  {
    if a != [] && b != [] && c != [] && a[0] == b[0] && b[0] == c[0] {
      StrLessTransitive(a[1..], b[1..], c[1..]);
    }
  }

  // ---------------------------------------------------------------------------
  // Sequences

  /** The elements of a list of strings, as a set. */
  function SetOf(s: seq<string>): set<string>
  {
    set x | x in s
  }

  predicate NoDuplicates<T(==)>(s: seq<T>)
  {
    forall i, j :: 0 <= i < j < |s| ==> s[i] != s[j]
  }

  /** The distinct elements of `s`, in the order of their first occurrence. */
  function Dedup<T(==,!new)>(s: seq<T>): (r: seq<T>)
    ensures NoDuplicates(r)
    ensures forall x :: x in r <==> x in s
    ensures |r| <= |s|
  {
    if s == [] then []
    else
      var r := Dedup(s[..|s| - 1]);
      assert forall x :: x in s <==> x in s[..|s| - 1] || x == s[|s| - 1];
      if s[|s| - 1] in r then r else r + [s[|s| - 1]]
  }

  /** `[x for x in s if p(x)]`. */
  function Filter<T(!new)>(s: seq<T>, p: T -> bool): (r: seq<T>)
    ensures |r| <= |s|
    ensures forall x :: x in r <==> x in s && p(x)
  {
    if s == [] then []
    else if p(s[0]) then
      assert s == [s[0]] + s[1..];
      [s[0]] + Filter(s[1..], p)
    else
      Filter(s[1..], p)
  }

  /** `s.replace(c, '')` keeps the other characters in their order. */
  lemma {:induction false} WithoutKeepsOrder(s: string, c: char)
    ensures Without(s, c) == Filter(s, x => x != c)
  {
    if s != [] {
      WithoutKeepsOrder(s[1..], c);
    }
  }

  /**
   * `Dedup` keeps first occurrences in order: of two kept elements, the
   * earlier one occurs in `s` before the later one first does.
   */
  lemma {:induction false} DedupOrder<T(!new)>(s: seq<T>, i: nat, j: nat)
    requires i < j < |Dedup(s)|
    ensures exists k :: 0 <= k < |s| && s[k] == Dedup(s)[i] && Dedup(s)[j] !in s[..k + 1]
    decreases |s|
  {
    var p, last := s[..|s| - 1], s[|s| - 1];
    var r := Dedup(p);
    if j < |r| {
      DedupOrder(p, i, j);
      var k :| 0 <= k < |p| && p[k] == r[i] && r[j] !in p[..k + 1];
      assert s[..k + 1] == p[..k + 1];
      assert s[k] == Dedup(s)[i];
    } else {
      assert last !in r && Dedup(s) == r + [last];
      assert r[i] in p;
      var k :| 0 <= k < |p| && p[k] == r[i];
      assert s[..k + 1] == p[..k + 1];
      assert forall x :: x in p[..k + 1] ==> x in p;
      assert s[k] == Dedup(s)[i];
    }
  }

  /** `[f(x) for x in s]`. */
  function MapSeq<A, B>(s: seq<A>, f: A -> B): (r: seq<B>)
    ensures |r| == |s|
    ensures forall i :: 0 <= i < |s| ==> r[i] == f(s[i])
  {
    seq(|s|, i requires 0 <= i < |s| => f(s[i]))
  }

  /** Mapping a list, split around position `i`. */
  lemma MapSeqSplit<A, B>(s: seq<A>, i: nat, f: A -> B)
    requires i < |s|
    ensures MapSeq(s, f) == MapSeq(s[..i], f) + ([f(s[i])] + MapSeq(s[i + 1..], f))
  {
    var m, ma, mb := MapSeq(s, f), MapSeq(s[..i], f), MapSeq(s[i + 1..], f);
    var t := ma + ([f(s[i])] + mb);
    assert |t| == |m|;
    forall j | 0 <= j < |m| ensures t[j] == m[j] {
      if j < i {
        assert t[j] == ma[j] == f(s[..i][j]);
        assert s[..i][j] == s[j];
      } else if j > i {
        assert t[j] == mb[j - i - 1] == f(s[i + 1..][j - i - 1]);
        assert s[i + 1..][j - i - 1] == s[j];
      }
    }
  }

  /** A filter keeps each element at most as often as the list holds it. */
  lemma {:induction false} FilterSubMultiset<T(!new)>(s: seq<T>, p: T -> bool)
    ensures multiset(Filter(s, p)) <= multiset(s)
  {
    if s != [] {
      FilterSubMultiset(s[1..], p);
      FilterCons(s, p);
      assert s == [s[0]] + s[1..];
      assert multiset(s) == multiset{s[0]} + multiset(s[1..]);
    }
  }

  /** A filter and the filter of the complementary test together keep every element once. */
  lemma {:induction false} FilterPartition<T(!new)>(s: seq<T>, p: T -> bool, q: T -> bool)
    requires forall x :: q(x) <==> !p(x)
    ensures multiset(Filter(s, p)) + multiset(Filter(s, q)) == multiset(s)
  {
    if s != [] {
      var a, b := Filter(s[1..], p), Filter(s[1..], q);
      FilterPartition(s[1..], p, q);
      FilterCons(s, p);
      FilterCons(s, q);
      PartitionStep(s, Filter(s, p), Filter(s, q), a, b, p(s[0]));
    }
  }

  /** One more element in front: it joins the part whose test it passes. */
  lemma PartitionStep<T>(s: seq<T>, fp: seq<T>, fq: seq<T>, a: seq<T>, b: seq<T>, px: bool)
    requires s != []
    requires multiset(a) + multiset(b) == multiset(s[1..])
    requires fp == (if px then [s[0]] else []) + a
    requires fq == (if px then [] else [s[0]]) + b
    ensures multiset(fp) + multiset(fq) == multiset(s)
  {
    var x := s[0];
    assert s == [x] + s[1..];
    assert multiset(s) == multiset{x} + multiset(s[1..]);
    if px {
      assert multiset(fp) == multiset{x} + multiset(a);
      assert fq == b;
    } else {
      assert multiset(fq) == multiset{x} + multiset(b);
      assert fp == a;
    }
  }

  /** Filters by two complementary tests split a list between them. */
  lemma FilterComplement<T(!new)>(s: seq<T>, p: T -> bool, q: T -> bool)
    requires forall x :: q(x) <==> !p(x)
    ensures |Filter(s, p)| + |Filter(s, q)| == |s|
    ensures multiset(Filter(s, p)) + multiset(Filter(s, q)) == multiset(s)
    ensures forall x :: x in s ==> (x in Filter(s, p) <==> x !in Filter(s, q))
  {
    FilterPartition(s, p, q);
    assert |multiset(Filter(s, p)) + multiset(Filter(s, q))| == |multiset(s)|;
  }

  /** The filter of a non-empty list: its head when it passes, then the filter of the rest. */
  lemma FilterCons<T(!new)>(s: seq<T>, p: T -> bool)
    requires s != []
    ensures Filter(s, p) == (if p(s[0]) then [s[0]] else []) + Filter(s[1..], p)
  {
  }

  /** A text is never found inside a shorter one. */
  lemma {:induction false} ContainsLonger(s: string, sub: string)
    requires |sub| > |s|
    ensures !Contains(s, sub)
  {
    if s != [] {
      ContainsLonger(s[1..], sub);
    }
  }

  lemma {:induction false} FilterConcat<T(!new)>(a: seq<T>, b: seq<T>, p: T -> bool)
    ensures Filter(a + b, p) == Filter(a, p) + Filter(b, p)
  {
    if a == [] {
      assert a + b == b;
    } else {
      var ab := a + b;
      assert ab[0] == a[0] && ab[1..] == a[1..] + b;
      FilterConcat(a[1..], b, p);
      if p(a[0]) {
        assert Filter(ab, p) == [a[0]] + Filter(ab[1..], p);
        assert Filter(a, p) == [a[0]] + Filter(a[1..], p);
      } else {
        assert Filter(ab, p) == Filter(ab[1..], p);
        assert Filter(a, p) == Filter(a[1..], p);
      }
    }
  }

  lemma {:induction false} FilterAll<T(!new)>(s: seq<T>, p: T -> bool)
    requires forall x :: x in s ==> p(x)
    ensures Filter(s, p) == s
  {
    if s != [] {
      assert forall x :: x in s[1..] ==> x in s;
      FilterAll(s[1..], p);
    }
  }

  lemma FilterNone<T(!new)>(s: seq<T>, p: T -> bool)
    requires forall x :: x in s ==> !p(x)
    ensures Filter(s, p) == []
  {
    if Filter(s, p) != [] {
      assert Filter(s, p)[0] in Filter(s, p);
    }
  }

  /** A list nothing is in is empty. */
  lemma NoMembers<T>(s: seq<T>)
    requires forall x :: x !in s
    ensures s == []
  {
    forall x ensures multiset(s)[x] == 0 {
      assert x !in s;
    }
    assert multiset(s) == multiset{};
  }

  /** `list(reversed(s))`; its positions are given by `ReverseAt`. */
  function Reverse<T>(s: seq<T>): (r: seq<T>)
    ensures |r| == |s|
  {
    if s == [] then [] else Reverse(s[1..]) + [s[0]]
  }

  lemma {:induction false} ReverseAt<T>(s: seq<T>, i: int)
    requires 0 <= i < |s|
    ensures Reverse(s)[i] == s[|s| - 1 - i]
  {
    if i < |s| - 1 {
      ReverseAt(s[1..], i);
    }
  }

  /** `s.index(x)`: the first position holding `x`, or `ValueError` when there is none. */
  function IndexOf<T(==)>(s: seq<T>, x: T): (r: Result<nat>)
    ensures r.Ok? <==> x in s
    ensures r.Ok? ==> r.value < |s| && s[r.value] == x && forall j :: 0 <= j < r.value ==> s[j] != x
    ensures r.Err? ==> r.error.ValueError?
  {
    if s == [] then Err(ValueError("is not in list"))
    else if s[0] == x then Ok(0)
    else
      match IndexOf(s[1..], x)
      case Err(e) => Err(e)
      case Ok(i) => Ok(i + 1)
  }

  lemma ReverseMembers<T>(s: seq<T>)
    ensures forall x :: x in Reverse(s) <==> x in s
  {
    forall x | x in s ensures x in Reverse(s) {
      var i :| 0 <= i < |s| && s[i] == x;
      ReverseAt(s, |s| - 1 - i);
    }
    forall x | x in Reverse(s) ensures x in s {
      var i :| 0 <= i < |s| && Reverse(s)[i] == x;
      ReverseAt(s, i);
    }
  }

  /** `s[i]` with Python's negative indices counting from the end. */
  function PyIndex<T>(s: seq<T>, i: int): (r: Result<T>)
    ensures r.Ok? <==> -|s| <= i < |s|
    ensures 0 <= i < |s| ==> r == Ok(s[i])
    ensures -|s| <= i < 0 ==> r == Ok(s[|s| + i])
    ensures r.Err? ==> r.error == IndexError
  {
    if 0 <= i < |s| then Ok(s[i])
    else if -|s| <= i < 0 then Ok(s[|s| + i])
    else Err(IndexError)
  }

  /** A text strips to nothing exactly when it is white space throughout. */
  lemma StripEmpty(s: string)
    ensures Strip(s) == [] <==> forall i :: 0 <= i < |s| ==> IsSpace(s[i])
  {
    var l := LStrip(s);
    if Strip(s) == [] {
      forall i | 0 <= i < |s| ensures IsSpace(s[i]) {
        if i >= |s| - |l| {
          assert s[i] == l[i - (|s| - |l|)];
        }
      }
    } else {
      var r := Strip(s);
      assert r[0] == l[0] && l[0] == s[|s| - |l|];
    }
  }
}
