/**
 * The fix-ups applied to the menu CSV text before it is split into rows:
 * `;` inside a parenthesised list of codes becomes `,` (stwno_api/api.py and
 * mensabot/mensa.py), and a newline that does not start a dated row becomes
 * a space (mensabot/mensa.py).
 */
module CsvText {
  import opened Common

  /** The characters of `[A-Z0-9,; ]`. */
  predicate CodeChar(c: char)
  {
    'A' <= c <= 'Z' || IsDigit(c) || c == ',' || c == ';' || c == ' '
  }

  /** How many code characters follow position `i`. */
  function CodeRun(s: string, i: nat): (r: nat)
    requires i <= |s|
    ensures i + r <= |s|
    ensures forall j :: i <= j < i + r ==> CodeChar(s[j])
    ensures i + r < |s| ==> !CodeChar(s[i + r])
    decreases |s| - i
  {
    if i < |s| && CodeChar(s[i]) then 1 + CodeRun(s, i + 1) else 0
  }

  /**
   * Whether `\([A-Z0-9,; ]+\)` matches at the start of `s`, and with how
   * many code characters. The run is greedy and cannot hold `)`, so the
   * longest run is the only one to try.
   */
  function CodeListAt(s: string): (r: Option<nat>)
    ensures r.Some? ==> (0 < r.value && r.value + 2 <= |s| && s[0] == '(' && s[r.value + 1] == ')' &&
      forall j :: 1 <= j <= r.value ==> CodeChar(s[j]))
  {
    if |s| > 0 && s[0] == '(' then
      var k := CodeRun(s, 1);
      if k > 0 && k + 1 < |s| && s[k + 1] == ')' then Some(k) else None
    else None
  }

  /** `m.group().replace(";", ",")` on the inside of a code list. */
  function Commas(t: string): (r: string)
    ensures |r| == |t|
    ensures forall i :: 0 <= i < |t| ==> r[i] == if t[i] == ';' then ',' else t[i]
  {
    if t == [] then [] else [if t[0] == ';' then ',' else t[0]] + Commas(t[1..])
  }

  /** `re.sub("\([A-Z0-9,; ]+\)", lambda m: m.group().replace(";", ","), text)`. */
  function FixSemicolons(s: string): (r: string)
    ensures |r| == |s|
    decreases |s|
  {
    if s == [] then []
    else
      match CodeListAt(s)
      case Some(k) => "(" + Commas(s[1..k + 1]) + ")" + FixSemicolons(s[k + 2..])
      case None => [s[0]] + FixSemicolons(s[1..])
  }

  /** The classes of characters the code-list pattern tells apart. */
  predicate SameShape(s: string, t: string)
  {
    |s| == |t| &&
    forall i :: 0 <= i < |s| ==> (CodeChar(s[i]) <==> CodeChar(t[i])) && (s[i] == '(' <==> t[i] == '(') && (s[i] == ')' <==> t[i] == ')')
  }

  lemma {:induction false} SameShapeRun(s: string, t: string, i: nat)
    requires SameShape(s, t) && i <= |s|
    ensures CodeRun(s, i) == CodeRun(t, i)
    decreases |s| - i
  {
    if i < |s| && CodeChar(s[i]) {
      SameShapeRun(s, t, i + 1);
    }
  }

  lemma SameShapeCodeList(s: string, t: string)
    requires SameShape(s, t)
    ensures CodeListAt(s) == CodeListAt(t)
  {
    if |s| > 0 {
      SameShapeRun(s, t, 1);
    }
  }

  /**
   * Whether position `i` lies inside a match of the code-list pattern: some
   * `(` before it opens a code list that reaches at least to `i`.
   */
  ghost predicate InCodeList(s: string, i: nat)
    requires i <= |s|
  {
    Covered(s, i, CodeListAt)
  }

  /** The match of `at` tried at position `j`. */
  function MatchAt(s: string, j: nat, at: string -> Option<nat>): Option<nat>
    requires j <= |s|
  {
    at(s[j..])
  }

  /** Whether a match of `at`, tried at some position before `i`, reaches at least to `i`. */
  ghost predicate Covered(s: string, i: nat, at: string -> Option<nat>)
    requires i <= |s|
  {
    exists j {:trigger MatchAt(s, j, at)} :: 0 <= j < i && MatchAt(s, j, at).Some? && i <= j + MatchAt(s, j, at).value
  }

  /** When no match before position `d` reaches `i`, dropping the first `d` characters keeps `i` covered or not. */
  lemma CoveredDrop(s: string, d: nat, i: nat, at: string -> Option<nat>)
    requires d <= i <= |s|
    requires forall j :: 0 <= j < d ==> MatchAt(s, j, at).None? || j + MatchAt(s, j, at).value < i
    ensures Covered(s, i, at) <==> Covered(s[d..], i - d, at)
  {
    if Covered(s, i, at) {
      var j :| 0 <= j < i && MatchAt(s, j, at).Some? && i <= j + MatchAt(s, j, at).value;
      assert s[d..][j - d..] == s[j..];
      assert MatchAt(s[d..], j - d, at) == MatchAt(s, j, at);
    }
    if Covered(s[d..], i - d, at) {
      var j :| 0 <= j < i - d && MatchAt(s[d..], j, at).Some? && i - d <= j + MatchAt(s[d..], j, at).value;
      assert s[d..][j..] == s[j + d..];
      assert MatchAt(s[d..], j, at) == MatchAt(s, j + d, at);
    }
  }

  /**
   * The fix turns exactly the `;` inside a code list into `,` and leaves
   * every other character where it is.
   */
  lemma {:induction false} FixSemicolonsPointwise(s: string)
    ensures forall i :: 0 <= i < |s| ==> FixSemicolons(s)[i] == if s[i] == ';' && InCodeList(s, i) then ',' else s[i]
    decreases |s|
  {
    if s != [] {
      match CodeListAt(s)
      case Some(k) =>
        var rest := s[k + 2..];
        FixSemicolonsPointwise(rest);
        FixAtCodeList(s, k);
        forall i | 0 <= i < |s| ensures FixSemicolons(s)[i] == if s[i] == ';' && InCodeList(s, i) then ',' else s[i] {
          if 1 <= i <= k {
            InsideCodeList(s, k, i);
          } else if i >= k + 2 {
            FixPastCodeList(s, k, i);
            InCodeListAfter(s, k, i);
          } else {
            CodeListEnds(s, k, i);
          }
          assert FixedAt(s, i);
        }
      case None =>
        FixSemicolonsPointwise(s[1..]);
        forall i | 0 <= i < |s| ensures FixSemicolons(s)[i] == if s[i] == ';' && InCodeList(s, i) then ',' else s[i] {
          if i > 0 {
            assert FixedAt(s[1..], i - 1);
            AfterOther(s, i);
          } else {
            OtherHead(s);
          }
          assert FixedAt(s, i);
        }
    }
  }

  /** Position `i` of the fixed text is as `FixSemicolonsPointwise` says. */
  ghost predicate FixedAt(s: string, i: nat)
    requires i < |s|
  {
    FixSemicolons(s)[i] == if s[i] == ';' && InCodeList(s, i) then ',' else s[i]
  }

  /** The brackets of a code list at the start are kept. */
  lemma CodeListEnds(s: string, k: nat, i: nat)
    requires CodeListAt(s) == Some(k) && (i == 0 || i == k + 1)
    ensures FixedAt(s, i)
  {
    FixAtCodeList(s, k);
  }

  /** Inside a code list at the start, a `;` becomes `,`. */
  lemma InsideCodeList(s: string, k: nat, i: nat)
    requires CodeListAt(s) == Some(k) && 1 <= i <= k
    ensures FixedAt(s, i)
  {
    FixAtCodeList(s, k);
    assert FixSemicolons(s)[i] == Commas(s[1..k + 1])[i - 1];
    assert s[0..] == s;
    assert MatchAt(s, 0, CodeListAt) == CodeListAt(s);
  }

  /** Position `i` of `a + b` past `a` is in `b`. */
  lemma IndexPast(r: string, a: string, b: string, i: nat)
    requires r == a + b && |a| <= i < |r|
    ensures r[i] == b[i - |a|]
  {
  }

  /** Past a code list at the start, the fixed text is the fix of the rest, position by position. */
  lemma FixPastCodeList(s: string, k: nat, i: nat)
    requires CodeListAt(s) == Some(k) && k + 2 <= i < |s|
    ensures s[i] == s[k + 2..][i - k - 2]
    ensures FixSemicolons(s)[i] == FixSemicolons(s[k + 2..])[i - k - 2]
  {
    FixAtCodeList(s, k);
    IndexAfterList(FixSemicolons(s), Commas(s[1..k + 1]), FixSemicolons(s[k + 2..]), i);
  }

  /** Past a bracketed list, a position of the whole is in what follows. */
  lemma IndexAfterList(r: string, c: string, t: string, i: nat)
    requires r == "(" + c + ")" + t && |c| + 2 <= i < |r|
    ensures r[i] == t[i - |c| - 2]
  {
  }

  /** A position whose character, fix and code-list membership agree with a fixed position of another text is fixed. */
  lemma FixedAtShift(s: string, i: nat, t: string, j: nat)
    requires i < |s| && j < |t| && s[i] == t[j] && FixedAt(t, j)
    requires FixSemicolons(s)[i] == FixSemicolons(t)[j] && InCodeList(s, i) == InCodeList(t, j)
    ensures FixedAt(s, i)
  {
  }

  /** A character that opens no code list is kept. */
  lemma OtherHead(s: string)
    requires s != [] && CodeListAt(s).None?
    ensures FixedAt(s, 0)
  {
    assert FixSemicolons(s) == [s[0]] + FixSemicolons(s[1..]);
  }

  /** Past a character that opens no code list, the fix of the tail decides. */
  lemma AfterOther(s: string, i: nat)
    requires s != [] && CodeListAt(s).None? && 0 < i < |s| && FixedAt(s[1..], i - 1)
    ensures FixedAt(s, i)
  {
    assert FixSemicolons(s)[i] == FixSemicolons(s[1..])[i - 1];
    InCodeListShift(s, i);
  }

  /** Past a code list at the start, a position is inside a code list exactly when it is so in the rest. */
  lemma InCodeListAfter(s: string, k: nat, i: nat)
    requires CodeListAt(s) == Some(k) && k + 2 <= i < |s|
    ensures InCodeList(s, i) <==> InCodeList(s[k + 2..], i - k - 2)
  {
    forall j | 0 <= j < k + 2 ensures MatchAt(s, j, CodeListAt).None? || j + MatchAt(s, j, CodeListAt).value < i {
      if MatchAt(s, j, CodeListAt).Some? {
        NextCodeList(s, k, j);
        assert s[0..] == s;
      }
    }
    CoveredDrop(s, k + 2, i, CodeListAt);
  }

  /** A code list holds no `(` and ends in `)`, so the next one starts after it. */
  lemma NextCodeList(s: string, k: nat, j: nat)
    requires CodeListAt(s) == Some(k) && j < |s| && CodeListAt(s[j..]).Some?
    ensures j == 0 || j >= k + 2
  {
    assert s[j..][0] == s[j];
  }

  /** Without a code list at the start, a later position is inside one exactly when it is so in the tail. */
  lemma InCodeListShift(s: string, i: nat)
    requires s != [] && CodeListAt(s).None? && 0 < i < |s|
    ensures InCodeList(s, i) <==> InCodeList(s[1..], i - 1)
  {
    assert s[0..] == s;
    CoveredDrop(s, 1, i, CodeListAt);
  }

  /** Fixing an already fixed text changes nothing more. */
  lemma {:induction false} FixSemicolonsIdempotent(s: string)
    ensures FixSemicolons(FixSemicolons(s)) == FixSemicolons(s)
    decreases |s|
  {
    if s != [] {
      var r := FixSemicolons(s);
      FixSemicolonsPointwise(s);
      SameShapeCodeList(s, r);
      match CodeListAt(s)
      case Some(k) =>
        FixSemicolonsIdempotent(s[k + 2..]);
        IdempotentAtCodeList(s, k);
      case None =>
        FixSemicolonsIdempotent(s[1..]);
        IdempotentAtOther(s);
    }
  }

  /** The step of `FixSemicolonsIdempotent` at a code list, given the fix of what follows it is idempotent. */
  lemma IdempotentAtCodeList(s: string, k: nat)
    requires CodeListAt(s) == Some(k)
    requires CodeListAt(FixSemicolons(s)) == Some(k)
    requires FixSemicolons(FixSemicolons(s[k + 2..])) == FixSemicolons(s[k + 2..])
    ensures FixSemicolons(FixSemicolons(s)) == FixSemicolons(s)
  {
    var r := FixSemicolons(s);
    var c := Commas(s[1..k + 1]);
    assert |c| == k;
    FixAtCodeList(s, k);
    CommasIdempotent(s[1..k + 1]);
    FixedCodeList(r, c, FixSemicolons(s[k + 2..]));
  }

  /** A code list without `;`, followed by a text the fix leaves alone, is left alone. */
  lemma FixedCodeList(r: string, c: string, t: string)
    requires r == "(" + c + ")" + t
    requires CodeListAt(r) == Some(|c|)
    requires Commas(c) == c && FixSemicolons(t) == t
    ensures FixSemicolons(r) == r
  {
    ListParts(r, c, t);
    FixAtCodeList(r, |c|);
  }

  /** The inside and the rest of a bracketed list followed by a text. */
  lemma ListParts(r: string, c: string, t: string)
    requires r == "(" + c + ")" + t
    ensures r[1..|c| + 1] == c && r[|c| + 2..] == t
  {
    assert r[1..|c| + 1] == c;
    assert r[|c| + 2..] == t;
  }

  /** A code list is replaced by its `,` version, and the fix goes on after its `)`. */
  lemma FixAtCodeList(s: string, k: nat)
    requires CodeListAt(s) == Some(k)
    ensures FixSemicolons(s) == "(" + Commas(s[1..k + 1]) + ")" + FixSemicolons(s[k + 2..])
  {
  }

  /** A list without `;` keeps its commas. */
  lemma CommasIdempotent(t: string)
    ensures Commas(Commas(t)) == Commas(t)
  {
  }

  /** The step of `FixSemicolonsIdempotent` at any other character. */
  lemma IdempotentAtOther(s: string)
    requires s != [] && CodeListAt(s) == None
    requires CodeListAt(FixSemicolons(s)) == None
    requires FixSemicolons(FixSemicolons(s[1..])) == FixSemicolons(s[1..])
    ensures FixSemicolons(FixSemicolons(s)) == FixSemicolons(s)
  {
    var r := FixSemicolons(s);
    assert r == [s[0]] + FixSemicolons(s[1..]);
    assert r[1..] == FixSemicolons(s[1..]);
  }

  /** The example the source comments give: the code list's `;` becomes `,`, the separator after it stays. */
  lemma FixSemicolonsExample()
    ensures FixSemicolons("(G,A;AA);y") == "(G,A,AA);y"
  {
    var t := "(G,A;AA);y";
    ExampleRun();
    FixAtCodeList(t, 6);
    assert t[1..7] == "G,A;AA";
    assert t[8..] == ";y";
    ExampleTail();
    ExampleCommas();
    ExampleJoined();
  }

  lemma ExampleJoined()
    ensures "(" + "G,A,AA" + ")" + ";y" == "(G,A,AA);y"
  {
  }

  lemma ExampleTail()
    ensures FixSemicolons(";y") == ";y"
  {
    assert CodeListAt(";y") == None;
    assert ";y"[1..] == "y";
    assert FixSemicolons("y") == "y";
  }

  lemma ExampleCommas()
    ensures Commas("G,A;AA") == "G,A,AA"
  {
  }

  lemma ExampleRun()
    ensures CodeListAt("(G,A;AA);y") == Some(6)
  {
    var t := "(G,A;AA);y";
    assert CodeRun(t, 7) == 0;
    assert CodeRun(t, 6) == 1;
    assert CodeRun(t, 5) == 2;
    assert CodeRun(t, 4) == 3;
    assert CodeRun(t, 3) == 4;
    assert CodeRun(t, 2) == 5;
    assert CodeRun(t, 1) == 6;
  }

  // ---------------------------------------------------------------------------

  /** `[0-9]{2}\.[0-9]{2}\.[0-9]{4};` at position `i`: the start of a dated row. */
  predicate DateAhead(s: string, i: nat)
  {
    i + 11 <= |s| &&
    IsDigit(s[i]) && IsDigit(s[i + 1]) && s[i + 2] == '.' &&
    IsDigit(s[i + 3]) && IsDigit(s[i + 4]) && s[i + 5] == '.' &&
    IsDigit(s[i + 6]) && IsDigit(s[i + 7]) && IsDigit(s[i + 8]) && IsDigit(s[i + 9]) && s[i + 10] == ';'
  }

  /** `re.sub("\n(?![0-9]{2}\.[0-9]{2}\.[0-9]{4};)", " ", text)`, one character at a time. */
  function FixNewlines(s: string): (r: string)
    ensures |r| == |s|
    decreases |s|
  {
    if s == [] then []
    else [if s[0] == '\n' && !DateAhead(s, 1) then ' ' else s[0]] + FixNewlines(s[1..])
  }

  lemma {:induction false} FixNewlinesAt(s: string, i: nat)
    requires i < |s|
    ensures FixNewlines(s)[i] == if s[i] == '\n' && !DateAhead(s, i + 1) then ' ' else s[i]
    decreases |s|
  {
    if i > 0 {
      FixNewlinesAt(s[1..], i - 1);
      assert DateAhead(s[1..], i) <==> DateAhead(s, i + 1) by {
        if i + 12 <= |s| {
          assert forall j :: i <= j < i + 11 ==> s[1..][j] == s[j + 1];
        }
      }
    }
  }

  /** A date pattern never covers a newline or a space, so the fix does not change where dates start. */
  lemma DateAheadKept(s: string, i: nat)
    ensures DateAhead(FixNewlines(s), i) <==> DateAhead(s, i)
  {
    if i + 11 <= |s| {
      forall j | i <= j < i + 11 ensures FixNewlines(s)[j] == s[j] || (s[j] == '\n' && FixNewlines(s)[j] == ' ') {
        FixNewlinesAt(s, j);
      }
    }
  }

  /**
   * After the fix, every newline starts a dated row, and the only change
   * is newline to space; fixing again changes nothing.
   */
  lemma FixNewlinesMeaning(s: string)
    ensures forall i :: 0 <= i < |s| && FixNewlines(s)[i] == '\n' ==> DateAhead(FixNewlines(s), i + 1)
    ensures forall i :: 0 <= i < |s| && FixNewlines(s)[i] != s[i] ==> s[i] == '\n' && FixNewlines(s)[i] == ' '
    ensures FixNewlines(FixNewlines(s)) == FixNewlines(s)
  {
    var r := FixNewlines(s);
    forall i | 0 <= i < |s|
      ensures r[i] == '\n' ==> DateAhead(r, i + 1)
      ensures r[i] != s[i] ==> s[i] == '\n' && r[i] == ' '
      ensures FixNewlines(r)[i] == r[i]
    {
      FixNewlinesAt(s, i);
      FixNewlinesAt(r, i);
      DateAheadKept(s, i + 1);
    }
  }
}
