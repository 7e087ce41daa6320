/**
 * The bracket-scanning tokenizer `__parse_name`, shared by both menu parsers
 * (stwno_api/menu_parser.py and mensabot/mensa_menu.py run the same loop; they
 * differ only in a pre-pass and in what they return on abort).
 *
 * A raw dish name such as `Schweinebraten, S (2,3,G)` is cut at brackets:
 * text outside brackets becomes name fragments (losing a trailing `, <tags>`
 * suffix to the dietary tags `kennz`), text inside a bracket pair becomes
 * ingredient tags `zusatz` when it starts like a tag list, and is otherwise
 * kept in the name as `(text)`.
 */
module NameScanner {
  import opened Common

  /**
   * A hit of the `PATTERN_KENNZ` search in a stripped name fragment: where the
   * match starts and its first group (the tag list after `,` or `*`).
   */
  datatype KennzMatch = KennzMatch(start: nat, group: string)

  /** The pattern is anchored at the end and its group runs to the end of the text. */
  ghost predicate KennzSearchSound(search: string -> Option<KennzMatch>)
  {
    forall t :: search(t).Some? ==> FitsIn(search(t).value, t)
  }

  predicate FitsIn(m: KennzMatch, t: string)
  {
    m.start + |m.group| <= |t| && m.group == t[|t| - |m.group|..]
  }

  /** The scanner's variables: the three output lists, the token buffer and the bracket flag. */
  datatype Scan = Scan(names: seq<string>, zusatz: seq<string>, kennz: seq<string>, token: string, brackets: bool)

  const Start := Scan([], [], [], "", false)

  /** What `__parse_name` returns, short of the abort value each caller picks. */
  datatype Parsed = Aborted | Parsed(names: seq<string>, zusatz: seq<string>, kennz: seq<string>)

  /** `[s.strip() for s in text.split(",")]`. */
  function StrippedPieces(text: string): (r: seq<string>)
    ensures |r| == |Split(text, ',')|
    ensures forall i :: 0 <= i < |r| ==> r[i] == Strip(Split(text, ',')[i])
  {
    var parts := Split(text, ',');
    seq(|parts|, i requires 0 <= i < |parts| => Strip(parts[i]))
  }

  /**
   * `re.match(PATTERN_ZUSATZ, token)`: the pattern starts with one mandatory
   * tag and every tag alternative starts with an upper-case letter or a digit,
   * while the repeated part may match nothing, so a prefix match succeeds
   * exactly when the first character is one of those.
   */
  predicate LooksLikeZusatz(token: string)
  {
    token != [] && (IsAsciiUpper(token[0]) || IsDigit(token[0]))
  }

  /** `append_name`: strip, move a trailing tag suffix to `kennz`, append the rest. */
  function AppendName(st: Scan, token: string, search: string -> Option<KennzMatch>): Scan
    requires KennzSearchSound(search)
  {
    var t := Strip(token);
    match search(t)
    case None => st.(names := st.names + [t])
    case Some(m) => st.(names := st.names + [t[..m.start]], kennz := st.kennz + StrippedPieces(m.group))
  }

  /** `append_zusatz`: a tag list goes to `zusatz`, anything else back into the name in brackets. */
  function AppendZusatz(st: Scan, token: string): Scan
  {
    var t := Strip(token);
    if LooksLikeZusatz(t) then st.(zusatz := st.zusatz + StrippedPieces(t))
    else st.(names := st.names + ["(" + t + ")"])
  }

  /** One character of the scan; `None` is the early `return` on a misplaced bracket. */
  function Step(st: Scan, c: char, search: string -> Option<KennzMatch>): Option<Scan>
    requires KennzSearchSound(search)
  {
    if c == '(' then
      if st.brackets then None
      else Some(AppendName(st, st.token, search).(token := "", brackets := true))
    else if c == ')' then
      if !st.brackets then None
      else Some(AppendZusatz(st, st.token).(token := "", brackets := false))
    else Some(st.(token := st.token + [c]))
  }

  /** The scan loop over `s` from state `st`. */
  function Run(st: Scan, s: string, search: string -> Option<KennzMatch>): Option<Scan>
    requires KennzSearchSound(search)
    decreases s
  {
    if s == [] then Some(st)
    else
      match Step(st, s[0], search)
      case None => None
      case Some(next) => Run(next, s[1..], search)
  }

  /** After the loop: a non-empty buffer is one more name fragment. */
  function Finish(st: Scan, search: string -> Option<KennzMatch>): Scan
    requires KennzSearchSound(search)
  {
    if st.token != "" then AppendName(st, st.token, search) else st
  }

  /** `__parse_name` as a function of its input. */
  function ScanName(s: string, search: string -> Option<KennzMatch>): Parsed
    requires KennzSearchSound(search)
  {
    match Run(Start, s, search)
    case None => Aborted
    case Some(st) =>
      var fin := Finish(st, search);
      Parsed(fin.names, fin.zusatz, fin.kennz)
  }

  /** The scanning loop of `__parse_name`, character by character. */
  method ParseName(s: string, search: string -> Option<KennzMatch>) returns (r: Parsed)
    requires KennzSearchSound(search)
    ensures r == ScanName(s, search)
  {
    var st := Start;
    assert s[0..] == s;
    for i := 0 to |s|
      invariant Run(Start, s, search) == Run(st, s[i..], search)
    {
      RunAt(st, s, i, search);
      var next := Advance(st, s[i], search);
      if next.None? {
        return Aborted;
      }
      st := next.value;
    }
    assert s[|s|..] == [];
    if st.token != "" {
      st := AppendName(st, st.token, search);
    }
    r := Parsed(st.names, st.zusatz, st.kennz);
  }

  /** One character of the loop: a misplaced bracket ends the scan. */
  method Advance(st: Scan, c: char, search: string -> Option<KennzMatch>) returns (next: Option<Scan>)
    requires KennzSearchSound(search)
    ensures next == Step(st, c, search)
  {
    if c == '(' {
      if st.brackets {
        return None;
      }
      var s := AppendName(st, st.token, search);
      next := Some(s.(token := "", brackets := true));
    } else if c == ')' {
      if !st.brackets {
        return None;
      }
      var s := AppendZusatz(st, st.token);
      next := Some(s.(token := "", brackets := false));
    } else {
      next := Some(st.(token := st.token + [c]));
    }
  }

  /** The scan from position `i` is the step on `s[i]` followed by the scan from `i + 1`. */
  lemma RunAt(st: Scan, s: string, i: nat, search: string -> Option<KennzMatch>)
    requires KennzSearchSound(search)
    requires i < |s|
    ensures Run(st, s[i..], search) ==
      match Step(st, s[i], search)
      case None => None
      case Some(next) => Run(next, s[i + 1..], search)
  {
    assert s[i..][0] == s[i] && s[i..][1..] == s[i + 1..];
  }

  // ---------------------------------------------------------------------------
  // When the scan aborts

  /** The brackets of `s`, in order. */
  function Brackets(s: string): (r: string)
    ensures forall i :: 0 <= i < |r| ==> r[i] == '(' || r[i] == ')'
  {
    if s == [] then []
    else if s[0] == '(' || s[0] == ')' then [s[0]] + Brackets(s[1..])
    else Brackets(s[1..])
  }

  /** `()()()…`, starting with `)` when already inside brackets. */
  predicate Alternates(b: string, inside: bool)
  {
    b == [] || (b[0] == (if inside then ')' else '(') && Alternates(b[1..], !inside))
  }

  lemma {:induction false} RunAbortsIff(st: Scan, s: string, search: string -> Option<KennzMatch>)
    requires KennzSearchSound(search)
    ensures Run(st, s, search).None? <==> !Alternates(Brackets(s), st.brackets)
    decreases s
  {
    if s != [] {
      match Step(st, s[0], search)
      case None =>
      case Some(next) =>
        RunAbortsIff(next, s[1..], search);
    }
  }

  /**
   * The scan gives up exactly when the brackets do not alternate `(`, `)`,
   * `(`, … from the left: a `(` while inside brackets or a `)` outside them.
   * An unclosed final `(` does not abort.
   */
  lemma ScanAbortsIff(s: string, search: string -> Option<KennzMatch>)
    requires KennzSearchSound(search)
    ensures ScanName(s, search).Aborted? <==> !Alternates(Brackets(s), false)
  {
    RunAbortsIff(Start, s, search);
  }

  // ---------------------------------------------------------------------------
  // The shape of what the scan produces

  predicate BracketFree(t: string)
  {
    '(' !in t && ')' !in t
  }

  /** A tag is a stripped piece of a comma-separated list. */
  predicate IsTag(t: string)
  {
    ',' !in t && BracketFree(t) && (t == [] || (!IsSpace(t[0]) && !IsSpace(t[|t| - 1])))
  }

  /** A name fragment is bracket-free text, or a bracketed remark `(text)`. */
  predicate IsFragment(t: string)
  {
    BracketFree(t) || (|t| >= 2 && t[0] == '(' && t[|t| - 1] == ')' && BracketFree(t[1..|t| - 1]))
  }

  ghost predicate WellShaped(st: Scan)
  {
    BracketFree(st.token) &&
    (forall i :: 0 <= i < |st.names| ==> IsFragment(st.names[i])) &&
    (forall i :: 0 <= i < |st.zusatz| ==> IsTag(st.zusatz[i])) &&
    (forall i :: 0 <= i < |st.kennz| ==> IsTag(st.kennz[i]))
  }

  lemma StripBracketFree(t: string)
    requires BracketFree(t)
    ensures BracketFree(Strip(t))
  {
    StripKeeps(t, '(');
    StripKeeps(t, ')');
  }

  lemma PiecesAreTags(text: string)
    requires BracketFree(text)
    ensures forall i :: 0 <= i < |StrippedPieces(text)| ==> IsTag(StrippedPieces(text)[i])
  {
    var parts := Split(text, ',');
    forall i | 0 <= i < |parts|
      ensures IsTag(Strip(parts[i]))
    {
      SplitPiecesKeep(text, i);
      StripKeeps(parts[i], ',');
      StripBracketFree(parts[i]);
    }
  }

  lemma {:induction false} SplitPiecesKeep(text: string, i: nat)
    requires BracketFree(text)
    requires i < |Split(text, ',')|
    ensures BracketFree(Split(text, ',')[i])
  {
    if text != [] {
      if text[0] != ',' {
        var rest := Split(text[1..], ',');
        if i == 0 {
          SplitPiecesKeep(text[1..], 0);
        } else {
          SplitPiecesKeep(text[1..], i);
        }
      } else if i > 0 {
        SplitPiecesKeep(text[1..], i - 1);
      }
    }
  }

  lemma PrefixBracketFree(t: string, n: nat)
    requires BracketFree(t) && n <= |t|
    ensures BracketFree(t[..n]) && BracketFree(t[|t| - n..])
  {
    assert forall c :: c in t[..n] ==> c in t;
    assert forall c :: c in t[|t| - n..] ==> c in t;
  }

  lemma AppendNameShaped(st: Scan, token: string, search: string -> Option<KennzMatch>)
    requires KennzSearchSound(search)
    requires WellShaped(st) && BracketFree(token)
    ensures WellShaped(AppendName(st, token, search).(token := ""))
  {
    var t := Strip(token);
    StripBracketFree(token);
    match search(t)
    case None =>
      assert IsFragment(t);
    case Some(m) =>
      assert FitsIn(m, t);
      PrefixBracketFree(t, m.start);
      PrefixBracketFree(t, |m.group|);
      PiecesAreTags(m.group);
      var pieces := StrippedPieces(m.group);
      assert IsFragment(t[..m.start]);
      var r := AppendName(st, token, search);
      assert r.kennz == st.kennz + pieces;
      assert forall i :: 0 <= i < |r.kennz| ==> IsTag(r.kennz[i]) by {
        forall i | 0 <= i < |r.kennz|
          ensures IsTag(r.kennz[i])
        {
          if i >= |st.kennz| {
            assert r.kennz[i] == pieces[i - |st.kennz|];
          }
        }
      }
  }

  lemma AppendZusatzShaped(st: Scan, token: string)
    requires WellShaped(st) && BracketFree(token)
    ensures WellShaped(AppendZusatz(st, token).(token := ""))
  {
    var t := Strip(token);
    StripBracketFree(token);
    if LooksLikeZusatz(t) {
      PiecesAreTags(t);
    } else {
      assert ("(" + t + ")")[1..|t| + 1] == t;
    }
  }

  lemma {:induction false} RunShaped(st: Scan, s: string, search: string -> Option<KennzMatch>)
    requires KennzSearchSound(search)
    requires WellShaped(st)
    ensures Run(st, s, search).Some? ==> WellShaped(Run(st, s, search).value)
    decreases s
  {
    if s != [] {
      var c := s[0];
      if c == '(' && !st.brackets {
        AppendNameShaped(st, st.token, search);
        RunShaped(AppendName(st, st.token, search).(token := "", brackets := true), s[1..], search);
      } else if c == ')' && st.brackets {
        AppendZusatzShaped(st, st.token);
        RunShaped(AppendZusatz(st, st.token).(token := "", brackets := false), s[1..], search);
      } else if c != '(' && c != ')' {
        RunShaped(st.(token := st.token + [c]), s[1..], search);
      }
    }
  }

  /**
   * Every name fragment is bracket-free or a bracketed remark `(text)`, and
   * every tag is a stripped, comma-free, bracket-free piece.
   */
  lemma ScanShapes(s: string, search: string -> Option<KennzMatch>)
    requires KennzSearchSound(search)
    ensures ScanName(s, search).Parsed? ==>
      (forall i :: 0 <= i < |ScanName(s, search).names| ==> IsFragment(ScanName(s, search).names[i])) &&
      (forall i :: 0 <= i < |ScanName(s, search).zusatz| ==> IsTag(ScanName(s, search).zusatz[i])) &&
      (forall i :: 0 <= i < |ScanName(s, search).kennz| ==> IsTag(ScanName(s, search).kennz[i]))
  {
    RunShaped(Start, s, search);
    match Run(Start, s, search)
    case None =>
    case Some(st) =>
      if st.token != "" {
        AppendNameShaped(st, st.token, search);
      }
  }

  // ---------------------------------------------------------------------------
  // Names without brackets

  lemma {:induction false} RunWithoutBrackets(st: Scan, s: string, search: string -> Option<KennzMatch>)
    requires KennzSearchSound(search)
    requires BracketFree(s)
    ensures Run(st, s, search) == Some(st.(token := st.token + s))
    decreases s
  {
    if s == [] {
      assert st.token + s == st.token;
    } else {
      RunWithoutBrackets(st.(token := st.token + [s[0]]), s[1..], search);
      assert st.token + [s[0]] + s[1..] == st.token + s;
    }
  }

  /** Without brackets the whole text is one name fragment, or nothing if it is empty. */
  lemma ScanWithoutBrackets(s: string, search: string -> Option<KennzMatch>)
    requires KennzSearchSound(search)
    requires BracketFree(s)
    ensures s == [] ==> ScanName(s, search) == Parsed([], [], [])
    ensures s != [] ==>
      var st := AppendName(Start, s, search);
      ScanName(s, search) == Parsed(st.names, [], st.kennz) && |st.names| == 1
  {
    RunWithoutBrackets(Start, s, search);
    assert Start.token + s == s;
  }

  // ---------------------------------------------------------------------------
  // The Salatmix fix of both parsers

  /** The length of the run of `I`/`V` at the front of `s`. */
  function RomanRun(s: string): (n: nat)
    ensures n <= |s|
    ensures forall i :: 0 <= i < n ==> s[i] == 'I' || s[i] == 'V'
    ensures n < |s| ==> s[n] != 'I' && s[n] != 'V'
  {
    if s == [] || (s[0] != 'I' && s[0] != 'V') then 0 else 1 + RomanRun(s[1..])
  }

  /**
   * `re.match("Salatmix( [IV]+)?", name).group()`: "Salatmix", followed by a
   * space and the longest run of roman-numeral letters if there is one.
   */
  function SalatmixName(name: string): (r: string)
    requires StartsWith(name, "Salatmix")
    ensures StartsWith(r, "Salatmix") && StartsWith(name, r)
    ensures |r| == 8 <==> !(|name| > 9 && name[8] == ' ' && (name[9] == 'I' || name[9] == 'V'))
    ensures |r| > 8 ==> |r| > 9 && r[8] == ' ' && forall i :: 9 <= i < |r| ==> r[i] == 'I' || r[i] == 'V'
    ensures |r| > 8 && |r| < |name| ==> name[|r|] != 'I' && name[|r|] != 'V'
  {
    if |name| > 9 && name[8] == ' ' && (name[9] == 'I' || name[9] == 'V') then
      var n := RomanRun(name[9..]);
      assert name[..9 + n][..8] == name[..8];
      name[..9 + n]
    else name[..8]
  }

  // ---------------------------------------------------------------------------
  // The newer parser's pre-pass: `re.sub("\(+", "(", re.sub("\)+", ")", s))`

  /** No `c` directly follows another `c`. */
  predicate NoDoubled(s: string, c: char)
  {
    forall i :: 0 <= i < |s| - 1 ==> !(s[i] == c && s[i + 1] == c)
  }

  /**
   * For each character other than `c`, and for the end of the text, whether
   * a run of `c` comes right before it (`pending` says whether one is already
   * open). Together with `Without` this is the text up to the length of its
   * runs of `c`.
   */
  function Marks(s: string, c: char, pending: bool): (r: seq<bool>)
    ensures |r| == |Without(s, c)| + 1
  {
    if s == [] then [pending]
    else if s[0] == c then Marks(s[1..], c, true)
    else [pending] + Marks(s[1..], c, false)
  }

  /**
   * `re.sub(c + "+", c, s)`: every run of `c` replaced by a single `c`. The
   * other characters stay in order, and each run leaves one `c` in its place.
   */
  function CollapseRuns(s: string, c: char): (r: string)
    ensures |r| <= |s|
    ensures s != [] ==> r != [] && r[0] == s[0]
    ensures NoDoubled(r, c)
    ensures Without(r, c) == Without(s, c)
    ensures forall p :: Marks(r, c, p) == Marks(s, c, p)
  {
    if |s| <= 1 then s
    else if s[0] == c && s[1] == c then
      var r := CollapseRuns(s[1..], c);
      assert s[1..][0] == c && s[1..][1..] == s[2..];
      r
    else
      var t := CollapseRuns(s[1..], c);
      var r := [s[0]] + t;
      assert r[1..] == t;
      r
  }

  /**
   * The contract of `CollapseRuns` leaves no choice: two texts without
   * doubled `c` that agree on the other characters and on where runs of `c`
   * sit are equal.
   */
  lemma {:induction false} CollapsedUnique(a: string, b: string, c: char, p: bool)
    requires NoDoubled(a, c) && NoDoubled(b, c)
    requires p ==> (a == [] || a[0] != c) && (b == [] || b[0] != c)
    requires Without(a, c) == Without(b, c) && Marks(a, c, p) == Marks(b, c, p)
    ensures a == b
    decreases |a| + |b|
  {
    if a != [] && b != [] {
      if (a[0] == c) != (b[0] == c) {
        MarksShape(a, b, c, p);
      } else {
        var q := a[0] == c;
        SameStep(a, b, c, p);
        NoDoubledTail(a, c);
        NoDoubledTail(b, c);
        CollapsedUnique(a[1..], b[1..], c, q);
        assert a == [a[0]] + a[1..] && b == [b[0]] + b[1..];
      }
    } else if a != [] || b != [] {
      OneEmptyMarks(if a == [] then b else a, c, p);
    }
  }

  /** Any text without doubled `c` that keeps the other characters and the places of the runs is the collapsed text. */
  lemma CollapseRunsOnly(s: string, c: char, t: string)
    requires NoDoubled(t, c) && Without(t, c) == Without(s, c) && Marks(t, c, false) == Marks(s, c, false)
    ensures t == CollapseRuns(s, c)
  {
    CollapsedUnique(t, CollapseRuns(s, c), c, false);
  }

  /** Two texts that agree and open alike agree on their first character and on what follows. */
  lemma SameStep(a: string, b: string, c: char, p: bool)
    requires a != [] && b != [] && (a[0] == c) == (b[0] == c)
    requires Without(a, c) == Without(b, c) && Marks(a, c, p) == Marks(b, c, p)
    ensures a[0] == b[0]
    ensures Without(a[1..], c) == Without(b[1..], c)
    ensures Marks(a[1..], c, a[0] == c) == Marks(b[1..], c, a[0] == c)
  {
    if a[0] != c {
      assert Without(a, c) == [a[0]] + Without(a[1..], c);
      assert Without(b, c) == [b[0]] + Without(b[1..], c);
      assert Marks(a, c, p) == [p] + Marks(a[1..], c, false);
      assert Marks(b, c, p) == [p] + Marks(b[1..], c, false);
      assert Without(a[1..], c) == Without(a, c)[1..];
      assert Without(b[1..], c) == Without(b, c)[1..];
      assert Marks(a[1..], c, false) == Marks(a, c, p)[1..];
      assert Marks(b[1..], c, false) == Marks(b, c, p)[1..];
    } else {
      assert Without(a, c) == Without(a[1..], c);
      assert Without(b, c) == Without(b[1..], c);
    }
  }

  /** Dropping the first character keeps a text free of doubled `c`, and after a `c` comes no `c`. */
  lemma NoDoubledTail(a: string, c: char)
    requires a != [] && NoDoubled(a, c)
    ensures NoDoubled(a[1..], c)
    ensures a[0] == c ==> a[1..] == [] || a[1..][0] != c
  {
    forall i | 0 <= i < |a[1..]| - 1 ensures !(a[1..][i] == c && a[1..][i + 1] == c) {
      assert a[1..][i] == a[i + 1] && a[1..][i + 1] == a[i + 2];
    }
  }

  /** A text holding only `c`, without doubled `c`, is empty or one `c`. */
  lemma OneEmptyMarks(s: string, c: char, p: bool)
    requires s != [] && NoDoubled(s, c) && Without(s, c) == []
    requires p ==> s[0] != c
    ensures Marks(s, c, p) != [p]
  {
    assert s[0] == c;
    OnlyRunsShort(s, c);
  }

  /** Without doubled `c`, a text of two or more characters keeps one after removing `c`. */
  lemma OnlyRunsShort(s: string, c: char)
    ensures NoDoubled(s, c) && Without(s, c) == [] ==> |s| <= 1
  {
    if |s| > 1 && NoDoubled(s, c) {
      if s[0] == c {
        assert s[1] != c;
        assert Without(s, c) == Without(s[1..], c);
        assert s[1..][0] == s[1] && s[1..][1..] == s[2..];
        assert Without(s[1..], c) == [s[1]] + Without(s[2..], c);
      } else {
        assert Without(s, c) == [s[0]] + Without(s[1..], c);
      }
    }
  }

  /** A text opening with `c` and one opening with another character are told apart. */
  lemma MarksShape(a: string, b: string, c: char, p: bool)
    requires a != [] && b != [] && (a[0] == c) != (b[0] == c)
    requires NoDoubled(a, c) && NoDoubled(b, c)
    requires p ==> a[0] != c && b[0] != c
    requires Without(a, c) == Without(b, c)
    ensures Marks(a, c, p) != Marks(b, c, p)
  {
    var (x, y) := if a[0] == c then (a, b) else (b, a);
    assert Without(y, c) == [y[0]] + Without(y[1..], c);
    RunMarked(x, c);
    assert Marks(y, c, p)[0] == p;
  }

  /** A single `c` before another character marks that character. */
  lemma RunMarked(x: string, c: char)
    requires x != [] && x[0] == c && NoDoubled(x, c) && Without(x, c) != []
    ensures Marks(x, c, false)[0]
  {
    assert Without(x, c) == Without(x[1..], c);
    assert x[1] != c;
    assert Marks(x, c, false) == Marks(x[1..], c, true) == [true] + Marks(x[2..], c, false);
  }

  /** Text without doubled `c` is left alone, so collapsing twice changes nothing more. */
  lemma {:induction false} CollapseRunsFixed(s: string, c: char)
    requires NoDoubled(s, c)
    ensures CollapseRuns(s, c) == s
  {
    if |s| > 1 {
      CollapseRunsFixed(s[1..], c);
      assert s == [s[0]] + s[1..];
    }
  }

  lemma {:induction false} CollapseRunsKeepsOthers(s: string, c: char, d: char)
    requires d != c
    ensures d in CollapseRuns(s, c) <==> d in s
  {
    if |s| > 1 {
      CollapseRunsKeepsOthers(s[1..], c, d);
      assert s == [s[0]] + s[1..];
    }
  }

  function Collapse(s: string): string
  {
    CollapseRuns(CollapseRuns(s, ')'), '(')
  }
}
