/**
 * Reading a location and a date out of the words a user typed after a
 * command (`mensabot/parse.py`).
 *
 * The natural-language date parser is a parameter `parse` that returns a
 * timestamp or nothing; the dispatch around it (empty input, the "+"/"-"
 * shorthands, the error) is what is modelled.
 */
module Parse {
  import opened Common

  /** The languages the bot speaks, in order of preference. */
  const Lang: seq<string> := ["de", "en"]

  /** The canonical location names `ParseLoc` can answer. */
  const Locations: set<string> := {"audimax", "mensacafete", "nikolakloster", "wiwi", "mensaessen"}

  // ---------------------------------------------------------------------------
  // Dates

  /** A leading "+" reads as "in ", a leading "-" as "vor " ("+2 Tage" is "in 2 Tage"). */
  function RewriteDate(s: string): (r: string)
    ensures r == [] || (r[0] != '+' && r[0] != '-')
    ensures StartsWith(s, "+") ==> r == "in " + s[1..]
    ensures StartsWith(s, "-") ==> r == "vor " + s[1..]
    ensures !StartsWith(s, "+") && !StartsWith(s, "-") ==> r == s
  {
    if StartsWith(s, "+") then "in " + s[1..]
    else if StartsWith(s, "-") then "vor " + s[1..]
    else s
  }

  /** Rewriting a second time changes nothing. */
  lemma RewriteDateIdempotent(s: string)
    ensures RewriteDate(RewriteDate(s)) == RewriteDate(s)
  {
    var r := RewriteDate(s);
    assert !StartsWith(r, "+") && !StartsWith(r, "-") by {
      if r != [] { assert r[..1] == [r[0]]; }
    }
  }

  const CouldNotParseDate: string := "Could not parse date '"

  /**
   * `parse_date`: no words (or the single empty word) give no date; otherwise
   * the space-joined, rewritten words go to the date parser, and text it
   * cannot read is a `ValueError` quoting the rewritten text.
   */
  function ParseDate(tokens: seq<string>, parse: string -> Option<int>): (r: Result<Option<int>>)
    ensures tokens == [] || tokens == [""] ==> r == Ok(None)
    ensures r.Ok? && r.value.Some? ==> r.value == parse(RewriteDate(Join(tokens, " ")))
    ensures r.Err? <==>
      (tokens != [] && tokens != [""] && parse(RewriteDate(Join(tokens, " "))).None?)
    ensures r.Err? ==> r.error == ValueError(CouldNotParseDate + RewriteDate(Join(tokens, " ")) + "'")
  {
    if tokens == [] || tokens == [""] then Ok(None)
    else
      var text := RewriteDate(Join(tokens, " "));
      match parse(text)
      case None => Err(ValueError(CouldNotParseDate + text + "'"))
      case Some(v) => Ok(Some(v))
  }

  // ---------------------------------------------------------------------------
  // Locations

  /** The alias table, tried top to bottom on an already lower-cased word. */
  function Alias(l: string): (r: Option<string>)
    ensures r.Some? ==> r.value in Locations
  {
    if l == "am" || StartsWith(l, "audi") then Some("audimax")
    else if l in ["m", "mc", "mensa"] || StartsWith(l, "mensac") then Some("mensacafete")
    else if l in ["nk", "kk", "kc", "kuca", "kuka"] || StartsWith(l, "niko") || StartsWith(l, "kul") then
      Some("nikolakloster")
    else if l in ["w", "wi", "ww", "wiwi"] then Some("wiwi")
    else if l == "essen" || StartsWith(l, "mensae") then Some("mensaessen")
    else None
  }

  /** `parse_loc`: nothing for the empty word, otherwise the alias of its lower case. */
  function ParseLoc(s: string): (r: Option<string>)
    ensures s == [] ==> r == None
    ensures r.Some? ==> r.value in Locations
  {
    if s == [] then None else Alias(Lower(s))
  }

  /** Upper and lower case make no difference. */
  lemma ParseLocIgnoresCase(s: string)
    ensures ParseLoc(Lower(s)) == ParseLoc(s)
  {
    LowerIdempotent(s);
  }

  /** A text without capitals is its own lower case. */
  lemma LowerOfLowercase(s: string)
    requires forall i :: 0 <= i < |s| ==> !IsAsciiUpper(s[i])
    ensures Lower(s) == s
  {
  }

  /** A single differing character rules a prefix out. */
  lemma NotPrefix(s: string, p: string, i: nat)
    requires i < |p| && i < |s| && s[i] != p[i]
    ensures !StartsWith(s, p)
  {
    if |p| <= |s| {
      assert s[..|p|][i] == s[i];
    }
  }

  /** Each of the five names is its own alias. */
  lemma AliasOfName(n: string)
    requires n in Locations
    ensures Alias(n) == Some(n)
  {
    if n == "audimax" {
      assert n[..4] == "audi";
    } else if n == "mensacafete" {
      NotPrefix(n, "audi", 0);
      assert n[..6] == "mensac";
    } else if n == "nikolakloster" {
      NotPrefix(n, "audi", 0);
      NotPrefix(n, "mensac", 0);
      assert n[..4] == "niko";
    } else if n == "wiwi" {
      NotPrefix(n, "audi", 0);
      NotPrefix(n, "niko", 0);
      NotPrefix(n, "kul", 0);
    } else {
      assert n == "mensaessen";
      NotPrefix(n, "audi", 0);
      NotPrefix(n, "mensac", 5);
      NotPrefix(n, "niko", 0);
      NotPrefix(n, "kul", 0);
      assert n[..6] == "mensae";
    }
  }

  /** Each of the five names reads as itself. */
  lemma ParseLocName(n: string)
    requires n in Locations
    ensures ParseLoc(n) == Some(n)
  {
    assert n != [];
    LowerOfLowercase(n);
    AliasOfName(n);
  }

  /** Reading an answer again gives the same answer. */
  lemma ParseLocCanonical(s: string)
    ensures ParseLoc(s).Some? ==> ParseLoc(ParseLoc(s).value) == ParseLoc(s)
  {
    if ParseLoc(s).Some? {
      ParseLocName(ParseLoc(s).value);
    }
  }

  /** "mensa" in any capitalisation is the cafeteria, not the dining hall; "essen" is the dining hall. */
  lemma ParseLocMensaIsCafete(s: string)
    ensures Lower(s) == "mensa" ==> ParseLoc(s) == Some("mensacafete")
    ensures Lower(s) == "essen" ==> ParseLoc(s) == Some("mensaessen")
  {
    var l := Lower(s);
    if l == "essen" {
      NotPrefix(l, "audi", 0);
      NotPrefix(l, "mensac", 0);
      NotPrefix(l, "niko", 0);
      NotPrefix(l, "kul", 0);
    }
  }

  // ---------------------------------------------------------------------------
  // Location and date together

  /** Attaches a location to the outcome of the date parser. */
  function WithLocation<L>(loc: Option<L>, date: Result<Option<int>>): Result<(Option<L>, Option<int>)>
  {
    match date
    case Err(e) => Err(e)
    case Ok(d) => Ok((loc, d))
  }

  /**
   * `parse_loc_date`: the text is split on single spaces; a location in the
   * first word wins, then one in the last word, and otherwise every word is
   * read as a date.
   */
  function ParseLocDate(s: string, parse: string -> Option<int>): (r: Result<(Option<string>, Option<int>)>)
    ensures r.Ok? && r.value.0.Some? ==>
      (r.value.0 == ParseLoc(Split(s, ' ')[0]) || r.value.0 == ParseLoc(Split(s, ' ')[|Split(s, ' ')| - 1]))
    ensures r.Ok? && r.value.0.Some? ==> r.value.0.value in Locations
    ensures var w := Split(s, ' ');
      ParseLoc(w[0]).Some? ==> r == WithLocation(ParseLoc(w[0]), ParseDate(w[1..], parse))
    ensures var w := Split(s, ' ');
      ParseLoc(w[0]).None? && ParseLoc(w[|w| - 1]).Some? ==>
        r == WithLocation(ParseLoc(w[|w| - 1]), ParseDate(w[..|w| - 1], parse))
    ensures var w := Split(s, ' ');
      ParseLoc(w[0]).None? && ParseLoc(w[|w| - 1]).None? ==> r == WithLocation(None, ParseDate(w, parse))
  {
    var w := Split(s, ' ');
    DispatchCases(w, parse, DispatchTokens(w, parse));
    DispatchTokens(w, parse)
  }

  /** The dispatch's three cases, read off a result of it. */
  lemma DispatchCases(w: seq<string>, parse: string -> Option<int>, r: Result<(Option<string>, Option<int>)>)
    requires w != [] && r == DispatchTokens(w, parse)
    ensures r.Ok? && r.value.0.Some? ==> (r.value.0 == ParseLoc(w[0]) || r.value.0 == ParseLoc(w[|w| - 1]))
    ensures r.Ok? && r.value.0.Some? ==> r.value.0.value in Locations
    ensures ParseLoc(w[0]).Some? ==> r == WithLocation(ParseLoc(w[0]), ParseDate(w[1..], parse))
    ensures ParseLoc(w[0]).None? && ParseLoc(w[|w| - 1]).Some? ==>
      r == WithLocation(ParseLoc(w[|w| - 1]), ParseDate(w[..|w| - 1], parse))
    ensures ParseLoc(w[0]).None? && ParseLoc(w[|w| - 1]).None? ==> r == WithLocation(None, ParseDate(w, parse))
  {
  }

  /** The dispatch once the text is split into words. */
  function DispatchTokens(tokens: seq<string>, parse: string -> Option<int>): (r: Result<(Option<string>, Option<int>)>)
    requires tokens != []
  {
    var first := ParseLoc(tokens[0]);
    if first.Some? then WithLocation(first, ParseDate(tokens[1..], parse))
    else
      var last := ParseLoc(tokens[|tokens| - 1]);
      if last.Some? then WithLocation(last, ParseDate(tokens[..|tokens| - 1], parse))
      else WithLocation(None, ParseDate(tokens, parse))
  }

  /** An empty text has neither a location nor a date. */
  lemma ParseLocDateEmpty(parse: string -> Option<int>)
    ensures ParseLocDate("", parse) == Ok((None, None))
  {
  }

  /** A location word followed by a date: the word names the location, the rest is the date. */
  lemma ParseLocDateLeadingLocation(w: string, rest: string, parse: string -> Option<int>)
    requires ' ' !in w && ParseLoc(w).Some?
    ensures ParseLocDate(w + " " + rest, parse) == WithLocation(ParseLoc(w), ParseDate(Split(rest, ' '), parse))
  {
    SplitFirst(w, ' ', rest);
  }

  /** A date followed by a location word: the word names the location, the words before it are the date. */
  lemma ParseLocDateTrailingLocation(rest: string, w: string, parse: string -> Option<int>)
    requires ' ' !in w && ParseLoc(w).Some?
    requires ParseLoc(Split(rest, ' ')[0]).None?
    ensures ParseLocDate(rest + " " + w, parse) == WithLocation(ParseLoc(w), ParseDate(Split(rest, ' '), parse))
  {
    assert rest + " " + w == rest + [' '] + w;
    SplitLast(rest, ' ', w);
    var t := Split(rest, ' ') + [w];
    assert t[0] == Split(rest, ' ')[0] && t[|t| - 1] == w && t[..|t| - 1] == Split(rest, ' ');
  }

  /** A location word alone gives that location and no date. */
  lemma ParseLocDateLocationOnly(w: string, parse: string -> Option<int>)
    requires ' ' !in w && ParseLoc(w).Some?
    ensures ParseLocDate(w, parse) == Ok((ParseLoc(w), None))
  {
    SplitWithout(w, ' ');
  }
}
