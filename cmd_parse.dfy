/**
 * The location and date dispatch of the command-line front end
 * (`stwno-cmds/stwno_cmds/parse.py`).
 *
 * Locations are looked up through the institution (`find`, the alias
 * matching of `Institution.FindLocation` with the institution fixed), dates
 * through `Parse.ParseDate`, which both front ends share.
 */
module CmdParse {
  import opened Common
  import Parse

  /** `parse_location`: nothing for the empty word, otherwise the lower-cased word is looked up. */
  function ParseLocation<L>(s: string, find: string -> Option<L>): (r: Option<L>)
    ensures s == [] ==> r == None
    ensures s != [] ==> r == find(Lower(s))
  {
    if s == [] then None else find(Lower(s))
  }

  /** A single word holding spaces is split into words; any other list is kept. */
  function Words(tokens: seq<string>): (r: seq<string>)
    ensures |tokens| == 1 && ' ' in tokens[0] ==> r == Split(tokens[0], ' ')
    ensures !(|tokens| == 1 && ' ' in tokens[0]) ==> r == tokens
  {
    if |tokens| == 1 && ' ' in tokens[0] then Split(tokens[0], ' ') else tokens
  }

  /**
   * `parse_location_date`: a location in the first word wins; the last word is
   * tried only when there are several; otherwise every word is a date.
   */
  function ParseLocationDate<L>(tokens: seq<string>, find: string -> Option<L>, parse: string -> Option<int>)
    : (r: Result<(Option<L>, Option<int>)>)
    ensures Words(tokens) == [] ==> r == Ok((None, None))
    ensures r.Ok? && r.value.0.Some? ==>
      var w := Words(tokens);
      w != [] && (r.value.0 == ParseLocation(w[0], find) || (|w| > 1 && r.value.0 == ParseLocation(w[|w| - 1], find)))
    ensures var w := Words(tokens);
      w != [] && ParseLocation(w[0], find).Some? ==>
        r == Parse.WithLocation(ParseLocation(w[0], find), Parse.ParseDate(w[1..], parse))
    ensures var w := Words(tokens);
      |w| > 1 && ParseLocation(w[0], find).None? && ParseLocation(w[|w| - 1], find).Some? ==>
        r == Parse.WithLocation(ParseLocation(w[|w| - 1], find), Parse.ParseDate(w[..|w| - 1], parse))
    ensures var w := Words(tokens);
      w != [] && ParseLocation(w[0], find).None? && (|w| == 1 || ParseLocation(w[|w| - 1], find).None?) ==>
        r == Parse.WithLocation(None, Parse.ParseDate(w, parse))
  {
    DispatchWords(Words(tokens), find, parse)
  }

  /** The dispatch once the words are known. */
  function DispatchWords<L>(w: seq<string>, find: string -> Option<L>, parse: string -> Option<int>)
    : Result<(Option<L>, Option<int>)>
  {
    if w == [] then Ok((None, None))
    else
      var first := ParseLocation(w[0], find);
      if first.Some? then Parse.WithLocation(first, Parse.ParseDate(w[1..], parse))
      else if |w| > 1 && ParseLocation(w[|w| - 1], find).Some? then
        Parse.WithLocation(ParseLocation(w[|w| - 1], find), Parse.ParseDate(w[..|w| - 1], parse))
      else Parse.WithLocation(None, Parse.ParseDate(w, parse))
  }

  /** Splitting a sentence gives the same words whether it arrives whole or already split. */
  lemma WordsOfSentence(s: string)
    ensures Words([s]) == Split(s, ' ')
    ensures Words(Split(s, ' ')) == Split(s, ' ')
  {
    var w := Split(s, ' ');
    if ' ' !in s {
      SplitWithout(s, ' ');
    } else if |w| == 1 {
      JoinSplit(s, ' ');
      assert false;
    }
  }

  /** A whole sentence passed as one token reads exactly like its words passed separately. */
  lemma SentenceAsOneToken<L>(s: string, find: string -> Option<L>, parse: string -> Option<int>)
    ensures ParseLocationDate([s], find, parse) == ParseLocationDate(Split(s, ' '), find, parse)
  {
    WordsOfSentence(s);
  }

  /**
   * The older bot's `parse_loc_date` is this dispatch with its alias table as
   * the institution: it retries the only word as the last word, which changes
   * nothing.
   */
  lemma AgreesWithBotParser(s: string, parse: string -> Option<int>)
    ensures Parse.ParseLocDate(s, parse) == ParseLocationDate([s], Parse.Alias, parse)
  {
    WordsOfSentence(s);
    var w := Split(s, ' ');
    assert ParseLocationDate([s], Parse.Alias, parse) == DispatchWords(w, Parse.Alias, parse);
    assert ParseLocation(w[0], Parse.Alias) == Parse.ParseLoc(w[0]);
    assert ParseLocation(w[|w| - 1], Parse.Alias) == Parse.ParseLoc(w[|w| - 1]);
  }
}
