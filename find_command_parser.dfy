/**
 * The parser of the find command: the trimmed argument must not be empty, and its
 * whitespace-separated words become the keywords of a name predicate.
 */
module FindParser {
  import opened Wrappers
  import opened Text
  import opened Contacts
  import opened Parsing

  /** `FindCommandParser.parse`. */
  function Parse(args: string): (r: Result<NameContainsKeywordsPredicate, ParseError>)
    ensures r.Err? ==> r.error == InvalidCommandFormat(FindClientUsage)
  {
    var trimmed := Trim(args);
    if trimmed == [] then Err(InvalidCommandFormat(FindClientUsage))
    else Ok(NameContainsKeywordsPredicate(Words(trimmed)))
  }

  /**
   * The parse fails exactly when the argument is only characters that `trim` removes; otherwise
   * the keywords, at least one, are the words of the trimmed argument and each is a non-empty
   * run without whitespace.
   */
  lemma ParseMeaning(args: string)
    ensures Parse(args).Err? <==> forall k :: 0 <= k < |args| ==> Trimmable(args[k])
    ensures Parse(args).Ok? ==>
      && Parse(args).value.keywords == Words(Trim(args))
      && Parse(args).value.keywords != []
      && forall k :: 0 <= k < |Parse(args).value.keywords| ==> IsWord(Parse(args).value.keywords[k])
  {
    TrimSpec(args);
    if Trim(args) != [] {
      assert !IsSpace(Trim(args)[0]);
    }
  }

  /**
   * The keywords are the maximal whitespace-free runs of the trimmed argument: it is exactly
   * the keywords, in order, with whitespace between them.
   */
  lemma KeywordsAreTheRuns(args: string) returns (seps: seq<string>)
    requires Parse(args).Ok?
    ensures Separators(Parse(args).value.keywords, seps)
    ensures Layout(Parse(args).value.keywords, seps) == Trim(args)
  {
    seps := WordsLayout(Trim(args));
  }

  /**
   * Conversely any keywords with whitespace between them, once trimmed, parse to those
   * keywords.
   */
  lemma ParseOfLayout(args: string, ws: seq<string>, seps: seq<string>)
    requires ws != [] && forall k :: 0 <= k < |ws| ==> IsWord(ws[k])
    requires Separators(ws, seps)
    requires Trim(args) == Layout(ws, seps)
    ensures Parse(args) == Ok(NameContainsKeywordsPredicate(ws))
  {
    WordsOfLayout(ws, seps);
    LayoutHoldsFirstWord(ws, seps);
  }

  lemma LayoutHoldsFirstWord(ws: seq<string>, seps: seq<string>)
    requires ws != [] && |seps| == |ws| + 1
    ensures |Layout(ws, seps)| >= |ws[0]|
  {
  }

  /**
   * Keywords laid out with whitespace between them, and whitespace of any kind and amount
   * around them, parse to those keywords.
   */
  lemma ParseSurrounded(lead: string, ws: seq<string>, seps: seq<string>, trail: string)
    requires forall k :: 0 <= k < |ws| ==> IsWord(ws[k])
    requires KeptByTrim(ws)
    requires Separators(ws, seps) && seps[0] == [] && seps[|ws|] == []
    requires AllSpace(lead) && AllSpace(trail)
    ensures Parse(lead + Layout(ws, seps) + trail) == Ok(NameContainsKeywordsPredicate(ws))
  {
    var m := Layout(ws, seps);
    LayoutLast(ws, seps);
    assert m[0] == ws[0][0];
    TrimAround(lead, m, trail);
    ParseOfLayout(lead + m + trail, ws, seps);
  }

  /** The first keyword starts, and the last one ends, with a character that `trim` keeps. */
  predicate KeptByTrim(ws: seq<string>)
  {
    && ws != [] && ws[0] != [] && ws[|ws| - 1] != []
    && !Trimmable(ws[0][0]) && !Trimmable(ws[|ws| - 1][|ws[|ws| - 1]| - 1])
  }

  /** A layout ending in an empty separator ends with the last character of the last word. */
  lemma {:induction false} LayoutLast(ws: seq<string>, seps: seq<string>)
    requires ws != [] && |seps| == |ws| + 1 && seps[|ws|] == [] && ws[|ws| - 1] != []
    ensures |Layout(ws, seps)| >= |seps[0]| + |ws[0]| && Layout(ws, seps) != []
    ensures Layout(ws, seps)[|Layout(ws, seps)| - 1] == ws[|ws| - 1][|ws[|ws| - 1]| - 1]
    decreases |ws|
  {
    var rest := Layout(ws[1..], seps[1..]);
    if |ws| == 1 {
      assert rest == seps[1] == [];
      assert Layout(ws, seps) == seps[0] + ws[0];
    } else {
      LayoutLast(ws[1..], seps[1..]);
      assert Layout(ws, seps) == (seps[0] + ws[0]) + rest;
    }
  }

  /** A single space between two keywords: `"Alice Bob"`. */
  lemma ParseSingleSpace()
    ensures Parse("Alice Bob") == Ok(NameContainsKeywordsPredicate(["Alice", "Bob"]))
  {
    var ws, seps := ["Alice", "Bob"], ["", " ", ""];
    assert IsWord(ws[0]) && IsWord(ws[1]);
    assert Layout(ws, seps) == "Alice Bob" by {
      assert ws[1..] == ["Bob"] && seps[1..] == [" ", ""];
    }
    ParseSurrounded("", ws, seps, "");
    assert "" + "Alice Bob" + "" == "Alice Bob";
  }

  /** Newlines, tabs and repeated spaces between and around the same keywords. */
  lemma ParseMixedWhitespace()
    ensures Parse(" \n Alice \n \t Bob  \t") == Ok(NameContainsKeywordsPredicate(["Alice", "Bob"]))
  {
    var ws, seps := ["Alice", "Bob"], ["", " \n \t ", ""];
    assert IsWord(ws[0]) && IsWord(ws[1]);
    assert AllSpace(" \n ") && AllSpace("  \t") && AllSpace(seps[1]);
    assert Layout(ws, seps) == "Alice \n \t Bob" by {
      assert ws[1..] == ["Bob"] && seps[1..] == [" \n \t ", ""];
    }
    ParseSurrounded(" \n ", ws, seps, "  \t");
    MixedWhitespaceSpelling();
  }

  lemma MixedWhitespaceSpelling()
    ensures " \n " + "Alice \n \t Bob" + "  \t" == " \n Alice \n \t Bob  \t"
  {
    var a, b := " \n " + "Alice \n \t Bob" + "  \t", " \n Alice \n \t Bob  \t";
    assert |a| == |b|;
    forall k | 0 <= k < |a| ensures a[k] == b[k] { }
  }

  /** Nothing but spaces: `"     "` is an invalid-format error. */
  lemma ParseBlank()
    ensures Parse("     ") == Err(InvalidCommandFormat(FindClientUsage))
  {
    ParseMeaning("     ");
  }
}
