/** Three example notes worked through the whole classifier: lower-casing,
    splitting, counting and the decision rule. */
module SentimentExamples {
  import opened Sentiment

  /** "I feel great and happy today", lower-cased and split. */
  const Cheerful: seq<string> := ["i", "feel", "great", "and", "happy", "today"]
  /** "so stressed and overwhelmed", split. */
  const Swamped: seq<string> := ["so", "stressed", "and", "overwhelmed"]
  /** "went to the store", split. */
  const Errand: seq<string> := ["went", "to", "the", "store"]

  /** A token list with exactly one word of `lex`, at a known place. */
  lemma CountInOneMatch(a: seq<string>, w: string, b: seq<string>, lex: seq<string>)
    requires forall k :: 0 <= k < |a| ==> a[k] !in lex
    requires w in lex
    requires forall k :: 0 <= k < |b| ==> b[k] !in lex
    ensures CountIn(a + [w] + b, lex) == 1
  {
    CountInNone(a, lex);
    CountInNone(b, lex);
    CountInAppend(a, [w], lex);
    CountInAppend(a + [w], b, lex);
    assert [w][..0] == [];
  }

  lemma CheerfulPositiveWords()
    ensures "great" in PositiveWords && "happy" in PositiveWords
  {
  }

  lemma CheerfulFillers()
    ensures "i" !in PositiveWords && "feel" !in PositiveWords
    ensures "and" !in PositiveWords && "today" !in PositiveWords
  {
  }

  lemma CheerfulNegativeWords()
    ensures "i" !in NegativeWords && "feel" !in NegativeWords && "great" !in NegativeWords
    ensures "and" !in NegativeWords && "happy" !in NegativeWords && "today" !in NegativeWords
  {
    CheerfulNegativeTail();
  }

  lemma CheerfulNegativeTail()
    ensures "and" !in NegativeWords && "happy" !in NegativeWords && "today" !in NegativeWords
  {
  }

  lemma CheerfulScores()
    ensures PositiveScore(Cheerful) == 2 && NegativeScore(Cheerful) == 0
  {
    CheerfulPositiveWords();
    CheerfulFillers();
    CheerfulNegativeWords();
    var front, back := ["i", "feel"] + ["great"] + [], ["and"] + ["happy"] + ["today"];
    CountInOneMatch(["i", "feel"], "great", [], PositiveWords);
    CountInOneMatch(["and"], "happy", ["today"], PositiveWords);
    assert Cheerful == front + back;
    CountInAppend(front, back, PositiveWords);
    CountInNone(Cheerful, NegativeWords);
  }

  // ---------------------------------------------------------------------------
  // Joining words and lower-casing a joined text
  // ---------------------------------------------------------------------------

  /** Joining one more word in front. */
  lemma JoinFront(w: string, ws: seq<string>)
    requires |ws| >= 1
    ensures Join([w] + ws) == w + " " + Join(ws)
  {
    assert ([w] + ws)[1..] == ws;
  }

  /** Four words joined by single spaces. */
  lemma JoinFour(a: string, b: string, c: string, d: string)
    ensures Join([a, b, c, d]) == a + " " + b + " " + c + " " + d
  {
    JoinFront(c, [d]);
    JoinFront(b, [c, d]);
    JoinFront(a, [b, c, d]);
  }

  /** Six words joined by single spaces. */
  lemma JoinSix(a: string, b: string, c: string, d: string, e: string, f: string)
    ensures Join([a, b, c, d, e, f]) == a + " " + b + " " + c + " " + d + " " + e + " " + f
  {
    JoinFour(c, d, e, f);
    JoinFront(b, [c, d, e, f]);
    JoinFront(a, [b, c, d, e, f]);
  }

  /** Lower-casing works character by character, so it distributes over `+`. */
  lemma LowerAppend(a: string, b: string)
    ensures Lower(a + b) == Lower(a) + Lower(b)
  {
  }

  /** Lower-casing a word without upper-case letters changes nothing. */
  lemma LowerKeeps(s: string)
    requires forall i :: 0 <= i < |s| ==> !IsUpper(s[i])
    ensures Lower(s) == s
  {
  }

  /** Every word of a list, lower-cased. */
  function LowerAll(ws: seq<string>): (r: seq<string>)
    ensures |r| == |ws|
    ensures forall k :: 0 <= k < |ws| ==> r[k] == Lower(ws[k])
  {
    seq(|ws|, k requires 0 <= k < |ws| => Lower(ws[k]))
  }

  /** Lower-casing a text of joined words lower-cases each word. */
  lemma {:induction false} LowerJoin(ws: seq<string>)
    requires |ws| >= 1
    ensures Lower(Join(ws)) == Join(LowerAll(ws))
    decreases |ws|
  {
    if |ws| > 1 {
      LowerJoin(ws[1..]);
      LowerAppend(ws[0] + " ", Join(ws[1..]));
      LowerAppend(ws[0], " ");
      LowerKeeps(" ");
      assert LowerAll(ws)[1..] == LowerAll(ws[1..]);
    }
  }

  // ---------------------------------------------------------------------------
  // "I feel great and happy today"
  // ---------------------------------------------------------------------------

  lemma CheerfulText()
    ensures "I feel great and happy today" == "I" + " " + "feel" + " " + "great" + " " + "and" + " " + "happy" + " " + "today"
  {
  }

  lemma CheerfulWords()
    ensures forall k :: 0 <= k < |Cheerful| ==> Cheerful[k] != "" && NoSpace(Cheerful[k])
  {
  }

  /** The note, lower-cased, is the words of `Cheerful` joined by spaces. */
  lemma CheerfulLower()
    ensures Lower("I feel great and happy today") == Join(Cheerful)
  {
    var words := ["I", "feel", "great", "and", "happy", "today"];
    JoinSix("I", "feel", "great", "and", "happy", "today");
    CheerfulText();
    LowerJoin(words);
    assert Lower("I") == "i" by {
      assert LowerChar('I') == 'i';
    }
    LowerKeeps("feel");
    LowerKeeps("great");
    LowerKeeps("and");
    LowerKeeps("happy");
    LowerKeeps("today");
    assert LowerAll(words) == Cheerful;
  }

  lemma CheerfulTokens()
    ensures Tokens("I feel great and happy today") == Cheerful
  {
    CheerfulLower();
    CheerfulWords();
    SplitJoin(Cheerful);
  }

  /** "I feel great and happy today" is positive. */
  lemma ExamplePositive()
    ensures SentimentOf("I feel great and happy today") == Positive
  {
    CheerfulTokens();
    CheerfulScores();
  }

  lemma SwampedNegativeWords()
    ensures "overwhelmed" in NegativeWords
    ensures "so" !in NegativeWords && "stressed" !in NegativeWords && "and" !in NegativeWords
  {
  }

  lemma SwampedPositiveWords()
    ensures "so" !in PositiveWords && "stressed" !in PositiveWords
    ensures "and" !in PositiveWords && "overwhelmed" !in PositiveWords
  {
  }

  lemma SwampedScores()
    ensures NegativeScore(Swamped) == 1 && PositiveScore(Swamped) == 0
  {
    SwampedNegativeWords();
    SwampedPositiveWords();
    CountInOneMatch(["so", "stressed", "and"], "overwhelmed", [], NegativeWords);
    assert Swamped == ["so", "stressed", "and"] + ["overwhelmed"] + [];
    CountInNone(Swamped, PositiveWords);
  }

  /** "so stressed and overwhelmed" is negative: "stressed" is not a lexicon
      word (there is no stemming), "overwhelmed" is. */
  lemma ExampleNegative()
    ensures SentimentOf("so stressed and overwhelmed") == Negative
  {
    SwampedTokens();
    SwampedScores();
  }

  lemma SwampedText()
    ensures "so stressed and overwhelmed" == "so" + " " + "stressed" + " " + "and" + " " + "overwhelmed"
  {
  }

  lemma SwampedWords()
    ensures forall k :: 0 <= k < |Swamped| ==> Swamped[k] != "" && NoSpace(Swamped[k])
  {
  }

  /** The note is already lower-case: it is the words of `Swamped` joined by spaces. */
  lemma SwampedLower()
    ensures Lower("so stressed and overwhelmed") == Join(Swamped)
  {
    JoinFour("so", "stressed", "and", "overwhelmed");
    SwampedText();
    LowerJoin(Swamped);
    LowerKeeps("so");
    LowerKeeps("stressed");
    LowerKeeps("and");
    LowerKeeps("overwhelmed");
    assert LowerAll(Swamped) == Swamped;
  }

  lemma SwampedTokens()
    ensures Tokens("so stressed and overwhelmed") == Swamped
  {
    SwampedLower();
    SwampedWords();
    SplitJoin(Swamped);
  }

  lemma ErrandPositiveWords()
    ensures "went" !in PositiveWords && "to" !in PositiveWords
    ensures "the" !in PositiveWords && "store" !in PositiveWords
  {
  }

  lemma ErrandNegativeWords()
    ensures "went" !in NegativeWords && "to" !in NegativeWords
    ensures "the" !in NegativeWords && "store" !in NegativeWords
  {
  }

  /** "went to the store" is neutral. */
  lemma ExampleNeutral()
    ensures SentimentOf("went to the store") == Neutral
  {
    ErrandTokens();
    ErrandPositiveWords();
    ErrandNegativeWords();
    CountInNone(Errand, PositiveWords);
    CountInNone(Errand, NegativeWords);
  }

  lemma ErrandText()
    ensures "went to the store" == "went" + " " + "to" + " " + "the" + " " + "store"
  {
  }

  lemma ErrandWords()
    ensures forall k :: 0 <= k < |Errand| ==> Errand[k] != "" && NoSpace(Errand[k])
  {
  }

  /** The note is already lower-case: it is the words of `Errand` joined by spaces. */
  lemma ErrandLower()
    ensures Lower("went to the store") == Join(Errand)
  {
    JoinFour("went", "to", "the", "store");
    ErrandText();
    LowerJoin(Errand);
    LowerKeeps("went");
    LowerKeeps("to");
    LowerKeeps("the");
    LowerKeeps("store");
    assert LowerAll(Errand) == Errand;
  }

  lemma ErrandTokens()
    ensures Tokens("went to the store") == Errand
  {
    ErrandLower();
    ErrandWords();
    SplitJoin(Errand);
  }
}
