/** The lexical sentiment classifier of the wellness monitor (`analyzeSentiment`):
    a note is lower-cased, split on runs of whitespace, and the tokens that are
    exactly a word of the positive or of the negative lexicon are counted. */
module Sentiment {

  datatype Label = Positive | Negative | Neutral

  /** The positive lexicon, in the order the component lists it. */
  const PositiveWords: seq<string> :=
    ["great", "amazing", "wonderful", "happy", "excited", "optimistic",
     "balanced", "good", "fantastic", "love", "joy", "peaceful"]

  /** The negative lexicon, in the order the component lists it. */
  const NegativeWords: seq<string> :=
    ["stress", "anxious", "worried", "tired", "overwhelmed", "sad",
     "depressed", "difficult", "hard", "exhausted", "frustrated"]

  /** A token the classifier reacts to at all. */
  predicate InLexicon(w: string) {
    w in PositiveWords || w in NegativeWords
  }

  // ---------------------------------------------------------------------------
  // Lower-casing (ASCII) and the /\s+/ splitter
  // ---------------------------------------------------------------------------

  predicate IsUpper(c: char) { 'A' <= c <= 'Z' }

  /** ASCII lower-casing of one character; every other character is kept. */
  function LowerChar(c: char): (d: char)
    ensures !IsUpper(d)
    ensures !IsUpper(c) ==> d == c
  {
    if IsUpper(c) then (c as int + 32) as char else c
  }

  /** `toLowerCase`, restricted to ASCII letters. */
  function Lower(s: string): (r: string)
    ensures |r| == |s|
    ensures forall i :: 0 <= i < |s| ==> r[i] == LowerChar(s[i])
  {
    seq(|s|, i requires 0 <= i < |s| => LowerChar(s[i]))
  }

  /** The ASCII characters matched by `\s`. */
  predicate IsSpace(c: char) {
    c == ' ' || c == '\t' || c == '\n' || c == '\r' || c == '\U{000B}' || c == '\U{000C}'
  }

  predicate NoSpace(s: string) {
    forall i :: 0 <= i < |s| ==> !IsSpace(s[i])
  }

  /** `s` without its leading run of whitespace. */
  function DropSpaces(s: string): (r: string)
    ensures |r| <= |s| && r == s[|s| - |r|..]
    ensures r == [] || !IsSpace(r[0])
    ensures forall i :: 0 <= i < |s| - |r| ==> IsSpace(s[i])
  {
    if s != [] && IsSpace(s[0]) then
      var r := DropSpaces(s[1..]);
      assert s[1..][|s| - 1 - |r|..] == s[|s| - |r|..];
      assert forall i :: 1 <= i < |s| - |r| ==> s[i] == s[1..][i - 1];
      r
    else s
  }

  /** `s.split(/\s+/)`: the pieces between maximal runs of whitespace. A leading
      (trailing) run yields an empty first (last) piece, and the empty string
      yields one empty piece, as in JavaScript. */
  function Split(s: string): (r: seq<string>)
    ensures |r| >= 1
    ensures forall k :: 0 <= k < |r| ==> NoSpace(r[k])
    decreases |s|
  {
    if s == [] then [""]
    else if IsSpace(s[0]) then [""] + Split(DropSpaces(s[1..]))
    else
      var rest := Split(s[1..]);
      [[s[0]] + rest[0]] + rest[1..]
  }

  /** The tokens the classifier inspects: at least one, none holding
      whitespace or an upper-case letter. */
  function Tokens(text: string): (ws: seq<string>)
    ensures |ws| >= 1
    ensures forall k :: 0 <= k < |ws| ==> NoSpace(ws[k])
    ensures forall k, i :: 0 <= k < |ws| && 0 <= i < |ws[k]| ==> !IsUpper(ws[k][i])
  {
    SplitChars(Lower(text));
    Split(Lower(text))
  }

  /** Every character of a piece comes from the split text. */
  lemma {:induction false} SplitChars(s: string)
    ensures forall k, i :: 0 <= k < |Split(s)| && 0 <= i < |Split(s)[k]| ==> Split(s)[k][i] in s
    decreases |s|
  {
    var r := Split(s);
    if s == [] {
    } else if IsSpace(s[0]) {
      var t := DropSpaces(s[1..]);
      SplitChars(t);
      assert r == [""] + Split(t);
      forall k, i | 0 <= k < |r| && 0 <= i < |r[k]| ensures r[k][i] in s {
        assert r[k] == Split(t)[k - 1];
        var j :| 0 <= j < |t| && t[j] == r[k][i];
        assert s[|s| - |t| + j] == t[j];
      }
    } else {
      var rest := Split(s[1..]);
      SplitChars(s[1..]);
      assert r == [[s[0]] + rest[0]] + rest[1..];
      forall k, i | 0 <= k < |r| && 0 <= i < |r[k]| ensures r[k][i] in s {
        if k == 0 && i == 0 {
          assert r[k][i] == s[0];
        } else {
          var c := if k == 0 then rest[0][i - 1] else rest[k][i];
          assert r[k][i] == c;
          var j :| 0 <= j < |s[1..]| && s[1..][j] == c;
          assert s[j + 1] == c;
        }
      }
    }
  }

  // ---------------------------------------------------------------------------
  // Counting and the decision rule
  // ---------------------------------------------------------------------------

  /** How many tokens of `ws` are words of `lex` (a token counts once per occurrence). */
  function CountIn(ws: seq<string>, lex: seq<string>): (c: nat)
    ensures c <= |ws|
  {
    if ws == [] then 0
    else CountIn(ws[..|ws| - 1], lex) + (if ws[|ws| - 1] in lex then 1 else 0)
  }

  /** `positiveScore`: the number of positive tokens. */
  function PositiveScore(ws: seq<string>): (s: nat)
    ensures s <= |ws|
    ensures s > 0 ==> exists k :: 0 <= k < |ws| && ws[k] in PositiveWords
  {
    CountInWitness(ws, PositiveWords);
    CountIn(ws, PositiveWords)
  }

  /** `negativeScore`: the number of negative tokens. */
  function NegativeScore(ws: seq<string>): (s: nat)
    ensures s <= |ws|
    ensures s > 0 ==> exists k :: 0 <= k < |ws| && ws[k] in NegativeWords
  {
    CountInWitness(ws, NegativeWords);
    CountIn(ws, NegativeWords)
  }

  /** A positive count needs a token of the lexicon. */
  lemma {:induction false} CountInWitness(ws: seq<string>, lex: seq<string>)
    ensures CountIn(ws, lex) > 0 ==> exists k :: 0 <= k < |ws| && ws[k] in lex
    decreases |ws|
  {
    if ws != [] && ws[|ws| - 1] !in lex {
      var front := ws[..|ws| - 1];
      CountInWitness(front, lex);
      if CountIn(front, lex) > 0 {
        var k :| 0 <= k < |front| && front[k] in lex;
        assert ws[k] == front[k];
      }
    }
  }

  /** The label of a token list: the larger score wins, a tie is neutral. A
      label other than neutral needs a lexicon word among the tokens. */
  function LabelOfTokens(ws: seq<string>): (r: Label)
    ensures r == Positive <==> PositiveScore(ws) > NegativeScore(ws)
    ensures r == Negative <==> NegativeScore(ws) > PositiveScore(ws)
    ensures r == Neutral <==> PositiveScore(ws) == NegativeScore(ws)
    ensures r != Neutral ==> exists k :: 0 <= k < |ws| && InLexicon(ws[k])
  {
    var pos, neg := PositiveScore(ws), NegativeScore(ws);
    if pos > neg then Positive else if neg > pos then Negative else Neutral
  }

  /** The label the component gives a note: positive or negative only when
      some token of the lower-cased note is a lexicon word. */
  function SentimentOf(text: string): (r: Label)
    ensures r != Neutral ==> exists k :: 0 <= k < |Tokens(text)| && InLexicon(Tokens(text)[k])
  {
    LabelOfTokens(Tokens(text))
  }

  /** `analyzeSentiment`: one pass over the tokens with two counters. */
  method AnalyzeSentiment(text: string) returns (sentiment: Label)
    ensures sentiment == SentimentOf(text)
    ensures sentiment == Positive <==> PositiveScore(Tokens(text)) > NegativeScore(Tokens(text))
    ensures sentiment == Negative <==> NegativeScore(Tokens(text)) > PositiveScore(Tokens(text))
    ensures sentiment == Neutral <==> PositiveScore(Tokens(text)) == NegativeScore(Tokens(text))
  {
    var words := Split(Lower(text));
    var positiveScore, negativeScore := 0, 0;
    for i := 0 to |words|
      invariant positiveScore == CountIn(words[..i], PositiveWords)
      invariant negativeScore == CountIn(words[..i], NegativeWords)
    {
      assert words[..i + 1][..i] == words[..i];
      if words[i] in PositiveWords { positiveScore := positiveScore + 1; }
      if words[i] in NegativeWords { negativeScore := negativeScore + 1; }
    }
    assert words[..|words|] == words;
    if positiveScore > negativeScore { return Positive; }
    if negativeScore > positiveScore { return Negative; }
    return Neutral;
  }

  // ---------------------------------------------------------------------------
  // Properties of the counts
  // ---------------------------------------------------------------------------

  lemma {:induction false} CountInAppend(a: seq<string>, b: seq<string>, lex: seq<string>)
    ensures CountIn(a + b, lex) == CountIn(a, lex) + CountIn(b, lex)
    decreases |b|
  {
    if b == [] {
      assert a + b == a;
    } else {
      var b' := b[..|b| - 1];
      assert (a + b)[..|a + b| - 1] == a + b';
      CountInAppend(a, b', lex);
    }
  }

  /** Removing the token at `i` takes its one occurrence off the count. */
  lemma CountInRemove(b: seq<string>, i: nat, lex: seq<string>)
    requires i < |b|
    ensures CountIn(b, lex) == CountIn(b[..i] + b[i + 1..], lex) + (if b[i] in lex then 1 else 0)
  {
    var x := b[i];
    assert b == b[..i] + [x] + b[i + 1..];
    assert CountIn([x], lex) == (if x in lex then 1 else 0) by {
      assert [x][..0] == [];
    }
    CountInAppend(b[..i], [x], lex);
    CountInAppend(b[..i] + [x], b[i + 1..], lex);
    CountInAppend(b[..i], b[i + 1..], lex);
  }

  lemma MultisetRemove(b: seq<string>, i: nat)
    requires i < |b|
    ensures multiset(b[..i] + b[i + 1..]) == multiset(b) - multiset{b[i]}
  {
    assert b == b[..i] + [b[i]] + b[i + 1..];
  }

  /** Counting does not depend on the order of the tokens. */
  lemma {:induction false} CountInPermutation(a: seq<string>, b: seq<string>, lex: seq<string>)
    requires multiset(a) == multiset(b)
    ensures CountIn(a, lex) == CountIn(b, lex)
    decreases |a|
  {
    if a == [] {
      assert |b| == |multiset(b)| == 0;
    } else {
      var x := a[|a| - 1];
      var a' := a[..|a| - 1];
      assert a == a' + [x];
      assert x in multiset(b);
      var i :| 0 <= i < |b| && b[i] == x;
      MultisetRemove(b, i);
      assert multiset(a') == multiset(a) - multiset{x};
      CountInPermutation(a', b[..i] + b[i + 1..], lex);
      CountInRemove(b, i, lex);
    }
  }

  /** A text none of whose tokens is a lexicon word scores zero. */
  lemma {:induction false} CountInNone(ws: seq<string>, lex: seq<string>)
    requires forall k :: 0 <= k < |ws| ==> ws[k] !in lex
    ensures CountIn(ws, lex) == 0
    decreases |ws|
  {
    if ws != [] {
      CountInNone(ws[..|ws| - 1], lex);
    }
  }

  /** The tokens of `ws` that are lexicon words, in their order. */
  function Matched(ws: seq<string>): (r: seq<string>)
    ensures forall k :: 0 <= k < |r| ==> InLexicon(r[k])
  {
    if ws == [] then []
    else Matched(ws[..|ws| - 1]) + (if InLexicon(ws[|ws| - 1]) then [ws[|ws| - 1]] else [])
  }

  lemma {:induction false} CountInMatched(ws: seq<string>, lex: seq<string>)
    requires lex == PositiveWords || lex == NegativeWords
    ensures CountIn(Matched(ws), lex) == CountIn(ws, lex)
    decreases |ws|
  {
    if ws != [] {
      var w := ws[|ws| - 1];
      CountInMatched(ws[..|ws| - 1], lex);
      var tail := if InLexicon(w) then [w] else [];
      CountInAppend(Matched(ws[..|ws| - 1]), tail, lex);
    }
  }

  /** Only the lexicon words of a note, counted with their multiplicity, decide
      its label: adding, removing or reordering any other tokens, or reordering
      the lexicon words themselves, never changes it. */
  lemma MatchedDecides(ws: seq<string>, vs: seq<string>)
    requires multiset(Matched(ws)) == multiset(Matched(vs))
    ensures LabelOfTokens(ws) == LabelOfTokens(vs)
  {
    CountInMatched(ws, PositiveWords);
    CountInMatched(vs, PositiveWords);
    CountInMatched(ws, NegativeWords);
    CountInMatched(vs, NegativeWords);
    CountInPermutation(Matched(ws), Matched(vs), PositiveWords);
    CountInPermutation(Matched(ws), Matched(vs), NegativeWords);
  }

  /** Inserting one token that is in neither lexicon never changes the label. */
  lemma InsertUnmatched(a: seq<string>, b: seq<string>, w: string)
    requires !InLexicon(w)
    ensures LabelOfTokens(a + [w] + b) == LabelOfTokens(a + b)
  {
    CountInAppend(a, [w], PositiveWords);
    CountInAppend(a, [w], NegativeWords);
    CountInAppend(a + [w], b, PositiveWords);
    CountInAppend(a + [w], b, NegativeWords);
    CountInAppend(a, b, PositiveWords);
    CountInAppend(a, b, NegativeWords);
    assert [w][..0] == [];
  }

  /** Reordering the tokens never changes the label. */
  lemma ReorderTokens(ws: seq<string>, vs: seq<string>)
    requires multiset(ws) == multiset(vs)
    ensures LabelOfTokens(ws) == LabelOfTokens(vs)
  {
    CountInPermutation(ws, vs, PositiveWords);
    CountInPermutation(ws, vs, NegativeWords);
  }

  /** A note with no lexicon word (the empty note among them) is neutral. */
  lemma NoLexiconWordIsNeutral(text: string)
    requires forall k :: 0 <= k < |Tokens(text)| ==> !InLexicon(Tokens(text)[k])
    ensures SentimentOf(text) == Neutral
  {
    CountInNone(Tokens(text), PositiveWords);
    CountInNone(Tokens(text), NegativeWords);
  }

  lemma EmptyNoteIsNeutral()
    ensures Tokens("") == [""]
    ensures SentimentOf("") == Neutral
  {
    assert Lower("") == "";
    NoLexiconWordIsNeutral("");
  }

  /** The lexicons share no word, so no token scores on both sides. */
  lemma LexiconsDisjoint()
    ensures forall w :: w in PositiveWords ==> w !in NegativeWords
  {
  }

  // ---------------------------------------------------------------------------
  // Case-insensitivity
  // ---------------------------------------------------------------------------

  /** Two notes that agree up to the case of their letters get the same label. */
  lemma CaseInsensitive(a: string, b: string)
    requires |a| == |b|
    requires forall i :: 0 <= i < |a| ==> LowerChar(a[i]) == LowerChar(b[i])
    ensures Tokens(a) == Tokens(b)
    ensures SentimentOf(a) == SentimentOf(b)
  {
    assert Lower(a) == Lower(b);
  }

  function UpperChar(c: char): char {
    if 'a' <= c <= 'z' then (c as int - 32) as char else c
  }

  function Upper(s: string): (r: string)
    ensures |r| == |s|
    ensures forall i :: 0 <= i < |s| ==> r[i] == UpperChar(s[i])
  {
    seq(|s|, i requires 0 <= i < |s| => UpperChar(s[i]))
  }

  /** Shouting a note does not change its label. */
  lemma UpperCaseKeepsLabel(text: string)
    ensures SentimentOf(Upper(text)) == SentimentOf(text)
  {
    forall i | 0 <= i < |text|
      ensures LowerChar(Upper(text)[i]) == LowerChar(text[i])
    {
      var c := text[i];
      assert Upper(text)[i] == UpperChar(c);
    }
    CaseInsensitive(Upper(text), text);
  }

  // ---------------------------------------------------------------------------
  // The splitter: what it keeps, and its inverse on space-separated words
  // ---------------------------------------------------------------------------

  function Concat(ts: seq<string>): string {
    if ts == [] then [] else ts[0] + Concat(ts[1..])
  }

  /** The characters of `s` that are not whitespace, in order. */
  function NonSpace(s: string): string {
    if s == [] then [] else (if IsSpace(s[0]) then [] else [s[0]]) + NonSpace(s[1..])
  }

  lemma {:induction false} NonSpaceDropSpaces(s: string)
    ensures NonSpace(DropSpaces(s)) == NonSpace(s)
    decreases |s|
  {
    if s != [] && IsSpace(s[0]) {
      NonSpaceDropSpaces(s[1..]);
    }
  }

  /** Splitting loses only whitespace: the pieces, put back together, are the
      text with its whitespace removed. */
  lemma {:induction false} SplitKeepsText(s: string)
    ensures Concat(Split(s)) == NonSpace(s)
    decreases |s|
  {
    if s == [] {
    } else if IsSpace(s[0]) {
      var t := DropSpaces(s[1..]);
      SplitKeepsText(t);
      NonSpaceDropSpaces(s[1..]);
      assert ([""] + Split(t))[1..] == Split(t);
      assert Concat(Split(s)) == Concat(Split(t));
    } else {
      var rest := Split(s[1..]);
      SplitKeepsText(s[1..]);
      var r := [[s[0]] + rest[0]] + rest[1..];
      assert r[1..] == rest[1..];
      assert Concat(r) == [s[0]] + (rest[0] + Concat(rest[1..]));
      assert Concat(rest) == rest[0] + Concat(rest[1..]);
    }
  }

  /** Words joined by single spaces. */
  function Join(ws: seq<string>): string
    requires |ws| >= 1
  {
    if |ws| == 1 then ws[0] else ws[0] + " " + Join(ws[1..])
  }

  lemma {:induction false} SplitWordThen(w: string, r: string)
    requires NoSpace(w)
    requires r == [] || IsSpace(r[0])
    ensures Split(w + r) == [w + Split(r)[0]] + Split(r)[1..]
    decreases |w|
  {
    if w == [] {
      assert w + r == r;
    } else {
      assert (w + r)[1..] == w[1..] + r;
      SplitWordThen(w[1..], r);
      assert [w[0]] + (w[1..] + Split(r)[0]) == w + Split(r)[0];
    }
  }

  /** `Split` undoes `Join` on non-empty words free of whitespace. */
  lemma {:induction false} SplitJoin(ws: seq<string>)
    requires |ws| >= 1
    requires forall k :: 0 <= k < |ws| ==> ws[k] != "" && NoSpace(ws[k])
    ensures Split(Join(ws)) == ws
    decreases |ws|
  {
    if |ws| == 1 {
      SplitWordThen(ws[0], "");
      assert ws[0] + "" == ws[0];
    } else {
      var tail := Join(ws[1..]);
      SplitJoin(ws[1..]);
      JoinStartsWithWord(ws[1..]);
      assert (" " + tail)[1..] == tail;
      assert ws[0] + " " + tail == ws[0] + (" " + tail);
      SplitWordThen(ws[0], " " + tail);
      assert ws[0] + "" == ws[0];
      assert ws == [ws[0]] + ws[1..];
    }
  }

  lemma JoinStartsWithWord(ws: seq<string>)
    requires |ws| >= 1 && ws[0] != ""
    ensures Join(ws) != [] && Join(ws)[0] == ws[0][0]
  {
  }
}
