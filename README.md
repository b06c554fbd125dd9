# WellnessMonitor decision core in Dafny

This project models the decision logic of the `WellnessMonitor` React
component (`remixed-16332ca1.tsx`). The component records daily check-ins
with mood, anxiety, stress and energy scores (1..10) and a free-text note. Three
pieces of logic sit inside it, and each is modelled and proved here:

- **The sentiment classifier** (`analyzeSentiment`), module `Sentiment` in
  `sentiment.dfy`. It lower-cases the note and splits it on runs of
  whitespace. It counts the tokens that are exactly a word of the positive
  lexicon and those of the negative lexicon. The larger count wins, and a tie is
  neutral. `AnalyzeSentiment` is the loop with its two counters. It is proved
  equal to the specification function `SentimentOf`. The lemmas cover the
  decision rule, case-insensitivity, and why tokens outside both lexicons and
  token order do not matter. They also show what the splitter keeps and that it
  inverts joining words with single spaces. `sentiment_examples.dfy` works three
  notes through every stage of the classifier.
- **The recommendation engine** (`getRecommendations`), module
  `Recommendations` in `recommendations.dfy`. It takes the last three entries
  (`slice(-3)`) and compares each metric's mean with a strict threshold, in a
  fixed order: mood < 5, anxiety > 6, stress > 6, energy < 5. Each rule that
  fires adds one item. A single maintenance item is added only when none fired.
  The comparison of a mean `sum / n` with a limit is modelled exactly as
  `sum < limit * n` (or `>`). `MeanComparison` proves this equal to the real
  division for `n > 0`. The rules form a table (`Rules`), and `Recommend` is the
  specification function. `GetRecommendations` is the component's chain of
  conditional pushes and is proved equal to it.
- **The check-in state** (`handleMoodSubmit` and the form setters), module
  `CheckIn` in `checkin.dfy`. The class `WellnessMonitor` holds the `entries`
  list and the check-in `form`. `Submit(today)` builds today's entry from the
  form and the sentiment of its note. It replaces the list with every entry of
  another date followed by the new entry (last write wins per date), then
  resets the form to 5/5/5/5 with an empty note. The class invariant says the
  list is never empty, dates are unique, and every score lies in 1..10.

The radar-chart data of the dashboard, the latest entry with a fallback of 5
and with stress and anxiety inverted as `10 - x`, is modelled in `dashboard.dfy`
(module `Dashboard`).

The date of a check-in, which the component reads from the clock, is a
parameter of `Submit`.

Two behaviours of the code are worth spelling out:

- On an empty list the code computes `0 / 0`. Every comparison with that value
  is false, so the code returns the maintenance item alone; it raises no error.
  `Recommend` does the same on an empty window (`EmptyWindowIsQuiet`). The list
  is never empty in practice, because it starts with seven entries and a submit
  never shrinks it. `WellnessMonitor.Valid` keeps that invariant.
- The code sets `sentiment` on every submitted entry, including one with an
  empty note, which gets `neutral`. The seeded entries have no sentiment. The
  model gives `Entry.sentiment` the type `Option<Label>`. It is `Some` on every
  submitted entry and `None` on the seeded ones.

## Model

| member | source | states |
|---|---|---|
| `Sentiment.AnalyzeSentiment` | remixed-16332ca1.tsx:26-42 | the one-pass counting loop returns `SentimentOf(text)`: positive iff the positive count exceeds the negative count, negative iff the reverse, neutral iff they are equal |
| `Sentiment.Lower` | remixed-16332ca1.tsx:30 | `toLowerCase` keeps the length and maps each character through `LowerChar`: an upper-case ASCII letter becomes its lower-case letter, every other character is kept |
| `Sentiment.Tokens` | remixed-16332ca1.tsx:30 | the tokens of a note, `text.toLowerCase().split(/\s+/)`: there is at least one, and none holds whitespace or an upper-case letter |
| `Sentiment.SplitChars` | remixed-16332ca1.tsx:30 | every character of every piece comes from the split text |
| `Sentiment.Split` | remixed-16332ca1.tsx:30 | `split(/\s+/)` yields at least one piece and no piece contains whitespace |
| `Sentiment.SplitKeepsText` | remixed-16332ca1.tsx:30 | the pieces, concatenated, are the text with its whitespace removed: splitting loses nothing else |
| `Sentiment.SplitJoin` | remixed-16332ca1.tsx:30 | splitting undoes joining non-empty, whitespace-free words with single spaces |
| `Sentiment.CaseInsensitive` | remixed-16332ca1.tsx:30 | two notes equal up to the case of their letters have the same tokens and the same label |
| `Sentiment.UpperCaseKeepsLabel` | remixed-16332ca1.tsx:30 | upper-casing a note never changes its label |
| `Sentiment.LexiconsDisjoint` | remixed-16332ca1.tsx:27-28 | no word is in both lexicons |
| `Sentiment.CountIn` | remixed-16332ca1.tsx:34-37 | the number of tokens that are words of a lexicon, each occurrence counted once; never more than the number of tokens |
| `Sentiment.CountInWitness` | remixed-16332ca1.tsx:34-37 | a count above zero needs a token that is a word of the lexicon |
| `Sentiment.PositiveScore` | remixed-16332ca1.tsx:34-35 | `positiveScore` after the loop: at most the number of tokens, and above zero only when some token is a positive word |
| `Sentiment.NegativeScore` | remixed-16332ca1.tsx:34-36 | `negativeScore` after the loop: at most the number of tokens, and above zero only when some token is a negative word |
| `Sentiment.LabelOfTokens` | remixed-16332ca1.tsx:39-41 | the decision rule: positive iff the positive count is larger, negative iff the negative count is larger, neutral iff they tie; a label other than neutral needs a lexicon word among the tokens |
| `Sentiment.SentimentOf` | remixed-16332ca1.tsx:26-42 | the label of a note; it is positive or negative only when some token of the lower-cased, split note is a lexicon word |
| `Sentiment.CountInAppend` | remixed-16332ca1.tsx:34-37 | the count over a concatenation is the sum of the counts |
| `Sentiment.CountInRemove` | remixed-16332ca1.tsx:34-37 | removing one token takes exactly its own occurrence off the count |
| `Sentiment.CountInPermutation` | remixed-16332ca1.tsx:34-37 | the counts do not depend on the order of the tokens |
| `Sentiment.CountInNone` | remixed-16332ca1.tsx:34-37 | tokens none of which is in a lexicon score zero against it |
| `Sentiment.Matched` | remixed-16332ca1.tsx:34-37 | the lexicon tokens of a token list, each of which is in a lexicon |
| `Sentiment.CountInMatched` | remixed-16332ca1.tsx:34-37 | dropping the tokens outside both lexicons keeps both counts |
| `Sentiment.MatchedDecides` | remixed-16332ca1.tsx:34-41 | two token lists whose lexicon tokens agree as a multiset get the same label, whatever other tokens they hold and in whatever order |
| `Sentiment.InsertUnmatched` | remixed-16332ca1.tsx:34-41 | inserting a token that is in neither lexicon, anywhere, never changes the label |
| `Sentiment.ReorderTokens` | remixed-16332ca1.tsx:34-41 | reordering the tokens never changes the label |
| `Sentiment.NoLexiconWordIsNeutral` | remixed-16332ca1.tsx:39-41 | a note with no lexicon token is neutral |
| `Sentiment.EmptyNoteIsNeutral` | remixed-16332ca1.tsx:30-41 | the empty note splits into one empty token and is neutral |
| `SentimentExamples.ExamplePositive` | remixed-16332ca1.tsx:26-42 | "I feel great and happy today" is positive |
| `SentimentExamples.ExampleNegative` | remixed-16332ca1.tsx:26-42 | "so stressed and overwhelmed" is negative ("stressed" is not a lexicon word; there is no stemming) |
| `SentimentExamples.ExampleNeutral` | remixed-16332ca1.tsx:26-42 | "went to the store" is neutral |
| `Recommendations.Window` | remixed-16332ca1.tsx:46 | `slice(-3)` is the suffix of the list of length min(3, length) |
| `Recommendations.Sum` | remixed-16332ca1.tsx:47-50 | the `reduce` of one metric over the window; when every score lies in 1..10 the sum lies between n and 10n for n entries |
| `Recommendations.Fires` | remixed-16332ca1.tsx:54-81 | whether a rule of the table `Rules` (mood < 5, anxiety > 6, stress > 6, energy < 5, in that order) fires: the mean of its metric is strictly beyond its limit, compared as `sum` against `limit * n`; no rule fires on an empty window |
| `Recommendations.Recommend` | remixed-16332ca1.tsx:52-97 | the engine's result for a window: never empty, and either the maintenance item alone or threshold items only |
| `Recommendations.Fired` | remixed-16332ca1.tsx:54-88 | the rules of a table yield at most one item each, all threshold items |
| `Recommendations.FiredRules` | remixed-16332ca1.tsx:54-88 | the table's result is the four rules' contributions in the order mood, anxiety, stress, energy |
| `Recommendations.GetRecommendations` | remixed-16332ca1.tsx:45-100 | the chain of conditional pushes returns `Recommend(Window(entries))` |
| `Recommendations.MeanComparison` | remixed-16332ca1.tsx:47-54 | for a window of n > 0 entries, comparing the real mean `sum / n` with a limit is comparing `sum` with `limit * n` |
| `Recommendations.FiredMembership` | remixed-16332ca1.tsx:54-88 | a threshold item is produced iff some rule for its metric fires |
| `Recommendations.FiredFromRules` | remixed-16332ca1.tsx:54-88 | every produced threshold item is the item of one of the rules |
| `Recommendations.FiredOrdered` | remixed-16332ca1.tsx:54-88 | rules listed in increasing display rank produce items in increasing rank, each the item of one of the rules |
| `Recommendations.RecommendShape` | remixed-16332ca1.tsx:52-99 | the result is never empty, has at most four items, and is in strictly increasing rank (mood, anxiety, stress, energy, maintenance), so no type appears twice |
| `Recommendations.MaintenanceExactlyWhenQuiet` | remixed-16332ca1.tsx:90-97 | the maintenance item appears iff no rule fires, and iff it is the whole result |
| `Recommendations.ThresholdItem` | remixed-16332ca1.tsx:54-88 | the item of rule i is in the result iff rule i fires |
| `Recommendations.ThresholdItems` | remixed-16332ca1.tsx:54-88 | mood item iff sum of moods < 5n, anxiety item iff sum > 6n, stress item iff sum > 6n, energy item iff sum < 5n |
| `Recommendations.NoThresholdIsQuiet` | remixed-16332ca1.tsx:90-97 | when no threshold item is present, the result is the maintenance item alone |
| `Recommendations.BoundaryIsQuiet` | remixed-16332ca1.tsx:54-88 | means of exactly 5, 6, 6 and 5 fire nothing: the comparisons are strict |
| `Recommendations.OnlyLastThreeMatter` | remixed-16332ca1.tsx:46 | two lists that agree on their last three entries get the same recommendations |
| `Recommendations.PrependKeepsWindow` | remixed-16332ca1.tsx:46 | prepending any history to three or more entries leaves the window unchanged |
| `Recommendations.SumBelowHasWitness` | remixed-16332ca1.tsx:47-50 | a mean below a limit needs some score below it |
| `Recommendations.SumAboveHasWitness` | remixed-16332ca1.tsx:47-50 | a mean above a limit needs some score above it |
| `Recommendations.AllBelowFires` | remixed-16332ca1.tsx:47-50 | on a non-empty window, scores all below a limit give a mean below it |
| `Recommendations.AllAboveFires` | remixed-16332ca1.tsx:47-50 | on a non-empty window, scores all above a limit give a mean above it |
| `Recommendations.ShownHasWitness` | remixed-16332ca1.tsx:47-88 | a threshold item is shown only when some day of the window crossed its rule's limit (a mood item needs a day with mood below 5) |
| `Recommendations.UnanimousIsShown` | remixed-16332ca1.tsx:47-88 | when every day of a non-empty window crossed a rule's limit (every mood below 5, say), that rule's item is shown |
| `Recommendations.EmptyWindowIsQuiet` | remixed-16332ca1.tsx:46-97 | an empty list yields the maintenance item alone, as every comparison with `0 / 0` is false |
| `Recommendations.CalmWeek` | remixed-16332ca1.tsx:45-100 | moods 7, 6, 8, anxieties 3, 4, 2, stresses 4, 5, 3 and energies 6, 5, 8 yield the maintenance item alone |
| `Recommendations.HardDay` | remixed-16332ca1.tsx:45-100 | one entry with mood 4, anxiety 7, stress 7 and energy 3 yields all four items in order |
| `CheckIn.EntryOf` | remixed-16332ca1.tsx:104-110 | the new entry carries the form's four scores and note, the given date and the given sentiment |
| `CheckIn.WithScore` | remixed-16332ca1.tsx:260-281 | moving one slider sets that score of the form to the new value and keeps the other scores and the note |
| `CheckIn.WithoutDate` | remixed-16332ca1.tsx:112 | the filter is no longer than its input and keeps no entry of the date |
| `CheckIn.WithoutDateMembers` | remixed-16332ca1.tsx:112 | the filter keeps exactly the entries of other dates |
| `CheckIn.Upsert` | remixed-16332ca1.tsx:112 | after saving, the new entry is last and is the only entry of its date; the other entries are exactly the old ones of other dates |
| `CheckIn.WithoutDateAppend` | remixed-16332ca1.tsx:112 | filtering distributes over concatenation, so kept entries keep their relative order |
| `CheckIn.WithoutAbsentDate` | remixed-16332ca1.tsx:112 | filtering by a date no entry has changes nothing |
| `CheckIn.OnlyOneOfDate` | remixed-16332ca1.tsx:112 | with unique dates, no entry before or after an entry shares its date |
| `CheckIn.WithoutDateAround` | remixed-16332ca1.tsx:112 | filtering removes an entry of the date that sits between two runs without one |
| `CheckIn.WithoutPresentDate` | remixed-16332ca1.tsx:112 | with unique dates, filtering removes exactly the one entry of the date and keeps the rest in order |
| `CheckIn.WithoutDateUnique` | remixed-16332ca1.tsx:112 | filtering keeps dates unique |
| `CheckIn.UpsertUnique` | remixed-16332ca1.tsx:112 | saving keeps dates unique |
| `CheckIn.UpsertLength` | remixed-16332ca1.tsx:112 | with unique dates, saving grows the list by one iff the date is new, and otherwise keeps its length |
| `CheckIn.UpsertInRange` | remixed-16332ca1.tsx:102-112 | saving an entry built from an in-range form keeps every saved score in 1..10 |
| `CheckIn.WithoutDateTwice` | remixed-16332ca1.tsx:112 | filtering twice by a date is filtering once |
| `CheckIn.LastWriteWins` | remixed-16332ca1.tsx:112 | a second save on the same date discards the first |
| `CheckIn.WellnessMonitor.constructor` | remixed-16332ca1.tsx:7-23 | the monitor starts with the seven seeded entries and a 5/5/5/5 form with an empty note, and is valid |
| `CheckIn.WellnessMonitor.SetScore` | remixed-16332ca1.tsx:256-282 | moving a slider to v in 1..10 sets that score of the form, keeps the others and the entries, and keeps the invariant |
| `CheckIn.WellnessMonitor.SetNotes` | remixed-16332ca1.tsx:291 | editing the note replaces the form's note and changes nothing else |
| `CheckIn.WellnessMonitor.Submit` | remixed-16332ca1.tsx:102-121 | the entries become the old entries of other dates, in order, followed by the form's entry for `today` with the note's sentiment; the length grows by one iff `today` was new; the form is reset to 5/5/5/5 with an empty note; the invariant is kept |
| `CheckIn.SeededValid` | remixed-16332ca1.tsx:7-15 | the seven seeded entries have unique dates and in-range scores |
| `CheckIn.SeededRecommendations` | remixed-16332ca1.tsx:7-15 | the seeded list's last three days yield the maintenance item alone |
| `Dashboard.Latest` | remixed-16332ca1.tsx:148 | the latest entry is absent iff the list is empty, and is otherwise the last element |
| `Dashboard.Reading` | remixed-16332ca1.tsx:152-155 | a spoke reads the latest entry's score, falling back to 5 when there is no entry or the score is 0 (falsy) |
| `Dashboard.RadarData` | remixed-16332ca1.tsx:151-156 | four spokes, Mood, Energy, Low Stress and Low Anxiety, each out of 10 |
| `Dashboard.EmptyRadarIsMiddle` | remixed-16332ca1.tsx:151-156 | with no entry every spoke is 5 |
| `Dashboard.RadarOfLatest` | remixed-16332ca1.tsx:151-156 | for an in-range latest entry the spokes are its mood, its energy, 10 minus its stress and 10 minus its anxiety, all within 0..10 |
| `Dashboard.RadarOnlyLatest` | remixed-16332ca1.tsx:148-156 | only the latest entry shapes the chart |

## Left out

- Unicode case mapping and the full `\s` class: `Lower` maps only ASCII letters and `IsSpace` recognises only the six ASCII whitespace characters. Non-ASCII letters keep their case and non-ASCII spaces are not separators.
- Floating-point means: each comparison of a mean with a threshold is modelled exactly in integers. IEEE rounding and NaN propagation are not modelled. On an empty window the model gives the result the code's NaN comparisons give.
- The clock: `new Date().toISOString()` is replaced by the `today` parameter of `Submit`. Dates are opaque strings.
- `alert` after a submit, all JSX views (dashboard, check-in, analytics), navigation, the slider styling, and the chart and icon components: presentation only.
- The live sentiment preview under the note field and the dashboard's "N/A" figures: they display values the modelled functions already compute.
- The weekly chart's `slice(-7)` and the history table: chart data shaping with no decision logic.
- `parseInt` on slider events: `SetScore` takes an integer and requires 1..10, the range the sliders allow.
- React state mechanics (setter batching, re-rendering): state is the class's fields, updated by its methods.
- Recommendation titles, suggestions and icons are fixed texts per item type (`Recommendation.Title`, `Suggestion`, `Icon`). No property is stated about them.
- `GetRecommendations` takes the entry list as a parameter instead of reading the component state.
