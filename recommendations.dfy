/** Wellness entries and the recommendation engine of the wellness monitor
    (`getRecommendations`): the last three entries are averaged per metric and
    four strict threshold rules, checked in a fixed order, each add one item;
    when none fires, a single maintenance item is given instead. */
module Recommendations {
  import opened Sentiment

  datatype Option<T> = None | Some(value: T)

  /** One daily check-in. The sentiment is absent on the seeded entries and set
      on every entry the check-in form creates. */
  datatype Entry = Entry(date: string, mood: int, anxiety: int, stress: int, energy: int,
                         notes: string, sentiment: Option<Label>)

  /** The four self-reported scores. */
  datatype Metric = Mood | Anxiety | Stress | Energy

  function Score(e: Entry, m: Metric): int {
    match m
    case Mood => e.mood
    case Anxiety => e.anxiety
    case Stress => e.stress
    case Energy => e.energy
  }

  /** Scores come from sliders ranging over 1..10. */
  predicate InRange(e: Entry) {
    forall m: Metric :: 1 <= Score(e, m) <= 10
  }

  /** Entry scores all in range. */
  predicate AllInRange(es: seq<Entry>) {
    forall k :: 0 <= k < |es| ==> InRange(es[k])
  }

  // ---------------------------------------------------------------------------
  // The window and its sums
  // ---------------------------------------------------------------------------

  function Min(a: int, b: int): int { if a < b then a else b }

  /** `entries.slice(-3)`: the last three entries, or all of them when fewer. */
  function Window(entries: seq<Entry>): (w: seq<Entry>)
    ensures |w| == Min(3, |entries|)
    ensures entries == entries[..|entries| - |w|] + w
  {
    entries[|entries| - Min(3, |entries|)..]
  }

  /** The `reduce` of one metric over a list of entries, from the front. With
      every score in 1..10, the sum lies between `n` and `10 * n`. */
  function Sum(es: seq<Entry>, m: Metric): (s: int)
    ensures AllInRange(es) ==> |es| <= s <= 10 * |es|
  {
    if es == [] then 0 else Score(es[0], m) + Sum(es[1..], m)
  }

  // ---------------------------------------------------------------------------
  // The rule table
  // ---------------------------------------------------------------------------

  /** A threshold rule: fires when the mean of `metric` is strictly below
      (`below`) or strictly above (otherwise) `limit`. */
  datatype Rule = Rule(metric: Metric, below: bool, limit: int)

  /** The four rules, in the order the engine checks them. */
  const Rules: seq<Rule> :=
    [Rule(Mood, true, 5), Rule(Anxiety, false, 6), Rule(Stress, false, 6), Rule(Energy, true, 5)]

  /** `sum / n < limit` (or `>`) for the window's mean, cross-multiplied by the
      window length. On an empty window both sides are zero and nothing fires,
      as every comparison with JavaScript's `0 / 0` is false. */
  function Fires(r: Rule, w: seq<Entry>): (fires: bool)
    ensures fires ==> w != []
  {
    if r.below then Sum(w, r.metric) < r.limit * |w| else Sum(w, r.metric) > r.limit * |w|
  }

  /** A score lies beyond a rule's limit, on the side on which the rule fires. */
  predicate Beyond(r: Rule, x: int) {
    if r.below then x < r.limit else x > r.limit
  }

  /** A recommendation item, identified by its type; its title, suggestion and
      glyph are fixed texts of the type. */
  datatype Recommendation = Threshold(metric: Metric) | Maintenance
  {
    function Title(): string {
      match this
      case Threshold(Mood) => "Mood Enhancement"
      case Threshold(Anxiety) => "Anxiety Management"
      case Threshold(Stress) => "Stress Reduction"
      case Threshold(Energy) => "Energy Boost"
      case Maintenance => "Keep Up the Great Work!"
    }

    function Suggestion(): string {
      match this
      case Threshold(Mood) =>
        "Try engaging in activities you enjoy - listen to uplifting music, spend time with friends, or practice gratitude journaling."
      case Threshold(Anxiety) =>
        "Practice deep breathing exercises, try progressive muscle relaxation, or consider speaking with a counselor."
      case Threshold(Stress) =>
        "Break large tasks into smaller ones, practice time management, and ensure you're getting adequate sleep."
      case Threshold(Energy) =>
        "Focus on regular exercise, maintain consistent sleep schedule, and eat nutritious meals throughout the day."
      case Maintenance =>
        "You're maintaining good wellness habits. Continue with regular self-care and stay connected with your support network."
    }

    function Icon(): string {
      match this
      case Threshold(Mood) => "\U{1F60A}"
      case Threshold(Anxiety) => "\U{1F9D8}"
      case Threshold(Stress) => "\U{23F0}"
      case Threshold(Energy) => "\U{26A1}"
      case Maintenance => "\U{1F31F}"
    }
  }

  /** Display position of each kind. */
  function Rank(r: Recommendation): nat {
    match r
    case Threshold(Mood) => 0
    case Threshold(Anxiety) => 1
    case Threshold(Stress) => 2
    case Threshold(Energy) => 3
    case Maintenance => 4
  }

  /** The items of the rules of `rules` that fire on `w`, in rule order. */
  function Fired(rules: seq<Rule>, w: seq<Entry>): (r: seq<Recommendation>)
    ensures |r| <= |rules|
    ensures forall k :: 0 <= k < |r| ==> r[k].Threshold?
  {
    if rules == [] then []
    else Contribution(rules[0], w) + Fired(rules[1..], w)
  }

  /** What the engine shows for a window: the fired items, or the maintenance
      item alone when none fired. */
  function Recommend(w: seq<Entry>): (r: seq<Recommendation>)
    ensures |r| >= 1
    ensures r == [Maintenance] || forall k :: 0 <= k < |r| ==> r[k].Threshold?
  {
    var fired := Fired(Rules, w);
    if fired == [] then [Maintenance] else fired
  }

  /** `getRecommendations`: the four checks as a chain of conditional pushes. */
  method GetRecommendations(entries: seq<Entry>) returns (recommendations: seq<Recommendation>)
    ensures recommendations == Recommend(Window(entries))
  {
    var recent := Window(entries);
    var n := |recent|;
    FiredRules(recent);
    ghost var c0, c1, c2 := Contribution(Rules[0], recent), Contribution(Rules[1], recent), Contribution(Rules[2], recent);
    recommendations := [];
    if Sum(recent, Mood) < 5 * n {
      recommendations := recommendations + [Threshold(Mood)];
    }
    assert recommendations == c0;
    if Sum(recent, Anxiety) > 6 * n {
      recommendations := recommendations + [Threshold(Anxiety)];
    }
    assert recommendations == c0 + c1;
    if Sum(recent, Stress) > 6 * n {
      recommendations := recommendations + [Threshold(Stress)];
    }
    assert recommendations == c0 + c1 + c2;
    if Sum(recent, Energy) < 5 * n {
      recommendations := recommendations + [Threshold(Energy)];
    }
    assert recommendations == Fired(Rules, recent);
    if |recommendations| == 0 {
      recommendations := recommendations + [Maintenance];
    }
  }

  /** The item a rule contributes on a window. */
  function Contribution(r: Rule, w: seq<Entry>): seq<Recommendation> {
    if Fires(r, w) then [Threshold(r.metric)] else []
  }

  /** `Fired` on the rule table, written out rule by rule. */
  lemma FiredRules(w: seq<Entry>)
    ensures Fired(Rules, w) ==
      Contribution(Rules[0], w) + Contribution(Rules[1], w) +
      Contribution(Rules[2], w) + Contribution(Rules[3], w)
  {
    var rs := Rules;
    assert Fired(rs[3..], w) == Contribution(rs[3], w) by {
      assert rs[3..][1..] == [];
    }
    assert Fired(rs[2..], w) == Contribution(rs[2], w) + Fired(rs[3..], w) by {
      assert rs[2..][1..] == rs[3..];
    }
    assert Fired(rs[1..], w) == Contribution(rs[1], w) + Fired(rs[2..], w) by {
      assert rs[1..][1..] == rs[2..];
    }
  }

  // ---------------------------------------------------------------------------
  // Properties of the rule table
  // ---------------------------------------------------------------------------

  /** A threshold item is produced exactly when some rule for its metric fires. */
  lemma {:induction false} FiredMembership(rules: seq<Rule>, w: seq<Entry>, m: Metric)
    ensures Threshold(m) in Fired(rules, w) <==>
            exists i :: 0 <= i < |rules| && rules[i].metric == m && Fires(rules[i], w)
    decreases |rules|
  {
    if rules != [] {
      FiredMembership(rules[1..], w, m);
      if exists i :: 0 <= i < |rules| && rules[i].metric == m && Fires(rules[i], w) {
        var i :| 0 <= i < |rules| && rules[i].metric == m && Fires(rules[i], w);
        if i > 0 {
          assert rules[1..][i - 1] == rules[i];
        }
      }
      if exists i :: 0 <= i < |rules[1..]| && rules[1..][i].metric == m && Fires(rules[1..][i], w) {
        var i :| 0 <= i < |rules[1..]| && rules[1..][i].metric == m && Fires(rules[1..][i], w);
        assert rules[i + 1] == rules[1..][i];
      }
    }
  }

  /** Every fired item is the item of one of the rules. */
  lemma {:induction false} FiredFromRules(rules: seq<Rule>, w: seq<Entry>)
    ensures forall i :: 0 <= i < |Fired(rules, w)| ==>
              exists k :: 0 <= k < |rules| && Fired(rules, w)[i] == Threshold(rules[k].metric)
    decreases |rules|
  {
    if rules != [] {
      var tail := Fired(rules[1..], w);
      FiredFromRules(rules[1..], w);
      var r := Fired(rules, w);
      var head := Contribution(rules[0], w);
      assert r == head + tail;
      forall i | 0 <= i < |r|
        ensures exists k :: 0 <= k < |rules| && r[i] == Threshold(rules[k].metric)
      {
        if i < |head| {
          assert r[i] == Threshold(rules[0].metric);
        } else {
          var k :| 0 <= k < |rules[1..]| && tail[i - |head|] == Threshold(rules[1..][k].metric);
          assert r[i] == Threshold(rules[k + 1].metric);
        }
      }
    } else {
      assert |Fired(rules, w)| == 0;
    }
  }

  /** Rules listed in increasing display rank produce items in increasing rank. */
  lemma {:induction false} FiredOrdered(rules: seq<Rule>, w: seq<Entry>)
    requires forall i, j :: 0 <= i < j < |rules| ==> Rank(Threshold(rules[i].metric)) < Rank(Threshold(rules[j].metric))
    ensures forall i, j :: 0 <= i < j < |Fired(rules, w)| ==> Rank(Fired(rules, w)[i]) < Rank(Fired(rules, w)[j])
    ensures forall i :: 0 <= i < |Fired(rules, w)| ==>
              exists k :: 0 <= k < |rules| && Fired(rules, w)[i] == Threshold(rules[k].metric)
    decreases |rules|
  {
    if rules != [] {
      var tail := Fired(rules[1..], w);
      FiredOrdered(rules[1..], w);
      forall i | 0 <= i < |tail|
        ensures Rank(Threshold(rules[0].metric)) < Rank(tail[i])
      {
        var k :| 0 <= k < |rules[1..]| && tail[i] == Threshold(rules[1..][k].metric);
        assert rules[1..][k] == rules[k + 1];
      }
      var r := Fired(rules, w);
      var head := Contribution(rules[0], w);
      assert r == head + tail;
      forall i, j | 0 <= i < j < |r| ensures Rank(r[i]) < Rank(r[j]) {
        assert r[j] == tail[j - |head|];
        if i < |head| {
          assert r[i] == Threshold(rules[0].metric);
        } else {
          assert r[i] == tail[i - |head|];
        }
      }
      FiredFromRules(rules, w);
    } else {
      assert |Fired(rules, w)| == 0;
    }
  }

  /** The result is never empty, holds at most four items, in strictly
      increasing display rank (mood, anxiety, stress, energy, maintenance), so
      no type appears twice. */
  lemma RecommendShape(w: seq<Entry>)
    ensures 1 <= |Recommend(w)| <= 4
    ensures forall i, j :: 0 <= i < j < |Recommend(w)| ==> Rank(Recommend(w)[i]) < Rank(Recommend(w)[j])
  {
    RulesRanked();
    FiredOrdered(Rules, w);
    if Fired(Rules, w) == [] {
      assert Recommend(w) == [Maintenance];
    } else {
      assert Recommend(w) == Fired(Rules, w);
    }
  }

  /** The table lists its rules in increasing display rank. */
  lemma RulesRanked()
    ensures forall i, j :: 0 <= i < j < |Rules| ==> Rank(Threshold(Rules[i].metric)) < Rank(Threshold(Rules[j].metric))
  {
  }

  /** The maintenance item appears exactly when no rule fires, and then alone. */
  lemma MaintenanceExactlyWhenQuiet(w: seq<Entry>)
    ensures Maintenance in Recommend(w) <==> forall i :: 0 <= i < |Rules| ==> !Fires(Rules[i], w)
    ensures Maintenance in Recommend(w) <==> Recommend(w) == [Maintenance]
  {
    var fired := Fired(Rules, w);
    if fired != [] {
      var m := fired[0].metric;
      assert Threshold(m) in fired;
      FiredMembership(Rules, w, m);
    } else {
      forall i | 0 <= i < |Rules|
        ensures !Fires(Rules[i], w)
      {
        FiredMembership(Rules, w, Rules[i].metric);
      }
    }
  }

  /** A threshold item is in the result exactly when its rule fires. */
  lemma ThresholdItem(w: seq<Entry>, i: nat)
    requires i < |Rules|
    ensures Threshold(Rules[i].metric) in Recommend(w) <==> Fires(Rules[i], w)
  {
    FiredMembership(Rules, w, Rules[i].metric);
    assert forall j :: 0 <= j < |Rules| && Rules[j].metric == Rules[i].metric ==> j == i;
    var fired := Fired(Rules, w);
    if fired == [] {
      assert Recommend(w) == [Maintenance];
    }
  }

  /** The four strict threshold rules, in integer form. */
  lemma ThresholdItems(w: seq<Entry>)
    ensures Threshold(Mood) in Recommend(w) <==> Sum(w, Mood) < 5 * |w|
    ensures Threshold(Anxiety) in Recommend(w) <==> Sum(w, Anxiety) > 6 * |w|
    ensures Threshold(Stress) in Recommend(w) <==> Sum(w, Stress) > 6 * |w|
    ensures Threshold(Energy) in Recommend(w) <==> Sum(w, Energy) < 5 * |w|
  {
    ThresholdItem(w, 0);
    ThresholdItem(w, 1);
    ThresholdItem(w, 2);
    ThresholdItem(w, 3);
  }

  /** When no threshold item is shown, the maintenance item is shown alone. */
  lemma NoThresholdIsQuiet(w: seq<Entry>)
    requires forall m :: Threshold(m) !in Recommend(w)
    ensures Fired(Rules, w) == [] && Recommend(w) == [Maintenance]
  {
    FirstFiredShown(w);
  }

  lemma FirstFiredShown(w: seq<Entry>)
    ensures Fired(Rules, w) != [] ==> Threshold(Fired(Rules, w)[0].metric) in Recommend(w)
  {
  }

  /** Means exactly at the thresholds fire nothing. */
  lemma {:induction false} BoundaryIsQuiet(w: seq<Entry>)
    requires Sum(w, Mood) == 5 * |w| && Sum(w, Anxiety) == 6 * |w|
    requires Sum(w, Stress) == 6 * |w| && Sum(w, Energy) == 5 * |w|
    ensures Recommend(w) == [Maintenance]
  {
    FiredRules(w);
  }

  /** The cross-multiplied rule is the source's comparison of a mean. */
  lemma MeanComparison(sum: int, n: int, limit: int)
    requires n > 0
    ensures (sum as real) / (n as real) < limit as real <==> sum < limit * n
    ensures (sum as real) / (n as real) > limit as real <==> sum > limit * n
  {
    var mean := (sum as real) / (n as real);
    assert mean * (n as real) == sum as real;
    assert (limit * n) as real == (limit as real) * (n as real);
  }

  // ---------------------------------------------------------------------------
  // Properties of the window and of the sums
  // ---------------------------------------------------------------------------

  /** Entries before the last three never matter. */
  lemma OnlyLastThreeMatter(a: seq<Entry>, b: seq<Entry>)
    requires |a| >= 3 && |b| >= 3
    requires a[|a| - 3..] == b[|b| - 3..]
    ensures Recommend(Window(a)) == Recommend(Window(b))
  {
  }

  /** Prepending any history to three or more entries changes nothing. */
  lemma PrependKeepsWindow(history: seq<Entry>, entries: seq<Entry>)
    requires |entries| >= 3
    ensures Window(history + entries) == Window(entries)
  {
    assert (history + entries)[|history + entries| - 3..] == entries[|entries| - 3..];
  }

  /** A mean below `limit` needs at least one score below `limit`. */
  lemma {:induction false} SumBelowHasWitness(w: seq<Entry>, m: Metric, limit: int)
    requires Sum(w, m) < limit * |w|
    ensures exists i :: 0 <= i < |w| && Score(w[i], m) < limit
    decreases |w|
  {
    assert limit * |w| == limit * |w[1..]| + limit;
    if Score(w[0], m) >= limit {
      SumBelowHasWitness(w[1..], m, limit);
      var i :| 0 <= i < |w[1..]| && Score(w[1..][i], m) < limit;
      assert w[i + 1] == w[1..][i];
    }
  }

  /** A mean above `limit` needs at least one score above `limit`. */
  lemma {:induction false} SumAboveHasWitness(w: seq<Entry>, m: Metric, limit: int)
    requires Sum(w, m) > limit * |w|
    ensures exists i :: 0 <= i < |w| && Score(w[i], m) > limit
    decreases |w|
  {
    assert limit * |w| == limit * |w[1..]| + limit;
    if Score(w[0], m) <= limit {
      SumAboveHasWitness(w[1..], m, limit);
      var i :| 0 <= i < |w[1..]| && Score(w[1..][i], m) > limit;
      assert w[i + 1] == w[1..][i];
    }
  }

  /** When every score of a non-empty window is below `limit`, so is the mean. */
  lemma {:induction false} AllBelowFires(w: seq<Entry>, m: Metric, limit: int)
    requires |w| > 0
    requires forall i :: 0 <= i < |w| ==> Score(w[i], m) < limit
    ensures Sum(w, m) < limit * |w|
    decreases |w|
  {
    var tail := w[1..];
    assert limit * |w| == limit * |tail| + limit;
    if |tail| > 0 {
      AllBelowFires(tail, m, limit);
    }
  }

  /** When every score of a non-empty window is above `limit`, so is the mean. */
  lemma {:induction false} AllAboveFires(w: seq<Entry>, m: Metric, limit: int)
    requires |w| > 0
    requires forall i :: 0 <= i < |w| ==> Score(w[i], m) > limit
    ensures Sum(w, m) > limit * |w|
    decreases |w|
  {
    var tail := w[1..];
    assert limit * |w| == limit * |tail| + limit;
    if |tail| > 0 {
      AllAboveFires(tail, m, limit);
    }
  }

  /** A threshold item is shown only when some day of the window crossed its
      rule's limit. */
  lemma ShownHasWitness(w: seq<Entry>, i: nat)
    requires i < |Rules|
    requires Threshold(Rules[i].metric) in Recommend(w)
    ensures exists k :: 0 <= k < |w| && Beyond(Rules[i], Score(w[k], Rules[i].metric))
  {
    var r := Rules[i];
    ThresholdItem(w, i);
    if r.below {
      SumBelowHasWitness(w, r.metric, r.limit);
    } else {
      SumAboveHasWitness(w, r.metric, r.limit);
    }
  }

  /** When every day of a non-empty window crossed a rule's limit (every mood
      below 5, say), the rule's item is shown. */
  lemma UnanimousIsShown(w: seq<Entry>, i: nat)
    requires i < |Rules| && w != []
    requires forall k :: 0 <= k < |w| ==> Beyond(Rules[i], Score(w[k], Rules[i].metric))
    ensures Threshold(Rules[i].metric) in Recommend(w)
  {
    var r := Rules[i];
    ThresholdItem(w, i);
    if r.below {
      AllBelowFires(w, r.metric, r.limit);
    } else {
      AllAboveFires(w, r.metric, r.limit);
    }
  }

  /** An empty list gives the maintenance item alone: every comparison with
      the undefined mean is false. */
  lemma EmptyWindowIsQuiet()
    ensures Recommend(Window([])) == [Maintenance]
  {
    FiredRules([]);
  }

  // ---------------------------------------------------------------------------
  // Worked scenarios
  // ---------------------------------------------------------------------------

  function Scores(date: string, mood: int, anxiety: int, stress: int, energy: int): Entry {
    Entry(date, mood, anxiety, stress, energy, "", None)
  }

  /** Means 7, 3, 4 and 6.33: nothing fires. */
  lemma CalmWeek()
    ensures Recommend([Scores("a", 7, 3, 4, 6), Scores("b", 6, 4, 5, 5), Scores("c", 8, 2, 3, 8)])
            == [Maintenance]
  {
    var w := [Scores("a", 7, 3, 4, 6), Scores("b", 6, 4, 5, 5), Scores("c", 8, 2, 3, 8)];
    assert Sum(w, Mood) == 21 && Sum(w, Anxiety) == 9 && Sum(w, Stress) == 12 && Sum(w, Energy) == 19;
    FiredRules(w);
  }

  /** One entry with mood 4, anxiety 7, stress 7, energy 3: all four fire, in order. */
  lemma HardDay()
    ensures Recommend([Scores("a", 4, 7, 7, 3)])
            == [Threshold(Mood), Threshold(Anxiety), Threshold(Stress), Threshold(Energy)]
  {
    var w := [Scores("a", 4, 7, 7, 3)];
    assert Sum(w, Mood) == 4 && Sum(w, Anxiety) == 7 && Sum(w, Stress) == 7 && Sum(w, Energy) == 3;
    FiredRules(w);
  }
}
