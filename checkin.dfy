/** The check-in state of the wellness monitor: the list of entries and the
    check-in form, and `handleMoodSubmit`, which turns the form into today's
    entry (replacing any earlier entry of the same date) and clears the form. */
module CheckIn {
  import opened Sentiment
  import opened Recommendations

  /** The values of the check-in form. */
  datatype Form = Form(mood: int, anxiety: int, stress: int, energy: int, notes: string)

  /** The form as it starts and as it is reset after every submit. */
  const BlankForm: Form := Form(5, 5, 5, 5, "")

  /** Every slider of the form ranges over 1..10. */
  predicate FormInRange(f: Form) {
    1 <= f.mood <= 10 && 1 <= f.anxiety <= 10 && 1 <= f.stress <= 10 && 1 <= f.energy <= 10
  }

  /** The form with one slider moved to `v`: that score is `v`, the other
      scores and the note are kept. */
  function WithScore(f: Form, m: Metric, v: int): (r: Form)
    ensures FormScore(r, m) == v && r.notes == f.notes
    ensures forall m' :: m' != m ==> FormScore(r, m') == FormScore(f, m')
  {
    match m
    case Mood => f.(mood := v)
    case Anxiety => f.(anxiety := v)
    case Stress => f.(stress := v)
    case Energy => f.(energy := v)
  }

  /** The entry the form becomes on `date`, carrying the sentiment of its note. */
  function EntryOf(f: Form, date: string, sentiment: Label): (e: Entry)
    ensures e.date == date && e.notes == f.notes && e.sentiment == Some(sentiment)
    ensures forall m :: Score(e, m) == FormScore(f, m)
  {
    Entry(date, f.mood, f.anxiety, f.stress, f.energy, f.notes, Some(sentiment))
  }

  function FormScore(f: Form, m: Metric): int {
    match m
    case Mood => f.mood
    case Anxiety => f.anxiety
    case Stress => f.stress
    case Energy => f.energy
  }

  // ---------------------------------------------------------------------------
  // The entry list: dates are a key, the last write wins
  // ---------------------------------------------------------------------------

  /** No two entries share a date. */
  predicate UniqueDates(es: seq<Entry>) {
    forall i, j :: 0 <= i < j < |es| ==> es[i].date != es[j].date
  }

  predicate HasDate(es: seq<Entry>, d: string) {
    exists i :: 0 <= i < |es| && es[i].date == d
  }

  /** `entries.filter(entry => entry.date !== d)`. */
  function WithoutDate(es: seq<Entry>, d: string): (r: seq<Entry>)
    ensures |r| <= |es|
    ensures forall k :: 0 <= k < |r| ==> r[k].date != d
  {
    if es == [] then []
    else (if es[0].date != d then [es[0]] else []) + WithoutDate(es[1..], d)
  }

  /** The filter keeps exactly the entries of other dates. */
  lemma {:induction false} WithoutDateMembers(es: seq<Entry>, d: string)
    ensures forall x :: x in WithoutDate(es, d) <==> x in es && x.date != d
    decreases |es|
  {
    if es != [] {
      WithoutDateMembers(es[1..], d);
      assert es == [es[0]] + es[1..];
    }
  }

  /** The list after saving `e`: every entry of another date, in order, then `e`. */
  function Upsert(es: seq<Entry>, e: Entry): (r: seq<Entry>)
    ensures |r| >= 1 && r[|r| - 1] == e
    ensures forall k :: 0 <= k < |r| && r[k].date == e.date ==> k == |r| - 1
    ensures forall x :: x in r <==> x == e || (x in es && x.date != e.date)
  {
    WithoutDateMembers(es, e.date);
    WithoutDate(es, e.date) + [e]
  }

  /** Filtering distributes over concatenation, so it keeps relative order. */
  lemma {:induction false} WithoutDateAppend(a: seq<Entry>, b: seq<Entry>, d: string)
    ensures WithoutDate(a + b, d) == WithoutDate(a, d) + WithoutDate(b, d)
    decreases |a|
  {
    if a == [] {
      assert a + b == b;
    } else {
      assert (a + b)[0] == a[0];
      assert (a + b)[1..] == a[1..] + b;
      WithoutDateAppend(a[1..], b, d);
    }
  }

  /** Without an entry of date `d`, filtering changes nothing. */
  lemma {:induction false} WithoutAbsentDate(es: seq<Entry>, d: string)
    requires !HasDate(es, d)
    ensures WithoutDate(es, d) == es
    decreases |es|
  {
    if es != [] {
      assert !HasDate(es[1..], d) by {
        forall i | 0 <= i < |es[1..]| ensures es[1..][i].date != d {
          assert es[1..][i] == es[i + 1];
        }
      }
      WithoutAbsentDate(es[1..], d);
    }
  }

  /** With dates unique, the entry at `i` is the only one of its date. */
  lemma OnlyOneOfDate(es: seq<Entry>, i: nat)
    requires UniqueDates(es)
    requires i < |es|
    ensures !HasDate(es[..i], es[i].date) && !HasDate(es[i + 1..], es[i].date)
  {
    var a, b := es[..i], es[i + 1..];
    forall k | 0 <= k < |a| ensures a[k].date != es[i].date {
      assert a[k] == es[k];
    }
    forall k | 0 <= k < |b| ensures b[k].date != es[i].date {
      assert b[k] == es[i + 1 + k];
    }
  }

  /** Filtering removes an entry of date `d` lying between two runs without one. */
  lemma {:induction false} WithoutDateAround(a: seq<Entry>, x: Entry, b: seq<Entry>, d: string)
    requires !HasDate(a, d) && !HasDate(b, d) && x.date == d
    ensures WithoutDate(a + [x] + b, d) == a + b
  {
    calc {
      WithoutDate(a + [x] + b, d);
      { WithoutDateAppend(a + [x], b, d); }
      WithoutDate(a + [x], d) + WithoutDate(b, d);
      { WithoutDateAppend(a, [x], d); }
      WithoutDate(a, d) + [] + WithoutDate(b, d);
      { WithoutAbsentDate(a, d); WithoutAbsentDate(b, d); }
      a + [] + b;
    }
    assert a + [] + b == a + b;
  }

  /** With dates unique, filtering removes exactly the one entry of date `d`. */
  lemma {:induction false} WithoutPresentDate(es: seq<Entry>, d: string, i: nat)
    requires UniqueDates(es)
    requires i < |es| && es[i].date == d
    ensures WithoutDate(es, d) == es[..i] + es[i + 1..]
  {
    OnlyOneOfDate(es, i);
    WithoutDateAround(es[..i], es[i], es[i + 1..], d);
    assert es[..i] + [es[i]] + es[i + 1..] == es;
  }

  /** Filtering keeps dates unique. */
  lemma {:induction false} WithoutDateUnique(es: seq<Entry>, d: string)
    requires UniqueDates(es)
    ensures UniqueDates(WithoutDate(es, d))
    decreases |es|
  {
    if es != [] {
      var rest := WithoutDate(es[1..], d);
      WithoutDateUnique(es[1..], d);
      WithoutDateMembers(es[1..], d);
      forall k | 0 <= k < |rest| ensures rest[k].date != es[0].date {
        assert rest[k] in es[1..];
        var j :| 0 <= j < |es[1..]| && es[1..][j] == rest[k];
        assert es[j + 1] == rest[k];
      }
    }
  }

  /** Saving an entry keeps dates unique. */
  lemma UpsertUnique(es: seq<Entry>, e: Entry)
    requires UniqueDates(es)
    ensures UniqueDates(Upsert(es, e))
  {
    WithoutDateUnique(es, e.date);
  }

  /** Saving grows the list by one exactly when its date is new. */
  lemma UpsertLength(es: seq<Entry>, e: Entry)
    requires UniqueDates(es)
    ensures |Upsert(es, e)| == if HasDate(es, e.date) then |es| else |es| + 1
  {
    if HasDate(es, e.date) {
      var i :| 0 <= i < |es| && es[i].date == e.date;
      WithoutPresentDate(es, e.date, i);
    } else {
      WithoutAbsentDate(es, e.date);
    }
  }

  /** Saving an entry built from an in-range form keeps every score in range. */
  lemma UpsertInRange(es: seq<Entry>, f: Form, e: Entry)
    requires AllInRange(es) && FormInRange(f)
    requires forall m :: Score(e, m) == FormScore(f, m)
    ensures AllInRange(Upsert(es, e))
  {
    var r := Upsert(es, e);
    forall k | 0 <= k < |r| ensures InRange(r[k]) {
      assert r[k] in r;
      if r[k] != e {
        var j :| 0 <= j < |es| && es[j] == r[k];
      }
    }
  }

  /** Filtering twice by the same date is filtering once. */
  lemma {:induction false} WithoutDateTwice(es: seq<Entry>, d: string)
    ensures WithoutDate(WithoutDate(es, d), d) == WithoutDate(es, d)
  {
    WithoutAbsentDate(WithoutDate(es, d), d);
  }

  /** Last write wins: a second save on the same date discards the first. */
  lemma LastWriteWins(es: seq<Entry>, first: Entry, second: Entry)
    requires first.date == second.date
    ensures Upsert(Upsert(es, first), second) == Upsert(es, second)
  {
    var d := second.date;
    WithoutDateAppend(WithoutDate(es, d), [first], d);
    WithoutDateTwice(es, d);
  }

  // ---------------------------------------------------------------------------
  // The component state
  // ---------------------------------------------------------------------------

  /** The seven entries the monitor starts with. */
  const Seeded: seq<Entry> := [
    Entry("2024-01-01", 7, 3, 4, 6, "Started new semester, feeling optimistic", None),
    Entry("2024-01-02", 6, 4, 5, 5, "Lots of coursework already", None),
    Entry("2024-01-03", 8, 2, 3, 8, "Great day with friends, feeling balanced", None),
    Entry("2024-01-04", 5, 6, 7, 4, "Midterm stress kicking in", None),
    Entry("2024-01-05", 7, 3, 4, 7, "Meditation helped a lot", None),
    Entry("2024-01-06", 6, 4, 5, 6, "Regular day, staying consistent", None),
    Entry("2024-01-07", 9, 1, 2, 9, "Amazing weekend with family!", None)
  ]

  /** The monitor's state: the entry list and the check-in form. */
  class WellnessMonitor {
    var entries: seq<Entry>
    var form: Form

    /** The list is never empty, its dates are a key, and every score, saved
        or on the form, lies in 1..10. */
    ghost predicate Valid()
      reads this
    {
      |entries| > 0 && UniqueDates(entries) && AllInRange(entries) && FormInRange(form)
    }

    constructor ()
      ensures Valid()
      ensures entries == Seeded && form == BlankForm
    {
      entries := Seeded;
      form := BlankForm;
      new;
      SeededValid();
    }

    /** A slider of the form moved to `v` (the sliders range over 1..10). */
    method SetScore(m: Metric, v: int)
      requires Valid()
      requires 1 <= v <= 10
      modifies this
      ensures Valid()
      ensures entries == old(entries)
      ensures form == WithScore(old(form), m, v)
      ensures FormScore(form, m) == v
      ensures forall m' :: m' != m ==> FormScore(form, m') == FormScore(old(form), m')
    {
      form := WithScore(form, m, v);
    }

    /** The note of the form replaced by `notes`. */
    method SetNotes(notes: string)
      requires Valid()
      modifies this
      ensures Valid()
      ensures entries == old(entries)
      ensures form == old(form).(notes := notes)
    {
      form := form.(notes := notes);
    }

    /** `handleMoodSubmit` on date `today`: the form becomes today's entry,
        carrying the sentiment of its note, replacing any entry of that date,
        and the form is cleared. */
    method Submit(today: string)
      requires Valid()
      modifies this
      ensures Valid()
      ensures entries == Upsert(old(entries), EntryOf(old(form), today, SentimentOf(old(form).notes)))
      ensures entries[|entries| - 1].sentiment == Some(SentimentOf(old(form).notes))
      ensures |entries| == if HasDate(old(entries), today) then |old(entries)| else |old(entries)| + 1
      ensures form == BlankForm
    {
      var sentiment := AnalyzeSentiment(form.notes);
      var newEntry := EntryOf(form, today, sentiment);
      UpsertUnique(entries, newEntry);
      UpsertLength(entries, newEntry);
      UpsertInRange(entries, form, newEntry);
      entries := Upsert(entries, newEntry);
      form := BlankForm;
    }
  }

  lemma SeededValid()
    ensures |Seeded| == 7 && UniqueDates(Seeded) && AllInRange(Seeded)
  {
    SeededUnique();
    SeededInRange();
  }

  /** The seeded dates differ in their last character, the day. */
  lemma SeededUnique()
    ensures UniqueDates(Seeded)
  {
    forall i, j | 0 <= i < j < |Seeded| ensures Seeded[i].date != Seeded[j].date {
      assert Seeded[i].date[9] as int == '1' as int + i;
      assert Seeded[j].date[9] as int == '1' as int + j;
    }
  }

  lemma SeededInRange()
    ensures AllInRange(Seeded)
  {
  }

  /** On the seeded list the last three days average mood 7.33, anxiety 2.67,
      stress 3.67 and energy 7.33, so the dashboard opens on the maintenance item. */
  lemma SeededRecommendations()
    ensures Recommend(Window(Seeded)) == [Maintenance]
  {
    var w := [
      Entry("2024-01-05", 7, 3, 4, 7, "Meditation helped a lot", None),
      Entry("2024-01-06", 6, 4, 5, 6, "Regular day, staying consistent", None),
      Entry("2024-01-07", 9, 1, 2, 9, "Amazing weekend with family!", None)
    ];
    assert Window(Seeded) == w;
    assert Sum(w, Mood) == 22 && Sum(w, Anxiety) == 8 && Sum(w, Stress) == 11 && Sum(w, Energy) == 22;
    FiredRules(w);
  }
}
