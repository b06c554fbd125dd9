/** The radar chart data of the dashboard: the latest entry's mood and energy,
    and its stress and anxiety inverted on the 0..10 scale, so that a larger
    area always reads as better. A missing entry, or a score of 0 (which the
    component treats as falsy), falls back to 5. */
module Dashboard {
  import opened Recommendations

  /** One spoke of the radar chart. */
  datatype RadarPoint = RadarPoint(subject: string, value: int, fullMark: int)

  /** The latest entry, if any. */
  function Latest(entries: seq<Entry>): (r: Option<Entry>)
    ensures r.None? <==> entries == []
    ensures r.Some? ==> r.value == entries[|entries| - 1]
  {
    if entries == [] then None else Some(entries[|entries| - 1])
  }

  /** `recentMood?.score || 5`: the score of the latest entry, or 5 when there is
      no entry or the score is 0. */
  function Reading(latest: Option<Entry>, m: Metric): (v: int)
    ensures v != 0
    ensures latest.Some? && Score(latest.value, m) != 0 ==> v == Score(latest.value, m)
    ensures latest.None? || Score(latest.value, m) == 0 ==> v == 5
  {
    match latest
    case None => 5
    case Some(e) => if Score(e, m) == 0 then 5 else Score(e, m)
  }

  /** The four spokes, in the order the chart draws them. */
  function RadarData(entries: seq<Entry>): (r: seq<RadarPoint>)
    ensures |r| == 4
    ensures r[0].subject == "Mood" && r[1].subject == "Energy"
    ensures r[2].subject == "Low Stress" && r[3].subject == "Low Anxiety"
    ensures forall k :: 0 <= k < 4 ==> r[k].fullMark == 10
  {
    var latest := Latest(entries);
    [ RadarPoint("Mood", Reading(latest, Mood), 10),
      RadarPoint("Energy", Reading(latest, Energy), 10),
      RadarPoint("Low Stress", 10 - Reading(latest, Stress), 10),
      RadarPoint("Low Anxiety", 10 - Reading(latest, Anxiety), 10) ]
  }

  /** With no entry, every spoke sits at the middle of the scale. */
  lemma EmptyRadarIsMiddle()
    ensures forall k :: 0 <= k < 4 ==> RadarData([])[k].value == 5
  {
  }

  /** For an in-range latest entry the chart shows its mood and energy, and
      its stress and anxiety inverted; every spoke lies within 0..10. */
  lemma RadarOfLatest(entries: seq<Entry>)
    requires entries != [] && InRange(entries[|entries| - 1])
    ensures var e, r := entries[|entries| - 1], RadarData(entries);
      r[0].value == e.mood && r[1].value == e.energy &&
      r[2].value + e.stress == 10 && r[3].value + e.anxiety == 10
    ensures forall k :: 0 <= k < 4 ==> 0 <= RadarData(entries)[k].value <= RadarData(entries)[k].fullMark
  {
  }

  /** Only the latest entry shapes the chart. */
  lemma RadarOnlyLatest(a: seq<Entry>, b: seq<Entry>, e: Entry)
    ensures RadarData(a + [e]) == RadarData(b + [e])
  {
  }
}
