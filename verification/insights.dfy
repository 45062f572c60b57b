/** The insights report (`GET /api/insights`). It reads every row of
    `activities` (of every user, with no time window) and tallies type and
    time of day in plain objects, whose keys are strings: a null value
    becomes the key "null". */
module Insights {
  import opened Common
  import opened Tally
  import opened Rows
  import StatsSummary

  /** `percent(part, total)`: 0 for a total of 0, otherwise the nearest
      integer to 100 * part / total (a half rounding up). */
  function Percent(part: nat, total: nat): (p: int)
    ensures total == 0 ==> p == 0
    ensures total > 0 ==> total * (2 * p - 1) <= 200 * part < total * (2 * p + 1)
  {
    if total == 0 then 0 else RoundRatio(100 * part, total)
  }

  /** A part of the total is between 0 and 100 percent. */
  lemma PercentBounds(part: nat, total: nat)
    requires part <= total
    ensures 0 <= Percent(part, total) <= 100
  {
    if total > 0 {
      RoundRatioBounds(100 * part, total, 100);
    }
  }

  /** The property key of a value: `String(v)`, so null becomes "null". */
  function PropertyKey(v: Option<string>): string {
    v.GetOr("null")
  }

  /** `typeCounts[a.type]` keys of every row, in order. */
  function TypeProperties(rows: seq<Row>): (ks: seq<string>)
    ensures |ks| == |rows|
    ensures forall i :: 0 <= i < |rows| ==> ks[i] == PropertyKey(rows[i].activityType)
  {
    seq(|rows|, i requires 0 <= i < |rows| => PropertyKey(rows[i].activityType))
  }

  /** The stored `time_of_day` text of a row, if any. */
  function TimeText(t: Option<TimeOfDay>): Option<string> {
    match t
    case Some(b) => Some(b.Name())
    case None => None
  }

  /** `timeCounts[a.time_of_day]` keys of every row, in order. */
  function TimeProperties(rows: seq<Row>): (ks: seq<string>)
    ensures |ks| == |rows|
    ensures forall i :: 0 <= i < |rows| ==> ks[i] == PropertyKey(TimeText(rows[i].timeOfDay))
  {
    seq(|rows|, i requires 0 <= i < |rows| => PropertyKey(TimeText(rows[i].timeOfDay)))
  }

  datatype Report = Report(
    totalActivities: nat,
    topType: string,
    topTimeOfDay: string,
    avgDurationMin: int,
    outdoorPct: int)

  /** The first key of a non-empty tally sorted by count. */
  function Top(keys: seq<string>): string
    requires |keys| > 0
  {
    TopKeySpec(keys);
    TopKey(keys).value
  }

  /** `insights`: null without rows; otherwise the total, the top type and
      time of day, `Math.round((sum / total) / 60)` and the outdoor share of
      `filter(is_outdoor).length`. */
  function InsightsOf(rows: seq<Row>): (r: Option<Report>)
    ensures r.None? <==> |rows| == 0
    ensures r.Some? ==> r.value.totalActivities == |rows| && 0 <= r.value.outdoorPct <= 100
  {
    if |rows| == 0 then None
    else
      OutdoorCountIsFilterLength(rows);
      PercentBounds(|OutdoorRows(rows)|, |rows|);
      Some(Report(
        |rows|,
        Top(TypeProperties(rows)),
        Top(TimeProperties(rows)),
        RoundRatio(TotalSeconds(rows), 60 * |rows|),
        Percent(|OutdoorRows(rows)|, |rows|)))
  }

  /** Each top key is held by as many rows as any other key, and is the
      first such key seen; missing values count together under "null". */
  lemma TopKeysSpec(rows: seq<Row>)
    requires |rows| > 0
    ensures var r := InsightsOf(rows).value;
      var ts := TypeProperties(rows); var hs := TimeProperties(rows);
      && r.topType in ts
      && (forall k :: k in ts ==> Occurrences(ts, k) <= Occurrences(ts, r.topType))
      && (forall k :: k in ts && Occurrences(ts, k) == Occurrences(ts, r.topType) ==>
            FirstIndex(ts, r.topType) <= FirstIndex(ts, k))
      && r.topTimeOfDay in hs
      && (forall k :: k in hs ==> Occurrences(hs, k) <= Occurrences(hs, r.topTimeOfDay))
      && (forall k :: k in hs && Occurrences(hs, k) == Occurrences(hs, r.topTimeOfDay) ==>
            FirstIndex(hs, r.topTimeOfDay) <= FirstIndex(hs, k))
  {
    TopKeySpec(TypeProperties(rows));
    TopKeySpec(TimeProperties(rows));
  }

  /** On the same rows the insights agree with the summary report on the
      average duration and the outdoor share, and also on the top type when
      every row has a type. */
  lemma AgreesWithSummary(rows: seq<Row>)
    requires |rows| > 0
    ensures var r := InsightsOf(rows).value; var s := StatsSummary.Summary(rows);
      && r.avgDurationMin == s.avgDurationMin
      && r.outdoorPct == s.outdoorPct
      && ((forall i :: 0 <= i < |rows| ==> rows[i].activityType.Some?) ==> Some(r.topType) == s.topType)
  {
    OutdoorCountIsFilterLength(rows);
    if forall i :: 0 <= i < |rows| ==> rows[i].activityType.Some? {
      assert TypeProperties(rows) == TypeKeys(rows);
    }
  }

  /** Where the summary folds a missing type into 'other', the insights keep
      it apart as "null": two untyped rows and one run give "null" here and
      'other' there. */
  lemma MissingTypeExample()
    ensures var untyped := Row(0, None, None, None, None, None);
      var run := Row(0, None, None, Some("run"), None, None);
      var rows := [untyped, untyped, run];
      && InsightsOf(rows).value.topType == "null"
      && StatsSummary.Summary(rows).topType == Some("other")
  {
    var untyped := Row(0, None, None, None, None, None);
    var run := Row(0, None, None, Some("run"), None, None);
    var rows := [untyped, untyped, run];
    assert TypeProperties(rows) == ["null", "null", "run"];
    TwiceBeatsOnce("null", "run");
    assert TypeKeys(rows) == ["other", "other", "run"];
    TwiceBeatsOnce("other", "run");
  }

  /** A key seen twice beats a key seen once. */
  lemma TwiceBeatsOnce(a: string, b: string)
    requires a != b
    ensures TopKey([a, a, b]) == Some(a)
  {
    var ks := [a, a, b];
    assert ks[..1] == [a] && ks[..2] == [a, a];
    TopKeySpec(ks);
    assert Occurrences(ks, a) == 2 && Occurrences(ks, b) == 1;
  }
}
