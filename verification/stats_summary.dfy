/** The summary report (`GET /api/stats/summary`) over the user's rows of the
    last 60 days: the number of activities, the average duration, the
    outdoor share, the most frequent type and the time-of-day chart. */
module StatsSummary {
  import opened Common
  import opened Tally
  import opened Rows
  import StatsDetail

  /** `activities ? Math.round(sum / activities / 60) : 0`: the mean duration
      in minutes, the nearest integer, 0 without rows. */
  function AvgDurationMin(rows: seq<Row>): (m: int)
    ensures |rows| == 0 ==> m == 0
    ensures |rows| > 0 ==>
      60 * |rows| * (2 * m - 1) <= 2 * TotalSeconds(rows) < 60 * |rows| * (2 * m + 1)
  {
    if |rows| == 0 then 0 else RoundRatio(TotalSeconds(rows), 60 * |rows|)
  }

  lemma {:induction false} TotalSecondsBound(rows: seq<Row>, maxMin: nat)
    requires forall i :: 0 <= i < |rows| ==> 0 <= rows[i].durationSec.GetOr(0) <= 60 * maxMin
    ensures 0 <= TotalSeconds(rows) <= 60 * maxMin * |rows|
    decreases |rows|
  {
    if |rows| > 0 {
      TotalSecondsBound(rows[..|rows| - 1], maxMin);
    }
  }

  /** When no row lasts longer than maxMin minutes (and none is negative),
      the average lies between 0 and maxMin. */
  lemma AvgDurationMinBounds(rows: seq<Row>, maxMin: nat)
    requires forall i :: 0 <= i < |rows| ==> 0 <= rows[i].durationSec.GetOr(0) <= 60 * maxMin
    ensures 0 <= AvgDurationMin(rows) <= maxMin
  {
    if |rows| > 0 {
      TotalSecondsBound(rows, maxMin);
      RoundRatioBounds(TotalSeconds(rows), 60 * |rows|, maxMin);
    }
  }

  /** `topType`: the first key of the type tally sorted by count, undefined
      without rows. */
  function TopType(rows: seq<Row>): Option<string> {
    TopKey(TypeKeys(rows))
  }

  /** The top type is undefined exactly when there are no rows; otherwise
      it is the type (a null type being 'other') of as many rows as any
      other type, and the first such type seen. */
  lemma TopTypeSpec(rows: seq<Row>)
    ensures TopType(rows).None? <==> |rows| == 0
    ensures |rows| > 0 ==>
      var top := TopType(rows).value; var keys := TypeKeys(rows);
      && top in keys
      && (forall k :: k in keys ==> Occurrences(keys, k) <= Occurrences(keys, top))
      && (forall k :: k in keys && Occurrences(keys, k) == Occurrences(keys, top) ==>
            FirstIndex(keys, top) <= FirstIndex(keys, k))
  {
    TopKeySpec(TypeKeys(rows));
  }

  datatype SummaryReport = SummaryReport(
    activities: nat,
    avgDurationMin: int,
    outdoorPct: int,
    topType: Option<string>,
    chart: seq<NamedCount>)

  /** The `totals` and `chart` of the response. */
  function Summary(rows: seq<Row>): (r: SummaryReport)
    ensures r.activities == |rows|
    ensures 0 <= r.outdoorPct <= 100
    ensures |r.chart| == 3
    ensures r.chart[0].count + r.chart[1].count + r.chart[2].count <= |rows|
  {
    SummaryReport(|rows|, AvgDurationMin(rows), OutdoorPct(rows), TopType(rows), TimeOfDayChart(rows))
  }

  /** On the same rows the two reports agree: the same number of
      activities, the same outdoor share, the chart equal to the detail's
      time-of-day counts, and the top type equal to the name of the first
      entry of the type distribution. */
  lemma SummaryAgreesWithDetail(rows: seq<Row>)
    ensures var s := Summary(rows); var d := StatsDetail.Detail(rows);
      && s.activities == d.activities
      && s.outdoorPct == d.outdoorPct
      && s.chart == d.timeOfDayCounts
      && (s.topType.None? <==> |d.typeDistribution| == 0)
      && (s.topType.Some? ==> s.topType.value == d.typeDistribution[0].name)
  {
  }
}
