/** The detail report (`GET /api/stats/detail`) over the user's rows of the
    last 60 days: totals, the type distribution, the weekday and time-of-day
    histograms, the average start time, the usual duration bucket and the
    longest streak of consecutive days. */
module StatsDetail {
  import opened Common
  import opened Tally
  import opened Rows
  import Streak
  import ClockText

  // ---------------------------------------------------------------- totals

  /** `Math.round(sum of duration_sec / 60)`: total minutes, the nearest
      integer to the total seconds over 60. */
  function Minutes(rows: seq<Row>): (m: int)
    ensures 60 * (2 * m - 1) <= 2 * TotalSeconds(rows) < 60 * (2 * m + 1)
  {
    RoundRatio(TotalSeconds(rows), 60)
  }

  // ----------------------------------------------------- type distribution

  /** One entry `{ name, count, pct }` of `typeDistribution`. */
  datatype TypeShare = TypeShare(name: string, count: nat, pct: int)

  /** `activities ? Math.round((count / activities) * 100) : 0` */
  function SharePct(count: nat, activities: nat): int {
    if activities == 0 then 0 else RoundRatio(100 * count, activities)
  }

  /** A share of at most all the rows lies in [0, 100] and is the nearest
      integer to the exact percentage. */
  lemma SharePctBounds(count: nat, activities: nat)
    requires count <= activities
    ensures 0 <= SharePct(count, activities) <= 100
    ensures activities > 0 ==>
      var p := SharePct(count, activities);
      activities * (2 * p - 1) <= 200 * count < activities * (2 * p + 1)
  {
    if activities > 0 {
      RoundRatioBounds(100 * count, activities, 100);
    }
  }

  /** The entries of the tally with their percentage of `activities`. */
  function Shares(es: seq<Entry<string>>, activities: nat): (d: seq<TypeShare>)
    ensures |d| == |es|
    ensures forall i :: 0 <= i < |es| ==>
      d[i] == TypeShare(es[i].name, es[i].count, SharePct(es[i].count, activities))
  {
    if |es| == 0 then []
    else [TypeShare(es[0].name, es[0].count, SharePct(es[0].count, activities))] + Shares(es[1..], activities)
  }

  /** Sum of the counts of a distribution. */
  function ShareTotal(d: seq<TypeShare>): nat {
    if |d| == 0 then 0 else d[0].count + ShareTotal(d[1..])
  }

  lemma {:induction false} SharesTotal(es: seq<Entry<string>>, activities: nat)
    ensures ShareTotal(Shares(es, activities)) == Total(es)
    decreases |es|
  {
    if |es| > 0 {
      SharesTotal(es[1..], activities);
      assert Shares(es, activities)[1..] == Shares(es[1..], activities);
    }
  }

  /** The `typeCounts` map (null type counted as 'other') turned into
      `{ name, count, pct }` entries and sorted by count, largest first.
      Sorting before or after adding `pct` gives the same list: the sort
      compares counts only and is stable. */
  function TypeDistribution(rows: seq<Row>): seq<TypeShare> {
    Shares(Ranking(TypeKeys(rows)), |rows|)
  }

  /** One entry per type (a null type is 'other'), holding that type's
      number of rows and its share in percent; the counts add up to the
      number of rows; larger counts come first and equal counts keep the
      order in which their types first appear. */
  lemma TypeDistributionSpec(rows: seq<Row>)
    ensures var d := TypeDistribution(rows); var keys := TypeKeys(rows);
      && (forall i :: 0 <= i < |d| ==>
            && d[i].name in keys
            && d[i].count == Occurrences(keys, d[i].name)
            && 0 <= d[i].pct <= 100
            && d[i].pct == SharePct(d[i].count, |rows|))
      && (forall i, j :: 0 <= i < j < |d| ==> d[i].name != d[j].name)
      && (forall k :: k in keys ==> exists i :: 0 <= i < |d| && d[i].name == k)
      && (forall i, j :: 0 <= i < j < |d| ==>
            || d[i].count > d[j].count
            || (d[i].count == d[j].count && FirstIndex(keys, d[i].name) < FirstIndex(keys, d[j].name)))
      && ShareTotal(d) == |rows|
  {
    var keys := TypeKeys(rows);
    RankingSpec(keys);
    TypeDistributionEntries(rows);
    TypeDistributionOrder(rows);
    TypeDistributionCovers(rows);
    SharesTotal(Ranking(keys), |rows|);
  }

  lemma TypeDistributionEntries(rows: seq<Row>)
    ensures var d := TypeDistribution(rows); var keys := TypeKeys(rows);
      && (forall i :: 0 <= i < |d| ==>
            && d[i].name in keys
            && d[i].count == Occurrences(keys, d[i].name)
            && 0 <= d[i].pct <= 100
            && d[i].pct == SharePct(d[i].count, |rows|))
      && (forall i, j :: 0 <= i < j < |d| ==> d[i].name != d[j].name)
  {
    var keys := TypeKeys(rows);
    var r := Ranking(keys);
    var d := TypeDistribution(rows);
    RankingSpec(keys);
    forall i | 0 <= i < |d|
      ensures d[i].name in keys && d[i].count == Occurrences(keys, d[i].name)
      ensures 0 <= d[i].pct <= 100 && d[i].pct == SharePct(d[i].count, |rows|)
    {
      assert d[i].name == r[i].name && d[i].count == r[i].count;
      OccurrencesBound(keys, d[i].name);
      SharePctBounds(d[i].count, |rows|);
    }
    forall i, j | 0 <= i < j < |d| ensures d[i].name != d[j].name {
      assert d[i].name == r[i].name && d[j].name == r[j].name;
    }
  }

  lemma TypeDistributionOrder(rows: seq<Row>)
    ensures var d := TypeDistribution(rows); var keys := TypeKeys(rows);
      forall i, j :: 0 <= i < j < |d| ==>
        && d[i].name in keys && d[j].name in keys
        && (|| d[i].count > d[j].count
            || (d[i].count == d[j].count && FirstIndex(keys, d[i].name) < FirstIndex(keys, d[j].name)))
  {
    var keys := TypeKeys(rows);
    var r := Ranking(keys);
    var d := TypeDistribution(rows);
    RankingSpec(keys);
    forall i, j | 0 <= i < j < |d|
      ensures d[i].name in keys && d[j].name in keys
      ensures || d[i].count > d[j].count
              || (d[i].count == d[j].count && FirstIndex(keys, d[i].name) < FirstIndex(keys, d[j].name))
    {
      assert Precedes(r[i], r[j], keys);
      assert d[i].name == r[i].name && d[i].count == r[i].count;
      assert d[j].name == r[j].name && d[j].count == r[j].count;
    }
  }

  lemma TypeDistributionCovers(rows: seq<Row>)
    ensures var d := TypeDistribution(rows);
      forall k :: k in TypeKeys(rows) ==> exists i :: 0 <= i < |d| && d[i].name == k
  {
    var keys := TypeKeys(rows);
    var r := Ranking(keys);
    var d := TypeDistribution(rows);
    RankingSpec(keys);
    forall k | k in keys ensures exists i :: 0 <= i < |d| && d[i].name == k {
      assert HasName(r, k);
      var i :| 0 <= i < |r| && r[i].name == k;
      assert d[i].name == k;
    }
  }

  // -------------------------------------------------------------- weekdays

  /** `['Sun','Mon','Tue','Wed','Thu','Fri','Sat']`, indexed by `getUTCDay()`. */
  const DayNames: seq<string> := ["Sun", "Mon", "Tue", "Wed", "Thu", "Fri", "Sat"]

  /** `weekdayOrder`, the order of the report. */
  const WeekdayOrder: seq<string> := ["Mon", "Tue", "Wed", "Thu", "Fri", "Sat", "Sun"]

  /** `dayName(start_time)`: the UTC weekday's short name. */
  function DayName(t: nat): (n: string)
    ensures n in WeekdayOrder
  {
    DayNames[UtcWeekday(t)]
  }

  /** The weekday moves on by one name a day. */
  lemma DayNameNextDay(t: nat)
    ensures DayName(t + SecondsPerDay) == DayNames[(UtcWeekday(t) + 1) % 7]
  {
    EpochDayShift(t, 1);
    var e := EpochDay(t) + 4;
    if e % 7 < 6 {
      DivUnique(e + 1, 7, e / 7, e % 7 + 1);
    } else {
      DivUnique(e + 1, 7, e / 7 + 1, 0);
    }
  }

  /** The weekday repeats every seven days. */
  lemma DayNameWeekly(t: nat)
    ensures DayName(t + 7 * SecondsPerDay) == DayName(t)
  {
    EpochDayShift(t, 7);
    var e := EpochDay(t) + 4;
    DivUnique(e + 7, 7, e / 7 + 1, e % 7);
  }

  /** 1970-01-01 was a Thursday and 2024-01-01 a Monday. */
  lemma DayNameExamples()
    ensures DayName(0) == "Thu"
    ensures DayName(1704067200) == "Mon"
  {
    assert EpochDay(1704067200) == 19723;
  }

  /** The weekday name of every row, in order. */
  function DayNamesOf(rows: seq<Row>): (ns: seq<string>)
    ensures |ns| == |rows|
    ensures forall i :: 0 <= i < |rows| ==> ns[i] == DayName(rows[i].startTime)
  {
    seq(|rows|, i requires 0 <= i < |rows| => DayName(rows[i].startTime))
  }

  /** The seven counters, all 0. */
  const ZeroWeek: map<string, nat> :=
    map["Mon" := 0, "Tue" := 0, "Wed" := 0, "Thu" := 0, "Fri" := 0, "Sat" := 0, "Sun" := 0]

  /** The `wdCounts` map after the loop `wdCounts.set(n, (wdCounts.get(n) ?? 0) + 1)`. */
  function WeekdayTally(rows: seq<Row>): map<string, nat>
    decreases |rows|
  {
    if |rows| == 0 then ZeroWeek
    else
      var m := WeekdayTally(rows[..|rows| - 1]);
      var n := DayName(rows[|rows| - 1].startTime);
      m[n := (if n in m then m[n] else 0) + 1]
  }

  /** The map keeps exactly the seven names and counts each one's rows. */
  lemma {:induction false} WeekdayTallyCounts(rows: seq<Row>)
    ensures WeekdayTally(rows).Keys == ZeroWeek.Keys
    ensures forall i :: 0 <= i < 7 ==>
      WeekdayTally(rows)[WeekdayOrder[i]] == Occurrences(DayNamesOf(rows), WeekdayOrder[i])
    decreases |rows|
  {
    if |rows| > 0 {
      var init := rows[..|rows| - 1];
      WeekdayTallyCounts(init);
      var ns := DayNamesOf(rows);
      assert ns[..|ns| - 1] == DayNamesOf(init);
    }
  }

  /** `weekdayOrder.map(name => ({ name, count: wdCounts.get(name) ?? 0 }))` */
  function WeekdayCounts(rows: seq<Row>): (wc: seq<NamedCount>)
    ensures |wc| == 7
    ensures forall i :: 0 <= i < 7 ==>
      wc[i].name == WeekdayOrder[i] && wc[i].count == Occurrences(DayNamesOf(rows), WeekdayOrder[i])
  {
    var m := WeekdayTally(rows);
    WeekdayTallyCounts(rows);
    seq(7, i requires 0 <= i < 7 => NamedCount(WeekdayOrder[i], m[WeekdayOrder[i]]))
  }

  /** Every row lands on exactly one of the seven days, so the seven counts
      (empty days included) add up to the number of rows. */
  lemma WeekdayCountsSum(rows: seq<Row>)
    ensures var wc := WeekdayCounts(rows);
      wc[0].count + wc[1].count + wc[2].count + wc[3].count + wc[4].count + wc[5].count + wc[6].count
      == |rows|
  {
    SevenWaySplit(DayNamesOf(rows));
  }

  /** Names drawn from the seven days split their number by day. */
  lemma {:induction false} SevenWaySplit(ns: seq<string>)
    requires forall i :: 0 <= i < |ns| ==> ns[i] in WeekdayOrder
    ensures Occurrences(ns, "Mon") + Occurrences(ns, "Tue") + Occurrences(ns, "Wed")
            + Occurrences(ns, "Thu") + Occurrences(ns, "Fri") + Occurrences(ns, "Sat")
            + Occurrences(ns, "Sun") == |ns|
    decreases |ns|
  {
    if |ns| > 0 {
      SevenWaySplit(ns[..|ns| - 1]);
    }
  }

  // ------------------------------------------------------ average start time

  /** `getUTCHours() * 60 + getUTCMinutes()` of every row, in order. */
  function MinutesOfDay(rows: seq<Row>): (ms: seq<nat>)
    ensures |ms| == |rows|
    ensures forall i :: 0 <= i < |rows| ==> ms[i] == MinuteOfDay(rows[i].startTime)
  {
    seq(|rows|, i requires 0 <= i < |rows| => MinuteOfDay(rows[i].startTime))
  }

  /** `reduce((a, b) => a + b, 0)` */
  function Sum(xs: seq<nat>): nat
    decreases |xs|
  {
    if |xs| == 0 then 0 else Sum(xs[..|xs| - 1]) + xs[|xs| - 1]
  }

  lemma {:induction false} SumBound(xs: seq<nat>, k: nat)
    requires forall i :: 0 <= i < |xs| ==> xs[i] <= k
    ensures Sum(xs) <= k * |xs|
    decreases |xs|
  {
    if |xs| > 0 {
      SumBound(xs[..|xs| - 1], k);
    }
  }

  /** `Math.round(sum / length)` of the minutes of the day: a minute of the
      day itself, the nearest integer to the mean. */
  function AvgStartMinute(rows: seq<Row>): (m: int)
    requires |rows| > 0
    ensures 0 <= m < 1440
    ensures |rows| * (2 * m - 1) <= 2 * Sum(MinutesOfDay(rows)) < |rows| * (2 * m + 1)
  {
    var ms := MinutesOfDay(rows);
    MeanMinuteBound(ms);
    RoundRatio(Sum(ms), |rows|)
  }

  /** The rounded mean of minutes of the day is a minute of the day. */
  lemma MeanMinuteBound(ms: seq<nat>)
    requires |ms| > 0
    requires forall i :: 0 <= i < |ms| ==> ms[i] < 1440
    ensures 0 <= RoundRatio(Sum(ms), |ms|) < 1440
  {
    SumBound(ms, 1439);
    RoundRatioBounds(Sum(ms), |ms|, 1439);
  }

  /** `avgStartTime`: `HH:MM` of the rounded mean, null without rows. */
  function AvgStartTime(rows: seq<Row>): Option<string> {
    if |rows| == 0 then None else Some(ClockText.Clock(AvgStartMinute(rows)))
  }

  /** The average start time is absent exactly when there are no rows;
      otherwise it is a well-formed `HH:MM` whose minute of the day is the
      rounded mean of the rows' UTC minutes of the day. */
  lemma AvgStartTimeSpec(rows: seq<Row>)
    ensures AvgStartTime(rows).None? <==> |rows| == 0
    ensures |rows| > 0 ==>
      var s := AvgStartTime(rows).value;
      && |s| == 5 && s[2] == ':'
      && ClockText.ParseClock(s).Some?
      && var m := ClockText.ParseClock(s).value;
         |rows| * (2 * m - 1) <= 2 * Sum(MinutesOfDay(rows)) < |rows| * (2 * m + 1)
  {
    if |rows| > 0 {
      ClockText.ClockRoundTrip(AvgStartMinute(rows));
    }
  }

  /** Activities starting at 06:00 and at 08:00 UTC average to "07:00". */
  lemma AvgStartTimeExample()
    ensures var r1 := Row(6 * 3600, None, None, None, None, None);
      var r2 := Row(8 * 3600, None, None, None, None, None);
      AvgStartTime([r1, r2]) == Some("07:00")
  {
    var r1 := Row(6 * 3600, None, None, None, None, None);
    var r2 := Row(8 * 3600, None, None, None, None, None);
    var ms := MinutesOfDay([r1, r2]);
    assert ms == [360, 480];
    assert ms[..1] == [360];
    assert Sum(ms[..1]) == 360;
    assert Sum(ms) == 840;
    RoundRatioUnique(840, 2, 420);
    ClockText.SevenOClock();
  }

  // ---------------------------------------------------- usual duration bucket

  /** `r.duration_bucket ?? 'short'` for every row, in order. */
  function BucketKeys(rows: seq<Row>): (bs: seq<DurationBucket>)
    ensures |bs| == |rows|
    ensures forall i :: 0 <= i < |rows| ==> bs[i] == rows[i].durationBucket.GetOr(Short)
  {
    seq(|rows|, i requires 0 <= i < |rows| => rows[i].durationBucket.GetOr(Short))
  }

  /** `commonDurationBucket`: the first entry of the bucket tally sorted by
      count, null without rows. */
  function CommonDurationBucket(rows: seq<Row>): Option<DurationBucket> {
    TopKey(BucketKeys(rows))
  }

  /** The usual bucket is absent exactly when there are no rows; otherwise
      it is a bucket of some row (a null bucket counting as short) held by
      as many rows as any other, and the first such bucket seen. */
  lemma CommonDurationBucketSpec(rows: seq<Row>)
    ensures CommonDurationBucket(rows).None? <==> |rows| == 0
    ensures |rows| > 0 ==>
      var b := CommonDurationBucket(rows).value; var bs := BucketKeys(rows);
      && b in bs
      && (forall c :: c in bs ==> Occurrences(bs, c) <= Occurrences(bs, b))
      && (forall c :: c in bs && Occurrences(bs, c) == Occurrences(bs, b) ==> FirstIndex(bs, b) <= FirstIndex(bs, c))
  {
    TopKeySpec(BucketKeys(rows));
  }

  // ----------------------------------------------------------------- streak

  /** The UTC date (`toISOString().slice(0, 10)`) of every row, as a day
      number. Distinct dates are distinct numbers, their text sorts like
      their number, and consecutive dates differ by exactly one day. */
  function StreakDays(rows: seq<Row>): (ds: seq<int>)
    ensures |ds| == |rows|
    ensures forall i :: 0 <= i < |rows| ==> ds[i] == EpochDay(rows[i].startTime)
  {
    seq(|rows|, i requires 0 <= i < |rows| => EpochDay(rows[i].startTime) as int)
  }

  /** `longestStreakDays` */
  function LongestStreakDays(rows: seq<Row>): nat {
    Streak.LongestStreak(StreakDays(rows))
  }

  /** The streak is the longest run of consecutive UTC dates holding an
      activity: 0 without rows, otherwise between 1 and the number of
      distinct dates. */
  lemma LongestStreakDaysSpec(rows: seq<Row>)
    ensures Streak.LongestRun(StreakDays(rows), LongestStreakDays(rows))
    ensures LongestStreakDays(rows) == 0 <==> |rows| == 0
    ensures |rows| > 0 ==> 1 <= LongestStreakDays(rows) <= |set d | d in StreakDays(rows)|
  {
    Streak.LongestStreakSpec(StreakDays(rows));
  }

  // ----------------------------------------------------------------- report

  datatype DetailReport = DetailReport(
    activities: nat,
    minutes: int,
    outdoorPct: int,
    typeDistribution: seq<TypeShare>,
    weekdayCounts: seq<NamedCount>,
    timeOfDayCounts: seq<NamedCount>,
    avgStartTime: Option<string>,
    commonDurationBucket: Option<DurationBucket>,
    longestStreakDays: nat)

  /** The response body of the route, apart from the date range. */
  function Detail(rows: seq<Row>): (r: DetailReport)
    ensures r.activities == |rows|
    ensures 0 <= r.outdoorPct <= 100
    ensures |r.weekdayCounts| == 7 && |r.timeOfDayCounts| == 3
    ensures r.avgStartTime.None? <==> |rows| == 0
    ensures r.longestStreakDays == 0 <==> |rows| == 0
  {
    LongestStreakDaysSpec(rows);
    DetailReport(
      |rows|, Minutes(rows), OutdoorPct(rows), TypeDistribution(rows), WeekdayCounts(rows),
      TimeOfDayChart(rows), AvgStartTime(rows), CommonDurationBucket(rows), LongestStreakDays(rows))
  }
}
