/** The `activities` rows the analytics routes read, and the folds that the
    summary and detail routes both perform on them (they share the code
    line for line: the duration sum, the outdoor count and the three-bucket
    time-of-day chart). */
module Rows {
  import opened Common
  import opened Tally

  /** One selected row. Every column except the start time may be null. */
  datatype Row = Row(
    startTime: nat,                        // epoch seconds of `start_time`
    durationSec: Option<int>,
    isOutdoor: Option<bool>,
    activityType: Option<string>,
    durationBucket: Option<DurationBucket>,
    timeOfDay: Option<TimeOfDay>)

  /** A named counter as it appears in the JSON responses. */
  datatype NamedCount = NamedCount(name: string, count: nat)

  /** `list.reduce((s, r) => s + (r.duration_sec ?? 0), 0)` */
  function TotalSeconds(rows: seq<Row>): int
    decreases |rows|
  {
    if |rows| == 0 then 0
    else TotalSeconds(rows[..|rows| - 1]) + rows[|rows| - 1].durationSec.GetOr(0)
  }

  /** A row counts as outdoor when `is_outdoor` is truthy, i.e. true. */
  predicate IsOutdoor(r: Row) {
    r.isOutdoor == Some(true)
  }

  /** `list.reduce((s, r) => s + (r.is_outdoor ? 1 : 0), 0)` */
  function OutdoorCount(rows: seq<Row>): nat
    decreases |rows|
  {
    if |rows| == 0 then 0
    else OutdoorCount(rows[..|rows| - 1]) + (if IsOutdoor(rows[|rows| - 1]) then 1 else 0)
  }

  /** `activities ? Math.round((outdoorCount / activities) * 100) : 0`: the
      share of outdoor rows in percent, the nearest integer (a half rounding
      up), 0 when there are no rows. */
  function OutdoorPct(rows: seq<Row>): (p: int)
    ensures 0 <= p <= 100
    ensures |rows| == 0 ==> p == 0
    ensures |rows| > 0 ==>
      |rows| * (2 * p - 1) <= 200 * OutdoorCount(rows) < |rows| * (2 * p + 1)
  {
    if |rows| == 0 then 0
    else
      OutdoorCountIsFilterLength(rows);
      RoundRatioBounds(100 * OutdoorCount(rows), |rows|, 100);
      RoundRatio(100 * OutdoorCount(rows), |rows|)
  }

  /** `list.filter((r) => r.is_outdoor)` */
  function OutdoorRows(rows: seq<Row>): (out: seq<Row>)
    ensures forall r :: r in out ==> r in rows && IsOutdoor(r)
    ensures forall r :: r in rows && IsOutdoor(r) ==> r in out
  {
    if |rows| == 0 then []
    else (if IsOutdoor(rows[0]) then [rows[0]] else []) + OutdoorRows(rows[1..])
  }

  /** The filter keeps every outdoor row as often as it occurs, and nothing else. */
  lemma {:induction false} OutdoorRowsCounts(rows: seq<Row>)
    ensures forall r :: multiset(OutdoorRows(rows))[r] == if IsOutdoor(r) then multiset(rows)[r] else 0
    decreases |rows|
  {
    if |rows| > 0 {
      OutdoorRowsCounts(rows[1..]);
      assert rows == [rows[0]] + rows[1..];
    }
  }

  /** Counting with `reduce` and counting with `filter(...).length` agree,
      and neither exceeds the number of rows. */
  lemma {:induction false} OutdoorCountIsFilterLength(rows: seq<Row>)
    ensures OutdoorCount(rows) == |OutdoorRows(rows)| <= |rows|
    decreases |rows|
  {
    if |rows| > 0 {
      var init := rows[..|rows| - 1];
      var last := rows[|rows| - 1];
      OutdoorCountIsFilterLength(init);
      OutdoorRowsAppend(init, last);
      assert rows == init + [last];
    }
  }

  lemma {:induction false} OutdoorRowsAppend(rows: seq<Row>, r: Row)
    ensures |OutdoorRows(rows + [r])| == |OutdoorRows(rows)| + (if IsOutdoor(r) then 1 else 0)
    decreases |rows|
  {
    if |rows| == 0 {
      assert OutdoorRows([r]) == (if IsOutdoor(r) then [r] else []) + OutdoorRows([]);
    } else {
      assert (rows + [r])[1..] == rows[1..] + [r];
      assert (rows + [r])[0] == rows[0];
      OutdoorRowsAppend(rows[1..], r);
    }
  }

  /** The `time_of_day` column of every row, in order. */
  function TimesOfDay(rows: seq<Row>): (ts: seq<Option<TimeOfDay>>)
    ensures |ts| == |rows|
    ensures forall i :: 0 <= i < |rows| ==> ts[i] == rows[i].timeOfDay
  {
    seq(|rows|, i requires 0 <= i < |rows| => rows[i].timeOfDay)
  }

  /** The counters `{ morning, afternoon, evening }`. */
  datatype TimeTally = TimeTally(morning: nat, afternoon: nat, evening: nat)

  /** The `for (const r of list) if … else if … else if …` loop: a row with
      a null `time_of_day` increments nothing. */
  function TallyTimes(rows: seq<Row>): TimeTally
    decreases |rows|
  {
    if |rows| == 0 then TimeTally(0, 0, 0)
    else
      var t := TallyTimes(rows[..|rows| - 1]);
      match rows[|rows| - 1].timeOfDay
      case Some(Morning) => t.(morning := t.morning + 1)
      case Some(Afternoon) => t.(afternoon := t.afternoon + 1)
      case Some(Evening) => t.(evening := t.evening + 1)
      case None => t
  }

  /** Each counter is the number of rows holding that time of day; the rows
      left uncounted are exactly those whose `time_of_day` is null. */
  lemma {:induction false} TallyTimesCounts(rows: seq<Row>)
    ensures var t := TallyTimes(rows); var ts := TimesOfDay(rows);
      && t.morning == Occurrences(ts, Some(Morning))
      && t.afternoon == Occurrences(ts, Some(Afternoon))
      && t.evening == Occurrences(ts, Some(Evening))
      && t.morning + t.afternoon + t.evening + Occurrences(ts, None) == |rows|
    decreases |rows|
  {
    if |rows| > 0 {
      var init := rows[..|rows| - 1];
      TallyTimesCounts(init);
      var ts := TimesOfDay(rows);
      assert ts[..|ts| - 1] == TimesOfDay(init);
    }
  }

  /** The `[{ name: 'Morning', … }, { name: 'Afternoon', … }, { name: 'Evening', … }]`
      chart: three fixed entries in that order, each counting the rows of its
      time of day, together never more than the number of rows. */
  function TimeOfDayChart(rows: seq<Row>): (chart: seq<NamedCount>)
    ensures |chart| == 3
    ensures chart[0].name == "Morning" && chart[1].name == "Afternoon" && chart[2].name == "Evening"
    ensures chart[0].count == Occurrences(TimesOfDay(rows), Some(Morning))
    ensures chart[1].count == Occurrences(TimesOfDay(rows), Some(Afternoon))
    ensures chart[2].count == Occurrences(TimesOfDay(rows), Some(Evening))
    ensures chart[0].count + chart[1].count + chart[2].count
            == |rows| - Occurrences(TimesOfDay(rows), None) <= |rows|
  {
    var t := TallyTimes(rows);
    TallyTimesCounts(rows);
    [NamedCount("Morning", t.morning), NamedCount("Afternoon", t.afternoon), NamedCount("Evening", t.evening)]
  }

  /** `r.type ?? 'other'` for every row, in order. */
  function TypeKeys(rows: seq<Row>): (keys: seq<string>)
    ensures |keys| == |rows|
    ensures forall i :: 0 <= i < |rows| ==> keys[i] == rows[i].activityType.GetOr("other")
  {
    seq(|rows|, i requires 0 <= i < |rows| => rows[i].activityType.GetOr("other"))
  }
}
