/** The activity normaliser of the Strava sync route: how one activity from
    the Strava API becomes one row of the `activities` table. */
module SyncNormalize {
  import opened Common
  import opened Tally
  import Rows
  import CoreHelpers
  import LocalTimeOfDay

  /** One element of `GET /athlete/activities`. `start_date` is an ISO UTC
      instant, modelled as epoch seconds; the optional numeric fields are
      JavaScript numbers. */
  datatype RawActivity = RawActivity(
    id: int,
    activityType: string,
    startDate: nat,
    movingTime: Option<real>,
    elapsedTime: Option<real>,
    distance: Option<real>,
    trainer: Option<bool>)

  /** The `meta_category` column. */
  datatype MetaCategory = Endurance | Mindful | Strength {
    function Name(): string {
      match this
      case Endurance => "endurance"
      case Mindful => "mindful"
      case Strength => "strength"
    }
  }

  /** The pair `{ type, meta }` that `mapType` returns. */
  datatype MappedType = MappedType(typeName: string, meta: MetaCategory)

  /** The Strava types that map to a strength session. */
  const StrengthTypes: set<string> := {"WeightTraining", "Workout", "Crossfit", "HIIT"}

  /** Every Strava type `mapType` names explicitly. */
  const KnownTypes: set<string> :=
    {"Run", "Ride", "VirtualRide", "Walk", "Hike", "Swim", "Yoga"} + StrengthTypes

  /** The values the `type` column can receive from the sync. */
  const StoredTypes: set<string> :=
    {"run", "ride", "walk", "hike", "swim", "yoga", "strength", "hiit", "other"}

  /** `mapType`: a fixed table from Strava's activity type to the stored type
      and its meta category, with other/endurance for every unlisted type. */
  function MapType(t: string): (m: MappedType)
    ensures m.typeName in StoredTypes
    ensures m.meta == Strength <==> t in StrengthTypes
    ensures m.meta == Mindful <==> t == "Yoga"
    ensures m.meta == Endurance <==> t !in StrengthTypes && t != "Yoga"
    ensures m.typeName == "other" <==> t !in KnownTypes
    ensures t == "Run" ==> m == MappedType("run", Endurance)
    ensures t == "Walk" ==> m == MappedType("walk", Endurance)
    ensures t == "Hike" ==> m == MappedType("hike", Endurance)
    ensures t == "Swim" ==> m == MappedType("swim", Endurance)
    ensures t == "Yoga" ==> m == MappedType("yoga", Mindful)
  {
    if t == "Run" then MappedType("run", Endurance)
    else if t == "Ride" || t == "VirtualRide" then MappedType("ride", Endurance)
    else if t == "Walk" then MappedType("walk", Endurance)
    else if t == "Hike" then MappedType("hike", Endurance)
    else if t == "Swim" then MappedType("swim", Endurance)
    else if t == "Yoga" then MappedType("yoga", Mindful)
    else if t == "WeightTraining" then MappedType("strength", Strength)
    else if t == "Workout" || t == "Crossfit" || t == "HIIT" then MappedType("hiit", Strength)
    else MappedType("other", Endurance)
  }

  /** Types that Strava reports under several names land on one stored type. */
  lemma MapTypeMerges()
    ensures MapType("Ride") == MapType("VirtualRide") == MappedType("ride", Endurance)
    ensures MapType("Workout") == MapType("Crossfit") == MapType("HIIT") == MappedType("hiit", Strength)
    ensures MapType("WeightTraining") == MappedType("strength", Strength)
  {
  }

  /** `toDurationBucket(sec)`: under 20 minutes short, under 45 minutes
      medium, otherwise long. */
  function ToDurationBucket(sec: int): (b: DurationBucket)
    ensures b == Short <==> sec < 1200
    ensures b == Medium <==> 1200 <= sec < 2700
    ensures b == Long <==> 2700 <= sec
  {
    if sec < 20 * 60 then Short
    else if sec < 45 * 60 then Medium
    else Long
  }

  /** The library's `pickDurationBucket` on whole minutes agrees with the
      sync's bucket on the same duration in seconds. */
  lemma PickDurationBucketAgrees(mins: int)
    ensures CoreHelpers.PickDurationBucket(mins as real) == ToDurationBucket(60 * mins)
  {
  }

  /** `toTimeOfDay(dateIso)`: the same thresholds on the UTC hour. */
  function ToTimeOfDay(t: nat): (b: TimeOfDay)
    ensures b == Morning <==> UtcHour(t) < 12
    ensures b == Afternoon <==> 12 <= UtcHour(t) < 18
    ensures b == Evening <==> 18 <= UtcHour(t)
  {
    var h := UtcHour(t);
    if h < 12 then Morning
    else if h < 18 then Afternoon
    else Evening
  }

  /** Given the same hour, the server's UTC bucket and the client's local
      bucket agree; they differ only in which hour they read. */
  lemma ToTimeOfDayAgreesWithLocal(t: nat)
    ensures ToTimeOfDay(t) == LocalTimeOfDay.BucketByTimeOfDay(UtcHour(t))
  {
  }

  /** The bucket in terms of the minute of the UTC day that the analytics
      routes average: morning before 12:00, afternoon before 18:00. */
  lemma ToTimeOfDayByMinute(t: nat)
    ensures ToTimeOfDay(t) == Morning <==> MinuteOfDay(t) < 720
    ensures ToTimeOfDay(t) == Afternoon <==> 720 <= MinuteOfDay(t) < 1080
    ensures ToTimeOfDay(t) == Evening <==> 1080 <= MinuteOfDay(t)
  {
    var h := UtcHour(t);
    var m := UtcMinute(t);
    assert MinuteOfDay(t) == h * 60 + m && m < 60;
    assert h < 12 <==> h * 60 + m < 720;
    assert h < 18 <==> h * 60 + m < 1080;
  }

  /** One upserted row of `activities`. */
  datatype ActivityRow = ActivityRow(
    id: int,
    userId: string,
    typeName: string,
    subtype: string,
    startTime: nat,
    durationSec: int,
    distanceM: Option<real>,
    isOutdoor: bool,
    meta: MetaCategory,
    durationBucket: DurationBucket,
    timeOfDay: TimeOfDay,
    raw: RawActivity)

  /** `Math.round(a.moving_time ?? a.elapsed_time ?? 0)` */
  function DurationOf(a: RawActivity): int {
    RoundHalfUp(a.movingTime.GetOr(a.elapsedTime.GetOr(0.0)))
  }

  /** The row built for one fetched activity of the connection's user. */
  function NormalizeActivity(a: RawActivity, userId: string): (row: ActivityRow)
    ensures row.id == a.id && row.subtype == a.activityType && row.raw == a
    ensures row.userId == userId && row.startTime == a.startDate
    ensures row.distanceM == a.distance
    ensures row.typeName == MapType(a.activityType).typeName
    ensures row.meta == MapType(a.activityType).meta
    ensures !row.isOutdoor <==> a.trainer == Some(true)
    ensures row.durationBucket == ToDurationBucket(row.durationSec)
    ensures row.timeOfDay == ToTimeOfDay(row.startTime)
    ensures row.durationSec as real - 0.5 <= a.movingTime.GetOr(a.elapsedTime.GetOr(0.0))
            < row.durationSec as real + 0.5
  {
    var mapped := MapType(a.activityType);
    var duration := DurationOf(a);
    ActivityRow(
      a.id, userId, mapped.typeName, a.activityType, a.startDate, duration, a.distance,
      if a.trainer == Some(true) then false else true,
      mapped.meta, ToDurationBucket(duration), ToTimeOfDay(a.startDate), a)
  }

  /** The duration prefers the moving time whenever it is present, even when
      it is 0; the elapsed time is used only when the moving time is absent,
      and 0 when both are. */
  lemma DurationSource(a: RawActivity, userId: string)
    ensures a.movingTime == Some(0.0) ==> NormalizeActivity(a, userId).durationSec == 0
    ensures a.movingTime.Some? ==>
      NormalizeActivity(a, userId).durationSec == RoundHalfUp(a.movingTime.value)
    ensures a.movingTime.None? && a.elapsedTime.Some? ==>
      NormalizeActivity(a, userId).durationSec == RoundHalfUp(a.elapsedTime.value)
    ensures a.movingTime.None? && a.elapsedTime.None? ==>
      NormalizeActivity(a, userId).durationSec == 0
  {
    assert RoundHalfUp(0.0) == 0;
  }

  /** Whether a row is outdoor depends on the trainer flag alone: the
      activity type (a virtual ride included) plays no part, and an absent
      flag means outdoor. */
  lemma OutdoorIgnoresType(a: RawActivity, t: string, userId: string)
    ensures NormalizeActivity(a, userId).isOutdoor
            == NormalizeActivity(a.(activityType := t), userId).isOutdoor
    ensures a.trainer.None? ==> NormalizeActivity(a, userId).isOutdoor
  {
  }

  /** The row as the analytics routes read it back: every column they select
      is set by the sync, none is null. */
  function AsStored(r: ActivityRow): Rows.Row {
    Rows.Row(r.startTime, Some(r.durationSec), Some(r.isOutdoor), Some(r.typeName),
             Some(r.durationBucket), Some(r.timeOfDay))
  }

  function AllStored(rows: seq<ActivityRow>): (out: seq<Rows.Row>)
    ensures |out| == |rows|
    ensures forall i :: 0 <= i < |rows| ==> out[i] == AsStored(rows[i])
  {
    seq(|rows|, i requires 0 <= i < |rows| => AsStored(rows[i]))
  }

  /** Rows written by the sync all carry a time of day, so the three-bucket
      chart of the analytics routes counts every one of them. */
  lemma SyncedRowsFillChart(rows: seq<ActivityRow>)
    ensures var chart := Rows.TimeOfDayChart(AllStored(rows));
      chart[0].count + chart[1].count + chart[2].count == |rows|
  {
    var stored := AllStored(rows);
    var ts := Rows.TimesOfDay(stored);
    assert None !in ts;
    OccurrencesAbsent(ts, None);
  }
}
