/** The client-side time-of-day bucket of a date, taken from its hour in the
    viewer's local time zone (`getHours()`); the hour is the input here. */
module LocalTimeOfDay {
  import opened Common

  /** `bucketByTimeOfDay`: before noon is morning, before 18:00 afternoon,
      otherwise evening. */
  function BucketByTimeOfDay(hour: nat): (b: TimeOfDay)
    ensures b == Morning <==> hour < 12
    ensures b == Afternoon <==> 12 <= hour < 18
    ensures b == Evening <==> 18 <= hour
  {
    if hour < 12 then Morning
    else if hour < 18 then Afternoon
    else Evening
  }

  /** A later hour never gives an earlier bucket. */
  lemma BucketMonotone(h1: nat, h2: nat)
    requires h1 <= h2
    ensures BucketByTimeOfDay(h1).Rank() <= BucketByTimeOfDay(h2).Rank()
  {
  }
}
