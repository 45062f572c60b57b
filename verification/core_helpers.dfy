/** The shared pure helpers of the core library: the duration bucket of a
    planned session given in minutes, and the readiness score. Numbers are
    JavaScript numbers; they are modelled as reals (no NaN, no infinities). */
module CoreHelpers {
  import opened Common

  /** `pickDurationBucket(mins)`: under 20 minutes is short, under 45 is
      medium, anything longer is long. */
  function PickDurationBucket(mins: real): (b: DurationBucket)
    ensures b == Short <==> mins < 20.0
    ensures b == Medium <==> 20.0 <= mins < 45.0
    ensures b == Long <==> 45.0 <= mins
  {
    if mins < 20.0 then Short
    else if mins < 45.0 then Medium
    else Long
  }

  /** A longer session never gets a shorter bucket. */
  lemma PickDurationBucketMonotone(a: real, b: real)
    requires a <= b
    ensures PickDurationBucket(a).Rank() <= PickDurationBucket(b).Rank()
  {
  }

  /** The optional fields of the `readinessScore` argument; an absent field
      is `undefined`. */
  datatype ReadinessInput = ReadinessInput(
    avgSleep: Option<real>,    // hours
    mood: Option<real>,        // 1..5 by convention, not checked
    recentLoad: Option<real>)  // minutes over the last three days

  const DefaultMood: real := 3.0
  const DefaultSleep: real := 7.0
  const DefaultLoad: real := 0.0

  /** `Math.max(Math.min((sleep - 7) * 5, 10), -10)` */
  function SleepAdjustment(sleep: real): (adj: real)
    ensures -10.0 <= adj <= 10.0
    ensures sleep <= 5.0 ==> adj == -10.0
    ensures sleep >= 9.0 ==> adj == 10.0
    ensures 5.0 <= sleep <= 9.0 ==> adj == (sleep - 7.0) * 5.0
  {
    var raw := (sleep - 7.0) * 5.0;
    var capped := if raw < 10.0 then raw else 10.0;
    if capped < -10.0 then -10.0 else capped
  }

  /** `load > 240 ? -10 : load > 120 ? -5 : 0` */
  function LoadAdjustment(load: real): (adj: int)
    ensures adj == -10 <==> load > 240.0
    ensures adj == -5 <==> 120.0 < load <= 240.0
    ensures adj == 0 <==> load <= 120.0
  {
    if load > 240.0 then -10 else if load > 120.0 then -5 else 0
  }

  /** `Math.max(0, Math.min(100, x))` for an integer x. */
  function ClampScore(x: int): int {
    if x > 100 then 100 else if x < 0 then 0 else x
  }

  /** `readinessScore(params)`: mood (default 3) times 20, plus the sleep
      adjustment (default 7 hours), plus the load adjustment (default 0
      minutes), rounded, then clamped to [0, 100]. */
  function ReadinessScore(p: ReadinessInput): (score: int)
    ensures 0 <= score <= 100
  {
    var mood := p.mood.GetOr(DefaultMood);
    var sleep := p.avgSleep.GetOr(DefaultSleep);
    var load := p.recentLoad.GetOr(DefaultLoad);
    var base := mood * 20.0;
    ClampScore(RoundHalfUp(base + SleepAdjustment(sleep) + LoadAdjustment(load) as real))
  }

  /** With no parameters the score is 3 * 20 + 0 + 0 = 60. */
  lemma ReadinessDefault()
    ensures ReadinessScore(ReadinessInput(None, None, None)) == 60
  {
    assert RoundHalfUp(60.0) == 60;
  }

  /** Away from the clamps the score is the rounded sum of its three parts. */
  lemma ReadinessUnclamped(p: ReadinessInput)
    requires var x := RoundHalfUp(p.mood.GetOr(DefaultMood) * 20.0
                                  + SleepAdjustment(p.avgSleep.GetOr(DefaultSleep))
                                  + LoadAdjustment(p.recentLoad.GetOr(DefaultLoad)) as real);
             0 <= x <= 100
    ensures ReadinessScore(p) as real - 0.5
            <= p.mood.GetOr(DefaultMood) * 20.0
               + SleepAdjustment(p.avgSleep.GetOr(DefaultSleep))
               + LoadAdjustment(p.recentLoad.GetOr(DefaultLoad)) as real
            < ReadinessScore(p) as real + 0.5
  {
  }

  /** `Math.round` is monotone. */
  lemma RoundHalfUpMonotone(x: real, y: real)
    requires x <= y
    ensures RoundHalfUp(x) <= RoundHalfUp(y)
  {
    var a := RoundHalfUp(x);
    var b := RoundHalfUp(y);
    assert a as real - 0.5 <= x && y < b as real + 0.5;
  }

  lemma SleepAdjustmentMonotone(s1: real, s2: real)
    requires s1 <= s2
    ensures SleepAdjustment(s1) <= SleepAdjustment(s2)
  {
  }

  lemma ClampMonotone(a: int, b: int)
    requires a <= b
    ensures ClampScore(a) <= ClampScore(b)
  {
  }

  /** More recent load never raises the score. */
  lemma ReadinessNonIncreasingInLoad(sleep: Option<real>, mood: Option<real>, l1: real, l2: real)
    requires l1 <= l2
    ensures ReadinessScore(ReadinessInput(sleep, mood, Some(l2)))
            <= ReadinessScore(ReadinessInput(sleep, mood, Some(l1)))
  {
    var rest := mood.GetOr(DefaultMood) * 20.0 + SleepAdjustment(sleep.GetOr(DefaultSleep));
    assert LoadAdjustment(l2) <= LoadAdjustment(l1);
    RoundHalfUpMonotone(rest + LoadAdjustment(l2) as real, rest + LoadAdjustment(l1) as real);
    ClampMonotone(RoundHalfUp(rest + LoadAdjustment(l2) as real), RoundHalfUp(rest + LoadAdjustment(l1) as real));
  }

  /** A better mood never lowers the score. */
  lemma ReadinessNonDecreasingInMood(sleep: Option<real>, m1: real, m2: real, load: Option<real>)
    requires m1 <= m2
    ensures ReadinessScore(ReadinessInput(sleep, Some(m1), load))
            <= ReadinessScore(ReadinessInput(sleep, Some(m2), load))
  {
    var rest := SleepAdjustment(sleep.GetOr(DefaultSleep)) + LoadAdjustment(load.GetOr(DefaultLoad)) as real;
    RoundHalfUpMonotone(m1 * 20.0 + rest, m2 * 20.0 + rest);
    ClampMonotone(RoundHalfUp(m1 * 20.0 + rest), RoundHalfUp(m2 * 20.0 + rest));
  }

  /** More sleep never lowers the score. */
  lemma ReadinessNonDecreasingInSleep(s1: real, s2: real, mood: Option<real>, load: Option<real>)
    requires s1 <= s2
    ensures ReadinessScore(ReadinessInput(Some(s1), mood, load))
            <= ReadinessScore(ReadinessInput(Some(s2), mood, load))
  {
    var base := mood.GetOr(DefaultMood) * 20.0;
    var la := LoadAdjustment(load.GetOr(DefaultLoad)) as real;
    SleepAdjustmentMonotone(s1, s2);
    RoundHalfUpMonotone(base + SleepAdjustment(s1) + la, base + SleepAdjustment(s2) + la);
    ClampMonotone(RoundHalfUp(base + SleepAdjustment(s1) + la), RoundHalfUp(base + SleepAdjustment(s2) + la));
  }
}
