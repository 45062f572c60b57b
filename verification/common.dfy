/** Vocabulary shared by the ingestion pipeline and the analytics routes:
    optional values, the duration and time-of-day buckets, exact
    `Math.round` of a ratio of integers, and the UTC calendar fields of an
    instant given as epoch seconds. */
module Common {

  /** A value that may be `null`/`undefined` in the source. */
  datatype Option<+T> = None | Some(value: T) {
    /** The `x ?? d` operator: `d` only when the value is absent. */
    function GetOr(default: T): T {
      match this
      case Some(v) => v
      case None => default
    }
  }

  /** The stored `duration_bucket` values 'short' | 'medium' | 'long'. */
  datatype DurationBucket = Short | Medium | Long {
    function Name(): string {
      match this
      case Short => "short"
      case Medium => "medium"
      case Long => "long"
    }
    /** Position on the duration scale; larger means longer. */
    function Rank(): nat {
      match this
      case Short => 0
      case Medium => 1
      case Long => 2
    }
  }

  /** The stored `time_of_day` values 'morning' | 'afternoon' | 'evening'. */
  datatype TimeOfDay = Morning | Afternoon | Evening {
    function Name(): string {
      match this
      case Morning => "morning"
      case Afternoon => "afternoon"
      case Evening => "evening"
    }
    /** Position in the day; larger means later. */
    function Rank(): nat {
      match this
      case Morning => 0
      case Afternoon => 1
      case Evening => 2
    }
  }

  function Max(a: int, b: int): int { if a < b then b else a }
  function Min(a: int, b: int): int { if a < b then a else b }

  /** `Math.round(p / q)` for q > 0. `Math.round(x)` is floor(x + 1/2), so
      the result is the integer nearest to p/q, a half rounding up. */
  function RoundRatio(p: int, q: int): (r: int)
    requires q > 0
    ensures q * (2 * r - 1) <= 2 * p < q * (2 * r + 1)
  {
    var n := 2 * p + q;
    var d := 2 * q;
    var r := n / d;
    assert n == d * r + n % d && 0 <= n % d < d;
    r
  }

  /** Cancelling a positive factor from a strict inequality. */
  lemma MulLtCancel(q: int, a: int, b: int)
    requires q > 0 && q * a < q * b
    ensures a < b
  {
  }

  /** Euclidean division is unique: a quotient and remainder in [0, d)
      that rebuild n are n / d and n % d. */
  lemma DivUnique(n: int, d: int, q: int, r: int)
    requires d > 0 && 0 <= r < d && n == q * d + r
    ensures n / d == q && n % d == r
  {
    var q0 := n / d;
    var r0 := n % d;
    assert n == q0 * d + r0 && 0 <= r0 < d;
    MulLtCancel(d, q, q0 + 1);
    MulLtCancel(d, q0, q + 1);
  }

  /** Only one integer is within a half of p/q (a half below counts). */
  lemma RoundRatioUnique(p: int, q: int, r: int)
    requires q > 0
    requires q * (2 * r - 1) <= 2 * p < q * (2 * r + 1)
    ensures r == RoundRatio(p, q)
  {
    var s := RoundRatio(p, q);
    MulLtCancel(q, 2 * s - 1, 2 * r + 1);
    MulLtCancel(q, 2 * r - 1, 2 * s + 1);
  }

  /** Rounding a ratio that lies in [0, k] gives a value in [0, k]. */
  lemma RoundRatioBounds(p: int, q: int, k: int)
    requires q > 0 && 0 <= p <= k * q
    ensures 0 <= RoundRatio(p, q) <= k
  {
    var r := RoundRatio(p, q);
    MulLtCancel(q, -1, 2 * r + 1);
    MulLtCancel(q, 2 * r - 1, 2 * k + 1);
  }

  /** Rounding is monotone in the numerator. */
  lemma RoundRatioMonotone(p1: int, p2: int, q: int)
    requires q > 0 && p1 <= p2
    ensures RoundRatio(p1, q) <= RoundRatio(p2, q)
  {
    var r1 := RoundRatio(p1, q);
    var r2 := RoundRatio(p2, q);
    MulLtCancel(q, 2 * r1 - 1, 2 * r2 + 1);
  }

  /** `Math.round(x)`: floor(x + 1/2), so a half rounds up (towards +inf). */
  function RoundHalfUp(x: real): (r: int)
    ensures r as real - 0.5 <= x < r as real + 0.5
  {
    (x + 0.5).Floor
  }

  /** On an exact ratio of integers the two roundings agree. */
  lemma RoundRatioIsRound(p: int, q: int)
    requires q > 0
    ensures RoundRatio(p, q) == RoundHalfUp(p as real / q as real)
  {
    var r := RoundRatio(p, q);
    WithinHalf(p, q, r);
    HalfUpUnique(p as real / q as real, r);
  }

  /** p / q lies within a half of r when 2p lies between q(2r - 1) and q(2r + 1). */
  lemma WithinHalf(p: int, q: int, r: int)
    requires q > 0 && q * (2 * r - 1) <= 2 * p < q * (2 * r + 1)
    ensures r as real - 0.5 <= p as real / q as real < r as real + 0.5
  {
    var x := p as real / q as real;
    CastMul(q, 2 * r - 1);
    CastMul(q, 2 * r + 1);
    assert (q as real) * (2.0 * x) == 2.0 * p as real;
    RealMulLeCancel(q as real, (2 * r - 1) as real, 2.0 * x);
    RealMulLtCancel(q as real, 2.0 * x, (2 * r + 1) as real);
  }

  /** Half-up rounding gives the one integer within a half of x. */
  lemma HalfUpUnique(x: real, r: int)
    requires r as real - 0.5 <= x < r as real + 0.5
    ensures RoundHalfUp(x) == r
  {
  }

  lemma CastMul(a: int, b: int)
    ensures (a * b) as real == (a as real) * (b as real)
  {
  }

  lemma RealMulLeCancel(q: real, a: real, b: real)
    requires q > 0.0 && q * a <= q * b
    ensures a <= b
  {
  }

  lemma RealMulLtCancel(q: real, a: real, b: real)
    requires q > 0.0 && q * a < q * b
    ensures a < b
  {
  }

  const SecondsPerDay: nat := 86400

  /** `getUTCHours()` of the instant t (epoch seconds). */
  function UtcHour(t: nat): (h: nat)
    ensures h < 24
  {
    (t / 3600) % 24
  }

  /** `getUTCMinutes()` of the instant t. */
  function UtcMinute(t: nat): (m: nat)
    ensures m < 60
  {
    (t / 60) % 60
  }

  /** Number of the UTC calendar date holding t, counted from 1970-01-01;
      it stands for the date's `YYYY-MM-DD` text. */
  function EpochDay(t: nat): nat {
    t / SecondsPerDay
  }

  /** `getUTCDay()` of the instant t: 0 is Sunday; 1970-01-01 was a Thursday. */
  function UtcWeekday(t: nat): (d: nat)
    ensures d < 7
  {
    (EpochDay(t) + 4) % 7
  }

  /** `getUTCHours() * 60 + getUTCMinutes()`. */
  function MinuteOfDay(t: nat): (m: nat)
    ensures m < 1440
  {
    UtcHour(t) * 60 + UtcMinute(t)
  }

  /** k whole days later is k dates later. */
  lemma EpochDayShift(t: nat, k: nat)
    ensures EpochDay(t + k * SecondsPerDay) == EpochDay(t) + k
  {
    DivUnique(t + k * SecondsPerDay, SecondsPerDay, t / SecondsPerDay + k, t % SecondsPerDay);
  }

  /** The UTC fields split an instant exactly: whole days, then whole minutes
      of that day, then the remaining seconds. */
  lemma {:induction false} InstantDecomposition(t: nat)
    ensures t == EpochDay(t) * SecondsPerDay + MinuteOfDay(t) * 60 + t % 60
  {
    var mins := t / 60;
    var hours := mins / 60;
    assert t == mins * 60 + t % 60;
    assert mins == hours * 60 + mins % 60;
    assert hours == (hours / 24) * 24 + hours % 24;
    assert t / 3600 == hours;
    assert t / SecondsPerDay == hours / 24;
  }
}
