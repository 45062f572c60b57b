/** The longest-streak computation of the detail report: the distinct UTC
    dates holding an activity, sorted ascending, scanned once while counting
    consecutive dates. Dates are day numbers since 1970-01-01, so "the next
    calendar date" is "the next integer". */
module Streak {
  import opened Common

  ghost predicate StrictlyIncreasing(s: seq<int>) {
    forall i, j :: 0 <= i < j < |s| ==> s[i] < s[j]
  }

  /** Adds x to a strictly increasing list unless it is already there. */
  function InsertDistinct(x: int, s: seq<int>): (r: seq<int>)
    requires StrictlyIncreasing(s)
    ensures StrictlyIncreasing(r)
    ensures forall y :: y in r <==> y == x || y in s
  {
    if |s| == 0 then [x]
    else if x < s[0] then [x] + s
    else if x == s[0] then s
    else
      var rest := InsertDistinct(x, s[1..]);
      assert forall j :: 0 <= j < |rest| ==> s[0] < rest[j] by {
        forall j | 0 <= j < |rest| ensures s[0] < rest[j] {
          assert rest[j] in rest;
          if rest[j] != x {
            var k :| 0 <= k < |s[1..]| && s[1..][k] == rest[j];
            assert s[k + 1] == rest[j];
          }
        }
      }
      assert forall y :: y in s <==> y == s[0] || y in s[1..] by {
        assert s == [s[0]] + s[1..];
      }
      [s[0]] + rest
  }

  /** `[...new Set(days)].sort()`: every date once, in ascending order. */
  function SortedDistinct(xs: seq<int>): (s: seq<int>)
    ensures StrictlyIncreasing(s)
    ensures forall y :: y in s <==> y in xs
    ensures |s| <= |xs|
  {
    if |xs| == 0 then []
    else
      assert forall y :: y in xs <==> y == xs[0] || y in xs[1..] by {
        assert xs == [xs[0]] + xs[1..];
      }
      InsertDistinctLength(xs[0], SortedDistinct(xs[1..]));
      InsertDistinct(xs[0], SortedDistinct(xs[1..]))
  }

  lemma {:induction false} InsertDistinctLength(x: int, s: seq<int>)
    requires StrictlyIncreasing(s)
    ensures |InsertDistinct(x, s)| <= |s| + 1
    decreases |s|
  {
    if |s| > 0 && x > s[0] {
      InsertDistinctLength(x, s[1..]);
    }
  }

  /** A strictly increasing list holds as many dates as its length. */
  lemma {:induction false} DistinctCardinality(s: seq<int>)
    requires StrictlyIncreasing(s)
    ensures |set y | y in s| == |s|
    decreases |s|
  {
    if |s| > 0 {
      DistinctCardinality(s[1..]);
      ElementsOfCons(s);
      HeadNotInTail(s);
    }
  }

  lemma ElementsOfCons(s: seq<int>)
    requires |s| > 0
    ensures (set y | y in s) == {s[0]} + (set y | y in s[1..])
  {
    assert s == [s[0]] + s[1..];
  }

  lemma HeadNotInTail(s: seq<int>)
    requires |s| > 0 && StrictlyIncreasing(s)
    ensures s[0] !in (set y | y in s[1..])
  {
    forall y | y in s[1..] ensures y != s[0] {
      var k :| 0 <= k < |s[1..]| && s[1..][k] == y;
      assert s[k + 1] == y;
    }
  }

  /** The loop variables `current` and `longest`. */
  datatype ScanState = ScanState(current: nat, longest: nat)

  /** `for (const day of sortedDays)`: the first date starts a run of 1; a
      date one day after the previous one extends the run; any other date
      restarts it at 1; `longest` keeps the maximum seen. */
  function Scan(days: seq<int>): ScanState
    decreases |days|
  {
    if |days| == 0 then ScanState(0, 0)
    else
      var st := Scan(days[..|days| - 1]);
      var current :=
        if |days| == 1 then 1
        else if days[|days| - 1] - days[|days| - 2] == 1 then st.current + 1
        else 1;
      ScanState(current, Max(st.longest, current))
  }

  /** Every date from start to start + len - 1 is present. */
  ghost predicate RunIn(days: seq<int>, start: int, len: nat) {
    forall d :: start <= d < start + len ==> d in days
  }

  /** n is the length of the longest run of consecutive dates. */
  ghost predicate LongestRun(days: seq<int>, n: nat) {
    && (exists start :: RunIn(days, start, n))
    && (forall start, len: nat :: RunIn(days, start, len) ==> len <= n)
  }

  /** What the loop keeps true of its variables after each date: `longest`
      is the length of the longest run of consecutive dates, at least 1
      unless there are no dates, and at most the number of dates; `current`
      is the run that ends at the last date, and the date before that run is
      absent. */
  ghost predicate ScanInvariant(days: seq<int>, st: ScanState) {
    && st.current <= st.longest <= |days|
    && LongestRun(days, st.longest)
    && (|days| == 0 <==> st.longest == 0)
    && (|days| > 0 ==>
          && 1 <= st.current
          && RunIn(days, days[|days| - 1] - st.current + 1, st.current)
          && days[|days| - 1] - st.current !in days)
  }

  /** The scan of a strictly increasing list of dates keeps its invariant;
      in particular it finds the longest run. */
  lemma {:induction false} ScanComputesLongestRun(days: seq<int>)
    requires StrictlyIncreasing(days)
    ensures ScanInvariant(days, Scan(days))
    decreases |days|
  {
    if |days| == 0 {
      assert RunIn(days, 0, 0);
      forall start, len: nat | RunIn(days, start, len) ensures len <= 0 {
        assert start !in days;
      }
    } else {
      var p := days[..|days| - 1];
      var x := days[|days| - 1];
      assert days == p + [x];
      SplitIncreasing(p, x, days);
      ScanComputesLongestRun(p);
      ScanPreservesInvariant(p, x, days);
    }
  }

  /** The dates before the last one are increasing and all earlier. */
  lemma SplitIncreasing(p: seq<int>, x: int, days: seq<int>)
    requires days == p + [x] && StrictlyIncreasing(days)
    ensures StrictlyIncreasing(p)
    ensures forall y :: y in p ==> y < x
  {
    forall i, j | 0 <= i < j < |p| ensures p[i] < p[j] {
      assert days[i] == p[i] && days[j] == p[j];
    }
    forall y | y in p ensures y < x {
      var k :| 0 <= k < |p| && p[k] == y;
      assert days[k] == y && days[|p|] == x;
    }
  }

  /** One turn of the loop keeps the invariant. */
  lemma ScanPreservesInvariant(p: seq<int>, x: int, days: seq<int>)
    requires days == p + [x] && StrictlyIncreasing(p)
    requires forall y :: y in p ==> y < x
    requires ScanInvariant(p, Scan(p))
    ensures ScanInvariant(days, Scan(days))
  {
    ScanStep(p, x);
    StepKeepsInvariant(p, x, days, Scan(p), Scan(days));
  }

  /** The same, for the loop variables before and after the turn. */
  lemma StepKeepsInvariant(p: seq<int>, x: int, days: seq<int>, prev: ScanState, st: ScanState)
    requires days == p + [x] && StrictlyIncreasing(p)
    requires forall y :: y in p ==> y < x
    requires ScanInvariant(p, prev)
    requires st.current == (if |p| == 0 then 1 else if x - p[|p| - 1] == 1 then prev.current + 1 else 1)
    requires st.longest == Max(prev.longest, st.current)
    ensures ScanInvariant(days, st)
  {
    ScanCurrentRun(p, x, prev.current, days, st.current);
    ScanLongestStep(p, x, days, prev.longest, st.current, st.longest);
    InvariantFrom(days, x, st.current, st.longest);
  }

  /** The invariant after a date x, from its parts. */
  lemma InvariantFrom(days: seq<int>, x: int, c: nat, l: nat)
    requires |days| > 0 && days[|days| - 1] == x
    requires 1 <= c <= l <= |days|
    requires LongestRun(days, l)
    requires RunIn(days, x - c + 1, c)
    requires x - c !in days
    ensures ScanInvariant(days, ScanState(c, l))
  {
  }

  /** The new `longest` is again the longest run, given that the old one was
      for the dates before x and that the new current run ends at x. */
  lemma ScanLongestStep(p: seq<int>, x: int, days: seq<int>, l: nat, c2: nat, l2: nat)
    requires days == p + [x]
    requires forall y :: y in p ==> y < x
    requires LongestRun(p, l)
    requires l2 == Max(l, c2)
    requires RunIn(days, x - c2 + 1, c2)
    requires x - c2 !in days
    ensures LongestRun(days, l2)
  {
    assert forall y :: y in days <==> y in p || y == x;
    var start0 :| RunIn(p, start0, l);
    assert RunIn(days, start0, l);
    if l2 == l {
      assert RunIn(days, start0, l2);
    } else {
      assert RunIn(days, x - c2 + 1, l2);
    }
    forall start, len: nat | RunIn(days, start, len) ensures len <= l2 {
      ScanRunBound(p, x, l, days, c2, l2, start, len);
    }
  }

  /** One more turn of the loop, for the date x after the dates p. */
  lemma ScanStep(p: seq<int>, x: int)
    ensures Scan(p + [x]).current ==
      (if |p| == 0 then 1 else if x - p[|p| - 1] == 1 then Scan(p).current + 1 else 1)
    ensures Scan(p + [x]).longest == Max(Scan(p).longest, Scan(p + [x]).current)
  {
    var days := p + [x];
    assert days[..|days| - 1] == p;
    if |p| > 0 {
      assert days[|days| - 2] == p[|p| - 1];
    }
  }

  /** The run ending at the new last date x. */
  lemma ScanCurrentRun(p: seq<int>, x: int, c: nat, days: seq<int>, c2: nat)
    requires days == p + [x] && StrictlyIncreasing(p)
    requires forall y :: y in p ==> y < x
    requires c <= |p|
    requires |p| > 0 ==>
      && RunIn(p, p[|p| - 1] - c + 1, c)
      && p[|p| - 1] - c !in p
    requires c2 == (if |p| == 0 then 1 else if x - p[|p| - 1] == 1 then c + 1 else 1)
    ensures 1 <= c2 <= |days|
    ensures RunIn(days, x - c2 + 1, c2)
    ensures x - c2 !in days
  {
    if |p| == 0 {
      RestartRun(p, x, days, c2);
    } else if x - p[|p| - 1] == 1 {
      ExtendRun(p, x, c, days, c2);
    } else {
      LastIsMax(p);
      assert p[|p| - 1] in p;
      RestartRun(p, x, days, c2);
    }
  }

  /** A date more than one day after every earlier date starts a new run. */
  lemma RestartRun(p: seq<int>, x: int, days: seq<int>, c2: nat)
    requires days == p + [x]
    requires forall y :: y in p ==> y < x - 1
    requires c2 == 1
    ensures RunIn(days, x - c2 + 1, c2)
    ensures x - c2 !in days
  {
    assert x in days;
  }

  lemma LastIsMax(p: seq<int>)
    requires |p| > 0 && StrictlyIncreasing(p)
    ensures forall y :: y in p ==> y <= p[|p| - 1]
  {
    forall y | y in p ensures y <= p[|p| - 1] {
      var k :| 0 <= k < |p| && p[k] == y;
      if k < |p| - 1 {
        assert p[k] < p[|p| - 1];
      }
    }
  }

  /** A date one day after the last one extends the run ending there. */
  lemma ExtendRun(p: seq<int>, x: int, c: nat, days: seq<int>, c2: nat)
    requires |p| > 0 && x == p[|p| - 1] + 1
    requires days == p + [x]
    requires RunIn(p, p[|p| - 1] - c + 1, c)
    requires p[|p| - 1] - c !in p
    requires c2 == c + 1
    ensures RunIn(days, x - c2 + 1, c2)
    ensures x - c2 !in days
  {
    var last := p[|p| - 1];
    forall d | x - c2 + 1 <= d < x - c2 + 1 + c2
      ensures d in days
    {
      if d < x {
        assert last - c + 1 <= d < last - c + 1 + c;
        assert d in p;
      }
    }
    assert x - c2 == last - c;
  }

  /** No run among the dates is longer than the new `longest`. */
  lemma ScanRunBound(p: seq<int>, x: int, l: nat, days: seq<int>, c2: nat, l2: nat, start: int, len: nat)
    requires forall y :: y in days <==> y in p || y == x
    requires forall y :: y in p ==> y < x
    requires forall s, n: nat :: RunIn(p, s, n) ==> n <= l
    requires l2 == Max(l, c2)
    requires x - c2 !in days
    requires RunIn(days, start, len)
    ensures len <= l2
  {
    if len > 0 {
      var e := start + len - 1;
      assert e in days;
      if e < x {
        forall d | start <= d < start + len ensures d in p {
          assert d in days;
        }
        assert RunIn(p, start, len);
      } else {
        assert e == x;
        assert start > x - c2;
      }
    }
  }

  /** Two lists with the same dates have the same runs. */
  lemma SameRuns(a: seq<int>, b: seq<int>, n: nat)
    requires forall y :: y in a <==> y in b
    requires LongestRun(a, n)
    ensures LongestRun(b, n)
  {
    var start :| RunIn(a, start, n);
    assert RunIn(b, start, n);
    forall s, l: nat | RunIn(b, s, l) ensures l <= n {
      assert RunIn(a, s, l);
    }
  }

  /** `longestStreakDays` for a list of dates (repeats allowed). */
  function LongestStreak(dates: seq<int>): nat {
    Scan(SortedDistinct(dates)).longest
  }

  /** The streak is the longest run of consecutive dates among the given
      ones; it is 0 exactly when there are none, otherwise between 1 and the
      number of distinct dates. */
  lemma LongestStreakSpec(dates: seq<int>)
    ensures LongestRun(dates, LongestStreak(dates))
    ensures LongestStreak(dates) == 0 <==> |dates| == 0
    ensures |dates| > 0 ==> 1 <= LongestStreak(dates) <= |set d | d in dates|
  {
    var s := SortedDistinct(dates);
    ScanComputesLongestRun(s);
    assert ScanInvariant(s, Scan(s));
    SameRuns(s, dates, LongestStreak(dates));
    DistinctCardinality(s);
    assert (set d | d in dates) == (set d | d in s);
    if |dates| > 0 {
      assert dates[0] in s;
    }
  }

  /** Dates 2024-01-01, 01-02, 01-03 and 01-05 (days 19723, 19724, 19725 and
      19727 since 1970-01-01) give a streak of 3. */
  lemma StreakExample()
    ensures LongestStreak([19723, 19724, 19725, 19727]) == 3
  {
    var s := SortedDistinct([19723, 19724, 19725, 19727]);
    assert s == [19723, 19724, 19725, 19727];
    assert [19723, 19724][..1] == [19723];
    assert Scan([19723, 19724]) == ScanState(2, 2);
    assert [19723, 19724, 19725][..2] == [19723, 19724];
    assert Scan([19723, 19724, 19725]) == ScanState(3, 3);
    assert s[..3] == [19723, 19724, 19725];
  }
}
