/** Counting by key the way the analytics routes do it: a JS `Map` (or a
    plain object) updated with `set(k, (get(k) ?? 0) + 1)` keeps its keys in
    first-insertion order, and `Array.prototype.sort` with the comparator
    `(a, b) => b.count - a.count` is stable, so equal counts keep that order. */
module Tally {
  import opened Common

  /** One `[key, count]` entry of a tally. */
  datatype Entry<K> = Entry(name: K, count: nat)

  /** Number of occurrences of k in keys. */
  function Occurrences<K(==)>(keys: seq<K>, k: K): nat
    decreases |keys|
  {
    if |keys| == 0 then 0
    else Occurrences(keys[..|keys| - 1], k) + (if keys[|keys| - 1] == k then 1 else 0)
  }

  /** A key occurs at most as often as there are keys, and occurs at least
      once exactly when it is one of them. */
  lemma {:induction false} OccurrencesBound<K>(keys: seq<K>, k: K)
    ensures Occurrences(keys, k) <= |keys|
    ensures Occurrences(keys, k) > 0 <==> k in keys
    decreases |keys|
  {
    if |keys| > 0 {
      var init := keys[..|keys| - 1];
      OccurrencesBound(init, k);
      assert keys == init + [keys[|keys| - 1]];
    }
  }

  /** Position of the first occurrence of k in keys. */
  function FirstIndex<K(==)>(keys: seq<K>, k: K): (i: nat)
    requires k in keys
    ensures i < |keys| && keys[i] == k
    ensures forall j :: 0 <= j < i ==> keys[j] != k
  {
    if keys[0] == k then 0 else 1 + FirstIndex(keys[1..], k)
  }

  ghost predicate HasName<K>(es: seq<Entry<K>>, k: K) {
    exists i :: 0 <= i < |es| && es[i].name == k
  }

  ghost predicate DistinctNames<K>(es: seq<Entry<K>>) {
    forall i, j :: 0 <= i < j < |es| ==> es[i].name != es[j].name
  }

  /** Sum of the counts. */
  function Total<K>(es: seq<Entry<K>>): nat {
    if |es| == 0 then 0 else es[0].count + Total(es[1..])
  }

  /** One `m.set(k, (m.get(k) ?? 0) + 1)`: the entry for k goes up by one,
      or a new entry `[k, 1]` is appended at the end. */
  function Bump<K(==)>(es: seq<Entry<K>>, k: K): (r: seq<Entry<K>>)
    requires DistinctNames(es)
    ensures |r| == |es| + (if HasName(es, k) then 0 else 1)
    ensures forall i :: 0 <= i < |es| ==>
      r[i].name == es[i].name && r[i].count == es[i].count + (if es[i].name == k then 1 else 0)
    ensures !HasName(es, k) ==> r[|es|] == Entry(k, 1)
    ensures Total(r) == Total(es) + 1
  {
    if |es| == 0 then [Entry(k, 1)]
    else if es[0].name == k then
      assert !HasName(es[1..], k) by {
        forall i | 0 <= i < |es[1..]| ensures es[1..][i].name != k {
          assert es[1..][i] == es[i + 1];
        }
      }
      [Entry(k, es[0].count + 1)] + es[1..]
    else
      var rest := Bump(es[1..], k);
      assert HasName(es, k) <==> HasName(es[1..], k) by {
        if HasName(es, k) {
          var i :| 0 <= i < |es| && es[i].name == k;
          assert es[1..][i - 1] == es[i];
        }
        if HasName(es[1..], k) {
          var i :| 0 <= i < |es[1..]| && es[1..][i].name == k;
          assert es[i + 1] == es[1..][i];
        }
      }
      [es[0]] + rest
  }

  lemma OccurrencesStep<K>(keys: seq<K>, k: K, n: K)
    ensures Occurrences(keys + [k], n) == Occurrences(keys, n) + (if k == n then 1 else 0)
  {
    assert (keys + [k])[..|keys|] == keys;
  }

  lemma {:induction false} OccurrencesAbsent<K>(keys: seq<K>, k: K)
    requires k !in keys
    ensures Occurrences(keys, k) == 0
    decreases |keys|
  {
    if |keys| > 0 {
      OccurrencesAbsent(keys[..|keys| - 1], k);
    }
  }

  lemma FirstIndexStep<K>(keys: seq<K>, k: K, n: K)
    requires n in keys
    ensures n in keys + [k] && FirstIndex(keys + [k], n) == FirstIndex(keys, n)
  {
    var i := FirstIndex(keys, n);
    var i' := FirstIndex(keys + [k], n);
    assert (keys + [k])[i] == n;
  }

  lemma FirstIndexNew<K>(keys: seq<K>, k: K)
    requires k !in keys
    ensures FirstIndex(keys + [k], k) == |keys|
  {
    assert forall j :: 0 <= j < |keys| ==> (keys + [k])[j] == keys[j];
  }

  /** The entries of the map after counting every key in order. */
  function Count<K(==)>(keys: seq<K>): (es: seq<Entry<K>>)
    ensures DistinctNames(es)
    ensures forall i :: 0 <= i < |es| ==>
      es[i].name in keys && es[i].count == Occurrences(keys, es[i].name)
    ensures forall k :: k in keys ==> HasName(es, k)
    ensures forall i, j :: 0 <= i < j < |es| ==>
      FirstIndex(keys, es[i].name) < FirstIndex(keys, es[j].name)
    ensures Total(es) == |keys|
    decreases |keys|
  {
    if |keys| == 0 then []
    else
      var init := keys[..|keys| - 1];
      var k := keys[|keys| - 1];
      assert keys == init + [k];
      var prev := Count(init);
      var r := Bump(prev, k);
      CountStep(init, k, prev, r);
      r
  }

  /** The contract of `Count` is kept by one more `Bump`. */
  lemma CountStep<K>(init: seq<K>, k: K, prev: seq<Entry<K>>, r: seq<Entry<K>>)
    requires DistinctNames(prev)
    requires forall i :: 0 <= i < |prev| ==>
      prev[i].name in init && prev[i].count == Occurrences(init, prev[i].name)
    requires forall n :: n in init ==> HasName(prev, n)
    requires forall i, j :: 0 <= i < j < |prev| ==>
      FirstIndex(init, prev[i].name) < FirstIndex(init, prev[j].name)
    requires r == Bump(prev, k)
    ensures DistinctNames(r)
    ensures forall i :: 0 <= i < |r| ==>
      r[i].name in init + [k] && r[i].count == Occurrences(init + [k], r[i].name)
    ensures forall n :: n in init + [k] ==> HasName(r, n)
    ensures forall i, j :: 0 <= i < j < |r| ==>
      FirstIndex(init + [k], r[i].name) < FirstIndex(init + [k], r[j].name)
  {
    assert k in init ==> HasName(prev, k);
    CountStepCounts(init, k, prev, r);
    CountStepCovers(init, k, prev, r);
    CountStepOrder(init, k, prev, r);
  }

  lemma CountStepCounts<K>(init: seq<K>, k: K, prev: seq<Entry<K>>, r: seq<Entry<K>>)
    requires forall i :: 0 <= i < |prev| ==>
      prev[i].name in init && prev[i].count == Occurrences(init, prev[i].name)
    requires k in init ==> HasName(prev, k)
    requires |prev| <= |r| <= |prev| + 1
    requires forall i :: 0 <= i < |prev| ==>
      r[i].name == prev[i].name && r[i].count == prev[i].count + (if prev[i].name == k then 1 else 0)
    requires |prev| < |r| ==> !HasName(prev, k) && r[|prev|] == Entry(k, 1)
    ensures forall i :: 0 <= i < |r| ==>
      r[i].name in init + [k] && r[i].count == Occurrences(init + [k], r[i].name)
  {
    forall i | 0 <= i < |r|
      ensures r[i].name in init + [k] && r[i].count == Occurrences(init + [k], r[i].name)
    {
      if i < |prev| {
        CountStepOld(init, k, prev[i], r[i]);
      } else {
        CountStepNew(init, k, prev, r[i]);
      }
    }
  }

  lemma CountStepOld<K>(init: seq<K>, k: K, before: Entry<K>, e: Entry<K>)
    requires before.name in init && before.count == Occurrences(init, before.name)
    requires e.name == before.name && e.count == before.count + (if before.name == k then 1 else 0)
    ensures e.name in init + [k] && e.count == Occurrences(init + [k], e.name)
  {
    OccurrencesStep(init, k, before.name);
  }

  lemma CountStepNew<K>(init: seq<K>, k: K, prev: seq<Entry<K>>, e: Entry<K>)
    requires k in init ==> HasName(prev, k)
    requires !HasName(prev, k) && e == Entry(k, 1)
    ensures e.name in init + [k] && e.count == Occurrences(init + [k], e.name)
  {
    OccurrencesAbsent(init, k);
    OccurrencesStep(init, k, k);
  }

  lemma CountStepCovers<K>(init: seq<K>, k: K, prev: seq<Entry<K>>, r: seq<Entry<K>>)
    requires DistinctNames(prev)
    requires forall n :: n in init ==> HasName(prev, n)
    requires r == Bump(prev, k)
    ensures forall n :: n in init + [k] ==> HasName(r, n)
  {
    forall n | n in init + [k] ensures HasName(r, n) {
      if n in init {
        var i :| 0 <= i < |prev| && prev[i].name == n;
        assert r[i].name == n;
      } else if HasName(prev, k) {
        var i :| 0 <= i < |prev| && prev[i].name == k;
        assert r[i].name == n;
      } else {
        assert r[|prev|].name == n;
      }
    }
  }

  lemma CountStepOrder<K>(init: seq<K>, k: K, prev: seq<Entry<K>>, r: seq<Entry<K>>)
    requires DistinctNames(prev)
    requires forall i :: 0 <= i < |prev| ==> prev[i].name in init
    requires forall n :: n in init ==> HasName(prev, n)
    requires forall i, j :: 0 <= i < j < |prev| ==>
      FirstIndex(init, prev[i].name) < FirstIndex(init, prev[j].name)
    requires r == Bump(prev, k)
    ensures DistinctNames(r)
    ensures forall i, j :: 0 <= i < j < |r| ==>
      FirstIndex(init + [k], r[i].name) < FirstIndex(init + [k], r[j].name)
  {
    forall i, j | 0 <= i < j < |r|
      ensures r[i].name != r[j].name
      ensures FirstIndex(init + [k], r[i].name) < FirstIndex(init + [k], r[j].name)
    {
      if j < |prev| {
        CountStepOrderOld(init, k, prev, r, i, j);
      } else {
        assert j == |prev|;
        CountStepOrderNew(init, k, prev, r, i);
      }
    }
  }

  lemma CountStepOrderOld<K>(init: seq<K>, k: K, prev: seq<Entry<K>>, r: seq<Entry<K>>, i: nat, j: nat)
    requires DistinctNames(prev)
    requires i < j < |prev|
    requires prev[i].name in init && prev[j].name in init
    requires FirstIndex(init, prev[i].name) < FirstIndex(init, prev[j].name)
    requires r == Bump(prev, k)
    ensures r[i].name != r[j].name
    ensures FirstIndex(init + [k], r[i].name) < FirstIndex(init + [k], r[j].name)
  {
    FirstIndexStep(init, k, prev[i].name);
    FirstIndexStep(init, k, prev[j].name);
  }

  lemma CountStepOrderNew<K>(init: seq<K>, k: K, prev: seq<Entry<K>>, r: seq<Entry<K>>, i: nat)
    requires DistinctNames(prev)
    requires i < |prev| < |r|
    requires prev[i].name in init
    requires forall n :: n in init ==> HasName(prev, n)
    requires r == Bump(prev, k)
    ensures r[i].name != r[|prev|].name
    ensures FirstIndex(init + [k], r[i].name) < FirstIndex(init + [k], r[|prev|].name)
  {
    assert !HasName(prev, k);
    assert k !in init;
    FirstIndexStep(init, k, prev[i].name);
    FirstIndexNew(init, k);
  }

  ghost predicate NonIncreasing<K>(es: seq<Entry<K>>) {
    forall i, j :: 0 <= i < j < |es| ==> es[i].count >= es[j].count
  }

  /** Places e in front of the first entry whose count is not larger. */
  function Insert<K>(e: Entry<K>, s: seq<Entry<K>>): (r: seq<Entry<K>>)
    ensures multiset(r) == multiset(s) + multiset{e}
  {
    if |s| == 0 then [e]
    else if e.count >= s[0].count then [e] + s
    else
      var rest := Insert(e, s[1..]);
      assert s == [s[0]] + s[1..];
      [s[0]] + rest
  }

  /** Inserting adds the entry's count to the total. */
  lemma {:induction false} InsertTotal<K>(e: Entry<K>, s: seq<Entry<K>>)
    ensures Total(Insert(e, s)) == Total(s) + e.count
    decreases |s|
  {
    if |s| == 0 {
    } else if e.count >= s[0].count {
      Cons(e, s);
    } else {
      InsertTotal(e, s[1..]);
      Cons(s[0], Insert(e, s[1..]));
    }
  }

  /** Inserting into a non-increasing sequence keeps it non-increasing. */
  lemma {:induction false} InsertSorted<K>(e: Entry<K>, s: seq<Entry<K>>)
    requires NonIncreasing(s)
    ensures NonIncreasing(Insert(e, s))
    decreases |s|
  {
    if |s| == 0 {
    } else if e.count >= s[0].count {
      InsertOnTop(e, s);
      Cons(e, s);
    } else {
      var rest := Insert(e, s[1..]);
      InsertSorted(e, s[1..]);
      InsertBelowHead(e, s, rest);
      Cons(s[0], rest);
    }
  }

  /** Putting x in front of rest. */
  lemma Cons<K>(x: Entry<K>, rest: seq<Entry<K>>)
    ensures multiset([x] + rest) == multiset{x} + multiset(rest)
    ensures Total([x] + rest) == x.count + Total(rest)
    ensures NonIncreasing(rest) && (forall j :: 0 <= j < |rest| ==> rest[j].count <= x.count)
            ==> NonIncreasing([x] + rest)
  {
    assert ([x] + rest)[1..] == rest;
  }

  /** When e is at least the head of a non-increasing s, it is at least
      every entry of s. */
  lemma InsertOnTop<K>(e: Entry<K>, s: seq<Entry<K>>)
    requires |s| > 0 && e.count >= s[0].count
    ensures NonIncreasing(s) ==> forall j :: 0 <= j < |s| ==> s[j].count <= e.count
  {
  }

  /** When e goes below the head of a non-increasing s, the head stays on top. */
  lemma InsertBelowHead<K>(e: Entry<K>, s: seq<Entry<K>>, rest: seq<Entry<K>>)
    requires |s| > 0 && e.count < s[0].count
    requires multiset(rest) == multiset(s[1..]) + multiset{e}
    ensures NonIncreasing(s) ==> forall j :: 0 <= j < |rest| ==> rest[j].count <= s[0].count
  {
    if NonIncreasing(s) {
      forall j | 0 <= j < |rest| ensures rest[j].count <= s[0].count {
        assert rest[j] in multiset(rest);
        if rest[j] != e {
          assert rest[j] in multiset(s[1..]);
          var m :| 0 <= m < |s[1..]| && s[1..][m] == rest[j];
          assert s[m + 1] == rest[j];
        }
      }
    }
  }

  /** `[...entries].sort((a, b) => b.count - a.count)`: a stable insertion
      sort, largest count first. */
  function SortByCount<K>(es: seq<Entry<K>>): (r: seq<Entry<K>>)
    ensures multiset(r) == multiset(es)
    ensures |r| == |es|
    ensures NonIncreasing(r)
    ensures Total(r) == Total(es)
  {
    if |es| == 0 then []
    else
      assert es == [es[0]] + es[1..];
      InsertTotal(es[0], SortByCount(es[1..]));
      InsertSorted(es[0], SortByCount(es[1..]));
      Insert(es[0], SortByCount(es[1..]))
  }

  /** a comes before b in the ranking: a larger count, or the same count
      and a key that occurs first in keys. */
  ghost predicate Precedes<K>(a: Entry<K>, b: Entry<K>, keys: seq<K>) {
    && a.name in keys
    && b.name in keys
    && (|| a.count > b.count
        || (a.count == b.count && FirstIndex(keys, a.name) < FirstIndex(keys, b.name)))
  }

  /** Entries ordered by count, largest first, and among equal counts by the
      first occurrence of their key in keys. */
  ghost predicate RankedBy<K>(es: seq<Entry<K>>, keys: seq<K>) {
    && (forall i :: 0 <= i < |es| ==> es[i].name in keys)
    && forall i, j :: 0 <= i < j < |es| ==> Precedes(es[i], es[j], keys)
  }

  lemma RankedTail<K>(s: seq<Entry<K>>, keys: seq<K>)
    requires |s| > 0 && RankedBy(s, keys)
    ensures RankedBy(s[1..], keys)
  {
    forall i, j | 0 <= i < j < |s[1..]| ensures Precedes(s[1..][i], s[1..][j], keys) {
      assert s[1..][i] == s[i + 1] && s[1..][j] == s[j + 1];
    }
  }

  lemma RankedCons<K>(x: Entry<K>, s: seq<Entry<K>>, keys: seq<K>)
    requires RankedBy(s, keys)
    requires x.name in keys
    requires forall j :: 0 <= j < |s| ==> Precedes(x, s[j], keys)
    ensures RankedBy([x] + s, keys)
  {
    var r := [x] + s;
    forall i, j | 0 <= i < j < |r| ensures Precedes(r[i], r[j], keys) {
      assert r[j] == s[j - 1];
      if i > 0 {
        assert r[i] == s[i - 1];
      }
    }
  }

  lemma {:induction false} InsertRanked<K>(e: Entry<K>, s: seq<Entry<K>>, keys: seq<K>)
    requires RankedBy(s, keys)
    requires e.name in keys
    requires forall x :: x in s ==> x.name in keys && FirstIndex(keys, e.name) < FirstIndex(keys, x.name)
    ensures RankedBy(Insert(e, s), keys)
    decreases |s|
  {
    if |s| == 0 {
    } else if e.count >= s[0].count {
      forall j | 0 <= j < |s| ensures Precedes(e, s[j], keys) {
        assert s[j] in s;
        if j > 0 {
          assert Precedes(s[0], s[j], keys);
        }
      }
      RankedCons(e, s, keys);
    } else {
      RankedTail(s, keys);
      InsertRanked(e, s[1..], keys);
      var rest := Insert(e, s[1..]);
      forall j | 0 <= j < |rest| ensures Precedes(s[0], rest[j], keys) {
        InsertHeadPrecedes(e, s, keys, rest, j);
      }
      RankedCons(s[0], rest, keys);
    }
  }

  lemma InsertHeadPrecedes<K>(e: Entry<K>, s: seq<Entry<K>>, keys: seq<K>, rest: seq<Entry<K>>, j: nat)
    requires |s| > 0 && RankedBy(s, keys)
    requires e.name in keys && e.count < s[0].count
    requires rest == Insert(e, s[1..])
    requires j < |rest|
    ensures Precedes(s[0], rest[j], keys)
  {
    assert rest[j] in multiset(rest);
    if rest[j] != e {
      assert rest[j] in multiset(s[1..]);
      var m :| 0 <= m < |s[1..]| && s[1..][m] == rest[j];
      assert s[m + 1] == rest[j];
      assert Precedes(s[0], s[m + 1], keys);
    }
  }

  /** Sorting entries listed in first-occurrence order ranks them by count
      and then by first occurrence: the sort is stable. */
  lemma {:induction false} SortRanked<K>(es: seq<Entry<K>>, keys: seq<K>)
    requires forall i :: 0 <= i < |es| ==> es[i].name in keys
    requires forall i, j :: 0 <= i < j < |es| ==>
      FirstIndex(keys, es[i].name) < FirstIndex(keys, es[j].name)
    ensures RankedBy(SortByCount(es), keys)
    decreases |es|
  {
    if |es| > 0 {
      var tail := es[1..];
      forall i, j | 0 <= i < j < |tail|
        ensures FirstIndex(keys, tail[i].name) < FirstIndex(keys, tail[j].name)
      {
        assert tail[i] == es[i + 1] && tail[j] == es[j + 1];
      }
      SortRanked(tail, keys);
      var sorted := SortByCount(tail);
      forall x | x in sorted
        ensures x.name in keys && FirstIndex(keys, es[0].name) < FirstIndex(keys, x.name)
      {
        assert x in multiset(tail);
        var m :| 0 <= m < |tail| && tail[m] == x;
        assert es[m + 1] == x;
      }
      InsertRanked(es[0], sorted, keys);
    }
  }

  /** The tally of keys, largest count first, ties in first-occurrence order. */
  function Ranking<K(==)>(keys: seq<K>): seq<Entry<K>> {
    SortByCount(Count(keys))
  }

  /** The ranking holds one entry per distinct key, with that key's number of
      occurrences, ordered by count and then by first occurrence; the counts
      add up to the number of keys. */
  lemma RankingSpec<K>(keys: seq<K>)
    ensures var r := Ranking(keys);
      && RankedBy(r, keys)
      && DistinctNames(r)
      && (forall i :: 0 <= i < |r| ==> r[i].name in keys && r[i].count == Occurrences(keys, r[i].name))
      && (forall k :: k in keys ==> HasName(r, k))
      && Total(r) == |keys|
  {
    var c := Count(keys);
    var r := Ranking(keys);
    SortRanked(c, keys);
    forall i | 0 <= i < |r|
      ensures r[i].name in keys && r[i].count == Occurrences(keys, r[i].name)
    {
      assert r[i] in multiset(c);
    }
    RankedDistinct(r, keys);
    forall k | k in keys ensures HasName(r, k) {
      RankingCovers(keys, k);
    }
  }

  lemma RankingCovers<K>(keys: seq<K>, k: K)
    requires k in keys
    ensures HasName(Ranking(keys), k)
  {
    var c := Count(keys);
    var r := Ranking(keys);
    assert HasName(c, k);
    var i :| 0 <= i < |c| && c[i].name == k;
    assert multiset(r) == multiset(c);
    assert c[i] in multiset(r);
    MemberHasName(c[i], r);
  }

  lemma MemberHasName<K>(x: Entry<K>, r: seq<Entry<K>>)
    requires x in multiset(r)
    ensures HasName(r, x.name)
  {
    var j :| 0 <= j < |r| && r[j] == x;
  }

  /** Entries whose count is that of their key cannot repeat a key in a ranking. */
  lemma RankedDistinct<K>(r: seq<Entry<K>>, keys: seq<K>)
    requires RankedBy(r, keys)
    requires forall i :: 0 <= i < |r| ==> r[i].count == Occurrences(keys, r[i].name)
    ensures DistinctNames(r)
  {
    forall i, j | 0 <= i < j < |r| ensures r[i].name != r[j].name {
      assert Precedes(r[i], r[j], keys);
    }
  }

  /** `[...m.entries()].sort((a, b) => b[1] - a[1])[0]?.[0]`: the key of the
      first ranked entry, absent when there are no keys. */
  function TopKey<K(==)>(keys: seq<K>): Option<K> {
    var r := Ranking(keys);
    if |r| == 0 then None else Some(r[0].name)
  }

  /** The top key exists exactly when there are keys; it occurs at least as
      often as any other key, and among the keys that occur as often it is the
      one seen first. */
  lemma TopKeySpec<K>(keys: seq<K>)
    ensures TopKey(keys).None? <==> |keys| == 0
    ensures TopKey(keys).Some? ==>
      var top := TopKey(keys).value;
      && top in keys
      && (forall k :: k in keys ==> Occurrences(keys, k) <= Occurrences(keys, top))
      && (forall k :: k in keys && Occurrences(keys, k) == Occurrences(keys, top) ==>
            FirstIndex(keys, top) <= FirstIndex(keys, k))
  {
    RankingSpec(keys);
    var r := Ranking(keys);
    if |keys| > 0 {
      assert HasName(r, keys[0]);
      var top := r[0].name;
      forall k | k in keys
        ensures Occurrences(keys, k) <= Occurrences(keys, top)
        ensures Occurrences(keys, k) == Occurrences(keys, top) ==> FirstIndex(keys, top) <= FirstIndex(keys, k)
      {
        var j :| 0 <= j < |r| && r[j].name == k;
        HeadBeats(keys, r, j);
      }
    }
  }

  /** The head of a ranking beats or ties every entry, and wins ties by
      first occurrence. */
  lemma HeadBeats<K>(keys: seq<K>, r: seq<Entry<K>>, j: nat)
    requires RankedBy(r, keys)
    requires j < |r|
    requires r[0].count == Occurrences(keys, r[0].name)
    requires r[j].count == Occurrences(keys, r[j].name)
    ensures Occurrences(keys, r[j].name) <= Occurrences(keys, r[0].name)
    ensures Occurrences(keys, r[j].name) == Occurrences(keys, r[0].name) ==>
      FirstIndex(keys, r[0].name) <= FirstIndex(keys, r[j].name)
  {
    if j > 0 {
      assert Precedes(r[0], r[j], keys);
    }
  }
}
