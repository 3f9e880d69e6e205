/** The histogram, the cumulative bucket lines that the exporter prints, and the 99th percentile. */
module Histograms {
  import opened Wrappers
  import opened Ranks

  class Histogram {
    const bounds: seq<Bound>
    var bucketCounts: seq<nat>
    var sum: nat
    var count: nat
    ghost var observed: seq<real>

    /** Counters wrap at 2^64. */
    ghost predicate Valid()
      reads this
    {
      CountsAre(View(), bounds, observed)
    }

    function View(): Counts
      reads this
    {
      Counts(bucketCounts, sum, count)
    }

    /** Bounds are handed over in ascending order. */
    constructor (bounds: seq<Bound>)
      requires Ascending(bounds)
      ensures Valid() && observed == [] && this.bounds == bounds
    {
      this.bounds := bounds;
      bucketCounts := seq(|bounds|, _ => 0);
      sum, count, observed := 0, 0, [];
    }

    method Observe(value: real)
      requires Valid()
      modifies this
      ensures Valid() && observed == old(observed) + [value]
      ensures View() == ObserveAll(old(View()), bounds, value)
    {
      ghost var was := bucketCounts;
      var i := 0;
      while i < |bounds|
        invariant 0 <= i <= |bounds| && bucketCounts == was
        invariant forall j :: 0 <= j < i ==> !AtMost(value, bounds[j])
      {
        if AtMost(value, bounds[i]) {
          bucketCounts := bucketCounts[i := (bucketCounts[i] + 1) % U64_SIZE];
          break;
        }
        i := i + 1;
      }
      assert i == FirstBucket(bounds, value);
      sum := (sum + Scaled(value)) % U64_SIZE;
      count := (count + 1) % U64_SIZE;
      assert View() == ObserveAll(old(View()), bounds, value);
      ObserveCounts(old(View()), bounds, observed, value);
      observed := observed + [value];
    }

    /** Below 2^64 observations nothing has wrapped. */
    lemma Exact()
      requires Valid() && |observed| < U64_SIZE
      ensures count == |observed|
      ensures forall i :: 0 <= i < |bounds| ==> bucketCounts[i] == InBucket(observed, bounds, i)
    {
      forall i | 0 <= i < |bounds| ensures bucketCounts[i] == InBucket(observed, bounds, i) {
        InBucketBounded(observed, bounds, i);
      }
    }

    /** The number on each `_bucket` line: a running total over the buckets. */
    method BucketLines() returns (lines: seq<nat>)
      requires Valid() && Ascending(bounds) && |observed| < U64_SIZE
      ensures |lines| == |bounds|
      ensures forall i :: 0 <= i < |lines| ==> lines[i] == Rank(observed, bounds[i])
      ensures forall i, j :: 0 <= i < j < |lines| ==> lines[i] <= lines[j]
      ensures bounds != [] && bounds[|bounds| - 1] == Infinity ==> lines[|lines| - 1] == count
    {
      Exact();
      hide Rank, InBucket, Valid;
      lines := [];
      var cumulative := 0;
      for i := 0 to |bucketCounts|
        invariant |lines| == i && cumulative == InFirst(observed, bounds, i)
        invariant forall j :: 0 <= j < i ==> lines[j] == Rank(observed, bounds[j])
      {
        cumulative := cumulative + bucketCounts[i];
        CumulativeIsRank(observed, bounds, i);
        lines := lines + [cumulative];
      }
      forall i, j | 0 <= i < j < |lines| ensures lines[i] <= lines[j] {
        RankMonotone(observed, bounds[i], bounds[j]);
      }
      RankOfInfinity(observed);
    }

    /** The sum in milliseconds, short of the true sum by less than a microsecond an observation. */
    method ReportedSum() returns (ms: real)
      requires Valid() && ScaledSum(observed) < U64_SIZE
      requires forall i :: 0 <= i < |observed| ==> InScale(observed[i])
      ensures ms <= Sum(observed)
      ensures observed != [] ==> Sum(observed) - ms < |observed| as real / 1000.0
    {
      ms := sum as real / 1000.0;
      ScaledSumClose(observed);
    }

    /** The least bound whose rank reaches 99 % of the count, rounded down. */
    method DurationP99() returns (bound: Bound)
      requires Valid() && Ascending(bounds) && |observed| < U64_SIZE
      ensures if count == 0 then bound == Finite(0.0) else IsP99(observed, bounds, bound)
    {
      Exact();
      if count == 0 {
        return Finite(0.0);
      }
      hide Target, Rank, InBucket, Valid;
      var target := Target(count);
      var cumulative := 0;
      for i := 0 to |bucketCounts|
        invariant cumulative == InFirst(observed, bounds, i)
        invariant NoneReaches(observed, bounds, i, target)
      {
        cumulative := cumulative + bucketCounts[i];
        CumulativeIsRank(observed, bounds, i);
        if cumulative >= target {
          return bounds[i];
        }
      }
      return Infinity;
    }
  }

  function Target(count: nat): nat {
    (count as real * 0.99).Floor
  }

  predicate NoneReaches(obs: seq<real>, bounds: seq<Bound>, n: nat, target: nat)
    requires n <= |bounds|
  {
    forall j :: 0 <= j < n ==> Rank(obs, bounds[j]) < target
  }

  ghost predicate FirstReaches(obs: seq<real>, bounds: seq<Bound>, i: nat, target: nat)
    requires i < |bounds|
  {
    Rank(obs, bounds[i]) >= target && NoneReaches(obs, bounds, i, target)
  }

  /** The first bound whose rank reaches the target, or infinity if none does. */
  ghost predicate IsP99(obs: seq<real>, bounds: seq<Bound>, bound: Bound) {
    var target := Target(|obs|);
    || (exists i :: 0 <= i < |bounds| && bound == bounds[i] && FirstReaches(obs, bounds, i, target))
    || (bound == Infinity && NoneReaches(obs, bounds, |bounds|, target))
  }

  /** At least 99 of 100 observations, rounded down, lie at or below the percentile, and fewer below any
      smaller bound; when the bounds end with infinity it is one of the bounds. */
  lemma P99Covers(obs: seq<real>, bounds: seq<Bound>, bound: Bound)
    requires Ascending(bounds) && IsP99(obs, bounds, bound)
    ensures Rank(obs, bound) >= Target(|obs|)
    ensures forall j :: 0 <= j < |bounds| && Rank(obs, bounds[j]) >= Target(|obs|) ==>
      bound == bounds[j] || (bound.Finite? && (bounds[j].Infinity? || bound.limit <= bounds[j].limit))
    ensures bounds != [] && bounds[|bounds| - 1] == Infinity ==> bound in bounds
  {
    P99Reaches(obs, bounds, bound);
    P99IsLeast(obs, bounds, bound);
    if bounds != [] && bounds[|bounds| - 1] == Infinity { P99IsBound(obs, bounds, bound); }
  }

  lemma P99IsLeast(obs: seq<real>, bounds: seq<Bound>, bound: Bound)
    requires Ascending(bounds) && IsP99(obs, bounds, bound)
    ensures forall j :: 0 <= j < |bounds| && Rank(obs, bounds[j]) >= Target(|obs|) ==>
      bound == bounds[j] || (bound.Finite? && (bounds[j].Infinity? || bound.limit <= bounds[j].limit))
  {
    hide Target, Rank;
    var target := Target(|obs|);
    if !NoneReaches(obs, bounds, |bounds|, target) {
      var i :| 0 <= i < |bounds| && bound == bounds[i] && FirstReaches(obs, bounds, i, target);
      assert forall j :: 0 <= j < |bounds| && Rank(obs, bounds[j]) >= target ==> i <= j;
    }
  }

  lemma P99IsBound(obs: seq<real>, bounds: seq<Bound>, bound: Bound)
    requires IsP99(obs, bounds, bound) && bounds != [] && bounds[|bounds| - 1] == Infinity
    ensures bound in bounds
  {
    RankOfInfinity(obs);
    TargetRounds(|obs|);
    hide Target, Rank;
    assert Rank(obs, bounds[|bounds| - 1]) >= Target(|obs|);
  }

  /** Exactly when at least 99 of 100 observations really lie at or below the percentile: the count is a
      multiple of 100, so that nothing was rounded away, or no bucket line shows the rounded target. */
  lemma P99CoversExactly(obs: seq<real>, bounds: seq<Bound>, bound: Bound)
    requires Ascending(bounds) && IsP99(obs, bounds, bound)
    ensures Rank(obs, bound) * 100 >= 99 * |obs| <==>
      |obs| % 100 == 0 || forall j :: 0 <= j < |bounds| ==> Rank(obs, bounds[j]) != Target(|obs|)
  {
    TargetRounds(|obs|);
    assert Rank(obs, bound) >= Target(|obs|) ==> (Rank(obs, bound) * 100 >= 99 * |obs| <==>
      |obs| % 100 == 0 || Rank(obs, bound) != Target(|obs|));
    var target, multiple := Target(|obs|), |obs| % 100 == 0;
    RankOfInfinity(obs);
    P99Reaches(obs, bounds, bound);
    hide Target, Rank;
    if NoneReaches(obs, bounds, |bounds|, target) {
      assert bound == Infinity;
    } else {
      var i :| 0 <= i < |bounds| && bound == bounds[i] && FirstReaches(obs, bounds, i, target);
      forall j | 0 <= j < |bounds| && Rank(obs, bounds[j]) == target ensures Rank(obs, bound) == target {
        assert i <= j;
        RankMonotone(obs, bounds[i], bounds[j]);
      }
    }
  }

  lemma P99Reaches(obs: seq<real>, bounds: seq<Bound>, bound: Bound)
    requires IsP99(obs, bounds, bound)
    ensures Rank(obs, bound) >= Target(|obs|)
  {
    RankOfInfinity(obs);
    TargetRounds(|obs|);
    hide Target, Rank;
  }

  /** What rounding the target down takes away: nothing if the count is a multiple of 100, otherwise less
      than one observation but not none. */
  lemma TargetRounds(n: nat)
    ensures 100 * Target(n) <= 99 * n < 100 * (Target(n) + 1)
    ensures 100 * Target(n) == 99 * n <==> n % 100 == 0
  {
    var t := Target(n);
    assert t as real <= n as real * 0.99 < t as real + 1.0;
    assert 100.0 * t as real <= 99.0 * n as real < 100.0 * t as real + 100.0;
    if n % 100 == 0 {
      assert 99 * n == 100 * (99 * (n / 100));
    }
    if 100 * t == 99 * n {
      assert n == 100 * (n - t);
    }
  }

  /** One slow request: the percentile is the first bound, and nothing lies at or below it. */
  lemma P99OfOneMisses()
    ensures IsP99([500.0], REQUEST_DURATION_BUCKETS, Finite(1.0)) && Rank([500.0], Finite(1.0)) == 0
  {
    RankOfOne(500.0, Finite(1.0));
    assert Target(1) == 0;
    assert FirstReaches([500.0], REQUEST_DURATION_BUCKETS, 0, 0);
  }

  /** One fast and one slow request: half of them lie above the percentile. */
  lemma P99OfTwoMisses()
    ensures IsP99([0.5, 900.0], REQUEST_DURATION_BUCKETS, Finite(1.0)) && Rank([0.5, 900.0], Finite(1.0)) == 1
  {
    RankOfOne(0.5, Finite(1.0));
    assert [0.5, 900.0][..1] == [0.5];
    assert Target(2) == 1;
    assert FirstReaches([0.5, 900.0], REQUEST_DURATION_BUCKETS, 0, 1);
  }

  lemma RankOfOne(x: real, b: Bound)
    ensures Rank([x], b) == if AtMost(x, b) then 1 else 0
  {
    assert [x][..0] == [];
  }

  /** The bounds of the request duration histogram, in milliseconds. */
  const REQUEST_DURATION_BUCKETS: seq<Bound> := [
    Finite(1.0), Finite(5.0), Finite(10.0), Finite(25.0), Finite(50.0), Finite(100.0), Finite(250.0),
    Finite(500.0), Finite(1000.0), Infinity]

  lemma RequestBucketsAscend()
    ensures Ascending(REQUEST_DURATION_BUCKETS)
    ensures REQUEST_DURATION_BUCKETS[|REQUEST_DURATION_BUCKETS| - 1] == Infinity
  {
  }
}
