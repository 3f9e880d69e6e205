/** Bucketed observations as mathematics: ranks, bucket counts, scaled sums. Values are reals. */
module Ranks {
  import opened Wrappers

  datatype Bound = Finite(limit: real) | Infinity

  predicate AtMost(x: real, b: Bound) {
    match b case Finite(l) => x <= l case Infinity => true
  }

  predicate Ascending(bounds: seq<Bound>) {
    forall i, j :: 0 <= i < j < |bounds| ==>
      bounds[j].Infinity? || (bounds[i].Finite? && bounds[i].limit <= bounds[j].limit)
  }

  /** How many observations lie at or below `b`. */
  function Rank(obs: seq<real>, b: Bound): nat {
    if obs == [] then 0 else
      Rank(obs[..|obs| - 1], b) + if AtMost(obs[|obs| - 1], b) then 1 else 0
  }

  /** The first bucket whose bound reaches `x`, or the number of buckets. */
  function FirstBucket(bounds: seq<Bound>, x: real): (i: nat)
    ensures i <= |bounds|
    ensures i < |bounds| ==> AtMost(x, bounds[i])
    ensures forall j :: 0 <= j < i ==> !AtMost(x, bounds[j])
  {
    if bounds == [] then 0
    else if AtMost(x, bounds[0]) then 0
    else 1 + FirstBucket(bounds[1..], x)
  }

  /** How many observations fell into bucket `i`. */
  function InBucket(obs: seq<real>, bounds: seq<Bound>, i: nat): nat {
    if obs == [] then 0 else
      InBucket(obs[..|obs| - 1], bounds, i) + if FirstBucket(bounds, obs[|obs| - 1]) == i then 1 else 0
  }

  /** How many fell into the first `n` buckets. */
  function InFirst(obs: seq<real>, bounds: seq<Bound>, n: nat): nat {
    if n == 0 then 0 else InFirst(obs, bounds, n - 1) + InBucket(obs, bounds, n - 1)
  }

  lemma {:induction false} InFirstSnoc(obs: seq<real>, x: real, bounds: seq<Bound>, n: nat)
    ensures InFirst(obs + [x], bounds, n) == InFirst(obs, bounds, n) + if FirstBucket(bounds, x) < n then 1 else 0
  {
    if n > 0 {
      InFirstSnoc(obs, x, bounds, n - 1);
      assert (obs + [x])[..|obs + [x]| - 1] == obs;
    }
  }

  lemma {:induction false} InFirstEmpty(bounds: seq<Bound>, n: nat)
    ensures InFirst([], bounds, n) == 0
  {
    if n > 0 { InFirstEmpty(bounds, n - 1); }
  }

  /** Cumulated bucket counts are ranks. */
  lemma {:induction false} CumulativeIsRank(obs: seq<real>, bounds: seq<Bound>, i: nat)
    requires Ascending(bounds) && i < |bounds|
    ensures InFirst(obs, bounds, i + 1) == Rank(obs, bounds[i])
  {
    if obs == [] {
      InFirstEmpty(bounds, i + 1);
    } else {
      var init, last := obs[..|obs| - 1], obs[|obs| - 1];
      assert obs == init + [last];
      CumulativeIsRank(init, bounds, i);
      InFirstSnoc(init, last, bounds, i + 1);
      assert FirstBucket(bounds, last) <= i <==> AtMost(last, bounds[i]);
    }
  }

  lemma {:induction false} RankMonotone(obs: seq<real>, a: Bound, b: Bound)
    requires b.Infinity? || (a.Finite? && a.limit <= b.limit)
    ensures Rank(obs, a) <= Rank(obs, b) <= |obs|
  {
    if obs != [] { RankMonotone(obs[..|obs| - 1], a, b); }
  }

  lemma {:induction false} RankOfInfinity(obs: seq<real>)
    ensures Rank(obs, Infinity) == |obs|
  {
    if obs != [] { RankOfInfinity(obs[..|obs| - 1]); }
  }

  lemma {:induction false} InBucketBounded(obs: seq<real>, bounds: seq<Bound>, i: nat)
    ensures InBucket(obs, bounds, i) <= |obs|
  {
    if obs != [] { InBucketBounded(obs[..|obs| - 1], bounds, i); }
  }

  function CountedAt(obs: seq<real>, limit: real): set<int> {
    set i | 0 <= i < |obs| && obs[i] <= limit
  }

  /** A rank is how many observations are at most the limit. */
  lemma {:induction false} RankCounts(obs: seq<real>, limit: real)
    ensures Rank(obs, Finite(limit)) == |CountedAt(obs, limit)|
  {
    if obs != [] {
      var n := |obs| - 1;
      RankCounts(obs[..n], limit);
      assert CountedAt(obs, limit) == CountedAt(obs[..n], limit) + if obs[n] <= limit then {n} else {};
    }
  }

  // Sums.

  /** A value in thousandths, cut off to an unsigned 64-bit integer. */
  function Scaled(x: real): (n: nat)
    ensures n < U64_SIZE
  {
    var t := (x * 1000.0).Floor;
    if t < 0 then 0 else if t >= U64_SIZE then U64_SIZE - 1 else t
  }

  function ScaledSum(obs: seq<real>): nat {
    if obs == [] then 0 else ScaledSum(obs[..|obs| - 1]) + Scaled(obs[|obs| - 1])
  }

  function Sum(obs: seq<real>): real {
    if obs == [] then 0.0 else Sum(obs[..|obs| - 1]) + obs[|obs| - 1]
  }

  predicate InScale(x: real) {
    0.0 <= x && x * 1000.0 < U64_SIZE as real
  }

  /** Each value loses less than a thousandth. */
  lemma {:induction false} ScaledSumClose(obs: seq<real>)
    requires forall i :: 0 <= i < |obs| ==> InScale(obs[i])
    ensures 0.0 <= Sum(obs) * 1000.0 - ScaledSum(obs) as real
    ensures obs != [] ==> Sum(obs) * 1000.0 - ScaledSum(obs) as real < |obs| as real
  {
    if obs != [] {
      var x := obs[|obs| - 1];
      ScaledSumClose(obs[..|obs| - 1]);
      assert InScale(x);
      assert Scaled(x) == (x * 1000.0).Floor;
      assert 0.0 <= x * 1000.0 - Scaled(x) as real < 1.0;
    }
  }

  // The numbers a histogram keeps, 64 bits each.

  datatype Counts = Counts(buckets: seq<nat>, sum: nat, count: nat)

  function AddU64(a: nat, b: nat): nat {
    (a + b) % U64_SIZE
  }

  /** The atomic additions of one observation: its bucket, the sum, the count. */
  function Observe(h: Counts, bounds: seq<Bound>, value: real, step: nat): Counts {
    if step == 0 then
      var i := FirstBucket(bounds, value);
      if i < |h.buckets| then h.(buckets := h.buckets[i := AddU64(h.buckets[i], 1)]) else h
    else if step == 1 then h.(sum := AddU64(h.sum, Scaled(value)))
    else h.(count := AddU64(h.count, 1))
  }

  /** The numbers are those of the observations, modulo 2^64. */
  ghost predicate CountsAre(h: Counts, bounds: seq<Bound>, obs: seq<real>) {
    && |h.buckets| == |bounds|
    && (forall i :: 0 <= i < |bounds| ==> h.buckets[i] == InBucket(obs, bounds, i) % U64_SIZE)
    && h.sum == ScaledSum(obs) % U64_SIZE
    && h.count == |obs| % U64_SIZE
  }

  lemma ObserveCounts(h: Counts, bounds: seq<Bound>, obs: seq<real>, value: real)
    requires CountsAre(h, bounds, obs)
    ensures CountsAre(ObserveAll(h, bounds, value), bounds, obs + [value])
  {
    var more := obs + [value];
    assert more[..|more| - 1] == obs;
    var h' := ObserveAll(h, bounds, value);
    hide ObserveAll, Scaled;
    forall i | 0 <= i < |bounds| ensures h'.buckets[i] == InBucket(more, bounds, i) % U64_SIZE {
      BucketAfter(h, bounds, value, i);
      AddWrapped(InBucket(obs, bounds, i), if FirstBucket(bounds, value) == i then 1 else 0);
    }
    OthersAfter(h, bounds, value);
    AddWrapped(ScaledSum(obs), Scaled(value));
    AddWrapped(|obs|, 1);
  }

  lemma BucketAfter(h: Counts, bounds: seq<Bound>, value: real, i: nat)
    requires i < |h.buckets| == |bounds| && forall j :: 0 <= j < |bounds| ==> h.buckets[j] < U64_SIZE
    ensures var h' := ObserveAll(h, bounds, value);
      && |h'.buckets| == |bounds|
      && h'.buckets[i] == AddU64(h.buckets[i], if FirstBucket(bounds, value) == i then 1 else 0)
  {
  }

  lemma OthersAfter(h: Counts, bounds: seq<Bound>, value: real)
    ensures var h' := ObserveAll(h, bounds, value);
      && |h'.buckets| == |h.buckets| && h'.sum == AddU64(h.sum, Scaled(value)) && h'.count == AddU64(h.count, 1)
  {
  }

  lemma AddWrapped(n: nat, m: nat)
    ensures AddU64(n % U64_SIZE, m) == (n + m) % U64_SIZE
  {
  }

  /** All three additions of one observation. */
  function ObserveAll(h: Counts, bounds: seq<Bound>, value: real): Counts {
    Observe(Observe(Observe(h, bounds, value, 0), bounds, value, 1), bounds, value, 2)
  }
}
