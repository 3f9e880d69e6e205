/**
 The metrics of one tenant's requests. Durations are recorded in seconds, in a histogram whose bounds are
 milliseconds.
 */
module Tenants {
  import opened Wrappers
  import opened Ranks
  import opened Histograms

  /** Durations as they are handed to the histogram. */
  function Recorded(durationsMs: seq<nat>): (obs: seq<real>)
    ensures |obs| == |durationsMs|
  {
    seq(|durationsMs|, i requires 0 <= i < |durationsMs| => durationsMs[i] as real / 1000.0)
  }

  /** Durations in the unit of the bounds. */
  function Millis(durationsMs: seq<nat>): (obs: seq<real>)
    ensures |obs| == |durationsMs|
  {
    seq(|durationsMs|, i requires 0 <= i < |durationsMs| => durationsMs[i] as real)
  }

  datatype RequestResult = Success | Error | Timeout

  datatype Request = Request(result: RequestResult, cpuUs: nat, memory: nat, durationMs: nat)

  // What the counters stand for.

  function CountOf(rs: seq<Request>, result: RequestResult): nat {
    if rs == [] then 0 else
      CountOf(rs[..|rs| - 1], result) + if rs[|rs| - 1].result == result then 1 else 0
  }

  /** The CPU time of each request in whole seconds. */
  function WholeSeconds(rs: seq<Request>): nat {
    if rs == [] then 0 else WholeSeconds(rs[..|rs| - 1]) + rs[|rs| - 1].cpuUs / MICROS_PER_SECOND
  }

  function Micros(rs: seq<Request>): nat {
    if rs == [] then 0 else Micros(rs[..|rs| - 1]) + rs[|rs| - 1].cpuUs
  }

  function Peak(rs: seq<Request>): nat {
    if rs == [] then 0 else
      var before, last := Peak(rs[..|rs| - 1]), rs[|rs| - 1].memory;
      if last > before then last else before
  }

  const MICROS_PER_SECOND: nat := 1_000_000

  function Durations(rs: seq<Request>): (ds: seq<nat>)
    ensures |ds| == |rs|
  {
    seq(|rs|, i requires 0 <= i < |rs| => rs[i].durationMs)
  }

  function CpuSeconds(rs: seq<Request>): seq<real> {
    seq(|rs|, i requires 0 <= i < |rs| => rs[i].cpuUs as real / 1_000_000.0)
  }

  function MemoryBytes(rs: seq<Request>): seq<real> {
    seq(|rs|, i requires 0 <= i < |rs| => rs[i].memory as real)
  }

  const CPU_TIME_BUCKETS: seq<Bound> := [
    Finite(0.001), Finite(0.005), Finite(0.010), Finite(0.025), Finite(0.050), Finite(0.100), Finite(0.250),
    Finite(0.500), Finite(1.0), Infinity]

  const MEMORY_BUCKETS: seq<Bound> := [
    Finite(1024.0), Finite(10240.0), Finite(102400.0), Finite(1048576.0), Finite(10485760.0), Finite(52428800.0),
    Finite(104857600.0), Infinity]

  class TenantMetrics {
    var requestsTotal: nat
    var requestsSuccess: nat
    var requestsError: nat
    var requestsTimeout: nat
    var cpuSecondsTotal: nat
    var memoryPeakBytes: nat
    const requestDurationSeconds: Histogram
    const cpuTimePerRequestSeconds: Histogram
    const memoryPerRequestBytes: Histogram
    ghost var requests: seq<Request>

    ghost predicate Valid()
      reads this, requestDurationSeconds, cpuTimePerRequestSeconds, memoryPerRequestBytes
    {
      CountersAre(requests) && HistogramsAre(requests)
    }

    ghost predicate CountersAre(rs: seq<Request>)
      reads this
    {
      && requestsTotal == Low(|rs|)
      && requestsSuccess == Low(CountOf(rs, Success))
      && requestsError == Low(CountOf(rs, Error))
      && requestsTimeout == Low(CountOf(rs, Timeout))
      && cpuSecondsTotal == Low(WholeSeconds(rs))
      && memoryPeakBytes == Peak(rs)
    }

    ghost predicate HistogramsAre(rs: seq<Request>)
      reads this, requestDurationSeconds, cpuTimePerRequestSeconds, memoryPerRequestBytes
    {
      && requestDurationSeconds != cpuTimePerRequestSeconds
      && requestDurationSeconds != memoryPerRequestBytes
      && cpuTimePerRequestSeconds != memoryPerRequestBytes
      && Observes(requestDurationSeconds, REQUEST_DURATION_BUCKETS, Recorded(Durations(rs)))
      && Observes(cpuTimePerRequestSeconds, CPU_TIME_BUCKETS, CpuSeconds(rs))
      && Observes(memoryPerRequestBytes, MEMORY_BUCKETS, MemoryBytes(rs))
    }

    constructor ()
      ensures Valid() && requests == []
      ensures fresh(requestDurationSeconds) && fresh(cpuTimePerRequestSeconds) && fresh(memoryPerRequestBytes)
    {
      RequestBucketsAscend();
      assert Ascending(CPU_TIME_BUCKETS) && Ascending(MEMORY_BUCKETS);
      requestsTotal, requestsSuccess, requestsError, requestsTimeout := 0, 0, 0, 0;
      cpuSecondsTotal, memoryPeakBytes := 0, 0;
      requestDurationSeconds := new Histogram(REQUEST_DURATION_BUCKETS);
      cpuTimePerRequestSeconds := new Histogram(CPU_TIME_BUCKETS);
      memoryPerRequestBytes := new Histogram(MEMORY_BUCKETS);
      requests := [];
    }

    method RecordRequest(result: RequestResult, cpuTimeUs: nat, memoryBytes: nat, durationMs: nat)
      requires Valid()
      modifies this, requestDurationSeconds, cpuTimePerRequestSeconds, memoryPerRequestBytes
      ensures Valid() && requests == old(requests) + [Request(result, cpuTimeUs, memoryBytes, durationMs)]
      ensures requestDurationSeconds.observed == old(requestDurationSeconds.observed) + [durationMs as real / 1000.0]
      ensures cpuTimePerRequestSeconds.observed ==
              old(cpuTimePerRequestSeconds.observed) + [cpuTimeUs as real / 1_000_000.0]
      ensures memoryPerRequestBytes.observed == old(memoryPerRequestBytes.observed) + [memoryBytes as real]
    {
      ghost var r := Request(result, cpuTimeUs, memoryBytes, durationMs);
      hide CountOf, WholeSeconds, Peak, Recorded, Durations, CpuSeconds, MemoryBytes;
      Count(result, cpuTimeUs, memoryBytes, r);
      OneMoreObserved(requests, r);
      ObserveInHistograms(cpuTimeUs, memoryBytes, durationMs, r);
      requests := requests + [r];
    }

    /** The counters and the peak. */
    method Count(result: RequestResult, cpuTimeUs: nat, memoryBytes: nat, ghost r: Request)
      requires CountersAre(requests) && r.result == result && r.cpuUs == cpuTimeUs && r.memory == memoryBytes
      modifies this`requestsTotal, this`requestsSuccess, this`requestsError, this`requestsTimeout
      modifies this`cpuSecondsTotal, this`memoryPeakBytes
      ensures CountersAre(requests + [r])
    {
      OneMoreCounted(requests, r);
      hide CountOf, WholeSeconds, Peak, AddU64, Low;
      requestsTotal := AddU64(requestsTotal, 1);
      match result {
        case Success => requestsSuccess := AddU64(requestsSuccess, 1);
        case Error => requestsError := AddU64(requestsError, 1);
        case Timeout => requestsTimeout := AddU64(requestsTimeout, 1);
      }
      cpuSecondsTotal := AddU64(cpuSecondsTotal, cpuTimeUs / MICROS_PER_SECOND);
      if memoryBytes > memoryPeakBytes {
        memoryPeakBytes := memoryBytes;
      }
    }

    method ObserveInHistograms(cpuTimeUs: nat, memoryBytes: nat, durationMs: nat, ghost r: Request)
      requires HistogramsAre(requests) && r.cpuUs == cpuTimeUs && r.memory == memoryBytes && r.durationMs == durationMs
      modifies requestDurationSeconds, cpuTimePerRequestSeconds, memoryPerRequestBytes
      ensures HistogramsAre(requests + [r])
    {
      OneMoreObserved(requests, r);
      hide Recorded, Durations, CpuSeconds, MemoryBytes, CountsAre, ObserveAll;
      requestDurationSeconds.Observe(durationMs as real / 1000.0);
      cpuTimePerRequestSeconds.Observe(cpuTimeUs as real / 1_000_000.0);
      memoryPerRequestBytes.Observe(memoryBytes as real);
    }

    method RequestDurationP99() returns (bound: Bound)
      requires Valid() && |requests| < U64_SIZE
      ensures if requests == [] then bound == Finite(0.0)
              else IsP99(Recorded(Durations(requests)), REQUEST_DURATION_BUCKETS, bound)
    {
      RequestBucketsAscend();
      requestDurationSeconds.Exact();
      bound := requestDurationSeconds.DurationP99();
    }
  }

  ghost predicate Observes(h: Histogram, bounds: seq<Bound>, obs: seq<real>)
    reads h
  {
    h.Valid() && h.bounds == bounds && h.observed == obs
  }

  /** A number in 64 bits. */
  function Low(n: nat): nat {
    n % U64_SIZE
  }

  lemma LowAdds(n: nat, m: nat)
    ensures AddU64(Low(n), m) == Low(n + m)
  {
    AddWrapped(n, m);
  }

  lemma OneMoreCounted(rs: seq<Request>, r: Request)
    ensures Low(CountOf(rs + [r], r.result)) == AddU64(Low(CountOf(rs, r.result)), 1)
    ensures forall result :: r.result != result ==> CountOf(rs + [r], result) == CountOf(rs, result)
    ensures Low(WholeSeconds(rs + [r])) == AddU64(Low(WholeSeconds(rs)), r.cpuUs / MICROS_PER_SECOND)
    ensures Peak(rs + [r]) == if r.memory > Peak(rs) then r.memory else Peak(rs)
    ensures Low(|rs + [r]|) == AddU64(Low(|rs|), 1)
  {
    assert (rs + [r])[..|rs + [r]| - 1] == rs;
    var seconds := r.cpuUs / MICROS_PER_SECOND;
    LowAdds(CountOf(rs, r.result), 1);
    LowAdds(WholeSeconds(rs), seconds);
    LowAdds(|rs|, 1);
    assert WholeSeconds(rs + [r]) == WholeSeconds(rs) + seconds;
    hide AddU64, Low, WholeSeconds;
  }

  lemma OneMoreObserved(rs: seq<Request>, r: Request)
    ensures Recorded(Durations(rs + [r])) == Recorded(Durations(rs)) + [r.durationMs as real / 1000.0]
    ensures CpuSeconds(rs + [r]) == CpuSeconds(rs) + [r.cpuUs as real / 1_000_000.0]
    ensures MemoryBytes(rs + [r]) == MemoryBytes(rs) + [r.memory as real]
  {
  }

  // What the counters are worth.

  function With(rs: seq<Request>, result: RequestResult): set<int> {
    set i | 0 <= i < |rs| && rs[i].result == result
  }

  /** A counter is how many requests had its result. */
  lemma {:induction false} CountsAreOfResults(rs: seq<Request>, result: RequestResult)
    ensures CountOf(rs, result) == |With(rs, result)|
  {
    if rs != [] {
      var n := |rs| - 1;
      CountsAreOfResults(rs[..n], result);
      assert With(rs, result) == With(rs[..n], result) + if rs[n].result == result then {n} else {};
    }
  }

  /** Every request is counted under exactly one result. */
  lemma {:induction false} ResultsAddUp(rs: seq<Request>)
    ensures CountOf(rs, Success) + CountOf(rs, Error) + CountOf(rs, Timeout) == |rs|
  {
    if rs != [] { ResultsAddUp(rs[..|rs| - 1]); }
  }

  /** The total of CPU seconds loses every part of a second of every request: it is exact if and only if each
      request took whole seconds. */
  lemma {:induction false} CpuSecondsExactly(rs: seq<Request>)
    ensures WholeSeconds(rs) * MICROS_PER_SECOND <= Micros(rs)
    ensures WholeSeconds(rs) * MICROS_PER_SECOND == Micros(rs) <==>
      forall i :: 0 <= i < |rs| ==> rs[i].cpuUs % MICROS_PER_SECOND == 0
  {
    if rs != [] {
      var init, last := rs[..|rs| - 1], rs[|rs| - 1];
      CpuSecondsExactly(init);
      assert rs == init + [last];
      assert last.cpuUs == last.cpuUs / MICROS_PER_SECOND * MICROS_PER_SECOND + last.cpuUs % MICROS_PER_SECOND;
    }
  }

  /** The peak is the most that any request took. */
  lemma {:induction false} PeakIsMost(rs: seq<Request>)
    ensures forall i :: 0 <= i < |rs| ==> rs[i].memory <= Peak(rs)
    ensures rs != [] ==> exists i :: 0 <= i < |rs| && rs[i].memory == Peak(rs)
  {
    if rs != [] {
      var init, last := rs[..|rs| - 1], rs[|rs| - 1];
      PeakIsMost(init);
      assert rs == init + [last];
      if init == [] || last.memory > Peak(init) {
        assert rs[|rs| - 1].memory == Peak(rs);
      } else {
        var i :| 0 <= i < |init| && init[i].memory == Peak(init);
        assert rs[i].memory == Peak(rs);
      }
    }
  }

  function Thousandfold(b: Bound): Bound {
    match b case Finite(limit) => Finite(1000.0 * limit) case Infinity => Infinity
  }

  /** What a bound of the histogram means for the durations: a thousand times as much. */
  lemma {:induction false} RecordedRank(durationsMs: seq<nat>, b: Bound)
    ensures Rank(Recorded(durationsMs), b) == Rank(Millis(durationsMs), Thousandfold(b))
  {
    if durationsMs != [] {
      var init := durationsMs[..|durationsMs| - 1];
      RecordedRank(init, b);
      assert Recorded(durationsMs)[..|init|] == Recorded(init);
      assert Millis(durationsMs)[..|init|] == Millis(init);
    }
  }

  /** The first and the last answer of the percentile. */
  lemma P99IsABucket(obs: seq<real>, bound: Bound) returns (i: nat)
    requires IsP99(obs, REQUEST_DURATION_BUCKETS, bound)
    ensures i < 10 && bound == REQUEST_DURATION_BUCKETS[i] &&
      FirstReaches(obs, REQUEST_DURATION_BUCKETS, i, Target(|obs|))
  {
    RankOfInfinity(obs);
    TargetRounds(|obs|);
    hide Rank, Target;
    assert REQUEST_DURATION_BUCKETS[9] == Infinity;
    i :| 0 <= i < 10 && bound == REQUEST_DURATION_BUCKETS[i] &&
      FirstReaches(obs, REQUEST_DURATION_BUCKETS, i, Target(|obs|));
  }

  lemma P99Ends(obs: seq<real>, bound: Bound)
    requires IsP99(obs, REQUEST_DURATION_BUCKETS, bound)
    ensures bound == Finite(1.0) <==> Rank(obs, Finite(1.0)) >= Target(|obs|)
    ensures bound == Infinity <==> Rank(obs, Finite(1000.0)) < Target(|obs|)
  {
    hide Rank, Target;
    var i := P99IsABucket(obs, bound);
    assert REQUEST_DURATION_BUCKETS[0] == Finite(1.0) && REQUEST_DURATION_BUCKETS[8] == Finite(1000.0);
    if i < 9 {
      RankMonotone(obs, bound, Finite(1000.0));
    }
  }

  /** The percentile is 1, whatever the requests took, exactly when enough of them took up to a second. */
  lemma ReportsOneExactly(durationsMs: seq<nat>, bound: Bound)
    requires IsP99(Recorded(durationsMs), REQUEST_DURATION_BUCKETS, bound)
    ensures bound == Finite(1.0) <==> Rank(Millis(durationsMs), Finite(1000.0)) >= Target(|durationsMs|)
  {
    P99Ends(Recorded(durationsMs), bound);
    RecordedRank(durationsMs, Finite(1.0));
  }

  /** Exactly when the percentile is the one of the durations in milliseconds: enough requests took up to
      one millisecond, or too few up to a thousand seconds. */
  lemma P99InMillisecondsExactly(durationsMs: seq<nat>, bound: Bound, expected: Bound)
    requires IsP99(Recorded(durationsMs), REQUEST_DURATION_BUCKETS, bound)
    requires IsP99(Millis(durationsMs), REQUEST_DURATION_BUCKETS, expected)
    ensures bound == expected <==>
      || Rank(Millis(durationsMs), Finite(1.0)) >= Target(|durationsMs|)
      || Rank(Millis(durationsMs), Finite(1_000_000.0)) < Target(|durationsMs|)
  {
    var obs := Millis(durationsMs);
    P99Ends(Recorded(durationsMs), bound);
    P99Ends(obs, expected);
    RecordedRank(durationsMs, Finite(1.0));
    RecordedRank(durationsMs, Finite(1000.0));
    RankMonotone(obs, Finite(1.0), Finite(1000.0));
    RankMonotone(obs, Finite(1000.0), Finite(1_000_000.0));
  }

  /** Two requests of half a second: the percentile says 1 where it should say 500. */
  lemma HalfASecondReportsOne()
    ensures IsP99(Recorded([500, 500]), REQUEST_DURATION_BUCKETS, Finite(1.0))
    ensures IsP99(Millis([500, 500]), REQUEST_DURATION_BUCKETS, Finite(500.0))
  {
    var seconds, millis := [0.5, 0.5], [500.0, 500.0];
    assert Recorded([500, 500]) == seconds && Millis([500, 500]) == millis;
    RankOfTwo(0.5, Finite(1.0));
    forall b: Bound ensures Rank(millis, b) == if AtMost(500.0, b) then 2 else 0 {
      RankOfTwo(500.0, b);
    }
    assert Target(2) == 1;
    hide Rank, Target;
    assert FirstReaches(seconds, REQUEST_DURATION_BUCKETS, 0, 1);
    assert FirstReaches(millis, REQUEST_DURATION_BUCKETS, 7, 1);
  }

  lemma RankOfTwo(x: real, b: Bound)
    ensures Rank([x, x], b) == if AtMost(x, b) then 2 else 0
  {
    RankOfOne(x, b);
    assert [x, x][..1] == [x];
  }
}
