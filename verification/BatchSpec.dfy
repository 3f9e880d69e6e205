/**
 Per-tenant batching of validated requests: what each operation does to the queue, with the record of
 everything that entered and left it. Instants are nanoseconds.
 */
module BatchSpec {
  import opened Wrappers
  import opened MapOrders

  datatype Request = Request(hostname: string, id: nat)

  datatype Pending = Pending(requests: seq<Request>, createdAt: nat)

  datatype Batch = Batch(tenant: string, requests: seq<Request>, createdAt: nat)

  /** How a batch left: filled up, or drained. `since` is when its first request came. */
  datatype Leaving = Leaving(tenant: string, requests: seq<Request>, full: bool, since: nat, at: nat)

  datatype Queue = Queue(
    maxSize: nat, maxWaitMs: nat, pending: map<string, Pending>, accepted: seq<Request>, left: seq<Leaving>)

  predicate Configured(q: Queue) {
    1 <= q.maxSize <= 1000 && 1 <= q.maxWaitMs <= 1000
  }

  function Empty(maxSize: nat, maxWaitMs: nat): Queue {
    Queue(maxSize, maxWaitMs, map[], [], [])
  }

  function Add(q: Queue, r: Request, now: nat): Queue {
    var t := r.hostname;
    var old_ := if t in q.pending then q.pending[t] else Pending([], now);
    var batch := old_.(requests := old_.requests + [r]);
    var q := q.(accepted := q.accepted + [r]);
    if |batch.requests| >= q.maxSize
    then q.(pending := q.pending - {t}, left := q.left + [Leaving(t, batch.requests, true, batch.createdAt, now)])
    else q.(pending := q.pending[t := batch])
  }

  /** Whole milliseconds, cut to 32 bits. */
  function AgeMs(b: Pending, now: nat): nat
    requires b.createdAt <= now
  {
    (now - b.createdAt) / NANOS_PER_MS % U32_SIZE
  }

  predicate Started(q: Queue, now: nat) {
    forall t :: t in q.pending ==> q.pending[t].createdAt <= now
  }

  /** Some batch is older than the drain's assertion allows. */
  predicate Overdue(q: Queue, now: nat)
    requires Started(q, now)
  {
    exists t :: t in q.pending && AgeMs(q.pending[t], now) > 2 * q.maxWaitMs
  }

  predicate Ready(q: Queue, t: string, now: nat)
    requires t in q.pending && q.pending[t].createdAt <= now
  {
    |q.pending[t].requests| >= q.maxSize || AgeMs(q.pending[t], now) >= q.maxWaitMs
  }

  /** The ready tenants, in the order the map is walked. */
  function ReadyOnes(q: Queue, order: seq<string>, now: nat): seq<string>
    requires Started(q, now) && forall t :: t in order ==> t in q.pending
  {
    if order == [] then [] else
      var last := order[|order| - 1];
      ReadyOnes(q, order[..|order| - 1], now) + if Ready(q, last, now) then [last] else []
  }

  /** Removes the batches of these tenants. */
  function TakeOut(q: Queue, ts: seq<string>, now: nat): Queue {
    if ts == [] then q else
      var q' := TakeOut(q, ts[..|ts| - 1], now);
      var t := ts[|ts| - 1];
      if t in q'.pending then
        q'.(pending := q'.pending - {t},
            left := q'.left + [Leaving(t, q'.pending[t].requests, false, q'.pending[t].createdAt, now)])
      else q'
  }

  // The record of one tenant.

  function Of(rs: seq<Request>, t: string): seq<Request> {
    if rs == [] then [] else
      Of(rs[..|rs| - 1], t) + if rs[|rs| - 1].hostname == t then [rs[|rs| - 1]] else []
  }

  function LeftOf(left: seq<Leaving>, t: string): seq<Request> {
    if left == [] then [] else
      LeftOf(left[..|left| - 1], t) + if left[|left| - 1].tenant == t then left[|left| - 1].requests else []
  }

  function PendingOf(q: Queue, t: string): seq<Request> {
    if t in q.pending then q.pending[t].requests else []
  }

  /** For each tenant, the requests that left in batches followed by those pending are exactly the
      requests accepted for it, in arrival order. */
  ghost predicate Accounted(q: Queue) {
    forall t :: Of(q.accepted, t) == LeftOf(q.left, t) + PendingOf(q, t)
  }

  ghost predicate Sized(q: Queue) {
    && Configured(q)
    && (forall t :: t in q.pending ==> 1 <= |q.pending[t].requests| < q.maxSize)
    && (forall i :: 0 <= i < |q.left| ==>
          if q.left[i].full then |q.left[i].requests| == q.maxSize else 1 <= |q.left[i].requests| < q.maxSize)
  }

  ghost predicate Inv(q: Queue) {
    Sized(q) && Accounted(q)
  }

  lemma LeftSnoc(left: seq<Leaving>, l: Leaving, t: string)
    ensures LeftOf(left + [l], t) == LeftOf(left, t) + if l.tenant == t then l.requests else []
  {
    assert (left + [l])[..|left + [l]| - 1] == left;
  }

  lemma OfSnoc(rs: seq<Request>, r: Request, t: string)
    ensures Of(rs + [r], t) == Of(rs, t) + if r.hostname == t then [r] else []
  {
    assert (rs + [r])[..|rs + [r]| - 1] == rs;
  }

  /** What one submission adds to the two ends of a tenant's record. */
  lemma AddMoves(q: Queue, r: Request, now: nat, t: string)
    ensures var q' := Add(q, r, now);
      && q'.accepted == q.accepted + [r]
      && LeftOf(q'.left, t) + PendingOf(q', t) ==
         if t == r.hostname then LeftOf(q.left, t) + (PendingOf(q, t) + [r]) else LeftOf(q.left, t) + PendingOf(q, t)
  {
    var batch := PendingOf(q, r.hostname) + [r];
    if |batch| >= q.maxSize {
      var since := if r.hostname in q.pending then q.pending[r.hostname].createdAt else now;
      LeftSnoc(q.left, Leaving(r.hostname, batch, true, since, now), t);
    }
    hide Of, LeftOf;
    assert LeftOf(q.left, t) + batch + [] == LeftOf(q.left, t) + batch;
    assert LeftOf(q.left, t) + [] == LeftOf(q.left, t);
  }

  lemma AddKeepsInv(q: Queue, r: Request, now: nat)
    requires Inv(q)
    ensures Inv(Add(q, r, now))
  {
    forall t ensures Of(Add(q, r, now).accepted, t) == LeftOf(Add(q, r, now).left, t) + PendingOf(Add(q, r, now), t) {
      OfSnoc(q.accepted, r, t);
      AddMoves(q, r, now, t);
      hide Add, Of, LeftOf, PendingOf;
      Regroup(LeftOf(q.left, t), PendingOf(q, t), r);
      assert Of(q.accepted, t) + [] == Of(q.accepted, t);
    }
  }

  lemma Regroup(a: seq<Request>, b: seq<Request>, r: Request)
    ensures a + b + [r] == a + (b + [r])
  {
  }

  lemma {:induction false} TakeOutKeepsInv(q: Queue, ts: seq<string>, now: nat)
    requires Inv(q)
    ensures Inv(TakeOut(q, ts, now))
  {
    if ts != [] {
      var q1, q' := TakeOut(q, ts[..|ts| - 1], now), TakeOut(q, ts, now);
      TakeOutKeepsInv(q, ts[..|ts| - 1], now);
      forall t ensures Of(q'.accepted, t) == LeftOf(q'.left, t) + PendingOf(q', t) {
        assert Of(q1.accepted, t) == LeftOf(q1.left, t) + PendingOf(q1, t);
        if q' != q1 {
          LeftSnoc(q1.left, q'.left[|q'.left| - 1], t);
        }
      }
    }
  }

  /** Taking out removes exactly the named tenants and keeps every other batch as it is. */
  lemma {:induction false} TakeOutPending(q: Queue, ts: seq<string>, now: nat)
    ensures var q' := TakeOut(q, ts, now);
      && q'.pending == (map t | t in q.pending && t !in ts :: q.pending[t])
      && q'.maxSize == q.maxSize && q'.maxWaitMs == q.maxWaitMs && q'.accepted == q.accepted
  {
    if ts != [] {
      TakeOutPending(q, ts[..|ts| - 1], now);
      assert ts == ts[..|ts| - 1] + [ts[|ts| - 1]];
    }
  }

  lemma {:induction false} ReadyMembers(q: Queue, order: seq<string>, now: nat)
    requires Started(q, now) && forall t :: t in order ==> t in q.pending
    ensures forall t :: t in ReadyOnes(q, order, now) <==> t in order && Ready(q, t, now)
  {
    if order != [] {
      ReadyMembers(q, order[..|order| - 1], now);
      assert order == order[..|order| - 1] + [order[|order| - 1]];
    }
  }

  // Runs.

  datatype Op =
    | Submit(r: Request, at: nat)
    | Drain(order: seq<string>, at: nat)
    | DrainAll(order: seq<string>, at: nat)

  /** `panicked` tells that a drain found its assertion false. */
  datatype Run = Run(q: Queue, now: nat, lastDrain: nat, panicked: bool)

  /** The operation can be called next: time does not run back and the map is walked completely. */
  ghost predicate Callable(s: Run, op: Op) {
    && !s.panicked
    && Started(s.q, s.now)
    && s.now <= op.at
    && match op
       case Submit(r, _) => r.hostname != ""
       case Drain(order, _) => Enumerates(order, s.q.pending)
       case DrainAll(order, _) => Enumerates(order, s.q.pending)
  }

  ghost function Next(s: Run, op: Op): Run
    requires Callable(s, op)
  {
    match op
    case Submit(r, at) => s.(q := Add(s.q, r, at), now := at)
    case Drain(order, at) =>
      if Overdue(s.q, at) then s.(now := at, panicked := true)
      else s.(q := TakeOut(s.q, ReadyOnes(s.q, order, at), at), now := at, lastDrain := at)
    case DrainAll(order, at) => s.(q := TakeOut(s.q, order, at), now := at, lastDrain := at)
  }

  ghost predicate RunInv(s: Run) {
    Inv(s.q) && Started(s.q, s.now) && s.lastDrain <= s.now
  }

  lemma NextKeepsInv(s: Run, op: Op)
    requires RunInv(s) && Callable(s, op)
    ensures RunInv(Next(s, op))
  {
    match op
    case Submit(r, at) => AddKeepsInv(s.q, r, at);
    case Drain(order, at) =>
      if !Overdue(s.q, at) {
        TakeOutKeepsInv(s.q, ReadyOnes(s.q, order, at), at);
        TakeOutPending(s.q, ReadyOnes(s.q, order, at), at);
      }
    case DrainAll(order, at) =>
      TakeOutKeepsInv(s.q, order, at);
      TakeOutPending(s.q, order, at);
  }

  // Latency.

  /** The operation comes at most `gap` after the last drain. */
  predicate Punctual(s: Run, op: Op, gap: nat) {
    op.at <= s.lastDrain + gap
  }

  /** The longest gap that the assertion on the age of a batch allows. */
  function MaxGap(maxWaitMs: nat): nat {
    (maxWaitMs + 1) * NANOS_PER_MS
  }

  /** At the last drain no pending batch had waited the maximum wait, and none that left had waited that
      and the gap. */
  ghost predicate Fresh(s: Run, gap: nat) {
    && !s.panicked
    && (forall t :: t in s.q.pending ==> s.lastDrain < s.q.pending[t].createdAt + s.q.maxWaitMs * NANOS_PER_MS)
    && (forall i :: 0 <= i < |s.q.left| ==> s.q.left[i].at < s.q.left[i].since + s.q.maxWaitMs * NANOS_PER_MS + gap)
  }

  lemma YoungEnough(b: Pending, maxWaitMs: nat, gap: nat, last: nat, now: nat)
    requires 1 <= maxWaitMs <= 1000 && b.createdAt <= now && gap <= MaxGap(maxWaitMs)
    requires last < b.createdAt + maxWaitMs * NANOS_PER_MS && now <= last + gap
    ensures now < b.createdAt + maxWaitMs * NANOS_PER_MS + gap
    ensures AgeMs(b, now) <= 2 * maxWaitMs
    ensures AgeMs(b, now) < maxWaitMs ==> now < b.createdAt + maxWaitMs * NANOS_PER_MS
  {
    var age := now - b.createdAt;
    assert age < (2 * maxWaitMs + 1) * NANOS_PER_MS;
    assert age / NANOS_PER_MS <= 2 * maxWaitMs;
  }

  lemma {:induction false} TakeOutFresh(q: Queue, ts: seq<string>, now: nat, limit: nat)
    requires forall i :: 0 <= i < |q.left| ==> q.left[i].at < q.left[i].since + limit
    requires forall t :: t in q.pending ==> now < q.pending[t].createdAt + limit
    ensures var q' := TakeOut(q, ts, now);
      forall i :: 0 <= i < |q'.left| ==> q'.left[i].at < q'.left[i].since + limit
  {
    if ts != [] {
      TakeOutFresh(q, ts[..|ts| - 1], now, limit);
      TakeOutPending(q, ts[..|ts| - 1], now);
    }
  }

  lemma NextStaysFresh(s: Run, op: Op, gap: nat)
    requires RunInv(s) && Fresh(s, gap) && Callable(s, op) && Punctual(s, op, gap) && gap <= MaxGap(s.q.maxWaitMs)
    ensures Fresh(Next(s, op), gap)
  {
    var limit := s.q.maxWaitMs * NANOS_PER_MS + gap;
    forall t | t in s.q.pending
      ensures op.at < s.q.pending[t].createdAt + limit
      ensures AgeMs(s.q.pending[t], op.at) <= 2 * s.q.maxWaitMs
      ensures AgeMs(s.q.pending[t], op.at) < s.q.maxWaitMs ==>
        op.at < s.q.pending[t].createdAt + s.q.maxWaitMs * NANOS_PER_MS
    {
      YoungEnough(s.q.pending[t], s.q.maxWaitMs, gap, s.lastDrain, op.at);
    }
    match op
    case Submit(r, at) =>
    case Drain(order, at) =>
      TakeOutFresh(s.q, ReadyOnes(s.q, order, at), at, limit);
      TakeOutPending(s.q, ReadyOnes(s.q, order, at), at);
      ReadyMembers(s.q, order, at);
    case DrainAll(order, at) =>
      TakeOutFresh(s.q, order, at, limit);
      TakeOutPending(s.q, order, at);
  }

  /** The state after these operations on an empty queue, if each could be called in its turn. */
  ghost function After(maxSize: nat, maxWaitMs: nat, ops: seq<Op>): Option<Run> {
    if ops == [] then Some(Run(Empty(maxSize, maxWaitMs), 0, 0, false)) else
      match After(maxSize, maxWaitMs, ops[..|ops| - 1])
      case None => None
      case Some(s) => if Callable(s, ops[|ops| - 1]) then Some(Next(s, ops[|ops| - 1])) else None
  }

  /** Every operation of the run came at most `gap` after the drain before it. */
  ghost predicate AllPunctual(maxSize: nat, maxWaitMs: nat, ops: seq<Op>, gap: nat) {
    ops == [] ||
    (AllPunctual(maxSize, maxWaitMs, ops[..|ops| - 1], gap) &&
     match After(maxSize, maxWaitMs, ops[..|ops| - 1])
     case Some(s) => Punctual(s, ops[|ops| - 1], gap)
     case None => true)
  }

  /** On every run, for every tenant, the requests accepted are those that left in batches, each batch
      once, then those pending, in arrival order: none is lost, doubled or given to another tenant. A
      batch that filled up left with exactly the maximum size, any other with one request or more and
      fewer than the maximum, and so do the pending ones hold. */
  lemma {:induction false} Accounting(maxSize: nat, maxWaitMs: nat, ops: seq<Op>)
    requires 1 <= maxSize <= 1000 && 1 <= maxWaitMs <= 1000
    requires After(maxSize, maxWaitMs, ops).Some?
    ensures RunInv(After(maxSize, maxWaitMs, ops).value)
  {
    if ops == [] {
    } else {
      Accounting(maxSize, maxWaitMs, ops[..|ops| - 1]);
      NextKeepsInv(After(maxSize, maxWaitMs, ops[..|ops| - 1]).value, ops[|ops| - 1]);
    }
  }

  lemma {:induction false} SameLimits(maxSize: nat, maxWaitMs: nat, ops: seq<Op>)
    requires After(maxSize, maxWaitMs, ops).Some?
    ensures var q := After(maxSize, maxWaitMs, ops).value.q; q.maxSize == maxSize && q.maxWaitMs == maxWaitMs
  {
    if ops != [] {
      var op := ops[|ops| - 1];
      SameLimits(maxSize, maxWaitMs, ops[..|ops| - 1]);
      var s := After(maxSize, maxWaitMs, ops[..|ops| - 1]).value;
      if op.Drain? && !Overdue(s.q, op.at) {
        TakeOutPending(s.q, ReadyOnes(s.q, op.order, op.at), op.at);
      } else if op.DrainAll? {
        TakeOutPending(s.q, op.order, op.at);
      }
    }
  }

  lemma {:induction false} StaysFresh(maxSize: nat, maxWaitMs: nat, ops: seq<Op>, gap: nat)
    requires 1 <= maxSize <= 1000 && 1 <= maxWaitMs <= 1000 && gap <= MaxGap(maxWaitMs)
    requires After(maxSize, maxWaitMs, ops).Some? && AllPunctual(maxSize, maxWaitMs, ops, gap)
    ensures Fresh(After(maxSize, maxWaitMs, ops).value, gap)
  {
    if ops != [] {
      StaysFresh(maxSize, maxWaitMs, ops[..|ops| - 1], gap);
      Accounting(maxSize, maxWaitMs, ops[..|ops| - 1]);
      SameLimits(maxSize, maxWaitMs, ops[..|ops| - 1]);
      hide Fresh, RunInv, Callable, Next;
      NextStaysFresh(After(maxSize, maxWaitMs, ops[..|ops| - 1]).value, ops[|ops| - 1], gap);
    }
  }

  /** If no operation comes more than `gap` after the last drain, no drain fails, every batch that left had
      waited less than the maximum wait and the gap, and until the next drain is due no pending batch
      reaches that age. A gap of the maximum wait makes this twice the maximum wait. */
  lemma Latency(maxSize: nat, maxWaitMs: nat, ops: seq<Op>, gap: nat, at: nat)
    requires 1 <= maxSize <= 1000 && 1 <= maxWaitMs <= 1000 && gap <= MaxGap(maxWaitMs)
    requires After(maxSize, maxWaitMs, ops).Some? && AllPunctual(maxSize, maxWaitMs, ops, gap)
    requires var s := After(maxSize, maxWaitMs, ops).value;
      s.now <= at <= s.lastDrain + gap
    ensures var s := After(maxSize, maxWaitMs, ops).value; var limit := maxWaitMs * NANOS_PER_MS + gap;
      && !s.panicked
      && (forall i :: 0 <= i < |s.q.left| ==> s.q.left[i].at - s.q.left[i].since < limit)
      && (forall t :: t in s.q.pending ==> at - s.q.pending[t].createdAt < limit)
  {
    StaysFresh(maxSize, maxWaitMs, ops, gap);
    SameLimits(maxSize, maxWaitMs, ops);
  }

  // When a drain fails.

  /** The age of the batch, without its whole multiples of 2^32 ms, is more than twice the maximum wait. */
  predicate LateInCycle(b: Pending, maxWaitMs: nat, at: nat, cycle: nat) {
    (cycle * U32_SIZE + 2 * maxWaitMs + 1) * NANOS_PER_MS <= at - b.createdAt < (cycle + 1) * U32_SIZE * NANOS_PER_MS
  }

  lemma AgeInCycle(b: Pending, maxWaitMs: nat, at: nat)
    requires b.createdAt <= at
    ensures AgeMs(b, at) > 2 * maxWaitMs <==> exists cycle: nat :: LateInCycle(b, maxWaitMs, at, cycle)
  {
    var ms := (at - b.createdAt) / NANOS_PER_MS;
    if AgeMs(b, at) > 2 * maxWaitMs {
      assert LateInCycle(b, maxWaitMs, at, ms / U32_SIZE);
    }
    forall cycle: nat | LateInCycle(b, maxWaitMs, at, cycle) ensures AgeMs(b, at) > 2 * maxWaitMs {
      assert cycle * U32_SIZE + 2 * maxWaitMs + 1 <= ms < (cycle + 1) * U32_SIZE;
      CycleRemainder(ms, cycle);
    }
  }

  lemma CycleRemainder(ms: nat, cycle: nat)
    requires cycle * U32_SIZE <= ms < (cycle + 1) * U32_SIZE
    ensures ms % U32_SIZE == ms - cycle * U32_SIZE
  {
  }

  /** After every run, a drain fails exactly when some pending batch is older than twice the maximum wait,
      not counting whole multiples of 2^32 ms of its age. */
  lemma DrainPanicsExactly(maxSize: nat, maxWaitMs: nat, ops: seq<Op>, order: seq<string>, at: nat)
    requires After(maxSize, maxWaitMs, ops).Some? && Callable(After(maxSize, maxWaitMs, ops).value, Drain(order, at))
    ensures var s := After(maxSize, maxWaitMs, ops).value;
      Next(s, Drain(order, at)).panicked <==>
        exists t, cycle: nat :: t in s.q.pending && LateInCycle(s.q.pending[t], maxWaitMs, at, cycle)
  {
    SameLimits(maxSize, maxWaitMs, ops);
    var s := After(maxSize, maxWaitMs, ops).value;
    hide LateInCycle, AgeMs, After;
    forall t | t in s.q.pending
      ensures AgeMs(s.q.pending[t], at) > 2 * maxWaitMs <==>
        exists cycle: nat :: LateInCycle(s.q.pending[t], maxWaitMs, at, cycle)
    {
      AgeInCycle(s.q.pending[t], maxWaitMs, at);
    }
  }

  /** After every run: a drain that finds a batch more than twice the maximum wait old, and less than
      2^32 ms, fails. */
  lemma LateDrainPanics(maxSize: nat, maxWaitMs: nat, ops: seq<Op>, order: seq<string>, at: nat, t: string)
    requires After(maxSize, maxWaitMs, ops).Some? && Callable(After(maxSize, maxWaitMs, ops).value, Drain(order, at))
    requires var pending := After(maxSize, maxWaitMs, ops).value.q.pending;
      t in pending && (2 * maxWaitMs + 1) * NANOS_PER_MS <= at - pending[t].createdAt < U32_SIZE * NANOS_PER_MS
    ensures Next(After(maxSize, maxWaitMs, ops).value, Drain(order, at)).panicked
  {
    DrainPanicsExactly(maxSize, maxWaitMs, ops, order, at);
    assert LateInCycle(After(maxSize, maxWaitMs, ops).value.q.pending[t], maxWaitMs, at, 0);
  }

  /** After every run: a drain that does not fail takes out exactly the batches that have waited the maximum
      wait since their first request, as long as none has waited 2^32 ms. */
  lemma DrainTakesExactly(maxSize: nat, maxWaitMs: nat, ops: seq<Op>, order: seq<string>, at: nat, t: string)
    requires 1 <= maxSize <= 1000 && 1 <= maxWaitMs <= 1000
    requires After(maxSize, maxWaitMs, ops).Some? && Callable(After(maxSize, maxWaitMs, ops).value, Drain(order, at))
    requires var s := After(maxSize, maxWaitMs, ops).value;
      t in s.q.pending && at - s.q.pending[t].createdAt < 0x1_0000_0000 * 1_000_000
    ensures var s := After(maxSize, maxWaitMs, ops).value;
      var s' := Next(s, Drain(order, at));
      !s'.panicked ==> (t in s'.q.pending <==> at - s.q.pending[t].createdAt < maxWaitMs * 1_000_000)
  {
    var s := After(maxSize, maxWaitMs, ops).value;
    Accounting(maxSize, maxWaitMs, ops);
    SameLimits(maxSize, maxWaitMs, ops);
    assert |s.q.pending[t].requests| < maxSize;
    ReadyMembers(s.q, order, at);
    TakeOutPending(s.q, ReadyOnes(s.q, order, at), at);
    YoungerThan(s.q.pending[t], maxWaitMs, at);
    hide AgeMs, After, TakeOut, ReadyOnes, RunInv;
  }

  lemma YoungerThan(b: Pending, ms: nat, at: nat)
    requires b.createdAt <= at && at - b.createdAt < 0x1_0000_0000 * 1_000_000
    ensures AgeMs(b, at) < ms <==> at - b.createdAt < ms * 1_000_000
  {
    var age := (at - b.createdAt) / NANOS_PER_MS;
    assert age < U32_SIZE;
  }

  /** Some operation of the run submitted this request at this instant. */
  ghost predicate Submitted(ops: seq<Op>, r: Request, at: nat) {
    exists k :: 0 <= k < |ops| && ops[k] == Submit(r, at)
  }

  /** A pending batch is as old as its first request; so was every batch that left. */
  ghost predicate AgesRight(q: Queue, ops: seq<Op>) {
    && (forall t :: t in q.pending && q.pending[t].requests != [] ==>
          Submitted(ops, q.pending[t].requests[0], q.pending[t].createdAt))
    && (forall i :: 0 <= i < |q.left| && q.left[i].requests != [] ==>
          Submitted(ops, q.left[i].requests[0], q.left[i].since))
  }

  lemma {:induction false} TakeOutKeepsAges(q: Queue, ts: seq<string>, now: nat, ops: seq<Op>)
    requires AgesRight(q, ops)
    ensures AgesRight(TakeOut(q, ts, now), ops)
  {
    hide Submitted;
    if ts != [] { TakeOutKeepsAges(q, ts[..|ts| - 1], now, ops); }
  }

  lemma MoreOps(q: Queue, ops: seq<Op>, op: Op)
    requires AgesRight(q, ops)
    ensures AgesRight(q, ops + [op])
  {
    forall r, at | Submitted(ops, r, at) ensures Submitted(ops + [op], r, at) {
      var k :| 0 <= k < |ops| && ops[k] == Submit(r, at);
      assert (ops + [op])[k] == Submit(r, at);
    }
    hide Submitted;
  }

  lemma AddKeepsAges(q: Queue, r: Request, now: nat, ops: seq<Op>)
    requires Sized(q) && AgesRight(q, ops) && Submitted(ops, r, now)
    ensures AgesRight(Add(q, r, now), ops)
  {
    hide Submitted;
  }

  /** After every run the age of a batch counts from the submission of its first request. */
  lemma {:induction false} AgesCountFromFirst(maxSize: nat, maxWaitMs: nat, ops: seq<Op>)
    requires 1 <= maxSize <= 1000 && 1 <= maxWaitMs <= 1000 && After(maxSize, maxWaitMs, ops).Some?
    ensures AgesRight(After(maxSize, maxWaitMs, ops).value.q, ops)
  {
    if ops != [] {
      var init, op := ops[..|ops| - 1], ops[|ops| - 1];
      var s := After(maxSize, maxWaitMs, init).value;
      AgesCountFromFirst(maxSize, maxWaitMs, init);
      Accounting(maxSize, maxWaitMs, init);
      MoreOps(s.q, init, op);
      assert init + [op] == ops;
      hide AgesRight;
      match op
      case Submit(r, at) =>
        assert Submitted(ops, r, at);
        AddKeepsAges(s.q, r, at, ops);
      case Drain(order, at) =>
        if !Overdue(s.q, at) { TakeOutKeepsAges(s.q, ReadyOnes(s.q, order, at), at, ops); }
      case DrainAll(order, at) => TakeOutKeepsAges(s.q, order, at, ops);
    }
  }

  // Runs of one request and drains of its tenant.

  lemma AfterOneMore(maxSize: nat, maxWaitMs: nat, ops: seq<Op>, op: Op, gap: nat)
    requires After(maxSize, maxWaitMs, ops).Some? && Callable(After(maxSize, maxWaitMs, ops).value, op)
    ensures After(maxSize, maxWaitMs, ops + [op]) == Some(Next(After(maxSize, maxWaitMs, ops).value, op))
    ensures AllPunctual(maxSize, maxWaitMs, ops, gap) && Punctual(After(maxSize, maxWaitMs, ops).value, op, gap) ==>
      AllPunctual(maxSize, maxWaitMs, ops + [op], gap)
  {
    assert (ops + [op])[..|ops + [op]| - 1] == ops;
  }

  lemma OneRequest(maxSize: nat, maxWaitMs: nat, r: Request, gap: nat)
    requires 2 <= maxSize && r.hostname != ""
    ensures var ops := [Submit(r, 0)];
      && After(maxSize, maxWaitMs, ops) ==
         Some(Run(Queue(maxSize, maxWaitMs, map[r.hostname := Pending([r], 0)], [r], []), 0, 0, false))
      && AllPunctual(maxSize, maxWaitMs, ops, gap)
  {
    AfterOneMore(maxSize, maxWaitMs, [], Submit(r, 0), gap);
    assert [] + [Submit(r, 0)] == [Submit(r, 0)] && [] + [r] == [r];
  }

  /** The shortest run that fails, and one in which a much later drain neither fails nor returns anything. */
  lemma LateAndMuchLater(maxSize: nat, maxWaitMs: nat, r: Request)
    requires 2 <= maxSize <= 1000 && 1 <= maxWaitMs <= 1000 && r.hostname != ""
    ensures var late := (2 * maxWaitMs + 1) * NANOS_PER_MS;
      var end := After(maxSize, maxWaitMs, [Submit(r, 0), Drain([r.hostname], late)]);
      end.Some? && end.value.panicked
    ensures var end := After(maxSize, maxWaitMs, [Submit(r, 0), Drain([r.hostname], U32_SIZE * NANOS_PER_MS)]);
      end.Some? && !end.value.panicked && end.value.q.pending == map[r.hostname := Pending([r], 0)]
  {
    var late, wrapped := (2 * maxWaitMs + 1) * NANOS_PER_MS, U32_SIZE * NANOS_PER_MS;
    var first := [Submit(r, 0)];
    var b := Pending([r], 0);
    OneRequest(maxSize, maxWaitMs, r, 0);
    var s := After(maxSize, maxWaitMs, first).value;
    assert AgeMs(b, late) == 2 * maxWaitMs + 1 && AgeMs(b, wrapped) == 0;
    AfterOneMore(maxSize, maxWaitMs, first, Drain([r.hostname], late), 0);
    AfterOneMore(maxSize, maxWaitMs, first, Drain([r.hostname], wrapped), 0);
    assert first + [Drain([r.hostname], late)] == [Submit(r, 0), Drain([r.hostname], late)];
    assert first + [Drain([r.hostname], wrapped)] == [Submit(r, 0), Drain([r.hostname], wrapped)];
    NotReady(s.q, r.hostname, wrapped);
  }

  lemma NotReady(q: Queue, t: string, now: nat)
    requires q.pending.Keys == {t} && Started(q, now) && !Ready(q, t, now)
    ensures TakeOut(q, ReadyOnes(q, [t], now), now) == q
  {
    assert [t][..0] == [];
    assert ReadyOnes(q, [t], now) == [];
  }

  /** With a longer gap: a batch just too young for one drain is too old for the next. */
  lemma LongGapPanics(maxSize: nat, maxWaitMs: nat, gap: nat, r: Request) returns (ops: seq<Op>)
    requires 2 <= maxSize <= 1000 && 1 <= maxWaitMs <= 1000 && r.hostname != "" && gap > MaxGap(maxWaitMs)
    ensures AllPunctual(maxSize, maxWaitMs, ops, gap)
    ensures After(maxSize, maxWaitMs, ops).Some? && After(maxSize, maxWaitMs, ops).value.panicked
  {
    var t, b := r.hostname, Pending([r], 0);
    var young, old_ := maxWaitMs * NANOS_PER_MS - 1, (2 * maxWaitMs + 1) * NANOS_PER_MS;
    OneRequest(maxSize, maxWaitMs, r, gap);
    ops := [Submit(r, 0)];
    var s := After(maxSize, maxWaitMs, ops).value;
    assert AgeMs(b, young) == maxWaitMs - 1 && AgeMs(b, old_) == 2 * maxWaitMs + 1;
    NotReady(s.q, t, young);
    AfterOneMore(maxSize, maxWaitMs, ops, Drain([t], young), gap);
    ops := ops + [Drain([t], young)];
    assert After(maxSize, maxWaitMs, ops) == Some(s.(now := young, lastDrain := young));
    AfterOneMore(maxSize, maxWaitMs, ops, Drain([t], old_), gap);
    ops := ops + [Drain([t], old_)];
  }

  /** How punctual the drains must be: no run whose operations come at most `gap` after the last drain ever
      fails exactly when the gap is at most one millisecond more than the maximum wait, or every request
      fills its batch alone. */
  lemma PunctualityExactly(maxSize: nat, maxWaitMs: nat, gap: nat)
    requires 1 <= maxSize <= 1000 && 1 <= maxWaitMs <= 1000
    ensures (forall ops :: AllPunctual(maxSize, maxWaitMs, ops, gap) && After(maxSize, maxWaitMs, ops).Some? ==>
               !After(maxSize, maxWaitMs, ops).value.panicked)
            <==> maxSize == 1 || gap <= MaxGap(maxWaitMs)
  {
    if maxSize == 1 {
      forall ops | After(maxSize, maxWaitMs, ops).Some? ensures !After(maxSize, maxWaitMs, ops).value.panicked {
        NothingPendsAlone(maxWaitMs, ops);
      }
    } else if gap <= MaxGap(maxWaitMs) {
      forall ops | AllPunctual(maxSize, maxWaitMs, ops, gap) && After(maxSize, maxWaitMs, ops).Some?
        ensures !After(maxSize, maxWaitMs, ops).value.panicked
      {
        StaysFresh(maxSize, maxWaitMs, ops, gap);
      }
    } else {
      var ops := LongGapPanics(maxSize, maxWaitMs, gap, Request("a", 0));
    }
  }

  lemma {:induction false} NothingPendsAlone(maxWaitMs: nat, ops: seq<Op>)
    requires 1 <= maxWaitMs <= 1000 && After(1, maxWaitMs, ops).Some?
    ensures !After(1, maxWaitMs, ops).value.panicked
  {
    if ops != [] {
      var init := ops[..|ops| - 1];
      NothingPendsAlone(maxWaitMs, init);
      Accounting(1, maxWaitMs, init);
      SameLimits(1, maxWaitMs, init);
      assert After(1, maxWaitMs, init).value.q.pending == map[];
    }
  }
}
