/** The batch queue of the control plane, updated in place. */
module Batches {
  import opened Wrappers
  import opened MapOrders
  import opened BatchSpec

  class BatchQueue {
    const maxBatchSize: nat
    const maxBatchWaitMs: nat
    var pending: map<string, Pending>

    // What entered and what left. A batch that fills up is handed to nobody.
    ghost var accepted: seq<Request>
    ghost var left: seq<Leaving>

    ghost function View(): Queue
      reads this
    {
      Queue(maxBatchSize, maxBatchWaitMs, pending, accepted, left)
    }

    constructor (maxBatchSize: nat, maxBatchWaitMs: nat)
      requires 1 <= maxBatchSize <= 1000 && 1 <= maxBatchWaitMs <= 1000
      ensures View() == Empty(maxBatchSize, maxBatchWaitMs) && Inv(View())
    {
      this.maxBatchSize, this.maxBatchWaitMs := maxBatchSize, maxBatchWaitMs;
      pending, accepted, left := map[], [], [];
    }

    /** Returns the size of the batch, or of the batch it completed. */
    method AddToBatch(request: Request, now: nat) returns (size: nat)
      requires Inv(View()) && request.hostname != ""
      modifies this
      ensures View() == Add(old(View()), request, now) && Inv(View())
      ensures size == |PendingOf(old(View()), request.hostname)| + 1 <= maxBatchSize
      ensures size == maxBatchSize <==> request.hostname !in pending
    {
      AddKeepsInv(View(), request, now);
      var tenant := request.hostname;
      assert |PendingOf(View(), tenant)| < maxBatchSize;
      assert tenant in pending ==> pending[tenant].requests == PendingOf(View(), tenant);
      hide Inv, Add;
      if tenant !in pending {
        pending := pending[tenant := Pending([], now)];
      }
      var batch := pending[tenant];
      assert |batch.requests| < maxBatchSize;
      batch := batch.(requests := batch.requests + [request]);
      pending := pending[tenant := batch];
      assert pending == old(pending)[tenant := batch];
      accepted := accepted + [request];
      size := |batch.requests|;
      AddForms(old(View()), request, now, batch);
      if size >= maxBatchSize {
        size := FlushBatch(tenant, now);
        assert pending == old(pending) - {tenant};
      }
    }

    /** Drops the batch of a tenant and tells only its size. */
    method FlushBatch(tenant: string, ghost now: nat) returns (size: nat)
      requires tenant in pending ==> pending[tenant].requests != []
      modifies this`pending, this`left
      ensures size == |PendingOf(old(View()), tenant)|
      ensures pending == old(pending) - {tenant}
      ensures left == if tenant !in old(pending) then old(left) else
        old(left) + [Leaving(tenant, old(pending)[tenant].requests, true, old(pending)[tenant].createdAt, now)]
    {
      size := 0;
      if tenant in pending {
        var batch := pending[tenant];
        pending := pending - {tenant};
        left := left + [Leaving(tenant, batch.requests, true, batch.createdAt, now)];
        assert batch.requests != [];
        size := |batch.requests|;
      }
    }

    /** None when the assertion on the age of a batch fails. */
    method DrainReadyBatches(order: seq<string>, now: nat) returns (ready: Option<seq<Batch>>)
      requires Inv(View()) && Started(View(), now) && Enumerates(order, pending)
      modifies this
      ensures Inv(View())
      ensures Overdue(old(View()), now) ==> ready == None && View() == old(View())
      ensures !Overdue(old(View()), now) ==>
        && View() == TakeOut(old(View()), ReadyOnes(old(View()), order, now), now)
        && ready == Some(Handed(old(View()), ReadyOnes(old(View()), order, now), now))
      ensures ready.Some? ==> HandsOver(ready.value, old(pending), pending)
      ensures ready.Some? ==> forall i :: 0 <= i < |ready.value| ==> ready.value[i].createdAt == now
      ensures ready.Some? ==> forall t :: t in old(pending) ==>
        (t in pending <==> AgeMs(old(pending)[t], now) < maxBatchWaitMs)
    {
      var toRemove := [];
      for i := 0 to |order|
        invariant View() == old(View())
        invariant toRemove == ReadyOnes(View(), order[..i], now)
        invariant forall j :: 0 <= j < i ==> AgeMs(pending[order[j]], now) <= 2 * maxBatchWaitMs
      {
        assert order[i] in pending;
        assert order[..i + 1][..i] == order[..i];
        var batch := pending[order[i]];
        var ageMs := AgeMs(batch, now);
        if !(ageMs <= maxBatchWaitMs * 2) {
          return None;
        }
        if |batch.requests| >= maxBatchSize || ageMs >= maxBatchWaitMs {
          toRemove := toRemove + [order[i]];
        }
      }
      assert order[..|order|] == order;
      forall t | t in pending ensures AgeMs(pending[t], now) <= 2 * maxBatchWaitMs {
        assert t in order;
      }
      ReadyMembers(View(), order, now);
      ReadyDistinct(View(), order, now);
      ghost var q := View();
      var out := RemoveBatches(toRemove, now);
      ready := Some(out);
      RemainUnready(q, order, now);
      hide TakeOut, ReadyOnes, Inv, Overdue;
    }

    /** Removes the batches of these tenants and hands them out as made now. */
    method RemoveBatches(tenants: seq<string>, now: nat) returns (ready: seq<Batch>)
      requires Inv(View()) && NoDuplicates(tenants) && forall t :: t in tenants ==> t in pending
      modifies this
      ensures Inv(View()) && View() == TakeOut(old(View()), tenants, now)
      ensures ready == Handed(old(View()), tenants, now)
      ensures HandsOver(ready, old(pending), pending) && forall i :: 0 <= i < |ready| ==> ready[i].createdAt == now
    {
      ready := [];
      for i := 0 to |tenants|
        invariant View() == TakeOut(old(View()), tenants[..i], now)
        invariant ready == Handed(old(View()), tenants[..i], now)
      {
        TakeOutPending(old(View()), tenants[..i], now);
        assert tenants[..i + 1][..i] == tenants[..i];
        var t := tenants[i];
        assert t !in tenants[..i];
        if t in pending {
          var batch := pending[t];
          pending := pending - {t};
          left := left + [Leaving(t, batch.requests, false, batch.createdAt, now)];
          ready := ready + [Batch(t, batch.requests, now)];
        }
      }
      assert tenants[..|tenants|] == tenants;
      TakeOutKeepsInv(old(View()), tenants, now);
      HandedIsHandedOver(old(View()), tenants, now);
    }

    /** Hands out everything, each batch with the time its first request came. */
    method DrainAllBatches(order: seq<string>, ghost now: nat) returns (ready: seq<Batch>)
      requires Inv(View()) && Enumerates(order, pending)
      modifies this
      ensures Inv(View()) && View() == TakeOut(old(View()), order, now) && pending == map[]
      ensures |ready| == |order|
      ensures forall i :: 0 <= i < |order| ==>
        ready[i] == Batch(order[i], old(pending)[order[i]].requests, old(pending)[order[i]].createdAt)
    {
      ghost var q := View();
      TakeOutKeepsInv(q, order, now);
      TakeOutPending(q, order, now);
      assert TakeOut(q, order[..0], now) == q && TakeOut(q, order, now).pending == map[];
      assert forall i :: 0 <= i < |order| ==> order[i] in q.pending && q.pending[order[i]].requests != [];
      hide TakeOut, Inv, NoDuplicates, Enumerates;
      ready := [];
      for i := 0 to |order|
        invariant View() == TakeOut(q, order[..i], now)
        invariant |ready| == i && forall j :: 0 <= j < i ==> ready[j] == Whole(q, order[j])
      {
        OneMoreOut(q, order, i, now);
        var t := order[i];
        var batch := pending[t];
        pending := pending - {t};
        left := left + [Leaving(t, batch.requests, false, batch.createdAt, now)];
        if batch.requests != [] {
          ready := ready + [Batch(t, batch.requests, batch.createdAt)];
        }
      }
      assert order[..|order|] == order;
    }
  }

  /** The pending batch of this tenant. */
  function Whole(q: Queue, t: string): Batch
    requires t in q.pending
  {
    Batch(t, q.pending[t].requests, q.pending[t].createdAt)
  }

  /** What an addition leaves, by whether it fills the batch. */
  lemma AddForms(q: Queue, r: Request, now: nat, batch: Pending)
    requires batch.requests == PendingOf(q, r.hostname) + [r]
    requires batch.createdAt == if r.hostname in q.pending then q.pending[r.hostname].createdAt else now
    ensures var q' := Add(q, r, now);
      && q'.maxSize == q.maxSize && q'.maxWaitMs == q.maxWaitMs && q'.accepted == q.accepted + [r]
      && (|batch.requests| < q.maxSize ==> q'.pending == q.pending[r.hostname := batch] && q'.left == q.left)
      && (|batch.requests| >= q.maxSize ==>
            && q'.pending == q.pending - {r.hostname}
            && q'.left == q.left + [Leaving(r.hostname, batch.requests, true, batch.createdAt, now)])
  {
  }

  lemma OneMoreOut(q: Queue, order: seq<string>, i: nat, now: nat)
    requires i < |order| && NoDuplicates(order) && order[i] in q.pending
    ensures var q', t := TakeOut(q, order[..i], now), order[i];
      && t in q'.pending && q'.pending[t] == q.pending[t]
      && TakeOut(q, order[..i + 1], now) ==
         q'.(pending := q'.pending - {t},
             left := q'.left + [Leaving(t, q.pending[t].requests, false, q.pending[t].createdAt, now)])
  {
    TakeOutPending(q, order[..i], now);
    assert order[..i + 1][..i] == order[..i];
    assert order[i] !in order[..i];
  }

  /** What was handed out is what is gone: each tenant once, with its requests, at least one. */
  ghost predicate HandsOver(batches: seq<Batch>, was: map<string, Pending>, is_: map<string, Pending>) {
    && (forall i :: 0 <= i < |batches| ==>
          && batches[i].tenant in was
          && batches[i].requests == was[batches[i].tenant].requests != [])
    && (forall i, j :: 0 <= i < j < |batches| ==> batches[i].tenant != batches[j].tenant)
    && (forall t :: (exists i :: 0 <= i < |batches| && batches[i].tenant == t) <==> t in was && t !in is_)
    && (forall t :: t in is_ ==> t in was && is_[t] == was[t])
  }

  lemma HandedIsHandedOver(q: Queue, tenants: seq<string>, now: nat)
    requires Inv(q) && NoDuplicates(tenants) && forall t :: t in tenants ==> t in q.pending
    ensures HandsOver(Handed(q, tenants, now), q.pending, TakeOut(q, tenants, now).pending)
  {
    TakeOutPending(q, tenants, now);
    HandedMembers(q, tenants, now);
    hide *;
    GoneAreHanded(Handed(q, tenants, now), tenants, q.pending, TakeOut(q, tenants, now).pending);
  }

  lemma GoneAreHanded(
    batches: seq<Batch>, tenants: seq<string>, was: map<string, Pending>, is_: map<string, Pending>)
    requires NoDuplicates(tenants) && |batches| == |tenants|
    requires forall i :: 0 <= i < |batches| ==>
      batches[i].tenant == tenants[i] && tenants[i] in was && batches[i].requests == was[tenants[i]].requests != []
    requires is_ == map t | t in was && t !in tenants :: was[t]
    ensures HandsOver(batches, was, is_)
  {
    forall i, j | 0 <= i < j < |batches| ensures batches[i].tenant != batches[j].tenant {
      assert tenants[i] != tenants[j];
    }
    forall t ensures (exists i :: 0 <= i < |batches| && batches[i].tenant == t) <==> t in tenants {
      if t in tenants {
        var i :| 0 <= i < |tenants| && tenants[i] == t;
        assert batches[i].tenant == t;
      }
    }
    forall t ensures t in tenants <==> t in was && t !in is_ {
      if t in tenants { var i :| 0 <= i < |tenants| && tenants[i] == t; }
    }
  }

  lemma HandedMembers(q: Queue, tenants: seq<string>, now: nat)
    requires Inv(q) && forall t :: t in tenants ==> t in q.pending
    ensures var batches := Handed(q, tenants, now);
      && |batches| == |tenants|
      && forall i :: 0 <= i < |batches| ==>
        batches[i].tenant == tenants[i] && tenants[i] in q.pending &&
        batches[i].requests == q.pending[tenants[i]].requests != []
  {
    forall i | 0 <= i < |tenants| ensures tenants[i] in q.pending { assert tenants[i] in tenants; }
  }

  lemma RemainUnready(q: Queue, order: seq<string>, now: nat)
    requires Inv(q) && Started(q, now) && Enumerates(order, q.pending)
    ensures forall t :: t in q.pending ==>
      (t in TakeOut(q, ReadyOnes(q, order, now), now).pending <==> AgeMs(q.pending[t], now) < q.maxWaitMs)
  {
    ReadyMembers(q, order, now);
    TakeOutPending(q, ReadyOnes(q, order, now), now);
  }

  /** The batches handed out for these tenants. */
  function Handed(q: Queue, tenants: seq<string>, now: nat): seq<Batch> {
    seq(|tenants|, i requires 0 <= i < |tenants| => Batch(tenants[i], PendingOf(q, tenants[i]), now))
  }

  lemma {:induction false} ReadyDistinct(q: Queue, order: seq<string>, now: nat)
    requires Started(q, now) && NoDuplicates(order) && forall t :: t in order ==> t in q.pending
    ensures NoDuplicates(ReadyOnes(q, order, now))
  {
    if order != [] {
      ReadyDistinct(q, order[..|order| - 1], now);
      ReadyMembers(q, order[..|order| - 1], now);
      assert order[|order| - 1] !in order[..|order| - 1];
    }
  }
}
