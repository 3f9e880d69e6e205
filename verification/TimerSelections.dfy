/** Facts about the order-preserving selections of a timer queue. */
module TimerSelections {
  import opened TimerQueues

  /** How many entries carry registration `reg`. */
  function Tally(es: seq<Entry>, reg: nat): nat {
    if es == [] then 0 else
      Tally(es[..|es| - 1], reg) + if es[|es| - 1].reg == reg then 1 else 0
  }

  lemma TallySnoc(es: seq<Entry>, e: Entry, reg: nat)
    ensures Tally(es + [e], reg) == Tally(es, reg) + if e.reg == reg then 1 else 0
  {
    assert (es + [e])[..|es + [e]| - 1] == es;
  }

  lemma {:induction false} TallyConcat(a: seq<Entry>, b: seq<Entry>, reg: nat)
    ensures Tally(a + b, reg) == Tally(a, reg) + Tally(b, reg)
  {
    if b == [] {
      assert a + b == a;
    } else {
      TallyConcat(a, b[..|b| - 1], reg);
      assert (a + b)[..|a + b| - 1] == a + b[..|b| - 1];
    }
  }

  lemma {:induction false} TallyMember(es: seq<Entry>, reg: nat)
    ensures Tally(es, reg) > 0 <==> exists e :: e in es && e.reg == reg
  {
    if es != [] {
      TallyMember(es[..|es| - 1], reg);
      MembersOfSplit(es);
    }
  }

  lemma TwiceIn(es: seq<Entry>, i: nat, j: nat)
    requires i < j < |es| && es[i].reg == es[j].reg
    ensures Tally(es, es[i].reg) >= 2
  {
    assert es == es[..j] + es[j..];
    TallyConcat(es[..j], es[j..], es[i].reg);
    assert es[..j][i] in es[..j] && es[j..][0] in es[j..];
    TallyMember(es[..j], es[i].reg);
    TallyMember(es[j..], es[i].reg);
  }

  lemma MembersOfSplit(es: seq<Entry>)
    requires es != []
    ensures forall e :: e in es <==> e in es[..|es| - 1] || e == es[|es| - 1]
  {
    assert es == es[..|es| - 1] + [es[|es| - 1]];
  }

  /** Draining splits a queue by deadline. */
  lemma {:induction false} DrainMembers(es: seq<Entry>, now: nat)
    ensures forall e :: e in Due(es, now) <==> e in es && e.deadline <= now
    ensures forall e :: e in Later(es, now) <==> e in es && e.deadline > now
  {
    if es != [] {
      DrainMembers(es[..|es| - 1], now);
      MembersOfSplit(es);
    }
  }

  /** Draining loses and duplicates nothing. */
  lemma {:induction false} DrainTally(es: seq<Entry>, now: nat, reg: nat)
    ensures Tally(Due(es, now), reg) + Tally(Later(es, now), reg) == Tally(es, reg)
  {
    if es != [] {
      var init, last := es[..|es| - 1], es[|es| - 1];
      DrainTally(init, now, reg);
      if last.deadline <= now {
        TallySnoc(Due(init, now), last, reg);
        assert Later(es, now) == Later(init, now);
      } else {
        TallySnoc(Later(init, now), last, reg);
        assert Due(es, now) == Due(init, now);
      }
    }
  }

  /** Removing an id splits a queue by id. */
  lemma {:induction false} RemovalMembers(es: seq<Entry>, id: nat)
    ensures forall e :: e in Without(es, id) <==> e in es && e.id != id
    ensures forall e :: e in WithId(es, id) <==> e in es && e.id == id
  {
    if es != [] {
      RemovalMembers(es[..|es| - 1], id);
      MembersOfSplit(es);
    }
  }

  /** Removing an id loses and duplicates nothing. */
  lemma {:induction false} RemovalTally(es: seq<Entry>, id: nat, reg: nat)
    ensures Tally(Without(es, id), reg) + Tally(WithId(es, id), reg) == Tally(es, reg)
  {
    if es != [] {
      var init, last := es[..|es| - 1], es[|es| - 1];
      RemovalTally(init, id, reg);
      if last.id != id {
        TallySnoc(Without(init, id), last, reg);
        assert WithId(es, id) == WithId(init, id);
      } else {
        TallySnoc(WithId(init, id), last, reg);
        assert Without(es, id) == Without(init, id);
      }
    }
  }

  /** Two entries with one id are removed together. */
  lemma {:induction false} RemovedTogether(es: seq<Entry>, i: nat, j: nat)
    requires i < j < |es| && es[i].id == es[j].id
    ensures |WithId(es, es[i].id)| >= 2
  {
    var init := es[..|es| - 1];
    if j < |es| - 1 {
      RemovedTogether(init, i, j);
    } else {
      RemovalMembers(init, es[i].id);
      assert init[i] in WithId(init, es[i].id);
    }
  }

  /** Where two of the entries removed together stand. */
  lemma {:induction false} FindTwo(es: seq<Entry>, id: nat) returns (i: nat, j: nat)
    requires |WithId(es, id)| >= 2
    ensures i < j < |es| && es[i].id == es[j].id == id
  {
    var init, last := es[..|es| - 1], es[|es| - 1];
    if |WithId(init, id)| >= 2 {
      i, j := FindTwo(init, id);
    } else {
      RemovalMembers(init, id);
      var e := WithId(init, id)[0];
      assert e in WithId(init, id);
      i :| 0 <= i < |init| && init[i] == e;
      j := |init|;
    }
  }

  /** No two entries have the same id. */
  ghost predicate DistinctIds(es: seq<Entry>) {
    forall i, j :: 0 <= i < j < |es| ==> es[i].id != es[j].id
  }

  /** One id removes at most one entry, for every id, exactly when ids differ. */
  lemma RemovesOneExactly(es: seq<Entry>)
    ensures (forall id: nat :: |WithId(es, id)| <= 1) <==> DistinctIds(es)
  {
    if DistinctIds(es) {
      forall id: nat ensures |WithId(es, id)| <= 1 {
        if |WithId(es, id)| >= 2 { var i, j := FindTwo(es, id); }
      }
    } else {
      var i, j :| 0 <= i < j < |es| && es[i].id == es[j].id;
      RemovedTogether(es, i, j);
      assert |WithId(es, es[i].id)| > 1;
    }
  }

  lemma {:induction false} RemovalSizes(es: seq<Entry>, id: nat, other: nat)
    ensures |es| == |Without(es, id)| + |WithId(es, id)|
    ensures |WithId(Without(es, id), other)| <= |WithId(es, other)|
  {
    if es != [] {
      var init, last := es[..|es| - 1], es[|es| - 1];
      RemovalSizes(init, id, other);
      var kept := Without(init, id);
      if last.id == id {
        assert Without(es, id) == kept;
      } else {
        assert Without(es, id) == kept + [last] && (kept + [last])[..|kept + [last]| - 1] == kept;
      }
    }
  }

  /** No more entries than ids, if no id is used twice. */
  lemma {:induction false} NoMoreThanIds(es: seq<Entry>, n: nat)
    requires forall e :: e in es ==> 1 <= e.id <= n
    requires forall id: nat :: |WithId(es, id)| <= 1
    ensures |es| <= n
    decreases n
  {
    if n == 0 {
      if e :| e in es { assert false; }
    } else {
      var rest := Without(es, n);
      RemovalMembers(es, n);
      RemovalSizes(es, n, n);
      forall id: nat ensures |WithId(rest, id)| <= 1 {
        RemovalSizes(es, n, id);
      }
      NoMoreThanIds(rest, n - 1);
    }
  }

  /** `part` is `whole` with some elements left out: positions `at` are taken in order. */
  ghost predicate Picks(part: seq<Entry>, whole: seq<Entry>, at: seq<nat>) {
    && |at| == |part|
    && (forall i :: 0 <= i < |at| ==> at[i] < |whole| && whole[at[i]] == part[i])
    && forall i, j :: 0 <= i < j < |at| ==> at[i] < at[j]
  }

  lemma PicksLonger(part: seq<Entry>, whole: seq<Entry>, at: seq<nat>, e: Entry)
    requires Picks(part, whole, at)
    ensures Picks(part, whole + [e], at)
    ensures Picks(part + [e], whole + [e], at + [|whole|])
  {
  }

  /** The drain keeps the relative order of both halves. */
  lemma {:induction false} DrainKeepsOrder(es: seq<Entry>, now: nat) returns (dueAt: seq<nat>, laterAt: seq<nat>)
    ensures Picks(Due(es, now), es, dueAt)
    ensures Picks(Later(es, now), es, laterAt)
  {
    dueAt, laterAt := [], [];
    if es != [] {
      var init, last := es[..|es| - 1], es[|es| - 1];
      dueAt, laterAt := DrainKeepsOrder(init, now);
      PicksLonger(Due(init, now), init, dueAt, last);
      PicksLonger(Later(init, now), init, laterAt, last);
      assert es == init + [last];
      if last.deadline <= now {
        assert Later(es, now) == Later(init, now);
        dueAt := dueAt + [|init|];
      } else {
        assert Due(es, now) == Due(init, now);
        laterAt := laterAt + [|init|];
      }
    }
  }
}
