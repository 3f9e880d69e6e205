/**
 What holds of the setTimeout queue on every run, whatever callbacks do: every registration is at
 every moment in exactly one place, no call comes early, and how far clearTimeout can reach.

 `flight` lists the entries that a pump in progress has drained and not yet disposed of.
 */
module TimeoutProperties {
  import opened TimerQueues
  import opened TimerSelections

  /** How many calls of registration `reg` returned a value. */
  function Successes(calls: seq<TimeoutCall>, reg: nat): nat {
    if calls == [] then 0 else
      var last := calls[|calls| - 1];
      Successes(calls[..|calls| - 1], reg) + if last.completed && last.reg == reg then 1 else 0
  }

  lemma SuccessesSnoc(calls: seq<TimeoutCall>, c: TimeoutCall, reg: nat)
    ensures Successes(calls + [c], reg) == Successes(calls, reg) + if c.completed && c.reg == reg then 1 else 0
  {
    assert (calls + [c])[..|calls + [c]| - 1] == calls;
  }

  function IdOf(q: TimeoutQueue, reg: nat): nat
    requires q.base <= reg
  {
    FIRST_TIMEOUT_ID + (reg - q.base) % TIMEOUT_IDS
  }

  ghost predicate EntryOk(q: TimeoutQueue, e: Entry) {
    && q.base <= e.reg < |q.sets|
    && e.id == IdOf(q, e.reg)
    && e.deadline == q.sets[e.reg].at + q.sets[e.reg].ms * 1_000_000
  }

  /** In how many places registration `reg` is: queued, in flight, called with success, removed. */
  function Places(q: TimeoutQueue, flight: seq<Entry>, reg: nat): nat {
    Tally(q.pending, reg) + Tally(flight, reg) + Successes(q.calls, reg) + Tally(q.removed, reg)
  }

  /** Every registration is in exactly one place. */
  ghost predicate Conserved(q: TimeoutQueue, flight: seq<Entry>) {
    forall reg: nat :: Places(q, flight, reg) == if reg < |q.sets| then 1 else 0
  }

  /** No call started before the delay of its registration had passed. */
  ghost predicate NoneEarly(q: TimeoutQueue) {
    forall i :: 0 <= i < |q.calls| ==>
      && q.calls[i].reg < |q.sets|
      && q.sets[q.calls[i].reg].at + q.sets[q.calls[i].reg].ms * 1_000_000 <= q.calls[i].at
  }

  ghost predicate Inv(q: TimeoutQueue, flight: seq<Entry>) {
    && q.base <= |q.sets|
    && q.counter == IdOf(q, |q.sets|)
    && (forall e :: e in q.pending || e in flight ==> EntryOk(q, e))
    && Conserved(q, flight)
    && NoneEarly(q)
  }

  /** Counting up and starting over at 99 is counting modulo 99. */
  lemma NextId(q: TimeoutQueue)
    requires q.base <= |q.sets| && q.counter == IdOf(q, |q.sets|)
    ensures (if q.counter >= TIMEOUT_IDS then FIRST_TIMEOUT_ID else q.counter + 1) ==
            FIRST_TIMEOUT_ID + (|q.sets| + 1 - q.base) % TIMEOUT_IDS
  {
    var n: nat := |q.sets| - q.base;
    assert n + 1 == n / TIMEOUT_IDS * TIMEOUT_IDS + (n % TIMEOUT_IDS + 1);
  }

  lemma RegisterKeepsInv(q: TimeoutQueue, flight: seq<Entry>, ms: nat, now: nat)
    requires Inv(q, flight)
    ensures Inv(RegisterTimeout(q, ms, now), flight)
  {
    var q' := RegisterTimeout(q, ms, now);
    var e := Entry(|q.sets|, q.counter, ms, After(now, ms));
    NextId(q);
    assert q'.counter == IdOf(q', |q'.sets|) && EntryOk(q', e);
    forall f | f in q.pending || f in flight ensures EntryOk(q', f) {
      assert EntryOk(q, f);
    }
    hide IdOf, EntryOk;
    forall reg: nat ensures Places(q', flight, reg) == if reg < |q'.sets| then 1 else 0 {
      TallySnoc(q.pending, e, reg);
      assert Places(q, flight, reg) == if reg < |q.sets| then 1 else 0;
    }
    assert forall f :: f in q'.pending <==> f in q.pending || f == e;
  }

  lemma RemoveKeepsInv(q: TimeoutQueue, flight: seq<Entry>, id: nat)
    requires Inv(q, flight)
    ensures Inv(RemoveTimeouts(q, id), flight)
  {
    RemovalMembers(q.pending, id);
    forall e | e in Without(q.pending, id) || e in flight ensures EntryOk(RemoveTimeouts(q, id), e) {
      assert EntryOk(q, e);
    }
    hide EntryOk, IdOf, Tally, Successes;
    forall reg: nat ensures Places(RemoveTimeouts(q, id), flight, reg) == Places(q, flight, reg) {
      RemovalTally(q.pending, id, reg);
      TallyConcat(q.removed, WithId(q.pending, id), reg);
    }
  }

  lemma ResetKeepsInv(q: TimeoutQueue)
    requires Inv(q, [])
    ensures Inv(ResetTimeouts(q), [])
  {
    forall reg: nat ensures Places(ResetTimeouts(q), [], reg) == Places(q, [], reg) {
      TallyConcat(q.removed, q.pending, reg);
    }
  }

  lemma {:induction false} ScriptKeepsInv(s: State, flight: seq<Entry>, cs: seq<Command>)
    requires Inv(s.timeouts, flight)
    ensures Inv(RunScript(s, cs).timeouts, flight) && RunScript(s, cs).now >= s.now
    ensures RunScript(s, cs).timeouts.calls == s.timeouts.calls
  {
    if cs != [] {
      var s1 := RunScript(s, cs[..|cs| - 1]);
      ScriptKeepsInv(s, flight, cs[..|cs| - 1]);
      match cs[|cs| - 1]
      case SetTimeout(ms) => RegisterKeepsInv(s1.timeouts, flight, ms, s1.now);
      case ClearTimeout(id) => RemoveKeepsInv(s1.timeouts, flight, id);
      case _ =>
    }
  }

  // A pump: after `n` calls the due entries from `n` on and the failed ones are in flight.

  function Flight(due: seq<Entry>, calls: seq<Call>, n: nat): seq<Entry>
    requires n <= |due|
  {
    due[n..] + Failed(due, calls, n)
  }

  lemma NextFlightTally(due: seq<Entry>, calls: seq<Call>, n: nat, reg: nat)
    requires 0 < n <= |due|
    ensures Tally(Flight(due, calls, n - 1), reg) ==
            Tally(Flight(due, calls, n), reg) +
            if NthCall(calls, n - 1).completed && due[n - 1].reg == reg then 1 else 0
  {
    var e := due[n - 1];
    assert due[n - 1..] == [e] + due[n..];
    TallyConcat([e], due[n..], reg);
    TallySnoc([], e, reg);
    assert [] + [e] == [e];
    TallyConcat(due[n - 1..], Failed(due, calls, n - 1), reg);
    TallyConcat(due[n..], Failed(due, calls, n), reg);
    if NthCall(calls, n - 1).completed {
      assert Failed(due, calls, n) == Failed(due, calls, n - 1);
    } else {
      TallySnoc(Failed(due, calls, n - 1), e, reg);
    }
  }

  lemma NextFlightMembers(due: seq<Entry>, calls: seq<Call>, n: nat)
    requires 0 < n <= |due|
    ensures forall e :: e in Flight(due, calls, n) ==> e in Flight(due, calls, n - 1)
    ensures due[n - 1] in Flight(due, calls, n - 1)
  {
    assert due[n - 1..] == [due[n - 1]] + due[n..];
    assert due[n - 1] in due[n - 1..];
    forall e | e in Flight(due, calls, n) ensures e in Flight(due, calls, n - 1) {
      assert e in due[n..] || e in Failed(due, calls, n);
      assert e in due[n - 1..] || e in Failed(due, calls, n - 1);
    }
  }

  lemma RecordKeepsInv(q: TimeoutQueue, due: seq<Entry>, calls: seq<Call>, n: nat, at: nat)
    requires 0 < n <= |due| && due[n - 1].deadline <= at
    requires Inv(q, Flight(due, calls, n - 1))
    ensures var record := TimeoutCall(due[n - 1].reg, at, NthCall(calls, n - 1).completed);
      Inv(q.(calls := q.calls + [record]), Flight(due, calls, n))
  {
    var record := TimeoutCall(due[n - 1].reg, at, NthCall(calls, n - 1).completed);
    var q1 := q.(calls := q.calls + [record]);
    NextFlightMembers(due, calls, n);
    forall reg: nat ensures Places(q1, Flight(due, calls, n), reg) == Places(q, Flight(due, calls, n - 1), reg) {
      NextFlightTally(due, calls, n, reg);
      SuccessesSnoc(q.calls, record, reg);
    }
    assert EntryOk(q, due[n - 1]);
  }

  lemma CallKeepsInv(s: State, due: seq<Entry>, calls: seq<Call>, n: nat)
    requires 0 < n <= |due| && due[n - 1].deadline <= s.now
    requires Inv(s.timeouts, Flight(due, calls, n - 1))
    ensures var e, call := due[n - 1], NthCall(calls, n - 1);
      var s' := CallTimeout(s, e, call);
      && Inv(s'.timeouts, Flight(due, calls, n))
      && s'.now >= s.now
      && s'.timeouts.calls == s.timeouts.calls + [TimeoutCall(e.reg, s.now + call.lag, call.completed)]
  {
    var e, call := due[n - 1], NthCall(calls, n - 1);
    var at := s.now + call.lag;
    RecordKeepsInv(s.timeouts, due, calls, n, at);
    var q1 := s.timeouts.(calls := s.timeouts.calls + [TimeoutCall(e.reg, at, call.completed)]);
    ScriptKeepsInv(s.(now := at, timeouts := q1), Flight(due, calls, n), call.commands);
  }

  /** The calls of a pump, oldest first: registration and outcome. */
  ghost predicate Records(records: seq<TimeoutCall>, due: seq<Entry>, calls: seq<Call>) {
    && |records| <= |due|
    && forall k :: 0 <= k < |records| ==>
      records[k].reg == due[k].reg && records[k].completed == NthCall(calls, k).completed
  }

  lemma {:induction false} CallsKeepInv(s: State, due: seq<Entry>, calls: seq<Call>, n: nat)
    returns (records: seq<TimeoutCall>)
    requires n <= |due| && forall e :: e in due ==> e.deadline <= s.now
    requires Inv(s.timeouts, due)
    ensures var s' := CallTimeouts(s, due, calls, n);
      && Inv(s'.timeouts, Flight(due, calls, n))
      && s'.now >= s.now
      && s'.timeouts.calls == s.timeouts.calls + records
      && |records| == n
      && Records(records, due, calls)
  {
    records := [];
    if n == 0 {
      assert Flight(due, calls, 0) == due;
    } else {
      hide *;
      var before := CallsKeepInv(s, due, calls, n - 1);
      assert due[n - 1] in due;
      records := NextCallKeepsInv(s, CallTimeouts(s, due, calls, n - 1), due, calls, n, before);
      NextCallTimeouts(s, due, calls, n);
    }
  }

  lemma NextCallTimeouts(s: State, due: seq<Entry>, calls: seq<Call>, n: nat)
    requires 0 < n <= |due|
    ensures CallTimeouts(s, due, calls, n) ==
            CallTimeout(CallTimeouts(s, due, calls, n - 1), due[n - 1], NthCall(calls, n - 1))
  {
  }

  lemma NextCallKeepsInv(s: State, s1: State, due: seq<Entry>, calls: seq<Call>, n: nat, before: seq<TimeoutCall>)
    returns (records: seq<TimeoutCall>)
    requires 0 < n <= |due| && due[n - 1].deadline <= s.now <= s1.now
    requires Inv(s1.timeouts, Flight(due, calls, n - 1))
    requires s1.timeouts.calls == s.timeouts.calls + before && |before| == n - 1 && Records(before, due, calls)
    ensures var s' := CallTimeout(s1, due[n - 1], NthCall(calls, n - 1));
      && Inv(s'.timeouts, Flight(due, calls, n))
      && s'.now >= s.now
      && s'.timeouts.calls == s.timeouts.calls + records
      && |records| == n
      && Records(records, due, calls)
  {
    hide *;
    var e, call := due[n - 1], NthCall(calls, n - 1);
    CallKeepsInv(s1, due, calls, n);
    var record := TimeoutCall(e.reg, s1.now + call.lag, call.completed);
    NextRecord(s.timeouts.calls, before, due, calls, record);
    records := before + [record];
  }

  lemma NextRecord(
    before: seq<TimeoutCall>, records: seq<TimeoutCall>, due: seq<Entry>, calls: seq<Call>, record: TimeoutCall)
    requires Records(records, due, calls) && |records| < |due|
    requires record.reg == due[|records|].reg && record.completed == NthCall(calls, |records|).completed
    ensures before + records + [record] == before + (records + [record])
    ensures Records(records + [record], due, calls)
  {
  }

  lemma DrainKeepsInv(s: State)
    requires Inv(s.timeouts, [])
    ensures Inv(DrainTimeouts(s).timeouts, Due(s.timeouts.pending, s.now))
  {
    var q, due := s.timeouts, Due(s.timeouts.pending, s.now);
    DrainMembers(q.pending, s.now);
    forall e | e in Later(q.pending, s.now) || e in due ensures EntryOk(DrainTimeouts(s).timeouts, e) {
      assert EntryOk(q, e);
    }
    hide EntryOk, IdOf, Tally, Successes, Due, Later;
    forall reg: nat ensures Places(DrainTimeouts(s).timeouts, due, reg) == Places(q, [], reg) {
      DrainTally(q.pending, s.now, reg);
    }
  }

  lemma RequeueKeepsInv(q: TimeoutQueue, failed: seq<Entry>)
    requires Inv(q, failed)
    ensures Inv(q.(pending := q.pending + failed), [])
  {
    forall reg: nat ensures Places(q.(pending := q.pending + failed), [], reg) == Places(q, failed, reg) {
      TallyConcat(q.pending, failed, reg);
    }
  }

  // The results.

  /** A pump calls the due entries, each once and in queue order, and nothing else. A call that
      returns no value leaves its entry queued as it was. */
  lemma PumpCallsTheDueAndKeepsTheFailed(s: State, calls: seq<Call>) returns (records: seq<TimeoutCall>)
    requires Inv(s.timeouts, [])
    ensures var due, q' := Due(s.timeouts.pending, s.now), FireTimeouts(s, calls).timeouts;
      && Inv(q', [])
      && FireTimeouts(s, calls).now >= s.now
      && q'.calls == s.timeouts.calls + records
      && |records| == |due|
      && Records(records, due, calls)
      && (forall k :: 0 <= k < |due| && !NthCall(calls, k).completed ==> due[k] in q'.pending)
  {
    var due := Due(s.timeouts.pending, s.now);
    DrainKeepsInv(s);
    DrainMembers(s.timeouts.pending, s.now);
    records := CallsKeepInv(DrainTimeouts(s), due, calls, |due|);
    var q := CallTimeouts(DrainTimeouts(s), due, calls, |due|).timeouts;
    assert Flight(due, calls, |due|) == Failed(due, calls, |due|);
    RequeueKeepsInv(q, Failed(due, calls, |due|));
    forall k | 0 <= k < |due| && !NthCall(calls, k).completed
      ensures due[k] in Failed(due, calls, |due|)
    {
      FailedMember(due, calls, |due|, k);
    }
  }

  /** Entry `e` is queued after a script exactly when it was before and the script did not clear its id. */
  lemma {:induction false} ScriptTracks(s: State, cs: seq<Command>, e: Entry)
    requires e.reg < |s.timeouts.sets|
    ensures var q' := RunScript(s, cs).timeouts;
      && |s.timeouts.sets| <= |q'.sets|
      && (e in q'.pending <==> e in s.timeouts.pending && ClearTimeout(e.id) !in cs)
  {
    if cs != [] {
      var init, last := cs[..|cs| - 1], cs[|cs| - 1];
      var s1 := RunScript(s, init);
      ScriptTracks(s, init, e);
      CommandTracks(s1, last, e);
      assert cs == init + [last];
      hide RunScript, Execute;
    }
  }

  lemma CommandTracks(s: State, c: Command, e: Entry)
    requires e.reg < |s.timeouts.sets|
    ensures var q' := Execute(s, c).timeouts;
      && |s.timeouts.sets| <= |q'.sets|
      && (e in q'.pending <==> e in s.timeouts.pending && c != ClearTimeout(e.id))
  {
    match c
    case ClearTimeout(id) => RemovalMembers(s.timeouts.pending, id);
    case _ =>
  }

  /** One of the first `n` callbacks clears this id. */
  predicate Clears(calls: seq<Call>, n: nat, id: nat) {
    exists k :: 0 <= k < n && ClearTimeout(id) in NthCall(calls, k).commands
  }

  lemma {:induction false} CallsTrack(s: State, due: seq<Entry>, calls: seq<Call>, n: nat, e: Entry)
    requires n <= |due| && e.reg < |s.timeouts.sets|
    ensures var q' := CallTimeouts(s, due, calls, n).timeouts;
      && |s.timeouts.sets| <= |q'.sets|
      && (e in q'.pending <==> e in s.timeouts.pending && !Clears(calls, n, e.id))
  {
    if n > 0 {
      CallsTrack(s, due, calls, n - 1, e);
      NextCallTimeouts(s, due, calls, n);
      var s1, call := CallTimeouts(s, due, calls, n - 1), NthCall(calls, n - 1);
      var record := TimeoutCall(due[n - 1].reg, s1.now + call.lag, call.completed);
      ScriptTracks(s1.(now := s1.now + call.lag, timeouts := s1.timeouts.(calls := s1.timeouts.calls + [record])),
                   call.commands, e);
      hide RunScript, CallTimeouts, NthCall;
      assert Clears(calls, n, e.id) <==> Clears(calls, n - 1, e.id) || ClearTimeout(e.id) in call.commands;
    }
  }

  lemma {:induction false} SuccessAt(calls: seq<TimeoutCall>, k: nat)
    requires k < |calls| && calls[k].completed
    ensures Successes(calls, calls[k].reg) >= 1
  {
    if k < |calls| - 1 {
      SuccessAt(calls[..|calls| - 1], k);
    }
  }

  lemma {:induction false} FailedAreDue(due: seq<Entry>, calls: seq<Call>, n: nat)
    requires n <= |due|
    ensures forall e :: e in Failed(due, calls, n) ==> e in due
  {
    if n > 0 {
      FailedAreDue(due, calls, n - 1);
    }
  }

  /** After a pump a due timeout is queued exactly when its call returned no value, even if a callback cleared
      it; one that was not due is queued exactly when no callback cleared its id. Either way its
      registration is queued at most once. */
  lemma PumpRequeuesExactly(s: State, calls: seq<Call>, e: Entry)
    requires Inv(s.timeouts, []) && e in s.timeouts.pending
    ensures var due, q' := Due(s.timeouts.pending, s.now), FireTimeouts(s, calls).timeouts;
      && (e.deadline <= s.now ==>
            (e in q'.pending <==> exists k :: 0 <= k < |due| && due[k] == e && !NthCall(calls, k).completed))
      && (e.deadline > s.now ==> (e in q'.pending <==> !Clears(calls, |due|, e.id)))
      && Tally(q'.pending, e.reg) <= 1
  {
    var q' := FireTimeouts(s, calls).timeouts;
    var records := PumpCallsTheDueAndKeepsTheFailed(s, calls);
    assert Places(q', [], e.reg) <= 1;
    if e.deadline <= s.now {
      DueIsKept(s, calls, e);
    } else {
      LaterIsKept(s, calls, e);
    }
  }

  lemma DueIsKept(s: State, calls: seq<Call>, e: Entry)
    requires Inv(s.timeouts, []) && e in s.timeouts.pending && e.deadline <= s.now
    ensures var due, q' := Due(s.timeouts.pending, s.now), FireTimeouts(s, calls).timeouts;
      e in q'.pending <==> exists k :: 0 <= k < |due| && due[k] == e && !NthCall(calls, k).completed
  {
    var due, q' := Due(s.timeouts.pending, s.now), FireTimeouts(s, calls).timeouts;
    var records := PumpCallsTheDueAndKeepsTheFailed(s, calls);
    DrainMembers(s.timeouts.pending, s.now);
    hide FireTimeouts, Due;
    var k :| 0 <= k < |due| && due[k] == e;
    if NthCall(calls, k).completed {
      SucceededIsGone(q', s.timeouts.calls, records, k);
      assert e !in q'.pending;
    }
    forall j | 0 <= j < |due| && due[j] == e && !NthCall(calls, j).completed ensures e in q'.pending {
    }
  }

  lemma SucceededIsGone(q: TimeoutQueue, before: seq<TimeoutCall>, records: seq<TimeoutCall>, k: nat)
    requires Inv(q, []) && q.calls == before + records && k < |records| && records[k].completed
    ensures forall e :: e in q.pending ==> e.reg != records[k].reg
  {
    var reg := records[k].reg;
    assert q.calls[|before| + k] == records[k];
    SuccessAt(q.calls, |before| + k);
    assert Places(q, [], reg) <= 1;
    TallyMember(q.pending, reg);
  }

  lemma LaterIsKept(s: State, calls: seq<Call>, e: Entry)
    requires Inv(s.timeouts, []) && e in s.timeouts.pending && e.deadline > s.now
    ensures e in FireTimeouts(s, calls).timeouts.pending <==> !Clears(calls, |Due(s.timeouts.pending, s.now)|, e.id)
  {
    var due := Due(s.timeouts.pending, s.now);
    assert EntryOk(s.timeouts, e);
    DrainMembers(s.timeouts.pending, s.now);
    CallsTrack(DrainTimeouts(s), due, calls, |due|, e);
    FailedAreDue(due, calls, |due|);
  }

  /** A due timeout that clears itself and then fails is queued again. */
  lemma ClearedAndFailedStays()
    ensures var s, calls := RunScript(INITIAL, [SetTimeout(0)]), [Call(0, [ClearTimeout(1)], false)];
      s.timeouts.pending == [Entry(0, 1, 0, 0)] && Entry(0, 1, 0, 0) in FireTimeouts(s, calls).timeouts.pending
  {
    var s, calls := RunScript(INITIAL, [SetTimeout(0)]), [Call(0, [ClearTimeout(1)], false)];
    var e := Entry(0, 1, 0, 0);
    assert [SetTimeout(0)][..0] == [];
    assert RunScript(INITIAL, [SetTimeout(0)]) == Execute(RunScript(INITIAL, []), SetTimeout(0));
    assert s.timeouts.pending == [e] && e in s.timeouts.pending;
    assert Inv(INITIAL.timeouts, []);
    ScriptKeepsInv(INITIAL, [], [SetTimeout(0)]);
    assert [e][..0] == [];
    assert Due([e], 0) == Due([], 0) + [e];
    assert Due([e], 0)[0] == e && !NthCall(calls, 0).completed;
    PumpRequeuesExactly(s, calls, e);
  }

  lemma {:induction false} FailedMember(due: seq<Entry>, calls: seq<Call>, n: nat, k: nat)
    requires k < n <= |due| && !NthCall(calls, k).completed
    ensures due[k] in Failed(due, calls, n)
  {
    var last := if NthCall(calls, n - 1).completed then [] else [due[n - 1]];
    assert Failed(due, calls, n) == Failed(due, calls, n - 1) + last;
    hide Failed;
    if k < n - 1 {
      FailedMember(due, calls, n - 1, k);
    } else {
      assert due[k] in last;
    }
  }

  /** Two queued timeouts share an id exactly when they were registered a multiple of 99 apart. */
  lemma SharedId(q: TimeoutQueue, e: Entry, f: Entry)
    requires EntryOk(q, e) && EntryOk(q, f)
    ensures e.id == f.id <==> (e.reg - f.reg) % 99 == 0
  {
    var a: nat, b: nat := e.reg - q.base, f.reg - q.base;
    assert e.id == FIRST_TIMEOUT_ID + a % TIMEOUT_IDS && f.id == FIRST_TIMEOUT_ID + b % TIMEOUT_IDS;
    assert a - b == e.reg - f.reg;
    hide EntryOk, IdOf;
    SameRemainder(a, b);
  }

  lemma SameRemainder(a: nat, b: nat)
    ensures a % TIMEOUT_IDS == b % TIMEOUT_IDS <==> (a - b) % TIMEOUT_IDS == 0
  {
    var i: int, j: int, x: int, y: int := a / TIMEOUT_IDS, b / TIMEOUT_IDS, a % TIMEOUT_IDS, b % TIMEOUT_IDS;
    assert a == i * TIMEOUT_IDS + x && b == j * TIMEOUT_IDS + y;
    RemainderOfSum(i - j, x - y);
    assert a - b == (i - j) * TIMEOUT_IDS + (x - y);
  }

  lemma RemainderOfSum(k: int, d: int)
    requires 0 < d + TIMEOUT_IDS < 2 * TIMEOUT_IDS
    ensures (k * TIMEOUT_IDS + d) % TIMEOUT_IDS == 0 <==> d == 0
  {
    var sum := k * TIMEOUT_IDS + d;
    var q := sum / TIMEOUT_IDS;
    assert sum == q * TIMEOUT_IDS + sum % TIMEOUT_IDS;
    assert sum % TIMEOUT_IDS - d == (k - q) * TIMEOUT_IDS;
  }

  /** While every queued timeout is among the last 99 registrations, clearTimeout removes at most
      one entry, the one that was given this id last. */
  lemma ClearRemovesAtMostOne(q: TimeoutQueue, id: nat)
    requires Inv(q, [])
    requires forall e :: e in q.pending ==> e.reg + 99 >= |q.sets|
    ensures |WithId(q.pending, id)| <= 1
  {
    var hit := WithId(q.pending, id);
    RemovalMembers(q.pending, id);
    forall reg: nat ensures Tally(hit, reg) <= 1 {
      RemovalTally(q.pending, id, reg);
      assert Places(q, [], reg) <= 1;
    }
    if |hit| >= 2 {
      assert hit[0] in hit && hit[1] in hit;
      SharedId(q, hit[0], hit[1]);
      TwiceIn(hit, 0, 1);
    }
  }

  /** No two queued timeouts were registered a multiple of 99 apart. */
  ghost predicate IdsApart(q: TimeoutQueue) {
    forall i, j :: 0 <= i < j < |q.pending| ==> (q.pending[i].reg - q.pending[j].reg) % 99 != 0
  }

  /** Exactly when clearTimeout removes at most one entry, whatever its argument. */
  lemma ClearRemovesOneExactly(q: TimeoutQueue)
    requires Inv(q, [])
    ensures (forall id: nat :: |WithId(q.pending, id)| <= 1) <==> IdsApart(q)
  {
    RemovesOneExactly(q.pending);
    hide WithId;
    forall i, j | 0 <= i < j < |q.pending|
      ensures q.pending[i].id == q.pending[j].id <==> (q.pending[i].reg - q.pending[j].reg) % 99 == 0
    {
      assert EntryOk(q, q.pending[i]) && EntryOk(q, q.pending[j]);
      hide Inv, EntryOk;
      SharedId(q, q.pending[i], q.pending[j]);
    }
  }

  /** With more timeouts queued than there are ids, some clearTimeout removes two or more. */
  lemma MoreThanIdsCollide(q: TimeoutQueue)
    requires Inv(q, []) && |q.pending| > 99
    ensures exists id: nat :: |WithId(q.pending, id)| >= 2
  {
    if forall id: nat :: |WithId(q.pending, id)| <= 1 {
      forall e | e in q.pending ensures 1 <= e.id <= TIMEOUT_IDS {
        assert EntryOk(q, e);
      }
      NoMoreThanIds(q.pending, TIMEOUT_IDS);
    }
  }
}
