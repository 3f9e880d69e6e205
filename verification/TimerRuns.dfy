/** Both timer queues over whole runs of a worker thread: scripts, pumps and request boundaries in any
    order, with callbacks doing anything. */
module TimerRuns {
  import opened Wrappers
  import opened TimerQueues
  import opened TimerSelections
  import IntervalProperties
  import TimeoutProperties

  ghost predicate Inv(s: State) {
    IntervalProperties.Inv(s.intervals, []) && TimeoutProperties.Inv(s.timeouts, [])
  }

  lemma {:induction false} IntervalCallsKeepTimeouts(s: State, due: seq<Entry>, calls: seq<Call>, n: nat)
    requires n <= |due| && TimeoutProperties.Inv(s.timeouts, [])
    ensures TimeoutProperties.Inv(CallIntervals(s, due, calls, n).timeouts, [])
  {
    if n > 0 {
      IntervalCallsKeepTimeouts(s, due, calls, n - 1);
      var s1 := StartInterval(CallIntervals(s, due, calls, n - 1), due[n - 1], NthCall(calls, n - 1));
      TimeoutProperties.ScriptKeepsInv(s1, [], NthCall(calls, n - 1).commands);
    }
  }

  lemma {:induction false} TimeoutCallsKeepIntervals(s: State, due: seq<Entry>, calls: seq<Call>, n: nat)
    requires n <= |due| && IntervalProperties.Inv(s.intervals, [])
    ensures IntervalProperties.Inv(CallTimeouts(s, due, calls, n).intervals, [])
  {
    if n > 0 {
      TimeoutCallsKeepIntervals(s, due, calls, n - 1);
      var s1 := CallTimeouts(s, due, calls, n - 1);
      var call := NthCall(calls, n - 1);
      var record := TimeoutCall(due[n - 1].reg, s1.now + call.lag, call.completed);
      IntervalProperties.ScriptKeepsInv(
        s1.(now := s1.now + call.lag, timeouts := s1.timeouts.(calls := s1.timeouts.calls + [record])),
        [], call.commands);
    }
  }

  lemma StepKeepsInv(s: State, step: Step)
    requires Inv(s)
    ensures Inv(Take(s, step)) && Take(s, step).now >= s.now
  {
    match step
    case Script(cs) =>
      IntervalProperties.ScriptKeepsInv(s, [], cs);
      TimeoutProperties.ScriptKeepsInv(s, [], cs);
    case PumpIntervals(calls) =>
      IntervalProperties.PumpKeepsInv(s, calls);
      var due := Due(s.intervals.queue, s.now);
      IntervalCallsKeepTimeouts(DrainIntervals(s), due, calls, |due|);
    case PumpTimeouts(calls) =>
      var _ := TimeoutProperties.PumpCallsTheDueAndKeepsTheFailed(s, calls);
      var due := Due(s.timeouts.pending, s.now);
      TimeoutCallsKeepIntervals(DrainTimeouts(s), due, calls, |due|);
    case NewRequest =>
      TimeoutProperties.ResetKeepsInv(s.timeouts);
      IntervalProperties.EndPumpKeepsInv(s.intervals);
  }

  lemma {:induction false} RunKeepsInv(steps: seq<Step>)
    ensures Inv(Run(steps))
  {
    if steps == [] {
    } else {
      RunKeepsInv(steps[..|steps| - 1]);
      StepKeepsInv(Run(steps[..|steps| - 1]), steps[|steps| - 1]);
    }
  }

  /** After every run each setTimeout registration is queued, was called with success, or was removed:
      exactly one of the three, once. No call started before its delay had passed. */
  lemma TimeoutFates(steps: seq<Step>, reg: nat)
    ensures var q := Run(steps).timeouts;
      && (reg < |q.sets| ==>
            Tally(q.pending, reg) + TimeoutProperties.Successes(q.calls, reg) + Tally(q.removed, reg) == 1)
      && (forall i :: 0 <= i < |q.calls| ==>
            q.calls[i].reg < |q.sets| &&
            q.sets[q.calls[i].reg].at + q.sets[q.calls[i].reg].ms * 1_000_000 <= q.calls[i].at)
  {
    RunKeepsInv(steps);
    assert TimeoutProperties.Places(Run(steps).timeouts, [], reg) == if reg < |Run(steps).timeouts.sets| then 1 else 0;
  }

  /** After every run the calls of each interval are at least its period apart, no queued interval was
      cleared since its registration, and no registration is queued twice. */
  lemma IntervalDiscipline(steps: seq<Step>)
    ensures var q := Run(steps).intervals;
      && IntervalProperties.Spaced(q.log)
      && IntervalProperties.EventsOk(q.log, q.periods)
      && (forall e :: e in q.queue ==> !IntervalProperties.ClearedSinceSet(q.log, e.reg, e.id))
      && (forall reg: nat :: Tally(q.queue, reg) <= 1)
  {
    RunKeepsInv(steps);
    forall reg: nat ensures Tally(Run(steps).intervals.queue, reg) <= 1 {
      assert Tally(Run(steps).intervals.queue, reg) + Tally([], reg) <= 1;
    }
  }

  /** Two queued intervals share an id exactly when they were registered a multiple of 2^32 apart. */
  lemma IntervalIdsShared(steps: seq<Step>, e: Entry, f: Entry)
    requires e in Run(steps).intervals.queue && f in Run(steps).intervals.queue
    ensures e.id == f.id <==> (e.reg - f.reg) % 0x1_0000_0000 == 0
  {
    RunKeepsInv(steps);
    var q := Run(steps).intervals;
    IntervalProperties.SharedId(q, e, f);
  }

  /** While fewer than 2^32 intervals were registered in a request, an id names one of them. */
  lemma IntervalIdsDiffer(steps: seq<Step>, e: Entry, f: Entry)
    requires var q := Run(steps).intervals;
      e in q.queue && f in q.queue && |q.periods| - q.base <= 0x1_0000_0000 && e.id == f.id
    ensures e.reg == f.reg
  {
    IntervalIdsShared(steps, e, f);
    RunKeepsInv(steps);
    var q := Run(steps).intervals;
    assert IntervalProperties.EntryOk(q, e) && IntervalProperties.EntryOk(q, f);
    assert q.base <= e.reg < |q.periods| && q.base <= f.reg < |q.periods|;
    hide *;
    SmallMultiple(e.reg - f.reg);
  }

  lemma SmallMultiple(d: int)
    requires 0 < d + U32_SIZE < 2 * U32_SIZE && d % U32_SIZE == 0
    ensures d == 0
  {
  }

  // Two runs that show where the id schemes end.

  lemma TwoCommands(s: State, c: Command, d: Command)
    ensures RunScript(s, [c, d]) == Execute(Execute(s, c), d)
  {
    assert [c, d][..1] == [c] && [c][..0] == [];
    assert RunScript(s, [c]) == Execute(RunScript(s, []), c);
  }

  const STALE_ENTRY: Entry := Entry(0, 100, 0, 0)
  const STALE_LOG: History := Then(Then(Nothing, Cleared(100)), Registered(0, 100, 0, 0))

  lemma StaleScript(cs: seq<Command>)
    requires cs == [ClearInterval(100), SetInterval(0)]
    ensures var s := RunScript(INITIAL, cs);
      s.intervals == IntervalQueue([STALE_ENTRY], [100], 101, [0], 0, STALE_LOG) && s.now == 0
  {
    TwoCommands(INITIAL, ClearInterval(100), SetInterval(0));
    var s1 := Execute(INITIAL, ClearInterval(100));
    assert s1.intervals == IntervalQueue([], [100], 100, [], 0, Then(Nothing, Cleared(100)));
  }

  lemma OneCallLogged(log: History, e: Entry, now: nat)
    requires log.Then? && log.last.Registered? && log.last.reg == e.reg
    ensures var pumped := Then(Then(Then(log, Started(e.reg, e.ms, now)), Returned(e.reg, e.ms, now)), PumpEnded);
      && IntervalProperties.CalledRegs(pumped) == IntervalProperties.CalledRegs(log) + [e.reg]
      && !IntervalProperties.ClearedSinceSet(pumped, e.reg, e.id)
  {
    var started := Then(log, Started(e.reg, e.ms, now));
    var returned := Then(started, Returned(e.reg, e.ms, now));
    assert IntervalProperties.CalledRegs(returned) == IntervalProperties.CalledRegs(started) + [];
    assert !IntervalProperties.ClearedSinceSet(log, e.reg, e.id);
    assert !IntervalProperties.ClearedSinceSet(started, e.reg, e.id);
  }

  /** The next pump calls this queued interval and drops it, although it was never cleared since its
      registration. */
  ghost predicate DropsUncleared(s: State, e: Entry) {
    var q := FireIntervals(s, []).intervals;
    && e in s.intervals.queue
    && IntervalProperties.CalledRegs(q.log) == IntervalProperties.CalledRegs(s.intervals.log) + [e.reg]
    && e !in q.queue && q.queue == []
    && !IntervalProperties.ClearedSinceSet(q.log, e.reg, e.id)
  }

  /** A clearInterval of an id that is handed out only afterwards does this to that interval. */
  lemma StaleClearDropsInterval(cs: seq<Command>)
    requires cs == [ClearInterval(100), SetInterval(0)]
    ensures DropsUncleared(RunScript(INITIAL, cs), STALE_ENTRY)
  {
    var s := RunScript(INITIAL, cs);
    StaleScript(cs);
    assert STALE_ENTRY in s.intervals.queue;
    PumpOfOneCleared(s, STALE_ENTRY);
    OneCallLogged(STALE_LOG, STALE_ENTRY, 0);
    assert IntervalProperties.CalledRegs(STALE_LOG.past) == [];
    hide RunScript, FireIntervals, IntervalProperties.CalledRegs, IntervalProperties.ClearedSinceSet;
    assert DropsUncleared(s, STALE_ENTRY);
  }

  lemma PumpOfOneCleared(s: State, e: Entry)
    requires s.intervals.queue == [e] && e.deadline <= s.now && e.id in s.intervals.cleared
    ensures var log := Then(Then(s.intervals.log, Started(e.reg, e.ms, s.now)), Returned(e.reg, e.ms, s.now));
      FireIntervals(s, []).intervals == s.intervals.(queue := [], cleared := [], log := Then(log, PumpEnded))
  {
    assert [e][..0] == [];
    assert Due([], s.now) == [] && Later([], s.now) == [];
    assert Due([e], s.now) == [e] && Later([e], s.now) == [];
    var d := DrainIntervals(s);
    assert CallIntervals(d, [e], [], 1) == CallInterval(CallIntervals(d, [e], [], 0), e, NthCall([], 0));
    assert RunScript(StartInterval(d, e, NthCall([], 0)), []) == StartInterval(d, e, NthCall([], 0));
  }

  /** On every run: with 100 or more timeouts alive, one clearTimeout removes two of them. */
  lemma ClearRemovesTwo(steps: seq<Step>)
    requires |Run(steps).timeouts.pending| > 99
    ensures exists id: nat :: |WithId(Run(steps).timeouts.pending, id)| >= 2
  {
    RunKeepsInv(steps);
    TimeoutProperties.MoreThanIdsCollide(Run(steps).timeouts);
  }

  /** Sets one timeout that stays, then `n` that are cleared at once. */
  function TurnOver(ms: nat, n: nat): seq<Command> {
    if n == 0 then [SetTimeout(ms)] else TurnOver(ms, n - 1) + [SetTimeout(0), ClearTimeout(n + 1)]
  }

  lemma {:induction false} OneStays(ms: nat, n: nat)
    requires n < TIMEOUT_IDS
    ensures var s := RunScript(INITIAL, TurnOver(ms, n));
      && s.now == 0
      && s.timeouts.pending == [Entry(0, 1, ms, After(0, ms))]
      && s.timeouts.counter == (if n == TIMEOUT_IDS - 1 then 1 else n + 2)
      && |s.timeouts.sets| == n + 1
  {
    if n == 0 {
      assert [SetTimeout(ms)][..0] == [];
      assert RunScript(INITIAL, [SetTimeout(ms)]) == Execute(RunScript(INITIAL, []), SetTimeout(ms));
    } else {
      OneStays(ms, n - 1);
      var s := RunScript(INITIAL, TurnOver(ms, n - 1));
      SetAndClear(INITIAL, TurnOver(ms, n - 1), n + 1);
      SetAndClearUndoes(s, n + 1);
    }
  }

  lemma SetAndClear(s: State, cs: seq<Command>, id: nat)
    ensures RunScript(s, cs + [SetTimeout(0), ClearTimeout(id)]) ==
            Execute(Execute(RunScript(s, cs), SetTimeout(0)), ClearTimeout(id))
  {
    var once := cs + [SetTimeout(0)];
    var twice := cs + [SetTimeout(0), ClearTimeout(id)];
    assert once[..|once| - 1] == cs;
    assert twice[..|twice| - 1] == once;
  }

  lemma SetAndClearUndoes(s: State, id: nat)
    requires s.timeouts.counter == id && |s.timeouts.pending| == 1 && s.timeouts.pending[0].id != id
    ensures Execute(Execute(s, SetTimeout(0)), ClearTimeout(id)).timeouts.pending == s.timeouts.pending
  {
    var old_, e := s.timeouts.pending, Entry(|s.timeouts.sets|, id, 0, After(s.now, 0));
    assert (old_ + [e])[..1] == old_ && old_[..0] == [];
    assert Without([], id) == [];
    assert Without(old_, id) == Without([], id) + [old_[0]];
    assert Without(old_ + [e], id) == Without(old_, id) + [];
  }

  /** Two timeouts are enough: after one that stays and 98 that come and go, the next has the id of the
      first, and one clearTimeout removes both. */
  lemma TwoAliveShareAnId(ms: nat)
    ensures var q := RunScript(INITIAL, TurnOver(ms, 98) + [SetTimeout(0)]).timeouts;
      |q.pending| == 2 && WithId(q.pending, 1) == q.pending
  {
    var cs := TurnOver(ms, TIMEOUT_IDS - 1);
    OneStays(ms, TIMEOUT_IDS - 1);
    assert (cs + [SetTimeout(0)])[..|cs|] == cs;
    var e, f := Entry(0, 1, ms, After(0, ms)), Entry(TIMEOUT_IDS, 1, 0, 0);
    assert RunScript(INITIAL, cs + [SetTimeout(0)]).timeouts.pending == [e, f];
    assert [e, f][..1] == [e] && [e][..0] == [];
    assert WithId([e], 1) == WithId([], 1) + [e];
  }
}
