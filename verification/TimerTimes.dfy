/**
 When timers are due, when their callbacks run, and that everything a callback does takes effect: all in
 milliseconds and instants, for every run.
 */
module TimerTimes {
  import opened TimerQueues
  import opened TimerSelections
  import IntervalProperties
  import TimeoutProperties
  import TimerRuns

  // The time that passes.

  function Elapsed(cs: seq<Command>): nat {
    if cs == [] then 0 else Elapsed(cs[..|cs| - 1]) + if cs[|cs| - 1].Elapse? then cs[|cs| - 1].nanos else 0
  }

  /** When the first `n` callbacks have returned, for a pump that begins at `now`. */
  function ReturnOf(now: nat, calls: seq<Call>, n: nat): nat {
    if n == 0 then now else
      ReturnOf(now, calls, n - 1) + NthCall(calls, n - 1).lag + Elapsed(NthCall(calls, n - 1).commands)
  }

  lemma {:induction false} ScriptTime(s: State, cs: seq<Command>)
    ensures RunScript(s, cs).now == s.now + Elapsed(cs)
  {
    if cs != [] { ScriptTime(s, cs[..|cs| - 1]); }
  }

  // What scripts register.

  function TimeoutsIn(cs: seq<Command>): nat {
    if cs == [] then 0 else TimeoutsIn(cs[..|cs| - 1]) + if cs[|cs| - 1].SetTimeout? then 1 else 0
  }

  function IntervalsIn(cs: seq<Command>): nat {
    if cs == [] then 0 else IntervalsIn(cs[..|cs| - 1]) + if cs[|cs| - 1].SetInterval? then 1 else 0
  }

  lemma {:induction false} ScriptRegisters(s: State, cs: seq<Command>)
    ensures |RunScript(s, cs).timeouts.sets| == |s.timeouts.sets| + TimeoutsIn(cs)
    ensures |RunScript(s, cs).intervals.periods| == |s.intervals.periods| + IntervalsIn(cs)
  {
    if cs != [] { ScriptRegisters(s, cs[..|cs| - 1]); }
  }

  function TimeoutsInCalls(calls: seq<Call>, n: nat): nat {
    if n == 0 then 0 else TimeoutsInCalls(calls, n - 1) + TimeoutsIn(NthCall(calls, n - 1).commands)
  }

  function IntervalsInCalls(calls: seq<Call>, n: nat): nat {
    if n == 0 then 0 else IntervalsInCalls(calls, n - 1) + IntervalsIn(NthCall(calls, n - 1).commands)
  }

  /** `s'` is `s` after `n` callbacks: their time has passed and everything they set is registered. */
  ghost predicate Passed(s: State, s': State, calls: seq<Call>, n: nat) {
    && s'.now == ReturnOf(s.now, calls, n)
    && |s'.timeouts.sets| == |s.timeouts.sets| + TimeoutsInCalls(calls, n)
    && |s'.intervals.periods| == |s.intervals.periods| + IntervalsInCalls(calls, n)
  }

  lemma {:induction false} TimeoutCallsPass(s: State, due: seq<Entry>, calls: seq<Call>, n: nat)
    requires n <= |due|
    ensures Passed(s, CallTimeouts(s, due, calls, n), calls, n)
  {
    if n > 0 {
      TimeoutCallsPass(s, due, calls, n - 1);
      var s1, call := CallTimeouts(s, due, calls, n - 1), NthCall(calls, n - 1);
      var record := TimeoutCall(due[n - 1].reg, s1.now + call.lag, call.completed);
      var s2 := s1.(now := s1.now + call.lag, timeouts := s1.timeouts.(calls := s1.timeouts.calls + [record]));
      ScriptTime(s2, call.commands);
      ScriptRegisters(s2, call.commands);
    }
  }

  lemma {:induction false} IntervalCallsPass(s: State, due: seq<Entry>, calls: seq<Call>, n: nat)
    requires n <= |due|
    ensures Passed(s, CallIntervals(s, due, calls, n), calls, n)
  {
    if n > 0 {
      IntervalCallsPass(s, due, calls, n - 1);
      var s1 := StartInterval(CallIntervals(s, due, calls, n - 1), due[n - 1], NthCall(calls, n - 1));
      ScriptTime(s1, NthCall(calls, n - 1).commands);
      ScriptRegisters(s1, NthCall(calls, n - 1).commands);
    }
  }

  /** Both pumps: the time of the callbacks passes and everything they set is registered. */
  lemma PumpsPass(s: State, calls: seq<Call>)
    ensures Passed(s, FireTimeouts(s, calls), calls, |Due(s.timeouts.pending, s.now)|)
    ensures Passed(s, FireIntervals(s, calls), calls, |Due(s.intervals.queue, s.now)|)
  {
    TimeoutCallsPass(DrainTimeouts(s), Due(s.timeouts.pending, s.now), calls, |Due(s.timeouts.pending, s.now)|);
    IntervalCallsPass(DrainIntervals(s), Due(s.intervals.queue, s.now), calls, |Due(s.intervals.queue, s.now)|);
  }

  /** The calls of a pump that begins at `now`: each when the callbacks before it have returned and its own
      lag has passed. */
  function CallRecords(now: nat, due: seq<Entry>, calls: seq<Call>, n: nat): seq<TimeoutCall>
    requires n <= |due|
  {
    if n == 0 then [] else
      var call := NthCall(calls, n - 1);
      CallRecords(now, due, calls, n - 1) +
      [TimeoutCall(due[n - 1].reg, ReturnOf(now, calls, n - 1) + call.lag, call.completed)]
  }

  lemma {:induction false} TimeoutCallTimes(s: State, due: seq<Entry>, calls: seq<Call>, n: nat)
    requires n <= |due|
    ensures CallTimeouts(s, due, calls, n).timeouts.calls == s.timeouts.calls + CallRecords(s.now, due, calls, n)
  {
    if n > 0 {
      NextCallRecord(s.now, due, calls, n);
      TimeoutCallsPass(s, due, calls, n - 1);
      hide RunScript, CallTimeout, CallTimeouts, ReturnOf, NthCall, CallRecords;
      TimeoutCallTimes(s, due, calls, n - 1);
      var s1, call := CallTimeouts(s, due, calls, n - 1), NthCall(calls, n - 1);
      TimeoutProperties.NextCallTimeouts(s, due, calls, n);
      CallRecorded(s1, due[n - 1], call);
      OneMoreRecord(s.timeouts.calls, CallRecords(s.now, due, calls, n - 1),
                    TimeoutCall(due[n - 1].reg, s1.now + call.lag, call.completed));
    } else {
      assert s.timeouts.calls + [] == s.timeouts.calls;
    }
  }

  lemma NextCallRecord(now: nat, due: seq<Entry>, calls: seq<Call>, n: nat)
    requires 0 < n <= |due|
    ensures var call := NthCall(calls, n - 1);
      CallRecords(now, due, calls, n) == CallRecords(now, due, calls, n - 1) +
        [TimeoutCall(due[n - 1].reg, ReturnOf(now, calls, n - 1) + call.lag, call.completed)]
  {
  }

  lemma CallRecorded(s: State, e: Entry, call: Call)
    ensures CallTimeout(s, e, call).timeouts.calls ==
            s.timeouts.calls + [TimeoutCall(e.reg, s.now + call.lag, call.completed)]
  {
    var record := TimeoutCall(e.reg, s.now + call.lag, call.completed);
    ScriptCallsNoTimeout(
      s.(now := s.now + call.lag, timeouts := s.timeouts.(calls := s.timeouts.calls + [record])), call.commands);
  }

  lemma OneMoreRecord(before: seq<TimeoutCall>, records: seq<TimeoutCall>, record: TimeoutCall)
    ensures before + records + [record] == before + (records + [record])
  {
  }

  /** A pump of timeouts calls at these instants. */
  lemma PumpCallTimes(s: State, calls: seq<Call>)
    ensures var due := Due(s.timeouts.pending, s.now);
      FireTimeouts(s, calls).timeouts.calls == s.timeouts.calls + CallRecords(s.now, due, calls, |due|)
  {
    var due := Due(s.timeouts.pending, s.now);
    TimeoutCallTimes(DrainTimeouts(s), due, calls, |due|);
  }

  lemma {:induction false} ScriptCallsNoTimeout(s: State, cs: seq<Command>)
    ensures RunScript(s, cs).timeouts.calls == s.timeouts.calls
  {
    if cs != [] { ScriptCallsNoTimeout(s, cs[..|cs| - 1]); }
  }

  // Timeouts.

  /** A registration is queued now, with its delay, and is drained by a pump at `p` exactly when the delay has
      passed. */
  lemma TimeoutIsSet(s: State, ms: nat, p: nat)
    ensures var q, q' := s.timeouts, Execute(s, SetTimeout(ms)).timeouts;
      && q'.sets == q.sets + [TimeoutSet(s.now, ms)]
      && |q'.pending| == |q.pending| + 1 && q'.pending[..|q.pending|] == q.pending
      && var e := q'.pending[|q.pending|];
      && e.reg == |q.sets| && e.id == q.counter
      && (e in Due(q'.pending, p) <==> p >= s.now + 1_000_000 * ms)
  {
    DrainMembers(Execute(s, SetTimeout(ms)).timeouts.pending, p);
  }

  /** On every run a queued timeout is drained by a pump at `p` exactly when its delay has passed since it was
      set. */
  lemma TimeoutDueExactly(steps: seq<Step>, e: Entry, p: nat)
    requires e in Run(steps).timeouts.pending
    ensures var q := Run(steps).timeouts;
      && e.reg < |q.sets|
      && (e in Due(q.pending, p) <==> p >= q.sets[e.reg].at + 1_000_000 * q.sets[e.reg].ms)
  {
    TimerRuns.RunKeepsInv(steps);
    assert TimeoutProperties.EntryOk(Run(steps).timeouts, e);
    DrainMembers(Run(steps).timeouts.pending, p);
  }

  // Intervals.

  /** A registration is queued now and is drained by a pump at `p` exactly when its period has passed. */
  lemma IntervalIsSet(s: State, ms: nat, p: nat)
    ensures var q, q' := s.intervals, Execute(s, SetInterval(ms)).intervals;
      && q'.periods == q.periods + [ms]
      && q'.log == Then(q.log, Registered(|q.periods|, q.counter, ms, s.now))
      && |q'.queue| == |q.queue| + 1 && q'.queue[..|q.queue|] == q.queue
      && var e := q'.queue[|q.queue|];
      && e.reg == |q.periods| && e.id == q.counter && e.ms == ms
      && (e in Due(q'.queue, p) <==> p >= s.now + 1_000_000 * ms)
  {
    DrainMembers(Execute(s, SetInterval(ms)).intervals.queue, p);
  }

  /** clearInterval takes its id out of the queue and nothing else, and is remembered. */
  lemma IntervalIsCleared(s: State, id: nat)
    ensures var q, q' := s.intervals, Execute(s, ClearInterval(id)).intervals;
      && (forall e :: e in q'.queue <==> e in q.queue && e.id != id)
      && (forall i :: i in q'.cleared <==> i in q.cleared || i == id)
      && q'.log == Then(q.log, Cleared(id)) && q'.periods == q.periods && q'.counter == q.counter
  {
    RemovalMembers(s.intervals.queue, id);
  }

  /** When registration `reg` was set or last returned. */
  function ArmedAt(log: History, reg: nat): nat {
    match log
    case Nothing => 0
    case Then(past, last) =>
      if (last.Registered? || last.Returned?) && last.reg == reg then last.at else ArmedAt(past, reg)
  }

  /** Every queued interval is due its period after it was set or last returned. */
  ghost predicate Armed(q: IntervalQueue) {
    forall e :: e in q.queue ==> e.deadline == ArmedAt(q.log, e.reg) + 1_000_000 * e.ms
  }

  lemma CommandKeepsArmed(s: State, flight: seq<Entry>, c: Command)
    requires IntervalProperties.Inv(s.intervals, flight) && Armed(s.intervals)
    ensures Armed(Execute(s, c).intervals)
  {
    var q' := Execute(s, c).intervals;
    assert forall e :: e in s.intervals.queue ==> IntervalProperties.EntryOk(s.intervals, e);
    match c
    case ClearInterval(id) => RemovalMembers(s.intervals.queue, id);
    case _ =>
  }

  lemma {:induction false} ScriptKeepsArmed(s: State, flight: seq<Entry>, cs: seq<Command>)
    requires IntervalProperties.Inv(s.intervals, flight) && Armed(s.intervals)
    ensures Armed(RunScript(s, cs).intervals)
  {
    if cs != [] {
      hide IntervalProperties.Inv, Armed, Execute;
      ScriptKeepsArmed(s, flight, cs[..|cs| - 1]);
      IntervalProperties.ScriptKeepsInv(s, flight, cs[..|cs| - 1]);
      CommandKeepsArmed(RunScript(s, cs[..|cs| - 1]), flight, cs[|cs| - 1]);
    }
  }

  lemma CallKeepsArmed(s: State, e: Entry, rest: seq<Entry>, call: Call)
    requires IntervalProperties.Inv(s.intervals, [e] + rest) && Armed(s.intervals) && e.deadline <= s.now
    ensures Armed(CallInterval(s, e, call).intervals)
  {
    var s1 := StartInterval(s, e, call);
    var e' := IntervalProperties.Rearmed(e, s1.now);
    IntervalProperties.StartKeepsInv(s, e, rest, call);
    ScriptKeepsArmed(s1, [e'] + rest, call.commands);
    IntervalProperties.ScriptKeepsInv(s1, [e'] + rest, call.commands);
    FinishKeepsArmed(RunScript(s1, call.commands), e, e', rest);
  }

  lemma FinishKeepsArmed(s: State, e: Entry, e': Entry, rest: seq<Entry>)
    requires IntervalProperties.Inv(s.intervals, [e'] + rest) && Armed(s.intervals)
    requires e' == e.(deadline := e'.deadline)
    ensures Armed(FinishInterval(s, e).intervals)
  {
    IntervalProperties.HeadIsAlone(s.intervals, e', rest);
    hide IntervalProperties.Inv;
  }

  lemma {:induction false} CallsKeepArmed(s: State, due: seq<Entry>, calls: seq<Call>, n: nat)
    requires n <= |due|
    requires IntervalProperties.Inv(s.intervals, due) && forall e :: e in due ==> e.deadline <= s.now
    requires Armed(s.intervals)
    ensures Armed(CallIntervals(s, due, calls, n).intervals)
  {
    if n > 0 {
      hide *;
      CallsKeepArmed(s, due, calls, n - 1);
      IntervalProperties.CallsKeepInv(s, due, calls, n - 1);
      FirstOfRest(due, n);
      CallKeepsArmed(CallIntervals(s, due, calls, n - 1), due[n - 1], due[n..], NthCall(calls, n - 1));
      NextCallInterval(s, due, calls, n);
    }
  }

  lemma FirstOfRest(due: seq<Entry>, n: nat)
    requires 0 < n <= |due|
    ensures due[n - 1..] == [due[n - 1]] + due[n..] && due[n - 1] in due
  {
  }

  lemma NextCallInterval(s: State, due: seq<Entry>, calls: seq<Call>, n: nat)
    requires 0 < n <= |due|
    ensures CallIntervals(s, due, calls, n) ==
            CallInterval(CallIntervals(s, due, calls, n - 1), due[n - 1], NthCall(calls, n - 1))
  {
  }

  lemma PumpKeepsArmed(s: State, calls: seq<Call>)
    requires IntervalProperties.Inv(s.intervals, []) && Armed(s.intervals)
    ensures Armed(FireIntervals(s, calls).intervals)
  {
    var due := Due(s.intervals.queue, s.now);
    IntervalProperties.DrainKeepsInv(s);
    DrainMembers(s.intervals.queue, s.now);
    CallsKeepArmed(DrainIntervals(s), due, calls, |due|);
  }

  lemma {:induction false} TimeoutCallsKeepArmed(s: State, due: seq<Entry>, calls: seq<Call>, n: nat)
    requires n <= |due| && IntervalProperties.Inv(s.intervals, []) && Armed(s.intervals)
    ensures Armed(CallTimeouts(s, due, calls, n).intervals)
  {
    if n > 0 {
      hide IntervalProperties.Inv, Armed, CallTimeout, CallTimeouts, NthCall;
      TimeoutCallsKeepArmed(s, due, calls, n - 1);
      TimerRuns.TimeoutCallsKeepIntervals(s, due, calls, n - 1);
      TimeoutProperties.NextCallTimeouts(s, due, calls, n);
      TimeoutCallKeepsArmed(CallTimeouts(s, due, calls, n - 1), due[n - 1], NthCall(calls, n - 1));
    }
  }

  lemma TimeoutCallKeepsArmed(s: State, e: Entry, call: Call)
    requires IntervalProperties.Inv(s.intervals, []) && Armed(s.intervals)
    ensures Armed(CallTimeout(s, e, call).intervals)
  {
    hide IntervalProperties.Inv, Armed;
    var record := TimeoutCall(e.reg, s.now + call.lag, call.completed);
    ScriptKeepsArmed(
      s.(now := s.now + call.lag, timeouts := s.timeouts.(calls := s.timeouts.calls + [record])), [], call.commands);
  }

  lemma {:induction false} RunKeepsArmed(steps: seq<Step>)
    ensures Armed(Run(steps).intervals)
  {
    if steps != [] {
      var s := Run(steps[..|steps| - 1]);
      RunKeepsArmed(steps[..|steps| - 1]);
      TimerRuns.RunKeepsInv(steps[..|steps| - 1]);
      match steps[|steps| - 1]
      case Script(cs) => ScriptKeepsArmed(s, [], cs);
      case PumpIntervals(calls) => PumpKeepsArmed(s, calls);
      case PumpTimeouts(calls) =>
        var due := Due(s.timeouts.pending, s.now);
        TimeoutCallsKeepArmed(DrainTimeouts(s), due, calls, |due|);
      case NewRequest =>
    }
  }

  /** On every run a queued interval is drained by a pump at `p` exactly when its period has passed since it was
      set or its last call returned. */
  lemma IntervalDueExactly(steps: seq<Step>, e: Entry, p: nat)
    requires e in Run(steps).intervals.queue
    ensures var q := Run(steps).intervals;
      && e.reg < |q.periods|
      && (e in Due(q.queue, p) <==> p >= ArmedAt(q.log, e.reg) + 1_000_000 * q.periods[e.reg])
  {
    TimerRuns.RunKeepsInv(steps);
    RunKeepsArmed(steps);
    assert IntervalProperties.EntryOk(Run(steps).intervals, e);
    DrainMembers(Run(steps).intervals.queue, p);
  }

  /** One call of an interval is logged when it starts and when it returns, with what its commands did in
      between. */
  lemma IntervalCallTimes(s: State, e: Entry, call: Call)
    ensures var s' := CallInterval(s, e, call);
      var at, q := s.now + call.lag, s.intervals;
      var started := s.(now := at, intervals := q.(log := Then(q.log, Started(e.reg, e.ms, at))));
      && s'.now == s.now + call.lag + Elapsed(call.commands)
      && s'.intervals.log == Then(RunScript(started, call.commands).intervals.log, Returned(e.reg, e.ms, s'.now))
      && s'.timeouts == RunScript(started, call.commands).timeouts
      && var ran := RunScript(started, call.commands).intervals;
      s'.intervals.queue == if e.id in ran.cleared then ran.queue
                            else ran.queue + [e.(deadline := s'.now + 1_000_000 * e.ms)]
  {
    ScriptTime(StartInterval(s, e, call), call.commands);
    hide RunScript, Elapsed;
  }

  // Pumps and requests end.

  /** The entries of a pump of timeouts whose calls returned no value come last in the queue, in their order. */
  lemma FailedComeLast(s: State, calls: seq<Call>) returns (kept: seq<Entry>, failed: seq<Entry>, at: seq<nat>)
    ensures FireTimeouts(s, calls).timeouts.pending == kept + failed
    ensures var due := Due(s.timeouts.pending, s.now);
      && kept == CallTimeouts(DrainTimeouts(s), due, calls, |due|).timeouts.pending
      && Picks(failed, due, at)
      && forall k: nat :: k in at <==> k < |due| && !NthCall(calls, k).completed
  {
    var due := Due(s.timeouts.pending, s.now);
    kept, failed := CallTimeouts(DrainTimeouts(s), due, calls, |due|).timeouts.pending, Failed(due, calls, |due|);
    at := FailedInOrder(due, calls, |due|);
  }

  lemma {:induction false} FailedInOrder(due: seq<Entry>, calls: seq<Call>, n: nat) returns (at: seq<nat>)
    requires n <= |due|
    ensures Picks(Failed(due, calls, n), due, at)
    ensures forall k: nat :: k in at <==> k < n && !NthCall(calls, k).completed
  {
    at := [];
    if n > 0 {
      hide Failed, Picks, NthCall;
      at := FailedInOrder(due, calls, n - 1);
      NextFailed(due, calls, n);
      if !NthCall(calls, n - 1).completed {
        PickOneMore(Failed(due, calls, n - 1), due, at, n - 1);
        at := at + [n - 1];
      }
    }
  }

  lemma NextFailed(due: seq<Entry>, calls: seq<Call>, n: nat)
    requires 0 < n <= |due|
    ensures NthCall(calls, n - 1).completed ==> Failed(due, calls, n) == Failed(due, calls, n - 1)
    ensures !NthCall(calls, n - 1).completed ==> Failed(due, calls, n) == Failed(due, calls, n - 1) + [due[n - 1]]
  {
  }

  lemma PickOneMore(part: seq<Entry>, whole: seq<Entry>, at: seq<nat>, k: nat)
    requires Picks(part, whole, at) && k < |whole| && forall i :: i in at ==> i < k
    ensures Picks(part + [whole[k]], whole, at + [k])
  {
    assert forall i :: 0 <= i < |at| ==> at[i] in at;
  }

  /** When a pump has ended no clear is remembered. */
  lemma PumpForgetsClears(s: State, calls: seq<Call>, id: nat)
    ensures var q := FireIntervals(s, calls).intervals;
      q.cleared == [] && q.log == Then(DispatchIntervals(s, calls).intervals.log, PumpEnded) &&
      !IntervalProperties.ClearedSincePump(q.log, id)
  {
  }

  /** A request begins with empty queues, no remembered clear, and the ids 1 and 100. */
  lemma RequestStartsClean(steps: seq<Step>, ms: nat)
    ensures var s := Run(steps + [NewRequest]);
      && s.timeouts.pending == [] && s.intervals.queue == [] && s.intervals.cleared == []
      && s.now == Run(steps).now
      && Execute(s, SetTimeout(ms)).timeouts.pending[0].id == 1
      && Execute(s, SetInterval(ms)).intervals.queue[0].id == 100
  {
    assert (steps + [NewRequest])[..|steps + [NewRequest]| - 1] == steps;
  }
}
