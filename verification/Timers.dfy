/** The timer thread-locals and the native callbacks that work on them, as they are written. */
module Timers {
  import opened Wrappers
  import opened TimerQueues

  class TimerThread {
    var now: nat
    var pendingTimeouts: seq<Entry>
    var timeoutIdCounter: nat
    var pendingIntervals: seq<Entry>
    var clearedDuringFire: seq<nat>
    var intervalIdCounter: nat

    // History of both queues.
    ghost var timeoutSets: seq<TimeoutSet>
    ghost var timeoutBase: nat
    ghost var timeoutCalls: seq<TimeoutCall>
    ghost var timeoutsRemoved: seq<Entry>
    ghost var intervalPeriods: seq<nat>
    ghost var intervalBase: nat
    ghost var intervalLog: History

    // The numbers of registrations, kept to tell entries apart.
    var timeoutRegs: nat
    var intervalRegs: nat

    ghost predicate Valid()
      reads this
    {
      timeoutRegs == |timeoutSets| && intervalRegs == |intervalPeriods|
    }

    ghost function View(): State
      reads this
    {
      State(now,
            TimeoutQueue(pendingTimeouts, timeoutIdCounter, timeoutSets, timeoutBase, timeoutCalls, timeoutsRemoved),
            IntervalQueue(
              pendingIntervals, clearedDuringFire, intervalIdCounter, intervalPeriods, intervalBase, intervalLog))
    }

    constructor ()
      ensures Valid() && View() == INITIAL
    {
      now, pendingTimeouts, timeoutIdCounter := 0, [], FIRST_TIMEOUT_ID;
      pendingIntervals, clearedDuringFire, intervalIdCounter := [], [], FIRST_INTERVAL_ID;
      timeoutSets, timeoutBase, timeoutCalls, timeoutsRemoved := [], 0, [], [];
      intervalPeriods, intervalBase, intervalLog := [], 0, Nothing;
      timeoutRegs, intervalRegs := 0, 0;
    }

    method SetTimeoutCallback(delayMs: nat) returns (id: nat)
      requires Valid()
      modifies this
      ensures Valid() && View() == Execute(old(View()), SetTimeout(delayMs))
      ensures id == old(timeoutIdCounter)
    {
      id := timeoutIdCounter;
      timeoutIdCounter := if id >= TIMEOUT_IDS then FIRST_TIMEOUT_ID else id + 1;
      pendingTimeouts := pendingTimeouts + [Entry(timeoutRegs, id, delayMs, After(now, delayMs))];
      timeoutSets := timeoutSets + [TimeoutSet(now, delayMs)];
      timeoutRegs := timeoutRegs + 1;
    }

    method SetIntervalCallback(intervalMs: nat) returns (id: nat)
      requires Valid()
      modifies this
      ensures Valid() && View() == Execute(old(View()), SetInterval(intervalMs))
      ensures id == old(intervalIdCounter)
    {
      id := intervalIdCounter;
      intervalIdCounter := (id + 1) % U32_SIZE;
      pendingIntervals := pendingIntervals + [Entry(intervalRegs, id, intervalMs, After(now, intervalMs))];
      intervalLog := Then(intervalLog, Registered(intervalRegs, id, intervalMs, now));
      intervalPeriods := intervalPeriods + [intervalMs];
      intervalRegs := intervalRegs + 1;
    }

    method ClearTimeoutCallback(targetId: nat)
      requires Valid()
      modifies this
      ensures Valid() && View() == Execute(old(View()), ClearTimeout(targetId))
    {
      timeoutsRemoved := timeoutsRemoved + WithId(pendingTimeouts, targetId);
      pendingTimeouts := Without(pendingTimeouts, targetId);
    }

    method ClearIntervalCallback(targetId: nat)
      requires Valid()
      modifies this
      ensures Valid() && View() == Execute(old(View()), ClearInterval(targetId))
    {
      pendingIntervals := Without(pendingIntervals, targetId);
      if targetId !in clearedDuringFire {
        clearedDuringFire := clearedDuringFire + [targetId];
      }
      intervalLog := Then(intervalLog, Cleared(targetId));
    }

    /** Runs the commands of one script or callback. */
    method Perform(commands: seq<Command>)
      requires Valid()
      modifies this
      ensures Valid() && View() == RunScript(old(View()), commands)
    {
      for i := 0 to |commands|
        invariant Valid() && View() == RunScript(old(View()), commands[..i])
      {
        assert commands[..i + 1][..i] == commands[..i];
        match commands[i] {
          case SetTimeout(ms) => var _ := SetTimeoutCallback(ms);
          case SetInterval(ms) => var _ := SetIntervalCallback(ms);
          case ClearTimeout(id) => ClearTimeoutCallback(id);
          case ClearInterval(id) => ClearIntervalCallback(id);
          case Elapse(nanos) => now := now + nanos;
        }
      }
      assert commands[..|commands|] == commands;
    }

    method FirePendingIntervals(calls: seq<Call>)
      requires Valid()
      modifies this
      ensures Valid() && View() == FireIntervals(old(View()), calls)
    {
      var due := DrainDueIntervals();
      ghost var drained := View();
      for k := 0 to |due|
        invariant Valid() && View() == CallIntervals(drained, due, calls, k)
      {
        FireInterval(due[k], NthCall(calls, k));
      }
      clearedDuringFire := [];
      intervalLog := Then(intervalLog, PumpEnded);
    }

    /** Calls one drained interval and re-inserts it unless its id was cleared. */
    method FireInterval(entry: Entry, call: Call)
      requires Valid()
      modifies this
      ensures Valid() && View() == CallInterval(old(View()), entry, call)
    {
      now := now + call.lag;
      intervalLog := Then(intervalLog, Started(entry.reg, entry.ms, now));
      Perform(call.commands);
      intervalLog := Then(intervalLog, Returned(entry.reg, entry.ms, now));
      if entry.id !in clearedDuringFire {
        pendingIntervals := pendingIntervals + [entry.(deadline := After(now, entry.ms))];
      }
    }

    method DrainDueIntervals() returns (due: seq<Entry>)
      requires Valid()
      modifies this`pendingIntervals
      ensures due == Due(old(pendingIntervals), now)
      ensures pendingIntervals == Later(old(pendingIntervals), now)
    {
      due := [];
      var i := 0;
      ghost var all := pendingIntervals;
      while i < |pendingIntervals|
        invariant 0 <= i <= |pendingIntervals| && i + |due| <= |all|
        invariant pendingIntervals[i..] == all[i + |due|..]
        invariant pendingIntervals[..i] == Later(all[..i + |due|], now)
        invariant due == Due(all[..i + |due|], now)
      {
        ghost var p := i + |due|;
        NextEntry(all, pendingIntervals, i, p, now);
        if now >= pendingIntervals[i].deadline {
          due := due + [pendingIntervals[i]];
          pendingIntervals := pendingIntervals[..i] + pendingIntervals[i + 1..];
        } else {
          i := i + 1;
        }
      }
      assert all[..i + |due|] == all && pendingIntervals[..i] == pendingIntervals;
    }

    method FirePendingTimeouts(calls: seq<Call>)
      requires Valid()
      modifies this
      ensures Valid() && View() == FireTimeouts(old(View()), calls)
    {
      var due := DrainDueTimeouts();
      ghost var drained := View();
      var failed := [];
      for k := 0 to |due|
        invariant Valid() && View() == CallTimeouts(drained, due, calls, k)
        invariant failed == Failed(due, calls, k)
      {
        FireTimeout(due[k], NthCall(calls, k));
        if !NthCall(calls, k).completed {
          failed := failed + [due[k]];
        }
      }
      pendingTimeouts := pendingTimeouts + failed;
    }

    /** Calls one drained timeout. */
    method FireTimeout(entry: Entry, call: Call)
      requires Valid()
      modifies this
      ensures Valid() && View() == CallTimeout(old(View()), entry, call)
    {
      now := now + call.lag;
      timeoutCalls := timeoutCalls + [TimeoutCall(entry.reg, now, call.completed)];
      Perform(call.commands);
    }

    method DrainDueTimeouts() returns (due: seq<Entry>)
      requires Valid()
      modifies this`pendingTimeouts
      ensures due == Due(old(pendingTimeouts), now)
      ensures pendingTimeouts == Later(old(pendingTimeouts), now)
    {
      due := [];
      var i := 0;
      ghost var all := pendingTimeouts;
      while i < |pendingTimeouts|
        invariant 0 <= i <= |pendingTimeouts| && i + |due| <= |all|
        invariant pendingTimeouts[i..] == all[i + |due|..]
        invariant pendingTimeouts[..i] == Later(all[..i + |due|], now)
        invariant due == Due(all[..i + |due|], now)
      {
        ghost var p := i + |due|;
        NextEntry(all, pendingTimeouts, i, p, now);
        if now >= pendingTimeouts[i].deadline {
          due := due + [pendingTimeouts[i]];
          pendingTimeouts := pendingTimeouts[..i] + pendingTimeouts[i + 1..];
        } else {
          i := i + 1;
        }
      }
      assert all[..i + |due|] == all && pendingTimeouts[..i] == pendingTimeouts;
    }

    method ClearPendingIntervals()
      requires Valid()
      modifies this
      ensures Valid() && View() == old(View()).(intervals := ResetIntervals(old(View()).intervals))
    {
      pendingIntervals := [];
      clearedDuringFire := [];
      intervalIdCounter := FIRST_INTERVAL_ID;
      intervalBase := |intervalPeriods|;
      intervalLog := Then(intervalLog, PumpEnded);
    }

    method ClearPendingTimeouts()
      requires Valid()
      modifies this
      ensures Valid() && View() == old(View()).(timeouts := ResetTimeouts(old(View()).timeouts))
    {
      timeoutsRemoved := timeoutsRemoved + pendingTimeouts;
      pendingTimeouts := [];
      timeoutIdCounter := FIRST_TIMEOUT_ID;
      timeoutBase := |timeoutSets|;
    }

    /** Both queues are emptied and their ids start over when a request begins. */
    method BeginRequest()
      requires Valid()
      modifies this
      ensures Valid() && View() == Take(old(View()), NewRequest)
    {
      hide ResetIntervals, ResetTimeouts;
      ClearPendingIntervals();
      ClearPendingTimeouts();
    }
  }

  /** One round of the drain loop: `p` entries of `all` were looked at, `live` holds the rest. */
  lemma NextEntry(all: seq<Entry>, live: seq<Entry>, i: nat, p: nat, now: nat)
    requires i < |live| && p <= |all|
    requires live[i..] == all[p..]
    requires live[..i] == Later(all[..p], now)
    ensures p < |all| && live[i] == all[p]
    ensures Due(all[..p + 1], now) == Due(all[..p], now) + if now >= live[i].deadline then [live[i]] else []
    ensures now >= live[i].deadline ==>
      var rest := live[..i] + live[i + 1..];
      rest[..i] == Later(all[..p + 1], now) && rest[i..] == all[p + 1..]
    ensures now < live[i].deadline ==> live[..i + 1] == Later(all[..p + 1], now) && live[i + 1..] == all[p + 1..]
  {
    assert live[i] == live[i..][0] == all[p..][0] == all[p];
    assert all[..p + 1][..p] == all[..p];
    assert live[i + 1..] == live[i..][1..] == all[p..][1..] == all[p + 1..];
    if now >= live[i].deadline {
      var rest := live[..i] + live[i + 1..];
      assert rest[..i] == live[..i] && rest[i..] == live[i + 1..];
      assert Later(all[..p + 1], now) == Later(all[..p], now);
    } else {
      assert live[..i + 1] == live[..i] + [live[i]];
    }
  }
}
