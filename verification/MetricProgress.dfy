/** Every call that records a request returns: the two locks and the stages of a call leave no way to hang. */
module MetricProgress {
  import opened Wrappers
  import opened Ranks
  import opened MetricVecs

  /** How many steps a call has left at most. */
  function StageWork(g: Stage): nat {
    match g
    case WantRead => 9
    case Looking => 8
    case WantWrite => 7
    case Checking => 6
    case Vacant => 5
    case Updating(_, done) => if done <= 3 then 4 - done else 0
  }

  function ThreadWork(t: Thread): nat {
    match t
    case Idle => 0
    case InCounter(_, g) => 10 + StageWork(g)
    case InHistogram(_, g) => StageWork(g)
  }

  function Work(ts: seq<Thread>): nat {
    if ts == [] then 0 else Work(ts[..|ts| - 1]) + ThreadWork(ts[|ts| - 1])
  }

  lemma {:induction false} WorkUpdate(ts: seq<Thread>, i: nat, t: Thread)
    requires i < |ts|
    ensures Work(ts[i := t]) + ThreadWork(ts[i]) == Work(ts) + ThreadWork(t)
  {
    if i == |ts| - 1 {
      assert ts[i := t][..|ts| - 1] == ts[..|ts| - 1];
    } else {
      WorkUpdate(ts[..|ts| - 1], i, t);
      assert ts[i := t][..|ts| - 1] == ts[..|ts| - 1][i := t];
    }
  }

  /** Every step leaves less to do. */
  lemma StepAdvances(s: State, t: nat)
    requires LockInv(s) && Enabled(s, Step(t))
    ensures Work(Apply(s, Step(t)).threads) < Work(s.threads) && Apply(s, Step(t)).begun == s.begun
  {
    var s' := Apply(s, Step(t));
    assert EntryKnown(s, s.threads[t]);
    assert ThreadWork(s'.threads[t]) < ThreadWork(s.threads[t]);
    assert s'.threads == s.threads[t := s'.threads[t]];
    WorkUpdate(s.threads, t, s'.threads[t]);
  }

  lemma OneMore(bounds: seq<Bound>, n: nat, actions: seq<Action>, a: Action)
    requires After(bounds, n, actions).Some? && Enabled(After(bounds, n, actions).value, a)
    ensures After(bounds, n, actions + [a]) == Some(Apply(After(bounds, n, actions).value, a))
  {
    assert (actions + [a])[..|actions + [a]| - 1] == actions;
  }

  /** From every reachable state the calls in progress can all return, in a bounded number of steps. */
  lemma {:induction false} CallsReturn(bounds: seq<Bound>, n: nat, actions: seq<Action>) returns (run: seq<Action>)
    requires After(bounds, n, actions).Some?
    ensures After(bounds, n, run).Some? && Quiescent(After(bounds, n, run).value)
    ensures After(bounds, n, run).value.begun == After(bounds, n, actions).value.begun
    ensures |run| <= |actions| + Work(After(bounds, n, actions).value.threads)
    decreases Work(After(bounds, n, actions).value.threads)
  {
    var s := After(bounds, n, actions).value;
    if Quiescent(s) {
      run := actions;
    } else {
      NeverDeadlocked(bounds, n, actions);
      var t :| Enabled(s, Step(t));
      RunLocks(bounds, n, actions);
      hide LockInv, Apply, Work;
      StepAdvances(s, t);
      OneMore(bounds, n, actions, Step(t));
      run := CallsReturn(bounds, n, actions + [Step(t)]);
    }
  }

  /** An idle thread can record any request at any time, and the call returns. */
  lemma EveryCallReturns(bounds: seq<Bound>, n: nat, actions: seq<Action>, t: nat, c: Call) returns (run: seq<Action>)
    requires After(bounds, n, actions).Some?
    requires var s := After(bounds, n, actions).value; t < |s.threads| && s.threads[t].Idle?
    ensures After(bounds, n, run).Some? && Quiescent(After(bounds, n, run).value)
    ensures After(bounds, n, run).value.begun == After(bounds, n, actions).value.begun + [c]
  {
    OneMore(bounds, n, actions, Begin(t, c));
    run := CallsReturn(bounds, n, actions + [Begin(t, c)]);
  }
}
