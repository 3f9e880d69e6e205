/**
 Graceful drain: request handles that count themselves in and out of a shared counter, and waiters that
 block on a semaphore until the counter has reached zero. Every atomic operation is one step; steps of
 different threads interleave in any way. A permit taken by a waiter goes back when its call returns.
 */
module Drain {
  import opened Wrappers

  datatype Waiter = NotStarted | Waiting | Holding | Returned(drained: bool)

  /** `signalling` counts the completers between their decrement and their add_permits; `started` and
      `zeros` are histories: requests started, and decrements that took the counter to zero. */
  datatype State = State(
    active: int, live: set<nat>, signalling: nat, permits: nat, waiters: seq<Waiter>, started: nat, zeros: nat)

  function Start(n: nat): State {
    State(0, {}, 0, 0, seq(n, _ => NotStarted), 0, 0)
  }

  datatype Action =
    | NewHandle(h: nat)
    | DropHandle(h: nat)
    | AddPermit
    | Check(w: nat)
    | Acquire(w: nat)
    | Return(w: nat)
    | TimeOut(w: nat)

  predicate Is(s: State, w: nat, state: Waiter) {
    w < |s.waiters| && s.waiters[w] == state
  }

  predicate Enabled(s: State, a: Action) {
    match a
    case NewHandle(h) => h !in s.live
    case DropHandle(h) => h in s.live
    case AddPermit => s.signalling > 0
    case Check(w) => Is(s, w, NotStarted)
    case Acquire(w) => Is(s, w, Waiting) && s.permits > 0
    case Return(w) => Is(s, w, Holding)
    case TimeOut(w) => Is(s, w, Waiting)
  }

  function Apply(s: State, a: Action): State
    requires Enabled(s, a)
  {
    match a
    case NewHandle(h) => s.(active := s.active + 1, live := s.live + {h}, started := s.started + 1)
    case DropHandle(h) =>
      var last := s.active == 1;
      s.(active := s.active - 1, live := s.live - {h},
         signalling := s.signalling + if last then 1 else 0,
         zeros := s.zeros + if last then 1 else 0)
    case AddPermit => s.(signalling := s.signalling - 1, permits := s.permits + 1)
    case Check(w) => s.(waiters := s.waiters[w := if s.active == 0 then Returned(true) else Waiting])
    case Acquire(w) => s.(permits := s.permits - 1, waiters := s.waiters[w := Holding])
    case Return(w) => s.(permits := s.permits + 1, waiters := s.waiters[w := Returned(true)])
    case TimeOut(w) => s.(waiters := s.waiters[w := Returned(false)])
  }

  /** The state after the actions, if each could happen in its turn. */
  function Run(s: State, actions: seq<Action>): Option<State>
    decreases |actions|
  {
    if actions == [] then Some(s)
    else if Enabled(s, actions[0]) then Run(Apply(s, actions[0]), actions[1..])
    else None
  }

  function Held(ws: seq<Waiter>): nat {
    if ws == [] then 0 else Held(ws[..|ws| - 1]) + if ws[|ws| - 1] == Holding then 1 else 0
  }

  lemma {:induction false} HeldUpdate(ws: seq<Waiter>, w: nat, x: Waiter)
    requires w < |ws|
    ensures Held(ws[w := x]) + (if ws[w] == Holding then 1 else 0) == Held(ws) + (if x == Holding then 1 else 0)
  {
    if w == |ws| - 1 {
      assert ws[w := x][..|ws| - 1] == ws[..|ws| - 1];
    } else {
      HeldUpdate(ws[..|ws| - 1], w, x);
      assert ws[w := x][..|ws| - 1] == ws[..|ws| - 1][w := x];
    }
  }

  lemma {:induction false} HeldBySome(ws: seq<Waiter>)
    ensures Held(ws) > 0 <==> exists w :: 0 <= w < |ws| && ws[w] == Holding
  {
    if ws != [] {
      HeldBySome(ws[..|ws| - 1]);
      if ws[|ws| - 1] != Holding && Held(ws) > 0 {
        var w :| 0 <= w < |ws| - 1 && ws[..|ws| - 1][w] == Holding;
        assert ws[w] == Holding;
      }
      if exists w :: 0 <= w < |ws| && ws[w] == Holding {
        var w :| 0 <= w < |ws| && ws[w] == Holding;
        assert w < |ws| - 1 ==> ws[..|ws| - 1][w] == Holding;
      }
    }
  }

  /** The counter is the number of live handles; every zero that was reached has its permit available,
      held by a waiter, or about to be added. */
  ghost predicate Inv(s: State) {
    && s.active == |s.live|
    && s.permits + Held(s.waiters) + s.signalling == s.zeros
    && (s.started > 0 && s.active == 0 ==> s.zeros > 0)
  }

  lemma StepKeepsInv(s: State, a: Action)
    requires Inv(s) && Enabled(s, a)
    ensures Inv(Apply(s, a)) && Apply(s, a).zeros >= s.zeros
  {
    var s' := Apply(s, a);
    match a
    case NewHandle(h) =>
    case DropHandle(h) =>
    case AddPermit =>
    case Check(w) => HeldUpdate(s.waiters, w, s'.waiters[w]);
    case Acquire(w) => HeldUpdate(s.waiters, w, Holding);
    case Return(w) => HeldUpdate(s.waiters, w, Returned(true));
    case TimeOut(w) => HeldUpdate(s.waiters, w, Returned(false));
  }

  lemma {:induction false} RunKeepsInv(s: State, actions: seq<Action>)
    requires Inv(s) && Run(s, actions).Some?
    ensures Inv(Run(s, actions).value)
    decreases |actions|
  {
    if actions != [] {
      StepKeepsInv(s, actions[0]);
      RunKeepsInv(Apply(s, actions[0]), actions[1..]);
    }
  }

  lemma {:induction false} NoneHeld(n: nat)
    ensures Held(Start(n).waiters) == 0
  {
    HeldBySome(Start(n).waiters);
  }

  // The results.

  /** In every interleaving the counter equals the number of live handles, so it never underflows. */
  lemma CounterIsLiveHandles(n: nat, actions: seq<Action>)
    requires Run(Start(n), actions).Some?
    ensures var s := Run(Start(n), actions).value;
      && s.active == |s.live|
      && (forall h :: Enabled(s, DropHandle(h)) ==> s.active >= 1)
  {
    NoneHeld(n);
    RunKeepsInv(Start(n), actions);
    var s := Run(Start(n), actions).value;
    forall h | h in s.live ensures s.active >= 1 {
      assert |s.live| == |s.live - {h}| + 1;
    }
  }

  /** No lost wake-up: once some request ran and the counter is zero, a waiter can acquire a permit, or a
      completer is about to add one, or another waiter is about to give one back. */
  lemma NoLostWakeUp(n: nat, actions: seq<Action>, w: nat)
    requires Run(Start(n), actions).Some?
    requires var s := Run(Start(n), actions).value;
      s.active == 0 && s.started > 0 && Is(s, w, Waiting)
    ensures var s := Run(Start(n), actions).value;
      && (s.signalling == 0 ==> s.permits + Held(s.waiters) >= 1)
      && (Enabled(s, Acquire(w)) || Enabled(s, AddPermit) || exists v :: Enabled(s, Return(v)))
  {
    NoneHeld(n);
    RunKeepsInv(Start(n), actions);
    var s := Run(Start(n), actions).value;
    HeldBySome(s.waiters);
    if s.permits == 0 && s.signalling == 0 {
      var v :| 0 <= v < |s.waiters| && s.waiters[v] == Holding;
      assert Enabled(s, Return(v));
    }
  }

  /** With nothing active await_complete returns true at once; otherwise it waits. */
  lemma CheckDecides(n: nat, actions: seq<Action>, w: nat)
    requires Run(Start(n), actions).Some? && Is(Run(Start(n), actions).value, w, NotStarted)
    ensures var s := Run(Start(n), actions).value;
      Enabled(s, Check(w)) &&
      var s' := Apply(s, Check(w));
      && s'.waiters == s.waiters[w := if s.live == {} then Returned(true) else Waiting]
      && s' == s.(waiters := s'.waiters)
  {
    NoneHeld(n);
    RunKeepsInv(Start(n), actions);
    var s := Run(Start(n), actions).value;
    assert s.live == {} <==> |s.live| == 0;
  }

  /** A waiter that waits takes a permit and gives it back with true, or times out with false; nothing else
      makes it return. */
  lemma WaiterMoves(s: State, a: Action, w: nat)
    requires Enabled(s, a) && w < |s.waiters| && s.waiters[w] in {Waiting, Holding}
    ensures var now := Apply(s, a).waiters[w];
      && (now == Returned(false) <==> a == TimeOut(w))
      && (now == Returned(true) <==> a == Return(w))
      && (now == Holding <==> a == Acquire(w) || (s.waiters[w] == Holding && a != Return(w)))
      && (s.waiters[w] == Waiting ==> Enabled(s, TimeOut(w)) && (Enabled(s, Acquire(w)) <==> s.permits > 0))
  {
  }

  /** The counter is above zero in every state of a run. */
  predicate StaysBusy(s: State, actions: seq<Action>)
    requires Run(s, actions).Some?
    decreases |actions|
  {
    s.active != 0 && (actions == [] || StaysBusy(Apply(s, actions[0]), actions[1..]))
  }

  /** A call of await_complete begun in `s` can return true although requests are active all the time. */
  ghost predicate ReturnsTrueWhileBusy(s: State, w: nat) {
    exists actions :: var run := [Check(w)] + actions;
      Run(s, run).Some? && Is(Run(s, run).value, w, Returned(true)) && StaysBusy(s, run)
  }

  lemma {:induction false} NoPermitNoReturn(s: State, actions: seq<Action>, w: nat)
    requires Inv(s) && s.zeros == 0 && (Is(s, w, Waiting) || Is(s, w, Returned(false)))
    requires Run(s, actions).Some? && StaysBusy(s, actions)
    ensures Is(Run(s, actions).value, w, Waiting) || Is(Run(s, actions).value, w, Returned(false))
    decreases |actions|
  {
    if actions != [] {
      var s1 := Apply(s, actions[0]);
      StepKeepsInv(s, actions[0]);
      HeldBySome(s.waiters);
      assert s1.active != 0;
      NoPermitNoReturn(s1, actions[1..], w);
    }
  }

  lemma OneStep(s: State, a: Action, rest: seq<Action>)
    requires Enabled(s, a)
    ensures Run(s, [a] + rest) == Run(Apply(s, a), rest)
    ensures Run(Apply(s, a), rest).Some? && s.active != 0 && StaysBusy(Apply(s, a), rest) ==> StaysBusy(s, [a] + rest)
  {
    assert ([a] + rest)[1..] == rest;
  }

  /** With a permit available the waiter takes it and returns. */
  lemma TakesPermit(s: State, w: nat)
    requires Is(s, w, Waiting) && s.permits > 0 && s.active != 0
    ensures var run := [Acquire(w), Return(w)];
      Run(s, run).Some? && Is(Run(s, run).value, w, Returned(true)) && StaysBusy(s, run)
  {
    var s1 := Apply(s, Acquire(w));
    OneStep(s1, Return(w), []);
    OneStep(s, Acquire(w), [Return(w)]);
    assert [Acquire(w)] + [Return(w)] == [Acquire(w), Return(w)] && [Return(w)] + [] == [Return(w)];
  }

  lemma StalePermitReturns(s: State, w: nat)
    requires Inv(s) && s.active != 0 && s.zeros > 0 && Is(s, w, NotStarted)
    ensures ReturnsTrueWhileBusy(s, w)
  {
    var s1 := Apply(s, Check(w));
    HeldUpdate(s.waiters, w, Waiting);
    HeldBySome(s1.waiters);
    var tail := [Acquire(w), Return(w)];
    if s1.permits > 0 {
      TakesPermit(s1, w);
      OneStep(s, Check(w), tail);
      assert Run(s, [Check(w)] + tail).Some?;
    } else if s1.signalling > 0 {
      TakesPermit(Apply(s1, AddPermit), w);
      OneStep(s1, AddPermit, tail);
      OneStep(s, Check(w), [AddPermit] + tail);
      assert Run(s, [Check(w)] + ([AddPermit] + tail)).Some?;
    } else {
      var v :| 0 <= v < |s1.waiters| && s1.waiters[v] == Holding;
      TakesPermit(Apply(s1, Return(v)), w);
      OneStep(s1, Return(v), tail);
      OneStep(s, Check(w), [Return(v)] + tail);
      assert Run(s, [Check(w)] + ([Return(v)] + tail)).Some?;
    }
  }

  /** One request that comes and goes, then another that stays: the second is active and the counter has been
      at zero, so a waiter that comes now returns true although that request never ends. */
  lemma SecondRequestIsNotWaitedFor()
    ensures var actions := [NewHandle(0), DropHandle(0), NewHandle(1)];
      && Run(Start(1), actions).Some?
      && Run(Start(1), actions).value.live == {1}
      && Is(Run(Start(1), actions).value, 0, NotStarted)
      && ReturnsTrueWhileBusy(Run(Start(1), actions).value, 0)
  {
    var s0 := Start(1);
    var s1 := Apply(s0, NewHandle(0));
    var s2 := Apply(s1, DropHandle(0));
    var s3 := Apply(s2, NewHandle(1));
    OneStep(s2, NewHandle(1), []);
    OneStep(s1, DropHandle(0), [NewHandle(1)]);
    OneStep(s0, NewHandle(0), [DropHandle(0), NewHandle(1)]);
    assert [NewHandle(1)] + [] == [NewHandle(1)] && [DropHandle(0)] + [NewHandle(1)] == [DropHandle(0), NewHandle(1)];
    var actions := [NewHandle(0), DropHandle(0), NewHandle(1)];
    assert [NewHandle(0)] + [DropHandle(0), NewHandle(1)] == actions;
    assert Run(s0, actions) == Some(s3) && s3.live == {1} && s3.zeros == 1;
    NoneHeld(1);
    RunKeepsInv(s0, actions);
    StalePermitReturns(s3, 0);
  }

  /** What a `true` is worth: with requests active at the time of the call, await_complete can return true
      without the counter ever being zero during the call exactly when the counter had already gone from
      one to zero at some time before. */
  lemma TrueWithoutDrainExactly(n: nat, actions: seq<Action>, w: nat)
    requires Run(Start(n), actions).Some?
    requires var s := Run(Start(n), actions).value; s.active != 0 && Is(s, w, NotStarted)
    ensures var s := Run(Start(n), actions).value;
      ReturnsTrueWhileBusy(s, w) <==> s.zeros > 0
  {
    NoneHeld(n);
    RunKeepsInv(Start(n), actions);
    var s := Run(Start(n), actions).value;
    if s.zeros > 0 {
      StalePermitReturns(s, w);
    } else if ReturnsTrueWhileBusy(s, w) {
      var rest :| var run := [Check(w)] + rest;
        Run(s, run).Some? && Is(Run(s, run).value, w, Returned(true)) && StaysBusy(s, run);
      assert ([Check(w)] + rest)[1..] == rest;
      StepKeepsInv(s, Check(w));
      NoPermitNoReturn(Apply(s, Check(w)), rest, w);
    }
  }
}
