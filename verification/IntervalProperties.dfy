/**
 What holds of the setInterval queue on every run, whatever callbacks do: which entries a pump
 calls, which ones it re-queues, how far apart the calls of one interval are.

 `flight` lists the entries that a pump in progress has drained and not yet disposed of.
 */
module IntervalProperties {
  import opened Wrappers
  import opened TimerQueues
  import opened TimerSelections

  /** The event belongs to the life of registration `reg`. */
  predicate Touches(ev: IntervalEvent, reg: nat) {
    match ev
    case Registered(r, _, _, _) => r == reg
    case Started(r, _, _) => r == reg
    case Returned(r, _, _) => r == reg
    case Cleared(_) => false
    case PumpEnded => false
  }

  /** clearInterval(id) was called after registration `reg`. */
  predicate ClearedSinceSet(log: History, reg: nat, id: nat) {
    match log
    case Nothing => false
    case Then(past, last) =>
      last == Cleared(id) || (!(last.Registered? && last.reg == reg) && ClearedSinceSet(past, reg, id))
  }

  /** clearInterval(id) was called since the last pump ended. */
  predicate ClearedSincePump(log: History, id: nat) {
    match log
    case Nothing => false
    case Then(past, last) => last == Cleared(id) || (last != PumpEnded && ClearedSincePump(past, id))
  }

  /** The registrations called, in order. */
  function CalledRegs(log: History): seq<nat> {
    match log
    case Nothing => []
    case Then(past, last) => CalledRegs(past) + if last.Started? then [last.reg] else []
  }

  /** At least `ms` milliseconds lie between every event of registration `reg` and `instant`. */
  predicate NotBefore(log: History, reg: nat, ms: nat, instant: nat) {
    match log
    case Nothing => true
    case Then(past, last) =>
      && (Touches(last, reg) ==> last.at + ms * 1_000_000 <= instant)
      && NotBefore(past, reg, ms, instant)
  }

  /** No call of an interval starts before its period has passed since its registration, since any
      earlier start and since the return of any earlier call. */
  predicate Spaced(log: History) {
    match log
    case Nothing => true
    case Then(past, last) =>
      && (last.Started? ==> NotBefore(past, last.reg, last.ms, last.at))
      && Spaced(past)
  }

  lemma NotBeforeLater(log: History, reg: nat, ms: nat, instant: nat, later: nat)
    requires NotBefore(log, reg, ms, instant) && instant <= later
    ensures NotBefore(log, reg, ms, later)
  {
  }

  function IdOf(q: IntervalQueue, reg: nat): nat
    requires q.base <= reg
  {
    (FIRST_INTERVAL_ID + reg - q.base) % U32_SIZE
  }

  lemma SameRemainder(a: nat, b: nat)
    ensures a % U32_SIZE == b % U32_SIZE <==> (a - b) % U32_SIZE == 0
  {
    var i, j := a / U32_SIZE, b / U32_SIZE;
    assert a - b == (i - j) * U32_SIZE + (a % U32_SIZE - b % U32_SIZE);
  }

  /** Two queued intervals share an id exactly when they were registered a multiple of 2^32 apart. */
  lemma SharedId(q: IntervalQueue, e: Entry, f: Entry)
    requires EntryOk(q, e) && EntryOk(q, f)
    ensures e.id == f.id <==> (e.reg - f.reg) % U32_SIZE == 0
  {
    var a, b := FIRST_INTERVAL_ID + e.reg - q.base, FIRST_INTERVAL_ID + f.reg - q.base;
    assert e.id == a % U32_SIZE && f.id == b % U32_SIZE && a - b == e.reg - f.reg;
    SameRemainder(a, b);
  }

  ghost predicate EntryOk(q: IntervalQueue, e: Entry) {
    && q.base <= e.reg < |q.periods|
    && e.id == IdOf(q, e.reg)
    && e.ms == q.periods[e.reg]
    && NotBefore(q.log, e.reg, e.ms, e.deadline)
  }

  ghost predicate Unique(q: IntervalQueue, flight: seq<Entry>) {
    forall r: nat :: Tally(q.queue, r) + Tally(flight, r) <= 1
  }

  /** The record of clears is exact, and only drained entries may have been cleared. */
  ghost predicate ClearsRecorded(q: IntervalQueue, flight: seq<Entry>) {
    && (forall e :: e in q.queue ==> !ClearedSinceSet(q.log, e.reg, e.id))
    && (forall e :: e in flight && ClearedSinceSet(q.log, e.reg, e.id) ==> e.id in q.cleared)
    && (forall id :: id in q.cleared <==> ClearedSincePump(q.log, id))
  }

  /** The event names a registration made before it, with the period it was given. */
  predicate EventOk(ev: IntervalEvent, periods: seq<nat>) {
    match ev
    case Registered(r, _, ms, _) => r < |periods| && ms == periods[r]
    case Started(r, ms, _) => r < |periods| && ms == periods[r]
    case Returned(r, ms, _) => r < |periods| && ms == periods[r]
    case Cleared(_) => true
    case PumpEnded => true
  }

  predicate EventsOk(log: History, periods: seq<nat>) {
    match log
    case Nothing => true
    case Then(past, last) => EventOk(last, periods) && EventsOk(past, periods)
  }

  lemma EventsOkLonger(log: History, periods: seq<nat>, ms: nat)
    requires EventsOk(log, periods)
    ensures EventsOk(log, periods + [ms])
    ensures NotBefore(log, |periods|, ms, 0)
  {
  }

  ghost predicate Inv(q: IntervalQueue, flight: seq<Entry>) {
    && q.base <= |q.periods|
    && q.counter == IdOf(q, |q.periods|)
    && (forall e :: e in q.queue || e in flight ==> EntryOk(q, e))
    && Unique(q, flight)
    && ClearsRecorded(q, flight)
    && Spaced(q.log)
    && EventsOk(q.log, q.periods)
  }

  // Commands keep the invariant.

  lemma RegisterKeepsUnique(q: IntervalQueue, flight: seq<Entry>, ms: nat, now: nat)
    requires Inv(q, flight)
    ensures Unique(RegisterInterval(q, ms, now), flight)
  {
    forall r: nat ensures Tally(RegisterInterval(q, ms, now).queue, r) + Tally(flight, r) <= 1 {
      TallySnoc(q.queue, Entry(|q.periods|, q.counter, ms, After(now, ms)), r);
      TallyMember(q.queue, r);
      TallyMember(flight, r);
    }
  }

  lemma RegisterKeepsInv(q: IntervalQueue, flight: seq<Entry>, ms: nat, now: nat)
    requires Inv(q, flight)
    ensures Inv(RegisterInterval(q, ms, now), flight)
  {
    var q' := RegisterInterval(q, ms, now);
    var e := Entry(|q.periods|, q.counter, ms, After(now, ms));
    EventsOkLonger(q.log, q.periods, ms);
    NotBeforeLater(q.log, e.reg, ms, 0, e.deadline);
    assert forall f :: f in q'.queue <==> f in q.queue || f == e;
    RegisterKeepsUnique(q, flight, ms, now);
  }

  lemma RemoveKeepsClears(q: IntervalQueue, flight: seq<Entry>, id: nat)
    requires ClearsRecorded(q, flight)
    ensures ClearsRecorded(RemoveIntervals(q, id), flight)
  {
    RemovalMembers(q.queue, id);
  }

  lemma RemoveKeepsUnique(q: IntervalQueue, flight: seq<Entry>, id: nat)
    requires Unique(q, flight)
    ensures Unique(RemoveIntervals(q, id), flight)
  {
    forall r: nat ensures Tally(Without(q.queue, id), r) + Tally(flight, r) <= 1 {
      RemovalTally(q.queue, id, r);
    }
  }

  lemma RemoveKeepsInv(q: IntervalQueue, flight: seq<Entry>, id: nat)
    requires Inv(q, flight)
    ensures Inv(RemoveIntervals(q, id), flight)
  {
    RemoveKeepsClears(q, flight, id);
    RemoveKeepsUnique(q, flight, id);
    RemovalMembers(q.queue, id);
    hide ClearsRecorded, Unique;
    forall e | e in Without(q.queue, id) || e in flight ensures EntryOk(RemoveIntervals(q, id), e) {
      assert EntryOk(q, e);
    }
  }

  lemma {:induction false} ScriptKeepsInv(s: State, flight: seq<Entry>, cs: seq<Command>)
    requires Inv(s.intervals, flight)
    ensures var s' := RunScript(s, cs); Inv(s'.intervals, flight) && s'.now >= s.now
  {
    if cs != [] {
      var s1 := RunScript(s, cs[..|cs| - 1]);
      ScriptKeepsInv(s, flight, cs[..|cs| - 1]);
      match cs[|cs| - 1]
      case SetInterval(ms) =>
        RegisterKeepsInv(s1.intervals, flight, ms, s1.now);
      case ClearInterval(id) =>
        RemoveKeepsInv(s1.intervals, flight, id);
      case _ =>
    }
  }

  // One callback of a pump: `e` is the drained entry being called, `rest` those still to come.

  function Rearmed(e: Entry, now: nat): Entry {
    e.(deadline := After(now, e.ms))
  }

  lemma HeadTally(e: Entry, rest: seq<Entry>, reg: nat)
    ensures Tally([e] + rest, reg) == Tally(rest, reg) + if e.reg == reg then 1 else 0
  {
    TallyConcat([e], rest, reg);
    TallySnoc([], e, reg);
    assert [] + [e] == [e];
  }

  lemma HeadIsAlone(q: IntervalQueue, e: Entry, rest: seq<Entry>)
    requires Unique(q, [e] + rest)
    ensures forall f :: f in q.queue || f in rest ==> f.reg != e.reg
    ensures Unique(q, rest)
  {
    HeadTally(e, rest, e.reg);
    TallyMember(q.queue, e.reg);
    TallyMember(rest, e.reg);
    assert Tally(q.queue, e.reg) + Tally([e] + rest, e.reg) <= 1;
    forall r: nat ensures Tally(q.queue, r) + Tally(rest, r) <= 1 {
      HeadTally(e, rest, r);
      assert Tally(q.queue, r) + Tally([e] + rest, r) <= 1;
    }
  }

  /** The drained entry may be replaced by, or put back as, one of the same registration. */
  lemma HeadMayMove(q: IntervalQueue, e: Entry, e': Entry, rest: seq<Entry>)
    requires Unique(q, [e] + rest) && e'.reg == e.reg
    ensures Unique(q, [e'] + rest)
    ensures Unique(q.(queue := q.queue + [e']), rest)
  {
    forall r: nat
      ensures Tally(q.queue, r) + Tally([e'] + rest, r) <= 1
      ensures Tally(q.queue + [e'], r) + Tally(rest, r) <= 1
    {
      HeadTally(e, rest, r);
      HeadTally(e', rest, r);
      TallySnoc(q.queue, e', r);
      assert Tally(q.queue, r) + Tally([e] + rest, r) <= 1;
    }
  }

  lemma StartKeepsInv(s: State, e: Entry, rest: seq<Entry>, call: Call)
    requires Inv(s.intervals, [e] + rest) && e.deadline <= s.now
    ensures var s' := StartInterval(s, e, call);
      Inv(s'.intervals, [Rearmed(e, s'.now)] + rest)
  {
    var s' := StartInterval(s, e, call);
    var e' := Rearmed(e, s'.now);
    HeadIsAlone(s.intervals, e, rest);
    HeadMayMove(s.intervals, e, e', rest);
    NotBeforeLater(s.intervals.log, e.reg, e.ms, e.deadline, s'.now);
    NotBeforeLater(s.intervals.log, e.reg, e.ms, e.deadline, e'.deadline);
    assert e in [e] + rest;
    assert forall f :: f in [e'] + rest <==> f == e' || f in rest;
    assert forall f :: f in rest ==> f in [e] + rest;
    assert EntryOk(s.intervals, e);
  }

  /** A drained entry may be put back, unless it was cleared. */
  lemma RequeueKeepsInv(q: IntervalQueue, e: Entry, rest: seq<Entry>)
    requires Inv(q, [e] + rest)
    ensures e.id !in q.cleared ==> Inv(q.(queue := q.queue + [e]), rest)
    ensures Inv(q, rest)
  {
    HeadIsAlone(q, e, rest);
    HeadMayMove(q, e, e, rest);
    assert e in [e] + rest;
    assert forall f :: f in rest ==> f in [e] + rest;
    assert forall f :: f in q.queue + [e] <==> f in q.queue || f == e;
  }

  lemma ReturnKeepsInv(q: IntervalQueue, e: Entry, rest: seq<Entry>, now: nat)
    requires Inv(q, [e] + rest) && e.deadline <= now + e.ms * 1_000_000
    ensures Inv(q.(log := Then(q.log, Returned(e.reg, e.ms, now))), [Rearmed(e, now)] + rest)
  {
    var e'' := Rearmed(e, now);
    HeadIsAlone(q, e, rest);
    HeadMayMove(q, e, e'', rest);
    NotBeforeLater(q.log, e.reg, e.ms, e.deadline, e''.deadline);
    assert e in [e] + rest;
    assert EntryOk(q, e);
    assert forall f :: f in rest ==> f in [e] + rest;
    assert forall f :: f in [e''] + rest <==> f == e'' || f in rest;
  }

  lemma FinishKeepsInv(s: State, e: Entry, e': Entry, rest: seq<Entry>)
    requires Inv(s.intervals, [e'] + rest)
    requires e' == e.(deadline := e'.deadline) && e'.deadline <= s.now + e.ms * 1_000_000
    ensures Inv(FinishInterval(s, e).intervals, rest)
  {
    var q := s.intervals;
    var q1 := q.(log := Then(q.log, Returned(e.reg, e.ms, s.now)));
    ReturnKeepsInv(q, e', rest, s.now);
    RequeueKeepsInv(q1, Rearmed(e, s.now), rest);
    if e.id in q.cleared {
      assert FinishInterval(s, e).intervals == q1;
    } else {
      assert FinishInterval(s, e).intervals == q1.(queue := q1.queue + [Rearmed(e, s.now)]);
    }
  }

  lemma CallKeepsInv(s: State, e: Entry, rest: seq<Entry>, call: Call)
    requires Inv(s.intervals, [e] + rest) && e.deadline <= s.now
    ensures var s' := CallInterval(s, e, call);
      && Inv(s'.intervals, rest)
      && s'.now >= s.now
  {
    var s1 := StartInterval(s, e, call);
    var e' := Rearmed(e, s1.now);
    StartKeepsInv(s, e, rest, call);
    ScriptKeepsInv(s1, [e'] + rest, call.commands);
    FinishKeepsInv(RunScript(s1, call.commands), e, e', rest);
  }

  lemma {:induction false} CallsKeepInv(s: State, due: seq<Entry>, calls: seq<Call>, n: nat)
    requires n <= |due|
    requires Inv(s.intervals, due) && forall e :: e in due ==> e.deadline <= s.now
    ensures var s' := CallIntervals(s, due, calls, n);
      && Inv(s'.intervals, due[n..])
      && s'.now >= s.now
  {
    if n == 0 {
      assert due[0..] == due;
    } else {
      CallsKeepInv(s, due, calls, n - 1);
      NextCallKeepsInv(CallIntervals(s, due, calls, n - 1), due, n, NthCall(calls, n - 1));
    }
  }

  lemma NextCallKeepsInv(s: State, due: seq<Entry>, n: nat, call: Call)
    requires 0 < n <= |due|
    requires Inv(s.intervals, due[n - 1..]) && due[n - 1].deadline <= s.now
    ensures var s' := CallInterval(s, due[n - 1], call);
      && Inv(s'.intervals, due[n..])
      && s'.now >= s.now
      && QueuedUnlessClearedSincePump(s'.intervals, due[n - 1])
  {
    assert due[n - 1..] == [due[n - 1]] + due[n..];
    CallKeepsInv(s, due[n - 1], due[n..], call);
    CallDecides(s, due[n - 1], due[n..], call);
  }

  // What a pump calls.

  lemma {:induction false} ScriptCallsNothing(s: State, cs: seq<Command>)
    ensures CalledRegs(RunScript(s, cs).intervals.log) == CalledRegs(s.intervals.log)
  {
    if cs != [] {
      ScriptCallsNothing(s, cs[..|cs| - 1]);
    }
  }

  lemma {:induction false} CallsInOrder(s: State, due: seq<Entry>, calls: seq<Call>, n: nat)
    requires n <= |due|
    ensures CalledRegs(CallIntervals(s, due, calls, n).intervals.log) ==
            CalledRegs(s.intervals.log) + Regs(due)[..n]
  {
    if n > 0 {
      CallsInOrder(s, due, calls, n - 1);
      CallCallsOnce(CallIntervals(s, due, calls, n - 1), due[n - 1], NthCall(calls, n - 1));
      NextInOrder(CalledRegs(s.intervals.log), Regs(due), n);
    }
  }

  lemma NextInOrder(before: seq<nat>, regs: seq<nat>, n: nat)
    requires 0 < n <= |regs|
    ensures before + regs[..n] == before + regs[..n - 1] + [regs[n - 1]]
  {
  }

  lemma CallCallsOnce(s: State, e: Entry, call: Call)
    ensures CalledRegs(CallInterval(s, e, call).intervals.log) == CalledRegs(s.intervals.log) + [e.reg]
  {
    ScriptCallsNothing(StartInterval(s, e, call), call.commands);
  }

  lemma DrainKeepsInv(s: State)
    requires Inv(s.intervals, [])
    ensures Inv(DrainIntervals(s).intervals, Due(s.intervals.queue, s.now))
  {
    var es := s.intervals.queue;
    DrainMembers(es, s.now);
    forall r: nat ensures Tally(Later(es, s.now), r) + Tally(Due(es, s.now), r) <= 1 {
      DrainTally(es, s.now, r);
      assert Tally(es, r) + Tally([], r) <= 1;
    }
  }

  // Where one interval stands.

  /** Registration `e.reg` is queued, under its own id and period. */
  ghost predicate Queued(q: IntervalQueue, e: Entry) {
    exists f :: f in q.queue && f.reg == e.reg && f.id == e.id && f.ms == e.ms
  }

  /** A later stage of the same queue: same request, more registrations. */
  ghost predicate Extends(q: IntervalQueue, q': IntervalQueue) {
    q.base == q'.base && q.periods <= q'.periods
  }

  ghost predicate QueuedUnlessClearedSincePump(q: IntervalQueue, e: Entry) {
    Queued(q, e) <==> !ClearedSincePump(q.log, e.id)
  }

  ghost predicate QueuedUnlessClearedSinceSet(q: IntervalQueue, e: Entry) {
    Queued(q, e) <==> !ClearedSinceSet(q.log, e.reg, e.id)
  }

  lemma CommandTracks(s: State, c: Command, e: Entry)
    requires e.reg < |s.intervals.periods|
    ensures Extends(s.intervals, Execute(s, c).intervals)
    ensures QueuedUnlessClearedSincePump(s.intervals, e) ==> QueuedUnlessClearedSincePump(Execute(s, c).intervals, e)
    ensures QueuedUnlessClearedSinceSet(s.intervals, e) ==> QueuedUnlessClearedSinceSet(Execute(s, c).intervals, e)
  {
    var q, q' := s.intervals, Execute(s, c).intervals;
    match c
    case SetInterval(ms) =>
      assert forall f :: f in q'.queue && f.reg == e.reg <==> f in q.queue && f.reg == e.reg;
    case ClearInterval(id) =>
      RemovalMembers(q.queue, id);
    case _ =>
  }

  lemma {:induction false} ScriptTracks(s: State, cs: seq<Command>, e: Entry)
    requires e.reg < |s.intervals.periods|
    ensures var s' := RunScript(s, cs);
      && Extends(s.intervals, s'.intervals)
      && (QueuedUnlessClearedSincePump(s.intervals, e) ==> QueuedUnlessClearedSincePump(s'.intervals, e))
      && (QueuedUnlessClearedSinceSet(s.intervals, e) ==> QueuedUnlessClearedSinceSet(s'.intervals, e))
  {
    if cs != [] {
      ScriptTracks(s, cs[..|cs| - 1], e);
      CommandTracks(RunScript(s, cs[..|cs| - 1]), cs[|cs| - 1], e);
    }
  }

  /** Calling entry `g` decides whether `g` is re-queued and changes nothing about another entry
      except through the commands of the callback. */
  lemma CallTracks(s: State, g: Entry, call: Call, e: Entry)
    requires e.reg < |s.intervals.periods|
    ensures var q, q' := s.intervals, CallInterval(s, g, call).intervals;
      && Extends(q, q')
      && (e.reg != g.reg ==>
            && (QueuedUnlessClearedSincePump(q, e) ==> QueuedUnlessClearedSincePump(q', e))
            && (QueuedUnlessClearedSinceSet(q, e) ==> QueuedUnlessClearedSinceSet(q', e)))
  {
    var s1 := StartInterval(s, g, call);
    var s2 := RunScript(s1, call.commands);
    ScriptTracks(s1, call.commands, e);
    if e.reg != g.reg {
      assert forall f :: f in CallInterval(s, g, call).intervals.queue && f.reg == e.reg <==>
                         f in s2.intervals.queue && f.reg == e.reg;
    }
  }

  lemma CallDecides(s: State, e: Entry, rest: seq<Entry>, call: Call)
    requires Inv(s.intervals, [e] + rest) && e.deadline <= s.now
    ensures QueuedUnlessClearedSincePump(CallInterval(s, e, call).intervals, e)
  {
    var s1 := StartInterval(s, e, call);
    var e' := Rearmed(e, s1.now);
    var s2 := RunScript(s1, call.commands);
    StartKeepsInv(s, e, rest, call);
    ScriptKeepsInv(s1, [e'] + rest, call.commands);
    HeadIsAlone(s2.intervals, e', rest);
    var q' := CallInterval(s, e, call).intervals;
    if e.id !in s2.intervals.cleared {
      assert Rearmed(e, s2.now) in q'.queue;
    } else {
      assert q'.queue == s2.intervals.queue;
    }
  }

  lemma {:induction false} CallsDecide(s: State, due: seq<Entry>, calls: seq<Call>, n: nat, e: Entry)
    requires n <= |due|
    requires Inv(s.intervals, due) && forall f :: f in due ==> f.deadline <= s.now
    requires e in due[..n] || e in s.intervals.queue
    ensures var q := CallIntervals(s, due, calls, n).intervals;
      && Extends(s.intervals, q)
      && (e in due[..n] ==> QueuedUnlessClearedSincePump(q, e))
      && (e in s.intervals.queue ==> QueuedUnlessClearedSinceSet(q, e))
    decreases n
  {
    CallsExtend(s, due, calls, n);
    if n > 0 {
      hide Inv, QueuedUnlessClearedSincePump, QueuedUnlessClearedSinceSet, CallInterval;
      var s1 := CallIntervals(s, due, calls, n - 1);
      assert CallIntervals(s, due, calls, n) == CallInterval(s1, due[n - 1], NthCall(calls, n - 1));
      assert due[..n] == due[..n - 1] + [due[n - 1]];
      hide CallIntervals, NthCall;
      if e in due[..n - 1] || e in s.intervals.queue {
        CallsDecide(s, due, calls, n - 1, e);
        DrainedApart(s.intervals, due, n - 1, e);
        CallTracks(s1, due[n - 1], NthCall(calls, n - 1), e);
      } else {
        CallsKeepInv(s, due, calls, n - 1);
        NextCallKeepsInv(s1, due, n, NthCall(calls, n - 1));
      }
    }
  }

  lemma {:induction false} CallsExtend(s: State, due: seq<Entry>, calls: seq<Call>, n: nat)
    requires n <= |due|
    ensures Extends(s.intervals, CallIntervals(s, due, calls, n).intervals)
  {
    if n > 0 {
      CallsExtend(s, due, calls, n - 1);
      var s1 := StartInterval(CallIntervals(s, due, calls, n - 1), due[n - 1], NthCall(calls, n - 1));
      ScriptExtends(s1, NthCall(calls, n - 1).commands);
    }
  }

  lemma {:induction false} ScriptExtends(s: State, cs: seq<Command>)
    ensures Extends(s.intervals, RunScript(s, cs).intervals)
  {
    if cs != [] {
      ScriptExtends(s, cs[..|cs| - 1]);
    }
  }

  /** The entry called next is neither one called before nor one left in the queue. */
  lemma DrainedApart(q: IntervalQueue, due: seq<Entry>, n: nat, e: Entry)
    requires n < |due| && Inv(q, due)
    requires e in due[..n] || e in q.queue
    ensures e.reg != due[n].reg && e.reg < |q.periods|
  {
    assert Tally(q.queue, e.reg) + Tally(due, e.reg) <= 1;
    if e in due[..n] {
      var i :| 0 <= i < n && due[i] == e;
      assert due[i] in due;
      if e.reg == due[n].reg { TwiceIn(due, i, n); }
    } else {
      TallyMember(q.queue, e.reg);
      TallyMember(due, e.reg);
      assert due[n] in due;
    }
  }

  // The results.

  lemma EndPumpKeepsInv(q: IntervalQueue)
    requires Inv(q, [])
    ensures Inv(EndPump(q), [])
    ensures CalledRegs(EndPump(q).log) == CalledRegs(q.log)
  {
  }

  lemma DispatchKeepsInv(s: State, calls: seq<Call>)
    requires Inv(s.intervals, [])
    ensures var s' := DispatchIntervals(s, calls);
      && Inv(s'.intervals, [])
      && s'.now >= s.now
      && CalledRegs(s'.intervals.log) == CalledRegs(s.intervals.log) + Regs(Due(s.intervals.queue, s.now))
  {
    var due := Due(s.intervals.queue, s.now);
    DrainKeepsInv(s);
    DrainMembers(s.intervals.queue, s.now);
    CallsKeepInv(DrainIntervals(s), due, calls, |due|);
    CallsInOrder(DrainIntervals(s), due, calls, |due|);
    assert due[|due|..] == [] && Regs(due)[..|due|] == Regs(due);
  }

  /** A pump keeps the invariant, so no interval cleared since its registration is queued after it. */
  lemma PumpKeepsInv(s: State, calls: seq<Call>)
    requires Inv(s.intervals, [])
    ensures Inv(FireIntervals(s, calls).intervals, []) && FireIntervals(s, calls).now >= s.now
  {
    DispatchKeepsInv(s, calls);
    EndPumpKeepsInv(DispatchIntervals(s, calls).intervals);
  }

  /** One pump calls the entries that are due when it starts, each once, in queue order, and nothing
      else: in particular nothing registered while it runs. */
  lemma PumpCallsExactlyTheDue(s: State, calls: seq<Call>)
    requires Inv(s.intervals, [])
    ensures var due := Due(s.intervals.queue, s.now);
      && CalledRegs(FireIntervals(s, calls).intervals.log) == CalledRegs(s.intervals.log) + Regs(due)
      && (forall e :: e in due ==> e.reg < |s.intervals.periods|)
      && (forall i, j :: 0 <= i < j < |due| ==> due[i].reg != due[j].reg)
  {
    var due := Due(s.intervals.queue, s.now);
    DrainKeepsInv(s);
    DrainMembers(s.intervals.queue, s.now);
    DispatchKeepsInv(s, calls);
    EndPumpKeepsInv(DispatchIntervals(s, calls).intervals);
    forall i, j | 0 <= i < j < |due| ensures due[i].reg != due[j].reg {
      assert due[i] in due[..j];
      DrainedApart(DrainIntervals(s).intervals, due, j, due[i]);
    }
  }

  /** After a pump a due interval is queued again exactly when its id was not passed to clearInterval
      since the previous pump ended; an interval that was not due is queued exactly when it was not
      cleared since its registration. Either way its registration is queued at most once. */
  lemma PumpRequeuesExactly(s: State, calls: seq<Call>, e: Entry)
    requires Inv(s.intervals, []) && e in s.intervals.queue
    ensures var q, log := FireIntervals(s, calls).intervals, DispatchIntervals(s, calls).intervals.log;
      && (e.deadline <= s.now ==> (Queued(q, e) <==> !ClearedSincePump(log, e.id)))
      && (e.deadline > s.now ==> (Queued(q, e) <==> !ClearedSinceSet(log, e.reg, e.id)))
      && Tally(q.queue, e.reg) == if Queued(q, e) then 1 else 0
  {
    var due, later := Due(s.intervals.queue, s.now), Later(s.intervals.queue, s.now);
    DrainKeepsInv(s);
    DrainMembers(s.intervals.queue, s.now);
    assert due[..|due|] == due;
    CallsDecide(DrainIntervals(s), due, calls, |due|, e);
    PumpKeepsInv(s, calls);
    assert EntryOk(s.intervals, e);
    QueuedOnce(s.intervals, FireIntervals(s, calls).intervals, e);
  }

  lemma QueuedOnce(q: IntervalQueue, q': IntervalQueue, e: Entry)
    requires EntryOk(q, e) && Inv(q', []) && Extends(q, q')
    ensures Tally(q'.queue, e.reg) == if Queued(q', e) then 1 else 0
  {
    assert Tally(q'.queue, e.reg) + Tally([], e.reg) <= 1;
    TallyMember(q'.queue, e.reg);
    if Tally(q'.queue, e.reg) > 0 {
      var f :| f in q'.queue && f.reg == e.reg;
      assert EntryOk(q', f);
    }
  }
}
