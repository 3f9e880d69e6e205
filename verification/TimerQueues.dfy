/**
 The two JavaScript timer queues of a worker thread (setTimeout, setInterval) as values, the
 commands a script can issue against them, and what one pump of each queue does to them.

 Instants are nanoseconds on a monotone clock. The function handle of an entry is represented by
 `reg`, the number of registrations that preceded it on its queue: it tells apart entries that
 happen to share an id. What a callback does is arbitrary: a finite list of commands, some of which
 only let time pass, and a flag saying whether the call returned a value.
 */
module TimerQueues {
  import opened Wrappers

  const TIMEOUT_IDS: nat := 99
  const FIRST_TIMEOUT_ID: nat := 1
  const FIRST_INTERVAL_ID: nat := 100

  datatype Entry = Entry(reg: nat, id: nat, ms: nat, deadline: nat)

  datatype Command =
    | SetTimeout(delayMs: nat)
    | SetInterval(periodMs: nat)
    | ClearTimeout(timeoutId: nat)
    | ClearInterval(intervalId: nat)
    | Elapse(nanos: nat)

  /** One invocation of a callback: `lag` passes before it starts. */
  datatype Call = Call(lag: nat, commands: seq<Command>, completed: bool)

  function NthCall(calls: seq<Call>, k: nat): Call {
    if k < |calls| then calls[k] else Call(0, [], true)
  }

  function After(now: nat, ms: nat): nat {
    now + ms * NANOS_PER_MS
  }

  // Order-preserving selections of a queue.

  function Due(es: seq<Entry>, now: nat): seq<Entry> {
    if es == [] then [] else
      var last := es[|es| - 1];
      Due(es[..|es| - 1], now) + if now >= last.deadline then [last] else []
  }

  function Later(es: seq<Entry>, now: nat): seq<Entry> {
    if es == [] then [] else
      var last := es[|es| - 1];
      Later(es[..|es| - 1], now) + if now >= last.deadline then [] else [last]
  }

  function Without(es: seq<Entry>, id: nat): seq<Entry> {
    if es == [] then [] else
      var last := es[|es| - 1];
      Without(es[..|es| - 1], id) + if last.id != id then [last] else []
  }

  function WithId(es: seq<Entry>, id: nat): seq<Entry> {
    if es == [] then [] else
      var last := es[|es| - 1];
      WithId(es[..|es| - 1], id) + if last.id != id then [] else [last]
  }

  function Regs(es: seq<Entry>): (rs: seq<nat>) {
    seq(|es|, i requires 0 <= i < |es| => es[i].reg)
  }

  // The setTimeout queue, with the history of what became of its entries.

  datatype TimeoutSet = TimeoutSet(at: nat, ms: nat)

  datatype TimeoutCall = TimeoutCall(reg: nat, at: nat, completed: bool)

  datatype TimeoutQueue = TimeoutQueue(
    pending: seq<Entry>, counter: nat,
    sets: seq<TimeoutSet>, base: nat, calls: seq<TimeoutCall>, removed: seq<Entry>)

  function RegisterTimeout(q: TimeoutQueue, delayMs: nat, now: nat): TimeoutQueue {
    q.(pending := q.pending + [Entry(|q.sets|, q.counter, delayMs, After(now, delayMs))],
       counter := if q.counter >= TIMEOUT_IDS then FIRST_TIMEOUT_ID else q.counter + 1,
       sets := q.sets + [TimeoutSet(now, delayMs)])
  }

  function RemoveTimeouts(q: TimeoutQueue, id: nat): TimeoutQueue {
    q.(pending := Without(q.pending, id), removed := q.removed + WithId(q.pending, id))
  }

  function ResetTimeouts(q: TimeoutQueue): TimeoutQueue {
    q.(pending := [], counter := FIRST_TIMEOUT_ID,
       base := |q.sets|, removed := q.removed + q.pending)
  }

  // The setInterval queue, with its history as one log.

  datatype IntervalEvent =
    | Registered(reg: nat, id: nat, ms: nat, at: nat)
    | Started(reg: nat, ms: nat, at: nat)
    | Returned(reg: nat, ms: nat, at: nat)
    | Cleared(id: nat)
    | PumpEnded

  /** What happened, oldest first. */
  datatype History = Nothing | Then(past: History, last: IntervalEvent)

  datatype IntervalQueue = IntervalQueue(
    queue: seq<Entry>, cleared: seq<nat>, counter: nat,
    periods: seq<nat>, base: nat, log: History)

  function RegisterInterval(q: IntervalQueue, periodMs: nat, now: nat): IntervalQueue {
    q.(queue := q.queue + [Entry(|q.periods|, q.counter, periodMs, After(now, periodMs))],
       counter := (q.counter + 1) % U32_SIZE,
       periods := q.periods + [periodMs],
       log := Then(q.log, Registered(|q.periods|, q.counter, periodMs, now)))
  }

  function RemoveIntervals(q: IntervalQueue, id: nat): IntervalQueue {
    q.(queue := Without(q.queue, id),
       cleared := if id in q.cleared then q.cleared else q.cleared + [id],
       log := Then(q.log, Cleared(id)))
  }

  function EndPump(q: IntervalQueue): IntervalQueue {
    q.(cleared := [], log := Then(q.log, PumpEnded))
  }

  function ResetIntervals(q: IntervalQueue): IntervalQueue {
    EndPump(q).(queue := [], counter := FIRST_INTERVAL_ID, base := |q.periods|)
  }

  // Both queues under one clock.

  datatype State = State(now: nat, timeouts: TimeoutQueue, intervals: IntervalQueue)

  const INITIAL: State := State(
    0,
    TimeoutQueue([], FIRST_TIMEOUT_ID, [], 0, [], []),
    IntervalQueue([], [], FIRST_INTERVAL_ID, [], 0, Nothing))

  function Execute(s: State, c: Command): State {
    match c
    case SetTimeout(ms) => s.(timeouts := RegisterTimeout(s.timeouts, ms, s.now))
    case SetInterval(ms) => s.(intervals := RegisterInterval(s.intervals, ms, s.now))
    case ClearTimeout(id) => s.(timeouts := RemoveTimeouts(s.timeouts, id))
    case ClearInterval(id) => s.(intervals := RemoveIntervals(s.intervals, id))
    case Elapse(nanos) => s.(now := s.now + nanos)
  }

  function RunScript(s: State, cs: seq<Command>): State {
    if cs == [] then s else Execute(RunScript(s, cs[..|cs| - 1]), cs[|cs| - 1])
  }

  // One pump of the setInterval queue.

  function StartInterval(s: State, e: Entry, call: Call): State {
    var at := s.now + call.lag;
    s.(now := at, intervals := s.intervals.(log := Then(s.intervals.log, Started(e.reg, e.ms, at))))
  }

  function FinishInterval(s: State, e: Entry): State {
    var q := s.intervals;
    s.(intervals := q.(
         log := Then(q.log, Returned(e.reg, e.ms, s.now)),
         queue := if e.id in q.cleared then q.queue
                  else q.queue + [e.(deadline := After(s.now, e.ms))]))
  }

  function CallInterval(s: State, e: Entry, call: Call): State {
    FinishInterval(RunScript(StartInterval(s, e, call), call.commands), e)
  }

  /** The first `n` callbacks of `due` have been called. */
  function CallIntervals(s: State, due: seq<Entry>, calls: seq<Call>, n: nat): State
    requires n <= |due|
  {
    if n == 0 then s else CallInterval(CallIntervals(s, due, calls, n - 1), due[n - 1], NthCall(calls, n - 1))
  }

  function DrainIntervals(s: State): State {
    s.(intervals := s.intervals.(queue := Later(s.intervals.queue, s.now)))
  }

  /** A pump up to the point where the record of clears is emptied. */
  function DispatchIntervals(s: State, calls: seq<Call>): State {
    var due := Due(s.intervals.queue, s.now);
    CallIntervals(DrainIntervals(s), due, calls, |due|)
  }

  function FireIntervals(s: State, calls: seq<Call>): State {
    var s' := DispatchIntervals(s, calls);
    s'.(intervals := EndPump(s'.intervals))
  }

  // One pump of the setTimeout queue.

  function CallTimeout(s: State, e: Entry, call: Call): State {
    var at := s.now + call.lag;
    RunScript(
      s.(now := at,
         timeouts := s.timeouts.(calls := s.timeouts.calls + [TimeoutCall(e.reg, at, call.completed)])),
      call.commands)
  }

  function CallTimeouts(s: State, due: seq<Entry>, calls: seq<Call>, n: nat): State
    requires n <= |due|
  {
    if n == 0 then s else CallTimeout(CallTimeouts(s, due, calls, n - 1), due[n - 1], NthCall(calls, n - 1))
  }

  /** Among the first `n` due entries, those whose call did not return a value. */
  function Failed(due: seq<Entry>, calls: seq<Call>, n: nat): seq<Entry>
    requires n <= |due|
  {
    if n == 0 then [] else
      Failed(due, calls, n - 1) + if NthCall(calls, n - 1).completed then [] else [due[n - 1]]
  }

  function DrainTimeouts(s: State): State {
    s.(timeouts := s.timeouts.(pending := Later(s.timeouts.pending, s.now)))
  }

  function FireTimeouts(s: State, calls: seq<Call>): State {
    var due := Due(s.timeouts.pending, s.now);
    var s' := CallTimeouts(DrainTimeouts(s), due, calls, |due|);
    s'.(timeouts := s'.timeouts.(pending := s'.timeouts.pending + Failed(due, calls, |due|)))
  }

  // A run of the worker thread.

  datatype Step =
    | Script(commands: seq<Command>)
    | PumpIntervals(calls: seq<Call>)
    | PumpTimeouts(calls: seq<Call>)
    | NewRequest

  function Take(s: State, step: Step): State {
    match step
    case Script(cs) => RunScript(s, cs)
    case PumpIntervals(calls) => FireIntervals(s, calls)
    case PumpTimeouts(calls) => FireTimeouts(s, calls)
    case NewRequest => s.(timeouts := ResetTimeouts(s.timeouts), intervals := ResetIntervals(s.intervals))
  }

  function Run(steps: seq<Step>): State {
    if steps == [] then INITIAL else Take(Run(steps[..|steps| - 1]), steps[|steps| - 1])
  }
}
