/**
 The WebSocket relay between a client socket and the worker that runs the handler, as a machine that
 takes one step at a time: worker, pump thread, relay loop and socket interleave in any way.

   worker --outbound(128)--> pump thread --notify(128)--> relay loop --> socket
   worker <--inbound(128)---------------------------------- relay loop <-- socket
 */
module WsRelay {
  import opened Wrappers

  const CHANNEL_CAPACITY: nat := 128
  const MAX_WS_MESSAGE_BYTES: nat := 32 * 1024 * 1024
  const TOO_BIG: u16 := 1009
  const POLICY: u16 := 1008

  datatype CloseFrame = CloseFrame(code: u16, reason: string)

  /** A message on the socket side. Text payloads are UTF-8 bytes. */
  datatype AxumMessage =
    | Text(payload: seq<byte>)
    | Binary(payload: seq<byte>)
    | Ping(payload: seq<byte>)
    | Pong(payload: seq<byte>)
    | Close(frame: Option<CloseFrame>)

  /** A message on the worker side. */
  datatype TungMessage =
    | TText(payload: seq<byte>)
    | TBinary(payload: seq<byte>)
    | TPing(payload: seq<byte>)
    | TPong(payload: seq<byte>)
    | TClose(frame: Option<CloseFrame>)
    | TFrame(payload: seq<byte>)

  function ToTung(m: AxumMessage): Option<TungMessage> {
    match m
    case Text(p) => Some(TText(p))
    case Binary(p) => Some(TBinary(p))
    case Close(f) => Some(TClose(f))
    case Ping(_) => None
    case Pong(_) => None
  }

  function ToAxum(m: TungMessage): AxumMessage {
    match m
    case TText(p) => Text(p)
    case TBinary(p) => Binary(p)
    case TClose(f) => Close(f)
    case TPing(p) => Ping(p)
    case TPong(p) => Pong(p)
    case TFrame(_) => Close(None)
  }

  function PayloadLen(m: AxumMessage): nat {
    match m
    case Text(p) => |p|
    case Binary(p) => |p|
    case _ => 0
  }

  datatype Exit =
    | TooLarge | Backpressure | WorkerGone | SocketFailed | SocketEnded | WriteFailed | OutboundClosed

  /** What the close frame of a refusal says. */
  function Reason(why: Exit): string {
    if why == TooLarge then "Message too large" else "Backpressure limit"
  }

  function Refusal(code: u16, why: Exit): AxumMessage {
    Close(Some(CloseFrame(code, Reason(why))))
  }

  datatype Relay =
    | Selecting
    | Writing(message: TungMessage)
    | Refusing(code: u16, exit: Exit)
    | Finished(why: Exit)

  datatype Pump = Idle | Holding(message: TungMessage) | Ended

  /** `sent`, `delivered`, `dropped`, `received` and `taken` are histories. `dropped` holds what the
      relay and the pump thread had in hand when they gave up. */
  datatype State = State(
    sent: seq<TungMessage>, outbound: seq<TungMessage>, workerSends: bool,
    pump: Pump, pumpDropped: seq<TungMessage>, notify: seq<TungMessage>,
    relay: Relay, relayDropped: seq<TungMessage>, delivered: seq<TungMessage>,
    written: seq<AxumMessage>, received: seq<AxumMessage>,
    inbound: seq<TungMessage>, taken: seq<TungMessage>, workerReceives: bool)

  const START: State := State([], [], true, Idle, [], [], Selecting, [], [], [], [], [], [], true)

  datatype Action =
    | WorkerSend(m: TungMessage)
    | WorkerCloseOutbound
    | WorkerTake
    | WorkerCloseInbound
    | PumpTake
    | PumpPut
    | PumpGiveUp
    | PumpEnd
    | SocketReceive(frame: AxumMessage)
    | SocketError
    | SocketEnd
    | RelayTake
    | RelayWrote
    | RelayWriteError
    | RelayRefused(closeWritten: bool)
    | RelayOutboundClosed

  /** When a step can happen: sends block on a full channel, receives on an empty one. */
  predicate Enabled(s: State, a: Action) {
    match a
    case WorkerSend(_) => s.workerSends && !s.pump.Ended? && |s.outbound| < CHANNEL_CAPACITY
    case WorkerCloseOutbound => s.workerSends
    case WorkerTake => s.workerReceives && s.inbound != []
    case WorkerCloseInbound => s.workerReceives
    case PumpTake => s.pump.Idle? && s.outbound != []
    case PumpPut => s.pump.Holding? && !s.relay.Finished? && |s.notify| < CHANNEL_CAPACITY
    case PumpGiveUp => s.pump.Holding? && s.relay.Finished?
    case PumpEnd => s.pump.Idle? && s.outbound == [] && !s.workerSends
    case SocketReceive(_) => s.relay.Selecting?
    case SocketError => s.relay.Selecting?
    case SocketEnd => s.relay.Selecting?
    case RelayTake => s.relay.Selecting? && s.notify != []
    case RelayWrote => s.relay.Writing?
    case RelayWriteError => s.relay.Writing?
    case RelayRefused(_) => s.relay.Refusing?
    case RelayOutboundClosed => s.relay.Selecting? && s.notify == [] && s.pump.Ended?
  }

  /** A frame arrived from the socket. */
  function Receive(s: State, m: AxumMessage): State {
    var s := s.(received := s.received + [m]);
    if PayloadLen(m) > MAX_WS_MESSAGE_BYTES then s.(relay := Refusing(TOO_BIG, TooLarge)) else
      match ToTung(m)
      case None => s
      case Some(t) =>
        if !s.workerReceives then s.(relay := Finished(WorkerGone))
        else if |s.inbound| >= CHANNEL_CAPACITY then s.(relay := Refusing(POLICY, Backpressure))
        else s.(inbound := s.inbound + [t])
  }

  function Apply(s: State, a: Action): State
    requires Enabled(s, a)
  {
    match a
    case WorkerSend(m) => s.(sent := s.sent + [m], outbound := s.outbound + [m])
    case WorkerCloseOutbound => s.(workerSends := false)
    case WorkerTake => s.(taken := s.taken + [s.inbound[0]], inbound := s.inbound[1..])
    case WorkerCloseInbound => s.(workerReceives := false)
    case PumpTake => s.(pump := Holding(s.outbound[0]), outbound := s.outbound[1..])
    case PumpPut => s.(pump := Idle, notify := s.notify + [s.pump.message])
    case PumpGiveUp => s.(pump := Ended, pumpDropped := [s.pump.message])
    case PumpEnd => s.(pump := Ended)
    case SocketReceive(m) => Receive(s, m)
    case SocketError => s.(relay := Finished(SocketFailed))
    case SocketEnd => s.(relay := Finished(SocketEnded))
    case RelayTake => s.(relay := Writing(s.notify[0]), notify := s.notify[1..])
    case RelayWrote =>
      s.(relay := Selecting, delivered := s.delivered + [s.relay.message],
         written := s.written + [ToAxum(s.relay.message)])
    case RelayWriteError => s.(relay := Finished(WriteFailed), relayDropped := [s.relay.message])
    case RelayRefused(closeWritten) =>
      var close := Refusal(s.relay.code, s.relay.exit);
      s.(relay := Finished(s.relay.exit), written := if closeWritten then s.written + [close] else s.written)
    case RelayOutboundClosed => s.(relay := Finished(OutboundClosed))
  }

  /** The state after a sequence of actions, if each could happen in its turn. */
  function After(actions: seq<Action>): Option<State> {
    if actions == [] then Some(START) else
      match After(actions[..|actions| - 1])
      case None => None
      case Some(s) =>
        var a := actions[|actions| - 1];
        if Enabled(s, a) then Some(Apply(s, a)) else None
  }

  // Outbound: from the worker to the socket.

  function InRelay(s: State): seq<TungMessage> {
    if s.relay.Writing? then [s.relay.message] else s.relayDropped
  }

  function InPump(s: State): seq<TungMessage> {
    if s.pump.Holding? then [s.pump.message] else s.pumpDropped
  }

  function Converted(ms: seq<TungMessage>): seq<AxumMessage> {
    seq(|ms|, i requires 0 <= i < |ms| => ToAxum(ms[i]))
  }

  /** The path of a message, oldest first. */
  function Path(s: State): seq<TungMessage> {
    (s.delivered + InRelay(s)) + (s.notify + InPump(s)) + s.outbound
  }

  /** Everything sent is at exactly one place of the path, in order, and the relay wrote exactly what
      it delivered, except that a refusal may add one close frame at the very end. */
  ghost predicate OutboundInv(s: State) {
    s.sent == Path(s) && ChannelsOk(s) && WrittenOk(s)
  }

  ghost predicate ChannelsOk(s: State) {
    && |s.outbound| <= CHANNEL_CAPACITY
    && |s.notify| <= CHANNEL_CAPACITY
    && |s.relayDropped| <= 1 && |s.pumpDropped| <= 1
    && (s.relayDropped != [] ==> s.relay == Finished(WriteFailed))
    && (s.pumpDropped != [] ==> s.pump.Ended? && s.relay.Finished?)
    && (s.pump.Ended? && s.pumpDropped == [] ==> s.outbound == [] && !s.workerSends)
    && (s.relay == Finished(OutboundClosed) ==>
          InRelay(s) + s.notify + InPump(s) == [] && s.pump.Ended? && s.pumpDropped == [])
  }

  ghost predicate WrittenOk(s: State) {
    || s.written == Converted(s.delivered)
    || (s.relay == Finished(TooLarge) && s.written == Converted(s.delivered) + [Refusal(TOO_BIG, TooLarge)])
    || (s.relay == Finished(Backpressure) && s.written == Converted(s.delivered) + [Refusal(POLICY, Backpressure)])
  }

  ghost predicate RelayOk(s: State) {
    match s.relay
    case Refusing(code, why) => (code == TOO_BIG && why == TooLarge) || (code == POLICY && why == Backpressure)
    case _ => true
  }

  /** No step moves a message out of order or loses it. */
  lemma PathStep(s: State, a: Action)
    requires ChannelsOk(s) && Enabled(s, a)
    ensures Path(Apply(s, a)) == if a.WorkerSend? then Path(s) + [a.m] else Path(s)
  {
    var s' := Apply(s, a);
    match a
    case WorkerSend(m) =>
      assert Path(s') == Path(s) + [m];
    case PumpTake => PumpTakeKeepsPath(s);
    case PumpPut => PumpPutKeepsPath(s);
    case RelayTake => RelayTakeKeepsPath(s);
    case RelayWrote => RelayWroteKeepsPath(s);
    case _ => OtherKeepsPath(s, a);
  }

  lemma PumpPutKeepsPath(s: State)
    requires ChannelsOk(s) && Enabled(s, PumpPut)
    ensures Path(Apply(s, PumpPut)) == Path(s)
  {
    var s' := Apply(s, PumpPut);
    assert s'.notify + InPump(s') == s.notify + InPump(s);
  }

  lemma RelayWroteKeepsPath(s: State)
    requires ChannelsOk(s) && Enabled(s, RelayWrote)
    ensures Path(Apply(s, RelayWrote)) == Path(s)
  {
    var s' := Apply(s, RelayWrote);
    assert s'.delivered + InRelay(s') == s.delivered + InRelay(s);
  }

  lemma OtherKeepsPath(s: State, a: Action)
    requires ChannelsOk(s) && Enabled(s, a)
    requires !a.WorkerSend? && !a.PumpTake? && !a.PumpPut? && !a.RelayTake? && !a.RelayWrote?
    ensures Path(Apply(s, a)) == Path(s)
  {
    var s' := Apply(s, a);
    assert s'.delivered == s.delivered && s'.notify == s.notify && s'.outbound == s.outbound;
    if a.PumpGiveUp? || a.PumpEnd? {
      assert InRelay(s') == InRelay(s) && InPump(s') == InPump(s);
    } else {
      assert InPump(s') == InPump(s);
      RelayKeepsHand(s, a);
    }
  }

  lemma RelayKeepsHand(s: State, a: Action)
    requires ChannelsOk(s) && Enabled(s, a) && !a.RelayTake? && !a.RelayWrote?
    ensures InRelay(Apply(s, a)) == InRelay(s)
  {
  }

  lemma PumpTakeKeepsPath(s: State)
    requires ChannelsOk(s) && Enabled(s, PumpTake)
    ensures Path(Apply(s, PumpTake)) == Path(s)
  {
    var s' := Apply(s, PumpTake);
    assert s.outbound == [s.outbound[0]] + s'.outbound;
    assert s'.notify + InPump(s') == s.notify + InPump(s) + [s.outbound[0]];
    Reassociate(s.delivered + InRelay(s), s.notify + InPump(s), s.outbound[0], s'.outbound);
  }

  lemma RelayTakeKeepsPath(s: State)
    requires ChannelsOk(s) && Enabled(s, RelayTake)
    ensures Path(Apply(s, RelayTake)) == Path(s)
  {
    var s' := Apply(s, RelayTake);
    assert s.notify == [s.notify[0]] + s'.notify;
    assert s.notify + InPump(s) == [s.notify[0]] + (s'.notify + InPump(s'));
    assert s'.delivered + InRelay(s') == s.delivered + InRelay(s) + [s.notify[0]];
    Reassociate(s.delivered + InRelay(s), s'.notify + InPump(s'), s.notify[0], s.outbound);
  }

  lemma Reassociate<T>(a: seq<T>, b: seq<T>, x: T, c: seq<T>)
    ensures a + (b + [x]) + c == a + b + ([x] + c)
    ensures (a + [x]) + b + c == a + ([x] + b) + c
  {
  }

  lemma ChannelsStep(s: State, a: Action)
    requires ChannelsOk(s) && RelayOk(s) && Enabled(s, a)
    ensures ChannelsOk(Apply(s, a))
  {
    if a.WorkerSend? || a.WorkerCloseOutbound? || a.WorkerTake? || a.WorkerCloseInbound? {
      WorkerKeepsChannels(s, a);
    } else if a.PumpTake? || a.PumpPut? || a.PumpGiveUp? || a.PumpEnd? {
      PumpKeepsChannels(s, a);
    } else {
      RelayKeepsChannels(s, a);
    }
  }

  lemma WorkerKeepsChannels(s: State, a: Action)
    requires ChannelsOk(s) && Enabled(s, a)
    requires a.WorkerSend? || a.WorkerCloseOutbound? || a.WorkerTake? || a.WorkerCloseInbound?
    ensures ChannelsOk(Apply(s, a))
  {
  }

  lemma PumpKeepsChannels(s: State, a: Action)
    requires ChannelsOk(s) && Enabled(s, a)
    requires a.PumpTake? || a.PumpPut? || a.PumpGiveUp? || a.PumpEnd?
    ensures ChannelsOk(Apply(s, a))
  {
  }

  lemma RelayKeepsChannels(s: State, a: Action)
    requires ChannelsOk(s) && RelayOk(s) && Enabled(s, a)
    requires a.SocketReceive? || a.SocketError? || a.SocketEnd? || a.RelayTake? || a.RelayWrote? ||
      a.RelayWriteError? || a.RelayRefused? || a.RelayOutboundClosed?
    ensures ChannelsOk(Apply(s, a))
  {
  }

  lemma WrittenStep(s: State, a: Action)
    requires WrittenOk(s) && RelayOk(s) && Enabled(s, a)
    ensures WrittenOk(Apply(s, a)) && RelayOk(Apply(s, a))
  {
    if a.RelayWrote? {
      assert Converted(Apply(s, a).delivered) == Converted(s.delivered) + [ToAxum(s.relay.message)];
    }
  }

  lemma OutboundStep(s: State, a: Action)
    requires OutboundInv(s) && RelayOk(s) && Enabled(s, a)
    ensures OutboundInv(Apply(s, a)) && RelayOk(Apply(s, a))
  {
    PathStep(s, a);
    ChannelsStep(s, a);
    WrittenStep(s, a);
  }

  // Inbound: from the socket to the worker.

  /** The data messages among the received frames, converted, in order. */
  function Data(frames: seq<AxumMessage>): seq<TungMessage> {
    if frames == [] then [] else
      var last := ToTung(frames[|frames| - 1]);
      Data(frames[..|frames| - 1]) + if last.Some? then [last.value] else []
  }

  predicate FrameRefused(s: State) {
    match s.relay
    case Refusing(_, _) => true
    case Finished(why) => why == TooLarge || why == Backpressure || why == WorkerGone
    case _ => false
  }

  /** The frames that were passed on: all received, or all but the last if that one was refused. */
  function Accepted(s: State): seq<AxumMessage> {
    if FrameRefused(s) && s.received != [] then s.received[..|s.received| - 1] else s.received
  }

  /** Why the last frame received was not passed on. */
  predicate RefusalOk(relay: Relay, last: AxumMessage) {
    match relay
    case Refusing(code, _) =>
      if code == TOO_BIG then PayloadLen(last) > MAX_WS_MESSAGE_BYTES
      else PayloadLen(last) <= MAX_WS_MESSAGE_BYTES && ToTung(last).Some?
    case Finished(why) =>
      if why == TooLarge then PayloadLen(last) > MAX_WS_MESSAGE_BYTES
      else PayloadLen(last) <= MAX_WS_MESSAGE_BYTES && ToTung(last).Some?
    case _ => false
  }

  predicate AllBounded(frames: seq<AxumMessage>) {
    forall i :: 0 <= i < |frames| ==> PayloadLen(frames[i]) <= MAX_WS_MESSAGE_BYTES
  }

  ghost predicate InboundInv(s: State) {
    && s.taken + s.inbound == Data(Accepted(s))
    && |s.inbound| <= CHANNEL_CAPACITY
    && AllBounded(Accepted(s))
    && (FrameRefused(s) ==> s.received != [] && RefusalOk(s.relay, s.received[|s.received| - 1]))
  }

  lemma DataSnoc(frames: seq<AxumMessage>, m: AxumMessage)
    ensures Data(frames + [m]) == Data(frames) + if ToTung(m).Some? then [ToTung(m).value] else []
  {
    assert (frames + [m])[..|frames + [m]| - 1] == frames;
  }

  lemma AcceptStep(s: State, m: AxumMessage)
    requires InboundInv(s) && s.relay.Selecting? && !FrameRefused(Receive(s, m))
    ensures InboundInv(Receive(s, m))
  {
    DataSnoc(s.received, m);
    var passed := if ToTung(m).Some? then [ToTung(m).value] else [];
    assert Receive(s, m).inbound == s.inbound + passed;
    assert s.taken + (s.inbound + passed) == s.taken + s.inbound + passed;
  }

  lemma RefuseStep(s: State, m: AxumMessage)
    requires InboundInv(s) && s.relay.Selecting? && FrameRefused(Receive(s, m))
    ensures InboundInv(Receive(s, m))
  {
    var s' := Receive(s, m);
    assert s'.received[..|s'.received| - 1] == s.received;
    assert Accepted(s') == Accepted(s);
  }

  lemma ReceiveStep(s: State, m: AxumMessage)
    requires InboundInv(s) && s.relay.Selecting?
    ensures InboundInv(Receive(s, m))
  {
    if FrameRefused(Receive(s, m)) { RefuseStep(s, m); } else { AcceptStep(s, m); }
  }

  lemma TakeStep(s: State)
    requires InboundInv(s) && Enabled(s, WorkerTake)
    ensures InboundInv(Apply(s, WorkerTake))
  {
    var s' := Apply(s, WorkerTake);
    assert s.inbound == [s.inbound[0]] + s'.inbound;
    assert s'.taken + s'.inbound == s.taken + s.inbound;
  }

  /** A step that neither receives nor takes does not touch the inbound side. */
  lemma OtherStep(s: State, a: Action)
    requires Enabled(s, a) && RelayOk(s) && !a.SocketReceive? && !a.WorkerTake?
    ensures var s' := Apply(s, a);
      && s'.taken == s.taken && s'.inbound == s.inbound && s'.received == s.received
      && FrameRefused(s') == FrameRefused(s)
      && forall last :: RefusalOk(s.relay, last) && FrameRefused(s) ==> RefusalOk(s'.relay, last)
  {
  }

  lemma InboundStep(s: State, a: Action)
    requires InboundInv(s) && RelayOk(s) && Enabled(s, a)
    ensures InboundInv(Apply(s, a))
  {
    if a.WorkerTake? {
      TakeStep(s);
    } else if a.SocketReceive? {
      ReceiveStep(s, a.frame);
    } else {
      OtherStep(s, a);
    }
  }

  lemma {:induction false} RunInv(actions: seq<Action>)
    requires After(actions).Some?
    ensures var s := After(actions).value; OutboundInv(s) && InboundInv(s) && RelayOk(s)
  {
    if actions == [] {
      assert Converted([]) == [];
    } else {
      RunInv(actions[..|actions| - 1]);
      var s := After(actions[..|actions| - 1]).value;
      OutboundStep(s, actions[|actions| - 1]);
      InboundStep(s, actions[|actions| - 1]);
    }
  }

  // The results.

  /** In every interleaving the messages written for the worker are, converted and in order, a prefix
      of what it sent; at most 128 + 1 + 128 messages lie between the worker and the relay; and if the
      relay ended because the outbound side closed, every message sent was written. */
  lemma OutboundDelivery(actions: seq<Action>)
    requires After(actions).Some?
    ensures var s := After(actions).value;
      && s.delivered <= s.sent
      && Converted(s.delivered) <= s.written
      && |s.written| <= |s.delivered| + 1
      && |s.sent| - |s.delivered| - |InRelay(s)| <= 128 + 1 + 128
      && |InRelay(s)| <= 1
      && (s.relay == Finished(OutboundClosed) ==> s.delivered == s.sent && s.written == Converted(s.sent))
  {
    RunInv(actions);
    var s := After(actions).value;
    assert s.sent[..|s.delivered|] == s.delivered;
    assert Converted(s.delivered) == s.written[..|s.delivered|];
    if s.relay == Finished(OutboundClosed) {
      assert Path(s) == s.delivered;
    }
  }

  /** In every interleaving what the worker takes is a gap-free prefix of the data frames received, none
      above 32 MiB; nothing is missing unless the last frame was refused, which ends the relay. */
  lemma InboundDelivery(actions: seq<Action>)
    requires After(actions).Some?
    ensures var s := After(actions).value;
      && s.taken <= Data(s.received)
      && |s.inbound| <= 128
      && (forall i :: 0 <= i < |s.taken| ==>
            (s.taken[i].TText? || s.taken[i].TBinary? ==> |s.taken[i].payload| <= 33_554_432))
      && (!FrameRefused(s) ==> s.taken + s.inbound == Data(s.received))
  {
    RunInv(actions);
    var s := After(actions).value;
    DataBounded(Accepted(s));
    assert forall i :: 0 <= i < |s.taken| ==> s.taken[i] == (s.taken + s.inbound)[i];
    if FrameRefused(s) {
      assert Data(s.received) == Data(Accepted(s)) +
        if ToTung(s.received[|s.received| - 1]).Some? then [ToTung(s.received[|s.received| - 1]).value] else [];
    }
    assert (s.taken + s.inbound)[..|s.taken|] == s.taken;
  }

  lemma {:induction false} DataBounded(frames: seq<AxumMessage>)
    requires AllBounded(frames)
    ensures forall t :: t in Data(frames) && (t.TText? || t.TBinary?) ==> |t.payload| <= MAX_WS_MESSAGE_BYTES
  {
    if frames != [] {
      DataBounded(frames[..|frames| - 1]);
    }
  }

  /** The frame that ended the relay is the only one not passed on; it was refused with 1009 exactly when
      it was too large. */
  lemma RefusalReason(actions: seq<Action>)
    requires After(actions).Some? && FrameRefused(After(actions).value)
    ensures var s := After(actions).value;
      && s.received != []
      && var last := s.received[|s.received| - 1];
      && (GaveUpFor(s, TooLarge) <==> TooBig(last))
      && s.taken + s.inbound == Data(s.received[..|s.received| - 1])
  {
    RunInv(actions);
  }

  /** The close code goes with the reason. */
  lemma RefusalCode(actions: seq<Action>)
    requires After(actions).Some? && After(actions).value.relay.Refusing?
    ensures After(actions).value.relay in {Refusing(1009, TooLarge), Refusing(1008, Backpressure)}
  {
    RunInv(actions);
  }

  predicate GaveUpFor(s: State, why: Exit) {
    match s.relay
    case Refusing(_, exit) => exit == why
    case Finished(exit) => exit == why
    case _ => false
  }

  /** Text or binary data above 32 MiB. */
  predicate TooBig(m: AxumMessage) {
    (m.Text? || m.Binary?) && |m.payload| > 33_554_432
  }

  /** The state a frame meets when it is too large, when the worker has dropped its receiver, when the
      inbound channel is full. */
  predicate Meets(s: State, m: AxumMessage, why: Exit) {
    match why
    case TooLarge => TooBig(m)
    case WorkerGone => !TooBig(m) && !m.Ping? && !m.Pong? && !s.workerReceives
    case Backpressure => !TooBig(m) && !m.Ping? && !m.Pong? && s.workerReceives && |s.inbound| == 128
    case _ => false
  }

  /** Step `k` of the run received a frame that met this state. */
  ghost predicate MetAt(actions: seq<Action>, k: nat, why: Exit) {
    && k < |actions| && actions[k].SocketReceive?
    && After(actions[..k]).Some?
    && Meets(After(actions[..k]).value, actions[k].frame, why)
  }

  lemma GivesUpStep(s: State, a: Action, why: Exit)
    requires Enabled(s, a) && |s.inbound| <= CHANNEL_CAPACITY && why in {TooLarge, WorkerGone, Backpressure}
    ensures GaveUpFor(Apply(s, a), why) <==> GaveUpFor(s, why) || (a.SocketReceive? && Meets(s, a.frame, why))
  {
    if a.SocketReceive? { GivesUpOnFrame(s, a.frame, why); } else { GivesUpOtherwise(s, a, why); }
  }

  lemma GivesUpOnFrame(s: State, m: AxumMessage, why: Exit)
    requires s.relay.Selecting? && |s.inbound| <= CHANNEL_CAPACITY && why in {TooLarge, WorkerGone, Backpressure}
    ensures GaveUpFor(Receive(s, m), why) <==> Meets(s, m, why)
  {
  }

  lemma GivesUpOtherwise(s: State, a: Action, why: Exit)
    requires Enabled(s, a) && why in {TooLarge, WorkerGone, Backpressure} && !a.SocketReceive?
    ensures GaveUpFor(Apply(s, a), why) <==> GaveUpFor(s, why)
  {
  }

  /** In every interleaving the relay gives up with 1009 exactly when a frame above 32 MiB arrived; with
      1008 exactly when a data frame of legal size arrived while the worker was receiving and 128 messages
      lay in the inbound channel; without a close frame because of the worker exactly when one arrived
      after the worker had dropped its receiver. */
  lemma {:induction false} RefusedExactly(actions: seq<Action>, why: Exit)
    requires After(actions).Some? && why in {TooLarge, WorkerGone, Backpressure}
    ensures GaveUpFor(After(actions).value, why) <==> exists k: nat :: MetAt(actions, k, why)
  {
    if actions != [] {
      var init, a := actions[..|actions| - 1], actions[|actions| - 1];
      var s := After(init).value;
      assert After(actions).value == Apply(s, a);
      RefusedExactly(init, why);
      RunInv(init);
      GivesUpStep(s, a, why);
      MetSoFar(actions, why);
      hide *;
    }
  }

  /** The last step is met by what came before it. */
  lemma MetSoFar(actions: seq<Action>, why: Exit)
    requires actions != []
    ensures var init, a := actions[..|actions| - 1], actions[|actions| - 1];
      (exists k: nat :: MetAt(actions, k, why)) <==>
        (exists k: nat :: MetAt(init, k, why)) ||
        (a.SocketReceive? && After(init).Some? && Meets(After(init).value, a.frame, why))
  {
    var init, n := actions[..|actions| - 1], |actions| - 1;
    hide After, Meets;
    forall k: nat | k < n ensures MetAt(init, k, why) <==> MetAt(actions, k, why) {
      MetBefore(actions, k, why);
    }
    if k: nat :| MetAt(actions, k, why) {
      assert k < n ==> MetAt(init, k, why);
    }
    if k: nat :| MetAt(init, k, why) {
      assert MetAt(actions, k, why);
    }
    assert MetAt(actions, n, why) <==>
      actions[n].SocketReceive? && After(init).Some? && Meets(After(init).value, actions[n].frame, why);
  }

  lemma MetBefore(actions: seq<Action>, k: nat, why: Exit)
    requires k + 1 < |actions|
    ensures MetAt(actions[..|actions| - 1], k, why) <==> MetAt(actions, k, why)
  {
    hide After, Meets;
    assert actions[..|actions| - 1][..k] == actions[..k];
  }

  /** A refusal ends the relay, with one close frame at most. */
  lemma RefusalEnds(s: State, closeWritten: bool)
    requires s.relay in {Refusing(1009, TooLarge), Refusing(1008, Backpressure)}
    ensures forall a :: Enabled(s, a) ==> a.RelayRefused? || Apply(s, a).relay == s.relay
    ensures var s', why := Apply(s, RelayRefused(closeWritten)), s.relay.exit;
      && s'.relay == Finished(why)
      && s'.written == s.written +
        (if !closeWritten then []
         else if why == TooLarge then [Close(Some(CloseFrame(1009, "Message too large")))]
         else [Close(Some(CloseFrame(1008, "Backpressure limit")))])
  {
    assert s.written + [] == s.written;
  }

  // How the relay ends.

  /** While it selects, the socket can bring any frame, fail or end, and while it writes, the write can succeed or
      fail; the worker sends while fewer than 128 messages wait, takes what there is, and can close both its
      ends. */
  lemma NothingElseIsRuledOut(s: State, m: TungMessage, frame: AxumMessage)
    ensures Enabled(s, SocketReceive(frame)) == Enabled(s, SocketError) == Enabled(s, SocketEnd) == s.relay.Selecting?
    ensures Enabled(s, RelayWrote) == Enabled(s, RelayWriteError) == s.relay.Writing?
    ensures Enabled(s, WorkerSend(m)) <==> s.workerSends && !s.pump.Ended? && |s.outbound| < 128
    ensures Enabled(s, WorkerTake) <==> s.workerReceives && s.inbound != []
    ensures Enabled(s, WorkerCloseOutbound) == s.workerSends && Enabled(s, WorkerCloseInbound) == s.workerReceives
  {
  }

  /** Each way of ending is the one that happened, and the worker's two ends are open until it closes them. */
  ghost predicate EndsAre(s: State, actions: seq<Action>) {
    && (s.relay == Finished(SocketEnded) <==> SocketEnd in actions)
    && (s.relay == Finished(SocketFailed) <==> SocketError in actions)
    && (s.relay == Finished(WriteFailed) <==> RelayWriteError in actions)
    && (s.relay == Finished(OutboundClosed) <==> RelayOutboundClosed in actions)
    && (s.workerSends <==> WorkerCloseOutbound !in actions)
    && (s.workerReceives <==> WorkerCloseInbound !in actions)
  }

  /** So it is on every run. */
  lemma {:induction false} EndsExactly(actions: seq<Action>)
    requires After(actions).Some?
    ensures EndsAre(After(actions).value, actions)
  {
    if actions != [] {
      var init, a := actions[..|actions| - 1], actions[|actions| - 1];
      var s := After(init).value;
      assert Enabled(s, a) && After(actions).value == Apply(s, a);
      hide *;
      RunInv(init);
      EndsExactly(init);
      EndsAreMore(s, init, a);
      assert actions == init + [a];
    }
  }

  lemma EndsAreMore(s: State, actions: seq<Action>, a: Action)
    requires EndsAre(s, actions) && RelayOk(s) && Enabled(s, a)
    ensures EndsAre(Apply(s, a), actions + [a])
  {
    EndsStep(s, a);
    InMore(actions, a);
    hide Apply, Enabled, RelayOk;
  }

  lemma InMore(actions: seq<Action>, a: Action)
    ensures forall b :: b in actions + [a] <==> b in actions || b == a
  {
  }

  lemma EndsStep(s: State, a: Action)
    requires Enabled(s, a) && RelayOk(s)
    ensures var s' := Apply(s, a);
      && (s'.relay == Finished(SocketEnded) <==> s.relay == Finished(SocketEnded) || a == SocketEnd)
      && (s'.relay == Finished(SocketFailed) <==> s.relay == Finished(SocketFailed) || a == SocketError)
      && (s'.relay == Finished(WriteFailed) <==> s.relay == Finished(WriteFailed) || a == RelayWriteError)
      && (s'.relay == Finished(OutboundClosed) <==> s.relay == Finished(OutboundClosed) || a == RelayOutboundClosed)
      && (s'.workerSends <==> s.workerSends && a != WorkerCloseOutbound)
      && (s'.workerReceives <==> s.workerReceives && a != WorkerCloseInbound)
  {
    if a.SocketReceive? { FrameEndsOtherwise(s, a.frame); }
    hide Receive;
  }

  lemma FrameEndsOtherwise(s: State, m: AxumMessage)
    requires s.relay.Selecting?
    ensures var s' := Receive(s, m);
      && (s'.relay.Finished? ==> s'.relay == Finished(WorkerGone))
      && s'.workerSends == s.workerSends && s'.workerReceives == s.workerReceives
  {
  }

  /** Once the relay has finished, for whatever reason, it takes, writes and receives nothing any more. */
  lemma {:induction false} FinishedForGood(actions: seq<Action>, k: nat)
    requires k <= |actions| && After(actions).Some?
    requires After(actions[..k]).Some? && After(actions[..k]).value.relay.Finished?
    ensures var was, is_ := After(actions[..k]).value, After(actions).value;
      && is_.relay == was.relay && is_.delivered == was.delivered && is_.written == was.written
      && is_.received == was.received && is_.notify == was.notify
  {
    if k == |actions| {
      assert actions[..k] == actions;
    } else {
      var init := actions[..|actions| - 1];
      assert init[..k] == actions[..k];
      FinishedForGood(init, k);
      FinishedStep(After(init).value, actions[|actions| - 1]);
      hide Apply;
    }
  }

  lemma FinishedStep(s: State, a: Action)
    requires Enabled(s, a) && s.relay.Finished?
    ensures var s' := Apply(s, a);
      s'.relay == s.relay && s'.delivered == s.delivered && s'.written == s.written && s'.received == s.received &&
      s'.notify == s.notify
  {
  }

  /** Then a pump thread with a message in hand gives up, and so ends what the worker can send. */
  lemma PumpGivesUp(s: State)
    requires s.relay.Finished? && s.pump.Holding?
    ensures Enabled(s, PumpGiveUp) && !Enabled(s, PumpPut)
    ensures var s' := Apply(s, PumpGiveUp); s'.pump == Ended && forall m :: !Enabled(s', WorkerSend(m))
  {
  }

  // Two runs.

  ghost predicate Reachable(s: State) {
    exists actions :: After(actions) == Some(s)
  }

  lemma ReachMore(s: State, a: Action)
    requires Reachable(s) && Enabled(s, a)
    ensures Reachable(Apply(s, a))
  {
    var actions :| After(actions) == Some(s);
    assert (actions + [a])[..|actions + [a]| - 1] == actions;
    assert After(actions + [a]) == Some(Apply(s, a));
  }

  lemma ReachStart()
    ensures Reachable(START)
  {
    assert After([]) == Some(START);
  }

  /** A text that the worker sends back reaches the socket as it came. */
  lemma Echo(text: seq<byte>)
    requires |text| <= 33_554_432
    ensures exists s :: Reachable(s) && s.taken == [TText(text)] && s.received == s.written == [Text(text)]
  {
    ReachStart();
    hide Reachable;
    ReachMore(START, SocketReceive(Text(text)));
    var s1 := Apply(START, SocketReceive(Text(text)));
    ReachMore(s1, WorkerTake);
    var s2 := Apply(s1, WorkerTake);
    assert s2 == START.(received := [Text(text)], taken := [TText(text)]);
    var s5 := Sent(s2, TText(text));
    ReachMore(s5, RelayTake);
    var s6 := Apply(s5, RelayTake);
    ReachMore(s6, RelayWrote);
    assert Apply(s6, RelayWrote).written == [Text(text)];
  }

  /** One message goes from the worker into the notification channel. */
  lemma Sent(s: State, m: TungMessage) returns (s': State)
    requires Reachable(s) && s.workerSends && s.pump.Idle? && !s.relay.Finished? && s.outbound == [] && |s.notify| < 128
    ensures Reachable(s') && s' == s.(sent := s.sent + [m], notify := s.notify + [m])
  {
    hide Reachable;
    ReachMore(s, WorkerSend(m));
    var s1 := Apply(s, WorkerSend(m));
    ReachMore(s1, PumpTake);
    var s2 := Apply(s1, PumpTake);
    ReachMore(s2, PumpPut);
    s' := Apply(s2, PumpPut);
    assert s'.outbound == s.outbound;
  }

  lemma {:induction false} FillNotify(m: TungMessage, n: nat) returns (s: State)
    requires n <= 128
    ensures Reachable(s) && |s.notify| == n == |s.sent| && s == START.(sent := s.sent, notify := s.notify)
  {
    if n == 0 {
      ReachStart();
      s := START;
    } else {
      var s0 := FillNotify(m, n - 1);
      s := Sent(s0, m);
    }
  }

  lemma {:induction false} FillOutbound(s0: State, m: TungMessage, n: nat) returns (s: State)
    requires n <= 128 && Reachable(s0) && s0.workerSends && s0.pump.Holding? && s0.outbound == []
    ensures Reachable(s) && |s.outbound| == n && |s.sent| == |s0.sent| + n
    ensures s == s0.(sent := s.sent, outbound := s.outbound)
  {
    if n == 0 {
      s := s0;
    } else {
      var s1 := FillOutbound(s0, m, n - 1);
      ReachMore(s1, WorkerSend(m));
      s := Apply(s1, WorkerSend(m));
    }
  }

  /** The bound of OutboundDelivery is reached: 257 messages can lie between the worker and the relay. */
  lemma BoundIsReached(m: TungMessage)
    ensures exists s :: Reachable(s) && |s.sent| - |s.delivered| - |InRelay(s)| == 257
  {
    var s1 := FillNotify(m, 128);
    ReachMore(s1, WorkerSend(m));
    var s2 := Apply(s1, WorkerSend(m));
    ReachMore(s2, PumpTake);
    var s3 := Apply(s2, PumpTake);
    var s4 := FillOutbound(s3, m, 128);
    hide Reachable;
    assert |s4.sent| == 257 && s4.delivered == [] && InRelay(s4) == [];
  }

  // Draining: once the worker has closed its side, the relay can always finish the job.

  function Remaining(s: State): nat {
    4 * |s.outbound| + (if s.pump.Holding? then 3 else 0) + 2 * |s.notify| +
    (if s.relay.Writing? then 1 else 0) + (if s.pump.Ended? then 0 else 1)
  }

  /** A step of the pump thread or of the relay that writes without error and receives nothing. */
  predicate Draining(a: Action) {
    a in {PumpTake, PumpPut, PumpEnd, RelayTake, RelayWrote, RelayOutboundClosed}
  }

  /** The two bounded channels never block each other for good. */
  lemma NeverStuck(s: State)
    requires OutboundInv(s) && (s.relay.Selecting? || s.relay.Writing?)
    requires !s.workerSends
    ensures exists a :: Draining(a) && Enabled(s, a)
  {
    if s.relay.Writing? {
      assert Enabled(s, RelayWrote);
    } else if s.notify != [] {
      assert Enabled(s, RelayTake);
    } else if s.pump.Holding? {
      assert Enabled(s, PumpPut);
    } else if s.pump.Ended? {
      assert Enabled(s, RelayOutboundClosed);
    } else if s.outbound != [] {
      assert Enabled(s, PumpTake);
    } else {
      assert Enabled(s, PumpEnd);
    }
  }

  ghost predicate Drainable(s: State) {
    OutboundInv(s) && RelayOk(s) && !s.workerSends && (s.relay.Selecting? || s.relay.Writing?)
  }

  /** Every draining step brings the end nearer. */
  lemma DrainingAdvances(s: State, a: Action)
    requires Drainable(s) && Draining(a) && Enabled(s, a)
    ensures var s' := Apply(s, a);
      && OutboundInv(s')
      && s'.sent == s.sent
      && (s'.relay == Finished(OutboundClosed) || (Drainable(s') && Remaining(s') < Remaining(s)))
  {
    OutboundStep(s, a);
  }

  ghost predicate Drains(s: State, actions: seq<Action>, s': State)
    decreases |actions|
  {
    if actions == [] then s' == s else
      Draining(actions[0]) && Enabled(s, actions[0]) && Drains(Apply(s, actions[0]), actions[1..], s')
  }

  /** Any schedule of draining steps, in whatever order, can go on until the relay has finished, lasts
      at most `Remaining` + 1 steps, and then every message sent is written. */
  lemma {:induction false} DrainingFinishes(s: State, actions: seq<Action>, s': State)
    requires Drainable(s) && Drains(s, actions, s')
    ensures s'.sent == s.sent
    ensures |actions| <= Remaining(s) + 1
    ensures if s'.relay == Finished(OutboundClosed) then s'.delivered == s.sent
            else exists a :: Draining(a) && Enabled(s', a)
    decreases |actions|
  {
    if actions == [] {
      NeverStuck(s);
    } else {
      var s1 := Apply(s, actions[0]);
      DrainingAdvances(s, actions[0]);
      if s1.relay == Finished(OutboundClosed) {
        NothingAfterClose(s1, actions[1..], s');
        assert Path(s1) == s1.delivered;
      } else {
        DrainingFinishes(s1, actions[1..], s');
      }
    }
  }

  lemma NothingAfterClose(s: State, actions: seq<Action>, s': State)
    requires ChannelsOk(s) && s.relay == Finished(OutboundClosed) && Drains(s, actions, s')
    ensures actions == [] && s' == s
  {
    assert forall a :: Draining(a) ==> !Enabled(s, a);
  }

  // The two conversions.

  /** A data message survives the way to the worker and back, and only data messages are passed on. */
  lemma ConversionsRoundTrip(m: AxumMessage)
    ensures ToTung(m).Some? ==> ToAxum(ToTung(m).value) == m
    ensures ToTung(m).None? <==> m.Ping? || m.Pong?
  {
  }

  /** What the worker sends arrives as the same kind with the same content; a raw frame arrives as a close. */
  lemma KindsAreKept(t: TungMessage)
    ensures match ToAxum(t)
            case Text(p) => t == TText(p)
            case Binary(p) => t == TBinary(p)
            case Ping(p) => t == TPing(p)
            case Pong(p) => t == TPong(p)
            case Close(f) => t == TClose(f) || (t.TFrame? && f == None)
  {
  }
}
