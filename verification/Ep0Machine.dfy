/**
 The two EP0 relay threads as a state machine: `relay_read_setup` (RelayReader.cpp) and
 `relay_write_setup` (RelayWriter.cpp) joined by two bounded queues, with the two-step
 `please_stop` of each. One event is one atomic step of one thread.
 */
module Ep0Machine {
  import opened Common
  import opened SafeQueues

  // ----- Data -----

  /** `usb_ctrlrequest`. */
  datatype ControlRequest = ControlRequest(
    bRequestType: byte, bRequest: byte, wValue: word, wIndex: word, wLength: word)
  {
    predicate DeviceToHost() { bRequestType >= 0x80 }
    predicate SetsConfiguration() { bRequest == 9 && bRequestType == 0 }
  }

  /** What the host proxy hands over: the request and, host to device, its data stage. */
  datatype Request = Request(ctrl: ControlRequest, data: seq<byte>)

  /** `SetupPacket`; `serial` names the host request the object was created for. */
  datatype SetupPacket = SetupPacket(
    serial: nat, ctrl: ControlRequest, data: seq<byte>,
    filterOut: bool, transmitOut: bool, filterIn: bool, transmitIn: bool)

  type PacketPtr = Option<SetupPacket>

  /** `DeviceProxy::control_request`: negative `rc` is a stall, `data` holds the bytes moved. */
  datatype DeviceReply = DeviceReply(rc: int, data: seq<byte>)

  /** The call the reader makes on the host proxy to answer a request. */
  datatype HostCall = SendData(buffer: seq<byte>, length: nat) | ControlAck | StallEndpoint

  /** What the host sees of such a call. */
  datatype HostReply = Data(bytes: seq<byte>) | Ack | Stall

  function NewPacket(serial: nat, r: Request): SetupPacket {
    SetupPacket(serial, r.ctrl, r.data, true, true, true, true)
  }

  function CallFor(p: SetupPacket): HostCall {
    if !p.transmitIn then StallEndpoint
    else if p.ctrl.wLength != 0 then SendData(p.data, p.ctrl.wLength)
    else ControlAck
  }

  /** The call stays inside its buffer and the host sees exactly `r`. */
  predicate Delivers(call: HostCall, r: HostReply) {
    match call
    case SendData(buffer, length) => length <= |buffer| && r == Data(buffer[..length])
    case ControlAck => r == Ack
    case StallEndpoint => r == Stall
  }

  /** Calling the device with no relay in between. */
  function DirectReply(r: Request, reply: DeviceReply): HostReply {
    if reply.rc < 0 then Stall
    else if r.ctrl.DeviceToHost() && reply.data != [] then Data(reply.data)
    else Ack
  }

  // ----- History -----

  /** One call of the device proxy. */
  datatype Call = Call(serial: nat, request: Request, reply: DeviceReply)

  /** One answer given to the host. */
  datatype Answer = Answer(serial: nat, call: HostCall)

  /** Why a packet left the relay without being answered. */
  datatype Loss = Withheld | RequestDropped | ReplyDropped | WriterStopped | ReaderStopped

  datatype Gone = Gone(serial: nat, why: Loss)

  datatype Trace = Trace(
    requests: seq<Request>, calls: seq<Call>, answers: seq<Answer>,
    configs: seq<byte>, gone: seq<Gone>)

  // ----- The reader thread -----

  datatype ReaderPc =
    | ReaderTop | Fetch | SendRequest | AwaitReply | ReplyTaken | AnswerHost | WaitComplete
    | ReaderExit | ReaderDone

  datatype Reader = Reader(pc: ReaderPc, directionOut: bool, p: PacketPtr, stop: bool)

  /** What the host proxy reports: nothing (a timeout), a request, or a completed transfer. */
  datatype HostInput = Quiet | Arrives(request: Request) | Completed

  datatype ReaderEffect =
    | NoEffect | Took(request: Request) | Answered(serial: nat, call: HostCall)
    | ReaderLost(serial: nat, why: Loss)

  datatype ReaderResult = ReaderResult(
    reader: Reader, sendQ: seq<PacketPtr>, recvQ: seq<PacketPtr>, effect: ReaderEffect)

  predicate ReaderEnabled(r: Reader, recvQ: seq<PacketPtr>) {
    r.pc != ReaderDone && (r.pc == AwaitReply ==> recvQ != [])
  }

  function ReaderNext(r: Reader, sendQ: seq<PacketPtr>, recvQ: seq<PacketPtr>,
                      serial: nat, input: HostInput): ReaderResult
    requires ReaderEnabled(r, recvQ)
  {
    match r.pc
    case ReaderTop =>
      var next := if r.stop then ReaderExit
                  else if r.directionOut then Fetch
                  else if r.p == None then AwaitReply
                  else WaitComplete;
      ReaderResult(r.(pc := next), sendQ, recvQ, NoEffect)
    case Fetch =>
      var p := if input.Arrives? then Some(NewPacket(serial, input.request)) else r.p;
      ReaderResult(r.(pc := if p == None then ReaderTop else SendRequest, p := p), sendQ, recvQ,
                   if input.Arrives? then Took(input.request) else NoEffect)
    case SendRequest =>
      var lost := |sendQ| >= QUEUE_MAX && r.p.Some?;
      ReaderResult(r.(pc := ReaderTop, directionOut := false, p := None), Pushed(sendQ, r.p), recvQ,
                   if lost then ReaderLost(r.p.value.serial, RequestDropped) else NoEffect)
    case AwaitReply =>
      ReaderResult(r.(pc := ReplyTaken, p := recvQ[0]), sendQ, recvQ[1..], NoEffect)
    case ReplyTaken =>
      if r.stop then
        ReaderResult(r.(pc := ReaderExit, p := None), sendQ, recvQ,
                     if r.p.Some? then ReaderLost(r.p.value.serial, ReaderStopped) else NoEffect)
      else
        ReaderResult(r.(pc := if r.p == None then ReaderTop else AnswerHost), sendQ, recvQ, NoEffect)
    case AnswerHost =>
      ReaderResult(r.(pc := WaitComplete), sendQ, recvQ,
                   if r.p.Some? then Answered(r.p.value.serial, CallFor(r.p.value)) else NoEffect)
    case WaitComplete =>
      ReaderResult(if input.Completed? then r.(pc := ReaderTop, directionOut := true, p := None)
                   else r.(pc := ReaderTop), sendQ, recvQ, NoEffect)
    case ReaderExit =>
      ReaderResult(r.(pc := ReaderDone, stop := false), sendQ, recvQ, NoEffect)
  }

  // ----- The writer thread -----

  datatype WriterPc =
    | WriterTop | AwaitRequest | RequestTaken | FilterOut | AskDevice | FilterIn | SendReply
    | WriterExit | WriterDone

  /** The filter index `j` is a byte, so the filter loops are sure to end for this many filters only. */
  const MAX_FILTERS: nat := 255

  /** `length` is the uninitialised local that a failing device call leaves as it was. */
  datatype Writer = Writer(pc: WriterPc, p: PacketPtr, j: byte, length: nat, stop: bool)

  /** What a filter makes of the packet, or what the device answers and what malloc contained. */
  datatype WriterInput = Idle | Filtered(packet: SetupPacket) | Replied(reply: DeviceReply, junk: seq<byte>)

  datatype WriterEffect =
    | Nothing | Called(call: Call, config: Option<byte>) | WriterLost(serial: nat, why: Loss)

  datatype WriterResult = WriterResult(
    writer: Writer, recvQ: seq<PacketPtr>, sendQ: seq<PacketPtr>, effect: WriterEffect)

  /** Filters may rewrite everything but the object's identity; `n` filters are installed. */
  predicate WriterEnabled(n: nat, w: Writer, recvQ: seq<PacketPtr>, input: WriterInput) {
    match w.pc
    case AwaitRequest => recvQ != []
    case FilterOut => w.p.Some? && (w.j < n && w.p.value.filterOut ==>
                        input.Filtered? && input.packet.serial == w.p.value.serial)
    case FilterIn => w.p.Some? && (w.j < n && w.p.value.filterIn ==>
                       input.Filtered? && input.packet.serial == w.p.value.serial)
    case AskDevice => w.p.Some? && input.Replied? && DeviceContract(w.p.value.ctrl, input)
    case WriterDone => false
    case _ => true
  }

  /** On success the device moves at most `wLength` bytes into a buffer of `wLength` bytes. */
  predicate DeviceContract(ctrl: ControlRequest, input: WriterInput)
    requires input.Replied?
  {
    |input.reply.data| <= ctrl.wLength == |input.junk|
  }

  function WriterNext(n: nat, w: Writer, recvQ: seq<PacketPtr>, sendQ: seq<PacketPtr>,
                      input: WriterInput): WriterResult
    requires WriterEnabled(n, w, recvQ, input)
  {
    match w.pc
    case WriterTop =>
      WriterResult(w.(pc := if w.stop then WriterExit else AwaitRequest), recvQ, sendQ, Nothing)
    case AwaitRequest =>
      WriterResult(w.(pc := RequestTaken, p := recvQ[0]), recvQ[1..], sendQ, Nothing)
    case RequestTaken =>
      if w.stop then
        WriterResult(w.(pc := WriterExit), recvQ, sendQ,
                     if w.p.Some? then WriterLost(w.p.value.serial, WriterStopped) else Nothing)
      else
        WriterResult(if w.p == None then w.(pc := WriterTop) else w.(pc := FilterOut, j := 0),
                     recvQ, sendQ, Nothing)
    case FilterOut =>
      if w.j < n && w.p.value.filterOut then
        WriterResult(w.(p := Some(input.packet), j := (w.j as int + 1) % 0x100), recvQ, sendQ, Nothing)
      else if !w.p.value.transmitOut then
        WriterResult(w.(pc := WriterTop), recvQ, sendQ, WriterLost(w.p.value.serial, Withheld))
      else
        WriterResult(w.(pc := AskDevice), recvQ, sendQ, Nothing)
    case AskDevice =>
      var s := w.p.value;
      var call := Call(s.serial, Request(s.ctrl, s.data), input.reply);
      var ok := input.reply.rc >= 0;
      if s.ctrl.DeviceToHost() then
        var length := if ok then |input.reply.data| else w.length;
        var buffer := if ok then input.reply.data + input.junk[|input.reply.data|..] else input.junk;
        var s' := s.(data := buffer, transmitIn := ok, ctrl := s.ctrl.(wLength := length % 0x1_0000));
        WriterResult(w.(pc := FilterIn, p := Some(s'), j := 0, length := length), recvQ, sendQ,
                     Called(call, None))
      else
        var length := if ok then |input.reply.data| else s.ctrl.wLength;
        var s' := s.(transmitIn := ok, ctrl := s.ctrl.(wLength := 0));
        WriterResult(w.(pc := FilterIn, p := Some(s'), length := length), recvQ, sendQ,
                     Called(call, if s.ctrl.SetsConfiguration() then Some(s.ctrl.wValue % 0x100) else None))
    case FilterIn =>
      if w.j < n && w.p.value.filterIn then
        WriterResult(w.(p := Some(input.packet), j := (w.j as int + 1) % 0x100), recvQ, sendQ, Nothing)
      else
        WriterResult(w.(pc := SendReply), recvQ, sendQ, Nothing)
    case SendReply =>
      var lost := |sendQ| >= QUEUE_MAX && w.p.Some?;
      WriterResult(w.(pc := WriterTop), recvQ, Pushed(sendQ, w.p),
                   if lost then WriterLost(w.p.value.serial, ReplyDropped) else Nothing)
    case WriterExit =>
      WriterResult(w.(pc := WriterDone, stop := false), recvQ, sendQ, Nothing)
  }

  // ----- Both threads, and the thread that asks them to stop -----

  datatype State = State(
    reader: Reader, writer: Writer, readerSend: seq<PacketPtr>, writerSend: seq<PacketPtr>,
    readerStop: StopPhase, writerStop: StopPhase, trace: Trace)

  datatype Event =
    | ReaderStep(hostInput: HostInput)
    | WriterStep(writerInput: WriterInput)
    | StopReader
    | StopWriter

  /** Queues outlive a session, so they may start with left-over null tokens. */
  predicate Init(s: State) {
    && s.reader == Reader(ReaderTop, true, None, false)
    && s.writer.pc == WriterTop && s.writer.p == None && !s.writer.stop
    && (forall i :: 0 <= i < |s.readerSend| ==> s.readerSend[i] == None)
    && (forall i :: 0 <= i < |s.writerSend| ==> s.writerSend[i] == None)
    && s.readerStop == NotAsked && s.writerStop == NotAsked
    && s.trace == Trace([], [], [], [], [])
  }

  predicate Enabled(n: nat, s: State, e: Event) {
    match e
    case ReaderStep(_) => ReaderEnabled(s.reader, s.writerSend)
    case WriterStep(input) => WriterEnabled(n, s.writer, s.readerSend, input)
    case StopReader => s.readerStop != TokenSent
    case StopWriter => s.writerStop != TokenSent
  }

  function Apply(n: nat, s: State, e: Event): State
    requires Enabled(n, s, e)
  {
    match e
    case ReaderStep(input) =>
      var r := ReaderNext(s.reader, s.readerSend, s.writerSend, |s.trace.requests|, input);
      s.(reader := r.reader, readerSend := r.sendQ, writerSend := r.recvQ, trace := AfterReader(s.trace, r.effect))
    case WriterStep(input) =>
      var r := WriterNext(n, s.writer, s.readerSend, s.writerSend, input);
      s.(writer := r.writer, readerSend := r.recvQ, writerSend := r.sendQ, trace := AfterWriter(s.trace, r.effect))
    case StopReader =>
      if s.readerStop == NotAsked then s.(reader := s.reader.(stop := true), readerStop := FlagRaised)
      else s.(writerSend := Pushed(s.writerSend, None), readerStop := TokenSent)
    case StopWriter =>
      if s.writerStop == NotAsked then s.(writer := s.writer.(stop := true), writerStop := FlagRaised)
      else s.(readerSend := Pushed(s.readerSend, None), writerStop := TokenSent)
  }

  function AfterReader(t: Trace, e: ReaderEffect): Trace {
    match e
    case NoEffect => t
    case Took(r) => t.(requests := t.requests + [r])
    case Answered(k, c) => t.(answers := t.answers + [Answer(k, c)])
    case ReaderLost(k, why) => t.(gone := t.gone + [Gone(k, why)])
  }

  function AfterWriter(t: Trace, e: WriterEffect): Trace {
    match e
    case Nothing => t
    case Called(c, config) =>
      t.(calls := t.calls + [c],
         configs := if config.Some? then t.configs + [config.value] else t.configs)
    case WriterLost(k, why) => t.(gone := t.gone + [Gone(k, why)])
  }

  predicate Possible(n: nat, s: State, es: seq<Event>)
    decreases |es|
  {
    es == [] || (Enabled(n, s, es[0]) && Possible(n, Apply(n, s, es[0]), es[1..]))
  }

  /** The state a possible interleaving leads to. */
  function Run(n: nat, s: State, es: seq<Event>): State
    requires Possible(n, s, es)
    decreases |es|
  {
    if es == [] then s else Run(n, Apply(n, s, es[0]), es[1..])
  }
}
