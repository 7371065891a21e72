/**
 One data endpoint: `relay_read` (RelayReader.cpp) and `relay_write` (RelayWriter.cpp) joined by one
 bounded queue, with the two-step `please_stop`. One event is one atomic step of one thread.
 */
module DataMachine {
  import opened Common
  import opened SafeQueues
  import opened Packets

  /** `id` is the packet's position among the packets received on this endpoint. */
  datatype Item = Item(id: nat, packet: Packet)

  type ItemPtr = Option<Item>

  /** What filter `j` may turn a packet into; a packet its test rejects stays as it is. */
  type FilterRel = (nat, Packet, Packet) -> bool

  datatype ReaderPc = ReaderTop | Receive | Enqueue | ReaderExit | ReaderDone

  datatype Reader = Reader(pc: ReaderPc, p: ItemPtr, stop: bool)

  datatype WriterPc = WriterTop | AwaitPacket | FilterPacket | WaitComplete | WriterExit | WriterDone

  /** `trail` is the packet in hand after each of the filters it has passed so far. */
  datatype Writer = Writer(pc: WriterPc, writing: bool, id: nat, trail: seq<Packet>, stop: bool)

  /** A packet handed to `send_data`, with its history. */
  datatype Sent = Sent(id: nat, trail: seq<Packet>)

  datatype State = State(
    reader: Reader, writer: Writer, queue: seq<ItemPtr>,
    readerStop: StopPhase, writerStop: StopPhase,
    received: seq<Packet>, sent: seq<Sent>, withheld: seq<nat>, dropped: seq<nat>,
    transferring: bool, overlapped: bool)

  /** `Received([])` is a time-out; `Completes(false)` is a `send_wait_complete` that times out. */
  datatype Event =
    | ReaderStep(data: seq<byte>)
    | WriterStep(filtered: Packet, completes: bool)
    | StopReader
    | StopWriter

  predicate Init(s: State) {
    && s.reader == Reader(ReaderTop, None, false)
    && s.writer.pc == WriterTop && !s.writer.writing && s.writer.trail == [] && !s.writer.stop
    && s.queue == [] && s.readerStop == NotAsked && s.writerStop == NotAsked
    && s.received == [] && s.sent == [] && s.withheld == [] && s.dropped == []
    && !s.transferring && !s.overlapped
  }

  function FiltersDone(w: Writer): nat {
    if w.trail == [] then 0 else |w.trail| - 1
  }

  predicate Enabled(n: nat, rel: FilterRel, s: State, e: Event) {
    match e
    case ReaderStep(_) => s.reader.pc != ReaderDone
    case WriterStep(filtered, _) =>
      && s.writer.pc != WriterDone
      && (s.writer.pc == AwaitPacket ==> s.queue != [])
      && (s.writer.pc == FilterPacket && FiltersDone(s.writer) < n && s.writer.trail != [] ==>
            rel(FiltersDone(s.writer), s.writer.trail[|s.writer.trail| - 1], filtered))
    case StopReader => s.readerStop == NotAsked
    case StopWriter => s.writerStop != TokenSent
  }

  function ReaderNext(endpoint: byte, s: State, data: seq<byte>): State
    requires s.reader.pc != ReaderDone
  {
    var r := s.reader;
    match r.pc
    case ReaderTop => s.(reader := r.(pc := if r.stop then ReaderExit else Receive))
    case Receive =>
      if data == [] then s.(reader := r.(pc := ReaderTop))
      else
        var p := NewPacket(endpoint, data);
        s.(reader := r.(pc := Enqueue, p := Some(Item(|s.received|, p))), received := s.received + [p])
    case Enqueue =>
      s.(reader := r.(pc := ReaderTop, p := None), queue := Pushed(s.queue, r.p),
         dropped := if |s.queue| >= QUEUE_MAX && r.p.Some? then s.dropped + [r.p.value.id] else s.dropped)
    case ReaderExit => s.(reader := r.(pc := ReaderDone, stop := false))
  }

  function WriterNext(n: nat, s: State, filtered: Packet, completes: bool): State
    requires s.writer.pc != WriterDone && (s.writer.pc == AwaitPacket ==> s.queue != [])
  {
    var w := s.writer;
    match w.pc
    case WriterTop =>
      s.(writer := w.(pc := if w.stop then WriterExit else if w.writing then WaitComplete else AwaitPacket))
    case AwaitPacket =>
      var p := s.queue[0];
      s.(queue := s.queue[1..],
         writer := if p == None then w.(pc := WriterTop)
                   else w.(pc := FilterPacket, id := p.value.id, trail := [p.value.packet]))
    case FilterPacket =>
      if w.trail == [] then s.(writer := w.(pc := WriterTop))
      else if FiltersDone(w) < n then s.(writer := w.(trail := w.trail + [filtered]))
      else if w.trail[|w.trail| - 1].transmit then
        s.(writer := w.(pc := WriterTop, writing := true, trail := []), sent := s.sent + [Sent(w.id, w.trail)],
           overlapped := s.overlapped || s.transferring, transferring := true)
      else
        s.(writer := w.(pc := WriterTop, trail := []), withheld := s.withheld + [w.id])
    case WaitComplete =>
      s.(writer := w.(pc := WriterTop, writing := !completes), transferring := s.transferring && !completes)
    case WriterExit => s.(writer := w.(pc := WriterDone, stop := false))
  }

  function Apply(n: nat, rel: FilterRel, endpoint: byte, s: State, e: Event): State
    requires Enabled(n, rel, s, e)
  {
    match e
    case ReaderStep(data) => ReaderNext(endpoint, s, data)
    case WriterStep(filtered, completes) => WriterNext(n, s, filtered, completes)
    case StopReader => s.(reader := s.reader.(stop := true), readerStop := TokenSent)
    case StopWriter =>
      if s.writerStop == NotAsked then s.(writer := s.writer.(stop := true), writerStop := FlagRaised)
      else s.(queue := Pushed(s.queue, None), writerStop := TokenSent)
  }

  predicate Possible(n: nat, rel: FilterRel, endpoint: byte, s: State, es: seq<Event>)
    decreases |es|
  {
    es == [] || (Enabled(n, rel, s, es[0]) && Possible(n, rel, endpoint, Apply(n, rel, endpoint, s, es[0]), es[1..]))
  }

  function Run(n: nat, rel: FilterRel, endpoint: byte, s: State, es: seq<Event>): State
    requires Possible(n, rel, endpoint, s, es)
    decreases |es|
  {
    if es == [] then s else Run(n, rel, endpoint, Apply(n, rel, endpoint, s, es[0]), es[1..])
  }
}
