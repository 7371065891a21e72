/** What the filters on EP0 see: every request and every answer goes through them in order. */
module Ep0Filters {
  import opened Common
  import opened Ep0Machine
  import opened Ep0Flow
  import opened Ep0Losses

  /** What filter `j` may turn a packet into, on its way to the device or (`back`) to the host. */
  type FilterRel = (nat, bool, SetupPacket, SetupPacket) -> bool

  /** A packet before and after each filter: on its way out, and back from the device's answer on. */
  datatype Handling = Handling(out: seq<SetupPacket>, back: seq<SetupPacket>)

  /** One handling per device call, and the way out of the packet the writer has in hand. */
  datatype History = History(current: seq<SetupPacket>, handled: seq<Handling>)

  function Last<T>(s: seq<T>): T
    requires s != []
  { s[|s| - 1] }

  // ----- Recording -----

  function Extended(hs: seq<Handling>, p: SetupPacket): seq<Handling> {
    if hs == [] then [] else hs[|hs| - 1 := Last(hs).(back := Last(hs).back + [p])]
  }

  /** The history after a step of the writer that ends in `next`. */
  function Recorded(n: nat, h: History, w: Writer, input: WriterInput, next: Writer): History {
    match w.pc
    case RequestTaken =>
      if next.pc == FilterOut && w.p.Some? then h.(current := [w.p.value]) else h
    case FilterOut =>
      if w.j < n && w.p.Some? && w.p.value.filterOut && input.Filtered?
      then h.(current := h.current + [input.packet]) else h
    case AskDevice =>
      if next.p.Some? then History([], h.handled + [Handling(h.current, [next.p.value])]) else h
    case FilterIn =>
      if w.j < n && w.p.Some? && w.p.value.filterIn && input.Filtered?
      then h.(handled := Extended(h.handled, input.packet)) else h
    case _ => h
  }

  function Track(n: nat, h: History, s: State, e: Event): History
    requires Enabled(n, s, e)
  {
    match e
    case WriterStep(input) => Recorded(n, h, s.writer, input, Apply(n, s, e).writer)
    case _ => h
  }

  /** Each filter does what it may do. */
  predicate Obeys(n: nat, rel: FilterRel, s: State, e: Event) {
    match e
    case WriterStep(Filtered(q)) =>
      var w := s.writer;
      && (w.pc == FilterOut && w.j < n && w.p.Some? && w.p.value.filterOut ==> rel(w.j, false, w.p.value, q))
      && (w.pc == FilterIn && w.j < n && w.p.Some? && w.p.value.filterIn ==> rel(w.j, true, w.p.value, q))
    case _ => true
  }

  predicate AllObey(n: nat, rel: FilterRel, s: State, es: seq<Event>)
    requires Possible(n, s, es)
    decreases |es|
  {
    es == [] || (Obeys(n, rel, s, es[0]) && AllObey(n, rel, Apply(n, s, es[0]), es[1..]))
  }

  function Recording(n: nat, h: History, s: State, es: seq<Event>): History
    requires Possible(n, s, es)
    decreases |es|
  {
    if es == [] then h else Recording(n, Track(n, h, s, es[0]), Apply(n, s, es[0]), es[1..])
  }

  // ----- Proper handling -----

  /** The request of the host, through the filters 0, 1, ... as long as `filterOut` stays set. */
  ghost predicate OutTrail(n: nat, rel: FilterRel, serial: nat, request: Request, trail: seq<SetupPacket>) {
    && 0 < |trail| <= n + 1
    && trail[0] == SetupPacket(serial, request.ctrl, request.data, true, true, true, true)
    && forall i :: 0 <= i < |trail| - 1 ==> trail[i].filterOut && rel(i, false, trail[i], trail[i + 1])
  }

  predicate OutDone(n: nat, trail: seq<SetupPacket>) {
    trail != [] && (|trail| == n + 1 || !Last(trail).filterOut) && Last(trail).transmitOut
  }

  /**
   A request to the host is filtered from the first filter on, one to the device goes on where it stopped on its
   way out.
   */
  function Start(h: Handling): nat {
    if h.out == [] || Last(h.out).ctrl.DeviceToHost() then 0 else |h.out| - 1
  }

  ghost predicate BackTrail(n: nat, rel: FilterRel, h: Handling) {
    && h.back != [] && Start(h) + |h.back| <= n + 1
    && forall i :: 0 <= i < |h.back| - 1 ==> h.back[i].filterIn && rel(Start(h) + i, true, h.back[i], h.back[i + 1])
  }

  predicate BackDone(n: nat, h: Handling) {
    h.back != [] && (Start(h) + |h.back| == n + 1 || !Last(h.back).filterIn)
  }

  /** The device's answer to `sent`, as a packet for the host; nothing but the answer differs. */
  predicate AnswerTo(sent: SetupPacket, reply: DeviceReply, back: SetupPacket) {
    && Delivers(CallFor(back), DirectReply(Request(sent.ctrl, sent.data), reply))
    && back == sent.(data := back.data, transmitIn := reply.rc >= 0, ctrl := sent.ctrl.(wLength := back.ctrl.wLength))
  }

  ghost predicate Proper(n: nat, rel: FilterRel, k: nat, request: Request, call: Call, h: Handling) {
    && OutTrail(n, rel, k, request, h.out) && OutDone(n, h.out)
    && call.request == Request(Last(h.out).ctrl, Last(h.out).data)
    && BackTrail(n, rel, h) && AnswerTo(Last(h.out), call.reply, h.back[0])
  }

  ghost predicate AllProper(n: nat, rel: FilterRel, t: Trace, hs: seq<Handling>) {
    && |hs| == |t.calls| <= |t.requests|
    && forall k :: 0 <= k < |hs| ==> Proper(n, rel, k, t.requests[k], t.calls[k], hs[k])
  }

  /** Each answer is what came out of the last filter. */
  predicate AllAnswered(n: nat, t: Trace, hs: seq<Handling>) {
    && |t.answers| <= |hs|
    && forall k :: 0 <= k < |t.answers| ==> BackDone(n, hs[k]) && t.answers[k].call == CallFor(Last(hs[k].back))
  }

  // ----- The packet in flight -----

  predicate Fresh(p: PacketPtr, t: Trace) {
    t.requests != [] && p == Some(NewPacket(|t.requests| - 1, Last(t.requests)))
  }

  predicate Finished(n: nat, p: PacketPtr, hs: seq<Handling>) {
    hs != [] && BackDone(n, Last(hs)) && p == Some(Last(Last(hs).back))
  }

  ghost predicate InHand(n: nat, rel: FilterRel, w: Writer, t: Trace, h: History) {
    match w.pc
    case RequestTaken => Fresh(w.p, t)
    case FilterOut => OnItsWay(n, rel, w, t, h)
    case AskDevice => OnItsWay(n, rel, w, t, h) && OutDone(n, h.current)
    case FilterIn => h.handled != [] && OnItsWayBack(w, Last(h.handled))
    case SendReply => Finished(n, w.p, h.handled)
    case _ => true
  }

  ghost predicate OnItsWay(n: nat, rel: FilterRel, w: Writer, t: Trace, h: History) {
    && t.requests != [] && OutTrail(n, rel, |t.requests| - 1, Last(t.requests), h.current)
    && |h.current| == w.j + 1 && w.p == Some(Last(h.current))
  }

  predicate OnItsWayBack(w: Writer, h: Handling) {
    h.back != [] && Start(h) + |h.back| == w.j + 1 && w.p == Some(Last(h.back))
  }

  ghost predicate Known(n: nat, rel: FilterRel, place: Place, r: Reader, w: Writer,
                        requestQ: seq<PacketPtr>, replyQ: seq<PacketPtr>, t: Trace, h: History) {
    match place
    case Nowhere => true
    case AtReader => Fresh(r.p, t)
    case InRequestQueue(i) => i < |requestQ| && Fresh(requestQ[i], t)
    case AtWriter => InHand(n, rel, w, t, h)
    case InReplyQueue(i) => i < |replyQ| && Finished(n, replyQ[i], h.handled)
    case BackAtReader => Finished(n, r.p, h.handled)
    case Lost => true
  }

  ghost predicate FilterInv(n: nat, rel: FilterRel, place: Place, s: State, h: History) {
    && Inv(n, place, s)
    && Known(n, rel, place, s.reader, s.writer, s.readerSend, s.writerSend, s.trace, h)
    && AllProper(n, rel, s.trace, h.handled) && AllAnswered(n, s.trace, h.handled)
  }

  // ----- Steps -----

  lemma ReaderKeepsKnown(n: nat, rel: FilterRel, place: Place, place': Place, r: Reader, w: Writer,
                         sendQ: seq<PacketPtr>, recvQ: seq<PacketPtr>, t: Trace, h: History, input: HostInput)
    requires ReaderEnabled(r, recvQ) && Position(n, place, r, w, sendQ, recvQ, t)
    requires Known(n, rel, place, r, w, sendQ, recvQ, t, h)
    requires var x := ReaderNext(r, sendQ, recvQ, |t.requests|, input);
             Position(n, place', x.reader, w, x.sendQ, x.recvQ, AfterReader(t, x.effect))
    ensures var x := ReaderNext(r, sendQ, recvQ, |t.requests|, input);
            Known(n, rel, place', x.reader, w, x.sendQ, x.recvQ, AfterReader(t, x.effect), h)
  {
    hide OutTrail, OutDone, BackDone, Finished;
  }

  lemma ReaderKeepsProper(n: nat, rel: FilterRel, place: Place, r: Reader, w: Writer,
                          sendQ: seq<PacketPtr>, recvQ: seq<PacketPtr>, t: Trace, h: History, input: HostInput)
    requires ReaderEnabled(r, recvQ) && Position(n, place, r, w, sendQ, recvQ, t)
    requires Known(n, rel, place, r, w, sendQ, recvQ, t, h)
    requires AllProper(n, rel, t, h.handled) && AllAnswered(n, t, h.handled)
    ensures var t' := AfterReader(t, ReaderNext(r, sendQ, recvQ, |t.requests|, input).effect);
            AllProper(n, rel, t', h.handled) && AllAnswered(n, t', h.handled)
  {
    hide Proper, BackDone, InHand;
  }

  /** Steps that take a packet from the request queue, or put one into the reply queue. */
  lemma QueueKeepsKnown(n: nat, rel: FilterRel, place: Place, place': Place, r: Reader, w: Writer,
                         recvQ: seq<PacketPtr>, sendQ: seq<PacketPtr>, t: Trace, h: History, input: WriterInput)
    requires w.pc != FilterOut && w.pc != AskDevice && w.pc != FilterIn
    requires WriterEnabled(n, w, recvQ, input) && Position(n, place, r, w, recvQ, sendQ, t)
    requires Known(n, rel, place, r, w, recvQ, sendQ, t, h)
    requires var x := WriterNext(n, w, recvQ, sendQ, input);
             Position(n, place', r, x.writer, x.recvQ, x.sendQ, AfterWriter(t, x.effect))
    ensures var x := WriterNext(n, w, recvQ, sendQ, input);
            Known(n, rel, place', r, x.writer, x.recvQ, x.sendQ, AfterWriter(t, x.effect),
                  Recorded(n, h, w, input, x.writer))
  {
    hide OutTrail, OutDone, BackDone;
    if w.pc == RequestTaken && !w.stop && w.p.Some? {
      FreshStarts(n, rel, t, w.p);
    }
  }

  lemma FreshStarts(n: nat, rel: FilterRel, t: Trace, p: PacketPtr)
    requires Fresh(p, t)
    ensures OutTrail(n, rel, |t.requests| - 1, Last(t.requests), [p.value])
  {}

  lemma OutFilterKeepsKnown(n: nat, rel: FilterRel, place: Place, place': Place, r: Reader, w: Writer,
                         recvQ: seq<PacketPtr>, sendQ: seq<PacketPtr>, t: Trace, h: History, input: WriterInput)
    requires n <= MAX_FILTERS
    requires w.pc == FilterOut && place == AtWriter
    requires WriterEnabled(n, w, recvQ, input) && Position(n, place, r, w, recvQ, sendQ, t)
    requires Known(n, rel, place, r, w, recvQ, sendQ, t, h)
    requires var x := WriterNext(n, w, recvQ, sendQ, input);
             Position(n, place', r, x.writer, x.recvQ, x.sendQ, AfterWriter(t, x.effect))
    requires input.Filtered? && w.j < n && w.p.value.filterOut ==> rel(w.j, false, w.p.value, input.packet)
    ensures var x := WriterNext(n, w, recvQ, sendQ, input);
            Known(n, rel, place', r, x.writer, x.recvQ, x.sendQ, AfterWriter(t, x.effect),
                  Recorded(n, h, w, input, x.writer))
  {
    hide HoldsAt, Vacant;
    assert OnItsWay(n, rel, w, t, h);
  }

  lemma AskingKeepsKnown(n: nat, rel: FilterRel, place: Place, place': Place, r: Reader, w: Writer,
                         recvQ: seq<PacketPtr>, sendQ: seq<PacketPtr>, t: Trace, h: History, input: WriterInput)
    requires w.pc == AskDevice && place == AtWriter
    requires WriterEnabled(n, w, recvQ, input) && Position(n, place, r, w, recvQ, sendQ, t)
    requires Known(n, rel, place, r, w, recvQ, sendQ, t, h)
    requires var x := WriterNext(n, w, recvQ, sendQ, input);
             Position(n, place', r, x.writer, x.recvQ, x.sendQ, AfterWriter(t, x.effect))
    ensures var x := WriterNext(n, w, recvQ, sendQ, input);
            Known(n, rel, place', r, x.writer, x.recvQ, x.sendQ, AfterWriter(t, x.effect),
                  Recorded(n, h, w, input, x.writer))
  {
    hide HoldsAt, Vacant, OutTrail;
  }

  lemma BackFilterKeepsKnown(n: nat, rel: FilterRel, place: Place, place': Place, r: Reader, w: Writer,
                         recvQ: seq<PacketPtr>, sendQ: seq<PacketPtr>, t: Trace, h: History, input: WriterInput)
    requires n <= MAX_FILTERS
    requires w.pc == FilterIn && place == AtWriter
    requires WriterEnabled(n, w, recvQ, input) && Position(n, place, r, w, recvQ, sendQ, t)
    requires Known(n, rel, place, r, w, recvQ, sendQ, t, h)
    requires var x := WriterNext(n, w, recvQ, sendQ, input);
             Position(n, place', r, x.writer, x.recvQ, x.sendQ, AfterWriter(t, x.effect))
    ensures var x := WriterNext(n, w, recvQ, sendQ, input);
            Known(n, rel, place', r, x.writer, x.recvQ, x.sendQ, AfterWriter(t, x.effect),
                  Recorded(n, h, w, input, x.writer))
  {
    hide HoldsAt, Vacant, OutTrail;
  }

  lemma OtherStepsKeepProper(n: nat, rel: FilterRel, place: Place, r: Reader, w: Writer, recvQ: seq<PacketPtr>,
                          sendQ: seq<PacketPtr>, t: Trace, h: History, input: WriterInput)
    requires w.pc != AskDevice && w.pc != FilterIn
    requires WriterEnabled(n, w, recvQ, input) && Position(n, place, r, w, recvQ, sendQ, t)
    requires Known(n, rel, place, r, w, recvQ, sendQ, t, h)
    requires AllProper(n, rel, t, h.handled) && AllAnswered(n, t, h.handled)
    ensures var x := WriterNext(n, w, recvQ, sendQ, input);
            var t', h' := AfterWriter(t, x.effect), Recorded(n, h, w, input, x.writer);
            AllProper(n, rel, t', h'.handled) && AllAnswered(n, t', h'.handled)
  {
    hide Proper, BackDone, Position, Known;
  }

  /** The device's answer, put into the packet that was sent. */
  lemma AnswerIsPut(n: nat, w: Writer, recvQ: seq<PacketPtr>, sendQ: seq<PacketPtr>, input: WriterInput)
    requires w.pc == AskDevice && WriterEnabled(n, w, recvQ, input)
    ensures var x := WriterNext(n, w, recvQ, sendQ, input);
            x.writer.p.Some? && x.writer.pc == FilterIn && x.effect.Called?
            && x.effect.call.request == Request(w.p.value.ctrl, w.p.value.data)
            && AnswerTo(w.p.value, x.effect.call.reply, x.writer.p.value)
  {}

  lemma AskingKeepsProper(n: nat, rel: FilterRel, place: Place, r: Reader, w: Writer, recvQ: seq<PacketPtr>,
                          sendQ: seq<PacketPtr>, t: Trace, h: History, input: WriterInput)
    requires w.pc == AskDevice && place == AtWriter
    requires WriterEnabled(n, w, recvQ, input) && Position(n, place, r, w, recvQ, sendQ, t)
    requires Known(n, rel, place, r, w, recvQ, sendQ, t, h)
    requires AllProper(n, rel, t, h.handled) && AllAnswered(n, t, h.handled)
    ensures var x := WriterNext(n, w, recvQ, sendQ, input);
            var t', h' := AfterWriter(t, x.effect), Recorded(n, h, w, input, x.writer);
            AllProper(n, rel, t', h'.handled) && AllAnswered(n, t', h'.handled)
  {
    hide OutTrail, OutDone, AnswerTo, BackDone;
    AnswerIsPut(n, w, recvQ, sendQ, input);
    hide WriterNext;
    var x := WriterNext(n, w, recvQ, sendQ, input);
    assert OnItsWay(n, rel, w, t, h) && OutDone(n, h.current);
    NewHandling(n, rel, t, h, x.effect.call, x.effect.config, x.writer.p.value);
  }

  lemma NewHandling(n: nat, rel: FilterRel, t: Trace, h: History, c: Call, config: Option<byte>, p: SetupPacket)
    requires AllProper(n, rel, t, h.handled) && AllAnswered(n, t, h.handled)
    requires |t.calls| == |t.requests| - 1 && OutDone(n, h.current)
    requires OutTrail(n, rel, |t.requests| - 1, Last(t.requests), h.current)
    requires c.request == Request(Last(h.current).ctrl, Last(h.current).data) && AnswerTo(Last(h.current), c.reply, p)
    ensures var t', hs := AfterWriter(t, Called(c, config)), h.handled + [Handling(h.current, [p])];
            AllProper(n, rel, t', hs) && AllAnswered(n, t', hs)
  {
    hide AnswerTo;
    var hs := h.handled + [Handling(h.current, [p])];
    assert Proper(n, rel, |t.requests| - 1, Last(t.requests), c, Last(hs));
  }

  lemma BackFilterKeepsProper(n: nat, rel: FilterRel, place: Place, r: Reader, w: Writer, recvQ: seq<PacketPtr>,
                          sendQ: seq<PacketPtr>, t: Trace, h: History, input: WriterInput)
    requires n <= MAX_FILTERS
    requires w.pc == FilterIn && place == AtWriter
    requires WriterEnabled(n, w, recvQ, input) && Position(n, place, r, w, recvQ, sendQ, t)
    requires Known(n, rel, place, r, w, recvQ, sendQ, t, h)
    requires input.Filtered? && w.j < n && w.p.value.filterIn ==> rel(w.j, true, w.p.value, input.packet)
    requires AllProper(n, rel, t, h.handled) && AllAnswered(n, t, h.handled)
    ensures var x := WriterNext(n, w, recvQ, sendQ, input);
            var t', h' := AfterWriter(t, x.effect), Recorded(n, h, w, input, x.writer);
            AllProper(n, rel, t', h'.handled) && AllAnswered(n, t', h'.handled)
  {
    hide OutTrail, OutDone, AnswerTo, BackDone, Proper;
    if w.j < n && w.p.value.filterIn {
      LongerHandling(n, rel, t, h, w, input.packet);
    }
  }

  lemma LongerHandling(n: nat, rel: FilterRel, t: Trace, h: History, w: Writer, p: SetupPacket)
    requires n <= MAX_FILTERS
    requires AllProper(n, rel, t, h.handled) && AllAnswered(n, t, h.handled)
    requires |t.answers| < |h.handled| && OnItsWayBack(w, Last(h.handled))
    requires w.j < n && w.p.value.filterIn && rel(w.j, true, w.p.value, p)
    ensures AllProper(n, rel, t, Extended(h.handled, p)) && AllAnswered(n, t, Extended(h.handled, p))
  {
    hide OutTrail, OutDone, AnswerTo, BackDone;
    var k := |h.handled| - 1;
    assert Proper(n, rel, k, t.requests[k], t.calls[k], Last(h.handled));
    assert Proper(n, rel, k, t.requests[k], t.calls[k], Last(Extended(h.handled, p)));
  }

  // ----- Runs -----

  lemma StepKeepsFilterInv(n: nat, rel: FilterRel, place: Place, s: State, h: History, e: Event) returns (place': Place)
    requires n <= MAX_FILTERS
    requires FilterInv(n, rel, place, s, h) && Enabled(n, s, e) && Obeys(n, rel, s, e)
    ensures FilterInv(n, rel, place', Apply(n, s, e), Track(n, h, s, e))
  {
    hide ReaderNext, WriterNext, Position, Known, AllProper, AllAnswered, Recorded;
    place' := StepKeepsInv(n, place, s, e);
    match e
    case ReaderStep(input) =>
      ReaderKeepsKnown(n, rel, place, place', s.reader, s.writer, s.readerSend, s.writerSend, s.trace, h, input);
      ReaderKeepsProper(n, rel, place, s.reader, s.writer, s.readerSend, s.writerSend, s.trace, h, input);
    case WriterStep(input) =>
      WriterKeepsAll(n, rel, place, place', s.reader, s.writer, s.readerSend, s.writerSend, s.trace, h, input);
    case _ =>
      place' := place;
      StopKeepsInv(n, place, s, e);
      StopKeepsKnown(n, rel, place, s, h, e);
  }

  lemma StopKeepsKnown(n: nat, rel: FilterRel, place: Place, s: State, h: History, e: Event)
    requires e.StopReader? || e.StopWriter?
    requires FilterInv(n, rel, place, s, h) && Enabled(n, s, e)
    ensures var s' := Apply(n, s, e);
            Known(n, rel, place, s'.reader, s'.writer, s'.readerSend, s'.writerSend, s'.trace, h) && s'.trace == s.trace
  {
    hide ReaderNext, WriterNext, AllProper, AllAnswered, OutTrail, OutDone, BackDone, Position, Inv;
  }

  lemma WriterKeepsAll(n: nat, rel: FilterRel, place: Place, place': Place, r: Reader, w: Writer, recvQ: seq<PacketPtr>,
                       sendQ: seq<PacketPtr>, t: Trace, h: History, input: WriterInput)
    requires n <= MAX_FILTERS
    requires WriterEnabled(n, w, recvQ, input) && Position(n, place, r, w, recvQ, sendQ, t)
    requires Known(n, rel, place, r, w, recvQ, sendQ, t, h)
    requires w.pc == FilterOut && input.Filtered? && w.j < n && w.p.value.filterOut ==>
              rel(w.j, false, w.p.value, input.packet)
    requires w.pc == FilterIn && input.Filtered? && w.j < n && w.p.value.filterIn ==>
              rel(w.j, true, w.p.value, input.packet)
    requires AllProper(n, rel, t, h.handled) && AllAnswered(n, t, h.handled)
    requires var x := WriterNext(n, w, recvQ, sendQ, input);
             Position(n, place', r, x.writer, x.recvQ, x.sendQ, AfterWriter(t, x.effect))
    ensures var x := WriterNext(n, w, recvQ, sendQ, input);
            var t', h' := AfterWriter(t, x.effect), Recorded(n, h, w, input, x.writer);
            && Known(n, rel, place', r, x.writer, x.recvQ, x.sendQ, t', h')
            && AllProper(n, rel, t', h'.handled) && AllAnswered(n, t', h'.handled)
  {
    hide WriterNext, Known, AllProper, AllAnswered, Recorded;
    if w.pc == FilterOut || w.pc == AskDevice || w.pc == FilterIn {
      HoldsWhileHandling(n, place, r, w, recvQ, sendQ, t);
    }
    hide Position;
    if w.pc == FilterOut {
      OutFilterKeepsKnown(n, rel, place, place', r, w, recvQ, sendQ, t, h, input);
      OtherStepsKeepProper(n, rel, place, r, w, recvQ, sendQ, t, h, input);
    } else if w.pc == AskDevice {
      AskingKeepsKnown(n, rel, place, place', r, w, recvQ, sendQ, t, h, input);
      AskingKeepsProper(n, rel, place, r, w, recvQ, sendQ, t, h, input);
    } else if w.pc == FilterIn {
      BackFilterKeepsKnown(n, rel, place, place', r, w, recvQ, sendQ, t, h, input);
      BackFilterKeepsProper(n, rel, place, r, w, recvQ, sendQ, t, h, input);
    } else {
      QueueKeepsKnown(n, rel, place, place', r, w, recvQ, sendQ, t, h, input);
      OtherStepsKeepProper(n, rel, place, r, w, recvQ, sendQ, t, h, input);
    }
  }

  lemma HoldsWhileHandling(n: nat, place: Place, r: Reader, w: Writer, recvQ: seq<PacketPtr>, sendQ: seq<PacketPtr>,
                           t: Trace)
    requires Position(n, place, r, w, recvQ, sendQ, t)
    requires w.pc == FilterOut || w.pc == AskDevice || w.pc == FilterIn
    ensures place == AtWriter
  {}

  lemma {:induction false} RunKeepsFilterInv(n: nat, rel: FilterRel, place: Place, s: State, h: History, es: seq<Event>)
    requires n <= MAX_FILTERS
    requires FilterInv(n, rel, place, s, h) && Possible(n, s, es) && AllObey(n, rel, s, es)
    ensures var s', hs := Run(n, s, es), Recording(n, h, s, es).handled;
            AllProper(n, rel, s'.trace, hs) && AllAnswered(n, s'.trace, hs)
    decreases |es|
  {
    hide Inv, Known, AllProper, AllAnswered, Recorded, Apply;
    if es != [] {
      var place' := StepKeepsFilterInv(n, rel, place, s, h, es[0]);
      RunKeepsFilterInv(n, rel, place', Apply(n, s, es[0]), Track(n, h, s, es[0]), es[1..]);
    }
  }

  /**
   With any filters, in every interleaving: the k-th call of the device carries the k-th request of the
   host after filters 0, 1, ... (all of them, or up to the one that cleared `filterOut`), in that order
   and none twice; and the k-th answer is the device's reply to that call after the filters it still has
   to pass. A request to the device is filtered on its way back only by the filters that come after the
   one where it stopped on its way out; after a full way out there are none.
   */
  lemma FiltersInOrder(n: nat, rel: FilterRel, s: State, es: seq<Event>)
    requires n <= MAX_FILTERS
    requires Init(s) && Possible(n, s, es) && AllObey(n, rel, s, es)
    ensures var t, hs := Run(n, s, es).trace, Recording(n, History([], []), s, es).handled;
            && |t.requests| - 1 <= |t.answers| <= |t.calls| == |hs| <= |t.requests|
            && (forall k :: 0 <= k < |hs| ==> Proper(n, rel, k, t.requests[k], t.calls[k], hs[k]))
            && (forall k :: 0 <= k < |t.answers| ==>
                  BackDone(n, hs[k]) && t.answers[k].call == CallFor(Last(hs[k].back)))
  {
    hide Proper, BackDone, Apply;
    InitInv(n, s);
    OneRequestAtATime(n, s, es);
    RunKeepsFilterInv(n, rel, Nowhere, s, History([], []), es);
  }

  /**
   The exact condition for a finished reply to have passed a filter on its way back: one is left for it
   and the packet still has `filterIn` set.
   */
  lemma FilteredOnTheWayBack(n: nat, rel: FilterRel, k: nat, request: Request, call: Call, h: Handling)
    requires Proper(n, rel, k, request, call, h) && BackDone(n, h)
    ensures |h.back| > 1 <==> Start(h) < n && h.back[0].filterIn
  {}

  /**
   For a request to the device: its reply passes a filter if and only if the way out was cut short by a
   filter that cleared `filterOut`, and no filter cleared `filterIn` there.
   */
  lemma NoFilterOnTheWayBack(n: nat, rel: FilterRel, k: nat, request: Request, call: Call, h: Handling)
    requires Proper(n, rel, k, request, call, h) && BackDone(n, h) && !Last(h.out).ctrl.DeviceToHost()
    ensures |h.back| > 1 <==> |h.out| <= n && Last(h.out).filterIn
    ensures |h.out| <= n ==> !Last(h.out).filterOut
  {}

  /** What the only filter, which changes nothing, sees of the first request. */
  function AroundTheDevice(r: Request): seq<Event> {
    var answer := Replied(DeviceReply(0, []), seq(r.ctrl.wLength, _ => 0));
    [WriterStep(Filtered(NewPacket(0, r))), WriterStep(Idle), WriterStep(answer), WriterStep(Idle), WriterStep(Idle)]
  }

  /** A run with a filter in which a request to the device is answered, and the reply passes no filter. */
  lemma AReplyPassesNoFilter(r: Request)
    requires !r.ctrl.DeviceToHost()
    ensures var es, p := ToTheFilter(r) + AroundTheDevice(r), NewPacket(0, r);
            && Init(Opening()) && Possible(1, Opening(), es)
            && |Run(1, Opening(), es).trace.calls| == 1
            && Run(1, Opening(), es).writerSend == [Some(p.(transmitIn := true, ctrl := p.ctrl.(wLength := 0)))]
            && Recording(1, History([], []), Opening(), es).handled
               == [Handling([p, p], [p.(transmitIn := true, ctrl := p.ctrl.(wLength := 0))])]
  {
    var es, p := AroundTheDevice(r), NewPacket(0, r);
    var before := History([], []);
    HistoryAtTheFilter(r);
    ReachesTheFilter(1, r);
    HistoryAroundTheDevice(r);
    RunAppend(1, Opening(), ToTheFilter(r), es);
    RecordingAppend(1, before, Opening(), ToTheFilter(r), es);
  }

  lemma {:induction false} RecordingAppend(n: nat, h: History, s: State, a: seq<Event>, b: seq<Event>)
    requires Possible(n, s, a) && Possible(n, Run(n, s, a), b) && Possible(n, s, a + b)
    ensures Recording(n, h, s, a + b) == Recording(n, Recording(n, h, s, a), Run(n, s, a), b)
    decreases |a|
  {
    hide Apply, Enabled, Track;
    if a == [] {
      assert a + b == b;
    } else {
      assert (a + b)[0] == a[0] && (a + b)[1..] == a[1..] + b;
      RecordingAppend(n, Track(n, h, s, a[0]), Apply(n, s, a[0]), a[1..], b);
    }
  }

  /** One event, and the rest of a run that ends in `end` with the history `last`. */
  lemma RecordOf(n: nat, h: History, s: State, es: seq<Event>, s': State, h': History, end: State, last: History)
    requires es != [] && Enabled(n, s, es[0]) && Apply(n, s, es[0]) == s' && Track(n, h, s, es[0]) == h'
    requires Possible(n, s', es[1..]) && Run(n, s', es[1..]) == end && Recording(n, h', s', es[1..]) == last
    ensures Possible(n, s, es) && Run(n, s, es) == end && Recording(n, h, s, es) == last
  {}

  lemma HistoryAtTheFilter(r: Request)
    ensures Possible(1, Opening(), ToTheFilter(r))
    ensures Recording(1, History([], []), Opening(), ToTheFilter(r)) == History([NewPacket(0, r)], [])
  {
    var es := ToTheFilter(r);
    var h0, h1 := History([], []), History([NewPacket(0, r)], []);
    var s1 := Apply(1, Opening(), es[0]);
    var s2 := Apply(1, s1, es[1]);
    var s3 := Apply(1, s2, es[2]);
    assert s3.readerSend == [Some(NewPacket(0, r))];
    var s4 := Apply(1, s3, es[3]);
    var s5 := Apply(1, s4, es[4]);
    var s6 := Apply(1, s5, es[5]);
    assert es[1..][1..][1..][1..][1..][1..] == [];
    hide Apply, Track;
    RecordOf(1, h0, s5, es[5..], s6, h1, s6, h1);
    RecordOf(1, h0, s4, es[4..], s5, h0, s6, h1);
    RecordOf(1, h0, s3, es[3..], s4, h0, s6, h1);
    RecordOf(1, h0, s2, es[2..], s3, h0, s6, h1);
    RecordOf(1, h0, s1, es[1..], s2, h0, s6, h1);
    RecordOf(1, h0, Opening(), es, s1, h0, s6, h1);
  }

  lemma HistoryAroundTheDevice(r: Request)
    requires !r.ctrl.DeviceToHost()
    ensures var es, p := AroundTheDevice(r), NewPacket(0, r);
            var back := p.(transmitIn := true, ctrl := p.ctrl.(wLength := 0));
            && Possible(1, AtTheFilter(r), es)
            && |Run(1, AtTheFilter(r), es).trace.calls| == 1
            && Run(1, AtTheFilter(r), es).writerSend == [Some(back)]
            && Recording(1, History([p], []), AtTheFilter(r), es).handled == [Handling([p, p], [back])]
  {
    var es, p := AroundTheDevice(r), NewPacket(0, r);
    var back := p.(transmitIn := true, ctrl := p.ctrl.(wLength := 0));
    var h0, h1, h2 := History([p], []), History([p, p], []), History([], [Handling([p, p], [back])]);
    var s0 := AtTheFilter(r);
    var s1 := Apply(1, s0, es[0]);
    var s2 := Apply(1, s1, es[1]);
    var s3, s4, s5 := AfterTheFilter(r, s2);
    assert es[1..][1..][1..][1..][1..] == [];
    hide Apply, Track;
    RecordOf(1, h2, s4, es[4..], s5, h2, s5, h2);
    RecordOf(1, h2, s3, es[3..], s4, h2, s5, h2);
    RecordOf(1, h1, s2, es[2..], s3, h2, s5, h2);
    RecordOf(1, h1, s1, es[1..], s2, h1, s5, h2);
    RecordOf(1, h0, s0, es, s1, h1, s5, h2);
  }

  /** The device call, the filters there are left (none) and the reply. */
  lemma AfterTheFilter(r: Request, s2: State) returns (s3: State, s4: State, s5: State)
    requires !r.ctrl.DeviceToHost()
    requires var p := NewPacket(0, r);
             s2 == AtTheFilter(r).(writer := Writer(AskDevice, Some(p), 1, 0, false))
    ensures var es, p := AroundTheDevice(r), NewPacket(0, r);
            var back := p.(transmitIn := true, ctrl := p.ctrl.(wLength := 0));
            var h1, h2 := History([p, p], []), History([], [Handling([p, p], [back])]);
            && Enabled(1, s2, es[2]) && Apply(1, s2, es[2]) == s3 && Track(1, h1, s2, es[2]) == h2
            && Enabled(1, s3, es[3]) && Apply(1, s3, es[3]) == s4 && Track(1, h2, s3, es[3]) == h2
            && Enabled(1, s4, es[4]) && Apply(1, s4, es[4]) == s5 && Track(1, h2, s4, es[4]) == h2
            && |s5.trace.calls| == 1 && s5.writerSend == [Some(back)]
  {
    var es := AroundTheDevice(r);
    s3 := Apply(1, s2, es[2]);
    s4 := Apply(1, s3, es[3]);
    s5 := Apply(1, s4, es[4]);
  }
}
