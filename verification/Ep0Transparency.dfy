/** Without filters, the relay is indistinguishable from calling the device directly. */
module Ep0Transparency {
  import opened Common
  import opened Ep0Machine
  import opened Ep0Flow
  import opened Ep0Record

  /** The current request's packet, wherever it is. */
  function PacketAt(place: Place, r: Reader, w: Writer, requestQ: seq<PacketPtr>, replyQ: seq<PacketPtr>): PacketPtr {
    match place
    case Nowhere => None
    case AtReader => r.p
    case InRequestQueue(i) => if i < |requestQ| then requestQ[i] else None
    case AtWriter => w.p
    case InReplyQueue(i) => if i < |replyQ| then replyQ[i] else None
    case BackAtReader => r.p
    case Lost => None
  }

  /** Before the device call the packet is the host's request; afterwards it carries the device's answer. */
  predicate Carries(p: SetupPacket, asked: bool, t: Trace) {
    && t.requests != []
    && var request := t.requests[|t.requests| - 1];
    && if asked then t.calls != [] && Delivers(CallFor(p), DirectReply(request, t.calls[|t.calls| - 1].reply))
       else p.ctrl == request.ctrl && p.data == request.data && p.transmitOut
  }

  predicate Faithful(place: Place, r: Reader, w: Writer, requestQ: seq<PacketPtr>, replyQ: seq<PacketPtr>, t: Trace) {
    var p := PacketAt(place, r, w, requestQ, replyQ);
    p.Some? ==> Carries(p.value, !Unasked(place, w, t), t)
  }

  /** The device saw the host's requests and the host got the device's answers. */
  ghost predicate Clear(t: Trace) {
    && |t.answers| <= |t.calls| <= |t.requests|
    && (forall k :: 0 <= k < |t.calls| ==> t.calls[k].request == t.requests[k])
    && (forall k :: 0 <= k < |t.answers| ==>
          Delivers(t.answers[k].call, DirectReply(t.requests[k], t.calls[k].reply)))
  }

  ghost predicate ClearInv(place: Place, s: State) {
    && Inv(0, place, s)
    && Faithful(place, s.reader, s.writer, s.readerSend, s.writerSend, s.trace)
    && Clear(s.trace)
  }

  lemma ReaderKeepsFaithful(place: Place, place': Place, r: Reader, w: Writer, sendQ: seq<PacketPtr>,
                            recvQ: seq<PacketPtr>, t: Trace, input: HostInput)
    requires ReaderEnabled(r, recvQ) && Position(0, place, r, w, sendQ, recvQ, t)
    requires Faithful(place, r, w, sendQ, recvQ, t)
    requires var x := ReaderNext(r, sendQ, recvQ, |t.requests|, input);
             Position(0, place', x.reader, w, x.sendQ, x.recvQ, AfterReader(t, x.effect))
    ensures var x := ReaderNext(r, sendQ, recvQ, |t.requests|, input);
            Faithful(place', x.reader, w, x.sendQ, x.recvQ, AfterReader(t, x.effect))
  {
    hide ReaderNext, Position, Faithful;
    if r.pc == AwaitReply || r.pc == SendRequest {
      ReaderQueueKeepsFaithful(place, place', r, w, sendQ, recvQ, t, input);
    } else if r.pc == Fetch {
      FetchKeepsFaithful(place, place', r, w, sendQ, recvQ, t, input);
    } else {
      ReaderTurnKeepsFaithful(place, place', r, w, sendQ, recvQ, t, input);
    }
  }

  lemma ReaderQueueKeepsFaithful(place: Place, place': Place, r: Reader, w: Writer, sendQ: seq<PacketPtr>,
                            recvQ: seq<PacketPtr>, t: Trace, input: HostInput)
    requires r.pc == AwaitReply || r.pc == SendRequest
    requires ReaderEnabled(r, recvQ) && Position(0, place, r, w, sendQ, recvQ, t)
    requires Faithful(place, r, w, sendQ, recvQ, t)
    requires var x := ReaderNext(r, sendQ, recvQ, |t.requests|, input);
             Position(0, place', x.reader, w, x.sendQ, x.recvQ, AfterReader(t, x.effect))
    ensures var x := ReaderNext(r, sendQ, recvQ, |t.requests|, input);
            Faithful(place', x.reader, w, x.sendQ, x.recvQ, AfterReader(t, x.effect))
  {
    hide Carries;
  }

  lemma FetchKeepsFaithful(place: Place, place': Place, r: Reader, w: Writer, sendQ: seq<PacketPtr>,
                            recvQ: seq<PacketPtr>, t: Trace, input: HostInput)
    requires r.pc == Fetch
    requires ReaderEnabled(r, recvQ) && Position(0, place, r, w, sendQ, recvQ, t)
    requires Faithful(place, r, w, sendQ, recvQ, t)
    requires var x := ReaderNext(r, sendQ, recvQ, |t.requests|, input);
             Position(0, place', x.reader, w, x.sendQ, x.recvQ, AfterReader(t, x.effect))
    ensures var x := ReaderNext(r, sendQ, recvQ, |t.requests|, input);
            Faithful(place', x.reader, w, x.sendQ, x.recvQ, AfterReader(t, x.effect))
  {
    hide HoldsAt, Vacant;
  }

  lemma ReaderTurnKeepsFaithful(place: Place, place': Place, r: Reader, w: Writer, sendQ: seq<PacketPtr>,
                            recvQ: seq<PacketPtr>, t: Trace, input: HostInput)
    requires r.pc != AwaitReply && r.pc != SendRequest && r.pc != Fetch
    requires ReaderEnabled(r, recvQ) && Position(0, place, r, w, sendQ, recvQ, t)
    requires Faithful(place, r, w, sendQ, recvQ, t)
    requires var x := ReaderNext(r, sendQ, recvQ, |t.requests|, input);
             Position(0, place', x.reader, w, x.sendQ, x.recvQ, AfterReader(t, x.effect))
    ensures var x := ReaderNext(r, sendQ, recvQ, |t.requests|, input);
            Faithful(place', x.reader, w, x.sendQ, x.recvQ, AfterReader(t, x.effect))
  {
    hide Carries;
    var t' := AfterReader(t, ReaderNext(r, sendQ, recvQ, |t.requests|, input).effect);
    var p := PacketAt(place, r, w, sendQ, recvQ);
    if p.Some? {
      CarriesStill(p.value, !Unasked(place, w, t), t, t');
    }
  }

  lemma CarriesStill(p: SetupPacket, asked: bool, t: Trace, t': Trace)
    requires t'.requests == t.requests && t'.calls == t.calls
    ensures Carries(p, asked, t') == Carries(p, asked, t)
  {}

  lemma ReaderKeepsClear(place: Place, r: Reader, w: Writer, sendQ: seq<PacketPtr>,
                         recvQ: seq<PacketPtr>, t: Trace, input: HostInput)
    requires ReaderEnabled(r, recvQ) && Position(0, place, r, w, sendQ, recvQ, t)
    requires Faithful(place, r, w, sendQ, recvQ, t) && Clear(t)
    ensures var t' := AfterReader(t, ReaderNext(r, sendQ, recvQ, |t.requests|, input).effect);
            Clear(t') && t'.calls == t.calls
  {}

  lemma DeviceAnswerCarried(place: Place, r: Reader, w: Writer, recvQ: seq<PacketPtr>,
                            sendQ: seq<PacketPtr>, t: Trace, input: WriterInput)
    requires w.pc == AskDevice
    requires WriterEnabled(0, w, recvQ, input) && Position(0, place, r, w, recvQ, sendQ, t)
    requires Faithful(place, r, w, recvQ, sendQ, t)
    ensures var x := WriterNext(0, w, recvQ, sendQ, input);
            Carries(x.writer.p.value, true, AfterWriter(t, x.effect))
  {}

  lemma WriterKeepsFaithful(place: Place, place': Place, r: Reader, w: Writer, recvQ: seq<PacketPtr>,
                            sendQ: seq<PacketPtr>, t: Trace, input: WriterInput)
    requires WriterEnabled(0, w, recvQ, input) && Position(0, place, r, w, recvQ, sendQ, t)
    requires Faithful(place, r, w, recvQ, sendQ, t)
    requires var x := WriterNext(0, w, recvQ, sendQ, input);
             Position(0, place', r, x.writer, x.recvQ, x.sendQ, AfterWriter(t, x.effect))
    ensures var x := WriterNext(0, w, recvQ, sendQ, input);
            Faithful(place', r, x.writer, x.recvQ, x.sendQ, AfterWriter(t, x.effect))
  {
    hide WriterNext, Position, Faithful;
    if w.pc == AskDevice {
      AskingKeepsFaithful(place, place', r, w, recvQ, sendQ, t, input);
    } else if w.pc == AwaitRequest || w.pc == SendReply {
      QueueKeepsFaithful(place, place', r, w, recvQ, sendQ, t, input);
    } else {
      TurnKeepsFaithful(place, place', r, w, recvQ, sendQ, t, input);
    }
  }

  lemma AskingKeepsFaithful(place: Place, place': Place, r: Reader, w: Writer, recvQ: seq<PacketPtr>,
                            sendQ: seq<PacketPtr>, t: Trace, input: WriterInput)
    requires w.pc == AskDevice
    requires WriterEnabled(0, w, recvQ, input) && Position(0, place, r, w, recvQ, sendQ, t)
    requires Faithful(place, r, w, recvQ, sendQ, t)
    requires var x := WriterNext(0, w, recvQ, sendQ, input);
             Position(0, place', r, x.writer, x.recvQ, x.sendQ, AfterWriter(t, x.effect))
    ensures var x := WriterNext(0, w, recvQ, sendQ, input);
            Faithful(place', r, x.writer, x.recvQ, x.sendQ, AfterWriter(t, x.effect))
  {
    DeviceAnswerCarried(place, r, w, recvQ, sendQ, t, input);
  }

  lemma QueueKeepsFaithful(place: Place, place': Place, r: Reader, w: Writer, recvQ: seq<PacketPtr>,
                            sendQ: seq<PacketPtr>, t: Trace, input: WriterInput)
    requires w.pc == AwaitRequest || w.pc == SendReply
    requires WriterEnabled(0, w, recvQ, input) && Position(0, place, r, w, recvQ, sendQ, t)
    requires Faithful(place, r, w, recvQ, sendQ, t)
    requires var x := WriterNext(0, w, recvQ, sendQ, input);
             Position(0, place', r, x.writer, x.recvQ, x.sendQ, AfterWriter(t, x.effect))
    ensures var x := WriterNext(0, w, recvQ, sendQ, input);
            Faithful(place', r, x.writer, x.recvQ, x.sendQ, AfterWriter(t, x.effect))
  {
    hide Carries;
  }

  lemma TurnKeepsFaithful(place: Place, place': Place, r: Reader, w: Writer, recvQ: seq<PacketPtr>,
                            sendQ: seq<PacketPtr>, t: Trace, input: WriterInput)
    requires w.pc != AskDevice && w.pc != AwaitRequest && w.pc != SendReply
    requires WriterEnabled(0, w, recvQ, input) && Position(0, place, r, w, recvQ, sendQ, t)
    requires Faithful(place, r, w, recvQ, sendQ, t)
    requires var x := WriterNext(0, w, recvQ, sendQ, input);
             Position(0, place', r, x.writer, x.recvQ, x.sendQ, AfterWriter(t, x.effect))
    ensures var x := WriterNext(0, w, recvQ, sendQ, input);
            Faithful(place', r, x.writer, x.recvQ, x.sendQ, AfterWriter(t, x.effect))
  {
    hide Carries;
  }

  lemma WriterKeepsClear(place: Place, r: Reader, w: Writer, recvQ: seq<PacketPtr>,
                         sendQ: seq<PacketPtr>, t: Trace, input: WriterInput)
    requires WriterEnabled(0, w, recvQ, input) && Position(0, place, r, w, recvQ, sendQ, t)
    requires Faithful(place, r, w, recvQ, sendQ, t) && Clear(t)
    ensures var t' := AfterWriter(t, WriterNext(0, w, recvQ, sendQ, input).effect);
            Clear(t')
  {
    if w.pc == AskDevice {
      WriterAsksClear(place, r, w, recvQ, sendQ, t, input);
    } else {
      hide Clear, Faithful, Position;
    }
  }

  lemma WriterAsksClear(place: Place, r: Reader, w: Writer, recvQ: seq<PacketPtr>,
                        sendQ: seq<PacketPtr>, t: Trace, input: WriterInput)
    requires w.pc == AskDevice
    requires WriterEnabled(0, w, recvQ, input) && Position(0, place, r, w, recvQ, sendQ, t)
    requires Faithful(place, r, w, recvQ, sendQ, t) && Clear(t)
    ensures var t' := AfterWriter(t, WriterNext(0, w, recvQ, sendQ, input).effect);
            Clear(t')
  {
    hide Clear;
    AskedForLatest(place, r, w, recvQ, sendQ, t);
    var effect := WriterNext(0, w, recvQ, sendQ, input).effect;
    CallKeepsClear(t, effect.call, effect.config);
  }

  lemma AskedForLatest(place: Place, r: Reader, w: Writer, recvQ: seq<PacketPtr>, sendQ: seq<PacketPtr>, t: Trace)
    requires w.pc == AskDevice && Position(0, place, r, w, recvQ, sendQ, t)
    requires Faithful(place, r, w, recvQ, sendQ, t)
    ensures |t.calls| == |t.requests| - 1 && w.p.Some?
    ensures Request(w.p.value.ctrl, w.p.value.data) == t.requests[|t.calls|]
  {}

  lemma CallKeepsClear(t: Trace, c: Call, config: Option<byte>)
    requires Clear(t) && |t.calls| < |t.requests| && c.request == t.requests[|t.calls|]
    ensures var t' := AfterWriter(t, Called(c, config));
            Clear(t')
  {
    hide DirectReply, Delivers;
  }

  lemma StepKeepsClear(place: Place, s: State, e: Event) returns (place': Place)
    requires ClearInv(place, s) && Enabled(0, s, e)
    ensures ClearInv(place', Apply(0, s, e))
  {
    hide ReaderNext, WriterNext, Position, Clear, Faithful;
    match e
    case ReaderStep(input) =>
      place' := StepKeepsInv(0, place, s, e);
      ReaderKeepsFaithful(place, place', s.reader, s.writer, s.readerSend, s.writerSend, s.trace, input);
      ReaderKeepsClear(place, s.reader, s.writer, s.readerSend, s.writerSend, s.trace, input);
    case WriterStep(input) =>
      place' := StepKeepsInv(0, place, s, e);
      WriterKeepsFaithful(place, place', s.reader, s.writer, s.readerSend, s.writerSend, s.trace, input);
      WriterKeepsClear(place, s.reader, s.writer, s.readerSend, s.writerSend, s.trace, input);
    case _ =>
      place' := place;
      StopKeepsInv(0, place, s, e);
      StopKeepsFaithful(place, s, e);
  }

  lemma StopKeepsFaithful(place: Place, s: State, e: Event)
    requires e.StopReader? || e.StopWriter?
    requires ClearInv(place, s) && Enabled(0, s, e)
    ensures var s' := Apply(0, s, e);
            Faithful(place, s'.reader, s'.writer, s'.readerSend, s'.writerSend, s'.trace) && s'.trace == s.trace
  {
    hide ReaderNext, WriterNext, Clear;
  }

  lemma {:induction false} RunKeepsClear(place: Place, s: State, es: seq<Event>)
    requires ClearInv(place, s) && Possible(0, s, es)
    ensures Clear(Run(0, s, es).trace)
    decreases |es|
  {
    if es != [] {
      var place' := StepKeepsClear(place, s, es[0]);
      RunKeepsClear(place', Apply(0, s, es[0]), es[1..]);
    }
  }

  // ----- Refinement of a direct call -----

  /** The host calling the device itself; the device's answers may depend on everything it saw before. */
  function DirectRun(device: seq<Request> -> DeviceReply, requests: seq<Request>): (replies: seq<HostReply>)
    ensures |replies| == |requests|
  {
    seq(|requests|, k requires 0 <= k < |requests| => DirectReply(requests[k], device(requests[..k + 1])))
  }

  /** The device proxy in this run is `device`: each reply is its answer to what it has seen so far. */
  ghost predicate Follows(calls: seq<Call>, device: seq<Request> -> DeviceReply) {
    forall k :: 0 <= k < |calls| ==>
      calls[k].reply == device(seq(k + 1, i requires 0 <= i <= k => calls[i].request))
  }

  lemma ClearIsDirect(t: Trace, device: seq<Request> -> DeviceReply)
    requires Clear(t) && Follows(t.calls, device)
    ensures forall k :: 0 <= k < |t.answers| ==> Delivers(t.answers[k].call, DirectRun(device, t.requests)[k])
  {
    forall k | 0 <= k < |t.answers|
      ensures t.calls[k].reply == device(t.requests[..k + 1])
    {
      assert seq(k + 1, i requires 0 <= i <= k => t.calls[i].request) == t.requests[..k + 1];
    }
  }

  /**
   EP0 transparency. With no filters, every interleaving (including stops and timeouts) shows the
   device the host's requests, each once and in order, and shows the host the reply trace of
   calling the device directly; at most the latest request is still unanswered, and every
   SET_CONFIGURATION the device saw reached the manager.
   */
  lemma Ep0Transparent(s: State, es: seq<Event>, device: seq<Request> -> DeviceReply)
    requires Init(s) && Possible(0, s, es)
    requires Follows(Run(0, s, es).trace.calls, device)
    ensures var t := Run(0, s, es).trace;
            && |t.requests| - 1 <= |t.answers| <= |t.calls| <= |t.requests|
            && (forall k :: 0 <= k < |t.calls| ==> t.calls[k].request == t.requests[k])
            && (forall k :: 0 <= k < |t.answers| ==>
                  t.answers[k].serial == k && Delivers(t.answers[k].call, DirectRun(device, t.requests)[k]))
            && t.configs == ConfigsOf(t.calls)
  {
    InitInv(0, s);
    RunKeepsClear(Nowhere, s, es);
    OneRequestAtATime(0, s, es);
    RecordIsTrue(0, s, es);
    ClearIsDirect(Run(0, s, es).trace, device);
  }

  /**
   The same in the terms of the bus, for whatever the device replies: the host gets a stall exactly for a negative
   result, the very bytes of the reply if there are any and bit 7 of bmRequestType asks for them, and otherwise an
   acknowledgement.
   */
  lemma AnswersOnTheBus(s: State, es: seq<Event>, k: nat)
    requires Init(s) && Possible(0, s, es) && k < |Run(0, s, es).trace.answers|
    ensures var i := AllSeen(0, Inputs([], [], 0), s, es);
            && k < |i.replies| <= |i.requests|
            && var ctrl, reply, answer := i.requests[k].ctrl, i.replies[k], Run(0, s, es).trace.answers[k].call;
            && (reply.rc < 0 ==> answer == StallEndpoint)
            && (reply.rc >= 0 && ctrl.bRequestType >= 0x80 && reply.data != [] ==>
                  answer.SendData? && answer.length == |reply.data| <= |answer.buffer|
                  && answer.buffer[..answer.length] == reply.data)
            && (reply.rc >= 0 && (ctrl.bRequestType < 0x80 || reply.data == []) ==> answer == ControlAck)
  {
    InitInv(0, s);
    RunKeepsClear(Nowhere, s, es);
    RecordIsTrue(0, s, es);
  }
}
