/** One request at a time: what every interleaving of the EP0 threads keeps, whatever the filters do. */
module Ep0Flow {
  import opened Common
  import opened SafeQueues
  import opened Ep0Machine

  /** The writer keeps a stale reference after `continue`; it holds the packet only here. */
  predicate WriterHolds(w: Writer) {
    (w.pc.RequestTaken? || w.pc.FilterOut? || w.pc.AskDevice? || w.pc.FilterIn? || w.pc.SendReply?) && w.p.Some?
  }

  // ----- Where the current request is -----

  /** `i` is the position in the queue. */
  datatype Place =
    | Nowhere | AtReader | InRequestQueue(i: nat) | AtWriter | InReplyQueue(i: nat) | BackAtReader | Lost

  predicate BeforeDevice(why: Loss) { why.Withheld? || why.RequestDropped? || why.WriterStopped? }

  ghost predicate Vacant(q: seq<PacketPtr>) {
    forall j :: 0 <= j < |q| ==> q[j] == None
  }

  /** The only packet among the null tokens is at position `i` and has number `serial`. */
  ghost predicate HoldsAt(q: seq<PacketPtr>, i: nat, serial: int) {
    && i < |q| && q[i].Some? && q[i].value.serial == serial
    && forall j :: 0 <= j < |q| && j != i ==> q[j] == None
  }

  /** Exactly one packet exists, at `place`, and it belongs to the latest request. */
  ghost predicate At(place: Place, r: Reader, w: Writer, requestQ: seq<PacketPtr>, replyQ: seq<PacketPtr>, t: Trace) {
    var latest := |t.requests| - 1;
    && (r.directionOut <==> place.Nowhere? || place.AtReader?)
    && (if place.AtReader? || place.BackAtReader? then r.p.Some? && r.p.value.serial == latest else r.p == None)
    && (if place.InRequestQueue? then HoldsAt(requestQ, place.i, latest) else Vacant(requestQ))
    && (if place.AtWriter? then WriterHolds(w) && w.p.value.serial == latest else !WriterHolds(w))
    && (if place.InReplyQueue? then HoldsAt(replyQ, place.i, latest) else Vacant(replyQ))
    && (if place.Lost? then |t.gone| == 1 && t.gone[0].serial == latest else t.gone == [])
  }

  /** The device has yet to see the latest request. */
  predicate Unasked(place: Place, w: Writer, t: Trace) {
    || place.AtReader? || place.InRequestQueue?
    || (place.AtWriter? && !w.pc.FilterIn? && !w.pc.SendReply?)
    || (place.Lost? && t.gone != [] && BeforeDevice(t.gone[0].why))
  }

  /** The host has its answer to the latest request. */
  predicate Settled(place: Place, r: Reader) {
    place.Nowhere? || (place.BackAtReader? && !r.pc.ReplyTaken? && !r.pc.AnswerHost?)
  }

  predicate ReaderShape(r: Reader) {
    && (r.pc == Fetch ==> r.directionOut)
    && (r.pc == SendRequest <==> r.directionOut && r.p.Some?)
    && (r.pc == AwaitReply ==> !r.directionOut && r.p == None)
    && (r.pc == ReplyTaken ==> !r.directionOut)
    && (r.pc == AnswerHost || r.pc == WaitComplete ==> !r.directionOut && r.p.Some?)
  }

  predicate WriterShape(n: nat, w: Writer) {
    w.pc == FilterOut || w.pc == AskDevice || w.pc == FilterIn || w.pc == SendReply ==> w.p.Some? && w.j <= n
  }

  /** The device has seen, and the host has been answered, one request after the other. */
  ghost predicate InOrder(t: Trace) {
    && (forall k :: 0 <= k < |t.calls| ==> t.calls[k].serial == k)
    && (forall k :: 0 <= k < |t.answers| ==> t.answers[k].serial == k)
  }

  ghost predicate Position(n: nat, place: Place, r: Reader, w: Writer,
                           requestQ: seq<PacketPtr>, replyQ: seq<PacketPtr>, t: Trace) {
    && ReaderShape(r)
    && WriterShape(n, w)
    && At(place, r, w, requestQ, replyQ, t)
    && |t.calls| == |t.requests| - One(Unasked(place, w, t))
    && |t.answers| == |t.requests| - One(!Settled(place, r))
  }

  ghost predicate Core(n: nat, place: Place, r: Reader, w: Writer,
                       requestQ: seq<PacketPtr>, replyQ: seq<PacketPtr>, t: Trace) {
    Position(n, place, r, w, requestQ, replyQ, t) && InOrder(t)
  }

  ghost predicate Inv(n: nat, place: Place, s: State) {
    Core(n, place, s.reader, s.writer, s.readerSend, s.writerSend, s.trace)
  }

  lemma InitInv(n: nat, s: State)
    requires Init(s)
    ensures Inv(n, Nowhere, s)
  {}

  lemma ReaderSends(n: nat, place: Place, r: Reader, w: Writer, sendQ: seq<PacketPtr>, recvQ: seq<PacketPtr>,
                   t: Trace, input: HostInput) returns (place': Place)
    requires r.pc.Fetch? || r.pc.SendRequest?
    requires ReaderEnabled(r, recvQ) && Core(n, place, r, w, sendQ, recvQ, t)
    ensures var x := ReaderNext(r, sendQ, recvQ, |t.requests|, input);
            Core(n, place', x.reader, w, x.sendQ, x.recvQ, AfterReader(t, x.effect))
  {
    place' := match r.pc
      case Fetch => if input.Arrives? then AtReader else place
      case SendRequest => if |sendQ| >= QUEUE_MAX then Lost else InRequestQueue(|sendQ|);
  }

  lemma ReaderTurns(n: nat, place: Place, r: Reader, w: Writer, sendQ: seq<PacketPtr>, recvQ: seq<PacketPtr>,
                   t: Trace, input: HostInput) returns (place': Place)
    requires r.pc.ReaderTop? || r.pc.ReplyTaken? || r.pc.ReaderExit?
    requires ReaderEnabled(r, recvQ) && Core(n, place, r, w, sendQ, recvQ, t)
    ensures var x := ReaderNext(r, sendQ, recvQ, |t.requests|, input);
            Core(n, place', x.reader, w, x.sendQ, x.recvQ, AfterReader(t, x.effect))
  {
    place' := if r.pc.ReplyTaken? && r.stop && r.p.Some? then Lost else place;
  }

  lemma ReaderTakes(n: nat, place: Place, r: Reader, w: Writer, sendQ: seq<PacketPtr>, recvQ: seq<PacketPtr>,
                   t: Trace, input: HostInput) returns (place': Place)
    requires r.pc.AwaitReply?
    requires ReaderEnabled(r, recvQ) && Core(n, place, r, w, sendQ, recvQ, t)
    ensures var x := ReaderNext(r, sendQ, recvQ, |t.requests|, input);
            Core(n, place', x.reader, w, x.sendQ, x.recvQ, AfterReader(t, x.effect))
  {
    place' := if recvQ[0].Some? then BackAtReader
              else if place.InReplyQueue? then InReplyQueue(place.i - 1)
              else place;
  }

  lemma ReaderAnswers(n: nat, place: Place, r: Reader, w: Writer, sendQ: seq<PacketPtr>, recvQ: seq<PacketPtr>,
                   t: Trace, input: HostInput) returns (place': Place)
    requires r.pc.AnswerHost? || r.pc.WaitComplete?
    requires ReaderEnabled(r, recvQ) && Core(n, place, r, w, sendQ, recvQ, t)
    ensures var x := ReaderNext(r, sendQ, recvQ, |t.requests|, input);
            Core(n, place', x.reader, w, x.sendQ, x.recvQ, AfterReader(t, x.effect))
  {
    place' := if r.pc.WaitComplete? && input.Completed? then Nowhere else place;
  }

  lemma WriterTakes(n: nat, place: Place, r: Reader, w: Writer, recvQ: seq<PacketPtr>, sendQ: seq<PacketPtr>,
                   t: Trace, input: WriterInput) returns (place': Place)
    requires w.pc.AwaitRequest?
    requires WriterEnabled(n, w, recvQ, input) && Core(n, place, r, w, recvQ, sendQ, t)
    ensures var x := WriterNext(n, w, recvQ, sendQ, input);
            Core(n, place', r, x.writer, x.recvQ, x.sendQ, AfterWriter(t, x.effect))
  {
    place' := if recvQ[0].Some? then AtWriter
              else if place.InRequestQueue? then InRequestQueue(place.i - 1)
              else place;
  }

  lemma WriterTurns(n: nat, place: Place, r: Reader, w: Writer, recvQ: seq<PacketPtr>, sendQ: seq<PacketPtr>,
                   t: Trace, input: WriterInput) returns (place': Place)
    requires w.pc.WriterTop? || w.pc.RequestTaken? || w.pc.WriterExit?
    requires WriterEnabled(n, w, recvQ, input) && Core(n, place, r, w, recvQ, sendQ, t)
    ensures var x := WriterNext(n, w, recvQ, sendQ, input);
            Core(n, place', r, x.writer, x.recvQ, x.sendQ, AfterWriter(t, x.effect))
  {
    place' := if w.pc.RequestTaken? && w.stop && w.p.Some? then Lost else place;
  }

  lemma WriterHandles(n: nat, place: Place, r: Reader, w: Writer, recvQ: seq<PacketPtr>, sendQ: seq<PacketPtr>,
                   t: Trace, input: WriterInput) returns (place': Place)
    requires w.pc.AskDevice? || w.pc.SendReply?
    requires WriterEnabled(n, w, recvQ, input) && Core(n, place, r, w, recvQ, sendQ, t)
    ensures var x := WriterNext(n, w, recvQ, sendQ, input);
            Core(n, place', r, x.writer, x.recvQ, x.sendQ, AfterWriter(t, x.effect))
  {
    place' := if w.pc.AskDevice? then place else if |sendQ| >= QUEUE_MAX then Lost else InReplyQueue(|sendQ|);
  }

  lemma WriterFilters(n: nat, place: Place, r: Reader, w: Writer, recvQ: seq<PacketPtr>, sendQ: seq<PacketPtr>,
                   t: Trace, input: WriterInput) returns (place': Place)
    requires w.pc.FilterOut? || w.pc.FilterIn?
    requires WriterEnabled(n, w, recvQ, input) && Core(n, place, r, w, recvQ, sendQ, t)
    ensures var x := WriterNext(n, w, recvQ, sendQ, input);
            Core(n, place', r, x.writer, x.recvQ, x.sendQ, AfterWriter(t, x.effect))
  {
    place' := if w.pc.FilterOut? && !(w.j < n && w.p.value.filterOut) && !w.p.value.transmitOut then Lost else place;
  }

  predicate IsStop(e: Event) { e.StopReader? || e.StopWriter? }

  lemma StepKeepsInv(n: nat, place: Place, s: State, e: Event) returns (place': Place)
    requires Inv(n, place, s) && Enabled(n, s, e)
    ensures Inv(n, place', Apply(n, s, e))
  {
    hide ReaderNext, WriterNext, Core;
    match e
    case ReaderStep(input) =>
      if s.reader.pc.AwaitReply? {
        place' := ReaderTakes(n, place, s.reader, s.writer, s.readerSend, s.writerSend, s.trace, input);
      } else if s.reader.pc.Fetch? || s.reader.pc.SendRequest? {
        place' := ReaderSends(n, place, s.reader, s.writer, s.readerSend, s.writerSend, s.trace, input);
      } else if s.reader.pc.AnswerHost? || s.reader.pc.WaitComplete? {
        place' := ReaderAnswers(n, place, s.reader, s.writer, s.readerSend, s.writerSend, s.trace, input);
      } else {
        place' := ReaderTurns(n, place, s.reader, s.writer, s.readerSend, s.writerSend, s.trace, input);
      }
    case WriterStep(input) =>
      if s.writer.pc.AskDevice? || s.writer.pc.SendReply? {
        place' := WriterHandles(n, place, s.reader, s.writer, s.readerSend, s.writerSend, s.trace, input);
      } else if s.writer.pc.FilterOut? || s.writer.pc.FilterIn? {
        place' := WriterFilters(n, place, s.reader, s.writer, s.readerSend, s.writerSend, s.trace, input);
      } else if s.writer.pc.AwaitRequest? {
        place' := WriterTakes(n, place, s.reader, s.writer, s.readerSend, s.writerSend, s.trace, input);
      } else {
        place' := WriterTurns(n, place, s.reader, s.writer, s.readerSend, s.writerSend, s.trace, input);
      }
    case _ =>
      place' := place;
      StopKeepsInv(n, place, s, e);
  }

  lemma StopKeepsInv(n: nat, place: Place, s: State, e: Event)
    requires e.StopReader? || e.StopWriter?
    requires Inv(n, place, s) && Enabled(n, s, e)
    ensures Inv(n, place, Apply(n, s, e))
  {
    hide ReaderNext, WriterNext;
  }

  lemma {:induction false} RunKeepsInv(n: nat, place: Place, s: State, es: seq<Event>) returns (place': Place)
    requires Inv(n, place, s) && Possible(n, s, es)
    ensures Inv(n, place', Run(n, s, es))
    decreases |es|
  {
    place' := place;
    if es != [] {
      place' := StepKeepsInv(n, place, s, es[0]);
      place' := RunKeepsInv(n, place', Apply(n, s, es[0]), es[1..]);
    }
  }

  // ----- At most one request in flight -----

  /** The setup packets in a queue, not counting null tokens. */
  function Setups(q: seq<PacketPtr>): nat {
    if q == [] then 0 else One(q[0].Some?) + Setups(q[1..])
  }

  lemma {:induction false} VacantCount(q: seq<PacketPtr>)
    requires Vacant(q)
    ensures Setups(q) == 0
  {
    if q != [] {
      VacantCount(q[1..]);
    }
  }

  lemma {:induction false} HoldsAtCount(q: seq<PacketPtr>, i: nat, serial: int)
    requires HoldsAt(q, i, serial)
    ensures Setups(q) == 1
  {
    if i == 0 {
      VacantCount(q[1..]);
    } else {
      HoldsAtCount(q[1..], i - 1, serial);
    }
  }

  /** Every non-null setup packet in either queue, in the writer's hand or in the reader's `p`. */
  function InFlight(s: State): nat {
    One(s.reader.p.Some?) + Setups(s.readerSend) + One(WriterHolds(s.writer)) + Setups(s.writerSend)
  }

  /** The reader is ready for the next request and has none in its hand. */
  predicate ReadyForRequest(s: State) {
    s.reader.directionOut && s.reader.pc != SendRequest
  }

  lemma CountInFlight(n: nat, place: Place, s: State)
    requires Inv(n, place, s)
    ensures InFlight(s) + |s.trace.gone| == One(!ReadyForRequest(s))
  {
    if place.InRequestQueue? {
      HoldsAtCount(s.readerSend, place.i, |s.trace.requests| - 1);
    } else {
      VacantCount(s.readerSend);
    }
    if place.InReplyQueue? {
      HoldsAtCount(s.writerSend, place.i, |s.trace.requests| - 1);
    } else {
      VacantCount(s.writerSend);
    }
  }

  /**
   In every reachable state, whatever the filters, the device, the timeouts and `please_stop` do:
   no packet exists while the reader is ready for a request, and otherwise exactly one exists or
   was given up; the k-th call of the device and the k-th answer are for the k-th request, so no
   request is answered twice or out of turn.
   */
  lemma OneRequestAtATime(n: nat, s: State, es: seq<Event>)
    requires Init(s) && Possible(n, s, es)
    ensures var s' := Run(n, s, es);
            && InFlight(s') + |s'.trace.gone| == One(!ReadyForRequest(s'))
            && |s'.trace.answers| <= |s'.trace.calls| <= |s'.trace.requests| <= |s'.trace.answers| + 1
            && InOrder(s'.trace)
  {
    InitInv(n, s);
    var place := RunKeepsInv(n, Nowhere, s, es);
    CountInFlight(n, place, Run(n, s, es));
  }

  // ----- A request that is given up -----

  lemma GoneStaysGone(n: nat, place: Place, s: State, e: Event)
    requires Inv(n, place, s) && s.trace.gone != [] && Enabled(n, s, e)
    ensures Apply(n, s, e).trace == s.trace
  {}

  /**
   Once a packet is given up (for instance because a filter cleared `transmit_out`, which makes the
   writer `continue` without replying) EP0 is stuck: the host is not answered, no further request
   is taken and the device is not called again, in any continuation.
   */
  lemma {:induction false} GivingUpWedgesEp0(n: nat, place: Place, s: State, es: seq<Event>)
    requires Inv(n, place, s) && s.trace.gone != [] && Possible(n, s, es)
    ensures Run(n, s, es).trace == s.trace && |s.trace.answers| == |s.trace.requests| - 1
    decreases |es|
  {
    if es != [] {
      GoneStaysGone(n, place, s, es[0]);
      var place' := StepKeepsInv(n, place, s, es[0]);
      GivingUpWedgesEp0(n, place', Apply(n, s, es[0]), es[1..]);
    }
  }

  // ----- Nothing is dropped for lack of room -----

  /** Room for the one packet and the one token a session can add to what the queues start with. */
  predicate Roomy(place: Place, s: State) {
    && |s.readerSend| <= QUEUE_MAX - 2 + One(place.InRequestQueue?) + One(s.writerStop == TokenSent)
    && |s.writerSend| <= QUEUE_MAX - 2 + One(place.InReplyQueue?) + One(s.readerStop == TokenSent)
  }

  predicate LossIsDeliberate(t: Trace) {
    forall g :: g in t.gone ==> !g.why.RequestDropped? && !g.why.ReplyDropped?
  }

  lemma StepKeepsRoom(n: nat, place: Place, s: State, e: Event) returns (place': Place)
    requires Inv(n, place, s) && Enabled(n, s, e)
    requires Roomy(place, s) && LossIsDeliberate(s.trace)
    ensures Inv(n, place', Apply(n, s, e))
    ensures Roomy(place', Apply(n, s, e)) && LossIsDeliberate(Apply(n, s, e).trace)
  {
    hide Inv;
    place' := StepKeepsInv(n, place, s, e);
    if e.WriterStep? {
      WriterKeepsRoom(n, place, place', s, e);
    } else if IsStop(e) {
      StopKeepsRoom(n, place, place', s, e);
    } else {
      ReaderKeepsRoom(n, place, place', s, e);
    }
  }

  lemma ReaderKeepsRoom(n: nat, place: Place, place': Place, s: State, e: Event)
    requires Inv(n, place, s) && Enabled(n, s, e) && e.ReaderStep? && Inv(n, place', Apply(n, s, e))
    requires Roomy(place, s) && LossIsDeliberate(s.trace)
    ensures Roomy(place', Apply(n, s, e)) && LossIsDeliberate(Apply(n, s, e).trace)
  {
    hide WriterNext, InOrder;
  }

  lemma StopKeepsRoom(n: nat, place: Place, place': Place, s: State, e: Event)
    requires Inv(n, place, s) && Enabled(n, s, e) && IsStop(e) && Inv(n, place', Apply(n, s, e))
    requires Roomy(place, s) && LossIsDeliberate(s.trace)
    ensures Roomy(place', Apply(n, s, e)) && LossIsDeliberate(Apply(n, s, e).trace)
  {
    hide ReaderNext, WriterNext, InOrder;
  }

  lemma WriterKeepsRoom(n: nat, place: Place, place': Place, s: State, e: Event)
    requires Inv(n, place, s) && Enabled(n, s, e) && e.WriterStep? && Inv(n, place', Apply(n, s, e))
    requires Roomy(place, s) && LossIsDeliberate(s.trace)
    ensures Roomy(place', Apply(n, s, e)) && LossIsDeliberate(Apply(n, s, e).trace)
  {
    hide ReaderNext, InOrder;
  }

  lemma {:induction false} RunKeepsRoom(n: nat, place: Place, s: State, es: seq<Event>)
    requires Inv(n, place, s) && Possible(n, s, es)
    requires Roomy(place, s) && LossIsDeliberate(s.trace)
    ensures LossIsDeliberate(Run(n, s, es).trace)
    decreases |es|
  {
    if es != [] {
      var place' := StepKeepsRoom(n, place, s, es[0]);
      RunKeepsRoom(n, place', Apply(n, s, es[0]), es[1..]);
    }
  }

  /** If the left-over tokens leave room for two more elements, no packet is ever dropped at a full queue. */
  lemma NoPacketDropped(n: nat, s: State, es: seq<Event>)
    requires Init(s) && Possible(n, s, es)
    requires |s.readerSend| <= QUEUE_MAX - 2 && |s.writerSend| <= QUEUE_MAX - 2
    ensures LossIsDeliberate(Run(n, s, es).trace)
  {
    InitInv(n, s);
    RunKeepsRoom(n, Nowhere, s, es);
  }

  lemma WriterNotBlocked(n: nat, place: Place, s: State) returns (input: WriterInput)
    requires Inv(n, place, s) && s.writer.pc != WriterDone
    requires s.writer.pc == AwaitRequest ==> s.readerSend != []
    ensures WriterEnabled(n, s.writer, s.readerSend, input)
  {
    var w := s.writer;
    input := if w.pc == AskDevice then Replied(DeviceReply(-1, []), seq(w.p.value.ctrl.wLength, _ => 0))
             else if w.p.Some? then Filtered(w.p.value)
             else Idle;
  }

  /** While no packet was given up and both threads run, the two threads never block each other. */
  lemma NeverBothBlocked(n: nat, place: Place, s: State) returns (e: Event)
    requires Inv(n, place, s) && s.trace.gone == []
    requires s.reader.pc != ReaderDone && s.writer.pc != WriterDone
    ensures (e.ReaderStep? || e.WriterStep?) && Enabled(n, s, e)
  {
    if ReaderEnabled(s.reader, s.writerSend) {
      e := ReaderStep(Quiet);
    } else {
      var input := WriterNotBlocked(n, place, s);
      e := WriterStep(input);
    }
  }
}
