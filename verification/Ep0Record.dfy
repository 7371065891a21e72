/** What the trace of an EP0 run has to do with what host and device did in it. */
module Ep0Record {
  import opened Common
  import opened Ep0Machine
  import opened Ep0Flow

  /** The requests the host proxy handed over, the replies of the device, and the transfers the host completed. */
  datatype Inputs = Inputs(requests: seq<Request>, replies: seq<DeviceReply>, completed: nat)

  /** The inputs after one more event. */
  function Seen(i: Inputs, s: State, e: Event): Inputs {
    match e
    case ReaderStep(Arrives(r)) => if s.reader.pc == Fetch then i.(requests := i.requests + [r]) else i
    case ReaderStep(Completed) => if s.reader.pc == WaitComplete then i.(completed := i.completed + 1) else i
    case WriterStep(Replied(reply, _)) => if s.writer.pc == AskDevice then i.(replies := i.replies + [reply]) else i
    case _ => i
  }

  function AllSeen(n: nat, i: Inputs, s: State, es: seq<Event>): Inputs
    requires Possible(n, s, es)
    decreases |es|
  {
    if es == [] then i else AllSeen(n, Seen(i, s, es[0]), Apply(n, s, es[0]), es[1..])
  }

  /** The values for `Manager::setConfig`: the low byte of wValue of each call that is a SET_CONFIGURATION. */
  function ConfigsOf(calls: seq<Call>): seq<byte> {
    if calls == [] then []
    else
      var last := calls[|calls| - 1].request.ctrl;
      ConfigsOf(calls[..|calls| - 1])
      + if last.bRequest == 9 && last.bRequestType == 0 then [last.wValue % 0x100] else []
  }

  /**
   The trace holds the requests that arrived and the replies the device gave, all of them and in order; and from
   a request until its transfer is completed no other is taken.
   */
  ghost predicate IsRecord(t: Trace, ready: bool, i: Inputs) {
    && t.requests == i.requests
    && |t.calls| == |i.replies| && (forall k :: 0 <= k < |t.calls| ==> t.calls[k].reply == i.replies[k])
    && t.configs == ConfigsOf(t.calls)
    && |t.requests| == i.completed + One(!ready)
  }

  lemma ConfigsSnoc(calls: seq<Call>, c: Call)
    ensures var ctrl := c.request.ctrl;
            ConfigsOf(calls + [c])
            == ConfigsOf(calls) + if ctrl.bRequest == 9 && ctrl.bRequestType == 0 then [ctrl.wValue % 0x100] else []
  {
    assert (calls + [c])[..|calls|] == calls;
  }

  lemma ReaderKeepsRecord(n: nat, s: State, i: Inputs, e: Event)
    requires e.ReaderStep? && Enabled(n, s, e) && ReaderShape(s.reader) && IsRecord(s.trace, ReadyForRequest(s), i)
    ensures var s' := Apply(n, s, e); IsRecord(s'.trace, ReadyForRequest(s'), Seen(i, s, e))
  {
    hide WriterNext, ConfigsOf, CallFor, Ep0Machine.NewPacket;
  }

  lemma WriterKeepsRecord(n: nat, s: State, i: Inputs, e: Event)
    requires e.WriterStep? && Enabled(n, s, e) && IsRecord(s.trace, ReadyForRequest(s), i)
    ensures var s' := Apply(n, s, e); IsRecord(s'.trace, ReadyForRequest(s'), Seen(i, s, e))
  {
    hide ConfigsOf;
    if s.writer.pc == AskDevice {
      var effect := WriterNext(n, s.writer, s.readerSend, s.writerSend, e.writerInput).effect;
      ConfigsSnoc(s.trace.calls, effect.call);
    }
  }

  lemma {:induction false} RunKeepsRecord(n: nat, place: Place, s: State, i: Inputs, es: seq<Event>)
    requires Inv(n, place, s) && Possible(n, s, es) && IsRecord(s.trace, ReadyForRequest(s), i)
    ensures var s' := Run(n, s, es); IsRecord(s'.trace, ReadyForRequest(s'), AllSeen(n, i, s, es))
    decreases |es|
  {
    hide Apply, Enabled, IsRecord, Seen;
    if es != [] {
      StepKeepsRecord(n, place, s, i, es[0]);
      var place' := StepKeepsInv(n, place, s, es[0]);
      RunKeepsRecord(n, place', Apply(n, s, es[0]), Seen(i, s, es[0]), es[1..]);
    }
  }

  lemma StepKeepsRecord(n: nat, place: Place, s: State, i: Inputs, e: Event)
    requires Inv(n, place, s) && Enabled(n, s, e) && IsRecord(s.trace, ReadyForRequest(s), i)
    ensures var s' := Apply(n, s, e); IsRecord(s'.trace, ReadyForRequest(s'), Seen(i, s, e))
  {
    hide IsRecord, At, InOrder;
    if e.ReaderStep? {
      ReaderKeepsRecord(n, s, i, e);
    } else if e.WriterStep? {
      WriterKeepsRecord(n, s, i, e);
    }
  }

  /**
   In every run, with any filters: the requests and replies of the trace are those of the host and the device;
   `setConfig` got the low byte of wValue for each call with request 9 and type 0, and for no other; and a request
   is taken only when the transfer of the one before it is completed.
   */
  lemma RecordIsTrue(n: nat, s: State, es: seq<Event>)
    requires Init(s) && Possible(n, s, es)
    ensures var s', i := Run(n, s, es), AllSeen(n, Inputs([], [], 0), s, es);
            && s'.trace.requests == i.requests
            && |s'.trace.calls| == |i.replies|
            && (forall k :: 0 <= k < |i.replies| ==> s'.trace.calls[k].reply == i.replies[k])
            && s'.trace.configs == ConfigsOf(s'.trace.calls)
            && |i.requests| == i.completed + One(!ReadyForRequest(s'))
  {
    InitInv(n, s);
    RunKeepsRecord(n, Nowhere, s, Inputs([], [], 0), es);
  }

  /**
   The writer's `length`, and the wLength of the reply: on success the number of bytes moved. A failing call from
   device to host leaves what an earlier call had put there, and this becomes wLength.
   */
  lemma LengthAfterCall(n: nat, s: State, e: Event)
    requires e.WriterStep? && s.writer.pc == AskDevice && Enabled(n, s, e)
    ensures var w, ctrl, reply := Apply(n, s, e).writer, s.writer.p.value.ctrl, e.writerInput.reply;
            && w.length == (if reply.rc >= 0 then |reply.data|
                            else if ctrl.bRequestType >= 0x80 then s.writer.length else ctrl.wLength)
            && w.p.Some? && w.p.value.ctrl.wLength == if ctrl.bRequestType >= 0x80 then w.length % 65536 else 0
  {}

  /** No other step changes it. */
  lemma LengthStays(n: nat, s: State, e: Event)
    requires Enabled(n, s, e) && !(e.WriterStep? && s.writer.pc == AskDevice)
    ensures Apply(n, s, e).writer.length == s.writer.length
  {
    hide ReaderNext;
  }
}
