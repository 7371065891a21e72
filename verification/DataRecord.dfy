/** What the record of a data endpoint has to do with the data that arrived and the transfers that completed. */
module DataRecord {
  import opened Common
  import opened SafeQueues
  import opened Packets
  import opened DataMachine
  import opened DataFlow

  /** The data received, without the time-outs, and the number of transfers that completed. */
  datatype Inputs = Inputs(data: seq<seq<byte>>, completed: nat)

  function Seen(i: Inputs, s: State, e: Event): Inputs {
    match e
    case ReaderStep(data) => if s.reader.pc == Receive && data != [] then i.(data := i.data + [data]) else i
    case WriterStep(_, completes) =>
      if s.writer.pc == WaitComplete && completes then i.(completed := i.completed + 1) else i
    case _ => i
  }

  function AllSeen(n: nat, rel: FilterRel, endpoint: byte, i: Inputs, s: State, es: seq<Event>): Inputs
    requires Possible(n, rel, endpoint, s, es)
    decreases |es|
  {
    if es == [] then i
    else AllSeen(n, rel, endpoint, Seen(i, s, es[0]), Apply(n, rel, endpoint, s, es[0]), es[1..])
  }

  /** `p` holds the bytes received, is for this endpoint, and is to be filtered and transmitted. */
  predicate Wraps(p: Packet, endpoint: byte, data: seq<byte>) {
    && p.bEndpoint == endpoint && p.filter && p.transmit
    && p.data <= data && (|data| < 0x1_0000 ==> p.data == data)
  }

  ghost predicate IsRecord(endpoint: byte, s: State, i: Inputs) {
    && |s.received| == |i.data| && (forall k :: 0 <= k < |i.data| ==> Wraps(s.received[k], endpoint, i.data[k]))
    && |s.sent| == i.completed + One(s.writer.writing)
    && |s.queue| <= QUEUE_MAX
  }

  lemma ReaderKeepsRecord(n: nat, rel: FilterRel, endpoint: byte, s: State, i: Inputs, e: Event)
    requires e.ReaderStep? && Enabled(n, rel, s, e) && IsRecord(endpoint, s, i)
    ensures IsRecord(endpoint, Apply(n, rel, endpoint, s, e), Seen(i, s, e))
  {
    hide WriterNext, Line;
  }

  lemma WriterKeepsRecord(n: nat, rel: FilterRel, endpoint: byte, s: State, i: Inputs, e: Event)
    requires !e.ReaderStep? && Shape(n, s) && Enabled(n, rel, s, e) && IsRecord(endpoint, s, i)
    requires s.writer.pc == WaitComplete ==> s.writer.writing
    ensures IsRecord(endpoint, Apply(n, rel, endpoint, s, e), Seen(i, s, e))
    ensures var w := Apply(n, rel, endpoint, s, e).writer; w.pc == WaitComplete ==> w.writing
  {
    hide ReaderNext, Wraps, Line;
  }

  lemma {:induction false} RunKeepsRecord(n: nat, rel: FilterRel, endpoint: byte, s: State, i: Inputs, es: seq<Event>)
    requires Inv(n, rel, s) && Possible(n, rel, endpoint, s, es) && IsRecord(endpoint, s, i)
    requires s.writer.pc == WaitComplete ==> s.writer.writing
    ensures IsRecord(endpoint, Run(n, rel, endpoint, s, es), AllSeen(n, rel, endpoint, i, s, es))
    decreases |es|
  {
    hide Enabled, IsRecord, Seen, Shape, Genuine, Lined, WriterNext;
    if es != [] {
      StepKeepsInv(n, rel, endpoint, s, es[0]);
      if es[0].ReaderStep? {
        ReaderKeepsRecord(n, rel, endpoint, s, i, es[0]);
      } else {
        hide Apply;
        WriterKeepsRecord(n, rel, endpoint, s, i, es[0]);
      }
      RunKeepsRecord(n, rel, endpoint, Apply(n, rel, endpoint, s, es[0]), Seen(i, s, es[0]), es[1..]);
    }
  }

  /**
   In every run: as many packets were received as data arrived, in that order, each with exactly the bytes that
   arrived (below 65536), the endpoint's number and both flags set; and every transfer but the one under way was
   completed before the next was started.
   */
  lemma ReceivedExactly(n: nat, rel: FilterRel, endpoint: byte, s: State, es: seq<Event>)
    requires Init(s) && Possible(n, rel, endpoint, s, es)
    ensures var s', i := Run(n, rel, endpoint, s, es), AllSeen(n, rel, endpoint, Inputs([], 0), s, es);
            && |s'.received| == |i.data|
            && (forall k :: 0 <= k < |i.data| ==>
                  var p := s'.received[k];
                  p.bEndpoint == endpoint && p.filter && p.transmit
                  && (|i.data[k]| < 65536 ==> p.data == i.data[k]))
            && i.completed <= |s'.sent| <= i.completed + 1
  {
    hide Inv;
    InitInv(n, rel, s);
    RunKeepsRecord(n, rel, endpoint, s, Inputs([], 0), es);
  }

  /**
   How a packet leaves the line, in every reachable state: it is dropped exactly when the reader enqueues it while
   the queue holds 10000 elements, and when it has passed the last of the n filters it is sent if that left
   `transmit` set, and withheld if not.
   */
  lemma LeavesTheLine(n: nat, rel: FilterRel, endpoint: byte, s: State, es: seq<Event>, e: Event)
    requires Init(s) && Possible(n, rel, endpoint, s, es) && Enabled(n, rel, Run(n, rel, endpoint, s, es), e)
    ensures var s1 := Run(n, rel, endpoint, s, es);
            var s2, trail := Apply(n, rel, endpoint, s1, e), s1.writer.trail;
            var passed := e.WriterStep? && |trail| == n + 1;
            && s2.dropped == s1.dropped
                 + (if e.ReaderStep? && s1.reader.pc == Enqueue && |s1.queue| == 10000 then [|s1.received| - 1] else [])
            && s2.withheld == s1.withheld + (if passed && !trail[n].transmit then [s1.writer.id] else [])
            && s2.sent == s1.sent + (if passed && trail[n].transmit then [Sent(s1.writer.id, trail)] else [])
  {
    hide Lined, SentIsFiltered, QueueIsGenuine;
    InitInv(n, rel, s);
    RunKeepsInv(n, rel, endpoint, s, es);
    RunKeepsRecord(n, rel, endpoint, s, Inputs([], 0), es);
  }
}
