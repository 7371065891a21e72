/** Conservation, order and non-overlap on a data endpoint, over every interleaving. */
module DataFlow {
  import opened Common
  import opened SafeQueues
  import opened Packets
  import opened DataMachine

  // ----- The line of packets -----

  function Id(p: ItemPtr): seq<nat> {
    if p.Some? then [p.value.id] else []
  }

  function Ids(q: seq<ItemPtr>): seq<nat> {
    if q == [] then [] else Id(q[0]) + Ids(q[1..])
  }

  lemma {:induction false} IdsAppend(q: seq<ItemPtr>, x: ItemPtr)
    ensures Ids(q + [x]) == Ids(q) + Id(x)
  {
    if q == [] {
      assert [x][1..] == [];
    } else {
      assert (q + [x])[1..] == q[1..] + [x];
      IdsAppend(q[1..], x);
    }
  }

  function SentIds(sent: seq<Sent>): seq<nat> {
    seq(|sent|, i requires 0 <= i < |sent| => sent[i].id)
  }

  function InHand(w: Writer): seq<nat> {
    if w.trail == [] then [] else [w.id]
  }

  /**
   From the oldest packet sent to the newest one received: sent, in the writer's hand, queued, in the reader's
   hand.
   */
  function Line(s: State): seq<nat> {
    SentIds(s.sent) + InHand(s.writer) + Ids(s.queue) + Id(s.reader.p)
  }

  function FirstIds(n: nat): seq<nat> {
    seq(n, i => i)
  }

  ghost predicate Ascending(ids: seq<nat>) {
    forall i, j :: 0 <= i < j < |ids| ==> ids[i] < ids[j]
  }

  /** The line is in order, and with the packets that left it (`out`) it holds each of `n` packets once. */
  ghost predicate Conserves(line: seq<nat>, out: multiset<nat>, n: nat) {
    && Ascending(line)
    && (forall i :: 0 <= i < |line| ==> line[i] < n)
    && multiset(line) + out == multiset(FirstIds(n))
  }

  // ----- Filtered images -----

  /** `trail` starts at the packet received and follows what filters 0, 1, ... may do. */
  ghost predicate IsTrail(rel: FilterRel, received: seq<Packet>, id: nat, trail: seq<Packet>) {
    && id < |received| && trail != [] && trail[0] == received[id]
    && forall j :: 0 <= j < |trail| - 1 ==> rel(j, trail[j], trail[j + 1])
  }

  ghost predicate QueueIsGenuine(q: seq<ItemPtr>, received: seq<Packet>) {
    forall i :: 0 <= i < |q| && q[i].Some? ==>
      q[i].value.id < |received| && q[i].value.packet == received[q[i].value.id]
  }

  /** Every packet sent has passed all `n` filters, which left `transmit` set. */
  ghost predicate SentIsFiltered(n: nat, rel: FilterRel, s: State) {
    forall k :: 0 <= k < |s.sent| ==>
      && IsTrail(rel, s.received, s.sent[k].id, s.sent[k].trail)
      && |s.sent[k].trail| == n + 1 && s.sent[k].trail[n].transmit
  }

  predicate Shape(n: nat, s: State) {
    && (s.reader.pc == Enqueue <==> s.reader.p.Some?)
    && (s.writer.pc == FilterPacket <==> s.writer.trail != [])
    && |s.writer.trail| <= n + 1
    && (s.transferring ==> s.writer.writing)
    && (s.writer.pc == AwaitPacket || s.writer.pc == FilterPacket ==> !s.writer.writing)
    && !s.overlapped
  }

  ghost predicate Genuine(n: nat, rel: FilterRel, s: State) {
    && QueueIsGenuine(s.queue, s.received)
    && (s.reader.p.Some? ==>
          && s.reader.p.value.id == |s.received| - 1 >= 0
          && s.reader.p.value.packet == s.received[|s.received| - 1])
    && (s.writer.trail != [] ==> IsTrail(rel, s.received, s.writer.id, s.writer.trail))
    && SentIsFiltered(n, rel, s)
  }

  /** Every packet received is in the line, withheld or dropped, and in only one of them. */
  ghost predicate Lined(s: State) {
    Conserves(Line(s), multiset(s.withheld) + multiset(s.dropped), |s.received|)
  }

  ghost predicate Inv(n: nat, rel: FilterRel, s: State) {
    Shape(n, s) && Genuine(n, rel, s) && Lined(s)
  }

  lemma InitInv(n: nat, rel: FilterRel, s: State)
    requires Init(s)
    ensures Inv(n, rel, s)
  {
    hide Conserves;
    assert Line(s) == [];
    NothingConserved(multiset(s.withheld) + multiset(s.dropped));
  }

  lemma NothingConserved(out: multiset<nat>)
    requires out == multiset{}
    ensures Conserves([], out, 0)
  {
    assert FirstIds(0) == [];
  }

  // ----- Steps -----

  lemma JoinLine(line: seq<nat>, out: multiset<nat>, n: nat)
    requires Conserves(line, out, n)
    ensures Conserves(line + [n], out, n + 1)
  {
    assert FirstIds(n + 1) == FirstIds(n) + [n];
  }

  lemma LeaveLine(a: seq<nat>, x: nat, b: seq<nat>, out: multiset<nat>, n: nat)
    requires Conserves(a + [x] + b, out, n)
    ensures Conserves(a + b, out + multiset{x}, n)
  {
    var whole := a + [x] + b;
    forall i | 0 <= i < |a + b|
      ensures (a + b)[i] == whole[if i < |a| then i else i + 1]
    {}
    assert multiset(whole) == multiset(a + b) + multiset{x};
  }

  lemma ReaderKeepsLine(n: nat, endpoint: byte, s: State, data: seq<byte>)
    requires Shape(n, s) && Lined(s) && s.reader.pc != ReaderDone
    ensures Lined(ReaderNext(endpoint, s, data))
  {
    hide Conserves;
    var s' := ReaderNext(endpoint, s, data);
    if s.reader.pc == Receive && data != [] {
      ReceiveKeepsLine(n, endpoint, s, data);
    } else if s.reader.pc == Enqueue {
      EnqueueKeepsLine(n, endpoint, s, data);
    } else {
      assert Line(s') == Line(s);
    }
  }

  lemma ReceiveKeepsLine(n: nat, endpoint: byte, s: State, data: seq<byte>)
    requires Shape(n, s) && Lined(s) && s.reader.pc == Receive && data != []
    ensures Lined(ReaderNext(endpoint, s, data))
  {
    hide Conserves, Ids, SentIds, InHand, FirstIds;
    var s' := ReaderNext(endpoint, s, data);
    var rest := SentIds(s.sent) + InHand(s.writer) + Ids(s.queue);
    assert Line(s) == rest && Line(s') == rest + [|s.received|];
    JoinLine(rest, multiset(s.withheld) + multiset(s.dropped), |s.received|);
  }

  lemma EnqueueKeepsLine(n: nat, endpoint: byte, s: State, data: seq<byte>)
    requires Shape(n, s) && Lined(s) && s.reader.pc == Enqueue
    ensures Lined(ReaderNext(endpoint, s, data))
  {
    hide Conserves;
    var s' := ReaderNext(endpoint, s, data);
    if |s.queue| >= QUEUE_MAX {
      var a, id := SentIds(s.sent) + InHand(s.writer) + Ids(s.queue), s.reader.p.value.id;
      assert Line(s) == a + [id] + [] && Line(s') == a + [];
      LeaveLine(a, id, [], multiset(s.withheld) + multiset(s.dropped), |s.received|);
      assert multiset(s'.withheld) + multiset(s'.dropped) == multiset(s.withheld) + multiset(s.dropped) + multiset{id};
    } else {
      IdsAppend(s.queue, s.reader.p);
      assert Line(s') == Line(s);
    }
  }

  lemma WriterKeepsLine(n: nat, s: State, filtered: Packet, completes: bool)
    requires Shape(n, s) && Lined(s) && s.writer.pc != WriterDone && (s.writer.pc == AwaitPacket ==> s.queue != [])
    ensures Lined(WriterNext(n, s, filtered, completes))
  {
    hide Conserves, Ids, SentIds;
    var s' := WriterNext(n, s, filtered, completes);
    if s.writer.pc == FilterPacket && FiltersDone(s.writer) == n {
      FinishKeepsLine(n, s, filtered, completes);
    } else {
      if s.writer.pc == AwaitPacket {
        IdsFirst(s.queue);
      }
      assert InHand(s'.writer) + Ids(s'.queue) == InHand(s.writer) + Ids(s.queue);
      SameLine(s, s');
    }
  }

  lemma IdsFirst(q: seq<ItemPtr>)
    requires q != []
    ensures Ids(q) == Id(q[0]) + Ids(q[1..])
  {}

  lemma SameLine(s: State, s': State)
    requires s'.sent == s.sent && s'.reader == s.reader
    requires InHand(s'.writer) + Ids(s'.queue) == InHand(s.writer) + Ids(s.queue)
    ensures Line(s') == Line(s)
  {
    hide Ids, SentIds, InHand;
    assert Line(s) == SentIds(s.sent) + (InHand(s.writer) + Ids(s.queue)) + Id(s.reader.p);
    assert Line(s') == SentIds(s.sent) + (InHand(s'.writer) + Ids(s'.queue)) + Id(s.reader.p);
  }

  lemma FinishKeepsLine(n: nat, s: State, filtered: Packet, completes: bool)
    requires Shape(n, s) && Lined(s) && s.writer.pc == FilterPacket && FiltersDone(s.writer) == n
    ensures Lined(WriterNext(n, s, filtered, completes))
  {
    hide Conserves, Ids;
    var s', id := WriterNext(n, s, filtered, completes), s.writer.id;
    var a, b := SentIds(s.sent), Ids(s.queue) + Id(s.reader.p);
    assert Line(s) == a + [id] + b;
    if s.writer.trail[n].transmit {
      assert SentIds(s'.sent) == a + [id];
      assert Line(s') == a + [id] + b;
    } else {
      assert Line(s') == a + b;
      LeaveLine(a, id, b, multiset(s.withheld) + multiset(s.dropped), |s.received|);
      assert multiset(s'.withheld) + multiset(s'.dropped) == multiset(s.withheld) + multiset(s.dropped) + multiset{id};
    }
  }

  lemma StepKeepsShape(n: nat, rel: FilterRel, endpoint: byte, s: State, e: Event)
    requires Shape(n, s) && Enabled(n, rel, s, e)
    ensures Shape(n, Apply(n, rel, endpoint, s, e))
  {}

  lemma ReaderKeepsGenuine(n: nat, rel: FilterRel, endpoint: byte, s: State, data: seq<byte>)
    requires Shape(n, s) && Genuine(n, rel, s) && s.reader.pc != ReaderDone
    ensures Genuine(n, rel, ReaderNext(endpoint, s, data))
  {}

  lemma WriterKeepsGenuine(n: nat, rel: FilterRel, s: State, filtered: Packet, completes: bool)
    requires Shape(n, s) && Genuine(n, rel, s) && Enabled(n, rel, s, WriterStep(filtered, completes))
    ensures Genuine(n, rel, WriterNext(n, s, filtered, completes))
  {
    if s.writer.pc == FilterPacket {
      FilterKeepsGenuine(n, rel, s, filtered, completes);
    } else {
      hide SentIsFiltered;
    }
  }

  lemma FilterKeepsGenuine(n: nat, rel: FilterRel, s: State, filtered: Packet, completes: bool)
    requires Shape(n, s) && Genuine(n, rel, s) && Enabled(n, rel, s, WriterStep(filtered, completes))
    requires s.writer.pc == FilterPacket
    ensures Genuine(n, rel, WriterNext(n, s, filtered, completes))
  {
    hide QueueIsGenuine;
  }

  lemma StepKeepsInv(n: nat, rel: FilterRel, endpoint: byte, s: State, e: Event)
    requires Inv(n, rel, s) && Enabled(n, rel, s, e)
    ensures Inv(n, rel, Apply(n, rel, endpoint, s, e))
  {
    hide Shape, Genuine, Lined, ReaderNext, WriterNext;
    StepKeepsShape(n, rel, endpoint, s, e);
    match e
    case ReaderStep(data) =>
      ReaderKeepsLine(n, endpoint, s, data);
      ReaderKeepsGenuine(n, rel, endpoint, s, data);
    case WriterStep(filtered, completes) =>
      WriterKeepsLine(n, s, filtered, completes);
      WriterKeepsGenuine(n, rel, s, filtered, completes);
    case _ =>
      StopKeepsLine(n, rel, endpoint, s, e);
      StopKeepsGenuine(n, rel, endpoint, s, e);
  }

  lemma StopKeepsLine(n: nat, rel: FilterRel, endpoint: byte, s: State, e: Event)
    requires (e.StopReader? || e.StopWriter?) && Lined(s) && Enabled(n, rel, s, e)
    ensures Lined(Apply(n, rel, endpoint, s, e))
  {
    hide ReaderNext, WriterNext, Conserves, Ids, SentIds;
    IdsAppend(s.queue, None);
    assert Ids(s.queue) + Id(None) == Ids(s.queue);
    assert Ids(Apply(n, rel, endpoint, s, e).queue) == Ids(s.queue);
    assert Line(Apply(n, rel, endpoint, s, e)) == Line(s);
  }

  lemma StopKeepsGenuine(n: nat, rel: FilterRel, endpoint: byte, s: State, e: Event)
    requires (e.StopReader? || e.StopWriter?) && Genuine(n, rel, s) && Enabled(n, rel, s, e)
    ensures Genuine(n, rel, Apply(n, rel, endpoint, s, e))
  {
    hide ReaderNext, WriterNext;
  }

  lemma {:induction false} RunKeepsInv(n: nat, rel: FilterRel, endpoint: byte, s: State, es: seq<Event>)
    requires Inv(n, rel, s) && Possible(n, rel, endpoint, s, es)
    ensures Inv(n, rel, Run(n, rel, endpoint, s, es))
    decreases |es|
  {
    if es != [] {
      StepKeepsInv(n, rel, endpoint, s, es[0]);
      RunKeepsInv(n, rel, endpoint, Apply(n, rel, endpoint, s, es[0]), es[1..]);
    }
  }

  // ----- Theorems -----

  /**
   In every reachable state each packet received is sent, withheld by a filter, dropped at a full
   queue, still queued or in a thread's hand, in exactly one of these; what was sent is in the order
   it was received and went through all `n` filters; no transfer was started before the last one
   had completed.
   */
  lemma DataRelayed(n: nat, rel: FilterRel, endpoint: byte, s: State, es: seq<Event>)
    requires Init(s) && Possible(n, rel, endpoint, s, es)
    ensures var s' := Run(n, rel, endpoint, s, es);
            Lined(s') && SentIsFiltered(n, rel, s') && !s'.overlapped
  {
    InitInv(n, rel, s);
    RunKeepsInv(n, rel, endpoint, s, es);
  }

  ghost predicate Untouched(s: State) {
    && s.withheld == []
    && (forall k :: 0 <= k < |s.received| ==> s.received[k].transmit)
  }

  lemma StepKeepsUntouched(rel: FilterRel, endpoint: byte, s: State, e: Event)
    requires Shape(0, s) && Genuine(0, rel, s) && Untouched(s) && Enabled(0, rel, s, e)
    ensures Untouched(Apply(0, rel, endpoint, s, e))
  {}

  lemma {:induction false} RunKeepsUntouched(rel: FilterRel, endpoint: byte, s: State, es: seq<Event>)
    requires Inv(0, rel, s) && Untouched(s) && Possible(0, rel, endpoint, s, es)
    ensures Untouched(Run(0, rel, endpoint, s, es))
    decreases |es|
  {
    hide Untouched, Shape, Genuine, Lined, Apply, Enabled;
    if es != [] {
      StepKeepsInv(0, rel, endpoint, s, es[0]);
      StepKeepsUntouched(rel, endpoint, s, es[0]);
      RunKeepsUntouched(rel, endpoint, Apply(0, rel, endpoint, s, es[0]), es[1..]);
    }
  }

  lemma NoFilterNoChange(rel: FilterRel, s: State)
    requires SentIsFiltered(0, rel, s)
    ensures forall k :: 0 <= k < |s.sent| ==>
              s.sent[k].id < |s.received| && s.sent[k].trail == [s.received[s.sent[k].id]]
  {}

  /** Without filters nothing is withheld, and the packets sent are the very packets received. */
  lemma UnfilteredRelay(rel: FilterRel, endpoint: byte, s: State, es: seq<Event>)
    requires Init(s) && Possible(0, rel, endpoint, s, es)
    ensures var s' := Run(0, rel, endpoint, s, es);
            && s'.withheld == []
            && forall k :: 0 <= k < |s'.sent| ==>
                 s'.sent[k].id < |s'.received| && s'.sent[k].trail == [s'.received[s'.sent[k].id]]
  {
    hide SentIsFiltered, QueueIsGenuine, Lined, Shape;
    InitInv(0, rel, s);
    RunKeepsInv(0, rel, endpoint, s, es);
    RunKeepsUntouched(rel, endpoint, s, es);
    NoFilterNoChange(rel, Run(0, rel, endpoint, s, es));
  }
}
