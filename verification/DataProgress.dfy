/** Every queued packet is sent or withheld within a bounded number of the writer's steps, time-outs aside. */
module DataProgress {
  import opened Common
  import opened SafeQueues
  import opened DataMachine
  import opened DataFlow
  import opened DataShutdown

  // ----- Where a packet is -----

  /** `i` is the position in the queue. */
  datatype Spot = Queued(i: nat) | InHand | Handled

  predicate At(s: State, id: nat, spot: Spot) {
    match spot
    case Queued(i) => i < |s.queue| && s.queue[i].Some? && s.queue[i].value.id == id
    case InHand => s.writer.trail != [] && s.writer.id == id
    case Handled => id in s.withheld || exists k :: 0 <= k < |s.sent| && s.sent[k].id == id
  }

  /** The writer has not been asked to stop. */
  predicate WriterRuns(s: State) {
    s.writerStop == NotAsked && !s.writer.stop && s.writer.pc != WriterExit && s.writer.pc != WriterDone
  }

  // ----- The rank -----

  /** Steps the writer can take before its next dequeue, if every transfer completes. */
  function Work(n: nat, w: Writer): nat {
    match w.pc
    case WriterTop => if w.writing then 3 else 1
    case WaitComplete => 2
    case FilterPacket => if FiltersDone(w) <= n then n - FiltersDone(w) + 4 else 4
    case _ => 0
  }

  /** Steps for a packet at position `i` and those before it: n + 5 for each. */
  function Cost(n: nat, i: nat): nat {
    if i == 0 then n + 5 else Cost(n, i - 1) + n + 5
  }

  function Rank(n: nat, s: State, spot: Spot): nat {
    Work(n, s.writer) + if spot.Queued? then Cost(n, spot.i) else 0
  }

  /** A `send_wait_complete` that times out. */
  predicate TimesOut(s: State, e: Event) {
    e.WriterStep? && s.writer.pc == WaitComplete && !e.completes
  }

  lemma WriterWorks(n: nat, rel: FilterRel, endpoint: byte, s: State, e: Event, id: nat, spot: Spot)
      returns (spot': Spot)
    requires Shape(n, s) && WriterRuns(s) && Enabled(n, rel, s, e) && e.WriterStep?
    requires At(s, id, spot) && !spot.Handled?
    ensures WriterRuns(Apply(n, rel, endpoint, s, e)) && At(Apply(n, rel, endpoint, s, e), id, spot')
    ensures !spot'.Handled? ==>
              Rank(n, Apply(n, rel, endpoint, s, e), spot') < Rank(n, s, spot) + 2 * One(TimesOut(s, e))
  {
    var s' := Apply(n, rel, endpoint, s, e);
    match spot
    case Queued(i) =>
      if s.writer.pc == AwaitPacket {
        spot' := if i == 0 then InHand else Queued(i - 1);
      } else {
        spot' := spot;
      }
    case InHand =>
      if FiltersDone(s.writer) < n {
        spot' := InHand;
      } else {
        spot' := Handled;
        assert s.writer.trail[|s.writer.trail| - 1].transmit ==> s'.sent[|s.sent|].id == id;
      }
  }

  /** The reader only adds packets behind, and its stop does not touch the queue. */
  lemma OthersLeaveIt(n: nat, rel: FilterRel, endpoint: byte, s: State, e: Event, id: nat, spot: Spot)
    requires WriterRuns(s) && Enabled(n, rel, s, e) && !e.WriterStep? && !e.StopWriter?
    requires At(s, id, spot) && !spot.Handled?
    ensures var s' := Apply(n, rel, endpoint, s, e);
            WriterRuns(s') && At(s', id, spot) && Rank(n, s', spot) == Rank(n, s, spot)
  {}

  lemma StaysHandled(n: nat, rel: FilterRel, endpoint: byte, s: State, e: Event, id: nat)
    requires Enabled(n, rel, s, e) && At(s, id, Handled)
    ensures At(Apply(n, rel, endpoint, s, e), id, Handled)
  {
    var s' := Apply(n, rel, endpoint, s, e);
    assert forall k :: 0 <= k < |s.sent| ==> s'.sent[k] == s.sent[k];
  }

  // ----- Runs -----

  predicate NoWriterStop(es: seq<Event>) {
    forall i :: 0 <= i < |es| ==> !es[i].StopWriter?
  }

  function TimeOuts(n: nat, rel: FilterRel, endpoint: byte, s: State, es: seq<Event>): nat
    requires Possible(n, rel, endpoint, s, es)
    decreases |es|
  {
    if es == [] then 0
    else One(TimesOut(s, es[0])) + TimeOuts(n, rel, endpoint, Apply(n, rel, endpoint, s, es[0]), es[1..])
  }

  lemma {:induction false} RunStaysHandled(n: nat, rel: FilterRel, endpoint: byte, s: State, es: seq<Event>, id: nat)
    requires Possible(n, rel, endpoint, s, es) && At(s, id, Handled)
    ensures At(Run(n, rel, endpoint, s, es), id, Handled)
    decreases |es|
  {
    hide Apply, Enabled, At;
    if es != [] {
      StaysHandled(n, rel, endpoint, s, es[0], id);
      RunStaysHandled(n, rel, endpoint, Apply(n, rel, endpoint, s, es[0]), es[1..], id);
    }
  }

  lemma {:induction false} HandledSoon(n: nat, rel: FilterRel, endpoint: byte, s: State, es: seq<Event>, id: nat,
                                      spot: Spot)
    returns (spot': Spot)
    requires Shape(n, s) && WriterRuns(s) && Possible(n, rel, endpoint, s, es) && NoWriterStop(es)
    requires At(s, id, spot) && !spot.Handled?
    ensures At(Run(n, rel, endpoint, s, es), id, spot')
    ensures !spot'.Handled? ==>
              WriterSteps(es) + Rank(n, Run(n, rel, endpoint, s, es), spot')
              <= Rank(n, s, spot) + 2 * TimeOuts(n, rel, endpoint, s, es)
    decreases |es|
  {
    hide Apply, Enabled, At, Rank, Shape, WriterRuns, TimesOut;
    if es == [] {
      spot' := spot;
    } else {
      var e, s1 := es[0], Apply(n, rel, endpoint, s, es[0]);
      StepKeepsShape(n, rel, endpoint, s, e);
      var spot1 := spot;
      if e.WriterStep? {
        spot1 := WriterWorks(n, rel, endpoint, s, e, id, spot);
      } else {
        OthersLeaveIt(n, rel, endpoint, s, e, id, spot);
      }
      if spot1.Handled? {
        RunStaysHandled(n, rel, endpoint, s1, es[1..], id);
        spot' := Handled;
      } else {
        spot' := HandledSoon(n, rel, endpoint, s1, es[1..], id, spot1);
      }
    }
  }

  lemma {:induction false} RunKeepsRunning(n: nat, rel: FilterRel, endpoint: byte, s: State, es: seq<Event>)
    requires WriterRuns(s) && Possible(n, rel, endpoint, s, es) && NoWriterStop(es)
    ensures WriterRuns(Run(n, rel, endpoint, s, es))
    decreases |es|
  {
    if es != [] {
      RunKeepsRunning(n, rel, endpoint, Apply(n, rel, endpoint, s, es[0]), es[1..]);
    }
  }

  lemma RankBound(n: nat, s: State, i: nat)
    ensures Rank(n, s, Queued(i)) <= Cost(n, i + 1)
  {}

  /**
   A packet at position i of the queue: in every continuation without a stop of the writer, either it has been
   sent or withheld, or the writer with its n filters has taken at most `Cost(n, i + 1)` = (n + 5)(i + 2) steps, and two
   more for each time-out; and then it is in the queue or in the writer's hand, so the writer is not blocked.
   */
  lemma PacketsAreHandled(n: nat, rel: FilterRel, endpoint: byte, s: State, before: seq<Event>, after: seq<Event>,
                          i: nat)
    requires Init(s) && NoWriterStop(before) && NoWriterStop(after)
    requires Possible(n, rel, endpoint, s, before)
    requires Possible(n, rel, endpoint, Run(n, rel, endpoint, s, before), after)
    requires var q := Run(n, rel, endpoint, s, before).queue; i < |q| && q[i].Some?
    ensures var s1 := Run(n, rel, endpoint, s, before);
            var s2 := Run(n, rel, endpoint, s1, after);
            || At(s2, s1.queue[i].value.id, Handled)
            || (&& WriterSteps(after) <= Cost(n, i + 1) + 2 * TimeOuts(n, rel, endpoint, s1, after)
                && (s2.writer.pc == AwaitPacket ==> s2.queue != []))
  {
    hide Inv, Apply, Enabled, Rank;
    InitInv(n, rel, s);
    RunKeepsInv(n, rel, endpoint, s, before);
    RunKeepsRunning(n, rel, endpoint, s, before);
    var s1 := Run(n, rel, endpoint, s, before);
    ShapeOf(n, rel, s1);
    var spot := HandledSoon(n, rel, endpoint, s1, after, s1.queue[i].value.id, Queued(i));
    RankBound(n, s1, i);
    if spot == InHand {
      RunKeepsInv(n, rel, endpoint, s1, after);
      ShapeOf(n, rel, Run(n, rel, endpoint, s1, after));
    }
  }

  lemma ShapeOf(n: nat, rel: FilterRel, s: State)
    requires Inv(n, rel, s)
    ensures Shape(n, s)
  {}

  lemma {:induction false} CostIs(n: nat, i: nat)
    ensures Cost(n, i) == (n + 5) * (i + 1)
  {
    if i > 0 {
      CostIs(n, i - 1);
      assert (n + 5) * (i + 1) == (n + 5) * i + (n + 5);
    }
  }

  // ----- The reader -----

  /** How often the reader asks for data. */
  function Receptions(n: nat, rel: FilterRel, endpoint: byte, s: State, es: seq<Event>): nat
    requires Possible(n, rel, endpoint, s, es)
    decreases |es|
  {
    if es == [] then 0
    else One(es[0].ReaderStep? && s.reader.pc == Receive)
         + Receptions(n, rel, endpoint, Apply(n, rel, endpoint, s, es[0]), es[1..])
  }

  /** Steps to the next reception. */
  function Away(pc: ReaderPc): nat {
    match pc case Receive => 0 case ReaderTop => 1 case _ => 2
  }

  predicate NoReaderStop(es: seq<Event>) {
    forall k :: 0 <= k < |es| ==> !es[k].StopReader?
  }

  lemma {:induction false} ReceptionsFollow(n: nat, rel: FilterRel, endpoint: byte, s: State, es: seq<Event>)
    requires !s.reader.stop && s.reader.pc != ReaderExit && s.reader.pc != ReaderDone
    requires Possible(n, rel, endpoint, s, es) && NoReaderStop(es)
    ensures ReaderSteps(es) + Away(Run(n, rel, endpoint, s, es).reader.pc)
            <= Away(s.reader.pc) + 3 * Receptions(n, rel, endpoint, s, es)
    decreases |es|
  {
    if es != [] {
      ReceptionsFollow(n, rel, endpoint, Apply(n, rel, endpoint, s, es[0]), es[1..]);
    }
  }

  /** In every run without a stop of the reader, it asks for data in at least every third of its steps. */
  lemma ReaderKeepsReceiving(n: nat, rel: FilterRel, endpoint: byte, s: State, es: seq<Event>)
    requires Init(s) && Possible(n, rel, endpoint, s, es) && NoReaderStop(es)
    ensures ReaderSteps(es) <= 3 * Receptions(n, rel, endpoint, s, es) + 1
  {
    ReceptionsFollow(n, rel, endpoint, s, es);
  }
}
