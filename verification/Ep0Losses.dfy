/** Exactly when EP0 gives up a request for good. */
module Ep0Losses {
  import opened Common
  import opened SafeQueues
  import opened Ep0Machine
  import opened Ep0Flow

  // ----- One step -----

  /** The packet has passed its filters on the way out, and one of them left `transmitOut` cleared. */
  predicate Withholds(n: nat, s: State, e: Event) {
    && e.WriterStep? && s.writer.pc == FilterOut && s.writer.p.Some?
    && !(s.writer.j < n && s.writer.p.value.filterOut) && !s.writer.p.value.transmitOut
  }

  /** Neither thread has been asked to stop. */
  predicate Unstopped(s: State) {
    && s.readerStop == NotAsked && s.writerStop == NotAsked && !s.reader.stop && !s.writer.stop
    && s.reader.pc != ReaderExit && s.reader.pc != ReaderDone
    && s.writer.pc != WriterExit && s.writer.pc != WriterDone
  }

  /** A writer step at the end of the way out gives the packet up if and only if `transmitOut` is cleared. */
  lemma LossAtFilterOut(n: nat, s: State, e: Event)
    requires e.WriterStep? && Enabled(n, s, e) && s.writer.pc == FilterOut && s.trace.gone == []
    ensures Apply(n, s, e).trace.gone != [] <==> Withholds(n, s, e)
    ensures Withholds(n, s, e) ==> Apply(n, s, e).trace.gone == [Gone(s.writer.p.value.serial, Withheld)]
  {}

  lemma ReaderLosesNothing(n: nat, place: Place, s: State, e: Event)
    requires Inv(n, place, s) && Enabled(n, s, e) && e.ReaderStep?
    requires Unstopped(s) && Roomy(place, s) && s.trace.gone == []
    ensures Unstopped(Apply(n, s, e)) && Apply(n, s, e).trace.gone == []
  {
    hide WriterNext, InOrder;
  }

  lemma WriterLosesOnlyWithheld(n: nat, place: Place, s: State, e: Event)
    requires Inv(n, place, s) && Enabled(n, s, e) && e.WriterStep?
    requires Unstopped(s) && Roomy(place, s) && s.trace.gone == []
    ensures Unstopped(Apply(n, s, e))
    ensures Apply(n, s, e).trace.gone != [] <==> Withholds(n, s, e)
    ensures forall g :: g in Apply(n, s, e).trace.gone ==> g.why == Withheld
  {
    hide ReaderNext, InOrder;
  }

  // ----- Runs -----

  predicate NoStops(es: seq<Event>) {
    forall i :: 0 <= i < |es| ==> !IsStop(es[i])
  }

  /** Some packet of the run ends its way out with `transmitOut` cleared. */
  predicate WithholdsIn(n: nat, s: State, es: seq<Event>)
    requires Possible(n, s, es)
    decreases |es|
  {
    es != [] && (Withholds(n, s, es[0]) || WithholdsIn(n, Apply(n, s, es[0]), es[1..]))
  }

  lemma {:induction false} GoneIsForGood(n: nat, place: Place, s: State, es: seq<Event>)
    requires Inv(n, place, s) && Possible(n, s, es) && s.trace.gone != []
    ensures Run(n, s, es).trace.gone == s.trace.gone
    decreases |es|
  {
    if es != [] {
      GoneStaysGone(n, place, s, es[0]);
      var place' := StepKeepsInv(n, place, s, es[0]);
      GoneIsForGood(n, place', Apply(n, s, es[0]), es[1..]);
    }
  }

  lemma {:induction false} LostExactly(n: nat, place: Place, s: State, es: seq<Event>)
    requires Inv(n, place, s) && Possible(n, s, es) && NoStops(es)
    requires Unstopped(s) && Roomy(place, s) && s.trace.gone == []
    ensures Run(n, s, es).trace.gone != [] <==> WithholdsIn(n, s, es)
    ensures forall g :: g in Run(n, s, es).trace.gone ==> g.why == Withheld
    ensures !WithholdsIn(n, s, es) ==> Unstopped(Run(n, s, es))
    decreases |es|
  {
    hide Inv, Roomy, Withholds, Apply, Enabled;
    if es != [] {
      var s' := Apply(n, s, es[0]);
      NothingIsDeliberate(s.trace);
      var place' := StepKeepsRoom(n, place, s, es[0]);
      if es[0].WriterStep? {
        WriterLosesOnlyWithheld(n, place, s, es[0]);
      } else {
        assert es[0].ReaderStep? by { assert !IsStop(es[0]); }
        ReaderLosesNothing(n, place, s, es[0]);
        assert !Withholds(n, s, es[0]) by { NotAWriter(n, s, es[0]); }
      }
      if s'.trace.gone == [] {
        LostExactly(n, place', s', es[1..]);
      } else {
        GoneIsForGood(n, place', s', es[1..]);
      }
    }
  }

  lemma NothingIsDeliberate(t: Trace)
    requires t.gone == []
    ensures LossIsDeliberate(t)
  {}

  lemma NotAWriter(n: nat, s: State, e: Event)
    requires !e.WriterStep?
    ensures !Withholds(n, s, e)
  {}

  predicate RoomForTwo(s: State) {
    |s.readerSend| <= QUEUE_MAX - 2 && |s.writerSend| <= QUEUE_MAX - 2
  }

  /**
   In a run without stop requests that starts with room for two elements in each queue, a request is
   given up if and only if a packet ended its way out with `transmitOut` cleared by a filter.
   */
  lemma GivenUpExactly(n: nat, s: State, es: seq<Event>)
    requires Init(s) && Possible(n, s, es) && NoStops(es) && RoomForTwo(s)
    ensures Run(n, s, es).trace.gone != [] <==> WithholdsIn(n, s, es)
    ensures forall g :: g in Run(n, s, es).trace.gone ==> g.why == Withheld
  {
    InitInv(n, s);
    LostExactly(n, Nowhere, s, es);
  }

  /**
   From then on EP0 is stuck, also if it is asked to stop: nothing is taken, asked or answered in any
   continuation.
   */
  lemma WithholdingWedgesEp0(n: nat, s: State, es: seq<Event>, after: seq<Event>)
    requires Init(s) && Possible(n, s, es) && NoStops(es) && RoomForTwo(s) && WithholdsIn(n, s, es)
    requires Possible(n, Run(n, s, es), after)
    ensures var t := Run(n, s, es).trace;
            Run(n, Run(n, s, es), after).trace == t && |t.answers| == |t.requests| - 1
  {
    InitInv(n, s);
    GivenUpExactly(n, s, es);
    var place := RunKeepsInv(n, Nowhere, s, es);
    GivingUpWedgesEp0(n, place, Run(n, s, es), after);
  }

  // ----- A filter that does it -----

  /** Host and writer up to the point where the only filter is about to see the first request. */
  function ToTheFilter(r: Request): seq<Event> {
    [ReaderStep(Quiet), ReaderStep(Arrives(r)), ReaderStep(Quiet),
     WriterStep(Idle), WriterStep(Idle), WriterStep(Idle)]
  }

  function Opening(): State {
    State(Reader(ReaderTop, true, None, false), Writer(WriterTop, None, 0, 0, false), [], [], NotAsked, NotAsked,
          Trace([], [], [], [], []))
  }

  /** The state when the first filter is about to see the request. */
  function AtTheFilter(r: Request): State {
    var p := Some(NewPacket(0, r));
    State(Reader(ReaderTop, false, None, false), Writer(FilterOut, p, 0, 0, false), [], [], NotAsked, NotAsked,
          Trace([r], [], [], [], []))
  }

  lemma ReachesTheFilter(n: nat, r: Request)
    ensures Init(Opening()) && Possible(n, Opening(), ToTheFilter(r))
    ensures Run(n, Opening(), ToTheFilter(r)) == AtTheFilter(r)
  {
    hide Apply, Enabled, Queued, AtTheFilter;
    var a, b := [ReaderStep(Quiet), ReaderStep(Arrives(r)), ReaderStep(Quiet)],
      [WriterStep(Idle), WriterStep(Idle), WriterStep(Idle)];
    TheReaderSends(n, r);
    TheWriterTakes(n, r);
    RunAppend(n, Opening(), a, b);
    assert ToTheFilter(r) == a + b;
  }

  function Queued(r: Request): State {
    var p := Some(NewPacket(0, r));
    State(Reader(ReaderTop, false, None, false), Writer(WriterTop, None, 0, 0, false), [p], [], NotAsked, NotAsked,
          Trace([r], [], [], [], []))
  }

  lemma TheReaderSends(n: nat, r: Request)
    ensures var es := [ReaderStep(Quiet), ReaderStep(Arrives(r)), ReaderStep(Quiet)];
            Possible(n, Opening(), es) && Run(n, Opening(), es) == Queued(r)
  {
    var es := [ReaderStep(Quiet), ReaderStep(Arrives(r)), ReaderStep(Quiet)];
    var s1 := Apply(n, Opening(), es[0]);
    var s2 := Apply(n, s1, es[1]);
    var s3 := Apply(n, s2, es[2]);
    assert s3 == Queued(r) && es[1..][1..][1..] == [];
    RunOf(n, s2, es[2..], s3);
    RunOf(n, s1, es[1..], s3);
    RunOf(n, Opening(), es, s3);
  }

  lemma TheWriterTakes(n: nat, r: Request)
    ensures var es := [WriterStep(Idle), WriterStep(Idle), WriterStep(Idle)];
            Possible(n, Queued(r), es) && Run(n, Queued(r), es) == AtTheFilter(r)
  {
    var es := [WriterStep(Idle), WriterStep(Idle), WriterStep(Idle)];
    var s1 := Apply(n, Queued(r), es[0]);
    var s2 := Apply(n, s1, es[1]);
    var s3 := Apply(n, s2, es[2]);
    assert s3 == AtTheFilter(r) && es[1..][1..][1..] == [];
    RunOf(n, s2, es[2..], s3);
    RunOf(n, s1, es[1..], s3);
    RunOf(n, Queued(r), es, s3);
  }

  lemma RunOf(n: nat, s: State, es: seq<Event>, end: State)
    requires es != [] && Enabled(n, s, es[0])
    requires Possible(n, Apply(n, s, es[0]), es[1..]) && Run(n, Apply(n, s, es[0]), es[1..]) == end
    ensures Possible(n, s, es) && Run(n, s, es) == end
  {}

  lemma {:induction false} RunAppend(n: nat, s: State, a: seq<Event>, b: seq<Event>)
    requires Possible(n, s, a) && Possible(n, Run(n, s, a), b)
    ensures Possible(n, s, a + b) && Run(n, s, a + b) == Run(n, Run(n, s, a), b)
    decreases |a|
  {
    if a == [] {
      assert a + b == b;
    } else {
      assert (a + b)[0] == a[0] && (a + b)[1..] == a[1..] + b;
      RunAppend(n, Apply(n, s, a[0]), a[1..], b);
    }
  }

  /** A filter that clears `transmitOut` of the first request: after eight steps the request is gone. */
  lemma AFilterWithholds(r: Request)
    ensures var es := ToTheFilter(r) + [WriterStep(Filtered(NewPacket(0, r).(transmitOut := false))), WriterStep(Idle)];
            && Init(Opening()) && Possible(1, Opening(), es)
            && Run(1, Opening(), es).trace.gone == [Gone(0, Withheld)]
            && Run(1, Opening(), es).trace.answers == []
  {
    var q := NewPacket(0, r).(transmitOut := false);
    var last := [WriterStep(Filtered(q)), WriterStep(Idle)];
    ReachesTheFilter(1, r);
    var s1 := Apply(1, AtTheFilter(r), last[0]);
    var s2 := Apply(1, s1, last[1]);
    assert last[1..][1..] == [] && last[1..][0] == last[1];
    RunOf(1, s1, last[1..], s2);
    RunOf(1, AtTheFilter(r), last, s2);
    RunAppend(1, Opening(), ToTheFilter(r), last);
  }

  // ----- Too many filters -----

  /** Filters that leave the packet as it is, one step after the other. */
  function Passing(p: SetupPacket, m: nat): seq<Event> {
    if m == 0 then [] else [WriterStep(Filtered(p))] + Passing(p, m - 1)
  }

  lemma {:induction false} LoopGoesOn(n: nat, s: State, m: nat)
    requires n > MAX_FILTERS && s.writer.pc == FilterOut && s.writer.p.Some? && s.writer.p.value.filterOut
    ensures var es := Passing(s.writer.p.value, m);
            Possible(n, s, es) && Run(n, s, es).writer.pc == FilterOut && Run(n, s, es).trace == s.trace
    decreases m
  {
    if m > 0 {
      var es := Passing(s.writer.p.value, m);
      var s' := Apply(n, s, es[0]);
      assert es[1..] == Passing(s.writer.p.value, m - 1) && s'.writer.p == s.writer.p;
      LoopGoesOn(n, s', m - 1);
    }
  }

  /** With more than 255 filters there is a run in which the first request is filtered for ever and never answered. */
  lemma TooManyFilters(n: nat, r: Request, m: nat)
    requires n > MAX_FILTERS
    ensures var es := ToTheFilter(r) + Passing(NewPacket(0, r), m);
            && Init(Opening()) && Possible(n, Opening(), es) && |es| == 6 + m
            && Run(n, Opening(), es).trace == Trace([r], [], [], [], [])
  {
    hide Apply, Enabled;
    ReachesTheFilter(n, r);
    LoopGoesOn(n, AtTheFilter(r), m);
    RunAppend(n, Opening(), ToTheFilter(r), Passing(NewPacket(0, r), m));
    PassingLength(NewPacket(0, r), m);
  }

  lemma {:induction false} PassingLength(p: SetupPacket, m: nat)
    ensures |Passing(p, m)| == m
  {
    if m > 0 {
      PassingLength(p, m - 1);
    }
  }
}
