/** Every request that is not given up is answered within a bounded number of steps of the two threads. */
module Ep0Progress {
  import opened Common
  import opened Ep0Machine
  import opened Ep0Flow
  import opened Ep0Losses

  /** The host waits for its answer. */
  predicate Waiting(s: State) {
    |s.trace.answers| < |s.trace.requests|
  }

  /** Steps the reader can take before it answers, null tokens aside. */
  function ReaderWork(r: Reader): nat {
    match r.pc
    case SendRequest => 5
    case ReplyTaken => if r.p == None then 5 else 2
    case ReaderTop => 4
    case AwaitReply => 3
    case AnswerHost => 1
    case _ => 0
  }

  /** Steps the writer can take with what it has in hand. */
  function WriterWork(n: nat, w: Writer): nat {
    var left := if w.j < n then n - w.j else 0;
    match w.pc
    case RequestTaken => if w.p == None then 2 else 2 * n + 8
    case FilterOut => n + left + 7
    case AskDevice => n + 6
    case FilterIn => left + 3
    case SendReply => 2
    case WriterTop => 1
    case _ => 0
  }

  /** Steps the writer will take for a packet it has yet to receive. */
  function Ahead(n: nat, place: Place): nat {
    if place.AtReader? || place.InRequestQueue? then 2 * n + 9 else 0
  }

  /** Each null token costs a thread three steps. */
  function Tokens(place: Place, s: State): int {
    |s.readerSend| - One(place.InRequestQueue?) + |s.writerSend| - One(place.InReplyQueue?)
  }

  function Rank(n: nat, place: Place, s: State): int {
    ReaderWork(s.reader) + WriterWork(n, s.writer) + Ahead(n, place) + 3 * Tokens(place, s)
  }

  lemma RankIsNatural(n: nat, place: Place, s: State)
    requires Inv(n, place, s)
    ensures Rank(n, place, s) >= 0
  {}

  lemma ReaderWorks(n: nat, place: Place, place': Place, s: State, e: Event)
    requires Inv(n, place, s) && Enabled(n, s, e) && e.ReaderStep? && Inv(n, place', Apply(n, s, e))
    requires Unstopped(s) && Waiting(s) && Waiting(Apply(n, s, e))
    requires s.trace.gone == [] && Apply(n, s, e).trace.gone == []
    ensures Unstopped(Apply(n, s, e)) && Rank(n, place', Apply(n, s, e)) < Rank(n, place, s)
  {
    hide WriterNext, InOrder;
  }

  lemma WriterWorks(n: nat, place: Place, place': Place, s: State, e: Event)
    requires n <= MAX_FILTERS
    requires Inv(n, place, s) && Enabled(n, s, e) && e.WriterStep? && Inv(n, place', Apply(n, s, e))
    requires Unstopped(s) && Waiting(s)
    requires s.trace.gone == [] && Apply(n, s, e).trace.gone == []
    ensures Unstopped(Apply(n, s, e)) && Rank(n, place', Apply(n, s, e)) < Rank(n, place, s)
  {
    hide WriterNext, Inv;
    if s.writer.pc == FilterOut || s.writer.pc == FilterIn {
      WriterFiltersOn(n, place, place', s, e);
    } else {
      WriterMovesOn(n, place, place', s, e);
    }
  }

  lemma WriterFiltersOn(n: nat, place: Place, place': Place, s: State, e: Event)
    requires n <= MAX_FILTERS
    requires Inv(n, place, s) && Enabled(n, s, e) && e.WriterStep? && Inv(n, place', Apply(n, s, e))
    requires s.writer.pc == FilterOut || s.writer.pc == FilterIn
    requires Unstopped(s) && Waiting(s)
    requires s.trace.gone == [] && Apply(n, s, e).trace.gone == []
    ensures Unstopped(Apply(n, s, e)) && Rank(n, place', Apply(n, s, e)) < Rank(n, place, s)
  {
    hide ReaderNext, InOrder, HoldsAt, Vacant;
  }

  lemma WriterMovesOn(n: nat, place: Place, place': Place, s: State, e: Event)
    requires n <= MAX_FILTERS
    requires Inv(n, place, s) && Enabled(n, s, e) && e.WriterStep? && Inv(n, place', Apply(n, s, e))
    requires s.writer.pc != FilterOut && s.writer.pc != FilterIn
    requires Unstopped(s) && Waiting(s)
    requires s.trace.gone == [] && Apply(n, s, e).trace.gone == []
    ensures Unstopped(Apply(n, s, e)) && Rank(n, place', Apply(n, s, e)) < Rank(n, place, s)
  {
    hide ReaderNext, InOrder;
  }

  // ----- Runs -----

  lemma StepGrows(n: nat, s: State, e: Event)
    requires Enabled(n, s, e)
    ensures |s.trace.answers| <= |Apply(n, s, e).trace.answers| && |s.trace.requests| <= |Apply(n, s, e).trace.requests|
  {}

  lemma {:induction false} RunGrows(n: nat, s: State, es: seq<Event>)
    requires Possible(n, s, es)
    ensures |s.trace.answers| <= |Run(n, s, es).trace.answers|
    decreases |es|
  {
    hide Apply, Enabled;
    if es != [] {
      StepGrows(n, s, es[0]);
      RunGrows(n, Apply(n, s, es[0]), es[1..]);
    }
  }

  /** One step of a run in which the host is kept waiting. */
  lemma WaitingStep(n: nat, place: Place, s: State, e: Event) returns (place': Place)
    requires n <= MAX_FILTERS
    requires Inv(n, place, s) && Enabled(n, s, e) && !IsStop(e) && Unstopped(s) && Waiting(s) && s.trace.gone == []
    requires Apply(n, s, e).trace.gone == [] && |Apply(n, s, e).trace.answers| == |s.trace.answers|
    ensures Inv(n, place', Apply(n, s, e)) && Unstopped(Apply(n, s, e)) && Waiting(Apply(n, s, e))
    ensures Rank(n, place', Apply(n, s, e)) < Rank(n, place, s)
  {
    hide Apply, Inv, Rank, Unstopped, Enabled;
    place' := StepKeepsInv(n, place, s, e);
    StepGrows(n, s, e);
    if e.ReaderStep? {
      ReaderWorks(n, place, place', s, e);
    } else {
      WriterWorks(n, place, place', s, e);
    }
  }

  lemma {:induction false} WaitingIsShort(n: nat, place: Place, s: State, es: seq<Event>)
    requires n <= MAX_FILTERS
    requires Inv(n, place, s) && Possible(n, s, es) && NoStops(es) && Unstopped(s) && Waiting(s)
    requires Run(n, s, es).trace.gone == [] && |Run(n, s, es).trace.answers| == |s.trace.answers|
    ensures |es| <= Rank(n, place, s)
    decreases |es|
  {
    hide Apply, Inv, Rank, Unstopped, Enabled, Waiting;
    if es == [] {
      RankIsNatural(n, place, s);
    } else {
      var s' := Apply(n, s, es[0]);
      var any := StepKeepsInv(n, place, s, es[0]);
      if s.trace.gone != [] {
        GoneIsForGood(n, place, s, es);
      }
      if s'.trace.gone != [] {
        GoneIsForGood(n, any, s', es[1..]);
      }
      StepGrows(n, s, es[0]);
      RunGrows(n, s', es[1..]);
      var place' := WaitingStep(n, place, s, es[0]);
      WaitingIsShort(n, place', s', es[1..]);
    }
  }

  lemma RankBound(n: nat, place: Place, s: State)
    requires Inv(n, place, s)
    ensures Rank(n, place, s) <= 2 * n + 16 + 3 * (|s.readerSend| + |s.writerSend|)
  {}

  /**
   With n filters, no stop request, room for two elements in each queue to start with and no filter that
   withholds a packet: whenever the host waits for an answer, the two threads together take at most
   2n + 16 steps, and three for each element in the queues, before they give it; and until then one of
   them can step.
   */
  lemma RequestsAreAnswered(n: nat, s: State, before: seq<Event>, after: seq<Event>) returns (next: Event)
    requires n <= MAX_FILTERS
    requires Init(s) && RoomForTwo(s) && NoStops(before) && NoStops(after)
    requires Possible(n, s, before) && Possible(n, Run(n, s, before), after)
    requires Possible(n, s, before + after) && !WithholdsIn(n, s, before + after)
    requires var s1 := Run(n, s, before);
             Waiting(s1) && |Run(n, s1, after).trace.answers| == |s1.trace.answers|
    ensures var s1 := Run(n, s, before);
            |after| <= 2 * n + 16 + 3 * (|s1.readerSend| + |s1.writerSend|)
    ensures !IsStop(next) && Enabled(n, Run(n, Run(n, s, before), after), next)
  {
    hide Inv, Rank, Apply, Enabled, Unstopped, Waiting;
    var s1 := Run(n, s, before);
    InitInv(n, s);
    RunAppend(n, s, before, after);
    GivenUpExactly(n, s, before + after);
    Unhurt(n, s, before, after);
    var place := RunKeepsInv(n, Nowhere, s, before);
    WaitingIsShort(n, place, s1, after);
    RankBound(n, place, s1);
    var last := RunKeepsInv(n, place, s1, after);
    next := SomeStep(n, last, Run(n, s1, after));
  }

  /** Both threads are still running, before `after` and at its end. */
  lemma Unhurt(n: nat, s: State, before: seq<Event>, after: seq<Event>)
    requires Init(s) && RoomForTwo(s) && NoStops(before) && NoStops(after)
    requires Possible(n, s, before) && Possible(n, Run(n, s, before), after)
    requires Possible(n, s, before + after) && !WithholdsIn(n, s, before + after)
    ensures Unstopped(Run(n, s, before)) && Unstopped(Run(n, Run(n, s, before), after))
  {
    hide Inv, Apply, Enabled, Withholds;
    InitInv(n, s);
    assert Unstopped(s) && Roomy(Nowhere, s);
    RunAppend(n, s, before, after);
    WithholdsInPart(n, s, before, after);
    LostExactly(n, Nowhere, s, before);
    LostExactly(n, Nowhere, s, before + after);
  }

  lemma {:induction false} WithholdsInPart(n: nat, s: State, a: seq<Event>, b: seq<Event>)
    requires Possible(n, s, a) && Possible(n, s, a + b)
    ensures WithholdsIn(n, s, a) ==> WithholdsIn(n, s, a + b)
    decreases |a|
  {
    hide Apply, Enabled, Withholds;
    if a != [] {
      assert (a + b)[0] == a[0] && (a + b)[1..] == a[1..] + b;
      WithholdsInPart(n, Apply(n, s, a[0]), a[1..], b);
    }
  }

  lemma SomeStep(n: nat, place: Place, s: State) returns (e: Event)
    requires Inv(n, place, s) && s.trace.gone == [] && Unstopped(s)
    ensures !IsStop(e) && Enabled(n, s, e)
  {
    e := NeverBothBlocked(n, place, s);
  }
}
