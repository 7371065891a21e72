/** `please_stop` cannot leave an EP0 thread hanging on its queue, even when the token was dropped. */
module Ep0Shutdown {
  import opened Common
  import opened SafeQueues
  import opened Ep0Machine
  import opened Ep0Flow

  /** A raised flag stays up until the thread is gone, and after the second step no dequeue can block. */
  predicate StopInv(s: State) {
    && (s.readerStop != NotAsked ==> s.reader.stop || s.reader.pc == ReaderDone)
    && (s.writerStop != NotAsked ==> s.writer.stop || s.writer.pc == WriterDone)
    && (s.readerStop == TokenSent && s.reader.pc == AwaitReply ==> s.writerSend != [])
    && (s.writerStop == TokenSent && s.writer.pc == AwaitRequest ==> s.readerSend != [])
  }

  /** Steps a stopping reader can still take. */
  function ReaderRank(pc: ReaderPc): nat {
    match pc
    case AwaitReply => 6
    case ReplyTaken => 5
    case AnswerHost => 4
    case Fetch => 4
    case WaitComplete => 3
    case SendRequest => 3
    case ReaderTop => 2
    case ReaderExit => 1
    case ReaderDone => 0
  }

  /** Steps a stopping writer with `n` filters can still take. */
  function WriterRank(n: nat, w: Writer): nat {
    var left := if w.j < n then n - w.j else 0;
    match w.pc
    case AwaitRequest => 2 * n + 8
    case RequestTaken => 2 * n + 7
    case FilterOut => n + left + 6
    case AskDevice => n + 5
    case FilterIn => left + 4
    case SendReply => 3
    case WriterTop => 2
    case WriterExit => 1
    case WriterDone => 0
  }

  lemma StepKeepsStop(n: nat, s: State, e: Event)
    requires StopInv(s) && Enabled(n, s, e)
    ensures StopInv(Apply(n, s, e))
    ensures s.readerStop == TokenSent ==> Apply(n, s, e).readerStop == TokenSent
    ensures s.writerStop == TokenSent ==> Apply(n, s, e).writerStop == TokenSent
  {}

  lemma ReaderRankDrops(n: nat, s: State, e: Event)
    requires StopInv(s) && s.readerStop == TokenSent && Enabled(n, s, e)
    ensures ReaderRank(Apply(n, s, e).reader.pc) + One(e.ReaderStep?) <= ReaderRank(s.reader.pc)
    ensures Apply(n, s, e).reader.pc == AwaitReply ==> !e.ReaderStep? && s.reader.pc == AwaitReply
  {}

  lemma WriterRankDrops(n: nat, s: State, e: Event)
    requires n <= MAX_FILTERS
    requires StopInv(s) && s.writerStop == TokenSent && Enabled(n, s, e)
    ensures WriterRank(n, Apply(n, s, e).writer) + One(e.WriterStep?) <= WriterRank(n, s.writer)
    ensures Apply(n, s, e).writer.pc == AwaitRequest ==> !e.WriterStep? && s.writer.pc == AwaitRequest
  {}

  /** How many of the events are steps of the reader, and how many of those dequeue. */
  function ReaderSteps(es: seq<Event>): nat {
    if es == [] then 0 else One(es[0].ReaderStep?) + ReaderSteps(es[1..])
  }

  function ReaderDequeues(n: nat, s: State, es: seq<Event>): nat
    requires Possible(n, s, es)
    decreases |es|
  {
    if es == [] then 0
    else One(es[0].ReaderStep? && s.reader.pc == AwaitReply) + ReaderDequeues(n, Apply(n, s, es[0]), es[1..])
  }

  function WriterSteps(es: seq<Event>): nat {
    if es == [] then 0 else One(es[0].WriterStep?) + WriterSteps(es[1..])
  }

  function WriterDequeues(n: nat, s: State, es: seq<Event>): nat
    requires Possible(n, s, es)
    decreases |es|
  {
    if es == [] then 0
    else One(es[0].WriterStep? && s.writer.pc == AwaitRequest) + WriterDequeues(n, Apply(n, s, es[0]), es[1..])
  }

  lemma {:induction false} RunKeepsStop(n: nat, s: State, es: seq<Event>)
    requires StopInv(s) && Possible(n, s, es)
    ensures StopInv(Run(n, s, es))
    decreases |es|
  {
    if es != [] {
      StepKeepsStop(n, s, es[0]);
      RunKeepsStop(n, Apply(n, s, es[0]), es[1..]);
    }
  }

  lemma {:induction false} ReaderRunsOut(n: nat, s: State, es: seq<Event>)
    requires StopInv(s) && s.readerStop == TokenSent && Possible(n, s, es)
    ensures StopInv(Run(n, s, es)) && Run(n, s, es).readerStop == TokenSent
    ensures ReaderRank(Run(n, s, es).reader.pc) + ReaderSteps(es) <= ReaderRank(s.reader.pc)
    ensures ReaderDequeues(n, s, es) <= One(s.reader.pc == AwaitReply)
    decreases |es|
  {
    if es != [] {
      StepKeepsStop(n, s, es[0]);
      ReaderRankDrops(n, s, es[0]);
      ReaderRunsOut(n, Apply(n, s, es[0]), es[1..]);
    }
  }

  lemma {:induction false} WriterRunsOut(n: nat, s: State, es: seq<Event>)
    requires n <= MAX_FILTERS
    requires StopInv(s) && s.writerStop == TokenSent && Possible(n, s, es)
    ensures StopInv(Run(n, s, es)) && Run(n, s, es).writerStop == TokenSent
    ensures WriterRank(n, Run(n, s, es).writer) + WriterSteps(es) <= WriterRank(n, s.writer)
    ensures WriterDequeues(n, s, es) <= One(s.writer.pc == AwaitRequest)
    decreases |es|
  {
    if es != [] {
      StepKeepsStop(n, s, es[0]);
      WriterRankDrops(n, s, es[0]);
      WriterRunsOut(n, Apply(n, s, es[0]), es[1..]);
    }
  }

  /**
   After both steps of the reader's `please_stop` the reader takes at most six more steps, at most
   one of them a dequeue, and until it has finished it is never blocked; whatever else happens in
   between and whether or not the token found room.
   */
  lemma ReaderStopsPromptly(n: nat, s: State, before: seq<Event>, after: seq<Event>)
    requires Init(s) && Possible(n, s, before)
    requires Run(n, s, before).readerStop == TokenSent && Possible(n, Run(n, s, before), after)
    ensures ReaderSteps(after) <= 6 && ReaderDequeues(n, Run(n, s, before), after) <= 1
    ensures var s' := Run(n, Run(n, s, before), after);
            s'.reader.pc == ReaderDone || ReaderEnabled(s'.reader, s'.writerSend)
  {
    RunKeepsStop(n, s, before);
    ReaderRunsOut(n, Run(n, s, before), after);
  }

  /** The same for the writer with `n` filters; its steps include those of both filter loops. */
  lemma WriterStopsPromptly(n: nat, s: State, before: seq<Event>, after: seq<Event>)
    requires n <= MAX_FILTERS
    requires Init(s) && Possible(n, s, before)
    requires Run(n, s, before).writerStop == TokenSent && Possible(n, Run(n, s, before), after)
    ensures WriterSteps(after) <= 2 * n + 8 && WriterDequeues(n, Run(n, s, before), after) <= 1
    ensures var s' := Run(n, Run(n, s, before), after);
            s'.writer.pc == WriterDone || exists input :: WriterEnabled(n, s'.writer, s'.readerSend, input)
  {
    RunKeepsStop(n, s, before);
    WriterRunsOut(n, Run(n, s, before), after);
    InitInv(n, s);
    var place := RunKeepsInv(n, Nowhere, s, before);
    place := RunKeepsInv(n, place, Run(n, s, before), after);
    if Run(n, Run(n, s, before), after).writer.pc != WriterDone {
      var input := WriterNotBlocked(n, place, Run(n, Run(n, s, before), after));
    }
  }

  // ----- Only then -----

  /** A thread that was not asked to stop goes on; one that has finished leaves its flag cleared. */
  predicate RunsUntilAsked(s: State) {
    && (s.readerStop == NotAsked ==> !s.reader.stop && s.reader.pc != ReaderExit && s.reader.pc != ReaderDone)
    && (s.writerStop == NotAsked ==> !s.writer.stop && s.writer.pc != WriterExit && s.writer.pc != WriterDone)
    && (s.reader.pc == ReaderDone ==> !s.reader.stop) && (s.writer.pc == WriterDone ==> !s.writer.stop)
  }

  lemma StepRunsUntilAsked(n: nat, s: State, e: Event)
    requires RunsUntilAsked(s) && Enabled(n, s, e)
    ensures RunsUntilAsked(Apply(n, s, e))
  {}

  lemma {:induction false} EndsOnlyIfAsked(n: nat, s: State, es: seq<Event>)
    requires RunsUntilAsked(s) && Possible(n, s, es)
    ensures RunsUntilAsked(Run(n, s, es))
    decreases |es|
  {
    hide Apply, Enabled, RunsUntilAsked;
    if es != [] {
      StepRunsUntilAsked(n, s, es[0]);
      EndsOnlyIfAsked(n, Apply(n, s, es[0]), es[1..]);
    }
  }

  /** In every run: an EP0 thread ends only after it was asked to, and then its flag is cleared. */
  lemma Ep0ThreadsRunUntilAsked(n: nat, s: State, es: seq<Event>)
    requires Init(s) && Possible(n, s, es)
    ensures var s' := Run(n, s, es);
            && (s'.reader.pc == ReaderExit || s'.reader.pc == ReaderDone ==> s'.readerStop != NotAsked)
            && (s'.writer.pc == WriterExit || s'.writer.pc == WriterDone ==> s'.writerStop != NotAsked)
            && (s'.reader.pc == ReaderDone ==> !s'.reader.stop) && (s'.writer.pc == WriterDone ==> !s'.writer.stop)
  {
    EndsOnlyIfAsked(n, s, es);
  }
}
