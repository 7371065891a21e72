/** `please_stop` cannot leave a data thread hanging on its queue, even when the token was dropped. */
module DataShutdown {
  import opened Common
  import opened SafeQueues
  import opened Packets
  import opened DataMachine

  predicate ReaderStopping(s: State) {
    s.readerStop != NotAsked ==> s.reader.stop || s.reader.pc == ReaderDone
  }

  predicate WriterStopping(n: nat, s: State) {
    && (s.writerStop != NotAsked ==> s.writer.stop || s.writer.pc == WriterDone)
    && (s.writerStop == TokenSent && s.writer.pc == AwaitPacket ==> s.queue != [])
    && |s.writer.trail| <= n + 1
  }

  predicate StopInv(n: nat, s: State) {
    ReaderStopping(s) && WriterStopping(n, s)
  }

  /** Steps a stopping thread can still take; the proxies' calls are single steps because they return. */
  function ReaderRank(pc: ReaderPc): nat {
    match pc
    case Receive => 4
    case Enqueue => 3
    case ReaderTop => 2
    case ReaderExit => 1
    case ReaderDone => 0
  }

  function WriterRank(n: nat, w: Writer): nat {
    match w.pc
    case AwaitPacket => n + 4
    case FilterPacket => if FiltersDone(w) <= n then n - FiltersDone(w) + 3 else 3
    case WaitComplete => 3
    case WriterTop => 2
    case WriterExit => 1
    case WriterDone => 0
  }

  function ReaderSteps(es: seq<Event>): nat {
    if es == [] then 0 else One(es[0].ReaderStep?) + ReaderSteps(es[1..])
  }

  function WriterSteps(es: seq<Event>): nat {
    if es == [] then 0 else One(es[0].WriterStep?) + WriterSteps(es[1..])
  }

  /** How many of the events take an element from the queue. */
  function Dequeues(n: nat, rel: FilterRel, endpoint: byte, s: State, es: seq<Event>): nat
    requires Possible(n, rel, endpoint, s, es)
    decreases |es|
  {
    if es == [] then 0
    else One(es[0].WriterStep? && s.writer.pc == AwaitPacket)
         + Dequeues(n, rel, endpoint, Apply(n, rel, endpoint, s, es[0]), es[1..])
  }

  lemma StepKeepsReaderStopping(n: nat, rel: FilterRel, endpoint: byte, s: State, e: Event)
    requires ReaderStopping(s) && Enabled(n, rel, s, e)
    ensures ReaderStopping(Apply(n, rel, endpoint, s, e))
  {}

  lemma StepKeepsWriterStopping(n: nat, rel: FilterRel, endpoint: byte, s: State, e: Event)
    requires WriterStopping(n, s) && Enabled(n, rel, s, e)
    ensures WriterStopping(n, Apply(n, rel, endpoint, s, e))
  {
    match e
    case WriterStep(filtered, completes) =>
      WriterKeepsStopping(n, s, filtered, completes);
    case _ =>
      hide WriterNext;
  }

  lemma WriterKeepsStopping(n: nat, s: State, filtered: Packet, completes: bool)
    requires WriterStopping(n, s) && s.writer.pc != WriterDone && (s.writer.pc == AwaitPacket ==> s.queue != [])
    ensures WriterStopping(n, WriterNext(n, s, filtered, completes))
  {}

  lemma ReaderRankDrops(n: nat, rel: FilterRel, endpoint: byte, s: State, e: Event)
    requires StopInv(n, s) && s.readerStop == TokenSent && Enabled(n, rel, s, e)
    ensures var s' := Apply(n, rel, endpoint, s, e);
            s'.readerStop == TokenSent && ReaderRank(s'.reader.pc) + One(e.ReaderStep?) <= ReaderRank(s.reader.pc)
  {
    hide WriterStopping, NewPacket, Pushed;
  }

  lemma WriterRankDrops(n: nat, rel: FilterRel, endpoint: byte, s: State, e: Event)
    requires StopInv(n, s) && s.writerStop == TokenSent && Enabled(n, rel, s, e)
    ensures var s' := Apply(n, rel, endpoint, s, e);
            && s'.writerStop == TokenSent && WriterRank(n, s'.writer) + One(e.WriterStep?) <= WriterRank(n, s.writer)
            && (s'.writer.pc == AwaitPacket ==> !e.WriterStep? && s.writer.pc == AwaitPacket)
  {
    hide ReaderStopping, NewPacket, Pushed;
  }

  lemma {:induction false} RunWhileStopping(n: nat, rel: FilterRel, endpoint: byte, s: State, es: seq<Event>)
    requires StopInv(n, s) && Possible(n, rel, endpoint, s, es)
    ensures var s' := Run(n, rel, endpoint, s, es);
            && StopInv(n, s')
            && (s.readerStop == TokenSent ==>
                  s'.readerStop == TokenSent && ReaderRank(s'.reader.pc) + ReaderSteps(es) <= ReaderRank(s.reader.pc))
            && (s.writerStop == TokenSent ==>
                  && s'.writerStop == TokenSent && WriterRank(n, s'.writer) + WriterSteps(es) <= WriterRank(n, s.writer)
                  && Dequeues(n, rel, endpoint, s, es) <= One(s.writer.pc == AwaitPacket))
    decreases |es|
  {
    hide ReaderStopping, WriterStopping, ReaderRank, WriterRank, Apply, Enabled;
    if es != [] {
      StepKeepsReaderStopping(n, rel, endpoint, s, es[0]);
      StepKeepsWriterStopping(n, rel, endpoint, s, es[0]);
      if s.readerStop == TokenSent {
        ReaderRankDrops(n, rel, endpoint, s, es[0]);
      }
      if s.writerStop == TokenSent {
        WriterRankDrops(n, rel, endpoint, s, es[0]);
      }
      RunWhileStopping(n, rel, endpoint, Apply(n, rel, endpoint, s, es[0]), es[1..]);
    }
  }

  /**
   After `please_stop` a data reader takes at most four more steps; after both steps of its
   `please_stop` a data writer with `n` filters takes at most `n + 4`, at most one of them a dequeue,
   and until it has finished it is not blocked on an empty queue, even if the token was dropped.
   */
  lemma DataThreadsStopPromptly(n: nat, rel: FilterRel, endpoint: byte, s: State, before: seq<Event>, after: seq<Event>)
    requires Init(s) && Possible(n, rel, endpoint, s, before)
    requires Possible(n, rel, endpoint, Run(n, rel, endpoint, s, before), after)
    ensures var s1 := Run(n, rel, endpoint, s, before);
            var s2 := Run(n, rel, endpoint, s1, after);
            && (s1.readerStop == TokenSent ==> ReaderSteps(after) <= 4)
            && (s1.writerStop == TokenSent ==>
                  && WriterSteps(after) <= n + 4 && Dequeues(n, rel, endpoint, s1, after) <= 1
                  && (s2.writer.pc == AwaitPacket ==> s2.queue != []))
  {
    RunWhileStopping(n, rel, endpoint, s, before);
    RunWhileStopping(n, rel, endpoint, Run(n, rel, endpoint, s, before), after);
  }

  // ----- Only then -----

  /** A thread that was not asked to stop goes on; one that has finished leaves its flag cleared. */
  predicate RunsUntilAsked(s: State) {
    && (s.readerStop == NotAsked ==> !s.reader.stop && s.reader.pc != ReaderExit && s.reader.pc != ReaderDone)
    && (s.writerStop == NotAsked ==> !s.writer.stop && s.writer.pc != WriterExit && s.writer.pc != WriterDone)
    && (s.reader.pc == ReaderDone ==> !s.reader.stop) && (s.writer.pc == WriterDone ==> !s.writer.stop)
  }

  lemma StepRunsUntilAsked(n: nat, rel: FilterRel, endpoint: byte, s: State, e: Event)
    requires RunsUntilAsked(s) && Enabled(n, rel, s, e)
    ensures RunsUntilAsked(Apply(n, rel, endpoint, s, e))
  {
    hide ReaderNext, WriterNext, RunsUntilAsked;
    match e
    case ReaderStep(data) => ReaderRunsUntilAsked(endpoint, s, data);
    case WriterStep(filtered, completes) => WriterRunsUntilAsked(n, s, filtered, completes);
    case _ => StopAsks(n, rel, endpoint, s, e);
  }

  lemma StopAsks(n: nat, rel: FilterRel, endpoint: byte, s: State, e: Event)
    requires RunsUntilAsked(s) && Enabled(n, rel, s, e) && (e.StopReader? || e.StopWriter?)
    ensures RunsUntilAsked(Apply(n, rel, endpoint, s, e))
  {
    hide ReaderNext, WriterNext;
  }

  lemma WriterRunsUntilAsked(n: nat, s: State, filtered: Packet, completes: bool)
    requires RunsUntilAsked(s) && s.writer.pc != WriterDone && (s.writer.pc == AwaitPacket ==> s.queue != [])
    ensures RunsUntilAsked(WriterNext(n, s, filtered, completes))
  {}

  lemma ReaderRunsUntilAsked(endpoint: byte, s: State, data: seq<byte>)
    requires RunsUntilAsked(s) && s.reader.pc != ReaderDone
    ensures RunsUntilAsked(ReaderNext(endpoint, s, data))
  {
    hide NewPacket, Pushed;
  }

  lemma {:induction false} EndsOnlyIfAsked(n: nat, rel: FilterRel, endpoint: byte, s: State, es: seq<Event>)
    requires RunsUntilAsked(s) && Possible(n, rel, endpoint, s, es)
    ensures RunsUntilAsked(Run(n, rel, endpoint, s, es))
    decreases |es|
  {
    hide Apply, Enabled, RunsUntilAsked;
    if es != [] {
      StepRunsUntilAsked(n, rel, endpoint, s, es[0]);
      EndsOnlyIfAsked(n, rel, endpoint, Apply(n, rel, endpoint, s, es[0]), es[1..]);
    }
  }

  /** In every run: a data thread ends only after it was asked to, and then its flag is cleared. */
  lemma DataThreadsRunUntilAsked(n: nat, rel: FilterRel, endpoint: byte, s: State, es: seq<Event>)
    requires Init(s) && Possible(n, rel, endpoint, s, es)
    ensures var s' := Run(n, rel, endpoint, s, es);
            && (s'.reader.pc == ReaderExit || s'.reader.pc == ReaderDone ==> s'.readerStop != NotAsked)
            && (s'.writer.pc == WriterExit || s'.writer.pc == WriterDone ==> s'.writerStop != NotAsked)
            && (s'.reader.pc == ReaderDone ==> !s'.reader.stop) && (s'.writer.pc == WriterDone ==> !s'.writer.stop)
  {
    EndsOnlyIfAsked(n, rel, endpoint, s, es);
  }
}
