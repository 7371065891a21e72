/** What one session leaves in the EP0 queues, and what the next one makes of it. */
module Ep0Sessions {
  import opened Common
  import opened SafeQueues
  import opened Ep0Machine
  import opened Ep0Flow
  import opened Ep0Losses

  // ----- The end of a session -----

  /** Both threads have run to their end. */
  predicate Ended(s: State) {
    s.reader.pc == ReaderDone && s.writer.pc == WriterDone
  }

  /**
   In every run that ends with both threads done, whatever the filters do: a packet is left in the queues if
   and only if the last request was neither answered nor given up, and it is never more than one.
   */
  lemma LeftBehind(n: nat, s: State, es: seq<Event>)
    requires Init(s) && Possible(n, s, es) && Ended(Run(n, s, es))
    ensures var s' := Run(n, s, es);
            Setups(s'.readerSend) + Setups(s'.writerSend)
            == One(|s'.trace.answers| < |s'.trace.requests| && s'.trace.gone == [])
  {
    InitInv(n, s);
    var place := RunKeepsInv(n, Nowhere, s, es);
    CountInFlight(n, place, Run(n, s, es));
  }

  lemma {:induction false} NoSetups(q: seq<PacketPtr>)
    ensures Setups(q) == 0 <==> Vacant(q)
  {
    if q != [] {
      NoSetups(q[1..]);
      assert Vacant(q) ==> Vacant(q[1..]);
      assert q == [q[0]] + q[1..];
    }
  }

  /** The next session: new threads on the queues of the last one. */
  function NextSession(s: State): State {
    State(Reader(ReaderTop, true, None, false), Writer(WriterTop, None, 0, 0, false), s.readerSend, s.writerSend,
          NotAsked, NotAsked, Trace([], [], [], [], []))
  }

  /** The next session starts as all the theorems ask for if and only if nothing but null tokens was left. */
  lemma NextSessionStartsClean(n: nat, s: State, es: seq<Event>)
    requires Init(s) && Possible(n, s, es) && Ended(Run(n, s, es))
    ensures var s' := Run(n, s, es);
            Init(NextSession(s')) <==> |s'.trace.answers| == |s'.trace.requests| || s'.trace.gone != []
  {
    var s' := Run(n, s, es);
    LeftBehind(n, s, es);
    OneRequestAtATime(n, s, es);
    NoSetups(s'.readerSend);
    NoSetups(s'.writerSend);
  }

  // ----- A session that leaves a packet -----

  /** The request is queued; then both threads are asked to stop and do so. */
  function QueuedThenStopped(r: Request): seq<Event> {
    [ReaderStep(Quiet), ReaderStep(Arrives(r)), ReaderStep(Quiet)]
    + [StopReader, StopReader, StopWriter, StopWriter]
    + [ReaderStep(Quiet), ReaderStep(Quiet), WriterStep(Idle), WriterStep(Idle)]
  }

  function Left(r: Request): State {
    State(Reader(ReaderDone, false, None, false), Writer(WriterDone, None, 0, 0, false), [Some(NewPacket(0, r)), None],
          [None], TokenSent, TokenSent, Trace([r], [], [], [], []))
  }

  lemma ASessionLeavesAPacket(r: Request)
    ensures var es := QueuedThenStopped(r);
            Init(Opening()) && Possible(1, Opening(), es) && Run(1, Opening(), es) == Left(r) && Ended(Left(r))
  {
    hide Apply, Enabled;
    var a, b := [ReaderStep(Quiet), ReaderStep(Arrives(r)), ReaderStep(Quiet)],
      [StopReader, StopReader, StopWriter, StopWriter];
    var c := [ReaderStep(Quiet), ReaderStep(Quiet), WriterStep(Idle), WriterStep(Idle)];
    var s1 := BothAreAsked(r);
    BothStop(r, s1);
    TheReaderSends(1, r);
    RunAppend(1, Opening(), a, b);
    RunAppend(1, Opening(), a + b, c);
  }

  lemma BothAreAsked(r: Request) returns (s: State)
    ensures s == Queued(r).(reader := Queued(r).reader.(stop := true), writer := Queued(r).writer.(stop := true),
                            readerSend := [Some(NewPacket(0, r)), None], writerSend := [None],
                            readerStop := TokenSent, writerStop := TokenSent)
    ensures var es := [StopReader, StopReader, StopWriter, StopWriter];
            Possible(1, Queued(r), es) && Run(1, Queued(r), es) == s
  {
    var es := [StopReader, StopReader, StopWriter, StopWriter];
    var s1 := Apply(1, Queued(r), es[0]);
    var s2 := Apply(1, s1, es[1]);
    var s3 := Apply(1, s2, es[2]);
    s := Apply(1, s3, es[3]);
    assert es[1..][1..][1..][1..] == [];
    RunOf(1, s3, es[3..], s);
    RunOf(1, s2, es[2..], s);
    RunOf(1, s1, es[1..], s);
    RunOf(1, Queued(r), es, s);
  }

  lemma BothStop(r: Request, s: State)
    requires s == Queued(r).(reader := Queued(r).reader.(stop := true), writer := Queued(r).writer.(stop := true),
                             readerSend := [Some(NewPacket(0, r)), None], writerSend := [None],
                             readerStop := TokenSent, writerStop := TokenSent)
    ensures var es := [ReaderStep(Quiet), ReaderStep(Quiet), WriterStep(Idle), WriterStep(Idle)];
            Possible(1, s, es) && Run(1, s, es) == Left(r)
  {
    var es := [ReaderStep(Quiet), ReaderStep(Quiet), WriterStep(Idle), WriterStep(Idle)];
    var s1 := Apply(1, s, es[0]);
    var s2 := Apply(1, s1, es[1]);
    var s3 := Apply(1, s2, es[2]);
    var s4 := Apply(1, s3, es[3]);
    assert es[1..][1..][1..][1..] == [] && s4 == Left(r);
    RunOf(1, s3, es[3..], s4);
    RunOf(1, s2, es[2..], s4);
    RunOf(1, s1, es[1..], s4);
    RunOf(1, s, es, s4);
  }

  // ----- The next session -----

  function ReaderTakesNext(r: Request): seq<Event> {
    [ReaderStep(Quiet), ReaderStep(Arrives(r)), ReaderStep(Quiet),
     ReaderStep(Quiet), ReaderStep(Quiet), ReaderStep(Quiet), ReaderStep(Quiet)]
  }

  function WriterTakesLeft(reply: DeviceReply, junk: seq<byte>): seq<Event> {
    [WriterStep(Idle), WriterStep(Idle), WriterStep(Idle), WriterStep(Idle),
     WriterStep(Replied(reply, junk)), WriterStep(Idle), WriterStep(Idle)]
  }

  function ReaderAnswersNext(): seq<Event> {
    [ReaderStep(Quiet), ReaderStep(Quiet), ReaderStep(Quiet)]
  }

  /** The packet left behind, with the device's reply in it. */
  function Returned(r: Request, reply: DeviceReply, junk: seq<byte>): SetupPacket
    requires |reply.data| <= r.ctrl.wLength == |junk|
  {
    var p := NewPacket(0, r);
    if r.ctrl.DeviceToHost() then
      if reply.rc >= 0 then
        p.(data := reply.data + junk[|reply.data|..], ctrl := r.ctrl.(wLength := |reply.data|))
      else p.(data := junk, transmitIn := false, ctrl := r.ctrl.(wLength := 0))
    else p.(transmitIn := reply.rc >= 0, ctrl := r.ctrl.(wLength := 0))
  }

  function Waiting(r0: Request, r1: Request): State {
    NextSession(Left(r0)).(
      reader := Reader(AwaitReply, false, None, false),
      readerSend := [Some(NewPacket(0, r0)), None, Some(NewPacket(0, r1))], writerSend := [],
      trace := Trace([r1], [], [], [], []))
  }

  lemma TheReaderWaits(r0: Request, r1: Request)
    ensures var es := ReaderTakesNext(r1);
            Possible(0, NextSession(Left(r0)), es) && Run(0, NextSession(Left(r0)), es) == Waiting(r0, r1)
  {
    var a, b := ReaderTakesNext(r1)[..3], ReaderTakesNext(r1)[3..];
    var s0 := NextSession(Left(r0));
    var s1 := Apply(0, s0, a[0]);
    var s2 := Apply(0, s1, a[1]);
    var s3 := Apply(0, s2, a[2]);
    assert a[1..][1..][1..] == [];
    RunOf(0, s2, a[2..], s3);
    RunOf(0, s1, a[1..], s3);
    RunOf(0, s0, a, s3);
    TokenIsSkipped(r0, r1, s3);
    RunAppend(0, s0, a, b);
    assert a + b == ReaderTakesNext(r1);
  }

  /** The stop token of the last session is the first thing the reader takes. */
  lemma TokenIsSkipped(r0: Request, r1: Request, s: State)
    requires s == Waiting(r0, r1).(reader := Reader(ReaderTop, false, None, false), writerSend := [None])
    ensures var es := ReaderTakesNext(r1)[3..];
            Possible(0, s, es) && Run(0, s, es) == Waiting(r0, r1)
  {
    var es := ReaderTakesNext(r1)[3..];
    var s1 := Apply(0, s, es[0]);
    var s2 := Apply(0, s1, es[1]);
    var s3 := Apply(0, s2, es[2]);
    var s4 := Apply(0, s3, es[3]);
    assert s4 == Waiting(r0, r1) && es[1..][1..][1..][1..] == [];
    RunOf(0, s3, es[3..], s4);
    RunOf(0, s2, es[2..], s4);
    RunOf(0, s1, es[1..], s4);
    RunOf(0, s, es, s4);
  }

  function Asking(r0: Request, r1: Request): State {
    var s := Waiting(r0, r1);
    s.(writer := Writer(AskDevice, Some(NewPacket(0, r0)), 0, 0, false), readerSend := s.readerSend[1..])
  }

  lemma TheWriterAsks(r0: Request, r1: Request)
    ensures var es := [WriterStep(Idle), WriterStep(Idle), WriterStep(Idle), WriterStep(Idle)];
            Possible(0, Waiting(r0, r1), es) && Run(0, Waiting(r0, r1), es) == Asking(r0, r1)
  {
    var es := [WriterStep(Idle), WriterStep(Idle), WriterStep(Idle), WriterStep(Idle)];
    var s1 := Apply(0, Waiting(r0, r1), es[0]);
    var s2 := Apply(0, s1, es[1]);
    var s3 := Apply(0, s2, es[2]);
    var s4 := Apply(0, s3, es[3]);
    assert s4 == Asking(r0, r1) && es[1..][1..][1..][1..] == [];
    RunOf(0, s3, es[3..], s4);
    RunOf(0, s2, es[2..], s4);
    RunOf(0, s1, es[1..], s4);
    RunOf(0, Waiting(r0, r1), es, s4);
  }

  lemma TheWriterReplies(r0: Request, r1: Request, reply: DeviceReply, junk: seq<byte>) returns (s: State)
    requires |reply.data| <= r0.ctrl.wLength == |junk|
    ensures var es := [WriterStep(Replied(reply, junk)), WriterStep(Idle), WriterStep(Idle)];
            Possible(0, Asking(r0, r1), es) && Run(0, Asking(r0, r1), es) == s
    ensures s.reader == Waiting(r0, r1).reader && s.writerSend == [Some(Returned(r0, reply, junk))]
    ensures s.trace.requests == [r1] && s.trace.calls == [Call(0, r0, reply)] && s.trace.answers == []
  {
    var es := [WriterStep(Replied(reply, junk)), WriterStep(Idle), WriterStep(Idle)];
    var s1 := TheDeviceReplies(r0, r1, reply, junk);
    var s2 := Apply(0, s1, es[1]);
    s := Apply(0, s2, es[2]);
    assert es[1..][1..][1..] == [];
    RunOf(0, s2, es[2..], s);
    RunOf(0, s1, es[1..], s);
    RunOf(0, Asking(r0, r1), es, s);
  }

  lemma TheDeviceReplies(r0: Request, r1: Request, reply: DeviceReply, junk: seq<byte>) returns (s: State)
    requires |reply.data| <= r0.ctrl.wLength == |junk|
    ensures Enabled(0, Asking(r0, r1), WriterStep(Replied(reply, junk)))
    ensures Apply(0, Asking(r0, r1), WriterStep(Replied(reply, junk))) == s
    ensures s == Asking(r0, r1).(writer := s.writer,
                                 trace := Trace([r1], [Call(0, r0, reply)], [], s.trace.configs, []))
    ensures s.writer.pc == FilterIn && s.writer.p == Some(Returned(r0, reply, junk)) && s.writer.j == 0
  {
    s := Apply(0, Asking(r0, r1), WriterStep(Replied(reply, junk)));
  }

  lemma TheReaderAnswers(r0: Request, s: State, back: SetupPacket) returns (s': State)
    requires s.reader == Reader(AwaitReply, false, None, false) && s.writerSend == [Some(back)]
    ensures Possible(0, s, ReaderAnswersNext()) && Run(0, s, ReaderAnswersNext()) == s'
    ensures s'.trace == s.trace.(answers := s.trace.answers + [Answer(back.serial, CallFor(back))])
  {
    var es := ReaderAnswersNext();
    var s1 := Apply(0, s, es[0]);
    var s2 := Apply(0, s1, es[1]);
    s' := Apply(0, s2, es[2]);
    assert es[1..][1..][1..] == [];
    RunOf(0, s2, es[2..], s');
    RunOf(0, s1, es[1..], s');
    RunOf(0, s, es, s');
  }

  /**
   After a session that left the request r0, the next one, without any filter, asks the device r0 again
   when the host has asked r1, and gives the host the reply to r0 for an answer to r1.
   */
  lemma AnswerGoesToTheNextRequest(r0: Request, r1: Request, reply: DeviceReply, junk: seq<byte>)
    requires |reply.data| <= r0.ctrl.wLength == |junk|
    ensures var es := ReaderTakesNext(r1) + WriterTakesLeft(reply, junk) + ReaderAnswersNext();
            && Possible(0, NextSession(Left(r0)), es)
            && var t := Run(0, NextSession(Left(r0)), es).trace;
               && t.requests == [r1] && t.calls == [Call(0, r0, reply)] && |t.answers| == 1
               && Delivers(t.answers[0].call, DirectReply(r0, reply))
  {
    hide Apply, Enabled, Waiting, Left, NextSession, Asking;
    var s0 := NextSession(Left(r0));
    var a, d := ReaderTakesNext(r1), ReaderAnswersNext();
    var b := [WriterStep(Idle), WriterStep(Idle), WriterStep(Idle), WriterStep(Idle)];
    var c := [WriterStep(Replied(reply, junk)), WriterStep(Idle), WriterStep(Idle)];
    TheReaderWaits(r0, r1);
    TheWriterAsks(r0, r1);
    var s3 := TheWriterReplies(r0, r1, reply, junk);
    ReaderIsWaiting(r0, r1);
    var s4 := TheReaderAnswers(r0, s3, Returned(r0, reply, junk));
    RunAppend(0, s0, a, b);
    RunAppend(0, s0, a + b, c);
    RunAppend(0, s0, a + b + c, d);
    assert WriterTakesLeft(reply, junk) == b + c;
    assert a + (b + c) + d == a + b + c + d;
  }

  lemma ReaderIsWaiting(r0: Request, r1: Request)
    ensures Waiting(r0, r1).reader == Reader(AwaitReply, false, None, false)
  {}
}
