/**
 In-band signalling over whole runs: which writes pass is decided by the passwords the host has written. And what
 the filter leaves alone.
 */
module MassStorageInband {
  import opened Common
  import opened MassStorage
  import opened MassStorageRuns
  import opened BulkOnly

  // ----- The signals in a run of packets -----

  /** Whether the data that come next belong to a write command. */
  function WritingAfter(writing: bool, p: seq<byte>): bool {
    if IsWrite(p) then true else if IsRead(p) || IsStatus(p) then false else writing
  }

  /** The mode after one packet: the unblock password in written data ends blocking, the block password starts it. */
  ghost function Signal(c: Config, writing: bool, blocked: bool, p: seq<byte>): bool {
    if !writing || !IsData(p) then blocked
    else if blocked then !Spotted(c.unblockPassword, p)
    else Spotted(c.blockPassword, p)
  }

  ghost function ModeAfter(c: Config, writing: bool, blocked: bool, packets: seq<seq<byte>>): bool
    decreases |packets|
  {
    if packets == [] then blocked
    else ModeAfter(c, WritingAfter(writing, packets[0]), Signal(c, writing, blocked, packets[0]), packets[1..])
  }

  lemma StepFollows(c: Config, f: Filter, p: seq<byte>)
    requires c.Valid() && Fits(p)
    ensures var f' := Step(c, f, p).filter;
            && (f'.state == Writing <==> WritingAfter(f.state == Writing, p))
            && f'.inbandBlockWrites ==
                 (if c.inband then Signal(c, f.state == Writing, f.inbandBlockWrites, p) else f.inbandBlockWrites)
            && (!c.inband ==> f'.blockWrites == f.blockWrites)
  {
    hide Spotted, Scan;
    if c.inband && IsData(p) {
      ScanExactly(c.unblockPassword, p);
      ScanExactly(c.blockPassword, p);
    }
  }

  lemma {:induction false} RunFollows(c: Config, f: Filter, packets: seq<seq<byte>>)
    requires c.Valid() && AllFit(packets)
    ensures var f' := Final(c, f, packets);
            && f'.inbandBlockWrites ==
                 (if !c.inband then f.inbandBlockWrites
                  else ModeAfter(c, f.state == Writing, f.inbandBlockWrites, packets))
            && (!c.inband ==> f'.blockWrites == f.blockWrites)
    decreases |packets|
  {
    hide Step, Signal, WritingAfter;
    if packets != [] {
      StepFollows(c, f, packets[0]);
      RunFollows(c, Step(c, f, packets[0]).filter, packets[1..]);
    }
  }

  // ----- What becomes of a write -----

  /**
   After any run of packets, a write command passes with in-band signalling exactly if the passwords written so far
   leave writes unblocked, and without it exactly if they were unblocked from the start; its data share its fate.
   */
  lemma WriteFollowsSignals(c: Config, f: Filter, packets: seq<seq<byte>>, cbw: seq<byte>, data: seq<seq<byte>>)
    requires c.Valid() && AllFit(packets) && AllFit(data) && NoCommands(data) && IsWrite(cbw)
    requires |data| < 0x1_0000_0000
    ensures var blocked := if !c.inband then f.blockWrites
                           else ModeAfter(c, f.state == Writing, f.inbandBlockWrites, packets);
            var out := Step(c, Final(c, f, packets), cbw);
            && out.transmit == !blocked && out.filter.blockWrites == blocked
            && Passed(c, out.filter, data) == Verdicts(data, true, blocked)
  {
    RunFollows(c, f, packets);
    WriteIsAllOrNothing(c, Final(c, f, packets), cbw, data);
  }

  lemma {:induction false} NothingSignalled(c: Config, writing: bool, blocked: bool, packets: seq<seq<byte>>)
    requires forall k :: 0 <= k < |packets| && IsData(packets[k]) ==>
               !Spotted(if blocked then c.unblockPassword else c.blockPassword, packets[k])
    ensures ModeAfter(c, writing, blocked, packets) == blocked
    decreases |packets|
  {
    hide Spotted, WritingAfter;
    if packets != [] {
      NothingSignalled(c, WritingAfter(writing, packets[0]), blocked, packets[1..]);
    }
  }

  lemma {:induction false} UnblockedVerdicts(data: seq<seq<byte>>, open: bool)
    ensures |Verdicts(data, open, false)| == |data|
    ensures forall k :: 0 <= k < |data| ==> Verdicts(data, open, false)[k]
  {
    if data != [] {
      UnblockedVerdicts(data[1..], open && !IsStatus(data[0]));
    }
  }

  lemma {:induction false} BlockedVerdicts(data: seq<seq<byte>>)
    requires forall k :: 0 <= k < |data| ==> IsData(data[k])
    ensures |Verdicts(data, true, true)| == |data|
    ensures forall k :: 0 <= k < |data| ==> !Verdicts(data, true, true)[k]
  {
    if data != [] {
      BlockedVerdicts(data[1..]);
    }
  }

  /**
   Once the unblock password has been spotted in written data while writes are blocked, and until the block
   password is, the next write command passes with everything that belongs to it.
   */
  lemma UnblockingTakesEffect(c: Config, f: Filter, signal: seq<byte>, between: seq<seq<byte>>, cbw: seq<byte>,
                              data: seq<seq<byte>>)
    requires c.Valid() && c.inband && f.state == Writing && f.inbandBlockWrites
    requires IsData(signal) && Fits(signal) && Spotted(c.unblockPassword, signal)
    requires AllFit(between)
    requires forall k :: 0 <= k < |between| && IsData(between[k]) ==> !Spotted(c.blockPassword, between[k])
    requires IsWrite(cbw) && AllFit(data) && NoCommands(data) && |data| < 0x1_0000_0000
    ensures AllFit([signal] + between)
    ensures var passed := Passed(c, Final(c, f, [signal] + between), [cbw] + data);
            |passed| == 1 + |data| && forall k :: 0 <= k <= |data| ==> passed[k]
  {
    hide Step, Spotted, WritingAfter;
    NothingSignalled(c, WritingAfter(true, signal), false, between);
    assert ([signal] + between)[1..] == between && ([cbw] + data)[1..] == data;
    WriteFollowsSignals(c, f, [signal] + between, cbw, data);
    UnblockedVerdicts(data, true);
  }

  /** And the reverse: after the block password neither the next write command nor its data pass. */
  lemma BlockingTakesEffect(c: Config, f: Filter, signal: seq<byte>, between: seq<seq<byte>>, cbw: seq<byte>,
                            data: seq<seq<byte>>)
    requires c.Valid() && c.inband && f.state == Writing && !f.inbandBlockWrites
    requires IsData(signal) && Fits(signal) && Spotted(c.blockPassword, signal)
    requires AllFit(between)
    requires forall k :: 0 <= k < |between| && IsData(between[k]) ==> !Spotted(c.unblockPassword, between[k])
    requires IsWrite(cbw) && AllFit(data) && |data| < 0x1_0000_0000
    requires forall k :: 0 <= k < |data| ==> IsData(data[k])
    ensures AllFit([signal] + between)
    ensures var passed := Passed(c, Final(c, f, [signal] + between), [cbw] + data);
            |passed| == 1 + |data| && forall k :: 0 <= k <= |data| ==> !passed[k]
  {
    hide Step, Spotted, WritingAfter;
    NothingSignalled(c, WritingAfter(true, signal), true, between);
    assert ([signal] + between)[1..] == between && ([cbw] + data)[1..] == data;
    WriteFollowsSignals(c, f, [signal] + between, cbw, data);
    BlockedVerdicts(data);
  }

  // ----- What is left alone -----

  /**
   Only write commands and their data are ever withheld, and only data that are read are ever changed, by the
   cache. A packet that is neither a command to read or write nor data of one leaves the filter as it is, but for a
   status, after which the next command is awaited.
   */
  lemma OthersPass(c: Config, f: Filter, p: seq<byte>)
    requires c.Valid() && Fits(p)
    ensures var out := Step(c, f, p);
            && (!IsWrite(p) && !(IsData(p) && f.state == Writing) ==> out.transmit)
            && (!(IsData(p) && f.state == Reading && c.cacheBlocks) ==> out.data == p)
            && (!IsWrite(p) && !IsRead(p) && (IsData(p) ==> f.state == Idle) ==>
                  out.filter == if IsStatus(p) then f.(state := Idle) else f)
            && (!c.cacheBlocks ==> out.filter.cache == f.cache)
  {}
}
