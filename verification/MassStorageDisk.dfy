/** Blocking writes is invisible to the host: the blocked, cached device behaves like a plain writable disk. */
module MassStorageDisk {
  import opened Common
  import opened MassStorage
  import opened BulkOnly

  type Block = b: seq<byte> | |b| == 512 witness seq(512, _ => 0)

  /** The contents of a disk. */
  type Disk = dword -> Block

  type Packets = seq<seq<byte>>

  // ----- Commands, and how Bulk-Only Transport puts them in packets -----

  /** `Other` is any command but READ(10) and WRITE(10); what the device replies to it is fixed by the command. */
  datatype Command =
    | Read(tag: Tag, address: dword, count: word)
    | Write(tag: Tag, address: dword, blocks: seq<Block>)
    | Other(cbw: seq<byte>, replies: Packets)
  {
    /** Data of other commands comes in packets of at most 64 bytes that do not look like a command. */
    predicate Valid() {
      match this
      case Read(_, _, _) => true
      case Write(_, _, blocks) => |blocks| < 0x1_0000
      case Other(cbw, replies) =>
        && IsCommand(cbw) && !IsRead(cbw) && !IsWrite(cbw)
        && forall i :: 0 <= i < |replies| ==> |replies[i]| <= 64 && !IsCommand(replies[i])
    }
  }

  /** The ten-byte READ(10) or WRITE(10), padded to sixteen. */
  function CommandBlock(opcode: byte, address: dword, count: word): (p: seq<byte>)
    ensures |p| == 16
  {
    [opcode, 0, address / 0x100_0000, address / 0x1_0000 % 0x100, address / 0x100 % 0x100, address % 0x100,
     0, count / 0x100, count % 0x100, 0, 0, 0, 0, 0, 0, 0]
  }

  /** Command Block Wrapper, section 5.1 of the Bulk-Only Transport specification. */
  function Cbw(tag: Tag, opcode: byte, address: dword, count: word): (p: seq<byte>)
    ensures |p| == 31
  {
    var bytes: word := (count * BLOCK_SIZE) % 0x1_0000;
    var high: byte := (count * BLOCK_SIZE) / 0x1_0000 % 0x100;
    [0x55, 0x53, 0x42, 0x43] + tag
    + [bytes % 0x100, bytes / 0x100, high, 0, if opcode == 0x28 then 0x80 else 0, 0, 10]
    + CommandBlock(opcode, address, count)
  }

  /** Command Status Wrapper of success, section 5.2. */
  function Csw(tag: Tag): seq<byte> {
    [0x55, 0x53, 0x42, 0x53] + tag + [0, 0, 0, 0] + [0]
  }

  lemma CbwIsDecoded(tag: Tag, opcode: byte, address: dword, count: word)
    ensures var p := Cbw(tag, opcode, address, count);
            KindOf(p) == Kind.Command && Opcode(p) == opcode && TagOf(p) == tag
            && Address(p) == address && BlockCount(p) == count
  {
    var p, c := Cbw(tag, opcode, address, count), CommandBlock(opcode, address, count);
    assert p[..4] == [0x55, 0x53, 0x42, 0x43] && p[4..8] == tag;
    CommandBlockIsDecoded(opcode, address, count);
    hide CommandBlock, BigEndian16, BigEndian32;
    assert p[15..] == c;
    assert forall k :: 0 <= k < 16 ==> p[15 + k] == p[15..][k];
    assert p[0x0f] == c[0] && p[0x11] == c[2] && p[0x12] == c[3] && p[0x13] == c[4] && p[0x14] == c[5];
    assert p[0x16] == c[7] && p[0x17] == c[8];
  }

  lemma CommandBlockIsDecoded(opcode: byte, address: dword, count: word)
    ensures var c := CommandBlock(opcode, address, count);
            c[0] == opcode && BigEndian32(c[2], c[3], c[4], c[5]) == address && BigEndian16(c[7], c[8]) == count
  {
    BytesOf(address);
    BytesOf(count);
  }

  lemma BytesOf(a: dword)
    ensures (a / 0x100_0000) * 0x100_0000 + (a / 0x1_0000 % 0x100) * 0x1_0000
            + (a / 0x100 % 0x100) * 0x100 + a % 0x100 == a
  {
    var b := a / 0x100;
    var c := b / 0x100;
    assert a / 0x1_0000 == c && a / 0x100_0000 == c / 0x100;
  }

  lemma CswIsStatus(tag: Tag)
    ensures KindOf(Csw(tag)) == Status && FalseStatus(tag) == Csw(tag)
  {
    assert Csw(tag)[..4] == [0x55, 0x53, 0x42, 0x53];
    assert FalseStatus(tag) == Csw(tag);
  }

  function HostPackets(cmd: Command): Packets
    requires cmd.Valid()
  {
    match cmd
    case Read(tag, address, count) => [Cbw(tag, 0x28, address, count)]
    case Write(tag, address, blocks) => [Cbw(tag, 0x2a, address, |blocks|)] + blocks
    case Other(cbw, _) => [cbw]
  }

  // ----- A plain writable disk -----

  function At(address: dword, i: nat): dword {
    (i + address) % 0x1_0000_0000
  }

  function Blocks(d: Disk, address: dword, i: nat, n: nat): seq<Block>
    requires i <= n
    decreases n - i
  {
    if i == n then [] else [d(At(address, i))] + Blocks(d, address, i + 1, n)
  }

  function Stored(d: Disk, a: dword, b: Block): Disk {
    x => if x == a then b else d(x)
  }

  function StoredAll(d: Disk, address: dword, i: nat, blocks: seq<Block>): Disk
    decreases |blocks|
  {
    if blocks == [] then d else StoredAll(Stored(d, At(address, i), blocks[0]), address, i + 1, blocks[1..])
  }

  /** What a device does with a command that reaches it: its disk afterwards and what it sends back. */
  function Execute(d: Disk, cmd: Command): (Disk, Packets)
    requires cmd.Valid()
  {
    match cmd
    case Read(tag, address, count) => (d, Blocks(d, address, 0, count) + [Csw(tag)])
    case Write(tag, address, blocks) => (StoredAll(d, address, 0, blocks), [Csw(tag)])
    case Other(_, replies) => (d, replies)
  }

  // ----- The same device behind the filter -----

  /** Passing packets through the filter, in order: the filter afterwards and what comes out. */
  function Through(c: Config, f: Filter, packets: Packets): (Filter, Packets)
    requires c.Valid() && forall k :: 0 <= k < |packets| ==> Fits(packets[k])
    decreases |packets|
  {
    if packets == [] then (f, [])
    else
      var out := Step(c, f, packets[0]);
      var rest := Through(c, out.filter, packets[1..]);
      (rest.0, (if out.transmit then [out.data] else []) + rest.1)
  }

  lemma {:induction false} ThroughAppend(c: Config, f: Filter, a: Packets, b: Packets)
    requires c.Valid() && (forall k :: 0 <= k < |a| ==> Fits(a[k])) && (forall k :: 0 <= k < |b| ==> Fits(b[k]))
    ensures var x := Through(c, f, a);
            var y := Through(c, x.0, b);
            Through(c, f, a + b).0 == y.0 && Through(c, f, a + b).1 == x.1 + y.1
    decreases |a|
  {
    hide Step;
    if a == [] {
      assert a + b == b;
    } else {
      assert (a + b)[1..] == a[1..] + b;
      ThroughAppend(c, Step(c, f, a[0]).filter, a[1..], b);
    }
  }

  lemma ThroughOne(c: Config, f: Filter, p: seq<byte>)
    requires c.Valid() && Fits(p)
    ensures var out := Step(c, f, p);
            Through(c, f, [p]) == (out.filter, if out.transmit then [out.data] else [])
  {
    var out := Step(c, f, p);
    var passed: Packets := if out.transmit then [out.data] else [];
    assert [p][1..] == [] && passed + [] == passed;
  }

  lemma CommandFits(cmd: Command)
    requires cmd.Valid()
    ensures forall k :: 0 <= k < |HostPackets(cmd)| ==> Fits(HostPackets(cmd)[k])
  {}

  lemma {:induction false} RepliesFit(d: Disk, cmd: Command)
    requires cmd.Valid()
    ensures forall k :: 0 <= k < |Execute(d, cmd).1| ==> Fits(Execute(d, cmd).1[k])
  {
    if cmd.Write? || cmd.Read? {
      CswIsStatus(cmd.tag);
    }
  }

  function FalseStatuses(tags: seq<Tag>): Packets {
    if tags == [] then [] else [FalseStatus(tags[0])] + FalseStatuses(tags[1..])
  }

  /**
   One command through the filter: the device only acts on a command that reaches it whole, and the
   tags queued meanwhile are injected as statuses, which pass the filter themselves if `looped`.
   Returned are the filter and the real disk afterwards and what the host sees.
   */
  function Filtered(c: Config, f: Filter, d: Disk, cmd: Command, looped: bool): (Filter, Disk, Packets)
    requires c.Valid() && cmd.Valid()
  {
    CommandFits(cmd);
    var arriving := Through(c, f, HostPackets(cmd));
    var reply := if arriving.1 == HostPackets(cmd) then Execute(d, cmd) else (d, []);
    RepliesFit(d, cmd);
    var returning := Through(c, arriving.0, reply.1);
    var injected := FalseStatuses(returning.0.pipe);
    var drained := returning.0.(pipe := []);
    StatusesFit(returning.0.pipe);
    if looped then
      var last := Through(c, drained, injected);
      (last.0, reply.0, returning.1 + last.1)
    else
      (drained, reply.0, returning.1 + injected)
  }

  lemma {:induction false} StatusesFit(tags: seq<Tag>)
    ensures forall k :: 0 <= k < |FalseStatuses(tags)| ==> Fits(FalseStatuses(tags)[k])
  {
    if tags != [] {
      StatusesFit(tags[1..]);
      CswIsStatus(tags[0]);
    }
  }

  // ----- The simulation relation -----

  /** `disk'[a]` is the cached block if there is one, and the real disk's otherwise. */
  ghost predicate Simulates(cache: map<dword, seq<byte>>, d: Disk, plain: Disk) {
    forall a: dword :: plain(a) == if a in cache then cache[a] else d(a)
  }

  predicate Blocking(c: Config, f: Filter) {
    c.Valid() && c.cacheBlocks && !c.inband && f.blockWrites && f.pipe == []
  }

  lemma ReadBlock(c: Config, f: Filter, d: Disk, plain: Disk)
    requires Blocking(c, f) && Simulates(f.cache, d, plain) && f.state == Reading
    requires f.blockOffset + 1 < 0x1_0000_0000
    ensures var a := At(f.baseAddress, f.blockOffset);
            var out := Step(c, f, d(a));
            && out.transmit && out.data == plain(a)
            && out.filter == f.(cache := out.filter.cache, blockOffset := f.blockOffset + 1)
            && Simulates(out.filter.cache, d, plain)
  {}

  lemma {:induction false} ReadBlocks(c: Config, f: Filter, d: Disk, plain: Disk, i: nat, n: nat)
    requires Blocking(c, f) && Simulates(f.cache, d, plain)
    requires i <= n < 0x1_0000 && f.state == Reading && f.blockOffset == i
    ensures var x := Through(c, f, Blocks(d, f.baseAddress, i, n));
            && x.1 == Blocks(plain, f.baseAddress, i, n)
            && Blocking(c, x.0) && Simulates(x.0.cache, d, plain)
    decreases n - i
  {
    hide Step, Simulates;
    if i < n {
      ReadBlock(c, f, d, plain);
      var blocks := Blocks(d, f.baseAddress, i, n);
      assert blocks[0] == d(At(f.baseAddress, i)) && blocks[1..] == Blocks(d, f.baseAddress, i + 1, n);
      ReadBlocks(c, Step(c, f, blocks[0]).filter, d, plain, i + 1, n);
    }
  }

  lemma WriteBlock(c: Config, f: Filter, d: Disk, plain: Disk, block: Block)
    requires Blocking(c, f) && Simulates(f.cache, d, plain) && f.state == Writing
    requires f.blockOffset < f.blockCount
    ensures var out := Step(c, f, block);
            var last := f.blockOffset + 1 == f.blockCount;
            && !out.transmit
            && out.filter == f.(cache := out.filter.cache, blockOffset := f.blockOffset + 1,
                                pipe := if last then [f.tag] else [])
            && Simulates(out.filter.cache, d, Stored(plain, At(f.baseAddress, f.blockOffset), block))
  {}

  lemma {:induction false} WriteBlocks(c: Config, f: Filter, d: Disk, plain: Disk, blocks: seq<Block>)
    requires Blocking(c, f) && Simulates(f.cache, d, plain)
    requires f.state == Writing && f.blockOffset + |blocks| == f.blockCount
    ensures var x := Through(c, f, blocks);
            && x.1 == []
            && x.0.pipe == (if blocks == [] then [] else [f.tag])
            && Blocking(c, x.0.(pipe := []))
            && Simulates(x.0.cache, d, StoredAll(plain, f.baseAddress, f.blockOffset, blocks))
    decreases |blocks|
  {
    hide Step, Simulates;
    if blocks != [] {
      WriteBlock(c, f, d, plain, blocks[0]);
      var f' := Step(c, f, blocks[0]).filter;
      var plain' := Stored(plain, At(f.baseAddress, f.blockOffset), blocks[0]);
      if |blocks| == 1 {
        assert blocks[1..] == [];
      } else {
        WriteBlocks(c, f', d, plain', blocks[1..]);
      }
    }
  }

  /**
   One command: whatever the filter's cache holds, the real disk is untouched, the simulation
   relation is kept, and the host sees what the plain disk would show unless it wrote no block.
   */
  lemma CommandInvisible(c: Config, f: Filter, d: Disk, plain: Disk, cmd: Command, looped: bool)
    requires Blocking(c, f) && Simulates(f.cache, d, plain) && cmd.Valid()
    ensures var filtered, direct := Filtered(c, f, d, cmd, looped), Execute(plain, cmd);
            && filtered.1 == d
            && Blocking(c, filtered.0) && Simulates(filtered.0.cache, d, direct.0)
            && (filtered.2 == direct.1 <==> !(cmd.Write? && cmd.blocks == []))
  {
    match cmd
    case Read(tag, address, count) => ReadInvisible(c, f, d, plain, cmd, looped);
    case Write(tag, address, blocks) => WriteInvisible(c, f, d, plain, cmd, looped);
    case Other(cbw, replies) => OtherInvisible(c, f, d, plain, cmd, looped);
  }

  lemma ReadInvisible(c: Config, f: Filter, d: Disk, plain: Disk, cmd: Command, looped: bool)
    requires Blocking(c, f) && Simulates(f.cache, d, plain) && cmd.Valid() && cmd.Read?
    ensures var filtered := Filtered(c, f, d, cmd, looped);
            && filtered.1 == d && filtered.2 == Execute(plain, cmd).1
            && Blocking(c, filtered.0) && Simulates(filtered.0.cache, d, plain)
  {
    var cbw := Cbw(cmd.tag, READ_10, cmd.address, cmd.count);
    CbwIsDecoded(cmd.tag, READ_10, cmd.address, cmd.count);
    var f1 := Step(c, f, cbw).filter;
    ThroughOne(c, f, cbw);
    ReadBlocks(c, f1, d, plain, 0, cmd.count);
    CswIsStatus(cmd.tag);
    ThroughAppend(c, f1, Blocks(d, cmd.address, 0, cmd.count), [Csw(cmd.tag)]);
  }

  lemma WriteInvisible(c: Config, f: Filter, d: Disk, plain: Disk, cmd: Command, looped: bool)
    requires Blocking(c, f) && Simulates(f.cache, d, plain) && cmd.Valid() && cmd.Write?
    ensures var filtered, direct := Filtered(c, f, d, cmd, looped), Execute(plain, cmd);
            && filtered.1 == d && filtered.2 == (if cmd.blocks == [] then [] else direct.1)
            && Blocking(c, filtered.0) && Simulates(filtered.0.cache, d, direct.0)
  {
    hide Simulates;
    var cbw := Cbw(cmd.tag, WRITE_10, cmd.address, |cmd.blocks|);
    CbwIsDecoded(cmd.tag, WRITE_10, cmd.address, |cmd.blocks|);
    var f1 := Step(c, f, cbw).filter;
    assert HostPackets(cmd) == [cbw] + cmd.blocks;
    WriteBlocks(c, f1, d, plain, cmd.blocks);
    ThroughOne(c, f, cbw);
    ThroughAppend(c, f, [cbw], cmd.blocks);
    InjectedStatuses(c, Through(c, f, HostPackets(cmd)).0, cmd.tag);
  }

  /** At most one status is injected, and it passes the filter unchanged. */
  lemma InjectedStatuses(c: Config, f: Filter, tag: Tag)
    requires c.Valid() && (f.pipe == [] || f.pipe == [tag])
    ensures FalseStatuses(f.pipe) == if f.pipe == [] then [] else [Csw(tag)]
    ensures (forall k :: 0 <= k < |FalseStatuses(f.pipe)| ==> Fits(FalseStatuses(f.pipe)[k]))
    ensures var x := Through(c, f.(pipe := []), FalseStatuses(f.pipe));
            x.1 == FalseStatuses(f.pipe) && x.0 == f.(pipe := [], state := x.0.state)
  {
    CswIsStatus(tag);
    if f.pipe != [] {
      assert f.pipe[1..] == [];
      ThroughOne(c, f.(pipe := []), Csw(tag));
    }
  }

  lemma OtherInvisible(c: Config, f: Filter, d: Disk, plain: Disk, cmd: Command, looped: bool)
    requires Blocking(c, f) && Simulates(f.cache, d, plain) && cmd.Valid() && cmd.Other?
    ensures var filtered := Filtered(c, f, d, cmd, looped);
            && filtered.1 == d && filtered.2 == cmd.replies
            && Blocking(c, filtered.0) && Simulates(filtered.0.cache, d, plain)
  {
    ThroughOne(c, f, cmd.cbw);
    SmallRepliesPass(c, f, cmd.replies);
  }

  lemma {:induction false} SmallRepliesPass(c: Config, f: Filter, replies: Packets)
    requires c.Valid()
    requires forall i :: 0 <= i < |replies| ==> |replies[i]| <= 64 && !IsCommand(replies[i])
    ensures var x := Through(c, f, replies);
            x.1 == replies && x.0 == f.(state := x.0.state)
    decreases |replies|
  {
    if replies != [] {
      SmallRepliesPass(c, Step(c, f, replies[0]).filter, replies[1..]);
    }
  }

  // ----- Runs -----

  /** What the host sees of each command behind the filter, and the real disk at the end. */
  function FilteredRun(c: Config, f: Filter, d: Disk, cmds: seq<Command>, looped: seq<bool>): (seq<Packets>, Disk)
    requires c.Valid() && (forall k :: 0 <= k < |cmds| ==> cmds[k].Valid()) && |looped| == |cmds|
    decreases |cmds|
  {
    if cmds == [] then ([], d)
    else
      var x := Filtered(c, f, d, cmds[0], looped[0]);
      var rest := FilteredRun(c, x.0, x.1, cmds[1..], looped[1..]);
      ([x.2] + rest.0, rest.1)
  }

  /** What the host sees of each command on a plain writable disk. */
  function PlainRun(d: Disk, cmds: seq<Command>): seq<Packets>
    requires forall k :: 0 <= k < |cmds| ==> cmds[k].Valid()
    decreases |cmds|
  {
    if cmds == [] then []
    else
      var x := Execute(d, cmds[0]);
      [x.1] + PlainRun(x.0, cmds[1..])
  }

  predicate WritesBlocks(cmd: Command) { cmd.Write? ==> cmd.blocks != [] }

  /**
   With the cache on, writes blocked and inband signalling off, the host sees over any run of
   commands exactly what a plain writable disk would show it (the same data, and success statuses
   with the right tags) if and only if every write command writes at least one block; a write of no
   block is never answered. In every case the real disk stays as it is. This takes it that the statuses
   the filter queues reach the host, with or without passing the filter again; in the source nothing
   connects the injector that hands them out to a relay (Manager.cpp, lines 305-307 and 429-430).
   */
  lemma {:induction false} BlockingIsInvisible(c: Config, f: Filter, d: Disk, plain: Disk, cmds: seq<Command>,
                                               looped: seq<bool>)
    requires Blocking(c, f) && Simulates(f.cache, d, plain)
    requires (forall k :: 0 <= k < |cmds| ==> cmds[k].Valid()) && |looped| == |cmds|
    ensures FilteredRun(c, f, d, cmds, looped).1 == d
    ensures FilteredRun(c, f, d, cmds, looped).0 == PlainRun(plain, cmds)
            <==> forall k :: 0 <= k < |cmds| ==> WritesBlocks(cmds[k])
    decreases |cmds|
  {
    if cmds != [] {
      CommandInvisible(c, f, d, plain, cmds[0], looped[0]);
      var x, y := Filtered(c, f, d, cmds[0], looped[0]), Execute(plain, cmds[0]);
      BlockingIsInvisible(c, x.0, d, y.0, cmds[1..], looped[1..]);
      var rest, plainRest := FilteredRun(c, x.0, d, cmds[1..], looped[1..]).0, PlainRun(y.0, cmds[1..]);
      assert ([x.2] + rest)[0] == x.2 && ([x.2] + rest)[1..] == rest;
      assert ([y.1] + plainRest)[0] == y.1 && ([y.1] + plainRest)[1..] == plainRest;
    }
  }
}
