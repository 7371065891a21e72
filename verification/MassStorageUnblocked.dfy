/**
 With writes not blocked the block offset stands still, so the cache takes every block of a write for the first
 one.
 */
module MassStorageUnblocked {
  import opened Common
  import opened MassStorage
  import opened MassStorageDisk

  predicate Unblocked(c: Config, f: Filter) {
    c.Valid() && c.cacheBlocks && !c.inband && !f.blockWrites && f.pipe == []
  }

  // ----- The disks after a write -----

  /** `a` is none of the `n` addresses from the i-th on. */
  predicate Outside(address: dword, i: nat, n: nat, a: dword) {
    forall j: nat :: i <= j < i + n ==> At(address, j) != a
  }

  lemma {:induction false} StoredBefore(d: Disk, address: dword, i: nat, blocks: seq<Block>, a: dword)
    requires Outside(address, i, |blocks|, a)
    ensures StoredAll(d, address, i, blocks)(a) == d(a)
    decreases |blocks|
  {
    if blocks != [] {
      assert At(address, i) != a;
      StoredBefore(Stored(d, At(address, i), blocks[0]), address, i + 1, blocks[1..], a);
    }
  }

  lemma NotAgain(address: dword, i: nat, n: nat)
    requires n < 0x1_0000_0000
    ensures Outside(address, i + 1, n, At(address, i))
  {}

  lemma {:induction false} StoredAt(d: Disk, address: dword, i: nat, blocks: seq<Block>, k: nat)
    requires i + |blocks| <= 0x1_0000_0000 && k < |blocks|
    ensures StoredAll(d, address, i, blocks)(At(address, i + k)) == blocks[k]
    decreases |blocks|
  {
    var d' := Stored(d, At(address, i), blocks[0]);
    hide At, Outside;
    if k == 0 {
      NotAgain(address, i, |blocks| - 1);
      StoredBefore(d', address, i + 1, blocks[1..], At(address, i));
    } else {
      StoredAt(d', address, i + 1, blocks[1..], k - 1);
    }
  }

  // ----- The cache after a write -----

  function Overwritten(cache: map<dword, seq<byte>>, a: dword, blocks: seq<Block>): map<dword, seq<byte>> {
    if blocks == [] then cache else cache[a := blocks[|blocks| - 1]]
  }

  lemma PassedBlock(c: Config, f: Filter, block: Block)
    requires Unblocked(c, f) && f.state == Writing && f.blockOffset == 0
    ensures Step(c, f, block) == Outcome(f.(cache := f.cache[f.baseAddress := block]), block, true)
  {
    assert block[..BLOCK_SIZE] == block;
  }

  /** Every block passes, and each is cached at the address of the first. */
  lemma {:induction false} PassedBlocks(c: Config, f: Filter, blocks: seq<Block>)
    requires Unblocked(c, f) && f.state == Writing && f.blockOffset == 0
    ensures Through(c, f, blocks) == (f.(cache := Overwritten(f.cache, f.baseAddress, blocks)), blocks)
    decreases |blocks|
  {
    hide Step;
    if blocks != [] {
      var f' := f.(cache := f.cache[f.baseAddress := blocks[0]]);
      PassedBlock(c, f, blocks[0]);
      PassedBlocks(c, f', blocks[1..]);
      assert [blocks[0]] + blocks[1..] == blocks;
      assert Overwritten(f'.cache, f.baseAddress, blocks[1..]) == Overwritten(f.cache, f.baseAddress, blocks);
    }
  }

  // ----- The simulation -----

  /** What the host can check before it writes. */
  predicate KeepsSimulation(cache: map<dword, seq<byte>>, address: dword, blocks: seq<Block>) {
    || blocks == []
    || (&& blocks[|blocks| - 1] == blocks[0]
        && forall k :: 1 <= k < |blocks| && At(address, k) in cache ==> cache[At(address, k)] == blocks[k])
  }

  lemma SimulationKept(cache: map<dword, seq<byte>>, d: Disk, plain: Disk, address: dword, blocks: seq<Block>)
    requires Simulates(cache, d, plain) && |blocks| < 0x1_0000 && KeepsSimulation(cache, address, blocks)
    ensures Simulates(Overwritten(cache, address, blocks), StoredAll(d, address, 0, blocks),
              StoredAll(plain, address, 0, blocks))
  {
    hide StoredAll;
    var cache', d', plain' := Overwritten(cache, address, blocks), StoredAll(d, address, 0, blocks),
      StoredAll(plain, address, 0, blocks);
    forall a: dword
      ensures plain'(a) == if a in cache' then cache'[a] else d'(a)
    {
      if Outside(address, 0, |blocks|, a) {
        StoredBefore(d, address, 0, blocks, a);
        StoredBefore(plain, address, 0, blocks, a);
        assert blocks != [] ==> At(address, 0) != a;
      } else {
        var k: nat :| k < |blocks| && At(address, k) == a;
        StoredAt(d, address, 0, blocks, k);
        StoredAt(plain, address, 0, blocks, k);
      }
    }
  }

  lemma SimulationOnlyIf(cache: map<dword, seq<byte>>, d: Disk, plain: Disk, address: dword, blocks: seq<Block>)
    requires Simulates(cache, d, plain) && |blocks| < 0x1_0000 && blocks != []
    requires Simulates(Overwritten(cache, address, blocks), StoredAll(d, address, 0, blocks),
              StoredAll(plain, address, 0, blocks))
    ensures KeepsSimulation(cache, address, blocks)
  {
    hide StoredAll;
    StoredAt(plain, address, 0, blocks, 0);
    assert At(address, 0 + 0) == address;
    forall k | 1 <= k < |blocks| && At(address, k) in cache
      ensures cache[At(address, k)] == blocks[k]
    {
      StoredAt(plain, address, 0, blocks, k);
      assert At(address, 0 + k) != address;
    }
  }

  // ----- One write command -----

  /**
   A write with writes not blocked: the device gets the whole command and the host its status, but the cache
   goes on simulating the plain disk if and only if the command has no block, or its last block equals its
   first and every later address already cached holds the very block written there.
   */
  lemma UnblockedWriteExactly(c: Config, f: Filter, d: Disk, plain: Disk, cmd: Command, looped: bool)
    requires Unblocked(c, f) && Simulates(f.cache, d, plain) && cmd.Valid() && cmd.Write?
    ensures var filtered, direct := Filtered(c, f, d, cmd, looped), Execute(plain, cmd);
            && filtered.1 == StoredAll(d, cmd.address, 0, cmd.blocks) && filtered.2 == direct.1
            && Unblocked(c, filtered.0)
            && filtered.0.cache == Overwritten(f.cache, cmd.address, cmd.blocks)
            && (Simulates(filtered.0.cache, filtered.1, direct.0) <==>
                KeepsSimulation(f.cache, cmd.address, cmd.blocks))
  {
    WritePasses(c, f, d, cmd, looped);
    if KeepsSimulation(f.cache, cmd.address, cmd.blocks) {
      SimulationKept(f.cache, d, plain, cmd.address, cmd.blocks);
    } else if Simulates(Overwritten(f.cache, cmd.address, cmd.blocks), StoredAll(d, cmd.address, 0, cmd.blocks),
                        StoredAll(plain, cmd.address, 0, cmd.blocks)) {
      SimulationOnlyIf(f.cache, d, plain, cmd.address, cmd.blocks);
    }
  }

  lemma WritePasses(c: Config, f: Filter, d: Disk, cmd: Command, looped: bool)
    requires Unblocked(c, f) && cmd.Valid() && cmd.Write?
    ensures var filtered := Filtered(c, f, d, cmd, looped);
            && filtered.1 == StoredAll(d, cmd.address, 0, cmd.blocks) && filtered.2 == [Csw(cmd.tag)]
            && Unblocked(c, filtered.0)
            && filtered.0.cache == Overwritten(f.cache, cmd.address, cmd.blocks)
  {
    hide StoredAll;
    var cbw := Cbw(cmd.tag, WRITE_10, cmd.address, |cmd.blocks|);
    CbwIsDecoded(cmd.tag, WRITE_10, cmd.address, |cmd.blocks|);
    var f1 := Step(c, f, cbw).filter;
    PassedBlocks(c, f1, cmd.blocks);
    ThroughOne(c, f, cbw);
    ThroughAppend(c, f, [cbw], cmd.blocks);
    CswIsStatus(cmd.tag);
    var f2 := Through(c, f, HostPackets(cmd)).0;
    ThroughOne(c, f2, Csw(cmd.tag));
    InjectedStatuses(c, f2.(state := Mode.Idle), cmd.tag);
  }

  /** Two different blocks written at address 0, and block 0 read back: the host is shown the second one. */
  lemma SecondBlockShown(c: Config, f: Filter, d: Disk, x: Block, y: Block, t0: Tag, t1: Tag)
    requires Unblocked(c, f) && f.cache == map[] && x != y
    ensures var cmds := [Write(t0, 0, [x, y]), Read(t1, 0, 1)];
            && FilteredRun(c, f, d, cmds, [false, false]).0 == [[Csw(t0)], [y, Csw(t1)]]
            && PlainRun(d, cmds) == [[Csw(t0)], [x, Csw(t1)]]
  {
    hide Filtered, Execute, StoredAll, Blocks;
    var w, r := Write(t0, 0, [x, y]), Read(t1, 0, 1);
    var cmds := [w, r];
    WritePasses(c, f, d, w, false);
    var after := Filtered(c, f, d, w, false);
    CachedRead(c, after.0, after.1, t1);
    PlainReadBack(d, x, y, t0, t1);
    assert cmds[1..] == [r] && [r][1..] == [];
    assert [false, false][1..] == [false] && [false][1..] == [];
    assert FilteredRun(c, after.0, after.1, [r], [false]).0 == [Filtered(c, after.0, after.1, r, false).2];
    assert PlainRun(StoredAll(d, 0, 0, [x, y]), [r]) == [Execute(StoredAll(d, 0, 0, [x, y]), r).1];
  }

  lemma PlainReadBack(d: Disk, x: Block, y: Block, t0: Tag, t1: Tag)
    ensures Execute(d, Write(t0, 0, [x, y])) == (StoredAll(d, 0, 0, [x, y]), [Csw(t0)])
    ensures Execute(StoredAll(d, 0, 0, [x, y]), Read(t1, 0, 1)).1 == [x, Csw(t1)]
  {
    hide StoredAll;
    StoredAt(d, 0, 0, [x, y], 0);
    assert At(0, 0) == 0;
    OneBlock(StoredAll(d, 0, 0, [x, y]), 0);
  }

  lemma OneBlock(d: Disk, a: dword)
    ensures Blocks(d, a, 0, 1) == [d(At(a, 0))]
  {
    assert Blocks(d, a, 1, 1) == [];
  }

  /** Reading block 0 when it is cached. */
  lemma CachedRead(c: Config, f: Filter, d: Disk, tag: Tag)
    requires Unblocked(c, f) && (0 as dword) in f.cache && |f.cache[0 as dword]| == BLOCK_SIZE
    ensures Filtered(c, f, d, Read(tag, 0, 1), false).2 == [f.cache[0 as dword], Csw(tag)]
  {
    var cmd := Read(tag, 0, 1);
    var cbw := Cbw(tag, READ_10, 0, 1);
    CbwIsDecoded(tag, READ_10, 0, 1);
    ThroughOne(c, f, cbw);
    var f1 := Step(c, f, cbw).filter;
    OneBlock(d, 0);
    var block := d(At(0, 0));
    ThroughOne(c, f1, block);
    CswIsStatus(tag);
    var f2 := Step(c, f1, block).filter;
    ThroughOne(c, f2, Csw(tag));
    ThroughAppend(c, f1, [block], [Csw(tag)]);
    assert Blocks(d, 0, 0, 1) + [Csw(tag)] == [block] + [Csw(tag)];
    assert block[BLOCK_SIZE..] == [] && f.cache[0 as dword] + [] == f.cache[0 as dword];
    InjectedStatuses(c, f2.(state := Mode.Idle), tag);
  }
}
