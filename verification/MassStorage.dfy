/**
 The mass-storage filter (PacketFilter_MassStorage.cpp): a state machine driven by the packets of
 Bulk-Only Transport, with a block cache laid over the device. `Filter` and the functions on it say
 what a packet does; class `MassStorageFilter` does it in place.
 */
module MassStorage {
  import opened Common
  import opened Packets

  const BLOCK_SIZE: nat := 512

  datatype Mode = Idle | Reading | Writing

  /** The configuration flags that never change. */
  datatype Config = Config(
    cacheBlocks: bool, inband: bool, blockPassword: seq<byte>, unblockPassword: seq<byte>)
  {
    /** An empty password would make the matcher read past its end. */
    predicate Valid() { inband ==> blockPassword != [] && unblockPassword != [] }

    /** The password that flips the inband mode: unblocking while blocked, blocking otherwise. */
    function Password(blocked: bool): seq<byte> {
      if blocked then unblockPassword else blockPassword
    }
  }

  /** The fields the packets change; `pipe` holds the tags waiting for a false status. */
  datatype Filter = Filter(
    state: Mode, tag: Tag, blockWrites: bool, inbandBlockWrites: bool,
    blockCount: word, blockOffset: dword, baseAddress: dword,
    cache: map<dword, seq<byte>>, pipe: seq<Tag>)

  datatype Outcome = Outcome(filter: Filter, data: seq<byte>, transmit: bool)

  /** `dCBWTag`. */
  type Tag = t: seq<byte> | |t| == 4 witness [0, 0, 0, 0]

  // ----- Classifying packets -----

  datatype Kind = Command | Status | Payload | Unknown

  function KindOf(data: seq<byte>): Kind {
    if |data| == 31 && data[..4] == [0x55, 0x53, 0x42, 0x43] then Command
    else if |data| == 13 && data[..4] == [0x55, 0x53, 0x42, 0x53] then Status
    else if |data| > 64 then Payload
    else Unknown
  }

  const READ_10: byte := 0x28
  const WRITE_10: byte := 0x2a

  function Opcode(cbw: seq<byte>): byte
    requires |cbw| == 31
  { cbw[0x0f] }

  function TagOf(cbw: seq<byte>): Tag
    requires |cbw| == 31
  { cbw[4..8] }

  function BlockCount(cbw: seq<byte>): word
    requires |cbw| == 31
  { BigEndian16(cbw[0x16], cbw[0x17]) }

  function Address(cbw: seq<byte>): dword
    requires |cbw| == 31
  { BigEndian32(cbw[0x11], cbw[0x12], cbw[0x13], cbw[0x14]) }

  /** The source copies and scans 512 bytes of every packet of more than 64. */
  predicate Fits(data: seq<byte>) {
    |data| <= 64 || |data| >= BLOCK_SIZE
  }

  // ----- Passwords -----

  /** `data[i] == c_str[ptr]` compares an unsigned with a signed char. */
  predicate Matches(d: byte, c: byte) { d == c && c < 0x80 }

  /** The matching loop from index `i` on, with `ptr` characters matched so far. */
  function Scan(password: seq<byte>, data: seq<byte>, i: nat, ptr: nat): bool
    requires ptr < |password| && |data| >= BLOCK_SIZE
    decreases BLOCK_SIZE - i
  {
    if i >= BLOCK_SIZE - |password| then false
    else
      var next := if Matches(data[i], password[ptr]) then ptr + 1 else 0;
      next == |password| || Scan(password, data, i + 1, next)
  }

  function Signalled(c: Config, blocked: bool, data: seq<byte>): bool
    requires c.Valid() && c.inband && |data| >= BLOCK_SIZE
  {
    if Scan(c.Password(blocked), data, 0, 0) then !blocked else blocked
  }

  // ----- One packet -----

  function Step(c: Config, f: Filter, data: seq<byte>): Outcome
    requires c.Valid() && Fits(data)
  {
    match KindOf(data)
    case Command =>
      if Opcode(data) == READ_10 then
        Outcome(f.(state := Reading, blockCount := BlockCount(data), baseAddress := Address(data), blockOffset := 0),
                data, true)
      else if Opcode(data) == WRITE_10 then
        var block := if c.inband then f.inbandBlockWrites else f.blockWrites;
        Outcome(f.(state := Writing, blockWrites := block, tag := TagOf(data), blockCount := BlockCount(data),
                   baseAddress := Address(data), blockOffset := 0),
                data, !block)
      else
        Outcome(f, data, true)
    case Status =>
      Outcome(f.(state := Idle), data, true)
    case Payload =>
      (match f.state
       case Writing => WriteStep(c, f, data)
       case Reading => ReadStep(c, f, data)
       case Idle => Outcome(f, data, true))
    case Unknown =>
      Outcome(f, data, true)
  }

  function CurrentBlock(f: Filter): dword {
    (f.blockOffset + f.baseAddress) % 0x1_0000_0000
  }

  function NextOffset(f: Filter): dword {
    (f.blockOffset + 1) % 0x1_0000_0000
  }

  function ReadStep(c: Config, f: Filter, data: seq<byte>): Outcome
    requires |data| >= BLOCK_SIZE
  {
    var a, f' := CurrentBlock(f), f.(blockOffset := NextOffset(f));
    if !c.cacheBlocks then Outcome(f', data, true)
    else if a in f.cache then Outcome(f', f.cache[a] + data[BLOCK_SIZE..], true)
    else Outcome(f'.(cache := f.cache[a := data[..BLOCK_SIZE]]), data, true)
  }

  function WriteStep(c: Config, f: Filter, data: seq<byte>): Outcome
    requires c.Valid() && |data| >= BLOCK_SIZE
  {
    var f1 := if c.cacheBlocks then f.(cache := f.cache[CurrentBlock(f) := data[..BLOCK_SIZE]]) else f;
    var f2 := if c.inband then f1.(inbandBlockWrites := Signalled(c, f.inbandBlockWrites, data)) else f1;
    if !f.blockWrites then Outcome(f2, data, true)
    else
      var f3 := f2.(blockOffset := NextOffset(f));
      Outcome(if f3.blockOffset == f.blockCount then f3.(pipe := f.pipe + [f.tag]) else f3, data, false)
  }

  /** The false status `get_packets` injects on endpoint 0x82 for a queued tag. */
  function FalseStatus(tag: Tag): seq<byte> {
    [0x55, 0x53, 0x42, 0x53] + tag + [0, 0, 0, 0, 0]
  }

  // ----- The filter object -----

  class MassStorageFilter {
    const config: Config
    var state: Mode
    var tag: Tag
    var blockWrites: bool
    var inbandBlockWrites: bool
    var blockCount: word
    var blockOffset: dword
    var baseAddress: dword
    var blockCache: map<dword, seq<byte>>
    var pipe: seq<Tag>

    ghost function View(): Filter
      reads this
    {
      Filter(state, tag, blockWrites, inbandBlockWrites, blockCount, blockOffset, baseAddress, blockCache, pipe)
    }

    ghost predicate Valid()
      reads this
    {
      && config.Valid()
      && (forall a :: a in blockCache ==> |blockCache[a]| == BLOCK_SIZE)
    }

    constructor (config: Config, blockWrites: bool)
      requires config.Valid()
      ensures Valid() && this.config == config
      ensures View().state == Idle && View().cache == map[] && View().pipe == []
      ensures View().blockWrites == View().inbandBlockWrites == blockWrites
    {
      this.config := config;
      this.blockWrites := blockWrites;
      inbandBlockWrites := blockWrites;
      state, blockCount, blockOffset, baseAddress := Idle, 0, 0, 0;
      tag, blockCache, pipe := [0, 0, 0, 0], map[], [];
    }

    method FilterPacket(packet: PacketObject)
      requires Valid() && Fits(packet.data[..])
      modifies this, packet, packet.data
      ensures Valid()
      ensures var out := Step(config, old(View()), old(packet.data[..]));
              && View() == out.filter && packet.data[..] == out.data
              && packet.transmit == (old(packet.transmit) && out.transmit)
    {
      var data := packet.data;
      match KindOf(data[..]) {
        case Command =>
          Dispatch(packet);
        case Status =>
          state := Idle;
        case Payload =>
          if state == Writing {
            WriteData(packet);
          } else if state == Reading {
            if config.cacheBlocks {
              CacheRead((blockOffset + baseAddress) % 0x1_0000_0000, data);
            }
            blockOffset := (blockOffset + 1) % 0x1_0000_0000;
          }
        case Unknown =>
      }
    }

    /** A data packet of a write command. */
    method WriteData(packet: PacketObject)
      requires Valid() && packet.data.Length >= BLOCK_SIZE
      modifies this, packet
      ensures Valid()
      ensures var out := WriteStep(config, old(View()), packet.data[..]);
              && View() == out.filter && out.data == packet.data[..]
              && packet.transmit == (old(packet.transmit) && out.transmit)
    {
      hide Signalled, Scan, Fits, KindOf;
      var data := packet.data;
      if config.cacheBlocks {
        CacheWrite((blockOffset + baseAddress) % 0x1_0000_0000, data);
      }
      if config.inband {
        CheckForPassword(data);
      }
      if blockWrites {
        packet.transmit := false;
        blockOffset := (blockOffset + 1) % 0x1_0000_0000;
        if blockOffset == blockCount {
          QueuePacket();
        }
      }
    }

    /** A Command Block Wrapper. */
    method Dispatch(packet: PacketObject)
      requires Valid() && KindOf(packet.data[..]) == Command
      modifies this, packet
      ensures Valid()
      ensures var out := Step(config, old(View()), packet.data[..]);
              && View() == out.filter && out.data == packet.data[..]
              && packet.transmit == (old(packet.transmit) && out.transmit)
    {
      var data := packet.data;
      if data[0x0f] == READ_10 {
        state := Reading;
      } else if data[0x0f] == WRITE_10 {
        state := Writing;
        if config.inband {
          blockWrites := inbandBlockWrites;
        }
        if blockWrites {
          packet.transmit := false;
        }
        tag := data[4..8];
      } else {
        return;
      }
      blockCount := BigEndian16(data[0x16], data[0x17]);
      baseAddress := BigEndian32(data[0x11], data[0x12], data[0x13], data[0x14]);
      blockOffset := 0;
    }

    method QueuePacket()
      modifies `pipe
      ensures pipe == old(pipe) + [tag]
    {
      pipe := pipe + [tag];
    }

    method CacheRead(address: dword, data: array<byte>)
      requires Valid() && data.Length >= BLOCK_SIZE
      modifies `blockCache, data
      ensures Valid()
      ensures if address in old(blockCache)
              then blockCache == old(blockCache) && data[..] == old(blockCache)[address] + old(data[BLOCK_SIZE..])
              else data[..] == old(data[..]) && blockCache == old(blockCache)[address := old(data[..BLOCK_SIZE])]
    {
      if address !in blockCache {
        blockCache := blockCache[address := data[..BLOCK_SIZE]];
      } else {
        var block := blockCache[address];
        forall i | 0 <= i < BLOCK_SIZE {
          data[i] := block[i];
        }
      }
    }

    method CacheWrite(address: dword, data: array<byte>)
      requires Valid() && data.Length >= BLOCK_SIZE
      modifies `blockCache
      ensures Valid() && blockCache == old(blockCache)[address := data[..BLOCK_SIZE]]
    {
      blockCache := blockCache[address := data[..BLOCK_SIZE]];
    }

    method CheckForPassword(data: array<byte>)
      requires Valid() && config.inband && data.Length >= BLOCK_SIZE
      modifies `inbandBlockWrites
      ensures inbandBlockWrites == Signalled(config, old(inbandBlockWrites), data[..])
    {
      if inbandBlockWrites {
        var found := Find(config.unblockPassword, data);
        if found {
          inbandBlockWrites := false;
        }
      } else {
        var found := Find(config.blockPassword, data);
        if found {
          inbandBlockWrites := true;
        }
      }
    }

    /** The comparison loop of `check_for_password`. */
    method Find(password: seq<byte>, data: array<byte>) returns (found: bool)
      requires password != [] && data.Length >= BLOCK_SIZE
      ensures found == Scan(password, data[..], 0, 0)
    {
      var ptr, i := 0, 0;
      while i < BLOCK_SIZE - |password|
        invariant ptr < |password|
        invariant Scan(password, data[..], i, ptr) == Scan(password, data[..], 0, 0)
      {
        ptr := if Matches(data[i], password[ptr]) then ptr + 1 else 0;
        if ptr == |password| {
          return true;
        }
        i := i + 1;
      }
      return false;
    }

    /** `get_packets` blocks until the pipe holds a tag. */
    method GetPackets() returns (status: seq<byte>)
      requires Valid() && pipe != []
      modifies `pipe
      ensures Valid() && old(pipe) == [old(pipe)[0]] + pipe
      ensures status == FalseStatus(old(pipe)[0]) && |status| == 13
    {
      status := FalseStatus(pipe[0]);
      pipe := pipe[1..];
    }
  }
}
