/** What the packets of Bulk-Only Transport look like on the bus, apart from how the filter reads them. */
module BulkOnly {
  import opened Common

  /** A Command Block Wrapper: 31 bytes with its signature, section 5.1. */
  predicate IsCommand(p: seq<byte>) { |p| == 31 && p[..4] == [0x55, 0x53, 0x42, 0x43] }

  predicate IsRead(p: seq<byte>) { IsCommand(p) && p[0x0f] == 0x28 }

  predicate IsWrite(p: seq<byte>) { IsCommand(p) && p[0x0f] == 0x2a }

  /** A Command Status Wrapper: 13 bytes with its signature, section 5.2. */
  predicate IsStatus(p: seq<byte>) { |p| == 13 && p[..4] == [0x55, 0x53, 0x42, 0x53] }

  /** Everything the filter takes for the data of a command. */
  predicate IsData(p: seq<byte>) { |p| > 64 }

  predicate NoCommands(packets: seq<seq<byte>>) {
    forall k :: 0 <= k < |packets| ==> !IsCommand(packets[k])
  }
}
