/** Data packets (Packet.h). */
module Packets {
  import opened Common

  /** `Packet` as a value: `data` are the `wLength` bytes it points to. */
  datatype Packet = Packet(bEndpoint: byte, data: seq<byte>, filter: bool, transmit: bool)

  /** A packet as the readers create it; the constructor's length parameter has sixteen bits. */
  function NewPacket(endpoint: byte, bytes: seq<byte>): (p: Packet)
    ensures p.bEndpoint == endpoint && p.filter && p.transmit
    ensures if |bytes| < 0x1_0000 then p.data == bytes else p.data < bytes
  {
    Packet(endpoint, bytes[..|bytes| % 0x1_0000], true, true)
  }

  /** `Packet` as the object the filters change in place. */
  class PacketObject {
    const bEndpoint: byte
    const data: array<byte>
    var filter: bool
    var transmit: bool

    ghost function View(): Packet
      reads this, data
    {
      Packet(bEndpoint, data[..], filter, transmit)
    }

    constructor (endpoint: byte, data: array<byte>)
      ensures View() == Packet(endpoint, data[..], true, true) && this.data == data
    {
      this.bEndpoint, this.data := endpoint, data;
      filter, transmit := true, true;
    }
  }
}
