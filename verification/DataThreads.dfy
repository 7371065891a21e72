/** `RelayReader` and `RelayWriter` on a data endpoint as objects; each method is one atomic step. */
module DataThreads {
  import opened Common
  import opened SafeQueues
  import opened Packets
  import opened DataMachine

  class DataReader {
    var pc: ReaderPc
    var p: ItemPtr
    var pleaseStop: bool
    const endpoint: byte
    const sendQueue: SafeQueue<ItemPtr>

    ghost function View(): Reader
      reads this
    {
      Reader(pc, p, pleaseStop)
    }

    constructor (endpoint: byte, sendQueue: SafeQueue<ItemPtr>)
      ensures View() == Reader(ReaderTop, None, false)
      ensures this.endpoint == endpoint && this.sendQueue == sendQueue
    {
      this.endpoint, this.sendQueue := endpoint, sendQueue;
      pc, p, pleaseStop := ReaderTop, None, false;
    }

    /** One step of `relay_read`; `s` is the state of the endpoint, `received` and `dropped` what it gains. */
    method Step(ghost s: State, id: nat, data: seq<byte>) returns (received: seq<Packet>, dropped: seq<nat>)
      requires s.reader == View() && s.queue == sendQueue.q && id == |s.received| && pc != ReaderDone
      modifies this, sendQueue
      ensures ReaderNext(endpoint, s, data)
              == s.(reader := View(), queue := sendQueue.q,
                    received := s.received + received, dropped := s.dropped + dropped)
    {
      received, dropped := [], [];
      match pc {
        case ReaderTop =>
          pc := if pleaseStop then ReaderExit else Receive;
        case Receive =>
          if data == [] {
            pc := ReaderTop;
          } else {
            received := [NewPacket(endpoint, data)];
            p := Some(Item(id, received[0]));
            pc := Enqueue;
          }
        case Enqueue =>
          if |sendQueue.q| >= QUEUE_MAX && p.Some? {
            dropped := [p.value.id];
          }
          sendQueue.Enqueue(p);
          p := None;
          pc := ReaderTop;
        case ReaderExit =>
          pleaseStop := false;
          pc := ReaderDone;
      }
    }

    /** `please_stop`: a data reader has no queue to receive from, so there is only the flag. */
    method PleaseStop()
      modifies `pleaseStop
      ensures View() == old(View()).(stop := true)
    {
      pleaseStop := true;
    }
  }

  class DataWriter {
    var pc: WriterPc
    var writing: bool
    var p: ItemPtr
    var j: nat
    var pleaseStop: bool
    const filterCount: nat
    const recvQueue: SafeQueue<ItemPtr>

    /** What the packet in hand looked like before each filter. */
    ghost var trail: seq<Packet>
    ghost var id: nat

    /** The filters work on `p` in place. */
    ghost predicate Valid()
      reads this
    {
      pc == FilterPacket ==> trail != [] && p == Some(Item(id, trail[|trail| - 1])) && j == |trail| - 1
    }

    ghost function View(): Writer
      reads this
    {
      Writer(pc, writing, id, trail, pleaseStop)
    }

    constructor (filterCount: nat, recvQueue: SafeQueue<ItemPtr>)
      ensures Valid() && View() == Writer(WriterTop, false, 0, [], false)
      ensures this.filterCount == filterCount && this.recvQueue == recvQueue
    {
      this.filterCount, this.recvQueue := filterCount, recvQueue;
      pc, writing, p, j, pleaseStop := WriterTop, false, None, 0, false;
      trail, id := [], 0;
    }

    /** One step of `relay_write`; `sent` and `withheld` are what the state of the endpoint gains. */
    method Step(ghost s: State, filtered: Packet, completes: bool)
        returns (sends: bool, ghost sent: seq<Sent>, ghost withheld: seq<nat>)
      requires Valid() && s.writer == View() && s.queue == recvQueue.q
      requires pc != WriterDone && (pc == AwaitPacket ==> recvQueue.q != [])
      modifies this, recvQueue
      ensures Valid() && sends == (sent != [])
      ensures var s' := WriterNext(filterCount, s, filtered, completes);
              && s'.writer == View() && s'.queue == recvQueue.q
              && s'.sent == s.sent + sent && s'.withheld == s.withheld + withheld
    {
      sends, sent, withheld := false, [], [];
      match pc {
        case WriterTop =>
          pc := if pleaseStop then WriterExit else if writing then WaitComplete else AwaitPacket;
        case AwaitPacket =>
          p := recvQueue.Dequeue();
          if p == None {
            pc := WriterTop;
          } else {
            pc, j := FilterPacket, 0;
            id, trail := p.value.id, [p.value.packet];
          }
        case FilterPacket =>
          sends, sent, withheld := Handle(s, filtered, completes);
        case WaitComplete =>
          writing := !completes;
          pc := WriterTop;
        case WriterExit =>
          pleaseStop := false;
          pc := WriterDone;
      }
    }

    /** The next filter, or after the last one the packet is sent or withheld. */
    method Handle(ghost s: State, filtered: Packet, completes: bool)
        returns (sends: bool, ghost sent: seq<Sent>, ghost withheld: seq<nat>)
      requires Valid() && s.writer == View() && s.queue == recvQueue.q && pc == FilterPacket
      modifies this
      ensures Valid() && sends == (sent != [])
      ensures var s' := WriterNext(filterCount, s, filtered, completes);
              && s'.writer == View() && s'.queue == recvQueue.q
              && s'.sent == s.sent + sent && s'.withheld == s.withheld + withheld
    {
      sends, sent, withheld := false, [], [];
      if j < filterCount {
        p := Some(Item(p.value.id, filtered));
        j := j + 1;
        trail := trail + [filtered];
      } else if p.value.packet.transmit {
        sends, sent := true, [Sent(id, trail)];
        writing, trail := true, [];
        pc := WriterTop;
      } else {
        withheld, trail := [id], [];
        pc := WriterTop;
      }
    }

    method RaiseFlag()
      requires Valid()
      modifies `pleaseStop
      ensures Valid() && View() == old(View()).(stop := true)
    {
      pleaseStop := true;
    }

    method SendToken()
      modifies recvQueue
      ensures recvQueue.q == Pushed(old(recvQueue.q), None)
    {
      recvQueue.Enqueue(None);
    }
  }
}
