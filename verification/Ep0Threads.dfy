/** `RelayReader` and `RelayWriter` on EP0 as objects: each method is one atomic step and refines the state machine. */
module Ep0Threads {
  import opened Common
  import opened SafeQueues
  import opened Ep0Machine

  class SetupReader {
    var pc: ReaderPc
    var directionOut: bool
    var p: PacketPtr
    var pleaseStop: bool
    const sendQueue: SafeQueue<PacketPtr>
    const recvQueue: SafeQueue<PacketPtr>

    ghost function View(): Reader
      reads this
    {
      Reader(pc, directionOut, p, pleaseStop)
    }

    constructor (sendQueue: SafeQueue<PacketPtr>, recvQueue: SafeQueue<PacketPtr>)
      ensures View() == Reader(ReaderTop, true, None, false)
      ensures this.sendQueue == sendQueue && this.recvQueue == recvQueue
    {
      this.sendQueue := sendQueue;
      this.recvQueue := recvQueue;
      pc, directionOut, p, pleaseStop := ReaderTop, true, None, false;
    }

    /** One step of `relay_read_setup`; `effect` reports what the host proxy was asked to do. */
    method Step(serial: nat, input: HostInput) returns (effect: ReaderEffect)
      requires sendQueue != recvQueue && ReaderEnabled(View(), recvQueue.q)
      modifies this, sendQueue, recvQueue
      ensures ReaderResult(View(), sendQueue.q, recvQueue.q, effect)
              == ReaderNext(old(View()), old(sendQueue.q), old(recvQueue.q), serial, input)
    {
      effect := NoEffect;
      match pc {
        case ReaderTop =>
          if pleaseStop {
            pc := ReaderExit;
          } else if directionOut {
            pc := Fetch;
          } else if p == None {
            pc := AwaitReply;
          } else {
            pc := WaitComplete;
          }
        case Fetch =>
          if input.Arrives? {
            p := Some(NewPacket(serial, input.request));
            effect := Took(input.request);
          }
          pc := if p == None then ReaderTop else SendRequest;
        case SendRequest =>
          if |sendQueue.q| >= QUEUE_MAX && p.Some? {
            effect := ReaderLost(p.value.serial, RequestDropped);
          }
          sendQueue.Enqueue(p);
          directionOut := false;
          p := None;
          pc := ReaderTop;
        case AwaitReply =>
          p := recvQueue.Dequeue();
          pc := ReplyTaken;
        case ReplyTaken =>
          if pleaseStop {
            if p.Some? {
              effect := ReaderLost(p.value.serial, ReaderStopped);
            }
            p := None;
            pc := ReaderExit;
          } else {
            pc := if p == None then ReaderTop else AnswerHost;
          }
        case AnswerHost =>
          if p.Some? {
            effect := Answered(p.value.serial, CallFor(p.value));
          }
          pc := WaitComplete;
        case WaitComplete =>
          if input.Completed? {
            directionOut := true;
            p := None;
          }
          pc := ReaderTop;
        case ReaderExit =>
          pleaseStop := false;
          pc := ReaderDone;
      }
    }

    /** `please_stop`, first step. */
    method RaiseFlag()
      modifies `pleaseStop
      ensures View() == old(View()).(stop := true)
    {
      pleaseStop := true;
    }

    /** `please_stop`, second step. */
    method SendToken()
      modifies recvQueue
      ensures recvQueue.q == Pushed(old(recvQueue.q), None)
    {
      recvQueue.Enqueue(None);
    }
  }

  class SetupWriter {
    var pc: WriterPc
    var p: PacketPtr
    var j: byte
    var length: nat
    var pleaseStop: bool
    const filterCount: nat
    const recvQueue: SafeQueue<PacketPtr>
    const sendQueue: SafeQueue<PacketPtr>

    ghost function View(): Writer
      reads this
    {
      Writer(pc, p, j, length, pleaseStop)
    }

    constructor (filterCount: nat, recvQueue: SafeQueue<PacketPtr>, sendQueue: SafeQueue<PacketPtr>)
      ensures View().pc == WriterTop && View().p == None && !View().stop
      ensures this.filterCount == filterCount && this.recvQueue == recvQueue && this.sendQueue == sendQueue
    {
      this.filterCount := filterCount;
      this.recvQueue := recvQueue;
      this.sendQueue := sendQueue;
      pc, p, j, length, pleaseStop := WriterTop, None, 0, *, false;
    }

    /** One step of `relay_write_setup`; `effect` reports the device call. */
    method Step(input: WriterInput) returns (effect: WriterEffect)
      requires sendQueue != recvQueue && WriterEnabled(filterCount, View(), recvQueue.q, input)
      modifies this, sendQueue, recvQueue
      ensures WriterResult(View(), recvQueue.q, sendQueue.q, effect)
              == WriterNext(filterCount, old(View()), old(recvQueue.q), old(sendQueue.q), input)
    {
      effect := Nothing;
      match pc {
        case WriterTop =>
          pc := if pleaseStop then WriterExit else AwaitRequest;
        case AwaitRequest =>
          p := recvQueue.Dequeue();
          pc := RequestTaken;
        case RequestTaken =>
          if pleaseStop {
            if p.Some? {
              effect := WriterLost(p.value.serial, WriterStopped);
            }
            pc := WriterExit;
          } else if p == None {
            pc := WriterTop;
          } else {
            j := 0;
            pc := FilterOut;
          }
        case FilterOut =>
          if j < filterCount && p.value.filterOut {
            p := Some(input.packet);
            j := (j as int + 1) % 0x100;
          } else if !p.value.transmitOut {
            effect := WriterLost(p.value.serial, Withheld);
            pc := WriterTop;
          } else {
            pc := AskDevice;
          }
        case AskDevice =>
          effect := CallDevice(input.reply, input.junk);
        case FilterIn =>
          if j < filterCount && p.value.filterIn {
            p := Some(input.packet);
            j := (j as int + 1) % 0x100;
          } else {
            pc := SendReply;
          }
        case SendReply =>
          if |sendQueue.q| >= QUEUE_MAX && p.Some? {
            effect := WriterLost(p.value.serial, ReplyDropped);
          }
          sendQueue.Enqueue(p);
          pc := WriterTop;
        case WriterExit =>
          pleaseStop := false;
          pc := WriterDone;
      }
    }

    /** The device call, with the packet's buffer, length and flag updated in place. */
    method CallDevice(reply: DeviceReply, junk: seq<byte>) returns (effect: WriterEffect)
      requires sendQueue != recvQueue && pc == AskDevice
      requires WriterEnabled(filterCount, View(), recvQueue.q, Replied(reply, junk))
      modifies `pc, `p, `j, `length
      ensures WriterResult(View(), recvQueue.q, sendQueue.q, effect)
              == WriterNext(filterCount, old(View()), old(recvQueue.q), old(sendQueue.q), Replied(reply, junk))
    {
      var s := p.value;
      var ctrl := s.ctrl;
      var config := None;
      if ctrl.DeviceToHost() {
        s := s.(data := if reply.rc >= 0 then reply.data + junk[|reply.data|..] else junk);
        if reply.rc >= 0 {
          length := |reply.data|;
        }
        s := s.(transmitIn := reply.rc >= 0);
        j := 0;
        s := s.(ctrl := ctrl.(wLength := length % 0x1_0000));
      } else {
        length := ctrl.wLength;
        if reply.rc >= 0 {
          length := |reply.data|;
        }
        s := s.(transmitIn := reply.rc >= 0);
        if ctrl.SetsConfiguration() {
          config := Some(ctrl.wValue % 0x100);
        }
        s := s.(ctrl := ctrl.(wLength := 0));
      }
      effect := Called(Call(p.value.serial, Request(ctrl, p.value.data), reply), config);
      p := Some(s);
      pc := FilterIn;
    }

    method RaiseFlag()
      modifies `pleaseStop
      ensures View() == old(View()).(stop := true)
    {
      pleaseStop := true;
    }

    method SendToken()
      modifies recvQueue
      ensures recvQueue.q == Pushed(old(recvQueue.q), None)
    {
      recvQueue.Enqueue(None);
    }
  }
}
