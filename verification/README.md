# USBProxy, verified

A Dafny model of the parts of USBProxy that relay packets, rewrite them and rebuild descriptors, with proofs
about every run and every input. The code that changes state step by step is modelled as classes and methods;
each is proved against functions on values, and the theorems are about those functions.

| part | files |
|---|---|
| EP0: two threads, two queues, one request at a time | `SafeQueue`, `Ep0Machine`, `Ep0Flow`, `Ep0Losses`, `Ep0Progress`, `Ep0Sessions`, `Ep0Record`, `Ep0Transparency`, `Ep0Filters`, `Ep0Shutdown`, `Ep0Threads` |
| data endpoints: a reader and a writer joined by a queue | `Packets`, `DataMachine`, `DataFlow`, `DataRecord`, `DataProgress`, `DataShutdown`, `DataThreads` |
| starting and stopping all of these threads | `RelaySlots`, `RelayManager` |
| the mass-storage filter and its block cache | `BulkOnly`, `MassStorage`, `MassStorageDisk`, `MassStorageUnblocked`, `MassStorageRuns`, `MassStorageInband` |
| the descriptor tree: parser, printer, validator | `Records`, `DescriptorTree`, `DescriptorBuild`, `DescriptorRoundTrip`, `DescriptorOrder`, `DescriptorNormalForm`, `DescriptorConstruction`, `DescriptorIo`, `DescriptorValidity`, `DescriptorObjects` |
| the block of descriptors for GadgetFS | `GadgetBlob`, `GadgetWalk`, `GadgetSections` |
| the string table | `StringTable` |
| packet log and replay | `LogText`, `LogReplay` |

A thread is a program counter and its locals; one event is one atomic step of one thread, and a queue operation,
which holds the queue's mutex throughout, is one step. `please_stop` is two steps. A run is any sequence of
enabled events, so a statement about runs is about every interleaving. The host, the device, time-outs, filters
and uninitialised memory are inputs of the steps. Filters on EP0 may do anything but replace the packet object; a
filter on a data endpoint is an arbitrary relation. The device proxy keeps to its contract: on success it moves at
most wLength bytes. Bytes, words and double words are bounded, and wrap where the source's do.

What the model shows to go wrong in the code, each stated as a theorem, with the condition under which it happens:

- A filter that clears `transmit_out` makes EP0 deaf for good (`Ep0Losses.AFilterWithholds`,
  `Ep0Losses.WithholdingWedgesEp0`); with room in the queues and no stop request nothing else does
  (`Ep0Losses.GivenUpExactly`), and every other request is answered (`Ep0Progress.RequestsAreAnswered`).
- The reply to a host-to-device request is filtered only if a filter cut the way out short
  (`Ep0Filters.NoFilterOnTheWayBack`, `Ep0Filters.AReplyPassesNoFilter`).
- With more than 255 filters EP0 can hang in the filter loop (`Ep0Losses.TooManyFilters`).
- A session that ends while a request waits leaves its packet to the next one (`Ep0Sessions.LeftBehind`), which
  then answers the next request with the reply to the old one (`Ep0Sessions.AnswerGoesToTheNextRequest`).
- A configuration without a record for some announced interface number crashes the parsing constructor
  (`DescriptorConstruction.NoInterfaceCrashes`, `DescriptorConstruction.BuiltExactly`).
- A second SET_CONFIGURATION in a session ends the process as soon as one data endpoint was relayed
  (`RelayManager.ConfigureTwice`, `RelayManager.Manager.StartDataRelaying`).
- A call of `stop_relaying` after the last status check of a start is lost
  (`RelayManager.LoseStop`, `RelayManager.Manager.StartControlRelaying`).
- A blocked WRITE(10) of zero blocks never gets a status (`MassStorageDisk.BlockingIsInvisible`).
- With the cache on and writes not blocked, all blocks of a write are cached for its first address
  (`MassStorageUnblocked.SecondBlockShown`, `MassStorageUnblocked.UnblockedWriteExactly`).
- With several alternates the polling intervals of the wrong interface can be rewritten
  (`GadgetWalk.WrongInterfaceRewritten`, `GadgetWalk.AgreesExactly`).
- Every in-band password can be missed (`MassStorageRuns.ScanMissesOverlap`,
  `MassStorageRuns.EveryPasswordCanBeMissed`); what is found is stated by `MassStorageRuns.ScanExactly`.
- `add_string` appends a string it has just put in place of an older one; lookups are not affected
  (`StringTable.AddedExactly`, `StringTable.LookupAdded`). The language count breaks with the 127th language (`StringTable.Device.AddLanguage`).
- `hex_string` leaves a character unwritten for 64, 96 and so on bytes (`LogText.TextIsCertain`), so packets of
  exactly 64 bytes are logged with an arbitrary character (`LogText.LineIsRight`).

Where a comment and the code disagree, the model follows the code: `check_for_password` says of both passwords
that they disable write blocking, while the block password enables it.

## Model

| member | source | states |
|---|---|---|
| Packets.NewPacket | src/lib/Packet.h:23 | A new packet holds the bytes it is made from, if there are at most 65535, and is to be filtered and transmitted. |
| SafeQueues.SafeQueue.Enqueue | src/lib/SafeQueue.hpp:27-38 | An element is appended unless the queue already holds 10000, in which case it is dropped silently. |
| SafeQueues.SafeQueue.Dequeue | src/lib/SafeQueue.hpp:40-49 | Takes the oldest element and keeps the rest in order; the step does not exist while the queue is empty. |
| Ep0Threads.SetupReader.Step | src/lib/RelayReader.cpp:51-114 | Each atomic step of the EP0 reader, on its own fields and both queues, is the transition of the state machine that the theorems below are about. |
| Ep0Threads.SetupReader.RaiseFlag | src/lib/RelayReader.h:36 | First step of the reader's please_stop: only the flag changes. |
| Ep0Threads.SetupReader.SendToken | src/lib/RelayReader.h:37-38 | Second step: a null token at the end of the receive queue, unless that queue is full. |
| Ep0Threads.SetupWriter.Step | src/lib/RelayWriter.cpp:63-120 | Each atomic step of the EP0 writer, including one step per filter, is the transition of the state machine. |
| Ep0Threads.SetupWriter.CallDevice | src/lib/RelayWriter.cpp:99-112 | The device call updates buffer, transmit flag, wLength and `length` in place as the state machine says, and hands SET_CONFIGURATION to the manager. |
| Ep0Flow.StepKeepsInv | src/lib/RelayWriter.cpp:85-117 | Every step of either thread, and of either please_stop, keeps the invariant: one packet at one known place, the reader's alternation flag agreeing with that place, device calls and host answers numbered in order. |
| Ep0Flow.OneRequestAtATime | src/lib/RelayReader.cpp:64-111 | In every reachable state, with any filters, no setup packet exists while the reader is ready for a request, and otherwise exactly one exists or was given up; the k-th device call and the k-th answer belong to the k-th request, and no request is answered twice however often the completion wait times out. |
| Ep0Flow.CountInFlight | src/lib/RelayReader.cpp:64-111 | Under the invariant, packets in both queues, in the writer's hand and in the reader's `p`, plus packets given up, number exactly 0 or 1. |
| Ep0Flow.GoneStaysGone | src/lib/RelayWriter.cpp:100-101 | After a packet has been given up no step takes, calls, answers or gives up anything. |
| Ep0Flow.GivingUpWedgesEp0 | src/lib/RelayWriter.cpp:100-101 | Once a packet has been given up, for whatever reason, EP0 is stuck in every continuation: the last request stays unanswered and no other is taken. When that happens is stated by Ep0Losses. |
| Ep0Losses.LossAtFilterOut | src/lib/RelayWriter.cpp:96-101 | The step at the end of the way out gives the packet up if and only if no filter is left for it and transmit_out is cleared. |
| Ep0Losses.GivenUpExactly | src/lib/RelayWriter.cpp:85-117 | In every run without stop requests that starts with room for two elements in each queue, with any filters: a request is given up if and only if some packet ended its way out with transmit_out cleared. |
| Ep0Losses.WithholdingWedgesEp0 | src/lib/RelayWriter.cpp:100-101 | After such a packet nothing is taken, asked or answered in any continuation, and its request is never answered. |
| Ep0Losses.AFilterWithholds | src/lib/RelayWriter.cpp:96-101 | The input: one filter that clears transmit_out of the first request; after eight steps the request is gone. |
| Ep0Losses.TooManyFilters | src/lib/RelayWriter.cpp:78-98 | With more than 255 filters the byte index wraps: there is a run in which the first request is filtered for ever and never answered. |
| Ep0Sessions.LeftBehind | src/lib/Manager.h:68-69 | In every run that ends with both threads done, with any filters: the queues hold one packet if the last request was neither answered nor given up, and none otherwise. |
| Ep0Sessions.NextSessionStartsClean | src/lib/Manager.h:68-69 | The next session starts with null tokens only, as the other theorems ask, if and only if the last request was answered or given up. |
| Ep0Sessions.ASessionLeavesAPacket | src/lib/RelayReader.cpp:64-111 | The input: a request is queued, both threads are asked to stop and do so; the packet stays in the queue. |
| Ep0Sessions.AnswerGoesToTheNextRequest | src/lib/RelayWriter.cpp:85-117 | In the session after that, without any filter, the device is asked the old request again and the host is given its reply as the answer to the new one, for every pair of requests and every reply. |
| Ep0Progress.WaitingStep | src/lib/RelayWriter.cpp:85-117 | While the host waits, every step of either thread lowers a rank over the place of the request, both program counters and the null tokens in the queues. |
| Ep0Progress.RequestsAreAnswered | src/lib/RelayReader.cpp:64-111 | If no stop is requested and no filter withholds a packet, a waiting host gets its answer within 2n + 16 steps of the two threads together, and three more for each element in the queues; until then one of them can step. |
| Ep0Flow.NeverBothBlocked | src/lib/RelayReader.cpp:80-86 | The counterpart: as long as nothing was given up and both threads run, one of them can always step. |
| Ep0Flow.NoPacketDropped | src/lib/SafeQueue.hpp:31-32 | If left-over tokens leave room for two elements in each queue, no run ever drops a setup packet at a full queue. |
| Ep0Transparency.StepKeepsClear | src/lib/RelayWriter.cpp:85-117 | Every step keeps: the packet in flight is still the host's request before the device call and carries the device's answer after it. |
| Ep0Transparency.ClearIsDirect | src/lib/RelayWriter.cpp:102-112 | If the device proxy answers as a function of the requests it has seen, the answers given are a prefix of the reply trace of calling that function directly. |
| Ep0Transparency.Ep0Transparent | src/lib/RelayWriter.cpp:85-117 | With no filters, in every interleaving the device sees the host's requests, each once and in order, and the host sees the replies of a direct call, in order; at most the latest request is unanswered and every SET_CONFIGURATION seen reached the manager. |
| Ep0Transparency.AnswersOnTheBus | src/lib/RelayWriter.cpp:102-112 | The k-th answer in the terms of the bus, whatever the device replies: a stall for a negative result; the very bytes of the reply if bmRequestType has bit 7 set and there are any; and otherwise an acknowledgement. |
| Ep0Record.RecordIsTrue | src/lib/RelayWriter.cpp:105-111 | In every run, with any filters: the requests of the trace are those that arrived, in order, and the replies those the device gave; setConfig got the low byte of wValue of each call with bRequest 9 and bRequestType 0 and of no other; and each request is taken only after the transfer of the one before it was completed. |
| Ep0Record.StepKeepsRecord | src/lib/RelayReader.cpp:64-109 | Every step of either thread keeps that agreement between the trace and what host and device did. |
| Ep0Record.LengthAfterCall | src/lib/RelayWriter.cpp:99-112 | After a device call `length` is the number of bytes moved if it succeeded; a failing device-to-host call leaves what an earlier call had put there, and wLength of the reply becomes that. |
| Ep0Filters.FiltersInOrder | src/lib/RelayWriter.cpp:96-116 | With any up to 255 filters, in every interleaving: the k-th device call carries the k-th request after filters 0, 1, ... in order, each once, up to the one that cleared filter_out; the k-th answer is the reply to that call after exactly the filters it still had to pass. |
| Ep0Filters.StepKeepsFilterInv | src/lib/RelayWriter.cpp:96-116 | Every step keeps: the packet in flight is the last packet of its recorded way through the filters, and every earlier handling is proper. |
| Ep0Filters.FilteredOnTheWayBack | src/lib/RelayWriter.cpp:105-115 | A finished reply has passed a filter on its way back if and only if a filter was left for it and filter_in was set when the device had answered. |
| Ep0Filters.NoFilterOnTheWayBack | src/lib/RelayWriter.cpp:105-115 | For a host-to-device request: its reply passes a filter if and only if a filter cut the way out short by clearing filter_out, and filter_in is still set. The filter index is reset for device-to-host requests only. |
| Ep0Filters.AReplyPassesNoFilter | src/lib/RelayWriter.cpp:96-116 | A run with one filter installed in which the reply to a host-to-device request passes no filter. |
| Ep0Shutdown.ReaderRunsOut | src/lib/RelayReader.h:35-39 | After both steps of please_stop a rank bounds the reader's remaining steps in every continuation, with at most one more dequeue. |
| Ep0Shutdown.WriterRunsOut | src/lib/RelayWriter.h:53-57 | The same for the writer, whose rank counts both filter loops. |
| Ep0Shutdown.ReaderStopsPromptly | src/lib/RelayReader.cpp:81-86 | From the start of any run: after both steps of please_stop the EP0 reader takes at most six steps, one dequeue, and is never blocked before it has finished, even if the token was dropped. |
| Ep0Shutdown.WriterStopsPromptly | src/lib/RelayWriter.cpp:85-90 | The same for the EP0 writer with n filters: at most 2n + 8 steps, for n up to 255. |
| Ep0Shutdown.Ep0ThreadsRunUntilAsked | src/lib/RelayReader.cpp:64-113 | The reverse: in every run an EP0 thread ends only after it was asked to stop, and leaves its flag cleared. |
| DataThreads.DataReader.Step | src/lib/RelayReader.cpp:116-135 | Each step of a data reader is the transition of the data-endpoint state machine; what it receives and drops is reported exactly. |
| DataThreads.DataReader.PleaseStop | src/lib/RelayReader.h:35-39 | A data reader has no receive queue, so please_stop is the flag alone. |
| DataThreads.DataWriter.Step | src/lib/RelayWriter.cpp:122-152 | Each step of a data writer, including one step per filter, is the transition of the state machine; what it sends and withholds is reported exactly. |
| DataThreads.DataWriter.RaiseFlag | src/lib/RelayWriter.h:54 | First step of the writer's please_stop: only the flag changes. |
| DataThreads.DataWriter.SendToken | src/lib/RelayWriter.h:55-56 | Second step: a null token at the end of the queue, unless the queue is full. |
| DataFlow.StepKeepsInv | src/lib/RelayWriter.cpp:132-149 | Every step of either data thread keeps conservation, order, genuineness of every packet and the absence of overlapping transfers. |
| DataFlow.DataRelayed | src/lib/RelayWriter.cpp:132-149 | In every reachable state each packet received is sent, withheld, dropped, queued or in a thread's hand, and in exactly one of these; those sent are in the order received, each the image under all n filters of the packet received; send_data is never called while a transfer is incomplete. |
| DataFlow.UnfilteredRelay | src/lib/RelayWriter.cpp:132-149 | With no filters nothing is withheld and every packet sent is the very packet received. |
| DataRecord.ReceivedExactly | src/lib/RelayReader.cpp:126-132 | In every run there are as many packets as data that arrived, in that order, each with exactly the bytes that arrived (below 65536), the number of the endpoint, and filter and transmit set; and all transfers started but the last have been completed. |
| DataRecord.LeavesTheLine | src/lib/RelayWriter.cpp:132-149 | In every reachable state: a packet is dropped if and only if the reader enqueues it while the queue holds 10000 elements; after the last of the n filters it is sent if that left transmit set, and withheld if not. |
| DataProgress.WriterWorks | src/lib/RelayWriter.cpp:132-149 | While a packet is queued or in hand, every step of the data writer but a time-out lowers a rank over the position of the packet and the program counter. |
| DataProgress.PacketsAreHandled | src/lib/RelayWriter.cpp:132-149 | A packet at position i of the queue is sent or withheld by n filters within (n + 5)(i + 2) steps of the writer and two more for each time-out, in every run without a stop of the writer; until then the writer is not blocked. |
| DataProgress.ReaderKeepsReceiving | src/lib/RelayReader.cpp:126-132 | In every run without a stop of the reader, at least every third of its steps asks the proxy for data. |
| DataShutdown.RunWhileStopping | src/lib/RelayWriter.cpp:132-152 | Ranks of both data threads fall with each of their own steps in every run after please_stop, and the writer dequeues at most once more. |
| DataShutdown.DataThreadsStopPromptly | src/lib/RelayWriter.cpp:132-152 | After please_stop a data reader takes at most four steps; a data writer at most n + 4, at most one a dequeue, and is never left on an empty queue. |
| DataShutdown.DataThreadsRunUntilAsked | src/lib/RelayWriter.cpp:132-152 | The reverse: in every run a data thread ends only after it was asked to stop, and leaves its flag cleared. |
| RelaySlots.PlayAppend | src/lib/Manager.cpp:474-527 | A sequence of actions on workers is allowed exactly when its parts are, one after the other. |
| RelaySlots.AskedJoinedDeleted | src/lib/Manager.cpp:480-527 | In any allowed sequence a worker that ran before and is gone after was asked to stop, then joined, then deleted. |
| RelaySlots.StopIsAllowed | src/lib/Manager.cpp:474-527 | What a stop does is allowed for every worker (no join of a thread nobody asked, no delete of an object whose thread runs, nothing twice), and no worker is left. |
| RelaySlots.RequestsBeforeJoins | src/lib/Manager.cpp:474-527 | Every stop request, to relay threads and injectors alike, comes before the first join, and no started injector is missed. |
| RelaySlots.StopLeavesNothingRunning | src/lib/Manager.cpp:474-527 | Every running worker is asked, joined and deleted, in this order. |
| RelayManager.Manager.constructor | src/lib/Manager.cpp:32-55 | A new manager is idle, with no worker, endpoint or injector thread. |
| RelayManager.Manager.StopRelaying | src/lib/Manager.cpp:469-556 | During set-up only the status becomes "abort"; when not relaying nothing changes; otherwise exactly the actions of a stop are taken, and the manager is idle with every slot empty. "A joinable thread has its object" and "everything done so far was allowed" are kept. |
| RelayManager.Manager.FinishAll | src/lib/Manager.cpp:494-527 | The joining loop takes the deleting actions of all 64 workers in slot order and empties objects, threads and endpoints. |
| RelayManager.Manager.AskAll | src/lib/Manager.cpp:474-486 | The requesting loops ask every injector and exactly the workers with a joinable thread. |
| RelayManager.Manager.StartControlRelaying | src/lib/Manager.cpp:229-342 | With stop_relaying called by another thread before any chosen status check: the start ends in relaying if and only if both proxies connect and the call does not precede a check; then exactly the EP0 reader and writer run, and if the call came after the last check it has been made (the calls are counted) without effect; any other end leaves nothing behind. |
| RelayManager.Manager.FinishStart | src/lib/Manager.cpp:321-341 | From the host connection on: the reader thread is started before the abort is looked at, the writer after, and an abort or a failed connection undoes everything; a call of stop_relaying after the last check is counted, and relaying goes on. |
| RelayManager.LoseStop | src/lib/Manager.cpp:340-341 | The input: stop_relaying called once, after the last check of a start; the manager relays with both EP0 threads, made and launched as workers 2 and 3, reader first. |
| RelayManager.Manager.StartInjectors | src/lib/Manager.cpp:312-319 | Injector threads are started one by one, with a status check before each; an abort undoes those already started. |
| RelayManager.Manager.StartDataRelaying | src/lib/Manager.cpp:344-467 | The process is terminated if and only if a data worker from an earlier SET_CONFIGURATION of the session still has its thread. Otherwise, for every slot 1 to 15, the IN reader and the IN writer run if and only if they ran before, or the slot held an IN endpoint before, or an endpoint is listed with an address of 0x80 or more, this number and no isochronous transfer; and likewise the OUT workers for addresses below 0x80. |
| RelayManager.ConfigureTwice | src/lib/Manager.cpp:344-467 | The input: a device with one bulk endpoint 0x81, configured twice after one start. The first time starts the IN reader and the IN writer of slot 1 and no OUT worker of it; the second time ends the process. |
| RelayManager.StartingAgainIsADefect | src/lib/Manager.cpp:229-342 | A start while EP0 is served makes its reader over the one that exists, which no sequence of allowed actions does. |
| RelayManager.Manager.Enumerate | src/lib/Manager.cpp:349-382 | An endpoint slot is set if and only if it was set before or a non-isochronous endpoint with that number and direction is listed. |
| RelayManager.Manager.MakeWorkers | src/lib/Manager.cpp:384-400 | In each slot 1 to 15 an IN reader and an IN writer are made exactly if an IN endpoint is set, an OUT reader and an OUT writer exactly if an OUT endpoint is set. |
| RelayManager.Manager.LaunchWorkers | src/lib/Manager.cpp:453-466 | Assigning a thread over a joinable one ends the process, and that happens exactly when some existing data worker is still joinable. |
| MassStorage.MassStorageFilter.FilterPacket | src/Plugins/Filters/PacketFilter_MassStorage.cpp:183-288 | The whole effect of one packet on the filter's fields, the packet's bytes and its transmit flag is the step the run theorems are about. |
| MassStorage.MassStorageFilter.WriteData | src/Plugins/Filters/PacketFilter_MassStorage.cpp:252-263 | A payload of a write: cached, scanned, withheld if blocked, and the tag queued when the last block has gone by. |
| MassStorage.MassStorageFilter.CacheRead | src/Plugins/Filters/PacketFilter_MassStorage.cpp:49-64 | A cached block overwrites the first 512 bytes of the packet, otherwise those bytes become the cached block; nothing else changes. |
| MassStorage.MassStorageFilter.CacheWrite | src/Plugins/Filters/PacketFilter_MassStorage.cpp:123-142 | The first 512 bytes become the cached block of that address, as a private copy. |
| MassStorage.MassStorageFilter.Find | src/Plugins/Filters/PacketFilter_MassStorage.cpp:145-181 | The comparison loop finds a password exactly when the matcher on values does. |
| MassStorage.MassStorageFilter.GetPackets | src/Plugins/Filters/PacketFilter_MassStorage.cpp:306-335 | Takes the oldest queued tag and builds the 13-byte success status for it. |
| MassStorageDisk.CbwIsDecoded | src/Plugins/Filters/PacketFilter_MassStorage.cpp:208-236 | The fields the filter reads from a Command Block Wrapper built as in section 5.1 of the Bulk-Only Transport specification are the tag, opcode, address and block count put in. |
| MassStorageDisk.CswIsStatus | src/Plugins/Filters/PacketFilter_MassStorage.cpp:306-335 | The injected false status is byte for byte the success Command Status Wrapper of section 5.2 for the same tag. |
| MassStorageDisk.ReadBlocks | src/Plugins/Filters/PacketFilter_MassStorage.cpp:265-270 | While the cache simulates the plain disk, the data of any READ(10) leaves the filter as the plain disk's blocks, and the simulation is kept. |
| MassStorageDisk.WriteBlocks | src/Plugins/Filters/PacketFilter_MassStorage.cpp:252-263 | Writing any list of blocks withholds all of them, queues the tag exactly once if there is one, and the cache then simulates the plain disk after the write. |
| MassStorageDisk.CommandInvisible | src/Plugins/Filters/PacketFilter_MassStorage.cpp:183-335 | One command: the real disk is untouched, the simulation is kept, and the host sees what the plain disk shows if and only if it is not a write of no block. |
| MassStorageDisk.BlockingIsInvisible | src/Plugins/Filters/PacketFilter_MassStorage.cpp:183-335 | With cache on, writes blocked and inband off, over any run of commands the host sees exactly what a plain writable disk shows if and only if every write command has at least one block; the real disk never changes. This takes it that the queued statuses reach the host, although Manager connects no injector to a relay. |
| MassStorageUnblocked.PassedBlocks | src/Plugins/Filters/PacketFilter_MassStorage.cpp:252-263 | With writes not blocked every block passes, and the cache takes each for the first address of the write, because the offset is not advanced. |
| MassStorageUnblocked.UnblockedWriteExactly | src/Plugins/Filters/PacketFilter_MassStorage.cpp:252-263 | After a write that is not blocked the cache goes on simulating the plain disk if and only if it has no block, or its last block equals its first and every later address already cached holds the block written there. |
| MassStorageUnblocked.SecondBlockShown | src/Plugins/Filters/PacketFilter_MassStorage.cpp:252-270 | The input: two different blocks written at address 0 and block 0 read back; the host is shown the second one. |
| MassStorageRuns.SegmentVerdicts | src/Plugins/Filters/PacketFilter_MassStorage.cpp:220-263 | After a write command, over any packets up to the next command: which of them pass, and when the tag is queued. |
| MassStorageRuns.WriteIsAllOrNothing | src/Plugins/Filters/PacketFilter_MassStorage.cpp:220-263 | In every run, with or without inband signalling, a write command and all its data packets are all passed or all withheld; a withheld command of n >= 1 blocks queues its own tag once, on the n-th data packet. |
| MassStorageRuns.ScanIsSound | src/Plugins/Filters/PacketFilter_MassStorage.cpp:145-181 | Whatever the matcher finds is the whole password as a contiguous substring of the first 512 bytes. |
| MassStorageRuns.InbandIsSound | src/Plugins/Filters/PacketFilter_MassStorage.cpp:145-181 | In any run the inband mode changes only at a write payload that contains the unblock password while blocked, or the block password while not; the effective blocking changes only at a WRITE(10) command and becomes the inband mode. |
| MassStorageRuns.ScanMissesOverlap | src/Plugins/Filters/PacketFilter_MassStorage.cpp:153-163 | Completeness fails: "ab" is not found in a block starting with "aab". |
| MassStorageRuns.EveryPasswordCanBeMissed | src/Plugins/Filters/PacketFilter_MassStorage.cpp:153-163 | Completeness fails for every password: for each there is a block that contains it at its very end and is not matched. |
| MassStorageRuns.ScanExactly | src/Plugins/Filters/PacketFilter_MassStorage.cpp:145-181 | For every password and block: the loop finds the password if and only if it is ASCII and stands, at least its own length away from the end, where the matcher starts afresh, each broken attempt skipping the byte it broke on. |
| MassStorageRuns.InbandExactly | src/Plugins/Filters/PacketFilter_MassStorage.cpp:145-181 | In any run the inband mode changes at a packet if and only if inband signalling is on, the packet is a write payload, and the current password is found in it in exactly that sense. |
| MassStorageRuns.PlainOccurrenceIsFound | src/Plugins/Filters/PacketFilter_MassStorage.cpp:153-163 | For instance, an ASCII password at least its own length away from the end is found if its first letter does not occur before it. |
| MassStorageInband.WriteFollowsSignals | src/Plugins/Filters/PacketFilter_MassStorage.cpp:220-263 | After any run of packets: a WRITE(10) passes with in-band signalling if and only if the passwords written so far leave writes unblocked, and without it if and only if writes were unblocked from the start; its data share its fate. |
| MassStorageInband.UnblockingTakesEffect | src/Plugins/Filters/PacketFilter_MassStorage.cpp:222-225 | Once the unblock password is spotted in written data while writes are blocked, and until the block password is, the next write command passes with everything that belongs to it. |
| MassStorageInband.BlockingTakesEffect | src/Plugins/Filters/PacketFilter_MassStorage.cpp:222-225 | Once the block password is spotted while writes are not blocked, and until the unblock password is, neither the next write command nor its data pass. |
| MassStorageInband.OthersPass | src/Plugins/Filters/PacketFilter_MassStorage.cpp:183-288 | Only write commands and their data are ever withheld, only data that are read are ever changed and only with the cache on, and all other packets leave the filter alone, but for a status, which ends the command. |
| Records.SplitFlatten | src/lib/Interface.cpp:55-76 | Stepping through a concatenation of records by their length bytes recovers the records. |
| Records.FlattenSplit | src/lib/Interface.cpp:55-76 | Conversely the records found make up the bytes they were found in. |
| DescriptorBuild.AddAllLookup | src/lib/Configuration.cpp:141-147 | After any sequence of add_interface each (number, alternate) holds the last interface added for it, and the tables stay no longer than needed. |
| DescriptorBuild.RebuildGroups | src/lib/InterfaceGroup.cpp:59-74 | Adding the interfaces of a tree one by one in printing order rebuilds the tree, gaps included. |
| DescriptorRoundTrip.InterfaceRoundTrip | src/lib/Interface.cpp:24-77 | Parsing the records an interface prints gives the interface back. |
| DescriptorRoundTrip.LoopAfterPrint | src/lib/Configuration.cpp:45-53 | The parse loop gives back every well-formed tree from its printed bytes, with any alternates or interfaces missing. |
| DescriptorOrder.PrintedInOrder | src/lib/Configuration.cpp:114-139 | What get_full_descriptor prints, cut before each interface descriptor: interface descriptors by number and then by alternate setting, nothing before the first, and behind each its HID descriptor, its generic descriptors and its endpoints, in this order. |
| DescriptorConstruction.ChosenExactly | src/lib/Configuration.cpp:56-75 | The loop that chooses the active alternates comes to its end if and only if every interface number has a group and the device answers wherever a group has not exactly one alternate. |
| DescriptorConstruction.BuiltExactly | src/lib/Configuration.cpp:45-76 | On every block the parser can read: the constructor succeeds if and only if every interface number below bNumInterfaces is carried by some type-4 record; otherwise it dereferences NULL at the first number that is not. |
| DescriptorConstruction.NoInterfaceCrashes | src/lib/Configuration.cpp:56-58 | The input: a 9-byte configuration that announces one interface and has none. |
| DescriptorConstruction.ParseAfterPrint | src/lib/Configuration.cpp:45-76 | For every well-formed tree, with any alternates missing: the whole constructor, run on the printed bytes, builds the same tree if and only if no interface number is missing, with alternate 0 active where there is only one and else the one the device names; otherwise NULL is dereferenced at the first missing number. |
| DescriptorNormalForm.SegmentsCover | src/lib/Configuration.cpp:49-53 | The parser's segments are contiguous and make up the whole input. |
| DescriptorNormalForm.SegmentCount | src/lib/Interface.cpp:34-55 | There is one interface per type-4 record. |
| DescriptorNormalForm.AllAddedOnce | src/lib/InterfaceGroup.cpp:59-74 | If (number, alternate) pairs are distinct, the tree holds every added interface exactly once. |
| DescriptorNormalForm.ParsedTree | src/lib/Configuration.cpp:45-53 | What is parsed from a well-formed block is a well-formed tree holding exactly the parsed interfaces. |
| DescriptorNormalForm.LoopNormalForm | src/lib/Configuration.cpp:126-139 | For the tree the parse loop makes of any well-formed block: the printed records are a permutation of the input records with the same total length, and a second parse and print change nothing. |
| DescriptorConstruction.PrintAfterParse | src/lib/Configuration.cpp:45-76 | For every well-formed block in which every interface number occurs: the constructor succeeds, what its tree prints is a permutation of the input records with the same total length, and constructing from that gives the same tree with the same active alternates. |
| DescriptorNormalForm.OrderWithinInterfaces | src/lib/Interface.cpp:55-76 | Each segment's interface is found under its own number and alternate and keeps the generic and endpoint descriptors of its segment in their order. |
| DescriptorNormalForm.LastHidStays | src/lib/Interface.cpp:60-62 | Of several HID records between two interface descriptors the last one is kept. |
| DescriptorIo.ParseLead | src/lib/Interface.cpp:34-46 | The first loop keeps exactly the records before the interface descriptor, and leaves the cursor on that descriptor. |
| DescriptorIo.ParseBody | src/lib/Interface.cpp:53-76 | The second loop collects the last HID record, the generic and the endpoint records, and stops exactly before the next interface or at the end; the cursor strictly advances. |
| DescriptorIo.ParseInterface | src/lib/Interface.cpp:24-77 | The parsing constructor consumes exactly the records of one segment and builds the interface of that segment. |
| DescriptorIo.PrintInterface | src/lib/Interface.cpp:158-176 | Writes exactly the interface's pieces at the cursor, advances by their length, and touches no other byte. |
| DescriptorValidity.LengthIsPrinted | src/lib/Configuration.cpp:114-139 | The announced total of length fields is the number of bytes printed. |
| DescriptorValidity.EndpointErrorIsRight | src/lib/Endpoint.cpp:56-69 | Endpoint::is_defined reports no error exactly for endpoints with a number up to 15 and the attribute and interval rules of each transfer type; otherwise the report carries the position it was given and the number of the first rule that is broken. |
| DescriptorValidity.DefinedByLengthFields | src/lib/Configuration.cpp:194-212 | A configuration whose printed bytes number wTotalLength is one whose length fields add up to it; the rest of the well-formedness is the same. |
| DescriptorObjects.LengthOf | src/lib/Interface.cpp:137-156 | The length method sums the length fields of everything printed. |
| DescriptorObjects.CheckInterface | src/lib/Interface.cpp:263-282 | Interface::is_defined reports no error exactly when the header is right and all endpoints are there and defined; otherwise it names the first defect: the byte of the descriptor, the endpoint that is missing, or what is wrong with an endpoint. |
| DescriptorObjects.InterfaceGroup.AddInterface | src/lib/InterfaceGroup.cpp:59-74 | The table grows to reach the alternate or the old entry is replaced; every other entry stays. |
| DescriptorObjects.InterfaceGroup.GetFullDescriptorLength | src/lib/InterfaceGroup.cpp:36-46 | Sums the lengths of the alternates that exist. |
| DescriptorObjects.InterfaceGroup.GetFullDescriptor | src/lib/InterfaceGroup.cpp:48-57 | Writes the existing alternates in order at the cursor, and nothing else. |
| DescriptorObjects.InterfaceGroup.IsDefined | src/lib/InterfaceGroup.cpp:105-116 | No error exactly when the group is non-empty, has no gap, and every alternate is defined and where its descriptor says; otherwise the report names the first alternate that is not, and why. |
| DescriptorObjects.Configuration.FromBytes | src/lib/Configuration.cpp:45-54 | The parsing part of the constructor builds the tree that parsing the bytes means. |
| DescriptorObjects.Configuration.ChooseAlternates | src/lib/Configuration.cpp:56-75 | The rest of the constructor sets the active alternate of every group, leaves the tree as it is, and ends as the specification says: at its end, in a NULL dereference, or in exit(1). |
| DescriptorObjects.Configuration.FromDevice | src/lib/Configuration.cpp:24-76 | The whole constructor yields a configuration exactly when it comes to its end, and then with the parsed tree and the chosen alternates. |
| DescriptorObjects.Configuration.AddInterfaces | src/lib/Configuration.cpp:49-53 | The parse loop strictly advances, lands exactly on the end, and adds one interface per segment. |
| DescriptorObjects.Configuration.AddInterface | src/lib/Configuration.cpp:141-147 | The interface goes to the group of its number, which is created if missing; other groups stay. |
| DescriptorObjects.Configuration.GetFullDescriptorLength | src/lib/Configuration.cpp:114-124 | The length of the header plus that of every group that exists. |
| DescriptorObjects.Configuration.GetFullDescriptor | src/lib/Configuration.cpp:126-139 | The buffer has exactly the announced length and holds exactly the printed tree. |
| DescriptorObjects.Configuration.IsDefined | src/lib/Configuration.cpp:194-212 | No error if and only if the whole tree is complete, everything is in place, and exactly wTotalLength bytes are printed; otherwise the report names the first defect of the whole tree, its kind, its place and the configuration id with the high-speed bit. |
| GadgetBlob.NewIntervalIsRight | src/Plugins/Hosts/HostProxy_GadgetFS.cpp:113-116 | The new interval n satisfies 2^(n-1) <= 8 * old < 2^n (Table 9-13 in section 9.6.6 of USB 2.0), and lies between 4 and 11. |
| GadgetBlob.WalkEndpoints | src/Plugins/Hosts/HostProxy_GadgetFS.cpp:110-118 | On any bytes: the loop steps by the length bytes it reads and rewrites the intervals it finds; it has no result if it leaves the buffer or meets an interval of 0, whose logarithm has no integer value. |
| GadgetBlob.WalkInterface | src/Plugins/Hosts/HostProxy_GadgetFS.cpp:98-118 | On any bytes: the pointer skips the lengths of the interface, HID and generic descriptors and then walks the announced number of endpoints. |
| GadgetBlob.EndpointsWalked | src/Plugins/Hosts/HostProxy_GadgetFS.cpp:110-118 | On the bytes the printer makes of endpoints that are present with an interval of at least 1, each record is visited exactly once and only its interval byte changes. |
| GadgetBlob.InterfaceWalked | src/Plugins/Hosts/HostProxy_GadgetFS.cpp:98-119 | At the offset the printer gave an interface, one turn turns its bytes into those of the same interface with new intervals and ends right behind them. |
| GadgetBlob.WalkKeepsHeader | src/Plugins/Hosts/HostProxy_GadgetFS.cpp:94-119 | Whatever the walk hits, it changes neither the length nor the configuration descriptor. |
| GadgetWalk.AgreesExactly | src/Plugins/Hosts/HostProxy_GadgetFS.cpp:94-119 | The pointer is where the printer put the active interface at every turn if and only if every group but the last has exactly one alternate and in the last no alternate comes before the active one. |
| GadgetWalk.WalkIsRight | src/Plugins/Hosts/HostProxy_GadgetFS.cpp:94-119 | For exactly these configurations the walk yields the printed bytes of the same configuration with new intervals in its active interfaces. |
| GadgetWalk.WrongInterfaceRewritten | src/Plugins/Hosts/HostProxy_GadgetFS.cpp:94-119 | The input: interface 0 with two alternates, the first one active, and interface 1; the turn of interface 1 rewrites the second alternate of interface 0. |
| GadgetSections.WalkGroups | src/Plugins/Hosts/HostProxy_GadgetFS.cpp:98-119 | The loop over the configuration object reads the active alternate of each group; it has no result if one is NULL. |
| GadgetSections.SectionKeeps | src/Plugins/Hosts/HostProxy_GadgetFS.cpp:70-74 | Every section is as long as the printed configuration, and its patched header survives the walk. |
| GadgetSections.SectionDescribesItself | src/Plugins/Hosts/HostProxy_GadgetFS.cpp:70-74 | The patched wTotalLength of a section is its own length, also after the walk. |
| GadgetSections.HeaderOfSection | src/Plugins/Hosts/HostProxy_GadgetFS.cpp:70-74 | What the patches do to the configuration descriptor: type 2, the total length, the wake-up bit cleared, and every other byte and bit as it was; without new intervals the rest of the section is what the printer printed. |
| GadgetSections.AdjustedSection | src/Plugins/Hosts/HostProxy_GadgetFS.cpp:88-120 | Where the walk is right, a section of the second pass is the patched header and the printed interfaces with new intervals in the active ones. |
| GadgetSections.BuildSection | src/Plugins/Hosts/HostProxy_GadgetFS.cpp:88-120 | One configuration printed, patched and, for a full-speed device, walked is its section; there is no result exactly when the walk has none. |
| GadgetSections.PassIsDefined | src/Plugins/Hosts/HostProxy_GadgetFS.cpp:81-125 | A pass has a result if no interval is adjusted, or only those of configurations for which the walk is right. |
| GadgetSections.PassLists | src/Plugins/Hosts/HostProxy_GadgetFS.cpp:63-69 | A pass lists the configurations 1 to bNumConfigurations that exist, each once and in order, and passes over those that do not. |
| GadgetSections.EmitPass | src/Plugins/Hosts/HostProxy_GadgetFS.cpp:62-79 | One pass appends exactly its sections, in order; it has no result exactly when a section has none or the buffer is too small. |
| GadgetSections.GenerateDescriptor | src/Plugins/Hosts/HostProxy_GadgetFS.cpp:51-132 | The result is exactly four zero bytes, the sections of both passes and the device descriptor. A high-speed device with a qualifier lists the qualifier's configurations and then its own; a full-speed device lists its own and then the qualifier's with new intervals; without a qualifier a device lists its own twice. A result exists exactly when every walk is defined and the sum of the lengths fits 7168 bytes. |
| GadgetSections.SplitsBack | src/Plugins/Hosts/HostProxy_GadgetFS.cpp:62-128 | Stepping through any self-describing sections by wTotalLength recovers them. |
| GadgetSections.BlobSplitsBack | src/Plugins/Hosts/HostProxy_GadgetFS.cpp:51-132 | Stepping through the generated block by each section's patched wTotalLength recovers every section of both passes, up to the device descriptor. |
| StringTable.LookupAdded | src/lib/Device.cpp:260-298 | One add_string changes the string found for its own (index, language) and for no other pair, across growth and despite the duplicate it appends. |
| StringTable.RunRefinesMap | src/lib/Device.cpp:260-335 | Over any run of add_string a lookup finds the last string added for the pair. |
| StringTable.AddedExactly | src/lib/Device.cpp:264-297 | The table after one add_string, entry by entry: it reaches the index and no further than needed, all other lists are as they were, and the list at the index keeps its entries, those of the language replaced, and ends in the string once more. |
| StringTable.LanguagesAccumulate | src/lib/Device.cpp:352-360 | Over any run the language list keeps its prefix, gains exactly the languages that were missing, and gains no duplicate. |
| StringTable.Device.AddLanguage | src/lib/Device.cpp:352-360 | The list gains the language if and only if it is not there; up to 126 languages the count stays right, and with the 127th it becomes 255. |
| StringTable.Device.AddString | src/lib/Device.cpp:260-298 | The table and the language list after add_string are those the run lemmas are about, also for the 127th language and for a new zero string. |
| StringTable.Device.AddFetched | src/lib/Device.cpp:301-304 | Fetching by index and language adds the string the device returned. |
| StringTable.Device.AddForAllLanguages | src/lib/Device.cpp:307-316 | Adds one string per known language, in order, and leaves the language list as it was. |
| StringTable.Device.GetString | src/lib/Device.cpp:318-335 | Finds the map's entry for the pair, with language 0 standing for the first known language, and NULL exactly when there is none. |
| StringTable.USBString.Length | src/lib/USBString.cpp:65-67 | Counts the characters before the terminating zero. |
| StringTable.USBString.FromUnicode | src/lib/USBString.cpp:62-76 | Holds the characters before the terminating zero; get_char_count gives their number back for up to 126, and beyond that the length byte has wrapped. |
| StringTable.USBString.AppendChar | src/lib/USBString.cpp:111-117 | Only the zero string grows, by one character; at 126 characters the length byte wraps and the count becomes 255. |
| LogText.HexStringWide | src/lib/HexString.cpp:50-83 | The whole buffer, given what malloc left in it: the text in lines of 32 bytes, for full lines one character that malloc left, and the terminating zero. |
| LogText.FillLines | src/lib/HexString.cpp:68-81 | Index arithmetic with i and curLine writes the text without gap or overlap and leaves the rest of the buffer alone. |
| LogText.HexString | src/lib/HexString.cpp:85-107 | The whole buffer, given what malloc left in it: the text and its zero, or above 32 bytes the buffer of the wide form. |
| LogText.BufferPrinted | src/lib/HexString.cpp:50-107 | What %s prints of the buffer: the text, followed by the character malloc left if there are more than 32 bytes in full lines and that character is not zero. |
| LogText.TextIsCertain | src/lib/HexString.cpp:50-107 | %s prints the text whatever malloc left, if and only if there are at most 32 bytes or the last line is not full. |
| LogText.StreamLog.FilterPacket | src/Plugins/Filters/PacketFilter_StreamLog.cpp:12-18 | Appends exactly what is printed for the packet and its buffer, which is the packet's line for less than 64 bytes and nothing above 64. |
| LogText.StreamLog.Print | src/Plugins/Filters/PacketFilter_StreamLog.cpp:15 | Prints endpoint, length and the buffer up to its first zero. |
| LogText.LineIsRight | src/Plugins/Filters/PacketFilter_StreamLog.cpp:12-18 | The line is the packet's for every length below 64; for 64 bytes it is so if and only if malloc happened to leave a zero, and otherwise contains the character malloc left; above 64 bytes nothing is logged. |
| LogText.WideTextAt | src/lib/HexString.cpp:50-83 | For more than 32 bytes, character by character: byte k stands at 3k + 2 + k/32 as two digits, after a line break and a tab if it starts a line of 32, and after a space otherwise. |
| LogText.NarrowTextAt | src/lib/HexString.cpp:85-107 | Up to 32 bytes: byte k stands at 3k as two digits, with a space before it from the second byte on. |
| LogText.ALogLine | src/Plugins/Filters/PacketFilter_StreamLog.cpp:15 | For instance, the line of a packet with the bytes 0a f1 for endpoint 2 is "02[2]: 0a f1". |
| LogText.LogAppend | src/Plugins/Filters/PacketFilter_StreamLog.cpp:12-18 | Logging one more packet extends the log by that packet's line. |
| LogReplay.TokensOfHex | src/tools/additional/UDP_injector.c:132-145 | The byte-reading loop reads back the hexadecimal text of any bytes, across line breaks, and ends exactly after its white space. |
| LogReplay.LineReplayed | src/tools/additional/UDP_injector.c:86-168 | From the start of any log line the loop sends that packet if it is for endpoint 2, and reaches the start of the next line. |
| LogReplay.LogReplayed | src/tools/additional/UDP_injector.c:86-168 | Replaying the log of any packets of up to 63 bytes sends one datagram per endpoint-2 packet, in order. |
| LogReplay.ChunksDecode | src/Plugins/Injectors/Injector_UDP.cpp:75-82 | Decoding those datagrams yields the packets' bytes with filter and transmit set. |
| LogReplay.ReplayRoundTrip | src/tools/additional/UDP_injector.c:86-168 | For every sequence of data packets of 0 to 63 bytes, log, replay and decoding together yield exactly the endpoint-2 packets, in order, with the same bytes. |
| LogReplay.ParsePacket | src/tools/additional/UDP_injector.c:86-153 | One turn of the loop on any text: rejected, a read beyond the text or an overrun buffer or a number beyond an int, or a datagram and the next index, which has advanced. |
| LogReplay.ReplayLog | src/tools/additional/UDP_injector.c:86-168 | The whole loop terminates on any text and sends what the specification says. |
| LogReplay.ReadTokens | src/tools/additional/UDP_injector.c:134-144 | The inner loop reads as many tokens as the header announced and converts each as strtol does, or stops where it overruns data_bytes or leaves the text. |
| LogReplay.ReadToken | src/tools/additional/UDP_injector.c:138-143 | A token of one or two characters, of any kind, becomes the byte strtol and the cast make of it; a longer one overruns the buffer. |
| LogReplay.Hex2IsRight | src/tools/additional/UDP_injector.c:90-95 | strtol in base 16 reads back the two digits printed for a byte. |
| LogReplay.AtoiOfDecimal | src/tools/additional/UDP_injector.c:109-114 | atoi reads back the decimal digits printed for a number, with or without a minus sign, exactly as far as an int reaches. |
| LogReplay.RejectedExactly | src/tools/additional/UDP_injector.c:86-124 | The program gives up with exit code 1 if and only if the text goes on with neither a letter nor a digit, or has no bracket among its next six characters. |
| LogReplay.HeaderRead | src/tools/additional/UDP_injector.c:86-128 | Where it goes on, it has read an endpoint of at most 5 characters up to a bracket and a length of at most 11, and has made a datagram exactly if the endpoint is 2, with the length in two bytes. |
| LogReplay.TokenOfTwo | src/tools/additional/UDP_injector.c:138-143 | The value strtol gives any token of two characters: two digits in either case, one digit, a sign and a digit, or no number. |
| LogReplay.TokenOfOne | src/tools/additional/UDP_injector.c:138-143 | A token of one character is the value of that digit, or 0 if it is none. |
| LogReplay.StrtolOfNumber | src/tools/additional/UDP_injector.c:90-95 | strtol in base 16 on digits of either case, with or without a sign and with or without 0x. |
| LogReplay.DatagramDecodes | src/Plugins/Injectors/Injector_UDP.cpp:75-82 | Decoding a datagram gives back the endpoint, the bytes, and from two bits whether to filter and whether to transmit. |

## Left out

- The branch for a queue element that is not a setup packet: the EP0 queues of the model hold setup packets and null tokens only.
- The queue's "fills up" warning, and all other printing.
- Sessions that start with a left-over packet, beyond what `Ep0Sessions` shows of one: all other runs start from queues that hold null tokens only (data queues: nothing, as they are made anew).
- Injectors feeding the relay: `Manager` does not connect their queues to the relays, so their packets do not arrive in the model either. The false statuses of the mass-storage filter are modelled as reaching the host, with or without passing the filter again.
- Ep0Filters.FiltersInOrder: at most 255 filters, as in the other theorems that count filter steps; beyond that `Ep0Losses.TooManyFilters` holds.
- The reference a writer keeps to a packet it has given up: it is not counted as in flight.
- Two writer threads calling one mass-storage filter at the same time: a filter call is one step, and in `MassStorageDisk` a device acts only on a command that reaches it whole, then answers it.
- MassStorage.MassStorageFilter.FilterPacket: payloads of 65 to 511 bytes are excluded, because the source reads 512 bytes of them regardless.
- MassStorage.MassStorageFilter.Find: an empty password is excluded, because on a block that starts with a zero byte the matcher then reads past the password.
- MassStorageDisk.BlockingIsInvisible: other commands get replies in packets of at most 64 bytes and carry no data from the host. Block addresses wrap at 2^32 as in the source.
- DescriptorConstruction.ParseAfterPrint: trees have interface records of 9 and endpoint records of 7 bytes, at most 255 generic descriptors per interface and alternates up to 254, because the source counts alternates in a byte.
- DescriptorConstruction.PrintAfterParse: every record has a length of at least 2 and fits, interfaces are numbered below bNumInterfaces with distinct (number, alternate) pairs, a body that is not empty has an interface descriptor, and no endpoint or HID record comes before it.
- SET_INTERFACE, `add_endpoint` and `add_generic_descriptor`; a GET_INTERFACE that succeeds is taken to return a byte.
- Freeing the interfaces and strings that are replaced.
- `Device::is_defined`, device qualifiers other than as a source of configurations, and the request that fetches a configuration.
- GadgetBlob.NewIntervalIsRight: the quotient of two base-10 logarithms is taken as the exact base-2 logarithm; floating-point rounding is not modelled.
- GadgetBlob.InterfaceWalked: endpoints are present with an interval of at least 1; for an interval of 0 the source converts the logarithm of 0, which C does not define and for which `GadgetBlob.WalkEndpoints` has no result.
- GadgetWalk.WalkIsRight: configurations for which pointer and printer do not agree are walked as `GadgetSections.WalkGroups` states, byte by byte; what that comes to is not summed up beyond `GadgetWalk.AgreesExactly`.
- GadgetSections.GenerateDescriptor: no result stands for undefined behaviour (a NULL active interface, a walk beyond the section, the logarithm of 0, a block larger than USB_BUFSIZE); what a program does then is not modelled.
- StringTable.Device.AddLanguage: starts from a language list that is intact, so at most the 127th language is added; beyond it the source reads past the list. Strings have an even length byte that matches their characters.
- StringTable.Device.AddForAllLanguages: index 0 with language 0 among the known languages, which would replace the zero string while its list is read.
- StringTable.Device.GetString: language 0 with an empty language list, where the source reads beyond the zero string.
- The ASCII constructor and `get_ascii` of USBString.
- LogReplay.ReplayLog: `Undefined` stands for reads beyond the text (a field or a token that ends with the file), a token of three or more characters, which overruns its buffer, and a length beyond an int. Texts have neither zero bytes nor characters above 127, and the one character the source looks at behind the text is taken not to be a bracket. Setup packets in the log, the socket and the command line are not modelled.
- RelayManager.Manager.StartControlRelaying: requires that nothing runs, which the source's TODO asks for and does not check (`RelayManager.StartingAgainIsADefect` shows why); retries after a time-out are one connection attempt with a result. Another thread calls stop_relaying at most once during a start.
- RelayManager.Manager.StopRelaying: no SET_CONFIGURATION is being handled at the same time. Claiming and releasing interfaces, the device model and USBM_RESET are left out; a worker's please_stop and exit are the subject of `Ep0Shutdown` and `DataShutdown`.
- DeviceProxy_LibUSB, DeviceProxy_dot11, DeviceProxy_Loopback, PcapLogger, TCP_Helper, the rest of GadgetFS, the other filters and injectors, the Python bindings, configuration files, plug-ins and the command line.
