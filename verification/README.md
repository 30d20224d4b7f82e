# Firmware update path: a verified model

The device in this repository takes firmware over TCP: a host tool cuts an image into chunks, sends
DFU_START, one DFU_DOWNLOAD per chunk and DFU_END, and waits for a two-byte reply after each; the
device's TCP server hands every received buffer to the command handlers, which stage the image
through the flash writer and reboot. The same protocol has a USB transport. This project models
that path and proves what it guarantees.

| file | content |
|---|---|
| `Protocol.dfy`, `Chunking.dfy` | constants; how both host tools cut an image |
| `HostSession.dfy` | the host tools: phases of a session, its script of packets, the tool as a class |
| `SlotTable.dfy` | the server's client table: pure operations and the table as a class over an array |
| `ServerThreads.dfy` | accept thread and handler thread interleaved over the table, with descriptor reuse |
| `ServerRuns.dfy` | what their runs do step by step: admission, and a whole pass over the poll array |
| `Dfu.dfy` | flash writer contract, command handlers as a class, the staged image as a log |
| `UpdateSystem.dfy` | host, streams, server threads, handlers and flash as one transition system |
| `UpdateProof.dfy`, `UpdateTheorems.dfy` | its invariant, and what every run guarantees |
| `UpdateStreams.dfy` | conservation in every run: bytes in both directions, requests, connections, history |
| `UpdateExactness.dfy` | exactly what image an acknowledged session has left, in every run |
| `UpdateProgress.dfy` | a session on course can always be completed, from the middle of things too |
| `UpdateInterference.dfy` | runs that end acknowledged with a wrong image: a foreign restart, a second host, an attempt given up |
| `BulkIn.dfy`, `EndpointBuffers.dfy` | USB class driver: zero-length-packet rule, buffer ownership and re-arming |
| `FrameQueue.dfy`, `UsbReceive.dfy`, `UsbPath.dfy` | the heap-backed receive queue; the worker and a waiting host; endpoint, queue and worker composed |
| `SerialRx.dfy` | the UART's two buffers and its copy queue |

A run is any list of steps, each enabled where it is taken, so "in every run" covers every
interleaving of the two server threads, the host, other clients and all nondeterministic outcomes of
recv, send, poll, accept and the flash writer; that no step is ruled out which the assumptions below
leave open is proved too (the lemmas named `...MayDoAnything`). State-changing code is written as classes and methods
proved against functions on values; the transition systems use those same functions, down to the
host's verdict on a reply (`HostSession.Accepts`).

## What is assumed

- Flash writer: a successful initialisation empties the staging area and a failed one changes nothing;
  a successful write appends its bytes and a failed one any prefix of them; a successful flush puts
  everything staged on flash; until then any amount of it may be there.
- TCP: bytes arrive in order, and what has been sent is readable when recv is called. Nothing is
  assumed about message boundaries; that every recv sees one whole message is proved.
- The kernel gives accept a descriptor number that is not open. Numbers are reused freely.
- A region under the server's mutex is one step. Replies may be lost or cut; hang-up, end of stream
  and recv errors may be reported for any connection at any time.
- The USB stack completes only buffers it owns. The USB heap gives out a frame exactly when the bytes in
  use leave room for its header and data. The USB handler answers a frame at most once.
- The UART driver gives back and fills only buffers it holds.

## Where the code falls short

- The staging area is shared and unguarded. A single DFU_START byte from any other connection, handled in
  the middle of a session, throws away what the session has staged; the session can still be acknowledged
  to the end, on a truncated image (`RestartTruncates`). A second host can run its whole download at any
  point of the first host's session with every request answered SUCCESS, and the first host is then told
  of success on the second firmware followed by the rest of its own (`SecondHostReplaces`).
- Giving up on a request and starting again is not safe (`GivenUpAttemptCanCorrupt`): the abandoned
  request can still be handled during the second session, which is then acknowledged to the end with a
  wrong image.
- What holds instead, for every run that ends acknowledged (`AcknowledgedImageExactly`): the image is what
  was staged when another connection last altered the area, followed by the rest of the firmware. So it is
  the firmware if and only if that was the firmware's prefix of the length the host had sent by then. By
  counting, it is as long as the firmware, less the bytes a foreign DFU_START threw away, plus the bytes
  others have staged since; equal counts alone do not make it right (`EqualCountsDecideNothing`). It is
  right whenever no other connection has altered the staging area since the session's DFU_START
  (`AcknowledgedImageIsFirmware`), and nothing alters it when earlier attempts were answered and other
  clients send no DFU commands (`RestartedAttemptIsExact`).
- The USB class driver never retries a failed re-arm (`DeafUntilEnabled`) and relies on not being
  enabled twice (`OneArmedIffEnabledWhenIdle`).
- The UART callback's single free-buffer pointer suffices exactly for drivers that release a buffer
  before each further request (`NeverHandedHeldIffDisciplined`).
- The TCP tool's process exits with status 0 even after a failed update; "the host sees success" here
  means that its last step returned 0.

## Model

| member | source | states |
|---|---|---|
| Chunking.ChunksRoundTrip | host-dfu-app/tcp_client.c:97-112 | the payloads joined are the firmware, each has 1..c bytes, all but the last are full, and there are ceil(n / c) of them |
| Chunking.ChunksUnique | host-dfu-app/tcp_client.c:97-112 | no other way of cutting has that shape, so the packets of an image are determined by it |
| Chunking.ChunkAt | host-dfu-app/tcp_client.c:98-103 | chunk i is the slice of the firmware at offset i * c |
| Chunking.BothToolsSameImage | host-dfu-app/dfu_host.c:132-147 | 254-byte and 63-byte chunks stage the same image; each packet fits the server's buffer or one USB packet |
| HostSession.PhaseAdvances | host-dfu-app/tcp_client.c:97-125 | each acknowledged exchange leaves exactly one exchange less to go |
| HostSession.ScriptLength | host-dfu-app/tcp_client.c:203-205 | a session has 2 + ceil(n / c) packets, DFU_START and DFU_END included |
| HostSession.PhaseFollowsScript | host-dfu-app/tcp_client.c:97-125 | the packet each phase sends is the next one of the session's script |
| HostSession.FirstRefusedExact | host-dfu-app/tcp_client.c:49-77 | the count used below is the number of leading exchanges acknowledged with the right command and status 1 |
| HostSession.HostTool.SendAndAck | host-dfu-app/tcp_client.c:49-77 | 0 exactly when the exchange ended with the two bytes of its own command and status 1 |
| HostSession.HostTool.Download | host-dfu-app/tcp_client.c:90-116 | the in-place chunk loop sends the DFU_DOWNLOAD packets in order, stops behind the first refused one, and returns 0 exactly when none was |
| HostSession.HostTool.Run | host-dfu-app/tcp_client.c:203-205 | succeeds exactly when every exchange of the script does; sends the script up to and including the first refused packet |
| SlotTable.FirstFree | app/src/tcp_server.c:50-51 | the lowest inactive slot |
| SlotTable.FirstWithFd | app/src/tcp_server.c:36-37 | the lowest slot carrying the descriptor, active or stale |
| SlotTable.InsertExact | app/src/tcp_server.c:47-61 | a full table is left alone; otherwise exactly the lowest inactive slot changes |
| SlotTable.RemoveExact | app/src/tcp_server.c:33-45 | without the descriptor nothing changes; otherwise exactly the lowest slot carrying it becomes inactive and keeps its number |
| SlotTable.SnapshotExact | app/src/tcp_server.c:77-85 | the poll array starts with the active slots' descriptors in slot order and is as before behind them |
| SlotTable.RemovalHitsOwnSlotIffStaleFree | app/src/tcp_server.c:33-45 | matching on the descriptor alone finds every active connection's own slot if and only if no lower slot carries its descriptor |
| SlotTable.InsertKeepsStaleFree | app/src/tcp_server.c:47-58 | first-fit insertion of a descriptor no active slot has keeps that invariant |
| SlotTable.RemoveKeepsStaleFree | app/src/tcp_server.c:36-43 | removal keeps it for any descriptor |
| SlotTable.ActiveIdxExact | app/src/tcp_server.c:79-85 | the snapshot visits all active slots and no other, in slot order |
| SlotTable.ClientTable.constructor | app/src/tcp_server.c:24-31 | an empty table of the given size with a zero counter |
| SlotTable.ClientTable.Add | app/src/tcp_server.c:47-62 | the loop over the array fills the first free slot and counts it, or changes nothing and closes the descriptor |
| SlotTable.ClientTable.Drop | app/src/tcp_server.c:33-45 | the loop clears the first slot with the descriptor, counts down and closes it once; nothing happens without a match |
| SlotTable.ClientTable.TakeSnapshot | app/src/tcp_server.c:77-87 | the poll array is overwritten in place by the active descriptors in slot order, older entries stay behind them |
| ServerThreads.StepInv | app/src/tcp_server.c:33-125 | every step of either thread keeps the table, descriptor, ledger and snapshot invariants |
| ServerThreads.RemovalFindsOwnSlot | app/src/tcp_server.c:33-62 | in every run, removal by descriptor picks the active connection's own slot, although stale numbers remain in others |
| ServerThreads.SnapshotStaysValid | app/src/tcp_server.c:72-106 | in every run, the entry being processed and all later ones still denote the connections of snapshot time |
| ServerThreads.VisitTouchesOwnConnection | app/src/tcp_server.c:92-103 | processing an entry closes exactly that entry's connection on hang-up or end of stream, and otherwise closes nothing |
| ServerThreads.DescriptorConservation | app/src/tcp_server.c:33-125 | open descriptors are the active slots' plus the accept thread's; each accepted connection is open or closed once, never both, never leaked |
| ServerThreads.CounterAndSnapshotExact | app/src/tcp_server.c:73-88 | the counter equals the number of active slots in every state; the polled entries are exactly the active descriptors, distinct and within the array |
| ServerRuns.AdmittedIffRoom | app/src/tcp_server.c:47-62 | a connection is admitted exactly if a slot is free; with a full table no slot changes and only its own descriptor is closed |
| ServerRuns.RemovalIsRemove | app/src/tcp_server.c:33-45 | removing a live client clears its slot, counts down and closes its connection, and changes nothing else |
| ServerRuns.TurnGoesOn | app/src/tcp_server.c:91-104 | every turn goes on with the next entry; the callback runs exactly for input without hang-up whose recv returned bytes |
| ServerRuns.LoopHead | app/src/tcp_server.c:72-91 | the thread sleeps on exactly while no slot is active, and entries are processed, from the first, exactly if poll reports some |
| ServerRuns.PassVisitsEachEntryOnce | app/src/tcp_server.c:91-105 | in every run between two polls the entries 0, 1, 2, ... have their turn once each, in order, and the handler is back at the head of its loop only after all n |
| Dfu.OperateReplays | app/src/dfu.c:24-118 | handling a command changes the staged bytes as replaying its log entry does |
| Dfu.StagedIsConcatenation | app/src/dfu.c:21-58 | without failed writes the staged bytes are the payloads since the last successful DFU_START, joined in handling order |
| Dfu.UnrecognisedInert | app/src/dfu.c:104-112 | unrecognised commands never change what is staged, wherever they fall |
| Dfu.Updater.Start | app/src/dfu.c:24-40 | staging is emptied exactly when the initialisation succeeds; one reply follows it and says which |
| Dfu.Updater.Download | app/src/dfu.c:42-58 | the payload, or the prefix a failing write took, is appended; one reply follows the write and says which |
| Dfu.Updater.End | app/src/dfu.c:61-88 | a failed flush is answered FAILED and nothing follows; a successful one is answered before the upgrade request and the reboot |
| Dfu.Updater.Handle | app/src/dfu.c:99-118 | range check and dispatch: the state and the ordered effects for every request byte |
| Dfu.Updater.Received | app/main.c:21-24 | first byte is the command, the rest its payload |
| Dfu.EffectsDoTheWork | app/src/dfu.c:24-118 | the recorded calls, played on the flash writer with the data recorded, give exactly the flash state claimed for the command |
| Dfu.WriteContract | app/src/dfu.c:49-49 | the writer's assumed behaviour on a buffered write, both directions: what it may leave, and that every such state is some outcome's |
| Dfu.InitContract | app/src/dfu.c:31-31 | the same for the initialisation |
| Dfu.FlushContract | app/src/dfu.c:68-68 | the same for the flush |
| Dfu.ImageIsWhatIsWritten | app/src/dfu.c:68-68 | the image is the prefix of the staged bytes that is on flash, and no more |
| Dfu.EffectsDisciplined | app/src/dfu.c:24-118 | one reply per request, echoing it, success exactly when a flash call was made and worked; reboot only after flush, reply and upgrade request |
| UpdateSystem.TaskConnection | app/src/tcp_server.c:96-98 | inside the callback the descriptor still denotes the connection the request came from |
| UpdateStreams.InboxConserved | app/src/tcp_server.c:96-98 | in every run, for every connection, whoever owns it: bytes sent are the buffers handed to the callback, joined, followed by what is still readable |
| UpdateStreams.OutboxConserved | app/src/tcp_server.c:159-162 | the same towards the host for the bytes of replies the socket took |
| UpdateStreams.ReceiveTakesFront | app/src/tcp_server.c:96-98 | one recv takes the first bytes of its entry's own stream, up to the buffer's 255, and touches no other |
| UpdateStreams.EveryRequestHandledOnce | app/main.c:21-24 | in every run each buffer handed to the callback is handled once, in order, command byte and payload as received |
| UpdateStreams.ConnectionsFromPowerUp | app/src/tcp_server.c:107-125 | in every run each connection made is waiting to be accepted or has been accepted, never both |
| UpdateStreams.AttemptHistory | host-dfu-app/tcp_client.c:203-205 | in every run the record of tidy attempts holds exactly if every restart followed a success or a FAILED reply, and the host's connections are those it opened |
| UpdateStreams.WholeIsWhole | host-dfu-app/tcp_client.c:53-57 | in every run the host's record that its packet went out in full says what its last send did |
| UpdateStreams.VerdictExact | host-dfu-app/tcp_client.c:59-76 | the host goes on exactly if the two bytes are its own command and status 1 |
| UpdateStreams.ServerMayDoAnything | app/src/tcp_server.c:72-125 | the runs leave nothing out: any free descriptor for any waiting connection, any poll result, end of stream or error at any entry, in every state of the two threads |
| UpdateStreams.DataMayBeReceived | app/src/tcp_server.c:95-98 | bytes that are there can be received at an entry that reports input and no hang-up |
| UpdateStreams.CallbackMayDoAnything | app/src/dfu.c:24-88 | the flash writer may turn out any way its contract allows, and a reply may be cut anywhere |
| UpdateStreams.OutsideMayDoAnything | host-dfu-app/tcp_client.c:49-77 | other clients may connect and send anything at any time; the host may send whole or short, read, give up, or be run again with any firmware |
| UpdateProof.StepInv | host-dfu-app/tcp_client.c:49-126 | every step of the composed system keeps the invariant over host offset, streams, handler progress and flash |
| UpdateProof.OperateOwnKeeps | app/src/dfu.c:42-58 | the host's own command moves the staged bytes from the acknowledged prefix to the next one, or to a prefix in between when it fails |
| UpdateProof.AckKeeps | host-dfu-app/tcp_client.c:59-76 | the two bytes the host reads are its own command and the result of its own last request |
| UpdateTheorems.AcknowledgedImageIsFirmware | host-dfu-app/tcp_client.c:118-126 | in every run, DFU_END acknowledged and staging undisturbed since DFU_START implies the image on flash is the firmware |
| UpdateExactness.AcknowledgedImageExactly | app/src/dfu.c:21-58 | in every run with DFU_END acknowledged, the image is what was staged when another connection last altered the area followed by the firmware from where the host had got by then, so it is the firmware if and only if that front is the firmware's prefix of that length; its length accounts for bytes thrown away and added; if all others' bytes were handled before the host's next ones, the image is those bytes and the firmware behind what was thrown away; without a foreign restart it is right if and only if staging was undisturbed |
| UpdateExactness.FrontIsStaged | app/src/dfu.c:21-58 | the front of that statement, computed from the commands handled, is in every run what the flash writer had taken at the moment of the last interference |
| UpdateExactness.UndisturbedIsNoBytes | app/src/dfu.c:21-58 | undisturbed staging means exactly: no foreign restart and no foreign byte since the connection's DFU_START; without a restart nothing is thrown away |
| UpdateExactness.StagedIsPrefix | host-dfu-app/tcp_client.c:97-112 | once DFU_START is acknowledged the staged bytes of an undisturbed session are what was acknowledged plus at most the outstanding chunk, also after giving up: without that chunk exactly until it is handled, with all of it once it was handled with success, or was sent in full and no write failed; nothing is staged while the reply to a successful DFU_START is outstanding |
| UpdateTheorems.OneWholeMessagePerRecv | app/src/tcp_server.c:96-98 | every recv on the updating connection returns exactly one whole message and leaves that stream empty |
| UpdateTheorems.AcknowledgementMatches | host-dfu-app/tcp_client.c:59-74 | the host never reads an acknowledgement for another command; it fails exactly on a FAILED reply |
| UpdateTheorems.HostFollowsScript | host-dfu-app/tcp_client.c:92-112 | in every run, the packet sent after k acknowledgements is packet k of the script |
| UpdateTheorems.RepliesMatchRequests | app/src/dfu.c:24-118 | replies match handled requests one for one, in order, to the asking connection |
| UpdateTheorems.StagedIsLogOfPayloads | app/src/dfu.c:21-58 | in every run without failed writes, whoever sent the commands, the staged bytes are the payloads since the last successful DFU_START |
| UpdateTheorems.RebootIsSafe | app/src/dfu.c:61-88 | a reboot follows a successful flush, the attempted success reply and the upgrade request, with nothing staged in between; after any other command the handler goes back to its loop |
| UpdateTheorems.HandlerStepsAreEffects | app/src/dfu.c:61-118 | the system's separate handler steps do what the handlers do in one go |
| UpdateTheorems.RestartedAttemptIsExact | host-dfu-app/tcp_client.c:203-205 | after earlier attempts that were answered, an acknowledged attempt leaves exactly its own firmware on flash |
| UpdateTheorems.SystemRunsServer | app/src/tcp_server.c:64-125 | every run of the whole system is a run of the two server threads |
| UpdateTheorems.OwnStepsCountDown | host-dfu-app/tcp_client.c:49-126 | each step of the session's round trips lowers the measure by one, no other step changes it |
| UpdateTheorems.SessionLength | host-dfu-app/tcp_client.c:80-126 | an unbroken session has succeeded exactly when it has made 2 + ceil(n / 254) acknowledged exchanges of five steps |
| UpdateProgress.SessionCanFinish | host-dfu-app/tcp_client.c:203-205 | with the host between or inside exchanges and the handler anywhere in its loop or callback, some continuation installs the firmware and reboots, provided staging is undisturbed, the connection is in the table with no hang-up pending, no reply to it was lost or a refusal, and nobody else's DFU_END is about to reboot the device |
| UpdateProgress.EveryFirmwareCanBeInstalled | host-dfu-app/tcp_client.c:203-205 | from power-up every firmware, the empty one included, can be installed |
| UpdateInterference.RestartTruncates | app/src/dfu.c:24-40 | with the handler idle, the host between exchanges with some bytes acknowledged, and DFU_START waiting on any other connection in the table, some run is acknowledged to the end with exactly those bytes missing from the front of the image |
| UpdateInterference.SecondHostReplaces | app/src/dfu.c:21-58 | from power-up, at every chunk boundary of the first host's session and for every second firmware: a run in which the second host's START and chunks are each answered SUCCESS, by successive replies, and the first host is acknowledged to the end on the second firmware followed by the rest of its own |
| UpdateInterference.EqualCountsDecideNothing | app/src/dfu.c:21-58 | for every firmware of more than one chunk, two runs with equal counts of bytes thrown away and added, one with the right image, one with a wrong one |
| UpdateInterference.GivenUpAttemptCanCorrupt | host-dfu-app/tcp_client.c:59-64 | a request given up on and handled late leaves its chunk before the second attempt's acknowledged image |
| BulkIn.ZlpRuleExact | modules/usb_class/src/custom_class.c:42-43 | the receiver gets exactly the message if and only if the zero-length packet is asked for by the class's rule |
| BulkIn.FramingRoundTrip | modules/usb_class/src/custom_class.c:28-53 | decoding the packets of any sequence of messages gives back the messages, empty ones included |
| BulkIn.PacketsFit | modules/usb_class/src/custom_class.c:36-43 | packets are at most 64 bytes and carry the message's bytes in order |
| EndpointBuffers.EveryBufferFreedOnce | modules/usb_class/src/custom_class.c:68-114 | over every run each buffer has one owner and is freed exactly once; the class holds none back |
| EndpointBuffers.ArmedIsBalance | modules/usb_class/src/custom_class.c:68-114 | armed OUT buffers are exactly the successful enables less the completions that could not re-arm |
| EndpointBuffers.OneArmedIffEnabledWhenIdle | modules/usb_class/src/custom_class.c:131-134 | at most one OUT buffer is armed throughout exactly when enable succeeds only while none is |
| EndpointBuffers.DeafUntilEnabled | modules/usb_class/src/custom_class.c:96-105 | with no OUT buffer armed nothing but another enable restores reception |
| EndpointBuffers.DeliveredInOrder | modules/usb_class/src/custom_class.c:104-113 | the callback sees the good completions while it is set, in order, each once, cut to one packet |
| EndpointBuffers.CallbackBetweenRearmAndFree | modules/usb_class/src/custom_class.c:104-113 | in every run, when the callback reads the data their buffer has not been freed and re-arming is already done |
| EndpointBuffers.ReceiverGetsWhatWasSent | modules/usb_class/src/custom_class.c:28-53 | over every run a receiver gets, from the packets of what the driver queued, exactly the messages whose sending succeeded, with their boundaries |
| EndpointBuffers.InCompletionOnlyFrees | modules/usb_class/src/custom_class.c:88-113 | a completed IN transfer, good or bad, frees its buffer and does nothing else |
| EndpointBuffers.StackMayDoAnything | modules/usb_class/src/custom_class.c:88-134 | every buffer the stack owns may complete at any time, well or badly, with any data and any failures |
| EndpointBuffers.CustomClass.SendMessage | modules/usb_class/src/custom_class.c:28-53 | allocate, queue with the zero-length-packet flag, or free on a failed enqueue |
| EndpointBuffers.CustomClass.Arm | modules/usb_class/src/custom_class.c:68-86 | allocate and arm, or free on a failed enqueue |
| EndpointBuffers.CustomClass.Complete | modules/usb_class/src/custom_class.c:88-114 | on an error free then re-arm; otherwise re-arm, deliver, free |
| FrameQueue.TakeKeepsOrder | app/src/usb.c:102-107 | frames come out in the order they went in |
| FrameQueue.Frames.Receive | app/src/usb.c:83-97 | the data are copied into a frame of their own and queued last, or dropped |
| FrameQueue.Frames.Get | app/src/usb.c:102-105 | the worker takes the oldest frame |
| FrameQueue.Frames.Free | app/src/usb.c:107-107 | the frame just handled goes back to the heap |
| UsbReceive.HandledInOrder | app/src/usb.c:83-109 | for any host the queued packets are handled in order, each frame freed once, and the live frames with their headers never exceed the heap |
| UsbReceive.AtMostTwoFrames | host-dfu-app/dfu_host.c:70-111 | with a host that waits at most two frames are live, the second only while an answered handler has not returned |
| UsbReceive.NothingLost | app/src/usb.c:87-96 | with heap bytes for two full frames the handler sees exactly the received packets in order |
| UsbReceive.PacketsConserved | app/src/usb.c:83-97 | in every run the packets received and those on the wire are the packets sent, in order |
| UsbReceive.FramesAndReplies | app/src/usb.c:99-109 | in every run the worker frees each frame it takes before it takes the next, the handler may answer each once, and replies are conserved |
| UsbReceive.PipeMayDoAnything | app/src/usb.c:87-92 | a packet on its way is queued exactly if its frame fits the heap and dropped otherwise; hosts may send whatever fits the endpoint |
| UsbReceive.TwoFramesExactlyEnough | app/src/usb.c:41-41 | no run of a waiting host drops a packet if and only if the heap has the bytes of two frames with header and 64 bytes of data (it is configured with those of five) |
| UsbPath.HandlerSeesWhatTheEndpointReceived | app/src/usb.c:83-109 | with the class driver in front of the queue, a host that waits and heap bytes for two full frames, the handler sees exactly the packets the endpoint received, whole and in order, under any failures of allocation, enqueue or transfer |
| UsbPath.StallsWithoutArmedBuffer | modules/usb_class/src/custom_class.c:68-113 | after a failed re-arm nothing reaches the handler any more until the class is enabled again |
| UsbPath.PathMayDoAnything | modules/usb_class/src/custom_class.c:88-114 | a packet on its way may complete any armed buffer, whatever the driver is refused then |
| SerialRx.NoClashIffDisciplined | app/src/serial.c:49-55 | the callback never hands over a buffer the driver holds if and only if the driver releases one before each further request |
| SerialRx.NeverHandedHeldIffDisciplined | app/src/serial.c:49-55 | over whole event lists: each single request is answered with a buffer not held at that moment, if and only if the driver is disciplined |
| SerialRx.DriverMayDoAnything | app/src/serial.c:49-55 | the driver may ask at any time and give back any buffer it holds |
| SerialRx.Serial.OnReady | app/src/serial.c:36-47 | the received stretch is copied into a queued frame; the buffers are untouched |
| SerialRx.Serial.OnRequest | app/src/serial.c:49-51 | the callback makes the protocol's request step: the free buffer is handed over and held from then on, and it is a clash exactly if it was held already |
| SerialRx.Serial.OnReleased | app/src/serial.c:53-55 | the callback makes the protocol's release step: the released buffer is no longer held and becomes the free one; the queue is unchanged |
| SerialRx.Serial.DriverFills | app/src/serial.c:43-46 | the driver refilling a buffer it holds changes nothing that is queued |
| SerialRx.Serial.Turn | app/src/serial.c:67-71 | the oldest frame is handled and freed |

## Left out

- The thread loops of the server are modelled as steps on values in `ServerThreads`, because they interleave; the critical sections themselves are methods over the array in `SlotTable`.
- The host's exchanges inside `UpdateSystem` are steps on values for the same reason; the tool's own loop over its packet buffer is `HostSession.HostTool`.
- Flash writer, MCUboot, sockets, poll, kernel heap and USB stack internals: only the contracts listed under "What is assumed".
- TCP segmentation, retransmission and timing: a stream's bytes are readable once sent.
- UpdateTheorems.AcknowledgedImageIsFirmware: asks that no other connection altered the staging area since the session's DFU_START, because the flash context is shared and unguarded; `UpdateInterference.RestartTruncates`, `UpdateInterference.SecondHostReplaces` and `UpdateInterference.GivenUpAttemptCanCorrupt` show that it cannot be dropped, and `UpdateExactness.AcknowledgedImageExactly` says what every run leaves without it.
- UpdateProgress.SessionCanFinish: states in which the connection still waits to be accepted are covered from power-up only (`EveryFirmwareCanBeInstalled`); fairness, that is, that the handler and the network eventually act, is not proved; a session can always be completed, and how many steps of its own it takes is exact.
- How a USB build would split a packet into command and payload: that caller does not exist in the repository, and the handlers' USB branches are compiled out.
- `usb_ready`, `usb_app_send`'s early returns, `serial_write` and `custom_class_get_desc`: single tests or copies.
- UsbReceive.TwoFramesExactlyEnough: frames are counted by header and data bytes; the kernel heap's own chunk headers, alignment and fragmentation are not modelled.
- Argument parsing, file reading, console output, libusb and socket set-up, Wi-Fi, UpdateHub, watchdog, counter, sensor, joystick, HTTP and storage code, build configuration.
