# Verified model of the simulator's protocols

This project models the parts of the LoRa simulator that behave like protocols and proves what
they are for, for every input, every run and every interleaving. Core objects keep the source's
form: classes whose methods update fields in place, loops with invariants, pure codecs as functions.
Each method is tied to a specification function, and the laws are proved about those functions.

Nothing in this project was executed; every claim is a Dafny proof.

| part | files | main results |
|---|---|---|
| Stop-and-wait firmware update (2024 paper), three methods | `OtaFrames`, `OtaNode`, `OtaLink`, `OtaStages`, `OtaExchange`, `OtaLossFree`, `OtaCalm`, `OtaServing`, `OtaGateway` | every flash installs the gateway's image; a node reported updated runs the new version; the fragment loop ends against any traffic; from boot nothing raises and no attempt is ever restarted; over an air that loses nothing every node is updated, with an exact number of frames |
| DMA trace buffer (C) | `TraceRing`, `TraceMachine`, `TraceBuffer` | under any interleaving of writers and interrupts the ring is a byte queue; when completion interrupts alone empty it, exactly |
| Discrete-event kernel | `WakeUpQueue`, `Kernel`, `Environment` | when the lock counter counts the runnable tasks, exactly; no wake-up is lost or late; time moves only when idle, and a sleeper is woken at its tick |
| LoRaWAN link | `LorawanCrypto`, `LorawanFrames`, `Subsequences`, `LorawanLink`, `LorawanUplink`, `LorawanJoin`, `MacCommands`, `EndDevice` | multicast and uplinks from end to end; join agreement; MAC command streams under truncation |
| Multicast queue and Class B | `MulticastQueue`, `PingSlots`, `SlotLoops`, `NetworkServer`, `ClassB` | the queue stays sorted; each period takes a prefix of a group's entries; every frame is assigned a slot on the device's list; exactly which of these slots the gateway sends into and the device opens |
| Receive chains | `RxChain` | of two packets in transit together on a chain at most one is delivered by it; which one, exactly |
| Sequential-SF schedule (2025 paper) | `SfSchedule` | gateway and recipients agree on the SF of every frame; the exact condition on the retune guard |
| Duty cycle | `DutyCycle` | the airtime bound between any two gated frames; the exact condition for all frames |
| Shared | `Bytes`, `Sorting` | fixed-width integers, slices, byte xor; a stable sort |

Conventions. AES, CMAC and SHA-256 are parameters; the only law used is that AES decrypt inverts
encrypt, and only for the join accept. "No forgery" is the assumption `Unforged`: a frame that passes
the MIC test for an address was built by the key's owner. Times are exact integers (milliseconds,
ticks) or reals. An exception in the source is a value here (`None`, `Raises`, `AssertionFailed`), not
a precondition. A link is a queue in each direction from which any frame may be lost at any time, and the
timing of timeouts is arbitrary; `calm` is the special case in which nothing is lost and nodes answer before
the gateway stops waiting. Ghost parameters named `clean` distinguish an attempt that starts with
empty queues from one amid arbitrary stale traffic; both are covered.

Where the code and its documentation differ, the model follows the code:

- A frame with counter 2^16 or more is built with a MIC over the whole counter but carries 16 bits
  of it (`simulator/lorawan/frame.py:92`), so the receiver tests another MIC. The end-to-end results bound
  the counter, `VerifiesUnderShortCounter` and `VerifiesExactlyBelow` give the exact condition and
  `LongCountersAreRefused` an input.
- The kernel takes one lock per registration (`simulator/environment.py:123-129`), also when an event stands
  twice in the list of one tick, as when a shared event is scheduled again for the tick its waiter registered.
  `LocksCountRunnableTasks` gives the exact condition over every run for the counter to be right, and
  `SurplusStopsTime` and `DoubleRegistrationStops` what follows otherwise: the clock never moves again.
- In the compact MiWi encoding a frame to node 0xFF reads back as a broadcast
  (`CompactFrameRoundTrip` gives the condition).
- MAC answers beyond 15 bytes are cut and lost (`AnswersCanBeCut`).
- Replies and beacons are charged to the gateway's duty cycle but not held back. The bound for all frames
  holds exactly when each of them, gated or not, found the quiet time over (`WithinDutyExactly`); a run of
  `ReplyInQuietTime` breaks it.
- A ping slot whose time has come when the window before it ends is passed over
  (`simulator/lorawan/device.py:1460-1461`). A window in which nothing is heard lasts the whole slot, until the very
  time of a neighbouring slot, so in a row of neighbours only every other slot is opened (`EmptySlotsExactly`). All
  are opened exactly when no two are neighbours (`AllOpenedExactly`). A group whose slots come directly after the
  device's own is never heard while these stay empty (`TrailingGroupIsNeverMet`, with an input in
  `TrailingGroupExample`); a device that listens to one group only opens all its slots (`LoneSessionIsOpened`).
- Two groups can be assigned the same slot; the gateway then drops one of the two frames, whose counter is used up
  (`SharedSlotLosesOne`).
- At 100 % duty the last frame of a round is cut by the retune (`FullDutyCutsAFrame`).
- A trace writer that finishes between the callback's decision and its unlock finds the lock held, and the callback
  has made its decision: the byte waits until somebody sends again (`ReleaseCanStrand`; `CompletionsExactly` gives the
  condition under which the interrupts alone empty the buffer).
- An empty trace buffer can refuse a message shorter than the buffer (`EmptyBufferCanRefuse`).

## Model

| member | source | states |
|---|---|---|
| OtaFrames.GatewayRoundTrip | papers/fuota-unicast-broadcast-2024/frames.py:118-241 | a gateway message encodes exactly when its fields fit, and then decodes to itself, fragment numbers of 1, 2 or 3 bytes included |
| OtaFrames.BitmapRoundTrip | papers/fuota-unicast-broadcast-2024/frames.py:352-376 | a bitmap comes back as itself padded with zeros to whole bytes |
| OtaFrames.BitmapToBytes | papers/fuota-unicast-broadcast-2024/frames.py:362-368 | the bit-setting loop produces the encoding that the round trip is about |
| OtaFrames.NodeRoundTrip | papers/fuota-unicast-broadcast-2024/frames.py:249-414 | a node message encodes exactly when its fields fit, and then decodes to itself up to bitmap padding |
| OtaFrames.FullFrameRoundTrip | papers/fuota-unicast-broadcast-2024/frames.py:79-113 | the full MiWi frame keeps addresses and payload, and the sequence number modulo 256 |
| OtaFrames.CompactFrameRoundTrip | papers/fuota-unicast-broadcast-2024/frames.py:79-113 | the compact frame comes back unchanged exactly when the destination is not 0xFF |
| OtaFrames.GatewayBytes | papers/fuota-unicast-broadcast-2024/frames.py:118-241 | every gateway message byte by byte, the type that says how long a fragment number is and whether it is the last included |
| OtaFrames.NodeBytes | papers/fuota-unicast-broadcast-2024/frames.py:249-414 | every node message byte by byte |
| OtaFrames.BitmapBits | papers/fuota-unicast-broadcast-2024/frames.py:352-376 | entry i of a bitmap is bit i % 8 of byte 1 + i / 8, and the rest of the last byte is zero |
| OtaFrames.FullFrameBytes | papers/fuota-unicast-broadcast-2024/frames.py:79-113 | the full MiWi frame byte by byte, with the sum of the payload modulo 2^16 at its end |
| OtaNode.Node.HandleMessage | papers/fuota-unicast-broadcast-2024/node_base.py:80-107 | the node object takes exactly the step of the specification, in place |
| OtaNode.Node.UpdateMessage | papers/fuota-unicast-broadcast-2024/broadcast_unicast/node.py:22-45 | chunks are stored at their number, once; starts reset the state; both kinds of node |
| OtaNode.Node.AssembledBinary | papers/fuota-unicast-broadcast-2024/node_base.py:55-58 | the concatenation loop gives the chunks in order |
| OtaNode.CompleteMeansWholeImage | papers/fuota-unicast-broadcast-2024/node_base.py:46-58 | a complete node holds the whole firmware; it is complete exactly when it counts as many fragments as the gateway has |
| OtaNode.HandleKeepsSafe | papers/fuota-unicast-broadcast-2024/node_base.py:80-115 | no gateway message makes a safe node raise, hold a wrong chunk or leave the new version |
| OtaNode.FlashInstallsTheImage | papers/fuota-unicast-broadcast-2024/node_base.py:117-139 | a node flashes exactly on a flash command with a verified checksum, and what it flashes is the gateway's image |
| OtaNode.VerdictIsCompleteness | papers/fuota-unicast-broadcast-2024/node_base.py:92-121 | the checksum verdict is positive exactly when the node holds the whole binary |
| OtaNode.RaisesExactly | papers/fuota-unicast-broadcast-2024/node_base.py:80-139 | whoever sends it: handling a message raises exactly for the requests of the other kind's protocol, and for a flash command on a verified empty image |
| OtaNode.AnswersTell | papers/fuota-unicast-broadcast-2024/node_base.py:80-107 | what each answer says about the node: its version, how many chunks it holds and which, the next number it waits for; nothing to a fragment heard in a broadcast |
| OtaNode.FirstFragmentWins | papers/fuota-unicast-broadcast-2024/broadcast_unicast/node.py:22-45 | over any sequence of messages, honest or not, a chunk that a node holds stays as it is until the update starts over |
| OtaLink.RunKeepsSafe | papers/fuota-unicast-broadcast-2024/node_base.py:60-107 | over every run of losses, delays and stale frames a safe link stays safe: all stored chunks are the gateway's and nothing raises |
| OtaLink.RaisedExactly | papers/fuota-unicast-broadcast-2024/node_base.py:60-107 | a node's receive loop ends in an exception exactly when handling a frame does or the answer does not fit its format |
| OtaLink.EveryFlashInstallsTheImage | papers/fuota-unicast-broadcast-2024/node_base.py:123-139 | every flash in every run installs exactly the gateway's image, once, and clears the update state |
| OtaLink.BootedIsSafe | papers/fuota-unicast-broadcast-2024/node_base.py:22-44 | a node that has just booted, with nothing in the air, is where those runs may start |
| OtaLink.SafeFromBoot | papers/fuota-unicast-broadcast-2024/node_base.py:60-139 | from boot, whatever the gateway sends in whatever order: nothing raises, the chunks are right, the version is the old or the new one, and the next flash installs the image |
| OtaStages.RunKeepsStage | papers/fuota-unicast-broadcast-2024/gateway_base.py:162-224 | each stage of an attempt that began with empty queues keeps its invariant over every run of the air |
| OtaStages.CursorNeverOvertakes | papers/fuota-unicast-broadcast-2024/gateway_base.py:200-222 | the fragment cursor never exceeds what the node stored nor any queued acknowledgement; at the end of the list the node is complete |
| OtaStages.MissingNeverGrows | papers/fuota-unicast-broadcast-2024/broadcast_unicast/gateway.py:102-111 | what a collecting node holds only grows, and every bitmap in flight over-approximates what it lacks |
| OtaExchange.SentEverything | papers/fuota-unicast-broadcast-2024/unicast_only/gateway.py:34-54 | leaving the fragment loop implies that the node holds every fragment |
| OtaExchange.CollectedEverything | papers/fuota-unicast-broadcast-2024/broadcast_unicast/gateway.py:124-133 | leaving the repair loop implies a complete node |
| OtaExchange.AcceptIsProgress | papers/fuota-unicast-broadcast-2024/gateway_base.py:200-222 | an accepted acknowledgement, however stale, strictly lowers a well-founded potential |
| OtaExchange.TransmitIsFree | papers/fuota-unicast-broadcast-2024/gateway_base.py:230-264 | sending the fragment under the cursor again does not raise the potential |
| OtaExchange.RunNeverRaises | papers/fuota-unicast-broadcast-2024/gateway_base.py:200-222 | no loss, delay or answer raises the potential, whatever is stale |
| OtaGateway.Gateway.WaitForReply | papers/fuota-unicast-broadcast-2024/gateway_base.py:279-300 | returns the first wanted reply; other replies are consumed |
| OtaGateway.Gateway.Exchange | papers/fuota-unicast-broadcast-2024/gateway_base.py:230-264 | at most the allowed transmissions, counted exactly; no reply means that as many went unanswered one after the other; what an accepted reply proves about the node; over an air that loses nothing the first transmission is answered |
| OtaGateway.Gateway.SendFragments | papers/fuota-unicast-broadcast-2024/gateway_base.py:200-224 | ends against any air; success means the cursor passed the last fragment; failure means an exchange whose transmissions all went unanswered; over an air that loses nothing every fragment is sent once |
| OtaGateway.Gateway.FinishUpdate | papers/fuota-unicast-broadcast-2024/gateway_base.py:162-198 | done means the node runs the new version; from a clean start no stage can fail; unreachable means an unanswered exchange or the allowed number of ignored flash commands; over an air that loses nothing it is done with K + 5 frames |
| OtaGateway.Gateway.ConfirmChecksum | papers/fuota-unicast-broadcast-2024/gateway_base.py:167-177 | the node is told to flash only after one status with the whole checksum and a later one with a positive verdict; the attempt fails here exactly because one of them says otherwise |
| OtaGateway.Gateway.FlashOnce | papers/fuota-unicast-broadcast-2024/gateway_base.py:179-198 | a flash command counts as ignored only when the status behind it has the old version and a valid checksum, and the attempt fails only when the checksum is no longer valid |
| OtaGateway.Gateway.RequestBitmap | papers/fuota-unicast-broadcast-2024/broadcast_unicast/gateway.py:102-111 | from a clean start the list returned contains every chunk the node lacks; unreachable means an unanswered exchange; over an air that loses nothing it is exactly what the node lacks, in ascending order, and none for a node with every chunk held or on its way; the first count is what the result records |
| OtaGateway.Gateway.UnicastOnce | papers/fuota-unicast-broadcast-2024/unicast_only/gateway.py:34-54 | the unicast attempt: done means updated; unreachable means that one exchange went unanswered throughout, or every flash command was ignored; over an air that loses nothing a clean attempt is done, with the reset alone for a node on the new version and N + K + 7 frames otherwise |
| OtaGateway.Gateway.BroadcastUnicastOnce | papers/fuota-unicast-broadcast-2024/broadcast_unicast/gateway.py:126-133 | broadcast with unicast repair: done means updated; clean attempts end done or unreachable, and done over an air that loses nothing |
| OtaGateway.Gateway.BroadcastOnlyOnce | papers/fuota-unicast-broadcast-2024/broadcast_only/gateway.py:30-44 | broadcast repair: done means updated; given up only after an exchange that went unanswered throughout, ignored flash commands, or the repair limit; over an air that loses nothing, with two rounds allowed, a clean attempt is done |
| OtaGateway.Gateway.UpdateNode | papers/fuota-unicast-broadcast-2024/gateway_base.py:138-160 | whatever is stale, a node reported updated runs the new version; a node that is not was abandoned for a stated cause or restarted as often as allowed; a clean start needs no restart; the unicast method never raises |
| OtaGateway.Gateway.RunUnicast | papers/fuota-unicast-broadcast-2024/unicast_only/gateway.py:21-32 | reports are truthful and nothing raises; from silence every node is decided in its first attempt; over an air that loses nothing each is sent exactly that many frames, none again |
| OtaGateway.Gateway.Announce | papers/fuota-unicast-broadcast-2024/broadcast_unicast/gateway.py:58-85 | every node is announced to; the pending ones are distinct and, from silence, ready to collect; all others are decided in their first attempt |
| OtaGateway.Gateway.BroadcastRounds | papers/fuota-unicast-broadcast-2024/broadcast_unicast/gateway.py:87-96 | over any air the fragments broadcast are 0 to N-1 in order, `rounds` times, and none when nobody is pending; over an air that loses nothing every pending node then has every chunk, held or on its way |
| OtaGateway.Gateway.RunBroadcast | papers/fuota-unicast-broadcast-2024/broadcast_unicast/gateway.py:43-56 | the same as for unicast, for both broadcast methods; over an air that loses nothing, with a round allowed, no pending node misses a chunk after the broadcast and the result says so |
| OtaGateway.UpdateEveryNode | papers/fuota-unicast-broadcast-2024/gateway_base.py:86-160 | a whole run from boot, by any method, over any air: nothing raises, each node is decided in its first attempt, and those reported updated run the new version. Over an air that loses nothing all are updated and no frame is sent again: by unicast with N + K + 7 frames, or the reset alone; after a broadcast round with K + 8 frames and no chunk missing |
| OtaCalm.CalmExchange | papers/fuota-unicast-broadcast-2024/gateway_base.py:230-300 | over an air that loses nothing, what the gateway reads first is the node's answer to what it asked |
| OtaCalm.CalmBroadcast | papers/fuota-unicast-broadcast-2024/broadcast_only/gateway.py:30-44 | a broadcast fragment into such an air covers its chunk, and no chunk is uncovered meanwhile |
| OtaLossFree.LossFreeUnicastUpdate | papers/fuota-unicast-broadcast-2024/unicast_only/node.py:26-43 | for the node alone: handed reset, fragments, checksum and flash in order, any safe node ends on the new version, flashed once |
| OtaLossFree.LossFreeRepairRound | papers/fuota-unicast-broadcast-2024/broadcast_only/gateway.py:30-44 | one loss-free repair round completes the node |
| TraceRing.AllocateExactly | examples/native-stm32wl-phy-ping-pong/firmware/stm32_adv_trace.c:703-792 | an allocation succeeds exactly when there is a place for the whole block, at the write pointer or at the start, that touches no waiting byte |
| TraceRing.AllocateLayout | examples/native-stm32wl-phy-ping-pong/firmware/stm32_adv_trace.c:703-792 | an allocated block never wraps, touches no untransmitted byte and queues up behind all of them |
| TraceRing.BeginLayout | examples/native-stm32wl-phy-ping-pong/firmware/stm32_adv_trace.c:537-606 | a transfer covers a non-empty contiguous run of the oldest bytes and moves none |
| TraceRing.CompleteLayout | examples/native-stm32wl-phy-ping-pong/firmware/stm32_adv_trace.c:608-701 | completion retires exactly the bytes the transfer covered |
| TraceRing.EmptyBufferCanRefuse | examples/native-stm32wl-phy-ping-pong/firmware/stm32_adv_trace.c:703-792 | an empty buffer can refuse a block shorter than itself |
| TraceMachine.RunKeepsInv | examples/native-stm32wl-phy-ping-pong/firmware/stm32_adv_trace.c:448-819 | every interleaving of writers and interrupts keeps the invariant of pointers, blocks and locks |
| TraceMachine.AnyInterleavingIsAQueue | examples/native-stm32wl-phy-ping-pong/firmware/stm32_adv_trace.c:448-819 | the bytes on the wire are a prefix of the accepted bytes in order; a transfer shares no byte with a block being filled; the lock counts writers and transfer |
| TraceMachine.RestIsInTheBuffer | examples/native-stm32wl-phy-ping-pong/firmware/stm32_adv_trace.c:537-819 | conservation: at rest, what is not on the wire waits in the buffer, in order |
| TraceMachine.HistoryGrows | examples/native-stm32wl-phy-ping-pong/firmware/stm32_adv_trace.c:448-819 | nothing accepted or sent is taken back |
| TraceMachine.TrySendStarts | examples/native-stm32wl-phy-ping-pong/firmware/stm32_adv_trace.c:537-606 | in every state of the invariant: when nobody holds the lock and accepted bytes wait, the attempt leaves a transfer running with a non-empty next piece of them on the wire; otherwise it changes nothing |
| TraceMachine.CompletionRestarts | examples/native-stm32wl-phy-ping-pong/firmware/stm32_adv_trace.c:608-701 | a completed transfer counts all that was on the wire as done, and starts the next piece exactly when no writer is inside and bytes wait |
| TraceMachine.CompletionsSuffice | examples/native-stm32wl-phy-ping-pong/firmware/stm32_adv_trace.c:608-701 | with a transfer running and nobody inside, completion interrupts alone put every accepted byte on the wire |
| TraceMachine.CompletionsExactly | examples/native-stm32wl-phy-ping-pong/firmware/stm32_adv_trace.c:537-701 | with nobody inside, they do exactly when a transfer is running or nothing waits |
| TraceMachine.ReleaseCanStrand | examples/native-stm32wl-phy-ping-pong/firmware/stm32_adv_trace.c:680-701 | a run after which an accepted byte waits, nobody is inside and no transfer runs: a writer finishes between the callback's decision and its unlock |
| TraceBuffer.Trace.AllocateBuffer | examples/native-stm32wl-phy-ping-pong/firmware/stm32_adv_trace.c:703-792 | the C branches compute the specified allocation |
| TraceBuffer.Trace.TraceSend | examples/native-stm32wl-phy-ping-pong/firmware/stm32_adv_trace.c:537-606 | in place: with the lock free and accepted bytes waiting, a transfer of the next piece is running afterwards; otherwise nothing changes |
| TraceBuffer.Trace.TxCpltCallback | examples/native-stm32wl-phy-ping-pong/firmware/stm32_adv_trace.c:608-701 | in place: what was on the wire is done; the next piece is started exactly when no writer is inside and accepted bytes wait |
| TraceBuffer.Trace.Send | examples/native-stm32wl-phy-ping-pong/firmware/stm32_adv_trace.c:448-476 | with others interleaving at every point: accepted means that the call added exactly the message to the stream, in one piece; refused means that it added and wrote nothing, and that at some moment of the call there was no room; when an accepted call returns, a transfer is running or all is on the wire, unless another writer or the callback is in its way |
| WakeUpQueue.Queue.Add | simulator/wakeup_queue.py:15-42 | the queue stays strictly ordered; the tick's list grows at its end, nothing else changes |
| WakeUpQueue.Queue.Remove | simulator/wakeup_queue.py:45-67 | deletes every instance and reports the exact count |
| WakeUpQueue.Queue.NextTick | simulator/wakeup_queue.py:84-94 | takes all events of the earliest tick in insertion order |
| WakeUpQueue.Queue.PeekTick | simulator/wakeup_queue.py:70-81 | the tick that no registered event precedes |
| WakeUpQueue.AddedEvents | simulator/wakeup_queue.py:15-42 | adding changes one tick's list and no other |
| WakeUpQueue.RemovedEvents | simulator/wakeup_queue.py:45-67 | removal filters every tick's list and keeps its order |
| Kernel.RunKeepsInv | simulator/environment.py:106-432 | every interleaving of sleeps, shared events, cancellations (before or after the event fired), child starts, ends and ticks keeps the kernel's invariant |
| Kernel.LocksCountRunnableTasks | simulator/environment.py:79-129 | in every reachable state the lock counter is the number of runnable tasks exactly when no tick so far set an event twice, and never less; every waiting task has a registration at or after now |
| Kernel.ClockMovesOnlyWhenIdle | simulator/environment.py:106-131 | the clock never goes back, and advances only when no task is runnable |
| Kernel.WakeUpsAreOnTime | simulator/environment.py:106-131 | a tick wakes each blocked task registered for it and never passes one |
| Kernel.IdleTurn | simulator/environment.py:106-129 | a turn of the timer loop that finds no lock held moves the clock to the earliest registered tick, wakes everybody registered there, takes one lock for each of its events and leaves the rest; with nothing registered the run ends |
| Kernel.SleeperIsWoken | simulator/environment.py:106-142 | a task that sleeps until tick k is woken at k, after at most one turn for each tick until then, as long as the other tasks wait in every turn and register for later ticks only |
| Kernel.CancelTakesOneLock | simulator/environment.py:340-382 | a cancelled `sleep_until` ends with one lock, whether its event fired before the cancellation, between it and its handler, or not at all; no registration stays |
| Kernel.CancelAfterFiring | simulator/environment.py:366-382 | fired first, then cancelled: nothing is left to remove, and the lock the tick took is the one the task keeps |
| Kernel.ChildStarts | simulator/environment.py:206-243 | whatever the others do, from `start_child_task` until the child takes its lock the parent waits and time stands still; then both run, each with a lock |
| Kernel.StepKeepsInv | simulator/environment.py:106-432 | each step keeps the invariant, and the count of locks stays right exactly when the step is no tick that sets an event twice |
| Kernel.SurplusExactly | simulator/environment.py:118-129 | the same over a run: the count is right at its end exactly when no tick of it set an event twice |
| Kernel.FreshSchedulingCounts | simulator/environment.py:384-402 | a condition tested before each call: as long as nobody schedules an event for a tick it is listed for already, the lock counter is the number of runnable tasks over the whole run |
| Kernel.SurplusStopsTime | simulator/environment.py:118-129 | once a tick has counted an event twice, over every later run the surplus stays and time stands still |
| Kernel.DoubleRegistrationStops | simulator/environment.py:118-129 | such a tick can be reached from the start, and after it the clock never moves again, whatever happens |
| Environment.SimulationEnvironment.Sleep | simulator/environment.py:310-338 | the wake-up is registered at the capped tick, for the sleeping task alone and without a handler for cancellation; its event is in the list of that tick |
| Environment.SimulationEnvironment.SleepUntil | simulator/environment.py:340-382 | refuses exactly the past; otherwise the event is in the list of the capped tick |
| Environment.SimulationEnvironment.ScheduleEventWait | simulator/environment.py:404-432 | a new event is registered, never for the current tick, and the task waits for it; refuses exactly the past |
| Environment.SimulationEnvironment.ScheduleEventNoAwait | simulator/environment.py:384-402 | an event that others wait for, or were just woken by, is registered once more, whatever it is registered for already; refuses exactly the past |
| Environment.SimulationEnvironment.Perform | simulator/environment.py:206-432 | each in-place update is the specified step |
| Environment.SimulationEnvironment.Advance | simulator/environment.py:118-129 | the loop that sets events and takes locks is one tick of the machine |
| Environment.SimulationEnvironment.RunSimulation | simulator/environment.py:106-142 | the run is the sequence of its turns: what the tasks did, and at each turn without a lock one move of the clock to the earliest registered tick, or to the end when nothing is registered; it ends at the end or after the turns allowed; the invariant holds |
| LorawanCrypto.EncryptFrmPayload | simulator/lorawan/crypto.py:85-126 | byte j on the air is the exclusive or of the payload's byte and byte j % 16 of AES over the block written out: 0x01, zeros, direction, address, counter, block number j / 16 + 1; applying it again decrypts |
| LorawanCrypto.CryptTwice | simulator/lorawan/crypto.py:85-126 | encryption is its own inverse for every payload |
| LorawanCrypto.DataMicIs | simulator/lorawan/crypto.py:36-64 | the MIC is the first four bytes of the CMAC over the block B_0 written out, with the whole counter, and the message |
| LorawanCrypto.SessionKeysAre | simulator/lorawan/crypto.py:164-189 | both session keys are AES over their blocks written out, 0x01 for the network and 0x02 for the application |
| Bytes.XorOfEachBit | simulator/lorawan/crypto.py:125-126 | what exclusive or means here: on every one of the eight bits |
| LorawanCrypto.DecryptJoinAccept | simulator/lorawan/crypto.py:150-161 | the block loop applies AES encryption to each block, which undoes the join-accept encryption, given that AES decrypt inverts encrypt |
| LorawanFrames.DataFrameOnAir | simulator/lorawan/frame.py:78-254 | decoding an encoded data frame gives exactly what survives the air |
| LorawanFrames.DataFrameRoundTrip | simulator/lorawan/frame.py:78-254 | a frame comes back unchanged exactly when its counter fits 16 bits, its FOpts length is right and no downlink sets ADRACKReq |
| LorawanFrames.JoinRequestRoundTrip | simulator/lorawan/frame.py:137-159 | join request payloads round trip |
| LorawanFrames.JoinAcceptRoundTrip | simulator/lorawan/frame.py:162-209 | join accept payloads round trip |
| LorawanFrames.DataFrameBytes | simulator/lorawan/frame.py:7-254 | a data frame byte by byte: type, address, flags, low half of the counter, FOpts, port, payload, MIC |
| LorawanFrames.JoinRequestBytes | simulator/lorawan/frame.py:137-159 | a join request payload byte by byte |
| LorawanFrames.JoinAcceptBytes | simulator/lorawan/frame.py:162-209 | a join accept payload byte by byte |
| LorawanLink.VerifiesUnderShortCounter | simulator/lorawan/crypto.py:36-64 | a sealed frame passes the receiver's test exactly when the MIC under the low 16 bits equals the MIC under the whole counter |
| LorawanLink.VerifiesExactlyBelow | simulator/lorawan/frame.py:87-94 | unless its MIC happens to be that of the shortened counter too, a sealed frame verifies exactly when its counter is below 2^16 |
| LorawanLink.LongCountersAreRefused | simulator/lorawan/frame.py:87-94 | an input where the genuine frame 65536 is refused |
| LorawanLink.OpensToWhatWasSealed | simulator/lorawan/device.py:846-939 | below 2^16, a sealed frame is taken exactly when its counter is in the window and not yet passed, and opens to what was sealed |
| LorawanLink.NothingTakenTwice | simulator/lorawan/device.py:102-114 | whatever arrives, counters taken ascend strictly and stay in the window |
| LorawanLink.DeliveredIsASubsequence | simulator/lorawan/device.py:846-939 | under loss, duplication, reordering and foreign frames, what the applications get is a subsequence of what was sent |
| LorawanLink.NothingIsLostInOrder | simulator/lorawan/device.py:846-939 | the other half: over a channel that keeps order and frames, everything arrives |
| LorawanLink.SealedBytes | simulator/lorawan/frame.py:212-243 | a sealed frame as anybody sees it: header and port in clear, behind them the payload encrypted under the application key |
| LorawanLink.SealedMic | simulator/lorawan/crypto.py:36-64 | and at its end four bytes of the CMAC under the network key over B_0 and all that comes before |
| LorawanLink.OpenedUnder | simulator/lorawan/device.py:905-939 | a frame is read with the network key on port 0 and the application key on every other, and its header as it is |
| LorawanLink.TakenIsGenuine | simulator/lorawan/device.py:860-905 | nothing is taken whose last four bytes are not the MIC under the network key |
| LorawanUplink.EachDeviceIsOnItsOwn | simulator/lorawan/network_server.py:552-623 | the server takes from each device what a receiver for that device alone would take |
| LorawanUplink.TransmittedExactly | simulator/lorawan/device.py:442-520 | a device transmits exactly for a port from 1 to 223, a counter of 32 bits and a payload that its data rate carries beside the MAC answers; the counter moves then and only then |
| LorawanUplink.UplinkBytes | simulator/lorawan/device.py:442-520 | what it transmits: the confirmed or unconfirmed type, its address, the Class B flag, the counter, the MAC answers, the port and the encrypted payload |
| LorawanUplink.UplinksEndToEnd | simulator/lorawan/device.py:442-517 | what the server hands on from one device is a subsequence of what that device was asked to send |
| EndDevice.Device.SendUplink | simulator/lorawan/device.py:442-520 | the frame built in place is the sealed message; the counter moves only for a frame sent |
| EndDevice.NewGroupsAgree | simulator/lorawan/device.py:92-114 | a group created on the server and joined with the same window on the device fit: over a channel that keeps every frame in order the device gets everything the server builds, from the first counter on |
| EndDevice.DownlinkOpens | simulator/lorawan/device.py:846-939 | a downlink sealed for the device, with a counter below 2^16, passes its test and opens to what was sealed |
| EndDevice.Device.ProcessDownlink | simulator/lorawan/device.py:846-939 | for a group's frame the device is exactly the receiver of the end-to-end result, and other groups do not move; a frame to its own address is taken exactly when its MIC is right, read with the key of its port, and moves the counter |
| LorawanJoin.FreshRequestIsGranted | simulator/lorawan/join.py:58-131 | a known device's request is granted exactly when its nonce is fresh |
| LorawanJoin.AcceptIsRead | simulator/lorawan/join.py:134-228 | the device reads from the accept the address and nonce put there |
| LorawanJoin.AnyAcceptIsRead | simulator/lorawan/join.py:134-228 | any accept in range, with or without a channel list, is read as it was written: the settings byte is split into both its fields and the delay is at least a second |
| LorawanJoin.RequestBytes | simulator/lorawan/join.py:58-76 | a join request byte by byte, with four bytes of the CMAC |
| LorawanJoin.AcceptBytes | simulator/lorawan/join.py:134-164 | a join accept: what AES encryption makes of it is the payload byte by byte and its MIC |
| LorawanJoin.GrantedIsGenuine | simulator/lorawan/join.py:79-131 | a request is granted only with the right MIC under the key of the device it names |
| LorawanJoin.JoinedIsGenuine | simulator/lorawan/join.py:167-228 | an accept is taken only when what it decrypts to ends with its own MIC |
| LorawanJoin.JoinAgrees | simulator/lorawan/network_server.py:505-549 | after a matched request and accept, device and server have the same address and both session keys |
| LorawanJoin.GrantsAreDistinct | simulator/lorawan/join.py:122-131 | over any run no (device, nonce) pair is granted twice, and neither an address nor a nonce of the server's is given twice |
| MacCommands.CommandRoundTrip | simulator/lorawan/mac_commands.py:41-372 | a command comes back as sent exactly when its fields are in range |
| MacCommands.RequestBytes | simulator/lorawan/mac_commands.py:41-372 | every request in range byte by byte |
| MacCommands.AnswerBytes | simulator/lorawan/mac_commands.py:41-372 | every answer in range byte by byte |
| MacCommands.StreamRoundTrip | simulator/lorawan/mac_commands.py:417-518 | parsing an encoded list gives the list, in both directions of the link |
| MacCommands.TruncatedStream | simulator/lorawan/mac_commands.py:417-518 | a stream cut at any byte parses to the longest prefix of whole commands |
| MacCommands.WholeCommandsIsLongest | simulator/lorawan/device.py:1026-1039 | that prefix is the longest one that fits |
| MacCommands.ParseCommands | simulator/lorawan/mac_commands.py:417-510 | both parser loops compute the specified list |
| MacCommands.EncodeMacCommands | simulator/lorawan/mac_commands.py:513-518 | the encoder loop concatenates the commands |
| MacCommands.AnswersPairUp | simulator/lorawan/device.py:951-1024 | one answer per request, in order, with its identifier, always encodable |
| MacCommands.AdrAnswerIsTrue | simulator/lorawan/device.py:951-985 | the answer to a LinkADRReq tells the truth: data rates 0 to 5 and powers 0 to 14 are set and acknowledged, 15 keeps what is set, anything else is refused and changes nothing |
| MacCommands.OtherAnswers | simulator/lorawan/device.py:951-1024 | what each other request is answered, and that only a new delay is set |
| MacCommands.InOrder | simulator/lorawan/device.py:951-1024 | later requests see what earlier ones have set, and the answers come in order |
| MacCommands.MacHandler.HandleMacCommands | simulator/lorawan/device.py:951-1024 | the loop queues those answers and applies the settings in order |
| MacCommands.MacHandler.DrainMacAnswers | simulator/lorawan/device.py:1026-1039 | the first 15 bytes of the encoded answers, of which the server will read the longest prefix of whole ones; the rest is gone |
| MacCommands.AnswersCanBeCut | simulator/lorawan/device.py:1026-1039 | six short requests ask for more answers than fit |
| MulticastQueue.SortedIsUnique | simulator/lorawan/network_server.py:116-117 | the sort key leaves only one sorted order |
| MulticastQueue.PopSplits | simulator/lorawan/network_server.py:336-355 | popping splits the queue into due and remaining entries, both in order, nothing lost or doubled |
| MulticastQueue.DueWhenNextIsPast | simulator/lorawan/network_server.py:323-355 | the next due time has come exactly when popping returns something |
| MulticastQueue.TakingIsFromTheFront | simulator/lorawan/network_server.py:472-482 | the entry taken for a slot is the group's first; no other group's entries move |
| MulticastQueue.ServedStops | simulator/lorawan/network_server.py:455-458 | how many entries a period takes: one per slot until one is not due |
| MulticastQueue.BuildRunSeals | simulator/lorawan/network_server.py:227-287 | built frames have consecutive counters; refused requests use none |
| MulticastQueue.BuiltExactly | simulator/lorawan/network_server.py:227-287 | a frame is built exactly for a payload of at most 51, 115 or 222 bytes, by data rate, and a counter within the group's window and 32 bits |
| MulticastQueue.LongestPayload | simulator/lorawan/region.py:58-72 | the longest payload at each data rate beside FOpts; none for an unknown rate or more than 15 bytes of FOpts |
| MulticastQueue.PeriodIsABuildRun | simulator/lorawan/network_server.py:455-470 | the frames of a period are those of building its entries in order |
| MulticastQueue.MulticastEndToEnd | simulator/lorawan/network_server.py:227-287 | what a device's applications get is a subsequence of the payloads the server was asked to send to the group |
| MulticastQueue.MulticastAllArrives | simulator/lorawan/network_server.py:227-287 | the other half: over a channel that keeps order and frames, every payload built arrives |
| NetworkServer.Server.BuildMulticastDownlink | simulator/lorawan/network_server.py:227-287 | the steps in place give the sealed message or the right refusal |
| NetworkServer.Server.ScheduleMulticastDownlink | simulator/lorawan/network_server.py:291-321 | the queue stays sorted and gains exactly the entry |
| NetworkServer.Server.NextMulticastDownlinkTime | simulator/lorawan/network_server.py:323-334 | due exactly when popping would return something |
| NetworkServer.Server.PopDueMulticastDownlinks | simulator/lorawan/network_server.py:336-355 | removes exactly the due entries |
| NetworkServer.Server.TakeMulticastFor | simulator/lorawan/network_server.py:472-482 | the group's first entry if it is due by the slot, else nothing |
| NetworkServer.Server.ServeGroup | simulator/lorawan/network_server.py:441-470 | takes a prefix of the group's entries, one per slot, oversized ones dropped, counters consecutive in slot order; it raises exactly when the counter has run out at an entry that is due, and then that entry is gone and the frames before it are counted |
| NetworkServer.Server.ClassBMulticastSchedule | simulator/lorawan/network_server.py:434-470 | does that for every Class B group and touches no other; it raises exactly when one of them cannot afford its period |
| NetworkServer.EveryTransmissionHasItsSlot | simulator/lorawan/device.py:1401-1448 | every frame of a period is assigned, in ascending order, a slot on the device's list for that session, clear of both beacons |
| NetworkServer.Server.HandleJoinRequest | simulator/lorawan/network_server.py:505-549 | in place, the specified join step, with the failure when a counter has outgrown its field; the device is registered with the granted keys |
| NetworkServer.Server.HandleDataUplink | simulator/lorawan/network_server.py:552-623 | in place, the specified uplink step |
| PingSlots.ComputePingSlotTimes | simulator/lorawan/beacon.py:59-83 | the loop lists the slots in ascending order |
| PingSlots.SlotTimesAre | simulator/lorawan/beacon.py:38-83 | the time of slot i written out: 2120 ms after the beacon, and 30 ms for each place of the offset that AES gives and of the i periods before |
| PingSlots.WindowsAvoidTheBeacons | simulator/lorawan/beacon.py:59-83 | every window lies between the beacon's reserved time and the guard before the next |
| PingSlots.CollectedKeepsEveryTime | simulator/lorawan/device.py:1401-1448 | the merged list has exactly the union of the slot times, each once, multicast winning ties |
| PingSlots.ServerTimesAreOpened | simulator/lorawan/device.py:1401-1448 | with one running session, every slot time the server computes for its group is opened for that session |
| PingSlots.OpenedTimesAreAsked | simulator/lorawan/device.py:1401-1448 | nothing else is opened |
| PingSlots.CollectPingSlots | simulator/lorawan/device.py:1401-1448 | collecting, sorting and merging in loops gives that list |
| PingSlots.OpenPingSlots | simulator/lorawan/device.py:1450-1475 | the loop opens a slot exactly when its time is still to come after the windows opened before it; it ends at a stop or the guard |
| PingSlots.AllOpenedExactly | simulator/lorawan/device.py:1458-1461 | while the windows stay empty, all slots of the list are opened exactly when the loop starts before the first and no two slots are neighbours |
| PingSlots.EmptyWindowsLast | simulator/lorawan/device.py:553-611 | a window in which nothing is heard, woken early or late, lasts until its neighbour's time at least and for less than two slots |
| PingSlots.EmptySlotsExactly | simulator/lorawan/device.py:1450-1475 | while the windows stay empty, a slot is opened exactly when an even number of slots lies on the places directly before it |
| PingSlots.TrailingGroupIsMissed | simulator/lorawan/device.py:1450-1475 | a group whose offset is the place after the device's own: none of its slots is opened while the windows stay empty |
| PingSlots.TrailingGroupExample | simulator/lorawan/device.py:1450-1475 | an input, with its windows: all sixteen slots of the group are on the list and none is opened |
| PingSlots.LoneSessionIsOpened | simulator/lorawan/device.py:1450-1475 | one session with at most 2048 slots and no own address: every slot is opened while the windows stay empty |
| PingSlots.GuardNeverEnds | simulator/lorawan/device.py:1454-1459 | the guard test never ends the loop for slots the device collected |
| SlotLoops.ReachedExactly | simulator/lorawan/device.py:1450-1475 | one slot at a time, whatever is heard: it is opened exactly when the loop starts, and every window opened before it ends, before its time |
| SlotLoops.NeighbourPassedOver | simulator/lorawan/device.py:1460-1461 | a slot that comes at most one slot length after one whose window lasts the slot is passed over |
| ClassB.SendClassBDownlinks | simulator/lorawan/gateway.py:500-527 | the gateway's loop sends a frame exactly when it comes to its slot in time and the slot is clear of the guard |
| ClassB.FrameIsSentExactly | simulator/lorawan/gateway.py:500-527 | a group's frame is sent into its slot exactly when the loop starts, and every frame sent before is over, before the slot; the guard never stops it |
| ClassB.SharedSlotLosesOne | simulator/lorawan/gateway.py:509-513 | of two frames assigned the same slot at most one is sent |
| ClassB.EveryTransmissionIsMet | simulator/lorawan/device.py:1450-1475 | the device's side of one frame: its slot is listed for the session, and opened exactly when the device is there in time |
| ClassB.MetAfterEmptyWindows | simulator/lorawan/device.py:1450-1475 | after empty windows a frame is met exactly when an even number of slots lies directly before its own |
| ClassB.TrailingGroupIsNeverMet | simulator/lorawan/device.py:1450-1475 | no frame of a group that trails the device's own slots is met while the windows stay empty |
| ClassB.LoneGroupIsMet | simulator/lorawan/device.py:1450-1475 | on a device that listens to one group only, every frame that finds the windows before it empty is met |
| RxChain.NewcomerOrEarlier | simulator/lora/radio.py:587-631 | on a chain that hears a new packet, it and an earlier one are never both unspoilt |
| RxChain.RunKeepsInv | simulator/lora/radio.py:523-693 | starts, ends, retunes, chain switches and state changes keep the chains' invariant |
| RxChain.DeliveredNeverOverlapped | simulator/lora/radio.py:653-693 | no two packets delivered by one chain were ever in transit on it together |
| RxChain.OverlapLosesOne | simulator/lora/radio.py:587-693 | two packets in transit on a chain at some moment are never both delivered by it later |
| RxChain.LonePacket | simulator/lora/radio.py:696-777 | a packet alone on a radio is delivered exactly when the chain is tuned to it, the radio listens and the signal is strong enough |
| RxChain.MatchesExactly | simulator/lora/radio.py:696-777 | a chain is tuned to a packet exactly when every parameter agrees; the length counts in the fixed length mode only |
| RxChain.CapturedExactly | simulator/lora/radio.py:780-858 | over any run of newcomers: a packet on a tuned, listening chain is delivered exactly when it is strong enough, nothing in its band was in transit when it started, and it stays more than 6 dB ahead of every newcomer in its band of the same SF, and more than its own SF's minimum SNR ahead of one of another SF |
| RxChain.NewcomerIsLost | simulator/lora/radio.py:780-858 | a packet that starts while another one is in transit in its band is never delivered, however strong it is |
| RxChain.LetGoIsLost | simulator/lora/radio.py:474-537 | over every later run: nothing in transit on a chain when it is retuned or switched off, or when the radio transmits, is ever delivered by it |
| RxChain.SettingsDecide | simulator/lora/radio.py:696-777 | what a chain without other traffic makes of a packet is decided by the last setting of its configuration, its switch and the radio's state |
| RxChain.Radio.OnReceiveStart | simulator/lora/radio.py:587-631 | the nested loops update every chain as specified, and chains stay tuned to all they may deliver; who survives is CapturedExactly |
| RxChain.Radio.MarkCollisions | simulator/lora/radio.py:614-621 | the inner loop marks exactly the losers, in any order |
| RxChain.Radio.OnReceiveEnd | simulator/lora/radio.py:653-693 | the packet leaves every chain; the first chain that has it whole, and no other, delivers it, and a one-shot radio then turns off; chains stay tuned to all they may still deliver |
| RxChain.Radio.SetChainConfig | simulator/lora/radio.py:523-537 | after a retune no packet in transit on the chain can be delivered, the other chains are as before, and every chain is tuned to all it may deliver |
| RxChain.Radio.EnableRxChain | simulator/lora/gateway_radio.py:100-115 | after a chain is switched off no packet in transit on it can be delivered; the other chains are as before |
| RxChain.Radio.BeginTransmit | simulator/lora/radio.py:474-496 | transmitting interrupts what is being received |
| SfSchedule.RunSchedule | papers/fuota-sequential-sf-2025/gateway.py:70-76 | the gateway's loop sends frame n at the sum of the periods before it, with the SF of frame n, exactly until the session is done or its duration is over |
| SfSchedule.RoundSwitches | papers/fuota-sequential-sf-2025/session.py:39-53 | the recipients' list of switches by whole rounds |
| SfSchedule.SumsAgree | papers/fuota-sequential-sf-2025/session.py:39-53 | both sums agree at every change of round |
| SfSchedule.EachSfItsRound | papers/fuota-sequential-sf-2025/session.py:32-37 | each SF but the last is used for exactly the frames of its round |
| SfSchedule.FixedSfIsEven | papers/fuota-sequential-sf-2025/session.py:32-37 | with one fixed SF no other is used and the frames are evenly spaced |
| SfSchedule.ScheduleUsesDuty | papers/fuota-sequential-sf-2025/scenario.py:183-186 | between the start and frame n the air is taken for exactly the duty percentage of the time |
| SfSchedule.FrameInItsRound | papers/fuota-sequential-sf-2025/session.py:32-53 | every frame starts in the interval the switch list assigns to its SF |
| SfSchedule.FrameIsHeardWhole | papers/fuota-sequential-sf-2025/recipient.py:103-114 | with a pacing gap of at least the guard a recipient is on the frame's SF from start to end |
| SfSchedule.RoundEndsBeforeRetune | papers/fuota-sequential-sf-2025/recipient.py:103-114 | all frames of a round end before the next retune exactly when the gap is at least the guard |
| SfSchedule.FullDutyCutsAFrame | papers/fuota-sequential-sf-2025/recipient.py:27-29 | an input where the last frame of a round is cut |
| SfSchedule.FollowSchedule | papers/fuota-sequential-sf-2025/recipient.py:103-114 | the recipient's loop tunes as specified until its session is done, and then stays on the SF of the last retune |
| DutyCycle.DutyCycleHolds | simulator/lorawan/gateway.py:32-64 | the gated airtime from frame i up to frame j is at most the duty fraction of the time between their starts |
| DutyCycle.WithinDutyExactly | simulator/lorawan/gateway.py:32-64 | for all frames the bound holds exactly when each frame waited out the quiet time before it |
| DutyCycle.OnlyGatedIsWithin | papers/fuota-unicast-broadcast-2024/scenario.py:193-209 | a device that sends gated frames only keeps the bound |
| DutyCycle.ReplyInQuietTime | simulator/lorawan/gateway.py:168-191 | a run with one reply in the quiet time that breaks the bound for all frames |
| DutyCycle.Transmitter.TransmitGated | papers/fuota-unicast-broadcast-2024/scenario.py:193-209 | waiting, reserving and sending keep the log paced; such a frame never loses the bound for all frames |
| DutyCycle.Transmitter.TransmitUngated | simulator/lorawan/gateway.py:168-191 | a reply is sent at once and charged; the bound for all frames survives it exactly when the quiet time was over |
| DutyCycle.Transmitter.Reserve | papers/fuota-unicast-broadcast-2024/scenario.py:147-159 | the quiet time never shrinks and covers the frame |

## Left out

- Bodies of AES, CMAC and SHA-256: parameters; nothing is claimed about forgery or collisions.
- Receive windows, timeouts and pacing of the OTA exchange in seconds: the air may deliver or lose at any time instead. Result fields that hold times are left out.
- MiWi address filtering at the radio: each node has its own pair of queues.
- The 2024 exceptions that end a run: `UpdateNode` returns `raised`, which covers a bitmap the gateway cannot index; amid stale traffic no more is claimed than that the unicast method never raises.
- OtaGateway.Gateway.RunUnicast: over a lossy air reachability is not claimed; a node is updated, or given up on after an exchange that went unanswered throughout or the allowed number of ignored flash commands.
- TraceBuffer.Trace.Send: requires fewer than 65535 locks held, so the 16-bit wrap of the lock counter is not modelled; a failed allocation returns without restarting the transfer, so after one the buffer drains only under the condition of CompletionsExactly.
- printf formatting, verbosity, overrun and timestamp callbacks of the trace utility.
- Environment.SimulationEnvironment.RunSimulation: counts turns of its loop, and the teardown at the end of a run (waking sleepers, cancelling tasks) is not modelled.
- Kernel tasks that register an event of their own wait for it next; an event is scheduled again only once its task has registered it, while that task waits for it or has just been woken by it, which is how queues and radios use `schedule_event_no_await`. `wait_with_duration`, which waits for work outside the simulation, is left out.
- Environment.SimulationEnvironment.Sleep: cancelling a plain `sleep`, or a wait for a shared event, is not modelled; the source has no handler there, so the registration stays and the task's lock is lost. Cancelling a `sleep_until` before it waits is not modelled either.
- Rounding of times to ticks and floating point: exact numbers.
- Replay of unicast downlinks: the device does not refuse it, so nothing is claimed; what ProcessDownlink does is stated.
- LorawanCrypto.EncryptFrmPayload: requires at most 255 blocks, the range of the one-byte block number.
- NetworkServer.Server.EnableMulticastClassB: requires 1 to 4096 ping slots, outside of which the source divides by zero.
- NetworkServer.Server.ClassBMulticastSchedule: when a group's counter has run out the source raises out of the schedule; when that happens is stated, and what it leaves of that group, but not of the groups after it. Unicast Class B downlinks, which poll applications, are left out.
- Application routing, acknowledgements, ADR beyond its answers, and `_build_downlink`'s round robin.
- Several overlapping or replaced multicast sessions on a device: ServerTimesAreOpened is about one running session. When a ping-slot window ends is arbitrary, or that of a window in which nothing is heard; a frame heard across the end of a window is one of the arbitrary ends. A device that has not finished the beacon in time starts its loop late, and so does the gateway: both starts are arbitrary.
- Preamble detection, logging and the one-shot receive timeout of a radio.
- RxChain.Radio.OnReceiveEnd: visits all chains at one instant, where the source may yield at the delivery; in the runs of RunKeepsInv a packet ends chain by chain with anything in between.
- The detailed capture effect, which draws random numbers: RxChain is about the setting with it switched off.
- Path loss, fading, interference models and the analytical model of the 2025 paper.
- SfSchedule.RunSchedule: looks at a bounded number of turns; `done` is an arbitrary function of the frame number.
- Group-based schemes of the 2025 paper, the coding layer, and all bookkeeping of results and energy.
- DutyCycle.Transmitter.TransmitGated: reserves when the transmission starts; a multicast frame with a data rate or frequency of its own is reserved before the gateway takes the transmitter (`simulator/lorawan/gateway.py:222-225`), so its quiet time may begin before the frame does.
- A duty-cycle limiter shared by several devices: two waiters may wake in the same tick, so the bound is per transmitter.
