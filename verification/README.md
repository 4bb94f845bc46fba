# Verified model of the network programs

This project models two C programs and proves properties of the models.

The first is the `tcp/` simulator: hosts exchange messages over a selective-repeat sliding-window protocol with 8-bit
sequence numbers, cumulative acknowledgements, CRC-8 protected 64-byte frames, fragmentation and reassembly,
per-destination congestion control, and a rate-limited switch that queues, corrupts and drops. The second is the
`router/`: its ARP cache shared by two threads, its streaming SHA-1, and its Internet checksum.

The central results about the simulator hold for every run, whatever the clock, the random numbers, the garbage in
uninitialised memory, the losses and the corruption:

* what a host prints from another host is at every moment a prefix of what that host was told to send, in order,
  without duplicates or altered bytes, exactly as long as nothing has been printed in the place of a message that does
  not fit the 16-bit length field (every message of at most 65590 characters fits); up to that place it is right even
  then;
* when the program stops, everything has been printed, and everything has been in order all along, if and only if every
  message fits; otherwise more texts have been printed than messages were commanded;
* every 8-bit comparison gives the answer unbounded sequence numbers would give;
* if the oldest unacknowledged frame gets through and so does the ACK it causes, the sender moves on, whatever else is
  lost; a host that waits always has a timer that wakes it, and from the turn in which that timer has run out to the
  next one the sender moves on if nothing of the flow is lost or held up;
* what every ACK of every run does to the congestion window is known exactly: from the start the window is one frame
  plus one for each ACK read, until it passes the configured window or a timer runs out; in congestion avoidance the
  third repetition of an ACK, and no earlier one, sends the oldest frame again;
* no timer a host starts runs for less than 100 ms, and without an ACK no frame goes out again before a timer is due.

About the router: the streaming SHA-1 computes the digest of RFC 3174 for every message and every way of cutting it up,
which is the same in 32-bit machine arithmetic as on bit strings and is the published one for "abc"; in every
interleaving of the two threads the ARP cache loses no packet, uses every announced address at once for 15 seconds, and
asks for a silent one until it gives up and answers every packet; the checksum accepts exactly what it should, for
every length.

`dafny verify dfyconfig.toml` checks the whole project.

## How the project is built

| files | what they hold |
|---|---|
| `Common`, `SeqNum`, `Crc8`, `CrcPolynomial`, `Frames` | bytes, sequence numbers, CRC-8, the wire image of a frame |
| `HostModel`, `Network` | what a host computes, as functions on values; the simulator as an event machine |
| `Messages`, `Congestion`, `Flow` | streams of messages, congestion control, one direction of traffic with unbounded numbers |
| `SenderPasses`, `SendingTurn`, `TurnStep`, `ReceiveStep`, `Preservation`, `Invariant` | the invariant and why every event keeps it |
| `Delivery`, `Progress`, `RoundTrips`, `LosslessRounds`, `FlowViews`, `SwitchOrder` | what the invariant means for every run |
| `AckLaws`, `TurnLaws`, `CongestionRuns` | what ACKs, timeouts and sending do to the congestion state and the timers, for one ACK, one turn and every run |
| `CircularQueues`, `HostSteps`, `Hosts` | a host with its arrays and fields changed in place, proved against `HostModel` |
| `Ports`, `SimulatorEvents`, `Simulator` | hosts, switch and main loop; every method extends a record that is a run of the event machine |
| `LinkedList`, `SendLoop` | the circular doubly linked lists on the heap, and the send loop that walks one |
| `Sha1Spec`, `Sha1` | SHA-1 on bit strings as in RFC 3174, and the streaming context proved against it |
| `Sha1Words`, `Sha1Example` | the same digest in 32-bit machine arithmetic, and the published digest of "abc" |
| `Cksum` | the Internet checksum |
| `ArpModel`, `ArpLaws`, `ArpCache` | the ARP cache and its two threads, as values, what they achieve, and in place |

The classes `Hosts.Host` and `Simulator.Simulator` do what the C functions do, step by step; their postconditions
equate the new state with a function of the old one, and `Simulator` keeps a ghost record of events. The theorems are
proved about all runs of the event machine, so they hold of every execution of the classes.

## Model

| member | source | states |
|---|---|---|
| SeqNum.DiffExact | tcp/src/util.c:167-176 | the 8-bit difference equals the difference of the unbounded numbers exactly for distances up to 127, and for 128 on one side of each wrap |
| Crc8.ComputeCrc8 | tcp/src/util.c:198-215 | the bit-serial loop over 64 bytes leaves the shift register fed with all their bits |
| CrcPolynomial.CrcIsTheRemainder | tcp/src/util.c:198-215 | the result is the one remainder of the bit string modulo x^8 + x^2 + x + 1 over GF(2), and nothing else is |
| Crc8.FeedLinear | tcp/src/util.c:203-212 | feeding the bitwise sum of two strings gives the sum of the remainders |
| Crc8.BurstDetected | tcp/src/util.c:198-233 | two strings that differ only within eight consecutive bits have different remainders |
| Crc8.OneByteErrorDetected | tcp/src/util.c:198-233 | changing one byte of a buffer to any other value changes the remainder |
| Crc8.OddErrorDetected | tcp/src/util.c:198-233 | an odd number of flipped bits changes the remainder |
| Frames.EncodeDecode | tcp/src/util.c:141-165 | 64 bytes copied into a frame and back are the same bytes |
| Frames.DecodeEncode | tcp/src/util.c:141-165 | a frame copied to bytes and back is the same frame |
| Frames.WireLayout | tcp/src/common.h:100-118 | every field of the packed struct stands at its own offset of the 64 bytes, the 16-bit one little-endian |
| Frames.ValidIffChecksumSet | tcp/src/util.c:217-233 | a frame passes frame_valid if and only if its checksum is the one set_checksum computes |
| Frames.SetChecksumValid | tcp/src/util.c:217-233 | set_checksum makes any frame valid |
| Frames.CorruptIs | tcp/src/switch.c:92-97 | corruption changes exactly the chosen byte, in all eight bits |
| Frames.CorruptionDetected | tcp/src/switch.c:92-97 | every corruption send_frame can inject into a valid frame makes it invalid |
| Congestion.AckKeepsCc | tcp/src/sender.c:79-121 | counting an ACK and reacting to it keep cwnd at least 1, ssthresh at least 1/2, and the bounds of the three states |
| Congestion.TimeoutKeepsCc | tcp/src/sender.c:199-223 | so does a timeout |
| Congestion.BudgetPositive | tcp/src/sender.c:233-237 | the number of frames allowed per round is never zero |
| Messages.FragmentCarries | tcp/src/sender.c:163-192 | each frame built carries exactly its piece of the stored message, with its length and what remains after it modulo 65536 |
| Messages.RoundTrip | tcp/src/receiver.c:8-39 | fragmenting a message and reassembling it gives it back, leaving nothing, if and only if no fragment but the last leaves a multiple of 65536 bytes; otherwise at least two texts come out |
| Messages.ShortFits | tcp/src/sender.c:163-177 | every message of at most 65590 characters meets that condition |
| Messages.LongMessageTruncated | tcp/src/common.h:109 | a concrete message of 65591 characters that does not meet it: what comes out begins with its first 56 characters as a text of their own, and has at least two texts |
| Messages.DrainAppend | tcp/src/receiver.c:97-105 | reassembling after every frame gives the same messages and the same rest as reassembling once at the end |
| Messages.DrainPrefix | tcp/src/receiver.c:8-39 | from any prefix of a stream, exactly the messages whose last fragment is in the prefix come out, and the incomplete tail stays |
| Messages.DrainAllIff | tcp/src/receiver.c:8-39 | a whole stream reassembles to its messages if and only if all of them fit the header; otherwise to more texts than messages |
| Messages.PrintedUpToMisfit | tcp/src/receiver.c:8-39 | from any prefix of a stream, in which any messages may be too long, the texts are the first messages in order up to the first one that does not fit, and a text in the place of that one is another |
| Flow.AcceptOk | tcp/src/receiver.c:62-86 | handling frame n adds exactly n to what has been received, and the number acknowledged is the last before the first one missing |
| SenderPasses.OnAckSelf | tcp/src/sender.c:79-137 | the oldest ACK slides the window exactly to the frame it acknowledges, and puts at most the oldest unacknowledged frame back into flight |
| SenderPasses.FastRetransmit | tcp/src/sender.c:110-121 | what a fast retransmission resends is exactly the oldest unacknowledged frame of a non-empty window; when it happens is the subject of AckLaws.RepeatedAcks |
| AckLaws.SlowStartAck | tcp/src/sender.c:94-100 | every ACK in slow start raises cwnd by exactly 1, the state becomes AIMD exactly when that passes ssthresh, and nothing goes out again, even at the third repetition |
| AckLaws.NewAck | tcp/src/sender.c:101-109 | a new ACK adds 1/cwnd in AIMD; in fast recovery it sets cwnd to ssthresh and the state to AIMD; it clears the count |
| AckLaws.RepeatedAck | tcp/src/sender.c:84-93 | a repetition that is not the third adds nothing in AIMD and 1 in fast recovery, is counted, and sends nothing |
| AckLaws.ThirdRepeatedAck | tcp/src/sender.c:110-121 | the third repetition in AIMD sends the oldest frame of the window again, sets ssthresh to max(cwnd/2, 2) and cwnd to ssthresh + 3, and enters fast recovery |
| AckLaws.CountOverflows | tcp/src/sender.c:84-109 | the 256th repetition makes the one-byte count zero and passes for a new ACK |
| AckLaws.SlowStartAcks | tcp/src/sender.c:42-121 | n ACKs in slow start take cwnd from w to w + n if w + n does not pass ssthresh, and the flow is still in slow start afterwards if and only if it does not |
| AckLaws.RepeatedAcks | tcp/src/sender.c:42-121 | n repetitions of the newest ACK in AIMD: up to two change nothing but the count; from the third on exactly the oldest frame has gone out again, once, the state is fast recovery, ssthresh is max(cwnd/2, 2) and cwnd is ssthresh + n |
| TurnLaws.RetransmitTimer | tcp/src/util.c:235-273 | a retransmission restarts the timer of its slot at 100 ms from now, or from where earlier timers have got to if later, and puts the next one 10 ms on |
| TurnLaws.SendPassTimers | tcp/src/sender.c:281-303 | what the send loop sends joins the windows in the order it goes out, with timers of 100 ms that follow each other at 10 ms |
| TurnLaws.OutTimers | tcp/src/sender.c:229-303 | those timers start from the clock, or from where the timers of earlier passes have got to if that is later |
| SendingTurn.OutPassSide | tcp/src/sender.c:225-303 | one sending pass puts at most floor(cwnd) frames per destination on the network, and a frame stays buffered only if the window is full or the budget is spent |
| Delivery.RunInv | tcp/src/host.c:57-62 | the invariant relating both ends of every flow holds after every prefix of every run |
| Delivery.AlwaysShaped | tcp/src/host.c:57-62 | every index any handler uses is in range in every reachable state, so the structural precondition of a step rules nothing out |
| Delivery.InOrderDelivery | tcp/src/receiver.c:41-110 | at every moment of every run the messages printed by d from s are a prefix of the messages commanded from s to d, exactly as long as none has been printed in the place of the first one that does not fit the length field; those before it are right even then |
| Delivery.CompleteAtExit | tcp/src/run_main.c:147-166 | when no host is active at the end of a round, the printed messages are all the commanded ones if and only if each of them fits the header; otherwise more have been printed than commanded |
| Delivery.InOrderThroughout | tcp/src/run_main.c:147-166 | a run that comes to its exit has printed in order at every moment if and only if all its messages fit the header |
| Delivery.DataComparisonExact | tcp/src/receiver.c:62-73 | an arriving frame lies between W - 1 behind and W ahead of the last in-order frame, and the window test decides as on unbounded numbers |
| Delivery.PhasesSeparate | tcp/src/host.c:57-62 | hosts about to send find only ACKs among the valid frames, hosts about to receive only data |
| FlowViews.SenderPartition | tcp/src/sender.c:256-300 | acknowledged frames, send window and buffered frames are consecutive parts of one stream of fragments, numbered modulo 256; dup_acks_seq_num is the last acknowledged number |
| FlowViews.ReceiverWindow | tcp/src/receiver.c:62-86 | slot i of the receive window is NULL or holds frame next + i of the stream, slot 0 is NULL, and what was printed and kept is the reassembly of the first next frames |
| FlowViews.AckComparisonExact | tcp/src/sender.c:79-137 | every ACK a turn handles, at any position of the incoming list, names a frame from one before the window to its last one, as the window is when the ACKs before it have been handled, and the 8-bit tests decide as on unbounded numbers |
| Progress.TurnAchieves | tcp/src/sender.c:341-395 | a turn moves the window to the newest ACK that arrived intact; if that is none and a timer has run out, the oldest frame goes out again; it sends at most one frame per ACK and then at most floor(cwnd), and leaves a frame buffered only if the window is full or that budget is spent |
| Progress.ArrivalAchieves | tcp/src/receiver.c:62-94 | the ACK sent for an intact frame names the last frame before the first missing one, and is beyond the oldest unacknowledged frame if that was the frame |
| Progress.InvalidIgnored | tcp/src/receiver.c:57-61 | a frame that fails its check leaves nothing behind, neither a reply nor a change of the receiver |
| Progress.SendersDisciplined | tcp/src/sender.c:199-300 | in every reachable state stopped timers come last in each window and the congestion bounds hold |
| Progress.NeverStuck | tcp/src/sender.c:353-368 | a host with anything to send or to wait for has a running timer that wakes it |
| RoundTrips.NeverBack | tcp/src/sender.c:123-137 | over any stretch of any run, the number of frames a sender knows to be acknowledged never decreases |
| RoundTrips.RoundTripAdvances | tcp/src/receiver.c:62-94 | if the oldest unacknowledged frame arrives intact and the ACK sent in reply is among the frames the sender finds in a later turn, the sender is strictly further afterwards, whatever else was lost |
| LosslessRounds.LosslessRound | tcp/src/host.c:57-62 | if a timer has run out at one turn of a sender, and up to its next turn no frame of the flow and no ACK of one is dropped, corrupted or held up at a port, the sender knows more frames to be acknowledged after that turn than before the first |
| CongestionRuns.TimeoutCongestion | tcp/src/sender.c:199-223 | a timer that is due sets ssthresh to cwnd/2, cwnd to 1 and the state to slow start, and stops all timers of the window; otherwise nothing changes |
| CongestionRuns.TurnCongestion | tcp/src/sender.c:373-379 | a turn changes the congestion state by its ACKs, then by a timeout if one of the timers left by those ACKs is due, and by nothing else |
| CongestionRuns.IdleTurn | tcp/src/sender.c:349-380 | a host without a command, an incoming frame or a due timer sends nothing and changes nothing in its turn |
| CongestionRuns.SlowStartTurn | tcp/src/sender.c:94-100 | a turn in slow start without a due timer opens the window by one frame for every ACK it reads |
| CongestionRuns.InitialCongestion | tcp/src/host.c:46-54 | every flow starts with cwnd 1, ssthresh equal to the window size, in slow start, nothing counted |
| CongestionRuns.SlowStartRun | tcp/src/sender.c:94-100 | from the start of any run, as long as no timer of the flow is due at a turn, cwnd is 1 plus the number of ACKs read, in slow start, up to the configured window |
| CongestionRuns.EveryAck | tcp/src/sender.c:79-121 | for every ACK handled in any turn of any run, new or repeated as unbounded numbers say, the exact change of cwnd, ssthresh, count and state |
| CongestionRuns.ThirdDuplicate | tcp/src/sender.c:79-121 | in any run, a host in AIMD whose ACKs from d all repeat the newest one sends the oldest frame again when it handles the third and not before, with the cwnd and ssthresh of AckLaws.RepeatedAcks |
| CongestionRuns.ThirdDuplicateSends | tcp/src/sender.c:110-121 | after such a turn that frame is on the network |
| CongestionRuns.TimersRunLong | tcp/src/common.h:22 | in any turn of any run, every running timer was running before or is set at least 100 ms after a clock reading of that turn |
| CongestionRuns.NothingSentAgain | tcp/src/sender.c:199-300 | a turn without an ACK from d and without a due or stopped timer towards d sends d only frames never sent before, and keeps window, timers and congestion state |
| SwitchOrder.FlowsKeepOrder | tcp/src/switch.c:116-244 | while the switch works, what is on its way from a to b stays a subsequence of what was on its way |
| CircularQueues.SendQueues.constructor | tcp/src/host.c:16-28 | all windows start empty |
| CircularQueues.SendQueues.GetItem | tcp/src/util.c:275-279 | reads slot i of one peer's window |
| CircularQueues.SendQueues.SetTimeout | tcp/src/util.c:266-271 | changes one timer of one window and nothing else in the shared array |
| CircularQueues.SendQueues.Append | tcp/src/util.c:318-327 | appends to one window, a full one refuses, other windows are untouched |
| CircularQueues.SendQueues.NDequeue | tcp/src/util.c:291-303 | drops the first n slots of one window, or all, other windows are untouched |
| CircularQueues.SendQueues.AnyFrame | tcp/src/sender.c:382-388 | the scan over the flat array finds a frame if and only if some window is not empty |
| CircularQueues.RecvQueues.SetItem | tcp/src/util.c:329-333 | stores into slot i of one peer's window only |
| CircularQueues.RecvQueues.NDequeue | tcp/src/util.c:305-316 | the first n slots leave and come back empty at the far end |
| Hosts.CheckFrame | tcp/src/util.c:227-233 | true exactly for frames whose remainder is zero |
| Hosts.ComputeChecksum | tcp/src/util.c:217-225 | the frame with the checksum of its other 63 bytes |
| Hosts.Host.constructor | tcp/src/host.c:7-55 | the fresh host of the event machine |
| Hosts.Host.RetransmitFrame | tcp/src/util.c:235-273 | the search loop, the copy sent, the timer restarted: the new state is Retransmit of the old |
| Hosts.Host.UpdateDupAcks | tcp/src/sender.c:79-93 | the new state is the old with CountAck at the ACK's source |
| Hosts.Host.UpdateCongestion | tcp/src/sender.c:94-121 | the exact new cwnd, ssthresh and state in each of the branches; fast retransmit is asked for exactly in AIMD at count 3 |
| Hosts.Host.SlideWindow | tcp/src/sender.c:123-137 | the window slides past the acknowledged slot, or stays if the ACK is older |
| Hosts.Host.HandleIncomingAcks | tcp/src/sender.c:42-138 | the walk over the list removes ACKs and corrupted frames and steps over data: the new state is AckPass of the old |
| Hosts.Host.BuildFragment | tcp/src/sender.c:170-187 | fills a malloc'ed frame to the fragment that begins at a given byte |
| Hosts.Host.HandleInputCmds | tcp/src/sender.c:145-197 | all commands are cut up and buffered in order: the new state is InputPass of the old |
| Hosts.Host.HandleTimedoutFrames | tcp/src/sender.c:199-223 | one expired slot stops the timers of its whole window and restarts slow start, for each destination: TimeoutPass |
| Hosts.Host.ResendAll | tcp/src/sender.c:239-249 | resends stopped slots destination by destination within the budgets: ResendPass |
| Hosts.Host.SendBuffered | tcp/src/sender.c:251-303 | moves buffered frames into windows and onto the network, timers 10 ms apart: SendPass |
| Hosts.Host.HandleOutgoingFrames | tcp/src/sender.c:225-303 | the new state is OutPass of the old |
| Hosts.Host.NextExpiringTimeout | tcp/src/sender.c:5-24 | the result tells for every clock value whether some timer of another host's window has been reached |
| Hosts.Host.RunSender | tcp/src/sender.c:345-394 | one host's turn: the new state is Turn of the old |
| Hosts.Host.ReassembleMessage | tcp/src/receiver.c:8-39 | takes off the frames up to the first end and returns what printing their bytes shows, or changes nothing |
| Hosts.Host.PrintMessages | tcp/src/receiver.c:96-105 | prints every complete message, in order, and keeps the rest: Drain |
| Hosts.Host.AcceptFrame | tcp/src/receiver.c:62-86 | the window test, the store and the advance loop: Accept, and the number acknowledged is the new last in-order frame |
| Hosts.Host.HandleFrame | tcp/src/receiver.c:52-109 | one round of the receive loop: ReceiveOne |
| Ports.BooksEnd | tcp/src/switch.c:116-222 | per receiver with q frames queued and o addressed to it, exactly min(rate, q + o) are delivered, the queue takes what it has room for, and only the rest is lost |
| Simulator.Simulator.constructor | tcp/src/run_main.c:102-131 | the initial state of the event machine |
| Simulator.Simulator.GetRandSeq | tcp/src/switch.c:57-72 | whatever rand() returns, the result is a permutation of 0 .. len - 1 |
| Simulator.Simulator.RunSenders | tcp/src/sender.c:341-395 | every host takes exactly one turn, in some order, and nothing else happens |
| Simulator.Simulator.Transmit | tcp/src/switch.c:77-103 | a frame is corrupted exactly if the second random number modulo 1000 is below the probability in thousandths, at the byte the third one chooses; otherwise it arrives as it was |
| Simulator.Simulator.Channel | tcp/src/switch.c:77-107 | in every record, with probability 0 every frame handed over arrives as it was sent, and from 1000 thousandths on none arrives valid |
| Simulator.Simulator.SendFrame | tcp/src/switch.c:77-107 | the frame, or the frame with one byte complemented, joins its destination's incoming list |
| Simulator.Simulator.ServeQueues | tcp/src/switch.c:119-138 | afterwards a frame waits only at a port whose receiver has had its full rate |
| Simulator.Simulator.SendDataFrames | tcp/src/switch.c:116-224 | terminates with all outgoing lists empty and the result of Ports.BooksEnd for every receiver |
| Simulator.Simulator.RunReceivers | tcp/src/receiver.c:112-119 | every incoming list is handled to the end |
| Simulator.Simulator.SendAckFrames | tcp/src/switch.c:225-244 | every ACK is passed on, none is dropped |
| Simulator.Simulator.ReadCommand | tcp/src/input.c:161-187 | a line with valid ids joins its sender's list, any other is ignored; a message from a host to itself is reported as fatal; nothing is printed |
| Simulator.Simulator.RunHosts | tcp/src/host.c:57-62 | a whole round keeps the record a run; afterwards everything printed anywhere is in order up to the first message that does not fit |
| Simulator.Simulator.GracefulExit | tcp/src/run_main.c:147-166 | true exactly if asked to stop and no host is active; then every pair of hosts is complete if and only if its messages fit |
| Simulator.Simulator.Round | tcp/src/main.c:70-79 | one round of the main loop, for any input lines: commands, hosts, exit test, with both guarantees; a message from a host to itself, and nothing else, ends the program with nothing more printed |
| LinkedList.GetLength | tcp/src/util.c:4-17 | the number of nodes of the ring |
| LinkedList.AppendNode | tcp/src/util.c:28-55 | a ring again, the new value last |
| LinkedList.PopNode | tcp/src/util.c:57-85 | through a pointer to any node, exactly that node leaves and the others keep their order |
| LinkedList.MoveSome | tcp/src/sender.c:256-300 | the walk that unlinks some nodes visits each node once and splits the list into kept and moved values, both in order |
| LinkedList.KeptAndTaken | tcp/src/sender.c:256-300 | the two parts together are the list |
| SendLoop.SendPassSplits | tcp/src/sender.c:251-300 | the send loop leaves buffered and puts on the network what the walk leaves and takes, for the test that lets the first frames of each destination go, as many as window and budget allow |
| SendLoop.SendOnLists | tcp/src/sender.c:251-300 | the walk over the two linked lists ends with the lists of SendPass |
| Sha1Spec.FoldBlock | router/sha1.c:178-181 | whole blocks are compressed one at a time and an incomplete block does not count yet |
| Sha1Spec.PadLength | router/sha1.c:326-371 | padding always fills up to a multiple of 512 bits with at least 65 bits |
| Sha1.SHA1Context.Reset | router/sha1.c:71-85 | an empty message, neither computed nor corrupted |
| Sha1.SHA1Context.Expand | router/sha1.c:224-235 | the 80 words of the schedule of RFC 3174 section 6.1 |
| Sha1.SHA1Context.RunSteps | router/sha1.c:237-287 | the four loops are the 80 steps of RFC 3174 section 6.1 |
| Sha1.AddNumber | router/sha1.c:239-293 | addition of words is addition of their numbers modulo 2^32 |
| Sha1Words.CompressValue | router/sha1.c:207-301 | compression on bit strings is the computation in 32-bit machine words: shifts, and, or, exclusive or, complement, wrapping addition |
| Sha1Words.DigestValue | router/sha1.c:207-301 | for every message the digest is what those machine words give when its padded blocks are processed from the first to the last |
| Sha1Example.AbcDigest | router/sha1.c:207-301 | the digest of "abc" is A9993E36 4706816A BA3E2571 7850C26C 9CD0D89D (RFC 3174 section 7.3) |
| Sha1.SHA1Context.ProcessMessageBlock | router/sha1.c:207-301 | the digest words become the compression of the old ones with the block: the number of each is the old number plus that of its working variable after 80 steps, modulo 2^32 |
| Sha1.SHA1Context.InputByte | router/sha1.c:158-184 | the message grows by the byte; corrupted exactly when the bit count no longer fits 64 bits |
| Sha1.SHA1Context.Input | router/sha1.c:143-185 | the bytes join the message; corrupted exactly after a result, after corruption, or beyond 2^64 - 1 bits; no bytes change nothing |
| Sha1.SHA1Context.PadMessage | router/sha1.c:326-371 | both padding branches leave the digest of the padded message (RFC 3174 section 4) |
| Sha1.SHA1Context.Result | router/sha1.c:104-119 | fails exactly if corrupted, else the digest of everything put in, and asking again changes nothing |
| Sha1.HashPieces | router/sr_vns_comm.c:273-279 | for every message and every way of cutting it up, the result is the digest of the whole, or a refusal exactly from 2^64 bits on |
| Sha1.LengthBits | router/sha1.c:361-368 | the eight length bytes taken from the two 32-bit counters are the 64-bit length |
| Cksum.ByteWeight | router/sr_utils.c:8-15 | a byte at an even place counts 256 times and one at an odd place once, at every length |
| Cksum.OddPadded | router/sr_utils.c:14-15 | data of odd length is summed as if a zero byte followed it |
| Cksum.SumAppend | router/sr_utils.c:12-13 | pieces of even length may be summed separately |
| Cksum.KnownChecksum | router/sr_utils.c:8-20 | the example of RFC 1071 section 3 |
| Cksum.NoOverflow | router/sr_utils.c:8-20 | up to 131074 bytes the 32-bit sum does not overflow |
| Cksum.OverflowBeyond | router/sr_utils.c:8-20 | the bound is sharp: one more word of ones overflows |
| Cksum.FoldedIs | router/sr_utils.c:16-17 | folding subtracts a multiple of 0xffff and reaches zero only from zero |
| Cksum.ChecksumUnique | router/sr_utils.c:8-20 | the checksum is the only value from 1 to 0xffff that brings the one's complement sum to 0xffff |
| Cksum.ComputeCksum | router/sr_utils.c:8-20 | the loops return, in network byte order, the checksum of the word sum modulo 2^32, hence of the word sum itself up to 131074 bytes; data of odd length gets the checksum of that data followed by a zero byte |
| Cksum.CheckCorrupt | router/sr_router.c:733-755 | accepts exactly the data whose checksum field is nonzero and completes the 32-bit sum of the rest to 0xffff; up to 131074 bytes, exactly what folds to 0xffff as a whole |
| Cksum.CheckIpHeader | router/sr_router.c:733-743 | the same for an IP header of the length it declares; a declared length below 12 bytes or beyond the packet, where the C code leaves its buffers, is told apart |
| Cksum.ChecksumPasses | router/sr_router.c:322-323 | data that was given its computed checksum is accepted |
| ArpModel.AlwaysOk | router/sr_arpcache.c:20-57 | in every interleaving: no address with two valid entries, two requests, or an entry and a request; no request without packets; at most 4 retries |
| ArpModel.PacketsConserved | router/sr_arpcache.c:120-240 | in every interleaving each accepted packet is delivered, waiting, discarded or in hand, once and for its own next hop |
| ArpModel.DeliveredAsHeard | router/sr_router.c:268-346 | in every interleaving packets go out only to MAC addresses their next hop has announced |
| ArpModel.GivingUp | router/sr_arpcache.c:33-45 | giving a request up answers each of its packets once; such an answer is discarded with the request exactly if its own next hop is the silent address |
| ArpLaws.LookupIff | router/sr_arpcache.c:73-91 | a lookup gives a MAC address exactly if some valid entry for the address has it |
| ArpLaws.AddLearns | router/sr_arpcache.c:161-200 | adding an announced address to a table with a free slot makes it the answer for that address and leaves every other answer alone; a full table stays as it is |
| ArpLaws.TickKeepsFresh | router/sr_arpcache.c:292-297 | a tick keeps exactly the entries that are at most 15 seconds old |
| ArpLaws.AnsweredWhileFresh | router/sr_router.c:268-355 | in every interleaving, from the adding of an address to a table with a free slot until a tick finds it more than 15 seconds old, a packet for it goes out at once to the MAC announced, and nothing is queued or asked |
| ArpLaws.AnnouncedReleases | router/sr_router.c:675-709 | once an address is announced, exactly the packets that waited for it have gone out, newest first, and no request for it is left |
| ArpLaws.MissAsks | router/sr_router.c:344-346 | a packet for an unknown address waits in front of the request for it, and the address is asked for |
| ArpLaws.TickVisits | router/sr_arpcache.c:20-57 | a tick leaves a request asked for less than a second ago alone, asks again if that has happened less than four times, and otherwise discards and answers every packet of it; in every reachable state, for every request |
| ArpLaws.TickSendsFresh | router/sr_arpcache.c:281-305 | a tick sends only to addresses announced within the last 15 seconds |
| ArpCache.ArpCache.FindMac | router/sr_arpcache.c:73-91 | the MAC address of the last valid entry for the address |
| ArpCache.ArpCache.FindPending | router/sr_arpcache.c:126-131 | the position of the first request for the address |
| ArpCache.ArpCache.QueuePacket | router/sr_arpcache.c:120-155 | the new state is QueueRequest of the old |
| ArpCache.ArpCache.InsertEntry | router/sr_arpcache.c:161-200 | the new state is Insert of the old: the request leaves and its packets go out; the address is in the table afterwards if there was a free slot, every valid entry stays, and a full table does not change |
| ArpCache.ArpCache.ReleasePackets | router/sr_router.c:675-709 | the new state is Release of the old |
| ArpCache.ArpCache.SendHostUnreachable | router/sr_router.c:421-480 | the new state is HostUnreachable of the old; the next hop is asked for exactly if the table does not know it |
| ArpCache.ArpCache.SweepRequests | router/sr_arpcache.c:20-57 | the new state is Sweep of the old, and the assertion in the loop holds |
| ArpCache.ArpCache.ExpireEntries | router/sr_arpcache.c:292-297 | exactly the valid entries older than 15 seconds become invalid |
| ArpCache.ArpCache.TimerTurn | router/sr_arpcache.c:281-305 | one turn of the timer thread is Tick |
| ArpCache.ArpRouter.BeginForward | router/sr_router.c:343-355 | the lookup and what a hit does are one event of the interleaving |
| ArpCache.ArpRouter.FinishForward | router/sr_router.c:344-346 | what a miss does is a later event; the address is asked for and nothing goes out |
| ArpCache.ArpRouter.BeginReply | router/sr_router.c:279-281 | the lookup for a reply is one event |
| ArpCache.ArpRouter.FinishReply | router/sr_router.c:281-293 | inserting, or only flushing, is a later event |
| ArpCache.ArpRouter.Timer | router/sr_arpcache.c:281-305 | the timer thread's turn is one event, at any point of the packet thread's work |

## Left out

- Delivery.InOrderDelivery: assumes window sizes from 1 to 127 and 2 to 256 hosts. The configuration check only asks for a positive window; SeqNum.DiffExact shows which distances the 8-bit difference gets right.
- Delivery.InOrderDelivery: says that a text in the place of a message that does not fit differs from it, which rests on printing stopping at the end of the buffer (see Hosts.Host.ReassembleMessage). The counts in Messages.RoundTrip, Messages.DrainAllIff and Delivery.CompleteAtExit, and Delivery.InOrderThroughout, do not rest on it.
- CongestionRuns.ThirdDuplicate: counts up to 255 repetitions; what the 256th does is AckLaws.CountOverflows. Repetitions counted before a flow leaves slow start do not lead to a fast retransmission, as in the source, where the branch for slow start comes first.
- CongestionRuns.NothingSentAgain: a frame can go out again sooner than 100 ms after it was sent, when the timer of an older frame of its window runs out, because that stops all timers of the window.
- Hosts.Host.RetransmitFrame: on an empty window the C function reads a variable it never set; here such a call leaves all slots alone.
- Hosts.Host.ReassembleMessage: printing stops at the first NUL or at the end of the buffer, while C would read on if there were no NUL; for messages that fit the header there always is one.
- Hosts.Host.HandleIncomingAcks: a host's lists are sequences here; that the linked lists refine sequences, including removal through interior pointers, is proved separately in LinkedList.
- Cksum.CheckIpHeader: gives no answer where the C code reads or writes outside its buffers.
- Simulator.Simulator.Round: for a message from a host to itself the program ends as soon as the input has been read; in the source the hosts still take their turns and the switch ends it on the first such frame, before any host receives. What is printed is the same.
- LosslessRounds.LosslessRound: a frame the switch keeps in a port's queue for a later round is not lost, but is not counted on either; with the source's capacity of 0 none is kept.
- Simulator.Simulator.SendDataFrames: the queue capacity is a parameter; the source sets it to 0. The per-pair counters of frames sent and dropped serve diagnostics only and are not modelled.
- ArpCache.ArpCache.SendHostUnreachable: every packet's source is assumed to have a route, as the C function does not test for it; the contents of the message are a parameter.
- ArpModel.AlwaysOk: lock operations are replaced by atomic steps of the two threads; when packets arrive and when the timer runs is arbitrary.
- The clock, rand(), malloc'ed garbage, routes and commands are parameters of the model, in any combination; the fields of an ACK frame that the code leaves unset come from that garbage.
- cwnd and ssthresh are real numbers; rounding of doubles is not modelled.
- A printed line is tagged with the source it came from, which the program does not print.
- sr_handlepacket, ICMP and ARP packet layout, routing-table lookup, interface lists, sockets and the VNS protocol: field copying and input/output.
- Configuration files, command-line parsing, CSV diagnostics, logging, freeing of memory and thread setup.
