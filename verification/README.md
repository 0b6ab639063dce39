# Verified model of a multipath QUIC transport core

The repository is a Go implementation of QUIC (the Google variant) that sends the streams of one connection over several
network paths. This project models the algorithms at its core in Dafny and proves what they promise, over all inputs, all
runs and all schedules of the network:

| files | part of the source |
|---|---|
| `wire.dfy` | frames and their encoded lengths |
| `frame_sorter.dfy`, `frame_sorter_class.dfy`, `covered_frames.dfy` | reassembly of a stream from frames that overlap, repeat and arrive out of order |
| `framer.dfy` | the retransmission queue, which splits frames to fit |
| `stream.dfy`, `stream_class.dfy`, `stream_scheduler.dfy` | the two ends of a stream and the cutting of frames |
| `delivery.dfy`, `end_of_stream.dfy` | one stream from Write to Read over an unreliable network |
| `flow_control.dfy`, `flow_control_class.dfy`, `flow_protocol.dfy`, `flow_safety.dfy`, `flow_increments.dfy`, `flow_raises.dfy`, `flow_credit.dfy`, `flow_liveness.dfy` | windows of streams and of the connection, at both ends |
| `received_packets.dfy`, `received_packets_class.dfy`, `ack_timing.dfy` | the received packet history, ACK frames and when they are made |
| `sent_packets.dfy`, `sent_packets_class.dfy`, `in_flight.dfy`, `alarm_runs.dfy`, `sender_runs.dfy` | the sent packet handler: its books, alarms, retransmissions and STOP_WAITING frames |
| `ack_protocol.dfy` | acknowledgements and STOP_WAITING between two ends |
| `water_filling.dfy` | the split of a stream over paths |
| `olia.dfy`, `olia_class.dfy`, `olia_exact.dfy` | coupled congestion control |
| `packer.dfy` | the content and the size of a packet |
| `streams_map.dfy`, `streams_map_class.dfy`, `round_robin.dfy` | stream numbers, limits and round robin |

Each part has specification functions over values, about which the properties are proved, and, where the source updates
objects or arrays in place, classes and methods with the source's loops, proved to compute these functions. Whole-system
results are about `Run`, the state after any sequence of events, chosen freely: which frames are lost, delayed,
duplicated or reordered, when applications write and read, which alarms fire.

Where the code does not do what its names and comments suggest, the model follows the code, and the exact condition under
which it does is proved:

- The sorter keeps FIN on a frame whose tail it cuts, so Read can report the end of a stream too early between honest
  ends (`EofCanBeEarly`). When Read has reported the end, everything was delivered exactly if no such frame was taken
  (`EofExactly`).
- A Write after one that ran into its deadline replaces the data that is still pending (`WriteCanReplace`,
  `WrittenExactly`).
- Of the two internal errors of the sorter one is unreachable and the other happens exactly for frames that end at the
  largest 64-bit byte count (`PushCorrect`). An empty frame with FIN can replace data
  (`EmptyFinReplaces`, `PushEmptyFin`). Of several frames that a new one covers only some are dropped; the others stay
  queued, out of reach (`CoveredFrameStays`), and it is exact which (`QueueExactly`).
- Automatic tuning of windows can lower a window and so make honest peers violate flow control; this is impossible
  exactly when the initial windows are not above about twice the largest increments (`SafeExactly`). A due update can
  also leave a window where it is, except under a condition that is stricter by one (`RaisesExactly`). Increments stay
  within their maximum exactly when the initial windows do (`CappedExactly`).
- With windows or largest increments below two bytes the two ends can wait for each other for ever although everything
  was read; used credit comes back in all runs exactly if all of them are at least two (`NeverStuckExactly`).
- The split over paths stops raising the level at the first pair of equal delays, which is not optimal exactly when volume
  is left and a path with a larger delay follows (`OptimalExactly`, `TieCanHarm`).
- On the client, the limits on open streams are compared with the wrong counters (`PeerLimitExactly`, `OwnLimitExactly`).
- At both ends number 0 and the next own stream number are answered as already closed although they were never opened
  (`ClosedUnopened`); for all other numbers this answer is right (`ClosedExactly`).
- A new lower limit keeps the largest received packet tracked exactly when it lies below it (`LimitExact`); the handling
  of STOP_WAITING frames guarantees this in all runs (`AcksAreSound`).
- The round-robin index counts visits, not positions, so a stream directly behind stream 1 or 3 in the list is served
  once more for each of them (`ShareExactly`, `UnevenShare`). Shares are equal exactly if all streams have equally many
  of these in front of them (`EvenShare`), and no stream starves (`NoStarvation`).

Conversely, some doubts turn out to be unfounded: the terms of coupled congestion control add up to zero for all of the
256 possible paths although the counters are bytes (`ZeroSum`), and the internal error of the ACK sweep never happens
(`DetermineNewlyAcked`). The change of a congestion window in 64-bit arithmetic is OLIA's increase over the reals,
truncated, as long as the products fit (`ChangeExactly`); beyond that it can be lost (`ChangeWraps`).

## Model

| member | source | states |
|---|---|---|
| Delivery.DeliveredIsPrefix | pstream/stream.go:152-243 | In every run of writes, sends of any size, retransmission splits, and a network that loses, repeats and reorders frames, the bytes returned by Read are a prefix of the bytes taken from the sending application |
| Delivery.StepInv | pstream/stream.go:315-334 | Every step of that protocol (write, close, send, retransmit, arrival, read) keeps its invariant: frames in flight and in the retransmission queue carry true bytes of the stream, and so does everything queued at the receiver |
| Delivery.ReadCompletes | pstream/stream.go:163-242 | Once every byte taken from the application has arrived, a Read with a large enough buffer delivers all of them unless it meets a FIN |
| EndOfStream.EofExactly | pstream/stream.go:230-238 | In every run in which Read has reported the end of the stream, all of it was delivered if and only if the receiver never took a frame with FIN and data whose last byte had arrived while another byte of it was missing |
| EndOfStream.ArriveFin | pstream/stream_frame_sorter.go:96-102 | The same for one step: an arriving frame keeps every queued FIN at the end of the stream if and only if it has no FIN, or its last byte is missing, or none of its bytes is missing; the source leaves FIN on a frame whose tail it cuts off |
| EarlyEnds.PushTrap | pstream/stream_frame_sorter.go:32-144 | A stored frame with FIN whose last byte had arrived leaves a FIN in the middle of arrived data, on the way of Read, and no later frame of the stream removes it |
| EarlyEnds.ReadLoopTrapped | pstream/stream.go:163-242 | Read either leaves such a FIN on its way or reports the end of the stream too early |
| Delivery.MissingExactly | pstream/stream_frame_sorter.go:42-143 | Over a whole run, a byte is missing if and only if no frame that the receiver took so far carried it |
| Delivery.WrittenExactly | pstream/stream.go:258-260 | What was taken from the application and what is pending is the concatenation of all accepted writes if and only if no Write replaced data that was still pending, as a Write after a missed deadline can |
| Delivery.WriteCanReplace | pstream/stream.go:258-259 | A concrete run of two writes whose first byte is lost |
| Delivery.DeliveredIsWritten | pstream/stream.go:245-334 | If every Write waits for the one before, the bytes returned by Read are a prefix of the bytes written |
| Delivery.SentHonest | pstream/stream_scheduler.go:481-556 | A frame cut by send carries the bytes just taken at their offset, with FIN only at the end of the stream |
| Delivery.PopHonest | pstream/stream_framer.go:192-226 | Popping and splitting frames for retransmission keeps that of every frame |
| EndOfStream.EofCanBeEarly | pstream/stream_frame_sorter.go:96-102 | A concrete run between honest ends in which Read reports the end of the stream although half of the stream, which has arrived, was not delivered |
| ByteGaps.FillWellFormed | pstream/stream_frame_sorter.go:104-130 | Filling an interval keeps the gap list sorted, non-empty, not touching and open-ended |
| ByteGaps.FillMissing | pstream/stream_frame_sorter.go:54-130 | Filling [start, end) removes exactly these bytes from what is missing and no other |
| FrameSorterSpec.EmptyValid | pstream/stream_frame_sorter.go:23-30 | A new sorter satisfies the invariant: well-formed gaps, no more than the limit, every arrived byte reachable through queued frames |
| FrameSorterSpec.PushCorrect | pstream/stream_frame_sorter.go:32-144 | Push refuses a frame as duplicate if and only if all its bytes have arrived; otherwise exactly its bytes stop being missing and the invariant is kept; the first internal error is unreachable and the second happens if and only if the frame ends at the largest 64-bit byte count |
| FrameSorterSpec.PushEmptyFin | pstream/stream_frame_sorter.go:33-39 | An empty frame with FIN overwrites what is queued at its offset; this keeps the invariant if and only if the overwritten frame was not needed to reach arrived bytes |
| FrameSorterSpec.EmptyFinReplaces | pstream/stream_frame_sorter.go:33-39 | A concrete sorter in which an empty frame with FIN makes a byte that counts as received unreadable |
| CoveredFrames.QueueExactly | pstream/stream_frame_sorter.go:78-143 | After a frame with data was stored it is queued at its first missing byte; of the frames queued before exactly those are gone that lie between two missing bytes of it, right behind the first of these |
| CoveredFrames.CoveredFrameStays | pstream/stream_frame_sorter.go:92-93 | Of two frames that a new one covers the second stays in the queue, where Pop never finds it |
| FrameSorterSpec.PushFaithful | pstream/stream_frame_sorter.go:42-143 | However a frame is cut, what is queued are bytes of the stream at their own offsets |
| FrameSorterSpec.NextByteQueued | pstream/stream_frame_sorter.go:155-161 | No arrived byte is stranded: if the byte at the read position has arrived, Head returns a frame that starts there and does not reach beyond the first gap |
| FrameSorterSpec.DrainStops | pstream/stream_frame_sorter.go:146-153 | Repeated Pop stops exactly at the start of the first gap |
| FrameSorterSpec.DrainReachesGap | pstream/stream_frame_sorter.go:146-153 | Repeated Pop hands out exactly the bytes of the stream from the read position to the first gap |
| FrameSorterSpec.PopValid | pstream/stream_frame_sorter.go:146-153 | Pop keeps the invariant |
| FrameSorter.StreamFrameSorter.constructor | pstream/stream_frame_sorter.go:23-30 | The new object is the empty sorter |
| FrameSorter.StreamFrameSorter.Push | pstream/stream_frame_sorter.go:32-49 | The object changes as the function Push says, with the same result |
| FrameSorter.StreamFrameSorter.Insert | pstream/stream_frame_sorter.go:51-143 | The loops over the gap list that edit it in place compute the insertion function |
| FrameSorter.StreamFrameSorter.FindGap | pstream/stream_frame_sorter.go:54-68 | The search finds the first gap that the frame reaches, or tells that there is none or that the frame is a duplicate |
| FrameSorter.StreamFrameSorter.FillFrom | pstream/stream_frame_sorter.go:70-143 | Left cut, covered gaps, tail cut and storing, as one function of the state |
| FrameSorter.StreamFrameSorter.FindEndGap | pstream/stream_frame_sorter.go:78-94 | The loop removes exactly the covered gaps and the frames queued behind them |
| FrameSorter.StreamFrameSorter.Place | pstream/stream_frame_sorter.go:96-143 | Tail cut, gap update and storing |
| FrameSorter.StreamFrameSorter.ShrinkGaps | pstream/stream_frame_sorter.go:104-130 | The gap list becomes the one with the interval filled |
| FrameSorter.StreamFrameSorter.Head | pstream/stream_frame_sorter.go:155-161 | Head is the frame queued at the read position, if any |
| FrameSorter.StreamFrameSorter.Pop | pstream/stream_frame_sorter.go:146-153 | Pop removes that frame and advances the read position by its length |
| StreamSpec.SendCorrect | pstream/stream_scheduler.go:481-556 | A frame cut by send is the front of the pending data at the write offset, fits into the packet and into the window; FIN is set exactly on the frame that takes the last byte of a closed stream, once |
| StreamSpec.SendExactly | pstream/stream_scheduler.go:484-533 | A frame is cut if and only if room for its header is left and there is data that the window admits or a FIN to send; it takes exactly as much data as is pending, fits into the room and is admitted by the window |
| StreamSpec.ReadLoopStops | pstream/stream.go:163-242 | In every consistent state and for every buffer size Read ends with a full buffer, at the first gap, or at a FIN, and leaves a consistent state |
| StreamSpec.ReadLoopBytes | pstream/stream.go:163-242 | Read returns the next bytes of the stream and nothing else |
| StreamSpec.ReadLoopEof | pstream/stream.go:230-238 | If every queued FIN lies at the end of the stream, Read reports the end only there |
| StreamSpec.PushFin | pstream/stream_frame_sorter.go:96-143 | Exactly which FIN a pushed frame adds to the queue, and where it ends |
| Stream.StreamState.Write | pstream/stream.go:245-260 | Hands the data over, and refuses it after Close |
| Stream.StreamState.Close | pstream/stream.go:337-342 | Marks the stream as finished for writing |
| Stream.StreamState.GetDataForWriting | pstream/stream.go:315-334 | Takes at most maxBytes from the front of the pending data and advances the write offset by what it took |
| Stream.StreamState.AddStreamFrame | pstream/stream.go:370-378 | Pushes the frame into the sorter; duplicates are not an error |
| Stream.StreamState.Read | pstream/stream.go:152-243 | The buffer starts with the bytes that the function Read returns, its rest is unchanged, and the state and status are those of that function |
| Stream.StreamState.ReadFrames | pstream/stream.go:163-242 | The loop over the queued frames computes that function |
| Stream.StreamState.ReadFrame | pstream/stream.go:187-239 | One round: takes what fits from the first frame and pops the frame if that was all of it |
| FramerSpec.PopConserves | pstream/stream_framer.go:192-324 | For each stream, popped frames followed by the remaining queue carry the same bytes at the same offsets in the same order, with FIN in the same place |
| FramerSpec.PopLength | pstream/stream_framer.go:192-278 | The popped frames take exactly the reported length, which is within the limit |
| FramerSpec.PopFlags | pstream/stream_framer.go:195 | Popped frames are measured and sent with their length field |
| FramerSpec.PopLeavesOthers | pstream/stream_framer.go:229-324 | Frames of streams that are not asked for stay in the queue, unchanged and in order |
| FramerSpec.PopSelects | pstream/stream_framer.go:229-324 | Only frames of the streams asked for are popped |
| FramerSpec.PopStopsFull | pstream/stream_framer.go:192-324 | Popping stops only where nothing more fits: unless no frame asked for is left, the room that is left cannot take the header of the first one and a byte |
| StreamFramer.Framer.AddFrameForRetransmission | pstream/stream_framer.go:56-58 | Appends to the queue |
| StreamFramer.Framer.MaybeSplitOffFrame | pstream/stream_framer.go:612-629 | Splits a frame that is longer than n into its first n bytes without FIN and the rest |
| StreamFramer.Framer.MaybePopFramesForRetransmission | pstream/stream_framer.go:192-226 | The loop that shortens the queue computes the pop function for all streams |
| StreamFramer.Framer.MaybePopFramesForRetransmissionOfPath | pstream/stream_framer.go:229-278 | The loop that removes elements from the middle of the queue computes the pop function for some streams |
| StreamSchedulerSpec.SendWithinWindows | pstream/stream_scheduler.go:502-534 | A frame stays within the window of its stream and of the connection, and every byte of it is accounted for at both levels; other streams are untouched |
| StreamSchedulerSpec.FrameExactly | pstream/stream_scheduler.go:502-533 | When a stream other than the crypto stream contributes a frame, and that it takes the least of what is pending, what fits and what both windows admit |
| StreamSchedulerSpec.BlockedExactly | pstream/stream_scheduler.go:536-542 | A frame queues BLOCKED for the connection if nothing is left of its window, otherwise for its stream if it has no FIN and nothing more can be sent there, and otherwise nothing; without a frame nothing is queued |
| StreamScheduler.Scheduler.Send | pstream/stream_scheduler.go:481-556 | The stream, the flow controllers, the BLOCKED queue, the returned frame, its length and the flag to continue are those of the functions above |
| StreamScheduler.Scheduler.Cut | pstream/stream_scheduler.go:484-533 | Takes the data and the FIN from the stream as the function Send says |
| StreamScheduler.Scheduler.Account | pstream/stream_scheduler.go:534-542 | Accounts for the data and queues the BLOCKED frame |
| FlowControlSpec.UpdateRaises | pstream/internal/flowcontrol/flow_controller.go:150-207 | A due update does not lower the window if and only if the increment is not adjusted or the largest increment covers what is left of the window, and strictly raises it if and only if it is not adjusted or the largest increment exceeds what is left |
| FlowControlSpec.UpdateRefills | pstream/internal/flowcontrol/flow_controller.go:150-207 | A due update leaves exactly one increment ahead of what was read; the increment doubles, up to its maximum, exactly if the last update was soon; an update that is not due changes nothing |
| FlowControlSpec.TuningDoubles | pstream/internal/flowcontrol/flow_controller.go:173-190 | A window that is used up soon again and again has an increment of the initial one times a power of two, capped by the maximum |
| FlowControlSpec.RemoveExactly | pstream/internal/flowcontrol/flow_control_manager.go:44-60 | Removing a stream undoes adding it, touches no other stream, and makes the stream unknown |
| WindowUpdates.UpdatesExactly | pstream/internal/flowcontrol/flow_control_manager.go:150-170 | For every order of the map, a WINDOW_UPDATE for a stream is issued if and only if it is forced or less than half of the increment was left before the call, for the connection if and only if it is forced or less than half of its increment, after the demands of the streams, was left; each carries the window after the call |
| WindowUpdates.ConnAtTurn | pstream/internal/flowcontrol/flow_control_manager.go:157-162 | The increment of the connection at its own turn is raised to the largest demand of the streams, whatever their order |
| WindowUpdates.LargestIs | pstream/internal/flowcontrol/flow_control_manager.go:157-162 | That demand is the largest of one and a half times the increments that adjusted streams report, so it does not depend on the order |
| FlowCredit.RoomReaches | pstream/internal/flowcontrol/flow_control_manager.go:251-292 | In every run with safe windows, once the sender learned the updates issued last it can send exactly what is left of the windows at the receiver |
| FlowCredit.StepCredit | pstream/internal/flowcontrol/flow_control_manager.go:150-292 | Every step keeps the invariant behind this: every window in force was announced, and no announcement is below the initial window |
| FlowLiveness.ReturnsExactly | pstream/internal/flowcontrol/flow_control_manager.go:150-170 | When everything sent was read, an update that the sender learns lets it send more if and only if, at the stream and for contributing streams at the connection, something is left or the increment is at least two, and an adjustment does not leave an increment of zero |
| FlowLiveness.CreditReturns | pstream/internal/flowcontrol/flow_control_manager.go:150-170 | So in every run with safe windows, if everything was read and the increments and largest increments are at least two, updates let the sender go on |
| FlowLiveness.NeverStuckExactly | pstream/internal/flowcontrol/flow_controller.go:150-207 | With safe windows, in every run in which everything sent was read, updates let the sender go on, if and only if the initial windows and the largest increments of streams and connection are all at least two bytes |
| FlowLiveness.StreamCanBeStuck | pstream/internal/flowcontrol/flow_controller.go:150-207 | Otherwise a concrete run leaves a stream unable to go on, for every such configuration |
| FlowLiveness.ByteStuck | pstream/internal/flowcontrol/flow_controller.go:150-207 | The same for a connection whose largest increment is one byte |
| FlowLiveness.RoundsStuck | pstream/internal/flowcontrol/flow_controller.go:150-207 | The same for a connection with a window of one byte or a largest increment of zero |
| FlowRaises.RaisesExactly | pstream/internal/flowcontrol/flow_controller.go:150-217 | In every run every due update strictly raises the window of its stream, other than the crypto stream, and that of the connection, if and only if half of the initial stream window, rounded down, is at most the largest increment, and the same holds for the connection unless the stream window is zero |
| FlowRaises.StreamCanStall | pstream/internal/flowcontrol/flow_controller.go:150-170 | Otherwise a concrete run reaches a due update of a stream that does not raise its window, for every such configuration |
| FlowRaises.ConnCanStall | pstream/internal/flowcontrol/flow_controller.go:150-170 | Or one of the connection |
| FlowControlSpec.UpdateSound | pstream/internal/flowcontrol/flow_controller.go:150-207 | An update keeps bytesRead <= highestReceived <= receiveWindow and steady increments, and never lowers the window |
| FlowControlSpec.EnsureSound | pstream/internal/flowcontrol/flow_controller.go:212-217 | Raising the minimum increment keeps the controller sound and its window |
| FlowProtocol.StepInv | pstream/internal/flowcontrol/flow_control_manager.go:95-292 | Every step of two endpoints with lost, delayed and reordered data, resets and WINDOW_UPDATEs keeps: read <= received <= sent <= granted per stream and in total |
| FlowProtocol.NeverViolated | pstream/internal/flowcontrol/flow_controller.go:219-221 | With steady windows, no run makes the receiver report a violation on any stream but the crypto stream, or on the connection |
| FlowSafety.SafeExactly | pstream/internal/flowcontrol/flow_controller.go:150-207 | No run makes the receiver report a violation if and only if half of the initial stream window, rounded down, is at most the largest increment plus one, and the same holds for the connection unless the stream window is zero |
| FlowProtocol.StreamCanBeViolated | pstream/internal/flowcontrol/flow_controller.go:150-170 | Otherwise a concrete run between honest peers violates the window of a stream, for every such configuration |
| FlowProtocol.ConnCanBeViolated | pstream/internal/flowcontrol/flow_controller.go:150-170 | Or a concrete run violates the window of the connection |
| FlowProtocol.WindowsHold | pstream/internal/flowcontrol/flow_control_manager.go:95-170 | In every run the windows hold what was received, the subtraction in MaybeUpdateWindow never wraps, and the totals of the connection are the sums over the contributing streams, removed ones included |
| FlowIncrements.CappedExactly | pstream/internal/flowcontrol/flow_controller.go:173-217 | In every run no increment exceeds the configured maximum if and only if the initial windows do not |
| FlowControl.FlowController.constructor | pstream/internal/flowcontrol/flow_controller.go:40-60 | The initial windows come from the parameters for the connection or for a stream |
| FlowControl.FlowController.UpdateSendWindow | pstream/internal/flowcontrol/flow_controller.go:94-100 | The send window only grows; the result tells whether it did |
| FlowControl.FlowController.SendWindowSize | pstream/internal/flowcontrol/flow_controller.go:102-109 | What is left of the window in force, never below zero |
| FlowControl.FlowController.UpdateHighestReceived | pstream/internal/flowcontrol/flow_controller.go:120-130 | The highest offset, how much it grew, and whether the offset was below it |
| FlowControl.FlowController.AddBytesRead | pstream/internal/flowcontrol/flow_controller.go:138-145 | Counts the bytes and starts the clock at the first one |
| FlowControl.FlowController.MaybeUpdateWindow | pstream/internal/flowcontrol/flow_controller.go:150-170 | Moves the window when less than half of the increment is left, with the wrap-around of the unsigned difference |
| FlowControl.FlowController.EnsureMinimumWindowIncrement | pstream/internal/flowcontrol/flow_controller.go:212-217 | Raises the increment up to its maximum |
| FlowControl.FlowControlManager.constructor | pstream/internal/flowcontrol/flow_control_manager.go:32-40 | No streams, and a controller for the connection |
| FlowControl.FlowControlManager.NewStream | pstream/internal/flowcontrol/flow_control_manager.go:44-53 | Adds a controller of its own for a stream that has none |
| FlowControl.FlowControlManager.RemoveStream | pstream/internal/flowcontrol/flow_control_manager.go:56-60 | Removes the controller and nothing else |
| FlowControl.FlowControlManager.ResetStream | pstream/internal/flowcontrol/flow_control_manager.go:65-90 | Accounts for the final offset and refuses one below received data |
| FlowControl.FlowControlManager.UpdateHighestReceived | pstream/internal/flowcontrol/flow_control_manager.go:95-130 | Accounts for data at both levels; the exact error of each case, and what was changed before it |
| FlowControl.FlowControlManager.AddBytesRead | pstream/internal/flowcontrol/flow_control_manager.go:133-148 | Counts bytes read at both levels |
| FlowControl.FlowControlManager.AddBytesSent | pstream/internal/flowcontrol/flow_control_manager.go:189-204 | Counts bytes sent at both levels |
| FlowControl.FlowControlManager.SendWindowSize | pstream/internal/flowcontrol/flow_control_manager.go:251-266 | The smaller of the two windows for a contributing stream |
| FlowControl.FlowControlManager.UpdateWindow | pstream/internal/flowcontrol/flow_control_manager.go:276-292 | A WINDOW_UPDATE is applied to the stream or to the connection; the result is true exactly if the offset exceeds the window known before, which is exactly if anything changed; an unknown stream is an error |
| FlowControl.FlowControlManager.GetWindowUpdates | pstream/internal/flowcontrol/flow_control_manager.go:150-170 | For every order of the map, the updates and the new state of all controllers |
| FlowControl.FlowControlManager.UpdateOne | pstream/internal/flowcontrol/flow_control_manager.go:157-162 | The update of one stream, which may raise the increment of the connection |
| PacketRanges.Canonical | pstream/ackhandler/received_packet_history.go:12-16 | A sorted, disjoint, non-adjacent list of ranges is determined by the set of numbers in it, so the history is a set |
| ReceivedHistorySpec.AddWellFormed | pstream/ackhandler/received_packet_history.go:28-75 | Registering a packet keeps the ranges sorted, disjoint and non-adjacent, merging included |
| ReceivedHistorySpec.AddIn | pstream/ackhandler/received_packet_history.go:28-75 | Registering p adds p and nothing else |
| ReceivedHistorySpec.DeleteWellFormed | pstream/ackhandler/received_packet_history.go:78-93 | Dropping numbers keeps the ranges well-formed |
| ReceivedHistorySpec.DeleteIn | pstream/ackhandler/received_packet_history.go:78-93 | Dropping up to p keeps exactly the numbers above p |
| AckFrames.ValidateAckRanges | pstream/internal/wire/ack_frame.go:376-412 | Comparing neighbours decides whether all ranges are descending and apart |
| AckFrames.AcksPacket | pstream/internal/wire/ack_frame.go:472-488 | A number is acknowledged if and only if it lies in the frame and in one of its ranges |
| AckFrames.FrameCovers | pstream/ackhandler/received_packet_handler.go:130-139 | The frame built from the ranges is valid and acknowledges exactly their numbers |
| ReceivedPacketsSpec.ReceiveCorrect | pstream/ackhandler/received_packet_handler.go:46-68 | A packet above the limit is tracked, any other changes nothing; the only error for a real packet number is too many ranges, exactly when there are that many |
| ReceivedPacketsSpec.LimitExact | pstream/ackhandler/received_packet_handler.go:72-75 | The largest number observed stays tracked if and only if a new lower limit lies below it |
| ReceivedPacketsSpec.LimitDrops | pstream/ackhandler/received_packet_handler.go:72-75 | A new limit removes exactly the numbers up to it |
| ReceivedPacketsSpec.AckCorrect | pstream/ackhandler/received_packet_handler.go:125-148 | A frame is never built from an empty list and acknowledges exactly the tracked numbers |
| ReceivedPacketsSpec.AckPromised | pstream/ackhandler/received_packet_handler.go:77-123 | A packet that wants an ACK makes a frame due, at the latest when the alarm expires, that acknowledges it |
| ReceivedPacketsSpec.AckResets | pstream/ackhandler/received_packet_handler.go:125-148 | A frame clears what called for it: directly afterwards none is due, and the counts start again |
| AckTiming.DueExactly | pstream/ackhandler/received_packet_handler.go:77-128 | In every run a frame is due if and only if a packet since the last frame called for one at once, or one that wants an ACK arrived since then and the time of the alarm has come |
| AckTiming.QueuedExactly | pstream/ackhandler/received_packet_handler.go:77-123 | A packet calls for a frame at once exactly if no frame was made yet, it was reported missing, there is a hole above what was reported, or it is the second one that wants an ACK or, for legacy versions, the twentieth one; otherwise the alarm is set exactly if one since the last frame wants an ACK |
| AckTiming.HoleExactly | pstream/ackhandler/received_packet_handler.go:95-99 | The highest range starts above the last reported number if and only if a number from there on is missing below the largest received one |
| AckTiming.FrameExactly | pstream/ackhandler/received_packet_handler.go:125-148 | In every run a frame is made exactly if one is due, and it names exactly the packets received above the limit |
| AckTiming.NoSecondFrame | pstream/ackhandler/received_packet_handler.go:125-148 | In every run no second frame is made until another packet arrives |
| AckTiming.FrameStartsAgain | pstream/ackhandler/received_packet_handler.go:125-148 | After a frame the counts start again, and what it reports is the largest number received |
| ReceivedPackets.ReceivedPacketHistory.ReceivedPacket | pstream/ackhandler/received_packet_history.go:28-75 | The walk from the back of the list computes the registration, unless too many ranges are tracked |
| ReceivedPackets.ReceivedPacketHistory.Insert | pstream/ackhandler/received_packet_history.go:33-74 | The same without the limit |
| ReceivedPackets.ReceivedPacketHistory.ExtendAt | pstream/ackhandler/received_packet_history.go:44-61 | One range is changed and merged with the one before it |
| ReceivedPackets.ReceivedPacketHistory.DeleteUpTo | pstream/ackhandler/received_packet_history.go:78-93 | The walk from the front computes the deletion |
| ReceivedPackets.ReceivedPacketHistory.GetAckRanges | pstream/ackhandler/received_packet_history.go:96-108 | The ranges from the highest to the lowest |
| ReceivedPackets.ReceivedPacketHandler.ReceivedPacket | pstream/ackhandler/received_packet_handler.go:46-68 | The new state and the error |
| ReceivedPackets.ReceivedPacketHandler.SetLowerLimit | pstream/ackhandler/received_packet_handler.go:72-75 | The limit is replaced, and the history cut |
| ReceivedPackets.ReceivedPacketHandler.MaybeQueueAck | pstream/ackhandler/received_packet_handler.go:77-123 | When an ACK is queued and when the alarm is set |
| ReceivedPackets.ReceivedPacketHandler.QueueAtOnce | pstream/ackhandler/received_packet_handler.go:84-107 | An ACK is queued at once for exactly four reasons |
| ReceivedPackets.ReceivedPacketHandler.GetAckFrame | pstream/ackhandler/received_packet_handler.go:125-148 | The frame, and the reset of the ACK state |
| ReceivedPackets.ReceivedPacketHandler.GetClosePathFrame | pstream/ackhandler/received_packet_handler.go:150-162 | The frame that closes a path reports the same ranges; it needs a tracked packet |
| AckSweep.NextRange | pstream/ackhandler/sent_packet_handler.go:325-337 | The inner loop reaches the range that decides about the packet |
| AckSweep.DetermineNewlyAcked | pstream/ackhandler/sent_packet_handler.go:308-344 | The two-pointer sweep returns exactly the acknowledged packets, in order, for every ascending history and valid frame; its internal error never happens |
| SentPacketsSpec.SendValid | pstream/ackhandler/sent_packet_handler.go:139-188 | Sending keeps the books: ascending numbers, bytes in flight equal to the summed length, bounded list of skipped numbers |
| SentPacketsSpec.SentExactly | pstream/ackhandler/sent_packet_handler.go:139-188 | A packet is refused exactly if its number is not new or too many are tracked; otherwise it is in flight from now on, if it is kept, with the time of the call |
| SkippedRuns.SkippedExactly | pstream/ackhandler/sent_packet_handler.go:149-155 | In every run a packet that is sent adds exactly the numbers it skips, of which the last ten are kept, and an applied frame forgets exactly those up to the last one acknowledged in order |
| SkippedRuns.CollectExactly | pstream/ackhandler/sent_packet_handler.go:703-712 | For numbers in order, exactly those up to the given one are forgotten |
| SentPacketsSpec.ReceivedAckValid | pstream/ackhandler/sent_packet_handler.go:190-267 | An ACK frame keeps the books, refused or not |
| SentPacketsSpec.ReceivedClosePathValid | pstream/ackhandler/sent_packet_handler.go:269-306 | So does the frame that closes a path |
| SentPacketsSpec.AlarmValid | pstream/ackhandler/sent_packet_handler.go:522-554 | So does every alarm |
| SentPacketsSpec.LostExactly | pstream/ackhandler/sent_packet_handler.go:466-498 | Loss detection queues exactly the late packets up to the largest acknowledged one, and arms the timer exactly if another packet up to it is left |
| SentPacketsSpec.AckExactly | pstream/ackhandler/sent_packet_handler.go:190-247 | A frame that is not refused or ignored retires exactly the packets in flight that it acknowledges; any other frame retires none |
| SentPacketsSpec.AckStatusExactly | pstream/ackhandler/sent_packet_handler.go:190-217 | Which frames are refused and why: one for an unsent packet, one that is not newer than the last, one for a skipped number |
| SentPacketsSpec.AckLosesExactly | pstream/ackhandler/sent_packet_handler.go:190-247 | An applied frame queues exactly the packets it leaves unacknowledged up to its largest number that were sent too long ago, keeps exactly the others in flight, records its largest number, and arms the timer exactly if another packet up to it is left |
| SentPacketsSpec.AckRestarts | pstream/ackhandler/sent_packet_handler.go:560-568 | A frame that acknowledges a packet in flight starts the counts of probes and timeouts again and any other leaves them; an applied frame raises the least unacknowledged number just above the largest number it acknowledges |
| SentPacketsSpec.ClosePathExactly | pstream/ackhandler/sent_packet_handler.go:269-306 | A closed path retires exactly the packets its frame acknowledges and queues exactly the others up to the largest number acknowledged before |
| SentPacketsSpec.ClosePathStatusExactly | pstream/ackhandler/sent_packet_handler.go:269-288 | Which frames of a closed path are refused and why |
| PacketRemoval.AlarmExactly | pstream/ackhandler/sent_packet_handler.go:531-551 | Without a loss timer an alarm queues the newest packet while fewer than two probes were sent; after that the oldest two, or all if the path seems to have failed |
| SentPacketsSpec.LossAlarmExactly | pstream/ackhandler/sent_packet_handler.go:522-534 | With the loss timer set, an alarm queues exactly the late packets up to the largest acknowledged one and counts neither as probe nor as timeout |
| AlarmRuns.CountsExactly | pstream/ackhandler/sent_packet_handler.go:522-554 | In every run without an answer of the peer, the first two alarms with packets outstanding and no loss timer are probes and all others are timeouts |
| AlarmRuns.ThirdAlarmIsTimeout | pstream/ackhandler/sent_packet_handler.go:531-551 | So the first two of these alarms queue the newest packet, and the third and every later one the oldest two, or all if the path seems to have failed |
| AlarmRuns.AlarmRetransmits | pstream/ackhandler/sent_packet_handler.go:522-528 | Without a loss timer an alarm queues something if and only if a retransmittable packet is in flight; without such a packet it changes nothing |
| PacketRemoval.RemoveSelected | pstream/ackhandler/sent_packet_handler.go:229-247 | Removing the selected packets one by one leaves exactly the others |
| InFlight.EveryRunBalanced | pstream/ackhandler/sent_packet_handler.go:139-306 | In every run bytesInFlight is the summed length of the ascending history; every tracked packet is in flight, acknowledged or queued and never two of these; bytes sent are bytes in flight, acknowledged and queued; tracked and queued packets exceed the limit at most by the number of duplicated packets |
| InFlight.RetiredOnce | pstream/ackhandler/sent_packet_handler.go:560-656 | A step retires only packets in flight, and none that was retired before |
| InFlight.StepBalanced | pstream/ackhandler/sent_packet_handler.go:466-656 | Every call keeps that balance |
| AckProtocol.AcksAreSound | pstream/ackhandler/sent_packet_handler.go:190-217 | In every run of honest ends with STOP_WAITING frames over a lossy, reordering network: no ACK for an unsent or skipped packet, no unreceived packet retired, STOP_WAITING frames can be written, no ACK frame is built from an empty list |
| AckProtocol.AcksAreExact | pstream/ackhandler/received_packet_handler.go:125-148 | In every such run an ACK frame acknowledges exactly the received packets that no STOP_WAITING frame gave up |
| AckProtocol.StepInv | pstream/ackhandler/sent_packet_handler.go:190-306 | Every step of the two ends keeps the invariant behind these |
| SentPackets.SentPacketHandler.SentPacket | pstream/ackhandler/sent_packet_handler.go:139-188 | The new state, or the error for a number that is not new or too many tracked packets |
| SentPackets.SentPacketHandler.SkipUpTo | pstream/ackhandler/sent_packet_handler.go:149-155 | The skipped numbers, of which the last ten are kept |
| SentPackets.SentPacketHandler.ReceivedAck | pstream/ackhandler/sent_packet_handler.go:190-267 | The new state and the error of each case |
| SentPackets.SentPacketHandler.ReceivedClosePath | pstream/ackhandler/sent_packet_handler.go:269-306 | The same for the frame that closes a path |
| SentPackets.SentPacketHandler.AckPackets | pstream/ackhandler/sent_packet_handler.go:217-247 | The sweep and the removal, packet by packet |
| SentPackets.SentPacketHandler.SkippedPacketsAcked | pstream/ackhandler/sent_packet_handler.go:685-692 | Whether the frame acknowledges a skipped number |
| SentPackets.SentPacketHandler.OnPacketAcked | pstream/ackhandler/sent_packet_handler.go:560-568 | Removes one packet and its bytes |
| SentPackets.SentPacketHandler.QueuePacketForRetransmission | pstream/ackhandler/sent_packet_handler.go:650-656 | Moves one packet to the queue with its bytes, and raises the least unacknowledged number |
| SentPackets.SentPacketHandler.DetectLostPackets | pstream/ackhandler/sent_packet_handler.go:466-498 | Moves the late packets |
| SentPackets.SentPacketHandler.FindLost | pstream/ackhandler/sent_packet_handler.go:474-490 | The late packets, and whether the timer is armed |
| SentPackets.SentPacketHandler.SetInflightAsLost | pstream/ackhandler/sent_packet_handler.go:500-520 | Moves all packets up to the largest acknowledged one |
| SentPackets.SentPacketHandler.GarbageCollectSkippedPackets | pstream/ackhandler/sent_packet_handler.go:703-712 | Forgets skipped numbers up to the last one that is acknowledged in order |
| SentPackets.SentPacketHandler.OnAlarm | pstream/ackhandler/sent_packet_handler.go:522-554 | The three kinds of alarms |
| SentPackets.SentPacketHandler.RetransmitAfterTimeout | pstream/ackhandler/sent_packet_handler.go:540-551 | After a timeout all packets are queued if the path seems to have failed, the oldest two otherwise |
| SentPackets.SentPacketHandler.RetransmitTLP | pstream/ackhandler/sent_packet_handler.go:613-617 | Queues the newest packet |
| SentPackets.SentPacketHandler.RetransmitAllPackets | pstream/ackhandler/sent_packet_handler.go:619-624 | Queues all packets |
| SentPackets.SentPacketHandler.RetransmitOldestTwoPackets | pstream/ackhandler/sent_packet_handler.go:626-636 | Queues the oldest two packets |
| SentPackets.SentPacketHandler.DequeuePacketForRetransmission | pstream/ackhandler/sent_packet_handler.go:570-582 | Takes the oldest queued packet |
| SentPackets.SentPacketHandler.GetStopWaitingFrame | pstream/ackhandler/stop_waiting_manager.go:16-37 | Which number is announced |
| StopWaitingRuns.FrameExactly | pstream/ackhandler/stop_waiting_manager.go:16-37 | In every run a frame announces the current least unacknowledged number, if there is one, exactly if it is forced or that number was not announced before; all packets queued for retransmission lie below it |
| StopWaitingRuns.NumbersRise | pstream/ackhandler/stop_waiting_manager.go:16-49 | In every run a frame that is not forced carries a larger number than all frames before it |
| StopWaitingRuns.RaiseExactly | pstream/ackhandler/stop_waiting_manager.go:45-49 | The number to announce is just above the largest queued packet, unless it was larger before |
| RetransmissionRuns.FirstInFirstOut | pstream/ackhandler/sent_packet_handler.go:570-582 | In every run the packets taken for retransmission followed by those still queued are exactly the packets that were queued, in that order |
| WaterFilling.Allocate | pstream/scheduler.go:624-723 | The volumes are those of the gap-closing loop and the final spread; they are not negative and add up to the volume of the stream, ties included |
| WaterFilling.CloseGaps | pstream/scheduler.go:624-702 | The level rises from delay to delay up to the first tie or until the volume ends |
| WaterFilling.CloseGap | pstream/scheduler.go:629-701 | One round of that loop |
| WaterFilling.AddGap | pstream/scheduler.go:646-665 | Every path below the level is given the gap times its bandwidth |
| WaterFilling.AddShares | pstream/scheduler.go:667-673 | Every path below the level is given its share of the rest |
| WaterFilling.BandwidthSum | pstream/scheduler.go:629-635 | The sum of the bandwidths |
| WaterFilling.AllocationConserves | pstream/scheduler.go:542-723 | Volumes are not negative and add up to the volume, with or without ties |
| WaterFilling.LevelOptimal | pstream/scheduler.go:625-702 | What all paths deliver by one common time is an optimal split |
| WaterFilling.OptimalExactly | pstream/scheduler.go:625-723 | No other split finishes earlier if and only if there is no harmful tie: the first tie is reached with volume left while a path has a larger delay; without one all used paths finish together and unused ones have no smaller delay |
| WaterFilling.HarmfulIsLate | pstream/scheduler.go:699-701 | With a harmful tie another split finishes strictly earlier |
| WaterFilling.TieCanHarm | pstream/scheduler.go:699-701 | Concrete paths with a harmful tie, for every volume |
| WaterFilling.DistinctDelays | pstream/scheduler.go:606-608 | Pairwise distinct delays leave no harmful tie |
| WaterFilling.ChoosePaths | pstream/scheduler.go:514-740 | Which paths are given data and how much: the sizes are positive, only available paths are used and the sizes add up to the size of the stream; the special cases of one path and of nothing to send |
| WaterFilling.InBytes | pstream/scheduler.go:728-737 | Volumes in bytes for the paths that were given data |
| OliaEpsilon.ZeroSum | pstream/congestion/olia_sender.go:150-211 | For every set of at most 256 paths, every order of the map and every outcome of the comparison, the terms of all paths add up to exactly zero |
| OliaEpsilon.EpsilonSigns | pstream/congestion/olia_sender.go:189-210 | Denominators are positive; a term is negative exactly for paths with the largest window and positive exactly for collected paths, unless none is collected |
| OliaEpsilon.CountersFit | pstream/congestion/olia_sender.go:160-187 | The byte counters do not wrap where they are used |
| OliaEpsilon.BestIsBest | pstream/congestion/olia_sender.go:165-172 | Without overflow the loop finds a path with the largest ratio of bytes between losses and squared round trip |
| OliaEpsilon.CollectedMeans | pstream/congestion/olia_sender.go:176-187 | Without overflow the collected paths are exactly those with the largest ratio whose window is not the largest |
| OliaSpec.TermsBalance | pstream/congestion/olia_sender.go:150-211 | After getEpsilon the terms stored in the senders add up to zero |
| OliaSpec.AfterAckBounds | pstream/congestion/olia.go:63-92 | One ACK moves the window by at most one packet, never below one, and keeps the fractional counter strictly inside its bounds, whatever the 64-bit arithmetic yields |
| OliaExact.ChangeExactly | pstream/congestion/olia.go:63-82 | While the products fit into 63 bits, the counter changes by exactly 1024 (w^2 / (cwnd rate) + num / (den cwnd)) over the reals, truncated toward zero, with w the scaled window |
| OliaExact.ChangeSigns | pstream/congestion/olia.go:71-82 | So only a term of -1 lowers the counter, and only while the scaled share of the path is below the term; terms of 0 and 1 never do |
| OliaExact.ChangeWraps | pstream/congestion/olia.go:79-82 | Beyond 63 bits a concrete increase is lost |
| OliaExact.IncreaseExactly | pstream/congestion/olia_sender.go:227-230 | The coupled increase as a whole: the counter of the path moves by that amount for its new term and the rate of all paths; the window grows by one from 1023 on and shrinks by one, down to one, from -1023 on; of the other paths only the terms change |
| OliaExact.SumExactly | pstream/congestion/olia_sender.go:133-145 | While the products fit, the sum of getRate is at most the sum of 1024 cwnd rtt / rtt_i over the reals plus one, and at most one for each path below it |
| OliaExact.RateExactly | pstream/congestion/olia_sender.go:133-148 | The rate is the square of that sum |
| OliaExact.BackoffExactly | pstream/congestion/olia_sender.go:355-361 | The backoff is the window times ((n - 1) + 0.7) / n over the reals, rounded down |
| OliaExact.LossExactly | pstream/congestion/olia_sender.go:248-288 | The window after a loss: one less in slow start with the large reduction, otherwise the backoff, at least two packets, and slow start is over; when a later loss from before the cutback changes it again |
| OliaExact.TimeoutExactly | pstream/congestion/olia_sender.go:296-305 | A timeout ends recovery; after a retransmission the window is two packets, in slow start again if and only if it was at least six |
| OliaExact.MigrationExactly | pstream/congestion/olia_sender.go:307-319 | After a migration the path is as a new one, but for the round trip, the settings and the statistics |
| OliaHistory.SlowStartGrows | pstream/congestion/olia_sender.go:222-225 | In slow start a run of ACKs for a full window grows it by one packet each, up to the threshold and the limit |
| OliaHistory.AckedExactly | pstream/congestion/olia_sender.go:213-246 | In recovery, at the limit, or with too little of the window in use an ACK changes no window and no term; otherwise the window grows by one packet in slow start and by the coupled increase after it |
| OliaHistory.OneCutPerWindow | pstream/congestion/olia_sender.go:82-94 | In every run, after a loss cut the window, losses of packets up to the last retransmittable one sent before do not cut it again, unless the large reduction is on, and the loss of a later one does |
| OliaHistory.BytesExactly | pstream/congestion/olia.go:49-61 | In every run the bytes between losses are the larger one of what was acknowledged since the last loss and between the two losses before |
| OliaSpec.AckedValid | pstream/congestion/olia_sender.go:213-246 | One ACK keeps all windows of coupled paths within bounds, moves its own by at most one packet and leaves the others alone |
| OliaSpec.LossCuts | pstream/congestion/olia_sender.go:248-288 | A loss after the last cutback makes the window strictly smaller, down to two packets; further losses from before it do not cut again |
| OliaSpec.BackoffShrinks | pstream/congestion/olia_sender.go:355-361 | The multiplicative backoff makes every window of at least one packet strictly smaller |
| OliaSpec.LostValid | pstream/congestion/olia_sender.go:248-288 | A loss keeps the window invariant |
| OliaSpec.TimeoutValid | pstream/congestion/olia_sender.go:296-305 | A retransmission timeout keeps it |
| OliaSpec.MigrationValid | pstream/congestion/olia_sender.go:307-319 | A connection migration keeps it |
| OliaSpec.WindowsHold | pstream/congestion/olia.go:40-92 | In every run of coupled paths the window stays between one packet and its limit, loss1 <= loss2 <= loss3, so that their differences do not wrap, and the counter stays strictly inside its bounds |
| OliaCongestion.Olia.CongestionWindowAfterAck | pstream/congestion/olia.go:63-92 | The new counter and window, in 64-bit arithmetic |
| OliaCongestion.Olia.OnPacketLost | pstream/congestion/olia.go:57-61 | The loss counters move up |
| OliaCongestion.Olia.UpdateAckedSinceLastLoss | pstream/congestion/olia.go:53-55 | The acknowledged bytes are counted |
| OliaCongestion.Olia.Reset | pstream/congestion/olia.go:40-47 | The counters start again |
| OliaCongestion.OliaSender.constructor | pstream/congestion/olia_sender.go:56-69 | The initial state |
| OliaCongestion.OliaSender.OnPacketLost | pstream/congestion/olia_sender.go:248-288 | The new state after a loss |
| OliaCongestion.OliaSender.OnRetransmissionTimeout | pstream/congestion/olia_sender.go:296-305 | The new state after a timeout |
| OliaCongestion.OliaSender.OnConnectionMigration | pstream/congestion/olia_sender.go:307-319 | The new state after a migration |
| OliaCongestion.OliaSender.MoveWindow | pstream/congestion/olia_sender.go:229-230 | The window after an ACK, capped |
| OliaCongestion.GetMaxCwnd | pstream/congestion/olia_sender.go:124-131 | The largest window, for any order of the map |
| OliaCongestion.FindBest | pstream/congestion/olia_sender.go:165-172 | The best path, for any order of the map |
| OliaCongestion.CountKinds | pstream/congestion/olia_sender.go:176-187 | The sizes of the two sets of paths, as bytes |
| OliaCongestion.SetEpsilons | pstream/congestion/olia_sender.go:190-210 | The terms of all paths |
| OliaCongestion.GetEpsilon | pstream/congestion/olia_sender.go:150-211 | The terms that the loops leave in all senders are those of the function |
| OliaCongestion.GetRate | pstream/congestion/olia_sender.go:133-148 | The squared rate, in 64-bit arithmetic, for any order of the map |
| OliaCongestion.Increase | pstream/congestion/olia_sender.go:227-230 | The coupled increase of one path: new terms for all, then the window |
| OliaCongestion.MaybeIncrease | pstream/congestion/olia_sender.go:213-221 | Whether an ACK may change the window: outside recovery, with the window in use and below its limit |
| OliaCongestion.OnPacketAcked | pstream/congestion/olia_sender.go:213-246 | The new states of all senders after an ACK, in recovery, in slow start and in congestion avoidance |
| PackerSpec.PacketFits | pstream/packet_packer.go:587-606 | A packet never exceeds the original limit, also where the limit is raised by two and the last STREAM frame loses its length field |
| PackerSpec.StreamFramesFit | pstream/stream_framer.go:60-75 | Retransmitted and fresh frames together, the last one without its length field, take at most the room less two bytes |
| PackerSpec.RoomLeft | pstream/stream_framer.go:60-75 | Retransmissions take at most the room, so the difference passed on never wraps |
| PackerSpec.VisitsFit | pstream/stream_framer.go:326-394 | Fresh frames fill exactly the counted length, within the room, with their length fields |
| PackerSpec.TakeExactly | pstream/stream_framer.go:355-385 | A visited stream contributes a frame exactly if room for its header is left and it has data that the path may send and both windows admit, or only a FIN; it takes the least of what is pending, what fits and what the windows admit, and is otherwise left as it is |
| PackerSpec.VisitsServe | pstream/stream_framer.go:326-394 | Unless the pass was stopped, every visited stream with data that the path may send gave some of it, or its windows are used up, or the room cannot take its header |
| PackerSpec.VisitsStop | pstream/stream_framer.go:326-394 | A pass ends before the last stream only if the room is used up or cannot take the header of a visited stream |
| PackerSpec.PacketFull | pstream/packet_packer.go:587-606 | When the STREAM frames use up their room, a packet for a path or a stream has exactly the size of the limit, and one for all streams is two bytes short |
| PackerSpec.TakeFills | pstream/stream_framer.go:355-385 | A stream with enough data and window uses up the room |
| PackerSpec.VisitsGave | pstream/stream_framer.go:326-394 | Nothing is lost between streams and packet: what a stream gave is the data of one frame at its offset, and streams that were not visited are as before |
| PackerSpec.DropSaves | pstream/packet_packer.go:592-595 | Clearing the length field of the last frame saves two bytes |
| PackerSpec.TakeControlCorrect | pstream/packet_packer.go:494-506 | Control frames are counted right, none is lost, none is taken if the fixed frames alone exceed the limit, and none is left that would have fitted |
| PacketPacker.Packer.TakeHead | pstream/packet_packer.go:476-506 | STOP_WAITING, ACK and the control frames that fit |
| PacketPacker.Packer.TakeControlFrames | pstream/packet_packer.go:494-506 | The loop that takes control frames from the back of their queue |
| PacketPacker.Packer.PopNormalFrames | pstream/stream_framer.go:326-394 | The visits of the streams, with the frames, the length, the flow control and the BLOCKED queue they leave |
| PacketPacker.Packer.PopStreamFrames | pstream/stream_framer.go:60-75 | Retransmissions first, then fresh frames in the room that is left |
| PacketPacker.Packer.ComposeNextPacket | pstream/packet_packer.go:468-677 | The packet never exceeds the limit; the error for a too large packet happens if and only if STOP_WAITING and ACK alone exceed it; the content of the packet and of the queues afterwards |
| PacketPacker.Packer.QueueBlocked | pstream/packet_packer.go:531-533 | BLOCKED frames move to the control frames, in order |
| StreamsMapSpec.Lifecycle | pstream/streams_map.go:195-474 | In every run no stream is created twice, openStreams lists each open stream once, and the counters are the numbers of open streams with odd and even numbers |
| StreamsMapSpec.ClosedStaysClosed | pstream/streams_map.go:195-233 | Asking for a closed stream never opens it again and changes nothing |
| StreamsMapSpec.ClosedExactly | pstream/streams_map.go:195-233 | In every run a number is answered as closed if and only if its stream was opened and closed, or it is the next own number, or 0; the answer is wrong for exactly the last two, which were never opened |
| StreamsMapSpec.ClosedUnopened | pstream/streams_map.go:212-231 | A new connection answers number 0 and its first own number as closed although nothing was opened |
| StreamsMapSpec.GetOrOpenExact | pstream/streams_map.go:195-259 | A stream found is open afterwards; the answer that a stream is closed changes nothing and is given exactly for numbers that are not open and lie up to the next own one or the highest of the peer; an own number is invalid exactly if it is not open and beyond the next own one, and only new streams of the peer are opened |
| StreamsMapSpec.OpenRemoteValid | pstream/streams_map.go:384-408 | Opening a new stream of the peer keeps the invariant, whatever the counters refuse |
| StreamsMapSpec.OpenValid | pstream/streams_map.go:456-474 | So does opening an own stream |
| StreamsMapSpec.OpensAllBelow | pstream/streams_map.go:235-250 | Opening a stream of the peer opens all its streams below it |
| StreamsMapSpec.RemoveValid | pstream/streams_map.go:1008-1049 | Removing a stream removes exactly it, forgets nothing that was created, and keeps the list, the counters and the round-robin index consistent |
| StreamsMapSpec.RemoveKeepsTurn | pstream/streams_map.go:1020-1034 | The stream whose turn is next keeps its turn when another one is removed; if it is removed itself, the stream behind it is next |
| StreamsMapSpec.PeerLimitExactly | pstream/streams_map.go:384-408 | The limit on streams of the peer holds in every run if and only if this end is the server or the limit is zero: the client compares the wrong counter |
| StreamsMapSpec.OwnLimitExactly | pstream/streams_map.go:456-474 | The limit on own streams holds in every run if and only if this end is the server or the limit is zero |
| StreamsMapSpec.FullPass | pstream/streams_map.go:724-757 | A full pass visits every open stream exactly once, streams 1 and 3 first |
| StreamsMapSpec.PassStops | pstream/streams_map.go:724-757 | Every pass visits the streams in the order of a full one, up to the first visit that does not want to continue |
| RoundRobinPasses.NoStarvation | pstream/streams_map.go:741-755 | Any passes that together make as many visits as there are open streams, wherever each of them stops, visit every open stream |
| RoundRobinPasses.ShareExactly | pstream/streams_map.go:741-755 | Over one pass for each open stream, each ended by its first visit, a stream other than 1 and 3 is served exactly once plus once for each of the streams 1 and 3 directly in front of it in the list, with wrap-around, wherever the passes begin |
| RoundRobinPasses.EvenShare | pstream/streams_map.go:751 | These shares are equal if and only if equally many of the streams 1 and 3 lie directly in front of each other stream: the index counts visits and not the positions that were skipped |
| RoundRobinPasses.UnevenShare | pstream/streams_map.go:741-755 | When the first frame of the client uses stream 7, stream 5 is served three times and stream 7 once |
| StreamsMap.OpenStreams.PutStream | pstream/streams_map.go:982-1004 | Adds a stream that is not there |
| StreamsMap.OpenStreams.OpenRemoteStream | pstream/streams_map.go:384-408 | The counters, the highest stream and the list, or the error |
| StreamsMap.OpenStreams.GetOrOpenStream | pstream/streams_map.go:195-259 | The loop that opens all streams up to the one asked for, and the answers for all others |
| StreamsMap.OpenStreams.OpenStreamImpl | pstream/streams_map.go:456-474 | The next own stream, or the error |
| StreamsMap.OpenStreams.RemoveStream | pstream/streams_map.go:1008-1049 | The list without the stream and the adjusted indexes and counters |
| StreamsMap.OpenStreams.RoundRobinIterate | pstream/streams_map.go:724-757 | Which streams are visited in which order, when a visit can end the pass, and the index that is left |
| StreamsMap.OpenStreams.IterateOpen | pstream/streams_map.go:741-755 | The loop over the open streams with wrap-around, and the index it leaves |

## Left out

- Delivery.ReadCompletes: says nothing about a Read that meets a FIN; `EofExactly` does.
- FlowProtocol.NeverViolated: leaves out stream 1, whose frames the source sends without asking flow control.
- OliaEpsilon.BestIsBest: needs products of bytes and squared round trips below 2^64, where the comparison of the source is exact; `ZeroSum` and `WindowsHold` do not.
- OliaExact.ChangeExactly: needs products below 2^63, where the arithmetic of the source is exact; `AfterAckBounds` does not.
- OliaExact.SumExactly: needs products and a sum below 2^64, for the same reason.
- OliaHistory.BytesExactly: holds while fewer than 2^64 bytes were acknowledged.
- FlowLiveness.NeverStuckExactly: is about configurations in which windows never shrink; `SafeExactly` says which these are. It leaves out stream 1.
- OliaSpec.WindowsHold: the differences of the loss counters are exact while fewer than 2^64 bytes were acknowledged.
- ReceivedPackets.ReceivedPacketHandler.GetClosePathFrame: needs a tracked packet, because the source indexes the list without a check.
- WaterFilling.ChoosePaths: works on `real` instead of float64, takes the order from sorting as an input that is sorted, and the smoothed bandwidth and delay of each path as inputs.
- OliaCongestion.OliaSender.OnPacketLost: the reduction factor is the fraction (10n - 3) / (10n) instead of its float32 value.
- FlowControl.FlowController.MaybeAdjustWindowIncrement: whether the window was used up soon is an input instead of a comparison of clock and round trip; elsewhere the current time is an input.
- PacketPacker.Packer.ComposeNextPacket: the three compose functions are one method with a selection of streams, frames and controllers are values, and the permission of a path to send on a stream is an input.
- StreamFramer.Framer.MaybePopFramesForRetransmissionOfPath: frames are values, so that two holders of the same Go pointer see each other's changes is not modelled.
- Stream.StreamState.Write: returns at once; waiting until the data was taken, deadlines and errors of a stream that was reset are not modelled, and `WrittenExactly` says what the waiting is good for.
- Stream.StreamState.Read: ends with the result Starved where the source waits for more data; deadlines and errors of a stream that was reset are not modelled.
- FlowControl.FlowController.MaybeUpdateWindow: takes from its caller whether the last update was less than two round trips ago.
- PacketPacker.Packer.PopNormalFrames: the permission of a path to send on a stream is an input.
- StreamsMap.OpenStreams.RemoveStream: does not keep roundRobinIndexSend and priorityOrder, which the iteration for sending and the scheduling of paths use.
- Counters and offsets are unbounded, except where the source relies on or can meet wrap-around: the unsigned difference in MaybeUpdateWindow, the 64-bit arithmetic of congestion control, its byte counters, and byte counts of stream frames.
- Locks and goroutines.
- A receiver that reported a connection error stays as it is, as the source closes the connection.
- Congestion and round-trip callbacks inside the sent packet handler, its statistics, the count of non-retransmittable packets and the times of alarms.
- The encoding of frames in bytes; `ack_protocol.dfy` allows for ACK frames that were truncated when written.
- The crypto stream's own sending path, the priority tree, the weighted and deadline schedulers, path management, CUBIC, proportional rate reduction, hybrid slow start, sessions, handshake and HTTP.
