# CAN converter: a verified model

The CAN converter takes COBS-framed telemetry from RS485, keeps the latest value of each kind of payload, and
re-broadcasts it on CAN under a fixed schedule; a host tool updates its firmware over the same bus. This project
models those parts of the repository in Dafny and proves what they promise.

| file | what it is about |
|---|---|
| `Prelude.dfy` | optional values, bytes, 32-bit counters, flattening |
| `Cobs.dfy` | the COBS encoder of the test sender as its loop, the decoder it is meant for, and how they fit |
| `CobsStream.dfy` | the byte-fed parser against batch decoding: packet boundaries, delimiters, garbage |
| `MasterStore.dfy` | the shared store as a fold over decoded frames |
| `Receiver.dfy` | `on_frame` and the parser thread as an object, and the path from sender to store |
| `Snapshot.dfy` | writer and readers of the store, word by word, under the mutex |
| `Scheduler.dfy` | the four counters of the periodic thread and what each tick sends |
| `Rates.dfy` | the reported rates against the true number of attempts, with wrapping counters |
| `MsgQueue.dfy` | the 32-slot queue that drops when full, as a ring buffer |
| `Backlog.dfy` | how far that queue can fill, and when it must overflow |
| `Periodic.dfy` | the periodic thread as an object with its counters, meters and queue |
| `TxPath.dfy` | transmit thread, completion callback, bus-off purge and recovery as interleaved steps |
| `LateCallbacks.dfy` | when the count of successful transmissions is right, and how wrong it can get |
| `Broadcast.dfy` | the path as a whole, from the messages sent over RS485 to the frames offered to the CAN driver |
| `Crc.dfy` | CRC-32 as in section 8 of RFC 1952, in the chained form the tool uses |
| `DfuHost.dfy` | the update tool: its loops, its clock, its dialogue |
| `DfuProtocol.dfy` | the tool and the device as two processes, and delivery on a faultless bus |
| `DfuFaults.dfy` | what still holds on a bad bus |
| `DfuBadBus.dfy` | what ACKs and success are worth on a bad bus: exact conditions, and the runs outside them |
| `SenderSchedule.dfy` | the tester's automated mode: five streams with deadlines in one loop |
| `ElfPatch.dfy` | the program-header search and the slice overwrite |

Objects and loops of the source are classes and loops here, each tied to a specification function; what the source
promises is then proved about that function. The concurrent parts are step relations: a state, the steps enabled in
it, and `Runs`, which says that a list of steps leads from one state to another. "Every run" means every such list.

## Assumptions

- The COBS decoder and its parser (`peripherals/cobs.c` is not part of this model) follow Cheshire and Baker,
  "Consistent Overhead Byte Stuffing", IEEE/ACM Transactions on Networking 7(2), 1999. A frame whose last block is
  cut short is dropped; its buffer is not bounded.
- The protobuf decoder is a function from bytes to frames; the end-to-end results ask only that it inverts the
  serialisation of the messages actually sent.
- The device's side of an update (`can_dfu.c` is not part of this model) is taken from the protocol text at
  tools/dfu_can.py:7-12 and 82-84. It counts the frames it has taken without wrapping, takes only the frame that is
  next, answers a REQUEST by starting afresh, answers every 32nd frame and a COMMIT whose CRC fits with OK, and a
  COMMIT whose CRC does not fit with CRC_FAIL. It does not compare what it has with the size in the REQUEST, which the
  text does not ask for. Any other error answer may come at any time (`Complain`).
- The test button's handler is not re-entered while it sleeps (`test_button` is not part of this model).
- Times are whole milliseconds; the tester and the tool use floating-point seconds.

## Where the code and its documentation disagree

The model follows the code.

- `frame_counts` is called "enqueue counts" (src/can_converter_frames.h:20), but every `send_*` counts its attempt
  even when the queue is full (src/can_converter_frames.c:22-24 and 41-42). `Rates` and `Periodic` count attempts.
- The same header says the counts are written by the periodic thread only and read for a 10 s report; the test button
  also writes them (src/can_converter_can.c:327-338), and the report comes every 100 active ticks, nominally 1 s.
- A frame with an unknown tag stores nothing but is still counted as received (src/can_converter_rs485.c:81-89).
- tools/dfu_can.py:82 refers to a batch size in `can_converter_dfu.h`, which does not define one.
- An image of more than 65536 data frames is not refused at the start: the tool sends 65536 frames and then fails
  packing the next number (tools/dfu_can.py:110-111). `DfuHost.WhichFit` says which images fit.

## Results that came out as conditions

- ACKs prove frames exactly if the bus copies no REQUEST and no OK answer, or there is no full batch
  (`DfuBadBus.WhenAcksMeanFrames`). `DfuBadBus.CopiedOkFools` and `DfuBadBus.CopiedRequestFools` are the runs in which
  one copy is enough; `DfuFaults.AcksProve` is the account that holds whatever is copied.
- Reported success means a committed image exactly under the same condition on copies
  (`DfuBadBus.WhenSuccessMeansCommitted`, with `DfuBadBus.CopiedOkSucceeds` and `DfuBadBus.CopiedRequestSucceeds`).
- Reported success does not mean that the device holds the image, even without copies: the device checks the CRC but
  nothing asks for the frames after the last full batch. The image 9D 0A D9 6D has the CRC of an empty one, so its one
  data frame can be lost and nothing is committed in its place (`DfuBadBus.EmptyImageCommitted`). Without copies the
  exact condition is on the image alone: none of its prefixes that lack only frames of the last, incomplete batch has
  its CRC (`DfuBadBus.WhenSuccessMeansWholeUncopied`); `DfuBadBus.WhenSuccessMeansWhole` gives the condition for any
  number of copies.
- The transmit thread's success counter is right at every loop head exactly if timeouts cannot happen or late
  callbacks cannot (`LateCallbacks.WhenCountIsRight`; `TxPath.ExactUnlessLate` for any number of timeouts). One timeout
  is enough for the counter to be off by any number, in either direction, with every callback in
  (`LateCallbacks.OffByAnything`). A callback that comes when the thread is done with its frame finds the frame counted
  or not, for good: if it disagrees, the frames counted are never again just those that succeeded
  (`TxPath.LateVerdictStands`). Their number may come out right all the same, when two mistakes cancel
  (`LateCallbacks.LateCallbackMiscounts`), and a late callback may agree by chance, when the frame was counted on a
  token left over from another (`LateCallbacks.LateSuccessCanFit`).
- A stream of the tester is on time at every pass exactly if no pass lets two of its deadlines fall due
  (`SenderSchedule.OnTimeWhen`).
- Three frames per tick is the exact threshold for the transmit queue: `Backlog.BacklogBound` and
  `Backlog.TwoPerTickDrops`.
- Whether the ELF patch keeps the length of the file is `ElfPatch.LengthKept`.

## Model

| member | source | states |
|---|---|---|
| Cobs.CobsEncode | tools/rs485_tester.py:26-49 | the encoder's loop over `block_start` and `code` produces the block-by-block encoding of its whole input |
| Cobs.EncodeBlocks | tools/rs485_tester.py:26-49 | block by block: up to 253 non-zero bytes are closed by a zero or by the end under code n + 1, and 254 of them under code 255 without one |
| Cobs.DecodeEncode | tools/rs485_tester.py:26-49 | decoding undoes encoding, for every byte string |
| Cobs.EncodeZeroFree | tools/rs485_tester.py:26-49 | no zero byte in an encoding, and an encoding is never empty, so the delimiter is unambiguous |
| Cobs.EncodeInjective | tools/rs485_tester.py:26-49 | different data have different encodings |
| Cobs.EncodeLength | tools/rs485_tester.py:38-44 | the length is exactly n + 1 + the number of completed 254-byte runs, also for a run that ends the input or stands before a zero |
| Cobs.EncodeLengthBound | tools/rs485_tester.py:26-49 | hence at most n + 1 + n/254 bytes |
| CobsStream.CobsParser.FeedByte | src/can_converter_rs485.c:104-106 | the parser object goes through the states of the byte-fed decoder and delivers what that delivers |
| CobsStream.ByteFedIsBatch | src/can_converter_rs485.c:93-106 | on every stream, feeding byte by byte delivers exactly the frames of cutting at the delimiters and decoding each piece |
| CobsStream.PacketsDoNotMatter | src/can_converter_rs485.c:98-106 | parser state kept across packets makes every way of cutting the stream into packets equivalent |
| CobsStream.WireDelivers | tools/rs485_tester.py:205-207 | messages encoded and sent with two delimiters each come out complete, in order, and leave the parser at rest |
| CobsStream.WireInjective | tools/rs485_tester.py:205-207 | two lists of messages never look the same on the line |
| CobsStream.TwoDelimitersEach | tools/rs485_tester.py:205-207 | all zero bytes on the line are delimiters, and there are two for each message |
| CobsStream.Resynchronises | src/can_converter_rs485.c:96-106 | from any parser state and after any garbage, one delimiter suffices for every later message |
| CobsStream.LossSpoilsAtMostOne | src/can_converter_rs485.c:96-106 | a receiver that starts in the middle of a message spoils at most that one |
| CobsStream.DoubledDelimiter | tools/rs485_tester.py:207 | the second delimiter is without effect wherever it stands |
| MasterStore.EachIntoItsSlot | src/can_converter_rs485.c:51-85 | kind by kind: a frame changes the slot of its own kind and no other, an unknown tag none |
| MasterStore.FoldKeepsLast | src/can_converter_rs485.c:51-85 | after any frames each slot holds the last content of its kind, or is untouched if there was none |
| MasterStore.FlagsOnlyRise | src/can_converter_rs485.c:51-79 | a validity flag never goes back to false |
| Receiver.Rs485Receiver.OnFrame | src/can_converter_rs485.c:38-90 | each payload goes into the field of its own kind and sets its flag, of an operating state only the current one is kept, and every other field is as before; an unknown tag is counted only, a frame that does not decode changes nothing; together one step of the fold |
| Receiver.Rs485Receiver.ParserThread | src/can_converter_rs485.c:92-108 | over any packets and timeouts, the nested loop leaves the store, the counter and the parser that the bytes in the packets call for |
| Receiver.ReceiveIsParseAndFold | src/can_converter_rs485.c:38-108 | byte-at-a-time reception equals parsing everything, decoding, folding and counting |
| Receiver.EndToEnd | src/can_converter_rs485.c:38-108 | whatever came before and however the line is cut into packets, after one delimiter every message sent is folded in, in order, and counted |
| Receiver.CleanLine | src/can_converter_rs485.c:92-108 | from power-up the store is exactly the fold of the messages sent, and the counter their number modulo 2^32 |
| Snapshot.SnapshotsAreWhole | src/can_converter_can.c:143-146 | with payloads written and copied word by word and flag by flag in any order and any interleaving the mutex allows, every copy equals the store after a whole number of updates, and copies never go back in time |
| Snapshot.FlagMeansNewest | src/can_converter_rs485.c:49-87 | a true flag in a copy comes with the newest complete payload of its kind, a false one means there was none |
| Snapshot.FlagsNeverGoBack | src/can_converter_can.c:143-146 | a flag seen true in one copy is true in every later one |
| Snapshot.CanCopy | src/can_converter_can.c:143-146 | whenever the lock is free any reader can take a copy, and the copy is the store after all updates so far |
| Snapshot.CanUpdate | src/can_converter_rs485.c:49-87 | whenever the lock is free any frame of the right size, or with an unknown tag, can be applied |
| Snapshot.CanRelease | src/can_converter_rs485.c:49-87 | in every reachable state whoever has the lock can let go of it without the help of the others |
| Snapshot.TornWithoutMutex | src/can_converter_can.c:144 | without the mutex there is an interleaving whose copy holds half of an old payload and half of a new one, marked valid |
| Scheduler.CountersClosedForm | src/can_converter_can.c:123-200 | over every pattern of updates the four counters are remainders of the active ticks in all and since the last update tick |
| Scheduler.TickFollowsSchedule | src/can_converter_can.c:137-207 | each active tick sends exactly the groups whose multiples have come, and an update tick sends nothing |
| Scheduler.ScheduleInOrder | src/can_converter_can.c:148-207 | what is due is queued in the order of the source, kinds without a valid payload left out, and each frame is made from the payload its kind is for |
| Scheduler.ThousandthTick | src/can_converter_can.c:148-207 | the 16 frames of a tick on which everything is due and valid |
| Scheduler.CountersInRange | src/can_converter_can.c:123-126 | the counters stay below 10, 100, 100 and 10, so `uint8_t` never wraps |
| MsgQueue.Ring.PutNoWait | src/can_converter_frames.c:22-24 | the ring takes a frame, at the end, exactly if fewer than 32 wait; otherwise it leaves the queue as it was and says so |
| MsgQueue.Ring.Get | src/can_converter_can.c:98 | the oldest element comes out, the others keep their order |
| MsgQueue.Ring.Purge | src/can_converter_can.c:85 | nothing is left |
| MsgQueue.PutAllKeepsPrefix | src/can_converter_frames.c:22-24 | of a burst, exactly the first frames for which 32 slots have room are queued, in order, and the rest is dropped |
| Backlog.BacklogBound | src/can_converter_can.c:122-207 | if at least three frames, or all there are, leave per tick, nothing is ever dropped and at most 16 wait, for every pattern of updates and valid flags; at most 26 with button presses at least 20 ticks apart |
| Backlog.ThreePerTickSuffice | src/can_converter_can.c:122-207 | in particular for every run in which at least three frames are taken per tick |
| Backlog.PeaksAreReached | src/can_converter_can.c:148-207 | both bounds are attained |
| Backlog.StallFills | src/can_converter_can.c:28 | with all payloads valid and a bus that takes nothing the queue holds exactly 32 frames after 14 ticks with none dropped, and the next tick loses both of its frames |
| Backlog.TwoPerTickDrops | src/can_converter_can.c:148-207 | with all payloads valid and at most two removals per tick, any 100 ticks from any state in range lose at least 17 frames |
| Backlog.TickCost | src/can_converter_can.c:157-206 | the potential argument: a tick queues and saves up at most 2.491 frames' worth, and exactly that when all payloads are there |
| Rates.SentWhenDue | src/can_converter_can.c:148-207 | a pass sends a kind once if its turn has come and its payload is valid, and never otherwise |
| Rates.AttemptsAreFrames | src/can_converter_frames.c:27-55 | the attempts counted for a kind are the frames of that kind the thread tried to queue |
| Rates.Pace | src/can_converter_can.c:157-207 | over any stretch of ticks, frames times period never outruns the active ticks, and keeps step with them when nothing disturbs |
| Rates.MeterIsTrue | src/can_converter_can.c:213-216 | the wrapping counters hold the true number of attempts, now and at the last report |
| Rates.ReportIsTrue | src/can_converter_can.c:216 | the 32-bit difference printed is the true number of attempts since the last report, also across a wrap |
| Rates.ReportedRate | src/can_converter_can.c:195-264 | a report covers exactly 100 active ticks; a kind's rate in it is at most 100, 10, 1, 1 for the four groups under any updates and exactly 100, 10, 1 for the first three if undisturbed; the source prints it for all kinds but the unassigned inputs, whose rate is computed in the model only |
| Periodic.PeriodicThread.Send | src/can_converter_frames.c:15-55 | one `send_*`: the frame is queued if there is room, and its kind counted in any case |
| Periodic.PeriodicThread.Pass | src/can_converter_can.c:133-266 | one turn of the loop, group by group, takes counters, queue and all meters where the tick function says |
| Periodic.PeriodicThread.TestSendAll | src/can_converter_can.c:321-338 | a button press offers the test frames to the queue and counts one of each of nine kinds whatever the flags, one operating state exactly if valid, and no Protium values |
| Periodic.TestFramesInOrder | src/can_converter_can.c:327-338 | these frames in the order of the source, each made from the payload its kind is for, valid or not |
| Periodic.Life | src/can_converter_can.c:122-267 | from power-up, over any sleeps, passes and presses, the object goes through exactly the states the backlog bounds are about, and without presses its meters are the ones the rate results are about |
| TxPath.Conservation | src/can_converter_can.c:83-104 | every attempt was dropped when full, purged, is queued, or was taken, and only one of these; frames are taken in order; all taken frames but the one in hand were offered to `can_send` |
| TxPath.Handshake | src/can_converter_can.c:93-120 | successes counted <= callbacks <= sends accepted <= frames offered <= frames taken, whatever the interleaving |
| TxPath.StaleTokens | src/can_converter_can.c:106-109 | at a loop head the waiting token, the lost tokens and the callbacks still to come are together exactly the timeouts so far |
| TxPath.ExactUnlessLate | src/can_converter_can.c:97-116 | as long as every callback came while the thread was waiting for its frame, at each loop head the semaphore is 0 and the frames counted are those whose callback reported 0, with any number of timeouts |
| TxPath.ExactWithoutTimeouts | src/can_converter_can.c:106-116 | in particular without timeouts: then no callback is late and at most one frame is outstanding |
| TxPath.LateVerdictStands | src/can_converter_can.c:106-116 | a callback that comes when the thread is done with its frame changes nothing about whether the frame is counted, at any later state; if the two disagree the frames counted are never again just those that succeeded, though their number may be right |
| LateCallbacks.WhenCountIsRight | src/can_converter_can.c:106-116 | if so many timeouts and late callbacks can happen, `can_frames_tx_ok` is the number of frames whose callback reported 0 at every loop head if and only if one of the two numbers is 0; likewise for which frames those are |
| LateCallbacks.OffByAnything | src/can_converter_can.c:106-116 | for every integer there is a run with one timeout and no callback outstanding in which the counter is off by it |
| LateCallbacks.LateCallbackMiscounts | src/can_converter_can.c:106-116 | a run with one timeout that counts a frame whose callback failed, in place of one that succeeded |
| LateCallbacks.LateSuccessCanFit | src/can_converter_can.c:106-116 | a run in which a late success agrees with the count, because the frame was counted on another frame's token |
| TxPath.PurgeIsFinal | src/can_converter_can.c:83-87 | after a bus-off purge no earlier frame reaches the driver, except at most the one already in hand, and that one first |
| TxPath.RecoveryNeverForgotten | src/can_converter_can.c:54-63 | from a bus-off until an attempt has started after it and succeeded, the work is pending or running, over every run |
| TxPath.RecoverySettles | src/can_converter_can.c:54-63 | once an attempt that no bus-off has interrupted succeeds, nothing is pending or running until the next bus-off |
| TxPath.RecoveryWhenOwed | src/can_converter_can.c:54-87 | in every reachable state the work is pending or running if and only if a bus-off is unanswered |
| TxPath.CanRecover | src/can_converter_can.c:54-63 | in every reachable state recovery can be completed without any other thread |
| TxPath.CanReachLoopHead | src/can_converter_can.c:97-120 | the transmit thread gets back to its loop head without any callback |
| TxPath.CanSendAll | src/can_converter_can.c:97-120 | from any loop head, whatever has gone wrong before, everything queued can be sent in order and counted |
| Broadcast.FramesAreNewest | src/can_converter_can.c:143-207 | when each tick works on a snapshot, every frame the thread tries to queue carries the last complete payload of its kind after some number of updates, and those numbers never go down |
| Broadcast.OfferedAreNewest | src/can_converter_can.c:97-104 | so does every frame offered to the driver, whatever was dropped or purged: a later one never carries an older payload |
| Broadcast.SenderToBus | src/can_converter_rs485.c:38-108 | on a clean line, each frame offered to the driver carries the content of the last message of its kind among the first so many messages sent, and later frames never go back |
| Crc.CheckValue | tools/dfu_can.py:152 | the register computes the customary check value of CRC-32 |
| Crc.AnyChunking | tools/dfu_can.py:143-152 | carried through any chunks, the CRC is that of the whole |
| Crc.BurstDetected | tools/dfu_can.py:152 | two images whose bits differ only within 32 consecutive ones, wherever these lie in the bytes, have different CRCs |
| Crc.FourBytesDetected | tools/dfu_can.py:152 | in particular two images of equal length that differ only within four consecutive bytes |
| DfuHost.WaitResponse | tools/dfu_can.py:92-102 | polling in slices of 100 ms finds just what one uninterrupted wait finds, at the same time |
| DfuHost.WaitFinds | tools/dfu_can.py:92-102 | that wait finds the first extended frame 0x7E2 that is not empty, skipping all others, exactly if it arrives by the deadline and the frame before it arrived earlier than that |
| DfuHost.WaitFindsNone | tools/dfu_can.py:102 | without such a frame it times out, not before the deadline |
| DfuHost.SendImage | tools/dfu_can.py:142-175 | the data loop sends the chunks with their numbers, carries the CRC of what it has sent, waits after every 32nd frame, pauses after each, and ends where the specification does, which the rows from `ChunkSize` to `UpdateTakes` are about |
| DfuHost.RunDfu | tools/dfu_can.py:120-191 | the tool's three steps with their waits leave dialogue, clock, inbox and outcome as specified, and the dialogue is the full one or that up to where it broke off |
| DfuHost.UpdatingExplained | tools/dfu_can.py:135-187 | whatever arrives and whenever, the outcome says where the dialogue ended: complete, refused, timed out, or a number that did not fit |
| DfuHost.DoneMeans | tools/dfu_can.py:143-187 | a finished update sent exactly the image in ceil(size/6) frames of up to 6 bytes numbered from 0, its CRC, and read exactly 2 + N/32 answers, all 0 |
| DfuHost.BrokeOff | tools/dfu_can.py:135-187 | one that is refused or times out was in order up to a point where an answer was due, and was refused by a status other than 0 |
| DfuHost.PackErrorMeans | tools/dfu_can.py:104-112 | one whose numbers do not fit has an image of more than 393216 bytes, and has sent the first 65536 frames of it in order, or nothing if the size does not fit either |
| DfuHost.OpenAndClose | tools/dfu_can.py:135-187 | the full dialogue opens with the size, closes with the CRC, both answered, and has 4 + N + N/32 events |
| DfuHost.FrameAt | tools/dfu_can.py:148-172 | data frame k is event 2 + k + k/32 and carries bytes 6k to 6k + 6; an answer comes next if and only if k + 1 is a multiple of 32 |
| DfuHost.ChunkSize | tools/dfu_can.py:122-153 | there are (size + 5)/6 data frames, and frame k carries bytes 6k to 6k + 6, the last one what is left |
| DfuHost.Window | tools/dfu_can.py:148-172 | at every point of the dialogue at most 32 data frames are unacknowledged, and none precedes the first answer |
| DfuHost.WhichFit | boards/hydrogreen/can_converter/can_converter.dts:188-195 | images up to 393216 bytes fit the 16-bit numbers and no others; a 234 KiB slot is within that |
| DfuHost.RequestHeard | tools/dfu_can.py:133-138 | the answer to the REQUEST is heard if and only if it comes within 15 s; otherwise the update ends there |
| DfuHost.BatchHeard | tools/dfu_can.py:167-172 | that to a full batch if and only if it comes within 5 s |
| DfuHost.CommitHeard | tools/dfu_can.py:183-187 | that to the COMMIT if and only if it comes within 10 s |
| DfuHost.PromptUpdate | tools/dfu_can.py:120-187 | if all answers are there and OK, the update of every image that fits is completed, takes just its N pauses, and leaves further answers unread |
| DfuHost.UpdateTakes | tools/dfu_can.py:174-175 | a finished update has paused after each of its N data frames |
| DfuProtocol.NothingLost | tools/dfu_can.py:120-187 | on a faultless bus, over every interleaving, device image plus payloads in flight are the bytes sent so far, at most 32 frames are in flight, and success means the device holds exactly the image |
| DfuProtocol.NoDeadlock | tools/dfu_can.py:120-187 | tool and device never wait for each other |
| DfuProtocol.StepDecreases | tools/dfu_can.py:120-187 | every faultless step brings the end nearer |
| DfuProtocol.Delivers | tools/dfu_can.py:120-187 | a faultless run has at most 3(N + 2) steps, and one that cannot go on has delivered the image |
| DfuProtocol.Completes | tools/dfu_can.py:120-187 | from every such state the update can still be completed |
| DfuFaults.HostIsTheTool | tools/dfu_can.py:120-187 | whatever the bus does, the process's log is that of the tool: complete on success, up to the refusal, up to where it waits, or up to the number that does not fit |
| DfuFaults.AlwaysAPrefix | tools/dfu_can.py:110-112 | with frames lost, duplicated and reordered, the device's image is always a prefix of the tool's, and a committed one has its CRC |
| DfuFaults.AcksProve | tools/dfu_can.py:80-85 | every ACK passed, also by a tool that is refused later, is accounted for by 32 frames accepted, a REQUEST served again, or a copied OK |
| DfuFaults.SuccessProves | tools/dfu_can.py:183-187 | without copied REQUESTs and OKs, success proves a committed image with the right CRC and all full batches |
| DfuBadBus.WhenAcksMeanFrames | tools/dfu_can.py:163-172 | on a bus that may copy so many REQUESTs and OKs, k ACKs always mean 32k frames accepted if and only if both numbers are 0 or no full batch is ever sent |
| DfuBadBus.CopiedOkFools | tools/dfu_can.py:167-172 | one duplicated OK lets the tool pass a batch of which the device took nothing |
| DfuBadBus.CopiedRequestFools | tools/dfu_can.py:135-138 | so does one duplicated REQUEST |
| DfuBadBus.WhenSuccessMeansCommitted | tools/dfu_can.py:183-187 | success always means a committed image if and only if neither may be copied, or the image cannot be sent at all |
| DfuBadBus.CopiedOkSucceeds | tools/dfu_can.py:184-187 | with one duplicated OK any image that fits can be reported as updated although the COMMIT was lost, with nothing at all on the device if it has no full batch |
| DfuBadBus.CopiedRequestSucceeds | tools/dfu_can.py:184-187 | so it can with one duplicated REQUEST, which comes late and empties the device |
| DfuBadBus.WhenSuccessMeansWhole | tools/dfu_can.py:143-187 | success always means that the device holds the image if and only if the image cannot be sent, is empty, or no REQUEST may be copied and no shorter prefix slips through: one whose missing batch ACKs, and answer to the COMMIT unless its CRC fits, the copied OKs make up for |
| DfuBadBus.WhenSuccessMeansWholeUncopied | tools/dfu_can.py:143-187 | without copies: if and only if no prefix lacking only frames of the incomplete last batch has the CRC of the image |
| DfuBadBus.LossIsNoticed | tools/dfu_can.py:183-187 | where losing frames of the last batch does change the CRC, the update can end with status 1, and the device commits nothing |
| DfuBadBus.EmptyImageCommitted | tools/dfu_can.py:152-187 | a four-byte image whose update can report success with an empty image committed, one data frame lost and nothing copied |
| DfuBadBus.TakenOnce | tools/dfu_can.py:110-112 | a data frame that arrives twice is taken once |
| DfuBadBus.LostAnswer | tools/dfu_can.py:137 | a lost answer leaves the tool waiting with nothing on the bus and the device ready |
| DfuBadBus.ComplaintOvertakes | tools/dfu_can.py:137-139 | any other status that overtakes the OK ends the update with it |
| SenderSchedule.RunAutomatedMode | tools/rs485_tester.py:210-253 | the loop over five deadlines writes exactly the messages of the schedule, encoded and delimited, also when an interrupt ends it between two streams of a pass |
| SenderSchedule.NoDrift | tools/rs485_tester.py:220-249 | the next deadline is always start + (sends + 1) intervals, however late the passes |
| SenderSchedule.NthSend | tools/rs485_tester.py:228-251 | the n-th send is no earlier than start + n intervals, and there is at most one in a pass |
| SenderSchedule.NeverAhead | tools/rs485_tester.py:228-251 | sends by time t never exceed (t - start) / interval, rounded down |
| SenderSchedule.OnTimeWhen | tools/rs485_tester.py:228-251 | a stream has sent all that is due at every pass if and only if no pass lets two deadlines fall due |
| SenderSchedule.CloseEnough | tools/rs485_tester.py:228-251 | it has in particular if passes are never further apart than its interval |
| SenderSchedule.CatchesUp | tools/rs485_tester.py:228-251 | missed deadlines are made up, one per pass, until none is left |
| SenderSchedule.MessagesSent | tools/rs485_tester.py:210-253 | a session of t ms has at most t/25 measurements, t/100 statuses, faults and operating states, and t/1000 Protium values, and exactly as many if passes are never more than 25 ms apart |
| SenderSchedule.AllDue | tools/rs485_tester.py:227-249 | a pass in which all streams are due sends measurements, status, faults, operating state, Protium values, in this order |
| SenderSchedule.StreamsIndependent | tools/rs485_tester.py:228-251 | the messages of a kind in the session are exactly those the stream sends alone, pass by pass and in order |
| SenderSchedule.StoreIsFilled | tools/rs485_tester.py:205-251 | from the tester's loop to the converter's store: a stream whose first deadline has come has its slot filled with its last message |
| ElfPatch.ElfFile.Patch | tools/patch_elf_mcuboot_header.py:16-36 | the search patches the first loadable segment with room and nothing else, or leaves the file alone |
| ElfPatch.FindsOne | tools/patch_elf_mcuboot_header.py:22-36 | the search has one outcome |
| ElfPatch.FieldsAre | tools/patch_elf_mcuboot_header.py:16-24 | which bytes the search goes by, as little-endian numbers: table offset, entry size and count in the header, type 1, offset and file size in an entry of at least 20 bytes |
| ElfPatch.BytesOf0x1234 | tools/patch_elf_mcuboot_header.py:16-19 | the least significant byte comes first |
| ElfPatch.LengthKept | tools/patch_elf_mcuboot_header.py:26 | the slice assignment keeps the length of the file exactly when the header is as long as the part of the range inside the file |
| ElfPatch.OnlyTheRange | tools/patch_elf_mcuboot_header.py:26 | a full header inside the file replaces its range and no other byte |
| ElfPatch.PatchTwice | tools/patch_elf_mcuboot_header.py:16-29 | if the range misses what the search reads, patching twice is patching once |

## Left out

- Broadcast.SenderToBus: without test-button presses, whose frames carry payloads that may never have been received; and on a clean line (`Receiver.EndToEnd` covers a line that was not).
- Rates.ReportedRate: covers traces without test-button presses, because the button's handler increments the same counters from another thread without synchronisation.
- Periodic.PeriodicThread.TestSendAll: takes a press as one uninterrupted burst; lost increments of the shared counters between the two threads are not modelled.
- Backlog.BacklogBound: frames leave the queue between passes; removals in the middle of a burst, and bus-off purges, would only shorten the backlog.
- DfuHost.RunDfu: the bus adapter's errors, the progress output and the division by elapsed time in it (which only an empty image could upset, and `main` refuses one) are not modelled.
- DfuProtocol.NothingLost: the tool's timeouts appear only as a tool that takes no further step; timing on the device's side is not modelled.
- SenderSchedule.RunAutomatedMode: an interrupt in the middle of writing one message, which leaves a frame cut short, is not modelled (`CobsStream.Resynchronises` says what that costs); times are integer milliseconds.
- ElfPatch.PatchTwice: nothing is said about a segment that overlaps the ELF header or the program-header table.
- The rates of received RS485 frames and of successful CAN transmissions in the report: the same wrapping subtraction as for the frame kinds.
- Protobuf encoding and decoding, and the scaling and packing of signals into CAN frames: the code that does it is generated or not in the repository; a CAN frame carries its kind and the values it is made from.
- The field-by-field mappings of the `send_*` functions and of the digital inputs: one-branch facts.
- The length check and the identifier handling in `enqueue_frame`: every length is a compile-time constant within the frame's eight bytes.
- The byte layout of the three update frames: a frame carries its kind and its numbers, and a number too large for its field is an outcome (`PackError`).
- The RS485 driver's packet queue, DMA and idle timeout: packets are taken as they come out of the queue.
- LEDs, the status LED's meaning, logging, GPIO, watchdog and thread priorities.
- `send_mcu_time_sync`: nothing in the periodic thread calls it.
- The interactive menus, the message contents made up by the tester, the bus listening and flashing scripts, and board files.
