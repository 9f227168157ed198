# A verified model of the Go-Back-N file sender and the library code under it

The program sends a file over UDP with a Go-Back-N window. Three threads (the sender, the
receiver of acknowledgements, the timer callbacks) share a few integers and an array of slots,
all indexed modulo `M = 10^max_seq_number`; one chunk of the file can go round that space many
times. The packets carry an MD5 digest made by the bundled digestpp library, and the program
uses asio. The model covers three parts.

**The sender** (`src/`). `Window.dfy` is the window code as functions on its fields, in small
steps between two lock acquisitions and in whole handlers; `Sending.dfy` is the `ClientSender`
object itself, with packets and timers as objects in an array and in a queue, each method proved
equal to the function of the same name. `GoBackN.dfy` is the protocol with unbounded packet
numbers that the code is meant to implement. `Refinement.dfy` relates the two step by step,
`Transfer.dfy` for whole runs of atomic handlers with timers and chunks, `Interleaving.dfy` for
runs in which the handlers are split at every mutex-protected access. `Packets.dfy`,
`Timers.dfy`, `Rtt.dfy` and `Feeding.dfy` are the packet text, the one-shot timer, the
round-trip estimate and the reading and cutting of the file; `Delivery.dfy` joins everything:
from what a finished run, interleaved or not, has put on the wire, a receiver that sees nothing
else recovers what was read of the file.

**The hashing** (`lib/digestpp-master`). `Streaming.dfy` is the block buffering all hashes share;
`Md5.dfy` and `Blake2.dfy` are built on it and compared with RFC 1321 and RFC 7693; `Skein.dfy`
is the output stream of Skein, `Shake.dfy` the integer encodings and prefix of cSHAKE (NIST SP
800-185).

**asio's `basic_streambuf`** (`StreamBuf.dfy`) as a bounded queue in one array.

## Assumptions and readings of the code

- `0 < window < M` (`Window.Config.Ok`). The code does not check it; the wrap-around tests and
  the reuse of slots rely on it.
- `packet_size > 0`, a positive chunk size, and for the packet texts 1 to 9 digits per sequence
  number (`Delivery.FitsInt`), so that `M` fits an `int`. The code checks none of these either; the
  packet size and the number of digits come from the command line, and it divides by the former at
  `src/ClientSender.cpp:63`.
- Acknowledgements may be lost or repeated, and one may stand for all packets before it, but
  they name packets already sent and arrive in the order of their packets (`Transfer.Allowed`,
  `Interleaving.Allowed`). `Transfer.LateAck` says exactly when an acknowledgement that comes too
  late does harm, `Transfer.LapLateAck` what one does that is more than a lap late, and
  `Transfer.LateAckReachable` gives a run in which it happens.
- The code takes a round-trip sample in two locked steps, the look at the flag and the taking of
  the time. `Interleaving.MeasuredOnce` says what holds at each, `Interleaving.TimeExact` when the
  packet is still on the wire only once at the second, and `Interleaving.MeasuredTwice` is a run
  in which it is there twice.
- `sendChunk` has no `return true` at its end (`src/ClientSender.cpp:185-188`), although the loop
  at line 219 needs it; the model returns true.
- The third argument of `Timer`'s constructor is `delta_check_ms`, while `startTimeout` passes
  its `detach` flag there (`src/Timer.h:42`, `src/Timer.h:131`). Neither has an effect on the
  thread's steps, and both are left out.
- A timer's expiry, a wake-up and the arrival of a datagram are events that may happen at any
  moment; clock readings are parameters of the events.
- In runs of atomic handlers a fired timer's callback and its return are one event.
- The texts on the wire are recorded in order; the empty datagrams of `endConnection` are counted
  apart. The digest of a payload is any function into 32 characters.
- The constructor's file size is an `int`: the whole file is read exactly when its length is at
  most 2^31 - 1 (`Feeding.PlanCoversFile`). Of a longer file as many characters are read as its
  length is as an `int`, none if that is negative; but if it is minus a chunk or less there is no
  planned end, and zeros are read behind the end of the file (`Feeding.RunawayExact`,
  `Feeding.InsideExact`, and `Feeding.LongFiles` for the program's chunks of 2^18 characters). The
  theorems on delivery cover all of these, as far as the chunks read can be counted in an `int`.
- The acknowledgement handler can stop a timer that does not exist (`src/ClientSender.cpp:272`), and
  so dereference an empty pointer. `Interleaving.FaultExact` is the exact condition,
  `Interleaving.EmptyTimerStopped` a run in which it happens. It needs the handlers interleaved:
  `Transfer.RunRefines` excludes it when they are atomic.
- Skein: a first request for no bytes leaves the counter behind for good; `Skein.SplitExact` is
  the exact condition. cSHAKE: a prefix that ends at a block boundary gets one more block of
  zeros than the standard's `bytepad`; `Shake.PrefixLength` is the exact condition, and
  `Shake.AlignedNames` such names.
- BLAKE2 keeps its byte count as bits in 64 bits: the last block's counter is right exactly for
  fewer than 2^61 bytes (`Blake2.Provider.Final`).
- `basic_streambuf`: a `reserve` that throws has already moved the characters but not the
  positions, contrary to what a reader of its documentation would expect;
  `StreamBuf.ThrowKeepsContents` is the exact condition under which the contents survive, and
  `StreamBuf.ThrowDoesDamage` a sequence of calls after which they do not. `commit` and `consume`
  move their position by an `int`, which is right exactly up to 2^31 - 1 characters.

## Model

| member | source | states |
|---|---|---|
| `Interleaving.RunKeeps` | src/ClientSender.cpp:85-300 | in no interleaving, each mutex-protected access being a step, is an empty slot dereferenced, and the invariant relating the fields to unbounded counters and the chunks always holds |
| `Interleaving.WindowSafety` | src/ClientSender.cpp:106-162 | in every reachable state `N <= B + W` and `B <= N + 1`, the fields being `B` and `N` modulo `M`; `B = N + 1` only between transmission and increment |
| `Interleaving.TestKeeps` | src/ClientSender.cpp:85-97 | a window test passed on a base read earlier still holds for the present base |
| `Interleaving.MarkItKeeps` | src/ClientSender.cpp:292-294 | the slot read again to mark the acknowledgement still contains the acknowledged packet |
| `Interleaving.TimeoutExact` | src/ClientSender.cpp:149-160 | whatever acknowledgements interleave, a finished retransmission loop has put exactly the packets from the base it read to the last one sent on the wire, once each and in order |
| `Interleaving.OrderKept` | src/ClientSender.cpp:106-162 | in every interleaving packets are first transmitted in order, each with its own text, and one no timeout repeated is on the wire once |
| `Interleaving.BarrierSafety` | src/ClientSender.cpp:175-187 | in every interleaving, once the packets of `chunks[done]` are sent, the wait that compares the count with the size of that chunk is left exactly when every packet is acknowledged and counted; until the reset nothing can change the count |
| `Interleaving.WaitExact` | src/ClientSender.cpp:178-183 | the count equals the size of the chunk exactly when every packet of the chunk is acknowledged and counted |
| `Interleaving.FinishedDelivered` | src/ClientSender.cpp:218-223 | when the sender has finished, in any interleaving, all packets of all chunks were put on the wire, first transmissions in order, and are acknowledged |
| `Interleaving.FaultExact` | src/ClientSender.cpp:265-277 | in every interleaving the handler stops a timer that does not exist exactly if there has been none and it has read 1 as the next number; it is then the first acknowledgement, of packet 0 |
| `Interleaving.OnlySettleFaults` | src/ClientSender.cpp:195-206 | no other access dereferences an empty timer, and none does once there has been a timer |
| `Interleaving.EmptyTimerStopped` | src/ClientSender.cpp:132-135 | an allowed run in which the sender starts no timer because the base has already moved, and the handler then stops none |
| `Interleaving.MeasuredOnce` | src/ClientSender.cpp:252-261 | in every interleaving a sample is of a packet transmitted exactly once when its flag was read (section 3 of RFC 6298), and still when the time is taken exactly unless a timeout has sent it again in between; the estimate is the average over the samples |
| `Interleaving.ReadFlagKeeps` | src/ClientSender.cpp:252 | a packet whose flag is found clear has been transmitted exactly once |
| `Interleaving.TimeExact` | src/ClientSender.cpp:253-258 | when the time is taken the packet has been transmitted once exactly if its flag is still clear, or was set by a handler that has not yet sent it again |
| `Interleaving.MeasuredTwice` | src/ClientSender.cpp:149-160 | an allowed run in which a packet whose flag was found clear is on the wire twice when its time is taken |
| `Interleaving.EstimateBounded` | src/ClientSender.cpp:252-261 | in every interleaving the estimate stays between the least and the greatest of 1000 and the samples |
| `Interleaving.Quiescent` | src/ClientSender.cpp:85-300 | with no handler under way the fine-grained invariant is the relation of the atomic handlers and the place in the chunks, in both directions |
| `Interleaving.SendUninterrupted` | src/ClientSender.cpp:106-137 | nine or ten steps that nothing interrupts are the atomic send of the next packet of the chunk; when the window is full three steps change nothing |
| `Interleaving.AckUninterrupted` | src/ClientSender.cpp:236-300 | the steps of an acknowledgement that nothing interrupts are the atomic one |
| `Interleaving.LoopUninterrupted` | src/ClientSender.cpp:149-162 | the uninterrupted retransmission loop ends and resends what the atomic one does |
| `Refinement.CanAdvanceExact` | src/ClientSender.cpp:85-97 | `canAdvance` is true exactly when `N < B + W`, across any number of wrap-arounds |
| `Refinement.InResendExact` | src/ClientSender.cpp:154 | the loop condition holds exactly while the index is that of an outstanding packet |
| `Refinement.LoopIndicesExact` | src/ClientSender.cpp:149-154 | the circular loop visits the slots of exactly `B .. N-1`, in order, and ends |
| `Refinement.CountDeltaExact` | src/ClientSender.cpp:285-290 | the two cases of the count give the number of packets from the last acknowledged one, also across the wrap |
| `Refinement.StoreKeeps` | src/ClientSender.cpp:122 | a new packet overwrites only the packet a whole lap behind it |
| `Refinement.TransmitKeeps` | src/ClientSender.cpp:123-127 | putting the stored packet on the wire is the first transmission of the next packet number |
| `Refinement.MarkKeeps` | src/ClientSender.cpp:156-158 | marking a slot resent marks the outstanding packet that slot contains |
| `Refinement.RepeatKeeps` | src/ClientSender.cpp:159 | what is resent is the original text of the packet the loop is at |
| `Refinement.SampleKeeps` | src/ClientSender.cpp:252-261 | the estimate changes by the sample of the acknowledged packet, unless it was resent |
| `Refinement.TakeSampleKeeps` | src/ClientSender.cpp:253-258 | taking the time of a packet transmitted once when its flag was read keeps the estimate the average over all samples |
| `Refinement.SetBaseKeeps` | src/ClientSender.cpp:348-352 | the new base is the number after the acknowledged packet, modulo `M` |
| `Refinement.CountKeeps` | src/ClientSender.cpp:285-294 | counting keeps the count equal to the packets acknowledged in this chunk and marks the right slot |
| `Refinement.ChunkKeeps` | src/ClientSender.cpp:191-193 | setting the count to 0 when all is acknowledged keeps it in step with the next chunk |
| `Refinement.AckCoreBase` | src/ClientSender.cpp:265-270 | after a new acknowledgement base equals next exactly when nothing is outstanding |
| `Transfer.RunRefines` | src/ClientSender.cpp:85-300 | every run of atomic handlers, with any number of wrap-arounds, is a run of Go-Back-N with unbounded packet numbers, and dereferences no empty slot or timer |
| `Transfer.StepRefines` | src/ClientSender.cpp:85-300 | every event keeps the relation; the sender thread is blocked exactly when the protocol is |
| `Transfer.WindowInEveryRun` | src/ClientSender.cpp:85-97 | in every run `B <= N <= B + W`, base, next and last acknowledged are `B`, `N`, `B-1` modulo `M`, the count is `B` less the first packet of the chunk, and `canAdvance` is exact |
| `Transfer.TimersInEveryRun` | src/ClientSender.cpp:195-206 | in every run at most the current timer is armed, each timer calls at most once, and while packets are outstanding a timer is armed or a handler pending |
| `Transfer.SendRefines` | src/ClientSender.cpp:106-137 | a send succeeds exactly when fewer than `W` packets are outstanding and is then the protocol's send |
| `Transfer.SendTimers` | src/ClientSender.cpp:132-134 | a send with packets outstanding leaves every timer as it was; one without queues the old timer, its flag set, and starts one that waits the estimate |
| `Transfer.TimeoutResends` | src/ClientSender.cpp:140-162 | a timeout puts exactly the texts of `B .. N-1` on the wire, once each, in order, with the original payloads, at most `W` of them |
| `Transfer.TimeoutRefines` | src/ClientSender.cpp:140-162 | the timeout handler finds all slots it looks into filled, changes no counter and leaves a timer armed |
| `Transfer.TimeoutTimers` | src/ClientSender.cpp:161 | a timeout queues the old timer, its flag set, and leaves a new one that waits the estimate |
| `Transfer.AckRefines` | src/ClientSender.cpp:236-300 | an acknowledgement, cumulative or repeated, moves the base as in the protocol and leaves a timer armed unless nothing is outstanding |
| `Transfer.AckTimers` | src/ClientSender.cpp:236-277 | a repeated acknowledgement only drops empty and finished timers from the front of the queue; a new one also stops the timer if nothing is left outstanding, so that none is armed, and otherwise starts one that waits the new estimate |
| `Transfer.LastAckStopsTimer` | src/ClientSender.cpp:270-272 | in every run, after the first acknowledgement of the last packet sent no timer is armed |
| `Transfer.RoundTripMeasured` | src/ClientSender.cpp:252-261 | in every run the first acknowledgement to reach a packet, naming it, moves the estimate an eighth of the way to the time since that packet was sent, if it was transmitted once, and else leaves it |
| `Transfer.CountersAreEvents` | src/ClientSender.cpp:265 | in every run the base is one more than the greatest packet acknowledged, and the start times are those of the sends |
| `Transfer.BarrierRefines` | src/ClientSender.cpp:175-187 | the chunk wait releases exactly when every packet of the chunk is acknowledged, and the reset loses nothing |
| `Transfer.ChunkEndCleans` | src/ClientSender.cpp:185-186 | past the wait the queue of timers is cleaned, the count is 0, and nothing else has changed |
| `Transfer.FinishRefines` | src/ClientSender.cpp:218-230 | the thread ends only when nothing is outstanding |
| `Transfer.EndInEveryRun` | src/ClientSender.cpp:220-230 | in every run the connection is closed once at the end and once for every later acknowledgement, and after the end no timer is armed |
| `Transfer.DuplicateAckInert` | src/ClientSender.cpp:247-250 | repeating the last acknowledgement changes neither base, count, last acknowledged, estimate nor any live timer, however much was sent or resent since |
| `Transfer.LateAck` | src/ClientSender.cpp:247-265 | an acknowledgement for an overtaken packet still in its slot leaves the base in place exactly when that packet had been named before; otherwise the base moves back |
| `Transfer.LapLateAck` | src/ClientSender.cpp:247-265 | one more than a lap late is taken as naming the newest packet with its sequence number, which is then wrongly taken as acknowledged unless it is behind the base |
| `Transfer.LateAckReachable` | src/ClientSender.cpp:236-300 | a run of four events after which a late acknowledgement moves the base from 3 to 1 and counts more packets than were sent |
| `Transfer.FinishedMeansDelivered` | src/ClientSender.cpp:218-230 | when the loop has ended every packet of every chunk was put on the wire, first transmissions in order, and acknowledged |
| `GoBackN.ResendIsRange` | src/ClientSender.cpp:149-160 | the protocol's timeout appends the outstanding packets in order to the log and changes nothing else |
| `GoBackN.SendKeepsOk` | src/ClientSender.cpp:122-127 | first transmissions are in order and unrepeated packets appear once in the log |
| `Delivery.FileDelivered` | src/ClientSender.cpp:164-230 | when the send loop has ended, a receiver that sees only the wire recovers what was read of the file, in payloads of 1 to `packet_size` characters, all acknowledged; that is the file exactly when its length fits an `int` |
| `Delivery.FileDeliveredInterleaved` | src/ClientSender.cpp:106-230 | the same for every interleaving of the three threads |
| `Delivery.ReceiverRecovers` | src/ClientSender.cpp:85-162 | taking a text exactly when its number is the next one modulo `M` recovers all payloads in order from whatever sends and timeouts put on the wire |
| `Delivery.PrefixDelivered` | src/ClientSender.cpp:164-188 | at any moment such a receiver has exactly the payloads sent so far, a prefix of what is read of the file |
| `Delivery.PrefixDeliveredInterleaved` | src/ClientSender.cpp:106-230 | the same for every interleaving of the three threads |
| `Delivery.FedIsPrefix` | src/DataProcessor.cpp:22-48 | what is read is a prefix of the file exactly when there is a planned end, or the chunks read are not longer |
| `Delivery.TextReadBack` | src/Packet.h:66-115 | the text of any packet in its slot's number is read back as that number, passes the integrity check and carries the payload |
| `Sending.ClientSender.constructor` | src/ClientSender.cpp:13-35 | the new object is the initial state of the model |
| `Sending.ClientSender.CanAdvance` | src/ClientSender.cpp:85-97 | evaluates the window test on the current indices |
| `Sending.ClientSender.SendPacketReliable` | src/ClientSender.cpp:106-137 | one pass of the wait: sends and changes the fields as the model's atomic send, or changes nothing |
| `Sending.ClientSender.ResendLoop` | src/ClientSender.cpp:149-160 | the in-place loop over the slot array resends what the model's loop does, touching neither base nor timers |
| `Sending.ClientSender.TimeoutHandler` | src/ClientSender.cpp:140-162 | the callback is the model's timeout handler, and does nothing after the end |
| `Sending.ClientSender.AckedPacket` | src/ClientSender.cpp:236-300 | the object's new state is that of the model's acknowledgement, in all its cases |
| `Sending.ClientSender.StartTimeoutTimer` | src/ClientSender.cpp:195-206 | stops the current timer, queues it (or the null), arms a new one with the estimate |
| `Sending.ClientSender.CleanTimers` | src/ClientSender.cpp:209-215 | drops exactly the empty and finished timers at the front of the queue |
| `Sending.ClientSender.ChunkBarrier` | src/ClientSender.cpp:175-193 | released exactly when the count is the chunk's number of packets; then cleans timers and resets the count |
| `Sending.ClientSender.Finish` | src/ClientSender.cpp:220-230 | marks the end, closes the connection and stops the timer |
| `Sending.ClientSender.IncNextSeqNum` | src/ClientSender.cpp:336-339 | next goes up by one modulo `M` |
| `Sending.ClientSender.SetBaseIdx` | src/ClientSender.cpp:348-352 | base becomes the given number modulo `M` |
| `Timers.FireOrCancel` | src/Timer.h:67-106 | however a stop and the expiry interleave, the callback starts at most once, exactly when the thread woke before a stop had set the flag |
| `Timers.Settled` | src/Timer.h:81-93 | once the flag is set the number of calls never changes |
| `Timers.UninterruptedStop` | src/Timer.h:97-106 | `stop()` in its locked pieces, uninterrupted, is the atomic stop |
| `Timers.CleanKeepsCover` | src/ClientSender.cpp:209-215 | cleaning the queue loses no timer that is armed or whose handler still runs |
| `Timers.StartKeepsOk` | src/ClientSender.cpp:195-206 | starting a timer leaves the new one as the only armed one |
| `Timers.WakeKeepsCover` | src/Timer.h:81-94 | a timer that fires becomes a pending handler, so cover is not lost |
| `Timers.TimerObject.Stop` | src/Timer.h:97-106 | the object's stop is the atomic stop, without effect once stopped or finished |
| `Timers.TimerObject.ThreadWakes` | src/Timer.h:81-92 | the thread calls back exactly when the flag was not set |
| `Rtt.NextIsWeighted` | src/ClientSender.cpp:258 | the update is the weighted average with weight 1/8, truncated towards zero, for all integers |
| `Rtt.TruncIs` | src/ClientSender.cpp:258 | the conversion to `int` goes towards zero, by less than one |
| `Rtt.Bounded` | src/ClientSender.cpp:252-261 | the estimate stays between the least and the greatest of the start value and the samples |
| `Rtt.FixedPoint` | src/ClientSender.cpp:258 | a sample leaves the estimate alone exactly when the estimate is not negative and 0 to 7 below it |
| `Rtt.Converges` | src/ClientSender.cpp:258 | a constant sample `s` drives any start value in finitely many steps to a fixed point in `[s-7, s]`, to `s` itself from above |
| `Rtt.Mirror` | src/ClientSender.cpp:258 | negative samples behave as the mirror image of positive ones |
| `Packets.RoundTrip` | src/Packet.h:66-115 | for every `n < 10^d` and payload: the number field has `d` characters, the number is read back, the data check accepts, the text behind the digest is the payload |
| `Packets.FieldWidth` | src/Packet.h:103-107 | the number field has exactly `d` characters precisely when the number has at most `d` digits |
| `Packets.WireInjective` | src/Packet.h:96-115 | two packets with the same text have the same number and payload |
| `Packets.AcceptedAck` | src/Packet.h:66-80 | an acknowledgement is accepted exactly when its first `d` characters are followed by all 32 characters of their digest; the check throws exactly on shorter texts |
| `Packets.AcceptedData` | src/Packet.h:66-80 | in data mode a text is accepted exactly when the 32 characters behind the number are the digest of the rest; the check throws exactly on shorter texts |
| `Packets.ReadIntMeaning` | src/Packet.h:82-89 | blanks are skipped, a sign heeded, what follows the digits ignored, and a value outside `int` becomes its nearest bound |
| `Packets.Packet.GetNumberOfDigits` | src/Packet.h:54-64 | repeated division counts the decimal digits: at most `d` of them exactly below `10^d` |
| `Packets.Packet.GeneratePacketString` | src/Packet.h:96-115 | first and later calls return the same text, and only the cache changes |
| `Feeding.FileConserved` | src/ClientSender.cpp:61-81 | the payloads of all chunks in order concatenate to the file, each with 1 to `packet_size` characters |
| `Feeding.PiecesJoin` | src/DataProcessor.cpp:32-48 | cutting into pieces loses and changes nothing |
| `Feeding.PiecesCount` | src/DataProcessor.cpp:24-26 | the number of pieces is the quotient, plus one if there is a remainder |
| `Feeding.PlanCoversFile` | src/DataProcessor.cpp:6-26 | exactly the whole file is read, and reading stops, exactly when its length fits an `int` |
| `Feeding.TowardsZero` | src/DataProcessor.cpp:24-25 | quotient and remainder give the number back, the remainder being smaller than the divisor and having the number's sign |
| `Widths.ToIntExact` | src/DataProcessor.cpp:9 | the file size is the number congruent to the length modulo 2^32 that fits a signed `int` |
| `Feeding.RunawayExact` | src/DataProcessor.cpp:22-26 | there is no planned end, so that reading does not stop as long as the chunks can be counted in an `int`, exactly when the length as an `int` is minus a chunk or less |
| `Feeding.InsideExact` | src/DataProcessor.cpp:32-48 | reading stays inside the file, as far as chunks can be counted, exactly when there is a planned end or all those chunks are not longer than the file |
| `Feeding.LongFiles` | src/DataProcessor.cpp:6-48 | in chunks of 2^18 characters: of 2^32 + 5 characters 5 are read, of 2^32 - 1 none, and of 2^32 - 2^18 all and then zeros |
| `Feeding.DataProcessor.ReadChunk` | src/DataProcessor.cpp:32-48 | each call reads the next piece into the buffer, and null comes exactly at the end of what is planned; when no end is planned, the file and then zeros |
| `Feeding.DataProcessor.RemainingChunks` | src/DataProcessor.cpp:68-70 | the number of pieces not read yet, or a negative number when there is no planned end |
| `Feeding.GeneratePacketsData` | src/ClientSender.cpp:61-81 | the buffer cut into full payloads and a shorter last one |
| `Feeding.ReadAll` | src/ClientSender.cpp:164-173 | reading and cutting until no chunk remains ends, and gives all payloads of what is planned |
| `Feeding.ReadSome` | src/ClientSender.cpp:164-173 | without a planned end there is another chunk after any number of rounds that can be counted in an `int`, and the payloads are those of the file and then zeros |
| `Streaming.AbsorbBytes` | lib/digestpp-master/detail/absorb_data.hpp:16-39 | from the state after the bytes `x` a call with `data` leads to the state after `x + data`, in the eager and the lazy mode |
| `Streaming.AbsorbAll` | lib/digestpp-master/detail/absorb_data.hpp:16-39 | any split of the input into calls gives the chaining value, buffered bytes, `pos` and `total` of the one-shot call |
| `Streaming.BlocksAreTheInput` | lib/digestpp-master/detail/absorb_data.hpp:19-36 | the compressed blocks concatenate to the input, each of block length and with the number of bytes before it |
| `Streaming.KeptIs` | lib/digestpp-master/detail/absorb_data.hpp:28-38 | what stays buffered is determined by the number of bytes: less than a block, or in lazy mode 1 to a whole block |
| `Streaming.Word64Is` | lib/digestpp-master/detail/absorb_data.hpp:25 | the count of bits is kept modulo 2^64 |
| `Streaming.FlushBuffer` | lib/digestpp-master/detail/absorb_data.hpp:19-27 | filling up the buffer compresses one block and empties it |
| `Streaming.CompressBlocks` | lib/digestpp-master/detail/absorb_data.hpp:28-36 | exactly the whole blocks that need not stay behind are compressed from the input |
| `Md5.HashParts` | lib/digestpp-master/algorithm/detail/md5_provider.hpp:71-92 | for every message in any split into updates the result is the digest of the padded message of RFC 1321 |
| `Md5.Provider.Final` | lib/digestpp-master/algorithm/detail/md5_provider.hpp:77-92 | one or two last blocks complete the padded message of sections 3.1 and 3.2, with the length modulo 2^64 |
| `Md5.EndingIsDigest` | lib/digestpp-master/algorithm/detail/md5_provider.hpp:79-90 | the buffered bytes, the 1-bit, zeros and length in one or two blocks are what remains of the padded message |
| `Md5.FewestZeros` | lib/digestpp-master/algorithm/detail/md5_provider.hpp:81-88 | the zeros are the only number below 64 that brings the length to 56 modulo 64 |
| `Md5.PaddedShape` | lib/digestpp-master/algorithm/detail/md5_provider.hpp:79-90 | what is appended: 0x80, zeros, and the length in bits modulo 2^64 with the low-order byte first, to a multiple of 64 bytes and no further than needed |
| `Md5.WordValue` | lib/digestpp-master/algorithm/detail/md5_provider.hpp:105 | a message word has the value of its four bytes, the first one lowest |
| `Md5.WordsAt` | lib/digestpp-master/algorithm/detail/md5_provider.hpp:105-106 | message word `i` is read at byte `4 * i` of the block |
| `Md5.OutputReadsBack` | lib/digestpp-master/algorithm/detail/md5_provider.hpp:91 | the 16 bytes of the digest, read as words, are the four registers in order |
| `Md5.InitialBytes` | lib/digestpp-master/algorithm/detail/md5_provider.hpp:63-66 | the initial registers are the bytes 01 23 45 67, 89 ab cd ef, ... of section 3.3 |
| `Md5.FeedForward` | lib/digestpp-master/algorithm/detail/md5_provider.hpp:181-184 | after the 64 steps each register has its value from before the block added to it |
| `Md5.PlusIs` | lib/digestpp-master/algorithm/detail/md5_provider.hpp:181-184 | addition of words is addition modulo 2^32 |
| `Md5.TurnedInstances` | lib/digestpp-master/algorithm/detail/md5_provider.hpp:23-24 | two steps computed out, with a carry out of the word and a bit turned round |
| `Streaming.LowBytesValue` | lib/digestpp-master/algorithm/detail/md5_provider.hpp:89 | the bytes written of a number that fits are read back, low-order first, as that number |
| `Md5.TransformBlocks` | lib/digestpp-master/algorithm/detail/md5_provider.hpp:103-186 | `n` blocks at once are `n` single blocks, each the 64 steps of section 3.4 added to the old registers |
| `Md5.AllRounds` | lib/digestpp-master/algorithm/detail/md5_provider.hpp:113-179 | the unrolled 64 calls with rotated arguments are 64 register-rotating steps of section 3.4 |
| `Md5.FourSteps` | lib/digestpp-master/algorithm/detail/md5_provider.hpp:113-116 | four calls with rotated arguments are four generic steps |
| `Md5.BooleanForms` | lib/digestpp-master/algorithm/detail/md5_provider.hpp:21-31 | the rewritten forms of F and G equal the standard's for all words |
| `Md5.ListedIs` | lib/digestpp-master/algorithm/detail/md5_provider.hpp:27-43 | the index formulas give the message words in the order the standard lists |
| `Blake2.HashParts` | lib/digestpp-master/algorithm/detail/blake2_provider.hpp:133-164 | for every key and message in any split, the compressions are those of section 3.3 of RFC 7693; too long a key is refused |
| `Blake2.Provider.Final` | lib/digestpp-master/algorithm/detail/blake2_provider.hpp:227-239 | the last block gets the final flag and a counter that is the number of all bytes exactly when its bits fit in 64 bits; then the result is the standard's |
| `Blake2.LastBlockLast` | lib/digestpp-master/algorithm/detail/blake2_provider.hpp:160-164 | lazily compressing all blocks but the last and then the padded last one is the standard's computation |
| `Blake2.OneLast` | lib/digestpp-master/algorithm/detail/blake2_provider.hpp:266-284 | exactly one compression, the last, carries the final flag; every counter is the number of bytes up to the end of its block; the blocks are the input and its padding |
| `Blake2.LogParts` | lib/digestpp-master/algorithm/detail/blake2_provider.hpp:133-164 | the same of the compressions the code itself makes, for every key and message in any split |
| `Blake2.CounterWordsExact` | lib/digestpp-master/algorithm/detail/blake2_provider.hpp:273-275 | the two counter words are the low-order and high-order word of the standard's counter |
| `Blake2.Provider.Init` | lib/digestpp-master/algorithm/detail/blake2_provider.hpp:133-158 | a non-empty key is absorbed as a zero-padded block of its own |
| `Blake2.KeyedShape` | lib/digestpp-master/algorithm/detail/blake2_provider.hpp:254-264 | without a key there is only the message; otherwise the first block is the key and zeros behind it |
| `Blake2.VariantSizes` | lib/digestpp-master/algorithm/detail/blake2_provider.hpp:323 | blocks of 128 and 64 bytes, keys of at most 64 and 32 |
| `Blake2.Provider.SetKey` | lib/digestpp-master/algorithm/detail/blake2_provider.hpp:166-172 | refused exactly when longer than `N / 8` bytes |
| `Skein.SplitExact` | lib/digestpp-master/algorithm/detail/skein_provider.hpp:245-280 | `squeeze(a)` then `squeeze(b)` gives the bytes and the state of `squeeze(a + b)` exactly when output has begun, `a > 0` or `b = 0` |
| `Skein.OutputIsStream` | lib/digestpp-master/algorithm/detail/skein_provider.hpp:266-279 | the output is the blocks `F(saved chain, 0)`, `F(saved chain, 1)`, ... in a row, cut anywhere |
| `Skein.FirstRequest` | lib/digestpp-master/algorithm/detail/skein_provider.hpp:248-261 | the first request saves the chaining value made from the old one, the buffered bytes and zeros, their number, and the tweak with bit 63 of its second word set and all else unchanged |
| `Skein.BlockMadeFrom` | lib/digestpp-master/algorithm/detail/skein_provider.hpp:269-273 | an output block is made from the saved value, the tweak (0, 0xff << 56), and the block number low-order byte first with zeros behind it |
| `Skein.TakeAppend` | lib/digestpp-master/algorithm/detail/skein_provider.hpp:261-279 | requests add up once output has begun |
| `Skein.Provider.Squeeze` | lib/digestpp-master/algorithm/detail/skein_provider.hpp:245-280 | the loop over the buffers hands out the next `n` bytes and leaves the state of the byte-by-byte description |
| `Shake.LeftEncode` | lib/digestpp-master/algorithm/detail/shake_provider.hpp:21-34 | writes the left encoding of section 2.3.1 of NIST SP 800-185 |
| `Shake.RightEncode` | lib/digestpp-master/algorithm/detail/shake_provider.hpp:36-49 | writes the right encoding, with the empty value for zero in the KangarooTwelve form |
| `Shake.LeftReads` | lib/digestpp-master/algorithm/detail/shake_provider.hpp:21-34 | a left encoding is read back: a length byte from 1 to 8, that many bytes, and the rest |
| `Shake.RightReads` | lib/digestpp-master/algorithm/detail/shake_provider.hpp:36-49 | a right encoding is read back from its end; in the KangarooTwelve form zero has no value byte |
| `Shake.EncodingInstances` | lib/digestpp-master/algorithm/detail/shake_provider.hpp:21-49 | encodings of 0 and 0x1234 computed out |
| `Shake.MinimalLength` | lib/digestpp-master/algorithm/detail/shake_provider.hpp:23-29 | `k` bytes are enough exactly for numbers below `256^k` |
| `Shake.LeftUnique` | lib/digestpp-master/algorithm/detail/shake_provider.hpp:21-34 | an encoded number at the front of a text is determined by the text, and so is the rest |
| `Shake.RightUnique` | lib/digestpp-master/algorithm/detail/shake_provider.hpp:36-49 | the same at the end of a text |
| `Shake.PrefixUnique` | lib/digestpp-master/algorithm/detail/shake_provider.hpp:87-109 | prefix and message together determine function name, customization and message |
| `Shake.PrefixReads` | lib/digestpp-master/algorithm/detail/shake_provider.hpp:87-109 | the prefix is read as the rate, the function name behind its length in bits, the customization behind its length, and one to a whole block of zeros |
| `Shake.PrefixLength` | lib/digestpp-master/algorithm/detail/shake_provider.hpp:104-108 | the prefix has a whole number of blocks, and is the standard's `bytepad` exactly when the names do not end at a block boundary |
| `Shake.BytepadLeast` | lib/digestpp-master/algorithm/detail/shake_provider.hpp:104-108 | `bytepad` reaches the boundary with less than a block of zeros |
| `Shake.AlignedNames` | lib/digestpp-master/algorithm/detail/shake_provider.hpp:104-108 | a customization of 161 bytes with which the prefix is not `bytepad` |
| `Shake.Provider.Init` | lib/digestpp-master/algorithm/detail/shake_provider.hpp:80-110 | absorbs the prefix if a name is set and nothing otherwise, and ends with an empty buffer |
| `StreamBuf.Replay` | lib/asio/asio/include/asio/basic_streambuf.hpp:214-346 | any sequence of writes, single characters and consumes from a new object behaves as the bounded queue, up to the first throw, if no move exceeds an `int` |
| `StreamBuf.SmallBufferFits` | lib/asio/asio/include/asio/basic_streambuf.hpp:233-254 | no move exceeds an `int` when the bound is at most 2^31 - 1 |
| `StreamBuf.FirstInFirstOut` | lib/asio/asio/include/asio/basic_streambuf.hpp:46-68 | what was read and what is queued is what was written, and the queue is never longer than its bound |
| `StreamBuf.BasicStreambuf.Reserve` | lib/asio/asio/include/asio/basic_streambuf.hpp:308-346 | succeeds exactly when `size() + n <= max_size()`, without changing what is queued; what a failure leaves behind is stated too |
| `StreamBuf.BasicStreambuf.Overflow` | lib/asio/asio/include/asio/basic_streambuf.hpp:283-306 | appending one character succeeds exactly when `size() < max_size()`; end of file appends nothing; what a failure leaves behind is stated too |
| `StreamBuf.BasicStreambuf.Commit` | lib/asio/asio/include/asio/basic_streambuf.hpp:233-238 | what the output area contains, up to its end, is appended; the position moves right exactly if that is at most 2^31 - 1 characters |
| `StreamBuf.BasicStreambuf.Consume` | lib/asio/asio/include/asio/basic_streambuf.hpp:247-254 | removes the given number of characters from the front, or all; the position moves right exactly if that is at most 2^31 - 1 characters |
| `StreamBuf.BasicStreambuf.Underflow` | lib/asio/asio/include/asio/basic_streambuf.hpp:263-274 | shows the first character without removing it, end of file exactly when empty |
| `StreamBuf.BasicStreambuf.constructor` | lib/asio/asio/include/asio/basic_streambuf.hpp:131-141 | a new object is empty |
| `StreamBuf.BasicStreambuf.Prepare` | lib/asio/asio/include/asio/basic_streambuf.hpp:214-219 | makes room for `n` characters exactly when the bound allows it |
| `StreamBuf.BasicStreambuf.Size` | lib/asio/asio/include/asio/basic_streambuf.hpp:158-161 | the length of the queue, never more than `max_size()` |
| `StreamBuf.ThrowKeepsContents` | lib/asio/asio/include/asio/basic_streambuf.hpp:321-346 | a `reserve` that throws leaves every possible contents intact exactly when nothing has been read, or as much as is queued |
| `StreamBuf.ThrowDoesDamage` | lib/asio/asio/include/asio/basic_streambuf.hpp:321-346 | writing "abc" with room for four, consuming one and preparing three fails and turns the queued "bc" into "cc" |

## Left out

- Sockets, the resolver, endpoints, the receiver's I/O, `main` and the option parser: replaced by
  the events that put a text on the wire or deliver an acknowledgement.
- The server, which is not in the repository; only the assumptions on acknowledgements stand for it.
- Condition variables, lost wake-ups, fairness and time: expiry and wake-ups may happen at any
  moment, and no liveness is claimed.
- Timers in the interleaved model, but for whether there is one: an acknowledgement that saw base
  equal next can stop a timer a concurrent send has just started, so cover is claimed for atomic
  handlers only.
- Accesses without a lock: the slot array, a packet's starting time and its cached text are read
  and written in the step of the locked access or of the transmission next to them.
- `max_seq_num_sent`, which is written and never read, the log output on the console and the
  widths of the index fields, which stay below `2 * M`.
- Transfer.LateAck: is stated for one late acknowledgement from a state that was in order, as is
  `Transfer.LapLateAck`; what further runs do from there is not modelled.
- Feeding.ReadSome: promises nothing beyond the chunks that can be counted (`Feeding.Countable`),
  because the code leaves the overflow of an `int` undefined; the same holds for
  `PrefixDelivered`, `PrefixDeliveredInterleaved` and `FedIsPrefix`.
- A missing file, which the constructor of `DataProcessor` answers with an exception, and the
  failure of a read.
- Streaming.AbsorbBytes: does not model the wrap-around of `pos + len` in `size_t`, because no
  object in memory is that long; when the compression looks at the counter the chaining value is
  promised for fewer than 2^61 bytes, beyond which the code's bit count has wrapped round
  (`Blake2.BitsFit`) and the split into calls does matter.
- Streaming.AbsorbAll: the same.
- Blake2.Provider.Init: the words of salt, personalization and parameters, mixed into the initial
  value, are a function parameter, because they do not touch the order of compressions.
- The tables of MD5, the mixing functions of BLAKE2, Skein and Keccak, initial values and salts:
  parameters of the model. Memory is read low-order byte first.
- BLAKE2 in its extendable-output modes, `squeeze` there, and SHAKE output.
- Shake.Provider.Init: also sets the member `total` to 0, which the source leaves as it is and
  never reads; the buffer has the length of the rate.
- StreamBuf.BasicStreambuf.Commit: promises no contents for a move of more than 2^31 - 1
  characters, because the position is then wrong; the same holds for `Consume` and `Replay`.
- The remaining hashes and mixins of digestpp, the rest of asio and `cxxopts`: variants and plumbing.
