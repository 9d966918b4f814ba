# Redpine's stream protocol, modelled and proved in Dafny

Redpine carries packets over UDP on two channels, one reliable and one whose packets may expire. This
project models the protocol behind them in the form the Rust code has, and proves what it promises.
`dafny verify dfyconfig.toml` checks all of it.

Every identifier on the wire is 32 bits and wraps around. Behind each stands an unbounded index;
`Words.dfy` relates the two, and contracts speak of indices. Runs are of any length. The network may lose,
duplicate, reorder and delay whatever is sent. What it may not do is deliver a frame once the sender is
more than 2^31 identifiers past it: wrapping identifiers need such a bound, and the channel modules state
it where an action is enabled. For the single steps that could go wrong beyond it, the exact condition under
which they do is proved beside it. End to end less is asked: that the unreliable fragments come in order, and
that the reliable ones are young, follows there from the segment layer. What remains is the age of segments
and acknowledgements, and that less than a lap of unreliable fragments, 2^32 of them, goes by between two the
receiver could join into a packet.

- `CrcTable.dfy`, `Crc.dfy`, `CrcBursts.dfy`: the frame checksum. The table-driven loop equals bitwise division,
  by linearity over GF(2); any error within 32 consecutive bits is detected, by injectivity.
- `Codec.dfy`, `Frame.dfy`: serial forms, frames written in place, and reading them back.
- `Fragments.dfy`, `Reliable.dfy`, `ReliableChannel.dfy`, `ReliableProgress.dfy`: the go-back-N channel, both ends
  and the network as a state machine, and how what is lost gets across all the same.
- `Unreliable.dfy`, `UnreliableChannel.dfy`, `UnreliableArrivals.dfy`: the expiring channel, likewise, and exactly
  which packets come out.
- `Bits.dfy`, `DropDetection.dfy`, `SegmentTx.dfy`: the sending side of the segment layer, with its rings and
  bit fields. A machine word used as a bit field is the list of its bits.
- `SegmentRx.dfy`, `SegmentChannel.dfy`, `SegmentArrivals.dfy`, `SegmentDrops.dfy`: the reorder buffer and its
  shift registers, both sides and the network, what becomes of arrivals, and when a drop is reported.
- `Prio.dfy`, `AimdReno.dfy`, `CongestionRuns.dfy`: the weighted scheduler, the congestion window, and what the
  window does over whole runs.
- `SegmentStall.dfy`, `Starvation.dfy`: what becomes of a whole window of lost segments, and of an endpoint whose
  segments in flight are all lost.
- `Sending.dfy`, `SendingFairness.dfy`: the two queues and the scheduler filling a frame, and how the channels
  share frame after frame.
- `RoundTrip.dfy`, `Timer.dfy`: the round-trip estimate, and the retransmission timer over whole runs.
- `Mailbox.dfy`, `Endpoint.dfy`, `EndpointEffects.dfy`: receiving datagrams; the flush loop, the timer's handshake
  with the host, frames in every state, giving up and closing; and what an acknowledgement, a timeout and a
  sync come to.
- `StreamChannel.dfy`, `StreamComplete.dfy`: one direction of a connection end to end. Packets are enqueued,
  leave in frames as `Sending.dfy` fills them, cross the network of `SegmentChannel.dfy`, and are taken in as
  `Mailbox.dfy` says. When no segment is lost everything arrives.
- `Connection.dfy`, `ConnectionProgress.dfy`: two endpoints and the frames between them. What the endpoint's
  methods ensure is, move by move, a run of `StreamChannel.dfy` in each direction, so both users receive what it
  promises.

Each class of the source is a class here, its methods proved against functions on values; the state
machines and the theorems over runs are about those functions. Lemmas carry `{:induction false}`: what is
proved is proved by the steps written down. `hide` keeps definitions a proof does not need out of its way.

Three things the source does differently from what its own text suggests are kept as they are, with the
exact condition proved:

- A sync that finds the reorder buffer empty is compared with the base identifier instead of zero
  (`src/endpoint/segment_rx.rs:181`), so many are ignored: `SegmentRx.EmptySyncIgnoredExactly`. When a whole
  window is lost, the sender is stuck for good exactly if the window is no larger than the identifier the
  receiver expects next (`SegmentStall.StalledExactly`), and such a state is reached once one window has arrived
  and the next is lost (`SegmentStall.StallIsReached`). An endpoint may stop long before that: after a timeout
  its window is ten segments, so if all in flight is lost, no more segments than that identifier but the bytes
  of eleven, nothing leaves any more, whatever the user does (`Starvation.NothingEverLeaves`). As the sync is
  answered all the same and every answer starts the timer over, it gives up only when the doubled timeout
  reaches the limit by itself, which with a limit beyond a minute it never does
  (`Starvation.GivesUpOnlyByTimeoutAlone`).
- The congestion window admits segment sizes up to 65535, but its arithmetic is safe up to 46340 bytes only,
  and not for zero: `AimdReno.NeverFailsExactly`. The endpoint uses 1024.
- A data frame of empty packets fails the assertion on the size written (`src/endpoint/mod.rs:829`): exactly
  when what is ready, the channel whose turn it is first, starts with empty fragments up to where the room
  runs out (`Sending.NoDataExactly`), so never without an empty packet (`Sending.DataSentUnlessEmpty`). The
  endpoint here counts datagrams instead.

## Model

| member | source | states |
|---|---|---|
| Words.UnwrapWire | src/endpoint/segment_tx.rs:255 | recovering an index from a wrapping difference and a base finds the one index in the following lap that travels under the identifier |
| Words.WireDistance | src/endpoint/segment_tx.rs:85 | a wrapping difference of identifiers is the distance of their indices whenever these are less than a lap apart |
| Words.SameWire | src/buffer/reliable.rs:189 | two indices share an identifier exactly when they are whole laps apart |
| Words.AndMask | src/endpoint/segment_tx.rs:91 | masking with a power of two less one takes the remainder |
| Words.Pow2Test | src/endpoint/segment_tx.rs:35-38 | the constructor's test accepts exactly the powers of two |
| Fragments.WindowHolds | src/buffer/mod.rs:18-21 | a window contains an identifier exactly when one of its `size` indices from the base on travels under it |
| CrcTable.PartialResultRight | src/frame/serial/crc.rs:60-93 | each of the 256 table entries is what eight bit steps leave of its index, corrected for the complemented register |
| Crc.TableStep | src/frame/serial/crc.rs:95-101 | one table step on the complemented register equals eight bit steps, for every register and byte, by linearity over GF(2) |
| Crc.ExtendSlow | src/frame/serial/crc.rs:45-58 | the bitwise loop computes the checksum as division, bit by bit, of the whole message |
| Crc.Extend | src/frame/serial/crc.rs:95-101 | the table loop computes that same checksum for every initial value and every byte string |
| Crc.Compute | src/frame/serial/crc.rs:103-105 | likewise from the initial value |
| Crc.IterateInjective | src/frame/serial/crc.rs:49-55 | bit steps never merge two registers |
| Crc.DivideInjective | src/frame/serial/crc.rs:95-101 | no message merges two registers |
| Crc.TakeWordInjective | src/frame/serial/crc.rs:95-101 | four bytes act as a bijection: from one register different words lead to different registers |
| Crc.SealedFrameVerifies | src/frame/serial/mod.rs:552-563 | a message with its checksum appended passes the check |
| Crc.VerifiesIsResidue | src/frame/serial/mod.rs:642-651 | the check of a frame is division of all of it, its checksum included, and comparison with one constant |
| Crc.BurstDetected | src/frame/serial/mod.rs:642-651 | no frame that differs from a valid one in four consecutive bytes only, checksum bytes included, passes the check, at any position and length |
| CrcBursts.FiveBytesInjective | src/frame/serial/crc.rs:95-101 | two different five-byte blocks that differ within 32 consecutive bits never lead to the same register, whatever the register before them |
| CrcBursts.BitBurstDetected | src/frame/serial/mod.rs:642-651 | no frame that differs from a valid one within 32 consecutive bits only, at any bit offset, so across five bytes, and checksum bits included, passes the check |
| Fragments.SplitShape | src/buffer/reliable.rs:42-65 | which bytes and marks the i-th fragment of a packet carries |
| Fragments.AllSizesValid | src/buffer/reliable.rs:174-186 | every fragment the sender cuts is one the receiver's size check accepts |
| Fragments.AssembleFragmentizeAll | src/buffer/reliable.rs:33-66 | putting together what was cut gives back all packets, in order, with nothing left over |
| Fragments.AssemblePrefix | src/buffer/reliable.rs:188-212 | putting together any first part of the fragments completes a first part of the packets |
| Reliable.TxBuffer.constructor | src/buffer/reliable.rs:20-31 | an empty queue whose identifiers all stand for one index |
| Reliable.TxBuffer.Push | src/buffer/reliable.rs:33-66 | the packet's fragments are appended to the queue, and nothing else changes |
| Reliable.TxBuffer.PeekSendable | src/buffer/reliable.rs:68-80 | a fragment is offered exactly when window and queue allow, under its identifier |
| Reliable.TxBuffer.PopSendable | src/buffer/reliable.rs:82-105 | the next fragment leaves under its identifier; the furthest acknowledgeable index moves only when it is new |
| Reliable.TxBuffer.ResendAll | src/buffer/reliable.rs:107-111 | sending restarts at the base and duplicates are forgotten |
| Reliable.TxBuffer.Acknowledge | src/buffer/reliable.rs:113-150 | by index: news drops exactly the acknowledged fragments, the third duplicate rewinds, anything beyond what was sent changes nothing |
| Reliable.RxBuffer.Receive | src/buffer/reliable.rs:188-212 | only the fragment awaited, of valid size, is taken in; a packet comes out exactly when its last fragment does |
| Reliable.RxBuffer.FragmentIsValid | src/buffer/reliable.rs:174-186 | sizes accepted: full, or no more than full for a last fragment |
| Reliable.TxStepsKeepValid | src/buffer/reliable.rs:82-150 | base <= next <= furthest sent <= base + window, and no further than the queue, after every operation |
| ReliableChannel.StepKeepsInv | src/buffer/reliable.rs:33-212 | what every step of sender, receiver and network keeps |
| ReliableChannel.ReliableDelivery | src/buffer/reliable.rs:188-212 | in every run over a network that loses, duplicates, reorders and delays, the packets returned are byte for byte a prefix of those pushed, and all of them once every fragment is in |
| ReliableChannel.ForgetsOnlyReceived | src/buffer/reliable.rs:113-150 | in every run base <= receiver's next <= furthest sent <= base + min(window, queued), and the queue is exactly the fragments from the base on |
| ReliableChannel.AckMeaning | src/buffer/reliable.rs:125-147 | an acknowledgement young enough to arrive is accepted exactly when the base has not passed it, and drops just what the receiver had |
| ReliableChannel.StaleAckRejectedExactly | src/buffer/reliable.rs:125-128 | an overtaken acknowledgement is mistaken for a new one exactly when it is so old that its identifier has come round to what was sent |
| ReliableChannel.StaleFragmentTakenExactly | src/buffer/reliable.rs:189-191 | an overtaken fragment is mistaken for the next one exactly when it is whole laps old |
| ReliableProgress.CanAlwaysFinish | src/buffer/reliable.rs:107-148 | from every state a run can reach, even if all frames on their way are then lost, some continuation without further packets delivers every packet and empties the queue |
| ReliableProgress.TimeoutResends | src/buffer/reliable.rs:107-111 | after a timeout the next fragment sent is the oldest one not acknowledged, however far the sender had got |
| ReliableProgress.ResendsInEveryRun | src/endpoint/mod.rs:162-164 | so it is in every run |
| ReliableProgress.DuplicatesResend | src/buffer/reliable.rs:114-121 | after three duplicate acknowledgements likewise |
| ReliableProgress.TwoDuplicatesWait | src/buffer/reliable.rs:114-121 | from a fresh count two change nothing about what is sent next |
| ReliableProgress.NewsKeepsPlace | src/buffer/reliable.rs:122-148 | an acknowledgement with news makes the sender repeat nothing |
| Unreliable.UnexpiredIsSuffix | src/buffer/unreliable.rs:91-99 | what expiry removes is the longest expired front |
| Unreliable.TxBuffer.Push | src/buffer/unreliable.rs:49-88 | the packet's fragments are appended, all with the packet's expiry time |
| Unreliable.TxBuffer.PopExpired | src/buffer/unreliable.rs:91-99 | the expired front goes, and no identifier with it |
| Unreliable.TxBuffer.PopSendable | src/buffer/unreliable.rs:111-120 | the head leaves under the next identifier |
| Unreliable.RxBuffer.Receive | src/buffer/unreliable.rs:158-206 | a first fragment always starts over, another is taken only as the one awaited of a packet in progress; a packet comes out exactly with its last fragment |
| Unreliable.RxBuffer.Reset | src/buffer/unreliable.rs:208-210 | the packet in progress is dropped, the awaited identifier stays |
| UnreliableChannel.ExpiryStopsAtPacket | src/buffer/unreliable.rs:49-99 | expiry removes all that remains of a packet or nothing, since its fragments share one expiry time |
| UnreliableChannel.NeverSpliced | src/buffer/unreliable.rs:158-206 | in every run, with expiry at any time, any fragments missing and resets anywhere, the packets returned are a subsequence of those pushed, each whole |
| UnreliableChannel.LateFragmentTakenExactly | src/buffer/unreliable.rs:185-187 | the lap allowed between two fragments is exact: a later one is mistaken for the awaited one exactly when it is whole laps late |
| UnreliableArrivals.WholePacketReturned | src/buffer/unreliable.rs:158-206 | from any state of the receiver, the fragments of a packet received in order under consecutive identifiers return that packet and nothing else |
| UnreliableArrivals.AllPacketsReturned | src/buffer/unreliable.rs:158-206 | and all fragments of all packets return all packets |
| UnreliableArrivals.ReturnedExactly | src/buffer/unreliable.rs:158-212 | in every run the packets returned are exactly those whose fragments all arrived one right after another with no reset between |
| UnreliableArrivals.NothingLostNothingMissing | src/buffer/unreliable.rs:158-206 | in every run in which nothing expires, is lost or is reset, everything pushed is returned once it is sent |
| SegmentTx.SegmentTx.constructor | src/endpoint/segment_tx.rs:34-57 | for every power of two from 64 on, rings addressed by masked identifiers hold what indices address |
| SegmentTx.NonceSlot | src/endpoint/segment_tx.rs:69-73 | the ring word an identifier selects is the one its index does |
| SegmentTx.DistinctBits | src/endpoint/segment_tx.rs:69-71 | segments less than a ring apart have different nonce bits |
| SegmentTx.SegmentTx.ComputeNextNonce | src/endpoint/segment_tx.rs:63-82 | the nonce drawn is stored for the next segment and every other stored nonce is kept |
| SegmentTx.SegmentTx.CanSend | src/endpoint/segment_tx.rs:84-86 | fewer than a window of segments is in transit |
| SegmentTx.SegmentTx.MarkSent | src/endpoint/segment_tx.rs:88-96 | the segment joins those in transit, with its size and the nonce stored for it |
| SegmentTx.SegmentTx.BytesInTransit | src/endpoint/segment_tx.rs:98-100 | always the sum of the sizes of the segments in transit, through ring reuse and wrap-around |
| SegmentTx.SegmentTx.SubtractTransit | src/endpoint/segment_tx.rs:259-264 | the subtraction loop never underflows and leaves the sum of the remaining sizes |
| SegmentTx.PullOne | src/endpoint/segment_tx.rs:124-137 | new bits within one word: the history then holds the 32 nonces behind the new base |
| SegmentTx.PullLowest | src/endpoint/segment_tx.rs:138-150 | likewise when they are the lowest bits of the word before |
| SegmentTx.PullTwo | src/endpoint/segment_tx.rs:151-171 | likewise when they cross two words |
| SegmentTx.SegmentTx.NonceHistoryAfter | src/endpoint/segment_tx.rs:102-174 | bit i of the new history is the nonce of the segment i + 1 places behind the new base, for all 32, in all three word-crossing cases |
| SegmentTx.SegmentTx.ExpectedChecksum | src/endpoint/segment_tx.rs:176-184 | five foldings compute the parity of the 32 common bits |
| SegmentTx.ParityIsHeardParity | src/endpoint/segment_tx.rs:211 | the parity of the packed history is the parity of the nonces of the segments heard of |
| DropDetection.AgesOutByLeadingOnes | src/endpoint/segment_tx.rs:196-200 | counting leading ones tells exactly whether an unaccounted segment would fall more than 32 places behind |
| DropDetection.OnesAfterZero | src/endpoint/segment_tx.rs:231-236 | shifting the leading ones out and back counts the segments accounted for after the first that is not |
| DropDetection.OldestDecides | src/endpoint/segment_tx.rs:223-240 | some segment counts as dropped exactly when the oldest unaccounted one does |
| SegmentTx.SegmentTx.DetectDrop | src/endpoint/segment_tx.rs:218-248 | the bit tests report a drop exactly when some segment is the 32nd unaccounted one or has three accounted for after it |
| SegmentTx.SegmentTx.UpdateAckHistory | src/endpoint/segment_tx.rs:186-249 | a drop is reported exactly when a segment ages out unaccounted or the merged record shows one, and the record then starts over all accounted for; a wrong checksum adds nothing |
| SegmentTx.SegmentTx.Acknowledge | src/endpoint/segment_tx.rs:253-280 | by index: an identifier not yet sent changes nothing; otherwise base, sizes, nonces and record move as the list model does, and a drop is reported exactly when that does |
| SegmentRx.SegmentRx.PushHistoryAck | src/endpoint/segment_rx.rs:68-74 | both shift registers record the segment |
| SegmentRx.SegmentRx.PushHistorySkips | src/endpoint/segment_rx.rs:76-84 | both record so many segments given up on, 32 and more included |
| SegmentRx.SegmentRx.Receive | src/endpoint/segment_rx.rs:90-169 | for any arrival: insertion by index, then delivery while the line is overfull or its head is next; what is handed over is exactly what newly enters the log, and both histories record it |
| SegmentRx.SegmentRx.Drain | src/endpoint/segment_rx.rs:153-165 | everything next in line is handed over, and nothing else |
| SegmentRx.SegmentRx.Sync | src/endpoint/segment_rx.rs:171-213 | an accepted sync hands over all that waits, in order, and gives up on the rest; which are accepted is told exactly |
| SegmentRx.SegmentRx.MinDelta | src/endpoint/segment_rx.rs:178-182 | the distance a sync must exceed; with nothing waiting it is the base identifier |
| SegmentRx.SegmentRx.NextAckInfo | src/endpoint/segment_rx.rs:227-237 | bit i is set exactly when i < 5 and the segment i + 1 places behind the base was taken in; the checksum is the parity of their nonces |
| SegmentRx.ReceiveAccounts | src/endpoint/segment_rx.rs:90-169 | every segment taken in is handed over once, at its own index and with its own data, or waits; no waiting one is lost; nothing else is handed over |
| SegmentRx.SyncAccounts | src/endpoint/segment_rx.rs:184-212 | an accepted sync hands over exactly what waits and settles every index before the new base |
| SegmentRx.EmptySyncIgnoredExactly | src/endpoint/segment_rx.rs:178-184 | with nothing waiting, a sync ahead within the window is ignored exactly when its distance does not exceed the base identifier itself |
| SegmentStall.StaysLost | src/endpoint/segment_rx.rs:171-213 | with a whole window lost and no larger than the identifier expected next, no sync and no acknowledgement changes that |
| SegmentStall.StalledExactly | src/endpoint/segment_rx.rs:181 | when a whole window is lost, no run in which only syncs and acknowledgements arrive lets the sender send again, exactly if the window is no larger than the identifier the receiver expects next; otherwise a sync and an acknowledgement free it |
| SegmentStall.StallIsReached | src/endpoint/segment_rx.rs:181 | from the start, for every window: once a window of segments has been delivered in order and acknowledged, losing the next one stalls the sender for good |
| Starvation.SyncIgnored | src/endpoint/segment_rx.rs:171-213 | an endpoint that has lost all it has in flight, no more segments than the identifier expected next, has no sync to offer that is not ignored |
| Starvation.AnswerChangesLittle | src/endpoint/mod.rs:389-406 | the sync is answered all the same: the answer acknowledges nothing, measures nothing, starts the timer over with nothing waited, and leaves the window a timeout set at eleven segments or less |
| Starvation.NothingEverLeaves | src/endpoint/mod.rs:750-764 | with at least eleven segments' bytes lost: from the first expiry on, in every run of expiries, answers, replies, flushes and packets enqueued, no data frame leaves and no segment is acknowledged |
| Starvation.GivesUpOnlyByTimeoutAlone | src/endpoint/mod.rs:655-696 | if every sync is answered the endpoint gives up with exactly the expiry at which the doubled timeout alone reaches the limit; with a limit beyond a minute never, its timer being set for ever |
| Starvation.ElevenLost | src/endpoint/mod.rs:754-760 | and there is such an endpoint: eleven full segments lost after eleven that arrived |
| SegmentChannel.WindowTells | src/buffer/mod.rs:18-21 | an identifier young enough to arrive stands for its own index or falls outside the window |
| SegmentChannel.StepKeepsInv | src/endpoint/segment_rx.rs:90-213 | what every send, arrival, acknowledgement and sync keeps |
| SegmentChannel.HonestParity | src/endpoint/segment_rx.rs:219-237 | the receiver's five-bit parity equals the sender's parity over its own nonces |
| SegmentChannel.HonestAcksTrusted | src/endpoint/segment_tx.rs:211-216 | in every run, whichever acknowledgement of the receiver the sender accepts passes the nonce check; and it is accepted exactly when the base has not passed it |
| SegmentChannel.SegmentsInOrderOnce | src/endpoint/segment_rx.rs:90-213 | in every run, what was handed over are sent segments, each with its own data, at most once and in the order sent, and the sender stops accounting only for settled ones |
| SegmentChannel.WaitingSegments | src/endpoint/segment_rx.rs:101-147 | in every run, what waits was sent, is not settled, lies ahead of the base and is in order |
| SegmentArrivals.SegmentTakenIn | src/endpoint/segment_rx.rs:90-169 | in every reachable state a segment within the window is handed over or kept waiting, and the one awaited is handed over at once |
| SegmentArrivals.GivesUpOnlyForThree | src/endpoint/segment_rx.rs:101-147 | no arrival makes the receiver give up on a segment unless with it three later ones are in |
| SegmentArrivals.NeverWaitsInVain | src/endpoint/segment_rx.rs:101-165 | and then it does: no more than two wait, none of them the one awaited |
| SegmentArrivals.SyncHeededExactly | src/endpoint/segment_rx.rs:171-213 | with segments waiting, a sync within the window is heeded exactly if it is past them all; then just these are handed over and the rest given up |
| SegmentDrops.DropReportedExactly | src/endpoint/segment_tx.rs:186-248 | in every run an acknowledgement reveals a drop exactly if, among the segments since the last drop, one that no acknowledgement has reported is the 32nd before the base or older or has three reported after it |
| SegmentDrops.LossIsReported | src/endpoint/segment_tx.rs:187-193 | a segment the receiver has given up on leads to a drop being reported before the base is 32 past it |
| SegmentDrops.ReportedOnce | src/endpoint/segment_tx.rs:190-193 | a drop is reported for a segment sent since the last one reported |
| SegmentDrops.NoLossNoDrop | src/endpoint/segment_tx.rs:186-248 | while every segment is taken in and acknowledgements move the base by five at most, no drop is ever reported |
| Prio.NewConfig | src/endpoint/prio.rs:15-52 | a configuration is accepted exactly when all assertions hold, and then all weights and the maximum stay within bounds that exclude overflow |
| Prio.CostIsInverse | src/endpoint/prio.rs:37-46 | a byte's cost times its channel's weight is the same on all channels |
| Prio.BurstCoversFragments | src/endpoint/prio.rs:37-46 | no fragment of at most the burst size costs more than the maximum, whatever the weights |
| Prio.Prio.Next | src/endpoint/prio.rs:70-98 | the ready channel with the least counter, the first of equals; none exactly when none is ready |
| Prio.Prio.MarkSent | src/endpoint/prio.rs:100-118 | the counter never wraps; past the maximum all counters are lowered by the excess, down to zero |
| Prio.ServeKeepsGap | src/endpoint/prio.rs:110-118 | saturation never costs a ready channel any of what it owes |
| Prio.FairFrom | src/endpoint/prio.rs:70-118 | from counters at most a fragment apart, two channels always ready stay within that of where they were, whatever the others do |
| Prio.WeightedFairness | src/endpoint/prio.rs:70-118 | from a fresh scheduler the weighted totals of two always ready channels never differ by more than the dearest fragment |
| Prio.FairExactlyWhenBurstCovers | src/endpoint/prio.rs:112-118 | for every configuration and fragment size, two backlogged channels stay within some bound of each other in all runs exactly when the dearest fragment costs no more than the maximum, and then within that cost; otherwise the difference exceeds every bound |
| AimdReno.AimdReno.constructor | src/endpoint/cc.rs:21-31 | ten segments to begin with, for every segment size admitted |
| AimdReno.AimdReno.HandleAck | src/endpoint/cc.rs:33-66 | all three modes for every segment size; reports exactly when the arithmetic overflows or divides by zero, which it never does for a safe size |
| AimdReno.AimdReno.HandleTimeout | src/endpoint/cc.rs:68-76 | back to ten segments, with half the window as the threshold |
| AimdReno.AimdReno.HandleDrop | src/endpoint/cc.rs:78-95 | halving, unless a window's worth of acknowledgements is still owed since the last |
| AimdReno.AimdReno.Cwnd | src/endpoint/cc.rs:97-105 | the window in whole bytes |
| AimdReno.StepsKeepValid | src/endpoint/cc.rs:33-95 | ten segments at least, no more than the threshold in threshold slow start, and no acknowledgement lowers the window |
| AimdReno.WindowFloor | src/endpoint/cc.rs:33-95 | the same in every run |
| AimdReno.NeverFailsExactly | src/endpoint/cc.rs:21-23 | no run overflows or divides by zero exactly when the segment size is from 1 to 46340; the constructor's own bound of 65535 does not suffice |
| AimdReno.GrowthBound | src/endpoint/cc.rs:58-64 | n acknowledgements for no more than one window add at most one segment and n / 2 units |
| AimdReno.OneHalvingPerWindow | src/endpoint/cc.rs:34-39 | a drop that takes effect halves the window, down to ten segments, and without a timeout the next takes effect only a whole window of acknowledgements later |
| CongestionRuns.DropHalves | src/endpoint/cc.rs:78-95 | in every run a drop halves the window, down to ten segments, and leads to congestion avoidance, if nothing is left to count down; otherwise it changes nothing |
| CongestionRuns.NextDropExactly | src/endpoint/cc.rs:34-39 | after a drop the next takes effect exactly once the halved window is acknowledged |
| CongestionRuns.SlowStartDoubles | src/endpoint/cc.rs:42-45 | in slow start acknowledging a window doubles it |
| CongestionRuns.TimeoutStartsOver | src/endpoint/cc.rs:68-76 | after a timeout, in every run: ten segments, one more for every acknowledgement until half the earlier window is reached, and congestion avoidance from there |
| CongestionRuns.AvoidanceGrowsAtLeast | src/endpoint/cc.rs:58-64 | in congestion avoidance acknowledging a window adds at least a segment, but for rounding |
| Codec.AckRoundTrip | src/frame/serial/mod.rs:385-419 | an acknowledgement reads back as written, its history cut to five bits |
| Codec.HeaderRoundTrip | src/frame/serial/mod.rs:361-383 | a segment header reads back as written |
| Codec.SyncRoundTrip | src/frame/serial/mod.rs:421-433 | a sync reads back as written |
| Codec.DatagramRoundTrip | src/frame/serial/mod.rs:435-498 | a datagram reads back as written, whatever follows it |
| Codec.DatagramCanonical | src/frame/serial/mod.rs:436-463 | whatever reads as a datagram is its serial form, but for unused bits |
| Codec.AllRoundTrip | src/frame/serial/mod.rs:579-592 | a list of datagrams reads back as that list, and then nothing |
| Frame.ReadType | src/frame/serial/mod.rs:622-640 | the type whose bits are the low four of the first byte, none exactly for values past the last |
| Frame.FrameWriter.constructor | src/frame/serial/mod.rs:506-534 | a frame begins with its type byte |
| Frame.FrameWriter.Write | src/frame/serial/mod.rs:536-550 | written in place exactly when room for the checksum remains, and otherwise not at all |
| Frame.FrameWriter.Finalize | src/frame/serial/mod.rs:552-563 | what was written, followed by its checksum |
| Frame.PayloadReader.ReadDatagram | src/frame/serial/mod.rs:579-592 | the next datagram, past which the reader moves, or nothing |
| Frame.PayloadReader.ReadDatagrams | src/endpoint/mod.rs:475-499 | all datagrams, until nothing more can be read |
| Frame.FrameRoundTrip | src/frame/serial/mod.rs:500-564 | a stream frame's checksum is right, and reading it yields the same type, acknowledgement, header and list of datagrams |
| Frame.SyncFrameRoundTrip | src/frame/serial/mod.rs:704-733 | likewise for a sync frame |
| Sending.FragmentTxBuffers.constructor | src/endpoint/mod.rs:129-140 | empty queues and a fresh scheduler |
| Sending.FragmentTxBuffers.FlushOne | src/endpoint/mod.rs:175-225 | one round: expiry, choice, and a pop exactly when the datagram fitted |
| Sending.FragmentTxBuffers.Flush | src/endpoint/mod.rs:172-229 | the frame gains exactly the serial forms of the fragments popped, in order, and the size returned is that of their data, zero exactly in the case named below |
| Sending.FragmentTxBuffers.WriteFrame | src/endpoint/mod.rs:773-853 | the bytes the frame writer, the flush of the real queues and the sealing produce are the serial form of a frame with the acknowledgement and the header as given and exactly the datagrams popped, within 1472 bytes |
| Sending.FragmentTxBuffers.DataReady | src/endpoint/mod.rs:166-170 | whether either queue has something to send once expired entries are gone |
| Sending.FragmentTxBuffers.Enqueue | src/endpoint/mod.rs:142-154 | the packet joins its queue; an unreliable one lasts its timeout and a millisecond |
| Sending.FragmentTxBuffers.Acknowledge | src/endpoint/mod.rs:156-160 | only the reliable queue is affected, and only if an identifier came |
| Sending.FragmentTxBuffers.HandleTimeout | src/endpoint/mod.rs:162-164 | the reliable queue is rewound |
| Sending.FilledToTheBrim | src/endpoint/mod.rs:202-220 | what is written fits, and the next fragment would not have |
| Sending.FilledNotEmpty | src/endpoint/mod.rs:172-229 | with data ready and room for the largest fragment at least one datagram is written |
| Sending.FilledRecords | src/endpoint/mod.rs:172-229 | for any queues: a frame's unreliable datagrams are the first unexpired entries, its reliable ones the next to be sent, in order under consecutive identifiers, and just these have left |
| Sending.NoDataExactly | src/endpoint/mod.rs:172-229 | for any queues: the size a flush returns is zero, so that the assertion at line 829 fails, exactly when what is ready, the channel whose turn it is first, starts with empty fragments up to where the room runs out |
| Sending.DataSentUnlessEmpty | src/endpoint/mod.rs:827-829 | so with data ready, room for it and no empty fragment queued, the assertion holds |
| Sending.FragmentsNotEmpty | src/buffer/reliable.rs:42-65 | and only an empty packet makes an empty fragment |
| Sending.EmptyPacketFrame | src/endpoint/mod.rs:827-829 | one empty packet in empty queues makes the assertion fail |
| SendingFairness.FairShares | src/endpoint/mod.rs:172-229 | frame after frame, from a fresh scheduler and whatever is enqueued, acknowledged or sent again meanwhile: while neither channel runs dry, the weighted bytes of the two channels' datagrams differ by no more than the dearest datagram, if that costs no more than the maximum |
| SendingFairness.FrameMoves | src/endpoint/prio.rs:100-118 | each frame moves the two counters apart by just what its datagrams weigh |
| Endpoint.HistoryArrives | src/frame/serial/mod.rs:405-419 | through five bits of a frame the sender learns exactly which of the last five segments were taken in |
| Endpoint.AckIsReport | src/endpoint/mod.rs:784-808 | what a frame carries is the report the two sides of the segment layer agree on |
| Endpoint.AckOfIsNextAckInfo | src/endpoint/mod.rs:784-808 | and it is what the segment receiver says of itself |
| Endpoint.Endpoint.constructor | src/endpoint/mod.rs:288-316 | fresh queues, windows, receivers and clock, nothing sent, received or told to the host |
| Endpoint.Endpoint.SendData | src/endpoint/mod.rs:814-849 | a segment under the next identifier with at least one datagram, recorded with its size; afterwards the timer runs, a running one being left alone |
| Endpoint.Endpoint.SendFrame | src/endpoint/mod.rs:773-853 | one frame within 1472 bytes, its acknowledgement first |
| Endpoint.Endpoint.FlushStream | src/endpoint/mod.rs:740-858 | terminates; each segment holds exactly what the queues fill it with when its turn comes, the acknowledgement goes in the first frame only, segments are numbered on, bytes in transit exceed the window by less than a frame, a running timer is left alone, and on return nothing is ready, or a window is full and the timer runs |
| Endpoint.FlushBound | src/endpoint/mod.rs:744-857 | no more frames than free places in the window, and one |
| Endpoint.SentFrameReadsBack | src/endpoint/mod.rs:851-853 | each such frame verifies and reads back as it was sent |
| Endpoint.Overshoot | src/endpoint/mod.rs:754-760 | a frame adds less than its own size to bytes in transit that were below the window |
| Endpoint.AckCatchesUp | src/endpoint/mod.rs:394 | comparing the acknowledged identifier with the next one tells exactly whether nothing is unacknowledged any more |
| Endpoint.AckKeepsTimer | src/endpoint/mod.rs:389-406 | so after an acknowledgement the timer runs exactly when segments are unacknowledged |
| RoundTrip.EstimateInRange | src/endpoint/mod.rs:352-387 | the smoothed round trip stays in the range of those measured, and its variation within the greater of that range's width and half its upper end |
| RoundTrip.TimeoutInRange | src/endpoint/mod.rs:352-387 | so the timeout is no less than the least round trip measured, up to its maximum, and no more than their range accounts for |
| RoundTrip.SteadyRoundTrip | src/endpoint/mod.rs:352-387 | under a steady round trip the estimate equals it, and the variation dies away by a quarter each time |
| RoundTrip.EstimateFollows | src/endpoint/mod.rs:361-364 | when the round trip changes the estimate follows by an eighth of what is missing each time |
| RoundTrip.DeviationCounts | src/endpoint/mod.rs:361-362 | a deviation counts for a quarter of the variation |
| RoundTrip.TimeoutCovers | src/endpoint/mod.rs:377-379 | no round trip within four variations of the estimate outlasts the timeout, but for its maximum |
| EndpointEffects.FirstRoundTrip | src/endpoint/mod.rs:352-387 | the first segment sent is timed: its acknowledgement gives the estimate the time it took, and three times that for a timeout |
| EndpointEffects.OthersDoNotMeasure | src/endpoint/mod.rs:353-387 | any other acknowledgement leaves estimate and timeout alone |
| EndpointEffects.TimedUntilDue | src/endpoint/mod.rs:382-385 | a segment stays timed for one timeout, whatever else is acknowledged |
| EndpointEffects.AckIsRun | src/endpoint/mod.rs:439-449 | for the congestion window an acknowledgement is one event, and a drop after it if the segments show one |
| EndpointEffects.DropHalvesWindow | src/endpoint/mod.rs:441-449 | so a drop revealed by an acknowledgement halves the window |
| EndpointEffects.TimeoutSendsAgain | src/endpoint/mod.rs:686-696 | after a timeout the frames hold the reliable fragments from the oldest unacknowledged one on, as far as the windows allow, whatever had been sent before |
| EndpointEffects.AnswerNames | src/endpoint/mod.rs:472-505 | every datagram is answered, and the next reliable fragment named exactly if one was reliable |
| EndpointEffects.SendableUntilTimeout | src/endpoint/mod.rs:147-152 | a packet with a timeout can be sent until it has passed, to the millisecond, and not after |
| EndpointEffects.ReadyExactly | src/endpoint/mod.rs:166-170 | data is ready exactly if a frame would hold some |
| EndpointEffects.SyncStartsOver | src/endpoint/mod.rs:538-548 | after a sync no packet is in progress on the unreliable channel, and the answer names the next reliable fragment |
| Endpoint.Endpoint.UpdateRtt | src/endpoint/mod.rs:352-387 | only the acknowledgement being timed changes the estimate and the timeout; a timed segment that is overdue is given up on |
| Endpoint.Endpoint.UpdateRtoTimer | src/endpoint/mod.rs:389-406 | a timer that runs is stopped when the next identifier is acknowledged and started over otherwise; one that does not is left alone |
| Endpoint.Endpoint.HandleAck | src/endpoint/mod.rs:430-453 | segments, window, queues and everything about time after an acknowledgement; the drop is judged on the state before it; the timer runs exactly when segments are unacknowledged |
| Endpoint.Endpoint.TakeSegments | src/endpoint/mod.rs:472-500 | all datagrams of the segments handed over reach their channels in order; whether there was any, and any reliable one, is reported |
| Endpoint.Endpoint.ReadStreamFrame | src/endpoint/mod.rs:408-503 | the whole state of both halves after a frame: its acknowledgement taken, its segment taken; nothing changes if it is cut short |
| Endpoint.Endpoint.HandleStreamFrame | src/endpoint/mod.rs:408-506 | a frame cut short changes nothing; otherwise both halves have read it, and a flush follows whose frames record what left the queues and answer with an acknowledgement exactly if there was a datagram, naming the next reliable fragment exactly if one was reliable; without an acknowledgement a running timer is left alone |
| Endpoint.Endpoint.HandleStreamSyncFrame | src/endpoint/mod.rs:508-550 | what waits is handed over, the packet in progress on the unreliable channel is dropped, and a flush follows that leaves a running timer alone, its first frame acknowledging and naming the next reliable fragment |
| Endpoint.Endpoint.HandleFrame | src/endpoint/mod.rs:599-653 | in every state the whole outcome of every frame: a stream frame is read and answered, a sync applied and answered, a genuine close request answered, closed upon if still open, and anything else changes nothing; whatever neither ends the connection nor holds an acknowledgement leaves a running timer alone |
| Endpoint.HandledKeeps | src/endpoint/mod.rs:599-653 | the last of these follows from the others |
| Endpoint.Endpoint.Flush | src/endpoint/mod.rs:334-341 | the frames record what left the queues, a running timer is left alone, and on return nothing is ready, or a window is full and the timer runs; nothing happens outside the active state |
| Endpoint.Endpoint.Enqueue | src/endpoint/mod.rs:328-332 | only an active endpoint accepts packets |
| Endpoint.Endpoint.HandleRtoTimer | src/endpoint/mod.rs:655-738 | the timer state expected is always there; the endpoint gives up exactly when the waits amount to the timeout; short of that the wait is doubled within its bounds, and a sync goes out, then frames that record what leaves the rewound queues, or the close request once more |
| Endpoint.Endpoint.Retry | src/endpoint/mod.rs:686-696 | a sync naming the next segment goes first, then frames that record what leaves the rewound queues; the window starts over and the timer just set is kept |
| Timer.GivesUpExactly | src/endpoint/mod.rs:655-728 | in every run without an acknowledgement from the timer's start on, active or closing: the endpoint gives up with exactly the expiry at which the timeouts amount to the limit, within ceil(timeout / 1000) of them, not before the limit has passed, and tells the host once; short of that the host's timer is set |
| Timer.StartArms | src/endpoint/mod.rs:389-406 | every start of the timer, by a segment or by an acknowledgement, is a start in that sense |
| Timer.PunctualSilence | src/endpoint/mod.rs:655-728 | if the host is punctual, the expiries come exactly when the timeouts add up to them, and giving up takes less than twice the limit and the first timeout |
| Timer.GiveUpTiming | src/endpoint/mod.rs:666-684 | expiries and total wait of a backoff that doubles within its bounds |
| Timer.GivesUp | src/endpoint/mod.rs:666-684 | and the backoff always reaches the limit |
| Timer.Lingers | src/endpoint/mod.rs:587-597 | once the connection has ended the endpoint stays closed for ten seconds, with the host's timer set, whatever still arrives; the expiry that comes then is the last |
| Endpoint.Endpoint.Disconnect | src/endpoint/mod.rs:343-350 | an active endpoint sends a request and starts closing, its timer set anew; in any other state nothing changes |
| Endpoint.Endpoint.EnterClosed | src/endpoint/mod.rs:587-597 | the host hears of the end, and its timer is left set, without timer state |
| Endpoint.Endpoint.HandleClose | src/endpoint/mod.rs:618-650 | a genuine request is always answered, and ends an active or closing connection; any other changes nothing |
| Endpoint.Endpoint.HandleCloseAck | src/endpoint/mod.rs:637-642 | a genuine answer ends a closing connection; any other changes nothing |
| StreamChannel.TakeParcels | src/endpoint/mod.rs:472-500 | what a segment carries reaches the two channels as the next of their fragments, none a lap late |
| StreamChannel.SettleKeeps | src/endpoint/mod.rs:472-500 | so do all the segments one call hands over: the order and the age of fragments follow from the segment layer, and less than a lap between two the unreliable receiver could join is all that is asked |
| StreamChannel.Ships | src/endpoint/mod.rs:172-229 | what a frame takes from the queues is what the two channels send, in order |
| StreamChannel.StreamDelivers | src/endpoint/mod.rs:408-506 | in every run of one direction, the packets received are those of the two channels one by one, those of the reliable one a prefix of what was enqueued, those of the unreliable one a subsequence of it, every one whole |
| StreamComplete.TakeAllApart | src/endpoint/mod.rs:476-500 | taking in datagrams of both channels is hearing each channel on its own |
| StreamComplete.NothingLostAllArrives | src/endpoint/mod.rs:408-506 | in every run of one direction in which every segment sent is taken in and no sync is: the reliable receiver is as far as the sender ever got, and all packets of a channel have been received once all their fragments have been sent, unless one expired unsent |
| Connection.OpenedIs | src/endpoint/mod.rs:466-503 | a frame is taken in as it was composed: its segment, under its identifier and nonce, with the serial form of its datagrams |
| Connection.HeardIs | src/endpoint/mod.rs:430-453 | and its acknowledgement heard with the history cut to five bits |
| Connection.FlushRuns | src/endpoint/mod.rs:740-858 | what a flush ensures is a run of the direction in which it sends: expiry, then one segment after another as the queues fill it; and its frames carry the segments of that run under their indices |
| Connection.FrameTakesIn | src/endpoint/mod.rs:466-506 | what a frame does to the receiving side is a delivery in the other direction, and the answer owed is what that direction's receiver reports |
| Connection.FrameTells | src/endpoint/mod.rs:430-453 | what its acknowledgement does to the sending side is a delivery of that acknowledgement |
| Connection.SyncTakesIn | src/endpoint/mod.rs:508-550 | what a sync does is its delivery and a report |
| Connection.ExpiryRuns | src/endpoint/mod.rs:686-693 | and a timeout is the rewinding of the reliable channel and a sync sent |
| Connection.MoveCouples | src/endpoint/mod.rs:328-858 | whatever an endpoint's methods do, in any order, keeps the two ends' queues, segments and buffers equal to those of the two directions, and every frame on its way true to what was sent |
| Connection.BothRefine | src/endpoint/mod.rs:328-858 | at every point of every run of two endpoints each direction is in a state one direction on its own reaches |
| Connection.BothDeliver | src/endpoint/mod.rs:408-550 | in every run of two endpoints, whatever the network does to their frames, both users receive packets of the other: the reliable ones a prefix of those enqueued, the others a subsequence, all whole |
| Connection.AcksTrusted | src/endpoint/segment_tx.rs:211-216 | in every such run an acknowledgement that is not too old is heeded exactly if it is not overtaken, and then passes the nonce check |
| ConnectionProgress.NothingLostAllArrives | src/endpoint/mod.rs:408-506 | so between two endpoints: if all that one has sent has been taken in and no sync was, the other's user has every packet whose fragments have all been sent |
| ConnectionProgress.ReliableAnswered | src/endpoint/mod.rs:486-505 | a frame that brings a reliable datagram to light is answered with the reliable fragment expected next |
| ConnectionProgress.AnswerClears | src/endpoint/mod.rs:449-450 | once an answer which names a fragment is heard, none before it is kept for sending, and no other is lost |
| Connection.Opens | src/endpoint/mod.rs:288-326 | a new endpoint, once active, is a peer that has sent and received nothing |
| Connection.Enqueues | src/endpoint/mod.rs:328-332 | the user's call is the peer's move, its queues gaining the packet |
| Connection.Flushes | src/endpoint/mod.rs:334-341 | so is a flush, and the host is given its frames |
| Connection.TakesFrame | src/endpoint/mod.rs:610-614 | so is the arrival of a stream frame, dispatched by its type |
| Connection.TakesSync | src/endpoint/mod.rs:615-617 | so is that of a sync |
| Connection.Expires | src/endpoint/mod.rs:655-696 | so is an expiry, a sync coming before the frames of its flush |
| Connection.TakesClose | src/endpoint/mod.rs:618-650 | closing touches neither queues nor segments nor packets, and only close frames are sent |

## Left out

- Eventual delivery of reliable data: the timer is stopped when all segments are acknowledged, not when all
  fragments are (`src/endpoint/mod.rs:394-397`), so the source does not guarantee it.
- Sockets, polling loops, the client and server state around an endpoint, the peer table and the timer
  queue: runtime plumbing; time is a parameter and the host is a few fields of `Endpoint.Endpoint`.
- Handshake and close frame codecs: fixed-size and repetitive; a close frame is only marked genuine or not.
- RoundTrip.Measured: smooths round trips in exact arithmetic where the source uses 32-bit floating point
  (`src/endpoint/mod.rs:357-377`); rounding is not modelled.
- Drawing nonces at random: a nonce is a parameter, or an arbitrary boolean in the endpoint.
- Sharing of packet bytes between fragments (`Arc` and ranges): a fragment holds its bytes.
- The preallocated bytes of the two reorder slots: a slot holds its segment's bytes, so the copy in place and
  the limit on a segment's length are not modelled.
- Words as arrays of machine bits: shifts and masks act on lists of bits, 64 or 32 long, bits shifted past the
  width being lost as in the source.
- Endpoint.Endpoint: holds its parts as values of the types their own classes are proved to compute, and hands
  frames to the host as contents rather than bytes; so the shared frame buffer and aliasing between parts are
  not modelled there. `Sending.FragmentTxBuffers` holds the real objects and writes a real buffer.
- Sending.FragmentTxBuffers.Enqueue: the sum of the time and a timeout is assumed to fit 64 bits.
- Endpoint.Endpoint.HandleRtoTimer: times are assumed to stay below 2^48 milliseconds, and accumulated
  waits are unbounded integers.
- Endpoint.Endpoint.UpdateRtt: asks that the clock has not run backwards since the segment being timed was sent,
  as the source's subtraction does (`src/endpoint/mod.rs:358`).
- Starvation.NothingEverLeaves: a sync is answered before the next expiry or not at all, and at most once.
- Connection.BothDeliver: begins with both endpoints active; the handshake that agrees on that is left out above.
- Debug assertions other than the one named above appear as preconditions or are proved.
