# Verified model of the Mani dual-mode transfer

A Mani transfer sends timestamped chunks over QUIC. In Dual mode every chunk goes out as one or more
unreliable datagrams and reaches the receiving application twice: through an *unreliable sink*, as it
arrives, and through a *reliable sink*, in order and complete. The reliable sink asks for what is missing
with NACKs on a FIFO control stream, the sender answers them from a bounded retransmission map, and a
credit loop, gated on the slower sink, keeps the sender from running ahead. At the end the sender announces
the final sequence number and waits for an acknowledgement.

This project models that protocol, the wire formats under it and the Opus jitter buffer on top of it, and
proves what they guarantee. Components that the program updates in place are classes whose methods are
proved equal to specification functions; the claims are lemmas about those functions, for all inputs and
all runs.

| file | module | models |
|---|---|---|
| `types.dfy`, `wire.dfy`, `messages.dfy` | `Types`, `Wire`, `Messages` | machine integers, packets, byte buffers and cursors, control messages |
| `packet.dfy` | `PacketCodec` | datagram and content headers |
| `backpressure.dfy`, `send.dfy` | `Backpressure`, `Sending` | credit bank, splitting, retransmission map, final number |
| `reassembly.dfy`, `fragment_limit.dfy` | `Reassembly`, `FragmentLimit` | fragment groups, eviction, routing to the sinks; the 16-bit fragment count |
| `assembler.dfy`, `recv.dfy` | `Assembly`, `Receiving` | reorder deque, NACKs, credit coordinator, the two sinks |
| `stream_task.dfy` | `StreamTask` | roles, NACK answering, TransferEnd and TransferEndAck, closing the write side |
| `protocol.dfy` | `Protocol` | all of the above composed into one step system, and its invariant |
| `histories.dfy`, `last_chunk.dfy`, `guarantees.dfy`, `progress.dfy` | `Histories`, `LastChunk`, `Guarantees`, `Progress` | what its runs guarantee: what was heard and what was shown, the fate of a lost last chunk, delivery, credits, retransmission; and what they have to do: ask, return and grant credits, acknowledge |
| `jitter.dfy`, `playout.dfy` | `Jitter`, `Playout` | playout before and after the end of the stream, and through it |
| `utf8.dfy`, `mani_codec.dfy`, `connection_codec.dfy` | `Utf8`, `ManiCodec`, `ConnectionCodec` | strings and control messages on the wire |

## The composed system

`Protocol.Sys` is one Dual transfer with initial sequence number 0 and fewer than 2^32 chunks, right after
TransferStart was handled. `Protocol.Action` lists the atomic steps: starting and polling a `send`, every
event of both stream tasks (with any write failing at any point), delivery of *any* datagram that ever
reached the network (so loss, reordering and duplication are all covered, cf. section 5 of RFC 9221),
reassembly, every wake-up of both sinks, their end of file and their being dropped. A `Protocol.Execution`
is any sequence of possible actions with the states around them; the theorems in `Histories`, `LastChunk`,
`Guarantees` and `Progress` hold at every point of every `Legal` execution, which is any execution for the intended
assembler and any guarded one for the written assembler (see below), with a retransmission map of at least
one entry. The steps are the specification functions the class methods are proved against (`PollSend`, `Receive`, `OnPacket`, `AfterCall`, `TakeStep`).

## What the code does where it departs from its documentation or from what was meant

- `Assembler::push` pads by `seq - cursor` whatever the deque already holds
  (src/mani/transfer/assembler.rs:55-59), and an arrival below the cursor takes the same branch and
  underflows. So the in-order promise fails: with `WrittenPaddingRepeatsAChunk` as the concrete input,
  chunk 3 is handed out twice, the second time instead of chunk 5. `Assembly.Guard` is the exact condition
  on an arrival (deque full, number inside the deque, or deque empty and number not below the cursor) for
  payloads to stay in their own slots (`AlignedIffGuarded`). What the sink hands out after the first arrival
  outside it is settled by `UnguardedArrivalBreaks`: further arrivals of the transfer can make the output
  wrong if and only if the padded deque is not full and ends at most one slot past the transfer. Theorems
  about delivery hold for the written code in runs that meet the guard, and without any guard for the
  `Intended` variant, which pads by `seq - cursor - len` and ignores numbers below the cursor.
- The capacity check refuses even the packet that would fill the hole at the head of the deque
  (src/mani/transfer/assembler.rs:42-48). A full deque with such a hole is exactly what stays silent for ever
  (`StuckForever`), one packet that overtakes a whole buffer is enough (`OneOvertakerSticks`), and in the
  composed system it cannot happen while initial and granted credits stay below the capacity
  (`NoArrivalIsRefused`).
- NACKs name only numbers that a later packet overtook, and the end of the transfer triggers none: a last
  chunk lost on the network is never asked for and its transfer never acknowledged
  (`LostLastChunkIsNeverAcked`).
- The fragment count is cut to 16 bits (src/mani/transfer/send.rs:146): `ReassembledIff` proves that a chunk
  can be reassembled if and only if it needs fewer than 65536 datagrams.
- With a configured size of 0 the retransmission map never evicts anything: `ZeroCapacityNeverEvicts`.
- Credits are debited per datagram and returned per chunk: `UnitMismatchStallsTheSender`.
- The jitter buffer's comment says 3 seconds where the constant is 15 (src/mani/transfer/jitter.rs:11,59);
  with a playout delay of 0 it conceals for ever (`ZeroDelayConcealsForever`), and a frame is played only if
  the call that takes it out of the buffer decodes it (`PlayedIffDecoded`).
- A comment says that an empty transfer is one with final equal to initial
  (src/mani/stream.rs:810-811); the code tests final + 1 (line 815), which is what is modelled.

## Model

| member | source | states |
|---|---|---|
| Guarantees.ReliableSinkDeliversAPrefix | src/mani/transfer/recv.rs:236-267 | In every run of the composed system, under any loss, reordering, duplication, eviction, retransmission and failure, the reliable sink's concatenated output is a prefix of what was sent, and the unreliable sink shows only packets that were sent |
| Guarantees.AckMeansDelivered | src/mani/transfer/send.rs:233-257 | In every run, if `end` was acknowledged, the reliable sink had handed out every chunk sent before the call, and they equal what was sent; after `end_transfer` with a chosen number, every chunk up to that number |
| Guarantees.CreditsAreConserved | src/mani/transfer/recv.rs:114-144 | In every reachable state: bank + ever debited + returns in flight or lost = initial + returned for drained chunks + granted on request; datagrams sent exceed what an open sink drained by at most initial + granted |
| Guarantees.UndeliveredIsStillStored | src/mani/transfer/send.rs:168-196 | While initial + granted credits do not exceed the retransmission map's size, every chunk sent but not handed out by an open reliable sink is still in the map with all its datagrams |
| Guarantees.OnlyStaleNacksMiss | src/mani/stream.rs:700-731 | Each number in a NACK in flight was sent, and under the same condition is already delivered or is answered with every one of its datagrams |
| Guarantees.UnitMismatchStallsTheSender | src/mani/transfer/send.rs:166-174 | If every chunk needs f or more datagrams, at most (initial + granted) / (f - 1) chunks are sent while the reliable sink is open, and whichever sinks are open if no datagram was delivered or retransmitted twice |
| Guarantees.CreditsAtRest | src/mani/transfer/send.rs:168-174 | With no credits in flight or lost and no send under way or failed, the bank holds exactly initial + returned + granted credits less one per datagram sent |
| Guarantees.NextSendCompletesIff | src/mani/transfer/send.rs:168-199 | From such a state the next send goes through if and only if its datagrams and all earlier ones are covered by the credits there ever were; otherwise it waits |
| Guarantees.NoArrivalIsRefused | src/mani/transfer/assembler.rs:42-48 | While initial + granted credits are below the deque's capacity, the deque of an open reliable sink is never full, so no arrival is refused and it is never stuck |
| Progress.SinkAsks | src/mani/transfer/recv.rs:242-258 | In every run, whenever the reliable sink reads a packet while its task runs, the commands of that read contain a NACK if and only if some chunk not yet handed out was overtaken by one stored by then, and its numbers are exactly those chunks, increasing |
| Progress.CreditsComeBack | src/mani/transfer/recv.rs:114-144 | In every run, whatever number of chunks every open sink has handed out, all of it but less than one batch has been returned as credits |
| Progress.SolicitedIsGranted | src/mani/stream.rs:529-542 | In every run the credits granted on request are exactly one batch for each credit request that was read and whose answer could be written |
| Progress.EndIsAnsweredIff | src/mani/transfer/recv.rs:211-222 | In every run the sink answers a pending end request if and only if every chunk the announced end covers has been handed out |
| Progress.DeliveredTransferIsAcknowledged | src/mani/stream.rs:794-915 | From every reachable state in which all chunks sent were handed out and nothing is under way, `end` can be called and the handshake runs through: message, forwarding, answer, acknowledgement, report; an empty transfer is acknowledged without the sink |
| Histories.ShownAtMostAsHeard | src/mani/transfer/recv.rs:347-357 | In every run the unreliable sink shows a chunk at most as often as its first datagram was delivered or retransmitted |
| Histories.DrainedIsShown | src/mani/transfer/recv.rs:87-94 | In every run the count kept for the unreliable sink is the number of chunks it has shown, saturated at 64 bits |
| Histories.ReturnedAtMostSent | src/mani/transfer/recv.rs:114-144 | If no datagram was delivered or retransmitted twice, no more credits are returned than chunks were sent, whichever sinks are open |
| LastChunk.LostLastChunkIsNeverAcked | src/mani/transfer/recv.rs:253-260 | If some datagram of the last chunk sent never came in, the chunk is not handed out, not requested and not resent, and the announced end of the whole transfer is not acknowledged |
| Protocol.RunKeepsInv | src/mani/stream.rs:133-236 | The joint invariant of sender, network, reassembly, sinks, ledger, NACKs, end-of-transfer and roles holds at every point of every execution |
| Protocol.InitIsStarted | src/mani/stream.rs:452-502 | The composed system starts where `StartTransfer` in Dual mode leads a new task and its written message leads the peer's, for every compression and announced size |
| Protocol.SenderHandles | src/mani/stream.rs:504-555 | Whatever a sender's task does at one event, it writes only stored datagrams, its own TransferEnd and credit messages, and takes credits and acknowledgements only from the peer's message |
| Protocol.ReceiverHandles | src/mani/stream.rs:747-888 | Whatever a receiver's task does at one event, it acknowledges only an answered end or an empty transfer, forwards only non-empty ends and injects only the peer's retransmission |
| Protocol.PacketKeepsSink | src/mani/transfer/recv.rs:236-267 | One guarded genuine packet keeps the sink's deque, output and credit counters consistent; the credits announced are the growth of the emitted count and the NACK asks only for numbers that were sent |
| Assembly.Assembler.Push | src/mani/transfer/assembler.rs:37-67 | The deque after a push as written, and whether it was refused |
| Assembly.Assembler.ReadOrdered | src/mani/transfer/assembler.rs:69-82 | Removes and returns exactly the leading payloads and advances the cursor by their number |
| Assembly.Assembler.MissingSequenceNumbers | src/mani/transfer/assembler.rs:84-96 | Lists the numbers of the holes |
| Assembly.Assembler.Index | src/mani/transfer/assembler.rs:103-117 | The slot of a number inside the deque, none below the cursor or beyond the end |
| Assembly.RunInvariant | src/mani/transfer/assembler.rs:37-82 | Over all runs without any guard: cursor = packets returned (mod 2^32), the last slot is never a hole, after a read the head is a hole or the deque is empty |
| Assembly.StuckForever | src/mani/transfer/assembler.rs:42-48 | A deque yields nothing over any later pushes and reads if and only if it is full with a hole in front, and then it is their fixed point |
| Assembly.OneOvertakerSticks | src/mani/transfer/assembler.rs:42-60 | A first arrival numbered capacity - 1 or more leaves the deque full behind a hole, silent for ever, with either padding and although it meets the guard |
| Assembly.PushKeepsAlignmentIff | src/mani/transfer/assembler.rs:50-60 | From an aligned deque one push keeps every payload in its own slot if and only if the arrival meets the guard |
| Assembly.PushKeepsPayloads | src/mani/transfer/assembler.rs:50-54 | Whatever arrives, a stored payload stays in its slot and is never overwritten |
| Assembly.AlignedIffGuarded | src/mani/transfer/assembler.rs:50-60 | Over whole runs of a transfer's arrivals, payloads are in their own slots throughout if and only if every arrival meets the guard |
| Assembly.ReliablePrefix | src/mani/transfer/assembler.rs:37-82 | Concatenated reads are a prefix of what was sent, for the written code in guarded runs and unconditionally for the intended variant |
| Assembly.ExactNacks | src/mani/transfer/assembler.rs:84-117 | In such runs the missing numbers are, increasing and without repeats, exactly the unreceived ones from the cursor on that a higher received one overtook |
| Assembly.UnguardedArrivalBreaks | src/mani/transfer/assembler.rs:55-59 | After the first unguarded arrival, some continuation by genuine arrivals makes the output differ from what was sent if and only if the padded deque is not full and ends at most one slot past the transfer |
| Assembly.WrittenPaddingRepeatsAChunk | src/mani/transfer/assembler.rs:55-59 | Concrete input: of five chunks the fourth is handed out twice |
| Sending.DatagramsFit | src/mani/transfer/send.rs:129-164 | Every datagram made for a chunk serializes to at most the datagram limit |
| Sending.FragmentedIffTooBig | src/mani/transfer/send.rs:129-164 | A chunk goes out as one whole datagram if and only if that datagram's serialization fits the limit; otherwise every datagram but the last serializes to exactly the limit |
| Sending.ChunksJoin | src/mani/transfer/send.rs:144-145 | The pieces are non-empty, no longer than the fragment size, and join to the payload |
| Sending.SlidingWindow | src/mani/transfer/send.rs:184-196 | After k sends from any start number, across wrap-around, the map holds exactly the last min(k, max) numbers, each with the datagrams originally sent |
| Sending.ZeroCapacityNeverEvicts | src/mani/transfer/send.rs:185-192 | With a configured size of 0 nothing that was sent is ever evicted |
| Sending.EmptySentinel | src/mani/transfer/send.rs:208-216 | The final number means "empty" to the receiver exactly when the number of chunks is a multiple of 2^32 |
| Sending.PacketsForSplits | src/mani/transfer/send.rs:141-164 | The datagrams of a chunk share one header and decode either to the whole payload or to numbered pieces, all full but the last, that join to it |
| Sending.TransferSendStream.Pieces | src/mani/transfer/send.rs:144-145 | The loop cuts the payload into exactly the consecutive pieces of the fragment size |
| Sending.TransferSendStream.MakePackets | src/mani/transfer/send.rs:129-164 | The loop over the pieces builds exactly the specified datagrams |
| Sending.TransferSendStream.StartSend | src/mani/transfer/send.rs:121-164 | What is in flight decodes back to the compressed chunk under the current number, in pieces that fit; nothing else changes and no credit is held |
| Sending.TransferSendStream.AcquireCredits | src/mani/transfer/send.rs:168-174 | Takes exactly the missing credits, or all there are, or none once the bank is closed |
| Sending.TransferSendStream.Poll | src/mani/transfer/send.rs:168-199 | One poll of the rest of `send`: credits, datagrams on the wire, map, counter and outcome |
| Sending.TransferSendStream.FinalNumber | src/mani/transfer/send.rs:208-216 | Both branches give the number before the next one, and the receiver takes it for an empty transfer exactly when the counter is where it started |
| Backpressure.BackpressureBank.PollCredit | src/mani/transfer/backpressure.rs:28-36 | A closed bank wins over available permits; a granted credit is consumed |
| Backpressure.BackpressureBank.IncreaseCredits | src/mani/transfer/backpressure.rs:17-20 | Adds exactly the amount |
| Reassembly.CompressedPacketReceiver.Run | src/mani/transfer/compression.rs:44-143 | The receive loop: groups and sink queues after any arrivals, and whether it stopped |
| Reassembly.CompressedPacketReceiver.Route | src/mani/transfer/compression.rs:155-193 | Appends to every sink still there; stops exactly when all are gone |
| Reassembly.CompressedPacketReceiver.InsertFragment | src/mani/transfer/compression.rs:76-97 | Evicts the least key at capacity, then adds the fragment to its group |
| Reassembly.CompressedPacketReceiver.AssembleGroup | src/mani/transfer/compression.rs:109-123 | The fragments in index order, or none if an index is missing |
| Reassembly.SenderMakesParts | src/mani/transfer/send.rs:143-164 | The sender's datagrams are exactly the parts the reassembly theorems speak about |
| Reassembly.CompleteGroupAssembles | src/mani/transfer/compression.rs:100-123 | By pigeonhole, a group of genuine fragments that reached its count has every index and assembles to the chunk: the missing-index branch is unreachable |
| Reassembly.ReassemblySafety | src/mani/transfer/compression.rs:68-140 | Under any interleaving, loss, duplication and eviction, everything emitted is a sent chunk with its own timestamp, all of whose datagrams arrived |
| Reassembly.EmittedAtMostAsReceived | src/mani/transfer/compression.rs:99-140 | A chunk is emitted at most as often as any one of its datagrams was received |
| Reassembly.LastPartCompletes | src/mani/transfer/compression.rs:86-137 | The arrival of the last distinct part of a chunk whose group was not evicted emits the whole chunk |
| Reassembly.EvictedIff | src/mani/transfer/compression.rs:73-84 | Another chunk's group is dropped if and only if a fragment opens a new group at capacity and no group has a smaller number; a group that stays is untouched |
| Reassembly.GroupsAreBounded | src/mani/transfer/compression.rs:73-97 | Over any arrivals there are never more groups than the configured number (one if that is 0) |
| Reassembly.FewChunksSurvive | src/mani/transfer/compression.rs:73-84 | If no more chunks than that arrive in fragments, no group is ever evicted, so `LastPartCompletes` applies to every chunk |
| Reassembly.AssembledIff | src/mani/transfer/compression.rs:109-123 | A group assembles if and only if no index below its count is missing, and then to its fragments in index order |
| Reassembly.SinksGetEveryChunk | src/mani/transfer/compression.rs:155-193 | Every open sink gets every emitted chunk, decompressed, in order; dropped ones nothing |
| Reassembly.StopsIffAllGone | src/mani/transfer/compression.rs:155-193 | Over any arrivals the receive loop stops if and only if there are sinks, all of them are gone, and a chunk was to be handed on |
| FragmentLimit.ChunkRoundTrip | src/mani/transfer/send.rs:126-164 | Datagrams of one send, in any order with any repetition: each fits the limit and parses, and together they reassemble to the chunk and nothing else |
| FragmentLimit.TruncatedCountLosesTheChunk | src/mani/transfer/send.rs:146 | A chunk of 65536 fragments or more is never reassembled, whatever arrives |
| FragmentLimit.ReassembledIff | src/mani/transfer/send.rs:143-156 | Some arrival order hands the chunk on if and only if it has fewer than 65536 datagrams |
| Receiving.CreditsTrackDrain | src/mani/transfer/recv.rs:78-144 | Over any calls: announcements sum to the emitted count, which never exceeds an open sink's drained count, and every number that all open sinks have drained is below that sum plus one batch |
| Receiving.CallKeepsCoordInv | src/mani/transfer/recv.rs:114-144 | One call announces exactly the growth of the emitted count, never more than an open sink drained, and leaves less than one batch of what every open sink drained unannounced; the effective count does not fall while a sink is open |
| Receiving.CreditCoordinator.Emit | src/mani/transfer/recv.rs:114-132 | The new counters and the announcement put on the channel, if it is open; afterwards all but less than one batch of what every open sink drained has been announced, and all of it when forced |
| Receiving.CountsAreRecorded | src/mani/transfer/recv.rs:78-112 | Over any calls, each drained count is the saturated sum of the amounts recorded for that sink, and each sink counts as closed exactly if it was closed |
| Receiving.CallKeepsUp | src/mani/transfer/recv.rs:78-132 | One call: records announce whole batches or nothing, closing a sink announces all that the remaining one drained |
| Receiving.TransferReliableRecvStream.Receive | src/mani/transfer/recv.rs:211-270 | One call of `recv` over whatever its select delivers: result, deque, replies to end requests, NACKs and credits sent |
| Receiving.SinkAsksForTheOvertaken | src/mani/transfer/recv.rs:242-258 | After any guarded run of arrivals, the call on the next packet sends a NACK if and only if, once it is stored and before the read, some number from the cursor on is overtaken, and its numbers are exactly those |
| Receiving.RecvIsSteps | src/mani/transfer/recv.rs:211-270 | A call deals with event after event, none skipped and the last end request counting, until the pending end is reached, packets can be handed out, an end is notified or no event is left |
| Receiving.RecvOutcome | src/mani/transfer/recv.rs:204-270 | End of file is returned only with the sink closed for the coordinator, packets only if there are some, and a call is suspended only if no end was notified or reached |
| Receiving.TransferUnreliableRecvStream.Receive | src/mani/transfer/recv.rs:329-360 | One wake-up of the unreliable `recv`: result, queue and credits |
| StreamTask.ManiStreamTask.Run | src/mani/stream.rs:134-236 | The loop over any events: role, counts, everything written, forwarded, injected, fired and refused, and the bank's credits and shutdown |
| StreamTask.ManiStreamTask.HandleNack | src/mani/stream.rs:700-745 | Writes the retransmissions of the requested numbers until a write fails |
| StreamTask.ManiStreamTask.HandleTransferEnd | src/mani/stream.rs:794-888 | Acknowledges an empty or sink-less transfer at once, forwards any other end and counts it as owed |
| StreamTask.ManiStreamTask.EndTransferInternal | src/mani/stream.rs:403-450 | Registers the waiter, then writes TransferEnd and a credit message; refuses outside the sender role |
| StreamTask.FinMeansAcknowledged | src/mani/stream.rs:140-158 | In every run forwarded ends = acknowledged + owed, the decrement never saturates, and when the write side is closed after the handle was dropped nothing is owed and a receiver has acknowledged |
| StreamTask.NackIsAnsweredFromTheMap | src/mani/stream.rs:700-743 | A message is among the answers to a NACK if and only if it is a stored datagram of a requested number |
| StreamTask.NackRoundTrip | src/mani/stream.rs:700-792 | The sink's NACK, written by its task, answered by the sender's and taken in again, puts exactly the stored datagrams of the requested numbers on the receiver's datagram channel, in order |
| StreamTask.StartThenEnd | src/mani/stream.rs:794-888 | For every mode, initial and final number, TransferStart followed by TransferEnd writes an acknowledgement at once if and only if the mode is UnreliableOnly or final + 1 = initial; otherwise it forwards exactly the final number and owes one more |
| StreamTask.StartReachesPeer | src/mani/stream.rs:452-502 | A task becomes a sender if and only if its TransferStart was written, and that message makes the peer a receiver of the same mode and initial number |
| StreamTask.EndIsAnnouncedAndReported | src/mani/stream.rs:403-450 | TransferEnd goes out first, the caller is refused if and only if a write fails or there is no sender role, and the acknowledgement is reported to this caller once |
| StreamTask.CreditRequestRoundTrip | src/mani/stream.rs:529-542 | A request and its answer put one batch of the answering side into the asking side's bank |
| StreamTask.CreditsReachTheBank | src/mani/stream.rs:247-281 | The credits a sink announces are those its peer's bank receives |
| StreamTask.WhenTheLoopIsLeft | src/mani/stream.rs:134-236 | An event ends the loop if and only if the peer closed, a write that must succeed failed, or a channel that must be there is gone |
| StreamTask.DroppedHandleIsSilent | src/mani/stream.rs:140-190 | After the handle is dropped its commands and the credit timer have no effect; everything else is handled as before |
| StreamTask.ResentIsInjectedIff | src/mani/stream.rs:747-792 | A resent datagram is injected, under the stream's number, if and only if the stream task is a receiver and the channel is there and has room |
| PacketCodec.PacketInverse | src/datagram/packet.rs:28-53 | A datagram parses to a packet if and only if it is that packet's serialization |
| PacketCodec.ContentInverse | src/datagram/packet.rs:79-121 | Content decodes to a payload or fragment if and only if it is its encoding |
| PacketCodec.PacketLayout | src/datagram/packet.rs:28-35 | Stream, number and timestamp are big-endian in bytes 0-7, 8-11 and 12-19, the content follows |
| PacketCodec.ContentLayout | src/datagram/packet.rs:79-99 | Content is type 0 and the payload, or type 1, fragment index and count in two big-endian bytes each, and the piece |
| PacketCodec.ParsePacketBytes | src/datagram/packet.rs:37-53 | The cursor-based parser computes the specified parse, and fails (the source panics) exactly on datagrams shorter than the header |
| Jitter.OpusJitterBuffer.YieldPcm | src/mani/transfer/jitter.rs:60-111 | One call: outcome, buffer, play point, end flag and inputs taken |
| Jitter.PlayoutBeforeEof | src/mani/transfer/jitter.rs:60-109 | Under any decoder failures the k-th output stands for first + k frames, is the frame with that timestamp if it has arrived and concealment only if not, or if the decoder failed there, and a frame far enough ahead has; outputs never pass the highest timestamp received |
| Playout.WholeRunOrder | src/mani/transfer/jitter.rs:60-109 | Whole runs through the end and beyond, with any losses, reordering and decoder failures, for frames on one grid: the timestamps put out go back at most once, not at all before the end, and never if no frame buffered when the end is taken is behind the play point |
| Playout.EndIsPassed | src/mani/transfer/jitter.rs:102-108 | A run that passes the end has one call that takes it, with the play point and the buffer of that many outputs, and goes on from there as a call of its own |
| Playout.EndingCall | src/mani/transfer/jitter.rs:66-80 | In that call the play point is first + outputs * frame, and what is taken out is the frame there, or else the least buffered one |
| Playout.SteadyBeforeEnd | src/mani/transfer/jitter.rs:60-92 | Before the end the outputs follow each other frame by frame from the first timestamp |
| Jitter.PlayedIffDecoded | src/mani/transfer/jitter.rs:66-73 | Before and after the end, a buffered frame that leaves the buffer is played if and only if the one call that removes it decodes, and in no other call |
| Jitter.DrainPlaysEveryFrame | src/mani/transfer/jitter.rs:66-80 | After the end every buffered frame is taken out exactly once, without concealment, and played if the decoder succeeds on it; then None for ever |
| Jitter.AtMostOneDescent | src/mani/transfer/jitter.rs:74-80 | For timestamps on one frame grid the drain goes back in time at most once, whatever the decoder does |
| Jitter.NoLateFrameNoDescent | src/mani/transfer/jitter.rs:74-80 | ... and never if no buffered frame was late |
| Jitter.PlayedDescendsNoMore | src/mani/transfer/jitter.rs:66-80 | The frames actually played go back in time no more often than the drain |
| Jitter.ZeroDelayConcealsForever | src/mani/transfer/jitter.rs:81-88 | With a delay of 0 every further call conceals without receiving |
| ManiCodec.ParsedIffSerialized | src/mani/codec.rs:24-227 | A frame parses to a message if and only if the message is in range and its serialization starts the frame, a nonzero data-size flag counting as 1; payload-carrying messages take the whole frame |
| ManiCodec.RoundTripIffInRange | src/mani/codec.rs:24-227 | Parsing a serialization returns the message, for all eleven kinds and any NACK list, exactly when counts and credits fit 32 bits |
| ManiCodec.SerializedIsLaid | src/mani/codec.rs:178-227 | Type code, place, width and byte order of every field of all eleven kinds |
| ManiCodec.ErrorsAreExact | src/mani/codec.rs:24-176 | A frame is refused for its type exactly if the code is above 10, and as too short exactly if it has fewer bytes than its fields need |
| ManiCodec.SerializeManiMessage | src/mani/codec.rs:46-79 | The buffer-appending serializer produces the specified bytes |
| ManiCodec.ParseManiMessage | src/mani/codec.rs:24-44 | The cursor-based parser computes the specified result, errors included |
| ConnectionCodec.RoundTripIffInRange | src/connection/codec.rs:28-175 | For every walk order of the header map and any trailing bytes, parsing a serialization returns the message with the same map exactly when every length fits its field |
| ConnectionCodec.SerializeConnectionMessage | src/connection/codec.rs:142-175 | The serializer produces the specified bytes for some walk order of the map |
| ConnectionCodec.ParseConnectionMessage | src/connection/codec.rs:78-140 | The cursor-based parser computes the specified result, errors included |
| ConnectionCodec.HeadersRead | src/connection/codec.rs:48-76 | A header map written in any order is read back as the same map |
| ConnectionCodec.LastHeaderCounts | src/connection/codec.rs:48-67 | Of any header list, keys repeated or not, the map read has exactly its keys, each with its last value |
| ConnectionCodec.ClientHelloLayout | src/connection/codec.rs:142-175 | Type code, place, width and byte order of every field of a ClientHello |
| ConnectionCodec.ServerHelloLayout | src/connection/codec.rs:142-175 | ... of a ServerHello |
| ConnectionCodec.OtherLayouts | src/connection/codec.rs:142-175 | ... and of the other messages |
| ConnectionCodec.TruncatedIsRefused | src/connection/codec.rs:78-140 | Every proper prefix of every serialization is refused as too short |
| ConnectionCodec.UnknownTypeIsTold | src/connection/codec.rs:83-87 | A frame is refused for its type exactly if its first byte is not one of the six codes |
| ConnectionCodec.BadValuesAreTold | src/connection/codec.rs:28-40 | A sized string is refused exactly if it is not UTF-8, a compression exactly if its code is unknown |
| ConnectionCodec.AnyFlagCloses | src/connection/codec.rs:129-137 | Any closing flag but 0 is read as closing |
| Utf8.ValidIffEncoded | src/connection/codec.rs:38-39 | The string check accepts exactly the concatenations of the UTF-8 encodings of Unicode scalar values, the encoder being defined by arithmetic on the scalar |

## Left out

- QUIC, TLS and tokio: modelled as FIFO queues, a network that may lose, repeat and reorder datagrams, and atomic steps chosen in any order. Channel capacities are not modelled, except that a retransmission may be dropped because its channel is full.
- Compression is a pair of functions with decompress(compress(x)) = x; Opus decoding is symbolic and only its success or failure matters.
- `LengthDelimitedCodec` framing is library code; the codecs start from one whole frame.
- Wall-clock time: the 5-second end timeout only decides whether an acknowledgement is still reported, stall timeouts and credit-request ticks are events that may happen at any time.
- Handshake, keepalive, reconnection and the datagram router are not part of this model.
- Several transfers on one stream: the end flag is never reset, so the composed system has one transfer; its TransferStart has been handled on both sides.
- Dual transfers that do not start at 0: the assembler's cursor always starts at 0, so the composed system starts there; the sender's sliding window and the final number are proved for every start.
- The `UnsupportedCompression` reply is unreachable, since every compression type is supported, and is omitted.
- Debug builds panic where a sequence number or a play point overflows; the model has the wrap-around of an optimised build.
- PacketCodec.ParsePacketBytes: a datagram shorter than its header panics in the source; the model returns None exactly then.
- Sending the datagrams and storing them in the map is one atomic step. A failed `send` ends the sender's part: a retry under the same number is not modelled, and neither is cancelling a `send` that waits for credits.
- Credit amounts travel on the composed system's control stream as unbounded numbers; that the codec cuts them to 32 bits is stated in ManiCodec.RoundTripIffInRange.
- Assembly.Assembler.Push: the waker is not modelled.
- Raw payload messages pass through the stream task but are not delivered anywhere; logging and error texts are not modelled.
