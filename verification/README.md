# uxnet in Dafny

uxnet is a user-space networking stack: a buffer pool with a lock-free free
list, receive-side steering into single-producer/single-consumer rings, a batch
dispatcher, a latency histogram, and TCP-Lite, a sliding-window protocol that
gives reliable ordered delivery over datagrams. This project models that logic
and proves what it is for. `dafny verify dfyconfig.toml` covers every file.

## How it is built

**TCP-Lite** is modelled twice. `TcpLite` is the program: classes that update a
slot array, a bitmap and session fields in place. `SessionSpec` says what each
operation does as a function of the session's state, and every class method is
proved equal to its function. `Endpoint`, `Protocol` and `Connection` then put
two sessions on a channel that loses, duplicates, reorders and corrupts packets.
Each end carries unbounded ("ideal") sequence numbers beside the 32-bit ones,
the history of what it sequenced, and the set of everything it ever transmitted.
Any member of that set may be delivered at any time, any number of times.

One assumption limits old packets. A header is *fresh* when 32-bit comparison
still reads it correctly: an acknowledgement lags `snd_una_` by at most 2^31
modulo 2^32, and a data packet lags the receive base by between 1 and
2^32 - 256 modulo 2^32. The lag is counted from the numbers written in the
header, so a retransmission keeps the age of its old `ack_num`.
`AckReadRightIff` and `SeqReadRightIff` prove that these conditions are exact,
and `HalfSpaceIsFresh` that a lag of at most 2^31 always meets both.

**The lock-free structures** are step machines. The free stack runs any number
of threads, one atomic access per step, with compare-and-swap allowed to fail
for no reason. The ring runs one producer and one consumer whose loads of each
other's counter may return stale values. The pipeline interleaves submissions with
every worker's single pops, handler calls, flushes and releases.

**The arithmetic** (CRC-32, Toeplitz, the IPv4 header checksum, the histogram)
is written as the loops of the source and proved against the plain definition.
Machine words are sequences of 32 bits, least significant first.

## Where the promises end

- The comment at src/buffer_pool.cpp:32-33 calls `pop` safe under a stale load
  because a competing pop bumps the generation. A push is safe at any age. A pop is
  safe if and only if the link it read is still its buffer's link when its swap
  succeeds (`PopCasExact`, and over whole executions `SafeIffLinksCurrent`). Fewer
  than 2^32 swaps between its load and its swap guarantee that (`RecentIsSafe`), and
  2^32 do not: `GenerationWrapBreaksOwnership` builds an execution with that many
  swaps after which a buffer a caller holds is on the free list again.
- The ring needs each load of the other side's counter to be at most a ring's length
  old, and that is exact over whole executions (`SafeIffLoadsFit`). Loads by one
  thread that never go backwards always are (`CoherentIsSafe`).
- A session whose pool has no free buffer and whose caller holds none is stuck: it
  can take no datagram, so no acknowledgement ever frees a slot (`StuckForever`). One
  send reaches that over a pool of at most 256 buffers (`OneSendSticks`), and being
  stuck is the exact condition for it (`DeafIffStuck`). A caller that keeps a receive
  buffer in hand is never in that state.
- A data packet too old to be read right is filed under a newer number and handed up
  in its place (`StaleDataDelivered`).
- `mark_sent`'s release of an occupied slot, marked as not expected at
  src/tcp_lite.cpp:89, is indeed unreachable (`NextSlotVacant`).

## Model

| member | source | states |
|---|---|---|
| Connection.ReliableDelivery | src/tcp_lite.cpp:208-284 | in every reachable state, in both directions, the chunks handed to the callback are the first packets the peer sequenced, each once and in order, and their bytes are a prefix of the bytes given to send, across 2^32 wraparound |
| Connection.WindowsStayOrdered | src/tcp_lite.cpp:150-173 | in every reachable state una <= base <= next <= una + 256 in ideal numbers, no acknowledgement in flight exceeds the base, fresh ones compare as in the ideal order, and the cumulative ACK is the base |
| Connection.RepresentationHolds | src/tcp_lite.cpp:208-240 | in every reachable state the sequenced chunks (1 to 1024 bytes) and the unsent rest are all bytes given; occupied slots are exactly [una, next) with their original packets; every buffer has exactly one owner; every marked number has its own payload filed |
| Connection.Completion | src/tcp_lite.cpp:213-284 | nothing pending and snd_una_ == next_seq_ mean the peer delivered exactly everything given to send, and the two byte counters agree |
| Connection.RecoveryRound | src/tcp_lite.cpp:286-309 | a sender tick with all timeouts elapsed transmits the whole window; once its packets below any number hi have arrived, in any order and among other events and receiver ticks, the first receiver tick after some data arrival transmits an acknowledgement whose arrival takes snd_una_ to hi or beyond |
| Rounds.RoundsDeliverEverything | src/tcp_lite.cpp:208-309 | in every run with more such rounds than the unsent bytes make packets, nothing more given, and a buffer free at a tick that finds nothing outstanding, the last round leaves nothing unsent or unacknowledged and the peer with exactly the bytes given |
| Rounds.StuckForever | src/tcp_lite.cpp:216-217 | in every run, an end with no buffer free and none in the caller's hands never again sequences, accepts an acknowledgement or delivers |
| Rounds.DeafIffStuck | src/buffer_pool.cpp:96-104 | a session can take a datagram, at once or after acquiring a buffer, if and only if it is not in that state |
| Rounds.OneSendSticks | src/tcp_lite.cpp:208-217 | over a new pool of at most 256 buffers, none held, one send of at least as many chunks as buffers reaches it |
| Rounds.PoolDrainsIff | src/tcp_lite.cpp:213-217 | a pump takes the last free buffer if and only if there are packets to come and window for all that are free |
| Rounds.NextRound | src/tcp_lite.cpp:213-240 | each round leaves strictly fewer packets to come than the one before, until there are none |
| Rounds.StepKeepsTotal | src/tcp_lite.cpp:213-240 | packets sequenced plus packets the unsent bytes will take stay constant under every operation but send |
| Rounds.TickProgress | src/tcp_lite.cpp:213-240 | with nothing outstanding and a buffer free a tick sequences a packet if any is to come |
| Rounds.MirroredRun | src/tcp_lite.cpp:208-309 | a run seen from the other end is a run, so what is proved of one direction holds of both |
| Connection.StepFollowsSpec | src/tcp_lite.cpp:208-309 | the protocol step of an end is the session's own: same state, same callbacks, and every packet transmitted is in the channel's record |
| Connection.TickFollowsSpec | src/tcp_lite.cpp:286-309 | a tick transmits every timed-out unacknowledged packet and nothing the channel does not record, and hands nothing up (what timed out means is TimedOutIffDue) |
| Connection.TickResendsAll | src/tcp_lite.cpp:116-123 | when at least the timeout has passed since every stamp, a tick transmits the original packet of each number in [una, next) |
| Connection.TickTransmitsAll | src/tcp_lite.cpp:286-299 | it transmits the packets it sequences as well, so all of [una, next) as the tick leaves it |
| Connection.TickAcknowledges | src/tcp_lite.cpp:301-308 | a tick with an acknowledgement pending transmits one that carries the current base |
| Retransmission.TickResendsIffDue | src/tcp_lite.cpp:286-297 | a tick transmits an unacknowledged packet exactly once if at least the timeout has passed since it was last sent, and not at all otherwise; exactly those are stamped with the tick's time |
| Retransmission.ResendCounts | src/tcp_lite.cpp:290-297 | a packet goes out again as often as its number is listed, and its slot then carries the tick's time |
| Retransmission.PumpedStamps | src/tcp_lite.cpp:230 | the j-th packet a pump sequences is stamped with its j-th reading of the clock, and older stamps stay |
| SessionSpec.TimedOutIffDue | src/tcp_lite.cpp:120 | for 64-bit times the unsigned comparison holds if and only if the timeout has elapsed since the stamp, a stamp ahead of the clock counting as a lap behind |
| Connection.AnythingCanArrive | src/tcp_lite.cpp:242-273 | any fresh packet the peer ever transmitted can arrive next in every run, again or for the first time, and then counts as arrived |
| Connection.CorruptionIsDropped | src/tcp_lite.cpp:247-250 | so can anything that fails its checksum; it transmits nothing, hands up nothing, and changes nothing but that its buffer is free again |
| Connection.StepAdvances | src/tcp_lite.cpp:208-309 | no operation takes back history, una, base or an arrival; only a tick clears a pending acknowledgement; any delivered data packet, duplicate or not, sets it |
| Connection.RunInv | src/tcp_lite.cpp:183-309 | the pair invariant holds in every state of every run |
| Connection.InvOrdered | src/tcp_lite.cpp:252-261 | the invariant gives the window order, the exact 32-bit window size and correct reading of fresh acknowledgements |
| Connection.DeliveredIsPrefix | src/tcp_lite.cpp:275-284 | the delivered chunks are as many as the base and are the peer's first packets |
| Connection.RunAdvances | src/tcp_lite.cpp:208-309 | between any two states of a run an end only advances |
| Connection.PendingAckWaits | src/tcp_lite.cpp:264-270 | a pending acknowledgement stays pending until the receiver's tick |
| Connection.BasePasses | src/tcp_lite.cpp:275-284 | when all of [lo, hi) has arrived, in whatever order, the base is at least hi |
| Protocol.StepKeepsInv | src/tcp_lite.cpp:208-309 | every action at one end is possible and keeps the invariant of the pair |
| Protocol.DeliverKeeps | src/tcp_lite.cpp:242-273 | a fresh delivery, new or duplicate, keeps the invariant, raises una to the acknowledgement if that is news, marks the packet arrived, and leaves an acknowledgement pending for data |
| Protocol.AfterAckOk | src/tcp_lite.cpp:252-262 | an honest peer's fresh acknowledgement moves una to the larger of the two and never past next |
| Protocol.AfterDataOk | src/tcp_lite.cpp:264-270 | accepting data keeps the invariant, loses no arrival and touches nothing of the sending half |
| Protocol.OnDataOk | src/tcp_lite.cpp:264-284 | a data packet of the peer's history ends in a gap at the base, with exactly the next packets handed up |
| Protocol.ResendOk | src/tcp_lite.cpp:286-297 | resending transmits only original unacknowledged packets, every listed one among them, and changes only time stamps and the counter |
| Protocol.TickOk | src/tcp_lite.cpp:286-309 | a tick keeps the invariant of the pair |
| Protocol.SendOk | src/tcp_lite.cpp:208-211 | a send keeps the invariant of the pair |
| Protocol.CorruptKeeps | src/tcp_lite.cpp:247-250 | a packet that fails its checksum gives its buffer back and keeps the invariant of the pair |
| Endpoint.NextSlotVacant | src/tcp_lite.cpp:86-94 | with room in the window the next slot is vacant, so the overwrite branch never runs |
| Endpoint.SendOneSlots | src/tcp_lite.cpp:222-234 | filing the next packet leaves all other slots with their original packets |
| Endpoint.SendOneStream | src/tcp_lite.cpp:219-233 | cutting the next chunk conserves the byte stream and the byte counter, and the chunk is not empty |
| Endpoint.PumpAllOk | src/tcp_lite.cpp:213-235 | the pump loop keeps the sender's invariants and transmits the packets it sequences, in order, and no others |
| Endpoint.PumpedOk | src/tcp_lite.cpp:213-240 | so does the whole of pump_tx, including the reset of the pending buffer |
| Endpoint.AckedIffBelow | src/tcp_lite.cpp:100-112 | an acknowledgement frees a slot if and only if its ideal number is below it |
| Endpoint.AckedOk | src/tcp_lite.cpp:252-256 | an acknowledgement up to next keeps the sender's invariants with una moved to it |
| Endpoint.NewestIsLast | src/tcp_lite.cpp:96-114 | mark_acked reports the stamp of packet ack - 1, the newest it frees, whatever the slot order |
| Endpoint.StoreOk | src/tcp_lite.cpp:150-157 | storing a fresh packet files its payload under its own number, disturbs no other, and leaves it arrived |
| Endpoint.DeliverOneOk | src/tcp_lite.cpp:275-283 | delivery hands up the payload of the packet at the base and keeps every later payload in place |
| Endpoint.DeliverOk | src/tcp_lite.cpp:275-284 | delivery hands up exactly the next packets of the peer's history and stops at the first gap |
| Ownership.SendOneKeepsOwners | src/tcp_lite.cpp:216-230 | sequencing a packet moves one buffer from the free list to a slot and no claim is lost or doubled |
| Ownership.AckMovesClaims | src/tcp_lite.cpp:96-114 | an acknowledgement moves claims from slots to the free list, none lost, none doubled |
| Ownership.AcknowledgeKeepsOwners | src/tcp_lite.cpp:252-256 | the multiset of claims is the same before and after an acknowledgement, valid or not |
| Ownership.HeldIsElsewhere | src/tcp_lite.cpp:242-273 | a buffer in the caller's hands is neither free nor in a slot |
| Ownership.ReleaseReturnsClaim | src/tcp_lite.cpp:272 | giving a held buffer back moves its one claim to the free list |
| Ownership.TeardownReturnsEverything | src/tcp_lite.cpp:140-146 | release_all keeps single ownership, a second release_all does nothing, and with nothing held every buffer is free exactly once |
| ReceiveWindow.MarkInserts | src/tcp_lite.cpp:150-157 | as a set of sequence numbers, mark_received inserts exactly the fresh in-window numbers it did not have, and says so |
| ReceiveWindow.AdvanceDrops | src/tcp_lite.cpp:165-173 | as a set, advancing the base drops exactly the members below it |
| ReceiveWindow.AdvanceShift | src/tcp_lite.cpp:166 | the shift computed from wrapped bases is the ideal one for any forward move short of 2^32 |
| ReceiveWindow.OldAckIgnoredIff | src/tcp_lite.cpp:252-262 | an acknowledgement of nothing new changes nothing if and only if it is fresh |
| ReceiveWindow.StaleAckLosesPacket | src/tcp_lite.cpp:252-256 | one that is too old frees the oldest packet still unacknowledged |
| ReceiveWindow.OldDataRefusedIff | src/tcp_lite.cpp:150-157 | in every state, an already delivered packet is refused if and only if it is fresh or the window number it is misread as is marked already |
| ReceiveWindow.StaleDataDelivered | src/tcp_lite.cpp:264-284 | one that is not refused is filed under a newer number of the window and handed up in that number's place once everything before it has arrived |
| ReceiveWindow.DeliverHandsUp | src/tcp_lite.cpp:275-284 | delivery hands up, for each number of the marked run, the payload filed for it |
| SerialNumbers.DistanceIsTrue | src/tcp_lite.cpp:102-103 | the signed 32-bit difference is the true one if and only if that lies in [-2^31, 2^31) |
| SerialNumbers.AckReadRightIff | src/tcp_lite.cpp:253 | the test for a new acknowledgement is right if and only if the header is fresh |
| SerialNumbers.SeqReadRightIff | src/tcp_lite.cpp:151-153 | the window test is right if and only if the header is fresh, and a number in the window gets its true offset |
| SerialNumbers.HalfSpaceIsFresh | src/tcp_lite.cpp:150-157 | a header at most 2^31 behind is fresh in both senses |
| SerialNumbers.SlotOfWrap | src/tcp_lite.cpp:88 | masking a wrapped number picks the slot of the ideal one |
| SerialNumbers.ResidentAdvance | include/tcp_lite.h:69-95 | moving the window keeps the later residents of the slots and ages the earlier ones by one lap |
| TcpLite.UnackedQueue.MarkSent | src/tcp_lite.cpp:86-94 | the slot of the number holds the packet, no other slot changes, and a previous occupant's buffer goes back |
| TcpLite.UnackedQueue.MarkAcked | src/tcp_lite.cpp:96-114 | exactly the slots below the acknowledgement are vacated and their buffers released in slot order; the stamp of the newest is returned, 0 for none |
| TcpLite.UnackedQueue.CheckTimeouts | src/tcp_lite.cpp:116-123 | exactly the occupied slots past their timeout are listed, in slot order, by 64-bit subtraction |
| Protocol.HoldsIffUnacked | src/tcp_lite.cpp:125-128 | a 32-bit number has a buffer if and only if it is the image of a number in [una, next) |
| Protocol.HoldsResident | src/tcp_lite.cpp:125-128 | the buffer found for an unacknowledged number holds that number's original packet |
| TcpLite.UnackedQueue.Touch | src/tcp_lite.cpp:130-133 | only the stamp of exactly that number changes |
| TcpLite.UnackedQueue.ReleaseAll | src/tcp_lite.cpp:140-146 | every slot is vacant and every occupied one's buffer is released once |
| TcpLite.RecvBitmap.MarkReceived | src/tcp_lite.cpp:150-157 | a number is marked if and only if it lies in the window unmarked; otherwise nothing changes |
| TcpLite.RecvBitmap.CumulativeAck | src/tcp_lite.cpp:159-163 | the base plus the length of the run of marked places |
| TcpLite.RecvBitmap.Advance | src/tcp_lite.cpp:165-173 | the bitmap moves down by the 32-bit difference, whatever its size |
| ReceiveWindow.HasIffMember | src/tcp_lite.cpp:175-179 | for every number fresh enough to be read right, has is membership in the set of marked numbers |
| TcpLite.TcpLiteSession.constructor | src/tcp_lite.cpp:183-195 | a new session is empty, all numbers 0, over the given pool |
| TcpLite.TcpLiteSession.Send | src/tcp_lite.cpp:208-211 | new state and transmitted packets are those of the send function |
| TcpLite.TcpLiteSession.PumpOne | src/tcp_lite.cpp:216-234 | one iteration takes a buffer, fills, files and transmits the next packet, and makes progress |
| TcpLite.TcpLiteSession.PumpTx | src/tcp_lite.cpp:213-240 | the loop ends, and its state and transmissions are those of the pump function |
| TcpLite.TcpLiteSession.AcceptAck | src/tcp_lite.cpp:252-262 | the acknowledgement half does what its function says, pump included |
| TcpLite.TcpLiteSession.AcceptData | src/tcp_lite.cpp:264-270 | the data half does what its function says, delivery included |
| TcpLite.TcpLiteSession.OnPacketReceived | src/tcp_lite.cpp:242-273 | on every path the state, transmissions and callbacks are the specified ones and the buffer is returned once, last |
| TcpLite.TcpLiteSession.Bystander | src/tcp_lite.cpp:242-273 | the pump run from inside on_packet_received cannot overwrite the packet being read |
| TcpLite.TcpLiteSession.DeliverInOrder | src/tcp_lite.cpp:275-284 | the loop ends and hands up what the delivery function says |
| TcpLite.TcpLiteSession.ResendTimedOut | src/tcp_lite.cpp:290-297 | the resends, stamps and counter of the resend function |
| TcpLite.TcpLiteSession.Tick | src/tcp_lite.cpp:286-309 | resends, then new packets, then at most one acknowledgement, as the tick function says |
| TcpLite.TcpLiteSession.Teardown | src/tcp_lite.cpp:197-200 | all unacknowledged buffers are back in the pool |
| Crc32.Crc32Seg | src/tcp_lite.cpp:32-38 | the two table-driven loops give the bit-by-bit reflected CRC-32 (section 8 of RFC 1952) of header followed by payload |
| Crc32.CrcTable | src/tcp_lite.cpp:18-30 | entry b of the table is eight register shifts of b |
| Crc32.PolynomialTerms | src/tcp_lite.cpp:23 | the constant is the reflected generator of section 8 of RFC 1952, exponent by exponent |
| Crc32.TableStep | src/tcp_lite.cpp:35-36 | one table lookup does the work of absorbing eight bits |
| Crc32.AbsorbSegment | src/tcp_lite.cpp:35-36 | one byte loop continues the register over its segment |
| Crc32.BitSerialLinear | src/tcp_lite.cpp:23 | the register is linear over XOR in start value and input together |
| Crc32.BurstDetected | src/tcp_lite.cpp:32-38 | two equally long inputs that differ only within 32 consecutive bits leave different registers |
| Crc32.FourByteBurstDetected | src/tcp_lite.cpp:32-38 | any change confined to four consecutive bytes changes the CRC |
| Wire.ComputeChecksum | src/tcp_lite.cpp:71-75 | only the checksum field changes, and the packet then verifies |
| Wire.VerifyChecksum | src/tcp_lite.cpp:77-82 | true if and only if the field is the CRC of the packet with that field zero |
| Wire.CoveredInjective | include/tcp_lite.h:48-62 | the covered bytes determine every other header field and the payload |
| Wire.HeaderLayout | include/tcp_lite.h:48-54 | the header bytes are sequence, acknowledgement, flags and length, each least significant byte first, and a zero checksum |
| Wire.AckFlag | include/tcp_lite.h:41-46 | the acknowledgement flag is the second bit, among whatever others |
| Wire.DataPacket | src/tcp_lite.cpp:61-69 | a data packet carries the numbers, length and payload given and the acknowledgement flag alone |
| Wire.AckPacket | src/tcp_lite.cpp:52-59 | an acknowledgement carries the numbers given, no payload and that flag alone |
| Wire.ViewIgnoresTail | src/tcp_lite.cpp:243-245 | bytes after the declared length make no difference to what is received |
| Wire.BurstRejected | src/tcp_lite.cpp:77-82 | verify_checksum, over one fixed length, rejects a verifying packet altered within four consecutive covered bytes |
| Wire.BurstDropped | src/tcp_lite.cpp:242-250 | as received, such a packet fails the check in on_packet_received when the burst spares the length field |
| Wire.SentPacketsVerify | src/tcp_lite.cpp:52-69 | every data packet and acknowledgement a session builds verifies |
| FreeStack.StepRefines | src/buffer_pool.cpp:14-40 | in every interleaving a push of any age, or a pop with a current link, is an abstract push or pop, no other step touches the stack, and every load that finds the list empty, first or after a failed swap, finds the stack empty |
| FreeStack.EmptyAnswerIff | src/buffer_pool.cpp:25-31 | over every safe run, a thread past its load answers empty if the stack was empty at its last load, first or after a failed swap, and reads a link if it was not |
| FreeStack.ExhaustedCounts | src/buffer_pool.cpp:96-101 | in every execution total_exhausted_, with the threads about to count, is the number of empty answers given |
| FreeStack.AlwaysHasStep | src/buffer_pool.cpp:14-40 | no thread waits for another: every point has its next step, and a swap nobody overtook goes through, a pop's with a current link |
| FreeStack.StepsBringNearer | src/buffer_pool.cpp:14-40 | every step but a failed swap brings its call nearer its end, and no thread moves another |
| FreeStack.LoadSeesHead | src/buffer_pool.cpp:15-37 | every load, the reload after a failed swap included, sees the newest head, and a push keeps its index |
| FreeStack.EmptyMark | include/buffer_pool.h:28 | of all 32-bit indices only the last is the empty mark |
| FreeStack.SwapSeesCurrentHead | src/buffer_pool.cpp:20-37 | a swap that succeeds fewer than 2^32 swaps after its load acts on an unchanged stack |
| FreeStack.PushCasOk | src/buffer_pool.cpp:14-23 | a push, however long after its load, keeps the link chain acyclic and every index with one owner |
| FreeStack.PopCasOk | src/buffer_pool.cpp:25-40 | a pop with a current link takes the first of the abstract stack and keeps chain and owners |
| FreeStack.PopCasExact | src/buffer_pool.cpp:25-40 | a successful pop keeps the invariant, and leaves the head of the rest of the stack, if and only if its link is current |
| FreeStack.SafeIffLinksCurrent | src/buffer_pool.cpp:14-40 | over every execution, the stack stays right throughout if and only if every pop swaps in a current link |
| FreeStack.RecentIsSafe | src/buffer_pool.cpp:32-37 | executions whose pops all succeed fewer than 2^32 swaps after their loads are safe |
| FreeStack.SwapMatches | src/buffer_pool.cpp:20-37 | a swap of the packed word succeeds only when generation and index are both those seen |
| FreeStack.NoDoubleOwnership | src/buffer_pool.cpp:14-40 | over every safe run each index has one owner: what a caller holds is neither free nor with a thread, and what a thread holds is neither free, nor with a caller, nor with another thread |
| FreeStack.StepCounts | src/buffer_pool.cpp:20-39 | every step from a right stack, a pop with an old link included, keeps size_ equal, modulo 2^32, to the stack's length less pushes awaiting their add plus pops awaiting their subtract |
| FreeStack.QuiescentTotals | src/buffer_pool.cpp:96-112 | in every execution, safe or not, with all threads idle the free count is capacity - acquires + releases modulo 2^32 |
| FreeStack.QuiescentFreeCount | src/buffer_pool.cpp:96-112 | in safe runs, with all threads idle, the free count is exactly that and is the stack's length |
| FreeStack.Construct | src/buffer_pool.cpp:64-89 | the constructor fails exactly on a zero size or count, and otherwise chains all buffers, last one on top |
| FreeStack.PackInjective | include/buffer_pool.h:42-46 | packing loses nothing, so equal packed heads have equal halves |
| FreeStack.GenerationWrapBreaksOwnership | src/buffer_pool.cpp:25-40 | an execution whose last step is a pop that succeeds exactly 2^32 swaps after its load with an old link and puts a buffer a caller holds on top of the free list |
| SpscRing.FifoOverEveryRun | include/spsc_ring.h:15-31 | over every interleaving with loads at most a ring's length old and with counter wraparound, items popped are a prefix of items pushed, at most N behind |
| SpscRing.SafeIffLoadsFit | include/spsc_ring.h:15-31 | over every execution, with loads as stale as they please, the ring stays right throughout if and only if no load is more than a ring's length old |
| SpscRing.CoherentIsSafe | include/spsc_ring.h:15-31 | executions in which neither thread's loads go backwards are such runs |
| SpscRing.StepRefines | include/spsc_ring.h:15-31 | with loads at most a ring's length old, publishing the tail appends to the abstract queue, publishing the head removes its first item, no other step changes it |
| SpscRing.NoSlotRace | include/spsc_ring.h:18-28 | the slot about to be written holds no unread item, and the slot about to be read is published |
| SpscRing.FullTest | include/spsc_ring.h:18 | the wrapped full test is exact for the head that was seen |
| SpscRing.EmptyTest | include/spsc_ring.h:27 | the empty test is exact for the tail that was seen |
| SpscRing.AnswersAreRight | include/spsc_ring.h:15-31 | a push answers full exactly when by the head it loaded N items are in the ring, a pop answers empty exactly when by the tail it loaded none is, and otherwise they go on |
| SpscRing.NeverWaits | include/spsc_ring.h:15-31 | each side has a step at every point, and the item published is the one given |
| SpscRing.CallsEnd | include/spsc_ring.h:15-31 | every step of a call brings its end nearer, a refusal ends it with the ring as it was, and neither side moves the other |
| SpscRing.StaleHeadOverwrites | include/spsc_ring.h:15-22 | a loaded head keeps the invariant if and only if the tail is within a ring's length of it, and the write destroys an unread item if and only if the ring is full and the head loaded is not, modulo 2^64, the current one |
| SpscRing.StaleTailReadsAhead | include/spsc_ring.h:24-31 | a loaded tail keeps the invariant if and only if it is not behind the head, and the read finds nothing published if and only if the ring is empty and the tail loaded is not, modulo 2^64, the current one |
| SpscRing.CoherentFits | include/spsc_ring.h:15-31 | loads that never go backwards are never too old |
| SpscRing.PowersAreCapacities | include/spsc_ring.h:12 | every power of two below 2^64 is an admissible capacity |
| SpscRing.SPSCRing.Push | include/spsc_ring.h:15-22 | appends if and only if the ring is not full, otherwise changes nothing |
| SpscRing.SPSCRing.Pop | include/spsc_ring.h:24-31 | removes and returns the oldest item, or none if and only if the ring is empty |
| SpscRing.SPSCRing.IsEmpty | include/spsc_ring.h:33-36 | true if and only if nothing is queued |
| SpscRing.SPSCRing.Size | include/spsc_ring.h:38-41 | the number of queued items, across wraparound |
| Toeplitz.SlidingHash | src/rss_distributor.cpp:37-53 | the sliding window computes the XOR, over set input bits i, of key bits [i, i + 32), and every key read is inside the key |
| Toeplitz.ToeplitzHash | src/rss_distributor.cpp:26-54 | the XOR of key windows over the set bits of the four fields (section 7.1.2.8 of the Intel 82599 datasheet) |
| Toeplitz.HashByFields | src/rss_distributor.cpp:29-35 | bit j of the source address meets key bits from 31 - j, of the destination address from 63 - j, of the source port from 79 - j, of the destination port from 95 - j |
| Toeplitz.KeyIsStandard | src/rss_distributor.cpp:9-14 | the key is the datasheet's ten 32-bit registers, high byte first |
| Toeplitz.HashLinear | src/rss_distributor.cpp:44-52 | the hash of an XOR of inputs is the XOR of their hashes |
| Toeplitz.TupleHashLinear | src/rss_distributor.cpp:26-54 | the hash of a field-by-field XOR of two tuples is the XOR of their hashes |
| Ipv4Checksum.ChecksumValid | include/packet_parser.h:61-67 | for a first byte 16 v + k, folding ends, the sum stays within 32 bits, and the answer is true if and only if the big-endian words of the first 4 k bytes add up to a positive multiple of 65535 (section 3.1 of RFC 791) |
| Ipv4Checksum.HeaderLen | include/packet_parser.h:52 | the length is four times the low half of the first byte, whatever the version |
| Ipv4Checksum.StoredChecksumIsGood | include/packet_parser.h:61-67 | a version-4 header of 20 to 60 bytes with a zero field passes once its ones'-complement checksum (section 1 of RFC 1071) is stored in bytes 10 and 11 |
| Histogram.LatencyHistogram.Record | src/perf_counters.cpp:194-201 | one sample joins the recorded ones, unless the interval does not advance; count, sum, maximum and buckets are those of the recorded samples |
| Histogram.LatencyHistogram.PercentileNs | src/perf_counters.cpp:203-212 | the result is the sample at that rank in sorted order, exact below 1 us, rounded to the middle of its 10, 100 or 1000 ns bucket below 1 ms and so within 1/200, and 1000000 from there on; the maximum past the end; 0 when empty |
| Histogram.MidpointIsReported | src/perf_counters.cpp:166-188 | the bucket arithmetic gives that value for every sample |
| Histogram.RankingExists | src/perf_counters.cpp:203-212 | the samples of every histogram have an ascending order for the percentile to be compared with |
| Histogram.CrossingBucket | src/perf_counters.cpp:207-210 | the bucket where the running count first exceeds the rank is the bucket of the sample of that rank |
| Histogram.MidpointIsClose | src/perf_counters.cpp:166-188 | below 1 ms a bucket's midpoint is within 1/200 of any sample in it |
| Histogram.LatencyHistogram.RowCounts | src/perf_counters.cpp:228-244 | each printed row counts exactly the samples its label covers, and the rows sum to the sample count |
| Histogram.RowContainsSample | src/perf_counters.cpp:228-244 | every sample is printed in the row whose label covers it |
| Pipeline.PerFlowOrder | src/batch_processor.cpp:15-58 | over every interleaving of submissions with single pops, handler calls, flushes and releases, a flow's packets are dispatched in the order they were accepted, none skipped and none twice, those with a handler reach it in that order, and none is released before its dispatch |
| Pipeline.ReleasedOnce | src/batch_processor.cpp:31 | every item is released at most as often as it was accepted, and exactly as often once its ring and worker have nothing left |
| Pipeline.BatchSeenBeforeRelease | src/batch_processor.cpp:29-31 | when any buffer of a batch goes back, the handlers have seen all the batch's handle calls and then all its flushes |
| Pipeline.PipeStep | src/batch_processor.cpp:15-58 | every step keeps batches within 32, items with the worker they were steered to, and each worker's calls a prefix of its batch's handle calls and flushes |
| Pipeline.RunOk | src/rss_distributor.cpp:56-67 | in every run all packets of a flow that are accepted and not yet dispatched are in the batch and ring of the one worker its hash selects, in order |
| Pipeline.RSSDistributor.Submit | src/rss_distributor.cpp:56-67 | the item joins the one queue its hash selects if that is not full; every other queue is unchanged |
| Pipeline.QueueIsHash | src/rss_distributor.cpp:56-65 | the queue is the hash of addresses and ports for UDP, of addresses alone for other IP, and queue 0 otherwise, modulo the number of queues |
| Pipeline.FlushedOnceAfterHandles | src/batch_processor.cpp:37-58 | in a batch each handler that was called is flushed exactly once, others never, and every flush follows every handle call |
| Pipeline.TouchedIffCalled | src/batch_processor.cpp:40-44 | a handler is remembered if and only if some packet of the batch went to it |
| Pipeline.EachPacketDispatched | src/batch_processor.cpp:46-55 | in every batch a UDP packet to a registered port is handed to that port's handler, any other to the fallback if there is one, each between the calls of the packets before and after it |
| Pipeline.WorkerHasStep | src/batch_processor.cpp:15-58 | a worker always has a next step, and which one follows from how far its batch is |
| Pipeline.WorkShrinks | src/batch_processor.cpp:29-34 | every step after draining leaves less to do, until the worker is idle |
| Pipeline.AcceptedIffRoom | include/spsc_ring.h:18 | a submission can be accepted exactly while its ring has room |
| Pipeline.BatchProcessor.DispatchBatch | src/batch_processor.cpp:37-58 | the observed calls are the handle calls in batch order, then one flush per handler called |
| Pipeline.BatchProcessor.Drain | src/batch_processor.cpp:18-20 | the oldest items, 32 or all if fewer, leave the queue in order, and the rest stay |
| Pipeline.BatchProcessor.RunOnce | src/batch_processor.cpp:15-35 | one drained batch is dispatched, each of its buffers released once in order, and the three counters grow by the batch, its packets and its handle calls |

## Left out

- TcpLite.TcpLiteSession.AcceptAck: does not keep the smoothed round-trip time, because it comes from a clock conversion; the stamp it starts from is `NewestIsLast`.
- TcpLite.TcpLiteSession.PumpTx: does not model a transmit hook that calls back into a session; transmitting adds a packet to the channel, as `udp_transmit` does.
- TcpLite.TcpLiteSession.DeliverInOrder: takes the data callback as set, and the callback does not call back into the session.
- TcpLite.TcpLiteSession.OnPacketReceived: a declared length beyond the bytes in the buffer is not modelled.
- Wire.BurstDropped: says nothing of a burst over the length field, which makes the receiver hash another span.
- Connection.ReliableDelivery: supposes fresh headers from an honest peer; corrupted packets are those the checksum rejects.
- Connection.Completion: byte counters do not wrap at 2^64.
- TcpLite.TcpLiteSession.PumpOne: supposes that a pool buffer holds a header and 1024 bytes; the source copies without looking at the capacity.
- FreeStack.StepRefines: sequentially consistent interleavings, not the C++ weak memory model; fewer than 0xFFFFFFFF buffers, so that the empty mark is no index.
- FreeStack.QuiescentFreeCount: the 64-bit acquire and release totals do not wrap.
- SpscRing.SPSCRing.Size: the value between calls, not what a third thread sees from two separate loads.
- SpscRing.SPSCRing.IsEmpty: the same.
- Histogram.LatencyHistogram.PercentileNs: takes the integer rank; the floating-point product that gives it is not modelled.
- Histogram.LatencyHistogram.Record: takes the nanoseconds; the conversion from cycles and the wrap of 64-bit counters are not modelled.
- Ipv4Checksum.ChecksumValid: supposes that the declared header length lies within the bytes given.
- Pipeline.RSSDistributor.Submit: takes the parsed fields as given; parsing and its bounds are not modelled.
- Pipeline.PerFlowOrder: one thread submits, because each ring has a single producer.
- The session's pool keeps the free list and the buffers, not the statistics counters; those are in `FreeStack`.
- SYN, FIN and RST flags, which no code acts on.
- Sockets, memory mapping, NUMA placement, CPU pinning, performance events and clocks; time is an input.
- Draining of queues when the worker pool stops.
- Printing other than the row counts, benchmarks, tools and the evenness of hashing.
