# Verification of the threader transport stack

A Dafny model of the library from bytes to typed frames, with proofs about it.

- **Delivery**: two endpoints (`ThreadDataFrames`) with stop-and-wait queues and tickets over a network that loses,
  repeats and reorders. `DeliveryProtocol` is the step system, `DeliveryTheorems`, `DeliveryLimits`, `DeliveryPacing` and
  `DeliveryContents` say what every run keeps, where that stops, when packets are resent and what exactly is written,
  `ThreadDataFrames` has the objects that are changed in place and refines the protocol.
- **Framing and the byte channel**: `Crc8`, `Crc16`, `Crc16Bursts`, `Crc32`, `PacketFraming`, `SimpleFraming` and their
  theorems; `FramingOutcomes` has the formats byte by byte; `Extraction` is the part that holds for every packet format;
  `ByteChannel`, `ByteSessions` and `ThreadHandlers` are the buffers of connections under partial input and output.
- **Frame queue**: `FrameQueue`, its theorems and runs, and the class `QueueDataFrames`.
- **Frames**: `FrameCodec` and its theorems, `CodecOutcomes` about the formats byte by byte and bytes that no writer made,
  `FrameReading` about when the reading loop ends, the classes in `DataFrames`,
  the raw reader in `RawFrames`, and the agreement of the two readers. `EndToEnd` joins codec and channel.
- **Mailbox**: `Mailbox` is the step system of posters, pipe and consumer, `ThreadBase` the loops that refine it.
- **Smaller parts**: `AsciiLines`, `HtmlEscape`, `Connections` and `ConnectionOutcomes`, `IpMasks` and `IpMaskTheorems`.

Where a class changes state, its methods are proved equal to functions on values, and the theorems about runs are about
those functions. Facts the model found that the documentation does not promise:

- The bound on packet ids is tight (`OneIdMoreBreaksIt`).
- A ticket that names id 0 would remove every packet that is not current, sent or not (`ZeroTicketRemovesAllButCurrent`);
  only peers that never write one, as `buildPacketTicket` does not, are safe (`NoZeroTicketsUnderway`).
- Any transmission puts off the resending of a lost packet, so it can starve beside other traffic (`LostPacketCanStarve`).
- The packet checksum covers the length of a payload modulo 65536 and no more (`AlterationDetectedIffCovered`).
- Clearing the buffers leaves a stale stream position (`FirstPacketAfterReconnect`).
- The capacity guard rejects some frames the library itself writes (`ScalarArrayIsLost`).
- Frame lengths that lead back keep the frame reader from ending (`LeadingBackNeverEnds`; exactly when it ends say
  `ReadingEndsIffNothingRepeats` and, by the lengths, `ReadingEndsIffAllLeadOn`).
- An open that fails at once leaves a handler connecting for good (`StrandedForGood`).
- `dequeue(count)` locks its mutex twice and never returns (`DequeueCount`).

The tag search is modelled as compiled (the literal begins with a NUL) and as declared in the header, and every theorem
about framing holds for both.

## Model

| member | source | states |
|---|---|---|
| DeliveryTheorems.NoFalseAcknowledgement | Threads/ThreadDataFrames.cpp:71-218 | In every run over a network that loses, repeats and reorders, with resends and resets at any time and fewer than 0x1FFFFFFF ids drawn by each side, every packet that a move takes out of a queue has already been processed by the peer, as that same packet |
| DeliveryTheorems.StaleTicketChangesNothing | Threads/ThreadDataFrames.cpp:134-148 | In any state at all and for any ticket, nothing but the expected id changes iff the ticket is too short or no queued packet carries the id it names; otherwise exactly the packets that carry it leave, in order |
| DeliveryTheorems.ZeroTicketRemovesAllButCurrent | Frames/DataFramesPackets.cpp:102-121 | A ticket that names id 0 removes exactly the packets that are not current, whether they were ever sent or not |
| DeliveryTheorems.NoZeroTicketsUnderway | Frames/DataFramesPackets.cpp:244-255 | In every run between two sides of this protocol every ticket under way names an id other than 0 |
| DeliveryTheorems.FirstReceiptsInOrder | Threads/ThreadDataFrames.cpp:134-218 | Under the same network and bound the first receipts of ticketed packets are a prefix of the enqueue order, and they number the acknowledged packets or one more, in both directions |
| DeliveryTheorems.NothingLost | Threads/ThreadDataFrames.cpp:134-218 | In every run, however many ids were drawn, what left a queue followed by what is in it is exactly what was enqueued, in order |
| DeliveryTheorems.InvOnEveryRun | Threads/ThreadDataFrames.cpp:71-218 | The flow invariant (window, earned tickets, fresh ids, receipts against the queue) holds after every run |
| DeliveryTheorems.WindowOnEveryRun | Threads/ThreadDataFrames.cpp:185-218 | Sender window, with no bound on the ids: either no current packet and all queued ids 0, or the current packet is the head with an id in 1..0x1FFFFFFE and all other ids are 0 |
| DeliveryTheorems.TicketRemovesAtMostTheHead | Frames/DataFramesPackets.cpp:102-115 | In every reachable state a move takes at most one packet out of the queue, and it is the current head |
| DeliveryTheorems.OnlyUnsentPacketsAreRefused | Threads/ThreadDataFrames.cpp:71-218 | The step system never gets stuck on its own guards: a move is impossible only when it delivers a packet that was never written |
| DeliveryLimits.EverythingCanStillArrive | Threads/ThreadDataFrames.cpp:66-218 | Delivery never gets stuck: every run, whatever was lost in it, can be continued, with nothing new enqueued and in 2 moves and 3 more for each queued packet, so that both queues are empty and everything ever enqueued is acknowledged, and, unless the ids came round, received by the peer exactly and in order |
| DeliveryLimits.HeadCanBeAcknowledged | Threads/ThreadDataFrames.cpp:192-218 | From every reachable state with both sides connected, resend, delivery and delivery of the ticket get the head of a queue acknowledged, and leave the other queue as it was |
| DeliveryLimits.OneIdMoreBreaksIt | Frames/DataFramesPackets.cpp:206-212 | The id bound is tight: a run that draws one id more lets a stale ticket remove a packet that the peer never saw |
| DeliveryPacing.ResentIffDue | Threads/ThreadDataFrames.cpp:192-218 | While the current packet stays current, an operation writes it, and nothing else, iff the side is connected and processQueue is come to more than 2000 ms after the last transmission of any kind; otherwise it writes no ticketed packet |
| DeliveryPacing.ResentAsOftenAsDue | Threads/ThreadDataFrames.cpp:192-218 | In every run after which a side keeps its current packet, with any traffic in both directions, the ticketed packets it writes, counted as often as they are written, are that packet alone, exactly once for each time processQueue is come to more than 2000 ms after the last transmission |
| DeliveryPacing.NeverResentWhileQuiet | Threads/ThreadDataFrames.cpp:199-207 | In particular none is written, no further copy of the current packet included, while whatever could resend comes within 2000 ms of some transmission |
| DeliveryPacing.LostPacketCanStarve | Threads/ThreadDataFrames.cpp:199-207 | From every reachable state of a connected side with a current packet and for any number of rounds: in the run that processes the queue every 2000 ms and then sends a frame without ticket, the current packet stays the head and is not written once, so if its one copy was lost it starves |
| DeliveryContents.WrittenAsMoved | Threads/ThreadDataFrames.cpp:71-178 | In every run the frames sent without ticket while connected are written, one packet each, with exactly their bytes and in the order of sending, and the data packets delivered while connected are answered, each time and in order, with a ticket that carries their id; nothing else of these two kinds is written |
| DeliveryContents.InboxIsOutbox | Threads/ThreadHandler.cpp:132-143 | What was ever written towards a side is exactly what its peer wrote |
| DeliveryContents.DirectIdsAscend | Frames/DataFramesPackets.cpp:206-212 | While the ids are fresh, the packets without ticket go under strictly ascending ids |
| DeliveryContents.SentAtOnceAsItIs | Threads/ThreadDataFrames.cpp:164-175 | A frame that needs no ticket, or for which there is no queue, is written at once as one packet with its bytes, of the type it asks for, under the next id, and only when connected |
| DeliveryContents.NextIsWrittenAtOnce | Threads/ThreadDataFrames.cpp:134-218 | In every run a packet that becomes current, after an acknowledgement, on an idle queue or after a reset, is numbered and, on a connected side, written by that very move, and no move that removes a packet or comes to processQueue leaves a queue without a current packet |
| DeliveryContents.QueueIsNeverIdle | Threads/ThreadDataFrames.cpp:192-218 | In every run without resets a queue has a current packet iff it is not empty |
| DeliveryContents.ResetStartsOver | Threads/ThreadDataFrames.cpp:185-218 | After any run a reset leaves no current packet and all packets unnumbered with their bytes, and the next processQueue of a connected side, at whatever time, writes the first under the next id |
| DeliveryContents.TransmissionsAreTimed | Threads/ThreadHandler.cpp:132-143 | A side that is not connected writes nothing; any packet written, and any connecting, is the last transmission from then on, and nothing else is |
| DeliveryContents.GapIffIdsJump | Threads/ThreadDataFrames.cpp:66-86 | In every run a received packet is reported as a gap iff another one was received since connecting and its id is not that one plus 1 in 32 bits |
| ThreadDataFrames.QueueDataFramesPackets.ApplyTicket | Frames/DataFramesPackets.cpp:102-115 | The backward loop keeps exactly the packets without the id, in order, and counts those with it |
| ThreadDataFrames.QueueDataFramesPackets.Reset | Frames/DataFramesPackets.cpp:117-121 | Every packet object in the queue gets id 0 in place, nothing else changes |
| ThreadDataFrames.QueueDataFramesPackets.Enqueue | Frames/DataFramesPackets.cpp:83-90 | The packet object goes to the end and the new count is returned; null is refused with -1 |
| ThreadDataFrames.DataFramesPacketFactory.GenerateNextPacketId | Frames/DataFramesPackets.cpp:206-212 | Ids run from 1 to 0x1FFFFFFE and start over |
| ThreadDataFrames.DataFramesPacketFactory.BuildPacketTicket | Frames/DataFramesPackets.cpp:244-255 | A ticket carries the id it answers and a fresh id of its own; the empty id gets no ticket and draws no id |
| ThreadDataFrames.ThreadDataFrames.ProcessQueue | Threads/ThreadDataFrames.cpp:192-218 | On the objects: numbers and sends the head, or resends the current packet after 2000 ms, exactly as the protocol function that the run theorems are about |
| ThreadDataFrames.ThreadDataFrames.ApplyTicket | Threads/ThreadDataFrames.cpp:134-148 | Removes by id, forgets the current packet and moves on when something was removed; -1 without a queue; refines the protocol function |
| ThreadDataFrames.ThreadDataFrames.SendFrame | Threads/ThreadDataFrames.cpp:151-178 | A frame that needs a ticket goes through the queue, any other is sent at once under a fresh id, a null frame or one without a definition is refused and changes nothing; refines the protocol function |
| ThreadDataFrames.ThreadDataFrames.OnPacketReceived | Threads/ThreadDataFrames.cpp:71-127 | Tickets are applied, both kinds of data packets are answered with a ticket, frames go up only for packets without ticket; reports a gap in the ids; refines the protocol function |
| ThreadDataFrames.ThreadDataFrames.ResetQueue | Threads/ThreadDataFrames.cpp:185-190 | No current packet, all ids 0, queue order kept |
| ThreadDataFrames.ThreadDataFrames.SendPacket | Threads/ThreadHandler.cpp:132-143 | Nothing is written for a null packet or without a connection; otherwise the packet is written as it stands at that moment |
| ThreadDataFrames.ThreadDataFrames.OnConnected | Threads/ThreadDataFrames.cpp:66-69 | A new connection forgets the expected id and leaves queue, ids and current packet as they are |
| Crc16.TableIsBitwise | Utils/CrcUtils.cpp:45-79 | Each of the 256 table entries is eight bit steps with polynomial 0x1021 |
| Crc16.CrcFrom | Utils/CrcUtils.cpp:162-172 | The three-argument loop computes the bit-serial checksum of its bytes from any start; a count of 0 or less leaves the start |
| Crc16.Crc | Utils/CrcUtils.cpp:174-183 | The two-argument loop computes the bit-serial checksum from 0xFFFF, so it agrees with the three-argument form started there |
| Crc16.BitwiseAppend | Utils/CrcUtils.cpp:162-172 | Resumable: the checksum of a concatenation is that of the second part started with the checksum of the first |
| Crc16.BitwiseInjective | Utils/CrcUtils.cpp:162-183 | For fixed data the checksum is injective in the start value |
| Crc16Bursts.BitwiseIsBits | Utils/CrcUtils.cpp:162-183 | The checksum of bytes is that of their bits entering the register one by one, most significant first |
| Crc16Bursts.BurstDetected | Utils/CrcUtils.cpp:174-183 | Data of equal length that agree outside sixteen adjacent bits, wherever these start in a byte, and have the same checksum are equal |
| Crc16Bursts.LongerBurstMissed | Utils/CrcUtils.cpp:174-183 | Sixteen is the bound: whatever the data and the start value, altering seventeen adjacent bits by the polynomial leaves the checksum as it was |
| Crc32.TableIsBitwise | Utils/CrcUtils.cpp:82-149 | Each of the 256 table entries is eight reflected bit steps as in section 8 of RFC 1952 |
| Crc32.Crc | Utils/CrcUtils.cpp:185-195 | The loop computes the bit-serial CRC-32 with initial and final complement |
| Crc8.TableIsBitwise | Utils/CrcUtils.cpp:9-43 | Each of the 256 table entries is eight reflected bit steps with 0x8C |
| Crc8.Crc | Utils/CrcUtils.cpp:151-160 | The loop computes the bit-serial checksum from 0 |
| Extraction.SegmentationIndependence | Threads/ThreadHandler.cpp:235-277 | For every prefix-stable format and arbitrary bytes, any chunking yields the packets and the leftover of the whole stream |
| Extraction.PrefixOfStream | Threads/ThreadHandler.cpp:259-277 | From the first n bytes of a stream of printed packets exactly the whole packets are extracted and exactly the bytes after them stay |
| PacketFraming.TryExtractPacket | Frames/DataFramesPackets.cpp:140-204 | The loop finds the packet, the buffer it leaves and the result code of the extraction function |
| PacketFraming.ComputeCheckSum | Frames/DataFramesPackets.cpp:189-194 | The two-argument checksum loop over the data, its length cut to sixteen bits: under 65536 bytes the bit-serial checksum of all of them from 0xFFFF |
| PacketFraming.BuildPacket | Frames/DataFramesPackets.cpp:214-225 | Tag, length and checksum fit the data, and the checksum is the one the loop computes |
| FramingOutcomes.PacketLayout | Frames/DataFramesPackets.h:38-60 | A packet byte by byte: 5A 5A, type 0, 1 or 2, length, checksum from 0xFFFF and id in 4, 2 and 4 bytes with the least significant first, then the data |
| FramingOutcomes.ExtractIsDecided | Frames/DataFramesPackets.cpp:140-204 | An attempt on any buffer is decided at the first place where a packet may start, by the bytes there: it waits for the rest of the packet, is stuck at a wrong checksum, or takes off exactly the packet that the bytes say |
| FramingOutcomes.NothingToExtract | Frames/DataFramesPackets.cpp:140-179 | When no packet may start anywhere: the compiled search keeps the last 12 bytes, the declared one the bytes from the first tag too close to the end or those behind the last tag |
| FramingOutcomes.SimplePacketLayout | Demo/Common/PacketFactories/PacketFactorySimple.cpp:126-133 | A packet of the second format byte by byte |
| FramingOutcomes.SimpleExtractIsDecided | Demo/Common/PacketFactories/PacketFactorySimple.cpp:67-113 | An attempt in the second format is decided at the first byte 55 and by the checksum over all data; without such a byte everything is kept |
| FramingTheorems.DeclaredSearchFindsFirstTag | Frames/DataFramesPackets.h:32-33 | The search for the declared tag finds its first occurrence, and none iff there is none |
| FramingTheorems.FramerStable | Frames/DataFramesPackets.cpp:140-204 | More bytes never change what was found, garbage and bad checksums included, for the search as compiled and as declared |
| FramingTheorems.ChunkingDoesNotMatter | Frames/DataFramesPackets.cpp:140-204 | Any bytes in any chunks give the packets and the leftover of the whole |
| FramingTheorems.BuiltPacketExtracted | Frames/DataFramesPackets.cpp:181-225 | A built packet, written, is extracted with the same header and data whatever follows, and exactly what follows stays |
| FramingTheorems.BuiltPacketReadsBack | Frames/DataFramesPackets.cpp:26-30 | And not before its last byte is there |
| FramingTheorems.BadChecksumBlocks | Frames/DataFramesPackets.cpp:189-198 | After a bad checksum the bytes stay and no later byte ever gets a packet out |
| FramingTheorems.AlterationDetectedIffCovered | Frames/DataFramesPackets.cpp:189-194 | Two payloads of equal length, whatever it is, that differ only within sixteen adjacent bits have different checksums iff they differ in the first length % 65536 bytes; the bytes behind these are not protected, so a payload of 65536 bytes is not at all |
| FramingTheorems.TwoBytesAreSixteenBits | Frames/DataFramesPackets.cpp:189-194 | All changes within two adjacent bytes are of that kind |
| FramingTheorems.AlteredPacketStopsIffCovered | Frames/DataFramesPackets.cpp:189-204 | A packet altered that way with its header intact is never extracted, whatever follows, when a covered byte was altered, and is extracted with the altered data otherwise |
| FramingTheorems.LongerAlterationExtracted | Frames/DataFramesPackets.cpp:189-204 | A packet with seventeen adjacent covered bits altered by the polynomial is extracted as if it had been built so |
| SimpleFraming.PacketFactorySimple.TryExtractPacket | Demo/Common/PacketFactories/PacketFactorySimple.cpp:67-113 | Trims the shared buffer in place and takes off the packet that the extraction function finds, or records why there is none |
| SimpleFraming.PacketFactorySimple.BuildPacket | Demo/Common/PacketFactories/PacketFactorySimple.cpp:126-141 | The packet built fits its data and carries the next id, in 1..0x1FFFFFFE |
| SimpleFraming.PacketFactorySimple.GenerateNextPacketId | Demo/Common/PacketFactories/PacketFactorySimple.cpp:135-141 | Ids run from 1 to 0x1FFFFFFE and start over |
| SimpleFraming.SimpleFramerStable | Demo/Common/PacketFactories/PacketFactorySimple.cpp:67-113 | The second format is prefix-stable as well |
| SimpleFraming.SimpleChunkingDoesNotMatter | Demo/Common/PacketFactories/PacketFactorySimple.cpp:67-113 | Any bytes in any chunks give the packets and the leftover of the whole |
| SimpleFraming.SimplePacketReadsBack | Demo/Common/PacketFactories/PacketFactorySimple.cpp:41-51 | A built packet is taken off as it was written, whatever follows, and not before it is whole |
| SimpleFraming.SimpleStreamReadsBack | Demo/Common/PacketFactories/PacketFactorySimple.cpp:67-133 | Of any number of bytes of a stream of built packets exactly the whole packets are extracted |
| DataStreams.DataStream.SetPosition | Utils/DataStream.cpp:27-44 | The position is clamped to the data |
| DataStreams.DataStream.Write | Utils/DataStream.cpp:97-106 | The value stands at the position, bytes before and behind it stay, the array grows with unspecified bytes when needed, the position moves behind the value |
| CodecOutcomes.WritingChangesOnly | Utils/DataStream.cpp:97-106 | Writing at any position changes exactly the bytes there, one by one, and makes the data no longer than it must be |
| CodecOutcomes.BlockIsNextBytes | Utils/DataStream.cpp:85-95 | Reading n bytes succeeds iff there are as many and any at all, and splits what is left |
| CodecOutcomes.BytesAsAnnounced | Utils/DataStream.h:104-132 | For any bytes: what a byte array read takes is announced by its first four bytes, cut to what is there |
| CodecOutcomes.StringUpToZero | Utils/DataStream.h:171-208 | For any bytes: a string is what precedes the first zero, or everything |
| DataStreams.DataStream.Read | Utils/DataStream.cpp:85-95 | The next n bytes, or failure with the stream moved to its end; at the end even 0 bytes fail, and past it everything does |
| DataStreams.DataStream.ReadByteArray | Utils/DataStream.h:104-132 | A length and that many bytes, or as many as there are; fails without a length, and when bytes are announced and none follow |
| DataStreams.DataStream.IndexOfZero | Utils/DataStream.cpp:76-83 | The first zero from the position on, or -1; past the end always -1 |
| DataStreams.DataStream.ReadString | Utils/DataStream.h:171-208 | The bytes up to the first zero, which is skipped, or all that is left; past the end the empty string, and the stream moves as far before the end as it was past it |
| ByteChannel.ByteChannelRefinesFifo | Threads/ThreadHandler.cpp:132-303 | For every interleaving of sends, partial writes and reads of any size in one connection: wire and output buffer are the packets sent as written; received are exactly the packets whose last byte was read, in order; the input buffer is exactly the rest; after draining all have arrived |
| ByteSessions.EverySessionIsFifo | Threads/ThreadHandler.cpp:99-191 | In any sequence of connections that break off at any byte: the last one is a FIFO of the packets sent over it, unless unspecified bytes precede them, as many as the position the stream was left at; what was read of a broken packet is gone |
| ByteSessions.DrainedSessionsAreFifo | Threads/ThreadHandler.cpp:99-191 | All connections are FIFOs when each breaks off with an empty output buffer, whatever the receiver had read |
| ByteSessions.WithoutConnection | Threads/ThreadHandler.cpp:132-303 | Without a connection nothing is written and nothing read; the device takes no more than there is and nothing after an error |
| ByteChannel.BothSidesOnEveryRun | Threads/ThreadHandler.cpp:132-303 | The invariant behind it, from any initial stream position |
| ByteChannel.SearchesAgree | Frames/DataFramesPackets.cpp:146-179 | On streams of built packets cut at any byte the compiled and the declared search extract the same and leave the same |
| ByteChannel.FirstPacketAfterReconnect | Threads/ThreadHandler.cpp:99-103 | After buffers are cleared the next packet is written as it should be iff the output buffer had been empty: otherwise as many unspecified bytes come first as it held |
| ByteChannel.StaleStreamIsShifted | Threads/ThreadHandler.cpp:99-103 | From a stale position the whole stream of the connection is the packets behind that garbage; it is the packets alone iff the position was 0 or nothing was sent |
| ThreadHandlers.ThreadHandler.SendPacket | Threads/ThreadHandler.cpp:132-143 | Refused without packet or connection; otherwise written behind what is buffered and flushed as far as the device takes it; refines the channel |
| ThreadHandlers.ThreadHandler.SlotOnReadyToWrite | Threads/ThreadHandler.cpp:282-303 | Exactly the bytes the device took leave the front of the buffer, and the cursor moves back by as many |
| ThreadHandlers.ThreadHandler.SlotOnReadyToRead | Threads/ThreadHandler.cpp:193-280 | Reads to the first empty result, appends, and extracts everything that can be extracted; refines the channel |
| ThreadHandlers.ReadsUntilEmpty | Threads/ThreadHandler.cpp:205-230 | The bytes taken are those of all reads before the first empty one, whole and in order |
| ThreadHandlers.ThreadHandler.ClearBuffers | Threads/ThreadHandler.cpp:99-103 | Both buffers are empty, the stream keeps its position |
| ThreadHandlers.ThreadHandler.SlotOnConnectionStateChanged | Threads/ThreadHandler.cpp:165-191 | Every change of the connection state clears both buffers |
| EndToEnd.FramesArrive | Threads/ThreadDataFrames.cpp:99-110 | Frames written into packets and sent over the byte channel are read back from the packet received in the same place, however the bytes were cut, and all of them once the channel has drained |
| FrameQueueTheorems.DrainingIsStableSort | Frames/QueueDataFrames.cpp:105-187 | With nothing in flight, as many rounds of prepareSendingList and applyTicket as there are frames, under any positive ids, hand out exactly the frames of the stable sort by descending priority before the first that cannot be sent, in that order, and leave the others |
| FrameQueueTheorems.EverythingDrainsIffSendable | Frames/QueueDataFrames.cpp:119-143 | The queue drains completely, in sorted order, iff every frame has priority at least 1 and length + 4 under the packet limit |
| FrameQueueTheorems.RoundOnSorted | Frames/QueueDataFrames.cpp:105-187 | One round takes a prefix off the sorted queue; it takes nothing iff the first frame cannot be sent at all |
| FrameQueueTheorems.SortIsStable | Frames/QueueDataFrames.cpp:126-136 | The sort the draining is compared with is one: higher priorities first, equal ones in the order of application |
| FrameQueueTheorems.SortIsPermutation | Frames/QueueDataFrames.cpp:105-187 | And it has the queued frames, each as often |
| FrameQueueRuns.InvOnEveryRun | Frames/QueueDataFrames.cpp:40-198 | Over any sequence of collect, apply, prepare, ticket and reset with any ids: stored maxima are the true ones, applied frames are the disjoint union of acknowledged and queued, the queue is in order of application, within a priority frames in flight precede waiting ones, every frame carries the id it was last handed out under |
| FrameQueueRuns.HandedOutAreHighest | Frames/QueueDataFrames.cpp:119-143 | Every frame handed out carries the new id and has the highest priority of all queued frames, those in flight included |
| QueueDataFrames.ListFitsPacket | Frames/QueueDataFrames.cpp:119-143 | Whatever is queued, the listed frames written one after the other, each behind a 4-byte length, take less than the packet limit |
| FrameQueueRuns.TicketRemovesWhatWasHandedOut | Frames/QueueDataFrames.cpp:159-181 | A ticket removes exactly the frames last handed out under its id since the last reset and keeps the order of the rest; the id 0xFFFFFFFF, and no other, removes frames that were not handed out as well |
| FrameQueueRuns.DrainingAfterAnyRun | Frames/QueueDataFrames.cpp:40-198 | After any run and a reset, draining hands out the queued frames, each once, by descending priority and in the order of application within one, up to the first that cannot be sent |
| QueueDataFrames.QueueDataFrames.CollectAppendingFrame | Frames/QueueDataFrames.cpp:40-53 | The frame goes to the end of the list to append, whose maximum follows; null changes nothing |
| QueueDataFrames.QueueDataFrames.CollectAppendingFramesList | Frames/QueueDataFrames.cpp:55-68 | Collecting a list, with its loop over all collected frames, is collecting its frames one by one |
| QueueDataFrames.QueueDataFrames.ApplyCollectedFrames | Frames/QueueDataFrames.cpp:70-98 | The collected frames move behind the queued ones, the maxima follow; 0 when there are none |
| QueueDataFrames.QueueDataFrames.PrepareSendingList | Frames/QueueDataFrames.cpp:105-144 | The loop marks the frame objects and lists them as the queue function says: the first waiting frame of the highest priority that does not fit ends the list |
| QueueDataFrames.QueueDataFrames.ApplyTicket | Frames/QueueDataFrames.cpp:146-187 | The backward loop removes the frames with the id, counts them, and leaves the maximum of the others |
| QueueDataFrames.QueueDataFrames.Reset | Frames/QueueDataFrames.cpp:189-198 | Every queued frame object waits again |
| QueueDataFrames.QueueDataFrames.MakeSnapshot | Frames/QueueDataFrames.cpp:279-293 | The snapshot is length and bytes of every queued frame in queue order |
| MailboxTheorems.NoLostWakeUp | Threads/ThreadBase.cpp:140-150 | In every reachable state of any number of posters and one consumer, until the thread has finished, a non-empty queue means a wake-up in the pipe, a poster between enqueue and signal, or a consumer about to take the queue |
| MailboxTheorems.BlockedConsumerMissedNothing | Threads/ThreadBase.cpp:421-447 | A consumer waiting on an empty pipe while nobody is posting has processed every message |
| MailboxTheorems.FinishedHasProcessedAllBeforeTerminate | Threads/ThreadBase.cpp:239-285 | When the thread has finished, every message enqueued before its terminate signal was posted was processed exactly once, and none twice |
| MailboxTheorems.MessagesConserved | Threads/ThreadBase.cpp:400-419 | At any time messages processed, in hand and queued are those enqueued, each once, re-entry of processMessages included |
| MailboxTheorems.OrderKeptIffNothingOvertaken | Threads/ThreadBase.cpp:400-419 | Processed, in hand and queued are in the order of enqueueing iff processMessages never took a non-empty queue while messages of an earlier batch were in hand |
| MailboxTheorems.InOrderWithoutReentry | Threads/ThreadBase.cpp:400-419 | So the order is kept in every run whose handlers do not call processMessages |
| MailboxTheorems.ReentryOvertakes | Threads/ThreadBase.cpp:335-352 | And it is lost in one whose handler does: the third message is processed before the second |
| MailboxTheorems.ConsumerAloneProcessesAll | Threads/ThreadBase.cpp:239-285 | Progress: when posters pause, the consumer by itself comes to rest with all messages processed, iff its last processMessages had not yet taken the queue or nothing is left in it |
| MailboxTheorems.EndsIffTerminated | Threads/ThreadBase.cpp:239-290 | After any run the consumer by itself comes to its end iff a terminate signal is in the pipe or was read; otherwise it waits for ever |
| MailboxTheorems.TerminateIsObeyed | Threads/ThreadBase.cpp:152-155 | Posting terminate after any run is enough: the consumer finishes, with all messages enqueued so far processed if it was still in its loop |
| MailboxTheorems.SignalsDoOneThing | Threads/PollerThread.cpp:76-100 | A signal read leaves the pipe and does one thing: terminate ends the loop, a wake-up has the queue taken, the end of a child does neither |
| ThreadBase.QueueMessages.Enqueue | Threads/QueueMessages.cpp:24-30 | The message goes to the end |
| ThreadBase.QueueMessages.EnqueueList | Threads/QueueMessages.cpp:32-38 | The list goes to the end in order |
| ThreadBase.QueueMessages.Dequeue | Threads/QueueMessages.cpp:40-48 | The first message, if there is one, leaves the queue |
| ThreadBase.QueueMessages.DequeueAll | Threads/QueueMessages.cpp:67-74 | Everything leaves the queue in order; when the calling thread holds the mutex already, the second lock never returns and nothing leaves |
| ThreadBase.QueueMessages.DequeueCount | Threads/QueueMessages.cpp:50-65 | Every call, whatever the count, locks the non-recursive mutex a second time and waits for ever, taking nothing and leaving the mutex locked |
| ThreadBase.ThreadBase.PostMessages | Threads/ThreadBase.cpp:140-150 | Enqueue, then signal unless finished: two steps of the step system |
| ThreadBase.ThreadBase.PostTerminateEvent | Threads/ThreadBase.cpp:152-155 | A terminate byte goes into the pipe unless the thread has finished |
| ThreadBase.ThreadBase.ProcessMessages | Threads/ThreadBase.cpp:400-419 | The loop works through the whole queue as it was, in order, and counts down what is left |
| ThreadBase.ThreadBase.Process | Threads/PollerThread.cpp:76-108 | One byte off the pipe: terminate, wake up or nothing, as the step system has it |
| ThreadBase.ThreadBase.Run | Threads/ThreadBase.cpp:239-285 | The run loop without children, last processMessages included, does exactly what the step system lets the consumer do alone; it finishes iff it was terminated or a terminate signal is in the pipe |
| FrameCodecTheorems.FramesRoundTrip | Frames/DataFramesFactory.cpp:61-124 | Written frames of known definitions are read back as they were up to the first that is not recoverable, and nothing is read behind it when it is an array; all of them are iff every one is recoverable: an array whose capacity does not exceed the bytes that follow it, or a frame that is not an array and has capacity 1 |
| FrameCodecTheorems.RepeatingAtomsRoundTrip | Frames/DataFrames.cpp:52-79 | When every array frame has an atom that is neither scalar nor a byte array, and every other frame capacity 1, the capacity guard never rejects written data and all frames are read back |
| FrameCodecTheorems.ScalarArrayIsLost | Frames/DataFrames.cpp:56-61 | Otherwise it does reject: an array frame of capacity 100 with one scalar byte is not read back |
| FrameCodecTheorems.SizeIsExact | Frames/DataFrames.cpp:189-197 | A frame writes exactly size() bytes after its length prefix |
| FrameCodecTheorems.BodyRoundTrip | Frames/DataFramesFactory.cpp:54-97 | A frame body followed by anything is decoded to the frame iff it is recoverable; an array that is not is refused, any other frame never comes back with a capacity over 1 |
| CodecOutcomes.FrameLayout | Frames/DataFrames.cpp:120-144 | A frame byte by byte: the size of what follows in four bytes, the name, a zero, the capacity of an array, the atoms |
| CodecOutcomes.ValueLayout | Utils/DataStream.h:134-169 | Plain values as they are, strings with a zero behind, byte arrays behind their length |
| CodecOutcomes.AtomsInOrder | Frames/DataFrames.cpp:120-144 | Atoms one after the other, each with its values in order |
| CodecOutcomes.CapacityAsAnnounced | Frames/DataFrames.cpp:52-79 | Whatever a reader is given: an announced capacity over the bytes that follow is refused, 0 is taken for 1, any other is the one read |
| CodecOutcomes.SpellingDoesNotMatter | Frames/DataFramesFactory.cpp:61-90 | Names that are the same in upper case read the same frame, under the name of the definition; unknown ones read nothing |
| CodecOutcomes.ReadsUpToNoFrame | Frames/DataFramesFactory.cpp:105-124 | Frames followed by bytes that are no frame (too short, an unknown name, a body that cannot be decoded) are read up to these bytes, and nothing else is |
| FrameReading.ReadingEndsIffNothingRepeats | Frames/DataFramesFactory.cpp:105-124 | For any data: the reading loop ends iff it comes to no start of a frame twice, and then within as many rounds as there are bytes |
| FrameReading.ReadingEndsIffAllLeadOn | Frames/DataFramesFactory.cpp:92-124 | Reading from the first byte, unless a decoded length wraps to a place between the first byte and its own frame: the loop ends iff the length of every decoded frame keeps the next start under 2^31 or is one of the last three 32-bit numbers |
| FrameReading.ReadFramesEnds | Frames/DataFramesFactory.cpp:105-124 | From any start, the loop ends within as many rounds as there are bytes left when the length of every decoded frame is of that kind; all other bytes may be anything |
| FrameReading.LeadingBackNeverEnds | Frames/DataFramesFactory.cpp:92-124 | A decoded frame whose length leads back to its own start, or to 0 when reading began there, keeps the loop from ever ending |
| FrameReading.WrappingLengthNeverEnds | Frames/DataFramesFactory.cpp:92-94 | It does happen: with a length of 2^32 - 4 the signed position stands still and the loop reads the same frame in every round |
| DataFrames.DataAtom.SetCapacity | Frames/DataAtoms.h:204-213 | Resized with defaults, kept values first, at least one; a byte array atom keeps its one value |
| DataFrames.DataAtom.Size | Frames/DataAtoms.h:126-135 | The sum of the sizes of its values |
| DataFrames.DataAtom.Read | Frames/DataAtoms.h:171-183 | As many values as there are places, in order, or failure |
| DataFrames.DataAtom.Write | Frames/DataAtoms.h:185-196 | All values in order behind what the stream holds |
| DataFrames.DataFrame.SetCapacity | Frames/DataFrames.cpp:158-169 | At least 1; every atom then has the number of values that the capacity calls for, those it had first and defaults behind them |
| DataFrames.DataFrame.Read | Frames/DataFrames.cpp:52-79 | On the atom objects: capacity with its guard, then every atom; the frame read, the failure and the place where the stream stops are those of the codec function |
| DataFrames.DataFrame.Write | Frames/DataFrames.cpp:120-144 | Appends exactly the codec function of the frame |
| DataFrames.DataFrame.Size | Frames/DataFrames.cpp:189-197 | The size the codec announces |
| DataFrames.DataFramesFactory.BuildFrame | Frames/DataFramesFactory.cpp:152-169 | A fresh frame of capacity 1 with one fresh atom for each definition, in order, each holding one default value |
| DataFrames.DefaultIsZeros | Frames/DataAtoms.h:204-213 | A new value is written as nothing but zeros |
| DataFrames.DataFramesFactory.ReadFrame | Frames/DataFramesFactory.cpp:61-97 | Length, name, content, and on to where the length says, as the codec function has it |
| DataFrames.DataFramesFactory.ReadFrames | Frames/DataFramesFactory.cpp:105-124 | The loop gives fresh frame objects that hold what the codec function reads, and tells whether it ended |
| RawFrames.MakeByScan | Frames/DataFrameRawData.cpp:18-83 | The scan finds name and data; invalid iff empty or the first byte is not in 33..127; no name string without data behind the name |
| RawFrames.NameAndData | Frames/DataFrameRawData.cpp:18-83 | A block with a first byte in 33..127 is a name up to the first zero and exactly the bytes behind it; a name that nothing follows is not kept; anything else is invalid |
| RawFrames.EntryLayout | Frames/QueueDataFrames.cpp:279-293 | The length before a frame stands in four bytes, least significant first |
| RawFrames.ParseSource | Frames/DataFrameRawData.cpp:178-220 | The loop collects the valid ones among the whole entries |
| RawFrames.TruncatedSnapshotParses | Frames/DataFrameRawData.cpp:178-220 | A snapshot cut at any byte parses to exactly the valid frames of the entries that end before the cut, and the next entry does not, in order, with the same bytes |
| RawFrames.SnapshotRoundTrip | Frames/QueueDataFrames.cpp:279-293 | A whole snapshot parses to its valid frames |
| RawFrameTheorems.RawReaderFindsAll | Frames/DataFramesFactory.cpp:54-59 | When names start with a byte in 33..127 the raw parser finds every written frame, and decoding one by itself gives it back iff it is recoverable with nothing behind it |
| RawFrameTheorems.ReadersAgree | Frames/DataFramesFactory.cpp:54-124 | Parsing raw and decoding each gives the same frames as decoding the stream |
| RawFrameTheorems.RawFormOfFrame | Frames/DataFrames.cpp:246-265 | The raw form of a frame holds its body; names that start with any other byte have none |
| AsciiLines.TryExtractPacket | Threads/PacketFactoryAsciiLines.cpp:35-73 | The scan loop returns exactly the non-empty segments ended by CR or LF and leaves the unterminated tail |
| AsciiLines.ChunksDoNotMatter | Threads/PacketFactoryAsciiLines.cpp:35-73 | Bytes in any list of chunks, taken off after each, give the lines and the tail of the whole |
| AsciiLines.LinesRoundTrip | Threads/PacketFactoryAsciiLines.cpp:19-25 | Lines without CR and LF, written and extracted, come back but for the empty ones |
| AsciiLines.LinesLayout | Threads/PacketFactoryAsciiLines.cpp:19-25 | Every line is written with a carriage return and a line feed behind it |
| HtmlEscape.EscapeHtml | ThirdParty/mustache/mustache.cpp:30-53 | The loop that edits the string in place computes the per-character map |
| HtmlEscape.EscapeRoundTrip | ThirdParty/mustache/mustache.cpp:55-63 | The four replacements of unescapeHtml give back every escaped string |
| HtmlEscape.NoMarkupLeft | ThirdParty/mustache/mustache.cpp:30-53 | No angle bracket and no quotation mark is left, and every other character still is |
| HtmlEscape.UndoOne | ThirdParty/mustache/mustache.cpp:58-61 | Each replacement undoes the escaping of one character and nothing else, as long as the ampersand is still escaped or is the last |
| Connections.HandlerTcpSocket.SetConnectionState | Threads/HandlerBase.cpp:151-162 | The mutual recursion of setting the state, closing and setting the descriptor ends, with one notification for the change and one socket closed |
| Connections.HandlerTcpSocket.SetSocket | Threads/HandlerBase.cpp:40-58 | An invalid descriptor disconnects, a valid one connects unless a connect is pending |
| Connections.HandlerTcpSocket.CloseSocket | Threads/HandlerTcpSocket.cpp:90-98 | Closes a valid socket once, forgets it and disconnects; does nothing without one |
| Connections.HandlerTcpSocket.OpenSocket | Threads/HandlerTcpSocket.cpp:70-88 | A handler made with a socket refuses; else connecting first, then the socket is taken over unless the call failed at once, which is reported |
| Connections.HandlerTcpSocket.ProcessEvent | Threads/HandlerTcpSocket.cpp:114-187 | Refines the event function that ConnectionOutcomes.EventOutcome is about, with its signals and its result |
| ConnectionOutcomes.EventOutcome | Threads/HandlerTcpSocket.cpp:114-187 | For any handler at rest and any event: an error, a hang-up or a refused connect closes the socket once; a connect that is ready connects; nothing else changes state or socket; which signals are told, in which order, and the result, by the flags alone; an event for another socket changes nothing |
| ConnectionOutcomes.OpenOutcome | Threads/HandlerTcpSocket.cpp:70-88 | What opening leaves and tells, for a call that gives a socket, fails at once or gives none, in any state |
| ConnectionOutcomes.AssignOutcome | Threads/HandlerBase.cpp:40-58 | A descriptor connects, unless a connect is pending; an invalid one disconnects; the socket replaced is not closed |
| ConnectionOutcomes.SetStateOutcome | Threads/HandlerBase.cpp:151-162 | A change of state is told once, and disconnecting closes the socket there is |
| ConnectionOutcomes.SocketsConserved | Threads/HandlerTcpSocket.cpp:70-98 | In every run of the thread no socket is lost and none closed twice: those closed, in order, and the current one are those the handler ever had |
| ConnectionOutcomes.TriesIffTimeHasCome | Threads/ThreadHandler.cpp:112-187 | In every run the thread tries to connect before it waits iff reconnecting is on, the client is disconnected and the reconnect time has gone by since the last disconnect (or the starting time has come) |
| Connections.Reconnector.OnBeforeWaitEvents | Threads/ThreadHandler.cpp:112-130 | The handler is opened iff reconnecting is on, it is disconnected and its time has come |
| Connections.StateFitsDescriptorOnEveryRun | Threads/HandlerBase.cpp:40-58 | At rest, after any operations, disconnected means no socket, connected means a socket, and the changes notified are exactly the changes of the state |
| Connections.DisconnectNotifiedOnce | Threads/HandlerBase.cpp:151-162 | Disconnects are notified once for each time the disconnected state was left, the current stay apart |
| Connections.TriesAreSpaced | Threads/ThreadHandler.cpp:112-187 | In every run with a clock that does not run back, whatever polls, closes and calls from outside come in between, successive tries of the thread to connect lie at least the reconnect time apart, and there are none when it is 0 |
| Connections.StrandedIffAnOpenFailedAtOnce | Threads/ThreadHandler.cpp:112-130 | In every run of what the thread itself does (opening before it waits, poll events, closing) the handler is connecting without a socket iff some open so far failed at once |
| Connections.StrandedForGood | Threads/HandlerTcpSocket.cpp:70-120 | There it stays whatever the thread does, because it opens only disconnected handlers; just an open from outside that gets further, or a descriptor from outside, moves it |
| Connections.ReopenedIffNotStranded | Threads/ThreadHandler.cpp:112-123 | After any operations, a client has a socket after the next due open that gets one iff it is not stranded |
| IpMasks.StrToBin | Utils/IpMask.cpp:142-197 | The loop over four places parses exactly what the place-by-place definition says, wildcards included |
| IpMasks.WhatParses | Utils/IpMask.cpp:142-197 | Up to four dot-free parts joined by dots parse iff each is a number from 0 to 255 or, in a pattern, begins with a star, and fewer than four only in a pattern whose last part does; the result has exactly these numbers, and wildcards at the stars and where no part is left; after a fourth dot anything may follow |
| IpMasks.EveryTextIsDotted | Utils/IpMask.cpp:150-194 | Every text is of that form, so this says of all texts what they parse to |
| IpMaskTheorems.Accepts | Utils/IpMask.cpp:10-140 | A mask made of these lines accepts an address iff every line is well formed and none prohibits everything, the address parses, no line that begins with an exclamation mark covers it, and some other line covers it or, when there is none, its first byte is 127 |
| IpMaskTheorems.PartsCounted | Utils/IpMask.cpp:33-44 | The parts that are counted against four are those between the dots that are not empty |
| IpMasks.IpMask.constructor | Utils/IpMask.cpp:33-90 | A mask parses iff all lines are well formed and none prohibits everything; the lists are the patterns of the lines in order, with 127.*.*.* when none is allowed |
| IpMasks.IpMask.MatchesPattern | Utils/IpMask.cpp:107-121 | The AND of the words followed by the OR of the bytes is matching place by place |
| IpMasks.IpMask.CheckIpAddress | Utils/IpMask.cpp:92-140 | An address is accepted iff the mask parsed, the address is well formed, no prohibited pattern matches and an allowed one does |

## Left out

- SendThroughQueue, SendDirectly and AnswerWithTicket are parts of sendFrame and onPacketReceived, split off for the proofs.
- ThreadDataFrames.ThreadDataFrames.OnPacketReceived: the number of frames that readFrames finds is an argument; callbacks to subclasses (onFrameReceived and the like) are not modelled, so they do not re-enter.
- ThreadDataFrames.ThreadDataFrames.SendPacket: the byte side of sending is in ByteChannel and ThreadHandlers; the delivery model writes whole packets.
- ThreadHandlers.ThreadHandler.SlotOnReadyToRead: portioned (UDP) mode, the mode without a packet factory and the error message posted after each batch are not modelled.
- ByteChannel.ByteChannelRefinesFifo: packets under 2^31 bytes; the sizes that a QByteArray can take are not checked when buffers grow.
- DataStreams.DataStream.Write: a stream without data (null pointer) and positions that overflow an int are not modelled.
- DataFrames.DataFramesFactory.ReadFrame: the next start is computed in 32-bit arithmetic that wraps; where the length plus 4 is under 2^31 and the sum with the start is not, the source has a signed overflow, which the language leaves undefined, and the model (FrameCodec.NextStart and what FrameReading says of such lengths) takes it for a wrap as well.
- DataFrames.DataFramesFactory.ReadFrames: takes a bound on the rounds, because the source loop need not end.
- DataFrames.DataFrame.Write: the stream stands at its end, as a fresh one does; values that do not fit their kind (a plain value of another width, a text with a zero in it) are not written.
- DataFrames.DataAtom.Write: likewise; what overwriting in the middle does is in DataStreams.DataStream.Write.
- ThreadDataFrames.QueueDataFramesPackets.Enqueue: a packet object is queued at most once at a time.
- Connections.Reconnector.OnBeforeWaitEvents: asking the handler to wait for writing is left out.
- FrameCodec takes the upper-casing of names and Windows-1251 as given: names and strings are byte sequences without zeros.
- Guid atoms (declared size and written size differ) and DateTime atoms (arithmetic on doubles) are not modelled; other plain values are opaque blocks of bytes. Atoms of unknown types are not modelled either.
- `DataFrame::read(stream, capacity)` and `readItem` have no matching writer and are not modelled.
- RawFrames.ParseSource: adds without the 32-bit wrap of the source, so a length prefix near 2^32 ends the parse instead of reading past the data.
- QueueDataFrames.QueueDataFrames.CollectAppendingFrame: a frame object is collected at most once while it is queued; the same object in two places, the mutex and the notification of the bound thread are not modelled.
- QueueDataFrames.QueueDataFrames.PrepareSendingList: the calling thread is not null, so the guard on it never refuses.
- ThreadBase.ThreadBase.ProcessMessage: what a handler does is not modelled in the class; in Mailbox a handler may post and may re-enter processMessages at any time.
- ThreadBase.ThreadBase.Run: has no children; in Mailbox ending them is calling processMessages any number of times. A poster that tests isFinished while the thread finishes, the capacity of the pipe, the event-loop mode and the Windows branches are not modelled.
- Connections.HandlerTcpSocket.ProcessEvent: the slots behind its signals belong to the byte channel and do not call back into the handler; the socket option set on success is left out.
- ThreadBase.QueueMessages.DequeueAll: the mutex is held or free for the calling thread only; waiting while another thread holds it is in Mailbox, whose steps are whole critical sections.
- IpMasks.IpMask.constructor: splitting the mask at its delimiter and QString::toInt are arguments; error texts are left out.
- Mustache rendering, settings, logs, XML definitions, traffic counters, timers, serial and UDP handlers would add only simpler members.
