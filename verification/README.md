# JRTPLIB: verified core

JRTPLIB implements RTP and RTCP (RFC 3550) and the framing of both over TCP (RFC 4571). This Dafny
project models the parts of the library that decide, count, encode and decode, and proves what they
promise. Objects whose methods update fields are classes with the same fields; each of their methods is
tied to a function on values, and the laws are lemmas about those functions and about whole runs of
them.

| files | what they model |
|---|---|
| `Bytes` | machine words, network byte order, concatenation of byte strings |
| `TcpFraming`, `TcpPackets` | length-prefixed frames on a stream socket: sender, deframer, poll loop; and RTP and RTCP packets sent over it, end to end |
| `RtpPacket` | building and parsing RTP packets |
| `RtcpPackets`, `SdesPacket`, `SdesReader` | SR, RR, SDES, BYE and APP packets, their readers and iterators |
| `WireLayout` | where everything stands in all these packets, in plain numbers |
| `CompoundPacket`, `CompoundFormat`, `CompoundRuns`, `CompoundBuilder`, `CompoundRoundTrip`, `PacketOrder`, `BuildRuns` | RTCP compound packets: the parser, the size formulas, what a build admits, the builder, what survives the trip, in which order, and what a run of calls leaves |
| `SourceStats`, `ReceiveRuns`, `JitterRuns` | receive statistics of a source, and their laws over whole runs |
| `PacketQueue`, `SourceData`, `ArrivalOrder`, `WaitingOrder` | the sorted queue of a source, an entry of the source table, and what reordering on the way does to the queue |
| `KeyHashTable` | the hash table that also keeps its elements in order of insertion |
| `SourceTable`, `SourceRuns`, `SourceAddresses`, `LifeRuns`, `RtpReach`, `SilentMembers`, `Sources` | the source table as a value, its invariants over whole runs, its address rules, what its entries tell of their sources, which entries a packet reaches, runs that leave its active count below zero, and the object |
| `Scheduler`, `SchedulerRuns`, `TimerRuns` | RTCP timing with reconsideration, and its laws over whole runs |
| `ReportMarks`, `ReportPass`, `ReportRuns`, `BlockRuns`, `PacketBuilder`, `ItemRounds`, `RepeatedReport` | which sources a report pass covers, what the blocks tell over whole runs, the packets that are built, the rounds of our own items, and a run whose second packet reports one source twice |

Points where the code does something other than one would expect, each with the exact condition:

- A late packet from before a wrap of the 16-bit sequence number is taken for one a whole cycle ahead
  (`ReceiveRuns.ExtendStep`, `ReceiveRuns.LatePacketFromBeforeWrap`). Every packet in the queue of a source
  stands under its own number exactly as long as none comes (`ArrivalOrder.OwnNumbersExactly`). The first
  that comes puts the waiting packets out of order exactly if one with a larger index is still waiting
  (`WaitingOrder.OrderBreaks`, `ArrivalOrder.SwapAtWrap`, `WaitingOrder.NobodyWaits`).
- On a TCP connection a marked RTP packet with payload type 74, 75 or 76 is handed to the RTCP side, and no
  other is (`TcpPackets.RtpIsRtp`, `TcpPackets.MarkedPacketLost`).
- The distance of two timestamps is found exactly when it is below 2^28 or the counter wrapped
  (`ReceiveRuns.TimestampDiffExact`).
- The packets kept during probation come out in the wrong order exactly when the very first is numbered
  65535 (`SourceData.ProbationOrder`).
- The number of active members misses the entries that a CSRC list made active, so it can fall below
  zero by any amount (`SourceRuns.SilentExactly`, `SilentMembers.ActiveCountBelowZero`); with negative
  counts the timer rules lose their guarantee (`SchedulerRuns.ReverseMovesTowardNow`), and runs of the
  source table lead there (`SchedulerRuns.NegativeCountsBreakTheWait`).
- The first SDES source is admitted without counting its 12 bytes, so over a whole build the size stays
  within the limit exactly if they were free when it came (`CompoundRuns.FitsExactly`). A build that
  does not fit still gets its report (`CompoundRuns.LateReport`), and `EndBuild` then writes behind the
  caller's part of an external buffer (`CompoundRuns.FirstSourceOvershoots`,
  `CompoundRuns.ReportAfterOvershoot`).
- A packet can hold two blocks for one source: exactly when the second report pass takes a source that
  was not flagged before the packet (`ReportPass.BlocksDiffer`), which happens in a run from an empty table
  (`RepeatedReport.ReportedTwice`). If the second pass takes as many as the first one skipped, this is so
  exactly when the skipped ones were not the first eligible ones
  (`ReportPass.NoSourceTwiceWhenSkippedFit`). The second block is about an interval in which no packet came
  and none was expected, where the source divides zero by zero; no other block is
  (`ReportRuns.BlocksHaveNews`).

## Model

| member | source | states |
|---|---|---|
| `TcpFraming.DeframeAppend` | src/rtptcptransmitter.cpp:862-932 | deframing can be interrupted after any byte and resumed with the bytes kept |
| `TcpFraming.DeframeEncodeAll` | src/rtptcptransmitter.cpp:799-803 | what the sender frames, the deframer takes apart again, for any frames of at most 65535 bytes and any unfinished tail |
| `TcpFraming.Reframe` | src/rtptcptransmitter.cpp:862-932 | no byte is lost or invented: framing the result again gives the stream back |
| `TcpFraming.PrefixYieldsCompletedFrames` | src/rtptcptransmitter.cpp:693-761 | after any number of bytes exactly the frames that have arrived whole are delivered |
| `TcpFraming.ChunkingDoesNotMatter` | src/rtptcptransmitter.cpp:693-761 | polling after every piece gives what the whole stream would give, however it was cut |
| `TcpFraming.SentIsReceived` | src/rtptcptransmitter.cpp:693-803 | end to end, all frames sent are delivered in order and nothing is kept |
| `TcpFraming.SocketData.ReadLength` | src/rtptcptransmitter.cpp:866-906 | the length prefix is read over any number of calls without losing a byte |
| `TcpFraming.SocketData.ProcessAvailableBytes` | src/rtptcptransmitter.cpp:862-932 | one call moves bytes from the socket to the frame and says exactly when the frame is complete |
| `TcpFraming.Receiver.PollOnce` | src/rtptcptransmitter.cpp:704-761 | one round of the loop keeps stream, frames delivered and bytes held in agreement with the reference semantics |
| `TcpFraming.Receiver.PollSocket` | src/rtptcptransmitter.cpp:693-761 | the loop ends, and delivers exactly the deframed stream, classified as RTP or RTCP |
| `TcpFraming.SendTo` | src/rtptcptransmitter.cpp:797-805 | a connection takes length and data whole, cut short without notice, or refuses them |
| `TcpFraming.SendRTPRTCPData` | src/rtptcptransmitter.cpp:770-820 | every connection is served, exactly the refusing ones are reported, and no error is returned for them |
| `TcpPackets.CompoundIsRtcp` | src/rtptcptransmitter.cpp:729-737 | every compound packet is handed to the RTCP side |
| `TcpPackets.RtpIsRtp` | src/rtptcptransmitter.cpp:729-737 | every RTP packet that can be built is handed to the RTP side, exactly unless its marker is set and its payload type is 74, 75 or 76 |
| `TcpPackets.MarkedPacketLost` | src/rtptcptransmitter.cpp:729-737 | a good RTP packet that goes to the RTCP side |
| `TcpPackets.BuiltSentReceivedParsed` | src/rtptcptransmitter.cpp:693-803 | packets built and sent over a connection arrive in order, are handed to their side and parsed into what was built, however the stream was cut |
| `RtpPacket.ParseEncode` | src/rtppacket.cpp:103-320 | every packet built is parsed back into the same fields, unless it looks like RTCP; then it is refused |
| `RtpPacket.PartsFillPacket` | src/rtppacket.cpp:103-205 | header, CSRC list, extension, payload and padding of an accepted packet sum to its length |
| `RtpPacket.EncodeParse` | src/rtppacket.cpp:103-205 | parsing loses nothing but the padding |
| `RtpPacket.ParsePadded` | src/rtppacket.cpp:140-178 | padding of any length from 1 to 255 bytes is taken off again and changes nothing else |
| `RtpPacket.HeaderRoundTrip` | src/rtppacket.cpp:281-296 | the twelve header bytes are read back as written |
| `WireLayout.RtpHeaderLayout` | src/rtppacket.cpp:281-296 | the place and the bits of every field of the fixed header |
| `WireLayout.RtpLayout` | src/rtppacket.cpp:297-320 | CSRCs, extension and payload stand behind the header, numbers with their first byte most significant |
| `RtpPacket.RTPPacket.BuildPacket` | src/rtppacket.cpp:222-320 | every refusal, the fields, the bytes of the packet, and nothing else written to an external buffer |
| `RtpPacket.RTPPacket.ParseRawPacket` | src/rtppacket.cpp:103-205 | accepts exactly the well-formed packets and leaves fields and offsets that describe them |
| `RtpPacket.RTPPacket.CheckLengths` | src/rtppacket.cpp:140-178 | the chain of length tests decides exactly whether the parts fit |
| `RtpPacket.RTPPacket.GetCSRC` | src/rtppacket.cpp:207-220 | the CSRC at an index, 0 past the end |
| `RtcpPackets.Cut24Exact` | src/rtcprrpacket.h:159-169 | a loss count survives the 24-bit field exactly if it lies in [-2^23, 2^23) |
| `RtcpPackets.BlockRoundTrip` | src/rtcpcompoundpacketbuilder.cpp:221-259 | a report block is read back with only its loss cut to 24 signed bits |
| `RtcpPackets.BlocksRoundTrip` | src/rtcpcompoundpacketbuilder.cpp:617-654 | the same for a list of blocks, in order |
| `RtcpPackets.InfoRoundTrip` | src/rtcpcompoundpacketbuilder.cpp:154-190 | sender information is read back as written |
| `WireLayout.RtcpHeaderLayout` | src/rtcpcompoundpacketbuilder.cpp:617-654 | the place of every field of the common header |
| `WireLayout.BlockLayout` | src/rtcpcompoundpacketbuilder.cpp:221-259 | the place of every field of a report block |
| `WireLayout.InfoLayout` | src/rtcpcompoundpacketbuilder.cpp:154-190 | the place of every field of the sender information |
| `WireLayout.ChunkLayout` | src/rtcpcompoundpacketbuilder.cpp:657-808 | the place of every item in an SDES chunk, and the zero bytes at its end |
| `WireLayout.ByeLayout` | src/rtcpcompoundpacketbuilder.cpp:395-465 | the place of sources and reason in a BYE packet |
| `WireLayout.AppLayout` | src/rtcpcompoundpacketbuilder.cpp:467-523 | the place of name and data in an APP packet |
| `RtcpPackets.StripPadding` | src/rtcpsrpacket.cpp:43-70 | padding is stripped, or refused, as the packet classes do |
| `RtcpPackets.PaddingIsTakenOff` | src/rtcpsrpacket.cpp:43-70 | padding that counts itself in a multiple of four is taken off, and nothing else is taken for padding |
| `RtcpPackets.RTCPReportPacket.GetReport` | src/rtcprrpacket.h:137-203 | the readers return the block at an index, and zeros if the format is unknown |
| `RtcpPackets.RTCPReportPacket.constructor` | src/rtcprrpacket.cpp:43-70 | the format is known exactly if the length is that of the announced number of blocks |
| `RtcpPackets.ByeRoundTrip` | src/rtcpbyepacket.cpp:44-76 | sources and reason of a BYE survive in spite of the zero bytes at its end |
| `RtcpPackets.RTCPBYEPacket.constructor` | src/rtcpbyepacket.cpp:44-76 | decides exactly whether a BYE is readable, and where its reason stands |
| `RtcpPackets.RTCPBYEPacket.GetReason` | src/rtcpbyepacket.h:106-135 | the reason of a known BYE |
| `RtcpPackets.AppRoundTrip` | src/rtcpapppacket.cpp:45-70 | subtype, source, name and data of an APP packet survive |
| `SdesPacket.ReadItemsBytes` | src/rtcpsdespacket.cpp:86-123 | an item list is read back as written, from any aligned place in a packet |
| `SdesPacket.ReadChunksBytes` | src/rtcpcompoundpacketbuilder.cpp:657-730 | a list of chunks is read back as written |
| `SdesPacket.ReadItemsLayout` | src/rtcpsdespacket.cpp:86-123 | what a reader accepts as an item list lies in bounds, item by item, up to its end |
| `SdesPacket.ReadChunksLayout` | src/rtcpsdespacket.cpp:69-135 | the same for chunks: they lie back to back and in bounds |
| `SdesReader.SkipChunks` | src/rtcpsdespacket.cpp:62-143 | the outer loop accepts exactly if the announced number of chunks fills the packet |
| `SdesReader.Validate` | src/rtcpsdespacket.cpp:44-143 | the nested loops accept exactly the packets whose chunks fill them up to the padding |
| `SdesReader.SkipChunk` | src/rtcpsdespacket.cpp:83-134 | one chunk is accepted exactly if its item list ends in bounds, and the next starts aligned after it |
| `SdesReader.RTCPSDESPacket.GotoNextItem` | src/rtcpsdespacket.h:225-244 | the item iterator stays in bounds and visits the items in order |
| `SdesReader.RTCPSDESPacket.GotoNextChunk` | src/rtcpsdespacket.h:175-200 | the chunk iterator stays in bounds and visits the chunks in order |
| `SdesReader.RTCPSDESPacket.Collect` | src/rtcpsdespacket.h:162-244 | walking a packet visits every chunk and every item once, exactly as many chunks as announced |
| `SdesReader.PrivateRoundTrip` | src/rtcpsdespacket.h:304-379 | prefix and value of a private item survive |
| `CompoundPacket.ParseExact` | src/rtcpcompoundpacket.cpp:105-198 | parsing succeeds with a list exactly if the bytes are that list put together and it is a compound packet of RFC 3550 |
| `CompoundPacket.SplitSound` | src/rtcpcompoundpacket.cpp:121-187 | what is cut up is what was there, and every piece is well formed |
| `CompoundPacket.SplitComplete` | src/rtcpcompoundpacket.cpp:121-187 | every well-formed list put together is cut up again into that list |
| `CompoundPacket.Inspect` | src/rtcpcompoundpacket.cpp:150-171 | each piece goes to the class of its type, which says whether the format is known |
| `CompoundPacket.RTCPCompoundPacket.ParseData` | src/rtcpcompoundpacket.cpp:105-198 | the loop ends on every input, decides exactly like the definition and leaves the packet list with types, offsets and lengths |
| `CompoundFormat.ReportSizeExact` | src/rtcpcompoundpacketbuilder.h:174-211 | the formula for reports is the number of bytes written, across the split at 31 blocks |
| `CompoundFormat.SdesSizeExact` | src/rtcpcompoundpacketbuilder.h:305-323 | the formula for SDES is the number of bytes written, across the split at 31 chunks |
| `CompoundFormat.SizeExact` | src/rtcpcompoundpacketbuilder.cpp:577-730 | the sum of all formulas is the number of bytes written |
| `CompoundFormat.PacketsBuilt` | src/rtcpcompoundpacketbuilder.cpp:592-808 | every packet written is version 2, unpadded, announces its own length modulo 262144 and has a known format |
| `CompoundFormat.BuildThenParse` | src/rtcpcompoundpacketbuilder.cpp:567-808 | what was built is parsed into that very list of packets exactly if no packet is longer than 262144 bytes |
| `CompoundFormat.SmallEnoughParses` | src/rtcpcompoundpacketbuilder.cpp:567-808 | hence always within a limit of 262144 bytes |
| `CompoundRuns.StepFits` | src/rtcpcompoundpacketbuilder.cpp:154-521 | a call passes the limit exactly if it is the first source without 12 free bytes, and no call undoes that |
| `CompoundRuns.FitsExactly` | src/rtcpcompoundpacketbuilder.cpp:154-521 | over every run of calls the size stays within the limit exactly if those 12 bytes were free, and passes it by at most 40 |
| `CompoundRuns.LateReport` | src/rtcpcompoundpacketbuilder.cpp:154-219 | while there is no report yet, one is let in exactly if it fits or the limit is passed already |
| `CompoundRuns.FirstSourceOvershoots` | src/rtcpcompoundpacketbuilder.h:346-353 | with 610 bytes and 25 blocks the packet grows from 608 to 620 |
| `CompoundRuns.ReportAfterOvershoot` | src/rtcpcompoundpacketbuilder.cpp:154-219 | a build that passed the limit without a report still gets one |
| `CompoundRoundTrip.ValuesSurvive` | src/rtcpcompoundpacketbuilder.cpp:221-465 | blocks, chunks with their items, APP and BYE packets are read back complete and in order, across all splits |
| `CompoundRoundTrip.BlocksSurviveExactly` | src/rtcprrpacket.h:159-169 | the blocks are unchanged exactly if every loss fits 24 signed bits |
| `CompoundRoundTrip.FirstReport` | src/rtcpcompoundpacketbuilder.cpp:592-656 | the first packet carries our source and, in an SR, the sender information |
| `PacketOrder.EachPacket` | src/rtcpcompoundpacketbuilder.cpp:657-808 | how many packets a receiver finds in a compound packet, and which source, blocks, chunks, APP or BYE data each of them holds |
| `PacketOrder.KindsInOrder` | src/rtcpcompoundpacketbuilder.cpp:567-808 | reports come first, then SDES, then APP, then BYE packets, and nothing but a BYE follows a BYE |
| `BuildRuns.AcceptedInOrder` | src/rtcpcompoundpacketbuilder.cpp:130-523 | over every run of calls the content is what was accepted, in the order of the calls, every item behind its source |
| `BuildRuns.AcceptedIsRead` | src/rtcpcompoundpacketbuilder.cpp:130-808 | and that is what a receiver reads, packet by packet |
| `CompoundBuilder.RTCPCompoundPacketBuilder.InitBuild` | src/rtcpcompoundpacketbuilder.cpp:108-152 | each refusal, and the limits a build starts with |
| `CompoundBuilder.RTCPCompoundPacketBuilder.StartReport` | src/rtcpcompoundpacketbuilder.cpp:154-219 | each refusal, with the unsigned subtraction of the source, and the report started |
| `CompoundBuilder.RTCPCompoundPacketBuilder.AddReportBlock` | src/rtcpcompoundpacketbuilder.cpp:221-259 | a block is accepted exactly if everything still fits with it |
| `CompoundBuilder.RTCPCompoundPacketBuilder.AddSDESSource` | src/rtcpcompoundpacketbuilder.cpp:261-281 | the first source is accepted without its 12 bytes, so it keeps the limit exactly if they were free; later ones are accepted exactly if everything fits |
| `CompoundBuilder.RTCPCompoundPacketBuilder.AddSDESNormalItem` | src/rtcpcompoundpacketbuilder.cpp:283-346 | an item is accepted exactly if there is a source, its type is known and everything fits |
| `CompoundBuilder.RTCPCompoundPacketBuilder.AddSDESPrivateItem` | src/rtcpcompoundpacketbuilder.cpp:349-392 | the same for a private item of at most 255 bytes |
| `CompoundBuilder.RTCPCompoundPacketBuilder.AddBYEPacket` | src/rtcpcompoundpacketbuilder.cpp:395-465 | accepted exactly for at most 31 sources and if everything fits; laid out with its padding |
| `CompoundBuilder.RTCPCompoundPacketBuilder.AddAPPPacket` | src/rtcpcompoundpacketbuilder.cpp:467-521 | accepted exactly for a legal subtype and data length and if everything fits |
| `CompoundBuilder.RTCPCompoundPacketBuilder.SdesNeededBytes` | src/rtcpcompoundpacketbuilder.h:305-323 | the summing loop computes the SDES formula |
| `CompoundBuilder.RTCPCompoundPacketBuilder.SdesNeededWithExtraItem` | src/rtcpcompoundpacketbuilder.h:325-344 | the same with one more item in the current source |
| `CompoundBuilder.RTCPCompoundPacketBuilder.SdesNeededWithExtraSource` | src/rtcpcompoundpacketbuilder.h:346-368 | the same with one more source, but 0 while there is none |
| `CompoundBuilder.RTCPCompoundPacketBuilder.WriteReports` | src/rtcpcompoundpacketbuilder.cpp:592-656 | the nested loops write the report packets, 31 blocks each |
| `CompoundBuilder.RTCPCompoundPacketBuilder.WriteAllSdes` | src/rtcpcompoundpacketbuilder.cpp:657-730 | the nested loops write the SDES packets, 31 chunks each, padded |
| `CompoundBuilder.RTCPCompoundPacketBuilder.EndBuild` | src/rtcpcompoundpacketbuilder.cpp:567-808 | the buffer holds exactly the packets of what was added, its length is the formula's, the recorded list is the parser's, and nothing behind it is written |
| `SourceStats.RTPSourceStats.ProcessPacket` | src/rtpsourcedata.cpp:78-261 | probation, numbering, counts, jitter and times after a packet, and whether it is accepted |
| `SourceStats.RTPSourceStats.StartNewInterval` | src/rtpsourcedata.h:117 | starts the counts of an interval afresh |
| `ReceiveRuns.ExtendStep` | src/rtpsourcedata.cpp:157-181 | inside the window the number assigned is the true one exactly unless the packet is a late one from before a wrap |
| `ReceiveRuns.SequenceExtension` | src/rtpsourcedata.cpp:153-181 | over every orderly run each number is the true index up to a fixed shift, and the highest number is the running maximum |
| `ReceiveRuns.FirstStep` | src/rtpsourcedata.cpp:48-73 | the first accepted packet fixes the shift |
| `ReceiveRuns.LatePacketFromBeforeWrap` | src/rtpsourcedata.cpp:158-162 | a concrete late packet that is taken for a jump ahead |
| `ReceiveRuns.LossIsConserved` | src/rtcppacketbuilder.cpp:384-390 | the reported loss is the number of missing indices less the surplus arrivals, modulo 2^32 |
| `ReceiveRuns.LossIsMissing` | src/rtcppacketbuilder.cpp:384-390 | for distinct indices it is exactly the number of missing ones |
| `ReceiveRuns.IntervalsAddUp` | src/rtpsourcedata.h:117 | wherever intervals are started, their counts and the open one add up to those of the run |
| `ReceiveRuns.IntervalsAddUpFromStart` | src/rtpsourcedata.h:117 | from the first packet on they add up to the totals that are reported |
| `ReceiveRuns.FractionFits` | src/rtcppacketbuilder.cpp:369-382 | the encoded fraction fits its byte exactly if a packet came in the interval |
| `ReceiveRuns.ProbationAcceptsThirdInARow` | src/rtpsourcedata.cpp:91-135 | the first accepted packet is exactly the first that ends three consecutive numbers |
| `ReceiveRuns.TimestampDiffExact` | src/rtpsourcedata.cpp:202-238 | the distance of two timestamps is found exactly if it is below 2^28 or the counter wrapped |
| `JitterRuns.JitterStep` | src/rtpsourcedata.cpp:240-245 | an accepted packet keeps 15/16 of the distance between the jitter and the difference of the transit times |
| `JitterRuns.EarlyOrLate` | src/rtpsourcedata.cpp:240-242 | it does not matter whether a packet was early or late |
| `JitterRuns.EarlyPacket` | src/rtpsourcedata.cpp:240-245 | a packet 80 units early leaves a jitter of 5 |
| `JitterRuns.JitterInEveryRun` | src/rtpsourcedata.cpp:240-252 | over every run the jitter lies between 0 and the largest difference of transit times of two successive accepted packets |
| `JitterRuns.NeverNegative` | src/rtpsourcedata.cpp:240-252 | whatever the timestamps, the jitter is never negative |
| `JitterRuns.EvenPacketsFade` | src/rtpsourcedata.cpp:240-245 | with evenly spaced packets it falls by a sixteenth with each of them |
| `PacketQueue.InsertHere` | src/rtpinternalsourcedata.cpp:144-184 | the search from the back ends at the only place that keeps the order |
| `PacketQueue.InsertSound` | src/rtpinternalsourcedata.cpp:144-184 | the queue stays strictly increasing, keeps every packet, and drops exactly the duplicates |
| `PacketQueue.EnqueueBounded` | src/rtpinternalsourcedata.cpp:130-142 | an unvalidated source never holds more than 32 packets |
| `PacketQueue.FillBounded` | src/rtpinternalsourcedata.cpp:127-186 | over every run under probation the queue is sorted, at most 32 long, and keeps the highest number |
| `PacketQueue.FillContent` | src/rtpinternalsourcedata.cpp:127-186 | over every run of a validated source it holds exactly the first packet of every number |
| `PacketQueue.SameNumbersSameQueue` | src/rtpinternalsourcedata.cpp:127-186 | packets whose numbers are settled leave the same queue in any order |
| `ArrivalOrder.ReceiveIsFill` | src/rtpinternalsourcedata.cpp:57-186 | a validated source numbers and queues its packets one by one, whatever comes |
| `ArrivalOrder.FirstFollowed` | src/rtpsourcedata.cpp:48-73 | without probation the true indices are followed from the first packet on |
| `ArrivalOrder.ArrivalOrderDoesNotMatter` | src/rtpsourcedata.cpp:153-181 | two orders of the same true indices, neither with a packet from before a wrap, leave the same queue and the same counts |
| `ArrivalOrder.OwnNumbersExactly` | src/rtpsourcedata.cpp:157-181 | at every moment every packet stands in the queue under its own number, exactly if none comes from before a wrap |
| `WaitingOrder.OrderBreaks` | src/rtpinternalsourcedata.cpp:144-184 | a packet leaves the waiting ones out of the order of true indices exactly if it comes from before a wrap and a larger index is waiting |
| `WaitingOrder.SteadyRunWaits` | src/rtpinternalsourcedata.cpp:57-186 | over every run of packets and reads without a packet from before a wrap the waiting packets are in the order of true indices |
| `WaitingOrder.NobodyWaits` | src/rtpsourcedata.cpp:158-162 | once packet 65536 has been taken, the late 65535 is numbered 131071 and is in order all the same |
| `ArrivalOrder.SwapAtWrap` | src/rtpsourcedata.cpp:158-162 | 65534, 65535, 65536 with the last two swapped leave the late packet last, numbered 131071 |
| `SourceData.RTPInternalSourceData.InsertPacket` | src/rtpinternalsourcedata.cpp:144-184 | the loop inserts the packet in its place or drops a duplicate |
| `SourceData.RTPInternalSourceData.Store` | src/rtpinternalsourcedata.cpp:119-186 | the queue after a packet, with the lowest given up first when it is full |
| `SourceData.RTPInternalSourceData.ProcessRTPPacket` | src/rtpinternalsourcedata.cpp:57-186 | statistics, validation, sender mark and queue after a packet, for each kind of probation |
| `SourceData.RTPInternalSourceData.ProcessSDESItem` | src/rtpinternalsourcedata.cpp:189-258 | which items stick, when a CNAME collides, and that a CNAME validates |
| `SourceData.RTPInternalSourceData.GetNextPacket` | src/rtpsourcedata.h:454-466 | gives out the lowest number, and only from a validated source |
| `SourceData.RTPInternalSourceData.CheckCollision` | src/rtpsources.cpp:1354-1438 | stores an address that was not known and refuses exactly the foreign ones |
| `SourceData.WithPacketSound` | src/rtpinternalsourcedata.cpp:57-186 | a packet keeps the queue sorted and bounded and never makes an unvalidated sender |
| `SourceData.ProbationOrder` | src/rtpinternalsourcedata.cpp:88-117 | the three packets that validate a source stand in order in its queue exactly unless the first is numbered 65535 |
| `KeyHashTable.RTPKeyHashTable.constructor` | src/rtpkeyhashtable.h:106-118 | an empty table; the cursor means nothing yet |
| `KeyHashTable.RTPKeyHashTable.AddElement` | src/rtpkeyhashtable.h:256-305 | appends to the order and to its own bucket, or refuses an existing key and changes nothing |
| `KeyHashTable.RTPKeyHashTable.DeleteCurrentElement` | src/rtpkeyhashtable.h:120-174 | removes exactly that element from bucket and order and moves the cursor to its successor |
| `KeyHashTable.RTPKeyHashTable.DeleteElement` | src/rtpkeyhashtable.h:307-317 | removes the element with that key, or changes nothing |
| `KeyHashTable.RTPKeyHashTable.GotoElement` | src/rtpkeyhashtable.h:176-198 | finds an element exactly if its key is present |
| `KeyHashTable.RTPKeyHashTable.HasElement` | src/rtpkeyhashtable.h:200-221 | the same without the cursor |
| `KeyHashTable.RTPKeyHashTable.GotoNextElement` | src/rtpkeyhashtable.h:223-228 | moves to the successor in the order |
| `KeyHashTable.RTPKeyHashTable.GotoPreviousElement` | src/rtpkeyhashtable.h:230-235 | moves to the predecessor in the order |
| `KeyHashTable.RTPKeyHashTable.Clear` | src/rtpkeyhashtable.h:237-254 | empties buckets and order and leaves the cursor alone |
| `KeyHashTable.RTPKeyHashTable.Find` | src/rtpkeyhashtable.h:176-198 | the walk along one bucket finds the key or shows it is nowhere |
| `SourceRuns.StepOk` | src/rtpsources.cpp:98-158 | every operation keeps sources distinct, at most one of our own, entries sound, and counts in agreement with a recount |
| `SourceRuns.CountsInEveryRun` | src/rtpsources.cpp:291-373 | in every reachable table two counts equal a recount, the third falls short by the silent activations, and is exact after a pass |
| `SourceRuns.SilentExactly` | src/rtpsources.cpp:350-370 | exactly which contributing sources become active without being counted |
| `SourceRuns.NoSilenceWithoutCsrcs` | src/rtpsources.cpp:291-373 | without CSRC lists all three counts are always exact |
| `SourceRuns.ReportsKeepTable` | src/rtcppacketbuilder.cpp:429-436 | report passes keep everything the source table keeps; they are events of its runs |
| `SilentMembers.ActiveCountBelowZero` | src/rtpsources.cpp:364-368 | when a mixer has named sources that were heard only by RTCP, and has left, k of them leave the active count at -k |
| `SourceTable.FusedOnEntry` | src/rtpsources.cpp:1171-1255 | the fused pass decides about an entry like the four passes in turn |
| `SourceTable.FusedIsFourInTurn` | src/rtpsources.cpp:1155-1284 | one fused pass leaves the table, order, flags, notes and counts of the four passes in turn |
| `SourceAddresses.StepLineage` | src/rtpsources.cpp:1354-1438 | in one operation no entry loses an address, a validation, a BYE or a CNAME, name, e-mail or tool item |
| `SourceAddresses.AddressesForLife` | src/rtpinternalsourcedata.h:84-130 | over every run an address once known stays as long as the entry lives, and both are always of one origin |
| `SourceAddresses.ForeignPacketsIgnored` | src/rtpsources.cpp:306-315 | packets from an address that collides with an entry leave it as it was |
| `SourceAddresses.CollidesExactly` | src/rtpsources.cpp:1354-1438 | exactly which packets collide, in terms of address and origin |
| `LifeRuns.EntriesTell` | src/rtpinternalsourcedata.cpp:189-258 | over every run each entry has the first nonempty CNAME, name, e-mail and tool that reached it, the last phone and location, and the note since it was dropped; when it was heard and when it last sent media, and whether and when it left |
| `LifeRuns.CnameCollidesExactly` | src/rtpinternalsourcedata.cpp:196-211 | a CNAME collides exactly if it differs from the first nonempty one |
| `LifeRuns.SweepExactly` | src/rtpsources.cpp:1155-1284 | a pass deletes exactly the entries that are out of date, keeps the others in order, and of each all but an outdated sender mark and note |
| `LifeRuns.TakenAwayExactly` | src/rtpsources.cpp:905-1095 | over every run a timeout takes a source away exactly if it is not ours and its BYE, or its last packet, came too long ago |
| `RtpReach.ListReaches` | src/rtpsources.cpp:350-370 | a CSRC list marks or makes exactly its contributing sources |
| `RtpReach.PacketReaches` | src/rtpsources.cpp:291-373 | exactly which entries an RTP packet changes or makes, and that a source on probation brings no contributing sources |
| `Sources.RTPSources.ObtainSourceDataInstance` | src/rtpsources.cpp:822-851 | finds the entry of a source or appends a new one |
| `Sources.RTPSources.GetSourceData` | src/rtpsources.cpp:854-881 | the same, with the address stored or the packet refused |
| `Sources.RTPSources.ProcessRTPPacket` | src/rtpsources.cpp:291-373 | the whole table after an RTP packet, its CSRC list included, and every invariant kept |
| `Sources.RTPSources.ProcessCSRC` | src/rtpsources.cpp:350-370 | one identifier of the list: a new entry is counted, an existing one is not |
| `Sources.RTPSources.UpdateReceiveTime` | src/rtpsources.cpp:883-903 | the whole table after a sign of life |
| `Sources.RTPSources.ProcessSDESNormalItem` | src/rtpsources.cpp:706-763 | the whole table after an SDES item; an item of another type is refused |
| `Sources.RTPSources.ProcessBYE` | src/rtpsources.cpp:792-820 | the whole table after a BYE, which is ignored for ourselves |
| `Sources.RTPSources.CreateOwnSSRC` | src/rtpsources.cpp:98-123 | refused exactly if there is an own entry or the identifier is taken |
| `Sources.RTPSources.DeleteOwnSSRC` | src/rtpsources.cpp:125-146 | removes our entry and counts it out |
| `Sources.RTPSources.SentRTPPacket` | src/rtpsources.cpp:148-158 | makes us a sender, counted once |
| `Sources.RTPSources.GetNextPacket` | src/rtpsources.cpp:646-654 | takes the first packet of the entry under the cursor |
| `Sources.RTPSources.Timeout` | src/rtpsources.cpp:905-967 | deletes exactly the silent entries other than ours, in order, and recounts |
| `Sources.RTPSources.SenderTimeout` | src/rtpsources.cpp:969-1022 | clears exactly the outdated sender marks and recounts |
| `Sources.RTPSources.BYETimeout` | src/rtpsources.cpp:1024-1095 | deletes exactly the entries whose BYE is old and recounts |
| `Sources.RTPSources.NoteTimeout` | src/rtpsources.cpp:1097-1153 | clears exactly the old notes and recounts |
| `Sources.RTPSources.MultipleTimeouts` | src/rtpsources.cpp:1155-1284 | all of this in one pass |
| `Sources.RTPSources.Clear` | src/rtpsources.cpp:80-96 | empties the table and the counts |
| `Scheduler.RTCPScheduler.CalculateDeterministicInterval` | src/rtcpscheduler.cpp:248-296 | the interval of section 6.3.1, never below the minimum |
| `Scheduler.RTCPScheduler.IsTime` | src/rtcpscheduler.cpp:179-234 | timer reconsideration: exactly when it is time, and the timer afterwards |
| `Scheduler.RTCPScheduler.GetTransmissionDelay` | src/rtcpscheduler.cpp:158-177 | the delay is exactly what is left until the timer expires |
| `Scheduler.RTCPScheduler.PerformReverseReconsideration` | src/rtcpscheduler.cpp:316-355 | both times scaled by the change in members |
| `Scheduler.RTCPScheduler.ScheduleBYEPacket` | src/rtcpscheduler.cpp:357-384 | the timer for a BYE, once |
| `Scheduler.RTCPScheduler.AnalyseIncoming` | src/rtcpscheduler.cpp:109-135 | the averages and the BYE count after a packet, with a BYE looked for among its parts |
| `Scheduler.RTCPScheduler.AnalyseOutgoing` | src/rtcpscheduler.cpp:137-156 | the same for a packet of our own |
| `SchedulerRuns.SendsAreApart` | src/rtcpscheduler.cpp:179-234 | over every run two successive times to send are at least the shortest wait apart |
| `SchedulerRuns.ByeWaits` | src/rtcpscheduler.cpp:357-418 | a BYE waits its own shortest time, or goes at the next check if it may |
| `SchedulerRuns.ReverseMovesTowardNow` | src/rtcpscheduler.cpp:316-390 | reverse reconsideration never moves a time away from now, exactly unless the count before was negative |
| `SchedulerRuns.NegativeCountsBreakTheWait` | src/rtcpscheduler.cpp:338-354 | from runs of the source table: two times to send that are closer than the shortest wait, after counts of 0, -1 and -2 |
| `SchedulerRuns.BandwidthKept` | src/rtcpscheduler.cpp:248-296 | a session whose members keep to their intervals stays within the RTCP bandwidth |
| `SchedulerRuns.AverageRests` | src/rtcpscheduler.cpp:121-124 | the average moves towards the new size and rests up to 15 bytes below it |
| `TimerRuns.CountInEveryRun` | src/rtcpscheduler.cpp:179-234 | over every run the count held is that of the last first call, expired check or performed reverse reconsideration |
| `TimerRuns.FallMovesTimer` | src/rtcpscheduler.cpp:316-390 | a fall in members moves the timer exactly if it is below that count, and then by exactly the ratio |
| `TimerRuns.CountAfterPutOff` | src/rtcpscheduler.cpp:226-233 | a check that puts the timer off counts 20 members, and a fall to 10 brings it back |
| `TimerRuns.CheckSetsTimer` | src/rtcpscheduler.cpp:179-246 | a check sets the timer to between half and one and a half times the deterministic interval, compensated, from now or from the last time to send |
| `TimerRuns.IntervalExactly` | src/rtcpscheduler.cpp:248-296 | an interval above the minimum makes those who share a bandwidth use exactly that |
| `TimerRuns.AveragesMove` | src/rtcpscheduler.cpp:109-156 | which packets move which average size, and by how much |
| `TimerRuns.ByesAreCounted` | src/rtcpscheduler.cpp:109-135 | while a BYE waits, its members are we and those whose BYE came since |
| `TimerRuns.ByeWaitsForAll` | src/rtcpscheduler.cpp:357-418 | from its request on, a BYE waits around what the BYEs of all its members take, or the minimum, or not at all |
| `TimerRuns.SentExactly` | src/rtcpscheduler.cpp:137-156 | a packet counts as sent exactly once one went out |
| `ReportPass.OncePerPass` | src/rtcppacketbuilder.cpp:330-456 | no source gets two blocks in one pass, and a pass flags exactly those that get one |
| `ReportPass.NoSourceTwice` | src/rtcppacketbuilder.cpp:204-251 | two passes in one packet share no source exactly if as many eligible ones as the second takes had been flagged before |
| `ReportPass.NoSourceTwiceWhenSkippedFit` | src/rtcppacketbuilder.cpp:234-251 | if the second pass takes as many as were skipped: exactly if these were the first eligible ones |
| `ReportPass.BlocksDiffer` | src/rtcppacketbuilder.cpp:204-251 | the blocks of a packet are of different sources exactly if the second pass took only sources flagged before the packet |
| `ReportPass.PendingAfterPass` | src/rtcppacketbuilder.cpp:454-498 | a pass leaves no eligible source unflagged exactly if it took all of them |
| `BlockRuns.PendingExactly` | src/rtcppacketbuilder.cpp:334-367 | a pass is about exactly the sources heard since the last packet, without us, contributing sources and those covered, in order |
| `BlockRuns.BlockTellsRun` | src/rtcppacketbuilder.cpp:369-419 | over a run with reports on the way, the block tells the highest index, the packets missing less the surplus ones, and the fraction the interval lacks |
| `PacketBuilder.MinimumIsEnough` | src/rtcppacketbuilder.cpp:62-63 | 600 bytes are enough for the start of a packet and a block or any item beside it |
| `PacketBuilder.RTCPPacketBuilder.MakeBlock` | src/rtcppacketbuilder.cpp:369-419 | the block says what the statistics of the entry say, jitter included |
| `PacketBuilder.RTCPPacketBuilder.FindPending` | src/rtcppacketbuilder.cpp:454-498 | finds the next source without a block, or the end |
| `PacketBuilder.RTCPPacketBuilder.FillInReportBlocks` | src/rtcppacketbuilder.cpp:320-500 | the first pending sources get a block and a flag, `full` exactly for lack of room, the end exactly if none is left |
| `PacketBuilder.RTCPPacketBuilder.FillInSDES` | src/rtcppacketbuilder.cpp:502-619 | the wanted items go in, in order, as far as there is room |
| `ItemRounds.DueExactly` | src/rtcppacketbuilder.cpp:208-223 | an item is due in exactly every n-th round, n being its interval |
| `ItemRounds.RoundSendsWhatIsDue` | src/rtcppacketbuilder.cpp:502-619 | over however many packets a round takes, each item that is due is sent once, in order, and nothing else |
| `PacketBuilder.RTCPPacketBuilder.ClearAllSourceFlags` | src/rtcppacketbuilder.cpp:308-318 | clears every flag and nothing else |
| `PacketBuilder.RTCPPacketBuilder.BuildNextPacket` | src/rtcppacketbuilder.cpp:104-306 | a packet is always built, within the limit, with our report and our CNAME; which sources it covers, which flags it leaves, exactly when its blocks are of different sources, and which of our items it sends |
| `RepeatedReport.ReportedTwice` | src/rtcppacketbuilder.cpp:204-251 | a run from an empty table in which a packet of 600 bytes is built, and then one that reports a source twice, the second time without news; both packets exist |
| `RepeatedReport.AnyPacketsReportTwice` | src/rtcppacketbuilder.cpp:204-251 | whatever packets of 600 bytes are built there, the second reports that source twice |
| `RepeatedReport.CoversIsTurn` | src/rtcppacketbuilder.cpp:104-306 | every packet the builder covers sources with is a turn of a run |
| `ReportRuns.TurnsNews` | src/rtcppacketbuilder.cpp:330-456 | over every run a source heard since the last packet has packets in its interval |
| `ReportRuns.BlocksHaveNews` | src/rtcppacketbuilder.cpp:369-382 | over every run a block is about an interval with packets exactly if it is the first for its source in its packet; in any other nothing was expected either |
| `PacketBuilder.RTCPPacketBuilder.BuildBYEPacket` | src/rtcppacketbuilder.cpp:626-726 | a BYE packet is always built, within the limit, with a reason of at most 255 bytes |

## Left out

- Sockets, select and poll loops, name lookup, multicast and port selection: foreign calls. Reading from a socket is any nonempty prefix of what is pending, or an error.
- Memory managers, out-of-memory errors, threads and locks: allocation succeeds, and calls do not overlap.
- Virtual callbacks: they have no effect, and no callback takes a packet for itself.
- `RTPHashTable` (src/rtphashtable.h): the same structure as the key hash table.
- `AddUnknownPacket` (src/rtcpcompoundpacketbuilder.cpp:525-565): switched off unless the library is built with RTP_SUPPORT_RTCPUNKNOWN.
- SRTP, IPv6 addresses, UDP accept and ignore lists, session plumbing, examples and tools.
- Floating point: times, jitter and intervals are real numbers. The conversions of jitter to a 32-bit integer are written without their overflow.
- Division by zero in the scheduler: where the bandwidth share that an interval divides by is zero, the interval is infinite or undefined in floating point. `Scheduler.Divides` excludes exactly these calls; all parameters the setters accept are allowed.
- `RTPSourceStats` also keeps `prevexthighseqnr`, which nothing reads; `RTCPScheduler` keeps `pbyemembers`, likewise.
- `RTPInternalSourceData` holds its statistics as a value and updates it with the function that `SourceStats.RTPSourceStats.ProcessPacket` is proved to compute; the reasons of BYEs, sender and receiver report information and private items of a source are not kept.
- `ProcessRTCPCompoundPacket` (src/rtpsources.cpp:375-541), the dispatch over the packets of a compound packet: the handlers it calls are modelled one by one; those of sender reports, report blocks and private items change nothing the model keeps beyond `Sources.RTPSources.UpdateReceiveTime`.
- Sources iterators that skip sources without data (src/rtpsources.cpp:568-623) and `CreateNewSSRC`, whose end depends on chance.
- `TcpFraming.SentIsReceived`: for frames that were sent whole; a connection that takes part of a frame (`TcpFraming.SendTo`) goes out of step, and the transmitter does not notice.
- `CompoundBuilder.RTCPCompoundPacketBuilder.EndBuild`: an external buffer is the memory from the caller's address on; that this memory reaches as far as bytes are written is required.
- `RtpPacket.RTPPacket.CheckLengths`: requires what `ParseRawPacket` requires.
- `RtpPacket.RTPPacket.ParseRawPacket`: requires the four bytes of an announced extension header to be in the buffer, because the source reads them before it tests the length.
- `ReceiveRuns.FractionFits`: the quotient is exact, where the source rounds in floating point.
- `PacketBuilder.RTCPPacketBuilder.FillInReportBlocks`: requires a source in the table; with none the source follows a null pointer.
- `PacketBuilder.RTCPPacketBuilder.MakeBlock`: says nothing of the fraction for an interval without packets, where the source divides zero by zero or converts 256 to a byte (over runs only the first, and only in a further block for one source: `ReportRuns.BlocksHaveNews`); the times of the last sender report are arguments.
- `PacketBuilder.RTCPPacketBuilder.BuildBYEPacket`: the sender information is an argument.
- `PacketBuilder.RTCPPacketBuilder.BuildNextPacket`: requires a source in the table, like `FillInReportBlocks`; the sender information is an argument; `Init` and `Destroy` are the constructor, and the setters for local items and their intervals are left out.
- `SchedulerRuns.SendsAreApart`: for member counts that are not negative, which the source table does not guarantee.
