# A verified model of the z3_engine cores

z3_engine is an RTSP/RTP client library with its own containers and debugging allocator. This project models,
in Dafny 4.11, the parts of it that carry state or arithmetic of their own, and proves what they are for.
`dafny verify dfyconfig.toml` checks everything.

| file | what it models |
|---|---|
| `MediaPorts.dfy` | the allocator of RTP/RTCP port pairs: a bitmap with a rotating cursor |
| `RtcpTimer.dfy` | the RTCP transmission interval, the expiry of the timer and reverse reconsideration (section 6.3 of RFC 3550), over the reals |
| `RtpSequence.dfy` | validation of RTP sequence numbers and loss accounting (Appendices A.1 and A.3 of RFC 3550) |
| `Sdes.dfy` | writing and reading SDES chunks octet by octet (Appendices A.4 and A.5 of RFC 3550) |
| `LinkedList.dfy`, `PointerHash.dfy`, `AllocLedger.dfy` | the doubly linked list, the hash of pointers on top of it, the ledger of allocated blocks on top of that |
| `Depacketizer.dfy` | reassembly of H.264 frames from RTP payloads (sections 5.6 and 5.8 of RFC 6184) |
| `AsyncQueue.dfy` | the queue between threads as interleaved atomic steps |
| `RtspSession.dfy` | the client's request sequence, driven by an arbitrary server |
| `HeaderSplit.dfy` | splitting a header value at its top-level commas, in the line buffer |
| `Words.dfy`, `Bytes.dfy`, `Counting.dfy`, `Optional.dfy`, `Sequences.dfy` | shared: 32-bit arithmetic, octets, set sizes, options, regrouping |

Code that updates objects or buffers is modelled by classes and methods that do the same to fields and arrays. Where a
property spans many calls, each method is proved to refine a function on a value that holds all its fields, and the
property is proved of every run of that function. Inputs the code cannot choose are parameters: the value of `drand48`,
arrival times, packet sizes, the address the system allocator returns, what the server sends, whether a local write
succeeds.

Results a reader may not expect:

- `GetTwo` returns if and only if some even port and its successor are both free (given that its first test lets it go
  on); otherwise its loop runs for ever, as it does when 2 and 4 are withheld of the ports 1 to 6. The test itself asks
  for three free ports where two would do, and refuses the pair 2 and 3 when 1 and 4 are withheld of the ports 1 to 4.
- `PutOne` of a withheld port frees it, and leaves both counts wrong.
- Loss can be counted as negative when an accepted packet is ahead by its 16-bit number only: with the base at index 0
  and the next packet at 65536, two are received and one is expected. The extended number follows the highest accepted
  index throughout if and only if no accepted packet is of that kind, whether or not others are rejected.
- A source whose second packet wraps from 65535 to 0 is not validated by it, because line 29 adds in `int`.
- The SDES round trip fails exactly when an item has the type of an end marker.
- Reassembly hands out a frame whole exactly when its byte stream fits the buffer.
- The RTSP dialogue follows its script whatever fails locally, because a read delivers one message and is started again
  only after a request has been sent. But a server can make an assertion fail, with a medium without a control attribute.
- Line 122 of `rtcp_from_spec.c` is modelled as written; it differs from Appendix A.7 of RFC 3550, which has `<=` and
  no test for zero senders. Bandwidth is kept with the test as written.

## Model

| member | source | states |
|---|---|---|
| MediaPorts.Bitmap.TestAndSet | z3_rtsp_client/z3_media_ports.cpp:61-73 | exactly this cell becomes set, and the answer is what it was |
| MediaPorts.Bitmap.Reset | z3_rtsp_client/z3_media_ports.cpp:75-91 | exactly this cell, which was set, becomes clear |
| MediaPorts.PortsCtl.constructor | z3_rtsp_client/z3_media_ports.cpp:113-152 | a new range holds and withholds nothing, and the cursor is at its lowest port |
| MediaPorts.PortsCtl.SetReserved | z3_rtsp_client/z3_media_ports.cpp:154-168 | a port in range that is not handed out is withheld, once; set cells stay the disjoint union of withheld and handed-out ports, with exact counts |
| MediaPorts.PortsCtl.GetOne | z3_rtsp_client/z3_media_ports.cpp:170-205 | terminates; fails if and only if no port is free, and then changes nothing; else hands out the cyclically first free port from the cursor, so no port is held twice |
| MediaPorts.PortsCtl.PutOne | z3_rtsp_client/z3_media_ports.cpp:218-233 | a taken port becomes free, a port out of range changes nothing; the invariant is kept if and only if the port was not withheld, and otherwise both counts are wrong |
| MediaPorts.PortsCtl.SeekEven | z3_rtsp_client/z3_media_ports.cpp:255-268 | ends with one even port held, on the way from the cursor to the first free pair, and nothing else held |
| MediaPorts.PortsCtl.TakeNext | z3_rtsp_client/z3_media_ports.cpp:272-282 | GetOne cannot fail here; the next free port is held, and the lower one only if the two are a pair |
| MediaPorts.PortsCtl.PairUp | z3_rtsp_client/z3_media_ports.cpp:270-293 | ends with the first free pair held, or with nothing held and strictly nearer to that pair |
| MediaPorts.PortsCtl.GetTwo | z3_rtsp_client/z3_media_ports.cpp:242-297 | terminates with the cyclically first even port whose successor is also free; exactly these two become held, and the cursor is behind them; it fails only at its first test |
| MediaPorts.PortsCtl.PutTwo | z3_rtsp_client/z3_media_ports.cpp:299-303 | exactly the two ports become free |
| MediaPorts.PortsCtl.GetThenPutTwo | z3_rtsp_client/z3_media_ports.cpp:242-303 | PutTwo after GetTwo restores every cell and count; only the cursor has moved |
| MediaPorts.PortsCtl.SearchOn | z3_rtsp_client/z3_media_ports.cpp:253-294 | the loops of GetTwo from one call of GetOne to the next are one step of the walk, whether or not a pair is free |
| MediaPorts.PortsCtl.SearchFor | z3_rtsp_client/z3_media_ports.cpp:253-294 | after n calls of GetOne the loops stand where n steps of the walk lead |
| MediaPorts.PortsCtl.SearchInVain | z3_rtsp_client/z3_media_ports.cpp:253-294 | without a free pair, after n calls of GetOne, the loops stand where n steps of the walk lead, and have not ended |
| MediaPorts.WithholdTwoOfSix | z3_rtsp_client/z3_media_ports.cpp:154-168 | withholding ports 2 and 4 of 1 to 6 leaves no pair and lets the first test of GetTwo pass |
| MediaPorts.GetTwoNeverReturns | z3_rtsp_client/z3_media_ports.cpp:242-294 | on that object, after n calls of GetOne, the loops stand where n steps of the walk from port 1 lead, and have not ended |
| MediaPorts.GetTwoRefusesPair | z3_rtsp_client/z3_media_ports.cpp:242-251 | ports 2 and 3 of 1 to 4 are a free pair, and GetTwo answers that there is none |
| PortRing.SomeFree | z3_rtsp_client/z3_media_ports.cpp:174-178 | pigeonhole: below the limit some port is free |
| PortRing.WalkReachesGoal | z3_rtsp_client/z3_media_ports.cpp:253-294 | from any point on the way the search reaches the first free pair; the measure is the cyclic distance to it |
| PortRing.NoPairNeverDone | z3_rtsp_client/z3_media_ports.cpp:253-294 | without a free pair no number of iterations ends the search |
| PortRing.SearchEndsIffPair | z3_rtsp_client/z3_media_ports.cpp:253-294 | the search ends if and only if there is a free pair, and then at the first one from the cursor |
| RtcpInterval.IntervalBounds | z3_rtsp_client/rtcp_from_spec.c:69-152 | every drawn interval lies in [0.5, 1.5)/1.21828 of the deterministic one, and never below half the enforced minimum |
| RtcpInterval.DrawnEvenly | z3_rtsp_client/rtcp_from_spec.c:149-152 | each value in that range is drawn for exactly one number, in proportion |
| RtcpInterval.GroupWithinBandwidth | z3_rtsp_client/rtcp_from_spec.c:112-142 | for any group of senders and receivers the rates of all participants, each by its own interval, add up to no more than the RTCP bandwidth |
| RtcpInterval.RateWithinShare | z3_rtsp_client/rtcp_from_spec.c:121-142 | no participant exceeds its even part of the share for senders, for receivers, or for all |
| RtcpInterval.RateIsFairShare | z3_rtsp_client/rtcp_from_spec.c:121-142 | above the minimum of 5 or 2.5 seconds the rate is that part exactly, so the interval is no longer than needed |
| RtcpInterval.SendersHaveAQuarter | z3_rtsp_client/rtcp_from_spec.c:121-130 | a sender has the larger of an even part of the bandwidth and an even part of a quarter of it for the senders |
| RtcpTimer.Timer.OnExpire | z3_rtsp_client/rtcp_from_spec.c:154-227 | refines the expiry step over which the run properties are proved, for every kind of event |
| RtcpTimer.SentIffDue | z3_rtsp_client/rtcp_from_spec.c:171-219 | what is pending is sent exactly if the interval drawn since tp is over |
| RtcpTimer.ReportReschedules | z3_rtsp_client/rtcp_from_spec.c:197-226 | a report sent is noted with its time and size, and the next is due within the range of the interval from now on, by the new average |
| RtcpTimer.NotDueIsPutOff | z3_rtsp_client/rtcp_from_spec.c:178-226 | what is not due is put off to a later time, within the range of the interval from tp on, and nothing else changes but pmembers |
| RtcpTimer.Timer.OnReceive | z3_rtsp_client/rtcp_from_spec.c:230-289 | refines the reception step, of which the laws of the tables, the counts and the average are proved, for every kind of packet and event |
| RtcpTimer.TablesFollowPackets | z3_rtsp_client/rtcp_from_spec.c:244-273 | while a report is pending RTP enters its source in both tables, a report in that of the members, and a BYE takes it out of both; otherwise the tables stay |
| RtcpTimer.CountsFollowTables | z3_rtsp_client/rtcp_from_spec.c:154-289 | over any run senders counts the sender table, and members the member table and the BYEs received while a BYE is pending |
| RtcpTimer.AverageFollowsPackets | z3_rtsp_client/rtcp_from_spec.c:249-264 | the average moves a sixteenth of the way to the size of each report and BYE, and of nothing else |
| RtcpTimer.Timer.Reconsider | z3_rtsp_client/rtcp_from_spec.c:275-283 | reconsiders exactly when the group has shrunk |
| RtcpTimer.ReconsiderationBounds | z3_rtsp_client/rtcp_from_spec.c:275-283 | tp moves towards now and never back; tn stays between now and its old value |
| RtcpTimer.EachEndScales | z3_rtsp_client/rtcp_from_spec.c:275-283 | when the group has shrunk, tn - now and now - tp are each scaled by members / pmembers, and otherwise nothing changes |
| RtcpTimer.TpNeverDecreases | z3_rtsp_client/rtcp_from_spec.c:154-289 | over every interleaving lastSend <= tp <= now |
| RtcpTimer.ReportsAreSpaced | z3_rtsp_client/rtcp_from_spec.c:154-289 | over every interleaving two reports are at least 2.5/1.21828 seconds apart, and the first is at least half as far from tp |
| RtcpTimer.ReceiveBrings | z3_rtsp_client/rtcp_from_spec.c:244-288 | one packet leaves tn - tp in proportion to pmembers, and a rescheduled tn between now and the old tn |
| RtcpTimer.PendingIntervalScales | z3_rtsp_client/rtcp_from_spec.c:260-283 | over any run of receptions (tn' - tp') * pmembers = (tn - tp) * pmembers' |
| RtpSequence.Source.InitSeq | z3_rtsp_client/rfc3550/rtp.c:4-14 | restarts all accounting at this number, with no rejection remembered |
| RtpSequence.Source.UpdateSeq | z3_rtsp_client/rfc3550/rtp.c:16-70 | refines the update over which the run properties are proved, and answers 1 exactly for accepted packets |
| RtpSequence.AheadKeepsTrack | z3_rtsp_client/rfc3550/rtp.c:42-50 | a packet less than 3000 ahead moves the extended number to its true index, across a wrap or not |
| RtpSequence.BehindKeepsTrack | z3_rtsp_client/rfc3550/rtp.c:65-69 | a packet less than 100 behind is counted and changes nothing else |
| RtpSequence.ExtendedFollowsTrueIndex | z3_rtsp_client/rfc3550/rtp.c:16-70 | over any run of packets near the highest index cycles + max_seq is the highest true index up to one fixed offset, for any number of wraps; every packet is accepted and counted |
| RtpSequence.InitialisedSourceStarts | z3_rtsp_client/rfc3550/rtp.c:32-36 | validation and resynchronisation leave a source that has counted one packet, with nothing reported yet and no rejection remembered, from which the run properties start |
| RtpSequence.PriorsStay | z3_rtsp_client/rfc3550/rtp.c:16-70 | no other packet touches the base or the counts of the last report |
| RtpSequence.AcceptedByDistance | z3_rtsp_client/rfc3550/rtp.c:42-69 | within half a cycle a packet is in order exactly if less than 3000 ahead, and reordered exactly if less than 100 behind |
| RtpSequence.TracksIffTrue | z3_rtsp_client/rfc3550/rtp.c:42-69 | behind a packet that is accepted or rejected the source tracks the highest accepted index if and only if the packet, when accepted, is as far ahead as its 16-bit number says |
| RtpSequence.TracksThroughoutIffTrue | z3_rtsp_client/rfc3550/rtp.c:42-69 | over any run up to the next restart it does so throughout if and only if every accepted packet is of that kind |
| RtpSequence.AcceptedAreTracked | z3_rtsp_client/rfc3550/rtp.c:42-69 | over such a run, with any packets rejected in between, cycles + max_seq is the highest accepted index up to one fixed offset, and exactly the accepted packets are counted |
| RtpSequence.WithinHalfIsTrue | z3_rtsp_client/rfc3550/rtp.c:42-69 | an accepted packet within half a cycle of the highest index is of that kind |
| RtpSequence.LossNeverNegative | z3_rtsp_client/rfc3550/rtp.c:4-70 | since the last init_seq, with any packets rejected: if the accepted ones have distinct true indices not before the base and are as far ahead as their numbers say, received never exceeds expected, and equals it exactly when none is missing |
| RtpSequence.SkippedCycleCountsNegative | z3_rtsp_client/rfc3550/rtp.c:42-50 | without the last condition the loss becomes negative: an accepted packet a whole cycle ahead of the base |
| RtpSequence.ValidatedByFirstConsecutive | z3_rtsp_client/rfc3550/rtp.c:27-41 | a new source is validated exactly by the first packet whose number is one above its predecessor's, and accepts nothing before |
| RtpSequence.WrapDoesNotValidate | z3_rtsp_client/rfc3550/rtp.c:29 | 65535 followed by 0, consecutive modulo 2^16, does not validate |
| RtpSequence.BadSeqRemembers | z3_rtsp_client/rfc3550/rtp.c:51-64 | bad_seq always names the successor of the last rejection since init_seq, or nothing |
| RtpSequence.ResyncFollowsRejection | z3_rtsp_client/rfc3550/rtp.c:51-64 | a source is re-based exactly by a distant packet that follows, modulo 2^16, the most recent rejection since init_seq |
| Sdes.WriteSdes | z3_rtsp_client/rfc3550/rtp.c:72-106 | lays exactly the octets of the chunk into the buffer, leaves the rest alone, and returns the end; of a longer text only 255 octets have to be there |
| Sdes.AppendItem | z3_rtsp_client/rfc3550/rtp.c:87-97 | each item goes directly behind those before it, with its text cut to 255 octets |
| Sdes.CutAt255 | z3_rtsp_client/rfc3550/rtp.c:90-93 | a text of at most 255 octets stays whole, and of a longer one the first 255 stay |
| Sdes.Terminate | z3_rtsp_client/rfc3550/rtp.c:99-105 | one to four end markers, up to the next word of the chunk |
| Sdes.ReadSdes | z3_rtsp_client/rfc3550/rtp.c:108-136 | refines the reader for which the round trip is proved, on any packet, malformed ones included |
| Sdes.ReadItemsOf | z3_rtsp_client/rfc3550/rtp.c:122-129 | refines the item reader, which stops at an end marker or at the end of the packet |
| Sdes.ItemUpToEndIsDropped | z3_rtsp_client/rfc3550/rtp.c:122-129 | an item that leaves no room for an end marker in the packet is not delivered |
| Sdes.ReadChunkBack | z3_rtsp_client/rfc3550/rtp.c:100-131 | the writer's padding and the reader's word skip agree; the items before the first of type END come back |
| Sdes.SdesRoundTrip | z3_rtsp_client/rfc3550/rtp.c:72-136 | any chunks written behind a matching header are read back in order with texts cut, if and only if no item has the type END; chunks announced beyond them are missing |
| Sdes.WriteAll | z3_rtsp_client/rfc3550/rtp.c:72-106 | chunks written one behind the other lie in the buffer in order |
| Sdes.WriteThenRead | z3_rtsp_client/rfc3550/rtp.c:72-136 | rtp_read_sdes returns what calls of rtp_write_sdes have written into the same buffer, if and only if no item has the type END, and finds missing what is announced beyond |
| LinkedList.AddHead | z3_utilib/z3_list.c:18-43 | cons, on a well-formed chain whose first node counts it |
| LinkedList.AddTail | z3_utilib/z3_list.c:45-71 | snoc, likewise |
| LinkedList.Remove | z3_utilib/z3_list.c:73-115 | the first match is gone, or nothing is; the count moves to the new head |
| LinkedList.RemoveAll | z3_utilib/z3_list.c:118-156 | the matches, and only they, are gone; the count is right after each removal |
| LinkedList.RemoveLink | z3_utilib/z3_list.c:159-184 | exactly this node is unlinked and its own links are cleared |
| LinkedList.Concat | z3_utilib/z3_list.c:196-216 | append, with the counts added into the first head |
| LinkedList.Find | z3_utilib/z3_list.c:219-229 | the first node that holds the pointer, and none exactly if no node does |
| LinkedList.ForEach | z3_utilib/z3_list.c:246-256 | the callback sees each element once, in order |
| LinkedList.First | z3_utilib/z3_list.c:280-289 | from any node back to the head, and NULL for no list |
| LinkedList.Last | z3_utilib/z3_list.c:292-301 | the last node, or none of an empty list |
| LinkedList.Number | z3_utilib/z3_list.c:303-311 | the length of the list, as a 32-bit number |
| LinkedList.RemovedIsMultisetMinus | z3_utilib/z3_list.c:80-108 | removing the first match takes one occurrence out of the multiset |
| LinkedList.RemovedAllKeepsOthers | z3_utilib/z3_list.c:122-153 | removing all matches leaves every other element as often as it was |
| PointerHash.Hash.constructor | z3_utilib/z3_hash.c:15-34 | 512 empty buckets |
| PointerHash.Hash.Lookup | z3_utilib/z3_hash.c:45-52 | the key is a valid bucket number |
| PointerHash.KeyIsMiddleBits | z3_utilib/z3_hash.c:5-13 | the key is bits 22 to 30 of the product with the multiplier, whether or not that is reduced to 32 bits |
| PointerHash.Hash.Insert | z3_utilib/z3_hash.c:54-65 | multiset addition; every element stays in the bucket its key names, and every bucket stays a well-formed list of its own nodes |
| PointerHash.Hash.Remove | z3_utilib/z3_hash.c:67-78 | multiset subtraction, with the same invariant |
| PointerHash.Hash.Amount | z3_utilib/z3_hash.c:80-88 | the size of the multiset, as a 32-bit number |
| PointerHash.Hash.ForEach | z3_utilib/z3_hash.c:90-103 | every element is visited exactly as often as it is stored |
| PointerHash.CountKept | z3_utilib/z3_hash.c:62-75 | available_num stays the size on insertion, and on removal if and only if the element was there |
| PointerHash.PlacedMember | z3_utilib/z3_hash.c:67-75 | an element is stored somewhere if and only if it is in the bucket its key names |
| PointerHash.FlatIsBag | z3_utilib/z3_hash.c:95-102 | the buckets one after the other hold the multiset |
| Allocator.AllocStat.Malloc | z3_utilib/z3_alloc.c:154-246 | refines the ledger step, and the hash holds exactly the headers of the live blocks |
| Allocator.AllocStat.Calloc | z3_utilib/z3_alloc.c:248-341 | likewise, for num * size in 32 bits |
| Allocator.AllocStat.Realloc | z3_utilib/z3_alloc.c:343-480 | likewise: the old block is struck, the new one entered, at the same address or another |
| Allocator.AllocStat.Free | z3_utilib/z3_alloc.c:483-547 | likewise: the block is struck, and NULL changes nothing |
| Allocator.AllocStat.ReportLeaks | z3_utilib/z3_alloc.c:120-132 | the report names exactly the tracked blocks, each once |
| Allocator.LeaksOf | z3_utilib/z3_alloc.c:120-547 | after any calls from the start the report names, each once, exactly the blocks that some call has handed out and no later one has given back |
| Allocator.FewAddresses | z3_utilib/z3_alloc.c:126 | fewer than 2^32 blocks can be live, so the amount tested cannot have wrapped to 0 |
| Ledger.ApplySound | z3_utilib/z3_alloc.c:154-547 | each call keeps allocated - freed equal to the live octets modulo 2^32, and the maximum at or above them |
| Ledger.ApplyAt | z3_utilib/z3_alloc.c:154-547 | after a call a block is live exactly if the call hands it out, or it was live and the call does not give it back; every other block keeps its length |
| Ledger.ApplyTotals | z3_utilib/z3_alloc.c:154-547 | a call adds the length of the block it hands out to the octets allocated, and that of the block it gives back to those freed, and counts each once |
| Ledger.LiveFromCalls | z3_utilib/z3_alloc.c:154-547 | after any run from the start a block is live exactly if some call has handed it out and no later free or realloc has named it, with the length for which it was handed out |
| Ledger.TotalsFromCalls | z3_utilib/z3_alloc.c:154-547 | the octets and blocks allocated and the blocks freed are those of the calls, modulo 2^32 |
| Ledger.LengthCovers | z3_utilib/z3_alloc.c:154-341 | the recorded length is the least multiple of 4 not below the size asked for, if and only if that fits 32 bits |
| Ledger.LedgerOverRun | z3_utilib/z3_alloc.c:154-547 | over any run of calls the totals balance, and the maximum is the historical peak as long as fewer than 2^32 octets are live at once |
| Ledger.TimesOverRun | z3_utilib/z3_alloc.c:154-547 | over any run alloc_times - free_times is the number of live blocks, modulo 2^32 |
| Ledger.LedgerFromStart | z3_utilib/z3_alloc.c:70-96 | the same from the zeroed statistics, and the numbers of calls differ by the number of live blocks; there the maximum is the peak if and only if the peak is below 2^32 |
| Depacketizer.H264Frame.AddNalStartCode | z3_rtsp_client/z3_h264_frame.cpp:50-61 | appends the start code whole or not at all, and says which |
| Depacketizer.H264Frame.FillData | z3_rtsp_client/z3_h264_frame.cpp:63-75 | appends the data whole or not at all, and returns how much |
| Depacketizer.H264Frame.Reset | z3_rtsp_client/z3_h264_frame.cpp:77-81 | an empty frame without a timestamp |
| Depacketizer.RtpParser.Parse | z3_rtsp_client/z3_rtp_udp_session.cpp:31-141 | refines the reassembly step; complete exactly at a marker; a frame keeps the first timestamp that is not 0; of the payload only the header octet of a first fragment is rewritten |
| Reassembly.FragmentReadable | z3_rtsp_client/z3_rtp_udp_session.cpp:80-103 | the header put together from a first fragment is the header of the unit that was fragmented |
| Reassembly.WholeUnit | z3_rtsp_client/z3_rtp_udp_session.cpp:67-116 | any payload but a fragment or an aggregation is a unit |
| Reassembly.FragmentOfUnit | z3_rtsp_client/z3_rtp_udp_session.cpp:80-103 | a fragment with the start bit begins a unit whose header has the upper three bits of its first octet and the lower five of its second |
| Reassembly.RunUnit | z3_rtsp_client/z3_rtp_udp_session.cpp:67-116 | the packets of one unit, however it was split, append a start code and the unit |
| Reassembly.RunPicture | z3_rtsp_client/z3_rtp_udp_session.cpp:31-141 | the packets of one frame leave its byte stream and timestamp, if and only if the stream fits the buffer |
| Reassembly.ReassemblyInvertsPacketisation | z3_rtsp_client/z3_rtp_udp_session.cpp:31-141 | for any frames and any way of sending their units, frames come out exactly at the markers and unchanged, if and only if all fit the buffer |
| AsyncQueue.NextNoLostWakeup | z3_engine/z3_async_queue.hpp:49-125 | each atomic step keeps: a non-empty queue has its event set, or a producer is between Push and Signal |
| AsyncQueue.NextFifo | z3_engine/z3_async_queue.hpp:57-113 | each atomic step keeps: the elements found followed by the queued ones are the pushed elements |
| AsyncQueue.EveryRunIsSafe | z3_engine/z3_async_queue.hpp:30-125 | over every interleaving of any number of threads: mutual exclusion, exactly-once FIFO, each call returns what it found, the event is reset only beside an empty queue, no lost wakeup |
| AsyncQueue.WaitSettlesEvent | z3_engine/z3_async_queue.hpp:93-125 | when a WaitForEV that was not timed out releases the mutex, and no thread has signalled since it left the wait, the event is set if and only if the queue is not empty |
| AsyncQueue.NextConsumerWaits | z3_engine/z3_async_queue.hpp:93-125 | after such a call that leaves the queue empty no consumer comes out of its wait until some thread signals |
| AsyncQueue.EventChanges | z3_engine/z3_async_queue.hpp:49-125 | only Signal sets the event and only the reset of WaitForEV clears it |
| AsyncQueue.TakeFinds | z3_engine/z3_async_queue.hpp:63-125 | a look at the queue finds and removes its first element, or none exactly if it is empty |
| AsyncQueue.NextHonest | z3_engine/z3_async_queue.hpp:63-125 | each atomic step keeps: what a thread has found is what its calls have returned, then what it still carries |
| AsyncQueue.IdleThreadHasEverything | z3_engine/z3_async_queue.hpp:63-125 | between calls a thread has been returned, call by call, exactly what it found |
| AsyncQueue.NeverStuck | z3_engine/z3_async_queue.hpp:93-125 | while an item is queued and a consumer waits, some thread can go on without a new call |
| AsyncQueue.ThreadsComeToRest | z3_engine/z3_async_queue.hpp:49-125 | left to themselves the threads rest after a bounded number of steps in any order, and then no consumer waits beside a non-empty queue |
| RtspSession.Session.OnConnect | z3_rtsp_client/z3_rtsp_session.cpp:38-100 | refines the start of the dialogue: OPTIONS with CSeq 0, and a read that may fail to start |
| RtspSession.Session.SendDESCRIBE | z3_rtsp_client/z3_rtsp_session.cpp:288-325 | refines the DESCRIBE request of the script |
| RtspSession.Session.SendSETUP | z3_rtsp_client/z3_rtsp_session.cpp:447-534 | refines the SETUP request, with its assertions in order: the track exists, it has a control attribute, the request takes its address and its headers |
| RtspSession.Session.SendPLAY | z3_rtsp_client/z3_rtsp_session.cpp:536-580 | refines the PLAY request, with its assertions |
| RtspSession.Session.OnOptionsRespond | z3_rtsp_client/z3_rtsp_session.cpp:265-286 | goes on if and only if some Public value is DESCRIBE in any case |
| RtspSession.Session.OnDescribeRespond | z3_rtsp_client/z3_rtsp_session.cpp:327-394 | goes on with track 0 of at least one, or not at all |
| RtspSession.Session.OnSetupRespond | z3_rtsp_client/z3_rtsp_session.cpp:396-445 | the session identifier is copied once, without what stands behind a ";", and any later one must begin with it; a copy that fails is read through NULL; PLAY only when no track is left |
| RtspSession.Session.Dispatch | z3_rtsp_client/z3_rtsp_session.cpp:180-232 | only a 200 with the expected CSeq has an effect |
| RtspSession.Session.InvokeStateMachine | z3_rtsp_client/z3_rtsp_session.cpp:234-263 | refines the choice of handler and the next read, which is asserted to start |
| RtspScript.ReplyKeepsInv | z3_rtsp_client/z3_rtsp_session.cpp:180-580 | any reply and any local failure keep the dialogue on the script, and no assertion about the state of the session fails (lines 252, 337-338, 402, 458-464, 543) |
| RtspScript.SessionFollowsScript | z3_rtsp_client/z3_rtsp_session.cpp:38-580 | against any server, over any run, the dialogue is a beginning of the script, and no assertion about the state of the session fails |
| RtspScript.ScriptMeans | z3_rtsp_client/z3_rtsp_session.cpp:180-580 | CSeq counts the requests; each is sent after all before it were answered 200; each track is set up once, in order and in range; PLAY follows the answered SETUP of every track |
| RtspScript.CutAtSemicolon | z3_rtsp_client/z3_rtsp_session.cpp:413-415 | of the first Session header the part up to the first ";" behind the identifier is kept |
| RtspScript.SessionComesFromReply | z3_rtsp_client/z3_rtsp_session.cpp:396-580 | over any run the identifier that the first answer to SETUP names, without its parameters, is the one that every later request carries |
| RtspScript.LaterAnswersBeginAlike | z3_rtsp_client/z3_rtsp_session.cpp:425-444 | a later answer to SETUP leads to a request if and only if its header is the identifier followed by anything |
| RtspScript.OfferLeadsToDescribe | z3_rtsp_client/z3_rtsp_session.cpp:265-286 | the answer to OPTIONS leads to DESCRIBE if and only if it offers that word, each letter in either case |
| RtspScript.ConnectSendsOptions | z3_rtsp_client/z3_rtsp_session.cpp:38-100 | the dialogue starts with OPTIONS, CSeq 0, and an answer is awaited if the read is started |
| RtspScript.OnlyTheAnswerCounts | z3_rtsp_client/z3_rtsp_session.cpp:180-232 | what is not a parsed 200 response with the CSeq of the last request has no effect |
| RtspScript.SilentWithoutRequest | z3_rtsp_client/z3_rtsp_session.cpp:234-263 | a further message is read exactly if the last has led to a request and the read was started; otherwise nothing changes any more |
| RtspScript.FailsExactly | z3_rtsp_client/z3_rtsp_session.cpp:234-580 | each other assertion fails exactly under its condition: line 468 if and only if the track to be asked for has no control attribute, line 259 if and only if a request was sent and the read cannot be started, and so on |
| RtspScript.RunFails | z3_rtsp_client/z3_rtsp_session.cpp:180-580 | over any run an assertion fails if and only if its condition holds at some reply |
| RtspScript.SessionFails | z3_rtsp_client/z3_rtsp_session.cpp:38-580 | the same from the start of the dialogue |
| RtspScript.DescribedWithoutControl | z3_rtsp_client/z3_rtsp_session.cpp:467-468 | any server that describes its first medium without a control attribute makes the assertion fail, while nothing fails on this side |
| RtspScript.SensibleServer | z3_rtsp_client/z3_rtsp_session.cpp:180-580 | no assertion fails if nothing fails on this side, every medium has a control attribute and no session identifier is empty |
| HeaderSplit.NeverQuotedInComment | z3_rtsp_client/z3_rtsp_proto_parser.cpp:345-356 | the scanner is never both in a quoted string and in a comment |
| HeaderSplit.PassPhrase | z3_rtsp_client/z3_rtsp_proto_parser.cpp:344-393 | the scanner passes plain characters, quoted strings and nested comments, with escapes and any commas within, as a whole |
| HeaderSplit.ReadPhrase | z3_rtsp_client/z3_rtsp_proto_parser.cpp:344-393 | what the scanner has passed when it is at the top level is a well-formed value |
| HeaderSplit.BalancedIffPhrase | z3_rtsp_client/z3_rtsp_proto_parser.cpp:344-393 | the scanner passes a value and ends outside quotes and comments if and only if it is well-formed |
| HeaderSplit.ScannerFindsEnd | z3_rtsp_client/z3_rtsp_proto_parser.cpp:344-393 | on any line the scanner stops at the one comma outside quoted strings and comments, or at the end |
| HeaderSplit.ScanOver | z3_rtsp_client/z3_rtsp_proto_parser.cpp:345-393 | the scanner stops right behind a well-formed value at the end of the line or before a comma |
| HeaderSplit.SplitUndoesJoin | z3_rtsp_client/z3_rtsp_proto_parser.cpp:324-407 | values that are well-formed by the grammar of quoted strings and comments, joined by "," or ", ", are split into the same values |
| HeaderSplit.SplitUndoesJoinBehindColon | z3_rtsp_client/z3_rtsp_proto_parser.cpp:332-334 | also behind a space |
| HeaderSplit.OneValueIfNotMultiple | z3_rtsp_client/z3_rtsp_proto_parser.cpp:336-340 | the value of a header that may not repeat is one value whatever commas, quotes and parentheses it holds, without one space at each end |
| HeaderSplit.FirstPadded | z3_rtsp_client/z3_rtsp_proto_parser.cpp:332-398 | a well-formed value before a comma is emitted without one space at each end, and the rest is split behind the comma |
| HeaderSplit.EmptyValueDropped | z3_rtsp_client/z3_rtsp_proto_parser.cpp:395-404 | an empty value between two commas is dropped |
| HeaderSplit.CutValue | z3_rtsp_client/z3_rtsp_proto_parser.cpp:395-404 | exactly the comma, and a space before it, become NUL |
| HeaderSplit.FindEnd | z3_rtsp_client/z3_rtsp_proto_parser.cpp:344-393 | finds the one comma that stands behind a well-formed value, so outside quoted strings and comments, or the end if there is none |
| HeaderSplit.TakeValue | z3_rtsp_client/z3_rtsp_proto_parser.cpp:325-406 | one turn emits the first value, without one space at each end, if it is not empty, and goes on behind its comma; the value stands in the line as a C string, and only characters before the next value become NUL |
| HeaderSplit.SplitLine | z3_rtsp_client/z3_rtsp_proto_parser.cpp:324-407 | for a header that may repeat the joined values are emitted, and for one that may not the one value; the buffer changes only by NULs inside it |

## Left out

- MediaPorts.PortsCtl.constructor: line 120 sizes the map one cell short of the ports that lines 174 and 192 use; the model has one cell a port. A second SetRange on a live object and nHigh = 65535, where the 16-bit cursor would wrap, are not modelled.
- MediaPorts.PortsCtl.PutOne: a port in range that is not taken is a precondition; the source stops at an assertion.
- MediaPorts.PortsCtl.PutTwo: ports in range that are not handed out; what becomes of a withheld one, see PutOne.
- MediaPorts.PortsCtl.GetTwo: a free pair is a precondition where the search begins, because otherwise the source does not return.
- RtcpTimer.Timer.OnExpire: floating-point rounding; `exit` after a BYE is a no-op in this code base and is modelled as one.
- Sdes.ReadSdes: bit fields of the common header word; count and length are its decoded fields. For a malformed packet the code reads one length octet behind the packet, whose value does not matter.
- LinkedList.RemoveLink: removing the only node of a list, which reads through NULL.
- Allocator.AllocStat.Realloc: when the system has no memory the old block leaves the ledger, as in the code, although it is still allocated.
- Allocator.AllocStat.ReportLeaks: it returns the headers it would trace and free; the trace text is not modelled.
- Reassembly.ReassemblyInvertsPacketisation: aggregation packets (types 24 to 27), for which the code leaves `bNalBegin` unset, and interleaved mode.
- AsyncQueue.EveryRunIsSafe: `Signal(false)`, which nothing calls, and abandoned mutexes. A WaitForEV that times out returns false and is not recorded.
- RtspSession.Session.OnSetupRespond: the session timeout.
- RtspScript.ReplyKeepsInv: the assertions about the ports in lines 493-495, which follow from what GetTwo hands out, and in line 508, where only the transfer over UDP is ever chosen.
- RtspScript.FailsExactly: builds without assertions, in which the code goes on behind a condition that an assertion denies. That sprintf_s fails is modelled as its negative result; on Windows its invalid-parameter handler is called first. Lengths are not modelled: whether the text of a request fits (z3_rtsp_client/z3_rtsp_msg.cpp:737-738) is a free flag. The text has at most 1500 octets, so line 207 of z3_engine/z3_connector.cpp, which allows 4096, cannot fail.
- RtspScript.CopyFails: an empty session identifier is one of the failing cases, although the parser adds no header with an empty value (z3_rtsp_client/z3_rtsp_proto_parser.cpp:403).
- Depacketizer.RtpParser.Parse: aggregation packets, as above.
- HeaderSplit.SplitLine: the lookahead for the two authenticate fields; looking the field name up.
- Guard words, file names and mutexes of the allocator; each call is atomic.
- The RTP header in front of a payload, and the RTCP session that calls `OnReceive` (z3_rtsp_client/z3_rtcp_udp_session.cpp:239 passes its counters in another order than the parameters have).
- The framing loop of the RTSP parser, SDP, sockets, completion ports, timers and reference counts.
