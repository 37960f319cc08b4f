# Packet latency measurement: a Dafny model

The repository measures how long packets take from their arrival in the kernel to user space,
over three delivery paths: a packet cache in a kernel module, eBPF array maps, and AF_XDP
sockets. This project models the parts of it that have state machines or arithmetic and proves
what they keep. `dafny verify dfyconfig.toml` checks everything.

| files | what they model |
|---|---|
| `Common`, `DivMod` | sizes, machine integers, the wire form of a record (`common.h`), division facts |
| `PacketCaches` | the kernel module's cache with handler and `read` atomic: a bounded FIFO over status flags and fixed slots |
| `InterleavedCache` | the same cache with every status test, copied byte and status write a step of its own |
| `ArrivalOrder`, `Draining`, `Overtaking` | three rules under which the interleaved cache keeps arrival order, that they are exact, and that none can be dropped |
| `SerialRuns` | schedules without overlap: the interleaved cache is then the bounded FIFO |
| `ChunkedLogs` | chunk sizes and chunked timestamp logs against a flat log |
| `KernelModules` | the receive handler and the user process, as classes over the cache and the logs |
| `KernelPath`, `Replay` | the kernel-module path from client to user log as a step system, and the proof that the classes refine it |
| `InterleavedPath` | the same path with handler and `read` interleaved byte by byte |
| `InternetChecksum`, `EchoReply` | incremental checksum update and the ICMPv6 echo responder |
| `XskRings`, `FrameOwnership`, `UmemFrames`, `UmemRuns` | SPSC rings with free-running 32-bit indices, who owns which UMEM frame, the receive and transmit paths with the kernel acting before every ring access, and two particular runs |
| `EbpfHandoff`, `EbpfPrograms` | the two-map hand-off and the polling loop as a step system, and the programs that refine it |
| `Gic`, `TrapFrame` | packed interrupt registers, pending interrupts, and trap frames with nested exceptions |
| `LatencyHistogram`, `HistogramStatistics` | histograms, zero counts, moments, quantiles and latency ranges of the evaluation scripts |

Code that updates state in place is a class or a method with loops, proved against functions on
values. Protocols between two parties are step systems with an invariant over all runs; `Replay`
and `EbpfPrograms` tie the classes to them, and `SerialRuns` ties the interleaved cache to the
atomic one. Some bodies use `hide` to keep definitions they only pass on out of the proof.

Assumptions, each of which the code makes as well: one receive handler and one reader, atomic
memory accesses in program order, a monotone clock that does not read 0, client uids that are sent
once, copy mode for AF_XDP, a little-endian host. I/O, clocks, failing copies and the kernel's
behaviour are parameters that can take any value.

## Where the code does not do what its text says

* `csum_replace2` differs from a full recomputation exactly when all updated words are zero: it
  then gives 0 instead of 0xFFFF (`InternetChecksum.ReplaceMeetsRecomputation`).
* `handle_receive_packets` asks for as many fill entries as there are free frames, but when any
  frame is free it stocks as many as the ring has room for. Invalid addresses enter the fill ring
  if and only if 0 < free frames < room at that moment (`UmemFrames.XskSocket.Stock`), which can
  happen (`UmemRuns.StockingFails`; `FrameOwnership.StockExceedsFree` says where the frames then
  are). With the responder off and enough frames for the fill and RX rings together it never does
  (`UmemFrames.Run`); 4096 frames are enough for rings of 2048 entries. Start-up alone needs
  frames for the fill ring only (`UmemFrames.XskSocket.Configure`).
* Nothing in the cache says so, but it is a FIFO if handler and `read` do not overlap
  (`SerialRuns.SerialSchedulesAreAtomic`). If they overlap, order can be lost by three kinds of
  step: a packet is stored by a search that went past some of the cached packets but not all, a
  packet is stored where the read under way takes it before an older one, or a read starts
  between a flag and its index update while packets lie on both sides of that slot. These are exactly the harmful steps: a schedule avoids
  them if and only if at each of its points the cache, drained from there on, comes out in order
  (`Draining.RulesAreExact`); and order is guaranteed if and only if all three are ruled out
  (`Overtaking.GuaranteeTakesAllRules`). The code rules out none.
* The first-byte test of the user process recovers the batch exactly when no packet starts with
  a zero byte (`KernelPath.FirstByteTestRecoversBatch`); client packets never do.
* `scripts/ps_combi_2_stress_non.py` halves its zero counts because "each zero value is counted
  twice". With its four pairs that is so for the two kernel logs only
  (`LatencyHistogram.ZeroedOfFourPairs`).
* Its median scan uses 0 as the mark for "not set". The median is wrong exactly when the sample
  of the median's rank is 0 and fewer than 99% of the samples are at most 0
  (`HistogramStatistics.Quantiles`); for the samples 0, 0, 5, 6 it is 5 instead of 0
  (`HistogramStatistics.MedianOfFour`).

## Model

| member | source | states |
|---|---|---|
| Common.PayloadRoundTrip | kernel_module/user-processing.c:122-124 | a record copied out of a slot has the eight fields it was written with, whatever padding follows it |
| Common.FieldOffsets | common.h:61-70 | where each of the eight fields lies: client uid at byte 0, uid at 8, type at 16, creation time at 24, and the four arrival times from 32 on |
| ChunkedLogs.ChunksTileTheLog | common.h:29-36 | for every shift and page order the chunks hold exactly MAX_LOG_ENTRY entries if and only if shift + 1 >= order + 9 |
| ChunkedLogs.ChunkedLog.Write | kernel_module/user-processing.c:137-140 | `log_buffs[uid / M][uid % M] = now` changes entry uid of the flat log and no other |
| ChunkedLogs.ChunkedLog.Read | __eBPF_measure/ebpf_measure_user.c:267-270 | a written uid reads back its value |
| PacketCaches.PacketCache.Store | kernel_module/intercept-module.c:242-269 | a packet is appended to the queue, or dropped and counted exactly when the queue holds MAX_PKT packets; contiguity, slot bytes and zeroed free slots are kept |
| PacketCaches.PacketCache.Read | kernel_module/intercept-module.c:98-155 | a successful read hands out four records, the k-th the k-th oldest packet padded with zeros or all zeros if there is none, and removes the up to four oldest packets; a failed or out-of-range read removes nothing |
| KernelModules.KernelModule.RxhPacketIn | kernel_module/intercept-module.c:193-279 | a packet whose version is not 4, protocol not 17 or port not 8080 changes nothing; every other one is counted, stamped at the uid in bytes 36 to 43 if that fits the log, and its UDP payload is queued, or counted as overflow exactly if the cache is full |
| KernelModules.UserProcess.Refill | kernel_module/user-processing.c:116-117 | the read buffer holds the delivered records, or zeros if the read failed |
| KernelModules.UserProcess.ProcessRecord | kernel_module/user-processing.c:118-147 | one record is logged at its uid, with the time it was looked at, if and only if its first byte is not 0, it comes from a client, its type is 2, it has a creation time and its uid fits the log |
| Replay.LookAtClientRecord | kernel_module/user-processing.c:118-147 | the padded record of a client packet whose uid fits the log is logged at that uid with the time given, and nothing else changes |
| KernelModules.UserProcess.Drain | kernel_module/user-processing.c:111-150 | one turn of the loop: a uid of some record that passes all tests gets the time at which its last such record was looked at; every other entry stays, and all do when the read failed |
| Replay.DrainClientPackets | kernel_module/user-processing.c:111-150 | on the batch of a queue of client packets with distinct uids the loop logs each of the up to four oldest at its uid with the k-th time, and changes no other entry |
| KernelPath.FirstByteTestRecoversBatch | kernel_module/user-processing.c:116-126 | the records not skipped are exactly the packets of the batch, in order, if and only if no packet is empty or starts with a zero byte |
| KernelPath.EveryStampedUidIsAccountedFor | kernel_module/intercept-module.c:228-269 | after every run of distinct client uids, exactly the sent uids that fit the log are stamped, each with its arrival time; each is exactly one of user-logged, still held, or dropped; the user stamp of each is the time at which its record was looked at, and not earlier than the kernel stamp |
| KernelPath.PacketsStayInOrder | kernel_module/user-processing.c:116-148 | after every run with atomic handler and read the user process has seen a prefix of the accepted packets in arrival order, each once, and the rest is held |
| Replay.ReplayRun | kernel_module/user-processing.c:111-150 | kernel module and user process, run on any legal event sequence, end in the state the step system ends in, counters modulo 2^64 included |
| Replay.StartUp | kernel_module/intercept-module.c:334-366 | module and process start in the step system's initial state |
| InterleavedCache.RunKeepsInv | kernel_module/intercept-module.c:98-279 | every schedule keeps the byte-level invariant: a slot being filled holds a prefix of its packet, a flagged slot all of it, a free one zeros up to there; each taken record equals its slot |
| InterleavedCache.NoLossNoDuplicationNoTearing | kernel_module/intercept-module.c:121-151 | in every reachable state of every schedule: no stored packet is lost, none is handed out twice, each is handed out whole, stored = released + occupied, and seen = stored + overflow + in hand |
| InterleavedCache.BufferIsWhole | kernel_module/intercept-module.c:113-139 | what copy_to_user sees under any interleaving: complete zero-padded packets, then zero records |
| ArrivalOrder.RulesKeepOrder | kernel_module/intercept-module.c:98-279 | for every schedule that obeys the three rules the packets handed out are the first ones stored, in order, without a gap, each whole |
| ArrivalOrder.StepIsExact | kernel_module/intercept-module.c:98-279 | where the packets handed out, those in the slots and those the read under way will take are in order, a step of either party keeps them so if and only if it obeys the rules |
| ArrivalOrder.FlagUnderTheReader | kernel_module/intercept-module.c:121-130 | storing in the slot that the reader tests next is harmless exactly if the read has already taken every other packet in the cache |
| Draining.DrainsInOrderExactly | kernel_module/intercept-module.c:98-155 | from any reachable state, reading on without new packets hands out in order under every outcome of the copies if and only if the three things above are in order |
| Draining.RulesAreExact | kernel_module/intercept-module.c:98-279 | for every schedule: it obeys the rules if and only if at each of its points reading on without new packets would hand out in order |
| Overtaking.GuaranteeTakesAllRules | kernel_module/intercept-module.c:98-279 | for every set of rules: all schedules that obey it hand out in order if and only if it has all three rules; each is missed by a schedule that obeys the other two |
| SerialRuns.SerialSchedulesAreAtomic | kernel_module/intercept-module.c:98-279 | for every schedule in which handler and reader never overlap, queue, overflow count and records handed out are those that a sequence of atomic stores and fetches leaves, and no rule is broken |
| SerialRuns.AtomicRun | kernel_module/intercept-module.c:98-279 | that sequence, carried out on the cache class, ends in the same queue and count |
| SerialRuns.RestingSlots | kernel_module/intercept-module.c:98-279 | between activations of such a schedule the occupied slots are one cyclic block ending before current_index, with the queue in it, and free ones are zero |
| InterleavedPath.EveryPacketIsInOnePlace | kernel_module/intercept-module.c:98-279 | end to end under every interleaving: each packet that arrived is in exactly one of five places (dropped, in the handler's hands, whole in the cache, whole in the read buffer, looked at); exactly those looked at whose uid fits the log are in the user log, with the time of the look; kernel stamps are arrival times and not later |
| InternetChecksum.AddIsCanonical | __XDP_measure/xdp_measure_user.c:279-285 | csum16_add with its carry is addition modulo 65535 with that representative |
| InternetChecksum.ReplaceIsCanonical | __XDP_measure/xdp_measure_user.c:287-295 | csum_replace2 is equation 3 in section 3 of RFC 1624, computed over plain integers |
| InternetChecksum.ReplaceMeetsRecomputation | __XDP_measure/xdp_measure_user.c:292-295 | for every word sequence, position and new word, the update equals the recomputed checksum if and only if some updated word is not zero; otherwise it is 0 against 0xFFFF |
| InternetChecksum.ReplaceUndoes | __XDP_measure/xdp_measure_user.c:292-295 | replacing a word and replacing it back restores the checksum if and only if the words were not all zero |
| InternetChecksum.CsumReplace2InPlace | __XDP_measure/xdp_measure_user.c:292-295 | through the pointer: whatever words the cell was the checksum of, it becomes the checksum of the updated words, and no other cell changes |
| InternetChecksum.ChecksumVerifies | __XDP_measure/xdp_measure_user.c:279-295 | words with their checksum appended are accepted |
| InternetChecksum.ByteOrderIndependent | __XDP_measure/xdp_measure_user.c:342-344 | computing on words loaded in the other byte order accepts the same packets (section 2(B) of RFC 1071) |
| EchoReply.BuildEchoReply | __XDP_measure/xdp_measure_user.c:326-344 | the in-place responder accepts exactly IPv6 frames of at least 62 bytes with next header 58 and type 128 and turns them into the reply; other frames stay untouched. Compiled out with `if (false)` |
| EchoReply.ReplyKeepsChecksumValidity | __XDP_measure/xdp_measure_user.c:326-344 | for every address pair, code and payload, the reply's checksum over pseudo-header and message is valid if and only if the request's was (section 8.1 of RFC 8200, sections 2.3 and 4.2 of RFC 4443) |
| EchoReply.ReplyReturnsToSender | __XDP_measure/xdp_measure_user.c:332-344 | addresses are exchanged, the type is the reply type, and code, identifier, sequence number, data and the rest of the frame are kept |
| XskRings.WrapKeepsSlot | __XDP_measure/xdp_measure_user.c:77-81 | an index that wraps at 2^32 keeps every entry in its slot, for every ring size (a power of two) |
| XskRings.ProducerRing.NbFree | __XDP_measure/xdp_measure_user.c:380-381 | a count of free entries that may be stale but never too high, and that covers the request or is exact |
| XskRings.ProducerRing.Reserve | __XDP_measure/xdp_measure_user.c:385-386 | all the entries or none, all of them exactly when there is room |
| XskRings.ProducerRing.Fill | __XDP_measure/xdp_measure_user.c:393-395 | writing the next reserved entry appends it and keeps what is already in the ring |
| XskRings.ConsumerRing.Peek | __XDP_measure/xdp_measure_user.c:375 | the oldest entries, at most as many as asked for, and none only if there are none |
| XskRings.ConsumerRing.Entry | __XDP_measure/xdp_measure_user.c:402-403 | the k-th peeked entry is read, also when the index has wrapped |
| FrameOwnership.OneOwner | __XDP_measure/xdp_measure_user.c:168-184 | the places that own a frame add up to one: free stack, fill, arrived, received, sending, in flight, sent or completed |
| FrameOwnership.Census | __XDP_measure/xdp_measure_user.c:224-249 | the sizes of all places add up to the number of frames plus the invalid addresses in the fill ring |
| FrameOwnership.RoomOnStack | __XDP_measure/xdp_measure_user.c:179-184 | while a received or completed frame is to be freed, umem_frame_free is below NUM_FRAMES: the assert cannot fire |
| FrameOwnership.StockExceedsFree | __XDP_measure/xdp_measure_user.c:379-397 | a stocking step meets 0 < free frames < room if and only if more than NUM_FRAMES - fill size frames are elsewhere and some frame is still free |
| FrameOwnership.EnoughFrames | __XDP_measure/xdp_measure_user.c:379-397 | with nothing out for transmit and NUM_FRAMES >= fill size + RX size it never does, for any ring sizes |
| UmemFrames.XskSocket.Configure | __XDP_measure/xdp_measure_user.c:191-249 | start-up, with the kernel acting after every write, gives each frame one owner and fills the fill ring; it stocks exactly the invalid addresses by which the fill ring exceeds NUM_FRAMES, so none if and only if the frames reach |
| UmemFrames.XskSocket.StockCount | __XDP_measure/xdp_measure_user.c:380-381 | the count is 0 if no frame is free and the whole room of the fill ring otherwise, whether or not that many frames are free; as built it is at most the free frames |
| UmemFrames.XskSocket.Stock | __XDP_measure/xdp_measure_user.c:379-398 | the reserve succeeds at once, so the retry loop is never entered; invalid addresses enter the fill ring if and only if 0 < free frames < room at the count, and then exactly room - free of them |
| UmemFrames.XskSocket.ProcessPacket | __XDP_measure/xdp_measure_user.c:346-366 | the frame is sent on exactly if the responder is on, the packet is an echo request and the TX ring has room; outstanding_tx counts it |
| UmemFrames.XskSocket.CompleteTx | __XDP_measure/xdp_measure_user.c:251-277 | completed frames go back to the allocator, some if any wait, and outstanding_tx goes down by their number and stays the number of frames out for transmit: its clamp never clips |
| UmemFrames.XskSocket.HandleReceivePackets | __XDP_measure/xdp_measure_user.c:369-416 | one call, with the kernel acting before every ring access: one owner a frame; RX, fill, TX and completion indices, free count and outstanding_tx move by exactly what was received, stocked, sent and collected; the invalid addresses stocked are exactly the excess of the count over the free frames |
| UmemFrames.XskSocket.RxAndProcess | __XDP_measure/xdp_measure_user.c:418-436 | any number of calls, with the kernel acting in poll and at every point of every call, keeps one owner a frame, outstanding_tx exact, and as built stocks no invalid address |
| UmemFrames.Run | __XDP_measure/xdp_measure_user.c:191-436 | from the zeroed socket on, for all sizes, frame counts, packets and kernel behaviours: after start-up and any number of calls each frame has one owner, and with the responder off and frames for fill and RX rings no invalid address was ever stocked |
| UmemRuns.RoundTrip | __XDP_measure/xdp_measure_user.c:251-416 | such runs are not empty: in one of them a packet is received, its frame replaced in the fill ring, answered, sent and collected again |
| UmemRuns.StockingFails | __XDP_measure/xdp_measure_user.c:379-397 | a reachable state in which the next call stocks an invalid address: 20 frames, a fill ring of 16, five packets waiting, responder off |
| EbpfHandoff.HandoffIsInOrder | __eBPF_measure/ebpf_measure_user.c:249-254 | in every reachable state next_uid <= MAX_LOG_ENTRY; the stamp map holds the arrival time of each packet sent so far and 0 at every other key; exactly the uids below next_uid are logged, each with the time at which it was fetched, which is not before its arrival, and has a stored payload with its own uid |
| EbpfHandoff.PollingReachesFirstMissing | __eBPF_measure/ebpf_measure_user.c:249-254 | from every reachable state, polling without arrivals reaches exactly the first missing uid or MAX_LOG_ENTRY, one uid a poll, and stays there |
| EbpfHandoff.PollingStopsAtFirstUnstored | __eBPF_measure/ebpf_measure_kern.c:83-113 | if only data packets are sent, that uid is the first whose payload the kernel side has not stored |
| EbpfPrograms.EbpfReader.FetchAndProcessPacket | __eBPF_measure/ebpf_measure_user.c:128-151 | true exactly if the uid is a key of the map and the payload there comes from a client, is of type 2, has a creation time and a uid that fits the log; it is then logged under the payload's uid with the time given |
| EbpfPrograms.ReplayRun | __eBPF_measure/ebpf_measure_user.c:249-254 | programs and maps, run on any legal event sequence, end in the state the step system ends in |
| Gic.ReadsBack | kernel_module/lkmc/gic.h:266-305 | after the read-modify-write a field reads back the value if and only if the value is in range |
| Gic.FieldLayout | kernel_module/lkmc/gic.h:266-305 | the field of interrupt i is byte i mod 4 of register i / 4, or the i mod 16-th pair of bits of register i / 16 |
| Gic.BitLayout | kernel_module/lkmc/gic.h:225-256 | the bit of interrupt i is bit i mod 32 of register i / 32 |
| Gic.WriteRefinesMapUpdate | kernel_module/lkmc/gic.h:266-305 | the register arrays refine per-interrupt maps: a write is the map update if and only if the value is in range (section 8.9.7 of the Arm GIC Architecture Specification for ICFGR) |
| Gic.Distributor.GicdCalls | kernel_module/lkmc/gic.h:266-305 | any sequence of in-range calls acts on the registers as on the per-interrupt maps, and each register field reads back the value last written to it, or its first one |
| Gic.Distributor.InitGicd | kernel_module/lkmc/gic.h:184-220 | all interrupts disabled and, unless held up, not pending; priority 0xff; target 1 from interrupt 32 on; configuration 0 from 16 on; the rest as before |
| Gic.Distributor.GicInitialize | kernel_module/lkmc/gic.h:320-328 | the initial settings, and then exactly the timer interrupt enabled, with configuration 2, priority 0 and target 1 |
| Gic.Distributor.GicFindPendingIrq | kernel_module/lkmc/gic.h:336-352 | the lowest pending interrupt, or 1 exactly if none is pending |
| Gic.Distributor.ServeAll | kernel_module/lkmc/gic.h:311-352 | finding and ending in turn serves every pending clearable interrupt exactly once, in ascending order, and then ends |
| Gic.Distributor.ServeAtMost | kernel_module/lkmc/gic.h:311-352 | with a pending interrupt that its line holds up the loop never ends: it uses up any bound on its turns |
| TrapFrame.FrameLayout | kernel_module/lkmc/aarch64.h:108-113 | a frame in memory is 288 bytes and is the struct field by field at the macros' offsets |
| TrapFrame.Cpu.Enter | kernel_module/lkmc/aarch64.h:191-206 | at the handler's call x0 is the frame's address and the frame holds type and syndrome, the interrupted stack pointer at 16, pc and processor state at 24 and 32, and x0 to x30 from 40 on; memory above is as before |
| TrapFrame.Cpu.Leave | kernel_module/lkmc/aarch64.h:191-206 | after the exit the processor has the frame's context |
| TrapFrame.Cpu.TakeException | kernel_module/lkmc/aarch64.h:191-206 | for handlers nested to any depth that keep sp and the saved frames, the interrupted code gets back x0 to x30, sp, pc, processor state, SP_EL0 if it ran on it, and all saved memory |
| LatencyHistogram.OneSamplePerStampedPair | scripts/ps_combi_2_stress_non.py:211-226 | there are as many samples as positions where both logs have a stamp |
| LatencyHistogram.TallyLogs | scripts/ps_combi_2_stress_non.py:211-236 | one run on top of what earlier ones counted: the count of every difference d grows by the number of positions where both logs of the pair have a stamp and the first is d more than the second, the negative count by those where it is less, and each log's zeros are counted once a pair |
| LatencyHistogram.TallyRuns | scripts/ps_combi_2_stress_non.py:114-236 | after all runs of an experiment a difference d is a key of a pair's histogram if and only if it occurs, and its value is the number of positions over all runs where it does; likewise the negative counts; and every zero of a log was counted once for each pair the log is in |
| LatencyHistogram.TotalZerosArePositions | scripts/ps_combi_2_stress_non.py:211-226 | the zeros of a log over all runs are the number of positions at which it is 0 |
| LatencyHistogram.HalvingIsExact | scripts/check_improved_plot.py:194-195 | halving gives back a log's zeros if and only if it is in two pairs, has none, or has one and is in three |
| LatencyHistogram.ZeroedOfSixPairs | scripts/check_improved_plot.py:168-195 | for six logs of any common length the printed numbers are the numbers of positions at which a log is 0 |
| LatencyHistogram.ZeroedOfFourPairs | scripts/ps_combi_2_stress_non.py:114-240 | with four pairs the halved number of a log is its zeros for the two kernel logs, and half of them for any other log, over all runs: right if and only if the log has none |
| HistogramStatistics.WeightedSum | scripts/ps_combi_2_stress_non.py:278-286 | summing f(key) * value over the keys in any order is summing f over the samples |
| HistogramStatistics.Moments | scripts/ps_combi_2_stress_non.py:274-288 | the average is the sum of the samples over their number and the variance the mean of their squares less the square of the mean, or both the division by zero if there are no samples |
| HistogramStatistics.Quantiles | scripts/ps_combi_2_stress_non.py:291-304 | with n samples, b of them below the result and c up to it: for the 99% value b = 0 or 100(b + 1) <= 99n, and 99n < 100(c + 1); for the median b = 0 or 2b + 2 <= n, and n <= 2c + 1, unless 0 has that rank and fewer than 99% of the samples are at most 0: then, and only then, it is the smallest positive sample instead. Without a 0 among the samples it always has its rank |
| HistogramStatistics.CountBelowIsNumber | scripts/ps_combi_2_stress_non.py:298-299 | counting below a value is the number of positions with a smaller sample |
| HistogramStatistics.MedianOfFour | scripts/ps_combi_2_stress_non.py:291-304 | an input on which that happens: for the samples 0, 0, 5, 6 the rank is 2 and the sample of that rank 0, and the scan returns 5 |
| HistogramStatistics.FindRange | scripts/ps_combi_2_stress_non.py:331-336 | the search finds the first range with 1000 lower <= d < 1000 upper, or that there is none |
| HistogramStatistics.Bucketize | scripts/ps_combi_2_stress_non.py:327-338 | each bucket is the number of samples d with 1000 lower <= d < 1000 upper, and exactly the keys outside all ranges stay, with their counts |
| HistogramStatistics.BucketsConserveSamples | scripts/ps_combi_2_stress_non.py:327-338 | with the 34 ranges of the script the bucket totals and the values left in the dictionary add up to the sample count, and the dictionary left stands for exactly the samples in no range |

## Left out

- KernelModules.KernelModule.RxhPacketIn: requires that an accepted packet's UDP length is 8 to 136, that its bytes exist, and that 44 bytes can be read for the uid; the handler tests none of these, and what it then reads or overwrites outside a packet or slot is not modelled.
- KernelModules.UserProcess.Refill: a copy_to_user that copies some bytes and then fails is not modelled; it copies all or nothing here.
- Gic.Distributor.GicInitialize: init_gicc, called between the two parts, is left out; it reads the acknowledge register twice a turn with hardware effects the file does not define.
- Draining.RulesAreExact: a schedule that breaks a rule has a continuation that hands out of order; the schedule itself may end before that shows.
- InterleavedPath.EveryPacketIsInOnePlace: packets are those of the client; foreign ones and uids sent twice are not part of it.
- UmemFrames.XskSocket.HandleReceivePackets: the frames' contents, descriptor lengths, statistics and the flat timestamp log that process_packet writes are not part of it.
- EbpfHandoff.HandoffIsInOrder: uids of 2^32 and more, whose low bits are another uid's key, are assumed away, as are uids that are sent twice.
- TrapFrame.Cpu.TakeException: memory is a map of 64-bit words at separate addresses and the stack does not run out; handlers that edit their own frame to change where they return are excluded.
- HistogramStatistics.Moments: the square root and the rounding of floats, in the bounds 99n/100 and n/2 as well.
- Several handlers at a time in the kernel module, weak memory ordering, and zero-copy mode of AF_XDP.
- The ring code of libbpf is not part of this repository; the rings here are the single-producer single-consumer rings that the calls and xsk_ring_prod__free imply.
- Allocation failures, device registration, proc files, mmap, signals, file export and printing.
- Header parsing before a packet is accepted, and the packet counters of the eBPF program.
- Entries of the chunked logs that were never written: they are not zeroed, so nothing is claimed about them.
- Plots, titles and the loss figures computed from the halved zero counts.
- legacy/ and the duplicate user programs, which are older copies.
