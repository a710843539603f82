# Market data handler: a verified model

The repository is a market data feed: an exchange simulator numbers and broadcasts trades, quotes
and heartbeats over TCP; a feed handler reassembles the byte stream, updates a seqlock-protected
cache of the latest state per symbol, and keeps a latency histogram; a lock-free pool of receive
buffers is there for concurrent connections. This project models that path in Dafny and proves what the parts promise, each on
its own and composed end to end.

| file | part of the system |
|---|---|
| `Bytes.dfy` | little-endian fields, bits and exclusive or of 32-bit words |
| `Checksum.dfy`, `Protocol.dfy` | the wire format of `include/protocol.h` |
| `Reassembly.dfy`, `StreamParser.dfy` | the stream parser: one pure pass over a byte string, and the buffered object proved equal to it under every chunking |
| `Recovery.dfy` | gap accounting, resynchronisation, surviving damaged messages |
| `Market.dfy`, `Cache.dfy`, `Seqlock.dfy`, `SeqlockRuns.dfy` | one cache entry, the cache of the network thread, the seqlock as a step machine, and its runs without interference |
| `FreeList.dfy`, `PoolMachine.dfy`, `PoolRuns.dfy` | the free list used by one thread, as a step machine, and its runs without interference |
| `Histogram.dfy`, `Latency.dfy`, `TrackerMachine.dfy`, `TrackerRuns.dfy` | the histogram as a value, as an object, as a step machine, and its runs without interference |
| `FeedHandler.dfy` | callbacks, receive loop and reconnections of the client |
| `Simulator.dfy` | numbering, fault injection, broadcasting, pacing |
| `EndToEnd.dfy` | simulator, byte stream, parser, cache and histogram composed |
| `ShortSends.dfy`, `ShortSendRuns.dfy` | what sends that stop in mid-message do to the accounting, with two runs |

How to read the model:

- Prices are opaque 64-bit patterns. Counters have their C++ widths and wrap.
- Clock readings, drawn prices and volumes, poll results and the replies of `send` are parameters,
  so every statement holds for all of them.
- The three step machines interleave atomic steps arbitrarily (sequential consistency). A weak
  compare-and-exchange may fail for no reason. Fields called history (`hist`, `ops`, `log`, `n1`,
  ...) only record what happened; no step depends on them, except that a begun write takes the
  committed state it increments from there, which the memory invariant proves equal to memory.
- `PoolMachine` numbers blocks by their place in `storage_`; -1 is the null pointer.
- The classes are what one thread sees: a compare-and-exchange succeeds at once.
- Time in the pacing argument is an exact real, as is the product of time and rate.

Where code and documents disagree, the model follows the code:

- `docs/DESIGN.md` section 5a says a reader spins while the version is odd and copies again if it
  changed between its two loads, so that no snapshot mixes two updates. `continue` in
  `include/cache.h:98` goes to the loop test, where `v2` may hold an odd version left by an earlier
  pass; if `v1` is that same odd version the loop ends with the mixed copy. `Seqlock.TornRun` is
  such a run, and `Seqlock.GuaranteeIffStrict` shows that the guarantee holds on all runs exactly
  when the test also rejects an odd `v1`.
- `docs/QUESTIONS.md:153-155` says bucket `i` covers [2^(i-1), 2^i) and that a percentile is the
  upper bound of its bucket. Bucket `b` is [2^b, 2^(b+1)) and 2^b is reported, a lower bound;
  `Histogram.ReportBounds` says exactly when the report reaches the value.
- One sample makes every target rank zero, so all four percentiles read 1 (`Histogram.SingleSample`).
- `docs/NETWORK.md` speaks of a reset on buffer overflow. The code keeps what fits, discards the
  rest of the chunk and carries on (`Reassembly.OverflowLosesTail`).
- `docs/DESIGN.md` section 4d means the pool for concurrent use. With at most k acquires in flight
  no block is handed out twice if and only if k is at most 1 or the pool has at most one block
  (`PoolMachine.ExclusiveIff`); releases may run freely.
- A send that stops in the middle of a message leaves a truncated message in the stream. The
  client's deliveries and counters stay right if and only if every such send stopped after one byte,
  or the first that did not was the end of it all: nothing was sent whole after it, and the
  fragments that were do not make up its length, as when a connection is lost in mid-send
  (`ShortSends.AccountingIff`). In particular, messages sent whole or not at all suffice. The
  equivalence leaves aside connections on which the first send to stop after more than one byte
  stopped within five, others stopped later, and a message was sent whole after it: there the
  fragments may happen to add up to that message, and `ShortSendRuns.ShortCutsMayAddUp` is a
  connection on which they do; that the simulator's loop can bring about those very cuts is not
  shown. `ShortSendRuns.CutRunEnds` and `ShortSendRuns.ShortSendBreaks` are a run of the simulator
  that loses a message sent whole.

## Model

| member | source | states |
|---|---|---|
| Checksum.ComputeChecksum | market_data_handler/include/protocol.h:65-71 | the loop over a region of a buffer computes the lane-by-lane sum of exactly those bytes |
| Checksum.SumIsXorOfWords | market_data_handler/include/protocol.h:65-71 | on whole words the byte loop is the exclusive or of the little-endian 32-bit words |
| Checksum.ValidIffWordsCancel | market_data_handler/src/client/parser.cpp:43-46 | a whole message passes the checksum test if and only if all its words, trailer included, cancel |
| Checksum.BurstRejected | market_data_handler/include/protocol.h:65-71 | any change confined to 32 consecutive bits, also across the payload and trailer boundary, is rejected |
| Protocol.EncodeIsFrame | market_data_handler/src/server/tick_generator.cpp:58-107 | every encoded message has a known type, the length of that type, its sequence number in place and a good checksum |
| Protocol.DecodeEncode | market_data_handler/include/protocol.h:12-61 | reading an encoded message through its struct gives every field back |
| Protocol.EncodeDecode | market_data_handler/include/protocol.h:12-61 | conversely every valid frame is the encoding of the message read from it, byte for byte |
| Protocol.Layout | market_data_handler/include/protocol.h:12-61 | the length of each kind of message, its two type bytes, and the offset and width at which every field lies, little-endian, down to the checksum |
| Reassembly.ParseStep | market_data_handler/src/client/parser.cpp:32-74 | one turn of the loop at any offset: skip a byte, reject a message or deliver one, and go on behind it |
| Reassembly.ParseSplit | market_data_handler/src/client/parser.cpp:32-81 | parsing a concatenation is parsing the front, then its residue together with the back |
| Reassembly.ParseResidue | market_data_handler/src/client/parser.cpp:32-81 | what is left is an undecidable suffix of the input of at most 43 bytes |
| Reassembly.FeedAllIsParse | market_data_handler/src/client/parser.cpp:13-81 | from any parser state and for any chunks, overflowing or not, feeding them is one pass over the residue and what was retained of them |
| Reassembly.AllRetained | market_data_handler/src/client/parser.cpp:18-30 | everything is retained if and only if no chunk overflows when it is fed |
| Reassembly.ChunkingInvariance | market_data_handler/src/client/parser.cpp:13-81 | every fragmentation that does not overflow gives the deliveries, counters and residue of one pass over the whole stream |
| Reassembly.SafeFits | market_data_handler/src/client/parser.cpp:18-30 | chunks of at most 131029 bytes, so those of the 65536-byte receive buffer, never overflow, in any number |
| Reassembly.OverflowLosesTail | market_data_handler/src/client/parser.cpp:18-30 | an overflowing feed loses the end of the chunk and nothing else: parsing the lost bytes from the state it leaves completes the parse of everything |
| Reassembly.SafeChunkFits | market_data_handler/src/client/parser.cpp:18-30 | after any feed, no chunk of at most 131029 bytes overflows |
| Reassembly.SafeChunkIsTight | market_data_handler/src/client/parser.cpp:18-30 | one byte more can overflow: behind a quote short of its last byte |
| StreamParser.Parser.constructor | market_data_handler/src/client/parser.cpp:5-11 | an empty buffer and zero counters |
| StreamParser.Parser.Reset | market_data_handler/src/client/parser.cpp:83-89 | back to an empty buffer and zero counters from any state |
| StreamParser.Parser.Append | market_data_handler/src/client/parser.cpp:18-30 | the buffer holds the residue followed by what fits of the data, and never more than its size |
| StreamParser.Parser.Examine | market_data_handler/src/client/parser.cpp:33-50 | header, size, completeness and checksum tests give the verdict of the specification; no subtraction goes below zero |
| StreamParser.Parser.Compact | market_data_handler/src/client/parser.cpp:76-80 | the overlapping move puts exactly the unconsumed bytes at the front |
| StreamParser.Parser.Feed | market_data_handler/src/client/parser.cpp:13-81 | counters, callbacks and residue are those of the pure pass, whose callbacks Recovery.DeliveriesDriveCounters pins to the type bytes; the loop ends and fewer than 44 bytes stay |
| StreamParser.ReceiveAll | market_data_handler/src/client/feed_handler.cpp:118-133 | reset, then any chunks of at most 65536 bytes: one pure parse of the whole stream |
| Recovery.GapBalance | market_data_handler/src/client/parser.cpp:52-59 | for positive numbers, received plus missed is never less than the distance covered, and equal to it if and only if they strictly rise |
| Recovery.GapConservation | market_data_handler/src/client/parser.cpp:52-59 | from a reset parser and for positive numbers, seq_gaps + total_parsed == last_seq - first + 1 if and only if the accepted numbers strictly rise |
| Recovery.DeliveriesDriveCounters | market_data_handler/src/client/parser.cpp:43-71 | for every byte string only valid frames are delivered, to on_trade exactly if the first two bytes are 1 0, to on_quote exactly if 2 0, to on_heartbeat exactly if 3 0, and they alone drive sequence accounting |
| Recovery.DeliveriesByKind | market_data_handler/src/client/parser.cpp:61-71 | of encoded messages, trades go to on_trade, quotes to on_quote, heartbeats to on_heartbeat, with their bytes |
| Recovery.AcceptGaps | market_data_handler/src/client/parser.cpp:52-59 | what one accepted number does to seq_gaps: nothing for a first, repeated, older or the next number, else the numbers missed; at the top of 32 bits the number itself |
| Recovery.StreamGapConservation | market_data_handler/src/client/parser.cpp:52-59 | gap conservation over any number of feed calls on any bytes, overflow included, when the delivered numbers are positive |
| Recovery.RisingGapConservation | market_data_handler/src/client/parser.cpp:52-59 | for any feed calls on any bytes, if the delivered numbers strictly rise then seq_gaps + total_parsed == last_seq - first + 1, with no other hypothesis |
| Recovery.GarbageSkipped | market_data_handler/src/client/parser.cpp:33-40 | garbage without a known type in it is skipped in front of any message; the pair across the boundary never reads as a type |
| Recovery.GarbageAlone | market_data_handler/src/client/parser.cpp:33-40 | such garbage by itself delivers and counts nothing |
| Recovery.ParseSegments | market_data_handler/src/client/parser.cpp:33-74 | a stream of garbage, intact and spoiled messages delivers exactly the intact ones in order and leaves no residue |
| Recovery.Resynchronisation | market_data_handler/src/client/parser.cpp:33-40 | garbage before any of the messages does not cost one of them, under every chunking |
| Recovery.BurstSpoils | market_data_handler/src/client/parser.cpp:43-50 | a burst of up to 32 bits outside the type field makes a message one that is rejected and skipped whole |
| Recovery.ConsecutiveGaps | market_data_handler/src/client/parser.cpp:52-59 | of consecutive numbers, the gaps counted are those missing strictly between the first and last that arrive |
| Recovery.CorruptionRecovery | market_data_handler/src/client/parser.cpp:43-59 | consecutive messages, any of them spoiled, any chunking: intact ones delivered in order, bad_checksums counts the spoiled, seq_gaps those between first and last accepted |
| Recovery.NothingIntact | market_data_handler/src/client/parser.cpp:43-50 | if all are spoiled, only bad checksums are counted |
| Market.StoresMakeUpdate | market_data_handler/include/cache.h:49-90 | the field stores of each update, in program order, add up to its effect and touch no field twice |
| Seqlock.MemoryKept | market_data_handler/include/cache.h:49-117 | between writes memory is the last committed state; during one each field is the old or the new value |
| Seqlock.RunInv | market_data_handler/include/cache.h:92-117 | writer and reader invariants hold in every interleaving |
| Seqlock.EvenExitIsCommitted | market_data_handler/include/cache.h:92-103 | an exit on an even version, with fewer than 2^31 updates between its two loads, returns exactly the state committed at the first load |
| Seqlock.ExitCharacterisation | market_data_handler/include/cache.h:95-101 | the loop leaves on an odd version if and only if the last copying pass ended on that same odd version; on an even one if and only if no increment came in between (modulo 2^32) |
| Seqlock.OddExit | market_data_handler/include/cache.h:95-101 | what an odd exit returns: a copy overtaken by a write, each field from some version in between |
| Seqlock.TornRun | market_data_handler/include/cache.h:95-101 | a reachable run of the loop as written that returns a mixed state |
| Seqlock.GuaranteeIffStrict | market_data_handler/include/cache.h:92-103 | no returned snapshot is a mix on all runs if and only if the test also rejects odd versions |
| SeqlockRuns.EndWriteCommits | market_data_handler/include/cache.h:114-117 | ending a write makes the counter one higher and commits exactly the state that is in memory |
| SeqlockRuns.WritesShow | market_data_handler/include/cache.h:49-117 | after any updates performed whole the version counts them twice, modulo 2^32, and memory and the committed states are their successive results |
| SeqlockRuns.SnapshotAlone | market_data_handler/include/cache.h:92-103 | called between writes and left alone, get_snapshot returns after one pass exactly the state in memory with its version, and changes nothing else |
| SeqlockRuns.SnapshotShowsWrites | market_data_handler/include/cache.h:92-103 | so after any updates performed whole it returns the entry that the cache of one thread would show |
| SeqlockRuns.SnapshotFinishes | market_data_handler/include/cache.h:95-101 | wherever a get_snapshot stands when the writer pauses between writes, it returns within 23 of its own steps |
| Cache.SymbolCache.constructor | market_data_handler/include/cache.h:6-17 | every entry blank with version zero |
| Cache.SymbolCache.UpdateBid | market_data_handler/include/cache.h:49-57 | sets bid price and quantity, time and count of that symbol and moves its version on by two, all else unchanged |
| Cache.SymbolCache.UpdateAsk | market_data_handler/include/cache.h:59-67 | sets ask price and quantity, time and count of that symbol and moves its version on by two, all else unchanged |
| Cache.SymbolCache.UpdateQuote | market_data_handler/include/cache.h:69-80 | sets both prices and quantities, time and count of that symbol and moves its version on by two, all else unchanged |
| Cache.SymbolCache.UpdateTrade | market_data_handler/include/cache.h:82-90 | sets traded price and quantity, time and count of that symbol and moves its version on by two, all else unchanged |
| Cache.SymbolCache.GetSnapshot | market_data_handler/include/cache.h:92-103 | with no write in progress the loop ends and returns the entry |
| Cache.FoldMeans | market_data_handler/include/cache.h:69-90 | after any quotes and trades an entry shows the last quote, last trade, last timestamp, their number, and twice that as version |
| FreeList.MemoryPool.constructor | market_data_handler/include/memory_pool.h:15-20 | every block free, the last on top |
| FreeList.MemoryPool.Push | market_data_handler/include/memory_pool.h:45-51 | the block becomes the front of a finite chain without duplicates |
| FreeList.MemoryPool.Pop | market_data_handler/include/memory_pool.h:53-60 | the front of the chain is taken off; null exactly when the chain is empty |
| FreeList.MemoryPool.Acquire | market_data_handler/include/memory_pool.h:22-25 | the most recently freed block, or null exactly when none is free |
| FreeList.MemoryPool.Release | market_data_handler/include/memory_pool.h:27-32 | null is ignored, any other block returns to the front |
| FreeList.LinkedUnique | market_data_handler/include/memory_pool.h:36-43 | the chain from a head is unique |
| PoolMachine.StepKeeps | market_data_handler/include/memory_pool.h:45-60 | every step of any thread keeps the ownership invariant |
| PoolMachine.PopAlone | market_data_handler/include/memory_pool.h:53-60 | from any state, an acquire left alone takes the head, whatever other threads are stalled at |
| PoolMachine.PopEmptyAlone | market_data_handler/include/memory_pool.h:53-60 | and comes back with nothing when there is no head |
| PoolMachine.PushAlone | market_data_handler/include/memory_pool.h:45-51 | a release left alone puts its block in front of the chain |
| PoolRuns.PopFinishes | market_data_handler/include/memory_pool.h:53-60 | wherever a thread stands inside acquire, left alone it returns within five steps |
| PoolRuns.PushFinishes | market_data_handler/include/memory_pool.h:45-51 | wherever a thread stands inside release, left alone it puts its block on top within two steps |
| PoolMachine.Ownership | market_data_handler/include/memory_pool.h:15-60 | in every interleaving with at most one acquire in flight, free, held and in-transit blocks partition the pool and the free chain is finite without duplicates |
| PoolMachine.NoDoubleHandout | market_data_handler/include/memory_pool.h:22-32 | no block is held twice, and no held block is free |
| PoolMachine.FailsOnlyWhenExhausted | market_data_handler/include/memory_pool.h:53-60 | acquire fails only if every block is held or on its way back; with no release in flight, only if all are held |
| PoolMachine.AbaRun | market_data_handler/include/memory_pool.h:53-60 | on any pool of two blocks or more, two acquirers and a release: the untagged exchange hands out a held block again |
| PoolMachine.TinyPool | market_data_handler/include/memory_pool.h:45-60 | a pool of at most one block is free, held once or in transit once, with any number of acquires in flight |
| PoolMachine.ExclusiveIff | market_data_handler/include/memory_pool.h:22-60 | for all k and pool sizes: with at most k acquires in flight no block is ever handed to two callers if and only if k <= 1 or the pool has at most one block |
| Histogram.BucketRange | market_data_handler/include/latency_tracker.h:100-104 | bucket b holds a positive value if and only if it lies in [2^b, 2^(b+1)) |
| Histogram.RepresentativeInBucket | market_data_handler/include/latency_tracker.h:100-107 | bucket_for(bucket_upper_ns(i)) == i for all 64 buckets |
| Histogram.ReportBounds | market_data_handler/include/latency_tracker.h:100-107 | reported <= q < 2 * reported for 1 <= q < 2^63, and the report is an upper bound if and only if q is 0, a power of two or at least 2^63 |
| Histogram.BucketsCount | market_data_handler/include/latency_tracker.h:29-45 | the buckets of a recorded history count its samples, for every prefix of buckets |
| Histogram.SumIsTotal | market_data_handler/include/latency_tracker.h:43 | the sum field is the sum of the samples modulo 2^64 |
| Histogram.PercentileIsRank | market_data_handler/include/latency_tracker.h:55-69 | the value selected for a rank is that of the bucket of the exact sample of that rank in sorted order |
| Histogram.PercentilesCorrect | market_data_handler/include/latency_tracker.h:47-71 | from two samples on all four intended percentiles are those of the exact ranks in any sorted arrangement, and in order; the 64-bit report agrees by Latency.RecordedWithin64Bits |
| Histogram.PercentilesOfAnyHistory | market_data_handler/include/latency_tracker.h:47-71 | every history of two samples or more has a sorted arrangement whose exact samples the four intended reports bound within a factor of two |
| Histogram.SingleSample | market_data_handler/include/latency_tracker.h:55-69 | with one sample every percentile reads 1, which is right if and only if the sample is at most 1 |
| Histogram.ReplayAdds | market_data_handler/src/common/latency_tracker.cpp:64-72 | replaying representatives adds histograms bucket by bucket, in 64-bit arithmetic |
| Histogram.MergeHomomorphism | market_data_handler/src/common/latency_tracker.cpp:64-72 | merging two recorded histories gives buckets, count and percentiles of one tracker that recorded both |
| Histogram.MergeExtremes | market_data_handler/src/common/latency_tracker.cpp:64-72 | for latencies in [1, 2^63) merging moves minimum and maximum down by less than a factor of two, and never up |
| Latency.LatencyTracker.constructor | market_data_handler/include/latency_tracker.h:21-27 | the empty tracker |
| Latency.LatencyTracker.Record | market_data_handler/include/latency_tracker.h:29-45 | the tracker with one more sample in its bucket, minimum, maximum, sum and count |
| Latency.LatencyTracker.Reset | market_data_handler/include/latency_tracker.h:73-79 | the empty tracker, from any state |
| Latency.LatencyTracker.GetStats | market_data_handler/include/latency_tracker.h:47-71 | for any contents: all zero when empty, else count, extremes, mean, and for each rank the first bucket that reaches it in 64-bit arithmetic, zero if the early break came first |
| Latency.StatsWithin64Bits | market_data_handler/include/latency_tracker.h:55-69 | as long as rank products and running count fit 64 bits that is the intended report: the early break loses nothing |
| Latency.RecordedWithin64Bits | market_data_handler/include/latency_tracker.h:29-71 | they do for every recorded history of n samples with n * 999 below 2^64 |
| Latency.ReportedPercentiles | market_data_handler/include/latency_tracker.h:47-71 | so after every such history of two samples or more get_stats reports, in order, four values that bound the exact samples of ranks n/2, 95n/100, 99n/100 and 999n/1000 within a factor of two |
| Latency.ReportedSummary | market_data_handler/include/latency_tracker.h:47-54 | the count, the least and greatest sample, and the sum modulo 2^64 divided by the count |
| Latency.Merge | market_data_handler/src/common/latency_tracker.cpp:64-72 | the nested loop is the replay of src into dst, also when both are the same tracker |
| TrackerMachine.RunInv | market_data_handler/include/latency_tracker.h:29-71 | every sample is in its bucket, then in flight, then summed and counted; min and max bound those past their exchange, in every interleaving |
| TrackerMachine.BucketsCoverCount | market_data_handler/include/latency_tracker.h:29-45 | in every interleaving the bucket total is at least the count |
| TrackerMachine.StatsComplete | market_data_handler/include/latency_tracker.h:47-71 | in every interleaving a get_stats that saw samples sets all four percentiles, in order; its extremes enclose every sample counted when it began and were recorded by someone, or are the initial ones; its sum is that of the samples summed at some moment after the count load; each percentile's bucket reaches its rank in the samples logged by the end, and no lower bucket did in those logged at the count load |
| TrackerMachine.CountedWithinExtremes | market_data_handler/include/latency_tracker.h:33-44 | in every interleaving every counted sample lies in [min, max] |
| TrackerMachine.RecordAllPermuted | market_data_handler/include/latency_tracker.h:29-45 | the order of recording leaves no trace |
| TrackerMachine.QuiescentIsSequential | market_data_handler/include/latency_tracker.h:29-45 | with no thread inside record, all fields are those of recording the same samples one by one in any order |
| TrackerRuns.RecordAlone | market_data_handler/include/latency_tracker.h:29-45 | a thread left alone inside record finishes and the tracker has that one sample more |
| TrackerRuns.RecordFinishes | market_data_handler/include/latency_tracker.h:29-45 | wherever a thread stands inside record, its exchanges failed or not, left alone it finishes within nine steps |
| TrackerRuns.QuietReport | market_data_handler/include/latency_tracker.h:47-71 | with no thread inside record from call to return, whatever other readers do, get_stats returns the sequential report of the tracker |
| TrackerRuns.StatsAlone | market_data_handler/include/latency_tracker.h:47-71 | left alone, get_stats returns that report within 69 steps |
| TrackerRuns.StatsAlwaysEnds | market_data_handler/include/latency_tracker.h:47-71 | whatever other threads do, recording included, get_stats ends within 69 of its own steps |
| TrackerRuns.QuiescentReport | market_data_handler/include/latency_tracker.h:47-71 | which is the sequential report of the samples recorded so far, in any order |
| FeedHandler.ReflectsOneMore | market_data_handler/src/client/feed_handler.cpp:66-94 | one callback keeps cache, histogram and message count a fold of the messages so far |
| FeedHandler.Handler.constructor | market_data_handler/src/client/feed_handler.cpp:59-60 | a fresh client reflects no message |
| FeedHandler.Handler.OnTrade | market_data_handler/src/client/feed_handler.cpp:66-77 | records receive time minus time stamp, and commits price, quantity and time read from the trade's frame to its symbol |
| FeedHandler.Handler.OnQuote | market_data_handler/src/client/feed_handler.cpp:79-90 | the same with both sides of the quote |
| FeedHandler.Handler.OnHeartbeat | market_data_handler/src/client/feed_handler.cpp:92-94 | only the message count moves |
| FeedHandler.SampleOf | market_data_handler/src/client/feed_handler.cpp:68-71 | each trade or quote adds one sample, in order: the clock reading minus its time stamp, modulo 2^64 |
| FeedHandler.EntryShowsMessages | market_data_handler/src/client/feed_handler.cpp:66-94 | after any messages an entry shows bid, bid quantity, ask and ask quantity of the last quote for its symbol, price and quantity of the last trade, the time of the last of either, how many there were, and twice that as version |
| FeedHandler.Handler.Run | market_data_handler/src/client/feed_handler.cpp:118-133 | one connection: statistics of one pure parse, and cache and histogram extended by exactly the messages of that parse |
| FeedHandler.Handler.Serve | market_data_handler/src/client/feed_handler.cpp:102-138 | successive connections: parser anew on each, cache and histogram reflect all messages of all of them in order |
| FeedHandler.HandlerSeesKept | market_data_handler/src/client/feed_handler.cpp:126-133 | whatever the garbage and damage, the messages acted on are exactly the intact ones |
| FeedHandler.ClientRefinement | market_data_handler/src/client/feed_handler.cpp:66-133 | any chunking of any such stream: each symbol's entry shows the last intact quote and trade for it in this way |
| Simulator.DoneIffAllTaken | market_data_handler/src/server/exchange_simulator.cpp:201-215 | the send loop ends complete if and only if the socket took every byte |
| Simulator.SendMeans | market_data_handler/src/server/exchange_simulator.cpp:201-215 | what the replies of send come to: the bytes accepted before the first that takes nothing, up to the whole message; short of it the client is slow if that reply is would-block, lost if it is an error or zero |
| Simulator.TickKeeps | market_data_handler/src/server/exchange_simulator.cpp:171-192 | a tick keeps every connection's history coherent: consecutive numbers, only multiples of 100 skipped, symbol chosen before the skip, trades exactly at numbers 0 to 2 modulo 10 |
| Simulator.BeatKeeps | market_data_handler/src/server/exchange_simulator.cpp:132-136 | so does a heartbeat, which takes the next number |
| Simulator.TickDoes | market_data_handler/src/server/exchange_simulator.cpp:171-192 | with a client there a tick uses up one number, or two exactly when a fault falls on a multiple of 100; every client's history grows by the skip and by the one message, made from the draw for the symbol whose turn it was, a trade exactly if its number ends in 0, 1 or 2; lost clients go, slow ones are noted |
| Simulator.BeatDoes | market_data_handler/src/server/exchange_simulator.cpp:132-136 | with a client there a heartbeat uses up one number and is offered to every client |
| Simulator.PolledShows | market_data_handler/src/server/exchange_simulator.cpp:103-115 | the last event about a descriptor decides whether its client is connected, then with an empty history from the present number on |
| Simulator.PassDoes | market_data_handler/src/server/exchange_simulator.cpp:117-137 | one pass by its numbers: a tick is attempted exactly if fewer were than the floor of elapsed time times rate, the window closes exactly after a second, and the sequence numbers used follow |
| Simulator.RunKeeps | market_data_handler/src/server/exchange_simulator.cpp:93-139 | in every run of polls, ticks and heartbeats each connection's history is coherent and those of connected clients reach the present number |
| Simulator.FaultPattern | market_data_handler/src/server/exchange_simulator.cpp:177-180 | without fault injection no number is ever skipped; with it no tick ever bears a multiple of 100 |
| Simulator.PacingBound | market_data_handler/src/server/exchange_simulator.cpp:97-137 | with rates up to a bound and a monotone clock, tick attempts never exceed bound times elapsed time across all window resets, and heartbeats never exceed one per elapsed second |
| Simulator.PacingReached | market_data_handler/src/server/exchange_simulator.cpp:97-137 | at a constant rate, with the loop coming round at least once per tick interval, tick attempts stay above (rate - 1) times elapsed time, less one |
| Simulator.NumbersUsed | market_data_handler/src/server/exchange_simulator.cpp:118-136 | sequence numbers used are at most two per attempt and one per heartbeat |
| Simulator.NoWrap | market_data_handler/src/server/exchange_simulator.cpp:118-136 | numbers do not wrap while (2 * bound + 1) times elapsed time is below 2^32 |
| Simulator.ExchangeSimulator.constructor | market_data_handler/src/server/exchange_simulator.cpp:31-40 | numbering starts at 1 with no client |
| Simulator.ExchangeSimulator.HandleNewConnection | market_data_handler/src/server/exchange_simulator.cpp:141-161 | the client joins at the present number with nothing sent |
| Simulator.ExchangeSimulator.HandleDisconnect | market_data_handler/src/server/exchange_simulator.cpp:163-169 | the client leaves both sets |
| Simulator.ExchangeSimulator.SendTo | market_data_handler/src/server/exchange_simulator.cpp:197-215 | the socket gets the prefix it took; blocked clients become slow, failed ones are reported |
| Simulator.ExchangeSimulator.Broadcast | market_data_handler/src/server/exchange_simulator.cpp:194-217 | every client is offered the message in whatever order; exactly the failed ones are dropped, from the slow set too |
| Simulator.ExchangeSimulator.GenerateAndBroadcast | market_data_handler/src/server/exchange_simulator.cpp:171-192 | the tick step of the specification; the number used, the message made from the draw, and every client's socket with the bytes of it that it took |
| Simulator.ExchangeSimulator.SendHeartbeat | market_data_handler/src/server/exchange_simulator.cpp:132-136 | the heartbeat step of the specification, with number, message and bytes likewise |
| Simulator.ExchangeSimulator.Poll | market_data_handler/src/server/exchange_simulator.cpp:101-116 | connections and hang-ups in the order reported |
| Simulator.ExchangeSimulator.Run | market_data_handler/src/server/exchange_simulator.cpp:93-139 | the loop is the specified sequence of passes: its state, tick attempts and heartbeats |
| EndToEnd.MissingAreLosses | market_data_handler/src/server/exchange_simulator.cpp:171-217 | what does not arrive whole was skipped or not sent whole |
| EndToEnd.ParseHarmless | market_data_handler/src/client/parser.cpp:32-81 | a stream with single stray bytes anywhere, or ending in a message cut for good, delivers exactly the messages sent whole and accepts exactly their numbers |
| ShortSends.BufferEmptyIff | market_data_handler/src/client/parser.cpp:76-80 | with single stray bytes only, the buffer is empty at the end if and only if a message sent whole followed each |
| EndToEnd.ConnectionAccounting | market_data_handler/src/server/exchange_simulator.cpp:171-217 | on a coherent connection without wrap whose sends that stopped in mid-message stopped after one byte, or for good, in any chunks that fit: total_parsed is the number sent, bad_checksums 0, seq_gaps the skips plus messages not sent whole between first and last received |
| EndToEnd.SystemAccounting | market_data_handler/src/server/exchange_simulator.cpp:93-217 | the same for every run of the simulator clear of wrap and each of its connections, those lost in mid-send included |
| EndToEnd.TimedAccounting | market_data_handler/src/server/exchange_simulator.cpp:97-137 | the same with the pacing bound in place of the hypothesis on wrap |
| EndToEnd.FaultFreeHasNoGaps | market_data_handler/src/server/exchange_simulator.cpp:171-217 | with faults off, a client whose socket takes every message whole receives every number and counts no gap |
| EndToEnd.Subscribe | market_data_handler/src/client/feed_handler.cpp:59-138 | a client on such a connection ends with that accounting and a cache that shows the latest of what was sent |
| EndToEnd.WholeSystem | market_data_handler/src/client/feed_handler.cpp:96-138 | a simulator lives through any passes, a client receives what one of its sockets took in pieces of any size, and ends in that state |
| ShortSends.FirstFrame | market_data_handler/src/client/parser.cpp:33-74 | bytes with a known type that deliver some messages without a bad checksum begin with the encoding of the first of them |
| ShortSends.NothingOfIt | market_data_handler/src/client/parser.cpp:33-41 | those that deliver none are fewer than their type asks for |
| ShortSends.LongCut | market_data_handler/src/server/exchange_simulator.cpp:201-209 | after a message cut behind its sequence number, deliveries and counters stay right only if nothing whole follows and everything that does stays short of its length |
| ShortSends.ShortCut | market_data_handler/src/server/exchange_simulator.cpp:201-209 | a cut of two to five bytes always spoils the whole messages that follow; this needs the checksum and that trades have numbers ending in 0, 1 or 2 |
| ShortSends.AccountingIff | market_data_handler/src/server/exchange_simulator.cpp:171-217 | deliveries and counters are right if, and apart from a first cut of two to five bytes followed by further cuts and a whole message only if, every send that stopped in mid-message stopped after one byte or the first that did not was the end of it all |
| ShortSends.SystemAccountingIff | market_data_handler/src/server/exchange_simulator.cpp:93-217 | the same for every run of the simulator clear of wrap and each of its connections |
| ShortSendRuns.ShortCutsMayAddUp | market_data_handler/src/server/exchange_simulator.cpp:201-209 | the case left aside cannot be included: a coherent connection with fewer than 500 symbols on which a cut of two bytes and forty-one of one add up to the message that follows |
| ShortSendRuns.ShortSendBreaks | market_data_handler/src/server/exchange_simulator.cpp:201-209 | after a send cut behind the header, a message sent whole is lost and a bad checksum appears |
| ShortSendRuns.CutRunEnds | market_data_handler/src/server/exchange_simulator.cpp:93-139 | a run of the simulator that ends with that connection |

## Left out

- Weak memory ordering: acquire, release and fence placement are not modelled; steps are sequentially consistent.
- ShortSends.AccountingIff: one direction only for a first cut of two to five bytes followed by further cuts and a whole message, where the outcome depends on the bytes.
- Sockets, epoll, accept, retries, subscriptions and signals appear only as events and replies; `receive` is taken to return what arrived.
- Price walk, Box-Muller sampling and lognormal volumes: prices and volumes are arbitrary parameters.
- Floating-point rounding in the tick budget; `ticks_this_second` is unbounded.
- Cache.SymbolCache.GetSnapshot: describes the call with no write in progress; every other case is in `Seqlock`.
- Histogram.MergeHomomorphism: nothing about the sum, which the replay takes from representatives; `Histogram.MergeExtremes` has minimum and maximum.
- FreeList.MemoryPool.Release: the caller must hold the block, as the source expects; alignment and the data offset are not modelled.
- TrackerMachine.StatsComplete: no `reset` runs alongside.
- Several symbols at once in the seqlock: entries share nothing, so one entry is modelled.
- Null callbacks, log lines, CSV export, histogram printing, the visualizer and `ClientManager`.
- Argument parsing, symbol names, benchmarks and scripts.
