# Verified model of the OCTF tracing core

OCTF collects IO traces: producers push events of varying size into a lock-light ring in shared
memory, a consumer writes them to one file per queue, parsers merge the files again, and
analytics compute histograms and worksets; a node is controlled over a framed socket protocol.
This project models the parts of OCTF with the hardest logic and proves what they are for.

- `Common`, `Bytes`, `Arithmetic`: byte strings, little-endian numbers, division.
- `RingLayout`: the pointer arithmetic of the event ring and its geometry. Every offset also has
  a virtual coordinate, the distance travelled since the ring was opened; regions are ordered on
  that line, and ring offsets follow from it.
- `RingMemory`, `RingTrace`: the ring as a class over a byte array that refines a queue of byte
  strings whose entries are committed in any order.
- `RingProtocol`: the same ring under any number of pushers, writers of reserved buffers and
  consumers, one shared access per step, headers and event bytes living in one memory. A producer
  decides on a read pointer that may be old by the time it stores anything.
- `RingDecisions`: how long a call can take in any interleaving, why an event is lost, and why a
  pop comes back without one.
- `RingHistory`, `RingObserver`, `RingProgress`: which call each event of a run comes from, what a
  thread sees that reads the two pointers without a lock, and what an undisturbed push or pop
  achieves.
- `Workset`: the interval set with overlapping-is-equal order, its exact meaning as a set of
  points, and the lazily refreshed peak.
- `Varint`, `TraceFile`, `RefusedMessages`: varint prefixes, frames, the writer with its sliding
  mapped window, the reader, and what becomes of a file with a lone prefix.
- `TraceMerge`, `MergeFinish`: the merge of the queue files through a `std::set` of next events,
  and which traces it can parse to the end.
- `Distributions`, `OccurrencePercentiles`: exponential buckets and the percentile loop, in exact
  integers and reals, and the percentiles by occurrences beside those the loop computes.
- `PendingCalls`: the client's table of pending calls, as a class and under any interleaving of
  senders, responses, failures and cancellations.
- `StopProtocol`: the stop flags and counters of the IO trace plug-in under any interleaving.
- `Packets`: the packet framing on a connection that delivers bytes in arbitrary pieces.

Classes and their loops are tied to specification functions; the main results are lemmas about
those functions for all inputs and all runs. `requires` clauses name what a caller must respect:
a pool size accepted by `octf_trace_open`, distinct handles, 64-bit offsets that do not overflow.

Where the code differs from its own description, the model follows the code:

- `octf_trace_push` and the write buffer calls return -EINVAL in the wrong mode, not -EPERM.
- `removeRange` keeps a stored range lying strictly inside the removed one
  (`Workset.RemoveIsDifference` says exactly when it is set difference), and an empty removal at
  an interior point loses the points behind it (`Workset.CountIsExact`).
- `parseTraceEvent` loses events of equal key in different queues
  (`TraceMerge.CompleteIffDistinct`); then no more events of that queue are read
  (`MergeFinish.RefusedQueueIsNeverReadAgain`), and unless the lost event was its last the
  caller's loop ends with an exception (`MergeFinish.FinishesIffTiesAreLast`).
- The percentile loop compares sums of the values themselves, while its comment speaks of
  occurrences: what it reports is never lower, and the same exactly under the condition of
  `OccurrencePercentiles.CoincideIff`.
- `sendPacket` does not check the size the receiver insists on, and a header that arrives in two
  pieces is an error (`Packets.PacketsRoundTrip`).
- A response or failure is matched by id alone, which is enough for exactly 2^32 drawn ids
  (`PendingCalls.OwnCallOnlyIffNotLapped`).
- `octf_trace_get_free_space` and `octf_trace_is_empty` read the two pointers one after the other.
  While others are at work the free space may be that of no moment (`RingObserver` says when it
  is, `RingProgress.ObserverIsMisled` shows a run), and a ring may be taken for empty once a whole
  lap is published in between (`RingProgress.LapIsTakenForEmpty`).
- A message that cannot be serialized leaves its length prefix in the file
  (`RefusedMessages.RefusedMessageShows`).
- Event sizes above 0xFFFFFFF0 wrap to an aligned size of zero (`RingTrace.Trace.Push`).

One read has no meaning that could be modelled: the percentile loop reads `PERCENTILES[4]` before
it tests the index. `Distributions.Distribution.Percentiles` proves when that happens, and tests
the index first, as the result of the condition does not depend on what is read.

## Model

| member | source | states |
|---|---|---|
| `RingLayout.Align32` | source/octf/trace/trace.c:356-357 | The 32-bit alignment: the multiple of 16 at or above the size, or 0 once that no longer fits 32 bits. |
| `RingLayout.InitRing` | source/octf/trace/trace.c:91-124 | For every pool of at least 32 KiB, what is left after the headers, cut to the last whole 16-byte cell, is a ring the allocator can use. |
| `RingLayout.ModuloIsRemainder` | source/octf/trace/trace.c:289-296 | Subtracting the ring size until the pointer is in range, which the rest of the model computes with, is the remainder. |
| `RingLayout.ReservePlaces` | source/octf/trace/trace.c:342-392 | From aligned pointers no ENV_BUG branch is reachable; a granted reservation puts header and data inside the ring, in front of the read pointer one lap on, and the new write pointer differs from the read pointer. |
| `RingLayout.ReserveFits` | source/octf/trace/trace.c:326-397 | The same as regions: the reserved header and data fit between the write position and the read position one lap on, aligned. |
| `RingLayout.ReserveIsComplete` | source/octf/trace/trace.c:342-382 | An allocation is granted if and only if some placement of header and contiguous data fits: the allocator refuses nothing it could place. |
| `RingLayout.GrantEndsFirst` | source/octf/trace/trace.c:342-382 | Of all placements that fit, a granted event gets the one that ends first, and no other ends there: a tail of the ring is skipped only if it cannot hold the event. |
| `RingLayout.EmptyRingCapacity` | source/octf/trace/trace.c:342-382 | On an empty ring an event is accepted at every aligned pointer position if and only if twice its aligned size is less than the ring size. |
| `RingLayout.LiveRegionsDisjoint` | source/octf/trace/trace.c:326-397 | Header and data regions of all live events lie in the ring and are pairwise disjoint. |
| `RingLayout.PublishKeepsLayout` | source/octf/trace/trace.c:384-392 | Publishing a reserved slot appends it to the tiling of the used part of the ring. |
| `RingLayout.ReleaseKeepsLayout` | source/octf/trace/trace.c:535-542 | The read pointer computed from the oldest header is exactly where the next event begins, whether or not a tail was skipped. |
| `RingLayout.FootprintsFillWindow` | source/octf/trace/trace.c:275-287 | The reported free space is the ring minus one byte minus headers, skipped tails and aligned data of the live events. |
| `RingMemory.HeadersReachWritePointer` | source/octf/trace/trace.c:535-542 | Walking the headers in memory from the read pointer reaches the write pointer after exactly one step per live event. |
| `RingTrace.HeaderAppends` | source/octf/trace/trace.c:384-388 | The three header stores append one uncommitted entry to the queue and change no other entry. |
| `RingTrace.StoreChangesOneEntry` | source/octf/trace/trace.c:427-432 | A store anywhere inside one event's regions changes that queue entry only. |
| `RingTrace.LastEntryPushed` | source/octf/trace/trace.c:427-432 | Copying the bytes and setting ready turns the uncommitted last entry into the pushed event. |
| `RingTrace.Trace.constructor` | source/octf/trace/trace.c:126-148 | A ring opened by a producer is an empty queue that accepts every event of less than half its size. |
| `RingTrace.Trace.FindRoom` | source/octf/trace/trace.c:339-382 | The code's search for room computes the specified reservation, which is the placement that ends first (`RingLayout.GrantEndsFirst`); its ENV_BUG conditions are asserted away. |
| `RingTrace.Trace.AllocateEvent` | source/octf/trace/trace.c:326-397 | On success one uncommitted entry is appended; on refusal nothing changes; for sizes above 0xFFFFFFF0 the header gets no data region. |
| `RingTrace.Trace.Push` | source/octf/trace/trace.c:399-435 | Accepted: the queue grows by exactly these bytes, committed. Refused: only the lost counter changes, by one. A size above 0xFFFFFFF0 that finds room for a header invalidates the trace. |
| `RingTrace.Trace.GetWrBuffer` | source/octf/trace/trace.c:437-473 | As push, with the entry left uncommitted and its place handed out. |
| `RingTrace.Trace.Fill` | source/octf/trace/trace.c:469-470 | The caller's stores through the buffer change those bytes of that entry and no other entry. |
| `RingTrace.Trace.CommitWrBuffer` | source/octf/trace/trace.c:475-498 | Commits, in any order, set the ready flag of that entry and nothing else; the integrity failure is unreachable. |
| `RingTrace.Trace.GetRdHdr` | source/octf/trace/trace.c:508-533 | Yields the oldest event exactly when there is one and it is committed. |
| `RingTrace.Trace.Pop` | source/octf/trace/trace.c:560-616 | Removes and returns the first entry of the queue; every error, including a buffer that is too small, leaves the ring unchanged. |
| `RingTrace.Trace.GetRdBuffer` | source/octf/trace/trace.c:618-667 | Hands out the first entry's bytes in place and keeps the lock exactly on success. |
| `RingTrace.Trace.ReleaseRdBuffer` | source/octf/trace/trace.c:669-692 | Drops exactly the first entry and frees the lock. |
| `RingTrace.Trace.GetFreeSpace` | source/octf/trace/trace.c:759-767 | Undisturbed, the free space is the ring minus one byte minus the footprints of the events the headers chain, or -EINVAL. |
| `RingTrace.Trace.IsEmpty` | source/octf/trace/trace.c:694-707 | Undisturbed, the answer is yes exactly when the queue is empty, or -EINVAL. |
| `RingTrace.Trace.Close` | source/octf/trace/trace.c:207-223 | A producer marks the ring closed; the queue keeps its events. |
| `RingProtocol.DecisionIsSound` | source/octf/trace/trace.c:339-382 | In any interleaving the decision taken against the read pointer just read is no ENV_BUG, and what it reserves fits. |
| `RingProtocol.ReservableAfterMove` | source/octf/trace/trace.c:339-392 | A reservation decided against a read pointer that has moved on since stays sound. |
| `RingProtocol.PublishStep` | source/octf/trace/trace.c:390-392 | A publish keeps the invariant and never makes the write pointer equal the read pointer. |
| `RingProtocol.CopyStep` | source/octf/trace/trace.c:427-428 | One byte of a copy made outside the lock damages no other event and no reserved header. |
| `RingProtocol.FillStep` | source/octf/trace/trace.c:437-473 | A writer of a reserved buffer may store any byte of it at any time, again and again: only its own event changes, and its buffer holds exactly what it stored last. |
| `RingProtocol.ChecksPass` | source/octf/trace/trace.c:420-493 | The integrity checks after the allocation and before the commit of a reserved buffer never fail, in any interleaving. |
| `RingProtocol.CommitStep` | source/octf/trace/trace.c:430-432 | A commit makes exactly that event visible, with exactly its bytes, while others are still being copied. |
| `RingProtocol.MoveStep` | source/octf/trace/trace.c:609-614 | The release of the oldest event keeps the invariant and extends what was delivered by its bytes. |
| `RingProtocol.ApplyKeepsInv` | source/octf/trace/trace.c:326-692 | Every action of every thread, pushing, writing in place, popping or reading in place, keeps the invariant. |
| `RingProtocol.EveryRunIsSafe` | source/octf/trace/trace.c:326-397 | In every run of any number of producers, in-place writers and consumers: no ENV_BUG and no integrity failure, live regions disjoint and in the ring, pointers aligned, and equal exactly when nothing is live. |
| `RingProtocol.EveryRunIsFifo` | source/octf/trace/trace.c:399-435 | In every run the delivered byte strings are a prefix of the accepted ones in allocation order, whatever the order of commits. |
| `RingHistory.EveryRunKeepsPushedBytes` | source/octf/trace/trace.c:399-435 | In every run each event comes from a call of its own, and an event that comes from a push, delivered or not, holds exactly the bytes that push was called with. |
| `RingProtocol.EveryRunAccountsSpace` | source/octf/trace/trace.c:275-296 | In every reachable state the free space formula counts all footprints and the header walk reaches the write pointer. |
| `RingProtocol.HeldEventIsStable` | source/octf/trace/trace.c:618-692 | While a consumer holds an event in place no action of other threads moves the read position, its header or its bytes. |
| `RingProtocol.EveryPushIsAcceptedOrCounted` | source/octf/trace/trace.c:412-498 | When the producers are idle, accepted plus lost equals the pushes and reservations begun, and every live event is committed. |
| `RingDecisions.EveryCallEnds` | source/octf/trace/trace.c:302-498 | In every interleaving a push or reservation is over after a bounded number of steps of its own thread (the size of the event plus 143 for a whole call), whatever other threads do or leave undone. |
| `RingDecisions.EveryLossHasACause` | source/octf/trace/trace.c:302-419 | In every interleaving an event is counted lost only if its call found the lock taken at each of 129 attempts or no placement of it fitted when the pointers were read; a call that goes on to store its event had found room, and nothing else changes the lost counter. |
| `RingDecisions.DecisionIsExact` | source/octf/trace/trace.c:339-382 | The decision refuses an event exactly when no placement of it fits at that moment. |
| `RingDecisions.PopGoesOnIff` | source/octf/trace/trace.c:508-616 | A pop comes back without an event if and only if the lock is taken, nothing is in the ring, the oldest event is not committed, or it is larger than the caller's buffer; otherwise it takes exactly that event. |
| `RingDecisions.EveryPopEnds` | source/octf/trace/trace.c:508-692 | In every interleaving a pop is over after a bounded number of steps of its own thread. |
| `RingObserver.FreeSpaceSeenBetween` | source/octf/trace/trace.c:759-767 | With other threads at work between the two reads, and the write position read not overtaken, the reported free space is that of a state in between if and only if in that state all that is released between the reads has been, and nothing published. It is never too low. |
| `RingObserver.FreeSpaceSeenIff` | source/octf/trace/trace.c:759-767 | In every case it is that of a state in between if and only if what is in use there leads from the read position read to the write position read, less whole laps. |
| `RingObserver.EmptySeenBetween` | source/octf/trace/trace.c:694-707 | A ring reported not empty was not empty at some moment between the two reads; one reported empty was empty at all of them, unless a lap was published meanwhile. |
| `RingProgress.UndisturbedPush` | source/octf/trace/trace.c:399-435 | From every reachable state with the lock free and room for the event, the steps of one producer alone get its push accepted and committed. |
| `RingProgress.UndisturbedPop` | source/octf/trace/trace.c:560-616 | From every reachable state with the lock free and the oldest event committed, the steps of one consumer alone deliver it. |
| `RingProgress.ObserverIsMisled` | source/octf/trace/trace.c:759-767 | The failing run: a push and a pop between the reads make an empty ring reported that at no moment was empty. |
| `RingProgress.LapIsTakenForEmpty` | source/octf/trace/trace.c:694-707 | The failing run: exactly one lap is published between the reads and the ring, never empty, is reported empty. |
| `Workset.CanonicalIsUnique` | source/octf/analytics/statistics/WorksetCalculator.cpp:58-76 | A set of points has one representation by sorted, non-empty ranges with gaps. |
| `Workset.LengthCountsPoints` | source/octf/analytics/statistics/WorksetCalculator.cpp:141-147 | The summed lengths count the covered points. |
| `Workset.InsertIsUnion` | source/octf/analytics/statistics/WorksetCalculator.cpp:113-178 | Insertion keeps the canonical form and covers the old points plus the inserted interval, however many ranges it absorbs. |
| `Workset.RemoveEffect` | source/octf/analytics/statistics/WorksetCalculator.cpp:180-243 | A covered point survives a removal if and only if it is outside the removed range or its stored range lies strictly inside. |
| `Workset.RemoveIsDifference` | source/octf/analytics/statistics/WorksetCalculator.cpp:180-243 | A removal is set difference if and only if no stored range lies strictly inside the removed one. |
| `Workset.RangeInsideIsKept` | source/octf/analytics/statistics/WorksetCalculator.cpp:204-218 | The failing input: removing [0, 10) leaves [2, 4) in place. |
| `Workset.CountIsExact` | source/octf/analytics/statistics/WorksetCalculator.cpp:220-242 | The returned length is the covered length before minus after, if and only if this is not an empty removal at an interior point of a stored range. |
| `Workset.EmptyRemovalLosesPoints` | source/octf/analytics/statistics/WorksetCalculator.cpp:197-240 | The failing input: removing [5, 5) from [0, 10) returns 0 and loses [5, 10). |
| `Workset.WorksetIsPeak` | source/octf/analytics/statistics/WorksetCalculator.cpp:136-149 | For every sequence of insertions and removals getWorkset is the largest number of points covered in any state of the run. |
| `Workset.WorksetCalculator.InsertRange` | source/octf/analytics/statistics/WorksetCalculator.cpp:113-134 | The method on the set refines the union. |
| `Workset.WorksetCalculator.MergeRanges` | source/octf/analytics/statistics/WorksetCalculator.cpp:151-178 | The absorbing loop replaces exactly the overlapped ranges by their hull. |
| `Workset.WorksetCalculator.GetWorkset` | source/octf/analytics/statistics/WorksetCalculator.cpp:136-149 | Reports the specified workset. |
| `Workset.WorksetCalculator.RemoveRange` | source/octf/analytics/statistics/WorksetCalculator.cpp:180-243 | The erase and insert loop leaves the specified ranges and returns the specified length; for positive lengths that is the number of points removed. |
| `Varint.VarintRoundTrip` | source/octf/utils/ProtoConverter.cpp:30-101 | Every 32-bit value is recovered from its encoding whatever bytes follow, consuming exactly the 1 to 5 bytes written. |
| `Varint.DecodeReads` | source/octf/utils/ProtoConverter.cpp:68-101 | A successful decoding depends on the bytes it consumed only, which are at most five and all in the buffer. |
| `Varint.EncodeIff` | source/octf/utils/ProtoConverter.cpp:30-66 | The encoding of a number is the one shortest byte string whose digits to the base 128, lowest first, make up the number, with the high bit on all bytes but the last. |
| `Varint.DecodeIff` | source/octf/utils/ProtoConverter.cpp:68-101 | Decoding succeeds if and only if one of the first five bytes ends a varint, and gives its value, cut to 32 bits, for any bytes whatsoever. |
| `Varint.OrIsPlus` | source/octf/utils/ProtoConverter.cpp:86-90 | Bits shifted beyond those of a number are added to it by the bitwise OR. |
| `Varint.OrShiftedIsPlus` | source/octf/utils/ProtoConverter.cpp:81-98 | In every iteration of the decoding loop the OR of the shifted bits, cut to 32 bits, is the addition of the specification, and stays below the next shift. |
| `Varint.EncodeVarint32` | source/octf/utils/ProtoConverter.cpp:30-66 | The encoder writes the specified bytes if they fit, else reports 0, and never writes outside the buffer it was given. |
| `Varint.DecodeVarint32` | source/octf/utils/ProtoConverter.cpp:68-101 | The decoding loop, with its shift and OR, computes the specified value and length. |
| `TraceFile.WindowHolds` | source/octf/interface/internal/FileTraceSerializer.cpp:160-187 | The page-aligned window contains the whole request, so the check after mapping never fails. |
| `TraceFile.FileTraceSerializer.Remap` | source/octf/interface/internal/FileTraceSerializer.cpp:160-187 | After a remap the request lies in the window and everything written before is intact. |
| `TraceFile.FileTraceSerializer.GetBuffer` | source/octf/interface/internal/FileTraceSerializer.cpp:125-136 | The returned index, relative to the mapped window, leads to the data offset of the file, and all requested bytes lie inside the window and the file. |
| `TraceFile.FileTraceSerializer.Serialize` | source/octf/interface/internal/FileTraceSerializer.cpp:94-123 | Whatever remaps happen between prefix and payload, the file written grows by exactly one frame; if the message cannot be serialized, by its prefix alone. |
| `TraceFile.FileTraceSerializer.SerializeBlob` | source/octf/interface/internal/FileTraceSerializer.cpp:74-87 | Raw bytes are appended, and the window always has room for them. |
| `TraceFile.FileTraceSerializer.Close` | source/octf/interface/internal/FileTraceSerializer.cpp:50-72 | The file is cut to exactly what was written unless ftruncate fails; success means that every call succeeded. |
| `TraceFile.FrameRoundTrip` | source/octf/trace/parser/TraceFileReader.cpp:84-112 | A frame followed by any bytes is read back and exactly consumed if and only if its payload is shorter than 2^31 bytes. |
| `TraceFile.FramesRoundTrip` | source/octf/trace/parser/TraceFileReader.cpp:84-119 | Reading the concatenated frames returns the same list and then the end of the file, if and only if every payload is shorter than 2^31 bytes. |
| `TraceFile.ReadIffFramed` | source/octf/trace/parser/TraceFileReader.cpp:84-112 | An event is read from a file if and only if a length of at most five bytes, below 2^31, and as many bytes stand in front, and it is those bytes. |
| `TraceFile.TraceFileReader.ReadTraceEvent` | source/octf/trace/parser/TraceFileReader.cpp:84-112 | Reads the specified frame or sets the error; after an error nothing changes any more. |
| `TraceFile.WriteAll` | source/octf/interface/internal/FileTraceSerializer.cpp:94-123 | Any list of messages, over any old file contents and any page size, leaves the concatenation of their frames. |
| `TraceFile.WriteThenRead` | source/octf/trace/parser/TraceFileReader.cpp:84-119 | What the writer wrote the reader returns. |
| `RefusedMessages.RefusedMessageIsRead` | source/octf/interface/internal/FileTraceSerializer.cpp:104-122 | A refused message leaves its length prefix alone: a reader takes that many of the bytes behind it for an event and goes on from there, or fails if there are not so many. |
| `RefusedMessages.RefusedMessageShows` | source/octf/interface/internal/FileTraceSerializer.cpp:104-122 | Whatever was accepted before and after, no reader gets back exactly the accepted messages; a refused empty one reads as an empty event, and any other at the end of the file as an error. |
| `TraceMerge.NextEffect` | source/octf/trace/parser/TraceFileParser.cpp:87-111 | One parse shrinks what is left by at least one event, and by exactly one, taken from its own queue, when the insertion is not refused. |
| `TraceMerge.NothingKeepsOut` | source/octf/trace/parser/TraceFileParser.cpp:101-110 | With distinct keys the insertion is never refused. |
| `TraceMerge.MergeIsComplete` | source/octf/trace/parser/TraceFileParser.cpp:66-125 | With distinct keys every event of every queue is parsed once, in its queue's order, and isFinished turns true exactly after the last. |
| `TraceMerge.MergeIsInOrder` | source/octf/trace/parser/TraceFileParser.cpp:66-111 | When every queue is in order the parsed stream is, whatever keys coincide. |
| `TraceMerge.CompleteIffDistinct` | source/octf/trace/parser/TraceFileParser.cpp:66-125 | For queues in order every event is parsed if and only if no key occurs in two queues. |
| `TraceMerge.EqualKeysLoseAnEvent` | source/octf/trace/parser/TraceFileParser.cpp:66-111 | The failing input: two queues with one event of equal key each; one event is lost and isFinished turns true. |
| `MergeFinish.RefusedQueueIsNeverReadAgain` | source/octf/trace/parser/TraceFileParser.cpp:101-110 | In any state of any run: when the insertion of a parse is refused, no further event of that queue is ever read. |
| `MergeFinish.FinishesIffTiesAreLast` | source/octf/trace/parser/TraceFileParser.cpp:66-125 | For queues in order the caller's loop reaches isFinished if and only if every event that finds its key taken by another queue is the last of its own queue. |
| `MergeFinish.EqualKeysCanStopTheLoop` | source/octf/trace/parser/TraceFileParser.cpp:66-111 | The failing input: an event whose key is taken with another event behind it makes the loop end with an exception. |
| `TraceMerge.TraceFileParser.constructor` | source/octf/trace/parser/TraceFileParser.cpp:66-76 | The loading loop builds the specified merge. |
| `TraceMerge.TraceFileParser.ParseTraceEvent` | source/octf/trace/parser/TraceFileParser.cpp:87-111 | One parse is one step of the merge, refused on an empty set. |
| `TraceMerge.TraceFileParser.IsFinished` | source/octf/trace/parser/TraceFileParser.cpp:113-125 | True exactly when the set and all readers are empty. |
| `TraceMerge.ProcessEvents` | source/octf/trace/parser/TraceEventHandler.h:72-79 | The caller's loop yields the stream of the merge up to the event after which it is cancelled, and fails exactly when the set runs empty before that and before isFinished. |
| `Distributions.CellsTile` | source/octf/analytics/statistics/Distribution.cpp:47-60 | Every value is in exactly one range of exactly one bucket. |
| `Distributions.BucketsGrow` | source/octf/analytics/statistics/Distribution.cpp:47-60 | The first bucket counts single values; each further bucket ends base times as far as the one before, and its ranges are no wider than (base - 1) / ranges of the values in them. |
| `Distributions.RangeOfValue` | source/octf/analytics/statistics/Distribution.cpp:67-71 | The computed range index is that of the range holding the value, so it is below the number of ranges. |
| `Distributions.NewBucketExact` | source/octf/analytics/statistics/Distribution.cpp:238-246 | Buckets created late start out exact: nothing recorded so far belongs to them. |
| `Distributions.AddIsExact` | source/octf/analytics/statistics/Distribution.cpp:62-77 | The bucket of a value takes it without either exception and stays exact. |
| `Distributions.RecordExact` | source/octf/analytics/statistics/Distribution.cpp:132-141 | Recording a value keeps every range of every bucket exact in count and sum. |
| `Distributions.Distribution.FindLevel` | source/octf/analytics/statistics/Distribution.cpp:227-236 | The search loop ends at the level whose bucket holds the value. |
| `Distributions.Distribution.GetBucket` | source/octf/analytics/statistics/Distribution.cpp:227-249 | The bucket of the value exists afterwards, old buckets are unchanged, and no bucket beyond it is created. |
| `Distributions.Distribution.Record` | source/octf/analytics/statistics/Distribution.cpp:132-141 | No exception is raised; totals, extremes and histogram describe the recorded values with this one added. |
| `Distributions.ChainCounts` | source/octf/analytics/statistics/Distribution.cpp:211-224 | Exact counts of ranges that cover an interval without gap or overlap add up to the count of the interval. |
| `Distributions.Distribution.GetHistogram` | source/octf/analytics/statistics/Distribution.cpp:202-225 | What is printed is a list of ranges of buckets, each with the exact count of the recorded values in it, that covers the naturals from 0 to the end of the bucket of the largest value without gap or overlap; the counts sum to m_count. Nothing is printed for no values. |
| `Distributions.HistogramIsUnique` | source/octf/analytics/statistics/Distribution.cpp:211-224 | Only one list has these properties. |
| `Distributions.CollectedAll` | source/octf/analytics/statistics/Distribution.cpp:163-199 | When the loop has seen every range, all four percentiles are set, or none when all values are zero. |
| `Distributions.Distribution.Percentiles` | source/octf/analytics/statistics/Distribution.cpp:157-199 | The nested loop terminates; with a positive total it sets all four percentiles, non-decreasing, each from the range at which the running sum first exceeds that share of the total. The condition reads past the end of the percentile table if and only if the total is positive. |
| `Distributions.PercentileIff` | source/octf/analytics/statistics/Distribution.cpp:157-186 | What is reported as the k-th percentile stands half way in the range in which the last tenth, hundredth, thousandth or ten-thousandth of the sum begins, or is the one value of that range. |
| `Distributions.PercentileIsUnique` | source/octf/analytics/statistics/Distribution.cpp:157-186 | Each percentile is determined by the recorded values. |
| `OccurrencePercentiles.NeverBelowOccurrences` | source/octf/analytics/statistics/Distribution.cpp:169-186 | The reported percentile, by sums of values, is never below the percentile by occurrences that the comment describes. |
| `OccurrencePercentiles.CoincideIff` | source/octf/analytics/statistics/Distribution.cpp:169-186 | The two coincide if and only if no more than the percentile's share of the occurrences lies below the range reported. |
| `OccurrencePercentiles.CoincideInOneRange` | source/octf/analytics/statistics/Distribution.cpp:169-186 | They coincide when all values lie in one range and not all are zero. |
| `OccurrencePercentiles.OneLargeValue` | source/octf/analytics/statistics/Distribution.cpp:169-186 | The failing input: ten values 1 and one value 100 have the 90th percentile 1 by occurrences, and 145 is reported. |
| `Distributions.Distribution.GetStatistics` | source/octf/analytics/statistics/Distribution.cpp:143-200 | Average, smallest, largest and total are those of the recorded values. |
| `PendingCalls.EveryCallSettledAtMostOnce` | source/octf/communication/internal/ConnectionContext.cpp:67-199 | In every interleaving a call handed over by its sender is pending, under one id, or settled, once, and not both, and before that neither; the table never exceeds MAX_PENDING_METHODS + 1. |
| `PendingCalls.SettlementsAreFinal` | source/octf/communication/internal/ConnectionContext.cpp:121-199 | No later step takes back or repeats a settlement. |
| `PendingCalls.SettledIff` | source/octf/communication/internal/ConnectionContext.cpp:67-199 | In every interleaving a caller is told of success if and only if some step was a readable success in response to the id its call was pending under, and of an error if and only if some step was one of these: packet not prepared, table full or id in use, sending failed, error reply, cancelled as the first with its controller, or all cancelled. |
| `PendingCalls.OnlyLateCallsPend` | source/octf/communication/internal/ConnectionContext.cpp:168-181 | After cancelAllClientMethods only calls that were still on their way into the table can be pending. |
| `PendingCalls.NothingStaysPending` | source/octf/communication/internal/ConnectionContext.cpp:67-199 | Once senders are through and cancelAllClientMethods has run, nothing pends and every call sent is settled exactly once. |
| `PendingCalls.SettlesItsOwnCall` | source/octf/communication/internal/ConnectionContext.cpp:98-166 | A response to a call, or the failure of its sending, settles that call if it is pending; it settles another call if and only if that one is pending and drew its id whole laps of the counter earlier or later. |
| `PendingCalls.OwnCallOnlyIffNotLapped` | source/octf/communication/internal/ConnectionContext.cpp:121-166 | Responses and failures settle no call but their own in all runs that draw at most n ids if and only if n is at most 2^32. |
| `PendingCalls.LappedFailureSettlesAnotherCall` | source/octf/communication/internal/ConnectionContext.cpp:104-107 | The failing run draws exactly one id more: a sender whose call was cancelled meanwhile fails another call that got the same id. |
| `PendingCalls.SettleEffect` | source/octf/communication/internal/ConnectionContext.cpp:121-166 | Settling moves one call from the table to the settled ones and touches no other. |
| `PendingCalls.RegisterEffect` | source/octf/communication/internal/ConnectionContext.cpp:78-92 | A call offered to the table is registered or failed, and the table stays within its limit. |
| `PendingCalls.StepKeepsInv` | source/octf/communication/internal/ConnectionContext.cpp:67-199 | Every step keeps the invariant and only appends settlements. |
| `PendingCalls.ConnectionContext.GetNextSid` | source/octf/communication/internal/ConnectionContext.cpp:282-292 | The loop terminates across the 32-bit wrap, whatever increments other senders make in between, and returns an id that is not pending, with the counter one behind it. Undisturbed it is the first such id from the counter on. |
| `PendingCalls.SearchTakesFirstFree` | source/octf/communication/internal/ConnectionContext.cpp:282-292 | Among interleaved senders the search under the lock tries ids from the counter on, takes the first that is not pending, and drops the lock. |
| `PendingCalls.ConnectionContext.SendMethod` | source/octf/communication/internal/ConnectionContext.cpp:67-112 | Either the call waits under a free id, or the table is as before and the call has failed once. |
| `PendingCalls.ConnectionContext.CompleteClientMethod` | source/octf/communication/internal/ConnectionContext.cpp:121-148 | The call of that id, if any, leaves the table and is reported completed if the response is a readable success, else failed. |
| `PendingCalls.ConnectionContext.CancelAllClientMethods` | source/octf/communication/internal/ConnectionContext.cpp:168-181 | The loop fails every pending call once, in id order, and leaves the table empty. |
| `PendingCalls.CancelAllInOrder` | source/octf/communication/internal/ConnectionContext.cpp:168-181 | Cancelling all appends one failure for every pending call, in ascending order of their ids. |
| `PendingCalls.ConnectionContext.CancelClientMethod` | source/octf/communication/internal/ConnectionContext.cpp:183-199 | Fails the first call with that controller only. |
| `StopProtocol.QueueInRange` | source/octf/c/iotrace_plugin.cpp:74-79 | The queue chosen is in range for every id except the number of queues itself. |
| `StopProtocol.CounterIsPresence` | source/octf/c/iotrace_plugin.cpp:81-88 | In every run a counter is zero exactly when no push is counted in at its queue. |
| `StopProtocol.NoPushAfterStop` | source/octf/c/iotrace_plugin.cpp:59-100 | In every interleaving no inner push is in progress while a completed stop is in force, although counters are polled one at a time. |
| `StopProtocol.QuietUntilStart` | source/octf/c/iotrace_plugin.cpp:46-100 | From the end of a stop none starts until the next start, through any further stops. |
| `StopProtocol.RunningAdmits` | source/octf/c/iotrace_plugin.cpp:74-88 | In every run of a running trace every push gets through to its queue, its id or the remainder of a larger id; while a stop is polling or in force it is turned away. |
| `StopProtocol.PushLeavesNothing` | source/octf/c/iotrace_plugin.cpp:81-88 | A push that is over, let through or turned away, leaves counters and flags as they were. |
| `StopProtocol.StartRuns` | source/octf/c/iotrace_plugin.cpp:46-66 | One step for each queue and one more lead from a start to the running trace, and from a stop to the polling. |
| `StopProtocol.PollingEnds` | source/octf/c/iotrace_plugin.cpp:66-69 | Once every push has left, the polling loop ends after one look at each queue. |
| `Packets.HeaderRoundTrip` | source/octf/socket/internal/Packetizer.cpp:38-52 | A header is accepted, with the size it was made for, exactly when that is within the limit. |
| `Packets.DataArrives` | source/octf/socket/internal/Packetizer.cpp:96-124 | Data that comes in any non-empty pieces is put together unchanged. |
| `Packets.PacketsRoundTrip` | source/octf/socket/internal/Packetizer.cpp:54-165 | The receiver gets all packets if and only if every header arrives whole and no packet is over the limit. While sizes fit 32 bits it gets, in order, exactly those in front of the first that fails, however the data is cut. |
| `Packets.ReceivedIffFramed` | source/octf/socket/internal/Packetizer.cpp:72-165 | A packet is received if and only if what a sender makes of some data within the limit stands in front, its header found whole, and then it is that data; any other bytes are an error. |
| `Packets.CutHeaderLosesThePacket` | source/octf/socket/internal/Packetizer.cpp:148-154 | The failing input: a header of which one byte is found first. |
| `Packets.SizeWraps` | source/octf/socket/internal/Packetizer.cpp:55-55 | A packet of 2^32 bytes is received as an empty one, and its bytes are taken for headers. |
| `Packets.Packetizer.CreateHeader` | source/octf/socket/internal/Packetizer.cpp:38-52 | The shifted bytes are the signature and the little-endian size. |
| `Packets.Packetizer.SendPacket` | source/octf/socket/internal/Packetizer.cpp:54-70 | The whole packet goes out or the error is latched. |
| `Packets.Packetizer.ParseDataSize` | source/octf/socket/internal/Packetizer.cpp:148-165 | The size is the little-endian number; a short header latches the error. |
| `Packets.Packetizer.ReceivePacket` | source/octf/socket/internal/Packetizer.cpp:72-127 | The receive loop terminates and yields the packet in front, if and only if the bytes begin with a well-formed one, or latches the error, after which nothing is read until reset. |
| `Packets.Packetizer.Reset` | source/octf/socket/internal/Packetizer.cpp:175-178 | Clears the error, the only way to receive again. |
| `Packets.ReceiveLoop` | source/octf/socket/ConnectionTransceiver.cpp:38-49 | The receiving thread gets exactly the packets in front of the first error. |
| `Packets.SendThenReceive` | source/octf/socket/internal/Packetizer.cpp:54-127 | What one end sends the other receives, under exactly the same condition. |

## Left out

- Memory ordering, real threads, timeouts: steps are interleaved under sequential consistency; the atomics and the compare-and-swap are single steps.
- RingTrace: the operations are atomic there; failed CAS attempts on the locks (-EBUSY after 129 tries counted as lost) appear in RingProtocol only.
- RingProtocol.EveryRunIsSafe: events are at most 0xFFFFFFF0 bytes (RingTrace.Trace.Push says what larger ones do), and the `closed` flag and mode checks are left to the class.
- RingProtocol.HeldEventIsStable: the consumer reads size and data pointer of a header once; the code reads them again for the release, from memory shown not to change.
- octf_trace_close freeing the handle, opening a second handle on the same pool, almost-full notification and the magic and version words beyond one validity flag.
- The `memcpy_s` length checks: lengths are shown to be in range instead.
- Workset: the set is the ordered sequence its iterator walks; `find` and `insert` act as a lower-bound search does, which matters only when equal elements collide. Copy and move constructors are left out, and sums beyond 64 bits.
- Workset.WorksetCalculator.InsertRange: assumes that begin + len does not overflow 64 bits, and RemoveRange likewise.
- TraceFile: failures of mmap and posix_fallocate, which throw, and file permissions; the mapped window shows the bytes of the file directly. Messages are below 2^32 bytes.
- TraceFile.TraceFileReader.ReadTraceEvent: the protobuf parser is a predicate on payloads, and the file size is not bounded by the signed 64-bit `m_size`.
- TraceMerge: the order of the compare function is an integer key, as with the sequence ids the callers compare; readers deliver events, so their exceptions and the summary file are left out.
- Distributions: counts, sums and bucket bounds are unbounded integers, and `std::pow` and the double arithmetic of the percentiles are exact; they are in the code while bounds stay within 2^53. Zero ranges and the labels of the percentile map are left out; bases below 2, which throw, are excluded.
- PendingCalls: a method whose node has expired is settled without running its closure, which the model counts as settled; closures do not call back into the table, which the code's lock forbids; server-side methods are left out.
- PendingCalls.ConnectionContext.GetNextSid: the increments other senders make during one search are finitely many.
- StopProtocol: pushers come with any id except the number of queues, which is out of range; counters are unbounded; one thread at a time starts and stops the trace, and the polling delay and the `tracing_active` hint are left out.
- Packets: a failing or closed connection is the end of the byte stream.
- The command line, configuration, nodes, logging, IO statistics aggregation and table printing: plumbing with only easy properties.
