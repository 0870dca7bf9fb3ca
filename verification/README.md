# Verified model of LockFreeRingBuf

The repository is a logging back end. Producer threads stage 16-byte log entries in
lock-free single-producer/single-consumer rings; one drainer thread copies what it
finds in the rings into large byte buffers; one sink thread writes full buffers to a
file and recycles them through a bounded cache. Beside it stands an older design, an
active object over a mutex-and-condition queue. This project models that code in
Dafny and proves what it keeps over every run.

`dafny verify dfyconfig.toml` checks everything.

## How it is organised

- `Words.dfy`: 32-bit counters, masking, the power-of-two assertion, signed results.
- `RingSpec.dfy`, `RingQueue.dfy`: the ring as an object. Array, wrapped counters and
  mask as in the code; every method is tied to the queue contents, both bulk workers
  to iterated single pushes.
- `RingProtocol.dfy`: the two threads of a ring as interleaved steps (one sample of the
  other index, one slot, one fence, one publication per step), with samples that may
  be old. It refines an atomic bounded queue. `RingProgress.dfy`: it is
  wait-free and refuses nothing that fits.
- `StoreBuffers.dfy`: the same threads over memory where stores land late and out of
  order and only the fences order them. It refines `RingProtocol.dfy`.
- `LogRecords.dfy`, `SinkBuffer.dfy`, `LogBackend.dfy`: entries, their bytes, the byte
  buffer, and the turns of each background loop on heap objects: a pass of the drainer
  over all rings, a write of the sink.
- `Pipeline.dfy`: producers, drainer and sink interleaved step by step, for any number
  of producers, quota, ring, batch, buffer and cache size. `PipelineRings.dfy` puts the
  ring of `RingProtocol.dfy` in the place of its queues, `PipelineBytes.dfy` the bytes in
  the place of its records, and `PipelineRuns.dfy` says how its runs end.
- `SharedQueue.dfy`, `ActiveObject.dfy`: the monitor queue and the active object, as
  objects and as protocols.

In the protocols a run is a sequence of labels and `Exec` the state it leads to; the
main results hold for every such sequence. Unbounded positions and histories are kept
beside the wrapped words of the code; no step of a protocol branches on them, except
that a sample names the position whose wrapped value it returns.

## What the proofs found

- **Refusals are not sequentially consistent.** With store fences alone a producer can
  be told "full" and a consumer "empty" at the same time around a ring that is neither:
  each has its own index store still pending when it reads the other's
  (`StoreBuffers.RefusalsNotSequential`; impossible with exact samples,
  `Interleaved.BothRefused`). A "full" answer is true exactly when every release of
  the consumer has landed, an "empty" one exactly when every publication has
  (`StoreBuffers.RefusalsMean`). Data is never affected, and no store is stuck
  (`StoreBuffers.AllLand`).
- **Each side's fence is needed** where only fences order stores. Without the producer's
  a slot is read before its element has landed (`StoreBuffers.FencesAreNeeded`). Without
  the consumer's an old `out` can land last, and the free space goes below zero and
  wraps to 2^32 - 1 (`StoreBuffers.ConsumerFenceIsNeeded`). The memory of these runs is
  weaker than the hardware the code runs on, which keeps one thread's stores in order.
- **The tail of the log is lost.** The drainer exits without queueing its last buffer
  and the sink exits without emptying its queue. For every configuration some finished
  run has an incomplete file, unless there is nothing to log at all
  (`PipelineRuns.TailLost`; with one entry, `PipelineRuns.OneEntryLost`). A log smaller
  than one buffer and of at most 2000 entries never reaches the file in any run; any
  larger one does in some (`PipelineRuns.WritesIff`). In a given finished run the file is
  complete if and only if the last non-empty pass was the forced flush and the queue had
  been emptied (`Pipeline.FileComplete`).
- **A buffer size of 16 or less makes the copy loop endless** in every run that enters it
  (`PipelineRuns.CopyLoopEndless`), and any larger size makes it end within two steps per
  entry (`PipelineRuns.CopyLoopEndsIff`).
- **`read_available` is wrong for one state**: a full ring of 2^31 slots reports -2^31
  (`RingQueue.Ring.ReadAvailable`, reached in `RingQueue.FullHalfRing`).
- The comments of `RingQueue.h` say `finish()` and `reserve()` where the code has
  `finish_1` and `reserve_1`; the model follows the code.

## Model

| member | source | states |
|---|---|---|
| Words.CheckPowerOf2Exact | include/RingQueue.h:25 | the static assertion on the capacity accepts exactly the powers of two |
| Words.MaskedIndex | include/RingQueue.h:319 | masking a wrapped counter gives the unwrapped position modulo the capacity, across counter overflow |
| Words.FreeSpace | include/RingQueue.h:316 | `capacity - in + out` on 32-bit words is the true free space for every pair of positions at most one lap apart |
| Words.Occupancy | include/RingQueue.h:398 | `in - out` on 32-bit words is the true occupancy |
| RingSpec.SplitVisitsPositions | include/RingQueue.h:520-525 | the two-segment address computation visits the slots of consecutive positions, once each |
| RingSpec.PushAllAt | include/RingQueue.h:514-533 | after pushing xs one by one each slot holds the last element pushed to it, every other slot what it held |
| RingSpec.PushAppends | include/RingQueue.h:514-533 | pushing into free space appends to the contents and leaves every live slot alone |
| RingSpec.PushAllSplit | include/RingQueue.h:514-533 | one bulk push of xs + ys is a push of xs followed by one of ys |
| RingQueue.Ring.constructor | include/RingQueue.h:263-274 | a new ring of any accepted capacity is empty and consistent |
| RingQueue.Ring.Words32 | include/RingQueue.h:316-319 | in every consistent state the four words the code computes are the true free space, occupancy and slots |
| RingQueue.Ring.ReadAvailable | include/RingQueue.h:276-280 | the signed result is the occupancy if and only if that is not 2^31 |
| RingQueue.FullHalfRing | include/RingQueue.h:276-280 | the state that `read_available` misreports is reached: capacity 2^31, one bulk push, answer -2^31 |
| RingQueue.Ring.TryPush | include/RingQueue.h:294-327 | succeeds if and only if not full, then appends and writes only the slot of the head |
| RingQueue.Ring.Pop | include/RingQueue.h:395-410 | returns and removes the oldest element, or nothing from an empty ring |
| RingQueue.Ring.TryReserve | include/RingQueue.h:412-425 | null if and only if full; otherwise a slot that holds no readable element |
| RingQueue.Ring.AwaitSpace | include/RingQueue.h:430-433 | the spin of the waiting calls, against any schedule of consumer releases: it ends at the first release that is not zero, with room and with the contents that release leaves |
| RingQueue.Ring.WaitPush | include/RingQueue.h:362-377 | as soon as there is room, appends the element to what the consumer has left |
| RingQueue.Ring.Reserve | include/RingQueue.h:427-441 | a slot that holds no readable element, once there is room |
| RingQueue.Ring.Finish | include/RingQueue.h:443-450 | what the reserved slot holds becomes the newest element |
| RingQueue.Ring.Publish | include/RingQueue.h:527-530 | advancing `in` by n makes the next n slots readable, across overflow |
| RingQueue.Ring.Peek | include/RingQueue.h:452-458 | the smaller of max and the occupancy, as an int, and the slot of the oldest element |
| RingQueue.Ring.Consume | include/RingQueue.h:460-466 | removes exactly the n oldest elements |
| RingQueue.Ring.PushBlock | include/RingQueue.h:514-533 | block-copy bulk push: takes min(n, free) elements, n read as unsigned, and leaves the array that single pushes would leave |
| RingQueue.Ring.PushEach | include/RingQueue.h:588-610 | element-loop bulk push, same contract |
| RingQueue.Ring.PopBlock | include/RingQueue.h:556-581 | block-copy bulk pop: the min(n, occupancy) oldest elements, in order, and nothing else of the target overwritten |
| RingQueue.Ring.PopEach | include/RingQueue.h:636-663 | element-loop bulk pop, same contract |
| RingQueue.CopyIn | include/RingQueue.h:524-525 | a block copy writes its range and nothing else |
| RingQueue.MoveIn | include/RingQueue.h:598-602 | the element loop has the effect of the block copy |
| RingQueue.PushWorkersAgree | include/RingQueue.h:492-664 | from equal rings both push workers give equal answers, slots, counters and contents |
| RingQueue.PopWorkersAgree | include/RingQueue.h:556-663 | from equal rings and targets both pop workers give equal answers, data, counters and contents |
| RingQueue.TwoSegments | include/RingQueue.h:520-525 | writing in two segments split at the physical end is pushing one by one |
| RingQueue.GatherSegments | include/RingQueue.h:564-569 | reading in two segments collects the oldest elements in order |
| Interleaved.InvRun | include/RingQueue.h:294-466 | in every run the counters, samples, claimed regions and slots agree with the histories of what was pushed and popped |
| Interleaved.RefinesFifo | include/RingQueue.h:294-466 | every step is a step of an atomic bounded queue: the publication of `in` enqueues the batch, that of `out` dequeues what was read, nothing else changes the queue |
| Interleaved.SampleOutMeans | include/RingQueue.h:316-317 | a sample never overstates free space; "full" is true at the sample if and only if the sample was not old |
| Interleaved.SampleInMeans | include/RingQueue.h:398-399 | the same for "empty" and the readable count |
| Interleaved.SamplesConservative | include/RingQueue.h:413-466 | in every run what the producer may still write and the consumer may still read fit in the ring and share no slot |
| RingProgress.PushIsWaitFree | include/RingQueue.h:32-34 | wait-freedom: over any continuation of any run, whatever the consumer does, a push takes at most free + 3 own steps from its sample, exactly batch + 3 if it publishes, and the last one publishes exactly its batch |
| RingProgress.PopIsWaitFree | include/RingQueue.h:32-34 | the same for a pop |
| RingProgress.PushGoesOn | include/RingQueue.h:32-34 | until a push is over, a step of the producer is enabled in every state of the consumer |
| RingProgress.PopGoesOn | include/RingQueue.h:32-34 | the same for a pop |
| RingProgress.PushPossible | include/RingQueue.h:514-533 | nothing is refused that fits: from any state of any run an idle producer can push any batch that fits the free part, alone, in batch + 4 steps |
| RingProgress.PopPossible | include/RingQueue.h:556-581 | from any state of any run an idle consumer can pop any number of the elements there, the oldest ones, alone |
| Interleaved.BothRefused | include/RingQueue.h:316-317 | with exact samples both sides are refused together only around an empty or a full queue |
| StoreBuffers.InvRun | include/RingQueue.h:319-324 | in every run over store buffers the pending stores, the memory and the histories agree |
| StoreBuffers.InvRead | include/RingQueue.h:398-407 | the consumer reads only slots whose store has landed, and gets the next element pushed |
| StoreBuffers.InvLandSlot | include/RingQueue.h:319-324 | a slot store lands on no slot that holds another position not yet released |
| StoreBuffers.InvLandIn | include/RingQueue.h:444-450 | an index store lands only after every slot store it covers |
| StoreBuffers.FifoOverStoreBuffers | include/RingQueue.h:294-466 | over every run what was popped is a prefix of what was pushed and the queue fits the ring |
| StoreBuffers.RefinesInterleaved | include/RingQueue.h:319-324 | a step over store buffers is the same step without them, or invisible |
| StoreBuffers.RunRefines | include/RingQueue.h:294-466 | every run over store buffers is a run of the interleaved machine with the same histories and answers |
| StoreBuffers.SequentialRunsPossible | include/RingQueue.h:294-466 | the converse: every sequentially consistent run of the interleaved machine is a run over store buffers |
| StoreBuffers.AllLand | include/RingQueue.h:319-324 | no store is stuck: from any state of any run all pending stores can land, one step each, and memory then shows every counter and element issued |
| StoreBuffers.RefusalsMean | include/RingQueue.h:316-317 | a refusal is true if and only if no index store of the other thread is pending |
| StoreBuffers.FencesAreNeeded | include/RingQueue.h:321 | without the producer's fence alone, in memory where nothing else orders stores, some run reads a slot before its element has landed |
| StoreBuffers.ConsumerFenceIsNeeded | include/RingQueue.h:403 | without the consumer's fence alone, in the same memory, some run gives the producer of a full ring of two a free space of 2^32 - 1 |
| StoreBuffers.RefusalsNotSequential | include/RingQueue.h:401-407 | some run refuses both sides around a ring that is neither empty nor full |
| LogRecords.WordRoundTrip | src/LockFreeRingBuffer.cpp:324-325 | a stored word reads back, for every width |
| LogRecords.LittleEndianAt | src/LockFreeRingBuffer.cpp:324-325 | byte k of a stored word is its k-th base-256 digit, lowest first |
| LogRecords.EncodeLayout | src/LockFreeRingBuffer.cpp:321-334 | the layout of a record: the digits of the format at 0, those of the timestamp at 4, the argument bytes at 12 |
| LogRecords.DecodeEncode | src/LockFreeRingBuffer.cpp:321-334 | the bytes of any sequence of entries decode to exactly their records |
| SinkBuffers.SinkBuffer.constructor | include/SinkBuffer.h:21-26 | a new buffer is empty |
| SinkBuffers.SinkBuffer.Append | include/SinkBuffer.h:32-38 | appends the bytes, given room |
| SinkBuffers.SinkBuffer.PutHeader | src/LockFreeRingBuffer.cpp:322-328 | appends twelve bytes: the four of the format, then the eight of the timestamp, each lowest first |
| SinkBuffers.SinkBuffer.Add | include/SinkBuffer.h:55 | takes in the bytes already stored behind the cursor |
| SinkBuffers.SinkBuffer.Reset | include/SinkBuffer.h:57 | empties the buffer |
| LogBackend.StageEntry | src/LockFreeRingBuffer.cpp:226-263 | stages an entry with format 7, size 16, the timestamp and the slot's old argument bytes, if and only if there is room |
| LogBackend.FlatFirst | src/LockFreeRingBuffer.cpp:419-424 | the queue's bytes are those of its oldest buffer followed by the rest |
| LogBackend.Backend.constructor | src/LockFreeRingBuffer.cpp:296-300 | the drainer starts with one of the cached empty buffers |
| LogBackend.Backend.Swap | src/LockFreeRingBuffer.cpp:344-359 | queues the current buffer, takes the last cached or a new empty one, and loses no byte |
| LogBackend.Backend.CopyEntry | src/LockFreeRingBuffer.cpp:321-340 | adds exactly the 16 bytes of the entry to what is drained |
| LogBackend.Backend.CopyOrSwap | src/LockFreeRingBuffer.cpp:320-367 | copies if and only if more than 16 bytes are left, otherwise hands over a buffer with all the records it can hold |
| LogBackend.Backend.CopyBatch | src/LockFreeRingBuffer.cpp:312-367 | the pointer walk with its jump to the beginning copies exactly the peeked entries in order and terminates; a buffer is handed over if and only if the entries do not fit, each is full to the last record, and the cache gives its newest buffers before one is allocated |
| LogBackend.Backend.CopyPeeked | src/LockFreeRingBuffer.cpp:310-368 | peeks min(max, occupancy) entries and adds their bytes |
| LogBackend.Backend.DrainRing | src/LockFreeRingBuffer.cpp:309-373 | moves exactly the n oldest entries from the ring to the drained ones, as bytes; keeps ownership and hands over full buffers only |
| LogBackend.Backend.DrainPass | src/LockFreeRingBuffer.cpp:308-399 | one whole pass: each ring gives up its oldest batch, the drained entries gain exactly those in ring order and stay the encoded bytes, only full buffers are handed over on the way, and at the end a pass that found something is counted, or the buffer is handed over if 2000 were |
| LogBackend.Backend.FileReadsBack | src/LockFreeRingBuffer.cpp:321-424 | the bytes of the file are the encoding of the first entries drained and decode to exactly their records |
| LogBackend.Backend.EndPass | src/LockFreeRingBuffer.cpp:376-399 | hands the buffer over at the pass after 2000 non-empty ones and takes the newest cached or a new one, counts otherwise, loses no byte |
| LogBackend.Backend.SinkTurn | src/LockFreeRingBuffer.cpp:411-440 | writes the oldest queued buffer to the file, empties it and recycles or drops it; file, queue and buffer stay the encoding of what was drained, and the file ends with a whole record |
| Pipeline.InvRun | src/LockFreeRingBuffer.cpp:203-441 | all invariants hold in every run of producers, drainer and sink |
| Pipeline.StreamStep | src/LockFreeRingBuffer.cpp:302-427 | conservation: a copy adds its record at the end of the stream, no other step of any thread changes it |
| Pipeline.NothingLost | src/LockFreeRingBuffer.cpp:302-427 | in every run the drained stream is a merge of prefixes of what each producer published, in each producer's order, also part-way through a batch |
| Pipeline.BuffersAccounted | src/LockFreeRingBuffer.cpp:344-459 | in every run each live buffer is in one place, cached ones are empty, queued ones are not, and live plus freed equals initial plus allocated |
| Pipeline.ChecksHold | src/LockFreeRingBuffer.cpp:415-434 | the two sizes read outside the mutex are acted on safely, and the drainer's first buffer exists |
| PipelineRuns.SinkServes | src/LockFreeRingBuffer.cpp:405-441 | from any state of any run before the exit flag, a stated number of steps of the sink alone writes what it held and all that was queued, in order, empties the queue and recycles as many buffers as the cache has room for |
| PipelineRuns.HandsOver | src/LockFreeRingBuffer.cpp:344-357 | in every run a handover queues the buffer last and takes the newest cached one, empty; one is allocated only if every live buffer is current, queued or with the sink |
| Pipeline.FullBuffer | src/LockFreeRingBuffer.cpp:321-347 | a buffer handed over as full holds SIZE/16 - 1 records when SIZE is a multiple of 16 |
| Pipeline.NoEmptyHandover | src/LockFreeRingBuffer.cpp:358-398 | at the head of the loop the current buffer holds at least 16 bytes per non-empty pass since it was taken, so no empty buffer is queued |
| Pipeline.CopyLoopEnds | src/LockFreeRingBuffer.cpp:320-367 | each step of the copy loop decreases (entries left, buffer full) |
| PipelineRuns.CopyLoopEndsIff | src/LockFreeRingBuffer.cpp:320-367 | the copy loop ends, in every schedule and within two steps per entry, if and only if SIZE is above 16 |
| PipelineRuns.NothingFits | src/LockFreeRingBuffer.cpp:321-357 | with SIZE at most 16, in every run no copy is ever possible and a drainer in the loop can only swap |
| PipelineRuns.CopyLoopEndless | src/LockFreeRingBuffer.cpp:320-367 | with SIZE at most 16, once in the loop the drainer is there for ever, whatever the others do |
| PipelineRuns.EntersCopyLoop | src/LockFreeRingBuffer.cpp:302-320 | for any buffer size some run enters the loop |
| PipelineRuns.CanFinish | src/LockFreeRingBuffer.cpp:302-441 | no dead end: every run can be continued until both background threads are gone |
| PipelineRuns.TailLost | src/LockFreeRingBuffer.cpp:401-413 | the file is complete at the end of every run if and only if producers times quota is zero |
| PipelineRuns.OneEntryLost | src/LockFreeRingBuffer.cpp:401-413 | a concrete run that logs one entry, drains it, ends, and has written nothing |
| PipelineRuns.WritesIff | src/LockFreeRingBuffer.cpp:340-399 | some run writes something if and only if the whole log fills a buffer or has more than 2000 entries |
| PipelineRuns.NothingWritten | src/LockFreeRingBuffer.cpp:340-399 | otherwise no run ever queues or writes a buffer |
| Pipeline.PassProgress | src/LockFreeRingBuffer.cpp:302-376 | j is what the rings have released and never exceeds the total; a pass that found something increases it |
| Pipeline.ExactDrain | src/LockFreeRingBuffer.cpp:302-376 | when the drainer leaves its loop every producer is done, every ring is empty, every record is in the stream |
| Pipeline.FileComplete | src/LockFreeRingBuffer.cpp:405-441 | in each finished run the file is complete if and only if the last non-empty pass flushed and the sink queue is empty; which configurations have runs where it is not is `TailLost` below |
| PipelineBytes.MemoryAgrees | src/LockFreeRingBuffer.cpp:321-424 | over every run, what the header stores, appends, resets and writes leave in each buffer and in the file is the encoding of the records there |
| PipelineBytes.FileReadsBack | src/LockFreeRingBuffer.cpp:321-424 | at any moment of any run the bytes written decode to whole records, and each producer's are the first ones it published, in order |
| PipelineRings.RingStep | src/LockFreeRingBuffer.cpp:302-373 | with the interleaved ring in place of the queue, each of its steps is a step of the pipeline or invisible, and what is read from a slot is the entry the pipeline copies |
| SharedQueue.Queue.WaitAndPop | include/shared_queue.h:59-85 | against any arrivals during its waits it sleeps exactly until the first that brings something, takes the oldest item and leaves all the others |
| Monitor.NoLostWakeup | include/shared_queue.h:39-85 | while a consumer waits, there are at most as many items as pending notifications and consumers on their way back to the test |
| Monitor.NotStranded | include/shared_queue.h:59-85 | from every state with a waiter and an item, the threads already inside the queue can, within a stated number of steps and with no spurious wakeup, wake a waiter or empty the queue |
| Monitor.ItemsAccounted | include/shared_queue.h:39-85 | over every run the items taken followed by those there are the items pushed, and each pop has taken one at most |
| Monitor.PushPossible | include/shared_queue.h:39-45 | whenever the mutex is free any outside thread can push in three steps, and wakes the waiter it chooses |
| Monitor.PopPossible | include/shared_queue.h:59-85 | whenever the mutex is free any outside thread can take the oldest item, or begins to wait if there is none |
| Monitor.TryPossible | include/shared_queue.h:48-56 | whenever the mutex is free any outside thread can try, which takes the oldest item if there is one and never waits |
| Monitor.FifoOverMonitor | include/shared_queue.h:39-85 | items come out in the order they went in, over every interleaving |
| ActiveObject.Active.Run | include/active.h:35-41 | over whatever is queued and whatever arrives while it waits, runs everything up to and including the first shutdown message and leaves the rest |
| ActiveObject.RunsInOrder | include/active.h:35-65 | over every interleaving of senders what has run is a prefix of the enqueue order, each callback once |
| ActiveObject.SendPossible | include/active.h:63-65 | sending is always open to clients and callbacks, also after shutdown, and puts the callback last |
| ActiveObject.DrainedBeforeJoin | include/active.h:48-61 | when join returns, everything enqueued before the destructor's message has run and nothing after it |
| ActiveObject.NothingAfterShutdown | include/active.h:35-41 | after the destructor's message no step runs a callback |
| ActiveObject.ShutdownEnds | include/active.h:48-61 | from every state after the destructor has begun, the threads already there can bring the run to the return of join, with no new sender and no spurious wakeup |

## Left out

- RingQueue.Ring.AwaitSpace: the consumer's releases during the wait are given as a sequence in which some release frees a slot of a full ring; a wait that no release ends does not end, and is the `GiveUpPush` step of the protocols.
- RingQueue.Ring.TryPush: the overloads that move their argument have no method of their own; they differ only in what they leave in it.
- RingQueue.Ring.PushEach: moved-from source elements are not modelled, elements are values.
- RingProgress.PushIsWaitFree: counts a thread's own steps; how the scheduler picks steps is not modelled, so there is no fairness or timing result.
- StoreBuffers.RefinesInterleaved: loads take effect at once and in program order, as x86 orders loads; loads delayed by the compiler, which sees plain variables, are not modelled.
- Pipeline.InvRun: a ring is one atomic bounded queue with possibly old samples; PipelineRings.RingStep relates it step by step to the ring with slots and counters, not to store buffers at once.
- Pipeline.FileComplete: the file is an append-only sequence; opening, flushing and write errors are not modelled, nor the ten-second sleep before the exit flag.
- LogBackend.Backend.DrainPass: the outer loop appears only in Pipeline, where other threads run in between.
- ActiveObject.Active.Run: what arrives during each wait is given as a sequence that brings the shutdown message some time; without that message the loop does not end.
- Monitor.NotStranded: says that the steps exist; that the scheduler takes them is fairness, which is not modelled. Likewise ActiveObject.ShutdownEnds.
- The one-line members of `shared_queue`, `Active` and `SinkBuffer` are in the model but have no row; `size` and `isActive` are not in it.
- The forwarding class `spsc_queue` and the commented-out variants add nothing to the class they forward to.
- Clocks, cycle counters and calibration (`Cycles.h`, `Cycles.cpp`): a timestamp is an arbitrary 64-bit value.
- `Fence.h` and its inline assembly: only the ordering the fences promise is used.
- `StringPiece.h`, `Util.h`, `Initialize.h`, `Portability.h` and the debugging members of `SinkBuffer`.
- The alternative build in which the producers call the active object: the object is modelled, `main`'s use of it is not.
