# Conclave cores in Dafny

Conclave is a browser written from scratch in Rust. This project models nine of its
self-contained cores and proves what they promise over every input, every run or every
interleaving. Each core has its own modules; they share only `Common` and, for the three byte
formats, `Wire`. `dafny verify dfyconfig.toml` checks everything.

| core | modules | main results |
|---|---|---|
| sequenced thread pool | `TaskPool`, `PoolProtocol`, `PoolWork`, `PoolShutdown` | serial FIFO sequences, no lost wakeup, no worker asleep beside unattended work, conservation of tasks, under every interleaving; exactly when all workers return |
| generational slab | `Arena` | refinement of a map, no handle twice, bounded footprint |
| timer queue | `Timers`, `TimerRuns` | exact result and exact termination condition of the in-place drain; over runs, a drain returns exactly what is pending and due, as it was asked for; when pushing back a drained task is safe |
| value codec | `Wire`, `ValueCodec`, `ValueStreams`, `Snapshots`, `SnapshotStreams`, `FileFormats` | round trip if and only if depth and lengths are within their limits; plain data comes back as itself; exact effect of truncation and extension; the files byte for byte |
| audio graph | `RenderOrder`, `RenderGraph` | Kahn order with the exact cyclic part; block evaluation equals a sample-wise pull definition on every graph, feedback included |
| paint cache | `PaintCache`, `PaintTiers`, `PaintRecency` | exact bookkeeping, eviction by last use and no more than needed, two-tier safety and freshness over runs |
| accessibility tree | `AxTree`, `AxBuild` | built tree is the pruned DOM in document order; snapshot navigation equals tree navigation |
| collation | `Collation` | both comparators are total orders: plain letters first, then accents, then case; digit runs by value |
| x86-64 emitter | `X86`, `CodeStream`, `Assembler`, `Emitter`, `InstructionBytes` | a decoder after the Intel SDM recovers every run of emissions and patches |

Conventions. A Rust object whose methods update fields is a class; each method is proved against
a function or relation on values, and the run-level lemmas are about those. Loops stay loops.
Machine integers are written out where they matter: wrapping `u64` deadlines, saturating byte
counts, `as i32` displacements, `u32` generations and lengths. Bit fields built with shifts and
masks are written with `*`, `/` and `%` on the same fields. `HashMap` iteration order, clocks,
condition-variable wakeups, file operations, sample arithmetic and Unicode tables are parameters.

## Where the code does less than it says

Each of these is an exact condition, proved in both directions, with the failing family shown.

- **Thread pool.** `shutdown` joins all workers, but the end of a sequenced task notifies one worker
  and a returning worker notifies nobody. Once the queues are empty, every schedule lets all workers
  return exactly if nobody waits without a timeout or the parked workers are no more than the
  sequenced tasks still running (`PoolShutdown.JoinsIff`); four workers and a sequence of two tasks
  suffice to hang it (`PoolShutdown.ShutdownCanHang`). A pool that is idle when `shutdown` notifies
  always ends (`PoolShutdown.IdleShutdownJoins`), and even a hanging one has run every task
  (`PoolShutdown.LeftBehindButDone`).
- **Timers.** `drain_due_split` ends exactly if no due interval re-arms at or before its own
  cutoff (`Timers.DrainHaltsIff`); in a reachable state, exactly if no due interval's period
  overflows 64 bits when added to the cutoff, which wraps in release builds
  (`TimerRuns.DrainReturnsIff`). `setInterval(f, Infinity)` saturates to such a period and makes
  every later drain spin for ever (`Timers.InfinitePeriodNeverHalts`, `TimerRuns.InfinitePeriodHangs`).
  Pushing a drained task back with `requeue`, however much later, keeps the run results exactly if
  its id is not queued again and was not cancelled in between (`TimerRuns.RequeueIsSafeIff`): an
  interval is queued twice (`TimerRuns.RequeueDuplicatesIntervals`), and a task cancelled between
  its drain and its `requeue` fires (`TimerRuns.RequeuedFiresIff`). A timer fires at the time asked
  for exactly if request plus delay has 64 bits; otherwise the sum wraps and it fires at once
  (`TimerRuns.OnTimeIff`).
- **Value codec.** The encoder writes `null` for a node at depth 128 as if the rest were kept, but
  the decoder rejects a tree of that depth, so the whole file reads back as nothing; and lengths
  and counts are cut to 32 bits. A value, a database and a cache file read back exactly if no
  written node is that deep and every written length has 32 bits (`ValueCodec.RoundTrip`,
  `Snapshots.DbRoundTrip`, `Snapshots.CacheRoundTrip`). A string of 2^32 bytes reads back empty
  (`ValueCodec.LongStringIsLost`), a database with such a name as an empty one, even truncated
  (`Snapshots.LongNameReadsAsEmpty`), and a cache entry with such a blob is rejected
  (`Snapshots.LongBlobIsRejected`).
- **Paint cache.** The running byte sum stays exact exactly if twice the budget is representable
  (`PaintTiers.SumIsExactIff`). A wipe is final exactly if every file was really deleted; deletion
  errors are ignored (`PaintTiers.WipeIsFinalIff`). An insert is the last word on its key exactly
  if it does not leave an older frame behind, which it does when it is accepted but its write fails
  over a surviving older file, or when it is refused for its size while memory or a file holds an
  older frame (`PaintTiers.InsertIsLastWordIff`, `PaintTiers.RefusedInsertServesOld`).
- **Accessibility tree.** Snapshot and tree navigation agree exactly if every node with a parent
  is listed there, which holds exactly if parents exist when they are named
  (`AxTree.NavigationAgreesIff`, `AxTree.ListedIff`); the builder always satisfies it. Focusing an
  unknown id unmarks the focused node but keeps the pointer (`AxTree.FocusCoherentIff`), and adding
  a node that comes marked leaves another node's mark in place (`AxTree.AddedCoherentIff`); a built
  tree is coherent exactly if at most one exposed element has the focused DOM id
  (`AxBuild.BuiltFocusIff`).
- **Audio graph.** The documentation calls cycles illegal and says they are broken by id order.
  What a listener hears is that an edge between nodes affected by a cycle that does not lead to a
  greater id is a delay of exactly one quantum, and no other edge is
  (`RenderOrder.EarlierIff`, `RenderGraph.AudioGraph.RenderPlanar`).
- **Emitter.** A patched branch reaches its target exactly if the distance fits 32 bits
  (`CodeStream.DisplacementExactIff`), and a stack slot is addressed at eight times its number
  exactly below 2^28; slots 2^29 apart share an address (`Emitter.SlotAddressIff`).

## Model

| member | source | states |
|---|---|---|
| `TaskPool.PoolInner.PushDelayed` | crates/cv_base/src/task.rs:98-108 | a delayed task enters the heap at its (deadline, seq) position |
| `TaskPool.PoolInner.PostOnSequence` | crates/cv_base/src/task.rs:115-123 | a task goes to the back of its sequence's queue, created if missing |
| `TaskPool.PoolInner.PickOne` | crates/cv_base/src/task.rs:141-165 | due tasks are promoted first, then a free task is taken, then a task of some ready sequence, else nothing; every iteration order of the map is covered |
| `TaskPool.PoolInner.WorkerPass` | crates/cv_base/src/task.rs:171-192 | one pass under the lock ends in returning (only on shutdown with all queues empty), running, a timed wait for the next deadline or an untimed wait |
| `TaskPool.PoolInner.Release` | crates/cv_base/src/task.rs:196-201 | the finished sequence is no longer running, the others are |
| `PoolProtocol.InvStep` | crates/cv_base/src/task.rs:92-204 | every atomic step of any poster or worker keeps the whole protocol invariant |
| `PoolProtocol.ReachableInv` | crates/cv_base/src/task.rs:62-204 | the invariant holds in every state any interleaving can reach |
| `PoolProtocol.SequencesAreSerial` | crates/cv_base/src/task.rs:115-204 | at most one worker holds a task of a sequence, and the sequence is marked running exactly then |
| `PoolProtocol.SequencesAreFifo` | crates/cv_base/src/task.rs:115-204 | started tasks followed by queued tasks of a sequence are its posts in order |
| `PoolProtocol.FreeTasksAreFifo` | crates/cv_base/src/task.rs:92-165 | started free tasks followed by queued ones are the posted and promoted tasks in the order in which they entered the queue |
| `PoolProtocol.FreeTasksComeFirst` | crates/cv_base/src/task.rs:141-165 | a sequenced task starts only when no free task is queued and no delayed one is due |
| `PoolProtocol.NoLostWakeup` | crates/cv_base/src/task.rs:92-204 | with no notification outstanding, runnable work means some live worker is not parked, and a non-empty heap means nobody is in the untimed wait |
| `PoolWork.ConservedStep` | crates/cv_base/src/task.rs:92-204 | every step keeps this: somebody still has to notify for a delayed task, or nobody is asleep, or queued tasks and ready sequences are at most the workers on their way to the lock plus the notifications outstanding |
| `PoolWork.WorkIsConserved` | crates/cv_base/src/task.rs:92-204 | with no notification outstanding, while one worker is asleep there are at least as many workers on their way to the lock as tasks that could start; so no worker sleeps beside runnable work while the others are merely busy |
| `PoolProtocol.NoOversleeping` | crates/cv_base/src/task.rs:183-191 | when a delayed task is due, every parked worker is in a timed wait that has expired |
| `PoolProtocol.WaitsAreTight` | crates/cv_base/src/task.rs:183-188 | a timed wait aims at the earliest deadline and is less than a microsecond short of it |
| `PoolProtocol.TasksAreConserved` | crates/cv_base/src/task.rs:40-46 | every posted task is in exactly one of queue, heap, a sequence, a worker or finished, once |
| `PoolProtocol.NeverEarly` | crates/cv_base/src/task.rs:141-150 | no delayed task starts before its deadline |
| `PoolProtocol.PromotionBatch` | crates/cv_base/src/task.rs:28-33 | a promotion moves exactly the due tasks, earlier deadlines first, those of one deadline by their numbers |
| `PoolProtocol.ReturnsOnlyWhenDrained` | crates/cv_base/src/task.rs:167-179 | a worker returns only after shutdown with every queue empty, all posted tasks finished or on a worker |
| `PoolShutdown.StaysCalled` | crates/cv_base/src/task.rs:167-204 | after shutdown with empty queues, every step of the runner keeps this: nobody waits without a timeout, or parked workers are at most the sequenced tasks still running |
| `PoolShutdown.StepsRunOut` | crates/cv_base/src/task.rs:167-204 | then every step but the clock's lowers a bound, so every schedule comes to rest |
| `PoolShutdown.RestsIff` | crates/cv_base/src/task.rs:167-204 | it rests exactly when every worker has returned or waits without a timeout |
| `PoolShutdown.JoinsIff` | crates/cv_base/src/task.rs:125-133 | all workers return under every schedule if and only if that condition holds once the queues are empty |
| `PoolShutdown.IdleShutdownJoins` | crates/cv_base/src/task.rs:125-133 | if the queues are empty when `shutdown` notifies, all workers return under every schedule |
| `PoolShutdown.ShutdownCanHang` | crates/cv_base/src/task.rs:196-201 | a legal run of four workers and one sequence of two tasks after which some schedule leaves a worker waiting for ever |
| `PoolShutdown.LeftBehindButDone` | crates/cv_base/src/task.rs:167-204 | a runner at rest with a worker left behind has run every posted task |
| `Arena.PackThenUnpack` | crates/cv_arena/src/lib.rs:70-81 | a handle survives packing into 64 bits, index above generation, which are never zero |
| `Arena.UnpackThenPack` | crates/cv_arena/src/lib.rs:74-81 | a word unpacks exactly if it is the packing of a handle |
| `Arena.InsertValid` | crates/cv_arena/src/lib.rs:159-189 | insertion keeps the free list acyclic and exact, so the occupied-head arm is unreachable |
| `Arena.RemoveValid` | crates/cv_arena/src/lib.rs:219-254 | removal keeps the free list acyclic and exact, retiring slots whose generation overflows |
| `Arena.SlotsPartition` | crates/cv_arena/src/lib.rs:84-105 | occupied, free and retired slots partition the array |
| `Arena.RunRefines` | crates/cv_arena/src/lib.rs:159-254 | from any valid slab, every run answers like the abstract map of issued handles |
| `Arena.SlabRefinesMap` | crates/cv_arena/src/lib.rs:124-254 | every run from an empty slab is a run of that map |
| `Arena.NoHandleTwice` | crates/cv_arena/src/lib.rs:159-254 | no handle is issued twice, retirement included |
| `Arena.RemovedHandleMissesForever` | crates/cv_arena/src/lib.rs:193-254 | a removed handle never finds or removes anything again |
| `Arena.FootprintIsBounded` | crates/cv_arena/src/lib.rs:159-189 | there are never more slots than were live at once plus the retired ones |
| `Arena.FullMeansExhausted` | crates/cv_arena/src/lib.rs:177-188 | insertion panics exactly when all 2^32 slots are occupied or retired |
| `Arena.FreshHandle` | crates/cv_arena/src/lib.rs:177-188 | with nothing to reuse, the next slot is handed out under generation 1 |
| `Arena.FreedLastReusedFirst` | crates/cv_arena/src/lib.rs:159-254 | the slot freed last is reused first, under the next generation, leaving the free list as before; at the last generation it is not reused |
| `Arena.Slab.InsertValue` | crates/cv_arena/src/lib.rs:159-189 | the method computes the specified insertion and keeps the invariant |
| `Arena.Slab.GetValue` | crates/cv_arena/src/lib.rs:193-200 | only a matching generation finds the value |
| `Arena.Slab.RemoveValue` | crates/cv_arena/src/lib.rs:219-254 | the method computes the specified removal and never underflows the count |
| `Arena.Slab.Iterate` | crates/cv_arena/src/lib.rs:269-284 | exactly the live pairs, each once, in slot order |
| `Timers.Scheduler.Schedule` | crates/cv_browser/src/scheduler.rs:92-165 | a new task with the next id, the kind and payload asked for and the deadline now plus delay (at least 1 for an interval, one past now for a frame) joins the queue |
| `Timers.Scheduler.Cancel` | crates/cv_browser/src/scheduler.rs:167-169 | exactly the tasks with that id leave |
| `Timers.Scheduler.DrainDueSplit` | crates/cv_browser/src/scheduler.rs:210-243 | returns exactly the tasks due at entry, sorted by (deadline, id); keeps the others plus one re-armed entry per due interval |
| `Timers.Scheduler.DrainDueTimeouts` | crates/cv_browser/src/scheduler.rs:251-265 | returns exactly the due one-shot timeouts in order and keeps the rest |
| `Timers.ScanResult` | crates/cv_browser/src/scheduler.rs:210-243 | whenever the scan halts, queue and output are as specified, although it pushes into the vector it scans |
| `Timers.DrainHaltsIff` | crates/cv_browser/src/scheduler.rs:210-243 | the scan halts if and only if no due interval re-arms at or before its cutoff; otherwise it never does, at any number of steps |
| `Timers.StuckMeansOverflow` | crates/cv_browser/src/scheduler.rs:225-234 | that happens exactly for period zero or cutoff plus period at or above 2^64 |
| `Timers.InfinitePeriodNeverHalts` | crates/cv_browser/src/scheduler.rs:124-143 | an interval with the saturated period 2^64 - 1, asked for after the first millisecond, is such a task: the next drain never halts |
| `Timers.SortByKey` | crates/cv_browser/src/scheduler.rs:241 | a permutation in (deadline, id) order |
| `TimerRuns.ReachableInv` | crates/cv_browser/src/scheduler.rs:92-265 | in every reachable state the queue holds exactly the pending requests, each once, due when it should be |
| `TimerRuns.QueueIdsDistinct` | crates/cv_browser/src/scheduler.rs:92-96 | ids in the queue are distinct |
| `TimerRuns.CancelledNeverFires` | crates/cv_browser/src/scheduler.rs:167-265 | no drain returns a cancelled id, or one id twice |
| `TimerRuns.CancelledForever` | crates/cv_browser/src/scheduler.rs:167-169 | cancelled ids stay cancelled over every continuation |
| `TimerRuns.FramesWaitForTheNextDrain` | crates/cv_browser/src/scheduler.rs:145-165 | a frame callback requested at or after the snapshot is not returned by a drain using it |
| `TimerRuns.FiresIff` | crates/cv_browser/src/scheduler.rs:210-243 | a drain returns an id if and only if it was asked for, not cancelled, not yet fired unless an interval, and due by the cutoff of its kind: request plus delay, or last firing plus period |
| `TimerRuns.TimeoutFiresIff` | crates/cv_browser/src/scheduler.rs:251-265 | the timeout drain returns an id if and only if it is such a pending one-shot timeout |
| `TimerRuns.FiredAsAsked` | crates/cv_browser/src/scheduler.rs:98-165 | what a drain returns has the kind, payload and deadline that were asked for under its id |
| `TimerRuns.FiringOrder` | crates/cv_browser/src/scheduler.rs:241 | earlier deadlines first, then smaller ids |
| `TimerRuns.FiresAgain` | crates/cv_browser/src/scheduler.rs:225-234 | an interval that fired is pending again, due at the cutoff plus its period; a one-shot never is |
| `TimerRuns.OnTimeIff` | crates/cv_browser/src/scheduler.rs:98-143 | the first firing is by the first drain at or after request plus delay, and not before, if that sum has 64 bits; otherwise the next drain fires it |
| `TimerRuns.RequeueDuplicatesIntervals` | crates/cv_browser/src/scheduler.rs:176-178 | pushing a drained task back keeps ids distinct if and only if it does not repeat |
| `TimerRuns.RequeueIsSafeIff` | crates/cv_browser/src/scheduler.rs:176-178 | after a drain and any further run, pushing back a drained task keeps the queue invariant if and only if its id is neither queued nor cancelled |
| `TimerRuns.RequeuedFiresIff` | crates/cv_browser/src/main.rs:17031-17036 | after that, a drain returns a cancelled id if and only if the task pushed back was cancelled in between and is due |
| `TimerRuns.DrainReturnsIff` | crates/cv_browser/src/scheduler.rs:210-243 | in every reachable state a drain returns if and only if no due interval's period overflows 64 bits when added to the cutoff |
| `TimerRuns.InfinitePeriodHangs` | crates/cv_browser/src/scheduler.rs:124-143 | from every reachable state past the first millisecond, one infinite interval leads to a reachable state in which no drain returns |
| `Wire.LeRoundTrip` | crates/cv_browser/src/idb_persist.rs:165-173 | little-endian bytes read back as the number if it fits |
| `Wire.LeCut` | crates/cv_browser/src/idb_persist.rs:165-173 | otherwise as its remainder |
| `Wire.WordBytes` | crates/cv_browser/src/idb_persist.rs:165-167 | the least significant byte comes first |
| `Wire.ReadStrAt` | crates/cv_browser/src/idb_persist.rs:174-217 | a length-prefixed string reads back and is consumed exactly if and only if its length has 32 bits |
| `Wire.ReadStrCut` | crates/cv_browser/src/idb_persist.rs:174-217 | any string reads back as the part its cut length stands for, or not at all if that part splits a character |
| `Wire.Reader.TakeBytes` | crates/cv_browser/src/idb_persist.rs:188-193 | bytes are taken if there are enough, else nothing is and the position stays |
| `Wire.Reader.Str` | crates/cv_browser/src/idb_persist.rs:213-217 | length, bytes and UTF-8 check |
| `Wire.Utf8IsValid` | crates/cv_browser/src/idb_persist.rs:213-217 | the UTF-8 form of every character sequence is accepted |
| `Wire.ValidIsUtf8` | crates/cv_browser/src/idb_persist.rs:213-217 | whatever is accepted is the UTF-8 form of a character sequence |
| `Wire.Buffer.WriteStr` | crates/cv_browser/src/idb_persist.rs:174-177 | appends length and bytes |
| `ValueCodec.RoundTrip` | crates/cv_browser/src/idb_persist.rs:274-380 | decoding an encoding, whatever follows, gives the normalised value and consumes exactly it if and only if no written node is at depth 128 or more and every written length has 32 bits; if only the depth is wrong it fails |
| `ValueCodec.RoundTripItems` | crates/cv_browser/src/idb_persist.rs:294-301 | the same if and only if for arrays, holes read back as undefined |
| `ValueCodec.RoundTripProps` | crates/cv_browser/src/idb_persist.rs:302-331 | the same if and only if for objects, over the properties that are written |
| `ValueCodec.ObjectReadsBack` | crates/cv_browser/src/idb_persist.rs:302-331 | an object within the limits reads back as exactly its properties whose key does not begin with byte 1 and whose value is neither undefined nor a function, in their order, with normal values |
| `ValueCodec.PlainReadsBack` | crates/cv_browser/src/idb_persist.rs:274-380 | null, booleans, numbers and strings, and arrays and objects of them under ordinary keys, read back as themselves |
| `ValueCodec.OddValuesReadBack` | crates/cv_browser/src/idb_persist.rs:279-336 | holes read back as undefined, functions and big integers as null |
| `ValueCodec.LastEntryWins` | crates/cv_browser/src/idb_persist.rs:365-377 | where a file names a key twice the later value counts, and no key comes out twice |
| `ValueCodec.DecodedIsCarried` | crates/cv_browser/src/idb_persist.rs:340-380 | whatever the bytes, a value that is read has all lengths below 2^32 and no node at depth 128 |
| `ValueCodec.StringReadsBack` | crates/cv_browser/src/idb_persist.rs:174-177 | what any string, of any length, reads back as |
| `ValueCodec.LongStringIsLost` | crates/cv_browser/src/idb_persist.rs:174-177 | a string of 2^32 bytes reads back as the empty one and the reader is left inside its text |
| `ValueCodec.DecodeExtends` | crates/cv_browser/src/idb_persist.rs:340-380 | success on a prefix is the same success on every extension |
| `ValueCodec.DecodeShrinks` | crates/cv_browser/src/idb_persist.rs:340-380 | a read that ends within the first k bytes is the same on those bytes alone |
| `ValueStreams.EncodeValue` | crates/cv_browser/src/idb_persist.rs:274-336 | the recursive writer appends the encoding that the codec results are about |
| `ValueStreams.DecodeValue` | crates/cv_browser/src/idb_persist.rs:340-380 | the recursive reader computes the specified decoding and position |
| `Snapshots.DbRoundTrip` | crates/cv_browser/src/idb_persist.rs:421-504 | a written database followed by anything reads back as its normal form if and only if every written length has 32 bits and no row is too deep; as nothing if only a row is too deep |
| `Snapshots.DbTruncation` | crates/cv_browser/src/idb_persist.rs:451-504 | every proper prefix of a file with 32-bit lengths reads back as nothing |
| `Snapshots.DbTruncationIff` | crates/cv_browser/src/idb_persist.rs:451-504 | any file cut to k bytes reads back as before if the reader had not passed k, otherwise as nothing |
| `Snapshots.LongNameReadsAsEmpty` | crates/cv_browser/src/idb_persist.rs:421-504 | a database whose name has 2^32 null characters reads back, whole or cut after 21 bytes, as an empty database |
| `Snapshots.DbExtends` | crates/cv_browser/src/idb_persist.rs:451-504 | success on a prefix is the same success on the whole file |
| `Snapshots.BlobAt` | crates/cv_browser/src/idb_persist.rs:238-266 | value blobs read back if and only if depth and lengths are within the limits |
| `Snapshots.LongBlobIsRejected` | crates/cv_browser/src/opfs.rs:402-404 | an entry whose blob has 2^32 bytes or more never reads back, and is rejected if nothing else is wrong with it |
| `Snapshots.NestingLimit` | crates/cv_browser/src/idb_persist.rs:226 | the limit is exact: 127 nested levels survive, 128 do not |
| `Snapshots.CacheRoundTrip` | crates/cv_browser/src/opfs.rs:394-448 | an intact cache file reads back as its normalised entries if and only if depth and lengths, blob lengths included, are within the limits; as the empty list if only an entry is too deep |
| `Snapshots.CacheTruncation` | crates/cv_browser/src/opfs.rs:411-448 | every truncation of a file with 32-bit lengths reads back as the empty list |
| `Snapshots.CacheTruncationIff` | crates/cv_browser/src/opfs.rs:411-448 | any file cut to k bytes reads back as before if the reader had not passed k, otherwise as the empty list |
| `Snapshots.CacheExtends` | crates/cv_browser/src/opfs.rs:411-448 | success on a prefix is the same success on every extension |
| `FileFormats.PlainDbReadsBack` | crates/cv_browser/src/idb_persist.rs:421-504 | a database of plain data within the limits reads back exactly as written |
| `FileFormats.PlainCacheReadsBack` | crates/cv_browser/src/opfs.rs:394-448 | so does a cache |
| `FileFormats.ForeignFilesAreRefused` | crates/cv_browser/src/idb_persist.rs:228-266 | only a file that begins with its magic and version 1 is read, so the three kinds are never mistaken for one another |
| `FileFormats.ForeignBytesAreRefused` | crates/cv_browser/src/idb_persist.rs:340-380 | unknown tags are refused, and any byte but 0 is true |
| `FileFormats.ScalarBytes` | crates/cv_browser/src/idb_persist.rs:67-73 | the literal bytes of undefined, null, booleans and strings |
| `FileFormats.NumberBytes` | crates/cv_browser/src/idb_persist.rs:171-173 | the literal bytes of numbers |
| `FileFormats.ArrayBytes` | crates/cv_browser/src/idb_persist.rs:294-301 | the literal bytes of arrays |
| `FileFormats.ObjectBytes` | crates/cv_browser/src/idb_persist.rs:302-331 | the literal bytes of objects of data properties |
| `FileFormats.DbFileBytes` | crates/cv_browser/src/idb_persist.rs:421-428 | the literal bytes of a database file up to its stores |
| `FileFormats.StoreFileBytes` | crates/cv_browser/src/idb_persist.rs:429-445 | the literal bytes of a store |
| `FileFormats.CacheFileBytes` | crates/cv_browser/src/opfs.rs:394-407 | the literal bytes of a cache file up to its entries |
| `FileFormats.EntryFileBytes` | crates/cv_browser/src/opfs.rs:399-405 | the literal bytes of an entry with its blob |
| `SnapshotStreams.ToBytes` | crates/cv_browser/src/idb_persist.rs:421-447 | the writer loops produce the specified file |
| `SnapshotStreams.FromBytesLoop` | crates/cv_browser/src/idb_persist.rs:451-504 | the reader loops compute the specified result |
| `SnapshotStreams.EncodeCache` | crates/cv_browser/src/opfs.rs:394-407 | the writer loop produces the specified file |
| `SnapshotStreams.DecodeCacheLoop` | crates/cv_browser/src/opfs.rs:411-448 | the cursor loop computes the specified result |
| `RenderOrder.InDegrees` | crates/cv_audio/src/graph.rs:449-452 | counts the edges into every node |
| `RenderOrder.Relax` | crates/cv_audio/src/graph.rs:465-472 | lowers in-degrees along the outgoing edges without ever meeting zero, and queues exactly the nodes that reach it |
| `RenderOrder.TopoOrder` | crates/cv_audio/src/graph.rs:447-481 | every node once; a prefix in which all predecessors come first; the rest, each with a predecessor in the rest, in id order |
| `RenderOrder.KahnPrefixIsUntainted` | crates/cv_audio/src/graph.rs:447-481 | the prefix is exactly the nodes with no ancestor, themselves included, on a cycle |
| `RenderOrder.AcyclicOrder` | crates/cv_audio/src/graph.rs:443-481 | without cycles every edge's source precedes its target |
| `RenderOrder.EarlierIff` | crates/cv_audio/src/graph.rs:443-481 | on any graph the source of an edge is evaluated before its target if and only if the edge is not late: late edges join nodes with an ancestor on a cycle and do not lead to a greater id |
| `RenderGraph.AudioGraph.Add` | crates/cv_audio/src/graph.rs:203-207 | a new silent node with at least one channel |
| `RenderGraph.AudioGraph.Connect` | crates/cv_audio/src/graph.rs:252-262 | refuses unknown ids, adds an edge at most once |
| `RenderGraph.AudioGraph.Disconnect` | crates/cv_audio/src/graph.rs:265-267 | drops exactly the outgoing edges, keeping the order of the others |
| `RenderGraph.WithoutSourceKeeps` | crates/cv_audio/src/graph.rs:265-267 | membership and distinctness after dropping a source |
| `RenderGraph.AudioGraph.GatherInputs` | crates/cv_audio/src/graph.rs:487-504 | sums predecessors in edge order; channel c reads channel c of the source, or its last one if it has fewer |
| `RenderGraph.AudioGraph.ProcessNode` | crates/cv_audio/src/graph.rs:506-615 | the node alone changes: its output is its source, its mixed input or that times gain; generators move on 128 frames |
| `RenderGraph.AudioGraph.ProcessQuantum` | crates/cv_audio/src/graph.rs:436-441 | processes every node once in Kahn order; every node then holds its pull signal of this quantum, in which late edges carry the previous quantum |
| `RenderGraph.MixIsPull` | crates/cv_audio/src/graph.rs:487-504 | mixing stored outputs is pulling once every source holds what its edge carries |
| `RenderGraph.SignalShifts` | crates/cv_audio/src/graph.rs:506-588 | the signal from a later state on is the later part of the signal, delay lines included |
| `RenderGraph.NoCycleNoMemory` | crates/cv_audio/src/graph.rs:432-441 | the signal of a node with no ancestor on a cycle does not depend on stored outputs |
| `RenderGraph.AudioGraph.RenderQuantum` | crates/cv_audio/src/graph.rs:387-398 | interleaves the pull signal of the destination for 128 frames, on every graph |
| `RenderGraph.AudioGraph.RenderPlanar` | crates/cv_audio/src/graph.rs:404-421 | on every graph, sample t of every channel is the pull signal at time t, across quantum boundaries, cut to the requested length |
| `RenderGraph.EdgeAdds` | crates/cv_audio/src/graph.rs:487-504 | in the signal each edge into a node adds, in edge order, the matching channel of its source, the last one if there are fewer |
| `RenderGraph.SoleInput` | crates/cv_audio/src/graph.rs:506-588 | a node with one input passes that on, times its gain if it has one |
| `RenderGraph.SourcePlays` | crates/cv_audio/src/graph.rs:506-588 | a source is asked for a sample at every absolute frame and moved on after each |
| `RenderGraph.FrameLayout` | crates/cv_audio/src/graph.rs:387-398 | rendered samples run frame after frame, channel after channel within a frame |
| `PaintCache.TouchKeeps` | crates/cv_browser/src/paint_cache.rs:197-202 | a hit moves the key from its place to the back of the list and changes nothing else |
| `PaintCache.EvictionIsLongestFit` | crates/cv_browser/src/paint_cache.rs:205-214 | both eviction loops together keep exactly the longest most recent suffix within budget and cap |
| `PaintCache.AdmitKeepsLongestFit` | crates/cv_browser/src/paint_cache.rs:338-359 | an accepted entry is kept, in front of the longest most recent suffix that fits; list, map and sum stay exact |
| `PaintCache.AcceptKeeps` | crates/cv_browser/src/paint_cache.rs:255-279 | promotion and insertion keep list, sum, budget and cap |
| `PaintTiers.RunsStayExact` | crates/cv_browser/src/paint_cache.rs:197-417 | over every run the list is a duplicate-free ordering of the keys, the sum exact, budget and cap hold |
| `PaintTiers.SumIsExactIff` | crates/cv_browser/src/paint_cache.rs:346 | the sum stays exact in every run if and only if twice the budget is representable |
| `PaintTiers.TwoTierSafety` | crates/cv_browser/src/paint_cache.rs:228-417 | whatever a lookup returns was inserted under exactly that key since the last wipe, up to fields files drop |
| `PaintTiers.WipeIsFinalIff` | crates/cv_browser/src/paint_cache.rs:403-417 | no earlier frame is ever served after a wipe if and only if it deleted every file |
| `PaintTiers.LatestFrameServed` | crates/cv_browser/src/paint_cache.rs:228-368 | if wipes are complete and no insert, refused ones included, leaves an older frame behind, lookups always answer with the latest frame offered |
| `PaintTiers.InsertIsLastWordIff` | crates/cv_browser/src/paint_cache.rs:308-368 | an insert is the last word on its key if and only if it neither fails to write over a surviving older file nor is refused for its size while memory or a file holds an older frame |
| `PaintTiers.RefusedInsertServesOld` | crates/cv_browser/src/paint_cache.rs:318-320 | a small frame and then one over budget under the same key: the small one is still served, for every budget that accepts anything |
| `PaintTiers.WrittenSurvivesRestart` | crates/cv_browser/src/paint_cache.rs:360-368 | with the disk on, a written and kept frame answers after a restart, up to what files drop |
| `PaintTiers.NoDiskNoFiles` | crates/cv_browser/src/paint_cache.rs:243-250 | with the disk off no run touches or reads a file |
| `PaintRecency.ListIsByRecency` | crates/cv_browser/src/paint_cache.rs:197-368 | in every run the list is the order in which its keys were last inserted, hit or promoted |
| `PaintRecency.EvictedWereOlder` | crates/cv_browser/src/paint_cache.rs:205-214 | whoever is evicted was last used before everyone who stays |
| `PaintRecency.EvictionIsNeeded` | crates/cv_browser/src/paint_cache.rs:205-214 | the last used of those evicted would have exceeded the budget or been a 65th entry |
| `PaintRecency.UsedIsKept` | crates/cv_browser/src/paint_cache.rs:228-368 | a key just inserted, hit or promoted is in memory, which holds at most 64 frames within the budget |
| `PaintRecency.AcceptedIsServed` | crates/cv_browser/src/paint_cache.rs:308-347 | a frame just accepted is answered for unchanged, at a cost of four bytes a pixel and 64 KiB |
| `PaintTiers.Cache.Touch` | crates/cv_browser/src/paint_cache.rs:197-202 | the key moves from its place to the back of the list; a key that is not listed changes nothing |
| `PaintTiers.Cache.Evict` | crates/cv_browser/src/paint_cache.rs:205-214 | the loop computes the specified eviction |
| `PaintTiers.Cache.Cap` | crates/cv_browser/src/paint_cache.rs:352-359 | the loop computes the specified cap |
| `PaintTiers.Cache.AdmitEntry` | crates/cv_browser/src/paint_cache.rs:338-359 | replace or add, then evict, then cap |
| `PaintTiers.Cache.PromoteFromDisk` | crates/cv_browser/src/paint_cache.rs:255-279 | an entry over budget changes nothing, any other is admitted |
| `PaintTiers.Cache.InsertFrame` | crates/cv_browser/src/paint_cache.rs:308-368 | memory and files after an insert, for every outcome of the write and the disk eviction |
| `PaintTiers.Cache.LookupFrame` | crates/cv_browser/src/paint_cache.rs:228-250 | answer and state after a lookup from memory, from a file with the right embedded key, or a miss |
| `PaintTiers.Cache.WipeAll` | crates/cv_browser/src/paint_cache.rs:403-417 | memory is empty and only undeleted files remain |
| `AxTree.AxTree.AddNode` | crates/cv_a11y/src/lib.rs:287-303 | next id, linked under an existing parent, focus taken if marked; the tree stays valid |
| `AxTree.AxTree.SetFocus` | crates/cv_a11y/src/lib.rs:334-344 | the old mark is removed, the new one set if the node exists |
| `AxTree.AddedIsValid` | crates/cv_a11y/src/lib.rs:287-303 | ids stay 1 to n, children younger than parents, in order, with matching back links |
| `AxTree.ListedIff` | crates/cv_a11y/src/lib.rs:287-295 | a tree stays fully listed if and only if the named parent exists |
| `AxTree.FocusCoherentIff` | crates/cv_a11y/src/lib.rs:334-344 | focus pointer and marks stay coherent if and only if the id exists or nothing was focused |
| `AxTree.AddedCoherentIff` | crates/cv_a11y/src/lib.rs:298-300 | adding a node keeps them coherent if and only if it is not marked or nothing was focused |
| `AxTree.RootsUpTo` | crates/cv_a11y/src/lib.rs:313-322 | exactly the parentless nodes in id order |
| `AxTree.FromAx` | crates/cv_a11y/src/provider.rs:60-84 | faithful copies in breadth-first order, none twice, the guard against revisiting never needed |
| `AxTree.PublishedOnce` | crates/cv_a11y/src/provider.rs:60-89 | in a fully listed tree every node is published exactly once and found by its id |
| `AxTree.RootComesFirst` | crates/cv_a11y/src/provider.rs:60-66 | the root of a snapshot is its first node and the least id without a parent |
| `AxTree.NavigationAgreesIff` | crates/cv_a11y/src/provider.rs:107-128 | snapshot and tree navigation agree for every id and direction if and only if the tree is fully listed |
| `AxTree.NavigationIsConsistent` | crates/cv_a11y/src/uia.rs:426-447 | next and previous sibling are inverse; first and last child lead back to the parent and have no sibling beyond |
| `AxTree.ChildMovesById` | crates/cv_a11y/src/uia.rs:430-431 | first and last child are the least and greatest id whose parent is the node |
| `AxTree.SiblingMovesById` | crates/cv_a11y/src/uia.rs:432-446 | next and previous sibling are the next greater and next smaller id with that parent |
| `AxBuild.BuildSubtree` | crates/cv_a11y/src/build.rs:53-98 | the recursive builder computes the specified tree |
| `AxBuild.BuildAxTree` | crates/cv_a11y/src/build.rs:34-47 | the document node, then its children's subtrees |
| `AxBuild.BuiltGrows` | crates/cv_a11y/src/build.rs:53-98 | building a DOM node adds exactly its pruned form under the given parent, ids in document order, nothing else touched |
| `AxBuild.BuiltTree` | crates/cv_a11y/src/build.rs:34-98 | the tree read by its child lists is the document over the exposed elements, each under its nearest exposed ancestor; ids run in DOM preorder |
| `AxBuild.ListedIffShown` | crates/cv_a11y/src/build.rs:53-98 | the nodes are exactly the exposed elements that no metadata element encloses |
| `AxBuild.ChildrenAreNearest` | crates/cv_a11y/src/build.rs:53-98 | the children of a node are exactly the exposed elements below it with no exposed element between |
| `AxBuild.BuiltTreesPublish` | crates/cv_a11y/src/provider.rs:60-128 | for every DOM the snapshot holds each node once and navigates exactly as the tree |
| `AxBuild.BuiltFocusIff` | crates/cv_a11y/src/build.rs:34-98 | a built tree is focus-coherent if and only if at most one exposed element has the focused DOM id, so always when DOM ids are distinct |
| `Collation.StripsAccent` | crates/cv_browser/src/intl_data.rs:852-869 | each accented letter has its plain letter as base |
| `Collation.OneReading` | crates/cv_browser/src/intl_data.rs:852-869 | every string has exactly one reading without accents and capitals |
| `Collation.SortedByLetters` | crates/cv_browser/src/intl_data.rs:940-955 | strings whose readings differ are sorted by the first difference of the readings, whatever their accents and case |
| `Collation.ThenByAccents` | crates/cv_browser/src/intl_data.rs:956-962 | strings of one reading are sorted by the first difference of their lowercase forms |
| `Collation.ThenByCase` | crates/cv_browser/src/intl_data.rs:963-977 | strings of one lowercase form are sorted by the first difference in case, lowercase first |
| `Collation.AccentedLetterPlace` | crates/cv_browser/src/intl_data.rs:852-868 | an accented letter, in whatever case, stands after its plain letter and before the next one |
| `Collation.NumericSortsByLetters` | crates/cv_browser/src/intl_data.rs:907-918 | outside digit runs the numeric order is by readings, then by the characters themselves |
| `Collation.NumericPrefixFirst` | crates/cv_browser/src/intl_data.rs:920 | a string comes before its continuations |
| `Collation.RunsCompareByValue` | crates/cv_browser/src/intl_data.rs:882-906 | digit runs compare by numeric value, then by length |
| `Collation.DigitRunsByValue` | crates/cv_browser/src/intl_data.rs:874-922 | where two strings first differ in a digit run, its value decides, then its length, then what follows |
| `Collation.NumericIsTotalOrder` | crates/cv_browser/src/intl_data.rs:874-922 | antisymmetric, transitive, equal only for identical strings |
| `Collation.CollatorIsTotalOrder` | crates/cv_browser/src/intl_data.rs:930-979 | the three levels together are antisymmetric, transitive, equal only for identical strings |
| `Collation.NumericCompare` | crates/cv_browser/src/intl_data.rs:874-922 | the index loops compute the token-wise order |
| `Collation.CollatorCompare` | crates/cv_browser/src/intl_data.rs:930-979 | the loops compute the three-level order, or the numeric one on request |
| `X86.ParseLayout` | crates/cv_asm/src/lib.rs:109-131 | a parser after the Intel SDM recovers prefix, REX, opcode, ModR/M, SIB, displacement, immediate and VEX fields, whatever follows |
| `Assembler.MemFormMeans` | crates/cv_asm/src/lib.rs:742-752 | base plus displacement, with the SIB byte for RSP and R12, denotes that address for every base |
| `Assembler.IndexedFormMeans` | crates/cv_asm/src/lib.rs:781-811 | base, index, scale and displacement denote that address for every index but RSP |
| `Assembler.FieldsMean` | crates/cv_asm/src/lib.rs:109-901 | the fields of every instruction the emitter accepts mean that instruction |
| `Assembler.DecodeEncode` | crates/cv_asm/src/lib.rs:109-901 | an encoded instruction is read back exactly wherever it stands |
| `Assembler.RetargetEncodes` | crates/cv_asm/src/lib.rs:249-264 | a new displacement changes only the last four bytes of a branch |
| `Assembler.X64IsLawful` | crates/cv_asm/src/lib.rs:109-926 | the instruction set satisfies everything the stream results need |
| `Assembler.DisassembleEmitted` | crates/cv_asm/src/lib.rs:109-901 | for every instruction list, disassembly of its code gives the list |
| `Assembler.DisassembleRun` | crates/cv_asm/src/lib.rs:249-926 | after any run of emissions and patches, disassembly gives the emitted instructions and every patched branch leads to its last target |
| `CodeStream.DisplacementExactIff` | crates/cv_asm/src/lib.rs:268-274 | the wrapped displacement is exact if and only if the distance has 32 bits; below 2^31 nothing overflows |
| `CodeStream.PatchIsRetarget` | crates/cv_asm/src/lib.rs:922-926 | overwriting four bytes of code is retargeting the branch in the list |
| `CodeStream.PatchMovesNothing` | crates/cv_asm/src/lib.rs:268-274 | a patch keeps length, boundaries and every other instruction |
| `CodeStream.StepKeeps` | crates/cv_asm/src/lib.rs:249-274 | every emission or patch keeps the code equal to its list and the targets resolved |
| `CodeStream.RunsDisassemble` | crates/cv_asm/src/lib.rs:249-926 | the run result for any format with these laws |
| `Emitter.SlotAddressIff` | crates/cv_asm/src/lib.rs:910-917 | slot addresses are exact if and only if the slot is below 2^28, and alias exactly 2^29 apart |
| `Emitter.Emitter.PutRex` | crates/cv_asm/src/lib.rs:109-126 | a REX byte with exactly the given bits, omitted if there are none |
| `Emitter.Emitter.PutModRM` | crates/cv_asm/src/lib.rs:128-131 | masks and packs the three fields |
| `Emitter.Emitter.PutMemForm` | crates/cv_asm/src/lib.rs:742-752 | ModR/M, SIB where needed, displacement |
| `Emitter.Emitter.PutIndexedForm` | crates/cv_asm/src/lib.rs:795-811 | ModR/M, SIB, displacement |
| `Emitter.Emitter.EmitAlu` | crates/cv_asm/src/lib.rs:134-138 | appends the register form of mov, add, sub, cmp, xor, and, or, test |
| `Emitter.Emitter.EmitWiden` | crates/cv_asm/src/lib.rs:170-175 | appends imul, movsxd or movzx with the destination in the reg field |
| `Emitter.Emitter.EmitImm` | crates/cv_asm/src/lib.rs:148-153 | appends mov, add, sub or cmp with a 32-bit immediate |
| `Emitter.Emitter.EmitMovImm64` | crates/cv_asm/src/lib.rs:141-145 | appends mov with a 64-bit immediate |
| `Emitter.Emitter.EmitShift` | crates/cv_asm/src/lib.rs:476-500 | appends shl, shr or sar by an immediate |
| `Emitter.Emitter.EmitUnary` | crates/cv_asm/src/lib.rs:503-525 | appends neg or idiv |
| `Emitter.Emitter.EmitCqo` | crates/cv_asm/src/lib.rs:512-515 | appends cqo |
| `Emitter.Emitter.EmitPush` | crates/cv_asm/src/lib.rs:216-221 | appends push |
| `Emitter.Emitter.EmitPop` | crates/cv_asm/src/lib.rs:224-229 | appends pop |
| `Emitter.Emitter.EmitBare` | crates/cv_asm/src/lib.rs:232-244 | appends ret, nop or int3 |
| `Emitter.Emitter.EmitSetCc` | crates/cv_asm/src/lib.rs:873-883 | appends setcc, always with a REX byte |
| `Emitter.Emitter.EmitGprMem` | crates/cv_asm/src/lib.rs:734-776 | appends a 64-bit load, store, lea, add, sub or cmp with memory |
| `Emitter.Emitter.EmitLoad32` | crates/cv_asm/src/lib.rs:768-770 | appends the 32-bit load |
| `Emitter.Emitter.EmitIndexed` | crates/cv_asm/src/lib.rs:781-833 | appends the indexed load or store; RSP as index and other scales are refused |
| `Emitter.Emitter.EmitSpill` | crates/cv_asm/src/lib.rs:910-912 | appends the store to a stack slot, truncated address included |
| `Emitter.Emitter.EmitReload` | crates/cv_asm/src/lib.rs:915-917 | appends the load from a stack slot |
| `Emitter.Emitter.EmitSse` | crates/cv_asm/src/lib.rs:285-300 | appends a scalar SSE instruction between registers |
| `Emitter.Emitter.EmitSseMem` | crates/cv_asm/src/lib.rs:303-448 | appends an SSE load or store |
| `Emitter.Emitter.PutVex` | crates/cv_asm/src/lib.rs:633-647 | three-byte VEX with inverted bits, opcode and registers |
| `Emitter.Emitter.EmitVex` | crates/cv_asm/src/lib.rs:650-670 | appends vaddsd, vsubsd, vmulsd, vdivsd or vmovsd |
| `Emitter.Emitter.EmitVMovq` | crates/cv_asm/src/lib.rs:675-688 | appends vmovq |
| `Emitter.Emitter.EmitVUcomisd` | crates/cv_asm/src/lib.rs:693-705 | appends vucomisd |
| `Emitter.Emitter.EmitVZeroUpper` | crates/cv_asm/src/lib.rs:710-714 | appends vzeroupper |
| `Emitter.Emitter.EmitCallReg` | crates/cv_asm/src/lib.rs:843-849 | appends call through a register |
| `Emitter.Emitter.EmitBranch` | crates/cv_asm/src/lib.rs:249-264 | appends jmp, jcc or call with displacement zero and returns the offset at which that branch of the list has its displacement |
| `Emitter.Emitter.PatchRel32` | crates/cv_asm/src/lib.rs:268-274 | overwrites exactly the displacement, towards the end of the code; at the offset of a branch and within 32 bits this retargets that branch in the list |
| `Emitter.Emitter.PatchRel32To` | crates/cv_asm/src/lib.rs:922-926 | overwrites exactly the displacement, towards a given offset, with the same effect on the list |
| `Emitter.OffsetsStayGood` | crates/cv_asm/src/lib.rs:249-274 | an offset returned by a branch belongs to it through all later emissions and patches |
| `Emitter.OffsetsApart` | crates/cv_asm/src/lib.rs:249-274 | one offset belongs to one branch |
| `Emitter.ValidDisassembles` | crates/cv_asm/src/lib.rs:109-926 | whatever calls led to a valid emitter, its code disassembles to the instructions emitted and every patched branch leads to its last target |
| `InstructionBytes.AluCode` | crates/cv_asm/src/lib.rs:134-462 | the literal bytes of register arithmetic, for all operands |
| `InstructionBytes.ImmCode` | crates/cv_asm/src/lib.rs:148-207 | the literal bytes of arithmetic with an immediate, for all operands |
| `InstructionBytes.MovImm64Code` | crates/cv_asm/src/lib.rs:141-145 | the literal bytes of a 64-bit immediate load, for all operands |
| `InstructionBytes.ShiftCode` | crates/cv_asm/src/lib.rs:476-500 | the literal bytes of shifts, for all operands |
| `InstructionBytes.UnaryCode` | crates/cv_asm/src/lib.rs:503-525 | the literal bytes of neg and idiv, for all operands |
| `InstructionBytes.MovsxdCode` | crates/cv_asm/src/lib.rs:464-472 | the literal bytes of movsxd, for all operands |
| `InstructionBytes.WidenCode` | crates/cv_asm/src/lib.rs:170-176 | the literal bytes of imul and movzx, for all operands |
| `InstructionBytes.StackCode` | crates/cv_asm/src/lib.rs:216-229 | the literal bytes of push and pop, for all operands |
| `InstructionBytes.BareCode` | crates/cv_asm/src/lib.rs:232-244 | the literal bytes of ret, nop, int3 and cqo, for all operands |
| `InstructionBytes.SetCcCode` | crates/cv_asm/src/lib.rs:873-883 | the literal bytes of setcc, for all operands |
| `InstructionBytes.CallRegCode` | crates/cv_asm/src/lib.rs:843-849 | the literal bytes of a call through a register, for all operands |
| `InstructionBytes.BranchCode` | crates/cv_asm/src/lib.rs:249-264 | the literal bytes of jumps and calls, for all operands |
| `InstructionBytes.GprMemCode` | crates/cv_asm/src/lib.rs:734-776 | the literal bytes of 64-bit memory forms, for all operands |
| `InstructionBytes.Load32Code` | crates/cv_asm/src/lib.rs:768-770 | the literal bytes of the 32-bit load, for all operands |
| `InstructionBytes.IndexedCode` | crates/cv_asm/src/lib.rs:781-833 | the literal bytes of indexed loads and stores, for all operands |
| `InstructionBytes.SseCode` | crates/cv_asm/src/lib.rs:285-300 | the literal bytes of SSE instructions, for all operands |
| `InstructionBytes.SseMemCode` | crates/cv_asm/src/lib.rs:303-448 | the literal bytes of SSE loads and stores, for all operands |
| `InstructionBytes.VexCode` | crates/cv_asm/src/lib.rs:650-670 | the literal bytes of three-operand VEX instructions, for all operands |
| `InstructionBytes.VexPairCode` | crates/cv_asm/src/lib.rs:675-714 | the literal bytes of the other VEX instructions, for all operands |

## Left out

- Thread pool: panicking tasks, and how likely a schedule is; `PoolShutdown` starts where the queues are empty after `shutdown`, with no further calls and no spurious wakeups.
- PoolProtocol.NoLostWakeup: speaks of states in which no poster stands between its unlock and its notification, since in between the wakeup is still to come.
- Slab: `clear`, `get_mut`, `values_mut` and the unrelated bump `Arena`; runs are those without `clear`.
- Timers.Scheduler.DrainDueSplit: is stated for queues on which the loop ends; `Timers.DrainHaltsIff` says exactly which those are, and runs contain only such drains.
- TimerRuns.QueueIdsDistinct: is about runs with a monotone clock, without `requeue` and before ids wrap at 2^32; `TimerRuns.RequeueIsSafeIff` says exactly when a `requeue` keeps it.
- JavaScript numbers are 64-bit patterns, functions carry no content, and insertion order and identity of shared values are not modelled; `Value` trees are finite.
- Directory handling, atomic renames, file names and quota accounting of the IndexedDB, Cache Storage and OPFS stores.
- Audio: waveforms, playback-rate cursors, decoding and device output. A generator is any state with a sample and a step per frame; gain changes between quanta are new graphs.
- Paint cache: how keys are hashed from the DOM, the on-disk field list and its codec (a file is a key and the kept part of a frame), disk eviction by modification time (any set of files may vanish after a write), and concurrent file access.
- Accessibility: role tables, accessible names, states and UIA properties (one opaque value per node), and overflow of 32-bit node ids.
- Collation: the Unicode lowercase tables. The numeric comparator needs that ASCII digits lowercase to themselves and nothing else to them.
- Number grouping, date formats and plural rules of the same file: finite tables and string padding.
- Emitter: execution semantics of the instructions. The decoder covers the opcodes the emitter uses, with one legacy prefix and all ModR/M, SIB and displacement forms.
- Emitter.Emitter.EmitSpill: multiplies without the debug-build overflow panic of `slot * 8`.
- Opus, AAC and MP3 decoding, the service worker, WASAPI and COM glue, logging and the command line.
