# Verification of kith's replication, replay and lifecycle cores

This project models the parts of kith whose correctness depends on many steps at once, and proves
what those parts promise over every run, every interleaving or every input.

- **Movement core and replication pipeline.** Workers apply inputs to actors under stripe locks,
  publish artifacts, mark cells dirty; per-tick flushes allocate epochs and publish cells to the
  fabric; the gateway cache re-reads the cells the fabric flagged (`Spatial`, `Coherence`,
  `CacheMirror`, `Handlers`). The native core does the same with open-addressed tables and generation stamps
  (`Circular`, `Probing`, `EpochTable`, `DirtySet`, `DirtyFlush`, `DirtyServe`, `DirtyLoss`,
  `DirtyCounts`, `RecordRing`), keeps a session's subscription window on its actor (`Window`, `WindowCounts`), and
  takes its locks in one order (`LockOrder`, `Workers`).
- **Replay.** A strict binary record format with an ordering law (`Struct`, `Canonical`,
  `ReplayFormat`, `ReplayReader`, `ReplayWriter`, `ReplayRoundTrip`, `ReplayDocuments`, `ReplayLaw`,
  `ReplayFraming`, `ReplayExact`, `WireLayout`), the tick-boundary recorder (`ReplayRecorder`, `RecorderRuns`), and
  the replayer (`ActorMap`, `ActorStore`, `HashLayout`, `ReplayLoop`, `ReplayOps`, `BuiltinModel`,
  `RecordReplay`).
- **Server lifecycle** (`Lifecycle`), **control event ring** (`EventBus`, `EventStreams`,
  `StreamProgress`), **tick deadlines** (`Deadline`) and **replication batch readers** (`BatchReaders`,
  `BatchLayout`).

`dafny verify dfyconfig.toml` checks everything.

## How the source is modelled

- A protocol between threads is a step machine: what the source does under one hold of a lock, or in
  one atomic load or store, is one step, and a run is any interleaving of steps. Theorems about runs
  quantify over all of them. Acquire and release operations are sequentially consistent steps.
- Objects that update fields in place are classes whose methods are tied to specification functions
  (`Handlers.SpatialHandlers`, `EpochTable.Table`, `DirtySet.Set`, `RecordRing.Ring`,
  `ReplayWriter.ReplayWriter`, `ReplayRecorder.ReplayRecorder`, `ActorStore.ActorStore`,
  `EventBus.EventBus`, `Window.Session`); offset loops are methods with invariants. What the source
  promises is then proved about those functions.
- Integers are unbounded except where the width matters: 32-bit epochs, generations and ring
  distances, 64-bit positions, cell sizes and deadlines, and every field of the wire formats.
- A power-of-two mask is a remainder; a remainder by a ring's capacity is written as a conditional
  subtraction, which `Circular.Remainders` shows to be the same.
- In the handler set the sim model is an uninterpreted function per actor that may fail. The replayer's
  model also has a state of its own, any type at all, that an input may change and a step reads;
  `BuiltinModel.Builtin` is the shape of the two built-in models. The fabric and the gateway cache
  are modelled from `src/fabric/fabric.c` and `src/gateway/cache/cache.c` as far as the pipeline sees
  them: epoch-checked publish with fan-out to pending cells, drain, subscribe, unsubscribe and
  re-snapshot. The metadata JSON codec is a parameter; laws that need it assume that loading what was
  dumped gives it back.
- Failures of collaborators are explicit arguments or events: a refused artifact, a fabric error, a
  failed snapshot, a refused window operation, a provider's state of the wrong length.
- Replay events come from loaders that range-check actor ids, so an id is never wrapped by the C
  struct it is stored in.

## Where the code does not do what is said of it

Each of these is a lemma with the exact condition or a general counterexample.

- A fabric publish that fails for any reason but a stale epoch makes the flush forget cells: the
  offered one when the error is suppressed, the rest of the snapshot too when it is raised. A failed
  cache snapshot keeps the old contents. The cells lost that way over a run, less those a later mark,
  publish, snapshot or eviction makes up for, are the only ones that can stay stale
  (`Coherence.RunCoherentButLost`); one failing publish is enough to lose an update for good
  (`Coherence.FailedPublishLosesUpdate`).
- The native dirty set is said to hold a dirtied cell in one slot. A mark during a drain can put it
  into two, and a flush then offers it twice; `DirtyCounts.OnceExactly` says exactly when
  (`DirtyCounts.InterleavedMarkDoubles`, `DirtyCounts.PublishedTwice`). A flush that returns early
  strands slots for good, and nothing else does (`DirtyLoss.StrandsExactly`,
  `DirtyLoss.RunStrandsExactly`); a mark that lands on a stranded slot changes nothing
  (`DirtyServe.MarkLeaves`), a cell whose probe path is stranded up to its slot is lost for good
  (`DirtyLoss.FailedPublishLosesCell`, `DirtyLoss.LostForever`), and the flush in which the generation
  wraps loses all marks (`DirtyLoss.WrapLosesMarks`).
- Native flushes are said not to overlap, but they are called from tick callbacks that may. No mark is
  lost then (`DirtyServe.NoMarkLost`), yet the next flush to begin serves it exactly when the mark left
  the cell in a slot of the open generation (`DirtyServe.NextFlushServesExactly`,
  `DirtyServe.OverlapOutlives`).
- Zero is said to be an unambiguous failure result of the epoch bump. It also is the successor of the
  largest epoch (`EpochTable.ZeroExactly`).
- The window diff is said to need at most six operations. The neighborhood is three-dimensional, and a
  step along one axis needs twice (2r + 1) squared (`WindowCounts.StepCost`); six are enough exactly at
  radius zero or without a crossing (`WindowCounts.SixOperationsExactly`).
- The native floor division is the floor exactly for cell sizes below 2^63 (`Window.FloorDivExact`), and
  the native window is the neighborhood of the true cell exactly when that whole neighborhood fits
  32-bit coordinates (`Window.NativeWindowExact`).
- A second login is said to re-seed the same neighborhood. Populating only adds, so the window is on the
  actor afterwards exactly when it held nothing outside (`Window.LoginTracksExactly`).
- The native movement transaction is said to leave the stored state untouched when the publish fails.
  Like the Python one it stores first, and the window then stays behind
  (`Window.SkippedTracksExactly`).
- An actor's stripe is said to guard its state end to end. Every call keeps to that, and to the other
  locks, but the Python spawn of a principal that already has an actor, which reads the actor under the
  control lock alone (`LockOrder.UnguardedExactly`, `Workers.KnownSpawnOverlaps`); without such a call no
  two workers ever touch the same thing at once (`Workers.TouchesExclude`).
- The writer accepts two expectations for one tick, which the reader refuses
  (`ReplayRoundTrip.SessionReadsBack`). The reader ignores the flags of META records
  (`ReplayFraming.FlagsRefusedExactly`), reads a file that ends inside a long declared header as an
  empty record (`ReplayFraming.CutDocument`), and lets other records stand between a tick and its
  checkpoints (`ReplayFraming.CheckpointMayTrail`).
- The recorder empties its buffer before it writes, so a refused tick loses its events
  (`RecorderRuns.FlushLosesExactly`).
- The run-exited event is said to be set on every return path of `run`. It is not when registering the
  signal pump fails, and then no other thread can ever close the server
  (`Lifecycle.EventSetExactly`, `Lifecycle.StrandedNeverCloses`). Each half of the documented calling
  discipline is needed (`Lifecycle.SecondRunDestroys`, `Lifecycle.NestedCloseDestroys`).
- The event ring's release does not check that a cursor indexes the ring: the tail leaves the ring
  exactly when a cursor at or past the capacity passes the guard (`EventBus.EventBus.Release`,
  `EventBus.PassesExactly`). No caller passes one (`EventStreams.StreamsExact`). Its 32-bit distances
  are right for all positions exactly up to a capacity of 2^31 (`EventBus.Distance32Exact`).
- An event whose line does not fit the write buffer is passed over without notice; streams get exactly
  the lines that fit (`EventStreams.StreamsExact`).

## Model

| member | source | states |
|---|---|---|
| Coherence.RunKeepsInv | examples/spatial/handlers.py:825-990 | every fault-free interleaving of transactions, overlapping flushes, subscriptions, drains and refreshes keeps the invariant: stripes exclude, the cell map names the artifact's cell, the fabric never runs ahead of allocated epochs, and stale cells are covered |
| Coherence.RunCoherent | examples/spatial/handlers.py:825-990 | in every reachable state a cached cell that does not list exactly the artifacts now in it is dirty, about to be marked, in an unpublished snapshot the fabric will accept, pending, or drained and not yet re-read |
| Coherence.QuiescentIsFresh | examples/spatial/handlers.py:943-990 | once nothing is in flight every cached cell lists exactly the artifacts in it, each as it is in the sim store, so refused stale epochs never lose an update |
| Coherence.OneTickConverges | examples/spatial/handlers.py:982-990 | after any fault-free run, one uncontended flush and one gateway pass make every cached cell list exactly its artifacts |
| Coherence.OfferStruct | src/fabric/fabric.c:472-569 | a publish, failed or not, keeps the fabric's epoch of every cell at or below the last allocated one |
| Coherence.OfferCovers | src/fabric/fabric.c:472-569 | an accepted publish hands the cell over to pending, a stale one had nothing left to hand over |
| Coherence.PublishArtifactCovers | examples/spatial/handlers.py:851-861 | relocating an artifact changes two cells, and the worker owes both until it has marked them |
| Coherence.RecordCellCovers | examples/spatial/handlers.py:862 | noting the new cell keeps the departed cell owed |
| Coherence.MarkCovers | examples/spatial/handlers.py:863-882 | marking turns what the worker owes into dirty cells |
| Coherence.FlushBeginCovers | examples/spatial/handlers.py:982-984 | snapshot-and-clear moves every dirty cell into the flush, none is dropped |
| Coherence.BumpCovers | examples/spatial/handlers.py:985-988 | with a fresh epoch the flush still owes the cell: the fabric will accept it or a later flush has it |
| Coherence.DrainCovers | src/fabric/fabric.c:1222-1281 | a drain moves pending cells to the reactor without losing any |
| Coherence.RefreshCovers | src/gateway/cache/cache.c:619-700 | a re-snapshot makes its cell equal the store, and even a failed one disturbs no other cell's cover |
| Coherence.SubscribeSnapshotCovers | src/gateway/cache/cache.c:556-586 | a first snapshot taken after the interest is registered misses no update |
| Coherence.ResubscribeCovers | src/gateway/cache/cache.c:535-555 | further interest in a tracked cell re-reads an empty entry and never makes a cell stale |
| Coherence.UnsubscribeCovers | src/gateway/cache/cache.c:588-617 | evicting an entry leaves every other cell's cover in place |
| Coherence.RunCoherentButLost | examples/spatial/handlers.py:825-990 | for every run, faults included: a cached cell that differs from the sim store is covered, unless a failed publish or snapshot of the run lost it and no later mark, accepted publish, good snapshot or eviction made up for it |
| Coherence.QuiescentIsFreshButLost | examples/spatial/handlers.py:943-990 | once nothing is in flight, every cached cell the run has not lost equals the store, whatever faults it had |
| Coherence.StepKeeps | examples/spatial/handlers.py:985-990 | one step of any kind, faults included, keeps every cell covered that is not lost after it |
| Coherence.FaultCovers | examples/spatial/handlers.py:985-990 | a failing publish leaves every cell covered but the ones it makes the flush forget: the offered one if its epoch was good, and the rest of the snapshot if the error is raised |
| Coherence.FailedPublishLosesUpdate | examples/spatial/handlers.py:985-990 | one failing publish loses an update for good: quiescent, yet the cached cell misses the spawned actor |
| CacheMirror.QuiescentListsActors | examples/spatial/handlers.py:825-990 | for every run, faults included: once nothing is in flight, a cached cell the run has not lost lists an actor if and only if the actor's position lies in the cell, and with the state the handlers hold, but for actors whose last publish was refused |
| CacheMirror.OneTickListsActors | examples/spatial/handlers.py:982-990 | after any run without faults or refusals, one flush and one gateway pass make every cached cell list exactly the actors positioned in it, as the handlers hold them |
| CacheMirror.RunSame | examples/spatial/handlers.py:825-882 | over any run an actor's one artifact is its stored state, in the cell of its stored position, unless a worker is between the store and the publish or its last publish was refused |
| CacheMirror.EpochsCount | examples/spatial/handlers.py:985-988 | under every interleaving a cell's last epoch is how often flushes allocated one for it: 1, 2, 3, without gap or repetition |
| CacheMirror.RefreshReads | src/gateway/cache/cache.c:619-700 | a good re-snapshot takes the cell off the drained ones and makes its entry, and no other, list the cell's artifacts as they are |
| CacheMirror.FirstSnapshotReads | src/gateway/cache/cache.c:556-586 | a good first snapshot adds an entry that lists the cell's artifacts as they are |
| CacheMirror.ResubscribeReads | src/gateway/cache/cache.c:535-555 | further interest re-reads an empty entry and leaves any other as it is |
| CacheMirror.UnsubscribeEvicts | src/gateway/cache/cache.c:588-617 | eviction removes the entry and its pending flag and nothing else |
| Handlers.SpatialHandlers.PublishLocked | examples/spatial/handlers.py:825-882 | relocates the one artifact, records the cell, marks the arrival cell and a different departed cell; nothing on a refused artifact |
| Handlers.SpatialHandlers.Apply | examples/spatial/handlers.py:523-575 | a spawn stores a fresh actor at the origin, a movement the model's step of the actor, a teleport the actor at the target with its height, tick and flags and no velocity; every other actor stays; a publish that is not refused puts that state into the cell of its position; nothing changes when the actor or the model call is missing |
| Handlers.SpatialHandlers.FlushDirtyCells | examples/spatial/handlers.py:982-990 | clears the dirty set and offers each cell its next epoch in iteration order, up to the first raised error |
| Handlers.Server.PublishCellProduct | src/fabric/fabric.c:472-569 | a lower epoch or a failure changes nothing; otherwise the cell's epoch is replaced, its sequence number grows by one and is returned, its actor count is read from the sim store, and a subscribed cell is flagged as pending |
| Handlers.TransactionRuns | examples/spatial/handlers.py:508-575 | left alone, the lock-protected sections of a transaction run in the step machine to exactly the method's commit |
| Handlers.FlushRuns | examples/spatial/handlers.py:982-990 | left alone, the sections of a flush run in the step machine to exactly the method's effect |
| Probing.FullExactly | examples/spatial/native_core.c:202-222 | a probe finds no slot if and only if every slot holds another cell |
| Probing.ChainedFinds | examples/spatial/native_core.c:228-249 | with no gap before any entry on its probe path, a stored cell is found where it is |
| Probing.ChainedUnique | examples/spatial/native_core.c:228-249 | then no cell is stored twice |
| Probing.InsertKeepsChained | examples/spatial/native_core.c:228-249 | insertion leaves no gap on any probe path |
| EpochTable.Table.BumpCell | examples/spatial/native_core.c:228-249 | the probe loop computes the specified bump in place |
| EpochTable.BumpRefines | examples/spatial/native_core.c:228-249 | below the wrap a bump is a bump of a plain map from cell to epoch, other cells untouched |
| EpochTable.BumpsCountUp | examples/spatial/native_core.c:228-249 | in any sequence of bumps that fits the table, the k-th result is how often its cell was bumped so far: 1, 2, 3, without gap or repetition |
| EpochTable.ZeroExactly | examples/spatial/native_core.c:224-249 | the result is zero if and only if a new cell meets a full table or the cell's epoch wraps |
| DirtySet.Set.MarkCell | examples/spatial/native_core.c:202-222 | the probe loop marks in place or counts the drop, as specified |
| DirtySet.Set.BeginFlush | examples/spatial/native_core.c:976-987 | advances the generation, clearing every stamp when it wraps |
| DirtySet.Set.ClaimSlot | examples/spatial/native_core.c:993-1000 | claims a slot if and only if it carries the drained generation, and frees it |
| DirtyFlush.AnyRunFair | examples/spatial/native_core.c:954-1034 | every run of marks and any number of overlapping flushes, early returns included, keeps no stamp newer than the open generation and leaves no slot of a running flush behind it |
| DirtyFlush.RunGood | examples/spatial/native_core.c:954-1034 | every run without early returns also keeps every stamp either the open generation or that of a running flush that has not passed the slot |
| DirtyFlush.GoodExactly | examples/spatial/native_core.c:954-1034 | the second invariant is the first with no slot stranded |
| DirtyServe.NoMarkLost | examples/spatial/native_core.c:202-222 | after any history, early returns included, a mark neither counted as overflow nor landing on a stranded slot is followed by a claim of its cell, then an epoch bump, then a publish attempt, all after the mark, once the flushes running at the mark and the next one to begin have completed, however marks and other flushes, failing ones included, interleave |
| DirtyServe.MarkLeaves | examples/spatial/native_core.c:202-222 | an undropped mark changes nothing when it lands on a stranded slot, and otherwise leaves its cell in the open generation or ahead of a running flush |
| DirtyServe.FlushServesExactly | examples/spatial/native_core.c:954-1034 | a flush that completes claims, bumps and offers a cell if and only if the cell held a slot of the open generation when it began, whatever marks and other flushes do meanwhile |
| DirtyServe.AloneServesExactly | examples/spatial/native_core.c:954-1034 | when only that flush moves and the cell is not marked again, the cell is served at all if and only if it held such a slot |
| DirtyServe.NextFlushServesExactly | examples/spatial/native_core.c:202-222 | after any history the next flush to begin serves a mark if and only if the cell already had a slot of the open generation or the mark took an empty one |
| DirtyServe.NextFlushServes | examples/spatial/native_core.c:954-1034 | when flushes neither overlap nor return early, the end of the next flush to begin is enough for every mark that is not swallowed |
| DirtyServe.OverlapOutlives | examples/spatial/native_core.c:954-1034 | with a table of any size, a mark of a cell an older flush has not reached outlives a newer flush from beginning to end |
| DirtyCounts.TakesExactly | examples/spatial/native_core.c:202-222 | a mark takes a slot if and only if an empty slot comes before the first one that holds the cell |
| DirtyCounts.StockConserved | examples/spatial/native_core.c:954-1034 | over any run in which a generation's flush does not return early, whatever other flushes do, its offers made plus the one in hand plus slots still to be drained grow by exactly the marks that took a slot |
| DirtyCounts.OnceExactly | examples/spatial/native_core.c:195-222 | a flush that has ended, after any run with early returns of other flushes, offered the cell as often as marks took a slot for it, and at most once if and only if no mark of its generation met an empty slot before the one the cell already had |
| DirtyCounts.DoubledIsOfferedTwice | examples/spatial/native_core.c:989-1031 | a cell with two slots of a generation is offered at least twice by that generation's flush, unless it returns early |
| DirtyCounts.InterleavedMarkDoubles | examples/spatial/native_core.c:195-222 | two cells with one home slot and a mark during a drain give the cell two slots of the new generation |
| DirtyCounts.PublishedTwice | examples/spatial/native_core.c:989-1031 | whatever follows, that cell is then offered twice by one flush |
| DirtyCounts.OfferedPerSlot | examples/spatial/native_core.c:989-1031 | a flush that does not return early offers a cell as often as its generation holds slots for it when it begins |
| DirtyCounts.ExactlyOnce | examples/spatial/native_core.c:954-1034 | while no mark interleaves a drain and no flush returns early, a flush offers each marked cell exactly once and no other |
| DirtyLoss.WrapLosesMarks | examples/spatial/native_core.c:976-987 | a flush takes over a marked cell if and only if the generation does not wrap, and a wrap empties every slot |
| DirtyLoss.StrandsExactly | examples/spatial/native_core.c:1008-1029 | in any state a run reaches, a slot is stranded after a step if and only if it was or the step ends a flush early, on a full epoch table or a failed publish, and the slot carries that flush's generation |
| DirtyLoss.RunStrandsExactly | examples/spatial/native_core.c:954-1034 | over any run a slot is stranded if and only if it was at first or some early return of the run stranded it |
| DirtyLoss.HealedExactly | examples/spatial/native_core.c:954-1034 | a reached state obeys the invariant of runs without early returns if and only if no early return left a slot of its flush behind |
| DirtyLoss.LostForever | examples/spatial/native_core.c:202-222 | once a cell's only slot and all before it on its probe path are stranded, no run of marks and flushes ever claims the cell again |
| DirtyLoss.FailedPublishLosesCell | examples/spatial/native_core.c:1008-1029 | from the initial state, one failing publish of a cell loses the cell whose home is the next slot |
| RecordRing.Ring.AppendRecord | examples/spatial/native_core.c:446-459 | appends to the buffered records, or drops and counts when 65536 are buffered |
| RecordRing.Ring.DrainRecords | examples/spatial/native_core.c:570-588 | hands out the oldest records up to the limit and says whether some of the snapshot are left |
| RecordRing.RecordsConserved | examples/spatial/native_core.c:440-588 | over any history, accepted records are drained exactly once in append order or still buffered, appends equal accepted plus dropped, occupancy never exceeds the capacity |
| RecordRing.DrainExactly | examples/spatial/native_core.c:570-588 | a drain hands out exactly the lesser of the limit and what is buffered, oldest first |
| RecordRing.DrainsEmpty | examples/spatial/native_core.c:570-588 | enough drains with a positive limit hand out everything accepted, in append order |
| Window.FloorDivExact | examples/spatial/native_core.c:159-167 | the division is the true floor on every 64-bit position if and only if the cell size is below 2^63 |
| Window.CoordinateExact | examples/spatial/native_core.c:159-178 | the cell coordinate is the floor if and only if the floor fits 32 bits |
| Window.FillNeighborhood | examples/spatial/native_core.c:325-347 | the triple loop fills the buffer with the neighborhood in 32-bit coordinates and never exceeds 125 entries |
| Window.NeighborhoodIsNear | examples/spatial/native_core.c:324-347 | it lists exactly the cells within Chebyshev distance of the center |
| Window.NeighborhoodSize | examples/spatial/native_core.c:325-347 | it has (2r + 1) cubed entries |
| Window.KeyIn | examples/spatial/native_core.c:349-363 | the scan finds a key if and only if it is among the first entries |
| Window.DiffWindow | examples/spatial/native_core.c:371-405 | performs the removals, then the additions, up to the first refused operation |
| Window.PerformExactly | examples/spatial/native_core.c:371-405 | exactly the operations before the first refused one take effect |
| Window.DiffTracksExactly | examples/spatial/native_core.c:371-405 | an unrefused diff leaves the window on the arrival neighborhood if and only if it held what both neighborhoods share and nothing outside both |
| Window.SkippedTracksExactly | examples/spatial/native_core.c:529-553 | a move that skips the diff (another session, the control plane, a teleport, a failed publish) keeps the window on the actor if and only if the cell does not change |
| Window.LoginTracksExactly | src/gateway/session/session.c:870-920 | a login, first or later, puts the window on the actor's cell if and only if what the session held lies inside the neighborhood and every refused cell was held already |
| Window.WindowTracks | examples/spatial/native_core.c:503-553 | from then on, in the Python and in the native coordinates, the window equals the neighborhood of the stored position's cell after every move, when window operations succeed and no move that skips the diff crosses a cell |
| Window.NativeWindowExact | examples/spatial/native_core.c:159-178 | after any such native run the window is the neighborhood of the true floor cell if and only if that neighborhood fits 32 bits, for cell sizes below 2^63 |
| WindowCounts.OperationCount | examples/spatial/native_core.c:371-405 | a diff issues exactly twice the cube of 2r + 1 less the box the two neighborhoods share, for every radius and pair of cells |
| WindowCounts.SixOperationsExactly | examples/spatial/native_core.c:365-370 | at most six operations if and only if the radius is zero or there is no crossing |
| WindowCounts.StepCost | examples/spatial/native_core.c:365-370 | a step to the next cell along an axis issues two faces of operations |
| LockOrder.CallsOrdered | examples/spatial/handlers.py:377-398 | every branch of every call, Python and native, takes control, then stripes ascending, then bookkeeping, releases in reverse, and holds nothing between calls; and unless it spawns a known principal, it touches actors, bookkeeping, bindings, ring and recorder only under the locks that guard them |
| LockOrder.PythonOrdered | examples/spatial/handlers.py:432-621 | so does each Python call, the all-stripes snapshot included |
| LockOrder.NativeOrdered | examples/spatial/native_core.c:716-1034 | so does each native call, nested inside the Python control lock where it is |
| LockOrder.MoveTouches | examples/spatial/handlers.py:508-575 | a movement touches its actor once, then the bookkeeping once if it published and once more for a gate drop, then the recorder or ring if recorded |
| LockOrder.StoresTouch | examples/spatial/handlers.py:425-507 | a spawn touches the bindings, its actor, the bookkeeping if it published and the recorder if recorded; a spawn of a known principal the bindings and the actor |
| LockOrder.FlushTouches | examples/spatial/handlers.py:982-990 | a flush touches the bookkeeping once for the snapshot and once per cell, and nothing else |
| LockOrder.UnguardedExactly | examples/spatial/handlers.py:432-461 | a call touches everything under its guard if and only if it is not the Python spawn of a known principal |
| Workers.Progress | examples/spatial/handlers.py:377-398 | in every state with ordered workers of which one is unfinished, some worker can step: the holder of the highest lock is never blocked |
| Workers.EveryRunCompletes | examples/spatial/handlers.py:589-621 | for any number of workers and calls no run gets stuck, and every maximal run finishes all calls with all locks free |
| Workers.TouchesExclude | examples/spatial/handlers.py:377-398 | for any number of workers and calls, none a Python spawn of a known principal, no interleaving brings two workers to touch one actor, the bookkeeping, the bindings, the ring or the recorder at the same time |
| Workers.KnownSpawnOverlaps | examples/spatial/handlers.py:459-461 | such a spawn can be about to read an actor while another worker is about to store it |
| Workers.OppositeOrdersBlock | examples/spatial/handlers.py:392-393 | two workers nesting two locks in opposite orders can block each other for good |
| Struct.UnpackPack | examples/_common/replay_format.py:104-111 | packed fields in range unpack to themselves |
| Struct.PackUnpack | examples/_common/replay_format.py:104-111 | every byte string of a layout's size packs back to itself |
| Canonical.SortIsStable | examples/_common/replay_format.py:215-230 | sorting orders by canonical key, keeps the multiset, and keeps arrival order within a key |
| Canonical.CanonicalMeans | examples/_common/replay_format.py:215-227 | the order means spawns, then moves, then despawns, by actor, an actor's moves by input tick |
| Canonical.SortDeterministic | examples/_common/replay_format.py:215-230 | when keys determine events the sorted sequence depends on the multiset only |
| ReplayFormat.ParseEventsSound | examples/_common/replay_format.py:503-521 | what the event loop accepts has the declared count, is in canonical order and in range |
| ReplayFormat.ParsePackEvents | examples/_common/replay_format.py:238-281 | packed events in canonical order parse back to themselves |
| ReplayReader.ParseTick | examples/_common/replay_format.py:503-521 | an accepted tick payload is in range and in canonical order |
| ReplayReader.ParseCheckpoint | examples/_common/replay_format.py:542-567 | an accepted checkpoint has 40 state bytes, names the last tick and a higher stream key than the last one of that tick |
| ReplayReader.ReadHeader | examples/_common/replay_format.py:431-448 | an accepted header has a positive rate and a size of at least 16 |
| ReplayReader.ParseEventsLoop | examples/_common/replay_format.py:508-521 | the offset loop computes the specified parse, errors included |
| ReplayReader.ReadDocumentLoop | examples/_common/replay_format.py:424-500 | the record loop computes the specified read, errors included |
| ReplayWriter.HeaderLayout | examples/_common/replay_format.py:325-333 | the header's sixteen bytes: magic, version, size, rate, no flags |
| ReplayWriter.PackEventsLoop | examples/_common/replay_format.py:346-364 | packs all events, or reports that one does not fit its field widths |
| ReplayWriter.ReplayWriter.WriteMeta | examples/_common/replay_format.py:335-344 | once, before any tick; a refused call changes neither stream nor state |
| ReplayWriter.ReplayWriter.WriteTick | examples/_common/replay_format.py:346-364 | ascending ticks with at most 65535 events, written sorted; a refused call changes nothing |
| ReplayWriter.ReplayWriter.WriteExpectedHash | examples/_common/replay_format.py:366-369 | any in-range expectation; a refused call changes nothing |
| ReplayWriter.ReplayWriter.WriteRngCheckpoint | examples/_common/replay_format.py:371-394 | only for the last tick, stream keys ascending, 40 bytes; a refused call changes nothing |
| ReplayRoundTrip.ReadOne | examples/_common/replay_format.py:453-500 | reading a written record is applying the ordering law to it and reading on |
| ReplayRoundTrip.WriteAccepts | examples/_common/replay_format.py:310-406 | what the writer accepts the reader accepts, except a repeated expectation |
| ReplayRoundTrip.SessionReadsBack | examples/_common/replay_format.py:310-406 | after any sequence of calls, refused ones included, the stream reads back as exactly the accepted records; it is refused if and only if two expectations name one tick |
| ReplayDocuments.EncodeDocument | examples/_common/replay_format.py:586-611 | the grouping and writing loops compute the specified encoding, errors included |
| ReplayDocuments.GroupCheckpoints | examples/_common/replay_format.py:597-599 | groups checkpoints by tick in document order, with no empty group |
| ReplayDocuments.EncodeReadsBack | examples/_common/replay_format.py:586-611 | an encoded document reads back as itself with events stably sorted and checkpoints regrouped in tick order, or is refused if two expectations name one tick |
| ReplayLaw.EncodeExactly | examples/_common/replay_format.py:586-611 | encoding succeeds if and only if fields are in range, ticks ascend strictly, every checkpoint names a tick, and stream keys ascend strictly within a tick |
| ReplayLaw.ReadSound | examples/_common/replay_format.py:424-567 | every accepted byte string decodes to a document that obeys the whole ordering law and is in normal form |
| ReplayLaw.FixedPoint | examples/_common/replay_format.py:586-611 | a normal form encodes exactly when its metadata fits a record, and reads back unchanged |
| ReplayLaw.Recode | examples/_common/replay_format.py:424-611 | decoding, encoding and decoding again gives the same document |
| ReplayFraming.ReadAppend | examples/_common/replay_format.py:453-500 | reading whole records followed by more is reading on from what they gave |
| ReplayFraming.UnknownIgnored | examples/_common/replay_format.py:453-500 | a record of unknown type between any two records changes nothing the reader returns |
| ReplayFraming.CutRecords | examples/_common/replay_format.py:453-462 | accepted records cut at any byte are accepted if and only if the cut is between records, and reading on from what the cut gave gives the whole document |
| ReplayFraming.CutDocument | examples/_common/replay_format.py:424-500 | the same for whole files, with the cuts inside the header |
| ReplayFraming.SessionCut | examples/_common/replay_format.py:310-500 | a writing session cut after its header is readable only at the end of an emitted record, and there reads as exactly the records before the cut |
| ReplayFraming.FlagsRefusedExactly | examples/_common/replay_format.py:463-491 | a record is refused for its flags if and only if they are set and it is a tick, an expectation or a checkpoint; otherwise they change nothing |
| ReplayFraming.CheckpointMayTrail | examples/_common/replay_format.py:542-567 | an expectation may stand between a tick and its checkpoint |
| ReplayExact.HeaderExactly | examples/_common/replay_format.py:431-448 | a header is accepted if and only if it is the packing of magic, version 1, its size, its rate and zero flags |
| ReplayExact.ParseEventsExact | examples/_common/replay_format.py:263-281 | the events parsed from a payload pack back to exactly its bytes |
| ReplayExact.ApplyExact | examples/_common/replay_format.py:463-498 | an accepted record is one the writer spells with the same payload, admitted by the ordering law |
| ReplayExact.PlainIsWritten | examples/_common/replay_format.py:453-500 | records without metadata, unknown types and reserved bits are accepted only if they are the writer's bytes of some record sequence |
| ReplayExact.PlainFileIsSession | examples/_common/replay_format.py:310-500 | so every such accepted file is, byte for byte, the stream of a writing session: reader and writer agree on the language |
| WireLayout.RecordLayout | examples/_common/replay_format.py:95-98 | a record is its type (1 tick, 2 metadata, 3 expectation, 4 checkpoint), three zero bytes, the payload length in four, the payload |
| WireLayout.TickLayout | examples/_common/replay_format.py:346-362 | a tick payload is the tick in eight bytes, the event count in two, then the events |
| WireLayout.EventsFollow | examples/_common/replay_format.py:346-362 | the events of a tick stand one after the other, nothing between them |
| WireLayout.ExpectedLayout | examples/_common/replay_format.py:366-369 | an expectation is tick and hash in eight bytes each |
| WireLayout.CheckpointLayout | examples/_common/replay_format.py:385-394 | a checkpoint is tick and stream key in eight bytes each, the length 40 in four, the state |
| WireLayout.SpawnLayout | examples/_common/replay_format.py:238-250 | a spawn is code 1, the id, three positions and three velocities in eight bytes each, the flags in four |
| WireLayout.MoveLayout | examples/_common/replay_format.py:251-259 | a move is code 2, the id in eight bytes, the input tick in four, three signed pairs, one byte of flags |
| WireLayout.DespawnLayout | examples/_common/replay_format.py:260 | a despawn is code 3 and the id in eight bytes |
| WireLayout.FramingBytes | examples/_common/replay_format.py:453-462 | the reader takes type, flags and length from bytes 0, 1 and 4 to 7 of the framing, and refuses a length past the end |
| ReplayRecorder.ReplayRecorder.WriteMeta | examples/_common/replay_recorder.py:110-119 | writes metadata through the writer, refused when closed |
| ReplayRecorder.ReplayRecorder.RecordEvent | examples/_common/replay_recorder.py:121-135 | buffers an event, nothing when closed |
| ReplayRecorder.ReplayRecorder.FlushTick | examples/_common/replay_recorder.py:137-169 | drains the buffer into one sorted tick and its checkpoint, elides an idle tick, and reports what the source raises |
| ReplayRecorder.ReplayRecorder.Close | examples/_common/replay_recorder.py:171-184 | discards the tail and ends the recording, idempotently |
| ReplayRecorder.EventsConserved | examples/_common/replay_recorder.py:121-184 | over any run the recorded events are, in arrival order and each once, the drains, then the discarded tail, then the buffer |
| RecorderRuns.ArtifactReads | examples/_common/replay_recorder.py:69-94 | after any calls the artifact is readable and holds exactly the written drains, sorted, each followed by its checkpoint |
| RecorderRuns.LandsInNextDrain | examples/_common/replay_recorder.py:121-169 | an event recorded while open belongs to the first boundary after it |
| RecorderRuns.FlushLosesExactly | examples/_common/replay_recorder.py:137-169 | a drain leaves nothing buffered, and nothing reaches the stream if and only if the writer refuses the tick |
| RecorderRuns.StaleFlushLoses | examples/_common/replay_recorder.py:137-169 | flushing again at the last tick drops what was recorded since |
| RecorderRuns.AscendingWrites | examples/_common/replay_recorder.py:137-169 | with ascending boundaries and drains in range no tick is refused |
| RecorderRuns.NothingLost | examples/_common/replay_recorder.py:121-184 | then what was recorded is exactly what the artifact decodes to plus the discarded tail and the buffer |
| RecorderRuns.BytesDeterministic | examples/_common/replay_recorder.py:137-169 | the artifact bytes depend on each tick's multiset of events only, when equal keys in a drain mean equal events |
| ActorMap.FoldLoop | tools/replay.py:471-476 | the accumulator loop folds the bytes in order |
| ActorMap.SortedIds | tools/replay.py:446-448 | the ids of the set in strictly ascending order |
| ActorStore.ActorStore.Spawn | tools/replay.py:389-407 | adds an actor with the event's pose and flags and a zero input tick at the end of the live prefix, leaving the others; refuses a duplicate and a full table |
| ActorStore.ActorStore.ApplyMove | tools/replay.py:409-423 | updates the actor and the model's own state through the model, by actor id; refuses an unknown actor |
| ActorStore.ActorStore.Despawn | tools/replay.py:425-435 | removes exactly the actor, the last one taking its slot |
| ActorStore.ActorStore.Step | tools/replay.py:437-444 | every actor becomes the model's step of itself under the model's state, by actor id, or the model's failure is reported |
| ActorStore.ActorStore.Hash | tools/replay.py:446-468 | the hash is a function of the actor map alone, whatever slots history left |
| ActorStore.DespawnBijection | tools/replay.py:425-435 | swap-remove keeps slots a bijection onto the live prefix and removes one actor from the map |
| ActorStore.LiveCounts | tools/replay.py:384-407 | the live count is the number of actors |
| HashLayout.ActorBytesPacked | tools/replay.py:451-467 | the bytes hashed for an actor in range are its fields packed in the tool's layout |
| HashLayout.SpawnedBytes | tools/replay.py:395-405 | a freshly spawned actor is hashed as its own spawn record with a zero input tick before the flags |
| HashLayout.HashExactly | tools/replay.py:446-476 | the hash of a table in range is the 64-bit FNV-1a, with its published basis and prime, of one byte string: the actor count in eight bytes, then every actor by ascending id in the tool's layout |
| HashLayout.XorBits | tools/replay.py:471-476 | the exclusive or of the hash is the sum of bits modulo two, bit by bit |
| ReplayLoop.ReplayRecord | tools/replay.py:501-539 | the loops over the table compute the specified replay, failures included |
| ReplayLoop.LoopIsTimeline | tools/replay.py:525-535 | on any strictly ascending record each tick's events are applied exactly once, at that tick, in stored order, then one step |
| ReplayOps.ReplayIsOps | tools/replay.py:525-535 | the replay of a strictly ascending record is one list of operations run one by one, up to the first failure |
| ReplayOps.OpsExactly | tools/replay.py:525-535 | that list goes through the ticks below the limit in order, and holds for each its events in stored order, then one step, then one hash if the tick is a multiple of the cadence, and nothing else |
| ReplayOps.AtExactly | tools/replay.py:525-530 | the events of a tick are those of its one record |
| ReplayLoop.ElisionPreserves | tools/replay.py:525-535 | under one tick limit a record and the record without its idle ticks replay to the same hashes or failure |
| ReplayLoop.FillingPreserves | tools/replay.py:525-535 | so does the record with every tick written out |
| ReplayLoop.LimitIsPrefix | tools/replay.py:522-523 | a lower limit gives a beginning of the hashes |
| ReplayLoop.HashTicks | tools/replay.py:533-534 | hashes are emitted at exactly the multiples of the cadence below the limit, ascending |
| ReplayLoop.TextGroupsMean | tools/replay.py:366-378 | text grouping gives strictly ascending ticks with their events in file order |
| ReplayLoop.CompareAgainstMap | tools/replay.py:590-626 | succeeds if and only if no emitted hash contradicts its expectation, coverage holds when required, and every expected tick was emitted |
| BuiltinModel.PendingExactly | src/sim/sim.c:445-490 | after any ticks a replay gets through, the input a built-in model's step sees for an id is its last move if it is among the first 4096 ids ever moved, despawned or not, and none otherwise |
| BuiltinModel.MoveApplies | src/sim/models/free2d.c:110-121 | a move sets the actor's input tick and flags and keeps its pose; a step gives every actor the physics of its pending input and leaves the inputs alone |
| RecordReplay.RecordingReplays | examples/_common/replay_recorder.py:137-169 | replaying the artifact gives the same hashes or failure as replaying every boundary of the recorded run, idle ones included |
| Lifecycle.RunKeeps | python/kith/__init__.py:575-603 | every disciplined run keeps the lock, announcement, exclusion and count invariants |
| Lifecycle.Safety | python/kith/__init__.py:814-879 | with one run in flight and any closers on other threads, destroy never overlaps an announced run, happens at most once, and no run is live after it |
| Lifecycle.NoneLive | python/kith/__init__.py:836-859 | the decision to destroy is taken only when no announced run is still to return |
| Lifecycle.EventSetExactly | python/kith/__init__.py:581-603 | between runs the event is set if and only if the last event that ended a run is not a failed pump registration |
| Lifecycle.WaitingHasRunner | python/kith/__init__.py:841-846 | a close that still has to wait has a run in flight whose next step nothing blocks, unless none is in flight and the last one ended in a failed pump registration |
| Lifecycle.WaitingCanClose | python/kith/__init__.py:836-879 | in every reachable state a waiting close can be closed by steps of the run in flight and its own, the handle destroyed once, unless none is in flight and the last one ended in a failed pump registration |
| Lifecycle.CloseCloses | python/kith/__init__.py:836-879 | a close that returns without giving up leaves the server closed, its handle destroyed exactly once |
| Lifecycle.CheckDecides | python/kith/__init__.py:836-846 | a close waits if and only if the event is unset and another thread's run holds the slot, and otherwise goes on to destroy |
| Lifecycle.DecidedCloses | python/kith/__init__.py:847-879 | a close that has decided, or waits with the event set, destroys, closes and releases the lock by its next steps |
| Lifecycle.PumpFailureStrands | python/kith/__init__.py:583-592 | every failed registration leaves the announcement up with no run behind it |
| Lifecycle.StrandedNeverCloses | python/kith/__init__.py:836-846 | after that no interleaving of closes on other threads ever destroys the handle |
| Lifecycle.SecondRunDestroys | python/kith/__init__.py:593-603 | a second run during an active one lets the next close destroy under it |
| Lifecycle.NestedCloseDestroys | python/kith/__init__.py:836-846 | a close on the thread of the active run destroys under it |
| EventBus.EventBus.Publish | src/control/event_bus.c:28-75 | appends to the live records, refused if and only if capacity minus one are live |
| EventBus.EventBus.Drain | src/control/event_bus.c:77-102 | from a live cursor exactly the next live records in order, up to the limit, and the cursor after them |
| EventBus.EventBus.Release | src/control/event_bus.c:104-120 | for any 32-bit cursor: the tail moves to it if and only if the guard passes, which for a slot index means it lies in the live window, and drops exactly what lies before it; the tail leaves the ring if and only if the cursor is at or past the capacity and passes |
| EventBus.Distance32Exact | src/control/event_bus.c:114-116 | the 32-bit distance is the circular distance for all positions if and only if the capacity is at most 2^31 |
| EventBus.PassesExactly | src/control/event_bus.c:110-118 | up to 2^31 slots the guard passes exactly the cursors congruent to a live position, and near the top of the range those measured from the overflow |
| EventStreams.StreamsExact | src/control/event_bus.c:28-120 | under every interleaving at most capacity minus one records are live and intact, every stream's cursor has passed exactly the records published since it attached, in order, and it was written exactly the lines of those that fit |
| EventStreams.PublishLoadKeeps | src/control/event_bus.c:30-37 | a publish goes ahead if and only if fewer than capacity minus one records were live when it read the tail |
| EventStreams.PublishCopyKeeps | src/control/event_bus.c:39-72 | the slot written is outside the live window, wherever the tail has moved since |
| EventStreams.DrainCopyKeeps | src/control/event_bus.c:87-95 | each copied slot holds the next record of the log, while the producer goes on |
| EventStreams.DrainEndKeeps | src/control/conn.c:616-652 | advancing the cursor, or rewinding it to right after the line that stalled, leaves no gap and no repetition, and exactly the lines that fit are written |
| EventStreams.ReclaimStoreKeeps | src/control/conn.c:573-596 | reclaiming to the nearest cursor is never refused and takes no record a stream still needs |
| StreamProgress.DrainDelivers | src/control/conn.c:616-652 | a drain that does not stall leaves its stream with exactly the log from its attach to the head at the load, or to the limit, whatever the producer does meanwhile, and writes exactly the fitting lines of it |
| StreamProgress.DrainPossible | src/control/event_bus.c:77-102 | from any reachable state with a free consumer every attached stream has such a drain |
| StreamProgress.DrainCanGoOn | src/control/event_bus.c:77-102 | a drain under way can always copy a record or end |
| StreamProgress.PublishExactly | src/control/event_bus.c:28-75 | with room a publish runs through and appends its event to the log; without it changes nothing |
| StreamProgress.ReclaimExactly | src/control/conn.c:573-596 | a reclaim frees exactly what lies before the nearest position of an attached stream, or all published at the scan when none is attached, whatever the producer does meanwhile |
| StreamProgress.AttachedFrom | src/control/conn.c:573-652 | until it is detached a stream has been passed exactly what was published from its attach up to its cursor |
| StreamProgress.FittingExactly | src/control/conn.c:621-640 | the lines written of a passage are its fitting records and no others, and all of it if and only if all fit |
| Deadline.DeadlineIsNext | src/server/timing.h:8-18 | the deadline is the least grid point strictly after now, so a late call skips missed points |
| Deadline.DeadlinesDoNotDrift | src/server/timing.h:8-18 | called on time, the n-th deadline is the epoch plus ceil(1000 n / hz) for every n |
| Deadline.SecondHasHzTicks | src/server/timing.h:8-18 | every second holds exactly hz grid points |
| Deadline.GridRises | src/server/timing.h:8-18 | up to 1000 ticks a second grid points strictly increase |
| BatchReaders.DecodeBatch | examples/spatial/client.py:172-196 | decodes the declared records up to the first truncated one, refuses a payload without header |
| BatchReaders.IterStatesFor | examples/spatial/client.py:204-232 | yields exactly the decoded state records of the actor, on every payload |
| BatchReaders.IterStateIds | examples/spatial/client.py:235-265 | yields exactly the ids of the decoded state records, in order |
| BatchReaders.RecordRoundTrip | examples/spatial/client.py:101-151 | encoding and decoding a 68-byte record are inverse to each other |
| BatchReaders.RecordAt | examples/spatial/client.py:188-195 | the k-th decoded record is the k-th 68-byte slice |
| BatchReaders.FieldsAgree | examples/spatial/client.py:199-201 | reading the first and last field alone gives what the full decoder puts there |
| BatchReaders.RecordsComplete | examples/spatial/client.py:188-195 | as many records are decoded as are declared and complete |
| BatchLayout.CountBytes | examples/spatial/client.py:172-187 | the declared count is the first two bytes, most significant first |
| BatchLayout.RecordFields | examples/spatial/client.py:114-130 | every field of a record by its byte offset: id, position, velocity, input tick at 56, update counter at 60, level at 64 |
| BatchLayout.MarkedByte | examples/spatial/client.py:204-232 | a record is a membership event if and only if the top bit of its byte 64 is set |
| BatchLayout.StatesForExactly | examples/spatial/client.py:204-232 | an actor's states are exactly the records with its id that are no membership events, and those of a batch are those of its parts in order |
| BatchLayout.StateIdsExactly | examples/spatial/client.py:235-265 | an id is listed if and only if the actor has a state record, and the ids of a batch are those of its parts in order |

## Left out

- The sim models' physics, the reactor, the network and the gateway's delivery: uninterpreted or absent.
- The C memory model: atomics and mutexes are sequentially consistent steps.
- Coherence.RunCoherent: for runs without faults; Coherence.RunCoherentButLost is the statement for all runs.
- Handlers.Server.PublishCellProduct: the capacity error is one of the failure outcomes passed in; shards and tombstones are not modelled.
- DirtyServe.NoMarkLost: for fewer than 2^32 - 1 generations; DirtyLoss.WrapLosesMarks says what the wrap loses.
- DirtyCounts.ExactlyOnce: for histories without early returns; DirtyCounts.OfferedPerSlot and DirtyCounts.OnceExactly need only that the counted flush itself does not return early.
- DirtyCounts.InterleavedMarkDoubles: a family of examples, two cells with one home slot; DirtyCounts.OnceExactly is the exact condition.
- EpochTable.BumpRefines: for epochs below the wrap; EpochTable.ZeroExactly covers the wrap.
- Deadline.DeadlineIsNext: for times whose next second does not wrap around 64 bits and rates from 1 to 1000; above that the source returns now, and a rate of zero divides by zero.
- Window.FillNeighborhood: a coordinate past the 32-bit range wraps around in the model, where C leaves the sum undefined.
- WindowCounts.OperationCount: for neighborhoods that do not wrap around 32 bits.
- The handler set's principal map, bind records, gate-drop counter and chat broadcast, beyond the locks they take.
- Replay record I/O, argument parsing, error message texts, `diff_documents`, transcoding, and the metadata JSON itself.
- `Server.serve`, and the close from a callback, which raises before it takes the lock.
- The event records' bounded copies of type, correlation id and payload: a record is one value.
- Coordination bus, ctypes wrappers, lobby, store, TMX and packaging tools: thin, foreign or easy.
