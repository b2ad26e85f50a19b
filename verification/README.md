# Verified model of the OpenVic simulation's deterministic core

OpenVic simulates a world in which every machine must compute the same tick. The entity component
system under `ecs/` promises this: for every order in which systems were registered, every number
of workers and every interleaving, a tick ends in the same state. This project models the parts
that make the promise, and a few free-standing algorithms that are as intricate, and proves what
they promise in Dafny.

## The models

- **Scheduler** (`Digraph`, `Dag`, `SystemAccess`, `Conflicts`, `Schedule`, `SystemScheduler`,
  `ScheduleInvariance`, `ScheduleHash`). Graph theory is developed on edge sets; the depth-first
  search, the Kahn loop, the orientation of conflicts, the priority queue and the stage layout are
  imperative methods proved against it. The proofs end in race freedom of every stage, in the
  direction each conflict takes, and in independence of the schedule and its hash from the
  registration order.
- **Execution of a stage** (`StageExecution`, `Footprints`, `StageReservations`, `WorkItems`,
  `DispatchedStage`). The work-item list is built from the stage and the matching chunks. Items are
  step programs with a footprint, in which the slot table is one more cell; any interleaving of a
  scheduled stage's items is a run. All complete runs agree exactly if footprints are apart. The
  bodies of a pool dispatch take the items' steps, so a returned dispatch is such a run.
- **A whole tick** (`CellStore`, `StageTick`, `SerialStage`, `Tick`, `TickMeaning`, `TickOnPools`,
  `FullSystems`). Stage after stage the systems that should run do so on the cells of the world, in
  parallel or in turns; values are written back, buffers merged and applied. The end is the same for
  every registration order, mode and interleaving; `TickMeaning` says which end it is, and who runs.
  `FullSystems` has systems that use all they declare and meet the hypotheses.
- **Archetype store and command buffers** (`Chunks`, `WorldStore`, `EntityOps`, `EntityWorld`,
  `CommandOps`, `CommandBuffer`, `BufferMerge`, `BulkCreate`, `SerialCreate`, `BulkFinalise`,
  `StoreRefinement`, `Immutability`, `IdFreshness`, `Placeholders`, `Queries`). A `World` value has
  slots with a free chain and chunked rows; the classes `EcsWorld` and `CommandBuffer` update their
  fields in place and are proved to do what the functions on values do. On top of them: refinement of
  a plain map from entity to component map, how long ids stay unique, what placeholders stand for,
  merged buffers as sequences of buffers, bulk creates as loops of single creates.
- **Worker pool** (`ThreadPool`, `ThreadPoolTheorems`). One step per critical section, any number of
  workers, external threads, overlapping and nested dispatches.
- **Checksum** (`Fnv`, `Checksum`, `ChecksumTheorems`, `ChecksumStreams`, `ChecksumTotals`). The walk
  is proved to hash byte strings, and exactly which states feed it the same bytes is settled.
- **Reductions** (`Reductions`) and **dense slots** (`DenseSlots`).
- **Country logic**: integer square root (`MathSqrt`), stockpile money (`Stockpile`), connection to
  the capital (`Connectivity`), rankings and great powers (`Rankings`, `GreatPowers`). `Sorting`
  holds the sorts they share.

## Where the code and its comments disagree

The model follows the code. Where a point names a member, that member proves it.

- `ecs/EcsThreadPool.hpp:75-81` says that a body run by the pool can itself dispatch. The counters
  stay exact (`StepInv`), but a pool of w workers can stand still once w bodies have dispatched again
  (`NestingWorkersStuck`). At most k nested waits at once are safe exactly if k < w
  (`SafeNestingExactly`); `FlatNeverStuck` is the scheduler's own use. `ecs/EcsThreadPool.hpp:110`
  calls the queue FIFO; jobs are taken from the back.
- `ecs/Checksum.hpp:36-37` says that equal totals imply equal live state. Collisions of the hash
  aside, this holds among archetypes with as many components (`SameLengthSeparates`) and fails in
  exactly one way: neither the length of a signature nor the number of rows is hashed, so a word may
  be read as a component id or as an entity id (`StreamsCoincide`, `TotalsAgreeExactly`). It needs a
  component id that is also an entity id (`ShiftNeedsClash`, `TagsClashExactly`) or that names a
  singleton too; without such ids the total does separate states (`TotalSeparates`), and with them
  there are states a world can hold that share one (`DigestWithoutFraming`).
- `ecs/SystemScheduler.cpp:530-548` runs the plain systems of a stage in parallel, each with a buffer
  that is not in parallel mode, so a create reserves a slot of the shared World at once
  (`ecs/CommandBuffer.hpp:373-375`). The ids then depend on the interleaving as soon as two items of
  a stage create (`TwoCreatorsDiffer`); `StageAgreesExactly` and `StageApartExactly` say when a stage
  is deterministic all the same. In turns, several may create (`TurnsAgree`).
- `ecs/CommandBuffer.cpp:114-116` re-checks a slot before stamping immutability, in the bulk branch
  only. The two branches leave the same store exactly if the batch is mutable or no slot it names
  is held by another entity that may still change (`SerialBulkIsSingles`).
- `ecs/World.hpp:45-46` says that stale ids reliably fail validity checks. They do until their index
  has been reserved 0x7FFF_FFFF times (`StaleForever`), and then the generation has come round and a
  stale id is handed out again (`IdsComeBack`).
- `ecs/World.hpp:1513-1518` rejects threaded systems with extra writes because they would race with
  themselves. A threaded system that extra-reads what its tick writes does so too, and is accepted
  (`ChunksRaceExactly`).
- `country/CountryInstanceManager.cpp:144` says "civilised" where uncivilised is meant; the model keeps
  the code's test. A great power that has ceased to exist keeps its rank and its place
  (`ExtinctGreatPowerStays`).

## Model

Members are named `Module.Member` or `Module.Class.Member`. Methods of classes tie the new state to a
function of the old one; the properties of those functions are the lemmas in the same table.

| member | source | states |
|---|---|---|
| Digraph.AddEdgeAcyclic | src/openvic-simulation/ecs/SystemScheduler.cpp:244-289 | auto-orientation cannot fail: in an acyclic graph with no path from v to u, the edge u to v closes no cycle, so the retry and bail-out branches are never taken |
| Digraph.LayeredIsLongest | src/openvic-simulation/ecs/SystemScheduler.cpp:74-104 | a depth assignment in which every edge climbs and every positive depth is supported by a predecessor one below exists only for acyclic graphs, and is the longest-incoming-path length |
| Dag.DAG.AddEdge | src/openvic-simulation/ecs/SystemScheduler.cpp:36-45 | the edge set gains exactly the one edge, duplicates included, and the adjacency lists keep representing it |
| Dag.DAG.PathExists | src/openvic-simulation/ecs/SystemScheduler.cpp:48-72 | the stack-based search terminates and answers yes exactly when a directed path (possibly empty) exists |
| Dag.DAG.RecomputeDepthsOrDetectCycle | src/openvic-simulation/ecs/SystemScheduler.cpp:76-104 | answers yes exactly when the graph is acyclic, and then every depth is the length of the longest path into its node |
| Dag.KahnRun | src/openvic-simulation/ecs/SystemScheduler.cpp:76-104 | the counting loop itself: in-degrees, FIFO queue, depth relaxation and the processed count decide acyclicity and compute longest-path depths |
| SystemAccess.AccessOverlaps | src/openvic-simulation/ecs/SystemAccess.hpp:30-42 | true exactly when both sides mention one component and one of them writes it |
| SystemAccess.SortedIntersects | src/openvic-simulation/ecs/SystemAccess.hpp:48-64 | on ascending lists, the two-pointer walk is true exactly when they share an id |
| SystemAccess.AccessConflictComponents | src/openvic-simulation/ecs/SystemAccess.hpp:68-86 | ascending, duplicate-free, and containing exactly the components in conflict |
| SystemAccess.MergeExtraReads | src/openvic-simulation/ecs/SystemAccess.hpp:91-107 | writes are untouched; reads gain exactly the extra ids that are not written |
| SystemAccess.MergeExtraWrites | src/openvic-simulation/ecs/SystemAccess.hpp:114-120 | reads are untouched; writes gain exactly the extra ids |
| SystemAccess.CanonicaliseAccessSet | src/openvic-simulation/ecs/SystemAccess.hpp:124-141 | one entry per component, ascending, and a write wins over a read of the same component |
| SystemAccess.Register | src/openvic-simulation/ecs/World.hpp:1556-1590 | the registration built by sorting, merging and canonicalising the declared lists means exactly what was declared (precondition: the static assertion on extra writes) |
| Conflicts.ProvablyDisjoint | src/openvic-simulation/ecs/SystemScheduler.cpp:137-157 | the test is exactly: some required id is excluded by the other side, and every conflicting component is required by both and extra-accessed by neither |
| Conflicts.UnorderedNeverRaces | src/openvic-simulation/ecs/SystemScheduler.cpp:107-157 | two systems left unordered touch no common (entity, component) cell with a write, for any archetype signature, where extras reach all rows |
| Conflicts.Rule1Complete | src/openvic-simulation/ecs/SystemScheduler.cpp:111-115 | some signature matches both queries if and only if Rule 1 fails and neither query contradicts itself |
| Conflicts.RaceExactly | src/openvic-simulation/ecs/SystemScheduler.cpp:107-157 | two systems can race on some archetype signature if and only if they conflict and some signature matches both queries, or an extra access of one collides with an access of the other |
| Conflicts.OrderedExactlyWhenRacing | src/openvic-simulation/ecs/SystemScheduler.cpp:107-157 | a pair is ordered if and only if it can race on some signature or the scheduler is too careful with it, never both; where it is too careful is read off the declared lists, and always involves a query that contradicts itself or a tick component listed again as an extra |
| SystemScheduler.BuildTypeIndex | src/openvic-simulation/ecs/SystemScheduler.cpp:165-171 | the id map holds exactly the first alive registration of every alive type id |
| SystemScheduler.AddDeclaredEdges | src/openvic-simulation/ecs/SystemScheduler.cpp:173-190 | the graph after phase 1 is exactly the declared-edge relation; unknown and dead ids add nothing |
| SystemScheduler.CollectConflicts | src/openvic-simulation/ecs/SystemScheduler.cpp:202-242 | the list holds every alive pair that needs an order, once, and comes by lower type id, then by higher |
| SystemScheduler.OrientConflict | src/openvic-simulation/ecs/SystemScheduler.cpp:244-289 | one conflict adds nothing if a path joins the pair; otherwise the edge that lengthens the longest path into its target no more than the reverse would, at equal growth from the lower type id, at equal ids in list order; the graph stays acyclic with correct depths |
| SystemScheduler.OrientConflicts | src/openvic-simulation/ecs/SystemScheduler.cpp:244-289 | the whole loop orients the conflicts one after another in list order, each in its cheaper direction on the graph that the ones before it left |
| Schedule.OrientAllSound | src/openvic-simulation/ecs/SystemScheduler.cpp:244-289 | orienting any list of pairs keeps every earlier edge, stays acyclic, and leaves every pair connected by a path one way |
| Digraph.LongestWithEdge | src/openvic-simulation/ecs/SystemScheduler.cpp:253-258 | adding an edge u to v with no path back makes the longest path into v the greater of what it was and one more than the longest path into u: what the cost of an edge estimates is exact |
| Schedule.OrientChooses | src/openvic-simulation/ecs/SystemScheduler.cpp:246-271 | of the two edges the one is added whose target's longest path grows less; the type ids, then the order of the pair, break ties |
| Schedule.OrientedUnique | src/openvic-simulation/ecs/SystemScheduler.cpp:246-271 | growth, type ids and pair order leave no choice: only one graph is such an orientation |
| Schedule.ScheduleInTurn | src/openvic-simulation/ecs/SystemScheduler.cpp:160-343 | every schedule is the layering by longest paths of the declared graph after all conflicts, in turn, took their cheaper direction |
| Schedule.InTurnIsSchedule | src/openvic-simulation/ecs/SystemScheduler.cpp:160-343 | and every such layering is a schedule |
| SystemScheduler.TopologicalOrder | src/openvic-simulation/ecs/SystemScheduler.cpp:291-330 | the priority-queue loop emits every alive system exactly once, in non-decreasing (depth, type id) order |
| SystemScheduler.LayOutStages | src/openvic-simulation/ecs/SystemScheduler.cpp:332-343 | stage s receives exactly the emitted systems of depth s, in emission order |
| SystemScheduler.HashSchedule | src/openvic-simulation/ecs/SystemScheduler.cpp:345-362 | the hash is the FNV fold of every stage number and the type ids of its systems, in order, and depends on nothing else of the registry |
| ScheduleHash.HashIsFnv | src/openvic-simulation/ecs/SystemScheduler.cpp:345-362 | the schedule hash is 64-bit FNV-1a over the little-endian bytes of each stage number followed by the stage's type ids |
| ScheduleHash.BytesDetermine | src/openvic-simulation/ecs/SystemScheduler.cpp:345-362 | if no type id is as small as a stage number, those bytes are equal exactly for equal schedules |
| ScheduleHash.StageOneId | src/openvic-simulation/ecs/SystemScheduler.cpp:345-362 | with a type id 1 two different schedules have one hash |
| ScheduleHash.OneByteSeparates | src/openvic-simulation/ecs/SystemScheduler.cpp:345-362 | schedules whose bytes differ in one place always have different hashes |
| SystemScheduler.Scheduler.Rebuild | src/openvic-simulation/ecs/SystemScheduler.cpp:160-365 | a schedule is built if and only if the declared edges are acyclic; then its stages are the longest-path layers, in id order, of the declared graph after every conflict in turn was oriented in the direction of less growth; otherwise there are no stages and the hash is 0 |
| Schedule.FinalGraphSound | src/openvic-simulation/ecs/SystemScheduler.cpp:173-289 | the final graph is acyclic, joins alive systems only, contains every declared edge and connects every conflict pair |
| Schedule.ExactlyOneStage | src/openvic-simulation/ecs/SystemScheduler.cpp:332-343 | an index is in some stage if and only if it is alive, and never in two |
| Schedule.DeclaredOrderRespected | src/openvic-simulation/ecs/SystemScheduler.cpp:173-190 | a declared edge goes to a strictly later stage |
| Schedule.NamedOrderRespected | src/openvic-simulation/ecs/SystemScheduler.cpp:173-190 | a system runs in a strictly later stage than each one it names in run_after and strictly earlier than each it names in run_before |
| Schedule.StageConflictFree | src/openvic-simulation/ecs/SystemScheduler.cpp:332-335 | no two distinct systems of one stage need an order |
| Schedule.StageRaceFree | src/openvic-simulation/ecs/SystemScheduler.cpp:332-335 | no two distinct systems of one stage can touch one cell with a write, for any archetype signature |
| ScheduleInvariance.ScheduleInvariant | src/openvic-simulation/ecs/SystemScheduler.cpp:128-130 | two registries with the same alive registrations and unique ids are both cyclic or both schedulable, and then have the same stage list of type ids and the same hash |
| ScheduleInvariance.ConflictListsAgree | src/openvic-simulation/ecs/SystemScheduler.cpp:232-242 | the sorted conflict lists of two such registries name the same systems position by position |
| ScheduleInvariance.TwinChosen | src/openvic-simulation/ecs/SystemScheduler.cpp:251-272 | the cost and tie-break rule is symmetric: it picks the same edge whichever of the pair was registered first |
| ScheduleInvariance.PermutationComparable | src/openvic-simulation/ecs/SystemScheduler.cpp:160-171 | any permutation of a registry has the same alive registrations |
| ScheduleInvariance.DeadSlotComparable | src/openvic-simulation/ecs/SystemScheduler.cpp:165-177 | inserting a dead slot anywhere changes nothing the schedule depends on |
| StageExecution.RunDecomposes | src/openvic-simulation/ecs/SystemScheduler.cpp:553-576 | in every interleaving of independent items the state shows each item exactly as if it had run its steps alone, and untouched cells keep their values |
| StageExecution.InterleavingEqualsListOrder | src/openvic-simulation/ecs/SystemScheduler.cpp:553-576 | every interleaving, finished or not, equals running the items one after another in list order for as many steps each |
| StageExecution.CompleteRunsAgree | src/openvic-simulation/ecs/SystemScheduler.cpp:553-576 | any two interleavings that finish every item end in the same state, even with different numbers of idle steps |
| StageExecution.ChunksRaceExactly | src/openvic-simulation/ecs/World.hpp:1513-1518 | chunks of one threaded system can touch one cell with a write if and only if it extra-reads a component its own tick writes, which the registration check does not exclude |
| StageExecution.CellNotShared | src/openvic-simulation/ecs/SystemScheduler.cpp:497-551 | two work items of a scheduled stage never share a component or singleton cell that one of them may write, whatever the world holds |
| StageExecution.StageItemsIndependent | src/openvic-simulation/ecs/SystemScheduler.cpp:497-551 | the work items of a scheduled stage, each within its declaration and none beside an item that extends the slot table it uses, have independent footprints |
| StageExecution.StageDeterministic | src/openvic-simulation/ecs/SystemScheduler.cpp:459-576 | if an item that reserves slots is the only one to use the slot table, every complete parallel run of a scheduled stage gives the same store, allocator and recorded buffers as every other and as the list-order run |
| Footprints.ApartExactly | src/openvic-simulation/ecs/SystemScheduler.cpp:553-576 | all programs on given footprints are deterministic in every interleaving if and only if no footprint writes what another reads or writes |
| Footprints.StageApartExactly | src/openvic-simulation/ecs/SystemScheduler.cpp:497-576 | for the footprints of a scheduled stage, all programs within their declarations are deterministic if and only if no item uses the slot table beside one that extends it |
| StageReservations.RunShares | src/openvic-simulation/ecs/CommandBuffer.hpp:368-375 | in every interleaving of items that record serially, the ids handed out are those of as many reservations in a row, and each is in exactly the buffer of the item that reserved it |
| StageReservations.TwoCreatorsDiffer | src/openvic-simulation/ecs/CommandBuffer.hpp:368-375 | two items that record a create when they run alone have two complete runs that leave different ids in one buffer: who reserves first shows |
| StageReservations.StageAgreesExactly | src/openvic-simulation/ecs/SystemScheduler.cpp:553-576 | with reservers that create when run alone: if a reserving item is alone with the slot table all complete runs of a scheduled stage agree, if they agree at most one item reserves, and the two conditions are one if nobody else looks at the table beside a reserver |
| WorkItems.SystemItems | src/openvic-simulation/ecs/SystemScheduler.cpp:499-549 | the items of one system are its nonempty matching chunks in (archetype, chunk) order, or one whole item |
| WorkItems.BuildWorkItems | src/openvic-simulation/ecs/SystemScheduler.cpp:497-551 | the combined list is the items of the systems that run this tick, in stage order |
| WorkItems.ChunkRows | src/openvic-simulation/ecs/SystemImpl.hpp:134-143 | the slots that an item of a chunk iterates are exactly those whose ids stand in the rows of that chunk |
| WorkItems.ListIsStageWork | src/openvic-simulation/ecs/SystemScheduler.cpp:497-551 | the list gives different items of one system different chunks of disjoint rows, and several items only to systems that may be split: all that independence asks of it |
| WorkItems.ItemsCoverRows | src/openvic-simulation/ecs/SystemScheduler.cpp:497-551 | every row of an archetype that matches a threaded system is in exactly one of the system's items |
| WorkItems.PartsListed | src/openvic-simulation/ecs/SystemScheduler.cpp:499-549 | a system that does not run has no parts, a plain one the whole of its work, a threaded one exactly the nonempty chunks its query matches, each once and in order |
| WorkItems.WorkListIs | src/openvic-simulation/ecs/SystemScheduler.cpp:497-551 | the list holds exactly the parts of the systems that run, positions ascending and nothing twice |
| WorkItems.ItemsUnique | src/openvic-simulation/ecs/SystemScheduler.cpp:497-551 | and order and members determine the list |
| CellStore.CellsOf | src/openvic-simulation/ecs/SystemScheduler.cpp:553-576 | the shared cells of a stage are exactly the components of the live entities, the singletons and the slot table, with their contents |
| CellStore.SettleOwn | src/openvic-simulation/ecs/SystemScheduler.cpp:553-576 | writing a game's own cells back into it changes nothing |
| CellStore.ReadBack | src/openvic-simulation/ecs/SystemScheduler.cpp:553-576 | reading the cells of a game into which a stage's store was written gives that store, new slots included |
| CellStore.WriteBackInv | src/openvic-simulation/ecs/SystemScheduler.cpp:553-590 | after a stage has run, the world with the new values and the slots reserved meanwhile satisfies the store invariant |
| CellStore.WriteBackMeaning | src/openvic-simulation/ecs/SystemScheduler.cpp:553-590 | each live entity then has the components it had, with the values of its cells |
| StageTick.StageIndependent | src/openvic-simulation/ecs/SystemScheduler.cpp:459-590 | whatever the should_run flags say, the items of a scheduled stage built from programs that keep to their declarations are independent |
| SerialStage.SameParts | src/openvic-simulation/ecs/SystemImpl.hpp:94-109 | a query collects the same chunks in the middle of a stage as at its start, because values and reservations do not move rows |
| SerialStage.TurnsAgree | src/openvic-simulation/ecs/SystemScheduler.cpp:444-457 | two serial runs of a stage agree for every interleaving of the chunks in each turn, however many systems reserve slots in their turns |
| SerialStage.SerialIsParallel | src/openvic-simulation/ecs/SystemScheduler.cpp:444-590 | running the systems of a stage in turns, chunks collected and merged in each turn, ends in the same world and singletons as the combined work-item list in any interleaving |
| Tick.WaysSame | src/openvic-simulation/ecs/SystemScheduler.cpp:419-606 | a scheduled stage ends alike in either branch of the scheduler and in any interleaving of either, should_run included; across branches, in a consistent world and for programs that see its values only through their cells |
| TickMeaning.WhoRuns | src/openvic-simulation/ecs/SystemScheduler.cpp:429-543 | whether a system runs is whether it is alive and its should_run holds as the stage begins: it then has one item for the whole, or one for each nonempty matching chunk, and otherwise none |
| TickMeaning.StageListUnique | src/openvic-simulation/ecs/SystemScheduler.cpp:497-551 | the list a stage runs is the only one with those items in order |
| TickMeaning.ParallelMeaning | src/openvic-simulation/ecs/SystemScheduler.cpp:497-606 | a parallel stage leaves the values of a run of exactly those items, and then the effect of the items' buffers applied one after another in list order |
| TickMeaning.SerialMeaning | src/openvic-simulation/ecs/SystemScheduler.cpp:447-457 | in turns each system that runs takes its own parts on the game as the turns before left it, the others nothing, and the buffers wait for the end of the stage |
| TickMeaning.NobodyRuns | src/openvic-simulation/ecs/SystemScheduler.cpp:429-606 | a stage in which no system runs leaves the game as it is, in either mode |
| TickMeaning.TickInOrder | src/openvic-simulation/ecs/SystemScheduler.cpp:417-607 | a tick runs the stages one after another in the order of the schedule, each on the game the one before left, and ends where the last one ends |
| Tick.SameStageRegs | src/openvic-simulation/ecs/SystemScheduler.cpp:408-417 | comparable registries have the same registrations in the same places of the same stages |
| Tick.TickDeterministic | src/openvic-simulation/ecs/SystemScheduler.cpp:408-607 | a whole tick, each stage in turns or in parallel, leaves the same world and singletons for any two comparable registries and any complete interleavings; ticks that differ in mode need programs that see values only through their cells |
| FullSystems.FullFootprint | src/openvic-simulation/ecs/SystemScheduler.cpp:429-437 | for any declarations there are programs whose items read and write all that the declarations allow |
| FullSystems.FullObedient | src/openvic-simulation/ecs/SystemScheduler.cpp:429-437 | those programs keep to their declarations |
| FullSystems.FullSerialisable | src/openvic-simulation/ecs/SystemScheduler.cpp:429-437 | and they meet what the comparison of the two modes asks of programs |
| FullSystems.BothModesRun | src/openvic-simulation/ecs/SystemScheduler.cpp:429-457 | every schedule of every declared registry has a parallel and a serial tick of those programs in every consistent world, and the two end alike |
| TickOnPools.TicksOnPoolsAgree | src/openvic-simulation/ecs/SystemScheduler.cpp:408-607 | two ticks of the same systems in any registration order, each stage run by the bodies of a pool dispatch with any number of workers, inline, or in turns, leave the same world and singletons |
| Tick.TickKeepsInv | src/openvic-simulation/ecs/SystemScheduler.cpp:408-607 | whatever the modes and interleavings, and with any number of reserving items, a tick keeps the store invariant |
| DispatchedStage.DispatchFinishes | src/openvic-simulation/ecs/SystemScheduler.cpp:553-576 | when the dispatch of a stage is over, on any number of workers that may run other dispatches besides, the items have taken the steps of one interleaving, each to its end, and left its state |
| DispatchedStage.WorkersDoNotMatter | src/openvic-simulation/ecs/EcsThreadPool.hpp:45-48 | two pools of any sizes leave one stage of independent items in the same state |
| DispatchedStage.PoolRunsStage | src/openvic-simulation/ecs/SystemScheduler.cpp:553-576 | a stage run by the pool is one of the parallel runs of the tick theorems |
| DispatchedStage.StageGoesOn | src/openvic-simulation/ecs/SystemScheduler.cpp:553-555 | until the dispatch returns, some thread can take a step of the pool or of an item |
| Chunks.RowAllocator.ReserveRow | src/openvic-simulation/ecs/Archetype.hpp:312-326 | the counts and the location are those of appending one row to packed chunks |
| Chunks.RowAllocator.FillTrailing | src/openvic-simulation/ecs/Archetype.hpp:355-365 | one round of the loop reserves, in one chunk, exactly the next rows the single reservations would |
| Chunks.RowAllocator.ReserveRows | src/openvic-simulation/ecs/Archetype.hpp:348-371 | reserving n rows gives the same counts and the same locations in the same order as n single reservations, and no empty range |
| Chunks.ReservedContiguous | src/openvic-simulation/ecs/Archetype.hpp:336-340 | the n reserved locations are the next n global row numbers, and only the trailing chunk is partial afterwards |
| Chunks.PackedSum | src/openvic-simulation/ecs/Archetype.hpp:102-106 | in packed chunks the counts sum to full chunks times capacity plus the last count |
| Chunks.PushRows | src/openvic-simulation/ecs/Archetype.hpp:312-326 | appending keeps chunks packed, adds exactly the new location and moves no row |
| Chunks.SwapPopRows | src/openvic-simulation/ecs/Archetype.hpp:102-106 | removal keeps chunks packed, gives up exactly the global last location, and puts its row where the removed one was |
| Chunks.PushReserves | src/openvic-simulation/ecs/Archetype.hpp:303-326 | on counts, appending rows is the row allocator of the archetype |
| EntityWorld.EcsWorld.AllocateEntitySlot | src/openvic-simulation/ecs/World.cpp:79-109 | reuses the head of the free list with a bumped, clamped generation, or grows the table; the rest is unchanged, and the id is none that any slot has had last |
| EntityWorld.EcsWorld.ReserveEntitySlot | src/openvic-simulation/ecs/World.cpp:111-120 | the new state and the id are those of the reservation on values, and the id differs from the last one of every slot |
| EntityOps.ReserveInv | src/openvic-simulation/ecs/World.cpp:79-120 | a reservation keeps the invariant, hands out an id no slot held, and leaves every live entity as it was |
| EntityOps.ReservedIdIsNew | src/openvic-simulation/ecs/World.cpp:92-109 | a reservation hands out an id that no slot has had last, in use or stale |
| IdFreshness.RunMoves | src/openvic-simulation/ecs/World.cpp:79-120 | over any run of operations every id handed out is the next generation of its index, and a slot is taken into use or changes its generation only by being handed out |
| IdFreshness.NoIdTwice | src/openvic-simulation/ecs/World.cpp:92-102 | no id is handed out twice while no index is reserved more than 0x7FFF_FFFF times |
| IdFreshness.OldIdsStayAway | src/openvic-simulation/ecs/World.cpp:92-102 | no id that a slot has at the start is handed out while its index is reserved fewer than 0x7FFF_FFFF times |
| IdFreshness.StaleForever | src/openvic-simulation/ecs/World.hpp:44-46 | an id that was held and is not any more is never held again, whatever operations follow, within that bound |
| IdFreshness.DestroyedForGood | src/openvic-simulation/ecs/World.hpp:44-46 | in particular the id of a destroyed entity |
| IdFreshness.IdsComeBack | src/openvic-simulation/ecs/World.cpp:98-102 | the bounds are exact: after 0x7FFF_FFFF reservations of one index a stale id is handed out again, and one later the first of them |
| EntityWorld.EcsWorld.FindOrCreateArchetype | src/openvic-simulation/ecs/World.cpp:173-202 | finds the archetype of the signature or appends an empty one, and indexes it |
| EntityWorld.EcsWorld.FinalizeReservedEntity | src/openvic-simulation/ecs/World.cpp:508-541 | the new state is the finalisation on values, including the no-op for ids that are not reserved |
| EntityOps.FinaliseInv | src/openvic-simulation/ecs/World.cpp:508-541 | finalising keeps slots and rows inverse to each other and every archetype packed and well-typed |
| EntityOps.FinaliseMeaning | src/openvic-simulation/ecs/World.cpp:508-541 | exactly the reserved entity becomes live with exactly its components; any other id changes nothing |
| EntityWorld.EcsWorld.CompactArchetypeAfterExternalMove | src/openvic-simulation/ecs/World.cpp:227-269 | fills the vacated row from the global last row, drops an emptied chunk and reseats the moved entity |
| EntityWorld.EcsWorld.DropReservedSlot | src/openvic-simulation/ecs/World.cpp:317-332 | frees exactly a slot that is reserved but unfinalised under that id |
| EntityWorld.EcsWorld.DestroyEntity | src/openvic-simulation/ecs/World.cpp:275-315 | the new state is the destruction on values, for live, unfinalised, stale and invalid ids |
| EntityOps.DestroyInv | src/openvic-simulation/ecs/World.cpp:271-315 | destroying keeps the invariant, through swap-pop and the free chain |
| EntityOps.DestroyMeaning | src/openvic-simulation/ecs/World.cpp:271-315 | exactly the destroyed entity disappears from the entity map |
| EntityWorld.EcsWorld.FinalizeReservedEntitiesBulk | src/openvic-simulation/ecs/World.cpp:562-653 | for any batch: finalising the entities one by one, on both paths, unless the batch passes the pre-validation and repeats an id; then the batch fill as it stands |
| BulkFinalise.FillRows | src/openvic-simulation/ecs/Archetype.hpp:348-371 | filling chunk by chunk gives the same chunks and the same row locations as pushing the rows one by one |
| BulkFinalise.BulkIsFinaliseAll | src/openvic-simulation/ecs/World.cpp:621-653 | the fast path, which finds the archetype once, fills chunks by ranges and seats slots range by range, equals one-by-one finalisation |
| BulkFinalise.FastPathSound | src/openvic-simulation/ecs/World.cpp:573-639 | on a batch that passes the pre-validation, the fast path keeps the store invariant if and only if the batch repeats no id, a precondition that ids reserved by the recorders meet |
| EntityOps.MigrateInv | src/openvic-simulation/ecs/CommandBuffer.cpp:245-277 | moving a row to another archetype keeps the slot table the exact inverse of the entity arrays through swap-pop |
| EntityOps.MigrateMeaning | src/openvic-simulation/ecs/CommandBuffer.cpp:245-277 | a migration changes exactly the moved entity, to exactly the target components |
| EntityOps.AddInv | src/openvic-simulation/ecs/CommandBuffer.cpp:147-291 | applying an add keeps the invariant: strictly sorted signatures, packed chunks, exact inverse, free chain |
| EntityOps.AddMeaning | src/openvic-simulation/ecs/CommandBuffer.cpp:147-291 | an add sets exactly that component of exactly that entity, and does nothing to dead, deferred or immutable ones |
| EntityOps.RemoveInv | src/openvic-simulation/ecs/CommandBuffer.cpp:292-383 | applying a remove keeps the invariant |
| EntityOps.RemoveMeaning | src/openvic-simulation/ecs/CommandBuffer.cpp:292-383 | a remove deletes exactly that component of exactly that entity, unless it is missing, the last one, or the entity is dead or immutable |
| CommandBuffers.SortIds | src/openvic-simulation/ecs/CommandBuffer.hpp:359-366 | the in-place selection sort yields the strictly ascending list of the same ids |
| CommandBuffers.PlaceValues | src/openvic-simulation/ecs/CommandBuffer.hpp:388-407 | each value lands in the column of its own id |
| CommandBuffers.TargetWith | src/openvic-simulation/ecs/CommandBuffer.cpp:221-243 | the target signature is the old one with the id inserted in order |
| CommandBuffers.TargetWithout | src/openvic-simulation/ecs/CommandBuffer.cpp:335-348 | the target signature is the old one without the id |
| CommandBuffers.CarryValues | src/openvic-simulation/ecs/CommandBuffer.cpp:251-270 | the target row takes the new value in its column and carries every other value over |
| CommandBuffers.MigrateEntity | src/openvic-simulation/ecs/CommandBuffer.cpp:245-277 | pushing the new row, compacting the old one and reseating the slot is the migration on values |
| CommandBuffers.ApplyAdd | src/openvic-simulation/ecs/CommandBuffer.cpp:147-291 | every branch of the add op produces the add on values |
| CommandBuffers.ApplyRemove | src/openvic-simulation/ecs/CommandBuffer.cpp:292-383 | every branch of the remove op produces the remove on values |
| CommandBuffers.ApplySingleCreate | src/openvic-simulation/ecs/CommandBuffer.cpp:35-80 | resolves or reserves the id, binds the placeholder, finalises, and stamps immutability by index |
| CommandBuffers.ApplyBulkCreate | src/openvic-simulation/ecs/CommandBuffer.cpp:81-140 | reserves and binds the range, finalises the batch, and stamps only slots still held by their id |
| CommandBuffers.CommandBuffer.constructor | src/openvic-simulation/ecs/CommandBuffer.hpp:331-338 | a new buffer is empty, hands out no placeholder and is not in parallel mode |
| CommandBuffers.CommandBuffer.RecordCreateEntity | src/openvic-simulation/ecs/CommandBuffer.hpp:344-411 | parallel mode hands out the next placeholder and leaves the world alone, serial mode reserves a real id; the appended op holds exactly the given components under a sorted signature |
| CommandBuffers.CommandBuffer.RecordDestroyEntity | src/openvic-simulation/ecs/CommandBuffer.hpp:208-213 | the queue gains exactly that op |
| CommandBuffers.CommandBuffer.RecordAddComponent | src/openvic-simulation/ecs/CommandBuffer.hpp:584-613 | the queue gains exactly that op, and placeholders stay as they are |
| CommandBuffers.CommandBuffer.RecordRemoveComponent | src/openvic-simulation/ecs/CommandBuffer.hpp:616-623 | the queue gains exactly that op |
| CommandBuffers.StageColumns | src/openvic-simulation/ecs/CommandBuffer.hpp:425-563 | each component with data takes the next span, or its default values in the form without spans; tags take none |
| CommandBuffers.RowIsGiven | src/openvic-simulation/ecs/CommandBuffer.hpp:509-541 | the row of entity k holds, under each component, exactly what the caller gave for that entity and that component |
| CommandBuffers.CommandBuffer.RecordCreateEntities | src/openvic-simulation/ecs/CommandBuffer.hpp:425-563 | refuses mismatched sizes and changes nothing then; otherwise hands out count sequential placeholders or count reserved ids, and entity k of the op has for each component the tag value, its default, or entry k of the span whose number is how many components with data come before it |
| CommandBuffers.CommandBuffer.MergeFrom | src/openvic-simulation/ecs/CommandBuffer.cpp:396-424 | the result is the merge of the two recordings and the other buffer is left empty, on both paths |
| CommandBuffers.CommandBuffer.Clear | src/openvic-simulation/ecs/CommandBuffer.cpp:390-394 | nothing stays recorded |
| CommandBuffers.CommandBuffer.Apply | src/openvic-simulation/ecs/CommandBuffer.cpp:15-388 | the world becomes what applying the recording in order makes of it, and the buffer is empty |
| CommandBuffers.MergePerChunk | src/openvic-simulation/ecs/SystemScheduler.cpp:578-589 | merging the per-chunk buffers in chunk order leaves the pending buffer their ordered merge and every chunk buffer empty and disarmed |
| CommandBuffers.ApplyStage | src/openvic-simulation/ecs/SystemScheduler.cpp:592-605 | the barrier applies every pending recording in stage order |
| BufferMerge.RebaseOps | src/openvic-simulation/ecs/CommandBuffer.cpp:405-420 | rebased operations do on a widened placeholder map exactly what the originals do on their own map |
| Placeholders.StandsForCreated | src/openvic-simulation/ecs/CommandBuffer.cpp:23-31 | throughout a buffer a placeholder stands for the entity that an earlier op created for it |
| Placeholders.StandsForItself | src/openvic-simulation/ecs/CommandBuffer.cpp:23-31 | an op on a real id is done to that id, and one on a placeholder without an entity changes nothing |
| Placeholders.CreateMakesEntity | src/openvic-simulation/ecs/CommandBuffer.cpp:37-80 | a create makes one entity with the recorded components and immutability, under a fresh id or the one reserved for it, and changes no other |
| BufferMerge.RebaseKeepsApart | src/openvic-simulation/ecs/CommandBuffer.cpp:405-420 | rebasing keeps placeholders of the two buffers different and within the merged count, and leaves real ids unchanged |
| BufferMerge.MergeWellRecorded | src/openvic-simulation/ecs/CommandBuffer.cpp:396-424 | the merge of two buffers that define only placeholders they handed out is such a buffer again |
| BufferMerge.MergeThenApply | src/openvic-simulation/ecs/CommandBuffer.cpp:396-424 | applying a merged buffer is applying the two parts one after the other, each with its own placeholder map |
| BufferMerge.MergeAllThenApply | src/openvic-simulation/ecs/SystemImpl.hpp:145-149 | the same for the whole list of per-chunk buffers |
| BufferMerge.MergeAssociative | src/openvic-simulation/ecs/CommandBuffer.cpp:396-424 | merging is associative |
| BulkCreate.BulkIsSingles | src/openvic-simulation/ecs/CommandBuffer.cpp:85-101 | a deferred bulk create of n entities equals n single creates: same ids in the same order, same rows, same placeholder map, same immutability |
| SerialCreate.SerialBulkIsSingles | src/openvic-simulation/ecs/CommandBuffer.cpp:114-125 | a serially recorded bulk create leaves the same abstract store as its single creates if and only if it is mutable or no slot it names is now held by another entity that is not yet immutable |
| SerialCreate.SingleStampHitsStranger | src/openvic-simulation/ecs/CommandBuffer.cpp:60-65 | the single-create branch freezes whatever live entity now holds the slot, while the bulk branch changes nothing |
| StoreRefinement.ReserveRefines | src/openvic-simulation/ecs/World.cpp:79-120 | on the abstract store (entity map plus pending ids) a reservation adds one fresh pending id |
| StoreRefinement.OpRefines | src/openvic-simulation/ecs/CommandBuffer.cpp:33-385 | every operation keeps the invariant and acts on the abstract store as its plain-map specification, with the reserved ids as the only information passed in |
| StoreRefinement.ApplyRefines | src/openvic-simulation/ecs/CommandBuffer.cpp:15-388 | whole buffers refine the plain map from entity to component map |
| Immutability.ImmutableStep | src/openvic-simulation/ecs/CommandBuffer.cpp:147-383 | a live immutable entity carries the same components through any operation, except its own destruction |
| Immutability.ImmutableForLife | src/openvic-simulation/ecs/CommandBuffer.cpp:15-388 | the same over whole buffers that do not destroy it |
| Immutability.NeverEmpty | src/openvic-simulation/ecs/CommandBuffer.cpp:305-335 | no live entity ever has an empty component map |
| Queries.MatchesAll | src/openvic-simulation/ecs/Archetype.hpp:172-186 | the two-pointer walk decides inclusion of the required ids |
| Queries.MatchesNone | src/openvic-simulation/ecs/Archetype.hpp:189-202 | the two-pointer walk decides disjointness from the excluded ids |
| Queries.RequiredBits | src/openvic-simulation/ecs/World.cpp:670-674 | the bit prefilter never rejects an archetype that holds all required ids |
| Queries.DisjointBits | src/openvic-simulation/ecs/World.cpp:675-681 | when no bit is shared, no excluded id is present, so skipping the walk is right |
| Queries.ResolveQuery | src/openvic-simulation/ecs/World.cpp:669-686 | the resolved indices are ascending and exactly those of the matching archetypes, prefilter included |
| Queries.CollectMatchingChunks | src/openvic-simulation/ecs/SystemImpl.hpp:94-110 | the chunk list is in (archetype, chunk) order and holds exactly the nonempty chunks of matching archetypes |
| Queries.ChunksCoverRows | src/openvic-simulation/ecs/SystemImpl.hpp:94-110 | every row of a matching archetype is in exactly one listed chunk, and no other row is |
| ThreadPool.CountersStep | src/openvic-simulation/ecs/EcsThreadPool.cpp:29-134 | every step keeps each completion counter equal to its dispatch's queued and in-flight jobs |
| ThreadPool.OnceStep | src/openvic-simulation/ecs/EcsThreadPool.cpp:29-134 | every step keeps each made job in exactly one place: queued, running or run |
| ThreadPool.StepInv | src/openvic-simulation/ecs/EcsThreadPool.cpp:16-134 | every step of any thread keeps the whole invariant |
| ThreadPool.RunInv | src/openvic-simulation/ecs/EcsThreadPool.cpp:16-134 | it holds in every run, with overlapping and nested dispatches |
| ThreadPoolTheorems.ReturnMeansDone | src/openvic-simulation/ecs/EcsThreadPool.hpp:23-28 | when a dispatch can return, each of its bodies has run exactly once, none is queued, and no worker refers to its stack state |
| ThreadPoolTheorems.NoStaleReference | src/openvic-simulation/ecs/EcsThreadPool.cpp:55-65 | no thread ever refers to the state of a dispatch that has returned |
| ThreadPoolTheorems.ShutdownDropsNothing | src/openvic-simulation/ecs/EcsThreadPool.cpp:16-44 | when all workers have exited, the queue is empty and every job ever made has run once |
| ThreadPoolTheorems.StuckExactly | src/openvic-simulation/ecs/EcsThreadPool.cpp:29-134 | with a dispatch outstanding, no thread can move if and only if every worker has exited or waits in a nested dispatch and no dispatch is ready to return |
| ThreadPoolTheorems.SparedNeverStuck | src/openvic-simulation/ecs/EcsThreadPool.hpp:75-81 | in every run, shutdown included, in which bodies dispatch only while another worker is neither gone nor in a nested wait, some thread can always move while a dispatch is outstanding |
| ThreadPoolTheorems.FlatNeverStuck | src/openvic-simulation/ecs/SystemScheduler.cpp:553-555 | without nested dispatches, and with at least one worker, some thread can always move while a dispatch is outstanding |
| ThreadPoolTheorems.MovesBounded | src/openvic-simulation/ecs/EcsThreadPool.cpp:29-134 | the number of steps the pool can take without new dispatches is bounded by the work at hand |
| ThreadPoolTheorems.NestingWorkersStuck | src/openvic-simulation/ecs/EcsThreadPool.hpp:75-81 | for every w of at least 2, a pool of w workers has a run in which w bodies dispatch again and no thread can move, with the 2w inner slices queued and none run |
| ThreadPoolTheorems.SafeNestingExactly | src/openvic-simulation/ecs/EcsThreadPool.hpp:75-81 | on a pool of w workers, no run with at most k nested waits at once is ever stuck before shutdown, if and only if k < w |
| Fnv.Fnv1a64Bytes | src/openvic-simulation/ecs/ChecksumTraits.hpp:45-53 | the byte loop is the left fold of the FNV-1a round modulo 2^64 |
| Fnv.XorComesFirst | src/openvic-simulation/ecs/ChecksumTraits.hpp:48-51 | the byte is exclusive-ored into the state before the multiplication |
| Fnv.PublishedValues | src/openvic-simulation/ecs/ChecksumTraits.hpp:38-53 | the fold gives the published 64-bit FNV-1a values of the empty string and of "a" |
| Fnv.FoldUint64 | src/openvic-simulation/ecs/ChecksumTraits.hpp:56-63 | the shift loop is the FNV fold of the eight bytes of the value, byte i being value / 256^i modulo 256 |
| Fnv.LittleEndianInjective | src/openvic-simulation/ecs/ChecksumTraits.hpp:56-63 | the eight bytes determine the word |
| Fnv.TimesUndo | src/openvic-simulation/ecs/ChecksumTraits.hpp:50-50 | multiplication by the prime is undone by its inverse modulo 2^64 |
| Fnv.RoundInjective | src/openvic-simulation/ecs/ChecksumTraits.hpp:48-51 | a round is injective in the state |
| Fnv.RoundSeparatesBytes | src/openvic-simulation/ecs/ChecksumTraits.hpp:48-51 | a round separates bytes |
| Fnv.FnvSeedInjective | src/openvic-simulation/ecs/ChecksumTraits.hpp:45-53 | folding any bytes is injective in the seed |
| Fnv.OneByteNeverCollides | src/openvic-simulation/ecs/ChecksumTraits.hpp:45-53 | equal-length inputs that differ in exactly one byte never hash equal |
| Checksum.HashRows | src/openvic-simulation/ecs/ChecksumTraits.hpp:122-142 | both thunks hash a column as folding its elements one by one |
| Checksum.SlabIsElementwise | src/openvic-simulation/ecs/ChecksumTraits.hpp:43-44 | hashing a contiguous slab equals folding its elements one by one |
| Checksum.SortSingletons | src/openvic-simulation/ecs/Checksum.cpp:60-70 | the ids come out strictly ascending and complete, whatever the map's iteration order |
| Checksum.SortedIdsUnique | src/openvic-simulation/ecs/Checksum.cpp:58-70 | there is only one such order |
| Checksum.WalkArchetypes | src/openvic-simulation/ecs/Checksum.cpp:25-56 | entries and total are those of the nonempty archetypes by index |
| Checksum.WalkSingletons | src/openvic-simulation/ecs/Checksum.cpp:71-78 | entries and total are those of the singletons in ascending id order |
| Checksum.Walk | src/openvic-simulation/ecs/Checksum.cpp:22-84 | the breakdown is the archetype entries, the singleton entries and the fold of their hashes |
| Checksum.FoldBreakdown | src/openvic-simulation/ecs/Checksum.cpp:97-106 | folding a breakdown gives the total the walk accumulates |
| Checksum.WalksAgree | src/openvic-simulation/ecs/Checksum.cpp:87-106 | two walks with any two map iteration orders give the same breakdown, and refolding it gives the same total |
| ChecksumTheorems.DrainedInvisible | src/openvic-simulation/ecs/Checksum.cpp:28-32 | an archetype without rows, anywhere in the list, does not show in the hashes |
| ChecksumTheorems.FlipChangesOneEntry | src/openvic-simulation/ecs/Checksum.hpp:55-56 | changing one byte of one byte-hashed component changes exactly the entry of its archetype, if custom hashes lose nothing of their seed |
| ChecksumStreams.HashOfStream | src/openvic-simulation/ecs/Checksum.cpp:25-56 | an archetype's hash is plain FNV-1a of one byte string: its ids, then per chunk the entity ids and the columns |
| ChecksumStreams.SameLengthSeparates | src/openvic-simulation/ecs/Checksum.cpp:34-51 | two archetypes that a world can hold, with as many components, have one byte string if and only if they are equal |
| ChecksumStreams.StreamsCoincide | src/openvic-simulation/ecs/Checksum.cpp:34-51 | two archetypes have one byte string if and only if they are equal or one is the other shifted: the longer signature continues the shorter, and its last ids and its rows spell the rows of the other |
| ChecksumStreams.ShiftNeedsClash | src/openvic-simulation/ecs/Checksum.cpp:34-51 | a shift needs an entity whose id, as a word, is the next component id of the longer signature |
| ChecksumTotals.CoincideExactly | src/openvic-simulation/ecs/Checksum.cpp:34-81 | two entries of the walk, archetypes or singletons, are hashed from one byte string if and only if they are equal, shifted, or a singleton that spells an archetype |
| ChecksumTotals.ApartSeparates | src/openvic-simulation/ecs/Checksum.cpp:34-81 | if no entity id of one entry is a component id of the other and no component id names both an archetype column and a singleton, they coincide if and only if they are equal |
| ChecksumTotals.TotalOfStreams | src/openvic-simulation/ecs/Checksum.cpp:22-84 | the total is FNV-1a of the words that are the hashes of the entries' byte strings |
| ChecksumTotals.CoincidingTotals | src/openvic-simulation/ecs/Checksum.hpp:36-37 | states whose entries coincide one by one have equal totals, with no assumption on the hash function |
| ChecksumTotals.TotalsAgreeExactly | src/openvic-simulation/ecs/Checksum.hpp:36-37 | if FNV-1a does not collide on the byte strings of the two walks, two live states have equal totals if and only if their entries coincide one by one |
| ChecksumTotals.TotalSeparates | src/openvic-simulation/ecs/Checksum.hpp:36-37 | under the same assumption, equal totals mean equal live state if no component id is an entity id of the other state's entry or names both a component and a singleton |
| ChecksumTotals.TagsClashExactly | src/openvic-simulation/ecs/Checksum.hpp:36-37 | for two tags c < x, an archetype of both and an archetype of c alone that a world can hold share a byte string if and only if x is a word that the world can hand out as an entity id |
| ChecksumTotals.DigestWithoutFraming | src/openvic-simulation/ecs/Checksum.hpp:36-37 | for every two such tags there are two different live states with equal totals |
| Reductions.KeyedEmitter.Add | src/openvic-simulation/ecs/Reductions.hpp:78-92 | the buffer keeps distinct keys, each with the fold of its values in emission order |
| Reductions.FoldGroup | src/openvic-simulation/ecs/Reductions.hpp:125-130 | adding a chunk's partial fold onto the output equals adding its values one by one, by associativity alone |
| Reductions.ChunkSum | src/openvic-simulation/ecs/Reductions.hpp:125-130 | folding a sparse buffer adds to key k exactly the fold of the values emitted for k |
| Reductions.FoldBuffers | src/openvic-simulation/ecs/Reductions.hpp:125-130 | after the sequential fold every key holds its initial value plus its values in chunk-then-emission order |
| Reductions.ParallelKeyedSum | src/openvic-simulation/ecs/Reductions.hpp:111-131 | the same after every execution order of the chunks, with dirty scratch buffers |
| Reductions.ParallelSum | src/openvic-simulation/ecs/Reductions.hpp:24-34 | the result is the left fold in chunk order, for every execution order |
| DenseSlots.DenseSlotAllocator.Allocate | src/openvic-simulation/ecs/DenseSlotAllocator.cpp:11-22 | pops the last released slot, else grows, else reports exhaustion and changes nothing |
| DenseSlots.DenseSlotAllocator.Release | src/openvic-simulation/ecs/DenseSlotAllocator.cpp:24-33 | pushes the slot, or ignores one that was never allocated |
| DenseSlots.DenseSlotAllocator.Reset | src/openvic-simulation/ecs/DenseSlotAllocator.cpp:35-38 | back to the empty image |
| DenseSlots.DenseSlotAllocator.TakeSnapshot | src/openvic-simulation/ecs/DenseSlotAllocator.cpp:40-43 | the image is the whole state |
| DenseSlots.DenseSlotAllocator.Restore | src/openvic-simulation/ecs/DenseSlotAllocator.cpp:45-64 | accepts exactly the images with distinct free slots below the high-water mark, and changes nothing otherwise |
| DenseSlots.DenseSlotAllocator.DebugValidate | src/openvic-simulation/ecs/DenseSlotAllocator.cpp:66-78 | true exactly on such states |
| DenseSlots.CheckSorted | src/openvic-simulation/ecs/DenseSlotAllocator.cpp:46-60 | the sorted scan decides range and distinctness of the free slots |
| DenseSlots.RunPartitions | src/openvic-simulation/ecs/DenseSlotAllocator.cpp:11-33 | over every run that releases only live slots, live and free slots partition the range below the high-water mark |
| DenseSlots.NeverHandsOutLive | src/openvic-simulation/ecs/DenseSlotAllocator.cpp:11-22 | the next slot is never live, and the invalid slot is reported exactly when every slot is live |
| DenseSlots.LastReleasedFirst | src/openvic-simulation/ecs/DenseSlotAllocator.cpp:11-33 | released slots come back last released first, and taking one back undoes its release |
| DenseSlots.ContinuesAlike | src/openvic-simulation/ecs/DenseSlotAllocator.cpp:40-64 | from a restored image any calls give the same answers as the run that never saved |
| DenseSlots.DoubleReleaseSharesSlot | src/openvic-simulation/ecs/DenseSlotAllocator.cpp:24-33 | releasing a live slot twice hands it out twice and leaves an image that validation refuses |
| MathSqrt.Sqrt | src/openvic-simulation/core/MathSqrt.hpp:6-30 | the least r with n <= r * r, for every 64-bit n |
| MathSqrt.Round | src/openvic-simulation/core/MathSqrt.hpp:15-22 | one digit step keeps the partial-root invariant, and neither sum it computes exceeds 64 bits |
| Stockpile.Redistribute | src/openvic-simulation/country/CountryInstance.cpp:2219-2258 | the loop terminates with a level division: every good is either paid its cap, exactly when the level reaches it, or the whole part of its share of what the others leave, and nothing if that buys less than the smallest quantity |
| Stockpile.Pass | src/openvic-simulation/country/CountryInstance.cpp:2226-2257 | one pass stops at the first good whose share reaches its cap, or shares out among all open goods |
| Stockpile.SettleOrShare | src/openvic-simulation/country/CountryInstance.cpp:2225-2258 | a repeated pass settles one more good, and cash and weight sum stay those of the open goods |
| Stockpile.LevelRises | src/openvic-simulation/country/CountryInstance.cpp:2236-2249 | settling a good never lowers another good's share: a good that could be settled stays so |
| Stockpile.WithinFunds | src/openvic-simulation/country/CountryInstance.cpp:2219-2268 | no good gets more than its cap and the total never exceeds the funds |
| Stockpile.LevelTakesFunds | src/openvic-simulation/country/CountryInstance.cpp:2236-2257 | before rounding, the final level spends the funds exactly |
| Stockpile.OrderIrrelevant | src/openvic-simulation/country/CountryInstance.cpp:2227-2257 | two equal goods in two orders of the same list get the same money: the order of the goods never matters |
| Connectivity.ResetFlags | src/openvic-simulation/country/CountryInstance.cpp:1919-1943 | owned provinces are disconnected and overseas exactly off the capital's continent; others keep their flags |
| Connectivity.Explore | src/openvic-simulation/country/CountryInstance.cpp:1957-1965 | one province's neighbours: the list grows by exactly the newly reached owned provinces |
| Connectivity.Flood | src/openvic-simulation/country/CountryInstance.cpp:1950-1967 | the growing list terminates, and everything adjacent to a listed province and owned is listed |
| Connectivity.UpdateConnectivity | src/openvic-simulation/country/CountryInstance.cpp:1916-1967 | an owned province is connected if and only if it is the capital or reachable from it by steps onto owned provinces, and overseas if and only if off the capital's continent and not reached; provinces the country lost keep stale flags |
| Rankings.MakeRanking | src/openvic-simulation/country/CountryInstanceManager.cpp:55-93 | a ranking lists every existing country once, in order, ties by position |
| Rankings.SortInOrder | src/openvic-simulation/country/CountryInstanceManager.cpp:68-93 | a stable sort of an ascending list is ordered by key, then by position |
| Rankings.AssignRanks | src/openvic-simulation/country/CountryInstanceManager.cpp:95-101 | the loop gives the n-th of each ranking rank n and changes nothing else |
| Rankings.RankingGivesOrder | src/openvic-simulation/country/CountryInstanceManager.cpp:95-101 | ranks compare as the order does, and are distinct |
| Rankings.ComputeRanks | src/openvic-simulation/country/CountryInstanceManager.cpp:56-101 | ranks by fields: civilised countries before the others, then descending total score; descending prestige, industrial power and military power for the other three; ties to the lower index. The four rankings list every existing country at the place of its rank |
| Rankings.RanksByFields | src/openvic-simulation/country/CountryInstanceManager.cpp:68-101 | how the four ranks of two existing countries compare, in terms of the fields they are computed from |
| GreatPowers.DemoteGreatPowers | src/openvic-simulation/country/CountryInstanceManager.cpp:107-123 | demotes exactly the great powers below the limit and past their date, and keeps exactly the rest, in order |
| GreatPowers.DemoteSecondaryPowers | src/openvic-simulation/country/CountryInstanceManager.cpp:125-132 | exactly the listed secondary powers lose the status |
| GreatPowers.PromoteOne | src/openvic-simulation/country/CountryInstanceManager.cpp:141-162 | one round: great power while slots remain and the rank allows, else secondary power while its rank allows |
| GreatPowers.PromoteAll | src/openvic-simulation/country/CountryInstanceManager.cpp:138-163 | the loop, with its clamp and its break, promotes exactly as if it went through the whole ranking |
| GreatPowers.RedateAll | src/openvic-simulation/country/CountryInstanceManager.cpp:171-177 | exactly the great powers within the limit get the new date |
| GreatPowers.OutcomeOf | src/openvic-simulation/country/CountryInstanceManager.cpp:107-177 | what one update does is described without its steps: who stays, who is chosen, who is passed over and why, and that the lists are exact and sorted |
| GreatPowers.UpdatePowers | src/openvic-simulation/country/CountryInstanceManager.cpp:103-178 | the steps together produce that outcome |
| GreatPowers.CountryInstanceManager.UpdateRankings | src/openvic-simulation/country/CountryInstanceManager.cpp:55-178 | the fields change by one such update from freshly computed ranks, which compare as the countries' scores, and the four stored rankings hold each country at the place of its rank |
| GreatPowers.ListsExact | src/openvic-simulation/country/CountryInstanceManager.cpp:55-178 | over every run both lists are duplicate-free, hold exactly the countries with the status in rank order, and the great powers never exceed the configured count |
| GreatPowers.DemotedExactly | src/openvic-simulation/country/CountryInstanceManager.cpp:111-123 | an update takes great-power status from a country if and only if it ranks below the limit and its date has passed |
| GreatPowers.NewcomersScoreBetter | src/openvic-simulation/country/CountryInstanceManager.cpp:68-163 | a civilised country within the limit that is passed over scores no better than any that is newly made a great power |
| GreatPowers.GraceHolds | src/openvic-simulation/country/CountryInstanceManager.cpp:171-177 | a great power within the limit at one update is still one after every update in the grace days after it, whatever its rank does |
| GreatPowers.ExtinctGreatPowerStays | src/openvic-simulation/country/CountryInstanceManager.cpp:58-62 | a great power that no longer exists keeps its old rank, so it keeps its slot and has its date renewed |

## Left out

- StageExecution.StageDeterministic: items are deterministic step programs that read and write declared cells; a system split into chunks must not extra-read what it writes (`ChunksRaceExactly` says why).
- StageReservations.StageAgreesExactly: a step reserves at most one slot, so a bulk create is a sequence of steps. An item that only looks at the slot table beside a single reserver may or may not notice it; `StageApartExactly` says that some program does.
- Tick.TickDeterministic: a system's program and its should_run predicate are functions of its type, the game they find and its part of the rows; should_run records nothing.
- TickMeaning.ParallelMeaning: says it for buffers whose ops hand out only placeholders of their own range, which `CommandBuffer.Valid` guarantees of recorded ones.
- IdFreshness.StaleForever: the runs are made of calls on the world and applied buffers; restoring a saved identity is not among them.
- DispatchedStage.DispatchFinishes: a stage of one item runs inline and is no dispatch.
- ScheduleInvariance.ScheduleInvariant: needs unique alive type ids; with duplicates the index-level contract of `Rebuild` still holds.
- EntityWorld.EcsWorld.DestroyEntity: the refusal during a tick outside the apply phase (`ecs/World.cpp:272-274`) is not modelled, like the other mid-tick guards.
- ChecksumTheorems.FlipChangesOneEntry: custom hash functions of the archetype's other columns are arbitrary functions, so it assumes that they are injective in the seed; a custom hash that forgets its seed would hide the change.
- ChecksumTotals.TotalsAgreeExactly: columns and singletons are byte-hashed, because a custom hash is an arbitrary function; that FNV-1a does not collide on the byte strings at hand is a hypothesis, since 64 bits cannot separate all of them.
- Stockpile.Redistribute: requires positive caps and prices and non-negative weights; fixed-point amounts are unbounded integers, `mul_div` and the division by price round down. Choosing the goods, the sell side and the market orders are not modelled.
- GreatPowers.CountryInstanceManager.UpdateRankings: requires at least `great_power_rank` existing countries, because the clamp at `country/CountryInstanceManager.cpp:138` is undefined otherwise; between updates other code may take the two statuses away but not grant them.
- Reductions.ParallelKeyedSum: a body is the sequence of pairs it emits; keys are below the key count, as the code asserts.
- Component values: a component is an integer and a payload's ownership is its position; raw memory, alignment, vtables, destructors and column versions are not modelled. Chunk capacity is a parameter of the signature.
- 32-bit counters: slot indices, placeholder counts and chunk numbers are unbounded; the 31-bit clamp of generations is modelled.
- The query cache and its epochs, cached references, chunk pool ageing, mid-tick guards and their log messages.
- Saving and restoring the World's identity, `snapshot_identity` and `restore_identity`.
- Thread pool: operating-system wake-ups, spurious wake-ups, exceptions in bodies, and use of the pool by outside threads after its destructor has begun. The inline paths (`ecs/EcsThreadPool.hpp:54-61`) queue nothing and wait for nothing, so a dispatch of one slice or on at most one worker is no step of the pool.
- `parallel_min` and `parallel_max`: folds like `parallel_sum`.
- Native byte order of hashed slabs: an element is its byte sequence.
- The library sorts are modelled by a stable insertion sort; ties that `std::sort` may order freely occur only between equal keys.
- Loaders, defines, history, map data, console, user interface, path search and the remaining economy.
