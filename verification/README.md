# Verified models of a linear solver and of Valgrind's profilers

The repository holds a dense linear solver in two versions and a part of Valgrind 3.22. This project
models their algorithmic cores in Dafny and proves what they promise. Code that works in place is
modelled in place: classes with the fields of the C structures, loops over arrays, and contracts that
tie the new state to a function of the old one. What the code promises is then proved about those
functions, for all inputs and all runs.

| files | what they model |
|---|---|
| `Lru`, `SetCache`, `CacheModel`, `SetArray`, `Hierarchy`, `CacheSim`, `AccessBytes` | the set-associative LRU cache of cachegrind, from one set to two levels, on values and in place; what an access means byte by byte |
| `WriteBack`, `WriteBackSim` | callgrind's write-back variant, with the dirty bit hidden in the tag |
| `CacheUse`, `CacheUseSim`, `CacheUseLines` | callgrind's cache-use variant, with a slot number hidden in the low tag bits |
| `Elimination`, `BackSubstitution`, `Factors`, `Dgesv` | Gaussian elimination with and without partial pivoting, sequential and parallel back substitution, and which matrices are accepted |
| `EventModel`, `EventWalk`, `EventQueue`, `BlockMeaning`, `CacheLevels` | cachegrind's instrumentation: the event queue that merges memory events into helper calls, and what a block does by its statements |
| `Adler`, `Frames` | the debug info protocol: its Adler-32 checksum with deferred reduction, its frames and their messages |
| `CallModel`, `CallSetup`, `CallNesting`, `CallStack`, `EventCost` | callgrind's shadow call stack, inclusive costs and cost vectors |
| `Jumps` | callgrind's hash table of call arcs with its last-used pointers |
| `SortModel`, `Sorting`, `QuickSort` | callgrind's in-place quicksort |
| `Printer` | the number printer of the debug log, and cachegrind's width calculator |
| `Words`, `Options` | powers of two, quotients and remainders; optional values |

Some facts about the code that the proofs bring out:

- The masked simulators (write-back, cache use) agree with the plain one on every stream within single
  lines exactly when the accesses are unambiguous in 32 address bits and only block 0 has the tag of an
  empty way (`CacheModel.MaskedAgreesIff`). On all accesses between 2^tag_shift and 2^32, straddling ones
  included, they agree on every stream exactly when the cache has at least two sets, or lines that cannot
  be straddled there (`CacheModel.InRangeAgreesIff`): a single set never loads the second line of a
  straddling access, so bytes 31 and 32 and then byte 32, in lines of 16, miss where the plain cache hits.
- Which factors partial pivoting finds depends on ties: a matrix can have factors with multipliers of at most
  1 and no small pivot, and still be answered with -1, because the solver takes the first of the tied rows
  (`Factors.TiesMatter`). `Factors.AcceptsIffFactored` says exactly which matrices are accepted.
- In the cache-use model an access to one of the lines whose tag is 0 hits in a way that was never loaded, and
  the record of that way keeps naming line 0 (`CacheUseLines.RecordedLineIff`).
- The quicksort is right for distinct keys. With equal keys it can fail: the start rotation at line 974
  of dump.c is only right when the equal keys do not outnumber a non-empty smaller part. The result is
  sorted if and only if that holds at every depth (`Sorting.SortedIffRotationsFit`); on 1 1 0 1 2 2 2 it
  does not.
- The comment at line 139 of jumps.c says the table is resized above 80 per cent; the integer division
  lets it fill to just under 90 (`Jumps.TooFull`).
- A negative number padded with zeros is printed with its sign after the zeros
  (`Printer.TextReadsBack`).
- No frame that the debug info server builds has a null buffer, so what it sends carries the checksum of
  RFC 1950 over length and data, which is what the client tests (`Frames.BuiltArrives`). A frame damaged in
  one byte of checksum or data is always refused (`Frames.DamageIsRefused`).
- The call stack array is doubled until its size is at least the index asked for, which makes no room for
  an index that is exactly the size doubled (`CallStack.NoRoomIff`). The code only asks for one past the end.

The whole project is checked with `dafny verify dfyconfig.toml`.

## Model

| member | source | states |
|---|---|---|
| Lru.ExactHistory | task3/valgrind-3.22.0/cachegrind/cg_sim.c:87-120 | a set that starts filled with z is, after any references, the first n of the distinct tags seen, most recent first, padded with z |
| Lru.HitIffReuseDistance | task3/valgrind-3.22.0/cachegrind/cg_sim.c:87-120 | a referenced tag is resident exactly when fewer than n distinct tags were referenced since; of the others only the fill is, exactly while fewer than n distinct tags were referenced at all |
| AccessBytes.PlacesAreBlocks | task3/valgrind-3.22.0/cachegrind/cg_sim.c:122-161 | the places of an access are exactly the lines it has a byte in, in increasing order, each in the set of its number modulo the sets; there are none exactly when it reaches more than two lines |
| CacheModel.CacheHistory | task3/valgrind-3.22.0/cachegrind/cg_sim.c:52-161 | after any accesses from cold, every set holds its most recent blocks, and the next access, straddling or not, hits exactly when each of its blocks is among them when its turn comes |
| CacheModel.LruInclusion | task3/valgrind-3.22.0/cachegrind/cg_sim.c:87-161 | with equal lines and sets the less associative cache stays a prefix of the other, hits only where that hits, and never has fewer misses |
| CacheModel.RepeatHits | task3/valgrind-3.22.0/cachegrind/cg_sim.c:124-161 | in a configuration that check_cache accepts, repeating any access at once, straddles and single-set caches included, hits and changes nothing |
| SetArray.Install | task3/valgrind-3.22.0/cachegrind/cg_sim.c:102-117 | the shifting loop: the vacated entry is dropped, those before it move down one, the tag is put in front, the rest of the array is untouched |
| SetArray.RowsUpdate | task3/valgrind-3.22.0/cachegrind/cg_sim.c:87-117 | rewriting one row of the flat array changes that set and no other |
| CacheSim.Log2 | task3/valgrind-3.22.0/coregrind/m_libcbase.c:948-956 | the exponent for a power of two below 2^32, and -1 for everything else |
| CacheSim.CheckCache | task3/valgrind-3.22.0/cachegrind/cg_arch.c:42-84 | accepts a configuration if and only if some geometry (powers of two, a line of at least 16 bytes, more than one line) describes it; each complaint is made only of a configuration that has that fault |
| CacheSim.Cache.constructor | task3/valgrind-3.22.0/cachegrind/cg_sim.c:52-83 | a checked configuration gives the geometry it describes, with every way cold |
| CacheSim.Cache.SetRefIsMiss | task3/valgrind-3.22.0/cachegrind/cg_sim.c:85-120 | the array becomes the LRU set after the reference, and the answer is that the tag was not resident |
| CacheSim.Cache.RefIsMiss | task3/valgrind-3.22.0/cachegrind/cg_sim.c:122-161 | outcome and contents are those of one access in the LRU model, with a panic beyond two lines |
| AccessBytes.DoRefCounts | task3/valgrind-3.22.0/cachegrind/cg_sim.c:177-213 | an access counts a first-level miss exactly when some line it has a byte in is not resident when its turn comes, and a last-level miss exactly when that is so in both levels; without the former the last level stays as it is |
| AccessBytes.NoXIffOneLine | task3/valgrind-3.22.0/cachegrind/cg_sim.c:215-232 | cachesim_is_IrNoX holds exactly for instructions whose bytes are all in one line, when both levels have lines of one size |
| Hierarchy.NoXIsGen | task3/valgrind-3.22.0/cachegrind/cg_sim.c:177-232 | wherever cachesim_is_IrNoX holds, the special fetch has the same misses and leaves the same caches as the general one |
| Hierarchy.RepeatIsFree | task3/valgrind-3.22.0/cachegrind/cg_sim.c:206-213 | an immediate repeat misses nowhere and leaves both levels as they are, without reaching the last level |
| CacheSim.DoRefGen | task3/valgrind-3.22.0/cachegrind/cg_sim.c:175-213 | both levels and both miss counters change as in the two-level model; the last level is consulted on a first-level miss only |
| CacheSim.DoRefNoXAt | task3/valgrind-3.22.0/cachegrind/cg_sim.c:187-202 | the same for the special fetch |
| CacheModel.MaskedAgreesIff | task3/valgrind-3.22.0/callgrind/sim.c:281-311 | on accesses within a line, comparing masked tags and set numbers gives the outcome of comparing blocks on every stream if and only if the low 32 address bits tell the blocks apart and only block 0 has the tag of an empty way |
| AccessBytes.MaskedPlacesAreBlocks | task3/valgrind-3.22.0/callgrind/sim.c:389-418 | the masked simulators reference the sets of the lowest and the highest line the access has a byte in, one place if they are the same, two if the second follows the first, and panic otherwise |
| AccessBytes.SameSets | task3/valgrind-3.22.0/callgrind/sim.c:389-418 | an access the plain simulator accepts goes to the same sets under both mappings, except that in a single set only its first line counts |
| AccessBytes.MaskedIsAligned | task3/valgrind-3.22.0/callgrind/sim.c:181-189 | the masked tag of an address is the start of its aligned part of 2^tag_shift bytes, in 32 bits |
| CacheModel.MaskedRefinesPlain | task3/valgrind-3.22.0/callgrind/sim.c:389-418 | with at least two sets, addresses from 2^tag_shift to 2^32 and accesses of at most a line, the masked mapping holds the renamed contents of the plain one and has its outcomes |
| CacheModel.SecondLineDisagrees | task3/valgrind-3.22.0/callgrind/sim.c:389-418 | in every cache of at least two sets and a tag shift below 32, the first access to line 1 from cold is a masked hit although the plain cache misses |
| CacheModel.SingleSetIgnoresStraddle | task3/valgrind-3.22.0/callgrind/sim.c:391-411 | with a single set a masked access references the line of its first byte only |
| CacheModel.StraddleDisagrees | task3/valgrind-3.22.0/callgrind/sim.c:391-411 | in every single-set cache and for every line but the first in 32 bits, an access across its start and then one to it hit in the plain cache and miss in the masked one |
| CacheModel.StraddleExample | task3/valgrind-3.22.0/callgrind/sim.c:391-411 | for example bytes 31 and 32 and then byte 32, in two ways with lines of 16 bytes |
| CacheModel.InRangeAgreesIff | task3/valgrind-3.22.0/callgrind/sim.c:389-418 | on all in-range accesses, straddling ones included, the masked and the plain mapping have the same outcomes on every stream if and only if there are at least two sets, or lines of 1 or 2^31 bytes |
| WriteBackSim.WriteBackRefinesPlain | task3/valgrind-3.22.0/callgrind/sim.c:350-418 | dropping the dirty bits gives the plain contents under masked names and the plain hits and misses on every in-range stream |
| WriteBackSim.WriteBackAgreesIff | task3/valgrind-3.22.0/callgrind/sim.c:350-418 | for every stream of in-range reads and writes the write-back cache hits where the plain one does, if and only if there are at least two sets or lines that cannot be straddled |
| WriteBack.DirtyIffWritten | task3/valgrind-3.22.0/callgrind/sim.c:344-387 | a resident line is dirty exactly when it was written since it was last installed |
| WriteBack.DirtyConserved | task3/valgrind-3.22.0/callgrind/sim.c:344-387 | dirty evictions plus dirty resident lines are exactly the references that made a line dirty |
| WriteBackSim.SetRunsItsWrites | task3/valgrind-3.22.0/callgrind/sim.c:389-418 | every set of the cache runs the references that go to it and no others |
| WriteBackSim.CacheDirtyIffWritten | task3/valgrind-3.22.0/callgrind/sim.c:344-418 | in every reachable state of the cache a resident line is dirty exactly when an access wrote it since it was last installed |
| WriteBackSim.CacheDirtyConserved | task3/valgrind-3.22.0/callgrind/sim.c:344-418 | in every reachable state the dirty evictions from a set plus its dirty lines are the references that made a line of it dirty |
| WriteBackSim.WbCache.SetRefWb | task3/valgrind-3.22.0/callgrind/sim.c:350-387 | the array becomes the write-back set after the reference; the result tells hit, clean miss and dirty miss apart |
| WriteBackSim.WbCache.Ref | task3/valgrind-3.22.0/callgrind/sim.c:389-418 | contents and outcome of one access; of two lines the worse outcome is reported |
| WriteBackSim.OutcomeIsWorst | task3/valgrind-3.22.0/callgrind/sim.c:402-411 | an access is a dirty miss if one of its references is, else a clean miss if one is, else a hit |
| WriteBackSim.WbCache.constructor | task3/valgrind-3.22.0/callgrind/sim.c:152-157 | a checked configuration starts cold and clean |
| CacheUseSim.CacheUseRefinesPlain | task3/valgrind-3.22.0/callgrind/sim.c:683-829 | on in-range streams to at least two sets the ways hold the plain contents under masked names, and the answer is L1_Hit exactly when the plain cache hits |
| CacheUseSim.CacheUseAgreesIff | task3/valgrind-3.22.0/callgrind/sim.c:683-829 | for every in-range stream the answer is L1_Hit exactly when the plain cache hits, if and only if there are at least two sets or lines that cannot be straddled |
| CacheUseSim.SlotsArePermuted | task3/valgrind-3.22.0/callgrind/sim.c:152-169 | in every reachable state the slots named by the ways of a set are a permutation of 0 .. assoc - 1 |
| CacheUseSim.RecordsAreExact | task3/valgrind-3.22.0/callgrind/sim.c:937-972 | in every reachable state the slot named by a resident line holds the memory line it was loaded from and the number of its uses since |
| CacheUseLines.RecordNamesLine | task3/valgrind-3.22.0/callgrind/sim.c:740-830 | the slot of a resident tag that an access brought in holds the start of a line with a byte of that access, and that line has the tag and belongs to the set |
| CacheUseLines.RecordedLineIff | task3/valgrind-3.22.0/callgrind/sim.c:740-830 | in every reachable state the line in the slot of a resident tag has that tag and belongs to that set, if and only if an access brought the tag in or the set is the first: the tag 0 of the empty ways keeps line 0 |
| CacheUseLines.LineOneIsNotLoaded | task3/valgrind-3.22.0/callgrind/sim.c:740-830 | for example after the first access to line 1 of a cold cache of two sets or more |
| CacheUse.RecordIsOfResident | task3/valgrind-3.22.0/callgrind/sim.c:937-972 | the same for one set and any references to it |
| CacheUseSim.UseCache.constructor | task3/valgrind-3.22.0/callgrind/sim.c:602-679 | the cold state, for every associativity the low tag bits can name |
| CacheUseSim.UseCache.Find | task3/valgrind-3.22.0/callgrind/sim.c:683-760 | the search over masked entries finds the first way of the tag |
| CacheUseSim.UseCache.Look | task3/valgrind-3.22.0/callgrind/sim.c:683-829 | one lookup with its update of the slot record is one reference of the cache-use model |
| CacheUseSim.UseCache.DoRead | task3/valgrind-3.22.0/callgrind/sim.c:683-829 | one access: contents, L1_Hit exactly on a hit, and a panic beyond two neighbouring sets |
| Elimination.UpdateKeepsSolution | dgesv.c:36-44 | adding a multiple of the pivot row from column k on keeps exactly the same solutions, given zeros before column k |
| Elimination.SkippedColumns | dgesv.c:38-40 | starting the update at column k loses nothing: the columns before it are zero in the pivot row |
| Elimination.SwapKeepsSolution | dgesv.c:20-31 | exchanging two rows of the matrix and of the right-hand sides keeps exactly the same solutions |
| Elimination.UpdateIsTriangular | dgesv.c:36-40 | column k becomes zero below the diagonal and the earlier zeros stay |
| Elimination.EliminationKeeps | dgesv.c:11-45 | after k steps the solution set is the original one, the first k columns are zero below the diagonal, and the pivots taken are not small |
| Elimination.MultiplierBound | dgesv.c:12-37 | with partial pivoting every multiplier has magnitude at most 1 |
| Elimination.GrowthBound | dgesv.c:12-45 | after k steps no entry exceeds 2^k times a bound on the original matrix |
| Factors.PlainAcceptsIff | task1/dgesv.c:9-37 | the plain solver answers 0 if and only if the matrix is l u, with l unit lower and u upper triangular, and no entry on the diagonal of u is below 10^-10 in magnitude |
| Factors.AcceptsIffFactored | dgesv.c:11-69 | with pivoting, if and only if such factors exist for some order of the rows, with multipliers of at most 1, and less than 1 for the rows that stand before the pivot row in the exchanges |
| Factors.PivotingAccepts | dgesv.c:11-69 | so accepted matrices have factors with multipliers of at most 1, and matrices that have factors with smaller ones are accepted |
| Factors.TiesMatter | dgesv.c:12-31 | multipliers of at most 1 alone do not suffice: a matrix with a tie for the first pivot that has such factors and is answered with -1 |
| Factors.PivotFromFirst | dgesv.c:12-19 | the pivot row is the first of the largest magnitude |
| BackSubstitution.TriangularSolved | dgesv.c:49-63 | back substitution solves every equation of a regular upper triangular system |
| BackSubstitution.SolverSound | dgesv.c:11-69 | whenever the answer is 0, every column left in b solves the original system |
| BackSubstitution.SolverUnique | dgesv.c:33-69 | and no other vector does |
| BackSubstitution.KernelIsTrivial | dgesv.c:33-69 | with at least one right-hand side, an accepted matrix maps only 0 to 0 |
| BackSubstitution.SingularRejected | dgesv.c:33-69 | a matrix with a non-zero vector in its kernel is always answered with -1, with or without pivoting |
| BackSubstitution.AcceptedIsSolvable | dgesv.c:33-69 | an accepted system has a solution for each of its right-hand sides |
| BackSubstitution.SolversAgree | task1/dgesv.c:9-37 | when the pivoting and the plain solver both answer 0, they leave the same b |
| BackSubstitution.ColumnsAreIndependent | dgesv.c:48-63 | on the shared matrix b, whatever the other threads do, a column and the place of its thread depend on its own turns only |
| BackSubstitution.ScheduleIndependent | dgesv.c:48-67 | every interleaving of the single accesses of the column threads to the shared matrix leaves the same b and the same error flag as the sequential loop |
| BackSubstitution.DoneIffTurns | dgesv.c:50-62 | a column is finished exactly when its thread has had its turns, three for each row and one for each product |
| Dgesv.PivotIndex | dgesv.c:12-19 | the first row of the largest magnitude in column k |
| Dgesv.SwapRows | dgesv.c:20-31 | exactly two rows are exchanged |
| Dgesv.AddRow | dgesv.c:38-43 | one row receives a multiple of another from a column on |
| Dgesv.EliminateColumn | dgesv.c:36-44 | the arrays become the system with column k eliminated, although the pivot row is read while rows are written |
| Dgesv.ForwardElimination | dgesv.c:11-45 | the arrays become the eliminated system, or the one in which the pivot was found too small |
| Dgesv.SolveColumn | dgesv.c:50-62 | a column becomes its back substitution and no other column changes; small diagonal entries are reported and the loop goes on |
| Dgesv.SolveColumnPlain | task1/dgesv.c:25-34 | the same with an early return |
| Dgesv.MyDgesv | dgesv.c:6-70 | answers 0 exactly when no pivot and no diagonal entry in use is small; then every column of b solves the original system |
| Dgesv.MyDgesvPlain | task1/dgesv.c:5-38 | the same for the solver without pivoting |
| EventModel.FirstCallMeans | task3/valgrind-3.22.0/cachegrind/cg_main.c:311-468 | one helper call leaves the same caches, predictors and counters as the events it covers, one at a time |
| EventModel.FirstCallCovers | task3/valgrind-3.22.0/cachegrind/cg_main.c:700-860 | which events one call covers: three special fetches in a row, a special fetch with the data access or the one special fetch after it, or one event |
| EventModel.FetchesInThrees | task3/valgrind-3.22.0/cachegrind/cg_main.c:764-800 | a run of n special fetches takes n / 3 calls, rounded up |
| EventModel.FlushMeans | task3/valgrind-3.22.0/cachegrind/cg_main.c:700-880 | the calls emitted for a coherent queue do what its events do one at a time |
| EventWalk.ItemKeepsSound | task3/valgrind-3.22.0/cachegrind/cg_main.c:882-1045 | queueing, merging and flushing keep data events with their instruction, which is why the assertions on equal inodes in flushEvents cannot fail |
| EventWalk.InstrumentationMeans | task3/valgrind-3.22.0/cachegrind/cg_main.c:1050-1351 | for every block, with or without a preamble, every queue capacity of at least 1 and every execution with side exits, the instrumented block leaves the state of the merged event list run one event at a time |
| EventWalk.CapacityIsIrrelevant | task3/valgrind-3.22.0/cachegrind/cg_main.c:1050-1351 | any two capacities give the same simulation |
| EventWalk.WriteAfterRead | task3/valgrind-3.22.0/cachegrind/cg_main.c:934-945 | a write right after a read of the same bytes adds one to the write count and changes nothing else |
| EventWalk.MergeIsLossless | task3/valgrind-3.22.0/cachegrind/cg_main.c:924-958 | over any list of events, merging reads and writes keeps caches, predictors and every counter but the write counts |
| EventWalk.MergeLowersWritesExactly | task3/valgrind-3.22.0/cachegrind/cg_main.c:924-958 | over a whole block, the write count of every cost centre without merging is the one with merging plus the merged read-write events executed for it |
| BlockMeaning.BlockSimulatesMeaning | task3/valgrind-3.22.0/cachegrind/cg_main.c:1113-1340 | for every block, execution and state, the unmerged events simulate exactly what the statements do: fetches, reads before writes with their addresses and sizes, guarded accesses, guest branches and unknown targets, in order and up to a taken exit |
| BlockMeaning.CountersGrow | task3/valgrind-3.22.0/cachegrind/cg_main.c:311-468 | Ir.a, Dr.a, Dw.a, Bc.b and Bi.b of every source line grow by the numbers of fetches, reads, writes, branches and unknown targets there |
| BlockMeaning.FetchCounts | task3/valgrind-3.22.0/cachegrind/cg_main.c:348-371 | a fetch counts in Ir of its line, with misses told from its bytes, and nowhere else |
| BlockMeaning.ReadCounts | task3/valgrind-3.22.0/cachegrind/cg_main.c:401-409 | a read counts so in Dr |
| BlockMeaning.WriteCounts | task3/valgrind-3.22.0/cachegrind/cg_main.c:411-419 | a write counts so in Dw |
| BlockMeaning.SpecialFetchIff | task3/valgrind-3.22.0/cachegrind/cg_main.c:884-894 | an instruction gets the special fetch exactly when its bytes are in one line and both levels have lines of one size |
| BlockMeaning.ModifiesArePairs | task3/valgrind-3.22.0/cachegrind/cg_main.c:934-945 | the merged events executed are exactly the reached writes that directly follow a read of the same bytes by the same instruction |
| BlockMeaning.InstrumentedBlockMeans | task3/valgrind-3.22.0/cachegrind/cg_main.c:1050-1351 | end to end: for every queue capacity the instrumented block leaves what simulating its statements leaves, but for the write counts, which lack exactly those pairs |
| CacheLevels.LevelsHistory | task3/valgrind-3.22.0/cachegrind/cg_main.c:348-440 | over any run the simulation stops exactly when an access spans more than two lines of a cache it reaches; until then each level-one cache holds the history of its own accesses and the last level that of the accesses of both that missed, in order |
| CacheLevels.BranchCounts | task3/valgrind-3.22.0/cachegrind/cg_main.c:450-458 | a conditional branch asks the predictor about its address and direction, counts one branch and one misprediction if the predictor says so, and changes nothing else |
| CacheLevels.GotoCounts | task3/valgrind-3.22.0/cachegrind/cg_main.c:460-468 | the same for a jump to an unknown target, with the other predictor and the target |
| BlockMeaning.LoadLinkedFlushes | task3/valgrind-3.22.0/cachegrind/cg_main.c:1232-1240 | after a load linked the queue is empty |
| BlockMeaning.NothingBetween | task3/valgrind-3.22.0/cachegrind/cg_main.c:1232-1248 | no helper call is emitted between a load linked and a store conditional that follows it after at most half a queue of unguarded statements without exits |
| EventQueue.CgState.Choose | task3/valgrind-3.22.0/cachegrind/cg_main.c:700-860 | the next helper and the number of events it covers; the inode assertions of the source hold |
| EventQueue.CgState.FlushEvents | task3/valgrind-3.22.0/cachegrind/cg_main.c:700-880 | the emitted statements grow by the calls for the queue, which is then empty |
| EventQueue.CgState.Append | task3/valgrind-3.22.0/cachegrind/cg_main.c:882-899 | a full queue is flushed first, then the event is the last one |
| EventQueue.CgState.AddEventDw | task3/valgrind-3.22.0/cachegrind/cg_main.c:924-958 | merges with a read of the same bytes by the same instruction at the end of the queue, otherwise appends |
| EventQueue.CgState.AddEventDGuarded | task3/valgrind-3.22.0/cachegrind/cg_main.c:960-1005 | flushes, and emits a guarded call without queueing |
| EventQueue.CgState.AddStatement | task3/valgrind-3.22.0/cachegrind/cg_main.c:1113-1320 | one statement of the block: its events, then the statement itself |
| EventQueue.CgState.CopyPreamble | task3/valgrind-3.22.0/cachegrind/cg_main.c:1078-1089 | the statements before the first instruction mark are copied and queue nothing |
| EventQueue.CgState.Instrument | task3/valgrind-3.22.0/cachegrind/cg_main.c:1050-1351 | the whole walk emits exactly the instrumented block of the model, and numbers the instructions without a gap |
| Adler.RawIsRfc | task3/valgrind-3.22.0/auxprogs/valgrind-di-server.c:326-351 | reducing both sums once at the end gives the per-byte definition of section 2.2 of RFC 1950 |
| Adler.BlockFits | task3/valgrind-3.22.0/auxprogs/valgrind-di-server.c:250-253 | no 32-bit sum overflows within 5552 bytes from reduced halves |
| Adler.LongestBlock | task3/valgrind-3.22.0/auxprogs/valgrind-di-server.c:250-253 | and with one byte more it can overflow |
| Adler.ChecksumExample | task3/valgrind-3.22.0/auxprogs/valgrind-di-server.c:248-354 | the checksum of nine given bytes |
| Adler.ShortFits | task3/valgrind-3.22.0/auxprogs/valgrind-di-server.c:314-324 | fewer than 16 bytes leave s1 one subtraction and s2 MOD4 away from its remainder |
| Adler.ChecksumStreams | task3/valgrind-3.22.0/auxprogs/valgrind-di-server.c:248-354 | updating with x and then with y is updating with x ++ y, and the value stays reduced |
| Adler.Mod | task3/valgrind-3.22.0/auxprogs/valgrind-di-server.c:261-282 | the conditional subtractions compute the remainder of every 32-bit value |
| Adler.Mod4 | task3/valgrind-3.22.0/auxprogs/valgrind-di-server.c:283-290 | and of every value below 32 times the base |
| Adler.Block | task3/valgrind-3.22.0/auxprogs/valgrind-di-server.c:326-351 | a block of at most 5552 bytes, in runs of 16 and a rest, advances the checksum by its bytes |
| Adler.Adler32 | task3/valgrind-3.22.0/auxprogs/valgrind-di-server.c:248-354 | for every buffer and reduced start value, the checksum of section 2.2 of RFC 1950 |
| Adler.ReceivedChecksum | task3/valgrind-3.22.0/auxprogs/valgrind-di-server.c:719-722 | the checksum of the length field followed by the data |
| Adler.SentChecksum | task3/valgrind-3.22.0/auxprogs/valgrind-di-server.c:889-896 | the same for a frame to be sent, except that a null buffer, which no built frame has, would restart it |
| Frames.WriteLe | task3/valgrind-3.22.0/auxprogs/valgrind-di-server.c:373-400 | the bytes of the number, lowest first, and nothing else changes |
| Frames.ReadLe | task3/valgrind-3.22.0/auxprogs/valgrind-di-server.c:382-411 | the number those bytes stand for |
| Frames.LeReads | task3/valgrind-3.22.0/auxprogs/valgrind-di-server.c:373-411 | reading what was written gives the number back |
| Frames.LeByte | task3/valgrind-3.22.0/auxprogs/valgrind-di-server.c:373-400 | byte i is the one of weight 256^i |
| Frames.EncodedBytes | task3/valgrind-3.22.0/auxprogs/valgrind-di-server.c:404-520 | the data of a message byte by byte: tag, string and zero, or numbers lowest byte first and then the raw bytes |
| Frames.LeWrites | task3/valgrind-3.22.0/auxprogs/valgrind-di-server.c:373-411 | writing what was read gives the bytes back |
| Frames.MkAsciiz | task3/valgrind-3.22.0/auxprogs/valgrind-di-server.c:413-424 | a fresh buffer with tag, string and terminating zero |
| Frames.MkNumbers | task3/valgrind-3.22.0/auxprogs/valgrind-di-server.c:462-516 | a fresh buffer with tag, numbers and bytes |
| Frames.ParseAsciiz | task3/valgrind-3.22.0/auxprogs/valgrind-di-server.c:436-460 | yields a string if and only if the data are those built for the tag and that string, which has no zero |
| Frames.ParseNumbers | task3/valgrind-3.22.0/auxprogs/valgrind-di-server.c:485-498 | yields numbers (and bytes) if and only if the data are those built for the tag and those numbers below 2^64 |
| Frames.Header | task3/valgrind-3.22.0/auxprogs/valgrind-di-server.c:889-897 | for every frame, the first eight bytes with the data are its wire form, whose checksum is that of RFC 1950 over length and data |
| Frames.Check | task3/valgrind-3.22.0/auxprogs/valgrind-di-server.c:702-724 | accepts exactly the frames of acceptable length whose checksum is right |
| Frames.ReceiveIff | task3/valgrind-3.22.0/auxprogs/valgrind-di-server.c:696-724 | the first frame of a stream of bytes is received if and only if the bytes begin with the wire form of acceptable data |
| Frames.StreamArrives | task3/valgrind-3.22.0/auxprogs/valgrind-di-server.c:696-724 | frames sent one after the other arrive as they were sent, in order |
| Frames.BuiltArrives | task3/valgrind-3.22.0/auxprogs/valgrind-di-server.c:413-516 | every built message has data, and is received by a client if and only if it is at most 4 MiB long |
| Frames.OneByteNoticed | task3/valgrind-3.22.0/auxprogs/valgrind-di-server.c:248-354 | two byte strings that differ in one byte have different checksums |
| Frames.DamageIsRefused | task3/valgrind-3.22.0/auxprogs/valgrind-di-server.c:719-724 | a frame changed in one byte of its checksum or data is refused |
| CallModel.CostConserved | task3/valgrind-3.22.0/callgrind/callstack.c:184-435 | over any interleaving of counting, calls, returns and dumps, stored plus pending plus printed cost of an arc is what was counted while its activations were on the stack, once per activation |
| CallModel.DumpIsComplete | task3/valgrind-3.22.0/callgrind/dump.c:1034-1060 | after the active frames are accounted for, stored and printed cost are all an arc has accrued |
| CallModel.PrintMoves | task3/valgrind-3.22.0/callgrind/dump.c:650-662 | printing an arc moves all of its stored cost to what was printed and touches no other arc |
| CallModel.AccountRestarts | task3/valgrind-3.22.0/callgrind/dump.c:1034-1060 | accounting for the active frames starts their pending cost afresh, and leaves frames, return counters, skipping block and what was printed as they are |
| CallSetup.UnwindExact | task3/valgrind-3.22.0/callgrind/callstack.c:405-435 | on an ordered stack, exactly the frames below sp and as many frames at sp as minpops still allows are removed |
| CallSetup.SetupOrdered | task3/valgrind-3.22.0/callgrind/bbcc.c:639-870 | every step keeps the recorded stack pointers non-increasing from bottom to top |
| CallSetup.StackIsOrdered | task3/valgrind-3.22.0/callgrind/bbcc.c:561-917 | so they are after every run of blocks and dumps |
| CallSetup.ReturnLeavesMatchingFrame | task3/valgrind-3.22.0/callgrind/bbcc.c:639-675 | a return at the stack pointer of the top frame leaves the frames down to the nearest one that expects its address, and no more |
| CallNesting.CallPushes | task3/valgrind-3.22.0/callgrind/bbcc.c:752-870 | a call below whose stack pointer no frame lies adds exactly one frame, stated field by field, and changes no cost |
| CallNesting.GoneFramesReturn | task3/valgrind-3.22.0/callgrind/bbcc.c:752-770 | frames below the stack pointer make a call or jump a return: exactly those are removed and nothing is pushed |
| CallNesting.JumpStays | task3/valgrind-3.22.0/callgrind/bbcc.c:684-730 | a jump that is not taken for a call leaves stack and stored costs as they are |
| CallNesting.JumpIntoFunctionPushes | task3/valgrind-3.22.0/callgrind/bbcc.c:684-776 | a jump into a function adds one frame, at the stack pointer of the frame it is made in |
| CallNesting.PopOnJumpReplaces | task3/valgrind-3.22.0/callgrind/bbcc.c:708-728 | a jump out of a function that pops on jumps ends its call and starts one from the same place |
| CallNesting.MatchingIff | task3/valgrind-3.22.0/callgrind/bbcc.c:645-668 | a frame to return to is found exactly when one at the stack pointer expects the address |
| CallNesting.UnmatchedReturnPushes | task3/valgrind-3.22.0/callgrind/bbcc.c:639-734 | a return with the stack pointer inside the top frame, or at it without such a frame, is taken for a call |
| CallNesting.ReturnPopsFrame | task3/valgrind-3.22.0/callgrind/bbcc.c:745-757 | a matching return removes the frame, restores the skipping block, charges the arc with what was counted since the call, and counts one return of the caller if that was anything |
| CallNesting.UnderflowCharges | task3/valgrind-3.22.0/callgrind/bbcc.c:487-552 | a return with no frame charges the assumed call and leaves the stack empty |
| CallNesting.CallsBracket | task3/valgrind-3.22.0/callgrind/bbcc.c:561-917 | for every nesting of calls and returns that match, skipped functions and recursion included, the stack is as before, every arc has grown by exactly the events counted inside its calls, and every caller by its returns |
| CallNesting.RunGoesOn | task3/valgrind-3.22.0/callgrind/bbcc.c:561-917 | such stretches can follow any run from the start |
| CallSetup.SetupBalance | task3/valgrind-3.22.0/callgrind/bbcc.c:487-552 | one step changes the balance of an arc by what it counted while the arc was active, or by the assumed cost of a call never seen |
| CallSetup.RunConservesCost | task3/valgrind-3.22.0/callgrind/bbcc.c:561-917 | inclusive cost is conserved over every run of blocks and dumps |
| CallSetup.RunDumpIsComplete | task3/valgrind-3.22.0/callgrind/dump.c:1034-1060 | the same for the runs setup_bbcc can make: when a run ends by accounting for the active frames, stored and printed cost of every arc are all it has accrued |
| CallStack.CallStack.EnsureStackSize | task3/valgrind-3.22.0/callgrind/callstack.c:87-115 | the entries are kept; the new size is the one computed by doubling, which has entry i if i was at most one past the end |
| CallStack.NoRoomIff | task3/valgrind-3.22.0/callgrind/callstack.c:87-99 | after the doubling there is no entry i if and only if i is the old size doubled once or more |
| CallStack.CallStack.PushCallStack | task3/valgrind-3.22.0/callgrind/callstack.c:184-304 | the whole state is that of the push on values |
| CallStack.CallStack.PopCallStack | task3/valgrind-3.22.0/callgrind/callstack.c:312-399 | the whole state is that of the pop on values |
| CallStack.CallStack.UnwindCallStack | task3/valgrind-3.22.0/callgrind/callstack.c:405-435 | the state is the unwound one, and the result counts the frames removed |
| CallStack.CallStack.PopcountOnReturn | task3/valgrind-3.22.0/callgrind/bbcc.c:645-675 | the loop counts the frames down to the nearest match |
| CallStack.CallStack.HandleUnderflow | task3/valgrind-3.22.0/callgrind/bbcc.c:487-552 | a call from the assumed caller is pushed, entered at the cost of the last dump |
| CallStack.CallStack.SetupBbcc | task3/valgrind-3.22.0/callgrind/bbcc.c:561-917 | the state after one block, over all kinds of jumps, is that of the model |
| CallStack.CallStack.AddCount | task3/valgrind-3.22.0/callgrind/dump.c:1034-1060 | the pending cost of every active frame is moved to its arc |
| CallStack.CallStack.PrintJcc | task3/valgrind-3.22.0/callgrind/dump.c:650-662 | a cost that is not zero is written once and reset |
| EventCost.AddDiffCostLz | task3/valgrind-3.22.0/callgrind/events.c:375-398 | the vector grows by the difference, the old vector catches up, and the result says whether there was a difference |
| EventCost.CopyCostLz | task3/valgrind-3.22.0/callgrind/events.c:252-269 | the destination, allocated if need be, stands for the source |
| EventCost.IsZeroCost | task3/valgrind-3.22.0/callgrind/events.c:226-236 | true exactly for the vector of zeros, allocated or not |
| EventCost.InitCost | task3/valgrind-3.22.0/callgrind/events.c:193-201 | an allocated vector is all zeros afterwards |
| Jumps.SameRecordIffSameKey | task3/valgrind-3.22.0/callgrind/jumps.c:183-230 | over any run on one table, two requests get the same record if and only if they are for the same (from, jmp, to) |
| Jumps.JccTable.GetAll | task3/valgrind-3.22.0/callgrind/jumps.c:183-230 | and any sequence of get_jcc calls on the table in place is such a run |
| Jumps.JccTable.GetJcc | task3/valgrind-3.22.0/callgrind/jumps.c:183-230 | the record for the key, from either last-used pointer, a chain or an insertion; a new one exactly when there was none |
| Jumps.JccTable.Lookup | task3/valgrind-3.22.0/callgrind/jumps.c:209-217 | the walk along the chain finds the record for the key if there is one |
| Jumps.JccTable.NewJcc | task3/valgrind-3.22.0/callgrind/jumps.c:134-179 | adds exactly one record, in its chain, with the table large enough |
| Jumps.JccTable.Resize | task3/valgrind-3.22.0/callgrind/jumps.c:80-128 | the table has size 2 n + 3 and every record is in the chain its key now hashes to |
| Jumps.Rehash | task3/valgrind-3.22.0/callgrind/jumps.c:95-117 | relinking the chains record by record loses and duplicates none |
| Jumps.TooFull | task3/valgrind-3.22.0/callgrind/jumps.c:139-142 | the test lets the table fill to just under 90 per cent, not the 80 its comment names |
| Sorting.SortsDistinctKeys | task3/valgrind-3.22.0/callgrind/dump.c:909-1009 | for pairwise distinct keys the result is a sorted permutation of the part |
| Sorting.SortShuffles | task3/valgrind-3.22.0/callgrind/dump.c:909-1009 | for all keys it is a permutation, and nothing outside the part changes |
| Sorting.SortedIffRotationsFit | task3/valgrind-3.22.0/callgrind/dump.c:909-1009 | for all keys the result is sorted if and only if no start rotation, at any depth, has more equal keys than a non-empty smaller part |
| Sorting.EqualKeysCanFail | task3/valgrind-3.22.0/callgrind/dump.c:950-974 | on 1 1 0 1 2 2 2 the result is not sorted |
| Sorting.StartRotation | task3/valgrind-3.22.0/callgrind/dump.c:973-974 | the start rotation groups smaller before equal keys when it fits, and what it leaves otherwise |
| SortModel.EndFits | task3/valgrind-3.22.0/callgrind/dump.c:975-976 | the end rotation always brings the equal keys before the larger ones |
| Sorting.PivotStays | task3/valgrind-3.22.0/callgrind/dump.c:946-976 | the pivot is in neither part, so the recursion ends |
| SortModel.Med3IsMedian | task3/valgrind-3.22.0/callgrind/dump.c:900-905 | med3 returns the position of an element between the other two |
| SortModel.PivotIsBetween | task3/valgrind-3.22.0/callgrind/dump.c:932-944 | the pivot of 8 to 40 keys has a key at or below it and one at or above it |
| SortModel.PivotIsMiddling | task3/valgrind-3.22.0/callgrind/dump.c:932-944 | that of more than 40 has three on either side |
| QuickSort.Qsort | task3/valgrind-3.22.0/callgrind/dump.c:909-1009 | the array becomes the sorted one of the model, in place |
| QuickSort.SplitUp | task3/valgrind-3.22.0/callgrind/dump.c:946-969 | the two scans with their swaps leave the partition of the model |
| QuickSort.SortSmall | task3/valgrind-3.22.0/callgrind/dump.c:917-920 | insertion sort in place |
| Printer.TextReadsBack | task3/valgrind-3.22.0/coregrind/m_debuglog.c:840-903 | what is printed reads back as the value for every base, flag and width, if and only if no zeros are put in front of a minus sign |
| Printer.TextIsPadded | task3/valgrind-3.22.0/coregrind/m_debuglog.c:884-902 | the text is the unpadded one, at the side asked for, filled up to the width with spaces, or zeros in front |
| Printer.NothingIff | task3/valgrind-3.22.0/coregrind/m_debuglog.c:858-859 | nothing is printed exactly in a base outside 2 to 16 |
| Printer.SignedValueIs | task3/valgrind-3.22.0/coregrind/m_debuglog.c:861-863 | the value of TextReadsBack is the residue of the word between -2^63 and 2^63 when signed, the word itself otherwise |
| Printer.BodyAllowed | task3/valgrind-3.22.0/coregrind/m_debuglog.c:840-880 | between sign and padding there are digits of the case asked for, and commas only in decimal and if asked for |
| Printer.SignAfterZeros | task3/valgrind-3.22.0/coregrind/m_debuglog.c:881-890 | -5 at width 4, padded with zeros, is printed as 00-5, which does not read back |
| Printer.BodyReads | task3/valgrind-3.22.0/coregrind/m_debuglog.c:866-879 | the digits, with commas removed, are the value |
| Printer.GroupedDecimal | task3/valgrind-3.22.0/cachegrind/cg_main.c:1567-1576 | commas stand exactly at every fourth place from the right, and the number of characters is ULong_width |
| Printer.WidthOf | task3/valgrind-3.22.0/cachegrind/cg_main.c:1567-1576 | the loop computes that number |
| Printer.FilledFits | task3/valgrind-3.22.0/coregrind/m_debuglog.c:848-851 | 64 digits with commas take at most 85 of the 90 characters of the buffer, in every base |
| Printer.PrintInt64 | task3/valgrind-3.22.0/coregrind/m_debuglog.c:840-903 | the characters sent and their count are those of the model; the buffer is never left |

## Left out

Abstractions of the modelled code:

- Floating point: the solvers compute over exact reals, so rounding, NaN, infinity and the alignment and SIMD pragmas are not modelled. The quotient by a zero divisor, which dgesv.c computes after raising its flag, is left open.
- The solver matrices are two-dimensional arrays instead of flat row-major buffers.
- Shifts and masks by powers of two are quotients and remainders. Addresses and accesses wrap at 2^64 and masks are cut to 32 bits where the source does so.
- Event counters, call counters and costs do not wrap at 64 bits; products of the configured cache sizes in check_cache do not wrap at 32 bits, and neither does 10 times the number of call arcs in new_jcc.
- A tool_panic ends the modelled run.
- CacheUseSim.CacheUseRefinesPlain: does not state which of LL_Hit and MemAccess a miss gives, because the cache-use code accesses the last level per missing line, unlike the plain code.
- CacheUseSim.UseCache.constructor: the line masks, the dependent-use links and the last-level records of the cold state are not modelled.
- CacheUseSim.UseCache.Look: the use masks and the temporal and spatial loss costs of an evicted record are not modelled.
- CacheUseSim.UseCache.DoRead: leaves open which of LL_Hit and MemAccess a miss gives.
- WriteBackSim.WriteBackRefinesPlain: states nothing about addresses below 2^tag_shift or from 2^32 on, where the two codes differ as CacheModel.MaskedAgreesIff says; for single-set caches see WriteBackSim.WriteBackAgreesIff.
- Sector bits of the cache-use model, and the write-through pairing of the two levels in the write-back model.
- Hardware prefetch, whose block-number tags do not fit a cache that otherwise holds address tags.
- Branch predictors are parameters of the event model; cost centres are a function of the instruction address.
- EventQueue.CgState.Instrument: a block without an instruction mark, on which the source aborts, and its size assertions are not modelled.
- Cost vectors inside call entries and arcs are values; EventCost shows the array loops that update them in place.
- CallStack.CallStack.PushCallStack: the context, recursion depth and call counter it updates are not modelled.
- CallStack.CallStack.PopCallStack: the context and collection state it restores, the recursion depth and signal handling are not modelled.
- CallStack.CallStack.HandleUnderflow: the function stack and context it rebuilds are not modelled.
- CallStack.CallStack.SetupBbcc: blocks, return addresses and function properties are inputs; the lookup of cost centres, contexts, recursion levels, signal handlers and thread switches are not modelled.
- CallStack.CallStack.PrintJcc: the call counter and the text written are not modelled.
- Jumps.JccTable.NewJcc: the lists per source jump and the call counters of a record are not modelled.
- Jumps.JccTable.GetJcc: several threads with separate tables sharing one block are not modelled.
- BackSubstitution.ScheduleIndependent: a step is one load of t, one subtraction, one test with its flag, or one store, on memory that every thread sees at once.
- Frames.DamageIsRefused: says nothing about a damaged length, after which other bytes are taken for the data.
- CallSetup.RunConservesCost: a call whose entry was missed is taken to have lasted since the cost given for it, as handleUnderflow assumes.
- The comparison function of the quicksort is any total preorder; the one of the dump code is not modelled.
- Printer.PrintInt64: the format string parser around it is not modelled.

Not modelled at all:

- The drivers, timers and LAPACK calls around the solver, and dgesv-optimal1.c, which is the same algorithm with another schedule clause.
- The Perl bindings under IO-1.55.
- Sockets, files, LZO compression, the poll loop and the sessions of the debug info server; its CRC table.
- The function pattern trie of callgrind and its context lookup.
- Branch predictor tables, basic block tables and cost pools, which repeat patterns proved elsewhere.
- Debug info lookup, dump text formatting, CPUID tables, launchers, assembly stubs and configuration headers.
