# Issue14Native scatter-read stress program, modelled in Dafny

`src/Issue14Native/Issue14Native.cpp` is a native stress test for the MemProcFS
scatter-read API. It opens one `VmmSession`. The session cuts the physical-memory
map into a shuffled pool of page entries. Many worker threads then run `DoReads`
over and over. Each run does the following:

1. It picks a cache flag and a batch of 4 to 4096 pages, sampled with replacement.
2. It opens a scatter handle.
3. It prepares one read per page, executes them, reads every page back, and
   closes the handle.
4. GC-like safepoints are interspersed throughout.

`LongWorker` loops forever. `TransientWorker` runs for a limited lifetime,
leaves the worker count, and spawns its own replacement.

The model covers that sequential core, one Dafny module per part:

| file | module | models |
|---|---|---|
| `random.dfy` | `Random` | a `std::mt19937_64` and `uniform_int_distribution` draw, as an arbitrary stream of raw values folded into `[lo, hi]` |
| `pages.dfy` | `Pages` | `PMemPageEntry`, the physical-memory map, `VmmSession` (a class whose `pages` field `BuildPageList` sets), `GetRandomPage`, `GetRandomPages` and the constructor's error paths |
| `safepoints.dfy` | `Safepoints` | `FlagsFromBool` and the decision `SimulateGCSafepoint` takes |
| `trace.dfy` | `Trace` | the events a worker produces and the shape of the scatter protocol one iteration must follow |
| `schedule.dfy` | `Schedule` | the exact sequence of events one `DoReads` call produces, given what each safepoint did, and where each call and safepoint stands in it |
| `workload.dfy` | `Workload` | `DoReads` as imperative code that returns its trace: the prepare and read loops with their safepoints |
| `workers.dfy` | `Workers` | `g_totalWorkers` and `g_crashCount` (class `Counters`), and the loops of `LongWorker` and `TransientWorker` with their two catch blocks |

Inputs that the model takes as parameters:

- **MemProcFS results.** Whether `VMMDLL_Initialize` and `VMMDLL_Map_GetPhysMem`
  succeed is a boolean input. The map is a value. Whether
  `VMMDLL_Scatter_Initialize` returns a handle is `ScatterEnv.opens`.
- **The pause flag.** `g_simulateGCPause` is written by the GC simulator thread.
  Its value at each safepoint is `ScatterEnv.pauseAt(n)`, where `n` is the number
  of events the iteration has recorded so far.
- **Randomness.** The random engine is a `Prng`, an arbitrary raw stream, threaded
  through every draw in the order the source makes them. No property depends on
  the engine's distribution: only the ranges of the draws matter.
- **Worker lifetime.** A worker's lifetime is the finite list of iterations it
  gets to run. For each iteration the list gives the environment and how
  `DoReads` ended (returned, threw a `std::exception`, or threw something else).
  For a throw it also gives how many events `DoReads` had issued by then.

Edge cases of the code:

- A region of `0x2001` bytes gives two entries. The loop runs while
  `cbToEnd > 0x1000`, so the count is `(cb - 1) / 0x1000`.
- The safepoint draw is from `[0, 100]`, inclusive at both ends.
- An empty page pool is not checked anywhere. `pages_.size() - 1` wraps around,
  so `GetRandomPage` needs a non-empty pool (its `requires`).
- Page alignment is not enforced, and neither is distinctness across regions.
  Only within one region are the bases distinct (`RegionBasesDistinct`), and an
  aligned region gives aligned bases (`RegionEntryFacts`).

The constants are those of `vmmdll.h`: `VMMDLL_MAP_PHYSMEM_VERSION` = 2 and
`VMMDLL_FLAG_NOCACHE` = 0x0001. The scatter handle is opened for pid
`(DWORD)-1` = 0xFFFFFFFF.

## Model

| member | source | states |
|---|---|---|
| Random.Uniform | src/Issue14Native/Issue14Native.cpp:85-86 | a draw from `uniform_int_distribution(lo, hi)` lies in `[lo, hi]` and takes exactly one value of the abstract raw stream (a real distribution may take more; only the range is modelled) |
| Random.UniformReaches | src/Issue14Native/Issue14Native.cpp:85-86 | every value of `[lo, hi]` is a possible draw |
| Pages.RegionEntries | src/Issue14Native/Issue14Native.cpp:112-120 | the inner loop pushes `(cb - 1) / 0x1000` entries (none for `cb == 0`); entry k is `(pa + k*0x1000 mod 2^64, cb - k*0x1000)` |
| Pages.EntryCountBoundaries | src/Issue14Native/Issue14Native.cpp:115-120 | regions of 0x1000, 0x1001, 0x2000, 0x2001 and 0x5000 bytes give 0, 1, 1, 2 and 4 entries |
| Pages.RegionEntryFacts | src/Issue14Native/Issue14Native.cpp:112-120 | each entry has more than 0x1000 bytes to the region's end; its base plus remaining bytes is the region's end in uint64_t arithmetic, and exactly so when the region does not cross 2^64; an aligned region gives aligned bases |
| Pages.RegionBasesDistinct | src/Issue14Native/Issue14Native.cpp:115-120 | no two entries of one region share a page base |
| Pages.Unshuffled | src/Issue14Native/Issue14Native.cpp:108-121 | the concatenated entries of all regions number the sum of the regions' entry counts |
| Pages.UnshuffledAbovePage | src/Issue14Native/Issue14Native.cpp:108-121 | every entry of the pool has more than one page to the end of its region |
| Pages.ThreeRegionScenario | src/Issue14Native/Issue14Native.cpp:108-121 | regions of 8192, 4096 and 20480 bytes give 1, 0 and 4 entries, 5 in all |
| Pages.SplitRegions | src/Issue14Native/Issue14Native.cpp:108-121 | the region loop builds exactly the concatenation of each region's entries, in map order |
| Pages.Shuffle | src/Issue14Native/Issue14Native.cpp:123-125 | `std::shuffle` leaves a permutation (same multiset, same length) |
| Pages.VmmSession.BuildPageList | src/Issue14Native/Issue14Native.cpp:101-127 | a missing map or a version other than 2 fails before anything is built and leaves the pool unchanged; otherwise the pool is a permutation of the unshuffled entries |
| Pages.VmmSession.GetRandomPage | src/Issue14Native/Issue14Native.cpp:83-87 | the page is in the pool, at the index the draw over `[0, size-1]` gives, and one value is consumed |
| Pages.VmmSession.GetRandomPages | src/Issue14Native/Issue14Native.cpp:89-98 | `count` pages, page i being the i-th draw's pick; every page is from the pool; `count` values are consumed |
| Pages.Sample | src/Issue14Native/Issue14Native.cpp:89-98 | a sample has `count` entries, entry i being the pool entry that the generator's i-th draw selects |
| Pages.SampleReachesEveryChoice | src/Issue14Native/Issue14Native.cpp:89-98 | sampling is with replacement: every sequence of pool indices, repeats included, is the sample of some generator |
| Pages.Open | src/Issue14Native/Issue14Native.cpp:40-61 | a failed `VMMDLL_Initialize` gives InitializeFailed; otherwise a failed `VMMDLL_Map_GetPhysMem` gives GetPhysMemFailed; otherwise the outcome of BuildPageList, and on success the pool is a permutation of the map's entries |
| Safepoints.FlagsFromBool | src/Issue14Native/Issue14Native.cpp:134-137 | the flags are `VMMDLL_FLAG_NOCACHE` exactly when the cache is bypassed, and 0 otherwise |
| Safepoints.SafepointActions | src/Issue14Native/Issue14Native.cpp:140-158 | Sleep(1) happens exactly once when the pause flag is set, and first; SwitchToThread happens exactly when r < 5; Sleep(0) exactly when 5 <= r < 10; otherwise nothing more; so one action for the flag and at most one yield |
| Safepoints.DecidedIffDrawn | src/Issue14Native/Issue14Native.cpp:140-158 | the action lists a safepoint may take (the pause when flagged, then at most one yield) are exactly the lists for some r in [0, 100] |
| Safepoints.SimulateGCSafepoint | src/Issue14Native/Issue14Native.cpp:140-158 | a safepoint takes one of those action lists and one value of the raw stream |
| Trace.PrepareCallsContents | src/Issue14Native/Issue14Native.cpp:190-194 | the i-th Prepare call is for the i-th sampled page's base with the i-th byte count wanted |
| Trace.ReadCallsContents | src/Issue14Native/Issue14Native.cpp:212-217 | the i-th Read call is for the i-th sampled page's base with size `min(cbWants[i], 0x1000)` |
| Trace.ReadSizesBounded | src/Issue14Native/Issue14Native.cpp:214-217 | every read is of at least the smallest byte count wanted and at most one page |
| Trace.OpenedProtocolShape | src/Issue14Native/Issue14Native.cpp:177-231 | an opened iteration makes 2n+3 calls: one Initialize, n Prepares, then one Execute, then n Reads of the same addresses in the same order, then one Close as the last call |
| Schedule.LoopSafepointsCeiling | src/Issue14Native/Issue14Native.cpp:196-199 | a loop over n pages passes ceil(n / 100) safepoints |
| Schedule.InterleavedAt | src/Issue14Native/Issue14Native.cpp:186-200 | in a loop's events, call i stands after the i earlier calls and the safepoints of the earlier multiples of 100, and is directly followed by its own safepoint exactly when i is a multiple of 100 |
| Schedule.InterleavedProtocol | src/Issue14Native/Issue14Native.cpp:186-200 | a loop's events without its safepoints are exactly its calls, and it passes one safepoint per multiple of 100 below n |
| Schedule.IterationPlaces | src/Issue14Native/Issue14Native.cpp:174-231 | an opened call's events start with the safepoint before Initialize (line 174) and Initialize; a safepoint follows Initialize directly (line 181); one stands directly before Execute (line 203) and one directly after it (line 209); CloseHandle is last |
| Schedule.IterationPrepareAt | src/Issue14Native/Issue14Native.cpp:186-200 | Prepare i of an opened call, for page i with byte count i, stands at its place, followed by its safepoint when i is a multiple of 100 |
| Schedule.IterationReadAt | src/Issue14Native/Issue14Native.cpp:211-229 | Read i of an opened call, for page i truncated to one page, stands after Execute at its place, followed by its safepoint when i is a multiple of 100 |
| Schedule.IterationProtocol | src/Issue14Native/Issue14Native.cpp:177-231 | an opened call's events without the safepoints are the opened protocol |
| Schedule.IterationSafepoints | src/Issue14Native/Issue14Native.cpp:174-231 | an opened call over n pages passes 4 + 2·ceil(n / 100) safepoints |
| Schedule.IterationCount | src/Issue14Native/Issue14Native.cpp:177-231 | an iteration makes one Initialize; only when it opened the handle does it also make n Prepares, one Execute, n Reads and one Close |
| Schedule.IterationShape | src/Issue14Native/Issue14Native.cpp:174-231 | a call starts with a safepoint and Initialize; with no handle that is all; with one, the safepoints stand where IterationPlaces says, the calls are the opened protocol, and it opens as many handles as it closes |
| Workload.EmitWithSafepoint | src/Issue14Native/Issue14Native.cpp:193-199 | one loop step appends its call and, exactly when the index is a multiple of 100, one safepoint decided on the pause flag of that moment; otherwise nothing is drawn |
| Workload.PrepareReads | src/Issue14Native/Issue14Native.cpp:186-200 | the byte counts wanted lie in [4, 0x01E00000]; the events added are Prepare i for page i with byte count i, each followed by a safepoint when i is a multiple of 100 |
| Workload.ReadBack | src/Issue14Native/Issue14Native.cpp:211-229 | the events added are Read i for page i with `min(cbWants[i], 0x1000)` bytes, each followed by a safepoint when i is a multiple of 100 |
| Workload.PassSafepoint | src/Issue14Native/Issue14Native.cpp:140-158 | a safepoint is recorded at the end of the events, decided on the pause flag of that moment, and takes one value of the raw stream |
| Workload.ScatterBatch | src/Issue14Native/Issue14Native.cpp:183-231 | after the handle opens the events are, in order: a safepoint, the prepare loop, a safepoint, Execute, a safepoint, the read loop, CloseHandle |
| Workload.ScatterIteration | src/Issue14Native/Issue14Native.cpp:174-231 | the events are a safepoint, then Initialize for pid 0xFFFFFFFF with the flags; with no handle nothing else; with one, the batch of ScatterBatch |
| Workload.DoReads | src/Issue14Native/Issue14Native.cpp:160-232 | Initialize gets the flags of the cache choice drawn; 4 to 4096 pages sampled from the pool; on an Initialize failure one safepoint and no other call; otherwise the opened protocol with every byte count in [4, 0x01E00000], safepoints after Initialize and on both sides of Execute, CloseHandle last, and 4 + 2·ceil(n / 100) safepoints; a handle is closed exactly when it was opened |
| Workers.EndedPartition | src/Issue14Native/Issue14Native.cpp:240-252 | every iteration of a worker loop ends in exactly one of three ways: it returns, a `std::exception` is caught, or something else is caught |
| Workers.Recorded | src/Issue14Native/Issue14Native.cpp:240-252 | a returning iteration keeps all of DoReads' events; one that threw keeps a proper prefix of them, then one Caught event |
| Workers.Guarded | src/Issue14Native/Issue14Native.cpp:240-252 | the events are DoReads' trace, cut short by a throw as Recorded says; only a non-`std::exception` fault adds one to `g_crashCount`; `g_totalWorkers` is unchanged; a returning iteration issues one Initialize and closes what it opened, a faulting one at most one Initialize and at most one handle left open |
| Workers.IterationFacts | src/Issue14Native/Issue14Native.cpp:174-231 | one DoReads call issues one Initialize, opens as many handles as it closes (at most one), and closes none before its last event |
| Workers.CompletedCounts | src/Issue14Native/Issue14Native.cpp:240-243 | an iteration whose DoReads returned issues one Initialize, no caught fault, and closes what it opened |
| Workers.FaultCounts | src/Issue14Native/Issue14Native.cpp:244-252 | an iteration that threw issues at most one Initialize, opens at most one handle and closes none |
| Workers.FaultTally | src/Issue14Native/Issue14Native.cpp:244-252 | an iteration that threw records one caught fault, which is a crash exactly when it was not a `std::exception` |
| Workers.WorkLoop | src/Issue14Native/Issue14Native.cpp:238-253 | no fault ends the loop; `g_crashCount` grows by the number of non-`std::exception` faults; the caught faults match the iterations; Initialize calls number at least the returning iterations and at most all; handles left open number at most the faults |
| Workers.LongWorker | src/Issue14Native/Issue14Native.cpp:235-254 | `g_totalWorkers` grows by one and the worker enlists first and only once; it never retires or respawns; the counts of WorkLoop hold for the whole run |
| Workers.TransientWorker | src/Issue14Native/Issue14Native.cpp:264-302 | `g_totalWorkers` is back to its value before; the worker enlists first, retires once and respawns once, and the last two events are the retirement and then the respawn; the counts of WorkLoop hold |
| Workers.FramedCounts | src/Issue14Native/Issue14Native.cpp:264-302 | a worker's event counts are those of its loop plus one Enlist and, for a transient worker, one Retire and one Respawn |
| Workers.FaultAfterOpenLeaks | src/Issue14Native/Issue14Native.cpp:177-231 | a throw after the handle opened, with two or more events behind it, records one opened handle and no CloseHandle |
| Workers.UnwoundBalanced | src/Issue14Native/Issue14Native.cpp:177-231 | closing the handle on the way out of a throw leaves every iteration with as many handles closed as opened, and changes no other count |

## Left out

- Threads and atomics: every worker runs by itself. The `std::thread` spawning,
  the detaching, and the memory orders of `g_simulateGCPause` and the counters are
  not modelled. The pause flag's value at each safepoint is an input.
- `GCSimulatorThread` and `MemoryPressureThread` (lines 305-341) only sleep,
  allocate and toggle the pause flag. Their effect on a worker is the
  `pauseAt` input.
- `main` (lines 344-406): console setup, argument building and starting the
  threads.
- `src/VmmTestRemote/VmmTestRemote.cpp` is not part of this model.
- Workers.TransientWorker: the lifetime drawn from [2000, 18000] ms and the
  `steady_clock` test become the given list of iterations. Time is not modelled.
- Workers.LongWorker: the `while (true)` loop is modelled by any finite prefix
  of it, namely the given list of iterations.
- Workers.Guarded: where a throw happens is an input (`Iteration.reached`, any
  point before DoReads' last event). That is a superset of the places that can
  throw: the allocations at lines 92, 187 and 215. The random stream after a
  throw is not modelled beyond keeping the same stream.
- Random.Uniform: only the range of each draw is modelled. The
  `mt19937_64` engine, how many engine values one draw takes, and the
  distributions' uniformity are not modelled.
  `random_device` seeding is replaced by the stream given to each operation.
- Pages.VmmSession.BuildPageList: the generator for its shuffle is a parameter.
  The source seeds a fresh one from `random_device`.
- Pages.Shuffle: stated as a permutation. It is not claimed to be uniformly
  random, nor to be the exact `std::shuffle` algorithm.
- The `VmmSession` destructor (`VMMDLL_MemFree`, `VMMDLL_Close`), `Handle()` and
  `Pages()` have no behaviour beyond releasing or exposing state.
- The buffer contents of `VMMDLL_Scatter_Read` and the `volatile` sink: the
  result of a read is not modelled, only the call and its size.
- Console output (`std::cerr`) in the catch blocks.

## Findings

| source | as written | input that shows it | evidently intended | confidence | as-written member | corrected member |
|---|---|---|---|---|---|---|
| src/Issue14Native/Issue14Native.cpp:177-231 | `DoReads` holds the scatter handle in a raw variable. A `std::bad_alloc` from `std::vector` at line 187 or 215, after `VMMDLL_Scatter_Initialize` returned a handle, leaves `DoReads` without calling `VMMDLL_Scatter_CloseHandle`. The worker's catch block (lines 244-252, 287-295) swallows the exception, so the handle leaks. | an opened iteration whose byte-count vector allocation at line 187 throws, right after the safepoint that follows Initialize: one handle opened, none closed | every handle that is opened is closed, whether `DoReads` returns or throws | not executed | Workers.FaultAfterOpenLeaks | Workers.UnwoundBalanced |

The worker loops model the code as written. So their contracts allow one
unclosed handle per faulting iteration. `Workers.Unwound` is what a worker
records when the handle is closed on the way out, and `Workers.UnwoundBalanced`
proves that this records every handle closed.
