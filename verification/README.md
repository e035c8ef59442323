# Parallel first-occurrence linear search, modelled in Dafny

The modelled program searches a read-only `int` array for the lowest index that holds a target value. It splits the array into `threadCount` contiguous ranges and gives each range to a POSIX thread. Every worker scans its range in ascending order. A worker stops early once the shared `foundIndex` is already below the index it is about to test. On a match it lowers `foundIndex` under a mutex, but only if its index is smaller. `foundIndex` starts at the sentinel `LONG_LONG_MAX`. After all threads are joined, `parallel_linear_search` turns the result into one signed integer: the index, or -1 for both "not found" and "error".

The model has no threads. It consists of:

- `Partition`: the range arithmetic of `setupThreads` and its rejection of thread counts outside `[1, arraySize]`.
- `SharedBest`: the sentinel and the update rule `if (foundIndex > i) foundIndex = i`.
- `Worker`: the scan loop of `linear_search`, run without interference.
- `Coordinator`: `setupThreads`. Setup failures are a parameter. Each worker runs to completion atomically, in an arbitrary order that the scheduler picks (`order`).
- `Engine`: `parallel_linear_search`. A three-way `Outcome` (`Found`, `NotFound`, `Error`) is stated, and a proof shows that the returned integer is its lossy encoding.
- `Interleaving`: the workers at the level of single loop iterations, interleaved in any order.
  - The unsynchronised prune read may see a stale value. Because the shared value only decreases, a stale value is the current value plus any non-negative lag.
  - The compare-and-update under the mutex is a separate step.
  - The model is proved correct under every interleaving. When each worker runs alone, one after another, the model agrees with the atomic one.
- `Occurrences`: the reference meaning of "first occurrence". `Wrappers`: `Option`.

Two behaviours of the program worth stating plainly:

- The prune check is strict (`foundIndex < i`, main.c:22), so a worker whose index equals the shared value keeps scanning.
- `parallel_linear_search` returns -1 both for an error and for "not found" (main.c:87-94). `Engine.EncodingLossy` states exactly which outcomes collide.

## Model

| member | source | states |
|---|---|---|
| `Partition.Partitions` | main.c:36-60 | Range `i` is `[Start(i), End(i))`, the formulas of main.c:54-55 and 58-59. None exactly when the thread count is outside `[1, n]`. Otherwise `t` ranges: the first starts at 0, each starts where the previous one ends, and the last ends at `n`. Every range is non-empty and inside `[0, n)`. A range has size `n/t + 1` for `i < n % t` and `n/t` otherwise. Earlier ranges end before later ones start and are never smaller. Every index of `[0, n)` is covered |
| `Partition.Tiling` | main.c:52-60 | Worker 0 starts at 0, worker `i+1` starts where worker `i` ends, and worker `t-1` ends at exactly `n` |
| `Partition.Sizes` | main.c:53-59 | A range has size `portion + 1` exactly when its index is below `remainder`. Every size is `n/t` or `n/t + 1`, sizes never grow with the index, and a valid thread count makes every range non-empty |
| `Partition.InBounds` | main.c:52-60 | `0 <= start <= end <= n` for every worker, so no worker reads outside the array |
| `Partition.Ordered` | main.c:52-60 | An earlier worker's range ends no later than a later worker's range starts (pairwise disjoint) |
| `Partition.Intermediates` | main.c:54-59 | Every intermediate of the range formulas lies in `[0, n + 1]`. Only `portion + 1` can reach `n + 1`, and for an accepted thread count it does so exactly when there is one thread |
| `Partition.Owner` | main.c:52-60 | Each index of `[0, n)` lies in the range of exactly one worker |
| `SharedBest.Update` | main.c:27 | The new `foundIndex` is no larger than the old value or `i`, and equals one of them (their minimum) |
| `SharedBest.UpdateCommutes` | main.c:27 | Two reports give the same value in either order, and repeating a report changes nothing |
| `Worker.Scan` | main.c:21-31 | The worker never raises the shared value. It writes only an index of its own range that holds the target. The result is at most every match in its range |
| `Worker.ScanIsMin` | main.c:21-30 | With no match in the range, the shared value is unchanged. Otherwise it becomes the minimum of the old value and the range's first match, so pruning loses nothing |
| `Coordinator.RunInOrder` | main.c:61-74 | Running any workers to completion, in any order, never raises the shared value. It stays the start value or becomes an index holding the target inside a range that ran, and ends below every match in every range that ran |
| `Coordinator.AnyOrderFindsFirst` | main.c:51-77 | From a sentinel above every index, running every worker of a covering partition in any order leaves the first occurrence, or the sentinel when the target is absent |
| `Coordinator.OneThreadOverflow` | main.c:58 | One thread on an array of `LONG_LONG_MAX` elements is accepted, and its `portion + 1` exceeds `LONG_LONG_MAX`. On every other accepted input of that bounded length, `portion + 1` fits |
| `Coordinator.SetupThreads` | main.c:34-78 | Returns -1 for a rejected thread count or any failed allocation, initialisation or thread creation. Otherwise it returns the first occurrence, or `LONG_LONG_MAX` when the target is absent |
| `Engine.ParallelLinearSearch` | main.c:80-96 | For every worker order, the returned integer is the encoding of the intended three-way outcome |
| `Engine.EncodingLossy` | main.c:87-95 | The encoding is non-negative exactly for `Found`. Two outcomes share an encoding exactly when they are equal or neither is `Found`, so "not found" and "error" collide |
| `Engine.ResultMeaning` | main.c:87-95 | A non-negative result occurs exactly when the thread count is accepted, setup succeeds and the target occurs; it is then the first occurrence. Every other result is -1 |
| `Engine.ScheduleIndependent` | main.c:74-77 | Two different worker orders give the same result |
| `Engine.ThreeThreadExample` | main.c:52-60 | `[0,0,0,7,0,0,7,0]`, target 7, three threads: ranges `[0,3)`, `[3,6)`, `[6,8)` and result 3 for every worker order |
| `Engine.AllZerosNotFound` | main.c:91-93 | Eight zeros with target 7 give -1 for every accepted thread count |
| `Engine.RejectedThreadCount` | main.c:36 | A thread count below 1 or above the array length gives -1 and the intended outcome `Error` |
| `Interleaving.Step` | main.c:21-31 | One loop iteration of one worker. The shared value never rises. Only a worker holding the mutex changes it, and only to its own index. No other worker moves |
| `Interleaving.Run` | main.c:21-31 | Over any sequence of steps the shared value never rises |
| `Interleaving.InitInv` | main.c:51 | The sentinel start state, with every worker at the start of its range, satisfies the invariant |
| `Interleaving.StepInv` | main.c:21-31 | Every step, with any staleness of the prune read, keeps the invariant: the shared value is the sentinel or a match, and lies below every match a worker has passed |
| `Interleaving.RunInv` | main.c:21-31 | Every sequence of steps keeps the invariant |
| `Interleaving.PruneJustified` | main.c:22-23 | A worker prunes only when the shared value already holds a matching index strictly below the worker's own index |
| `Interleaving.InterleavedFindsFirst` | main.c:21-31 | Under any interleaving the shared value is always the sentinel or an index holding the target. Once all workers have returned, it is the first occurrence, or the sentinel when the target is absent |
| `Interleaving.PartitionsFindFirst` | main.c:21-60 | For the ranges `setupThreads` hands out, under any interleaving the shared value is the sentinel or a match, and once all workers have returned it is the first occurrence, or the sentinel when the target is absent |
| `Interleaving.SoloAfterFinished` | main.c:23 | Steps of a worker that has returned change nothing |
| `Interleaving.SoloIsScan` | main.c:21-31 | A worker stepped alone until it returns has the effect of the uninterrupted scan `Worker.Scan` |
| `Interleaving.SequentialIsRunInOrder` | main.c:61-74 | Running workers one at a time in the step model gives the same shared value as the atomic model in the same order, and leaves exactly those workers returned |
| `Interleaving.EveryWorkerCanFinish` | main.c:74 | Some interleaving lets every worker return, and it agrees with the atomic model |
| `Interleaving.BoundedProgress` | main.c:21-31 | Under any interleaving and any prune-read lags, a worker given as many steps as its remaining budget (`end - i + 2` from index `i`) has returned |

## Left out

- Thread creation, joining, the barrier and the mutex are not modelled as primitives. The atomic model runs each worker to completion in a scheduler-chosen order. The step model interleaves single iterations, with the mutex-protected update as one atomic step.
- The 2-party barrier's pacing of the `start`/`end` hand-off through the shared, overwritten struct is not modelled. In the model each worker simply receives its own range.
- The source passes the struct by value to `linear_search` while `pthread_create` passes a pointer. It also passes the barrier by value to `pthread_barrier_destroy`. Both are undefined or ill-formed C. The model treats `foundIndex` as one shared variable, which is what the program evidently intends.
- Failed allocation and initialisation (`malloc`, barrier and mutex init, `pthread_create` of worker `k`) appear only as the `Resources` parameter. They lead to -1. The model does not track which workers ran before a creation failure or how they were joined, because the result is -1 either way. `free` is not modelled.
- The `main` benchmark driver (`calloc`, `clock`, `printf`, `times.txt`) and the `printf` calls inside `parallel_linear_search` are not modelled: they are I/O.
- Integer widths: `long long` and `int` arithmetic is unbounded here. Every range bound lies in `[0, n]`, and every intermediate of the formulas at main.c:54-59 lies in `[0, n + 1]` (`Partition.Intermediates`). The only intermediate that reaches `n + 1` is `portion + 1`, and for an accepted thread count it does so only with one thread.
- Coordinator.SetupThreads: at `n == LONG_LONG_MAX` with one thread, `portion + 1` at main.c:58 is `LONG_LONG_MAX + 1`, a signed overflow and so undefined behaviour in C (`Coordinator.OneThreadOverflow`). The model computes the unbounded value there and returns the first occurrence. No array of that length can be allocated.
- Coordinator.SetupThreads: requires `|a| <= LONG_LONG_MAX`. This is the range of the `(long long) arraySize` cast, and it keeps the sentinel above every index.
- Engine.ParallelLinearSearch: requires `|a| <= LONG_LONG_MAX`, for the same reason as `Coordinator.SetupThreads`: the `(long long) arraySize` cast and the sentinel lying above every index.
- Engine.ParallelLinearSearch: the worker order must name every worker and no others. This is the scheduler's guarantee that every created thread runs and is joined. An order may repeat a worker, which only strengthens the theorem.
- Interleaving.Step: a stale prune read is over-approximated as any value at least the current shared value, not only values actually written earlier. Undefined behaviour of the data race itself is not modelled.
- Interleaving.EveryWorkerCanFinish: only the existence of a finishing interleaving is shown. `Interleaving.BoundedProgress` adds that any interleaving giving a worker `end - start + 2` steps finishes it. Whether a scheduler grants those steps (fairness) is not modelled.
