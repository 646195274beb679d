# Verified models of Phoenix, MTCP and Phoenix++

This project models the in-memory algorithms of three systems in Dafny and proves what they promise:

- the Phoenix 2 MapReduce runtime (`sop3_portability/src`): insertion into per-thread sorted arrays of chunked values,
  the iterator over them, the grouping loop of the reduce phase, the merge rounds, task generation, and the run as a
  whole;
- MTCP thread checkpointing (`sop2_fault-tolerance`): the per-thread state word that the checkpoint thread and the
  thread itself change by compare-and-swap, the barrier over the tree of threads at restart, the thread list and tree,
  the memory image with its writer and reader, and the jalib allocator;
- Phoenix++ (`sop1_parallelism/phoenix++`) and what it shares with Phoenix 2: the open-addressing hash table, combiners
  and the partitioned container, record-aligned ingest chunks, the merge sort, the MCS lock, the thread pools and the
  task queues.

Algorithms that work on arrays, lists and fields in place are methods on heap objects, each proved against a function on
values; what is promised about these functions is proved as lemmas. Protocols are transition systems: a step is one
access to shared memory by one thread, any enabled thread may move next, and the theorems are about every state of every
run, for any number of threads.

`dafny verify dfyconfig.toml` checks everything.

## Where to start

| file | main results |
|---|---|
| `Runtime.dfy`, `Phases.dfy`, `MapReduce.dfy` | `Runtime.Run` is the theorem about a whole Phoenix 2 run; it rests on the phases in `Phases`, on the functional pipeline in `MapReduce`, and on `KeyvalsArray`, `ValueIterator`, `ReduceTask`, `ReduceWorker`, `KeyvalArray`, `MergePhase`, `MergeWorker`, `TaskGeneration` and `Schedule` |
| `CheckpointRuns.dfy`, `CheckpointLive.dfy` and `CheckpointJam.dfy`, over `Checkpoint.dfy` | safety: `Quiescence`, `Snapshot`, `NoAbort`, `NeverWhileOff`; that a checkpoint can be completed: `CanComplete`; that the calls and the resume loop work: `StateDiagram`, `CallsWork`, `EverybodyFreed`; the one way to get stuck: `JammedExactly`, `NeverPast`, `NotJammed`, `JamHappens` |
| `RestartRuns.dfy` and `RestartProgress.dfy` over `RestartBarrier.dfy`, `ThreadTree.dfy`, `ThreadTable.dfy` | `Barrier`, `NeverStuck`, `AllLeave`, `WalkIsComplete`, `Table.Setup`, `Table.Dead`, `Table.RestartWalk` |
| `CheckpointImage.dfy` | `RoundTrip` and `CheckpointAndRestart`, over `CheckpointWriter`, `CheckpointReader` and `ImageFormat` |
| `Allocator.dfy` | the invariant kept by `Malloc`, `Free` and `UserWrite` |
| `McsLockRuns.dfy`, over `McsLock.dfy` | `MutualExclusion`, `Fifo`, `OneChain`, `NeverStuck` |
| `SortedJob.dfy`, over `IngestJob.dfy` | `SortedJob.Run` is the theorem about a whole Phoenix++ run; it rests on `IngestJob.Job` about a chunked job, and on `HashTable`, `HashContainer`, `Combiner`, `IngestChunks`, `MergeSort` and `StableSort` |
| `ThreadPoolRace.dfy` and `ThreadPoolProgress.dfy`, over `ThreadPool.dfy` and `ThreadPoolRuns.dfy` | `BarrierExactly`, `RoundsEnd`; `Rounds.BarrierFor` applies it to the rounds of a run |
| `TaskQueue.dfy`, `TaskOrder.dfy`, `LinkedList.dfy` | `NothingLost`, `DequeueEnds`, `TakenByAge`, the list as a sequence |

## Where the code falls short of a promise

Seven promises hold only under a condition. The code is modelled as it is and the condition is proved to be exact, or a
concrete case is given.

- `map_reduce` can start its threads if and only if no more reduce than map threads are asked for, and, in a pool that an
  earlier run has left, neither phase needs more threads than the pool and the caller together: the pool and the lock
  entries of the task queues are sized by the map threads (`Runtime.Run`, `Runtime.EnoughInNewPool`,
  `Runtime.TooManyReduceThreads`).
- All reduce tasks are handed out if and only if there are no more map threads than reduce threads, or the reduce threads
  divide the tasks, or there are fewer tasks than reduce threads: `gen_reduce_tasks` computes its remainder with the number
  of map threads (`TaskGeneration.GenReduceTasks`, which gives the number in every case, and `TwoTasksLost`). With the
  defaults the first case holds.
- The thread pools are barriers if and only if no round with work is narrower than the one before, as a worker compares
  its count with the number of workers in a step of its own (`ThreadPoolRace.BarrierExactly`). The merge phases do start
  narrower rounds. For a run of Phoenix 2 the pool is a barrier if and only if there is one reduce thread, or there are two
  or three and not more map threads than that (`Runtime.RoundsEnd`); for the merge sort of Phoenix++ only with one thread
  (`MergeSort.RunMergeEnds`, `SortedJob.Run`); for a job without sorting always (`IngestJob.Job`). It is only the barrier
  that suffers: every round comes to its end, whether or not rounds shrink (`ThreadPoolProgress.RoundsEnd`).
- A checkpoint can be completed if and only if the scan is not jammed (`CheckpointLive.CanComplete`,
  `CheckpointJam.JammedExactly`). It is jammed when it is bound to meet a thread that a stop signal has interrupted while
  it was saving its context: the checkpoint thread waits for the state ST_SUSPINPROG to pass, with the threads lock held,
  and the handler of that signal asks for this lock first. When mtcp_ok or mtcp_no calls stopthisthread itself, signals
  are not blocked yet, and a stray stop signal gets there (`CheckpointJam.JamHappens`); once the scan has met that thread,
  nothing helps (`CheckpointJam.NeverPast`). Runs without such a signal are never jammed (`CheckpointJam.NotJammed`).
- The checkpoint writer gives up on an inaccessible unnamed mapping that holds the program break, since it first gives the
  mapping a name and then takes the name for an error (`CheckpointWriter.WriteCheckpoint`, whose condition for success is
  exact, and `CheckpointImage.InaccessibleHeapIsRefused`).
- A fast restart, which maps pages from the image file, leaves pages writable that were not, but for blocks of zeros that
  the writer has left out (`CheckpointImage.RoundTrip`, `CheckpointImage.FastRestartLeavesWritable`).
- A chunked job maps all records if and only if its first chunk holds one, because the number of map tasks is taken from
  that chunk (`IngestJob.Job`, `IngestJob.EmptyStart`); and it can read a file without a final newline only if no search
  for the end of a chunk starts behind the last newline (`IngestChunks.Readable`, `UnreadableWithoutNewline`).

Two smaller ones: `buffer_combiner` serves all values if and only if no list but the first is empty with values behind it,
which `hash_container` ensures by leaving empty combiners out (`Combiner.ServesAllExactly`, `GapHidesValue`); and
`hash_table::end()` is the end only for tables of fewer than 2^31 slots: `hash_container::add` never ends on a table of
2^31 slots and adds nothing from a larger one (`HashTable.EndIsSize`, `HashContainer.HashContainer.Add`).

## Model

| member | source | states |
|---|---|---|
| Runtime.Run | sop3_portability/src/map_reduce.c:245-335 | map_reduce as a whole, for every input, all thread counts, a new pool or one left by an earlier run, every sharing of map and reduce tasks among the threads and every order: it fails exactly on an input without a whole unit and when the threads cannot be started (more reduce than map threads asked for, or more threads in a phase than the pool and the caller have; written out in the counts); otherwise the map tasks tile the input, the result is sorted by key and consists of what reduce emits when called once for each emitted key of a reduce task that was handed out, on all values emitted for that key; exactly min(32768, R * (32768 / R) + clamp(32768 - (32768 / R) * M, 0, R)) tasks are handed out, for R reduce threads and M map threads, and so all of them exactly when `Covers` holds; `widths` is what the rounds ask of the pool. Each round is taken to end with its work done, which the pool guarantees for these widths exactly under the condition of `RoundsEnd` |
| Runtime.RunPhases | sop3_portability/src/map_reduce.c:284-320 | the three phases on the allocated arrays, given what each map task emits: they fail exactly when the threads of a phase cannot be started; otherwise sorted result, one call of reduce per key, on the multiset of all its values; no merge round asks for more workers than the pool has. Rounds are taken to end with their work done, as `RoundsEnd` conditions |
| Runtime.RoundsEnd | sop3_portability/src/map_reduce.c:1845-1895 | for the rounds that a default run starts, one of map, one of reduce and those of merge, the pool is a barrier in every interleaving if and only if there is one reduce thread, or there are two or three and not more map threads than that |
| Runtime.ReduceRoundEnds | sop3_portability/src/map_reduce.c:1799-1840 | the same for the map and the reduce round alone: if and only if there is one reduce thread or there are not more map threads than reduce threads |
| Runtime.EnoughInNewPool | sop3_portability/src/map_reduce.c:265-283 | in a new pool the threads can be started if and only if no more reduce than map threads are asked for, as the pool and the lock entries of the task queues are made for the map threads |
| Runtime.TooManyReduceThreads | sop3_portability/src/tpool.c:136-156 | concrete cases: two map threads and eight reduce threads, for every input; and eight of each in a pool that a run with two has left |
| Phases.EmitIntermediate | sop3_portability/src/map_reduce.c:1353-1392 | emit_intermediate changes one array of the calling thread only: afterwards every array of the table holds exactly what its thread has emitted for its reduce task |
| Phases.RunMapTask | sop3_portability/src/map_reduce.c:677-718 | running a map task on a thread appends what the task emits to what that thread has emitted, and touches no other row |
| Phases.MapPhase | sop3_portability/src/map_reduce.c:1799-1814 | after the map phase every item has been picked exactly once, and row and column hold exactly what the picks of the row say, whatever the schedule |
| Phases.RunReduceTask | sop3_portability/src/map_reduce.c:812-924 | a reduce task reads its column to the end, inserts into the thread's output what reduce emits for the calls of the task, and leaves the other columns unread |
| Phases.ReducePhase | sop3_portability/src/map_reduce.c:1822-1840 | after the reduce phase every task handed out has been run exactly once and each thread's output holds, sorted, what its tasks emitted; the round is taken to end with its work done, which the pool guarantees exactly under the condition of `Runtime.ReduceRoundEnds` |
| MapReduce.ResultMeaning | sop3_portability/src/map_reduce.c:245-335 | the functional pipeline that the phases refine: for all schedules the result is sorted and equals, as a multiset, what reduce emits over calls with pairwise different keys, which are exactly the emitted keys whose task is handed out, each with all its values |
| MapReduce.TaskCallsMeaning | sop3_portability/src/map_reduce.c:812-924 | one reduce task calls reduce in strictly ascending order of keys, exactly for the emitted keys of its partition, on exactly the values that all threads emitted for the key |
| MapReduce.FinalsMeaning | sop3_portability/src/map_reduce.c:1393-1418 | the reduce threads' outputs are sorted and together hold what the tasks emit, for every sharing of the tasks |
| MapReduce.EntriesMeaning | sop3_portability/src/map_reduce.c:1440-1557 | any sequence of insert_keyval_merged calls leaves strictly sorted keys, full chunks behind the newest one, and for every key exactly the multiset of values inserted for it |
| Schedule.SharingIrrelevant | sop3_portability/src/map_reduce.c:727-750 | if every item is picked exactly once, the threads together produce every item's output, whatever the sharing and the order |
| KeyvalsArray.InsertEntryWellFormed | sop3_portability/src/map_reduce.c:1440-1557 | inserting keeps the array strictly sorted and all chunks but the newest full |
| KeyvalsArray.InsertEntryValues | sop3_portability/src/map_reduce.c:1440-1557 | inserting adds exactly one value to exactly one key |
| KeyvalsArray.FindSlot | sop3_portability/src/map_reduce.c:1441-1485 | the search finds the place of the key, and its comparison result is 0 exactly if the key is there |
| KeyvalsArray.KeyvalsArr.Insert | sop3_portability/src/map_reduce.c:1440-1557 | insert_keyval_merged on the heap (array doubled and shifted, chunk chains grown) refines insertion into the sorted list of entries |
| KeyvalsArray.KeyvalsArr.AddToEntry | sop3_portability/src/map_reduce.c:1510-1557 | a value goes into the newest chunk of its key, or into a new chunk of twice the size; the chunks of the other keys do not change |
| KeyvalArray.InsertPairMeaning | sop3_portability/src/map_reduce.c:1559-1623 | insert_keyval keeps its array sorted and adds exactly the new pair |
| KeyvalArray.InsertPlace | sop3_portability/src/map_reduce.c:1585-1608 | where the pair goes: at the end if no key there is greater; otherwise in front of the first greater key, or, if its key is already there, in front of the last pair with that key |
| KeyvalArray.KeyvalArr.Insert | sop3_portability/src/map_reduce.c:1559-1623 | insert_keyval on the heap puts the pair where `InsertPair` says, or appends it when each reduce task has a queue of its own |
| ValueIterator.Iterator.Add | sop3_portability/src/iterator.c:88-109 | iter_add fails exactly when the iterator is full, and otherwise adds the values of the list to those to be read |
| ValueIterator.Iterator.Next | sop3_portability/src/iterator.c:111-154 | iter_next yields the values of all lists in order, each once, hopping over chunks and lists, and reports the end exactly when all have been read |
| ValueIterator.Iterator.Rewind | sop3_portability/src/iterator.c:71-78 | after iter_rewind everything is to be read again |
| ValueIterator.Iterator.Size | sop3_portability/src/iterator.c:170-175 | iter_size is the number of values that reading yields |
| ReduceTask.NextMinIsLeast | sop3_portability/src/map_reduce.c:839-877 | the search of a pass finds a key that no head is below, and finds none exactly when every array is exhausted |
| ReduceTask.CallsAscend | sop3_portability/src/map_reduce.c:839-912 | reduce is called in strictly ascending order of keys, so at most once per key |
| ReduceTask.CallsCover | sop3_portability/src/map_reduce.c:839-912 | reduce is called for a key if and only if some array holds it |
| ReduceTask.CallsValues | sop3_portability/src/map_reduce.c:839-912 | each call gets the values of its key from every array that has it |
| ReduceWorker.Pass | sop3_portability/src/map_reduce.c:839-877 | one pass of the for loop, which looks again at an array whose head it has taken, gives the iterator exactly the values of the current key and finds the next least key; iter_add never finds the iterator full |
| ReduceWorker.Drain | sop3_portability/src/iterator.c:111-154 | reading until iter_next reports the end returns every value once |
| ReduceWorker.DoTask | sop3_portability/src/map_reduce.c:812-924 | the do loop terminates, makes exactly the calls `ReduceCalls` says, and inserts what they emit into this thread's output |
| MergePhase.KMergeMeaning | sop3_portability/src/map_reduce.c:1625-1682 | merging sorted runs gives a sorted permutation of what they hold |
| MergePhase.EveryThreadMerges | sop3_portability/src/map_reduce.c:1021-1043 | the slices tile [0, merge_len) and no merge thread is without one exactly when there are at least two runs per thread |
| MergePhase.ClampsSuffice | sop3_portability/src/map_reduce.c:407-412 | the clamps of env_init give the first round at least two runs per merge thread, whatever the user asked for; and they give no fewer threads than that needs: one more would be more than were asked for, or leave some thread with less than two runs, for up to 256 or 32768 runs |
| MergePhase.TaskCounts | sop3_portability/src/map_reduce.c:440-447 | 256 reduce tasks with a queue for each task, and 32768 otherwise |
| MergePhase.RoundMeaning | sop3_portability/src/map_reduce.c:1870-1889 | a round turns n runs per the slices into n sorted runs with the same pairs |
| MergePhase.MergeAllMeaning | sop3_portability/src/map_reduce.c:1845-1895 | the rounds end with one sorted run that holds exactly what all runs held |
| MergeWorker.FindMin | sop3_portability/src/map_reduce.c:1648-1672 | the search finds the first run with a least head, or that all runs are exhausted |
| MergeWorker.MergeResults | sop3_portability/src/map_reduce.c:1625-1682 | merge_results fills its output with the merge of the runs |
| MergeWorker.MergeThread | sop3_portability/src/map_reduce.c:1021-1043 | a merge thread merges exactly its slice and only reads runs of that slice |
| MergeWorker.MergeRound | sop3_portability/src/map_reduce.c:1870-1889 | a round in any order of its threads leaves the merges of the slices, in the order of the threads; it is taken to end with its work done (`Runtime.RoundsEnd`) |
| MergeWorker.Merge | sop3_portability/src/map_reduce.c:1845-1895 | merge ends (the number of runs falls in every round) with the one run that `MergeAll` says, and `widths` is what its rounds ask of the pool; each is taken to end with its work done, which the pool guarantees exactly under the condition of `Runtime.RoundsEnd` |
| TaskGeneration.GenReduceTasks | sop3_portability/src/map_reduce.c:1255-1297 | the enqueued ids are 0, 1, 2, ... without repetition, and there are exactly min(T, R * (T / R) + clamp(T - (T / R) * M, 0, R)) of them for T tasks, R reduce threads and M map threads; all are enqueued exactly if M <= R, or R divides T, or T < R |
| TaskGeneration.GivenAll | sop3_portability/src/map_reduce.c:1265-1276 | the leftover computed with the number of map threads is enough for all tasks exactly under that condition |
| TaskGeneration.TwoTasksLost | sop3_portability/src/map_reduce.c:1265-1267 | a concrete case: 32768 tasks, three reduce threads and four map threads leave two tasks without a thread |
| TaskGeneration.GenMapTasks | sop3_portability/src/map_reduce.c:1072-1105 | the map tasks tile the input in order, all but the last of full size, and only an input without a whole unit is an error |
| TaskGeneration.TilesCount | sop3_portability/src/map_reduce.c:1072-1105 | the number of map tasks is the number of units divided by the chunk size, rounded up |
| CheckpointRuns.Quiescence | sop2_fault-tolerance/mtcp/mtcp.c:1769-1905 | in every state of every run from leaving the rescan loop until the resume loop, every listed thread but the checkpoint thread is suspended inside stopthisthread, and no step of user code, mtcp_ok or mtcp_no is possible; that such states are reached is `CheckpointLive.CanComplete` |
| CheckpointRuns.NoAbort | sop2_fault-tolerance/mtcp/mtcp.c:2015-2028 | no run aborts: the swaps guarded by an abort (resume, and the end of saving) always succeed, and mtcp_ok and mtcp_no never meet a state they do not expect |
| CheckpointRuns.Snapshot | sop2_fault-tolerance/mtcp/mtcp.c:1893-2014 | a completed image holds the memory as it was in the step that left the rescan loop, however long writing takes and in whatever order, and every listed thread as suspended; that images are completed is `CheckpointLive.CanComplete` |
| CheckpointRuns.NeverWhileOff | sop2_fault-tolerance/mtcp/mtcp.c:1506-1542 | from a return of mtcp_no to the next call of mtcp_ok or mtcp_no the thread is never suspended or saved, its state is only ST_RUNDISABLED or ST_SIGDISABLED, and no image is being written while it is listed; stray stop signals included |
| Checkpoint.HandlerKeeps | sop2_fault-tolerance/mtcp/mtcp.c:2109-2306 | every instruction of stopthisthread, nested activations included, keeps the state word and the handlers in agreement, and a suspended thread stays suspended |
| Checkpoint.CallKeeps | sop2_fault-tolerance/mtcp/mtcp.c:1436-1542 | every instruction of mtcp_ok and mtcp_no keeps that agreement and never aborts; that they do what they are for is `CheckpointJam.CallsWork` and `CheckpointJam.Calls` |
| Checkpoint.CkptKeeps | sop2_fault-tolerance/mtcp/mtcp.c:1769-1891 | every step of the checkpoint thread is possible and keeps: without a need to rescan, all threads scanned so far are stopped; that the scan ends is `CheckpointLive.CanComplete` |
| CheckpointRuns.RunKeeps | sop2_fault-tolerance/mtcp/mtcp.c:1769-1891 | the invariant holds in every state of every run of any number of threads |
| CheckpointLive.CanComplete | sop2_fault-tolerance/mtcp/mtcp.c:1769-2030 | from every reachable state in which the scan is not jammed (`JammedExactly`) there are steps, without help of the program but a call of mtcp_ok by threads that have called mtcp_no, that lead to quiescence with a complete image: the memory as it was, and every thread that was listed, as suspended; and from there through the resume loop back to sleep, with all those threads listed and ST_RUNENABLED |
| CheckpointJam.JammedExactly | sop2_fault-tolerance/mtcp/mtcp.c:1769-1891 | the jammed states are exactly those from which no such steps lead to quiescence: the scan is under way and, from its position on, a thread in ST_SUSPINPROG with a handler on top that waits for the threads lock comes before any thread that is dead, marked, or about to mark itself |
| CheckpointJam.NotJammed | sop2_fault-tolerance/mtcp/mtcp.c:1854-1864 | a run in which no stop signal has interrupted a thread while it was saving its context is never jammed |
| CheckpointJam.NeverPast | sop2_fault-tolerance/mtcp/mtcp.c:1854-1864 | once the scan has come to that thread, it stays there in every continuation of the run, whatever the program does |
| CheckpointJam.JamHappens | sop2_fault-tolerance/mtcp/mtcp.c:2437-2441 | a concrete run into that jam: mtcp_ok calls stopthisthread directly, and a stray stop signal arrives before the handler has saved its context |
| CheckpointJam.CompletedRun | sop2_fault-tolerance/mtcp/mtcp.c:1769-2030 | for any memory a concrete run from the initial state to its complete image, with a second thread saved as suspended and resumed afterwards |
| CheckpointJam.StateDiagram | sop2_fault-tolerance/mtcp/mtcp.c:305-316 | in every run a state word changes only along the edges of the diagram, each by the party it belongs to: the checkpoint thread marks (RUNDISABLED to SIGDISABLED, RUNENABLED to SIGENABLED) and resumes (SUSPENDED to RUNENABLED), the handler goes from RUNENABLED over SIGENABLED and SUSPINPROG to SUSPENDED, mtcp_ok enables and mtcp_no disables |
| CheckpointJam.CallsWork | sop2_fault-tolerance/mtcp/mtcp.c:1436-1542 | in every run and interleaving, a step with which mtcp_ok returns to user code leaves the state word neither ST_RUNDISABLED nor ST_SIGDISABLED, and one with which mtcp_no returns leaves it one of the two |
| CheckpointJam.Calls | sop2_fault-tolerance/mtcp/mtcp.c:1436-1542 | undisturbed, mtcp_no takes a thread from ST_RUNENABLED to ST_RUNDISABLED and mtcp_ok takes it back, each in three instructions and with nothing else changed |
| CheckpointJam.AsksForLocks | sop2_fault-tolerance/mtcp/mtcp.c:2141-2147 | a handler that has swapped ST_RUNENABLED for ST_SIGENABLED itself asks next whether its thread holds locks |
| CheckpointJam.HoldingLocks | sop2_fault-tolerance/mtcp/mtcp.c:2141-2147 | a handler that is told that its thread holds locks returns at once and leaves the state as it is |
| CheckpointJam.ListDiagram | sop2_fault-tolerance/mtcp/mtcp.c:1121-1153 | a thread joins the list exactly by being created, with checkpointing disabled, and leaves it only by ending or, once it has vanished, by the scan; memory changes by writes of user code only |
| CheckpointJam.Releases | sop2_fault-tolerance/mtcp/mtcp.c:2015-2028 | each step of the resume loop takes the thread it has come to from ST_SUSPENDED to ST_RUNENABLED and goes on to the next, and to sleep behind the last |
| CheckpointJam.EverybodyFreed | sop2_fault-tolerance/mtcp/mtcp.c:2015-2028 | between the writing of an image and the next sleep every thread that was suspended for it has been let go |
| RestartRuns.Barrier | sop2_fault-tolerance/mtcp/mtcp.c:2326-2409 | in every state of every run over every thread tree restoreinprog is 1 (0 once cleared) plus the threads created or announced that have not arrived; when the checkpoint thread has seen 1, the whole tree has been created and has arrived; no other thread leaves before 0; the swap from 1 to 0 and the state swap at restart never fail |
| RestartRuns.AllArrived | sop2_fault-tolerance/mtcp/mtcp.c:2949-3001 | when nobody is pending, every thread of the tree exists and has arrived |
| RestartRuns.NeverStuck | sop2_fault-tolerance/mtcp/mtcp.c:2326-2409 | as long as some thread has not left the barrier, a step that changes the state is possible |
| RestartProgress.ChangesEnd | sop2_fault-tolerance/mtcp/mtcp.c:2326-2409 | no livelock: in every run, with any interleaving and however often swaps of the counter fail, only so many steps change the state; the bound depends on the tree alone |
| RestartProgress.AllLeave | sop2_fault-tolerance/mtcp/mtcp.c:2326-2409 | from every reachable state there are steps after which every thread of the tree exists and has left the barrier, all but the checkpoint thread in ST_RUNENABLED, with the counter at 0 |
| RestartBarrier.StepKeeps | sop2_fault-tolerance/mtcp/mtcp.c:2326-2409 | each access to the counter, each clone and each state swap keeps the invariant |
| ThreadTree.WalkIsComplete | sop2_fault-tolerance/mtcp/mtcp.c:2949-3001 | the walk over children and siblings from the root meets exactly the threads of the tree, each once |
| ThreadTree.AttachKeeps | sop2_fault-tolerance/mtcp/mtcp.c:1146-1150 | a new thread as first child of its parent leaves a well-formed tree with one more thread |
| ThreadTree.DetachKeeps | sop2_fault-tolerance/mtcp/mtcp.c:1390-1406 | taking a thread out and giving its children to its parent leaves a well-formed tree without that thread only |
| ThreadTable.PushFront | sop2_fault-tolerance/mtcp/mtcp.c:1140-1144 | the pointers spell out the list with the thread in front |
| ThreadTable.Unlink | sop2_fault-tolerance/mtcp/mtcp.c:1373-1382 | the pointers spell out the list without the thread |
| ThreadTable.RemoveChild | sop2_fault-tolerance/mtcp/mtcp.c:1390-1398 | the search loop ends and the siblings spell out the children without the thread |
| ThreadTable.Adopt | sop2_fault-tolerance/mtcp/mtcp.c:1400-1406 | the children end up in front of those of the parent, in reverse order, with the parent as parent |
| ThreadTable.Table.Setup | sop2_fault-tolerance/mtcp/mtcp.c:1121-1153 | setupthread keeps the list doubly linked and the tree consistent; list and tree name the same threads |
| ThreadTable.Table.Dead | sop2_fault-tolerance/mtcp/mtcp.c:1363-1414 | threadisdead keeps that, for every thread but the first; on the first one it aborts, after it has left the list |
| ThreadTable.Walk | sop2_fault-tolerance/mtcp/mtcp.c:2949-3001 | following the pointers visits the threads in the order of the tree walk |
| ThreadTable.Table.RestartWalk | sop2_fault-tolerance/mtcp/mtcp.c:2949-3001 | the restart walk from motherofall visits exactly the listed threads, each once |
| CheckpointWriter.AreZeroPages | sop2_fault-tolerance/mtcp/mtcp_writeckpt.c:933-947 | true exactly if every byte of the pages is zero |
| CheckpointWriter.NextPageRange | sop2_fault-tolerance/mtcp/mtcp_writeckpt.c:957-988 | the run returned is a longest one of all-zero megabyte blocks or of blocks none of which is all zero, and tells of each address in it whether it is left out (`InZeros`); areas below a megabyte are never split |
| CheckpointWriter.WriteNonRwxAndAnonymous | sop2_fault-tolerance/mtcp/mtcp_writeckpt.c:1013-1074 | the records written tile the area and carry its name, flags, offset and protection, and exactly the addresses in blocks of zeros (`InZeros`, a condition on the memory and the ends of the area) are in records without bytes; it aborts exactly on an area with a name |
| CheckpointWriter.WriteMemoryArea | sop2_fault-tolerance/mtcp/mtcp_writeckpt.c:1076-1139 | an unnamed area that holds the break gets a name, for good; it aborts exactly on an inaccessible area with a name; otherwise its records tile the area and carry what it says, and it says which addresses are left out as zeros |
| CheckpointWriter.WriteArea | sop2_fault-tolerance/mtcp/mtcp_writeckpt.c:719-781 | clipping around the restore image: the records hold exactly the bytes of the area outside the image, ascending, and leave out exactly the addresses that `Elided` says; it gives up exactly on a refused area |
| CheckpointWriter.SettleKeeps | sop2_fault-tolerance/mtcp/mtcp_writeckpt.c:643-664 | memory of deleted shared files and of SysV shared memory is saved as private anonymous memory without a name, and any other area under its own name |
| CheckpointWriter.WriteCheckpoint | sop2_fault-tolerance/mtcp/mtcp_writeckpt.c:585-790 | the records of all areas ascend, belong to kept areas, miss no byte outside the image, carry flags, name and offset of their part of the area (`Labelled`), and leave out exactly the addresses that `Elided` says; it succeeds exactly if no kept area is refused. `CheckpointImage.CheckpointAndRestart` writes out which areas these are |
| CheckpointReader.RestoreArea | sop2_fault-tolerance/mtcp/mtcp_restart_nolibc.c:423-564 | mapping writable (as a private copy of the file that the area is named after, if it can be opened), reading and protecting restores bytes and protection of one descriptor, whatever that file holds by now |
| CheckpointReader.ReadMemoryAreas | sop2_fault-tolerance/mtcp/mtcp_restart_nolibc.c:400-596 | the reader succeeds exactly on well-formed streams and rebuilds what the stream means |
| CheckpointImage.WrittenOnce | sop2_fault-tolerance/mtcp/mtcp_writeckpt.c:745-782 | every address to be saved is in exactly one record, and no other address is in any |
| CheckpointImage.RoundTrip | sop2_fault-tolerance/mtcp/mtcp_restart_nolibc.c:400-596 | replaying a written image gives back exactly the saved addresses with their bytes; a protection comes back unchanged if and only if the restart is not a fast one, or the area is writable, or the address is in a block of zeros of a part of the area that is written as runs (`Elided`, a condition on memory, areas, restore image and break) |
| CheckpointImage.CheckpointAndRestart | sop2_fault-tolerance/mtcp/mtcp_restart_nolibc.c:400-596 | writer and reader together, in terms of the areas alone: it fails exactly if the break lies in, or at the end of, a part outside the restore image of an unnamed area without any permission; otherwise the rebuilt address space holds exactly the addresses outside the restore image that lie in an area which can be read or written or has no name, each with its byte and the protection of its area, to which a fast restart may add the permission to write, where `ProtBack` says |
| CheckpointImage.FastRestartLeavesWritable | sop2_fault-tolerance/mtcp/mtcp_restart_nolibc.c:437-440 | a concrete read-only page that a fast restart leaves writable |
| CheckpointImage.InaccessibleHeapIsRefused | sop2_fault-tolerance/mtcp/mtcp_writeckpt.c:1105-1119 | a concrete inaccessible unnamed page, ending at the break, on which the writer gives up |
| Allocator.Dispatcher.Expand | sop2_fault-tolerance/dmtcp/jalib/jalloc.cpp:149-166 | a new block is carved into a null-terminated list of exactly its chunks; live memory does not change |
| Allocator.Dispatcher.Allocate | sop2_fault-tolerance/dmtcp/jalib/jalloc.cpp:204-218 | the block returned is not live, comes from the level that fits, and no word of a live block changes |
| Allocator.Dispatcher.Deallocate | sop2_fault-tolerance/dmtcp/jalib/jalloc.cpp:219-231 | the block goes back to the head of the list that serves its size, or is unmapped |
| Allocator.Dispatcher.Malloc | sop2_fault-tolerance/dmtcp/jalib/jalloc.h:37-43 | blocks stay disjoint, free lists acyclic and disjoint from live blocks, and free plus live chunks are all carved chunks; the size stands in front of the block |
| Allocator.Dispatcher.Free | sop2_fault-tolerance/dmtcp/jalib/jalloc.h:44-49 | the size header sends the block back to the level that served it; headers of the other blocks stay intact |
| Allocator.Dispatcher.UserWrite | sop2_fault-tolerance/dmtcp/jalib/jalloc.h:37-49 | a user's write inside a block changes no free list and no header |
| Allocator.PayloadsApart | sop2_fault-tolerance/dmtcp/jalib/jalloc.h:37-49 | two blocks that malloc has returned overlap neither in their payloads nor in their headers |
| Allocator.CarveDisjoint | sop2_fault-tolerance/dmtcp/jalib/jalloc.cpp:149-166 | the carved chunks are disjoint from each other and from all blocks before |
| Allocator.RawGone | sop2_fault-tolerance/dmtcp/jalib/jalloc.cpp:219-231 | unmapping a large block leaves everything else accounted for |
| McsLockRuns.MutualExclusion | sop3_portability/src/mcs.c:77-128 | at most one thread is between the return of acquire and the end of release, for any number of threads and any interleaving |
| McsLockRuns.Fifo | sop3_portability/src/mcs.c:77-128 | the lock is granted in the order of the atomic exchanges, and only the holder has been granted it without having given it up |
| McsLockRuns.NoAbort | sop3_portability/src/mcs.c:85-87 | locked is 0 on every entry to acquire, and release never follows a null pointer |
| McsLockRuns.OneChain | sop3_portability/src/mcs.c:77-128 | the queued records form one chain from the holder to head, each linked as soon as its thread has linked itself |
| McsLockRuns.NeverStuck | sop1_parallelism/phoenix++/include/synch.h:94-130 | from every reachable state a waiting thread can come to hold the lock by steps of queued threads alone |
| McsLock.StepKeeps | sop1_parallelism/phoenix++/include/synch.h:94-130 | every shared access keeps the invariant |
| BitMask.MaskIsMod | sop1_parallelism/phoenix++/include/container.h:63-65 | masking with size - 1 is the remainder, for sizes that are powers of two |
| OpenAddressing.Found | sop1_parallelism/phoenix++/include/container.h:75-84 | a probe ends at the key exactly if the key is in the map, and there finds its value |
| OpenAddressing.Filled | sop1_parallelism/phoenix++/include/container.h:93-96 | filling the slot where the probe ended adds or replaces the entry of the key and keeps every entry reachable from its home slot |
| HashTable.Probe | sop1_parallelism/phoenix++/include/container.h:77-80 | the scan terminates where the probe for the key ends |
| HashTable.FirstFree | sop1_parallelism/phoenix++/include/container.h:63-67 | the scan of rehash terminates at the free slot where the probe for a new key ends |
| HashTable.HashTable.Rehash | sop1_parallelism/phoenix++/include/container.h:58-73 | rehash keeps the map and the number of entries |
| HashTable.HashTable.Index | sop1_parallelism/phoenix++/include/container.h:75-98 | operator[] refines a finite map; the table doubles exactly when a new entry would fill half of it, and load stays the number of entries |
| HashTable.IterationYieldsMap | sop1_parallelism/phoenix++/include/container.h:100-137 | iteration yields each entry of the map exactly once and nothing else |
| HashTable.ConstIterator.Increment | sop1_parallelism/phoenix++/include/container.h:117-125 | ++ moves to the next occupied slot, or past the end |
| HashTable.EndIsSize | sop1_parallelism/phoenix++/include/container.h:104-137 | end() is past the last slot exactly for tables of fewer than 2^31 slots, as the constructor takes an int |
| HashTable.EndOfBigTable | sop1_parallelism/phoenix++/include/container.h:104-137 | for a table of exactly 2^31 slots end() lies behind the table, and for a larger one it is begin() |
| Combiner.BufferCombined.Next | sop1_parallelism/phoenix++/include/combiner.h:64-84 | next serves the values in order, and stops at an empty list behind an exhausted one |
| Combiner.ServesAllExactly | sop1_parallelism/phoenix++/include/combiner.h:64-84 | reading serves all values if and only if no list but the first is empty with values behind it |
| Combiner.GapHidesValue | sop1_parallelism/phoenix++/include/combiner.h:64-84 | a concrete case: of the lists [x], [], [y] only x is served |
| Combiner.NoEmptyNoGaps | sop1_parallelism/phoenix++/include/container.h:179-187 | without empty combiners nothing is skipped |
| Combiner.AssociativeCombined.Add | sop1_parallelism/phoenix++/include/combiner.h:135-140 | folding in what another combiner has folded is folding in its values, for an associative F with a left-neutral Init; an empty combiner is left out |
| Combiner.FoldConcat | sop1_parallelism/phoenix++/include/combiner.h:127-156 | folding two batches one after the other is folding their folds, for an associative F with a left-neutral Init; F need not commute |
| Combiner.FoldOrder | sop1_parallelism/phoenix++/include/combiner.h:127-156 | the fold depends only on the multiset of values, if F commutes as well |
| Combiner.FoldOfFolds | sop1_parallelism/phoenix++/include/combiner.h:127-156 | folding the folds of non-empty combiners is folding all values in order, for an associative F with a left-neutral Init |
| Combiner.Shipped | sop1_parallelism/phoenix++/include/combiner.h:229-243 | sum_combiner and one_combiner both have such an F; only that of sum_combiner commutes |
| HashContainer.EmitIntermediate | sop1_parallelism/phoenix++/include/map_reduce.h:202-205 | emitting into the thread's table adds exactly the pair |
| HashContainer.TablePairs | sop1_parallelism/phoenix++/include/container.h:179-187 | iterating over a table serves exactly what was emitted into it |
| HashContainer.HashContainer.Add | sop1_parallelism/phoenix++/include/container.h:179-187 | for every table: add ends unless the table has exactly 2^31 slots; up to there it appends exactly the pairs of the thread's table, each to row number hash(key) % out_size * in_size + index of the thread, also when called again; from a larger table it appends nothing |
| HashContainer.Begin | sop1_parallelism/phoenix++/include/container.h:198-212 | the iterator joins exactly the pairs of its partition, by key |
| HashContainer.OnePartition | sop1_parallelism/phoenix++/include/container.h:179-187 | all pairs of a key are in the rows of one partition |
| HashContainer.PartitionValues | sop1_parallelism/phoenix++/include/container.h:189-223 | a partition serves a key of its own with exactly the values emitted for it by all threads in all calls of add, none skipped |
| IngestChunks.FindSplit | sop1_parallelism/phoenix++/include/read_chunk.h:154-186 | the split point is just behind the first newline at or after the threshold; it fails exactly if there is none |
| IngestChunks.ReadChunkBytes | sop1_parallelism/phoenix++/include/read_chunk.h:139-211 | the chunk reaches from nread to just behind the first newline at or after the threshold, or to the end of the file if the threshold does; it fails exactly if there is no newline to end it |
| IngestChunks.ReadNext | sop1_parallelism/phoenix++/include/map_reduce.h:395-404 | with a threshold the next chunk of whole lines, without one the whole file |
| IngestChunks.ChunksTile | sop1_parallelism/phoenix++/include/read_chunk.h:139-211 | the chunks of a file that can be read tile it, all but the last end just behind a newline and are longer than the threshold |
| IngestChunks.AlwaysReadable | sop1_parallelism/phoenix++/include/read_chunk.h:154-186 | every file that ends with a newline can be read, and so can any file without a threshold or with one that reaches its end |
| IngestChunks.UnreadableWithoutNewline | sop1_parallelism/phoenix++/include/read_chunk.h:154-186 | a concrete file without a final newline on which the search for the end of a chunk fails |
| IngestChunks.MakeMapTasks | sop1_parallelism/phoenix++/include/map_reduce.h:459-481 | the map tasks are the data, in order and without overlap, cut into pieces of max(1, ceil(count / tasks)) |
| IngestChunks.TaskSizeLeast | sop1_parallelism/phoenix++/include/map_reduce.h:463-465 | the size of a map task is the least positive one with which the tasks reach the end of the data |
| IngestJob.RunMap | sop1_parallelism/phoenix++/include/map_reduce.h:459-507 | whatever the sharing among the workers of the pool and the order, run_map adds exactly what the records emit, and nothing without map tasks |
| IngestJob.RunIngestChunks | sop1_parallelism/phoenix++/include/map_reduce.h:378-451 | it fails exactly if a chunk cannot be read; otherwise mapping chunk by chunk adds exactly what the whole file emits, if the first chunk holds a record, and nothing if not, as the number of map tasks is taken from it |
| IngestJob.RunReduce | sop1_parallelism/phoenix++/include/map_reduce.h:513-554 | each partition is joined from exactly its own rows |
| IngestJob.Job | sop1_parallelism/phoenix++/include/map_reduce.h:289-451 | for every file, threshold, cutting into map tasks, sharing among threads and order: the job fails exactly if a chunk cannot be read; otherwise partition p serves exactly the emitted keys k with hash(k) % threads == p, each with exactly the multiset of values emitted for it in the whole file, or with none if the first chunk holds no record; its rounds do not shrink, so that the pool is a barrier for them |
| IngestJob.EmptyStart | sop1_parallelism/phoenix++/include/map_reduce.h:303-321 | a first chunk without a record, and the records behind it are lost |
| IngestJob.FoldServed | sop1_parallelism/phoenix++/include/combiner.h:109-161 | with a commutative associative combiner the value served for a key is the fold over the values emitted for it, in any order |
| StableSort.MergeSorts | sop1_parallelism/phoenix++/include/map_reduce.h:735-742 | a stable merge of two stably sorted parts is the stable sort of the parts one after the other |
| StableSort.SortMeaning | sop1_parallelism/phoenix++/include/map_reduce.h:720-729 | the sort is ordered, a permutation, and keeps the order of elements that compare equal |
| MergeSort.RoundSorts | sop1_parallelism/phoenix++/include/map_reduce.h:672-704 | a round on sorted parts gives the sorted joined neighbours |
| MergeSort.MergeRound | sop1_parallelism/phoenix++/include/map_reduce.h:672-704 | a round of tasks in any order leaves fewer queues, as `Round` says; it is taken to end with its work done (`RunMergeEnds`) |
| MergeSort.RunMerge | sop1_parallelism/phoenix++/include/map_reduce.h:655-707 | run_merge leaves one queue: the stable sort of final_vals[0..num_threads) one after the other, for any order of tasks, if each round ends with its work done, which the pool guarantees exactly under the condition of `RunMergeEnds` |
| MergeSort.RunMergeEnds | sop1_parallelism/phoenix++/include/map_reduce.h:655-707 | for the rounds of run_merge the pool is a barrier in every interleaving if and only if there is one thread |
| MergeSort.FirstMergeRoundIsNarrower | sop1_parallelism/phoenix++/include/map_reduce.h:668-700 | with two or more threads the first merge round is narrower than the sorting round, so that the pool does not promise to be a barrier there |
| SortedJob.Run | sop1_parallelism/phoenix++/include/map_reduce.h:374-451 | a whole sorting job with the default reduce, for every file, threshold, sharing and order: it fails exactly if a chunk cannot be read; otherwise the result is sorted and is, as a multiset, what map has emitted for all records (for none, if the first chunk holds no record); each round is taken to end with its work done, and its rounds do not shrink, so that the pool guarantees this, if and only if there is one thread |
| SortedJob.ReduceAll | sop1_parallelism/phoenix++/include/map_reduce.h:513-554 | reducing the partitions in any order on any threads emits exactly what map has emitted |
| SortedJob.Reduce | sop1_parallelism/phoenix++/include/map_reduce.h:133-141 | the default reduce emits its key with each value served, in order |
| ThreadPool.SlotsDiffer | sop1_parallelism/phoenix++/src/thread_pool.cpp:89-93 | i * num_threads / num_workers picks different workers |
| ThreadPool.SlotsSpread | sop1_parallelism/phoenix++/src/thread_pool.cpp:89-93 | argument i goes to the worker that is as far along all workers, rounded down, as i is along the arguments: the distances are num_threads / num_workers or one more, and with as many arguments as workers each gets its own |
| ThreadPoolRuns.Barrier | sop1_parallelism/phoenix++/src/thread_pool.cpp:83-165 | for rounds that do not shrink, in any interleaving: wait returns only when every chosen worker has run the function of the round exactly once on its own argument, and there is exactly one completion post per round |
| ThreadPool.StepKeeps | sop3_portability/src/tpool.c:136-191 | every step of controller and workers keeps the invariant, in both pools |
| ThreadPoolRace.Shrinks | sop1_parallelism/phoenix++/src/thread_pool.cpp:151-155 | if a round with work is narrower than the last one with work, some interleaving passes it with work undone |
| ThreadPoolRace.BarrierExactly | sop1_parallelism/phoenix++/src/thread_pool.cpp:83-165 | the pool is a barrier if and only if no round with work is narrower than the one before |
| ThreadPoolProgress.NeverStuck | sop1_parallelism/phoenix++/src/thread_pool.cpp:83-165 | in every reachable state in which a round is left, somebody can move, whether or not rounds shrink |
| ThreadPoolProgress.RoundsEnd | sop1_parallelism/phoenix++/src/thread_pool.cpp:83-165 | every run of the pool is finite, with a bound that the plan alone gives, and one that cannot go on has been through all rounds; if rounds do not shrink, with every call of the plan made exactly once |
| Rounds.BarrierFor | sop1_parallelism/phoenix++/src/thread_pool.cpp:83-165 | the same as a condition on the list of the numbers of workers that the rounds ask for |
| LinkedList.InsertAfter | sop3_portability/src/list.h:102-108 | the pointers spell out the ring with one more entry |
| LinkedList.InsertInFront | sop3_portability/src/list.h:110-116 | the same in front of an entry or of the dummy |
| LinkedList.Remove | sop3_portability/src/list.h:118-124 | the pointers spell out the ring without the entry |
| LinkedList.List.AddHead | sop3_portability/src/list.h:84-91 | refines putting in front of a sequence |
| LinkedList.List.AddTail | sop3_portability/src/list.h:93-100 | refines putting at the end of a sequence |
| LinkedList.List.InsertBefore | sop3_portability/src/list.h:110-116 | refines insertion before a position of a sequence |
| LinkedList.List.RemoveEntry | sop3_portability/src/list.h:118-124 | refines removal of a position of a sequence |
| LinkedList.List.RemoveHead | sop3_portability/src/list.h:126-135 | takes the first entry, or reports that there is none |
| LinkedList.List.RemoveTail | sop3_portability/src/list.h:137-146 | takes the last entry, or reports that there is none |
| LinkedList.List.Peek | sop3_portability/src/list.h:63-82 | both ends and emptiness |
| LinkedList.ElemIntoFree | sop3_portability/src/taskQ.c:359-372 | the first entry goes to the end of the free queue, if there is one; the lists share nothing before and after |
| TaskQueue.RoundReaches | sop1_parallelism/phoenix++/src/task_queue.cpp:88-90 | going round from any index visits every queue |
| TaskQueue.NothingLost | sop1_parallelism/phoenix++/src/task_queue.cpp:81-116 | in any interleaving queued and handed-out entries are exactly the enqueued ones, none is handed out twice, and a dequeue without a concurrent enqueue fails only if every queue is empty |
| TaskQueue.FailsOnlyWhenEmpty | sop1_parallelism/phoenix++/src/task_queue.cpp:86-116 | a dequeue that fails, with nothing enqueued since it began, ends with every queue empty |
| TaskQueue.DequeueEnds | sop1_parallelism/phoenix++/src/task_queue.cpp:86-116 | a dequeue visits another queue with each visit, can always make the next one, fails after exactly as many visits as there are queues, and succeeds after no more |
| TaskOrder.AgesHold | sop1_parallelism/phoenix++/src/task_queue.cpp:51-70 | in every state of every run a queue holds exactly the tasks of the enqueue steps that its past says, oldest first |
| TaskOrder.TakenByAge | sop1_parallelism/phoenix++/src/task_queue.cpp:92-105 | a dequeue that finds a task gets the one enqueued first among those still in that queue, if tasks are always taken from the front or the queue is the one it began at, and otherwise the one enqueued last |
| TaskOrder.FirstInFirstOut | sop3_portability/src/taskQ.c:408-430 | when tasks are always taken from the front, what has been handed out from a queue, followed by what is in it, is what has been enqueued in it, in that order |
| TaskQueue.RunKeeps | sop3_portability/src/taskQ.c:408-443 | the invariant holds in every state of every run, with stealing from the front as well as from the back |

## Left out

General:

- Compare-and-swap, exchange and fetch-and-increment are atomic steps under sequential consistency; fences, cache flushes and futex sleeping are not modelled, a waiting loop is a step that changes nothing.
- System calls, register contexts, stack switching, signal masks, TLS, NUMA locality, CPU binding, timing and debug output.
- Freeing memory and failures of allocation, mmap, madvise and I/O calls; reads and writes transfer everything they are asked for.
- Integers are unbounded except where the width shows: the int in `const_iterator`.

Phoenix 2:

- Runtime.Run: tasks are run one at a time, in any order and on any thread, because threads only touch arrays of their own within a phase; the order in which threads take the tasks from the queues is not tied to `TaskQueue`.
- Runtime.Run: that each round ends with its work done is taken for granted, as `start_workers` does, and so it is for MergeWorker.Merge and Phases.ReducePhase; `Runtime.RoundsEnd` says for which thread counts the pool guarantees it, starting from a pool whose workers are all asleep. What a run computes when a round is passed too early is not modelled.
- Runtime.Run: a run that cannot start its threads counts as failed, whether an assertion fails or an entry behind the end of an array is read.
- Runtime.Run: use_one_queue_per_task is modelled for `insert_keyval` and for the clamps, not for the whole run; combiners (`run_combiner`) and user-supplied splitters are not modelled. The user's map, reduce and partition are functions, and keys that compare equal have the same partition.
- The key comparison is given by a real number per key, which loses nothing: any total preorder on the keys of a run embeds in the reals.
- `slots` of a value chunk is a sequence in a field of the chunk instead of a C array behind it.
- The loop that frees the chunks of a reduced key with iter_next_list.
- default_partition and the environment lookups by thread id.

MTCP:

- ST_ZOMBIE, fork, the superior (ptrace) thread beyond stray stop signals, checkpoint verification, and the MTCP_NO_CHECKPOINT variable, under which mtcp_ok and mtcp_no do nothing.
- clone and setupthread are one step, and so is mtcp_thread_return with its removal from the list. A stop signal that interrupts a holder of the threads lock is not modelled, as locks are only held inside single steps of other threads.
- CheckpointLive.CanComplete: says that there are steps, not that a scheduler takes them; nothing is said of fairness. JammedExactly is about steps without the program's help, as a thread that ends by a raw exit may make the scan start over.
- Opening, compressing, renaming and verifying checkpoint files, the file-descriptor tables, and restoring signal and terminal state.
- CheckpointWriter.WriteCheckpoint: takes the list of mappings as given, ascending and disjoint; vdso, vsyscall, nscd and infiniband areas, several stacks, and areas backed by shared files are excluded.
- CheckpointReader.ReadMemoryAreas: records of areas backed by shared files count as malformed; the code recreates or rewrites such files, which would need a model of the file system. Mapping an area over one that cannot be replaced is not modelled either.
- ThreadTable.Table.Dead: a thread removed goes to no free list, and its futex is not woken.
- Allocator.Dispatcher.Allocate: the address mmap returns is a parameter that overlaps no block; block sizes are those without record and replay. free(NULL) is not modelled, as the code reads a header in front of the pointer.

Phoenix++:

- IngestJob.Job: one local file, records that do not span lines, and fewer than 2^29 different keys, so that no table reaches 2^31 slots (`HashContainer.HashContainer.Add` says what happens then). HDFS, several files and ingest by several whole files are left out.
- MergeSort.RunMerge: that each round ends with its work done is taken for granted, as `start_workers` does, and so it is for SortedJob.Run; `MergeSort.RunMergeEnds` says that the pool guarantees it for one thread only.
- IngestJob.Job: the container holds lists of values; the fold of associative_combiner is stated about what these lists serve (`IngestJob.FoldServed`).
- array_container, fixed_hash_container, MUST_REDUCE builds and one-time results of user reduce functions.
- std::stable_sort, std::merge and std::unordered_map are taken by what they promise.
- ThreadPoolRuns.Barrier: reading the function pointer and the argument is one step; shutting a pool down and the result slots of tpool.c are left out; asking for more workers than threads fails an assertion in the code and is excluded here (`Runtime.Run` says when a run does).
- TaskQueue.NothingLost: a visit of one queue is one step, since it is made under that queue's lock; the queue chosen by locality or at random is any queue, and negative indices are excluded.
