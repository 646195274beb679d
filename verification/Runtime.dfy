/** map_reduce: the phases of a whole run of Phoenix 2, from its arguments to its result. */
module Runtime {
  import opened Collections
  import opened KeyValue
  import opened KeyvalArray
  import opened KeyvalsArray
  import opened ReduceTask
  import opened ReduceWorker
  import opened Schedule
  import opened MapReduce
  import opened Phases
  import MergePhase
  import MergeWorker
  import Pool = ThreadPool
  import Race = ThreadPoolRace
  import Rounds
  import TaskGeneration

  lemma FinalRuns(finals: seq<KeyvalArr>, rs: seq<seq<Pair>>, bufs: set<array<Pair>>)
    requires FinalsAre(finals, rs, bufs)
    ensures MergeWorker.RunsAt(finals, rs, bufs) && forall k | 0 <= k < |finals| :: finals[k].pos == 0
  {
    hide SortedPairs;
    forall i | 0 <= i < |finals|
      ensures MergeWorker.RunIs(finals[i], rs[i], bufs) && finals[i].pos == 0
    {
      assert FinalIs(finals[i], rs[i], bufs);
    }
  }

  // ---------- The threads of a run ----------

  /** The thread counts in map_reduce_args_t; a count that is not positive asks for one thread per processor. */
  datatype Args = Args(mapThreads: int, reduceThreads: int, mergeThreads: int)

  function Asked(arg: int, procs: nat): nat {
    if arg > 0 then arg else procs
  }

  function Min(x: nat, y: nat): nat {
    if x < y then x else y
  }

  /** The pool that the run uses: the one that an earlier run of the calling thread has left, or a new one with a thread
      for each map thread asked for. */
  function PoolThreads(left: Option<nat>, mapThreads: nat): nat {
    if left.Some? then left.value else mapThreads
  }

  /** start_workers for threads that take tasks from the queue: thread 0 is the caller and the others are workers of the
      pool, and each thread takes the queues' locks with an entry of its own. Otherwise an assertion of tpool_set fails,
      or an entry behind the end of the array is read. */
  predicate Starts(threads: nat, pool: nat, locks: nat) {
    threads <= pool + 1 && threads <= locks
  }

  /** The workers that the rounds of a run ask the pool for. */
  function Widths(mapThreads: nat, reduceThreads: nat, mergeThreads: nat): seq<nat>
    requires mapThreads > 0 && reduceThreads > 0
    requires mergeThreads > 0 && (reduceThreads > 1 ==> 2 * mergeThreads <= reduceThreads)
  {
    [mapThreads - 1, reduceThreads - 1] + MergePhase.MergeWidths(reduceThreads, mergeThreads)
  }

  lemma FirstWidths(mapThreads: nat, reduceThreads: nat, mergeThreads: nat)
    requires mapThreads > 0 && reduceThreads > 0
    requires mergeThreads > 0 && (reduceThreads > 1 ==> 2 * mergeThreads <= reduceThreads)
    ensures |Widths(mapThreads, reduceThreads, mergeThreads)| >= 2
    ensures Widths(mapThreads, reduceThreads, mergeThreads)[0] == mapThreads - 1
    ensures Widths(mapThreads, reduceThreads, mergeThreads)[1] == reduceThreads - 1
  {
    hide MergePhase.MergeWidths;
  }

  /** If the map phase and the reduce phase can start, all rounds can. */
  lemma NoRoundIsWider(mapThreads: nat, reduceThreads: nat, mergeThreads: nat, pool: nat)
    requires 0 < mapThreads <= pool + 1 && 0 < reduceThreads <= pool + 1
    requires mergeThreads > 0 && (reduceThreads > 1 ==> 2 * mergeThreads <= reduceThreads)
    ensures forall w :: w in Widths(mapThreads, reduceThreads, mergeThreads) ==> w <= pool
  {
    MergePhase.MergeWidthsBelow(reduceThreads, mergeThreads);
    hide MergePhase.MergeWidths;
  }

  /** start_workers counts on the pool to return from wait only when all workers of the round have ended. For the rounds
      of a run in a new pool it does so, whatever the interleaving, exactly if there is one reduce thread, or there are
      two or three and not more map threads than that. */
  lemma RoundsEnd(c: Pool.Setting, mapThreads: nat, reduceThreads: nat, mergeArg: int)
    requires mapThreads > 0 && reduceThreads > 0 && Pool.Fits(c)
    requires Rounds.Widths(c) == Widths(mapThreads, reduceThreads, DefaultMergeThreads(mergeArg, reduceThreads))
    ensures Race.IsBarrier(c) <==> reduceThreads == 1 || (reduceThreads <= 3 && mapThreads <= reduceThreads)
  {
    Rounds.BarrierFor(c);
    var n := DefaultMergeThreads(mergeArg, reduceThreads);
    MergeRises(mapThreads - 1, reduceThreads, n);
    hide MergePhase.MergeWidths, Race.IsBarrier, Rounds.Rising;
  }

  /** Up to the end of the reduce phase: exactly if there is one reduce thread or there are not more map threads. */
  lemma ReduceRoundEnds(c: Pool.Setting, mapThreads: nat, reduceThreads: nat)
    requires mapThreads > 0 && reduceThreads > 0 && Pool.Fits(c)
    requires Rounds.Widths(c) == [mapThreads - 1, reduceThreads - 1]
    ensures Race.IsBarrier(c) <==> reduceThreads == 1 || mapThreads <= reduceThreads
  {
    Rounds.BarrierFor(c);
    var ws := [mapThreads - 1, reduceThreads - 1];
    assert ws[1..] == [reduceThreads - 1] && ws[1..][1..] == [];
    assert Rounds.Rising(mapThreads - 1, ws[1..]) <==> reduceThreads == 1 || mapThreads <= reduceThreads;
    hide Race.IsBarrier;
  }

  /** env_init's choice when there is one queue per reduce thread. */
  function DefaultMergeThreads(mergeArg: int, reduceThreads: nat): (n: nat)
    ensures n > 0 && (reduceThreads > 1 ==> 2 * n <= reduceThreads)
    ensures reduceThreads <= 3 ==> n == 1
    ensures reduceThreads > 3 ==> n > 1
  {
    MergePhase.NumMergeThreads(false, mergeArg, reduceThreads)
  }

  lemma MergeRises(mapWidth: nat, reduceThreads: nat, n: nat)
    requires reduceThreads > 0 && n > 0 && (reduceThreads > 1 ==> 2 * n <= reduceThreads)
    requires if reduceThreads <= 3 then n == 1 else n > 1
    ensures Rounds.Rising(0, Widths(mapWidth + 1, reduceThreads, n)) <==>
            reduceThreads == 1 || (reduceThreads <= 3 && mapWidth < reduceThreads)
  {
    var rest := MergePhase.MergeWidths(reduceThreads, n);
    var ws := Widths(mapWidth + 1, reduceThreads, n);
    assert ws == [mapWidth, reduceThreads - 1] + rest;
    assert ws[1..] == [reduceThreads - 1] + rest && ws[1..][1..] == rest;
    var behind := if reduceThreads == 1 then mapWidth else reduceThreads - 1;
    assert Rounds.Rising(mapWidth, ws[1..]) <==> mapWidth <= behind && Rounds.Rising(behind, rest);
    if reduceThreads == 1 {
      assert rest == [];
    } else {
      assert rest[0] == n - 1;
      if n == 1 {
        assert rest == [0] && rest[1..] == [];
        assert Rounds.Rising(behind, rest[1..]);
      }
      assert Rounds.Rising(behind, rest) <==> n == 1;
    }
  }

  // ---------- The phases ----------

  /** The reduce phase and the merge phase, on the arrays that the map phase leaves. */
  method ReduceAndMerge(job: Job, table: Table, ghost objs: set<KeyvalsArr>, ghost own: Own, ghost mapSched: seq<Pick>)
    returns (data: array<Pair>, length: nat, ghost widths: seq<nat>, ghost reduceSched: seq<Pick>)
    requires job.Valid() && Grid(table, objs, job.reduceTasks) && |table| == job.mapThreads && Stored(objs, own)
    requires Unread(job, table, objs, Outputs(mapSched, job.mapThreads, job.emits), Below(job.reduceTasks))
    modifies objs`pos
    ensures Threads(reduceSched, job.reduceThreads) && Complete(reduceSched, job.given)
    ensures length <= data.Length && data[..length] == Result(job, mapSched, reduceSched)
    ensures widths == Widths(job.mapThreads, job.reduceThreads, job.mergeThreads)
  {
    hide Grid, Stored, Unread, FinalsAre, Finals, MergePhase.MergeAll, MergePhase.MergeWidths;
    var finals;
    ghost var bufs;
    finals, reduceSched, bufs := ReducePhase(job, table, objs, own, mapSched);
    FinalRuns(finals, Finals(job, mapSched, reduceSched), bufs);
    data, length, widths := MergeWorker.Merge(finals, job.mergeThreads, Finals(job, mapSched, reduceSched), bufs);
    widths := [job.mapThreads - 1, job.reduceThreads - 1] + widths;
  }

  /** The three phases, given what each map task emits, in a pool of `pool` threads and with lock entries for `locks`
      threads. Whether every round ends with its work done is the subject of RoundsEnd. */
  method RunPhases(job: Job, pool: nat, locks: nat)
    returns (ok: bool, data: array<Pair>, length: nat, ghost widths: seq<nat>, ghost calls: seq<Call>)
    requires job.Valid()
    ensures ok <==> Starts(job.mapThreads, pool, locks) && Starts(job.reduceThreads, pool, locks)
    ensures ok ==> widths == Widths(job.mapThreads, job.reduceThreads, job.mergeThreads)
    ensures ok ==> forall w :: w in widths ==> w <= pool
    ensures ok ==> length <= data.Length && SortedPairs(data[..length])
    ensures ok ==> multiset(data[..length]) == multiset(Emitted(calls, job.reduce))
    ensures ok ==> forall i, j | 0 <= i < j < |calls| :: calls[i].key.rank != calls[j].key.rank
    ensures ok ==> forall rank :: Called(calls, rank) <==>
              MapReduce.Emits(job.emits, rank) && job.partition(rank) % job.reduceTasks < job.given
    ensures ok ==> forall i | 0 <= i < |calls| ::
              multiset(calls[i].vals) == multiset(ValuesFor(Flatten(job.emits), calls[i].key.rank))
  {
    data := new Pair[0];
    ok, length, widths, calls := false, 0, [], [];
    var table, objs, own := NewTable(job.mapThreads, job.reduceTasks);
    hide Grid, Stored, Unread, SortedPairs, Emitted, Called, MapReduce.Emits, Flatten, ValuesFor, Result, Widths;
    if !Starts(job.mapThreads, pool, locks) { return; }
    var mapSched, own' := MapPhase(job, table, objs, own);
    if !Starts(job.reduceThreads, pool, locks) { return; }
    ghost var reduceSched;
    data, length, widths, reduceSched := ReduceAndMerge(job, table, objs, own', mapSched);
    NoRoundIsWider(job.mapThreads, job.reduceThreads, job.mergeThreads, pool);
    calls := ResultMeaning(job, mapSched, reduceSched);
    ok := true;
  }

  /** What each map task emits. */
  function Mapped(mapTask: TaskGeneration.MapTask -> seq<Pair>, tasks: seq<TaskGeneration.MapTask>):
      (emits: seq<seq<Pair>>)
    ensures |emits| == |tasks| && forall i :: 0 <= i < |tasks| ==> emits[i] == mapTask(tasks[i])
  {
    seq(|tasks|, i requires 0 <= i < |tasks| => mapTask(tasks[i]))
  }

  /** When the threads asked for can be started: no more reduce threads than map threads, because the locks are sized by
      these, and in either phase no more threads than the pool and the caller together. */
  predicate Enough(args: Args, procs: nat, left: Option<nat>, tasks: nat) {
    var mapThreads, reduceThreads := Asked(args.mapThreads, procs), Asked(args.reduceThreads, procs);
    var pool := PoolThreads(left, mapThreads);
    reduceThreads <= mapThreads && reduceThreads <= pool + 1 && Min(mapThreads, tasks) <= pool + 1
  }

  lemma EnoughIs(args: Args, procs: nat, left: Option<nat>, tasks: nat)
    ensures var mapThreads := if args.mapThreads > 0 then args.mapThreads else procs;
            var reduceThreads := if args.reduceThreads > 0 then args.reduceThreads else procs;
            var pool := if left.Some? then left.value else mapThreads;
            Enough(args, procs, left, tasks) <==>
              reduceThreads <= mapThreads && reduceThreads <= pool + 1 && (mapThreads <= pool + 1 || tasks <= pool + 1)
  {
  }

  /** In a new pool only the two counts matter. */
  lemma EnoughInNewPool(args: Args, procs: nat, tasks: nat)
    ensures Enough(args, procs, None, tasks) <==> Asked(args.reduceThreads, procs) <= Asked(args.mapThreads, procs)
  {
  }

  /** Two map threads and eight reduce threads cannot be started, whatever the input; nor can eight threads in the pool
      that a run with two has left. */
  lemma TooManyReduceThreads(procs: nat, left: Option<nat>, tasks: nat)
    ensures !Enough(Args(2, 8, 0), procs, left, tasks)
    ensures !Enough(Args(8, 8, 0), procs, Some(2), tasks)
  {
  }

  /** map_reduce: the arguments as env_init clamps them, the tasks as gen_map_tasks and gen_reduce_tasks make them.
      It fails exactly on an input without a whole unit (an assertion in map) and when there are not enough threads.
      Otherwise the map tasks tile the input, the result is sorted by key, and it holds what reduce emits when it is
      called once, on all values emitted for it, for each emitted key of a reduce task that was handed out. These are
      the first HandedOut tasks; all reduce tasks are handed out, and so no emitted key is lost, exactly when Covers
      holds. Every round is taken to end with
      its work done; RoundsEnd says for which of the `widths` the pool sees to that. */
  method Run(units: nat, chunkSize: nat, args: Args, procs: nat, left: Option<nat>,
             mapTask: TaskGeneration.MapTask -> seq<Pair>, partition: real -> nat, reduce: Reducer)
    returns (ok: bool, data: array<Pair>, length: nat, ghost emits: seq<seq<Pair>>, ghost given: nat,
             ghost widths: seq<nat>, ghost calls: seq<Call>)
    requires chunkSize > 0 && procs > 0
    ensures ok <==> units > 0 && Enough(args, procs, left, TaskGeneration.TaskCount(units, chunkSize))
    ensures var mapThreads := if args.mapThreads > 0 then args.mapThreads else procs;
            var reduceThreads := if args.reduceThreads > 0 then args.reduceThreads else procs;
            var pool := if left.Some? then left.value else mapThreads;
            ok <==> units > 0 && reduceThreads <= mapThreads && reduceThreads <= pool + 1
                    && (mapThreads <= pool + 1 || TaskGeneration.TaskCount(units, chunkSize) <= pool + 1)
    ensures ok ==> exists tasks :: TaskGeneration.Tiles(tasks, units, chunkSize) && emits == Mapped(mapTask, tasks)
    ensures ok ==> |emits| == TaskGeneration.TaskCount(units, chunkSize) > 0
    ensures ok ==> var mapThreads := Min(Asked(args.mapThreads, procs), |emits|);
                   var reduceThreads := Asked(args.reduceThreads, procs);
                   widths == Widths(mapThreads, reduceThreads, DefaultMergeThreads(args.mergeThreads, reduceThreads))
    ensures ok ==> forall w :: w in widths ==> w <= PoolThreads(left, Asked(args.mapThreads, procs))
    ensures ok ==> length <= data.Length && SortedPairs(data[..length])
    ensures ok ==> multiset(data[..length]) == multiset(Emitted(calls, reduce))
    ensures ok ==> forall i, j | 0 <= i < j < |calls| :: calls[i].key.rank != calls[j].key.rank
    ensures ok ==> forall rank ::
              Called(calls, rank) <==> MapReduce.Emits(emits, rank) && partition(rank) % 32768 < given
    ensures ok ==> forall i | 0 <= i < |calls| ::
              multiset(calls[i].vals) == multiset(ValuesFor(Flatten(emits), calls[i].key.rank))
    ensures ok ==> var asked := if args.mapThreads > 0 then args.mapThreads else procs;
                   var mapThreads := if asked < |emits| then asked else |emits|;
                   var reduceThreads := if args.reduceThreads > 0 then args.reduceThreads else procs;
                   && |widths| >= 2 && widths[0] == mapThreads - 1 && widths[1] == reduceThreads - 1
                   && given == TaskGeneration.HandedOut(32768, reduceThreads, mapThreads)
    ensures ok ==> (given == 32768 <==>
                    TaskGeneration.Covers(32768, Asked(args.reduceThreads, procs),
                                          Min(Asked(args.mapThreads, procs), |emits|)))
  {
    hide SortedPairs, Emitted, Called, MapReduce.Emits, Flatten, ValuesFor, TaskGeneration.Tiles, TaskGeneration.Covers;
    hide Widths, DefaultMergeThreads, TaskGeneration.TaskCount, TaskGeneration.HandedOut;
    EnoughIs(args, procs, left, TaskGeneration.TaskCount(units, chunkSize));
    var mapThreads, reduceThreads := Asked(args.mapThreads, procs), Asked(args.reduceThreads, procs);
    var reduceTasks := MergePhase.NumReduceTasks(false);
    var mergeThreads := DefaultMergeThreads(args.mergeThreads, reduceThreads);
    var locks, pool := mapThreads, PoolThreads(left, mapThreads);
    data := new Pair[0];
    ok, length, emits, given, widths, calls := false, 0, [], 0, [], [];
    var numMapTasks, tasks := TaskGeneration.GenMapTasks(units, chunkSize);
    if numMapTasks < 0 { return; }
    NoTasks(tasks, units, chunkSize);
    TaskGeneration.TilesCount(tasks, units, chunkSize);
    if numMapTasks < mapThreads {
      mapThreads := numMapTasks;
    }
    var ids := TaskGeneration.GenReduceTasks(reduceTasks, reduceThreads, mapThreads);
    given, emits := |ids|, Mapped(mapTask, tasks);
    var job := Job(Mapped(mapTask, tasks), partition, reduce, mapThreads, reduceThreads, reduceTasks, |ids|,
                   mergeThreads);
    ok, data, length, widths, calls := RunPhases(job, pool, locks);
    FirstWidths(mapThreads, reduceThreads, mergeThreads);
  }

  lemma NoTasks(tasks: seq<TaskGeneration.MapTask>, units: nat, chunkSize: nat)
    requires TaskGeneration.Tiles(tasks, units, chunkSize) && units > 0
    ensures tasks != []
  {
  }
}
