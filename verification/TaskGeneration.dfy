/** Generation of map and reduce tasks. */
module TaskGeneration {
  import opened Schedule

  // ---------- Reduce tasks ----------

  function PerThread(numTasks: nat, reduceThreads: nat): nat
    requires reduceThreads > 0
  {
    numTasks / reduceThreads
  }

  /** When the tasks generated are all the tasks. */
  predicate Covers(numTasks: nat, reduceThreads: nat, mapThreads: nat)
    requires reduceThreads > 0
  {
    mapThreads <= reduceThreads || numTasks % reduceThreads == 0 || numTasks < reduceThreads
  }

  /** tasks_leftover: the remainder is computed with the number of MAP threads. */
  function Leftover(numTasks: nat, reduceThreads: nat, mapThreads: nat): int
    requires reduceThreads > 0
  {
    numTasks - PerThread(numTasks, reduceThreads) * mapThreads
  }

  /** How many tasks the first n threads are given. */
  function Given(n: nat, numTasks: nat, reduceThreads: nat, mapThreads: nat): int
    requires reduceThreads > 0
  {
    var leftover := Leftover(numTasks, reduceThreads, mapThreads);
    n * PerThread(numTasks, reduceThreads) + if leftover <= 0 then 0 else if n < leftover then n else leftover
  }

  lemma GivenStep(n: nat, numTasks: nat, reduceThreads: nat, mapThreads: nat)
    requires reduceThreads > 0
    ensures Given(0, numTasks, reduceThreads, mapThreads) == 0
    ensures Given(n + 1, numTasks, reduceThreads, mapThreads) ==
            Given(n, numTasks, reduceThreads, mapThreads) + PerThread(numTasks, reduceThreads) +
            if n < Leftover(numTasks, reduceThreads, mapThreads) then 1 else 0
  {
    var each := PerThread(numTasks, reduceThreads);
    assert (n + 1) * each == n * each + each;
  }

  /** All threads together are given at least all tasks exactly when no more map threads than reduce
      threads are counted, or there is no remainder, or there are fewer tasks than reduce threads. */
  lemma GivenAll(numTasks: nat, reduceThreads: nat, mapThreads: nat)
    requires reduceThreads > 0
    ensures Given(reduceThreads, numTasks, reduceThreads, mapThreads) >= numTasks <==>
            Covers(numTasks, reduceThreads, mapThreads)
  {
    var each := numTasks / reduceThreads;
    Products(each, reduceThreads, mapThreads);
    Division(numTasks, reduceThreads);
    Clamped(each, each * reduceThreads, each * mapThreads, numTasks % reduceThreads, reduceThreads, mapThreads);
    assert each == 0 <==> numTasks < reduceThreads;
  }

  /** With four map threads and three reduce threads, two of the 32768 tasks are never enqueued. */
  lemma TwoTasksLost()
    ensures !Covers(32768, 3, 4) && HandedOut(32768, 3, 4) == 32766
  {
    assert 32768 / 3 == 10922 && 32768 % 3 == 2;
  }

  /** How many reduce tasks are enqueued. */
  function HandedOut(numTasks: nat, reduceThreads: nat, mapThreads: nat): nat
    requires reduceThreads > 0
  {
    GivenIs(numTasks, reduceThreads, mapThreads);
    var all := Given(reduceThreads, numTasks, reduceThreads, mapThreads);
    if all < numTasks then all else numTasks
  }

  lemma GivenIs(numTasks: nat, reduceThreads: nat, mapThreads: nat)
    requires reduceThreads > 0
    ensures var each := numTasks / reduceThreads;
            var rest := numTasks - each * mapThreads;
            var more := if rest < 0 then 0 else if rest > reduceThreads then reduceThreads else rest;
            Given(reduceThreads, numTasks, reduceThreads, mapThreads) == reduceThreads * each + more
  {
  }

  lemma Division(a: nat, b: nat)
    requires b > 0
    ensures a == a / b * b + a % b && 0 <= a % b < b
    ensures a / b == 0 <==> a < b
  {
  }

  lemma Products(each: nat, r: nat, m: nat)
    ensures m <= r ==> each * m <= each * r
    ensures m > r ==> each * m >= each * r + each
  {
    if m <= r {
      assert each * r == each * m + each * (r - m);
    } else {
      assert each * m == each * r + each * (m - r);
      assert each * (m - r) == each + each * (m - r - 1);
    }
  }

  /** The arithmetic of GivenAll, with the products as numbers of their own. */
  lemma Clamped(each: nat, perReduce: nat, perMap: nat, rest: nat, r: nat, m: nat)
    requires rest < r && (each == 0 ==> perReduce == perMap == 0)
    requires m <= r ==> perMap <= perReduce
    requires m > r ==> perMap >= perReduce + each
    ensures var leftover := perReduce + rest - perMap;
            (perReduce + (if leftover <= 0 then 0 else if r < leftover then r else leftover) >= perReduce + rest <==>
             m <= r || rest == 0 || each == 0)
  {
  }

  /** The do loop of gen_reduce_tasks for one thread: it enqueues `remaining` further tasks, and stops
      the whole generation when asked for another one after the last. */
  method EnqueueRun(first: nat, remaining: nat, numTasks: nat) returns (taskId: nat, full: bool)
    requires first <= numTasks && (remaining == 0 ==> first == numTasks)
    ensures if full then taskId == numTasks <= first + remaining else taskId == first + remaining <= numTasks
  {
    taskId := first;
    var left: int := remaining;
    while true
      invariant first <= taskId <= numTasks && taskId + left == first + remaining
      invariant left > 0 || (left == 0 && taskId == numTasks)
      decreases numTasks - taskId
    {
      if taskId == numTasks {
        return taskId, true;
      }
      taskId := taskId + 1;
      left := left - 1;
      if left == 0 {
        return taskId, false;
      }
    }
  }

  /** gen_reduce_tasks: the ids enqueued, in order. Every reduce task is enqueued (once) exactly when
      the condition of GivenAll holds. */
  method GenReduceTasks(numTasks: nat, reduceThreads: nat, mapThreads: nat) returns (ids: seq<nat>)
    requires numTasks > 0 && reduceThreads > 0 && mapThreads > 0
    ensures ids == Range(|ids|)
    ensures var each := numTasks / reduceThreads;
            var rest := numTasks - each * mapThreads;
            var more := if rest < 0 then 0 else if rest > reduceThreads then reduceThreads else rest;
            var all := reduceThreads * each + more;
            |ids| == HandedOut(numTasks, reduceThreads, mapThreads) == if all < numTasks then all else numTasks
    ensures ids == Range(numTasks) <==> Covers(numTasks, reduceThreads, mapThreads)
  {
    GivenIs(numTasks, reduceThreads, mapThreads);
    hide Given, PerThread, Leftover, Covers;
    GivenAll(numTasks, reduceThreads, mapThreads);
    GivenStep(0, numTasks, reduceThreads, mapThreads);
    var tasksPerThread := PerThread(numTasks, reduceThreads);
    var tasksLeftover := Leftover(numTasks, reduceThreads, mapThreads);
    var leftover := tasksLeftover;
    ids := [];
    var taskId: nat := 0;
    var tid := 0;
    while tid < reduceThreads
      invariant tid <= reduceThreads && taskId <= numTasks && ids == Range(taskId)
      invariant taskId == Given(tid, numTasks, reduceThreads, mapThreads)
      invariant tasksLeftover == if leftover <= 0 then leftover else if tid < leftover then leftover - tid else 0
    {
      var remaining := tasksPerThread;
      if tasksLeftover > 0 {
        remaining := remaining + 1;
        tasksLeftover := tasksLeftover - 1;
      }
      GivenStep(tid, numTasks, reduceThreads, mapThreads);
      assert taskId + remaining == Given(tid + 1, numTasks, reduceThreads, mapThreads);
      if remaining == 0 {
        NothingToGive(tid, numTasks, reduceThreads, mapThreads);
      }
      var full;
      taskId, full := EnqueueRun(taskId, remaining, numTasks);
      ids := Range(taskId);
      if full {
        AllGiven(tid + 1, numTasks, reduceThreads, mapThreads);
        return;
      }
      tid := tid + 1;
    }
  }

  /** A thread is given nothing only when every task has been given already. */
  lemma NothingToGive(n: nat, numTasks: nat, reduceThreads: nat, mapThreads: nat)
    requires reduceThreads > 0 && PerThread(numTasks, reduceThreads) == 0
    requires n >= Leftover(numTasks, reduceThreads, mapThreads)
    ensures Given(n, numTasks, reduceThreads, mapThreads) == numTasks
  {
  }

  lemma {:induction false} AllGiven(n: nat, numTasks: nat, reduceThreads: nat, mapThreads: nat)
    requires 0 < reduceThreads && n <= reduceThreads && Given(n, numTasks, reduceThreads, mapThreads) >= numTasks
    ensures Given(reduceThreads, numTasks, reduceThreads, mapThreads) >= numTasks
    decreases reduceThreads - n
  {
    if n < reduceThreads {
      GivenStep(n, numTasks, reduceThreads, mapThreads);
      AllGiven(n + 1, numTasks, reduceThreads, mapThreads);
    }
  }

  // ---------- Map tasks ----------

  /** A map task: `len` units of the input from unit `start` on. */
  datatype MapTask = MapTask(id: nat, start: nat, len: nat)

  /** The tasks are numbered, non-empty, and tile [0, units) in order; all but the last are full. */
  ghost predicate Tiles(tasks: seq<MapTask>, units: nat, chunkSize: nat) {
    && (forall i | 0 <= i < |tasks| :: tasks[i].id == i && tasks[i].start == i * chunkSize && tasks[i].len > 0)
    && (forall i | 0 <= i < |tasks| - 1 :: tasks[i].len == chunkSize)
    && (if tasks == [] then units == 0
        else var last := tasks[|tasks| - 1]; last.len <= chunkSize && last.start + last.len == units)
  }

  function TaskCount(units: nat, chunkSize: nat): nat
    requires chunkSize > 0
  {
    (units + chunkSize - 1) / chunkSize
  }

  lemma TilesCount(tasks: seq<MapTask>, units: nat, chunkSize: nat)
    requires chunkSize > 0 && Tiles(tasks, units, chunkSize)
    ensures |tasks| == TaskCount(units, chunkSize)
  {
    if tasks != [] {
      var n := |tasks|;
      var last := tasks[n - 1];
      assert last.start == (n - 1) * chunkSize;
      Quotient(units + chunkSize - 1, n, last.len - 1, chunkSize);
    } else {
      Quotient(chunkSize - 1, 0, chunkSize - 1, chunkSize);
    }
  }

  lemma Quotient(x: nat, q: nat, r: nat, d: nat)
    requires r < d && (if q == 0 then x == r else x == (q - 1) * d + d + r)
    ensures x / d == q
  {
    Division(x, d);
    Products(d, x / d, q);
    Products(d, q, x / d);
    if q > 0 { assert q * d == (q - 1) * d + d; }
  }

  /** gen_map_tasks_split with array_splitter, and gen_map_tasks' treatment of its result: an input
      without a whole unit yields no task and is reported as an error. */
  method GenMapTasks(dataUnits: nat, chunkSize: nat) returns (ret: int, tasks: seq<MapTask>)
    requires chunkSize > 0
    ensures Tiles(tasks, dataUnits, chunkSize)
    ensures ret == if dataUnits == 0 then -1 else |tasks|
  {
    tasks := [];
    var splitterPos := 0;
    while splitterPos < dataUnits
      invariant splitterPos <= dataUnits && Tiles(tasks, splitterPos, chunkSize)
      invariant splitterPos < dataUnits ==> splitterPos == |tasks| * chunkSize
      invariant |tasks| == 0 <==> splitterPos == 0
    {
      var length := if splitterPos + chunkSize > dataUnits then dataUnits - splitterPos else chunkSize;
      ghost var before := tasks;
      tasks := tasks + [MapTask(|tasks|, splitterPos, length)];
      splitterPos := splitterPos + length;
      LastFull(before, splitterPos - length, chunkSize);
      assert (|before| + 1) * chunkSize == |before| * chunkSize + chunkSize;
    }
    ret := if |tasks| <= 0 then -1 else |tasks|;
  }

  lemma LastFull(tasks: seq<MapTask>, units: nat, chunkSize: nat)
    requires Tiles(tasks, units, chunkSize) && units == |tasks| * chunkSize
    ensures forall i | 0 <= i < |tasks| :: tasks[i].len == chunkSize
  {
    if tasks != [] {
      assert |tasks| * chunkSize == (|tasks| - 1) * chunkSize + chunkSize;
    }
  }
}
