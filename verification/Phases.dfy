/** The map phase and the reduce phase of Phoenix 2 with the default per-thread output queues and no combiner, on the
    arrays allocated for them. A task runs from start to end on a thread chosen at will, and so do the tasks' order and
    the sharing among the threads; threads only touch arrays of their own within a phase. */
module Phases {
  import opened Collections
  import opened KeyValue
  import opened KeyvalsArray
  import opened KeyvalArray
  import opened ReduceTask
  import opened ReduceWorker
  import opened Schedule
  import opened MapReduce
  import VI = ValueIterator

  /** intermediate_vals: one row for each map thread, one array for each reduce task. */
  type Table = seq<seq<KeyvalsArr>>

  // ---------- The arrays ----------

  /** The table has one column for each task and every slot holds an array of its own. */
  ghost predicate Grid(table: Table, objs: set<KeyvalsArr>, tasks: nat) {
    && (forall t :: 0 <= t < |table| ==> |table[t]| == tasks)
    && (forall t, c {:trigger table[t][c]} :: 0 <= t < |table| && 0 <= c < tasks ==> table[t][c] in objs)
    && (forall t, c, u, d {:trigger table[t][c], table[u][d]} ::
          0 <= t < |table| && 0 <= c < tasks && 0 <= u < |table| && 0 <= d < tasks && table[t][c] == table[u][d] ==>
            t == u && c == d)
  }

  /** The arrays are sound and share no storage. */
  ghost predicate Stored(objs: set<KeyvalsArr>, own: Own)
    reads objs`len, objs`allocLen, objs`arr, objs`entries, objs`chains, objs`owned, own.arrays, own.chunks
  {
    && (forall a | a in objs :: a.owned <= own.chunks && a.arr in own.arrays)
    && (forall a | a in objs :: a.Valid())
    && forall a, b | a in objs && b in objs && a != b :: a.arr != b.arr && a.owned !! b.owned
  }

  /** An array that holds what the emit_intermediate calls `ps` of its thread put there for a task, unread so far. */
  ghost predicate Slot(job: Job, a: KeyvalsArr, ps: seq<Pair>, task: nat)
    requires 0 < job.reduceTasks
    reads a`entries, a`pos
  {
    a.pos == 0 && a.entries == EntriesOf(ForTask(job, ps, task))
  }

  /** The columns of the tasks hold what the threads have emitted. */
  ghost predicate Unread(job: Job, table: Table, objs: set<KeyvalsArr>, outs: seq<seq<Pair>>, tasks: set<nat>)
    requires 0 < job.reduceTasks && Grid(table, objs, job.reduceTasks) && |outs| == |table|
    reads objs`entries, objs`pos
  {
    forall t, c {:trigger table[t][c]} :: 0 <= t < |table| && 0 <= c < job.reduceTasks && c in tasks ==>
      Slot(job, table[t][c], outs[t], c)
  }

  method NewRow(n: nat) returns (row: seq<KeyvalsArr>, ghost objs: set<KeyvalsArr>, ghost own: Own)
    ensures |row| == n && fresh(objs) && fresh(own.arrays) && fresh(own.chunks) && Stored(objs, own)
    ensures forall a | a in objs :: a.entries == [] && a.pos == 0
    ensures forall c | 0 <= c < n :: row[c] in objs
    ensures forall c, d | 0 <= c < d < n :: row[c] != row[d]
  {
    hide ArrHolds, WellFormed;
    row, objs, own := [], {}, Own({}, {});
    for i := 0 to n
      invariant |row| == i && fresh(objs) && fresh(own.arrays) && own.chunks == {} && Stored(objs, own)
      invariant forall a | a in objs :: a.entries == [] && a.pos == 0
      invariant forall c | 0 <= c < i :: row[c] in objs
      invariant forall c, d | 0 <= c < d < i :: row[c] != row[d]
    {
      var a := new KeyvalsArr();
      row, objs, own := row + [a], objs + {a}, Own(own.arrays + {a.arr}, own.chunks);
    }
  }

  lemma StoredTogether(objs: set<KeyvalsArr>, own: Own, more: set<KeyvalsArr>, new': Own)
    requires Stored(objs, own) && Stored(more, new') && own.arrays !! new'.arrays && own.chunks !! new'.chunks
    ensures Stored(objs + more, Own(own.arrays + new'.arrays, own.chunks + new'.chunks))
  {
    hide ArrHolds, WellFormed;
  }

  /** The table as mem_calloc leaves it. */
  method NewTable(threads: nat, tasks: nat) returns (table: Table, ghost objs: set<KeyvalsArr>, ghost own: Own)
    ensures |table| == threads && Grid(table, objs, tasks) && Stored(objs, own)
    ensures fresh(objs) && fresh(own.arrays) && fresh(own.chunks)
    ensures forall a | a in objs :: a.entries == [] && a.pos == 0
  {
    hide Stored;
    table, objs, own := [], {}, Own({}, {});
    NoneStored(own);
    for t := 0 to threads
      invariant |table| == t && Grid(table, objs, tasks) && Stored(objs, own)
      invariant fresh(objs) && fresh(own.arrays) && fresh(own.chunks)
      invariant forall a | a in objs :: a.entries == [] && a.pos == 0
    {
      var row, more, new' := NewRow(tasks);
      StoredTogether(objs, own, more, new');
      table, objs := table + [row], objs + more;
      own := Own(own.arrays + new'.arrays, own.chunks + new'.chunks);
    }
  }

  lemma NoneStored(own: Own)
    ensures Stored({}, own)
  {
  }

  // ---------- Schedules ----------

  /** Every item below n has been picked once or is still pending. */
  ghost predicate Left(sched: seq<Pick>, pending: set<nat>, n: nat) {
    multiset(Items(sched)) + multiset(pending) == multiset(Range(n))
  }

  lemma {:induction false} LeftFirst(n: nat)
    ensures Left([], Below(n), n)
  {
    assert Items([]) == [];
    if n > 0 {
      LeftFirst(n - 1);
      assert Range(n) == Range(n - 1) + [n - 1];
    }
  }

  lemma LeftPick(sched: seq<Pick>, pending: set<nat>, n: nat, p: Pick)
    requires Left(sched, pending, n) && p.item in pending
    ensures Left(sched + [p], pending - {p.item}, n) && p.item < n
  {
    assert Items(sched + [p]) == Items(sched) + [p.item];
    assert multiset(pending) == multiset(pending - {p.item}) + multiset{p.item};
    assert p.item in multiset(Items(sched)) + multiset(pending);
    assert p.item in Range(n);
  }

  // ---------- The map phase ----------

  /** insert_keyval_merged on one of the arrays: the others do not notice. */
  method InsertInto(a: KeyvalsArr, p: Pair, ghost objs: set<KeyvalsArr>, ghost own: Own) returns (ghost own': Own)
    requires a in objs && Stored(objs, own)
    modifies objs, own.arrays, own.chunks
    ensures Stored(objs, own') && fresh(own'.arrays - own.arrays) && fresh(own'.chunks - own.chunks)
    ensures a.entries == InsertEntry(old(a.entries), p.key, p.val) && a.pos == old(a.pos)
    ensures forall b | b in objs && b != a :: b.entries == old(b.entries) && b.pos == old(b.pos)
  {
    hide ArrHolds, WellFormed, InsertEntry;
    label Before:
    a.Insert(p.key, p.val);
    own' := Own(own.arrays + {a.arr}, own.chunks + a.owned);
    forall b | b in objs
      ensures b.Valid()
    {
      if b != a { assert old@Before(b.Valid()); }
    }
  }

  lemma SlotEmit(job: Job, ps: seq<Pair>, p: Pair, task: nat)
    requires 0 < job.reduceTasks
    ensures EntriesOf(ForTask(job, ps + [p], task)) ==
            if ReducePos(job, p.key) == task then InsertEntry(EntriesOf(ForTask(job, ps, task)), p.key, p.val)
            else EntriesOf(ForTask(job, ps, task))
  {
    hide InsertEntry;
    assert (ps + [p])[..|ps|] == ps;
    var front := ForTask(job, ps, task);
    assert (front + [p])[..|front|] == front && front + [] == front;
  }

  /** emit_intermediate, by map thread t. */
  method EmitIntermediate(job: Job, table: Table, t: nat, p: Pair, ghost objs: set<KeyvalsArr>, ghost own: Own,
                          ghost outs: seq<seq<Pair>>) returns (ghost own': Own)
    requires 0 < job.reduceTasks && Grid(table, objs, job.reduceTasks) && t < |table| == |outs|
    requires Stored(objs, own) && Unread(job, table, objs, outs, Below(job.reduceTasks))
    modifies objs, own.arrays, own.chunks
    ensures Stored(objs, own') && fresh(own'.arrays - own.arrays) && fresh(own'.chunks - own.chunks)
    ensures Unread(job, table, objs, outs[t := outs[t] + [p]], Below(job.reduceTasks))
  {
    hide Stored, ArrHolds, WellFormed, InsertEntry, EntriesOf, ForTask, Below;
    var reducePos := job.partition(p.key.rank);
    reducePos := reducePos % job.reduceTasks;
    own' := InsertInto(table[t][reducePos], p, objs, own);
    ghost var outs' := outs[t := outs[t] + [p]];
    forall u, c {:trigger table[u][c]} | 0 <= u < |table| && 0 <= c < job.reduceTasks && c in Below(job.reduceTasks)
      ensures Slot(job, table[u][c], outs'[u], c)
    {
      assert old(Slot(job, table[u][c], outs[u], c));
      SlotEmit(job, outs[t], p, c);
    }
  }

  /** map_worker_do_next_task, after the dequeue: thread t runs the user's map on an item. */
  method RunMapTask(job: Job, table: Table, t: nat, item: nat, ghost objs: set<KeyvalsArr>, ghost own: Own,
                    ghost outs: seq<seq<Pair>>) returns (ghost own': Own)
    requires 0 < job.reduceTasks && Grid(table, objs, job.reduceTasks) && t < |table| == |outs| && item < |job.emits|
    requires Stored(objs, own) && Unread(job, table, objs, outs, Below(job.reduceTasks))
    modifies objs, own.arrays, own.chunks
    ensures Stored(objs, own') && fresh(own'.arrays - own.arrays) && fresh(own'.chunks - own.chunks)
    ensures Unread(job, table, objs, outs[t := outs[t] + job.emits[item]], Below(job.reduceTasks))
  {
    hide Stored, Unread, Grid, Below;
    own' := own;
    var ps := job.emits[item];
    ghost var now := outs;
    assert outs[t] + ps[..0] == outs[t];
    for i := 0 to |ps|
      invariant Stored(objs, own') && fresh(own'.arrays - own.arrays) && fresh(own'.chunks - own.chunks)
      invariant now == outs[t := outs[t] + ps[..i]]
      invariant Unread(job, table, objs, now, Below(job.reduceTasks))
    {
      own' := EmitIntermediate(job, table, t, ps[i], objs, own', now);
      now := now[t := now[t] + [ps[i]]];
      assert outs[t] + ps[..i + 1] == outs[t] + ps[..i] + [ps[i]];
    }
    assert ps[..|ps|] == ps;
  }

  lemma PickOutputs(sched: seq<Pick>, p: Pick, n: nat, outs: seq<seq<Pair>>)
    requires p.thread < n && p.item < |outs|
    ensures var a := Outputs(sched, n, outs); Outputs(sched + [p], n, outs) == a[p.thread := a[p.thread] + outs[p.item]]
  {
    OutputsSnoc(sched, p, n, outs);
    OutsOfOne(p.item, outs);
  }

  /** map: all map tasks, each on some thread, in some order. */
  method MapPhase(job: Job, table: Table, ghost objs: set<KeyvalsArr>, ghost own: Own)
    returns (ghost sched: seq<Pick>, ghost own': Own)
    requires 0 < job.reduceTasks && Grid(table, objs, job.reduceTasks) && 0 < job.mapThreads == |table|
    requires Stored(objs, own) && forall a | a in objs :: a.entries == [] && a.pos == 0
    modifies objs, own.arrays, own.chunks
    ensures Stored(objs, own') && fresh(own'.arrays - own.arrays) && fresh(own'.chunks - own.chunks)
    ensures Threads(sched, job.mapThreads) && Complete(sched, |job.emits|)
    ensures Unread(job, table, objs, Outputs(sched, job.mapThreads, job.emits), Below(job.reduceTasks))
  {
    var pending := Below(|job.emits|);
    LeftFirst(|job.emits|);
    hide Stored, Unread, Grid, Below, Left, ThreadOut;
    sched, own' := [], own;
    while pending != {}
      invariant Left(sched, pending, |job.emits|) && Threads(sched, job.mapThreads)
      invariant Stored(objs, own') && fresh(own'.arrays - own.arrays) && fresh(own'.chunks - own.chunks)
      invariant Unread(job, table, objs, Outputs(sched, job.mapThreads, job.emits), Below(job.reduceTasks))
      decreases pending
    {
      var item :| item in pending;
      var thread: nat :| thread < job.mapThreads;
      LeftPick(sched, pending, |job.emits|, Pick(thread, item));
      PickOutputs(sched, Pick(thread, item), job.mapThreads, job.emits);
      own' := RunMapTask(job, table, thread, item, objs, own', Outputs(sched, job.mapThreads, job.emits));
      sched, pending := sched + [Pick(thread, item)], pending - {item};
    }
  }

  // ---------- The reduce phase ----------

  /** A thread's iterator between two keys. */
  ghost predicate Resting(itr: VI.Iterator, lists: nat, own: Own)
    reads itr, itr.listArray, own.chunks
  {
    itr.Valid() && itr.lists == [] && itr.maxList == lists && itr.Readable(own.chunks) && itr.listArray !in own.arrays
  }

  /** intermediate_vals[..][task]. */
  function Column(table: Table, task: nat): (column: seq<KeyvalsArr>)
    requires forall t :: 0 <= t < |table| ==> task < |table[t]|
    ensures |column| == |table| && forall t :: 0 <= t < |table| ==> column[t] == table[t][task]
  {
    seq(|table|, t requires 0 <= t < |table| => table[t][task])
  }

  /** A column that nobody has read is what the do loop of the reduce task starts from. */
  lemma ColumnReady(job: Job, table: Table, task: nat, objs: set<KeyvalsArr>, own: Own, mapSched: seq<Pick>,
                    pending: set<nat>)
    requires 0 < job.reduceTasks && Grid(table, objs, job.reduceTasks) && task < job.reduceTasks && task in pending
    requires |table| == job.mapThreads && Stored(objs, own)
    requires Unread(job, table, objs, Outputs(mapSched, job.mapThreads, job.emits), pending)
    ensures Ready(Column(table, task), own) && Heads(Column(table, task), TaskViews(job, mapSched, task))
    ensures AllSorted(TaskViews(job, mapSched, task))
  {
    hide ArrHolds, WellFormed, EntriesOf, ForTask, ThreadOut, AllSorted;
    TaskViewsFormed(job, mapSched, task);
    var column, vs := Column(table, task), TaskViews(job, mapSched, task);
    forall t {:trigger vs[t]} | 0 <= t < |column|
      ensures Positions(column)[t] <= |column[t].entries| && vs[t] == column[t].entries[Positions(column)[t]..]
    {
      assert Slot(job, table[t][task], Outputs(mapSched, job.mapThreads, job.emits)[t], task);
    }
  }

  /** reduce_worker_do_next_task, after the dequeue. */
  method RunReduceTask(job: Job, table: Table, task: nat, itr: VI.Iterator, out: KeyvalArr, ghost objs: set<KeyvalsArr>,
                       ghost own: Own, ghost mapSched: seq<Pick>, ghost pending: set<nat>)
    requires 0 < job.reduceTasks && Grid(table, objs, job.reduceTasks) && task < job.reduceTasks && task in pending
    requires |table| == job.mapThreads && Stored(objs, own) && Resting(itr, job.mapThreads, own)
    requires Unread(job, table, objs, Outputs(mapSched, job.mapThreads, job.emits), pending)
    requires out.Valid() && SortedPairs(out.Contents())
    modifies itr, itr.listArray, out, out.arr, objs`pos
    ensures Stored(objs, own) && Resting(itr, job.mapThreads, own)
    ensures Unread(job, table, objs, Outputs(mapSched, job.mapThreads, job.emits), pending - {task})
    ensures out.Valid() && (out.arr == old(out.arr) || fresh(out.arr)) && out.pos == old(out.pos)
    ensures SortedPairs(out.Contents())
    ensures out.Contents() == InsertAll(old(out.Contents()), Emitted(TaskCalls(job, mapSched, task), job.reduce))
  {
    hide ArrHolds, WellFormed, SortedPairs, InsertAll, Emitted, EntriesOf, ForTask, Heads, Ready, TaskViews, ThreadOut;
    hide VI.CursorReads, VI.ListsStored, AllSorted;
    ColumnReady(job, table, task, objs, own, mapSched, pending);
    var column := Column(table, task);
    assert forall a | a in column :: a in objs;
    ghost var calls := DoTask(column, itr, out, job.reduce, TaskViews(job, mapSched, task), own);
    ghost var outs := Outputs(mapSched, job.mapThreads, job.emits);
    forall t, c {:trigger table[t][c]} | 0 <= t < |table| && 0 <= c < job.reduceTasks && c in pending - {task}
      ensures Slot(job, table[t][c], outs[t], c)
    {
      assert old(Slot(job, table[t][c], outs[t], c));
    }
  }

  ghost predicate FinalIs(v: KeyvalArr, r: seq<Pair>, bufs: set<array<Pair>>)
    reads v, bufs
  {
    v.Valid() && v.arr in bufs && v.pos == 0 && v.Contents() == r && SortedPairs(r)
  }

  /** final_vals: the threads' outputs, in arrays that share no storage. */
  ghost predicate FinalsAre(finals: seq<KeyvalArr>, rs: seq<seq<Pair>>, bufs: set<array<Pair>>)
    reads finals, bufs
  {
    && |finals| == |rs|
    && (forall i {:trigger FinalIs(finals[i], rs[i], bufs)} | 0 <= i < |finals| :: FinalIs(finals[i], rs[i], bufs))
    && forall i, j | 0 <= i < j < |finals| :: finals[i] != finals[j] && finals[i].arr != finals[j].arr
  }

  ghost predicate AllResting(itrs: seq<VI.Iterator>, lists: nat, own: Own)
    reads itrs, (set i | 0 <= i < |itrs| :: itrs[i].listArray), own.chunks
  {
    && (forall i | 0 <= i < |itrs| :: Resting(itrs[i], lists, own))
    && forall i, j | 0 <= i < j < |itrs| :: itrs[i] != itrs[j] && itrs[i].listArray != itrs[j].listArray
  }

  lemma FinalsPick(job: Job, mapSched: seq<Pick>, sched: seq<Pick>, p: Pick)
    requires 0 < job.reduceTasks && p.thread < job.reduceThreads && p.item < job.given
    ensures var rs := Finals(job, mapSched, sched);
            Finals(job, mapSched, sched + [p]) ==
            rs[p.thread := InsertAll(rs[p.thread], Emitted(TaskCalls(job, mapSched, p.item), job.reduce))]
  {
    hide InsertAll, TaskEmits, ThreadOut, Emitted, TaskCalls;
    var outs := TaskEmits(job, mapSched);
    var a, b := Finals(job, mapSched, sched), Finals(job, mapSched, sched + [p]);
    forall t | 0 <= t < job.reduceThreads
      ensures b[t] == a[p.thread := InsertAll(a[p.thread], outs[p.item])][t]
    {
      ThreadOutSnoc(sched, p, t, outs);
      if t == p.thread { InsertAllConcat([], ThreadOut(sched, t, outs), outs[p.item]); }
      else { assert ThreadOut(sched, t, outs) + [] == ThreadOut(sched, t, outs); }
    }
  }

  /** One thread of the reduce phase runs a task; the other threads' outputs and iterators are not touched. */
  method ReduceOn(job: Job, table: Table, p: Pick, itrs: seq<VI.Iterator>, finals: seq<KeyvalArr>,
                  ghost objs: set<KeyvalsArr>,
                  ghost own: Own, ghost bufs: set<array<Pair>>, ghost rs: seq<seq<Pair>>, ghost mapSched: seq<Pick>,
                  ghost pending: set<nat>) returns (ghost bufs': set<array<Pair>>)
    requires 0 < job.reduceTasks && Grid(table, objs, job.reduceTasks) && p.item < job.reduceTasks && p.item in pending
    requires |table| == job.mapThreads && Stored(objs, own) && p.thread < |itrs| == |finals|
    requires Unread(job, table, objs, Outputs(mapSched, job.mapThreads, job.emits), pending)
    requires AllResting(itrs, job.mapThreads, own) && FinalsAre(finals, rs, bufs)
    modifies itrs, (set i | 0 <= i < |itrs| :: itrs[i].listArray), finals, bufs, objs`pos
    ensures Stored(objs, own) && AllResting(itrs, job.mapThreads, own) && fresh(bufs' - bufs)
    ensures Unread(job, table, objs, Outputs(mapSched, job.mapThreads, job.emits), pending - {p.item})
    ensures |rs| == |finals|
    ensures FinalsAre(finals,
                      rs[p.thread := InsertAll(rs[p.thread], Emitted(TaskCalls(job, mapSched, p.item), job.reduce))],
                      bufs')
  {
    hide ArrHolds, WellFormed, SortedPairs, InsertAll, Emitted, Unread, TaskCalls, ThreadOut, VI.CursorReads;
    hide VI.ListsStored, Grid, Stored;
    var out := finals[p.thread];
    assert FinalIs(out, rs[p.thread], bufs);
    RunReduceTask(job, table, p.item, itrs[p.thread], out, objs, own, mapSched, pending);
    bufs' := bufs + {out.arr};
    ghost var rs' := rs[p.thread := InsertAll(rs[p.thread], Emitted(TaskCalls(job, mapSched, p.item), job.reduce))];
    forall i | 0 <= i < |finals|
      ensures FinalIs(finals[i], rs'[i], bufs')
    {
      assert old(FinalIs(finals[i], rs[i], bufs));
    }
    forall i | 0 <= i < |itrs|
      ensures Resting(itrs[i], job.mapThreads, own)
    {
      assert old(Resting(itrs[i], job.mapThreads, own));
    }
  }

  /** Each reduce thread sets up its iterator once. */
  method NewIterators(n: nat, lists: nat, ghost own: Own) returns (itrs: seq<VI.Iterator>)
    requires lists > 0
    ensures |itrs| == n && AllResting(itrs, lists, own) && fresh(itrs)
    ensures forall i | 0 <= i < n :: fresh(itrs[i].listArray)
  {
    hide VI.ListsStored;
    itrs := [];
    for i := 0 to n
      invariant |itrs| == i && AllResting(itrs, lists, own) && fresh(itrs)
      invariant forall k | 0 <= k < i :: fresh(itrs[k].listArray)
    {
      var itr := new VI.Iterator(lists);
      itrs := itrs + [itr];
    }
  }

  /** final_vals as mem_calloc leaves it. */
  method NewFinals(n: nat) returns (finals: seq<KeyvalArr>, ghost bufs: set<array<Pair>>)
    ensures FinalsAre(finals, seq(n, _ => []), bufs) && fresh(finals) && fresh(bufs)
  {
    finals, bufs := [], {};
    for i := 0 to n
      invariant FinalsAre(finals, seq(i, _ => []), bufs) && fresh(finals) && fresh(bufs)
    {
      var v := new KeyvalArr();
      finals, bufs := finals + [v], bufs + {v.arr};
      forall k | 0 <= k < |finals|
        ensures FinalIs(finals[k], [], bufs)
      {
        if k < i { assert FinalIs(finals[k], seq(i, _ => [])[k], bufs - {v.arr}); }
      }
    }
  }

  lemma NoFinals(job: Job, mapSched: seq<Pick>)
    requires 0 < job.reduceTasks
    ensures Finals(job, mapSched, []) == seq(job.reduceThreads, _ => [])
  {
    hide TaskEmits;
  }

  /** reduce: the reduce tasks handed out, each on some thread, in some order. */
  method ReducePhase(job: Job, table: Table, ghost objs: set<KeyvalsArr>, ghost own: Own, ghost mapSched: seq<Pick>)
    returns (finals: seq<KeyvalArr>, ghost sched: seq<Pick>, ghost bufs: set<array<Pair>>)
    requires job.Valid() && Grid(table, objs, job.reduceTasks) && |table| == job.mapThreads && Stored(objs, own)
    requires Unread(job, table, objs, Outputs(mapSched, job.mapThreads, job.emits), Below(job.reduceTasks))
    modifies objs`pos
    ensures Threads(sched, job.reduceThreads) && Complete(sched, job.given)
    ensures FinalsAre(finals, Finals(job, mapSched, sched), bufs) && fresh(finals)
  {
    var itrs := NewIterators(job.reduceThreads, job.mapThreads, own);
    finals, bufs := NewFinals(job.reduceThreads);
    NoFinals(job, mapSched);
    LeftFirst(job.given);
    ghost var outs := Outputs(mapSched, job.mapThreads, job.emits);
    var pending := Below(job.given);
    assert pending <= Below(job.reduceTasks);
    hide Stored, Unread, Grid, Below, Left, Finals, FinalIs, FinalsAre, AllResting, InsertAll, Emitted, TaskCalls;
    sched := [];
    while pending != {}
      invariant Left(sched, pending, job.given) && Threads(sched, job.reduceThreads)
      invariant Stored(objs, own) && AllResting(itrs, job.mapThreads, own) && Unread(job, table, objs, outs, pending)
      invariant FinalsAre(finals, Finals(job, mapSched, sched), bufs) && |finals| == job.reduceThreads && fresh(bufs)
      decreases pending
    {
      var task :| task in pending;
      var thread: nat :| thread < job.reduceThreads;
      var p := Pick(thread, task);
      LeftPick(sched, pending, job.given, p);
      FinalsPick(job, mapSched, sched, p);
      bufs := ReduceOn(job, table, p, itrs, finals, objs, own, bufs, Finals(job, mapSched, sched), mapSched, pending);
      sched, pending := sched + [p], pending - {task};
    }
  }
}
