/** The runtime as a whole: what map_reduce returns, in terms of what map emits and reduce computes. */
module MapReduce {
  import opened Collections
  import opened KeyValue
  import opened KeyvalsArray
  import opened ReduceTask
  import opened ReduceWorker
  import opened Schedule
  import MergePhase

  /** A job: what each map task emits, the user's partition and reduce, and the thread counts. Of the
      reduceTasks partitions the first `given` are handed to the reduce threads. */
  datatype Job = Job(emits: seq<seq<Pair>>, partition: real -> nat, reduce: Reducer,
                     mapThreads: nat, reduceThreads: nat, reduceTasks: nat, given: nat, mergeThreads: nat)
  {
    ghost predicate Valid() {
      && mapThreads > 0 && reduceThreads > 0 && 0 < reduceTasks && given <= reduceTasks
      && mergeThreads > 0 && (reduceThreads > 1 ==> 2 * mergeThreads <= reduceThreads)
    }
  }

  // ---------- The pipeline ----------

  /** Which reduce task a key belongs to (emit_intermediate). Keys that compare equal are given the
      same partition, which is the user's side of the contract. */
  function ReducePos(job: Job, key: Key): nat
    requires job.reduceTasks > 0
  {
    job.partition(key.rank) % job.reduceTasks
  }

  function ForTask(job: Job, ps: seq<Pair>, task: nat): seq<Pair>
    requires job.reduceTasks > 0
  {
    if ps == [] then []
    else
      var front, last := ps[..|ps| - 1], ps[|ps| - 1];
      ForTask(job, front, task) + if ReducePos(job, last.key) == task then [last] else []
  }

  /** The array a sequence of emit_intermediate calls leaves. */
  function EntriesOf(ps: seq<Pair>): seq<Entry> {
    if ps == [] then []
    else InsertEntry(EntriesOf(ps[..|ps| - 1]), ps[|ps| - 1].key, ps[|ps| - 1].val)
  }

  /** The arrays intermediate_vals[..][task], after the map phase. */
  function TaskViews(job: Job, mapSched: seq<Pick>, task: nat): (vs: Views)
    requires job.reduceTasks > 0
    ensures |vs| == job.mapThreads
    ensures forall t | 0 <= t < |vs| :: vs[t] == EntriesOf(ForTask(job, ThreadOut(mapSched, t, job.emits), task))
  {
    seq(job.mapThreads,
        t requires 0 <= t < job.mapThreads => EntriesOf(ForTask(job, ThreadOut(mapSched, t, job.emits), task)))
  }

  /** The calls of reduce for one task. */
  function TaskCalls(job: Job, mapSched: seq<Pick>, task: nat): seq<Call>
    requires job.reduceTasks > 0
  {
    ReduceCalls(TaskViews(job, mapSched, task))
  }

  /** What each reduce task emits. */
  function TaskEmits(job: Job, mapSched: seq<Pick>): (r: seq<seq<Pair>>)
    requires job.reduceTasks > 0
    ensures |r| == job.given
    ensures forall i | 0 <= i < |r| :: r[i] == Emitted(TaskCalls(job, mapSched, i), job.reduce)
  {
    seq(job.given, i requires 0 <= i < job.given => Emitted(TaskCalls(job, mapSched, i), job.reduce))
  }

  /** final_vals after the reduce phase: each thread inserts what its tasks emit. */
  function Finals(job: Job, mapSched: seq<Pick>, reduceSched: seq<Pick>): (r: seq<seq<Pair>>)
    requires job.reduceTasks > 0
    ensures |r| == job.reduceThreads
    ensures forall t | 0 <= t < |r| :: r[t] == InsertAll([], ThreadOut(reduceSched, t, TaskEmits(job, mapSched)))
  {
    seq(job.reduceThreads, t requires 0 <= t < job.reduceThreads =>
      InsertAll([], ThreadOut(reduceSched, t, TaskEmits(job, mapSched))))
  }

  function Result(job: Job, mapSched: seq<Pick>, reduceSched: seq<Pick>): seq<Pair>
    requires job.Valid()
  {
    MergePhase.MergeAll(Finals(job, mapSched, reduceSched), job.mergeThreads)
  }

  // ---------- Values of a key ----------

  /** The values emitted for a key, among ps. */
  function ValuesFor(ps: seq<Pair>, rank: real): seq<Word> {
    if ps == [] then []
    else
      var front, last := ps[..|ps| - 1], ps[|ps| - 1];
      ValuesFor(front, rank) + if last.key.rank == rank then [last.val] else []
  }

  lemma {:induction false} ValuesForConcat(a: seq<Pair>, b: seq<Pair>, rank: real)
    ensures ValuesFor(a + b, rank) == ValuesFor(a, rank) + ValuesFor(b, rank)
  {
    if b == [] {
      assert a + b == a;
    } else {
      assert (a + b)[..|a + b| - 1] == a + b[..|b| - 1];
      ValuesForConcat(a, b[..|b| - 1], rank);
    }
  }

  /** The values of a key depend only on which pairs were emitted. */
  lemma {:induction false} ValuesForPermuted(a: seq<Pair>, b: seq<Pair>, rank: real)
    requires multiset(a) == multiset(b)
    ensures multiset(ValuesFor(a, rank)) == multiset(ValuesFor(b, rank))
  {
    if a == [] {
      assert |multiset(a)| == |multiset(b)|;
    } else {
      var p := a[|a| - 1];
      assert p in multiset(a);
      assert p in multiset(b);
      var i :| 0 <= i < |b| && b[i] == p;
      RemoveSame(a, b, i);
      ValuesForPermuted(a[..|a| - 1], b[..i] + b[i + 1..], rank);
      ValuesForTakeOut(b, i, rank);
    }
  }

  lemma RemoveSame(a: seq<Pair>, b: seq<Pair>, i: nat)
    requires a != [] && i < |b| && b[i] == a[|a| - 1] && multiset(a) == multiset(b)
    ensures multiset(a[..|a| - 1]) == multiset(b[..i] + b[i + 1..])
  {
    assert a == a[..|a| - 1] + [a[|a| - 1]];
    assert b == b[..i] + [b[i]] + b[i + 1..];
    assert multiset(b[..i] + b[i + 1..]) == multiset(b) - multiset{b[i]};
  }

  lemma ValuesForTakeOut(b: seq<Pair>, i: nat, rank: real)
    requires i < |b|
    ensures multiset(ValuesFor(b, rank)) ==
            multiset(ValuesFor(b[..i] + b[i + 1..], rank)) +
            if b[i].key.rank == rank then multiset{b[i].val} else multiset{}
  {
    ValuesForOne(b[i], rank);
    hide ValuesFor;
    var left, right := b[..i], b[i + 1..];
    assert b == left + ([b[i]] + right);
    ValuesForConcat(left, [b[i]] + right, rank);
    ValuesForConcat([b[i]], right, rank);
    ValuesForConcat(left, right, rank);
  }

  lemma ValuesForOne(p: Pair, rank: real)
    ensures ValuesFor([p], rank) == if p.key.rank == rank then [p.val] else []
  {
    assert [p][..0] == [];
  }

  // ---------- The map phase ----------

  /** What insertion builds up: a well-formed array with exactly the values inserted for each key. */
  lemma {:induction false} EntriesMeaning(ps: seq<Pair>, rank: real)
    ensures WellFormed(EntriesOf(ps))
    ensures multiset(ValuesOf(EntriesOf(ps), rank)) == multiset(ValuesFor(ps, rank))
  {
    if ps != [] {
      var front, last := ps[..|ps| - 1], ps[|ps| - 1];
      EntriesMeaning(front, rank);
      hide InsertEntry, WellFormed;
      InsertEntryWellFormed(EntriesOf(front), last.key, last.val);
      InsertEntryValues(EntriesOf(front), last.key, last.val, rank);
    }
  }

  lemma {:induction false} ForTaskValues(job: Job, ps: seq<Pair>, task: nat, rank: real)
    requires job.reduceTasks > 0
    ensures ValuesFor(ForTask(job, ps, task), rank) ==
            if job.partition(rank) % job.reduceTasks == task then ValuesFor(ps, rank) else []
  {
    if ps != [] {
      var front, last := ps[..|ps| - 1], ps[|ps| - 1];
      ForTaskValues(job, front, task, rank);
      if ReducePos(job, last.key) == task {
        assert ForTask(job, ps, task) == ForTask(job, front, task) + [last];
        ValuesForConcat(ForTask(job, front, task), [last], rank);
        ValuesForOne(last, rank);
      } else {
        assert ForTask(job, ps, task) == ForTask(job, front, task);
      }
      assert ps == front + [last];
      ValuesForConcat(front, [last], rank);
    }
  }

  /** A task's arrays together hold the values of the keys that belong to the task, and no others. */
  lemma {:induction false} ViewsValues(job: Job, outs: seq<seq<Pair>>, vs: Views, task: nat, rank: real)
    requires job.reduceTasks > 0 && |vs| == |outs|
    requires forall t | 0 <= t < |vs| :: vs[t] == EntriesOf(ForTask(job, outs[t], task))
    ensures multiset(AllValues(vs, rank)) ==
            multiset(if job.partition(rank) % job.reduceTasks == task then ValuesFor(Flatten(outs), rank) else [])
  {
    if vs != [] {
      hide ValuesOf, EntriesOf, ForTask, ValuesFor;
      ViewsValues(job, outs[1..], vs[1..], task, rank);
      EntriesMeaning(ForTask(job, outs[0], task), rank);
      ForTaskValues(job, outs[0], task, rank);
      ValuesForConcat(outs[0], Flatten(outs[1..]), rank);
    }
  }

  lemma {:induction false} HasValues(v: seq<Entry>, rank: real)
    requires forall i | 0 <= i < |v| :: WellFilled(v[i].chunks)
    ensures Has(v, rank) <==> ValuesOf(v, rank) != []
  {
    if v != [] {
      HasValues(v[1..], rank);
      FlattenNonempty(v[0].chunks);
    }
  }

  lemma {:induction false} PresentValues(vs: Views, rank: real)
    requires forall t | 0 <= t < |vs| :: WellFormed(vs[t])
    ensures Present(vs, rank) <==> AllValues(vs, rank) != []
  {
    if vs != [] {
      PresentValues(vs[1..], rank);
      HasValues(vs[0], rank);
      hide Has, ValuesOf, WellFormed;
      assert forall t | 0 <= t < |vs[1..]| :: vs[1..][t] == vs[t + 1];
      if Present(vs, rank) && !Has(vs[0], rank) {
        var t :| 0 <= t < |vs| && Has(vs[t], rank);
        assert Has(vs[1..][t - 1], rank);
      }
    }
  }

  /** The values a task's arrays hold, in terms of what the map tasks emitted, for any way of sharing
      the map tasks among the threads. */
  lemma TaskValues(job: Job, mapSched: seq<Pick>, task: nat, rank: real)
    requires job.Valid() && Threads(mapSched, job.mapThreads) && Complete(mapSched, |job.emits|)
    ensures multiset(AllValues(TaskViews(job, mapSched, task), rank)) ==
            multiset(if job.partition(rank) % job.reduceTasks == task then ValuesFor(Flatten(job.emits), rank) else [])
  {
    hide ValuesFor, AllValues, EntriesOf, ForTask, ThreadOut, Flatten, Complete;
    var outs := Outputs(mapSched, job.mapThreads, job.emits);
    ViewsValues(job, outs, TaskViews(job, mapSched, task), task, rank);
    SharingIrrelevant(mapSched, job.mapThreads, job.emits);
    ValuesForPermuted(Flatten(outs), Flatten(job.emits), rank);
  }

  lemma TaskViewsFormed(job: Job, mapSched: seq<Pick>, task: nat)
    requires job.reduceTasks > 0
    ensures AllSorted(TaskViews(job, mapSched, task))
    ensures forall t | 0 <= t < job.mapThreads :: WellFormed(TaskViews(job, mapSched, task)[t])
  {
    hide EntriesOf, ForTask, ThreadOut;
    forall t | 0 <= t < job.mapThreads ensures WellFormed(TaskViews(job, mapSched, task)[t]) {
      EntriesMeaning(ForTask(job, ThreadOut(mapSched, t, job.emits), task), 0.0);
    }
  }

  // ---------- The reduce phase ----------

  /** One task calls reduce once for each emitted key that belongs to it, on all its values. */
  lemma TaskCallsMeaning(job: Job, mapSched: seq<Pick>, task: nat)
    requires job.Valid() && Threads(mapSched, job.mapThreads) && Complete(mapSched, |job.emits|)
    ensures forall i, j | 0 <= i < j < |TaskCalls(job, mapSched, task)| ::
              TaskCalls(job, mapSched, task)[i].key.rank < TaskCalls(job, mapSched, task)[j].key.rank
    ensures forall i | 0 <= i < |TaskCalls(job, mapSched, task)| ::
              multiset(TaskCalls(job, mapSched, task)[i].vals) ==
              multiset(ValuesFor(Flatten(job.emits), TaskCalls(job, mapSched, task)[i].key.rank))
    ensures forall rank :: Called(TaskCalls(job, mapSched, task), rank) <==>
              job.partition(rank) % job.reduceTasks == task && ValuesFor(Flatten(job.emits), rank) != []
  {
    hide TaskViews, ValuesFor, Flatten, ReduceCalls, Present, AllValues, WellFormed, AllSorted, Threads, Complete;
    var vs := TaskViews(job, mapSched, task);
    TaskViewsFormed(job, mapSched, task);
    CallsAscend(vs);
    var calls := ReduceCalls(vs);
    forall rank ensures Called(calls, rank) <==>
                          job.partition(rank) % job.reduceTasks == task && ValuesFor(Flatten(job.emits), rank) != [] {
      CallsCover(vs, rank);
      PresentValues(vs, rank);
      TaskValues(job, mapSched, task, rank);
      SameSize(AllValues(vs, rank),
               if job.partition(rank) % job.reduceTasks == task then ValuesFor(Flatten(job.emits), rank) else []);
    }
    forall i | 0 <= i < |calls|
      ensures multiset(calls[i].vals) == multiset(ValuesFor(Flatten(job.emits), calls[i].key.rank))
    {
      CallsValues(vs, i);
      TaskValues(job, mapSched, task, calls[i].key.rank);
      assert Called(calls, calls[i].key.rank);
    }
  }

  lemma SameSize<T>(a: seq<T>, b: seq<T>)
    requires multiset(a) == multiset(b)
    ensures |a| == |b|
  {
    assert |multiset(a)| == |a| && |multiset(b)| == |b|;
  }

  /** The calls of all tasks below n, task by task. */
  function CallsBelow(job: Job, mapSched: seq<Pick>, n: nat): seq<Call>
    requires job.reduceTasks > 0
  {
    if n == 0 then [] else CallsBelow(job, mapSched, n - 1) + TaskCalls(job, mapSched, n - 1)
  }

  /** calls is right for the tasks from lo up to hi: once per emitted key that belongs to one of
      them, on all and only the values emitted for it. */
  ghost predicate RightCalls(job: Job, calls: seq<Call>, lo: nat, hi: nat)
    requires job.reduceTasks > 0
  {
    && (forall i, j | 0 <= i < j < |calls| :: calls[i].key.rank != calls[j].key.rank)
    && (forall i | 0 <= i < |calls| ::
          multiset(calls[i].vals) == multiset(ValuesFor(Flatten(job.emits), calls[i].key.rank)))
    && forall rank :: Called(calls, rank) <==>
         lo <= job.partition(rank) % job.reduceTasks < hi && ValuesFor(Flatten(job.emits), rank) != []
  }

  lemma CalledConcat(a: seq<Call>, b: seq<Call>, rank: real)
    ensures Called(a + b, rank) <==> Called(a, rank) || Called(b, rank)
  {
    assert forall i | 0 <= i < |a| :: (a + b)[i] == a[i];
    assert forall i | 0 <= i < |b| :: (a + b)[|a| + i] == b[i];
  }

  lemma RightCallsJoin(job: Job, a: seq<Call>, b: seq<Call>, lo: nat, mid: nat, hi: nat)
    requires job.reduceTasks > 0 && lo <= mid <= hi
    requires RightCalls(job, a, lo, mid) && RightCalls(job, b, mid, hi)
    ensures RightCalls(job, a + b, lo, hi)
  {
    hide ValuesFor, Flatten;
    var calls := a + b;
    forall rank ensures Called(calls, rank) <==>
      lo <= job.partition(rank) % job.reduceTasks < hi && ValuesFor(Flatten(job.emits), rank) != []
    {
      CalledConcat(a, b, rank);
    }
    forall i, j | 0 <= i < j < |calls| ensures calls[i].key.rank != calls[j].key.rank {
      if i < |a| <= j {
        assert Called(a, calls[i].key.rank);
        assert Called(b, b[j - |a|].key.rank);
      }
    }
  }

  /** The tasks' calls together: the keys are split among the tasks by the partition. */
  lemma {:induction false} CallsBelowRight(job: Job, mapSched: seq<Pick>, n: nat)
    requires job.Valid() && Threads(mapSched, job.mapThreads) && Complete(mapSched, |job.emits|)
    ensures RightCalls(job, CallsBelow(job, mapSched, n), 0, n)
  {
    hide RightCalls, TaskCalls, Complete, Threads;
    if n == 0 {
      NoCallsRight(job);
    } else {
      CallsBelowRight(job, mapSched, n - 1);
      TaskCallsRight(job, mapSched, n - 1);
      RightCallsJoin(job, CallsBelow(job, mapSched, n - 1), TaskCalls(job, mapSched, n - 1), 0, n - 1, n);
    }
  }

  lemma NoCallsRight(job: Job)
    requires job.reduceTasks > 0
    ensures RightCalls(job, [], 0, 0)
  {
  }

  lemma TaskCallsRight(job: Job, mapSched: seq<Pick>, task: nat)
    requires job.Valid() && Threads(mapSched, job.mapThreads) && Complete(mapSched, |job.emits|)
    ensures RightCalls(job, TaskCalls(job, mapSched, task), task, task + 1)
  {
    hide TaskCalls, ValuesFor, Flatten, Threads, Complete;
    TaskCallsMeaning(job, mapSched, task);
  }

  lemma {:induction false} EmittedConcat(a: seq<Call>, b: seq<Call>, reduce: Reducer)
    ensures Emitted(a + b, reduce) == Emitted(a, reduce) + Emitted(b, reduce)
  {
    if b == [] {
      assert a + b == a;
    } else {
      assert (a + b)[..|a + b| - 1] == a + b[..|b| - 1];
      EmittedConcat(a, b[..|b| - 1], reduce);
    }
  }

  lemma NoEmits(job: Job, mapSched: seq<Pick>)
    requires 0 < job.reduceTasks
    ensures Flatten(TaskEmits(job, mapSched)[..0]) == Emitted(CallsBelow(job, mapSched, 0), job.reduce)
  {
    hide TaskCalls, TaskEmits;
    assert TaskEmits(job, mapSched)[..0] == [];
  }

  lemma {:induction false} EmitsBelow(job: Job, mapSched: seq<Pick>, n: nat)
    requires 0 < job.reduceTasks && n <= job.given
    ensures Flatten(TaskEmits(job, mapSched)[..n]) == Emitted(CallsBelow(job, mapSched, n), job.reduce)
  {
    hide TaskCalls, TaskEmits, Flatten, Emitted, CallsBelow;
    if n == 0 {
      NoEmits(job, mapSched);
    } else {
      EmitsBelow(job, mapSched, n - 1);
      EmitsStep(job, mapSched, n - 1);
    }
  }

  lemma EmitsStep(job: Job, mapSched: seq<Pick>, i: nat)
    requires 0 < job.reduceTasks && i < job.given
    requires Flatten(TaskEmits(job, mapSched)[..i]) == Emitted(CallsBelow(job, mapSched, i), job.reduce)
    ensures Flatten(TaskEmits(job, mapSched)[..i + 1]) == Emitted(CallsBelow(job, mapSched, i + 1), job.reduce)
  {
    hide TaskCalls, Emitted, TaskEmits, Flatten;
    EmittedConcat(CallsBelow(job, mapSched, i), TaskCalls(job, mapSched, i), job.reduce);
    var outs := TaskEmits(job, mapSched);
    assert outs[..i + 1] == outs[..i] + [outs[i]];
    FlattenSnoc(outs[..i], outs[i]);
  }

  lemma {:induction false} FlattenPointwise(a: seq<seq<Pair>>, b: seq<seq<Pair>>)
    requires |a| == |b| && forall i | 0 <= i < |a| :: multiset(a[i]) == multiset(b[i])
    ensures multiset(Flatten(a)) == multiset(Flatten(b))
  {
    if a != [] {
      FlattenPointwise(a[1..], b[1..]);
    }
  }

  /** Each reduce thread leaves a sorted run; together the runs hold what the tasks emit, for any way
      of sharing the reduce tasks among the threads. */
  lemma FinalsMeaning(job: Job, mapSched: seq<Pick>, reduceSched: seq<Pick>)
    requires job.Valid() && Threads(reduceSched, job.reduceThreads) && Complete(reduceSched, job.given)
    ensures MergePhase.AllSorted(Finals(job, mapSched, reduceSched))
    ensures multiset(Flatten(Finals(job, mapSched, reduceSched))) == multiset(Flatten(TaskEmits(job, mapSched)))
  {
    hide InsertAll, ThreadOut, Flatten, Emitted, TaskCalls, SortedPairs, Complete, Threads, TaskEmits, Finals, Outputs;
    var outs := TaskEmits(job, mapSched);
    var finals := Finals(job, mapSched, reduceSched);
    var given := Outputs(reduceSched, job.reduceThreads, outs);
    forall t | 0 <= t < |finals| ensures SortedPairs(finals[t]) && multiset(finals[t]) == multiset(given[t]) {
      NothingUnsorted();
      InsertAllMeaning([], given[t]);
    }
    FlattenPointwise(finals, given);
    SharingIrrelevant(reduceSched, job.reduceThreads, outs);
  }

  /** Some map task emits the key. */
  ghost predicate Emits(emits: seq<seq<Pair>>, rank: real) {
    exists p | p in Flatten(emits) :: p.key.rank == rank
  }

  lemma NothingUnsorted()
    ensures SortedPairs([])
  {
  }

  /** For every input, and every way of sharing map tasks and reduce tasks among the threads: the
      result is sorted by key, and it consists of what reduce emits when it is called once for each
      key that any map task emitted and that falls to one of the tasks handed out, on all the values
      emitted for that key. */
  lemma ResultMeaning(job: Job, mapSched: seq<Pick>, reduceSched: seq<Pick>) returns (calls: seq<Call>)
    requires job.Valid()
    requires Threads(mapSched, job.mapThreads) && Complete(mapSched, |job.emits|)
    requires Threads(reduceSched, job.reduceThreads) && Complete(reduceSched, job.given)
    ensures SortedPairs(Result(job, mapSched, reduceSched))
    ensures multiset(Result(job, mapSched, reduceSched)) == multiset(Emitted(calls, job.reduce))
    ensures forall i, j | 0 <= i < j < |calls| :: calls[i].key.rank != calls[j].key.rank
    ensures forall rank :: Called(calls, rank) <==>
              Emits(job.emits, rank) && job.partition(rank) % job.reduceTasks < job.given
    ensures forall i | 0 <= i < |calls| ::
              multiset(calls[i].vals) == multiset(ValuesFor(Flatten(job.emits), calls[i].key.rank))
  {
    hide Flatten, Emitted, Finals, TaskEmits, MergePhase.MergeAll, ValuesFor, Complete, Threads, SortedPairs;
    hide CallsBelow;
    var all := job.given;
    calls := CallsBelow(job, mapSched, all);
    CallsBelowRight(job, mapSched, all);
    FinalsMeaning(job, mapSched, reduceSched);
    MergePhase.MergeAllMeaning(Finals(job, mapSched, reduceSched), job.mergeThreads);
    EmitsBelow(job, mapSched, all);
    assert TaskEmits(job, mapSched)[..all] == TaskEmits(job, mapSched);
    forall rank ensures Called(calls, rank) <==> Emits(job.emits, rank) && job.partition(rank) % job.reduceTasks < all {
      ValuesForSome(Flatten(job.emits), rank);
    }
  }

  lemma {:induction false} ValuesForSome(ps: seq<Pair>, rank: real)
    ensures ValuesFor(ps, rank) != [] <==> exists p | p in ps :: p.key.rank == rank
  {
    if ps != [] {
      var front, last := ps[..|ps| - 1], ps[|ps| - 1];
      ValuesForSome(front, rank);
      assert ps == front + [last];
    }
  }
}
