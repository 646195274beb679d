/** MapReduceSort::run_merge (map_reduce.h:655-750): sort every queue in place, then merge neighbouring queues round by
    round until one is left. The tasks of a round are taken from the task queue in any order. */
module MergeSort {
  import opened Collections
  import opened StableSort
  import Pool = ThreadPool
  import Race = ThreadPoolRace
  import Rounds

  // The number of queues after a round: ceil(queues / 2).
  function Halved(queues: nat): nat {
    (queues + 1) / 2
  }

  // Queue number i of the next round.
  function Pair<E>(less: (E, E) -> bool, qs: seq<seq<E>>, i: nat): seq<E>
    requires i < Halved(|qs|)
  {
    if 2 * i + 1 < |qs| then Merge(less, qs[2 * i], qs[2 * i + 1]) else qs[2 * i]
  }

  function Round<E>(less: (E, E) -> bool, qs: seq<seq<E>>): seq<seq<E>> {
    seq(Halved(|qs|), i requires 0 <= i < Halved(|qs|) => Pair(less, qs, i))
  }

  // The neighbours of a sequence of parts, joined.
  function Joined<E>(parts: seq<seq<E>>): seq<seq<E>> {
    if |parts| < 2 then parts else [parts[0] + parts[1]] + Joined(parts[2..])
  }

  lemma {:induction false} JoinedAt<E>(parts: seq<seq<E>>, i: nat)
    requires i < Halved(|parts|)
    ensures |Joined(parts)| == Halved(|parts|)
    ensures Joined(parts)[i] == parts[2 * i] + if 2 * i + 1 < |parts| then parts[2 * i + 1] else []
    decreases |parts|
  {
    if |parts| >= 2 {
      if i > 0 { JoinedAt(parts[2..], i - 1); } else if |parts| > 2 { JoinedAt(parts[2..], 0); }
    }
  }

  lemma {:induction false} JoinedConcat<E>(parts: seq<seq<E>>)
    ensures Flatten(Joined(parts)) == Flatten(parts)
    decreases |parts|
  {
    if |parts| >= 2 {
      JoinedConcat(parts[2..]);
      assert parts[1..][1..] == parts[2..];
      assert ([parts[0] + parts[1]] + Joined(parts[2..]))[1..] == Joined(parts[2..]);
    }
  }

  function SortAll<E>(less: (E, E) -> bool, parts: seq<seq<E>>): seq<seq<E>> {
    seq(|parts|, i requires 0 <= i < |parts| => Sort(less, parts[i]))
  }

  // A round on sorted parts gives the sorted joined parts.
  lemma RoundSorts<E(!new)>(less: (E, E) -> bool, parts: seq<seq<E>>)
    requires StrictWeak(less)
    ensures Round(less, SortAll(less, parts)) == SortAll(less, Joined(parts))
    ensures Flatten(Joined(parts)) == Flatten(parts)
  {
    JoinedConcat(parts);
    var qs := SortAll(less, parts);
    if |parts| > 0 { JoinedAt(parts, 0); }
    forall i | 0 <= i < Halved(|parts|)
      ensures Pair(less, qs, i) == Sort(less, Joined(parts)[i])
    {
      JoinedAt(parts, i);
      if 2 * i + 1 < |parts| {
        MergeSorts(less, parts[2 * i], parts[2 * i + 1]);
      } else {
        assert Joined(parts)[i] == parts[2 * i];
      }
    }
  }

  // ------------------------------------------------------------------ the tasks

  // First sort each queue in place: tasks of length 0.
  method SortQueues<E(!new)>(less: (E, E) -> bool, vals: array<seq<E>>)
    modifies vals
    ensures vals[..] == SortAll(less, old(vals[..]))
  {
    var tasks: set<nat> := Below(vals.Length);
    while tasks != {}
      invariant forall i: nat :: i in tasks ==> i < vals.Length
      invariant forall i: nat :: i < vals.Length ==>
                  vals[i] == if i in tasks then old(vals[i]) else Sort(less, old(vals[i]))
      decreases |tasks|
    {
      var task :| task in tasks;
      vals[task] := Sort(less, vals[task]);
      tasks := tasks - {task};
    }
  }

  // The queues that task i reads are as they were.
  ghost predicate Waiting<E>(vals: array<seq<E>>, qs: seq<seq<E>>, i: nat)
    requires vals.Length == |qs| && i < Halved(|qs|)
    reads vals
  {
    vals[2 * i] == qs[2 * i] && (2 * i + 1 < |qs| ==> vals[2 * i + 1] == qs[2 * i + 1])
  }

  // Task i of a round merges two neighbouring queues into result i, or swaps the last one over.
  method MergeTask<E(!new)>(less: (E, E) -> bool, vals: array<seq<E>>, result: array<seq<E>>, i: nat,
                            ghost qs: seq<seq<E>>)
    requires vals.Length == |qs| && result.Length == Halved(|qs|) && i < result.Length && vals != result
    requires Waiting(vals, qs, i)
    modifies vals, result
    ensures result[i] == Pair(less, qs, i)
    ensures forall j :: 0 <= j < result.Length && j != i ==> result[j] == old(result[j])
    ensures forall j: nat {:trigger Waiting(vals, qs, j)} ::
              j < result.Length && j != i && old(Waiting(vals, qs, j)) ==> Waiting(vals, qs, j)
  {
    if 2 * i + 1 < vals.Length {
      result[i] := Merge(less, vals[2 * i], vals[2 * i + 1]);
    } else {
      result[i], vals[2 * i] := vals[2 * i], result[i];
    }
  }

  // One round.
  method MergeRound<E(!new)>(less: (E, E) -> bool, vals: array<seq<E>>) returns (result: array<seq<E>>)
    requires vals.Length > 1
    modifies vals
    ensures fresh(result) && result[..] == Round(less, old(vals[..])) && result.Length == Halved(vals.Length)
  {
    ghost var qs := vals[..];
    result := new seq<E>[(vals.Length + 1) / 2](_ => []);
    var tasks: set<nat> := Below(result.Length);
    hide Pair;
    while tasks != {}
      invariant forall i: nat :: i in tasks ==> i < result.Length
      invariant forall i: nat {:trigger Waiting(vals, qs, i)} :: i in tasks ==> Waiting(vals, qs, i)
      invariant forall i: nat :: i < result.Length && i !in tasks ==> result[i] == Pair(less, qs, i)
      decreases |tasks|
    {
      var task :| task in tasks;
      MergeTask(less, vals, result, task, qs);
      tasks := tasks - {task};
    }
  }

  function Min(x: nat, y: nat): nat {
    if x < y then x else y
  }

  // The workers of the merging rounds, and those of all rounds: a worker per thread for the sorting, then one for each
  // resulting queue.
  function RoundWidths(queues: nat, threads: nat): seq<nat> {
    if queues <= 1 then [] else [Min(Halved(queues), threads)] + RoundWidths(Halved(queues), threads)
  }

  function SortWidths(threads: nat): seq<nat> {
    [threads] + RoundWidths(threads, threads)
  }

  // run_merge, with a queue for each thread, leaves one queue: the stable sort of the queues one after the other, for
  // any order of the tasks, if each round ends with its work done. RunMergeEnds says when the pool sees to that.
  method RunMerge<E(!new)>(less: (E, E) -> bool, vals: array<seq<E>>)
    returns (result: array<seq<E>>, ghost widths: seq<nat>)
    requires StrictWeak(less) && vals.Length >= 1
    modifies vals
    ensures result.Length == 1 && result[0] == Sort(less, Flatten(old(vals[..])))
    ensures result == vals || fresh(result)
    ensures widths == SortWidths(vals.Length)
  {
    ghost var parts := vals[..];
    SortQueues(less, vals);
    result, widths := vals, [vals.Length];
    while result.Length > 1
      invariant result.Length >= 1 && result[..] == SortAll(less, parts) && Flatten(parts) == Flatten(old(vals[..]))
      invariant result == vals || fresh(result)
      invariant widths + RoundWidths(result.Length, vals.Length) == SortWidths(vals.Length)
      decreases result.Length
    {
      widths := widths + [Min(Halved(result.Length), vals.Length)];
      result := MergeRound(less, result);
      RoundSorts(less, parts);
      parts := Joined(parts);
    }
    OnePart(parts);
  }

  lemma OnePart<E>(parts: seq<seq<E>>)
    requires |parts| == 1
    ensures Flatten(parts) == parts[0]
  {
    assert parts[1..] == [];
  }

  // ------------------------------------------------------------------ the threads that run the rounds

  // run_merge starts one worker per thread for the sorting and then min(ceil(n / 2), n) workers for the first round of
  // merging. With two or more threads that is a narrower round, so the pool does not promise to be a barrier there.
  lemma FirstMergeRoundIsNarrower(c: Pool.Setting, k: nat)
    requires Pool.Fits(c) && k + 1 < |c.plan| && Pool.Width(c, k) >= 2
    requires Pool.Width(c, k + 1) == Min(Halved(Pool.Width(c, k)), Pool.Width(c, k))
    ensures !Race.IsBarrier(c)
  {
    Race.BarrierExactly(c);
    assert Pool.Before(c, k + 1) == Pool.Width(c, k);
  }

  // start_workers counts on the pool to return from wait only when all workers of the round have ended. For the rounds
  // of run_merge it does so, whatever the interleaving, for one thread only.
  lemma RunMergeEnds(c: Pool.Setting, threads: nat)
    requires threads >= 1 && Pool.Fits(c) && Rounds.Widths(c) == SortWidths(threads)
    ensures Race.IsBarrier(c) <==> threads == 1
  {
    if threads == 1 {
      Rounds.BarrierFor(c);
      Rounds.MonotoneRises(0, SortWidths(1));
    } else {
      assert SortWidths(threads)[1] == Halved(threads);
      assert Pool.Width(c, 0) == SortWidths(threads)[0] && Pool.Width(c, 1) == SortWidths(threads)[1];
      FirstMergeRoundIsNarrower(c, 0);
    }
  }
}
